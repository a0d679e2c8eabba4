/** The content graph as the inputs give it, by identity, and how the graph of the
    tables represents it. */
module ContentInputs {
  import opened ContentRuns
  import opened ContentGraph
  import opened ContentClosure
  import opened ContentTables
  import opened ContentConsistency

  // ----- the graph of the tables -----

  function ShapeOf(node: Node, runs: seq<Run>): Shape {
    if node.atom.Some? then Atom(node.atom.value)
    else if node.form.Some? && node.form.value.first + node.form.value.count <= |runs| then Composed(FormOf(node, runs))
    else Missing
  }

  function GraphOf(t: Tables): (g: Graph)
    ensures |g| == |t.nodes|
  {
    seq(|t.nodes|, n requires 0 <= n < |t.nodes| => ShapeOf(t.nodes[n], t.runs))
  }

  lemma GraphIsWellFormed(t: Tables)
    requires TablesOk(t)
    ensures WellFormed(GraphOf(t))
  {
    forall n | 0 <= n < |t.nodes|
      ensures NodeOk(t.nodes[n], |t.nodes|, t.runs, t.known)
    {
    }
  }

  /** A composed node stands for the children its admitted forms list. */
  lemma FormInGraph(source: SourceInput, t: Tables)
    requires TablesOk(t) && SourceAdmitted(source, t) && HasTopology(source)
    ensures var n := t.index[source.entity];
      && GraphOf(t)[n].Composed?
      && Expand(GraphOf(t)[n].runs) == Expand(CarrierRuns(t.index, source.carriers))
  {
    NormalizeExpands(CarrierRuns(t.index, source.carriers));
  }

  // ----- the graph of the inputs -----

  ghost predicate IsAtom(input: Input, id: Id) {
    exists i | 0 <= i < |input.atoms| :: input.atoms[i].entity == id
  }

  ghost predicate IsForm(source: SourceInput, id: Id) {
    source.entity == id && HasTopology(source)
  }

  ghost predicate HasForm(input: Input, id: Id) {
    exists i | 0 <= i < |input.sources| :: IsForm(input.sources[i], id)
  }

  ghost predicate Lists(source: SourceInput, child: Id) {
    exists c | 0 <= c < |source.carriers| :: source.carriers[c].Some? && source.carriers[c].value.entity == child
  }

  /** Some form of a lists b. */
  ghost predicate IdEdge(input: Input, a: Id, b: Id) {
    exists i | 0 <= i < |input.sources| :: IsForm(input.sources[i], a) && Lists(input.sources[i], b)
  }

  ghost predicate IdChain(input: Input, p: seq<Id>) {
    && p != [] && (forall i | 0 <= i < |p| :: p[i] in Mentioned(input))
    && (forall i | 0 < i < |p| :: IdEdge(input, p[i - 1], p[i]))
  }

  ghost predicate IdCyclic(input: Input) {
    exists p :: IdChain(input, p) && |p| >= 2 && p[0] == p[|p| - 1]
  }

  ghost predicate IdChainOf(input: Input, length: nat) {
    exists p :: IdChain(input, p) && |p| == length
  }

  /** The identities nothing supplied says anything about. */
  ghost predicate Unsupplied(input: Input, id: Id) {
    id in Mentioned(input) && !IsAtom(input, id) && !HasForm(input, id)
  }

  // ----- which forms supply children -----

  /** The identities mentioned are those of roots, atoms and forms, and the children of
      forms that are neither atomic nor of logical count 1. */
  lemma MentionedExactly(input: Input, id: Id)
    ensures id in Mentioned(input) <==>
      || (exists i | 0 <= i < |input.roots| :: input.roots[i] == id)
      || (exists i | 0 <= i < |input.atoms| :: input.atoms[i].entity == id)
      || (exists i | 0 <= i < |input.sources| :: input.sources[i].entity == id)
      || (exists i | 0 <= i < |input.sources| :: !input.sources[i].atomic && input.sources[i].logicalCount != 1 && Lists(input.sources[i], id))
  {
    if i :| 0 <= i < |input.roots| && input.roots[i] == id {
      RootMentioned(input, i);
    }
    if i :| 0 <= i < |input.atoms| && input.atoms[i].entity == id {
      AtomMentioned(input, i);
    }
    if i :| 0 <= i < |input.sources| && input.sources[i].entity == id {
      SourceMentioned(input, i);
    }
    if i :| 0 <= i < |input.sources| && !input.sources[i].atomic && input.sources[i].logicalCount != 1 && Lists(input.sources[i], id) {
      SourceMentioned(input, i);
    }
    if s, c :| s in input.sources && HasTopology(s) && c in s.carriers && c.Some? && c.value.entity == id {
      var i :| 0 <= i < |input.sources| && input.sources[i] == s;
      var k :| 0 <= k < |s.carriers| && s.carriers[k] == c;
      assert Lists(input.sources[i], id);
    }
  }

  /** What is mentioned, is no atom and has only forms that are atomic or of logical
      count 1, is missing; and nothing else is. */
  lemma UnsuppliedExactly(input: Input, id: Id)
    ensures Unsupplied(input, id) <==>
      && id in Mentioned(input)
      && (forall i | 0 <= i < |input.atoms| :: input.atoms[i].entity != id)
      && (forall i | 0 <= i < |input.sources| && input.sources[i].entity == id :: input.sources[i].atomic || input.sources[i].logicalCount == 1)
  {
    hide Mentioned;
    if i :| 0 <= i < |input.sources| && input.sources[i].entity == id && !input.sources[i].atomic && input.sources[i].logicalCount != 1 {
      assert IsForm(input.sources[i], id);
    }
  }

  /** An entity has a child exactly when a form of it that is neither atomic nor of
      logical count 1 has a carrier for that child. */
  lemma EdgeExactly(input: Input, a: Id, b: Id)
    ensures IdEdge(input, a, b) <==>
      exists i | 0 <= i < |input.sources| ::
        input.sources[i].entity == a && !input.sources[i].atomic && input.sources[i].logicalCount != 1 && Lists(input.sources[i], b)
  {
    hide Lists;
    if i :| 0 <= i < |input.sources| && input.sources[i].entity == a && !input.sources[i].atomic && input.sources[i].logicalCount != 1 && Lists(input.sources[i], b) {
      assert IsForm(input.sources[i], a);
    }
  }

  /** Two forms contradict each other exactly when they give an entity two witnesses, or
      two child lists, neither form being atomic or of logical count 1. */
  lemma ContradictExactly(a: SourceInput, b: SourceInput)
    ensures !SourcesAgree(a, b) <==>
      && a.entity == b.entity
      && (a.identityWitness != b.identityWitness ||
          (!a.atomic && a.logicalCount != 1 && !b.atomic && b.logicalCount != 1 && Readable(a.carriers) && Readable(b.carriers) &&
           ChildIds(a.carriers) != ChildIds(b.carriers)))
  {
  }

  ghost function WithForm(input: Input, source: SourceInput): Input {
    input.(sources := input.sources + [source])
  }

  /** A form that is atomic or of logical count 1 supplies nothing: it adds its own
      identity, but no edge, no cycle and no chain of more than that identity; it does
      not make its entity any less missing; and it is consistent with the rest exactly
      when it is in order itself and nothing gives its entity another witness. */
  lemma TransparentSuppliesNothing(input: Input, source: SourceInput)
    requires source.atomic || source.logicalCount == 1
    ensures Mentioned(WithForm(input, source)) == Mentioned(input) + {source.entity}
    ensures forall a, b :: IdEdge(WithForm(input, source), a, b) <==> IdEdge(input, a, b)
    ensures IdCyclic(WithForm(input, source)) <==> IdCyclic(input)
    ensures forall n: nat | n >= 2 :: IdChainOf(WithForm(input, source), n) <==> IdChainOf(input, n)
    ensures forall id | id in Mentioned(input) :: Unsupplied(WithForm(input, source), id) <==> Unsupplied(input, id)
    ensures Consistent(WithForm(input, source)) <==> Consistent(input) && SourceFits(source, input.atoms, input.sources)
    ensures SourceFits(source, input.atoms, input.sources) <==>
      && source.valid && WitnessFits(source.entity, source.identityWitness)
      && (source.realizedWitness.Some? ==> source.realizedWitness.value == source.identityWitness)
      && (forall i | 0 <= i < |input.atoms| && input.atoms[i].entity == source.entity :: input.atoms[i].identityWitness == source.identityWitness)
      && (forall i | 0 <= i < |input.sources| && input.sources[i].entity == source.entity :: input.sources[i].identityWitness == source.identityWitness)
  {
    TransparentMentions(input, source);
    TransparentEdges(input, source);
    TransparentChains(input, source);
    TransparentFits(input, source);
  }

  lemma TransparentMentions(input: Input, source: SourceInput)
    requires source.atomic || source.logicalCount == 1
    ensures Mentioned(WithForm(input, source)) == Mentioned(input) + {source.entity}
    ensures forall id | id in Mentioned(input) :: Unsupplied(WithForm(input, source), id) <==> Unsupplied(input, id)
  {
    hide Mentioned, Lists;
    var longer := WithForm(input, source);
    assert longer.sources[|input.sources|] == source;
    assert forall i | 0 <= i < |input.sources| :: longer.sources[i] == input.sources[i];
    forall id
      ensures id in Mentioned(longer) <==> id in Mentioned(input) + {source.entity}
    {
      MentionedExactly(input, id);
      MentionedExactly(longer, id);
    }
    forall id | id in Mentioned(input)
      ensures Unsupplied(longer, id) <==> Unsupplied(input, id)
    {
      UnsuppliedExactly(input, id);
      UnsuppliedExactly(longer, id);
    }
  }

  lemma TransparentEdges(input: Input, source: SourceInput)
    requires source.atomic || source.logicalCount == 1
    ensures forall a, b :: IdEdge(WithForm(input, source), a, b) <==> IdEdge(input, a, b)
  {
    var longer := WithForm(input, source);
    forall a, b
      ensures IdEdge(longer, a, b) <==> IdEdge(input, a, b)
    {
      hide Lists;
      if i :| 0 <= i < |input.sources| && IsForm(input.sources[i], a) && Lists(input.sources[i], b) {
        assert longer.sources[i] == input.sources[i];
      }
    }
  }

  lemma EdgeMentioned(input: Input, a: Id, b: Id)
    requires IdEdge(input, a, b)
    ensures a in Mentioned(input) && b in Mentioned(input)
  {
    hide Mentioned, Lists;
    MentionedExactly(input, a);
    MentionedExactly(input, b);
  }

  lemma TransparentChains(input: Input, source: SourceInput)
    requires source.atomic || source.logicalCount == 1
    ensures IdCyclic(WithForm(input, source)) <==> IdCyclic(input)
    ensures forall n: nat | n >= 2 :: IdChainOf(WithForm(input, source), n) <==> IdChainOf(input, n)
  {
    hide Mentioned, IdEdge;
    var longer := WithForm(input, source);
    TransparentMentions(input, source);
    TransparentEdges(input, source);
    forall p: seq<Id> | |p| >= 2
      ensures IdChain(longer, p) <==> IdChain(input, p)
    {
      if IdChain(longer, p) {
        forall i | 0 <= i < |p|
          ensures p[i] in Mentioned(input)
        {
          var k := if i == 0 then 1 else i;
          EdgeMentioned(input, p[k - 1], p[k]);
        }
      }
    }
  }

  lemma TransparentFits(input: Input, source: SourceInput)
    requires source.atomic || source.logicalCount == 1
    ensures Consistent(WithForm(input, source)) <==> Consistent(input) && SourceFits(source, input.atoms, input.sources)
    ensures SourceFits(source, input.atoms, input.sources) <==>
      && source.valid && WitnessFits(source.entity, source.identityWitness)
      && (source.realizedWitness.Some? ==> source.realizedWitness.value == source.identityWitness)
      && (forall i | 0 <= i < |input.atoms| && input.atoms[i].entity == source.entity :: input.atoms[i].identityWitness == source.identityWitness)
      && (forall i | 0 <= i < |input.sources| && input.sources[i].entity == source.entity :: input.sources[i].identityWitness == source.identityWitness)
  {
    hide WitnessFits;
    var longer := WithForm(input, source);
    assert longer.sources[|input.sources|] == source && longer.sources[..|input.sources|] == input.sources;
    assert forall i | 0 <= i < |input.sources| :: longer.sources[i] == input.sources[i] && longer.sources[..i] == input.sources[..i];
    FormsFitStill(input, longer);
  }

  lemma FormsFitStill(input: Input, longer: Input)
    requires longer.atoms == input.atoms && input.sources <= longer.sources && |longer.sources| == |input.sources| + 1
    ensures Consistent(longer) <==> Consistent(input) && SourceFits(longer.sources[|input.sources|], input.atoms, input.sources)
  {
    hide SourceFits, AtomFits;
    assert longer.sources[..|input.sources|] == input.sources;
    forall i | 0 <= i < |input.sources|
      ensures SourceFits(longer.sources[i], longer.atoms, longer.sources[..i]) == SourceFits(input.sources[i], input.atoms, input.sources[..i])
    {
      assert longer.sources[..i] == input.sources[..i];
    }
  }

  // ----- one represents the other -----

  lemma ShapeSays(input: Input, t: Tables, n: nat)
    requires Represents(input, t) && n < |t.nodes|
    ensures GraphOf(t)[n].Atom? <==> IsAtom(input, t.nodes[n].id)
    ensures GraphOf(t)[n].Composed? <==> HasForm(input, t.nodes[n].id)
    ensures GraphOf(t)[n] == Missing <==> Unsupplied(input, t.nodes[n].id)
  {
    hide Mentioned, Normalize;
    var id := t.nodes[n].id;
    assert NodeOk(t.nodes[n], |t.nodes|, t.runs, t.known) && NodeTraced(t.nodes[n], t, input.atoms, input.sources);
    if i :| 0 <= i < |input.atoms| && input.atoms[i].entity == id {
      assert AtomAdmitted(input.atoms[i], t);
    }
    if i :| 0 <= i < |input.sources| && IsForm(input.sources[i], id) {
      assert SourceAdmitted(input.sources[i], t);
    }
    if t.nodes[n].form.Some? {
      var i :| 0 <= i < |input.sources| && FormFrom(id, FormOf(t.nodes[n], t.runs), t.index, input.sources[i]);
      assert IsForm(input.sources[i], id);
    }
  }

  /** A node's runs name exactly the nodes their expansion holds. */
  lemma {:induction false} ExpandMembers(runs: seq<Run>, x: nat)
    requires Positive(runs)
    ensures x in Expand(runs) <==> exists i | 0 <= i < |runs| :: runs[i].node == x
  {
    if runs != [] {
      ExpandMembers(runs[1..], x);
      assert x in Repeat(runs[0].node, runs[0].count) <==> runs[0].node == x by {
        assert Repeat(runs[0].node, runs[0].count)[0] == runs[0].node;
      }
      if i :| 0 <= i < |runs| && runs[i].node == x {
        assert i > 0 ==> runs[1..][i - 1].node == x;
      }
    }
  }

  lemma FormLists(t: Tables, source: SourceInput, n: nat, b: nat)
    requires TablesOk(t) && n < |t.nodes| && b < |t.nodes| && t.nodes[n].atom.None? && t.nodes[n].form.Some?
    requires NodeOk(t.nodes[n], |t.nodes|, t.runs, t.known) && FormFrom(t.nodes[n].id, FormOf(t.nodes[n], t.runs), t.index, source)
    ensures Edge(GraphOf(t), n, b) <==> Lists(source, t.nodes[b].id)
  {
    hide Normalize, Expand;
    var runs, form := CarrierRuns(t.index, source.carriers), FormOf(t.nodes[n], t.runs);
    NormalizeExpands(runs);
    ExpandMembers(runs, b);
    ExpandMembers(form, b);
    assert GraphOf(t)[n] == Composed(form);
    if c :| 0 <= c < |source.carriers| && source.carriers[c].value.entity == t.nodes[b].id {
      assert runs[c].node == b;
    }
    if i :| 0 <= i < |runs| && runs[i].node == b {
      assert t.nodes[t.index[source.carriers[i].value.entity]].id == source.carriers[i].value.entity;
    }
  }

  lemma EdgeSays(input: Input, t: Tables, a: nat, b: nat)
    requires Represents(input, t) && a < |t.nodes| && b < |t.nodes|
    ensures Edge(GraphOf(t), a, b) <==> IdEdge(input, t.nodes[a].id, t.nodes[b].id)
  {
    hide Normalize, Mentioned, Edge, Lists;
    var id := t.nodes[a].id;
    ShapeSays(input, t, a);
    assert NodeOk(t.nodes[a], |t.nodes|, t.runs, t.known) && NodeTraced(t.nodes[a], t, input.atoms, input.sources);
    if Edge(GraphOf(t), a, b) {
      assert GraphOf(t)[a].Composed? by {
        EdgeComposed(GraphOf(t), a, b);
      }
      var i :| 0 <= i < |input.sources| && FormFrom(id, FormOf(t.nodes[a], t.runs), t.index, input.sources[i]);
      FormLists(t, input.sources[i], a, b);
      assert IsForm(input.sources[i], id);
    }
    if i :| 0 <= i < |input.sources| && IsForm(input.sources[i], id) && Lists(input.sources[i], t.nodes[b].id) {
      assert SourceAdmitted(input.sources[i], t);
      assert FormFrom(id, FormOf(t.nodes[a], t.runs), t.index, input.sources[i]);
      FormLists(t, input.sources[i], a, b);
    }
  }

  lemma EdgeComposed(g: Graph, a: nat, b: nat)
    requires a < |g| && Edge(g, a, b)
    ensures g[a].Composed?
  {
  }

  ghost function IdsOf(t: Tables, p: seq<nat>): (ids: seq<Id>)
    requires InGraph(GraphOf(t), p)
    ensures |ids| == |p| && forall i | 0 <= i < |p| :: ids[i] == t.nodes[p[i]].id
  {
    seq(|p|, i requires 0 <= i < |p| => t.nodes[p[i]].id)
  }

  lemma ChainToIds(input: Input, t: Tables, p: seq<nat>)
    requires Represents(input, t) && Chain(GraphOf(t), p)
    ensures InGraph(GraphOf(t), p) && IdChain(input, IdsOf(t, p))
  {
    hide Mentioned, AllAdmitted, Traced, Edge, IdEdge, GraphOf;
    var ids := IdsOf(t, p);
    forall i | 0 < i < |p|
      ensures IdEdge(input, ids[i - 1], ids[i])
    {
      EdgeSays(input, t, p[i - 1], p[i]);
    }
  }

  lemma ChainFromIds(input: Input, t: Tables, ids: seq<Id>) returns (p: seq<nat>)
    requires Represents(input, t) && IdChain(input, ids)
    ensures Chain(GraphOf(t), p) && |p| == |ids| && forall i | 0 <= i < |p| :: ids[i] in t.index && p[i] == t.index[ids[i]]
  {
    hide Mentioned, Traced, Edge, IdEdge, GraphOf;
    RepresentedAll(input, t);
    p := seq(|ids|, i requires 0 <= i < |ids| => t.index[ids[i]]);
    forall i | 0 <= i < |ids|
      ensures p[i] < |t.nodes| && t.nodes[p[i]].id == ids[i]
    {
      assert ids[i] in t.index;
    }
    forall i | 0 < i < |p|
      ensures Edge(GraphOf(t), p[i - 1], p[i])
    {
      EdgeSays(input, t, p[i - 1], p[i]);
      assert IdEdge(input, ids[i - 1], ids[i]);
    }
  }

  /** The tables have a cycle exactly when the inputs do. */
  lemma CyclicSays(input: Input, t: Tables)
    requires Represents(input, t)
    ensures Cyclic(GraphOf(t)) <==> IdCyclic(input)
  {
    hide Represents, GraphOf, Edge, IdEdge, Mentioned;
    if Cyclic(GraphOf(t)) {
      var p :| Chain(GraphOf(t), p) && |p| >= 2 && p[0] == p[|p| - 1];
      ChainToIds(input, t, p);
      assert IdsOf(t, p)[0] == IdsOf(t, p)[|p| - 1];
    }
    if IdCyclic(input) {
      var ids :| IdChain(input, ids) && |ids| >= 2 && ids[0] == ids[|ids| - 1];
      var p := ChainFromIds(input, t, ids);
      assert p[0] == p[|p| - 1];
    }
  }

  /** Chains of the tables and of the inputs have the same lengths. */
  lemma ChainOfSays(input: Input, t: Tables, length: nat)
    requires Represents(input, t)
    ensures ChainOf(GraphOf(t), length) <==> IdChainOf(input, length)
  {
    hide Represents, GraphOf, Chain, IdChain;
    if ChainOf(GraphOf(t), length) {
      var p :| Chain(GraphOf(t), p) && |p| == length;
      ChainToIds(input, t, p);
    }
    if IdChainOf(input, length) {
      var ids :| IdChain(input, ids) && |ids| == length;
      var p := ChainFromIds(input, t, ids);
    }
  }

  // ----- what the inputs mean -----

  ghost predicate AllIn(m: map<Id, seq<Id>>, ids: seq<Id>) {
    forall i | 0 <= i < |ids| :: ids[i] in m
  }

  ghost function Concat(m: map<Id, seq<Id>>, ids: seq<Id>): seq<Id>
    requires AllIn(m, ids)
  {
    if ids == [] then [] else Concat(m, ids[..|ids| - 1]) + m[ids[|ids| - 1]]
  }

  ghost predicate FormReads(source: SourceInput, m: map<Id, seq<Id>>) {
    && source.entity in m && Readable(source.carriers) && AllIn(m, ChildIds(source.carriers))
    && m[source.entity] == Concat(m, ChildIds(source.carriers))
  }

  /** Each identity is mapped to its atoms: an atom to itself, and the entity of a form
      to those of the children the form lists, in order and with repetition. */
  ghost predicate Reads(input: Input, m: map<Id, seq<Id>>) {
    && (forall id | id in Mentioned(input) :: id in m)
    && (forall i | 0 <= i < |input.atoms| :: input.atoms[i].entity in m && m[input.atoms[i].entity] == [input.atoms[i].entity])
    && (forall i | 0 <= i < |input.sources| && HasTopology(input.sources[i]) :: FormReads(input.sources[i], m))
  }

  /** The identities of the known entities referred to. */
  ghost function Named(known: seq<Known>, atoms: seq<nat>): (ids: seq<Id>)
    ensures |ids| == |atoms|
  {
    seq(|atoms|, i requires 0 <= i < |atoms| => if atoms[i] < |known| then known[atoms[i]].entity else 0)
  }

  ghost function IdMeaning(t: Tables, height: seq<nat>): map<Id, seq<Id>>
    requires Ranked(GraphOf(t), height) && TablesOk(t)
  {
    map id | id in t.index :: Named(t.known, Meaning(GraphOf(t), height, t.index[id]))
  }

  lemma NamedJoin(known: seq<Known>, a: seq<nat>, b: seq<nat>)
    ensures Named(known, a + b) == Named(known, a) + Named(known, b)
  {
  }

  lemma MeaningAt(t: Tables, height: seq<nat>, ids: seq<Id>)
    requires TablesOk(t) && Ranked(GraphOf(t), height) && forall i | 0 <= i < |ids| :: ids[i] in t.index
    ensures AllIn(IdMeaning(t, height), ids)
    ensures forall i | 0 <= i < |ids| :: IdMeaning(t, height)[ids[i]] == Named(t.known, Meaning(GraphOf(t), height, t.index[ids[i]]))
  {
    hide Meaning, GraphOf, NodeOk, Ranked, Named;
  }

  lemma {:induction false} ConcatNamed(t: Tables, height: seq<nat>, children: seq<nat>, ids: seq<Id>)
    requires TablesOk(t) && Ranked(GraphOf(t), height) && InGraph(GraphOf(t), children)
    requires |ids| == |children| && forall i | 0 <= i < |ids| :: ids[i] in t.index && children[i] == t.index[ids[i]]
    ensures AllIn(IdMeaning(t, height), ids) && Concat(IdMeaning(t, height), ids) == Named(t.known, Flatten(GraphOf(t), height, children))
  {
    hide Meaning, GraphOf, TablesOk, Ranked, Named, IdMeaning;
    MeaningAt(t, height, ids);
    if ids == [] {
      NamedJoin(t.known, [], []);
    } else {
      var k := |ids| - 1;
      ConcatNamed(t, height, children[..k], ids[..k]);
      NamedJoin(t.known, Flatten(GraphOf(t), height, children[..k]), Meaning(GraphOf(t), height, children[k]));
    }
  }

  lemma FormIsRead(input: Input, t: Tables, height: seq<nat>, i: nat)
    requires Represents(input, t) && Ranked(GraphOf(t), height) && i < |input.sources| && HasTopology(input.sources[i])
    ensures FormReads(input.sources[i], IdMeaning(t, height))
  {
    hide Mentioned, Normalize, Expand, Flatten, Concat, Within, Traced;
    var source := input.sources[i];
    assert SourceAdmitted(source, t);
    FormInGraph(source, t);
    GraphIsWellFormed(t);
    var n, g := t.index[source.entity], GraphOf(t);
    assert g[n].runs[..|g[n].runs|] == g[n].runs;
    MeaningIsFlattening(g, height, n, |g[n].runs|);
    assert CarrierRuns(t.index, source.carriers) == Renamed(t.index, IdRuns(source.carriers));
    ExpandRenamed(t.index, IdRuns(source.carriers));
    ConcatNamed(t, height, Expand(g[n].runs), ChildIds(source.carriers));
  }

  /** What the tables mean is a reading of the inputs. */
  lemma MeaningReads(input: Input, t: Tables, height: seq<nat>)
    requires Represents(input, t) && Ranked(GraphOf(t), height)
    ensures Reads(input, IdMeaning(t, height))
  {
    hide Mentioned, FormReads, Ranked, Traced, Within, SourceAdmitted;
    var m := IdMeaning(t, height);
    RepresentedAll(input, t);
    forall i | 0 <= i < |input.atoms|
      ensures input.atoms[i].entity in m && m[input.atoms[i].entity] == [input.atoms[i].entity]
    {
      var atom := input.atoms[i];
      assert AtomAdmitted(atom, t);
      var n := t.index[atom.entity];
      assert GraphOf(t)[n] == Atom(t.nodes[n].atom.value);
    }
    forall i | 0 <= i < |input.sources| && HasTopology(input.sources[i])
      ensures FormReads(input.sources[i], m)
    {
      FormIsRead(input, t, height, i);
    }
  }

  lemma {:induction false} SameConcat(m: map<Id, seq<Id>>, other: map<Id, seq<Id>>, ids: seq<Id>)
    requires AllIn(m, ids) && AllIn(other, ids) && forall i | 0 <= i < |ids| :: m[ids[i]] == other[ids[i]]
    ensures Concat(m, ids) == Concat(other, ids)
  {
    if ids != [] {
      SameConcat(m, other, ids[..|ids| - 1]);
    }
  }

  lemma ChildBelow(input: Input, t: Tables, height: seq<nat>, i: nat, c: nat)
    requires Represents(input, t) && Ranked(GraphOf(t), height) && i < |input.sources| && HasTopology(input.sources[i])
    requires Readable(input.sources[i].carriers) && c < |ChildIds(input.sources[i].carriers)|
    ensures var id, child := input.sources[i].entity, ChildIds(input.sources[i].carriers)[c];
      && id in t.index && child in t.index && t.index[child] < |height| && t.index[id] < |height|
      && height[t.index[child]] < height[t.index[id]] && child in Mentioned(input)
  {
    hide Normalize, Expand, Within, Traced;
    var source := input.sources[i];
    assert SourceAdmitted(source, t);
    FormInGraph(source, t);
    var n, g := t.index[source.entity], GraphOf(t);
    var runs := CarrierRuns(t.index, source.carriers);
    assert runs == Renamed(t.index, IdRuns(source.carriers));
    ExpandRenamed(t.index, IdRuns(source.carriers));
    var child := ChildIds(source.carriers)[c];
    ExpandMembers(IdRuns(source.carriers), child);
    var k :| 0 <= k < |IdRuns(source.carriers)| && IdRuns(source.carriers)[k].node == child;
    SourceMentioned(input, i);
    assert source.carriers[k].value.entity == child;
    NormalizeExpands(runs);
    assert NodeOk(t.nodes[n], |t.nodes|, t.runs, t.known);
    ExpandMembers(g[n].runs, t.index[child]);
    assert Expand(g[n].runs)[c] == t.index[child];
    var j :| 0 <= j < |g[n].runs| && g[n].runs[j].node == t.index[child];
    assert height[g[n].runs[j].node] < height[n];
  }

  /** A closed set of inputs has one reading. */
  lemma {:induction false} ReadsOnce(input: Input, t: Tables, height: seq<nat>, m: map<Id, seq<Id>>, other: map<Id, seq<Id>>, id: Id)
    requires Represents(input, t) && Ranked(GraphOf(t), height) && Reads(input, m) && Reads(input, other)
    requires forall n | 0 <= n < |t.nodes| :: GraphOf(t)[n] != Missing
    requires id in Mentioned(input)
    ensures id in m && id in other && m[id] == other[id]
    ensures id in t.index && t.index[id] < |height|
    decreases if id in t.index && t.index[id] < |height| then height[t.index[id]] else 0
  {
    hide Mentioned, Concat, Within, Traced, Represents;
    Located(input, t, id);
    ShapeSays(input, t, t.index[id]);
    if IsAtom(input, id) {
      var i :| 0 <= i < |input.atoms| && input.atoms[i].entity == id;
    } else {
      var i :| 0 <= i < |input.sources| && IsForm(input.sources[i], id);
      var ids := ChildIds(input.sources[i].carriers);
      assert FormReads(input.sources[i], m) && FormReads(input.sources[i], other);
      forall c | 0 <= c < |ids|
        ensures m[ids[c]] == other[ids[c]]
      {
        ChildBelow(input, t, height, i, c);
        ReadsOnce(input, t, height, m, other, ids[c]);
      }
      SameConcat(m, other, ids);
    }
  }

  lemma Located(input: Input, t: Tables, id: Id)
    requires Represents(input, t) && id in Mentioned(input)
    ensures id in t.index && t.index[id] < |t.nodes| && t.nodes[t.index[id]].id == id
  {
    hide Mentioned;
    RepresentedAll(input, t);
  }
}
