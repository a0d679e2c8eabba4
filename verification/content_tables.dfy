/** What admission records about roots, atoms and source forms, and when a set of them
    can be recorded together. */
module ContentTables {
  import opened Options
  import opened ContentRuns

  /* Digests and identities are the big-endian numbers their bytes spell; an identity
     is the first sixteen of the thirty-two bytes of its witness. */
  type Id = nat
  type Digest = nat

  const ID_SPAN: nat := 0x1_0000_0000_0000_0000_0000_0000_0000_0000
  const UINT64_MAX: nat := 0xFFFF_FFFF_FFFF_FFFF

  /* A carrier packs its run length, never zero, in sixteen bits. */
  type RunLength = n: nat | 0 < n < 0x1_0000 witness 1

  datatype Occurrence = Occurrence(entity: Id, runLength: RunLength)

  /** An atom offered by the pinned provider.  `valid` is the outcome of the record
      and codepoint checks, `placement` stands for its physicality and centroid. */
  datatype AtomInput = AtomInput(entity: Id, identityWitness: Digest, placement: nat, valid: bool)

  /** A source form.  `valid` is the outcome of record validation, and a carrier that
      does not decode is None. */
  datatype SourceInput = SourceInput(
    entity: Id, identityWitness: Digest, valid: bool, realizedWitness: Option<Digest>,
    atomic: bool, logicalCount: nat, carriers: seq<Option<Occurrence>>)

  datatype Slice = Slice(first: nat, count: nat)

  datatype Node = Node(id: Id, identityWitness: Option<Digest>, atom: Option<nat>, form: Option<Slice>)

  datatype Known = Known(entity: Id, placement: nat)

  // ----- the tables -----

  /** Everything admission has recorded so far. */
  datatype Tables = Tables(index: map<Id, nat>, nodes: seq<Node>, runs: seq<Run>, known: seq<Known>)

  ghost predicate Interned(index: map<Id, nat>, nodes: seq<Node>) {
    && (forall id | id in index :: index[id] < |nodes| && nodes[index[id]].id == id)
    && (forall n | 0 <= n < |nodes| :: nodes[n].id in index && index[nodes[n].id] == n)
  }

  function FormOf(node: Node, runs: seq<Run>): seq<Run>
    requires node.form.Some? && node.form.value.first + node.form.value.count <= |runs|
  {
    runs[node.form.value.first..node.form.value.first + node.form.value.count]
  }

  ghost predicate WithinNodes(form: seq<Run>, count: nat) {
    forall i | 0 <= i < |form| :: form[i].node < count
  }

  ghost predicate NodeOk(node: Node, count: nat, runs: seq<Run>, known: seq<Known>) {
    && (node.atom.Some? ==>
          && node.atom.value < |known| && known[node.atom.value].entity == node.id
          && node.identityWitness.Some? && node.form.None?)
    && (node.form.Some? ==>
          && node.form.value.first + node.form.value.count <= |runs|
          && Normal(FormOf(node, runs)) && WithinNodes(FormOf(node, runs), count)
          && node.identityWitness.Some?)
    && (node.identityWitness.Some? ==> node.identityWitness.value != 0 && node.identityWitness.value / ID_SPAN == node.id)
  }

  ghost predicate TablesOk(t: Tables) {
    && Interned(t.index, t.nodes)
    && forall n | 0 <= n < |t.nodes| :: NodeOk(t.nodes[n], |t.nodes|, t.runs, t.known)
  }

  // ----- growth -----

  ghost predicate NodeGrows(before: Node, after: Node) {
    && after.id == before.id
    && (before.identityWitness.Some? ==> after.identityWitness == before.identityWitness)
    && (before.atom.Some? ==> after.atom == before.atom)
    && (before.form.Some? ==> after.form == before.form)
  }

  /** Tables only gain entries; what was recorded stays as it was. */
  ghost predicate Grows(before: Tables, after: Tables) {
    && (forall id | id in before.index :: id in after.index && after.index[id] == before.index[id])
    && |before.nodes| <= |after.nodes|
    && (forall n | 0 <= n < |before.nodes| :: NodeGrows(before.nodes[n], after.nodes[n]))
    && before.runs <= after.runs && before.known <= after.known
  }

  lemma GrowsTransitive(a: Tables, b: Tables, c: Tables)
    requires Grows(a, b) && Grows(b, c)
    ensures Grows(a, c)
  {
    forall x | 0 <= x < |a.nodes|
      ensures NodeGrows(a.nodes[x], c.nodes[x])
    {
      assert NodeGrows(a.nodes[x], b.nodes[x]) && NodeGrows(b.nodes[x], c.nodes[x]);
    }
  }

  function Interning(t: Tables, id: Id): Tables {
    t.(nodes := t.nodes + [Node(id, None, None, None)], index := t.index[id := |t.nodes|])
  }

  lemma InternKeeps(t: Tables, id: Id)
    requires TablesOk(t) && id !in t.index
    ensures TablesOk(Interning(t, id)) && Grows(t, Interning(t, id))
  {
    var after := Interning(t, id);
    forall n | 0 <= n < |after.nodes|
      ensures NodeOk(after.nodes[n], |after.nodes|, t.runs, t.known)
    {
      if n < |t.nodes| {
        assert NodeOk(t.nodes[n], |t.nodes|, t.runs, t.known);
      }
    }
  }

  lemma UpdateKeeps(t: Tables, n: nat, node: Node, runs: seq<Run>, known: seq<Known>)
    requires TablesOk(t) && n < |t.nodes|
    requires NodeGrows(t.nodes[n], node) && t.runs <= runs && t.known <= known
    requires NodeOk(node, |t.nodes|, runs, known)
    ensures TablesOk(Tables(t.index, t.nodes[n := node], runs, known))
    ensures Grows(t, Tables(t.index, t.nodes[n := node], runs, known))
  {
    var nodes := t.nodes[n := node];
    forall x | 0 <= x < |nodes|
      ensures NodeOk(nodes[x], |nodes|, runs, known)
    {
      if x != n {
        assert NodeOk(t.nodes[x], |t.nodes|, t.runs, t.known);
        if nodes[x].form.Some? {
          assert FormOf(nodes[x], runs) == FormOf(nodes[x], t.runs);
        }
      }
    }
  }

  // ----- what admission records -----

  ghost predicate Decodes(index: map<Id, nat>, carriers: seq<Option<Occurrence>>) {
    forall c | 0 <= c < |carriers| :: carriers[c].Some? && carriers[c].value.runLength > 0 && carriers[c].value.entity in index
  }

  ghost function CarrierRuns(index: map<Id, nat>, carriers: seq<Option<Occurrence>>): (runs: seq<Run>)
    requires Decodes(index, carriers)
    ensures Positive(runs) && |runs| == |carriers|
  {
    seq(|carriers|, c requires 0 <= c < |carriers| => Run(index[carriers[c].value.entity], carriers[c].value.runLength))
  }

  ghost predicate RootAdmitted(root: Id, t: Tables) {
    root in t.index && t.index[root] < |t.nodes|
  }

  ghost predicate AtomAdmitted(atom: AtomInput, t: Tables) {
    && atom.entity in t.index && t.index[atom.entity] < |t.nodes|
    && var node := t.nodes[t.index[atom.entity]];
    && node.identityWitness == Some(atom.identityWitness)
    && node.atom.Some? && node.atom.value < |t.known| && t.known[node.atom.value] == Known(atom.entity, atom.placement)
  }

  ghost predicate HasTopology(source: SourceInput) {
    !source.atomic && source.logicalCount != 1
  }

  /** The source's witness is the node's, and a form with topology is recorded as the
      merged list of its carriers. */
  ghost predicate SourceAdmitted(source: SourceInput, t: Tables) {
    && source.entity in t.index && t.index[source.entity] < |t.nodes|
    && var node := t.nodes[t.index[source.entity]];
    && node.identityWitness == Some(source.identityWitness)
    && (HasTopology(source) ==>
          && Decodes(t.index, source.carriers) && node.atom.None?
          && node.form.Some? && node.form.value.first + node.form.value.count <= |t.runs|
          && FormOf(node, t.runs) == Normalize(CarrierRuns(t.index, source.carriers)))
  }

  lemma AtomStaysAdmitted(atom: AtomInput, before: Tables, after: Tables)
    requires AtomAdmitted(atom, before) && Grows(before, after)
    ensures AtomAdmitted(atom, after)
  {
    assert NodeGrows(before.nodes[before.index[atom.entity]], after.nodes[before.index[atom.entity]]);
  }

  lemma SourceStaysAdmitted(source: SourceInput, before: Tables, after: Tables)
    requires SourceAdmitted(source, before) && Grows(before, after) && TablesOk(after)
    ensures SourceAdmitted(source, after)
  {
    var n := before.index[source.entity];
    assert NodeGrows(before.nodes[n], after.nodes[n]);
    assert NodeOk(after.nodes[n], |after.nodes|, after.runs, after.known);
    if HasTopology(source) {
      assert CarrierRuns(after.index, source.carriers) == CarrierRuns(before.index, source.carriers);
      assert FormOf(after.nodes[n], after.runs) == FormOf(before.nodes[n], before.runs);
    }
  }

  /** Two forms with topology of one entity are admitted together only if they list
      the same children. */
  lemma AdmittedFormsAgree(a: SourceInput, b: SourceInput, t: Tables)
    requires SourceAdmitted(a, t) && SourceAdmitted(b, t)
    requires a.entity == b.entity && HasTopology(a) && HasTopology(b)
    ensures a.identityWitness == b.identityWitness
    ensures Expand(CarrierRuns(t.index, a.carriers)) == Expand(CarrierRuns(t.index, b.carriers))
  {
    SameFormExactly(CarrierRuns(t.index, a.carriers), CarrierRuns(t.index, b.carriers));
  }

  lemma MergeOne(before: map<Id, nat>, index: map<Id, nat>, carriers: seq<Option<Occurrence>>, c: nat)
    requires c < |carriers| && Decodes(before, carriers[..c])
    requires carriers[c].Some? && carriers[c].value.runLength > 0
    requires carriers[c].value.entity in index && forall id | id in before :: id in index && index[id] == before[id]
    ensures Decodes(index, carriers[..c + 1])
    ensures Normalize(CarrierRuns(index, carriers[..c + 1])) ==
      Push(Normalize(CarrierRuns(before, carriers[..c])), index[carriers[c].value.entity], carriers[c].value.runLength)
  {
    var longer, shorter := carriers[..c + 1], carriers[..c];
    assert longer == shorter + [carriers[c]];
    assert Decodes(index, longer);
    assert CarrierRuns(index, longer)[..c] == CarrierRuns(before, shorter);
  }

  lemma CarriersWithin(t: Tables, carriers: seq<Option<Occurrence>>)
    requires TablesOk(t) && Decodes(t.index, carriers)
    ensures WithinNodes(Normalize(CarrierRuns(t.index, carriers)), |t.nodes|)
  {
    NormalizeWithin(CarrierRuns(t.index, carriers), |t.nodes|);
  }

  lemma {:induction false} NormalizeWithin(carriers: seq<Run>, count: nat)
    requires WithinNodes(carriers, count)
    ensures WithinNodes(Normalize(carriers), count)
  {
    if carriers != [] {
      NormalizeWithin(carriers[..|carriers| - 1], count);
    }
  }

  lemma IndexGrows(before: Tables, after: Tables, id: Id)
    requires Grows(before, after) && id in before.index
    ensures id in after.index && after.index[id] == before.index[id]
  {
  }

  lemma GrowsReflexive(t: Tables)
    ensures Grows(t, t)
  {
  }

  // ----- the inputs -----

  datatype Limits = Limits(maximumDepth: nat, nodeCapacity: nat)

  datatype Input = Input(roots: seq<Id>, atoms: seq<AtomInput>, sources: seq<SourceInput>, limits: Limits)

  ghost predicate AllAdmitted(input: Input, t: Tables) {
    && TablesOk(t)
    && (forall i | 0 <= i < |input.roots| :: RootAdmitted(input.roots[i], t))
    && (forall i | 0 <= i < |input.atoms| :: AtomAdmitted(input.atoms[i], t))
    && (forall i | 0 <= i < |input.sources| :: SourceAdmitted(input.sources[i], t))
  }

  lemma AdmittedStays(roots: seq<Id>, atoms: seq<AtomInput>, sources: seq<SourceInput>, before: Tables, after: Tables)
    requires Grows(before, after) && TablesOk(after)
    requires forall i | 0 <= i < |roots| :: RootAdmitted(roots[i], before)
    requires forall i | 0 <= i < |atoms| :: AtomAdmitted(atoms[i], before)
    requires forall i | 0 <= i < |sources| :: SourceAdmitted(sources[i], before)
    ensures forall i | 0 <= i < |roots| :: RootAdmitted(roots[i], after)
    ensures forall i | 0 <= i < |atoms| :: AtomAdmitted(atoms[i], after)
    ensures forall i | 0 <= i < |sources| :: SourceAdmitted(sources[i], after)
  {
    hide AtomAdmitted, SourceAdmitted, TablesOk;
    forall i | 0 <= i < |atoms|
      ensures AtomAdmitted(atoms[i], after)
    {
      AtomStaysAdmitted(atoms[i], before, after);
    }
    forall i | 0 <= i < |sources|
      ensures SourceAdmitted(sources[i], after)
    {
      SourceStaysAdmitted(sources[i], before, after);
    }
  }
}
