/** Which atoms and source forms can be admitted together, said of the inputs alone,
    and how the tables trace back to the inputs they were filled from. */
module ContentConsistency {
  import opened Sets
  import opened Options
  import opened Octets
  import opened ContentRuns
  import opened ContentTables

  // ----- the children a form lists -----

  predicate Readable(carriers: seq<Option<Occurrence>>) {
    forall c | 0 <= c < |carriers| :: carriers[c].Some?
  }

  ghost function IdRuns(carriers: seq<Option<Occurrence>>): (runs: seq<Run>)
    requires Readable(carriers)
    ensures |runs| == |carriers|
  {
    seq(|carriers|, c requires 0 <= c < |carriers| => Run(carriers[c].value.entity, carriers[c].value.runLength))
  }

  /** The child identities a form lists, in order and with repetition. */
  ghost function ChildIds(carriers: seq<Option<Occurrence>>): seq<Id>
    requires Readable(carriers)
  {
    Expand(IdRuns(carriers))
  }

  ghost predicate Covered(index: map<Id, nat>, ids: seq<Id>) {
    forall i | 0 <= i < |ids| :: ids[i] in index
  }

  ghost predicate RunsCovered(index: map<Id, nat>, runs: seq<Run>) {
    forall i | 0 <= i < |runs| :: runs[i].node in index
  }

  ghost function Renamed(index: map<Id, nat>, runs: seq<Run>): (renamed: seq<Run>)
    requires RunsCovered(index, runs)
    ensures |renamed| == |runs|
  {
    seq(|runs|, i requires 0 <= i < |runs| => Run(index[runs[i].node], runs[i].count))
  }

  /** Renaming the children of the runs renames what they expand to. */
  lemma {:induction false} ExpandRenamed(index: map<Id, nat>, runs: seq<Run>)
    requires RunsCovered(index, runs)
    ensures var ids, nodes := Expand(runs), Expand(Renamed(index, runs));
      Covered(index, ids) && |nodes| == |ids| && forall i | 0 <= i < |ids| :: nodes[i] == index[ids[i]]
  {
    if runs != [] {
      ExpandRenamed(index, runs[1..]);
      assert Renamed(index, runs)[1..] == Renamed(index, runs[1..]);
    }
  }

  /** In one set of tables, two forms expand to the same nodes exactly when they list
      the same child identities. */
  lemma FormsAgreeExactly(t: Tables, a: seq<Option<Occurrence>>, b: seq<Option<Occurrence>>)
    requires TablesOk(t) && Decodes(t.index, a) && Decodes(t.index, b)
    ensures Expand(CarrierRuns(t.index, a)) == Expand(CarrierRuns(t.index, b)) <==> ChildIds(a) == ChildIds(b)
  {
    hide Expand, NodeOk;
    assert CarrierRuns(t.index, a) == Renamed(t.index, IdRuns(a)) && CarrierRuns(t.index, b) == Renamed(t.index, IdRuns(b));
    ExpandRenamed(t.index, IdRuns(a));
    ExpandRenamed(t.index, IdRuns(b));
    if Expand(CarrierRuns(t.index, a)) == Expand(CarrierRuns(t.index, b)) {
      forall i | 0 <= i < |ChildIds(a)|
        ensures ChildIds(a)[i] == ChildIds(b)[i]
      {
        assert t.nodes[t.index[ChildIds(a)[i]]].id == ChildIds(a)[i];
      }
    }
  }

  // ----- consistent inputs -----

  ghost predicate WitnessFits(id: Id, identityWitness: Digest) {
    identityWitness != 0 && identityWitness / ID_SPAN == id
  }

  ghost predicate AtomOk(atom: AtomInput) {
    atom.valid && WitnessFits(atom.entity, atom.identityWitness)
  }

  ghost predicate SourceOk(source: SourceInput) {
    && source.valid && WitnessFits(source.entity, source.identityWitness)
    && (source.realizedWitness.Some? ==> source.realizedWitness.value == source.identityWitness)
    && (HasTopology(source) ==> Readable(source.carriers))
  }

  ghost predicate AtomsAgree(a: AtomInput, b: AtomInput) {
    a.entity == b.entity ==> a.identityWitness == b.identityWitness && a.placement == b.placement
  }

  /** An atom has no children. */
  ghost predicate AtomSourceAgree(atom: AtomInput, source: SourceInput) {
    atom.entity == source.entity ==> atom.identityWitness == source.identityWitness && !HasTopology(source)
  }

  ghost predicate SourcesAgree(a: SourceInput, b: SourceInput) {
    a.entity == b.entity ==>
      && a.identityWitness == b.identityWitness
      && (HasTopology(a) && HasTopology(b) && Readable(a.carriers) && Readable(b.carriers) ==>
            ChildIds(a.carriers) == ChildIds(b.carriers))
  }

  ghost predicate AtomFits(atom: AtomInput, atoms: seq<AtomInput>) {
    AtomOk(atom) && forall i | 0 <= i < |atoms| :: AtomsAgree(atoms[i], atom)
  }

  ghost predicate SourceFits(source: SourceInput, atoms: seq<AtomInput>, sources: seq<SourceInput>) {
    && SourceOk(source)
    && (forall i | 0 <= i < |atoms| :: AtomSourceAgree(atoms[i], source))
    && (forall i | 0 <= i < |sources| :: SourcesAgree(sources[i], source))
  }

  /** Each input is in order, and no two contradict each other. */
  ghost predicate Consistent(input: Input) {
    && (forall i | 0 <= i < |input.atoms| :: AtomFits(input.atoms[i], input.atoms[..i]))
    && (forall i | 0 <= i < |input.sources| :: SourceFits(input.sources[i], input.atoms, input.sources[..i]))
  }

  /** What is admitted together is consistent. */
  lemma AdmittedIsConsistent(input: Input, t: Tables)
    requires AllAdmitted(input, t)
    requires forall i | 0 <= i < |input.atoms| :: AtomOk(input.atoms[i])
    requires forall i | 0 <= i < |input.sources| :: SourceOk(input.sources[i])
    ensures Consistent(input)
  {
    hide AtomAdmitted, SourceAdmitted, TablesOk, AtomOk, SourceOk, AtomsAgree, AtomSourceAgree, SourcesAgree;
    forall i | 0 <= i < |input.atoms|
      ensures AtomFits(input.atoms[i], input.atoms[..i])
    {
      forall j | 0 <= j < i
        ensures AtomsAgree(input.atoms[..i][j], input.atoms[i])
      {
        AdmittedAtomsAgree(input.atoms[j], input.atoms[i], t);
      }
    }
    forall i | 0 <= i < |input.sources|
      ensures SourceFits(input.sources[i], input.atoms, input.sources[..i])
    {
      forall j | 0 <= j < |input.atoms|
        ensures AtomSourceAgree(input.atoms[j], input.sources[i])
      {
        AdmittedAtomSourceAgree(input.atoms[j], input.sources[i], t);
      }
      forall j | 0 <= j < i
        ensures SourcesAgree(input.sources[..i][j], input.sources[i])
      {
        AdmittedSourcesAgree(input.sources[j], input.sources[i], t);
      }
    }
  }

  lemma AdmittedAtomsAgree(a: AtomInput, b: AtomInput, t: Tables)
    requires AtomAdmitted(a, t) && AtomAdmitted(b, t)
    ensures AtomsAgree(a, b)
  {
  }

  lemma AdmittedAtomSourceAgree(a: AtomInput, s: SourceInput, t: Tables)
    requires AtomAdmitted(a, t) && SourceAdmitted(s, t)
    ensures AtomSourceAgree(a, s)
  {
  }

  lemma AdmittedSourcesAgree(a: SourceInput, b: SourceInput, t: Tables)
    requires TablesOk(t) && SourceAdmitted(a, t) && SourceAdmitted(b, t)
    ensures SourcesAgree(a, b)
  {
    if a.entity == b.entity && HasTopology(a) && HasTopology(b) {
      AdmittedFormsAgree(a, b, t);
      FormsAgreeExactly(t, a.carriers, b.carriers);
    }
  }

  // ----- witnesses as bytes -----

  /** The number that bytes spell, the first one being the most significant. */
  ghost function BigEndian(bytes: Bytes): nat {
    if bytes == [] then 0 else BigEndian(bytes[..|bytes| - 1]) * 256 + bytes[|bytes| - 1]
  }

  ghost function Span(n: nat): (span: nat)
    ensures span > 0
  {
    if n == 0 then 1 else Span(n - 1) * 256
  }

  lemma {:induction false} BigEndianSplit(a: Bytes, b: Bytes)
    ensures BigEndian(a + b) == BigEndian(a) * Span(|b|) + BigEndian(b)
    ensures BigEndian(b) < Span(|b|)
    decreases |b|
  {
    if b == [] {
      assert a + b == a;
    } else {
      var front, last := b[..|b| - 1], b[|b| - 1];
      assert (a + b)[..|a + b| - 1] == a + front;
      BigEndianSplit(a, front);
      Regroup(BigEndian(a), Span(|front|), BigEndian(front), last);
    }
  }

  lemma Regroup(a: nat, span: nat, front: nat, last: nat)
    ensures (a * span + front) * 256 + last == a * (span * 256) + (front * 256 + last)
  {
  }

  lemma {:induction false} AllZero(bytes: Bytes)
    ensures BigEndian(bytes) == 0 <==> forall i | 0 <= i < |bytes| :: bytes[i] == 0
  {
    if bytes != [] {
      AllZero(bytes[..|bytes| - 1]);
    }
  }

  lemma Spans()
    ensures Span(16) == ID_SPAN
  {
    assert Span(4) == 0x1_0000_0000;
    assert Span(8) == 0x1_0000_0000_0000_0000;
    assert Span(12) == 0x1_0000_0000_0000_0000_0000_0000;
  }

  lemma Quotient(high: nat, low: nat)
    requires low < ID_SPAN
    ensures (high * ID_SPAN + low) / ID_SPAN == high
  {
  }

  /** A witness of thirty-two bytes fits an entity exactly when it is not all zero and its
      first sixteen bytes are the identity. */
  lemma WitnessExactly(id: Id, bytes: Bytes)
    requires |bytes| == 32
    ensures WitnessFits(id, BigEndian(bytes)) <==> (exists i | 0 <= i < 32 :: bytes[i] != 0) && BigEndian(bytes[..16]) == id
  {
    hide BigEndian, Span;
    assert bytes == bytes[..16] + bytes[16..];
    BigEndianSplit(bytes[..16], bytes[16..]);
    Spans();
    Quotient(BigEndian(bytes[..16]), BigEndian(bytes[16..]));
    AllZero(bytes);
  }

  // ----- forms that are too long -----

  /** The number of children a form lists. */
  ghost function LogicalCount(carriers: seq<Option<Occurrence>>): nat {
    if carriers == [] then 0
    else
      var last := carriers[|carriers| - 1];
      LogicalCount(carriers[..|carriers| - 1]) + if last.Some? then last.value.runLength else 0
  }

  /** The number of equal children it ends with. */
  ghost function TrailingRun(carriers: seq<Option<Occurrence>>): nat {
    if carriers == [] || carriers[|carriers| - 1].None? then 0
    else
      var n := |carriers| - 1;
      carriers[n].value.runLength +
      if n > 0 && carriers[n - 1].Some? && carriers[n - 1].value.entity == carriers[n].value.entity then TrailingRun(carriers[..n]) else 0
  }

  /** Merging carrier c overflows the run it lengthens, or counting it overflows the
      ordinal of the next carrier; both are counted in sixty-four bits. */
  ghost predicate OverflowsAt(carriers: seq<Option<Occurrence>>, c: nat)
    requires c < |carriers|
  {
    TrailingRun(carriers[..c + 1]) > UINT64_MAX || (c + 1 < |carriers| && 1 + LogicalCount(carriers[..c + 1]) > UINT64_MAX)
  }

  ghost predicate Overflows(carriers: seq<Option<Occurrence>>) {
    exists c | 0 <= c < |carriers| :: Readable(carriers[..c + 1]) && OverflowsAt(carriers, c)
  }

  ghost predicate TooLong(input: Input) {
    exists i | 0 <= i < |input.sources| :: HasTopology(input.sources[i]) && Overflows(input.sources[i].carriers)
  }

  lemma OneMore(carriers: seq<Option<Occurrence>>, c: nat)
    requires c < |carriers| && carriers[c].Some?
    ensures LogicalCount(carriers[..c + 1]) == LogicalCount(carriers[..c]) + carriers[c].value.runLength
    ensures TrailingRun(carriers[..c + 1]) == carriers[c].value.runLength +
      if c > 0 && carriers[c - 1].Some? && carriers[c - 1].value.entity == carriers[c].value.entity then TrailingRun(carriers[..c]) else 0
  {
    assert carriers[..c + 1][..c] == carriers[..c];
  }

  // ----- the identities the inputs mention -----

  /** Every identity admission may intern. */
  ghost function Mentioned(input: Input): set<Id> {
    (set r | r in input.roots) + (set a | a in input.atoms :: a.entity) + (set s | s in input.sources :: s.entity)
    + (set s, c | s in input.sources && HasTopology(s) && c in s.carriers && c.Some? :: c.value.entity)
  }

  lemma RootMentioned(input: Input, i: nat)
    requires i < |input.roots|
    ensures input.roots[i] in Mentioned(input)
  {
  }

  lemma AtomMentioned(input: Input, i: nat)
    requires i < |input.atoms|
    ensures input.atoms[i].entity in Mentioned(input)
  {
    assert input.atoms[i] in input.atoms;
  }

  lemma SourceMentioned(input: Input, i: nat)
    requires i < |input.sources|
    ensures SourceWithin(input.sources[i], Mentioned(input))
  {
    var source := input.sources[i];
    assert source in input.sources;
    if HasTopology(source) {
      forall c | 0 <= c < |source.carriers| && source.carriers[c].Some?
        ensures source.carriers[c].value.entity in Mentioned(input)
      {
        assert source.carriers[c] in source.carriers;
      }
    }
  }

  ghost predicate CarriersOf(carriers: seq<Option<Occurrence>>, allowed: set<Id>) {
    forall c | 0 <= c < |carriers| && carriers[c].Some? :: carriers[c].value.entity in allowed
  }

  ghost predicate SourceWithin(source: SourceInput, allowed: set<Id>) {
    source.entity in allowed && (HasTopology(source) ==> CarriersOf(source.carriers, allowed))
  }

  /** Only allowed identities are interned. */
  ghost predicate Within(t: Tables, allowed: set<Id>) {
    forall n | 0 <= n < |t.nodes| :: t.nodes[n].id in allowed
  }

  lemma {:induction false} WithinCount(t: Tables, allowed: set<Id>, k: nat)
    requires Interned(t.index, t.nodes) && Within(t, allowed) && k <= |t.nodes|
    ensures |set n: nat | n < k :: t.nodes[n].id| == k
  {
    var ids := set n: nat | n < k :: t.nodes[n].id;
    if k > 0 {
      WithinCount(t, allowed, k - 1);
      var before := set n: nat | n < k - 1 :: t.nodes[n].id;
      assert t.nodes[k - 1].id !in before by {
        assert t.index[t.nodes[k - 1].id] == k - 1;
      }
      assert ids == before + {t.nodes[k - 1].id};
    } else {
      assert ids == {};
    }
  }

  /** There are no more nodes than allowed identities, and fewer if one is missing. */
  lemma WithinBounds(t: Tables, allowed: set<Id>)
    requires TablesOk(t) && Within(t, allowed)
    ensures |t.nodes| <= |allowed|
    ensures forall id | id in allowed && id !in t.index :: |t.nodes| < |allowed|
    ensures (forall id | id in allowed :: id in t.index) ==> |t.nodes| == |allowed|
  {
    var ids := set n: nat | n < |t.nodes| :: t.nodes[n].id;
    WithinCount(t, allowed, |t.nodes|);
    SubsetSize(ids, allowed);
    forall id | id in allowed && id !in t.index
      ensures |t.nodes| < |allowed|
    {
      assert id !in ids;
      SubsetSize(ids, allowed - {id});
    }
    if forall id | id in allowed :: id in t.index {
      forall id | id in allowed
        ensures id in ids
      {
        var n := t.index[id];
        assert t.nodes[n].id == id;
      }
      assert ids == allowed;
    }
  }

  // ----- tracing the tables -----

  ghost predicate WitnessTraced(id: Id, identityWitness: Digest, atoms: seq<AtomInput>, sources: seq<SourceInput>) {
    || (exists i | 0 <= i < |atoms| :: atoms[i].entity == id && atoms[i].identityWitness == identityWitness)
    || (exists i | 0 <= i < |sources| :: sources[i].entity == id && sources[i].identityWitness == identityWitness)
  }

  ghost predicate AtomTraced(id: Id, placement: nat, atoms: seq<AtomInput>) {
    exists i | 0 <= i < |atoms| :: atoms[i].entity == id && atoms[i].placement == placement
  }

  ghost predicate FormFrom(id: Id, form: seq<Run>, index: map<Id, nat>, source: SourceInput) {
    && source.entity == id && HasTopology(source)
    && Decodes(index, source.carriers) && form == Normalize(CarrierRuns(index, source.carriers))
  }

  ghost predicate FormTraced(id: Id, form: seq<Run>, index: map<Id, nat>, sources: seq<SourceInput>) {
    exists i | 0 <= i < |sources| :: FormFrom(id, form, index, sources[i])
  }

  /** Whatever is recorded of the node was said by one of the inputs. */
  ghost predicate NodeTraced(node: Node, t: Tables, atoms: seq<AtomInput>, sources: seq<SourceInput>)
    requires NodeOk(node, |t.nodes|, t.runs, t.known)
  {
    && (node.identityWitness.Some? ==> WitnessTraced(node.id, node.identityWitness.value, atoms, sources))
    && (node.atom.Some? ==> AtomTraced(node.id, t.known[node.atom.value].placement, atoms))
    && (node.form.Some? ==> FormTraced(node.id, FormOf(node, t.runs), t.index, sources))
  }

  ghost predicate Traced(t: Tables, atoms: seq<AtomInput>, sources: seq<SourceInput>)
    requires TablesOk(t)
  {
    forall n | 0 <= n < |t.nodes| :: NodeTraced(t.nodes[n], t, atoms, sources)
  }

  /** The tables hold what the inputs say, and nothing else. */
  ghost predicate Represents(input: Input, t: Tables) {
    AllAdmitted(input, t) && Traced(t, input.atoms, input.sources) && Within(t, Mentioned(input))
  }

  lemma RepresentedAll(input: Input, t: Tables)
    requires AllAdmitted(input, t)
    ensures forall id | id in Mentioned(input) :: id in t.index
  {
    forall id | id in Mentioned(input)
      ensures id in t.index
    {
      if r :| 0 <= r < |input.roots| && input.roots[r] == id {
        assert RootAdmitted(input.roots[r], t);
      } else if a :| 0 <= a < |input.atoms| && input.atoms[a].entity == id {
        assert AtomAdmitted(input.atoms[a], t);
      } else if s :| 0 <= s < |input.sources| && input.sources[s].entity == id {
        assert SourceAdmitted(input.sources[s], t);
      } else {
        var s, c :| 0 <= s < |input.sources| && HasTopology(input.sources[s])
          && 0 <= c < |input.sources[s].carriers| && input.sources[s].carriers[c].Some? && input.sources[s].carriers[c].value.entity == id;
        assert SourceAdmitted(input.sources[s], t);
      }
    }
  }

  lemma NodeTracedStays(node: Node, before: Tables, after: Tables, atoms: seq<AtomInput>, sources: seq<SourceInput>,
                        moreAtoms: seq<AtomInput>, moreSources: seq<SourceInput>)
    requires NodeOk(node, |before.nodes|, before.runs, before.known) && Grows(before, after) && atoms <= moreAtoms && sources <= moreSources
    requires NodeTraced(node, before, atoms, sources)
    ensures NodeOk(node, |after.nodes|, after.runs, after.known) && NodeTraced(node, after, moreAtoms, moreSources)
  {
    hide Normalize;
    if node.form.Some? {
      assert FormOf(node, after.runs) == FormOf(node, before.runs);
      var i :| 0 <= i < |sources| && FormFrom(node.id, FormOf(node, before.runs), before.index, sources[i]);
      assert CarrierRuns(after.index, sources[i].carriers) == CarrierRuns(before.index, sources[i].carriers);
      assert FormFrom(node.id, FormOf(node, after.runs), after.index, moreSources[i]);
    }
  }

  /** A step that touches one node keeps the tables traced if that node is. */
  lemma TracedStep(before: Tables, after: Tables, n: nat, atoms: seq<AtomInput>, sources: seq<SourceInput>,
                   moreAtoms: seq<AtomInput>, moreSources: seq<SourceInput>)
    requires TablesOk(before) && TablesOk(after) && Grows(before, after) && atoms <= moreAtoms && sources <= moreSources
    requires Traced(before, atoms, sources)
    requires forall m | 0 <= m < |before.nodes| && m != n :: after.nodes[m] == before.nodes[m]
    requires forall m | |before.nodes| <= m < |after.nodes| && m != n :: Bare(after.nodes[m])
    requires n < |after.nodes| ==> NodeTraced(after.nodes[n], after, moreAtoms, moreSources)
    ensures Traced(after, moreAtoms, moreSources)
  {
    hide NodeOk;
    forall m | 0 <= m < |after.nodes|
      ensures NodeTraced(after.nodes[m], after, moreAtoms, moreSources)
    {
      if m != n && m < |before.nodes| {
        hide NodeTraced, Grows;
        NodeTracedStays(after.nodes[m], before, after, atoms, sources, moreAtoms, moreSources);
      }
    }
  }

  ghost predicate Bare(node: Node) {
    node.identityWitness.None? && node.atom.None? && node.form.None?
  }
}
