/** Admitting roots, atoms and source forms into the tables. */
module ContentAdmission {
  import opened Options
  import opened ContentRuns
  import opened ContentClosure
  import opened ContentTables
  import opened ContentConsistency
  import opened ContentRefusal

  /** Compares two merged forms run by run. */
  method SameForm(recorded: seq<Run>, merged: seq<Run>) returns (same: bool)
    requires Normal(recorded) && Normal(merged)
    ensures same <==> Expand(recorded) == Expand(merged)
    ensures same ==> recorded == merged
  {
    if Expand(recorded) == Expand(merged) {
      NormalUnique(recorded, merged);
    }
    if |recorded| != |merged| {
      return false;
    }
    for i := 0 to |merged|
      invariant recorded[..i] == merged[..i]
    {
      if recorded[i] != merged[i] {
        return false;
      }
    }
    assert recorded[..|merged|] == recorded && merged[..|merged|] == merged;
    same := true;
  }

  /** The node of an identity, as it is or as it would be interned. */
  ghost function Found(t: Tables, id: Id): Node {
    if id in t.index && t.index[id] < |t.nodes| then t.nodes[t.index[id]] else Node(id, None, None, None)
  }

  lemma FoundOk(t: Tables, id: Id, atoms: seq<AtomInput>, sources: seq<SourceInput>)
    requires TablesOk(t) && Traced(t, atoms, sources)
    ensures var node := Found(t, id); node.id == id && NodeOk(node, |t.nodes|, t.runs, t.known) && NodeTraced(node, t, atoms, sources)
  {
  }

  lemma SameChild(t: Tables, a: Id, b: Id)
    requires TablesOk(t) && a in t.index && b in t.index
    ensures t.index[a] == t.index[b] <==> a == b
  {
    assert t.nodes[t.index[a]].id == a && t.nodes[t.index[b]].id == b;
  }

  /** The first c carriers are merged, and nothing has overflowed. */
  ghost predicate Merging(index: map<Id, nat>, carriers: seq<Option<Occurrence>>, c: nat, merged: seq<Run>, ordinal: nat)
    requires c <= |carriers|
  {
    && Decodes(index, carriers[..c]) && merged == Normalize(CarrierRuns(index, carriers[..c]))
    && ordinal == 1 + LogicalCount(carriers[..c])
    && (if c == 0 then merged == []
        else merged != [] && merged[|merged| - 1] == Run(index[carriers[c - 1].value.entity], TrailingRun(carriers[..c])))
    && forall k | 0 <= k < c :: !OverflowsAt(carriers, k)
  }

  lemma NothingMerged(index: map<Id, nat>, carriers: seq<Option<Occurrence>>)
    ensures Merging(index, carriers, 0, [], 1)
  {
    assert carriers[..0] == [];
  }

  lemma AllMerged(index: map<Id, nat>, carriers: seq<Option<Occurrence>>, merged: seq<Run>, ordinal: nat)
    requires Merging(index, carriers, |carriers|, merged, ordinal)
    ensures Decodes(index, carriers) && merged == Normalize(CarrierRuns(index, carriers)) && !Overflows(carriers)
  {
    assert carriers[..|carriers|] == carriers;
  }

  /** Lengthens the last run or starts one, and counts the children, unless either sum
      overflows. */
  method PushCarrier(carriers: seq<Option<Occurrence>>, c: nat, merged: seq<Run>, ordinal: nat, child: nat, ghost before: map<Id, nat>, ghost t: Tables)
    returns (fits: bool, longer: seq<Run>, next: nat)
    requires c < |carriers| && carriers[c].Some? && Merging(before, carriers, c, merged, ordinal) && TablesOk(t)
    requires carriers[c].value.entity in t.index && t.index[carriers[c].value.entity] == child
    requires forall id | id in before :: id in t.index && t.index[id] == before[id]
    ensures !fits ==> Overflows(carriers)
    ensures fits ==> Merging(t.index, carriers, c + 1, longer, next)
  {
    hide LogicalCount, TrailingRun, Normalize, CarrierRuns, TablesOk;
    var occurrence := carriers[c].value;
    OneMore(carriers, c);
    if c > 0 {
      SameChild(t, carriers[c - 1].value.entity, occurrence.entity);
    }
    assert Readable(carriers[..c + 1]);
    longer, next := merged, ordinal;
    if merged != [] && merged[|merged| - 1].node == child &&
       merged[|merged| - 1].count + occurrence.runLength > UINT64_MAX {
      assert OverflowsAt(carriers, c);
      return false, longer, next;
    }
    MergeOne(before, t.index, carriers, c);
    longer := Push(merged, child, occurrence.runLength);
    if c + 1 < |carriers| && ordinal + occurrence.runLength > UINT64_MAX {
      assert OverflowsAt(carriers, c);
      return false, longer, next;
    }
    next := ordinal + occurrence.runLength;
    fits := true;
  }

  class Admission {
    const capacity: nat
    var index: map<Id, nat>
    var nodes: seq<Node>
    var runs: seq<Run>
    var known: seq<Known>

    function View(): Tables
      reads this
    {
      Tables(index, nodes, runs, known)
    }

    constructor (capacity: nat)
      ensures TablesOk(View()) && this.capacity == capacity && View() == Tables(map[], [], [], [])
    {
      this.capacity := capacity;
      index, nodes, runs, known := map[], [], [], [];
    }

    /** Finds the node of an identity, or interns a new one. */
    method NodeFor(id: Id, ghost allowed: set<Id>) returns (status: Status, n: nat)
      requires TablesOk(View()) && |nodes| <= capacity && Within(View(), allowed) && id in allowed
      modifies this`index, this`nodes
      ensures status in {Ok, Limit}
      ensures status == Limit <==> id !in old(index) && |old(nodes)| == capacity
      ensures TablesOk(View()) && Grows(old(View()), View()) && |nodes| <= capacity
      ensures status == Ok ==> id in index && index[id] == n < |nodes| && nodes[n].id == id
      ensures View() == if status == Ok && id !in old(index) then Interning(old(View()), id) else old(View())
      ensures Within(View(), allowed) && (status == Limit ==> |allowed| > capacity)
    {
      if id in index {
        return Ok, index[id];
      }
      if |nodes| >= capacity {
        WithinBounds(View(), allowed);
        return Limit, 0;
      }
      n := |nodes|;
      InternKeeps(View(), id);
      nodes := nodes + [Node(id, None, None, None)];
      index := index[id := n];
      status := Ok;
    }

    /** Records the full witness of a node, or refuses a wrong or second one. */
    method Witness(n: nat, identityWitness: Digest) returns (status: Status)
      requires TablesOk(View()) && n < |nodes|
      modifies this`nodes
      ensures status in {Ok, IdentityInvalid}
      ensures status == IdentityInvalid <==>
        || identityWitness == 0 || identityWitness / ID_SPAN != old(nodes)[n].id
        || (old(nodes)[n].identityWitness.Some? && old(nodes)[n].identityWitness.value != identityWitness)
      ensures status == Ok ==> TablesOk(View()) && Grows(old(View()), View())
      ensures status == Ok ==> nodes == old(nodes)[n := old(nodes)[n].(identityWitness := Some(identityWitness))]
    {
      if identityWitness == 0 || identityWitness / ID_SPAN != nodes[n].id ||
         (nodes[n].identityWitness.Some? && nodes[n].identityWitness.value != identityWitness) {
        return IdentityInvalid;
      }
      var node := nodes[n].(identityWitness := Some(identityWitness));
      assert NodeOk(nodes[n], |nodes|, runs, known);
      UpdateKeeps(View(), n, node, runs, known);
      nodes := nodes[n := node];
      status := Ok;
    }

    /** Interns an entity and records its witness. */
    method Identify(id: Id, identityWitness: Digest, ghost allowed: set<Id>) returns (status: Status, n: nat)
      requires TablesOk(View()) && |nodes| <= capacity && Within(View(), allowed) && id in allowed
      modifies this`index, this`nodes
      ensures status in {Ok, Limit, IdentityInvalid}
      ensures status == Ok ==> TablesOk(View()) && Grows(old(View()), View()) && |nodes| <= capacity
      ensures status == Ok ==> id in index && index[id] == n < |nodes| && nodes[n].id == id
      ensures status == Ok ==> WitnessFits(id, identityWitness) && nodes[n] == Found(old(View()), id).(identityWitness := Some(identityWitness))
      ensures status == Ok ==> forall m | 0 <= m < |old(nodes)| && m != n :: nodes[m] == old(nodes)[m]
      ensures status == Ok ==> |nodes| == |old(nodes)| || (|nodes| == |old(nodes)| + 1 && n == |old(nodes)|)
      ensures (status == Ok ==> Within(View(), allowed)) && (status == Limit ==> |allowed| > capacity)
      ensures status == IdentityInvalid && WitnessFits(id, identityWitness) ==>
        (Found(old(View()), id).identityWitness.Some? && Found(old(View()), id).identityWitness.value != identityWitness)
    {
      hide Grows;
      ghost var before := View();
      status, n := NodeFor(id, allowed);
      if status != Ok {
        return;
      }
      ghost var interned := View();
      status := Witness(n, identityWitness);
      if status == Ok {
        GrowsTransitive(before, interned, View());
      }
    }

    /** Admits an atom after others, or turns it away for the first reason against it. */
    method AdmitAtom(atom: AtomInput, ghost atoms: seq<AtomInput>, ghost allowed: set<Id>) returns (status: Status)
      requires TablesOk(View()) && |nodes| <= capacity && Traced(View(), atoms, [])
      requires Within(View(), allowed) && atom.entity in allowed
      requires forall j | 0 <= j < |atoms| :: AtomAdmitted(atoms[j], View())
      modifies this`index, this`nodes, this`known
      ensures status in {Ok, Limit, AtomInvalid, IdentityInvalid}
      ensures status == Ok ==> TablesOk(View()) && Grows(old(View()), View()) && |nodes| <= capacity
      ensures status == Ok ==> AtomAdmitted(atom, View()) && AtomOk(atom) && Traced(View(), atoms + [atom], [])
      ensures status in {AtomInvalid, IdentityInvalid} ==> status == AtomRefusal(atom, atoms)
      ensures (status == Ok ==> Within(View(), allowed)) && (status == Limit ==> |allowed| > capacity)
    {
      hide Grows, Traced, NodeTraced, WitnessTaken;
      if !atom.valid {
        return AtomInvalid;
      }
      ghost var before := View();
      ghost var found := Found(before, atom.entity);
      FoundOk(before, atom.entity, atoms, []);
      var n;
      status, n := Identify(atom.entity, atom.identityWitness, allowed);
      if status != Ok {
        if status == IdentityInvalid {
          if WitnessFits(atom.entity, atom.identityWitness) {
            AtomWitnessRefused(found, before, atoms, atom);
          }
        }
        return;
      }
      ghost var identified := View();
      assert NodeOk(nodes[n], |nodes|, runs, known);
      if nodes[n].atom.Some? {
        if known[nodes[n].atom.value].placement != atom.placement {
          AdmittedStays([], atoms, [], before, identified);
          WitnessFree(identified, atom.entity, atom.identityWitness, atoms, []);
          PlacementRefused(found, before, atoms, atom);
          return AtomInvalid;
        }
      } else {
        NoFormYet(found, before, atoms);
        var node := nodes[n].(atom := Some(|known|));
        var more := known + [Known(atom.entity, atom.placement)];
        UpdateKeeps(View(), n, node, runs, more);
        nodes := nodes[n := node];
        known := more;
        GrowsTransitive(before, identified, View());
      }
      AtomTracedNow(before, View(), n, atoms, atom);
    }

    /** Interns the children of a form and merges its carriers into runs. */
    method MergeCarriers(carriers: seq<Option<Occurrence>>, ghost allowed: set<Id>) returns (status: Status, merged: seq<Run>)
      requires TablesOk(View()) && |nodes| <= capacity && Within(View(), allowed) && CarriersOf(carriers, allowed)
      modifies this`index, this`nodes
      ensures status in {Ok, Limit, SourceInvalid}
      ensures TablesOk(View()) && Grows(old(View()), View()) && |nodes| <= capacity
      ensures old(nodes) <= nodes && forall m | |old(nodes)| <= m < |nodes| :: Bare(nodes[m])
      ensures status == SourceInvalid ==> !Readable(carriers)
      ensures Within(View(), allowed) && (status == Limit ==> |allowed| > capacity || Overflows(carriers))
      ensures status == Ok ==> !Overflows(carriers)
      ensures status == Ok ==> Decodes(index, carriers) && merged == Normalize(CarrierRuns(index, carriers))
    {
      hide TablesOk, NodeGrows, Merging, Within, Overflows;
      merged := [];
      var ordinal := 1;
      GrowsReflexive(View());
      NothingMerged(index, carriers);
      for c := 0 to |carriers|
        invariant TablesOk(View()) && Grows(old(View()), View()) && |nodes| <= capacity && Within(View(), allowed)
        invariant old(nodes) <= nodes && runs == old(runs) && known == old(known)
        invariant forall m | |old(nodes)| <= m < |nodes| :: Bare(nodes[m])
        invariant Merging(index, carriers, c, merged, ordinal)
      {
        if carriers[c].None? {
          return SourceInvalid, merged;
        }
        ghost var before := View();
        var child, fits;
        status, child := NodeFor(carriers[c].value.entity, allowed);
        GrowsTransitive(old(View()), before, View());
        if status != Ok {
          return status, merged;
        }
        fits, merged, ordinal := PushCarrier(carriers, c, merged, ordinal, child, before.index, View());
        if !fits {
          return Limit, merged;
        }
      }
      AllMerged(index, carriers, merged, ordinal);
      status := Ok;
    }

    /** Records a merged form, or compares it with the one already recorded; the two
        are accepted together exactly when they expand to the same children. */
    method RecordForm(n: nat, merged: seq<Run>) returns (status: Status)
      requires TablesOk(View()) && n < |nodes| && nodes[n].atom.None? && nodes[n].identityWitness.Some?
      requires Normal(merged) && WithinNodes(merged, |nodes|)
      modifies this`nodes, this`runs
      ensures status in {Ok, IdentityInvalid}
      ensures status == IdentityInvalid <==>
        old(nodes)[n].form.Some? && Expand(FormOf(old(nodes)[n], old(runs))) != Expand(merged)
      ensures status == Ok ==> TablesOk(View()) && Grows(old(View()), View()) && |nodes| == |old(nodes)|
      ensures status == Ok ==> forall m | 0 <= m < |nodes| :: nodes[m].id == old(nodes)[m].id
      ensures status == Ok ==> forall m | 0 <= m < |nodes| && m != n :: nodes[m] == old(nodes)[m]
      ensures status == Ok ==> nodes[n].form.Some? && nodes[n].(form := None) == old(nodes)[n].(form := None)
      ensures status == Ok ==> nodes[n].form.value.first + nodes[n].form.value.count <= |runs| && FormOf(nodes[n], runs) == merged
    {
      assert NodeOk(nodes[n], |nodes|, runs, known);
      if nodes[n].form.Some? {
        var same := SameForm(FormOf(nodes[n], runs), merged);
        return if same then Ok else IdentityInvalid;
      }
      var node := nodes[n].(form := Some(Slice(|runs|, |merged|)));
      var more := runs + merged;
      assert FormOf(node, more) == merged;
      UpdateKeeps(View(), n, node, more, known);
      nodes := nodes[n := node];
      runs := more;
      status := Ok;
    }

    /** Admits a source form after atoms and other forms, or turns it away for the first
        reason against it. */
    method AdmitSource(source: SourceInput, ghost atoms: seq<AtomInput>, ghost sources: seq<SourceInput>, ghost allowed: set<Id>) returns (status: Status)
      requires TablesOk(View()) && |nodes| <= capacity && Traced(View(), atoms, sources)
      requires Within(View(), allowed) && SourceWithin(source, allowed)
      requires forall j | 0 <= j < |atoms| :: AtomAdmitted(atoms[j], View())
      requires forall j | 0 <= j < |sources| :: SourceAdmitted(sources[j], View())
      modifies this`index, this`nodes, this`runs
      ensures status in {Ok, Limit, SourceInvalid, IdentityInvalid}
      ensures status == Ok ==> TablesOk(View()) && Grows(old(View()), View()) && |nodes| <= capacity
      ensures status == Ok ==> SourceAdmitted(source, View()) && SourceOk(source) && Traced(View(), atoms, sources + [source])
      ensures status in {SourceInvalid, IdentityInvalid} ==> status == SourceRefusal(source, atoms, sources)
      ensures (status == Ok ==> Within(View(), allowed)) && (status == Limit ==> |allowed| > capacity || (HasTopology(source) && Overflows(source.carriers)))
      ensures status == Ok && HasTopology(source) ==> !Overflows(source.carriers)
    {
      hide Grows, TablesOk, Normalize, CarrierRuns, Traced, NodeTraced, WitnessTaken, SourceAdmitted, AtomAdmitted;
      if !source.valid {
        return SourceInvalid;
      }
      ghost var before := View();
      ghost var found := Found(before, source.entity);
      FoundOk(before, source.entity, atoms, sources);
      var n;
      status, n := Identify(source.entity, source.identityWitness, allowed);
      if status != Ok {
        if status == IdentityInvalid {
          if WitnessFits(source.entity, source.identityWitness) {
            SourceWitnessRefused(found, before, atoms, sources, source);
          }
        }
        return;
      }
      if source.realizedWitness.Some? && source.realizedWitness.value != source.identityWitness {
        return IdentityInvalid;
      }
      ghost var identified := View();
      if source.entity in before.index {
        IndexGrows(before, identified, source.entity);
      }
      if source.atomic || source.logicalCount == 1 {
        TransparentAdmitted(source, identified);
        SourceTracedNow(before, identified, n, atoms, sources, source);
        return Ok;  // a transparent form supplies no topology
      }
      if nodes[n].atom.Some? {
        TopologyOfAtomRefused(found, before, atoms, sources, source);
        return IdentityInvalid;
      }
      if !Readable(source.carriers) {
        AdmittedStays([], atoms, sources, before, identified);
        Unreadable(identified, source, atoms, sources);
      }
      status := AdmitForm(source, n, before, atoms, sources, allowed);
    }

    /** Merges and records the form of a source whose node is identified. */
    method AdmitForm(source: SourceInput, n: nat, ghost before: Tables, ghost atoms: seq<AtomInput>, ghost sources: seq<SourceInput>, ghost allowed: set<Id>)
      returns (status: Status)
      requires Within(View(), allowed) && SourceWithin(source, allowed)
      requires TablesOk(View()) && |nodes| <= capacity && TablesOk(before) && Traced(before, atoms, sources) && Grows(before, View())
      requires HasTopology(source) && source.valid && (Readable(source.carriers) ==> SourceOk(source))
      requires !Readable(source.carriers) ==> SourceRefusal(source, atoms, sources) == SourceInvalid
      requires Identified(View(), source, n) && nodes[n] == Found(before, source.entity).(identityWitness := Some(source.identityWitness))
      requires |nodes| == |before.nodes| || (|nodes| == |before.nodes| + 1 && n == |before.nodes|)
      requires forall m | 0 <= m < |before.nodes| && m != n :: nodes[m] == before.nodes[m]
      modifies this`index, this`nodes, this`runs
      ensures status in {Ok, Limit, SourceInvalid, IdentityInvalid}
      ensures status == Ok ==> TablesOk(View()) && Grows(before, View()) && |nodes| <= capacity
      ensures status == Ok ==> SourceAdmitted(source, View()) && SourceOk(source) && Traced(View(), atoms, sources + [source])
      ensures status in {SourceInvalid, IdentityInvalid} ==> status == SourceRefusal(source, atoms, sources)
      ensures (status == Ok ==> Within(View(), allowed)) && (status == Limit ==> |allowed| > capacity || (HasTopology(source) && Overflows(source.carriers)))
      ensures status == Ok && HasTopology(source) ==> !Overflows(source.carriers)
    {
      hide Grows, TablesOk, Normalize, CarrierRuns, Traced, NodeTraced, SourceRefusal, SourceOk, Readable, Within;
      ghost var identified := View();
      ghost var found := Found(before, source.entity);
      FoundOk(before, source.entity, atoms, sources);
      var merged;
      status, merged := MergeCarriers(source.carriers, allowed);
      if status != Ok {
        return;
      }
      ghost var filled := View();
      DecodesReadable(index, source.carriers);
      assert nodes[n] == identified.nodes[n] && index[source.entity] == n by {
        IndexGrows(identified, filled, source.entity);
      }
      GrowsTransitive(before, identified, filled);
      NormalizeIsNormal(CarrierRuns(index, source.carriers));
      CarriersWithin(filled, source.carriers);
      status := RecordForm(n, merged);
      if status == Ok {
        SameIds(filled, View(), allowed);
        GrowsTransitive(before, filled, View());
        SourceTracedNow(before, View(), n, atoms, sources, source);
      } else {
        NodeTracedStays(found, before, filled, atoms, sources, atoms, sources);
        assert FormOf(found, filled.runs) == FormOf(filled.nodes[n], filled.runs);
        FormRefused(found, filled, atoms, sources, source);
      }
    }

    method AdmitRoots(input: Input) returns (status: Status)
      requires View() == Tables(map[], [], [], [])
      modifies this`index, this`nodes
      ensures status in {Ok, Limit}
      ensures status == Ok ==> Kept(input, 0, 0) && forall n | 0 <= n < |nodes| :: Bare(nodes[n])
      ensures status == Limit ==> |Mentioned(input)| > capacity
    {
      hide Mentioned, Within, Grows, TablesOk;
      ghost var allowed := Mentioned(input);
      NothingRecorded(View(), allowed);
      for i := 0 to |input.roots|
        invariant TablesOk(View()) && |nodes| <= capacity && Within(View(), allowed)
        invariant forall n | 0 <= n < |nodes| :: Bare(nodes[n])
        invariant forall j | 0 <= j < i :: RootAdmitted(input.roots[j], View())
      {
        ghost var before := View();
        var n;
        RootMentioned(input, i);
        status, n := NodeFor(input.roots[i], allowed);
        if status != Ok {
          return;
        }
        AdmittedStays(input.roots[..i], [], [], before, View());
        assert forall j | 0 <= j < i :: input.roots[..i][j] == input.roots[j];
      }
      BareTraced(View());
      assert input.atoms[..0] == [] && input.sources[..0] == [];
      status := Ok;
    }

    /** The roots, so many atoms and so many forms are admitted, and nothing else is
        recorded. */
    ghost predicate Kept(input: Input, atoms: nat, sources: nat)
      requires atoms <= |input.atoms| && sources <= |input.sources|
      reads this
    {
      && TablesOk(View()) && |nodes| <= capacity && Within(View(), Mentioned(input))
      && Traced(View(), input.atoms[..atoms], input.sources[..sources])
      && (forall j | 0 <= j < |input.roots| :: RootAdmitted(input.roots[j], View()))
      && (forall j | 0 <= j < atoms :: AtomAdmitted(input.atoms[j], View()) && AtomOk(input.atoms[j]))
      && (forall j | 0 <= j < sources :: SourceAdmitted(input.sources[j], View()) && SourceOk(input.sources[j]))
      && (forall j | 0 <= j < sources && HasTopology(input.sources[j]) :: !Overflows(input.sources[j].carriers))
    }

    method AdmitAtoms(input: Input) returns (status: Status)
      requires Kept(input, 0, 0)
      modifies this`index, this`nodes, this`known
      ensures status in {Ok, Limit, AtomInvalid, IdentityInvalid}
      ensures status == Ok ==> Kept(input, |input.atoms|, 0)
      ensures status in {AtomInvalid, IdentityInvalid} ==> status == Refusal(input)
      ensures status == Limit ==> |Mentioned(input)| > capacity
    {
      hide Mentioned, Overflows, Within, SourceWithin, TablesOk, Grows, AtomAdmitted, SourceAdmitted, Traced, AtomOk, SourceOk, AtomFits, SourceFits, AtomRefusal;
      for i := 0 to |input.atoms|
        invariant Kept(input, i, 0)
      {
        ghost var before := View();
        AtomMentioned(input, i);
        assert input.sources[..0] == [];
        assert forall j | 0 <= j < i :: input.atoms[..i][j] == input.atoms[j];
        status := AdmitAtom(input.atoms[i], input.atoms[..i], Mentioned(input));
        if status != Ok {
          if status != Limit {
            AtomsFit(input, before, i);
            AtomRefusalExact(input.atoms[i], input.atoms[..i]);
            AtomRefused(input, 0, i);
          }
          return;
        }
        assert input.atoms[..i + 1] == input.atoms[..i] + [input.atoms[i]];
        assert forall j | 0 <= j < i :: input.atoms[..i][j] == input.atoms[j];
        AdmittedStays(input.roots, input.atoms[..i], [], before, View());
        assert forall j | 0 <= j < i :: AtomAdmitted(input.atoms[..i][j], View());
      }
      status := Ok;
    }

    method AdmitSources(input: Input) returns (status: Status)
      requires Kept(input, |input.atoms|, 0)
      modifies this`index, this`nodes, this`runs
      ensures status in {Ok, Limit, SourceInvalid, IdentityInvalid}
      ensures status == Ok ==> Kept(input, |input.atoms|, |input.sources|)
      ensures status in {SourceInvalid, IdentityInvalid} ==> status == Refusal(input)
      ensures status == Limit ==> |Mentioned(input)| > capacity || TooLong(input)
    {
      hide Mentioned, Overflows, Within, SourceWithin, TablesOk, Grows, AtomAdmitted, SourceAdmitted, Traced, AtomOk, SourceOk, AtomFits, SourceFits, SourceRefusal;
      assert input.atoms[..|input.atoms|] == input.atoms;
      for i := 0 to |input.sources|
        invariant Kept(input, |input.atoms|, i)
      {
        ghost var before := View();
        SourceMentioned(input, i);
        assert forall j | 0 <= j < i :: input.sources[..i][j] == input.sources[j];
        status := AdmitSource(input.sources[i], input.atoms, input.sources[..i], Mentioned(input));
        if status != Ok {
          if status != Limit {
            SourcesFit(input, before, i);
            SourceRefusalExact(input.sources[i], input.atoms, input.sources[..i]);
            AtomsPass(input, 0);
            SourceRefused(input, 0, i);
          }
          return;
        }
        assert input.sources[..i + 1] == input.sources[..i] + [input.sources[i]];
        assert forall j | 0 <= j < i :: input.sources[..i][j] == input.sources[j];
        AdmittedStays(input.roots, input.atoms, input.sources[..i], before, View());
        assert forall j | 0 <= j < i :: SourceAdmitted(input.sources[..i][j], View());
      }
      status := Ok;
    }
  }

  /** The source's entity has its node and witness, and is no atom. */
  ghost predicate Identified(t: Tables, source: SourceInput, n: nat) {
    && source.entity in t.index && t.index[source.entity] == n < |t.nodes|
    && t.nodes[n].id == source.entity && t.nodes[n].identityWitness == Some(source.identityWitness) && t.nodes[n].atom.None?
  }

  lemma SameIds(before: Tables, after: Tables, allowed: set<Id>)
    requires Within(before, allowed) && |before.nodes| == |after.nodes|
    requires forall m | 0 <= m < |after.nodes| :: after.nodes[m].id == before.nodes[m].id
    ensures Within(after, allowed)
  {
  }

  lemma DecodesReadable(index: map<Id, nat>, carriers: seq<Option<Occurrence>>)
    requires Decodes(index, carriers)
    ensures Readable(carriers)
  {
  }

  lemma TransparentAdmitted(source: SourceInput, t: Tables)
    requires source.entity in t.index && t.index[source.entity] < |t.nodes| && !HasTopology(source)
    requires t.nodes[t.index[source.entity]].identityWitness == Some(source.identityWitness)
    ensures SourceAdmitted(source, t)
  {
  }

  /** The atoms admitted so far fit those before them. */
  lemma AtomsFit(input: Input, t: Tables, n: nat)
    requires TablesOk(t) && n <= |input.atoms|
    requires forall j | 0 <= j < n :: AtomAdmitted(input.atoms[j], t) && AtomOk(input.atoms[j])
    ensures forall j | 0 <= j < n :: AtomFits(input.atoms[j], input.atoms[..j])
  {
    hide TablesOk, AtomAdmitted, AtomOk, AtomFits, SourceFits;
    var part := Input([], input.atoms[..n], [], input.limits);
    AdmittedIsConsistent(part, t);
    forall j | 0 <= j < n
      ensures AtomFits(input.atoms[j], input.atoms[..j])
    {
      assert AtomFits(part.atoms[j], part.atoms[..j]);
      assert part.atoms[..j] == input.atoms[..j];
    }
  }

  lemma SourcesFit(input: Input, t: Tables, n: nat)
    requires TablesOk(t) && n <= |input.sources|
    requires forall j | 0 <= j < |input.atoms| :: AtomAdmitted(input.atoms[j], t) && AtomOk(input.atoms[j])
    requires forall j | 0 <= j < n :: SourceAdmitted(input.sources[j], t) && SourceOk(input.sources[j])
    ensures forall j | 0 <= j < |input.atoms| :: AtomFits(input.atoms[j], input.atoms[..j])
    ensures forall j | 0 <= j < n :: SourceFits(input.sources[j], input.atoms, input.sources[..j])
  {
    hide TablesOk, AtomAdmitted, SourceAdmitted, AtomOk, SourceOk, AtomFits, SourceFits;
    var part := Input([], input.atoms, input.sources[..n], input.limits);
    AdmittedIsConsistent(part, t);
    assert forall j | 0 <= j < |part.atoms| :: AtomFits(part.atoms[j], part.atoms[..j]);
    forall j | 0 <= j < n
      ensures SourceFits(input.sources[j], input.atoms, input.sources[..j])
    {
      assert SourceFits(part.sources[j], part.atoms, part.sources[..j]);
      assert part.sources[..j] == input.sources[..j];
    }
  }

  /** While only atoms are admitted, no node has a form. */
  lemma NoFormYet(node: Node, t: Tables, atoms: seq<AtomInput>)
    requires NodeOk(node, |t.nodes|, t.runs, t.known) && NodeTraced(node, t, atoms, [])
    ensures node.form.None?
  {
  }

  lemma AtomTracedNow(before: Tables, after: Tables, n: nat, atoms: seq<AtomInput>, atom: AtomInput)
    requires TablesOk(before) && TablesOk(after) && Grows(before, after) && Traced(before, atoms, [])
    requires n < |after.nodes| && |after.nodes| <= |before.nodes| + 1 && (|after.nodes| > |before.nodes| ==> n == |before.nodes|)
    requires forall m | 0 <= m < |before.nodes| && m != n :: after.nodes[m] == before.nodes[m]
    requires AtomAdmitted(atom, after) && after.index[atom.entity] == n && after.nodes[n].form.None?
    ensures Traced(after, atoms + [atom], [])
  {
    hide Grows, Traced;
    var node, all := after.nodes[n], atoms + [atom];
    assert all[|atoms|] == atom;
    assert NodeTraced(node, after, all, []);
    TracedStep(before, after, n, atoms, [], all, []);
  }

  lemma SameNode(before: Tables, after: Tables, n: nat)
    requires Grows(before, after) && n < |before.nodes|
    ensures n < |after.nodes| && after.nodes[n].id == before.nodes[n].id
  {
    assert NodeGrows(before.nodes[n], after.nodes[n]);
  }

  lemma SourceTracedNow(before: Tables, after: Tables, n: nat, atoms: seq<AtomInput>, sources: seq<SourceInput>, source: SourceInput)
    requires TablesOk(before) && TablesOk(after) && Grows(before, after) && Traced(before, atoms, sources)
    requires n < |after.nodes| && (n < |before.nodes| || before.nodes == after.nodes[..|before.nodes|])
    requires forall m | 0 <= m < |before.nodes| && m != n :: after.nodes[m] == before.nodes[m]
    requires forall m | |before.nodes| <= m < |after.nodes| && m != n :: Bare(after.nodes[m])
    requires SourceAdmitted(source, after) && after.index[source.entity] == n
    requires after.nodes[n].atom.Some? ==> n < |before.nodes| && after.nodes[n].atom == before.nodes[n].atom
    requires !HasTopology(source) ==> after.nodes[n].form.Some? ==> n < |before.nodes| && after.nodes[n].form == before.nodes[n].form
    ensures Traced(after, atoms, sources + [source])
  {
    hide Grows, Normalize;
    var node, all := after.nodes[n], sources + [source];
    assert all[|sources|] == source;
    if n < |before.nodes| {
      NodeTracedStays(before.nodes[n], before, after, atoms, sources, atoms, all);
      SameNode(before, after, n);
    }
    if HasTopology(source) {
      assert FormFrom(node.id, FormOf(node, after.runs), after.index, all[|sources|]);
    }
    assert NodeTraced(node, after, atoms, all);
    TracedStep(before, after, n, atoms, sources, atoms, all);
  }

  /** Interns the roots, then admits the atoms, then the source forms.  Apart from the
      limits, the inputs are admitted exactly when they are consistent, and otherwise
      turned away for the first reason against them. */
  method Admit(input: Input) returns (status: Status, t: Tables)
    ensures status in {Ok, Limit, AtomInvalid, SourceInvalid, IdentityInvalid}
    ensures status == Ok ==> Represents(input, t)
    ensures status == Ok ==> Consistent(input) && |Mentioned(input)| <= input.limits.nodeCapacity
    ensures status in {AtomInvalid, SourceInvalid, IdentityInvalid} ==> !Consistent(input) && status == Refusal(input)
    ensures status == Limit ==> |Mentioned(input)| > input.limits.nodeCapacity || TooLong(input)
    ensures status == Ok ==> !TooLong(input)
  {
    hide Mentioned, Overflows, Within, SourceWithin, TablesOk, Grows, AtomAdmitted, SourceAdmitted, Traced, AtomOk, SourceOk, AtomFits, SourceFits, Consistent, Refusal;
    var admission := new Admission(input.limits.nodeCapacity);
    status := admission.AdmitRoots(input);
    if status == Ok {
      status := admission.AdmitAtoms(input);
    }
    if status == Ok {
      status := admission.AdmitSources(input);
    }
    t := admission.View();
    if status in {AtomInvalid, SourceInvalid, IdentityInvalid} {
      RefusalExact(input);
    }
    if status == Ok {
      assert input.atoms[..|input.atoms|] == input.atoms && input.sources[..|input.sources|] == input.sources;
      AdmittedIsConsistent(input, t);
      RepresentedAll(input, t);
      WithinBounds(t, Mentioned(input));
    }
  }

  lemma NothingRecorded(t: Tables, allowed: set<Id>)
    requires t == Tables(map[], [], [], [])
    ensures TablesOk(t) && Within(t, allowed)
  {
  }

  lemma BareTraced(t: Tables)
    requires TablesOk(t) && forall n | 0 <= n < |t.nodes| :: Bare(t.nodes[n])
    ensures Traced(t, [], [])
  {
  }
}
