/** Why inputs are turned away: the first reason against them, in the order in which
    atoms and forms are looked at. */
module ContentRefusal {
  import opened Options
  import opened ContentRuns
  import opened ContentClosure
  import opened ContentTables
  import opened ContentConsistency

  /** Some input gives the entity another witness. */
  ghost predicate WitnessTaken(id: Id, identityWitness: Digest, atoms: seq<AtomInput>, sources: seq<SourceInput>) {
    || (exists i | 0 <= i < |atoms| :: atoms[i].entity == id && atoms[i].identityWitness != identityWitness)
    || (exists i | 0 <= i < |sources| :: sources[i].entity == id && sources[i].identityWitness != identityWitness)
  }

  /** The reason against an atom after others, if there is one. */
  ghost function AtomRefusal(atom: AtomInput, atoms: seq<AtomInput>): Status {
    if !atom.valid then AtomInvalid
    else if !WitnessFits(atom.entity, atom.identityWitness) || WitnessTaken(atom.entity, atom.identityWitness, atoms, []) then IdentityInvalid
    else if exists i | 0 <= i < |atoms| :: atoms[i].entity == atom.entity && atoms[i].placement != atom.placement then AtomInvalid
    else Ok
  }

  /** A form that supplies other children for the entity. */
  ghost predicate OtherChildren(a: SourceInput, b: SourceInput) {
    && a.entity == b.entity && !a.atomic && a.logicalCount != 1
    && Readable(a.carriers) && Readable(b.carriers) && ChildIds(a.carriers) != ChildIds(b.carriers)
  }

  /** The reason against a form after atoms and other forms. */
  ghost function SourceRefusal(source: SourceInput, atoms: seq<AtomInput>, sources: seq<SourceInput>): Status {
    if !source.valid then SourceInvalid
    else if !WitnessFits(source.entity, source.identityWitness) || WitnessTaken(source.entity, source.identityWitness, atoms, sources) then IdentityInvalid
    else if source.realizedWitness.Some? && source.realizedWitness.value != source.identityWitness then IdentityInvalid
    else if source.atomic || source.logicalCount == 1 then Ok
    else if exists i | 0 <= i < |atoms| :: atoms[i].entity == source.entity then IdentityInvalid
    else if !Readable(source.carriers) then SourceInvalid
    else if exists i | 0 <= i < |sources| :: OtherChildren(sources[i], source) then IdentityInvalid
    else Ok
  }

  lemma AtomRefusalExact(atom: AtomInput, atoms: seq<AtomInput>)
    ensures AtomRefusal(atom, atoms) == Ok <==> AtomFits(atom, atoms)
  {
    hide WitnessFits;
    if AtomRefusal(atom, atoms) == Ok {
      forall i | 0 <= i < |atoms|
        ensures AtomsAgree(atoms[i], atom)
      {
      }
    }
  }

  lemma SourceRefusalExact(source: SourceInput, atoms: seq<AtomInput>, sources: seq<SourceInput>)
    ensures SourceRefusal(source, atoms, sources) == Ok <==> SourceFits(source, atoms, sources)
  {
    hide WitnessFits, Readable, ChildIds;
    if SourceRefusal(source, atoms, sources) == Ok {
      forall i | 0 <= i < |atoms|
        ensures AtomSourceAgree(atoms[i], source)
      {
      }
      forall i | 0 <= i < |sources|
        ensures SourcesAgree(sources[i], source)
      {
        assert !source.atomic && source.logicalCount != 1 ==> !OtherChildren(sources[i], source);
      }
    } else if SourceFits(source, atoms, sources) {
      assert forall i | 0 <= i < |atoms| :: AtomSourceAgree(atoms[i], source);
      assert forall i | 0 <= i < |sources| :: SourcesAgree(sources[i], source);
    }
  }

  /** The first reason against the atoms from one on, or against the forms. */
  ghost function RefusalFrom(input: Input, i: nat): Status
    requires i <= |input.atoms|
    decreases |input.atoms| - i
  {
    if i == |input.atoms| then SourceRefusalFrom(input, 0)
    else if AtomRefusal(input.atoms[i], input.atoms[..i]) != Ok then AtomRefusal(input.atoms[i], input.atoms[..i])
    else RefusalFrom(input, i + 1)
  }

  ghost function SourceRefusalFrom(input: Input, i: nat): Status
    requires i <= |input.sources|
    decreases |input.sources| - i
  {
    if i == |input.sources| then Ok
    else if SourceRefusal(input.sources[i], input.atoms, input.sources[..i]) != Ok then SourceRefusal(input.sources[i], input.atoms, input.sources[..i])
    else SourceRefusalFrom(input, i + 1)
  }

  ghost function Refusal(input: Input): Status {
    RefusalFrom(input, 0)
  }

  /** The first atom that does not fit those before it is the reason. */
  lemma {:induction false} AtomRefused(input: Input, from: nat, i: nat)
    requires from <= i < |input.atoms| && !AtomFits(input.atoms[i], input.atoms[..i])
    requires forall j | from <= j < i :: AtomFits(input.atoms[j], input.atoms[..j])
    ensures RefusalFrom(input, from) == AtomRefusal(input.atoms[i], input.atoms[..i])
    decreases i - from
  {
    hide AtomRefusal, AtomFits;
    AtomRefusalExact(input.atoms[from], input.atoms[..from]);
    if from < i {
      AtomRefused(input, from + 1, i);
    }
  }

  lemma {:induction false} AtomsPass(input: Input, from: nat)
    requires from <= |input.atoms| && forall j | from <= j < |input.atoms| :: AtomFits(input.atoms[j], input.atoms[..j])
    ensures RefusalFrom(input, from) == SourceRefusalFrom(input, 0)
    decreases |input.atoms| - from
  {
    hide AtomRefusal, AtomFits, SourceRefusalFrom;
    if from < |input.atoms| {
      AtomRefusalExact(input.atoms[from], input.atoms[..from]);
      AtomsPass(input, from + 1);
    }
  }

  lemma {:induction false} SourceRefused(input: Input, from: nat, i: nat)
    requires from <= i < |input.sources| && !SourceFits(input.sources[i], input.atoms, input.sources[..i])
    requires forall j | from <= j < i :: SourceFits(input.sources[j], input.atoms, input.sources[..j])
    ensures SourceRefusalFrom(input, from) == SourceRefusal(input.sources[i], input.atoms, input.sources[..i])
    decreases i - from
  {
    hide SourceRefusal, SourceFits;
    SourceRefusalExact(input.sources[from], input.atoms, input.sources[..from]);
    if from < i {
      SourceRefused(input, from + 1, i);
    }
  }

  lemma {:induction false} SourcesPass(input: Input, from: nat)
    requires from <= |input.sources| && forall j | from <= j < |input.sources| :: SourceFits(input.sources[j], input.atoms, input.sources[..j])
    ensures SourceRefusalFrom(input, from) == Ok
    decreases |input.sources| - from
  {
    hide SourceRefusal, SourceFits;
    if from < |input.sources| {
      SourceRefusalExact(input.sources[from], input.atoms, input.sources[..from]);
      SourcesPass(input, from + 1);
    }
  }

  /** There is a reason exactly against inputs that are not consistent. */
  lemma RefusalExact(input: Input)
    ensures Refusal(input) == Ok <==> Consistent(input)
  {
    hide SourceRefusal, SourceFits, AtomRefusal, AtomFits;
    if forall j | 0 <= j < |input.atoms| :: AtomFits(input.atoms[j], input.atoms[..j]) {
      AtomsPass(input, 0);
      if forall j | 0 <= j < |input.sources| :: SourceFits(input.sources[j], input.atoms, input.sources[..j]) {
        SourcesPass(input, 0);
      } else {
        var i := FirstUnfitSource(input);
        SourceRefused(input, 0, i);
        SourceRefusalExact(input.sources[i], input.atoms, input.sources[..i]);
      }
    } else {
      var i := FirstUnfitAtom(input);
      AtomRefused(input, 0, i);
      AtomRefusalExact(input.atoms[i], input.atoms[..i]);
    }
  }

  lemma FirstUnfitAtom(input: Input) returns (i: nat)
    requires exists j | 0 <= j < |input.atoms| :: !AtomFits(input.atoms[j], input.atoms[..j])
    ensures i < |input.atoms| && !AtomFits(input.atoms[i], input.atoms[..i])
    ensures forall j | 0 <= j < i :: AtomFits(input.atoms[j], input.atoms[..j])
  {
    hide AtomFits;
    i := 0;
    while AtomFits(input.atoms[i], input.atoms[..i])
      invariant i < |input.atoms| && forall j | 0 <= j < i :: AtomFits(input.atoms[j], input.atoms[..j])
      decreases |input.atoms| - i
    {
      i := i + 1;
    }
  }

  lemma FirstUnfitSource(input: Input) returns (i: nat)
    requires exists j | 0 <= j < |input.sources| :: !SourceFits(input.sources[j], input.atoms, input.sources[..j])
    ensures i < |input.sources| && !SourceFits(input.sources[i], input.atoms, input.sources[..i])
    ensures forall j | 0 <= j < i :: SourceFits(input.sources[j], input.atoms, input.sources[..j])
  {
    hide SourceFits;
    i := 0;
    while SourceFits(input.sources[i], input.atoms, input.sources[..i])
      invariant i < |input.sources| && forall j | 0 <= j < i :: SourceFits(input.sources[j], input.atoms, input.sources[..j])
      decreases |input.sources| - i
    {
      i := i + 1;
    }
  }

  // ----- while admitting -----

  lemma AtomWitnessRefused(node: Node, t: Tables, atoms: seq<AtomInput>, atom: AtomInput)
    requires NodeOk(node, |t.nodes|, t.runs, t.known) && NodeTraced(node, t, atoms, []) && atom.valid
    requires node.id == atom.entity && node.identityWitness.Some? && node.identityWitness.value != atom.identityWitness
    ensures AtomRefusal(atom, atoms) == IdentityInvalid
  {
  }

  /** What was admitted before gives no entity two witnesses. */
  lemma WitnessFree(t: Tables, id: Id, identityWitness: Digest, atoms: seq<AtomInput>, sources: seq<SourceInput>)
    requires forall i | 0 <= i < |atoms| :: AtomAdmitted(atoms[i], t)
    requires forall i | 0 <= i < |sources| :: SourceAdmitted(sources[i], t)
    requires id in t.index && t.index[id] < |t.nodes| && t.nodes[t.index[id]].identityWitness == Some(identityWitness)
    ensures !WitnessTaken(id, identityWitness, atoms, sources)
  {
    forall i | 0 <= i < |atoms| && atoms[i].entity == id
      ensures atoms[i].identityWitness == identityWitness
    {
      assert AtomAdmitted(atoms[i], t);
    }
    forall i | 0 <= i < |sources| && sources[i].entity == id
      ensures sources[i].identityWitness == identityWitness
    {
      assert SourceAdmitted(sources[i], t);
    }
  }

  lemma PlacementRefused(node: Node, t: Tables, atoms: seq<AtomInput>, atom: AtomInput)
    requires NodeOk(node, |t.nodes|, t.runs, t.known) && NodeTraced(node, t, atoms, []) && atom.valid
    requires WitnessFits(atom.entity, atom.identityWitness) && !WitnessTaken(atom.entity, atom.identityWitness, atoms, [])
    requires node.id == atom.entity && node.atom.Some? && t.known[node.atom.value].placement != atom.placement
    ensures AtomRefusal(atom, atoms) == AtomInvalid
  {
  }

  lemma SourceWitnessRefused(node: Node, t: Tables, atoms: seq<AtomInput>, sources: seq<SourceInput>, source: SourceInput)
    requires NodeOk(node, |t.nodes|, t.runs, t.known) && NodeTraced(node, t, atoms, sources) && source.valid
    requires node.id == source.entity && node.identityWitness.Some? && node.identityWitness.value != source.identityWitness
    ensures SourceRefusal(source, atoms, sources) == IdentityInvalid
  {
  }

  lemma TopologyOfAtomRefused(node: Node, t: Tables, atoms: seq<AtomInput>, sources: seq<SourceInput>, source: SourceInput)
    requires NodeOk(node, |t.nodes|, t.runs, t.known) && NodeTraced(node, t, atoms, sources) && source.valid
    requires node.id == source.entity && node.atom.Some? && HasTopology(source)
    ensures SourceRefusal(source, atoms, sources) == IdentityInvalid
  {
  }

  lemma Unreadable(t: Tables, source: SourceInput, atoms: seq<AtomInput>, sources: seq<SourceInput>)
    requires forall i | 0 <= i < |atoms| :: AtomAdmitted(atoms[i], t)
    requires forall i | 0 <= i < |sources| :: SourceAdmitted(sources[i], t)
    requires source.entity in t.index && t.index[source.entity] < |t.nodes|
    requires t.nodes[t.index[source.entity]].identityWitness == Some(source.identityWitness) && t.nodes[t.index[source.entity]].atom.None?
    requires source.valid && WitnessFits(source.entity, source.identityWitness) && HasTopology(source) && !Readable(source.carriers)
    requires source.realizedWitness.Some? ==> source.realizedWitness.value == source.identityWitness
    ensures SourceRefusal(source, atoms, sources) == SourceInvalid
  {
    WitnessFree(t, source.entity, source.identityWitness, atoms, sources);
    forall i | 0 <= i < |atoms|
      ensures atoms[i].entity != source.entity
    {
      assert AtomAdmitted(atoms[i], t);
    }
  }

  /** A form that expands otherwise than the recorded one lists other children than an
      earlier form. */
  lemma FormRefused(node: Node, t: Tables, atoms: seq<AtomInput>, sources: seq<SourceInput>, source: SourceInput)
    requires TablesOk(t) && NodeOk(node, |t.nodes|, t.runs, t.known) && NodeTraced(node, t, atoms, sources) && source.valid
    requires node.id == source.entity && node.form.Some? && HasTopology(source) && Decodes(t.index, source.carriers)
    requires Expand(FormOf(node, t.runs)) != Expand(Normalize(CarrierRuns(t.index, source.carriers)))
    ensures SourceRefusal(source, atoms, sources) == IdentityInvalid
  {
    hide Normalize, Expand, WitnessFits;
    var i :| 0 <= i < |sources| && FormFrom(node.id, FormOf(node, t.runs), t.index, sources[i]);
    NormalizeExpands(CarrierRuns(t.index, sources[i].carriers));
    NormalizeExpands(CarrierRuns(t.index, source.carriers));
    FormsAgreeExactly(t, sources[i].carriers, source.carriers);
    assert OtherChildren(sources[i], source);
  }
}
