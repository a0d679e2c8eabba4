/** The register section of a checkpoint. */
module FirmwareRegisters {
  import opened Octets
  import opened WireFormat
  import opened FirmwareProgram

  const HAS_REALIZATION: U32 := 1
  const REGISTER_BYTES: nat := 100

  datatype Register = Register(flags: U32, answer: Id128, realization: Id128, act: Digest256, materialization: Digest256)

  predicate RegisterOk(r: Register) {
    && r.flags <= HAS_REALIZATION && !Zero(r.act)
    && (r.flags == 0 ==> Zero(r.realization) && Zero(r.materialization))
  }

  function RegisterBytes(r: Register): (b: Bytes)
    ensures |b| == REGISTER_BYTES
  {
    Put32(r.flags) + r.answer + r.realization + r.act + r.materialization
  }

  function ParseRegister(b: Bytes): Register
    requires |b| == REGISTER_BYTES
  {
    Register(Get32(b[0..4]), b[4..20], b[20..36], b[36..68], b[68..100])
  }

  lemma RegisterRoundTrip(r: Register, b: Bytes)
    requires |b| == REGISTER_BYTES
    ensures ParseRegister(RegisterBytes(r)) == r && RegisterBytes(ParseRegister(b)) == b
  {
    hide Put32, Get32;
    var s := RegisterBytes(r);
    assert s[0..4] == Put32(r.flags) && s[4..20] == r.answer && s[20..36] == r.realization && s[36..68] == r.act && s[68..100] == r.materialization;
    PutGet32(r.flags, b[0..4]);
    assert b == b[0..4] + b[4..20] + b[20..36] + b[36..68] + b[68..100];
  }

  ghost function RegistersBytes(rs: seq<Register>): (b: Bytes)
    ensures |b| == REGISTER_BYTES * |rs|
  {
    if rs == [] then [] else RegistersBytes(rs[..|rs| - 1]) + RegisterBytes(rs[|rs| - 1])
  }

  /** The section: count, version, registers. */
  ghost function Section(rs: seq<Register>): Bytes
    requires |rs| < U32_LIMIT
  {
    Put32(|rs|) + Put32(VERSION) + RegistersBytes(rs)
  }

  method EncodeRegisters(rs: seq<Register>) returns (b: Bytes)
    requires |rs| < U32_LIMIT
    ensures b == Section(rs)
  {
    hide RegisterBytes, RegistersBytes, Put32;
    b := Put32(|rs|) + Put32(VERSION);
    NoRegisters();
    for i := 0 to |rs|
      invariant b == Put32(|rs|) + Put32(VERSION) + RegistersBytes(rs[..i])
    {
      OneMoreRegister(rs, i);
      b := b + RegisterBytes(rs[i]);
    }
    assert rs[..|rs|] == rs;
  }

  lemma NoRegisters()
    ensures RegistersBytes([]) == []
  {
  }

  lemma OneMoreRegister(rs: seq<Register>, i: nat)
    requires i < |rs|
    ensures RegistersBytes(rs[..i + 1]) == RegistersBytes(rs[..i]) + RegisterBytes(rs[i])
  {
    assert rs[..i + 1][..i] == rs[..i];
  }

  lemma {:induction false} RegistersBytesAt(rs: seq<Register>, i: nat)
    requires i < |rs|
    ensures RegistersBytes(rs)[REGISTER_BYTES * i..REGISTER_BYTES * i + REGISTER_BYTES] == RegisterBytes(rs[i])
  {
    hide RegisterBytes;
    var n := |rs| - 1;
    var front := RegistersBytes(rs[..n]);
    if i < n {
      RegistersBytesAt(rs[..n], i);
      assert rs[..n][i] == rs[i];
      assert RegistersBytes(rs)[REGISTER_BYTES * i..REGISTER_BYTES * i + REGISTER_BYTES] == front[REGISTER_BYTES * i..REGISTER_BYTES * i + REGISTER_BYTES];
    }
  }

  /** Sections of different registers differ. */
  lemma SectionInjective(rs: seq<Register>, other: seq<Register>)
    requires |rs| < U32_LIMIT && |other| < U32_LIMIT && Section(rs) == Section(other)
    ensures rs == other
  {
    hide RegistersBytes, RegisterBytes, ParseRegister, Put32;
    assert Section(rs)[HEADER_BYTES..] == RegistersBytes(rs) && Section(other)[HEADER_BYTES..] == RegistersBytes(other);
    forall i | 0 <= i < |rs|
      ensures rs[i] == other[i]
    {
      RegistersBytesAt(rs, i);
      RegistersBytesAt(other, i);
      RegisterRoundTrip(rs[i], RegisterBytes(rs[i]));
      RegisterRoundTrip(other[i], RegisterBytes(other[i]));
    }
  }

  /** What a checkpoint may hold. */
  ghost predicate Holds(section: Bytes, rs: seq<Register>) {
    && 0 < |rs| < U32_LIMIT && Section(rs) == section && forall i | 0 <= i < |rs| :: RegisterOk(rs[i])
  }

  ghost predicate RegisterAt(section: Bytes, i: nat, r: Register) {
    var at := HEADER_BYTES + i * REGISTER_BYTES;
    at + REGISTER_BYTES <= |section| && r == ParseRegister(section[at..at + REGISTER_BYTES])
  }

  lemma HoldsAt(section: Bytes, rs: seq<Register>, i: nat, r: Register)
    requires Holds(section, rs) && i < |rs| && RegisterAt(section, i, r)
    ensures r == rs[i] && RegisterOk(r)
  {
    hide RegistersBytes, RegisterBytes, ParseRegister, Put32, RegisterOk;
    var all, at := RegistersBytes(rs), REGISTER_BYTES * i;
    assert section[HEADER_BYTES..] == all;
    assert all[at..at + REGISTER_BYTES] == section[HEADER_BYTES + at..HEADER_BYTES + at + REGISTER_BYTES];
    RegistersBytesAt(rs, i);
    RegisterRoundTrip(rs[i], RegisterBytes(rs[i]));
  }

  lemma HoldsHeader(section: Bytes, rs: seq<Register>)
    requires Holds(section, rs)
    ensures |section| == HEADER_BYTES + |rs| * REGISTER_BYTES && Get32(section[0..4]) == |rs| && Get32(section[4..8]) == VERSION
  {
    hide RegistersBytes, Put32, Get32, RegisterOk;
    assert section[0..4] == Put32(|rs|) && section[4..8] == Put32(VERSION);
    PutGet32(|rs|, Put32(0));
    PutGet32(VERSION, Put32(0));
  }

  method ReadRegister(section: Bytes, cursor: nat) returns (r: Register, next: nat)
    requires cursor + REGISTER_BYTES <= |section|
    ensures r == ParseRegister(section[cursor..cursor + REGISTER_BYTES]) && next == cursor + REGISTER_BYTES
  {
    hide Get32;
    var flags: U32;
    var answer, realization, act, materialization: Bytes;
    flags, next := Read32(section, cursor);
    answer, next := ReadId(section, next, 16);
    realization, next := ReadId(section, next, 16);
    act, next := ReadId(section, next, 32);
    materialization, next := ReadId(section, next, 32);
    r := Register(flags, answer, realization, act, materialization);
    RegisterSlices(section, cursor);
  }

  lemma RegisterSlices(section: Bytes, c: nat)
    requires c + REGISTER_BYTES <= |section|
    ensures var b := section[c..c + REGISTER_BYTES];
      && b[0..4] == section[c..c + 4] && b[4..20] == section[c + 4..c + 20] && b[20..36] == section[c + 20..c + 36]
      && b[36..68] == section[c + 36..c + 68] && b[68..100] == section[c + 68..c + 100]
  {
    var b := section[c..c + REGISTER_BYTES];
    Inner(section, c, c + REGISTER_BYTES, 0, 4);
    Inner(section, c, c + REGISTER_BYTES, 4, 20);
    Inner(section, c, c + REGISTER_BYTES, 20, 36);
    Inner(section, c, c + REGISTER_BYTES, 36, 68);
    Inner(section, c, c + REGISTER_BYTES, 68, 100);
  }

  /** Decodes exactly the sections of nonempty, well-formed registers. */
  method DecodeRegisters(section: Bytes) returns (ok: bool, rs: seq<Register>)
    ensures ok ==> Holds(section, rs)
    ensures !ok ==> forall other :: !Holds(section, other)
  {
    hide ParseRegister, Get32, RegisterOk, Holds, RegisterAt;
    rs := [];
    NotHeld(section);
    if |section| < HEADER_BYTES {
      return false, rs;
    }
    var cursor := 0;
    var n, version: U32;
    n, cursor := Read32(section, cursor);
    version, cursor := Read32(section, cursor);
    if version != VERSION || n == 0 || |section| - HEADER_BYTES != n * REGISTER_BYTES {
      return false, rs;
    }
    for i := 0 to n
      invariant cursor == HEADER_BYTES + i * REGISTER_BYTES && |rs| == i
      invariant forall j | 0 <= j < i :: RegisterAt(section, j, rs[j]) && RegisterOk(rs[j])
    {
      var r: Register;
      r, cursor := ReadRegister(section, cursor);
      IsAt(section, i, r);
      if !RegisterOk(r) {
        Refused(section, i, r);
        return false, rs;
      }
      rs := rs + [r];
    }
    Decoded(section, rs);
    ok := true;
  }

  lemma IsAt(section: Bytes, i: nat, r: Register)
    requires HEADER_BYTES + i * REGISTER_BYTES + REGISTER_BYTES <= |section|
    requires r == ParseRegister(section[HEADER_BYTES + i * REGISTER_BYTES..HEADER_BYTES + i * REGISTER_BYTES + REGISTER_BYTES])
    ensures RegisterAt(section, i, r)
  {
    hide ParseRegister;
  }

  lemma NotHeld(section: Bytes)
    ensures |section| < HEADER_BYTES ==> forall other :: !Holds(section, other)
    ensures |section| >= HEADER_BYTES && (Get32(section[4..8]) != VERSION || Get32(section[0..4]) == 0 || |section| - HEADER_BYTES != Get32(section[0..4]) * REGISTER_BYTES) ==>
      forall other :: !Holds(section, other)
  {
    hide Holds, Get32;
    forall other
      ensures Holds(section, other) ==> |section| >= HEADER_BYTES
      ensures Holds(section, other) ==> Get32(section[4..8]) == VERSION && Get32(section[0..4]) != 0 && |section| - HEADER_BYTES == Get32(section[0..4]) * REGISTER_BYTES
    {
      if Holds(section, other) {
        HoldsHeader(section, other);
        NotEmpty(section, other);
      }
    }
  }

  lemma NotEmpty(section: Bytes, rs: seq<Register>)
    requires Holds(section, rs)
    ensures |rs| > 0
  {
  }

  lemma Refused(section: Bytes, i: nat, r: Register)
    requires |section| >= HEADER_BYTES && i < Get32(section[0..4]) && RegisterAt(section, i, r) && !RegisterOk(r)
    ensures forall other :: !Holds(section, other)
  {
    hide Holds, RegisterAt, RegisterOk, Get32;
    forall other
      ensures !Holds(section, other)
    {
      if Holds(section, other) {
        HoldsHeader(section, other);
        HoldsAt(section, other, i, r);
      }
    }
  }

  lemma Decoded(section: Bytes, rs: seq<Register>)
    requires 0 < |rs| < U32_LIMIT && |section| == HEADER_BYTES + |rs| * REGISTER_BYTES
    requires Get32(section[0..4]) == |rs| && Get32(section[4..8]) == VERSION
    requires forall j | 0 <= j < |rs| :: RegisterAt(section, j, rs[j]) && RegisterOk(rs[j])
    ensures Holds(section, rs)
  {
    hide ParseRegister, RegisterBytes, RegistersBytes, Put32, Get32, RegisterOk, RegisterAt;
    var tail, whole := section[HEADER_BYTES..], RegistersBytes(rs);
    forall j | 0 <= j < |rs|
      ensures REGISTER_BYTES * j + REGISTER_BYTES <= |tail|
      ensures whole[REGISTER_BYTES * j..REGISTER_BYTES * j + REGISTER_BYTES] == tail[REGISTER_BYTES * j..REGISTER_BYTES * j + REGISTER_BYTES]
    {
      ChunkOf(section, tail, rs, j);
    }
    SameChunks(whole, tail, |rs|, REGISTER_BYTES);
    PutGet32(0, section[0..4]);
    PutGet32(0, section[4..8]);
    assert section == section[0..4] + section[4..8] + tail;
  }

  lemma ChunkOf(section: Bytes, tail: Bytes, rs: seq<Register>, j: nat)
    requires |section| == HEADER_BYTES + |rs| * REGISTER_BYTES && tail == section[HEADER_BYTES..] && j < |rs| && RegisterAt(section, j, rs[j])
    ensures REGISTER_BYTES * j + REGISTER_BYTES <= |tail|
    ensures RegistersBytes(rs)[REGISTER_BYTES * j..REGISTER_BYTES * j + REGISTER_BYTES] == tail[REGISTER_BYTES * j..REGISTER_BYTES * j + REGISTER_BYTES]
  {
    hide RegistersBytes, RegisterBytes, ParseRegister;
    var at := HEADER_BYTES + j * REGISTER_BYTES;
    RegistersBytesAt(rs, j);
    RegisterRoundTrip(rs[j], section[at..at + REGISTER_BYTES]);
    assert tail[REGISTER_BYTES * j..REGISTER_BYTES * j + REGISTER_BYTES] == section[at..at + REGISTER_BYTES];
  }

  /** The section of the registers is accepted exactly when there are any and each is in
      order, and then it decodes to them and to nothing else. */
  lemma RegistersRoundTrip(rs: seq<Register>)
    requires |rs| < U32_LIMIT
    ensures Holds(Section(rs), rs) <==> rs != [] && forall i | 0 <= i < |rs| :: RegisterOk(rs[i])
    ensures forall decoded :: Holds(Section(rs), decoded) ==> decoded == rs
  {
    hide RegistersBytes;
    forall decoded | Holds(Section(rs), decoded)
      ensures decoded == rs
    {
      SectionInjective(rs, decoded);
    }
  }
}
