/** Request packets: the size calculator, the encoder and the decoder, which agree byte for
    byte. */
module PacketRequest {
  import opened Octets
  import opened WireFormat
  import opened PacketRows
  import opened PacketRecords

  const FIXED_BYTES: nat := 344
  const CONTEXT_OFFSET: nat := 112

  /** LAPCOGQ1 */
  function RequestMagic(): (b: Bytes)
    ensures |b| == 8
  {
    [76, 65, 80, 67, 79, 71, 81, 49]
  }

  // ----- runs of records -----

  function FieldsBytes(fs: seq<Field>): (b: Bytes)
    ensures |b| == 160 * |fs|
  {
    if fs == [] then [] else FieldBytes(fs[0]) + FieldsBytes(fs[1..])
  }

  function StandingCount(cs: seq<Constraint>): nat {
    if cs == [] then 0 else StandingCount(cs[1..]) + if cs[0].sourceClass == SOURCE_STANDING then 1 else 0
  }

  function ConstraintsBytes(cs: seq<Constraint>): (b: Bytes)
    ensures |b| == 264 * |cs| + 240 * StandingCount(cs)
  {
    if cs == [] then [] else ConstraintBytes(cs[0]) + ConstraintsBytes(cs[1..])
  }

  lemma {:induction false} FieldsAppend(fs: seq<Field>, f: Field)
    ensures FieldsBytes(fs + [f]) == FieldsBytes(fs) + FieldBytes(f)
    decreases |fs|
  {
    hide FieldBytes;
    if fs == [] {
      assert [] + [f] == [f] && [f][1..] == [];
    } else {
      FieldsAppend(fs[1..], f);
      assert (fs + [f])[1..] == fs[1..] + [f];
    }
  }

  lemma {:induction false} ConstraintsAppend(cs: seq<Constraint>, c: Constraint)
    ensures ConstraintsBytes(cs + [c]) == ConstraintsBytes(cs) + ConstraintBytes(c)
    ensures StandingCount(cs + [c]) == StandingCount(cs) + if c.sourceClass == SOURCE_STANDING then 1 else 0
    decreases |cs|
  {
    hide ConstraintBytes;
    if cs == [] {
      assert [] + [c] == [c] && [c][1..] == [];
    } else {
      ConstraintsAppend(cs[1..], c);
      assert (cs + [c])[1..] == cs[1..] + [c];
    }
  }

  lemma {:induction false} FieldsInjective(fs: seq<Field>, gs: seq<Field>)
    requires FieldsBytes(fs) == FieldsBytes(gs)
    ensures fs == gs
    decreases |fs|
  {
    hide FieldBytes;
    if fs != [] {
      var b := FieldsBytes(fs);
      assert b[..160] == FieldBytes(fs[0]) == FieldBytes(gs[0]) && b[160..] == FieldsBytes(fs[1..]) == FieldsBytes(gs[1..]);
      FieldBytesInjective(fs[0], gs[0]);
      FieldsInjective(fs[1..], gs[1..]);
      assert fs == [fs[0]] + fs[1..] && gs == [gs[0]] + gs[1..];
    }
  }

  ghost predicate AllPlaced(cs: seq<Constraint>) {
    forall k | 0 <= k < |cs| :: StandingPlaced(cs[k])
  }

  /** Constraints can be told apart although their sizes differ. */
  lemma {:induction false} ConstraintsPrefix(cs: seq<Constraint>, es: seq<Constraint>, rest: Bytes, other: Bytes)
    requires AllPlaced(cs) && AllPlaced(es) && |cs| == |es| && ConstraintsBytes(cs) + rest == ConstraintsBytes(es) + other
    ensures cs == es && rest == other
    decreases |cs|
  {
    hide ConstraintBytes, StandingPlaced;
    if cs != [] {
      assert ConstraintBytes(cs[0]) + (ConstraintsBytes(cs[1..]) + rest) == ConstraintsBytes(cs) + rest;
      assert ConstraintBytes(es[0]) + (ConstraintsBytes(es[1..]) + other) == ConstraintsBytes(es) + other;
      ConstraintPrefix(cs[0], es[0], ConstraintsBytes(cs[1..]) + rest, ConstraintsBytes(es[1..]) + other);
      ConstraintsPrefix(cs[1..], es[1..], rest, other);
      assert cs == [cs[0]] + cs[1..] && es == [es[0]] + es[1..];
    } else {
      assert [] + rest == rest && [] + other == other;
    }
  }

  // ----- packets -----

  ghost predicate Encodable(r: Request) {
    && r.families != [] && r.fields != [] && r.constraints != [] && |r.initial| == |r.fields|
    && |r.families| < U64_LIMIT && |r.fields| < U64_LIMIT && |r.constraints| < U64_LIMIT
  }

  ghost predicate HasStanding(cs: seq<Constraint>) {
    exists k | 0 <= k < |cs| :: cs[k].sourceClass == SOURCE_STANDING
  }

  ghost function Counts(r: Request): seq<U64>
    requires Encodable(r)
  {
    [|r.families|, |r.fields|, |r.constraints|, |r.initial|]
  }

  ghost function Packet(version: U32, r: Request): Bytes
    requires Encodable(r)
  {
    RequestMagic() + PutInts([version, PACKET_FLAGS]) + PutLongs(Counts(r)) + OperatorBytes(r.operator) + SolverBytes(r.solver)
    + PutInts(r.families) + FieldsBytes(r.fields) + ConstraintsBytes(r.constraints) + PutLongs(r.initial)
  }

  /** What a decoder can return: nothing set that is not written. */
  ghost predicate Decodable(version: U32, r: Request) {
    && Encodable(r) && (version == VERSION_PLAIN || version == VERSION_STANDING)
    && r.operator.reserved == 0 && r.solver.reserved == 0 && r.solver.operatorId == NoDigest()
    && r.boundaries == []
    && AllPlaced(r.constraints) && (version == VERSION_PLAIN ==> !HasStanding(r.constraints))
  }

  ghost predicate Canonical(bytes: Bytes) {
    exists version: U32, r: Request :: Decodable(version, r) && Packet(version, r) == bytes
  }

  /** Where the parts of a packet are. */
  lemma Sections(bytes: Bytes, version: U32, r: Request)
    requires Encodable(r) && Packet(version, r) == bytes
    ensures |bytes| == FIXED_BYTES + 4 * |r.families| + 160 * |r.fields| + 264 * |r.constraints| + 240 * StandingCount(r.constraints) + 8 * |r.initial|
    ensures bytes[..8] == RequestMagic() && bytes[8..16] == PutInts([version, PACKET_FLAGS]) && bytes[16..48] == PutLongs(Counts(r))
    ensures bytes[48..232] == OperatorBytes(r.operator) && bytes[232..344] == SolverBytes(r.solver)
    ensures var f := 344 + 4 * |r.families|; var g := f + 160 * |r.fields|;
      g <= |bytes| && bytes[344..f] == PutInts(r.families) && bytes[f..g] == FieldsBytes(r.fields)
      && bytes[g..] == ConstraintsBytes(r.constraints) + PutLongs(r.initial)
  {
    hide PutInts, PutLongs, OperatorBytes, SolverBytes, FieldsBytes, ConstraintsBytes, RequestMagic;
    var head := RequestMagic() + PutInts([version, PACKET_FLAGS]) + PutLongs(Counts(r));
    var programs := OperatorBytes(r.operator) + SolverBytes(r.solver);
    var tail := ConstraintsBytes(r.constraints) + PutLongs(r.initial);
    Regroup(bytes, RequestMagic(), PutInts([version, PACKET_FLAGS]), PutLongs(Counts(r)), OperatorBytes(r.operator), SolverBytes(r.solver),
            PutInts(r.families), FieldsBytes(r.fields), ConstraintsBytes(r.constraints), PutLongs(r.initial));
  }

  lemma Regroup(bytes: Bytes, a: Bytes, b: Bytes, c: Bytes, d: Bytes, e: Bytes, f: Bytes, g: Bytes, h: Bytes, i: Bytes)
    requires bytes == a + b + c + d + e + f + g + h + i
    ensures |bytes| == |a| + |b| + |c| + |d| + |e| + |f| + |g| + |h| + |i|
    ensures bytes[..|a|] == a && bytes[|a|..|a| + |b|] == b && bytes[|a| + |b|..|a| + |b| + |c|] == c
    ensures var n := |a| + |b| + |c|;
      bytes[n..n + |d|] == d && bytes[n + |d|..n + |d| + |e|] == e
      && bytes[n + |d| + |e|..n + |d| + |e| + |f|] == f
      && bytes[n + |d| + |e| + |f|..n + |d| + |e| + |f| + |g|] == g
      && bytes[n + |d| + |e| + |f| + |g|..] == h + i
  {
  }

  // ----- size and version -----

  /** Version 2 exactly when a standing constraint occurs. */
  method RequestVersion(r: Request) returns (version: U32)
    ensures version == if HasStanding(r.constraints) then VERSION_STANDING else VERSION_PLAIN
  {
    for index := 0 to |r.constraints|
      invariant forall k | 0 <= k < index :: r.constraints[k].sourceClass != SOURCE_STANDING
    {
      if r.constraints[index].sourceClass == SOURCE_STANDING {
        return VERSION_STANDING;
      }
    }
    version := VERSION_PLAIN;
  }

  /** The size, computed from the counts alone. */
  method RequestBytes(r: Request) returns (ok: bool, total: nat)
    requires |r.families| < U64_LIMIT && |r.fields| < U64_LIMIT && |r.constraints| < U64_LIMIT
    ensures ok <==> Encodable(r)
    ensures ok ==> total % 4 == 0 && forall version: U32 :: |Packet(version, r)| == total
  {
    hide Packet, ConstraintsBytes, StandingCount;
    total := 0;
    if r.families == [] || r.fields == [] || r.constraints == [] || |r.initial| != |r.fields| {
      return false, total;
    }
    total := FIXED_BYTES + |r.families| * 4 + |r.fields| * 160 + |r.constraints| * 264;
    var standings := StandingBytes(r.constraints);
    total := total + standings + |r.initial| * 8;
    PacketSize(r);
    ok := true;
  }

  method StandingBytes(cs: seq<Constraint>) returns (total: nat)
    ensures total == 240 * StandingCount(cs)
  {
    hide ConstraintsBytes, ConstraintBytes;
    total := 0;
    for index := 0 to |cs|
      invariant total == 240 * StandingCount(cs[..index])
    {
      ConstraintsAppend(cs[..index], cs[index]);
      assert cs[..index + 1] == cs[..index] + [cs[index]];
      if cs[index].sourceClass == SOURCE_STANDING {
        total := total + 240;
      }
    }
    assert cs[..|cs|] == cs;
  }

  lemma PacketSize(r: Request)
    requires Encodable(r)
    ensures forall version: U32 ::
      |Packet(version, r)| == FIXED_BYTES + 4 * |r.families| + 160 * |r.fields| + 264 * |r.constraints| + 240 * StandingCount(r.constraints) + 8 * |r.initial|
  {
    hide Packet;
    forall version: U32
      ensures |Packet(version, r)| == FIXED_BYTES + 4 * |r.families| + 160 * |r.fields| + 264 * |r.constraints| + 240 * StandingCount(r.constraints) + 8 * |r.initial|
    {
      Sections(Packet(version, r), version, r);
    }
  }

  // ----- words -----

  method BytesToWords(bytes: Bytes, words: array<U32>)
    requires |bytes| % 4 == 0 && |bytes| / 4 <= words.Length
    modifies words
    ensures PutInts(words[..|bytes| / 4]) == bytes
    ensures words[|bytes| / 4..] == old(words[|bytes| / 4..])
  {
    hide PutInts, Put32, Get32;
    var count := |bytes| / 4;
    NoNumbers();
    for index := 0 to count
      invariant PutInts(words[..index]) == bytes[..4 * index]
      invariant words[count..] == old(words[count..])
    {
      var offset := index * 4;
      ghost var before := words[..index];
      words[index] := Get32(bytes[offset..offset + 4]);
      assert words[..index] == before;
      PutGet32(0, bytes[offset..offset + 4]);
      IntsAppend(before, words[index]);
      assert words[..index + 1] == before + [words[index]];
      assert bytes[..4 * (index + 1)] == bytes[..4 * index] + bytes[offset..offset + 4];
    }
    assert bytes[..4 * count] == bytes;
  }

  method WordsToBytes(words: seq<U32>) returns (bytes: array<Byte>)
    ensures bytes[..] == PutInts(words) && fresh(bytes)
  {
    hide PutInts, Put32;
    bytes := new Byte[|words| * 4];
    NoNumbers();
    for index := 0 to |words|
      invariant bytes[..4 * index] == PutInts(words[..index])
    {
      var offset, word := index * 4, Put32(words[index]);
      ghost var before := bytes[..offset];
      bytes[offset], bytes[offset + 1], bytes[offset + 2], bytes[offset + 3] := word[0], word[1], word[2], word[3];
      assert bytes[..offset] == before && bytes[offset..offset + 4] == word;
      IntsAppend(words[..index], words[index]);
      assert words[..index + 1] == words[..index] + [words[index]];
      assert bytes[..4 * (index + 1)] == before + word;
    }
    assert words[..|words|] == words && bytes[..4 * |words|] == bytes[..];
  }

  // ----- encoding -----

  datatype Status = Ok | InvalidRequest | ResultCapacity | Range | InvalidArgument

  method WriteConstraint(writer: Writer, c: Constraint) returns (ok: bool)
    requires writer.Valid()
    modifies writer`position, writer.data
    ensures writer.Valid() && (ok <==> old(writer.position) + |ConstraintBytes(c)| <= writer.data.Length)
    ensures ok ==> writer.Written() == old(writer.Written()) + ConstraintBytes(c)
  {
    hide RowBytes;
    ok := writer.PutRow(ConstraintRow(c));
    ConstraintRows(c, ConstraintRow(c), c.standing);
    StandingRows(c.standing, StandingRow(c.standing));
    if ok && c.sourceClass == SOURCE_STANDING {
      ok := writer.PutRow(StandingRow(c.standing));
    }
  }

  method WriteField(writer: Writer, f: Field) returns (ok: bool)
    requires writer.Valid()
    modifies writer`position, writer.data
    ensures writer.Valid() && (ok <==> old(writer.position) + 160 <= writer.data.Length)
    ensures ok ==> writer.Written() == old(writer.Written()) + FieldBytes(f)
  {
    hide RowBytes;
    FieldRows(f, FieldHead(f), f.entity, FieldTail(f));
    ok := writer.PutRow(FieldHead(f));
    if ok {
      ok := writer.Put(f.entity);
    }
    if ok {
      ok := writer.PutRow(FieldTail(f));
    }
  }

  method WriteHead(writer: Writer, r: Request, version: U32) returns (ok: bool)
    requires writer.Valid() && Encodable(r)
    modifies writer`position, writer.data
    ensures writer.Valid() && (ok <==> old(writer.position) + FIXED_BYTES <= writer.data.Length)
    ensures ok ==> writer.Written() == old(writer.Written()) + Head(version, r)
  {
    hide RowBytes, PutInts, PutLongs, RequestMagic;
    OperatorRows(r.operator, OperatorHead(r.operator), OperatorTail(r.operator));
    SolverRows(r.solver, SolverRow(r.solver));
    ghost var w0 := writer.Written();
    ok := writer.Put(RequestMagic());
    if ok {
      ok := writer.Ints([version, PACKET_FLAGS]);
    }
    if ok {
      ok := writer.Longs([|r.families|, |r.fields|, |r.constraints|, |r.initial|]);
    }
    if ok {
      ok := writer.PutRow(OperatorHead(r.operator));
    }
    if ok {
      ok := writer.PutRow(OperatorTail(r.operator));
    }
    if ok {
      ok := writer.PutRow(SolverRow(r.solver));
    }
    if ok {
      Appended6(w0, RequestMagic(), PutInts([version, PACKET_FLAGS]), PutLongs(Counts(r)), RowBytes(OperatorHead(r.operator)), RowBytes(OperatorTail(r.operator)), RowBytes(SolverRow(r.solver)));
    }
  }

  /** The fixed part. */
  ghost function Head(version: U32, r: Request): (b: Bytes)
    requires Encodable(r)
    ensures |b| == FIXED_BYTES
  {
    RequestMagic() + PutInts([version, PACKET_FLAGS]) + PutLongs(Counts(r)) + OperatorBytes(r.operator) + SolverBytes(r.solver)
  }

  lemma Appended6(w: Bytes, a: Bytes, b: Bytes, c: Bytes, d: Bytes, e: Bytes, f: Bytes)
    ensures w + a + b + c + d + e + f == w + (a + b + c + (d + e) + f)
  {
  }

  method WriteFields(writer: Writer, fs: seq<Field>) returns (ok: bool)
    requires writer.Valid()
    modifies writer`position, writer.data
    ensures writer.Valid() && (ok <==> old(writer.position) + 160 * |fs| <= writer.data.Length)
    ensures ok ==> writer.Written() == old(writer.Written()) + FieldsBytes(fs)
  {
    hide FieldBytes;
    ghost var before := writer.Written();
    assert FieldsBytes(fs[..0]) == [] && before + [] == before;
    for index := 0 to |fs|
      invariant writer.Valid() && writer.position == old(writer.position) + 160 * index
      invariant writer.Written() == before + FieldsBytes(fs[..index])
    {
      var written := WriteField(writer, fs[index]);
      if !written {
        return false;
      }
      FieldsAppend(fs[..index], fs[index]);
      assert fs[..index + 1] == fs[..index] + [fs[index]];
      assert before + FieldsBytes(fs[..index]) + FieldBytes(fs[index]) == before + (FieldsBytes(fs[..index]) + FieldBytes(fs[index]));
    }
    assert fs[..|fs|] == fs;
    ok := true;
  }

  lemma {:induction false} ConstraintsGrow(cs: seq<Constraint>, i: nat)
    requires i < |cs|
    ensures ConstraintsBytes(cs[..i + 1]) == ConstraintsBytes(cs[..i]) + ConstraintBytes(cs[i])
    ensures |ConstraintsBytes(cs[..i + 1])| <= |ConstraintsBytes(cs)|
    decreases |cs| - i
  {
    hide ConstraintBytes, ConstraintsBytes;
    ConstraintsAppend(cs[..i], cs[i]);
    assert cs[..i + 1] == cs[..i] + [cs[i]];
    if i + 1 < |cs| {
      ConstraintsGrow(cs, i + 1);
    } else {
      assert cs[..i + 1] == cs;
    }
  }

  method WriteConstraints(writer: Writer, cs: seq<Constraint>) returns (ok: bool)
    requires writer.Valid()
    modifies writer`position, writer.data
    ensures writer.Valid() && (ok <==> old(writer.position) + |ConstraintsBytes(cs)| <= writer.data.Length)
    ensures ok ==> writer.Written() == old(writer.Written()) + ConstraintsBytes(cs)
  {
    hide ConstraintBytes;
    ghost var before := writer.Written();
    assert ConstraintsBytes(cs[..0]) == [] && before + [] == before;
    assert cs[..|cs|] == cs;
    for index := 0 to |cs|
      invariant writer.Valid() && writer.Written() == before + ConstraintsBytes(cs[..index])
    {
      ConstraintsGrow(cs, index);
      var written := WriteConstraint(writer, cs[index]);
      if !written {
        return false;
      }
      assert before + ConstraintsBytes(cs[..index]) + ConstraintBytes(cs[index]) == before + (ConstraintsBytes(cs[..index]) + ConstraintBytes(cs[index]));
    }
    ok := true;
  }

  method WritePacket(writer: Writer, r: Request, version: U32) returns (ok: bool)
    requires writer.Valid() && Encodable(r)
    modifies writer`position, writer.data
    ensures writer.Valid() && (ok <==> old(writer.position) + |Packet(version, r)| <= writer.data.Length)
    ensures ok ==> writer.Written() == old(writer.Written()) + Packet(version, r)
  {
    hide PutInts, PutLongs, Head, FieldsBytes, ConstraintsBytes;
    ghost var w0 := writer.Written();
    Sections(Packet(version, r), version, r);
    HeadFirst(version, r);
    ok := WriteHead(writer, r, version);
    if ok {
      ok := writer.Ints(r.families);
    }
    if ok {
      ok := WriteFields(writer, r.fields);
    }
    if ok {
      ok := WriteConstraints(writer, r.constraints);
    }
    if ok {
      ok := writer.Longs(r.initial);
    }
    if ok {
      Appended5(w0, Head(version, r), PutInts(r.families), FieldsBytes(r.fields), ConstraintsBytes(r.constraints), PutLongs(r.initial));
    }
  }

  lemma HeadFirst(version: U32, r: Request)
    requires Encodable(r)
    ensures Packet(version, r) == Head(version, r) + PutInts(r.families) + FieldsBytes(r.fields) + ConstraintsBytes(r.constraints) + PutLongs(r.initial)
  {
    hide PutInts, PutLongs, FieldsBytes, ConstraintsBytes;
  }

  lemma Appended5(w: Bytes, a: Bytes, b: Bytes, c: Bytes, d: Bytes, e: Bytes)
    ensures w + a + b + c + d + e == w + (a + b + c + d + e)
  {
  }

  /** Encodes into words: the words spell the packet. */
  method EncodeRequestWords(r: Request, words: array<U32>) returns (status: Status, count: nat)
    requires |r.families| < U64_LIMIT && |r.fields| < U64_LIMIT && |r.constraints| < U64_LIMIT
    modifies words
    ensures status == InvalidRequest <==> !Encodable(r)
    ensures status == ResultCapacity <==> Encodable(r) && 4 * words.Length < |Packet(PacketVersion(r), r)|
    ensures status == Ok || status == InvalidRequest || status == ResultCapacity
    ensures Encodable(r) ==> 4 * count == |Packet(PacketVersion(r), r)|
    ensures status == Ok ==> count <= words.Length && PutInts(words[..count]) == Packet(PacketVersion(r), r)
    ensures status == Ok ==> words[count..] == old(words[count..])
    ensures status != Ok ==> words[..] == old(words[..])
  {
    hide Packet, PutInts;
    var sized, bytes := RequestBytes(r);
    if !sized {
      return InvalidRequest, 0;
    }
    var required := bytes / 4;
    if words.Length < required {
      return ResultCapacity, required;
    }
    var buffer := new Byte[bytes];
    var writer := new Writer(buffer);
    var version := RequestVersion(r);
    var written := WritePacket(writer, r, version);
    assert writer.Written() == buffer[..] == Packet(version, r);
    BytesToWords(buffer[..], words);
    status, count := Ok, required;
  }

  ghost function PacketVersion(r: Request): U32 {
    if HasStanding(r.constraints) then VERSION_STANDING else VERSION_PLAIN
  }

  // ----- decoding -----

  method ReadOperator(reader: Reader) returns (ok: bool, p: OperatorProgram)
    requires reader.Valid()
    modifies reader
    ensures reader.Valid() && (ok <==> old(reader.position) + 184 <= |reader.data|)
    ensures ok ==> reader.position == old(reader.position) + 184 && OperatorBytes(p) == reader.data[old(reader.position)..reader.position]
  {
    hide RowBytes;
    p := OperatorProgram(NoDigest(), NoDigest(), NoDigest(), NoDigest(), NoDigest(), 0, 0, 0, 0, 0);
    var headRead, head := reader.TakeRow(5, 0, 2);
    if !headRead {
      return false, p;
    }
    var tailRead, tail := reader.TakeRow(0, 1, 2);
    if !tailRead {
      return false, p;
    }
    OperatorRows(p, head, tail);
    p := OperatorOf(head, tail);
    assert reader.data[old(reader.position)..reader.position] == reader.data[old(reader.position)..reader.position - 16] + reader.data[reader.position - 16..reader.position];
    ok := true;
  }

  method ReadSolver(reader: Reader) returns (ok: bool, p: SolverProgram)
    requires reader.Valid()
    modifies reader
    ensures reader.Valid() && (ok <==> old(reader.position) + 112 <= |reader.data|)
    ensures ok ==> reader.position == old(reader.position) + 112 && SolverBytes(p) == reader.data[old(reader.position)..reader.position] && p.operatorId == NoDigest()
  {
    hide RowBytes, NoDigest;
    p := SolverProgram(NoDigest(), NoDigest(), 0, 0, 0, 0, 0, 0, 0, 0, NoDigest());
    var read, row := reader.TakeRow(2, 4, 4);
    if !read {
      return false, p;
    }
    SolverRows(p, row);
    p := SolverOf(row);
    ok := true;
  }

  method ReadField(reader: Reader) returns (ok: bool, f: Field)
    requires reader.Valid()
    modifies reader
    ensures reader.Valid() && (ok <==> old(reader.position) + 160 <= |reader.data|)
    ensures ok ==> reader.position == old(reader.position) + 160 && FieldBytes(f) == reader.data[old(reader.position)..reader.position]
  {
    hide RowBytes;
    f := Field(NoDigest(), seq(16, _ => 0), NoDigest(), NoDigest(), NoDigest(), 0, 0, 0);
    var headRead, head := reader.TakeRow(1, 0, 0);
    if !headRead {
      return false, f;
    }
    var entityRead, entity := reader.Take(16);
    if !entityRead {
      return false, f;
    }
    var tailRead, tail := reader.TakeRow(3, 1, 2);
    if !tailRead {
      return false, f;
    }
    FieldRows(f, head, entity, tail);
    f := FieldOf(head, entity, tail);
    var p := old(reader.position);
    assert reader.data[p..p + 160] == reader.data[p..p + 32] + reader.data[p + 32..p + 48] + reader.data[p + 48..p + 160];
    ok := true;
  }

  method ReadFields(reader: Reader, n: nat) returns (ok: bool, fs: seq<Field>)
    requires reader.Valid()
    modifies reader
    ensures reader.Valid() && (ok <==> old(reader.position) + 160 * n <= |reader.data|)
    ensures ok ==> reader.position == old(reader.position) + 160 * n && |fs| == n && FieldsBytes(fs) == reader.data[old(reader.position)..reader.position]
  {
    hide FieldBytes;
    fs := [];
    for k := 0 to n
      invariant reader.Valid() && reader.position == old(reader.position) + 160 * k && |fs| == k
      invariant FieldsBytes(fs) == reader.data[old(reader.position)..reader.position]
    {
      var read, f := ReadField(reader);
      if !read {
        return false, fs;
      }
      FieldsAppend(fs, f);
      fs := fs + [f];
      assert reader.data[old(reader.position)..reader.position] == reader.data[old(reader.position)..reader.position - 160] + reader.data[reader.position - 160..reader.position];
    }
    ok := true;
  }

  /** Fails on a standing constraint in a packet of version 1. */
  method ReadConstraint(reader: Reader, version: U32) returns (ok: bool, c: Constraint)
    requires reader.Valid()
    modifies reader
    ensures reader.Valid()
    ensures ok ==> StandingPlaced(c) && (c.sourceClass == SOURCE_STANDING ==> version >= VERSION_STANDING)
    ensures ok ==> old(reader.position) <= reader.position && ConstraintBytes(c) == reader.data[old(reader.position)..reader.position]
    ensures !ok ==> forall e: Constraint, rest: Bytes ::
      StandingPlaced(e) && (e.sourceClass == SOURCE_STANDING ==> version >= VERSION_STANDING) ==> ConstraintBytes(e) + rest != reader.data[old(reader.position)..]
  {
    hide RowBytes, ConstraintRow, StandingRow, ConstraintOf, StandingOf, NoStanding;
    var p := reader.position;
    c := Constraint(NoDigest(), NoDigest(), NoDigest(), NoDigest(), NoDigest(), NoDigest(), 0, 0, 0, 0, 0, 0, 0, 0, 0, 0, 0, 0, NoStanding());
    var baseRead, row := reader.TakeRow(6, 6, 6);
    if !baseRead {
      return false, c;
    }
    ConstraintRows(c, row, NoStanding());
    c := ConstraintOf(row, NoStanding());
    PlacedNone(row);
    if c.sourceClass != SOURCE_STANDING {
      assert ConstraintBytes(c) == RowBytes(row);
      return true, c;
    }
    ClassForced(reader.data[p..], row);
    if version < VERSION_STANDING {
      return false, c;
    }
    var standingRead, standingRow := reader.TakeRow(6, 5, 2);
    if !standingRead {
      return false, c;
    }
    StandingRows(NoStanding(), standingRow);
    ConstraintRows(c, row, StandingOf(standingRow));
    c := ConstraintOf(row, StandingOf(standingRow));
    ClassOf(row, NoStanding(), StandingOf(standingRow));
    assert reader.data[p..p + 504] == reader.data[p..p + 264] + reader.data[p + 264..p + 504];
    ok := true;
  }

  lemma PlacedNone(row: Row)
    requires RowShape(row, 6, 6, 6)
    ensures StandingPlaced(ConstraintOf(row, NoStanding())) && ConstraintOf(row, NoStanding()).standing == NoStanding()
  {
  }

  lemma ClassOf(row: Row, s: Standing, t: Standing)
    requires RowShape(row, 6, 6, 6)
    ensures ConstraintOf(row, s).sourceClass == ConstraintOf(row, t).sourceClass && ConstraintOf(row, t).standing == t
  {
  }

  /** The row read first decides whether a standing has to follow. */
  lemma ClassForced(data: Bytes, row: Row)
    requires RowShape(row, 6, 6, 6) && 264 <= |data| && RowBytes(row) == data[..264] && ConstraintOf(row, NoStanding()).sourceClass == SOURCE_STANDING
    ensures forall e: Constraint, rest: Bytes :: ConstraintBytes(e) + rest == data ==> e.sourceClass == SOURCE_STANDING && |data| >= 504
  {
    hide RowBytes, ConstraintOf;
    forall e: Constraint, rest: Bytes | ConstraintBytes(e) + rest == data
      ensures e.sourceClass == SOURCE_STANDING && |data| >= 504
    {
      ConstraintRows(e, row, NoStanding());
      assert data[..264] == RowBytes(ConstraintRow(e));
      RowInjective(ConstraintRow(e), row, 6, 6, 6);
      ClassOf(row, NoStanding(), e.standing);
    }
  }

  ghost predicate AllAllowed(version: U32, cs: seq<Constraint>) {
    version >= VERSION_STANDING || !HasStanding(cs)
  }

  lemma {:induction false} ConstraintsJoin(cs: seq<Constraint>, k: nat)
    requires k <= |cs|
    ensures ConstraintsBytes(cs) == ConstraintsBytes(cs[..k]) + ConstraintsBytes(cs[k..])
    decreases k
  {
    hide ConstraintBytes, StandingCount;
    if k == 0 {
      assert cs[..0] == [] && cs[0..] == cs;
    } else {
      ConstraintsJoin(cs[1..], k - 1);
      assert cs[..k][1..] == cs[1..][..k - 1] && cs[..k][0] == cs[0] && cs[1..][k - 1..] == cs[k..];
    }
  }

  /** Where a candidate stands after as many constraints as have been read. */
  lemma {:induction false} CandidateNext(data: Bytes, q: nat, cs: seq<Constraint>, es: seq<Constraint>, rest: Bytes)
    requires q <= |data| && AllPlaced(cs) && AllPlaced(es) && |cs| < |es| && ConstraintsBytes(cs) == data[..q] && ConstraintsBytes(es) + rest == data
    ensures ConstraintBytes(es[|cs|]) + (ConstraintsBytes(es[|cs| + 1..]) + rest) == data[q..]
  {
    hide ConstraintBytes, ConstraintsBytes, StandingPlaced;
    var k := |cs|;
    ConstraintsJoin(es, k);
    assert data == data[..q] + data[q..];
    assert ConstraintsBytes(es) + rest == ConstraintsBytes(es[..k]) + (ConstraintsBytes(es[k..]) + rest);
    ConstraintsPrefix(cs, es[..k], data[q..], ConstraintsBytes(es[k..]) + rest);
    ConstraintsHead(es[k..]);
    assert es[k..][0] == es[k] && es[k..][1..] == es[k + 1..];
    assert ConstraintBytes(es[k]) + ConstraintsBytes(es[k + 1..]) + rest == ConstraintBytes(es[k]) + (ConstraintsBytes(es[k + 1..]) + rest);
  }

  lemma ConstraintsHead(cs: seq<Constraint>)
    requires cs != []
    ensures ConstraintsBytes(cs) == ConstraintBytes(cs[0]) + ConstraintsBytes(cs[1..])
  {
    hide ConstraintBytes;
  }

  ghost predicate Fits(data: Bytes, n: nat, version: U32, es: seq<Constraint>, rest: Bytes) {
    |es| == n && AllPlaced(es) && AllAllowed(version, es) && ConstraintsBytes(es) + rest == data
  }

  method ReadConstraints(reader: Reader, n: nat, version: U32) returns (ok: bool, cs: seq<Constraint>)
    requires reader.Valid()
    modifies reader
    ensures reader.Valid()
    ensures ok ==> |cs| == n && AllPlaced(cs) && AllAllowed(version, cs)
    ensures ok ==> old(reader.position) <= reader.position && ConstraintsBytes(cs) == reader.data[old(reader.position)..reader.position]
    ensures !ok ==> forall es: seq<Constraint>, rest: Bytes :: !Fits(reader.data[old(reader.position)..], n, version, es, rest)
  {
    hide ConstraintBytes, StandingPlaced, ConstraintsBytes;
    var p := reader.position;
    ghost var data := reader.data[p..];
    cs := [];
    NoConstraints();
    for k := 0 to n
      invariant reader.Valid() && p <= reader.position && |cs| == k && AllPlaced(cs)
      invariant forall j | 0 <= j < k :: cs[j].sourceClass == SOURCE_STANDING ==> version >= VERSION_STANDING
      invariant ConstraintsBytes(cs) == reader.data[p..reader.position]
    {
      ghost var q := reader.position;
      assert reader.data[p..q] == data[..q - p] && reader.data[q..] == data[q - p..];
      var read, c := ReadConstraint(reader, version);
      if !read {
        NoneFit(data, q - p, cs, n, version);
        return false, cs;
      }
      ConstraintsAppend(cs, c);
      cs := cs + [c];
      assert reader.data[p..reader.position] == reader.data[p..q] + reader.data[q..reader.position];
    }
    ok := true;
  }

  lemma NoConstraints()
    ensures ConstraintsBytes([]) == []
  {
  }

  lemma NoneFit(data: Bytes, q: nat, cs: seq<Constraint>, n: nat, version: U32)
    requires q <= |data| && AllPlaced(cs) && |cs| < n && ConstraintsBytes(cs) == data[..q]
    requires forall e: Constraint, rest: Bytes ::
      StandingPlaced(e) && (e.sourceClass == SOURCE_STANDING ==> version >= VERSION_STANDING) ==> ConstraintBytes(e) + rest != data[q..]
    ensures forall es: seq<Constraint>, rest: Bytes :: !Fits(data, n, version, es, rest)
  {
    hide ConstraintBytes, ConstraintsBytes, StandingPlaced;
    forall es: seq<Constraint>, rest: Bytes
      ensures !Fits(data, n, version, es, rest)
    {
      if Fits(data, n, version, es, rest) {
        CandidateNext(data, q, cs, es, rest);
      }
    }
  }

  /** The fixed part, if the bytes are a packet at all: the counts are the candidate's. */
  method ReadHeader(reader: Reader) returns (ok: bool, version: U32, counts: seq<U64>)
    requires reader.Valid() && reader.position == 0
    modifies reader
    ensures reader.Valid()
    ensures ok ==> reader.position == 48 && |counts| == 4 && (version == VERSION_PLAIN || version == VERSION_STANDING)
    ensures ok ==> reader.data[..48] == RequestMagic() + PutInts([version, PACKET_FLAGS]) + PutLongs(counts)
    ensures ok ==> counts[0] != 0 && counts[1] != 0 && counts[2] != 0 && counts[3] == counts[1]
    ensures !ok ==> !Canonical(reader.data)
  {
    hide PutInts, PutLongs, Packet, RequestMagic, Canonical;
    version, counts := 0, [];
    HeaderForced(reader.data);
    var magicRead, magic := reader.Take(8);
    if !magicRead || magic != RequestMagic() {
      return false, version, counts;
    }
    var intsRead, ints := reader.Ints(2);
    if !intsRead {
      return false, version, counts;
    }
    version := ints[0];
    NumbersForced(reader.data, ints);
    if !(version == VERSION_PLAIN || version == VERSION_STANDING) || ints[1] != PACKET_FLAGS {
      return false, version, counts;
    }
    assert ints == [version, PACKET_FLAGS];
    var longsRead, longs := reader.Longs(4);
    if !longsRead {
      return false, version, counts;
    }
    counts := longs;
    CountsForced(reader.data, longs);
    if counts[0] == 0 || counts[1] == 0 || counts[2] == 0 || counts[3] != counts[1] {
      return false, version, counts;
    }
    assert reader.data[..48] == reader.data[0..8] + reader.data[8..16] + reader.data[16..48];
    ok := true;
  }

  lemma HeaderForced(data: Bytes)
    ensures Canonical(data) ==> |data| >= FIXED_BYTES && data[0..8] == RequestMagic()
  {
    hide PutInts, PutLongs, Packet, RequestMagic, AllPlaced, HasStanding, OperatorBytes, SolverBytes, FieldsBytes, ConstraintsBytes;
    if Canonical(data) {
      var version: U32, r: Request :| Decodable(version, r) && Packet(version, r) == data;
      Sections(data, version, r);
    }
  }

  lemma NumbersForced(data: Bytes, ints: seq<U32>)
    requires 16 <= |data| && |ints| == 2 && PutInts(ints) == data[8..16]
    ensures Canonical(data) ==> (ints[0] == VERSION_PLAIN || ints[0] == VERSION_STANDING) && ints[1] == PACKET_FLAGS
  {
    hide PutInts, PutLongs, Packet, RequestMagic, AllPlaced, HasStanding, OperatorBytes, SolverBytes, FieldsBytes, ConstraintsBytes;
    if Canonical(data) {
      var version: U32, r: Request :| Decodable(version, r) && Packet(version, r) == data;
      Sections(data, version, r);
      IntsInjective(ints, [version, PACKET_FLAGS]);
    }
  }

  lemma CountsForced(data: Bytes, longs: seq<U64>)
    requires 48 <= |data| && |longs| == 4 && PutLongs(longs) == data[16..48]
    ensures Canonical(data) ==> longs[0] != 0 && longs[1] != 0 && longs[2] != 0 && longs[3] == longs[1]
  {
    hide PutInts, PutLongs, Packet, RequestMagic, AllPlaced, HasStanding, OperatorBytes, SolverBytes, FieldsBytes, ConstraintsBytes;
    if Canonical(data) {
      var version: U32, r: Request :| Decodable(version, r) && Packet(version, r) == data;
      Sections(data, version, r);
      LongsInjective(longs, Counts(r));
    }
  }

  function FamilyCount(counts: seq<U64>): nat
    requires |counts| == 4
  {
    counts[0]
  }

  function FieldCount(counts: seq<U64>): nat
    requires |counts| == 4
  {
    counts[1]
  }

  function ConstraintCount(counts: seq<U64>): nat
    requires |counts| == 4
  {
    counts[2]
  }

  function StateCount(counts: seq<U64>): nat
    requires |counts| == 4
  {
    counts[3]
  }

  /** What a packet with this header still has to be. */
  ghost predicate Candidate(data: Bytes, version: U32, counts: seq<U64>, r: Request) {
    Decodable(version, r) && Packet(version, r) == data && Counts(r) == counts
  }

  lemma HeaderDecides(data: Bytes, version: U32, counts: seq<U64>)
    requires 48 <= |data| && |counts| == 4 && data[..48] == RequestMagic() + PutInts([version, PACKET_FLAGS]) + PutLongs(counts)
    ensures Canonical(data) <==> exists r: Request :: Candidate(data, version, counts, r)
  {
    hide PutInts, PutLongs, Packet, RequestMagic, AllPlaced, HasStanding, OperatorBytes, SolverBytes, FieldsBytes, ConstraintsBytes;
    if Canonical(data) {
      HeaderParts(data, version, counts);
      var v: U32, r: Request :| Decodable(v, r) && Packet(v, r) == data;
      Sections(data, v, r);
      IntsInjective([version, PACKET_FLAGS], [v, PACKET_FLAGS]);
      assert [version, PACKET_FLAGS][0] == [v, PACKET_FLAGS][0];
      LongsInjective(counts, Counts(r));
      assert Candidate(data, version, counts, r);
    }
  }

  lemma HeaderParts(data: Bytes, version: U32, counts: seq<U64>)
    requires 48 <= |data| && |counts| == 4 && data[..48] == RequestMagic() + PutInts([version, PACKET_FLAGS]) + PutLongs(counts)
    ensures data[8..16] == PutInts([version, PACKET_FLAGS]) && data[16..48] == PutLongs(counts)
  {
    hide PutInts, PutLongs, RequestMagic;
    var head := data[..48];
    assert head[8..16] == PutInts([version, PACKET_FLAGS]) && head[16..48] == PutLongs(counts);
    assert data[8..16] == head[8..16] && data[16..48] == head[16..48];
  }

  /** A candidate has the programs and runs that were read. */
  lemma CandidateParts(data: Bytes, version: U32, counts: seq<U64>, r: Request)
    requires Candidate(data, version, counts, r) && |counts| == 4
    ensures var f := FIXED_BYTES + 4 * FamilyCount(counts); var g := f + 160 * FieldCount(counts);
      && FIXED_BYTES <= f <= g <= |data| && data[48..232] == OperatorBytes(r.operator) && data[232..344] == SolverBytes(r.solver)
      && data[344..f] == PutInts(r.families) && data[f..g] == FieldsBytes(r.fields)
      && data[g..] == ConstraintsBytes(r.constraints) + PutLongs(r.initial)
      && Fits(data[g..], ConstraintCount(counts), version, r.constraints, PutLongs(r.initial))
    ensures |r.families| == FamilyCount(counts) && |r.fields| == FieldCount(counts) && |r.constraints| == ConstraintCount(counts) && |r.initial| == StateCount(counts) == FieldCount(counts)
    ensures r.operator.reserved == 0 && r.solver.reserved == 0
  {
    hide PutInts, PutLongs, Packet, RequestMagic;
    Sections(data, version, r);
    assert FamilyCount(Counts(r)) == FamilyCount(counts) && FieldCount(Counts(r)) == FieldCount(counts) && ConstraintCount(Counts(r)) == ConstraintCount(counts) && StateCount(Counts(r)) == StateCount(counts);
  }

  /** Decodes exactly the packets of decodable requests. */
  method DecodeRequest(bytes: Bytes) returns (status: Status, version: U32, r: Request)
    ensures status == Ok ==> Decodable(version, r) && Packet(version, r) == bytes
    ensures status != Ok ==> !Canonical(bytes)
    ensures status == InvalidArgument <==> bytes == []
    ensures status == Ok || status == InvalidArgument || status == InvalidRequest
  {
    hide Packet, PutInts, PutLongs, RequestMagic, Canonical, OperatorBytes, SolverBytes, FieldsBytes, ConstraintsBytes, Candidate, Fits, StandingPlaced, NoDigest, Counts, Decodable;
    var nothing := NoRequest();
    HeaderForced(bytes);
    if bytes == [] {
      return InvalidArgument, 0, nothing;
    }
    var reader := new Reader(bytes);
    var headerRead, v, counts := ReadHeader(reader);
    if !headerRead {
      return InvalidRequest, v, nothing;
    }
    HeaderDecides(bytes, v, counts);
    var programsRead, operator, solver := ReadPrograms(reader, v, counts);
    if !programsRead {
      return InvalidRequest, v, nothing;
    }
    var runsRead, families, fields := ReadRuns(reader, v, counts);
    if !runsRead {
      return InvalidRequest, v, nothing;
    }
    var g := reader.position;
    var constraintsRead, constraints := ReadConstraints(reader, ConstraintCount(counts), v);
    if !constraintsRead {
      NoneFits(bytes, v, counts, g);
      return InvalidRequest, v, nothing;
    }
    var h := reader.position;
    TailForced(bytes, v, counts, g, h, constraints);
    var initialRead, initial := reader.Longs(StateCount(counts));
    if !initialRead || reader.position != |bytes| {
      return InvalidRequest, v, nothing;
    }
    r := Request(operator, solver, families, fields, constraints, [], initial);
    Assembled(bytes, v, counts, r, g, h);
    status, version := Ok, v;
  }

  function NoRequest(): Request {
    Request(OperatorProgram(NoDigest(), NoDigest(), NoDigest(), NoDigest(), NoDigest(), 0, 0, 0, 0, 0),
            SolverProgram(NoDigest(), NoDigest(), 0, 0, 0, 0, 0, 0, 0, 0, NoDigest()), [], [], [], [], [])
  }

  method ReadPrograms(reader: Reader, version: U32, counts: seq<U64>) returns (ok: bool, operator: OperatorProgram, solver: SolverProgram)
    requires reader.Valid() && reader.position == 48 && |counts| == 4
    modifies reader
    ensures reader.Valid()
    ensures ok ==> reader.position == FIXED_BYTES && OperatorBytes(operator) == reader.data[48..232] && SolverBytes(solver) == reader.data[232..344]
    ensures ok ==> operator.reserved == 0 && solver.reserved == 0 && solver.operatorId == NoDigest()
    ensures !ok ==> forall r: Request :: !Candidate(reader.data, version, counts, r)
  {
    hide OperatorBytes, SolverBytes, NoDigest, Candidate;
    var operatorRead, p := ReadOperator(reader);
    operator, solver := p, NoRequest().solver;
    ProgramsForced(reader.data, version, counts);
    if !operatorRead {
      return false, operator, solver;
    }
    OperatorForced(reader.data, version, counts, operator);
    var solverRead, q := ReadSolver(reader);
    solver := q;
    if !solverRead {
      return false, operator, solver;
    }
    SolverForced(reader.data, version, counts, solver);
    ok := operator.reserved == 0 && solver.reserved == 0;
  }

  lemma ProgramsForced(data: Bytes, version: U32, counts: seq<U64>)
    requires |counts| == 4
    ensures |data| < FIXED_BYTES ==> forall r: Request :: !Candidate(data, version, counts, r)
  {
    hide Candidate, Fits;
    forall r: Request
      ensures Candidate(data, version, counts, r) ==> |data| >= FIXED_BYTES
    {
      if Candidate(data, version, counts, r) {
        CandidateParts(data, version, counts, r);
      }
    }
  }

  lemma OperatorForced(data: Bytes, version: U32, counts: seq<U64>, operator: OperatorProgram)
    requires |counts| == 4 && 232 <= |data| && OperatorBytes(operator) == data[48..232]
    ensures operator.reserved != 0 ==> forall r: Request :: !Candidate(data, version, counts, r)
  {
    hide Candidate, Fits, OperatorBytes;
    forall r: Request
      ensures Candidate(data, version, counts, r) ==> operator.reserved == 0
    {
      if Candidate(data, version, counts, r) {
        CandidateParts(data, version, counts, r);
        OperatorBytesInjective(operator, r.operator);
      }
    }
  }

  lemma SolverForced(data: Bytes, version: U32, counts: seq<U64>, solver: SolverProgram)
    requires |counts| == 4 && 344 <= |data| && SolverBytes(solver) == data[232..344]
    ensures solver.reserved != 0 ==> forall r: Request :: !Candidate(data, version, counts, r)
  {
    hide Candidate, Fits, SolverBytes;
    forall r: Request
      ensures Candidate(data, version, counts, r) ==> solver.reserved == 0
    {
      if Candidate(data, version, counts, r) {
        CandidateParts(data, version, counts, r);
        SolverBytesInjective(solver, r.solver);
      }
    }
  }

  method ReadRuns(reader: Reader, version: U32, counts: seq<U64>) returns (ok: bool, families: seq<U32>, fields: seq<Field>)
    requires reader.Valid() && reader.position == FIXED_BYTES && |counts| == 4
    modifies reader
    ensures reader.Valid()
    ensures ok ==> reader.position == FIXED_BYTES + 4 * FamilyCount(counts) + 160 * FieldCount(counts) && |families| == FamilyCount(counts) && |fields| == FieldCount(counts)
    ensures ok ==> PutInts(families) == reader.data[FIXED_BYTES..FIXED_BYTES + 4 * FamilyCount(counts)]
    ensures ok ==> FieldsBytes(fields) == reader.data[FIXED_BYTES + 4 * FamilyCount(counts)..reader.position]
    ensures !ok ==> forall r: Request :: !Candidate(reader.data, version, counts, r)
  {
    hide PutInts, FieldsBytes, Candidate;
    RunsForced(reader.data, version, counts);
    families, fields := [], [];
    ok, families := reader.Ints(FamilyCount(counts));
    if ok {
      ok, fields := ReadFields(reader, FieldCount(counts));
    }
  }

  lemma RunsForced(data: Bytes, version: U32, counts: seq<U64>)
    requires |counts| == 4
    ensures |data| < FIXED_BYTES + 4 * FamilyCount(counts) + 160 * FieldCount(counts) ==> forall r: Request :: !Candidate(data, version, counts, r)
  {
    hide Candidate, Fits;
    forall r: Request
      ensures Candidate(data, version, counts, r) ==> |data| >= FIXED_BYTES + 4 * FamilyCount(counts) + 160 * FieldCount(counts)
    {
      if Candidate(data, version, counts, r) {
        CandidateParts(data, version, counts, r);
      }
    }
  }

  lemma NoneFits(data: Bytes, version: U32, counts: seq<U64>, g: nat)
    requires |counts| == 4 && g == FIXED_BYTES + 4 * FamilyCount(counts) + 160 * FieldCount(counts) <= |data|
    requires forall es: seq<Constraint>, rest: Bytes :: !Fits(data[g..], ConstraintCount(counts), version, es, rest)
    ensures forall r: Request :: !Candidate(data, version, counts, r)
  {
    hide Candidate, Fits;
    forall r: Request
      ensures !Candidate(data, version, counts, r)
    {
      if Candidate(data, version, counts, r) {
        CandidateParts(data, version, counts, r);
      }
    }
  }

  /** After the constraints exactly the initial state is left. */
  lemma {:induction false} TailForced(data: Bytes, version: U32, counts: seq<U64>, g: nat, h: nat, cs: seq<Constraint>)
    requires |counts| == 4 && g == FIXED_BYTES + 4 * FamilyCount(counts) + 160 * FieldCount(counts) <= h <= |data|
    requires |cs| == ConstraintCount(counts) && AllPlaced(cs) && ConstraintsBytes(cs) == data[g..h]
    ensures |data| != h + 8 * StateCount(counts) ==> forall r: Request :: !Candidate(data, version, counts, r)
  {
    hide Candidate, ConstraintsBytes, StandingPlaced;
    forall r: Request | Candidate(data, version, counts, r)
      ensures |data| == h + 8 * StateCount(counts)
    {
      TailLength(data, version, counts, r, g, h, cs);
    }
  }

  lemma {:induction false} TailLength(data: Bytes, version: U32, counts: seq<U64>, r: Request, g: nat, h: nat, cs: seq<Constraint>)
    requires |counts| == 4 && g == FIXED_BYTES + 4 * FamilyCount(counts) + 160 * FieldCount(counts) <= h <= |data|
    requires |cs| == ConstraintCount(counts) && AllPlaced(cs) && ConstraintsBytes(cs) == data[g..h]
    requires Candidate(data, version, counts, r)
    ensures |data| == h + 8 * StateCount(counts)
  {
    hide Candidate, ConstraintsBytes, PutLongs, StandingPlaced;
    CandidateParts(data, version, counts, r);
    assert data[g..] == data[g..h] + data[h..];
    ConstraintsPrefix(cs, r.constraints, data[h..], PutLongs(r.initial));
  }

  lemma Assembled(data: Bytes, version: U32, counts: seq<U64>, r: Request, g: nat, h: nat)
    requires |counts| == 4 && FamilyCount(counts) != 0 && FieldCount(counts) != 0 && ConstraintCount(counts) != 0 && StateCount(counts) == FieldCount(counts)
    requires version == VERSION_PLAIN || version == VERSION_STANDING
    requires g == FIXED_BYTES + 4 * FamilyCount(counts) + 160 * FieldCount(counts) <= h && h + 8 * StateCount(counts) == |data|
    requires data[..48] == RequestMagic() + PutInts([version, PACKET_FLAGS]) + PutLongs(counts)
    requires OperatorBytes(r.operator) == data[48..232] && SolverBytes(r.solver) == data[232..344]
    requires r.operator.reserved == 0 && r.solver.reserved == 0 && r.solver.operatorId == NoDigest() && r.boundaries == []
    requires |r.families| == FamilyCount(counts) && PutInts(r.families) == data[344..344 + 4 * FamilyCount(counts)]
    requires |r.fields| == FieldCount(counts) && FieldsBytes(r.fields) == data[344 + 4 * FamilyCount(counts)..g]
    requires |r.constraints| == ConstraintCount(counts) && AllPlaced(r.constraints) && AllAllowed(version, r.constraints) && ConstraintsBytes(r.constraints) == data[g..h]
    requires |r.initial| == StateCount(counts) && PutLongs(r.initial) == data[h..]
    ensures Decodable(version, r) && Packet(version, r) == data
  {
    hide PutInts, PutLongs, RequestMagic, OperatorBytes, SolverBytes, FieldsBytes, ConstraintsBytes, NoDigest, StandingPlaced, Packet;
    assert Counts(r) == counts;
    InOrder(data, version, r, g, h);
  }

  lemma InOrder(data: Bytes, version: U32, r: Request, g: nat, h: nat)
    requires Encodable(r) && 344 + 4 * |r.families| <= g <= h <= |data|
    requires data[..48] == RequestMagic() + PutInts([version, PACKET_FLAGS]) + PutLongs(Counts(r))
    requires OperatorBytes(r.operator) == data[48..232] && SolverBytes(r.solver) == data[232..344]
    requires PutInts(r.families) == data[344..344 + 4 * |r.families|] && FieldsBytes(r.fields) == data[344 + 4 * |r.families|..g]
    requires ConstraintsBytes(r.constraints) == data[g..h] && PutLongs(r.initial) == data[h..]
    ensures Packet(version, r) == data
  {
    hide PutInts, PutLongs, RequestMagic, OperatorBytes, SolverBytes, FieldsBytes, ConstraintsBytes, Counts, Encodable;
    Cut(data, 48, 232, 344, 344 + 4 * |r.families|, g, h);
  }

  lemma Cut(data: Bytes, a: nat, b: nat, c: nat, f: nat, g: nat, h: nat)
    requires a <= b <= c <= f <= g <= h <= |data|
    ensures data == data[..a] + data[a..b] + data[b..c] + data[c..f] + data[f..g] + data[g..h] + data[h..]
  {
  }

  // ----- round trips -----

  /** What of a request is written. */
  ghost function Cleared(r: Request): Request {
    r.(solver := r.solver.(operatorId := NoDigest()), boundaries := [],
       constraints := seq(|r.constraints|, k requires 0 <= k < |r.constraints| =>
         if r.constraints[k].sourceClass == SOURCE_STANDING then r.constraints[k] else r.constraints[k].(standing := NoStanding())))
  }

  lemma {:induction false} ClearedConstraints(cs: seq<Constraint>, ds: seq<Constraint>)
    requires |cs| == |ds| && forall k | 0 <= k < |cs| ::
      ds[k] == if cs[k].sourceClass == SOURCE_STANDING then cs[k] else cs[k].(standing := NoStanding())
    ensures ConstraintsBytes(ds) == ConstraintsBytes(cs)
    decreases |cs|
  {
    hide RowBytes, StandingRow;
    if cs != [] {
      ClearedConstraints(cs[1..], ds[1..]);
      assert ConstraintRow(ds[0]) == ConstraintRow(cs[0]);
    }
  }

  /** The packet of an encodable request decodes exactly when its reserved fields are
      zero, and then to the request without what is not written. */
  lemma EncodedDecodes(r: Request)
    requires Encodable(r)
    ensures Canonical(Packet(PacketVersion(r), r)) <==> r.operator.reserved == 0 && r.solver.reserved == 0
    ensures r.operator.reserved == 0 && r.solver.reserved == 0 ==>
      Decodable(PacketVersion(r), Cleared(r)) && Packet(PacketVersion(r), Cleared(r)) == Packet(PacketVersion(r), r)
  {
    hide Cleared, Packet, PacketVersion, StandingPlaced, HasStanding;
    if r.operator.reserved == 0 && r.solver.reserved == 0 {
      ClearedDecodes(r);
    }
    if version: U32, s: Request :| Decodable(version, s) && Packet(version, s) == Packet(PacketVersion(r), r) {
      ReservedForced(r, version, s);
    }
  }

  lemma ClearedDecodes(r: Request)
    requires Encodable(r) && r.operator.reserved == 0 && r.solver.reserved == 0
    ensures Decodable(PacketVersion(r), Cleared(r)) && Packet(PacketVersion(r), Cleared(r)) == Packet(PacketVersion(r), r)
  {
    hide PutInts, PutLongs, RequestMagic, OperatorBytes, FieldsBytes, ConstraintsBytes, RowBytes;
    var c := Cleared(r);
    ClearedConstraints(r.constraints, c.constraints);
    assert SolverBytes(c.solver) == SolverBytes(r.solver);
    if HasStanding(c.constraints) {
      var k :| 0 <= k < |c.constraints| && c.constraints[k].sourceClass == SOURCE_STANDING;
      assert r.constraints[k].sourceClass == SOURCE_STANDING;
    }
  }

  lemma ReservedForced(r: Request, version: U32, s: Request)
    requires Encodable(r) && Decodable(version, s) && Packet(version, s) == Packet(PacketVersion(r), r)
    ensures r.operator.reserved == 0 && r.solver.reserved == 0
  {
    hide PutInts, PutLongs, RequestMagic, OperatorBytes, SolverBytes, FieldsBytes, ConstraintsBytes, Packet, StandingPlaced, HasStanding;
    var b := Packet(version, s);
    Sections(b, version, s);
    Sections(b, PacketVersion(r), r);
    OperatorBytesInjective(r.operator, s.operator);
    SolverBytesInjective(r.solver, s.solver);
    assert r.solver.reserved == s.solver.(operatorId := NoDigest()).reserved;
  }

  /** What comes back is the request itself exactly when it has no boundaries, no solver
      operator identity, and no standing state beside other constraints: these are not
      written, and nothing tells the caller. */
  lemma ReturnedExactly(r: Request, version: U32, decoded: Request)
    requires Encodable(r) && r.operator.reserved == 0 && r.solver.reserved == 0
    requires Decodable(version, decoded) && Packet(version, decoded) == Packet(PacketVersion(r), r)
    ensures version == PacketVersion(r) && decoded == Cleared(r)
    ensures decoded == r <==> r.boundaries == [] && r.solver.operatorId == NoDigest() && AllPlaced(r.constraints)
  {
    hide Packet, PacketVersion, Decodable;
    ClearedDecodes(r);
    PacketInjective(version, decoded, PacketVersion(r), Cleared(r));
    ClearedIsSame(r);
  }

  lemma ClearedIsSame(r: Request)
    ensures Cleared(r) == r <==> r.boundaries == [] && r.solver.operatorId == NoDigest() && AllPlaced(r.constraints)
  {
    var c := Cleared(r);
    if r.boundaries == [] && r.solver.operatorId == NoDigest() && AllPlaced(r.constraints) {
      assert c.constraints == r.constraints;
    }
    if c == r {
      assert c.solver.operatorId == NoDigest();
      forall k | 0 <= k < |r.constraints|
        ensures StandingPlaced(r.constraints[k])
      {
        assert c.constraints[k] == r.constraints[k];
      }
    }
  }

  /** There is a request that decodes from a version 2 packet and encodes as version 1. */
  lemma PlainInVersionTwo() returns (r: Request)
    ensures Decodable(VERSION_STANDING, r) && PacketVersion(r) == VERSION_PLAIN
    ensures Packet(PacketVersion(r), r) != Packet(VERSION_STANDING, r)
  {
    hide Packet;
    var field := Field(NoDigest(), seq(16, _ => 0), NoDigest(), NoDigest(), NoDigest(), 0, 1, 0);
    var constraint := Constraint(NoDigest(), NoDigest(), NoDigest(), NoDigest(), NoDigest(), NoDigest(), 0, 0, 0, 0, 0, 0, 1, 1, 0, 0, 0, 0, NoStanding());
    r := NoRequest().(families := [1], fields := [field], constraints := [constraint], initial := [0]);
    DecodedEncodes(VERSION_STANDING, r);
  }

  /** A packet has one reading. */
  lemma PacketInjective(version: U32, r: Request, other: U32, s: Request)
    requires Decodable(version, r) && Decodable(other, s) && Packet(version, r) == Packet(other, s)
    ensures version == other && r == s
  {
    hide PutInts, PutLongs, RequestMagic, OperatorBytes, SolverBytes, FieldsBytes, ConstraintsBytes, Packet, StandingPlaced, HasStanding;
    var b := Packet(version, r);
    Sections(b, version, r);
    Sections(b, other, s);
    IntsInjective([version, PACKET_FLAGS], [other, PACKET_FLAGS]);
    assert [version, PACKET_FLAGS][0] == [other, PACKET_FLAGS][0];
    LongsInjective(Counts(r), Counts(s));
    SameCounts(r, s);
    OperatorBytesInjective(r.operator, s.operator);
    SolverBytesInjective(r.solver, s.solver);
    IntsInjective(r.families, s.families);
    FieldsInjective(r.fields, s.fields);
    ConstraintsPrefix(r.constraints, s.constraints, PutLongs(r.initial), PutLongs(s.initial));
    LongsInjective(r.initial, s.initial);
    assert r.solver == s.solver;
  }

  lemma SameCounts(r: Request, s: Request)
    requires Encodable(r) && Encodable(s) && Counts(r) == Counts(s)
    ensures |r.families| == |s.families| && |r.fields| == |s.fields| && |r.constraints| == |s.constraints| && |r.initial| == |s.initial|
  {
    assert Counts(r)[0] == Counts(s)[0] && Counts(r)[1] == Counts(s)[1] && Counts(r)[2] == Counts(s)[2] && Counts(r)[3] == Counts(s)[3];
  }

  /** A decoded packet encodes to the same bytes exactly when its version is the one its
      constraints call for: version 2 is also accepted without a standing constraint. */
  lemma DecodedEncodes(version: U32, r: Request)
    requires Decodable(version, r)
    ensures Packet(PacketVersion(r), r) == Packet(version, r) <==> version == PacketVersion(r)
    ensures version != PacketVersion(r) <==> version == VERSION_STANDING && !HasStanding(r.constraints)
  {
    hide PutInts, PutLongs, RequestMagic, OperatorBytes, SolverBytes, FieldsBytes, ConstraintsBytes, Packet, StandingPlaced;
    if Packet(PacketVersion(r), r) == Packet(version, r) {
      Sections(Packet(version, r), version, r);
      Sections(Packet(version, r), PacketVersion(r), r);
      IntsInjective([version, PACKET_FLAGS], [PacketVersion(r), PACKET_FLAGS]);
      assert [version, PACKET_FLAGS][0] == [PacketVersion(r), PACKET_FLAGS][0];
    }
  }

  /** The fingerprint read at its fixed offset is the one the decoder returns. */
  lemma ContextAtOffset(bytes: Bytes, version: U32, r: Request)
    requires Encodable(r) && Packet(version, r) == bytes
    ensures CONTEXT_OFFSET + 32 <= |bytes| && bytes[CONTEXT_OFFSET..CONTEXT_OFFSET + 32] == r.operator.context
  {
    hide PutInts, PutLongs, RequestMagic, SolverBytes, FieldsBytes, ConstraintsBytes, Packet, OperatorBytes;
    Sections(bytes, version, r);
    ContextInProgram(r.operator);
    Inner(bytes, 48, 232, 64, 96);
  }

  lemma ContextInProgram(p: OperatorProgram)
    ensures OperatorBytes(p)[64..96] == p.context
  {
    hide PutInts, PutLongs;
    var ds := [p.id, p.boundary, p.context, p.evidenceEpoch, p.resultContract];
    var d1 := ds[1..];
    var d2 := d1[1..];
    assert d1[0] == p.boundary && d2[0] == p.context;
    assert PutDigests(ds) == p.id + PutDigests(d1);
    assert PutDigests(d1) == p.boundary + PutDigests(d2);
    assert PutDigests(d2) == p.context + PutDigests(d2[1..]);
    assert PutDigests(ds)[32..] == PutDigests(d1) && PutDigests(d1)[32..] == PutDigests(d2);
    assert PutDigests(ds)[64..96] == p.context;
    assert OperatorBytes(p)[..160] == PutDigests(ds);
    assert OperatorBytes(p)[64..96] == OperatorBytes(p)[..160][64..96];
  }

  method RequestContext(words: seq<U32>) returns (status: Status, context: Digest256)
    ensures status == Ok <==> Canonical(PutInts(words))
    ensures forall version: U32, r: Request :: status == Ok && Decodable(version, r) && Packet(version, r) == PutInts(words) ==> context == r.operator.context
  {
    hide PutInts, Packet, Canonical, Decodable;
    context := NoDigest();
    var buffer := WordsToBytes(words);
    var bytes := buffer[..];
    var version: U32, r: Request;
    status, version, r := DecodeRequest(bytes);
    if status != Ok {
      return;
    }
    DecodableIsCanonical(bytes, version, r);
    ContextAtOffset(bytes, version, r);
    context := bytes[CONTEXT_OFFSET..CONTEXT_OFFSET + 32];
    ContextUnique(bytes, version, r);
  }

  lemma DecodableIsCanonical(bytes: Bytes, version: U32, r: Request)
    requires Decodable(version, r) && Packet(version, r) == bytes
    ensures Canonical(bytes) && Encodable(r)
  {
    hide Packet;
  }

  lemma ContextUnique(bytes: Bytes, version: U32, r: Request)
    requires Decodable(version, r) && Packet(version, r) == bytes
    ensures forall v: U32, s: Request :: Decodable(v, s) && Packet(v, s) == bytes ==> s.operator.context == r.operator.context
  {
    hide Packet;
    forall v: U32, s: Request | Decodable(v, s) && Packet(v, s) == bytes
      ensures s.operator.context == r.operator.context
    {
      PacketInjective(version, r, v, s);
    }
  }
}
