/** Result packets: written by the service, read by the client. */
module PacketResult {
  import opened Octets
  import opened WireFormat
  import opened PacketRows
  import opened PacketRecords
  import opened PacketRequest

  const HEADER_BYTES: nat := 24
  const RESULT_FIXED_BYTES: nat := 580

  /** LAPCOGR1 */
  function ResultMagic(): (b: Bytes)
    ensures |b| == 8
  {
    [76, 65, 80, 67, 79, 71, 82, 49]
  }

  datatype Result = Result(operator: OperatorReceipt, solver: SolverReceipt, solution: seq<U64>)

  ghost predicate VersionValid(version: U32) {
    version == VERSION_PLAIN || version == VERSION_STANDING
  }

  ghost function ResultHead(version: U32, r: Result): (b: Bytes)
    requires |r.solution| < U64_LIMIT
    ensures |b| == RESULT_FIXED_BYTES
  {
    OperatorReceiptRows(r.operator, OperatorReceiptRow(r.operator));
    SolverReceiptRows(r.solver, SolverReceiptRow(r.solver));
    ResultMagic() + PutInts([version, PACKET_FLAGS]) + PutLongs([|r.solution|]) + RowBytes(OperatorReceiptRow(r.operator)) + RowBytes(SolverReceiptRow(r.solver))
  }

  ghost function ResultPacket(version: U32, r: Result): (b: Bytes)
    requires |r.solution| < U64_LIMIT
    ensures |b| == RESULT_FIXED_BYTES + 8 * |r.solution|
  {
    ResultHead(version, r) + PutLongs(r.solution)
  }

  lemma WholeWords(n: nat)
    ensures (RESULT_FIXED_BYTES + 8 * n) % 4 == 0
  {
    assert RESULT_FIXED_BYTES + 8 * n == 4 * (145 + 2 * n);
  }

  const OPERATOR_RECEIPT_BYTES: nat := 5 * 32 + 7 * 8 + 4 * 4
  const SOLVER_RECEIPT_BYTES: nat := 8 * 32 + 2 * 8 + 4 * 8 + 5 * 4

  /** The size the service announces; always whole words. */
  method ResultSize(solutionCount: nat, version: U32) returns (ok: bool, bytes: nat)
    ensures ok <==> VersionValid(version)
    ensures ok ==> bytes % 4 == 0 && bytes == RESULT_FIXED_BYTES + 8 * solutionCount
  {
    bytes := 0;
    ok := version == VERSION_PLAIN || version == VERSION_STANDING;
    if ok {
      var fixed := HEADER_BYTES + OPERATOR_RECEIPT_BYTES + SOLVER_RECEIPT_BYTES;
      bytes := fixed + solutionCount * 8;
      WholeWords(solutionCount);
    }
  }

  method WriteResult(result: array<Byte>, version: U32, r: Result) returns (status: Status, count: nat)
    requires VersionValid(version) && |r.solution| < U64_LIMIT
    modifies result
    ensures count == |ResultPacket(version, r)|
    ensures status == ResultCapacity <==> result.Length < count
    ensures status == Ok || status == ResultCapacity
    ensures status == Ok ==> result[..count] == ResultPacket(version, r)
  {
    hide RowBytes, PutInts, PutLongs, ResultMagic;
    var sized, required := ResultSize(|r.solution|, version);
    count := required;
    if result.Length < required {
      return ResultCapacity, count;
    }
    OperatorReceiptRows(r.operator, OperatorReceiptRow(r.operator));
    SolverReceiptRows(r.solver, SolverReceiptRow(r.solver));
    var writer := new Writer(result);
    var ok := writer.Put(ResultMagic());
    ok := writer.Ints([version, PACKET_FLAGS]);
    ok := writer.Longs([|r.solution|]);
    ok := writer.PutRow(OperatorReceiptRow(r.operator));
    ok := writer.PutRow(SolverReceiptRow(r.solver));
    ok := writer.Longs(r.solution);
    assert [] + ResultMagic() == ResultMagic();
    assert writer.Written() == ResultPacket(version, r) && writer.position == count;
    status := Ok;
  }

  // ----- reading -----

  ghost predicate Readable(bytes: Bytes, version: U32, r: Result) {
    VersionValid(version) && |r.solution| < U64_LIMIT && ResultPacket(version, r) == bytes
  }

  lemma ResultSections(bytes: Bytes, version: U32, r: Result)
    requires |r.solution| < U64_LIMIT && ResultPacket(version, r) == bytes
    ensures |bytes| == RESULT_FIXED_BYTES + 8 * |r.solution|
    ensures bytes[..8] == ResultMagic() && bytes[8..16] == PutInts([version, PACKET_FLAGS]) && bytes[16..24] == PutLongs([|r.solution|])
    ensures bytes[24..256] == RowBytes(OperatorReceiptRow(r.operator)) && bytes[256..580] == RowBytes(SolverReceiptRow(r.solver))
    ensures bytes[580..] == PutLongs(r.solution)
  {
    hide RowBytes, PutInts, PutLongs, ResultMagic;
    OperatorReceiptRows(r.operator, OperatorReceiptRow(r.operator));
    SolverReceiptRows(r.solver, SolverReceiptRow(r.solver));
  }

  /** A result packet has one reading. */
  lemma ResultInjective(bytes: Bytes, version: U32, r: Result, other: U32, s: Result)
    requires Readable(bytes, version, r) && Readable(bytes, other, s)
    ensures version == other && r == s
  {
    hide RowBytes, PutInts, PutLongs, ResultMagic, ResultPacket;
    ResultSections(bytes, version, r);
    ResultSections(bytes, other, s);
    IntsInjective([version, PACKET_FLAGS], [other, PACKET_FLAGS]);
    assert [version, PACKET_FLAGS][0] == [other, PACKET_FLAGS][0];
    OperatorReceiptRows(r.operator, OperatorReceiptRow(s.operator));
    OperatorReceiptRows(s.operator, OperatorReceiptRow(r.operator));
    SolverReceiptRows(r.solver, SolverReceiptRow(s.solver));
    SolverReceiptRows(s.solver, SolverReceiptRow(r.solver));
    RowInjective(OperatorReceiptRow(r.operator), OperatorReceiptRow(s.operator), 5, 7, 4);
    RowInjective(SolverReceiptRow(r.solver), SolverReceiptRow(s.solver), 8, 6, 5);
    LongsInjective(r.solution, s.solution);
  }

  /** Reads exactly what a service can have written and the caller has room for. */
  method DecodeResult(bytes: Bytes, capacity: nat) returns (ok: bool, version: U32, r: Result)
    ensures ok ==> Readable(bytes, version, r) && |r.solution| <= capacity
    ensures !ok ==> forall v: U32, s: Result :: Readable(bytes, v, s) ==> |s.solution| > capacity
  {
    hide RowBytes, PutInts, PutLongs, ResultMagic, ResultPacket, OperatorReceiptRow, SolverReceiptRow, OperatorReceiptOf, SolverReceiptOf;
    version, r := 0, NoResult();
    var reader := new Reader(bytes);
    Forced(bytes);
    var magicRead, magic := reader.Take(8);
    if !magicRead || magic != ResultMagic() {
      return false, version, r;
    }
    var intsRead, ints := reader.Ints(2);
    if !intsRead {
      return false, version, r;
    }
    version := ints[0];
    ForcedNumbers(bytes, ints);
    if !(version == VERSION_PLAIN || version == VERSION_STANDING) || ints[1] != PACKET_FLAGS {
      return false, version, r;
    }
    assert ints == [version, PACKET_FLAGS];
    var countRead, counts := reader.Longs(1);
    if !countRead {
      return false, version, r;
    }
    ForcedCount(bytes, counts);
    var solutionCount: nat := counts[0];
    assert counts == [solutionCount];
    if solutionCount > capacity {
      return false, version, r;
    }
    var operatorRead, operator := reader.TakeRow(5, 7, 4);
    if !operatorRead {
      return false, version, r;
    }
    var solverRead, solver := reader.TakeRow(8, 6, 5);
    if !solverRead {
      return false, version, r;
    }
    var solutionRead, solution := reader.Longs(solutionCount);
    if !solutionRead || reader.position != |bytes| {
      return false, version, r;
    }
    OperatorReceiptRows(NoResult().operator, operator);
    SolverReceiptRows(NoResult().solver, solver);
    r := Result(OperatorReceiptOf(operator), SolverReceiptOf(solver), solution);
    Whole(bytes, version, r);
    ok := true;
  }

  function NoResult(): Result {
    Result(OperatorReceipt(NoDigest(), NoDigest(), NoDigest(), NoDigest(), NoDigest(), 0, 0, 0, 0, 0, 0, 0, 0, 0, 0, 0),
           SolverReceipt(NoDigest(), NoDigest(), NoDigest(), NoDigest(), NoDigest(), NoDigest(), NoDigest(), NoDigest(), 0, 0, 0, 0, 0, 0, 0, 0, 0, 0, 0), [])
  }

  lemma Forced(bytes: Bytes)
    ensures forall v: U32, s: Result :: Readable(bytes, v, s) ==> |bytes| >= RESULT_FIXED_BYTES && bytes[0..8] == ResultMagic()
  {
    hide ResultPacket, ResultMagic;
    forall v: U32, s: Result | Readable(bytes, v, s)
      ensures |bytes| >= RESULT_FIXED_BYTES && bytes[0..8] == ResultMagic()
    {
      ResultSections(bytes, v, s);
    }
  }

  lemma ForcedNumbers(bytes: Bytes, ints: seq<U32>)
    requires 16 <= |bytes| && |ints| == 2 && PutInts(ints) == bytes[8..16]
    ensures forall v: U32, s: Result :: Readable(bytes, v, s) ==> VersionValid(ints[0]) && ints[1] == PACKET_FLAGS
  {
    hide ResultPacket, PutInts;
    forall v: U32, s: Result | Readable(bytes, v, s)
      ensures VersionValid(ints[0]) && ints[1] == PACKET_FLAGS
    {
      ResultSections(bytes, v, s);
      IntsInjective(ints, [v, PACKET_FLAGS]);
    }
  }

  lemma ForcedCount(bytes: Bytes, counts: seq<U64>)
    requires 24 <= |bytes| && |counts| == 1 && PutLongs(counts) == bytes[16..24]
    ensures forall v: U32, s: Result :: Readable(bytes, v, s) ==> |s.solution| == CountOf(counts) && |bytes| == RESULT_FIXED_BYTES + 8 * CountOf(counts)
  {
    hide ResultPacket, PutLongs;
    forall v: U32, s: Result | Readable(bytes, v, s)
      ensures |s.solution| == CountOf(counts) && |bytes| == RESULT_FIXED_BYTES + 8 * CountOf(counts)
    {
      ResultSections(bytes, v, s);
      LongsInjective(counts, [|s.solution|]);
    }
  }

  function CountOf(counts: seq<U64>): nat
    requires |counts| == 1
  {
    counts[0]
  }

  lemma Whole(bytes: Bytes, version: U32, r: Result)
    requires VersionValid(version) && |r.solution| < U64_LIMIT && |bytes| == RESULT_FIXED_BYTES + 8 * |r.solution|
    requires bytes[0..8] == ResultMagic() && bytes[8..16] == PutInts([version, PACKET_FLAGS]) && bytes[16..24] == PutLongs([|r.solution|])
    requires bytes[24..256] == RowBytes(OperatorReceiptRow(r.operator)) && bytes[256..580] == RowBytes(SolverReceiptRow(r.solver))
    requires bytes[580..|bytes|] == PutLongs(r.solution)
    ensures Readable(bytes, version, r)
  {
    hide RowBytes, PutInts, PutLongs, ResultMagic;
    assert bytes == bytes[0..8] + bytes[8..16] + bytes[16..24] + bytes[24..256] + bytes[256..580] + bytes[580..|bytes|];
  }

  /** What a service wrote is accepted, as what it wrote and as nothing else. */
  lemma ResultRoundTrip(version: U32, r: Result)
    requires |r.solution| < U64_LIMIT
    ensures Readable(ResultPacket(version, r), version, r) <==> VersionValid(version)
    ensures forall v: U32, s: Result :: VersionValid(version) && Readable(ResultPacket(version, r), v, s) ==> v == version && s == r
  {
    hide ResultPacket;
    forall v: U32, s: Result | VersionValid(version) && Readable(ResultPacket(version, r), v, s)
      ensures v == version && s == r
    {
      ResultInjective(ResultPacket(version, r), version, r, v, s);
    }
  }

  method DecodeResultWords(words: seq<U32>, solution: array<U64>) returns (ok: bool, version: U32, r: Result)
    modifies solution
    ensures ok ==> Readable(PutInts(words), version, r) && |r.solution| <= solution.Length && solution[..|r.solution|] == r.solution
    ensures ok ==> solution[|r.solution|..] == old(solution[|r.solution|..])
    ensures !ok ==> solution[..] == old(solution[..])
    ensures !ok ==> forall v: U32, s: Result :: Readable(PutInts(words), v, s) ==> |s.solution| > solution.Length
  {
    hide PutInts, Readable;
    var buffer := WordsToBytes(words);
    ok, version, r := DecodeResult(buffer[..], solution.Length);
    if ok {
      ghost var kept := solution[|r.solution|..];
      forall k | 0 <= k < |r.solution| {
        solution[k] := r.solution[k];
      }
      assert solution[|r.solution|..] == kept;
    }
  }
}
