/** Fixed-width little-endian fields: numbers as bytes and back, and records as joined
    fields and back. */
module WireFormat {

  import opened Octets

  const U32_LIMIT: nat := 0x1_0000_0000
  const U64_LIMIT: nat := 0x1_0000_0000_0000_0000

  type U32 = x: int | 0 <= x < 0x1_0000_0000
  type U64 = x: int | 0 <= x < 0x1_0000_0000_0000_0000

  // ----- numbers -----

  /** v in n bytes, least significant first. */
  function Little(v: nat, n: nat): (s: Bytes)
    ensures |s| == n
    decreases n
  {
    if n == 0 then [] else [v % 256] + Little(v / 256, n - 1)
  }

  function Value(s: Bytes): (v: nat)
    decreases |s|
  {
    if s == [] then 0 else s[0] + 256 * Value(s[1..])
  }

  function Power(n: nat): (p: nat)
    ensures p > 0
  {
    if n == 0 then 1 else 256 * Power(n - 1)
  }

  lemma {:induction false} ValueLittle(v: nat, n: nat)
    requires v < Power(n)
    ensures Value(Little(v, n)) == v
    decreases n
  {
    if n > 0 {
      ValueLittle(v / 256, n - 1);
      assert Little(v, n)[1..] == Little(v / 256, n - 1);
    }
  }

  lemma {:induction false} LittleValue(s: Bytes)
    ensures Value(s) < Power(|s|) && Little(Value(s), |s|) == s
    decreases |s|
  {
    if s != [] {
      LittleValue(s[1..]);
      assert Value(s) / 256 == Value(s[1..]) && Value(s) % 256 == s[0];
      assert s == [s[0]] + s[1..];
    }
  }

  lemma Powers()
    ensures Power(4) == U32_LIMIT && Power(8) == U64_LIMIT
  {
    assert Power(1) == 256 && Power(2) == 65536 && Power(3) == 16777216;
    assert Power(5) == 256 * Power(4) && Power(6) == 256 * Power(5) && Power(7) == 256 * Power(6);
  }

  function Put32(v: U32): (s: Bytes)
    ensures |s| == 4
  {
    Little(v, 4)
  }

  function Put64(v: U64): (s: Bytes)
    ensures |s| == 8
  {
    Little(v, 8)
  }

  function Get32(s: Bytes): (v: U32)
    requires |s| == 4
  {
    LittleValue(s);
    Powers();
    Value(s)
  }

  function Get64(s: Bytes): (v: U64)
    requires |s| == 8
  {
    LittleValue(s);
    Powers();
    Value(s)
  }

  lemma PutGet32(v: U32, s: Bytes)
    requires |s| == 4
    ensures Get32(Put32(v)) == v && Put32(Get32(s)) == s
  {
    Powers();
    ValueLittle(v, 4);
    LittleValue(s);
  }

  lemma PutGet64(v: U64, s: Bytes)
    requires |s| == 8
    ensures Get64(Put64(v)) == v && Put64(Get64(s)) == s
  {
    Powers();
    ValueLittle(v, 8);
    LittleValue(s);
  }

  /** The least significant byte comes first. */
  lemma LittleEndian(s: Bytes)
    ensures |s| == 4 ==> Get32(s) == s[0] + 0x100 * (s[1] as nat) + 0x1_0000 * (s[2] as nat) + 0x100_0000 * (s[3] as nat)
    ensures |s| == 8 ==>
      Get64(s) == s[0] + 0x100 * (s[1] as nat) + 0x1_0000 * (s[2] as nat) + 0x100_0000 * (s[3] as nat)
        + 0x1_0000_0000 * (s[4] as nat) + 0x100_0000_0000 * (s[5] as nat) + 0x1_0000_0000_0000 * (s[6] as nat) + 0x100_0000_0000_0000 * (s[7] as nat)
  {
    if |s| == 4 {
      FourBytes(s);
    } else if |s| == 8 {
      FourBytes(s[4..]);
      assert Value(s) == s[0] + 256 * Value(s[1..]);
      assert s[1..][1..] == s[2..] && s[2..][1..] == s[3..] && s[3..][1..] == s[4..];
      assert Value(s[1..]) == s[1] + 256 * Value(s[2..]);
      assert Value(s[2..]) == s[2] + 256 * Value(s[3..]);
      assert Value(s[3..]) == s[3] + 256 * Value(s[4..]);
    }
  }

  lemma FourBytes(s: Bytes)
    requires |s| == 4
    ensures Value(s) == s[0] + 0x100 * (s[1] as nat) + 0x1_0000 * (s[2] as nat) + 0x100_0000 * (s[3] as nat)
  {
    assert s[1..][1..] == s[2..] && s[2..][1..] == s[3..] && s[3..][1..] == [];
    assert Value(s) == s[0] + 256 * Value(s[1..]);
    assert Value(s[1..]) == s[1] + 256 * Value(s[2..]);
    assert Value(s[2..]) == s[2] + 256 * Value(s[3..]);
    assert Value(s[3..]) == s[3] + 256 * Value([]);
  }

  /** The number at a place, least significant byte first. */
  ghost function Int(b: Bytes, at: nat): nat
    requires at + 4 <= |b|
  {
    b[at] + 0x100 * (b[at + 1] as nat) + 0x1_0000 * (b[at + 2] as nat) + 0x100_0000 * (b[at + 3] as nat)
  }

  ghost function Long(b: Bytes, at: nat): nat
    requires at + 8 <= |b|
  {
    Int(b, at) + 0x1_0000_0000 * Int(b, at + 4)
  }

  lemma IntIs(b: Bytes, at: nat, v: U32)
    requires at + 4 <= |b| && b[at..at + 4] == Put32(v)
    ensures Int(b, at) == v
  {
    hide Put32, Get32;
    PutGet32(v, b[at..at + 4]);
    LittleEndian(b[at..at + 4]);
  }

  lemma LongIs(b: Bytes, at: nat, v: U64)
    requires at + 8 <= |b| && b[at..at + 8] == Put64(v)
    ensures Long(b, at) == v
  {
    hide Put64, Get64;
    PutGet64(v, b[at..at + 8]);
    LittleEndian(b[at..at + 8]);
  }

  // ----- joined fields -----

  function Sum(widths: seq<nat>): nat {
    if widths == [] then 0 else widths[0] + Sum(widths[1..])
  }

  function Join(parts: seq<Bytes>): Bytes {
    if parts == [] then [] else parts[0] + Join(parts[1..])
  }

  /** Cuts the bytes into fields of the given widths. */
  function Split(s: Bytes, widths: seq<nat>): (parts: seq<Bytes>)
    requires |s| == Sum(widths)
    ensures |parts| == |widths| && forall i | 0 <= i < |parts| :: |parts[i]| == widths[i]
    decreases |widths|
  {
    if widths == [] then []
    else [s[..widths[0]]] + Split(s[widths[0]..], widths[1..])
  }

  ghost predicate Shaped(parts: seq<Bytes>, widths: seq<nat>) {
    |parts| == |widths| && forall i | 0 <= i < |parts| :: |parts[i]| == widths[i]
  }

  lemma {:induction false} SplitJoin(parts: seq<Bytes>, widths: seq<nat>)
    requires Shaped(parts, widths)
    ensures |Join(parts)| == Sum(widths) && Split(Join(parts), widths) == parts
    decreases |parts|
  {
    if parts != [] {
      SplitJoin(parts[1..], widths[1..]);
      var s := Join(parts);
      assert s[..widths[0]] == parts[0] && s[widths[0]..] == Join(parts[1..]);
      assert parts == [parts[0]] + parts[1..];
    }
  }

  lemma {:induction false} JoinSplit(s: Bytes, widths: seq<nat>)
    requires |s| == Sum(widths)
    ensures Shaped(Split(s, widths), widths) && Join(Split(s, widths)) == s
    decreases |widths|
  {
    if widths != [] {
      JoinSplit(s[widths[0]..], widths[1..]);
      var parts := Split(s, widths);
      assert parts[1..] == Split(s[widths[0]..], widths[1..]);
      assert s == s[..widths[0]] + s[widths[0]..];
    }
  }

  /** Field k starts where the fields before it end. */
  lemma {:induction false} SplitAt(s: Bytes, widths: seq<nat>, k: nat)
    requires |s| == Sum(widths) && k < |widths|
    ensures Sum(widths[..k]) + widths[k] <= |s|
    ensures Split(s, widths)[k] == s[Sum(widths[..k])..Sum(widths[..k]) + widths[k]]
    decreases |widths|
  {
    if k == 0 {
      assert widths[..0] == [];
    } else {
      SplitAt(s[widths[0]..], widths[1..], k - 1);
      assert widths[..k][1..] == widths[1..][..k - 1] && widths[..k][0] == widths[0];
      var at := Sum(widths[1..][..k - 1]);
      assert s[widths[0]..] == s[widths[0]..|s|];
      Inner(s, widths[0], |s|, at, at + widths[k]);
    }
  }

  /** A slice of a slice. */
  lemma Inner(s: Bytes, first: nat, last: nat, low: nat, high: nat)
    requires first <= last <= |s| && low <= high <= last - first
    ensures s[first..last][low..high] == s[first + low..first + high]
  {
    var left, right := s[first..last][low..high], s[first + low..first + high];
    assert |left| == |right|;
    forall i | 0 <= i < |left|
      ensures left[i] == right[i]
    {
    }
  }

  /** Strings with the same chunks of one size are the same. */
  lemma {:induction false} SameChunks(a: Bytes, b: Bytes, n: nat, size: nat)
    requires size > 0 && |a| == |b| == n * size
    requires forall j | 0 <= j < n :: 0 <= size * j && size * j + size <= |b| && a[size * j..size * j + size] == b[size * j..size * j + size]
    ensures a == b
  {
    forall k | 0 <= k < |a|
      ensures a[k] == b[k]
    {
      ChunkHolds(k, n, size);
      InChunk(a, b, size * (k / size), size, k);
    }
  }

  lemma InChunk(a: Bytes, b: Bytes, at: nat, size: nat, k: nat)
    requires at <= k < at + size <= |a| && at + size <= |b| && a[at..at + size] == b[at..at + size]
    ensures a[k] == b[k]
  {
    assert a[at..at + size][k - at] == b[at..at + size][k - at];
  }

  lemma ChunkHolds(k: nat, n: nat, size: nat)
    requires size > 0 && k < n * size
    ensures k / size < n && size * (k / size) <= k < size * (k / size) + size
  {
  }
}
