/** The cursors the packet code reads and writes through, and rows of digests, 64-bit and
    32-bit numbers. A double is its 64-bit pattern. */
module PacketRows {
  import opened Octets
  import opened WireFormat

  function NoDigest(): Digest256 {
    seq(32, _ => 0)
  }

  // ----- runs of numbers and digests -----

  function PutInts(xs: seq<U32>): (b: Bytes)
    ensures |b| == 4 * |xs|
  {
    if xs == [] then [] else Put32(xs[0]) + PutInts(xs[1..])
  }

  function PutLongs(xs: seq<U64>): (b: Bytes)
    ensures |b| == 8 * |xs|
  {
    if xs == [] then [] else Put64(xs[0]) + PutLongs(xs[1..])
  }

  function PutDigests(xs: seq<Digest256>): (b: Bytes)
    ensures |b| == 32 * |xs|
  {
    if xs == [] then [] else xs[0] + PutDigests(xs[1..])
  }

  lemma {:induction false} IntsAppend(xs: seq<U32>, x: U32)
    ensures PutInts(xs + [x]) == PutInts(xs) + Put32(x)
    decreases |xs|
  {
    hide Put32;
    if xs == [] {
      assert [] + [x] == [x] && [x][1..] == [];
    } else {
      IntsAppend(xs[1..], x);
      assert (xs + [x])[1..] == xs[1..] + [x];
    }
  }

  lemma {:induction false} LongsAppend(xs: seq<U64>, x: U64)
    ensures PutLongs(xs + [x]) == PutLongs(xs) + Put64(x)
    decreases |xs|
  {
    hide Put64;
    if xs == [] {
      assert [] + [x] == [x] && [x][1..] == [];
    } else {
      LongsAppend(xs[1..], x);
      assert (xs + [x])[1..] == xs[1..] + [x];
    }
  }

  lemma {:induction false} DigestsAppend(xs: seq<Digest256>, x: Digest256)
    ensures PutDigests(xs + [x]) == PutDigests(xs) + x
    decreases |xs|
  {
    if xs == [] {
      assert [] + [x] == [x] && [x][1..] == [];
    } else {
      DigestsAppend(xs[1..], x);
      assert (xs + [x])[1..] == xs[1..] + [x];
    }
  }

  lemma {:induction false} IntsInjective(xs: seq<U32>, ys: seq<U32>)
    requires PutInts(xs) == PutInts(ys)
    ensures xs == ys
    decreases |xs|
  {
    hide Put32, Get32;
    if xs != [] {
      var b := PutInts(xs);
      assert b[..4] == Put32(xs[0]) == Put32(ys[0]) && b[4..] == PutInts(xs[1..]) == PutInts(ys[1..]);
      PutGet32(xs[0], b[..4]);
      PutGet32(ys[0], b[..4]);
      IntsInjective(xs[1..], ys[1..]);
      assert xs == [xs[0]] + xs[1..] && ys == [ys[0]] + ys[1..];
    }
  }

  lemma {:induction false} LongsInjective(xs: seq<U64>, ys: seq<U64>)
    requires PutLongs(xs) == PutLongs(ys)
    ensures xs == ys
    decreases |xs|
  {
    hide Put64, Get64;
    if xs != [] {
      var b := PutLongs(xs);
      assert b[..8] == Put64(xs[0]) == Put64(ys[0]) && b[8..] == PutLongs(xs[1..]) == PutLongs(ys[1..]);
      PutGet64(xs[0], b[..8]);
      PutGet64(ys[0], b[..8]);
      LongsInjective(xs[1..], ys[1..]);
      assert xs == [xs[0]] + xs[1..] && ys == [ys[0]] + ys[1..];
    }
  }

  lemma {:induction false} DigestsInjective(xs: seq<Digest256>, ys: seq<Digest256>)
    requires PutDigests(xs) == PutDigests(ys)
    ensures xs == ys
    decreases |xs|
  {
    if xs != [] {
      var b := PutDigests(xs);
      assert b[..32] == xs[0] == ys[0] && b[32..] == PutDigests(xs[1..]) == PutDigests(ys[1..]);
      DigestsInjective(xs[1..], ys[1..]);
      assert xs == [xs[0]] + xs[1..] && ys == [ys[0]] + ys[1..];
    }
  }

  // ----- rows -----

  /** Digests, then 64-bit numbers, then 32-bit numbers. */
  datatype Row = Row(digests: seq<Digest256>, longs: seq<U64>, ints: seq<U32>)

  ghost predicate RowShape(row: Row, d: nat, l: nat, i: nat) {
    |row.digests| == d && |row.longs| == l && |row.ints| == i
  }

  function RowBytes(row: Row): (b: Bytes)
    ensures |b| == 32 * |row.digests| + 8 * |row.longs| + 4 * |row.ints|
  {
    PutDigests(row.digests) + PutLongs(row.longs) + PutInts(row.ints)
  }

  /** A row can be read back, given its shape. */
  lemma RowInjective(row: Row, other: Row, d: nat, l: nat, i: nat)
    requires RowShape(row, d, l, i) && RowShape(other, d, l, i) && RowBytes(row) == RowBytes(other)
    ensures row == other
  {
    hide PutDigests, PutLongs, PutInts;
    var b := RowBytes(row);
    assert b[..32 * d] == PutDigests(row.digests) == PutDigests(other.digests);
    assert b[32 * d..32 * d + 8 * l] == PutLongs(row.longs) == PutLongs(other.longs);
    assert b[32 * d + 8 * l..] == PutInts(row.ints) == PutInts(other.ints);
    DigestsInjective(row.digests, other.digests);
    LongsInjective(row.longs, other.longs);
    IntsInjective(row.ints, other.ints);
  }

  // ----- cursors -----

  class Writer {
    const data: array<Byte>
    var position: nat

    ghost predicate Valid()
      reads this
    {
      position <= data.Length
    }

    ghost function Written(): Bytes
      requires Valid()
      reads this, data
    {
      data[..position]
    }

    constructor (data: array<Byte>)
      ensures Valid() && this.data == data && Written() == []
    {
      this.data := data;
      position := 0;
    }

    method Put(input: Bytes) returns (ok: bool)
      requires Valid()
      modifies `position, data
      ensures Valid() && (ok <==> old(position) + |input| <= data.Length)
      ensures Written() == if ok then old(Written()) + input else old(Written())
    {
      if |input| > data.Length - position {
        return false;
      }
      ghost var before := data[..position];
      forall k | 0 <= k < |input| {
        data[position + k] := input[k];
      }
      assert data[..position] == before && data[position..position + |input|] == input;
      position := position + |input|;
      assert data[..position] == before + input;
      ok := true;
    }

    method Ints(xs: seq<U32>) returns (ok: bool)
      requires Valid()
      modifies `position, data
      ensures Valid() && (ok <==> old(position) + 4 * |xs| <= data.Length)
      ensures ok ==> Written() == old(Written()) + PutInts(xs)
    {
      hide PutInts, Put32;
      NoNumbers();
      ghost var before := Written();
      for k := 0 to |xs|
        invariant Valid() && position == old(position) + 4 * k && Written() == before + PutInts(xs[..k])
      {
        var put := Put(Put32(xs[k]));
        if !put {
          return false;
        }
        IntsAppend(xs[..k], xs[k]);
        assert xs[..k + 1] == xs[..k] + [xs[k]];
        assert before + PutInts(xs[..k]) + Put32(xs[k]) == before + (PutInts(xs[..k]) + Put32(xs[k]));
      }
      assert xs[..|xs|] == xs;
      ok := true;
    }

    method Longs(xs: seq<U64>) returns (ok: bool)
      requires Valid()
      modifies `position, data
      ensures Valid() && (ok <==> old(position) + 8 * |xs| <= data.Length)
      ensures ok ==> Written() == old(Written()) + PutLongs(xs)
    {
      hide PutLongs, Put64;
      NoNumbers();
      ghost var before := Written();
      for k := 0 to |xs|
        invariant Valid() && position == old(position) + 8 * k && Written() == before + PutLongs(xs[..k])
      {
        var put := Put(Put64(xs[k]));
        if !put {
          return false;
        }
        LongsAppend(xs[..k], xs[k]);
        assert xs[..k + 1] == xs[..k] + [xs[k]];
        assert before + PutLongs(xs[..k]) + Put64(xs[k]) == before + (PutLongs(xs[..k]) + Put64(xs[k]));
      }
      assert xs[..|xs|] == xs;
      ok := true;
    }

    method Digests(xs: seq<Digest256>) returns (ok: bool)
      requires Valid()
      modifies `position, data
      ensures Valid() && (ok <==> old(position) + 32 * |xs| <= data.Length)
      ensures ok ==> Written() == old(Written()) + PutDigests(xs)
    {
      hide PutDigests;
      NoNumbers();
      ghost var before := Written();
      for k := 0 to |xs|
        invariant Valid() && position == old(position) + 32 * k && Written() == before + PutDigests(xs[..k])
      {
        var put := Put(xs[k]);
        if !put {
          return false;
        }
        DigestsAppend(xs[..k], xs[k]);
        assert xs[..k + 1] == xs[..k] + [xs[k]];
        assert before + PutDigests(xs[..k]) + xs[k] == before + (PutDigests(xs[..k]) + xs[k]);
      }
      assert xs[..|xs|] == xs;
      ok := true;
    }

    method PutRow(row: Row) returns (ok: bool)
      requires Valid()
      modifies `position, data
      ensures Valid() && (ok <==> old(position) + |RowBytes(row)| <= data.Length)
      ensures ok ==> Written() == old(Written()) + RowBytes(row)
    {
      hide PutDigests, PutLongs, PutInts;
      ok := Digests(row.digests);
      if ok {
        ok := Longs(row.longs);
      }
      if ok {
        ok := Ints(row.ints);
      }
    }
  }

  lemma NoNumbers()
    ensures PutInts([]) == [] && PutLongs([]) == [] && PutDigests([]) == []
  {
  }

  class Reader {
    const data: Bytes
    var position: nat

    ghost predicate Valid()
      reads this
    {
      position <= |data|
    }

    constructor (data: Bytes)
      ensures Valid() && this.data == data && position == 0
    {
      this.data := data;
      position := 0;
    }

    method Take(count: nat) returns (ok: bool, output: Bytes)
      requires Valid()
      modifies this
      ensures Valid() && (ok <==> old(position) + count <= |data|)
      ensures ok ==> position == old(position) + count && output == data[old(position)..position] && |output| == count
      ensures !ok ==> position == old(position)
    {
      output := [];
      if count > |data| - position {
        return false, output;
      }
      output := data[position..position + count];
      position := position + count;
      ok := true;
    }

    method Ints(n: nat) returns (ok: bool, xs: seq<U32>)
      requires Valid()
      modifies this
      ensures Valid() && (ok <==> old(position) + 4 * n <= |data|)
      ensures ok ==> position == old(position) + 4 * n && |xs| == n && PutInts(xs) == data[old(position)..position]
    {
      hide PutInts, Put32, Get32;
      NoNumbers();
      xs := [];
      for k := 0 to n
        invariant Valid() && position == old(position) + 4 * k && |xs| == k && PutInts(xs) == data[old(position)..position]
      {
        var taken, bytes := Take(4);
        if !taken {
          return false, xs;
        }
        PutGet32(0, bytes);
        IntsAppend(xs, Get32(bytes));
        xs := xs + [Get32(bytes)];
        assert data[old(position)..position] == data[old(position)..position - 4] + data[position - 4..position];
      }
      ok := true;
    }

    method Longs(n: nat) returns (ok: bool, xs: seq<U64>)
      requires Valid()
      modifies this
      ensures Valid() && (ok <==> old(position) + 8 * n <= |data|)
      ensures ok ==> position == old(position) + 8 * n && |xs| == n && PutLongs(xs) == data[old(position)..position]
    {
      hide PutLongs, Put64, Get64;
      NoNumbers();
      xs := [];
      for k := 0 to n
        invariant Valid() && position == old(position) + 8 * k && |xs| == k && PutLongs(xs) == data[old(position)..position]
      {
        var taken, bytes := Take(8);
        if !taken {
          return false, xs;
        }
        PutGet64(0, bytes);
        LongsAppend(xs, Get64(bytes));
        xs := xs + [Get64(bytes)];
        assert data[old(position)..position] == data[old(position)..position - 8] + data[position - 8..position];
      }
      ok := true;
    }

    method Digests(n: nat) returns (ok: bool, xs: seq<Digest256>)
      requires Valid()
      modifies this
      ensures Valid() && (ok <==> old(position) + 32 * n <= |data|)
      ensures ok ==> position == old(position) + 32 * n && |xs| == n && PutDigests(xs) == data[old(position)..position]
    {
      hide PutDigests;
      NoNumbers();
      xs := [];
      for k := 0 to n
        invariant Valid() && position == old(position) + 32 * k && |xs| == k && PutDigests(xs) == data[old(position)..position]
      {
        var taken, bytes := Take(32);
        if !taken {
          return false, xs;
        }
        DigestsAppend(xs, bytes);
        xs := xs + [bytes];
        assert data[old(position)..position] == data[old(position)..position - 32] + data[position - 32..position];
      }
      ok := true;
    }

    /** A row of a known shape: read exactly when enough bytes are left. */
    method TakeRow(d: nat, l: nat, i: nat) returns (ok: bool, row: Row)
      requires Valid()
      modifies this
      ensures Valid() && (ok <==> old(position) + 32 * d + 8 * l + 4 * i <= |data|)
      ensures ok ==> position == old(position) + 32 * d + 8 * l + 4 * i && RowShape(row, d, l, i) && RowBytes(row) == data[old(position)..position]
    {
      hide PutDigests, PutLongs, PutInts;
      row := Row([], [], []);
      var digestsRead, digests := Digests(d);
      if !digestsRead {
        return false, row;
      }
      var longsRead, longs := Longs(l);
      if !longsRead {
        return false, row;
      }
      var intsRead, ints := Ints(i);
      if !intsRead {
        return false, row;
      }
      row := Row(digests, longs, ints);
      var p, q, r := old(position), old(position) + 32 * d, old(position) + 32 * d + 8 * l;
      assert data[p..position] == data[p..q] + data[q..r] + data[r..position];
      ok := true;
    }
  }
}
