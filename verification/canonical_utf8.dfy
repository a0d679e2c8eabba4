/** Decoding UTF-8 (sections 3 and 4 of RFC 3629), against the encoding it inverts. */
module CanonicalUtf8 {

  import opened Octets

  /** Unicode scalar values. */
  predicate Scalar(v: nat) {
    v <= 0x10ffff && !(0xd800 <= v <= 0xdfff)
  }

  ghost predicate Scalars(vs: seq<nat>) {
    forall i | 0 <= i < |vs| :: Scalar(vs[i])
  }

  function Encode(v: nat): (s: seq<Byte>)
    requires Scalar(v)
    ensures 1 <= |s| <= 4
  {
    if v < 0x80 then [v]
    else if v < 0x800 then [0xc0 + v / 64, 0x80 + v % 64]
    else if v < 0x10000 then [0xe0 + v / 64 / 64, 0x80 + v / 64 % 64, 0x80 + v % 64]
    else [0xf0 + v / 64 / 64 / 64, 0x80 + v / 64 / 64 % 64, 0x80 + v / 64 % 64, 0x80 + v % 64]
  }

  ghost function EncodeAll(vs: seq<nat>): (s: seq<Byte>)
    requires Scalars(vs)
  {
    if vs == [] then [] else EncodeAll(vs[..|vs| - 1]) + Encode(vs[|vs| - 1])
  }

  /** What a leading byte says: the length, its value bits, the least scalar allowed. */
  datatype Lead = NoLead | Lead(length: nat, initial: nat, minimum: nat)

  ghost function LeadOf(first: Byte): (lead: Lead)
    ensures lead.Lead? ==> 1 <= lead.length <= 4
  {
    if first < 0x80 then Lead(1, first, 0)
    else if 0xc0 <= first < 0xe0 then Lead(2, first - 0xc0, 0x80)
    else if 0xe0 <= first < 0xf0 then Lead(3, first - 0xe0, 0x800)
    else if 0xf0 <= first < 0xf8 then Lead(4, first - 0xf0, 0x10000)
    else NoLead
  }

  ghost predicate Continuations(s: seq<Byte>) {
    forall i | 0 <= i < |s| :: 0x80 <= s[i] < 0xc0
  }

  /** The six value bits of a continuation byte. */
  function Bits(c: Byte): (bits: int) {
    var n: int := c;
    n - 0x80
  }

  ghost function Gather(initial: nat, s: seq<Byte>): nat
    requires Continuations(s)
  {
    if s == [] then initial else Gather(initial, s[..|s| - 1]) * 64 + Bits(s[|s| - 1])
  }

  lemma SplitLast(high: nat, low: nat)
    requires low < 64
    ensures (high * 64 + low) / 64 == high && (high * 64 + low) % 64 == low
  {
  }

  lemma GatherLast(initial: nat, s: seq<Byte>, c: Byte)
    requires Continuations(s) && 0x80 <= c < 0xc0
    ensures Continuations(s + [c])
    ensures var value := Gather(initial, s + [c]);
      value == Gather(initial, s) * 64 + Bits(c) && value / 64 == Gather(initial, s) && value % 64 == Bits(c)
  {
    assert (s + [c])[..|s|] == s;
    SplitLast(Gather(initial, s), Bits(c));
  }

  lemma Gather1(initial: nat, a: Byte)
    requires 0x80 <= a < 0xc0
    ensures Continuations([a])
    ensures var value := Gather(initial, [a]); value / 64 == initial && value % 64 == Bits(a) && value == initial * 64 + Bits(a)
  {
    GatherNothing(initial);
    assert [] + [a] == [a];
    GatherLast(initial, [], a);
  }

  lemma Gather2(initial: nat, a: Byte, b: Byte)
    requires 0x80 <= a < 0xc0 && 0x80 <= b < 0xc0
    ensures Continuations([a, b])
    ensures var value := Gather(initial, [a, b]);
      value / 64 / 64 == initial && value / 64 % 64 == Bits(a) && value % 64 == Bits(b) && value == (initial * 64 + Bits(a)) * 64 + Bits(b)
  {
    hide Gather;
    Gather1(initial, a);
    assert [a] + [b] == [a, b];
    GatherLast(initial, [a], b);
  }

  lemma Gather3(initial: nat, a: Byte, b: Byte, c: Byte)
    requires 0x80 <= a < 0xc0 && 0x80 <= b < 0xc0 && 0x80 <= c < 0xc0
    ensures Continuations([a, b, c])
    ensures var value := Gather(initial, [a, b, c]);
      && value / 64 / 64 / 64 == initial && value / 64 / 64 % 64 == Bits(a) && value / 64 % 64 == Bits(b) && value % 64 == Bits(c)
      && value == ((initial * 64 + Bits(a)) * 64 + Bits(b)) * 64 + Bits(c)
  {
    hide Gather;
    Gather2(initial, a, b);
    assert [a, b] + [c] == [a, b, c];
    GatherLast(initial, [a, b], c);
  }

  /** Bytes that pass the checks are the encoding of the value gathered from them. */
  lemma {:induction false} Recompose(first: Byte, rest: seq<Byte>)
    requires LeadOf(first).Lead? && |rest| + 1 == LeadOf(first).length && Continuations(rest)
    requires var value := Gather(LeadOf(first).initial, rest); Scalar(value) && value >= LeadOf(first).minimum
    ensures Encode(Gather(LeadOf(first).initial, rest)) == [first] + rest
  {
    hide Gather;
    var initial := LeadOf(first).initial;
    if rest == [] {
      GatherNothing(initial);
    } else if |rest| == 1 {
      assert rest == [rest[0]];
      Gather1(initial, rest[0]);
    } else if |rest| == 2 {
      assert rest == [rest[0], rest[1]];
      Gather2(initial, rest[0], rest[1]);
    } else {
      assert rest == [rest[0], rest[1], rest[2]];
      Gather3(initial, rest[0], rest[1], rest[2]);
    }
  }

  /** An encoding passes the checks and gathers to its scalar. */
  lemma Decompose(v: nat)
    requires Scalar(v)
    ensures var s := Encode(v); var lead := LeadOf(s[0]);
      && lead.Lead? && lead.length == |s| && Continuations(s[1..])
      && Gather(lead.initial, s[1..]) == v && v >= lead.minimum
  {
    hide Gather;
    var s := Encode(v);
    var initial := LeadOf(s[0]).initial;
    if |s| == 1 {
      assert s[1..] == [];
      GatherNothing(initial);
    } else if |s| == 2 {
      assert s[1..] == [s[1]];
      Gather1(initial, s[1]);
    } else if |s| == 3 {
      assert s[1..] == [s[1], s[2]];
      Gather2(initial, s[1], s[2]);
    } else {
      assert s[1..] == [s[1], s[2], s[3]];
      Gather3(initial, s[1], s[2], s[3]);
    }
  }

  /** No encoding starts another. */
  lemma PrefixFree(v: nat, w: nat, a: seq<Byte>, b: seq<Byte>)
    requires Scalar(v) && Scalar(w) && Encode(v) + a == Encode(w) + b
    ensures v == w && a == b
  {
    hide Encode, LeadOf, Gather, Continuations;
    Decompose(v);
    Decompose(w);
    var s, t := Encode(v), Encode(w);
    assert s[0] == (s + a)[0] && t[0] == (t + b)[0];
    assert s == (s + a)[..|s|] == (t + b)[..|t|] == t;
    assert a == (s + a)[|s|..] && b == (t + b)[|t|..];
  }

  lemma EncodeLast(vs: seq<nat>, v: nat)
    requires Scalars(vs) && Scalar(v)
    ensures Scalars(vs + [v]) && EncodeAll(vs + [v]) == EncodeAll(vs) + Encode(v)
  {
    hide Encode, Scalar;
    assert (vs + [v])[..|vs|] == vs;
  }

  lemma {:induction false} EncodeJoin(vs: seq<nat>, ws: seq<nat>)
    requires Scalars(vs) && Scalars(ws)
    ensures Scalars(vs + ws) && EncodeAll(vs + ws) == EncodeAll(vs) + EncodeAll(ws)
  {
    hide Encode, Scalar;
    if ws == [] {
      assert vs + ws == vs && EncodeAll(vs) + [] == EncodeAll(vs);
    } else {
      var last := ws[|ws| - 1];
      EncodeJoin(vs, ws[..|ws| - 1]);
      EncodeLast(vs + ws[..|ws| - 1], last);
      EncodeLast(ws[..|ws| - 1], last);
      assert ws == ws[..|ws| - 1] + [last];
      assert vs + ws == vs + ws[..|ws| - 1] + [last];
    }
  }

  lemma EncodeFirst(vs: seq<nat>)
    requires Scalars(vs) && vs != []
    ensures EncodeAll(vs) == Encode(vs[0]) + EncodeAll(vs[1..])
  {
    hide Encode, Scalar, EncodeAll;
    assert vs == [vs[0]] + vs[1..];
    EncodeJoin([vs[0]], vs[1..]);
    EncodeNothing();
    EncodeLast([], vs[0]);
    assert [] + [vs[0]] == [vs[0]] && [] + Encode(vs[0]) == Encode(vs[0]);
  }

  /** If the encoding of one text starts the encoding of another, the one starts the
      other. */
  lemma {:induction false} EncodePrefix(vs: seq<nat>, ws: seq<nat>, rest: seq<Byte>)
    requires Scalars(vs) && Scalars(ws) && EncodeAll(vs) + rest == EncodeAll(ws)
    ensures |vs| <= |ws| && vs == ws[..|vs|] && rest == EncodeAll(ws[|vs|..])
    decreases |vs|
  {
    hide Encode;
    if vs == [] {
      assert ws[0..] == ws;
    } else {
      EncodeFirst(vs);
      if ws != [] {
        EncodeFirst(ws);
        assert Encode(vs[0]) + (EncodeAll(vs[1..]) + rest) == Encode(ws[0]) + EncodeAll(ws[1..]);
        PrefixFree(vs[0], ws[0], EncodeAll(vs[1..]) + rest, EncodeAll(ws[1..]));
        EncodePrefix(vs[1..], ws[1..], rest);
        assert vs == [vs[0]] + vs[1..] && ws[..|vs|] == [ws[0]] + ws[1..][..|vs| - 1];
        assert ws[1..][|vs| - 1..] == ws[|vs|..];
      }
    }
  }

  /** Encoding is injective. */
  lemma EncodeInjective(vs: seq<nat>, ws: seq<nat>)
    requires Scalars(vs) && Scalars(ws) && EncodeAll(vs) == EncodeAll(ws)
    ensures vs == ws
  {
    EncodePrefix(vs, ws, []);
    EncodePrefix(ws, vs, []);
  }

  /** The texts a byte string can be. */
  ghost predicate Encodes(input: seq<Byte>, vs: seq<nat>) {
    vs != [] && Scalars(vs) && EncodeAll(vs) == input
  }

  /** What any text for the input has after the part already decoded. */
  lemma NextScalar(input: seq<Byte>, offset: nat, output: seq<nat>, ws: seq<nat>)
    requires Scalars(output) && offset < |input| && EncodeAll(output) == input[..offset] && Encodes(input, ws)
    ensures |output| < |ws| && Scalar(ws[|output|])
    ensures var s := Encode(ws[|output|]); offset + |s| <= |input| && input[offset..offset + |s|] == s
  {
    hide Encode;
    assert input == input[..offset] + input[offset..];
    EncodePrefix(output, ws, input[offset..]);
    var left := ws[|output|..];
    assert left != [];
    EncodeFirst(left);
    var s := Encode(left[0]);
    assert input[offset..][..|s|] == s;
    assert input[offset..][..|s|] == input[offset..offset + |s|];
  }

  /** A failed check means the input is no text at all. */
  lemma CheckFailed(input: seq<Byte>, offset: nat, output: seq<nat>, ws: seq<nat>)
    requires Scalars(output) && offset < |input| && EncodeAll(output) == input[..offset] && Encodes(input, ws)
    ensures var lead := LeadOf(input[offset]);
      && lead.Lead? && offset + lead.length <= |input|
      && var rest := input[offset + 1..offset + lead.length];
        Continuations(rest) && Scalar(Gather(lead.initial, rest)) && Gather(lead.initial, rest) >= lead.minimum
  {
    hide Encode, LeadOf;
    NextScalar(input, offset, output, ws);
    var v := ws[|output|];
    Decompose(v);
    var s := Encode(v);
    assert input[offset] == s[0] && input[offset + 1..offset + |s|] == s[1..];
  }

  /** One accepted sequence. */
  lemma Accepted(input: seq<Byte>, offset: nat, output: seq<nat>, length: nat, value: nat)
    requires Scalars(output) && offset + length <= |input| && length >= 1 && EncodeAll(output) == input[..offset]
    requires Scalar(value) && Encode(value) == input[offset..offset + length]
    ensures Scalars(output + [value]) && EncodeAll(output + [value]) == input[..offset + length]
  {
    hide Encode;
    assert (output + [value])[..|output|] == output;
    assert input[..offset] + input[offset..offset + length] == input[..offset + length];
  }

  /** Gathers the continuation bytes of one sequence. */
  method Continue(input: seq<Byte>, offset: nat, length: nat, initial: nat) returns (ok: bool, value: nat)
    requires 1 <= length && offset + length <= |input|
    ensures ok <==> Continuations(input[offset + 1..offset + length])
    ensures ok ==> value == Gather(initial, input[offset + 1..offset + length])
  {
    hide Gather;
    value := initial;
    GatherNothing(initial);
    assert input[offset + 1..offset + 1] == [];
    for index := 1 to length
      invariant Continuations(input[offset + 1..offset + index])
      invariant value == Gather(initial, input[offset + 1..offset + index])
    {
      var continuation := input[offset + index];
      if continuation / 64 != 2 {
        assert input[offset + 1..offset + length][index - 1] == continuation;
        return false, value;
      }
      GatherOne(initial, input[offset + 1..offset + index], continuation);
      assert input[offset + 1..offset + index + 1] == input[offset + 1..offset + index] + [continuation];
      value := value * 64 + continuation % 64;
    }
    ok := true;
  }

  /** Decodes into a fresh output: succeeds exactly on nonempty texts, and returns the
      text. */
  method DecodeUtf8(input: seq<Byte>) returns (ok: bool, output: seq<nat>)
    ensures ok ==> Encodes(input, output)
    ensures !ok ==> forall vs :: !Encodes(input, vs)
  {
    hide Encode, Encodes, EncodeAll, Gather, LeadOf, Scalar;
    output := [];
    var offset := 0;
    EncodeNothing();
    while offset < |input|
      invariant 0 <= offset <= |input|
      invariant Scalars(output) && EncodeAll(output) == input[..offset]
      invariant offset > 0 ==> output != []
    {
      var first := input[offset];
      var value: nat, length: nat, minimum: nat;
      if first <= 0x7f {
        value, length, minimum := first, 1, 0;
      } else if first / 32 == 6 {
        value, length, minimum := first % 32, 2, 0x80;
      } else if first / 16 == 14 {
        value, length, minimum := first % 16, 3, 0x800;
      } else if first / 8 == 30 {
        value, length, minimum := first % 8, 4, 0x10000;
      } else {
        LeadIs(first);
        Refused(input, offset, output);
        return false, output;
      }
      LeadIs(first);
      assert LeadOf(first) == Lead(length, value, minimum);
      if offset + length > |input| {
        Refused(input, offset, output);
        return false, output;
      }
      var continued, gathered := Continue(input, offset, length, value);
      if !continued {
        Refused(input, offset, output);
        return false, output;
      }
      value := gathered;
      if value < minimum || value > 0x10ffff || (0xd800 <= value <= 0xdfff) {
        NotScalar(value, minimum);
        Refused(input, offset, output);
        return false, output;
      }
      IsScalar(value);
      Recompose(first, input[offset + 1..offset + length]);
      assert [first] + input[offset + 1..offset + length] == input[offset..offset + length];
      Accepted(input, offset, output, length, value);
      output := output + [value];
      offset := offset + length;
    }
    assert input[..offset] == input;
    ok := output != [];
    Finished(input, output);
  }

  lemma EncodeNothing()
    ensures EncodeAll([]) == []
  {
  }

  lemma GatherNothing(initial: nat)
    ensures Gather(initial, []) == initial
  {
  }

  lemma GatherOne(initial: nat, s: seq<Byte>, c: Byte)
    requires Continuations(s) && c / 64 == 2
    ensures Continuations(s + [c]) && Gather(initial, s + [c]) == Gather(initial, s) * 64 + c % 64
  {
    assert (s + [c])[..|s|] == s;
  }

  lemma LeadIs(first: Byte)
    ensures LeadOf(first) ==
      if first <= 0x7f then Lead(1, first, 0)
      else if first / 32 == 6 then Lead(2, first % 32, 0x80)
      else if first / 16 == 14 then Lead(3, first % 16, 0x800)
      else if first / 8 == 30 then Lead(4, first % 8, 0x10000)
      else NoLead
  {
  }

  lemma IsScalar(value: nat)
    requires value <= 0x10ffff && !(0xd800 <= value <= 0xdfff)
    ensures Scalar(value)
  {
  }

  lemma NotScalar(value: nat, minimum: nat)
    requires value < minimum || value > 0x10ffff || (0xd800 <= value <= 0xdfff)
    ensures value < minimum || !Scalar(value)
  {
  }

  lemma Refused(input: seq<Byte>, offset: nat, output: seq<nat>)
    requires Scalars(output) && offset < |input| && EncodeAll(output) == input[..offset]
    requires var lead := LeadOf(input[offset]);
      lead.NoLead? || offset + lead.length > |input|
      || var rest := input[offset + 1..offset + lead.length];
        !Continuations(rest) || Gather(lead.initial, rest) < lead.minimum || !Scalar(Gather(lead.initial, rest))
    ensures forall vs :: !Encodes(input, vs)
  {
    hide Encodes, EncodeAll, LeadOf, Gather, Continuations, Scalar;
    forall vs
      ensures !Encodes(input, vs)
    {
      if Encodes(input, vs) {
        CheckFailed(input, offset, output, vs);
      }
    }
  }

  lemma Finished(input: seq<Byte>, output: seq<nat>)
    requires Scalars(output) && EncodeAll(output) == input
    ensures output != [] ==> Encodes(input, output)
    ensures output == [] ==> forall vs :: !Encodes(input, vs)
  {
    if output == [] {
      forall vs
        ensures !Encodes(input, vs)
      {
        if Encodes(input, vs) {
          EncodeInjective(output, vs);
        }
      }
    }
  }

  /** One input has at most one text, one text has one input. */
  lemma TextUnique(input: seq<Byte>, vs: seq<nat>, ws: seq<nat>)
    requires Encodes(input, vs) && Encodes(input, ws)
    ensures vs == ws
  {
    EncodeInjective(vs, ws);
  }

  lemma {:induction false} Ascii(s: seq<Byte>)
    requires s != [] && forall i | 0 <= i < |s| :: s[i] < 0x80
    ensures Encodes(s, s)
  {
    if |s| == 1 {
      assert s[..0] == [];
      assert EncodeAll(s[..0]) == [];
    } else {
      Ascii(s[..|s| - 1]);
      assert s == s[..|s| - 1] + [s[|s| - 1]];
    }
  }

  /** The bytes of a scalar: how many, what they gather to, and how they are marked. */
  lemma EncodeMeans(v: nat)
    requires Scalar(v)
    ensures var s := Encode(v);
      && |s| == (if v < 128 then 1 else if v < 2048 then 2 else if v < 65536 then 3 else 4)
      && (|s| == 1 ==> s[0] as int == v)
      && (|s| == 2 ==> 192 <= s[0] < 224 && v == 64 * (s[0] as int - 192) + s[1] as int - 128)
      && (|s| == 3 ==> 224 <= s[0] < 240 && v == 4096 * (s[0] as int - 224) + 64 * (s[1] as int - 128) + s[2] as int - 128)
      && (|s| == 4 ==> 240 <= s[0] < 245 && v == 262144 * (s[0] as int - 240) + 4096 * (s[1] as int - 128) + 64 * (s[2] as int - 128) + s[3] as int - 128)
      && forall i | 0 < i < |s| :: 128 <= s[i] < 192
  {
  }
}
