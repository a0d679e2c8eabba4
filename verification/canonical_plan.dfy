/** Building a maximally shared plan of composition requests: texts, numerals and ordered
    records, each requested once. */
module CanonicalPlan {
  import opened Options
  import opened CanonicalUtf8
  import opened Octets
  import opened Sets

  const ROLE_SHIFT_UNIT: nat := 64
  const ROLE_TAG: nat := 1
  const ROLE_VALUE: nat := 2

  datatype Operand = Operand(index: nat, multiplicity: nat, role: nat, prior: bool)

  datatype Request = Request(first: nat, count: nat, ordinal: nat)

  /** What a request asks for: letters, or results of earlier requests. */
  datatype Content = Letters(scalars: seq<nat>) | Children(indexes: seq<nat>)

  /** What a request stands for. */
  datatype Term = Text(scalars: seq<nat>) | Node(children: seq<Term>)

  // ----- contents and their meaning -----

  ghost predicate Ordered(contents: seq<Content>) {
    forall i | 0 <= i < |contents| :: ContentOk(contents[i], i)
  }

  ghost predicate ContentOk(content: Content, i: nat) {
    match content
    case Letters(scalars) => scalars != [] && Scalars(scalars)
    case Children(indexes) => |indexes| >= 2 && forall k | 0 <= k < |indexes| :: indexes[k] < i
  }

  ghost predicate Distinct(contents: seq<Content>) {
    forall i, j | 0 <= i < j < |contents| :: contents[i] != contents[j]
  }

  ghost function Meaning(contents: seq<Content>, i: nat): Term
    requires Ordered(contents) && i < |contents|
    decreases i
  {
    assert ContentOk(contents[i], i);
    match contents[i]
    case Letters(scalars) => Text(scalars)
    case Children(indexes) => Node(seq(|indexes|, k requires 0 <= k < |indexes| => Meaning(contents, indexes[k])))
  }

  /** The result index stands for the term. */
  ghost predicate Denotes(contents: seq<Content>, i: nat, term: Term) {
    Ordered(contents) && i < |contents| && Meaning(contents, i) == term
  }

  lemma MeaningChild(contents: seq<Content>, i: nat, k: nat)
    requires Ordered(contents) && i < |contents| && contents[i].Children? && k < |contents[i].indexes|
    ensures ContentOk(contents[i], i)
    ensures Meaning(contents, i).Node? && |Meaning(contents, i).children| == |contents[i].indexes|
    ensures Meaning(contents, i).children[k] == Meaning(contents, contents[i].indexes[k])
  {
  }

  /** In a shared plan a term has one index. */
  lemma {:induction false} MeaningInjective(contents: seq<Content>, i: nat, j: nat)
    requires Ordered(contents) && Distinct(contents) && i < |contents| && j < |contents|
    requires Meaning(contents, i) == Meaning(contents, j)
    ensures i == j
    decreases i + j
  {
    assert ContentOk(contents[i], i) && ContentOk(contents[j], j);
    if contents[i].Children? && contents[j].Children? {
      var a, b := contents[i].indexes, contents[j].indexes;
      assert |a| == |Meaning(contents, i).children| == |b|;
      forall k | 0 <= k < |a|
        ensures a[k] == b[k]
      {
        MeaningChild(contents, i, k);
        MeaningChild(contents, j, k);
        MeaningInjective(contents, a[k], b[k]);
      }
      assert a == b;
    }
  }

  /** Later requests do not change earlier meanings. */
  lemma {:induction false} MeaningStays(contents: seq<Content>, longer: seq<Content>, i: nat)
    requires Ordered(contents) && Ordered(longer) && contents <= longer && i < |contents|
    ensures Meaning(longer, i) == Meaning(contents, i)
    decreases i
  {
    assert ContentOk(contents[i], i) && longer[i] == contents[i];
    if contents[i].Children? {
      var indexes := contents[i].indexes;
      forall k | 0 <= k < |indexes|
        ensures Meaning(longer, indexes[k]) == Meaning(contents, indexes[k])
      {
        MeaningStays(contents, longer, indexes[k]);
      }
      assert Meaning(longer, i).children == Meaning(contents, i).children;
    }
  }

  lemma DenotesStays(contents: seq<Content>, longer: seq<Content>, i: nat, term: Term)
    requires Denotes(contents, i, term) && Ordered(longer) && contents <= longer
    ensures Denotes(longer, i, term)
  {
    MeaningStays(contents, longer, i);
  }

  // ----- operands -----

  ghost predicate Indexed(content: Content, atomIndexes: map<nat, nat>) {
    content.Letters? ==> forall k | 0 <= k < |content.scalars| :: content.scalars[k] in atomIndexes
  }

  function LetterOperand(index: nat): Operand {
    Operand(index, 1, 0, false)
  }

  function ChildOperand(index: nat, k: nat): Operand {
    Operand(index, 1, (if k == 0 then ROLE_TAG else ROLE_VALUE) * ROLE_SHIFT_UNIT, true)
  }

  ghost function Size(content: Content): nat {
    match content
    case Letters(scalars) => |scalars|
    case Children(indexes) => |indexes|
  }

  ghost function OperandOf(content: Content, k: nat, atomIndexes: map<nat, nat>): Operand
    requires Indexed(content, atomIndexes) && k < Size(content)
  {
    match content
    case Letters(scalars) => LetterOperand(atomIndexes[scalars[k]])
    case Children(indexes) => ChildOperand(indexes[k], k)
  }

  /** The operands from one place on are those of a content. */
  ghost predicate Spells(operands: seq<Operand>, first: nat, content: Content, atomIndexes: map<nat, nat>) {
    && Indexed(content, atomIndexes) && first + Size(content) <= |operands|
    && forall k | 0 <= k < Size(content) :: operands[first + k] == OperandOf(content, k, atomIndexes)
  }

  ghost predicate AtomsOk(atoms: seq<nat>, atomIndexes: map<nat, nat>) {
    && (forall a | a in atomIndexes :: atomIndexes[a] < |atoms| && atoms[atomIndexes[a]] == a)
    && (forall i | 0 <= i < |atoms| :: atoms[i] in atomIndexes && atomIndexes[atoms[i]] == i)
  }

  /** Operand lists that read the same come from the same content. */
  lemma SpellsInjective(operands: seq<Operand>, first: nat, second: nat, content: Content, other: Content, atoms: seq<nat>, atomIndexes: map<nat, nat>)
    requires AtomsOk(atoms, atomIndexes)
    requires Spells(operands, first, content, atomIndexes) && Spells(operands, second, other, atomIndexes)
    requires Size(content) == Size(other) > 0
    requires operands[first..first + Size(content)] == operands[second..second + Size(content)]
    ensures content == other
  {
    forall k | 0 <= k < Size(content)
      ensures OperandOf(content, k, atomIndexes) == OperandOf(other, k, atomIndexes)
    {
      assert operands[first + k] == operands[first..first + Size(content)][k] == operands[second..second + Size(content)][k] == operands[second + k];
      assert operands[first + k] == OperandOf(content, k, atomIndexes);
      assert operands[second + k] == OperandOf(other, k, atomIndexes);
    }
    assert OperandOf(content, 0, atomIndexes) == OperandOf(other, 0, atomIndexes);
    if content.Letters? {
      forall k | 0 <= k < Size(content)
        ensures content.scalars[k] == other.scalars[k]
      {
        assert OperandOf(content, k, atomIndexes) == OperandOf(other, k, atomIndexes);
      }
      assert content.scalars == other.scalars;
    } else {
      forall k | 0 <= k < Size(content)
        ensures content.indexes[k] == other.indexes[k]
      {
        assert OperandOf(content, k, atomIndexes) == OperandOf(other, k, atomIndexes);
      }
      assert content.indexes == other.indexes;
    }
  }

  ghost function NextFirst(requests: seq<Request>, total: nat, i: nat): nat {
    if i + 1 < |requests| then requests[i + 1].first else total
  }

  /** Requests tile the operands, in order, and spell their contents. */
  ghost predicate Tiled(requests: seq<Request>, operands: seq<Operand>, contents: seq<Content>, atomIndexes: map<nat, nat>) {
    && |requests| == |contents|
    && (forall i | 0 <= i < |requests| :: requests[i].count == Size(contents[i]) && Spells(operands, requests[i].first, contents[i], atomIndexes))
    && (forall i | 0 <= i < |requests| :: requests[i].first + requests[i].count == NextFirst(requests, |operands|, i))
    && (if requests == [] then operands == [] else requests[0].first == 0)
    && (forall i | 0 <= i < |requests| :: requests[i].ordinal == i + 1)
  }

  /** A plan without duplicates, in the terms of its arrays alone. */
  ghost predicate Shared(requests: seq<Request>, operands: seq<Operand>) {
    && (forall i | 0 <= i < |requests| :: requests[i].count > 0 && requests[i].first + requests[i].count == NextFirst(requests, |operands|, i))
    && (if requests == [] then operands == [] else requests[0].first == 0)
    && (forall i, k | 0 <= i < |requests| && requests[i].first <= k < requests[i].first + requests[i].count && k < |operands| :: operands[k].prior ==> operands[k].index < i)
    && (forall i, j | 0 <= i < j < |requests| :: !SameOperands(requests, operands, i, j))
  }

  ghost predicate SameOperands(requests: seq<Request>, operands: seq<Operand>, i: nat, j: nat)
    requires i < |requests| && j < |requests|
  {
    && requests[i].count == requests[j].count
    && requests[i].first + requests[i].count <= |operands| && requests[j].first + requests[j].count <= |operands|
    && operands[requests[i].first..requests[i].first + requests[i].count] == operands[requests[j].first..requests[j].first + requests[j].count]
  }

  lemma TiledApart(requests: seq<Request>, operands: seq<Operand>, contents: seq<Content>, atoms: seq<nat>, atomIndexes: map<nat, nat>, i: nat, j: nat)
    requires AtomsOk(atoms, atomIndexes) && Tiled(requests, operands, contents, atomIndexes) && Ordered(contents) && Distinct(contents)
    requires i < j < |requests|
    ensures !SameOperands(requests, operands, i, j)
  {
    hide AtomsOk, NextFirst;
    assert ContentOk(contents[i], i);
    assert Spells(operands, requests[i].first, contents[i], atomIndexes) && Spells(operands, requests[j].first, contents[j], atomIndexes);
    if SameOperands(requests, operands, i, j) {
      SpellsInjective(operands, requests[i].first, requests[j].first, contents[i], contents[j], atoms, atomIndexes);
    }
  }

  lemma TiledEarlier(requests: seq<Request>, operands: seq<Operand>, contents: seq<Content>, atomIndexes: map<nat, nat>, i: nat, k: nat)
    requires Tiled(requests, operands, contents, atomIndexes) && Ordered(contents)
    requires i < |requests| && requests[i].first <= k < requests[i].first + requests[i].count && k < |operands|
    ensures operands[k].prior ==> operands[k].index < i
  {
    hide NextFirst;
    assert ContentOk(contents[i], i);
    assert Spells(operands, requests[i].first, contents[i], atomIndexes);
    PriorsEarlier(operands, requests[i].first, contents[i], atomIndexes, i, k - requests[i].first);
  }

  lemma TiledIsShared(requests: seq<Request>, operands: seq<Operand>, contents: seq<Content>, atoms: seq<nat>, atomIndexes: map<nat, nat>)
    requires AtomsOk(atoms, atomIndexes) && Tiled(requests, operands, contents, atomIndexes) && Ordered(contents) && Distinct(contents)
    ensures Shared(requests, operands)
  {
    hide AtomsOk, Spells, SameOperands, NextFirst, Distinct;
    forall i | 0 <= i < |requests|
      ensures requests[i].count > 0
    {
      assert ContentOk(contents[i], i);
    }
    forall i, k | 0 <= i < |requests| && requests[i].first <= k < requests[i].first + requests[i].count && k < |operands|
      ensures operands[k].prior ==> operands[k].index < i
    {
      TiledEarlier(requests, operands, contents, atomIndexes, i, k);
    }
    forall i, j | 0 <= i < j < |requests|
      ensures !SameOperands(requests, operands, i, j)
    {
      TiledApart(requests, operands, contents, atoms, atomIndexes, i, j);
    }
  }

  lemma PriorsEarlier(operands: seq<Operand>, first: nat, content: Content, atomIndexes: map<nat, nat>, i: nat, k: nat)
    requires Spells(operands, first, content, atomIndexes) && ContentOk(content, i) && k < Size(content)
    ensures operands[first + k].prior ==> operands[first + k].index < i
  {
    assert operands[first + k] == OperandOf(content, k, atomIndexes);
  }

  // ----- numerals -----

  function Decimal(value: nat): (s: seq<Byte>)
    ensures s != [] && forall i | 0 <= i < |s| :: 48 <= s[i] < 58
  {
    if value < 10 then [48 + value] else Decimal(value / 10) + [48 + value % 10]
  }

  /** The number that digits write. */
  ghost function Numeral(s: seq<Byte>): int {
    if s == [] then 0 else 10 * Numeral(s[..|s| - 1]) + s[|s| - 1] as int - 48
  }

  /** A numeral writes its number, without leading zeros. */
  lemma {:induction false} DecimalReads(value: nat)
    ensures Numeral(Decimal(value)) == value && (|Decimal(value)| > 1 ==> Decimal(value)[0] != 48)
  {
    var s := Decimal(value);
    if value < 10 {
      assert s[..0] == [];
    } else {
      DecimalReads(value / 10);
      assert s[..|s| - 1] == Decimal(value / 10);
      if |Decimal(value / 10)| == 1 {
        assert Numeral([]) == 0 && Decimal(value / 10)[..0] == [];
      }
    }
  }

  lemma {:induction false} DecimalInjective(a: nat, b: nat)
    requires Decimal(a) == Decimal(b)
    ensures a == b
  {
    var s := Decimal(a);
    assert |Decimal(a / 10)| > 0 && |Decimal(b / 10)| > 0;
    assert s[|s| - 1] == 48 + a % 10 && s[|s| - 1] == 48 + b % 10;
    if a < 10 && b < 10 {
    } else if a >= 10 && b >= 10 {
      assert Decimal(a / 10) == s[..|s| - 1] == Decimal(b / 10);
      DecimalInjective(a / 10, b / 10);
    }
  }

  // ----- growing a plan -----

  ghost predicate Submap(a: map<nat, nat>, b: map<nat, nat>) {
    forall k | k in a :: k in b && b[k] == a[k]
  }

  lemma SpellsStays(operands: seq<Operand>, longer: seq<Operand>, first: nat, content: Content, atomIndexes: map<nat, nat>, wider: map<nat, nat>)
    requires Spells(operands, first, content, atomIndexes) && operands <= longer && Submap(atomIndexes, wider)
    ensures Spells(longer, first, content, wider)
  {
    forall k | 0 <= k < Size(content)
      ensures longer[first + k] == OperandOf(content, k, wider)
    {
      assert operands[first + k] == OperandOf(content, k, atomIndexes);
    }
  }

  lemma TiledAppend(requests: seq<Request>, operands: seq<Operand>, contents: seq<Content>, atomIndexes: map<nat, nat>,
                    longer: seq<Operand>, wider: map<nat, nat>, content: Content)
    requires Tiled(requests, operands, contents, atomIndexes) && operands <= longer && Submap(atomIndexes, wider)
    requires Spells(longer, |operands|, content, wider) && |operands| + Size(content) == |longer|
    ensures Tiled(requests + [Request(|operands|, Size(content), |requests| + 1)], longer, contents + [content], wider)
  {
    hide Spells, Submap, Size;
    var after := requests + [Request(|operands|, Size(content), |requests| + 1)];
    forall i | 0 <= i < |after|
      ensures after[i].count == Size((contents + [content])[i]) && Spells(longer, after[i].first, (contents + [content])[i], wider)
    {
      if i < |requests| {
        assert after[i] == requests[i] && Spells(operands, requests[i].first, contents[i], atomIndexes);
        SpellsStays(operands, longer, requests[i].first, contents[i], atomIndexes, wider);
      }
    }
    forall i | 0 <= i < |after|
      ensures after[i].first + after[i].count == NextFirst(after, |longer|, i)
    {
      if i < |requests| {
        assert after[i] == requests[i];
        assert requests[i].first + requests[i].count == NextFirst(requests, |operands|, i);
      }
    }
  }

  // ----- the memos -----

  /** The text memo and the text requests name each other. */
  ghost predicate StringsOk(stringIndexes: map<seq<Byte>, nat>, contents: seq<Content>) {
    && (forall s | s in stringIndexes :: stringIndexes[s] < |contents| && contents[stringIndexes[s]].Letters? && Encodes(s, contents[stringIndexes[s]].scalars))
    && (forall i, s | 0 <= i < |contents| && contents[i].Letters? && Encodes(s, contents[i].scalars) :: s in stringIndexes && stringIndexes[s] == i)
  }

  /** So do the numeral memo and the records that start with the number tag. */
  ghost predicate NumbersOk(numberIndexes: map<nat, nat>, stringIndexes: map<seq<Byte>, nat>, contents: seq<Content>, tag: nat) {
    && (forall v | v in numberIndexes :: NumberAt(numberIndexes[v], v, stringIndexes, contents, tag))
    && (forall i | 0 <= i < |contents| && contents[i].Children? && contents[i].indexes != [] && contents[i].indexes[0] == tag ::
      exists v :: v in numberIndexes && numberIndexes[v] == i)
  }

  ghost predicate NumberAt(i: nat, v: nat, stringIndexes: map<seq<Byte>, nat>, contents: seq<Content>, tag: nat) {
    i < |contents| && Decimal(v) in stringIndexes && contents[i] == Children([tag, stringIndexes[Decimal(v)]])
  }

  lemma OrderedAppend(contents: seq<Content>, content: Content)
    requires Ordered(contents) && ContentOk(content, |contents|)
    ensures Ordered(contents + [content])
  {
    hide ContentOk;
    forall i | 0 <= i < |contents| + 1
      ensures ContentOk((contents + [content])[i], i)
    {
    }
  }

  lemma DistinctAppend(contents: seq<Content>, content: Content)
    requires Distinct(contents) && content !in contents
    ensures Distinct(contents + [content])
  {
  }

  lemma StringsAppendText(stringIndexes: map<seq<Byte>, nat>, contents: seq<Content>, s: seq<Byte>, scalars: seq<nat>)
    requires StringsOk(stringIndexes, contents) && s !in stringIndexes && Encodes(s, scalars)
    ensures StringsOk(stringIndexes[s := |contents|], contents + [Letters(scalars)])
    ensures Letters(scalars) !in contents
  {
    hide Encodes;
    var after, memo := contents + [Letters(scalars)], stringIndexes[s := |contents|];
    forall i, t | 0 <= i < |after| && after[i].Letters? && Encodes(t, after[i].scalars)
      ensures t in memo && memo[t] == i
    {
      if i == |contents| {
        SameInput(s, t, scalars);
      } else {
        assert after[i] == contents[i];
      }
    }
    forall i | 0 <= i < |contents|
      ensures contents[i] != Letters(scalars)
    {
      assert contents[i].Letters? && Encodes(s, contents[i].scalars) ==> s in stringIndexes;
    }
  }

  lemma SameInput(s: seq<Byte>, t: seq<Byte>, scalars: seq<nat>)
    requires Encodes(s, scalars) && Encodes(t, scalars)
    ensures s == t
  {
  }

  lemma StringsAppendNode(stringIndexes: map<seq<Byte>, nat>, contents: seq<Content>, indexes: seq<nat>)
    requires StringsOk(stringIndexes, contents)
    ensures StringsOk(stringIndexes, contents + [Children(indexes)])
  {
    hide Encodes;
    var after := contents + [Children(indexes)];
    forall i, t | 0 <= i < |after| && after[i].Letters? && Encodes(t, after[i].scalars)
      ensures t in stringIndexes && stringIndexes[t] == i
    {
      assert after[i] == contents[i];
    }
  }

  // ----- how much a set of terms takes -----

  ghost function Weight(term: Term): nat {
    match term
    case Text(scalars) => |scalars|
    case Node(children) => |children|
  }

  /** The operands that one request for each of the terms takes. */
  ghost function Weigh(terms: set<Term>): nat {
    if terms == {} then 0
    else
      var t :| t in terms;
      Weight(t) + Weigh(terms - {t})
  }

  lemma {:induction false} WeighRemove(terms: set<Term>, t: Term)
    requires t in terms
    ensures Weigh(terms) == Weight(t) + Weigh(terms - {t})
    decreases |terms|
  {
    var u :| u in terms && Weigh(terms) == Weight(u) + Weigh(terms - {u});
    if u != t {
      WeighRemove(terms - {u}, t);
      WeighRemove(terms - {t}, u);
      assert terms - {u} - {t} == terms - {t} - {u};
    }
  }

  lemma {:induction false} WeighGrows(terms: set<Term>, more: set<Term>)
    requires terms <= more
    ensures Weigh(terms) <= Weigh(more)
    decreases |more|
  {
    if terms != more {
      var t :| t in more && t !in terms;
      WeighRemove(more, t);
      WeighGrows(terms, more - {t});
    }
  }

  ghost function Meanings(contents: seq<Content>): set<Term>
    requires Ordered(contents)
  {
    set i | 0 <= i < |contents| :: Meaning(contents, i)
  }

  ghost function TotalSize(contents: seq<Content>): nat {
    if contents == [] then 0 else TotalSize(contents[..|contents| - 1]) + Size(contents[|contents| - 1])
  }

  lemma {:induction false} MeaningsAppend(contents: seq<Content>, content: Content)
    requires Ordered(contents) && Ordered(contents + [content])
    ensures Meanings(contents + [content]) == Meanings(contents) + {Meaning(contents + [content], |contents|)}
  {
    var after := contents + [content];
    forall i | 0 <= i < |contents|
      ensures Meaning(after, i) == Meaning(contents, i)
    {
      MeaningStays(contents, after, i);
    }
  }

  lemma WeightOfMeaning(contents: seq<Content>, i: nat)
    requires Ordered(contents) && i < |contents|
    ensures Weight(Meaning(contents, i)) == Size(contents[i])
  {
  }

  /** Shared contents stand for as many terms as they are, and take what those weigh. */
  lemma {:induction false} MeaningsCount(contents: seq<Content>)
    requires Ordered(contents) && Distinct(contents)
    ensures |Meanings(contents)| == |contents| && Weigh(Meanings(contents)) == TotalSize(contents)
  {
    if contents != [] {
      var n := |contents| - 1;
      var before, last := contents[..n], contents[n];
      assert before + [last] == contents;
      Shorter(contents, n);
      MeaningsCount(before);
      MeaningsAppend(before, last);
      var t := Meaning(contents, n);
      assert t !in Meanings(before) by {
        if t in Meanings(before) {
          var i :| 0 <= i < n && Meaning(before, i) == t;
          MeaningStays(before, contents, i);
          MeaningInjective(contents, i, n);
        }
      }
      WeighRemove(Meanings(contents), t);
      assert Meanings(contents) - {t} == Meanings(before);
      WeightOfMeaning(contents, n);
    }
  }

  lemma Shorter(contents: seq<Content>, n: nat)
    requires Ordered(contents) && Distinct(contents) && n <= |contents|
    ensures Ordered(contents[..n]) && Distinct(contents[..n])
  {
    forall i | 0 <= i < n
      ensures ContentOk(contents[..n][i], i)
    {
      assert ContentOk(contents[i], i);
    }
  }

  lemma {:induction false} TiledSize(requests: seq<Request>, operands: seq<Operand>, contents: seq<Content>, atomIndexes: map<nat, nat>)
    requires Tiled(requests, operands, contents, atomIndexes)
    ensures |requests| == |contents| && |operands| == TotalSize(contents)
  {
    hide Spells, Size;
    if requests != [] {
      FirstAt(requests, operands, contents, atomIndexes, |requests| - 1);
      assert contents[..|contents|] == contents;
    }
  }

  lemma {:induction false} FirstAt(requests: seq<Request>, operands: seq<Operand>, contents: seq<Content>, atomIndexes: map<nat, nat>, i: nat)
    requires Tiled(requests, operands, contents, atomIndexes) && i < |requests|
    ensures requests[i].first == TotalSize(contents[..i]) && requests[i].first + requests[i].count == TotalSize(contents[..i + 1])
  {
    hide Spells, Size;
    if i > 0 {
      FirstAt(requests, operands, contents, atomIndexes, i - 1);
      assert requests[i - 1].first + requests[i - 1].count == NextFirst(requests, |operands|, i - 1);
    }
    assert contents[..i + 1][..i] == contents[..i];
  }

  ghost function Subterms(term: Term): (terms: set<Term>)
    ensures term in terms
  {
    match term
    case Text(_) => {term}
    case Node(children) => {term} + set k, t | 0 <= k < |children| && t in Subterms(children[k]) :: t
  }

  /** A set of terms with all their parts. */
  ghost predicate Closed(terms: set<Term>) {
    forall children, k | Node(children) in terms && 0 <= k < |children| :: children[k] in terms
  }

  ghost function AllSubterms(roots: set<Term>): set<Term> {
    set root, t | root in roots && t in Subterms(root) :: t
  }

  lemma {:induction false} SubtermInside(term: Term, children: seq<Term>, k: nat)
    requires Node(children) in Subterms(term) && k < |children|
    ensures children[k] in Subterms(term)
    decreases term
  {
    if term == Node(children) {
      assert children[k] in Subterms(children[k]);
    } else {
      var j :| 0 <= j < |term.children| && Node(children) in Subterms(term.children[j]);
      SubtermInside(term.children[j], children, k);
    }
  }

  lemma AllSubtermsClosed(roots: set<Term>)
    ensures Closed(AllSubterms(roots)) && roots <= AllSubterms(roots)
  {
    forall children, k | Node(children) in AllSubterms(roots) && 0 <= k < |children|
      ensures children[k] in AllSubterms(roots)
    {
      var root :| root in roots && Node(children) in Subterms(root);
      SubtermInside(root, children, k);
    }
    forall root | root in roots
      ensures root in AllSubterms(roots)
    {
      assert root in Subterms(root);
    }
  }

  /** What is requested has all its parts requested. */
  lemma {:induction false} SubtermsMeant(contents: seq<Content>, i: nat)
    requires Ordered(contents) && i < |contents|
    ensures Subterms(Meaning(contents, i)) <= Meanings(contents)
    decreases i
  {
    assert ContentOk(contents[i], i);
    var m := Meaning(contents, i);
    forall t | t in Subterms(m)
      ensures t in Meanings(contents)
    {
      if t != m {
        var k :| 0 <= k < |m.children| && t in Subterms(m.children[k]);
        MeaningChild(contents, i, k);
        SubtermsMeant(contents, contents[i].indexes[k]);
      }
    }
  }

  /** A limit does not hold these terms. */
  ghost predicate Exceeds(terms: set<Term>, maximumRequests: nat, maximumOperands: nat) {
    |terms| > maximumRequests || Weigh(terms) > maximumOperands
  }

  /** One term more than what has been built, and no room for it: the terms exceed a
      limit. */
  lemma {:induction false} NoRoom(universe: set<Term>, contents: seq<Content>, t: Term, maximumRequests: nat, maximumOperands: nat)
    requires Ordered(contents) && Distinct(contents) && Meanings(contents) <= universe && t in universe && t !in Meanings(contents)
    requires |contents| >= maximumRequests || TotalSize(contents) + Weight(t) > maximumOperands
    ensures Exceeds(universe, maximumRequests, maximumOperands)
  {
    MeaningsCount(contents);
    var more := Meanings(contents) + {t};
    WeighRemove(more, t);
    assert more - {t} == Meanings(contents);
    WeighGrows(more, universe);
    SubsetSize(more, universe);
  }

  lemma TextLetters(contents: seq<Content>, i: nat)
    requires Ordered(contents) && i < |contents| && Meaning(contents, i).Text?
    ensures contents[i] == Letters(Meaning(contents, i).scalars)
  {
  }

  lemma TextIsNew(strings: map<seq<Byte>, nat>, contents: seq<Content>, value: seq<Byte>, positions: seq<nat>)
    requires Ordered(contents) && StringsOk(strings, contents) && value !in strings && Encodes(value, positions)
    ensures Text(positions) !in Meanings(contents)
  {
    hide Encodes;
    if Text(positions) in Meanings(contents) {
      var i :| 0 <= i < |contents| && Meaning(contents, i) == Text(positions);
      TextLetters(contents, i);
    }
  }

  ghost predicate Within(contents: seq<Content>, children: seq<nat>) {
    forall k | 0 <= k < |children| :: children[k] < |contents|
  }

  /** What a record over these results stands for. */
  ghost function NodeTerm(contents: seq<Content>, children: seq<nat>): Term
    requires Ordered(contents) && Within(contents, children)
  {
    Node(seq(|children|, k requires 0 <= k < |children| => Meaning(contents, children[k])))
  }

  lemma {:induction false} NodeIsNew(contents: seq<Content>, children: seq<nat>)
    requires Ordered(contents) && Distinct(contents) && Within(contents, children) && Children(children) !in contents
    ensures NodeTerm(contents, children) !in Meanings(contents)
  {
    if NodeTerm(contents, children) in Meanings(contents) {
      var i :| 0 <= i < |contents| && Meaning(contents, i) == NodeTerm(contents, children);
      SameChildren(contents, i, children);
    }
  }

  lemma {:induction false} SameChildren(contents: seq<Content>, i: nat, children: seq<nat>)
    requires Ordered(contents) && Distinct(contents) && i < |contents| && Within(contents, children)
    requires Meaning(contents, i) == NodeTerm(contents, children)
    ensures contents[i] == Children(children)
  {
    assert ContentOk(contents[i], i);
    var indexes := contents[i].indexes;
    assert |indexes| == |Meaning(contents, i).children| == |NodeTerm(contents, children).children| == |children|;
    forall k | 0 <= k < |children|
      ensures indexes[k] == children[k]
    {
      MeaningChild(contents, i, k);
      assert NodeTerm(contents, children).children[k] == Meaning(contents, children[k]);
      MeaningInjective(contents, indexes[k], children[k]);
    }
    assert indexes == children;
  }

  lemma {:induction false} NodeMeaning(contents: seq<Content>, children: seq<nat>)
    requires Ordered(contents) && Ordered(contents + [Children(children)]) && Within(contents, children)
    ensures Meaning(contents + [Children(children)], |contents|) == NodeTerm(contents, children)
  {
    var after := contents + [Children(children)];
    forall k | 0 <= k < |children|
      ensures Meaning(after, children[k]) == Meaning(contents, children[k])
    {
      MeaningStays(contents, after, children[k]);
    }
    assert Meaning(after, |contents|).children == NodeTerm(contents, children).children;
  }

  /** The arrays of the plan under construction, and the memos over them. The ghost fields
      are the model's own: what each request says; whether a limit has been hit, after
      which the operands need no longer tile; the terms a caller means to request; and
      whether it has requested anything else. */
  class Builder {
    var atoms: seq<nat>
    var operands: seq<Operand>
    var requests: seq<Request>
    var atomIndexes: map<nat, nat>
    var stringIndexes: map<seq<Byte>, nat>
    var numberIndexes: map<nat, nat>
    const maximumRequests: nat
    const maximumOperands: nat
    ghost const universe: set<Term>
    ghost var contents: seq<Content>
    ghost var broken: bool
    ghost var misused: bool

    ghost predicate Whole()
      reads this
    {
      && Tiled(requests, operands, contents, atomIndexes) && Ordered(contents) && Distinct(contents)
      && StringsOk(stringIndexes, contents)
    }

    ghost predicate Valid()
      reads this
    {
      && AtomsOk(atoms, atomIndexes) && |requests| <= maximumRequests && |operands| <= maximumOperands && (!broken ==> Whole())
      && (!broken && !misused ==> Meanings(contents) <= universe)
      && (broken ==> misused || Exceeds(universe, maximumRequests, maximumOperands))
    }

    constructor (maximumRequests: nat, maximumOperands: nat, ghost universe: set<Term>)
      ensures Valid() && !broken && !misused && this.universe == universe && requests == [] && operands == [] && contents == []
      ensures stringIndexes == map[] && numberIndexes == map[]
      ensures this.maximumRequests == maximumRequests && this.maximumOperands == maximumOperands
    {
      atoms, operands, requests := [], [], [];
      atomIndexes, stringIndexes, numberIndexes := map[], map[], map[];
      this.maximumRequests, this.maximumOperands := maximumRequests, maximumOperands;
      this.universe := universe;
      contents, broken, misused := [], false, false;
    }

    method AtomIndex(position: nat) returns (index: nat)
      requires AtomsOk(atoms, atomIndexes)
      modifies `atoms, `atomIndexes
      ensures AtomsOk(atoms, atomIndexes) && Submap(old(atomIndexes), atomIndexes)
      ensures position in atomIndexes && atomIndexes[position] == index
    {
      if position in atomIndexes {
        return atomIndexes[position];
      }
      index := |atoms|;
      atoms := atoms + [position];
      atomIndexes := atomIndexes[position := index];
    }

    method AddRequest(first: nat, count: nat) returns (r: Option<nat>)
      modifies `requests
      ensures r.None? <==> count == 0 || old(|requests|) >= maximumRequests
      ensures r.None? ==> requests == old(requests)
      ensures r.Some? ==> r.value == old(|requests|) && requests == old(requests) + [Request(first, count, old(|requests|) + 1)]
    {
      if count == 0 || |requests| >= maximumRequests {
        return None;
      }
      var index := |requests|;
      requests := requests + [Request(first, count, index + 1)];
      r := Some(index);
    }

    /** Appends the operands of a text. */
    method PushLetters(positions: seq<nat>)
      requires AtomsOk(atoms, atomIndexes)
      modifies `atoms, `atomIndexes, `operands
      ensures AtomsOk(atoms, atomIndexes) && Submap(old(atomIndexes), atomIndexes) && old(operands) <= operands
      ensures |operands| == old(|operands|) + |positions| && Spells(operands, old(|operands|), Letters(positions), atomIndexes)
    {
      hide AtomsOk;
      ghost var first := |operands|;
      for k := 0 to |positions|
        invariant AtomsOk(atoms, atomIndexes) && Submap(old(atomIndexes), atomIndexes) && old(operands) <= operands
        invariant |operands| == first + k
        invariant forall j | 0 <= j < k :: positions[j] in atomIndexes && operands[first + j] == LetterOperand(atomIndexes[positions[j]])
      {
        var atom := AtomIndex(positions[k]);
        operands := operands + [LetterOperand(atom)];
      }
    }

    /** Something that is no term was asked for. */
    ghost method Misuse()
      requires Valid()
      modifies `broken, `misused
      ensures Valid() && broken && (old(broken) ==> misused == old(misused))
    {
      broken, misused := true, misused || !broken;
    }

    /** The request for a text, made once. */
    method String(value: seq<Byte>) returns (r: Option<nat>)
      requires Valid()
      modifies `atoms, `atomIndexes, `operands, `requests, `stringIndexes, `contents, `broken, `misused
      ensures Valid() && (broken <==> old(broken) || r.None?)
      ensures old(broken) || (Encodes(value, value) && Text(value) in universe) ==> misused == old(misused)
      ensures !broken ==> old(contents) <= contents && value in stringIndexes && stringIndexes[value] == r.value
      ensures !broken ==> (forall s | s in old(stringIndexes) :: s in stringIndexes && stringIndexes[s] == old(stringIndexes)[s])
      ensures !broken ==> forall i | old(|contents|) <= i < |contents| :: contents[i].Letters?
      ensures old(requests) == [] && old(operands) == [] && old(stringIndexes) == map[] && maximumRequests > 0 && |value| <= maximumOperands && Encodes(value, value) ==> r.Some?
    {
      hide Valid, Encodes;
      if value in stringIndexes {
        return Some(stringIndexes[value]);
      }
      var decoded, positions := DecodeUtf8(value);
      if !decoded {
        Misuse();
        return None;
      }
      Alone(value, positions);
      r := NewText(value, positions);
    }

    /** The request for a text that has none yet. */
    method NewText(value: seq<Byte>, positions: seq<nat>) returns (r: Option<nat>)
      requires Valid() && value !in stringIndexes && positions != [] && Encodes(value, positions)
      modifies `atoms, `atomIndexes, `operands, `requests, `stringIndexes, `contents, `broken, `misused
      ensures Valid() && (broken <==> old(broken) || r.None?)
      ensures old(broken) || Text(positions) in universe ==> misused == old(misused)
      ensures !broken ==> contents == old(contents) + [Letters(positions)]
      ensures r.Some? ==> stringIndexes == old(stringIndexes)[value := r.value]
      ensures old(requests) == [] && old(operands) == [] && maximumRequests > 0 && |positions| <= maximumOperands ==> r.Some?
    {
      hide AtomsOk, Encodes, Tiled, StringsOk, Spells, Submap, Ordered, Distinct, Meanings, Exceeds;
      misused := misused || (!broken && Text(positions) !in universe);
      if !broken && !misused {
        TextRoom(stringIndexes, requests, operands, contents, atomIndexes, universe, value, positions, maximumRequests, maximumOperands);
      }
      var first := |operands|;
      if first > maximumOperands || |positions| > maximumOperands - first {
        broken := true;
        return None;
      }
      PushLetters(positions);
      var request := AddRequest(first, |positions|);
      if request.None? {
        broken := true;
        return None;
      }
      if !broken {
        AppendText(old(requests), old(operands), contents, old(atomIndexes), stringIndexes, operands, atomIndexes, value, positions);
        TextAdded(contents, positions);
        contents := contents + [Letters(positions)];
      }
      stringIndexes := stringIndexes[value := request.value];
      r := request;
    }

    /** Appends the operands of a record, as far as they name earlier results. */
    method PushChildren(children: seq<nat>) returns (ok: bool)
      modifies `operands
      ensures ok <==> forall j | 0 <= j < |children| :: children[j] < |requests|
      ensures old(operands) <= operands && |operands| <= old(|operands|) + |children|
      ensures ok ==> |operands| == old(|operands|) + |children|
      ensures ok ==> forall j | 0 <= j < |children| :: operands[old(|operands|) + j] == ChildOperand(children[j], j)
    {
      ghost var first := |operands|;
      for k := 0 to |children|
        invariant old(operands) <= operands && |operands| == first + k
        invariant forall j | 0 <= j < k :: children[j] < |requests| && operands[first + j] == ChildOperand(children[j], j)
      {
        if children[k] >= |requests| {
          return false;
        }
        operands := operands + [ChildOperand(children[k], k)];
      }
      ok := true;
    }

    /** A record over earlier results, always requested anew. */
    method NodeRequest(children: seq<nat>) returns (r: Option<nat>)
      requires Valid()
      requires !broken ==> Children(children) !in contents
      modifies `operands, `requests, `contents, `broken, `misused
      ensures Valid() && (broken <==> old(broken) || r.None?)
      ensures old(broken) || Meant(old(contents), children, universe) ==> misused == old(misused)
      ensures !broken ==> |children| >= 2 && contents == old(contents) + [Children(children)] && r.value == old(|contents|)
      ensures |children| > maximumOperands ==> r.None?
    {
      hide AtomsOk, Tiled, StringsOk, Spells, Ordered, Distinct, Meanings, Exceeds;
      misused := misused || (!broken && !Meant(contents, children, universe));
      if !broken && !misused {
        NodeRoom(requests, operands, contents, atomIndexes, universe, children, maximumRequests, maximumOperands);
      }
      if |children| < 2 {
        broken := true;
        return None;
      }
      var first := |operands|;
      if first > maximumOperands || |children| > maximumOperands - first {
        broken := true;
        return None;
      }
      var pushed := PushChildren(children);
      if !pushed {
        broken := true;
        return None;
      }
      r := AddRequest(first, |children|);
      if r.None? {
        broken := true;
        return;
      }
      if !broken {
        AppendNode(old(requests), old(operands), contents, atomIndexes, stringIndexes, operands, children);
        NodeAdded(contents, children);
        contents := contents + [Children(children)];
      }
    }

    /** A numeral: the number tag over its digits, made once. */
    method Number(value: nat, tag: Option<nat>) returns (r: Option<nat>)
      requires Valid() && (tag.None? ==> broken)
      requires !broken ==> NumbersOk(numberIndexes, stringIndexes, contents, tag.value)
      modifies this
      ensures Valid() && (broken <==> old(broken) || r.None?)
      ensures old(broken) || NumberMeant(old(contents), tag, value, universe) ==> misused == old(misused)
      ensures !broken ==> old(contents) <= contents && NumbersOk(numberIndexes, stringIndexes, contents, tag.value)
      ensures !broken ==> value in numberIndexes && numberIndexes[value] == r.value
      ensures !broken ==> (forall s | s in old(stringIndexes) :: s in stringIndexes && stringIndexes[s] == old(stringIndexes)[s])
      ensures !broken ==> forall i | old(|contents|) <= i < |contents| :: contents[i].Letters? || (contents[i].indexes != [] && contents[i].indexes[0] == tag.value)
    {
      hide AtomsOk, Tiled, StringsOk, Spells, Ordered, Distinct, NumbersOk, Decimal, Encodes;
      if value in numberIndexes {
        return Some(numberIndexes[value]);
      }
      ghost var numbers, strings0, contents0 := numberIndexes, stringIndexes, contents;
      Ascii(Decimal(value));
      var surface := String(Decimal(value));
      if surface.None? || tag.None? {
        broken := true;
        return None;
      }
      var children := [tag.value, surface.value];
      if !broken {
        StringWithin(stringIndexes, contents, Decimal(value));
        NumberFresh(numbers, strings0, contents0, stringIndexes, contents, tag.value, value);
        if NumberMeant(contents0, tag, value, universe) {
          NumberParts(contents0, stringIndexes, contents, tag, value, universe);
        }
      }
      ghost var contents1 := contents;
      r := NodeRequest(children);
      if r.None? {
        return;
      }
      numberIndexes := numberIndexes[value := r.value];
      if !broken {
        NumberAdded(numbers, strings0, contents0, stringIndexes, contents1, tag.value, value);
      }
    }
  }

  /** A record over results that is one of the terms a caller means to request. */
  ghost predicate Meant(contents: seq<Content>, children: seq<nat>, universe: set<Term>) {
    |children| >= 2 && Ordered(contents) && Within(contents, children) && NodeTerm(contents, children) in universe
  }

  ghost predicate NumberMeant(contents: seq<Content>, tag: Option<nat>, value: nat, universe: set<Term>) {
    && Ordered(contents) && tag.Some? && tag.value < |contents|
    && Text(Decimal(value)) in universe && Node([Meaning(contents, tag.value), Text(Decimal(value))]) in universe
  }

  /** The record of a numeral is meant, once its digits have been requested. */
  lemma {:induction false} NumberParts(contents: seq<Content>, strings: map<seq<Byte>, nat>, after: seq<Content>, tag: Option<nat>, value: nat, universe: set<Term>)
    requires NumberMeant(contents, tag, value, universe) && contents <= after && Ordered(after)
    requires StringsOk(strings, after) && Decimal(value) in strings
    ensures Meant(after, [tag.value, strings[Decimal(value)]], universe)
  {
    hide Decimal, Encodes;
    var digits, surface := Decimal(value), strings[Decimal(value)];
    MeaningStays(contents, after, tag.value);
    Ascii(digits);
    TextUnique(digits, digits, after[surface].scalars);
    assert Meaning(after, surface) == Text(digits);
    assert NodeTerm(after, [tag.value, surface]).children == [Meaning(after, tag.value), Text(digits)];
  }

  /** A new text that finds no room shows that the terms exceed a limit. */
  lemma TextRoom(strings: map<seq<Byte>, nat>, requests: seq<Request>, operands: seq<Operand>, contents: seq<Content>, atomIndexes: map<nat, nat>,
                 universe: set<Term>, value: seq<Byte>, positions: seq<nat>, maximumRequests: nat, maximumOperands: nat)
    requires Tiled(requests, operands, contents, atomIndexes) && Ordered(contents) && Distinct(contents) && StringsOk(strings, contents)
    requires Meanings(contents) <= universe && Text(positions) in universe && value !in strings && Encodes(value, positions)
    ensures (|requests| >= maximumRequests || |operands| + |positions| > maximumOperands) ==> Exceeds(universe, maximumRequests, maximumOperands)
  {
    hide Tiled, Ordered, Distinct, StringsOk, Encodes, Meanings, Exceeds;
    TiledSize(requests, operands, contents, atomIndexes);
    TextIsNew(strings, contents, value, positions);
    if |requests| >= maximumRequests || |operands| + |positions| > maximumOperands {
      NoRoom(universe, contents, Text(positions), maximumRequests, maximumOperands);
    }
  }

  /** So does a new record; and the results it names are there. */
  lemma NodeRoom(requests: seq<Request>, operands: seq<Operand>, contents: seq<Content>, atomIndexes: map<nat, nat>,
                 universe: set<Term>, children: seq<nat>, maximumRequests: nat, maximumOperands: nat)
    requires Tiled(requests, operands, contents, atomIndexes) && Ordered(contents) && Distinct(contents)
    requires Meanings(contents) <= universe && Meant(contents, children, universe) && Children(children) !in contents
    ensures (|requests| >= maximumRequests || |operands| + |children| > maximumOperands) ==> Exceeds(universe, maximumRequests, maximumOperands)
    ensures forall k | 0 <= k < |children| :: children[k] < |requests|
  {
    hide Tiled, Ordered, Distinct, Meanings, Exceeds;
    TiledSize(requests, operands, contents, atomIndexes);
    NodeIsNew(contents, children);
    if |requests| >= maximumRequests || |operands| + |children| > maximumOperands {
      NoRoom(universe, contents, NodeTerm(contents, children), maximumRequests, maximumOperands);
    }
  }

  lemma {:induction false} TextAdded(contents: seq<Content>, positions: seq<nat>)
    requires Ordered(contents) && Ordered(contents + [Letters(positions)])
    ensures Meanings(contents + [Letters(positions)]) == Meanings(contents) + {Text(positions)}
  {
    hide Meanings;
    MeaningsAppend(contents, Letters(positions));
  }

  lemma {:induction false} NodeAdded(contents: seq<Content>, children: seq<nat>)
    requires Ordered(contents) && Ordered(contents + [Children(children)])
    ensures Within(contents, children) && Meanings(contents + [Children(children)]) == Meanings(contents) + {NodeTerm(contents, children)}
  {
    hide Meanings;
    assert ContentOk((contents + [Children(children)])[|contents|], |contents|);
    MeaningsAppend(contents, Children(children));
    NodeMeaning(contents, children);
  }

  lemma StringWithin(strings: map<seq<Byte>, nat>, contents: seq<Content>, s: seq<Byte>)
    requires StringsOk(strings, contents) && s in strings
    ensures strings[s] < |contents|
  {
  }

  lemma Alone(value: seq<Byte>, positions: seq<nat>)
    requires Encodes(value, positions)
    ensures Encodes(value, value) ==> positions == value
    ensures positions != []
  {
    if Encodes(value, value) {
      TextUnique(value, value, positions);
    }
  }

  lemma AppendText(requests: seq<Request>, operands: seq<Operand>, contents: seq<Content>, atomIndexes: map<nat, nat>, stringIndexes: map<seq<Byte>, nat>,
                   longer: seq<Operand>, wider: map<nat, nat>, value: seq<Byte>, positions: seq<nat>)
    requires Tiled(requests, operands, contents, atomIndexes) && Ordered(contents) && Distinct(contents) && StringsOk(stringIndexes, contents)
    requires operands <= longer && Submap(atomIndexes, wider) && |longer| == |operands| + |positions|
    requires Spells(longer, |operands|, Letters(positions), wider) && value !in stringIndexes && Encodes(value, positions)
    ensures var after := contents + [Letters(positions)];
      && Tiled(requests + [Request(|operands|, |positions|, |requests| + 1)], longer, after, wider) && Ordered(after) && Distinct(after)
      && StringsOk(stringIndexes[value := |contents|], after) && |requests| == |contents|
  {
    hide Spells, Submap, StringsOk, Ordered, Distinct;
    TiledAppend(requests, operands, contents, atomIndexes, longer, wider, Letters(positions));
    OrderedAppend(contents, Letters(positions));
    StringsAppendText(stringIndexes, contents, value, positions);
    DistinctAppend(contents, Letters(positions));
  }

  lemma AppendNode(requests: seq<Request>, operands: seq<Operand>, contents: seq<Content>, atomIndexes: map<nat, nat>, stringIndexes: map<seq<Byte>, nat>,
                   longer: seq<Operand>, children: seq<nat>)
    requires Tiled(requests, operands, contents, atomIndexes) && Ordered(contents) && Distinct(contents) && StringsOk(stringIndexes, contents)
    requires operands <= longer && |longer| == |operands| + |children| && |children| >= 2
    requires forall j | 0 <= j < |children| :: children[j] < |requests| && longer[|operands| + j] == ChildOperand(children[j], j)
    requires Children(children) !in contents
    ensures var after := contents + [Children(children)];
      && Tiled(requests + [Request(|operands|, |children|, |requests| + 1)], longer, after, atomIndexes) && Ordered(after) && Distinct(after)
      && StringsOk(stringIndexes, after) && |requests| == |contents|
  {
    hide StringsOk, Ordered, Distinct;
    var content := Children(children);
    assert |requests| == |contents|;
    assert Spells(longer, |operands|, content, atomIndexes);
    assert Submap(atomIndexes, atomIndexes);
    TiledAppend(requests, operands, contents, atomIndexes, longer, atomIndexes, content);
    OrderedAppend(contents, content);
    StringsAppendNode(stringIndexes, contents, children);
    DistinctAppend(contents, content);
  }

  ghost predicate StringsGrown(strings: map<seq<Byte>, nat>, after: map<seq<Byte>, nat>) {
    forall s | s in strings :: s in after && after[s] == strings[s]
  }

  /** Numbers stay right when only texts are added. */
  lemma NumbersStay(numbers: map<nat, nat>, strings: map<seq<Byte>, nat>, contents: seq<Content>,
                    moreStrings: map<seq<Byte>, nat>, moreContents: seq<Content>, tag: nat)
    requires NumbersOk(numbers, strings, contents, tag) && StringsGrown(strings, moreStrings) && contents <= moreContents
    requires forall i | |contents| <= i < |moreContents| :: moreContents[i].Children? && moreContents[i].indexes != [] ==> moreContents[i].indexes[0] != tag
    ensures NumbersOk(numbers, moreStrings, moreContents, tag)
  {
    forall i | 0 <= i < |moreContents| && moreContents[i].Children? && moreContents[i].indexes != [] && moreContents[i].indexes[0] == tag
      ensures exists v :: v in numbers && numbers[v] == i
    {
      assert moreContents[i] == contents[i];
    }
    forall v | v in numbers
      ensures NumberAt(numbers[v], v, moreStrings, moreContents, tag)
    {
      assert NumberAt(numbers[v], v, strings, contents, tag);
    }
  }

  /** A numeral not in the memo has not been requested. */
  lemma NumberFresh(numbers: map<nat, nat>, strings: map<seq<Byte>, nat>, contents: seq<Content>,
                    moreStrings: map<seq<Byte>, nat>, moreContents: seq<Content>, tag: nat, value: nat)
    requires NumbersOk(numbers, strings, contents, tag) && StringsGrown(strings, moreStrings) && contents <= moreContents
    requires forall i | |contents| <= i < |moreContents| :: moreContents[i].Letters?
    requires StringsOk(moreStrings, moreContents) && Decimal(value) in moreStrings && value !in numbers
    ensures Children([tag, moreStrings[Decimal(value)]]) !in moreContents
    ensures NumbersOk(numbers, moreStrings, moreContents, tag)
  {
    hide NumbersOk, StringsOk, Decimal;
    NumbersStay(numbers, strings, contents, moreStrings, moreContents, tag);
    var content := Children([tag, moreStrings[Decimal(value)]]);
    if content in moreContents {
      var i :| 0 <= i < |moreContents| && moreContents[i] == content;
      NumberFound(numbers, moreStrings, moreContents, tag, value, i);
    }
  }

  lemma NumberFound(numbers: map<nat, nat>, strings: map<seq<Byte>, nat>, contents: seq<Content>, tag: nat, value: nat, i: nat)
    requires NumbersOk(numbers, strings, contents, tag) && StringsOk(strings, contents) && Decimal(value) in strings
    requires i < |contents| && contents[i] == Children([tag, strings[Decimal(value)]])
    ensures value in numbers
  {
    hide Decimal;
    assert contents[i].indexes[0] == tag;
    var v :| v in numbers && numbers[v] == i;
    assert NumberAt(numbers[v], v, strings, contents, tag);
    var a, b := Decimal(v), Decimal(value);
    assert [tag, strings[a]][1] == [tag, strings[b]][1];
    SameString(strings, contents, a, b);
    DecimalInjective(v, value);
  }

  lemma SameString(strings: map<seq<Byte>, nat>, contents: seq<Content>, a: seq<Byte>, b: seq<Byte>)
    requires StringsOk(strings, contents) && a in strings && b in strings && strings[a] == strings[b]
    ensures a == b
  {
    hide Encodes;
    SameInput(a, b, contents[strings[a]].scalars);
  }

  lemma NumberAdded(numbers: map<nat, nat>, strings: map<seq<Byte>, nat>, contents: seq<Content>,
                    moreStrings: map<seq<Byte>, nat>, moreContents: seq<Content>, tag: nat, value: nat)
    requires NumbersOk(numbers, moreStrings, moreContents, tag) && Decimal(value) in moreStrings && value !in numbers
    ensures NumbersOk(numbers[value := |moreContents|], moreStrings, moreContents + [Children([tag, moreStrings[Decimal(value)]])], tag)
  {
    hide Decimal;
    var after, memo := moreContents + [Children([tag, moreStrings[Decimal(value)]])], numbers[value := |moreContents|];
    forall v | v in memo
      ensures NumberAt(memo[v], v, moreStrings, after, tag)
    {
      if v != value {
        assert NumberAt(numbers[v], v, moreStrings, moreContents, tag);
      }
    }
    forall i | 0 <= i < |after| && after[i].Children? && after[i].indexes != [] && after[i].indexes[0] == tag
      ensures exists v :: v in memo && memo[v] == i
    {
      if i == |moreContents| {
        assert value in memo && memo[value] == i;
      } else {
        assert after[i] == moreContents[i];
        var v :| v in numbers && numbers[v] == i;
        assert v in memo && memo[v] == i;
      }
    }
  }
}
