/** The indexed join engine: a greedy factor order, a row index sorted on the bound
    slots, two binary searches per state, and budgets that may stop the run.  It is
    proved against the nested loop of InterpretationJoin. */
module InterpretationEngine {
  import opened Sets
  import opened Options
  import opened InterpretationJoin
  import opened InterpretationBudget

  const VERSION: nat := 1
  const UINT32_MAX: nat := 0xFFFF_FFFF

  datatype Program = Program(
    observationRoot: Id, occurrence: Digest, world: Digest, time: Digest, context: Digest,
    evidenceEpoch: Digest, boundary: Digest, authority: Digest, slotIds: seq<Digest>,
    maximumComparisons: nat, maximumStates: nat, maximumMemoryBytes: nat, version: nat, reserved: nat)

  datatype Status = Ok | InvalidArgument | Exhausted | Range | NotUnique

  datatype Receipt = Receipt(
    comparisons: nat, rejectedPairs: nat, generatedStates: nat, peakFrontierStates: nat,
    derivationCount: nat, completedFactorCount: nat, disposition: Disposition)

  datatype Interpretation = Interpretation(slotIds: seq<Digest>, derivations: seq<State>, receipt: Receipt)

  predicate ValidFactor(factor: Factor, slotCount: nat) {
    && factor.id != 0 && factor.law != 0
    && 0 < |factor.slots| <= slotCount
    && (forall s | 0 <= s < |factor.slots| :: factor.slots[s] < slotCount)
    && (forall s | 0 < s < |factor.slots| :: factor.slots[s - 1] < factor.slots[s])
    && (forall r | 0 <= r < |factor.rows| ::
          && factor.rows[r].observation != 0
          && (factor.rows[r].evidenceRoot != 0 || factor.rows[r].calculationReceipt != 0))
  }

  predicate ValidInput(program: Program, factors: seq<Factor>) {
    && program.version == VERSION && program.reserved == 0
    && 0 < |program.slotIds| <= UINT32_MAX && 0 < |factors|
    && program.maximumComparisons != 0 && program.maximumStates != 0 && program.maximumMemoryBytes != 0
    && program.occurrence != 0 && program.world != 0 && program.time != 0 && program.context != 0
    && program.authority != 0 && program.evidenceEpoch != 0 && program.boundary != 0
    && (forall i | 0 <= i < |program.slotIds| :: program.slotIds[i] != 0)
    && (forall i | 0 < i < |program.slotIds| :: program.slotIds[i - 1] < program.slotIds[i])
    && (forall f | 0 <= f < |factors| :: ValidFactor(factors[f], |program.slotIds|))
    && (forall f | 0 < f < |factors| :: factors[f - 1].id < factors[f].id)
  }

  /** A row points at one value per slot of its factor; the caller's memory layout
      promises this and no check can see it. */
  ghost predicate RowsComplete(factors: seq<Factor>) {
    forall f, r | 0 <= f < |factors| && 0 <= r < |factors[f].rows| :: |factors[f].rows[r].values| == |factors[f].slots|
  }

  lemma {:induction false} StepwiseIncreasing(s: seq<nat>, i: nat, j: nat)
    requires forall k | 0 < k < |s| :: s[k - 1] < s[k]
    requires i < j < |s|
    ensures s[i] < s[j]
    decreases j
  {
    if i < j - 1 {
      StepwiseIncreasing(s, i, j - 1);
    }
    assert s[j - 1] < s[j];
  }

  lemma ValidIsShaped(program: Program, factors: seq<Factor>)
    requires ValidInput(program, factors) && RowsComplete(factors)
    ensures Shaped(factors, |program.slotIds|)
  {
    forall f | 0 <= f < |factors|
      ensures ShapedFactor(factors[f], |program.slotIds|)
    {
      var slots := factors[f].slots;
      assert ValidFactor(factors[f], |program.slotIds|);
      forall s, t | 0 <= s < t < |slots|
        ensures slots[s] < slots[t]
      {
        StepwiseIncreasing(slots, s, t);
      }
    }
  }

  // ----- keys on the bound slots -----

  ghost function KeyOrder(a: seq<Id>, b: seq<Id>): int
    requires |a| == |b|
  {
    if a == [] then 0
    else if a[0] < b[0] then -1
    else if a[0] > b[0] then 1
    else KeyOrder(a[1..], b[1..])
  }

  lemma {:induction false} KeyOrderLaws(a: seq<Id>, b: seq<Id>)
    requires |a| == |b|
    ensures KeyOrder(a, b) == 0 <==> a == b
    ensures KeyOrder(a, b) == -KeyOrder(b, a)
  {
    if a != [] {
      KeyOrderLaws(a[1..], b[1..]);
      assert a == [a[0]] + a[1..] && b == [b[0]] + b[1..];
    }
  }

  lemma {:induction false} KeyOrderTransitive(a: seq<Id>, b: seq<Id>, c: seq<Id>)
    requires |a| == |b| == |c|
    requires KeyOrder(a, b) <= 0 && KeyOrder(b, c) <= 0
    ensures KeyOrder(a, c) <= 0
    ensures KeyOrder(a, b) < 0 || KeyOrder(b, c) < 0 ==> KeyOrder(a, c) < 0
  {
    if a != [] && a[0] == b[0] == c[0] {
      KeyOrderTransitive(a[1..], b[1..], c[1..]);
    }
  }

  function RowKey(factor: Factor, shared: seq<nat>, r: nat): (key: seq<Id>)
    requires r < |factor.rows| && forall i | 0 <= i < |shared| :: shared[i] < |factor.rows[r].values|
  {
    seq(|shared|, i requires 0 <= i < |shared| => factor.rows[r].values[shared[i]])
  }

  function StateKey(factor: Factor, shared: seq<nat>, values: seq<Id>): (key: seq<Id>)
    requires forall i | 0 <= i < |shared| :: shared[i] < |factor.slots| && factor.slots[shared[i]] < |values|
  {
    seq(|shared|, i requires 0 <= i < |shared| => values[factor.slots[shared[i]]])
  }

  ghost predicate SharedOf(factor: Factor, shared: seq<nat>) {
    && (forall i | 0 <= i < |shared| :: shared[i] < |factor.slots|)
    && (forall r | 0 <= r < |factor.rows| :: |factor.rows[r].values| == |factor.slots|)
  }

  ghost predicate RowBefore(factor: Factor, shared: seq<nat>, a: nat, b: nat)
    requires SharedOf(factor, shared) && a < |factor.rows| && b < |factor.rows|
  {
    var order := KeyOrder(RowKey(factor, shared, a), RowKey(factor, shared, b));
    order < 0 || (order == 0 && a < b)
  }

  lemma RowBeforeTransitive(factor: Factor, shared: seq<nat>, a: nat, b: nat, c: nat)
    requires SharedOf(factor, shared) && a < |factor.rows| && b < |factor.rows| && c < |factor.rows|
    requires RowBefore(factor, shared, a, b) && RowBefore(factor, shared, b, c)
    ensures RowBefore(factor, shared, a, c)
  {
    var x, y, z := RowKey(factor, shared, a), RowKey(factor, shared, b), RowKey(factor, shared, c);
    KeyOrderTransitive(x, y, z);
    KeyOrderLaws(x, y);
    KeyOrderLaws(y, z);
    KeyOrderLaws(x, z);
  }

  lemma RowBeforeTotal(factor: Factor, shared: seq<nat>, a: nat, b: nat)
    requires SharedOf(factor, shared) && a < |factor.rows| && b < |factor.rows| && a != b
    ensures RowBefore(factor, shared, a, b) != RowBefore(factor, shared, b, a)
  {
    KeyOrderLaws(RowKey(factor, shared, a), RowKey(factor, shared, b));
  }

  /** A permutation of the rows below n, sorted on their keys and then by row. */
  ghost predicate RowIndex(factor: Factor, shared: seq<nat>, index: seq<nat>, n: nat)
    requires SharedOf(factor, shared) && n <= |factor.rows|
  {
    && (forall i | 0 <= i < |index| :: index[i] < n)
    && (forall r | 0 <= r < n :: r in index)
    && |index| == n
    && (forall i, j | 0 <= i < j < |index| :: RowBefore(factor, shared, index[i], index[j]))
  }

  lemma InsertKeepsMembers(index: seq<nat>, r: nat, p: nat)
    requires p <= |index| && forall x | 0 <= x < r :: x in index
    ensures forall x | 0 <= x < r + 1 :: x in index[..p] + [r] + index[p..]
  {
    var longer := index[..p] + [r] + index[p..];
    assert longer[p] == r;
    forall x | 0 <= x < r
      ensures x in longer
    {
      assert x in index;
      var i :| 0 <= i < |index| && index[i] == x;
      assert longer[if i < p then i else i + 1] == x;
    }
  }

  lemma EarlierRowsBefore(factor: Factor, shared: seq<nat>, index: seq<nat>, r: nat, p: nat)
    requires SharedOf(factor, shared) && r < |factor.rows| && RowIndex(factor, shared, index, r) && 0 < p <= |index|
    requires !RowBefore(factor, shared, r, index[p - 1])
    ensures forall i | 0 <= i < p :: RowBefore(factor, shared, index[i], r)
  {
    RowBeforeTotal(factor, shared, r, index[p - 1]);
    forall i | 0 <= i < p - 1
      ensures RowBefore(factor, shared, index[i], r)
    {
      RowBeforeTransitive(factor, shared, index[i], index[p - 1], r);
    }
  }

  lemma InsertKeepsIndex(factor: Factor, shared: seq<nat>, index: seq<nat>, r: nat, p: nat)
    requires SharedOf(factor, shared) && r < |factor.rows| && RowIndex(factor, shared, index, r) && p <= |index|
    requires forall i | p <= i < |index| :: RowBefore(factor, shared, r, index[i])
    requires p > 0 ==> !RowBefore(factor, shared, r, index[p - 1])
    ensures RowIndex(factor, shared, index[..p] + [r] + index[p..], r + 1)
  {
    hide RowBefore;
    var longer := index[..p] + [r] + index[p..];
    if p > 0 {
      EarlierRowsBefore(factor, shared, index, r, p);
    }
    InsertKeepsMembers(index, r, p);
    assert forall i | 0 <= i < |longer| :: longer[i] == if i < p then index[i] else if i == p then r else index[i - 1];
  }

  lemma IdentityIsIndex(factor: Factor, n: nat)
    requires SharedOf(factor, []) && n <= |factor.rows|
    ensures RowIndex(factor, [], seq(n, i => i), n)
  {
    var index := seq(n, i => i);
    forall r | 0 <= r < n
      ensures r in index
    {
      assert index[r] == r;
    }
  }

  // ----- positions of the bound slots -----

  ghost function BoundPositions(factors: seq<Factor>, done: set<nat>, f: nat, n: nat): (shared: seq<nat>)
    requires f < |factors| && n <= |factors[f].slots|
    ensures forall i | 0 <= i < |shared| :: shared[i] < n && Covers(factors, done, factors[f].slots[shared[i]])
    ensures forall s | 0 <= s < n && Covers(factors, done, factors[f].slots[s]) :: s in shared
  {
    if n == 0 then []
    else
      BoundPositions(factors, done, f, n - 1) +
      if Covers(factors, done, factors[f].slots[n - 1]) then [n - 1] else []
  }

  lemma {:induction false} FewPositions(factors: seq<Factor>, done: set<nat>, f: nat, n: nat)
    requires f < |factors| && n <= |factors[f].slots|
    ensures |BoundPositions(factors, done, f, n)| <= n
  {
    if n > 0 {
      FewPositions(factors, done, f, n - 1);
    }
  }

  /** Equal keys on the bound positions is the match the nested loop asks for. */
  lemma KeyEqualIsMatch(factors: seq<Factor>, done: set<nat>, f: nat, values: seq<Id>, shared: seq<nat>, r: nat)
    requires f < |factors| && Shaped(factors, |values|) && r < |factors[f].rows|
    requires shared == BoundPositions(factors, done, f, |factors[f].slots|) && SharedOf(factors[f], shared)
    ensures RowKey(factors[f], shared, r) == StateKey(factors[f], shared, values) <==> Matches(factors, done, f, values, r)
  {
    var factor := factors[f];
    if RowKey(factor, shared, r) == StateKey(factor, shared, values) {
      forall s | 0 <= s < |factor.slots| && Covers(factors, done, factor.slots[s])
        ensures factor.rows[r].values[s] == values[factor.slots[s]]
      {
        var i :| 0 <= i < |shared| && shared[i] == s;
        assert RowKey(factor, shared, r)[i] == StateKey(factor, shared, values)[i];
      }
    }
  }

  lemma FirstIsMember(s: seq<nat>)
    ensures s != [] ==> s[0] in s
  {
  }

  lemma TailMembers(a: seq<nat>, b: seq<nat>)
    requires a != [] && b != [] && a[0] == b[0]
    requires forall i, j | 0 <= i < j < |a| :: a[i] < a[j]
    requires forall x | x in a :: x in b
    ensures forall x | x in a[1..] :: x in b[1..]
  {
    forall x | x in a[1..]
      ensures x in b[1..]
    {
      assert x in a && x != a[0];
      var i :| 0 <= i < |b| && b[i] == x;
      assert b[1..][i - 1] == x;
    }
  }

  lemma {:induction false} AscendingUnique(a: seq<nat>, b: seq<nat>)
    requires forall i, j | 0 <= i < j < |a| :: a[i] < a[j]
    requires forall i, j | 0 <= i < j < |b| :: b[i] < b[j]
    requires (forall x | x in a :: x in b) && (forall x | x in b :: x in a)
    ensures a == b
  {
    FirstIsMember(a);
    FirstIsMember(b);
    if a != [] {
      TailMembers(a, b);
      TailMembers(b, a);
      AscendingUnique(a[1..], b[1..]);
      assert a == [a[0]] + a[1..] && b == [b[0]] + b[1..];
    }
  }

  /** The two search results: everything before first is below the state's key,
      everything from last on is above it, and what lies between is equal. */
  ghost predicate Bracket(factor: Factor, shared: seq<nat>, index: seq<nat>, values: seq<Id>, first: nat, last: nat)
    requires SharedOf(factor, shared) && RowIndex(factor, shared, index, |factor.rows|)
    requires forall s | 0 <= s < |factor.slots| :: factor.slots[s] < |values|
  {
    && first <= last <= |index|
    && (forall p | 0 <= p < first :: KeyOrder(RowKey(factor, shared, index[p]), StateKey(factor, shared, values)) < 0)
    && (forall p | first <= p < last :: KeyOrder(RowKey(factor, shared, index[p]), StateKey(factor, shared, values)) == 0)
    && (forall p | last <= p < |index| :: KeyOrder(RowKey(factor, shared, index[p]), StateKey(factor, shared, values)) > 0)
  }

  /** What the searches bracket is what a full scan of the relation would find, in
      the same order. */
  lemma BracketIsFullScan(factors: seq<Factor>, done: set<nat>, f: nat, values: seq<Id>, shared: seq<nat>, index: seq<nat>, first: nat, last: nat)
    requires f < |factors| && Shaped(factors, |values|)
    requires shared == BoundPositions(factors, done, f, |factors[f].slots|) && SharedOf(factors[f], shared)
    requires RowIndex(factors[f], shared, index, |factors[f].rows|)
    requires Bracket(factors[f], shared, index, values, first, last)
    ensures index[first..last] == MatchingRows(factors, done, f, values, |factors[f].rows|)
  {
    var factor := factors[f];
    var found := index[first..last];
    var scan := MatchingRows(factors, done, f, values, |factor.rows|);
    var key := StateKey(factor, shared, values);
    forall p | 0 <= p < |index|
      ensures first <= p < last <==> Matches(factors, done, f, values, index[p])
    {
      KeyOrderLaws(RowKey(factor, shared, index[p]), key);
      KeyEqualIsMatch(factors, done, f, values, shared, index[p]);
    }
    forall i, j | 0 <= i < j < |found|
      ensures found[i] < found[j]
    {
      var a, b := index[first + i], index[first + j];
      assert RowBefore(factor, shared, a, b);
      KeyOrderLaws(RowKey(factor, shared, a), key);
      KeyOrderLaws(RowKey(factor, shared, b), key);
      KeyOrderLaws(RowKey(factor, shared, a), RowKey(factor, shared, b));
    }
    forall x
      ensures x in found <==> x in scan
    {
      if x in found {
        var i :| 0 <= i < |found| && found[i] == x;
        assert index[first + i] == x;
      }
      if x in scan {
        var i :| 0 <= i < |scan| && scan[i] == x;
        assert x in index;
        var p :| 0 <= p < |index| && index[p] == x;
        assert found[p - first] == x;
      }
    }
    AscendingUnique(found, scan);
  }

  /** Where a row of the index falls decides all rows on one side of it. */
  lemma SearchStep(factor: Factor, shared: seq<nat>, index: seq<nat>, key: seq<Id>, middle: nat)
    requires SharedOf(factor, shared) && RowIndex(factor, shared, index, |factor.rows|)
    requires middle < |index| && |key| == |shared|
    ensures var sign := KeyOrder(RowKey(factor, shared, index[middle]), key);
      && (sign < 0 ==> forall p | 0 <= p <= middle :: KeyOrder(RowKey(factor, shared, index[p]), key) < 0)
      && (sign <= 0 ==> forall p | 0 <= p <= middle :: KeyOrder(RowKey(factor, shared, index[p]), key) <= 0)
      && (sign >= 0 ==> forall p | middle <= p < |index| :: KeyOrder(RowKey(factor, shared, index[p]), key) >= 0)
      && (sign > 0 ==> forall p | middle <= p < |index| :: KeyOrder(RowKey(factor, shared, index[p]), key) > 0)
  {
    var here := RowKey(factor, shared, index[middle]);
    KeyOrderLaws(here, key);
    forall p | 0 <= p < |index|
      ensures p < middle && KeyOrder(here, key) <= 0 ==>
        KeyOrder(RowKey(factor, shared, index[p]), key) <= 0 &&
        (KeyOrder(here, key) < 0 ==> KeyOrder(RowKey(factor, shared, index[p]), key) < 0)
      ensures p > middle && KeyOrder(here, key) >= 0 ==>
        KeyOrder(RowKey(factor, shared, index[p]), key) >= 0 &&
        (KeyOrder(here, key) > 0 ==> KeyOrder(RowKey(factor, shared, index[p]), key) > 0)
    {
      var there := RowKey(factor, shared, index[p]);
      KeyOrderLaws(there, key);
      KeyOrderLaws(there, here);
      if p < middle && KeyOrder(here, key) <= 0 {
        assert RowBefore(factor, shared, index[p], index[middle]);
        KeyOrderTransitive(there, here, key);
      }
      if p > middle && KeyOrder(here, key) >= 0 {
        assert RowBefore(factor, shared, index[middle], index[p]);
        KeyOrderTransitive(key, here, there);
      }
    }
  }

  ghost function Below(n: nat): (all: set<nat>)
    ensures |all| == n
    ensures forall f: nat :: f in all <==> f < n
  {
    if n == 0 then {} else Below(n - 1) + {n - 1}
  }

  lemma OrderWithinFactors(factors: seq<Factor>, order: seq<nat>)
    requires ValidOrder(factors, order)
    ensures |order| <= |factors|
    ensures (forall f | 0 <= f < |factors| :: f in order) <==> |order| == |factors|
  {
    var all := Below(|factors|);
    DistinctSize(factors, order);
    assert Elements(order) <= all;
    SubsetSize(Elements(order), all);
    if forall f | 0 <= f < |factors| :: f in order {
      assert Elements(order) == all;
    }
    if |order| == |factors| {
      forall f | 0 <= f < |factors|
        ensures f in order
      {
        assert f in all;
      }
    }
  }

  lemma SomeFactorLeft(factors: seq<Factor>, order: seq<nat>)
    requires ValidOrder(factors, order) && |order| < |factors|
    ensures exists g: nat :: g < |factors| && g !in Elements(order)
  {
    OrderWithinFactors(factors, order);
    var f :| 0 <= f < |factors| && f !in order;
    var g: nat := f;
    assert g !in Elements(order);
  }

  lemma {:induction false} DistinctSize(factors: seq<Factor>, order: seq<nat>)
    requires ValidOrder(factors, order)
    ensures |Elements(order)| == |order|
    decreases |order|
  {
    if order == [] {
      assert Elements(order) == {};
    } else {
      LastElement(factors, order);
      DistinctSize(factors, order[..|order| - 1]);
    }
  }

  lemma ChosenExtendsOrder(factors: seq<Factor>, order: seq<nat>, f: nat)
    requires ValidOrder(factors, order) && GreedyOrder(factors, order)
    requires Greediest(factors, Elements(order), f, |factors|)
    ensures ValidOrder(factors, order + [f]) && GreedyOrder(factors, order + [f])
    ensures Elements(order + [f]) == Elements(order) + {f}
  {
    var longer := order + [f];
    forall k | 0 <= k < |longer|
      ensures Greediest(factors, Elements(longer[..k]), longer[k], |factors|)
    {
      assert longer[..k] == order[..k];
      assert order[..|order|] == order;
    }
  }

  lemma RoundExtends(factors: seq<Factor>, slotCount: nat, order: seq<nat>, f: nat)
    requires Shaped(factors, slotCount) && ValidOrder(factors, order) && ValidOrder(factors, order + [f]) && f < |factors|
    ensures var states, longer := NestedLoop(factors, slotCount, order), order + [f];
      && NestedLoop(factors, slotCount, longer) == JoinStep(factors, slotCount, Elements(order), f, states, |states|)
      && PairCount(factors, slotCount, longer) == PairCount(factors, slotCount, order) + |states| * |factors[f].rows|
      && StateCount(factors, slotCount, longer) == StateCount(factors, slotCount, order) + |NestedLoop(factors, slotCount, longer)|
      && PeakCount(factors, slotCount, longer) ==
           var before, now := PeakCount(factors, slotCount, order), |NestedLoop(factors, slotCount, longer)|;
           if before < now then now else before
  {
    var longer := order + [f];
    assert longer[..|longer| - 1] == order && longer[|longer| - 1] == f;
  }

  class JoinRun {
    const program: Program
    const factors: seq<Factor>
    const memory: nat -> bool
    var frontier: seq<State>
    var bound: seq<bool>
    var completed: seq<bool>
    var comparisons: nat
    var rejectedPairs: nat
    var generatedStates: nat
    var peakFrontierStates: nat
    ghost var order: seq<nat>

    /** One of the budgets is used up; `memory` says whether one more state fits. */
    ghost predicate Drained()
      reads this`comparisons, this`generatedStates
    {
      comparisons == program.maximumComparisons || generatedStates == program.maximumStates || !memory(generatedStates)
    }

    /** The count of rejected pairs has no room for the rows of some factor. */
    ghost predicate Overfull()
      reads this`rejectedPairs
    {
      exists f | 0 <= f < |factors| :: rejectedPairs + |factors[f].rows| > UINT64_MAX
    }

    /** The marks on factors and slots say what has been joined. */
    ghost predicate Marked(done: set<nat>)
      reads this`bound, this`completed
    {
      && |completed| == |factors| && (forall f | 0 <= f < |factors| :: completed[f] <==> f in done)
      && |bound| == |program.slotIds| && (forall slot | 0 <= slot < |bound| :: bound[slot] <==> Covers(factors, done, slot))
    }

    ghost predicate Valid()
      reads this`frontier, this`bound, this`completed, this`rejectedPairs, this`generatedStates, this`peakFrontierStates, this`order
    {
      var slotCount := |program.slotIds|;
      && Shaped(factors, slotCount) && ValidOrder(factors, order) && GreedyOrder(factors, order)
      && Marked(Elements(order))
      && frontier == NestedLoop(factors, slotCount, order)
      && rejectedPairs + generatedStates == PairCount(factors, slotCount, order)
      && generatedStates == StateCount(factors, slotCount, order)
      && peakFrontierStates == PeakCount(factors, slotCount, order)
    }

    constructor (program: Program, factors: seq<Factor>, memory: nat -> bool)
      requires Shaped(factors, |program.slotIds|)
      ensures Valid() && this.program == program && this.factors == factors && this.memory == memory && order == [] && comparisons == 0
      ensures rejectedPairs == 0 && generatedStates == 0
    {
      this.program, this.factors, this.memory := program, factors, memory;
      bound := seq(|program.slotIds|, _ => false);
      completed := seq(|factors|, _ => false);
      frontier := [InitialState(factors, |program.slotIds|)];
      comparisons, rejectedPairs, generatedStates, peakFrontierStates := 0, 0, 0, 1;
      order := [];
      new;
      assert Elements(order) == {};
    }

    /** Compares two keys slot by slot, charging each comparison to the budget. */
    method CompareKeys(left: seq<Id>, right: seq<Id>) returns (ok: bool, sign: int)
      requires |left| == |right| && comparisons <= program.maximumComparisons
      modifies this`comparisons
      ensures ok ==> sign == KeyOrder(left, right)
      ensures !ok ==> comparisons == program.maximumComparisons
      ensures old(comparisons) <= comparisons <= program.maximumComparisons && comparisons <= old(comparisons) + |left|
    {
      for s := 0 to |left|
        invariant KeyOrder(left, right) == KeyOrder(left[s..], right[s..])
        invariant comparisons <= old(comparisons) + s
        invariant old(comparisons) <= comparisons <= program.maximumComparisons
      {
        if comparisons == program.maximumComparisons {
          return false, 0;
        }
        comparisons := comparisons + 1;
        if left[s] != right[s] {
          return true, if left[s] < right[s] then -1 else 1;
        }
      }
      return true, 0;
    }

    method CountShared(candidate: nat, ghost done: set<nat>) returns (shared: nat)
      requires candidate < |factors| && ShapedFactor(factors[candidate], |program.slotIds|) && Marked(done)
      ensures shared == Shared(factors, done, candidate)
    {
      shared := 0;
      for s := 0 to |factors[candidate].slots|
        invariant shared == SharedCount(factors, done, candidate, s)
      {
        if bound[factors[candidate].slots[s]] {
          shared := shared + 1;
        }
      }
    }

    method ChooseFactor(ghost done: set<nat>) returns (f: nat)
      requires Shaped(factors, |program.slotIds|) && Marked(done)
      ensures if exists g: nat :: g < |factors| && g !in done then Greediest(factors, done, f, |factors|) else f == |factors|
    {
      f := |factors|;
      var bestShared := 0;
      for candidate := 0 to |factors|
        invariant f == |factors| ==> forall g: nat :: g < candidate ==> g in done
        invariant f != |factors| ==> Greediest(factors, done, f, candidate) && bestShared == Shared(factors, done, f)
      {
        if !completed[candidate] {
          var shared := CountShared(candidate, done);
          if f == |factors| || shared > bestShared ||
             (shared == bestShared && |factors[candidate].rows| < |factors[f].rows|) {
            f, bestShared := candidate, shared;
          }
        }
      }
    }

    method SharedSlots(f: nat, ghost done: set<nat>) returns (shared: seq<nat>)
      requires f < |factors| && ShapedFactor(factors[f], |program.slotIds|) && Marked(done)
      ensures shared == BoundPositions(factors, done, f, |factors[f].slots|)
    {
      shared := [];
      for s := 0 to |factors[f].slots|
        invariant shared == BoundPositions(factors, done, f, s)
      {
        if bound[factors[f].slots[s]] {
          shared := shared + [s];
        }
      }
    }

    /** Sorts all rows of the factor on the shared positions, equal keys by row. */
    method SortRows(f: nat, shared: seq<nat>) returns (ok: bool, index: seq<nat>)
      requires f < |factors| && SharedOf(factors[f], shared) && comparisons <= program.maximumComparisons
      modifies this`comparisons
      ensures ok ==> RowIndex(factors[f], shared, index, |factors[f].rows|)
      ensures !ok ==> comparisons == program.maximumComparisons
      ensures old(comparisons) <= comparisons <= program.maximumComparisons
      ensures comparisons <= old(comparisons) + Times(SortSteps(|factors[f].rows|), |shared|)
    {
      var factor := factors[f];
      index := [];
      ghost var steps: nat := 0;
      for r := 0 to |factor.rows|
        invariant RowIndex(factor, shared, index, r) && |index| == r
        invariant steps <= SortSteps(r) && comparisons <= old(comparisons) + Times(steps, |shared|)
        invariant old(comparisons) <= comparisons <= program.maximumComparisons
      {
        var p: nat := |index|;
        var placed := false;
        while p > 0 && !placed
          invariant p <= |index|
          invariant steps <= SortSteps(r) + (r - p) + (if placed then 1 else 0) && comparisons <= old(comparisons) + Times(steps, |shared|)
          invariant forall i | p <= i < |index| :: RowBefore(factor, shared, r, index[i])
          invariant placed ==> p > 0 && !RowBefore(factor, shared, r, index[p - 1])
          invariant old(comparisons) <= comparisons <= program.maximumComparisons
          decreases p, !placed
        {
          SortStepsGrow(r + 1, |factor.rows|);
          TimesMonotone(steps + 1, SortSteps(|factor.rows|), |shared|, |shared|);
          steps := steps + 1;
          var sign;
          ok, sign := CompareKeys(RowKey(factor, shared, r), RowKey(factor, shared, index[p - 1]));
          if !ok {
            return;
          }
          if sign < 0 {
            p := p - 1;
          } else {
            placed := true;
          }
        }
        InsertKeepsIndex(factor, shared, index, r, p);
        index := index[..p] + [r] + index[p..];
      }
      TimesMonotone(steps, SortSteps(|factor.rows|), |shared|, |shared|);
      ok := true;
    }

    /** Both binary searches of one state. */
    method Probe(f: nat, shared: seq<nat>, index: seq<nat>, values: seq<Id>) returns (ok: bool, first: nat, last: nat)
      requires f < |factors| && SharedOf(factors[f], shared) && RowIndex(factors[f], shared, index, |factors[f].rows|)
      requires forall s | 0 <= s < |factors[f].slots| :: factors[f].slots[s] < |values|
      requires comparisons <= program.maximumComparisons
      modifies this`comparisons
      ensures ok ==> Bracket(factors[f], shared, index, values, first, last)
      ensures !ok ==> comparisons == program.maximumComparisons
      ensures old(comparisons) <= comparisons <= program.maximumComparisons
      ensures comparisons <= old(comparisons) + Times(2 * |index|, |shared|)
    {
      var factor := factors[f];
      var key := StateKey(factor, shared, values);
      first, last := 0, |index|;
      if shared == [] {
        return true, first, last;
      }
      var high := last;
      ghost var steps: nat := 0;
      while first < high
        invariant first <= high <= |index|
        invariant steps + (high - first) <= |index| && comparisons <= old(comparisons) + Times(steps, |shared|)
        invariant forall p | 0 <= p < first :: KeyOrder(RowKey(factor, shared, index[p]), key) < 0
        invariant forall p | high <= p < |index| :: KeyOrder(RowKey(factor, shared, index[p]), key) >= 0
        invariant old(comparisons) <= comparisons <= program.maximumComparisons
      {
        var middle := first + (high - first) / 2;
        TimesMonotone(steps + 1, 2 * |index|, |shared|, |shared|);
        steps := steps + 1;
        var sign;
        ok, sign := CompareKeys(RowKey(factor, shared, index[middle]), key);
        if !ok {
          return;
        }
        SearchStep(factor, shared, index, key, middle);
        if sign < 0 {
          first := middle + 1;
        } else {
          high := middle;
        }
      }
      var low := first;
      while low < last
        invariant first <= low <= last <= |index|
        invariant steps + (last - low) <= 2 * |index| && comparisons <= old(comparisons) + Times(steps, |shared|)
        invariant forall p | first <= p < low :: KeyOrder(RowKey(factor, shared, index[p]), key) <= 0
        invariant forall p | last <= p < |index| :: KeyOrder(RowKey(factor, shared, index[p]), key) > 0
        invariant old(comparisons) <= comparisons <= program.maximumComparisons
      {
        var middle := low + (last - low) / 2;
        TimesMonotone(steps + 1, 2 * |index|, |shared|, |shared|);
        steps := steps + 1;
        var sign;
        ok, sign := CompareKeys(RowKey(factor, shared, index[middle]), key);
        if !ok {
          return;
        }
        SearchStep(factor, shared, index, key, middle);
        if sign <= 0 {
          low := middle + 1;
        } else {
          last := middle;
        }
      }
      TimesMonotone(steps, 2 * |index|, |shared|, |shared|);
      ok := true;
    }

    /** Builds the index of a factor: all its rows, sorted only if a slot is shared. */
    method BuildIndex(f: nat, shared: seq<nat>) returns (ok: bool, index: seq<nat>)
      requires f < |factors| && SharedOf(factors[f], shared) && comparisons <= program.maximumComparisons
      modifies this`comparisons
      ensures ok ==> RowIndex(factors[f], shared, index, |factors[f].rows|)
      ensures !ok ==> comparisons == program.maximumComparisons
      ensures old(comparisons) <= comparisons <= program.maximumComparisons
      ensures comparisons <= old(comparisons) + Times(SortSteps(|factors[f].rows|), |shared|)
    {
      if shared == [] {
        IdentityIsIndex(factors[f], |factors[f].rows|);
        return true, seq(|factors[f].rows|, i => i);
      }
      ok, index := SortRows(f, shared);
    }

    /** Appends to next the extensions of one state by the bracketed rows. */
    method ExtendState(f: nat, st: State, rows: seq<nat>, before: seq<State>) returns (ok: bool, next: seq<State>)
      requires f < |factors| && Shaped(factors, |program.slotIds|)
      requires |st.values| == |program.slotIds| && |st.path| == |factors|
      requires forall i | 0 <= i < |rows| :: rows[i] < |factors[f].rows|
      requires generatedStates <= program.maximumStates
      modifies this`generatedStates
      ensures ok ==> next == before + ExtendBy(factors, |program.slotIds|, f, st, rows)
      ensures ok ==> generatedStates == old(generatedStates) + |rows|
      ensures !ok ==> generatedStates == program.maximumStates || !memory(generatedStates)
      ensures generatedStates <= program.maximumStates && generatedStates <= old(generatedStates) + |rows|
    {
      ghost var all := ExtendBy(factors, |program.slotIds|, f, st, rows);
      assert ShapedFactor(factors[f], |program.slotIds|);
      next := before;
      for i := 0 to |rows|
        invariant next == before + all[..i]
        invariant generatedStates == old(generatedStates) + i <= program.maximumStates
      {
        if generatedStates == program.maximumStates || !memory(generatedStates) {
          return false, next;
        }
        generatedStates := generatedStates + 1;
        next := next + [Extend(st, factors[f], f, rows[i])];
        assert all[..i + 1] == all[..i] + [all[i]];
      }
      assert all[..|rows|] == all;
      ok := true;
    }

    /** Searches the index for one state and extends it by the rows found. */
    method JoinState(f: nat, shared: seq<nat>, index: seq<nat>, st: State, before: seq<State>, ghost done: set<nat>)
      returns (status: Status, next: seq<State>)
      requires f < |factors| && Shaped(factors, |program.slotIds|)
      requires |st.values| == |program.slotIds| && |st.path| == |factors|
      requires SharedOf(factors[f], shared) && shared == BoundPositions(factors, done, f, |factors[f].slots|)
      requires RowIndex(factors[f], shared, index, |factors[f].rows|)
      requires comparisons <= program.maximumComparisons && generatedStates <= program.maximumStates
      requires rejectedPairs <= UINT64_MAX
      modifies this`comparisons, this`generatedStates, this`rejectedPairs
      ensures status in {Ok, Exhausted, Range}
      ensures (status == Exhausted ==> Drained()) && (status == Range ==> Overfull())
      ensures old(comparisons) <= comparisons <= program.maximumComparisons && generatedStates <= program.maximumStates
      ensures rejectedPairs <= UINT64_MAX
      ensures comparisons <= old(comparisons) + Times(2 * |factors[f].rows|, |shared|)
      ensures rejectedPairs + generatedStates <= old(rejectedPairs + generatedStates) + |factors[f].rows|
      ensures var rows := MatchingRows(factors, done, f, st.values, |factors[f].rows|);
        status == Ok ==> next == before + ExtendBy(factors, |program.slotIds|, f, st, rows)
      ensures status == Ok ==> generatedStates == old(generatedStates) + |next| - |before|
      ensures status == Ok ==> rejectedPairs + |next| == old(rejectedPairs) + |before| + |factors[f].rows|
    {
      assert ShapedFactor(factors[f], |program.slotIds|);
      var ok, first, last := Probe(f, shared, index, st.values);
      if !ok {
        return Exhausted, before;
      }
      BracketIsFullScan(factors, done, f, st.values, shared, index, first, last);
      var rejected := |factors[f].rows| - (last - first);
      if rejected > UINT64_MAX - rejectedPairs {
        return Range, before;
      }
      rejectedPairs := rejectedPairs + rejected;
      ok, next := ExtendState(f, st, index[first..last], before);
      status := if ok then Ok else Exhausted;
    }

    /** Extends the states of the frontier one after the other. */
    method ExtendFrontier(f: nat, shared: seq<nat>, index: seq<nat>, ghost done: set<nat>) returns (status: Status, next: seq<State>)
      requires f < |factors| && Shaped(factors, |program.slotIds|) && Sized(factors, |program.slotIds|, frontier)
      requires SharedOf(factors[f], shared) && shared == BoundPositions(factors, done, f, |factors[f].slots|)
      requires frontier != [] ==> RowIndex(factors[f], shared, index, |factors[f].rows|)
      requires comparisons <= program.maximumComparisons && generatedStates <= program.maximumStates
      requires rejectedPairs <= UINT64_MAX
      modifies this`comparisons, this`generatedStates, this`rejectedPairs
      ensures status in {Ok, Exhausted, Range}
      ensures (status == Exhausted ==> Drained()) && (status == Range ==> Overfull())
      ensures old(comparisons) <= comparisons <= program.maximumComparisons && generatedStates <= program.maximumStates
      ensures rejectedPairs <= UINT64_MAX
      ensures comparisons <= old(comparisons) + Times(|frontier|, Times(2 * |factors[f].rows|, |shared|))
      ensures rejectedPairs + generatedStates <= old(rejectedPairs + generatedStates) + Times(|frontier|, |factors[f].rows|)
      ensures status == Ok ==> next == JoinStep(factors, |program.slotIds|, done, f, frontier, |frontier|)
      ensures status == Ok ==> generatedStates == old(generatedStates) + |next|
      ensures status == Ok ==> rejectedPairs + |next| == old(rejectedPairs) + |frontier| * |factors[f].rows|
    {
      hide Shaped, RowIndex, SharedOf, BoundPositions, MatchingRows;
      next := [];
      ghost var rowCount, cost := |factors[f].rows|, Times(2 * |factors[f].rows|, |shared|);
      var states := frontier;
      for state := 0 to |states|
        invariant next == JoinStep(factors, |program.slotIds|, done, f, states, state)
        invariant generatedStates == old(generatedStates) + |next| <= program.maximumStates
        invariant rejectedPairs + |next| == old(rejectedPairs) + Times(state, rowCount)
        invariant rejectedPairs <= UINT64_MAX
        invariant comparisons <= old(comparisons) + Times(state, cost)
        invariant rejectedPairs + generatedStates <= old(rejectedPairs + generatedStates) + Times(state, rowCount)
        invariant old(comparisons) <= comparisons <= program.maximumComparisons
      {
        status, next := JoinState(f, shared, index, states[state], next, done);
        TimesMonotone(state + 1, |states|, cost, cost);
        TimesMonotone(state + 1, |states|, rowCount, rowCount);
        if status != Ok {
          return;
        }
      }
      TimesIsProduct(|states|, rowCount);
      status := Ok;
    }

    /** Joins one factor onto every state of the frontier. */
    method JoinFactor(f: nat, ghost done: set<nat>) returns (status: Status, next: seq<State>)
      requires f < |factors| && Shaped(factors, |program.slotIds|) && Sized(factors, |program.slotIds|, frontier)
      requires Marked(done)
      requires comparisons <= program.maximumComparisons && generatedStates <= program.maximumStates
      requires rejectedPairs <= UINT64_MAX
      modifies this`comparisons, this`generatedStates, this`rejectedPairs
      ensures status in {Ok, Exhausted, Range}
      ensures (status == Exhausted ==> Drained()) && (status == Range ==> Overfull())
      ensures old(comparisons) <= comparisons <= program.maximumComparisons && generatedStates <= program.maximumStates
      ensures rejectedPairs <= UINT64_MAX
      ensures comparisons <= old(comparisons) + RoundRoom(factors, |frontier|)
      ensures rejectedPairs + generatedStates <= old(rejectedPairs + generatedStates) + Times(|frontier|, MostRows(factors))
      ensures status == Ok ==> next == JoinStep(factors, |program.slotIds|, done, f, frontier, |frontier|)
      ensures status == Ok ==> generatedStates == old(generatedStates) + |next|
      ensures status == Ok ==> rejectedPairs + |next| == old(rejectedPairs) + |frontier| * |factors[f].rows|
    {
      assert ShapedFactor(factors[f], |program.slotIds|);
      hide JoinStep, Times, SortSteps, RoundRoom, MostRows, RowIndex, BoundPositions, Covers, Marked, Shaped;
      var shared := SharedSlots(f, done);
      FewPositions(factors, done, f, |factors[f].slots|);
      RoundWithin(factors, f, |shared|, |frontier|);
      var index := [];
      if frontier != [] {
        var built;
        built, index := BuildIndex(f, shared);
        if !built {
          return Exhausted, [];
        }
      }
      status, next := ExtendFrontier(f, shared, index, done);
    }

    /** One round: joins the greediest remaining factor. */
    method Round() returns (status: Status)
      requires Valid() && |order| < |factors|
      requires comparisons <= program.maximumComparisons && generatedStates <= program.maximumStates
      requires rejectedPairs <= UINT64_MAX
      modifies this
      ensures status in {Ok, Exhausted, Range}
      ensures (status == Exhausted ==> Drained()) && (status == Range ==> Overfull())
      ensures status == Ok ==> Valid() && |order| == |old(order)| + 1
      ensures old(comparisons) <= comparisons <= program.maximumComparisons && generatedStates <= program.maximumStates
      ensures rejectedPairs <= UINT64_MAX
      ensures comparisons <= old(comparisons) + RoundRoom(factors, Widest(factors, |old(order)|))
      ensures rejectedPairs + generatedStates <= PairRoom(factors, |old(order)| + 1)
    {
      hide NestedLoop, Times, RoundRoom, MostRows, Widest, PairCount, StateCount, PeakCount, JoinStep, Shared, Covers, Marked, GreedyOrder, Shaped, Sized, ValidOrder, Greediest;
      ghost var done := Elements(order);
      SomeFactorLeft(factors, order);
      FrontierWithin(factors, |program.slotIds|, order);
      RoundRoomGrows(factors, |frontier|, Widest(factors, |order|));
      var f := ChooseFactor(done);
      var next;
      status, next := JoinFactor(f, done);
      if status != Ok {
        return;
      }
      Commit(f, next);
    }

    method Commit(f: nat, next: seq<State>)
      requires Shaped(factors, |program.slotIds|) && ValidOrder(factors, order) && GreedyOrder(factors, order)
      requires Greediest(factors, Elements(order), f, |factors|) && Marked(Elements(order))
      requires var states := NestedLoop(factors, |program.slotIds|, order);
        && next == JoinStep(factors, |program.slotIds|, Elements(order), f, states, |states|)
        && rejectedPairs + generatedStates == PairCount(factors, |program.slotIds|, order) + |states| * |factors[f].rows|
        && generatedStates == StateCount(factors, |program.slotIds|, order) + |next|
        && peakFrontierStates == PeakCount(factors, |program.slotIds|, order)
      modifies this`frontier, this`peakFrontierStates, this`bound, this`completed, this`order
      ensures Valid() && order == old(order) + [f]
    {
      hide NestedLoop, PairCount, StateCount, PeakCount, JoinStep, Shared, Covers, Marked, GreedyOrder, Shaped, Sized, ValidOrder;
      ChosenExtendsOrder(factors, order, f);
      RoundExtends(factors, |program.slotIds|, order, f);
      frontier := next;
      peakFrontierStates := if peakFrontierStates < |next| then |next| else peakFrontierStates;
      MarkJoined(f, Elements(order));
      order := order + [f];
    }

    method MarkJoined(f: nat, ghost done: set<nat>)
      requires Shaped(factors, |program.slotIds|) && f < |factors| && Marked(done)
      modifies this`bound, this`completed
      ensures Marked(done + {f})
    {
      BindSlots(f, done);
      completed := completed[f := true];
    }

    method BindSlots(f: nat, ghost done: set<nat>)
      requires Shaped(factors, |program.slotIds|) && f < |factors| && |bound| == |program.slotIds|
      requires forall slot | 0 <= slot < |bound| :: bound[slot] <==> Covers(factors, done, slot)
      modifies this`bound
      ensures |bound| == |program.slotIds|
      ensures forall slot | 0 <= slot < |bound| :: bound[slot] <==> Covers(factors, done + {f}, slot)
    {
      var slots := factors[f].slots;
      assert ShapedFactor(factors[f], |program.slotIds|);
      for s := 0 to |slots|
        invariant |bound| == |program.slotIds|
        invariant forall slot | 0 <= slot < |bound| :: bound[slot] <==> old(bound)[slot] || slot in slots[..s]
      {
        assert slots[..s + 1] == slots[..s] + [slots[s]];
        bound := bound[slots[s] := true];
      }
      assert slots[..|slots|] == slots;
      forall slot | 0 <= slot < |bound|
        ensures Covers(factors, done + {f}, slot) <==> Covers(factors, done, slot) || slot in slots
      {
        if Covers(factors, done + {f}, slot) {
          var g :| g in done + {f} && g < |factors| && slot in factors[g].slots;
          if g != f {
            assert g in done;
          }
        }
        if slot in slots {
          assert f in done + {f};
        }
      }
    }

    method RunRounds() returns (status: Status)
      requires Valid() && order == []
      requires comparisons == 0 && rejectedPairs == 0 && generatedStates == 0
      modifies this
      ensures status in {Ok, Exhausted, Range}
      ensures (status == Exhausted ==> Drained()) && (status == Range ==> Overfull())
      ensures comparisons <= program.maximumComparisons && generatedStates <= program.maximumStates
      ensures comparisons <= CompareRoom(factors, |factors|) && rejectedPairs + generatedStates <= PairRoom(factors, |factors|)
      ensures status == Ok ==> Valid() && Complete(factors, order)
    {
      hide NestedLoop, RoundRoom, MostRows, Widest, Times, PairCount, StateCount, PeakCount, Shaped, Covers, Marked, GreedyOrder;
      var joined := 0;
      while joined < |factors|
        invariant Valid() && joined == |order| <= |factors|
        invariant comparisons <= program.maximumComparisons && generatedStates <= program.maximumStates
        invariant rejectedPairs <= UINT64_MAX
        invariant comparisons <= CompareRoom(factors, joined) && rejectedPairs + generatedStates <= PairRoom(factors, joined)
        decreases |factors| - joined
      {
        RoomGrows(factors, joined + 1, |factors|);
        status := Round();
        if status != Ok {
          return;
        }
        joined := joined + 1;
        OrderWithinFactors(factors, order);
      }
      OrderWithinFactors(factors, order);
      status := Ok;
    }

    method AllBound(ghost done: set<nat>) returns (covered: bool)
      requires Marked(done)
      ensures covered <==> forall slot: nat | slot < |program.slotIds| :: Covers(factors, done, slot)
    {
      for slot := 0 to |bound|
        invariant forall s | 0 <= s < slot :: bound[s]
      {
        if !bound[slot] {
          assert !Covers(factors, done, slot);
          return false;
        }
      }
      covered := true;
    }

    /** Runs all rounds and, only if every one of them completes, publishes. */
    method Execute() returns (status: Status, result: Option<Interpretation>)
      requires Valid() && order == [] && ValidInput(program, factors)
      requires comparisons == 0 && rejectedPairs == 0 && generatedStates == 0
      modifies this
      ensures status in {Ok, InvalidArgument, Exhausted, Range}
      ensures (status == Exhausted ==> Drained()) && (status == Range ==> Overfull())
      ensures comparisons <= CompareRoom(factors, |factors|) && rejectedPairs + generatedStates <= PairRoom(factors, |factors|)
      ensures result.Some? <==> status == Ok
      ensures status == InvalidArgument ==> exists slot: nat :: slot < |program.slotIds| && !Covers(factors, Elements(order), slot)
      ensures status in {Ok, InvalidArgument} ==> Complete(factors, order)
      ensures status == Ok ==> Published(program, factors, order, result.value)
    {
      hide NestedLoop, PairCount, StateCount, PeakCount, GreedyOrder, Covers;
      status := RunRounds();
      if status != Ok {
        return status, None;
      }
      var covered := AllBound(Elements(order));
      if !covered {
        return InvalidArgument, None;
      }
      var disposition := Judge(frontier);
      var receipt := Receipt(comparisons, rejectedPairs, generatedStates, peakFrontierStates,
                             |frontier|, |factors|, disposition);
      return Ok, Some(Interpretation(program.slotIds, frontier, receipt));
    }
  }

  /** Compares every derivation with the first one. */
  method Judge(states: seq<State>) returns (disposition: Disposition)
    ensures disposition == Verdict(states)
  {
    disposition := if states == [] then NoCompatibleBinding else Unique;
    for i := 0 to |states|
      invariant states == [] ==> disposition == NoCompatibleBinding
      invariant states != [] ==> disposition == if forall j | 0 <= j < i :: states[j].values == states[0].values then Unique else Ambiguous
    {
      if states[i].values != states[0].values {
        disposition := Ambiguous;
      }
    }
  }

  ghost predicate Complete(factors: seq<Factor>, order: seq<nat>) {
    && ValidOrder(factors, order) && GreedyOrder(factors, order)
    && forall f | 0 <= f < |factors| :: f in order
  }

  /** What a published interpretation holds: the nested loop in the planner's order
      and the exact counts of its rounds. */
  ghost predicate Published(program: Program, factors: seq<Factor>, order: seq<nat>, result: Interpretation) {
    var slotCount := |program.slotIds|;
    && Complete(factors, order) && Shaped(factors, slotCount)
    && (forall slot: nat | slot < slotCount :: Covers(factors, Elements(order), slot))
    && result.slotIds == program.slotIds
    && result.derivations == NestedLoop(factors, slotCount, order)
    && result.receipt.disposition == Verdict(result.derivations)
    && result.receipt.derivationCount == |result.derivations|
    && result.receipt.rejectedPairs + result.receipt.generatedStates == PairCount(factors, slotCount, order)
    && result.receipt.generatedStates == StateCount(factors, slotCount, order) <= program.maximumStates
    && result.receipt.peakFrontierStates == PeakCount(factors, slotCount, order)
    && result.receipt.comparisons <= program.maximumComparisons
    && result.receipt.completedFactorCount == |factors|
  }

  /** The entry point: validation, then the run.  `memory` says, for each number of
      states generated so far, whether the memory budget still has room. */
  method Execute(program: Program, factors: seq<Factor>, memory: nat -> bool)
    returns (status: Status, result: Option<Interpretation>, ghost order: seq<nat>, ghost run: JoinRun?)
    requires RowsComplete(factors)
    ensures result.Some? <==> status == Ok
    ensures status == Ok ==> ValidInput(program, factors) && Published(program, factors, order, result.value)
    ensures !ValidInput(program, factors) ==> status == InvalidArgument
    ensures status == InvalidArgument && ValidInput(program, factors) ==> !AllSlotsCovered(factors, |program.slotIds|)
    ensures status in {Ok, InvalidArgument, Exhausted, Range}
    ensures status == Exhausted && run == null ==> !memory(0)
    ensures status == Exhausted && run != null ==>
      run.comparisons == program.maximumComparisons || run.generatedStates == program.maximumStates || !memory(run.generatedStates)
    ensures status == Range ==> run != null && exists f | 0 <= f < |factors| :: run.rejectedPairs + |factors[f].rows| >= 0x1_0000_0000_0000_0000
    ensures Ample(program, factors, memory) && ValidInput(program, factors) ==>
      status == (if AllSlotsCovered(factors, |program.slotIds|) then Ok else InvalidArgument)
    ensures run != null ==> run.program == program && run.factors == factors && run.memory == memory
  {
    order, run := [], null;
    if !ValidInput(program, factors) {
      return InvalidArgument, None, order, run;
    }
    ValidIsShaped(program, factors);
    if !memory(0) {
      return Exhausted, None, order, run;
    }
    var joining := new JoinRun(program, factors, memory);
    status, result := joining.Execute();
    order, run := joining.order, joining;
    if Ample(program, factors, memory) {
      AmpleIsEnough(joining);
    }
    if status == Ok {
      CoveredAll(program, factors, order, result.value);
    }
    if status == InvalidArgument {
      ghost var slot: nat :| slot < |program.slotIds| && !Covers(factors, Elements(order), slot);
      CoverageOfAll(factors, order, slot);
    }
  }

  /** Budgets that no run over these factors can use up. */
  ghost predicate Ample(program: Program, factors: seq<Factor>, memory: nat -> bool) {
    var pairs := PairRoom(factors, |factors|);
    && CompareRoom(factors, |factors|) < program.maximumComparisons && pairs < program.maximumStates
    && pairs + MostRows(factors) <= UINT64_MAX && forall k: nat | k <= pairs :: memory(k)
  }

  lemma AmpleIsEnough(run: JoinRun)
    requires Ample(run.program, run.factors, run.memory)
    requires run.comparisons <= CompareRoom(run.factors, |run.factors|) && run.rejectedPairs + run.generatedStates <= PairRoom(run.factors, |run.factors|)
    ensures !run.Drained() && !run.Overfull()
  {
    forall f | 0 <= f < |run.factors|
      ensures run.rejectedPairs + |run.factors[f].rows| <= UINT64_MAX
    {
      MostBounds(run.factors, f);
    }
  }

  ghost predicate HasFactor(factors: seq<Factor>, slot: nat) {
    exists f | 0 <= f < |factors| :: slot in factors[f].slots
  }

  ghost predicate AllSlotsCovered(factors: seq<Factor>, slotCount: nat) {
    forall slot: nat | slot < slotCount :: HasFactor(factors, slot)
  }

  lemma CoveredAll(program: Program, factors: seq<Factor>, order: seq<nat>, result: Interpretation)
    requires Published(program, factors, order, result)
    ensures AllSlotsCovered(factors, |program.slotIds|)
  {
    forall slot: nat | slot < |program.slotIds|
      ensures HasFactor(factors, slot)
    {
      CoverageOfAll(factors, order, slot);
    }
  }

  lemma CoverageOfAll(factors: seq<Factor>, order: seq<nat>, slot: nat)
    requires Complete(factors, order)
    ensures Covers(factors, Elements(order), slot) <==> HasFactor(factors, slot)
  {
    if f :| 0 <= f < |factors| && slot in factors[f].slots {
      assert f in order;
      assert f in Elements(order);
    }
  }

  // ----- what a published interpretation means -----

  /** One row from each factor, all of them agreeing wherever their slots meet, and
      the values they assign. */
  ghost predicate Derivation(factors: seq<Factor>, slotCount: nat, st: State)
    requires Shaped(factors, slotCount)
  {
    && |st.values| == slotCount && |st.path| == |factors|
    && forall f | 0 <= f < |factors| :: Holds(factors[f], st.values, st.path[f])
  }

  lemma DerivationIsState(program: Program, factors: seq<Factor>, order: seq<nat>, result: Interpretation, st: State)
    requires Published(program, factors, order, result)
    ensures IsState(factors, |program.slotIds|, Elements(order), st) <==> Derivation(factors, |program.slotIds|, st)
  {
    assert forall f | 0 <= f < |factors| :: f in order && f in Elements(order);
  }

  /** A published result lists every compatible choice of rows exactly once and
      nothing else; no budget has cut it short. */
  lemma PublishedIsNaturalJoin(program: Program, factors: seq<Factor>, order: seq<nat>, result: Interpretation)
    requires Published(program, factors, order, result)
    ensures forall st :: st in result.derivations <==> Derivation(factors, |program.slotIds|, st)
    ensures Distinct(result.derivations)
    ensures Lexicographic(factors, |program.slotIds|, order, result.derivations)
  {
    forall st
      ensures st in result.derivations <==> Derivation(factors, |program.slotIds|, st)
    {
      DerivationIsState(program, factors, order, result, st);
      NestedLoopExact(factors, |program.slotIds|, order, st);
    }
    NestedLoopDistinct(factors, |program.slotIds|, order);
    NestedLoopLexicographic(factors, |program.slotIds|, order);
  }

  /** The disposition speaks about the relations, not about the plan. */
  lemma PublishedDisposition(program: Program, factors: seq<Factor>, order: seq<nat>, result: Interpretation)
    requires Published(program, factors, order, result)
    ensures var d, slotCount := result.receipt.disposition, |program.slotIds|;
      && (d == NoCompatibleBinding <==> forall st :: !Derivation(factors, slotCount, st))
      && (d == Unique <==>
            && (exists st :: Derivation(factors, slotCount, st))
            && (forall st, other | Derivation(factors, slotCount, st) && Derivation(factors, slotCount, other) :: st.values == other.values))
      && d != Unresolved
  {
    VerdictExact(factors, |program.slotIds|, order);
    forall st
      ensures IsState(factors, |program.slotIds|, Elements(order), st) <==> Derivation(factors, |program.slotIds|, st)
    {
      DerivationIsState(program, factors, order, result, st);
    }
  }

  /** Any other complete join order would have published the same derivations and
      the same disposition. */
  lemma PublishedOrderIrrelevant(program: Program, factors: seq<Factor>, order: seq<nat>, result: Interpretation, other: seq<nat>)
    requires Published(program, factors, order, result)
    requires ValidOrder(factors, other) && forall f | 0 <= f < |factors| :: f in other
    ensures multiset(result.derivations) == multiset(NestedLoop(factors, |program.slotIds|, other))
    ensures result.receipt.disposition == Verdict(NestedLoop(factors, |program.slotIds|, other))
  {
    assert Elements(order) == Elements(other);
    JoinOrderIrrelevant(factors, |program.slotIds|, order, other);
    VerdictOrderIrrelevant(factors, |program.slotIds|, order, other);
  }

  /** Looks a slot up in a published interpretation. */
  method ReadBinding(result: Interpretation, slotId: Digest) returns (status: Status, value: Id)
    requires forall i, j | 0 <= i < j < |result.slotIds| :: result.slotIds[i] < result.slotIds[j]
    requires result.receipt.disposition == Verdict(result.derivations)
    requires forall d | 0 <= d < |result.derivations| :: |result.derivations[d].values| == |result.slotIds|
    ensures status == NotUnique <==> Verdict(result.derivations) != Unique
    ensures status == InvalidArgument <==> Verdict(result.derivations) == Unique && slotId !in result.slotIds
    ensures status == Ok ==> exists slot | 0 <= slot < |result.slotIds| ::
      result.slotIds[slot] == slotId && forall d | 0 <= d < |result.derivations| :: result.derivations[d].values[slot] == value
    ensures status in {Ok, NotUnique, InvalidArgument}
  {
    if result.receipt.disposition != Unique {
      return NotUnique, 0;
    }
    var first, last := 0, |result.slotIds|;
    while first < last
      invariant 0 <= first <= last <= |result.slotIds|
      invariant forall i | 0 <= i < first :: result.slotIds[i] < slotId
      invariant forall i | last <= i < |result.slotIds| :: result.slotIds[i] >= slotId
    {
      var middle := first + (last - first) / 2;
      if result.slotIds[middle] < slotId {
        first := middle + 1;
      } else {
        last := middle;
      }
    }
    if first == |result.slotIds| || result.slotIds[first] != slotId {
      return InvalidArgument, 0;
    }
    return Ok, result.derivations[0].values[first];
  }

  // ----- the inputs that are accepted -----

  ghost predicate Rising(ids: seq<nat>) {
    forall i, j | 0 <= i < j < |ids| :: ids[i] < ids[j]
  }

  lemma {:induction false} RisingSteps(ids: seq<nat>, i: nat, j: nat)
    requires (forall k | 0 < k < |ids| :: ids[k - 1] < ids[k]) && i < j < |ids|
    ensures ids[i] < ids[j]
  {
    if i < j - 1 {
      RisingSteps(ids, i, j - 1);
    }
  }

  /** An accepted factor: slots in range, rising, and each row witnessed. */
  ghost predicate FactorLaw(factor: Factor, slotCount: nat) {
    && factor.id != 0 && factor.law != 0 && factor.slots != [] && Rising(factor.slots)
    && factor.slots[|factor.slots| - 1] < slotCount
    && forall r | 0 <= r < |factor.rows| ::
      factor.rows[r].observation != 0 && !(factor.rows[r].evidenceRoot == 0 && factor.rows[r].calculationReceipt == 0)
  }

  lemma {:induction false} RisingRoom(ids: seq<nat>, limit: nat)
    requires ids != [] && Rising(ids) && ids[|ids| - 1] < limit
    ensures |ids| <= limit
  {
    if |ids| > 1 {
      assert Rising(ids[..|ids| - 1]);
      RisingRoom(ids[..|ids| - 1], limit - 1);
    }
  }

  lemma FactorExactly(factor: Factor, slotCount: nat)
    ensures ValidFactor(factor, slotCount) <==> FactorLaw(factor, slotCount)
  {
    if ValidFactor(factor, slotCount) {
      forall i, j | 0 <= i < j < |factor.slots|
        ensures factor.slots[i] < factor.slots[j]
      {
        RisingSteps(factor.slots, i, j);
      }
    }
    if FactorLaw(factor, slotCount) {
      RisingRoom(factor.slots, slotCount);
      assert forall s | 0 <= s < |factor.slots| - 1 :: factor.slots[s] < factor.slots[|factor.slots| - 1];
    }
  }

  /** Accepted inputs: the present version, slots and factors each named once, in rising
      order and by nonzero digests, no digest or budget of the program zero, and every
      factor in order. */
  lemma InputExactly(program: Program, factors: seq<Factor>)
    ensures ValidInput(program, factors) <==>
      && program.version == 1 && program.reserved == 0
      && 0 !in [program.occurrence, program.world, program.time, program.context, program.authority, program.evidenceEpoch, program.boundary]
      && 0 !in [program.maximumComparisons, program.maximumStates, program.maximumMemoryBytes]
      && 1 <= |program.slotIds| < 0x1_0000_0000 && program.slotIds[0] != 0 && Rising(program.slotIds)
      && factors != [] && Rising(IdsOf(factors))
      && forall f | 0 <= f < |factors| :: FactorLaw(factors[f], |program.slotIds|)
  {
    hide FactorLaw, ValidFactor;
    forall f | 0 <= f < |factors|
      ensures ValidFactor(factors[f], |program.slotIds|) <==> FactorLaw(factors[f], |program.slotIds|)
    {
      FactorExactly(factors[f], |program.slotIds|);
    }
    var ids := IdsOf(factors);
    if ValidInput(program, factors) {
      forall i, j | 0 <= i < j < |program.slotIds|
        ensures program.slotIds[i] < program.slotIds[j]
      {
        RisingSteps(program.slotIds, i, j);
      }
      forall i, j | 0 <= i < j < |ids|
        ensures ids[i] < ids[j]
      {
        assert forall k | 0 < k < |ids| :: ids[k - 1] < ids[k];
        RisingSteps(ids, i, j);
      }
    } else if Rising(ids) {
      assert forall f | 0 < f < |factors| :: ids[f - 1] < ids[f];
    }
  }

  ghost function IdsOf(factors: seq<Factor>): (ids: seq<nat>)
    ensures |ids| == |factors| && forall f | 0 <= f < |factors| :: ids[f] == factors[f].id
  {
    seq(|factors|, f requires 0 <= f < |factors| => factors[f].id)
  }
}
