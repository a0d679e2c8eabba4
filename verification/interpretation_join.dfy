/** The natural join that binds the slots of an interpretation.

    A factor is a relation over some of the slots.  A state of the join has chosen
    one row from each factor joined so far.  This module defines the join twice:
    as the plain nested loop over the factors in a given order, and, without any
    order, by what a state has to satisfy; and it proves that the two agree. */
module InterpretationJoin {

  /* Sixteen-byte identities and thirty-two-byte digests are compared byte by byte
     from the front, which is the order of the big-endian numbers they spell. */
  type Id = nat
  type Digest = nat

  datatype Row = Row(values: seq<Id>, observation: Digest, evidenceRoot: Digest, calculationReceipt: Digest)

  datatype Factor = Factor(id: Digest, law: Digest, slots: seq<nat>, rows: seq<Row>)

  datatype State = State(values: seq<Id>, path: seq<nat>)

  const UINT64_MAX: nat := 0xFFFF_FFFF_FFFF_FFFF
  const UNSELECTED: nat := UINT64_MAX

  /** Slots of a factor are strictly increasing and in range, and each row carries
      one value for each of them. */
  ghost predicate Shaped(factors: seq<Factor>, slotCount: nat) {
    forall f | 0 <= f < |factors| :: ShapedFactor(factors[f], slotCount)
  }

  ghost predicate ShapedFactor(factor: Factor, slotCount: nat) {
    && (forall s | 0 <= s < |factor.slots| :: factor.slots[s] < slotCount)
    && (forall s, t | 0 <= s < t < |factor.slots| :: factor.slots[s] < factor.slots[t])
    && (forall r | 0 <= r < |factor.rows| :: |factor.rows[r].values| == |factor.slots|)
  }

  // ----- what a state has to satisfy, whatever the order of the factors -----

  ghost function Elements(order: seq<nat>): (done: set<nat>)
    ensures forall f :: f in done <==> f in order
  {
    set f | f in order
  }

  ghost predicate Covers(factors: seq<Factor>, done: set<nat>, slot: nat) {
    exists f | f in done :: f < |factors| && slot in factors[f].slots
  }

  /** Row r of the factor assigns to its slots exactly the given values. */
  ghost predicate Holds(factor: Factor, values: seq<Id>, r: nat)
    requires ShapedFactor(factor, |values|)
  {
    && r < |factor.rows|
    && forall s | 0 <= s < |factor.slots| :: values[factor.slots[s]] == factor.rows[r].values[s]
  }

  /** One row is chosen from each done factor, all choices agree wherever their
      slots meet, and everything else is still unassigned. */
  ghost predicate IsState(factors: seq<Factor>, slotCount: nat, done: set<nat>, st: State)
    requires Shaped(factors, slotCount)
  {
    && |st.values| == slotCount && |st.path| == |factors|
    && (forall f | 0 <= f < |factors| && f in done :: Holds(factors[f], st.values, st.path[f]))
    && (forall f | 0 <= f < |factors| && f !in done :: st.path[f] == UNSELECTED)
    && (forall slot | 0 <= slot < slotCount && !Covers(factors, done, slot) :: st.values[slot] == 0)
  }

  // ----- the nested loop -----

  /** The row agrees with the state on every slot that is already bound. */
  ghost predicate Matches(factors: seq<Factor>, done: set<nat>, f: nat, values: seq<Id>, r: nat)
    requires f < |factors| && Shaped(factors, |values|) && r < |factors[f].rows|
  {
    forall s | 0 <= s < |factors[f].slots| && Covers(factors, done, factors[f].slots[s]) ::
      factors[f].rows[r].values[s] == values[factors[f].slots[s]]
  }

  ghost function MatchingRows(factors: seq<Factor>, done: set<nat>, f: nat, values: seq<Id>, n: nat): (rows: seq<nat>)
    requires f < |factors| && Shaped(factors, |values|) && n <= |factors[f].rows|
    ensures forall i | 0 <= i < |rows| :: rows[i] < n && Matches(factors, done, f, values, rows[i])
    ensures forall r | 0 <= r < n && Matches(factors, done, f, values, r) :: r in rows
    ensures forall i, j | 0 <= i < j < |rows| :: rows[i] < rows[j]
  {
    if n == 0 then []
    else
      var before := MatchingRows(factors, done, f, values, n - 1);
      if Matches(factors, done, f, values, n - 1) then before + [n - 1] else before
  }

  function Assign(values: seq<Id>, slots: seq<nat>, row: seq<Id>, n: nat): (r: seq<Id>)
    requires n <= |slots| && |row| == |slots|
    requires forall s | 0 <= s < |slots| :: slots[s] < |values|
    ensures |r| == |values|
  {
    if n == 0 then values else Assign(values, slots, row, n - 1)[slots[n - 1] := row[n - 1]]
  }

  lemma {:induction false} AssignAt(values: seq<Id>, slots: seq<nat>, row: seq<Id>, n: nat)
    requires n <= |slots| && |row| == |slots|
    requires forall s | 0 <= s < |slots| :: slots[s] < |values|
    requires forall s, t | 0 <= s < t < |slots| :: slots[s] < slots[t]
    ensures forall s | 0 <= s < n :: Assign(values, slots, row, n)[slots[s]] == row[s]
    ensures forall x | 0 <= x < |values| && x !in slots[..n] :: Assign(values, slots, row, n)[x] == values[x]
  {
    if n > 0 {
      AssignAt(values, slots, row, n - 1);
      assert slots[..n] == slots[..n - 1] + [slots[n - 1]];
    }
  }

  function Extend(st: State, factor: Factor, f: nat, r: nat): (next: State)
    requires f < |st.path| && r < |factor.rows| && |factor.rows[r].values| == |factor.slots|
    requires forall s | 0 <= s < |factor.slots| :: factor.slots[s] < |st.values|
    ensures |next.values| == |st.values| && |next.path| == |st.path|
  {
    State(Assign(st.values, factor.slots, factor.rows[r].values, |factor.slots|), st.path[f := r])
  }

  ghost predicate Sized(factors: seq<Factor>, slotCount: nat, states: seq<State>) {
    forall i | 0 <= i < |states| :: |states[i].values| == slotCount && |states[i].path| == |factors|
  }

  /** All extensions of one state by the rows listed, in the order listed. */
  ghost function ExtendBy(factors: seq<Factor>, slotCount: nat, f: nat, st: State, rows: seq<nat>): (next: seq<State>)
    requires f < |factors| && Shaped(factors, slotCount) && |st.values| == slotCount && |st.path| == |factors|
    requires forall i | 0 <= i < |rows| :: rows[i] < |factors[f].rows|
    ensures |next| == |rows| && Sized(factors, slotCount, next)
    ensures forall i | 0 <= i < |rows| :: next[i] == Extend(st, factors[f], f, rows[i])
  {
    seq(|rows|, i requires 0 <= i < |rows| => Extend(st, factors[f], f, rows[i]))
  }

  /** The inner loop: the first k states, each extended by its matching rows. */
  ghost function JoinStep(factors: seq<Factor>, slotCount: nat, done: set<nat>, f: nat, states: seq<State>, k: nat): (next: seq<State>)
    requires f < |factors| && Shaped(factors, slotCount) && Sized(factors, slotCount, states) && k <= |states|
    ensures Sized(factors, slotCount, next)
  {
    if k == 0 then []
    else
      var st := states[k - 1];
      JoinStep(factors, slotCount, done, f, states, k - 1) +
      ExtendBy(factors, slotCount, f, st, MatchingRows(factors, done, f, st.values, |factors[f].rows|))
  }

  ghost predicate ValidOrder(factors: seq<Factor>, order: seq<nat>) {
    && (forall i | 0 <= i < |order| :: order[i] < |factors|)
    && (forall i, j | 0 <= i < j < |order| :: order[i] != order[j])
  }

  function InitialState(factors: seq<Factor>, slotCount: nat): State {
    State(seq(slotCount, _ => 0), seq(|factors|, _ => UNSELECTED))
  }

  ghost function NestedLoop(factors: seq<Factor>, slotCount: nat, order: seq<nat>): (states: seq<State>)
    requires Shaped(factors, slotCount) && ValidOrder(factors, order)
    ensures Sized(factors, slotCount, states)
    decreases |order|
  {
    if order == [] then [InitialState(factors, slotCount)]
    else
      var before := order[..|order| - 1];
      var states := NestedLoop(factors, slotCount, before);
      JoinStep(factors, slotCount, Elements(before), order[|order| - 1], states, |states|)
  }

  // ----- the nested loop yields exactly the states -----

  /** st extends one of the first k states by a row that matches it. */
  ghost predicate Extends(factors: seq<Factor>, slotCount: nat, done: set<nat>, f: nat, states: seq<State>, k: nat, st: State)
    requires f < |factors| && Shaped(factors, slotCount) && Sized(factors, slotCount, states) && k <= |states|
  {
    exists i, r | 0 <= i < k && 0 <= r < |factors[f].rows| ::
      Matches(factors, done, f, states[i].values, r) && st == Extend(states[i], factors[f], f, r)
  }

  lemma BlockMembers(factors: seq<Factor>, slotCount: nat, done: set<nat>, f: nat, base: State, st: State)
    requires f < |factors| && Shaped(factors, slotCount) && |base.values| == slotCount && |base.path| == |factors|
    ensures var rows := MatchingRows(factors, done, f, base.values, |factors[f].rows|);
      st in ExtendBy(factors, slotCount, f, base, rows) <==>
      exists r | 0 <= r < |factors[f].rows| ::
        Matches(factors, done, f, base.values, r) && st == Extend(base, factors[f], f, r)
  {
    var rows := MatchingRows(factors, done, f, base.values, |factors[f].rows|);
    var block := ExtendBy(factors, slotCount, f, base, rows);
    if st in block {
      var i :| 0 <= i < |block| && block[i] == st;
      assert Matches(factors, done, f, base.values, rows[i]);
    }
    if r :| 0 <= r < |factors[f].rows| && Matches(factors, done, f, base.values, r) && st == Extend(base, factors[f], f, r) {
      var i :| 0 <= i < |rows| && rows[i] == r;
      assert block[i] == st;
    }
  }

  lemma {:induction false} JoinStepMembers(factors: seq<Factor>, slotCount: nat, done: set<nat>, f: nat, states: seq<State>, k: nat, st: State)
    requires f < |factors| && Shaped(factors, slotCount) && Sized(factors, slotCount, states) && k <= |states|
    ensures st in JoinStep(factors, slotCount, done, f, states, k) <==> Extends(factors, slotCount, done, f, states, k, st)
  {
    if k > 0 {
      JoinStepMembers(factors, slotCount, done, f, states, k - 1, st);
      BlockMembers(factors, slotCount, done, f, states[k - 1], st);
    }
  }

  lemma ExtendIsState(factors: seq<Factor>, slotCount: nat, done: set<nat>, f: nat, st: State, r: nat)
    requires f < |factors| && Shaped(factors, slotCount) && f !in done
    requires IsState(factors, slotCount, done, st)
    requires r < |factors[f].rows| && Matches(factors, done, f, st.values, r)
    ensures IsState(factors, slotCount, done + {f}, Extend(st, factors[f], f, r))
  {
    var factor := factors[f];
    var next := Extend(st, factor, f, r);
    AssignAt(st.values, factor.slots, factor.rows[r].values, |factor.slots|);
    assert factor.slots[..|factor.slots|] == factor.slots;
    forall g | 0 <= g < |factors| && g in done + {f}
      ensures Holds(factors[g], next.values, next.path[g])
    {
      if g != f {
        assert Holds(factors[g], st.values, st.path[g]);
        forall s | 0 <= s < |factors[g].slots|
          ensures next.values[factors[g].slots[s]] == factors[g].rows[st.path[g]].values[s]
        {
          var slot := factors[g].slots[s];
          assert Covers(factors, done, slot);
          if slot in factor.slots {
            var t :| 0 <= t < |factor.slots| && factor.slots[t] == slot;
          }
        }
      }
    }
    forall slot | 0 <= slot < slotCount && !Covers(factors, done + {f}, slot)
      ensures next.values[slot] == 0
    {
      assert !Covers(factors, done, slot);
      assert slot !in factor.slots;
    }
  }

  ghost function Restrict(factors: seq<Factor>, done: set<nat>, f: nat, st: State): State
    requires f < |st.path|
  {
    State(seq(|st.values|, i requires 0 <= i < |st.values| => if Covers(factors, done, i) then st.values[i] else 0),
          st.path[f := UNSELECTED])
  }

  lemma RestrictIsState(factors: seq<Factor>, slotCount: nat, done: set<nat>, f: nat, st: State)
    requires f < |factors| && Shaped(factors, slotCount) && f !in done
    requires IsState(factors, slotCount, done + {f}, st)
    ensures var before := Restrict(factors, done, f, st);
      && IsState(factors, slotCount, done, before)
      && st.path[f] < |factors[f].rows|
      && Matches(factors, done, f, before.values, st.path[f])
      && Extend(before, factors[f], f, st.path[f]) == st
  {
    var factor := factors[f];
    var before := Restrict(factors, done, f, st);
    assert Holds(factor, st.values, st.path[f]);
    forall g | 0 <= g < |factors| && g in done
      ensures Holds(factors[g], before.values, before.path[g])
    {
      assert Holds(factors[g], st.values, st.path[g]);
      forall s | 0 <= s < |factors[g].slots|
        ensures before.values[factors[g].slots[s]] == st.values[factors[g].slots[s]]
      {
        assert Covers(factors, done, factors[g].slots[s]);
      }
    }
    AssignAt(before.values, factor.slots, factor.rows[st.path[f]].values, |factor.slots|);
    assert factor.slots[..|factor.slots|] == factor.slots;
    var again := Extend(before, factor, f, st.path[f]);
    forall x | 0 <= x < slotCount
      ensures again.values[x] == st.values[x]
    {
      if x in factor.slots {
        var s :| 0 <= s < |factor.slots| && factor.slots[s] == x;
      } else if !Covers(factors, done, x) {
        assert !Covers(factors, done + {f}, x);
      }
    }
    assert again.values == st.values;
    assert again.path == st.path;
  }

  lemma StepSound(factors: seq<Factor>, slotCount: nat, before: seq<nat>, f: nat, states: seq<State>, st: State)
    requires f < |factors| && Shaped(factors, slotCount) && f !in before && Sized(factors, slotCount, states)
    requires forall i | 0 <= i < |states| :: IsState(factors, slotCount, Elements(before), states[i])
    requires st in JoinStep(factors, slotCount, Elements(before), f, states, |states|)
    ensures IsState(factors, slotCount, Elements(before) + {f}, st)
  {
    var done := Elements(before);
    JoinStepMembers(factors, slotCount, done, f, states, |states|, st);
    var i, r :| 0 <= i < |states| && 0 <= r < |factors[f].rows| &&
      Matches(factors, done, f, states[i].values, r) && st == Extend(states[i], factors[f], f, r);
    ExtendIsState(factors, slotCount, done, f, states[i], r);
  }

  lemma StepComplete(factors: seq<Factor>, slotCount: nat, before: seq<nat>, f: nat, states: seq<State>, st: State)
    requires f < |factors| && Shaped(factors, slotCount) && f !in before && Sized(factors, slotCount, states)
    requires IsState(factors, slotCount, Elements(before) + {f}, st)
    requires Restrict(factors, Elements(before), f, st) in states
    ensures st in JoinStep(factors, slotCount, Elements(before), f, states, |states|)
  {
    var done := Elements(before);
    var base := Restrict(factors, done, f, st);
    RestrictIsState(factors, slotCount, done, f, st);
    JoinStepMembers(factors, slotCount, done, f, states, |states|, st);
    var i :| 0 <= i < |states| && states[i] == base;
    assert Extend(states[i], factors[f], f, st.path[f]) == st;
  }

  lemma LastElement(factors: seq<Factor>, order: seq<nat>)
    requires ValidOrder(factors, order) && order != []
    ensures var before, f := order[..|order| - 1], order[|order| - 1];
      && ValidOrder(factors, before) && f !in before && f < |factors|
      && order == before + [f] && Elements(order) == Elements(before) + {f}
  {
    var before, f := order[..|order| - 1], order[|order| - 1];
    assert order == before + [f];
  }

  lemma {:induction false} NestedLoopSound(factors: seq<Factor>, slotCount: nat, order: seq<nat>, st: State)
    requires Shaped(factors, slotCount) && ValidOrder(factors, order)
    requires st in NestedLoop(factors, slotCount, order)
    ensures IsState(factors, slotCount, Elements(order), st)
    decreases |order|
  {
    if order == [] {
      assert Elements(order) == {};
    } else {
      var before, f := order[..|order| - 1], order[|order| - 1];
      LastElement(factors, order);
      var states := NestedLoop(factors, slotCount, before);
      forall i | 0 <= i < |states|
        ensures IsState(factors, slotCount, Elements(before), states[i])
      {
        NestedLoopSound(factors, slotCount, before, states[i]);
      }
      StepSound(factors, slotCount, before, f, states, st);
    }
  }

  lemma {:induction false} NestedLoopComplete(factors: seq<Factor>, slotCount: nat, order: seq<nat>, st: State)
    requires Shaped(factors, slotCount) && ValidOrder(factors, order)
    requires IsState(factors, slotCount, Elements(order), st)
    ensures st in NestedLoop(factors, slotCount, order)
    decreases |order|
  {
    if order == [] {
      var initial := InitialState(factors, slotCount);
      assert forall slot | 0 <= slot < slotCount :: !Covers(factors, Elements(order), slot);
      assert st.values == initial.values && st.path == initial.path;
    } else {
      var before, f := order[..|order| - 1], order[|order| - 1];
      LastElement(factors, order);
      RestrictIsState(factors, slotCount, Elements(before), f, st);
      NestedLoopComplete(factors, slotCount, before, Restrict(factors, Elements(before), f, st));
      StepComplete(factors, slotCount, before, f, NestedLoop(factors, slotCount, before), st);
    }
  }

  /** A state is reached by the nested loop exactly when it satisfies the factors
      joined so far. */
  lemma NestedLoopExact(factors: seq<Factor>, slotCount: nat, order: seq<nat>, st: State)
    requires Shaped(factors, slotCount) && ValidOrder(factors, order)
    ensures st in NestedLoop(factors, slotCount, order) <==> IsState(factors, slotCount, Elements(order), st)
  {
    if st in NestedLoop(factors, slotCount, order) {
      NestedLoopSound(factors, slotCount, order, st);
    }
    if IsState(factors, slotCount, Elements(order), st) {
      NestedLoopComplete(factors, slotCount, order, st);
    }
  }

  // ----- in lexicographic order, hence each state once -----

  ghost predicate PathLess(order: seq<nat>, p: seq<nat>, q: seq<nat>)
    requires |p| == |q| && forall i | 0 <= i < |order| :: order[i] < |p|
  {
    exists k | 0 <= k < |order| ::
      p[order[k]] < q[order[k]] && forall j | 0 <= j < k :: p[order[j]] == q[order[j]]
  }

  ghost predicate Lexicographic(factors: seq<Factor>, slotCount: nat, order: seq<nat>, states: seq<State>)
    requires ValidOrder(factors, order) && Sized(factors, slotCount, states)
  {
    forall a, b | 0 <= a < b < |states| :: PathLess(order, states[a].path, states[b].path)
  }

  lemma ExtendKeepsLess(order: seq<nat>, f: nat, p: seq<nat>, q: seq<nat>, rp: nat, rq: nat)
    requires |p| == |q| && f < |p|
    requires forall i | 0 <= i < |order| :: order[i] < |p| && order[i] != f
    requires PathLess(order, p, q)
    ensures PathLess(order + [f], p[f := rp], q[f := rq])
  {
    var k :| 0 <= k < |order| && p[order[k]] < q[order[k]] && forall j | 0 <= j < k :: p[order[j]] == q[order[j]];
    var longer := order + [f];
    assert longer[k] == order[k];
    assert forall j | 0 <= j < k :: longer[j] == order[j];
  }

  lemma ExtendSplitsTie(order: seq<nat>, f: nat, p: seq<nat>, rp: nat, rq: nat)
    requires f < |p| && rp < rq
    requires forall i | 0 <= i < |order| :: order[i] < |p| && order[i] != f
    ensures PathLess(order + [f], p[f := rp], p[f := rq])
  {
    var longer, k := order + [f], |order|;
    assert longer[k] == f;
    assert forall j | 0 <= j < k :: longer[j] == order[j];
  }

  /** Rows that extend an earlier state come before rows that extend a later one. */
  lemma EarlierBlockLess(factors: seq<Factor>, slotCount: nat, before: seq<nat>, f: nat, states: seq<State>, k: nat, st: State, r: nat)
    requires f < |factors| && Shaped(factors, slotCount) && Sized(factors, slotCount, states) && k < |states|
    requires ValidOrder(factors, before) && f !in before
    requires Lexicographic(factors, slotCount, before, states)
    requires st in JoinStep(factors, slotCount, Elements(before), f, states, k) && r < |factors[f].rows|
    ensures |st.path| == |factors|
    ensures PathLess(before + [f], st.path, Extend(states[k], factors[f], f, r).path)
  {
    var done := Elements(before);
    JoinStepMembers(factors, slotCount, done, f, states, k, st);
    var i, s :| 0 <= i < k && 0 <= s < |factors[f].rows| &&
      Matches(factors, done, f, states[i].values, s) && st == Extend(states[i], factors[f], f, s);
    ExtendKeepsLess(before, f, states[i].path, states[k].path, s, r);
  }

  lemma BlockLexicographic(factors: seq<Factor>, slotCount: nat, before: seq<nat>, f: nat, base: State, rows: seq<nat>)
    requires f < |factors| && Shaped(factors, slotCount) && |base.values| == slotCount && |base.path| == |factors|
    requires ValidOrder(factors, before) && ValidOrder(factors, before + [f]) && f !in before
    requires forall i | 0 <= i < |rows| :: rows[i] < |factors[f].rows|
    requires forall i, j | 0 <= i < j < |rows| :: rows[i] < rows[j]
    ensures Lexicographic(factors, slotCount, before + [f], ExtendBy(factors, slotCount, f, base, rows))
  {
    var block := ExtendBy(factors, slotCount, f, base, rows);
    forall a, b | 0 <= a < b < |block|
      ensures PathLess(before + [f], block[a].path, block[b].path)
    {
      ExtendSplitsTie(before, f, base.path, rows[a], rows[b]);
    }
  }

  lemma LexicographicAppend(factors: seq<Factor>, slotCount: nat, order: seq<nat>, first: seq<State>, second: seq<State>)
    requires ValidOrder(factors, order) && Sized(factors, slotCount, first) && Sized(factors, slotCount, second)
    requires Lexicographic(factors, slotCount, order, first) && Lexicographic(factors, slotCount, order, second)
    requires forall a, b | 0 <= a < |first| && 0 <= b < |second| :: PathLess(order, first[a].path, second[b].path)
    ensures Lexicographic(factors, slotCount, order, first + second)
  {
    var all := first + second;
    forall a, b | 0 <= a < b < |all|
      ensures PathLess(order, all[a].path, all[b].path)
    {
      if a < |first| <= b {
        assert all[a] == first[a] && all[b] == second[b - |first|];
      }
    }
  }

  lemma {:induction false} JoinStepLexicographic(factors: seq<Factor>, slotCount: nat, before: seq<nat>, f: nat, states: seq<State>, k: nat)
    requires f < |factors| && Shaped(factors, slotCount) && Sized(factors, slotCount, states) && k <= |states|
    requires ValidOrder(factors, before + [f]) && ValidOrder(factors, before) && f !in before
    requires Lexicographic(factors, slotCount, before, states)
    ensures Lexicographic(factors, slotCount, before + [f], JoinStep(factors, slotCount, Elements(before), f, states, k))
  {
    if k > 0 {
      var done := Elements(before);
      var first := JoinStep(factors, slotCount, done, f, states, k - 1);
      var rows := MatchingRows(factors, done, f, states[k - 1].values, |factors[f].rows|);
      var block := ExtendBy(factors, slotCount, f, states[k - 1], rows);
      JoinStepLexicographic(factors, slotCount, before, f, states, k - 1);
      BlockLexicographic(factors, slotCount, before, f, states[k - 1], rows);
      forall a, b | 0 <= a < |first| && 0 <= b < |block|
        ensures PathLess(before + [f], first[a].path, block[b].path)
      {
        EarlierBlockLess(factors, slotCount, before, f, states, k - 1, first[a], rows[b]);
      }
      LexicographicAppend(factors, slotCount, before + [f], first, block);
    }
  }

  /** The nested loop lists its states in the lexicographic order of the chosen
      rows, factor by factor in join order. */
  lemma {:induction false} NestedLoopLexicographic(factors: seq<Factor>, slotCount: nat, order: seq<nat>)
    requires Shaped(factors, slotCount) && ValidOrder(factors, order)
    ensures Lexicographic(factors, slotCount, order, NestedLoop(factors, slotCount, order))
    decreases |order|
  {
    if order != [] {
      var before, f := order[..|order| - 1], order[|order| - 1];
      assert order == before + [f];
      NestedLoopLexicographic(factors, slotCount, before);
      var states := NestedLoop(factors, slotCount, before);
      JoinStepLexicographic(factors, slotCount, before, f, states, |states|);
    }
  }

  // ----- the order of the factors does not matter -----

  ghost predicate Distinct<T>(s: seq<T>) {
    forall i, j | 0 <= i < j < |s| :: s[i] != s[j]
  }

  lemma {:induction false} DistinctMultiset<T>(s: seq<T>)
    requires Distinct(s)
    ensures forall x :: multiset(s)[x] == if x in s then 1 else 0
  {
    if s != [] {
      var rest := s[..|s| - 1];
      assert s == rest + [s[|s| - 1]];
      DistinctMultiset(rest);
    }
  }

  lemma SameMultiset<T>(left: seq<T>, right: seq<T>)
    requires Distinct(left) && Distinct(right)
    requires forall x :: x in left <==> x in right
    ensures multiset(left) == multiset(right)
  {
    DistinctMultiset(left);
    DistinctMultiset(right);
    assert forall x :: multiset(left)[x] == multiset(right)[x];
  }

  lemma NestedLoopDistinct(factors: seq<Factor>, slotCount: nat, order: seq<nat>)
    requires Shaped(factors, slotCount) && ValidOrder(factors, order)
    ensures Distinct(NestedLoop(factors, slotCount, order))
  {
    var states := NestedLoop(factors, slotCount, order);
    NestedLoopLexicographic(factors, slotCount, order);
    forall i, j | 0 <= i < j < |states|
      ensures states[i] != states[j]
    {
      assert PathLess(order, states[i].path, states[j].path);
    }
  }

  lemma SameMembers(factors: seq<Factor>, slotCount: nat, order: seq<nat>, other: seq<nat>)
    requires Shaped(factors, slotCount) && ValidOrder(factors, order) && ValidOrder(factors, other)
    requires Elements(order) == Elements(other)
    ensures forall st :: st in NestedLoop(factors, slotCount, order) <==> st in NestedLoop(factors, slotCount, other)
  {
    forall st
      ensures st in NestedLoop(factors, slotCount, order) <==> st in NestedLoop(factors, slotCount, other)
    {
      NestedLoopExact(factors, slotCount, order, st);
      NestedLoopExact(factors, slotCount, other, st);
    }
  }

  /** Joining the same factors in two orders yields the same derivations, each
      exactly once. */
  lemma JoinOrderIrrelevant(factors: seq<Factor>, slotCount: nat, order: seq<nat>, other: seq<nat>)
    requires Shaped(factors, slotCount) && ValidOrder(factors, order) && ValidOrder(factors, other)
    requires Elements(order) == Elements(other)
    ensures multiset(NestedLoop(factors, slotCount, order)) == multiset(NestedLoop(factors, slotCount, other))
  {
    var left, right := NestedLoop(factors, slotCount, order), NestedLoop(factors, slotCount, other);
    NestedLoopDistinct(factors, slotCount, order);
    NestedLoopDistinct(factors, slotCount, other);
    SameMembers(factors, slotCount, order, other);
    SameMultiset(left, right);
  }

  datatype Disposition = Unresolved | Unique | Ambiguous | NoCompatibleBinding

  /** What a complete list of derivations says about the bindings. */
  ghost function Verdict(states: seq<State>): Disposition {
    if states == [] then NoCompatibleBinding
    else if forall i, j | 0 <= i < |states| && 0 <= j < |states| :: states[i].values == states[j].values then Unique
    else Ambiguous
  }

  lemma VerdictOfMultiset(left: seq<State>, right: seq<State>)
    requires multiset(left) == multiset(right)
    ensures Verdict(left) == Verdict(right)
  {
    assert |left| == |multiset(left)| == |multiset(right)| == |right|;
    assert forall st :: st in left <==> st in multiset(left);
    assert forall st :: st in right <==> st in multiset(right);
    assert forall i | 0 <= i < |left| :: left[i] in right;
    assert forall i | 0 <= i < |right| :: right[i] in left;
  }

  /** The verdict is a property of the relations alone: some compatible choice of
      rows exists, and all of them bind the same values. */
  lemma VerdictExact(factors: seq<Factor>, slotCount: nat, order: seq<nat>)
    requires Shaped(factors, slotCount) && ValidOrder(factors, order)
    ensures var done, verdict := Elements(order), Verdict(NestedLoop(factors, slotCount, order));
      && (verdict == NoCompatibleBinding <==> forall st :: !IsState(factors, slotCount, done, st))
      && (verdict == Unique <==>
            && (exists st :: IsState(factors, slotCount, done, st))
            && (forall st, other | IsState(factors, slotCount, done, st) && IsState(factors, slotCount, done, other) ::
                  st.values == other.values))
  {
    var done, states := Elements(order), NestedLoop(factors, slotCount, order);
    forall st
      ensures st in states <==> IsState(factors, slotCount, done, st)
    {
      NestedLoopExact(factors, slotCount, order, st);
    }
    if states != [] {
      assert IsState(factors, slotCount, done, states[0]) by { assert states[0] in states; }
      if Verdict(states) == Unique {
        forall st, other | IsState(factors, slotCount, done, st) && IsState(factors, slotCount, done, other)
          ensures st.values == other.values
        {
          assert st in states && other in states;
        }
      } else {
        var i, j :| 0 <= i < |states| && 0 <= j < |states| && states[i].values != states[j].values;
        assert states[i] in states && states[j] in states;
      }
    }
  }

  lemma VerdictOrderIrrelevant(factors: seq<Factor>, slotCount: nat, order: seq<nat>, other: seq<nat>)
    requires Shaped(factors, slotCount) && ValidOrder(factors, order) && ValidOrder(factors, other)
    requires Elements(order) == Elements(other)
    ensures Verdict(NestedLoop(factors, slotCount, order)) == Verdict(NestedLoop(factors, slotCount, other))
  {
    JoinOrderIrrelevant(factors, slotCount, order, other);
    VerdictOfMultiset(NestedLoop(factors, slotCount, order), NestedLoop(factors, slotCount, other));
  }

  // ----- accounting -----

  /** Pairs of a state and a row considered by the rounds of the join. */
  ghost function PairCount(factors: seq<Factor>, slotCount: nat, order: seq<nat>): nat
    requires Shaped(factors, slotCount) && ValidOrder(factors, order)
    decreases |order|
  {
    if order == [] then 0
    else
      var before := order[..|order| - 1];
      PairCount(factors, slotCount, before) +
      |NestedLoop(factors, slotCount, before)| * |factors[order[|order| - 1]].rows|
  }

  /** States produced by the rounds of the join. */
  ghost function StateCount(factors: seq<Factor>, slotCount: nat, order: seq<nat>): nat
    requires Shaped(factors, slotCount) && ValidOrder(factors, order)
    decreases |order|
  {
    if order == [] then 0
    else StateCount(factors, slotCount, order[..|order| - 1]) + |NestedLoop(factors, slotCount, order)|
  }

  /** The widest frontier, counting the initial state. */
  ghost function PeakCount(factors: seq<Factor>, slotCount: nat, order: seq<nat>): nat
    requires Shaped(factors, slotCount) && ValidOrder(factors, order)
    decreases |order|
  {
    if order == [] then 1
    else
      var before, now := PeakCount(factors, slotCount, order[..|order| - 1]), |NestedLoop(factors, slotCount, order)|;
      if before < now then now else before
  }

  // ----- the greedy choice avoids cross products -----

  /** How many slots of the factor are already covered, among the first n. */
  ghost function SharedCount(factors: seq<Factor>, done: set<nat>, f: nat, n: nat): (count: nat)
    requires f < |factors| && n <= |factors[f].slots|
    ensures count > 0 <==> exists s | 0 <= s < n :: Covers(factors, done, factors[f].slots[s])
  {
    if n == 0 then 0
    else SharedCount(factors, done, f, n - 1) + if Covers(factors, done, factors[f].slots[n - 1]) then 1 else 0
  }

  ghost function Shared(factors: seq<Factor>, done: set<nat>, f: nat): nat
    requires f < |factors|
  {
    SharedCount(factors, done, f, |factors[f].slots|)
  }

  /** f shares most slots with the factors done, has fewest rows among those that
      do, and is the first of those. */
  ghost predicate Greediest(factors: seq<Factor>, done: set<nat>, f: nat, limit: nat)
    requires limit <= |factors|
  {
    && f < limit && f !in done
    && forall g | 0 <= g < limit && g !in done ::
         || Shared(factors, done, g) < Shared(factors, done, f)
         || (Shared(factors, done, g) == Shared(factors, done, f) &&
             (|factors[g].rows| > |factors[f].rows| || (|factors[g].rows| == |factors[f].rows| && f <= g)))
  }

  ghost predicate GreedyOrder(factors: seq<Factor>, order: seq<nat>) {
    forall k | 0 <= k < |order| :: Greediest(factors, Elements(order[..k]), order[k], |factors|)
  }

  ghost predicate Adjacent(factors: seq<Factor>, f: nat, g: nat)
    requires f < |factors| && g < |factors|
  {
    exists slot: nat :: slot in factors[f].slots && slot in factors[g].slots
  }

  ghost predicate Route(factors: seq<Factor>, route: seq<nat>) {
    && route != []
    && (forall i | 0 <= i < |route| :: route[i] < |factors|)
    && (forall i | 0 <= i < |route| - 1 :: Adjacent(factors, route[i], route[i + 1]))
  }

  ghost predicate Linked(factors: seq<Factor>, f: nat, g: nat) {
    exists route :: Route(factors, route) && route[0] == f && route[|route| - 1] == g
  }

  /** Any two factors are linked by factors that pairwise share a slot. */
  ghost predicate Connected(factors: seq<Factor>) {
    forall f, g | 0 <= f < |factors| && 0 <= g < |factors| :: Linked(factors, f, g)
  }

  lemma {:induction false} RouteCrosses(factors: seq<Factor>, done: set<nat>, route: seq<nat>) returns (f: nat, g: nat)
    requires Route(factors, route) && route[0] in done && route[|route| - 1] !in done
    ensures f < |factors| && g < |factors| && f in done && g !in done && Adjacent(factors, f, g)
    decreases |route|
  {
    assert Adjacent(factors, route[0], route[1]);
    if route[1] !in done {
      f, g := route[0], route[1];
    } else {
      var rest := route[1..];
      forall i | 0 <= i < |rest| - 1
        ensures Adjacent(factors, rest[i], rest[i + 1])
      {
        assert rest[i] == route[i + 1] && rest[i + 1] == route[i + 1 + 1];
      }
      f, g := RouteCrosses(factors, done, rest);
    }
  }

  lemma SharesCoveredSlot(factors: seq<Factor>, done: set<nat>, f: nat, g: nat)
    requires f < |factors| && g < |factors| && f in done && Adjacent(factors, f, g)
    ensures Shared(factors, done, g) > 0
  {
    var slot: nat :| slot in factors[f].slots && slot in factors[g].slots;
    assert Covers(factors, done, slot);
    var s :| 0 <= s < |factors[g].slots| && factors[g].slots[s] == slot;
    assert Covers(factors, done, factors[g].slots[s]);
  }

  lemma GreediestShares(factors: seq<Factor>, done: set<nat>, first: nat, f: nat)
    requires first in done && Greediest(factors, done, f, |factors|) && Linked(factors, first, f)
    ensures Shared(factors, done, f) > 0
  {
    var route :| Route(factors, route) && route[0] == first && route[|route| - 1] == f;
    var from, to := RouteCrosses(factors, done, route);
    SharesCoveredSlot(factors, done, from, to);
  }

  /** When the factors are connected, every round after the first joins on at
      least one bound slot. */
  lemma NoCrossProduct(factors: seq<Factor>, order: seq<nat>, k: nat)
    requires ValidOrder(factors, order) && GreedyOrder(factors, order) && Connected(factors)
    requires 0 < k < |order|
    ensures Shared(factors, Elements(order[..k]), order[k]) > 0
  {
    var done, first, f := Elements(order[..k]), order[0], order[k];
    assert first in done by { assert order[..k][0] == first; }
    assert Greediest(factors, done, f, |factors|);
    assert Linked(factors, first, f);
    GreediestShares(factors, done, first, f);
  }

  // ----- what the choice, the counts and the shares mean -----

  /** The choice: no factor left shares more bound slots; of those that share as many none
      has fewer rows; of those with as many rows none has a smaller number. */
  lemma GreediestMeans(factors: seq<Factor>, done: set<nat>, f: nat, g: nat)
    requires Greediest(factors, done, f, |factors|) && g < |factors| && g !in done
    ensures f !in done && Shared(factors, done, g) <= Shared(factors, done, f)
    ensures Shared(factors, done, g) == Shared(factors, done, f) ==> |factors[g].rows| >= |factors[f].rows|
    ensures Shared(factors, done, g) == Shared(factors, done, f) && |factors[g].rows| == |factors[f].rows| ==> g >= f
  {
  }

  /** The positions of a factor whose slots some joined factor has as well. */
  ghost function InCommon(factors: seq<Factor>, done: set<nat>, f: nat, n: nat): set<nat>
    requires f < |factors| && n <= |factors[f].slots|
  {
    set s: nat | s < n && exists g: nat :: g in done && g < |factors| && factors[f].slots[s] in factors[g].slots
  }

  lemma InCommonNext(factors: seq<Factor>, done: set<nat>, f: nat, n: nat)
    requires f < |factors| && 0 < n <= |factors[f].slots|
    ensures InCommon(factors, done, f, n) ==
      InCommon(factors, done, f, n - 1) + if Covers(factors, done, factors[f].slots[n - 1]) then {n - 1} else {}
  {
  }

  /** A factor shares as many slots as it has in common with the joined ones. */
  lemma {:induction false} SharedMeans(factors: seq<Factor>, done: set<nat>, f: nat, n: nat)
    requires f < |factors| && n <= |factors[f].slots|
    ensures SharedCount(factors, done, f, n) == |InCommon(factors, done, f, n)|
  {
    hide Covers;
    if n > 0 {
      SharedMeans(factors, done, f, n - 1);
      InCommonNext(factors, done, f, n);
    }
  }

  /** The peak is the largest frontier of all rounds, the one before the first included. */
  lemma {:induction false} PeakMeans(factors: seq<Factor>, slotCount: nat, order: seq<nat>)
    requires Shaped(factors, slotCount) && ValidOrder(factors, order)
    ensures forall k | 0 <= k <= |order| :: |NestedLoop(factors, slotCount, order[..k])| <= PeakCount(factors, slotCount, order)
    ensures exists k | 0 <= k <= |order| :: |NestedLoop(factors, slotCount, order[..k])| == PeakCount(factors, slotCount, order)
    decreases |order|
  {
    hide NestedLoop;
    assert order[..|order|] == order;
    if order == [] {
      StartsAlone(factors, slotCount);
    } else {
      var n, before := |order| - 1, order[..|order| - 1];
      PeakMeans(factors, slotCount, before);
      forall k | 0 <= k <= n
        ensures before[..k] == order[..k]
      {
      }
      var k :| 0 <= k <= n && |NestedLoop(factors, slotCount, before[..k])| == PeakCount(factors, slotCount, before);
      assert before[..k] == order[..k];
      assert order[..n + 1] == order;
    }
  }

  lemma StartsAlone(factors: seq<Factor>, slotCount: nat)
    requires Shaped(factors, slotCount)
    ensures |NestedLoop(factors, slotCount, [])| == 1
  {
  }
}
