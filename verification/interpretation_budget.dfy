/** How much the join of a set of factors can need, whatever the order: bounds a caller
    can compute before the call. */
module InterpretationBudget {
  import opened InterpretationJoin

  // ----- repeated addition -----

  ghost function Times(n: nat, step: nat): nat {
    if n == 0 then 0 else Times(n - 1, step) + step
  }

  lemma {:induction false} TimesIsProduct(n: nat, step: nat)
    ensures Times(n, step) == n * step
  {
    if n > 0 {
      TimesIsProduct(n - 1, step);
    }
  }

  lemma {:induction false} TimesMonotone(n: nat, more: nat, step: nat, big: nat)
    requires n <= more && step <= big
    ensures Times(n, step) <= Times(more, big)
    decreases more
  {
    if n > 0 {
      TimesMonotone(n - 1, more - 1, step, big);
    }
  }

  // ----- the bounds -----

  /** The most rows of any factor, and at least one. */
  ghost function MostRows(factors: seq<Factor>): (most: nat)
    ensures most >= 1
  {
    if factors == [] then 1
    else
      var before, rows := MostRows(factors[..|factors| - 1]), |factors[|factors| - 1].rows|;
      if before < rows then rows else before
  }

  ghost function MostSlots(factors: seq<Factor>): nat {
    if factors == [] then 0
    else
      var before, slots := MostSlots(factors[..|factors| - 1]), |factors[|factors| - 1].slots|;
      if before < slots then slots else before
  }

  lemma {:induction false} MostBounds(factors: seq<Factor>, f: nat)
    requires f < |factors|
    ensures |factors[f].rows| <= MostRows(factors) && |factors[f].slots| <= MostSlots(factors)
  {
    if f < |factors| - 1 {
      MostBounds(factors[..|factors| - 1], f);
    }
  }

  /** The most states k rounds can leave. */
  ghost function Widest(factors: seq<Factor>, k: nat): nat {
    if k == 0 then 1 else Times(Widest(factors, k - 1), MostRows(factors))
  }

  /** The most pairs of a state and a row k rounds can look at. */
  ghost function PairRoom(factors: seq<Factor>, k: nat): nat {
    if k == 0 then 0 else PairRoom(factors, k - 1) + Times(Widest(factors, k - 1), MostRows(factors))
  }

  /** The most insertion steps that sort n rows. */
  ghost function SortSteps(n: nat): nat {
    if n == 0 then 0 else SortSteps(n - 1) + (n - 1)
  }

  lemma {:induction false} SortStepsGrow(n: nat, more: nat)
    requires n <= more
    ensures SortSteps(n) <= SortSteps(more)
  {
    if n < more {
      SortStepsGrow(n, more - 1);
    }
  }

  /** The most comparisons of one round over so many states. */
  ghost function RoundRoom(factors: seq<Factor>, states: nat): nat {
    Times(SortSteps(MostRows(factors)), MostSlots(factors)) + Times(states, Times(2 * MostRows(factors), MostSlots(factors)))
  }

  ghost function CompareRoom(factors: seq<Factor>, k: nat): nat {
    if k == 0 then 0 else CompareRoom(factors, k - 1) + RoundRoom(factors, Widest(factors, k - 1))
  }

  lemma {:induction false} RoomGrows(factors: seq<Factor>, k: nat, more: nat)
    requires k <= more
    ensures PairRoom(factors, k) <= PairRoom(factors, more) && CompareRoom(factors, k) <= CompareRoom(factors, more)
  {
    if k < more {
      RoomGrows(factors, k, more - 1);
    }
  }

  // ----- every run keeps within them -----

  lemma {:induction false} StepWithin(factors: seq<Factor>, slotCount: nat, done: set<nat>, f: nat, states: seq<State>, k: nat)
    requires f < |factors| && Shaped(factors, slotCount) && Sized(factors, slotCount, states) && k <= |states|
    ensures |JoinStep(factors, slotCount, done, f, states, k)| <= Times(k, |factors[f].rows|)
  {
    if k > 0 {
      StepWithin(factors, slotCount, done, f, states, k - 1);
      var st := states[k - 1];
      MatchesWithin(factors, done, f, st.values, |factors[f].rows|);
    }
  }

  lemma {:induction false} MatchesWithin(factors: seq<Factor>, done: set<nat>, f: nat, values: seq<Id>, n: nat)
    requires f < |factors| && Shaped(factors, |values|) && n <= |factors[f].rows|
    ensures |MatchingRows(factors, done, f, values, n)| <= n
  {
    if n > 0 {
      MatchesWithin(factors, done, f, values, n - 1);
    }
  }

  lemma {:induction false} FrontierWithin(factors: seq<Factor>, slotCount: nat, order: seq<nat>)
    requires Shaped(factors, slotCount) && ValidOrder(factors, order)
    ensures |NestedLoop(factors, slotCount, order)| <= Widest(factors, |order|)
    ensures PairCount(factors, slotCount, order) <= PairRoom(factors, |order|)
    decreases |order|
  {
    hide JoinStep, Shaped;
    if order != [] {
      LastElement(factors, order);
      var before, f := order[..|order| - 1], order[|order| - 1];
      var states := NestedLoop(factors, slotCount, before);
      FrontierWithin(factors, slotCount, before);
      StepWithin(factors, slotCount, Elements(before), f, states, |states|);
      MostBounds(factors, f);
      TimesMonotone(|states|, Widest(factors, |before|), |factors[f].rows|, MostRows(factors));
      TimesIsProduct(|states|, |factors[f].rows|);
    }
  }

  lemma RoundWithin(factors: seq<Factor>, f: nat, shared: nat, states: nat)
    requires f < |factors| && shared <= |factors[f].slots|
    ensures Times(SortSteps(|factors[f].rows|), shared) + Times(states, Times(2 * |factors[f].rows|, shared)) <= RoundRoom(factors, states)
    ensures Times(states, |factors[f].rows|) <= Times(states, MostRows(factors))
  {
    MostBounds(factors, f);
    var rows, most := |factors[f].rows|, MostRows(factors);
    SortStepsGrow(rows, most);
    TimesMonotone(SortSteps(rows), SortSteps(most), shared, MostSlots(factors));
    TimesMonotone(2 * rows, 2 * most, shared, MostSlots(factors));
    TimesMonotone(states, states, Times(2 * rows, shared), Times(2 * most, MostSlots(factors)));
    TimesMonotone(states, states, rows, most);
  }

  lemma RoundRoomGrows(factors: seq<Factor>, states: nat, more: nat)
    requires states <= more
    ensures RoundRoom(factors, states) <= RoundRoom(factors, more)
    ensures Times(states, MostRows(factors)) <= Times(more, MostRows(factors))
  {
    TimesMonotone(states, more, Times(2 * MostRows(factors), MostSlots(factors)), Times(2 * MostRows(factors), MostSlots(factors)));
    TimesMonotone(states, more, MostRows(factors), MostRows(factors));
  }
}
