/** Run-length child lists: a list of runs stands for the child sequence it expands
    to, and the merged form is the only one of its kind for that sequence. */
module ContentRuns {

  datatype Run = Run(node: nat, count: nat)

  function Repeat<T>(x: T, n: nat): (s: seq<T>)
    ensures |s| == n && forall i | 0 <= i < n :: s[i] == x
  {
    seq(n, _ => x)
  }

  /** The children a list of runs stands for, in order and with repetition. */
  ghost function Expand(runs: seq<Run>): seq<nat> {
    if runs == [] then [] else Repeat(runs[0].node, runs[0].count) + Expand(runs[1..])
  }

  ghost predicate Positive(runs: seq<Run>) {
    forall i | 0 <= i < |runs| :: runs[i].count > 0
  }

  ghost predicate Normal(runs: seq<Run>) {
    && Positive(runs)
    && forall i | 0 < i < |runs| :: runs[i - 1].node != runs[i].node
  }

  lemma {:induction false} ExpandAppend(a: seq<Run>, b: seq<Run>)
    ensures Expand(a + b) == Expand(a) + Expand(b)
  {
    if a == [] {
      assert a + b == b;
    } else {
      assert (a + b)[1..] == a[1..] + b;
      ExpandAppend(a[1..], b);
    }
  }

  lemma ExpandOne(run: Run)
    ensures Expand([run]) == Repeat(run.node, run.count)
  {
    assert [run][1..] == [];
  }

  /** Appends one run, or lengthens the last one if it has the same child. */
  function Push(runs: seq<Run>, node: nat, count: nat): seq<Run> {
    if runs != [] && runs[|runs| - 1].node == node
    then runs[|runs| - 1 := Run(node, runs[|runs| - 1].count + count)]
    else runs + [Run(node, count)]
  }

  lemma PushExpands(runs: seq<Run>, node: nat, count: nat)
    ensures Expand(Push(runs, node, count)) == Expand(runs) + Repeat(node, count)
  {
    if runs != [] && runs[|runs| - 1].node == node {
      var first, last := runs[..|runs| - 1], runs[|runs| - 1];
      assert runs == first + [last];
      assert Push(runs, node, count) == first + [Run(node, last.count + count)];
      ExpandAppend(first, [last]);
      ExpandAppend(first, [Run(node, last.count + count)]);
      ExpandOne(last);
      ExpandOne(Run(node, last.count + count));
      assert Repeat(node, last.count + count) == Repeat(node, last.count) + Repeat(node, count);
    } else {
      ExpandAppend(runs, [Run(node, count)]);
      ExpandOne(Run(node, count));
    }
  }

  ghost function Normalize(carriers: seq<Run>): seq<Run> {
    if carriers == [] then []
    else
      var last := carriers[|carriers| - 1];
      Push(Normalize(carriers[..|carriers| - 1]), last.node, last.count)
  }

  lemma {:induction false} NormalizeExpands(carriers: seq<Run>)
    ensures Expand(Normalize(carriers)) == Expand(carriers)
  {
    if carriers != [] {
      var first, last := carriers[..|carriers| - 1], carriers[|carriers| - 1];
      assert carriers == first + [last];
      NormalizeExpands(first);
      PushExpands(Normalize(first), last.node, last.count);
      ExpandAppend(first, [last]);
      ExpandOne(last);
    }
  }

  lemma {:induction false} NormalizeIsNormal(carriers: seq<Run>)
    requires Positive(carriers)
    ensures Normal(Normalize(carriers))
  {
    if carriers != [] {
      NormalizeIsNormal(carriers[..|carriers| - 1]);
    }
  }

  lemma ExpandStart(runs: seq<Run>)
    requires Normal(runs) && runs != []
    ensures var e, n := Expand(runs), runs[0].count;
      && |e| >= n && (forall i | 0 <= i < n :: e[i] == runs[0].node)
      && e[n..] == Expand(runs[1..])
      && (|e| > n ==> e[n] != runs[0].node)
      && (|e| == n ==> runs[1..] == [])
  {
    var rest := runs[1..];
    if rest != [] {
      assert rest[0] == runs[1];
      assert Expand(rest) == Repeat(rest[0].node, rest[0].count) + Expand(rest[1..]);
    }
  }

  /** A normal list is determined by what it expands to. */
  lemma {:induction false} NormalUnique(a: seq<Run>, b: seq<Run>)
    requires Normal(a) && Normal(b) && Expand(a) == Expand(b)
    ensures a == b
  {
    if a != [] {
      ExpandStart(a);
    }
    if b != [] {
      ExpandStart(b);
    }
    if a != [] && b != [] {
      var e := Expand(a);
      assert a[0].node == e[0] == b[0].node;
      assert a[0].count == b[0].count;
      assert Normal(a[1..]) by {
        assert forall i | 0 < i < |a[1..]| :: a[1..][i - 1] == a[i] && a[1..][i] == a[i + 1];
      }
      assert Normal(b[1..]) by {
        assert forall i | 0 < i < |b[1..]| :: b[1..][i - 1] == b[i] && b[1..][i] == b[i + 1];
      }
      NormalUnique(a[1..], b[1..]);
      assert a == [a[0]] + a[1..] && b == [b[0]] + b[1..];
    }
  }

  /** Two carrier lists merge to the same form exactly when they list the same
      children. */
  lemma SameFormExactly(a: seq<Run>, b: seq<Run>)
    requires Positive(a) && Positive(b)
    ensures Normalize(a) == Normalize(b) <==> Expand(a) == Expand(b)
  {
    NormalizeExpands(a);
    NormalizeExpands(b);
    NormalizeIsNormal(a);
    NormalizeIsNormal(b);
    if Expand(a) == Expand(b) {
      NormalUnique(Normalize(a), Normalize(b));
    }
  }
}
