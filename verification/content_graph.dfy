/** The content graph: atoms, compositions of runs of other nodes, and nodes nothing
    is known about; its chains, its cycles, and what a node stands for. */
module ContentGraph {
  import opened ContentRuns

  datatype Shape = Missing | Atom(index: nat) | Composed(runs: seq<Run>)

  type Graph = seq<Shape>

  ghost predicate WellFormed(g: Graph) {
    forall n, i | 0 <= n < |g| && g[n].Composed? && 0 <= i < |g[n].runs| :: g[n].runs[i].node < |g|
  }

  ghost predicate Edge(g: Graph, a: nat, b: nat)
    requires a < |g|
  {
    g[a].Composed? && exists i | 0 <= i < |g[a].runs| :: g[a].runs[i].node == b
  }

  /** A downward chain of nodes. */
  ghost predicate Chain(g: Graph, p: seq<nat>) {
    && p != [] && (forall i | 0 <= i < |p| :: p[i] < |g|)
    && (forall i | 0 < i < |p| :: Edge(g, p[i - 1], p[i]))
  }

  ghost predicate Cyclic(g: Graph) {
    exists p :: Chain(g, p) && |p| >= 2 && p[0] == p[|p| - 1]
  }

  lemma ChainAppend(g: Graph, p: seq<nat>, q: seq<nat>)
    requires Chain(g, p) && Chain(g, q) && Edge(g, p[|p| - 1], q[0])
    ensures Chain(g, p + q)
  {
    var r := p + q;
    forall i | 0 < i < |r|
      ensures Edge(g, r[i - 1], r[i])
    {
      if i < |p| {
        assert Edge(g, p[i - 1], p[i]);
      } else if i > |p| {
        assert Edge(g, q[i - |p| - 1], q[i - |p|]);
      }
    }
  }

  lemma ChainSuffix(g: Graph, p: seq<nat>, k: nat)
    requires Chain(g, p) && k < |p|
    ensures Chain(g, p[k..])
  {
    forall i | 0 < i < |p[k..]|
      ensures Edge(g, p[k..][i - 1], p[k..][i])
    {
      assert Edge(g, p[k + i - 1], p[k + i]);
    }
  }

  /** A chain whose last node has one of the chain's own nodes as a child. */
  lemma ChainClosesCycle(g: Graph, p: seq<nat>, i: nat)
    requires Chain(g, p) && i < |p| && Edge(g, p[|p| - 1], p[i])
    ensures Cyclic(g)
  {
    ChainSuffix(g, p, i);
    assert Chain(g, [p[i]]);
    ChainAppend(g, p[i..], [p[i]]);
    var cycle := p[i..] + [p[i]];
    assert Chain(g, cycle) && cycle[0] == cycle[|cycle| - 1];
  }

  // ----- heights -----

  /** Every edge goes strictly down. */
  ghost predicate Ranked(g: Graph, height: seq<nat>) {
    && |height| == |g|
    && forall n, i | 0 <= n < |g| && g[n].Composed? && 0 <= i < |g[n].runs| ::
         g[n].runs[i].node < |g| && height[g[n].runs[i].node] < height[n]
  }

  /** The height of a node is one more than the largest height below it. */
  ghost predicate HeightAt(g: Graph, height: seq<nat>, n: nat, next: nat)
    requires n < |g| == |height| && WellFormed(g)
    requires g[n].Composed? ==> next <= |g[n].runs|
  {
    if g[n].Composed? then
      && (forall j | 0 <= j < next :: height[g[n].runs[j].node] + 1 <= height[n])
      && (height[n] == 1 || exists j | 0 <= j < next :: height[n] == height[g[n].runs[j].node] + 1)
    else height[n] == 1
  }

  ghost function Degree(g: Graph, n: nat): nat
    requires n < |g|
  {
    if g[n].Composed? then |g[n].runs| else 0
  }

  /** Heights are settled on a set of nodes that contains all their children. */
  ghost predicate ExactOn(g: Graph, height: seq<nat>, done: set<nat>) {
    && WellFormed(g) && |height| == |g|
    && (forall n | n in done :: n < |g| && height[n] >= 1 && HeightAt(g, height, n, Degree(g, n)))
    && (forall n, i | n in done && g[n].Composed? && 0 <= i < |g[n].runs| :: g[n].runs[i].node in done)
  }

  ghost predicate Exact(g: Graph, height: seq<nat>) {
    && WellFormed(g) && |height| == |g|
    && forall n | 0 <= n < |g| :: height[n] >= 1 && HeightAt(g, height, n, Degree(g, n))
  }

  lemma ExactIsRanked(g: Graph, height: seq<nat>)
    requires Exact(g, height)
    ensures Ranked(g, height)
  {
    forall n, i | 0 <= n < |g| && g[n].Composed? && 0 <= i < |g[n].runs|
      ensures g[n].runs[i].node < |g| && height[g[n].runs[i].node] < height[n]
    {
      assert HeightAt(g, height, n, |g[n].runs|);
    }
  }

  lemma {:induction false} RankedChain(g: Graph, height: seq<nat>, p: seq<nat>)
    requires Ranked(g, height) && Chain(g, p)
    ensures height[p[0]] + 1 >= |p| + height[p[|p| - 1]]
    decreases |p|
  {
    if |p| > 1 {
      ChainSuffix(g, p, 1);
      RankedChain(g, height, p[1..]);
      assert Edge(g, p[1 - 1], p[1]);
      var i :| 0 <= i < |g[p[0]].runs| && g[p[0]].runs[i].node == p[1];
    }
  }

  lemma RankedIsAcyclic(g: Graph, height: seq<nat>)
    requires Ranked(g, height)
    ensures !Cyclic(g)
  {
    forall p | Chain(g, p) && |p| >= 2
      ensures p[0] != p[|p| - 1]
    {
      RankedChain(g, height, p);
    }
  }

  /** h is the length, in nodes, of the longest chain down from n. */
  ghost predicate LongestFrom(g: Graph, n: nat, h: nat) {
    && (exists p :: Chain(g, p) && p[0] == n && |p| == h)
    && (forall p | Chain(g, p) && p[0] == n :: |p| <= h)
  }

  lemma {:induction false} LongestChain(g: Graph, height: seq<nat>, done: set<nat>, n: nat) returns (p: seq<nat>)
    requires ExactOn(g, height, done) && n in done
    ensures Chain(g, p) && p[0] == n && |p| == height[n]
    decreases height[n]
  {
    assert HeightAt(g, height, n, Degree(g, n));
    if height[n] == 1 {
      p := [n];
    } else {
      var j :| 0 <= j < |g[n].runs| && height[n] == height[g[n].runs[j].node] + 1;
      var q := LongestChain(g, height, done, g[n].runs[j].node);
      assert Edge(g, n, q[0]);
      ChainAppend(g, [n], q);
      p := [n] + q;
    }
  }

  ghost function Everything(g: Graph): (all: set<nat>)
    ensures forall x: nat :: x in all <==> x < |g|
    decreases |g|
  {
    if g == [] then {} else Everything(g[1..]) + {|g| - 1}
  }

  lemma ExactHeightIsLongest(g: Graph, height: seq<nat>, n: nat)
    requires Exact(g, height) && n < |g|
    ensures LongestFrom(g, n, height[n])
  {
    var p := LongestChain(g, height, Everything(g), n);
    ExactIsRanked(g, height);
    forall q | Chain(g, q) && q[0] == n
      ensures |q| <= height[n]
    {
      RankedChain(g, height, q);
    }
  }

  // ----- meaning -----

  ghost function Copies<T>(s: seq<T>, n: nat): seq<T> {
    if n == 0 then [] else Copies(s, n - 1) + s
  }

  /** The atoms a node stands for: itself, or its children expanded in order, each as
      often as its run says. */
  ghost function Meaning(g: Graph, height: seq<nat>, n: nat): seq<nat>
    requires Ranked(g, height) && n < |g|
    decreases height[n], 1, 0
  {
    match g[n]
    case Missing => []
    case Atom(index) => [index]
    case Composed(runs) => RunsMeaning(g, height, n, |runs|)
  }

  ghost function RunsMeaning(g: Graph, height: seq<nat>, n: nat, k: nat): seq<nat>
    requires Ranked(g, height) && n < |g| && g[n].Composed? && k <= |g[n].runs|
    decreases height[n], 0, k
  {
    if k == 0 then []
    else
      var run := g[n].runs[k - 1];
      RunsMeaning(g, height, n, k - 1) + Copies(Meaning(g, height, run.node), run.count)
  }

  /** Any ranking gives the same meaning. */
  lemma {:induction false} MeaningIndependent(g: Graph, height: seq<nat>, other: seq<nat>, n: nat)
    requires Ranked(g, height) && Ranked(g, other) && n < |g|
    ensures Meaning(g, height, n) == Meaning(g, other, n)
    decreases height[n], 1, 0
  {
    if g[n].Composed? {
      RunsMeaningIndependent(g, height, other, n, |g[n].runs|);
    }
  }

  lemma {:induction false} RunsMeaningIndependent(g: Graph, height: seq<nat>, other: seq<nat>, n: nat, k: nat)
    requires Ranked(g, height) && Ranked(g, other) && n < |g| && g[n].Composed? && k <= |g[n].runs|
    ensures RunsMeaning(g, height, n, k) == RunsMeaning(g, other, n, k)
    decreases height[n], 0, k
  {
    if k > 0 {
      RunsMeaningIndependent(g, height, other, n, k - 1);
      MeaningIndependent(g, height, other, g[n].runs[k - 1].node);
    }
  }

  ghost predicate InGraph(g: Graph, children: seq<nat>) {
    forall i | 0 <= i < |children| :: children[i] < |g|
  }

  /** The child sequence, each child replaced by what it stands for. */
  ghost function Flatten(g: Graph, height: seq<nat>, children: seq<nat>): seq<nat>
    requires Ranked(g, height) && InGraph(g, children)
  {
    if children == [] then []
    else Flatten(g, height, children[..|children| - 1]) + Meaning(g, height, children[|children| - 1])
  }

  lemma {:induction false} FlattenRepeat(g: Graph, height: seq<nat>, children: seq<nat>, n: nat, count: nat)
    requires Ranked(g, height) && n < |g| && InGraph(g, children)
    ensures InGraph(g, children + Repeat(n, count))
    ensures Flatten(g, height, children + Repeat(n, count)) == Flatten(g, height, children) + Copies(Meaning(g, height, n), count)
  {
    if count == 0 {
      assert children + Repeat(n, 0) == children;
    } else {
      var all := children + Repeat(n, count);
      assert all[..|all| - 1] == children + Repeat(n, count - 1);
      FlattenRepeat(g, height, children, n, count - 1);
    }
  }

  lemma {:induction false} ExpandInGraph(g: Graph, n: nat, k: nat)
    requires WellFormed(g) && n < |g| && g[n].Composed? && k <= |g[n].runs|
    ensures InGraph(g, Expand(g[n].runs[..k]))
    ensures k > 0 ==> Expand(g[n].runs[..k]) == Expand(g[n].runs[..k - 1]) + Repeat(g[n].runs[k - 1].node, g[n].runs[k - 1].count)
  {
    if k > 0 {
      var runs := g[n].runs;
      assert runs[..k] == runs[..k - 1] + [runs[k - 1]];
      ExpandAppend(runs[..k - 1], [runs[k - 1]]);
      ExpandOne(runs[k - 1]);
      ExpandInGraph(g, n, k - 1);
    }
  }

  /** What a composed node stands for is its expanded child sequence, flattened; runs
      are only an encoding of it. */
  lemma {:induction false} MeaningIsFlattening(g: Graph, height: seq<nat>, n: nat, k: nat)
    requires WellFormed(g) && Ranked(g, height) && n < |g| && g[n].Composed? && k <= |g[n].runs|
    ensures InGraph(g, Expand(g[n].runs[..k]))
    ensures RunsMeaning(g, height, n, k) == Flatten(g, height, Expand(g[n].runs[..k]))
  {
    ExpandInGraph(g, n, k);
    if k > 0 {
      MeaningIsFlattening(g, height, n, k - 1);
      FlattenRepeat(g, height, Expand(g[n].runs[..k - 1]), g[n].runs[k - 1].node, g[n].runs[k - 1].count);
    }
  }
}
