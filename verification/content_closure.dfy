/** Closing the content graph: a depth-first search with an explicit stack, three
    colours, heights and a depth limit, and the request program built from its
    postorder. */
module ContentClosure {
  import opened ContentRuns
  import opened ContentGraph

  datatype Color = White | Gray | Black

  datatype Frame = Frame(node: nat, next: nat, depth: nat)

  datatype Status = Ok | Incomplete | Cycle | Limit | SourceInvalid | IdentityInvalid | AtomInvalid

  // ----- what the search keeps -----

  ghost function Blacks(state: seq<Color>): (done: set<nat>)
    ensures forall n: nat :: n in done <==> n < |state| && state[n] == Black
  {
    set n: nat | 0 <= n < |state| && state[n] == Black
  }

  ghost predicate OnStack(stack: seq<Frame>, n: nat) {
    exists i | 0 <= i < |stack| :: stack[i].node == n
  }

  /** The search is inside this frame's node: its first children are settled. */
  ghost predicate Entered(g: Graph, state: seq<Color>, height: seq<nat>, maximumDepth: nat, frame: Frame)
    requires WellFormed(g) && |state| == |height| == |g| && frame.node < |g|
  {
    && frame.next <= Degree(g, frame.node) && state[frame.node] == Gray
    && height[frame.node] >= 1 && HeightAt(g, height, frame.node, frame.next)
    && height[frame.node] + frame.depth <= maximumDepth + 1
    && forall j | 0 <= j < frame.next :: state[g[frame.node].runs[j].node] == Black
  }

  ghost predicate Fresh(state: seq<Color>, height: seq<nat>, frame: Frame)
    requires |state| == |height| && frame.node < |state|
  {
    state[frame.node] == White && frame.next == 0 && height[frame.node] == 1
  }

  ghost predicate Linked(g: Graph, parent: Frame, child: Frame)
    requires parent.node < |g|
  {
    && g[parent.node].Composed? && parent.next < |g[parent.node].runs|
    && g[parent.node].runs[parent.next].node == child.node
  }

  ghost predicate StackOk(g: Graph, state: seq<Color>, height: seq<nat>, maximumDepth: nat, stack: seq<Frame>)
    requires WellFormed(g) && |state| == |height| == |g|
  {
    && (forall i | 0 <= i < |stack| :: stack[i].node < |g| && stack[i].depth == i + 1)
    && (forall i, j | 0 <= i < j < |stack| :: stack[i].node != stack[j].node)
    && (forall i | 0 < i < |stack| :: Linked(g, stack[i - 1], stack[i]))
    && (forall i | 0 <= i < |stack| - 1 :: Entered(g, state, height, maximumDepth, stack[i]))
    && (stack != [] ==>
          var top := stack[|stack| - 1];
          Entered(g, state, height, maximumDepth, top) || Fresh(state, height, top))
  }

  ghost predicate ColorsOk(g: Graph, state: seq<Color>, height: seq<nat>, maximumDepth: nat, stack: seq<Frame>)
    requires |state| == |height| == |g|
  {
    && (forall n | 0 <= n < |g| && state[n] == White :: height[n] == 1)
    && (forall n | 0 <= n < |g| && state[n] == Gray :: OnStack(stack, n))
    && (forall n | 0 <= n < |g| && state[n] == Black :: height[n] <= maximumDepth)
    && ExactOn(g, height, Blacks(state))
  }

  ghost predicate OutputOk(g: Graph, state: seq<Color>, postorder: seq<nat>, missing: seq<nat>)
    requires |state| == |g|
  {
    && (forall p | 0 <= p < |postorder| :: postorder[p] < |g| && state[postorder[p]] == Black && g[postorder[p]].Composed?)
    && (forall p, q | 0 <= p < q < |postorder| :: postorder[p] != postorder[q])
    && (forall n | 0 <= n < |g| && state[n] == Black && g[n].Composed? :: n in postorder)
    && ChildrenFirst(g, postorder)
    && (forall p, q | 0 <= p < q < |missing| :: missing[p] != missing[q])
    && (forall p | 0 <= p < |missing| :: missing[p] < |g| && state[missing[p]] == Black && g[missing[p]] == Missing)
    && (forall n | 0 <= n < |g| && state[n] == Black && g[n] == Missing :: n in missing)
  }

  ghost predicate ChildrenFirst(g: Graph, postorder: seq<nat>) {
    forall p, i | 0 <= p < |postorder| && postorder[p] < |g| && g[postorder[p]].Composed? && 0 <= i < |g[postorder[p]].runs| ::
      var child := g[postorder[p]].runs[i].node;
      child < |g| && (g[child].Composed? ==> child in postorder[..p])
  }

  ghost predicate ChainOf(g: Graph, length: nat) {
    exists p :: Chain(g, p) && |p| == length
  }

  ghost predicate DepthOk(g: Graph, limit: nat, maximumDepth: nat) {
    maximumDepth <= limit && (maximumDepth == 0 || ChainOf(g, maximumDepth))
  }

  // ----- chains on the stack -----

  ghost function StackNodes(stack: seq<Frame>): (p: seq<nat>)
    ensures |p| == |stack| && forall i | 0 <= i < |p| :: p[i] == stack[i].node
  {
    seq(|stack|, i requires 0 <= i < |stack| => stack[i].node)
  }

  lemma StackIsChain(g: Graph, state: seq<Color>, height: seq<nat>, maximumDepth: nat, stack: seq<Frame>)
    requires WellFormed(g) && |state| == |height| == |g| && stack != []
    requires StackOk(g, state, height, maximumDepth, stack)
    ensures Chain(g, StackNodes(stack))
  {
    var p := StackNodes(stack);
    forall i | 0 < i < |p|
      ensures Edge(g, p[i - 1], p[i])
    {
      assert Linked(g, stack[i - 1], stack[i]);
    }
  }

  /** A gray child closes a cycle through the stack. */
  lemma GrayChildIsCycle(g: Graph, state: seq<Color>, height: seq<nat>, maximumDepth: nat, stack: seq<Frame>, child: nat)
    requires WellFormed(g) && |state| == |height| == |g| && stack != []
    requires StackOk(g, state, height, maximumDepth, stack) && ColorsOk(g, state, height, maximumDepth, stack)
    requires child < |g| && state[child] == Gray && Edge(g, stack[|stack| - 1].node, child)
    ensures Cyclic(g)
  {
    hide StackOk, Entered, ExactOn, WellFormed, Chain;
    StackIsChain(g, state, height, maximumDepth, stack);
    var p := StackNodes(stack);
    assert OnStack(stack, child);
    var i :| 0 <= i < |stack| && stack[i].node == child;
    ChainClosesCycle(g, p, i);
  }

  /** The stack followed by the longest chain below a settled child. */
  lemma StackAndChild(g: Graph, state: seq<Color>, height: seq<nat>, maximumDepth: nat, stack: seq<Frame>, child: nat)
    requires WellFormed(g) && |state| == |height| == |g| && stack != []
    requires StackOk(g, state, height, maximumDepth, stack) && ColorsOk(g, state, height, maximumDepth, stack)
    requires child < |g| && state[child] == Black && Edge(g, stack[|stack| - 1].node, child)
    ensures ChainOf(g, |stack| + height[child])
  {
    StackIsChain(g, state, height, maximumDepth, stack);
    var q := LongestChain(g, height, Blacks(state), child);
    var p := StackNodes(stack);
    ChainAppend(g, p, q);
    assert Chain(g, p + q) && |p + q| == |stack| + height[child];
  }

  function Larger(a: nat, b: nat): (r: nat)
    ensures a <= r && b <= r
  {
    if a < b then b else a
  }

  lemma TopFrame(g: Graph, state: seq<Color>, height: seq<nat>, maximumDepth: nat, stack: seq<Frame>)
    requires WellFormed(g) && |state| == |height| == |g| && stack != []
    requires StackOk(g, state, height, maximumDepth, stack)
    ensures var top := stack[|stack| - 1];
      top.node < |g| && top.depth == |stack| && state[top.node] != Black
  {
  }

  lemma ChildOfTop(g: Graph, state: seq<Color>, height: seq<nat>, maximumDepth: nat, frame: Frame)
    requires WellFormed(g) && |state| == |height| == |g| && frame.node < |g|
    requires Entered(g, state, height, maximumDepth, frame) && frame.next < Degree(g, frame.node)
    ensures g[frame.node].Composed?
    ensures var child := g[frame.node].runs[frame.next].node;
      child < |g| && Edge(g, frame.node, child)
  {
  }

  lemma EnteredIsGray(g: Graph, state: seq<Color>, height: seq<nat>, maximumDepth: nat, frame: Frame)
    requires WellFormed(g) && |state| == |height| == |g| && frame.node < |g|
    requires Entered(g, state, height, maximumDepth, frame)
    ensures state[frame.node] == Gray && frame.next <= Degree(g, frame.node)
    ensures g[frame.node].Composed? && frame.next == |g[frame.node].runs| ==>
      forall i | 0 <= i < |g[frame.node].runs| :: g[frame.node].runs[i].node < |g| && state[g[frame.node].runs[i].node] == Black
  {
  }

  lemma BlackHeight(g: Graph, state: seq<Color>, height: seq<nat>, maximumDepth: nat, stack: seq<Frame>, n: nat)
    requires |state| == |height| == |g| && ColorsOk(g, state, height, maximumDepth, stack) && n < |g| && state[n] == Black
    ensures height[n] >= 1
  {
    assert n in Blacks(state);
  }

  // ----- the steps of the search -----

  lemma GrayingKeepsFrame(g: Graph, state: seq<Color>, height: seq<nat>, maximumDepth: nat, frame: Frame, n: nat, deeper: nat)
    requires WellFormed(g) && |state| == |height| == |g| && frame.node < |g| && n < |g| && state[n] != Black
    requires Entered(g, state, height, maximumDepth, frame) && maximumDepth <= deeper
    ensures Entered(g, state[n := Gray], height, deeper, frame)
  {
  }

  lemma EnterKeepsStack(g: Graph, state: seq<Color>, height: seq<nat>, maximumDepth: nat, stack: seq<Frame>, deeper: nat)
    requires WellFormed(g) && |state| == |height| == |g| && stack != []
    requires StackOk(g, state, height, maximumDepth, stack) && deeper == Larger(maximumDepth, |stack|)
    requires var top := stack[|stack| - 1]; top.node < |g| && top.depth == |stack| && state[top.node] != Black
    ensures var top := stack[|stack| - 1];
      && StackOk(g, state[top.node := Gray], height, deeper, stack)
      && Entered(g, state[top.node := Gray], height, deeper, top)
  {
    var top := stack[|stack| - 1];
    var entered := state[top.node := Gray];
    assert Entered(g, entered, height, deeper, top);
    hide Entered, WellFormed, HeightAt;
    forall i | 0 <= i < |stack| - 1
      ensures Entered(g, entered, height, deeper, stack[i])
    {
      GrayingKeepsFrame(g, state, height, maximumDepth, stack[i], top.node, deeper);
    }
  }

  lemma EnterKeepsColors(g: Graph, state: seq<Color>, height: seq<nat>, maximumDepth: nat, stack: seq<Frame>, deeper: nat)
    requires |state| == |height| == |g| && stack != [] && maximumDepth <= deeper
    requires ColorsOk(g, state, height, maximumDepth, stack)
    requires stack[|stack| - 1].node < |g| && state[stack[|stack| - 1].node] != Black
    ensures ColorsOk(g, state[stack[|stack| - 1].node := Gray], height, deeper, stack)
  {
    hide ExactOn;
    var n := stack[|stack| - 1].node;
    assert Blacks(state[n := Gray]) == Blacks(state);
    assert OnStack(stack, n);
  }

  lemma EnterKeepsDepth(g: Graph, state: seq<Color>, height: seq<nat>, limit: nat, maximumDepth: nat, stack: seq<Frame>)
    requires WellFormed(g) && |state| == |height| == |g| && stack != []
    requires StackOk(g, state, height, maximumDepth, stack)
    requires DepthOk(g, limit, maximumDepth) && |stack| <= limit
    ensures DepthOk(g, limit, Larger(maximumDepth, |stack|))
  {
    hide StackOk, WellFormed, Chain;
    StackIsChain(g, state, height, maximumDepth, stack);
    assert ChainOf(g, |StackNodes(stack)|);
  }

  lemma BlackenKeepsFrames(g: Graph, state: seq<Color>, height: seq<nat>, maximumDepth: nat, stack: seq<Frame>)
    requires WellFormed(g) && |state| == |height| == |g| && stack != []
    requires StackOk(g, state, height, maximumDepth, stack)
    ensures StackOk(g, state[stack[|stack| - 1].node := Black], height, maximumDepth, stack[..|stack| - 1])
  {
    var rest, done := stack[..|stack| - 1], state[stack[|stack| - 1].node := Black];
    forall i | 0 <= i < |rest|
      ensures Entered(g, done, height, maximumDepth, rest[i])
    {
      assert Entered(g, state, height, maximumDepth, stack[i]);
    }
    forall i | 0 < i < |rest|
      ensures Linked(g, rest[i - 1], rest[i])
    {
      assert Linked(g, stack[i - 1], stack[i]);
    }
  }

  lemma BlackenKeepsExact(g: Graph, state: seq<Color>, height: seq<nat>, maximumDepth: nat, frame: Frame)
    requires WellFormed(g) && |state| == |height| == |g| && frame.node < |g|
    requires ExactOn(g, height, Blacks(state))
    requires Entered(g, state, height, maximumDepth, frame) && frame.next == Degree(g, frame.node)
    ensures ExactOn(g, height, Blacks(state[frame.node := Black]))
  {
    assert Blacks(state[frame.node := Black]) == Blacks(state) + {frame.node};
  }

  lemma BlackenKeepsColors(g: Graph, state: seq<Color>, height: seq<nat>, maximumDepth: nat, stack: seq<Frame>)
    requires WellFormed(g) && |state| == |height| == |g| && stack != []
    requires ColorsOk(g, state, height, maximumDepth, stack)
    requires var top := stack[|stack| - 1];
      && top.node < |g| && top.depth == |stack|
      && Entered(g, state, height, maximumDepth, top) && top.next == Degree(g, top.node)
    ensures ColorsOk(g, state[stack[|stack| - 1].node := Black], height, maximumDepth, stack[..|stack| - 1])
  {
    var top, rest := stack[|stack| - 1], stack[..|stack| - 1];
    BlackenKeepsExact(g, state, height, maximumDepth, top);
    assert height[top.node] <= maximumDepth;
    hide ExactOn, Entered, WellFormed;
    var done := state[top.node := Black];
    forall n | 0 <= n < |g| && done[n] == Gray
      ensures OnStack(rest, n)
    {
      assert OnStack(stack, n);
      var i :| 0 <= i < |stack| && stack[i].node == n;
      assert rest[i].node == n;
    }
  }

  lemma PushKeepsStack(g: Graph, state: seq<Color>, height: seq<nat>, maximumDepth: nat, stack: seq<Frame>, child: nat)
    requires WellFormed(g) && |state| == |height| == |g| && stack != []
    requires StackOk(g, state, height, maximumDepth, stack)
    requires Entered(g, state, height, maximumDepth, stack[|stack| - 1])
    requires child < |g| && state[child] == White && height[child] == 1
    requires Linked(g, stack[|stack| - 1], Frame(child, 0, |stack| + 1))
    ensures StackOk(g, state, height, maximumDepth, stack + [Frame(child, 0, |stack| + 1)])
    ensures !OnStack(stack, child)
  {
    var longer := stack + [Frame(child, 0, |stack| + 1)];
    forall i | 0 <= i < |stack|
      ensures Entered(g, state, height, maximumDepth, longer[i])
    {
      assert longer[i] == stack[i];
    }
    assert forall i | 0 <= i < |stack| :: state[stack[i].node] == Gray by {
      assert forall i | 0 <= i < |stack| :: Entered(g, state, height, maximumDepth, longer[i]) && longer[i] == stack[i];
    }
    hide Entered, WellFormed;
    forall i | 0 < i < |longer|
      ensures Linked(g, longer[i - 1], longer[i])
    {
      if i < |stack| {
        assert Linked(g, stack[i - 1], stack[i]);
      }
    }
  }

  lemma SameStackKeepsColors(g: Graph, state: seq<Color>, height: seq<nat>, maximumDepth: nat, stack: seq<Frame>, other: seq<Frame>)
    requires |state| == |height| == |g| && ColorsOk(g, state, height, maximumDepth, stack)
    requires |stack| <= |other| && forall i | 0 <= i < |stack| :: other[i].node == stack[i].node
    ensures ColorsOk(g, state, height, maximumDepth, other)
  {
    forall n | 0 <= n < |g| && state[n] == Gray
      ensures OnStack(other, n)
    {
      assert OnStack(stack, n);
      var i :| 0 <= i < |stack| && stack[i].node == n;
      assert other[i].node == n;
    }
  }

  lemma PushKeeps(g: Graph, state: seq<Color>, height: seq<nat>, maximumDepth: nat, stack: seq<Frame>, child: nat)
    requires WellFormed(g) && |state| == |height| == |g| && stack != []
    requires StackOk(g, state, height, maximumDepth, stack) && ColorsOk(g, state, height, maximumDepth, stack)
    requires Entered(g, state, height, maximumDepth, stack[|stack| - 1])
    requires child < |g| && state[child] == White
    requires Linked(g, stack[|stack| - 1], Frame(child, 0, |stack| + 1))
    ensures var longer := stack + [Frame(child, 0, |stack| + 1)];
      && StackOk(g, state, height, maximumDepth, longer) && ColorsOk(g, state, height, maximumDepth, longer)
      && !OnStack(stack, child)
  {
    assert height[child] == 1;
    hide StackOk, ColorsOk, Entered, WellFormed;
    PushKeepsStack(g, state, height, maximumDepth, stack, child);
    SameStackKeepsColors(g, state, height, maximumDepth, stack, stack + [Frame(child, 0, |stack| + 1)]);
  }

  lemma AdvanceKeepsFrame(g: Graph, state: seq<Color>, height: seq<nat>, maximumDepth: nat, frame: Frame, child: nat)
    requires WellFormed(g) && |state| == |height| == |g| && frame.node < |g|
    requires Entered(g, state, height, maximumDepth, frame) && Linked(g, frame, Frame(child, 0, 0))
    requires child < |g| && state[child] == Black && height[child] >= 1
    ensures var raised := height[frame.node := Larger(height[frame.node], height[child] + 1)];
      Entered(g, state, raised, Larger(maximumDepth, frame.depth + height[child]), frame.(next := frame.next + 1))
  {
    var raised := height[frame.node := Larger(height[frame.node], height[child] + 1)];
    assert forall j | 0 <= j < frame.next :: g[frame.node].runs[j].node != frame.node;
    if height[frame.node] >= height[child] + 1 {
      assert raised[frame.node] == height[frame.node];
    } else {
      assert raised[frame.node] == raised[g[frame.node].runs[frame.next].node] + 1;
    }
  }

  /** A frame is not disturbed when another node's height grows. */
  lemma RaiseKeepsFrame(g: Graph, state: seq<Color>, height: seq<nat>, maximumDepth: nat, frame: Frame, n: nat, raised: seq<nat>, deeper: nat)
    requires WellFormed(g) && |state| == |height| == |g| == |raised| && n < |g| && maximumDepth <= deeper && frame.node < |g|
    requires Entered(g, state, height, maximumDepth, frame) && frame.node != n && state[n] == Gray
    requires forall x | 0 <= x < |g| && x != n :: raised[x] == height[x]
    ensures Entered(g, state, raised, deeper, frame)
  {
    if g[frame.node].Composed? {
      assert forall j | 0 <= j < frame.next :: g[frame.node].runs[j].node != n;
    }
  }

  lemma AdvanceKeepsStack(g: Graph, state: seq<Color>, height: seq<nat>, maximumDepth: nat, stack: seq<Frame>, child: nat, raised: seq<nat>, deeper: nat)
    requires WellFormed(g) && |state| == |height| == |g| && stack != []
    requires StackOk(g, state, height, maximumDepth, stack)
    requires Entered(g, state, height, maximumDepth, stack[|stack| - 1])
    requires child < |g| && state[child] == Black && height[child] >= 1
    requires Linked(g, stack[|stack| - 1], Frame(child, 0, 0))
    requires var top := stack[|stack| - 1]; raised == height[top.node := Larger(height[top.node], height[child] + 1)]
    requires deeper == Larger(maximumDepth, |stack| + height[child])
    ensures var top := stack[|stack| - 1];
      StackOk(g, state, raised, deeper, stack[|stack| - 1 := top.(next := top.next + 1)])
  {
    hide Entered, WellFormed, StackOk, Linked, Fresh, HeightAt;
    var k := |stack| - 1;
    var top := stack[k];
    var advanced := stack[k := top.(next := top.next + 1)];
    TopIsGray(g, state, height, maximumDepth, stack);
    AdvanceKeepsFrame(g, state, height, maximumDepth, top, child);
    forall i | 0 <= i < k
      ensures Entered(g, state, raised, deeper, advanced[i])
    {
      FrameBelow(g, state, height, maximumDepth, stack, i);
      RaiseKeepsFrame(g, state, height, maximumDepth, stack[i], top.node, raised, deeper);
    }
    AdvancedStack(g, state, height, maximumDepth, stack, raised, deeper, advanced);
  }

  lemma TopIsGray(g: Graph, state: seq<Color>, height: seq<nat>, maximumDepth: nat, stack: seq<Frame>)
    requires WellFormed(g) && |state| == |height| == |g| && stack != [] && StackOk(g, state, height, maximumDepth, stack)
    requires Entered(g, state, height, maximumDepth, stack[|stack| - 1])
    ensures forall i | 0 <= i < |stack| :: stack[i].node < |g|
    ensures var top := stack[|stack| - 1]; state[top.node] == Gray && top.depth == |stack|
  {
    hide Linked, HeightAt;
  }

  lemma FrameBelow(g: Graph, state: seq<Color>, height: seq<nat>, maximumDepth: nat, stack: seq<Frame>, i: nat)
    requires WellFormed(g) && |state| == |height| == |g| && i < |stack| - 1 && StackOk(g, state, height, maximumDepth, stack)
    ensures stack[i].node < |g| && stack[i].node != stack[|stack| - 1].node && Entered(g, state, height, maximumDepth, stack[i])
  {
    hide Linked, Entered, Fresh;
  }

  lemma AdvancedStack(g: Graph, state: seq<Color>, height: seq<nat>, maximumDepth: nat, stack: seq<Frame>, raised: seq<nat>, deeper: nat, advanced: seq<Frame>)
    requires WellFormed(g) && |state| == |height| == |raised| == |g| && stack != [] && StackOk(g, state, height, maximumDepth, stack)
    requires |advanced| == |stack| && forall i | 0 <= i < |stack| - 1 :: advanced[i] == stack[i]
    requires advanced[|stack| - 1].node == stack[|stack| - 1].node && advanced[|stack| - 1].depth == stack[|stack| - 1].depth
    requires forall i | 0 <= i < |stack| :: advanced[i].node < |g| && Entered(g, state, raised, deeper, advanced[i])
    ensures StackOk(g, state, raised, deeper, advanced)
  {
    hide Linked, Entered, Fresh, WellFormed;
    forall i | 0 < i < |advanced|
      ensures Linked(g, advanced[i - 1], advanced[i])
    {
      assert Linked(g, stack[i - 1], stack[i]);
      LinkedSameNode(g, stack[i - 1], stack[i], advanced[i]);
    }
  }

  lemma LinkedSameNode(g: Graph, parent: Frame, child: Frame, other: Frame)
    requires parent.node < |g| && Linked(g, parent, child) && other.node == child.node
    ensures Linked(g, parent, other)
  {
  }

  lemma AdvanceKeepsColors(g: Graph, state: seq<Color>, height: seq<nat>, maximumDepth: nat, stack: seq<Frame>, raised: seq<nat>, deeper: nat)
    requires WellFormed(g) && |state| == |height| == |g| == |raised| && stack != [] && maximumDepth <= deeper
    requires ColorsOk(g, state, height, maximumDepth, stack)
    requires var n := stack[|stack| - 1].node;
      n < |g| && state[n] == Gray && forall x | 0 <= x < |g| && x != n :: raised[x] == height[x]
    ensures var top := stack[|stack| - 1];
      ColorsOk(g, state, raised, deeper, stack[|stack| - 1 := top.(next := top.next + 1)])
  {
    hide StackOk, ColorsOk, WellFormed;
    var top := stack[|stack| - 1];
    RaiseKeepsColors(g, state, height, maximumDepth, stack, top.node, raised, deeper);
    SameStackKeepsColors(g, state, raised, deeper, stack, stack[|stack| - 1 := top.(next := top.next + 1)]);
  }

  lemma AdvanceKeepsDepth(g: Graph, state: seq<Color>, height: seq<nat>, limit: nat, maximumDepth: nat, stack: seq<Frame>, child: nat)
    requires WellFormed(g) && |state| == |height| == |g| && stack != []
    requires StackOk(g, state, height, maximumDepth, stack) && ColorsOk(g, state, height, maximumDepth, stack)
    requires DepthOk(g, limit, maximumDepth)
    requires child < |g| && state[child] == Black && |stack| + height[child] <= limit
    requires Edge(g, stack[|stack| - 1].node, child)
    ensures DepthOk(g, limit, Larger(maximumDepth, |stack| + height[child]))
  {
    hide StackOk, ColorsOk, WellFormed, ChainOf, Edge;
    StackAndChild(g, state, height, maximumDepth, stack, child);
  }

  lemma RaiseKeepsColors(g: Graph, state: seq<Color>, height: seq<nat>, maximumDepth: nat, stack: seq<Frame>, n: nat, raised: seq<nat>, deeper: nat)
    requires WellFormed(g) && |state| == |height| == |g| && n < |g| && maximumDepth <= deeper
    requires ColorsOk(g, state, height, maximumDepth, stack) && state[n] == Gray
    requires |raised| == |height| && forall x | 0 <= x < |g| && x != n :: raised[x] == height[x]
    ensures ColorsOk(g, state, raised, deeper, stack)
  {
    var done := Blacks(state);
    forall x | x in done
      ensures HeightAt(g, raised, x, Degree(g, x))
    {
      assert HeightAt(g, height, x, Degree(g, x));
      if g[x].Composed? {
        forall j | 0 <= j < |g[x].runs|
          ensures raised[g[x].runs[j].node] == height[g[x].runs[j].node]
        {
          assert g[x].runs[j].node in done;
        }
      }
    }
  }

  lemma LeafKeepsOutput(g: Graph, state: seq<Color>, postorder: seq<nat>, missing: seq<nat>, n: nat)
    requires |state| == |g| && n < |g| && state[n] != Black && !g[n].Composed?
    requires OutputOk(g, state, postorder, missing)
    ensures OutputOk(g, state[n := Black], postorder, if g[n] == Missing then missing + [n] else missing)
  {
  }

  lemma FinishKeepsOutput(g: Graph, state: seq<Color>, postorder: seq<nat>, missing: seq<nat>, n: nat)
    requires WellFormed(g) && |state| == |g| && n < |g| && state[n] != Black && g[n].Composed?
    requires forall i | 0 <= i < |g[n].runs| :: state[g[n].runs[i].node] == Black
    requires OutputOk(g, state, postorder, missing)
    ensures OutputOk(g, state[n := Black], postorder + [n], missing)
  {
    var longer := postorder + [n];
    assert forall p | 0 <= p < |postorder| :: longer[..p] == postorder[..p];
    assert longer[..|postorder|] == postorder;
    forall x | 0 <= x < |g| && state[n := Black][x] == Black && g[x].Composed?
      ensures x in longer
    {
      if x == n {
        assert longer[|postorder|] == n;
      }
    }
  }

  lemma RecolorKeepsOutput(g: Graph, state: seq<Color>, postorder: seq<nat>, missing: seq<nat>, n: nat)
    requires |state| == |g| && n < |g| && state[n] != Black
    requires OutputOk(g, state, postorder, missing)
    ensures OutputOk(g, state[n := Gray], postorder, missing)
  {
  }

  ghost function Unseen(state: seq<Color>, stack: seq<Frame>): set<nat> {
    set n: nat | 0 <= n < |state| && state[n] == White && !OnStack(stack, n)
  }

  // ----- the search -----

  class Closure {
    const graph: Graph
    const limit: nat
    var state: seq<Color>
    var height: seq<nat>
    var stack: seq<Frame>
    var postorder: seq<nat>
    var missing: seq<nat>
    var maximumDepth: nat

    ghost predicate Valid()
      reads this
    {
      && WellFormed(graph) && |state| == |height| == |graph|
      && StackOk(graph, state, height, maximumDepth, stack)
      && ColorsOk(graph, state, height, maximumDepth, stack)
      && OutputOk(graph, state, postorder, missing)
      && DepthOk(graph, limit, maximumDepth)
    }

    constructor (graph: Graph, limit: nat)
      requires WellFormed(graph)
      ensures Valid() && this.graph == graph && this.limit == limit && stack == []
    {
      this.graph, this.limit := graph, limit;
      state := seq(|graph|, _ => White);
      height := seq(|graph|, _ => 1);
      stack, postorder, missing, maximumDepth := [], [], [], 0;
      new;
      assert Blacks(state) == {};
    }

    /** Enters the node on top of the stack, unless it lies too deep. */
    method Enter() returns (status: Status)
      requires Valid() && stack != []
      modifies this`state, this`maximumDepth
      ensures status == Limit ==> exists n :: n > limit && ChainOf(graph, n)
      ensures status == Ok ==> Valid() && Entered(graph, state, height, maximumDepth, stack[|stack| - 1])
      ensures status == Ok ==> Unseen(state, stack) == old(Unseen(state, stack))
      ensures status == Ok ==> forall n | 0 <= n < |graph| && old(state)[n] == Black :: state[n] == Black
      ensures status == Ok ==> stack[|stack| - 1].next <= Degree(graph, stack[|stack| - 1].node)
      ensures status in {Ok, Limit}
    {
      hide StackOk, ColorsOk, OutputOk, DepthOk, Entered, WellFormed, Chain, Unseen;
      var top := stack[|stack| - 1];
      TopFrame(graph, state, height, maximumDepth, stack);
      if top.depth > limit {
        StackIsChain(graph, state, height, maximumDepth, stack);
        assert Chain(graph, StackNodes(stack)) && ChainOf(graph, |stack|);
        return Limit;
      }
      var deeper := Larger(maximumDepth, top.depth);
      EnterKeepsStack(graph, state, height, maximumDepth, stack, deeper);
      EnterKeepsColors(graph, state, height, maximumDepth, stack, deeper);
      EnterKeepsDepth(graph, state, height, limit, maximumDepth, stack);
      EnterKeepsUnseen(state, stack, top.node);
      RecolorKeepsOutput(graph, state, postorder, missing, top.node);
      EnteredIsGray(graph, state[top.node := Gray], height, deeper, top);
      maximumDepth := deeper;
      state := state[top.node := Gray];
      status := Ok;
    }

    /** Settles the node on top of the stack and leaves it. */
    method Leave()
      requires Valid() && stack != []
      requires var top := stack[|stack| - 1];
        Entered(graph, state, height, maximumDepth, top) && top.next == Degree(graph, top.node)
      modifies this`state, this`stack, this`postorder, this`missing
      ensures Valid() && stack == old(stack)[..|old(stack)| - 1]
      ensures state == old(state)[old(stack)[|old(stack)| - 1].node := Black]
      ensures Unseen(state, stack) == old(Unseen(state, stack))
    {
      hide StackOk, ColorsOk, OutputOk, DepthOk, Entered, WellFormed, Unseen;
      var top, rest := stack[|stack| - 1], stack[..|stack| - 1];
      TopFrame(graph, state, height, maximumDepth, stack);
      EnteredIsGray(graph, state, height, maximumDepth, top);
      var black := state[top.node := Black];
      BlackenKeepsFrames(graph, state, height, maximumDepth, stack);
      BlackenKeepsColors(graph, state, height, maximumDepth, stack);
      LeaveKeepsUnseen(state, stack, top.node);
      Record(top.node);
      state, stack := black, rest;
    }

    /** Lists the node as composed, in postorder, or as missing. */
    method Record(n: nat)
      requires WellFormed(graph) && |state| == |graph| && n < |graph| && state[n] != Black
      requires graph[n].Composed? ==> forall i | 0 <= i < |graph[n].runs| :: state[graph[n].runs[i].node] == Black
      requires OutputOk(graph, state, postorder, missing)
      modifies this`postorder, this`missing
      ensures OutputOk(graph, state[n := Black], postorder, missing)
    {
      hide OutputOk;
      if graph[n].Composed? {
        FinishKeepsOutput(graph, state, postorder, missing, n);
        postorder := postorder + [n];
      } else {
        LeafKeepsOutput(graph, state, postorder, missing, n);
        if graph[n].Missing? {
          missing := missing + [n];
        }
      }
    }

    /** Follows the next child of the node on top of the stack. */
    method Follow() returns (status: Status)
      requires Valid() && stack != []
      requires var top := stack[|stack| - 1];
        Entered(graph, state, height, maximumDepth, top) && top.next < Degree(graph, top.node)
      modifies this`height, this`stack, this`maximumDepth
      ensures status == Cycle ==> Cyclic(graph)
      ensures status == Limit ==> exists n :: n > limit && ChainOf(graph, n)
      ensures status == Ok ==> Valid() && stack != [] && |stack| >= |old(stack)| && stack[0].node == old(stack)[0].node
      ensures status == Ok ==>
        || Unseen(state, stack) < old(Unseen(state, stack))
        || (Unseen(state, stack) == old(Unseen(state, stack)) && |stack| == |old(stack)| &&
            stack[|stack| - 1].node == old(stack)[|stack| - 1].node && stack[|stack| - 1].next == old(stack)[|stack| - 1].next + 1)
      ensures status in {Ok, Cycle, Limit}
    {
      hide StackOk, ColorsOk, OutputOk, DepthOk, Entered, WellFormed, Unseen, Edge;
      var k := |stack| - 1;
      var top := stack[k];
      TopFrame(graph, state, height, maximumDepth, stack);
      ChildOfTop(graph, state, height, maximumDepth, top);
      var child := graph[top.node].runs[top.next].node;
      if state[child] == Gray {
        GrayChildIsCycle(graph, state, height, maximumDepth, stack, child);
        return Cycle;
      }
      if state[child] == White {
        PushKeeps(graph, state, height, maximumDepth, stack, child);
        PushShrinksUnseen(state, stack, child);
        stack := stack + [Frame(child, 0, top.depth + 1)];
        return Ok;
      }
      if height[child] >= limit || top.depth > limit - height[child] {
        StackAndChild(graph, state, height, maximumDepth, stack, child);
        return Limit;
      }
      Advance(child);
      status := Ok;
    }

    /** Takes a settled child into account. */
    method Advance(child: nat)
      requires Valid() && stack != []
      requires var top := stack[|stack| - 1];
        && top.node < |graph| && top.depth == |stack|
        && Entered(graph, state, height, maximumDepth, top) && Linked(graph, top, Frame(child, 0, 0))
      requires child < |graph| && state[child] == Black && Edge(graph, stack[|stack| - 1].node, child)
      requires |stack| + height[child] <= limit
      modifies this`height, this`stack, this`maximumDepth
      ensures Valid() && Unseen(state, stack) == old(Unseen(state, stack))
      ensures stack == old(stack)[|old(stack)| - 1 := old(stack)[|old(stack)| - 1].(next := old(stack)[|old(stack)| - 1].next + 1)]
    {
      hide StackOk, ColorsOk, OutputOk, DepthOk, Entered, WellFormed, Unseen, Edge, Linked;
      var k := |stack| - 1;
      var top := stack[k];
      var raised := height[top.node := Larger(height[top.node], height[child] + 1)];
      var deeper := Larger(maximumDepth, top.depth + height[child]);
      EnteredIsGray(graph, state, height, maximumDepth, top);
      BlackHeight(graph, state, height, maximumDepth, stack, child);
      AdvanceKeepsStack(graph, state, height, maximumDepth, stack, child, raised, deeper);
      AdvanceKeepsColors(graph, state, height, maximumDepth, stack, raised, deeper);
      AdvanceKeepsDepth(graph, state, height, limit, maximumDepth, stack, child);
      AdvanceKeepsUnseen(state, stack, top.(next := top.next + 1));
      maximumDepth := deeper;
      height := raised;
      stack := stack[k := top.(next := top.next + 1)];
    }

    /** Searches everything below one start node. */
    method Visit(start: nat) returns (status: Status)
      requires Valid() && stack == [] && start < |graph| && state[start] != Black
      modifies this
      ensures status == Cycle ==> Cyclic(graph)
      ensures status == Limit ==> exists n :: n > limit && ChainOf(graph, n)
      ensures status == Ok ==> Valid() && stack == [] && state[start] == Black
      ensures status == Ok ==> forall n | 0 <= n < |graph| && old(state)[n] == Black :: state[n] == Black
      ensures status in {Ok, Cycle, Limit}
    {
      hide StackOk, ColorsOk, OutputOk, DepthOk, WellFormed, Unseen, Entered, Edge, Cyclic, ChainOf;
      StartIsFresh(graph, state, height, maximumDepth, start);
      stack := [Frame(start, 0, 1)];
      while stack != []
        invariant Valid()
        invariant if stack == [] then state[start] == Black else stack[0].node == start
        invariant stack != [] ==> stack[|stack| - 1].node < |graph|
        invariant forall n | 0 <= n < |graph| && old(state)[n] == Black :: state[n] == Black
        decreases Unseen(state, stack), |stack|,
          if stack == [] then 0 else Degree(graph, stack[|stack| - 1].node) - stack[|stack| - 1].next
      {
        status := Enter();
        if status != Ok {
          return;
        }
        var top := stack[|stack| - 1];
        if graph[top.node].Composed? && top.next < |graph[top.node].runs| {
          status := Follow();
          if status != Ok {
            return;
          }
        } else {
          Leave();
        }
        if stack != [] {
          TopFrame(graph, state, height, maximumDepth, stack);
        }
      }
      status := Ok;
    }

    /** Closes the whole graph, whatever the order in which nodes are started. */
    method Close(order: seq<nat>) returns (status: Status)
      requires Valid() && stack == []
      requires forall i | 0 <= i < |order| :: order[i] < |graph|
      requires forall n | 0 <= n < |graph| :: n in order
      modifies this
      ensures status == Cycle ==> Cyclic(graph)
      ensures status == Limit ==> exists n :: n > limit && ChainOf(graph, n)
      ensures status in {Ok, Incomplete} ==> Closed(graph, limit, height, postorder, missing, maximumDepth)
      ensures status == Incomplete <==> status !in {Cycle, Limit} && missing != []
      ensures status in {Ok, Incomplete, Cycle, Limit}
    {
      hide StackOk, ColorsOk, OutputOk, DepthOk, WellFormed, Chain, Closed;
      for i := 0 to |order|
        invariant Valid() && stack == []
        invariant forall j | 0 <= j < i :: state[order[j]] == Black
      {
        if state[order[i]] != Black {
          status := Visit(order[i]);
          if status != Ok {
            return;
          }
        }
      }
      forall n | 0 <= n < |graph|
        ensures state[n] == Black
      {
        assert n in order;
      }
      AllBlackIsClosed(graph, limit, state, height, postorder, missing, maximumDepth);
      status := if missing != [] then Incomplete else Ok;
    }
  }

  lemma StartIsFresh(g: Graph, state: seq<Color>, height: seq<nat>, maximumDepth: nat, start: nat)
    requires WellFormed(g) && |state| == |height| == |g| && start < |g| && state[start] != Black
    requires ColorsOk(g, state, height, maximumDepth, [])
    ensures StackOk(g, state, height, maximumDepth, [Frame(start, 0, 1)])
    ensures ColorsOk(g, state, height, maximumDepth, [Frame(start, 0, 1)])
  {
    assert state[start] == Gray ==> OnStack([], start);
  }

  lemma EnterKeepsUnseen(state: seq<Color>, stack: seq<Frame>, n: nat)
    requires stack != [] && stack[|stack| - 1].node == n && n < |state|
    ensures Unseen(state[n := Gray], stack) == Unseen(state, stack)
  {
    assert OnStack(stack, n);
  }

  lemma LeaveKeepsUnseen(state: seq<Color>, stack: seq<Frame>, n: nat)
    requires stack != [] && stack[|stack| - 1].node == n && n < |state|
    ensures Unseen(state[n := Black], stack[..|stack| - 1]) == Unseen(state, stack)
  {
    var rest := stack[..|stack| - 1];
    forall x | x != n
      ensures OnStack(rest, x) <==> OnStack(stack, x)
    {
      if i :| 0 <= i < |stack| && stack[i].node == x {
        assert rest[i].node == x;
      }
    }
  }

  lemma PushShrinksUnseen(state: seq<Color>, stack: seq<Frame>, child: nat)
    requires child < |state| && state[child] == White && !OnStack(stack, child)
    ensures Unseen(state, stack + [Frame(child, 0, |stack| + 1)]) < Unseen(state, stack)
  {
    var longer := stack + [Frame(child, 0, |stack| + 1)];
    assert longer[|stack|].node == child;
    forall x | OnStack(stack, x)
      ensures OnStack(longer, x)
    {
      var i :| 0 <= i < |stack| && stack[i].node == x;
      assert longer[i].node == x;
    }
    assert child in Unseen(state, stack) && child !in Unseen(state, longer);
  }

  lemma AdvanceKeepsUnseen(state: seq<Color>, stack: seq<Frame>, frame: Frame)
    requires stack != [] && frame.node == stack[|stack| - 1].node
    ensures Unseen(state, stack[|stack| - 1 := frame]) == Unseen(state, stack)
  {
    var advanced := stack[|stack| - 1 := frame];
    forall x
      ensures OnStack(advanced, x) <==> OnStack(stack, x)
    {
      if i :| 0 <= i < |stack| && stack[i].node == x {
        assert advanced[i].node == x;
      }
      if i :| 0 <= i < |advanced| && advanced[i].node == x {
        assert stack[i].node == x;
      }
    }
  }

  // ----- what a finished search says about the graph -----

  /** The result of a search that visited every node. */
  ghost predicate Closed(g: Graph, limit: nat, height: seq<nat>, postorder: seq<nat>, missing: seq<nat>, maximumDepth: nat) {
    && Exact(g, height)
    && (forall n | 0 <= n < |g| :: height[n] <= maximumDepth)
    && DepthOk(g, limit, maximumDepth)
    && (forall p | 0 <= p < |postorder| :: postorder[p] < |g| && g[postorder[p]].Composed?)
    && (forall p, q | 0 <= p < q < |postorder| :: postorder[p] != postorder[q])
    && (forall n | 0 <= n < |g| && g[n].Composed? :: n in postorder)
    && ChildrenFirst(g, postorder)
    && (forall p, q | 0 <= p < q < |missing| :: missing[p] != missing[q])
    && (forall n: nat :: n in missing <==> n < |g| && g[n] == Missing)
  }

  lemma AllBlackIsClosed(g: Graph, limit: nat, state: seq<Color>, height: seq<nat>, postorder: seq<nat>, missing: seq<nat>, maximumDepth: nat)
    requires WellFormed(g) && |state| == |height| == |g|
    requires forall n | 0 <= n < |g| :: state[n] == Black
    requires ColorsOk(g, state, height, maximumDepth, [])
    requires OutputOk(g, state, postorder, missing) && DepthOk(g, limit, maximumDepth)
    ensures Closed(g, limit, height, postorder, missing, maximumDepth)
  {
    forall n | 0 <= n < |g|
      ensures height[n] >= 1 && HeightAt(g, height, n, Degree(g, n))
    {
      assert n in Blacks(state);
    }
  }

  /** A graph that closes has no cycle, its heights are longest chains, and the
      maximum depth is the longest chain of the whole graph: none of this depends on
      the order in which nodes were visited. */
  lemma ClosedIsAcyclic(g: Graph, limit: nat, height: seq<nat>, postorder: seq<nat>, missing: seq<nat>, maximumDepth: nat)
    requires Closed(g, limit, height, postorder, missing, maximumDepth)
    ensures !Cyclic(g)
    ensures forall n | 0 <= n < |g| :: LongestFrom(g, n, height[n])
    ensures forall p | Chain(g, p) :: |p| <= maximumDepth <= limit
    ensures maximumDepth > 0 ==> ChainOf(g, maximumDepth)
  {
    ExactIsRanked(g, height);
    RankedIsAcyclic(g, height);
    forall n | 0 <= n < |g|
      ensures LongestFrom(g, n, height[n])
    {
      ExactHeightIsLongest(g, height, n);
    }
    forall p | Chain(g, p)
      ensures |p| <= maximumDepth
    {
      assert LongestFrom(g, p[0], height[p[0]]);
    }
  }

  /** Closing fails for the right reason: on an acyclic graph exactly when a chain is
      longer than the limit, and never succeeds on a cyclic one. */
  method CloseGraph(g: Graph, limit: nat, order: seq<nat>)
    returns (status: Status, height: seq<nat>, postorder: seq<nat>, missing: seq<nat>, maximumDepth: nat)
    requires WellFormed(g)
    requires forall i | 0 <= i < |order| :: order[i] < |g|
    requires forall n | 0 <= n < |g| :: n in order
    ensures status in {Ok, Incomplete, Cycle, Limit}
    ensures status == Cycle ==> Cyclic(g)
    ensures !Cyclic(g) ==> (status == Limit <==> exists n :: n > limit && ChainOf(g, n))
    ensures Cyclic(g) ==> status in {Cycle, Limit}
    ensures status == Limit ==> exists n :: n > limit && ChainOf(g, n)
    ensures status in {Ok, Incomplete} ==> Closed(g, limit, height, postorder, missing, maximumDepth)
    ensures status in {Ok, Incomplete} ==> (status == Incomplete <==> exists n | 0 <= n < |g| :: g[n] == Missing)
  {
    var closure := new Closure(g, limit);
    status := closure.Close(order);
    height, postorder, missing, maximumDepth := closure.height, closure.postorder, closure.missing, closure.maximumDepth;
    if status in {Ok, Incomplete} {
      ClosedIsAcyclic(g, limit, height, postorder, missing, maximumDepth);
      assert missing != [] ==> missing[0] in missing;
    }
  }
}
