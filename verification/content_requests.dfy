/** The request program of a closed content graph, and what evaluating it yields. */
module ContentRequests {
  import opened ContentRuns
  import opened ContentGraph
  import opened ContentClosure

  datatype ReferenceKind = KnownEntity | PriorResult

  datatype Operand = Operand(reference: nat, multiplicity: nat, kind: ReferenceKind)

  datatype Request = Request(firstOperand: nat, operandCount: nat, ordinal: nat)

  // ----- evaluation -----

  ghost function OperandValue(operand: Operand, results: seq<seq<nat>>): seq<nat> {
    if operand.kind == KnownEntity then [operand.reference]
    else if operand.reference < |results| then results[operand.reference]
    else []
  }

  ghost function EvalOperands(operands: seq<Operand>, results: seq<seq<nat>>): seq<nat> {
    if operands == [] then []
    else
      var last := operands[|operands| - 1];
      EvalOperands(operands[..|operands| - 1], results) + Copies(OperandValue(last, results), last.multiplicity)
  }

  ghost predicate InRange(operands: seq<Operand>, requests: seq<Request>) {
    forall p | 0 <= p < |requests| :: requests[p].firstOperand + requests[p].operandCount <= |operands|
  }

  function OperandsOf(operands: seq<Operand>, request: Request): seq<Operand>
    requires request.firstOperand + request.operandCount <= |operands|
  {
    operands[request.firstOperand..request.firstOperand + request.operandCount]
  }

  /** The results of the first k requests, computed in order. */
  ghost function EvalRequests(operands: seq<Operand>, requests: seq<Request>, k: nat): (results: seq<seq<nat>>)
    requires InRange(operands, requests) && k <= |requests|
    ensures |results| == k
  {
    if k == 0 then []
    else
      var before := EvalRequests(operands, requests, k - 1);
      before + [EvalOperands(OperandsOf(operands, requests[k - 1]), before)]
  }

  // ----- compilation -----

  /** The operand refers to the child: to the atom itself, or to the earlier request
      that builds it. */
  ghost predicate RefersTo(g: Graph, postorder: seq<nat>, p: nat, operand: Operand, run: Run)
    requires p <= |postorder|
  {
    && run.node < |g| && operand.multiplicity == run.count
    && match g[run.node]
       case Atom(index) => operand.kind == KnownEntity && operand.reference == index
       case Composed(_) => operand.kind == PriorResult && operand.reference < p && postorder[operand.reference] == run.node
       case Missing => false
  }

  /** Request p compiles node postorder[p], run by run. */
  ghost predicate CompilesAt(g: Graph, postorder: seq<nat>, operands: seq<Operand>, requests: seq<Request>, p: nat)
    requires p < |requests| <= |postorder|
  {
    var n, request := postorder[p], requests[p];
    && n < |g| && g[n].Composed?
    && request.operandCount == |g[n].runs| && request.firstOperand + request.operandCount <= |operands|
    && request.ordinal == p + 1
    && forall i | 0 <= i < request.operandCount ::
         RefersTo(g, postorder, p, operands[request.firstOperand + i], g[n].runs[i])
  }

  ghost predicate Tiles(operands: seq<Operand>, requests: seq<Request>) {
    && (requests == [] ==> operands == [])
    && (requests != [] ==> requests[0].firstOperand == 0)
    && (forall p | 0 < p < |requests| :: requests[p].firstOperand == requests[p - 1].firstOperand + requests[p - 1].operandCount)
    && (requests != [] ==> var last := requests[|requests| - 1]; last.firstOperand + last.operandCount == |operands|)
  }

  ghost predicate Compiled(g: Graph, postorder: seq<nat>, operands: seq<Operand>, requests: seq<Request>) {
    && |requests| <= |postorder|
    && (forall p | 0 <= p < |requests| :: CompilesAt(g, postorder, operands, requests, p))
    && Tiles(operands, requests)
  }

  lemma CompiledInRange(g: Graph, postorder: seq<nat>, operands: seq<Operand>, requests: seq<Request>)
    requires Compiled(g, postorder, operands, requests)
    ensures InRange(operands, requests)
  {
    forall p | 0 <= p < |requests|
      ensures requests[p].firstOperand + requests[p].operandCount <= |operands|
    {
      assert CompilesAt(g, postorder, operands, requests, p);
    }
  }

  /** Operand i of request p names a known entity, or the result of an earlier request. */
  ghost predicate OperandSettled(operands: seq<Operand>, requests: seq<Request>, knownCount: nat, p: nat, i: nat)
    requires InRange(operands, requests) && p < |requests| && i < requests[p].operandCount
  {
    var operand := operands[requests[p].firstOperand + i];
    match operand.kind
    case KnownEntity => operand.reference < knownCount
    case PriorResult => operand.reference < p
  }

  ghost predicate Settled(operands: seq<Operand>, requests: seq<Request>, knownCount: nat)
    requires InRange(operands, requests)
  {
    forall p, i | 0 <= p < |requests| && 0 <= i < requests[p].operandCount ::
      OperandSettled(operands, requests, knownCount, p, i)
  }

  lemma CompiledIsSettled(g: Graph, postorder: seq<nat>, operands: seq<Operand>, requests: seq<Request>, knownCount: nat)
    requires Compiled(g, postorder, operands, requests) && InRange(operands, requests)
    requires forall n | 0 <= n < |g| && g[n].Atom? :: g[n].index < knownCount
    ensures Settled(operands, requests, knownCount)
  {
    forall p, i | 0 <= p < |requests| && 0 <= i < requests[p].operandCount
      ensures OperandSettled(operands, requests, knownCount, p, i)
    {
      assert CompilesAt(g, postorder, operands, requests, p);
      assert RefersTo(g, postorder, p, operands[requests[p].firstOperand + i], g[postorder[p]].runs[i]);
    }
  }

  lemma {:induction false} OperandsMeanRuns(g: Graph, height: seq<nat>, postorder: seq<nat>, p: nat, operands: seq<Operand>, n: nat, k: nat, results: seq<seq<nat>>)
    requires Ranked(g, height) && n < |g| && g[n].Composed? && k == |operands| <= |g[n].runs| && p <= |postorder| && |results| == p
    requires forall i | 0 <= i < k :: RefersTo(g, postorder, p, operands[i], g[n].runs[i])
    requires forall q | 0 <= q < p :: postorder[q] < |g| && results[q] == Meaning(g, height, postorder[q])
    ensures EvalOperands(operands, results) == RunsMeaning(g, height, n, k)
  {
    if k > 0 {
      var last, run := operands[k - 1], g[n].runs[k - 1];
      OperandsMeanRuns(g, height, postorder, p, operands[..k - 1], n, k - 1, results);
      assert RefersTo(g, postorder, p, last, run);
      assert OperandValue(last, results) == Meaning(g, height, run.node);
    }
  }

  /** The results are what the first nodes of the postorder stand for. */
  ghost predicate AllMean(g: Graph, height: seq<nat>, postorder: seq<nat>, results: seq<seq<nat>>)
    requires Ranked(g, height)
  {
    && |results| <= |postorder|
    && forall q | 0 <= q < |results| :: postorder[q] < |g| && results[q] == Meaning(g, height, postorder[q])
  }

  lemma OwnOperandsRefer(g: Graph, postorder: seq<nat>, operands: seq<Operand>, requests: seq<Request>, p: nat)
    requires p < |requests| <= |postorder| && CompilesAt(g, postorder, operands, requests, p)
    ensures var n, own := postorder[p], OperandsOf(operands, requests[p]);
      |own| == |g[n].runs| && forall i | 0 <= i < |own| :: RefersTo(g, postorder, p, own[i], g[n].runs[i])
  {
    hide RefersTo;
    var own := OperandsOf(operands, requests[p]);
    assert forall i | 0 <= i < |own| :: own[i] == operands[requests[p].firstOperand + i];
  }

  lemma RequestMeansNode(g: Graph, height: seq<nat>, postorder: seq<nat>, operands: seq<Operand>, requests: seq<Request>, p: nat, before: seq<seq<nat>>)
    requires Ranked(g, height) && p < |requests| <= |postorder| && CompilesAt(g, postorder, operands, requests, p)
    requires |before| == p && AllMean(g, height, postorder, before)
    ensures AllMean(g, height, postorder, before + [EvalOperands(OperandsOf(operands, requests[p]), before)])
  {
    hide RefersTo, EvalOperands, RunsMeaning, Ranked;
    var n, own := postorder[p], OperandsOf(operands, requests[p]);
    OwnOperandsRefer(g, postorder, operands, requests, p);
    OperandsMeanRuns(g, height, postorder, p, own, n, |g[n].runs|, before);
    var all := before + [EvalOperands(own, before)];
    assert forall q | 0 <= q < p :: all[q] == before[q];
  }

  /** Running the requests in order gives every composed node its meaning. */
  lemma {:induction false} RequestsPreserveMeaning(g: Graph, height: seq<nat>, postorder: seq<nat>, operands: seq<Operand>, requests: seq<Request>, k: nat)
    requires Ranked(g, height) && Compiled(g, postorder, operands, requests) && k <= |requests|
    ensures InRange(operands, requests) && AllMean(g, height, postorder, EvalRequests(operands, requests, k))
  {
    CompiledInRange(g, postorder, operands, requests);
    if k > 0 {
      assert CompilesAt(g, postorder, operands, requests, k - 1);
      hide CompilesAt, Tiles, Ranked, AllMean, InRange;
      RequestsPreserveMeaning(g, height, postorder, operands, requests, k - 1);
      RequestMeansNode(g, height, postorder, operands, requests, k - 1, EvalRequests(operands, requests, k - 1));
    }
  }

  lemma AppendKeepsCompiled(g: Graph, postorder: seq<nat>, operands: seq<Operand>, requests: seq<Request>, more: seq<Operand>)
    requires Compiled(g, postorder, operands, requests) && |requests| < |postorder|
    requires var n := postorder[|requests|];
      && n < |g| && g[n].Composed? && |more| == |g[n].runs|
      && forall i | 0 <= i < |more| :: RefersTo(g, postorder, |requests|, more[i], g[n].runs[i])
    ensures Compiled(g, postorder, operands + more, requests + [Request(|operands|, |more|, |requests| + 1)])
  {
    var longer, all := requests + [Request(|operands|, |more|, |requests| + 1)], operands + more;
    forall p | 0 <= p < |longer|
      ensures CompilesAt(g, postorder, all, longer, p)
    {
      if p < |requests| {
        assert CompilesAt(g, postorder, operands, requests, p);
      }
    }
    assert forall p | 0 <= p < |requests| :: longer[p] == requests[p];
  }

  /** Compiles the composed nodes in postorder. */
  method BuildRequests(g: Graph, postorder: seq<nat>)
    returns (operands: seq<Operand>, requests: seq<Request>, resultIndex: map<nat, nat>)
    requires WellFormed(g) && ChildrenFirst(g, postorder)
    requires forall p | 0 <= p < |postorder| :: postorder[p] < |g| && g[postorder[p]].Composed?
    requires forall p, q | 0 <= p < q < |postorder| :: postorder[p] != postorder[q]
    requires forall n | 0 <= n < |g| :: g[n] != Missing
    ensures |requests| == |postorder| && Compiled(g, postorder, operands, requests)
    ensures forall n :: n in resultIndex <==> n in postorder
    ensures forall p | 0 <= p < |postorder| :: postorder[p] in resultIndex && resultIndex[postorder[p]] == p
  {
    operands, requests, resultIndex := [], [], map[];
    for p := 0 to |postorder|
      invariant |requests| == p && Compiled(g, postorder, operands, requests)
      invariant forall n :: n in resultIndex <==> n in postorder[..p]
      invariant forall q | 0 <= q < p :: postorder[q] in resultIndex && resultIndex[postorder[q]] == q
    {
      var n := postorder[p];
      var more := RunOperands(g, postorder, p, resultIndex);
      AppendKeepsCompiled(g, postorder, operands, requests, more);
      resultIndex := resultIndex[n := p];
      requests := requests + [Request(|operands|, |more|, p + 1)];
      operands := operands + more;
      assert postorder[..p + 1] == postorder[..p] + [n];
    }
    assert postorder[..|postorder|] == postorder;
  }

  method RunOperands(g: Graph, postorder: seq<nat>, p: nat, resultIndex: map<nat, nat>) returns (operands: seq<Operand>)
    requires WellFormed(g) && ChildrenFirst(g, postorder) && p < |postorder|
    requires postorder[p] < |g| && g[postorder[p]].Composed?
    requires forall n | 0 <= n < |g| :: g[n] != Missing
    requires forall n :: n in resultIndex <==> n in postorder[..p]
    requires forall q | 0 <= q < p :: postorder[q] in resultIndex && resultIndex[postorder[q]] == q
    ensures |operands| == |g[postorder[p]].runs|
    ensures forall i | 0 <= i < |operands| :: RefersTo(g, postorder, p, operands[i], g[postorder[p]].runs[i])
  {
    var runs := g[postorder[p]].runs;
    operands := [];
    for i := 0 to |runs|
      invariant |operands| == i
      invariant forall j | 0 <= j < i :: RefersTo(g, postorder, p, operands[j], runs[j])
    {
      var child := runs[i].node;
      if g[child].Atom? {
        operands := operands + [Operand(g[child].index, runs[i].count, KnownEntity)];
      } else {
        assert child in postorder[..p];
        ghost var q :| 0 <= q < p && postorder[q] == child;
        operands := operands + [Operand(resultIndex[child], runs[i].count, PriorResult)];
      }
    }
  }
}
