/** The plan built from the admitted content graph. */
module ContentPlan {
  import opened Options
  import opened ContentRuns
  import opened ContentGraph
  import opened ContentClosure
  import opened ContentRequests
  import opened ContentTables
  import opened ContentAdmission
  import opened ContentConsistency
  import opened ContentRefusal
  import opened ContentInputs

  // ----- the plan -----

  datatype Root = Root(entity: Id, reference: nat, kind: ReferenceKind)

  datatype Plan = Plan(
    known: seq<Known>, operands: seq<Operand>, requests: seq<Request>, roots: seq<Root>,
    missing: seq<Id>, maximumDepth: nat, expected: seq<Node>)

  ghost predicate Ascending(ids: seq<Id>) {
    forall i, j | 0 <= i < j < |ids| :: ids[i] < ids[j]
  }

  /** Sorts distinct identities. */
  method SortIds(ids: seq<Id>) returns (sorted: seq<Id>)
    requires forall i, j | 0 <= i < j < |ids| :: ids[i] != ids[j]
    ensures Ascending(sorted) && forall id :: id in sorted <==> id in ids
  {
    sorted := [];
    for k := 0 to |ids|
      invariant Ascending(sorted) && forall id :: id in sorted <==> id in ids[..k]
    {
      var p: nat := |sorted|;
      while p > 0 && ids[k] < sorted[p - 1]
        invariant p <= |sorted| && forall i | p <= i < |sorted| :: ids[k] < sorted[i]
      {
        p := p - 1;
      }
      assert p > 0 ==> sorted[p - 1] != ids[k] by {
        if p > 0 {
          assert sorted[p - 1] in sorted;
        }
      }
      sorted := sorted[..p] + [ids[k]] + sorted[p..];
      assert ids[..k + 1] == ids[..k] + [ids[k]];
    }
    assert ids[..|ids|] == ids;
  }

  lemma NodeIdsDistinct(t: Tables)
    requires TablesOk(t)
    ensures forall n, m | 0 <= n < m < |t.nodes| :: t.nodes[n].id != t.nodes[m].id
  {
  }

  /** The nodes in the order of their identities, which is how the interning map
      lists them. */
  method VisitOrder(t: Tables) returns (order: seq<nat>)
    requires TablesOk(t)
    ensures forall i | 0 <= i < |order| :: order[i] < |t.nodes|
    ensures forall n | 0 <= n < |t.nodes| :: n in order
  {
    NodeIdsDistinct(t);
    var ids := seq(|t.nodes|, n requires 0 <= n < |t.nodes| => t.nodes[n].id);
    var sorted := SortIds(ids);
    forall i | 0 <= i < |sorted|
      ensures sorted[i] in t.index
    {
      assert sorted[i] in ids;
    }
    order := seq(|sorted|, i requires 0 <= i < |sorted| => t.index[sorted[i]]);
    forall n | 0 <= n < |t.nodes|
      ensures n in order
    {
      assert ids[n] in sorted;
      var i :| 0 <= i < |sorted| && sorted[i] == ids[n];
      assert order[i] == n;
    }
  }

  method MissingIds(t: Tables, missing: seq<nat>) returns (ids: seq<Id>)
    requires TablesOk(t)
    requires forall p | 0 <= p < |missing| :: missing[p] < |t.nodes|
    requires forall p, q | 0 <= p < q < |missing| :: missing[p] != missing[q]
    ensures Ascending(ids)
    ensures forall id :: id in ids <==> id in t.index && t.index[id] in missing
  {
    NodeIdsDistinct(t);
    var all := seq(|missing|, p requires 0 <= p < |missing| => t.nodes[missing[p]].id);
    ids := SortIds(all);
    forall id
      ensures id in all <==> id in t.index && t.index[id] in missing
    {
      if id in t.index && t.index[id] in missing {
        var p :| 0 <= p < |missing| && missing[p] == t.index[id];
        assert all[p] == id;
      }
    }
  }

  /** Every reference of a root resolves to what the root stands for. */
  ghost predicate RootMeans(root: Root, entity: Id, t: Tables, height: seq<nat>, operands: seq<Operand>, requests: seq<Request>)
    requires InRange(operands, requests) && Ranked(GraphOf(t), height)
  {
    && RootAdmitted(entity, t) && root.entity == entity
    && OperandValue(Operand(root.reference, 1, root.kind), EvalRequests(operands, requests, |requests|)) ==
         Meaning(GraphOf(t), height, t.index[entity])
  }

  /** The request behind an expected node yields what that node stands for, and the
      node carries the witness its result is later verified against. */
  ghost predicate RequestMeans(expected: Node, result: seq<nat>, t: Tables, height: seq<nat>)
    requires Ranked(GraphOf(t), height)
  {
    && expected.id in t.index && t.index[expected.id] < |t.nodes| && t.nodes[t.index[expected.id]] == expected
    && GraphOf(t)[t.index[expected.id]].Composed? && expected.identityWitness.Some?
    && result == Meaning(GraphOf(t), height, t.index[expected.id])
  }

  /** Every composed node is built by exactly one request, with the right result. */
  ghost predicate RequestsMean(plan: Plan, t: Tables, height: seq<nat>)
    requires Ranked(GraphOf(t), height) && InRange(plan.operands, plan.requests)
  {
    && |plan.expected| == |plan.requests|
    && (forall p | 0 <= p < |plan.requests| ::
          RequestMeans(plan.expected[p], EvalRequests(plan.operands, plan.requests, |plan.requests|)[p], t, height))
    && (forall n | 0 <= n < |t.nodes| && GraphOf(t)[n].Composed? :: t.nodes[n] in plan.expected)
    && (forall p, q | 0 <= p < q < |plan.expected| :: plan.expected[p].id != plan.expected[q].id)
  }

  /** A complete plan: the graph is closed without missing nodes, the requests compile
      it, and evaluating them gives every root its expansion. */
  ghost predicate Realizes(input: Input, t: Tables, height: seq<nat>, plan: Plan) {
    && AllAdmitted(input, t) && Ranked(GraphOf(t), height)
    && (forall n | 0 <= n < |t.nodes| :: GraphOf(t)[n] != Missing)
    && plan.known == t.known && plan.missing == []
    && InRange(plan.operands, plan.requests) && Tiles(plan.operands, plan.requests)
    && Settled(plan.operands, plan.requests, |plan.known|) && RequestsMean(plan, t, height)
    && |plan.roots| == |input.roots|
    && forall i | 0 <= i < |input.roots| ::
         RootMeans(plan.roots[i], input.roots[i], t, height, plan.operands, plan.requests)
  }

  method BuildRoots(roots: seq<Id>, t: Tables, ghost height: seq<nat>, ghost postorder: seq<nat>,
                    ghost operands: seq<Operand>, ghost requests: seq<Request>, resultIndex: map<nat, nat>)
    returns (built: seq<Root>)
    requires TablesOk(t) && forall i | 0 <= i < |roots| :: RootAdmitted(roots[i], t)
    requires Ranked(GraphOf(t), height) && InRange(operands, requests) && |requests| == |postorder|
    requires AllMean(GraphOf(t), height, postorder, EvalRequests(operands, requests, |requests|))
    requires forall n | 0 <= n < |t.nodes| :: GraphOf(t)[n] != Missing
    requires forall n | 0 <= n < |t.nodes| && GraphOf(t)[n].Composed? :: n in postorder
    requires forall p | 0 <= p < |postorder| :: postorder[p] in resultIndex && resultIndex[postorder[p]] == p
    ensures |built| == |roots|
    ensures forall i | 0 <= i < |roots| :: RootMeans(built[i], roots[i], t, height, operands, requests)
  {
    built := [];
    ghost var results := EvalRequests(operands, requests, |requests|);
    for i := 0 to |roots|
      invariant |built| == i
      invariant forall j | 0 <= j < i :: RootMeans(built[j], roots[j], t, height, operands, requests)
    {
      assert RootAdmitted(roots[i], t);
      var n := t.index[roots[i]];
      if t.nodes[n].atom.Some? {
        assert GraphOf(t)[n] == Atom(t.nodes[n].atom.value);
        built := built + [Root(roots[i], t.nodes[n].atom.value, KnownEntity)];
      } else {
        assert GraphOf(t)[n].Composed?;
        ghost var p :| 0 <= p < |postorder| && postorder[p] == n;
        assert results[p] == Meaning(GraphOf(t), height, n);
        built := built + [Root(roots[i], resultIndex[n], PriorResult)];
      }
    }
  }

  /** The composed nodes all carry a witness, so building never refuses one. */
  lemma ComposedIsWitnessed(t: Tables, n: nat)
    requires TablesOk(t) && n < |t.nodes| && GraphOf(t)[n].Composed?
    ensures t.nodes[n].identityWitness.Some?
  {
    assert NodeOk(t.nodes[n], |t.nodes|, t.runs, t.known);
  }

  lemma AtomIsKnown(t: Tables, n: nat)
    requires TablesOk(t) && n < |t.nodes| && GraphOf(t)[n].Atom?
    ensures GraphOf(t)[n].index < |t.known|
  {
    assert NodeOk(t.nodes[n], |t.nodes|, t.runs, t.known);
  }

  lemma ExpectedMeans(t: Tables, height: seq<nat>, postorder: seq<nat>, plan: Plan)
    requires TablesOk(t) && Ranked(GraphOf(t), height) && InRange(plan.operands, plan.requests)
    requires |postorder| == |plan.requests| == |plan.expected|
    requires forall p | 0 <= p < |postorder| ::
      postorder[p] < |t.nodes| && GraphOf(t)[postorder[p]].Composed? && plan.expected[p] == t.nodes[postorder[p]]
    requires forall p, q | 0 <= p < q < |postorder| :: postorder[p] != postorder[q]
    requires forall n | 0 <= n < |t.nodes| && GraphOf(t)[n].Composed? :: n in postorder
    requires AllMean(GraphOf(t), height, postorder, EvalRequests(plan.operands, plan.requests, |plan.requests|))
    ensures RequestsMean(plan, t, height)
  {
    hide EvalRequests, Meaning, GraphOf, NodeOk, Ranked, InRange;
    assert Interned(t.index, t.nodes);
    var results := EvalRequests(plan.operands, plan.requests, |plan.requests|);
    forall p | 0 <= p < |postorder|
      ensures RequestMeans(plan.expected[p], results[p], t, height)
    {
      ComposedIsWitnessed(t, postorder[p]);
    }
    forall n | 0 <= n < |t.nodes| && GraphOf(t)[n].Composed?
      ensures t.nodes[n] in plan.expected
    {
      var p :| 0 <= p < |postorder| && postorder[p] == n;
      assert plan.expected[p] == t.nodes[n];
    }
    forall p, q | 0 <= p < q < |plan.expected|
      ensures plan.expected[p].id != plan.expected[q].id
    {
      assert t.index[t.nodes[postorder[p]].id] == postorder[p];
      assert t.index[t.nodes[postorder[q]].id] == postorder[q];
    }
  }

  /** What a closed but incomplete plan reports. */
  ghost predicate ReportsMissing(t: Tables, plan: Plan) {
    && plan.missing != [] && Ascending(plan.missing)
    && (forall id :: id in plan.missing <==> id in t.index && t.index[id] < |t.nodes| && GraphOf(t)[t.index[id]] == Missing)
    && plan.operands == [] && plan.requests == [] && plan.roots == []
  }

  method ReportMissing(t: Tables, missing: seq<nat>, maximumDepth: nat) returns (plan: Plan)
    requires TablesOk(t) && missing != []
    requires forall p, q | 0 <= p < q < |missing| :: missing[p] != missing[q]
    requires forall n: nat :: n in missing <==> n < |t.nodes| && GraphOf(t)[n] == Missing
    ensures ReportsMissing(t, plan) && plan.maximumDepth == maximumDepth
  {
    assert forall p | 0 <= p < |missing| :: missing[p] in missing;
    var ids := MissingIds(t, missing);
    assert missing[0] in missing;
    assert t.nodes[missing[0]].id in ids;
    plan := Plan(t.known, [], [], [], ids, maximumDepth, []);
  }

  method Compile(input: Input, t: Tables, height: seq<nat>, postorder: seq<nat>, maximumDepth: nat) returns (plan: Plan)
    requires AllAdmitted(input, t) && Closed(GraphOf(t), input.limits.maximumDepth, height, postorder, [], maximumDepth)
    ensures Realizes(input, t, height, plan) && plan.maximumDepth == maximumDepth
  {
    var g := GraphOf(t);
    assert forall n | 0 <= n < |g| :: n !in [] && g[n] != Missing;
    ExactIsRanked(g, height);
    hide Exact, TablesOk, ChildrenFirst, Compiled, EvalRequests, AllMean, RootMeans, RequestsMean, Settled, GraphOf, RootAdmitted, AtomAdmitted, SourceAdmitted, Ranked;
    var expected := seq(|postorder|, p requires 0 <= p < |postorder| => t.nodes[postorder[p]]);
    var operands, requests, resultIndex := BuildRequests(g, postorder);
    RequestsPreserveMeaning(g, height, postorder, operands, requests, |requests|);
    CompiledTiles(g, postorder, operands, requests);
    forall n | 0 <= n < |g| && g[n].Atom?
      ensures g[n].index < |t.known|
    {
      AtomIsKnown(t, n);
    }
    CompiledIsSettled(g, postorder, operands, requests, |t.known|);
    var roots := BuildRoots(input.roots, t, height, postorder, operands, requests, resultIndex);
    plan := Plan(t.known, operands, requests, roots, [], maximumDepth, expected);
    ExpectedMeans(t, height, postorder, plan);
  }

  lemma CompiledTiles(g: Graph, postorder: seq<nat>, operands: seq<Operand>, requests: seq<Request>)
    requires Compiled(g, postorder, operands, requests)
    ensures Tiles(operands, requests)
  {
  }

  /** Evaluating the requests gives each root the atoms that the inputs, read as a
      whole, say it stands for; and they can be read in one way only. */
  ghost predicate RootsRead(input: Input, plan: Plan) {
    && InRange(plan.operands, plan.requests) && |plan.roots| == |input.roots|
    && (exists m :: Reads(input, m))
    && forall m, i | Reads(input, m) && 0 <= i < |input.roots| ::
         && plan.roots[i].entity == input.roots[i] && input.roots[i] in m
         && Named(plan.known, RootValue(plan, i)) == m[input.roots[i]]
  }

  ghost function RootValue(plan: Plan, i: nat): seq<nat>
    requires InRange(plan.operands, plan.requests) && i < |plan.roots|
  {
    OperandValue(Operand(plan.roots[i].reference, 1, plan.roots[i].kind), EvalRequests(plan.operands, plan.requests, |plan.requests|))
  }

  lemma RealizedRootsRead(input: Input, t: Tables, height: seq<nat>, plan: Plan)
    requires Represents(input, t) && Realizes(input, t, height, plan)
    ensures RootsRead(input, plan)
  {
    hide Represents, Reads, EvalRequests, Meaning, GraphOf, Settled, RequestsMean, InRange, Mentioned, Ranked, OperandValue, Named;
    MeaningReads(input, t, height);
    forall m, i | Reads(input, m) && 0 <= i < |input.roots|
      ensures plan.roots[i].entity == input.roots[i] && input.roots[i] in m && Named(plan.known, RootValue(plan, i)) == m[input.roots[i]]
    {
      RootMentioned(input, i);
      ReadsOnce(input, t, height, m, IdMeaning(t, height), input.roots[i]);
      MeaningAt(t, height, [input.roots[i]]);
      assert [input.roots[i]][0] == input.roots[i];
      assert RootMeans(plan.roots[i], input.roots[i], t, height, plan.operands, plan.requests);
    }
  }

  /** The maximum depth is the longest chain of the inputs. */
  ghost predicate DeepestChain(input: Input, maximumDepth: nat) {
    && (forall n: nat | IdChainOf(input, n) :: n <= maximumDepth)
    && (maximumDepth > 0 ==> IdChainOf(input, maximumDepth))
  }

  lemma DepthSays(input: Input, t: Tables, maximumDepth: nat)
    requires Represents(input, t) && forall p | Chain(GraphOf(t), p) :: |p| <= maximumDepth
    requires maximumDepth > 0 ==> ChainOf(GraphOf(t), maximumDepth)
    ensures DeepestChain(input, maximumDepth)
  {
    hide Represents, GraphOf, Chain, IdChainOf;
    ChainOfSays(input, t, maximumDepth);
    forall n: nat | IdChainOf(input, n)
      ensures n <= maximumDepth
    {
      ChainOfSays(input, t, n);
    }
  }

  lemma MissingSays(input: Input, t: Tables, plan: Plan)
    requires Represents(input, t) && ReportsMissing(t, plan)
    ensures forall id :: id in plan.missing <==> Unsupplied(input, id)
  {
    hide Represents, GraphOf, Mentioned, IsAtom, HasForm;
    forall id
      ensures id in plan.missing <==> Unsupplied(input, id)
    {
      if id in plan.missing {
        assert t.nodes[t.index[id]].id == id by {
          TablesInterned(input, t);
        }
        ShapeSays(input, t, t.index[id]);
      } else if Unsupplied(input, id) {
        Located(input, t, id);
        ShapeSays(input, t, t.index[id]);
      }
    }
  }

  lemma TablesInterned(input: Input, t: Tables)
    requires Represents(input, t)
    ensures Interned(t.index, t.nodes)
  {
  }

  lemma NoneMissing(input: Input, t: Tables)
    requires Represents(input, t) && forall n | 0 <= n < |t.nodes| :: GraphOf(t)[n] != Missing
    ensures forall id :: !Unsupplied(input, id)
  {
    hide Represents, GraphOf, Mentioned, IsAtom, HasForm;
    forall id | Unsupplied(input, id)
      ensures false
    {
      Located(input, t, id);
      ShapeSays(input, t, t.index[id]);
    }
  }

  lemma LimitSays(input: Input, t: Tables)
    requires Represents(input, t) && exists n :: n > input.limits.maximumDepth && ChainOf(GraphOf(t), n)
    ensures exists n :: n > input.limits.maximumDepth && IdChainOf(input, n)
  {
    hide Represents, GraphOf, ChainOf, IdChainOf;
    var n :| n > input.limits.maximumDepth && ChainOf(GraphOf(t), n);
    ChainOfSays(input, t, n);
  }

  /** One of the limits does not hold the inputs: too many identities, a form with too
      many children, or a chain that is too long. */
  ghost predicate Exceeds(input: Input) {
    || |Mentioned(input)| > input.limits.nodeCapacity
    || TooLong(input)
    || (exists n :: n > input.limits.maximumDepth && IdChainOf(input, n))
  }

  lemma AdmissionExceeds(input: Input)
    requires |Mentioned(input)| > input.limits.nodeCapacity || TooLong(input)
    ensures Exceeds(input)
  {
    hide Mentioned, TooLong, IdChainOf;
  }

  lemma ChainExceeds(input: Input)
    requires exists n :: n > input.limits.maximumDepth && IdChainOf(input, n)
    ensures Exceeds(input)
  {
    hide Mentioned, TooLong, IdChainOf;
  }

  lemma WithinLimits(input: Input, maximumDepth: nat)
    requires |Mentioned(input)| <= input.limits.nodeCapacity && !TooLong(input)
    requires DeepestChain(input, maximumDepth) && maximumDepth <= input.limits.maximumDepth
    ensures !Exceeds(input)
  {
    hide Mentioned, TooLong, IdChainOf;
  }

  /** Admission, closure and compilation in one call.  Every outcome is explained by
      the inputs alone. */
  method Create(input: Input) returns (status: Status, plan: Option<Plan>, ghost t: Tables, ghost height: seq<nat>)
    ensures status in {Ok, Incomplete, Cycle, Limit, AtomInvalid, SourceInvalid, IdentityInvalid}
    ensures plan.Some? <==> status in {Ok, Incomplete}
    ensures status in {Ok, Incomplete, Cycle} ==> Consistent(input) && Represents(input, t)
    ensures status == Ok ==> Realizes(input, t, height, plan.value) && RootsRead(input, plan.value)
    ensures status == Ok ==> forall id :: !Unsupplied(input, id)
    ensures status == Incomplete ==> ReportsMissing(t, plan.value) && forall id :: id in plan.value.missing <==> Unsupplied(input, id)
    ensures status in {Ok, Incomplete} ==> !IdCyclic(input) && DeepestChain(input, plan.value.maximumDepth)
    ensures status in {Ok, Incomplete} ==> plan.value.maximumDepth <= input.limits.maximumDepth && |Mentioned(input)| <= input.limits.nodeCapacity
    ensures status == Cycle ==> IdCyclic(input)
    ensures status == Limit ==> Exceeds(input)
    ensures Consistent(input) && !IdCyclic(input) ==> (status == Limit <==> Exceeds(input))
    ensures status in {AtomInvalid, SourceInvalid, IdentityInvalid} ==> !Consistent(input) && status == Refusal(input)
  {
    hide Realizes, RootsRead, Consistent, Represents, Exact, ChildrenFirst, Chain, Cyclic, WellFormed, ChainOf, DepthOk, RootAdmitted, AtomAdmitted, SourceAdmitted,
         IdCyclic, DeepestChain, Unsupplied, Mentioned, Refusal, ReportsMissing, TooLong, IdChainOf, Exceeds;
    height := [];
    var tables;
    status, tables := Admit(input);
    t := tables;
    if status != Ok {
      if status == Limit {
        AdmissionExceeds(input);
      }
      return status, None, t, height;
    }
    RepresentsAdmitted(input, tables);
    var g := GraphOf(tables);
    GraphIsWellFormed(tables);
    CyclicSays(input, tables);
    var order := VisitOrder(tables);
    var heights, postorder, missing, maximumDepth;
    status, heights, postorder, missing, maximumDepth := CloseGraph(g, input.limits.maximumDepth, order);
    height := heights;
    if status == Cycle || status == Limit {
      if status == Limit {
        LimitSays(input, tables);
        ChainExceeds(input);
      }
      return status, None, t, height;
    }
    ClosedIsAcyclic(g, input.limits.maximumDepth, heights, postorder, missing, maximumDepth);
    DepthSays(input, tables, maximumDepth);
    WithinLimits(input, maximumDepth);
    var built;
    if missing != [] {
      built := ReportMissing(tables, missing, maximumDepth);
      assert missing[0] in missing;
      MissingSays(input, tables, built);
      return Incomplete, Some(built), t, height;
    }
    NoneMissing(input, tables);
    built := Compile(input, tables, heights, postorder, maximumDepth);
    RealizedRootsRead(input, tables, heights, built);
    return Ok, Some(built), t, height;
  }

  lemma RepresentsAdmitted(input: Input, t: Tables)
    requires Represents(input, t)
    ensures AllAdmitted(input, t) && TablesOk(t)
  {
  }

  /** Accepts calculated results only if each has the identity and the full witness of
      the composed node its request was built from. */
  method VerifyResults(expected: seq<Node>, results: seq<(Id, Digest)>) returns (accepted: bool)
    ensures |results| != |expected| ==> !accepted
    ensures |results| == |expected| ==>
      (accepted <==> forall i | 0 <= i < |results| :: results[i].0 == expected[i].id && expected[i].identityWitness == Some(results[i].1))
  {
    if |results| != |expected| {
      return false;
    }
    for i := 0 to |results|
      invariant forall j | 0 <= j < i :: results[j].0 == expected[j].id && expected[j].identityWitness == Some(results[j].1)
    {
      if expected[i].id != results[i].0 || expected[i].identityWitness != Some(results[i].1) {
        return false;
      }
    }
    accepted := true;
  }
}
