# Laplace engine cores, modelled and proved

A Dafny model of the self-contained algorithmic cores of the Laplace native engine and
of three of its tools, with proofs of what they are for. `dafny verify dfyconfig.toml`
checks the whole project.

A method is proved against a definition, and what the definition means is proved beside
it in other terms: the rules of chess in squares and codes, each field of a packet or an
image by its offset, the energy of a boundary by its target, a step of a run by what the
services were asked and answered, the outcome of an admission by the first reason
against the inputs.

**Interpretation join** (`interpretation_join`, `interpretation_budget`,
`interpretation_engine`). Factors are relations over slots; the planner joins them
greedily through a sorted index and two binary searches under budgets. The join is
defined twice, as a nested loop and by what a solution satisfies, and the engine is
proved to publish exactly that set or nothing, and to publish it when the budgets are
ample.

**Content reference view** (`content_runs`, `content_tables`, `content_consistency`,
`content_refusal`, `content_admission`, `content_graph`, `content_closure`,
`content_inputs`, `content_requests`, `content_plan`). Roots, atoms and run-length
source forms are interned and checked against each other; an explicit-stack depth-first
search closes the graph; its postorder is compiled into requests. Admission is exact
with respect to a condition on the inputs alone, the search is exact with respect to
chains and cycles, and the request program preserves the meaning of every node. The
tables in between hold what the inputs say and nothing else, so the outcome of the whole
call is explained by the inputs.

**Conjugate-gradient solver** (`solver_vectors`, `solver_system`, `solver_meaning`,
`solver_trace`, `solver_cg`). Exact real arithmetic over the operator of the source, a
sum of weighted squares of two fields each; its symmetry and semidefiniteness are proved
from the loops that apply it, not assumed. The in-place loop carries the whole conjugate
trace. In exact arithmetic the singular-direction branch is never taken, with
regularization zero as little as with any other: the energy is a sum of squares, so no
direction that a residual calls for is flat, and every accepted program converges.

**Receipt store** (`receipt_store`, `receipt_temporaries`, `receipt_durability`). Any
number of writers, each a sequence of system calls, interleaved with faults, processes
that stop anywhere, leftover temporaries and power loss. Writers may share a process
number. That a put returned 0 does not make its receipt durable: the one that linked it
has synced the directory, but one that found it in place, or met it at its own link, has
not. For every input there is a run through each of these two paths that returns 0 too
early. A put is safe if it inspects an empty place and has no rival of its digest; if it
finds the receipt, then exactly if another put has synced or does sync the directory.

**Chess lines** (`canonical_utf8`, `canonical_plan`, `chess_rules`, `chess_batch`,
`chess_laws`, `chess_terms`, `chess_plan`, `chess_texts`). The validity checks are
proved equal to relations, the relations carry invariants over whole lines, and the
hash-consing builder yields a plan in which equal indexes mean equal things. Which terms
a batch needs is defined from the batch alone; a plan has one request for each, and the
limits refuse it exactly when those do not fit.

**Firmware** (`firmware_program`, `firmware_registers`, `firmware_layout`,
`firmware_executor`, `firmware_meaning`, with `octets` and `wire_format`). The
validator, the canonical image, the register codec and the executor. What a run may do
is a relation on histories that the answers of the services determine; safety is proved
for every history it contains.

**Packets** (`packet_rows`, `packet_records`, `packet_request`, `packet_result`,
`packet_layout`). The encoder, the size calculation, the decoder and the word adapters,
written independently of each other as in the source, agree byte for byte. A version 2
packet without a standing constraint decodes but re-encodes as version 1
(`PacketRequest.PlainInVersionTwo`); `PacketRequest.DecodedEncodes` says exactly when. A
request with boundaries is encoded without them, silently;
`PacketRequest.ReturnedExactly` says what else is not returned.

**Small tools** (`branch_lineage`, `diff3_document`, `diff3_resolve`, `diff3_text`).
Maximal-lineage subsumption and the diff3 conflict parser. When candidates share a tip
the subsumption keeps more than the maximal elements; `BranchLineage.SubsumedExactly`
says exactly which.

BLAKE3 is an arbitrary function everywhere. Where a result needs that no two inputs
collide, the lemma says so in its `requires`. `options` and `sets` hold the one shared
datatype and the one shared lemma. Memory layouts, sizes of C++ objects and the outcome
of record validation are parameters.

## Model

| member | source | states |
|---|---|---|
| `InterpretationJoin.NestedLoopExact` | engine/src/cognition_interpretation.cpp:238-326 | a state is in the nested loop over the given factors exactly when it picks one row from each, all picks agree wherever their slots meet, and everything else is unassigned: every compatible row tuple, none incompatible |
| `InterpretationJoin.NestedLoopLexicographic` | engine/src/cognition_interpretation.cpp:274-320 | the states of the nested loop are strictly increasing, lexicographically, by row along the join order; so none occurs twice |
| `InterpretationJoin.JoinOrderIrrelevant` | engine/src/cognition_interpretation.cpp:239-253 | two join orders over the same factors give the same multiset of states |
| `InterpretationJoin.VerdictExact` | engine/src/cognition_interpretation.cpp:329-339 | the disposition is no-compatible-binding exactly when nothing satisfies all factors, and unique exactly when something does and all solutions bind identical values |
| `InterpretationJoin.VerdictOrderIrrelevant` | engine/src/cognition_interpretation.cpp:329-339 | the disposition is the same for every join order |
| `InterpretationJoin.GreediestShares` | engine/src/cognition_interpretation.cpp:239-253 | if the chosen factor is linked to the joined ones through shared slots, the greediest choice shares a bound slot |
| `InterpretationJoin.NoCrossProduct` | engine/src/cognition_interpretation.cpp:239-253 | if the slot-sharing graph of the factors is connected, no round after the first is a cross product |
| `InterpretationJoin.GreediestMeans` | engine/src/cognition_interpretation.cpp:239-253 | no factor left shares more bound slots than the one chosen, among those that share as many none has fewer rows, and among those none a smaller number |
| `InterpretationJoin.SharedMeans` | engine/src/cognition_interpretation.cpp:245-247 | a factor shares as many slots as it has in common with the joined ones |
| `InterpretationJoin.PeakMeans` | engine/src/cognition_interpretation.cpp:325 | the reported peak is the largest frontier of all rounds |
| `InterpretationEngine.KeyOrderLaws` | engine/src/cognition_interpretation.cpp:230-234 | slot-by-slot comparison is antisymmetric and zero only on equal keys |
| `InterpretationEngine.InsertKeepsIndex` | engine/src/cognition_interpretation.cpp:266-273 | placing the next row before the rows that must follow it keeps a complete index, sorted by shared key and then by row |
| `InterpretationEngine.KeyEqualIsMatch` | engine/src/cognition_interpretation.cpp:275-282 | a row compares equal to a state on the shared positions exactly when it agrees with it on every bound slot |
| `InterpretationEngine.BracketIsFullScan` | engine/src/cognition_interpretation.cpp:283-297 | the rows between the two search results are the rows a full scan finds compatible, in the same order |
| `InterpretationEngine.JoinRun.CompareKeys` | engine/src/cognition_interpretation.cpp:230-234 | the sign is the lexicographic order of the keys; it gives up only when the comparison budget is used up |
| `InterpretationEngine.JoinRun.CountShared` | engine/src/cognition_interpretation.cpp:245-247 | the count of already bound slots of the candidate |
| `InterpretationEngine.JoinRun.ChooseFactor` | engine/src/cognition_interpretation.cpp:239-253 | the factor chosen has most bound slots, then fewest rows, then the smallest number, among those left |
| `InterpretationEngine.JoinRun.SharedSlots` | engine/src/cognition_interpretation.cpp:258-260 | the positions of the factor whose slots earlier factors bind |
| `InterpretationEngine.JoinRun.SortRows` | engine/src/cognition_interpretation.cpp:261-273 | all rows once, sorted by shared key and then by row, or the comparison budget is used up |
| `InterpretationEngine.JoinRun.BuildIndex` | engine/src/cognition_interpretation.cpp:258-273 | the index is complete and sorted also when no slot is shared |
| `InterpretationEngine.JoinRun.Probe` | engine/src/cognition_interpretation.cpp:274-297 | both searches return the exact bracket of rows equal to the state, or the comparison budget is used up |
| `InterpretationEngine.JoinRun.ExtendState` | engine/src/cognition_interpretation.cpp:302-319 | appends the extensions of a state by all bracketed rows, in order, and counts them; it stops only when the state or the memory budget is used up |
| `InterpretationEngine.JoinRun.JoinState` | engine/src/cognition_interpretation.cpp:274-320 | one state is extended by what a full scan finds; rejected plus extended equals the row count of the factor |
| `InterpretationEngine.JoinRun.ExtendFrontier` | engine/src/cognition_interpretation.cpp:274-320 | the new frontier is the nested-loop step over the whole frontier; rejected plus generated grows by frontier size times row count |
| `InterpretationEngine.JoinRun.JoinFactor` | engine/src/cognition_interpretation.cpp:254-320 | the indexed join of one factor refines the nested-loop step |
| `InterpretationEngine.JoinRun.Round` | engine/src/cognition_interpretation.cpp:238-326 | each round extends a greedy join order by one factor and keeps the run invariant |
| `InterpretationEngine.JoinRun.Commit` | engine/src/cognition_interpretation.cpp:321-325 | swapping in the new frontier, marking slots and factor and counting the peak keeps the run invariant |
| `InterpretationEngine.JoinRun.BindSlots` | engine/src/cognition_interpretation.cpp:323-324 | the bound marks become exactly the slots the joined factors cover |
| `InterpretationEngine.JoinRun.RunRounds` | engine/src/cognition_interpretation.cpp:238-326 | all factors are joined, or a budget is used up, or the count of rejected pairs overflows |
| `InterpretationEngine.JoinRun.AllBound` | engine/src/cognition_interpretation.cpp:327-328 | true exactly when the joined factors cover every slot |
| `InterpretationEngine.JoinRun.Execute` | engine/src/cognition_interpretation.cpp:238-345 | a result is published only if every round completed |
| `InterpretationEngine.Judge` | engine/src/cognition_interpretation.cpp:330-339 | comparing every derivation with the first decides the disposition of the whole set |
| `InterpretationBudget.FrontierWithin` | engine/src/cognition_interpretation.cpp:238-326 | in any order, the frontier after k rounds and the pairs looked at stay within bounds computed from the largest factor alone |
| `InterpretationEngine.AmpleIsEnough` | engine/src/cognition_interpretation.cpp:230-234 | a run within those bounds drains no budget and overflows no count |
| `InterpretationEngine.Execute` | engine/src/cognition_interpretation.cpp:186-356 | success publishes exactly the nested loop in a greedy order with exact receipt counts, within the budgets; invalid input and uncovered slots are refused; exhaustion is reported only with a budget used up, a range error only when the rejected-pair count has no room; with ample budgets the outcome is success exactly when every slot has a factor |
| `InterpretationEngine.PublishedIsNaturalJoin` | engine/src/cognition_interpretation.cpp:238-345 | the published derivations are exactly the solutions of all factors, each once, lexicographic in join order, never cut short |
| `InterpretationEngine.PublishedDisposition` | engine/src/cognition_interpretation.cpp:329-339 | the published disposition says whether solutions exist and whether they all bind the same values |
| `InterpretationEngine.PublishedOrderIrrelevant` | engine/src/cognition_interpretation.cpp:239-253 | any other order of all factors would have published the same multiset of derivations and the same disposition |
| `InterpretationEngine.CoverageOfAll` | engine/src/cognition_interpretation.cpp:323-328 | after all rounds a slot is bound exactly when some factor has it |
| `InterpretationEngine.ReadBinding` | engine/src/cognition_interpretation.cpp:465-481 | not-unique, unknown slot, or the value that every derivation gives the slot |
| `InterpretationEngine.InputExactly` | engine/src/cognition_interpretation.cpp:80-138 | accepted inputs name slots and factors once each, by rising nonzero digests, leave no digest and no budget of the program zero, and witness every row |
| `ContentRuns.PushExpands` | engine/src/content_reference_view.cpp:217-219 | appending a run, merged or not, appends its repeated child to the expansion |
| `ContentRuns.NormalizeExpands` | engine/src/content_reference_view.cpp:210-222 | the merged list expands to the same child sequence as the carriers |
| `ContentRuns.NormalizeIsNormal` | engine/src/content_reference_view.cpp:210-222 | the merged list has no equal neighbours when run lengths are positive |
| `ContentRuns.NormalUnique` | engine/src/content_reference_view.cpp:224-230 | two merged lists with the same expansion are equal run by run |
| `ContentRuns.SameFormExactly` | engine/src/content_reference_view.cpp:210-234 | two carrier lists merge to the same runs exactly when they expand to the same children |
| `ContentGraph.RankedIsAcyclic` | engine/src/content_reference_view.cpp:256-272 | a graph whose every edge goes down in height has no cycle |
| `ContentGraph.ExactHeightIsLongest` | engine/src/content_reference_view.cpp:264-268 | heights that are one more than the largest below are the lengths of the longest chains |
| `ContentGraph.MeaningIndependent` | engine/src/content_reference_view.cpp:281-293 | what a node stands for does not depend on the ranking used to define it |
| `ContentGraph.MeaningIsFlattening` | engine/src/content_reference_view.cpp:281-293 | the meaning of a run list is the flattening of the expanded child sequence, with multiplicities |
| `ContentConsistency.ExpandRenamed` | engine/src/content_reference_view.cpp:210-222 | interning renames an expansion child by child |
| `ContentConsistency.FormsAgreeExactly` | engine/src/content_reference_view.cpp:210-234 | in one set of tables two forms expand to the same nodes exactly when they list the same child identities |
| `ContentConsistency.AdmittedIsConsistent` | engine/src/content_reference_view.cpp:152-237 | inputs recorded together are consistent: witnesses, placements and child lists of equal identities agree and no atom has children |
| `ContentRefusal.FormRefused` | engine/src/content_reference_view.cpp:224-230 | a form that expands otherwise than the recorded one is refused because an earlier form of the entity lists other children |
| `ContentRefusal.AtomRefusalExact` | engine/src/content_reference_view.cpp:152-182 | there is a reason against an atom exactly when it is not in order or disagrees with an earlier one |
| `ContentRefusal.SourceRefusalExact` | engine/src/content_reference_view.cpp:183-237 | there is a reason against a form exactly when it is not in order or disagrees with an atom or an earlier form |
| `ContentRefusal.RefusalExact` | engine/src/content_reference_view.cpp:330-341 | there is a first reason against the inputs exactly when they are inconsistent |
| `ContentConsistency.WitnessExactly` | engine/src/content_reference_view.cpp:147-151 | a witness fits an entity exactly when it is not all zero and its first sixteen bytes are the identity |
| `ContentTables.AdmittedFormsAgree` | engine/src/content_reference_view.cpp:224-234 | two forms of one entity in the tables have the same witness and the same expansion |
| `ContentAdmission.SameForm` | engine/src/content_reference_view.cpp:224-230 | the run-by-run comparison of merged forms decides equality of their expansions |
| `ContentAdmission.PushCarrier` | engine/src/content_reference_view.cpp:217-221 | counting one more carrier keeps merged list and ordinal those of the carriers so far; it does not fit only if those overflow |
| `ContentAdmission.Admission.NodeFor` | engine/src/content_reference_view.cpp:139-146 | finds or interns; refuses exactly when a new identity meets a full table; nothing else changes |
| `ContentAdmission.Admission.AdmitRoots` | engine/src/content_reference_view.cpp:330-334 | the roots are interned, or more identities are mentioned than nodes allowed |
| `ContentAdmission.Admission.Witness` | engine/src/content_reference_view.cpp:147-151 | refused exactly when zero, not of this identity, or different from the recorded one |
| `ContentAdmission.Admission.Identify` | engine/src/content_reference_view.cpp:195-198 | interns and witnesses one node and touches no other |
| `ContentAdmission.Admission.AdmitAtom` | engine/src/content_reference_view.cpp:152-182 | the atom is recorded with witness and placement, or turned away for the first reason against it, or the table is full |
| `ContentAdmission.Admission.AdmitAtoms` | engine/src/content_reference_view.cpp:152-182 | all atoms are recorded, or the first reason against the inputs is returned; a limit means more identities than nodes |
| `ContentAdmission.Admission.MergeCarriers` | engine/src/content_reference_view.cpp:210-222 | the merged list is the normal form of the interned carriers; it fails only on an undecodable carrier, more identities than nodes, or carriers up to one that overflow a run or the ordinal after it, and succeeds only if none does |
| `ContentAdmission.Admission.RecordForm` | engine/src/content_reference_view.cpp:223-234 | a second form is refused exactly when it expands differently from the recorded one |
| `ContentAdmission.Admission.AdmitForm` | engine/src/content_reference_view.cpp:209-234 | a form whose node is identified is recorded, or turned away for the first reason against it |
| `ContentAdmission.Admission.AdmitSource` | engine/src/content_reference_view.cpp:183-237 | a source form is recorded, or turned away for the first reason against it, or a limit is hit |
| `ContentAdmission.Admission.AdmitSources` | engine/src/content_reference_view.cpp:183-237 | all forms are recorded, or the first reason against the inputs is returned; a limit means more identities than nodes or a form that overflows |
| `ContentConsistency.WithinBounds` | engine/src/content_reference_view.cpp:139-146 | the tables have no more nodes than the inputs mention identities, and as many once all are interned |
| `ContentAdmission.Admit` | engine/src/content_reference_view.cpp:330-341 | success means consistent inputs, no overflowing form, and tables that hold what the inputs say and nothing else: every node is mentioned, every witness, atom and form was supplied; a refusal means inconsistent inputs and is the first reason against them; a limit means more identities mentioned than nodes allowed, or a form whose run or ordinal overflows 64 bits |
| `ContentClosure.GrayChildIsCycle` | engine/src/content_reference_view.cpp:257-259 | a gray child closes a cycle through the stack |
| `ContentClosure.Closure.Enter` | engine/src/content_reference_view.cpp:248-251 | entering a frame keeps the search invariant; a limit is reported only with a chain longer than the limit |
| `ContentClosure.Closure.Leave` | engine/src/content_reference_view.cpp:252-255 | leaving blackens the node of the top frame and nothing else |
| `ContentClosure.Closure.Record` | engine/src/content_reference_view.cpp:253-271 | a finished node goes to the missing list or the postorder and keeps both exact |
| `ContentClosure.Closure.Follow` | engine/src/content_reference_view.cpp:256-269 | one edge: a cycle is reported only if there is one, a limit only if a chain exceeds it |
| `ContentClosure.Closure.Advance` | engine/src/content_reference_view.cpp:264-269 | passing a settled child raises height and depth and keeps the invariant |
| `ContentClosure.Closure.Visit` | engine/src/content_reference_view.cpp:246-273 | the search from one start terminates with that node black |
| `ContentClosure.Closure.Close` | engine/src/content_reference_view.cpp:238-280 | the search from every node ends closed, cyclic or over the limit |
| `ContentClosure.ClosedIsAcyclic` | engine/src/content_reference_view.cpp:238-280 | success means no cycle, heights are longest chains, and the maximum depth is the longest chain of the graph, whatever the visiting order |
| `ContentClosure.CloseGraph` | engine/src/content_reference_view.cpp:238-280 | cycle only on cyclic graphs; on acyclic graphs the limit is reported exactly when some chain exceeds it; incomplete exactly when a node has neither atom nor topology |
| `ContentRequests.BuildRequests` | engine/src/content_reference_view.cpp:281-293 | the requests compile the postorder one node each, and the result index inverts it |
| `ContentRequests.RunOperands` | engine/src/content_reference_view.cpp:284-290 | each operand names the atom of the child or the earlier request that builds it, with the multiplicity of the run |
| `ContentRequests.CompiledIsSettled` | engine/src/content_reference_view.cpp:286-289 | every prior-result operand refers to a strictly earlier request, every other one to a known entity in range |
| `ContentRequests.RequestsPreserveMeaning` | engine/src/content_reference_view.cpp:281-293 | evaluating the requests in order gives every composed node the atom sequence of its recursive expansion |
| `ContentInputs.FormInGraph` | engine/src/content_reference_view.cpp:231-234 | the node of an admitted form lists exactly the children of that form |
| `ContentInputs.ShapeSays` | engine/src/content_reference_view.cpp:252-253 | a node is an atom, composed, or missing exactly when the inputs supply an atom, a form, or neither for its identity |
| `ContentInputs.EdgeSays` | engine/src/content_reference_view.cpp:256-258 | a node has another as a child exactly when some supplied form of the one lists the other |
| `ContentInputs.CyclicSays` | engine/src/content_reference_view.cpp:257-259 | the graph searched has a cycle exactly when the supplied forms do |
| `ContentInputs.ChainOfSays` | engine/src/content_reference_view.cpp:249-268 | chains of the graph and of the supplied forms have the same lengths |
| `ContentInputs.MentionedExactly` | engine/src/content_reference_view.cpp:195-215 | mentioned are roots, atoms, entities of forms, and the children of forms that are neither atomic nor of logical count 1 |
| `ContentInputs.UnsuppliedExactly` | engine/src/content_reference_view.cpp:202-207 | missing is exactly what is mentioned, is no atom, and has only forms that are atomic or of logical count 1 |
| `ContentInputs.EdgeExactly` | engine/src/content_reference_view.cpp:202-219 | an entity has a child exactly when a form of it that is neither atomic nor of logical count 1 lists that child |
| `ContentInputs.ContradictExactly` | engine/src/content_reference_view.cpp:224-230 | two forms contradict each other exactly when they give an entity two witnesses or, neither being atomic or of logical count 1, two child lists |
| `ContentInputs.TransparentSuppliesNothing` | engine/src/content_reference_view.cpp:202-207 | adding a form that is atomic or of logical count 1 adds no edge, no cycle and no chain beyond its own identity, leaves everything missing that was, and contradicts nothing but another witness |
| `ContentInputs.MeaningReads` | engine/src/content_reference_view.cpp:281-293 | what the nodes mean is a reading of the inputs: an atom is itself, an entity is its children in order and with repetition |
| `ContentInputs.ReadsOnce` | engine/src/content_reference_view.cpp:281-293 | inputs without missing entities and cycles have one reading |
| `ContentPlan.RealizedRootsRead` | engine/src/content_reference_view.cpp:299-305 | evaluating the requests gives every root the atom identities that the one reading of the inputs gives it |
| `ContentPlan.ComposedIsWitnessed` | engine/src/content_reference_view.cpp:291 | a composed node always carries a witness, so the identity check while building never fires |
| `ContentPlan.VisitOrder` | engine/src/content_reference_view.cpp:243-244 | the visit starts from every node |
| `ContentPlan.MissingIds` | engine/src/content_reference_view.cpp:274-277 | the missing identities, once each, ascending |
| `ContentPlan.BuildRoots` | engine/src/content_reference_view.cpp:299-305 | each root reference evaluates to what the root stands for |
| `ContentPlan.ExpectedMeans` | engine/src/content_reference_view.cpp:292-296 | each composed node is built by exactly one request, whose result is what the node stands for |
| `ContentPlan.ReportMissing` | engine/src/content_reference_view.cpp:274-277 | an incomplete plan lists exactly the identities without atom and topology |
| `ContentPlan.Compile` | engine/src/content_reference_view.cpp:281-308 | the compiled plan realizes the graph: tiling operand ranges, settled references, one request per composed node, roots that mean their entities |
| `ContentPlan.Create` | engine/src/content_reference_view.cpp:315-359 | every outcome is explained by the inputs alone: success gives each root its reading and means nothing is missing; incomplete lists exactly the identities mentioned but not supplied; depth is the longest chain of supplied forms; cycle means they are cyclic; identity, atom and source errors are the first reason against inconsistent inputs; and for consistent inputs without a cycle the limit is reported exactly when they mention more identities than nodes are allowed, or a form overflows 64 bits, or a chain is too long |
| `ContentPlan.VerifyResults` | engine/src/content_reference_view.cpp:377-394 | results are accepted exactly when each has the identity and full witness of the node its request was built from |
| `Vectors.OrthogonalAtMost` | engine/src/cognition_solver.cpp:379-436 | n coordinates hold at most n pairwise orthogonal nonzero vectors |
| `QuadraticSystem.ApplySymmetric` | engine/src/cognition_operator_part04.inc:31-43 | the assembled linear part is symmetric |
| `QuadraticSystem.ApplyNonnegative` | engine/src/cognition_operator_part04.inc:31-43 | its quadratic form is at least regularization times the squared norm, so positive semidefinite |
| `QuadraticSystem.GradientAxpy` | engine/src/cognition_solver.cpp:316-321 | along a step the gradient moves by the step times the linear part |
| `QuadraticSystem.EnergyAxpy` | engine/src/cognition_solver.cpp:443-453 | along a step the energy is the exact quadratic with the gradient as slope |
| `QuadraticSystem.EnergyNonnegative` | engine/src/cognition_solver.cpp:443-453 | the energy of a valid system is never negative |
| `ConjugateTrace.ResidualIsGradient` | engine/src/cognition_solver.cpp:399-402 | the recurrence residual stays minus the true gradient of operator, boundaries and regularization |
| `ConjugateTrace.NewResidualOrthogonal` | engine/src/cognition_solver.cpp:399-402 | the new residual is orthogonal to every earlier one |
| `ConjugateTrace.NewDirectionConjugate` | engine/src/cognition_solver.cpp:426-434 | the new direction is conjugate to every earlier one |
| `ConjugateTrace.ResidualAgainstLast` | engine/src/cognition_solver.cpp:399-402 | the new residual is orthogonal to the direction just used |
| `ConjugateTrace.NextDirection` | engine/src/cognition_solver.cpp:426-434 | the new direction has residual dot direction equal to residual dot residual, and all conjugacies |
| `ConjugateTrace.ExtendTrace` | engine/src/cognition_solver.cpp:388-402 | a step with alpha from the residual and the curvature keeps the whole trace invariant |
| `ConjugateTrace.EnergyDrop` | engine/src/cognition_solver.cpp:388-402 | each step lowers the total energy by exactly (r.r)^2 / (2 d.Ad), with positive curvature |
| `ConjugateTrace.EnergyFalls` | engine/src/cognition_solver.cpp:379-436 | energy strictly falls from any iterate to any later one |
| `ConjugateTrace.PositiveCurvature` | engine/src/cognition_solver.cpp:388-392 | while a residual is left every direction has positive curvature, also without regularization: a flat one would lower an energy that is never negative without end |
| `ConjugateTrace.StepsAtMostFields` | engine/src/cognition_solver.cpp:379-436 | there are at most as many steps as fields, and fewer while the residual is nonzero |
| `ConjugateTrace.GradientBound` | engine/src/cognition_solver.cpp:443-453 | 2 lambda times the energy above any point is at most the squared gradient |
| `ConjugateTrace.ResidualBoundsEnergy` | engine/src/cognition_solver.cpp:421-424 | the residual bounds how far every iterate is above the minimum; a zero residual is a minimum |
| `ConjugateTrace.ZeroGradientIsMinimum` | engine/src/cognition_solver.cpp:316-321 | a zero gradient is a global minimum |
| `ConjugateGradients.BoundaryScatter` | engine/src/cognition_solver.cpp:178-188 | a boundary acts as a constraint on one field |
| `ConjugateGradients.LinearJoined` | engine/src/cognition_solver.cpp:212-217 | applying operator terms and then boundary terms is applying the joined list |
| `ConjugateGradients.GradientJoined` | engine/src/cognition_solver.cpp:310-316 | the same for gradients |
| `ConjugateGradients.EnergyJoined` | engine/src/cognition_solver.cpp:443-453 | the same for energies |
| `SystemMeaning.DistancesAre` | engine/src/cognition_solver.cpp:190-203 | the energy of the boundaries is the sum of half the precision times the squared distance of the field from its target |
| `SystemMeaning.TargetPullIs` | engine/src/cognition_solver.cpp:165-176 | their gradient at a field is the sum of precision times field minus target |
| `SystemMeaning.TargetsMet` | engine/src/cognition_solver.cpp:190-203 | the boundaries cost nothing exactly where every bounded field has its target |
| `SystemMeaning.SquaresAre` | engine/src/cognition_operator_part01.inc:199-225 | the energy of the operator is the sum of half the precision times the squared residual of each constraint |
| `SystemMeaning.PullIs` | engine/src/cognition_operator_part01.inc:199-225 | its gradient at a field is what the constraints on that field pull |
| `ConjugateGradients.CostIs` | engine/src/cognition_solver.cpp:443-453 | the energy of the assembled system in the numbers of constraints, targets and regularization |
| `ConjugateGradients.SlopeIs` | engine/src/cognition_solver.cpp:310-321 | the gradient of the assembled system, field by field |
| `ConjugateGradients.ThresholdIs` | engine/src/cognition_solver.cpp:327-330 | a squared residual is within the threshold exactly when the residual is within the absolute tolerance or the relative one times the initial residual |
| `ConjugateGradients.DotProduct` | engine/src/cognition_solver.cpp:151-157 | the loop computes the inner product |
| `ConjugateGradients.ApplyOperator` | engine/src/cognition_operator_part01.inc:199-225 | the loop computes the gradient and the energy of all constraints |
| `ConjugateGradients.ApplyOperatorLinear` | engine/src/cognition_operator_part04.inc:12-45 | the loop computes the linear part of all constraints |
| `ConjugateGradients.ApplyBoundaryGradient` | engine/src/cognition_solver.cpp:165-176 | adds the gradient of the boundaries to what is there |
| `ConjugateGradients.ApplyBoundaryLinear` | engine/src/cognition_solver.cpp:178-188 | adds the linear part of the boundaries to what is there |
| `ConjugateGradients.BoundaryEnergy` | engine/src/cognition_solver.cpp:190-203 | the energy of the boundaries |
| `ConjugateGradients.ApplyLinearRegularized` | engine/src/cognition_solver.cpp:205-228 | the output is the linear part of the whole system, whatever was in the buffer |
| `ConjugateGradients.MoveAlong` | engine/src/cognition_solver.cpp:399-402 | solution and residual move along direction and product, in place |
| `ConjugateGradients.Turn` | engine/src/cognition_solver.cpp:432-434 | the new direction, in place |
| `ConjugateGradients.BoundariesValid` | engine/src/cognition_solver.cpp:86-106 | accepts exactly well-formed boundaries with pairwise different receipts |
| `ConjugateGradients.Oppose` | engine/src/cognition_solver.cpp:317-321 | residual and first direction are minus the gradient, in place |
| `ConjugateGradients.InitialGradient` | engine/src/cognition_solver.cpp:310-321 | the starting gradient is that of the whole system |
| `ConjugateGradients.FinalEnergy` | engine/src/cognition_solver.cpp:443-453 | the reported energy is that of the whole system at the solution |
| `ConjugateGradients.Iterate` | engine/src/cognition_solver.cpp:379-436 | one pass either finds a flat direction and changes nothing, or extends the conjugate trace by one step |
| `ConjugateGradients.Run` | engine/src/cognition_solver.cpp:376-437 | the loop ends with a complete trace and the disposition that trace calls for |
| `ConjugateGradients.Solve` | engine/src/cognition_solver.cpp:299-458 | the receipt reports the true iterations, squared residuals, energy and disposition of a conjugate trace from the initial to the returned state; never a singular direction, and the tolerance is met when as many iterations as fields are allowed |
| `ConjugateGradients.Execute` | engine/src/cognition_solver.cpp:257-479 | each refusal exactly when its check fails, in order, leaving the output untouched; otherwise solved, with no singular direction and the tolerance met when as many iterations as fields are allowed; the energy reported is that of constraints, targets and regularization at the solution returned; nothing beyond the fields is written |
| `ConjugateGradients.CallExactly` | engine/src/cognition_solver.cpp:67-106 | the calls that are accepted, in numbers; no two boundaries share a receipt |
| `ConjugateGradients.NeverFlat` | engine/src/cognition_solver.cpp:388-392 | no reachable direction is flat while a residual is left, whatever the regularization |
| `ConjugateGradients.Converges` | engine/src/cognition_solver.cpp:376-437 | for every accepted program a singular direction is never reported, at most as many iterations as fields are made, and with that many allowed the residual meets the threshold |
| `ConjugateGradients.AnswerMeans` | engine/src/cognition_solver.cpp:438-457 | the receipt in the numbers of the inputs: energy at the answer, and a final residual that is what still pulls at each field |
| `ConjugateGradients.SolvedNearMinimum` | engine/src/cognition_solver.cpp:438-457 | the energy is never above the initial one, and the final squared residual bounds its distance from the minimum |
| `ReceiptStore.OpenGood` | tools/receipt_store.cpp:229-245 | an exclusive create, taken or not, keeps the invariant of the store |
| `ReceiptStore.WriteGood` | tools/receipt_store.cpp:160-173 | so does a possibly partial write |
| `ReceiptStore.SyncGood` | tools/receipt_store.cpp:246-249 | so does syncing the temporary file |
| `ReceiptStore.LinkGood` | tools/receipt_store.cpp:258-268 | so does the link, which publishes only complete, synced bytes under their own digest and never replaces a name |
| `ReceiptStore.UnlinkGood` | tools/receipt_store.cpp:250-268 | so does removing a temporary of its own |
| `ReceiptStore.SyncRootGood` | tools/receipt_store.cpp:268-273 | so does syncing the directory |
| `ReceiptStore.OpenStoredGood` | tools/receipt_store.cpp:103-124 | so does opening the stored file |
| `ReceiptStore.ReadGood` | tools/receipt_store.cpp:126-158 | so does reading and comparing it |
| `ReceiptStore.OtherWriterOk` | tools/receipt_store.cpp:202-279 | a step of one writer leaves the state of every other writer sound |
| `ReceiptStore.LoseKeeps` | tools/receipt_store.cpp:246-273 | power loss, with any subset of unsynced names and contents lost, keeps the invariant |
| `ReceiptStore.StepKeeps` | tools/receipt_store.cpp:202-279 | every step, fault, stop, new writer or power loss keeps the invariant |
| `ReceiptStore.RunKeeps` | tools/receipt_store.cpp:202-279 | so does every interleaving of any number of writers |
| `ReceiptStore.PublishedIsComplete` | tools/receipt_store.cpp:202-279 | in every run a file named by a digest holds complete bytes with that digest |
| `ReceiptStore.StepImmutable` | tools/receipt_store.cpp:258-268 | a step never changes a published receipt, and only power loss before the directory sync can remove its name |
| `ReceiptStore.PublishedIsImmutable` | tools/receipt_store.cpp:202-279 | without power loss a published receipt stays, unchanged, for the rest of every run |
| `ReceiptStore.SuccessMeansStored` | tools/receipt_store.cpp:202-279 | a put that returned 0 left its own input bytes stored |
| `ReceiptStore.RunEndsWell` | tools/receipt_store.cpp:202-279 | a writer without faults ends only with success or after every temporary name was seen taken |
| `ReceiptStore.RacersSucceed` | tools/receipt_store.cpp:202-279 | without I/O faults and digest collisions every racing put that ends succeeds, unless all sixteen of its temporary names were taken |
| `ReceiptStore.StepsRunOut` | tools/receipt_store.cpp:202-279 | each step lowers a bounded rank, so every put ends |
| `ReceiptTemporaries.RunAccounted` | tools/receipt_store.cpp:225-279 | in every run each temporary name was there at the start, or is in the hand of the put that made it, or that put met a fault, a stop or power loss |
| `ReceiptTemporaries.NothingLeft` | tools/receipt_store.cpp:250-279 | a put that ended without a fault, having published, lost the race or found its receipt, left no temporary name of its own |
| `ReceiptTemporaries.FaultDecides` | tools/receipt_store.cpp:202-279 | the exit code after a failing call is that of the call, in every continuation |
| `ReceiptTemporaries.RunEndsExactly` | tools/receipt_store.cpp:202-279 | an undisturbed put ends with 0 exactly when its own bytes are stored, with 65 or 73 when other bytes of its digest are, and with 73 when all sixteen temporary names were taken |
| `ReceiptDurability.SurvivesExactly` | tools/receipt_store.cpp:258-273 | a receipt outlasts every power loss exactly when its name is in the synced directory, and what survives is unchanged |
| `ReceiptDurability.PublisherIsDurable` | tools/receipt_store.cpp:258-273 | the put that linked the receipt and returned 0 left it durable |
| `ReceiptDurability.AbsentThenDurable` | tools/receipt_store.cpp:211-279 | a put that inspects an empty place, with no other put of its digest under way until it ends, is durable if it returns 0 |
| `ReceiptDurability.DurableExactly` | tools/receipt_store.cpp:267-273 | after any run a receipt is durable exactly when it was before, or some publisher synced the directory while the name was there |
| `ReceiptDurability.PresentThenDurableExactly` | tools/receipt_store.cpp:213-220 | a put that finds the receipt at its inspection adds nothing: the receipt is durable exactly when it already was, or another put synced the directory since |
| `ReceiptDurability.FoundMayNotBeDurable` | tools/receipt_store.cpp:213-220 | for every input there is a run in which a put finds the receipt at its inspection and returns 0 before it is durable |
| `ReceiptDurability.RacedMayNotBeDurable` | tools/receipt_store.cpp:258-278 | for every input there is a run in which a put inspects an empty place, meets the receipt at its link, and returns 0 before it is durable |
| `CanonicalUtf8.Continue` | engine/src/canonical_composition_plan.hpp:54-61 | the continuation bytes are all well-formed, or not; the value is what they gather |
| `CanonicalUtf8.Recompose` | engine/src/canonical_composition_plan.hpp:32-65 | lead and continuations that pass the checks are the encoding of the gathered scalar (RFC 3629, section 3) |
| `CanonicalUtf8.Decompose` | engine/src/canonical_composition_plan.hpp:32-65 | the encoding of every scalar passes the checks and gathers to it |
| `CanonicalUtf8.PrefixFree` | engine/src/canonical_composition_plan.hpp:25-70 | no encoding of a scalar is a proper prefix of another |
| `CanonicalUtf8.EncodePrefix` | engine/src/canonical_composition_plan.hpp:25-70 | encodings of scalar sequences share a prefix only if the sequences do |
| `CanonicalUtf8.EncodeInjective` | engine/src/canonical_composition_plan.hpp:25-70 | equal encodings come from equal sequences |
| `CanonicalUtf8.EncodeMeans` | engine/src/canonical_composition_plan.hpp:25-70 | how many bytes a scalar takes, how they are marked and what they gather to, in numbers (RFC 3629, section 3) |
| `CanonicalUtf8.TextUnique` | engine/src/canonical_composition_plan.hpp:25-70 | a text has one decoding |
| `CanonicalUtf8.DecodeUtf8` | engine/src/canonical_composition_plan.hpp:25-70 | accepts exactly the non-empty concatenations of encodings of Unicode scalar values and returns those scalars (RFC 3629, sections 3 and 4) |
| `CanonicalPlan.MeaningInjective` | engine/src/canonical_composition_plan.hpp:175-193 | in a plan with ordered, distinct contents two indexes that denote the same term are equal: sharing is maximal |
| `CanonicalPlan.MeaningStays` | engine/src/canonical_composition_plan.hpp:212-230 | later requests never change what an earlier index denotes |
| `CanonicalPlan.SpellsInjective` | engine/src/canonical_composition_plan.hpp:135-150 | equal operand ranges spell equal contents |
| `CanonicalPlan.TiledAppend` | engine/src/canonical_composition_plan.hpp:212-230 | appending a request for the operands just pushed keeps the ranges tiling |
| `CanonicalPlan.TiledApart` | engine/src/canonical_composition_plan.hpp:175-231 | no two requests have equal operand lists |
| `CanonicalPlan.TiledEarlier` | engine/src/canonical_composition_plan.hpp:184-191 | prior references are strictly earlier |
| `CanonicalPlan.TiledIsShared` | engine/src/canonical_composition_plan.hpp:113-231 | operand ranges tile the operand array, prior references are earlier, operand lists differ |
| `CanonicalPlan.TiledSize` | engine/src/canonical_composition_plan.hpp:212-230 | requests and operands are as many as the contents and what these take |
| `CanonicalPlan.MeaningsCount` | engine/src/canonical_composition_plan.hpp:126-231 | a shared plan denotes exactly as many terms as it has requests, and its operands are what those terms weigh |
| `CanonicalPlan.NoRoom` | engine/src/canonical_composition_plan.hpp:126-231 | a term not yet requested that finds no room shows that the terms to be requested exceed a limit |
| `CanonicalPlan.SubtermsMeant` | engine/src/canonical_composition_plan.hpp:175-193 | a plan that requests a term requests all its parts |
| `CanonicalPlan.DecimalInjective` | engine/src/canonical_composition_plan.hpp:72-80 | numerals of different numbers differ |
| `CanonicalPlan.DecimalReads` | engine/src/canonical_composition_plan.hpp:72-80 | a numeral writes its number in decimal, without leading zeros |
| `CanonicalPlan.NumberFresh` | engine/src/canonical_composition_plan.hpp:154-173 | a number not in its memo has no request yet |
| `CanonicalPlan.Builder.AtomIndex` | engine/src/canonical_composition_plan.hpp:113-124 | one index per scalar, kept |
| `CanonicalPlan.Builder.PushLetters` | engine/src/canonical_composition_plan.hpp:139-145 | the operands spell the text |
| `CanonicalPlan.Builder.PushChildren` | engine/src/canonical_composition_plan.hpp:184-191 | the operands name the earlier results in order, tag first, exactly when there are such results |
| `CanonicalPlan.Builder.String` | engine/src/canonical_composition_plan.hpp:126-152 | the request of a text, made once; a failure is a text that is malformed or that the caller has not announced, or the announced terms exceed a limit |
| `CanonicalPlan.Builder.NodeRequest` | engine/src/canonical_composition_plan.hpp:175-193 | a record of new children gets a new request; a failure is a record the caller has not announced, or the announced terms exceed a limit |
| `CanonicalPlan.Builder.Number` | engine/src/canonical_composition_plan.hpp:154-173 | the request of a numeral, made once, with the same two causes of failure |
| `CanonicalPlan.Builder.AddRequest` | engine/src/canonical_composition_plan.hpp:212-230 | appends one request or, exactly when there is nothing to request or no room, nothing |
| `ChessRules.CountKings` | engine/src/chess_line.cpp:46-54 | codes and pawn ranks are right, and the counts are the kings of each side |
| `ChessRules.EnPassantSquare` | engine/src/chess_line.cpp:67-79 | true exactly when the en-passant square is supported by the board |
| `ChessRules.ValidPosition` | engine/src/chess_line.cpp:41-81 | accepts exactly sound positions: one king each, no pawn on a last rank, rights with king and rook at home, a supported en-passant square |
| `ChessRules.CastleAllowed` | engine/src/chess_line.cpp:105-120 | true exactly when right, king, rook and empty path are there |
| `ChessRules.Expect` | engine/src/chess_line.cpp:101-145 | the expected board, square by square, exactly when the move is well formed |
| `ChessRules.KeepRights` | engine/src/chess_line.cpp:148-160 | the mask loop leaves exactly the rights that survive the move |
| `ChessRules.ValidTransition` | engine/src/chess_line.cpp:87-172 | accepts exactly the transitions of the relation: move form, board, rights, side and en-passant square |
| `ChessRules.ChainIsPlaced` | engine/src/chess_line.cpp:101-147 | the board after is the chain of single-square updates of the move |
| `ChessRules.TallyTransition` | engine/src/chess_line.cpp:101-147 | every piece count changes by the piece taken and the promotion alone |
| `ChessRules.KingStays` | engine/src/chess_line.cpp:98-147 | each side keeps its number of kings |
| `ChessRules.RightsBits` | engine/src/chess_line.cpp:148-161 | a right survives exactly when the move does not forfeit it, and rights never grow |
| `ChessRules.HomeStays` | engine/src/chess_line.cpp:148-161 | rights still imply king and rook on their home squares |
| `ChessRules.CodesStay` | engine/src/chess_line.cpp:146-147 | all squares still hold piece codes |
| `ChessRules.SoundStays` | engine/src/chess_line.cpp:87-172 | the transition check alone keeps a position sound |
| `ChessRules.PiecesChange` | engine/src/chess_line.cpp:98-147 | the count of the mover is unchanged, and that of the opponent drops by one exactly on captures |
| `ChessRules.LineSound` | engine/src/chess_line.cpp:202-211 | every position of a line is sound, from the first position and the transitions alone |
| `ChessRules.LineRightsShrink` | engine/src/chess_line.cpp:202-211 | a right held later in a line was held at every earlier position |
| `ChessRules.LinePieces` | engine/src/chess_line.cpp:202-211 | pieces left plus pieces taken is constant along a line, for each side |
| `ChessRules.LineDetermined` | engine/src/chess_line.cpp:202-211 | first position and moves determine every later board, side and rights |
| `ChessLaws.CountedOnce` | engine/src/chess_line.cpp:49-57 | a piece is counted once exactly when one square has it and no other |
| `ChessLaws.PositionExactly` | engine/src/chess_line.cpp:41-81 | sound positions in numbers: codes, pawns off the last ranks, one king each, rights with king and rook at home, a supported target |
| `ChessLaws.CastlingIs` | engine/src/chess_line.cpp:105-123 | castling: the king goes two squares towards its own rook in the corner with nothing between, the rook goes to the square the king crossed, both home squares are empty, and no other square changes |
| `ChessLaws.PassingIs` | engine/src/chess_line.cpp:124-137 | taking in passing: the pawn goes diagonally to the target, the enemy pawn beside it goes, and no other square changes |
| `ChessLaws.OrdinaryIs` | engine/src/chess_line.cpp:138-145 | any other move: the piece, or what a pawn on the last rank is promoted to, lands on a square with no piece of its own and no king; only a double step leaves a target, behind it |
| `ChessLaws.RightsAre` | engine/src/chess_line.cpp:148-161 | the four rights after a move, one by one |
| `ChessLaws.TransitionExactly` | engine/src/chess_line.cpp:87-172 | the transitions from a sound position are exactly the moves these laws describe |
| `ChessLaws.LineExactly` | engine/src/chess_line.cpp:202-211 | a line is accepted exactly when every ply of it obeys the laws |
| `ChessBatch.CheckRanges` | engine/src/chess_line.cpp:187-201 | accepts exactly the lines that partition positions and moves and fit the operand limit |
| `ChessBatch.CheckSteps` | engine/src/chess_line.cpp:204-211 | all transitions of a line hold, or not |
| `ChessBatch.Validate` | engine/src/chess_line.cpp:174-213 | accepts exactly well-formed batches, and otherwise returns the first reason against the batch: version, shape, sizes, the first line out of place or too long, a position, a transition |
| `ChessBatch.AcceptedLine` | engine/src/chess_line.cpp:204-211 | each line of an accepted batch is a line of the transition relation |
| `ChessLaws.BatchExactly` | engine/src/chess_line.cpp:174-213 | a batch is accepted exactly when its sizes fit, its lines follow each other through both arrays, and every position and ply obeys the laws |
| `ChessTerms.PieceTermInjective` | engine/src/chess_line.cpp:282-289 | different piece codes have different terms |
| `ChessTerms.NumberTermInjective` | engine/src/canonical_composition_plan.hpp:154-173 | different numbers have different terms |
| `ChessTerms.SquareTermInjective` | engine/src/chess_line.cpp:290-297 | different squares have different terms |
| `ChessTerms.BoardInjective` | engine/src/chess_line.cpp:306-307 | boards can be read back |
| `ChessTerms.RightsInjective` | engine/src/chess_line.cpp:308-310 | rights can be read back |
| `ChessTerms.PositionTermInjective` | engine/src/chess_line.cpp:298-316 | position keys can be read back from their terms |
| `ChessTerms.MoveTermInjective` | engine/src/chess_line.cpp:317-331 | moves with their piece can be read back from their terms |
| `ChessTerms.LinePartsInjective` | engine/src/chess_line.cpp:243-256 | a line can be read back: its positions and its moves |
| `ChessPlan.RecordsAppend` | engine/src/chess_line.cpp:267-278 | a child list not in the memo has no request yet |
| `ChessPlan.LineBuilder.Text` | engine/src/chess_line.cpp:263-266 | the index denotes the text, or a limit was hit |
| `ChessPlan.LineBuilder.Record` | engine/src/chess_line.cpp:267-278 | the index denotes the record of the parts; absent parts give no record |
| `ChessPlan.LineBuilder.Field` | engine/src/chess_line.cpp:279-281 | the index denotes the named field |
| `ChessPlan.LineBuilder.PieceNode` | engine/src/chess_line.cpp:282-289 | the index denotes the piece, cached or made |
| `ChessPlan.LineBuilder.Square` | engine/src/chess_line.cpp:290-297 | the index denotes the square, cached or made |
| `ChessPlan.LineBuilder.BoardNodes` | engine/src/chess_line.cpp:306-307 | the parts denote the board in order |
| `ChessPlan.LineBuilder.RightsNodes` | engine/src/chess_line.cpp:308-310 | the parts denote the rights in order |
| `ChessPlan.LineBuilder.PositionNode` | engine/src/chess_line.cpp:298-316 | the index denotes the position |
| `ChessPlan.LineBuilder.MoveNode` | engine/src/chess_line.cpp:317-331 | the index denotes the move with its piece |
| `ChessPlan.LineBuilder.BuildPositions` | engine/src/chess_line.cpp:238-242 | one root for each position, denoting it |
| `ChessPlan.LineBuilder.BuildPlies` | engine/src/chess_line.cpp:247-255 | one root for each move, and the sequence of the line |
| `ChessPlan.LineBuilder.BuildLine` | engine/src/chess_line.cpp:243-259 | the root of the line denotes it |
| `ChessPlan.LineBuilder.Build` | engine/src/chess_line.cpp:236-261 | all roots denote what they are for; failure means that the terms of the batch exceed a limit |
| `ChessPlan.PositionRoots` | engine/src/chess_line.cpp:238-242 | two positions have the same root exactly when board, side, rights and en-passant square are equal |
| `ChessPlan.MoveRoots` | engine/src/chess_line.cpp:250-252 | two moves have the same root exactly when move and moving piece are equal |
| `ChessPlan.LineRoots` | engine/src/chess_line.cpp:256-258 | two lines have the same root exactly when their positions and moves are equal |
| `ChessPlan.AllRequested` | engine/src/chess_line.cpp:236-261 | a finished plan has requested every term of the batch and all their parts |
| `ChessPlan.Create` | engine/src/chess_line.cpp:342-367 | success is a maximally shared plan denoting the batch, with one request for each of its distinct terms and their operands in all; a bad batch is refused with its reason; a good one is refused exactly when its distinct terms are more than the requests allowed, or weigh more than the operands allowed |
| `ChessTexts.SaidIsMeaning` | engine/src/canonical_composition_plan.hpp:126-231 | what operands and atoms say, with the tag role on the first result and the value role on the others, is what the contents mean |
| `ChessTexts.PieceReads` | engine/src/chess_line.cpp:282-289 | a piece is written with the words for its side and its kind |
| `ChessTexts.PositionReads` | engine/src/chess_line.cpp:298-316 | a position is written as its board from a1 to h8, side, rights and target, in these words |
| `ChessTexts.MoveReads` | engine/src/chess_line.cpp:317-331 | a move is written as its piece, squares, promotion and form, in these words |
| `ChessTexts.LineReads` | engine/src/chess_line.cpp:243-256 | a line is written as its positions and moves in turn |
| `ChessTexts.BuiltSays` | engine/src/chess_line.cpp:236-261 | read from its arrays alone, every root of a finished plan is its position, move or line |
| `FirmwareProgram.StepRoundTrip` | engine/src/cognition_firmware.cpp:144-145 | the 120 bytes of a step parse to it, and parsed bytes re-encode to themselves |
| `FirmwareProgram.StepsBytesInjective` | engine/src/cognition_firmware.cpp:115-146 | equal step bytes come from equal steps |
| `FirmwareProgram.EncodingInjective` | engine/src/cognition_firmware.cpp:109-149 | equal images come from equal programs, because validation zeroes every unencoded field |
| `FirmwareProgram.ProgramBytes` | engine/src/cognition_firmware.cpp:109-149 | succeeds exactly on valid programs, with their canonical encoding |
| `FirmwareProgram.ImageCreate` | engine/src/cognition_firmware.cpp:624-642 | an image is made exactly for valid programs within memory, and holds their encoding and its digest; otherwise the limit is the reason exactly when memory is short |
| `FirmwareProgram.Read32` | engine/src/cognition_firmware.cpp:31 | little-endian read, advancing four bytes |
| `FirmwareProgram.ReadStep` | engine/src/cognition_firmware.cpp:664-674 | reads exactly the step the bytes encode |
| `FirmwareProgram.Rewritten` | engine/src/cognition_firmware.cpp:675-678 | bytes with the right header re-encode to themselves, and are canonical exactly when the program read is valid |
| `FirmwareProgram.ImageLoad` | engine/src/cognition_firmware.cpp:644-685 | loads exactly the canonical encodings of valid programs with the expected digest, within memory, and returns the only program they encode; otherwise the reason is the first check that fails |
| `FirmwareMeaning.ProgramExactly` | engine/src/cognition_firmware.cpp:96-146 | the accepted programs in numbers: the first step interprets the whole observation, bindings reach back, asking steps name relations and carry no policy, an EMIT emits an earlier answer by a full policy, and something is emitted |
| `FirmwareLayout.ImageLayout` | engine/src/cognition_firmware.cpp:115-146 | where each field of each step lies in the image |
| `FirmwareRegisters.RegisterRoundTrip` | engine/src/cognition_firmware.cpp:58-61 | a register parses back from its hundred bytes, and back |
| `FirmwareRegisters.EncodeRegisters` | engine/src/cognition_firmware.cpp:58-61 | the loop writes the section of the registers |
| `FirmwareRegisters.SectionInjective` | engine/src/cognition_firmware.cpp:58-61 | equal sections come from equal registers |
| `FirmwareRegisters.DecodeRegisters` | engine/src/cognition_firmware.cpp:73-87 | decodes exactly the sections of sound, non-empty register lists |
| `FirmwareRegisters.RegistersRoundTrip` | engine/src/cognition_firmware.cpp:58-87 | the section of the registers is accepted exactly when there are any and each is in order, and then decodes to them alone |
| `FirmwareLayout.SectionLayout` | engine/src/cognition_firmware.cpp:58-61 | where each field of each register lies in the section |
| `FirmwareExecutor.ResolveInRange` | engine/src/cognition_firmware.cpp:153-166 | a valid binding resolves among the registers so far |
| `FirmwareExecutor.BindingsResolve` | engine/src/cognition_firmware.cpp:435-447 | after the predecessor check no binding of a query step is absent |
| `FirmwareExecutor.EmitAnchor` | engine/src/cognition_firmware.cpp:479-485 | the step an EMIT looks up is earlier, and has the same producer |
| `FirmwareExecutor.ReachedOnce` | engine/src/cognition_firmware.cpp:435-525 | the answers of the services determine the history of every length |
| `FirmwareExecutor.BlockedOnce` | engine/src/cognition_firmware.cpp:435-525 | they determine where a run is blocked as well |
| `FirmwareExecutor.ReachedIsSafe` | engine/src/cognition_firmware.cpp:96-166 | for every reachable history of a valid program: no binding is absent, flags mark exactly the EMIT steps, each EMIT carries the act of its producer, output ranges tile the output |
| `FirmwareExecutor.ReachedConserves` | engine/src/cognition_firmware.cpp:473-524 | in every reachable history what the steps spent and what is left make up the limits |
| `FirmwareExecutor.CheckpointAccepted` | engine/src/cognition_firmware.cpp:485-529 | the registers of a history encode to a section the next run accepts, exactly when there is a step and every act has an identity |
| `FirmwareExecutor.TotalsFit` | engine/src/cognition_firmware.cpp:519-523 | the sums of the receipt never overflow |
| `FirmwareExecutor.TiledAppend` | engine/src/cognition_firmware.cpp:487-511 | appending a part keeps the output ranges contiguous and within the limit |
| `FirmwareExecutor.ActsAppend` | engine/src/cognition_firmware.cpp:479-486 | every act is that of the earlier step that asked for it |
| `FirmwareExecutor.Machine.Consume` | engine/src/cognition_firmware.cpp:215-224 | deducts all eight amounts, or refuses exactly when one is short |
| `FirmwareExecutor.Machine.Query` | engine/src/cognition_firmware.cpp:439-478 | a query step does what the services answered, or is blocked and changes nothing; totals plus allowance stay the initial allowance |
| `FirmwareExecutor.Machine.Emit` | engine/src/cognition_firmware.cpp:479-512 | an EMIT step does what the services answered, or is blocked and changes nothing |
| `FirmwareExecutor.Machine.Run` | engine/src/cognition_firmware.cpp:435-525 | all steps run, or the run was cancelled or stopped at the first blocked step |
| `FirmwareExecutor.CheckPredecessor` | engine/src/cognition_firmware.cpp:392-399 | accepts exactly when every predecessor binding resolves |
| `FirmwareExecutor.Execute` | engine/src/cognition_firmware.cpp:435-525 | an absent binding is reported exactly by the check before the first query; a finished run is complete; every other outcome is the one of the history it reached; the grant is conserved wherever the run ends |
| `FirmwareMeaning.StepMeans` | engine/src/cognition_firmware.cpp:435-517 | every step of every reachable history: a query asked about the observation, an earlier answer, the content the emission service returned earlier, or a register of the predecessor, as its binding says, with enough left, and got one act; an EMIT emitted the act of the step it names, within the room left |
| `FirmwareMeaning.BlockedMeans` | engine/src/cognition_firmware.cpp:455-512 | a run is blocked at a query by too little left, a failure, an excess, no act or several, in this order, and at an EMIT by no realization, no room or no materialization |
| `FirmwareMeaning.EveryAllowance` | engine/src/cognition_firmware.cpp:215-224 | for each of the eight allowances what the steps used and what is left make up the grant |
| `FirmwareMeaning.PredecessorExactly` | engine/src/cognition_firmware.cpp:392-399 | no binding is absent exactly when the predecessor has every register, and every realization, that is bound to |
| `PacketRows.RowInjective` | engine/src/cognition_packet_compile.cpp:116-166 | equal bytes of equal shape come from equal rows of digests, 64-bit and 32-bit numbers |
| `WireFormat.LittleEndian` | engine/src/cognition_packet_compile.cpp:131-147 | numbers are written least significant byte first |
| `PacketRows.Writer.Put` | engine/src/cognition_packet_compile.cpp:121-129 | appends the bytes, or exactly when there is no room leaves everything as it was |
| `PacketRows.Writer.PutRow` | engine/src/cognition_packet.cpp:86-131 | appends the bytes of the row exactly when they fit |
| `PacketRows.Reader.Take` | engine/src/cognition_packet_compile.cpp:173-180 | takes the next bytes, or exactly when there are too few stays |
| `PacketRows.Reader.TakeRow` | engine/src/cognition_packet.cpp:28-84 | returns the row whose bytes come next |
| `PacketRecords.OperatorBytesInjective` | engine/src/cognition_packet_compile.cpp:222-233 | operator programs are determined by their bytes |
| `PacketRecords.SolverBytesInjective` | engine/src/cognition_packet_compile.cpp:235-246 | solver programs are determined by their bytes, up to the operator identity, which is not written |
| `PacketRecords.FieldBytesInjective` | engine/src/cognition_packet_compile.cpp:248-256 | fields are determined by their bytes |
| `PacketRecords.ConstraintPrefix` | engine/src/cognition_packet_compile.cpp:270-291 | a constraint, with or without standing state, is determined by the bytes that start with it |
| `PacketRequest.ConstraintsPrefix` | engine/src/cognition_packet_compile.cpp:436-442 | so is a list of constraints of known length |
| `PacketRequest.Sections` | engine/src/cognition_packet_compile.cpp:411-449 | where each part of a packet lies |
| `PacketRequest.RequestVersion` | engine/src/cognition_packet_compile.cpp:39-49 | the version is 2 exactly when a constraint has standing state |
| `PacketRequest.RequestBytes` | engine/src/cognition_packet_compile.cpp:73-114 | the size is that of the packet, a multiple of 4, exactly for encodable requests |
| `PacketRequest.PacketSize` | engine/src/cognition_packet_compile.cpp:86-112 | the length of a packet from its counts |
| `PacketRequest.BytesToWords` | engine/src/cognition_packet_compile.cpp:343-354 | the words spell the bytes and nothing beyond is written |
| `PacketRequest.WordsToBytes` | engine/src/cognition_packet_compile.cpp:356-369 | the bytes spell the words |
| `PacketRequest.WriteConstraints` | engine/src/cognition_packet_compile.cpp:436-442 | appends all constraints exactly when they fit |
| `PacketRequest.WritePacket` | engine/src/cognition_packet_compile.cpp:409-449 | appends the whole packet exactly when it fits |
| `PacketRequest.EncodeRequestWords` | engine/src/cognition_packet_compile.cpp:389-459 | the words are the packet in its own version; each refusal exactly when called for, leaving the words untouched; the required count is reported |
| `PacketRequest.ReadConstraint` | engine/src/cognition_packet.cpp:208-238 | reads a constraint, or none starts here in this version |
| `PacketRequest.ReadConstraints` | engine/src/cognition_packet.cpp:285-289 | reads so many constraints, or none do |
| `PacketRequest.ReadHeader` | engine/src/cognition_packet.cpp:247-265 | reads magic, version, flags and counts, or the bytes are no packet |
| `PacketRequest.ReadPrograms` | engine/src/cognition_packet.cpp:266-270 | reads both programs, or no request has these bytes |
| `PacketRequest.ReadRuns` | engine/src/cognition_packet.cpp:279-284 | reads families and fields, or no request has these bytes |
| `PacketRequest.DecodeRequest` | engine/src/cognition_packet.cpp:240-301 | accepts exactly the packets of decodable requests and returns the request with its version |
| `PacketRequest.EncodedDecodes` | engine/src/cognition_packet_compile.cpp:389-459 | the packet of an encodable request decodes exactly when its reserved fields are zero, to the request with the unwritten fields cleared |
| `PacketRequest.ReturnedExactly` | engine/src/cognition_packet_compile.cpp:389-459 | what comes back is the request itself exactly when it has no boundaries, no solver operator identity and no stray standing state |
| `PacketRequest.PlainInVersionTwo` | engine/src/cognition_packet.cpp:240-301 | a concrete request that a version 2 packet carries and the encoder would write as version 1 |
| `PacketRequest.PacketInjective` | engine/src/cognition_packet_compile.cpp:411-449 | a packet has one version and one request |
| `PacketRequest.DecodedEncodes` | engine/src/cognition_packet.cpp:240-301 | a decoded packet re-encodes to itself exactly when its version is the one its constraints call for |
| `PacketRequest.ContextAtOffset` | engine/src/cognition_packet_words.cpp:12-13 | the bytes at the fixed offset are the context fingerprint |
| `PacketLayout.RequestLayout` | engine/src/cognition_packet_compile.cpp:222-291 | where each field of a request packet lies: header, both programs, families, fields, constraints with their standings, initial state |
| `PacketRequest.RequestContext` | engine/src/cognition_packet_words.cpp:102-131 | answers exactly on packets, with the context fingerprint decoding gives |
| `PacketResult.ResultSize` | engine/src/cognition_packet.cpp:303-327 | the size for a valid version, a multiple of 4 |
| `PacketResult.WriteResult` | engine/src/cognition_packet.cpp:415-429 | writes exactly the result packet, or exactly when it does not fit reports capacity |
| `PacketResult.ResultSections` | engine/src/cognition_packet.cpp:415-426 | where each part of a result lies |
| `PacketResult.ResultInjective` | engine/src/cognition_packet.cpp:415-426 | a result packet has one version and one result |
| `PacketLayout.ResultLayout` | engine/src/cognition_packet.cpp:86-131 | where each field of a result packet lies |
| `PacketResult.DecodeResult` | engine/src/cognition_packet_compile.cpp:477-502 | accepts exactly the result packets that fit the solution buffer |
| `PacketResult.ResultRoundTrip` | engine/src/cognition_packet_compile.cpp:461-513 | a written result is accepted exactly for a valid version, as itself and nothing else |
| `PacketResult.DecodeResultWords` | engine/src/cognition_packet_compile.cpp:461-513 | the same from words; the solution buffer is written on success only, and no further than the solution |
| `BranchLineage.EveryCandidateCovered` | tools/branch_estate_candidate_subsume.py:93-136 | the tip of every original candidate is an ancestor of, or equal to, the tip of a remaining candidate |
| `BranchLineage.MaximalAbove` | tools/branch_estate_candidate_subsume.py:105-119 | above every candidate with a descendant there is a maximal one |
| `BranchLineage.DistinctRemainMaximal` | tools/branch_estate_candidate_subsume.py:93-136 | when tips are distinct, the remaining candidates are exactly the maximal elements of the ancestry order |
| `BranchLineage.SubsumedExactly` | tools/branch_estate_candidate_subsume.py:93-136 | in general a candidate is subsumed exactly when some maximal tip above it is carried by one candidate only |
| `BranchLineage.SharedTipKeepsAncestor` | tools/branch_estate_candidate_subsume.py:107-122 | a candidate below two candidates with one tip stays a candidate: a concrete order |
| `BranchLineage.Descendants` | tools/branch_estate_candidate_subsume.py:93-101 | the lists hold exactly the candidates strictly above, once each, in candidate order |
| `BranchLineage.KeepMaximal` | tools/branch_estate_candidate_subsume.py:107-119 | keeps exactly the listed candidates that have no other listed one at or above them, in order |
| `BranchLineage.KeptCovers` | tools/branch_estate_candidate_subsume.py:103-119 | what is kept of the descendants is what covers the candidate |
| `BranchLineage.CoversOf` | tools/branch_estate_candidate_subsume.py:126-132 | the covers, once each, strictly ascending by name |
| `BranchLineage.Settle` | tools/branch_estate_candidate_subsume.py:121-136 | a candidate becomes subsumed exactly when it has covers, with its patch count kept aside and its keys, patches and files cleared |
| `BranchLineage.SettleAll` | tools/branch_estate_candidate_subsume.py:93-136 | every candidate is settled against the tips of all original candidates; those that stay are untouched |
| `BranchLineage.SettledExactly` | tools/branch_estate_candidate_subsume.py:103-136 | a candidate stays one exactly when no other tip stands in for it; otherwise it is subsumed and emptied, and lists by name and tip exactly the candidates above it that nothing else is at or above |
| `BranchLineage.AddPatches` | tools/branch_estate_candidate_subsume.py:41-43 | each patch is listed with exactly the branches that miss it |
| `BranchLineage.Recompute` | tools/branch_estate_candidate_subsume.py:30-84 | the counts, the branches by patch and the branches by list of missing patches, as the branches stand |
| `BranchLineage.CountMeans` | tools/branch_estate_candidate_subsume.py:79-84 | the counts are the numbers of branches so classified |
| `BranchLineage.GroupsExactly` | tools/branch_estate_candidate_subsume.py:36-40 | one group for each nonempty list of keys that some branch has, with the names of exactly those branches |
| `BranchLineage.CountsMove` | tools/branch_estate_candidate_subsume.py:79-84 | subsuming moves branches from one count to the other and loses none |
| `BranchLineage.Reconcile` | tools/branch_estate_candidate_subsume.py:87-138 | the candidates are exactly the original ones, each settled, no other branch changes, and the summary counts as many candidates and subsumed branches together as before |
| `BranchLineage.CoversStayCandidates` | tools/branch_estate_candidate_subsume.py:103-136 | every branch listed in subsumed_by is itself still a candidate, above the one it covers |
| `Diff3Document.PrintPrefix` | tools/final_convergence_resolve.py:56-85 | the blocks of a printed document can be read off from the front |
| `Diff3Document.PrintInjective` | tools/final_convergence_resolve.py:56-85 | a text is the printed form of at most one document |
| `Diff3Document.PrintAppend` | tools/final_convergence_resolve.py:56-85 | printing and choosing go block by block |
| `Diff3Resolve.FindMarker` | tools/final_convergence_resolve.py:65-67 | the run before the next line that starts with the marker |
| `Diff3Resolve.ConflictMissing` | tools/final_convergence_resolve.py:68-83 | a missing marker means no document prints to these lines |
| `Diff3Resolve.Resolve` | tools/final_convergence_resolve.py:49-89 | succeeds exactly on printed documents with a conflict, and returns the plain lines with each block replaced by its chosen side; otherwise names the first marker missing after the last complete block |
| `Diff3Resolve.OneDocument` | tools/final_convergence_resolve.py:49-89 | printed lines have exactly one document |
| `Diff3Resolve.PrintThenResolve` | tools/final_convergence_resolve.py:49-89 | printing and then resolving is choosing directly |
| `Diff3Resolve.ConflictReads` | tools/final_convergence_resolve.py:56-85 | a conflict with its four markers is one block, and choosing takes one side of it |
| `Diff3Resolve.PlainReads` | tools/final_convergence_resolve.py:56-63 | lines without a conflict marker pass through |
| `Diff3Text.SplitLines` | tools/final_convergence_resolve.py:52 | the loop splits a text at every line end it keeps |
| `Diff3Text.LineEndsAre` | tools/final_convergence_resolve.py:52 | the characters that end a line |
| `Diff3Text.LineShape` | tools/final_convergence_resolve.py:52 | nothing inside a line ends one before it does, but for the carriage return of a carriage return and line feed |
| `Diff3Text.JoinLines` | tools/final_convergence_resolve.py:52-89 | the lines of a text join to it |
| `Diff3Text.SplitJoined` | tools/final_convergence_resolve.py:52-89 | proper lines joined split into themselves |
| `Diff3Text.ResolveDiff3` | tools/final_convergence_resolve.py:49-89 | the same exact acceptance, result and missing marker for texts |

## Left out

- InterpretationEngine.Execute: the allocator's memory budget is an arbitrary test on the number of states generated so far; the result fingerprints, the witness table and the turn preparation are not part of this model.
- InterpretationEngine.JoinRun.SortRows: the library sort is an insertion sort with the same comparison, so the number of comparisons, and with it what budget is ample, is not the library's; the flat vectors of values and paths are a sequence of states.
- ContentAdmission.Admit: record validation, codepoint identities and trajectory decoding are the given outcomes `valid`, a witness and an occurrence with positive run length; the preflight counts and memory bounds enter as the node capacity.
- ContentPlan.Create: recipe and provenance fingerprints, context validation and the view accessors.
- ConjugateGradients.Execute: IEEE-754 rounding and the finiteness checks it needs, the square roots (squared norms are compared), the fingerprints of the receipt; how the operator derives its coefficients from constraints.
- ReceiptStore.SuccessMeansStored: reading the input file, file types, symbolic links and the size check of the input are left to the caller; an interrupted call is a step that does nothing; `verify`, `get` and the command line.
- CanonicalPlan.Builder.AddRequest: the counters are unbounded, so the two guards against a full 64-bit count never fire; recipe version, flags and fingerprints of a request; `NodeReferences`, which the chess builder does not use.
- ChessPlan.LineBuilder.Build: the number tag is requested when the builder is made, just before the build, instead of as its first statement.
- ChessPlan.Create: failed allocation and the view accessor. Chess legality (sliding paths, attacks, king safety) belongs to another provider in the source as well.
- FirmwareExecutor.Execute: the services are functions of what they are asked and of the history before; search budgets, discourse frames, trace and checkpoint fingerprints, and the preflight of context and limits.
- FirmwareProgram.ImageLoad: the sizes of the C++ structures are parameters; null arguments.
- FirmwareRegisters.DecodeRegisters: the discourse frame before the section and the fingerprint that ties the two together.
- PacketRequest.EncodeRequestWords: null arguments, overflow of sizes beyond the address space, and failed allocation; doubles are 64-bit patterns, and the boundaries of a request are carried only to say that they are not written.
- PacketResult.WriteResult: the runtime that computes the result.
- BranchLineage.Reconcile: the ancestry of tips is a given partial order; branches have unique names, as the lookup by name needs; Git itself.
- BranchLineage.Recompute: the summary is kept as maps, so the order in which groups, patches and names are listed, the details of a patch and the counts of other classifications are not stated.
- Diff3Text.ResolveDiff3: reading and writing the file and the Git index around it.
- HTTP, MCP and chat services, SQL rendering, psql wrappers, contract constants and command lines: input and output, or checks of a single branch.
- Composition capture, content admission, prompt admission, runtime and UAX 29 decomposition: they mostly pass data to components that are not part of this model.
