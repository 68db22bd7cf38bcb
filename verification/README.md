# A small compiler's middle end, verified

A Dafny model of a compiler for a small C-like language, from its statements to
SSA form: the visitor that lowers statements to basic blocks, the dominator
pass, the pass that turns stack slots into SSA registers, the use lists that it
relies on, and the pass that finds loops. Each of these is modelled as the class
that the compiler has, with the fields that it updates; each method is proved
against what it is for.

## What is proved

* **Dominators.** The sweeps of `create_idom` end on every graph, reducible or
  not, and leave for each reachable block its immediate dominator as defined by
  walks from the entry; unreachable blocks get none. The runner loops of the
  frontiers end if and only if no reached block with two or more predecessor
  entries has a predecessor that is not reached; then the frontiers of reached
  blocks are exact.
* **Mem2Reg.** On every function in memory form, phis go to the iterated
  dominance frontiers, and renaming along the dominator tree either meets an
  empty stack or leaves a valid SSA form that means what the function meant
  before: on every machine, after every number of blocks, both are at the same
  block with the same events behind them, and both return the same values.
* **When renaming meets an empty stack.** At a load the pass then takes the last
  element of an empty vector, which is undefined behaviour; at a phi an assertion
  fails. It does so exactly when some block reads a slot with no definition before
  it and some definition of the slot is visited earlier. Under every order of the dominator-tree children
  it goes through if and only if every definition of such a slot is in a block
  that the reading block dominates. A program with one variable declared in each
  arm of an `if` meets all preconditions and fails the assertion in every order. It
  always goes through when the entry stores to each slot before loading it.
* **What is left behind.** A load without a definition before it stays, while its
  alloca is deleted; a phi has no pair for an edge at whose start there is no
  definition. The form is free of such loads, and of addresses without their
  alloca, if and only if every load has a definition before it; all phis are
  complete if and only if every edge to a phi has one. `int x; f(x);` and
  `if (c) { int x; x = 1; }` are examples, and where the entry sets all slots first nothing is left.
* **Use lists.** The operations on operands never lose a use but leave stale
  entries; replacing a value is exact if and only if its list is. Throughout
  renaming, a list that was exact names exactly the operands of the instructions
  that have not been deleted, but for loads that have been replaced. At the end of
  the pass these are no operands, and all else is in its list.
* **Loop search.** Tarjan's algorithm, as coded with a stack, indexes and
  lowlinks on the nodes, finds exactly the strongly connected components of two
  or more nodes. The rounds end; each reported loop is strongly connected and is
  entered from outside at its base; two loops are disjoint or strictly nested
  with the outer base outside the inner loop; every cycle lies inside a loop that
  has its base on the cycle; in a reducible graph the loops are exactly the natural
  loops of two or more blocks, with their heads as bases; and the inner loop of a block is the smallest around it.
* **Lowering.** For every function: edge lists mirror each other, the entry has no
  predecessors, every block is reached, instructions stand at their places after
  their operands, use lists are exact, the graph is reducible, and the condition of
  each `while` dominates its body. The loops that loop search finds are those of
  the `while` statements whose body does not end in an `if` with `else`, with the
  conditions as bases. A run of the
  emitted code returns, goes on, or gets lost as the statements do, with the same
  events, and at the end of a statement the slots hold the values of the
  variables. Without `else`, this is what the language says; and for functions that
  set their variables first, the code does on every machine what the language says
  if and only if there is no `else`.
* **Names and conditions.** A name means what the innermost scope that has it says.
  On every machine that computes with 32-bit integers, expressions without calls
  have their integer values, and the code of an `if` or `while` enters its arm or
  body exactly if the condition is greater than zero.
* **Where lowering goes wrong.** After an `if` with `else`, instructions go on in
  the block where the second arm ended, behind its jump, and the block that both
  arms jump to never gets an instruction
  (`src/cminusfc/cminusf_builder.cpp:213-227`). A run comes to its end as the
  language has it if and only if it does not complete an arm of an `if` with
  `else`; `if (1) ; else ;` does not. Every block ends in its only terminator if
  and only if the function has no `else`. A function is in memory form, which is
  what the later passes ask for, if and only if nothing is put after a
  terminator; this can be read off the statements (`Sources.Neat`), and some
  functions with `else` are.
* **All together.** `Pipeline.Compile` lowers a function, puts it into SSA form
  and searches its loops. Renaming goes through whenever the order of the visits
  cannot matter, and on every function that declares its variables at the start
  and sets them first (`Sources.SetsFirst`). An `if` with a variable of its own
  inside another `if` is enough for the assertion to fail in some order.

## How the model reads

Blocks are numbers (addresses); the graph of a function is `Graphs.Cfg` with its
successor and predecessor lists. Instructions live in an arena and are known by
identifiers; a phi is known by its block and its slot. A slot is the address an
alloca produces. Arithmetic, comparisons, calls, input, output and memory other
than slots are one function of the history of events (`Meanings.Machine`), the
same before and after, so two functions that mean the same produce the same events
in the same order; `Integers.Computes` says of a machine that its operations are
those on integers. A null immediate dominator is an absent key. Sets of pointers are walked in an arbitrary order.

In the source language (`Sources`), operands are evaluated from left to right,
and a condition holds when it is greater than zero: this is what the code tests,
where its documentation has "not equal to zero"
(`Documentations/common/cminusf.md:109`). The functions meant are those whose names
are all declared; at another name the compiler follows a null pointer, while the
model, whose lowering is total, goes on with slot 0. `Sources.Run` has a flag `joins`: with
it, statements mean what the language says; without it, nothing follows an arm of
an `if` with `else`, which is what the emitted code does.

Files by part: `Graphs`, `DomTree`, `IdomSweep`, `Runners`, `Dominators`; `IR`, `UseLists`;
`Ssa`, `Meaning`, `PhiPlacement`, `Rename*`, `SsaValid`, `SsaClean`, `Mem2Reg`; `LoopGraphs`,
`Knots`, `Tarjan`, `LoopRounds`, `LoopSearch`; `Source*`, `Integers`, `Lowering*`, `Builder`;
`Pipeline`. A reader may start with `Mem2RegPass.Mem2Reg.Run`,
`Meanings.MeaningPreserved`, `DominatorPass.Dominators.CreateIdom`,
`LoopSearchPass.LoopSearch.Run`, `LoweringMeaning.FunctionRuns` and
`Pipeline.Compile`.

## Model

| member | source | states |
|---|---|---|
| DominatorPass.Dominators.CreateReversePostOrder | src/optimization/Dominators.cpp:65-83 | exactly the reachable blocks are numbered, 0 to n-1 with the entry highest, each other one with a predecessor of a higher number; every edge leads to a lower number or back to a block above in the search tree; the list is in the order of the numbers |
| DominatorPass.ReverseIsTopological | src/optimization/Dominators.cpp:65-83 | an edge never leads backwards in the list unless its end reaches its start again: without cycles the list is a topological order |
| DominatorPass.Dominators.PostOrderVisit | src/optimization/Dominators.cpp:74-83 | one visit keeps the invariant of the search and finishes all that it newly reaches, in any graph |
| DominatorPass.Dominators.CreateIdom | src/optimization/Dominators.cpp:85-127 | for every well-formed graph, and whatever idoms its blocks had, the sweeps end, and the idom chain of each reachable block is exactly its set of dominators over all walks from the entry; other blocks get none |
| DominatorPass.Dominators.SweepBlock | src/optimization/Dominators.cpp:97-124 | the step for one block keeps the sweep invariant, and a change uses up some of a bounded amount |
| DominatorPass.Dominators.NewIdom | src/optimization/Dominators.cpp:102-119 | the candidate is the nearest common ancestor of the processed predecessors, of which there is one |
| DominatorPass.Dominators.Intersect | src/optimization/Dominators.cpp:129-143 | the two fingers end at the nearest common ancestor in the present tree |
| DominatorPass.Dominators.CreateDominanceFrontier | src/optimization/Dominators.cpp:145-158 | where all runners come to an end, the loops end, and y is in the frontier of x exactly if y is reached and x dominates a predecessor of y but does not strictly dominate y, or y is not reached and x is one of its several predecessors |
| DominatorPass.Dominators.CreateDomTreeSucc | src/optimization/Dominators.cpp:160-169 | c is listed under b exactly if b is the idom of c and c is not its own, and under null exactly if it has none |
| DominatorPass.Dominators.Run | src/optimization/Dominators.cpp:5-26 | for a graph in which no reached join has an unreached predecessor: dominators, frontiers and tree successors of reached blocks are those defined by walks; the others go under null |
| DominatorPass.SuccsAreImmediate | src/optimization/Dominators.cpp:160-169 | the tree successors of a block are the reached blocks that it immediately dominates |
| IdomSweeps.FirstIsPred | src/optimization/Dominators.cpp:102-110 | in every sweep a block meets a predecessor that has an idom: the assertion never fails |
| IdomSweeps.StepKeepsSweep | src/optimization/Dominators.cpp:93-124 | one update of one block, to the meet of its processed predecessors, keeps the sweep invariant, and moves the idom only upwards |
| IdomSweeps.NextSweepStarts | src/optimization/Dominators.cpp:95-97 | what a sweep ends with is what the next one needs |
| IdomSweeps.ChangeUsesSlack | src/optimization/Dominators.cpp:120-123 | every change strictly lowers the distance of the idoms from the root, so the sweeps end |
| IdomSweeps.StableIsDomTree | src/optimization/Dominators.cpp:95-125 | a sweep without a change has reached the dominator tree |
| IdomSweeps.ParentIffImmediateDom | src/optimization/Dominators.cpp:85-127 | the parent of a block is the strict dominator that all its other strict dominators dominate, and no other block is |
| IdomSweeps.FrontierByRunners | src/optimization/Dominators.cpp:145-158 | the blocks that a runner passes on the way from a predecessor of y up to the idom of y are those that have y in their frontier |
| Runners.RunnersEndIff | src/optimization/Dominators.cpp:147-157 | all runners come to their ends if and only if no reached block with two or more predecessor entries has an unreached predecessor |
| Runners.LostGraphRunsOn | src/optimization/Dominators.cpp:150-154 | with an entry edge and an edge from an unreached block into one block, the runner never comes to the idom |
| Runners.FoundByRunners | src/optimization/Dominators.cpp:147-157 | the blocks that the runners of y pass are its place in the frontiers, or its predecessors if it is not reached |
| IR.Func.SetOperand | src/lightir/User.cpp:22-27 | the operand is replaced and its use appended to the list of the new value; nothing else changes |
| IR.Func.AddOperand | src/lightir/User.cpp:30-35 | the operand is appended under the number that it gets |
| IR.Func.ReplaceAllUseWith | src/lightir/Value.cpp:22-29 | exactly the operand places in the use list are rewritten; the list goes over to the new value and is not cleared |
| IR.Func.RemoveUse | src/lightir/Value.cpp:31-35 | the user disappears from the list of the value, and no other entry of any list does |
| IR.Func.RemoveUseOfOps | src/lightir/User.cpp:42-47 | the user disappears from the lists of its operands and from no other |
| IR.Func.DeleteInstr | src/lightir/BasicBlock.cpp:30-34 | the instruction leaves its block and the lists of its operands |
| IR.Func.AddPhiPairOperand | src/optimization/Mem2Reg.cpp:136-136 | a phi gets one value and its block, and two uses |
| UseListLaws.SetKeepsCovered | src/lightir/User.cpp:22-27 | every operand of every user stays in a use list |
| UseListLaws.SetLeavesStale | src/lightir/User.cpp:22-27 | the list of the value that was there before keeps an entry that is no longer true |
| UseListLaws.AppendKeepsCovered | src/lightir/User.cpp:30-35 | appending an operand loses no use |
| UseListLaws.RewriteKeepsCovered | src/lightir/Value.cpp:22-29 | replacing a value loses no use |
| UseListLaws.DeleteKeepsCovered | src/lightir/BasicBlock.cpp:30-34 | deleting an instruction loses no use of another one |
| UseListLaws.ReplaceIsExactIff | src/lightir/Value.cpp:22-29 | exactly the operands that were the value are replaced, if and only if its list has no stale and no missing entry |
| UseListLaws.ReplacedHasNoUse | src/lightir/Value.cpp:22-29 | afterwards nothing uses the value, though its list is as it was |
| PhiPlacement.WorkDone | src/optimization/Mem2Reg.cpp:56-78 | when the worklist is used up, the blocks with a phi for a slot are the least set that holds the frontier of every storing block and of each of its own blocks |
| Mem2RegPass.Mem2Reg.FindStores | src/optimization/Mem2Reg.cpp:28-54 | the slots that are stored to, each with exactly the blocks that store to it |
| Mem2RegPass.Mem2Reg.PlacePhis | src/optimization/Mem2Reg.cpp:58-77 | the growing worklist ends, with one phi for the slot in each block of its iterated frontier and none elsewhere |
| Mem2RegPass.Mem2Reg.GeneratePhi | src/optimization/Mem2Reg.cpp:26-79 | every slot has its phis on exactly its iterated frontier, in front of the instructions, which are as before |
| RenameSetup.EntryHasNoPhi | src/optimization/Mem2Reg.cpp:65-76 | the entry gets no phi |
| RenameSetup.PlacementFits | src/optimization/Mem2Reg.cpp:26-79 | a function in memory form with its phis placed is ready for renaming |
| SsaForm.Join | src/optimization/Mem2Reg.cpp:125-141 | along every edge p to b, either b has a phi for the slot, or the stack at the end of p is that at the end of the immediate dominator of b |
| Mem2RegPass.Mem2Reg.RenameLoad | src/optimization/Mem2Reg.cpp:97-110 | a load is replaced, in exactly the operands that it has, by the stack top; a slot without a stack leaves it alone; the answer is false exactly where an empty stack would be read |
| Mem2RegPass.Mem2Reg.RenameStore | src/optimization/Mem2Reg.cpp:111-122 | the stacks are again those defined by the code up to the next instruction |
| Mem2RegPass.Mem2Reg.PushPhis | src/optimization/Mem2Reg.cpp:85-93 | the phis are the latest definitions of their slots |
| Mem2RegPass.Mem2Reg.FillSuccs | src/optimization/Mem2Reg.cpp:125-141 | every phi of a successor gets one pair for each edge, holding the stack top at the end of the block; both with their uses recorded; it fails exactly where an empty stack is met |
| Mem2RegPass.Mem2Reg.PopDefs | src/optimization/Mem2Reg.cpp:148-167 | the stacks are again as they were on entry to the block |
| Mem2RegPass.Mem2Reg.DeleteAll | src/optimization/Mem2Reg.cpp:169-172 | the block loses exactly its stores and its replaced loads, and its deleted instructions leave the use lists of all their operands |
| Mem2RegPass.Mem2Reg.ReName | src/optimization/Mem2Reg.cpp:81-173 | a call renames the blocks below its own, each once, leaves the stacks as it found them, and answers false exactly if some visit meets an empty stack |
| Mem2RegPass.Mem2Reg.RemoveAlloca | src/optimization/Mem2Reg.cpp:175-198 | exactly the allocas of scalars are gone, from the blocks and from the use lists of their operands |
| Mem2RegPass.Mem2Reg.Run | src/optimization/Mem2Reg.cpp:9-24 | the whole pass goes through exactly if no visit meets an empty stack, and always if the order cannot matter; then the result is valid SSA, means the same, and the stacks are empty; no load of a slot and no incomplete phi is left exactly if these have definitions before them, and none if the entry sets every slot first; a use list that was exact is so again, and no operand is a replaced load |
| RenameSteps.ReplaceLoadList | src/optimization/Mem2Reg.cpp:97-110 | replacing a load keeps exact the use lists of all values but the load |
| RenameSteps.FillOne | src/optimization/Mem2Reg.cpp:136-136 | a pair appended to a phi, with its two uses, keeps the state of renaming: operands, phis so far, and exact use lists |
| RenameSteps.DeleteLists | src/optimization/Mem2Reg.cpp:169-172 | a deleted instruction leaves the use lists of all its operands, and no other entry goes |
| RenameUses.FinishedLists | src/optimization/Mem2Reg.cpp:81-198 | at the end of the pass a use list that was exact names exactly the operands of the instructions that are left; only a replaced load keeps stale entries, and it is no operand any more |
| RenameUses.AllInOrder | src/lightir/User.cpp:30-47 | if all lists were exact at the start, every operand that is left is in the list of its value |
| RenameResult.EachBlockOnce | src/optimization/Mem2Reg.cpp:143-146 | from the entry, re_name visits each block exactly once |
| RenameResult.PhiOpsParts | src/optimization/Mem2Reg.cpp:125-141 | a phi ends with one pair per incoming edge, holding the stack top at the end of that predecessor |
| RenameResult.FinishedIsSsa | src/optimization/Mem2Reg.cpp:81-198 | what renaming leaves behind is the SSA form defined by the stacks |
| RenameSafety.EmptyIffUndefined | src/optimization/Mem2Reg.cpp:106-106 | the stack that a block defines is empty exactly where no definition comes before on the way down the tree |
| RenameSafety.VisitSafeIff | src/optimization/Mem2Reg.cpp:104-134 | a visit meets an empty stack exactly if it reads, undefined, a slot that an earlier visit has defined |
| RenameSafety.SafeIffOrderSafe | src/optimization/Mem2Reg.cpp:143-146 | renaming goes through in every order of the children if and only if each definition of a slot that some block reads undefined is in a block that this one dominates |
| RenameSafety.StoredFirstIsSafe | src/optimization/Mem2Reg.cpp:104-134 | if the entry stores to each slot before loading it, every order goes through and every load is replaced |
| RenameExample.CrossedReadsFail | src/optimization/Mem2Reg.cpp:132-134 | two blocks that each read, undefined, a slot that only the other defines make the assertion fail in every order |
| RenameExample.ArmsPattern | src/optimization/Mem2Reg.cpp:125-146 | one slot stored to in each arm: a visit meets an empty stack in every order |
| RenameExample.NestedPattern | src/optimization/Mem2Reg.cpp:125-146 | one slot stored to in an inner arm: the order of the visits matters |
| RenameExample.ShortPattern | src/optimization/Mem2Reg.cpp:132-138 | one slot stored to in the only arm: the edge past the arm brings no value to its phi |
| LoweringExample.ArmsFail | src/optimization/Mem2Reg.cpp:134-134 | the lowered code of an `if` whose two arms each declare and set a variable satisfies every precondition and fails the assertion in every order |
| LoweringExample.NestedCanFail | src/optimization/Mem2Reg.cpp:134-134 | that of an `if` inside an `if` with a variable of its own, without `else` and without an uninitialised read, fails it in some order |
| LoweringExample.UnsetIsUnclean | src/optimization/Mem2Reg.cpp:104-108 | the SSA form of `int x; f(x);` keeps a load whose alloca is deleted |
| LoweringExample.ArmLeavesShortPhi | src/optimization/Mem2Reg.cpp:132-138 | the lowered code of an `if` whose arm declares and sets a variable has a phi without a pair for one edge |
| Meanings.MeaningPreserved | src/optimization/Mem2Reg.cpp:9-198 | after any number of blocks, memory form and SSA form are at the same block with the same events, and every slot with a definition holds the value of its stack top |
| Meanings.SsaMeansTheSame | src/optimization/Mem2Reg.cpp:9-198 | on every machine the two run alike for as long as they run |
| SsaValid.NoSlotAccess | src/optimization/Mem2Reg.cpp:169-198 | no store to a slot and no scalar alloca is left, and a load only where its slot has no definition before |
| SsaValid.OneDefinition | src/optimization/Mem2Reg.cpp:26-198 | every register has one definition |
| SsaValid.UsesAvailable | src/optimization/Mem2Reg.cpp:95-123 | the definition of every ordinary operand dominates its use |
| SsaValid.PairsAvailable | src/optimization/Mem2Reg.cpp:125-141 | the definition of every phi operand dominates the end of the paired predecessor |
| SsaValid.SsaIsValid | src/optimization/Mem2Reg.cpp:9-198 | all of these together but for the loads, of which `SsaClean` says when none is left |
| SsaClean.NoLoadsIffDefined | src/optimization/Mem2Reg.cpp:97-110 | no load of a slot is left exactly if every load has a definition before it |
| SsaClean.HeldIffDefined | src/optimization/Mem2Reg.cpp:175-198 | every address that is still used has its alloca exactly if every load of a scalar has a definition before it |
| SsaClean.CleanIffDefined | src/optimization/Mem2Reg.cpp:9-198 | valid SSA without loads of slots and without addresses of deleted allocas, exactly if every load has a definition before it |
| SsaClean.PlainIsCleanIffDefined | src/optimization/Mem2Reg.cpp:9-198 | on code whose slots are all of scalars, as lowering emits it, the same without further conditions |
| SsaClean.PhisFullIffDefined | src/optimization/Mem2Reg.cpp:125-141 | every phi has one pair per incoming edge exactly if every edge to a phi has a definition at its start |
| SsaClean.SetFirstIsComplete | src/optimization/Mem2Reg.cpp:81-173 | where the entry stores to every slot before loading it, all of these hold, in every order of the visits |
| SsaClean.StackHasNoAddress | src/optimization/Mem2Reg.cpp:111-122 | no stack ever holds the address of a slot |
| LoopSearchPass.LoopSearch.BuildCfg | src/optimization/LoopSearch.cpp:18-47 | nodes and links are those of the graph |
| LoopSearchPass.LoopSearch.StronglyConnectedComponents | src/optimization/LoopSearch.cpp:51-63 | from unvisited nodes that are closed under successors: exactly the components of two or more nodes, in any order of iteration |
| LoopSearchPass.LoopSearch.Traverse | src/optimization/LoopSearch.cpp:64-105 | a visit keeps Tarjan's invariant and finds the least index that its node leads back to |
| Tarjans.LowAfterChild | src/optimization/LoopSearch.cpp:76-80 | a child's lowlink, taken over, keeps the meaning of the lowlink |
| Tarjans.LowAfterVisited | src/optimization/LoopSearch.cpp:82-85 | so does the index of a node on the stack, and a node off it changes nothing |
| Tarjans.ComponentIsScc | src/optimization/LoopSearch.cpp:88-99 | where index and lowlink agree, what is popped is a strongly connected component |
| Tarjans.PoppedInv | src/optimization/LoopSearch.cpp:89-104 | popping it keeps the invariant |
| Tarjans.SearchEnds | src/optimization/LoopSearch.cpp:57-62 | at the end the stack is empty and the components found are all there are |
| LoopSearchPass.LoopSearch.FindLoopBase | src/optimization/LoopSearch.cpp:106-137 | the base is never null: it is a member of the loop that an edge of the original graph enters from outside |
| LoopRounds.BaseExists | src/optimization/LoopSearch.cpp:106-137 | in every round, a component without the entry has a base |
| LoopRounds.BaseIsEntered | src/optimization/LoopSearch.cpp:113-134 | an edge of the original graph enters the component at its base |
| LoopRounds.EntryInNoScc | src/optimization/LoopSearch.cpp:106-137 | the entry is in no component of two nodes |
| LoopRounds.TakeOut | src/optimization/LoopSearch.cpp:213-224 | erasing a base from nodes and edges leaves the graph restricted to the other nodes |
| LoopRounds.NewIsNested | src/optimization/LoopSearch.cpp:162-236 | a new loop is disjoint from, or strictly inside, each loop reported before, and has another base |
| LoopRounds.NewIsNatural | src/optimization/LoopSearch.cpp:162-224 | in a reducible graph a loop is the natural loop of its base, which dominates it |
| LoopRounds.NaturalIsReported | src/optimization/LoopSearch.cpp:162-236 | in a reducible graph every natural loop of two or more blocks is reported, with its head as the base |
| LoopRounds.ReportOne | src/optimization/LoopSearch.cpp:174-226 | reporting one component keeps all that holds during a round |
| LoopRounds.NoKnotLeft | src/optimization/LoopSearch.cpp:162-168 | when no component is left, every strongly connected set of blocks is inside a loop that has its base in the set |
| LoopRounds.CyclesCovered | src/optimization/LoopSearch.cpp:162-236 | every cycle of two or more blocks is inside a reported loop that has its base on the cycle |
| LoopRounds.MapsNext | src/optimization/LoopSearch.cpp:180-211 | the maps record each loop and its base, and for each block the innermost loop |
| LoopSearchPass.LoopSearch.Run | src/optimization/LoopSearch.cpp:138-247 | the rounds end; loops are strongly connected, entered at their bases, nested, and cover every strongly connected set; the maps say so |
| LoopSearchPass.LoopSearch.GetInnerLoop | include/optimization/LoopSearch.hpp:44-48 | the smallest reported loop that holds the block, and null exactly if there is none |
| LoopSearchPass.LoopSearch.GetLoopBase | include/optimization/LoopSearch.hpp:41-41 | the base that the loop was reported with |
| LoopSearchPass.LoopSearch.GetParentLoop | src/optimization/LoopSearch.cpp:300-316 | an answer strictly encloses the loop, as the smallest such loop if the graph is reducible |
| LoopRounds.EnclosingHoldsPred | src/optimization/LoopSearch.cpp:300-316 | in a reducible graph a loop around another holds all that jumps to the base of that one |
| LoopRounds.ParentIsSmallest | src/optimization/LoopSearch.cpp:305-313 | the innermost loop around an outside predecessor of a base, if it holds the base, is the smallest loop around it |
| Knots.NaturalIsKnot | src/optimization/LoopSearch.cpp:162-224 | a natural loop of two or more blocks is strongly connected |
| Knots.KnotInNatural | src/optimization/LoopSearch.cpp:162-224 | a strongly connected set is inside the natural loop of a block that dominates it |
| Builders.Builder.CreateInstr | src/lightir/Instruction.cpp:11-16 | the instruction is appended to the block under construction, with one use for each operand |
| Builders.Builder.CreateBr | src/lightir/Instruction.cpp:284-290 | one edge enters both lists, and one jump the block |
| Builders.Builder.CreateCondBr | src/lightir/Instruction.cpp:273-282 | two edges enter both lists, one after the other |
| Builders.Builder.VisitVar | src/cminusfc/cminusf_builder.cpp:294-346 | the address of a scalar where the flag asks for it, and a load of it otherwise; the flag is reset |
| Builders.Builder.VisitAssign | src/cminusfc/cminusf_builder.cpp:349-363 | the value is stored to the variable, and is the result |
| Builders.Builder.VisitExpr | src/cminusfc/cminusf_builder.cpp:294-514 | the code of an expression and its result are those of the specification `LowerExpr` |
| Builders.Builder.VisitCall | src/cminusfc/cminusf_builder.cpp:495-514 | arguments from left to right, then the call |
| Builders.Builder.VisitIf | src/cminusfc/cminusf_builder.cpp:229-239 | the blocks of an `if` without `else` are those of the specification |
| Builders.Builder.VisitIfElse | src/cminusfc/cminusf_builder.cpp:199-228 | those of an `if` with `else` are, with both tests made where the second arm ends |
| Builders.Builder.VisitWhile | src/cminusfc/cminusf_builder.cpp:243-270 | so are those of a loop |
| Builders.Builder.VisitCompound | src/cminusfc/cminusf_builder.cpp:165-172 | a scope, its declarations, its statements |
| Builders.Builder.NewBlock | src/lightir/BasicBlock.cpp:7-13 | a block without instructions and edges joins the function |
| Builders.Builder.VisitVarDeclaration | src/cminusfc/cminusf_builder.cpp:62-89 | a new slot for the name, in the innermost scope; a name that this scope has already keeps its own |
| Builders.Builder.VisitParam | src/cminusfc/cminusf_builder.cpp:145-162 | a slot for the parameter, which its argument is stored to |
| Builders.Builder.VisitFunction | src/cminusfc/cminusf_builder.cpp:92-144 | parameters, statements, and a return unless there is a terminator |
| LoweringGrowth.StmtGrows | src/cminusfc/cminusf_builder.cpp:165-270 | lowering any statement changes no instruction there was, adds to no block but the current one and new ones, and keeps the scopes |
| LoweringOk.FunctionLowered | src/cminusfc/cminusf_builder.cpp:92-144 | for every function: mirrored edge lists, an entry without predecessors, every block reached, instructions at their places, definitions before uses in one block, exact use lists |
| LoweringOk.LoweredGraphOk | src/cminusfc/cminusf_builder.cpp:92-144 | the graph of every function is fit for the later passes |
| LoweringOk.StmtKeeps | src/cminusfc/cminusf_builder.cpp:165-270 | each statement keeps these, with or without `else` |
| LoweringNeat.StmtLast | src/lightir/BasicBlock.cpp:36-55 | after a statement all terminators come last exactly if they did before and the statement is neat, and the current block has a terminator exactly if the statement closes it |
| LoweringNeat.MemoryFormIffNeat | src/cminusfc/cminusf_builder.cpp:92-144 | a function is in memory form if and only if nothing is put after a terminator: no instruction after an `if` with `else`, and no second jump after a first arm |
| LoweringNeat.PlainIsMemoryForm | src/cminusfc/cminusf_builder.cpp:92-144 | a function without `else` is |
| LoweringNeat.LostIsMemoryForm | src/cminusfc/cminusf_builder.cpp:212-227 | `if (1) ; else ;` is in memory form |
| LoweringNeat.UntidyIsNotMemoryForm | src/cminusfc/cminusf_builder.cpp:212-227 | with a statement behind it, it is not |
| LoweringElse.ElseLeavesOrphan | src/cminusfc/cminusf_builder.cpp:212-227 | every statement with an `else` leaves a block that never gets an instruction |
| LoweringElse.StmtCloses | src/cminusfc/cminusf_builder.cpp:183-270 | without `else`, a statement closes the block it begins in and all new ones but that in which it ends |
| LoweringElse.StmtEnds | src/lightir/BasicBlock.cpp:36-55 | the current block has a terminator after a statement exactly if the statement closes it, which can be read off the text |
| LoweringElse.EndsOnceIffNoElse | src/cminusfc/cminusf_builder.cpp:165-270 | every block of a function ends in its only terminator if and only if the function has no `else` |
| LoweringLoops.StmtOrdered | src/cminusfc/cminusf_builder.cpp:183-270 | the blocks of every statement fit into an order in which only jumps to the conditions of its `while` statements go back, and the body of each is entered from its condition only |
| LoweringOrder.BackDominates | src/cminusfc/cminusf_builder.cpp:243-270 | every way from the entry to a block between the two ends of an edge back leads through the end that the edge leads to |
| LoweringLoops.LoweredIsReducible | src/cminusfc/cminusf_builder.cpp:183-270 | the graph of every function is reducible |
| LoweringLoops.WhileDominatesBody | src/cminusfc/cminusf_builder.cpp:243-270 | the condition block of each lowered `while` dominates every block of its body |
| LoweringLoops.LoopsAreWhiles | src/optimization/LoopSearch.cpp:138-247 | on the graph of a function, the bases of the reported loops are exactly the conditions of the `while` statements whose bodies jump back |
| LoweringEdges.StmtLined | src/cminusfc/cminusf_builder.cpp:165-270 | the jumps of every statement enter their edges in the order in which they stand |
| LoweringEdges.FunctionLined | src/lightir/Instruction.cpp:273-290 | in the code of every function the successors of a block are the targets of its jumps, in their order, and its predecessors the blocks that jump to it, in the order of these jumps |
| LoweringEdges.FalseBranchFirst | src/lightir/Instruction.cpp:273-282 | a block that ends in a test has the false branch as its first successor and the true branch as its second |
| LoweringInit.SetsFirstIsSetFirst | src/cminusfc/cminusf_builder.cpp:62-163 | where a function declares all variables at its start and sets them first, the entry of its code stores to every slot before loading it |
| LoweringInit.StmtAccess | src/cminusfc/cminusf_builder.cpp:165-270 | a statement without declarations loads and stores only the slots of the names that it uses |
| LoweringInit.LoweredIsPlain | src/cminusfc/cminusf_builder.cpp:62-363 | the code of every function uses addresses of slots for loads and stores only |
| LoweringExprs.ExprRuns | src/cminusfc/cminusf_builder.cpp:294-514 | the code of an expression computes its value, evaluating from left to right, with the same events and the same variables afterwards |
| LoweringExprs.VarSet | include/cminusf_builder.hpp:38-47 | storing to the slot of a variable sets that variable, and leaves in the slots of all others what these hold |
| Sources.Level | include/cminusf_builder.hpp:38-47 | the scope in which a name is found has it, and no scope further in does; none is found exactly if no scope has it |
| Sources.PushMeans | include/cminusf_builder.hpp:33-36 | a declaration gives its name a meaning in the innermost scope, unless that has one, and leaves all other names theirs |
| Sources.ScopeMeans | include/cminusf_builder.hpp:18-25 | in a new scope its names hide those outside and the others mean what they did; at its end all is as before |
| Sources.SetMeans | include/cminusf_builder.hpp:38-47 | an assignment changes what its name means, and nothing else |
| Sources.GivenMeans | src/cminusfc/cminusf_builder.cpp:111-162 | each parameter means its own argument |
| Sources.ArgsInOrder | src/cminusfc/cminusf_builder.cpp:495-514 | the events of each argument come before those of the next |
| Integers.ExprMeans | src/cminusfc/cminusf_builder.cpp:349-492 | on every machine that computes with integers, an expression without calls has the value that 32-bit arithmetic gives it, a comparison being 1 or 0 |
| Integers.HoldsIffPositive | src/cminusfc/cminusf_builder.cpp:191-197 | there a condition holds exactly if it is greater than zero |
| Integers.ConditionsMean | src/cminusfc/cminusf_builder.cpp:183-270 | and the arm of an `if` or the body of a `while` is run exactly then |
| LoweringConds.IfEnters | src/cminusfc/cminusf_builder.cpp:183-239 | the code of an `if` gets to the block of its arm exactly if the condition's word is greater than zero, and to the other block otherwise |
| LoweringConds.WhileEnters | src/cminusfc/cminusf_builder.cpp:243-270 | in every round the code of a `while` gets from its condition to the body exactly then, and to the exit otherwise |
| LoweringConds.CallsIffPositive | src/cminusfc/cminusf_builder.cpp:183-239 | the code of `if (x) f();` returns, and calls `f` exactly if the argument is greater than zero |
| LoweringMeaning.StmtRuns | src/cminusfc/cminusf_builder.cpp:165-270 | for every statement, fuel and machine: the code gets to the statement's end with each variable's value in its slot, or is still running when the fuel is used up, or is lost after an arm of an `if` with `else` |
| LoweringMeaning.LoopRuns | src/cminusfc/cminusf_builder.cpp:243-270 | the same for a loop from its condition on, as often as it goes round |
| LoweringMeaning.OneArmRuns | src/cminusfc/cminusf_builder.cpp:199-228 | an arm that is run to its end gets to an empty block, or to the end of a block without a jump |
| LoweringMeaning.FunctionRuns | src/cminusfc/cminusf_builder.cpp:92-144 | a run of the emitted function ends, goes on, or gets lost as the statements do, with the same events |
| LoweringMeaning.ReturnsUnlessFell | src/cminusfc/cminusf_builder.cpp:212-227 | where the language lets a function end, the code returns with the same events if and only if the run completes no arm of an `if` with `else`; without `else`, always |
| LoweringMeaning.ElseLoses | src/cminusfc/cminusf_builder.cpp:212-227 | `if (1) ; else ;` ends in the language and never returns in the code |
| Sources.FallsOrSame | src/cminusfc/cminusf_builder.cpp:212-227 | the two readings of a statement differ only where the code is lost, and without `else` they never do |
| SourceRuns.SomeRunFalls | src/cminusfc/cminusf_builder.cpp:212-227 | for every function with `else` that sets its variables first there is a machine on which it ends in the language and is lost as lowered |
| Pipeline.LoweredImplements | src/cminusfc/cminusf_builder.cpp:92-144 | the code of every function does on every machine what the source says, up to the end of an arm of an `if` with `else`; without `else`, all of it |
| Pipeline.ImplementsIffNoElse | src/cminusfc/cminusf_builder.cpp:92-144 | a function that sets its variables first is lowered to code that does all that the language says, on every machine, if and only if it has no `else` |
| Pipeline.SameImplements | src/optimization/Mem2Reg.cpp:9-24 | and so does any code that means the same |
| Pipeline.Compile | src/cminusfc/cminusfc.cpp:90-120 | lowering, SSA construction and loop search in a row: when it goes through (always where variables are set first), valid SSA that does what the source says, with use lists in order; and loops that are the natural loops of their bases |
| Pipeline.FindLoops | src/optimization/LoopSearch.cpp:138-247 | on the graph of every function, each reported loop is the natural loop of its base, and the bases are the conditions of the `while` statements that jump back |

## Left out

- The loops over the functions of a module: everything is per function, and the stacks of `Mem2Reg` start empty, as each run leaves them.
- SsaClean.CleanIffDefined: asks that scalars are only loaded and stored and that every address is that of an alloca, as it is in the compiler, where the alloca is the address; `SsaClean.PlainIsCleanIffDefined`, for lowered code, asks neither.
- Graphs with unreachable blocks in `Mem2Reg`, and entries with predecessors in `create_dominance_frontier`. The dominator pass has unreachable blocks; the frontier loops ask for what makes them end, `Runners.RunnersEndIff`.
- Pipeline.Compile: takes neat functions only; for the others the emitted code has an instruction behind a terminator and is not in memory form, as `LoweringNeat.MemoryFormIffNeat` states. Whether renaming goes through on functions that declare variables in inner blocks depends on the order of the visits, as `RenameSafety.SafeIffOrderSafe` says.
- Pipeline.LoweredImplements: nothing of runs that read a variable before it has a value, which the language leaves undefined.
- LoopSearchPass.LoopSearch.GetParentLoop: where the answer is null, only that the innermost loop around the first outside predecessor does not hold the base.
- Objects with identity: instructions, blocks and values are identifiers, and their fields are maps; aliasing of pointers and deallocation are not modelled.
- Floats and their comparisons. Integers are of 32 bits where operations have a meaning at all (`Integers.Computes`); the results on meaning and on SSA hold for any operations, the same on both sides.
- Builders.Builder.VisitVar: no subscripts, with their test for negative indices.
- Builders.Builder.VisitAssign: no conversions between integers and floats.
- Builders.Builder.VisitExpr: neither of these; the integer operations only.
- Builders.Builder.VisitCall: no conversions of arguments.
- Builders.Builder.VisitVarDeclaration: no arrays and no globals.
- Builders.Builder.VisitParam: no array parameters.
- Builders.Builder.VisitFunction: returns zero; void and float functions differ in this alone.
- Lowering of `return`, arrays, floats with their conversions, globals, and the declarations of a whole program. An undeclared name, which the code does not check for, is lowered as slot 0; running it is undefined.
- Two undef cases of phis: a predecessor without a definition adds no pair, and a phi without a pair for the edge taken yields the undefined value.
- Loops of a single block, which the search drops (`src/optimization/LoopSearch.cpp:100`).
- The second of the two loops that fill `bb2base` (steps 4 and 5 of `LoopSearch::run` make the same assignments).
- `Dominators::create_doms` (never called by the pass), `User::remove_operands` (not used here), `dump_graph`, printing, names, logging and the command line.
- The analysis passes that have no body yet: active variables, constant propagation and loop-invariant hoisting.
- Parsing and the syntax tree.
