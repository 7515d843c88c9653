# Verified model of the TACKY optimizer

This project models the middle end of a C compiler: the three-address code it calls TACKY, the
control-flow graph over it, and the passes that rewrite it. Every pass over a function is proved to
preserve behaviour, as a statement about all runs, under conditions that its theorem states.
Inlining, which works on a whole program, is proved for every caller: its rewritten body runs like
the caller with the inlined calls answered by frames of their own. Two smaller parts of the compiler
are modelled beside it: the layout of structs and unions, and the mangling of assembly symbols.

## What "preserves behaviour" means here

`Semantics` gives TACKY a step semantics. What operators, conversions, field access, outside
memory and callees do is a parameter, the `Machine`, so a theorem about a pass holds for all of
them (where a pass needs a law, such as "a copy between variables of one type is exact", the law
is a hypothesis of the theorem). Pointers are addresses of variables (`Ptr`) or plain numbers; a
call sees its arguments, the aliased variables and memory, and may change the latter two.

`Behaviour.Equivalent` relates two codes started on the same data: whatever one shows after any
number of steps, the other shows after some number of steps, in both directions. What is shown is
the list of calls so far and, once the run stops, the returned value, the statics and memory; a run
into undefined behaviour (an undefined label, or `Unreachable`) keeps only its calls. So equivalent
codes stop on the same inputs with the same result, and diverge on the same inputs
(`Behaviour.EquivalentStops`).

`Preservation.Suitable` are the functions a pass may assume: the aliased set covers every address
the code takes, and operators, memory and callees make no addresses up. `Effects.Provenance` is the
invariant that rests on it.

## Layout of the project

- `Tacky`, `Semantics`, `Behaviour`, `Effects`: instructions, meaning, equality of behaviour,
  pointer provenance and what an instruction can touch.
- `Cfg`, `CfgRuns`, `Paths`, `LocalSimulation`, `Preservation`: the graph, how runs move through
  it, and the simulation that block-local passes share.
- `Worklists`, `MustAnalysis`, `Liveness`: the dataflow solvers.
- `DeadStores`; `CopyFacts`, `CopyRewrite`, `CopyPropagation`, `CopyTermination`, `CopyPass`;
  `AvailableExprs`, `Cse`, `CseFinds`, `CsePass`, `FieldCse`; `JumpThreading`, `Unreachable`;
  `BinaryIdentities`, `FoldRules`, `FoldSoundness`, `ConstantFolding`, `FoldLimits`, `FoldSettling`;
  `Inlining`, `InliningRuns`: the passes other than loop-invariant code motion.
- `Operands`, `LivePaths`, `SameExprs`, `IntegerAnswers`, `FoldAnswers`, `CopyAnswers`, `CseAnswers`,
  `FieldAnswers`, `MotionAnswers`: what the passes must find, stated over paths, positions, operands
  and numbers and without the functions that compute it, and the proofs that they do.
- `Dominators`, `Loops`, `Hoisting`, `HoistingRuns`, `LoopMotion`, `MotionSafety`, `LoopDepth`,
  `MotionPass`, `MotionLimits`, `MotionChoice`: loop-invariant code motion. `HoistingRuns` is the
  simulation, `MotionSafety` the theorem about one hoist, `LoopDepth` the termination measure,
  `MotionPass` the whole pass, `MotionLimits` the graphs on which it goes wrong and `MotionChoice`
  the proof that it has no other move there.
- `PassSequence`: unreachable code, common subexpressions and dead stores in the order in which the
  optimizer runs them.
- `Layout`, `Mangling`, `Arithmetic`, `SmallPrograms`: the two separate parts and helpers.

## Where the code does not meet its promise

Each of these keeps the code as it is and is stated as a lemma with a concrete input, next to the
condition under which the property holds for all inputs.

- Copy propagation need not terminate. Its transfer function is not monotone, because a copy that
  reverses a reaching copy is not recorded (src/cfg.rs:401-412). `CopyTermination` gives a
  well-formed graph of seven blocks, built from a body with unique labels, whose equations have no
  solution, so after any number of rounds blocks still wait in the worklist (`OscillatorHasNoSolution`, `OscillatorNeverDone`). It does end
  whenever no two copies of the function reverse each other (`CopyPropagate`), and whenever it ends
  the rewrite is correct.
- A hoist can change what a program returns in three ways: a loop that starts at block 0, whose
  entry edge `loop_preheader` skips (`HeaderAtStartFails`); a preheader that ends in a conditional
  jump with both edges to the header, behind which the code is appended (`BranchingPreheaderFails`);
  a header that reads a temporary before the loop's only definition of it (`EarlyReadFails`).
  On each of the three graphs that hoist is the only one the pass can make (`EveryStartMoveFails`,
  `EveryTwinMoveFails`, `EveryLateMoveFails`). `MovePreserves` holds for every hoist that avoids all
  three.
- Loop-invariant code motion can run for ever on code that no path reaches: two loops pass an
  instruction back and forth, and the pass has no other move (`SwingsForever`). With every block
  reached it terminates, on any graph (`LoopInvariantCodeMotion`). The flags allow this pass without
  the one that removes unreachable code (src/optimize.rs:146-158).
- Sharing of field reads goes wrong when a read overwrites the aggregate it reads from and the field
  is read again (`SelfReadFails`), since the overwritten variable is recorded as holder of its own
  field. It is right whenever no read of the body overwrites the aggregate it reads from
  (`NoSelfRead`), and more generally whenever no shared read is replaced by a copy of its own
  aggregate; such a copy is right exactly where the part is equal to the whole (`OwnHolderRight`).
  Reads of one field must also share a type, which the pass does not look at (`TwoTypesFail`).
- Constant folding computes negations and complements of 32-bit numbers at 64 bits and does not
  truncate them (src/optimize/constant_folding.rs:704-710), so the constant on record can differ from
  its variable in the high bits. A branch or a logical negation is folded rightly exactly when that
  constant is 0 just when the variable is (`BranchRight`, `NotRight`), a return exactly when it is the
  variable's number (`ReturnRight`). With `x` the greatest 32-bit unsigned number, a branch on its
  complement is folded the wrong way (`ComplementBranchFails`). No other instruction makes such
  constants (`SettledStays`), so bodies without these, with literals that fit and whose folds are
  about integers (`Integral`), are folded rightly (`PlainBodiesCovered`). Literals that do not fit are
  compared by their low bits (`UnfitLiteralFails`).
- A computation whose value another variable has is not always replaced. The tables of available
  expressions grow from nothing, so an expression that a loop would have to pass on to itself is lost:
  it is available exactly if every way back from the block computes it within a bounded number of blocks
  (`AvailableIsComputedBefore`), which is more than on every path (`BeforeOnAllPaths`, `LoopForgets`).
  And a variable that was made a copy of the holder counts for nothing once the holder is overwritten
  (`LostSumStays`); `LaterIsCopy` says when the second of two computations does become a copy.
- A repeated read of a field is not always shared, because a store leaves stale entries in the lists of
  holders, and assigning such a variable takes the entry of a later holder away (`StaleListForgets`). It
  is shared when no variable that the field was read into before is assigned (`LaterReadShared`).
- The comment at src/cfg.rs:1404-1405 says that a dead `GetAddress` is kept; the code deletes it.
  The model follows the code, and deleting it is proved correct.

## Model

| member | source | states |
|---|---|---|
| `Tacky.FindAliasedVars` | src/cfg.rs:198-213 | the loop returns exactly the statics and the variables whose address the body takes |
| `Behaviour.Simulation` | src/optimize.rs:111-175 | a relation kept by steps on both sides, or on one side while a rank drops, makes two codes show the same over all runs |
| `Behaviour.EquivalentStops` | src/optimize.rs:111-175 | equivalent codes stop on exactly the same inputs, with the same returned value, statics, memory and calls |
| `Behaviour.EquivalentTransitive` | src/optimize.rs:111-175 | equivalence composes, so passes may be chained |
| `Preservation.PreservedTransitive` | src/optimize.rs:111-175 | passes that each preserve all suitable functions preserve them together |
| `Preservation.FlatPreserved` | src/optimize.rs:216-246 | a graph and its instruction list preserve each other, and take the same addresses |
| `ControlFlow.PartitionIntoBasicBlocks` | src/cfg.rs:141-168 | nothing is lost or reordered; labels stand first and terminators last in their block; every cut is there because of one of them; no block is empty |
| `ControlFlow.CutsUnique` | src/cfg.rs:141-168 | there is one way to cut a body like that, so what was built from it is determined |
| `ControlFlow.Cfg.Build` | src/cfg.rs:31-110 | the graph holds the instructions, its successors are those its terminators ask for, and predecessors invert successors |
| `ControlFlow.Cfg.AddBlockEdges` | src/cfg.rs:60-106 | a block gets exactly the edges of its terminator, both ends updated and no other block changed |
| `ControlFlow.EdgesWritten` | src/cfg.rs:60-106 | which edges those are, told by the last instruction of the block and the labels at the starts of blocks: the next block, the last block of the label, or the exit |
| `ControlFlow.Cfg.IntoInstructions` | src/cfg.rs:127-139 | the blocks' instructions in order |
| `ControlFlow.UniqueFromBody` | src/compile.rs:83-115 | unique labels in a body make unique labels of its blocks |
| `ControlFlow.SkeletonWellFormed` | src/cfg.rs:31-110 | rewriting instructions without touching labels and terminators keeps the graph well formed |
| `CfgRuns.StepFollowsEdges` | src/cfg.rs:31-110 | every step stays in its block or follows a recorded edge, and runs only stand where the block lets them |
| `CfgRuns.FlatteningPreserves` | src/cfg.rs:114-139 | running the blocks is running the list they were cut from, for every machine |
| `Effects.Provenance` | src/cfg.rs:198-213 | in every state a run reaches, every address of a variable names an aliased variable |
| `Effects.RunFrame` | src/optimize.rs:177-185 | over whole runs, a variable neither aliased nor anybody's destination keeps its value |
| `Effects.ExecAgree` | src/optimize/instr_utils.rs:163-375 | two states that agree on what an instruction needs agree afterwards on its destination and on all they agreed on before |
| `LocalSimulation.LocalPassPreserves` | src/optimize.rs:111-175 | a relation between remainders of one block, closed under its steps and its edges, makes a block-local pass preserve behaviour |
| `Liveness.TransferLivenessAndFilter` | src/cfg.rs:1237-1357 | the backward scan returns exactly the live set and the filtered block of their recursive definitions |
| `Liveness.MeetLiveness` | src/cfg.rs:1190-1235 | the live set at the end of a block is the union over its successors, with statics and aliased variables at exits |
| `Liveness.SolveLiveness` | src/cfg.rs:1138-1171 | the worklist terminates on every well-formed graph in the least solution of the liveness equations, and every private variable in it is read on some path before it is overwritten |
| `DeadStores.PruningPreserves` | src/cfg.rs:1138-1188 | deleting what is dead at a solution of the equations, stores that only become dead during the scan included, preserves behaviour |
| `Liveness.LiveNeeded` | src/cfg.rs:1190-1357 | a private variable that is live at a position is read on a path from there before anything overwrites it, told by operands, destinations and edges |
| `DeadStores.UnchangedHasNone` | src/cfg.rs:1173-1188 | a graph that the pass leaves as it is has no instruction that only computes into a private variable whose value no path reads |
| `DeadStores.DeadStoreElimination` | src/cfg.rs:1101-1188 | the pass finds the least solution of the equations, deletes exactly the dead stores, preserves behaviour and shrinks the code when it reports a change; without a change no dead store is left, told over the paths of the graph |
| `DeadStores.RunDeadStoreElimination` | src/optimize.rs:226-246 | the repetition terminates, preserves the behaviour of the body, and leaves no instruction that only computes into a private variable such that every path overwrites it or ends before reading it |
| `MustAnalysis.MeetFacts` | src/cfg.rs:326-361 | the smallest-first intersection returns what every predecessor guarantees, and nothing at the entry |
| `MustAnalysis.Solve` | src/optimize/cse.rs:267-297 | for a monotone transfer the forward worklist terminates with every equation satisfied, in what its rounds lead to |
| `MustAnalysis.RoundsBelow` | src/optimize/cse.rs:267-297 | what any number of rounds leads to is contained in every solution, for a monotone transfer |
| `MustAnalysis.SolveWithin` | src/cfg.rs:278-308 | for any transfer, the result is what the given number of rounds leads to; an exit satisfies every equation; for a monotone transfer a stated number of rounds is enough |
| `CopyFacts.TransfersShaped` | src/cfg.rs:363-540 | the copies recorded are functional (one source per destination) and acyclic apart from self-copies, at every point |
| `CopyFacts.SelectByScan` | src/cfg.rs:753-789 | scanning a set of copies in any order selects the same copy |
| `CopyFacts.ResolveIsChainEnd` | src/cfg.rs:717-741 | resolution ends and returns the end of the chain of usable copies, or nothing exactly when there is none |
| `CopyRewrite.RewriteKeepsEffect` | src/cfg.rs:817-1095 | a rewritten instruction has the very effect of the original wherever its facts hold |
| `CopyRewrite.DeletedIsNoOp` | src/cfg.rs:791-852 | a deleted copy changes no variable |
| `CopyRewrite.TransferSound` | src/cfg.rs:414-540 | facts that hold before an instruction are turned into facts that hold after it, across stores and calls |
| `CopyPropagation.RewriteInstructions` | src/cfg.rs:310-324 | the rewriting loop yields the block of the recursive definition, whose facts follow the rewritten copies |
| `CopyPropagation.PropagationPreserves` | src/cfg.rs:278-324 | at any solution of the equations the rewritten graph preserves behaviour, passes through the same states as the original, and every reaching copy holds whenever a run starts the block it reaches |
| `CopyTermination.MonotoneWithoutReversals` | src/cfg.rs:392-412 | without two copies that reverse each other the transfer function is monotone |
| `CopyTermination.OscillatorWellFormed` | src/cfg.rs:278-308 | the counterexample to termination is a graph that `Cfg::build` could have built |
| `CopyTermination.OscillatorHasNoSolution` | src/cfg.rs:401-412 | no assignment of copies to its blocks satisfies the equations |
| `CopyPass.OscillatorNeverDone` | src/cfg.rs:278-308 | the labels of its instructions are unique, so a graph can be built from them; on every such graph the worklist is not empty after any number of rounds |
| `CopyAnswers.RewrittenUses` | src/cfg.rs:753-1095 | in a rewritten block, behind a copy that still holds nothing reads the variable in place of the original, no copy is repeated and none is of a variable to itself; a constant is put wherever the type of the operand does not matter |
| `CopyPass.CopyPropagate` | src/cfg.rs:278-324 | it reports the end of the worklist exactly; then the pass preserves behaviour and every copy is used in its block; and it ends when no copies reverse each other |
| `CopyPass.RunCopyPropagation` | src/optimize.rs:216-224 | the same for function bodies, through the graph and back, the condition for its end included |
| `AvailableExprs.KeyIsResult` | src/optimize/cse.rs:451-574 | the key of an instruction has the value the instruction computes, reordered commutative operands included |
| `AvailableExprs.TransferAvailSound` | src/optimize/cse.rs:400-431 | a table in which every holder has its key's value is turned into one that holds after the instruction, loads across aliased writes included |
| `AvailableExprs.TransfersMonotone` | src/optimize/cse.rs:387-431 | the transfer of a block is monotone within the expressions of the code |
| `Cse.ReplacementSame` | src/optimize/cse.rs:299-345 | a copy from the holder leaves the very state the recomputation would have left |
| `Cse.EliminateInBlock` | src/optimize/cse.rs:299-345 | the rewriting loop yields the block of the recursive definition and reports whether it differs |
| `Cse.EliminationPreserves` | src/optimize/cse.rs:267-345 | elimination preserves behaviour, and after any number of steps both codes are in the very same state, although facts are found on the original instructions and used on the rewritten ones; where a block starts every available pair holds |
| `CseFinds.SameKey` | src/optimize/cse.rs:451-590 | two instructions have one key exactly if they have the same operator, operands and types, operands swapped where their order is free |
| `CseFinds.AvailableIsComputedBefore` | src/optimize/cse.rs:267-297 | an expression is available in a variable where a block starts exactly if, going back, every way leads over a bounded number of quiet blocks to one that computes it into that variable |
| `CseFinds.EliminationFinds` | src/optimize/cse.rs:299-345 | every instruction of the rewritten graph is a copy or itself as that tells |
| `CsePass.CommonSubexpressionElimination` | src/optimize/cse.rs:267-345 | the pass terminates, solves its equations, preserves behaviour, and makes a computation a copy exactly if some other variable has its value: one the rewritten block computed it into, or every way back from the block does, with nothing in between that disturbs either |
| `CsePass.RunCommonSubexpressionElimination` | src/optimize.rs:132-144 | the same for function bodies |
| `CseAnswers.LaterIsCopy` | src/optimize/cse.rs:299-345 | of two computations of one expression in a block, the second becomes a copy of the variable that has the value after the first, if nothing in between may change an operand or that variable |
| `CseAnswers.StartIsCopy` | src/optimize/cse.rs:347-398 | so does a computation at the start of a block whose value every way back puts into one variable |
| `CseAnswers.LostSumStays` | src/optimize/cse.rs:299-345 | a sum that a variable still has is computed again, because the variable it was copied from is overwritten |
| `CseAnswers.LoopForgets` | src/optimize/cse.rs:267-297 | behind a loop that does not touch it a sum is computed again, though every path to it has computed it into one variable |
| `SameExprs.BeforeOnAllPaths` | src/optimize/cse.rs:347-398 | what every way back computes is computed on every path from the first block |
| `FieldCse.FieldIndex.InvalidateKey` | src/optimize/cse.rs:142-169 | one entry goes, from its lists as well |
| `FieldCse.FieldIndex.Invalidate` | src/optimize/cse.rs:111-127 | everything listed under the name goes, and no entry mentions it any more, although clearing leaves stale lists |
| `FieldCse.FieldIndex.Insert` | src/optimize/cse.rs:96-109 | the entry is added and listed under its source and its holder |
| `FieldCse.CseCopyFromOffsetBlock` | src/optimize/cse.rs:18-94 | the scan over the three maps emits exactly the block its definition on values gives |
| `FieldCse.SharedRewrites` | src/optimize/cse.rs:62-94 | every instruction stays, or is a read replaced by a copy from a variable that was read from the same field, with nothing between that could change either |
| `FieldCse.SharingPreserves` | src/optimize/cse.rs:10-94 | such replacements preserve behaviour, if none copies the very aggregate it reads and reads of one field share a type |
| `FieldCse.OwnHolderRight` | src/optimize/cse.rs:62-79 | a copy of the very aggregate leaves the right state exactly where the part read is equal to the whole |
| `FieldCse.CseCopyFromOffset` | src/optimize/cse.rs:10-16 | the pass scans the blocks of the body one by one, keeps its length, and preserves its behaviour under these conditions, and whenever no read of the body overwrites the aggregate it reads from |
| `FieldAnswers.LaterReadShared` | src/optimize/cse.rs:18-94 | of two reads of one field the second becomes a copy of a variable that has the field, if in between and at it neither the aggregate nor any variable the field was read into before is assigned, and nothing calls or stores |
| `FieldAnswers.StaleListForgets` | src/optimize/cse.rs:111-127 | a read stays though a variable has the field, because a variable that had it before a store is assigned |
| `FieldCse.SelfReadFails` | src/optimize/cse.rs:25-79 | on a body with a read that writes its own source the pass emits a copy of it, which changes what is returned |
| `FieldCse.TwoTypesFail` | src/optimize/cse.rs:62-79 | on a body that reads one field as two types the pass puts in a copy of the narrower value, which changes what is returned |
| `JumpThreading.ResolveJumpTarget` | src/optimize/unreachable.rs:131-153 | the loop terminates on every body with the recursive resolution as its result |
| `JumpThreading.ResolvesIffChainEnds` | src/optimize/unreachable.rs:131-153 | a label resolves exactly when its chain of jumps ends, and to that end: never through a cycle or to an undefined label |
| `JumpThreading.ThreadingPreserves` | src/optimize/unreachable.rs:81-106 | threading preserves behaviour for every body and every machine |
| `JumpThreading.ThreadingIdempotent` | src/optimize/unreachable.rs:81-106 | a second threading changes nothing |
| `JumpThreading.ThreadJumpChains` | src/optimize/unreachable.rs:81-106 | the loop makes every jump whose chain of jumps ends go to the end of the chain, told by positions of labels and jumps in the body, keeps everything else, and reports exactly whether the body changed |
| `UnreachableCode.ReachableBlocks` | src/optimize/unreachable.rs:25-40 | the search terminates with exactly the blocks to which a path from block 0 leads |
| `UnreachableCode.KeepingPreserves` | src/optimize/unreachable.rs:42-60 | dropping Nops, and blocks no kept block has an edge to, preserves behaviour |
| `UnreachableCode.CleaningPreserves` | src/optimize/unreachable.rs:65-79 | dropping jumps to the next instruction preserves behaviour when labels are unique |
| `UnreachableCode.RemoveRedundantFallthroughJumps` | src/optimize/unreachable.rs:65-79 | exactly the jumps, conditional or not, to the label behind them go, and a change is reported exactly when one went |
| `UnreachableCode.KeptTargets` | src/compile.rs:181-190 | jumps among the kept blocks still have their labels |
| `UnreachableCode.UnreachableCodePass` | src/optimize/unreachable.rs:20-63 | a pass preserves behaviour, unique labels and defined targets; a change makes progress, and no change means that nothing is left to do |
| `UnreachableCode.SettledIsTidy` | src/optimize/unreachable.rs:20-106 | what a settled body looks like, told by positions of labels and jumps |
| `UnreachableCode.UnreachableCodeElimination` | src/optimize/unreachable.rs:4-18 | the repetition terminates; the result behaves alike, has every block reached, no Nop, no jump to the label right behind it, and no jump whose label leads straight on to a jump whose chain ends; a settled body is left as it is |
| `Dominators.ComputeDominators` | src/optimize/licm.rs:124-178 | it terminates, and d is in the set of b exactly when every path to b from block 0 or a block without predecessors contains d |
| `Dominators.MeetPredecessors` | src/optimize/licm.rs:138-166 | the new set is the block itself and what all its predecessors share, whichever seed is smallest |
| `Loops.NaturalLoopBlocks` | src/optimize/licm.rs:180-199 | it terminates with exactly the header and the blocks that reach the tail without passing the header |
| `Loops.EnteredAtHeader` | src/optimize/licm.rs:180-199 | an edge from outside into a natural loop goes to its header |
| `Loops.HeaderDominatesLoop` | src/optimize/licm.rs:32-46 | the header of a back edge dominates its whole loop |
| `Loops.OnlyHeaderDominatesLoop` | src/optimize/licm.rs:71-81 | in a loop runs can reach, only the header passes the test that it dominate every block of the loop |
| `LoopMotion.LoopPreheader` | src/optimize/licm.rs:201-224 | a block is returned exactly when it is the single outside predecessor listed and the header its only successor |
| `LoopMotion.CollectBackEdges` | src/optimize/licm.rs:29-46 | all back edges, and only those, with their exact loops |
| `LoopMotion.LicmOnce` | src/optimize/licm.rs:23-122 | one hoist out of a smallest loop that has one is carried out, or the graph is unchanged and no hoist is possible |
| `Hoisting.CollectLoopDefCounts` | src/optimize/licm.rs:226-239 | the counts are exactly the numbers of definitions in the loop |
| `Hoisting.SplitBlock` | src/optimize/licm.rs:82-102 | the scan keeps and takes out what the recursive split does, in order |
| `Hoisting.SplitFacts` | src/optimize/licm.rs:82-102 | no definition is lost or duplicated between what stays and what goes |
| `Hoisting.ChosenFits` | src/optimize/licm.rs:241-294 | what the candidate test lets through computes from unaliased operands that nothing left in the loop assigns, in an order in which each reads only earlier ones |
| `HoistingRuns.MovingPreserves` | src/optimize/licm.rs:104-118 | moving such instructions to the preheader preserves behaviour, and every point of a run has its counterpart in the run of the moved code |
| `HoistingRuns.MovedValues` | src/optimize/licm.rs:104-118 | at every later point in the loop the moved variables have the values their instructions compute, and all variables agree, but for those the header is yet to assign |
| `MotionSafety.MovePreserves` | src/optimize/licm.rs:48-119 | every hoist the pass may make preserves behaviour, if the header is not block 0, the preheader does not branch, and the header reads no hoisted temporary before writing it |
| `MotionSafety.UnreachedChanges` | src/optimize/licm.rs:71-81 | rewriting blocks that no path from block 0 reaches changes nothing |
| `LoopDepth.LoopAroundPreheader` | src/optimize/licm.rs:201-224 | every loop that contains the preheader contains the header |
| `LoopDepth.MoveLightens` | src/optimize/licm.rs:10-21 | with all blocks reached, a hoist lowers the sum, over instructions, of the loops around them, on any graph with matching edges |
| `MotionPass.TidyKept` | src/optimize/licm.rs:48-119 | hoisting keeps temporaries defined once and before every read on every path |
| `MotionPass.LoopInvariantCodeMotion` | src/optimize/licm.rs:10-21 | with all blocks reached the pass terminates and stops only when no hoist is left: no header with a block of its own in front has an instruction that is the only one in the loop to assign its temporary and computes it from what the loop does not change, told by paths, operands and destinations; with tidy temporaries, no edge to block 0 and no twin branches it preserves behaviour and keeps these conditions |
| `MotionAnswers.NoMoveNoInvariant` | src/optimize/licm.rs:23-299 | where no move is possible there is no invariant instruction in such a header, told by paths, operands and destinations |
| `MotionLimits.HeaderAtStartFails` | src/optimize/licm.rs:207-216 | a graph cut as building cuts it, with a loop at block 0, on which a hoist changes the returned value |
| `MotionLimits.BranchingPreheaderFails` | src/optimize/licm.rs:108-117 | such a graph with a branching preheader on which a hoist changes the returned value |
| `MotionLimits.EarlyReadFails` | src/optimize/licm.rs:241-294 | such a graph with an early read on which a hoist changes the returned value |
| `MotionLimits.UnreachedLoopsSwing` | src/optimize/licm.rs:10-21 | a hoist leads from each of two such graphs with unreached loops to the other |
| `MotionChoice.EveryStartMoveFails` | src/optimize/licm.rs:207-216 | the only hoist on the first of these graphs changes what is returned |
| `MotionChoice.EveryTwinMoveFails` | src/optimize/licm.rs:108-117 | the only hoist on the second changes what is returned |
| `MotionChoice.EveryLateMoveFails` | src/optimize/licm.rs:241-294 | the only hoist on the third changes what is returned |
| `MotionChoice.SwingsForever` | src/optimize/licm.rs:10-21 | every course of hoists between the two unreached loops swings to and fro and can go on: the pass never ends there |
| `MotionChoice.SwingOnce` | src/optimize/licm.rs:23-122 | each round on one of the two graphs reports a change and leaves the other |
| `BinaryIdentities.AndMask` | src/optimize/constant_folding.rs:1341-1345 | masking with 2^k - 1 is the remainder by 2^k, for every number |
| `BinaryIdentities.ShiftLeftMultiplies` | src/optimize/constant_folding.rs:35-36 | moving bits up by k multiplies by 2^k at the width, for every number |
| `BinaryIdentities.ShiftRightFloors` | src/optimize/constant_folding.rs:35-36 | moving bits down by k with the sign bit copied divides by 2^k and rounds down, at every integer type |
| `BinaryIdentities.Log2Powers` | src/optimize/constant_folding.rs:1327-1339 | the exponent is found for exactly the powers of two above 1 |
| `BinaryIdentities.PowerReductions` | src/optimize/constant_folding.rs:1132-1176 | at 32, 64 and 128 bits, unsigned multiplication and division by 2^k give what moving the bits by k gives, for every operand |
| `BinaryIdentities.SimplifyKeeps` | src/optimize/constant_folding.rs:1091-1305 | every simplification of an arithmetic or bitwise instruction leaves the state the instruction leaves, divisors being nonzero |
| `BinaryIdentities.ComparisonKeeps` | src/optimize/constant_folding.rs:1306-1325 | a comparison of an operand with itself folds to what the order of numbers makes of it |
| `IntegerAnswers.CanonIsNumber` | src/optimize/constant_folding.rs:4-137 | bringing a number into range gives the one in the range of the type that differs by a multiple of the modulus, ranges and moduli written out |
| `IntegerAnswers.NumberUnique` | src/optimize/constant_folding.rs:4-137 | there is only one such number |
| `IntegerAnswers.TruncDivides` | src/optimize/constant_folding.rs:11-25 | dividend = divisor * quotient + remainder, with a remainder smaller than the divisor that is 0 or has the sign of the dividend |
| `IntegerAnswers.ArithGives` | src/optimize/constant_folding.rs:4-137 | every arithmetic operator gives a number congruent to its result, every bitwise operator the right bit at every position, a left shift the product with and a right shift the rounded-down quotient by a power of two, at every promoted type and on all numbers |
| `IntegerAnswers.RelatedGives` | src/optimize/constant_folding.rs:31-36 | a comparison gives 1 exactly where the inequality holds |
| `IntegerAnswers.MachineGives` | src/optimize/constant_folding.rs:4-137 | so does every machine that meets the laws, and its result is in range |
| `IntegerAnswers.CommonOfIntegers` | src/types.rs:199-240 | the common type of two integer types has at least 32 bits and the size of the larger, and is unsigned when an operand of that size is |
| `FoldSoundness.ArithSame` | src/optimize/constant_folding.rs:589-676 | every arithmetic, bitwise and shift operator depends on the low bits of its operands only |
| `FoldSoundness.ArithFoldSame` | src/optimize/constant_folding.rs:589-676 | arithmetic with resolved operands, folded or simplified, leaves the state the instruction leaves |
| `FoldSoundness.ComparisonFoldSame` | src/optimize/constant_folding.rs:589-676 | whatever a comparison is folded to, of constants, of addresses or of an operand with itself, leaves the state that comparing the variables at their common type leaves |
| `FoldSoundness.UnaryFoldSame` | src/optimize/constant_folding.rs:677-731 | negation and complement are right in the low bits; logical negation under the condition of `NotRight` |
| `FoldSoundness.ConvertFoldSame` | src/optimize/constant_folding.rs:775-848 | truncations and extensions of known numbers, between types of 8 to 128 bits and to addresses, fold to what the conversion gives |
| `FoldSoundness.FoldOneAlike` | src/optimize/constant_folding.rs:166-207 | whatever the scan emits for an instruction steers alike, returns alike and leaves the same state |
| `FoldAnswers.BinaryAnswers` | src/optimize/constant_folding.rs:589-660 | a binary instruction on two known operands becomes a copy of the literal for the number in range that the operator gives, division by a divisor other than 0 included |
| `FoldAnswers.UnaryAnswers` | src/optimize/constant_folding.rs:666-724 | a sign, complement or negation of a known operand becomes a copy of the literal for it, at 64 bits or the wide type |
| `FoldAnswers.NeutralOperands` | src/optimize/constant_folding.rs:1091-1320 | a second operand of 0 or 1 that leaves nothing to compute leaves a copy |
| `FoldAnswers.NeutralFirstOperands` | src/optimize/constant_folding.rs:1091-1320 | so does such a first operand |
| `FoldAnswers.TwiceFolds` | src/optimize/constant_folding.rs:1091-1126 | an operand combined with itself leaves a copy of it, of 0, or its complement |
| `FoldAnswers.TwiceCompares` | src/optimize/constant_folding.rs:1091-1126 | compared with itself it is equal |
| `FoldAnswers.DistanceAnswers` | src/optimize/constant_folding.rs:1060-1088 | a known distance is put into bytes, at 64 bits; none at all leaves the pointer |
| `FoldAnswers.PowersReduced` | src/optimize/constant_folding.rs:1127-1180 | on unsigned numbers a product with a power of two becomes a shift, a quotient a shift and a remainder a mask |
| `ConstantFolding.RecordKept` | src/optimize/constant_folding.rs:209-296 | after every emitted instruction each constant on record is congruent to its variable modulo the width |
| `ConstantFolding.FoldingInStep` | src/optimize/constant_folding.rs:140-302 | after any number of steps the folded body stands where the body stands, with the same data, and every constant on record there is congruent to its variable |
| `ConstantFolding.FoldingPreserves` | src/optimize/constant_folding.rs:140-302 | so the folded body behaves like the body, for every machine with two's-complement integers; null pointers and numbers of 8 and 16 bits may be stored, copied, converted and tested |
| `ConstantFolding.ConstantFold` | src/optimize/constant_folding.rs:140-302 | the scan yields the body its definition gives, reports a change exactly, and preserves behaviour; every operator, branch, conversion, return and load whose operands are literals, or variables that a literal reaches undisturbed, is answered: arithmetic and comparisons by the literal for the right number, branches by a jump or nothing |
| `FoldLimits.BranchRight` | src/optimize/constant_folding.rs:732-774 | a branch is folded the way it goes exactly when the constant on record is 0 just when the variable is |
| `FoldLimits.NotRight` | src/optimize/constant_folding.rs:704-710 | a logical negation is folded rightly exactly under the same condition |
| `FoldLimits.ReturnRight` | src/optimize/constant_folding.rs:354 | a return hands back the right value exactly when the constant on record is the variable's number |
| `FoldLimits.ComplementBranchFails` | src/optimize/constant_folding.rs:704-754 | on every such machine a branch on the complement of the greatest 32-bit number is folded the wrong way |
| `FoldLimits.ComplementLawful` | src/optimize/constant_folding.rs:4-137 | a machine that meets all the laws exists |
| `FoldLimits.UnfitLiteralFails` | src/optimize/constant_folding.rs:473-493 | 2^32 and 0 as literals are folded to equal, and a machine that meets all the laws tells them apart |
| `FoldSettling.SettledStays` | src/optimize/constant_folding.rs:704-710 | constants stay equal to their variables over every instruction but a negation or complement at 32 bits |
| `FoldSettling.PlainBodiesCovered` | src/optimize/constant_folding.rs:140-302 | where folds are about integers (`Integral`), bodies without these, and with literals that fit, meet the conditions everywhere |
| `Inlining.FindCandidate` | src/optimize/inline.rs:109-181 | a candidate is returned exactly for local scalar functions of at most 16 plain instructions, told by their positions in front of the one return, over known names |
| `Inlining.CandidatesAreInlinable` | src/optimize/inline.rs:109-204 | the recursive definition of a candidate says the same as positions, kinds of instructions and operands do |
| `Inlining.InlineNamesDistinct` | src/optimize/inline.rs:282-300 | names made for inlined variables differ across calls and across variables |
| `Inlining.InlineExpansion.RenameVar` | src/optimize/inline.rs:282-300 | statics keep their names, others get the call's name for them, and a typed one is noted for the symbol tables when it is first renamed and not again |
| `Inlining.InlineCallInstr` | src/optimize/inline.rs:206-280 | a call is replaced exactly when eligible, by parameter copies, renamed body and result copy, under a call number used once, and every rename of a typed variable is added to the notes |
| `Inlining.RenamesTyped` | src/optimize/inline.rs:65-92 | entering the notes gives every new name the type of the old one and leaves the names of the program alone |
| `Inlining.InlinedCallFits` | src/optimize/inline.rs:109-181 | a chosen candidate whose renames are entered meets the conditions of `InliningKeeps`, if its parameters are no statics and its locals are assigned before use |
| `Inlining.InliningKeeps` | src/optimize/inline.rs:206-280 | the expansion puts into the destination what the callee returns from a frame of its own and leaves statics, memory, calls and every other caller variable alone |
| `Inlining.UnassignedReadFails` | src/optimize/inline.rs:282-300 | inlined a second time under the same names, a function that reads a local before assigning it finds what its first round left, not a fresh frame |
| `InliningRuns.CollectInlineCandidates` | src/optimize/inline.rs:91-107 | the map has under each name exactly the candidate that the last function of that name that is one gives |
| `InliningRuns.InlineBody` | src/optimize/inline.rs:45-62 | each eligible call of a body is replaced under its own number, everything else stays in place, and the renames of every call are noted |
| `InliningRuns.FrameReturns` | src/optimize/inline.rs:109-181 | the callee's own body, run from a frame with the arguments, returns the value its candidate computes and leaves memory and calls alone |
| `InliningRuns.InliningRunsAlike` | src/optimize/inline.rs:45-62 | whatever a caller whose eligible calls are answered by such frames shows after any number of steps, its rewritten body shows after some, and the other way round |
| `InliningRuns.ProgramRunsAlike` | src/optimize/inline.rs:28-92 | so does every caller of a program of ordinary names, with the types of the program and the renames entered |
| `InliningRuns.InlineFunctions` | src/optimize/inline.rs:28-92 | every function gets its rewritten body, call numbers going on from one to the next, and the symbol table all renames |
| `PassSequence.RunPostTransformCleanup` | src/optimize.rs:187-214 | the repetition leaves a settled body that behaves alike, and a settled body as it is |
| `PassSequence.EliminatedSettled` | src/optimize.rs:132-144 | elimination of common subexpressions leaves nothing to clean up in a settled body |
| `PassSequence.SameTaken` | src/optimize.rs:177-185 | in code that is reached everywhere it keeps an occurrence of every address taken, so the aliased variables recomputed afterwards are the same |
| `PassSequence.OptimizeFunction` | src/optimize.rs:111-175 | unreachable code, common subexpressions and dead stores, in this order and with cleanups between, preserve behaviour together |
| `Layout.RoundedUp` | src/types.rs:1031-1040 | rounding up gives the next multiple, and only for powers of two |
| `Layout.StructBitsSound` | src/types.rs:891-949 | placing a bit-field, in the open unit or a new one, keeps all declarations apart and aligned |
| `Layout.PlainSound` | src/types.rs:952-1005 | placing a plain member behind the used bits of an open unit keeps all declarations apart and aligned |
| `Layout.UnitInside` | src/types.rs:1011-1016 | a storage unit with a bit in use lies inside the padded struct, even when later members reuse its tail |
| `Layout.FromMembersEx` | src/types.rs:776-1023 | every declaration stands where the one before it leaves room, told by the rooms they take: a bit-field in the bits left of a unit of its kind or else in a unit at the least multiple of its alignment, a plain member at the least multiple behind the last byte in use; alignment and size are the greatest asked for and the least multiple that holds everything; errors are due to a bit-field that no layout accepts; on success an unpacked aggregate has every member and storage unit inside it and at its own alignment, and different declarations of a struct share no bit; under a new tag the result may be nested again |
| `Layout.NeighboursPack` | src/types.rs:891-1005 | told from two neighbouring named members alone: bits are packed while the unit has room, a plain member starts as early as its alignment allows |
| `Mangling.MangleAssemblyLabel` | src/target.rs:199-225 | the symbol is the name exactly when the name has no character but letters, digits, underscore, dollar and dot and does not start with the prefix, all written out; else it is the prefix, every character spelled out, the mark, and sixteen lower-case hexadecimal digits of the hash |
| `Mangling.HashKnown` | src/target.rs:204-208 | the hash has the values published for FNV-1a at 64 bits |
| `Mangling.HashOfFoobar` | src/target.rs:204-208 | also for a text of several bytes |
| `Mangling.EncodedInUtf8` | src/target.rs:205 | the bytes that are hashed are the UTF-8 encoding of the name |
| `Mangling.DecodeEscape` | src/target.rs:210-224 | the escaped name can be read back from the front, whatever follows the mark before the hash |
| `Mangling.MangledInjective` | src/target.rs:199-225 | two names have one symbol exactly when they are equal, without relying on the hash |
| `Mangling.MangledIsLabel` | src/target.rs:140-142 | every symbol consists of label characters |
| `Mangling.SplitUndoesSuffix` | src/target.rs:149-168 | splitting undoes appending a 64-bit offset exactly when the base is not empty |
| `Mangling.SplitsExactly` | src/target.rs:149-160 | a name splits into a base and an offset exactly when it is a base that is not empty, a sign and decimal digits of that 64-bit offset |

## Left out

- ConstantFolding.FoldingPreserves: arithmetic on known numbers is covered at 32 bits and more, as after promotion; of comparisons of known addresses only equality, and `_Bool` is stored but not converted. Known numbers are copied between variables of one type.
- ConstantFolding.ConstantFold: folding of floating-point numbers, of conversions to and from them and of the four runtime conversions known by name is not modelled; operands of integer operators must be numbers, not addresses.
- BinaryIdentities.SimplifyKeeps: at promoted integer types only, divisors being nonzero.
- FieldAnswers.LaterReadShared: one direction; a read may be shared although an earlier holder is assigned, when that holder is no longer on the list of the field.
- CopyAnswers.RewrittenUses: within one block; which copies reach a block is said by the solution of the equations, which need not exist (`OscillatorHasNoSolution`).
- DeadStores.RunDeadStoreElimination: variables that are static or aliased, and aggregates written in code that calls or stores, are left out of the promise that no dead store stays; the pass may delete assignments to those too.
- FieldCse.SharingPreserves: one direction; whether a copy of the very aggregate is wrong depends on the values met at run time, which `OwnHolderRight` states.
- CopyPass.CopyPropagate: takes a bound on the rounds of the worklist, because the loop has none and can run for ever; the bound is shown to be enough when no copies reverse each other.
- MotionPass.LoopInvariantCodeMotion: the conditions for preservation are sufficient, not necessary: a graph that breaks them may still be optimized correctly, for instance when the moved value is never used.
- LoopMotion.LicmOnce: which of several loops of equal size comes first is left open, as the sort in the code leaves it to the order found.
- MotionSafety.MovePreserves: one direction, for the same reason.
- Layout.FromMembersEx: packed members and reversed bit order are modelled, but the guarantees are stated without them: a packed unit may stick out of its struct.
- Inlining.InliningKeeps: assumes that the callee assigns its locals before reading them, since an inlined local keeps its value between rounds (`UnassignedReadFails`); reading such a local is undefined in C. One direction: the value read may not matter for what is returned.
- InliningRuns.InliningRunsAlike: an inlined call leaves no event in the trace, so the caller it is compared with is the one whose eligible calls are answered by frames, not by the callees of the machine.
- Interprocedural constant propagation: one textual scan that ignores back edges.
- Setjmp and longjmp, nonlocal and indirect jumps, label and frame addresses, variadic access and atomics: control or memory effects outside the step semantics.
- Copies of whole structs: what they mean depends on the backends; field reads and writes are modelled instead.
- Floating point: operations and conversions on floats are uninterpreted.
- Address arithmetic inside an aggregate is left to the machine: a pointer is a variable and an offset, and what a store at an offset does to the aggregate is its law.
- PassSequence.OptimizeFunction: constant folding, copy propagation and loop-invariant code motion are off, since each preserves behaviour under conditions that would have to hold at its turn. Without the removal of unreachable code, common subexpressions and dead stores together are left open, because the aliased variables may then differ between them.
- Parser, TACKY generation, register allocation, backends and driver: not part of this model.
