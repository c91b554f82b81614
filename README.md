# Geexie LLVM passes and vector transform options, modelled in Dafny

This project models the Geexie toy passes built on LLVM and proves properties of them:

- **GeexieVecPass**, a naive loop vectoriser. For every innermost loop with a canonical
  induction variable it takes these steps in order:
  - It finds the one update of the induction variable.
  - It finds the loop bound that the exiting branch compares the induction variable against.
  - It checks that the bound is a constant divisible by `VECTOR_SIZE` (4).
  - It scans the body, in order, for instructions it cannot widen.
  - If everything passes, it rewrites the body in place. Each operand is replaced by a
    4-lane vector, recorded once in `valmap`. Results take vector types. The
    induction-variable update steps by 4.
- **GeexieFunctionAnalysis** counts four things in a function: basic blocks,
  `add`/`fadd`/`mul`/`fmul` operators, PHI nodes, and loops (nested loops included).
- **GeexieLoopAnalysis** counts the incoming edges of the induction-variable PHI that
  carry an update of it. The count is -1 when the loop has no canonical induction
  variable.
- **GeexieCountPass** adds the same four counts, and one per function, to five global
  statistics. It reports that every analysis is preserved.
- **`VectorTransformsOptions`** (MLIR vector dialect) is a record of three lowering
  enums with fixed defaults and chaining setters.

## How LLVM IR is represented

The IR is abstract (`ir.dfy`):

- **Instructions** live in a map from identity to `Instr`. An `Instr` has a kind, its
  operands and its type.
- **A basic block** is the sequence of its instruction identities.
- **A loop** carries four things:
  - its blocks;
  - its sub-loops;
  - its canonical induction variable, if any;
  - its unique exiting block, if any.
- **`Loop::isLoopInvariant`** uses LLVM's own definition: a value is invariant unless it
  is an instruction inside the loop.
- **Values the vectoriser creates** are kept abstract:
  - `insertelement`/`add` chains become `Vector(lanes)`; lane *i* is `Lane(base, offset)`,
    meaning `base + offset`.
  - The pointer bitcast of a GEP becomes `VecPtr(gep)`.
  - A null pointer becomes `NoValue`.
- **Passes that change the IR** work on a `FunctionIR` object whose instruction map is
  updated in place.
- **Modules**: each source file is one module.
  - `GeexieVec` is in `vectorizer.dfy`.
  - `FunctionAnalysis` is in `function_analysis.dfy`.
  - `LoopAnalysis` is in `loop_analysis.dfy`.
  - `CountPass` is in `count_pass.dfy`.
  - `VectorOptions` is in `vector_options.dfy`.

### Methods and their specifications

Each imperative routine is a method proved against a specification function:

- the counting loops against `CountOf`, `Subtree` and `Forest`;
- the legality scan against `Scan`;
- the rewrite against `RewriteBody` and `Transform`;
- `run` against `Drain`.

The lemmas then state what the source promises about those functions.

## Model

| member | source | states |
|---|---|---|
| IR.Intersect | llvm/lib/Transforms/GeexieVec/GeexieVec.cpp:278 | the intersection of two results preserves everything exactly when both do |
| IR.SetOperand | llvm/lib/Transforms/GeexieVec/GeexieVec.cpp:216-220 | setOperand replaces exactly operand k and keeps kind, type, operand count and every other operand |
| IR.ForestMembers | llvm/lib/Analysis/GeexieFunctionAnalysis.cpp:55-59 | a loop belongs to the loop forest exactly when it lies in the tree of one of the top-level loops |
| IR.SubtreeMembers | llvm/lib/Analysis/GeexieFunctionAnalysis.cpp:21-27 | a loop's tree is the loop itself plus the trees of its sub-loops, nothing else |
| LoopAnalysis.Run | llvm/lib/Analysis/GeexieLoopAnalysis.cpp:21-43 | the result is -1 without a canonical induction variable, else the number of incoming values that are updates |
| LoopAnalysis.UpdatesAmongCountsEdges | llvm/lib/Analysis/GeexieLoopAnalysis.cpp:30-38 | the count is the number of incoming-edge positions whose value is a binary operator using the induction variable as operand 0 or 1 |
| LoopAnalysis.UpdatesAmongMembers | llvm/lib/Analysis/GeexieLoopAnalysis.cpp:31-38 | an instruction is collected exactly when it is an incoming value and an update; the count never exceeds the number of incoming values |
| LoopAnalysis.InvUpdatesCountBounds | llvm/lib/Analysis/GeexieLoopAnalysis.cpp:24-41 | the result is -1 exactly when there is no canonical induction variable, otherwise it lies between 0 and the number of incoming values |
| LoopAnalysis.DuplicateEdgesCountTwice | llvm/lib/Analysis/GeexieLoopAnalysis.cpp:31-38 | the same update reaching the PHI on two edges is counted twice, and a non-operator incoming value is not counted |
| FunctionAnalysis.HandleLoop | llvm/lib/Analysis/GeexieFunctionAnalysis.cpp:21-27 | handleLoop returns the number of loops in the loop's tree, which is at least 1 |
| FunctionAnalysis.CountBlocks | llvm/lib/Analysis/GeexieFunctionAnalysis.cpp:35-46 | BBsCount is the number of blocks; MulAndAddsCount is the number of add/fadd/mul/fmul binary operators over all blocks |
| FunctionAnalysis.CountOfConcat | llvm/lib/Analysis/GeexieFunctionAnalysis.cpp:35-46 | the count over two instruction lists placed one after the other is the sum of their counts, so per-block counts add up to the function's count |
| FunctionAnalysis.AddMulAndAdds | llvm/lib/Analysis/GeexieFunctionAnalysis.cpp:38-45 | the loop over one block adds exactly that block's add/fadd/mul/fmul count to the counter |
| FunctionAnalysis.CountPhis | llvm/lib/Analysis/GeexieFunctionAnalysis.cpp:49-53 | PhisCount is the number of PHI instructions in the function |
| FunctionAnalysis.CountLoops | llvm/lib/Analysis/GeexieFunctionAnalysis.cpp:55-59 | LoopsCount is the number of loops in the forest, nested loops included |
| FunctionAnalysis.Run | llvm/lib/Analysis/GeexieFunctionAnalysis.cpp:29-63 | the result packs BBsCount, LoopsCount, MulAndAddsCount and PhisCount in that order, all non-negative |
| FunctionAnalysis.CountOfIsCardinality | llvm/lib/Analysis/GeexieFunctionAnalysis.cpp:38-53 | each instruction count equals the number of positions of the function's instructions that fall in the category |
| CountPass.Statistics.constructor | llvm/lib/Transforms/GeexieCount/GeexieCount.cpp:21-25 | every statistic starts at 0 |
| CountPass.Statistics.HandleLoop | llvm/lib/Transforms/GeexieCount/GeexieCount.cpp:27-32 | TotalLoops grows by the number of loops in the loop's tree; the other statistics are unchanged |
| CountPass.Statistics.CountBlocks | llvm/lib/Transforms/GeexieCount/GeexieCount.cpp:40-52 | TotalBBs grows by the block count and TotalMulAndAdds by the add/fadd/mul/fmul count; nothing else changes |
| CountPass.Statistics.CountLoops | llvm/lib/Transforms/GeexieCount/GeexieCount.cpp:55-58 | TotalLoops grows by the number of loops in the forest; nothing else changes |
| CountPass.Statistics.CountPhis | llvm/lib/Transforms/GeexieCount/GeexieCount.cpp:61-65 | TotalPhis grows by the PHI count; nothing else changes |
| CountPass.Statistics.Run | llvm/lib/Transforms/GeexieCount/GeexieCount.cpp:34-68 | TotalFuncs grows by 1 and each other statistic by the count GeexieFunctionAnalysis computes for the function; the pass preserves all analyses |
| VectorOptions.DiscriminantsRoundTrip | mlir/include/mlir/Dialect/Vector/VectorOps.h:111-140 | the enum discriminants are Dot=0, Matmul=1, OuterProduct=2; EltWise=0, Flat=1; None=0 to ForceUnmasked=3, and they convert back exactly |
| VectorOptions.VectorTransformsOptions.constructor | mlir/include/mlir/Dialect/Vector/VectorOps.h:142-164 | a default record is Dot / EltWise / None (the default argument of populateVectorContractLoweringPatterns) |
| VectorOptions.VectorTransformsOptions.SetVectorTransformsOptions | mlir/include/mlir/Dialect/Vector/VectorOps.h:145-149 | sets only the contract lowering and returns the same record |
| VectorOptions.VectorTransformsOptions.SetVectorTransposeLowering | mlir/include/mlir/Dialect/Vector/VectorOps.h:153-157 | sets only the transpose lowering and returns the same record |
| VectorOptions.VectorTransformsOptions.SetVectorTransferSplit | mlir/include/mlir/Dialect/Vector/VectorOps.h:160-163 | sets only the transfer split and returns the same record |
| VectorOptions.SetterChain | mlir/include/mlir/Dialect/Vector/VectorOps.h:145-163 | setters chain on one record, a later call overrides an earlier one, and repeating a call changes nothing more |
| GeexieVec.VectorizeValue | llvm/lib/Transforms/GeexieVec/GeexieVec.cpp:27-64 | the lane-filling and stride loops build exactly the vector VectorOf describes |
| GeexieVec.VectorOfLanes | llvm/lib/Transforms/GeexieVec/GeexieVec.cpp:27-63 | a constant becomes a splat; an instruction fills every lane; the induction variable holds iv+i in lane i; any other value gives null |
| GeexieVec.ExitingConditional | llvm/lib/Transforms/GeexieVec/GeexieVec.cpp:71-82 | a compare is found exactly when there is a unique exiting block whose last instruction is a conditional branch whose condition is an ICmp; the result is that condition |
| GeexieVec.LoopBound | llvm/lib/Transforms/GeexieVec/GeexieVec.cpp:95-102 | the bound exists exactly when there is a compare and an induction variable and one compare operand is the induction variable; it is the other operand, operand 0 taking precedence |
| GeexieVec.IVUpdateOf | llvm/lib/Transforms/GeexieVec/GeexieVec.cpp:84-94 | an update is found exactly when exactly one incoming value is an update, and then it is that incoming value |
| GeexieVec.GetIVUpdate | llvm/lib/Transforms/GeexieVec/GeexieVec.cpp:84-94 | the collecting loop yields the update exactly as IVUpdateOf specifies |
| GeexieVec.IVUpdateFoundIffAnalysisCountsOne | llvm/lib/Transforms/GeexieVec/GeexieVec.cpp:84-94 | the vectoriser finds an update exactly when GeexieLoopAnalysis reports a count of 1 |
| GeexieVec.HasVectorizableLoopBound | llvm/lib/Transforms/GeexieVec/GeexieVec.cpp:123-133 | the bound passes exactly when it is a ConstantInt whose signed value, under C++ truncating remainder, is divisible by 4 |
| GeexieVec.ScanRejectedPrefix | llvm/lib/Transforms/GeexieVec/GeexieVec.cpp:146-165 | the first rejection decides the scan: nothing after it is examined |
| GeexieVec.ScanCharacterization | llvm/lib/Transforms/GeexieVec/GeexieVec.cpp:137-170 | the scan accepts exactly when each instruction passes given the set accepted before it; otherwise it rejects at the first one that does not |
| GeexieVec.ScanAcceptedSet | llvm/lib/Transforms/GeexieVec/GeexieVec.cpp:136-170 | after an accepted scan, vectorizedSet holds exactly the loop's GEPs and generic-case instructions, and no branch and none of the three skipped instructions |
| GeexieVec.ScanDependsOnOrder | llvm/lib/Transforms/GeexieVec/GeexieVec.cpp:159-168 | acceptance depends on body order: add-then-multiply is accepted, the same two instructions reversed are rejected at the multiply |
| GeexieVec.CheckInstruction | llvm/lib/Transforms/GeexieVec/GeexieVec.cpp:140-168 | the index and operand loops accept an instruction exactly when Acceptable holds |
| GeexieVec.CheckIndices | llvm/lib/Transforms/GeexieVec/GeexieVec.cpp:145-150 | the GEP index loop accepts exactly when every index is the induction variable or loop-invariant |
| GeexieVec.CheckOperands | llvm/lib/Transforms/GeexieVec/GeexieVec.cpp:159-165 | the operand loop accepts exactly when every operand was accepted earlier, is loop-invariant, or is the induction variable |
| GeexieVec.ScanBlock | llvm/lib/Transforms/GeexieVec/GeexieVec.cpp:138-168 | the instruction loop over one block continues the scan: it returns the rejection or the grown vectorizedSet that Scan gives for the instructions so far |
| GeexieVec.ScanRejectedBlocks | llvm/lib/Transforms/GeexieVec/GeexieVec.cpp:136-170 | a rejection within the first blocks is the result of the whole scan: the early return skips every later block |
| GeexieVec.LegalityScan | llvm/lib/Transforms/GeexieVec/GeexieVec.cpp:136-170 | the block and instruction loops, with their early returns, compute Scan over the loop body |
| GeexieVec.MapOperandsSpec | llvm/lib/Transforms/GeexieVec/GeexieVec.cpp:211-223 | every operand is replaced by the valmap entry it ends up with; existing entries are kept; each new entry is the vector of an operand |
| GeexieVec.MapOperandsExtends | llvm/lib/Transforms/GeexieVec/GeexieVec.cpp:211-223 | the operand loop only inserts into valmap: every entry present before keeps its value |
| GeexieVec.MapOperandsLookup | llvm/lib/Transforms/GeexieVec/GeexieVec.cpp:211-223 | after the operand loop every operand has a valmap entry and was replaced by that entry |
| GeexieVec.MapOperandsNew | llvm/lib/Transforms/GeexieVec/GeexieVec.cpp:216-221 | every entry the operand loop adds is keyed by one of the operands and holds vectorizeValue of it |
| GeexieVec.VectorizeOperands | llvm/lib/Transforms/GeexieVec/GeexieVec.cpp:211-223 | the operand loop computes exactly MapOperands: the new operands and the grown valmap |
| GeexieVec.RewriteInstrSpec | llvm/lib/Transforms/GeexieVec/GeexieVec.cpp:182-231 | one rewrite step changes only that instruction, never a kind, only adds valmap entries, and gives a rewritten instruction its valmap operands and a 4-wide type unless it is a store |
| GeexieVec.RewriteOperandsSpec | llvm/lib/Transforms/GeexieVec/GeexieVec.cpp:206-231 | rewriting a binary operator, compare, load or store changes only that instruction, keeps its kind and operand count, only adds valmap entries, and gives it its operands' valmap entries |
| GeexieVec.RewriteInstruction | llvm/lib/Transforms/GeexieVec/GeexieVec.cpp:182-231 | the in-place rewrite of one instruction, including the GEP-index loop, matches RewriteInstr |
| GeexieVec.RewriteBodySpec | llvm/lib/Transforms/GeexieVec/GeexieVec.cpp:178-233 | the rewrite keeps every instruction outside the body and every kind; valmap only grows; each rewritten operand is the final valmap entry of the original one |
| GeexieVec.RewriteLoop | llvm/lib/Transforms/GeexieVec/GeexieVec.cpp:178-233 | the nested rewrite loops compute RewriteBody over the loop body |
| GeexieVec.RewriteBlock | llvm/lib/Transforms/GeexieVec/GeexieVec.cpp:180-232 | the instruction loop over one block continues the rewrite: instructions and valmap are those RewriteBody gives for the instructions so far |
| GeexieVec.SetStride | llvm/lib/Transforms/GeexieVec/GeexieVec.cpp:240-245 | the update's operand opposite the induction variable becomes the constant 4 (operand 1 if operand 0 is the induction variable, else operand 0); everything else is kept |
| GeexieVec.TransformSpec | llvm/lib/Transforms/GeexieVec/GeexieVec.cpp:174-246 | vectorising changes only the loop's rewritten instructions and the stride of the update; kinds are kept; rewritten instructions take their valmap operands and vector types; every final valmap entry is the key's vector or the own entry of a loop instruction |
| GeexieVec.ValmapEntriesStep | llvm/lib/Transforms/GeexieVec/GeexieVec.cpp:194-230 | one rewrite step of a loop instruction records only the vector of an operand, a rewritten instruction itself, or the cast of a GEP with a varying index |
| GeexieVec.ValmapEntriesBody | llvm/lib/Transforms/GeexieVec/GeexieVec.cpp:178-233 | over the whole rewrite, every valmap entry keyed by an instruction is its lane vector unless the instruction is a loop instruction with an entry of its own |
| GeexieVec.RewrittenOperands | llvm/lib/Transforms/GeexieVec/GeexieVec.cpp:211-230 | each new operand is the vector of the old one (a splat, the strided induction variable, or null for an argument) or, for a loop instruction with an entry of its own, that instruction or its GEP cast; an instruction operand from outside the loop or without an own entry is always replaced by its lane vector; equal operands get equal replacements everywhere |
| GeexieVec.AcceptedBodyKeepsOwnEntries | llvm/lib/Transforms/GeexieVec/GeexieVec.cpp:175-231 | over an accepted body, an instruction vectorised in place maps to itself in valmap, a varying GEP to its cast, and neither gets an entry before the rewrite reaches it |
| GeexieVec.AcceptedOperandsReused | llvm/lib/Transforms/GeexieVec/GeexieVec.cpp:175-231 | in a vectorised loop, a use of an instruction already vectorised in place reads it directly and a use of a varying GEP reads its vector-pointer cast, never a new splat |
| GeexieVec.BoundIsMultiple | llvm/lib/Transforms/GeexieVec/GeexieVec.cpp:94-129 | for a found compare, the bound is determined and its signed value is divisible by 4 exactly when one operand is the induction variable and the other a constant divisible by 4, operand 0 taking precedence |
| GeexieVec.DecideNeverNoCompare | llvm/lib/Transforms/GeexieVec/GeexieVec.cpp:104-121 | the missing-compare check never fires, because a missing compare already leaves the bound undetermined |
| GeexieVec.DecideVectorizes | llvm/lib/Transforms/GeexieVec/GeexieVec.cpp:104-170 | a loop is vectorised exactly when its update count is 1, its exiting compare tests the induction variable against a constant divisible by 4, and every body instruction passes the scan |
| GeexieVec.DecidePlan | llvm/lib/Transforms/GeexieVec/GeexieVec.cpp:104-111 | the skipped instructions of a vectorised loop are its induction variable, an ICmp, and an update of the induction variable |
| GeexieVec.DecideIllegalAtBodyInstruction | llvm/lib/Transforms/GeexieVec/GeexieVec.cpp:137-170 | a rejected loop is rejected at one of its own instructions |
| GeexieVec.HandleLoopVec | llvm/lib/Transforms/GeexieVec/GeexieVec.cpp:66-249 | returns none() and applies Transform exactly when Decide says Vectorize; otherwise returns all() and leaves the instructions unchanged |
| GeexieVec.HandleLoopPreservesSoundly | llvm/lib/Transforms/GeexieVec/GeexieVec.cpp:108-248 | handleLoopVec reports all() only when it left the IR unchanged, and none() exactly when it vectorised |
| GeexieVec.InnermostWithIVMembers | llvm/lib/Transforms/GeexieVec/GeexieVec.cpp:251-261 | a loop is collected from a tree exactly when it lies in the tree, is innermost, and has a canonical induction variable |
| GeexieVec.InnermostForestMembers | llvm/lib/Transforms/GeexieVec/GeexieVec.cpp:269-272 | the work set holds exactly the innermost loops with a canonical induction variable from the whole loop forest |
| GeexieVec.CollectedHaveIV | llvm/lib/Transforms/GeexieVec/GeexieVec.cpp:251-261 | every collected loop has a canonical induction variable, as handleLoopVec needs |
| GeexieVec.CollectIntermostLoops | llvm/lib/Transforms/GeexieVec/GeexieVec.cpp:251-261 | appends to the work list exactly the loops InnermostWithIV collects from the tree |
| GeexieVec.KeepCollectableConcat | llvm/lib/Transforms/GeexieVec/GeexieVec.cpp:251-261 | keeping the collectable loops of two lists placed one after the other keeps those of each list, in order |
| GeexieVec.InnermostWithIVOrder | llvm/lib/Transforms/GeexieVec/GeexieVec.cpp:251-261 | the loops collected from a tree are the tree's depth-first pre-order listing filtered to innermost loops with a canonical induction variable |
| GeexieVec.InnermostForestOrder | llvm/lib/Transforms/GeexieVec/GeexieVec.cpp:269-272 | the work set is the whole forest's depth-first pre-order listing filtered to innermost loops with a canonical induction variable |
| GeexieVec.DrainPreservesSoundly | llvm/lib/Transforms/GeexieVec/GeexieVec.cpp:276-281 | draining the work set reports all() only if nothing was reported changed before and the instructions are unchanged |
| GeexieVec.DrainNothingToVectorize | llvm/lib/Transforms/GeexieVec/GeexieVec.cpp:276-281 | a work set in which no loop can be vectorised leaves the result and the instructions as they were |
| GeexieVec.DrainFirstVectorized | llvm/lib/Transforms/GeexieVec/GeexieVec.cpp:276-279 | the last collected loop is handled first; if it is vectorised, the pass reports none() |
| GeexieVec.Run | llvm/lib/Transforms/GeexieVec/GeexieVec.cpp:266-282 | collects the work set from every top-level loop, pops it last-in-first-out, and intersects the results, as Drain specifies |
| GeexieVec.RunPreservesSoundly | llvm/lib/Transforms/GeexieVec/GeexieVec.cpp:266-282 | the pass returns all() only when it changed nothing, and changes nothing when no collected loop can be vectorised |

## Left out

- The GPU pass declarations in `mlir/include/mlir/Dialect/GPU/Passes.h` are not part of this model. They are pass constructors, target-machine creation and ISA serialisation through foreign code, with no logic visible in the header.
- `GeexieAS.cpp`, `GeexieSR.cpp` and `GeexiePhi.cpp` are not part of this model. They are thin wrappers over LLVM's `replaceAllUsesWith`, `eraseFromParent` and `hasConstantValue`, plus floating-point constant tests.
- The `populate*` pattern builders, `CombiningKindAttr` and `getTransferMinorIdentityMap` in `VectorOps.h` are only declared there. Their bodies are elsewhere. The default options argument of `populateVectorContractLoweringPatterns` is covered by the record's constructor.
- All `errs()` output is left out: it is diagnostic I/O. This includes the loop name, the instructions printed during the scan, and the reason for each early return. `GeexieVec.Decision` names those reasons instead.
- Analysis-manager plumbing is left out: `AnalysisKey`, caching and `getResult`. Each pass receives the function and its loop forest directly. `STATISTIC` registration is left out too; the counters are plain fields of `CountPass.Statistics`.
- The `removedInstrs` erase loop is left out. The list is never filled, so the loop never runs.
- GeexieVec.VectorizeValue: LLVM type and constant construction is abstract.
  - `VectorType::get`, `ConstantDataVector`, `IRBuilder` and `mutateType` are not modelled as such.
  - The zero vector the lanes are inserted into is always built from integer zeros, whatever the instruction's type. The type does not matter because every lane is overwritten.
  - A result type is recorded as `VecTy(elem, 4)`.
- GeexieVec.VectorizeValue: two type failures of the code are not modelled, and the model returns a well-formed vector for both.
  - An instruction operand that is neither integer nor floating point, such as a pointer defined outside the loop and used by a load or store the scan accepts, reaches `ConstantFP::get` with a non-floating-point type (GeexieVec.cpp:33-37). LLVM aborts there.
  - The stride vector is always built from `uint64_t`, so it is `<4 x i64>` (GeexieVec.cpp:48-55). For an induction variable narrower than 64 bits, `CreateAdd` mixes `<4 x iN>` with `<4 x i64>`. LLVM's assertion fails there, or the IR is ill-typed. The model still gives lane i the value iv+i.
- GeexieVec.HasVectorizableLoopBound: `IntConst` is unbounded. `getSExtValue()` (GeexieVec.cpp:127) asserts on a ConstantInt wider than 64 bits, but the model tests such a bound like any other.
- GeexieVec.ExitingConditional: an empty exiting block gives no compare. The source would read the terminator of an empty block, which well-formed IR never has.
- GeexieVec.HandleLoopVec: the `insertelement`, `add` and `bitcast` instructions the builder creates are not added to the blocks. They appear only as the abstract values `Vector` and `VecPtr`. The builder places them next to an operand's definition or next to the GEP, so the rewrite loop of the loop being vectorised never visits them as rewritable instructions. This model therefore does not check insertion positions or dominance. There is one case it does not capture: an operand defined directly in another innermost loop (IR not in LCSSA form). The `insertelement` chain for it is placed in that loop's block (GeexieVec.cpp:39). When that loop is handled later, its own scan meets those instructions and may reject it, while the model may accept it.
- The canonical induction variable is not constrained. `Loop.indVar` may name any instruction. LLVM's `getCanonicalInductionVariable` (GeexieVec.cpp:70, 253) returns only a header PHI with two incoming values, 0 and `add iv, 1`. Its definition is not part of this model. The lemmas cover this larger domain, so they stay true for real IR. On real IR some outcomes never happen:
  - GeexieLoopAnalysis reports only -1 or 1.
  - A collected loop never stops with `NoIVUpdate`.
  - The `setOperand(0, …)` branch of the stride update (GeexieVec.cpp:244) is dead.
  - The three-edge PHI of `LoopAnalysis.DuplicateEdgesCountTwice` is never canonical.
- GeexieVec.HandleLoopVec requires a canonical induction variable. The source dereferences it unconditionally, and `collectIntermostLoops` only collects loops that have one (`GeexieVec.CollectedHaveIV`).
- GeexieVec.VectorizeOperands builds the new operand list and writes the instruction once. The source calls `setOperand` once per operand. No other code observes the half-rewritten instruction, so the end state is the same.
- GeexieVec.RewriteBodySpec, GeexieVec.TransformSpec, GeexieVec.RewrittenOperands and GeexieVec.AcceptedOperandsReused state the operand correspondence only for a loop body that lists no instruction twice. LLVM guarantees this for real IR.
- Reads of an operand an instruction does not have return the null value rather than being excluded by a precondition. Well-formed IR never makes such a read.
- FunctionAnalysis.Run and CountPass.Statistics.Run count with unbounded integers. `int64_t` and the 64-bit statistic counters cannot overflow for any function that fits in memory.
- An argument or global used by a vectorised instruction has no vector form: `vectorizeValue` returns null and the operand becomes null, exactly as the code does (`GeexieVec.RewrittenOperands`). The model keeps this behaviour and does not correct it.
