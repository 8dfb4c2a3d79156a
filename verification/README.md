# pyaot: what the middle of the compiler guarantees

pyaot compiles Python ahead of time. Between the front end and machine code sits MIR, a small control-flow graph of
mutable locals, each declared with a machine representation. This project models the analyses and rewrites that run over
MIR, the two ends that feed it (name capture, dispatcher planning, keyword binding), and the parts of code generation that
carry their own algorithms (tagged integers, floor division, parallel compilation, the traceback table), and proves that
each does what the rest of the system relies on. `dafny verify dfyconfig.toml` checks everything.

## The main results

**No run reads a collected object** (`GcSafety.NoReadOfDropped`). `roots_needed` decides by liveness which locals get a
slot in the frame's root array, and generated code mirrors every definition of such a local into its slot. The machine in
`GcSafety.dfy` runs a whole program: a call stack, a heap, runtime calls that may call compiled functions back, a
collector that may drop any objects the root arrays do not reach, at any point inside an allocating runtime call or between
a raise and its handler, and exceptions that leave a block from the middle of it and unwind through frames and runtime
calls. In every state of every
run of a verified program whose boxed constants are covered (finding 1), whatever the next instruction or terminator reads
is still in the heap. The invariant behind it is that a slot always equals its local, and that everything live is alive.
Where the machine may collect is not taken from the allocation table on trust: the table is exact for what the
evaluator's instructions call and make (`AllocationTable.CollectsExactly`).

**Root selection is exact** (`Liveness.RootsNeeded`). The worklist ends with precisely the locals that some control-flow
path, handler edges included, reads before writing; so does the worklist on word-level bit sets
(`BitLiveness.SolveOnBits`), step for step. The one-counter epoch scan then marks precisely the locals that an allocating
instruction uses or that are live across one. No slot is missing, and none is there for another reason. The tables it
reads are the evaluator's own behaviour: operands are exactly the locals an instruction can depend on
(`ReadTable.OperandsAreRead`), and successors exactly the blocks it can be left for (`EffectTables.SuccessorsAreTaken`).

**Both passes preserve meaning** (`DceMeaning.DcePreservesMeaning`, `ConstFoldMeaning.FoldPreservesMeaning`,
`Passes.PipelineIsSound`). `Semantics.dfy` evaluates whole programs, calls between functions included, over an arbitrary
world and an arbitrary runtime library. A function of the rewritten program ends as the original does on every input: same
value, same final world (so the same trace of effects), same raise, same trap, and with the same fuel, because neither pass
changes block ids. Folding needs a verified program whose folded branches keep their truth (finding 2). Cleaning needs that
what reachable raw integer arithmetic writes is needed, a condition on the input alone (`DceMeaning.DcePreservesInput`);
without it, the ends can differ only on runs that execute a removed operation and overflow there
(`DceMeaning.DiffersOnlyOnOverflow`, `Passes.OptimizedIsSound`, finding 3). `Passes.PipelineIsSound` puts both passes where
the pipeline runs them, twice, between passes taken at their word. Both passes keep the program verified, cleaning never
adds a root, and folding is idempotent.

**Verified code keeps its representations** (`TypeSafety.MachineReturnsTyped`): every write of a verified function leaves a
word of the local's declared representation, heap shape and closure signature included, also when a block is left midway
by an exception. Shape guards are assumed to guard, and a run counts as long as its unchecked narrowings meet the shapes
they were promised; bridges inside a container family and literals need no such help. Nor does a verified run ever take
a register for something it does not hold: what a word of the wrong class reads as is a free parameter of the machine,
and no verified run depends on it (`Strictness.RunsAreStrict`), so everything stored, tested or handed to the runtime is
of the class its receiver expects.

**Capture analysis is lexical resolution, read off the syntax** (`Scopes.CelledIsCaptured`, `Occurrence.FactsDescribe`).
A name lives in a cell of a scope exactly when a use in some scope strictly inside it resolves to that scope by nearest
binding, `nonlocal` skipping a scope and `global` stopping the search; the owner of every `nonlocal` write knows it is
written from elsewhere. Every field the walker returns for a def, lambda or generator expression is characterised by which
constructs occur in which nested scope, without regard to the order of the walk. Occurrence in turn is recursion over
the syntax (`Positions.PlacesAreOccurrences`), no name written is lost or made up (`NameConservation.NamesAreConserved`),
and free names come in the order they are first met (`EvaluationOrder.FreeInOrder`).

**Dispatchers select what each class resolves to** (`Dispatch.Planner.Plan`, `DispatcherBody.EmitPlanned`): for every
planned member and every class that can be behind the reference, the emitted chain of tests gives that class's own
resolution; exactly the members that need a dispatcher get one; new function numbers are dense and fresh. What a class
resolves to is told from its member lists alone (`DispatchMeaning.ResolveIsEntry`, `DispatchMeaning.PlanAnswers`): a
property write, for one, reaches setters only.

**The other cores**: the parallel compile gives the serial result under every interleaving, in exactly `3n + threads`
steps; every code address resolves, through the traceback blob, to the frames of the one function that holds it;
branchless floor division is floor division; fixnum tagging is reversible exactly on the 61-bit range; keyword binding
succeeds exactly when a binding exists and the binding is unique; grouped zero padding is minimal and keeps the number;
the bit sets are sets.

## How the model is laid out

| file | models |
|---|---|
| `Mir.dfy`, `Verify.dfy` | the instruction subset with its effect tables, and the verifier's typing rules |
| `Liveness.dfy` | liveness specified by paths, the worklist and the rooting pass |
| `Bits.dfy`, `BitLiveness.dfy` | word-level bit sets; the worklist as it runs on them |
| `GcSafety.dfy` | the stack machine with its collector, the safety invariant, what an out-of-range constant breaks |
| `Semantics.dfy`, `TypeSafety.dfy` | the evaluator and its promises; verified code keeps representations |
| `EffectTables.dfy`, `ReadTable.dfy`, `AllocationTable.dfy` | the def, use, effect, successor and allocation tables against what the evaluator does |
| `Strictness.dfy` | what the verifier accepts reads every register as what it holds, and what it accepts at all |
| `Analysis.dfy`, `Dce.dfy`, `DceMeaning.dfy` | read counts, reachability, the sweep, its simulation |
| `ConstFold.dfy`, `ConstFoldMeaning.dfy`, `FoldTable.dfy` | the lattice scan, its simulation, and that it folds all it is for |
| `Passes.dfy` | what the passes keep, and the two passes in a row |
| `BitOps.dfy`, `Tagging.dfy` | bitwise operators on words and integers, tagged words, floor arithmetic |
| `Syntax.dfy`, `Scopes.dfy` | what runs in which scope, in order; scope trees and resolution |
| `Occurrence.dfy`, `FreeVars.dfy` | a scope's facts as occurrence in the syntax; the walk that collects them |
| `Positions.dfy`, `NameConservation.dfy`, `EvaluationOrder.dfy` | where names stand, that none is lost, and their order, by recursion over the syntax alone |
| `Hoisting.dfy` | where a walrus in a generator expression binds |
| `Dispatch.dfy`, `DispatcherBody.dfy` | planning, and the chain of class tests a dispatcher consists of |
| `DispatchMeaning.dfy` | planning told from the member tables alone |
| `ParallelCompile.dfy` | the shared work queue |
| `TracebackTable.dfy`, `TracebackSearch.dfy` | the table's writer and the runtime's reader; the search by address |
| `KeywordMatch.dfy`, `Grouping.dfy` | keyword-to-slot matching; digit grouping and padding |

Code that works by updating variables is imperative here too: the worklist, the epoch scan, the sweep, the lattice, the
walker, the planner, the writers and readers are methods, and the objects with fields are classes, each proved against a
function or predicate that the lemmas are about.

## Where the code falls short of its promise

These are results. In each case the model follows the code, one lemma exhibits a failing input, and the theorems name the
condition under which the promise is kept.

1. **Out-of-range integer constants collect without being counted.** The allocation table calls every integer constant
   non-allocating (`crates/mir/src/lib.rs:488`), but code generation boxes one that is no fixnum through the runtime
   (`crates/codegen-cranelift/src/lib.rs:2818-2832`). `GcLimits.BoxedConstLosesObject` is a seven-state run of a verified
   function that then reads a dropped string. Safety is proved for programs in which no local that is live across such a
   constant holds objects without having a slot (`GcSafety.BoxesAreCovered`). The condition is needed as well: at a
   constant that exposes a local, if nothing else refers to the local's object, three steps of the machine lose the object
   and leave the local live (`GcLimits.ExposedIsLost`). Constants in the fixnum range, which the front end arranges by
   turning larger literals into heap literals, always meet it (`GcSafety.ImmediatesAreCovered`), and both passes keep them.
2. **Branches on byte constants are decided before masking.** Folding decides a branch on the constant as written
   (`crates/optimizer/src/constfold.rs:61`), the register holds its low byte (`crates/codegen-cranelift/src/lib.rs:1293`).
   Leaving the block goes the same way as before exactly when a branch with a recorded constant has equal arms or a
   constant that is zero or has a nonzero low byte (`ConstFoldMeaning.LeaveIsExact`); `UnmaskedTestTakesWrongArm` shows 256
   taking the wrong arm.
3. **Raw integer arithmetic is removable but can raise.** The effect table treats it as pure
   (`crates/mir/src/lib.rs:619`), generated code has a cold overflow edge (`crates/codegen-cranelift/src/lib.rs:3202`).
   `Passes.OverflowIsLost` removes an addition that raises. Meaning is preserved outright when no reachable block holds such
   an operation the sweep may remove; before cleaning, it is enough that each writes a local that terminators or
   instructions with effects read, directly or through others (`DceMeaning.KeepsFallible`). Otherwise the ends differ only
   on runs in which a removed one overflows. Collector safety holds with the cold edge as well.
4. **`sharedWrites` holds descendants' declarations only.** The field's comment also includes the scope's own
   (`crates/frontend-python/src/freevars.rs:40-44`); `child` and `finish` do not (lines 77-120). `def f(): nonlocal x` has
   `x` promised and missing (`Occurrence.OwnNonlocalIsNotShared`); field and comment agree exactly when every name the scope
   declares nonlocal is declared so further in as well (`Occurrence.SharedIsPromised`).
5. **A walrus inside a generator expression binds in the generator's own scope**
   (`crates/frontend-python/src/freevars.rs:446-449`), where PEP 572 binds it in the enclosing one. After
   `(x := 0 for i in y)` the generator owns `x` and the function around it does not (`Hoisting.WalrusBindsInside`,
   `Hoisting.WalrusLeavesOuterUnbound`). The tree the walk builds is the tree PEP 572 asks for exactly when no generator
   expression has a walrus at its own level (`Hoisting.WalkedAsHoisted`).

## Assumptions

- The runtime library is a parameter of the evaluator: any functions of the types in `Semantics.Runtime`, which say which
  calls may raise and which see the world. Tagged `+ - *`, `& | ^`, comparisons and truth on integers are fixed to
  unbounded arithmetic, normalised to a fixnum exactly when it fits.
- A function of the runtime library is a function of its arguments and the world. In the evaluator it does not call
  compiled code back; the machine with the collector lets it.
- Shape guards let only words of their shape through (`TypeSafety.Guards`). An unchecked narrowing is taken on trust by the
  code; `TypeSafety.BlindCastMistypes` shows what a broken one does, and the typing results hold on runs that break none.
- Raw floor division and modulus trap where the machine does, on a zero divisor and on the least integer by -1; typing
  proves their divisor positive, as the code says. `FloorArith` covers negative divisors as well.
- IEEE arithmetic is abstract; folding and execution share it.
- The collector may drop any set that nothing kept refers to. `GcLimits.SweepIsDroppable` ties this to marking: sweeping
  everything unmarked is allowed, and nothing marked can ever be dropped.
- A function's line ranges come sorted by start, as they are harvested, and every flagged one names one of its chains.
- Compiling a function depends on its context alone, since each gets a fresh control plane.
- C3 linearization is not recomputed; dispatcher planning takes the linearizations as given.

## Model

| member | source | states |
|---|---|---|
| Verify.VerifiedInRange | crates/mir/src/verify.rs:408-478 | a verified function never sends a pass outside its local, block or function tables |
| EffectTables.ComputeWrites | crates/mir/src/lib.rs:768-815 | the destination in the table is the local the evaluator writes |
| EffectTables.OperandsSuffice | crates/mir/src/lib.rs:959-1044 | wherever the operands listed hold the same words, the instruction does the same |
| EffectTables.TermOperandsSuffice | crates/mir/src/liveness.rs:231-246 | which way a terminator goes, or what it returns, depends on its operands alone |
| EffectTables.SuccessorsAreTaken | crates/mir/src/liveness.rs:212-229 | the successors listed are exactly the blocks control can leave for, by falling through or by raising |
| ReadTable.OperandsAreRead | crates/mir/src/lib.rs:959-1044 | in verified code a local is a listed operand iff two well-typed states that differ there alone can be told apart, a local that only holds null and a machine integer against itself excepted |
| ReadTable.TermOperandsAreRead | crates/mir/src/liveness.rs:231-246 | the same for terminators, a branch with equal arms excepted |
| ReadTable.SideEffectsAreNoticed | crates/mir/src/lib.rs:619-757 | what the table calls effectful shows, and what it calls pure does not |
| LivenessSpec.LiveThroughMeaning | crates/mir/src/liveness.rs:89-101 | the backward use/def scan of a block computes "read before written, or live out and never written" |
| LivenessSpec.PathLiveIsSolution | crates/mir/src/liveness.rs:117-139 | path liveness satisfies in = use + (out - def) at every block |
| LivenessSpec.PathLiveIsLeast | crates/mir/src/liveness.rs:117-139 | every solution of the equations contains it |
| Liveness.BlockSummary | crates/mir/src/liveness.rs:86-101 | one block's read-before-write and written sets |
| Liveness.Predecessors | crates/mir/src/liveness.rs:106-112 | the predecessor lists are exactly the reversed edges, handler edges included |
| Liveness.Requeue | crates/mir/src/liveness.rs:132-137 | every unqueued predecessor is queued, no block twice |
| Liveness.Visit | crates/mir/src/liveness.rs:117-139 | one worklist step keeps every dequeued block solved and shrinks the slack or the queue |
| Liveness.SolveLiveness | crates/mir/src/liveness.rs:103-139 | the worklist terminates with exactly path liveness in and out of every block |
| Liveness.ReadOperands | crates/mir/src/liveness.rs:176-186 | operands of an allocating instruction are marked; fresh live ranges start at the current epoch |
| Liveness.RootInst | crates/mir/src/liveness.rs:158-187 | one cursor step marks exactly what its instruction makes cross an allocation |
| Liveness.RootBlock | crates/mir/src/liveness.rs:149-194 | one block's scan marks exactly the locals crossing one of its allocations |
| Liveness.RootCrossings | crates/mir/src/liveness.rs:146-194 | the one-counter pass over all blocks equals the quadratic definition |
| Liveness.RootHandlers | crates/mir/src/liveness.rs:196-203 | every local live into a handler is added, and nothing else |
| Liveness.RootsNeeded | crates/mir/src/liveness.rs:80-210 | a local gets a slot iff its representation can hold a collected object and it is used by, live across, or live into a handler of, something that may collect or raise; what may collect is settled by `AllocationTable.CollectsExactly` |
| AllocationTable.RootsHoldObjects | crates/types/src/repr.rs:158-160 | a representation is a root representation iff a word of it can point into the heap |
| AllocationTable.QuietAllocatesNothing | crates/mir/src/lib.rs:488-604 | an instruction outside the table does the same under any two runtimes that agree on the plain entries and on overflow, and any object it yields was loaded or is its operand |
| AllocationTable.OnlyColdEdgesOverflow | crates/codegen-cranelift/src/lib.rs:3198-3236 | outside the table only raw arithmetic, with its cold edge, depends on the overflow entry |
| AllocationTable.CollectsExactly | crates/mir/src/lib.rs:488-604 | an instruction other than a call is in the table, boxed constants included, iff in some well-typed state it calls an entry that may allocate or makes an object itself |
| BitSets.WordOpBit | crates/mir/src/liveness.rs:43-56 | a word operator acts on each bit independently |
| BitSets.Bits.constructor | crates/mir/src/liveness.rs:40-42 | a new set has room for its members and holds none |
| BitSets.Bits.Get | crates/mir/src/liveness.rs:43-45 | the bit read is membership |
| BitSets.Bits.Set | crates/mir/src/liveness.rs:46-48 | exactly one member is added |
| BitSets.Bits.Clear | crates/mir/src/liveness.rs:49-51 | exactly one member is removed |
| BitSets.Bits.UnionWith | crates/mir/src/liveness.rs:52-56 | word-wise or is union |
| BitSets.Bits.AddUnwritten | crates/mir/src/liveness.rs:124-128 | the fused word step adds what is live after and not written |
| BitSets.DropLowest | crates/mir/src/liveness.rs:57-69 | `n & (n - 1)` clears exactly the lowest set bit |
| BitSets.Bits.Members | crates/mir/src/liveness.rs:57-69 | iteration yields every member once, in ascending order |
| BitSets.Bits.Same | crates/mir/src/liveness.rs:36-37 | comparing words compares members |
| BitLiveness.BlockBits | crates/mir/src/liveness.rs:89-101 | the backward scan with set and clear leaves the block's read-before-write and written sets |
| BitLiveness.TransferBits | crates/mir/src/liveness.rs:119-128 | the unions and the fused word step give the two sides of the block's liveness equations |
| BitLiveness.VisitBits | crates/mir/src/liveness.rs:117-139 | one worklist step on bit sets is one step on the sets they stand for |
| BitLiveness.SolveOnBits | crates/mir/src/liveness.rs:103-139 | the worklist on bit sets terminates with exactly path liveness in and out of every block |
| GcSafety.ImmediatesAreCovered | crates/codegen-cranelift/src/lib.rs:2818-2832 | with every integer constant a fixnum, no constant exposes a live object to the collector |
| GcSafety.DefineKeepsMirror | crates/codegen-cranelift/src/lib.rs:2129-2140 | store-on-def keeps every slot equal to its local |
| GcSafety.SurvivorsAlive | crates/mir/src/liveness.rs:158-187 | everything live after an allocating instruction, its result aside, was rooted across it |
| GcSafety.CollectKeepsInv | crates/codegen-cranelift/src/lib.rs:1669-1676 | a collection keeps everything live alive |
| GcSafety.UnwindKeepsInv | crates/mir/src/liveness.rs:196-203 | a raise from mid-block finds all the handler reads alive |
| GcSafety.CallKeepsInv | crates/codegen-cranelift/src/lib.rs:1728-1736 | a callee's frame starts with zeroed or mirrored slots and live arguments |
| GcSafety.ReturnKeepsInv | crates/codegen-cranelift/src/lib.rs:2166-2172 | the caller's live locals outlived the callee, and its result is alive |
| GcSafety.ReenterKeepsInv | crates/mir/src/lib.rs:530-540 | compiled code called back from inside a runtime call starts on live arguments and leaves the waiting frame sound |
| GcSafety.CatchKeepsInv | crates/mir/src/liveness.rs:196-203 | an exception caught by the runtime call that entered the frame leaves the waiting frame sound |
| GcSafety.StepKeepsInv | crates/mir/src/liveness.rs:80-210 | every kind of step keeps the whole invariant |
| GcSafety.NoReadOfDropped | crates/mir/src/liveness.rs:80-210 | with boxed constants covered, no state of any run reads a dropped object next; the machine collects inside every instruction of the table, which `AllocationTable.CollectsExactly` ties to what instructions call |
| GcLimits.SweepIsDroppable | crates/mir/src/liveness.rs:1-27 | dropping everything unmarked is allowed, and no droppable set contains anything marked |
| GcLimits.ExposedIsLost | crates/codegen-cranelift/src/lib.rs:2818-2832 | coverage is needed: at a constant that exposes a local, an object only that local refers to can be collected while the local stays live |
| GcLimits.BoxedConstLosesObject | crates/codegen-cranelift/src/lib.rs:2818-2832 | a run of a verified function that boxes a constant and then reads a dropped object |
| Analysis.ReadCounts | crates/optimizer/src/analysis.rs:12-29 | each counter equals the number of reads of its local, terminators included |
| Analysis.ReachableBlocks | crates/optimizer/src/analysis.rs:34-57 | a block is marked iff a path of terminator and handler edges leads to it from the entry |
| Analysis.ConstLattice.Set | crates/optimizer/src/analysis.rs:85-87 | recording a constant changes that local's entry only |
| Analysis.ConstLattice.Kill | crates/optimizer/src/analysis.rs:90-92 | forgetting a local changes that local's entry only |
| Dce.DropReads | crates/optimizer/src/dce.rs:50-56 | the counts after a removal are exact again; no decrement underflows |
| Dce.SweepBlock | crates/optimizer/src/dce.rs:44-58 | only pure unread instructions go, counts stay exact, and "unchanged" means nothing was removable |
| Dce.Sweep | crates/optimizer/src/dce.rs:41-63 | one sweep over all blocks keeps the counts exact and removes something or finds nothing dead |
| Dce.BlankUnreachable | crates/optimizer/src/dce.rs:67-80 | exactly the unreachable blocks are blanked, ids stay put |
| Dce.RunFunc | crates/optimizer/src/dce.rs:34-80 | the loop ends; the result is the original less removable instructions, and nothing dead is left; what counts as a read is settled by `ReadTable.OperandsAreRead` |
| Dce.Run | crates/optimizer/src/dce.rs:27-31 | the same for every function of the program |
| Dce.DropsShrinks | crates/optimizer/src/dce.rs:41-63 | dropping never adds a read, and drops nothing only if the list is unchanged |
| Dce.DropsTransitive | crates/optimizer/src/dce.rs:41-63 | sweeps compose: what two sweeps drop one could have |
| DceMeaning.PureEffect | crates/mir/src/lib.rs:619-757 | an instruction the table calls effect-free, raw sums, differences and products aside, yields a word and leaves the world alone |
| DceMeaning.SameBlock | crates/optimizer/src/dce.rs:34-80 | from states that agree on everything still read, a reachable block ends alike in both functions |
| DceMeaning.NeverEntersBlanked | crates/optimizer/src/dce.rs:67-80 | over a whole activation, a cleaned function enters only blocks that were reachable, so never a blanked one |
| DceMeaning.DiffersOnlyOnOverflow | crates/optimizer/src/dce.rs:34-80 | every function of a cleaned program ends as before unless the run executes a removed raw operation and overflows there |
| DceMeaning.DcePreservesMeaning | crates/optimizer/src/dce.rs:34-80 | with no raw integer arithmetic to remove from reachable blocks, every function of a cleaned program ends exactly as before on every input, world and fuel, whatever the outcome |
| DceMeaning.NeededIsRead | crates/optimizer/src/dce.rs:41-63 | what terminators and instructions with effects read, directly or through others, is still read however much is swept |
| DceMeaning.DcePreservesInput | crates/optimizer/src/dce.rs:34-80 | the same preservation when, in the program before cleaning, reachable raw arithmetic writes only such locals |
| ConstFold.FoldOneBlock | crates/optimizer/src/constfold.rs:42-68 | the in-place scan computes the block's fold |
| ConstFold.RunFunc | crates/optimizer/src/constfold.rs:42-68 | the pass computes the function's fold |
| ConstFold.FoldIdempotent | crates/optimizer/src/constfold.rs:42-215 | folding twice is folding once |
| ConstFoldMeaning.FoldIntsIsIntOp | crates/optimizer/src/constfold.rs:81-121 | a folded machine operation is the unbounded one, and its result is a fixnum |
| ConstFoldMeaning.FoldsRight | crates/optimizer/src/constfold.rs:71-178 | a folded instruction is a verified constant with the original's destination and effect |
| FoldTable.RecordsLastLoads | crates/optimizer/src/constfold.rs:45-58 | a constant is on record for a local iff loading it was the last write of that local |
| FoldTable.OnlyEligibleFolds | crates/optimizer/src/constfold.rs:71-178 | nothing folds but tagged operators, float ones other than division, comparisons and truth tests on recorded constants |
| FoldTable.FoldsWhatIsDecided | crates/optimizer/src/constfold.rs:71-178 | of these, an instruction folds iff its constants decide it: it yields one unboxed word under every runtime with the same floating point |
| ConstFoldMeaning.LeaveIsExact | crates/optimizer/src/constfold.rs:60-66 | leaving a block with its rewritten terminator goes where the original went iff the decided branch keeps its truth or has equal arms |
| ConstFoldMeaning.FoldPreservesMeaning | crates/optimizer/src/constfold.rs:42-215 | when the decided branches keep their truth, every function of a folded program ends exactly as before, branch-to-jump rewriting included |
| ConstFoldMeaning.UnmaskedTestTakesWrongArm | crates/optimizer/src/constfold.rs:60-66 | a verified function whose fold jumps the other way |
| Passes.DceKeepsVerified | crates/mir/src/verify.rs:408-478 | a verified program is verified after cleaning |
| Passes.FoldKeepsVerified | crates/mir/src/verify.rs:408-478 | a verified program is verified after folding |
| Passes.FoldKeepsImmediates | crates/optimizer/src/constfold.rs:81-121 | folding emits integers only in the fixnum range, so it introduces no boxed constant |
| Passes.FoldedBranchesKeepTruth | crates/optimizer/src/constfold.rs:60-66 | a folded function decides no further branch, so folding it again needs no condition |
| Passes.DceKeepsImmediates | crates/optimizer/src/dce.rs:34-80 | cleaning introduces no boxed constant |
| Passes.DceNeverAddsRoots | crates/mir/src/liveness.rs:80-210 | every root of the cleaned function was one before |
| Passes.FailsOnlyByOverflow | crates/mir/src/lib.rs:619-757 | in verified code the only removable instruction that can fail is a raw sum, difference or product, exactly when it overflows |
| Passes.OptimizedIsSound | crates/optimizer/src/lib.rs:93-100 | folding directly followed by cleaning: verified, and the same ends unless a removed raw operation overflows in the run |
| Passes.OptimizedIsExact | crates/optimizer/src/lib.rs:93-100 | folding directly followed by cleaning, with nothing fallible to remove: the same ends on every input, world and fuel |
| Passes.PipelineIsSound | crates/optimizer/src/lib.rs:63-85 | the eight passes in their order: if peephole, inline and devirt keep verification and meaning, the result is verified and ends as the input does |
| Passes.OptimizedIsCollectable | crates/optimizer/src/lib.rs:93-100 | no run of a folded and cleaned program reads a dropped object if its boxed constants are covered or the original had none |
| Passes.OverflowIsLost | crates/codegen-cranelift/src/lib.rs:3198-3236 | an addition that raises through its cold edge, and the cleaned function, which returns |
| TypeSafety.CheckedTyped | crates/mir/src/coerce.rs:47-54 | whatever passes a legal checked coercion has the target representation, and none is refused by code generation |
| TypeSafety.FamilyKeepsShape | crates/mir/src/lib.rs:1319-1340 | an object of a shape is one of every shape of its container family |
| TypeSafety.ComputeTyped | crates/mir/src/verify.rs:480-983 | a verified instruction writes a word of its destination's representation, or is an unchecked narrowing; what it takes is `Strictness.ComputeIsStrict` |
| TypeSafety.InstsKeepTypes | crates/mir/src/verify.rs:480-983 | every prefix of a verified block keeps every local in its representation, also when it raises midway, as long as narrowings keep their promises |
| TypeSafety.FuncReturnsTyped | crates/mir/src/verify.rs:408-478 | a watched run of a verified function on arguments of its parameter representations returns a word of its return representation or stops at a broken narrowing |
| TypeSafety.MachineReturnsTyped | crates/mir/src/verify.rs:408-478 | the machine itself, on every run whose narrowings keep their promises, returns a word of the return representation |
| Strictness.ComputeIsStrict | crates/mir/src/verify.rs:480-983 | on well-typed locals a verified instruction reads every register as what it holds: what a word of the wrong class would read as never matters, for what it stores, tests, or hands to the runtime |
| Strictness.LeaveIsStrict | crates/mir/src/verify.rs:408-478 | a verified branch tests a byte register |
| Strictness.RunsAreStrict | crates/mir/src/verify.rs:408-478 | the same for whole runs of a verified program, calls included, whose narrowings keep their promises |
| Strictness.RuntimeTakesTagged | crates/mir/src/verify.rs:480-983 | outside operators, bridges, calls, prints and instance bases, everything handed to the runtime is declared tagged |
| Strictness.TaggedFormsAccepted | crates/mir/src/verify.rs:480-983 | on tagged registers every other form is accepted iff its destination takes what it yields |
| Strictness.PrintsAccepted | crates/mir/src/verify.rs:938-983 | a print is accepted iff its register is what the function it calls takes |
| Strictness.ConstantsAccepted | crates/mir/src/verify.rs:480-530 | a constant is accepted where its word belongs, with three exceptions that are named |
| Strictness.RawOperatorsAccepted | crates/mir/src/verify.rs:480-983 | an operator is accepted on raw registers iff the machine has it |
| Strictness.FamilyIsPhysical | crates/mir/src/lib.rs:1319-1340 | containers are of one family iff whatever is one is the other, fixed tuples of different length aside |
| Strictness.BridgesMeetAtTagged | crates/mir/src/lib.rs:1279-1311 | every other bridge has the tagged representation at one end and a shape, closure, double, integer or truth value at the other |
| Strictness.BridgeRoundTrip | crates/mir/src/lib.rs:1279-1311 | over a bridge and back is the same word, an integer as long as it fits the tag |
| Strictness.VerifiedControl | crates/mir/src/verify.rs:408-478 | verified code leaves a block only for a block that exists, is never caught by the raising block or the entry, and never falls through after a diverging instruction |
| TypeSafety.BlindCastMistypes | crates/mir/src/coerce.rs:41-45 | a verified function that hands an integer out as a string through a broken narrowing |
| BitOps.I64OpIsBitwise | crates/optimizer/src/constfold.rs:81-121 | the 64-bit and, or and xor are the operators on unbounded integers |
| BitOps.XorSign | crates/codegen-cranelift/src/lib.rs:3257-3283 | an exclusive or is negative exactly when the signs differ |
| Tagging.FitsCheckIsIntFits | crates/codegen-cranelift/src/lib.rs:2956-2973 | the shift-and-compare check accepts exactly the 61-bit range |
| Tagging.TagRoundTrip | crates/core-defs/src/value.rs:67-127 | tag then untag is the identity iff the integer is a fixnum |
| Tagging.FromIntIsTagInt | crates/core-defs/src/value.rs:67-70 | the runtime's constructor and the inline path build the same word |
| Tagging.ImmediateRoundTrip | crates/codegen-cranelift/src/lib.rs:1263-1276 | every immediate decodes to its constant, so no two constants share a word |
| Tagging.ImmediateIsFromInt | crates/codegen-cranelift/src/lib.rs:1263-1276 | an integer has an immediate iff it is a fixnum, with the runtime constructor's bits |
| FloorArith.RawFloorIsFloor | crates/codegen-cranelift/src/lib.rs:3257-3283 | the corrected truncating pair is the floor quotient and modulus, and the correction wraps nothing |
| FloorArith.FloorDivModUnique | crates/codegen-cranelift/src/lib.rs:3257-3283 | the floor pair is the only one with a = b*q + r, r of b's sign and smaller than b |
| FloorArith.OnlyMinByMinusOneOverflows | crates/codegen-cranelift/src/lib.rs:3257-3283 | the least integer by -1 is the only division whose quotient is no machine integer |
| Scopes.FreeIsEscaping | crates/frontend-python/src/freevars.rs:91-102 | a name is free in a scope iff some use in it or below it escapes it |
| Scopes.CelledIsCaptured | crates/frontend-python/src/freevars.rs:77-120 | a name is celled in a scope iff a use strictly inside resolves to it |
| Scopes.SharedIsDeclaredBelow | crates/frontend-python/src/freevars.rs:77-89 | a name is in the shared writes iff a scope strictly inside declares it nonlocal |
| Scopes.NonlocalOwnerKnows | crates/frontend-python/src/freevars.rs:77-120 | the owner a nonlocal declaration resolves to has the name celled and in its shared writes |
| FreeVars.Walker.Read | crates/frontend-python/src/freevars.rs:64-68 | first mentions are kept in order, once |
| FreeVars.Walker.Child | crates/frontend-python/src/freevars.rs:77-89 | a nested scope's free names, nonlocal writes and global declarations bubble up |
| FreeVars.Walker.Finish | crates/frontend-python/src/freevars.rs:91-120 | the fields become exactly the facts of the scope walked |
| Occurrence.ScopeSays | crates/frontend-python/src/freevars.rs:124-468 | a name is mentioned, bound or declared in a scope, and a scope nested in it, iff some construct that occurs in the scope is a reason for it |
| Occurrence.RunSays | crates/frontend-python/src/freevars.rs:124-262 | a statement or expression adds exactly the facts that something occurring in it is a reason for |
| Occurrence.FreeIsEscapingUse | crates/frontend-python/src/freevars.rs:91-102 | a name is free iff a chain of nested scopes leads to a use and none of them settles it |
| Occurrence.CelledIsCapturedUse | crates/frontend-python/src/freevars.rs:77-120 | a name is celled iff the scope owns it and a nested scope has a use of it that escapes |
| Occurrence.FactsDescribe | crates/frontend-python/src/freevars.rs:77-120 | every field of a scope's facts is what occurrence in the syntax makes it, and occurrence is position (`Positions.PlacesDecideFacts`) |
| Positions.PlacesAreOccurrences | crates/frontend-python/src/freevars.rs:124-468 | a name stands in a scope, or a scope is opened in it, iff recursion over the constructors of its syntax says so |
| Positions.PlacesDecideFacts | crates/frontend-python/src/freevars.rs:124-468 | the reasons and the nesting by which all facts are described are such positions |
| NameConservation.NamesAreConserved | crates/frontend-python/src/freevars.rs:124-468 | the names written in a scope, however deep, are exactly those it or a scope nested in it uses, binds or declares |
| EvaluationOrder.ScopeReplays | crates/frontend-python/src/freevars.rs:124-468 | a scope's tree is what its events, listed by constructor in evaluation order, build when replayed |
| EvaluationOrder.FreeInOrder | crates/frontend-python/src/freevars.rs:29-31 | free names come in first-occurrence order: the scope's own uses, then what nested scopes leave free |
| Occurrence.SharedIsPromised | crates/frontend-python/src/freevars.rs:40-44 | the shared writes are what their comment says iff each own nonlocal declaration is repeated further in |
| Occurrence.OwnNonlocalIsNotShared | crates/frontend-python/src/freevars.rs:40-44 | a function whose own nonlocal name is promised and missing |
| Hoisting.WalkedAsHoisted | crates/frontend-python/src/freevars.rs:446-449 | the walked tree is the one PEP 572 asks for iff no generator expression has a walrus at its own level |
| Hoisting.WalrusBindsInside | crates/frontend-python/src/freevars.rs:446-449 | a generator expression that owns its walrus target, which PEP 572 gives to the scope around it |
| Hoisting.WalrusLeavesOuterUnbound | crates/frontend-python/src/freevars.rs:446-449 | the function around it does not own the target, and by PEP 572 does |
| FreeVars.AnalyzeDef | crates/frontend-python/src/freevars.rs:485-490 | the walk's facts for a def are those of its scope tree and describe its syntax, parameters bound inside; tree and description are tied to the constructors by `EvaluationOrder.ScopeReplays` and `Positions.PlacesDecideFacts` |
| FreeVars.AnalyzeLambda | crates/frontend-python/src/freevars.rs:540-545 | the same for a lambda |
| FreeVars.AnalyzeGenExp | crates/frontend-python/src/freevars.rs:549-562 | the same for a generator expression, its outermost iterable excluded |
| Classes.FirstOwnIsNearest | crates/hir/src/lib.rs:1977-1987 | a super lookup finds the first definition in the linearization, or there is none |
| Dispatch.OwnOfStatic | crates/lowering/src/dispatch.rs:85-125 | on the static class itself the after-anchor lookup is the static resolution |
| Dispatch.AbiIsShared | crates/lowering/src/dispatch.rs:129-140 | overrides compatible with the base are compatible with each other |
| Dispatch.ResolvedIsOffered | crates/lowering/src/dispatch.rs:164-174 | every member a class resolves is among those planned for |
| Dispatch.SelectsOwn | crates/lowering/src/dispatch.rs:182-198 | arm selection gives a class its own resolution |
| Dispatch.ArmsAreDisjoint | crates/lowering/src/dispatch.rs:194-197 | no class is in two arms |
| Dispatch.Planner.PlanArms | crates/lowering/src/dispatch.rs:182-198 | the arms sort the family by what each class resolves to |
| Dispatch.Planner.AllCompatible | crates/lowering/src/dispatch.rs:206-217 | the vtable call is kept iff every diverging resolution of a plain method shares the base's convention |
| Dispatch.Planner.PlanMember | crates/lowering/src/dispatch.rs:175-279 | a member gets a dispatcher iff it needs one, planned as its contract says |
| Dispatch.Planner.AddSpec | crates/lowering/src/dispatch.rs:259-278 | the new function takes the next number, and its signature is where its number says |
| Dispatch.Planner.Plan | crates/lowering/src/dispatch.rs:144-282 | exactly the offered members that need a dispatcher have one; numbers are dense and fresh, one to a key; which members need one and what they answer is settled by `DispatchMeaning.NeedsIsOverridden` and `DispatchMeaning.PlanAnswers` |
| DispatchMeaning.ResolveIsEntry | crates/lowering/src/dispatch.rs:85-103 | a lookup by kind gives exactly the entry of that kind: the first property's getter or setter, the first static method and only then the class method, the first attribute's owner and index, the first method, the next own definition |
| DispatchMeaning.OwnIsReached | crates/lowering/src/dispatch.rs:105-125 | the answer for a runtime class is the entry it reaches, after the anchor in its own linearization for a super call, and the static one where it reaches none |
| DispatchMeaning.PlanAnswers | crates/lowering/src/dispatch.rs:144-282 | in a plan, every receiver is answered with the entry its class reaches |
| DispatchMeaning.SettersOnly | crates/lowering/src/dispatch.rs:85-103 | a property write is planned only where the static class has a setter, and every answer is a setter of that name in the family |
| DispatchMeaning.NeedsIsOverridden | crates/lowering/src/dispatch.rs:175-217 | a member needs a dispatcher iff a subclass reaches another entry and it is no plain method all of whose overrides are called alike |
| DispatchMeaning.NoEntryNoDispatcher | crates/lowering/src/dispatch.rs:179-181 | a member the class does not have is not planned |
| DispatchMeaning.AbiIsAllButReceiver | crates/lowering/src/dispatch.rs:129-140 | two conventions are compatible iff the signatures differ at most in the receiver's representation |
| DispatchMeaning.SignatureIsBase | crates/lowering/src/dispatch.rs:218-258 | a dispatcher is called as its base is, every slot tagged, with a selecting receiver in front where the base has none |
| DispatchMeaning.DunderIsWrapped | crates/lowering/src/lib.rs:7627-7629 | a dunder is a nonempty name between two double underscores |
| DispatcherBody.EmitDispatcher | crates/lowering/src/lib.rs:449-487 | the emitted chain of class tests replies to every class with what selection gives |
| DispatcherBody.EmitPlanned | crates/lowering/src/lib.rs:449-487 | the body emitted for a planned dispatcher replies to every class of the family with its own resolution |
| ParallelCompile.StepKeepsAccounted | crates/codegen-cranelift/src/lib.rs:1774-1783 | popping, compiling and pushing lose nothing, repeat nothing, and use up exactly one step |
| ParallelCompile.OneOwner | crates/codegen-cranelift/src/lib.rs:1751-1757 | no two workers hold the same context |
| ParallelCompile.EveryScheduleFinishes | crates/codegen-cranelift/src/lib.rs:1758-1785 | every interleaving is over after exactly 3n + threads steps, each context compiled once |
| ParallelCompile.SortedIsExpected | crates/codegen-cranelift/src/lib.rs:1786-1787 | sorting by index leaves one possible order |
| ParallelCompile.SerialMeaning | crates/codegen-cranelift/src/lib.rs:1788-1793 | the serial result is all compiled contexts in place, or the error of the smallest failing index |
| ParallelCompile.CompileContexts | crates/codegen-cranelift/src/lib.rs:1758-1794 | the parallel phase returns the serial result, whichever worker goes next |
| TracebackTable.Intern | crates/codegen-cranelift/src/lib.rs:1445-1453 | a string's offset finds it again, shared or new, and nothing written before moves |
| TracebackTable.EmitChain | crates/codegen-cranelift/src/lib.rs:1460-1488 | an inline chain is readable at the offset returned |
| TracebackTable.EmitLocs | crates/codegen-cranelift/src/lib.rs:1496-1510 | the line area is readable, and fails iff a chain it names lies where the flag bit is |
| TracebackTable.RecordStays | crates/codegen-cranelift/src/lib.rs:1416-1517 | patching one record and appending leaves every other record readable |
| TracebackTable.EmitFunc | crates/codegen-cranelift/src/lib.rs:1434-1517 | one function's record is patched in place and describes it |
| TracebackTable.EmitTable | crates/codegen-cranelift/src/lib.rs:1416-1517 | a blob below 4 GiB describes every function; an input that cannot reach 2 GiB never fails |
| TracebackTable.FindLine | crates/runtime/src/traceback.rs:152-171 | the sorted scan finds the line of the first range containing the offset |
| TracebackTable.LineForIsFirst | crates/runtime/src/traceback.rs:152-171 | the line of an offset is that of the first range containing it, or 0 if none does |
| TracebackTable.ReadChain | crates/runtime/src/traceback.rs:179-200 | reading a chain gives back its frames |
| TracebackTable.Resolve | crates/runtime/src/traceback.rs:148-200 | resolving any code offset of a given record of a described function gives exactly its frames |
| TracebackSearch.HolderIsLast | crates/runtime/src/traceback.rs:142-150 | if a function holds an address, it is the last in start order to begin at or before it |
| TracebackSearch.ResolveAddress | crates/runtime/src/traceback.rs:133-200 | with disjoint functions, an address resolves to the frames of the one that holds it, or to nothing |
| TracebackSearch.PrintsOneThing | crates/runtime/src/traceback.rs:133-200 | there is only one right answer for an address |
| KeywordMatch.MatchKeywords | crates/hir/src/lib.rs:2059-2101 | success is a binding, failure names a reason |
| KeywordMatch.BoundIsUnexplained | crates/hir/src/lib.rs:2059-2101 | a call that can be bound has no reason to fail, so success and failure are exact |
| KeywordMatch.BindingIsPartition | crates/hir/src/lib.rs:2043-2050 | every positional and keyword index lands in exactly one slot or in the leftovers |
| KeywordMatch.BindingIsUnique | crates/hir/src/lib.rs:2059-2101 | with distinct keywords there is one way to bind a call |
| Grouping.InsertGroupingN | crates/format-shared/src/lib.rs:154-164 | the left-to-right scan groups from the right |
| Grouping.GroupedLength | crates/format-shared/src/lib.rs:154-164 | n > 0 digits take n + (n - 1) / group characters |
| Grouping.StripUndoesGrouping | crates/format-shared/src/lib.rs:154-164 | removing the separators gives the digits back |
| Grouping.SplitNumber | crates/format-shared/src/lib.rs:173-190 | sign and prefix, then the longest run of digits, then the rest |
| Grouping.SplitIsUnique | crates/format-shared/src/lib.rs:173-190 | a number splits in only one way |
| Grouping.GroupAndPad | crates/format-shared/src/lib.rs:201-220 | the loop ends with the fewest zeros that reach the width |
| Grouping.MinimalIsUnique | crates/format-shared/src/lib.rs:210-217 | no other count of zeros is minimal |
| Grouping.OvershootIsOne | crates/format-shared/src/lib.rs:210-217 | padding passes the width by at most one character |
| Grouping.ZeroFillPreservesValue | crates/format-shared/src/lib.rs:201-220 | dropping separators and added zeros gives back the number |
| Grouping.PaddingIsExact | crates/format-shared/src/lib.rs:223-280 | padding reaches exactly the width and only adds fill at one place and at the end |
| Grouping.AlignmentPlaces | crates/format-shared/src/lib.rs:235-280 | left alignment starts with the text, right ends with it, centring puts the odd fill behind, `=` pads after sign and prefix |

## Left out

- GcSafety.NoReadOfDropped: requires covered boxed constants; that coverage is needed is shown step by step
  (`GcLimits.ExposedIsLost`), not for whole runs, which would have to reach the constant with such an object.
- DceMeaning.DcePreservesMeaning: requires that nothing fallible is removed, `DcePreservesInput` a condition on the input
  that implies it; for other programs, among them those whose raw arithmetic is in range by a proof the passes do not see,
  `DiffersOnlyOnOverflow` bounds the difference to runs in which a removed operation overflows.
- Passes.OptimizedIsSound: folding and cleaning alone, as do `OptimizedIsExact` and `OptimizedIsCollectable`;
  `PipelineIsSound` assumes of the other passes that they keep verification and meaning.
- ConstFoldMeaning.FoldPreservesMeaning: requires that decided branches keep their truth; this is exact for leaving a block
  (`LeaveIsExact`), and not claimed necessary for a whole program, whose wrong branch may be unreachable.
- TypeSafety.MachineReturnsTyped: requires that no unchecked narrowing of the run meets a word of another shape; the
  verifier cannot see it (`BlindCastMistypes`). A shape says which kind of object it is; element types and tuple arity are
  no part of it, since the table bridges a variable-length tuple to a fixed one of any arity without a check.
- Dispatch.Planner.Plan: a subclass without a member of the planned kind keeps the static resolution, as in the code.
- Dispatch.ResolvedIsOffered: covers a `super()` member only if the class's own method list names it, since offered members
  are read off that list.
- TracebackTable.Resolve: line ranges come sorted, as they are harvested.
- TracebackSearch.ResolveAddress: the addresses functions are loaded at are given, in the order sorting leaves them; that
  functions do not overlap is the linker's part.
- The two machines side by side: that each evaluator run is matched by a run of the machine with the collector is not
  stated; safety covers every run of that machine, whatever values its instructions produce.
- Re-entry in the evaluator: meaning is preserved over runtime libraries that do not call compiled functions back.
- The rooting pass's live set as words: the epoch scan is modelled on sets, the dataflow before it on both.
- Most of the instruction set: one or two instructions stand for each class of effect, typing rule and allocation
  behaviour. Call descriptors of runtime and container calls (`verify_call_runtime`, `verify_call_container`) are among
  the rest.
- Constructors of instances, cells, closures and generators: removing an unread one shifts later object identities, so
  cleaning would hold up to renaming only.
- Which error the verifier reports: the model has its verdict.
- Update in place of functions and blocks: the passes take a function and return its rewrite, block by block and
  instruction by instruction as the code does; sharing between functions does not arise there. `BitLiveness` has the
  worklist's words updated in place.
- Integer width of counters and indices (`u32` read counts and ids), except in the traceback blob, where wrapping is
  modelled.
- What the peephole, inlining and devirtualization passes do, `cold_blocks`, and `collect_promoted_globals`.
- Cranelift, object emission, stack unwinding, the runtime's heap layout, and float formatting.
- Thread panics and lock poisoning in the parallel compile.
