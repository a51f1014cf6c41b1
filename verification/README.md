# ROUGE, verified

A Dafny model of the ROUGE toolchain's hardest code: one PTX program that is
either interpreted or compiled ahead of time, and the numerical kernels beside
it. The proofs cover

- **the two execution paths.** The interpreter's step function, the class that
  carries it out, and its lockstep scheduler; the compiler's lowering of the
  integer subset to LLVM expressions, its control-flow folding, block naming and
  terminators, as the class that emits them; and the theorem that joins them: on
  a race-free block the compiled lanes, run by operating-system threads in any
  order the barriers allow, end with the interpreter's memory and registers.
- **warp collectives.** The publish, barrier, read, barrier protocol over reused
  slots, the fragment layouts of `mma`, and `ldmatrix`/`stmatrix`.
- **numerics.** The in-place FFT against the Fourier sum, narrow and half float
  codecs against nearest-even rounding, three forms of convolution and two
  gradients, and blockwise online softmax for grouped-query attention.
- **resources.** The liveness fixpoint and the occupancy calculators.

`dafny verify dfyconfig.toml` checks everything.

## Layout

| files | what |
|---|---|
| `Bits`, `Words`, `Machine` | bits of naturals, 1/32/64-bit words, memory, runs of a stepping machine |
| `Ptx`, `BytePermute`, `Interp`, `CtaScheduler` | the interpreter: step function, thread object, scheduler |
| `Ir`, `Lowering` | emitted expressions and lines, and which ones an instruction gets |
| `BitFields`, `FieldLowering`, `Shifts`, `Packed`, `Related`, `LoweringCorrect`, `ByteOrder` | one instruction at a time |
| `Layout`, `Simulation`, `Blocks`, `LlvmGen` | control flow, whole runs, the generator object |
| `Schedule`, `Refinement`, `BlockCorrect`, `EarlyExit`, `TwoPaths` | many threads |
| `Exchange`, `Mma`, `MatrixMove`, `Collectives` | warp collectives |
| `Complex`, `Fft`, `NarrowFloat` | Fourier transform, float codecs |
| `Liveness`, `Occupancy` | register pressure and occupancy |
| `Sums`, `Convolution`, `Winograd`, `Adjoint`, `Attention` | convolution, gradients, attention |

## Reading the model

- Words are naturals below their modulus and every wrap is written out (`Fit`).
  Memory is a map from 64-bit addresses to bytes.
- The loops of the C++ are methods with invariants, proved against recursive
  functions; the lemmas are about those functions.
- Several claims hold only under a condition, which the model keeps: a literal
  shift amount is read in base ten by the compiler (`ShiftLiteralExact` gives the
  exact condition); the block text is well formed exactly under `TextOk`; the
  greatest dynamic size is greatest exactly below 2^32 - 510 bytes in all
  (`GreatestUpTo`); repeating `ldmatrix` does no harm exactly when its address
  register is not a fragment (`AddressMustStay`).
- The interpreter's barrier opens for the threads still alive; a pthread barrier
  waits for every thread it was initialised for. The compiled lanes end alike
  whenever they end, and can end exactly when no thread leaves before a barrier
  that others still meet (`BlockFinishes`, with a kernel that hangs in
  `EarlyExit`).
- Loads and stores are printed with their natural alignment, so the text follows
  the interpreter, which accepts any address, on aligned accesses only.
- For a shared-memory total within 255 bytes below 2^31 the source overflows an
  int while rounding up (`RoundingOverflows`); the model takes the sum as it is.
- A written offset `[r-4]` loses its sign on both paths, an immediate source of
  `st` stores zero in the interpreter, and the encoder drops the sign of values
  that underflow: the model follows the code.
- A comment in `ptx.cpp` (lines 2929-2934) says that thread t of a matrix move
  takes row t%8; the code takes row t>>2, and so does the model.
- Real arithmetic stands for float and double in the Fourier transform,
  convolution and attention. `cos` and `sin` of the stage angles
  are a parameter `unit` that satisfies `Units`; `exp` is any positive function that turns sums into
  products; the element arithmetic of a float `mma` is uninterpreted.

## Model

| member | source | states |
|---|---|---|
| BlockCorrect.BlockRunsAlike | README.md:184-187 | If the interpreter finishes a block with aligned accesses and no stretch between barriers has a race, the compiled lanes, in every interleaving that respects the barriers (the interpreter's rule or the stricter pthread one), end with the same memory byte for byte and the same registers in every lane |
| BlockCorrect.BlockFinishes | software/rouge-compiler/runtime/rouge_runtime.cpp:122-129 | Under the same assumptions, and with a barrier that waits for every thread of the block, the compiled lanes have an order in which all of them finish if and only if no thread of the interpreter's execution had finished when one of its barriers opened |
| BlockCorrect.BlockNeverStuck | software/rouge-compiler/runtime/rouge_runtime.cpp:122-129 | In that case no interleaving fails or gets stuck: whenever no lane can step, all lanes are done or all are at the barrier |
| EarlyExit.InterpreterAlone | software/rouge-ptx/ptx.cpp:3273-3281 | A five-line kernel, launched with two threads of which one leaves before the barrier: it meets every assumption, the interpreter finishes it, and no interleaving of the compiled lanes does |
| EarlyExit.NoAccessNoRace | software/rouge-ptx/ptx.cpp:3242-3282 | A kernel without loads and stores is race free, whatever its threads do |
| TwoPaths.ExecuteBeside | README.md:184-187 | Runs the scheduler; when it completes the block by aligned accesses, every interleaving of the compiled lanes that finishes ends alike, and there is one under a pthread barrier if and only if no thread left before a barrier of the scheduler's own execution |
| TwoPaths.BothEnd | README.md:184-187 | The same for any execution of the interpreter's threads |
| BlockCorrect.LanesSurvive | software/rouge-compiler/src/ptx_to_llvm.cpp:154-178 | When the interpreter settles a race-free stretch by aligned accesses, no compiled lane fails in any order of that stretch: no poison, no unmapped or misaligned access, no missing label |
| BlockCorrect.LaunchInStep | software/rouge-compiler/src/ptx_to_llvm.cpp:872-935 | With predicate slots cleared, whatever the other register slots hold, a launched lane is in step with a thread of the same special registers that starts from these values |
| BlockCorrect.LocalPtx | software/rouge-ptx/ptx.cpp:1148-1181 | An interpreter step depends on no byte outside those it reports as read |
| BlockCorrect.LocalIr | software/rouge-compiler/src/ptx_to_llvm.cpp:154-178 | A line of compiled text depends on no byte outside those it reports as read |
| Simulation.RunCorrect | software/rouge-compiler/src/ptx_to_llvm.cpp:154-178 | Every error-free run of the interpreter with aligned accesses, of any length, is matched by a run of the compiled text that stops the same way, has the same registers, and reads and writes the same bytes |
| Simulation.StepCorrect | software/rouge-compiler/src/ptx_to_llvm.cpp:154-178 | Every single step of the interpreter that makes no misaligned access is matched by at most three printed lines, and the two sides stand at corresponding places again |
| Simulation.BranchStep | software/rouge-compiler/src/ptx_to_llvm.cpp:4538-4584 | A branch, guarded or not, taken or not, continues in the block of the instruction the interpreter continues with |
| Simulation.RetStep | software/rouge-compiler/src/ptx_to_llvm.cpp:4538-4543 | An unguarded return finishes the lane as it finishes the thread |
| Simulation.SkipMark | software/rouge-compiler/src/ptx_to_llvm.cpp:490-512 | A label mark costs the interpreter one step and the compiled text nothing |
| Layout.BlockFound | software/rouge-compiler/src/ptx_to_llvm.cpp:518-545 | A jump to the name of a block lands on the first line of exactly that block |
| Layout.NamesApart | software/rouge-compiler/src/ptx_to_llvm.cpp:518-545 | No earlier instruction carries the name of a later block, whichever of several labels of one index was picked |
| Layout.StartsWhere | software/rouge-compiler/src/ptx_to_llvm.cpp:513-536 | A block starts exactly at a labelled instruction or behind a terminator |
| Blocks.ValidExactly | software/rouge-compiler/src/ptx_to_llvm.cpp:4544-4584 | For every listing: the printed text is a well-formed control-flow graph if and only if no label stands on the first instruction (except one spelled ret before a branch that prints nothing), every branch names a printed block, and no block is named like a printed return block |
| Blocks.ValidWithoutRet | software/rouge-compiler/src/ptx_to_llvm.cpp:4544-4584 | The listings of the simulation theorems print well-formed text; and where no label is spelled ret, the text is well formed if and only if no label stands on the first instruction and every branch names the block printed at its label |
| Blocks.RetClash | software/rouge-compiler/src/ptx_to_llvm.cpp:4582-4584 | A label spelled ret that starts a block collides with the generated return block: the text is not well formed |
| Blocks.RetBorrowed | software/rouge-compiler/src/ptx_to_llvm.cpp:4582-4584 | A label spelled ret without a block of its own is taken for the return block: a branch to it is well formed and returns |
| LlvmGen.LlvmGen.NormalizeBody | software/rouge-compiler/src/ptx_to_llvm.cpp:494-511 | The folded body is the body without label marks; the label table maps parser labels and marks to folded indices, parser labels winning |
| LlvmGen.LlvmGen.BuildBlockNames | software/rouge-compiler/src/ptx_to_llvm.cpp:518-536 | Every instruction gets the name of the block it lies in: entry, its label, or a fresh anonymous name behind a terminator |
| LlvmGen.LlvmGen.LabelAt | software/rouge-compiler/src/ptx_to_llvm.cpp:539-543 | Finds a label of an index exactly when there is one, and of several the first by spelling |
| LlvmGen.LlvmGen.EmitTerminator | software/rouge-compiler/src/ptx_to_llvm.cpp:4538-4584 | Appends the terminator of instruction i and records whether a return block is needed |
| LlvmGen.LlvmGen.Generate | software/rouge-compiler/src/ptx_to_llvm.cpp:154-178 | Fails exactly on an empty folded body; otherwise the output is the text of a listing of the kernel, so the simulation theorems apply to it |
| LoweringCorrect.InstrCorrect | software/rouge-compiler/src/ptx_to_llvm.cpp:939-985 | The line emitted for any supported straight-line instruction, guard included, is well typed and does to the lane what the interpreter does to the thread, unless the access is misaligned |
| LoweringCorrect.StoreRegStep | software/rouge-compiler/src/ptx_to_llvm.cpp:315-331 | A guarded register write keeps the old value when the guard is false and takes the new one when it holds |
| LoweringCorrect.AluCorrect | software/rouge-compiler/src/ptx_to_llvm.cpp:2203-2330 | Every supported ALU instruction evaluates, without poison, to the interpreter's value cut to the destination |
| LoweringCorrect.PredCorrect | software/rouge-compiler/src/ptx_to_llvm.cpp:2944-2983 | setp and the predicate logic with its optional third operand give the interpreter's truth value |
| LoweringCorrect.CompareAgree | software/rouge-ptx/ptx.cpp:2152-2201 | The interpreter accepts exactly the six conditions, and for these the LLVM comparison of the cut operands is the same |
| LoweringCorrect.MinMaxAgree | software/rouge-ptx/ptx.cpp:1485-1518 | The min and max intrinsics give the interpreter's value, signed or not |
| LoweringCorrect.AddressCorrect | software/rouge-compiler/src/ptx_to_llvm.cpp:4279-4333 | An address [base], [base+off] or [base-off] evaluates to what the interpreter computes, the written minus being dropped on both sides |
| LoweringCorrect.LoadStep | software/rouge-compiler/src/ptx_to_llvm.cpp:4345-4443 | A load from an address with the alignment it is printed with widens the little-endian word there to the destination and reads exactly its bytes |
| LoweringCorrect.StoreStep | software/rouge-compiler/src/ptx_to_llvm.cpp:4445-4534 | A store to an address with the alignment it is printed with writes exactly the little-endian bytes of its source |
| ByteOrder.WrittenByte | software/rouge-ptx/ptx.cpp:2268-2304 | A store puts byte i of the word at the address i above its own: little endian |
| ByteOrder.ReadByte | software/rouge-ptx/ptx.cpp:2219-2262 | Byte i of a loaded word is the byte at the address i above |
| ByteOrder.StoreThenLoad | software/rouge-ptx/ptx.cpp:2268-2304 | A step that stores a word, then a step of any thread that loads from inside it: the load succeeds and gives that part of the word, the whole for the same width, the low or the high half for a 32-bit load from a 64-bit store |
| ByteOrder.Parts | software/rouge-ptx/ptx.cpp:2268-2304 | The parts by name: the value modulo 2^32, the value, and its quotient by 2^32 |
| ByteOrder.CompiledStoreThenLoad | software/rouge-compiler/src/ptx_to_llvm.cpp:4528-4532 | The compiled lines do the same, for aligned addresses |
| ByteOrder.BytesAreBits | software/rouge-ptx/ptx.cpp:2268-2304 | An access covers exactly the bits of its width |
| ByteOrder.AlignedBits | software/rouge-compiler/src/ptx_to_llvm.cpp:4364-4364 | Aligned means that the address has the low bits of the access size clear |
| BitFields.BfiValBit | software/rouge-ptx/ptx.cpp:1520-1581 | Bit by bit, the interpreter's bfi loop is the definition of the instruction (PTX ISA 9.7.9), for every 8-bit position and length |
| BitFields.BfeValBit | software/rouge-ptx/ptx.cpp:1520-1581 | Bit by bit, the interpreter's bfe loop is the definition of the instruction, sign or zero filled, empty and over-long fields included |
| BitFields.BfiAgree | software/rouge-compiler/src/ptx_to_llvm.cpp:2572-2593 | The mask form of bfi computes the interpreter's loop for every operand, position and length, both widths |
| BitFields.BfeAgree | software/rouge-compiler/src/ptx_to_llvm.cpp:2594-2636 | The mask form of bfe computes the interpreter's loop for every operand, position and length, both widths and signednesses |
| FieldLowering.GivesBfi | software/rouge-compiler/src/ptx_to_llvm.cpp:2560-2593 | The emitted bfi expression is well typed, never shifts by the width or more, and evaluates to the masks |
| FieldLowering.GivesBfe | software/rouge-compiler/src/ptx_to_llvm.cpp:2594-2636 | The emitted bfe expression is well typed, never shifts by the width or more, and evaluates to the masks |
| Shifts.SarIsDivision | software/rouge-ptx/ptx.cpp:1066-1080 | The complement form of the arithmetic shift is division by a power of two rounding down |
| Shifts.ShiftMeaning | software/rouge-ptx/ptx.cpp:1380-1404 | The interpreter's shift is the shift by the amount clamped to the width (to the width minus one for shr.s, PTX ISA 9.7.9.8 and 9.7.9.9) |
| Shifts.ShiftCorrect | software/rouge-compiler/src/ptx_to_llvm.cpp:2233-2285 | The emitted shift, with its clamping selects, never produces poison and gives the interpreter's value |
| Shifts.ShiftLiteralExact | software/rouge-compiler/src/ptx_to_llvm.cpp:2238-2252 | A literal amount folded from its base-ten reading agrees with the interpreter on all operands if and only if the reading, clamped, equals the value modulo 2^32, clamped |
| Shifts.LiteralSpelling | software/rouge-compiler/src/ptx_to_llvm.cpp:2238-2252 | By spelling: a hexadecimal amount, which the base-ten reading takes for zero, agrees with the interpreter exactly when it is zero modulo 2^32, and a decimal amount below 2^32 always agrees |
| Words.SignedIs | software/rouge-ptx/ptx.cpp:1058-1064 | The signed reading of a word is the one number congruent to it modulo 2^width that lies in the two's complement range |
| Shifts.LogicFit | software/rouge-compiler/src/ptx_to_llvm.cpp:2288-2330 | and, or and xor of cut operands are the cut of the full-width operation |
| Packed.PrmtCorrect | software/rouge-compiler/src/ptx_to_llvm.cpp:2654-2717 | The unrolled 64-bit byte permute gives the interpreter's loop over the four selectors, sign replication included |
| Packed.Dp4aCorrect | software/rouge-compiler/src/ptx_to_llvm.cpp:2719-2792 | dp4a by lane extraction in 64 bits gives the interpreter's sum modulo 2^32 for every signedness |
| Packed.Dp2aCorrect | software/rouge-compiler/src/ptx_to_llvm.cpp:2719-2792 | dp2a, low and high half, likewise |
| Packed.LaneSext | software/rouge-compiler/src/ptx_to_llvm.cpp:2767-2782 | Shifting a lane to the top and arithmetically back is sign extension |
| Interp.InsertField | software/rouge-ptx/ptx.cpp:1548-1558 | The bfi loop returns the word whose every bit is what the instruction defines |
| Interp.ExtractField | software/rouge-ptx/ptx.cpp:1559-1578 | The bfe loop returns the word whose every bit is what the instruction defines |
| Interp.Permute | software/rouge-ptx/ptx.cpp:1654-1678 | The prmt loop stops with an error exactly outside mode 0, and otherwise returns the word whose every byte is the selected one or eight copies of its sign |
| BytePermute.PrmtMeaning | software/rouge-ptx/ptx.cpp:1654-1678 | Byte by byte, the packed result is the byte of the pair b:a that its selector names, or that byte's sign replicated when the selector's top bit is set |
| Interp.Dot4 | software/rouge-ptx/ptx.cpp:1595-1642 | The dp4a loop computes the accumulated dot product modulo 2^32 |
| Interp.Dot2 | software/rouge-ptx/ptx.cpp:1595-1642 | The dp2a loop computes the accumulated dot product modulo 2^32 |
| Interp.ExecState.RunThreadStep | software/rouge-ptx/ptx.cpp:1148-1181 | One call advances the thread object and the memory by exactly the step function and returns its kind; on an error nothing is changed |
| Interp.ExecState.Dispatch | software/rouge-ptx/ptx.cpp:1174-1182 | Each instruction updates registers, predicates, counter and memory as the step function says |
| Schedule.OrderIrrelevant | software/rouge-ptx/ptx.cpp:3242-3282 | All executions of a race-free block that run to completion, in whatever order their steps are taken, end with the same owners and the same memory after the same number of barriers |
| Schedule.AloneAfter | software/rouge-ptx/ptx.cpp:3249-3271 | At every moment of every order, the block looks as if each owner had run alone for some number of steps |
| Schedule.StretchesSame | software/rouge-compiler/runtime/rouge_runtime.cpp:122-129 | Two orders that settle the same race-free stretch reach the same state at the barrier |
| Schedule.NeverBroken | software/rouge-ptx/ptx.cpp:3262-3268 | If one order settles a race-free stretch without error, no order of it meets an error |
| Refinement.TwinsToTheEnd | software/rouge-compiler/runtime/rouge_runtime.cpp:122-129 | A machine that follows another step by step ends, in every order in which it finishes, as the twin of the leader's end |
| Refinement.FinishesExactly | software/rouge-compiler/runtime/rouge_runtime.cpp:122-129 | Under a barrier that counts every owner in, a follower can finish if and only if no owner had finished at any release of the leader's execution |
| Refinement.HostNeverStuck | software/rouge-compiler/runtime/rouge_runtime.cpp:122-129 | And then, in every order, a follower that cannot step is done or wholly at the barrier |
| Schedule.HostIsExecution | software/rouge-compiler/runtime/rouge_runtime.cpp:122-129 | An execution under the pthread barrier is one under the interpreter's |
| Refinement.StretchFollows | software/rouge-compiler/runtime/rouge_runtime.cpp:122-129 | Between two barriers the follower inherits race freedom, settles in a twin of the leader's settled state, and breaks in no order |
| CtaScheduler.CtaScheduler.ExecuteBlock | software/rouge-ptx/ptx.cpp:3247-3282 | The scheduler loop terminates; it completes only with every thread finished and in a state some barrier-respecting execution reaches; the step limit is reported exactly past the budget, an error only when some reachable thread cannot execute its instruction |
| CtaScheduler.CtaScheduler.OpenBarrier | software/rouge-ptx/ptx.cpp:3278-3281 | The barrier opens only with no thread short of it: every live thread's arrival count equals the new phase |
| CtaScheduler.CtaScheduler.StepThread | software/rouge-ptx/ptx.cpp:3262-3270 | One turn is one step of the execution; a parked thread's arrival count is the phase plus one |
| CtaScheduler.CtaScheduler.Round | software/rouge-ptx/ptx.cpp:3250-3272 | One round steps exactly the threads that could step when it began, each once and in index order, and counts their steps |
| Exchange.ExchangeSafe | software/rouge-compiler/src/ptx_to_llvm.cpp:1519-1594 | Over any interleaving and any number of collectives on the same 64-byte slots, everything a lane reads in collective c is what the peer published in c |
| Exchange.ReadNeverMisses | software/rouge-compiler/src/ptx_to_llvm.cpp:1565-1573 | A lane that reads finds the peer's slot fully published for its collective |
| Exchange.PublishedStays | software/rouge-compiler/src/ptx_to_llvm.cpp:1553-1563 | No event replaces a word published for a collective |
| Exchange.WaiterFreed | software/rouge-compiler/runtime/rouge_runtime.cpp:122-129 | No deadlock: from every reachable state, a lane waiting at the first barrier can come to read and one waiting at the second can come to the next collective |
| Exchange.BarrierOpens | software/rouge-compiler/runtime/rouge_runtime.cpp:122-129 | From every reachable state the barrier under way can be opened by the lanes that have not arrived, those that have staying where they are |
| Exchange.ClosingBarrierNeeded | software/rouge-compiler/src/ptx_to_llvm.cpp:2058-2060 | Without the barrier after the reads a fast lane overwrites a word before a slow one has read it: some interleaving reads the wrong value |
| Mma.ALocInverts | software/rouge-compiler/src/ptx_to_llvm.cpp:1716-1738 | The A owner formula and the interpreter's gather are inverse: element (r, k) comes from exactly one slot of exactly one lane, for all three formats |
| Mma.BLocInverts | software/rouge-compiler/src/ptx_to_llvm.cpp:1739-1758 | The B owner formula and the interpreter's gather are inverse |
| Mma.CElemInverts | software/rouge-compiler/src/ptx_to_llvm.cpp:1759-1762 | Every element of the 16 by 8 result belongs to exactly one slot of exactly one lane |
| Mma.GatherA | software/rouge-ptx/ptx.cpp:2783-2824 | The gather loops fill tile A with the element every owner formula names |
| Mma.APlaces | software/rouge-ptx/ptx.cpp:2790-2810 | Every place of every A register of every lane, up to bit 31 and no further, holds exactly one element of A |
| Mma.APlaceFits | software/rouge-compiler/src/ptx_to_llvm.cpp:1716-1738 | No A element is looked for past the registers or past bit 31 |
| Mma.RawIs | software/rouge-ptx/ptx.cpp:2790-2810 | Element i of a register is its bits from the i-th element width on |
| Mma.GatherB | software/rouge-ptx/ptx.cpp:2825-2855 | The gather loops fill tile B likewise |
| Mma.BPlaces | software/rouge-ptx/ptx.cpp:2825-2855 | The same of the B registers |
| Mma.BPlaceFits | software/rouge-compiler/src/ptx_to_llvm.cpp:1739-1758 | No B element is looked for past the registers or past bit 31 |
| Mma.ComputeLane | software/rouge-ptx/ptx.cpp:2882-2918 | The lane's four D words are the k-ascending multiply-add chains over the tiles, starting from its C words |
| Mma.RoundIsParallel | software/rouge-ptx/ptx.cpp:2783-2918 | The interpreter's lane-after-lane execution equals all lanes at once when D does not overlap A or B |
| Mma.MmaAgrees | software/rouge-compiler/src/ptx_to_llvm.cpp:1848-1920 | The compiled lane, reading its peers' words at the owner formulas' places, ends with the registers the interpreter gives it, for any element arithmetic, when D is disjoint from C or identical to it |
| Collectives.MmaThroughSlots | software/rouge-compiler/src/ptx_to_llvm.cpp:1833-1926 | End to end: in any interleaving of the exchange protocol, a lane that has read its peers' fragments in a collective computes from the words it read the registers the interpreter gives it |
| Collectives.RowsThroughSlots | software/rouge-compiler/src/ptx_to_llvm.cpp:2017-2037 | End to end: the row addresses a lane has read in a collective are those the interpreter collects from the lanes' registers |
| Collectives.FieldInside | software/rouge-compiler/src/ptx_to_llvm.cpp:1432-1435 | The fields of an exchange slot are aligned, lie in their lane's 64 bytes and fill them |
| Collectives.FieldsApart | software/rouge-compiler/src/ptx_to_llvm.cpp:1519-1594 | No two fields of any two lanes overlap |
| Mma.IntegerMmaAgrees | software/rouge-compiler/src/ptx_to_llvm.cpp:1848-1920 | 32-bit wrapping multiply-adds of the compiled code equal the interpreter's wide sums cut at the end |
| Mma.ProductAssembled | software/rouge-ptx/ptx.cpp:2783-2918 | Assembled over the warp, the integer D words are A times B plus C modulo 2^32 |
| MatrixMove.StoreThenLoad | software/rouge-ptx/ptx.cpp:3058-3093 | stmatrix then ldmatrix from the same disjoint rows, plain or transposed, each executed by all 32 lanes, restores every fragment as a 32-bit word and changes no byte outside the rows |
| MatrixMove.StoreRoundIsOnce | software/rouge-ptx/ptx.cpp:3058-3093 | Storing 32 times is storing once, whatever the rows |
| MatrixMove.LoadRoundIsOnce | software/rouge-ptx/ptx.cpp:3058-3093 | Loading 32 times is loading once when the address register is not a fragment |
| MatrixMove.AddressMustStay | software/rouge-ptx/ptx.cpp:3023-3093 | For every form of the load and every number of repetitions above one: repeating it is loading once on all readable inputs of a full warp if and only if the address register is not a fragment |
| MatrixMove.CompiledStores | software/rouge-compiler/src/ptx_to_llvm.cpp:2026-2055 | Compiled lanes storing their own pieces in any interleaving leave the memory the interpreter leaves |
| MatrixMove.CompiledFragment | software/rouge-compiler/src/ptx_to_llvm.cpp:2022-2056 | The compiled lane's shifted and joined halves are the interpreter's fragment |
| MatrixMove.AnyOrder | software/rouge-ptx/ptx.cpp:3058-3085 | Two orders of the same pieces leave the same memory when the rows are disjoint |
| MatrixMove.StoreAll | software/rouge-ptx/ptx.cpp:3023-3093 | The store loops leave the specified memory |
| MatrixMove.LoadAll | software/rouge-ptx/ptx.cpp:3023-3093 | The load loops leave the specified registers in every lane |
| MatrixMove.RowAddrIs | software/rouge-ptx/ptx.cpp:3023-3046 | The row address of [base+off] lies off bytes from the register's content or the symbol's place, modulo 2^64 |
| Fft.RougeFft | software/rouge-numerics/src/fft.cpp:43-93 | For every size and both directions the result is the defining Fourier sum (divided by n when inverse); a size below one is refused and nothing is written |
| Fft.BitReverse | software/rouge-numerics/src/fft.cpp:52-61 | The swap loop puts at every place the input of the bit-reversed index |
| Fft.NextReversed | software/rouge-numerics/src/fft.cpp:53-55 | The carry-from-the-top counter goes from the reversal of i to the reversal of i + 1 |
| Fft.Butterflies | software/rouge-numerics/src/fft.cpp:66-83 | The inner loop replaces the two halves of a block by sum and difference with the running power of the stage root |
| Fft.Stage | software/rouge-numerics/src/fft.cpp:63-84 | If every block of the half length holds the transform of its subsequence, so does every block of the full length afterwards |
| Fft.FastDft | software/rouge-numerics/src/fft.cpp:50-84 | Bit reversal and all stages in place give the defining sum |
| Fft.DirectDft | software/rouge-numerics/src/fft.cpp:23-37 | The slow path gives the defining sum for every size |
| Fft.IsPow2Exact | software/rouge-numerics/src/fft.cpp:20-20 | The bit test finds exactly the powers of two |
| Fft.RevTwice | software/rouge-numerics/src/fft.cpp:52-61 | Bit reversal is its own inverse |
| Fft.InverseUndoes | software/rouge-numerics/src/fft.cpp:62-91 | The inverse sum of the forward sum is n times the input, for every power of two |
| Fft.RoundTrip | software/rouge-numerics/src/fft.cpp:62-91 | Forward and inverse transform of the same size, in either order, give the input back |
| Fft.ForwardAndBack | software/rouge-numerics/src/fft.cpp:43-93 | The operation called twice returns its input |
| Fft.ForwardAtZero | software/rouge-numerics/src/fft.cpp:23-37 | At frequency zero the forward transform is the plain sum of the inputs |
| Fft.InverseOfImpulse | software/rouge-numerics/src/fft.cpp:85-90 | The inverse of an impulse at zero is an n-th of it everywhere |
| Fft.SenseOfRotation | software/rouge-numerics/src/fft.cpp:62-66 | The forward transform turns back and the inverse turns on, by one n-th of a turn |
| NarrowFloat.EncodeRounds | software/rouge-ptx/ptx.cpp:532-608 | For every format and every finite input the encoder returns the pattern nearest to it, ties to even, saturating; toward zero, the largest not above it; the sign is kept except where the magnitude underflows |
| NarrowFloat.RoundTrip | software/rouge-ptx/ptx.cpp:477-608 | Encoding the decoded value gives the field back, for every finite field of every format, in both rounding modes |
| NarrowFloat.EncodeOrdered | software/rouge-ptx/ptx.cpp:532-608 | Encoding is monotone over all finite numbers of either sign: a larger number never gets a smaller value, in either rounding mode |
| NarrowFloat.EncodeMonotone | software/rouge-ptx/ptx.cpp:532-608 | On the nonnegative numbers even the bit patterns are monotone |
| NarrowFloat.DecodeExact | software/rouge-ptx/ptx.cpp:477-530 | Decoding a finite field loses nothing |
| NarrowFloat.DecodeSigned | software/rouge-ptx/ptx.cpp:477-530 | The decoder on a finite field is its sign and its exact magnitude |
| NarrowFloat.Normalize | software/rouge-ptx/ptx.cpp:484-505 | The normalising loop shifts the mantissa up to its leading one and counts the shifts |
| NarrowFloat.FormatsOk | software/rouge-ptx/ptx.cpp:624-628 | The five formats of the table meet the conditions the codec theorems ask for |
| NarrowFloat.BiasOf | software/rouge-ptx/ptx.cpp:624-628 | The bias of each format is the one its exponent width gives |
| NarrowFloat.GreatestValues | software/rouge-ptx/ptx.cpp:624-628 | The greatest finite values are 448, 57344, 28, 7.5 and 6 |
| NarrowFloat.PatternsOfOne | software/rouge-ptx/ptx.cpp:624-628 | The pattern of 1.0 in each format |
| NarrowFloat.SpecialFields | software/rouge-ptx/ptx.cpp:507-524 | e5m2 has infinities at 0x7C and NaN above, e4m3 has no infinity and NaN at 0x7F only, for both signs |
| NarrowFloat.SpecialsEncoded | software/rouge-ptx/ptx.cpp:539-546 | NaN goes to the signed NaN pattern or to the greatest value, infinity to the signed greatest value |
| NarrowFloat.PackBack | software/rouge-ptx/ptx.cpp:612-619 | A field placed in its byte comes back and leaves the bits beside it clear |
| NarrowFloat.F16Nearest | software/rouge-ptx/ptx.cpp:408-433 | Rounding to binary16 is to nearest, ties to even, overflowing to infinity |
| NarrowFloat.F16RoundTrip | software/rouge-ptx/ptx.cpp:384-433 | Every binary16 pattern that is no NaN survives decoding and encoding |
| NarrowFloat.F16NaN | software/rouge-ptx/ptx.cpp:396-416 | In binary16 NaN stays NaN and infinity stays infinity, both ways, with the sign |
| NarrowFloat.E4m3EncodeIsGeneric | software/rouge-numerics/src/fp8.cpp:75-106 | The specialised e4m3 encoder is the generic one on every binary32 pattern |
| NarrowFloat.E4m3DecodeIsGeneric | software/rouge-numerics/src/fp8.cpp:42-71 | The specialised e4m3 decoder is the generic one on every byte |
| Liveness.Solve | software/rouge-cuda/src/occupancy.cpp:155-188 | Sweeping until nothing changes needs at most 2 n R + 1 rounds; when it settles, a register is marked live behind an instruction if and only if some path of successor edges reaches a use of it with no definition before |
| Liveness.Exact | software/rouge-cuda/src/occupancy.cpp:155-188 | Closed and justified tables are exactly liveness: the least solution |
| Liveness.Tables.Visit | software/rouge-cuda/src/occupancy.cpp:161-187 | One visit adds only justified marks, and when it adds none the instruction's equations hold |
| Liveness.Tables.Sweep | software/rouge-cuda/src/occupancy.cpp:160-188 | One backward sweep reports a change exactly when it made one, and otherwise every equation holds |
| Liveness.MaxLiveRegs | software/rouge-cuda/src/occupancy.cpp:155-197 | The result is -1 for an empty body, otherwise the largest weight of registers live behind some instruction, and never exceeds the declared-register bound |
| Liveness.PressureWithin | software/rouge-cuda/src/occupancy.cpp:71-78 | The live weight at one point never exceeds the sum over all declarations |
| Liveness.DeclaredIs | software/rouge-cuda/src/occupancy.cpp:71-78 | The declared bound counts every register wider than a predicate once and those of 64 bits or more a second time |
| Occupancy.AvailableDynamicSmem | software/rouge-cuda/src/occupancy.cpp:318-343 | Succeeds exactly when numBlocks fit without dynamic memory and the static size is within the share; then the result fills the share, a dynamic size admits numBlocks exactly under the wrapped condition, and short of 2^32 - 510 bytes in all exactly up to the result |
| Occupancy.Admits | software/rouge-cuda/src/occupancy.cpp:273-290 | The cast and the nested divisions have an exact inverse for every total: n blocks fit if and only if the total modulo 2^32 is at most the share or at least 2^32 - 510 |
| Occupancy.ActiveExactly | software/rouge-cuda/src/occupancy.cpp:243-292 | With the static size admitted, every dynamic size admits n blocks exactly under that condition on the sum |
| Occupancy.StaticWithinShare | software/rouge-cuda/src/occupancy.cpp:335-335 | The failure behind the division is unreachable for every static size below 2^32 - 510 |
| Occupancy.OverflowRange | software/rouge-cuda/src/occupancy.cpp:32-33 | The totals for which rounding up leaves the range of int |
| Occupancy.GreatestUpTo | software/rouge-cuda/src/occupancy.cpp:274-275 | For every kernel: between the result and 2^32 - 510 bytes in all no dynamic size is admitted, and that one, like 2^32, is admitted again, so the result is the greatest size only below it |
| Occupancy.PotentialBlockSize | software/rouge-cuda/src/occupancy.cpp:294-316 | Returns the warp multiple with the most resident threads, the largest on ties, zero when nothing fits |
| Occupancy.ThreadsBound | software/rouge-cuda/src/occupancy.cpp:306-312 | Size times resident blocks never exceeds 1024: the early exit is sound |
| Occupancy.ActiveMeans | software/rouge-cuda/src/occupancy.cpp:243-292 | n blocks are resident exactly if the block has 1 to 1024 threads, its warps fit 32, its registers and shared memory fit, and n is at most 16 |
| Occupancy.RegLimitExactly | software/rouge-cuda/src/occupancy.cpp:252-264 | Under the two guards n blocks fit the registers exactly if their warps are at most four times the most whose allocations fit a quarter; otherwise none do |
| Occupancy.WarpAllocation | software/rouge-cuda/src/occupancy.cpp:253-254 | A warp is allocated the least multiple of 256 that covers its registers |
| Occupancy.ShareMeans | software/rouge-cuda/src/occupancy.cpp:324-334 | One block may use 49152 bytes, n blocks the most whole grains that fit 65536 n times |
| Convolution.Conv2d | software/rouge-numerics/src/conv.cpp:26-66 | im2col and the matrix product write the convolution plus bias everywhere, and nothing for impossible sizes |
| Convolution.Im2col | software/rouge-numerics/src/conv.cpp:43-57 | The column matrix holds at (tap, pixel) what the tap sees at that pixel, zero outside the image |
| Convolution.ConvImplicit | software/rouge-numerics/src/conv_implicit.cpp:24-79 | The tiled pass writes the same convolution for every tile size |
| Convolution.FillTile | software/rouge-numerics/src/conv_implicit.cpp:49-68 | The accumulators of a tile hold the full tap sums of its elements |
| Convolution.StoreTile | software/rouge-numerics/src/conv_implicit.cpp:69-75 | A tile is written, with bias, to exactly its elements |
| Convolution.ByChannel | software/rouge-numerics/src/conv.cpp:43-60 | The convolution over flattened taps is the sum over channels of the kernel window sums |
| Convolution.OutSizeExactly | software/rouge-numerics/src/conv.cpp:34-35 | An output position exists exactly if the kernel placed there stays inside the padded input; for a larger kernel there is one position exactly if it overshoots by less than a stride |
| Convolution.ValidMeans | software/rouge-numerics/src/conv.cpp:29-36 | The sizes that are computed at all |
| Convolution.BiasMeans | software/rouge-numerics/src/conv.cpp:60-66 | Each channel gets its own bias, zero without a bias |
| Winograd.ConvWinograd | software/rouge-numerics/src/winograd.cpp:79-154 | Tiles F(2x2,3x3) with padding and odd tails write the same convolution at 3x3, stride 1, padding 1 |
| Winograd.TileExact | software/rouge-numerics/src/winograd.cpp:27-73 | Transforming filter and tile, multiplying and transforming back is the nine-term sum at each of the four outputs |
| Winograd.OutputOfSum | software/rouge-numerics/src/winograd.cpp:117-125 | Transforming the channel sum once equals summing the transformed channels |
| Winograd.TileIsConv | software/rouge-numerics/src/winograd.cpp:100-132 | What a tile delivers is the convolution at its four pixels |
| Winograd.FilterXform | software/rouge-numerics/src/winograd.cpp:27-42 | The filter loops fill the transform |
| Winograd.InputXform | software/rouge-numerics/src/winograd.cpp:45-60 | The input loops fill the transform |
| Winograd.OutputXform | software/rouge-numerics/src/winograd.cpp:63-73 | The output loops fill the transform |
| Winograd.Accumulate | software/rouge-numerics/src/winograd.cpp:118-123 | The sixteen running sums are the channel sums of the products |
| Winograd.Tail | software/rouge-numerics/src/winograd.cpp:134-151 | A pixel no full tile covers gets the directly taken sum |
| Winograd.ThreeForms | software/rouge-numerics/src/winograd.cpp:178-187 | Called on the same convolution, im2col with the matrix product and the tiled pass, for every tile size, give equal outputs, and so does Winograd where it applies |
| Winograd.ConvTuned | software/rouge-numerics/src/winograd.cpp:159-221 | The output is the convolution, and the form reported is the fastest of those that apply, the first of them on a tie; -1 and an untouched output exactly for impossible sizes |
| Adjoint.DataAdjoint | software/rouge-numerics/src/conv_backward.cpp:21-53 | The inner product of dy with the convolution of x by w is that of the data gradient with x, for every shape, stride and padding |
| Adjoint.FilterAdjoint | software/rouge-numerics/src/conv_backward.cpp:55-81 | The inner product of dy with the convolution of x by w is that of the filter gradient with w |
| Adjoint.Adjoint | software/rouge-numerics/src/conv_backward.cpp:36-50 | Gathering through any relation is adjoint to scattering through it |
| Adjoint.ShareIsSum | software/rouge-numerics/src/conv_backward.cpp:38-48 | The divisibility and range tests find the one output pixel that an input point and a tap lead back to, if there is one |
| Adjoint.BwdData | software/rouge-numerics/src/conv_backward.cpp:21-53 | The loops write the data gradient at every input element, and nothing for impossible sizes |
| Adjoint.BwdFilter | software/rouge-numerics/src/conv_backward.cpp:55-81 | The loops write the filter gradient at every weight, and nothing for impossible sizes |
| Attention.Gqa | software/rouge-numerics/src/attention_gqa.cpp:52-159 | For every block size, window, offset, mask and head grouping, each output is the softmax-weighted average over exactly the visible positions, zero if none is visible; nothing is written when the heads do not divide |
| Attention.Finished | software/rouge-numerics/src/attention_gqa.cpp:134-158 | After the last block the running output is the full softmax average, whatever maximum it was kept relative to |
| Attention.MergeLevel | software/rouge-numerics/src/attention_gqa.cpp:134-140 | Folding a block keeps the invariant: the running sum is that of the prefix relative to the running maximum |
| Attention.MergeAverage | software/rouge-numerics/src/attention_gqa.cpp:142-152 | Folding a block keeps the invariant: running sum times running output is the weighted value sum of the prefix |
| Attention.VisibleStretch | software/rouge-numerics/src/attention_gqa.cpp:102-113 | The computed bounds enclose exactly the positions the mask and the window leave visible |
| Attention.ScoreScaled | software/rouge-numerics/src/attention_gqa.cpp:39-41 | A given scale multiplies the dot product; by default the score times the root of the head size is the dot product |
| Attention.ExpExists | software/rouge-numerics/src/attention_gqa.cpp:134-139 | The assumption on the exponential can be met |
| Attention.Buffers.StepRow | software/rouge-numerics/src/attention_gqa.cpp:101-153 | One row taking in one block moves from the prefix before the block to the prefix after it and touches no other row |
| Attention.FoldBlock | software/rouge-numerics/src/attention_gqa.cpp:134-152 | The rescaled output row is the prefix average after the block |
| Attention.Scores | software/rouge-numerics/src/attention_gqa.cpp:120-132 | The block maximum is the greatest score of the visible part, minus infinity exactly when that part is empty |

## Left out

- LoweringCorrect.AluCorrect: the supported set excludes what the two paths treat differently, namely prmt modes other than 0, literals of 2^32 and more as field operands of a 64-bit bfi or bfe (emitted as zero-extended i32), and shift literals outside `ShiftLiteralOk`.
- LoweringCorrect.PredCorrect: conditions outside the six, which the interpreter refuses and the compiler emits as not-equal.
- Simulation.RunCorrect: a guard on st, bar or ret, which the interpreter obeys and the compiler ignores; a guarded ld, whose access the compiler performs anyway.
- BlockCorrect.LaunchInStep: an undefined register slot is taken to hold some fixed value; the interpreter's threads start with zeros.
- BlockCorrect.BlockRunsAlike: blocks with a race between barriers, and misaligned accesses, on which LLVM promises nothing.
- Blocks.ValidExactly: the error the generator records for an unresolved branch target and then ignores; the theorem says what becomes of the text.
- LlvmGen.LlvmGen.Generate: the spelling of lines, temporaries, slot declarations and metadata; a temporary is the expression tree that defines it.
- Mma.MmaAgrees: D overlapping A or B, half-precision output, and partial warps.
- Mma.IntegerMmaAgrees: the interpreter's 64-bit sums are unbounded integers here (they cannot overflow at this depth).
- MatrixMove.LoadAll: a fault on an unmapped address; an unmapped byte reads as zero.
- MatrixMove.StoreAll: a fault on an unmapped address; an unmapped byte is mapped by the store. The source is one loop with a branch for loads and stores; it is two methods here. Local symbols as addresses.
- Fft.RougeFft: input and output arrays that overlap; rounding of the twiddle factors.
- Liveness.MaxLiveRegs: the classification of mnemonics into uses and definitions, the answer -1 for a call, and a label at the very end of the body, whose successor index the code would read past its tables.
- Occupancy.AvailableDynamicSmem: the undefined overflow for totals from 2^31 - 255 to 2^31 - 1 modulo 2^32, where the model rounds up without it.
- Convolution.Conv2d: the matrix kernel is taken by its contract, and flattened pointers are multi-dimensional arrays. A kernel larger than the padded input can still give an output size of one, because the division rounds toward zero; the model keeps that.
- Attention.Gqa: the variant with quantised keys and values, which differs in the copy loop only.
- Shuffles, votes, atomics, special functions, conversions between widths, mul.wide and div/rem, half and bfloat arithmetic: not modelled.
- bfloat16 conversions and the compiler's own narrow encoder, which differs from the interpreter's near the top binade.
- Parsing of PTX text, module globals, shared and local symbol addresses in ordinary loads and stores, kernel parameters.
- The GPU targets of the compiler, and everything that is input or output: files, processes, timing, memory mapping.
