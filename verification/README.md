# bbarm64: the translator against its own interpreter

bbarm64 runs ARM64 programs on x86_64. It decodes a block of guest words, builds IR, merges flag
settings, lowers the IR to x86_64 bytes in a slot of a code pool, caches the block and calls it; when it
cannot translate, it interprets one instruction. This project models that pipeline down to the bytes, the
translation cache, the run loop, the segment loader and the register allocator, and proves when they are
right and, where they are not, exactly when.

## How the pieces fit

| module | models | form |
|---|---|---|
| `Words`, `Guest`, `View`, `HostImage` | fixed-width words, little-endian memory, the CPU context and its 832-byte layout, the region table | values |
| `Decoder`, `Targets`, `WordTable`, `WordRecord` | the whole of `decode` with its fall-through attempts; what words mean; the decoder as a table over all words, opcode and every other field | functions |
| `Interp`, `Semantics` | `execute_decoded` and `check_condition`: the reference semantics; what they do, digit by digit and byte by byte | functions, lemmas |
| `IR`, `FlagMerging` | the builder and the one optimizer pass that changes anything | loops, in-place array pass |
| `X86` | an x86_64 machine, an instruction decoder after sections 2.1 and 2.2.1 of the Intel SDM Vol. 2, an evaluator for raw bytes | functions |
| `Emitter`, `CodeBuffer`, `Disassembly` | the encodings, the emitter class, linear disassembly | functions and a class over an array |
| `Lower`, `Lowering` | `lower_instr` and `lower_block`, as lists of calls and as the class that makes them | functions and a class |
| `Denote`, `Refine`, `Exact`, `Converse`, `Pipeline` | bytes = IR denotation = interpreter, and the converse | lemmas |
| `Steps`, `ControlFlow` | what the code of one operation does to the machine and needs mapped; where a block goes | lemmas |
| `Translated`, `WordEffects` | what the translation of each record does; shifts, compares and register branches from words on | lemmas |
| `Clipped` | blocks larger than their slot: what the bytes that are left do | lemmas |
| `ExactWords` | which words are translated right, what well-known words become, programs given as words | lemmas |
| `Spill`, `MergedCode` | the exact effect of the flag spill; what flag merging changes in the code that runs | lemmas |
| `Conditions`, `CodeSize` | the condition table, the slot size | lemmas |
| `Cache` | the translation cache | class, specification functions, histories of calls |
| `RunLoop`, `LoopSteps`, `WholeRun`, `Driver` | the run loop as a state machine, what single iterations do, its refinement, the class that runs it | lemmas and a class |
| `Loader` | `mmap`, `mprotect`, `check_perms`, `load_segments` | class and loops |
| `RegAlloc` | the register allocator | class |

The main chain is: `Refine.BlockRefines` (running the bytes of any IR block without flag spills is its
denotation), `Exact.BlockAgreement` (the denotation of what the builder makes of `JitExact` instructions is
what the interpreter does), `Converse.ExactIffAgrees` (for every decoded instruction, `JitExact` holds if and
only if running its translation and interpreting it agree in every state), `Pipeline.TranslationExact` (the
three stages together), and `WholeRun.WholeRunExact` (whatever the cache does, every state at the head of the
loop is one plain interpretation reaches, after exactly as many steps as the executed blocks count
instructions). `Driver.ExecEngine.Run` is the loop itself, proved to leave such a run. Beside it,
`ControlFlow.BlockRuns` says what running the bytes of any block does, flag spills and conditional exits
included, and `MergedCode.MergedRunsAlike` compares the runs of a block before and after flag merging.

`JitExact` is a predicate on decoded records, wider than what words decode to. `WordTable.TableHolds` gives the
opcode and flag mark of every 32-bit word, and `ExactWords.WordAgrees` says which words are translated right:
exactly those of `ExactWord`, a predicate on the bits. They are ADD with an immediate, MOVZ, ADR, ADRP, NOP and
unknown system words, forward B and BL, B.cond and the words read as TBZ and TBNZ when they go to the next
instruction, words read as AND or ORR of a register with itself, and, of the words read as 64-bit loads and stores,
those with top byte EC to EF, those with FC to FF and a non-zero offset, and those with E8 to EB or F8 to FB, the
real LDR and STR, only when bits 20..16 are all set. No word reaches the cases of `JitExact` for
SUB (every SUB with an immediate comes marked), MOV (MOV words decode to ORR), LDP and STP: LDP and STP words decode
to AND and become a NOP, 64-bit register compares decode to loads and stores, TBZ and TBNZ words do not decode. For
every other record `Converse` gives a state in which the engines differ: guest memory is the few words they touch
and a stack word, the context lies apart from it, and the bytes are run.

Both ends of that chain are pinned on their own. `WordRecord.DecodeIs` gives every field of the record of every
word. `Semantics` says what the interpreter does with each opcode without naming it; `Translated.TranslationDoes` says
what running the bytes of each translation does. They part, for instance, on shifts: the interpreter knows none, LSR
words are translated as ASR (right exactly for registers without a sign, `Translated.LsrIsAsr`), LSL words as NOP.

Flag merging is not invisible. A spill keeps RAX, RCX and RDX but leaves only bit 7 of R9, shifted, in R9 and
in the host's ZF, and a conditional exit reads the host flags. So `MOVZ X7, #0x80; SUB X1, X1, #1; SUB X2, X2,
#1; B.EQ t` leaves its block differently before and after merging, from every entry state
(`ExactWords.MarkedWordsPart`), and `MergedCode.MergedRunsAlike` gives the exact condition. Against an ideal
reading of the IR, in which a setter writes the ARM flags and a branch reads them, the pass is right
(`FlagMerging.MergingPreservesMeaning`).

A block may be larger than its slot. The emitter then drops what does not fit, and the block is cached and called all
the same. `Clipped.ClippedRuns` says what the bytes that are left do: the block returns if and only if its accesses
are mapped and its path up to the exit lies inside the slot, and runs over the end of the slot otherwise. 61 words of
SUB with an immediate and MOVZ by turns never return (`ExactWords.TurnsRunOut`).

Reading conventions. A bit-or of fields that cannot overlap is written as a sum. Slot 31 of the register
file is SP, for the interpreter (the array is followed by `sp`) and for emitted code. The x86 model keeps
code and data apart and `ret` ends a run without reading the stack; flags the SDM leaves undefined (AF
behind logical operations and shifts, OF behind a shift by more than one) are taken as clear. The host registers and flags of each block call are arbitrary. The translation of a branch ends a block although a source comment says the loop stops
before branches (src/core/exec_engine.cpp:310); the model follows the code. A comment promises that
`save_nzcv` maps the host flags to bits 31..28 (src/backend/x86_64_lower.cpp:24-26); `Spill` proves what
the emitted bytes do instead. Several proofs `hide` definitions they do not need.

## Model

| member | source | states |
|---|---|---|
| `Decoder.DecodeShape` | src/decoder/arm64_decoder.cpp:21-148 | whatever route a word takes through the attempts, a decoded instruction has register numbers in range, an immediate in its field's range, a branch opcode exactly with a branch category, and never category SYSCALL |
| `Targets.BranchTarget` | src/decoder/arm64_decoder.cpp:76-79 | for every B and BL word and every pc, routing and IR building give the target pc + 4 * signed(imm26) modulo 2^64, and BL links pc + 4 in X30 first |
| `Targets.PageTarget` | src/decoder/arm64_decoder.cpp:566-577 | every ADRP word loads page(pc) + 4096 * signed(imm21) modulo 2^64 into its destination |
| `Targets.AdrDecodes` | src/decoder/arm64_decoder.cpp:28-31 | an ADR word decodes if and only if the two low bits of its offset are zero, and then loads pc + signed(imm21) |
| `Targets.AddSubImmediate` | src/decoder/arm64_decoder.cpp:278-306 | every add/subtract-immediate word yields its operation, rd, rn and shifted immediate in the decoded record and in the IR; its flag bit is read right if and only if bits 30 and 29 agree |
| `Targets.UnsignedOffsetMisread` | src/decoder/arm64_decoder.cpp:418-507 | a 64-bit LDR or STR with an unsigned offset, whose bits 28..26 are 110, is read as a register offset: the access goes to base + 8 * imm12 if and only if the register named by the offset bits happens to hold that number |
| `Targets.CondOffsetMisread` | src/decoder/arm64_decoder.cpp:390-411 | B.cond and 64-bit CBZ and CBNZ go to pc + 4 * signed(imm19) if and only if bits 18..0, which the decoder reads, and bits 23..5 hold the same non-negative number |
| `Targets.NarrowCompareRefused` | src/decoder/arm64_decoder.cpp:113-115 | 32-bit CBZ and CBNZ words never decode |
| `WordTable.TableHolds` | src/decoder/arm64_decoder.cpp:21-148 | for every 32-bit word: it decodes if and only if the table over group (bits 31..29), form (bits 28..24) and a few lower bits has a row for it, with just that opcode and flag mark |
| `WordRecord.DecodeIs` | src/decoder/arm64_decoder.cpp:21-620 | for every 32-bit word that decodes, every field of the record from the word's bits: registers, immediates, offsets, shift, size, condition and category of each group |
| `ExactWords.OpcodesReached` | src/decoder/arm64_decoder.cpp:21-148 | the opcodes some word decodes to are exactly the 41 listed: no register MOV (0x20), CMP or TST (0x30, 0x31), CSEL (0x40), 32-bit load or store (0x62, 0x72), LDP or STP (0x80, 0x81) |
| `ExactWords.WordAgrees` | src/core/exec_engine.cpp:47-237 | for every word that decodes and every pc, running its translation does what the interpreter does in every state if and only if the word is an `ExactWord`, a condition on its bits |
| `ExactWords.PairsLost` | src/decoder/arm64_decoder.cpp:56-87 | every LDP and STP word decodes to AND and becomes one NOP |
| `ExactWords.ComparesAreAccesses` | src/decoder/arm64_decoder.cpp:81-115 | every 64-bit register compare decodes to a 64-bit load or store, by bit 22 |
| `ExactWords.TestBranchesSwapped` | src/decoder/arm64_decoder.cpp:44-47 | no TBZ or TBNZ word decodes, and the words with top byte 0x6C to 0x6F decode to TBZ and TBNZ |
| `ExactWords.SubtractionsMarked` | src/decoder/arm64_decoder.cpp:278-306 | a word decodes to a marked SUB if and only if it is a SUB with an immediate, and no word decodes to a marked ADD |
| `ExactWords.MovesAreOrr` | src/decoder/arm64_decoder.cpp:81-87 | MOV between registers, an ORR word, decodes to ORR |
| `Semantics.Logical` | src/core/exec_engine.cpp:74-82 | AND, ORR and EOR combine the two registers digit by digit and change nothing else |
| `Semantics.Moves` | src/core/exec_engine.cpp:49-61 | MOVZ writes the immediate; MOVK replaces just the sixteen digits of the halfword that bits 22..21 of the word name; MOVN writes the complement of the placed immediate |
| `Semantics.Arithmetic` | src/core/exec_engine.cpp:68-73 | ADD and SUB take the immediate modulo 2^64, also where the record names a second register |
| `Semantics.Addresses` | src/core/exec_engine.cpp:62-67 | ADR counts from the pc, ADRP from the start of its page |
| `Semantics.Others` | src/core/exec_engine.cpp:83-85 | register moves, selects, NOP; compares change the flags only |
| `Semantics.ConditionPassed` | src/core/exec_engine.cpp:21-45 | a condition is one of eight predicates on bits 31..28 of nzcv, negated for odd numbers, 15 included |
| `Semantics.Jumps` | src/core/exec_engine.cpp:170-182 | B, BL, BR and RET go to pc plus offset, or to the register they name; BL leaves pc + 4 in X30 |
| `Semantics.Branches` | src/core/exec_engine.cpp:183-206 | B.cond, CBZ, CBNZ, TBZ and TBNZ go to their target if and only if the condition passes, the register (its low 32 bits when the size is clear) is zero or not, or the bit is clear or set; to pc + 4 otherwise |
| `Semantics.Compares` | src/core/exec_engine.cpp:207-224 | after CMP each condition 0..13 holds if and only if its relation holds of the operands; after TST N and Z speak of the common digits, C and V are clear |
| `Semantics.AddressIs` | src/core/exec_engine.cpp:86-153 | byte and halfword accesses take base plus immediate; the others the first of immediate, signed immediate and shifted register that is not empty; a literal load words from the pc |
| `Semantics.Loads` | src/core/exec_engine.cpp:86-141 | a load of 1, 2, 4 or 8 bytes puts the number whose bytes stand at its address, zero-extended, into the register, or only sets the crash flag when table or host refuses |
| `Semantics.Stores` | src/core/exec_engine.cpp:112-153 | a store writes the low 1, 2, 4 or 8 bytes of the register, least significant first, touches no other byte, and is dropped without notice when refused |
| `Semantics.LoadPairs` | src/core/exec_engine.cpp:154-162 | LDP reads two words eight bytes apart into two registers, or only sets the crash flag when either is refused |
| `Semantics.StorePairs` | src/core/exec_engine.cpp:163-169 | STP stores two registers eight bytes apart, each dropped on its own when refused |
| `Semantics.UnknownBreaks` | src/core/exec_engine.cpp:231-236 | every other opcode sets the crash flag, bit 2, moves the pc on and changes nothing else |
| `WordEffects.CompareBranches` | src/core/exec_engine.cpp:186-197 | interpreting a CBZ or CBNZ word goes to its target if and only if the register it names is zero, or is not |
| `WordEffects.CompareBranchBuilt` | src/ir/ir_builder.cpp:36-370 | the builder makes of it a marked compare of that register with zero and an exit on EQ or NE to the same target |
| `WordEffects.RegisterBranches` | src/core/exec_engine.cpp:177-182 | BR and RET words go to the register they name; the builder makes a NOP of BR and an exit by the lr slot of RET |
| `Translated.TranslationDoes` | src/ir/ir_builder.cpp:36-370 | for every record without flag spill, conditional exit or pair, at every pc and in every state: running its bytes leaves exactly the stated register, memory word or pc |
| `Translated.ShiftWords` | src/ir/ir_builder.cpp:69-94 | running the translation of a word read as ASR, LSR or LSL leaves the signed quotient, the quotient or the product of rn and 2^immr, modulo 2^64, in rd and every other register as it was |
| `Translated.AsrIsRight` | src/decoder/arm64_decoder.cpp:308-336 | an ASR word is translated right in every state |
| `Translated.LsrIsAsr` | src/decoder/arm64_decoder.cpp:308-336 | an LSR word is translated as ASR: right if and only if the register has its top bit clear or the amount is zero |
| `Translated.LslIsLost` | src/decoder/arm64_decoder.cpp:308-336 | an LSL word is translated as NOP |
| `Translated.LslAmount` | src/decoder/arm64_decoder.cpp:308-336 | for the words read as LSL, shifting by bits 21..16 is what UBFM does on all registers if and only if they hold 32 |
| `WordEffects.BuildsOn` | src/ir/ir_builder.cpp:20-29 | the builder goes on behind an instruction if and only if its category is no branch and no syscall |
| `IR.Build` | src/ir/ir_builder.cpp:13-34 | the loop appends the IR of every instruction up to and including the first that ends a block, counts them and sets the end pc |
| `FlagMerging.UsedBefore` | src/ir/ir_optimizer.cpp:30-38 | the inner scan says whether the flags are read before they are set again |
| `FlagMerging.MergeFlags` | src/ir/ir_optimizer.cpp:25-44 | the in-place pass clears the mark exactly where the next operation sets the flags and does not read them, and changes nothing else |
| `FlagMerging.ClearedUnread` | src/ir/ir_optimizer.cpp:25-44 | for any list, a mark is cleared if and only if the next operation sets the flags and none reads them before they are set again; nothing else changes |
| `FlagMerging.MergedTwice` | src/ir/ir_optimizer.cpp:25-44 | the pass is idempotent |
| `MergedCode.MergedRunsAlike` | src/ir/ir_optimizer.cpp:25-44 | for blocks of any length, running the bytes of the unmerged and of the merged block leaves the same context and memory up to the pc slot; the pc slots differ if and only if the block leaves by a conditional exit with distinct targets whose condition reads ZF, the flags come from a spill right behind a cleared one, and bit 7 of R9 was set in front of that run of setters |
| `MergedCode.SpilledExit` | src/backend/x86_64_lower.cpp:279-311 | a conditional exit right behind a marked setter is decided by bit 7 of R9, whatever the operands |
| `MergedCode.ShiftedExit` | src/backend/x86_64_lower.cpp:279-311 | a conditional exit right behind a shift by an immediate is decided by the host flags of that shift |
| `ExactWords.MarkedWordsPart` | src/backend/x86_64_lower.cpp:279-311 | MOVZ X7, #0x80, two words that subtract an immediate, and B.EQ: for each of these programs, at every pc and from every entry state, merging changes the exit |
| `ExactWords.OverflowExit` | src/backend/x86_64_lower.cpp:279-311 | a word decoded as shift right by one, then B.VS: at every pc the code branches if and only if the operand had its top bit set, as the SDM defines OF for a one-bit shift |
| `FlagMerging.BuiltListMarks` | src/ir/ir_builder.cpp:36-370 | the builder marks only such operations and none that also reads the flags |
| `Emitter.DecodeEncode` | src/backend/x86_64_emitter.cpp:45-232 | the bytes of one emitter call, whatever follows, decode to one instruction of exactly that length: the one asked for, except that the one-register forms name register 8 * (reg & 1) + (reg & 7) |
| `Emitter.FaithfulMeaning` | src/backend/x86_64_emitter.cpp:113-132 | a call that is no RIP slip says what was asked if and only if `(reg & 1) == (reg >> 3)` for the one-register forms |
| `Disassembly.DisassembleEmitted` | src/backend/x86_64_emitter.cpp:45-412 | for any sequence of calls, linear disassembly returns exactly that sequence and uses every byte, if and only if every call is faithful: no base with low bits 101 and zero displacement, no one-register form on a register whose two bits differ |
| `CodeBuffer.X86Emitter.SetBuffer` | src/backend/x86_64_emitter.cpp:8-12 | starts a window of the pool with nothing emitted |
| `CodeBuffer.X86Emitter.EmitByte` | src/backend/x86_64_emitter.cpp:14-16 | appends one byte if the window has room, drops it otherwise, and touches nothing outside the window |
| `CodeBuffer.X86Emitter.EmitDword` | src/backend/x86_64_emitter.cpp:23-28 | appends four bytes, least significant first |
| `CodeBuffer.X86Emitter.EmitQword` | src/backend/x86_64_emitter.cpp:30-33 | appends eight bytes, least significant first |
| `CodeBuffer.X86Emitter.MovRegImm` | src/backend/x86_64_emitter.cpp:45-50 | appends the encoding of a 64-bit immediate move |
| `CodeBuffer.X86Emitter.RegReg` | src/backend/x86_64_emitter.cpp:52-86 | appends the encoding of a two-register operation |
| `CodeBuffer.X86Emitter.RegImm` | src/backend/x86_64_emitter.cpp:336-412 | the six immediate operations on any register with any 64-bit immediate: the short form below 2^32 with the REX bit taken from bit 0 of the register, the hand-written long form from there on |
| `Emitter.LongBytes` | src/backend/x86_64_emitter.cpp:336-412 | the bytes of the long forms of ADD, SUB and CMP, one by one |
| `CodeBuffer.X86Emitter.ShiftRegImm` | src/backend/x86_64_emitter.cpp:113-132 | appends a shift by an immediate, REX bit taken from bit 0 of the register |
| `CodeBuffer.X86Emitter.MovRegMem` | src/backend/x86_64_emitter.cpp:184-207 | appends a load with the ModRM, SIB and displacement form chosen by base and displacement |
| `CodeBuffer.X86Emitter.MovMemReg` | src/backend/x86_64_emitter.cpp:209-232 | appends a store with the form chosen likewise |
| `CodeBuffer.X86Emitter.PatchDword` | src/backend/x86_64_emitter.cpp:414-418 | overwrites four bytes of the window, emitted or not, and nothing else; nothing at all if they do not lie in it |
| `Lowering.IRLowering.SaveFlags` | src/backend/x86_64_lower.cpp:28-73 | appends exactly the encoded calls of the flag spill |
| `Lowering.IRLowering.LowerConditional` | src/backend/x86_64_lower.cpp:279-328 | the inverted jump, the taken exit and the fall-through exit, the jump's displacement back-patched to the cursor, which stops at the end of the window, or left zero if it does not lie in the window |
| `Lowering.IRLowering.LowerOne` | src/backend/x86_64_lower.cpp:95-436 | every operation appends exactly its code, long immediate forms, INT3 and VEC_DUP included |
| `Lowering.IRLowering.LowerBlock` | src/backend/x86_64_lower.cpp:81-93 | the window, whatever its size, holds prologue, operations in order and final exit as far as it has room, byte for byte |
| `View.StoreSlot` | src/core/cpu_context.hpp:8-17 | an 8-byte store to word i of the context changes exactly register slot i (SP at 31), pc, lr or nzcv of the view |
| `HostImage.ImageView` | src/core/cpu_context.hpp:8-40 | laying a guest state out in host memory and viewing it gives it back |
| `Refine.BlockRefines` | src/backend/x86_64_lower.cpp:81-436 | for every flag-free IR block of any length and every machine state with its accesses mapped, decoding and running the emitted bytes returns with the context and memory the IR denotes |
| `Exact.BlockAgreement` | src/core/exec_engine.cpp:47-237 | for every list of `JitExact` instructions, the denotation of the built IR is the fold of the interpreter over the list |
| `Converse.InexactParts` | src/ir/ir_builder.cpp:36-370 | for every decoded instruction outside `JitExact`, at every pc, a state with the context apart from guest memory and allowed accesses in which running the bytes of its translation faults or leaves another context or memory than the interpreter |
| `Converse.ExactIffAgrees` | src/core/exec_engine.cpp:47-237 | for every decoded instruction, `JitExact` holds if and only if, in every such state and for all host registers and flags, running the bytes returns with the context and memory the interpreter leaves, the stack word aside |
| `Pipeline.TranslationExact` | src/core/exec_engine.cpp:315-323 | for every list of `JitExact` instructions, every context and every memory, running the bytes of build, merge and lower leaves the registers, pc, nzcv, vector bytes and memory of interpreting the list |
| `Pipeline.ExactFits` | src/core/exec_engine.cpp:319-323 | the code of at most 64 exact instructions fits the 4096-byte slot |
| `Steps.OpRuns` | src/backend/x86_64_lower.cpp:95-436 | the code of every operation that stays in the block runs through if and only if the listed accesses are mapped, and then keeps the mapping, RSP and R12 |
| `Steps.SpillRuns` | src/backend/x86_64_lower.cpp:28-73 | the spill runs through if and only if its three scratch words, the nzcv slot and one stack word are mapped |
| `ControlFlow.BlockRuns` | src/backend/x86_64_lower.cpp:81-93 | for every IR block (no SYSCALL, no VEC_DUP, no immediate above 32 bits) and every entry state, the outcome of running its bytes: the machine behind the last operation with the exit pc stored, or a fault on the first access that is not mapped |
| `ControlFlow.BlockSafe` | src/backend/x86_64_lower.cpp:75-93 | the bytes reach a `ret` if and only if every access on the way is mapped, with RSP as on entry, R12 the context pointer and the pc of the first transfer, a legal one, in the pc slot |
| `ControlFlow.TranslationReturns` | src/core/exec_engine.cpp:315-323 | for every block of decoded instructions after merging: with the context, the stack word and the guest accesses along the run mapped, the bytes reach that `ret` |
| `ControlFlow.ConditionalRuns` | src/backend/x86_64_lower.cpp:305-327 | the patched jump lands on the first byte of the fall-through exit; the pc slot is the only access, and mapped it receives the fall-through pc exactly when the inverted condition holds |
| `Spill.SpillEffect` | src/backend/x86_64_lower.cpp:28-73 | the exact machine behind the spill: RAX, RCX and RDX as before, R9 reduced to its bit 7 shifted left by 28, ZF set exactly if that bit was clear and the other condition flags fixed, five words of memory written |
| `Spill.SaveNzcvKeepsOnlyClearFlags` | src/backend/x86_64_lower.cpp:24-73 | in every state, running the emitted spill leaves an nzcv word whose four flags read as clear, so it saves the flags if and only if none was set, and bytes 512..535 of the context, vector registers, hold RAX, RCX and RDX |
| `Conditions.ConditionTable` | src/backend/x86_64_lower.cpp:283-301 | for all 64-bit operands and conditions 0..13, the chosen host condition after the host compare, the interpreter's check of its own flags and the signed or unsigned relation meant are equivalent |
| `Conditions.InvertedNegates` | src/backend/x86_64_lower.cpp:305-306 | `cc ^ 1` negates every condition in every flag state |
| `Conditions.AlwaysAndNever` | src/backend/x86_64_lower.cpp:299-300 | AL and NV agree with the interpreter after a compare if and only if the operands differ |
| `Conditions.AddFlags` | src/backend/x86_64_lower.cpp:279-311 | the host flags an exit behind an unmarked ADD reads, in words of the operands |
| `MergedCode.ShiftFlagsMean` | src/backend/x86_64_lower.cpp:279-311 | the host flags an exit behind a shift reads: the last digit shifted out, and the result |
| `Conditions.RflagsPlaces` | src/backend/x86_64_lower.cpp:33-36 | the places of the flags in the word the spill saves |
| `Conditions.TestTable` | src/backend/x86_64_lower.cpp:283-301 | after TST a condition agrees with the interpreter if and only if it is not HS or LO, nor HI or LS with a non-zero result |
| `CodeSize.SpillSize` | src/backend/x86_64_lower.cpp:28-73 | one flag spill is 135 bytes |
| `CodeSize.InstrSize` | src/backend/x86_64_lower.cpp:95-436 | the code of an operation is at most its bound (44 for a conditional exit, 38 otherwise) plus its spill |
| `CodeSize.BlockFits` | src/core/exec_engine.cpp:297-323 | at most 64 decoded instructions with at most 12 spills left after merging are emitted within 4096 bytes |
| `CodeSize.BlockOverflows` | src/backend/x86_64_emitter.cpp:14-16 | a block with 31 or more spills left never fits |
| `Lowering.EmittedFits` | src/backend/x86_64_emitter.cpp:14-16 | a window with room for the block holds exactly its code, a smaller one is full |
| `Clipped.ClippedRuns` | src/backend/x86_64_emitter.cpp:14-16 | for every block, every window and every entry state: the bytes in the window return if and only if every access on the way is mapped and the path up to the exit lies inside the window, and then do what the whole block does; otherwise they fault or run over the end of the window |
| `Clipped.OverflowRunsOut` | src/core/exec_engine.cpp:319-326 | a block with 31 or more spills left never returns, from any entry state |
| `ExactWords.TurnsRunOut` | src/core/exec_engine.cpp:297-326 | SUB with an immediate and MOVZ by turns, 61 words or more, all decode, and their slot never returns |
| `RegAlloc.ArmOrder` | src/backend/x86_64_regalloc.cpp:18-42 | X0 to X12 take the thirteen usable host registers in ascending order, X13 to X15, X29, X30 and SP share with X4 to X6, X7, X9 and X0, the others have none |
| `RegAlloc.ArmToX86` | src/backend/x86_64_regalloc.cpp:18-42 | no guest register is mapped to RSP, RBP or R12 |
| `RegAlloc.X86RegAlloc.ResetAll` | src/backend/x86_64_regalloc.cpp:11-16 | every register is free, nothing is owned |
| `RegAlloc.X86RegAlloc.AllocVreg` | src/backend/x86_64_regalloc.cpp:48-67 | returns the register already owned, else the lowest free one, else RAX; keeps forward and reverse maps inverse and a mask bit clear exactly when one virtual register owns the register; a number of 256 or above gets RAX and changes nothing |
| `RegAlloc.X86RegAlloc.GetVreg` | src/backend/x86_64_regalloc.cpp:69-72 | a register returned is busy and owned by just this virtual register; NONE means that no busy register is owned by it |
| `RegAlloc.ServeStable` | src/backend/x86_64_regalloc.cpp:48-67 | no later request moves a register that was given |
| `RegAlloc.FirstSixteen` | src/backend/x86_64_regalloc.cpp:48-67 | after a reset the first sixteen distinct requests get the sixteen registers in order |
| `RegAlloc.SeventeenthShares` | src/backend/x86_64_regalloc.cpp:64-66 | the seventeenth distinct request is answered with RAX, which the first still owns, and changes nothing |
| `Cache.TranslationCache.LookupBlock` | src/cache/translation_cache.cpp:36-48 | a hit counts, stamps and, from 100 hits on, promotes the block; a miss changes nothing |
| `Cache.TranslationCache.InsertBlock` | src/cache/translation_cache.cpp:50-72 | evicts when at capacity, then overwrites the entry with a fresh one and a new stamp |
| `Cache.TranslationCache.InvalidateBlock` | src/cache/translation_cache.cpp:74-79 | marks one entry invalid |
| `Cache.TranslationCache.InvalidateBlocks` | src/cache/translation_cache.cpp:81-87 | marks exactly the entries in the range invalid, in whatever order the map is iterated |
| `Cache.TranslationCache.AllocHostCode` | src/cache/translation_cache.cpp:89-100 | hands out the next pool bytes; an exhausted pool yields nothing but still evicts |
| `Cache.TranslationCache.PromoteHot` | src/cache/translation_cache.cpp:102-108 | makes an entry hot with 100 hits |
| `Cache.TranslationCache.EvictOne` | src/cache/translation_cache.cpp:110-127 | the scan with a running minimum removes the coldest valid non-hot entry, whatever the iteration order |
| `Cache.StampsDistinct` | src/cache/translation_cache.cpp:36-72 | after any sequence of calls the stamps are pairwise distinct and at most the counter |
| `Cache.EvictsLeastRecent` | src/cache/translation_cache.cpp:110-127 | after any sequence of calls eviction removes an entry if and only if it is valid, not hot, and its last insertion or hit is the oldest among such entries in the history of calls; nothing else changes |
| `Cache.HotByHistory` | src/cache/translation_cache.cpp:36-72 | after any sequence of calls the hit count of an entry is the number of lookups that hit since its last insertion, from 100 on after a promotion, and it is hot if and only if that number reaches 100 |
| `Cache.HotMeansHundredHits` | src/cache/translation_cache.cpp:39-44 | after any sequence of calls a block is hot if and only if it has at least 100 hits |
| `Cache.Coherent` | src/cache/translation_cache.cpp:36-87 | after any sequence of calls a lookup hits with given contents if and only if some insertion of just these is not followed by another insertion of the pc, an invalidation covering it or its eviction |
| `Cache.GrowthBound` | src/cache/translation_cache.cpp:50-72 | after any sequence of calls there are at most max(capacity, pinned + 1) entries, pinned counting hot and invalid ones |
| `RunLoop.BlockShape` | src/core/exec_engine.cpp:296-323 | a collected block is at most 64 consecutive words that decode and are no SVC, with a branch only at the end, and the builder consumes all of it, so its end pc is the engine's fall-through pc |
| `LoopSteps.BlockMaximal` | src/core/exec_engine.cpp:296-314 | a block goes on as far as it can: 64 instructions, or a branch at its end, or a next word that is not mapped, an SVC or does not decode |
| `LoopSteps.SvcMask` | src/core/exec_engine.cpp:258 | the words taken for SVC are exactly those with `w & 0xFFE0001F` equal to `0xD4000001` |
| `LoopSteps.SyscallStep` | src/core/exec_engine.cpp:258-265 | at an SVC that is no cached block the kernel is called with pc + 4 and all else as it was; then X0 is its sign-extended result and all else what the kernel left; cache and pool stay |
| `LoopSteps.SyscallInterpreted` | src/core/exec_engine.cpp:258-265 | plain interpretation makes the same call |
| `LoopSteps.RunningFlags` | src/core/exec_engine.cpp:244-246 | the loop goes on while bits 2 and 3 of the state flags are clear |
| `LoopSteps.LoopStops` | src/core/exec_engine.cpp:242-246 | the loop stops if and only if one of those bits is set or ten million iterations were made |
| `LoopSteps.TranslatesWhile` | src/core/exec_engine.cpp:315-320 | a miss is translated if and only if its first word can be taken and 4096 of the 64 MiB of the pool are left |
| `LoopSteps.FaultCrashes` | src/core/exec_engine.cpp:334-355 | calling a block with an unmapped access on its way leaves the guest as it was, stopped |
| `RunLoop.IterationProgress` | src/core/exec_engine.cpp:244-284 | every iteration raises the counter or leaves a state the loop stops in |
| `RunLoop.RunsEnd` | src/core/exec_engine.cpp:239-288 | no run has more than 10000001 iterations, the decode-failure path included |
| `RunLoop.SlotsNeverInterfere` | src/core/exec_engine.cpp:319-329 | in every run the cached blocks keep pairwise distinct 4096-byte slots in the pool, no byte below an allocation mark changes again, and at most 16384 translations succeed |
| `RunLoop.SlotsDisjoint` | src/cache/translation_cache.cpp:97-99 | blocks in distinct slots do not overlap |
| `WholeRun.BlockReached` | src/core/exec_engine.cpp:298-314 | along a good run, the instructions collected at the pc are exactly the ones interpretation executes next, with allowed accesses |
| `WholeRun.ExecuteExact` | src/core/exec_engine.cpp:334-355 | calling the code of an exact block on a laid-out context is interpreting the block |
| `WholeRun.IterationExact` | src/core/exec_engine.cpp:244-284 | one iteration, by hit, fresh translation, syscall, crash or interpreter fallback, is exactly `arm_instr_count` (or one) interpreter steps and keeps every cached block a translation of the text |
| `WholeRun.WholeRunExact` | src/core/exec_engine.cpp:239-332 | for every program whose reached instructions are `JitExact`, an SVC or undecodable, and every run of the loop, every state at its head is the state of plain interpretation after the counted number of steps |
| `WholeRun.SpinIsGood` | src/core/exec_engine.cpp:239-332 | the hypothesis of the theorem is met by a program that branches to itself |
| `Driver.CollectBlock` | src/core/exec_engine.cpp:295-314 | the collecting loop computes the block the state machine speaks of |
| `Driver.BuildMerged` | src/core/exec_engine.cpp:316-318 | builder and optimizer give the merged IR and the instruction count |
| `Driver.EmitBlock` | src/core/exec_engine.cpp:319-323 | the slot receives the code as far as it has room, and no other pool byte changes |
| `Driver.ExecEngine.TranslateBlock` | src/core/exec_engine.cpp:290-332 | translates exactly when there is an instruction and pool space, with the cache, pool and block of the state machine |
| `Driver.ExecEngine.ExecuteBlock` | src/core/exec_engine.cpp:334-355 | runs the bytes of a valid block, does nothing for an invalid one |
| `Driver.ExecEngine.Miss` | src/core/exec_engine.cpp:253-283 | what follows a cache miss is one iteration of the state machine |
| `Driver.ExecEngine.Run` | src/core/exec_engine.cpp:239-288 | the loop terminates, leaves a run of the state machine from the given pc, stops only when crashed, exited, out of iterations, or at a pc that is neither a cached block nor mapped, and for good programs ends in a state of plain interpretation |
| `Loader.MemoryManager.Mmap` | src/core/memory_manager.cpp:33-47 | rounds to pages, takes the hint or the next free address, and on success zeroes the range and adds its region |
| `Loader.FreshRanges` | src/core/memory_manager.cpp:178-183 | in any sequence of mappings the ranges given without a hint never overlap, until the addresses reach the end of the address space |
| `Loader.MemoryManager.Mprotect` | src/core/memory_manager.cpp:68-77 | changes the permissions of the first region that starts at the address |
| `Loader.FirstReprotected` | src/core/memory_manager.cpp:68-77 | over any table exactly the first region that starts at the address changes |
| `Loader.FirstDecides` | src/core/memory_manager.cpp:185-196 | over any table, overlapping regions included, the first region that holds the whole access decides, and none refuses |
| `Loader.ContainsMeans` | src/core/memory_manager.cpp:185-196 | a region holds an access that lies in it, and one that runs around the end of the address space and stops in front of the region's end |
| `Loader.MemoryManager.Allowed` | src/core/memory_manager.cpp:185-196 | the first region holding the whole access decides; executable regions are readable |
| `Loader.LoadOne` | src/elf/elf_loader.cpp:131-173 | for any header: maps, fills and protects one segment, fails with the memory unchanged when the host refuses, or faults |
| `Loader.CopySegment` | src/elf/elf_loader.cpp:152-168 | for any header: copies the file bytes, zeroes the rest of the segment and the start of its first page, or faults |
| `Loader.CopyFaults` | src/elf/elf_loader.cpp:152-168 | the copying faults if and only if it reads past the file or writes where nothing is mapped |
| `Loader.LoadableStep` | src/elf/elf_loader.cpp:131-173 | a well-formed header never makes the loader fault: its segment is loaded if and only if the host accepts its pages |
| `Loader.LoadSegments` | src/elf/elf_loader.cpp:124-177 | for any headers: loads the PT_LOAD ones in order up to the first the host refuses or the first that faults |
| `Loader.ImageLoaded` | src/elf/elf_loader.cpp:124-177 | for any number of well-formed segments, also ones that share pages, every byte of their pages is that of the last segment that maps its page, a file byte inside its file part and zero elsewhere, so a later segment wipes what an earlier one put on a shared page; all other memory is untouched (System V gABI chapter 5, Program Loading) |
| `Loader.RegionsLoaded` | src/elf/elf_loader.cpp:124-177 | for page-disjoint segments the table gains exactly one region per segment with its own permissions |
| `Loader.ProtMeans` | src/elf/elf_loader.cpp:131-134 | PF_R is 4, PF_W 2, PF_X 1, whatever the other bits |
| `Loader.PagesLeast` | src/elf/elf_loader.cpp:136-139 | the pages mapped for a segment are the least range of 4096-byte pages that holds it |
| `Loader.PermissionsByFlags` | src/core/memory_manager.cpp:185-196 | after loading, an access inside a segment's pages is answered by its p_flags: read by PF_R or PF_X, write by PF_W |

## Left out

- Syscall handlers, signals, setjmp/longjmp and INT3 interception: a syscall is an arbitrary function of the guest state; a fault inside a block sets the crash flag, without the partial effects before the fault.
- Running over the end of a slot: `RunLoop.Execute` counts it as a crash; on the host the code runs on into the bytes of the next slot, whose effects are not modelled.
- `read_u32` on unmapped memory: the source dereferences the address; in the model it ends the block or the run.
- Conditional branches end to end: `save_nzcv` and JMP_COND do not agree with the interpreter; the condition table, the two-exit shape, the exact effect of the spill and what decides the exit behind it are proved instead.
- Self-modifying code: `mark_translated_page` only records pages, so the whole-run theorem asks that the program text stays as it is.
- SIMD: `decode_simd` is unreachable and the vector operations lower to NOP or raw bytes; their effects are not modelled.
- IR opcodes the builder never produces (MUL, AND, OR, XOR, shifts by CL) and the emitter calls only they use, imul, cmov and movzx among them.
- Block chaining, AOT files, dynamic linker, threads, profiler, logging, main and its stack setup: input/output, stubs or code nothing calls.
- Host ABI: emitted code overwrites callee-saved registers; nothing is claimed about them.
- Counters: hit and access counters are unbounded here; the methods that scan for a minimum ask that the access counter has not reached 2^64 - 1.
- Faults in the loader: every access outside what is mapped counts as a fault, also where address arithmetic wraps into host memory; the space it leaves is not modelled.
- Host page permissions: the host's own read, write and execute bits are not modelled, only the region table; which mappings the host accepts is a parameter.
- munmap, brk and the read/write helpers of the memory manager other than their permission check and effect.
- Cache.TranslationCache.LookupBlock: returns a copy of the entry, not a pointer into the map, so aliasing of the entry is not captured.
- RegAlloc.X86RegAlloc.AllocVreg: a number of 256 or above while a register is free is not covered; the source then writes outside its table.
- FlagMerging.MergingPreservesMeaning: about an ideal reading of the IR, which the emitted code does not follow; `MergedCode.MergedRunsAlike` is about the code.
- Converse.NegativePairStores: about decoded records only; no word decodes to STP.
