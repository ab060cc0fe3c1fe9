# dlang_vm in Dafny

A model of the core of **dlang_vm**. dlang_vm is a virtual machine for a small tagged stack language. It runs programs through several tiers:

- **B-code** is the textual bytecode.
- B-code is lowered to **U-code**, micro-instructions over machine registers, stack slots and heap cells.
- U-code is lowered to **T-code**, the same instructions over symbolic variables.
- T-code passes through optimization passes and is lowered back to U-code.
- A JIT-policy tier decides which code sequences to compile.

The model covers the following layers. Each layer has value-level definitions, and the classes and loops of the C++ code are proved against them.

- **Machine words and tagged memory** (`words.dfy`, `memory.dfy`, `exceptions.dfy`, `decimal.dfy`):
  - 32-bit `int` and 64-bit `size_t` arithmetic, written out as explicit wrap-around.
  - The tag enumeration and a `Memory` class of tagged cells that grows through a memory manager (none, `NoAllocation`, `AmortizedAllocation`).
  - The exception messages.
- **Data structures** (`code.dfy`, `int_set.dfy`, `flow_graph.dfy`):
  - `Code`, an append-only instruction store.
  - `IntSet`, a bit-word set.
  - `FlowGraph`, a graph with line order, pending edges and blocks.
- **B-code** (`bcode.dfy`, `decoder.dfy`, `builder_labels.dfy`):
  - the instruction set and its role table;
  - the text decoder (`fromString` and `getInstructionFromTokens`) with its label pre-pass.
- **The virtual machine** (`vm.dfy`, `gc.dfy`, `interpret.dfy`, `execute.dfy`):
  - the machine state and its `toString`;
  - the mark-and-sweep collector;
  - the B-instruction interpreter, specified per opcode by a step function on values and implemented by methods on a `VirtualMachine` object.
- **The Python reference interpreter** (`meta.dfy`): `meta_dlang_vm.py`, modelled on an object store so that the sharing of Python lists and items is kept.
- **U-code** (`ucode.dfy`, `lowering_shape.dfy`, `lower_u.dfy`, `lower_u_closure.dfy`, `lower_u_control.dfy`, `lower_u_dispatch.dfy`):
  - U-arguments and U-instructions, and the composite U-builders;
  - the lowering of every B-instruction to U-code.
  - Each lowering is described by the effects it performs (writes, stores and tag checks) and by its closing register updates.
- **T-code** (`t_arguments.dfy`, `t_effects.dfy`, `t_state.dfy`, `t_instructions.dfy`, `t_lowering.dfy`):
  - T-variables and their uids, and side-effect records;
  - the symbolic `TState` with its sp/fp slot tracking;
  - the T-instructions with `fold`, `propagate`, `getEffects`, read and write sets, and re-lowering;
  - the U-to-T lowering.
- **Optimizations** (`opt_graph.dfy`, `constant_folding.dfy`, `copy_propagation.dfy`, `dead_code.dfy`, `unused_writes.dfy`, `optimizations_sequence.dfy`):
  - the common graph-building and removal frame;
  - the four passes;
  - the pass sequence for functions and traces.
- **JIT policies and JIT bookkeeping** (`jit_policies.dfy`):
  - `JITSequence` and the `TracingJIT` policy;
  - the branch bookkeeping of `JITState`.

### Notes on the code

The model follows the code, including where the two interpreters differ:

- Flow-graph branch edges are added only in function mode. In trace mode a branch adds no edge.
- The C++ `Apply` does not check that its closure cell carries `ClosureHeader`. The Python interpreter checks it.
- The C++ `Case` interpreter writes the new top of the stack before it checks the header tag. The U-lowering checks first.
- The B-code builder keeps the first definition of a label. The Python interpreter's label dictionary keeps the last one.
- Python's `DIV` is floor division and its result is not wrapped. C++ truncates toward zero and wraps to 32 bits.

## Model

| member | source | states |
|---|---|---|
| Words.Wrap | dlang_vm/src/b_dlang/b_instruction_interpret.cpp:42-45 | storing an `int` in a `size_t` adds 2^64 to a negative value and keeps a non-negative one |
| Words.ToInt | meta_dlang_vm.py:140-142 | `to_int` (and the C++ `(int)` cast) yields the 32-bit value congruent to its argument modulo 2^32 |
| Words.ToIntOfInt32 | meta_dlang_vm.py:140-142 | `to_int` leaves every value that already fits in 32 bits unchanged |
| Words.ToIntUnique | meta_dlang_vm.py:140-142 | any 32-bit value congruent to the argument modulo 2^32 is the one `to_int` returns |
| Words.ToIntOfWrap | dlang_vm/src/b_dlang/b_instruction_interpret.cpp:42-45 | an `int` written into a `size_t` cell and cast back to `int` is unchanged |
| Words.TruncDiv | dlang_vm/src/b_dlang/b_instruction_interpret.cpp:54-58 | C++ `int` division: agrees with Euclidean division on non-negative operands and has the sign of the exact quotient |
| Words.FloorDiv | meta_dlang_vm.py:213 | Python integer division: the quotient is the floor, so the remainder has the sign of the divisor |
| Words.DivisionsDiffer | meta_dlang_vm.py:213 | the reference interpreter and the C++ VM disagree on `-7 / 2` (-4 against -3) |
| Exceptions.SpacedIsJoinPlusSpace | dlang_vm/src/virtual_machine/exception.cpp:20 | appending each token and a space gives the single-space join followed by one space |
| Exceptions.UnknownInstructionMessage | dlang_vm/src/virtual_machine/exception.cpp:17-23 | the message quotes the undefined token and the whole instruction, its tokens joined by single spaces and closed by a quote |
| Exceptions.BuildUnknownInstruction | dlang_vm/src/virtual_machine/exception.cpp:17-23 | the loop that appends tokens and overwrites the last character produces exactly the message `what()` returns |
| Decimal.NatToString | dlang_vm/src/t_dlang/t_argument.cpp:24 | `std::to_string` of a non-negative number is a non-empty digit string without a leading zero |
| Decimal.IntToString | dlang_vm/src/virtual_machine/virtual_machine.cpp:15 | `std::to_string` of an `int` starts with `-` exactly when the value is negative, followed by digits |
| Decimal.NatToStringRoundTrip | dlang_vm/src/t_dlang/t_argument.cpp:24 | the digits written for `n` denote `n` |
| Decimal.Stoul | dlang_vm/src/b_dlang/b_code_builder.cpp:96 | `std::stoul` either succeeds or throws `invalid_argument` or `out_of_range`, nothing else |
| Decimal.StoulOfNatToString | dlang_vm/src/b_dlang/b_code_builder.cpp:96 | `std::stoul` reads back the text of every `size_t` value |
| Decimal.StoulOfNegative | dlang_vm/src/b_dlang/b_code_builder.cpp:96 | a negative `int` literal read by `std::stoul` and cast to `int` gives the literal's value back |
| Decimal.StoulOfNegativeWord | dlang_vm/src/b_dlang/b_code_builder.cpp:96 | `std::stoul` of a negative literal is that value modulo 2^64 |
| Decimal.StoulOfMinus | dlang_vm/src/b_dlang/b_code_builder.cpp:96 | `std::stoul` of `-` followed by digits negates their value modulo 2^64 |
| Decimal.PyInt | meta_dlang_vm.py:273 | Python's `int` accepts a string only when it contains at least one digit |
| Decimal.PyIntOfIntToString | meta_dlang_vm.py:273 | Python's `int` reads back every integer's decimal text |
| TaggedMemory.TagOfCode | dlang_vm/src/virtual_machine/memory.h:7-20 | a word denotes a tag exactly when it is below 12, and then encodes that tag |
| TaggedMemory.TagCodeRoundTrip | dlang_vm/src/virtual_machine/memory.h:7-20 | the enumeration's numeric values are distinct and decode back to their tag |
| TaggedMemory.Blanks | dlang_vm/src/virtual_machine/memory.cpp:10 | a memory created with size `n` holds `n` cells, all blank |
| TaggedMemory.CopyPrefix | dlang_vm/src/virtual_machine/memory.cpp:24-26 | `copyFrom` overwrites the first `min(size, other.size)` cells with the other's and keeps the rest and the length |
| TaggedMemory.AllocateMemory | dlang_vm/src/memory_managers/no_allocation.cpp:12-18 | `NoAllocation` (and `MarkAndSweepGC`) turns an empty memory into `initialSize` blank cells and throws `RuntimeError` otherwise; `AmortizedAllocation` grows to `max(4, 2*size)`, keeping every cell |
| TaggedMemory.MemState.Allocate | dlang_vm/src/virtual_machine/memory.cpp:68-74 | allocation succeeds exactly when there is a manager that can grow this memory, keeps the manager and only adds cells; otherwise `RuntimeError` |
| TaggedMemory.MemState.CheckSize | dlang_vm/src/virtual_machine/memory.cpp:40-44 | `checkSize(idx)` passes exactly when `idx` ends up in range, changes nothing when it already was, and fails only with `RuntimeError` |
| TaggedMemory.MemState.CheckTag | dlang_vm/src/virtual_machine/memory.cpp:46-51 | `checkTag` passes exactly when the cell exists after growing and has the requested tag |
| TaggedMemory.MemState.Get | dlang_vm/src/virtual_machine/memory.cpp:53-56 | `get` returns the cell at `idx` after growing, which is the old cell when it already existed |
| TaggedMemory.MemState.GetAndCheck | dlang_vm/src/virtual_machine/memory.cpp:58-61 | `getAndCheck` returns the cell exactly when it exists and carries the requested tag |
| TaggedMemory.MemState.Set | dlang_vm/src/virtual_machine/memory.cpp:63-66 | `set` writes the item at `idx` of the grown memory and nothing else, or fails leaving the grown memory |
| TaggedMemory.CheckSizeExtends | dlang_vm/src/virtual_machine/memory.cpp:40-44 | growing never changes an existing cell |
| TaggedMemory.SetThenGet | dlang_vm/src/virtual_machine/memory.cpp:53-66 | after a successful `set(i, x)`, `get(i)` returns `x` without changing the memory |
| TaggedMemory.SetKeepsOthers | dlang_vm/src/virtual_machine/memory.cpp:63-66 | a successful `set(i, x)` leaves every other existing cell readable with its old value |
| TaggedMemory.NoManagerOutOfRange | dlang_vm/src/virtual_machine/memory.cpp:68-74 | without a manager an out-of-range access throws `RuntimeError` and changes nothing |
| TaggedMemory.NoAllocationReach | dlang_vm/src/memory_managers/no_allocation.cpp:12-18 | under `NoAllocation` an index is reachable exactly when it is in range, or the memory is empty and the index is below `initialSize` |
| TaggedMemory.NoAllocationBound | dlang_vm/src/memory_managers/no_allocation.cpp:12-18 | under `NoAllocation` no access at or beyond `initialSize` ever succeeds |
| TaggedMemory.AmortizedAlwaysReaches | dlang_vm/src/memory_managers/amortized_allocation.cpp:10-14 | under `AmortizedAllocation` every index is eventually in range, so `checkSize` always succeeds |
| TaggedMemory.Memory.constructor | dlang_vm/src/virtual_machine/memory.cpp:10 | a new memory has `size` blank cells and no manager |
| TaggedMemory.Memory.SetMemoryManager | dlang_vm/src/virtual_machine/memory.cpp:28-30 | installs the manager and keeps the cells |
| TaggedMemory.Memory.Assign | dlang_vm/src/virtual_machine/memory.cpp:16-22 | assignment takes the other memory's cells and size but keeps this memory's manager |
| TaggedMemory.Memory.CopyFrom | dlang_vm/src/virtual_machine/memory.cpp:24-26 | the cells become `CopyPrefix` of the old cells and the other's, the size and manager stay, and a distinct source is untouched |
| TaggedMemory.Memory.Allocate | dlang_vm/src/virtual_machine/memory.cpp:68-74 | the object moves to the state `Allocate` describes, or stays as it was and reports `RuntimeError` |
| TaggedMemory.Memory.CheckSize | dlang_vm/src/virtual_machine/memory.cpp:40-44 | the `while` loop reaches exactly the state and outcome of the `CheckSize` function |
| TaggedMemory.Memory.CheckTag | dlang_vm/src/virtual_machine/memory.cpp:46-51 | agrees with the `CheckTag` function on the new state and the outcome |
| TaggedMemory.Memory.Get | dlang_vm/src/virtual_machine/memory.cpp:53-56 | agrees with the `Get` function on the new state and the item |
| TaggedMemory.Memory.GetAndCheck | dlang_vm/src/virtual_machine/memory.cpp:58-61 | agrees with the `GetAndCheck` function on the new state and the item |
| TaggedMemory.Memory.Set | dlang_vm/src/virtual_machine/memory.cpp:63-66 | agrees with the `Set` function on the new state and the outcome |
| TaggedMemory.Memory.AllocateStatic | dlang_vm/src/virtual_machine/memory.cpp:79-86 | the status is 1 exactly when `allocate` throws, in which case the memory is unchanged; otherwise it is 0 and the memory is the allocated one |
| TaggedMemory.NoAllocationAllocateMemory | dlang_vm/src/memory_managers/no_allocation.cpp:12-18 | replaces an empty memory by `initialSize` blank cells and throws on any other, keeping the manager |
| TaggedMemory.AmortizedAllocationAllocateMemory | dlang_vm/src/memory_managers/amortized_allocation.cpp:10-14 | the memory becomes its old cells followed by blanks up to `max(4, 2*size)`, keeping the manager |
| CodeStore.Code.constructor | dlang_vm/src/data_structures/code.h:11 | a new code holds no instructions |
| CodeStore.Code.Size | dlang_vm/src/data_structures/code.h:15 | the size is the number of instructions added |
| CodeStore.Code.GetInstruction | dlang_vm/tests/code/code.cpp:7-15 | returns the instruction added at `index`, and throws for any index out of range |
| CodeStore.Code.Add | dlang_vm/src/data_structures/code.h:19 | appends exactly one instruction at the end |
| CodeStore.Code.AddCode | dlang_vm/tests/code/code.cpp:36-88 | `add(code)`, `+=` and `+` append the other code's instructions in order and leave a distinct other code unchanged, as the declarations in `code.h` and these tests state (their bodies are in `code.tpp`) |
| CodeStore.At | dlang_vm/src/data_structures/code.h:13 | an index is found exactly when it is in range, and then gives that instruction |
| CodeStore.AppendKeepsIndices | dlang_vm/tests/code/code.cpp:36-52 | after appending, old instructions keep their indices and the appended ones follow at shifted indices |
| BCode.IndividualRoles | dlang_vm/src/b_dlang/b_instruction.h:16-20 | every instruction starts and ends its own `Individual` group and is no entry |
| BCode.BlockRoles | dlang_vm/src/b_dlang/b_instruction.h:39-180 | every instruction either starts or ends a `Block`, and the ends are exactly the control transfers |
| BCode.FunctionRoles | dlang_vm/src/b_dlang/b_instruction.h:113-180 | only `FUNCTION` starts a function group, `RETURN` and `HALT` end one, and `APPLY` and `FUNCTION` precede an entry |
| BuilderLabels.TwoTokens | dlang_vm/src/b_dlang/b_code_builder.cpp:33-37 | splitting a line at single spaces gives back the two space-free words it was made of |
| BuilderLabels.MnemonicPrefixes | dlang_vm/src/b_dlang/b_code_builder.cpp:20-25 | among all mnemonics only `LABEL` has the prefix the label pass looks for, and only `FUNCTION` the other |
| BuilderLabels.DefiningLineDecodes | dlang_vm/src/b_dlang/b_code_builder.cpp:20-25 | a line the label pass records as a label and that decodes is a `LABEL` or `FUNCTION` instruction |
| BuilderLabels.AssembleTarget | dlang_vm/src/b_dlang/b_code_builder.cpp:114-138 | a successfully assembled jump or closure targets the recorded index of the label its second token names |
| BuilderLabels.TargetIsLabel | dlang_vm/src/b_dlang/b_code_builder.cpp:45-142 | the same holds for every instruction `getInstructionFromTokens` decodes |
| BuilderLabels.DecodedCps | dlang_vm/src/b_dlang/b_code_builder.cpp:28-42 | a decoded program has one instruction per non-empty line, and instruction `i` carries code pointer `i` |
| BuilderLabels.ExampleLabels | dlang_vm/src/b_dlang/b_code_builder.cpp:15-26 | on a program with a leading blank line the label pass records the raw line index 1 (corrected: 0) |
| BuilderLabels.ExampleDecodes | dlang_vm/src/b_dlang/b_code_builder.cpp:28-42 | the decoding pass skips the blank line and numbers the two instructions 0 and 1 |
| BuilderLabels.BlankLineShiftsLabels | dlang_vm/src/b_dlang/b_code_builder.cpp:17-24 | as written, a blank line before a label makes `GOTO` jump one past the label's instruction |
| BuilderLabels.BlankLineCorrected | dlang_vm/src/b_dlang/b_code_builder.cpp:17-24 | numbering labels by non-empty lines sends the same `GOTO` to the `LABEL` |
| BuilderLabels.CorrectedTargetsAreLabels | dlang_vm/src/b_dlang/b_code_builder.cpp:15-42 | with labels numbered by non-empty lines, every jump and closure target is a `LABEL` or `FUNCTION` instruction |
| Decoder.SplitEmpty | dlang_vm/src/b_dlang/b_code_builder.cpp:30-37 | the `getline` loop yields no piece exactly for empty text |
| Decoder.GlueSplit | dlang_vm/src/b_dlang/b_code_builder.cpp:30-37 | splitting loses nothing but a final delimiter: joining the pieces with the delimiter gives the text back |
| Decoder.GetPieces | dlang_vm/src/b_dlang/b_code_builder.cpp:35-37 | the character-scanning `getline` loop computes exactly the pieces `Split` defines |
| Decoder.GetTokens | dlang_vm/src/b_dlang/b_code_builder.cpp:32-37 | the token loop yields `Tokens(line)` |
| Decoder.GetLines | dlang_vm/src/b_dlang/b_code_builder.cpp:16-18 | the line loop yields `Lines(text)` |
| Decoder.Tokens | dlang_vm/src/b_dlang/b_code_builder.cpp:38 | a line has no tokens exactly when it is empty, so only empty lines are skipped |
| Decoder.LabelDefinition | dlang_vm/src/b_dlang/b_code_builder.cpp:20-25 | `substr(6)`/`substr(9)` throws `out_of_range` exactly for a bare `LABEL` or `FUNCTION` line |
| Decoder.NonBlank | dlang_vm/src/b_dlang/b_code_builder.cpp:38-40 | the lines that yield instructions are a subsequence of non-empty lines |
| Decoder.LabelsFail | dlang_vm/src/b_dlang/b_code_builder.cpp:15-26 | the label pass throws `out_of_range` exactly when some line is a bare `LABEL` or `FUNCTION` |
| Decoder.LabelsFailureStays | dlang_vm/src/b_dlang/b_code_builder.cpp:15-26 | once the label pass has thrown, more lines do not change the result |
| Decoder.LabelsDefined | dlang_vm/src/b_dlang/b_code_builder.cpp:20-25 | a name is in the label map exactly when some line defines it |
| Decoder.LabelsFirstWins | dlang_vm/src/b_dlang/b_code_builder.cpp:21 | `map::insert` keeps the first definition: a label maps to the index of the first line defining it |
| Decoder.TokenAt | dlang_vm/src/b_dlang/b_code_builder.cpp:48 | `tokens.at(i)` returns the token when in range and throws `out_of_range` otherwise |
| Decoder.LabelAt | dlang_vm/src/b_dlang/b_code_builder.cpp:115 | `labels.at(name)` returns the index of a defined label and throws `out_of_range` otherwise |
| Decoder.Assemble | dlang_vm/src/b_dlang/b_code_builder.cpp:48-138 | an assembled instruction has the requested class and the given code pointer |
| Decoder.FromTokens | dlang_vm/src/b_dlang/b_code_builder.cpp:45-142 | every decoded instruction carries the code pointer it was decoded at |
| Decoder.NamedIsMnemonic | dlang_vm/src/b_dlang/b_code_builder.cpp:48-138 | a recognised first token is the mnemonic of the class it selects |
| Decoder.MnemonicIsNamed | dlang_vm/src/b_dlang/b_code_builder.cpp:48-138 | every class is selected by its own mnemonic, so the mnemonics are distinct |
| Decoder.StoulOfInt32 | dlang_vm/src/b_dlang/b_code_builder.cpp:94-96 | `PUSH STACK_INT` of the text of any `int`, read by `stoul` and cast back, yields that `int` |
| Decoder.FromTokensOfWrite | dlang_vm/src/b_dlang/b_code_builder.cpp:45-142 | decoding the text of an instruction, with its target's label defined, gives the instruction back |
| Decoder.AssembleOfWrite | dlang_vm/src/b_dlang/b_code_builder.cpp:48-138 | the operands of an instruction's text assemble back into it |
| Decoder.FromTokensNamed | dlang_vm/src/b_dlang/b_code_builder.cpp:45-142 | decoding a recognised first token is assembling its class from the remaining tokens |
| Decoder.AssembleUnknown | dlang_vm/src/b_dlang/b_code_builder.cpp:55-111 | a family (`UNARY`, `OPER`, `PUSH`, `LOOKUP`) throws `UnkownInstruction` only for an unknown second token, naming it |
| Decoder.FromTokensMnemonic | dlang_vm/src/b_dlang/b_code_builder.cpp:45-142 | a decoded instruction's first token is its class's mnemonic; extra tokens are ignored |
| Decoder.UnknownMnemonic | dlang_vm/src/b_dlang/b_code_builder.cpp:139-141 | an unknown first token throws `UnkownInstruction` naming it and carrying every token |
| Decoder.UnknownVariant | dlang_vm/src/b_dlang/b_code_builder.cpp:55-111 | an unknown second token of a family throws `UnkownInstruction` naming it |
| Decoder.UnknownOnlyForUnknownTokens | dlang_vm/src/b_dlang/b_code_builder.cpp:45-142 | `UnkownInstruction` arises for those two reasons only and always carries the whole token list |
| Decoder.JumpTargets | dlang_vm/src/b_dlang/b_code_builder.cpp:133-138 | `GOTO`, `TEST` and `CASE` take their label's index, and an undefined label throws `out_of_range` |
| Decoder.ClosureTarget | dlang_vm/src/b_dlang/b_code_builder.cpp:114-116 | a closure's location is its label's index, and an undefined label throws `out_of_range` |
| Decoder.PushLiterals | dlang_vm/src/b_dlang/b_code_builder.cpp:88-99 | `STACK_UNIT` pushes 0, `STACK_BOOL v` pushes 1 exactly when `v` is `true`, and a missing value throws `out_of_range` |
| Decoder.DecodeFailureStays | dlang_vm/src/b_dlang/b_code_builder.cpp:28-42 | once decoding has thrown, later lines do not change the result |
| Decoder.DecodePerLine | dlang_vm/src/b_dlang/b_code_builder.cpp:28-42 | decoding succeeds exactly when every non-empty line decodes at its index among non-empty lines, and gives those instructions |
| Decoder.CollectLabels | dlang_vm/src/b_dlang/b_code_builder.cpp:15-26 | the label loop computes the label map of `LabelsUpTo` over all lines |
| Decoder.DecodeAll | dlang_vm/src/b_dlang/b_code_builder.cpp:28-42 | the decoding loop returns a fresh code with exactly the instructions `DecodeUpTo` defines, or its error |
| Decoder.DecodeWith | dlang_vm/src/b_dlang/b_code_builder.cpp:30-41 | the loop, for any line decoder, agrees with `DecodeUpTo` on success, contents and error |
| Decoder.DecodeLine | dlang_vm/src/b_dlang/b_code_builder.cpp:32-40 | one round appends the next line's instruction or reports the error `DecodeUpTo` gives |
| Decoder.FromString | dlang_vm/src/b_dlang/b_code_builder.cpp:9-43 | `fromString` returns a fresh code holding `Decode(text)`, or throws its error |
| IntSets.SetBit | dlang_vm/src/data_structures/int_set.cpp:18 | `w \|= 1ul << p` sets bit `p` and keeps every other bit |
| IntSets.ClearBit | dlang_vm/src/data_structures/int_set.cpp:23 | `w &= (-1ul) ^ (1ul << p)` clears bit `p` and keeps every other bit |
| IntSets.Or | dlang_vm/src/data_structures/int_set.cpp:10 | `\|=` of two words holds each bit set in either |
| IntSets.Elements | dlang_vm/src/data_structures/int_set.cpp:27-32 | the set a word vector stands for contains exactly the numbers `get` reports present |
| IntSets.Pad | dlang_vm/src/data_structures/int_set.cpp:7 | `resize` keeps the stored words and appends zero words |
| IntSets.InsertWords | dlang_vm/src/data_structures/int_set.cpp:14-19 | `insert(x)` grows the storage only when word `x / 64` is not stored, to exactly `1 + x / 64` words |
| IntSets.EraseWords | dlang_vm/src/data_structures/int_set.cpp:21-25 | `erase` never changes the storage length |
| IntSets.UnionWords | dlang_vm/src/data_structures/int_set.cpp:5-12 | `insert(other)` leaves the longer of the two lengths |
| IntSets.PadMember | dlang_vm/src/data_structures/int_set.cpp:7 | growing with zero words adds no element |
| IntSets.InsertMember | dlang_vm/src/data_structures/int_set.cpp:14-19 | after `insert(x)`, `get(y)` holds exactly when `y` is `x` or was present |
| IntSets.EraseMember | dlang_vm/src/data_structures/int_set.cpp:21-25 | after `erase(x)`, `get(y)` holds exactly when `y` is not `x` and was present |
| IntSets.EraseAbsent | dlang_vm/src/data_structures/int_set.cpp:22 | erasing beyond the stored words changes nothing, storage included |
| IntSets.UnionMember | dlang_vm/src/data_structures/int_set.cpp:5-12 | after `insert(other)`, `get(y)` holds exactly when `y` was in either set |
| IntSets.LengthCountsForInequality | dlang_vm/src/data_structures/int_set.cpp:34-36 | `!=` compares storage, so two sets with the same elements and different lengths are unequal |
| IntSets.InitialWordsAsWritten | dlang_vm/src/data_structures/int_set.h:17 | the brace initialiser `{32, 0}` builds a two-word vector |
| IntSets.NewSetAsWrittenContainsFive | dlang_vm/src/data_structures/int_set.h:17 | with that storage a new set already contains 5 (the bits of 32), though 0 and 123 are absent |
| IntSets.NewSetAsWrittenElements | dlang_vm/src/data_structures/int_set.h:17 | a new set as declared holds exactly the element 5 |
| IntSets.InitialWords | dlang_vm/src/data_structures/int_set.h:17 | the intended storage is 32 words |
| IntSets.NewSetIsEmpty | dlang_vm/tests/int_set/int_set.cpp:7-14 | with 32 zero words a new set contains nothing |
| IntSets.IntSet.constructor | dlang_vm/src/data_structures/int_set.h:17 | a new set has the intended storage and no element |
| IntSets.IntSet.Get | dlang_vm/src/data_structures/int_set.cpp:27-32 | `get(x)` holds exactly when `x` is an element |
| IntSets.IntSet.Insert | dlang_vm/src/data_structures/int_set.cpp:14-19 | the storage becomes `InsertWords` of the old, and the elements gain exactly `x` |
| IntSets.IntSet.Erase | dlang_vm/src/data_structures/int_set.cpp:21-25 | the storage becomes `EraseWords` of the old, and the elements lose exactly `x` |
| IntSets.IntSet.InsertAll | dlang_vm/src/data_structures/int_set.cpp:5-12 | the loop leaves `UnionWords` of both vectors, the union of the elements, and a distinct `other` untouched |
| IntSets.IntSet.NotEqual | dlang_vm/src/data_structures/int_set.cpp:34-36 | sets that are not `!=` have the same elements, and sets that differ in an element are `!=` |
| FlowGraphs.Empty | dlang_vm/tests/flow_graph/flow_graph.cpp:7-14 | a new graph has no nodes and satisfies the graph invariants |
| FlowGraphs.WithEdge | dlang_vm/src/data_structures/flow_graph.h:53 | linking two nodes changes only successor and predecessor lists |
| FlowGraphs.WithEdgeValid | dlang_vm/src/data_structures/flow_graph.h:53 | linking two existing nodes keeps every node index in range |
| FlowGraphs.WithEdgeEnds | dlang_vm/src/data_structures/flow_graph.h:53 | the edge appears as a successor of `from` and a predecessor of `to`, and no other edge appears |
| FlowGraphs.WithEdgeSymmetric | dlang_vm/src/data_structures/flow_graph.h:53 | linking keeps successors and predecessors mirror images of each other |
| FlowGraphs.ConnectPending | dlang_vm/src/data_structures/flow_graph.h:52 | connecting pending edges changes only successor and predecessor lists |
| FlowGraphs.ConnectPendingEdges | dlang_vm/src/data_structures/flow_graph.h:52 | connecting adds exactly the edges from the pending sources to the target |
| FlowGraphs.ConnectPendingKeepsTarget | dlang_vm/src/data_structures/flow_graph.h:52 | the target node's own successors are untouched |
| FlowGraphs.AddedNode | dlang_vm/src/data_structures/flow_graph.h:43 | `addNode` appends one node with the given id and value and keeps the graph valid |
| FlowGraphs.AddedNodeLine | dlang_vm/src/data_structures/flow_graph.h:42 | `addNodeLine` appends one node with the given id and value and keeps the graph valid |
| FlowGraphs.AddedEdge | dlang_vm/src/data_structures/flow_graph.h:44 | `addEdge(id)` adds no node, changes no value and no first node |
| FlowGraphs.AddedOutEdge | dlang_vm/src/data_structures/flow_graph.h:45 | `addOutEdge` changes no node, value or edge between nodes |
| FlowGraphs.AddedNodeInvariants | dlang_vm/src/data_structures/flow_graph.h:43 | `addNode` keeps the graph symmetric and every id's first node right |
| FlowGraphs.AddedInvariants | dlang_vm/src/data_structures/flow_graph.h:42-45 | `addNodeLine`, `addEdge` and `addOutEdge` keep the graph symmetric and every id's first node right |
| FlowGraphs.AddNodeLineEdges | dlang_vm/src/data_structures/flow_graph.h:42 | the new node's predecessors are the pending sources of its id and the previous last node, it has no successor, and no other edge appears |
| FlowGraphs.AddEdgeEffect | dlang_vm/src/data_structures/flow_graph.h:44 | towards a known id the last node gains an edge to its first node; towards an unknown id the last node waits on the id |
| FlowGraphs.PendingEdgeConnects | dlang_vm/tests/flow_graph/flow_graph.cpp:109-129 | a waiting edge is connected once a node with its id is added |
| FlowGraphs.StartNode | dlang_vm/src/data_structures/flow_graph.h:47 | there is a start node exactly when the graph has nodes |
| FlowGraphs.StartNodeIsFirst | dlang_vm/src/data_structures/flow_graph.h:47 | the start node is the first node added, the first with its id |
| FlowGraphs.Line | dlang_vm/src/data_structures/flow_graph.h:48 | `getLine` lists every node once, in the order of addition |
| FlowGraphs.BlockEnd | dlang_vm/src/data_structures/flow_graph.h:49 | the end of a block is the next node that starts a block, with none in between |
| FlowGraphs.BlocksFromPartition | dlang_vm/src/data_structures/flow_graph.h:49 | the blocks from a block start on are blocks whose concatenation is the rest of the line |
| FlowGraphs.BlocksPartitionLine | dlang_vm/src/data_structures/flow_graph.h:49 | `getBlocks` cuts the whole line into blocks |
| FlowGraphs.OneNode | dlang_vm/tests/flow_graph/flow_graph.cpp:7-27 | an empty graph has no start node; a single node is the start and has no edges |
| FlowGraphs.AddNodeLineUnawaited | dlang_vm/src/data_structures/flow_graph.h:42 | a node on the line whose id no edge awaits is linked from the previous node only, and nothing else changes |
| FlowGraphs.ThreeOnLine | dlang_vm/tests/flow_graph/flow_graph.cpp:28-56 | three nodes added on the line form a chain |
| FlowGraphs.LineAndCycle | dlang_vm/tests/flow_graph/flow_graph.cpp:57-86 | an edge back to the first id closes a cycle where every node has one successor and one predecessor |
| FlowGraphs.TwoApart | dlang_vm/tests/flow_graph/flow_graph.cpp:87-108 | two nodes added with `addNode` have no edges |
| FlowGraphs.EdgeBackToFirst | dlang_vm/tests/flow_graph/flow_graph.cpp:87-108 | an edge towards an existing id runs from the last node to that id's first node |
| FlowGraphs.EdgeWaits | dlang_vm/tests/flow_graph/flow_graph.cpp:109-129 | an edge towards an id not yet added is recorded as pending and adds no edge |
| FlowGraphs.EdgeAheadToLater | dlang_vm/tests/flow_graph/flow_graph.cpp:109-129 | an edge towards an id added later runs from the node that was last when the edge was added |
| FlowGraphs.FlowGraph.constructor | dlang_vm/src/data_structures/flow_graph.h:34-59 | a new flow graph is empty and valid |
| FlowGraphs.FlowGraph.Link | dlang_vm/src/data_structures/flow_graph.h:53 | the object moves to `WithEdge` of its old state |
| FlowGraphs.FlowGraph.ConnectEdges | dlang_vm/src/data_structures/flow_graph.h:52 | the loop moves the object to `ConnectPending` of its old state |
| FlowGraphs.FlowGraph.AddNode | dlang_vm/src/data_structures/flow_graph.h:43 | the object moves to `AddedNode` of its old state and stays valid |
| FlowGraphs.FlowGraph.AddNodeLine | dlang_vm/src/data_structures/flow_graph.h:42 | the object moves to `AddedNodeLine` of its old state and stays valid |
| FlowGraphs.FlowGraph.AddEdge | dlang_vm/src/data_structures/flow_graph.h:44 | the object moves to `AddedEdge` of its old state and stays valid |
| FlowGraphs.FlowGraph.AddOutEdge | dlang_vm/src/data_structures/flow_graph.h:45 | the object moves to `AddedOutEdge` of its old state and stays valid |
| FlowGraphs.FlowGraph.SetValue | dlang_vm/src/data_structures/flow_graph.h:19 | only the value of the chosen node changes |
| Machine.StatusCode | dlang_vm/src/virtual_machine/virtual_machine.h:17 | statuses are numbered below 3 and `Running` is 1, the value compiled code compares against |
| Machine.VirtualMachine.constructor | dlang_vm/src/virtual_machine/virtual_machine.h:17-19 | a new machine is running with all registers 0 and two fresh empty memories |
| Machine.ToString | dlang_vm/src/virtual_machine/virtual_machine.cpp:9-31 | rendering only grows the heap; a non-pair item renders as its scalar text without touching the heap; a finished rendering is non-empty |
| Machine.PairToString | dlang_vm/src/virtual_machine/virtual_machine.cpp:18-27 | rendering a pair only grows the heap and gives non-empty text |
| Machine.PairText | dlang_vm/src/virtual_machine/virtual_machine.cpp:26-27 | a pair renders as `ERROR` exactly when either component does |
| Machine.ScalarText | dlang_vm/src/virtual_machine/virtual_machine.cpp:10-17 | `true` exactly for a non-zero bool, the decimal of the 32-bit value for an `int`, `ERROR` for headers and code addresses |
| Machine.ToStringFuel | dlang_vm/src/virtual_machine/virtual_machine.cpp:9-31 | the recursion bound never changes a rendering that finished |
| Machine.PairInRange | dlang_vm/src/virtual_machine/virtual_machine.cpp:18-27 | a pair whose cells are in range renders from its components' renderings |
| Machine.NonPairText | dlang_vm/src/virtual_machine/virtual_machine.cpp:19-23 | a heap index whose target is not a pair header renders as `ERROR` |
| Machine.GetResult | dlang_vm/src/virtual_machine/virtual_machine.cpp:33-36 | an empty stack gives `ERROR`, otherwise the top item's rendering; no register changes |
| GarbageCollection.Mark | dlang_vm/src/memory_managers/mark_and_sweep_gc.cpp:49-68 | `markRecursive` only adds to the marked set, marks its start, and marks new cells only inside the heap |
| GarbageCollection.MarkBody | dlang_vm/src/memory_managers/mark_and_sweep_gc.cpp:62-67 | the body loop marks every cell of the object's body |
| GarbageCollection.MarkRoots | dlang_vm/src/memory_managers/mark_and_sweep_gc.cpp:16-22 | the root loop marks the target of every pointer among the first `sp` stack slots |
| GarbageCollection.MarkClosesNew | dlang_vm/src/memory_managers/mark_and_sweep_gc.cpp:49-68 | every newly marked cell has its pointer target and its body marked |
| GarbageCollection.MarkLeast | dlang_vm/src/memory_managers/mark_and_sweep_gc.cpp:49-68 | marking never leaves a closed set that holds the start, and then stays in the heap |
| GarbageCollection.MarkedIsLeastClosed | dlang_vm/src/memory_managers/mark_and_sweep_gc.cpp:16-22 | the mark phase yields exactly the least set that holds the roots and is closed under pointers and bodies |
| GarbageCollection.WellFormedHeapMarks | dlang_vm/src/memory_managers/mark_and_sweep_gc.cpp:16-22 | on a heap whose pointers and objects lie inside it, marking never reads outside it |
| GarbageCollection.Ascending | dlang_vm/src/memory_managers/mark_and_sweep_gc.cpp:28 | iterating `marked_` visits every marked index once, in increasing order |
| GarbageCollection.AscendingCard | dlang_vm/src/memory_managers/mark_and_sweep_gc.cpp:28 | the iteration visits as many indices as the set has members |
| GarbageCollection.IndexMap | dlang_vm/src/memory_managers/mark_and_sweep_gc.cpp:29 | `newIndex_` is defined exactly on the visited indices |
| GarbageCollection.IndexMapRank | dlang_vm/src/memory_managers/mark_and_sweep_gc.cpp:28-32 | each visited index maps to its position in the visit order |
| GarbageCollection.Compacted | dlang_vm/src/memory_managers/mark_and_sweep_gc.cpp:24-32 | the new heap holds the `k`-th marked cell at `k`, blanks after, and keeps the size |
| GarbageCollection.Remap | dlang_vm/src/memory_managers/mark_and_sweep_gc.cpp:37-46 | reindexing passes exactly when every pointer in range has a new index, replaces those values and nothing else, and otherwise throws `out_of_range` |
| GarbageCollection.MarkedOrder | dlang_vm/src/memory_managers/mark_and_sweep_gc.cpp:33-34 | the new `hp` is the number of marked cells, all of which the sweep visits |
| GarbageCollection.Swept | dlang_vm/src/memory_managers/mark_and_sweep_gc.cpp:24-34 | after compaction `hp` lies within the heap, its size and `sp` unchanged |
| GarbageCollection.Collect | dlang_vm/src/memory_managers/mark_and_sweep_gc.cpp:12-14 | below the 90% occupancy threshold a collection changes nothing |
| GarbageCollection.PolicyCollect | dlang_vm/src/memory_managers/no_allocation.cpp:20 | only `MarkAndSweepGC` collects; the other managers leave the machine unchanged |
| GarbageCollection.Rank | dlang_vm/src/memory_managers/mark_and_sweep_gc.cpp:29 | a cell never moves to a higher index |
| GarbageCollection.NewIndexIsRank | dlang_vm/src/memory_managers/mark_and_sweep_gc.cpp:28-32 | the new index of a marked cell is the number of marked cells below it |
| GarbageCollection.IndexKeys | dlang_vm/src/memory_managers/mark_and_sweep_gc.cpp:26-32 | the keys of `newIndex_` are exactly the marked cells |
| GarbageCollection.CollectNeverThrows | dlang_vm/src/memory_managers/mark_and_sweep_gc.cpp:12-47 | on a heap whose pointers lie inside it, a collection never throws |
| GarbageCollection.StackRemapPasses | dlang_vm/src/memory_managers/mark_and_sweep_gc.cpp:37-41 | every root is marked, so reindexing the stack finds every key |
| GarbageCollection.HeapRemapPasses | dlang_vm/src/memory_managers/mark_and_sweep_gc.cpp:42-46 | every pointer in a marked cell targets a marked cell, so reindexing the heap finds every key |
| GarbageCollection.CollectKeepsRegisters | dlang_vm/src/memory_managers/mark_and_sweep_gc.cpp:12-47 | a collection changes only the memories' cells and `hp`; sizes, managers and other registers stay |
| GarbageCollection.CollectStack | dlang_vm/src/memory_managers/mark_and_sweep_gc.cpp:37-41 | after a collection each stack pointer holds the rank of its old target, and other slots are unchanged |
| GarbageCollection.CollectHeap | dlang_vm/src/memory_managers/mark_and_sweep_gc.cpp:24-46 | each marked cell moves to its rank below the new `hp`, with its pointers relocated |
| GarbageCollection.CollectHeapTail | dlang_vm/src/memory_managers/mark_and_sweep_gc.cpp:25 | heap cells from the new `hp` on are blank |
| GarbageCollection.MarkAndSweepCollector.constructor | dlang_vm/src/memory_managers/mark_and_sweep_gc.cpp:9-10 | a new collector has its initial size and empty mark and index tables |
| GarbageCollection.MarkAndSweepCollector.MarkRecursive | dlang_vm/src/memory_managers/mark_and_sweep_gc.cpp:49-68 | the recursive method leaves exactly the marked set `Mark` defines |
| GarbageCollection.MarkAndSweepCollector.MarkPhase | dlang_vm/src/memory_managers/mark_and_sweep_gc.cpp:16-22 | the mark loop leaves exactly the marked set `MarkRoots` defines |
| GarbageCollection.MarkAndSweepCollector.SweepPhase | dlang_vm/src/memory_managers/mark_and_sweep_gc.cpp:24-34 | the machine moves to `Swept` of its old state and `newIndex_` maps marked cells to their positions |
| GarbageCollection.MarkAndSweepCollector.CopyMarked | dlang_vm/src/memory_managers/mark_and_sweep_gc.cpp:25-32 | the copy loop builds the compacted heap and the index map of the visit order |
| GarbageCollection.MarkAndSweepCollector.Relocate | dlang_vm/src/memory_managers/mark_and_sweep_gc.cpp:37-46 | each reindexing loop computes `Remap` of the old cells |
| GarbageCollection.MarkAndSweepCollector.CollectGarbage | dlang_vm/src/memory_managers/mark_and_sweep_gc.cpp:12-47 | `collectGarbage` moves the machine exactly as `Collect` describes |
| Interpreter.BoolWord | dlang_vm/src/b_dlang/b_instruction_interpret.cpp:10 | a `bool` stored in a word is non-zero exactly when it is true |
| Interpreter.UnaryValueMeaning | dlang_vm/src/b_dlang/b_instruction_interpret.cpp:7-21 | `UNARY` is defined exactly for `NOT` on a bool, `NEG` on an int and `READ` on `()`; `NOT` negates, `NEG` negates with 32-bit wrap-around, `READ` stores the input |
| Interpreter.OperValueMeaning | dlang_vm/src/b_dlang/b_instruction_interpret.cpp:23-64 | `OPER` is defined for `AND`/`OR` on bools, `EQ` on anything, arithmetic and `LT` on ints, and `DIV` on a non-zero divisor; comparisons give bools and arithmetic ints |
| Interpreter.PushItemMeaning | dlang_vm/src/b_dlang/b_instruction_interpret.cpp:106-116 | a pushed literal keeps its tag; `()` is 0, a bool is 1 or 0, and an int reads back as itself |
| Interpreter.StackToHeap | dlang_vm/src/b_dlang/b_instruction_interpret.cpp:68 | copying a stack slot to the heap changes only the memories, and in range writes exactly that cell |
| Interpreter.HeapToStack | dlang_vm/src/b_dlang/b_instruction_interpret.cpp:79 | copying a heap cell to the stack changes only the memories, and in range writes exactly that slot |
| Interpreter.StackToStack | dlang_vm/src/b_dlang/b_instruction_interpret.cpp:129 | copying a stack slot changes only the stack, and in range writes exactly the target slot |
| Interpreter.UnaryStep | dlang_vm/src/b_dlang/b_instruction_interpret.cpp:7-21 | `BUnary::interpret` leaves the heap alone and, when it succeeds, moves only `cp` among the registers |
| Interpreter.UnaryInRange | dlang_vm/src/b_dlang/b_instruction_interpret.cpp:7-21 | on a non-empty stack `UNARY` throws exactly when the operation rejects the top item, and otherwise replaces it |
| Interpreter.OperStep | dlang_vm/src/b_dlang/b_instruction_interpret.cpp:23-64 | `BOper::interpret` leaves the heap alone and, when it succeeds, pops one slot and moves `cp` |
| Interpreter.OperInRange | dlang_vm/src/b_dlang/b_instruction_interpret.cpp:23-64 | with two items on the stack `OPER` throws exactly when the operation rejects them, and otherwise replaces both by the result |
| Interpreter.MkPairStep | dlang_vm/src/b_dlang/b_instruction_interpret.cpp:66-74 | a successful `MK_PAIR` pops one slot, grows `hp` by 3 and moves `cp` |
| Interpreter.PlaceIndex | dlang_vm/src/b_dlang/b_instruction_interpret.cpp:70-73 | the index of the new object goes to its stack slot, and only `sp`, `hp` and `cp` move |
| Interpreter.MkPairInRange | dlang_vm/src/b_dlang/b_instruction_interpret.cpp:66-74 | in range `MK_PAIR` never throws: the heap gets the header and both components and the stack the pair's index |
| Interpreter.ProjectStep | dlang_vm/src/b_dlang/b_instruction_interpret.cpp:76-88 | a successful `FST`/`SND` moves only `cp` among the registers |
| Interpreter.ProjectInRange | dlang_vm/src/b_dlang/b_instruction_interpret.cpp:76-88 | `FST`/`SND` throw unless the top item is the index of a pair, and otherwise load the component |
| Interpreter.InjectStep | dlang_vm/src/b_dlang/b_instruction_interpret.cpp:90-104 | a successful `MK_INL`/`MK_INR` grows `hp` by 2 and moves `cp` |
| Interpreter.InjectInRange | dlang_vm/src/b_dlang/b_instruction_interpret.cpp:90-104 | in range `MK_INL`/`MK_INR` never throw and build the header and payload |
| Interpreter.PushStep | dlang_vm/src/b_dlang/b_instruction_interpret.cpp:106-116 | `PUSH` leaves the heap alone and, when it succeeds, grows `sp` and moves `cp` |
| Interpreter.PushInRange | dlang_vm/src/b_dlang/b_instruction_interpret.cpp:106-116 | below the end of the stack `PUSH` never throws and stores the literal |
| Interpreter.ApplyStep | dlang_vm/src/b_dlang/b_instruction_interpret.cpp:118-125 | a successful `APPLY` keeps the status and `hp` and enters a frame |
| Interpreter.ApplyInRange | dlang_vm/src/b_dlang/b_instruction_interpret.cpp:118-125 | with a closure index on top and two free slots, `APPLY` saves `fp` and the return address and jumps exactly when the closure's second cell is a code index |
| Interpreter.LookupStep | dlang_vm/src/b_dlang/b_instruction_interpret.cpp:127-136 | a stack lookup leaves the heap alone; a successful lookup grows `sp` and moves `cp` |
| Interpreter.LookupStackInRange | dlang_vm/src/b_dlang/b_instruction_interpret.cpp:127-129 | a stack lookup pushes the slot `fp + offset`, the offset added modulo 2^64 |
| Interpreter.LookupHeapInRange | dlang_vm/src/b_dlang/b_instruction_interpret.cpp:130-133 | a heap lookup throws unless the slot below the frame holds a heap index, and otherwise pushes the captured variable |
| Interpreter.ReturnStep | dlang_vm/src/b_dlang/b_instruction_interpret.cpp:138-143 | `RETURN` leaves the heap, status and `hp` alone and sets `sp` to `fp - 1` |
| Interpreter.ReturnInRange | dlang_vm/src/b_dlang/b_instruction_interpret.cpp:138-143 | in range `RETURN` always moves the result and resets `sp` before it checks the saved return address and frame pointer |
| Interpreter.CaptureStep | dlang_vm/src/b_dlang/b_instruction_interpret.cpp:148-150 | the capture loop changes only the two memories |
| Interpreter.CaptureInRange | dlang_vm/src/b_dlang/b_instruction_interpret.cpp:148-150 | with enough items and heap room the capture loop never throws and copies the top items, last first |
| Interpreter.MkClosureStep | dlang_vm/src/b_dlang/b_instruction_interpret.cpp:145-155 | a successful `MK_CLOSURE` moves only `sp`, `hp` and `cp` as its size dictates |
| Interpreter.MkClosureSp | dlang_vm/src/b_dlang/b_instruction_interpret.cpp:152 | `sp -= size - 1` pushes the index for an empty closure and replaces `size` items by it otherwise |
| Interpreter.MkClosureInRange | dlang_vm/src/b_dlang/b_instruction_interpret.cpp:145-155 | in range `MK_CLOSURE` never throws: header, code index, captured items, then the closure's index |
| Interpreter.ClosureCells | dlang_vm/src/b_dlang/b_instruction_interpret.cpp:146-150 | after the loop the heap holds the header, the code index and the captured items in reverse stack order, and nothing else changed |
| Interpreter.SwapStep | dlang_vm/src/b_dlang/b_instruction_interpret.cpp:157-163 | `SWAP` leaves the heap alone and moves only `cp` |
| Interpreter.SwapInRange | dlang_vm/src/b_dlang/b_instruction_interpret.cpp:157-163 | with two items on the stack `SWAP` exchanges them |
| Interpreter.SwapTwice | dlang_vm/src/b_dlang/b_instruction_interpret.cpp:157-163 | swapping twice restores the stack |
| Interpreter.PopStep | dlang_vm/src/b_dlang/b_instruction_interpret.cpp:165-168 | `POP` never throws and moves only `sp` and `cp` |
| Interpreter.NopStep | dlang_vm/src/b_dlang/b_instruction_interpret.cpp:170-176 | `LABEL` and `FUNCTION` only move `cp` |
| Interpreter.DerefStep | dlang_vm/src/b_dlang/b_instruction_interpret.cpp:178-182 | a successful `DEREF` moves only `cp` |
| Interpreter.DerefInRange | dlang_vm/src/b_dlang/b_instruction_interpret.cpp:178-182 | `DEREF` throws unless the top item is a reference, and otherwise loads the referenced cell |
| Interpreter.MkRefStep | dlang_vm/src/b_dlang/b_instruction_interpret.cpp:184-189 | a successful `MK_REF` grows `hp` by one and moves `cp` |
| Interpreter.MkRefInRange | dlang_vm/src/b_dlang/b_instruction_interpret.cpp:184-189 | in range `MK_REF` never throws |
| Interpreter.MkRefThenDeref | dlang_vm/src/b_dlang/b_instruction_interpret.cpp:178-189 | dereferencing a reference just made restores the stack |
| Interpreter.AssignStep | dlang_vm/src/b_dlang/b_instruction_interpret.cpp:191-198 | a successful `ASSIGN` pops one slot and moves `cp` |
| Interpreter.AssignInRange | dlang_vm/src/b_dlang/b_instruction_interpret.cpp:191-198 | `ASSIGN` throws unless the item below the top is a reference, and otherwise stores the top item through it and leaves `()` |
| Interpreter.HaltStep | dlang_vm/src/b_dlang/b_instruction_interpret.cpp:200-202 | `HALT` only sets the status to halted |
| Interpreter.GotoStep | dlang_vm/src/b_dlang/b_instruction_interpret.cpp:204-206 | `GOTO` only sets `cp` |
| Interpreter.TestStep | dlang_vm/src/b_dlang/b_instruction_interpret.cpp:208-215 | `TEST` leaves the heap alone and, when it succeeds, pops the condition and changes only `cp` |
| Interpreter.TestInRange | dlang_vm/src/b_dlang/b_instruction_interpret.cpp:208-215 | `TEST` throws exactly when the top is not a bool, and otherwise falls through exactly when it is true |
| Interpreter.CaseStep | dlang_vm/src/b_dlang/b_instruction_interpret.cpp:217-228 | a successful `CASE` changes only the memories and `cp` |
| Interpreter.CaseInRange | dlang_vm/src/b_dlang/b_instruction_interpret.cpp:217-228 | the payload replaces the index whatever the header, and the header alone chooses between falling through and jumping, or throws |
| Interpreter.Step | dlang_vm/src/b_dlang/b_instruction_interpret.cpp:7-228 | `HALT` and `GOTO` never throw |
| Interpreter.StepRegisters | dlang_vm/src/b_dlang/b_instruction_interpret.cpp:7-228 | every instruction that does not throw moves the registers exactly as its kind prescribes |
| Execution.CopyStackToHeap | dlang_vm/src/b_dlang/b_instruction_interpret.cpp:68 | the method agrees with `StackToHeap` on new state and outcome |
| Execution.Unary | dlang_vm/src/b_dlang/b_instruction_interpret.cpp:7-21 | the method agrees with `UnaryStep` |
| Execution.Oper | dlang_vm/src/b_dlang/b_instruction_interpret.cpp:23-64 | the method agrees with `OperStep` |
| Execution.MkPair | dlang_vm/src/b_dlang/b_instruction_interpret.cpp:66-74 | the method agrees with `MkPairStep` |
| Execution.Project | dlang_vm/src/b_dlang/b_instruction_interpret.cpp:76-88 | the method agrees with `ProjectStep` |
| Execution.Inject | dlang_vm/src/b_dlang/b_instruction_interpret.cpp:90-104 | the method agrees with `InjectStep` |
| Execution.Push | dlang_vm/src/b_dlang/b_instruction_interpret.cpp:106-116 | the method agrees with `PushStep` |
| Execution.Apply | dlang_vm/src/b_dlang/b_instruction_interpret.cpp:118-125 | the method agrees with `ApplyStep` |
| Execution.Lookup | dlang_vm/src/b_dlang/b_instruction_interpret.cpp:127-136 | the method agrees with `LookupStep` |
| Execution.Return | dlang_vm/src/b_dlang/b_instruction_interpret.cpp:138-143 | the method agrees with `ReturnStep` |
| Execution.MkClosure | dlang_vm/src/b_dlang/b_instruction_interpret.cpp:145-155 | the method agrees with `MkClosureStep` |
| Execution.Capture | dlang_vm/src/b_dlang/b_instruction_interpret.cpp:148-150 | the `for` loop agrees with `CaptureStep` from iteration 0 |
| Execution.Swap | dlang_vm/src/b_dlang/b_instruction_interpret.cpp:157-163 | the method agrees with `SwapStep` |
| Execution.Deref | dlang_vm/src/b_dlang/b_instruction_interpret.cpp:178-182 | the method agrees with `DerefStep` |
| Execution.MkRef | dlang_vm/src/b_dlang/b_instruction_interpret.cpp:184-189 | the method agrees with `MkRefStep` |
| Execution.Assign | dlang_vm/src/b_dlang/b_instruction_interpret.cpp:191-198 | the method agrees with `AssignStep` |
| Execution.Test | dlang_vm/src/b_dlang/b_instruction_interpret.cpp:208-215 | the method agrees with `TestStep` |
| Execution.Case | dlang_vm/src/b_dlang/b_instruction_interpret.cpp:217-228 | the method agrees with `CaseStep` |
| Execution.Interpret | dlang_vm/src/b_dlang/b_instruction_interpret.cpp:7-228 | running one instruction on the machine object agrees with `Step` on new state and outcome |
| JitSequences.JITSequence.Empty | dlang_vm/src/jit_policies/jit_sequence.h:14 | a default sequence has no cps and no entry points and is not a function |
| JitSequences.JITSequence.constructor | dlang_vm/src/jit_policies/jit_sequence.cpp:5-6 | a sequence built from cps and entry points holds both and is not a function |
| JitSequences.JITSequence.IsEmpty | dlang_vm/src/jit_policies/jit_sequence.cpp:8-10 | a sequence is empty exactly when it carries no cps |
| JitSequences.JITSequence.GetCps | dlang_vm/src/jit_policies/jit_sequence.cpp:12-14 | `getCps` returns the cps the sequence holds |
| JitSequences.JITSequence.GetEntryPoints | dlang_vm/src/jit_policies/jit_sequence.cpp:16-18 | `getEntryPoints` returns the entry points the sequence holds |
| JitSequences.JITSequence.SetFunction | dlang_vm/src/jit_policies/jit_sequence.cpp:20-22 | marks the sequence as a function and changes nothing else |
| TracingJits.Grown | dlang_vm/src/jit_policies/tracing_jit.cpp:11-13 | the landing counts grow to `2 * cp` with zeros only when `cp` exceeds their length, keeping every count |
| TracingJits.Landing | dlang_vm/src/jit_policies/tracing_jit.cpp:8-27 | every landing records `cp` as the previous cp |
| TracingJits.RunJIT | dlang_vm/src/jit_policies/tracing_jit.cpp:29-38 | running compiled code resets the previous cp and keeps the counts |
| TracingJits.IdleForwardLandingIgnored | dlang_vm/src/jit_policies/tracing_jit.cpp:9-10 | while idle, a landing that is not a back edge only records the cp |
| TracingJits.BackEdgeLandingCounts | dlang_vm/src/jit_policies/tracing_jit.cpp:10-19 | while idle, a back edge adds one to the count of its cp and no other, and starts the trace `[cp]` exactly when the threshold is reached |
| TracingJits.RecordingLanding | dlang_vm/src/jit_policies/tracing_jit.cpp:20-24 | while recording, a landing is appended unless cps are being skipped, when one more is skipped |
| TracingJits.RunJITCases | dlang_vm/src/jit_policies/tracing_jit.cpp:29-38 | with nothing skipped, running compiled code drops a one-element trace and otherwise starts skipping |
| TracingJits.OfferCases | dlang_vm/src/jit_policies/tracing_jit.cpp:40-56 | an overlong trace is dropped; one that has returned to its first cp is offered without its last cp and reset; otherwise nothing is offered |
| TracingJits.NotificationsKeepConsistent | dlang_vm/src/jit_policies/tracing_jit.cpp:8-56 | every notification keeps the skip count zero while the trace is empty |
| TracingJits.InitialLandingsAsWritten | dlang_vm/src/jit_policies/tracing_jit.h:20 | `landings_{256}` builds a one-element vector |
| TracingJits.FirstLandingAsWritten | dlang_vm/src/jit_policies/tracing_jit.h:20 | with that vector the first back edge to cp 0 counts 257 landings, so a trace starts at once for any threshold up to 257 |
| TracingJits.InitialLandings | dlang_vm/src/jit_policies/tracing_jit.h:20 | the intended counts are 256 zeros |
| TracingJits.FirstLanding | dlang_vm/src/jit_policies/tracing_jit.cpp:10-19 | with the intended counts the first back edge to a cp below 256 counts one landing |
| TracingJits.TracingJIT.constructor | dlang_vm/src/jit_policies/tracing_jit.cpp:5-6 | a new tracer is idle with the intended counts and keeps its threshold and maximum length |
| TracingJits.TracingJIT.NotifyLanding | dlang_vm/src/jit_policies/tracing_jit.cpp:8-27 | the tracer moves to `Landing` of its old state |
| TracingJits.TracingJIT.NotifyRunJIT | dlang_vm/src/jit_policies/tracing_jit.cpp:29-38 | the tracer moves to `RunJIT` of its old state |
| TracingJits.TracingJIT.MakeJITSequence | dlang_vm/src/jit_policies/tracing_jit.cpp:40-56 | returns a fresh non-function sequence carrying what `Offer` offers, with empty entry points, and moves to `Offer`'s state |
| JitStates.Loads | dlang_vm/src/jit/jit_state.cpp:27-30 | one register load per VM register, in order |
| JitStates.Stores | dlang_vm/src/jit/jit_state.cpp:87-90 | one register store per VM register, in order |
| JitStates.EntryBranches | dlang_vm/src/jit/jit_state.cpp:32-34 | one conditional branch on `cp` per entry point, in order |
| JitStates.Buckets | dlang_vm/src/jit/jit_state.cpp:41-47 | a direct branch is internal exactly when its destination is compiled, and every branch lands in one bucket |
| JitStates.RegisterEntries | dlang_vm/src/jit/jit_state.cpp:32-34 | the entry loop emits the entry branches and files each as internal or external |
| JitStates.PatchesHere | dlang_vm/src/jit/jit_state.cpp:62-64 | one `jit_patch` per error branch, in order |
| JitStates.InternalPatchesComplete | dlang_vm/src/jit/jit_state.cpp:77-79 | the internal patches complete exactly when every internal destination has a label, and then patch each branch to it |
| JitStates.ExternalPatches | dlang_vm/src/jit/jit_state.cpp:82-84 | each external branch is patched to the end label, in order |
| JitStates.PatchInternal | dlang_vm/src/jit/jit_state.cpp:77-79 | the loop stops at the first destination without a label (`labels_.at` throws) and otherwise patches all |
| JitStates.ErrorBlock | dlang_vm/src/jit/jit_state.cpp:58-74 | the jump over the block, a patch per error branch, the status update, the jump's patch, then the end label |
| JitStates.EmitErrorBlock | dlang_vm/src/jit/jit_state.cpp:58-74 | the loop emits exactly `ErrorBlock` |
| JitStates.CompileCompletes | dlang_vm/src/jit/jit_state.cpp:57-97 | `compile` gets to the end exactly when every internal destination has a label |
| JitStates.CompiledParts | dlang_vm/src/jit/jit_state.cpp:57-97 | the compiled code is the error block, internal patches, external patches and register stores in that order |
| JitStates.CompiledLayout | dlang_vm/src/jit/jit_state.cpp:57-97 | completed code starts with the error block and ends with the registers stored back |
| JitStates.CompiledInternalTargets | dlang_vm/src/jit/jit_state.cpp:77-79 | every internal branch is patched, in order, to its destination's label |
| JitStates.CompiledExternalTargets | dlang_vm/src/jit/jit_state.cpp:82-84 | every external branch is patched, in order, to the end label |
| JitStates.JITState.constructor | dlang_vm/src/jit/jit_state.cpp:8-35 | loads the registers and files one branch on `cp` per entry point; no labels or error branches yet |
| JitStates.JITState.AddLabel | dlang_vm/src/jit/jit_state.cpp:37-39 | `map::insert` keeps the first label registered for a cp; nothing else changes |
| JitStates.JITState.AddDirectBranch | dlang_vm/src/jit/jit_state.cpp:41-47 | a branch is filed as internal exactly when its cp is compiled, otherwise as external |
| JitStates.JITState.AddIndirectBranch | dlang_vm/src/jit/jit_state.cpp:49-51 | an indirect branch is always external |
| JitStates.JITState.AddRuntimeErrorBranch | dlang_vm/src/jit/jit_state.cpp:53-55 | the branch is appended to the error branches only |
| JitStates.JITState.Compile | dlang_vm/src/jit/jit_state.cpp:57-97 | emits `Compiled` of the branch tables and passes exactly when it completes, throwing `out_of_range` otherwise; the tables are unchanged |
| UCode.ImmediateValues | dlang_vm/src/u_dlang/u_argument.cpp:120-130 | an immediate of an `int`, a tag or a status reads back as that value, and tag immediates are equal only for equal tags |
| UCode.WithType | dlang_vm/src/u_dlang/u_argument.cpp:89-114 | `withType` keeps the pointer register, offset and memory and changes only which half of the item is addressed |
| UCode.LocationFactories | dlang_vm/src/u_dlang/u_argument.cpp:132-147 | `SP`/`FP` locations address the stack through `sp`/`fp`, `Heap`/`HP` the heap through their register, each with its offset and half |
| UCode.UTagCheckOne | dlang_vm/src/u_dlang/u_instruction.cpp:32-33 | the one-tag `UTagCheck` admits exactly that tag's value |
| UCode.GuardedJoin | dlang_vm/src/u_dlang/u_code_builder.h:14-18 | code in which every access is preceded by its memory check stays so when joined |
| UCode.GetAndCheck | dlang_vm/src/u_dlang/u_multi_instruction.cpp:9-15 | `UGetAndCheck` is a memory check and a read, both guarded and at the instruction's cp |
| UCode.GetAndCheckTagged | dlang_vm/src/u_dlang/u_multi_instruction.cpp:17-24 | the tagged form adds a tag check between the memory check and the read |
| UCode.SetAndCheck | dlang_vm/src/u_dlang/u_multi_instruction.cpp:26-32 | `USetAndCheck` is a memory check and a write, guarded |
| UCode.MoveAndCheck | dlang_vm/src/u_dlang/u_multi_instruction.cpp:34-41 | `UMoveAndCheck` is a checked read followed by a checked write of the same register |
| UCode.MakeHeapPointer | dlang_vm/src/u_dlang/u_multi_instruction.cpp:43-50 | `UMakeHeapPointer` is two checked writes, the heap tag and then `hp` |
| UCode.FlattenJoin | dlang_vm/src/u_dlang/u_code_builder.h:14-20 | adding pieces one after the other builds their codes one after the other |
| UCode.FlattenGuarded | dlang_vm/src/u_dlang/u_code_builder.h:14-20 | pieces that are each guarded and built for `cp` make guarded code for `cp` |
| LoweringShape.PerformsMeaning | dlang_vm/src/b_dlang/b_instruction_make_u_instructions.cpp:9-380 | code within an effect set writes no other register, stores to no other location, and stores what the set says |
| LoweringShape.JoinPerforms | dlang_vm/src/u_dlang/u_code_builder.h:14-20 | joined code stays within the effects both parts stay within |
| LoweringShape.LoweringOrigin | dlang_vm/src/b_dlang/b_instruction_make_u_instructions.cpp:14-23 | after the leading `ULabel` every lowered instruction comes from the work or from the register update |
| LoweringShape.EndsWithUpdate | dlang_vm/src/b_dlang/b_instruction_make_u_instructions.cpp:22-23 | every lowering ends with its register update |
| LoweringShape.StraightLowering | dlang_vm/src/b_dlang/b_instruction_make_u_instructions.cpp:9-50 | a straight-line lowering is a label, scratch-only work and an update, and moves the registers as the update does |
| LoweringShape.NextCpSteps | dlang_vm/src/b_dlang/b_instruction_make_u_instructions.cpp:23 | `cp := cp + 1` writes only `cp` and moves it by one |
| LoweringShape.SpNextSteps | dlang_vm/src/b_dlang/b_instruction_make_u_instructions.cpp:48-49 | the `sp` update writes only `sp` and `cp` and moves `sp` by the constant |
| LoweringShape.HpNextSteps | dlang_vm/src/b_dlang/b_instruction_make_u_instructions.cpp:305-317 | the `hp` update writes only `hp` and `cp` and moves `hp` by the constant |
| ULowering.UnaryTagAgrees | dlang_vm/src/b_dlang/b_instruction_make_u_instructions.cpp:9-24 | the tag the lowered `BUnary` checks is exactly the tag on which the interpreter's `BUnary` does not throw |
| ULowering.UnaryLowering | dlang_vm/src/b_dlang/b_instruction_make_u_instructions.cpp:9-24 | `BUnary`'s code checks the operand's tag for the operator's and nothing else, stores the result over it, rewrites the tag only for `Read`, and moves the registers as the interpreter does |
| ULowering.OperTagsAgree | dlang_vm/src/b_dlang/b_instruction_make_u_instructions.cpp:26-50 | the lowered `BOper`'s operand and result tags are the interpreter's: apart from `Eq` it throws unless both operands carry the operand tag (or `Div` by zero), and its result has the result tag |
| ULowering.OperLowering | dlang_vm/src/b_dlang/b_instruction_make_u_instructions.cpp:26-50 | `BOper`'s code checks both operand tags (for `Eq` reads both tags and values instead), stores result and result tag in the lower slot only, pops one slot and goes on |
| ULowering.MkPairLowering | dlang_vm/src/b_dlang/b_instruction_make_u_instructions.cpp:52-72 | `BMkPair`'s code writes the pair header, copies the two items to the next two cells, replaces the lower item by a `HeapIndex` to the header, allocates three cells and pops one slot |
| ULowering.ProjectLowering | dlang_vm/src/b_dlang/b_instruction_make_u_instructions.cpp:74-106 | `BFst`/`BSnd`'s code checks for a `HeapIndex` on top pointing to a pair header and copies cell 1 or 2 over the top item |
| ULowering.InjectLowering | dlang_vm/src/b_dlang/b_instruction_make_u_instructions.cpp:108-140 | `BMkInl`/`BMkInr`'s code writes the header, copies the top item after it, replaces the top by a `HeapIndex` to the header and allocates two cells |
| ULowering.PushLowering | dlang_vm/src/b_dlang/b_instruction_make_u_instructions.cpp:142-155 | `BPush`'s code stores its tag and value at `sp`, uses no scratch register and pushes one slot |
| ULowering.LookupLowering | dlang_vm/src/b_dlang/b_instruction_make_u_instructions.cpp:180-202 | `BLookup`'s code copies the stack item at `fp + offset`, or the closure's cell `offset + 1` after checking the closure pointer, to `sp` and pushes one slot |
| ULowering.SwapLowering | dlang_vm/src/b_dlang/b_instruction_make_u_instructions.cpp:253-268 | `BSwap`'s code exchanges the two top items half by half, reading both before writing |
| ULowering.PopLowering | dlang_vm/src/b_dlang/b_instruction_make_u_instructions.cpp:270-276 | `BPop`'s code touches no memory and pops one slot |
| ULowering.SkipLowering | dlang_vm/src/b_dlang/b_instruction_make_u_instructions.cpp:278-290 | `BLabel` and `BFunction` lower to code that touches no memory and only goes on |
| ULowering.DerefLowering | dlang_vm/src/b_dlang/b_instruction_make_u_instructions.cpp:292-303 | `BDeref`'s code checks for a `HeapRef` on top and copies the cell it points to over it |
| ULowering.MkRefLowering | dlang_vm/src/b_dlang/b_instruction_make_u_instructions.cpp:305-317 | `BMkRef`'s code copies the top item to a new cell, replaces it by a `HeapRef` to that cell and allocates it |
| ULowering.AssignLowering | dlang_vm/src/b_dlang/b_instruction_make_u_instructions.cpp:319-335 | `BAssign`'s code checks for a `HeapRef` below the top, copies the top item through it, leaves `{Unit, 0}` in its place and pops one slot |
| UClosureLowering.ClosureMovesEffects | dlang_vm/src/b_dlang/b_instruction_make_u_instructions.cpp:232-239 | the capture loop stores only the captured variables' cells, through `r0` |
| UClosureLowering.MovesStep | dlang_vm/src/b_dlang/b_instruction_make_u_instructions.cpp:232-239 | each further iteration of the capture loop appends exactly its two copies |
| UClosureLowering.ClosureImmediates | dlang_vm/src/b_dlang/b_instruction_make_u_instructions.cpp:222-251 | the pointer slot is `-size` and the `sp` immediate `size - 1`; the `hp` immediate and header length are `size + 2` except for `size = INT_MAX - 1`, where they wrap to `INT_MIN` |
| UClosureLowering.MkClosureLowering | dlang_vm/src/b_dlang/b_instruction_make_u_instructions.cpp:222-251 | `BMkClosure`'s code writes the closure header and code index, copies each captured variable `i` from `sp - 1 - i` to `hp + 2 + i`, stores a `HeapIndex` at `sp - size`, moves `sp` by `1 - size` and `hp` by `size + 2`, stores nowhere else |
| UClosureLowering.MkClosureUInstructions | dlang_vm/src/b_dlang/b_instruction_make_u_instructions.cpp:222-251 | the builder loop over the captured variables produces exactly the code `MkClosureLowering` describes |
| UControlLowering.HaltLowering | dlang_vm/src/b_dlang/b_instruction_make_u_instructions.cpp:337-341 | `BHalt`'s code ends in `UHalt` and writes, stores and checks nothing |
| UControlLowering.GotoLowering | dlang_vm/src/b_dlang/b_instruction_make_u_instructions.cpp:343-348 | `BGoto`'s code ends in a jump to its destination and a guard and writes, stores and checks nothing |
| UControlLowering.TestLowering | dlang_vm/src/b_dlang/b_instruction_make_u_instructions.cpp:350-360 | `BTest`'s code checks that the top is a `Bool`, reads it, pops it and ends by branching on it to its destination |
| UControlLowering.CaseLowering | dlang_vm/src/b_dlang/b_instruction_make_u_instructions.cpp:362-380 | `BCase`'s code checks for a `HeapIndex` to an `Inl`/`Inr` header, copies the injected item over the top, and branches on whether the header is `InlHeader` |
| UControlLowering.ApplyReturnAddress | dlang_vm/src/b_dlang/b_instruction_make_u_instructions.cpp:157-178 | the return address stored by `BApply` is `cp + 1` |
| UControlLowering.ApplyLowering | dlang_vm/src/b_dlang/b_instruction_make_u_instructions.cpp:157-178 | `BApply`'s code pushes `fp` and the return address, checks the closure pointer and reads its code index, sets `fp` to the old `sp`, pushes two slots, jumps to the code index, ends with `UApply` and a guard, leaves `hp` alone |
| UControlLowering.ReturnLowering | dlang_vm/src/b_dlang/b_instruction_make_u_instructions.cpp:204-220 | `BReturn`'s code copies the result below the frame, reads the saved `fp` and return address, sets `sp` from the old `fp`, restores `fp`, jumps back, ends with `UReturn` and a guard, leaves `hp` alone |
| UInstructions.StraightLowered | dlang_vm/src/b_dlang/b_instruction_make_u_instructions.cpp:9-155 | every lowering of a straight-line instruction is well formed |
| UInstructions.ControlLowered | dlang_vm/src/b_dlang/b_instruction_make_u_instructions.cpp:157-380 | every lowering of a control transfer is well formed |
| UInstructions.AllLowered | dlang_vm/src/b_dlang/b_instruction_make_u_instructions.cpp:9-380 | every lowering starts with the instruction's label, guards every memory access and carries the instruction's `cp` |
| UInstructions.GetUInstructions | dlang_vm/src/b_dlang/b_instruction_make_u_instructions.cpp:9-380 | the lowered code starts with `ULabel(cp)`, each `UGet`/`USet` directly follows its `UMemCheck` (a tagged get with the `UTagCheck` between), and every instruction carries `cp` |
| UInstructions.StraightEndsWithNextCp | dlang_vm/src/b_dlang/b_instruction_make_u_instructions.cpp:9-335 | a straight-line instruction's code ends with `cp += 1` |
| UInstructions.ControlEnds | dlang_vm/src/b_dlang/b_instruction_make_u_instructions.cpp:157-380 | a control transfer's code ends with its transfer and `UGuard`; `Halt`'s with `UHalt` and no `cp` update |
| MetaInterpreter.InitialVM | meta_dlang_vm.py:106-112 | a new machine has `cp`, `fp` and `status` zero and, after the two initial pushes, the stack `[FramePointer 0, ReturnAddress 0]` |
| MetaInterpreter.PyToIntIsToInt | meta_dlang_vm.py:140-142 | `to_int` is the 32-bit reading: the unique value in `[-2^31, 2^31)` congruent to its argument modulo 2^32 |
| MetaInterpreter.FloorDivMeaning | meta_dlang_vm.py:213 | Python 2's integer `/`, which `DIV` uses, is floor division: the remainder has the divisor's sign and is smaller than it in magnitude |
| MetaInterpreter.PySplitFromJoin | meta_dlang_vm.py:154 | `split` loses nothing: joining the pieces with the delimiter gives the text back, and no piece holds the delimiter |
| MetaInterpreter.Tokenize | meta_dlang_vm.py:154 | splitting at `\n` and then at spaces gives at least one line and at least one token per line, so `code[cp][0]` never raises |
| MetaInterpreter.EqualReflexiveSymmetric | meta_dlang_vm.py:97-104 | `equal` is reflexive and symmetric |
| MetaInterpreter.EqualOnStackItems | meta_dlang_vm.py:97-104 | on items without a body, `equal` holds iff tags, values and `ptr` objects agree, so two heap indices are equal iff they point to the same object |
| MetaInterpreter.DistinctHeadersDiffer | meta_dlang_vm.py:97-104 | two distinct header objects with non-empty bodies are never equal, whatever they contain |
| MetaInterpreter.PopMany | meta_dlang_vm.py:338-339 | the capture loop pops the `n` top items, top first, and fails when the stack runs out |
| MetaInterpreter.StepValid | meta_dlang_vm.py:178-440 | every iteration of the loop that goes on leaves a well-formed machine: references in range, heap objects older than their referrers, booleans 0 or 1 |
| MetaInterpreter.OperArithmeticWraps | meta_dlang_vm.py:204-209 | `ADD`, `SUB` and `MUL` on two integers pop both and push the 32-bit reading of the exact result |
| MetaInterpreter.OperDivision | meta_dlang_vm.py:210-215 | `DIV` on integers raises on a zero divisor and otherwise pushes the floor quotient, not wrapped |
| MetaInterpreter.OperTagMismatch | meta_dlang_vm.py:193-217 | a tag mismatch raises the runtime error for every operator but `EQ`, and so does an unknown operator |
| MetaInterpreter.PushBool | meta_dlang_vm.py:265-271 | `PUSH STACK_BOOL v` pushes 1 exactly when `v` is `true`, 0 for `false` and for every other word |
| MetaInterpreter.ReturnBelowFrameRaises | meta_dlang_vm.py:310-330 | `RETURN` with a frame pointer below 2 raises and reports the return address already moved into `cp` |
| MetaInterpreter.ApplyThenReturn | meta_dlang_vm.py:277-330 | after an `APPLY` entering a closure, a `RETURN` with the callee's result on top comes back to the line after the `APPLY` with the caller's `fp` and the two items below the frame replaced by the result; with fewer than two items there it raises at `cp + 1` |
| MetaInterpreter.PopCount | meta_dlang_vm.py:338 | `MK_CLOSURE` pops `size` items, none for a negative size |
| MetaInterpreter.MkClosureGoesOn | meta_dlang_vm.py:332-344 | `MK_CLOSURE name n` goes on iff both operands are there, `n` is an integer, `name` is a label and the stack holds the items |
| MetaInterpreter.MkClosureBody | meta_dlang_vm.py:332-344 | the closure built is a header whose body is a code index to the label's line followed by the popped items, top first, referred to by a new heap index on top |
| MetaInterpreter.LabelsLastWins | meta_dlang_vm.py:157-160 | the label pre-pass raises iff a `LABEL`/`FUNCTION` line has no name; otherwise it maps exactly the defined names, each to the last line defining it |
| MetaInterpreter.LabelsStayFailed | meta_dlang_vm.py:157-160 | once the pre-pass has raised, later lines do not matter |
| MetaInterpreter.LocateLabels | meta_dlang_vm.py:157-160 | the label loop computes the pre-pass's map |
| MetaInterpreter.RunMoreFuel | meta_dlang_vm.py:168-440 | a run that ends within its step budget ends the same way with any larger budget |
| MetaInterpreter.RunLoop | meta_dlang_vm.py:168-440 | the imperative loop computes `Run`, the step-bounded reference run |
| MetaInterpreter.Run | meta_dlang_vm.py:168-440 | a run that halts ends with a well-formed machine and a non-zero status; one that runs out of steps leaves a well-formed machine with status 0 |
| MetaInterpreter.Interpret | meta_dlang_vm.py:145-456 | the imperative `interpret` agrees with the reference run from the initial machine, which halts only in a well-formed machine |
| MetaInterpreter.Render | meta_dlang_vm.py:118-138 | `_print_result` always produces some text (`ERROR` at worst) |
| MetaInterpreter.RenderPair | meta_dlang_vm.py:132-137 | a heap index to a pair renders as `(a, b)`, and as `ERROR` as soon as either component does or when it points elsewhere |
| MetaInterpreter.RenderAgreesWithVM | meta_dlang_vm.py:118-138 | the Python and C++ renderings agree on every item that is not a heap index |
| MetaInterpreter.PrintResult | meta_dlang_vm.py:114-116 | the printed result is the top of the stack rendered, and there is none exactly when the stack is empty |
| MetaInterpreter.Printed | meta_dlang_vm.py:436-456 | at the default verbosity `interpret` prints the result after `HALT` or the runtime-error line with the `cp` at which it was raised |
| TArguments.UidCounter.constructor | dlang_vm/src/t_dlang/t_argument.h:51 | the uid counter starts at 0 |
| TArguments.TVariable.Fresh | dlang_vm/src/t_dlang/t_argument.cpp:17-18 | a new variable takes the uid one past the last handed out, and the counter then holds it, so the first variable has uid 1 |
| TArguments.TVariable.WithUid | dlang_vm/src/t_dlang/t_argument.cpp:20-21 | a variable made with an explicit uid keeps it and its U-argument |
| TArguments.TVariable.Copy | dlang_vm/src/t_dlang/t_argument.cpp:27-29 | `copy` makes a new object with the same uid seen through the given U-argument |
| TArguments.TVariable.Name | dlang_vm/src/t_dlang/t_argument.cpp:23-25 | a variable's name is `x` followed by at least one digit |
| TArguments.NamesIdentifyVariables | dlang_vm/src/t_dlang/t_argument.cpp:23-33 | two variables have the same name exactly when `operator==` (same uid) holds |
| TArguments.TArgument.UArgument | dlang_vm/src/t_dlang/t_argument.cpp:7-9 | `getUArgument` gives the immediate for an immediate and the register or location a variable was made from |
| TArguments.TArgument.Name | dlang_vm/src/t_dlang/t_argument.cpp:13-25 | an immediate is named `imm`, a variable by its own name |
| TArguments.ArgumentNames | dlang_vm/src/t_dlang/t_argument.cpp:13-25 | the name is `imm` exactly for immediates, and two variables' names agree exactly when they are the same variable |
| TSideEffects.MakeWrite | dlang_vm/src/t_dlang/t_effects.cpp:8-12 | `makeWrite` sets only the written variable, so the effect is not `other` |
| TSideEffects.MakeTagCheck | dlang_vm/src/t_dlang/t_effects.cpp:14-19 | `makeTagCheck` sets only the checked argument and its two tags |
| TSideEffects.MakeBoundsCheck | dlang_vm/src/t_dlang/t_effects.cpp:21-25 | `makeBoundsCheck` sets only the bounds-checked argument |
| TSideEffects.MakeOther | dlang_vm/src/t_dlang/t_effects.cpp:27-29 | `makeOther` gives an effect for which `getOther` holds |
| TSideEffects.OtherExactlyForMakeOther | dlang_vm/src/t_dlang/t_effects.cpp:27-45 | `getOther` holds exactly of the effect `makeOther` builds, and the four builders give four distinct kinds of effect |
| TStates.SlotKeysDistinct | dlang_vm/src/t_dlang/t_state.cpp:37-51 | the key `2 * position + half` identifies the slot: two keys agree exactly for the same half of the same position |
| TStates.LabelAgreesWithRecord | dlang_vm/src/t_dlang/t_state.cpp:67-75 | after a label in function mode, `sp` is the offset recorded for it, the old one when none was recorded, and every earlier record stays |
| TStates.BranchAgreesWithRecord | dlang_vm/src/t_dlang/t_state.cpp:58-65 | in function mode a jump throws exactly when its destination was recorded with another offset; otherwise it records the current offset and keeps every earlier record |
| TStates.JumpThenLabelRestoresOffset | dlang_vm/src/t_dlang/t_state.cpp:58-75 | the label reached by an earlier jump restores the offset the jump had, however far `sp` moved in between |
| TStates.TraceModeIgnoresControl | dlang_vm/src/t_dlang/t_state.cpp:11-75 | outside a function no label or jump changes anything, no jump throws, and the resets clear `sp` and the slot maps |
| TStates.FunctionModeKeepsSlots | dlang_vm/src/t_dlang/t_state.cpp:11-22 | within a function `resetSP` and `resetFP` change nothing |
| TStates.Intern | dlang_vm/src/t_dlang/t_state.cpp:29-51 | a key already present keeps the map and the counter; an absent key gets a new variable with the next uid; either way a new object for the key's variable is returned |
| TStates.TState.constructor | dlang_vm/src/t_dlang/t_state.h:40-45 | a new state has offset 0, empty maps and is in trace mode |
| TStates.TState.UpdateSp | dlang_vm/src/t_dlang/t_state.cpp:7-9 | `updateSp` moves the symbolic `sp` and nothing else |
| TStates.TState.ResetSP | dlang_vm/src/t_dlang/t_state.cpp:11-16 | `resetSP` clears `sp` and the stack slots outside a function only |
| TStates.TState.ResetFP | dlang_vm/src/t_dlang/t_state.cpp:18-22 | `resetFP` clears the frame slots outside a function only |
| TStates.TState.MakeRegister | dlang_vm/src/t_dlang/t_state.cpp:29-35 | a register's variable is created once, with the next uid, and every later use gets a new object with that uid |
| TStates.TState.MakeSP | dlang_vm/src/t_dlang/t_state.cpp:37-43 | a stack slot's variable is keyed by its position from the symbolic `sp` and half; created once with the next uid, shared by later uses |
| TStates.TState.MakeFP | dlang_vm/src/t_dlang/t_state.cpp:45-51 | a frame slot's variable is keyed by its offset from `fp` and half alone |
| TStates.TState.MakeHeap | dlang_vm/src/t_dlang/t_state.cpp:53-56 | every heap access gets a variable with a new uid |
| TStates.TState.MakeTArgument | dlang_vm/src/t_dlang/t_state.cpp:24-56 | an immediate becomes a `TImmediate` without touching the state; every other argument a fresh variable object for its U-argument, using at most one new uid |
| TStates.TState.AddBranchDestination | dlang_vm/src/t_dlang/t_state.cpp:58-65 | agrees with the jump's specification: throws `OptimizationError` exactly when it fails, changing nothing then |
| TStates.TState.AddLabel | dlang_vm/src/t_dlang/t_state.cpp:67-75 | agrees with the label's specification |
| TStates.TState.SetFunction | dlang_vm/src/t_dlang/t_state.cpp:77-79 | `setFunction` switches to function mode and changes nothing else |
| TStates.SlotSurvivesSpUpdate | dlang_vm/src/t_dlang/t_state.cpp:7-43 | after `updateSp(k)`, the stack slot `SP(o - k)` is the variable `SP(o)` was, though the objects differ |
| TStates.HeapFreshRegisterStable | dlang_vm/src/t_dlang/t_state.cpp:29-56 | two heap accesses get different variables even at one location, while two uses of a register get the same one |
| TInstructions.UArguments | dlang_vm/src/t_dlang/t_instruction.cpp:7-9 | the U-arguments of a list of T-arguments, position by position |
| TInstructions.GetUInstruction | dlang_vm/src/t_dlang/t_instruction.cpp:26-28 | the rebuilt U-instruction keeps the instruction's `cp` |
| TInstructions.ArgumentsAgreeWithUCode | dlang_vm/src/t_dlang/t_instruction.cpp:62-109 | the written arguments are exactly what the rebuilt U-instruction writes, and what it reads is among the read arguments |
| TInstructions.EffectsMeaning | dlang_vm/src/t_dlang/t_instruction.cpp:111-154 | a write effect names the one written variable and is reported exactly for a move, a non-`Read` unary and a non-`Div` binary operation whose target is a general register, or a stack or frame slot in function mode; only a tag check has a tag-check effect and only a memory check a bounds-check effect |
| TInstructions.PropagateCopyMeaning | dlang_vm/src/t_dlang/t_instruction.cpp:34-44 | propagating a copy of `v` rewrites exactly the uses of `v` among the substitutable arguments into `arg`, unless `v` is `sp`, and changes nothing else |
| TInstructions.PropagateCopyKeepsShape | dlang_vm/src/t_dlang/t_instruction.cpp:172-174 | propagating an operand keeps an instruction well formed and consistent and keeps its write effect |
| TInstructions.BitwiseOnBooleans | dlang_vm/src/t_dlang/t_instruction.cpp:241-248 | on 0 and 1, `&` and `\|` are conjunction and disjunction |
| TInstructions.FoldedArithmeticAgrees | dlang_vm/src/t_dlang/t_instruction.cpp:253-268 | folding `Lt`, `Add`, `Sub` and `Mul` on immediates computes what the interpreter's `BOper` computes on the same words |
| TInstructions.FoldedDivisionAgrees | dlang_vm/src/t_dlang/t_instruction.cpp:269-275 | folding a division computes the interpreter's quotient wherever that is defined |
| TInstructions.FoldedLogicAgrees | dlang_vm/src/t_dlang/t_instruction.cpp:241-248 | folding `And` and `Or` of two booleans computes the interpreter's conjunction and disjunction |
| TInstructions.FoldedUnaryAgrees | dlang_vm/src/t_dlang/t_instruction.cpp:202-217 | folding `Neg` of an `int` and `Not` of a boolean computes what `BUnary` computes |
| TInstructions.MoveFoldAsWritten | dlang_vm/src/t_dlang/t_instruction.cpp:176-184 | as written, `TMove::fold` returns only for a self-move and falls off the end otherwise |
| TInstructions.MoveOfImmediateFallsOffEnd | dlang_vm/src/t_dlang/t_instruction.cpp:176-184 | a move of an immediate, which constant folding meets, falls off the end of `TMove::fold` |
| TInstructions.MoveFoldKeepsMoves | dlang_vm/src/t_dlang/t_instruction.cpp:176-184 | with the intended final `return shared_from_this()`, folding removes exactly the self-moves and keeps every other move |
| TInstructions.FoldOutcomes | dlang_vm/src/t_dlang/t_instruction.cpp:176-430 | folding fails exactly for a division of immediates by zero, and removes an instruction exactly when it is a self-move, a passing tag check of an immediate, or a branch on a zero immediate |
| TInstructions.FoldResult | dlang_vm/src/t_dlang/t_instruction.cpp:202-281 | what folding leaves is well formed, has the same `cp` and mode and writes what the instruction wrote; a folded operation becomes the move of its value |
| TInstructions.BranchesNeverFold | dlang_vm/src/t_dlang/t_instruction.cpp:420-430 | a branch produced by lowering tests a register, so `TBranch::fold` and copy propagation leave it as it is |
| TInstructions.FoldKeepsConsistent | dlang_vm/src/t_dlang/t_instruction.cpp:176-430 | folding a consistent instruction leaves a consistent one |
| TLowering.ControlStepKeepsMode | dlang_vm/src/u_dlang/u_instruction_make_t_instruction.cpp:37-133 | lowering never changes the mode, and only a jump within a function can fail |
| TLowering.RegisterArgument | dlang_vm/src/u_dlang/u_instruction_make_t_instruction.cpp:100-102 | a register becomes a new variable object for that register, leaving everything but the register map alone |
| TLowering.Argument | dlang_vm/src/u_dlang/u_instruction_make_t_instruction.cpp:7-133 | any U-argument becomes a T-argument standing for it, leaving the offsets and the mode alone |
| TLowering.LowerAccess | dlang_vm/src/u_dlang/u_instruction_make_t_instruction.cpp:7-35 | `UGet`, `USet`, `UMove`, `UUnary`, `UMemCheck` and `UTagCheck` become T-instructions that re-lower exactly to them, with distinct new written variables, and the offsets untouched |
| TLowering.FollowOper | dlang_vm/src/u_dlang/u_instruction_make_t_instruction.cpp:39-50 | `UOper` on `sp` moves the symbolic `sp` by the immediate, or resets the stack or frame slots when it writes `sp` or `fp` otherwise |
| TLowering.OperLowered | dlang_vm/src/u_dlang/u_instruction_make_t_instruction.cpp:51-54 | the `TOper` over the three arguments is the lowering of the `UOper` |
| TLowering.LowerOper | dlang_vm/src/u_dlang/u_instruction_make_t_instruction.cpp:37-55 | `UOper` first updates the state as `FollowOper` says, then becomes a `TOper` over arguments standing for its own |
| TLowering.SlotArgument | dlang_vm/src/u_dlang/u_instruction_make_t_instruction.cpp:92-99 | a stack slot becomes a new variable object for it, touching only the stack-slot map |
| TLowering.ArgumentSlots | dlang_vm/src/u_dlang/u_instruction_make_t_instruction.cpp:92-93 | the argument's two halves at `sp - 1` are two different new variables |
| TLowering.CallSlots | dlang_vm/src/u_dlang/u_instruction_make_t_instruction.cpp:94-99 | the closure, saved `fp` and return `cp` slots become new variable objects, touching only the stack-slot map |
| TLowering.ScratchArguments | dlang_vm/src/u_dlang/u_instruction_make_t_instruction.cpp:100-102 | `r0`, `r1`, `r2` become three different new variables |
| TLowering.ApplyArguments | dlang_vm/src/u_dlang/u_instruction_make_t_instruction.cpp:85-103 | `UApply` becomes a `TApply` over its eleven arguments, with distinct new written variables |
| TLowering.LowerJump | dlang_vm/src/u_dlang/u_instruction_make_t_instruction.cpp:118-133 | a jump records its destination (a branch also `cp + 1`) and fails with `OptimizationError` exactly when the state's check fails |
| TLowering.LowerControl | dlang_vm/src/u_dlang/u_instruction_make_t_instruction.cpp:57-116 | labels, guards, `UApply`, `UReturn` and `UHalt` become their T-instructions, with the state updated as the label and call rules say |
| TLowering.GetTInstruction | dlang_vm/src/u_dlang/u_instruction_make_t_instruction.cpp:7-133 | `getTInstruction` fails with `OptimizationError` exactly when a jump's check fails; otherwise it gives a well-formed T-instruction that keeps the U-instruction and the mode and re-lowers exactly to the U-instruction, with distinct new written variables, and the state moved as the offset rules say |
| OptimizationGraphs.FlowStep | dlang_vm/src/t_dlang/t_instruction.cpp:11-14 | adding an instruction to the graph keeps it valid and appends one node holding the instruction, with its `cp` narrowed to `int` as id |
| OptimizationGraphs.GraphOf | dlang_vm/src/optimizations/optimization.cpp:12-15 | the graph of a code is valid and its nodes hold the instructions in code order |
| OptimizationGraphs.MakeFlowGraph | dlang_vm/src/t_dlang/t_instruction.cpp:11-60 | `makeFlowGraph` and its branch and guard overrides leave the graph as `FlowStep` says |
| OptimizationGraphs.BuildGraph | dlang_vm/src/optimizations/optimization.cpp:12-15 | the first loop of `optimize` builds a new graph equal to `GraphOf(code)` |
| OptimizationGraphs.GraphOfStep | dlang_vm/src/optimizations/optimization.cpp:13-15 | one more instruction of the loop extends the graph of the prefix |
| OptimizationGraphs.TraceStepKeepsLine | dlang_vm/src/t_dlang/t_instruction.cpp:51-60 | outside a function, adding an instruction adds no edge, so a plain line stays a plain line |
| OptimizationGraphs.TraceGraphIsLine | dlang_vm/src/optimizations/optimization.cpp:12-15 | the graph of trace code is a plain line |
| OptimizationGraphs.LineIsOneBlock | dlang_vm/src/data_structures/flow_graph.h:49 | a plain line is cut into a single block, the whole line |
| OptimizationGraphs.TraceGraphIsOneBlock | dlang_vm/src/optimizations/optimization.cpp:12-15 | the graph of trace code is a single block, the whole line |
| OptimizationGraphs.BlockVisit | dlang_vm/src/optimizations/constant_folding.cpp:6-7 | visiting the blocks in turn and each block node by node visits the nodes in line order |
| OptimizationGraphs.BlocksVisitAll | dlang_vm/src/optimizations/constant_folding.cpp:6-7 | after all blocks every node has been visited |
| OptimizationGraphs.BlockNodes | dlang_vm/src/data_structures/flow_graph.h:49 | every node of a block is a node of the graph |
| OptimizationGraphs.BlockPositions | dlang_vm/src/data_structures/flow_graph.h:49 | the nodes of block `b` are consecutive in line order, right after those of the earlier blocks |
| OptimizationGraphs.Refs | dlang_vm/src/optimizations/optimization.cpp:30-32 | the references to exactly the given nodes of a graph |
| OptimizationGraphs.RefsAdd | dlang_vm/src/optimizations/optimization.cpp:30-32 | marking one more node adds exactly its reference |
| OptimizationGraphs.OptimizationGraph.constructor | dlang_vm/src/optimizations/optimization.h:17-30 | a new pass has nothing marked for removal |
| OptimizationGraphs.OptimizationGraph.RemoveNode | dlang_vm/src/optimizations/optimization.cpp:30-32 | `removeNode` adds the node to the marked set and changes nothing else |
| OptimizationGraphs.OptimizationGraph.Removed | dlang_vm/src/optimizations/optimization.cpp:22-26 | the marked nodes among the first `n`, exactly |
| OptimizationGraphs.KeptIsSubsequence | dlang_vm/src/optimizations/optimization.cpp:22-26 | the rebuilt code is the subsequence of the values at the unmarked nodes: each kept value is the value of the matching unmarked node, and every unmarked node's value is kept |
| OptimizationGraphs.KeptAll | dlang_vm/src/optimizations/optimization.cpp:22-26 | with nothing marked the rebuilt code is the original |
| OptimizationGraphs.Reconstruct | dlang_vm/src/optimizations/optimization.cpp:20-27 | the second loop of `optimize` builds a new code holding the values of the unmarked nodes in line order |
| ConstantFoldings.FoldFromMeaning | dlang_vm/src/optimizations/constant_folding.cpp:5-16 | folding from node `k` on fails exactly when some later fold fails, and otherwise folds each node and marks those whose fold is empty |
| ConstantFoldings.FoldingMeaning | dlang_vm/src/optimizations/constant_folding.cpp:5-16 | the pass fails with `OptimizationError` exactly when some node's fold fails; otherwise it removes exactly the nodes whose fold is empty and gives every other node its fold |
| ConstantFoldings.FoldingKeeps | dlang_vm/src/optimizations/constant_folding.cpp:5-16 | folding keeps every instruction canonical, with the same `cp` and mode and the same writes, and never removes a label |
| ConstantFoldings.FoldBlock | dlang_vm/src/optimizations/constant_folding.cpp:7-15 | the inner loop folds one block's nodes in order, matching `Folding` so far, and marks exactly the emptied nodes |
| ConstantFoldings.FoldGraph | dlang_vm/src/optimizations/constant_folding.cpp:5-16 | `optimizeGraph` fails exactly when `Folding` does, with its error; otherwise the nodes hold the folded values and exactly the emptied nodes are marked |
| CopyPropagations.BlocksAreNodeLists | dlang_vm/src/data_structures/flow_graph.h:48-49 | the line and every block list graph nodes, each once |
| CopyPropagations.RebuildsGetMeansUGet | dlang_vm/src/optimizations/copy_propagation.cpp:7-15 | the `UGet` test on a move holds exactly when the move re-lowers to a `UGet` |
| CopyPropagations.CopySourceIsOperand | dlang_vm/src/optimizations/copy_propagation.cpp:19-26 | the source of a copy that passes the tests is an operand, so propagating it keeps instructions well formed |
| CopyPropagations.PropagateAlong | dlang_vm/src/optimizations/copy_propagation.cpp:22-36 | the inner loop keeps the number of nodes |
| CopyPropagations.PropagateAlongOffLine | dlang_vm/src/optimizations/copy_propagation.cpp:22-36 | propagating leaves every node outside `line[p..]` as it was |
| CopyPropagations.PropagateCopyStops | dlang_vm/src/optimizations/copy_propagation.cpp:28-35 | propagating into an instruction does not change whether it writes `a` or `b`, so the stopping point is that of the original code |
| CopyPropagations.PropagateAlongFirst | dlang_vm/src/optimizations/copy_propagation.cpp:22-26 | the first node after the copy always receives it |
| CopyPropagations.PropagateAlongOnLine | dlang_vm/src/optimizations/copy_propagation.cpp:22-36 | the copy is propagated into exactly the nodes of `line[p..]` before and including the first writer of `a` or `b` |
| CopyPropagations.PropagateAlongMeaning | dlang_vm/src/optimizations/copy_propagation.cpp:22-36 | both: nodes up to the first writer receive the copy, all others are unchanged |
| CopyPropagations.CopyLine | dlang_vm/src/optimizations/copy_propagation.cpp:7-38 | `optimizeLine` keeps the number of nodes |
| CopyPropagations.CopyBlocks | dlang_vm/src/optimizations/copy_propagation.cpp:42-44 | the pass over the blocks keeps the number of nodes |
| CopyPropagations.CopyPropagated | dlang_vm/src/optimizations/copy_propagation.cpp:40-48 | `optimizeGraph` keeps the number of nodes |
| CopyPropagations.PropagateAlongKeeps | dlang_vm/src/optimizations/copy_propagation.cpp:22-36 | propagating keeps each instruction's shape and canonical form |
| CopyPropagations.CopyLineKeeps | dlang_vm/src/optimizations/copy_propagation.cpp:7-38 | `optimizeLine` keeps each instruction's shape and canonical form |
| CopyPropagations.CopyBlocksKeeps | dlang_vm/src/optimizations/copy_propagation.cpp:40-44 | the pass over the blocks keeps each instruction's shape and canonical form |
| CopyPropagations.CopyPropagatedKeeps | dlang_vm/src/optimizations/copy_propagation.cpp:40-48 | copy propagation keeps every instruction canonical, made from the same U-instruction in the same mode, writing what it wrote, and a label exactly when it was one |
| CopyPropagations.NoCopiesNoChange | dlang_vm/src/optimizations/copy_propagation.cpp:12-18 | a line without copies is left as it is |
| CopyPropagations.FirstCopyReaches | dlang_vm/src/optimizations/copy_propagation.cpp:7-38 | the first copy of a line is propagated into exactly the nodes after it that it reaches |
| CopyPropagations.WritesEither | dlang_vm/src/optimizations/copy_propagation.cpp:28-35 | the write-argument loop answers exactly whether the instruction writes `a` or `b` |
| CopyPropagations.PropagateFrom | dlang_vm/src/optimizations/copy_propagation.cpp:22-36 | the imperative inner loop leaves the node values as `PropagateAlong` says and the graph otherwise unchanged |
| CopyPropagations.OptimizeLine | dlang_vm/src/optimizations/copy_propagation.cpp:7-38 | `optimizeLine` leaves the node values as `CopyLine` says |
| CopyPropagations.CopyGraph | dlang_vm/src/optimizations/copy_propagation.cpp:40-48 | `optimizeGraph` leaves the node values as `CopyPropagated` says |
| DeadCodes.VarUidsMeaning | dlang_vm/src/optimizations/dead_code.cpp:27-36 | the collected uids are exactly those of the variables among the arguments |
| DeadCodes.SuccLiveContains | dlang_vm/src/optimizations/dead_code.cpp:24-26 | each successor's live set is part of the union |
| DeadCodes.SuccLiveWithin | dlang_vm/src/optimizations/dead_code.cpp:24-26 | the union holds nothing that no successor's live set holds |
| DeadCodes.SuccLiveMonotone | dlang_vm/src/optimizations/dead_code.cpp:24-26 | the union grows with the successors' live sets |
| DeadCodes.Step | dlang_vm/src/optimizations/dead_code.cpp:21-38 | a round recomputes every node's live set by the transfer: successors' needs, less what it writes, plus what it reads, each set restarting from an empty `IntSet` as intended |
| DeadCodes.ReadsUpTo | dlang_vm/src/optimizations/dead_code.cpp:32-36 | every variable the first `k` nodes read is in the read set |
| DeadCodes.TransferBounded | dlang_vm/src/optimizations/dead_code.cpp:22-36 | a transfer holds only variables some node reads |
| DeadCodes.TransferMonotone | dlang_vm/src/optimizations/dead_code.cpp:22-36 | the transfer is monotone in the live sets |
| DeadCodes.CardShrinks | dlang_vm/src/optimizations/dead_code.cpp:37 | a strictly larger subset leaves strictly fewer elements outside |
| DeadCodes.GapShrinks | dlang_vm/src/optimizations/dead_code.cpp:37 | growing live sets never move away from the full read set, and strictly approach it when one changes |
| DeadCodes.StepBounded | dlang_vm/src/optimizations/dead_code.cpp:21-38 | a round keeps the live sets within the read set |
| DeadCodes.StepMonotone | dlang_vm/src/optimizations/dead_code.cpp:21-38 | a round is monotone |
| DeadCodes.StepGrows | dlang_vm/src/optimizations/dead_code.cpp:19-39 | one round from below grows the live sets and strictly shrinks the gap when anything changed, so the do-while loop ends |
| DeadCodes.Iterate | dlang_vm/src/optimizations/dead_code.cpp:19-39 | iterating rounds keeps one live set per node |
| DeadCodes.NoneLive | dlang_vm/src/optimizations/dead_code.cpp:11 | the default live sets are the intended empty `IntSet`s (as declared they hold uid 5: `LivenessAsWritten`) |
| DeadCodes.Liveness | dlang_vm/src/optimizations/dead_code.cpp:11-39 | one live set per node |
| DeadCodes.IterateFixpoint | dlang_vm/src/optimizations/dead_code.cpp:19-39 | iteration ends in a fixpoint of the round |
| DeadCodes.IterateBelow | dlang_vm/src/optimizations/dead_code.cpp:19-39 | iteration from below any fixpoint stays below it |
| DeadCodes.LivenessFixpoint | dlang_vm/src/optimizations/dead_code.cpp:19-39 | the live sets hold exactly what the transfer asks of them |
| DeadCodes.ExtraRoundsKeepLiveness | dlang_vm/src/optimizations/dead_code.cpp:37-39 | rounds run after the live sets are reached, such as those a storage-only change of `liveOld != live[node]` causes, change no element |
| DeadCodes.LivenessLeast | dlang_vm/src/optimizations/dead_code.cpp:19-39 | the live sets are the least such: they are below any live sets that hold at least what the transfer asks |
| DeadCodes.NotLiveNotRead | dlang_vm/src/optimizations/dead_code.cpp:19-45 | a variable not live at a node of a path is read along the rest of the path only after being written again |
| DeadCodes.DeadUpToMeaning | dlang_vm/src/optimizations/dead_code.cpp:42-49 | the nodes removed among the first `k` are exactly those the test marks |
| DeadCodes.DeadNodesMeaning | dlang_vm/src/optimizations/dead_code.cpp:42-49 | a node is removed exactly when it has a write effect, a successor, and its first successor does not need the written variable |
| DeadCodes.RemovedWriteUnread | dlang_vm/src/optimizations/dead_code.cpp:42-49 | the variable a removed node writes is read, on any path from its first successor, only after it has been written again |
| DeadCodes.TransferAsWrittenMeaning | dlang_vm/src/optimizations/dead_code.cpp:22-36 | as written, whether uid 5 is in a recomputed set depends only on whether the node writes or reads it, and every other uid is in it exactly when the intended transfer puts it there |
| DeadCodes.LivenessAsWrittenFixpoint | dlang_vm/src/optimizations/dead_code.cpp:18-39 | the as-written live sets, the intended ones plus uid 5 wherever it is not written, hold exactly what the as-written transfer asks |
| DeadCodes.LivenessAsWrittenLeast | dlang_vm/src/optimizations/dead_code.cpp:18-39 | they are below any live sets that hold at least what the as-written transfer asks: the least fixpoint of the as-written transfer |
| DeadCodes.DeadNodesAsWrittenMeaning | dlang_vm/src/optimizations/dead_code.cpp:41-49 | as written, the pass removes exactly what the intended pass removes except writes of uid 5 that the next node does not overwrite, which it always keeps |
| DeadCodes.FiveKeptExample | dlang_vm/src/optimizations/dead_code.cpp:23 | on a move into `r0` as the variable with uid 5 followed by a halt, the intended pass removes the unread move and the pass as written keeps it |
| DeadCodes.NewLive | dlang_vm/src/optimizations/dead_code.cpp:22-36 | the loop body for one node computes that node's transfer, starting from an empty set as intended |
| DeadCodes.UpdateGrows | dlang_vm/src/optimizations/dead_code.cpp:21-38 | replacing one live set by its transfer keeps the sets growing and below the least fixpoint |
| DeadCodes.BelowBothWays | dlang_vm/src/optimizations/dead_code.cpp:37 | live sets below each other both ways are equal |
| DeadCodes.StableStep | dlang_vm/src/optimizations/dead_code.cpp:37-39 | when a round changes nothing, every node holds its transfer |
| DeadCodes.StableIsFixpoint | dlang_vm/src/optimizations/dead_code.cpp:39 | a round that changes nothing ends at a fixpoint |
| DeadCodes.SweepStep | dlang_vm/src/optimizations/dead_code.cpp:21-38 | one more node of a round keeps the round's invariant |
| DeadCodes.Sweep | dlang_vm/src/optimizations/dead_code.cpp:20-38 | a round, in reverse line order, keeps the sets growing below the least fixpoint; it reports a change of elements exactly when it strictly approached it, and no change only at a fixpoint (the source's flag compares storage instead) |
| DeadCodes.ComputeLive | dlang_vm/src/optimizations/dead_code.cpp:11-39 | the do-while loop ends with the least fixpoint of the transfer over intended empty new sets |
| DeadCodes.RemoveIfDead | dlang_vm/src/optimizations/dead_code.cpp:43-48 | one node is marked exactly when the removal test holds |
| DeadCodes.DeadGraph | dlang_vm/src/optimizations/dead_code.cpp:9-50 | `optimizeGraph` marks exactly the dead nodes of the intended analysis |
| UnusedWrites.Removals | dlang_vm/src/optimizations/unused_writes.cpp:8-22 | one set of removed nodes per block |
| UnusedWrites.BlocksInRange | dlang_vm/src/data_structures/flow_graph.h:49 | every block lists nodes of the graph |
| UnusedWrites.LatestMeaning | dlang_vm/src/optimizations/unused_writes.cpp:18 | the map holds exactly the arguments written so far, each with the node of its last write |
| UnusedWrites.OverwrittenMeaning | dlang_vm/src/optimizations/unused_writes.cpp:15-18 | a node is removed exactly when one of its tracked writes is followed, later in the block, by another write of the same argument object |
| UnusedWrites.NoSharedArgumentNoRemoval | dlang_vm/src/optimizations/unused_writes.cpp:15-17 | when no argument object is written twice, nothing is removed |
| UnusedWrites.NodeWritesMeaning | dlang_vm/src/optimizations/unused_writes.cpp:11-14 | a node's tracked writes are exactly its write arguments on a stack or frame slot or a scratch register |
| UnusedWrites.BlockWritesMeaning | dlang_vm/src/optimizations/unused_writes.cpp:10-20 | a block's tracked writes are exactly its nodes' tracked writes |
| UnusedWrites.OverwrittenInBlock | dlang_vm/src/optimizations/unused_writes.cpp:15-17 | a removed node is a node of the block with a tracked write |
| UnusedWrites.UnionMeaning | dlang_vm/src/optimizations/unused_writes.cpp:8-22 | a node is in the union exactly when it is in one of the sets |
| UnusedWrites.RemovalsMeaning | dlang_vm/src/optimizations/unused_writes.cpp:8-22 | a node is removed exactly when some block removes it, and then it has a tracked write |
| UnusedWrites.UnusedNodesMeaning | dlang_vm/src/optimizations/unused_writes.cpp:7-23 | a node the pass removes lies in some block, has a tracked write, and a later write in that block uses the same argument object |
| UnusedWrites.DistinctAppend | dlang_vm/src/optimizations/unused_writes.cpp:10-20 | writes on disjoint argument objects stay distinct when joined |
| UnusedWrites.NodeWritesDistinct | dlang_vm/src/optimizations/unused_writes.cpp:11-14 | one node's distinct write arguments give distinct tracked writes |
| UnusedWrites.BlockWritesDistinct | dlang_vm/src/optimizations/unused_writes.cpp:10-20 | a block whose nodes share no write argument gives distinct tracked writes |
| UnusedWrites.NoSharedWriteArgsNoRemoval | dlang_vm/src/optimizations/unused_writes.cpp:7-23 | when every write argument is an object of its own, the pass removes nothing |
| UnusedWrites.WritesStep | dlang_vm/src/optimizations/unused_writes.cpp:15-18 | one more write updates the map and removes the node it held for that argument, if any |
| UnusedWrites.NodeWritesStep | dlang_vm/src/optimizations/unused_writes.cpp:11-14 | one more write argument adds its write when tracked |
| UnusedWrites.BlockWritesStep | dlang_vm/src/optimizations/unused_writes.cpp:10-20 | one more node adds its tracked writes |
| UnusedWrites.RefsUnion | dlang_vm/src/optimizations/optimization.cpp:30-32 | the marks of two node sets are the marks of their union |
| UnusedWrites.ScanNode | dlang_vm/src/optimizations/unused_writes.cpp:11-19 | the innermost loop leaves the map as `Latest` and marks the nodes `Overwritten` says |
| UnusedWrites.ScanBlock | dlang_vm/src/optimizations/unused_writes.cpp:9-20 | one block, with a map of its own, marks exactly its overwritten nodes |
| UnusedWrites.UnusedGraph | dlang_vm/src/optimizations/unused_writes.cpp:7-23 | `optimizeGraph` marks exactly the unused nodes |
| OptimizationsSequences.CanonicalWellFormed | dlang_vm/src/t_dlang/t_instruction.cpp:7-9 | canonical T-code is well formed |
| OptimizationsSequences.KeptFacts | dlang_vm/src/optimizations/optimization.cpp:20-27 | rebuilding from rewritten values that keep labels and never removing a label drops or rewrites instructions in order and keeps every label |
| OptimizationsSequences.LabelWritesNothing | dlang_vm/src/t_dlang/t_instruction.cpp:286-292 | a label writes nothing and has no write effect, so no pass removes it |
| OptimizationsSequences.FoldingKeepsEffect | dlang_vm/src/optimizations/constant_folding.cpp:5-16 | constant folding fails only with `OptimizationError` and otherwise keeps the code's shape and labels |
| OptimizationsSequences.ShapeKeepsEffect | dlang_vm/src/optimizations/copy_propagation.cpp:40-48 | rewriting in place without marks keeps the code's shape and labels |
| OptimizationsSequences.CopyKeepsEffect | dlang_vm/src/optimizations/copy_propagation.cpp:40-48 | copy propagation keeps the code's shape and labels and marks nothing |
| OptimizationsSequences.DeadKeepsEffect | dlang_vm/src/optimizations/dead_code.cpp:42-49 | dead-code elimination changes no value and never marks a label |
| OptimizationsSequences.UnusedKeepsEffect | dlang_vm/src/optimizations/unused_writes.cpp:7-23 | removing unused writes changes no value and never marks a label |
| OptimizationsSequences.PassKeepsEffect | dlang_vm/src/optimizations/optimization.cpp:18 | every kind of pass fails only with `OptimizationError` and otherwise keeps the code's shape and labels |
| OptimizationsSequences.PassKeeps | dlang_vm/src/optimizations/optimization.cpp:10-28 | every pass fails only with `OptimizationError`, keeps the code canonical and its labels, and only drops or rewrites instructions in place |
| OptimizationsSequences.FreshMarks | dlang_vm/src/optimizations/optimization.cpp:23 | the marks of earlier calls are on other graphs, so only the marks of this call count |
| OptimizationsSequences.RunFolding | dlang_vm/src/optimizations/constant_folding.cpp:5-16 | constant folding on a new graph leaves values and marks that rebuild to `Folding`'s result, failing exactly when it does |
| OptimizationsSequences.RunCopies | dlang_vm/src/optimizations/copy_propagation.cpp:40-48 | copy propagation on a new graph marks nothing and leaves `CopyPropagated`'s values |
| OptimizationsSequences.RunDeadCode | dlang_vm/src/optimizations/dead_code.cpp:9-50 | dead-code elimination on a new graph marks exactly the dead nodes of the intended analysis |
| OptimizationsSequences.RunUnusedWrites | dlang_vm/src/optimizations/unused_writes.cpp:7-23 | the unused-writes pass on a new graph marks exactly the unused nodes |
| OptimizationsSequences.OptimizeGraph | dlang_vm/src/optimizations/optimization.cpp:18 | the virtual `optimizeGraph` does what its pass's specification says |
| OptimizationsSequences.RunPass | dlang_vm/src/optimizations/optimization.cpp:10-28 | `optimize` of one pass gives exactly the pass's specified result |
| OptimizationsSequences.LabelsKeptHasLabel | dlang_vm/src/optimizations/optimization.cpp:20-27 | code that has a label still has one after a pass that keeps labels |
| OptimizationsSequences.Passes | dlang_vm/src/optimizations/optimizations_sequence.cpp:43-45 | a sequence of passes, when it succeeds, leaves canonical, well-formed code |
| OptimizationsSequences.EmbedsCompose | dlang_vm/src/optimizations/optimizations_sequence.cpp:43-45 | dropping and rewriting twice is dropping and rewriting once |
| OptimizationsSequences.LabelsKeptCompose | dlang_vm/src/optimizations/optimizations_sequence.cpp:43-45 | keeping labels twice keeps them |
| OptimizationsSequences.TransformedCompose | dlang_vm/src/optimizations/optimizations_sequence.cpp:43-45 | two transformations compose into one |
| OptimizationsSequences.PassTransforms | dlang_vm/src/optimizations/optimization.cpp:10-28 | a successful pass's output is a transformation of its input |
| OptimizationsSequences.PassesMeaning | dlang_vm/src/optimizations/optimizations_sequence.cpp:42-45 | a sequence of passes fails only with `OptimizationError`, and otherwise gives canonical code that keeps every label and drops or rewrites instructions in place |
| OptimizationsSequences.LoweredAllStep | dlang_vm/src/optimizations/optimizations_sequence.cpp:37-40 | one more lowered instruction extends the lowering of the prefix |
| OptimizationsSequences.LoweredIsCanonical | dlang_vm/src/optimizations/optimizations_sequence.cpp:37-40 | lowered T-code is canonical, and has a label when the U-code has one |
| OptimizationsSequences.Relowered | dlang_vm/src/optimizations/optimizations_sequence.cpp:48-51 | one U-instruction per T-instruction |
| OptimizationsSequences.NoPassesGiveBackTheCode | dlang_vm/src/optimizations/optimizations_sequence.cpp:33-54 | with no pass, lowering and rebuilding gives the U-code back |
| OptimizationsSequences.RebuiltLabels | dlang_vm/src/optimizations/optimizations_sequence.cpp:48-51 | every label of the U-code is in the rebuilt code |
| OptimizationsSequences.RebuiltOrder | dlang_vm/src/optimizations/optimizations_sequence.cpp:48-51 | the rebuilt code carries the U-code's `cp`s in increasing order of origin |
| OptimizationsSequences.OptimizedCodeKeepsLabels | dlang_vm/src/optimizations/optimizations_sequence.cpp:33-54 | the optimized U-code keeps every label of the original, and its instructions come in the order of the originals whose `cp` they carry |
| OptimizationsSequences.LowerOne | dlang_vm/src/optimizations/optimizations_sequence.cpp:39 | one `getTInstruction` keeps the state valid and in its mode, fails only with `OptimizationError`, and otherwise lowers the instruction |
| OptimizationsSequences.LowerCode | dlang_vm/src/optimizations/optimizations_sequence.cpp:37-40 | the first loop lowers every U-instruction in order with one state, failing only with `OptimizationError` |
| OptimizationsSequences.Relower | dlang_vm/src/optimizations/optimizations_sequence.cpp:48-51 | the last loop computes `Relowered` |
| OptimizationsSequences.OptimizationsSequence.constructor | dlang_vm/src/optimizations/optimizations_sequence.h:18 | a new sequence has no passes |
| OptimizationsSequences.OptimizationsSequence.Kinds | dlang_vm/src/optimizations/optimizations_sequence.h:18 | the kinds of the passes, in order |
| OptimizationsSequences.OptimizationsSequence.Add | dlang_vm/src/optimizations/optimizations_sequence.cpp:8-10 | `add` appends the pass |
| OptimizationsSequences.OptimizationsSequence.RunPasses | dlang_vm/src/optimizations/optimizations_sequence.cpp:43-45 | the middle loop computes `Passes` over the sequence's kinds |
| OptimizationsSequences.OptimizationsSequence.Optimize | dlang_vm/src/optimizations/optimizations_sequence.cpp:33-54 | `optimize` fails only with `OptimizationError`, and otherwise gives the rebuilt code of the passes' result on the lowered code |
| OptimizationsSequences.OptimizationsSequence.OptimizeFunction | dlang_vm/src/optimizations/optimizations_sequence.cpp:12-21 | in function mode: the rebuilt result of the passes when lowering and passes succeed, the U-code unchanged otherwise |
| OptimizationsSequences.OptimizationsSequence.OptimizeTrace | dlang_vm/src/optimizations/optimizations_sequence.cpp:23-31 | in trace mode: the rebuilt result of the passes when lowering and passes succeed, the U-code unchanged otherwise |

## Left out

- Native code emission is not modelled: GNU lightning calls, `u_instruction_jit_compile.cpp`, `jit.h`, `jit_vm.h` and `compiled_instructions.cpp`. `JITState` keeps only its branch bookkeeping. Lightning nodes are opaque ids, and what would be emitted is recorded as a log.
- `flow_graph.tpp`, `code.tpp`, `b_group.tpp`, `u_code_builder.tpp`, `dlang_vm.tpp` and `group_jit.tpp` are not part of this model. `FlowGraph` and `Code` are modelled from their headers and tests.
- FlowGraphs.FlowGraph.AddOutEdge: the effect of `addOutEdge` is not visible in the headers. It is recorded in a set of out-edges and adds no successor.
- Block boundaries (`getBlocks`) are not visible in the headers either. The optimizations take them as a partition of the line: consecutive pieces that together give the line.
- The orchestrator loop (`DlangVM`), `GroupJIT`, `BGroup` and the redundant-checks pass are not modelled, because their implementations are not visible.
- The following are not modelled:
  - command-line options and `main.cpp`;
  - every printer and `out/` file;
  - the timer and the execution statistics;
  - the RPython JIT-driver hooks and the file reading in `meta_dlang_vm.py`;
  - the test and build scripts.
- Reading an integer from standard input, in both interpreters, is a parameter: the sequence of input lines.
- Undefined behaviour in C++ is not given a meaning:
  - `INT_MIN / -1` is excluded by preconditions (`Interpreter.DivDefined`, `Interpreter.StepDefined`), in the interpreter, its U-lowering and constant folding.
  - A divisor whose `size_t` word is not 0 but whose `int` cast is 0 is excluded the same way, because `BOper` tests the word and then divides the casts. An example is `PUSH STACK_INT 4294967296` followed by `OPER DIV`.
  - `MK_CLOSURE` with a size above `INT_MAX` is excluded by `Interpreter.StepDefined`. Its `int` loop counter would overflow.
  - `UInstructions.LoweringDefined` excludes `LOOKUP` at offset `INT_MAX`, whose `offset + 1` overflows even for stack lookups. It also excludes closures of size `INT_MAX` or more, whose last heap offset overflows.
  - UInstructions.AllocatingSteps, UInstructions.StraightSteps, UInstructions.ClosureStepsForward and UInstructions.ClosureSum require `size <= INT_MAX - 2`. At `INT_MAX - 1` the `hp` immediate `size + 2` overflows, and `UClosureLowering.ClosureImmediates` shows it wrapping to `INT_MIN`.
  - `TracingJIT::notifyLanding` at `cp == landings_.size()` is excluded by a precondition.
  - An out-of-range `operator[]` during garbage collection gives the outcome `None`.
- Signed overflow is modelled as 32-bit wrap-around, the same as the Python interpreter's `to_int`. This applies to the interpreter's arithmetic, to constant folding (`TInstructions.FoldedArithmeticAgrees` and the other `Folded*` lemmas) and to the closure immediates of the U-lowering (`UClosureLowering.ClosureImmediates`).
- Raw-pointer aspects of `Memory` are not modelled: `getDataPtr`, `getSizePtr` and the destructor. The indeterminate contents of `new Item[size]` are modelled as blank cells, tag `Unit` with value 0.
- TaggedMemory.NoAllocationAllocateMemory: requires `initialSize > 0`. With 0, `checkSize` would loop forever. The program uses 1000.
- MetaInterpreter.Run: bounded by a fuel parameter, because termination of the Python interpreter loop is not proved. A run out of fuel is reported as unfinished.
- Machine.VMState.ToString: the recursion over heap items is bounded by fuel, since heap items may form cycles.
- DeadCodes.Liveness: its own ensures states only that there is one live set per node. `LivenessFixpoint` and `LivenessLeast` state the meaning: the least fixpoint of the transfer, which the `do … while` iteration reaches. It uses the intended empty new sets; the as-written sets are `LivenessAsWritten`.
- DeadCodes.Step: uses the intended empty new `IntSet`. The as-written round, whose new sets hold uid 5, is `StepAsWritten`, related to it by `TransferAsWrittenMeaning` (see Findings).
- DeadCodes.NoneLive: the intended empty starting sets. As written every new set holds uid 5, which `TransferAsWrittenMeaning` shows makes no difference to where the loop ends.
- DeadCodes.NewLive: computes the intended transfer. The as-written one is `TransferAsWritten`.
- DeadCodes.Sweep: a round of the intended analysis. As written each recomputed set also holds uid 5 unless the node writes it; `LivenessAsWrittenFixpoint` and `LivenessAsWrittenLeast` describe where that analysis ends.
- DeadCodes.Sweep: `changed` compares the elements of the live sets, while `liveOld != live[node]` (dead_code.cpp:37) compares `IntSet` storage, length included (`IntSets.LengthCountsForInequality`). A round that only grows some set's storage is a change in the source and none in the model, so the source may run more rounds than `ComputeLive`. Those rounds start from the live sets, where `ExtraRoundsKeepLiveness` shows they change no element, so both loops end with the same elements. The storage lengths themselves are not modelled.
- DeadCodes.ComputeLive: ends with the intended live sets. The as-written ones are `LivenessAsWritten`.
- DeadCodes.DeadGraph: marks the intended dead nodes. The as-written pass keeps, in addition, the writes of uid 5 that `DeadNodesAsWrittenMeaning` names.
- OptimizationsSequences.RunDeadCode: like `DeadGraph`, and so are `Passes` and `Optimize` whenever dead-code elimination is among the passes.
- DeadCodes.Iterate: its own ensures states only the length; `IterateFixpoint` and `IterateBelow` state the meaning.
- CopyPropagations.PropagateAlong: its own ensures states only the length; `PropagateAlongMeaning`, `PropagateAlongFirst` and `PropagateAlongOffLine` state the meaning.
- CopyPropagations.CopyLine: its own ensures states only the length. `CopyLineKeeps`, `NoCopiesNoChange` and `FirstCopyReaches` state the meaning, and `OptimizeLine` is proved to compute it.
- CopyPropagations.CopyBlocks: its own ensures states only the length; `CopyBlocksKeeps` states the meaning.
- CopyPropagations.CopyPropagated: its own ensures states only the length. `CopyPropagatedKeeps` states the meaning, and `CopyGraph` is proved to compute it.
- OptimizationsSequences.Relowered: its own ensures states only the length; the lemmas on `Relowered` and the optimisation results state the meaning.
- TInstructions.GetUInstruction: its ensures states only that the cp is kept. `ArgumentsAgreeWithUCode` and `LoweredFrom` state the rest.
- IntSet words are modelled as sequences of 64 booleans, least significant bit first, not as `uint64_t` bit-vectors. `|=`, `&=` and the shifts are written out on those bits.
- UnusedWrites: keys are `TArgument` identities, modelled as positions of argument objects. It is not proved that lowering always creates fresh argument objects. `NoSharedWriteArgsNoRemoval` states the consequence, that without shared write arguments the pass removes nothing.
- OptimizationsSequences.OptimizeFunction: requires a `ULabel` in the input when copy propagation is among the passes. `CopyPropagation::optimizeGraph` dereferences the start node, so the graph must be non-empty when that pass runs. A label guarantees this, because labels survive every pass, but it is more than the code needs.
- OptimizationsSequences.OptimizeTrace: the same requirement as `OptimizeFunction`, for the same reason.
- OptimizationsSequences.LowerCode: a failure of lowering is characterised only as `OptimizationError`.
- `toBeRemoved` marks that survive between `optimize` calls on the same pass object are modelled. The results are stated for pass objects without stale marks.
- C++ leaves the evaluation order of function arguments unspecified. The model takes left to right. This affects only the numbering of fresh T-variable uids, and the order in which `MK_CLOSURE` parses its label and its size.
- Python interpreter: items and lists are objects in a store, so mutation visible through shared references is kept. String formatting of Python exceptions beyond the VM's own messages is not modelled.

## Findings

| source | as written | input that shows it | evidently intended | confidence | as-written member | corrected member |
|---|---|---|---|---|---|---|
| dlang_vm/src/data_structures/int_set.h:17 | `std::vector<size_t> set_{32, 0}` is a brace initialiser and builds the two words 32 and 0 | a new `IntSet`, where `get(5)` holds because 32 has bit 5 set | 32 zero words, an empty set | not executed | IntSets.NewSetAsWrittenContainsFive | IntSets.NewSetIsEmpty |
| dlang_vm/src/jit_policies/tracing_jit.h:20 | `landings_{256}` builds a one-element vector holding 256 | a first back edge to cp 0 counts 257 landings; a landing at cp 1 indexes outside the vector | 256 zero counters | not executed | TracingJits.FirstLandingAsWritten | TracingJits.FirstLanding |
| dlang_vm/src/b_dlang/b_code_builder.cpp:17-24 | the label pre-pass numbers labels by raw line index, counting blank lines, while instruction cps skip blank lines | a program with a blank line before a `LABEL`, so a `GOTO` to it lands one past the label | number labels by non-empty lines, as cps are numbered | not executed | BuilderLabels.BlankLineShiftsLabels | BuilderLabels.BlankLineCorrected |
| dlang_vm/src/t_dlang/t_instruction.cpp:176-184 | `TMove::fold` returns only for a self-move and falls off the end otherwise, which is undefined behaviour | constant folding of a move of an immediate into a register | return the move itself when it is not a self-move | not executed | TInstructions.MoveOfImmediateFallsOffEnd | TInstructions.MoveFoldKeepsMoves |
| dlang_vm/src/optimizations/dead_code.cpp:23 | `live[node] = {}` restarts each live set from a new `IntSet`, which as declared (`int_set.h:17`) holds uid 5, so uid 5 is live at every node that does not write it | a move into `r0` as the variable with uid 5, followed by a halt: nothing reads the move, yet the pass keeps it | each live set restarts empty, so that an unread write of uid 5 is removed like any other | not executed | DeadCodes.FiveKeptExample | DeadCodes.RemovedWriteUnread |
