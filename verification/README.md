# A verified model of Tagha

Tagha is a bytecode virtual machine with its own assembler, module writer, loader, linker and memory
allocators. This Dafny project models these parts as the C sources write them, and proves that they fit
together: what the assembler means is what the machine does, what the writer prints is what the loader
parses, what linking resolves is what a call reaches, and what the allocators hand out is disjoint and
accounted for.

`dafny verify dfyconfig.toml` checks everything.

The modelled platform is LP64 and little-endian, with 64-bit wrap-around written out where an operation
depends on it.

## Reading order

1. **Words, Cells, Isa, Codec**: machine words and their bytes; the operand stack as bytes; the
   instruction set; the encoder, and the two readers of encoded code (the machine's dispatch loop, which
   fetches whole words and splits them, and the disassembler, which reads field by field).
2. **Program, Assembler, AssemblerProofs**: function bodies as lists of statements and labels; the two
   passes of the assembler as methods over a mutable record; what they produce.
3. **Vector, Machine, ByteVm, SourceVm**: what every instruction does to registers, memory and control.
   Instructions do not depend on how code is addressed, so their meaning is given once, over an arbitrary
   type of code pointers (`Machine`). `ByteVm` runs encoded modules, with addresses; `SourceVm` runs
   assembly source, with positions in function bodies, calls by name and jumps to labels.
   **Arithmetic, MemoryInstructions, ControlTransfer, LaneLaws** state, instruction by instruction, the laws that
   single out what each of them does: in integers, in bits, in bytes of memory, and in where control goes.
4. **Vm**: the execution loop as a mutable object: stack pointers that are addresses, a link register in which
   0 means none, in-place cells, a nested loop for every call into another module. Every turn is proved to be a
   step of the byte machine, every run a run.
5. **Relate, Simulation**: assembling preserves meaning, step by step and over whole runs.
6. **Recursion, CountingLoop, HostCalls, Fusion, Discipline, MemorySafety**: the recursive example programs compute
   factorials and Fibonacci numbers for every argument, and the loop ends for every bound; a host that passes an
   argument and reads the value gets the factorial; replacing instruction sequences by super-instructions preserves
   every run; functions that take and give back their cells in a balanced way restore both stacks; what the bounds
   check lets through. **RecursionOnBytes, FusionOnBytes, DisciplineOnBytes** say the same of assembled code.
   **LoadedMemory** shows where the loader puts stacks and tables, and with that what the theorems on memory ask of
   the segments.
7. **ModuleImage, Loader, SymTable, Linker, Toolchain**: the module image and the loader, which goes by the header in
   the image, are inverse exactly when sizes and offsets fit 32 bits; the hash index agrees with a linear scan;
   linking is sound and monotone; and from source to linked, running modules the meaning of a program is preserved.
8. **Disassembler**: the walk over assembled code finds back its instructions.
9. **Region, FreeList, MemPool, ObjPool, Budget**: the bump allocator, the first-fit free list, the memory pool,
   the object pool, and the arithmetic by which the assembler reserves what the loader allocates.

## How state is modelled

- Methods with loops over mutable records are classes or methods with loops (`Assembler.Asm`, `Vm.Module`,
  `ModuleImage.ModGen`, `SymTable.Table`, `Linker.LinkModule`, `FreeList.FreeList`, `MemPool.MemPool`,
  `ObjPool.Pool`, `Region.Region`, the lane loops of `Vector`). Each is proved against functions on values, and
  the theorems are about those functions.
- The nodes of the free lists live in the memory they describe, so they are kept in a map from addresses to
  nodes; a null pointer is address 0, and splitting a block writes a node in its middle.
- The operand stack counts cells in `Machine` and is addressed in bytes in `Vm`. Behaviour that C leaves
  undefined (division by zero, a shift by the width or more, a register above the top of the stack, a full or
  empty call stack, overlapping vector operands, signed overflow of promoted 16-bit lanes) is the outcome
  `Undefined`; theorems about a run say nothing after it.
- Calls into another module keep an explicit list of the loops to return to.

## Where code and documentation differ

The model follows the code.

- `enter` pushes the link register before it allocates (tagha/tagha.c:521-524), so an overflowing `enter` leaves
  it pushed; the instruction manual lists the parts the other way round (documentation/ISA.md:360-361), which
  `Fusion.EnterIsAllocThenPushIff` shows to be the same exactly when there are cells enough.
- A symbol table takes 304 bytes, not the 296 of the comment at tagha/tagha.h:261.
- Lookup compares hashes or names (tagha/tagha.c:22), so it returns the first entry with the key's hash.
  `SymTable.FirstHashIsFirstName` gives the exact condition under which that is the entry of that name;
  `SymTable.LookupFindsOtherName` two names for which it is not, and `Linker.LinkedToOtherName` an extern that is
  linked to a function of another name. `Linker.LinkedByNameIff` gives the exact condition on a set of modules under
  which no order of linking does that.
- The bounds check of a wide memory access looks at its last byte only (tagha/tagha.c:662 and 694), and the
  upper bound is one past the end of the operand stack (tagha/tagha.c:63). `MemorySafety.CheckedReach` says how far an
  access can then reach, `MemorySafety.PassedIsBetweenIff` which of those that pass lie between the segments.
- `callr` decides by comparing owners with the module the host started, not with the module whose tables are
  in force (tagha/tagha.c:1186). Called from library code, a function of the started module then runs with the
  library's tables; `Discipline.PointerCallsMisplaceIff` gives the exact condition on the function pointed to, and
  `Discipline.ApplyingMisplaces` a program of two modules that does it. Starting a linked function from the host does
  it as well (tagha/tagha.c:407-439); `Discipline.HostStartPlacedIff` says when a start does not.
- Operands are checked against wider ranges than their fields have, or not at all: `movi` accepts register 256
  (tagha_toolchain/assembler/assembler.c:930), and offsets, function and variable numbers and jump distances of any
  size are encoded truncated. `AssemblerProofs.AcceptedIsExact` says exactly which accepted statements are encoded as
  something else.
- Header fields are sums in 32 bits, so images of 4 GiB and more read back as others; `Loader.ImageRoundTrip` gives the
  exact condition.
- The object pool looks at an address given back only to see that it is not outside, and lets the one just past its
  last block through (tagha/allocators/objpool/objpool.c:90); `ObjPool.FreeIsSoundIff` says for which addresses the
  free list stays sound.
- The factorial program leaves arguments 0 and 1 as they are, so it computes n! for n >= 1 only.
- The size field of a function entry without code counts 8 bytes that are not written; `ModuleImage.SizeFieldIff`
  says that this is the only case in which it is wrong.
- `vmov` and `vcmp` go by the element width as set, while lane-wise operations take every width but 1, 2 and 4
  for 8. `Vector.MoveIsLanewiseIff` and `Vector.SameIsLanewiseIff` give the exact conditions under which they copy and
  compare lanes.
- The region allocator's subtraction can pass below address zero for buffers that start lower than they are
  long; `Region.RightUnlessBelowZero` gives the exact condition.
- The test program leaves its frame with `restore` (test_asm/test_factorial.tasm:13), which does not give back the
  cell `enter` took, so the host's stack pointer ends one cell lower (`HostCalls.MainFromHost`).

## Model

| member | source | states |
|---|---|---|
| `Isa.OpOfOpCode` | tagha/tagha.h:98-143 | Every operation's opcode number selects that operation again: the numbering by position in the instruction list is injective and stays below the number of operations. |
| `Isa.OpCodeOfOp` | tagha/tagha.h:98-143 | Every number below the bound is the opcode of the operation it selects, so the numbering is a bijection. |
| `Isa.OpcodesArePositions` | tagha/tagha.h:98-143 | The number of every instruction is its position in the list of instruction names, spelled out in the order of the source. |
| `Codec.InstrGen` | tagha_toolchain/instr_gen.h:13-131 | The encoder appends exactly the instruction's bytes when given a buffer, and returns their number with or without one, so measuring and emitting agree. |
| `Codec.RegisterLayout` | tagha_toolchain/instr_gen.h:22-130 | Byte by byte: an instruction on one or two registers is its opcode and the registers, destination first. |
| `Codec.WordLayout` | tagha_toolchain/instr_gen.h:22-130 | A 16-bit operand follows the opcode, lower byte first ... |
| `Codec.IndexedLayout` | tagha_toolchain/instr_gen.h:22-130 | ... or the register. |
| `Codec.MemoryLayout` | tagha_toolchain/instr_gen.h:22-130 | Loads and stores: destination, source, and the offset modulo 2^16. |
| `Codec.JumpLayout` | tagha_toolchain/instr_gen.h:22-130 | Jumps: the displacement modulo 2^32, lowest byte first. |
| `Codec.ConstantLayout` | tagha_toolchain/instr_gen.h:22-130 | Constants: the register, then eight bytes, lowest first. |
| `Codec.ReadersAgree` | tagha_toolchain/disassembler/disassembler.c:78-220 | On any bytes whatever the machine's word-splitting reader and the field reader of the disassembler see the same operands, sign-extended 16-bit offsets included. |
| `Codec.FetchEncoded` | tagha_toolchain/instr_gen.h:22-130 | Decoding is a left inverse of encoding: wherever an in-range instruction's bytes lie, exactly it is fetched and control advances by its size. |
| `Codec.FetchedIsEncoded` | tagha/tagha.c:495-517 | Decoding is a right inverse: any bytes accepted as an instruction are the encoding of a unique in-range instruction of the size advanced by. |
| `Cells.BytesOfSet` | tagha/tagha.c:753-816 | Writing bytes into the operand stack changes those bytes and no others. |
| `Cells.CellsOfBytes` | tagha/tagha.c:605-611 | The operand stack as bytes and as cells determine each other. |
| `Assembler.Asm.FirstPass` | tagha_toolchain/assembler/assembler.c:402-516 | The first pass registers functions in order of declaration, files every label under label name and function name at the bytes before it, and reports an error exactly on a redefinition. |
| `Assembler.Asm.SecondPass` | tagha_toolchain/assembler/assembler.c:531-958 | The second pass gives every function the code of its statements, or reports an error when a statement is rejected. |
| `Assembler.Asm.EmitStmt` | tagha_toolchain/assembler/assembler.c:585-952 | A statement is turned into the instruction with names and labels resolved, appended, and counted; jumps are measured before their offset is computed. |
| `Assembler.Asm.Gen` | tagha_toolchain/assembler/assembler.c:920-922 | Appending an instruction advances the program counter by exactly the bytes appended. |
| `AssemblerProofs.EmitLength` | tagha_toolchain/assembler/assembler.c:485-508 | The two passes agree on positions: the bytes emitted for any prefix of a body are what the first pass counted for it. |
| `AssemblerProofs.EmitAt` | tagha_toolchain/assembler/assembler.c:585-952 | The bytes of each statement's instruction lie in the code at the statement's offset. |
| `AssemblerProofs.LabelsFind` | tagha_toolchain/assembler/assembler.c:494-505 | With distinct keys, every label is found at the offset of its mark, whatever follows it. |
| `AssemblerProofs.NamesInOrder` | tagha_toolchain/assembler/assembler.c:443-472 | With distinct names, function numbers are declaration positions. |
| `AssemblerProofs.LowerIsMeaning` | tagha_toolchain/assembler/assembler.c:742-922 | Both passes together turn every statement into an in-range instruction: calls count functions from 1, function addresses from 0, and a jump's displacement leads from the next instruction to its label. |
| `AssemblerProofs.ProgramEmits` | tagha_toolchain/assembler/assembler.c:535-958 | A program whose operands are in range and whose names are declared is assembled without error. |
| `AssemblerProofs.FetchStatement` | tagha_toolchain/assembler/assembler.c:535-958 | Wherever a function's code is placed, fetching at a statement's offset gives the instruction it stands for and moves on to the next statement's offset. |
| `AssemblerProofs.JumpLandsOnLabel` | tagha/tagha.c:1090-1112 | Every jump, forward or backward, added to the address after its operand, lands on its label. |
| `AssemblerProofs.AcceptedIsExact` | tagha_toolchain/assembler/assembler.c:742-947 | An accepted statement of any kind is fetched as what it says, with names and labels resolved to numbers of any size, exactly when these fit their fields: register below 256 for `movi`, offset within 16 bits, number below 2^16 for `call` (counting from 1), `ldfn` and `ldvar`, and distance within 32 bits for jumps. |
| `AssemblerProofs.ChecksAgainstRanges` | tagha_toolchain/assembler/assembler.c:596-935 | The operand checks are those of the fields' ranges but for register 256 of `movi`, offset 65535 of `lra`, the widths `setelen` refuses, and offsets of loads and stores, which are not checked. |
| `AssemblerProofs.OffsetWraps` | tagha_toolchain/assembler/assembler.c:818-892 | An offset of 2^15 is accepted and encoded as -2^15. |
| `AssemblerProofs.LargeIndicesAccepted` | tagha_toolchain/assembler/assembler.c:742-789 | In every source of more than 2^16 functions and variables, numbered names, calls of the 65536th function and references to the 65537th function or variable are accepted ... |
| `AssemblerProofs.LargeIndicesWrap` | tagha_toolchain/instr_gen.h:13-131 | ... and encoded like those with number 0. |
| `AssemblerProofs.JumpWraps` | tagha_toolchain/assembler/assembler.c:914-918 | In a function that starts with a jump over 2^31 bytes, the jump is accepted and encoded as one 2^31 bytes backwards. |
| `AssemblerProofs.Register256Is0` | tagha_toolchain/assembler/assembler.c:930-932 | Register 256 is accepted and encoded as register 0. |
| `Machine.RunMore` | tagha/tagha.c:498-517 | Runs of any of the machines compose. |
| `Arithmetic.Division` | tagha/tagha.c:845-862 | Division and remainder are the unsigned quotient and remainder, undefined for divisor 0 only. |
| `Arithmetic.SubUndoesAdd` | tagha/tagha.c:818-835 | Addition and subtraction undo each other, wrap-around included. |
| `Arithmetic.Orders` | tagha/tagha.c:1008-1052 | Signed and unsigned comparisons are total orders with `cmp` as their equality. |
| `Arithmetic.SignedAgainstUnsigned` | tagha/tagha.c:1017-1052 | The two orders agree on words of the same sign and are opposite on others. |
| `Arithmetic.ShiftBack` | tagha/tagha.c:974-991 | Shifting left and back keeps exactly the bits not shifted out. |
| `Arithmetic.ArithmeticShift` | tagha/tagha.c:992-1000 | The arithmetic shift divides the signed value by the power of two, rounding down. |
| `Arithmetic.Moves` | tagha/tagha.c:552-566 | `mov` and `movi` leave the source's value or the constant in the destination and change nothing else; `nop` changes nothing. |
| `Arithmetic.Sums` | tagha/tagha.c:818-844 | `add`, `sub` and `mul` leave the word congruent modulo 2^64 to sum, difference and product of destination and source, and change nothing else. |
| `Arithmetic.Divides` | tagha/tagha.c:845-862 | `idiv` and `mod` leave the q and r with q·y + r = x and r < y, and are undefined for y = 0. |
| `Arithmetic.BitByBit` | tagha/tagha.c:947-972 | Bit by bit, for each of the 64: `and` has it when both operands have, `or` when one has, `xor` when exactly one has. |
| `Arithmetic.Inverts` | tagha/tagha.c:863-1088 | `neg` leaves what adds up to 0 with the operand modulo 2^64, `not` exactly the bits the operand has not, `setc` 1 or 0 as the condition. |
| `Arithmetic.Shifts` | tagha/tagha.c:974-1000 | Shifts by less than 64: left, the product with the power of two modulo 2^64; right, the unsigned or signed quotient rounded down; undefined otherwise. |
| `Arithmetic.Comparisons` | tagha/tagha.c:1008-1052 | Each comparison sets the condition as the unsigned or two's-complement values compare, and changes nothing else. |
| `Arithmetic.Frames` | tagha/tagha.c:568-592 | `alloc` takes its cells or stops with error 3, `redux` gives them back as far as there are any; neither changes anything else. |
| `Arithmetic.Shapes` | tagha/tagha.c:1285-1292 | `setelen` sets the width of vector elements, `setvlen` their number. |
| `MemoryInstructions.StoreWrites` | tagha/tagha.c:753-816 | With the width by the instruction's name: a store stops with error 5 exactly when its last byte is not between the segments; one that goes through writes the low 1, 2, 4 or 8 bytes of its register, lowest first, and changes no other byte. |
| `MemoryInstructions.LoadReads` | tagha/tagha.c:639-751 | A load stops with error 5 exactly when its last byte is not between the segments; one that goes through leaves the number in 1, 2, 4 or 8 bytes of memory, extended by zeros or by its sign as the instruction's name says. |
| `MemoryInstructions.StoreThenLoad` | tagha/tagha.c:639-816 | A store and the load of its width through the same address leave the stored register's value truncated to that width and extended, for all seven loads. |
| `MemoryInstructions.LeaAdds` | tagha/tagha.c:612-621 | `lea` leaves base plus offset modulo 2^64, without touching memory. |
| `MemoryInstructions.LraAddresses` | tagha/tagha.c:605-611 | `lra` leaves the address of the register it names: an 8-byte load through it reads that register. |
| `ControlTransfer.SourceJumps` | tagha/tagha.c:1090-1112 | In source: `jmp` goes to its label, `jz` when the condition is false, `jnz` when it is true; otherwise the next statement follows. |
| `ControlTransfer.ByteJumps` | tagha/tagha.c:1090-1112 | On bytes: the same, the displacement counted from the next instruction. |
| `ControlTransfer.CallsByName` | tagha/tagha.c:1114-1163 | A call by name goes to the first function of that name: own code with the return address in the link register, a linked extern in a nested loop with its module's tables; unlinked natives stop with error 1, unlinked externs with error 2. |
| `ControlTransfer.NestedEnds` | tagha/tagha.c:1134-1158 | When a nested loop ends, with whatever error, the caller goes on behind its call with link register, tables and call stack as they were. |
| `ControlTransfer.LoadedFunctionIsFound` | tagha/tagha.c:631-637 | The pointer `ldfn` leaves for a function number is found again, among tables that do not overlap, as that function of that module. |
| `ControlTransfer.CallsThroughPointer` | tagha/tagha.c:1164-1213 | A call through the pointer to a function enters its code, or that of the function it is linked to: locally if its module is the one the host started, else in a nested loop; natives, unlinked externs and the null pointer stop with errors 1, 2 and 6. |
| `ControlTransfer.Returns` | tagha/tagha.c:542-551 | `ret` goes where the link register says; with a clear one, and at `halt`, the innermost loop ends. |
| `ControlTransfer.KeepsLink` | tagha/tagha.c:526-533 | `pushlr` stores the link register last, `poplr` takes the last one back. |
| `Vm.Module.Exec` | tagha/tagha.c:455-551 | Executing from an address performs exactly a run of the byte machine, of as many steps as turns taken, and ends as it does: by its own exit, out of turns, or where C leaves the behaviour undefined. |
| `Vm.Module.Loop` | tagha/tagha.c:498-517 | The same for the loop on top of any nest of loops. |
| `Vm.Module.OneTurn` | tagha/tagha.c:1114-1163 | One turn, with the nested loop it may start, is a run of the byte machine. |
| `Vm.Module.EnterModule` | tagha/tagha.c:1134-1158 | A call into another module runs in a loop of its own with that module's tables and no link register; the caller's tables and link register are restored afterwards, whether or not an error was raised. |
| `Vm.Module.ExecOne` | tagha/tagha.c:518-603 | Every instruction on the mutable record does what the byte machine's step says. |
| `Vm.Module.ExecData` | tagha/tagha.c:552-1089 | The same for instructions on registers, memory and vectors, with the whole new state. |
| `Vm.Module.ExecMemory` | tagha/tagha.c:605-816 | The same for loads and stores, including the wrap-around bounds check. |
| `Vm.Module.AllocCells` | tagha/tagha.c:568-580 | Allocation moves the stack pointer down or raises the overflow error and leaves it. |
| `Vm.Module.ReduxCells` | tagha/tagha.c:581-592 | Deallocation saturates at the top of the stack. |
| `Vm.Module.PushLink` | tagha/tagha.c:442-446 | Pushing the link register appends it to the call stack. |
| `Vm.Module.PopLink` | tagha/tagha.c:448-452 | Popping takes the last one back. |
| `Vm.Module.PlaceArguments` | tagha/tagha.c:422-430 | If there is room, the stack pointer is lowered, the arguments copied above the cell of the value and the link register cleared; otherwise the overflow error is set. |
| `Vm.Module.InvokeFunction` | tagha/tagha.c:421-437 | A call from the host is the byte machine's run from that state; the value is read from the cell at the stack pointer, which is then raised by the room taken. |
| `Relate.PerformRelated` | tagha/tagha.c:518-603 | Instructions cannot tell how code is addressed: with corresponding operands and code pointers, one instruction keeps the correspondence, in every outcome. |
| `Relate.RunRelated` | tagha/tagha.c:498-517 | Machines whose steps correspond have corresponding runs. |
| `Relate.CoarseRunIsRun` | documentation/ISA.md:348-361 | A machine each of whose steps is one to three steps of another runs as the other does. |
| `Relate.RunIsCoarseRun` | documentation/ISA.md:348-361 | And every terminating run of the other is one of it, in no more steps. |
| `Simulation.ResolveRelated` | tagha_toolchain/assembler/assembler.c:742-922 | The instruction assembled for a statement means what the statement means: same operands, and callees and jump targets at corresponding places. |
| `Simulation.StepSimulates` | tagha/tagha.c:518-1213 | Wherever the label-level machine is defined, the byte machine at the address of the same position does the same and arrives at the address of the new one. |
| `Simulation.RunSimulates` | tagha/tagha.c:455-1213 | Assembling preserves meaning: every run of the source has a byte run of the same length and outcome, with the same data and with link register, call stack and pending loops holding the addresses of the source positions. |
| `Recursion.FactorialReturns` | test_asm/test_factorial.tasm:16-39 | For every argument n and enough stack, a call of `factorial` comes back to its return address with n! modulo 2^64 in the caller's r0 (0 for 0), both stacks restored and every other cell of the caller untouched. |
| `Recursion.FibReturns` | test_asm/test_fib34.tasm:14-45 | For every n below 2^63 and enough stack, a call of `fib` comes back with the n-th Fibonacci number modulo 2^64, in the same way. |
| `Recursion.FactorialListing` | test_asm/test_factorial.tasm:16-39 | The listing of `factorial` is the one the theorem speaks of. |
| `Recursion.FibListing` | test_asm/test_fib34.tasm:14-45 | The listing of `fib` is the one the theorem speaks of. |
| `CountingLoop.LoopEnds` | test_asm/test_loop.tasm:9-21 | The loop test, for every bound and whatever its counter starts from: it ends after exactly the rounds that lead to the bound modulo 2^64, with the bound as the value. |
| `RecursionOnBytes.FactorialOnBytes` | tagha/tagha.c:518-603 | Wherever it has been loaded, the assembled code of `factorial` computes the factorial on the byte machine and returns with everything restored. |
| `RecursionOnBytes.FibOnBytes` | tagha/tagha.c:518-603 | And the assembled code of `fib` the Fibonacci numbers. |
| `Fusion.StartsAt` | documentation/ISA.md:348-361 | Fused items stand for consecutive groups of the original body, without gaps. |
| `Fusion.MarkStarts` | documentation/ISA.md:348-361 | Every label stands before the group it stood before, so jumps keep their targets. |
| `Fusion.SuperIsParts` | tagha/tagha.c:521-603 | A super-instruction is its parts in sequence on every state: overflow, saturation, and exits from nested loops included. |
| `Fusion.EnterIsAllocThenPushIff` | documentation/ISA.md:360-361 | With room on the call stack, `alloc` then `pushlr`, as the manual has it, leads to what `enter` leads to exactly when the cells are there; on overflow they differ in the link register pushed. |
| `Fusion.GroupRuns` | tagha/tagha.c:521-603 | In the original body the group runs as its fused item would. |
| `Fusion.FusedRunIsRun` | documentation/ISA.md:348-361 | Every run of a program with all its groups fused and its labels resolved again is a run of the original with the same outcome, of at most three times as many steps. |
| `Fusion.RunIsFusedRun` | documentation/ISA.md:348-361 | Every run of the original that comes to an end does so fused, with the same operand stack, memory, condition, error, and corresponding link register and call stack. |
| `FusionOnBytes.FusedModulesOk` | documentation/ISA.md:348-361 | Fused modules meet the assembler's conditions whenever the originals do: no name, label or branch is lost, and no offset grows. |
| `FusionOnBytes.FusedCodeAgrees` | documentation/ISA.md:348-361 | So with both programs assembled and loaded, whenever a run of the original stops, both byte machines stop with the same operand stack, memory, condition and error. |
| `Discipline.StepKeeps` | tagha/tagha.c:518-603 | One step in a program whose bodies all have balanced frames (cells taken and given back, link register saved and taken back, by any of the frame instructions) keeps every pending call's frame and return address in place, or returns from the outermost one, or raises an error. |
| `Discipline.EnterLeaveIsBalanced` | documentation/ISA.md:348-361 | In particular bodies that enter once, leave wherever they end, and allocate nowhere else are balanced. |
| `Discipline.EveryCallIsKept` | tagha/tagha.c:1114-1163 | After any number of steps a call has come back with both stacks restored, or is still in progress, or an error was raised. |
| `Discipline.BackFromLocalCall` | tagha/tagha.c:1158-1162 | Coming back from a call within a module: control is right after the call with the caller's stack pointer, call stack and tables. |
| `Discipline.BackFromForeignCall` | tagha/tagha.c:1134-1157 | The same for a call into another module. |
| `Discipline.NamedCallsArePlaced` | tagha/tagha.c:1114-1162 | A call by name leaves the callee's tables in force. |
| `Discipline.PointerCallsMisplaceIff` | tagha/tagha.c:1164-1213 | A call through a pointer arrives in a function with another module's tables in force exactly when the function pointed to, or the one it is linked to, is the started module's and the tables in force at the call are not. |
| `Discipline.ApplyingMisplaces` | tagha/tagha.c:1164-1213 | A balanced program of two modules that does it: a library calls through a pointer to a function of the module that called it. |
| `Discipline.StartPlaces` | tagha/tagha.c:421-430 | Starting a function puts the arguments, in order, into registers 1, 2, ... above the cell of the value, takes exactly these cells, and changes no other; it fails exactly when there are not so many. |
| `Discipline.HostStartPlacedIff` | tagha/tagha.c:407-439 | Wherever the host's start of a function begins, it runs with another module's tables in force exactly when the function is an extern linked to another module. |
| `Discipline.HostCallRestores` | tagha/tagha.c:407-439 | A host-level call of a function the module itself provides that ends without an error leaves the operand stack pointer, once the arguments are dropped, and the call stack as the host had them. |
| `HostCalls.FactorialFromHost` | tagha/tagha.c:421-437 | A whole call from the host, with the argument passed in and the value read back: n! modulo 2^64 (0 for 0) for every n with room, after which both stacks are the host's again. |
| `HostCalls.MainFromHost` | test_asm/test_factorial.tasm:9-14 | The test program run from the host, for every number in place of its 5 and any arguments: the value is the factorial; the host's stack pointer ends one cell lower. |
| `HostCalls.HostReturnsOnBytes` | tagha/tagha.c:421-437 | Any host call that returns on the source does so on the byte machine, in as many steps, with the same value in the same cell. |
| `Discipline.ErrorsStick` | tagha/tagha.c:1144-1157 | Execution may go on after an error in another module, but the error stays. |
| `DisciplineOnBytes.EveryCallOnBytes` | tagha/tagha.c:1114-1163 | The same of the assembled code: on the byte machine, at any later time the call has come back with control at its return address and everything but the data as it was, or is still in progress, or the source run has met an error. |
| `DisciplineOnBytes.HostCallOnBytes` | tagha/tagha.c:407-439 | And such a call of assembled code that ends without an error leaves the operand stack pointer and the call stack as the host had them. |
| `MemorySafety.RunBounds` | tagha/tagha.c:422-435 | After any run, nested execution and error exits included, the operand stack pointer lies within the stack, a whole number of cells from its top. |
| `MemorySafety.CheckedIff` | tagha/tagha.c:485-486 | The wrap-around comparison holds exactly when the last byte of the access lies between the segments. |
| `MemorySafety.CheckedReach` | tagha/tagha.c:655-702 | The reach of the check over all addresses: in an access of w bytes that passes, no byte wraps around, and each lies at most w - 1 bytes below the lower segment and not above the upper. |
| `MemorySafety.PassedIsBetweenIff` | tagha/tagha.c:655-702 | Of the accesses that pass, exactly those that start at or above the lower segment lie wholly between the segments. |
| `MemorySafety.BetweenIsPassed` | tagha/tagha.c:655-702 | And no access that lies between them is refused. |
| `MemorySafety.CheckMissesFirstBytes` | tagha/tagha.c:655-670 | The reach is attained below: an access that starts w - 1 bytes below the lower segment passes ... |
| `MemorySafety.CheckPassesStackEnd` | tagha/tagha.c:63-63 | ... and above: one whose last byte is the second past the operand stack. |
| `MemorySafety.ReadAfterWrite` | tagha/tagha.c:639-816 | What was written is what is read back. |
| `LoadedMemory.ServedInOrder` | tagha/allocators/mempool/mempool.c:200-227 | Requests met by a pool with nothing on its lists are met by blocks that stack up downwards in the order of the requests, each of the size asked for and a node. |
| `LoadedMemory.MemoryIsInOrder` | tagha/tagha.c:31-131 | What the loader sets up is in order and apart: globals, then tables and call stack from the last served to the first, then the operand stack, all inside the region; the segments are in order and the upper one does not wrap around. |
| `LoadedMemory.CheckPassesTables` | tagha/tagha.c:485-486 | So the bounds check passes every access to the call stack and the tables, though they are neither globals nor operand stack. |
| `LoadedMemory.LoadedMemoryInOrder` | tagha/tagha.c:31-189 | For a module loaded from what the assembler wrote, this gives all that the theorems on loads and stores ask of segments, stack and globals. |
| `Vector.BinaryIsLanewise` | tagha/tagha.c:1301-1430 | A packed operation on vectors that do not overlap sets every lane of the destination to the modular operation on the lanes that were there and changes no other byte. |
| `Vector.UnaryIsLanewise` | tagha/tagha.c:1431-1450 | The same for negation and complement. |
| `Vector.MoveCopiesLanes` | tagha/tagha.c:1293-1300 | With a lane's width set, copying copies every lane and changes no other byte. |
| `Vector.MoveIsLanewiseIff` | tagha/tagha.c:1293-1300 | For all vectors that do not overlap, exactly when the width set is one of a lane's or the vectors are empty: narrower widths, 0 among them, leave bytes behind, wider ones write past the destination. |
| `Vector.SameIffLanesEqual` | tagha/tagha.c:1733-1740 | With a lane's width set, vectors compare equal exactly when all lanes are equal. |
| `Vector.SameIsLanewiseIff` | tagha/tagha.c:1733-1740 | For all vectors, exactly when the width set is one of a lane's or the vectors are empty. |
| `Vector.OrderedIsLanewise` | tagha/tagha.c:1741-1852 | An order holds of two vectors exactly when it holds, signed or unsigned, in every lane. |
| `Vector.BinaryLoop` | tagha/tagha.c:1301-1326 | The loop over packed lanes, in place, computes the simultaneous lane-wise operation, or is undefined where a lane is. |
| `Vector.UnaryLoop` | tagha/tagha.c:1713-1732 | The same for one operand. |
| `Vector.OrderLoop` | tagha/tagha.c:1741-1852 | Counting the lanes in which an order holds decides whether it holds in all. |
| `LaneLaws.LaneIs` | tagha/tagha.c:1301-1326 | Lane i of width w is the number whose bytes lie from byte w·i of the vector's first cell on, lowest first. |
| `LaneLaws.PackedIsLawful` | tagha/tagha.c:1301-1712 | A packed operation goes through exactly when both vectors lie on the stack apart and C defines each lane; every lane of the destination is then congruent to sum, difference or product of the two that were there, or their quotient or remainder, has bit by bit the bits asked for, or is shifted, and no other byte changes. |
| `LaneLaws.PackedInverts` | tagha/tagha.c:1431-1450 | Packed negation leaves lanes that add up to 0 with the old ones, packed complement exactly the bits the old ones had not. |
| `LaneLaws.PackedOrders` | tagha/tagha.c:1741-1852 | Packed comparisons set the condition exactly when every lane compares, as unsigned or as two's-complement numbers. |
| `LaneLaws.CopiesAndCompares` | tagha/tagha.c:1293-1740 | `vmov` and `vcmp` are the copying and the equality of vectors that the rows above speak of. |
| `ModuleImage.ModGen.WriteFunc` | tagha_toolchain/module_gen.h:37-75 | Writing a function appends its entry to the function section and counts it. |
| `ModuleImage.ModGen.WriteVar` | tagha_toolchain/module_gen.h:77-110 | Writing a variable appends its entry to the variable section and counts it. |
| `ModuleImage.ModGen.WriteHeader` | tagha_toolchain/module_gen.h:27-35 | The header takes the sizes and their sums, in 32 bits. |
| `ModuleImage.ModGen.Finalize` | tagha_toolchain/module_gen.h:113-137 | The finalized bytes are header, function section, variable section and zeroed memory region, with the offsets and the size of the region as the header gives them, all modulo 2^32. |
| `ModuleImage.HeaderIsPlainIff` | tagha_toolchain/module_gen.h:27-120 | The header says the true sizes, counts and offsets exactly when the sizes add up, and all offsets lie, below 2^32. |
| `ModuleImage.SizeFieldIff` | tagha_toolchain/module_gen.h:42-74 | The size in a function entry is that of the entry exactly for functions with code. |
| `ModuleImage.ImageLayout` | tagha_toolchain/module_gen.h:113-137 | Where every field of the header lies in an image whose sizes and offsets fit, and its value as a 32-bit word. |
| `ModuleImage.FuncEntryLayout` | tagha_toolchain/module_gen.h:42-74 | Where size, flags, lengths, name, padding and code of a function lie in its entry. |
| `ModuleImage.VarEntryLayout` | tagha_toolchain/module_gen.h:83-110 | The same of a variable; its size field is the entry's size. |
| `Loader.SetupFuncTable` | tagha/tagha.c:71-131 | Starting at the offset the header in the image gives, the loader's cursor reads as many function entries as the header says into table rows, in order, and indexes them by hash. |
| `Loader.HeaderRoundTrip` | tagha_toolchain/module_gen.h:113-123 | The header read back from a finalized image is the one written, and passes the loader's checks of magic number and sizes. |
| `Loader.AcceptedIff` | tagha/tagha.c:44-48 | Of any header at all: it is accepted exactly when it begins with the magic bytes and both sums of sizes equal the size of the region modulo 2^32. |
| `Loader.SetupVarTable` | tagha/tagha.c:133-189 | The same for variables. |
| `Loader.FuncRoundTrip` | tagha/tagha.c:108-127 | Loading a finalized image by the header in it gives back every function's name, flags, order and zero-padded code (none for functions without code), with the cursor ending where the header says the variables begin, exactly when that offset is below 2^32. |
| `Loader.VarRoundTrip` | tagha/tagha.c:154-186 | And every variable's name, flags and zero-padded data, with the cursor ending where the header says memory begins, exactly when that offset is below 2^32. |
| `Loader.ImageRoundTrip` | tagha/tagha.c:31-189 | Both, and the zeroed memory region where the header says and as large as was asked for, exactly when sizes and offsets fit 32 bits. |
| `SymTable.StringHash` | tagha/harbol_common_includes.h:229-237 | The loop computes the polynomial 65599 h + c modulo 2^64 over the characters of the name, as signed numbers. |
| `SymTable.CharsAreSigned` | tagha/harbol_common_includes.h:229-237 | A character adds its byte in two's complement. |
| `SymTable.Table.Insert` | tagha/tagha.c:112-123 | Appending an entry keeps every bucket's chain the increasing list of the entries with that bucket's hashes. |
| `SymTable.Table.GetItem` | tagha/tagha.c:14-28 | Lookup terminates and returns the least index with the key's hash, and nothing exactly when no entry has it. |
| `SymTable.BucketHas` | tagha/tagha.c:85-123 | The chains partition the entries: each is in the bucket of its hash. |
| `SymTable.FirstHashIsFirstName` | tagha/tagha.c:22-24 | Lookup by hash finds the first entry of a name, or nothing if there is none, exactly when no entry before that one has the name's hash. |
| `SymTable.TellingHashesFindNames` | tagha/tagha.c:22-24 | In particular whenever the hash tells the name from all others of the table. |
| `SymTable.LookupFindsOtherName` | tagha/harbol_common_includes.h:229-237 | Two different names with the same hash, 14856841326868523042. |
| `SymTable.LookupInTableOfFirst` | tagha/tagha.c:14-28 | Looking up the one in a table that holds only the other finds the other. |
| `Linker.LinkModule` | tagha/tagha.c:337-366 | Linking resolves, in place, exactly the unlinked externs for which the library provides a function, and leaves the library alone; the library may be the module itself. |
| `Linker.LinkNatives` | tagha/tagha.c:312-323 | Offering a list of natives, up to the first without name or function, sets exactly the unlinked native entries they name. |
| `Linker.FirstNativeLinks` | tagha/tagha.c:312-323 | Of the natives offered, the first whose name finds an unlinked native entry gives it its function, flags and all. |
| `Linker.OthersStay` | tagha/tagha.c:312-323 | Every entry that no offered name finds, or that is not an unlinked native, stays as it is. |
| `Linker.LinkingIsSound` | tagha/tagha.c:337-366 | Over any sequence of link operations on loaded modules, every linked extern leads to the bytecode function that lookup of its name finds in the module named as owner, through chains of externs too, and all else is as loaded. |
| `Linker.LinkedByNameIff` | tagha/tagha.c:337-366 | Every linked extern leads to a function of its own name, after whatever operations in whatever order, exactly when no module's lookup of an extern's name finds a bytecode function of another name. |
| `Linker.LinkedToOtherName` | tagha/tagha.c:348-358 | Two modules for which it fails: an extern is linked to a function of another name. |
| `Linker.SettledStays` | tagha/tagha.c:345-347 | A linked entry never changes again, and functions with code never change. |
| `Linker.LinkingResolves` | tagha/tagha.c:348-358 | Linking against a module that defines the function by that name links the extern. |
| `Linker.RelinkingIsIdle` | tagha/tagha.c:343-364 | Linking twice against the same module does what linking once does. |
| `Linker.LinkingIsIdempotent` | tagha/tagha.c:312-366 | Every link operation, offering natives included, is idempotent. |
| `Toolchain.NamesBind` | tagha_toolchain/assembler/assembler.c:742-789 | After assembling, writing and loading by the header in the image, every call, function address and variable address refers by number to the runtime table entry that bears its name. |
| `Toolchain.LdvarFindsData` | tagha/tagha.c:154-186 | `ldvar` of a variable yields an address where its zero-padded data lies. |
| `Toolchain.LoadsReadData` | tagha/tagha.c:605-702 | And as long as the globals are as loaded, loads through that address read the data. |
| `Toolchain.AssembledModulesLoad` | tagha/tagha.c:192-204 | Assembled, written and loaded modules lie in memory as the simulation theorem wants them. |
| `Toolchain.LinkedModulesLoad` | tagha/tagha.c:337-366 | After linking they do so for the linked program. |
| `Toolchain.LoadedLinkByNameIff` | tagha/tagha.c:337-366 | Assembled, written and loaded modules meet what the exact condition for linking by name asks, so it is exact for them. |
| `Toolchain.ToolchainPreservesMeaning` | tagha/tagha.c:337-1213 | From source to linked modules: every byte run on assembled, written, loaded and linked modules does what the label-level machine does on the source, with externs pointing to the functions lookup finds for their names, hence of their own name where lookup finds no others. |
| `Disassembler.DisasmFunc` | tagha_toolchain/disassembler/disassembler.c:78-220 | The walk lists what the specification of the walk says: it stops at a zero byte or the end, passes over unknown bytes, and reads instructions whole. |
| `Disassembler.WalkReadsBack` | tagha_toolchain/disassembler/disassembler.c:78-220 | On encoded instructions followed by zero padding the walk lists exactly those before the first halt and stops at the padding. |
| `Disassembler.WithoutHalt` | tagha_toolchain/disassembler/disassembler.c:80-80 | That is all of them exactly when there is no halt. |
| `Disassembler.PaddedCodeIsUnique` | tagha_toolchain/disassembler/disassembler.c:78-220 | Functions without halt are determined by their padded code. |
| `Disassembler.CodeIsUnique` | tagha_toolchain/instr_gen.h:22-130 | Any code determines its instructions. |
| `Disassembler.AssembledIsReadBack` | tagha_toolchain/disassembler/disassembler.c:67-220 | An assembled and padded function is read back as the instructions its statements stand for, up to the first halt. |
| `Region.Region.Alloc` | tagha/allocators/region/region.c:44-55 | Allocation lowers the edge of the region by the aligned size, modulo 2^64, or refuses and changes nothing. |
| `Region.RightUnlessBelowZero` | tagha/allocators/region/region.c:49-51 | A request is served right, from the free part if it fits and refused if not, exactly when the subtraction does not pass below address zero. |
| `Region.LowBufferOverrun` | tagha/allocators/region/region.c:49-51 | There is a region and a request for which it does. |
| `FreeList.FirstFitTakes` | tagha/allocators/mempool/mempool.c:141-153 | On any ordered list first fit fails exactly when no block is long enough; what it takes is between bytes and bytes + 32 long, lies inside one block, is apart from all that is left, and shortens the list by exactly its size, keeping it ordered. |
| `FreeList.EveryByteIsKept` | tagha/allocators/mempool/mempool.c:8-15 | Every address on the list is afterwards in the block taken or on the list, never both. |
| `FreeList.Arena.Split` | tagha/allocators/mempool/mempool.c:8-15 | Splitting makes two blocks that meet and together are the old one, the upper of the length wanted; the lower keeps address and links, and no other node changes. |
| `FreeList.FreeList.Remove` | tagha/allocators/mempool/mempool.c:119-139 | Removing a node closes the list around it in both directions, keeps its length, and leaves all other nodes alone. |
| `FreeList.FreeList.Find` | tagha/allocators/mempool/mempool.c:141-153 | The search over linked nodes is first fit on the blocks they describe, and keeps the list linked both ways. |
| `MemPool.MemPool.GetFreeNode` | tagha/allocators/mempool/mempool.c:193-198 | The list for the size is searched, and the other lists and the blocks handed out keep their nodes. |
| `MemPool.ListsBySize` | tagha/allocators/mempool/mempool.c:193-198 | Blocks of 8, 16, ... 64 bytes have a list each, in order; all others share the last. |
| `MemPool.MemPool.Alloc` | tagha/allocators/mempool/mempool.c:200-227 | Allocation takes a block from the list for the size, or else from the region, and keeps the pool valid. |
| `MemPool.AllocSound` | tagha/allocators/mempool/mempool.c:200-227 | It refuses exactly sizes 0 and above the pool's and those no block of the list and not the region can meet; the block has room for the bytes asked for, shares no byte with any other, and no bytes are lost. |
| `MemPool.MemPool.Free` | tagha/allocators/mempool/mempool.c:250-275 | Giving back the block at the edge of the region returns its bytes to it; null and addresses below the edge, among them blocks given back already, are refused and change nothing. |
| `MemPool.MemPool.MemRemaining` | tagha/allocators/mempool/mempool.c:287-299 | The walk over region and lists counts exactly the bytes not handed out. |
| `MemPool.RunsConserve` | tagha/allocators/mempool/mempool.c:200-275 | Over any run of allocations and frees at the edge, from any sound pool, blocks stay disjoint and inside the buffer, and what remains and what is handed out add up to the same. |
| `MemPool.RunsFromFresh` | tagha/allocators/mempool/mempool.c:250-275 | From a fresh pool, the block allocated last can always be given back at once and no other can, remaining and live bytes make up the pool, and with nothing handed out the pool is fresh again. |
| `ObjPool.RunsKeepPool` | tagha/allocators/objpool/objpool.c:69-103 | Over any run from a full pool in which clients give back only blocks handed out to them and not given back since: the free list holds, once each, exactly the blocks not held, so no block is handed out twice; held and free blocks make up the pool; and allocation fails exactly when all are held. |
| `ObjPool.RunsAgree` | tagha/allocators/objpool/objpool.c:69-103 | The same from any pool that agrees with what its clients hold. |
| `ObjPool.FreeIsSoundIff` | tagha/allocators/objpool/objpool.c:88-103 | Whatever address is given back, the chain of free blocks then visits different blocks of the pool that no client holds exactly if the address is null or outside the pool, and so ignored, or is that of a held block: not for other addresses in the pool, blocks given back before, or the address just past the last block. |
| `ObjPool.Pool.RawAgrees` | tagha/allocators/objpool/objpool.c:62-103 | Every valid pool, read as addresses and words, has such a chain, through exactly the blocks not held. |
| `ObjPool.LastInFirstOut` | tagha/allocators/objpool/objpool.c:88-103 | The block given back last is handed out next, and that restores the pool and what is held. |
| `ObjPool.TakeThenGive` | tagha/allocators/objpool/objpool.c:69-103 | Giving back the block just taken restores them as well. |
| `ObjPool.Pool.Make` | tagha/allocators/objpool/objpool.c:8-35 | A pool is made unless it would have no blocks or blocks of no bytes, or the memory is refused. |
| `ObjPool.Pool.constructor` | tagha/allocators/objpool/objpool.c:18-27 | A new pool lists all its blocks in order of address, each holding the index of the next. |
| `ObjPool.Pool.Alloc` | tagha/allocators/objpool/objpool.c:69-85 | Allocation hands out the head of the index chain, zeroed, or null exactly when the chain is empty; the chain stays threaded through the blocks not held. |
| `ObjPool.Pool.Free` | tagha/allocators/objpool/objpool.c:88-103 | Freeing a held block pushes it on the chain, as does the free on addresses and words of the exact condition; null, addresses below the pool and addresses beyond its end are ignored. |
| `ObjPool.Pool.ClientWrite` | tagha/allocators/objpool/objpool.c:69-103 | Whatever clients write into the blocks they hold, the pool stays valid. |
| `Budget.MemRegionSize` | tagha_toolchain/assembler/assembler.c:975-991 | The assembler's 32-bit sums come to 328 bytes and 64 for every function and variable, modulo 2^32. |
| `Budget.ServedIffFits` | tagha/allocators/mempool/mempool.c:200-227 | A pool with nothing on its lists meets a series of requests exactly when they fit with their nodes, and then exactly they are gone. |
| `Budget.LoaderFits` | tagha/tagha.c:57-149 | With stacks of whole words, the loader's allocations all succeed exactly when the heap and 8 bytes for every entry make up 616 (less 120 for an empty table), 32-bit wrap-around of the sizes taken into account; exactly the difference is left. |
| `Budget.DefaultHeapFits` | tagha_toolchain/assembler/assembler.c:961-993 | With the default heap they succeed for any number of functions and variables that does not overflow the sizes. |

## Left out

- Floating-point instructions and conversions: running one is undefined in the model.
- Native C functions: linking them into tables is modelled, calling one is undefined. They would run against a
  stack pointer that is not synchronized first (tagha/tagha.c:1123-1131), and could re-enter the module.
- Vm.Module.Exec: bounded by a number of turns, since the machine may run forever; the number is arbitrary, so the
  theorem holds of every finite part of a run.
- Relate.CoarseRunIsRun: relates all finite runs; that a diverging program diverges fused as well follows from the
  bound on the number of steps, and is not stated separately.
- Memory outside the globals and the operand stack: an access that passes the bounds check but touches neither
  wholly (code, symbol tables, heap) is undefined in the model, so theorems say nothing after it.
- MemorySafety.RunBounds: for that reason says nothing of runs past a store that passes the check and lands in tables,
  call stack or heap; `MemorySafety.CheckedReach` and `LoadedMemory.CheckPassesTables` say where such a store can land.
- Discipline.HostCallRestores: leaves out starting an extern linked to another module from the host, which runs with
  the caller's tables: by `Discipline.HostStartPlacedIff` exactly these starts.
- DisciplineOnBytes.HostCallOnBytes: leaves out the same.
- LoadedMemory.MemoryIsInOrder: assumes stacks of whole words, as the assembler makes them, and a region that starts
  above its own length.
- Vm.Module.InvokeFunction: starts functions with code; the host's start of a native, which calls it at once, is not
  modelled.
- ControlTransfer.ByteJumps: a jump that would land below address 0 is undefined in the model, taken or not.
- The call stack has no bounds check (tagha/tagha.c:442-452): pushing beyond its cells and popping below its base
  are undefined in the model.
- Vector operands: lanes are computed as C does, with 8- and 16-bit lanes promoted to signed 32-bit integers, so
  products and left shifts that overflow these are undefined; overlapping operands are as well.
- AssemblerProofs.FetchStatement: assumes distinct function names and distinct label keys. Keys are label name
  followed by function name (tagha_toolchain/assembler/assembler.c:502), so two different pairs can collide.
- Toolchain.ToolchainPreservesMeaning: links modules against each other only, since calling a native is undefined in
  the model.
- Lexing, number parsing and the text output of assembler and disassembler, and the containers of libharbol, whose
  source is not part of this model: buffers append little-endian, link maps keep insertion order.
- Allocation failures of the toolchain's own buffers, and file reading and writing.
- MemPool.MemPool.Free: covers the block at the edge of the region, and pointers that are refused. Blocks given
  back out of order go through list insertion (tagha/allocators/mempool/mempool.c:59-117), which does not keep
  the list consistent as written; it is not modelled, and neither is reallocation.
- MemPool.MemPool.constructor: requires the buffer to start above its own length, so that the region's address
  arithmetic does not pass below zero; `Region.RightUnlessBelowZero` says what happens otherwise. The tail pointer of
  a free list is not kept by every operation and is not part of the invariant.
- MemPool.MemPool.Alloc: does not state that the bytes handed out are zeroed, since the bytes of blocks are not
  modelled; in the object pool they are.
- Region.Region.Alloc: does not state it either, for the same reason.
- ObjPool.Pool.Free: of the addresses in the pool, covers those of blocks that are held; for others C writes an index
  into the middle of a block, into a free one, or past the last. What that does to the free list is
  `ObjPool.FreeIsSoundIff`, over addresses and words; what it does to a client's bytes is not modelled.
- ObjPool.Pool.constructor: requires what `ObjPool.Pool.Make` checks before it. Pools over a buffer of the caller's
  (tagha/allocators/objpool/objpool.c:37-60) differ in that check only.
- The stack sizes of `Budget.LoaderFits` are whole words, as the assembler makes them
  (tagha_toolchain/assembler/assembler.c:163 and 184).
- Bistack and cache allocators, and the C library bindings: they add only simple members.
