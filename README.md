# 68kemu execution core in Dafny

This project models the execution core of 68kemu, a small emulator for a
68000-style CPU written in Rust, and proves properties of the model. The CPU
holds a program counter, a user stack pointer, eight data and eight address
registers of four big-endian bytes each, 16 MiB of memory, a two-byte status
register whose low byte is the condition-code register (C = bit 0, V = bit 1,
Z = bit 2, N = bit 3, X = bit 4), and a cache, four bytes at power-on, that
an immediate operand is copied into when it is resolved. The only instruction with an
effect is MOVE. It clears C and V, takes a snapshot of the source operand's
active bytes, sets N from the sign of the snapshot and Z from whether it is
all zero, and then copies the snapshot byte by byte into the target.

Files and modules:

- `instructions.dfy` (`Instructions`): operand sizes, mnemonics, operand
  locations (`DataContainer`) and the immutable `Instruction` record with its
  getters.
- `flags.dfy` (`Flags`): the bit masks of the five flags. Set, clear and
  assign are functions on the condition-code byte.
- `storage.dfy` (`Storage`): the CPU storage as a value (`Machine`). A
  `Region` is a run of bytes inside one store (a register, memory, the status
  register or the cache). The module also has reading and splicing of regions.
- `cpu_actions.dfy` (`CpuActions`): the size adjustment, the sign and zero
  tests, the region each operand resolves to, and MOVE as a function
  `MoveEffect` of the storage value, built from the same four steps as the
  Rust code.
- `cpu.dfy` (`Cpu`): the `Cpu` class. Its fields are updated in place;
  memory is an `array<bv8>`, and the other buffers are `seq` fields that the
  methods reassign. The class has the per-flag methods, the accessors,
  operand resolution (`GetTarget`), `PerformMove` with its write loop, and
  `Execute`. `State()` is the storage value of the object. Every method that
  changes storage says what `State()` becomes, and `PerformMove` is proved to
  end in `MoveEffect`'s state.
- `move_properties.dfy` (`MoveProperties`): what MOVE reads, how it sets the
  flags, exactly which bytes it writes and that nothing else changes. It also
  restates the repository's MOVE tests as lemmas.

Rust panics become preconditions:

- a register index below 8;
- an immediate with at least `Adjust(size)` bytes;
- a memory region that ends inside memory;
- a non-empty source snapshot;
- a source that is at least as wide as the target.

Together these are `CpuActions.ValidMove`. The `EMPTY` operand has no arm in
`get_target` (`src/cpu/cpu_actions.rs:38-45`), so it is excluded by the same
precondition.

Behaviour of the code worth knowing:

- `execute` ignores every mnemonic other than MOVE (`src/cpu.rs:181-184`).
- A MOVE writes as many bytes as the target region holds, even when the
  source is wider (an `SR` source into a `CCR` target).
- An immediate target is not refused. MOVE writes into the cached copy.
- The register scenario starts with a LONG move of `deadbeef`, as
  `src/test.rs:116-118` has it.

## Model

| member | source | states |
|---|---|---|
| `Instructions.New` | src/cpu/instruction.rs:45-55 | `Instruction::new` stores its four arguments unchanged and does no validation; each getter returns the argument it was given |
| `Instructions.CloneSize` | src/cpu/instruction.rs:36-42 | `OpSize` is `Copy`: a clone is equal to the original |
| `Flags.ClearMask` | src/cpu.rs:108-126 | each clear mask is the complement of the flag's set mask |
| `Flags.MaskIsBit` | src/cpu.rs:86-104 | the mask of flag f is the single bit at f's position (C=0, V=1, Z=2, N=3, X=4) |
| `Flags.Set` | src/cpu.rs:86-104 | the OR with the flag's mask; its effect is stated by `Flags.SetSpec` |
| `Flags.SetSpec` | src/cpu.rs:86-104 | setting a flag makes its bit 1 and leaves every other bit of the byte as it was |
| `Flags.Clear` | src/cpu.rs:108-126 | the AND with the flag's clear mask; its effect is stated by `Flags.ClearSpec` |
| `Flags.ClearSpec` | src/cpu.rs:108-126 | clearing a flag makes its bit 0 and leaves every other bit as it was |
| `Flags.Assign` | src/cpu/cpu_actions.rs:58-70 | the set-or-clear choice MOVE makes for N and Z; its effect is stated by `Flags.AssignSpec` |
| `Flags.AssignSpec` | src/cpu/cpu_actions.rs:58-70 | the set-or-clear choice gives the bit the requested value and moves no other bit |
| `Flags.FlagsIndependent` | src/cpu.rs:86-126 | changing one flag never changes another |
| `Flags.SetIdempotent` | src/cpu.rs:86-104 | setting a flag twice is setting it once |
| `Flags.ClearIdempotent` | src/cpu.rs:108-126 | clearing a flag twice is clearing it once |
| `Flags.ClearAfterSet` | src/cpu.rs:86-126 | clearing after setting gives the same byte as clearing alone, with the bit 0 |
| `Flags.AssignKeepsHighBits` | src/cpu.rs:86-126 | no flag operation touches the unused bits 5 to 7 |
| `Flags.FlagMoveTestBits` | src/cpu.rs:188-192 | setting N, then C, then X sets those three bits and keeps V, Z and bits 5 to 7 |
| `Flags.MoveFlagUpdate` | src/cpu/cpu_actions.rs:50-70 | MOVE's four flag steps turn the condition-code byte b into `(b & 0xf0) \| N-bit \| Z-bit`: C and V clear, N and Z as tested, X kept |
| `Storage.Default` | src/cpu.rs:30-42 | the power-on state is well formed, with every register, pc, usp, the cache, the status register and all 0x1000000 memory bytes zero |
| `Storage.ReadRegion` | src/cpu/cpu_actions.rs:53-56 | reading a region gives its length and, byte for byte, the bytes the store holds from the region's start |
| `Storage.Splice` | src/cpu/cpu_actions.rs:72-77 | overwriting bytes at a start position changes exactly the positions covered and keeps the length |
| `Storage.SpliceSnoc` | src/cpu/cpu_actions.rs:73-77 | one more step of the write loop extends the overwritten prefix by one byte |
| `Storage.SpliceAtEnd` | src/cpu/cpu_actions.rs:39-41 | writing the low-order bytes of a buffer keeps its high-order bytes and appends the new ones |
| `Storage.WithStore` | src/cpu.rs:19-28 | replacing one store changes that store and nothing else in the machine |
| `Storage.WriteRegion` | src/cpu/cpu_actions.rs:72-77 | writing a region splices the bytes into its own store; as a `WithStore` of that one store, pc, usp and every other store are unchanged; the storage stays well formed |
| `Storage.WriteAt` | src/cpu/cpu_actions.rs:75 | one byte write changes exactly one byte of one store; as a `WithStore` of that store, pc, usp and every other store are unchanged |
| `Storage.WithStoreTwice` | src/cpu/cpu_actions.rs:74-77 | a second replacement of the same store overrides the first |
| `Storage.WriteRegionEmpty` | src/cpu/cpu_actions.rs:73-74 | a write loop that has done nothing has changed nothing |
| `Storage.WriteRegionStep` | src/cpu/cpu_actions.rs:74-77 | one iteration of the write loop turns a prefix write into the write of a prefix one byte longer |
| `Storage.WithFlag` | src/cpu.rs:86-126 | a flag operation changes only `sr[1]`, and only through the flag's mask |
| `CpuActions.Adjust` | src/cpu/cpu_actions.rs:8-14 | BYTE, WORD and LONG skip 3, 2 and 0 bytes, so the active width plus the adjustment is always 4 |
| `CpuActions.IsNegative` | src/cpu/cpu_actions.rs:25-32 | a buffer is negative iff the top bit of its first (most significant) byte is set |
| `CpuActions.IsNull` | src/cpu/cpu_actions.rs:16-23 | the early-exit scan answers true exactly when every byte of the buffer, the empty buffer included, is zero |
| `CpuActions.IsNegativeIsSign` | src/cpu/cpu_actions.rs:25-32 | the sign test is the two's-complement sign of the buffer read as a big-endian number: its value is at least half of 256^n |
| `CpuActions.AllZeroIsZeroValue` | src/cpu/cpu_actions.rs:16-23 | the zero test holds exactly of the buffers whose big-endian value is 0 |
| `CpuActions.BigEndianBound` | src/cpu/cpu_actions.rs:25-32 | an n-byte big-endian buffer is below 256^n, so the sign test covers the whole range |
| `CpuActions.ZeroIsNotNegative` | src/cpu/cpu_actions.rs:58-70 | a zero snapshot is never negative, so MOVE never sets N and Z together |
| `CpuActions.Resolvable` | src/cpu/cpu_actions.rs:36-46 | the operands `get_target` resolves without a panic: a register index below 8, an immediate of at least `adjust` bytes, a memory range inside memory, SR and CCR; EMPTY never resolves and a resolvable address lies in memory |
| `CpuActions.OperandValue` | src/cpu/cpu_actions.rs:39-44 | the per-kind reference value of an operand (low bytes of a register, the immediate from `adjust` on, the memory bytes, the status bytes), of exactly the operand's width |
| `CpuActions.TargetRegion` | src/cpu/cpu_actions.rs:36-46 | registers give their low `4 - adjust` bytes, an immediate its cached copy from `adjust` on, memory `[addr, addr + 4 - adjust)`, SR both status bytes and CCR `sr[1]`, whatever the size |
| `CpuActions.Resolve` | src/cpu/cpu_actions.rs:36-46 | resolving changes only the cache, and only for an immediate, which is then held there; the region lies inside its store |
| `CpuActions.ResolveReadsOperand` | src/cpu/cpu_actions.rs:36-46 | resolving and then reading an operand gives its value, as stated per kind without regions |
| `CpuActions.ValidMove` | src/cpu/cpu_actions.rs:53-77 | the MOVEs that run without a panic: the source region is non-empty (the sign test reads byte 0) and at least as long as the target region (the write loop indexes the snapshot with target positions) |
| `CpuActions.ClearedCV` | src/cpu/cpu_actions.rs:50-51 | the first step of MOVE keeps the storage well formed |
| `CpuActions.SourceState` | src/cpu/cpu_actions.rs:53 | after the source is resolved, its region lies inside the storage |
| `CpuActions.SourceBytes` | src/cpu/cpu_actions.rs:53-56 | the snapshot has the source operand's width and is never empty |
| `CpuActions.FlaggedState` | src/cpu/cpu_actions.rs:58-70 | setting N and Z keeps the storage well formed |
| `CpuActions.MoveEffect` | src/cpu/cpu_actions.rs:48-79 | the state after MOVE is well formed |
| `CpuActions.Step` | src/cpu.rs:180-185 | dispatch runs MOVE and leaves the state unchanged for every other mnemonic |
| `Cpu.Cpu.constructor` | src/cpu.rs:30-42 | a new CPU has a fresh 16 MiB memory and the all-zero power-on state |
| `Cpu.Cpu.SetCFlag` | src/cpu.rs:86-88 | ORs the C bit into `sr[1]` and changes nothing else |
| `Cpu.Cpu.SetVFlag` | src/cpu.rs:90-92 | ORs the V bit into `sr[1]` and changes nothing else |
| `Cpu.Cpu.SetZFlag` | src/cpu.rs:94-96 | ORs the Z bit into `sr[1]` and changes nothing else |
| `Cpu.Cpu.SetNFlag` | src/cpu.rs:98-100 | ORs the N bit into `sr[1]` and changes nothing else |
| `Cpu.Cpu.SetXFlag` | src/cpu.rs:102-104 | ORs the X bit into `sr[1]` and changes nothing else |
| `Cpu.Cpu.ClearCFlag` | src/cpu.rs:108-110 | clears the C bit of `sr[1]` and changes nothing else |
| `Cpu.Cpu.ClearVFlag` | src/cpu.rs:112-114 | clears the V bit of `sr[1]` and changes nothing else |
| `Cpu.Cpu.ClearZFlag` | src/cpu.rs:116-118 | clears the Z bit of `sr[1]` and changes nothing else |
| `Cpu.Cpu.ClearNFlag` | src/cpu.rs:120-122 | clears the N bit of `sr[1]` and changes nothing else |
| `Cpu.Cpu.ClearXFlag` | src/cpu.rs:124-126 | clears the X bit of `sr[1]` and changes nothing else |
| `Cpu.Cpu.Foo` | src/cpu.rs:75-82 | afterwards X, Z, V and C are set, N is clear, and bits 5 to 7 and `sr[0]` are unchanged |
| `Cpu.Cpu.CpuFlagMoveTest` | src/cpu.rs:188-192 | sets N, C and X; V, Z, bits 5 to 7 and `sr[0]` keep their value |
| `Cpu.Cpu.CacheValue` | src/cpu.rs:130-133 | the cache becomes v, and the returned region is the cache from n on, reading as `v[n..]` |
| `Cpu.Cpu.GetCcr` | src/cpu.rs:135-137 | returns `sr[1]` |
| `Cpu.Cpu.GetDataReg` | src/cpu.rs:139-146 | returns the whole 4-byte data register iff i < 8, and None otherwise |
| `Cpu.Cpu.GetAddrReg` | src/cpu.rs:148-155 | returns the whole 4-byte address register iff i < 8, and None otherwise |
| `Cpu.Cpu.GetMemoryOffset` | src/cpu.rs:157-164 | as written: None iff `offset >= 0x1000000` or `offset + len >= 0x1000000`, otherwise exactly the len bytes from offset |
| `Cpu.Cpu.GetMemoryOffsetMissesLastByte` | src/cpu.rs:158 | the last memory byte exists, but the one-byte lookup at 0xFFFFFF answers None |
| `Cpu.Cpu.GetMemoryRange` | src/cpu.rs:157-164 | corrected bound: None iff the range does not fit in memory, otherwise exactly the len bytes from offset |
| `Cpu.Cpu.GetMemoryRangeReadsLastByte` | src/cpu.rs:157-164 | the corrected lookup reads the last byte and agrees with `GetMemoryOffset` wherever that one answers |
| `Cpu.Cpu.Read` | src/cpu/cpu_actions.rs:53-56 | copying a region out of the object's fields gives the region's bytes in the storage value |
| `Cpu.Cpu.WriteByte` | src/cpu/cpu_actions.rs:75 | `trg[i] = tmp[i]` changes exactly one byte of one store |
| `Cpu.Cpu.GetTarget` | src/cpu/cpu_actions.rs:36-46 | returns the operand's region and changes only the cache, for an immediate |
| `Cpu.Cpu.PerformMove` | src/cpu/cpu_actions.rs:48-79 | the four steps in place end in exactly `MoveEffect` of the old state |
| `Cpu.Cpu.UpdateNZ` | src/cpu/cpu_actions.rs:58-70 | N becomes the sign of the snapshot and Z whether it is all zero; nothing else changes |
| `Cpu.Cpu.CopyInto` | src/cpu/cpu_actions.rs:72-77 | the loop writes `tmp[i]` into target byte i for every i below the target width, and nothing else |
| `Cpu.Cpu.Execute` | src/cpu.rs:180-185 | MOVE ends in `MoveEffect`'s state; any other mnemonic leaves the whole state unchanged |
| `MoveProperties.MoveReadsSource` | src/cpu/cpu_actions.rs:50-56 | the snapshot is the source operand's value; an SR or CCR source is read with C and V already cleared |
| `MoveProperties.MoveReadsImmediate` | src/cpu/cpu_actions.rs:41 | an immediate source reads as its bytes from `adjust` on |
| `MoveProperties.PreWriteState` | src/cpu/cpu_actions.rs:48-72 | before the write loop, only the flags and the cache have changed, and the flag byte has its new value |
| `MoveProperties.MoveIsOneWrite` | src/cpu/cpu_actions.rs:72-77 | MOVE changes the storage by one splice into the target's store |
| `MoveProperties.MoveFlags` | src/cpu/cpu_actions.rs:50-70 | with a non-status target, the flag byte becomes `(old & 0xf0) \| N-bit \| Z-bit`: C and V clear, N the sign, Z the zero test, X and `sr[0]` unchanged |
| `MoveProperties.MoveToDataRegister` | src/cpu/cpu_actions.rs:39 | the target's low bytes become the snapshot; its high bytes, every other register, memory, pc and usp are unchanged |
| `MoveProperties.MoveToAddressRegister` | src/cpu/cpu_actions.rs:40 | the same for an address register target |
| `MoveProperties.MoveToMemory` | src/cpu/cpu_actions.rs:42 | memory byte k becomes snapshot byte `k - addr` inside `[addr, addr + width)` and keeps its value elsewhere; registers, pc and usp are unchanged |
| `MoveProperties.MoveToStatus` | src/cpu/cpu_actions.rs:43-44 | the flags are written before the copy, so an SR target ends up holding the snapshot and a CCR target `[sr[0], snapshot[0]]`; registers and memory are unchanged |
| `MoveProperties.MoveToImmediate` | src/cpu/cpu_actions.rs:41 | an immediate target is written in the cache: the constant with its bytes from `adjust` on replaced; registers and memory are unchanged |
| `MoveProperties.MoveImmediateToDataRegister` | src/test.rs:19-32 | MOVE of an immediate keeps the register's high bytes and sets its low Width(size) bytes to the immediate's low bytes |
| `MoveProperties.MoveImmediateToAddressRegister` | src/test.rs:34-47 | the same for an address register |
| `MoveProperties.MoveImmediateToMemory` | src/test.rs:11-17 | memory becomes the old memory with the immediate's low Width(size) bytes spliced in at the address, so those bytes change and every other byte is unchanged |
| `MoveProperties.MoveToMemorySplice` | src/cpu/cpu_actions.rs:72-77 | a MOVE to memory replaces memory by one splice of the source snapshot's first Width(size) bytes at the target address |
| `MoveProperties.RegisterMoveKeepsSource` | src/test.rs:49-63 | a register-to-register MOVE leaves the source as it was, even when it is also the target, and copies its low bytes into the target |
| `MoveProperties.MoveFlagsFollowSnapshot` | src/cpu/cpu_actions.rs:58-70 | two MOVEs with the same snapshot and non-status targets leave the same status register |
| `MoveProperties.MoveFlagsIgnoreInactiveBytes` | src/test.rs:151-158 | immediates that agree on their active bytes give the same status register |
| `MoveProperties.MoveImmediateCcr` | src/test.rs:151-207 | the exact flag byte after MOVE of an immediate, from the active bytes alone |
| `MoveProperties.MoveImmediateCcrFromClear` | src/test.rs:151-230 | from a flag byte with bits 5 to 7 clear, the result is X kept plus exactly N for a negative or exactly Z for a zero active part |
| `MoveProperties.LongMoveFillsRegister` | src/test.rs:116-118 | a LONG move of `deadbeef` into D5 makes D5 `deadbeef` |
| `MoveProperties.ByteMoveIntoRegister` | src/test.rs:119-123 | then a BYTE move of `ff` gives `deadbeff` |
| `MoveProperties.WordMoveIntoRegister` | src/test.rs:125-129 | then a WORD move of `fffe` gives `deadfffe` |
| `MoveProperties.LongMoveFillsMemory` | src/test.rs:135-137 | a LONG move of `deadbeef` to 0x50 fills 0x50 to 0x53 |
| `MoveProperties.ByteMoveIntoMemory` | src/test.rs:138-142 | then a BYTE move of `ff` to 0x53 gives `deadbeff` |
| `MoveProperties.WordMoveIntoMemory` | src/test.rs:144-148 | then a WORD move of `fffe` to 0x52 gives `deadfffe` |
| `MoveProperties.DeadbeefToMemorySetsN` | src/test.rs:65-76 | `deadbeef` to 0x100 at any size sets the flag byte to 0b00001000 |
| `MoveProperties.ZeroMoveSetsOnlyZ` | src/test.rs:151-168 | a zero active part gives flag byte 0b00000100, whatever the inactive bytes hold |
| `MoveProperties.PositiveMoveClearsFlags` | src/test.rs:170-187 | a positive non-zero active part gives flag byte 0 |
| `MoveProperties.NegativeMoveSetsN` | src/test.rs:189-207 | a negative active part gives flag byte 0b00001000 |
| `MoveProperties.MoveAfterFlagTestKeepsX` | src/test.rs:209-230 | after the flag test routine, a negative MOVE gives 0b00011000: C is cleared, N is set, X is kept |
| `MoveProperties.OtherMnemonicIsNoOp` | src/cpu.rs:183 | a non-MOVE instruction leaves the storage unchanged |

The flag scenarios restate the tests in general form. Each test starts from
the power-on state and runs its moves one after another. MOVE keeps bits 4
to 7 of the flag byte (`MoveFlags`), so each lemma is stated for any state
whose bits 4 to 7 (5 to 7 for the X test) are clear. `CpuFlagMoveTest`
provides that state for the X test.

The test values satisfy the lemmas' conditions on the active bytes:
`ff ff ff 00` at BYTE is zero and `ff be 02 00` at WORD is positive, for
example.

## Left out

- Printing: the `Display` implementation, `write_byte_array`, `print_mem` and the two `println!` calls are output only.
- ADD, ADDA, MOVEA, LEA and TST are declared, but `execute` does nothing for them. The model has them only as mnemonics that `Step` maps to no change. The TST test expects flag changes that the code never makes, and it is not restated.
- pc and usp are initialised and carried in the state, but no operation reads or writes them.
- `usize` arithmetic is modelled with unbounded naturals. Overflow of `offset + len` or `addr + 4 - adjust` cannot happen in the model.
- The lifetime workaround of `cache_value`, which returns a mutable slice of the cache, is modelled as a `Region` value naming the cache. Aliasing between live slices is not modelled, because the code never holds two at once.
- The panics of the code are preconditions, not outcomes. `ValidMove` states when MOVE runs to completion.
- The MOVE scenarios are not stated from the power-on state. They are stated from any state that meets their preconditions (see above).
- `Instructions.CloneSize`: Rust's `Copy`/`Clone` machinery has no counterpart. The function only returns its argument.

## Findings

| source | as written | input that shows it | evidently intended | confidence | as-written member | corrected member |
|---|---|---|---|---|---|---|
| src/cpu.rs:158 | `get_memory_offset` refuses a range when `offset + len >= 0x1000000`, which also refuses ranges that end exactly at the end of memory | `get_memory_offset(0xFFFFFF, 1)` returns None, although byte 0xFFFFFF exists and MOVE can write it | a range is readable iff `offset + len <= 0x1000000` | medium, not executed | `Cpu.Cpu.GetMemoryOffsetMissesLastByte` | `Cpu.Cpu.GetMemoryRangeReadsLastByte` |
