/**
 * What MOVE does, stated against MoveEffect: which bytes it reads, how it
 * sets the condition codes, exactly which bytes it writes and that nothing
 * else changes, followed by the concrete scenarios of the repository's
 * tests.
 */
module MoveProperties {
  import opened Instructions
  import opened Storage
  import opened CpuActions
  import Flags

  /** Operands whose bytes are not in the status register. */
  predicate OutsideStatus(c: DataContainer)
  {
    !c.SR? && !c.CCR?
  }

  /**
   * The snapshot is the source operand's value. A status-register source is
   * read after C and V have been cleared, so it shows them clear.
   */
  lemma MoveReadsSource(m: Machine, inst: Instruction)
    requires WellFormed(m) && ValidMove(inst)
    ensures OutsideStatus(inst.lhs) ==> SourceBytes(m, inst) == OperandValue(m, inst.lhs, inst.size)
    ensures inst.lhs.SR? ==> SourceBytes(m, inst) == [m.sr[0], Flags.Clear(Flags.Clear(m.sr[1], Flags.C), Flags.V)]
    ensures inst.lhs.CCR? ==> SourceBytes(m, inst) == [Flags.Clear(Flags.Clear(m.sr[1], Flags.C), Flags.V)]
  {
    ResolveReadsOperand(ClearedCV(m), inst.lhs, inst.size);
  }

  /** An immediate source reads as its bytes from Adjust(size) on. */
  lemma MoveReadsImmediate(m: Machine, inst: Instruction)
    requires WellFormed(m) && ValidMove(inst) && inst.lhs.Immediate?
    ensures SourceBytes(m, inst) == inst.lhs.bytes[Adjust(inst.size)..]
  {
    MoveReadsSource(m, inst);
  }

  /**
   * The state just before the write loop: the flags have their new value,
   * an immediate operand has been cached, and nothing else has changed.
   */
  lemma PreWriteState(m: Machine, inst: Instruction)
    requires WellFormed(m) && ValidMove(inst)
    ensures var m4 := Resolve(FlaggedState(m, inst), inst.trg, inst.size);
            var src := SourceBytes(m, inst);
      && m4.d == m.d && m4.a == m.a && m4.mem == m.mem && m4.pc == m.pc && m4.usp == m.usp
      && m4.sr == [m.sr[0], Flags.Assign(Flags.Assign(Flags.Clear(Flags.Clear(m.sr[1], Flags.C), Flags.V), Flags.N, IsNegative(src)), Flags.Z, AllZero(src))]
      && m4.cache == if inst.trg.Immediate? then inst.trg.bytes else if inst.lhs.Immediate? then inst.lhs.bytes else m.cache
  {
  }

  /** MoveEffect is one store replacement on the pre-write state. */
  lemma MoveIsOneWrite(m: Machine, inst: Instruction)
    requires WellFormed(m) && ValidMove(inst)
    ensures var m4 := Resolve(FlaggedState(m, inst), inst.trg, inst.size);
            var dst := TargetRegion(inst.trg, inst.size);
            var src := SourceBytes(m, inst)[..dst.len];
      MoveEffect(m, inst) == WithStore(m4, dst.store, Splice(StoreBytes(m4, dst.store), dst.start, src))
  {
  }

  /**
   * When the target is not SR or CCR, MOVE leaves the condition-code byte
   * with C and V clear, N the sign of the snapshot, Z whether the snapshot
   * is zero, and X, bits 5 to 7 and the system byte unchanged.
   */
  lemma MoveFlags(m: Machine, inst: Instruction)
    requires WellFormed(m) && ValidMove(inst) && OutsideStatus(inst.trg)
    ensures var r := MoveEffect(m, inst);
            var src := SourceBytes(m, inst);
      && r.sr[0] == m.sr[0]
      && r.sr[1] == (m.sr[1] & 0xf0) | (if IsNegative(src) then 0x08 else 0) | (if AllZero(src) then 0x04 else 0)
      && !Flags.IsSet(r.sr[1], Flags.C) && !Flags.IsSet(r.sr[1], Flags.V)
      && Flags.IsSet(r.sr[1], Flags.N) == IsNegative(src)
      && Flags.IsSet(r.sr[1], Flags.Z) == AllZero(src)
      && Flags.IsSet(r.sr[1], Flags.X) == Flags.IsSet(m.sr[1], Flags.X)
  {
    var src := SourceBytes(m, inst);
    PreWriteState(m, inst);
    MoveIsOneWrite(m, inst);
    Flags.MoveFlagUpdate(m.sr[1], IsNegative(src), AllZero(src));
  }

  /**
   * MOVE to a data register: its low Width(size) bytes become the first
   * bytes of the snapshot, its high bytes and every other register,
   * memory, pc and usp keep their value.
   */
  lemma MoveToDataRegister(m: Machine, inst: Instruction)
    requires WellFormed(m) && ValidMove(inst) && inst.trg.DataRegister?
    ensures var r := MoveEffect(m, inst);
            var j := inst.trg.index;
            var w := Width(inst.size);
      && r.d[j] == m.d[j][..REG_BYTES - w] + SourceBytes(m, inst)[..w]
      && (forall k | 0 <= k < REG_COUNT && k != j :: r.d[k] == m.d[k])
      && r.a == m.a && r.mem == m.mem && r.pc == m.pc && r.usp == m.usp
  {
    var j := inst.trg.index;
    var w := Width(inst.size);
    PreWriteState(m, inst);
    MoveIsOneWrite(m, inst);
    SpliceAtEnd(m.d[j], SourceBytes(m, inst)[..w]);
  }

  /** MOVE to an address register, as for a data register. */
  lemma MoveToAddressRegister(m: Machine, inst: Instruction)
    requires WellFormed(m) && ValidMove(inst) && inst.trg.AddressRegister?
    ensures var r := MoveEffect(m, inst);
            var j := inst.trg.index;
            var w := Width(inst.size);
      && r.a[j] == m.a[j][..REG_BYTES - w] + SourceBytes(m, inst)[..w]
      && (forall k | 0 <= k < REG_COUNT && k != j :: r.a[k] == m.a[k])
      && r.d == m.d && r.mem == m.mem && r.pc == m.pc && r.usp == m.usp
  {
    var j := inst.trg.index;
    var w := Width(inst.size);
    PreWriteState(m, inst);
    MoveIsOneWrite(m, inst);
    SpliceAtEnd(m.a[j], SourceBytes(m, inst)[..w]);
  }

  /** MOVE to memory is one splice of the snapshot's first Width(size) bytes into memory. */
  lemma MoveToMemorySplice(m: Machine, inst: Instruction)
    requires WellFormed(m) && ValidMove(inst) && inst.trg.MemoryAddr?
    ensures MoveEffect(m, inst).mem == Splice(m.mem, inst.trg.addr, SourceBytes(m, inst)[..Width(inst.size)])
  {
    PreWriteState(m, inst);
    MoveIsOneWrite(m, inst);
  }

  /**
   * MOVE to memory: the Width(size) bytes from the address on become the
   * first bytes of the snapshot; all other memory and every register keep
   * their value.
   */
  lemma MoveToMemory(m: Machine, inst: Instruction)
    requires WellFormed(m) && ValidMove(inst) && inst.trg.MemoryAddr?
    ensures var r := MoveEffect(m, inst);
            var addr := inst.trg.addr;
            var w := Width(inst.size);
      && r.mem == Splice(m.mem, addr, SourceBytes(m, inst)[..w])
      && |r.mem| == MEM_SIZE
      && (forall k | 0 <= k < MEM_SIZE :: r.mem[k] == if addr <= k < addr + w then SourceBytes(m, inst)[k - addr] else m.mem[k])
      && r.d == m.d && r.a == m.a && r.pc == m.pc && r.usp == m.usp
  {
    var w := Width(inst.size);
    var src := SourceBytes(m, inst);
    PreWriteState(m, inst);
    MoveIsOneWrite(m, inst);
    var r := MoveEffect(m, inst);
    var bytes := src[..w];
    assert r.mem == Splice(m.mem, inst.trg.addr, bytes);
    forall k | 0 <= k < MEM_SIZE
      ensures r.mem[k] == if inst.trg.addr <= k < inst.trg.addr + w then src[k - inst.trg.addr] else m.mem[k]
    {
      if inst.trg.addr <= k < inst.trg.addr + w {
        assert bytes[k - inst.trg.addr] == src[k - inst.trg.addr];
      }
    }
  }

  /**
   * MOVE to SR or CCR: the flag updates happen before the write, so the
   * target ends up holding the copied bytes; registers and memory keep
   * their value.
   */
  lemma MoveToStatus(m: Machine, inst: Instruction)
    requires WellFormed(m) && ValidMove(inst) && !OutsideStatus(inst.trg)
    ensures var r := MoveEffect(m, inst);
            var src := SourceBytes(m, inst);
      && (inst.trg.SR? ==> r.sr == src[..2])
      && (inst.trg.CCR? ==> r.sr == [m.sr[0], src[0]])
      && r.d == m.d && r.a == m.a && r.mem == m.mem && r.pc == m.pc && r.usp == m.usp
  {
    PreWriteState(m, inst);
    MoveIsOneWrite(m, inst);
  }

  /**
   * MOVE to an immediate writes into the cache: the cache holds the
   * target's constant with its bytes from Adjust(size) on replaced by the
   * snapshot; registers and memory keep their value.
   */
  lemma MoveToImmediate(m: Machine, inst: Instruction)
    requires WellFormed(m) && ValidMove(inst) && inst.trg.Immediate?
    ensures var r := MoveEffect(m, inst);
            var v := inst.trg.bytes;
            var adj := Adjust(inst.size);
      && r.cache == v[..adj] + SourceBytes(m, inst)[..|v| - adj]
      && r.d == m.d && r.a == m.a && r.mem == m.mem && r.pc == m.pc && r.usp == m.usp
  {
    var v := inst.trg.bytes;
    PreWriteState(m, inst);
    MoveIsOneWrite(m, inst);
    SpliceAtEnd(v, SourceBytes(m, inst)[..|v| - Adjust(inst.size)]);
  }

  /**
   * MOVE of an immediate into a data register: the register's high bytes
   * stay and its low Width(size) bytes become the immediate's low bytes.
   */
  lemma MoveImmediateToDataRegister(m: Machine, size: OpSize, v: seq<bv8>, j: nat)
    requires WellFormed(m) && |v| == REG_BYTES && j < REG_COUNT
    ensures var r := MoveEffect(m, Instruction(Move, size, Immediate(v), DataRegister(j)));
            var w := Width(size);
      r.d[j] == m.d[j][..REG_BYTES - w] + v[REG_BYTES - w..]
  {
    var inst := Instruction(Move, size, Immediate(v), DataRegister(j));
    MoveReadsImmediate(m, inst);
    MoveToDataRegister(m, inst);
    var w := Width(size);
    assert v[REG_BYTES - w..][..w] == v[REG_BYTES - w..];
  }

  /** MOVE of an immediate into an address register, as for a data register. */
  lemma MoveImmediateToAddressRegister(m: Machine, size: OpSize, v: seq<bv8>, j: nat)
    requires WellFormed(m) && |v| == REG_BYTES && j < REG_COUNT
    ensures var r := MoveEffect(m, Instruction(Move, size, Immediate(v), AddressRegister(j)));
            var w := Width(size);
      r.a[j] == m.a[j][..REG_BYTES - w] + v[REG_BYTES - w..]
  {
    var inst := Instruction(Move, size, Immediate(v), AddressRegister(j));
    MoveReadsImmediate(m, inst);
    MoveToAddressRegister(m, inst);
    var w := Width(size);
    assert v[REG_BYTES - w..][..w] == v[REG_BYTES - w..];
  }

  /**
   * MOVE of an immediate into memory: memory becomes the old memory with
   * the immediate's low Width(size) bytes spliced in at the address, so
   * (by Splice's contract) exactly those bytes change.
   */
  lemma MoveImmediateToMemory(m: Machine, size: OpSize, v: seq<bv8>, addr: nat)
    requires WellFormed(m) && |v| == REG_BYTES && addr + Width(size) <= MEM_SIZE
    ensures MoveEffect(m, Instruction(Move, size, Immediate(v), MemoryAddr(addr))).mem
         == Splice(m.mem, addr, v[REG_BYTES - Width(size)..])
  {
    var inst := Instruction(Move, size, Immediate(v), MemoryAddr(addr));
    var w := Width(size);
    assert SourceBytes(m, inst)[..w] == v[REG_BYTES - w..] by {
      MoveReadsImmediate(m, inst);
    }
    MoveToMemorySplice(m, inst);
  }

  /**
   * A register-to-register MOVE leaves the source register as it was
   * (also when source and target are the same register) and puts the
   * source's low bytes into the target's low bytes.
   */
  lemma RegisterMoveKeepsSource(m: Machine, size: OpSize, i: nat, j: nat)
    requires WellFormed(m) && i < REG_COUNT && j < REG_COUNT
    ensures var r := MoveEffect(m, Instruction(Move, size, DataRegister(i), DataRegister(j)));
            var w := Width(size);
      && r.d[i] == m.d[i]
      && r.d[j] == m.d[j][..REG_BYTES - w] + m.d[i][REG_BYTES - w..]
  {
    var inst := Instruction(Move, size, DataRegister(i), DataRegister(j));
    var w := Width(size);
    var low := m.d[i][REG_BYTES - w..];
    assert SourceBytes(m, inst)[..w] == low by {
      MoveReadsSource(m, inst);
    }
    MoveToDataRegister(m, inst);
    if i == j {
      JoinBytes(m.d[i], m.d[i], REG_BYTES - w, m.d[i]);
    }
  }

  /** Two MOVEs to non-status targets with the same snapshot leave the same status register. */
  lemma MoveFlagsFollowSnapshot(m: Machine, i1: Instruction, i2: Instruction)
    requires WellFormed(m) && ValidMove(i1) && ValidMove(i2)
    requires OutsideStatus(i1.trg) && OutsideStatus(i2.trg)
    requires SourceBytes(m, i1) == SourceBytes(m, i2)
    ensures MoveEffect(m, i1).sr == MoveEffect(m, i2).sr
  {
    PreWriteState(m, i1);
    MoveIsOneWrite(m, i1);
    PreWriteState(m, i2);
    MoveIsOneWrite(m, i2);
  }

  /**
   * The flags depend only on the active bytes: two immediates that agree
   * on their low Width(size) bytes give the same status register.
   */
  lemma MoveFlagsIgnoreInactiveBytes(m: Machine, size: OpSize, v1: seq<bv8>, v2: seq<bv8>, trg: DataContainer)
    requires WellFormed(m) && |v1| == REG_BYTES && |v2| == REG_BYTES
    requires Resolvable(trg, size) && OutsideStatus(trg) && OperandWidth(trg, size) <= Width(size)
    requires v1[REG_BYTES - Width(size)..] == v2[REG_BYTES - Width(size)..]
    ensures MoveEffect(m, Instruction(Move, size, Immediate(v1), trg)).sr
         == MoveEffect(m, Instruction(Move, size, Immediate(v2), trg)).sr
  {
    var i1 := Instruction(Move, size, Immediate(v1), trg);
    var i2 := Instruction(Move, size, Immediate(v2), trg);
    MoveReadsImmediate(m, i1);
    MoveReadsImmediate(m, i2);
    MoveFlagsFollowSnapshot(m, i1, i2);
  }

  /** MOVE of an immediate to a non-status target: the exact condition-code byte. */
  lemma MoveImmediateCcr(m: Machine, size: OpSize, v: seq<bv8>, trg: DataContainer)
    requires WellFormed(m) && |v| == REG_BYTES && Resolvable(trg, size) && OutsideStatus(trg)
    requires OperandWidth(trg, size) <= Width(size)
    ensures var r := MoveEffect(m, Instruction(Move, size, Immediate(v), trg));
            var active := v[REG_BYTES - Width(size)..];
      && r.sr[0] == m.sr[0]
      && r.sr[1] == (m.sr[1] & 0xf0) | (if IsNegative(active) then 0x08 else 0) | (if AllZero(active) then 0x04 else 0)
  {
    var inst := Instruction(Move, size, Immediate(v), trg);
    MoveReadsImmediate(m, inst);
    MoveFlags(m, inst);
  }

  /**
   * From a state whose condition-code bits 5 to 7 are clear, MOVE of an
   * immediate keeps X and sets exactly N for a negative and exactly Z for a
   * zero active part.
   */
  lemma MoveImmediateCcrFromClear(m: Machine, size: OpSize, v: seq<bv8>, trg: DataContainer)
    requires WellFormed(m) && m.sr[1] & 0xe0 == 0
    requires |v| == REG_BYTES && Resolvable(trg, size) && OutsideStatus(trg) && OperandWidth(trg, size) <= Width(size)
    ensures var r := MoveEffect(m, Instruction(Move, size, Immediate(v), trg));
            var active := v[REG_BYTES - Width(size)..];
      r.sr[1] == (m.sr[1] & 0x10) | if IsNegative(active) then 0x08 else if AllZero(active) then 0x04 else 0
  {
    var active := v[REG_BYTES - Width(size)..];
    MoveImmediateCcr(m, size, v, trg);
    if AllZero(active) {
      ZeroIsNotNegative(active);
    }
  }

  // Scenarios of the repository's tests. The tests start from the
  // power-on state; the statements below hold from any state.

  /** Register scenario, first step: a LONG move of deadbeef fills D5. */
  lemma LongMoveFillsRegister(m: Machine)
    requires WellFormed(m)
    ensures MoveEffect(m, Instruction(Move, Long, Immediate([0xde, 0xad, 0xbe, 0xef]), DataRegister(5))).d[5]
         == [0xde, 0xad, 0xbe, 0xef]
  {
    var v: seq<bv8> := [0xde, 0xad, 0xbe, 0xef];
    MoveImmediateToDataRegister(m, Long, v, 5);
    assert m.d[5][..0] + v[0..] == v;
  }

  /** Register scenario, second step: a BYTE move of ff into deadbeef gives deadbeff. */
  lemma ByteMoveIntoRegister(m: Machine)
    requires WellFormed(m) && m.d[5] == [0xde, 0xad, 0xbe, 0xef]
    ensures MoveEffect(m, Instruction(Move, Byte, Immediate([0, 0, 0, 0xff]), DataRegister(5))).d[5]
         == [0xde, 0xad, 0xbe, 0xff]
  {
    var v: seq<bv8> := [0, 0, 0, 0xff];
    MoveImmediateToDataRegister(m, Byte, v, 5);
    JoinBytes(m.d[5], v, 3, [0xde, 0xad, 0xbe, 0xff]);
  }

  /** Register scenario, third step: a WORD move of fffe into deadbeff gives deadfffe. */
  lemma WordMoveIntoRegister(m: Machine)
    requires WellFormed(m) && m.d[5] == [0xde, 0xad, 0xbe, 0xff]
    ensures MoveEffect(m, Instruction(Move, Word, Immediate([0, 0, 0xff, 0xfe]), DataRegister(5))).d[5]
         == [0xde, 0xad, 0xff, 0xfe]
  {
    var v: seq<bv8> := [0, 0, 0xff, 0xfe];
    MoveImmediateToDataRegister(m, Word, v, 5);
    JoinBytes(m.d[5], v, 2, [0xde, 0xad, 0xff, 0xfe]);
  }

  /** The high n bytes of x followed by the rest of v, checked byte by byte. */
  lemma JoinBytes(x: seq<bv8>, v: seq<bv8>, n: nat, out: seq<bv8>)
    requires n <= |x| == |v| == |out|
    requires forall k | 0 <= k < |out| :: out[k] == if k < n then x[k] else v[k]
    ensures x[..n] + v[n..] == out
  {
  }

  /** The four bytes at 0x50 that the memory scenario looks at. */
  lemma Window(s: seq<bv8>)
    requires 0x54 <= |s|
    ensures s[0x50..0x54] == [s[0x50], s[0x51], s[0x52], s[0x53]]
  {
  }

  /** Memory scenario, first step: a LONG move of deadbeef fills 0x50 to 0x53. */
  lemma LongMoveFillsMemory(m: Machine)
    requires WellFormed(m)
    ensures MoveEffect(m, Instruction(Move, Long, Immediate([0xde, 0xad, 0xbe, 0xef]), MemoryAddr(0x50))).mem[0x50..0x54]
         == [0xde, 0xad, 0xbe, 0xef]
  {
    var v: seq<bv8> := [0xde, 0xad, 0xbe, 0xef];
    var r := MoveEffect(m, Instruction(Move, Long, Immediate(v), MemoryAddr(0x50)));
    MoveImmediateToMemory(m, Long, v, 0x50);
    Window(r.mem);
  }

  /** Memory scenario, second step: a BYTE move of ff to 0x53 gives deadbeff. */
  lemma ByteMoveIntoMemory(m: Machine)
    requires WellFormed(m) && m.mem[0x50..0x54] == [0xde, 0xad, 0xbe, 0xef]
    ensures MoveEffect(m, Instruction(Move, Byte, Immediate([0, 0, 0, 0xff]), MemoryAddr(0x53))).mem[0x50..0x54]
         == [0xde, 0xad, 0xbe, 0xff]
  {
    var v: seq<bv8> := [0, 0, 0, 0xff];
    var r := MoveEffect(m, Instruction(Move, Byte, Immediate(v), MemoryAddr(0x53)));
    MoveImmediateToMemory(m, Byte, v, 0x53);
    Window(m.mem);
    Window(r.mem);
  }

  /** Memory scenario, third step: a WORD move of fffe to 0x52 gives deadfffe. */
  lemma WordMoveIntoMemory(m: Machine)
    requires WellFormed(m) && m.mem[0x50..0x54] == [0xde, 0xad, 0xbe, 0xff]
    ensures MoveEffect(m, Instruction(Move, Word, Immediate([0, 0, 0xff, 0xfe]), MemoryAddr(0x52))).mem[0x50..0x54]
         == [0xde, 0xad, 0xff, 0xfe]
  {
    var v: seq<bv8> := [0, 0, 0xff, 0xfe];
    var r := MoveEffect(m, Instruction(Move, Word, Immediate(v), MemoryAddr(0x52)));
    MoveImmediateToMemory(m, Word, v, 0x52);
    Window(m.mem);
    Window(r.mem);
  }

  /**
   * The condition codes of the immediate-to-memory tests. Each test starts
   * from the power-on state and runs its moves in a row; since MOVE keeps
   * bits 4 to 7 of the condition-code byte (MoveFlags), each move below is
   * stated from any state in which those bits are clear.
   */

  /** deadbeef to 0x100 at every size: the active part is negative, so N alone is set. */
  lemma DeadbeefToMemorySetsN(m: Machine, size: OpSize)
    requires WellFormed(m) && m.sr[1] & 0xf0 == 0
    ensures MoveEffect(m, Instruction(Move, size, Immediate([0xde, 0xad, 0xbe, 0xef]), MemoryAddr(0x100))).sr[1] == 0x08
  {
    var v: seq<bv8> := [0xde, 0xad, 0xbe, 0xef];
    MoveImmediateCcrFromClear(m, size, v, MemoryAddr(0x100));
    assert v[REG_BYTES - Width(size)..][0] == if size.Byte? then 0xef else if size.Word? then 0xbe else 0xde;
  }

  /** A zero active part sets Z alone, whatever the inactive bytes hold. */
  lemma ZeroMoveSetsOnlyZ(m: Machine, size: OpSize, v: seq<bv8>, trg: DataContainer)
    requires WellFormed(m) && m.sr[1] & 0xf0 == 0
    requires |v| == REG_BYTES && Resolvable(trg, size) && OutsideStatus(trg) && OperandWidth(trg, size) <= Width(size)
    requires AllZero(v[REG_BYTES - Width(size)..])
    ensures MoveEffect(m, Instruction(Move, size, Immediate(v), trg)).sr[1] == 0x04
  {
    MoveImmediateCcrFromClear(m, size, v, trg);
  }

  /** A positive non-zero active part leaves every flag clear. */
  lemma PositiveMoveClearsFlags(m: Machine, size: OpSize, v: seq<bv8>, trg: DataContainer)
    requires WellFormed(m) && m.sr[1] & 0xf0 == 0
    requires |v| == REG_BYTES && Resolvable(trg, size) && OutsideStatus(trg) && OperandWidth(trg, size) <= Width(size)
    requires !AllZero(v[REG_BYTES - Width(size)..]) && !IsNegative(v[REG_BYTES - Width(size)..])
    ensures MoveEffect(m, Instruction(Move, size, Immediate(v), trg)).sr[1] == 0
  {
    MoveImmediateCcrFromClear(m, size, v, trg);
  }

  /** A negative active part sets N alone. */
  lemma NegativeMoveSetsN(m: Machine, size: OpSize, v: seq<bv8>, trg: DataContainer)
    requires WellFormed(m) && m.sr[1] & 0xf0 == 0
    requires |v| == REG_BYTES && Resolvable(trg, size) && OutsideStatus(trg) && OperandWidth(trg, size) <= Width(size)
    requires IsNegative(v[REG_BYTES - Width(size)..])
    ensures MoveEffect(m, Instruction(Move, size, Immediate(v), trg)).sr[1] == 0x08
  {
    MoveImmediateCcrFromClear(m, size, v, trg);
  }

  /**
   * After the flag test routine has set N, C and X (and kept bits 5 to 7
   * clear), a negative MOVE leaves N and X set: C is cleared and X is not
   * touched.
   */
  lemma MoveAfterFlagTestKeepsX(m: Machine, size: OpSize, v: seq<bv8>, trg: DataContainer)
    requires WellFormed(m) && m.sr[1] & 0xe0 == 0 && Flags.IsSet(m.sr[1], Flags.X)
    requires |v| == REG_BYTES && Resolvable(trg, size) && OutsideStatus(trg) && OperandWidth(trg, size) <= Width(size)
    requires IsNegative(v[REG_BYTES - Width(size)..])
    ensures MoveEffect(m, Instruction(Move, size, Immediate(v), trg)).sr[1] == 0x18
  {
    MoveImmediateCcrFromClear(m, size, v, trg);
    KeptXWithN(m.sr[1]);
  }

  /** X set and bits 5 to 7 clear: keeping X and adding N gives 0b00011000. */
  lemma KeptXWithN(b: bv8)
    requires b & 0xe0 == 0 && Flags.IsSet(b, Flags.X)
    ensures (b & 0x10) | 0x08 == 0x18
  {
  }

  /** Dispatch: a non-MOVE instruction such as TST with no target changes nothing. */
  lemma OtherMnemonicIsNoOp(m: Machine, inst: Instruction)
    requires WellFormed(m) && inst.op != Move
    ensures Step(m, inst) == m
  {
  }
}
