/**
 * The CPU object: its storage fields, updated in place, the per-flag set
 * and clear operations, the read accessors, operand resolution and the
 * MOVE execution path. State() is the value of the storage; every method
 * that changes storage says what State() becomes.
 */
module Cpu {
  import opened Wrappers
  import opened Instructions
  import opened Storage
  import opened CpuActions
  import Flags

  class Cpu {
    // Every buffer is big-endian.
    var pc: seq<bv8>
    var usp: seq<bv8>
    var dataRegs: seq<seq<bv8>>
    var addrRegs: seq<seq<bv8>>
    var memory: array<bv8>
    var sr: seq<bv8>
    var cache: seq<bv8>

    ghost function State(): Machine
      reads this, memory
    {
      Machine(pc, usp, dataRegs, addrRegs, memory[..], sr, cache)
    }

    ghost predicate Valid()
      reads this, memory
      ensures Valid() <==> WellFormed(State())
    {
      && |pc| == REG_BYTES && |usp| == REG_BYTES
      && |dataRegs| == REG_COUNT && (forall i | 0 <= i < |dataRegs| :: |dataRegs[i]| == REG_BYTES)
      && |addrRegs| == REG_COUNT && (forall i | 0 <= i < |addrRegs| :: |addrRegs[i]| == REG_BYTES)
      && memory.Length == MEM_SIZE
      && |sr| == 2
    }

    /** The default CPU: everything zero, 16 MiB of memory. */
    constructor ()
      ensures Valid() && fresh(memory)
      ensures State() == Default()
    {
      pc := Zeros(REG_BYTES);
      usp := Zeros(REG_BYTES);
      dataRegs := seq(REG_COUNT, _ => Zeros(REG_BYTES));
      addrRegs := seq(REG_COUNT, _ => Zeros(REG_BYTES));
      memory := new bv8[MEM_SIZE](_ => 0);
      sr := Zeros(2);
      cache := Zeros(REG_BYTES);
      new;
      assert memory[..] == Zeros(MEM_SIZE);
    }

    // Setting flags.

    method SetCFlag()
      requires Valid()
      modifies this`sr
      ensures Valid()
      ensures State() == WithFlag(old(State()), Flags.C, true)
    {
      sr := sr[1 := sr[1] | 0x01];
    }

    method SetVFlag()
      requires Valid()
      modifies this`sr
      ensures Valid()
      ensures State() == WithFlag(old(State()), Flags.V, true)
    {
      sr := sr[1 := sr[1] | 0x02];
    }

    method SetZFlag()
      requires Valid()
      modifies this`sr
      ensures Valid()
      ensures State() == WithFlag(old(State()), Flags.Z, true)
    {
      sr := sr[1 := sr[1] | 0x04];
    }

    method SetNFlag()
      requires Valid()
      modifies this`sr
      ensures Valid()
      ensures State() == WithFlag(old(State()), Flags.N, true)
    {
      sr := sr[1 := sr[1] | 0x08];
    }

    method SetXFlag()
      requires Valid()
      modifies this`sr
      ensures Valid()
      ensures State() == WithFlag(old(State()), Flags.X, true)
    {
      sr := sr[1 := sr[1] | 0x10];
    }

    // Clearing flags.

    method ClearCFlag()
      requires Valid()
      modifies this`sr
      ensures Valid()
      ensures State() == WithFlag(old(State()), Flags.C, false)
    {
      sr := sr[1 := sr[1] & 0xfe];
    }

    method ClearVFlag()
      requires Valid()
      modifies this`sr
      ensures Valid()
      ensures State() == WithFlag(old(State()), Flags.V, false)
    {
      sr := sr[1 := sr[1] & 0xfd];
    }

    method ClearZFlag()
      requires Valid()
      modifies this`sr
      ensures Valid()
      ensures State() == WithFlag(old(State()), Flags.Z, false)
    {
      sr := sr[1 := sr[1] & 0xfb];
    }

    method ClearNFlag()
      requires Valid()
      modifies this`sr
      ensures Valid()
      ensures State() == WithFlag(old(State()), Flags.N, false)
    {
      sr := sr[1 := sr[1] & 0xf7];
    }

    method ClearXFlag()
      requires Valid()
      modifies this`sr
      ensures Valid()
      ensures State() == WithFlag(old(State()), Flags.X, false)
    {
      sr := sr[1 := sr[1] & 0xef];
    }

    /** Sets X, Z, V and C and clears N; bits 5 to 7 and the system byte stay. */
    method Foo()
      requires Valid()
      modifies this`sr
      ensures Valid()
      ensures sr[0] == old(sr[0])
      ensures forall f: Flags.Flag :: Flags.IsSet(sr[1], f) <==> f != Flags.N
      ensures sr[1] & 0xe0 == old(sr[1]) & 0xe0
    {
      ghost var b := sr[1];
      SetXFlag();
      SetZFlag();
      SetVFlag();
      SetCFlag();
      ClearNFlag();
      assert sr[1] == (b | 0x17) & 0xf7;
    }

    /** Sets N, C and X; V, Z, bits 5 to 7 and the system byte stay. */
    method CpuFlagMoveTest()
      requires Valid()
      modifies this`sr
      ensures Valid()
      ensures State() == WithFlag(WithFlag(WithFlag(old(State()), Flags.N, true), Flags.C, true), Flags.X, true)
      ensures sr[0] == old(sr[0])
      ensures Flags.IsSet(sr[1], Flags.N) && Flags.IsSet(sr[1], Flags.C) && Flags.IsSet(sr[1], Flags.X)
      ensures Flags.IsSet(sr[1], Flags.V) == Flags.IsSet(old(sr[1]), Flags.V)
      ensures Flags.IsSet(sr[1], Flags.Z) == Flags.IsSet(old(sr[1]), Flags.Z)
      ensures sr[1] & 0xe0 == old(sr[1]) & 0xe0
    {
      ghost var b := sr[1];
      SetNFlag();
      SetCFlag();
      SetXFlag();
      assert sr[1] == Flags.Set(Flags.Set(Flags.Set(b, Flags.N), Flags.C), Flags.X);
      Flags.FlagMoveTestBits(b);
    }

    /**
     * Stores v in the cache and hands back the region of the cache from
     * position n on.
     */
    method CacheValue(v: seq<bv8>, n: nat) returns (r: Region)
      requires Valid() && n <= |v|
      modifies this`cache
      ensures Valid()
      ensures cache == v
      ensures r == Region(Cache, n, |v| - n) && InBounds(State(), r)
      ensures ReadRegion(State(), r) == v[n..]
    {
      cache := v;
      r := Region(Cache, n, |v| - n);
    }

    // Read accessors.

    /** The condition-code byte, the low byte of the status register. */
    function GetCcr(): (r: bv8)
      reads this, memory
      requires Valid()
      ensures r == State().sr[1]
    {
      sr[1]
    }

    function GetDataReg(i: nat): (r: Option<seq<bv8>>)
      reads this, memory
      requires Valid()
      ensures r.Some? <==> i < REG_COUNT
      ensures r.Some? ==> |r.value| == REG_BYTES && r.value == State().d[i]
    {
      if i < 8 then Some(dataRegs[i]) else None
    }

    function GetAddrReg(i: nat): (r: Option<seq<bv8>>)
      reads this, memory
      requires Valid()
      ensures r.Some? <==> i < REG_COUNT
      ensures r.Some? ==> |r.value| == REG_BYTES && r.value == State().a[i]
    {
      if i < 8 then Some(addrRegs[i]) else None
    }

    /**
     * The len bytes of memory from offset on, as written: the bound test
     * uses >=, so a range ending exactly at the end of memory is refused.
     */
    function GetMemoryOffset(offset: nat, len: nat): (r: Option<seq<bv8>>)
      reads this, memory
      requires Valid()
      ensures r.None? <==> offset >= MEM_SIZE || offset + len >= MEM_SIZE
      ensures r.Some? ==> |r.value| == len && forall k | 0 <= k < len :: r.value[k] == memory[offset + k]
    {
      if offset >= 0x100_0000 || offset + len >= 0x100_0000 then None
      else Some(memory[offset..offset + len])
    }

    /** The last memory byte exists but GetMemoryOffset cannot return it. */
    lemma GetMemoryOffsetMissesLastByte()
      requires Valid()
      ensures MEM_SIZE - 1 < memory.Length
      ensures GetMemoryOffset(MEM_SIZE - 1, 1) == None
    {
    }

    /** The lookup with the bound the storage model states: a range is readable iff it fits. */
    function GetMemoryRange(offset: nat, len: nat): (r: Option<seq<bv8>>)
      reads this, memory
      requires Valid()
      ensures r.None? <==> offset + len > MEM_SIZE
      ensures r.Some? ==> |r.value| == len && forall k | 0 <= k < len :: r.value[k] == memory[offset + k]
    {
      if offset + len > MEM_SIZE then None else Some(memory[offset..offset + len])
    }

    /** Every fitting range, the last byte included, is readable, and agrees with GetMemoryOffset where that answers. */
    lemma GetMemoryRangeReadsLastByte(offset: nat, len: nat)
      requires Valid()
      ensures GetMemoryRange(MEM_SIZE - 1, 1) == Some([memory[MEM_SIZE - 1]])
      ensures GetMemoryOffset(offset, len).Some? ==> GetMemoryRange(offset, len) == GetMemoryOffset(offset, len)
    {
      assert memory[MEM_SIZE - 1..MEM_SIZE] == [memory[MEM_SIZE - 1]];
    }

    /** Copies the bytes of a region out of storage. */
    function Read(r: Region): (s: seq<bv8>)
      reads this, memory
      requires Valid() && InBounds(State(), r)
      ensures s == ReadRegion(State(), r)
    {
      match r.store
      case DataReg(i) => dataRegs[i][r.start..r.start + r.len]
      case AddrReg(i) => addrRegs[i][r.start..r.start + r.len]
      case Memory => memory[r.start..r.start + r.len]
      case Status => sr[r.start..r.start + r.len]
      case Cache => cache[r.start..r.start + r.len]
    }

    /** Writes one byte at offset k of region r. */
    method WriteByte(r: Region, k: nat, b: bv8)
      requires Valid() && InBounds(State(), r) && k < r.len
      modifies this`dataRegs, this`addrRegs, this`sr, this`cache, memory
      ensures Valid()
      ensures State() == WriteAt(old(State()), r, k, b)
    {
      var idx := r.start + k;
      match r.store
      case DataReg(i) => dataRegs := dataRegs[i := dataRegs[i][idx := b]];
      case AddrReg(i) => addrRegs := addrRegs[i := addrRegs[i][idx := b]];
      case Memory => memory[idx] := b;
      case Status => sr := sr[idx := b];
      case Cache => cache := cache[idx := b];
    }

    /**
     * Resolves an operand to the region of storage it names; an immediate
     * is copied into the cache first.
     */
    method GetTarget(c: DataContainer, size: OpSize) returns (r: Region)
      requires Valid() && Resolvable(c, size)
      modifies this`cache
      ensures Valid()
      ensures r == TargetRegion(c, size)
      ensures State() == Resolve(old(State()), c, size)
    {
      var adjust := Adjust(size);
      match c
      case DataRegister(i) => r := Region(DataReg(i), adjust, REG_BYTES - adjust);
      case AddressRegister(i) => r := Region(AddrReg(i), adjust, REG_BYTES - adjust);
      case Immediate(v) => r := CacheValue(v, adjust);
      case MemoryAddr(addr) => r := Region(Memory, addr, (addr + 4 - adjust) - addr);
      case SR => r := Region(Status, 0, |sr|);
      case CCR => r := Region(Status, 1, |sr| - 1);
    }

    /**
     * MOVE: clear C and V, snapshot the source, set N and Z from the
     * snapshot, then copy the snapshot into the target byte by byte.
     */
    method PerformMove(inst: Instruction)
      requires Valid() && ValidMove(inst)
      modifies this`dataRegs, this`addrRegs, this`sr, this`cache, memory
      ensures Valid()
      ensures State() == MoveEffect(old(State()), inst)
    {
      ghost var m0 := State();
      ClearCFlag();
      ClearVFlag();
      assert State() == ClearedCV(m0);

      var lhs := GetTarget(inst.GetLhs(), inst.GetSize());
      assert State() == SourceState(m0, inst);
      var tmp := Read(lhs);
      assert tmp == SourceBytes(m0, inst);

      UpdateNZ(tmp);
      assert State() == FlaggedState(m0, inst);

      var trg := GetTarget(inst.GetTrg(), inst.GetSize());
      assert State() == Resolve(FlaggedState(m0, inst), inst.trg, inst.size);
      CopyInto(trg, tmp);
    }

    /** Step 3 of MOVE: N follows the sign of the snapshot, Z whether it is all zero. */
    method UpdateNZ(tmp: seq<bv8>)
      requires Valid() && |tmp| > 0
      modifies this`sr
      ensures Valid()
      ensures State() == WithFlag(WithFlag(old(State()), Flags.N, IsNegative(tmp)), Flags.Z, AllZero(tmp))
    {
      if IsNegative(tmp) {
        SetNFlag();
      } else {
        ClearNFlag();
      }
      var zero := IsNull(tmp);
      if zero {
        SetZFlag();
      } else {
        ClearZFlag();
      }
    }

    /** The write loop of MOVE: target byte i receives snapshot byte i, for every i in the target. */
    method CopyInto(trg: Region, tmp: seq<bv8>)
      requires Valid() && InBounds(State(), trg) && trg.len <= |tmp|
      modifies this`dataRegs, this`addrRegs, this`sr, this`cache, memory
      ensures Valid()
      ensures State() == WriteRegion(old(State()), trg, tmp[..trg.len])
    {
      ghost var m := State();
      WriteRegionEmpty(m, trg);
      var i := 0;
      while i < trg.len
        invariant 0 <= i <= trg.len
        invariant Valid()
        invariant State() == WriteRegion(m, trg, tmp[..i])
      {
        ghost var done := tmp[..i];
        assert tmp[..i + 1] == done + [tmp[i]];
        WriteRegionStep(m, trg, done, tmp[i]);
        WriteByte(trg, i, tmp[i]);
        i := i + 1;
      }
    }

    /** Runs one instruction: MOVE as above, any other mnemonic changes nothing. */
    method Execute(inst: Instruction)
      requires Valid() && (inst.GetOp() == Move ==> ValidMove(inst))
      modifies this`dataRegs, this`addrRegs, this`sr, this`cache, memory
      ensures Valid()
      ensures State() == Step(old(State()), inst)
      ensures inst.GetOp() != Move ==> State() == old(State())
    {
      match inst.GetOp()
      case Move => PerformMove(inst);
      case _ =>
    }
  }
}
