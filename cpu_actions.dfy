/**
 * Operand resolution and the MOVE instruction as functions of the storage
 * value: the size adjustment, the sign and zero tests on a byte buffer,
 * the region an operand resolves to, and the state MOVE produces.
 * The class in module Cpu runs the same steps in place and is proved
 * to end in MoveEffect's state.
 */
module CpuActions {
  import opened Instructions
  import opened Storage
  import Flags

  /** Byte width of a size: 1, 2 or 4. */
  function Width(size: OpSize): nat
  {
    match size
    case Byte => 1
    case Word => 2
    case Long => 4
  }

  /**
   * Offset of the active bytes inside a 4-byte big-endian buffer: a
   * sub-word operand is always the low-order (rightmost) bytes.
   */
  function Adjust(size: OpSize): (r: nat)
    ensures r + Width(size) == REG_BYTES
    ensures r == 3 || r == 2 || r == 0
  {
    match size
    case Byte => 3
    case Word => 2
    case Long => 0
  }

  /** Sign test: the top bit of the most significant (first) byte. */
  function IsNegative(v: seq<bv8>): (r: bool)
    requires |v| > 0
    ensures r <==> v[0] & 0x80 == 0x80
  {
    v[0] > 0x7f
  }

  predicate AllZero(v: seq<bv8>)
  {
    forall k | 0 <= k < |v| :: v[k] == 0
  }

  /** Zero test, scanning the bytes and stopping at the first non-zero one. */
  method IsNull(v: seq<bv8>) returns (r: bool)
    ensures r <==> AllZero(v)
  {
    var k := 0;
    while k < |v|
      invariant 0 <= k <= |v|
      invariant forall j | 0 <= j < k :: v[j] == 0
    {
      if v[k] != 0 {
        return false;
      }
      k := k + 1;
    }
    return true;
  }

  function Pow256(n: nat): (p: nat)
    ensures p > 0
  {
    if n == 0 then 1 else 256 * Pow256(n - 1)
  }

  function ByteValue(b: bv8): (n: nat)
    ensures n < 256
    ensures n >= 128 <==> b > 0x7f
    ensures n == 0 <==> b == 0
  {
    b as nat
  }

  /** The unsigned value of a big-endian byte string. */
  function BigEndian(v: seq<bv8>): nat
  {
    if |v| == 0 then 0 else ByteValue(v[0]) * Pow256(|v| - 1) + BigEndian(v[1..])
  }

  /** a <= b gives a * p <= b * p; the one nonlinear step the lemmas below need. */
  lemma MulMono(a: nat, b: nat, p: nat)
    requires a <= b
    ensures a * p <= b * p
  {
    assert b * p == a * p + (b - a) * p;
  }

  lemma MulSucc(a: nat, p: nat)
    ensures (a + 1) * p == a * p + p
  {
  }

  /** A big-endian string of n bytes is below 256^n. */
  lemma {:induction false} BigEndianBound(v: seq<bv8>)
    ensures BigEndian(v) < Pow256(|v|)
  {
    if |v| > 0 {
      BigEndianBound(v[1..]);
      var p := Pow256(|v| - 1);
      var top := ByteValue(v[0]);
      assert Pow256(|v|) == 256 * p;
      assert BigEndian(v) == top * p + BigEndian(v[1..]);
      MulMono(top + 1, 256, p);
      MulSucc(top, p);
    }
  }

  /**
   * IsNegative is the two's-complement sign of the buffer read as a
   * big-endian number of |v| bytes: the value is at least half the range.
   */
  lemma IsNegativeIsSign(v: seq<bv8>)
    requires |v| > 0
    ensures IsNegative(v) <==> BigEndian(v) >= 128 * Pow256(|v| - 1)
  {
    var p := Pow256(|v| - 1);
    var top := ByteValue(v[0]);
    BigEndianBound(v[1..]);
    assert BigEndian(v) == top * p + BigEndian(v[1..]);
    if top >= 128 {
      MulMono(128, top, p);
    } else {
      MulMono(top + 1, 128, p);
      MulSucc(top, p);
    }
  }

  /** AllZero holds exactly of the buffers whose big-endian value is zero. */
  lemma {:induction false} AllZeroIsZeroValue(v: seq<bv8>)
    ensures AllZero(v) <==> BigEndian(v) == 0
  {
    if |v| > 0 {
      AllZeroIsZeroValue(v[1..]);
      var p := Pow256(|v| - 1);
      if v[0] != 0 {
        MulMono(1, ByteValue(v[0]), p);
      } else {
        assert ByteValue(v[0]) * p == 0;
        assert forall k | 1 <= k < |v| :: v[k] == v[1..][k - 1];
      }
    }
  }

  /** A zero buffer is never negative, so MOVE never sets Z and N together. */
  lemma ZeroIsNotNegative(v: seq<bv8>)
    requires |v| > 0 && AllZero(v)
    ensures !IsNegative(v)
  {
    assert v[0] == 0;
  }

  /**
   * The operands that resolve without a panic: register indices below 8,
   * an immediate with at least Adjust(size) bytes, a memory region inside
   * memory. Empty has no resolution at all.
   */
  predicate Resolvable(c: DataContainer, size: OpSize): (ok: bool)
    ensures ok ==> !c.Empty?
    ensures ok && c.MemoryAddr? ==> c.addr < MEM_SIZE
  {
    match c
    case DataRegister(i) => i < REG_COUNT
    case AddressRegister(i) => i < REG_COUNT
    case Immediate(v) => Adjust(size) <= |v|
    case MemoryAddr(addr) => addr + Width(size) <= MEM_SIZE
    case SR => true
    case CCR => true
    case Empty => false
  }

  /**
   * Number of bytes an operand resolves to: SR is 2 and CCR 1 whatever the
   * size, an immediate everything from Adjust(size) on (Width(size) for the
   * documented 4-byte immediates).
   */
  function OperandWidth(c: DataContainer, size: OpSize): nat
    requires Resolvable(c, size)
  {
    match c
    case Immediate(v) => |v| - Adjust(size)
    case SR => 2
    case CCR => 1
    case _ => Width(size)
  }

  /**
   * The region get_target hands back. Registers give their low-order
   * Width(size) bytes, an immediate its cached copy from Adjust(size) on,
   * memory the Width(size) bytes from the address on, SR both status bytes
   * and CCR the low status byte.
   */
  function TargetRegion(c: DataContainer, size: OpSize): (r: Region)
    requires Resolvable(c, size)
    ensures r.len == OperandWidth(c, size)
    ensures c.DataRegister? ==> r.store == DataReg(c.index) && r.start + r.len == REG_BYTES
    ensures c.AddressRegister? ==> r.store == AddrReg(c.index) && r.start + r.len == REG_BYTES
    ensures c.Immediate? ==> r.store == Cache && r.start == Adjust(size) && r.start + r.len == |c.bytes|
    ensures c.MemoryAddr? ==> r.store == Memory && r.start == c.addr
    ensures c.SR? ==> r.store == Status && r.start == 0
    ensures c.CCR? ==> r.store == Status && r.start == 1
  {
    var adjust := Adjust(size);
    match c
    case DataRegister(i) => Region(DataReg(i), adjust, REG_BYTES - adjust)
    case AddressRegister(i) => Region(AddrReg(i), adjust, REG_BYTES - adjust)
    case Immediate(v) => Region(Cache, adjust, |v| - adjust)
    case MemoryAddr(addr) => Region(Memory, addr, REG_BYTES - adjust)
    case SR => Region(Status, 0, 2)
    case CCR => Region(Status, 1, 1)
  }

  /**
   * The side effect of resolving an operand: an immediate is first copied
   * into the cache, which the returned region then points into.
   */
  function Resolve(m: Machine, c: DataContainer, size: OpSize): (m': Machine)
    requires WellFormed(m) && Resolvable(c, size)
    ensures WellFormed(m') && InBounds(m', TargetRegion(c, size))
    ensures m'.sr == m.sr && m'.d == m.d && m'.a == m.a && m'.mem == m.mem
    ensures m'.pc == m.pc && m'.usp == m.usp
    ensures m'.cache == if c.Immediate? then c.bytes else m.cache
  {
    if c.Immediate? then m.(cache := c.bytes) else m
  }

  /**
   * What an operand reads as, stated per operand kind without regions:
   * the reference the resolver is checked against.
   */
  function OperandValue(m: Machine, c: DataContainer, size: OpSize): (v: seq<bv8>)
    requires WellFormed(m) && Resolvable(c, size)
    ensures |v| == OperandWidth(c, size)
  {
    var w := Width(size);
    match c
    case DataRegister(i) => m.d[i][REG_BYTES - w..]
    case AddressRegister(i) => m.a[i][REG_BYTES - w..]
    case Immediate(v) => v[Adjust(size)..]
    case MemoryAddr(addr) => m.mem[addr..addr + w]
    case SR => m.sr
    case CCR => m.sr[1..]
  }

  /** Resolving then reading an operand yields its current value. */
  lemma ResolveReadsOperand(m: Machine, c: DataContainer, size: OpSize)
    requires WellFormed(m) && Resolvable(c, size)
    ensures ReadRegion(Resolve(m, c, size), TargetRegion(c, size)) == OperandValue(m, c, size)
  {
  }

  /**
   * The MOVE instructions that run without a panic: both operands resolve,
   * the snapshot is not empty (the sign test reads its first byte) and it
   * is at least as wide as the target (the write loop indexes the snapshot
   * by the target's positions).
   */
  predicate ValidMove(inst: Instruction): (ok: bool)
    ensures ok ==> Resolvable(inst.lhs, inst.size) && Resolvable(inst.trg, inst.size)
    ensures ok ==> 0 < TargetRegion(inst.lhs, inst.size).len
    ensures ok ==> TargetRegion(inst.trg, inst.size).len <= TargetRegion(inst.lhs, inst.size).len
  {
    && Resolvable(inst.lhs, inst.size)
    && Resolvable(inst.trg, inst.size)
    && OperandWidth(inst.lhs, inst.size) > 0
    && OperandWidth(inst.lhs, inst.size) >= OperandWidth(inst.trg, inst.size)
  }

  /** Step 1: C and V are cleared. */
  function ClearedCV(m: Machine): (m': Machine)
    requires WellFormed(m)
    ensures WellFormed(m')
  {
    WithFlag(WithFlag(m, Flags.C, false), Flags.V, false)
  }

  /** Step 2: the state once the source has been resolved. */
  function SourceState(m: Machine, inst: Instruction): (m': Machine)
    requires WellFormed(m) && ValidMove(inst)
    ensures WellFormed(m') && InBounds(m', TargetRegion(inst.lhs, inst.size))
  {
    Resolve(ClearedCV(m), inst.lhs, inst.size)
  }

  /** Step 2: the snapshot of the source bytes. */
  function SourceBytes(m: Machine, inst: Instruction): (s: seq<bv8>)
    requires WellFormed(m) && ValidMove(inst)
    ensures |s| == OperandWidth(inst.lhs, inst.size) > 0
  {
    ReadRegion(SourceState(m, inst), TargetRegion(inst.lhs, inst.size))
  }

  /** Step 3: N and Z follow the snapshot. */
  function FlaggedState(m: Machine, inst: Instruction): (m': Machine)
    requires WellFormed(m) && ValidMove(inst)
    ensures WellFormed(m')
  {
    var src := SourceBytes(m, inst);
    WithFlag(WithFlag(SourceState(m, inst), Flags.N, IsNegative(src)), Flags.Z, AllZero(src))
  }

  /** Step 4: the target is resolved and the snapshot copied into it byte for byte. */
  function MoveEffect(m: Machine, inst: Instruction): (m': Machine)
    requires WellFormed(m) && ValidMove(inst)
    ensures WellFormed(m')
  {
    var src := SourceBytes(m, inst);
    var dst := TargetRegion(inst.trg, inst.size);
    WriteRegion(Resolve(FlaggedState(m, inst), inst.trg, inst.size), dst, src[..dst.len])
  }

  /** Dispatch: MOVE runs, every other mnemonic leaves the state as it is. */
  function Step(m: Machine, inst: Instruction): (m': Machine)
    requires WellFormed(m) && (inst.op == Move ==> ValidMove(inst))
    ensures WellFormed(m')
    ensures inst.op != Move ==> m' == m
  {
    if inst.op == Move then MoveEffect(m, inst) else m
  }
}
