/**
 * The CPU's storage as a value: program counter, user stack pointer, the
 * data and address register files, memory, the two-byte status register and
 * the immediate cache. A Region names a run of bytes inside one of these
 * stores; it is what operand resolution hands back in place of a mutable
 * slice.
 */
module Storage {
  import Flags

  const MEM_SIZE: nat := 0x100_0000
  const REG_COUNT: nat := 8
  const REG_BYTES: nat := 4

  datatype Machine = Machine(
    pc: seq<bv8>,
    usp: seq<bv8>,
    d: seq<seq<bv8>>,
    a: seq<seq<bv8>>,
    mem: seq<bv8>,
    sr: seq<bv8>,
    cache: seq<bv8>)

  /** Register files of eight 4-byte registers, 16 MiB of memory, a 2-byte status register. */
  ghost predicate WellFormed(m: Machine)
  {
    && |m.pc| == REG_BYTES && |m.usp| == REG_BYTES
    && |m.d| == REG_COUNT && (forall i | 0 <= i < |m.d| :: |m.d[i]| == REG_BYTES)
    && |m.a| == REG_COUNT && (forall i | 0 <= i < |m.a| :: |m.a[i]| == REG_BYTES)
    && |m.mem| == MEM_SIZE
    && |m.sr| == 2
  }

  function Zeros(n: nat): (s: seq<bv8>)
    ensures |s| == n && forall k | 0 <= k < n :: s[k] == 0
  {
    seq(n, _ => 0)
  }

  /** The power-on state: every register, every memory byte and the status register zero. */
  function Default(): (m: Machine)
    ensures WellFormed(m)
    ensures forall i | 0 <= i < REG_COUNT :: m.d[i] == [0, 0, 0, 0] && m.a[i] == [0, 0, 0, 0]
    ensures m.pc == [0, 0, 0, 0] && m.usp == [0, 0, 0, 0] && m.cache == [0, 0, 0, 0]
    ensures m.sr == [0, 0]
    ensures forall k | 0 <= k < MEM_SIZE :: m.mem[k] == 0
  {
    Machine(Zeros(4), Zeros(4), seq(REG_COUNT, _ => Zeros(4)), seq(REG_COUNT, _ => Zeros(4)),
            Zeros(MEM_SIZE), Zeros(2), Zeros(4))
  }

  datatype Store = DataReg(index: nat) | AddrReg(index: nat) | Memory | Status | Cache

  datatype Region = Region(store: Store, start: nat, len: nat)

  ghost predicate StoreExists(m: Machine, s: Store)
  {
    match s
    case DataReg(i) => i < |m.d|
    case AddrReg(i) => i < |m.a|
    case _ => true
  }

  function StoreBytes(m: Machine, s: Store): seq<bv8>
    requires StoreExists(m, s)
  {
    match s
    case DataReg(i) => m.d[i]
    case AddrReg(i) => m.a[i]
    case Memory => m.mem
    case Status => m.sr
    case Cache => m.cache
  }

  /** Replaces the bytes of one store and nothing else. */
  function WithStore(m: Machine, s: Store, bytes: seq<bv8>): (m': Machine)
    requires StoreExists(m, s)
    ensures StoreExists(m', s) && StoreBytes(m', s) == bytes
    ensures m'.pc == m.pc && m'.usp == m.usp
    ensures m'.d == if s.DataReg? then m.d[s.index := bytes] else m.d
    ensures m'.a == if s.AddrReg? then m.a[s.index := bytes] else m.a
    ensures m'.mem == if s.Memory? then bytes else m.mem
    ensures m'.sr == if s.Status? then bytes else m.sr
    ensures m'.cache == if s.Cache? then bytes else m.cache
    ensures |StoreBytes(m, s)| == |bytes| && WellFormed(m) ==> WellFormed(m')
  {
    match s
    case DataReg(i) => m.(d := m.d[i := bytes])
    case AddrReg(i) => m.(a := m.a[i := bytes])
    case Memory => m.(mem := bytes)
    case Status => m.(sr := bytes)
    case Cache => m.(cache := bytes)
  }

  ghost predicate InBounds(m: Machine, r: Region)
  {
    StoreExists(m, r.store) && r.start + r.len <= |StoreBytes(m, r.store)|
  }

  /** The bytes a region currently holds. */
  function ReadRegion(m: Machine, r: Region): (s: seq<bv8>)
    requires InBounds(m, r)
    ensures |s| == r.len
    ensures forall k | 0 <= k < r.len :: s[k] == StoreBytes(m, r.store)[r.start + k]
  {
    StoreBytes(m, r.store)[r.start..r.start + r.len]
  }

  /** s with the bytes from position start on replaced by bytes. */
  function Splice(s: seq<bv8>, start: nat, bytes: seq<bv8>): (r: seq<bv8>)
    requires start + |bytes| <= |s|
    ensures |r| == |s|
    ensures forall k | 0 <= k < |s| :: r[k] == if start <= k < start + |bytes| then bytes[k - start] else s[k]
  {
    s[..start] + bytes + s[start + |bytes|..]
  }

  /** Writing one more byte after a spliced prefix is writing the longer prefix. */
  lemma {:induction false} SpliceSnoc(s: seq<bv8>, start: nat, bytes: seq<bv8>, x: bv8)
    requires start + |bytes| < |s|
    ensures Splice(s, start, bytes + [x]) == Splice(s, start, bytes)[start + |bytes| := x]
  {
    var lhs := Splice(s, start, bytes + [x]);
    var rhs := Splice(s, start, bytes)[start + |bytes| := x];
    forall k | 0 <= k < |s| ensures lhs[k] == rhs[k] {
      if start <= k < start + |bytes| {
        assert (bytes + [x])[k - start] == bytes[k - start];
      }
    }
  }

  /** Splicing into the tail of s keeps the head and appends the new bytes. */
  lemma SpliceAtEnd(s: seq<bv8>, bytes: seq<bv8>)
    requires |bytes| <= |s|
    ensures Splice(s, |s| - |bytes|, bytes) == s[..|s| - |bytes|] + bytes
  {
    assert s[|s|..] == [];
  }

  /** Copies bytes into the front of region r; everything else stays. */
  function WriteRegion(m: Machine, r: Region, bytes: seq<bv8>): (m': Machine)
    requires InBounds(m, r) && |bytes| <= r.len
    ensures InBounds(m', r)
    ensures StoreBytes(m', r.store) == Splice(StoreBytes(m, r.store), r.start, bytes)
    ensures m' == WithStore(m, r.store, Splice(StoreBytes(m, r.store), r.start, bytes))
    ensures WellFormed(m) ==> WellFormed(m')
  {
    WithStore(m, r.store, Splice(StoreBytes(m, r.store), r.start, bytes))
  }

  /** Writes byte b at offset k of region r. */
  function WriteAt(m: Machine, r: Region, k: nat, b: bv8): (m': Machine)
    requires InBounds(m, r) && k < r.len
    ensures InBounds(m', r)
    ensures StoreBytes(m', r.store) == StoreBytes(m, r.store)[r.start + k := b]
    ensures m' == WithStore(m, r.store, StoreBytes(m, r.store)[r.start + k := b])
    ensures WellFormed(m) ==> WellFormed(m')
  {
    WithStore(m, r.store, StoreBytes(m, r.store)[r.start + k := b])
  }

  lemma WithStoreTwice(m: Machine, s: Store, x: seq<bv8>, y: seq<bv8>)
    requires StoreExists(m, s)
    ensures WithStore(WithStore(m, s, x), s, y) == WithStore(m, s, y)
  {
  }

  /** Writing nothing changes nothing. */
  lemma WriteRegionEmpty(m: Machine, r: Region)
    requires InBounds(m, r)
    ensures WriteRegion(m, r, []) == m
  {
    var S := StoreBytes(m, r.store);
    assert Splice(S, r.start, []) == S;
  }

  /** The byte-by-byte write loop: one more WriteAt extends the written prefix by one. */
  lemma WriteRegionStep(m: Machine, r: Region, bytes: seq<bv8>, x: bv8)
    requires InBounds(m, r) && |bytes| < r.len
    ensures WriteAt(WriteRegion(m, r, bytes), r, |bytes|, x) == WriteRegion(m, r, bytes + [x])
  {
    var S := StoreBytes(m, r.store);
    SpliceSnoc(S, r.start, bytes, x);
    WithStoreTwice(m, r.store, Splice(S, r.start, bytes), Splice(S, r.start, bytes)[r.start + |bytes| := x]);
  }

  /** Sets or clears one flag in the condition-code byte sr[1]. */
  function WithFlag(m: Machine, f: Flags.Flag, on: bool): (m': Machine)
    requires |m.sr| == 2
    ensures m' == m.(sr := [m.sr[0], Flags.Assign(m.sr[1], f, on)])
  {
    m.(sr := m.sr[1 := Flags.Assign(m.sr[1], f, on)])
  }
}
