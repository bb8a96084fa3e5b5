/**
 * The condition-code byte (the low byte of the status register) and the
 * single-bit set and clear operations the CPU performs on it.
 * Layout: C = bit 0, V = bit 1, Z = bit 2, N = bit 3, X = bit 4;
 * bits 5 to 7 are not used by this core.
 */
module Flags {

  datatype Flag = C | V | Z | N | X

  /** Position of a flag in the condition-code byte. */
  function BitIndex(f: Flag): nat
  {
    match f
    case C => 0
    case V => 1
    case Z => 2
    case N => 3
    case X => 4
  }

  /** The OR mask a set operation uses. */
  function Mask(f: Flag): bv8
  {
    match f
    case C => 0x01
    case V => 0x02
    case Z => 0x04
    case N => 0x08
    case X => 0x10
  }

  /** The AND mask a clear operation uses. */
  function ClearMask(f: Flag): (m: bv8)
    ensures m == !Mask(f)
  {
    match f
    case C => 0xfe
    case V => 0xfd
    case Z => 0xfb
    case N => 0xf7
    case X => 0xef
  }

  /** Each mask holds the single bit of its flag's position. */
  lemma MaskIsBit(f: Flag)
    ensures Mask(f) == (1 as bv8) << BitIndex(f)
  {
  }

  predicate IsSet(b: bv8, f: Flag)
  {
    b & Mask(f) != 0
  }

  /** Every bit of b except the one belonging to f. */
  function Others(b: bv8, f: Flag): bv8
  {
    b & !Mask(f)
  }

  /** Sets one flag (ORs its mask in); SetSpec states its effect. */
  function Set(b: bv8, f: Flag): bv8
  {
    b | Mask(f)
  }

  /** Clears one flag (ANDs its clear mask in); ClearSpec states its effect. */
  function Clear(b: bv8, f: Flag): bv8
  {
    b & ClearMask(f)
  }

  /** Sets the flag when on holds and clears it otherwise; AssignSpec states its effect. */
  function Assign(b: bv8, f: Flag, on: bool): bv8
  {
    if on then Set(b, f) else Clear(b, f)
  }

  // The effects of Set, Clear and Assign are lemmas rather than ensures
  // clauses: the functions are unfolded inside every MOVE proof, where
  // the extra bit-vector facts only cost solver time.

  /** Setting a flag makes its bit 1 and moves no other bit. */
  lemma SetSpec(b: bv8, f: Flag)
    ensures IsSet(Set(b, f), f)
    ensures Others(Set(b, f), f) == Others(b, f)
  {
  }

  /** Clearing a flag makes its bit 0 and moves no other bit. */
  lemma ClearSpec(b: bv8, f: Flag)
    ensures !IsSet(Clear(b, f), f)
    ensures Others(Clear(b, f), f) == Others(b, f)
  {
  }

  /** Assigning a flag gives its bit the requested value and moves no other bit. */
  lemma AssignSpec(b: bv8, f: Flag, on: bool)
    ensures IsSet(Assign(b, f, on), f) == on
    ensures Others(Assign(b, f, on), f) == Others(b, f)
  {
  }

  /** Changing one flag leaves every other flag as it was. */
  lemma FlagsIndependent(b: bv8, f: Flag, g: Flag, on: bool)
    requires f != g
    ensures IsSet(Assign(b, f, on), g) == IsSet(b, g)
  {
  }

  lemma SetIdempotent(b: bv8, f: Flag)
    ensures Set(Set(b, f), f) == Set(b, f)
  {
  }

  lemma ClearIdempotent(b: bv8, f: Flag)
    ensures Clear(Clear(b, f), f) == Clear(b, f)
  {
  }

  /** Clearing after setting leaves the byte as clearing alone would. */
  lemma ClearAfterSet(b: bv8, f: Flag)
    ensures Clear(Set(b, f), f) == Clear(b, f)
    ensures !IsSet(Clear(Set(b, f), f), f)
  {
  }

  /** A set or clear never touches the unused bits 5 to 7. */
  lemma AssignKeepsHighBits(b: bv8, f: Flag, on: bool)
    ensures Assign(b, f, on) & 0xe0 == b & 0xe0
  {
  }

  /** Setting N, C and X in turn: those three are set, V, Z and bits 5 to 7 keep their value. */
  lemma FlagMoveTestBits(b: bv8)
    ensures var r := Set(Set(Set(b, N), C), X);
      && IsSet(r, N) && IsSet(r, C) && IsSet(r, X)
      && IsSet(r, V) == IsSet(b, V) && IsSet(r, Z) == IsSet(b, Z)
      && r & 0xe0 == b & 0xe0
  {
    assert Set(Set(Set(b, N), C), X) == b | 0x19;
  }

  /**
   * The condition-code byte after MOVE's flag steps (clear C, clear V,
   * assign N, assign Z): X and bits 5 to 7 are kept, N and Z are the two
   * tests, C and V are zero.
   */
  lemma MoveFlagUpdate(b: bv8, neg: bool, zero: bool)
    ensures var r := Assign(Assign(Clear(Clear(b, C), V), N, neg), Z, zero);
      && r == (b & 0xf0) | (if neg then 0x08 else 0) | (if zero then 0x04 else 0)
      && !IsSet(r, C) && !IsSet(r, V) && IsSet(r, N) == neg && IsSet(r, Z) == zero
      && IsSet(r, X) == IsSet(b, X)
  {
    var r := Assign(Assign(Clear(Clear(b, C), V), N, neg), Z, zero);
    assert r == (b & 0xf0) | (if neg then 0x08 else 0) | (if zero then 0x04 else 0);
  }
}
