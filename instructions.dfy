/**
 * Instruction descriptors consumed by the execution engine: operand sizes,
 * mnemonics, operand locations and the immutable instruction record.
 */
module Instructions {

  /** Declared operand width of an instruction. */
  datatype OpSize = Byte | Word | Long

  /** The mnemonics the decoder may produce; only Move has an effect. */
  datatype Mnemonic = Move | MoveA | Add | AddA | Lea | Tst

  /**
   * Where an operand lives. An Immediate is documented to carry its
   * constant as four big-endian bytes; nothing in the type enforces the
   * four, and resolution only needs enough bytes to skip the inactive ones.
   */
  datatype DataContainer =
    | DataRegister(index: nat)
    | AddressRegister(index: nat)
    | Immediate(bytes: seq<bv8>)
    | MemoryAddr(addr: nat)
    | SR
    | CCR
    | Empty

  /** An instruction: opcode, size, source operand (lhs) and target operand (trg). */
  datatype Instruction = Instruction(op: Mnemonic, size: OpSize, lhs: DataContainer, trg: DataContainer)
  {
    function GetOp(): Mnemonic { op }
    function GetSize(): OpSize { size }
    function GetLhs(): DataContainer { lhs }
    function GetTrg(): DataContainer { trg }
  }

  /**
   * Builds an instruction from its four parts without validating them
   * (register indices and immediate lengths are checked where the
   * instruction is executed); every getter gives back what was passed.
   */
  function New(op: Mnemonic, size: OpSize, lhs: DataContainer, trg: DataContainer): (r: Instruction)
    ensures r.GetOp() == op && r.GetSize() == size
    ensures r.GetLhs() == lhs && r.GetTrg() == trg
  {
    Instruction(op, size, lhs, trg)
  }

  /** OpSize is a plain copyable value: a copy equals the original. */
  function CloneSize(s: OpSize): (r: OpSize)
    ensures r == s
  {
    s
  }
}
