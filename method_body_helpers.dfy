/**
 * The profiler's readers of a CIL method body (ECMA-335 Partition II,
 * section 25.4): the method header, opcodes, operands and whole instructions.
 * Each reader takes the body and a cursor and gives back what it read with the
 * cursor moved past it. Reading outside the body, which the C++ code does not
 * guard against, is an OutOfBounds error here; an opcode missing from the
 * tables is the `value()` of an empty optional, which throws.
 */
module MethodBodyHelpers {
  import opened Bytes
  import opened OpCodes
  import ByteArrayHelpers

  /**
   * Why reading stops: a read outside the body, an empty table slot, an
   * unknown operand type, a switch without an integer count, or a switch
   * whose negative count moves the cursor back to where it started from, on
   * which the source's scanning loop never ends.
   */
  datatype Error = OutOfBounds | MissingOpCode | InvalidOperandType | MissingOperand | NoProgress

  datatype Result<T> = Ok(value: T) | Err(error: Error)

  /** The size of the method header and the size of the code after it. */
  datatype HeaderInfo = HeaderInfo(headerSize: nat, codeSize: nat)

  /** An inline operand: a signed integer of the operand's width, or the bit pattern of a float. */
  datatype Operand = Int(arg: int) | Real(bits: nat)

  /** An opcode, its operand if it has one, and the offset of its first byte. */
  datatype Instruction = Instruction(opCode: OpCode, operand: Option<Operand>, offset: int)

  /** The size of the fat header structure, IMAGE_COR_ILMETHOD_FAT. */
  const FatHeaderSize := 12

  /**
   * Reads the header at `index`: low two bits other than 0b11 mean a tiny
   * header, one byte whose upper six bits are the code size; otherwise a fat
   * header, whose CodeSize field is the little-endian u32 at bytes 4-7 of the
   * body (the structure is read from the start of the body, not from `index`).
   */
  function ReadHeaderInfo(data: seq<byte>, index: int): (r: Result<(HeaderInfo, int)>)
    ensures r.Err? <==> !(0 <= index < |data|) || (data[index] % 4 == 3 && |data| < 8)
    ensures r.Ok? && data[index] % 4 != 3 ==>
      r.value.0 == HeaderInfo(1, data[index] / 4) && r.value.1 == index + 1 && r.value.0.codeSize < 64
    ensures r.Ok? && data[index] % 4 == 3 ==>
      r.value.0.headerSize == FatHeaderSize && r.value.1 == index + FatHeaderSize
      && LE(r.value.0.codeSize, 4) == data[4..8]
  {
    if !(0 <= index < |data|) then Err(OutOfBounds)
    else
      var header := data[index];
      if header % 4 != 3 then
        Ok((HeaderInfo(1, header / 4), index + 1))
      else if |data| < 8 then Err(OutOfBounds)
      else
        LEOfFromLE(data[4..8]);
        Ok((HeaderInfo(FatHeaderSize, FromLE(data[4..8])), index + FatHeaderSize))
  }

  /**
   * Reads one opcode: a 0xFE lead byte selects the two-byte table and the
   * opcode takes two bytes; any other byte is looked up in the one-byte table.
   */
  function ReadOpCode(t: Tables, data: seq<byte>, index: int): (r: Result<(OpCode, int)>)
    requires WellFormed(t)
    ensures r.Ok? ==> 0 <= index < |data|
    ensures r.Ok? && data[index] != 0xFE ==>
      r.value.0.code == data[index] && r.value.1 == index + 1
    ensures r.Ok? && data[index] == 0xFE ==>
      index + 1 < |data| && r.value.0.code == 0xFE00 + data[index + 1] as int && r.value.1 == index + 2
    ensures r.Ok? ==> Lookup(t, r.value.0.code) == Some(r.value.0)
    ensures r == Err(MissingOpCode) <==>
      0 <= index < |data| &&
      if data[index] == 0xFE then index + 1 < |data| && t.two[data[index + 1]].None?
      else t.one[data[index]].None?
  {
    if !(0 <= index < |data|) then Err(OutOfBounds)
    else if data[index] == 0xFE then
      if index + 1 >= |data| then Err(OutOfBounds)
      else
        var slot := t.two[data[index + 1]];
        if slot.None? then Err(MissingOpCode)
        else
          assert (0xFE00 + data[index + 1] as int) / 256 == 0xFE;
          Ok((slot.value, index + 2))
    else
      var slot := t.one[data[index]];
      if slot.None? then Err(MissingOpCode) else Ok((slot.value, index + 1))
  }

  /** Whether an operand type has an operand the reader can read (all but NOT_USED_8). */
  predicate KnownOperandType(ot: OperandType)
  {
    ot != NotUsed8
  }

  /**
   * The number of bytes of an operand: 4 for branch targets, tokens, int32s,
   * switch counts and floats; 8 for int64s and doubles; 2 for InlineVar; 1 for
   * the short forms; 0 for none and phi.
   */
  function OperandWidth(ot: OperandType): (w: nat)
    ensures w in {0, 1, 2, 4, 8}
    ensures w == 0 <==> ot in {InlineNone, InlinePhi, NotUsed8}
  {
    match ot
    case InlineBrTarget | InlineField | InlineI | InlineMethod | InlineSig
      | InlineString | InlineSwitch | InlineTok | InlineType | ShortInlineR => 4
    case InlineI8 | InlineR => 8
    case InlineNone | InlinePhi | NotUsed8 => 0
    case InlineVar => 2
    case ShortInlineBrTarget | ShortInlineI | ShortInlineVar => 1
  }

  /** Whether an operand type's bytes are a float (left as their bit pattern). */
  predicate IsReal(ot: OperandType)
  {
    ot == InlineR || ot == ShortInlineR
  }

  /**
   * Reads the operand of an opcode of type ot: nothing for none and phi, the
   * bit pattern of a float, or a signed little-endian integer of the width of ot.
   */
  function ReadOperand(ot: OperandType, data: seq<byte>, index: int): (r: Result<(Option<Operand>, int)>)
    ensures r == Err(InvalidOperandType) <==> !KnownOperandType(ot)
    ensures r == Err(OutOfBounds) <==>
      KnownOperandType(ot) && !(0 <= index && index + OperandWidth(ot) <= |data|)
    ensures r.Ok? ==> r.value.1 == index + OperandWidth(ot)
    ensures r.Ok? ==> (r.value.0.None? <==> OperandWidth(ot) == 0)
    ensures r.Ok? && r.value.0.Some? && !IsReal(ot) ==>
      r.value.0.value.Int? && ToUnsigned(r.value.0.value.arg, OperandWidth(ot)) == FromLE(data[index..index + OperandWidth(ot)])
  {
    if !KnownOperandType(ot) then Err(InvalidOperandType)
    else
      var w := OperandWidth(ot);
      if !(0 <= index && index + w <= |data|) then Err(OutOfBounds)
      else if w == 0 then Ok((None, index))
      else
        var u := FromLE(data[index..index + w]);
        if IsReal(ot) then Ok((Some(Real(u)), index + w))
        else
          SignedUnsignedRoundTrip(u, w);
          Ok((Some(Int(ToSigned(u, w))), index + w))
  }

  /** Reinterpreting an n-byte pattern as signed and back as unsigned gives the pattern. */
  lemma SignedUnsignedRoundTrip(u: nat, n: nat)
    requires 1 <= n && u < Pow256(n)
    ensures ToUnsigned(ToSigned(u, n), n) == u
  {
    if u >= SignBound(n) {
      ModOfDecomposition(u - Pow256(n), Pow256(n), -1, u);
    }
  }

  /**
   * Reads one instruction: opcode, operand and start offset. For a switch the
   * operand is the signed target count N, and the cursor additionally skips
   * the 4*N bytes of targets.
   */
  function ReadInstruction(t: Tables, data: seq<byte>, index: int): (r: Result<(Instruction, int)>)
    requires WellFormed(t)
  {
    match ReadOpCode(t, data, index)
    case Err(e) => Err(e)
    case Ok((op, afterOp)) =>
      match ReadOperand(op.operandType, data, afterOp)
      case Err(e) => Err(e)
      case Ok((operand, afterOperand)) =>
        var ins := Instruction(op, operand, index);
        if op.code != Switch then Ok((ins, afterOperand))
        else if operand.Some? && operand.value.Int? then Ok((ins, afterOperand + 4 * operand.value.arg))
        else Err(MissingOperand)
  }

  /** The bytes of switch targets that follow an instruction's operand. */
  function TargetBytes(ins: Instruction): int
  {
    if ins.opCode.code == Switch && ins.operand.Some? && ins.operand.value.Int? then 4 * ins.operand.value.arg else 0
  }

  /**
   * An instruction read at index starts there, and the cursor moves past its
   * opcode, its operand and, for a switch, its 4*N target bytes.
   */
  lemma ReadInstructionAdvances(t: Tables, data: seq<byte>, index: int)
    requires WellFormed(t) && ReadInstruction(t, data, index).Ok?
    ensures var (ins, next) := ReadInstruction(t, data, index).value;
      && ins.offset == index
      && Lookup(t, ins.opCode.code) == Some(ins.opCode)
      && var opSize := if data[index] == 0xFE then 2 else 1;
      && next == index + opSize + OperandWidth(ins.opCode.operandType)
           + TargetBytes(ins)
  {
    var (op, afterOp) := ReadOpCode(t, data, index).value;
    assert op.code == Switch ==> op.code / 256 == 0 && Lookup(t, Switch) == Some(op);
    if op.code == Switch {
      assert t.one[Switch].Some? && t.one[Switch].value.code == Switch;
      assert data[index] == Switch;
    }
  }

  /** Reading back an integer operand that was written little-endian at pos gives it back. */
  lemma ReadOperandOfWritten(ot: OperandType, s: seq<byte>, pos: nat, v: int)
    requires KnownOperandType(ot) && !IsReal(ot) && OperandWidth(ot) > 0
    requires -SignBound(OperandWidth(ot)) <= v < SignBound(OperandWidth(ot))
    requires pos + OperandWidth(ot) <= |s|
    ensures var w := OperandWidth(ot);
      ReadOperand(ot, ByteArrayHelpers.Splice(s, pos, LE(ToUnsigned(v, w), w)), pos) == Ok((Some(Int(v)), pos + w))
  {
    var w := OperandWidth(ot);
    ByteArrayHelpers.SpliceBytes(s, pos, LE(ToUnsigned(v, w), w));
    LERoundTrip(ToUnsigned(v, w), w);
    SignedRoundTrip(v, w);
  }
}
