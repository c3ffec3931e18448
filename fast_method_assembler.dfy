/**
 * The fast method assembler: encodes a method body (its instructions with
 * their offsets already updated, its exception handlers and its locals
 * information) as CIL bytes with a tiny or fat header (ECMA-335 Partition II,
 * sections 25.4.2 and 25.4.3), followed for a fat body by a small or fat
 * exception-handling section at the next 4-byte boundary (sections 25.4.5 and
 * 25.4.6).
 *
 * The functions below state what the bytes are; the class writes them the way
 * the source does, one field at a time through the ByteArrayHelpers writers.
 */
module FastMethodAssembler {
  import opened Bytes
  import opened OpCodes
  import ByteArrayHelpers
  import MethodBodyHelpers

  type U32 = x: nat | x < 0x1_0000_0000

  /** An opcode as the assembler sees it: its value and its operand type. */
  datatype AsmOpCode = AsmOpCode(code: Code, operandType: OperandType)

  /** A value below 0x100 is a one-byte opcode; any other takes two bytes. */
  function OpCodeSize(op: AsmOpCode): nat
  {
    if op.code / 256 == 0 then 1 else 2
  }

  /**
   * An instruction's operand: an integer literal, the bit pattern of a float,
   * the offset of a target instruction, the offsets of switch targets, a
   * metadata-token provider, a string (with the offset the string heap cache
   * gives it), a method signature (with its original token), a field
   * signature, or a variable's index.
   */
  datatype AsmOperand =
    | NoOperand
    | Integer(value: int)
    | Bits(bits: nat)
    | Target(target: U32)
    | Targets(targets: seq<U32>)
    | TokenProvider(token: U32)
    | StringLiteral(heapOffset: U32)
    | MethodSignature(originalToken: U32)
    | FieldSignature
    | Variable(index: int)

  datatype AsmInstruction = AsmInstruction(opCode: AsmOpCode, operand: AsmOperand, offset: U32)

  /** The kind of a handler, with the class token of a catch and the filter offset of a filter. */
  datatype HandlerKind = Catch(catchType: U32) | Filter(filterStart: U32) | Finally | Fault

  /** An exception handler; a missing end instruction means the end of the method. */
  datatype ExceptionHandler = ExceptionHandler(
    kind: HandlerKind, tryStart: U32, tryEnd: Option<U32>, handlerStart: U32, handlerEnd: Option<U32>)

  datatype MethodBody = MethodBody(
    instructions: seq<AsmInstruction>,
    exceptionHandlers: seq<ExceptionHandler>,
    hasVariables: bool,
    initLocals: bool,
    localVarSigTok: U32)

  /** InvalidProgramException for an unusable operand type; a failed Guard on a handler range. */
  datatype AsmError = InvalidProgram | GuardFailed

  datatype Result<T> = Ok(value: T) | Err(error: AsmError)

  /** The ExceptionHandlerType value of a handler kind. */
  function HandlerTypeValue(k: HandlerKind): nat
  {
    match k
    case Catch(_) => 0
    case Filter(_) => 1
    case Finally => 2
    case Fault => 4
  }

  /**
   * The operand has the type its opcode's operand type calls for, in the
   * range of that type: the unboxing casts of WriteOperand throw otherwise.
   */
  predicate OperandFits(ins: AsmInstruction)
  {
    match ins.opCode.operandType
    case InlineI => ins.operand.Integer? && -0x8000_0000 <= ins.operand.value < 0x8000_0000
    case InlineI8 => ins.operand.Integer? && -0x8000_0000_0000_0000 <= ins.operand.value < 0x8000_0000_0000_0000
    case InlineR => ins.operand.Bits? && ins.operand.bits < 0x1_0000_0000_0000_0000
    case ShortInlineR => ins.operand.Bits? && ins.operand.bits < 0x1_0000_0000
    case ShortInlineI =>
      ins.operand.Integer? &&
      if ins.opCode.code == Ldc_I4_S then -0x80 <= ins.operand.value < 0x80 else 0 <= ins.operand.value < 0x100
    case InlineBrTarget | ShortInlineBrTarget => ins.operand.Target?
    case InlineSwitch => ins.operand.Targets? && |ins.operand.targets| < 0x8000_0000
    case InlineString | InlineType | InlineField | InlineMethod | InlineSig | InlineTok => true
    case InlineVar | ShortInlineVar => ins.operand.Variable?
    case InlineNone | InlinePhi | NotUsed8 => true
  }

  /** The raw token of row 0 of the StandAloneSig table (table 0x11). */
  const StandAloneSigToken: U32 := 0x1100_0000

  /**
   * GetToken: the stub token registered for the instruction at this index
   * wins; otherwise the token of a token provider, the heap offset of a
   * string, the original token of a method signature, or the StandAloneSig
   * token for a field signature. Any other operand has no token.
   */
  function GetToken(stubs: map<nat, U32>, index: nat, operand: AsmOperand): (r: Option<U32>)
    ensures index in stubs ==> r == Some(stubs[index])
    ensures r.None? <==> (index !in stubs &&
      !(operand.TokenProvider? || operand.StringLiteral? || operand.MethodSignature? || operand.FieldSignature?))
  {
    if index in stubs then Some(stubs[index])
    else
      match operand
      case TokenProvider(t) => Some(t)
      case StringLiteral(o) => Some(o)
      case MethodSignature(t) => Some(t)
      case FieldSignature => Some(StandAloneSigToken)
      case _ => None
  }

  predicate IsTokenType(ot: OperandType)
  {
    ot in {InlineString, InlineType, InlineField, InlineMethod, InlineSig, InlineTok}
  }

  /** The encoded size of an instruction: its opcode, its operand and, for a switch, its targets. */
  function InstrSize(ins: AsmInstruction): nat
  {
    OpCodeSize(ins.opCode) +
    if ins.opCode.operandType == InlineSwitch && ins.operand.Targets? then 4 + 4 * |ins.operand.targets|
    else MethodBodyHelpers.OperandWidth(ins.opCode.operandType)
  }

  /** The opcode bytes: the value itself, or its high byte and then its low byte. */
  function OpCodeBytes(op: AsmOpCode): (r: seq<byte>)
    ensures |r| == OpCodeSize(op)
  {
    if op.code / 256 == 0 then [op.code % 256] else [op.code / 256, op.code % 256]
  }

  /** The bytes of a switch's targets, each relative to the end of the switch instruction. */
  function SwitchTargetBytes(targets: seq<U32>, exit: int): (r: seq<byte>)
    ensures |r| == 4 * |targets|
  {
    if targets == [] then []
    else SwitchTargetBytes(targets[..|targets| - 1], exit) + LE(ToUnsigned(targets[|targets| - 1] - exit, 4), 4)
  }

  /**
   * The operand bytes, little-endian: literals in two's complement, branch
   * targets relative to the end of the instruction truncated to the operand's
   * width, a switch's count and then its targets relative to its end, tokens,
   * and variable indexes truncated to 16 or 8 bits. InlinePhi and NOT_USED_8
   * have no encoding, and neither has a token operand without a token.
   */
  function OperandBytes(stubs: map<nat, U32>, index: nat, ins: AsmInstruction): (r: Option<seq<byte>>)
    requires OperandFits(ins)
    ensures r.None? <==> (ins.opCode.operandType in {InlinePhi, NotUsed8} ||
      (IsTokenType(ins.opCode.operandType) && GetToken(stubs, index, ins.operand).None?))
    ensures r.Some? ==> |r.value| == InstrSize(ins) - OpCodeSize(ins.opCode)
  {
    var end := ins.offset + OpCodeSize(ins.opCode);
    match ins.opCode.operandType
    case InlineNone => Some([])
    case InlineI => Some(LE(ToUnsigned(ins.operand.value, 4), 4))
    case InlineI8 => Some(LE(ToUnsigned(ins.operand.value, 8), 8))
    case InlineR => Some(LE(ins.operand.bits, 8))
    case ShortInlineR => Some(LE(ins.operand.bits, 4))
    case ShortInlineI => Some(LE(ToUnsigned(ins.operand.value, 1), 1))
    case InlineBrTarget => Some(LE(ToUnsigned(ins.operand.target - (end + 4), 4), 4))
    case ShortInlineBrTarget => Some(LE(ToUnsigned(ins.operand.target - (end + 1), 1), 1))
    case InlineSwitch =>
      var n := |ins.operand.targets|;
      Some(LE(n, 4) + SwitchTargetBytes(ins.operand.targets, end + 4 * (n + 1)))
    case InlineString | InlineType | InlineField | InlineMethod | InlineSig | InlineTok =>
      (match GetToken(stubs, index, ins.operand)
       case None => None
       case Some(token) => Some(LE(token, 4)))
    case InlineVar => Some(LE(ToUnsigned(ins.operand.index, 2), 2))
    case ShortInlineVar => Some(LE(ToUnsigned(ins.operand.index, 1), 1))
    case InlinePhi | NotUsed8 => None
  }

  /** All operands fit their operand types. */
  predicate AllOperandsFit(instrs: seq<AsmInstruction>)
  {
    forall i :: 0 <= i < |instrs| ==> OperandFits(instrs[i])
  }

  /** The code of the first k instructions: each one's opcode and operand bytes, in order; none if one has no encoding. */
  function CodeBytes(stubs: map<nat, U32>, instrs: seq<AsmInstruction>, k: nat): (r: Option<seq<byte>>)
    requires AllOperandsFit(instrs) && k <= |instrs|
  {
    if k == 0 then Some([])
    else
      match CodeBytes(stubs, instrs, k - 1)
      case None => None
      case Some(init) =>
        match OperandBytes(stubs, k - 1, instrs[k - 1])
        case None => None
        case Some(operand) => Some(init + OpCodeBytes(instrs[k - 1].opCode) + operand)
  }

  /**
   * The offsets are those UpdateInstructionOffsets gives: the first
   * instruction at 0 and each next one right after the previous, with the
   * whole code shorter than 2^32 bytes.
   */
  predicate OffsetsConsistent(instrs: seq<AsmInstruction>)
  {
    && |instrs| > 0
    && instrs[0].offset == 0
    && (forall i :: 0 <= i < |instrs| - 1 ==> instrs[i + 1].offset == instrs[i].offset + InstrSize(instrs[i]))
    && instrs[|instrs| - 1].offset + InstrSize(instrs[|instrs| - 1]) < 0x1_0000_0000
  }

  /** The code size: the end of the last instruction. */
  function CodeSizeOf(instrs: seq<AsmInstruction>): nat
    requires |instrs| > 0
  {
    instrs[|instrs| - 1].offset + InstrSize(instrs[|instrs| - 1])
  }

  /**
   * With consistent offsets, the code of the first k instructions ends where
   * instruction k starts, so the whole code is exactly the code size long.
   */
  lemma {:induction false} CodeBytesLength(stubs: map<nat, U32>, instrs: seq<AsmInstruction>, k: nat)
    requires OffsetsConsistent(instrs) && AllOperandsFit(instrs) && k <= |instrs|
    requires CodeBytes(stubs, instrs, k).Some?
    ensures |CodeBytes(stubs, instrs, k).value| == if k < |instrs| then instrs[k].offset else CodeSizeOf(instrs)
  {
    if k > 0 {
      CodeBytesLength(stubs, instrs, k - 1);
    }
  }

  /** The code of fewer instructions is a prefix of the code. */
  lemma {:induction false} CodeBytesPrefix(stubs: map<nat, U32>, instrs: seq<AsmInstruction>, m: nat, n: nat)
    requires AllOperandsFit(instrs) && m <= n <= |instrs|
    requires CodeBytes(stubs, instrs, n).Some?
    ensures CodeBytes(stubs, instrs, m).Some?
    ensures var short := CodeBytes(stubs, instrs, m).value;
      |short| <= |CodeBytes(stubs, instrs, n).value| && CodeBytes(stubs, instrs, n).value[..|short|] == short
  {
    if m < n {
      CodeBytesLast(stubs, instrs, n);
      CodeBytesPrefix(stubs, instrs, m, n - 1);
      PrefixOfLonger(CodeBytes(stubs, instrs, m).value, CodeBytes(stubs, instrs, n - 1).value, CodeBytes(stubs, instrs, n).value);
    }
  }

  /** The code of n instructions extends the code of the first n - 1. */
  lemma CodeBytesLast(stubs: map<nat, U32>, instrs: seq<AsmInstruction>, n: nat)
    requires AllOperandsFit(instrs) && 0 < n <= |instrs| && CodeBytes(stubs, instrs, n).Some?
    ensures CodeBytes(stubs, instrs, n - 1).Some?
    ensures var mid := CodeBytes(stubs, instrs, n - 1).value;
      |mid| <= |CodeBytes(stubs, instrs, n).value| && CodeBytes(stubs, instrs, n).value[..|mid|] == mid
  {
    CodeBytesStep(stubs, instrs, n - 1);
  }

  lemma PrefixOfLonger(short: seq<byte>, mid: seq<byte>, full: seq<byte>)
    requires |short| <= |mid| && mid[..|short|] == short
    requires |mid| <= |full| && full[..|mid|] == mid
    ensures |short| <= |full| && full[..|short|] == short
  {
    assert full[..|short|] == full[..|mid|][..|short|];
  }

  /** The code of k + 1 instructions is the code of k and then instruction k. */
  lemma CodeBytesStep(stubs: map<nat, U32>, instrs: seq<AsmInstruction>, k: nat)
    requires AllOperandsFit(instrs) && k < |instrs| && CodeBytes(stubs, instrs, k + 1).Some?
    ensures CodeBytes(stubs, instrs, k).Some? && OperandBytes(stubs, k, instrs[k]).Some?
    ensures CodeBytes(stubs, instrs, k + 1).value ==
      CodeBytes(stubs, instrs, k).value + (OpCodeBytes(instrs[k].opCode) + OperandBytes(stubs, k, instrs[k]).value)
  {
  }

  /** Writing instruction k's opcode and then its operand at the end of the code before it extends that code by one instruction. */
  lemma InstructionWritten(stubs: map<nat, U32>, instrs: seq<AsmInstruction>, k: nat, s0: seq<byte>, start: nat,
                           s1: seq<byte>, p1: nat, s2: seq<byte>, p2: nat, s: seq<byte>)
    requires AllOperandsFit(instrs) && k < |instrs|
    requires CodeBytes(stubs, instrs, k).Some? && OperandBytes(stubs, k, instrs[k]).Some?
    requires p1 == start + |CodeBytes(stubs, instrs, k).value| && p1 + InstrSize(instrs[k]) <= |s0|
    requires s1 == ByteArrayHelpers.Splice(s0, start, CodeBytes(stubs, instrs, k).value)
    requires s2 == ByteArrayHelpers.Splice(s1, p1, OpCodeBytes(instrs[k].opCode))
    requires p2 == p1 + OpCodeSize(instrs[k].opCode) && s == ByteArrayHelpers.Splice(s2, p2, OperandBytes(stubs, k, instrs[k]).value)
    ensures CodeBytes(stubs, instrs, k + 1).Some?
    ensures |CodeBytes(stubs, instrs, k + 1).value| == |CodeBytes(stubs, instrs, k).value| + InstrSize(instrs[k])
    ensures s == ByteArrayHelpers.Splice(s0, start, CodeBytes(stubs, instrs, k + 1).value)
  {
    var code := CodeBytes(stubs, instrs, k).value;
    var op, operand := OpCodeBytes(instrs[k].opCode), OperandBytes(stubs, k, instrs[k]).value;
    assert |s1| == |s0| && |op| + |operand| == InstrSize(instrs[k]);
    assert p2 == p1 + |op|;
    ByteArrayHelpers.SpliceNext(s1, p1, op, p2, operand, s2, s);
    assert p1 == start + |code|;
    ByteArrayHelpers.SpliceConcat(s0, start, code, op + operand);
    CodeBytesStep(stubs, instrs, k);
  }

  /** With consistent offsets, instruction k's bytes sit at its offset in the code. */
  lemma CodeBytesAt(stubs: map<nat, U32>, instrs: seq<AsmInstruction>, n: nat, k: nat)
    requires OffsetsConsistent(instrs) && AllOperandsFit(instrs) && k < n <= |instrs|
    requires CodeBytes(stubs, instrs, n).Some?
    ensures var code := CodeBytes(stubs, instrs, n).value;
      var ins := instrs[k];
      && OperandBytes(stubs, k, ins).Some?
      && ins.offset + InstrSize(ins) <= |code|
      && code[ins.offset..ins.offset + InstrSize(ins)] == OpCodeBytes(ins.opCode) + OperandBytes(stubs, k, ins).value
  {
    CodeBytesPrefix(stubs, instrs, k + 1, n);
    CodeBytesLength(stubs, instrs, k);
    CodeBytesStep(stubs, instrs, k);
    var ins := instrs[k];
    var w := OpCodeBytes(ins.opCode) + OperandBytes(stubs, k, ins).value;
    SliceOfPrefix(CodeBytes(stubs, instrs, n).value, CodeBytes(stubs, instrs, k).value, w);
  }

  lemma SliceOfPrefix(code: seq<byte>, before: seq<byte>, w: seq<byte>)
    requires |before + w| <= |code| && code[..|before + w|] == before + w
    ensures code[|before|..|before| + |w|] == w
  {
    assert code[|before|..|before| + |w|] == (before + w)[|before|..];
  }

  /** Whether a fat header is needed: a large code, locals, handlers or a deep stack. */
  function RequiresFatHeader(body: MethodBody, codeSize: nat, maxStackSize: nat): bool
  {
    codeSize >= 64 || body.hasVariables || |body.exceptionHandlers| > 0 || maxStackSize > 8
  }

  /** The fat header's first byte: 0x03, with 0x10 for InitLocals and 0x08 (MoreSects) when there are handlers. */
  function FatFlags(body: MethodBody): byte
  {
    0x03 + (if body.initLocals then 0x10 else 0) + (if |body.exceptionHandlers| > 0 then 0x08 else 0)
  }

  /** The 12-byte fat header: flags, 0x30, max stack (u16), code size (u32), LocalVarSig token (u32). */
  function FatHeaderBytes(body: MethodBody, maxStackSize: nat, codeSize: nat): (r: seq<byte>)
    ensures |r| == 12
  {
    [FatFlags(body), 0x30] + LE(maxStackSize, 2) + LE(codeSize, 4) + LE(body.localVarSigTok, 4)
  }

  /** The end offset of a protected range or handler: its end instruction's offset, or the method's end. */
  function EndOf(end: Option<U32>, methodEnd: U32): U32
  {
    if end.Some? then end.value else methodEnd
  }

  /**
   * A range fits a small clause when it does not end before it starts, starts
   * at a u16 offset and is at most 255 bytes long (the length computed in
   * 32-bit unsigned arithmetic).
   */
  function FitsInSmallExceptionClause(start: U32, end: Option<U32>, methodEnd: U32): bool
  {
    if end.Some? && end.value < start then false
    else start <= 0xFFFF && ToUnsigned(EndOf(end, methodEnd) - start, 4) <= 0xFF
  }

  /** Fat clauses are needed for more than 20 handlers or any range that does not fit a small clause. */
  function FatClausesNeeded(ehs: seq<ExceptionHandler>, methodEnd: U32): bool
  {
    |ehs| > 20 ||
    exists i :: 0 <= i < |ehs| &&
      (!FitsInSmallExceptionClause(ehs[i].tryStart, ehs[i].tryEnd, methodEnd) ||
       !FitsInSmallExceptionClause(ehs[i].handlerStart, ehs[i].handlerEnd, methodEnd))
  }

  /** The Guard of the clause writers: each range with an end instruction starts before it. */
  predicate RangesOrdered(eh: ExceptionHandler)
  {
    (eh.tryEnd.None? || eh.tryStart < eh.tryEnd.value) &&
    (eh.handlerEnd.None? || eh.handlerStart < eh.handlerEnd.value)
  }

  /** The last four bytes of a clause: a catch's class token, a filter's offset, or zero. */
  function ClassTokenOrFilterOffset(eh: ExceptionHandler): U32
  {
    match eh.kind
    case Catch(t) => t
    case Filter(f) => f
    case _ => 0
  }

  /** A clause field: a value and the number of bytes it is written on. */
  datatype Field = Field(value: nat, width: nat)

  /** The fields one after the other, each little-endian on its width. */
  function FieldBytes(fs: seq<Field>): (r: seq<byte>)
  {
    if fs == [] then [] else LE(fs[0].value, fs[0].width) + FieldBytes(fs[1..])
  }

  /** The fields of a small clause: flags, try offset, try length, handler offset, handler length, class token or filter offset. */
  function SmallClauseFields(eh: ExceptionHandler, methodEnd: U32): seq<Field>
  {
    [Field(ToUnsigned(HandlerTypeValue(eh.kind), 2), 2),
     Field(ToUnsigned(eh.tryStart, 2), 2),
     Field(ToUnsigned(EndOf(eh.tryEnd, methodEnd) - eh.tryStart, 1), 1),
     Field(ToUnsigned(eh.handlerStart, 2), 2),
     Field(ToUnsigned(EndOf(eh.handlerEnd, methodEnd) - eh.handlerStart, 1), 1),
     Field(ClassTokenOrFilterOffset(eh), 4)]
  }

  /** The fields of a fat clause: the same six values, each a u32, lengths in 32-bit unsigned arithmetic. */
  function FatClauseFields(eh: ExceptionHandler, methodEnd: U32): seq<Field>
  {
    [Field(HandlerTypeValue(eh.kind), 4),
     Field(eh.tryStart, 4),
     Field(ToUnsigned(EndOf(eh.tryEnd, methodEnd) - eh.tryStart, 4), 4),
     Field(eh.handlerStart, 4),
     Field(ToUnsigned(EndOf(eh.handlerEnd, methodEnd) - eh.handlerStart, 4), 4),
     Field(ClassTokenOrFilterOffset(eh), 4)]
  }

  /** Six fields laid out one after the other. */
  lemma FieldBytesOfSix(a: Field, b: Field, c: Field, d: Field, e: Field, f: Field)
    ensures FieldBytes([a, b, c, d, e, f]) ==
      LE(a.value, a.width) + LE(b.value, b.width) + LE(c.value, c.width) +
      LE(d.value, d.width) + LE(e.value, e.width) + LE(f.value, f.width)
  {
    assert [a, b, c, d, e, f][1..] == [b, c, d, e, f];
    assert [b, c, d, e, f][1..] == [c, d, e, f];
    assert [c, d, e, f][1..] == [d, e, f];
    assert [d, e, f][1..] == [e, f];
    assert [e, f][1..] == [f];
    assert FieldBytes([f]) == LE(f.value, f.width) + FieldBytes([]);
    assert FieldBytes([e, f]) == LE(e.value, e.width) + FieldBytes([f]);
    assert FieldBytes([d, e, f]) == LE(d.value, d.width) + FieldBytes([e, f]);
    assert FieldBytes([c, d, e, f]) == LE(c.value, c.width) + FieldBytes([d, e, f]);
    assert FieldBytes([b, c, d, e, f]) == LE(b.value, b.width) + FieldBytes([c, d, e, f]);
  }

  /**
   * A 12-byte small clause: u16 flags, u16 try offset, u8 try length, u16
   * handler offset, u8 handler length, u32 class token or filter offset;
   * each field is the source's truncating cast of its value.
   */
  function SmallClause(eh: ExceptionHandler, methodEnd: U32): (r: seq<byte>)
    ensures |r| == 12
  {
    var fs := SmallClauseFields(eh, methodEnd);
    FieldBytesOfSix(fs[0], fs[1], fs[2], fs[3], fs[4], fs[5]);
    FieldBytes(fs)
  }

  /** A 24-byte fat clause: six u32 fields. */
  function FatClause(eh: ExceptionHandler, methodEnd: U32): (r: seq<byte>)
    ensures |r| == 24
  {
    var fs := FatClauseFields(eh, methodEnd);
    FieldBytesOfSix(fs[0], fs[1], fs[2], fs[3], fs[4], fs[5]);
    FieldBytes(fs)
  }

  /** The small clause laid out field by field; it is 12 bytes long. */
  lemma SmallClauseIs(eh: ExceptionHandler, methodEnd: U32)
    ensures SmallClause(eh, methodEnd) ==
      LE(ToUnsigned(HandlerTypeValue(eh.kind), 2), 2)
      + LE(ToUnsigned(eh.tryStart, 2), 2)
      + LE(ToUnsigned(EndOf(eh.tryEnd, methodEnd) - eh.tryStart, 1), 1)
      + LE(ToUnsigned(eh.handlerStart, 2), 2)
      + LE(ToUnsigned(EndOf(eh.handlerEnd, methodEnd) - eh.handlerStart, 1), 1)
      + LE(ClassTokenOrFilterOffset(eh), 4)
  {
    var fs := SmallClauseFields(eh, methodEnd);
    FieldBytesOfSix(fs[0], fs[1], fs[2], fs[3], fs[4], fs[5]);
  }

  /** The fat clause laid out field by field; it is 24 bytes long. */
  lemma FatClauseIs(eh: ExceptionHandler, methodEnd: U32)
    ensures FatClause(eh, methodEnd) ==
      LE(HandlerTypeValue(eh.kind), 4)
      + LE(eh.tryStart, 4)
      + LE(ToUnsigned(EndOf(eh.tryEnd, methodEnd) - eh.tryStart, 4), 4)
      + LE(eh.handlerStart, 4)
      + LE(ToUnsigned(EndOf(eh.handlerEnd, methodEnd) - eh.handlerStart, 4), 4)
      + LE(ClassTokenOrFilterOffset(eh), 4)
  {
    var fs := FatClauseFields(eh, methodEnd);
    FieldBytesOfSix(fs[0], fs[1], fs[2], fs[3], fs[4], fs[5]);
  }

  /** The small clauses of the first k handlers, in order. */
  function SmallClauses(ehs: seq<ExceptionHandler>, k: nat, methodEnd: U32): (r: seq<byte>)
    requires k <= |ehs|
    ensures |r| == 12 * k
  {
    if k == 0 then [] else SmallClauses(ehs, k - 1, methodEnd) + SmallClause(ehs[k - 1], methodEnd)
  }

  /** The fat clauses of the first k handlers, in order. */
  function FatClauses(ehs: seq<ExceptionHandler>, k: nat, methodEnd: U32): (r: seq<byte>)
    requires k <= |ehs|
    ensures |r| == 24 * k
  {
    if k == 0 then [] else FatClauses(ehs, k - 1, methodEnd) + FatClause(ehs[k - 1], methodEnd)
  }

  /** Writing clause k after the first k clauses writes the first k + 1. */
  lemma SmallClausesWritten(ehs: seq<ExceptionHandler>, k: nat, methodEnd: U32, s1: seq<byte>, before: seq<byte>, pos: nat, s: seq<byte>)
    requires k < |ehs| && pos == 4 + 12 * k && pos + 12 <= |s1|
    requires before == ByteArrayHelpers.Splice(s1, 4, SmallClauses(ehs, k, methodEnd))
    requires s == ByteArrayHelpers.Splice(before, pos, SmallClause(ehs[k], methodEnd))
    ensures s == ByteArrayHelpers.Splice(s1, 4, SmallClauses(ehs, k + 1, methodEnd))
  {
    ByteArrayHelpers.SpliceConcat(s1, 4, SmallClauses(ehs, k, methodEnd), SmallClause(ehs[k], methodEnd));
  }

  /** Writing clause k after the first k clauses writes the first k + 1. */
  lemma FatClausesWritten(ehs: seq<ExceptionHandler>, k: nat, methodEnd: U32, s1: seq<byte>, before: seq<byte>, pos: nat, s: seq<byte>)
    requires k < |ehs| && pos == 4 + 24 * k && pos + 24 <= |s1|
    requires before == ByteArrayHelpers.Splice(s1, 4, FatClauses(ehs, k, methodEnd))
    requires s == ByteArrayHelpers.Splice(before, pos, FatClause(ehs[k], methodEnd))
    ensures s == ByteArrayHelpers.Splice(s1, 4, FatClauses(ehs, k + 1, methodEnd))
  {
    ByteArrayHelpers.SpliceConcat(s1, 4, FatClauses(ehs, k, methodEnd), FatClause(ehs[k], methodEnd));
  }

  predicate AllRangesOrdered(ehs: seq<ExceptionHandler>)
  {
    forall i :: 0 <= i < |ehs| ==> RangesOrdered(ehs[i])
  }

  /** The section header word `((n * 12 + 4) << 8) | 1` in 32-bit arithmetic: kind EHTable, then the size. */
  function SmallSectionHeader(n: nat): U32
  {
    ToUnsigned((n * 12 + 4) * 256, 4) + 1
  }

  /** The section header word `((n * 24 + 4) << 8) | 0x41`: kind EHTable | FatFormat, then the size. */
  function FatSectionHeader(n: nat): U32
  {
    ToUnsigned((n * 24 + 4) * 256, 4) + 0x41
  }

  /** The small exception-handling section: its header word and a small clause per handler. */
  function SmallSection(ehs: seq<ExceptionHandler>, methodEnd: U32): Result<seq<byte>>
  {
    if !AllRangesOrdered(ehs) then Err(GuardFailed)
    else Ok(LE(SmallSectionHeader(|ehs|), 4) + SmallClauses(ehs, |ehs|, methodEnd))
  }

  /** The fat exception-handling section: its header word and a fat clause per handler. */
  function FatSection(ehs: seq<ExceptionHandler>, methodEnd: U32): Result<seq<byte>>
  {
    if !AllRangesOrdered(ehs) then Err(GuardFailed)
    else Ok(LE(FatSectionHeader(|ehs|), 4) + FatClauses(ehs, |ehs|, methodEnd))
  }

  /** The header word written over the whole buffer, then every clause after it, is the section. */
  lemma SmallSectionWritten(ehs: seq<ExceptionHandler>, methodEnd: U32, s0: seq<byte>, s1: seq<byte>, s: seq<byte>)
    requires AllRangesOrdered(ehs) && |s0| == 12 * |ehs| + 4
    requires s1 == ByteArrayHelpers.Splice(s0, 0, LE(SmallSectionHeader(|ehs|), 4))
    requires s == ByteArrayHelpers.Splice(s1, 4, SmallClauses(ehs, |ehs|, methodEnd))
    ensures SmallSection(ehs, methodEnd) == Ok(s)
  {
    var header, clauses := LE(SmallSectionHeader(|ehs|), 4), SmallClauses(ehs, |ehs|, methodEnd);
    ByteArrayHelpers.SpliceConcat(s0, 0, header, clauses);
    ByteArrayHelpers.SpliceAll(s0, header + clauses);
  }

  /** The header word written over the whole buffer, then every clause after it, is the section. */
  lemma FatSectionWritten(ehs: seq<ExceptionHandler>, methodEnd: U32, s0: seq<byte>, s1: seq<byte>, s: seq<byte>)
    requires AllRangesOrdered(ehs) && |s0| == 24 * |ehs| + 4
    requires s1 == ByteArrayHelpers.Splice(s0, 0, LE(FatSectionHeader(|ehs|), 4))
    requires s == ByteArrayHelpers.Splice(s1, 4, FatClauses(ehs, |ehs|, methodEnd))
    ensures FatSection(ehs, methodEnd) == Ok(s)
  {
    var header, clauses := LE(FatSectionHeader(|ehs|), 4), FatClauses(ehs, |ehs|, methodEnd);
    ByteArrayHelpers.SpliceConcat(s0, 0, header, clauses);
    ByteArrayHelpers.SpliceAll(s0, header + clauses);
  }

  /** The padding that moves a length up to the next multiple of 4. */
  function Padding(len: nat): (p: nat)
    ensures p < 4 && (len + p) % 4 == 0
  {
    (4 - len % 4) % 4
  }

  function Zeros(n: nat): (r: seq<byte>)
    ensures |r| == n && forall i :: 0 <= i < n ==> r[i] == 0
  {
    seq(n, _ => 0)
  }

  /**
   * The assembled body: a tiny header and the code; or a fat header and the
   * code, followed, when there are handlers, by zero padding to a 4-byte
   * boundary and the small or fat exception-handling section.
   */
  function Assembled(body: MethodBody, stubs: map<nat, U32>, maxStackSize: nat): Result<seq<byte>>
    requires OffsetsConsistent(body.instructions) && AllOperandsFit(body.instructions)
  {
    var codeSize := CodeSizeOf(body.instructions);
    match CodeBytes(stubs, body.instructions, |body.instructions|)
    case None => Err(InvalidProgram)
    case Some(code) =>
      if !RequiresFatHeader(body, codeSize, maxStackSize) then
        Ok([(2 + 4 * codeSize) as byte] + code)
      else
        var bytecode := FatHeaderBytes(body, maxStackSize, codeSize) + code;
        if |body.exceptionHandlers| == 0 then Ok(bytecode)
        else
          var section := if FatClausesNeeded(body.exceptionHandlers, codeSize)
            then FatSection(body.exceptionHandlers, codeSize)
            else SmallSection(body.exceptionHandlers, codeSize);
          match section
          case Err(e) => Err(e)
          case Ok(extra) => Ok(bytecode + Zeros(Padding(|bytecode|)) + extra)
  }

  /** A fat body with handlers is its header and code, padded to a 4-byte boundary, then its section. */
  lemma AssembledWithSection(body: MethodBody, stubs: map<nat, U32>, maxStackSize: nat, codeSize: nat, methodEnd: nat,
                             headerAndCode: seq<byte>, section: seq<byte>)
    requires OffsetsConsistent(body.instructions) && AllOperandsFit(body.instructions)
    requires codeSize == methodEnd == CodeSizeOf(body.instructions)
    requires RequiresFatHeader(body, codeSize, maxStackSize) && |body.exceptionHandlers| > 0
    requires CodeBytes(stubs, body.instructions, |body.instructions|).Some?
    requires headerAndCode == FatHeaderBytes(body, maxStackSize, codeSize) + CodeBytes(stubs, body.instructions, |body.instructions|).value
    requires (if FatClausesNeeded(body.exceptionHandlers, methodEnd)
      then FatSection(body.exceptionHandlers, methodEnd)
      else SmallSection(body.exceptionHandlers, methodEnd)) == Ok(section)
    ensures Assembled(body, stubs, maxStackSize) == Ok(headerAndCode + Zeros(Padding(|headerAndCode|)) + section)
  {
  }

  /** The instruction k ends no later than the code. */
  lemma {:induction false} OffsetBound(instrs: seq<AsmInstruction>, k: nat)
    requires OffsetsConsistent(instrs) && k < |instrs|
    ensures instrs[k].offset + InstrSize(instrs[k]) <= CodeSizeOf(instrs)
    decreases |instrs| - k
  {
    if k < |instrs| - 1 {
      OffsetBound(instrs, k + 1);
    }
  }

  /** Once an instruction has no encoding, neither has any longer code. */
  lemma CodeBytesFails(stubs: map<nat, U32>, instrs: seq<AsmInstruction>, m: nat, n: nat)
    requires AllOperandsFit(instrs) && m <= n <= |instrs| && CodeBytes(stubs, instrs, m).None?
    ensures CodeBytes(stubs, instrs, n).None?
  {
    if CodeBytes(stubs, instrs, n).Some? {
      CodeBytesPrefix(stubs, instrs, m, n);
    }
  }

  /** A prefix written over zeros, then a padding gap and a tail written after it. */
  lemma PaddedLayout(b: seq<byte>, pad: nat, extra: seq<byte>)
    ensures ByteArrayHelpers.Splice(ByteArrayHelpers.Splice(Zeros(|b| + pad + |extra|), 0, b), |b| + pad, extra) == b + Zeros(pad) + extra
  {
    var z := Zeros(|b| + pad + |extra|);
    var mid := ByteArrayHelpers.Splice(z, 0, b);
    ByteArrayHelpers.SpliceBytes(z, 0, b);
    ByteArrayHelpers.SpliceBytes(mid, |b| + pad, extra);
    var l := ByteArrayHelpers.Splice(mid, |b| + pad, extra);
    var r := b + Zeros(pad) + extra;
    forall i | 0 <= i < |r|
      ensures l[i] == r[i]
    {
      if i < |b| {
        assert l[i] == mid[i] == b[i];
      } else if i < |b| + pad {
        assert l[i] == mid[i] == z[i];
      }
    }
  }

  /** The operand bytes of a switch: its count, then its targets relative to its end. */
  lemma SwitchOperandBytes(stubs: map<nat, U32>, index: nat, ins: AsmInstruction)
    requires ins.opCode.operandType == InlineSwitch && OperandFits(ins)
    ensures OperandBytes(stubs, index, ins) == Some(LE(|ins.operand.targets|, 4) +
      SwitchTargetBytes(ins.operand.targets, ins.offset + OpCodeSize(ins.opCode) + 4 * (|ins.operand.targets| + 1)))
  {
  }

  /** One more switch target appends its word. */
  lemma SwitchTargetBytesStep(targets: seq<U32>, i: nat, exit: int)
    requires i < |targets|
    ensures SwitchTargetBytes(targets[..i + 1], exit) == SwitchTargetBytes(targets[..i], exit) + LE(ToUnsigned(targets[i] - exit, 4), 4)
  {
    assert targets[..i + 1][..i] == targets[..i];
  }

  /**
   * `(int)(target.Offset - exitOffset)` written as an int, with exitOffset
   * itself cast to int, has the 32-bit pattern of target - exit.
   */
  lemma SwitchDelta(target: U32, exit: nat)
    requires exit < 0x1_0000_0000
    ensures var exitOffset := ToSigned(ToUnsigned(exit, 4), 4);
      var written := ToSigned(ToUnsigned(target - exitOffset, 4), 4);
      -0x8000_0000 <= written < 0x8000_0000 && ToUnsigned(written, 4) == ToUnsigned(target - exit, 4)
  {
    assert Pow256(4) == 0x1_0000_0000;
    var exitOffset := ToSigned(ToUnsigned(exit, 4), 4);
    if exitOffset != exit {
      assert target - exitOffset == (target - exit) + 1 * Pow256(4);
      ToUnsignedShift(target - exit, 1, 4);
    }
    UnsignedOfSigned(ToUnsigned(target - exitOffset, 4), 4);
  }

  /**
   * The loop of WriteInlineSwitch: each target as the int `(int)(target - exitOffset)`,
   * with the exit offset itself cast to int.
   */
  method WriteSwitchTargets(a: array<byte>, p0: nat, targets: seq<U32>, exit: nat) returns (pos: nat)
    requires exit < 0x1_0000_0000 && p0 + 4 * |targets| <= a.Length
    modifies a
    ensures pos == p0 + 4 * |targets|
    ensures a[..] == ByteArrayHelpers.Splice(old(a[..]), p0, SwitchTargetBytes(targets, exit))
  {
    var exitOffset := ToSigned(ToUnsigned(exit, 4), 4);
    ghost var s0 := a[..];
    assert targets[..0] == [];
    assert ByteArrayHelpers.Splice(s0, p0, []) == s0;
    pos := p0;
    var i := 0;
    while i < |targets|
      invariant 0 <= i <= |targets|
      invariant pos == p0 + 4 * i
      invariant a[..] == ByteArrayHelpers.Splice(s0, p0, SwitchTargetBytes(targets[..i], exit))
    {
      ghost var before := SwitchTargetBytes(targets[..i], exit);
      pos := WriteSwitchTarget(a, pos, targets[i], exit, exitOffset);
      ByteArrayHelpers.SpliceConcat(s0, p0, before, LE(ToUnsigned(targets[i] - exit, 4), 4));
      SwitchTargetBytesStep(targets, i, exit);
      i := i + 1;
    }
    assert targets[..i] == targets;
  }

  /** One switch target: `WriteInt32((int)(target - exitOffset))`, the 32-bit pattern of target - exit. */
  method WriteSwitchTarget(a: array<byte>, pos: nat, target: U32, exit: nat, exitOffset: int) returns (next: nat)
    requires exit < 0x1_0000_0000 && exitOffset == ToSigned(ToUnsigned(exit, 4), 4) && pos + 4 <= a.Length
    modifies a
    ensures next == pos + 4
    ensures a[..] == ByteArrayHelpers.Splice(old(a[..]), pos, LE(ToUnsigned(target - exit, 4), 4))
  {
    SwitchDelta(target, exit);
    var value := ToSigned(ToUnsigned(target - exitOffset, 4), 4);
    next := ByteArrayHelpers.WriteInt32(a, pos, value);
  }

  /** A header written over the whole buffer, then the code after it, is the header and the code. */
  lemma HeaderAndCodeWritten(z: seq<byte>, s1: seq<byte>, s: seq<byte>, header: seq<byte>, code: seq<byte>)
    requires |z| == |header| + |code|
    requires s1 == ByteArrayHelpers.Splice(z, 0, header)
    requires s == ByteArrayHelpers.Splice(s1, |header|, code)
    ensures s == header + code
  {
    ByteArrayHelpers.SpliceConcat(z, 0, header, code);
    ByteArrayHelpers.SpliceAll(z, header + code);
  }

  /** The tiny header byte, then the code. */
  lemma TinyMethodWritten(z: seq<byte>, s1: seq<byte>, s: seq<byte>, header: byte, code: seq<byte>)
    requires |z| == 1 + |code|
    requires s1 == ByteArrayHelpers.Splice(z, 0, [header])
    requires s == ByteArrayHelpers.Splice(s1, 1, code)
    ensures s == [header] + code
  {
    HeaderAndCodeWritten(z, s1, s, [header], code);
  }

  /** The body followed by the sections, after zero padding up to the next 4-byte mark. */
  method AlignSections(bytecode: array<byte>, extraSections: array<byte>) returns (result: array<byte>)
    ensures fresh(result)
    ensures result[..] == bytecode[..] + Zeros(Padding(bytecode.Length)) + extraSections[..]
  {
    var padding := (4 - bytecode.Length % 4) % 4;
    result := new byte[bytecode.Length + padding + extraSections.Length](_ => 0);
    assert result[..] == Zeros(bytecode.Length + padding + extraSections.Length);
    ghost var b, extra := bytecode[..], extraSections[..];
    var _ := ByteArrayHelpers.WriteBytes(result, 0, bytecode);
    var _ := ByteArrayHelpers.WriteBytes(result, bytecode.Length + padding, extraSections);
    PaddedLayout(b, padding, extra);
  }

  /** The loop of WriteFatExceptionClauses: a 24-byte clause per handler after the header word, failing at the first handler whose ranges are out of order. */
  method WriteFatClauses(data: array<byte>, exceptionHandlers: seq<ExceptionHandler>, methodEnd: U32) returns (ok: bool)
    requires data.Length == |exceptionHandlers| * 24 + 4
    modifies data
    ensures ok <==> AllRangesOrdered(exceptionHandlers)
    ensures ok ==> data[..] == ByteArrayHelpers.Splice(old(data[..]), 4, FatClauses(exceptionHandlers, |exceptionHandlers|, methodEnd))
  {
    ghost var s1 := data[..];
    assert ByteArrayHelpers.Splice(s1, 4, []) == s1;
    var pos := 4;
    var i := 0;
    while i < |exceptionHandlers|
      invariant 0 <= i <= |exceptionHandlers|
      invariant pos == 4 + 24 * i
      invariant forall j :: 0 <= j < i ==> RangesOrdered(exceptionHandlers[j])
      invariant data[..] == ByteArrayHelpers.Splice(s1, 4, FatClauses(exceptionHandlers, i, methodEnd))
    {
      var eh := exceptionHandlers[i];
      if !RangesOrdered(eh) {
        return false;
      }
      pos := WriteFatClauseAfter(data, exceptionHandlers, i, pos, methodEnd, s1);
      i := i + 1;
    }
    return true;
  }

  /** The body of the fat-clause loop: clause `i` written after the first `i`. */
  method WriteFatClauseAfter(data: array<byte>, exceptionHandlers: seq<ExceptionHandler>, i: nat, pos: nat, methodEnd: U32,
                              ghost s1: seq<byte>) returns (next: nat)
    requires i < |exceptionHandlers| && pos == 4 + 24 * i && data.Length == |exceptionHandlers| * 24 + 4 == |s1|
    requires data[..] == ByteArrayHelpers.Splice(s1, 4, FatClauses(exceptionHandlers, i, methodEnd))
    modifies data
    ensures next == pos + 24
    ensures data[..] == ByteArrayHelpers.Splice(s1, 4, FatClauses(exceptionHandlers, i + 1, methodEnd))
  {
    ghost var before := data[..];
    next := WriteFatClause(data, pos, exceptionHandlers[i], methodEnd);
    FatClausesWritten(exceptionHandlers, i, methodEnd, s1, before, pos, data[..]);
  }

  /** One fat clause: handler type, try offset and length, handler offset and length, class token or filter offset. */
  method WriteFatClause(data: array<byte>, pos: nat, eh: ExceptionHandler, methodEnd: U32) returns (next: nat)
    requires pos + 24 <= data.Length
    modifies data
    ensures next == pos + 24
    ensures data[..] == ByteArrayHelpers.Splice(old(data[..]), pos, FatClause(eh, methodEnd))
  {
    ghost var s0 := data[..];
    next := ByteArrayHelpers.WriteUInt32(data, pos, HandlerTypeValue(eh.kind));
    next := ByteArrayHelpers.WriteUInt32(data, next, eh.tryStart);
    ByteArrayHelpers.SpliceConcat(s0, pos, LE(HandlerTypeValue(eh.kind), 4), LE(eh.tryStart, 4));
    ghost var w := LE(HandlerTypeValue(eh.kind), 4) + LE(eh.tryStart, 4);
    var tryLength := ToUnsigned(EndOf(eh.tryEnd, methodEnd) - eh.tryStart, 4);
    next := ByteArrayHelpers.WriteUInt32(data, next, tryLength);
    ByteArrayHelpers.SpliceConcat(s0, pos, w, LE(tryLength, 4));
    w := w + LE(tryLength, 4);
    next := ByteArrayHelpers.WriteUInt32(data, next, eh.handlerStart);
    ByteArrayHelpers.SpliceConcat(s0, pos, w, LE(eh.handlerStart, 4));
    w := w + LE(eh.handlerStart, 4);
    var handlerLength := ToUnsigned(EndOf(eh.handlerEnd, methodEnd) - eh.handlerStart, 4);
    next := ByteArrayHelpers.WriteUInt32(data, next, handlerLength);
    ByteArrayHelpers.SpliceConcat(s0, pos, w, LE(handlerLength, 4));
    w := w + LE(handlerLength, 4);
    next := WriteClassTokenOrFilterOffset(data, next, eh);
    ByteArrayHelpers.SpliceConcat(s0, pos, w, LE(ClassTokenOrFilterOffset(eh), 4));
    FatClauseIs(eh, methodEnd);
    assert w + LE(ClassTokenOrFilterOffset(eh), 4) == FatClause(eh, methodEnd);
  }

  /** The last field of a clause: the catch type's token, the filter's offset, or a zero int. */
  method WriteClassTokenOrFilterOffset(data: array<byte>, pos: nat, eh: ExceptionHandler) returns (next: nat)
    requires pos + 4 <= data.Length
    modifies data
    ensures next == pos + 4
    ensures data[..] == ByteArrayHelpers.Splice(old(data[..]), pos, LE(ClassTokenOrFilterOffset(eh), 4))
  {
    if eh.kind.Catch? {
      next := ByteArrayHelpers.WriteUInt32(data, pos, eh.kind.catchType);
    } else if eh.kind.Filter? {
      next := ByteArrayHelpers.WriteUInt32(data, pos, eh.kind.filterStart);
    } else {
      next := ByteArrayHelpers.WriteInt32(data, pos, 0);
    }
  }

  /** The loop of WriteSmallExceptionClauses: a 12-byte clause per handler after the header word, failing at the first handler whose ranges are out of order. */
  method WriteSmallClauses(data: array<byte>, exceptionHandlers: seq<ExceptionHandler>, methodEnd: U32) returns (ok: bool)
    requires data.Length == |exceptionHandlers| * 12 + 4
    modifies data
    ensures ok <==> AllRangesOrdered(exceptionHandlers)
    ensures ok ==> data[..] == ByteArrayHelpers.Splice(old(data[..]), 4, SmallClauses(exceptionHandlers, |exceptionHandlers|, methodEnd))
  {
    ghost var s1 := data[..];
    assert ByteArrayHelpers.Splice(s1, 4, []) == s1;
    var pos := 4;
    var i := 0;
    while i < |exceptionHandlers|
      invariant 0 <= i <= |exceptionHandlers|
      invariant pos == 4 + 12 * i
      invariant forall j :: 0 <= j < i ==> RangesOrdered(exceptionHandlers[j])
      invariant data[..] == ByteArrayHelpers.Splice(s1, 4, SmallClauses(exceptionHandlers, i, methodEnd))
    {
      var eh := exceptionHandlers[i];
      if !RangesOrdered(eh) {
        return false;
      }
      pos := WriteSmallClauseAfter(data, exceptionHandlers, i, pos, methodEnd, s1);
      i := i + 1;
    }
    return true;
  }

  /** The body of the small-clause loop: clause `i` written after the first `i`. */
  method WriteSmallClauseAfter(data: array<byte>, exceptionHandlers: seq<ExceptionHandler>, i: nat, pos: nat, methodEnd: U32,
                              ghost s1: seq<byte>) returns (next: nat)
    requires i < |exceptionHandlers| && pos == 4 + 12 * i && data.Length == |exceptionHandlers| * 12 + 4 == |s1|
    requires data[..] == ByteArrayHelpers.Splice(s1, 4, SmallClauses(exceptionHandlers, i, methodEnd))
    modifies data
    ensures next == pos + 12
    ensures data[..] == ByteArrayHelpers.Splice(s1, 4, SmallClauses(exceptionHandlers, i + 1, methodEnd))
  {
    ghost var before := data[..];
    next := WriteSmallClause(data, pos, exceptionHandlers[i], methodEnd);
    SmallClausesWritten(exceptionHandlers, i, methodEnd, s1, before, pos, data[..]);
  }

  /** One small clause: each field cast down to its u16 or u8 width. */
  method WriteSmallClause(data: array<byte>, pos: nat, eh: ExceptionHandler, methodEnd: U32) returns (next: nat)
    requires pos + 12 <= data.Length
    modifies data
    ensures next == pos + 12
    ensures data[..] == ByteArrayHelpers.Splice(old(data[..]), pos, SmallClause(eh, methodEnd))
  {
    ghost var s0 := data[..];
    var handlerType := ToUnsigned(HandlerTypeValue(eh.kind), 2);
    next := ByteArrayHelpers.WriteUInt16(data, pos, handlerType);
    ghost var s1 := data[..];
    var tryStart := ToUnsigned(eh.tryStart, 2);
    next := ByteArrayHelpers.WriteUInt16(data, next, tryStart);
    ghost var s2 := data[..];
    next := WriteLength(data, next, eh.tryStart, EndOf(eh.tryEnd, methodEnd));
    ghost var s3 := data[..];
    var handlerStart := ToUnsigned(eh.handlerStart, 2);
    next := ByteArrayHelpers.WriteUInt16(data, next, handlerStart);
    ghost var s4 := data[..];
    next := WriteLength(data, next, eh.handlerStart, EndOf(eh.handlerEnd, methodEnd));
    ghost var s5 := data[..];
    next := WriteClassTokenOrFilterOffset(data, next, eh);
    SmallClauseWritten(eh, methodEnd, pos, s0, s1, s2, s3, s4, s5, data[..]);
  }

  /** The six field writes of a small clause, one after the other, write the clause. */
  lemma SmallClauseWritten(eh: ExceptionHandler, methodEnd: U32, pos: nat,
                           s0: seq<byte>, s1: seq<byte>, s2: seq<byte>, s3: seq<byte>, s4: seq<byte>, s5: seq<byte>, s6: seq<byte>)
    requires pos + 12 <= |s0|
    requires s1 == ByteArrayHelpers.Splice(s0, pos, LE(ToUnsigned(HandlerTypeValue(eh.kind), 2), 2))
    requires s2 == ByteArrayHelpers.Splice(s1, pos + 2, LE(ToUnsigned(eh.tryStart, 2), 2))
    requires s3 == ByteArrayHelpers.Splice(s2, pos + 4, LE(ToUnsigned(EndOf(eh.tryEnd, methodEnd) - eh.tryStart, 1), 1))
    requires s4 == ByteArrayHelpers.Splice(s3, pos + 5, LE(ToUnsigned(eh.handlerStart, 2), 2))
    requires s5 == ByteArrayHelpers.Splice(s4, pos + 7, LE(ToUnsigned(EndOf(eh.handlerEnd, methodEnd) - eh.handlerStart, 1), 1))
    requires s6 == ByteArrayHelpers.Splice(s5, pos + 8, LE(ClassTokenOrFilterOffset(eh), 4))
    ensures s6 == ByteArrayHelpers.Splice(s0, pos, SmallClause(eh, methodEnd))
  {
    var a := LE(ToUnsigned(HandlerTypeValue(eh.kind), 2), 2);
    var b := LE(ToUnsigned(eh.tryStart, 2), 2);
    var c := LE(ToUnsigned(EndOf(eh.tryEnd, methodEnd) - eh.tryStart, 1), 1);
    var d := LE(ToUnsigned(eh.handlerStart, 2), 2);
    var e := LE(ToUnsigned(EndOf(eh.handlerEnd, methodEnd) - eh.handlerStart, 1), 1);
    var f := LE(ClassTokenOrFilterOffset(eh), 4);
    ByteArrayHelpers.SpliceConcat(s0, pos, a, b);
    ByteArrayHelpers.SpliceConcat(s0, pos, a + b, c);
    ByteArrayHelpers.SpliceConcat(s0, pos, a + b + c, d);
    ByteArrayHelpers.SpliceConcat(s0, pos, a + b + c + d, e);
    ByteArrayHelpers.SpliceConcat(s0, pos, a + b + c + d + e, f);
    SmallClauseIs(eh, methodEnd);
  }

  /** A u8 length field: `(byte)(end - start)` of the 32-bit unsigned difference. */
  method WriteLength(data: array<byte>, pos: nat, start: U32, end: U32) returns (next: nat)
    requires pos + 1 <= data.Length
    modifies data
    ensures next == pos + 1
    ensures data[..] == ByteArrayHelpers.Splice(old(data[..]), pos, LE(ToUnsigned(end - start, 1), 1))
  {
    var length := ToUnsigned(ToUnsigned(end - start, 4), 1);
    ToUnsignedNarrow(end - start, 1, 4);
    assert Pow256(1) == 0x100;
    next := ByteArrayHelpers.WriteByte(data, pos, length);
    assert LE(length, 1) == [length];
  }
  /** The bytes at [lo, hi) of a sequence made of a prefix and a tail, when the range lies in the prefix. */
  lemma SliceInPrefix(prefix: seq<byte>, tail: seq<byte>, lo: nat, hi: nat)
    requires lo <= hi <= |prefix|
    ensures (prefix + tail)[lo..hi] == prefix[lo..hi]
  {
  }

  /**
   * The fat header read field by field: the low two bits of the flags are
   * 0b11 (CorILMethod_FatFormat), bit 0x10 is InitLocals and bit 0x08
   * MoreSects; the next byte gives a 3-dword header; then the maximum stack,
   * the code size and the LocalVarSig token read back little-endian.
   */
  lemma FatHeaderLayout(body: MethodBody, maxStackSize: nat, codeSize: nat)
    requires maxStackSize < 0x1_0000 && codeSize < 0x1_0000_0000 && body.localVarSigTok < 0x1_0000_0000
    ensures var h := FatHeaderBytes(body, maxStackSize, codeSize);
      && h[0] % 4 == 3
      && ((h[0] / 0x10) % 2 == 1 <==> body.initLocals)
      && ((h[0] / 0x08) % 2 == 1 <==> |body.exceptionHandlers| > 0)
      && h[1] / 0x10 == 3
      && FromLE(h[2..4]) == maxStackSize
      && FromLE(h[4..8]) == codeSize
      && FromLE(h[8..12]) == body.localVarSigTok
  {
    var h := FatHeaderBytes(body, maxStackSize, codeSize);
    assert h[0] == FatFlags(body) && h[1] == 0x30;
    FatFlagsBits(body);
    assert h[2..4] == LE(maxStackSize, 2);
    assert h[4..8] == LE(codeSize, 4);
    assert h[8..12] == LE(body.localVarSigTok, 4);
    assert Pow256(2) == 0x1_0000 && Pow256(4) == 0x1_0000_0000;
    LERoundTrip(maxStackSize, 2);
    LERoundTrip(codeSize, 4);
    LERoundTrip(body.localVarSigTok, 4);
  }

  /** The flag bits of a fat header: the format bits, InitLocals and MoreSects. */
  lemma FatFlagsBits(body: MethodBody)
    ensures FatFlags(body) % 4 == 3
    ensures (FatFlags(body) / 0x10) % 2 == 1 <==> body.initLocals
    ensures (FatFlags(body) / 0x08) % 2 == 1 <==> |body.exceptionHandlers| > 0
  {
  }

  /** An assembled body starts with its header: the tiny byte, or the 12 fat header bytes. */
  lemma AssembledStart(body: MethodBody, stubs: map<nat, U32>, maxStackSize: nat)
    requires OffsetsConsistent(body.instructions) && AllOperandsFit(body.instructions)
    requires Assembled(body, stubs, maxStackSize).Ok?
    ensures var bytes := Assembled(body, stubs, maxStackSize).value;
      var codeSize := CodeSizeOf(body.instructions);
      if RequiresFatHeader(body, codeSize, maxStackSize) then
        |bytes| >= 12 && bytes[..12] == FatHeaderBytes(body, maxStackSize, codeSize)
      else
        |bytes| >= 1 && bytes[0] == 2 + 4 * codeSize
  {
    var codeSize := CodeSizeOf(body.instructions);
    var code := CodeBytes(stubs, body.instructions, |body.instructions|).value;
    var bytes := Assembled(body, stubs, maxStackSize).value;
    if RequiresFatHeader(body, codeSize, maxStackSize) {
      var header := FatHeaderBytes(body, maxStackSize, codeSize);
      if |body.exceptionHandlers| > 0 {
        var section := if FatClausesNeeded(body.exceptionHandlers, codeSize)
          then FatSection(body.exceptionHandlers, codeSize)
          else SmallSection(body.exceptionHandlers, codeSize);
        var padded := header + code + Zeros(Padding(|header + code|));
        assert bytes == padded + section.value;
        assert padded + section.value == header + (code + Zeros(Padding(|header + code|)) + section.value);
        SliceInPrefix(header, code + Zeros(Padding(|header + code|)) + section.value, 0, 12);
      } else {
        SliceInPrefix(header, code, 0, 12);
      }
    }
  }

  /**
   * The profiler's header reader reads an assembled body back: a tiny header
   * exactly when no fat header is required, and in both cases the code size
   * of the instructions.
   */
  lemma AssembledHeaderRead(body: MethodBody, stubs: map<nat, U32>, maxStackSize: nat)
    requires OffsetsConsistent(body.instructions) && AllOperandsFit(body.instructions) && maxStackSize < 0x1_0000
    requires Assembled(body, stubs, maxStackSize).Ok?
    ensures var bytes := Assembled(body, stubs, maxStackSize).value;
      var codeSize := CodeSizeOf(body.instructions);
      var fat := RequiresFatHeader(body, codeSize, maxStackSize);
      && (bytes[0] % 4 == 3 <==> fat)
      && MethodBodyHelpers.ReadHeaderInfo(bytes, 0) ==
         MethodBodyHelpers.Ok((MethodBodyHelpers.HeaderInfo(if fat then 12 else 1, codeSize), if fat then 12 else 1))
  {
    var bytes := Assembled(body, stubs, maxStackSize).value;
    var codeSize := CodeSizeOf(body.instructions);
    AssembledStart(body, stubs, maxStackSize);
    HeaderRead(bytes, body, maxStackSize, codeSize, RequiresFatHeader(body, codeSize, maxStackSize));
  }

  /** The header reader on bytes that start with the header chosen by `fat`. */
  lemma HeaderRead(bytes: seq<byte>, body: MethodBody, maxStackSize: nat, codeSize: nat, fat: bool)
    requires maxStackSize < 0x1_0000 && codeSize < 0x1_0000_0000 && body.localVarSigTok < 0x1_0000_0000
    requires fat ==> |bytes| >= 12 && bytes[..12] == FatHeaderBytes(body, maxStackSize, codeSize)
    requires !fat ==> codeSize < 64 && |bytes| >= 1 && bytes[0] == 2 + 4 * codeSize
    ensures (bytes[0] % 4 == 3 <==> fat)
    ensures MethodBodyHelpers.ReadHeaderInfo(bytes, 0) ==
      MethodBodyHelpers.Ok((MethodBodyHelpers.HeaderInfo(if fat then 12 else 1, codeSize), if fat then 12 else 1))
  {
    if fat {
      FatHeaderLayout(body, maxStackSize, codeSize);
      assert bytes[4..8] == bytes[..12][4..8];
    }
  }

  /**
   * With handlers, the exception-handling section starts at a multiple of 4,
   * after the code and only zero bytes of padding.
   */
  lemma SectionAligned(body: MethodBody, stubs: map<nat, U32>, maxStackSize: nat)
    requires OffsetsConsistent(body.instructions) && AllOperandsFit(body.instructions)
    requires Assembled(body, stubs, maxStackSize).Ok? && |body.exceptionHandlers| > 0
    ensures var bytes := Assembled(body, stubs, maxStackSize).value;
      var codeSize := CodeSizeOf(body.instructions);
      var section := if FatClausesNeeded(body.exceptionHandlers, codeSize)
        then FatSection(body.exceptionHandlers, codeSize)
        else SmallSection(body.exceptionHandlers, codeSize);
      var start := |bytes| - |section.value|;
      && section.Ok?
      && 12 + codeSize <= start < 12 + codeSize + 4 && start % 4 == 0
      && (forall i :: 12 + codeSize <= i < start ==> bytes[i] == 0)
      && bytes[start..] == section.value
  {
    var codeSize := CodeSizeOf(body.instructions);
    CodeBytesLength(stubs, body.instructions, |body.instructions|);
    var code := CodeBytes(stubs, body.instructions, |body.instructions|).value;
    var b := FatHeaderBytes(body, maxStackSize, codeSize) + code;
    var bytes := Assembled(body, stubs, maxStackSize).value;
    var pad := Zeros(Padding(|b|));
    forall i | 12 + codeSize <= i < |b| + |pad|
      ensures bytes[i] == 0
    {
      assert bytes[i] == pad[i - |b|];
    }
  }

  /**
   * The small section header word: kind EHTable (1) in its low byte and the
   * section size 12n + 4 in its upper three bytes, which holds it exactly
   * for up to 20 clauses.
   */
  lemma SmallSectionHeaderBytes(n: nat)
    requires n <= 20
    ensures var h := LE(SmallSectionHeader(n), 4);
      h[0] == 1 && FromLE(h[1..4]) == 12 * n + 4
  {
    var v := SmallSectionHeader(n);
    assert Pow256(1) == 0x100 && Pow256(3) == 0x100_0000 && Pow256(4) == 0x1_0000_0000;
    ModOfDecomposition((n * 12 + 4) * 256, Pow256(4), 0, (n * 12 + 4) * 256);
    SectionHeaderSplit(v, 12 * n + 4, 1);
  }

  /**
   * The fat section header word: kind EHTable | FatFormat (0x41) in its low
   * byte, the section size 24n + 4 modulo 2^24 in its upper three bytes.
   */
  lemma FatSectionHeaderBytes(n: nat)
    ensures var h := LE(FatSectionHeader(n), 4);
      h[0] == 0x41 && FromLE(h[1..4]) == (24 * n + 4) % 0x100_0000
  {
    var v := FatSectionHeader(n);
    var size := (24 * n + 4) % 0x100_0000;
    assert Pow256(1) == 0x100 && Pow256(3) == 0x100_0000 && Pow256(4) == 0x1_0000_0000;
    ModOfDecomposition((n * 24 + 4) * 256, Pow256(4), (n * 24 + 4) / 0x100_0000, size * 256);
    SectionHeaderSplit(v, size, 0x41);
  }

  /** A word whose low byte is kind and whose upper bytes hold size. */
  lemma SectionHeaderSplit(v: nat, size: nat, kind: byte)
    requires size < 0x100_0000 && v == size * 256 + kind
    ensures LE(v, 4)[0] == kind && FromLE(LE(v, 4)[1..4]) == size
  {
    LECons(v, 4);
    ModOfDecomposition(v, 256, size, kind);
    assert LE(v, 4)[1..4] == LE(size, 3);
    assert Pow256(3) == 0x100_0000;
    LERoundTrip(size, 3);
  }

  /**
   * When a handler fits small clauses, its small clause holds every field
   * exactly: the kind, the u16 offsets, the u8 lengths and the class token
   * or filter offset.
   */
  lemma SmallClauseExact(eh: ExceptionHandler, methodEnd: U32)
    requires FitsInSmallExceptionClause(eh.tryStart, eh.tryEnd, methodEnd)
    requires FitsInSmallExceptionClause(eh.handlerStart, eh.handlerEnd, methodEnd)
    ensures var c := SmallClause(eh, methodEnd);
      && FromLE(c[0..2]) == HandlerTypeValue(eh.kind)
      && FromLE(c[2..4]) == eh.tryStart
      && c[4] as int == EndOf(eh.tryEnd, methodEnd) - eh.tryStart
      && FromLE(c[5..7]) == eh.handlerStart
      && c[7] as int == EndOf(eh.handlerEnd, methodEnd) - eh.handlerStart
      && FromLE(c[8..12]) == ClassTokenOrFilterOffset(eh)
  {
    var c := SmallClause(eh, methodEnd);
    SmallClauseIs(eh, methodEnd);
    assert Pow256(1) == 0x100 && Pow256(2) == 0x1_0000 && Pow256(4) == 0x1_0000_0000;
    FitsLength(eh.tryStart, eh.tryEnd, methodEnd);
    FitsLength(eh.handlerStart, eh.handlerEnd, methodEnd);
    var a := LE(ToUnsigned(HandlerTypeValue(eh.kind), 2), 2);
    var b := LE(ToUnsigned(eh.tryStart, 2), 2);
    var d := LE(ToUnsigned(eh.handlerStart, 2), 2);
    var f := LE(ClassTokenOrFilterOffset(eh), 4);
    assert c[0..2] == a && c[2..4] == b && c[5..7] == d && c[8..12] == f;
    LERoundTrip(HandlerTypeValue(eh.kind), 2);
    LERoundTrip(eh.tryStart, 2);
    LERoundTrip(eh.handlerStart, 2);
    LERoundTrip(ClassTokenOrFilterOffset(eh), 4);
  }

  /** A range that fits a small clause has a length from 0 to 255, kept by the u8 cast. */
  lemma FitsLength(start: U32, end: Option<U32>, methodEnd: U32)
    requires FitsInSmallExceptionClause(start, end, methodEnd)
    ensures 0 <= EndOf(end, methodEnd) - start <= 0xFF
    ensures LE(ToUnsigned(EndOf(end, methodEnd) - start, 1), 1)[0] as int == EndOf(end, methodEnd) - start
  {
    var d := EndOf(end, methodEnd) - start;
    assert Pow256(1) == 0x100 && Pow256(4) == 0x1_0000_0000;
    if d < 0 {
      ModOfDecomposition(d, Pow256(4), -1, d + Pow256(4));
    }
  }

  /** Small clauses are chosen only when every clause holds its handler exactly. */
  lemma SmallClausesExact(ehs: seq<ExceptionHandler>, methodEnd: U32, i: nat)
    requires !FatClausesNeeded(ehs, methodEnd) && i < |ehs|
    ensures |ehs| <= 20
    ensures var c := SmallClause(ehs[i], methodEnd);
      && FromLE(c[2..4]) == ehs[i].tryStart
      && c[4] as int == EndOf(ehs[i].tryEnd, methodEnd) - ehs[i].tryStart
      && FromLE(c[5..7]) == ehs[i].handlerStart
      && c[7] as int == EndOf(ehs[i].handlerEnd, methodEnd) - ehs[i].handlerStart
  {
    SmallClauseExact(ehs[i], methodEnd);
  }

  /** The profiler reads an int32 or int64 literal back as the value written. */
  lemma LiteralReadsBack(stubs: map<nat, U32>, index: nat, ins: AsmInstruction)
    requires ins.opCode.operandType in {InlineI, InlineI8} && OperandFits(ins)
    ensures var w := MethodBodyHelpers.OperandWidth(ins.opCode.operandType);
      MethodBodyHelpers.ReadOperand(ins.opCode.operandType, OperandBytes(stubs, index, ins).value, 0) ==
        MethodBodyHelpers.Ok((Some(MethodBodyHelpers.Int(ins.operand.value)), w))
  {
    var ot := ins.opCode.operandType;
    var w := MethodBodyHelpers.OperandWidth(ot);
    var bytes := OperandBytes(stubs, index, ins).value;
    assert SignBound(4) == 0x8000_0000 && SignBound(8) == 0x8000_0000_0000_0000;
    ByteArrayHelpers.SpliceAll(bytes, bytes);
    MethodBodyHelpers.ReadOperandOfWritten(ot, bytes, 0, ins.operand.value);
  }

  /**
   * The InlineI8 operand bytes of this model are those the source's
   * uint-casting writer emits exactly when the literal lies in [0, 2^32).
   */
  lemma I8OperandAsWritten(stubs: map<nat, U32>, index: nat, ins: AsmInstruction)
    requires ins.opCode.operandType == InlineI8 && OperandFits(ins)
    ensures OperandBytes(stubs, index, ins).Some?
    ensures OperandBytes(stubs, index, ins).value == LE(ToUnsigned(ins.operand.value, 4), 8)
      <==> 0 <= ins.operand.value < 0x1_0000_0000
  {
    ByteArrayHelpers.Int64WritersAgree(ins.operand.value);
  }

  /**
   * The profiler reads a branch operand back as the distance from the end of
   * the instruction to its target, when that distance fits the operand.
   */
  lemma BranchReadsBack(stubs: map<nat, U32>, index: nat, ins: AsmInstruction)
    requires ins.opCode.operandType in {InlineBrTarget, ShortInlineBrTarget} && OperandFits(ins)
    requires var w := MethodBodyHelpers.OperandWidth(ins.opCode.operandType);
      -SignBound(w) <= ins.operand.target - (ins.offset + InstrSize(ins)) < SignBound(w)
    ensures var w := MethodBodyHelpers.OperandWidth(ins.opCode.operandType);
      MethodBodyHelpers.ReadOperand(ins.opCode.operandType, OperandBytes(stubs, index, ins).value, 0) ==
        MethodBodyHelpers.Ok((Some(MethodBodyHelpers.Int(ins.operand.target - (ins.offset + InstrSize(ins)))), w))
  {
    var ot := ins.opCode.operandType;
    var bytes := OperandBytes(stubs, index, ins).value;
    ByteArrayHelpers.SpliceAll(bytes, bytes);
    MethodBodyHelpers.ReadOperandOfWritten(ot, bytes, 0, ins.operand.target - (ins.offset + InstrSize(ins)));
  }

  /**
   * The assembler of one method body. `position` is the write cursor in
   * `bytecode`; `firstInstructionOffset` is where the code starts, after
   * the header; `extraSections` is the exception-handling section, once written.
   */
  class FastMethodAssembler {
    const body: MethodBody
    const stubs: map<nat, U32>
    var bytecode: array<byte>
    var extraSections: array?<byte>
    var firstInstructionOffset: nat
    var lastInstructionOffset: U32
    var methodEndOffset: U32
    var position: nat
    var maxStackSize: nat
    var codeSize: U32

    /** The instructions carry their final offsets, and the sizes were computed from them. */
    ghost predicate Valid()
      reads this
    {
      && OffsetsConsistent(body.instructions)
      && AllOperandsFit(body.instructions)
      && codeSize == CodeSizeOf(body.instructions)
      && maxStackSize < 0x1_0000
    }

    /**
     * Prepares a body whose instructions have their offsets updated: the code
     * size is the end of the last instruction, and the maximum stack size the
     * computed one cast to a u16.
     */
    constructor (body: MethodBody, stubs: map<nat, U32>, computedMaxStack: nat)
      requires OffsetsConsistent(body.instructions) && AllOperandsFit(body.instructions)
      ensures Valid() && this.body == body && this.stubs == stubs
      ensures codeSize == CodeSizeOf(body.instructions) && maxStackSize == ToUnsigned(computedMaxStack, 2)
      ensures position == 0 && extraSections == null
    {
      this.body := body;
      this.stubs := stubs;
      bytecode := new byte[0];
      extraSections := null;
      firstInstructionOffset := 0;
      lastInstructionOffset := 0;
      methodEndOffset := 0;
      position := 0;
      var last := body.instructions[|body.instructions| - 1];
      codeSize := last.offset + InstrSize(last);
      assert Pow256(2) == 0x1_0000;
      maxStackSize := ToUnsigned(computedMaxStack, 2);
    }

    /**
     * Assembles the body: a tiny or a fat header and the code, and, after
     * padding to a 4-byte boundary, the exception-handling section when
     * there is one. Meant to be called once, on a fresh assembler.
     */
    method Assemble() returns (r: Result<array<byte>>)
      requires Valid() && position == 0 && extraSections == null
      modifies this
      ensures Assembled(body, stubs, maxStackSize).Ok? <==> r.Ok?
      ensures r.Ok? ==> r.value[..] == Assembled(body, stubs, maxStackSize).value
      ensures r.Err? ==> r.error == Assembled(body, stubs, maxStackSize).error
    {
      var instrs := body.instructions;
      var last := instrs[|instrs| - 1];
      lastInstructionOffset := last.offset;
      methodEndOffset := last.offset + InstrSize(last);
      ghost var expected := Assembled(body, stubs, maxStackSize);
      var ok;
      if !RequiresFatHeader(body, codeSize, maxStackSize) {
        ok := WriteTinyMethod();
        if !ok {
          return Err(InvalidProgram);
        }
        assert expected == Ok(bytecode[..]);
      } else {
        ok := WriteFatMethod();
        if !ok {
          return Err(InvalidProgram);
        }
        ghost var header := bytecode[..];
        if |body.exceptionHandlers| > 0 {
          var err := WriteExceptionHandlers();
          if err.Some? {
            return Err(err.value);
          }
          AssembledWithSection(body, stubs, maxStackSize, codeSize, methodEndOffset, header, extraSections[..]);
        } else {
          assert expected == Ok(bytecode[..]);
        }
      }
      if extraSections != null {
        var result := AlignSections(bytecode, extraSections);
        return Ok(result);
      }
      return Ok(bytecode);
    }

    /** A tiny method: the header byte `0x02 | codeSize << 2`, then the code. */
    method WriteTinyMethod() returns (ok: bool)
      requires Valid() && position == 0 && !RequiresFatHeader(body, codeSize, maxStackSize)
      modifies this`bytecode, this`position, this`firstInstructionOffset
      ensures fresh(bytecode)
      ensures ok <==> CodeBytes(stubs, body.instructions, |body.instructions|).Some?
      ensures ok ==> bytecode[..] == [(2 + 4 * codeSize) as byte] + CodeBytes(stubs, body.instructions, |body.instructions|).value
    {
      bytecode := new byte[codeSize + 1](_ => 0);
      ghost var z := bytecode[..];
      position := ByteArrayHelpers.WriteByte(bytecode, position, 2 + 4 * codeSize);
      ghost var s1 := bytecode[..];
      firstInstructionOffset := position;
      ok := WriteInstructions();
      if ok {
        ghost var code := CodeBytes(stubs, body.instructions, |body.instructions|).value;
        TinyMethodWritten(z, s1, bytecode[..], 2 + 4 * codeSize, code);
      }
    }

    /** A fat method: the 12-byte fat header, then the code. */
    method WriteFatMethod() returns (ok: bool)
      requires Valid() && position == 0
      modifies this`bytecode, this`position, this`firstInstructionOffset
      ensures fresh(bytecode)
      ensures ok <==> CodeBytes(stubs, body.instructions, |body.instructions|).Some?
      ensures ok ==> bytecode[..] == FatHeaderBytes(body, maxStackSize, codeSize) + CodeBytes(stubs, body.instructions, |body.instructions|).value
    {
      bytecode := new byte[codeSize + 12](_ => 0);
      ghost var z := bytecode[..];
      WriteFatHeader();
      ghost var s1 := bytecode[..];
      firstInstructionOffset := position;
      ok := WriteInstructions();
      if ok {
        ghost var code := CodeBytes(stubs, body.instructions, |body.instructions|).value;
        HeaderAndCodeWritten(z, s1, bytecode[..], FatHeaderBytes(body, maxStackSize, codeSize), code);
      }
    }

    /** The 12-byte fat header, written at the start of the bytecode. */
    method WriteFatHeader()
      requires Valid() && position == 0 && bytecode.Length >= 12
      modifies this`position, bytecode
      ensures position == 12
      ensures bytecode[..] == ByteArrayHelpers.Splice(old(bytecode[..]), 0, FatHeaderBytes(body, maxStackSize, codeSize))
    {
      var flags: byte := 0x03;
      if body.initLocals {
        flags := flags + 0x10;
      }
      if |body.exceptionHandlers| > 0 {
        flags := flags + 0x08;
      }
      assert flags == FatFlags(body);
      ghost var s0 := bytecode[..];
      var pos := ByteArrayHelpers.WriteByte(bytecode, position, flags);
      ghost var s1 := bytecode[..];
      pos := ByteArrayHelpers.WriteByte(bytecode, pos, 0x30);
      ghost var s2 := bytecode[..];
      ByteArrayHelpers.SpliceAfter(s0, 0, [flags], [0x30], s1, s2);
      assert [flags] + [0x30] == [FatFlags(body), 0x30];
      ghost var w := [FatFlags(body), 0x30];
      pos := ByteArrayHelpers.WriteUInt16(bytecode, pos, maxStackSize);
      ghost var s3 := bytecode[..];
      ByteArrayHelpers.SpliceAfter(s0, 0, w, LE(maxStackSize, 2), s2, s3);
      w := w + LE(maxStackSize, 2);
      pos := ByteArrayHelpers.WriteUInt32(bytecode, pos, codeSize);
      ghost var s4 := bytecode[..];
      ByteArrayHelpers.SpliceAfter(s0, 0, w, LE(codeSize, 4), s3, s4);
      w := w + LE(codeSize, 4);
      pos := ByteArrayHelpers.WriteUInt32(bytecode, pos, body.localVarSigTok);
      ByteArrayHelpers.SpliceAfter(s0, 0, w, LE(body.localVarSigTok, 4), s4, bytecode[..]);
      position := pos;
    }

    /** Writes every instruction, in order, from the current position; fails on one without an encoding. */
    method WriteInstructions() returns (ok: bool)
      requires Valid() && position == firstInstructionOffset
      requires firstInstructionOffset + codeSize <= bytecode.Length
      modifies this`position, bytecode
      ensures ok <==> CodeBytes(stubs, body.instructions, |body.instructions|).Some?
      ensures ok ==> position == firstInstructionOffset + codeSize
      ensures ok ==> |CodeBytes(stubs, body.instructions, |body.instructions|).value| == codeSize
      ensures ok ==> bytecode[..] == ByteArrayHelpers.Splice(
        old(bytecode[..]), firstInstructionOffset, CodeBytes(stubs, body.instructions, |body.instructions|).value)
    {
      var instrs := body.instructions;
      var index := 0;
      ghost var s0, start := bytecode[..], firstInstructionOffset;
      assert ByteArrayHelpers.Splice(s0, start, []) == s0;
      while index < |instrs|
        invariant 0 <= index <= |instrs|
        invariant CodeBytes(stubs, instrs, index).Some?
        invariant position == start + |CodeBytes(stubs, instrs, index).value| <= start + codeSize
        invariant bytecode[..] == ByteArrayHelpers.Splice(s0, start, CodeBytes(stubs, instrs, index).value)
      {
        var written := WriteInstruction(index, s0, start);
        if !written {
          CodeBytesFails(stubs, instrs, index + 1, |instrs|);
          return false;
        }
        index := index + 1;
      }
      CodeBytesLength(stubs, instrs, |instrs|);
      ok := true;
    }

    /**
     * The body of the loop of WriteInstructions: instruction index, its opcode
     * then its operand, right after the code of the instructions before it.
     */
    method WriteInstruction(index: nat, ghost s0: seq<byte>, ghost start: nat) returns (ok: bool)
      requires Valid() && index < |body.instructions| && start == firstInstructionOffset
      requires start + codeSize <= |s0| == bytecode.Length
      requires CodeBytes(stubs, body.instructions, index).Some?
      requires position == start + |CodeBytes(stubs, body.instructions, index).value| <= start + codeSize
      requires bytecode[..] == ByteArrayHelpers.Splice(s0, start, CodeBytes(stubs, body.instructions, index).value)
      modifies this`position, bytecode
      ensures ok <==> CodeBytes(stubs, body.instructions, index + 1).Some?
      ensures ok ==> position == start + |CodeBytes(stubs, body.instructions, index + 1).value| <= start + codeSize
      ensures ok ==> bytecode[..] == ByteArrayHelpers.Splice(s0, start, CodeBytes(stubs, body.instructions, index + 1).value)
    {
      var instrs := body.instructions;
      CodeBytesLength(stubs, instrs, index);
      OffsetBound(instrs, index);
      ghost var s1, p1 := bytecode[..], position;
      var instruction := instrs[index];
      WriteOpCode(instruction.opCode);
      ghost var s2, p2 := bytecode[..], position;
      ok := WriteOperand(index);
      if ok {
        InstructionWritten(stubs, instrs, index, s0, start, s1, p1, s2, p2, bytecode[..]);
      } else {
        CodeBytesFails(stubs, instrs, index + 1, index + 1);
      }
    }

    /** The opcode: one byte, or its high byte and then its low byte. */
    method WriteOpCode(opCode: AsmOpCode)
      requires position + OpCodeSize(opCode) <= bytecode.Length
      modifies this`position, bytecode
      ensures position == old(position) + OpCodeSize(opCode)
      ensures bytecode[..] == ByteArrayHelpers.Splice(old(bytecode[..]), old(position), OpCodeBytes(opCode))
    {
      if OpCodeSize(opCode) == 1 {
        position := ByteArrayHelpers.WriteByte(bytecode, position, opCode.code % 256);
      } else {
        ghost var s0 := bytecode[..];
        position := ByteArrayHelpers.WriteByte(bytecode, position, opCode.code / 256);
        position := ByteArrayHelpers.WriteByte(bytecode, position, opCode.code % 256);
        ByteArrayHelpers.SpliceConcat(s0, old(position), [opCode.code / 256], [opCode.code % 256]);
      }
    }
    /**
     * The operand of instruction index, which starts right after its opcode.
     * Branch targets are made relative to the end of the instruction:
     * `position - (firstInstructionOffset - 4)` is that end as a code offset.
     */
    method WriteOperand(index: nat) returns (ok: bool)
      requires Valid() && index < |body.instructions|
      requires position == firstInstructionOffset + body.instructions[index].offset + OpCodeSize(body.instructions[index].opCode)
      requires position + (InstrSize(body.instructions[index]) - OpCodeSize(body.instructions[index].opCode)) <= bytecode.Length
      modifies this`position, bytecode
      ensures ok <==> OperandBytes(stubs, index, body.instructions[index]).Some?
      ensures ok ==> position == old(position) + |OperandBytes(stubs, index, body.instructions[index]).value|
      ensures ok ==> bytecode[..] == ByteArrayHelpers.Splice(old(bytecode[..]), old(position), OperandBytes(stubs, index, body.instructions[index]).value)
    {
      var instruction := body.instructions[index];
      OffsetBound(body.instructions, index);
      assert OperandFits(instruction);
      assert Pow256(1) == 0x100 && Pow256(2) == 0x1_0000 && Pow256(4) == 0x1_0000_0000;
      ok := true;
      match instruction.opCode.operandType {
        case InlineNone =>
          ByteArrayHelpers.SpliceAll(bytecode[position..position], []);
          assert bytecode[..] == ByteArrayHelpers.Splice(old(bytecode[..]), position, []);
        case InlineI | InlineI8 | InlineR | ShortInlineR | ShortInlineI =>
          WriteInlineLiteral(instruction);
        case InlineBrTarget | ShortInlineBrTarget =>
          WriteBranchTarget(instruction);
        case InlineSwitch =>
          WriteInlineSwitch(index);
        case InlineString | InlineType | InlineField | InlineMethod | InlineSig | InlineTok =>
          ok := WriteTokenOperand(index, instruction);
        case InlineVar | ShortInlineVar =>
          WriteVariable(instruction);
        case InlinePhi | NotUsed8 =>
          return false;
      }
    }

    /** A metadata token, resolved through the stubs first; an unresolvable token fails. */
    method WriteTokenOperand(index: nat, instruction: AsmInstruction) returns (ok: bool)
      requires IsTokenType(instruction.opCode.operandType) && OperandFits(instruction)
      requires position + 4 <= bytecode.Length
      modifies this`position, bytecode
      ensures ok <==> OperandBytes(stubs, index, instruction).Some?
      ensures ok ==> position == old(position) + |OperandBytes(stubs, index, instruction).value|
      ensures ok ==> bytecode[..] == ByteArrayHelpers.Splice(old(bytecode[..]), old(position), OperandBytes(stubs, index, instruction).value)
    {
      var token := GetToken(stubs, index, instruction.operand);
      if token.None? {
        return false;
      }
      position := ByteArrayHelpers.WriteUInt32(bytecode, position, token.value);
      ok := true;
    }

    /** An inline literal: an int, a long, a double, a float, or a short integer, little-endian. */
    method WriteInlineLiteral(instruction: AsmInstruction)
      requires instruction.opCode.operandType in {InlineI, InlineI8, InlineR, ShortInlineR, ShortInlineI} && OperandFits(instruction)
      requires position + MethodBodyHelpers.OperandWidth(instruction.opCode.operandType) <= bytecode.Length
      modifies this`position, bytecode
      ensures OperandBytes(stubs, 0, instruction).Some?
      ensures position == old(position) + |OperandBytes(stubs, 0, instruction).value|
      ensures bytecode[..] == ByteArrayHelpers.Splice(old(bytecode[..]), old(position), OperandBytes(stubs, 0, instruction).value)
    {
      match instruction.opCode.operandType {
        case InlineI =>
          position := ByteArrayHelpers.WriteInt32(bytecode, position, instruction.operand.value);
        case InlineI8 =>
          position := ByteArrayHelpers.WriteInt64(bytecode, position, instruction.operand.value);
        case InlineR =>
          position := ByteArrayHelpers.WriteDouble(bytecode, position, instruction.operand.bits);
        case ShortInlineR =>
          position := ByteArrayHelpers.WriteSingle(bytecode, position, instruction.operand.bits);
        case ShortInlineI =>
          WriteShortInlineI(instruction);
      }
    }

    /** A variable's index: a ushort for InlineVar, a byte for ShortInlineVar. */
    method WriteVariable(instruction: AsmInstruction)
      requires instruction.opCode.operandType in {InlineVar, ShortInlineVar} && OperandFits(instruction)
      requires position + MethodBodyHelpers.OperandWidth(instruction.opCode.operandType) <= bytecode.Length
      modifies this`position, bytecode
      ensures OperandBytes(stubs, 0, instruction).Some?
      ensures position == old(position) + |OperandBytes(stubs, 0, instruction).value|
      ensures bytecode[..] == ByteArrayHelpers.Splice(old(bytecode[..]), old(position), OperandBytes(stubs, 0, instruction).value)
    {
      assert Pow256(1) == 0x100 && Pow256(2) == 0x1_0000;
      if instruction.opCode.operandType == InlineVar {
        position := ByteArrayHelpers.WriteUInt16(bytecode, position, ToUnsigned(instruction.operand.index, 2));
      } else {
        var b := ToUnsigned(instruction.operand.index, 1);
        position := ByteArrayHelpers.WriteByte(bytecode, position, b);
        assert LE(b, 1) == [b];
      }
    }

    /**
     * A branch target relative to the end of the instruction, as an int or
     * an sbyte: `position - (firstInstructionOffset - width)` is that end as
     * a code offset, and the difference is truncated to the operand's width.
     */
    method WriteBranchTarget(instruction: AsmInstruction)
      requires instruction.opCode.operandType in {InlineBrTarget, ShortInlineBrTarget} && OperandFits(instruction)
      requires position == firstInstructionOffset + instruction.offset + OpCodeSize(instruction.opCode)
      requires position + MethodBodyHelpers.OperandWidth(instruction.opCode.operandType) <= bytecode.Length
      modifies this`position, bytecode
      ensures OperandBytes(stubs, 0, instruction).Some?
      ensures position == old(position) + |OperandBytes(stubs, 0, instruction).value|
      ensures bytecode[..] == ByteArrayHelpers.Splice(old(bytecode[..]), old(position), OperandBytes(stubs, 0, instruction).value)
    {
      if instruction.opCode.operandType == InlineBrTarget {
        var delta := instruction.operand.target - (position - (firstInstructionOffset - 4));
        UnsignedOfSigned(ToUnsigned(delta, 4), 4);
        position := ByteArrayHelpers.WriteInt32(bytecode, position, ToSigned(ToUnsigned(delta, 4), 4));
      } else {
        var delta := instruction.operand.target - (position - (firstInstructionOffset - 1));
        UnsignedOfSigned(ToUnsigned(delta, 1), 1);
        position := ByteArrayHelpers.WriteSByte(bytecode, position, ToSigned(ToUnsigned(delta, 1), 1));
      }
    }

    /** ldc.i4.s takes a signed byte; the other short integer operands an unsigned one. */
    method WriteShortInlineI(instruction: AsmInstruction)
      requires instruction.opCode.operandType == ShortInlineI && OperandFits(instruction)
      requires position + 1 <= bytecode.Length
      modifies this`position, bytecode
      ensures position == old(position) + 1
      ensures bytecode[..] == ByteArrayHelpers.Splice(old(bytecode[..]), old(position), LE(ToUnsigned(instruction.operand.value, 1), 1))
    {
      assert Pow256(1) == 0x100;
      if instruction.opCode.code == Ldc_I4_S {
        position := ByteArrayHelpers.WriteSByte(bytecode, position, instruction.operand.value);
      } else {
        position := ByteArrayHelpers.WriteByte(bytecode, position, instruction.operand.value);
        assert LE(instruction.operand.value, 1) == [instruction.operand.value];
      }
    }

    /** A switch: the number of targets, then each target relative to the end of the switch. */
    method WriteInlineSwitch(index: nat)
      requires Valid() && index < |body.instructions|
      requires body.instructions[index].opCode.operandType == InlineSwitch
      requires position == firstInstructionOffset + body.instructions[index].offset + OpCodeSize(body.instructions[index].opCode)
      requires position + (InstrSize(body.instructions[index]) - OpCodeSize(body.instructions[index].opCode)) <= bytecode.Length
      modifies this`position, bytecode
      ensures OperandBytes(stubs, index, body.instructions[index]).Some?
      ensures position == old(position) + |OperandBytes(stubs, index, body.instructions[index]).value|
      ensures bytecode[..] == ByteArrayHelpers.Splice(old(bytecode[..]), old(position), OperandBytes(stubs, index, body.instructions[index]).value)
    {
      var instruction := body.instructions[index];
      OffsetBound(body.instructions, index);
      assert OperandFits(instruction);
      var targets := instruction.operand.targets;
      var exit := instruction.offset + OpCodeSize(instruction.opCode) + 4 * (|targets| + 1);
      ghost var s0, p0 := bytecode[..], position;
      assert ToUnsigned(|targets|, 4) == |targets| by {
        assert Pow256(4) == 0x1_0000_0000;
      }
      var pos := ByteArrayHelpers.WriteInt32(bytecode, position, |targets|);
      pos := WriteSwitchTargets(bytecode, pos, targets, exit);
      ByteArrayHelpers.SpliceConcat(s0, p0, LE(|targets|, 4), SwitchTargetBytes(targets, exit));
      position := pos;
      SwitchOperandBytes(stubs, index, instruction);
    }

    /** The exception-handling section, small unless fat clauses are needed. */
    method WriteExceptionHandlers() returns (err: Option<AsmError>)
      modifies this`extraSections
      ensures var section := if FatClausesNeeded(body.exceptionHandlers, methodEndOffset)
          then FatSection(body.exceptionHandlers, methodEndOffset)
          else SmallSection(body.exceptionHandlers, methodEndOffset);
        && (err.None? <==> section.Ok?)
        && (err.Some? ==> err.value == section.error)
        && (err.None? ==> extraSections != null && extraSections[..] == section.value)
    {
      var fat := NeedFatExceptionClauses();
      var r;
      if fat {
        r := WriteFatExceptionClauses(body.exceptionHandlers);
      } else {
        r := WriteSmallExceptionClauses(body.exceptionHandlers);
      }
      if r.Err? {
        return Some(r.error);
      }
      extraSections := r.value;
      return None;
    }

    /** More than 20 handlers, or a protected range or handler that does not fit a small clause. */
    method NeedFatExceptionClauses() returns (b: bool)
      ensures b == FatClausesNeeded(body.exceptionHandlers, methodEndOffset)
    {
      var exceptionHandlers := body.exceptionHandlers;
      if |exceptionHandlers| > 20 {
        return true;
      }
      var i := 0;
      while i < |exceptionHandlers|
        invariant 0 <= i <= |exceptionHandlers|
        invariant forall j :: 0 <= j < i ==>
          FitsInSmallExceptionClause(exceptionHandlers[j].tryStart, exceptionHandlers[j].tryEnd, methodEndOffset) &&
          FitsInSmallExceptionClause(exceptionHandlers[j].handlerStart, exceptionHandlers[j].handlerEnd, methodEndOffset)
      {
        var eh := exceptionHandlers[i];
        if !FitsInSmallExceptionClause(eh.tryStart, eh.tryEnd, methodEndOffset) {
          return true;
        }
        if !FitsInSmallExceptionClause(eh.handlerStart, eh.handlerEnd, methodEndOffset) {
          return true;
        }
        i := i + 1;
      }
      return false;
    }

    /** The fat section: its header word, then a 24-byte clause per handler. */
    method WriteFatExceptionClauses(exceptionHandlers: seq<ExceptionHandler>) returns (r: Result<array<byte>>)
      ensures r.Ok? <==> FatSection(exceptionHandlers, methodEndOffset).Ok?
      ensures r.Ok? ==> r.value[..] == FatSection(exceptionHandlers, methodEndOffset).value
      ensures r.Err? ==> r.error == GuardFailed
    {
      var methodEnd := methodEndOffset;
      var n := |exceptionHandlers|;
      var data := new byte[n * 24 + 4];
      ghost var s0 := data[..];
      var pos := ByteArrayHelpers.WriteUInt32(data, 0, FatSectionHeader(n));
      ghost var s1 := data[..];
      var ok := WriteFatClauses(data, exceptionHandlers, methodEnd);
      if !ok {
        return Err(GuardFailed);
      }
      FatSectionWritten(exceptionHandlers, methodEnd, s0, s1, data[..]);
      return Ok(data);
    }

    /** The small section: its header word, then a 12-byte clause per handler. */
    method WriteSmallExceptionClauses(exceptionHandlers: seq<ExceptionHandler>) returns (r: Result<array<byte>>)
      ensures r.Ok? <==> SmallSection(exceptionHandlers, methodEndOffset).Ok?
      ensures r.Ok? ==> r.value[..] == SmallSection(exceptionHandlers, methodEndOffset).value
      ensures r.Err? ==> r.error == GuardFailed
    {
      var methodEnd := methodEndOffset;
      var n := |exceptionHandlers|;
      var data := new byte[n * 12 + 4];
      ghost var s0 := data[..];
      var pos := ByteArrayHelpers.WriteUInt32(data, 0, SmallSectionHeader(n));
      ghost var s1 := data[..];
      var ok := WriteSmallClauses(data, exceptionHandlers, methodEnd);
      if !ok {
        return Err(GuardFailed);
      }
      SmallSectionWritten(exceptionHandlers, methodEnd, s0, s1, data[..]);
      return Ok(data);
    }

  }
}
