/**
 * The profiler's CIL opcode tables: one table for the one-byte opcodes and one
 * for the two-byte opcodes whose first byte is 0xFE, filled by Register. Code
 * values are those of ECMA-335 Partition III; UNKNOWN1 and UNKNOWN2 are 0x100
 * and 0x101, so their high byte selects neither table.
 */
module OpCodes {

  datatype Option<T> = None | Some(value: T)

  /** A 16-bit opcode value, as the USHORT the tables are indexed by. */
  type Code = c: nat | c < 0x1_0000

  datatype OperandType =
    | InlineBrTarget | InlineField | InlineI | InlineI8 | InlineMethod | InlineNone
    | InlinePhi | InlineR | NotUsed8 | InlineSig | InlineString | InlineSwitch
    | InlineTok | InlineType | InlineVar | ShortInlineBrTarget | ShortInlineI
    | ShortInlineR | ShortInlineVar

  /** An opcode: its mnemonic, its value and the kind of operand that follows it. */
  datatype OpCode = OpCode(name: string, code: Code, operandType: OperandType)

  const Ldarg_0: Code := 0x02
  const Ldarg_S: Code := 0x0E
  const Ldc_I4_S: Code := 0x1F
  const Call: Code := 0x28
  const Ret: Code := 0x2A
  const Switch: Code := 0x45
  const Callvirt: Code := 0x6F
  const TwoBytePrefix: Code := 0xFE

  /** The contents of the two tables. */
  datatype Tables = Tables(one: seq<Option<OpCode>>, two: seq<Option<OpCode>>)

  /** Both tables have 256 slots, and a filled slot holds the opcode whose value addresses it. */
  ghost predicate WellFormed(t: Tables)
  {
    && |t.one| == 256 && |t.two| == 256
    && (forall b :: 0 <= b < 256 && t.one[b].Some? ==> t.one[b].value.code == b)
    && (forall b :: 0 <= b < 256 && t.two[b].Some? ==> t.two[b].value.code == 0xFE00 + b)
  }

  /** The tables with every slot empty, as the static arrays start. */
  function EmptyTables(): (t: Tables)
    ensures WellFormed(t)
    ensures forall c: Code :: Lookup(t, c) == None
  {
    Tables(seq(256, _ => None), seq(256, _ => None))
  }

  /** The slot an opcode value addresses: high byte 0 in the one-byte table, 0xFE in the two-byte one. */
  function Lookup(t: Tables, c: Code): Option<OpCode>
    requires |t.one| == 256 && |t.two| == 256
  {
    if c / 256 == 0 then t.one[c % 256]
    else if c / 256 == 0xFE then t.two[c % 256]
    else None
  }

  /** What Register does to the tables' contents. */
  function Registered(t: Tables, op: OpCode): (r: Tables)
    requires |t.one| == 256 && |t.two| == 256
    ensures |r.one| == 256 && |r.two| == 256
  {
    if op.code / 256 == 0 then t.(one := t.one[op.code % 256 := Some(op)])
    else if op.code / 256 == 0xFE then t.(two := t.two[op.code % 256 := Some(op)])
    else t
  }

  /** Registering keeps every filled slot addressed by its own opcode's value. */
  lemma RegisteredWellFormed(t: Tables, op: OpCode)
    requires WellFormed(t)
    ensures WellFormed(Registered(t, op))
  {
    var r := Registered(t, op);
    forall b | 0 <= b < 256 && r.one[b].Some?
      ensures r.one[b].value.code == b
    {
      if op.code / 256 == 0 && b == op.code % 256 {
        assert op.code == 256 * (op.code / 256) + op.code % 256;
      }
    }
    forall b | 0 <= b < 256 && r.two[b].Some?
      ensures r.two[b].value.code == 0xFE00 + b
    {
      if op.code / 256 == 0xFE && b == op.code % 256 {
        assert op.code == 256 * (op.code / 256) + op.code % 256;
      }
    }
  }

  /**
   * After registering op, looking up its value finds op when its high byte
   * selects a table and nothing otherwise, and every other value looks up
   * what it did before.
   */
  lemma LookupRegistered(t: Tables, op: OpCode, c: Code)
    requires WellFormed(t)
    ensures Lookup(Registered(t, op), c) ==
      if c == op.code then (if c / 256 == 0 || c / 256 == 0xFE then Some(op) else None)
      else Lookup(t, c)
  {
    if c != op.code && c / 256 == op.code / 256 {
      assert c == 256 * (c / 256) + c % 256;
      assert op.code == 256 * (op.code / 256) + op.code % 256;
    }
  }

  /** Registering the same opcode a second time changes nothing. */
  lemma RegisterIdempotent(t: Tables, op: OpCode)
    requires |t.one| == 256 && |t.two| == 256
    ensures Registered(Registered(t, op), op) == Registered(t, op)
  {
  }

  /** The contents after registering every opcode of regs in order. */
  function RegisteredAll(t: Tables, regs: seq<OpCode>): (r: Tables)
    requires |t.one| == 256 && |t.two| == 256
    ensures |r.one| == 256 && |r.two| == 256
  {
    if regs == [] then t else Registered(RegisteredAll(t, regs[..|regs| - 1]), regs[|regs| - 1])
  }

  /** The last opcode of regs with value c, if any. */
  function LastWithCode(regs: seq<OpCode>, c: Code): (r: Option<OpCode>)
    ensures r.Some? ==> r.value in regs && r.value.code == c
    ensures r.None? ==> forall op :: op in regs ==> op.code != c
  {
    if regs == [] then None
    else if regs[|regs| - 1].code == c then Some(regs[|regs| - 1])
    else LastWithCode(regs[..|regs| - 1], c)
  }

  /**
   * After registering a sequence of opcodes, the slot of a value that high
   * byte 0 or 0xFE addresses holds the last opcode registered with that value,
   * or what it held before when none was; the tables stay well formed.
   */
  lemma {:induction false} LookupRegisteredAll(t: Tables, regs: seq<OpCode>, c: Code)
    requires WellFormed(t)
    ensures WellFormed(RegisteredAll(t, regs))
    ensures Lookup(RegisteredAll(t, regs), c) ==
      if (c / 256 == 0 || c / 256 == 0xFE) && LastWithCode(regs, c).Some? then LastWithCode(regs, c)
      else Lookup(t, c)
  {
    if regs != [] {
      var init := regs[..|regs| - 1];
      LookupRegisteredAll(t, init, c);
      RegisteredWellFormed(RegisteredAll(t, init), regs[|regs| - 1]);
      LookupRegistered(RegisteredAll(t, init), regs[|regs| - 1], c);
    }
  }

  class OpCodeTables {
    var oneByte: array<Option<OpCode>>
    var twoByte: array<Option<OpCode>>

    ghost predicate Valid()
      reads this, oneByte, twoByte
    {
      oneByte != twoByte && WellFormed(Contents())
    }

    function Contents(): Tables
      reads this, oneByte, twoByte
    {
      Tables(oneByte[..], twoByte[..])
    }

    /** Both tables start with every slot empty. */
    constructor ()
      ensures Valid() && fresh(oneByte) && fresh(twoByte)
      ensures Contents() == EmptyTables()
    {
      oneByte := new Option<OpCode>[256](_ => None);
      twoByte := new Option<OpCode>[256](_ => None);
    }

    /** Stores op in the slot its value addresses, or leaves both tables as they are. */
    method Register(op: OpCode)
      requires Valid()
      modifies oneByte, twoByte
      ensures Valid()
      ensures op.code / 256 == 0 ==>
        oneByte[..] == old(oneByte[..])[op.code % 256 := Some(op)] && twoByte[..] == old(twoByte[..])
      ensures op.code / 256 == 0xFE ==>
        twoByte[..] == old(twoByte[..])[op.code % 256 := Some(op)] && oneByte[..] == old(oneByte[..])
      ensures op.code / 256 != 0 && op.code / 256 != 0xFE ==>
        oneByte[..] == old(oneByte[..]) && twoByte[..] == old(twoByte[..])
      ensures Contents() == Registered(old(Contents()), op)
    {
      RegisteredWellFormed(Contents(), op);
      var code := op.code;
      if code / 256 == 0 {
        oneByte[code % 256] := Some(op);
      } else if code / 256 == 0xFE {
        twoByte[code % 256] := Some(op);
      }
    }

    /** Registers every opcode of regs in order. */
    method RegisterEach(regs: seq<OpCode>)
      requires Valid()
      modifies oneByte, twoByte
      ensures Valid()
      ensures Contents() == RegisteredAll(old(Contents()), regs)
    {
      var i := 0;
      while i < |regs|
        invariant 0 <= i <= |regs|
        invariant Valid()
        invariant Contents() == RegisteredAll(old(Contents()), regs[..i])
      {
        assert regs[..i + 1][..i] == regs[..i];
        Register(regs[i]);
        i := i + 1;
      }
      assert regs[..i] == regs;
    }

    /** Registers every opcode of Registrations, in the order the source lists them. */
    method Initialize()
      requires Valid()
      modifies oneByte, twoByte
      ensures Valid()
      ensures Contents() == RegisteredAll(old(Contents()), Registrations)
    {
      RegisterEach(Registrations);
    }
  }

  /** The opcodes Initialize registers, in source order (UNKNOWN1 twice). */
  const Registrations: seq<OpCode> := [
      OpCode("UNKNOWN1", 0x100, InlineNone),
      OpCode("UNKNOWN1", 0x100, InlineNone),
      OpCode("UNKNOWN2", 0x101, InlineNone),
      OpCode("nop", 0x0, InlineNone),
      OpCode("break", 0x1, InlineNone),
      OpCode("ldarg::0", 0x2, InlineNone),
      OpCode("ldarg::1", 0x3, InlineNone),
      OpCode("ldarg::2", 0x4, InlineNone),
      OpCode("ldarg::3", 0x5, InlineNone),
      OpCode("ldloc::0", 0x6, InlineNone),
      OpCode("ldloc::1", 0x7, InlineNone),
      OpCode("ldloc::2", 0x8, InlineNone),
      OpCode("ldloc::3", 0x9, InlineNone),
      OpCode("stloc::0", 0xA, InlineNone),
      OpCode("stloc::1", 0xB, InlineNone),
      OpCode("stloc::2", 0xC, InlineNone),
      OpCode("stloc::3", 0xD, InlineNone),
      OpCode("ldarg::s", 0xE, ShortInlineVar),
      OpCode("ldarga::s", 0xF, ShortInlineVar),
      OpCode("starg::s", 0x10, ShortInlineVar),
      OpCode("ldloc::s", 0x11, ShortInlineVar),
      OpCode("ldloca::s", 0x12, ShortInlineVar),
      OpCode("stloc::s", 0x13, ShortInlineVar),
      OpCode("ldnull", 0x14, InlineNone),
      OpCode("ldc::i4::m1", 0x15, InlineNone),
      OpCode("ldc::i4::0", 0x16, InlineNone),
      OpCode("ldc::i4::1", 0x17, InlineNone),
      OpCode("ldc::i4::2", 0x18, InlineNone),
      OpCode("ldc::i4::3", 0x19, InlineNone),
      OpCode("ldc::i4::4", 0x1A, InlineNone),
      OpCode("ldc::i4::5", 0x1B, InlineNone),
      OpCode("ldc::i4::6", 0x1C, InlineNone),
      OpCode("ldc::i4::7", 0x1D, InlineNone),
      OpCode("ldc::i4::8", 0x1E, InlineNone),
      OpCode("ldc::i4::s", 0x1F, ShortInlineI),
      OpCode("ldc::i4", 0x20, InlineI),
      OpCode("ldc::i8", 0x21, InlineI8),
      OpCode("ldc::r4", 0x22, ShortInlineR),
      OpCode("ldc::r8", 0x23, InlineR),
      OpCode("dup", 0x25, InlineNone),
      OpCode("pop", 0x26, InlineNone),
      OpCode("jmp", 0x27, InlineMethod),
      OpCode("call", 0x28, InlineMethod),
      OpCode("calli", 0x29, InlineSig),
      OpCode("ret", 0x2A, InlineNone),
      OpCode("br::s", 0x2B, ShortInlineBrTarget),
      OpCode("brfalse::s", 0x2C, ShortInlineBrTarget),
      OpCode("brtrue::s", 0x2D, ShortInlineBrTarget),
      OpCode("beq::s", 0x2E, ShortInlineBrTarget),
      OpCode("bge::s", 0x2F, ShortInlineBrTarget),
      OpCode("bgt::s", 0x30, ShortInlineBrTarget),
      OpCode("ble::s", 0x31, ShortInlineBrTarget),
      OpCode("blt::s", 0x32, ShortInlineBrTarget),
      OpCode("bne::un::s", 0x33, ShortInlineBrTarget),
      OpCode("bge::un::s", 0x34, ShortInlineBrTarget),
      OpCode("bgt::un::s", 0x35, ShortInlineBrTarget),
      OpCode("ble::un::s", 0x36, ShortInlineBrTarget),
      OpCode("blt::un::s", 0x37, ShortInlineBrTarget),
      OpCode("br", 0x38, InlineBrTarget),
      OpCode("brfalse", 0x39, InlineBrTarget),
      OpCode("brtrue", 0x3A, InlineBrTarget),
      OpCode("beq", 0x3B, InlineBrTarget),
      OpCode("bge", 0x3C, InlineBrTarget),
      OpCode("bgt", 0x3D, InlineBrTarget),
      OpCode("ble", 0x3E, InlineBrTarget),
      OpCode("blt", 0x3F, InlineBrTarget),
      OpCode("bne::un", 0x40, InlineBrTarget),
      OpCode("bge::un", 0x41, InlineBrTarget),
      OpCode("bgt::un", 0x42, InlineBrTarget),
      OpCode("ble::un", 0x43, InlineBrTarget),
      OpCode("blt::un", 0x44, InlineBrTarget),
      OpCode("switch", 0x45, InlineSwitch),
      OpCode("ldind::i1", 0x46, InlineNone),
      OpCode("ldind::u1", 0x47, InlineNone),
      OpCode("ldind::i2", 0x48, InlineNone),
      OpCode("ldind::u2", 0x49, InlineNone),
      OpCode("ldind::i4", 0x4A, InlineNone),
      OpCode("ldind::u4", 0x4B, InlineNone),
      OpCode("ldind::i8", 0x4C, InlineNone),
      OpCode("ldind::i", 0x4D, InlineNone),
      OpCode("ldind::r4", 0x4E, InlineNone),
      OpCode("ldind::r8", 0x4F, InlineNone),
      OpCode("ldind::ref", 0x50, InlineNone),
      OpCode("stind::ref", 0x51, InlineNone),
      OpCode("stind::i1", 0x52, InlineNone),
      OpCode("stind::i2", 0x53, InlineNone),
      OpCode("stind::i4", 0x54, InlineNone),
      OpCode("stind::i8", 0x55, InlineNone),
      OpCode("stind::r4", 0x56, InlineNone),
      OpCode("stind::r8", 0x57, InlineNone),
      OpCode("add", 0x58, InlineNone),
      OpCode("sub", 0x59, InlineNone),
      OpCode("mul", 0x5A, InlineNone),
      OpCode("div", 0x5B, InlineNone),
      OpCode("div::un", 0x5C, InlineNone),
      OpCode("rem", 0x5D, InlineNone),
      OpCode("rem::un", 0x5E, InlineNone),
      OpCode("and", 0x5F, InlineNone),
      OpCode("or", 0x60, InlineNone),
      OpCode("xor", 0x61, InlineNone),
      OpCode("shl", 0x62, InlineNone),
      OpCode("shr", 0x63, InlineNone),
      OpCode("shr::un", 0x64, InlineNone),
      OpCode("neg", 0x65, InlineNone),
      OpCode("not", 0x66, InlineNone),
      OpCode("conv::i1", 0x67, InlineNone),
      OpCode("conv::i2", 0x68, InlineNone),
      OpCode("conv::i4", 0x69, InlineNone),
      OpCode("conv::i8", 0x6A, InlineNone),
      OpCode("conv::r4", 0x6B, InlineNone),
      OpCode("conv::r8", 0x6C, InlineNone),
      OpCode("conv::u4", 0x6D, InlineNone),
      OpCode("conv::u8", 0x6E, InlineNone),
      OpCode("callvirt", 0x6F, InlineMethod),
      OpCode("cpobj", 0x70, InlineType),
      OpCode("ldobj", 0x71, InlineType),
      OpCode("ldstr", 0x72, InlineString),
      OpCode("newobj", 0x73, InlineMethod),
      OpCode("castclass", 0x74, InlineType),
      OpCode("isinst", 0x75, InlineType),
      OpCode("conv::r::un", 0x76, InlineNone),
      OpCode("unbox", 0x79, InlineType),
      OpCode("throw", 0x7A, InlineNone),
      OpCode("ldfld", 0x7B, InlineField),
      OpCode("ldflda", 0x7C, InlineField),
      OpCode("stfld", 0x7D, InlineField),
      OpCode("ldsfld", 0x7E, InlineField),
      OpCode("ldsflda", 0x7F, InlineField),
      OpCode("stsfld", 0x80, InlineField),
      OpCode("stobj", 0x81, InlineType),
      OpCode("conv::ovf::i1::un", 0x82, InlineNone),
      OpCode("conv::ovf::i2::un", 0x83, InlineNone),
      OpCode("conv::ovf::i4::un", 0x84, InlineNone),
      OpCode("conv::ovf::i8::un", 0x85, InlineNone),
      OpCode("conv::ovf::u1::un", 0x86, InlineNone),
      OpCode("conv::ovf::u2::un", 0x87, InlineNone),
      OpCode("conv::ovf::u4::un", 0x88, InlineNone),
      OpCode("conv::ovf::u8::un", 0x89, InlineNone),
      OpCode("conv::ovf::i::un", 0x8A, InlineNone),
      OpCode("conv::ovf::u::un", 0x8B, InlineNone),
      OpCode("box", 0x8C, InlineType),
      OpCode("newarr", 0x8D, InlineType),
      OpCode("ldlen", 0x8E, InlineNone),
      OpCode("ldelema", 0x8F, InlineType),
      OpCode("ldelem::i1", 0x90, InlineNone),
      OpCode("ldelem::u1", 0x91, InlineNone),
      OpCode("ldelem::i2", 0x92, InlineNone),
      OpCode("ldelem::u2", 0x93, InlineNone),
      OpCode("ldelem::i4", 0x94, InlineNone),
      OpCode("ldelem::u4", 0x95, InlineNone),
      OpCode("ldelem::i8", 0x96, InlineNone),
      OpCode("ldelem::i", 0x97, InlineNone),
      OpCode("ldelem::r4", 0x98, InlineNone),
      OpCode("ldelem::r8", 0x99, InlineNone),
      OpCode("ldelem::ref", 0x9A, InlineNone),
      OpCode("stelem::i", 0x9B, InlineNone),
      OpCode("stelem::i1", 0x9C, InlineNone),
      OpCode("stelem::i2", 0x9D, InlineNone),
      OpCode("stelem::i4", 0x9E, InlineNone),
      OpCode("stelem::i8", 0x9F, InlineNone),
      OpCode("stelem::r4", 0xA0, InlineNone),
      OpCode("stelem::r8", 0xA1, InlineNone),
      OpCode("stelem::ref", 0xA2, InlineNone),
      OpCode("ldelem", 0xA3, InlineType),
      OpCode("stelem", 0xA4, InlineType),
      OpCode("unbox::any", 0xA5, InlineType),
      OpCode("conv::ovf::i1", 0xB3, InlineNone),
      OpCode("conv::ovf::u1", 0xB4, InlineNone),
      OpCode("conv::ovf::i2", 0xB5, InlineNone),
      OpCode("conv::ovf::u2", 0xB6, InlineNone),
      OpCode("conv::ovf::i4", 0xB7, InlineNone),
      OpCode("conv::ovf::u4", 0xB8, InlineNone),
      OpCode("conv::ovf::i8", 0xB9, InlineNone),
      OpCode("conv::ovf::u8", 0xBA, InlineNone),
      OpCode("refanyval", 0xC2, InlineType),
      OpCode("ckfinite", 0xC3, InlineNone),
      OpCode("mkrefany", 0xC6, InlineType),
      OpCode("ldtoken", 0xD0, InlineTok),
      OpCode("conv::u2", 0xD1, InlineNone),
      OpCode("conv::u1", 0xD2, InlineNone),
      OpCode("conv::i", 0xD3, InlineNone),
      OpCode("conv::ovf::i", 0xD4, InlineNone),
      OpCode("conv::ovf::u", 0xD5, InlineNone),
      OpCode("add::ovf", 0xD6, InlineNone),
      OpCode("add::ovf::un", 0xD7, InlineNone),
      OpCode("mul::ovf", 0xD8, InlineNone),
      OpCode("mul::ovf::un", 0xD9, InlineNone),
      OpCode("sub::ovf", 0xDA, InlineNone),
      OpCode("sub::ovf::un", 0xDB, InlineNone),
      OpCode("endfinally", 0xDC, InlineNone),
      OpCode("leave", 0xDD, InlineBrTarget),
      OpCode("leave::s", 0xDE, ShortInlineBrTarget),
      OpCode("stind::i", 0xDF, InlineNone),
      OpCode("conv::u", 0xE0, InlineNone),
      OpCode("prefix7", 0xF8, InlineNone),
      OpCode("prefix6", 0xF9, InlineNone),
      OpCode("prefix5", 0xFA, InlineNone),
      OpCode("prefix4", 0xFB, InlineNone),
      OpCode("prefix3", 0xFC, InlineNone),
      OpCode("prefix2", 0xFD, InlineNone),
      OpCode("prefix1", 0xFE, InlineNone),
      OpCode("prefixref", 0xFF, InlineNone),
      OpCode("arglist", 0xFE00, InlineNone),
      OpCode("ceq", 0xFE01, InlineNone),
      OpCode("cgt", 0xFE02, InlineNone),
      OpCode("cgt::un", 0xFE03, InlineNone),
      OpCode("clt", 0xFE04, InlineNone),
      OpCode("clt::un", 0xFE05, InlineNone),
      OpCode("ldftn", 0xFE06, InlineMethod),
      OpCode("ldvirtftn", 0xFE07, InlineMethod),
      OpCode("ldarg", 0xFE09, InlineVar),
      OpCode("ldarga", 0xFE0A, InlineVar),
      OpCode("starg", 0xFE0B, InlineVar),
      OpCode("ldloc", 0xFE0C, InlineVar),
      OpCode("ldloca", 0xFE0D, InlineVar),
      OpCode("stloc", 0xFE0E, InlineVar),
      OpCode("localloc", 0xFE0F, InlineNone),
      OpCode("endfilter", 0xFE11, InlineNone),
      OpCode("unaligned::", 0xFE12, ShortInlineI),
      OpCode("volatile::", 0xFE13, InlineNone),
      OpCode("tail::", 0xFE14, InlineNone),
      OpCode("initobj", 0xFE15, InlineType),
      OpCode("constrained::", 0xFE16, InlineType),
      OpCode("cpblk", 0xFE17, InlineNone),
      OpCode("initblk", 0xFE18, InlineNone),
      OpCode("no::", 0xFE19, ShortInlineI),
      OpCode("rethrow", 0xFE1A, InlineNone),
      OpCode("sizeof", 0xFE1C, InlineType),
      OpCode("refanytype", 0xFE1D, InlineNone),
      OpCode("readonly::", 0xFE1E, InlineNone)
    ]
}
