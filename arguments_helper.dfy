/**
 * Decoding of the argument values the profiler captures for a method call.
 * The profiler copies each argument's bytes one after the other and, for
 * each, a 4-byte info `(index << 16) | size`; the analysis walks the infos,
 * cutting the values into one slice per argument and reading each slice
 * according to the declared parameter type.
 */
module ArgumentsHelper {
  import opened Bytes

  /** The element types a parameter signature can name; Other stands for the rest. */
  datatype ElementType = Boolean | Char | I1 | U1 | I2 | U2 | I4 | U4 | I8 | U8 | R4 | R8 | Other

  /** A parameter's type signature: a by-ref wrapper, or a type that is or is not a value type. */
  datatype TypeSig = ByRef(next: TypeSig) | Sig(isValueType: bool, elementType: ElementType)

  /**
   * A parsed argument: a reference as its address (0 for null), an integral
   * or character value, or the raw bits of a floating-point value.
   */
  datatype ValueOrPointer =
    | Pointer(address: nat)
    | Value(elementType: ElementType, value: int)
    | FloatingBits(elementType: ElementType, bits: nat)

  datatype ParseError = NotSupported | ValueTooShort | ParameterOutOfRange | ValuesOutOfRange

  datatype Result<T> = Success(value: T) | Failure(error: ParseError)

  /** One entry of the output: the parameter index and its parsed argument. */
  datatype Argument = Argument(index: nat, argument: ValueOrPointer)

  /** sizeof(UIntPtr) on the 64-bit runtime the profiler targets. */
  const PointerSize := 8

  /** The number of bytes MemoryMarshal.Read takes for a value type. */
  function Width(e: ElementType): nat
  {
    match e
    case Boolean => 1
    case Char => 2
    case I1 => 1
    case U1 => 1
    case I2 => 2
    case U2 => 2
    case I4 => 4
    case U4 => 4
    case I8 => 8
    case U8 => 8
    case R4 => 4
    case R8 => 8
    case Other => 0
  }

  predicate IsSigned(e: ElementType)
  {
    e == I1 || e == I2 || e == I4 || e == I8
  }

  predicate IsFloating(e: ElementType)
  {
    e == R4 || e == R8
  }

  /** The signature an argument is read as: a by-ref parameter's value was already loaded by the profiler. */
  function Dereferenced(parameter: TypeSig): TypeSig
  {
    if parameter.ByRef? then parameter.next else parameter
  }

  /** Parses one argument's bytes according to its parameter's signature. */
  function ParseArgument(parameter: TypeSig, value: seq<byte>): (r: Result<ValueOrPointer>)
    ensures r.Success? && r.value.Pointer? <==> !(Dereferenced(parameter).Sig? && Dereferenced(parameter).isValueType) && |value| >= PointerSize
    ensures r == Failure(NotSupported) <==> Dereferenced(parameter).Sig? && Dereferenced(parameter).isValueType && Dereferenced(parameter).elementType == Other
  {
    var paramSig := Dereferenced(parameter);
    if !(paramSig.Sig? && paramSig.isValueType) then
      if |value| < PointerSize then Failure(ValueTooShort) else Success(Pointer(FromLE(value[..PointerSize])))
    else
      var e := paramSig.elementType;
      if e == Other then Failure(NotSupported)
      else if |value| < Width(e) then Failure(ValueTooShort)
      else
        var raw := FromLE(value[..Width(e)]);
        if e == Boolean then Success(Value(e, if raw != 0 then 1 else 0))
        else if IsFloating(e) then Success(FloatingBits(e, raw))
        else if IsSigned(e) then Success(Value(e, ToSigned(raw, Width(e))))
        else Success(Value(e, raw))
  }

  /** A little-endian value is zero exactly when all its bytes are. */
  lemma {:induction false} FromLEZero(s: seq<byte>)
    ensures FromLE(s) == 0 <==> forall k :: 0 <= k < |s| ==> s[k] == 0
  {
    if s != [] {
      FromLEZero(s[1..]);
      assert forall k :: 1 <= k < |s| ==> s[k] == s[1..][k - 1];
    }
  }

  /** A reference argument is null exactly when its eight bytes are zero. */
  lemma PointerNull(parameter: TypeSig, value: seq<byte>)
    requires !(Dereferenced(parameter).Sig? && Dereferenced(parameter).isValueType) && |value| >= PointerSize
    ensures ParseArgument(parameter, value) == Success(Pointer(0)) <==> forall k :: 0 <= k < PointerSize ==> value[k] == 0
  {
    FromLEZero(value[..PointerSize]);
  }

  /** The values an integral or character type holds. */
  predicate Representable(e: ElementType, v: int)
  {
    if e == Boolean then 0 <= v <= 1
    else if IsSigned(e) then -SignBound(Width(e)) <= v < SignBound(Width(e))
    else 0 <= v < Pow256(Width(e))
  }

  /**
   * Reading back the bytes of an integral or character value, as the
   * profiler copies them, gives the value.
   */
  lemma ParseArgumentRoundTrip(e: ElementType, v: int)
    requires e != Other && !IsFloating(e) && Representable(e, v)
    ensures ParseArgument(Sig(true, e), LE(ToUnsigned(v, Width(e)), Width(e))) == Success(Value(e, v))
  {
    var n := Width(e);
    var bytes := LE(ToUnsigned(v, n), n);
    assert bytes[..n] == bytes;
    LERoundTrip(ToUnsigned(v, n), n);
    if IsSigned(e) {
      SignedRoundTrip(v, n);
    }
  }

  /** A 32-bit unsigned word: uint in C#, UINT in the profiler. */
  type u32 = x: int | 0 <= x < 0x1_0000_0000

  /**
   * The parameter index: `(info & 0xFFFF0000) >> 16`, the upper 16 bits,
   * which for a 32-bit word is its quotient by 2^16.
   */
  function Index(info: u32): (r: nat)
    ensures r < 0x1_0000
  {
    info / 0x1_0000
  }

  /** The argument size: `info & 0x0000FFFF`, the lower 16 bits. */
  function Size(info: u32): (r: nat)
    ensures r < 0x1_0000
  {
    info % 0x1_0000
  }

  /** The profiler's encoding `(index << 16) | size` of 16-bit fields. */
  function Pack(index: nat, size: nat): (r: u32)
    requires index < 0x1_0000 && size < 0x1_0000
  {
    index * 0x1_0000 + size
  }

  /** Decoding recovers both fields of the profiler's encoding. */
  lemma PackRoundTrip(index: nat, size: nat)
    requires index < 0x1_0000 && size < 0x1_0000
    ensures Index(Pack(index, size)) == index && Size(Pack(index, size)) == size
  {
    ModOfDecomposition(Pack(index, size), 0x1_0000, index, size);
  }

  /** Every info is the encoding of its own index and size. */
  lemma UnpackRoundTrip(info: u32)
    ensures Pack(Index(info), Size(info)) == info
  {
  }

  /** The infos as MemoryMarshal.Cast reads them: whole 4-byte little-endian words, trailing bytes ignored. */
  function Infos(offsets: seq<byte>): (r: seq<u32>)
    ensures |r| == |offsets| / 4
    ensures forall i :: 0 <= i < |r| ==> r[i] == FromLEWord(offsets[4 * i..4 * i + 4])
  {
    if |offsets| < 4 then []
    else
      var rest := Infos(offsets[4..]);
      assert forall i :: 1 <= i < |offsets| / 4 ==> offsets[4 * i..4 * i + 4] == offsets[4..][4 * (i - 1)..4 * (i - 1) + 4];
      [FromLEWord(offsets[..4])] + rest
  }

  function FromLEWord(word: seq<byte>): u32
    requires |word| == 4
  {
    assert Pow256(1) == 0x100 && Pow256(2) == 0x1_0000 && Pow256(3) == 0x100_0000;
    assert Pow256(4) == 0x1_0000_0000;
    FromLE(word)
  }

  /** The number of value bytes the first `k` infos take. */
  function Consumed(infos: seq<u32>, k: nat): nat
    requires k <= |infos|
  {
    if k == 0 then 0 else Consumed(infos, k - 1) + Size(infos[k - 1])
  }

  /** A per-argument parser: a parameter signature and its bytes to a parsed argument. */
  type Parser = (TypeSig, seq<byte>) -> Result<ValueOrPointer>

  /** Prepends parsed arguments to a result, keeping a failure. */
  function Prepend(arguments: seq<Argument>, rest: Result<seq<Argument>>): Result<seq<Argument>>
  {
    if rest.Success? then Success(arguments + rest.value) else rest
  }

  /**
   * The arguments of the infos from `i` on, reading values from `cursor` on
   * with the per-argument parser `parse` (ParseArgument in the analysis);
   * the first info that names a missing parameter, reaches past the values
   * or does not parse decides the failure.
   */
  function ParseFrom(parse: Parser, parameters: seq<TypeSig>, values: seq<byte>, infos: seq<u32>, i: nat, cursor: nat): Result<seq<Argument>>
    requires i <= |infos|
    decreases |infos| - i
  {
    if i == |infos| then Success([])
    else
      var index, size := Index(infos[i]), Size(infos[i]);
      if index >= |parameters| then Failure(ParameterOutOfRange)
      else if cursor + size > |values| then Failure(ValuesOutOfRange)
      else
        var parsed := parse(parameters[index], values[cursor..cursor + size]);
        if parsed.Failure? then Failure(parsed.error)
        else Prepend([Argument(index, parsed.value)], ParseFrom(parse, parameters, values, infos, i + 1, cursor + size))
  }

  /**
   * A successful parse from `i`, with the cursor past the values of the
   * infos before `i`, has one entry per remaining info, and all the sizes
   * together fit the values.
   */
  lemma {:induction false} ParseFromShape(parse: Parser, parameters: seq<TypeSig>, values: seq<byte>, infos: seq<u32>, i: nat)
    requires i <= |infos| && ParseFrom(parse, parameters, values, infos, i, Consumed(infos, i)).Success?
    ensures |ParseFrom(parse, parameters, values, infos, i, Consumed(infos, i)).value| == |infos| - i
    ensures i < |infos| ==> Consumed(infos, |infos|) <= |values|
    decreases |infos| - i
  {
    if i < |infos| {
      ParseFromShape(parse, parameters, values, infos, i + 1);
    }
  }

  /**
   * Entry `k - i` of a successful parse from `i` holds info `k`'s index and
   * the argument parsed from the bytes between the sizes of the infos
   * before `k` and those up to `k`.
   */
  lemma {:induction false} ParseFromEntry(parse: Parser, parameters: seq<TypeSig>, values: seq<byte>, infos: seq<u32>, i: nat, k: nat)
    requires i <= k < |infos| && ParseFrom(parse, parameters, values, infos, i, Consumed(infos, i)).Success?
    ensures var arguments := ParseFrom(parse, parameters, values, infos, i, Consumed(infos, i)).value;
      && k - i < |arguments|
      && Index(infos[k]) < |parameters|
      && arguments[k - i].index == Index(infos[k])
      && Consumed(infos, k + 1) <= |values|
      && parse(parameters[Index(infos[k])], values[Consumed(infos, k)..Consumed(infos, k + 1)]) == Success(arguments[k - i].argument)
    decreases k - i
  {
    if k > i {
      ParseFromEntry(parse, parameters, values, infos, i + 1, k);
      var arguments := ParseFrom(parse, parameters, values, infos, i, Consumed(infos, i)).value;
      var rest := ParseFrom(parse, parameters, values, infos, i + 1, Consumed(infos, i + 1)).value;
      assert arguments == [arguments[0]] + rest;
      assert arguments[k - i] == rest[k - (i + 1)];
    }
  }

  /**
   * Parses the captured arguments of a method: one entry per 4-byte info,
   * the value cursor advancing by each argument's size.
   */
  method ParseArguments(parameters: seq<TypeSig>, values: seq<byte>, offsets: seq<byte>) returns (result: Result<seq<Argument>>)
    ensures result == ParseFrom(ParseArgument, parameters, values, Infos(offsets), 0, 0)
  {
    var pValues: nat := 0;
    var argInfos := Infos(offsets);
    var arguments: seq<Argument> := [];
    ghost var whole := ParseFrom(ParseArgument, parameters, values, argInfos, 0, 0);
    assert whole.Success? ==> [] + whole.value == whole.value;
    for i := 0 to |argInfos|
      invariant whole == Prepend(arguments, ParseFrom(ParseArgument, parameters, values, argInfos, i, pValues))
    {
      var next := ParseNext(parameters, values, argInfos, i, pValues, arguments);
      if next.Failure? {
        return Failure(next.error);
      }
      arguments := arguments + [next.value.0];
      pValues := next.value.1;
    }
    assert arguments + [] == arguments;
    result := Success(arguments);
  }

  /**
   * The body of the loop of ParseArguments: checks info `i` against the
   * parameters and the values, then parses its argument at the cursor.
   */
  method ParseNext(parameters: seq<TypeSig>, values: seq<byte>, argInfos: seq<u32>, i: nat, pValues: nat, ghost arguments: seq<Argument>)
    returns (next: Result<(Argument, nat)>)
    requires i < |argInfos|
    ensures next.Failure? ==>
      Prepend(arguments, ParseFrom(ParseArgument, parameters, values, argInfos, i, pValues)) == Failure(next.error)
    ensures next.Success? ==> next.value.1 == pValues + Size(argInfos[i])
    ensures next.Success? ==>
      Prepend(arguments, ParseFrom(ParseArgument, parameters, values, argInfos, i, pValues)) ==
      Prepend(arguments + [next.value.0], ParseFrom(ParseArgument, parameters, values, argInfos, i + 1, next.value.1))
  {
    var index := Index(argInfos[i]);
    var size := Size(argInfos[i]);
    ParseStep(ParseArgument, parameters, values, argInfos, i, pValues, arguments);
    if index >= |parameters| {
      return Failure(ParameterOutOfRange);
    }
    if pValues + size > |values| {
      return Failure(ValuesOutOfRange);
    }
    var argument := ParseArgument(parameters[index], values[pValues..pValues + size]);
    if argument.Failure? {
      return Failure(argument.error);
    }
    next := Success((Argument(index, argument.value), pValues + size));
  }

  /** One more info: the failure it causes, or its argument moved from the parse of the rest to the parsed ones. */
  lemma ParseStep(parse: Parser, parameters: seq<TypeSig>, values: seq<byte>, infos: seq<u32>, i: nat, cursor: nat, arguments: seq<Argument>)
    requires i < |infos|
    ensures var index, size := Index(infos[i]), Size(infos[i]);
      Prepend(arguments, ParseFrom(parse, parameters, values, infos, i, cursor)) ==
        if index >= |parameters| then Failure(ParameterOutOfRange)
        else if cursor + size > |values| then Failure(ValuesOutOfRange)
        else
          var parsed := parse(parameters[index], values[cursor..cursor + size]);
          if parsed.Failure? then Failure(parsed.error)
          else Prepend(arguments + [Argument(index, parsed.value)], ParseFrom(parse, parameters, values, infos, i + 1, cursor + size))
  {
    var index, size := Index(infos[i]), Size(infos[i]);
    if index < |parameters| && cursor + size <= |values| {
      var parsed := parse(parameters[index], values[cursor..cursor + size]);
      if parsed.Success? {
        PrependTwice(arguments, [Argument(index, parsed.value)], ParseFrom(parse, parameters, values, infos, i + 1, cursor + size));
      }
    }
  }

  lemma PrependTwice(a: seq<Argument>, b: seq<Argument>, rest: Result<seq<Argument>>)
    ensures Prepend(a, Prepend(b, rest)) == Prepend(a + b, rest)
  {
    if rest.Success? {
      assert a + (b + rest.value) == (a + b) + rest.value;
    }
  }
}
