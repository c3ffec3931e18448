/**
 * The profiler's rewriting of method bodies: PatchMethodBody redirects chosen
 * call and callvirt instructions to new method tokens, and
 * CreateManagedWrapperMethod generates the tiny body of a method that loads
 * its arguments and calls the wrapped method. The profiler API calls that
 * fetch, allocate and install bodies are left out: the original body is a
 * parameter and the new body is the result.
 */
module Instrumentation {
  import opened Bytes
  import opened OpCodes
  import opened MethodBodyHelpers
  import ByteArrayHelpers

  /** A metadata token, a 32-bit value. */
  type Token = x: nat | x < 0x1_0000_0000

  datatype HResult = S_OK | E_FAIL

  /** The tables give call and callvirt a method-token operand, as Initialize registers them. */
  predicate CallsTakeTokens(t: Tables)
    requires |t.one| == 256 && |t.two| == 256
  {
    && (Lookup(t, Call).Some? ==> Lookup(t, Call).value.operandType == InlineMethod)
    && (Lookup(t, Callvirt).Some? ==> Lookup(t, Callvirt).value.operandType == InlineMethod)
  }

  /** The token a call-like instruction names: its signed operand read as an mdToken. */
  function TokenOf(ins: Instruction): Token
    requires ins.operand.Some? && ins.operand.value.Int?
  {
    ToUnsigned(ins.operand.value.arg, 4)
  }

  /** A call or callvirt whose token is one of those to patch. */
  predicate IsPatchSite(ins: Instruction, tokens: map<Token, Token>)
  {
    && (ins.opCode.code == Call || ins.opCode.code == Callvirt)
    && ins.operand.Some? && ins.operand.value.Int?
    && TokenOf(ins) in tokens
  }

  /** The patch sites met by reading instructions from ip while ip is below end. */
  ghost function ScanSites(t: Tables, data: seq<byte>, ip: int, end: int, tokens: map<Token, Token>): Result<seq<Instruction>>
    requires WellFormed(t)
    decreases end - ip
  {
    if ip >= end then Ok([])
    else match ReadInstruction(t, data, ip)
      case Err(e) => Err(e)
      case Ok((ins, next)) =>
        if next <= ip then Err(NoProgress)
        else match ScanSites(t, data, next, end, tokens)
          case Err(e) => Err(e)
          case Ok(rest) => Ok((if IsPatchSite(ins, tokens) then [ins] else []) + rest)
  }

  /** The patch sites of a whole body: from just past its header to the end of its code. */
  ghost function Sites(t: Tables, data: seq<byte>, tokens: map<Token, Token>): Result<seq<Instruction>>
    requires WellFormed(t)
  {
    match ReadHeaderInfo(data, 0)
    case Err(e) => Err(e)
    case Ok((info, ip)) => ScanSites(t, data, ip, info.codeSize + info.headerSize, tokens)
  }

  /** found followed by the result of the rest of a scan. */
  function Then(found: seq<Instruction>, r: Result<seq<Instruction>>): Result<seq<Instruction>>
  {
    match r
    case Err(e) => Err(e)
    case Ok(rest) => Ok(found + rest)
  }

  /** One step of a scan: the site the instruction at ip contributes, then the rest of the scan. */
  lemma ScanStep(t: Tables, data: seq<byte>, ip: int, end: int, tokens: map<Token, Token>)
    requires WellFormed(t) && ip < end
    requires ReadInstruction(t, data, ip).Ok? && ReadInstruction(t, data, ip).value.1 > ip
    ensures var (ins, next) := ReadInstruction(t, data, ip).value;
      ScanSites(t, data, ip, end, tokens) == Then(if IsPatchSite(ins, tokens) then [ins] else [], ScanSites(t, data, next, end, tokens))
  {
  }

  /** A scan stops with the error of the instruction it cannot read, or when an instruction does not advance. */
  lemma ScanStops(t: Tables, data: seq<byte>, ip: int, end: int, tokens: map<Token, Token>)
    requires WellFormed(t) && ip < end
    ensures ReadInstruction(t, data, ip).Err? ==> ScanSites(t, data, ip, end, tokens) == Err(ReadInstruction(t, data, ip).error)
    ensures ReadInstruction(t, data, ip).Ok? && ReadInstruction(t, data, ip).value.1 <= ip ==>
      ScanSites(t, data, ip, end, tokens) == Err(NoProgress)
  {
  }

  lemma ThenEmpty(r: Result<seq<Instruction>>)
    ensures Then([], r) == r
  {
    if r.Ok? {
      assert [] + r.value == r.value;
    }
  }

  lemma ThenAssoc(a: seq<Instruction>, b: seq<Instruction>, r: Result<seq<Instruction>>)
    ensures Then(a, Then(b, r)) == Then(a + b, r)
  {
    if r.Ok? {
      assert a + (b + r.value) == (a + b) + r.value;
    }
  }

  /**
   * Sites in ascending order at least five bytes apart, each a one-byte call
   * or callvirt at or after lo whose four operand bytes lie inside the body
   * and hold its token.
   */
  ghost predicate WellPlaced(sites: seq<Instruction>, data: seq<byte>, lo: int, tokens: map<Token, Token>)
  {
    && (forall i :: 0 <= i < |sites| ==>
          && IsPatchSite(sites[i], tokens)
          && 0 <= lo <= sites[i].offset && sites[i].offset + 5 <= |data|
          && data[sites[i].offset] in {Call as int, Callvirt as int}
          && FromLE(data[sites[i].offset + 1..sites[i].offset + 5]) == TokenOf(sites[i]))
    && (forall i, j :: 0 <= i < j < |sites| ==> sites[i].offset + 5 <= sites[j].offset)
  }

  /** One instruction that is a patch site is a one-byte opcode followed by its four token bytes. */
  lemma PatchSiteShape(t: Tables, data: seq<byte>, ip: int, tokens: map<Token, Token>)
    requires WellFormed(t) && CallsTakeTokens(t)
    requires ReadInstruction(t, data, ip).Ok? && IsPatchSite(ReadInstruction(t, data, ip).value.0, tokens)
    ensures var (ins, next) := ReadInstruction(t, data, ip).value;
      && next == ip + 5 && 0 <= ip && ip + 5 <= |data| && ins.offset == ip
      && data[ip] in {Call as int, Callvirt as int}
      && FromLE(data[ip + 1..ip + 5]) == TokenOf(ins)
  {
    var (op, afterOp) := ReadOpCode(t, data, ip).value;
    assert op.code / 256 == 0;
    assert data[ip] != 0xFE;
    assert op.operandType == InlineMethod;
  }

  /** The sites a scan finds are well placed. */
  lemma {:induction false} ScanSitesWellPlaced(t: Tables, data: seq<byte>, ip: int, end: int, tokens: map<Token, Token>)
    requires WellFormed(t) && CallsTakeTokens(t)
    requires ScanSites(t, data, ip, end, tokens).Ok?
    ensures WellPlaced(ScanSites(t, data, ip, end, tokens).value, data, ip, tokens)
    decreases end - ip
  {
    if ip < end {
      var (ins, next) := ReadInstruction(t, data, ip).value;
      ScanSitesWellPlaced(t, data, next, end, tokens);
      var rest := ScanSites(t, data, next, end, tokens).value;
      if IsPatchSite(ins, tokens) {
        PatchSiteShape(t, data, ip, tokens);
        WellPlacedCons(ins, rest, data, ip, tokens);
      } else {
        WellPlacedLower(rest, data, next, ip, tokens);
        assert ScanSites(t, data, ip, end, tokens).value == rest;
      }
    }
  }

  lemma WellPlacedLower(sites: seq<Instruction>, data: seq<byte>, lo: int, lo': int, tokens: map<Token, Token>)
    requires WellPlaced(sites, data, lo, tokens) && 0 <= lo' <= lo
    ensures WellPlaced(sites, data, lo', tokens)
  {
  }

  lemma WellPlacedCons(ins: Instruction, rest: seq<Instruction>, data: seq<byte>, ip: int, tokens: map<Token, Token>)
    requires WellPlaced(rest, data, ip + 5, tokens) && 0 <= ip && ins.offset == ip && ip + 5 <= |data|
    requires IsPatchSite(ins, tokens) && data[ip] in {Call as int, Callvirt as int}
    requires FromLE(data[ip + 1..ip + 5]) == TokenOf(ins)
    ensures WellPlaced([ins] + rest, data, ip, tokens)
  {
    var s := [ins] + rest;
    forall i | 0 <= i < |s|
      ensures && IsPatchSite(s[i], tokens)
              && 0 <= ip <= s[i].offset && s[i].offset + 5 <= |data|
              && data[s[i].offset] in {Call as int, Callvirt as int}
              && FromLE(data[s[i].offset + 1..s[i].offset + 5]) == TokenOf(s[i])
    {
      if i > 0 {
        assert s[i] == rest[i - 1];
      }
    }
    forall i, j | 0 <= i < j < |s|
      ensures s[i].offset + 5 <= s[j].offset
    {
      assert s[j] == rest[j - 1];
      if i > 0 {
        assert s[i] == rest[i - 1];
      }
    }
  }

  /** Every site is a call or callvirt whose token is in the map and whose operand lies inside the body. */
  predicate Patchable(sites: seq<Instruction>, body: seq<byte>, tokens: map<Token, Token>)
  {
    forall i :: 0 <= i < |sites| ==> IsPatchSite(sites[i], tokens) && 0 <= sites[i].offset && sites[i].offset + 5 <= |body|
  }

  /** The body with the new token of each of the first n sites written little-endian over its operand. */
  function ApplyPatches(body: seq<byte>, sites: seq<Instruction>, n: nat, tokens: map<Token, Token>): (r: seq<byte>)
    requires n <= |sites| && Patchable(sites, body, tokens)
    ensures |r| == |body|
  {
    if n == 0 then body
    else
      var last := sites[n - 1];
      ByteArrayHelpers.Splice(ApplyPatches(body, sites, n - 1, tokens), last.offset + 1, LE(tokens[TokenOf(last)], 4))
  }

  /** Patching well-placed sites keeps every byte that lies outside all of their operands. */
  lemma {:induction false} ApplyPatchesOutside(body: seq<byte>, sites: seq<Instruction>, n: nat, lo: int, tokens: map<Token, Token>, k: int)
    requires WellPlaced(sites, body, lo, tokens) && n <= |sites| && 0 <= k < |body|
    requires forall i :: 0 <= i < |sites| ==> !(sites[i].offset < k <= sites[i].offset + 4)
    ensures ApplyPatches(body, sites, n, tokens)[k] == body[k]
  {
    if n > 0 {
      ApplyPatchesOutside(body, sites, n - 1, lo, tokens, k);
      var last := sites[n - 1];
      ByteArrayHelpers.SpliceBytes(ApplyPatches(body, sites, n - 1, tokens), last.offset + 1, LE(tokens[TokenOf(last)], 4));
      assert !(sites[n - 1].offset < k <= sites[n - 1].offset + 4);
    }
  }

  /** After patching the first n well-placed sites, the operand of each of them reads back as its new token. */
  lemma {:induction false} ApplyPatchesAt(body: seq<byte>, sites: seq<Instruction>, n: nat, lo: int, tokens: map<Token, Token>, i: nat)
    requires WellPlaced(sites, body, lo, tokens) && i < n <= |sites|
    ensures FromLE(ApplyPatches(body, sites, n, tokens)[sites[i].offset + 1..sites[i].offset + 5]) == tokens[TokenOf(sites[i])]
  {
    var last := sites[n - 1];
    var o := sites[i].offset;
    var before := ApplyPatches(body, sites, n - 1, tokens);
    ByteArrayHelpers.SpliceBytes(before, last.offset + 1, LE(tokens[TokenOf(last)], 4));
    if i == n - 1 {
      LERoundTrip(tokens[TokenOf(last)], 4);
    } else {
      ApplyPatchesAt(body, sites, n - 1, lo, tokens, i);
      assert o + 5 <= last.offset;
      var after := ApplyPatches(body, sites, n, tokens);
      assert after[o + 1..o + 5] == before[o + 1..o + 5];
    }
  }

  /** Writing the token of site k over the body patched up to k is the body patched up to k + 1. */
  lemma PatchWritten(body: seq<byte>, sites: seq<Instruction>, tokens: map<Token, Token>, k: nat, s1: seq<byte>, s: seq<byte>)
    requires Patchable(sites, body, tokens) && k < |sites|
    requires s1 == ApplyPatches(body, sites, k, tokens)
    requires s == ByteArrayHelpers.Splice(s1, sites[k].offset + 1, LE(tokens[TokenOf(sites[k])], 4))
    ensures s == ApplyPatches(body, sites, k + 1, tokens)
  {
  }

  /**
   * The first loop of PatchMethodBody: reads the header, then every
   * instruction up to the end of the code, keeping the calls and callvirts
   * whose token is in the map.
   */
  method FindPatchSites(t: Tables, methodBody: seq<byte>, tokens: map<Token, Token>) returns (r: Result<seq<Instruction>>)
    requires WellFormed(t) && CallsTakeTokens(t)
    ensures r == Sites(t, methodBody, tokens)
    ensures r.Ok? ==> WellPlaced(r.value, methodBody, 0, tokens)
  {
    var header := ReadHeaderInfo(methodBody, 0);
    if header.Err? {
      return Err(header.error);
    }
    var (info, ip) := header.value;
    var ip0 := ip;
    var end := info.codeSize + info.headerSize;
    var found: seq<Instruction> := [];
    assert Sites(t, methodBody, tokens) == ScanSites(t, methodBody, ip0, end, tokens);
    ThenEmpty(ScanSites(t, methodBody, ip, end, tokens));
    while ip < end
      invariant Then(found, ScanSites(t, methodBody, ip, end, tokens)) == ScanSites(t, methodBody, ip0, end, tokens)
      decreases end - ip
    {
      var read := ReadInstruction(t, methodBody, ip);
      ScanStops(t, methodBody, ip, end, tokens);
      if read.Err? {
        return Err(read.error);
      }
      var (instruction, next) := read.value;
      if next <= ip {
        return Err(NoProgress);
      }
      ghost var rest := ScanSites(t, methodBody, next, end, tokens);
      ScanStep(t, methodBody, ip, end, tokens);
      if IsPatchSite(instruction, tokens) {
        ThenAssoc(found, [instruction], rest);
        found := found + [instruction];
      } else {
        ThenAssoc(found, [], rest);
        assert found + [] == found;
      }
      ip := next;
    }
    assert found + [] == found;
    r := Ok(found);
    ScanSitesWellPlaced(t, methodBody, ip0, end, tokens);
    WellPlacedLower(found, methodBody, ip0, 0, tokens);
  }

  /**
   * The second loop of PatchMethodBody: a copy of the body with the new
   * token of each site written over its operand.
   */
  method PatchSites(methodBody: seq<byte>, found: seq<Instruction>, tokens: map<Token, Token>) returns (newBody: array<byte>)
    requires Patchable(found, methodBody, tokens)
    ensures fresh(newBody) && newBody[..] == ApplyPatches(methodBody, found, |found|, tokens)
  {
    newBody := new byte[|methodBody|](i requires 0 <= i < |methodBody| => methodBody[i]);
    var k := 0;
    while k < |found|
      invariant 0 <= k <= |found| && newBody.Length == |methodBody|
      invariant newBody[..] == ApplyPatches(methodBody, found, k, tokens)
    {
      var instruction := found[k];
      var newToken := tokens[TokenOf(instruction)];
      ghost var s1 := newBody[..];
      var _ := ByteArrayHelpers.WriteUInt32(newBody, instruction.offset + 1, newToken);
      PatchWritten(methodBody, found, tokens, k, s1, newBody[..]);
      k := k + 1;
    }
  }

  /**
   * Redirects the calls a body makes: an empty token map fails at once;
   * otherwise each call or callvirt whose token is in the map gets the mapped
   * token written little-endian over its operand in a copy of the body, and
   * finding no such instruction fails too.
   */
  method PatchMethodBody(t: Tables, methodBody: seq<byte>, tokens: map<Token, Token>) returns (hr: Result<HResult>, newBody: array<byte>)
    requires WellFormed(t) && CallsTakeTokens(t)
    ensures tokens == map[] ==> hr == Ok(E_FAIL)
    ensures tokens != map[] ==> (hr.Err? <==> Sites(t, methodBody, tokens).Err?)
    ensures tokens != map[] && Sites(t, methodBody, tokens).Ok? ==>
      (hr == Ok(S_OK) <==> Sites(t, methodBody, tokens).value != [])
    ensures hr == Ok(S_OK) ==>
      && Sites(t, methodBody, tokens).Ok?
      && WellPlaced(Sites(t, methodBody, tokens).value, methodBody, 0, tokens)
      && newBody[..] == ApplyPatches(methodBody, Sites(t, methodBody, tokens).value, |Sites(t, methodBody, tokens).value|, tokens)
  {
    newBody := new byte[0];
    if |tokens| == 0 {
      assert tokens == map[];
      return Ok(E_FAIL), newBody;
    }
    var sites := FindPatchSites(t, methodBody, tokens);
    if sites.Err? {
      return Err(sites.error), newBody;
    }
    var found := sites.value;
    if |found| == 0 {
      return Ok(E_FAIL), newBody;
    }
    newBody := PatchSites(methodBody, found, tokens);
    hr := Ok(S_OK);
  }

  /** The argument loads of a wrapper: ldarg.0-3 for the first four, ldarg.s i after. */
  function LoadArguments(n: nat): (code: seq<byte>)
    requires n <= 256
    ensures |code| == if n <= 4 then n else 2 * n - 4
  {
    if n == 0 then [] else LoadArguments(n - 1) + LoadArgument(n - 1)
  }

  /** Argument i is loaded by ldarg.i at position i when i <= 3, and by ldarg.s i at position 2i - 4 after. */
  lemma {:induction false} LoadArgumentsLayout(n: nat)
    requires n <= 256
    ensures forall i :: 0 <= i < n && i <= 3 ==> LoadArguments(n)[i] == Ldarg_0 + i
    ensures forall i :: 4 <= i < n ==> LoadArguments(n)[2 * i - 4] == Ldarg_S && LoadArguments(n)[2 * i - 3] == i
  {
    if n > 0 {
      LoadArgumentsLayout(n - 1);
      assert LoadArguments(n) == LoadArguments(n - 1) + LoadArgument(n - 1);
    }
  }

  function LoadArgument(i: nat): seq<byte>
    requires i < 256
  {
    if i <= 3 then [(Ldarg_0 + i) as byte] else [Ldarg_S as byte, i as byte]
  }

  /** The tiny method header byte 0x02 | size << 2 of a body with size bytes of code. */
  function TinyHeader(size: nat): (b: byte)
    requires size < 64
    ensures b % 4 == 2 && b / 4 == size
  {
    (2 + 4 * size) as byte
  }

  /** The code of a wrapper: load every argument, call the wrapped method, return. */
  function WrapperCode(parametersCount: nat, wrapped: Token): seq<byte>
    requires parametersCount <= 255
  {
    LoadArguments(parametersCount) + [Call as byte] + LE(wrapped, 4) + [Ret as byte]
  }

  /** The four bytes `(BYTE)(token >> 8k)` are the little-endian encoding of the token. */
  lemma TokenBytes(wrapped: Token)
    ensures [wrapped % 0x100, (wrapped / 0x100) % 0x100, (wrapped / 0x1_0000) % 0x100, (wrapped / 0x100_0000) % 0x100] == LE(wrapped, 4)
  {
    assert Pow256(1) == 0x100 && Pow256(2) == 0x1_0000 && Pow256(3) == 0x100_0000;
    var l := LE(wrapped, 4);
    assert l[0] == wrapped % 0x100 && l[1] == (wrapped / 0x100) % 0x100;
    assert l[2] == (wrapped / 0x1_0000) % 0x100 && l[3] == (wrapped / 0x100_0000) % 0x100;
  }

  /** A wrapper with up to 30 parameters fits a tiny header; one more parameter does not. */
  lemma {:induction false} WrapperFitsIff(parametersCount: nat, wrapped: Token)
    requires parametersCount <= 255
    ensures |WrapperCode(parametersCount, wrapped)| <= 63 <==> parametersCount <= 30
  {
  }

  /** The name, flags and body CreateManagedWrapperMethod gives the wrapper on success. */
  datatype Wrapper = Wrapper(name: string, flags: bv32, implFlags: bv32, body: seq<byte>)

  /** mdSpecialName | mdRTSpecialName. */
  const SpecialNameFlags: bv32 := 0x0800 | 0x1000
  /** miIL | miManaged | miNoInlining | miNoOptimization. */
  const WrapperImplFlags: bv32 := 0x0000 | 0x0000 | 0x0008 | 0x0040

  /**
   * Generates the wrapper of a method: the second byte of its signature is the
   * parameter count; the code loads each argument, calls the wrapped method
   * by token and returns; code longer than 63 bytes fails, as only a tiny
   * header is written. The wrapper's name is set before that check, so a
   * failure still hands it back.
   */
  method CreateManagedWrapperMethod(wrappedName: string, methodFlags: bv32, signature: seq<byte>, wrapped: Token)
    returns (hr: HResult, wrapper: Wrapper)
    requires |signature| >= 2
    ensures hr == S_OK <==> signature[1] <= 30
    ensures wrapper.name == "." + wrappedName
    ensures hr == S_OK ==>
      && wrapper.flags == methodFlags | SpecialNameFlags
      && wrapper.implFlags == WrapperImplFlags
      && wrapper.body == [TinyHeader(|WrapperCode(signature[1], wrapped)|)] + WrapperCode(signature[1], wrapped)
  {
    var parametersCount := signature[1];
    var flags := methodFlags | SpecialNameFlags;
    var name := "." + wrappedName;
    var code := EmitWrapperCode(parametersCount, wrapped);
    WrapperFitsIff(parametersCount, wrapped);
    if |code| > 63 {
      return E_FAIL, Wrapper(name, 0, 0, []);
    }
    var header := (2 + 4 * |code|) as byte;
    hr := S_OK;
    wrapper := Wrapper(name, flags, WrapperImplFlags, [header] + code);
  }

  /** The code CreateManagedWrapperMethod emits before checking that it fits a tiny header. */
  method EmitWrapperCode(parametersCount: byte, wrapped: Token) returns (code: seq<byte>)
    ensures code == WrapperCode(parametersCount, wrapped)
  {
    code := [];
    var index := 0;
    while index < parametersCount
      invariant 0 <= index <= parametersCount
      invariant code == LoadArguments(index)
    {
      assert LoadArguments(index + 1) == LoadArguments(index) + LoadArgument(index);
      if index <= 3 {
        code := code + [(Ldarg_0 + index) as byte];
      } else {
        code := code + [Ldarg_S as byte, index as byte];
      }
      index := index + 1;
    }
    code := code + [Call as byte];
    var tokenBytes := TokenOperand(wrapped);
    code := code + tokenBytes;
    code := code + [Ret as byte];
  }

  /** The four operand bytes `(BYTE)(token >> 8k)` the wrapper writes after its call opcode. */
  method TokenOperand(wrapped: Token) returns (bytes: seq<byte>)
    ensures bytes == LE(wrapped, 4)
  {
    bytes := [wrapped % 0x100, (wrapped / 0x100) % 0x100, (wrapped / 0x1_0000) % 0x100, (wrapped / 0x100_0000) % 0x100];
    TokenBytes(wrapped);
  }

  /** Reading the header of a wrapper body gives a one-byte header and the wrapper's code size. */
  lemma WrapperHeaderRoundTrip(parametersCount: nat, wrapped: Token)
    requires parametersCount <= 30
    ensures var code := WrapperCode(parametersCount, wrapped);
      ReadHeaderInfo([TinyHeader(|code|)] + code, 0) == Ok((HeaderInfo(1, |code|), 1))
  {
    WrapperFitsIff(parametersCount, wrapped);
  }
}
