/**
 * The little-endian array writers: each stores its value at `position` in a
 * byte array and advances the position past what it wrote. The C# `ref int
 * position` is an in-parameter `pos` and an out-parameter `next`.
 */
module ByteArrayHelpers {
  import opened Bytes

  /** s with the bytes w stored from position pos onward. */
  function Splice(s: seq<byte>, pos: nat, w: seq<byte>): (r: seq<byte>)
    requires pos + |w| <= |s|
    ensures |r| == |s|
  {
    seq(|s|, i requires 0 <= i < |s| => if pos <= i < pos + |w| then w[i - pos] else s[i])
  }

  /** Storing w is replacing the |w| bytes at pos by w. */
  lemma SpliceIs(s: seq<byte>, pos: nat, w: seq<byte>)
    requires pos + |w| <= |s|
    ensures Splice(s, pos, w) == s[..pos] + w + s[pos + |w|..]
  {
    var l, r := Splice(s, pos, w), s[..pos] + w + s[pos + |w|..];
    forall i | 0 <= i < |s|
      ensures l[i] == r[i]
    {
      if i < pos {
      } else if i < pos + |w| {
        assert r[i] == w[i - pos];
      } else {
        assert r[i] == s[i];
      }
    }
  }

  /** The stored bytes are w, and every other byte is s's. */
  lemma SpliceBytes(s: seq<byte>, pos: nat, w: seq<byte>)
    requires pos + |w| <= |s|
    ensures Splice(s, pos, w)[pos..pos + |w|] == w
    ensures forall i :: pos <= i < pos + |w| ==> Splice(s, pos, w)[i] == w[i - pos]
    ensures forall i :: 0 <= i < |s| && !(pos <= i < pos + |w|) ==> Splice(s, pos, w)[i] == s[i]
  {
  }

  /** Two writes back to back are one write of both. */
  lemma SpliceConcat(s: seq<byte>, pos: nat, a: seq<byte>, b: seq<byte>)
    requires pos + |a| + |b| <= |s|
    ensures Splice(Splice(s, pos, a), pos + |a|, b) == Splice(s, pos, a + b)
  {
    var l, r := Splice(Splice(s, pos, a), pos + |a|, b), Splice(s, pos, a + b);
    forall i | 0 <= i < |s|
      ensures l[i] == r[i]
    {
      if pos <= i < pos + |a| {
        assert (a + b)[i - pos] == a[i - pos];
      } else if pos + |a| <= i < pos + |a| + |b| {
        assert (a + b)[i - pos] == b[i - pos - |a|];
      }
    }
  }

  /** A sequence that holds w at pos and agrees with s0 elsewhere is s0 with w stored at pos. */
  lemma SpliceOfStores(s0: seq<byte>, s: seq<byte>, pos: nat, w: seq<byte>)
    requires |s| == |s0| && pos + |w| <= |s0|
    requires forall i :: 0 <= i < |w| ==> s[pos + i] == w[i]
    requires forall i :: 0 <= i < |s| && !(pos <= i < pos + |w|) ==> s[i] == s0[i]
    ensures s == Splice(s0, pos, w)
  {
    var r := Splice(s0, pos, w);
    forall i | 0 <= i < |s|
      ensures s[i] == r[i]
    {
      if pos <= i < pos + |w| {
        assert s[pos + (i - pos)] == w[i - pos];
      }
    }
  }

  /** A write right after an earlier one extends it. */
  lemma SpliceAfter(s0: seq<byte>, pos: nat, w: seq<byte>, x: seq<byte>, s1: seq<byte>, s2: seq<byte>)
    requires pos + |w| + |x| <= |s0|
    requires s1 == Splice(s0, pos, w) && s2 == Splice(s1, pos + |w|, x)
    ensures s2 == Splice(s0, pos, w + x)
  {
    SpliceConcat(s0, pos, w, x);
  }

  /** SpliceAfter, with the position of the second write given as it was computed. */
  lemma SpliceNext(s0: seq<byte>, pos: nat, w: seq<byte>, next: nat, x: seq<byte>, s1: seq<byte>, s2: seq<byte>)
    requires next == pos + |w| && next + |x| <= |s0|
    requires s1 == Splice(s0, pos, w) && s2 == Splice(s1, next, x)
    ensures s2 == Splice(s0, pos, w + x)
  {
    SpliceConcat(s0, pos, w, x);
  }

  /** A write over the whole of s leaves only what was written. */
  lemma SpliceAll(s: seq<byte>, w: seq<byte>)
    requires |w| == |s|
    ensures Splice(s, 0, w) == w
  {
    SpliceIs(s, 0, w);
  }

  /** Writing the n-byte encoding of a value that fits and reading those n bytes back gives the value. */
  lemma {:induction false} WriteReadBack(s: seq<byte>, pos: nat, v: nat, n: nat)
    requires v < Pow256(n) && pos + n <= |s|
    ensures FromLE(Splice(s, pos, LE(v, n))[pos..pos + n]) == v
  {
    var w := LE(v, n);
    SpliceBytes(s, pos, w);
    assert Splice(s, pos, w)[pos..pos + n] == w;
    LERoundTrip(v, n);
  }

  /** The same for a signed value: the bytes read back as two's complement give the value. */
  lemma {:induction false} WriteReadBackSigned(s: seq<byte>, pos: nat, v: int, n: nat)
    requires 1 <= n && -SignBound(n) <= v < SignBound(n) && pos + n <= |s|
    ensures ToSigned(FromLE(Splice(s, pos, LE(ToUnsigned(v, n), n))[pos..pos + n]), n) == v
  {
    SpliceBytes(s, pos, LE(ToUnsigned(v, n), n));
    LERoundTrip(ToUnsigned(v, n), n);
    SignedRoundTrip(v, n);
  }

  /** array[position++] = value. */
  method WriteByte(a: array<byte>, pos: nat, value: byte) returns (next: nat)
    requires pos + 1 <= a.Length
    modifies a
    ensures next == pos + 1
    ensures a[..] == Splice(old(a[..]), pos, [value])
  {
    a[pos] := value;
    next := pos + 1;
    SpliceIs(old(a[..]), pos, [value]);
  }

  /** WriteByte of `(byte)value`: the sbyte's two's-complement pattern. */
  method WriteSByte(a: array<byte>, pos: nat, value: int) returns (next: nat)
    requires -0x80 <= value < 0x80 && pos + 1 <= a.Length
    modifies a
    ensures next == pos + 1
    ensures a[..] == Splice(old(a[..]), pos, LE(ToUnsigned(value, 1), 1))
  {
    var u := ToUnsigned(value, 1);
    next := WriteByte(a, pos, u as byte);
  }

  method WriteUInt16(a: array<byte>, pos: nat, value: nat) returns (next: nat)
    requires value < 0x1_0000 && pos + 2 <= a.Length
    modifies a
    ensures next == pos + 2
    ensures a[..] == Splice(old(a[..]), pos, LE(value, 2))
  {
    a[pos] := (value % 0x100) as byte;
    a[pos + 1] := ((value / 0x100) % 0x100) as byte;
    next := pos + 2;
    SpliceIs(old(a[..]), pos, LE(value, 2));
    assert Pow256(1) == 0x100;
  }

  /** WriteUInt16 of `(ushort)value`. */
  method WriteInt16(a: array<byte>, pos: nat, value: int) returns (next: nat)
    requires -0x8000 <= value < 0x8000 && pos + 2 <= a.Length
    modifies a
    ensures next == pos + 2
    ensures a[..] == Splice(old(a[..]), pos, LE(ToUnsigned(value, 2), 2))
  {
    assert Pow256(2) == 0x1_0000;
    next := WriteUInt16(a, pos, ToUnsigned(value, 2));
  }

  method WriteUInt32(a: array<byte>, pos: nat, value: nat) returns (next: nat)
    requires value < 0x1_0000_0000 && pos + 4 <= a.Length
    modifies a
    ensures next == pos + 4
    ensures a[..] == Splice(old(a[..]), pos, LE(value, 4))
  {
    a[pos] := (value % 0x100) as byte;
    a[pos + 1] := ((value / 0x100) % 0x100) as byte;
    a[pos + 2] := ((value / 0x1_0000) % 0x100) as byte;
    a[pos + 3] := ((value / 0x100_0000) % 0x100) as byte;
    next := pos + 4;
    Digits4(value);
    SpliceOfStores(old(a[..]), a[..], pos, LE(value, 4));
  }

  /** The four little-endian bytes of a u32, as the shifts of the writer compute them. */
  lemma Digits4(value: nat)
    ensures LE(value, 4)[0] == (value % 0x100) as byte
    ensures LE(value, 4)[1] == ((value / 0x100) % 0x100) as byte
    ensures LE(value, 4)[2] == ((value / 0x1_0000) % 0x100) as byte
    ensures LE(value, 4)[3] == ((value / 0x100_0000) % 0x100) as byte
  {
    assert Pow256(1) == 0x100 && Pow256(2) == 0x1_0000 && Pow256(3) == 0x100_0000;
  }

  /** WriteUInt32 of `(uint)value`. */
  method WriteInt32(a: array<byte>, pos: nat, value: int) returns (next: nat)
    requires -0x8000_0000 <= value < 0x8000_0000 && pos + 4 <= a.Length
    modifies a
    ensures next == pos + 4
    ensures a[..] == Splice(old(a[..]), pos, LE(ToUnsigned(value, 4), 4))
  {
    assert Pow256(4) == 0x1_0000_0000;
    next := WriteUInt32(a, pos, ToUnsigned(value, 4));
  }

  method WriteUInt64(a: array<byte>, pos: nat, value: nat) returns (next: nat)
    requires value < 0x1_0000_0000_0000_0000 && pos + 8 <= a.Length
    modifies a
    ensures next == pos + 8
    ensures a[..] == Splice(old(a[..]), pos, LE(value, 8))
  {
    a[pos] := (value % 0x100) as byte;
    a[pos + 1] := ((value / 0x100) % 0x100) as byte;
    a[pos + 2] := ((value / 0x1_0000) % 0x100) as byte;
    a[pos + 3] := ((value / 0x100_0000) % 0x100) as byte;
    a[pos + 4] := ((value / 0x1_0000_0000) % 0x100) as byte;
    a[pos + 5] := ((value / 0x100_0000_0000) % 0x100) as byte;
    a[pos + 6] := ((value / 0x1_0000_0000_0000) % 0x100) as byte;
    a[pos + 7] := ((value / 0x100_0000_0000_0000) % 0x100) as byte;
    next := pos + 8;
    Digits8(value);
    SpliceOfStores(old(a[..]), a[..], pos, LE(value, 8));
  }

  /** The eight little-endian bytes of a u64, as the shifts of the writer compute them. */
  lemma Digits8(value: nat)
    ensures LE(value, 8)[0] == (value % 0x100) as byte
    ensures LE(value, 8)[1] == ((value / 0x100) % 0x100) as byte
    ensures LE(value, 8)[2] == ((value / 0x1_0000) % 0x100) as byte
    ensures LE(value, 8)[3] == ((value / 0x100_0000) % 0x100) as byte
    ensures LE(value, 8)[4] == ((value / 0x1_0000_0000) % 0x100) as byte
    ensures LE(value, 8)[5] == ((value / 0x100_0000_0000) % 0x100) as byte
    ensures LE(value, 8)[6] == ((value / 0x1_0000_0000_0000) % 0x100) as byte
    ensures LE(value, 8)[7] == ((value / 0x100_0000_0000_0000) % 0x100) as byte
  {
    assert Pow256(1) == 0x100 && Pow256(2) == 0x1_0000 && Pow256(3) == 0x100_0000;
    assert Pow256(4) == 0x1_0000_0000 && Pow256(5) == 0x100_0000_0000;
    assert Pow256(6) == 0x1_0000_0000_0000 && Pow256(7) == 0x100_0000_0000_0000;
  }

  /** WriteSingle: the four bytes of a float's bit pattern, in the little-endian order of the host. */
  method WriteSingle(a: array<byte>, pos: nat, bits: nat) returns (next: nat)
    requires bits < 0x1_0000_0000 && pos + 4 <= a.Length
    modifies a
    ensures next == pos + 4
    ensures a[..] == Splice(old(a[..]), pos, LE(bits, 4))
  {
    next := WriteUInt32(a, pos, bits);
  }

  /** WriteDouble: the eight bytes of a double's bit pattern, in the little-endian order of the host. */
  method WriteDouble(a: array<byte>, pos: nat, bits: nat) returns (next: nat)
    requires bits < 0x1_0000_0000_0000_0000 && pos + 8 <= a.Length
    modifies a
    ensures next == pos + 8
    ensures a[..] == Splice(old(a[..]), pos, LE(bits, 8))
  {
    next := WriteUInt64(a, pos, bits);
  }

  /**
   * WriteInt64 as the source writes it: `WriteUInt64((uint)value)`, so only
   * the low 32 bits of the long reach the array and the high four bytes are zero.
   */
  method WriteInt64AsWritten(a: array<byte>, pos: nat, value: int) returns (next: nat)
    requires -0x8000_0000_0000_0000 <= value < 0x8000_0000_0000_0000 && pos + 8 <= a.Length
    modifies a
    ensures next == pos + 8
    ensures a[..] == Splice(old(a[..]), pos, LE(ToUnsigned(value, 4), 8))
  {
    assert Pow256(4) == 0x1_0000_0000;
    next := WriteUInt64(a, pos, ToUnsigned(value, 4));
  }

  /** The high four bytes written by WriteInt64AsWritten are always zero. */
  lemma Int64AsWrittenHighBytesZero(v: int)
    ensures forall j :: 4 <= j < 8 ==> LE(ToUnsigned(v, 4), 8)[j] == 0
  {
    LEHighBytesZero(ToUnsigned(v, 4), 8, 4);
  }

  /** The long -1 written by WriteInt64AsWritten reads back as 2^32 - 1, not -1. */
  lemma Int64AsWrittenLosesMinusOne()
    ensures ToSigned(FromLE(LE(ToUnsigned(-1, 4), 8)), 8) == 0xFFFF_FFFF
  {
    assert Pow256(4) == 0x1_0000_0000;
    ModOfDecomposition(-1, Pow256(4), -1, 0xFFFF_FFFF);
    assert ToUnsigned(-1, 4) == 0xFFFF_FFFF;
    assert Pow256(8) == 0x1_0000_0000_0000_0000;
    LERoundTrip(0xFFFF_FFFF, 8);
  }

  /** WriteInt64 as intended: `WriteUInt64((ulong)value)`, all 64 bits. */
  method WriteInt64(a: array<byte>, pos: nat, value: int) returns (next: nat)
    requires -0x8000_0000_0000_0000 <= value < 0x8000_0000_0000_0000 && pos + 8 <= a.Length
    modifies a
    ensures next == pos + 8
    ensures a[..] == Splice(old(a[..]), pos, LE(ToUnsigned(value, 8), 8))
  {
    assert Pow256(8) == 0x1_0000_0000_0000_0000;
    next := WriteUInt64(a, pos, ToUnsigned(value, 8));
  }

  /** Every long written by WriteInt64 reads back as itself. */
  lemma Int64RoundTrip(v: int)
    requires -0x8000_0000_0000_0000 <= v < 0x8000_0000_0000_0000
    ensures ToSigned(FromLE(LE(ToUnsigned(v, 8), 8)), 8) == v
  {
    assert SignBound(8) == 0x8000_0000_0000_0000;
    LERoundTrip(ToUnsigned(v, 8), 8);
    SignedRoundTrip(v, 8);
  }

  /**
   * The two writers put the same eight bytes into the array exactly when the
   * long lies in [0, 2^32): every negative long and every long from 2^32 on
   * is written differently by the source.
   */
  lemma Int64WritersAgree(v: int)
    requires -0x8000_0000_0000_0000 <= v < 0x8000_0000_0000_0000
    ensures LE(ToUnsigned(v, 8), 8) == LE(ToUnsigned(v, 4), 8) <==> 0 <= v < 0x1_0000_0000
  {
    assert Pow256(4) == 0x1_0000_0000;
    assert Pow256(8) == 0x1_0000_0000_0000_0000;
    if LE(ToUnsigned(v, 8), 8) == LE(ToUnsigned(v, 4), 8) {
      LERoundTrip(ToUnsigned(v, 8), 8);
      LERoundTrip(ToUnsigned(v, 4), 8);
      if v < 0 {
        ModOfDecomposition(v, Pow256(8), -1, v + 0x1_0000_0000_0000_0000);
      }
    }
  }

  /** Buffer.BlockCopy of all of bytes to position pos; the source may be the target itself. */
  method WriteBytes(a: array<byte>, pos: nat, bytes: array<byte>) returns (next: nat)
    requires pos + bytes.Length <= a.Length
    modifies a
    ensures next == pos + bytes.Length
    ensures a[..] == Splice(old(a[..]), pos, old(bytes[..]))
  {
    ghost var w := bytes[..];
    forall i | 0 <= i < bytes.Length {
      a[pos + i] := bytes[i];
    }
    next := pos + bytes.Length;
    SpliceIs(old(a[..]), pos, w);
    assert a[..] == Splice(old(a[..]), pos, w);
  }
}
