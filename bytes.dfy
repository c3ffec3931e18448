/**
 * Little-endian byte encodings shared by the byte-level codecs: the writers of
 * ByteArrayHelpers, the frame prefix of the memory-mapped queue, the packed
 * argument infos and the CIL method-body readers and writers.
 */
module Bytes {

  /** One byte, as the C# `byte` and the C++ `BYTE`. */
  type byte = x: int | 0 <= x < 256

  /** 256 to the n-th power: the number of values n bytes can hold. */
  function Pow256(n: nat): (r: int)
    ensures r >= 1
  {
    if n == 0 then 1 else 256 * Pow256(n - 1)
  }

  /**
   * The n low-order bytes of v, least significant first: byte k is
   * `(byte)(v >> 8k)`, so any part of v above 256^n is dropped.
   */
  function LE(v: nat, n: nat): (r: seq<byte>)
    ensures |r| == n
  {
    seq(n, k requires 0 <= k < n => ((v / Pow256(k)) % 256) as byte)
  }

  /** The unsigned value of a little-endian byte sequence. */
  function FromLE(s: seq<byte>): (r: nat)
    ensures r < Pow256(|s|)
  {
    if s == [] then 0 else s[0] + 256 * FromLE(s[1..])
  }

  /** v modulo 256^n: the two's-complement reinterpretation of a signed n-byte value as unsigned. */
  function ToUnsigned(v: int, n: nat): (r: nat)
    ensures r < Pow256(n)
    ensures 0 <= v < Pow256(n) ==> r == v
  {
    var r := v % Pow256(n);
    if 0 <= v < Pow256(n) then
      ModOfDecomposition(v, Pow256(n), 0, v);
      r
    else
      r
  }

  /** Half of 256^n: the first value whose n-byte pattern reads as negative. */
  function SignBound(n: nat): (r: int)
    requires n >= 1
    ensures r >= 1 && Pow256(n) == 2 * r
  {
    128 * Pow256(n - 1)
  }

  /** The signed value whose two's-complement form on n bytes is u. */
  function ToSigned(u: nat, n: nat): (r: int)
    requires 1 <= n && u < Pow256(n)
    ensures -SignBound(n) <= r < SignBound(n)
  {
    if u < SignBound(n) then u else u - Pow256(n)
  }

  /** The remainder is determined by any decomposition with an in-range rest. */
  lemma ModOfDecomposition(v: int, m: int, a: int, c: int)
    requires m > 0 && 0 <= c < m && v == m * a + c
    ensures v % m == c && v / m == a
  {
    var q, r := v / m, v % m;
    assert v == m * q + r;
    assert m * (a - q) == r - c;
    if a > q {
      MulAtLeast(m, a - q);
    } else if a < q {
      MulAtLeast(m, q - a);
    }
  }

  lemma MulAtLeast(m: int, x: int)
    requires m > 0 && x >= 1
    ensures m * x >= m
  {
  }

  lemma ModOfProductSplit(v: nat, p: nat)
    requires p >= 1
    ensures v % (256 * p) == v % 256 + 256 * ((v / 256) % p)
  {
    var q, r := v / 256, v % 256;
    var a, b := q / p, q % p;
    assert v == 256 * q + r;
    assert q == p * a + b;
    assert v == (256 * p) * a + (256 * b + r) by {
      calc {
        v;
        256 * (p * a + b) + r;
        (256 * p) * a + (256 * b + r);
      }
    }
    ModOfDecomposition(v, 256 * p, a, 256 * b + r);
  }

  /** The encoding is the low byte, then the encoding of the rest on one byte less. */
  lemma LECons(v: nat, n: nat)
    requires n >= 1
    ensures LE(v, n) == [(v % 256) as byte] + LE(v / 256, n - 1)
  {
    var l, r := LE(v, n), [(v % 256) as byte] + LE(v / 256, n - 1);
    forall k | 0 <= k < n
      ensures l[k] == r[k]
    {
      if k > 0 {
        DivDiv(v, 256, Pow256(k - 1));
        assert r[k] == LE(v / 256, n - 1)[k - 1];
      }
    }
  }

  /** Decoding the n-byte encoding of v gives v back, reduced modulo 256^n. */
  lemma {:induction false} FromLEOfLE(v: nat, n: nat)
    ensures FromLE(LE(v, n)) == v % Pow256(n)
  {
    if n > 0 {
      LECons(v, n);
      FromLEOfLE(v / 256, n - 1);
      assert LE(v, n)[1..] == LE(v / 256, n - 1);
      ModOfProductSplit(v, Pow256(n - 1));
    }
  }

  /** Encoding the value of a byte sequence gives the sequence back. */
  lemma {:induction false} LEOfFromLE(s: seq<byte>)
    ensures LE(FromLE(s), |s|) == s
  {
    if s != [] {
      var v := FromLE(s);
      assert v % 256 == s[0] && v / 256 == FromLE(s[1..]) by {
        ModOfDecomposition(v, 256, FromLE(s[1..]), s[0]);
      }
      LEOfFromLE(s[1..]);
      LECons(v, |s|);
      assert s == [s[0]] + s[1..];
    }
  }

  /** The round trip for values that fit: what is written is what is read. */
  lemma LERoundTrip(v: nat, n: nat)
    requires v < Pow256(n)
    ensures FromLE(LE(v, n)) == v
  {
    FromLEOfLE(v, n);
    ModOfDecomposition(v, Pow256(n), 0, v);
  }

  lemma DivDiv(v: nat, a: nat, b: nat)
    requires a >= 1 && b >= 1
    ensures v / a / b == v / (a * b)
  {
    var q, r1 := v / a, v % a;
    var q2, r2 := q / b, q % b;
    assert a * q == a * (b * q2) + a * r2 by {
      assert q == b * q2 + r2;
    }
    assert a * (b * q2) == (a * b) * q2;
    assert a * r2 <= a * (b - 1) by {
      MulMono(a, r2, b - 1);
    }
    assert a * (b - 1) == a * b - a;
    ModOfDecomposition(v, a * b, q2, a * r2 + r1);
  }

  lemma MulMono(a: nat, x: nat, y: nat)
    requires x <= y
    ensures a * x <= a * y
  {
    assert a * y == a * x + a * (y - x);
  }

  /** More bytes hold at least as many values. */
  lemma {:induction false} PowMono(k: nat, j: nat)
    requires k <= j
    ensures Pow256(k) <= Pow256(j)
    decreases j
  {
    if k < j {
      PowMono(k, j - 1);
    }
  }

  /** A value that fits in k bytes has an n-byte encoding whose bytes above k are all zero. */
  lemma LEHighBytesZero(v: nat, n: nat, k: nat)
    requires k <= n && v < Pow256(k)
    ensures LE(v, n) == LE(v, k) + LE(0, n - k)
    ensures forall j :: k <= j < n ==> LE(v, n)[j] == 0
  {
    forall j | k <= j < n
      ensures LE(v, n)[j] == 0
    {
      PowMono(k, j);
      ModOfDecomposition(v, Pow256(j), 0, v);
    }
    var l, r := LE(v, n), LE(v, k) + LE(0, n - k);
    forall j | 0 <= j < n
      ensures l[j] == r[j]
    {
      if j >= k {
        ModOfDecomposition(0, Pow256(j - k), 0, 0);
        assert r[j] == LE(0, n - k)[j - k];
      }
    }
  }

  /** The signed and unsigned readings of a two's-complement pattern are inverse. */
  lemma SignedRoundTrip(v: int, n: nat)
    requires 1 <= n && -SignBound(n) <= v < SignBound(n)
    ensures ToSigned(ToUnsigned(v, n), n) == v
  {
    if v < 0 {
      ModOfDecomposition(v, Pow256(n), -1, v + Pow256(n));
    } else {
      ModOfDecomposition(v, Pow256(n), 0, v);
    }
  }
  /** Reinterpreting an unsigned pattern as signed and back gives the pattern. */
  lemma UnsignedOfSigned(u: nat, n: nat)
    requires 1 <= n && u < Pow256(n)
    ensures ToUnsigned(ToSigned(u, n), n) == u
  {
    if u >= SignBound(n) {
      ModOfDecomposition(u - Pow256(n), Pow256(n), -1, u);
    }
  }

  /** Values that differ by a multiple of 256^n have the same n-byte pattern. */
  lemma ToUnsignedShift(v: int, m: int, n: nat)
    ensures ToUnsigned(v + m * Pow256(n), n) == ToUnsigned(v, n)
  {
    var p := Pow256(n);
    var q, r := v / p, v % p;
    assert v + m * p == p * (q + m) + r;
    ModOfDecomposition(v + m * p, p, q + m, r);
  }

  /** Truncating to k bytes after truncating to n >= k bytes is truncating to k bytes. */
  lemma ToUnsignedNarrow(v: int, k: nat, n: nat)
    requires k <= n
    ensures ToUnsigned(ToUnsigned(v, n), k) == ToUnsigned(v, k)
  {
    var pn, pk, p := Pow256(n), Pow256(k), Pow256(n - k);
    PowSplit(k, n - k);
    assert pn == pk * p by {
      assert k + (n - k) == n;
    }
    var q := v / pn;
    ToUnsignedRemainder(v, n);
    Regroup(v, q, pk, p);
    ToUnsignedShift(v, -(q * p), k);
  }

  lemma ToUnsignedRemainder(v: int, n: nat)
    ensures ToUnsigned(v, n) == v - (v / Pow256(n)) * Pow256(n)
  {
  }

  lemma Regroup(v: int, q: int, a: int, b: int)
    ensures v - q * (a * b) == v + -(q * b) * a
  {
    assert q * (a * b) == (q * b) * a;
  }

  lemma {:induction false} PowSplit(a: nat, b: nat)
    ensures Pow256(a + b) == Pow256(a) * Pow256(b)
  {
    if a > 0 {
      PowSplit(a - 1, b);
    }
  }
}
