/** neo/Core/BigInteger.py: the variable-length two's-complement encoding of the VM's integers. */
module BigInteger {
  import opened Arithmetic
  import opened Bits
  import opened Bytes

  predicate Fits(x: int, n: nat)
  {
    n >= 1 && -128 * Pow256(n - 1) <= x < 128 * Pow256(n - 1)
  }

  /** The least number of bytes in which `x` has a two's-complement form. */
  function Shortest(x: int): (n: nat)
    ensures n >= 1
    decreases if x < 0 then -x else x
  {
    if -128 <= x < 128 then 1 else 1 + Shortest(x / 256)
  }

  /** -256, -65536, and so on. */
  predicate NegativePower(x: int)
    decreases if x < 0 then -x else x
  {
    x < 0 && x % 256 == 0 && (x == -256 || NegativePower(x / 256))
  }

  lemma {:induction false} NegativePowerIs(x: int) returns (j: nat)
    requires NegativePower(x)
    ensures j >= 1 && x == -Pow256(j)
    decreases -x
  {
    if x == -256 {
      j := 1;
      assert Pow256(1) == 256 * Pow256(0);
    } else {
      j := NegativePowerIs(x / 256);
      j := j + 1;
    }
  }

  lemma {:induction false} NegativePowerOf(j: nat)
    requires j >= 1
    ensures NegativePower(-Pow256(j))
  {
    assert Pow256(j) == 256 * Pow256(j - 1);
    assert (-Pow256(j)) / 256 == -Pow256(j - 1);
    if j > 1 { NegativePowerOf(j - 1); }
  }

  /** What `ToByteArray` returns: the shortest form, or one byte more on the powers -256, -65536, ... */
  function EncodedLength(x: int): (n: nat) {
    Shortest(x) + if NegativePower(x) then 1 else 0
  }

  function Encode(x: int): (s: seq<byte>)
    ensures |s| == EncodedLength(x)
  {
    ToLE(x, EncodedLength(x))
  }

  /** `to_bytes(n, 'little', signed=True)`, which overflows when `x` does not fit. */
  datatype Conversion = Bytes(value: seq<byte>) | OverflowError

  function ToBytes(x: int, n: nat): Conversion {
    if Fits(x, n) || (n == 0 && x == 0) then Conversion.Bytes(ToLE(x, n)) else OverflowError
  }

  // ---- the shortest length -------------------------------------------------------------------

  lemma {:induction false} ShortestFits(x: int, n: nat)
    ensures Fits(x, n) <==> n >= Shortest(x)
    decreases if x < 0 then -x else x
  {
    if -128 <= x < 128 {
      if n >= 1 { Pow256Mono(0, n - 1); }
    } else if n >= 2 {
      ShortestFits(x / 256, n - 1);
      assert Pow256(n - 1) == 256 * Pow256(n - 2);
    }
  }

  lemma SignedRoundTrip(x: int, n: nat)
    requires Fits(x, n)
    ensures FromLESigned(ToLE(x, n)) == x
  {
    var p, h := Pow256(n), Pow256(n - 1);
    FromLEToLE(x, n);
    ByteAt(x, n, n - 1);
    DivRange(x, h, -128, 128);
    if x < 0 {
      DivRange(x, h, -128, 0);
      DivModUnique(x, p, -1, x + p);
    } else {
      DivRange(x, h, 0, 128);
      DivModUnique(x, p, 0, x);
    }
  }

  /** Decoding `ToByteArray` as a signed integer gives back every integer. */
  lemma RoundTrip(x: int)
    ensures FromLESigned(Encode(x)) == x
  {
    ShortestFits(x, EncodedLength(x));
    SignedRoundTrip(x, EncodedLength(x));
  }

  /** The encoding is a shortest one except on the negative powers of 256, where it is one byte longer. */
  lemma EncodingIsNearlyShortest(x: int, n: nat)
    ensures Fits(x, n) ==> |Encode(x)| <= n + 1
    ensures Fits(x, |Encode(x)|)
    ensures NegativePower(x) <==> Fits(x, |Encode(x)| - 1)
  {
    ShortestFits(x, n);
    ShortestFits(x, |Encode(x)|);
    if |Encode(x)| > 0 { ShortestFits(x, |Encode(x)| - 1); }
  }

  // ---- the 32-byte limit ---------------------------------------------------------------------

  const MAX_SIZE_FOR_BIG_INTEGER := 32

  predicate CheckBigInteger(x: int) {
    |Encode(x)| <= MAX_SIZE_FOR_BIG_INTEGER
  }

  /** 2^255, as half of 256^32. */
  const LIMIT := 128 * Pow256(31)

  lemma PowerBelowLimit()
    ensures 0 < Pow256(31) < LIMIT
  {
  }

  lemma AcceptedLength(x: int, m: nat)
    requires m >= 1
    ensures |Encode(x)| <= m + 1 <==> Fits(x, m + 1) && x != -Pow256(m)
  {
    ShortestFits(x, m + 1);
    if NegativePower(x) {
      var j := NegativePowerIs(x);
      ShortestOfNegativePower(j);
      if j < m { Pow256Mono(j + 1, m); } else if j > m { Pow256Mono(m, j - 1); }
    }
    NegativePowerOf(m);
    ShortestOfNegativePower(m);
  }

  /** The limit check accepts exactly the signed 256-bit integers, minus -2^248. */
  lemma CheckBigIntegerIff(x: int)
    ensures CheckBigInteger(x) <==> -LIMIT <= x < LIMIT && x != -Pow256(31)
  {
    hide Pow256, Encode;
    AcceptedLength(x, 31);
  }

  lemma {:induction false} ShortestOfNegativePower(j: nat)
    ensures Shortest(-Pow256(j)) == j + 1
    decreases j
  {
    if j > 0 {
      assert (-Pow256(j)) / 256 == -Pow256(j - 1);
      ShortestOfNegativePower(j - 1);
    }
  }

  /** `(bit_length + 7) // 8` bytes hold the magnitude, and one fewer do not. */
  lemma ByteCount(x: nat)
    requires x > 0
    ensures (BitLength(x) + 7) / 8 >= 1
    ensures Pow256((BitLength(x) + 7) / 8 - 1) <= x < Pow256((BitLength(x) + 7) / 8)
  {
    var b := BitLength(x);
    var n := (b + 7) / 8;
    BitLengthBounds(x);
    Pow2Mono(b, 8 * n);
    Pow2Mono(8 * (n - 1), b - 1);
    Pow2Eight(n);
    Pow2Eight(n - 1);
  }

  // ---- ToByteArray ---------------------------------------------------------------------------

  /** The two bytes the scan of a negative number's padded form looks at. */
  lemma PaddedTop(x: int, n: nat)
    requires n >= 1 && -Pow256(n) < x <= -Pow256(n - 1)
    ensures ToLE(x, n + 1)[n] == 255
    ensures ToLE(x, n + 1)[n - 1] == 255 <==> x == -Pow256(n - 1)
    ensures ToLE(x, n + 1)[n - 1] >= 128 <==> Fits(x, n)
    ensures Fits(x, n + 1)
    ensures NegativePower(x) <==> n >= 2 && x == -Pow256(n - 1)
  {
    hide ToLE, NegativePower;
    var p, h := Pow256(n), Pow256(n - 1);
    assert p == 256 * h;
    ByteAt(x, n + 1, n);
    ByteAt(x, n + 1, n - 1);
    MinusOne(x, p);
    TopDigit(x, h);
    WhichPower(x, n);
  }

  lemma MinusOne(x: int, p: int)
    requires p > 0 && -p < x < 0
    ensures (x / p) % 256 == 255
  {
    DivModUnique(x, p, -1, x + p);
  }

  lemma WhichPower(x: int, n: nat)
    requires n >= 1 && -Pow256(n) < x <= -Pow256(n - 1)
    ensures NegativePower(x) <==> n >= 2 && x == -Pow256(n - 1)
  {
    if NegativePower(x) {
      var j := NegativePowerIs(x);
      if j < n - 1 { Pow256Mono(j, n - 1); } else if j > n - 1 { Pow256Mono(n, j); }
    }
    if n >= 2 { NegativePowerOf(n - 1); }
  }

  lemma TopDigit(x: int, h: int)
    requires h >= 1 && -256 * h < x <= -h
    ensures (x / h) % 256 == 255 <==> x == -h
    ensures (x / h) % 256 >= 128 <==> x >= -128 * h
  {
    DivRange(x, h, -256, 0);
    if x == -h { DivModUnique(x, h, -1, 0); } else { DivRange(x, h, -256, -1); }
    if x >= -128 * h { DivRange(x, h, -128, 0); } else { DivRange(x, h, -256, -128); }
  }

  lemma {:induction false} PaddedZeros(n: nat, m: nat, i: nat)
    requires i < n < m
    ensures ToLE(-Pow256(n), m)[i] == 0
    decreases n
  {
    assert (-Pow256(n)) / 256 == -Pow256(n - 1);
    if i > 0 { PaddedZeros(n - 1, m - 1, i - 1); }
  }

  lemma {:induction false} ToLEPrefix(x: int, n: nat)
    ensures ToLE(x, n + 1)[..n] == ToLE(x, n)
    decreases n
  {
    if n > 0 {
      ToLEPrefix(x / 256, n - 1);
      assert ToLE(x, n + 1)[..n] == [x % 256] + ToLE(x / 256, n)[..n - 1];
    }
  }

  lemma ShortestIs(x: int, n: nat)
    requires n >= 1 && Fits(x, n) && !Fits(x, n - 1)
    ensures Shortest(x) == n
  {
    ShortestFits(x, n);
    ShortestFits(x, n - 1);
  }

  /** The sign test on the highest byte below the 0xff run decides the length. */
  lemma ScanDecides(x: int, n: nat, data: seq<byte>, msb: nat)
    requires n >= 1 && -Pow256(n) < x <= -Pow256(n - 1)
    requires data == ToLE(x, n + 1)
    requires msb <= n && forall k :: msb < k <= n ==> data[k] == 0xff
    requires data[msb] != 0xff || (msb == n && forall k :: 0 <= k <= n ==> data[k] == 0xff)
    ensures Encode(x) == if data[msb] < 0x80 then data else data[..n]
  {
    PaddedTop(x, n);
    if n >= 2 {
      PaddedZeros(n - 1, n + 1, n - 2);
      assert Pow256(n - 1) == 256 * Pow256(n - 2);
    }
    ShortestIs(x, if Fits(x, n) then n else n + 1);
    assert data[n] == 0xff;
    assert data[n - 1] == 0xff <==> x == -Pow256(n - 1);
    if x == -Pow256(n - 1) && n >= 2 {
      assert data[n - 2] == 0;
    }
    ToLEPrefix(x, n);
  }

  lemma PositiveDecides(x: int, n: nat)
    requires n >= 1 && Pow256(n - 1) <= x < Pow256(n)
    ensures Encode(x) == ToLE(x, if Fits(x, n) then n else n + 1)
  {
    if n >= 2 { assert Pow256(n - 1) == 256 * Pow256(n - 2); }
    ShortestIs(x, if Fits(x, n) then n else n + 1);
  }

  method ToByteArray(x: int) returns (r: seq<byte>)
    ensures r == Encode(x)
  {
    if x == 0 {
      return [0];
    }
    hide Encode, BitLength, ToLE;
    if x < 0 {
      r := NegativeBytes(x);
      return;
    }
    var n := (BitLength(x) + 7) / 8;
    ByteCount(x);
    PositiveDecides(x, n);
    match ToBytes(x, n)
    case Bytes(s) =>
      return s;
    case OverflowError =>
      return ToLE(x, n + 1);
  }

  /** The branch for negative numbers: one byte too many, unless the sign needs it. */
  method NegativeBytes(x: int) returns (r: seq<byte>)
    requires x < 0
    ensures r == Encode(x)
  {
    hide Encode, BitLength, ToLE, Pow256;
    var n := (BitLength(-x) + 7) / 8;
    ByteCount(-x);
    var data := ToLE(x, n + 1);
    var msb := |data| - 1;
    var i := 0;
    while i < |data|
      invariant 0 <= i <= |data| && msb == n
      invariant forall k :: n - i < k <= n ==> data[k] == 0xff
    {
      if data[n - i] != 0xff {
        msb := msb - i;
        break;
      }
      i := i + 1;
    }
    ScanDecides(x, n, data, msb);
    var needExtraByte := data[msb] < 0x80;
    if needExtraByte {
      return data;
    } else {
      return data[..|data| - 1];
    }
  }
}
