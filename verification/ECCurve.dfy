/** neo/Core/Cryptography/ECCurve.py: point compression (sections 2.3.3 and 2.3.4 of SEC 1). */
module ECCurve {
  import opened Arithmetic
  import opened Bits
  import opened Bytes
  import opened BigInteger
  import opened NumberTheory

  datatype Curve = Curve(p: int, a: int, b: int)

  /** A point by its two field values; the origin stands for infinity. */
  datatype Point = Point(x: int, y: int)

  const INFINITY := Point(0, 0)

  datatype Result<T> = Ok(value: T) | Error

  /** `x ** 3 + a * x + b`, reduced after every field operation. */
  function YSquare(c: Curve, x: int): int
    requires c.p > 0
  {
    ((Pow(x, 3) % c.p + (c.a * x) % c.p) % c.p + c.b) % c.p
  }

  predicate OnCurve(c: Curve, pt: Point)
    requires c.p > 0
  {
    pt == INFINITY || (Pow(pt.y, 2) % c.p - YSquare(c, pt.x)) % c.p == 0
  }

  predicate InField(c: Curve, pt: Point) {
    0 <= pt.x < c.p && 0 <= pt.y < c.p
  }

  /** `sqrtCQ`: outside p = 3 modulo 4 its search loop starts with U = None and never runs. */
  function SqrtCQ(val: int, q: int): Result<int>
    requires q > 0
  {
    if (q / 2) % 2 == 1 then
      var z := Pow(val, q / 4 + 1) % q;
      if (z * z) % q == val then Ok(z) else Error
    else
      Error
  }

  function DecompressFromCurve(c: Curve, x: int, flag: int): Result<Point>
    requires c.p > 0
  {
    match SqrtCQ(YSquare(c, x), c.p)
    case Ok(root) =>
      var beta := if root % 2 != flag then Negate(root, c.p) else root;
      Ok(Point(x, beta))
    case Error => Error
  }

  function EncodePoint(pt: Point, compressed: bool): Result<seq<byte>> {
    if pt == INFINITY then Ok([0])
    else if !(0 <= pt.x < Pow256(32)) || (!compressed && !(0 <= pt.y < Pow256(32))) then Error
    else
      var xbytes := Reverse(ToLE(pt.x, 32));
      if compressed then Ok([if pt.y % 2 == 0 then 2 else 3] + xbytes)
      else Ok([4] + xbytes + Reverse(ToLE(pt.y, 32)))
  }

  function ByteLength(p: nat): nat {
    (BitLength(p) + 7) / 8
  }

  function FromBE(s: seq<byte>): nat {
    FromLE(Reverse(s) + [0])
  }

  function Decode(c: Curve, ba: seq<byte>): Result<Point>
    requires c.p > 0
  {
    if ba == [] then Error
    else if ba[0] == 0 then Ok(INFINITY)
    else if ba[0] == 2 || ba[0] == 3 then
      if |ba| != ByteLength(c.p) + 1 then Error
      else DecompressFromCurve(c, FromBE(ba[1..]), ba[0] % 2)
    else if ba[0] == 4 then
      var n := ByteLength(c.p);
      if |ba| != 2 * n + 1 then Error
      else Ok(Point(FromBE(ba[1..1 + n]), FromBE(ba[1 + n..])))
    else Error
  }

  /** Of the failures of `Decode` these are ValueErrors: a wrong length and an unknown first byte. */
  predicate DecodeRejects(c: Curve, ba: seq<byte>)
    requires c.p > 0
  {
    ba != [] &&
      if ba[0] == 2 || ba[0] == 3 then |ba| != ByteLength(c.p) + 1
      else if ba[0] == 4 then |ba| != 2 * ByteLength(c.p) + 1
      else ba[0] != 0 && ba[0] != 6 && ba[0] != 7
  }

  // ---- the equation of the curve -------------------------------------------------------------

  /** y^2 = x^3 + ax + b modulo p. */
  ghost predicate Solves(c: Curve, pt: Point)
    requires c.p > 0
  {
    Cong(pt.y * pt.y, pt.x * pt.x * pt.x + c.a * pt.x + c.b, c.p)
  }

  lemma CubeIs(x: int)
    ensures Pow(x, 3) == x * x * x && Pow(x, 2) == x * x
  {
    assert Pow(x, 3) == x * Pow(x, 2) && Pow(x, 2) == x * Pow(x, 1) && Pow(x, 1) == x * Pow(x, 0);
  }

  lemma YSquareIs(c: Curve, x: int)
    requires c.p > 0
    ensures 0 <= YSquare(c, x) < c.p && Cong(YSquare(c, x), x * x * x + c.a * x + c.b, c.p)
  {
    hide Pow;
    CubeIs(x);
    var u, v, n := x * x * x, c.a * x, c.p;
    CongMod(u, n);
    CongMod(v, n);
    CongAdd(u % n, u, v % n, v, n);
    CongMod(u % n + v % n, n);
    CongTrans((u % n + v % n) % n, u % n + v % n, u + v, n);
    CongIntro(c.b, c.b, n, 0);
    CongAdd((u % n + v % n) % n, u + v, c.b, c.b, n);
    CongMod((u % n + v % n) % n + c.b, n);
    CongTrans(((u % n + v % n) % n + c.b) % n, (u % n + v % n) % n + c.b, u + v + c.b, n);
  }

  /** `isoncurve` accepts infinity and the solutions of the equation. */
  lemma OnCurveIff(c: Curve, pt: Point)
    requires c.p > 0
    ensures OnCurve(c, pt) <==> pt == INFINITY || Solves(c, pt)
  {
    hide Pow, YSquare;
    CubeIs(pt.y);
    YSquareIs(c, pt.x);
    var s, w := pt.y * pt.y, pt.x * pt.x * pt.x + c.a * pt.x + c.b;
    var r := YSquare(c, pt.x);
    CongMod(s, c.p);
    CongIffMod(s % c.p, s, c.p);
    CongIffMod(s % c.p, r, c.p);
    CongIffMod(s, w, c.p);
    CongIffMod(r, w, c.p);
  }

  // ---- square roots --------------------------------------------------------------------------

  /** For p = 3 modulo 4 the power val^((p + 1) / 4) is a square root of every square. */
  lemma SqrtFindsRoot(y: nat, p: int)
    requires Prime(p) && p % 4 == 3
    ensures var val := (y * y) % p;
      SqrtCQ(val, p).Ok? && Cong(SqrtCQ(val, p).value * SqrtCQ(val, p).value, y * y, p)
  {
    var val, e := (y * y) % p, p / 4 + 1;
    var w := Pow(val, e);
    var z := w % p;
    CongMod(y * y, p);
    CongPow(val, y * y, e, p);
    PowMul(y, y, e);
    CongMod(w, p);
    CongTrans(z, w, Pow(y * y, e), p);
    CongMul(z, Pow(y * y, e), z, Pow(y * y, e), p);
    FourthPower(y, e);
    assert Pow(y, 4 * e) == y * Pow(y, p);
    Fermat(y, p);
    CongIntro(y, y, p, 0);
    CongMul(y, y, Pow(y, p), y, p);
    CongTrans(z * z, Pow(y, 4 * e), y * y, p);
    CongIffMod(z * z, y * y, p);
  }

  lemma FourthPower(y: int, e: nat)
    ensures Pow(y * y, e) * Pow(y * y, e) == Pow(y, 4 * e)
  {
    PowMul(y, y, e);
    PowAdd(y, e, e);
    PowAdd(y, 2 * e, 2 * e);
  }

  lemma DifferenceOfSquares(z: int, y: int)
    ensures z * z - y * y == (z - y) * (z + y)
  {
  }

  /** A multiple of p strictly between -p and 2p is 0 or p. */
  lemma SmallMultiple(x: int, p: int)
    requires p > 0 && -p < x < 2 * p && Cong(x, 0, p)
    ensures x == 0 || x == p
  {
    CongElim(x, 0, p);
    var k := Quotient(x, 0, p);
    if k >= 2 { MulLe(p, 2, k); }
    if k <= -1 { MulLe(p, k, -1); }
  }

  function Negate(y: int, p: int): int
    requires p > 0
  {
    (p - y) % p
  }

  lemma NegateIs(y: int, p: int)
    requires p > 0 && 0 <= y < p
    ensures Negate(y, p) == if y == 0 then 0 else p - y
  {
    if y == 0 { DivModUnique(p, p, 1, 0); } else { DivModUnique(p - y, p, 0, p - y); }
  }

  /** A prime field has at most the two roots y and -y. */
  lemma OnlyTwoRoots(z: int, y: int, p: int)
    requires Prime(p) && 0 <= z < p && 0 <= y < p && Cong(z * z, y * y, p)
    ensures z == y || z == Negate(y, p)
  {
    CongElim(z * z, y * y, p);
    DifferenceOfSquares(z, y);
    CongIntro((z - y) * (z + y), 0, p, Quotient(z * z, y * y, p));
    EuclidsLemma(z - y, z + y, p);
    NegateIs(y, p);
    if Cong(z - y, 0, p) { SmallMultiple(z - y, p); } else { SmallMultiple(z + y, p); }
  }

  lemma YSquareIsSquare(c: Curve, pt: Point)
    requires c.p > 0 && Solves(c, pt)
    ensures YSquare(c, pt.x) == (pt.y * pt.y) % c.p
  {
    hide YSquare;
    YSquareIs(c, pt.x);
    var w, r := pt.x * pt.x * pt.x + c.a * pt.x + c.b, YSquare(c, pt.x);
    CongIffMod(pt.y * pt.y, w, c.p);
    CongIffMod(r, w, c.p);
    DivModUnique(r, c.p, 0, r);
  }

  /** Whatever x and parity are given, a point that comes out lies on the curve and has them. */
  lemma DecompressedSolves(c: Curve, x: int, flag: int)
    requires c.p > 0 && DecompressFromCurve(c, x, flag).Ok? && (flag == 0 || flag == 1)
    ensures var pt := DecompressFromCurve(c, x, flag).value;
      && Solves(c, pt) && pt.x == x && 0 <= pt.y < c.p
      && (c.p % 2 == 1 ==> pt.y == 0 || pt.y % 2 == flag)
  {
    hide YSquare, SqrtCQ, Cong, Negate;
    YSquareIs(c, x);
    var w, r, p := x * x * x + c.a * x + c.b, YSquare(c, x), c.p;
    var root := SqrtCQ(r, p).value;
    RootSquares(r, p);
    CongTrans(root * root, r, w, p);
    NegateIs(root, p);
    SquareOfNegative(root, p);
    CongTrans((p - root) * (p - root), root * root, w, p);
  }

  /** A root is checked before it is returned. */
  lemma RootSquares(val: int, q: int)
    requires q > 0 && SqrtCQ(val, q).Ok?
    ensures 0 <= SqrtCQ(val, q).value < q && Cong(SqrtCQ(val, q).value * SqrtCQ(val, q).value, val, q)
  {
    hide Pow;
    var z := SqrtCQ(val, q).value;
    CongMod(z * z, q);
    CongIffMod((z * z) % q, z * z, q);
    CongIffMod(z * z, val, q);
  }

  lemma SquareOfNegative(y: int, p: int)
    requires p > 0
    ensures Cong((p - y) * (p - y), y * y, p)
  {
    var z := p - y;
    calc {
      z * z;
      { Distribute(z, p, y); Distribute(p, p, y); Distribute(y, p, y); }
      p * p - p * y - y * p + y * y;
      { Distribute(p, p - y, y); Distribute(p, p, y); }
      y * y + p * (p - y - y);
    }
    CongIntro(z * z, y * y, p, p - y - y);
  }

  /** The other point with the same x. */
  function Opposite(c: Curve, pt: Point): Point {
    Point(pt.x, c.p - pt.y)
  }

  lemma OppositeOnCurve(c: Curve, pt: Point)
    requires c.p > 0 && OnCurve(c, pt) && pt.y != 0
    ensures OnCurve(c, Opposite(c, pt))
  {
    hide YSquare;
    var y, p := pt.y, c.p;
    var z := p - y;
    CubeIs(y);
    CubeIs(z);
    SquareOfNegative(y, p);
    CongIffMod(z * z, y * y, p);
  }

  /** The parity bit picks the right one of the two roots. */
  lemma DecompressFindsPoint(c: Curve, pt: Point)
    requires Prime(c.p) && c.p % 4 == 3 && InField(c, pt) && Solves(c, pt)
    ensures DecompressFromCurve(c, pt.x, pt.y % 2) == Ok(pt)
  {
    var p, y := c.p, pt.y;
    YSquareIsSquare(c, pt);
    SqrtFindsRoot(y, p);
    var root := SqrtCQ((y * y) % p, p).value;
    OnlyTwoRoots(root, y, p);
    ParityPicks(root, y, p);
  }

  lemma ParityPicks(root: int, y: int, p: int)
    requires p > 0 && p % 2 == 1 && 0 <= y < p && 0 <= root < p
    requires root == y || root == Negate(y, p)
    ensures (if root % 2 != y % 2 then Negate(root, p) else root) == y
  {
    NegateIs(y, p);
    NegateIs(root, p);
  }

  // ---- the byte format -----------------------------------------------------------------------

  lemma {:induction false} ReverseTwice<T>(s: seq<T>)
    ensures Reverse(Reverse(s)) == s
  {
  }

  lemma {:induction false} AppendZero(s: seq<byte>)
    ensures FromLE(s + [0]) == FromLE(s)
  {
    if s != [] {
      AppendZero(s[1..]);
      assert (s + [0])[1..] == s[1..] + [0];
    }
  }

  lemma FromBEToBE(x: nat)
    requires x < Pow256(32)
    ensures FromBE(Reverse(ToLE(x, 32))) == x
  {
    var s := ToLE(x, 32);
    ReverseTwice(s);
    AppendZero(s);
    FromLEToLE(x, 32);
    DivModUnique(x, Pow256(32), 0, x);
  }

  lemma ByteLengthIs(p: nat, n: nat)
    requires p > 0 && n >= 1
    ensures ByteLength(p) == n <==> Pow256(n - 1) <= p < Pow256(n)
  {
    hide BitLength, Pow256;
    ByteCount(p);
    var k := ByteLength(p);
    if k < n { Pow256Mono(k, n - 1); }
    if k > n { Pow256Mono(n, k - 1); }
  }

  lemma CompressedDecodes(c: Curve, pt: Point)
    requires c.p > 0 && pt != INFINITY && 0 <= pt.x < Pow256(32)
    ensures EncodePoint(pt, true).Ok?
    ensures Decode(c, EncodePoint(pt, true).value)
         == if ByteLength(c.p) == 32 then DecompressFromCurve(c, pt.x, pt.y % 2) else Error
  {
    hide Reverse, ToLE, FromBE, DecompressFromCurve, ByteLength, Pow256;
    var xbytes := Reverse(ToLE(pt.x, 32));
    var ba := [if pt.y % 2 == 0 then 2 else 3] + xbytes;
    assert ba[1..] == xbytes;
    FromBEToBE(pt.x);
  }

  /**
   * Decoding the compressed form of a finite point gives the point back exactly when the field prime
   * is 3 modulo 4 and takes 32 bytes.
   */
  lemma CompressionRoundTrip(c: Curve, pt: Point)
    requires Prime(c.p) && InField(c, pt) && Solves(c, pt) && pt != INFINITY
    ensures (EncodePoint(pt, true).Ok? && Decode(c, EncodePoint(pt, true).value) == Ok(pt))
       <==> c.p % 4 == 3 && Pow256(31) <= c.p < Pow256(32)
  {
    ByteLengthIs(c.p, 32);
    if pt.x < Pow256(32) {
      CompressedDecodes(c, pt);
      if c.p % 4 == 3 {
        DecompressFindsPoint(c, pt);
      } else if c.p >= Pow256(31) {
        NoRootOutside3Mod4(c, pt.x, pt.y % 2);
      }
    }
  }

  lemma NoRootOutside3Mod4(c: Curve, x: int, flag: int)
    requires Prime(c.p) && c.p % 4 != 3 && c.p >= Pow256(31)
    ensures DecompressFromCurve(c, x, flag) == Error
  {
    hide Pow, Prime, Pow256, YSquare;
    if c.p % 2 == 0 { EvenPrime(c.p); }
  }

  lemma EvenPrime(p: int)
    requires Prime(p) && p % 2 == 0
    ensures p == 2 && p < Pow256(31)
  {
    assert p == 2 * (p / 2);
    assert Divides(2, p);
    Pow256Mono(1, 31);
  }

  /** What decodes from a compressed form is on the curve. */
  lemma DecodedSolves(c: Curve, ba: seq<byte>)
    requires c.p > 0 && Decode(c, ba).Ok? && ba[0] != 4
    ensures OnCurve(c, Decode(c, ba).value)
  {
    hide FromBE, OnCurve, Solves, ByteLength;
    OnCurveIff(c, Decode(c, ba).value);
    if ba[0] != 0 { DecompressedSolves(c, FromBE(ba[1..]), ba[0] % 2); }
  }

  /** The uncompressed form needs no root and works for every 32-byte field. */
  lemma UncompressedRoundTrip(c: Curve, pt: Point)
    requires c.p > 0 && InField(c, pt) && pt != INFINITY && Pow256(31) <= c.p < Pow256(32)
    ensures EncodePoint(pt, false).Ok? && Decode(c, EncodePoint(pt, false).value) == Ok(pt)
  {
    hide Reverse, ToLE, FromBE, Decode, EncodePoint, ByteLength, Pow256;
    var xbytes, ybytes := Reverse(ToLE(pt.x, 32)), Reverse(ToLE(pt.y, 32));
    UncompressedForm(pt);
    ByteLengthIs(c.p, 32);
    UncompressedDecodes(c, xbytes, ybytes);
    FromBEToBE(pt.x);
    FromBEToBE(pt.y);
  }

  lemma UncompressedForm(pt: Point)
    requires pt != INFINITY && 0 <= pt.x < Pow256(32) && 0 <= pt.y < Pow256(32)
    ensures EncodePoint(pt, false) == Ok([4] + Reverse(ToLE(pt.x, 32)) + Reverse(ToLE(pt.y, 32)))
  {
  }

  lemma UncompressedDecodes(c: Curve, xbytes: seq<byte>, ybytes: seq<byte>)
    requires c.p > 0 && |xbytes| == |ybytes| == ByteLength(c.p)
    ensures Decode(c, [4] + xbytes + ybytes) == Ok(Point(FromBE(xbytes), FromBE(ybytes)))
  {
    var ba, n := [4] + xbytes + ybytes, ByteLength(c.p);
    assert ba[1..1 + n] == xbytes && ba[1 + n..] == ybytes;
  }

  // ---- the format in figures -----------------------------------------------------------------

  /** The bytes of an encoded point: the point at infinity, the compressed and the uncompressed form. */
  lemma EncodedInFigures(pt: Point, compressed: bool)
    ensures pt == Point(0, 0) ==> EncodePoint(pt, compressed) == Ok([0])
    ensures pt != Point(0, 0) && EncodePoint(pt, compressed).Ok? ==>
      var bytes := EncodePoint(pt, compressed).value;
      && |bytes| == (if compressed then 33 else 65)
      && bytes[0] == (if !compressed then 4 else if pt.y % 2 == 1 then 3 else 2)
      && (forall k: nat :: 1 <= k <= 32 ==> bytes[k] == pt.x / Pow256(32 - k) % 256)
      && (!compressed ==> forall k: nat :: 33 <= k <= 64 ==> bytes[k] == pt.y / Pow256(64 - k) % 256)
  {
    if pt != INFINITY && EncodePoint(pt, compressed).Ok? {
      hide ToLE, Reverse, Pow256;
      var bytes := EncodePoint(pt, compressed).value;
      forall k: nat | 1 <= k <= 32 ensures bytes[k] == pt.x / Pow256(32 - k) % 256 {
        ByteAt(pt.x, 32, 32 - k);
      }
      if !compressed {
        forall k: nat | 33 <= k <= 64 ensures bytes[k] == pt.y / Pow256(64 - k) % 256 {
          ByteAt(pt.y, 32, 64 - k);
        }
      }
    }
  }

  /** For a 32-byte prime: which bytes are decoded at all, and which of the others raise a ValueError. */
  lemma DecodedInFigures(c: Curve, ba: seq<byte>)
    requires Pow256(31) <= c.p < Pow256(32)
    ensures c.p > 0
    ensures ba == [] ==> Decode(c, ba) == Error && !DecodeRejects(c, ba)
    ensures ba != [] && ba[0] == 0 ==> Decode(c, ba) == Ok(Point(0, 0))
    ensures ba != [] && ba[0] in {2, 3} && |ba| == 33 ==> !DecodeRejects(c, ba)
    ensures ba != [] && ba[0] in {2, 3} && |ba| != 33 ==> Decode(c, ba) == Error && DecodeRejects(c, ba)
    ensures ba != [] && ba[0] == 4 ==> (Decode(c, ba).Ok? <==> |ba| == 65) && (DecodeRejects(c, ba) <==> |ba| != 65)
    ensures ba != [] && ba[0] in {6, 7} ==> Decode(c, ba) == Error && !DecodeRejects(c, ba)
    ensures ba != [] && ba[0] !in {0, 2, 3, 4, 6, 7} ==> Decode(c, ba) == Error && DecodeRejects(c, ba)
  {
    hide Pow256, FromBE, DecompressFromCurve, ByteLength;
    ByteLengthIs(c.p, 32);
  }
}
