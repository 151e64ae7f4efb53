/** neo/Core/Cryptography/ECCurve.py: `_lucas_sequence`, the modular fast-doubling ladder. */
module Lucas {
  import opened Arithmetic
  import opened Bits
  import opened NumberTheory

  // ---- the sequences by their linear recurrence ----------------------------------------------

  function U(P: int, Q: int, k: nat): int {
    if k == 0 then 0 else if k == 1 then 1 else P * U(P, Q, k - 1) - Q * U(P, Q, k - 2)
  }

  function V(P: int, Q: int, k: nat): int {
    if k == 0 then 2 else if k == 1 then P else P * V(P, Q, k - 1) - Q * V(P, Q, k - 2)
  }

  lemma LinearSum(P: int, Q: int, c: int, d: int, x: int, y: int, z: int, w: int)
    ensures c * (P * x - Q * y) + d * (P * z - Q * w) == P * (c * x + d * z) - Q * (c * y + d * w)
  {
  }

  lemma LinearDifference(P: int, Q: int, c: int, d: int, x: int, y: int, z: int, w: int)
    ensures c * (P * x - Q * y) - d * (P * z - Q * w) == P * (c * x - d * z) - Q * (c * y - d * w)
  {
  }

  /** One step up the ladder, both halves; D is the discriminant. */
  lemma {:induction false} Increment(P: int, Q: int, D: int, k: nat)
    requires D == P * P - 4 * Q
    ensures 2 * U(P, Q, k + 1) == P * U(P, Q, k) + V(P, Q, k)
    ensures 2 * V(P, Q, k + 1) == D * U(P, Q, k) + P * V(P, Q, k)
  {
    if k >= 2 {
      Increment(P, Q, D, k - 1);
      Increment(P, Q, D, k - 2);
      var u1, u2, v1, v2 := U(P, Q, k - 1), U(P, Q, k - 2), V(P, Q, k - 1), V(P, Q, k - 2);
      LinearSum(P, Q, P, 1, u1, u2, v1, v2);
      LinearSum(P, Q, D, P, u1, u2, v1, v2);
      TwiceStep(P, Q, U(P, Q, k), U(P, Q, k - 1));
      TwiceStep(P, Q, V(P, Q, k), V(P, Q, k - 1));
    }
  }

  lemma TwiceStep(P: int, Q: int, x: int, y: int)
    ensures 2 * (P * x - Q * y) == P * (2 * x) - Q * (2 * y)
  {
  }

  lemma {:induction false} Addition(P: int, Q: int, m: nat, j: nat)
    ensures U(P, Q, m + j + 1) == U(P, Q, m + 1) * U(P, Q, j + 1) - (Q * U(P, Q, m)) * U(P, Q, j)
  {
    if j <= 1 {
      AdditionBase(P, Q, m);
    } else {
      Addition(P, Q, m, j - 1);
      Addition(P, Q, m, j - 2);
      AdditionStep(P, Q, U(P, Q, m + 1), Q * U(P, Q, m),
        U(P, Q, m + j), U(P, Q, m + j - 1), U(P, Q, j), U(P, Q, j - 1), U(P, Q, j - 2));
      assert U(P, Q, m + j + 1) == P * U(P, Q, m + j) - Q * U(P, Q, m + j - 1);
      assert U(P, Q, j + 1) == P * U(P, Q, j) - Q * U(P, Q, j - 1);
    }
  }

  lemma AdditionBase(P: int, Q: int, m: nat)
    ensures U(P, Q, m + 1) == U(P, Q, m + 1) * U(P, Q, 1) - (Q * U(P, Q, m)) * U(P, Q, 0)
    ensures U(P, Q, m + 2) == U(P, Q, m + 1) * U(P, Q, 2) - (Q * U(P, Q, m)) * U(P, Q, 1)
  {
    assert U(P, Q, 2) == P;
  }

  lemma AdditionStep(P: int, Q: int, c: int, d: int, s: int, t: int, x: int, y: int, z: int)
    requires s == c * x - d * y && t == c * y - d * z
    ensures P * s - Q * t == c * (P * x - Q * y) - d * (P * y - Q * z)
  {
    LinearDifference(P, Q, c, d, x, y, y, z);
  }

  lemma CassiniStep(P: int, Q: int, a: int, b: int)
    ensures (P * b - Q * a) * (P * b - Q * a) - P * (P * b - Q * a) * b + Q * b * b
         == Q * (b * b - P * b * a + Q * a * a)
  {
    var c := P * b - Q * a;
    assert c * c - P * c * b == c * (c - P * b) == c * (-Q * a);
    assert c * (-Q * a) == -Q * (P * b * a) + Q * (Q * a * a);
  }

  lemma {:induction false} Cassini(P: int, Q: int, k: nat)
    ensures U(P, Q, k + 1) * U(P, Q, k + 1) - P * U(P, Q, k + 1) * U(P, Q, k) + Q * U(P, Q, k) * U(P, Q, k)
         == Pow(Q, k)
  {
    if k > 0 {
      Cassini(P, Q, k - 1);
      CassiniStep(P, Q, U(P, Q, k - 1), U(P, Q, k));
    }
  }

  lemma DoubleAlgebra(P: int, Q: int, a: int, b: int, z: int, v: int, q: int, s: int, t: int, w: int)
    requires v == 2 * b - P * a && z == P * a - b
    requires b * b - P * b * a + Q * a * a == q
    requires s == a * b - z * a && t == b * b - (Q * a) * a && 2 * t == P * s + w
    ensures s == a * v && w == v * v - 2 * q
  {
    DoubleU(P, a, b, z, v);
    SquareV(P, a, b, v);
    assert P * s == 2 * (P * (a * b)) - P * (P * (a * a));
    assert t == b * b - Q * a * a;
  }

  lemma DoubleU(P: int, a: int, b: int, z: int, v: int)
    requires v == 2 * b - P * a && z == P * a - b
    ensures a * v == 2 * (a * b) - P * (a * a) && a * b - z * a == a * v
  {
    assert a * v == a * (2 * b) - a * (P * a);
    assert z * a == (P * a) * a - b * a;
  }

  lemma SquareV(P: int, a: int, b: int, v: int)
    requires v == 2 * b - P * a
    ensures v * v == 4 * (b * b) - 4 * (P * (a * b)) + P * (P * (a * a))
  {
    assert v * v == v * (2 * b) - v * (P * a);
    assert v * (2 * b) == 4 * (b * b) - 2 * (P * (a * b));
    assert v * (P * a) == 2 * (P * (a * b)) - P * (P * (a * a));
  }

  /** Doubling: from k to 2k. */
  lemma Double(P: int, Q: int, k: nat)
    ensures U(P, Q, 2 * k) == U(P, Q, k) * V(P, Q, k)
    ensures V(P, Q, 2 * k) == V(P, Q, k) * V(P, Q, k) - 2 * Pow(Q, k)
    ensures Pow(Q, 2 * k) == Pow(Q, k) * Pow(Q, k)
  {
    PowAdd(Q, k, k);
    if k > 0 {
      DoublePositive(P, Q, k);
    }
  }

  lemma DoublePositive(P: int, Q: int, k: nat)
    requires k > 0
    ensures U(P, Q, 2 * k) == U(P, Q, k) * V(P, Q, k)
    ensures V(P, Q, 2 * k) == V(P, Q, k) * V(P, Q, k) - 2 * Pow(Q, k)
  {
    Increment(P, Q, P * P - 4 * Q, k);
    Increment(P, Q, P * P - 4 * Q, 2 * k);
    Addition(P, Q, k, k);
    Addition(P, Q, k - 1, k);
    Cassini(P, Q, k);
    DoubleAlgebra(P, Q, U(P, Q, k), U(P, Q, k + 1), Q * U(P, Q, k - 1), V(P, Q, k), Pow(Q, k),
      U(P, Q, 2 * k), U(P, Q, 2 * k + 1), V(P, Q, 2 * k));
  }

  // ---- halving modulo n ----------------------------------------------------------------------

  /** `if X & 1: X += n` followed by `X >>= 1`. */
  function Halve(x: int, n: int): int {
    (if x % 2 == 1 then x + n else x) / 2
  }

  lemma EvenFactor(n: int, k: int)
    requires n % 2 == 1 && (n * k) % 2 == 0
    ensures k % 2 == 0 && n * k == 2 * (n * (k / 2))
  {
    var i := n / 2;
    assert n * k == (2 * i + 1) * k == 2 * (i * k) + k;
  }

  /** Modulo an odd divisor of n this divides by 2, unless an odd number meets an even n. */
  lemma HalveCong(x: int, y: int, n: int, m: int, d: int)
    requires n > 0 && m > 0 && n == m * d && m % 2 == 1 && (n % 2 == 1 || x % 2 == 0) && Cong(x, 2 * y, m)
    ensures Cong(Halve(x, n), y, m)
  {
    hide Cong, Quotient, Halve;
    CongElim(x, 2 * y, m);
    var k := Quotient(x, 2 * y, m);
    var k' := if x % 2 == 1 then k + d else k;
    Distribute(m, k, d);
    TwiceHalve(x, n);
    HalfQuotient(Halve(x, n), y, m, k');
    CongIntro(Halve(x, n), y, m, k' / 2);
  }

  lemma TwiceHalve(x: int, n: int)
    requires n % 2 == 1 || x % 2 == 0
    ensures 2 * Halve(x, n) == if x % 2 == 1 then x + n else x
  {
  }

  lemma HalfQuotient(h: int, y: int, m: int, k: int)
    requires m % 2 == 1 && 2 * h - 2 * y == m * k
    ensures h - y == m * (k / 2)
  {
    EvenFactor(m, k);
  }

  lemma CongDivisor(a: int, b: int, n: int, m: int, d: int)
    requires n > 0 && m > 0 && n == m * d && Cong(a, b, n)
    ensures Cong(a, b, m)
  {
    CongElim(a, b, n);
    var k := Quotient(a, b, n);
    assert (m * d) * k == m * (d * k);
    CongIntro(a, b, m, d * k);
  }

  // ---- one rung of the ladder ----------------------------------------------------------------

  datatype Rung = Rung(u: int, v: int, q: int)

  function Doubled(n: int, r: Rung): Rung
    requires n > 0
  {
    Rung((r.u * r.v) % n, (r.v * r.v - 2 * r.q) % n, r.q * r.q)
  }

  function Raised(n: int, P: int, Q: int, r: Rung): Rung {
    Rung(Halve(r.u * P + r.v, n), Halve(r.v * P + r.u * (P * P - 4 * Q), n), r.q * Q)
  }

  /** Doubling, and for a bit that is set one more step with its halvings. */
  function Step(n: int, P: int, Q: int, r: Rung, bit: int): Rung
    requires n > 0
  {
    var s := if bit == 1 then Raised(n, P, Q, Doubled(n, r)) else Doubled(n, r);
    s.(q := s.q % n)
  }

  /** The ladder's values once it has consumed the bits of j. */
  function Climb(n: int, P: int, Q: int, j: nat): Rung
    requires n > 0 && j >= 1
  {
    if j == 1 then Rung(1, P, Q) else Step(n, P, Q, Climb(n, P, Q, j / 2), j % 2)
  }

  /** Bits that are set. */
  function Ones(j: nat): nat {
    if j == 0 then 0 else Ones(j / 2) + j % 2
  }

  /** U_j, V_j and Q^j, each modulo m. */
  ghost predicate Approximates(P: int, Q: int, j: nat, r: Rung, m: int)
    requires m > 0
  {
    Cong(r.u, U(P, Q, j), m) && Cong(r.v, V(P, Q, j), m) && Cong(r.q, Pow(Q, j), m)
  }

  lemma CongProductPlus(a: int, a': int, c: int, b: int, b': int, d: int, m: int)
    requires m > 0 && Cong(a, a', m) && Cong(b, b', m)
    ensures Cong(a * c + b * d, a' * c + b' * d, m)
  {
    CongIntro(c, c, m, 0);
    CongIntro(d, d, m, 0);
    CongMul(a, a', c, c, m);
    CongMul(b, b', d, d, m);
    CongAdd(a * c, a' * c, b * d, b' * d, m);
  }

  lemma CongReduced(a: int, b: int, n: int, m: int, d: int)
    requires n > 0 && m > 0 && n == m * d && Cong(a, b, m)
    ensures Cong(a % n, b, m)
  {
    CongMod(a, n);
    CongDivisor(a % n, a, n, m, d);
    CongTrans(a % n, a, b, m);
  }

  lemma DoubleApproximates(P: int, Q: int, n: int, j: nat, r: Rung, m: int, d: int)
    requires n > 0 && m > 0 && n == m * d && Approximates(P, Q, j, r, m)
    ensures Approximates(P, Q, 2 * j, Doubled(n, r), m)
  {
    hide U, V, Pow;
    var u, v, q := U(P, Q, j), V(P, Q, j), Pow(Q, j);
    Double(P, Q, j);
    CongMul(r.u, u, r.v, v, m);
    CongMul(r.v, v, r.v, v, m);
    CongMul(r.q, q, r.q, q, m);
    CongProductPlus(r.v * r.v, v * v, 1, r.q, q, -2, m);
    CongReduced(r.u * r.v, u * v, n, m, d);
    CongReduced(r.v * r.v - 2 * r.q, v * v - 2 * q, n, m, d);
  }

  /** Both halves of the step up, before the halving. */
  lemma TwiceApproximates(P: int, Q: int, D: int, j: nat, u: int, v: int, m: int)
    requires m > 0 && D == P * P - 4 * Q && Cong(u, U(P, Q, j), m) && Cong(v, V(P, Q, j), m)
    ensures Cong(u * P + v, 2 * U(P, Q, j + 1), m) && Cong(v * P + u * D, 2 * V(P, Q, j + 1), m)
  {
    hide U, V, Cong;
    var x, y := U(P, Q, j), V(P, Q, j);
    Increment(P, Q, D, j);
    CongProductPlus(u, x, P, v, y, 1, m);
    CongProductPlus(v, y, P, u, x, D, m);
    assert x * P + y * 1 == 2 * U(P, Q, j + 1) && y * P + x * D == 2 * V(P, Q, j + 1);
  }

  lemma PowerStep(Q: int, j: nat, q: int, m: int)
    requires m > 0 && Cong(q, Pow(Q, j), m)
    ensures Cong(q * Q, Pow(Q, j + 1), m)
  {
    CongIntro(Q, Q, m, 0);
    CongMul(q, Pow(Q, j), Q, Q, m);
  }

  lemma Bottom(P: int, Q: int, m: int)
    requires m > 0
    ensures Approximates(P, Q, 1, Rung(1, P, Q), m)
  {
    assert Pow(Q, 1) == Q * Pow(Q, 0);
  }

  /** For even n both dividends of a step up are even, so that halving them loses nothing. */
  ghost predicate SameParity(P: int, r: Rung) {
    Cong(r.v, r.u * P, 2)
  }

  lemma DoubledParity(n: int, P: int, r: Rung)
    requires n > 0 && n % 2 == 0 && SameParity(P, r)
    ensures SameParity(P, Doubled(n, r))
  {
    hide Cong;
    var w, x := r.u * r.v, r.v * r.v;
    CongIntro(r.v, r.v, 2, 0);
    CongMul(r.v, r.u * P, r.v, r.v, 2);
    assert (r.u * P) * r.v == w * P;
    CongIntro(x - 2 * r.q, x, 2, -r.q);
    CongTrans(x - 2 * r.q, x, w * P, 2);
    CongReduced(x - 2 * r.q, w * P, n, 2, n / 2);
    CongIntro(w, w, 2, 0);
    CongReduced(w, w, n, 2, n / 2);
    CongIntro(P, P, 2, 0);
    CongMul(w % n, w, P, P, 2);
    CongFlip((w % n) * P, w * P, 2);
    CongTrans((x - 2 * r.q) % n, w * P, (w % n) * P, 2);
  }

  lemma CongFlip(a: int, b: int, m: int)
    requires m > 0 && Cong(a, b, m)
    ensures Cong(b, a, m)
  {
    CongIffMod(a, b, m);
    CongIffMod(b, a, m);
  }

  lemma RaisedDividends(P: int, Q: int, u: int, v: int, e: int)
    requires v == u * P + 2 * e
    ensures u * P + v == 2 * (u * P + e)
    ensures v * P + u * (P * P - 4 * Q) == 2 * ((u * P + e) * P - 2 * (u * Q))
  {
    assert v * P == (u * P) * P + 2 * (e * P) && u * (P * P - 4 * Q) == (u * P) * P - 4 * (u * Q);
  }

  lemma HalveTwice(x: int, n: int)
    ensures Halve(2 * x, n) == x
  {
  }

  lemma RaisedParity(n: int, P: int, Q: int, r: Rung)
    requires SameParity(P, r)
    ensures (r.u * P + r.v) % 2 == 0 && (r.v * P + r.u * (P * P - 4 * Q)) % 2 == 0
    ensures SameParity(P, Raised(n, P, Q, r))
  {
    hide Cong, Halve;
    CongElim(r.v, r.u * P, 2);
    var e := Quotient(r.v, r.u * P, 2);
    RaisedDividends(P, Q, r.u, r.v, e);
    var x := r.u * P + e;
    HalveTwice(x, n);
    HalveTwice(x * P - 2 * (r.u * Q), n);
    CongIntro(x * P - 2 * (r.u * Q), x * P, 2, -(r.u * Q));
  }

  lemma {:induction false} ClimbParity(n: int, P: int, Q: int, j: nat)
    requires n > 0 && n % 2 == 0 && j >= 1
    ensures SameParity(P, Climb(n, P, Q, j))
  {
    hide SameParity, Doubled, Raised;
    if j == 1 {
      ParityStart(P, Q);
    } else {
      var r := Climb(n, P, Q, j / 2);
      ClimbParity(n, P, Q, j / 2);
      DoubledParity(n, P, r);
      RaisedParity(n, P, Q, Doubled(n, r));
      ParityOf(P, if j % 2 == 1 then Raised(n, P, Q, Doubled(n, r)) else Doubled(n, r), Climb(n, P, Q, j));
    }
  }

  lemma ParityStart(P: int, Q: int)
    ensures SameParity(P, Rung(1, P, Q))
  {
  }

  lemma ParityOf(P: int, r: Rung, s: Rung)
    requires SameParity(P, r) && r.u == s.u && r.v == s.v
    ensures SameParity(P, s)
  {
  }

  /** One rung modulo an odd divisor of n. */
  lemma RaiseApproximates(P: int, Q: int, n: int, j: nat, r: Rung, m: int, d: int)
    requires n > 0 && m > 0 && n == m * d && m % 2 == 1 && Approximates(P, Q, j, r, m)
    requires n % 2 == 1 || SameParity(P, r)
    ensures Approximates(P, Q, j + 1, Raised(n, P, Q, r), m)
  {
    hide U, V, Pow, Halve, Cong, SameParity;
    var D := P * P - 4 * Q;
    TwiceApproximates(P, Q, D, j, r.u, r.v, m);
    if n % 2 == 0 { RaisedParity(n, P, Q, r); }
    HalveCong(r.u * P + r.v, U(P, Q, j + 1), n, m, d);
    HalveCong(r.v * P + r.u * D, V(P, Q, j + 1), n, m, d);
    PowerStep(Q, j, r.q, m);
  }

  lemma ReduceApproximates(P: int, Q: int, n: int, j: nat, r: Rung, m: int, d: int)
    requires n > 0 && m > 0 && n == m * d && Approximates(P, Q, j, r, m)
    ensures Approximates(P, Q, j, r.(q := r.q % n), m)
  {
    CongReduced(r.q, Pow(Q, j), n, m, d);
  }

  /** Modulo an odd divisor of n the ladder is right. */
  lemma {:induction false} ClimbModuloOdd(n: int, P: int, Q: int, j: nat, m: int, d: int)
    requires n > 0 && j >= 1 && m > 0 && n == m * d && m % 2 == 1
    ensures Approximates(P, Q, j, Climb(n, P, Q, j), m)
  {
    hide Approximates, SameParity, Doubled, Raised;
    if j == 1 {
      Bottom(P, Q, m);
    } else {
      var h, r := j / 2, Climb(n, P, Q, j / 2);
      ClimbModuloOdd(n, P, Q, h, m, d);
      DoubleApproximates(P, Q, n, h, r, m, d);
      var s := Doubled(n, r);
      if j % 2 == 1 {
        if n % 2 == 0 { ClimbParity(n, P, Q, h); DoubledParity(n, P, r); }
        RaiseApproximates(P, Q, n, 2 * h, s, m, d);
        ReduceApproximates(P, Q, n, j, Raised(n, P, Q, s), m, d);
      } else {
        ReduceApproximates(P, Q, n, j, s, m, d);
      }
    }
  }

  /** Doubling alone is right modulo n. */
  lemma {:induction false} ClimbPowerOf2(n: int, P: int, Q: int, j: nat)
    requires n > 0 && Ones(j) == 1
    ensures j >= 1 && Approximates(P, Q, j, Climb(n, P, Q, j), n)
  {
    hide Approximates, Doubled, Raised;
    if j == 1 {
      Bottom(P, Q, n);
    } else {
      var h := j / 2;
      if j % 2 == 1 { OnesPositive(h); }
      ClimbPowerOf2(n, P, Q, h);
      DoubleApproximates(P, Q, n, h, Climb(n, P, Q, h), n, 1);
      ReduceApproximates(P, Q, n, j, Doubled(n, Climb(n, P, Q, h)), n, 1);
    }
  }

  lemma {:induction false} OnesPositive(j: nat)
    ensures j >= 1 ==> Ones(j) >= 1
  {
    if j >= 2 { OnesPositive(j / 2); }
  }

  // ---- moduli that are multiples of 4 --------------------------------------------------------

  /**
   * What a step up leaves: twice the values are right modulo n, and so is the mixed product that the next
   * doubling needs.
   */
  ghost predicate HalfRight(P: int, Q: int, j: nat, r: Rung, n: int)
    requires n > 0
  {
    var u, v := U(P, Q, j), V(P, Q, j);
    && Cong(2 * r.u, 2 * u, n) && Cong(2 * r.v, 2 * v, n) && Cong(r.q, Pow(Q, j), n)
    && Cong(r.u * v + r.v * u, 2 * (u * v), n)
  }

  lemma MixedAlgebra(P: int, D: int, u: int, v: int, x: int, y: int, u': int, v': int, u'': int, v'': int)
    requires 2 * x == u * P + v && 2 * y == v * P + u * D
    requires 2 * u'' == P * u' + v' && 2 * v'' == D * u' + P * v'
    ensures x * v' + y * u' == u * v'' + v * u''
  {
    calc {
      2 * (x * v' + y * u');
      (2 * x) * v' + (2 * y) * u';
      (u * P + v) * v' + (v * P + u * D) * u';
      u * (D * u' + P * v') + v * (P * u' + v');
      u * (2 * v'') + v * (2 * u'');
      2 * (u * v'' + v * u'');
    }
  }

  lemma MixedRight(P: int, Q: int, j: nat)
    ensures U(P, Q, j) * V(P, Q, j + 2) + V(P, Q, j) * U(P, Q, j + 2) == 2 * (U(P, Q, j + 1) * V(P, Q, j + 1))
  {
    hide U, V;
    var D := P * P - 4 * Q;
    Increment(P, Q, D, j);
    Increment(P, Q, D, j + 1);
    MixedAlgebra(P, D, U(P, Q, j), V(P, Q, j), U(P, Q, j + 1), V(P, Q, j + 1), U(P, Q, j + 1), V(P, Q, j + 1),
      U(P, Q, j + 2), V(P, Q, j + 2));
  }

  lemma RaiseHalfRight(P: int, Q: int, n: int, j: nat, r: Rung)
    requires n > 0 && n % 2 == 0 && SameParity(P, r) && Approximates(P, Q, j, r, n)
    ensures HalfRight(P, Q, j + 1, Raised(n, P, Q, r), n)
  {
    hide U, V, Pow, Cong, SameParity;
    var D, s := P * P - 4 * Q, Raised(n, P, Q, r);
    RaisedParity(n, P, Q, r);
    TwiceApproximates(P, Q, D, j, r.u, r.v, n);
    PowerStep(Q, j, r.q, n);
    assert 2 * s.u == r.u * P + r.v && 2 * s.v == r.v * P + r.u * D;
    Increment(P, Q, D, j + 1);
    MixedAlgebra(P, D, r.u, r.v, s.u, s.v, U(P, Q, j + 1), V(P, Q, j + 1), U(P, Q, j + 2), V(P, Q, j + 2));
    MixedRight(P, Q, j);
    CongProductPlus(r.u, U(P, Q, j), V(P, Q, j + 2), r.v, V(P, Q, j), U(P, Q, j + 2), n);
  }

  /** A product of two numbers that are off by multiples of n / 2. */
  lemma ProductRight(x: int, u: int, y: int, v: int, n: int)
    requires n > 0 && n % 4 == 0 && Cong(2 * x, 2 * u, n) && Cong(2 * y, 2 * v, n)
    ensures Cong(x * y, x * v + y * u - u * v, n)
  {
    CongElim(2 * x, 2 * u, n);
    CongElim(2 * y, 2 * v, n);
    var a, b, h := Quotient(2 * x, 2 * u, n), Quotient(2 * y, 2 * v, n), n / 4;
    assert n * a == 2 * (2 * h * a) && n * b == 2 * (2 * h * b);
    Expand(x, u, y, v, 2 * h * a, 2 * h * b);
    assert (2 * h * a) * (2 * h * b) == (4 * h) * (h * a * b);
    CongIntro(x * y, x * v + y * u - u * v, n, h * a * b);
  }

  lemma Expand(x: int, u: int, y: int, v: int, e: int, f: int)
    requires x == u + e && y == v + f
    ensures x * y == x * v + y * u - u * v + e * f
  {
  }

  /** A doubling makes good what the step up has lost. */
  lemma DoubleHalfRight(P: int, Q: int, n: int, j: nat, r: Rung)
    requires n > 0 && n % 4 == 0 && HalfRight(P, Q, j, r, n)
    ensures Approximates(P, Q, 2 * j, Doubled(n, r), n)
  {
    hide U, V, Pow, Cong;
    var u, v, q := U(P, Q, j), V(P, Q, j), Pow(Q, j);
    Double(P, Q, j);
    ProductRight(r.u, u, r.v, v, n);
    CongProductPlus(r.u * v + r.v * u, 2 * (u * v), 1, 1, 1, -(u * v), n) by { CongIntro(1, 1, n, 0); }
    CongTrans(r.u * r.v, r.u * v + r.v * u - u * v, u * v, n);
    ProductRight(r.v, v, r.v, v, n);
    CongProductPlus(2 * r.v, 2 * v, v, 1, 1, -(v * v), n) by { CongIntro(1, 1, n, 0); }
    assert r.v * v + r.v * v == (2 * r.v) * v && (2 * v) * v - v * v == v * v;
    CongTrans(r.v * r.v, r.v * v + r.v * v - v * v, v * v, n);
    CongMul(r.q, q, r.q, q, n);
    CongProductPlus(r.v * r.v, v * v, 1, r.q, q, -2, n);
    CongReduced(r.u * r.v, u * v, n, n, 1);
    CongReduced(r.v * r.v - 2 * r.q, v * v - 2 * q, n, n, 1);
  }

  lemma ReduceHalfRight(P: int, Q: int, n: int, j: nat, r: Rung)
    requires n > 0 && HalfRight(P, Q, j, r, n)
    ensures HalfRight(P, Q, j, r.(q := r.q % n), n)
  {
    hide U, V;
    CongReduced(r.q, Pow(Q, j), n, n, 1);
  }

  /** Right after every doubling, and half right after every step up. */
  lemma {:induction false} ClimbModulo4(n: int, P: int, Q: int, j: nat)
    requires n > 0 && n % 4 == 0 && j >= 1
    ensures if j == 1 || j % 2 == 0 then Approximates(P, Q, j, Climb(n, P, Q, j), n)
      else HalfRight(P, Q, j, Climb(n, P, Q, j), n)
  {
    hide Approximates, HalfRight, SameParity, Doubled, Raised;
    if j == 1 {
      Bottom(P, Q, n);
    } else {
      var h, r := j / 2, Climb(n, P, Q, j / 2);
      ClimbModulo4(n, P, Q, h);
      var s := Doubled(n, r);
      if h == 1 || h % 2 == 0 { DoubleApproximates(P, Q, n, h, r, n, 1); } else { DoubleHalfRight(P, Q, n, h, r); }
      if j % 2 == 1 {
        ClimbParity(n, P, Q, h);
        DoubledParity(n, P, r);
        RaiseHalfRight(P, Q, n, 2 * h, s);
        ReduceHalfRight(P, Q, n, j, Raised(n, P, Q, s));
      } else {
        ReduceApproximates(P, Q, n, j, s, n, 1);
      }
    }
  }

  lemma HalfRightModuloHalf(P: int, Q: int, j: nat, r: Rung, n: int)
    requires n > 0 && n % 2 == 0 && HalfRight(P, Q, j, r, n)
    ensures Approximates(P, Q, j, r, n / 2)
  {
    hide U, V, Pow;
    CongHalf(r.u, U(P, Q, j), n);
    CongHalf(r.v, V(P, Q, j), n);
    CongDivisor(r.q, Pow(Q, j), n, n / 2, 2);
  }

  lemma CongHalf(a: int, b: int, n: int)
    requires n > 0 && n % 2 == 0 && Cong(2 * a, 2 * b, n)
    ensures Cong(a, b, n / 2)
  {
    CongElim(2 * a, 2 * b, n);
    var k, h := Quotient(2 * a, 2 * b, n), n / 2;
    assert n * k == 2 * (h * k);
    CongIntro(a, b, h, k);
  }

  // ---- for which moduli the ladder is right --------------------------------------------------

  /** Right modulo all of n: odd n, powers of 2, and even k when 4 divides n; the pair for k = 0 is not reduced. */
  predicate Exact(n: int, k: nat) {
    n % 2 == 1 || Ones(k) == 1 || (n % 4 == 0 && k % 2 == 0) || (k == 0 && n > 2)
  }

  function Modulus(n: int, k: nat): (m: int)
    requires n >= 2
    ensures m > 0
  {
    if Exact(n, k) then n else n / 2
  }

  lemma ClimbApproximates(n: int, P: int, Q: int, j: nat)
    requires n >= 2 && j >= 1
    ensures Approximates(P, Q, j, Climb(n, P, Q, j), Modulus(n, j))
  {
    hide Approximates, HalfRight, Climb;
    if n % 2 == 1 {
      ClimbModuloOdd(n, P, Q, j, n, 1);
    } else if Ones(j) == 1 {
      ClimbPowerOf2(n, P, Q, j);
    } else if n % 4 == 0 {
      ClimbModulo4(n, P, Q, j);
      if j % 2 == 1 {
        assert Ones(1) == 1;
        HalfRightModuloHalf(P, Q, j, Climb(n, P, Q, j), n);
      }
    } else {
      ClimbModuloOdd(n, P, Q, j, n / 2, 2);
    }
  }

  // ---- and for which it is not ---------------------------------------------------------------

  lemma {:induction false} UnitPair(n: int, k: nat)
    requires n > 0 && k >= 1
    ensures Cong(U(n + 1, 0, k), 1, n) && Cong(V(n + 1, 0, k), 1, n)
  {
    if k == 1 {
      CongIntro(n + 1, 1, n, 1);
      CongIntro(1, 1, n, 0);
    } else {
      UnitPair(n, k - 1);
      CongIntro(n + 1, 1, n, 1);
      CongMul(n + 1, 1, U(n + 1, 0, k - 1), 1, n);
      CongMul(n + 1, 1, V(n + 1, 0, k - 1), 1, n);
    }
  }

  /** Both values are c modulo n, and the power of Q = 0 is 0. */
  ghost predicate Both(r: Rung, c: int, n: int)
    requires n > 0
  {
    Cong(r.u, c, n) && Cong(r.v, c, n) && r.q == 0
  }

  lemma DoubleBoth(n: int, r: Rung, c: int)
    requires n > 0 && Both(r, c, n)
    ensures Both(Doubled(n, r), c * c, n) && Doubled(n, r).u == Doubled(n, r).v
  {
    CongMul(r.u, c, r.v, c, n);
    CongMul(r.v, c, r.v, c, n);
    CongReduced(r.u * r.v, c * c, n, n, 1);
    CongReduced(r.v * r.v, c * c, n, n, 1);
    CongIffMod(r.u * r.v, c * c, n);
    CongIffMod(r.v * r.v, c * c, n);
  }

  lemma BothDividends(s: int, n: int, w: int)
    requires n + 2 == 2 * w
    ensures s * (n + 1) + s == 2 * (s * w)
    ensures s * (n + 1) + s * ((n + 1) * (n + 1)) == 2 * (s * w + n * (s * w))
  {
    var x := s * w;
    assert s * (n + 1) + s == s * (2 * w) == 2 * x;
    assert s * ((n + 1) * (n + 1)) == (s * (n + 1)) * (n + 1);
    assert s * (n + 1) + (s * (n + 1)) * (n + 1) == (s * (n + 1)) * (2 * w) == (n + 1) * (2 * x);
  }

  lemma RaiseBoth(n: int, r: Rung, c: int)
    requires n > 0 && n % 2 == 0 && Both(r, c, n) && r.u == r.v
    ensures Both(Raised(n, n + 1, 0, r), c * (n / 2 + 1), n)
  {
    hide Cong, Halve;
    var s, w := r.u, n / 2 + 1;
    BothDividends(s, n, w);
    HalveTwice(s * w, n);
    HalveTwice(s * w + n * (s * w), n);
    CongIntro(w, w, n, 0);
    CongMul(s, c, w, w, n);
    CongIntro(s * w + n * (s * w), s * w, n, s * w);
    CongTrans(s * w + n * (s * w), s * w, c * w, n);
  }

  /** The square of n / 2 + 1 is 1 modulo a multiple of 4, and n / 2 + 1 itself modulo the other even numbers. */
  lemma SquareOf(n: int)
    requires n > 0 && n % 2 == 0
    ensures var w := n / 2 + 1; Cong(w * w, if n % 4 == 0 then 1 else w, n)
  {
    var h := n / 2;
    if n % 4 == 0 {
      var i := n / 4;
      assert (2 * i + 1) * (2 * i + 1) == 1 + (4 * i) * (i + 1);
      CongIntro((h + 1) * (h + 1), 1, n, i + 1);
    } else {
      var i := n / 4;
      assert h == 2 * i + 1 && (h + 1) * (h + 1) == h + 1 + h * (h + 1) == h + 1 + n * (i + 1);
      CongIntro((h + 1) * (h + 1), h + 1, n, i + 1);
    }
  }

  function Answer(n: int, j: nat): int {
    if Exact(n, j) then 1 else n / 2 + 1
  }

  lemma BothTrans(r: Rung, c: int, d: int, n: int)
    requires n > 0 && Both(r, c, n) && Cong(c, d, n)
    ensures Both(r, d, n)
  {
    CongTrans(r.u, c, d, n);
    CongTrans(r.v, c, d, n);
  }

  lemma AnswerSquared(n: int, h: nat)
    requires n >= 2 && n % 2 == 0 && h >= 1
    ensures Cong(Answer(n, h) * Answer(n, h), Answer(n, 2 * h), n)
  {
    hide Cong;
    assert Ones(2 * h) == Ones(h);
    CongIntro(1, 1, n, 0);
    SquareOf(n);
  }

  lemma AnswerRaised(n: int, h: nat)
    requires n >= 2 && n % 2 == 0 && h >= 1
    ensures Cong(Answer(n, 2 * h) * (n / 2 + 1), Answer(n, 2 * h + 1), n)
  {
    hide Cong;
    OnesPositive(h);
    assert Ones(2 * h + 1) == Ones(h) + 1;
    CongIntro(n / 2 + 1, n / 2 + 1, n, 0);
    SquareOf(n);
  }

  lemma ClimbBoth(n: int, j: nat, c: int)
    requires n > 0 && j >= 2
    requires var s := Doubled(n, Climb(n, n + 1, 0, j / 2));
      Both(if j % 2 == 1 then Raised(n, n + 1, 0, s) else s, c, n)
    ensures Both(Climb(n, n + 1, 0, j), c, n)
  {
    hide Doubled, Raised, Cong;
    ZeroReduced(n);
  }

  lemma ZeroReduced(n: int)
    requires n > 0
    ensures 0 % n == 0
  {
  }

  lemma AnswersStart(n: int)
    requires n > 0
    ensures Climb(n, n + 1, 0, 1) == Rung(1, n + 1, 0) && Both(Rung(1, n + 1, 0), Answer(n, 1), n)
  {
    assert Ones(1) == 1;
    CongIntro(n + 1, 1, n, 1);
    CongIntro(1, 1, n, 0);
  }

  /** For P = n + 1 and Q = 0 the ladder ends on n / 2 + 1 wherever it is not right. */
  lemma {:induction false} ClimbAnswers(n: int, j: nat)
    requires n >= 2 && n % 2 == 0 && j >= 1
    ensures Both(Climb(n, n + 1, 0, j), Answer(n, j), n)
  {
    hide *;
    if j == 1 {
      AnswersStart(n);
    } else {
      var h := j / 2;
      var c, d, r := Answer(n, h), Answer(n, 2 * h), Climb(n, n + 1, 0, h);
      var s := Doubled(n, r);
      ClimbAnswers(n, h);
      DoubleBoth(n, r, c);
      AnswerSquared(n, h);
      BothTrans(s, c * c, d, n);
      if j % 2 == 1 {
        RaiseBoth(n, s, d);
        AnswerRaised(n, h);
        BothTrans(Raised(n, n + 1, 0, s), d * (n / 2 + 1), Answer(n, j), n);
      }
      ClimbBoth(n, j, Answer(n, j));
    }
  }

  // ---- the three branches --------------------------------------------------------------------

  datatype Result = Pair(u: int, v: int) | ValueError

  /** `k >> (b - 1)`: the bits of k the ladder has consumed. */
  function Consumed(k: nat, b: nat): nat
    requires b >= 1
  {
    DivNonNegative(k, Pow2(b - 1));
    k / Pow2(b - 1)
  }

  function Bit(k: nat, b: nat): nat
    requires b >= 1
  {
    Consumed(k, b) % 2
  }

  lemma ConsumeOne(k: nat, b: nat)
    requires b >= 2
    ensures Consumed(k, b - 1) == 2 * Consumed(k, b) + Bit(k, b - 1)
  {
    DivDiv(k, Pow2(b - 2), 2);
  }

  lemma ConsumeEnds(k: nat)
    requires k > 0
    ensures BitLength(k) >= 1 && Consumed(k, BitLength(k)) == 1 && Consumed(k, 1) == k
  {
    BitLengthBounds(k);
    DivRange(k, Pow2(BitLength(k) - 1), 1, 2);
  }

  lemma ClimbOne(n: int, P: int, Q: int, j: nat, bit: nat)
    requires n > 0 && j >= 1 && bit <= 1
    ensures Climb(n, P, Q, 2 * j + bit) == Step(n, P, Q, Climb(n, P, Q, j), bit)
  {
    hide Step;
    assert (2 * j + bit) / 2 == j && (2 * j + bit) % 2 == bit;
  }

  lemma StepUnit(n: int, P: int, r: Rung, bit: int)
    requires n >= 2 && r.q == 1
    ensures Step(n, P, 1, r, bit).q == 1
  {
    hide Halve;
    DivModUnique(1, n, 0, 1);
  }

  /** The branch for Q = 1, which needs no running power of Q. */
  method UnitLadder(n: int, P: int, D: int, k: nat) returns (u: int, v: int)
    requires n >= 2 && k >= 1 && D == P * P - 4 * 1
    ensures Rung(u, v, 1) == Climb(n, P, 1, k)
  {
    hide Consumed, Climb, Halve;
    u, v := 1, P;
    var b := BitLength(k);
    ghost var j := 1;
    ConsumeEnds(k);
    ClimbStart(n, P, 1);
    while b > 1
      invariant b >= 1 && j == Consumed(k, b) && j >= 1 && Rung(u, v, 1) == Climb(n, P, 1, j)
    {
      ConsumeOne(k, b);
      ClimbOne(n, P, 1, j, Bit(k, b - 1));
      StepUnit(n, P, Rung(u, v, 1), Bit(k, b - 1));
      u, v := (u * v) % n, (v * v - 2) % n;
      b := b - 1;
      j := 2 * j + Bit(k, b);
      if Bit(k, b) == 1 {
        var t := u * D;
        u := Halve(u * P + v, n);
        v := Halve(v * P + t, n);
      }
    }
  }

  lemma ClimbStart(n: int, P: int, Q: int)
    requires n > 0
    ensures Climb(n, P, Q, 1) == Rung(1, P, Q)
  {
  }

  lemma StepSign(n: int, r: Rung, q: int, bit: int)
    requires n >= 2 && (q == 1 || q == -1) && Cong(q, r.q, n)
    ensures (r.v * r.v - 2 * q) % n == (r.v * r.v - 2 * r.q) % n
    ensures Cong(if bit == 1 then -1 else 1, Step(n, 1, -1, r, bit).q, n)
  {
    hide Halve;
    CongIntro(1, 1, n, 0);
    CongProductPlus(q, r.q, -2, 1, 1, r.v * r.v, n);
    CongIffMod(r.v * r.v - 2 * q, r.v * r.v - 2 * r.q, n);
    CongMul(q, r.q, q, r.q, n);
    assert q * q == 1;
    CongProductPlus(1, r.q * r.q, -1, 1, 1, 0, n);
    SignReduced(1, r.q * r.q, n);
    SignReduced(-1, r.q * r.q * -1, n);
  }

  lemma SignReduced(a: int, b: int, n: int)
    requires n > 0 && Cong(a, b, n)
    ensures Cong(a, b % n, n)
  {
    CongMod(b, n);
    CongIffMod(a, b, n);
    CongIffMod(b % n, b, n);
    CongIffMod(a, b % n, n);
  }

  /** One turn of the loop below. */
  lemma SelfridgeRung(n: int, r: Rung, q: int, bit: int)
    requires n >= 2 && (q == 1 || q == -1) && Cong(q, r.q, n)
    ensures var u, v, next := (r.u * r.v) % n, (r.v * r.v - 2 * q) % n, Step(n, 1, -1, r, bit);
      if bit == 1 then next.u == Halve(u + v, n) && next.v == Halve(v + u * 5, n) else next.u == u && next.v == v
  {
    hide Halve, Cong;
    StepSign(n, r, q, bit);
  }

  /** The branch for P = 1, Q = -1, where the running power of Q is a sign. */
  method SelfridgeLadder(n: int, D: int, k: nat) returns (u: int, v: int)
    requires n >= 2 && k >= 1 && D == 1 * 1 - 4 * -1
    ensures var r := Climb(n, 1, -1, k); u == r.u && v == r.v
  {
    hide Consumed, Climb, Halve, Cong, Step;
    u, v := 1, 1;
    var qk := -1;
    var b := BitLength(k);
    ghost var j, r := 1, Rung(1, 1, -1);
    ConsumeEnds(k);
    ClimbStart(n, 1, -1);
    CongIntro(-1, -1, n, 0);
    while b > 1
      invariant b >= 1 && j == Consumed(k, b) && j >= 1 && r == Climb(n, 1, -1, j) && u == r.u && v == r.v
      invariant (qk == 1 || qk == -1) && Cong(qk, r.q, n)
    {
      ConsumeOne(k, b);
      ClimbOne(n, 1, -1, j, Bit(k, b - 1));
      StepSign(n, r, qk, Bit(k, b - 1));
      SelfridgeRung(n, r, qk, Bit(k, b - 1));
      u := (u * v) % n;
      if qk == 1 {
        v := (v * v - 2) % n;
      } else {
        v := (v * v + 2) % n;
        qk := 1;
      }
      b := b - 1;
      j, r := 2 * j + Bit(k, b), Step(n, 1, -1, r, Bit(k, b));
      if Bit(k, b) == 1 {
        var t := u * D;
        u := Halve(u + v, n);
        v := Halve(v + t, n);
        qk := -1;
      }
    }
  }

  /** The general branch. */
  method GeneralLadder(n: int, P: int, Q: int, D: int, k: nat) returns (u: int, v: int)
    requires n >= 2 && k >= 1 && D == P * P - 4 * Q
    ensures var r := Climb(n, P, Q, k); u == r.u && v == r.v
  {
    hide Consumed, Climb, Halve;
    u, v := 1, P;
    var qk := Q;
    var b := BitLength(k);
    ghost var j := 1;
    ConsumeEnds(k);
    ClimbStart(n, P, Q);
    while b > 1
      invariant b >= 1 && j == Consumed(k, b) && j >= 1 && Rung(u, v, qk) == Climb(n, P, Q, j)
    {
      ConsumeOne(k, b);
      ClimbOne(n, P, Q, j, Bit(k, b - 1));
      u, v := (u * v) % n, (v * v - 2 * qk) % n;
      qk := qk * qk;
      b := b - 1;
      j := 2 * j + Bit(k, b);
      if Bit(k, b) == 1 {
        var t := u * D;
        u := Halve(u * P + v, n);
        v := Halve(v * P + t, n);
        qk := qk * Q;
      }
      qk := qk % n;
    }
  }

  /** The three branches compute one function, except that the pair for k = 0 is not reduced. */
  function LucasPair(n: int, P: int, Q: int, k: int): Result {
    if n < 2 || k < 0 || P * P - 4 * Q == 0 then ValueError
    else if k == 0 then Pair(0, 2)
    else Pair(Climb(n, P, Q, k).u % n, Climb(n, P, Q, k).v % n)
  }

  ghost predicate PairModulo(r: Result, P: int, Q: int, k: nat, m: int)
    requires m > 0
  {
    r.Pair? && Cong(r.u, U(P, Q, k), m) && Cong(r.v, V(P, Q, k), m)
  }

  ghost predicate IsPair(r: Result, n: int, P: int, Q: int, k: nat)
    requires n > 0
  {
    r == Pair(U(P, Q, k) % n, V(P, Q, k) % n)
  }

  /**
   * The result is the k-th Lucas pair modulo n where `Exact` says so, among them every odd n, and modulo half
   * of n everywhere else.
   */
  method LucasSequence(n: int, P: int, Q: int, k: int) returns (r: Result)
    ensures r == LucasPair(n, P, Q, k)
    ensures r == ValueError <==> n < 2 || k < 0 || P * P - 4 * Q == 0
    ensures r.Pair? && Exact(n, k) ==> IsPair(r, n, P, Q, k)
    ensures r.Pair? && n % 2 == 0 ==> PairModulo(r, P, Q, k, n / 2)
  {
    hide Climb, Exact, U, V, Cong;
    var D := P * P - 4 * Q;
    if n < 2 || k < 0 || D == 0 {
      return ValueError;
    }
    LucasPairIs(n, P, Q, k);
    if k == 0 {
      return Pair(0, 2);
    }
    var u, v;
    if Q == 1 {
      u, v := UnitLadder(n, P, D, k);
    } else if P == 1 && Q == -1 {
      u, v := SelfridgeLadder(n, D, k);
    } else {
      u, v := GeneralLadder(n, P, Q, D, k);
    }
    return Pair(u % n, v % n);
  }

  lemma ZerothPair(n: int, P: int, Q: int)
    requires n >= 2
    ensures IsPair(Pair(0, 2), n, P, Q, 0) <==> n > 2
    ensures Exact(n, 0) <==> n > 2
    ensures n % 2 == 0 ==> PairModulo(Pair(0, 2), P, Q, 0, n / 2)
  {
    assert Ones(0) == 0;
  }

  lemma LucasPairIs(n: int, P: int, Q: int, k: nat)
    requires n >= 2 && P * P - 4 * Q != 0
    ensures Exact(n, k) ==> IsPair(LucasPair(n, P, Q, k), n, P, Q, k)
    ensures n % 2 == 0 ==> PairModulo(LucasPair(n, P, Q, k), P, Q, k, n / 2)
  {
    hide Climb, Exact, U, V;
    if k == 0 {
      ZerothPair(n, P, Q);
    } else {
      ClimbApproximates(n, P, Q, k);
      var r, u, v := Climb(n, P, Q, k), U(P, Q, k), V(P, Q, k);
      if Exact(n, k) {
        CongIffMod(r.u, u, n);
        CongIffMod(r.v, v, n);
      }
      if n % 2 == 0 {
        if Exact(n, k) { CongDivisor(r.u, u, n, n / 2, 2); CongDivisor(r.v, v, n, n / 2, 2); }
        CongReduced(r.u, u, n, n / 2, 2);
        CongReduced(r.v, v, n, n / 2, 2);
      }
    }
  }

  /** Where it is not exact, the pair of P = n + 1 and Q = 0 is wrong: n / 2 + 1 in place of 1. */
  lemma InexactIsWrong(n: int, k: nat)
    requires n >= 2 && !Exact(n, k)
    ensures (n + 1) * (n + 1) != 0 && !IsPair(LucasPair(n, n + 1, 0, k), n, n + 1, 0, k)
  {
    hide Climb, U, V;
    assert (n + 1) * (n + 1) >= 1;
    if k == 0 {
      ZerothPair(n, n + 1, 0);
    } else {
      ClimbAnswers(n, k);
      UnitPair(n, k);
      CongIffMod(Climb(n, n + 1, 0, k).u, n / 2 + 1, n);
      CongIffMod(U(n + 1, 0, k), 1, n);
      NotOne(n);
    }
  }

  lemma NotOne(n: int)
    requires n >= 2 && n % 2 == 0
    ensures (n / 2 + 1) % n != 1 % n
  {
    if n > 2 { DivModUnique(n / 2 + 1, n, 0, n / 2 + 1); }
    DivModUnique(1, n, 0, 1);
  }

  /** The pair is right for all P and Q exactly for these n and k. */
  lemma ExactIff(n: int, k: nat)
    requires n >= 2
    ensures Exact(n, k) <==> forall P, Q :: P * P - 4 * Q != 0 ==> IsPair(LucasPair(n, P, Q, k), n, P, Q, k)
  {
    hide Exact, LucasPair, IsPair;
    if Exact(n, k) {
      forall P, Q | P * P - 4 * Q != 0 ensures IsPair(LucasPair(n, P, Q, k), n, P, Q, k) {
        LucasPairIs(n, P, Q, k);
      }
    } else {
      InexactIsWrong(n, k);
    }
  }
}
