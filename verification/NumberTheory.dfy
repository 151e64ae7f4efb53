/** Congruence, Bezout's identity through the extended Euclid of neo/Core/Cryptography/ECCurve.py, and Fermat. */
module NumberTheory {
  import opened Arithmetic

  // ---- congruence ----------------------------------------------------------------------------

  ghost predicate Cong(a: int, b: int, n: int)
    requires n > 0
  {
    (a - b) % n == 0
  }

  function Quotient(a: int, b: int, n: int): int
    requires n > 0
  {
    (a - b) / n
  }

  lemma CongIntro(a: int, b: int, n: int, k: int)
    requires n > 0 && a == b + n * k
    ensures Cong(a, b, n)
  {
    DivModUnique(a - b, n, k, 0);
  }

  lemma CongElim(a: int, b: int, n: int)
    requires n > 0 && Cong(a, b, n)
    ensures a == b + n * Quotient(a, b, n)
  {
  }

  lemma CongMod(a: int, n: int)
    requires n > 0
    ensures Cong(a % n, a, n)
  {
    assert n * -(a / n) == -(n * (a / n));
    CongIntro(a % n, a, n, -(a / n));
  }

  /** Congruent numbers have the same remainder, and conversely. */
  lemma CongIffMod(a: int, b: int, n: int)
    requires n > 0
    ensures Cong(a, b, n) <==> a % n == b % n
  {
    if Cong(a, b, n) {
      CongElim(a, b, n);
      Distribute(n, b / n, Quotient(a, b, n));
      DivModUnique(a, n, b / n + Quotient(a, b, n), b % n);
    }
    if a % n == b % n {
      Distribute(n, a / n, b / n);
      CongIntro(a, b, n, a / n - b / n);
    }
  }

  lemma CongTrans(a: int, b: int, c: int, n: int)
    requires n > 0 && Cong(a, b, n) && Cong(b, c, n)
    ensures Cong(a, c, n)
  {
    CongIffMod(a, b, n);
    CongIffMod(b, c, n);
    CongIffMod(a, c, n);
  }

  lemma CongAdd(a: int, b: int, c: int, d: int, n: int)
    requires n > 0 && Cong(a, b, n) && Cong(c, d, n)
    ensures Cong(a + c, b + d, n)
    ensures Cong(a - c, b - d, n)
  {
    CongElim(a, b, n);
    CongElim(c, d, n);
    Distribute(n, Quotient(a, b, n), Quotient(c, d, n));
    CongIntro(a + c, b + d, n, Quotient(a, b, n) + Quotient(c, d, n));
    CongIntro(a - c, b - d, n, Quotient(a, b, n) - Quotient(c, d, n));
  }

  lemma CongMul(a: int, b: int, c: int, d: int, n: int)
    requires n > 0 && Cong(a, b, n) && Cong(c, d, n)
    ensures Cong(a * c, b * d, n)
  {
    CongElim(a, b, n);
    CongElim(c, d, n);
    var x, y := Quotient(a, b, n), Quotient(c, d, n);
    assert (b + n * x) * (d + n * y) == b * d + n * (b * y + x * d + n * x * y);
    CongIntro(a * c, b * d, n, b * y + x * d + n * x * y);
  }

  // ---- powers --------------------------------------------------------------------------------

  function Pow(a: int, k: nat): int {
    if k == 0 then 1 else a * Pow(a, k - 1)
  }

  lemma {:induction false} PowAdd(a: int, j: nat, k: nat)
    ensures Pow(a, j + k) == Pow(a, j) * Pow(a, k)
  {
    if j > 0 {
      PowAdd(a, j - 1, k);
      assert a * (Pow(a, j - 1) * Pow(a, k)) == (a * Pow(a, j - 1)) * Pow(a, k);
    }
  }

  lemma Shuffle(a: int, b: int, x: int, y: int)
    ensures (a * b) * (x * y) == (a * x) * (b * y)
  {
  }

  lemma {:induction false} PowMul(a: int, b: int, k: nat)
    ensures Pow(a * b, k) == Pow(a, k) * Pow(b, k)
  {
    if k > 0 {
      PowMul(a, b, k - 1);
      Shuffle(a, b, Pow(a, k - 1), Pow(b, k - 1));
    }
  }

  lemma {:induction false} CongPow(a: int, b: int, k: nat, n: int)
    requires n > 0 && Cong(a, b, n)
    ensures Cong(Pow(a, k), Pow(b, k), n)
  {
    if k == 0 {
      CongIntro(1, 1, n, 0);
    } else {
      CongPow(a, b, k - 1, n);
      CongMul(a, b, Pow(a, k - 1), Pow(b, k - 1), n);
    }
  }

  // ---- GCD and modinv ------------------------------------------------------------------------

  /** Python's `//` and `%`, which round towards minus infinity. */
  function FloorDiv(b: int, a: int): int
    requires a != 0
  {
    if a > 0 then b / a else (-b) / (-a)
  }

  function FloorMod(b: int, a: int): (r: int)
    requires a != 0
    ensures b == a * FloorDiv(b, a) + r
    ensures if a > 0 then 0 <= r < a else a < r <= 0
  {
    b - a * FloorDiv(b, a)
  }

  function GCD(a: int, b: int): (int, int, int)
    decreases if a < 0 then -a else a
  {
    if a == 0 then (b, 0, 1)
    else
      var (d, x, y) := GCD(FloorMod(b, a), a);
      (d, y - FloorDiv(b, a) * x, x)
  }

  ghost predicate Divides(d: int, a: int) {
    exists k :: a == d * k
  }

  /** The triple is a common divisor and its Bezout coefficients, for arguments of any sign. */
  lemma {:induction false} GCDBezout(a: int, b: int)
    ensures var (d, x, y) := GCD(a, b);
      a * x + b * y == d && Divides(d, a) && Divides(d, b)
    decreases if a < 0 then -a else a
  {
    var (d, x, y) := GCD(a, b);
    if a == 0 {
      assert a == d * 0 && b == d * 1;
    } else {
      var q, r := FloorDiv(b, a), FloorMod(b, a);
      GCDBezout(r, a);
      var (d', x', y') := GCD(r, a);
      BezoutStep(a, q, r, x', y');
      var k: int :| r == d * k;
      var l: int :| a == d * l;
      DivisorStep(d, l, q, k);
    }
  }

  lemma BezoutStep(a: int, q: int, r: int, x: int, y: int)
    ensures a * (y - q * x) + (a * q + r) * x == r * x + a * y
  {
  }

  lemma DivisorStep(d: int, l: int, q: int, k: int)
    ensures Divides(d, (d * l) * q + d * k)
  {
    assert (d * l) * q + d * k == d * (l * q + k);
  }

  function ModInv(x: int, m: int): int {
    GCD(x, m).1
  }

  ghost predicate Prime(p: int) {
    p >= 2 && forall d :: d >= 1 && Divides(d, p) ==> d == 1 || d == p
  }

  lemma DividesIffCong(p: int, a: int)
    requires p > 0
    ensures Divides(p, a) <==> Cong(a, 0, p)
  {
    if Divides(p, a) {
      var k :| a == p * k;
      CongIntro(a, 0, p, k);
    }
    if Cong(a, 0, p) {
      CongElim(a, 0, p);
    }
  }

  lemma OppositeDivides(d: int, k: int)
    ensures Divides(d, d * k) && Divides(-d, d * k)
  {
    assert d * k == (-d) * (-k);
  }

  /** The divisors of a prime that Euclid's algorithm can return. */
  lemma GcdWithPrime(a: int, p: int)
    requires Prime(p) && !Cong(a, 0, p)
    ensures GCD(a, p).0 == 1 || GCD(a, p).0 == -1
  {
    GCDBezout(a, p);
    var d := GCD(a, p).0;
    var k :| p == d * k;
    var l :| a == d * l;
    hide GCD;
    OppositeDivides(d, k);
    OppositeDivides(d, l);
    DividesIffCong(p, a);
    if d >= 0 {
      assert d != p;
    } else {
      assert -d != p;
    }
  }

  /** `modinv` of a number prime to `p` is an inverse, up to the sign of the divisor Euclid ends on. */
  lemma ModInvInverts(a: int, p: int)
    requires Prime(p) && !Cong(a, 0, p)
    ensures Cong(a * ModInv(a, p), GCD(a, p).0, p)
    ensures a >= 0 ==> Cong(a * ModInv(a, p), 1, p)
  {
    GCDBezout(a, p);
    GcdWithPrime(a, p);
    var (d, x, y) := GCD(a, p);
    assert a * x == d + p * (-y);
    CongIntro(a * x, d, p, -y);
    if a >= 0 { GcdSign(a, p); }
  }

  lemma {:induction false} GcdSign(a: int, b: int)
    requires a >= 0 && b >= 0
    ensures GCD(a, b).0 >= 0
    decreases a
  {
    if a > 0 { GcdSign(FloorMod(b, a), a); }
  }

  lemma EuclidsLemma(a: int, b: int, p: int)
    requires Prime(p) && Cong(a * b, 0, p)
    ensures Cong(a, 0, p) || Cong(b, 0, p)
  {
    if !Cong(a, 0, p) {
      GCDBezout(a, p);
      GcdWithPrime(a, p);
      var (d, x, y) := GCD(a, p);
      CongElim(a * b, 0, p);
      var k := Quotient(a * b, 0, p);
      BezoutTimes(a, b, p, x, y, k);
      var m := k * x + b * y;
      assert b * d == p * m;
      if d == 1 { CongIntro(b, 0, p, m); } else { assert b == p * (-m); CongIntro(b, 0, p, -m); }
    }
  }

  lemma BezoutTimes(a: int, b: int, p: int, x: int, y: int, k: int)
    requires a * b == p * k
    ensures b * (a * x + p * y) == p * (k * x + b * y)
  {
    assert b * (a * x + p * y) == (a * b) * x + p * (b * y);
    assert (p * k) * x == p * (k * x);
    Distribute(p, k * x, b * y);
  }

  // ---- Fermat --------------------------------------------------------------------------------

  function Binomial(n: nat, k: nat): nat {
    if k == 0 then 1 else if n == 0 then 0 else Binomial(n - 1, k - 1) + Binomial(n - 1, k)
  }

  lemma {:induction false} BinomialTop(n: nat, k: nat)
    requires k >= n
    ensures Binomial(n, k) == if k == n then 1 else 0
  {
    if n > 0 {
      BinomialTop(n - 1, k - 1);
      BinomialTop(n - 1, k);
    }
  }

  lemma AbsorptionStep(n: int, k: int, u: int, v: int, x: int, y: int)
    requires u == x + y && k * v == (n - 1) * y && (k - 1) * u == (n - 1) * x
    ensures k * (u + v) == n * u
  {
    Distribute(k, u, v);
    Distribute(n - 1, x, y);
    assert (k - 1) * u == k * u - u && (n - 1) * u == n * u - u;
  }

  lemma {:induction false} Absorption(n: nat, k: nat)
    requires n >= 1 && k >= 1
    ensures k * Binomial(n, k) == n * Binomial(n - 1, k - 1)
  {
    if n == 1 {
      assert Binomial(1, k) == Binomial(0, k - 1) + Binomial(0, k);
    } else {
      Absorption(n - 1, k);
      var u, v := Binomial(n - 1, k - 1), Binomial(n - 1, k);
      if k >= 2 {
        Absorption(n - 1, k - 1);
        AbsorptionStep(n, k, u, v, Binomial(n - 2, k - 2), Binomial(n - 2, k - 1));
      }
    }
  }

  lemma PrimeDividesBinomial(p: int, k: nat)
    requires Prime(p) && 1 <= k < p
    ensures Cong(Binomial(p, k), 0, p)
  {
    Absorption(p, k);
    CongIntro(k * Binomial(p, k), 0, p, Binomial(p - 1, k - 1));
    EuclidsLemma(k, Binomial(p, k), p);
    if Cong(k, 0, p) { CongIffMod(k, 0, p); DivModUnique(k, p, 0, k); }
  }

  /** The first `k` terms of the binomial expansion of (a + 1)^n. */
  function Expansion(n: nat, a: int, k: nat): int {
    if k == 0 then 0 else Expansion(n, a, k - 1) + Binomial(n, k - 1) * Pow(a, k - 1)
  }

  lemma PascalTerm(x: int, y: int, a: int, z: int, e: int)
    ensures (x + y) * (a * z) == a * (x * z) + y * (a * z)
    ensures a * (e + x * z) == a * e + a * (x * z)
  {
  }

  lemma {:induction false} ExpansionStep(n: nat, a: int, k: nat)
    ensures Expansion(n + 1, a, k + 1) == Expansion(n, a, k + 1) + a * Expansion(n, a, k)
  {
    if k == 0 {
      assert Expansion(n + 1, a, 1) == Expansion(n + 1, a, 0) + Binomial(n + 1, 0) * Pow(a, 0);
      assert Expansion(n, a, 1) == Expansion(n, a, 0) + Binomial(n, 0) * Pow(a, 0);
    } else {
      ExpansionStep(n, a, k - 1);
      PascalTerm(Binomial(n, k - 1), Binomial(n, k), a, Pow(a, k - 1), Expansion(n, a, k - 1));
    }
  }

  lemma ExpansionEnd(n: nat, a: int)
    ensures Expansion(n, a, n + 2) == Expansion(n, a, n + 1)
  {
    BinomialTop(n, n + 1);
  }

  lemma {:induction false} BinomialTheorem(n: nat, a: int)
    ensures Pow(a + 1, n) == Expansion(n, a, n + 1)
  {
    if n == 0 {
      assert Expansion(0, a, 1) == Expansion(0, a, 0) + Binomial(0, 0) * Pow(a, 0);
    } else {
      assert Pow(a + 1, n) == (a + 1) * Pow(a + 1, n - 1);
      hide *;
      BinomialTheorem(n - 1, a);
      ExpansionStep(n - 1, a, n);
      ExpansionEnd(n - 1, a);
    }
  }

  lemma {:induction false} MiddleVanishes(p: int, a: int, k: nat)
    requires Prime(p) && 1 <= k <= p
    ensures Cong(Expansion(p, a, k), 1, p)
  {
    if k == 1 {
      assert Expansion(p, a, 1) == Expansion(p, a, 0) + Binomial(p, 0) * Pow(a, 0);
      CongIntro(Expansion(p, a, 1), 1, p, 0);
    } else {
      MiddleVanishes(p, a, k - 1);
      PrimeDividesBinomial(p, k - 1);
      CongIntro(Pow(a, k - 1), Pow(a, k - 1), p, 0);
      CongMul(Binomial(p, k - 1), 0, Pow(a, k - 1), Pow(a, k - 1), p);
      CongAdd(Expansion(p, a, k - 1), 1, Binomial(p, k - 1) * Pow(a, k - 1), 0, p);
    }
  }

  /** Fermat's little theorem. */
  lemma {:induction false} Fermat(a: nat, p: int)
    requires Prime(p)
    ensures Cong(Pow(a, p), a, p)
  {
    if a == 0 {
      CongIntro(0, 0, p, 0);
    } else {
      Fermat(a - 1, p);
      BinomialTheorem(p, a - 1);
      MiddleVanishes(p, a - 1, p);
      BinomialTop(p, p);
      CongAdd(Expansion(p, a - 1, p), 1, Pow(a - 1, p), a - 1, p);
    }
  }
}
