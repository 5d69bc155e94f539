/** Modular arithmetic on big integers, with JavaScript's truncating division written out. */
module Bignum {
  import opened Wrappers
  import opened NumberTheory

  // ---- BigInt division -----------------------------------------------------------------------

  function TruncDiv(a: int, b: int): int
    requires b != 0
  {
    if a >= 0 then a / b else -(-a / b)
  }

  function TruncMod(a: int, b: int): (r: int)
    requires b != 0
    ensures a >= 0 ==> r == a % b
    ensures a <= 0 ==> r == -(-a % b)
  {
    if a >= 0 then a % b else -(-a % b)
  }

  lemma TruncDivMod(a: int, b: int)
    requires b != 0
    ensures a == b * TruncDiv(a, b) + TruncMod(a, b)
  {
    if a < 0 {
      assert -a == b * (-a / b) + -a % b;
      MulNegate(b, -a / b);
    }
  }

  lemma MulNegate(x: int, y: int)
    ensures x * -y == -(x * y)
  {
  }

  /** The idiom `((a % m) + m) % m`. */
  function Normalise(a: int, m: int): int
    requires m > 0
  {
    TruncMod(TruncMod(a, m) + m, m)
  }

  lemma NormaliseIsMod(a: int, m: int)
    requires m > 0
    ensures Normalise(a, m) == a % m
  {
    var r := TruncMod(a, m);
    TruncDivMod(a, m);
    MulDistributes(m, TruncDiv(a, m), -1);
    assert (r + m) - a == m * (1 - TruncDiv(a, m)) by {
      MulDistributes(m, 1, TruncDiv(a, m));
    }
    DividesIntro(m, r + m - a, 1 - TruncDiv(a, m));
    CongruentMod(r + m, a, m);
  }

  // ---- square and multiply -------------------------------------------------------------------

  /** base^exp mod m; a negative exponent leaves the loop untouched, so it counts as zero. */
  function ModExp(base: int, exp: int, m: int): (r: int)
    requires m > 0
    ensures 0 <= r < m
  {
    (if exp < 0 then 1 else Pow(base, exp)) % m
  }

  /** What is still to be multiplied in: result * b^e, up to the modulus, is the target. */
  ghost predicate Remaining(result: int, b: int, e: int, m: int, target: int) {
    Congruent(result * Pow(b, if e < 0 then 0 else e), target, m)
  }

  method ModPow(base: int, exp: int, m: int) returns (result: int)
    requires m > 0
    ensures result == ModExp(base, exp, m)
  {
    if m == 1 {
      return 0;
    }
    result := 1;
    var b := Normalise(base, m);
    var e := exp;
    ghost var target := if exp < 0 then 1 else Pow(base, exp);
    RemainingAtStart(base, exp, m);
    while e > 0
      invariant 0 <= result < m
      invariant Remaining(result, b, e, m, target)
    {
      SquareStep(result, b, e, m, target);
      if e % 2 == 1 {
        result := result * b % m;
      }
      b := b * b % m;
      e := e / 2;
    }
    RemainingAtEnd(result, b, e, m, target);
  }

  lemma RemainingAtStart(base: int, exp: int, m: int)
    requires m > 0
    ensures Remaining(1, Normalise(base, m), exp, m, if exp < 0 then 1 else Pow(base, exp))
  {
    NormaliseIsMod(base, m);
    CongruentMod(base, base, m);
    CongruentPow(base % m, base, if exp < 0 then 0 else exp, m);
  }

  lemma RemainingAtEnd(result: int, b: int, e: int, m: int, target: int)
    requires 0 <= result < m && e <= 0 && Remaining(result, b, e, m, target)
    ensures result == target % m
  {
    assert Pow(b, 0) == 1;
    CongruentMod(result, target, m);
    QuotientUnique(result, m, 0, result);
  }

  /** One turn of the loop keeps result * b^e unchanged modulo m. */
  lemma SquareStep(result: int, b: int, e: int, m: int, target: int)
    requires m > 0 && e > 0 && Remaining(result, b, e, m, target)
    ensures Remaining(if e % 2 == 1 then result * b % m else result, b * b % m, e / 2, m, target)
  {
    var h := e / 2;
    PowMul(b, 2, h);
    assert Pow(b, 2) == b * Pow(b, 1) == b * b;
    CongruentMod(b * b, 0, m);
    CongruentPow(b * b % m, b * b, h, m);
    var r1 := if e % 2 == 1 then result * b else result;
    var r' := if e % 2 == 1 then result * b % m else result;
    CongruentMod(result * b, 0, m);
    CongruentRefl(result, m);
    CongruentMul(r', r1, Pow(b * b % m, h), Pow(b * b, h), m);
    assert r1 * Pow(b * b, h) == result * Pow(b, e) by {
      if e % 2 == 1 {
        assert Pow(b, e) == b * Pow(b, 2 * h);
        MulAssoc(result, b, Pow(b, 2 * h));
      }
    }
    CongruentTrans(r' * Pow(b * b % m, h), result * Pow(b, e), target, m);
  }

  // ---- extended Euclid -----------------------------------------------------------------------

  function Abs(x: int): nat {
    if x < 0 then -x else x
  }

  /** (gcd, x, y) with a * x + b * y == gcd. */
  function ExtGcd(a: int, b: int): (int, int, int)
    decreases Abs(b)
  {
    if b == 0 then (a, 1, 0)
    else
      var (g, x1, y1) := ExtGcd(b, TruncMod(a, b));
      (g, y1, x1 - TruncDiv(a, b) * y1)
  }

  lemma {:induction false} ExtGcdIsGcd(a: int, b: int)
    ensures var (g, x, y) := ExtGcd(a, b);
            a * x + b * y == g && Divides(g, a) && Divides(g, b) && (a >= 0 && b >= 0 ==> g >= 0)
    decreases Abs(b)
  {
    if b == 0 {
      DividesIntro(a, a, 1);
      DividesIntro(a, 0, 0);
    } else {
      var r, q := TruncMod(a, b), TruncDiv(a, b);
      ExtGcdIsGcd(b, r);
      var (g, x1, y1) := ExtGcd(b, r);
      TruncDivMod(a, b);
      DividesProduct(g, b, q);
      DividesSum(g, b * q, r);
      BezoutStep(a, b, q, r, x1, y1);
    }
  }

  lemma BezoutStep(a: int, b: int, q: int, r: int, x1: int, y1: int)
    requires a == b * q + r
    ensures a * y1 + b * (x1 - q * y1) == b * x1 + r * y1
  {
    MulDistributes(b, x1, q * y1);
    MulAssoc(b, q, y1);
    MulDistributes(y1, b * q, -r);
  }

  /** ... and every common divisor divides it, so it is the greatest one. */
  lemma ExtGcdIsGreatest(a: int, b: int, d: int)
    requires Divides(d, a) && Divides(d, b)
    ensures Divides(d, ExtGcd(a, b).0)
  {
    ExtGcdIsGcd(a, b);
    var (g, x, y) := ExtGcd(a, b);
    DividesProduct(d, a, x);
    DividesProduct(d, b, y);
    DividesSum(d, a * x, b * y);
  }

  /** Units are exactly the numbers coprime to the modulus. */
  lemma UnitIffCoprime(a: int, m: int)
    requires a >= 0 && m > 0
    ensures Unit(a, m) <==> Coprime(a, m)
    ensures Coprime(a, m) <==> ExtGcd(a, m).0 == 1
  {
    var (g, x, y) := ExtGcd(a, m);
    ExtGcdIsGcd(a, m);
    if g == 0 {
      var k :| m == g * k;
      assert false;
    }
    if Unit(a, m) {
      var u, v :| a * u + m * v == 1;
      forall d: int | d > 0 && Divides(d, a) && Divides(d, m)
        ensures d == 1
      {
        DividesProduct(d, a, u);
        DividesProduct(d, m, v);
        DividesSum(d, a * u, m * v);
        DividesIsSmall(d, 1);
      }
    }
    if g == 1 {
      assert a * x + m * y == 1;
    }
  }

  datatype NotInvertible = NotInvertible

  function ModInverse(a: int, m: int): Result<int, NotInvertible>
    requires m > 0
  {
    var (g, x, _) := ExtGcd(Normalise(a, m), m);
    if g != 1 then Err(NotInvertible) else Ok(Normalise(x, m))
  }

  lemma CoprimeMod(a: int, m: int)
    requires m > 0
    ensures Coprime(a, m) <==> Coprime(a % m, m)
  {
    var q := a / m;
    assert a == m * q + a % m;
    forall d: int | Divides(d, m)
      ensures Divides(d, a) <==> Divides(d, a % m)
    {
      DividesProduct(d, m, q);
      if Divides(d, a) {
        DividesSum(d, a, m * q);
      }
      if Divides(d, a % m) {
        DividesSum(d, m * q, a % m);
      }
    }
  }

  /** The inverse exists exactly for coprime arguments; otherwise the call throws. */
  lemma ModInverseExists(a: int, m: int)
    requires m > 0
    ensures ModInverse(a, m).Ok? <==> Coprime(a, m)
    ensures ModInverse(a, m).Ok? ==>
              0 <= ModInverse(a, m).value < m && Congruent(a * ModInverse(a, m).value, 1, m)
  {
    NormaliseIsMod(a, m);
    CoprimeMod(a, m);
    UnitIffCoprime(a % m, m);
    if ModInverse(a, m).Ok? {
      var (_, x, y) := ExtGcd(a % m, m);
      ExtGcdIsGcd(a % m, m);
      NormaliseIsMod(x, m);
      MulNegate(m, y);
      DividesIntro(m, a % m * x - 1, -y);
      CongruentMod(a, a, m);
      CongruentSym(a % m, a, m);
      CongruentMod(x, x, m);
      CongruentMul(a, a % m, x % m, x, m);
      CongruentTrans(a * (x % m), a % m * x, 1, m);
    }
  }

  /** No other number below the modulus is an inverse. */
  lemma ModInverseUnique(a: int, m: int, z: int)
    requires m > 0 && 0 <= z < m && Congruent(a * z, 1, m)
    ensures ModInverse(a, m) == Ok(z)
  {
    var k :| a * z - 1 == m * k;
    assert a * z + m * -k == 1 by { MulNegate(m, k); }
    assert Unit(a, m);
    UnitCoprime(a, m);
    ModInverseExists(a, m);
    var x := ModInverse(a, m).value;
    CongruentSym(a * x, 1, m);
    CongruentTrans(a * z, 1, a * x, m);
    MulDistributes(a, z, x);
    EuclidLemma(a, z - x, m);
    if z != x {
      var w := if z > x then z - x else x - z;
      DividesSum(m, 0, 0);
      NegateDivides(m, z - x);
      DividesIsSmall(m, w);
    }
  }

  lemma NegateDivides(d: int, n: int)
    requires Divides(d, n)
    ensures Divides(d, -n)
  {
    var k :| n == d * k;
    MulNegate(d, k);
    DividesIntro(d, -n, -k);
  }

  lemma UnitCoprime(a: int, m: int)
    requires Unit(a, m)
    ensures Coprime(a, m)
  {
    var u, v :| a * u + m * v == 1;
    forall d: int | d > 0 && Divides(d, a) && Divides(d, m)
      ensures d == 1
    {
      DividesProduct(d, a, u);
      DividesProduct(d, m, v);
      DividesSum(d, a * u, m * v);
      DividesIsSmall(d, 1);
    }
  }
}
