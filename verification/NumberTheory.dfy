/** The arithmetic behind RSA: congruences, Euclid's lemma, Fermat's little theorem. */
module NumberTheory {
  function Pow(b: int, e: nat): int {
    if e == 0 then 1 else b * Pow(b, e - 1)
  }

  ghost predicate Divides(d: int, n: int) {
    exists k: int :: n == d * k
  }

  /** a and b leave the same remainder; stated through a quotient, so that it composes. */
  ghost predicate Congruent(a: int, b: int, m: int) {
    Divides(m, a - b)
  }

  ghost predicate Prime(p: int) {
    p >= 2 && forall d: int | d > 1 && Divides(d, p) :: d == p
  }

  ghost predicate Coprime(a: int, b: int) {
    forall d: int | d > 0 && Divides(d, a) && Divides(d, b) :: d == 1
  }

  // ---- divisibility --------------------------------------------------------------------------

  lemma DividesIntro(d: int, n: int, k: int)
    requires n == d * k
    ensures Divides(d, n)
  {
  }

  lemma DividesSum(d: int, a: int, b: int)
    requires Divides(d, a) && Divides(d, b)
    ensures Divides(d, a + b) && Divides(d, a - b)
  {
    var i :| a == d * i;
    var j :| b == d * j;
    MulDistributes(d, i, j);
    DividesIntro(d, a + b, i + j);
    DividesIntro(d, a - b, i - j);
  }

  lemma DividesProduct(d: int, a: int, c: int)
    requires Divides(d, a)
    ensures Divides(d, a * c) && Divides(d, c * a)
  {
    var i :| a == d * i;
    assert a * c == d * (i * c);
    DividesIntro(d, a * c, i * c);
  }

  lemma DividesIsZeroMod(d: int, n: int)
    requires d > 0
    ensures Divides(d, n) <==> n % d == 0
  {
    if Divides(d, n) {
      var k :| n == d * k;
      QuotientUnique(n, d, k, 0);
    } else {
      assert n == d * (n / d) + n % d;
    }
  }

  lemma MulOrder(d: int, k: int)
    requires d > 0
    ensures k <= 0 ==> d * k <= 0
    ensures k >= 1 ==> d * k >= d
    ensures k <= -1 ==> d * k <= -d
  {
  }

  lemma QuotientUnique(n: int, m: int, q: int, r: int)
    requires 0 <= r < m && n == m * q + r
    ensures n / m == q && n % m == r
  {
    var q', r' := n / m, n % m;
    assert n == m * q' + r' && 0 <= r' < m;
    var k := q - q';
    assert m * k == m * q - m * q';
    MulOrder(m, k);
    assert k == 0;
  }

  lemma DividesIsSmall(d: int, n: int)
    requires d > 0 && n > 0 && Divides(d, n)
    ensures d <= n
  {
    var k :| n == d * k;
    MulOrder(d, k);
  }

  // ---- congruence ----------------------------------------------------------------------------

  lemma CongruentMod(a: int, b: int, m: int)
    requires m > 0
    ensures Congruent(a, b, m) <==> a % m == b % m
    ensures Congruent(a % m, a, m)
  {
    var qa, qb := a / m, b / m;
    assert a == m * qa + a % m && b == m * qb + b % m;
    if Congruent(a, b, m) {
      var k :| a - b == m * k;
      assert m * (qb + k) == m * qb + m * k;
      QuotientUnique(a, m, qb + k, b % m);
    }
    assert a - b == m * (qa - qb) + (a % m - b % m);
    if a % m == b % m {
      DividesIntro(m, a - b, qa - qb);
    }
    assert a % m - a == m * -qa;
  }

  lemma CongruentRefl(a: int, m: int)
    ensures Congruent(a, a, m)
  {
    DividesIntro(m, a - a, 0);
  }

  lemma CongruentSym(a: int, b: int, m: int)
    requires Congruent(a, b, m)
    ensures Congruent(b, a, m)
  {
    var k :| a - b == m * k;
    DividesIntro(m, b - a, -k);
  }

  lemma CongruentTrans(a: int, b: int, c: int, m: int)
    requires Congruent(a, b, m) && Congruent(b, c, m)
    ensures Congruent(a, c, m)
  {
    DividesSum(m, a - b, b - c);
  }

  lemma CongruentMul(a: int, b: int, c: int, d: int, m: int)
    requires Congruent(a, b, m) && Congruent(c, d, m)
    ensures Congruent(a * c, b * d, m)
  {
    DividesProduct(m, a - b, c);
    DividesProduct(m, c - d, b);
    assert (a - b) * c + (c - d) * b == a * c - b * d;
    DividesSum(m, (a - b) * c, (c - d) * b);
  }

  lemma {:induction false} CongruentPow(a: int, b: int, e: nat, m: int)
    requires Congruent(a, b, m)
    ensures Congruent(Pow(a, e), Pow(b, e), m)
  {
    if e == 0 {
      CongruentRefl(1, m);
    } else {
      CongruentPow(a, b, e - 1, m);
      CongruentMul(a, b, Pow(a, e - 1), Pow(b, e - 1), m);
    }
  }

  // ---- powers --------------------------------------------------------------------------------

  lemma {:induction false} PowAdd(b: int, i: nat, j: nat)
    ensures Pow(b, i + j) == Pow(b, i) * Pow(b, j)
  {
    if i > 0 {
      PowAdd(b, i - 1, j);
      assert b * (Pow(b, i - 1) * Pow(b, j)) == b * Pow(b, i - 1) * Pow(b, j);
    }
  }

  lemma {:induction false} PowMul(b: int, i: nat, j: nat)
    ensures i * j >= 0 && Pow(b, i * j) == Pow(Pow(b, i), j)
    decreases j
  {
    if j > 0 {
      PowMul(b, i, j - 1);
      assert i * j == i + i * (j - 1);
      PowAdd(b, i, i * (j - 1));
    } else {
      assert i * j == 0;
    }
  }

  lemma {:induction false} PowOfProduct(a: int, b: int, e: nat)
    ensures Pow(a * b, e) == Pow(a, e) * Pow(b, e)
  {
    if e > 0 {
      PowOfProduct(a, b, e - 1);
      MulPairs(a, b, Pow(a, e - 1), Pow(b, e - 1));
    }
  }

  lemma {:induction false} PowOfOne(e: nat)
    ensures Pow(1, e) == 1
  {
    if e > 0 {
      PowOfOne(e - 1);
    }
  }

  /** Some multiple of a is 1 modulo m. */
  ghost predicate Unit(a: int, m: int) {
    exists x, y :: a * x + m * y == 1
  }

  // ---- Euclid --------------------------------------------------------------------------------

  lemma BezoutTimes(a: int, b: int, m: int, x: int, y: int)
    requires a * x + m * y == 1
    ensures b == a * b * x + m * (b * y)
  {
    var u, v := a * x, m * y;
    MulDistributes(b, u, v);
    assert b * (u + v) == b;
    MulSwap(b, a, x);
    MulAssoc(a, b, x);
    MulSwap(b, m, y);
  }

  /** If m divides a*b and a is a unit modulo m, m divides b. */
  lemma EuclidLemma(a: int, b: int, m: int)
    requires Unit(a, m) && Divides(m, a * b)
    ensures Divides(m, b)
  {
    var x, y :| a * x + m * y == 1;
    BezoutTimes(a, b, m, x, y);
    DividesProduct(m, a * b, x);
    DividesIntro(m, m * (b * y), b * y);
    hide Divides, Unit;
    DividesSum(m, a * b * x, m * (b * y));
  }

  lemma MulSwap(x: int, y: int, z: int)
    ensures x * (y * z) == y * (x * z)
  {
  }

  lemma MulPairs(a: int, b: int, c: int, d: int)
    ensures a * b * (c * d) == a * c * (b * d)
  {
    calc {
      a * b * (c * d);
      a * (b * (c * d));
      { MulSwap(b, c, d); }
      a * (c * (b * d));
      a * c * (b * d);
    }
  }

  // ---- products over sets --------------------------------------------------------------------

  ghost function Any<T>(s: set<T>): (x: T)
    requires s != {}
    ensures x in s
  {
    var x :| x in s; x
  }

  ghost function Product(s: set<int>): int {
    if s == {} then 1 else var x := Any(s); x * Product(s - {x})
  }

  /** The product does not depend on the order in which the elements are taken. */
  lemma {:induction false} ProductSplit(s: set<int>, x: int)
    requires x in s
    ensures Product(s) == x * Product(s - {x})
    decreases s
  {
    var y := Any(s);
    if y != x {
      ProductSplit(s - {y}, x);
      ProductSplit(s - {x}, y);
      assert s - {y} - {x} == s - {x} - {y};
      MulSwap(x, y, Product(s - {x} - {y}));
    }
  }

  ghost function UpTo(n: nat): (s: set<int>)
    ensures forall i :: i in s <==> 1 <= i <= n
    ensures |s| == n
  {
    if n == 0 then {} else UpTo(n - 1) + {n}
  }

  /** The residues of a, 2a, ..., na modulo p. */
  ghost function Multiples(a: int, p: int, n: nat): set<int>
    requires p > 0
  {
    if n == 0 then {} else Multiples(a, p, n - 1) + {Residue(a, n, p)}
  }

  lemma {:induction false} MultipleOf(a: int, p: int, n: nat, r: int) returns (i: nat)
    requires p > 0 && r in Multiples(a, p, n)
    ensures 1 <= i <= n && r == Residue(a, i, p)
  {
    i := n;
    if r != Residue(a, n, p) {
      i := MultipleOf(a, p, n - 1, r);
    }
  }

  ghost function Residue(a: int, i: int, p: int): int
    requires p > 0
  {
    a * i % p
  }

  lemma ResidueNonZero(a: int, p: int, k: int)
    requires 0 < k < p && Unit(a, p)
    ensures !Divides(p, a * k)
  {
    if Divides(p, a * k) {
      EuclidLemma(a, k, p);
      DividesIsSmall(p, k);
    }
  }

  lemma ResiduesDiffer(a: int, p: int, i: int, n: int)
    requires 0 < i < n < p && Unit(a, p)
    ensures Residue(a, n, p) != Residue(a, i, p)
  {
    ResidueNonZero(a, p, n - i);
    CongruentMod(a * n, a * i, p);
    MulDistributes(a, n, i);
  }

  lemma MulDistributes(x: int, y: int, z: int)
    ensures x * (y - z) == x * y - x * z
    ensures x * (y + z) == x * y + x * z
  {
  }

  lemma ResidueInRange(a: int, p: int, n: int)
    requires 0 < n < p && Unit(a, p)
    ensures 0 < Residue(a, n, p) < p
  {
    ResidueNonZero(a, p, n);
    hide Unit;
    DividesIsZeroMod(p, a * n);
    hide Divides;
  }

  lemma NewResidue(a: int, p: int, n: int)
    requires 0 < n < p && Unit(a, p)
    ensures 0 < Residue(a, n, p) < p
    ensures Residue(a, n, p) !in Multiples(a, p, n - 1)
  {
    hide Residue, Unit, Multiples;
    ResidueInRange(a, p, n);
    if Residue(a, n, p) in Multiples(a, p, n - 1) {
      var i := MultipleOf(a, p, n - 1, Residue(a, n, p));
      ResiduesDiffer(a, p, i, n);
    }
  }

  lemma {:induction false} MultiplesDistinct(a: int, p: int, n: nat)
    requires n < p && Unit(a, p)
    ensures |Multiples(a, p, n)| == n
    ensures Multiples(a, p, n) <= UpTo(p - 1)
  {
    if n > 0 {
      hide Residue, Unit, UpTo;
      MultiplesDistinct(a, p, n - 1);
      NewResidue(a, p, n);
      InRange(p, Residue(a, n, p));
    }
  }

  lemma InRange(p: int, r: int)
    requires 0 < r < p
    ensures r in UpTo(p - 1)
  {
  }

  lemma ProductAdd(s: set<int>, x: int)
    requires x !in s
    ensures Product(s + {x}) == x * Product(s)
  {
    ProductSplit(s + {x}, x);
    assert s + {x} - {x} == s;
  }

  lemma NoMultiples(a: int, p: int)
    requires p > 0
    ensures Congruent(Product(Multiples(a, p, 0)), Pow(a, 0) * Product(UpTo(0)), p)
  {
    CongruentRefl(1, p);
  }

  lemma OneMoreMultiple(a: int, p: int, n: nat)
    requires 0 < n < p && Unit(a, p)
    ensures Product(Multiples(a, p, n)) == Residue(a, n, p) * Product(Multiples(a, p, n - 1))
    ensures Product(UpTo(n)) == n * Product(UpTo(n - 1))
  {
    assert UpTo(n) == UpTo(n - 1) + {n} && n !in UpTo(n - 1);
    hide Residue, Unit, Product, UpTo;
    NewResidue(a, p, n);
    ProductAdd(Multiples(a, p, n - 1), Residue(a, n, p));
    ProductAdd(UpTo(n - 1), n);
  }

  /** Multiplying the first n residues by a multiplies their product by a^n. */
  lemma {:induction false} MultiplesProduct(a: int, p: int, n: nat)
    requires n < p && Unit(a, p)
    ensures Congruent(Product(Multiples(a, p, n)), Pow(a, n) * Product(UpTo(n)), p)
  {
    hide *;
    if n == 0 {
      NoMultiples(a, p);
    } else {
      MultiplesProduct(a, p, n - 1);
      OneMoreMultiple(a, p, n);
      PowStep(a, n);
      MultiplesStep(a, n, p, Product(Multiples(a, p, n - 1)), Pow(a, n - 1), Product(UpTo(n - 1)),
        Product(Multiples(a, p, n)), Pow(a, n), Product(UpTo(n)));
    }
  }

  lemma PowStep(a: int, n: nat)
    requires n > 0
    ensures Pow(a, n) == a * Pow(a, n - 1)
  {
  }

  lemma MultiplesStep(a: int, n: int, p: int, s: int, w: int, t: int, s': int, w': int, t': int)
    requires p > 0 && Congruent(s, w * t, p)
    requires s' == Residue(a, n, p) * s && w' == a * w && t' == n * t
    ensures Congruent(s', w' * t', p)
  {
    CongruentMod(a * n, 0, p);
    CongruentMul(Residue(a, n, p), a * n, s, w * t, p);
    MulPairs(a, n, w, t);
  }

  lemma SameSizeSubset(a: set<int>, b: set<int>)
    requires a <= b && |a| == |b|
    ensures a == b
  {
    assert a + (b - a) == b && |a| + |b - a| == |b|;
    assert b - a == {};
  }

  lemma {:induction false} CancelFactorial(p: int, n: nat, z: int)
    requires forall i | 1 <= i <= n :: Unit(i, p)
    requires Divides(p, Product(UpTo(n)) * z)
    ensures Divides(p, z)
    decreases n
  {
    if n > 0 {
      var rest := Product(UpTo(n - 1));
      ProductAdd(UpTo(n - 1), n);
      MulAssoc(n, rest, z);
      EuclidLemma(n, rest * z, p);
      CancelFactorial(p, n - 1, z);
    }
  }

  lemma MulAssoc(x: int, y: int, z: int)
    ensures x * y * z == x * (y * z)
  {
  }

  /** Fermat's little theorem, for a modulus below which every number has an inverse. */
  lemma Fermat(a: int, p: int)
    requires p >= 2 && Unit(a, p)
    requires forall i | 1 <= i <= p - 1 :: Unit(i, p)
    ensures Congruent(Pow(a, p - 1), 1, p)
  {
    hide *;
    MultiplesProduct(a, p, p - 1);
    MultiplesDistinct(a, p, p - 1);
    SameSizeSubset(Multiples(a, p, p - 1), UpTo(p - 1));
    FermatCancel(p, Product(UpTo(p - 1)), Pow(a, p - 1));
  }

  lemma FermatCancel(p: int, f: int, w: int)
    requires p >= 2 && f == Product(UpTo(p - 1)) && Congruent(f, w * f, p)
    requires forall i | 1 <= i <= p - 1 :: Unit(i, p)
    ensures Congruent(w, 1, p)
  {
    CongruentSym(f, w * f, p);
    MulDistributes(f, w, 1);
    CancelFactorial(p, p - 1, w - 1);
  }
}
