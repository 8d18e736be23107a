/**
 Greatest common divisors, primes, Fermat's little theorem and the uniqueness half of the
 Chinese remainder theorem: what RSA with CRT rests on.
 */
module NumberTheory {
  import opened Arith

  ghost predicate Divides(d: int, a: int)
    requires d > 0
  {
    Cong(a, 0, d)
  }

  ghost predicate Prime(p: int)
  {
    p > 1 && forall d {:trigger Divides(d, p)} :: 1 < d < p ==> !Divides(d, p)
  }

  function Gcd(a: nat, b: nat): nat
    decreases b
  {
    if b == 0 then a else Gcd(b, a % b)
  }

  // --------------------------------------------------------------------------- divisors

  lemma DividesBy(d: int, a: int, k: int)
    requires d > 0 && a == k * d
    ensures Divides(d, a)
  {
    CongByMultiple(a, 0, d, k);
  }

  lemma DividesQuotient(d: int, a: int) returns (k: int)
    requires d > 0 && Divides(d, a)
    ensures a == k * d
  {
    k := CongMultiple(a, 0, d);
  }

  lemma DividesCombination(d: int, a: int, b: int, x: int, y: int)
    requires d > 0 && Divides(d, a) && Divides(d, b)
    ensures Divides(d, a * x + b * y)
  {
    var k := DividesQuotient(d, a);
    var l := DividesQuotient(d, b);
    assert a * x + b * y == (k * x + l * y) * d;
    DividesBy(d, a * x + b * y, k * x + l * y);
  }

  lemma DividesSmall(d: int, a: int)
    requires d > 0 && 0 < a < d
    ensures !Divides(d, a)
  {
    if Divides(d, a) {
      CongSmall(a, 0, d);
    }
  }

  /* Gcd is the greatest common divisor: its divisors are exactly the common divisors. */
  lemma {:induction false} GcdDivisors(a: nat, b: nat, d: int)
    requires d > 0
    ensures Divides(d, a) && Divides(d, b) <==> Divides(d, Gcd(a, b))
    decreases b
  {
    if b == 0 {
      DividesBy(d, 0, 0);
    } else {
      GcdDivisors(b, a % b, d);
      assert a == b * (a / b) + (a % b) * 1;
      assert a % b == a * 1 + b * -(a / b);
      if Divides(d, b) && Divides(d, a % b) {
        DividesCombination(d, b, a % b, a / b, 1);
      }
      if Divides(d, a) && Divides(d, b) {
        DividesCombination(d, a, b, 1, -(a / b));
      }
    }
  }

  lemma {:induction false} GcdPositive(a: nat, b: nat)
    requires a > 0 || b > 0
    ensures Gcd(a, b) > 0
    decreases b
  {
    if b > 0 {
      GcdPositive(b, a % b);
    }
  }

  lemma {:induction false} GcdSymmetric(a: nat, b: nat)
    ensures Gcd(a, b) == Gcd(b, a)
  {
    if a == b {
    } else if a < b {
      DivModUnique(a, b, 0, a);
    } else {
      DivModUnique(b, a, 0, b);
    }
  }

  lemma Unfolded(a: int, b: int, q: int, u: int, v: int)
    ensures a * v + b * (u - q * v) == b * u + (a - b * q) * v
  {
    MulAssoc(b, q, v);
  }

  lemma {:induction false} Bezout(a: nat, b: nat) returns (x: int, y: int)
    ensures a * x + b * y == Gcd(a, b)
    decreases b
  {
    if b == 0 {
      x, y := 1, 0;
    } else {
      var u, v := Bezout(b, a % b);
      x, y := v, u - (a / b) * v;
      calc {
        a * x + b * y;
        a * v + b * (u - (a / b) * v);
        { Unfolded(a, b, a / b, u, v); }
        b * u + (a - b * (a / b)) * v;
        { DivBounds(a, b); }
        b * u + (a % b) * v;
      }
    }
  }

  /* a has an inverse modulo b exactly when the two are coprime. */
  lemma InvertibleIsCoprime(a: nat, b: nat, r: int)
    requires b > 0 && Cong(a * r, 1, b)
    ensures Gcd(a, b) == 1
  {
    var g := Gcd(a, b);
    GcdPositive(a, b);
    DividesBy(g, g, 1);
    GcdDivisors(a, b, g);
    var k := CongMultiple(a * r, 1, b);
    assert 1 == a * r + b * -k;
    DividesCombination(g, a, b, r, -k);
    if g > 1 {
      DividesSmall(g, 1);
    }
  }

  // ----------------------------------------------------------------------------- primes

  lemma PrimeGcd(a: nat, p: nat)
    requires Prime(p) && !Divides(p, a)
    ensures Gcd(a, p) == 1
  {
    var g := Gcd(a, p);
    GcdPositive(a, p);
    DividesBy(g, g, 1);
    GcdDivisors(a, p, g);
    if g > p {
      DividesSmall(g, p);
    }
  }

  /* Euclid's lemma. */
  lemma PrimeDividesProduct(p: nat, a: nat, b: int)
    requires Prime(p) && Divides(p, a * b)
    ensures Divides(p, a) || Divides(p, b)
  {
    if !Divides(p, a) {
      PrimeGcd(a, p);
      var x, y := Bezout(a, p);
      assert b == (a * b) * x + p * (y * b) by {
        assert (a * x + p * y) * b == b;
        assert (a * x) * b == (a * b) * x;
      }
      DividesBy(p, p, 1);
      DividesCombination(p, a * b, p, x, y * b);
    }
  }

  lemma {:induction false} PrimeDividesPow(p: nat, a: nat, e: nat)
    requires Prime(p) && Divides(p, Pow(a, e))
    ensures e > 0 && Divides(p, a)
  {
    if e == 0 {
      DividesSmall(p, 1);
    } else {
      PrimeDividesProduct(p, a, Pow(a, e - 1));
      if !Divides(p, a) {
        PrimeDividesPow(p, a, e - 1);
      }
    }
  }

  lemma DistinctPrimes(p: nat, q: nat)
    requires Prime(p) && Prime(q) && p != q
    ensures !Divides(p, q)
  {
    if Divides(p, q) && p > q {
      DividesSmall(p, q);
    }
  }

  /* Chinese remainder theorem, uniqueness. */
  lemma CongProduct(a: int, b: int, p: nat, q: nat)
    requires Prime(p) && Prime(q) && p != q
    requires Cong(a, b, p) && Cong(a, b, q)
    ensures p * q > 0 && Cong(a, b, p * q)
  {
    MulPos(p, q);
    var k := CongMultiple(a, b, p);
    var l := CongMultiple(a, b, q);
    DividesBy(q, p * k, l);
    DistinctPrimes(q, p);
    PrimeDividesProduct(q, p, k);
    var j := DividesQuotient(q, k);
    assert k * p == j * (p * q);
    CongByMultiple(a, b, p * q, j);
  }

  // ------------------------------------------------------------- Fermat's little theorem

  function Choose(n: nat, k: nat): nat
  {
    if k == 0 then 1 else if n == 0 then 0 else Choose(n - 1, k - 1) + Choose(n - 1, k)
  }

  lemma {:induction false} ChooseAbove(n: nat, k: nat)
    requires k > n
    ensures Choose(n, k) == 0
  {
    if n > 0 {
      ChooseAbove(n - 1, k - 1);
      ChooseAbove(n - 1, k);
    }
  }

  lemma {:induction false} ChooseAll(n: nat)
    ensures Choose(n, n) == 1
  {
    if n > 0 {
      ChooseAll(n - 1);
      ChooseAbove(n - 1, n);
    }
  }

  lemma {:induction false} ChooseAbsorb(n: nat, k: nat)
    requires n > 0 && k > 0
    ensures k * Choose(n, k) == n * Choose(n - 1, k - 1)
  {
    if n == 1 {
      if k > 1 {
        ChooseAbove(1, k);
        ChooseAbove(0, k - 1);
      } else {
        assert Choose(1, 1) == Choose(0, 0) + Choose(0, 1) == 1;
      }
    } else {
      ChooseAbsorb(n - 1, k);
      if k > 1 {
        ChooseAbsorb(n - 1, k - 1);
        AbsorbStep(n, k, Choose(n - 2, k - 2), Choose(n - 2, k - 1), Choose(n - 1, k));
      } else {
        assert Choose(n, 1) == 1 + Choose(n - 1, 1);
        assert Choose(n - 2, 0) == 1;
      }
    }
  }

  lemma AbsorbStep(n: int, k: int, u: int, v: int, y: int)
    requires k * y == (n - 1) * v && (k - 1) * (u + v) == (n - 1) * u
    ensures k * (u + v + y) == n * (u + v)
  {
    calc {
      k * (u + v + y);
      (k - 1) * (u + v) + (u + v) + k * y;
      (n - 1) * u + (n - 1) * v + (u + v);
      n * (u + v);
    }
  }

  lemma PrimePositive(p: int)
    requires Prime(p)
    ensures p > 0
  {}

  lemma PrimeDividesChoose(p: nat, k: nat)
    requires Prime(p) && 0 < k < p
    ensures Divides(p, Choose(p, k))
  {
    hide Choose, Divides, Prime;
    var c: int, a: int := Choose(p, k), Choose(p - 1, k - 1);
    ChooseAbsorb(p, k);
    PrimePositive(p);
    assert k * c == a * p;
    DividesBy(p, k * c, a);
    PrimeDividesProduct(p, k, c);
    DividesSmall(p, k);
  }

  /* The first m + 1 terms of the binomial expansion of (a + 1)^n. */
  function Expansion(a: nat, n: nat, m: nat): int
  {
    if m == 0 then 1 else Expansion(a, n, m - 1) + Choose(n, m) * Pow(a, m)
  }

  lemma {:induction false} ExpansionPascal(a: nat, n: nat, m: nat)
    requires n > 0 && m > 0
    ensures Expansion(a, n, m) == Expansion(a, n - 1, m) + a * Expansion(a, n - 1, m - 1)
  {
    var x, y, w := Choose(n - 1, m - 1), Choose(n - 1, m), Pow(a, m - 1);
    assert Choose(n, m) == x + y && Pow(a, m) == a * w;
    if m == 1 {
      PascalTerm(a, x, y, w, 1, 1, 0);
    } else {
      ExpansionPascal(a, n, m - 1);
      PascalTerm(a, x, y, w,
                 Expansion(a, n, m - 1), Expansion(a, n - 1, m - 1), Expansion(a, n - 1, m - 2));
    }
  }

  lemma PascalTerm(a: int, x: int, y: int, w: int, p: int, q: int, r: int)
    requires p == q + a * r
    ensures p + (x + y) * (a * w) == (q + y * (a * w)) + a * (r + x * w)
  {
    assert (x + y) * (a * w) == x * (a * w) + y * (a * w);
    assert x * (a * w) == a * (x * w);
    assert a * (r + x * w) == a * r + a * (x * w);
  }

  lemma {:induction false} Binomial(a: nat, n: nat)
    ensures Expansion(a, n, n) == Pow(a + 1, n)
  {
    if n > 0 {
      ExpansionPascal(a, n, n);
      ChooseAbove(n - 1, n);
      assert Choose(n - 1, n) * Pow(a, n) == 0;
      Binomial(a, n - 1);
      var w := Pow(a + 1, n - 1);
      assert (a + 1) * w == w + a * w;
    }
  }

  lemma {:induction false} ExpansionModPrime(a: nat, p: nat, m: nat)
    requires Prime(p) && m < p
    ensures Cong(Expansion(a, p, m), 1, p)
  {
    if m > 0 {
      ExpansionModPrime(a, p, m - 1);
      PrimeDividesChoose(p, m);
      CongMul(Choose(p, m), 0, Pow(a, m), Pow(a, m), p);
      CongAdd(Expansion(a, p, m - 1), 1, Choose(p, m) * Pow(a, m), 0, p);
    }
  }

  /* Fermat's little theorem for every base. */
  lemma {:induction false} Fermat(a: nat, p: nat)
    requires Prime(p)
    ensures Cong(Pow(a, p), a, p)
  {
    if a == 0 {
      PowZero(p);
    } else {
      Fermat(a - 1, p);
      Binomial(a - 1, p);
      ExpansionModPrime(a - 1, p, p - 1);
      ChooseAll(p);
      CongAdd(Expansion(a - 1, p, p - 1), 1, Pow(a - 1, p), a - 1, p);
    }
  }

  lemma FermatUnit(a: nat, p: nat)
    requires Prime(p) && !Divides(p, a)
    ensures Cong(Pow(a, p - 1), 1, p)
  {
    Fermat(a, p);
    var w := Pow(a, p - 1);
    var minus: int := 0 - a;
    CongAdd(Pow(a, p), a, minus, minus, p);
    assert Pow(a, p) + minus == a * (w - 1);
    PrimeDividesProduct(p, a, w - 1);
    CongAdd(w - 1, 0, 1, 1, p);
  }

  /* Exponents that agree modulo p - 1 give the same power of a unit. */
  lemma FermatExponent(a: nat, p: nat, e: nat, k: nat)
    requires Prime(p) && !Divides(p, a)
    ensures 0 <= e + k * (p - 1)
    ensures Cong(Pow(a, e + k * (p - 1)), Pow(a, e), p)
  {
    var u := (p - 1) * k;
    PowMulExp(a, p - 1, k);
    PowAdd(a, e, u);
    FermatUnit(a, p);
    CongPow(Pow(a, p - 1), 1, k, p);
    PowOne(k);
    CongMul(Pow(a, e), Pow(a, e), Pow(a, u), 1, p);
  }
}
