/**
 The arithmetic of electrumsv/rsakey.py as functions: key consistency, CRT exponentiation and
 the blinding state that every private operation squares, with the theorems that make signing
 and verifying agree.
 */
module RsaMath {
  import opened Arith
  import opened NumberTheory

  datatype Key = Key(n: nat, e: nat, d: nat, p: nat, q: nat, dP: nat, dQ: nat, qInv: nat)

  /* The two fields that _rawPrivateKeyOp updates; blinder 0 means "not drawn yet". */
  datatype Blinding = Blinding(blinder: nat, unblinder: nat)

  /* The relations RFC 8017, section 3.2, asks of a two-prime private key. */
  ghost predicate Consistent(k: Key)
  {
    && Prime(k.p) && Prime(k.q) && k.p != k.q
    && k.n == k.p * k.q && k.n > 0
    && k.e > 0 && k.d > 0
    && Cong(k.e * k.d, 1, k.p - 1) && Cong(k.e * k.d, 1, k.q - 1)
    && k.dP == k.d % (k.p - 1) && k.dQ == k.d % (k.q - 1)
    && Cong(k.q * k.qInv, 1, k.p)
  }

  const SMALL_KEY := Key(323, 5, 29, 17, 19, 13, 11, 9)

  /* A small key, to show that the demands on a key can be met. */
  lemma SmallKey()
    ensures Consistent(SMALL_KEY) && OddPrimes(SMALL_KEY)
  {
    assert Prime(17) by {
      forall d | 1 < d < 17 ensures !Divides(d, 17) {
        assert d <= 8 || d == 9 || d == 10 || d == 11 || d == 12 || d == 13 || d == 14 || d == 15 || d == 16;
        assert d <= 8 ==> d == 2 || d == 3 || d == 4 || d == 5 || d == 6 || d == 7 || d == 8;
      }
    }
    assert Prime(19) by {
      forall d | 1 < d < 19 ensures !Divides(d, 19) {
        assert d <= 9 || d == 10 || d == 11 || d == 12 || d == 13 || d == 14 || d == 15 || d == 16 || d == 17 || d == 18;
        assert d <= 9 ==> d == 2 || d == 3 || d == 4 || d == 5 || d == 6 || d == 7 || d == 8 || d == 9;
      }
    }
  }

  // ------------------------------------------------------------------- modular inverses

  lemma InverseExists(a: nat, b: nat) returns (r: nat)
    requires b > 0 && Gcd(a, b) == 1
    ensures r < b && Cong(a * r, 1, b)
  {
    var x, y := Bezout(a, b);
    CongByMultiple(a * x, 1, b, -y);
    r := x % b;
    CongMod(x, b);
    CongMul(a, a, r, x, b);
  }

  /* The inverse of a modulo b in [0, b), or 0 when there is none. */
  ghost function Inverse(a: nat, b: nat): (r: nat)
    requires b > 0
    ensures r < b
    ensures Gcd(a, b) == 1 ==> Cong(a * r, 1, b)
    ensures Gcd(a, b) != 1 ==> r == 0
  {
    if Gcd(a, b) != 1 then 0
    else
      assert exists r: nat :: r < b && Cong(a * r, 1, b) by { var r := InverseExists(a, b); }
      var r: nat :| r < b && Cong(a * r, 1, b);
      r
  }

  /* An inverse exists only for coprime arguments, and only one lies in [0, b). */
  lemma InverseUnique(a: nat, b: nat, r: nat)
    requires b > 0 && r < b && Cong(a * r, 1, b)
    ensures Gcd(a, b) == 1 && r == Inverse(a, b)
  {
    InvertibleIsCoprime(a, b, r);
    var s := Inverse(a, b);
    CongMul(a * r, 1, s, s, b);
    CongMul(a * s, 1, r, r, b);
    assert (a * r) * s == (a * s) * r;
    CongSmall(r, s, b);
  }

  // --------------------------------------------------------------- the RSA permutation

  /* x^(ed) = x modulo each prime: the exponent is 1 modulo p - 1. */
  lemma IdentityModPrime(x: nat, p: nat, e: nat, d: nat)
    requires Prime(p) && e > 0 && d > 0 && Cong(e * d, 1, p - 1)
    ensures e * d > 0 && Cong(Pow(x, e * d), x, p)
  {
    MulPos(e, d);
    if Divides(p, x) {
      CongPow(x, 0, e * d, p);
      PowZero(e * d);
    } else {
      var j := CongMultiple(e * d, 1, p - 1);
      if j < 0 { MulMono(j, -1, p - 1); }
      FermatExponent(x, p, 1, j);
      assert Pow(x, 1) == x;
    }
  }

  lemma Identity(k: Key, x: nat)
    requires Consistent(k)
    ensures k.e * k.d > 0 && Cong(Pow(x, k.e * k.d), x, k.n)
  {
    IdentityModPrime(x, k.p, k.e, k.d);
    IdentityModPrime(x, k.q, k.e, k.d);
    CongProduct(Pow(x, k.e * k.d), x, k.p, k.q);
  }

  function PublicOp(k: Key, c: nat): int
    requires k.n > 0
  {
    Pow(c, k.e) % k.n
  }

  /* What a private operation has to return, in either order of the two operations. */
  lemma PublicUndoesPrivate(k: Key, m: nat)
    requires Consistent(k)
    ensures 0 <= Pow(m, k.d) % k.n && PublicOp(k, Pow(m, k.d) % k.n) == m % k.n
  {
    var x := Pow(m, k.d) % k.n;
    CongMod(Pow(m, k.d), k.n);
    CongPow(x, Pow(m, k.d), k.e, k.n);
    PowMulExp(m, k.d, k.e);
    assert k.d * k.e == k.e * k.d;
    Identity(k, m);
  }

  lemma PrivateUndoesPublic(k: Key, c: nat)
    requires Consistent(k)
    ensures 0 <= PublicOp(k, c) && Pow(PublicOp(k, c), k.d) % k.n == c % k.n
  {
    var x := PublicOp(k, c);
    CongMod(Pow(c, k.e), k.n);
    CongPow(x, Pow(c, k.e), k.d, k.n);
    PowMulExp(c, k.e, k.d);
    Identity(k, c);
  }

  // ------------------------------------------------------------------ CRT exponentiation

  function CrtOp(k: Key, m: nat): int
    requires k.p > 0 && k.q > 0
  {
    var s1 := Pow(m, k.dP) % k.p;
    var s2 := Pow(m, k.dQ) % k.q;
    var h := ((s1 - s2) * k.qInv) % k.p;
    s2 + k.q * h
  }

  lemma CongSame(a: int, p: int)
    requires p > 0
    ensures Cong(a, a, p)
  {}

  lemma CongTrans(a: int, b: int, c: int, p: int)
    requires p > 0 && Cong(a, b, p) && Cong(b, c, p)
    ensures Cong(a, c, p)
  {}

  /* Garner recombination: the result is below p * q and has the two given residues. */
  lemma Garner(s1: nat, s2: nat, p: nat, q: nat, qInv: nat)
    requires p > 0 && s2 < q && Cong(q * qInv, 1, p)
    ensures var c := s2 + q * (((s1 - s2) * qInv) % p);
            0 <= c < p * q && Cong(c, s1, p) && Cong(c, s2, q)
  {
    hide Cong;
    var g := (s1 - s2) * qInv;
    var h := g % p;
    assert q * h <= q * (p - 1) && 0 <= q * h by {
      MulMono(h, p - 1, q);
      MulMono(0, h, q);
    }
    CongByMultiple(s2 + q * h, s2, q, h);
    assert Cong(q * h, s1 - s2, p) by {
      CongMod(g, p);
      CongSame(q, p);
      CongSame(s1 - s2, p);
      CongMul(q, q, h, g, p);
      MulAssoc(s1 - s2, q, qInv);
      assert q * g == (s1 - s2) * (q * qInv) by { MulAssoc(q, s1 - s2, qInv); }
      CongMul(s1 - s2, s1 - s2, q * qInv, 1, p);
      CongTrans(q * h, q * g, s1 - s2, p);
    }
    CongSame(s2, p);
    CongAdd(s2, s2, q * h, s1 - s2, p);
  }

  lemma CrtResidues(k: Key, m: nat)
    requires Consistent(k)
    ensures 0 <= CrtOp(k, m) < k.n
    ensures Cong(CrtOp(k, m), Pow(m, k.dP), k.p)
    ensures Cong(CrtOp(k, m), Pow(m, k.dQ), k.q)
  {
    Garner(Pow(m, k.dP) % k.p, Pow(m, k.dQ) % k.q, k.p, k.q, k.qInv);
    CongMod(Pow(m, k.dP), k.p);
    CongMod(Pow(m, k.dQ), k.q);
  }

  /* Reducing the exponent modulo p - 1 keeps the power, except that 0^0 is 1. */
  lemma ReducedExponent(m: nat, p: nat, d: nat)
    requires Prime(p) && d > 0
    ensures d % (p - 1) >= 0
    ensures Cong(Pow(m, d % (p - 1)), Pow(m, d), p) <==> (Divides(p, m) ==> d % (p - 1) > 0)
  {
    var r := d % (p - 1);
    if Divides(p, m) {
      CongPow(m, 0, d, p);
      PowZero(d);
      CongPow(m, 0, r, p);
      if r > 0 {
        PowZero(r);
      } else {
        DividesSmall(p, 1);
      }
    } else {
      var j := d / (p - 1);
      if j < 0 { MulMono(j, -1, p - 1); }
      assert d == r + j * (p - 1);
      FermatExponent(m, p, r, j);
    }
  }

  /* No prime divides m while its reduced exponent is 0. */
  ghost predicate CrtSafe(k: Key, m: nat)
    requires k.p > 0 && k.q > 0
  {
    (Divides(k.p, m) ==> k.dP > 0) && (Divides(k.q, m) ==> k.dQ > 0)
  }

  /* CRT exponentiation equals m^d mod n exactly then. */
  lemma CrtExact(k: Key, m: nat)
    requires Consistent(k)
    ensures CrtOp(k, m) == Pow(m, k.d) % k.n <==> CrtSafe(k, m)
  {
    CrtResidues(k, m);
    ReducedExponent(m, k.p, k.d);
    ReducedExponent(m, k.q, k.d);
    var c, x := CrtOp(k, m), Pow(m, k.d);
    if Cong(c, x, k.p) && Cong(c, x, k.q) {
      CongProduct(c, x, k.p, k.q);
      CongMod(x, k.n);
      CongSmall(c, x % k.n, k.n);
    } else if c == x % k.n {
      CongMod(x, k.n);
      CongDivisor(c, x, k.p, k.q);
      assert k.q * k.p == k.n;
      CongDivisor(c, x, k.q, k.p);
    }
  }

  /* Of a consistent key only the prime 2 makes the reduced exponent 0. */
  lemma ZeroExponent(p: nat, e: nat, d: nat)
    requires Prime(p) && Cong(e * d, 1, p - 1)
    ensures d % (p - 1) == 0 <==> p == 2
  {
    if d % (p - 1) == 0 {
      assert Cong(d, 0, p - 1) by { CongMod(d, p - 1); }
      CongMul(e, e, d, 0, p - 1);
      if p - 1 > 1 { DividesSmall(p - 1, 1); }
    }
  }

  ghost predicate OddPrimes(k: Key)
  {
    k.p != 2 && k.q != 2
  }

  /* For keys of odd primes the CRT form is right for every m; with the prime 2 it is not. */
  lemma CrtCorrect(k: Key)
    requires Consistent(k)
    ensures (forall m: nat :: CrtOp(k, m) == Pow(m, k.d) % k.n) <==> OddPrimes(k)
  {
    ZeroExponent(k.p, k.e, k.d);
    ZeroExponent(k.q, k.e, k.d);
    forall m: nat
      ensures OddPrimes(k) ==> CrtOp(k, m) == Pow(m, k.d) % k.n
    {
      CrtExact(k, m);
    }
    if !OddPrimes(k) {
      CrtExact(k, 0);
      DividesBy(k.p, 0, 0);
      DividesBy(k.q, 0, 0);
    }
  }

  const EVEN_KEY := Key(6, 3, 1, 2, 3, 0, 1, 1)

  /* A consistent key with the prime 2 and an input it gets wrong. */
  lemma CrtCanFail()
    ensures Consistent(EVEN_KEY) && CrtOp(EVEN_KEY, 0) != Pow(0, EVEN_KEY.d) % EVEN_KEY.n
  {
    assert Prime(3) by {
      forall d | 1 < d < 3 ensures !Divides(d, 3) {
        assert d == 2;
      }
    }
    CrtExact(EVEN_KEY, 0);
    DividesBy(2, 0, 0);
  }

  // ------------------------------------------------------------------------- blinding

  /* The state after "create blinding values, on the first pass". */
  ghost function Drawn(k: Key, st: Blinding, draw: nat): (r: Blinding)
    requires k.n > 0
  {
    if st.blinder == 0 then
      Blinding(Pow(Inverse(draw, k.n), k.e) % k.n, draw)
    else st
  }

  ghost function BlindedResult(k: Key, st: Blinding, m: nat, draw: nat): int
    requires k.n > 0 && k.p > 0 && k.q > 0
  {
    var s := Drawn(k, st, draw);
    (CrtOp(k, (m * s.blinder) % k.n) * s.unblinder) % k.n
  }

  ghost function NextBlinding(k: Key, st: Blinding, draw: nat): Blinding
    requires k.n > 0
  {
    var s := Drawn(k, st, draw);
    Blinding((s.blinder * s.blinder) % k.n, (s.unblinder * s.unblinder) % k.n)
  }

  ghost predicate Coupled(k: Key, st: Blinding)
    requires k.n > 0
  {
    Cong(st.blinder * Pow(st.unblinder, k.e), 1, k.n)
  }

  /* What every run of private operations keeps. */
  ghost predicate BlindingInv(k: Key, st: Blinding)
    requires k.n > 0
  {
    st.blinder != 0 ==> Coupled(k, st)
  }

  lemma ModulusBig(k: Key)
    requires Consistent(k)
    ensures k.n > 1
  {
    MulPos(k.p, k.q);
  }

  lemma CoupledNonZero(k: Key, st: Blinding)
    requires Consistent(k) && Coupled(k, st)
    ensures st.blinder != 0
  {
    ModulusBig(k);
    if st.blinder == 0 {
      assert st.blinder * Pow(st.unblinder, k.e) == 0;
      CongSmall(0, 1, k.n);
    }
  }

  /* A draw coprime to n couples the pair; any other draw leaves the blinder at 0. */
  lemma DrawCouples(k: Key, draw: nat)
    requires Consistent(k)
    ensures var s := Drawn(k, Blinding(0, 0), draw);
            if Gcd(draw, k.n) == 1 then Coupled(k, s) else s.blinder == 0
  {
    var inv := Inverse(draw, k.n);
    if Gcd(draw, k.n) == 1 {
      CongPow(draw * inv, 1, k.e, k.n);
      PowMulBase(draw, inv, k.e);
      PowOne(k.e);
      CongMod(Pow(inv, k.e), k.n);
      CongMul(Pow(inv, k.e) % k.n, Pow(inv, k.e), Pow(draw, k.e), Pow(draw, k.e), k.n);
      assert Pow(inv, k.e) * Pow(draw, k.e) == Pow(draw, k.e) * Pow(inv, k.e);
    } else {
      PowZero(k.e);
    }
  }

  lemma SquareCouples(k: Key, s: Blinding)
    requires Consistent(k) && Coupled(k, s)
    ensures Coupled(k, Blinding((s.blinder * s.blinder) % k.n, (s.unblinder * s.unblinder) % k.n))
  {
    var b, u := s.blinder, s.unblinder;
    var b', u' := (b * b) % k.n, (u * u) % k.n;
    CongMod(b * b, k.n);
    CongMod(u * u, k.n);
    CongPow(u', u * u, k.e, k.n);
    PowMulBase(u, u, k.e);
    var w := Pow(u, k.e);
    CongMul(b', b * b, Pow(u', k.e), w * w, k.n);
    CongMul(b * w, 1, b * w, 1, k.n);
    MulInterchange(b, b, w, w);
  }

  /* The unblinder inverts the private power of the blinder. */
  lemma UnblindInverse(k: Key, s: Blinding)
    requires Consistent(k) && Coupled(k, s)
    ensures Cong(Pow(s.blinder, k.d) * s.unblinder, 1, k.n)
  {
    var b, u, d := s.blinder, s.unblinder, k.d;
    var bd := Pow(b, d);
    CongPow(b * Pow(u, k.e), 1, d, k.n);
    PowMulBase(b, Pow(u, k.e), d);
    PowMulExp(u, k.e, d);
    PowOne(d);
    Identity(k, u);
    CongMul(bd, bd, Pow(u, k.e * d), u, k.n);
  }

  lemma CancelRight(c: int, v: int, u: int, n: int)
    requires n > 0 && Cong(v * u, 1, n)
    ensures Cong((c * v) * u, c, n)
  {
    CongScale(v * u, 1, c, n);
    assert (v * u) * c == (c * v) * u;
  }

  /* Unblinding cancels blinding under the private exponent. */
  lemma UnblindCancels(k: Key, s: Blinding, m: nat)
    requires Consistent(k) && Coupled(k, s)
    ensures Cong(Pow(m * s.blinder, k.d) * s.unblinder, Pow(m, k.d), k.n)
  {
    UnblindInverse(k, s);
    PowMulBase(m, s.blinder, k.d);
    CancelRight(Pow(m, k.d), Pow(s.blinder, k.d), s.unblinder, k.n);
  }

  /* A coupled blinder is coprime to n: a prime of n divides the blinded input only if it divides
     the input. */
  lemma BlindedDivides(k: Key, s: Blinding, m: nat, p: nat, r: nat)
    requires Consistent(k) && Coupled(k, s) && Prime(p) && r > 0 && k.n == p * r
    ensures Divides(p, (m * s.blinder) % k.n) <==> Divides(p, m)
  {
    var b, w := s.blinder, Pow(s.unblinder, k.e);
    CongMod(m * b, k.n);
    CongDivisor((m * b) % k.n, m * b, p, r);
    if Divides(p, m) {
      CongScale(m, 0, b, p);
    } else if Divides(p, m * b) {
      PrimeDividesProduct(p, m, b);
      CongScale(b, 0, w, p);
      CongDivisor(b * w, 1, p, r);
      DividesSmall(p, 1);
    }
  }

  lemma ScaledBack(c: int, u: int, v: int, n: int)
    requires n > 0 && Cong(v * u, 1, n)
    ensures Cong((c * u) * v, c, n)
  {
    CongScale(v * u, 1, c, n);
    assert (v * u) * c == (c * u) * v;
  }

  lemma CongChain(a: int, b: int, c: int, d: int, n: int)
    requires n > 0 && Cong(b, a, n) && Cong(b, c, n) && Cong(c, d, n)
    ensures Cong(a, d, n)
  {}

  /* Multiplying by the unblinder loses nothing modulo n. */
  lemma UnblindInjective(k: Key, s: Blinding, c: nat, y: nat)
    requires Consistent(k) && Coupled(k, s) && c < k.n && y < k.n
    requires Cong(c * s.unblinder, y * s.unblinder, k.n)
    ensures c == y
  {
    var u, bd := s.unblinder, Pow(s.blinder, k.d);
    hide Pow, Cong, Coupled, Consistent;
    UnblindInverse(k, s);
    CongScale(c * u, y * u, bd, k.n);
    ScaledBack(c, u, bd, k.n);
    ScaledBack(y, u, bd, k.n);
    CongChain(c, (c * u) * bd, (y * u) * bd, y, k.n);
    CongSmall(c, y, k.n);
  }

  /* With a coupled pair blinding changes nothing: the call is right exactly when the
     remaindering form is. */
  lemma BlindedExact(k: Key, s: Blinding, m: nat, draw: nat)
    requires Consistent(k) && s.blinder != 0 && Coupled(k, s)
    ensures BlindedResult(k, s, m, draw) == Pow(m, k.d) % k.n <==> CrtSafe(k, m)
  {
    var x: nat := (m * s.blinder) % k.n;
    CrtExact(k, x);
    CrtResidues(k, x);
    assert k.q * k.p == k.n;
    BlindedDivides(k, s, m, k.p, k.q);
    BlindedDivides(k, s, m, k.q, k.p);
    var c: nat, y: nat := CrtOp(k, x), Pow(x, k.d) % k.n;
    CongMod(m * s.blinder, k.n);
    CongPow(x, m * s.blinder, k.d, k.n);
    CongMod(Pow(x, k.d), k.n);
    CongMul(y, Pow(m * s.blinder, k.d), s.unblinder, s.unblinder, k.n);
    UnblindCancels(k, s, m);
    if Cong(c * s.unblinder, y * s.unblinder, k.n) {
      UnblindInjective(k, s, c, y);
    }
  }

  /* A power vanishes modulo n only when its base does. */
  lemma PowVanishes(k: Key, m: nat)
    requires Consistent(k)
    ensures Pow(m, k.d) % k.n == 0 <==> m % k.n == 0
  {
    if Divides(k.n, m) {
      CongPow(m, 0, k.d, k.n);
      PowZero(k.d);
    }
    if Divides(k.n, Pow(m, k.d)) {
      CongDivisor(Pow(m, k.d), 0, k.p, k.q);
      assert k.q * k.p == k.n;
      CongDivisor(Pow(m, k.d), 0, k.q, k.p);
      PrimeDividesPow(k.p, m, k.d);
      PrimeDividesPow(k.q, m, k.d);
      CongProduct(m, 0, k.p, k.q);
    }
    DivModUnique(0, k.n, 0, 0);
  }

  /* After an unusable draw a call returns the draw modulo the prime 2, and 0 modulo any other. */
  ghost predicate StrayAt(p: nat, m: nat, draw: nat)
    requires p > 0
  {
    if p == 2 then Cong(draw, m, 2) else Divides(p, m)
  }

  ghost predicate Stray(k: Key, m: nat, draw: nat)
    requires k.p > 0 && k.q > 0
  {
    StrayAt(k.p, m, draw) && StrayAt(k.q, m, draw)
  }

  lemma PowerParity(m: nat, d: nat)
    requires d > 0
    ensures Cong(Pow(m, d), m, 2)
  {
    if m % 2 == 0 {
      CongPow(m, 0, d, 2);
      PowZero(d);
    } else {
      CongPow(m, 1, d, 2);
      PowOne(d);
    }
  }

  lemma StrayResidue(p: nat, e: nat, d: nat, c: int, m: nat, draw: nat)
    requires Prime(p) && d > 0 && Cong(e * d, 1, p - 1)
    requires d % (p - 1) >= 0 && Cong(c, Pow(0, d % (p - 1)), p)
    ensures Cong(c * draw, Pow(m, d), p) <==> StrayAt(p, m, draw)
  {
    ZeroExponent(p, e, d);
    CongScale(c, Pow(0, d % (p - 1)), draw, p);
    if p == 2 {
      assert Pow(0, 0) == 1;
      PowerParity(m, d);
    } else {
      PowZero(d % (p - 1));
      if Divides(p, m) {
        CongPow(m, 0, d, p);
        PowZero(d);
      } else if Divides(p, Pow(m, d)) {
        PrimeDividesPow(p, m, d);
      }
    }
  }

  lemma StrayExact(k: Key, s: Blinding, m: nat, draw: nat)
    requires Consistent(k) && s.blinder == 0 && Gcd(draw, k.n) != 1
    ensures BlindedResult(k, s, m, draw) == Pow(m, k.d) % k.n <==> Stray(k, m, draw)
  {
    DrawCouples(k, draw);
    DivModUnique(0, k.n, 0, 0);
    CrtResidues(k, 0);
    var c, x := CrtOp(k, 0), Pow(m, k.d);
    StrayResidue(k.p, k.e, k.d, c, m, draw);
    StrayResidue(k.q, k.e, k.d, c, m, draw);
    EqualModulo(k, c * draw, x);
  }

  /* Equal remainders modulo n are equal remainders modulo both primes. */
  lemma EqualModulo(k: Key, a: int, b: int)
    requires Consistent(k)
    ensures a % k.n == b % k.n <==> Cong(a, b, k.p) && Cong(a, b, k.q)
  {
    if Cong(a, b, k.n) {
      CongDivisor(a, b, k.p, k.q);
      assert k.q * k.p == k.n;
      CongDivisor(a, b, k.q, k.p);
    } else if Cong(a, b, k.p) && Cong(a, b, k.q) {
      CongProduct(a, b, k.p, k.q);
    }
  }

  /* One call, whatever the state a run left behind: with a pair that is drawn, or drawn now
     coprime to n, m^d mod n comes back exactly when the remaindering form is right for m. */
  lemma StepExact(k: Key, st: Blinding, m: nat, draw: nat)
    requires Consistent(k) && BlindingInv(k, st)
    ensures BlindedResult(k, st, m, draw) == Pow(m, k.d) % k.n
            <==> if st.blinder != 0 || Gcd(draw, k.n) == 1 then CrtSafe(k, m) else Stray(k, m, draw)
    ensures BlindingInv(k, NextBlinding(k, st, draw))
    ensures NextBlinding(k, st, draw).blinder != 0 <==> st.blinder != 0 || Gcd(draw, k.n) == 1
  {
    var s := Drawn(k, st, draw);
    DrawCouples(k, draw);
    if st.blinder != 0 || Gcd(draw, k.n) == 1 {
      CoupledNonZero(k, s);
      BlindedExact(k, s, m, draw);
      SquareCouples(k, s);
      CoupledNonZero(k, NextBlinding(k, st, draw));
    } else {
      StrayExact(k, st, m, draw);
      DivModUnique(0, k.n, 0, 0);
    }
  }

  /* With odd primes only the draw matters, unless m vanishes. */
  lemma OddConditions(k: Key, m: nat, draw: nat)
    requires Consistent(k) && OddPrimes(k)
    ensures CrtSafe(k, m) && (Stray(k, m, draw) <==> m % k.n == 0)
  {
    ZeroExponent(k.p, k.e, k.d);
    ZeroExponent(k.q, k.e, k.d);
    EqualModulo(k, m, 0);
    DivModUnique(0, k.n, 0, 0);
  }

  lemma OddStep(k: Key, st: Blinding, m: nat, draw: nat)
    requires Consistent(k) && OddPrimes(k) && BlindingInv(k, st)
    ensures BlindedResult(k, st, m, draw) == Pow(m, k.d) % k.n
            <==> st.blinder != 0 || Gcd(draw, k.n) == 1 || m % k.n == 0
  {
    StepExact(k, st, m, draw);
    OddConditions(k, m, draw);
  }

  /* With odd primes an unusable draw makes the call return 0. */
  lemma ZeroBlinder(k: Key, s: Blinding, m: nat, draw: nat)
    requires Consistent(k) && OddPrimes(k)
    requires s.blinder == 0 && Gcd(draw, k.n) != 1
    ensures BlindedResult(k, s, m, draw) == 0
  {
    DrawCouples(k, draw);
    CrtCorrect(k);
    PowVanishes(k, 0);
    DivModUnique(0, k.n, 0, 0);
  }

  /* A draw that is a prime of the modulus, and an input that gets 0 for an answer. */
  lemma BlindingCanFail()
    ensures Consistent(SMALL_KEY) && OddPrimes(SMALL_KEY)
    ensures BlindedResult(SMALL_KEY, Blinding(0, 0), 2, 17) == 0
    ensures Pow(2, SMALL_KEY.d) % SMALL_KEY.n != 0
  {
    SmallKey();
    DividesBy(17, 17, 1);
    DividesBy(17, 323, 19);
    GcdDivisors(17, 323, 17);
    if Gcd(17, 323) == 1 { DividesSmall(17, 1); }
    ZeroBlinder(SMALL_KEY, Blinding(0, 0), 2, 17);
    PowVanishes(SMALL_KEY, 2);
  }

  // ----------------------------------------------------------------------------- runs

  /* The state before call i of a run, given the value each call would draw. */
  ghost function StateAt(k: Key, st: Blinding, draws: seq<nat>, i: nat): Blinding
    requires k.n > 0 && i <= |draws|
  {
    if i == 0 then st else NextBlinding(k, StateAt(k, st, draws, i - 1), draws[i - 1])
  }

  /* Some draw among the first i is coprime to the modulus. */
  ghost predicate GoodDraw(k: Key, draws: seq<nat>, i: nat)
    requires i <= |draws|
  {
    exists j :: 0 <= j < i && Gcd(draws[j], k.n) == 1
  }

  lemma {:induction false} RunKeepsBlinding(k: Key, st: Blinding, draws: seq<nat>, i: nat)
    requires Consistent(k) && st.blinder == 0 && i <= |draws|
    ensures BlindingInv(k, StateAt(k, st, draws, i))
    ensures StateAt(k, st, draws, i).blinder != 0 <==> GoodDraw(k, draws, i)
  {
    if i > 0 {
      RunKeepsBlinding(k, st, draws, i - 1);
      StepExact(k, StateAt(k, st, draws, i - 1), 0, draws[i - 1]);
      GoodDrawStep(k, draws, i - 1);
    }
  }

  lemma GoodDrawStep(k: Key, draws: seq<nat>, i: nat)
    requires i < |draws|
    ensures GoodDraw(k, draws, i + 1) <==> GoodDraw(k, draws, i) || Gcd(draws[i], k.n) == 1
  {}

  /* Call i of any run of a fresh key: once some draw was coprime to n, m^d mod n comes back
     exactly when the remaindering form is right for m; before, exactly when m agrees with what
     the draw of this call leaves. */
  lemma RunExact(k: Key, st: Blinding, draws: seq<nat>, i: nat, m: nat)
    requires Consistent(k) && st.blinder == 0 && i < |draws|
    ensures BlindedResult(k, StateAt(k, st, draws, i), m, draws[i]) == Pow(m, k.d) % k.n
            <==> if GoodDraw(k, draws, i + 1) then CrtSafe(k, m) else Stray(k, m, draws[i])
  {
    RunKeepsBlinding(k, st, draws, i);
    StepExact(k, StateAt(k, st, draws, i), m, draws[i]);
    GoodDrawStep(k, draws, i);
  }

  /* With odd primes: exactly when some draw so far was coprime to n, or m is 0 modulo n. */
  lemma OddRun(k: Key, st: Blinding, draws: seq<nat>, i: nat, m: nat)
    requires Consistent(k) && OddPrimes(k) && st.blinder == 0 && i < |draws|
    ensures BlindedResult(k, StateAt(k, st, draws, i), m, draws[i]) == Pow(m, k.d) % k.n
            <==> GoodDraw(k, draws, i + 1) || m % k.n == 0
  {
    RunExact(k, st, draws, i, m);
    OddConditions(k, m, draws[i]);
  }

  // ------------------------------------------------------------------- key generation

  function Lcm(a: nat, b: nat): nat
    requires a > 0 && b > 0
  {
    GcdPositive(a, b);
    (a * b) / Gcd(a, b)
  }

  lemma LcmExpand(a: int, b: int, u: int, v: int, x: int, y: int, m: int, g: int, l: int)
    requires m == u * a && m == v * b && a * x + b * y == g && a * b == l * g
    ensures m * g == (l * (v * x + u * y)) * g
  {
    calc {
      m * g;
      m * (a * x + b * y);
      m * (a * x) + m * (b * y);
      (v * b) * (a * x) + (u * a) * (b * y);
      { MulInterchange(v, b, x, a); MulInterchange(u, a, y, b); }
      (v * x) * (b * a) + (u * y) * (a * b);
      (v * x + u * y) * (a * b);
      (v * x + u * y) * (l * g);
      (l * (v * x + u * y)) * g;
    }
  }

  /* It divides every common multiple. */
  lemma LcmLeast(a: nat, b: nat, m: int)
    requires a > 0 && b > 0 && Divides(a, m) && Divides(b, m)
    ensures Lcm(a, b) > 0 && Divides(Lcm(a, b), m)
  {
    LcmMultiple(a, b);
    var g, l := Gcd(a, b), Lcm(a, b);
    GcdPositive(a, b);
    LcmTimesGcd(a, b);
    var u := DividesQuotient(a, m);
    var v := DividesQuotient(b, m);
    var x, y := Bezout(a, b);
    LcmExpand(a, b, u, v, x, y, m, g, l);
    DivModUnique(m * g, g, m, 0);
    DivModUnique(m * g, g, l * (v * x + u * y), 0);
    DividesBy(l, m, v * x + u * y);
  }

  /* The quotients by the common divisor give the common multiple in two ways. */
  lemma LcmParts(a: nat, b: nat) returns (x: int, y: int)
    requires a > 0 && b > 0
    ensures Gcd(a, b) > 0 && a == x * Gcd(a, b) && b == y * Gcd(a, b) && x > 0
    ensures Lcm(a, b) == x * b == y * a
  {
    hide Gcd, Divides;
    var g := Gcd(a, b);
    GcdPositive(a, b);
    DividesBy(g, g, 1);
    GcdDivisors(a, b, g);
    x := DividesQuotient(g, a);
    y := DividesQuotient(g, b);
    if x <= 0 { MulMono(x, 0, g); }
    Regrouped(x, g, b);
    Regrouped(y, g, a);
    DivModUnique(a * b, g, x * b, 0);
    DivModUnique(a * b, g, y * a, 0);
  }

  lemma Regrouped(x: int, g: int, b: int)
    ensures (x * g) * b == (x * b) * g
  {
    MulAssoc(x, g, b);
    MulAssoc(x, b, g);
  }

  lemma LcmTimesGcd(a: nat, b: nat)
    requires a > 0 && b > 0
    ensures a * b == Lcm(a, b) * Gcd(a, b)
  {
    var x, y := LcmParts(a, b);
    Regrouped(x, Gcd(a, b), b);
  }

  lemma LcmMultiple(a: nat, b: nat)
    requires a > 0 && b > 0
    ensures Lcm(a, b) > 0 && Divides(a, Lcm(a, b)) && Divides(b, Lcm(a, b))
  {
    hide Gcd, Divides, Lcm;
    var x, y := LcmParts(a, b);
    MulPos(x, b);
    DividesBy(b, Lcm(a, b), x);
    DividesBy(a, Lcm(a, b), y);
  }

  const PUBLIC_EXPONENT: nat := 65537

  /* The key that generate builds from the two primes it found. */
  ghost function Generated(p: nat, q: nat): Key
    requires p > 1 && q > 1
  {
    LcmMultiple(p - 1, q - 1);
    var d := Inverse(PUBLIC_EXPONENT, Lcm(p - 1, q - 1));
    Key(p * q, PUBLIC_EXPONENT, d, p, q, d % (p - 1), d % (q - 1), Inverse(q, p))
  }

  /* A generated key is consistent exactly when the primes differ and the exponent is
     invertible modulo lcm(p - 1, q - 1). */
  lemma GeneratedConsistent(p: nat, q: nat)
    requires Prime(p) && Prime(q)
    ensures Lcm(p - 1, q - 1) > 0
    ensures Consistent(Generated(p, q))
            <==> p != q && Gcd(65537, Lcm(p - 1, q - 1)) == 1
    ensures Generated(p, q).e == 65537
  {
    LcmMultiple(p - 1, q - 1);
    var t, k := Lcm(p - 1, q - 1), Generated(p, q);
    MulPos(p, q);
    if p != q && Gcd(PUBLIC_EXPONENT, t) == 1 {
      ExponentModDivisor(k.e, k.d, t, p - 1);
      ExponentModDivisor(k.e, k.d, t, q - 1);
      DistinctPrimes(p, q);
      PrimeGcd(q, p);
      if k.d == 0 {
        DividesSmall(t, 1) by { TotientBig(p, q, t); }
      }
    }
  }

  lemma ExponentModDivisor(e: nat, d: nat, t: nat, a: nat)
    requires a > 0 && t > 0 && Divides(a, t) && Cong(e * d, 1, t)
    ensures Cong(e * d, 1, a)
  {
    var j := DividesQuotient(a, t);
    var i := CongMultiple(e * d, 1, t);
    assert i * (j * a) == (i * j) * a;
    CongByMultiple(e * d, 1, a, i * j);
  }

  lemma TotientBig(p: nat, q: nat, t: nat)
    requires p > 1 && q > 1 && p != q && t > 0 && Divides(p - 1, t) && Divides(q - 1, t)
    ensures t > 1
  {
    if t == 1 {
      if p > 2 { DividesSmall(p - 1, 1); } else { DividesSmall(q - 1, 1); }
    }
  }
}
