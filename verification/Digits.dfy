/**
 Positional numerals. Value reads digits most significant first, ValueLE least significant
 first; Fixed and FixedLE write a number with a given count of digits.
 */
module Digits {
  import opened Arith

  type byte = x: nat | x < 256

  ghost predicate InBase(ds: seq<nat>, b: nat)
  {
    forall i :: 0 <= i < |ds| ==> ds[i] < b
  }

  // -------------------------------------------------------------- most significant first

  function Value(ds: seq<nat>, b: nat): nat
  {
    if ds == [] then 0 else Value(ds[..|ds| - 1], b) * b + ds[|ds| - 1]
  }

  function Fixed(n: nat, b: nat, k: nat): (ds: seq<nat>)
    requires b > 0
    ensures |ds| == k && InBase(ds, b)
    decreases k
  {
    if k == 0 then [] else Fixed(n / b, b, k - 1) + [n % b]
  }

  /* The digits of n with no leading zero, as hexadecimal and decimal formatting print them. */
  function Minimal(n: nat, b: nat): (ds: seq<nat>)
    requires b > 1
    ensures ds != [] && InBase(ds, b)
    decreases n
  {
    if n < b then [n]
    else DivLess(n, b, n); Minimal(n / b, b) + [n % b]
  }

  lemma AppendBound(v: nat, w: nat, d: nat, b: nat)
    requires v < w && d < b
    ensures v * b + d < b * w
  {
    MulMono(v + 1, w, b);
  }

  lemma {:induction false} ValueBound(ds: seq<nat>, b: nat)
    requires b > 0 && InBase(ds, b)
    ensures Value(ds, b) < Pow(b, |ds|)
  {
    if ds != [] {
      var pre := ds[..|ds| - 1];
      ValueBound(pre, b);
      assert ds[|ds| - 1] < b;
      AppendBound(Value(pre, b), Pow(b, |pre|), ds[|ds| - 1], b);
    }
  }

  lemma ShiftDigit(v: int, w: int, u: int, b: int)
    ensures (v * w + u) * b == v * (b * w) + u * b
  {
    assert (v * w) * b == v * (b * w);
  }

  lemma {:induction false} ValueConcat(a: seq<nat>, c: seq<nat>, b: nat)
    ensures Value(a + c, b) == Value(a, b) * Pow(b, |c|) + Value(c, b)
  {
    if c == [] {
      assert a + c == a;
    } else {
      var pre := c[..|c| - 1];
      ValueConcat(a, pre, b);
      assert (a + c)[..|a + c| - 1] == a + pre;
      ShiftDigit(Value(a, b), Pow(b, |pre|), Value(pre, b), b);
    }
  }

  lemma ShiftPair(q: int, w: int, r: int, b: int)
    ensures (q * w + r) * b == q * (b * w) + r * b
  {
    MulAssoc(q, w, b);
  }

  lemma ModSplit(n: nat, b: nat, w: nat)
    requires b > 0 && w > 0
    ensures b * w > 0 && n % (b * w) == ((n / b) % w) * b + n % b
  {
    MulPos(b, w);
    var q, r := (n / b) / w, (n / b) % w;
    DivBounds(n, b);
    DivBounds(n / b, w);
    AppendBound(r, w, n % b, b);
    ShiftPair(q, w, r, b);
    DivModUnique(n, b * w, q, r * b + n % b);
  }

  /* Writing then reading keeps the number modulo the capacity. */
  lemma {:induction false} ValueFixed(n: nat, b: nat, k: nat)
    requires b > 0
    ensures Pow(b, k) > 0 && Value(Fixed(n, b, k), b) == n % Pow(b, k)
    decreases k
  {
    PowPositive(b, k);
    if k > 0 {
      ValueFixed(n / b, b, k - 1);
      PowPositive(b, k - 1);
      assert Fixed(n, b, k)[..k - 1] == Fixed(n / b, b, k - 1);
      ModSplit(n, b, Pow(b, k - 1));
    }
  }

  /* Reading then writing with the same count of digits gives the digits back. */
  lemma {:induction false} FixedValue(ds: seq<nat>, b: nat)
    requires b > 0 && InBase(ds, b)
    ensures Fixed(Value(ds, b), b, |ds|) == ds
  {
    if ds != [] {
      var pre, d := ds[..|ds| - 1], ds[|ds| - 1];
      FixedValue(pre, b);
      DivModUnique(Value(ds, b), b, Value(pre, b), d);
      assert ds == pre + [d];
    }
  }

  /* Equal values of equally many digits are the same digits. */
  lemma ValueInjective(a: seq<nat>, c: seq<nat>, b: nat)
    requires b > 0 && InBase(a, b) && InBase(c, b)
    requires |a| == |c| && Value(a, b) == Value(c, b)
    ensures a == c
  {
    FixedValue(a, b);
    FixedValue(c, b);
  }

  lemma MinimalStep(n: nat, b: nat) returns (q: nat, d: nat)
    requires b > 1 && n >= b
    ensures 0 < q < n && d < b && n == q * b + d
    ensures Minimal(n, b) == Minimal(q, b) + [d]
  {
    q, d := n / b, n % b;
    DivLess(n, b, n);
    if q <= 0 { MulMono(q, 0, b); }
  }

  lemma {:induction false} ValueMinimal(n: nat, b: nat)
    requires b > 1
    ensures Value(Minimal(n, b), b) == n
    decreases n
  {
    if n < b {
      assert [n][..0] == [];
    } else {
      var q, d := MinimalStep(n, b);
      ValueMinimal(q, b);
      ValueAppend(Minimal(q, b), d, b);
    }
  }

  lemma ValueAppend(ds: seq<nat>, d: nat, b: nat)
    ensures Value(ds + [d], b) == Value(ds, b) * b + d
  {
    assert (ds + [d])[..|ds|] == ds;
  }

  /* A minimal numeral of n > 0 starts with a non-zero digit, so its length is exact. */
  lemma {:induction false} MinimalLength(n: nat, b: nat)
    requires b > 1 && n > 0
    ensures Minimal(n, b)[0] > 0
    ensures Pow(b, |Minimal(n, b)| - 1) <= n < Pow(b, |Minimal(n, b)|)
    decreases n
  {
    if n < b {
      assert Pow(b, 1) == b;
    } else {
      hide Minimal;
      var q, d := MinimalStep(n, b);
      MinimalLength(q, b);
      var k := |Minimal(q, b)|;
      PowerStep(b, k);
      PowerStep(b, k - 1);
      hide Pow;
      AppendBound(q, Pow(b, k), d, b);
      MulMono(Pow(b, k - 1), q, b);
    }
  }

  lemma PowerStep(b: nat, k: nat)
    ensures Pow(b, k + 1) == b * Pow(b, k)
  {}

  lemma LengthUnique(n: nat, b: nat, i: nat, j: nat)
    requires b > 1 && i > 0 && j > 0
    requires Pow(b, i - 1) <= n < Pow(b, i) && Pow(b, j - 1) <= n < Pow(b, j)
    ensures i == j
  {
    if i < j {
      PowMono(b, i, j - 1);
    } else if j < i {
      PowMono(b, j, i - 1);
    }
  }

  lemma NumeralLength(ds: seq<nat>, b: nat)
    requires b > 1 && ds != [] && InBase(ds, b) && ds[0] > 0
    ensures Value(ds, b) > 0 && |Minimal(Value(ds, b), b)| == |ds|
  {
    hide Minimal, Value, Pow;
    var n := Value(ds, b);
    LeadingDigit(ds, b);
    PowPositive(b, |ds| - 1);
    ValueBound(ds, b);
    MinimalLength(n, b);
    LengthUnique(n, b, |ds|, |Minimal(n, b)|);
  }

  /* Numerals without leading zeros are minimal. */
  lemma MinimalUnique(ds: seq<nat>, b: nat)
    requires b > 1 && ds != [] && InBase(ds, b) && ds[0] > 0
    ensures Value(ds, b) > 0 && Minimal(Value(ds, b), b) == ds
  {
    NumeralLength(ds, b);
    ValueMinimal(Value(ds, b), b);
    ValueInjective(Minimal(Value(ds, b), b), ds, b);
  }

  lemma {:induction false} LeadingDigit(ds: seq<nat>, b: nat)
    requires b > 0 && ds != [] && ds[0] > 0
    ensures Value(ds, b) >= Pow(b, |ds| - 1)
  {
    var d, rest := ds[0], ds[1..];
    assert ds == [d] + rest;
    ValueConcat([d], rest, b);
    assert Value([d], b) == d by { assert [d][..0] == []; }
    PowPositive(b, |rest|);
    MulMono(1, d, Pow(b, |rest|));
  }

  function Zeros(k: nat): (z: seq<nat>)
    ensures |z| == k && forall i :: 0 <= i < k ==> z[i] == 0
  {
    seq(k, _ => 0)
  }

  lemma {:induction false} ValueZeros(k: nat, ds: seq<nat>, b: nat)
    ensures Value(Zeros(k) + ds, b) == Value(ds, b)
  {
    ValueConcat(Zeros(k), ds, b);
    ValueAllZeros(Zeros(k), b);
  }

  lemma {:induction false} ValueAllZeros(z: seq<nat>, b: nat)
    requires forall i :: 0 <= i < |z| ==> z[i] == 0
    ensures Value(z, b) == 0
  {
    if z != [] { ValueAllZeros(z[..|z| - 1], b); }
  }

  /* Digits with zeros in front up to a wanted length; longer numerals stay as they are. */
  function Padded(n: nat, b: nat, k: nat): (ds: seq<nat>)
    requires b > 1
    ensures InBase(ds, b)
  {
    var m := Minimal(n, b);
    Zeros(if |m| < k then k - |m| else 0) + m
  }

  lemma MinimalFits(n: nat, b: nat, k: nat)
    requires b > 1 && k > 0 && n < Pow(b, k)
    ensures |Minimal(n, b)| <= k
  {
    if n > 0 {
      MinimalLength(n, b);
      if |Minimal(n, b)| > k { PowMono(b, k, |Minimal(n, b)| - 1); }
    }
  }

  lemma PaddedFixed(n: nat, b: nat, k: nat)
    requires b > 1 && k > 0 && n < Pow(b, k)
    ensures Padded(n, b, k) == Fixed(n, b, k)
  {
    hide Minimal, Fixed, Value;
    MinimalFits(n, b, k);
    ValueZeros(k - |Minimal(n, b)|, Minimal(n, b), b);
    ValueMinimal(n, b);
    FixedValue(Padded(n, b, k), b);
  }

  // ------------------------------------------------------------- least significant first

  function ValueLE(ds: seq<nat>, b: nat): nat
  {
    if ds == [] then 0 else ds[0] + b * ValueLE(ds[1..], b)
  }

  function FixedLE(n: nat, b: nat, k: nat): (ds: seq<nat>)
    requires b > 0
    ensures |ds| == k && InBase(ds, b)
    decreases k
  {
    if k == 0 then [] else [n % b] + FixedLE(n / b, b, k - 1)
  }

  lemma FixedLEStep(n: nat, b: nat, k: nat)
    requires b > 0 && k > 0
    ensures n / b >= 0 && FixedLE(n, b, k) == [n % b] + FixedLE(n / b, b, k - 1)
  {}

  lemma ValueLECons(d: nat, ds: seq<nat>, b: nat)
    ensures ValueLE([d] + ds, b) == d + b * ValueLE(ds, b)
  {
    assert ([d] + ds)[1..] == ds;
  }

  lemma {:induction false} ValueLEFixed(n: nat, b: nat, k: nat)
    requires b > 0 && n < Pow(b, k)
    ensures ValueLE(FixedLE(n, b, k), b) == n
    decreases k
  {
    if k > 0 {
      FixedLEStep(n, b, k);
      PowerStep(b, k - 1);
      hide FixedLE, ValueLE, Pow;
      DivBounds(n, b);
      DivLess(n, b, Pow(b, k - 1));
      ValueLEFixed(n / b, b, k - 1);
      ValueLECons(n % b, FixedLE(n / b, b, k - 1), b);
    }
  }

  lemma {:induction false} ValueLEBound(ds: seq<nat>, b: nat)
    requires b > 0 && InBase(ds, b)
    ensures ValueLE(ds, b) < Pow(b, |ds|)
  {
    if ds != [] {
      ValueLEBound(ds[1..], b);
      assert ds[0] < b;
      AppendBound(ValueLE(ds[1..], b), Pow(b, |ds| - 1), ds[0], b);
    }
  }

  lemma {:induction false} ValueLEAppend(ds: seq<nat>, d: nat, b: nat)
    ensures ValueLE(ds + [d], b) == ValueLE(ds, b) + d * Pow(b, |ds|)
  {
    if ds == [] {
      assert ([] + [d])[1..] == [];
    } else {
      ValueLEAppend(ds[1..], d, b);
      assert (ds + [d])[1..] == ds[1..] + [d];
      PowerStep(b, |ds| - 1);
      hide Pow;
      Distribute(b, ValueLE(ds[1..], b), d, Pow(b, |ds| - 1));
    }
  }

  lemma Distribute(b: int, v: int, d: int, w: int)
    ensures b * (v + d * w) == b * v + d * (b * w)
  {}

  function Reversed<T>(s: seq<T>): (r: seq<T>)
    ensures |r| == |s| && forall i :: 0 <= i < |s| ==> r[i] == s[|s| - 1 - i]
  {
    seq(|s|, i requires 0 <= i < |s| => s[|s| - 1 - i])
  }

  /* The two orders of writing a number with a given count of digits mirror each other. */
  lemma {:induction false} FixedReversed(n: nat, b: nat, k: nat)
    requires b > 0
    ensures Reversed(Fixed(n, b, k)) == FixedLE(n, b, k)
    decreases k
  {
    if k > 0 {
      FixedReversed(n / b, b, k - 1);
      assert Reversed(Fixed(n, b, k)) == [n % b] + Reversed(Fixed(n / b, b, k - 1));
    }
  }
}
