/**
 electrumsv/coinchooser.py: the change of a transaction, split over several outputs and rounded to
 look like its payments, and the transaction that make_tx builds. Rational arithmetic stands for
 the floating point of the averages.
 */
module Change {
  import opened Arith
  import opened CoinChooser
  import opened Digits
  import opened Generator
  import opened Hashing
  import opened Sorting
  import opened Sums
  import opened Wrappers

  const COIN := 100000000

  /* The largest step of the fee per change output that the split is meant for. */
  const MAX_STEP := 1000000

  /* The number of change outputs the split can be asked for. */
  const MAX_COUNT := 500000

  // ------------------------------------------------------------------------ decimal digits

  /* Trailing zeros of the decimal text of v. */
  function TrailingZeroes(v: nat): nat
  {
    if v == 0 then 1 else if v % 10 == 0 then 1 + TrailingZeroes(v / 10) else 0
  }

  /* The exponent of the leading decimal digit. */
  function Log10Floor(v: nat): (e: nat)
    requires v > 0
    ensures Pow(10, e) <= v
  {
    if v < 10 then 0 else 1 + Log10Floor(v / 10)
  }

  /* v rounded to a multiple of 10^e, halves to even. */
  function RoundTo(v: nat, e: nat): nat
  {
    PowPositive(10, e);
    var unit := Pow(10, e);
    QuotientSound(v, unit);
    var q: nat, r := v / unit, v % unit;
    var m: nat := if 2 * r > unit || (2 * r == unit && q % 2 == 1) then q + 1 else q;
    m * unit
  }

  lemma QuotientSound(v: nat, unit: nat)
    requires unit > 0
    ensures 0 <= v / unit && forall m: nat :: 0 <= m * unit
  {
    forall m: nat ensures 0 <= m * unit { MulMono(0, m, unit); }
  }

  /* Rounding moves a value by at most half a unit, and ends on a multiple of it. */
  lemma RoundClose(v: nat, e: nat)
    requires Pow(10, e) <= v
    ensures Pow(10, e) > 0 && RoundTo(v, e) % Pow(10, e) == 0
    ensures 2 * v - Pow(10, e) <= 2 * RoundTo(v, e) <= 2 * v + Pow(10, e)
    ensures v <= 2 * RoundTo(v, e) <= 3 * v
  {
    PowPositive(10, e);
    var unit := Pow(10, e);
    var q, r := v / unit, v % unit;
    assert v == q * unit + r;
    assert (q + 1) * unit == q * unit + unit;
    DivModUnique(q * unit, unit, q, 0);
    DivModUnique((q + 1) * unit, unit, q + 1, 0);
  }

  /* The two powers of ten around a number. */
  lemma {:induction false} LeadingPlace(v: nat)
    requires v > 0
    ensures Pow(10, Log10Floor(v)) <= v < Pow(10, Log10Floor(v) + 1)
  {
    if v >= 10 {
      LeadingPlace(v / 10);
    } else {
      assert Pow(10, 1) == 10 * Pow(10, 0);
    }
  }

  /* A positive number ends in exactly so many zeros; the text of 0 is one zero. */
  lemma {:induction false} ZeroesExact(v: nat)
    ensures TrailingZeroes(0) == 1
    ensures v > 0 ==>
              && Pow(10, TrailingZeroes(v)) > 0 && Pow(10, TrailingZeroes(v) + 1) > 0
              && v % Pow(10, TrailingZeroes(v)) == 0 && v % Pow(10, TrailingZeroes(v) + 1) != 0
  {
    if v > 0 {
      var z := TrailingZeroes(v);
      PowPositive(10, z);
      PowPositive(10, z + 1);
      if v % 10 == 0 {
        ZeroesExact(v / 10);
        ModSplit(v, 10, Pow(10, z - 1));
        ModSplit(v, 10, Pow(10, z));
      } else {
        assert Pow(10, 0) == 1 && Pow(10, 1) == 10 * Pow(10, 0);
      }
    }
  }

  /* The nearest multiple of the unit, and of two nearest ones the even multiple. */
  lemma RoundedIs(v: nat, e: nat) returns (m: nat)
    ensures Pow(10, e) > 0 && RoundTo(v, e) == m * Pow(10, e)
    ensures 2 * v - Pow(10, e) <= 2 * (m * Pow(10, e)) <= 2 * v + Pow(10, e)
    ensures 2 * v - 2 * (m * Pow(10, e)) == Pow(10, e) || 2 * (m * Pow(10, e)) - 2 * v == Pow(10, e)
            ==> m % 2 == 0
  {
    PowPositive(10, e);
    hide Pow;
    var unit := Pow(10, e);
    QuotientSound(v, unit);
    DivBounds(v, unit);
    var q: nat, r := v / unit, v % unit;
    m := if 2 * r > unit || (2 * r == unit && q % 2 == 1) then q + 1 else q;
    assert (q + 1) * unit == q * unit + unit;
  }

  // --------------------------------------------------------------------- how many outputs

  /* What is left for n change outputs. */
  function Available(fee0: int, estimate: nat -> int, n: nat): int
  {
    Max(0, fee0 - estimate(n))
  }

  predicate SmallEnough(change: int, n: nat, largest: int)
    requires n > 0
  {
    4 * (change / n) <= 5 * largest || change / n <= 2 * COIN / 100
  }

  /* The first count whose average is small enough, or the last one tried. */
  ghost predicate Chosen(fee0: int, estimate: nat -> int, count: nat, largest: int, n: nat)
  {
    && 1 <= n <= count
    && (forall m :: 1 <= m < n ==> !SmallEnough(Available(fee0, estimate, m), m, largest))
    && (n < count ==> SmallEnough(Available(fee0, estimate, n), n, largest))
  }

  /* In numbers: a count is passed over when the change for it, divided by it, exceeds 2000000 and
     five quarters of the largest payment. Change within either goes to one output. */
  lemma CountExact(fee0: int, estimate: nat -> int, count: nat, largest: int, n: nat, m: nat)
    requires Chosen(fee0, estimate, count, largest, n) && 1 <= m
    ensures var share := (if fee0 > estimate(m) then fee0 - estimate(m) else 0) / m;
            && (m < n ==> share > 2000000 && 4 * share > 5 * largest)
            && (m == n < count ==> share <= 2000000 || 4 * share <= 5 * largest)
            && (m == 1 && (share <= 2000000 || 4 * share <= 5 * largest) ==> n == 1)
  {
    assert m < n ==> !SmallEnough(Available(fee0, estimate, m), m, largest);
    assert 1 < n ==> !SmallEnough(Available(fee0, estimate, 1), 1, largest);
  }

  method ChooseCount(fee0: int, estimate: nat -> int, count: nat, largest: int) returns (n: nat, change: nat)
    requires count > 0
    ensures Chosen(fee0, estimate, count, largest, n)
    ensures change == Available(fee0, estimate, n)
  {
    n := 1;
    change := Available(fee0, estimate, 1);
    while n < count && !SmallEnough(change, n, largest)
      invariant 1 <= n <= count && change == Available(fee0, estimate, n)
      invariant forall m :: 1 <= m < n ==> !SmallEnough(Available(fee0, estimate, m), m, largest)
    {
      n := n + 1;
      change := Available(fee0, estimate, n);
    }
  }

  /* The fee estimate grows with every change output, by no more than MAX_STEP. */
  ghost predicate ModestStep(estimate: nat -> int, n: nat)
  {
    estimate(n) <= estimate(n + 1) <= estimate(n) + MAX_STEP
  }

  ghost predicate ModestSteps(estimate: nat -> int)
  {
    forall n: nat :: ModestStep(estimate, n)
  }

  /* When more than one output is chosen there is plenty of change to split. */
  lemma PlentyOfChange(fee0: int, estimate: nat -> int, count: nat, largest: int, n: nat)
    requires ModestSteps(estimate) && 0 < count <= MAX_COUNT
    requires Chosen(fee0, estimate, count, largest, n)
    ensures n > 1 ==> Available(fee0, estimate, n) >= 2 * n * (n - 1)
  {
    if n > 1 {
      var m := n - 1;
      var before := Available(fee0, estimate, m);
      assert !SmallEnough(before, m, largest);
      assert ModestStep(estimate, m);
      var q := before / m;
      assert before >= q * m;
      MulMono(2000001, q, m);
      assert Available(fee0, estimate, n) >= before - MAX_STEP;
      MulMono(2 * n, 1000000, m);
    }
  }

  // -------------------------------------------------------------------------- the amounts

  lemma BelowQuotient(a: nat, x: nat, d: nat)
    requires d > 0 && a < x / d
    ensures (a + 1) * d <= x
  {
    MulMono(a + 1, x / d, d);
  }

  lemma RoundedBound(a: nat, rounded: nat, x: nat, d: nat)
    requires (a + 1) * d <= x && 2 * rounded <= 3 * a
    ensures 2 * (rounded * d) <= 3 * x
  {
    MulMono(2 * rounded, 3 * a, d);
    assert (2 * rounded) * d == 2 * (rounded * d);
    assert (3 * a) * d == 3 * (a * d);
    assert (a + 1) * d == a * d + d;
  }

  lemma GoalScaled(n: nat)
    requires n > 1
    ensures 20 * n * (2 * (n - 1) * (n - 2)) == (20 * n - 40) * (2 * n * (n - 1))
  {
    var u := n * (n - 1);
    assert 20 * n * (2 * (n - 1) * (n - 2)) == 40 * (u * (n - 2)) by {
      assert n * ((n - 1) * (n - 2)) == u * (n - 2);
    }
    assert (20 * n - 40) * (2 * u) == 40 * (u * (n - 2));
  }

  lemma Distribute(a: int, b: int, c: int, d: int)
    ensures (a - b + c) * d == a * d - b * d + c * d
  {}

  lemma Leaves(remaining: nat, n: nat, rounded: nat, x: nat, goal: nat)
    requires n > 1 && remaining >= x
    requires 2 * (rounded * (10 * n)) <= 39 * remaining
    requires 20 * n * goal == (20 * n - 40) * x
    ensures remaining - rounded >= goal
  {
    var d := 20 * n;
    assert rounded * d == 2 * (rounded * (10 * n));
    if remaining - rounded < goal {
      MulMono(remaining - goal + 1, rounded, d);
      Distribute(remaining, goal, 1, d);
      Distribute(d, 39, 0, remaining);
      Distribute(d, 39, 0, x);
      Distribute(d, 40, 0, x);
      MulMono(x, remaining, d - 39);
    }
  }

  /* One random amount: below 1.3 of the average, rounded. What remains still suffices for the
     outputs that are left. */
  lemma AmountFits(remaining: nat, n: nat, a: nat, rounded: nat)
    requires n > 1 && remaining >= 2 * n * (n - 1)
    requires a < 13 * remaining / (10 * n) && 2 * rounded <= 3 * a
    ensures remaining - rounded >= 2 * (n - 1) * (n - 2)
  {
    BelowQuotient(a, 13 * remaining, 10 * n);
    RoundedBound(a, rounded, 13 * remaining, 10 * n);
    GoalScaled(n);
    MulMono(0, n - 1, 2 * n);
    MulMono(0, n - 2, 2 * (n - 1));
    Leaves(remaining, n, rounded, 2 * n * (n - 1), 2 * (n - 1) * (n - 2));
  }

  /* The range the amount is drawn from is not empty, and starts above zero. */
  lemma DrawRange(remaining: nat, n: nat)
    requires n > 1 && remaining >= 2 * n * (n - 1)
    ensures 1 <= 7 * remaining / (10 * n) < 13 * remaining / (10 * n)
  {
    var d, x, y := 10 * n, 7 * remaining, 13 * remaining;
    MulMono(1, n - 1, 2 * n);
    DivBounds(x, d);
    if x / d < 1 { MulMono(x / d + 1, 1, d); }
    NextMultiple(x / d, d, x, y);
    QuotientAtLeast(y, d, x / d + 1);
  }

  lemma NextMultiple(low: int, d: int, x: int, y: int)
    requires low * d <= x && x + d <= y
    ensures (low + 1) * d <= y
  {}

  lemma QuotientAtLeast(x: int, d: int, q: int)
    requires d > 0 && q * d <= x
    ensures q <= x / d
  {
    if x / d < q {
      MulMono(x / d + 1, q, d);
    }
  }

  // -------------------------------------------------------------------- splitting the change

  function Values(outputs: seq<Output>): seq<nat>
  {
    seq(|outputs|, i requires 0 <= i < |outputs| => outputs[i].value)
  }

  function Largest(values: seq<nat>): (m: nat)
    requires values != []
    ensures m in values && forall v :: v in values ==> v <= m
  {
    if |values| == 1 then values[0]
    else
      assert values == [values[0]] + values[1..];
      Max(values[0], Largest(values[1..]))
  }

  function Smallest(values: seq<nat>): (m: nat)
    requires values != []
    ensures m in values && forall v :: v in values ==> m <= v
  {
    if |values| == 1 then values[0]
    else
      assert values == [values[0]] + values[1..];
      Min(values[0], Smallest(values[1..]))
  }

  function Zeroes(values: seq<nat>): seq<nat>
  {
    seq(|values|, i requires 0 <= i < |values| => TrailingZeroes(values[i]))
  }

  /* The precisions a change amount may be rounded to. */
  function Precisions(values: seq<nat>): (r: seq<nat>)
    requires values != []
    ensures r != []
  {
    var first, last := Max(0, Smallest(Zeroes(values)) - 1), Largest(Zeroes(values)) + 1;
    assert first <= last by {
      assert Smallest(Zeroes(values)) <= Zeroes(values)[0] <= Largest(Zeroes(values));
    }
    seq(last + 1 - first, i requires 0 <= i => first + i)
  }

  /* From one zero fewer than some payment ends in to one more than some payment ends in, where no
     payment ends in fewer, or more. */
  lemma PrecisionsAre(values: seq<nat>, least: nat, most: nat)
    requires least in values && most in values
    requires forall v :: v in values ==> TrailingZeroes(least) <= TrailingZeroes(v) <= TrailingZeroes(most)
    ensures var first := if TrailingZeroes(least) > 0 then TrailingZeroes(least) - 1 else 0;
            var r := Precisions(values);
            && |r| == TrailingZeroes(most) + 2 - first
            && forall i :: 0 <= i < |r| ==> r[i] == first + i
  {
    hide TrailingZeroes, Smallest, Largest, Zeroes;
    LeastAndMost(values, least, most);
  }

  lemma ZeroesOf(values: seq<nat>, z: nat) returns (v: nat)
    requires z in Zeroes(values)
    ensures v in values && z == TrailingZeroes(v)
  {
    hide TrailingZeroes;
    var k :| 0 <= k < |values| && Zeroes(values)[k] == z;
    v := values[k];
  }

  lemma ZeroesIn(values: seq<nat>, v: nat)
    requires v in values
    ensures TrailingZeroes(v) in Zeroes(values)
  {
    hide TrailingZeroes;
    var k :| 0 <= k < |values| && values[k] == v;
    assert Zeroes(values)[k] == TrailingZeroes(v);
  }

  lemma LeastAndMost(values: seq<nat>, least: nat, most: nat)
    requires least in values && most in values
    requires forall v :: v in values ==> TrailingZeroes(least) <= TrailingZeroes(v) <= TrailingZeroes(most)
    ensures Zeroes(values) != []
    ensures Smallest(Zeroes(values)) == TrailingZeroes(least) && Largest(Zeroes(values)) == TrailingZeroes(most)
  {
    hide TrailingZeroes, Smallest, Largest, Zeroes;
    ZeroesIn(values, least);
    ZeroesIn(values, most);
    var a := ZeroesOf(values, Smallest(Zeroes(values)));
    var b := ZeroesOf(values, Largest(Zeroes(values)));
  }

  /* How the amounts split the change: none is negative, and together they fall short of the
     change by less than 100. */
  ghost predicate Splits(amounts: seq<nat>, change: nat, n: nat)
  {
    && |amounts| == n
    && 0 <= change - Total(amounts, ITSELF) < 100
  }

  /* Enough change for n outputs to be drawn at random. */
  ghost predicate Plenty(remaining: nat, n: nat)
  {
    n > 1 ==> remaining >= 2 * n * (n - 1)
  }

  /* Rounding what was drawn, to no more than its own leading digit. */
  lemma RoundedAmount(remaining: nat, n: nat, drawn: nat, e: nat)
    requires n > 1 && Plenty(remaining, n)
    requires 0 < 7 * remaining / (10 * n) <= drawn < 13 * remaining / (10 * n)
    requires e <= Log10Floor(drawn)
    ensures var amount := RoundTo(drawn, e);
            && 7 * remaining / (10 * n) <= 2 * amount && 0 < amount <= remaining
            && Plenty(remaining - amount, n - 1)
  {
    PowMono(10, e, Log10Floor(drawn));
    RoundClose(drawn, e);
    AmountLeaves(remaining, n, drawn, RoundTo(drawn, e));
  }

  lemma AmountLeaves(remaining: nat, n: nat, drawn: nat, amount: nat)
    requires n > 1 && Plenty(remaining, n)
    requires drawn < 13 * remaining / (10 * n) && drawn <= 2 * amount <= 3 * drawn
    ensures amount <= remaining && Plenty(remaining - amount, n - 1)
  {
    AmountFits(remaining, n, drawn, amount);
    MulMono(0, n - 2, 2 * (n - 1));
    assert 2 * (n - 1) * (n - 2) == 2 * (n - 1) * ((n - 1) - 1);
  }

  /* The range an amount is drawn from. */
  function LowerEnd(remaining: nat, n: nat): int
    requires n > 0
  {
    7 * remaining / (10 * n)
  }

  function UpperEnd(remaining: nat, n: nat): int
    requires n > 0
  {
    13 * remaining / (10 * n)
  }

  /* One amount, drawn at a position of the stream and rounded to a precision drawn after it. */
  ghost function AmountAt(s: Stream, at: nat, remaining: nat, n: nat, precisions: seq<nat>): (amount: nat)
    requires Blocks(s) && n > 1 && Plenty(remaining, n) && precisions != []
    ensures 0 < amount <= remaining && Plenty(remaining - amount, n - 1)
  {
    DrawRange(remaining, n);
    var low, high := LowerEnd(remaining, n), UpperEnd(remaining, n);
    var drawn := IntAt(s, at, low, high);
    var choice := IntAt(s, at + DrawSize(1, high - low), 0, |precisions|);
    var e := Min(precisions[choice], Log10Floor(drawn));
    RoundedAmount(remaining, n, drawn, e);
    RoundTo(drawn, e)
  }

  /* In numbers: drawn from seven to thirteen tenths of the average, and rounded to a precision
     that is drawn next, or to its own leading digit when that is coarser. */
  lemma AmountIs(s: Stream, at: nat, remaining: nat, n: nat, precisions: seq<nat>)
    returns (drawn: nat, choice: nat, e: nat)
    requires Blocks(s) && n > 1 && Plenty(remaining, n) && precisions != []
    ensures var low, high := 7 * remaining / (10 * n), 13 * remaining / (10 * n);
            && 1 <= low <= drawn < high && choice < |precisions|
            && drawn == IntAt(s, at, low, high)
            && choice == IntAt(s, at + DrawSize(1, high - low), 0, |precisions|)
    ensures e == (if precisions[choice] <= Log10Floor(drawn) then precisions[choice] else Log10Floor(drawn))
    ensures AmountAt(s, at, remaining, n, precisions) == RoundTo(drawn, e)
  {
    hide IntAt, DrawSize, RoundTo, Log10Floor;
    DrawRange(remaining, n);
    var low, high := 7 * remaining / (10 * n), 13 * remaining / (10 * n);
    drawn := IntAt(s, at, low, high);
    choice := IntAt(s, at + DrawSize(1, high - low), 0, |precisions|);
    e := Min(precisions[choice], Log10Floor(drawn));
  }

  /* Where the stream stands afterwards. */
  function AmountEnd(at: nat, remaining: nat, n: nat, precisions: seq<nat>): nat
    requires n > 1 && Plenty(remaining, n)
  {
    DrawRange(remaining, n);
    at + DrawSize(1, UpperEnd(remaining, n) - LowerEnd(remaining, n)) + DrawSize(1, |precisions|)
  }

  function LastOf(remaining: nat, precisions: seq<nat>): (amount: nat)
    requires precisions != []
    ensures 0 <= remaining - amount < 100
  {
    var e := Min(2, precisions[0]);
    LastUnit(e);
    assert remaining == (remaining / Pow(10, e)) * Pow(10, e) + remaining % Pow(10, e);
    (remaining / Pow(10, e)) * Pow(10, e)
  }

  /* The last amount is what remains without its last digits: one or two of them when the first
     precision is 1 or more than 1, else none. */
  lemma LastIs(remaining: nat, precisions: seq<nat>)
    requires precisions != []
    ensures var unit := if precisions[0] == 0 then 1 else if precisions[0] == 1 then 10 else 100;
            LastOf(remaining, precisions) == remaining - remaining % unit
  {
    assert Pow(10, 0) == 1 && Pow(10, 1) == 10 * Pow(10, 0) && Pow(10, 2) == 10 * Pow(10, 1);
    var e := Min(2, precisions[0]);
    LastUnit(e);
    DivBounds(remaining, Pow(10, e));
  }

  /* The amounts a change is split into, from a position of the stream on. */
  ghost function AmountsAt(s: Stream, at: nat, remaining: nat, n: nat, precisions: seq<nat>): (r: seq<nat>)
    requires Blocks(s) && n > 0 && Plenty(remaining, n) && precisions != []
    ensures |r| == n
    decreases n
  {
    if n == 1 then [LastOf(remaining, precisions)]
    else
      var amount := AmountAt(s, at, remaining, n, precisions);
      [amount] + AmountsAt(s, AmountEnd(at, remaining, n, precisions), remaining - amount, n - 1, precisions)
  }

  /* All but the last are positive, and together they fall short of the change by less than 100. */
  lemma {:induction false} AmountsSplit(s: Stream, at: nat, remaining: nat, n: nat, precisions: seq<nat>)
    requires Blocks(s) && n > 0 && Plenty(remaining, n) && precisions != []
    ensures Splits(AmountsAt(s, at, remaining, n, precisions), remaining, n)
    decreases n
  {
    hide AmountAt, LastOf;
    var r := AmountsAt(s, at, remaining, n, precisions);
    TotalFirst(r, ITSELF);
    if n == 1 {
      assert r[1..] == [];
    } else {
      var amount := AmountAt(s, at, remaining, n, precisions);
      AmountsSplit(s, AmountEnd(at, remaining, n, precisions), remaining - amount, n - 1, precisions);
      assert r[1..] == AmountsAt(s, AmountEnd(at, remaining, n, precisions), remaining - amount, n - 1, precisions);
    }
  }

  method RandomAmount(remaining: nat, n: nat, precisions: seq<nat>, p: Prng) returns (amount: nat)
    requires n > 1 && Plenty(remaining, n) && precisions != [] && p.Valid()
    modifies p
    ensures p.Valid() && amount == AmountAt(p.stream, old(p.served), remaining, n, precisions)
    ensures p.served == AmountEnd(old(p.served), remaining, n, precisions)
  {
    hide IntAt, DrawSize, RoundTo;
    DrawRange(remaining, n);
    var drawn := p.RandInt(LowerEnd(remaining, n), UpperEnd(remaining, n));
    var choice := p.RandInt(0, |precisions|);
    var e := Min(precisions[choice], Log10Floor(drawn));
    amount := RoundTo(drawn, e);
  }

  /* The last amount loses less than 100 to rounding. */
  method LastAmount(remaining: nat, precisions: seq<nat>) returns (amount: nat)
    requires precisions != []
    ensures amount == LastOf(remaining, precisions)
  {
    var unit := Pow(10, Min(2, precisions[0]));
    LastUnit(Min(2, precisions[0]));
    amount := (remaining / unit) * unit;
  }

  method ChangeAmounts(values: seq<nat>, fee0: int, count: nat, estimate: nat -> int, p: Prng)
    returns (amounts: seq<nat>, ghost n: nat)
    requires values != [] && ModestSteps(estimate) && 0 < count <= MAX_COUNT && p.Valid()
    modifies p
    ensures p.Valid()
    ensures Chosen(fee0, estimate, count, Largest(values), n) && Plenty(Available(fee0, estimate, n), n)
    ensures amounts == AmountsAt(p.stream, old(p.served), Available(fee0, estimate, n), n, Precisions(values))
  {
    hide AmountAt, LastOf, AmountEnd;
    var left, change := ChooseCount(fee0, estimate, count, Largest(values));
    n := left;
    PlentyOfChange(fee0, estimate, count, Largest(values), n);
    var precisions := Precisions(values);
    var remaining := change;
    ghost var all := AmountsAt(p.stream, p.served, change, n, precisions);
    amounts := [];
    assert amounts + all == all;
    while left > 1
      invariant 1 <= left && p.Valid() && Plenty(remaining, left)
      invariant amounts + AmountsAt(p.stream, p.served, remaining, left, precisions) == all
      decreases left
    {
      NextAmount(p.stream, p.served, remaining, left, precisions, amounts);
      var amount := RandomAmount(remaining, left, precisions, p);
      amounts := amounts + [amount];
      remaining := remaining - amount;
      left := left - 1;
    }
    var amount := LastAmount(remaining, precisions);
    amounts := amounts + [amount];
  }

  lemma NextAmount(s: Stream, at: nat, remaining: nat, n: nat, precisions: seq<nat>, before: seq<nat>)
    requires Blocks(s) && n > 1 && Plenty(remaining, n) && precisions != []
    ensures var amount := AmountAt(s, at, remaining, n, precisions);
            before + AmountsAt(s, at, remaining, n, precisions)
            == (before + [amount])
               + AmountsAt(s, AmountEnd(at, remaining, n, precisions), remaining - amount, n - 1, precisions)
  {
    hide AmountAt, AmountEnd;
  }

  lemma LastUnit(e: nat)
    requires e <= 2
    ensures 1 <= Pow(10, e) <= 100
  {
    assert Pow(10, 1) == 10 * Pow(10, 0);
    assert Pow(10, 2) == 10 * Pow(10, 1);
  }

  // ----------------------------------------------------------------------- dust and outputs

  function Kept(amounts: seq<nat>, threshold: nat): (r: seq<nat>)
    ensures |r| <= |amounts|
  {
    if amounts == [] then []
    else (if amounts[0] >= threshold then [amounts[0]] else []) + Kept(amounts[1..], threshold)
  }

  /* Each amount is kept or not by itself, in its place. */
  lemma {:induction false} KeptInOrder(a: seq<nat>, b: seq<nat>, threshold: nat)
    ensures Kept(a + b, threshold) == Kept(a, threshold) + Kept(b, threshold)
    ensures |a| == 1 ==> Kept(a, threshold) == if a[0] >= threshold then a else []
  {
    if a == [] {
      assert a + b == b;
    } else {
      KeptInOrder(a[1..], b, threshold);
      assert (a + b)[0] == a[0] && (a + b)[1..] == a[1..] + b;
      KeptFirst(a, threshold);
      KeptFirst(a + b, threshold);
      hide Kept;
      ConcatAssociative(if a[0] >= threshold then [a[0]] else [], Kept(a[1..], threshold), Kept(b, threshold));
    }
  }

  lemma KeptFirst(a: seq<nat>, threshold: nat)
    requires a != []
    ensures Kept(a, threshold) == (if a[0] >= threshold then [a[0]] else []) + Kept(a[1..], threshold)
    ensures |a| == 1 ==> Kept(a, threshold) == if a[0] >= threshold then a else []
  {}

  function Dust(amounts: seq<nat>, threshold: nat): nat
  {
    if amounts == [] then 0
    else (if amounts[0] < threshold then amounts[0] else 0) + Dust(amounts[1..], threshold)
  }

  lemma {:induction false} KeptAndDust(amounts: seq<nat>, threshold: nat)
    ensures Total(Kept(amounts, threshold), ITSELF) + Dust(amounts, threshold) == Total(amounts, ITSELF)
  {
    if amounts != [] {
      KeptAndDust(amounts[1..], threshold);
      TotalConcat(if amounts[0] >= threshold then [amounts[0]] else [], Kept(amounts[1..], threshold), ITSELF);
    }
  }

  /* Each kept amount goes to the next change output, as zip pairs them. */
  function Paired(scripts: seq<nat>, amounts: seq<nat>): seq<Output>
  {
    var m := Min(|scripts|, |amounts|);
    seq(m, i requires 0 <= i < m => Output(amounts[i], scripts[i]))
  }

  const OUTPUT_VALUE: Output -> int := (o: Output) => o.value

  lemma {:induction false} PairedTotal(scripts: seq<nat>, amounts: seq<nat>)
    requires |amounts| <= |scripts|
    ensures |Paired(scripts, amounts)| == |amounts|
    ensures Total(Paired(scripts, amounts), OUTPUT_VALUE) == Total(amounts, ITSELF)
  {
    if amounts != [] {
      PairedTotal(scripts[1..], amounts[1..]);
      assert Paired(scripts, amounts)[1..] == Paired(scripts[1..], amounts[1..]);
    }
  }

  /* What falls below the threshold is less than it, for every output that is not kept. */
  lemma {:induction false} DustBound(amounts: seq<nat>, threshold: nat)
    requires threshold > 0
    ensures Dust(amounts, threshold) <= (|amounts| - |Kept(amounts, threshold)|) * (threshold - 1)
  {
    if amounts != [] {
      DustBound(amounts[1..], threshold);
      var m := |amounts[1..]| - |Kept(amounts[1..], threshold)|;
      assert (m + 1) * (threshold - 1) == m * (threshold - 1) + (threshold - 1);
    }
  }

  /* The change and the dust of an available amount: the amounts of the stream, those at or above
     the threshold paired with the outputs, the others summed up. */
  ghost predicate ChangeAt(s: Stream, at: nat, available: nat, n: nat, precisions: seq<nat>, scripts: seq<nat>,
                           threshold: nat, change: seq<Output>, dust: nat)
  {
    && Blocks(s) && n > 0 && Plenty(available, n) && precisions != []
    && var amounts := AmountsAt(s, at, available, n, precisions);
       change == Paired(scripts, Kept(amounts, threshold)) && dust == Dust(amounts, threshold)
  }

  /* No kept amount is lost: change and dust together are the amounts, every kept one reaches the
     threshold and goes to its own output, and the dust is less than the threshold for each
     output dropped. */
  lemma ChangeFacts(s: Stream, at: nat, available: nat, n: nat, precisions: seq<nat>, scripts: seq<nat>,
                    threshold: nat, change: seq<Output>, dust: nat)
    requires ChangeAt(s, at, available, n, precisions, scripts, threshold, change, dust) && n <= |scripts|
    ensures |change| <= n && 0 <= available - (Total(change, OUTPUT_VALUE) + dust) < 100
    ensures forall i :: 0 <= i < |change| ==> change[i].value >= threshold && change[i].script == scripts[i]
    ensures threshold > 0 ==> dust <= (n - |change|) * (threshold - 1)
  {
    hide AmountsAt, Dust, Total;
    var amounts := AmountsAt(s, at, available, n, precisions);
    var kept := Kept(amounts, threshold);
    AmountsSplit(s, at, available, n, precisions);
    KeptAndDust(amounts, threshold);
    PairedTotal(scripts, kept);
    KeptAbove(amounts, threshold);
    if threshold > 0 { DustBound(amounts, threshold); }
    forall i | 0 <= i < |change|
      ensures change[i].value >= threshold && change[i].script == scripts[i]
    {
      assert kept[i] in kept;
    }
  }

  method ChangeOutputs(values: seq<nat>, fee0: int, scripts: seq<nat>, estimate: nat -> int,
                       threshold: nat, p: Prng)
    returns (change: seq<Output>, dust: nat, ghost n: nat)
    requires values != [] && ModestSteps(estimate) && 0 < |scripts| <= MAX_COUNT && p.Valid()
    modifies p
    ensures p.Valid()
    ensures Chosen(fee0, estimate, |scripts|, Largest(values), n)
    ensures ChangeAt(p.stream, old(p.served), Available(fee0, estimate, n), n, Precisions(values), scripts,
                     threshold, change, dust)
  {
    hide AmountsAt, Precisions;
    var amounts;
    amounts, n := ChangeAmounts(values, fee0, |scripts|, estimate, p);
    dust := Dust(amounts, threshold);
    change := Paired(scripts, Kept(amounts, threshold));
  }

  lemma {:induction false} KeptAbove(amounts: seq<nat>, threshold: nat)
    ensures forall v :: v in Kept(amounts, threshold) ==> v >= threshold
  {
    if amounts != [] { KeptAbove(amounts[1..], threshold); }
  }

  // ------------------------------------------------------------------------ the transaction

  datatype Payment = Payment(inputs: seq<Coin>, outputs: seq<Output>, change: seq<Output>)

  function PaidFee(tx: Payment): int
  {
    Total(tx.inputs, COIN_VALUE) - Total(tx.outputs, OUTPUT_VALUE) - Total(tx.change, OUTPUT_VALUE)
  }

  ghost predicate Monotone(fee: nat -> int)
  {
    forall a: nat, b: nat :: a <= b ==> fee(a) <= fee(b)
  }

  /* One more change output of the given size never raises the fee by more than MAX_STEP. */
  ghost predicate ModestFee(fee: nat -> int, changeSize: nat)
  {
    Monotone(fee) && forall a: nat :: fee(a + changeSize) <= fee(a) + MAX_STEP
  }

  /* The fee estimate for a count of change outputs. */
  function Estimate(fee: nat -> int, size: nat, changeSize: nat): nat -> int
  {
    (c: nat) => fee(size + c * changeSize)
  }

  /* The change is what the stream makes of the amount available for the count chosen. */
  ghost predicate ChangeMade(tx: Payment, fee: nat -> int, baseSize: nat, changeSize: nat, scripts: seq<nat>,
                             threshold: nat, s: Stream, at: nat, dust: nat, n: nat)
  {
    TotalNonNegative(tx.inputs, COIN_SIZE);
    var estimate := Estimate(fee, baseSize + Total(tx.inputs, COIN_SIZE), changeSize);
    var fee0 := Total(tx.inputs, COIN_VALUE) - Total(tx.outputs, OUTPUT_VALUE);
    && tx.outputs != []
    && Chosen(fee0, estimate, |scripts|, Largest(Values(tx.outputs)), n)
    && ChangeAt(s, at, Available(fee0, estimate, n), n, Precisions(Values(tx.outputs)), scripts,
                threshold, tx.change, dust)
  }

  /* The fee covers the estimate for the size with the change outputs kept, and exceeds the
     estimate for the number of change outputs aimed at by less than 100 and, for each output
     dropped, less than the threshold; what is kept reaches the threshold. */
  ghost predicate PaysItsWay(tx: Payment, fee: nat -> int, baseSize: nat, changeSize: nat, scripts: seq<nat>,
                             threshold: nat, n: nat)
  {
    TotalNonNegative(tx.inputs, COIN_SIZE);
    var size := baseSize + Total(tx.inputs, COIN_SIZE);
    && |tx.change| <= n <= |scripts|
    && PaidFee(tx) >= fee(size + |tx.change| * changeSize)
    && PaidFee(tx) < fee(size + n * changeSize) + 100 + (n - |tx.change|) * (threshold - 1)
    && forall i :: 0 <= i < |tx.change| ==> tx.change[i].value >= threshold && tx.change[i].script == scripts[i]
  }

  lemma RemoveBucket(bs: seq<Bucket>, i: nat)
    requires i < |bs|
    ensures multiset(AllCoins(bs)) == multiset(AllCoins(bs[..i] + bs[i + 1..])) + multiset(bs[i].coins)
  {
    assert bs == bs[..i] + ([bs[i]] + bs[i + 1..]);
    AllCoinsConcat(bs[..i], [bs[i]] + bs[i + 1..]);
    AllCoinsConcat(bs[..i], bs[i + 1..]);
    assert ([bs[i]] + bs[i + 1..])[1..] == bs[i + 1..];
  }

  lemma {:induction false} AllCoinsConcat(a: seq<Bucket>, b: seq<Bucket>)
    ensures AllCoins(a + b) == AllCoins(a) + AllCoins(b)
  {
    if a == [] {
      assert a + b == b;
    } else {
      AllCoinsConcat(a[1..], b);
      assert (a + b)[0] == a[0] && (a + b)[1..] == a[1..] + b;
      ConcatAssociative(a[0].coins, AllCoins(a[1..]), AllCoins(b));
    }
  }

  lemma ConcatAssociative<T>(x: seq<T>, y: seq<T>, z: seq<T>)
    ensures (x + y) + z == x + (y + z)
  {}

  /* A selection of buckets selects coins, none of them twice. */
  lemma {:induction false} SelectedCoins(selection: seq<Bucket>, bs: seq<Bucket>)
    requires multiset(selection) <= multiset(bs)
    ensures multiset(AllCoins(selection)) <= multiset(AllCoins(bs))
    decreases |selection|
  {
    if selection != [] {
      var i := MatchSome(selection, bs);
      SelectedCoins(selection[1..], bs[..i] + bs[i + 1..]);
      RemoveBucket(bs, i);
    }
  }

  lemma MatchSome<T>(s: seq<T>, t: seq<T>) returns (i: nat)
    requires multiset(s) <= multiset(t) && s != []
    ensures i < |t| && t[i] == s[0]
    ensures multiset(s[1..]) <= multiset(t[..i] + t[i + 1..])
  {
    i := SomePlace(s, t);
    WithoutFirst(s);
    WithoutElement(t, i);
    var a, b := multiset(s), multiset(t);
    LessOne(a, b, s[0]);
  }

  lemma WithoutFirst<T>(s: seq<T>)
    requires s != []
    ensures multiset(s[1..]) == multiset(s) - multiset{s[0]}
  {
    assert s == [s[0]] + s[1..];
  }

  lemma SomePlace<T>(s: seq<T>, t: seq<T>) returns (i: nat)
    requires multiset(s) <= multiset(t) && s != []
    ensures i < |t| && t[i] == s[0]
  {
    assert s[0] in multiset(s);
    assert s[0] in multiset(t);
    i :| 0 <= i < |t| && t[i] == s[0];
  }

  lemma WithoutElement<T>(s: seq<T>, i: nat)
    requires i < |s|
    ensures multiset(s[..i] + s[i + 1..]) == multiset(s) - multiset{s[i]}
  {
    assert s == s[..i] + [s[i]] + s[i + 1..];
  }

  lemma LessOne<T>(a: multiset<T>, b: multiset<T>, x: T)
    requires a <= b
    ensures a - multiset{x} <= b - multiset{x}
  {}

  /* The fee of the built transaction, from what change and dust amount to. */
  lemma FeeBounds(fee: nat -> int, size: nat, changeSize: nat, fee0: int, kept: nat, n: nat,
                  change: int, dust: nat)
    requires Monotone(fee) && fee0 >= fee(size) && kept <= n
    requires 0 <= Available(fee0, Estimate(fee, size, changeSize), n) - (change + dust) < 100
    requires change >= 0 && (change == 0 ==> kept == 0)
    ensures fee0 - change >= fee(size + kept * changeSize)
    ensures fee0 - change < fee(size + n * changeSize) + 100 + dust
  {
    MulMono(kept, n, changeSize);
    assert fee(size + kept * changeSize) <= fee(size + n * changeSize);
    if fee0 < fee(size + n * changeSize) {
      assert change == 0;
      assert size + 0 * changeSize == size;
    }
  }

  lemma ModestEstimateAt(fee: nat -> int, size: nat, changeSize: nat, n: nat)
    requires ModestFee(fee, changeSize)
    ensures ModestStep(Estimate(fee, size, changeSize), n)
  {
    var a := size + n * changeSize;
    assert size + (n + 1) * changeSize == a + changeSize;
    assert fee(a) <= fee(a + changeSize) <= fee(a) + MAX_STEP;
  }

  lemma ModestEstimate(fee: nat -> int, size: nat, changeSize: nat)
    requires ModestFee(fee, changeSize)
    ensures ModestSteps(Estimate(fee, size, changeSize))
  {
    var estimate := Estimate(fee, size, changeSize);
    forall n: nat
      ensures ModestStep(estimate, n)
    {
      ModestEstimateAt(fee, size, changeSize, n);
    }
  }

  lemma {:induction false} ChangeAtLeast(change: seq<Output>, threshold: nat)
    requires threshold > 0 && forall i :: 0 <= i < |change| ==> change[i].value >= threshold
    ensures Total(change, OUTPUT_VALUE) >= 0
    ensures Total(change, OUTPUT_VALUE) == 0 ==> change == []
  {
    TotalNonNegative(change, OUTPUT_VALUE);
    if change != [] {
      TotalNonNegative(change[1..], OUTPUT_VALUE);
    }
  }

  /* What the transaction has to pay besides its inputs. */
  function NeedOf(outputs: seq<Output>, baseSize: nat, fee: nat -> int): Need
  {
    Need(Total(outputs, OUTPUT_VALUE), baseSize, fee)
  }

  lemma SelectionPays(need: Need, selection: seq<Bucket>)
    requires Sufficient(need, selection) && forall i :: 0 <= i < |selection| ==> WellMade(selection[i])
    ensures Total(AllCoins(selection), COIN_SIZE) == TotalSize(selection)
    ensures Total(AllCoins(selection), COIN_VALUE) - need.spent >= need.fee(need.baseSize + TotalSize(selection))
  {
    AllCoinsTotals(selection);
    assert need.baseSize + TotalSize(selection) == TotalSize(selection) + need.baseSize;
  }

  lemma SelectedWellMade(coins: seq<Coin>, selection: seq<Bucket>)
    requires multiset(selection) <= multiset(Buckets(coins))
    ensures forall i :: 0 <= i < |selection| ==> WellMade(selection[i])
    ensures multiset(AllCoins(selection)) <= multiset(coins)
  {
    BucketsPartition(coins);
    SelectedCoins(selection, Buckets(coins));
    forall i | 0 <= i < |selection| ensures WellMade(selection[i]) {
      assert selection[i] in multiset(selection);
      assert selection[i] in Buckets(coins);
    }
  }

  /* A transaction with its change made this way pays its way. */
  lemma ChangePays(tx: Payment, fee: nat -> int, baseSize: nat, changeSize: nat, scripts: seq<nat>,
                   threshold: nat, s: Stream, at: nat, dust: nat, n: nat)
    requires ChangeMade(tx, fee, baseSize, changeSize, scripts, threshold, s, at, dust, n)
    requires threshold > 0 && Monotone(fee) && Total(tx.inputs, COIN_SIZE) >= 0
    requires Total(tx.inputs, COIN_VALUE) - Total(tx.outputs, OUTPUT_VALUE)
             >= fee(baseSize + Total(tx.inputs, COIN_SIZE))
    ensures PaysItsWay(tx, fee, baseSize, changeSize, scripts, threshold, n)
  {
    hide Total, ChangeAt, Chosen, Largest, Precisions;
    var size := baseSize + Total(tx.inputs, COIN_SIZE);
    var fee0 := Total(tx.inputs, COIN_VALUE) - Total(tx.outputs, OUTPUT_VALUE);
    var estimate := Estimate(fee, size, changeSize);
    CountInRange(fee0, estimate, |scripts|, Largest(Values(tx.outputs)), n);
    ChangeFacts(s, at, Available(fee0, estimate, n), n, Precisions(Values(tx.outputs)), scripts, threshold,
                tx.change, dust);
    ChangeAtLeast(tx.change, threshold);
    FeeBounds(fee, size, changeSize, fee0, |tx.change|, n, Total(tx.change, OUTPUT_VALUE), dust);
  }

  lemma CountInRange(fee0: int, estimate: nat -> int, count: nat, largest: int, n: nat)
    requires Chosen(fee0, estimate, count, largest, n)
    ensures 1 <= n <= count
  {}

  method AddChange(inputs: seq<Coin>, outputs: seq<Output>, scripts: seq<nat>, changeSize: nat,
                   baseSize: nat, fee: nat -> int, threshold: nat, p: Prng)
    returns (tx: Payment, ghost dust: nat, ghost n: nat)
    requires outputs != [] && 0 < |scripts| <= MAX_COUNT
    requires ModestFee(fee, changeSize) && p.Valid() && Total(inputs, COIN_SIZE) >= 0
    modifies p
    ensures p.Valid() && tx.inputs == inputs && tx.outputs == outputs
    ensures ChangeMade(tx, fee, baseSize, changeSize, scripts, threshold, p.stream, old(p.served), dust, n)
  {
    hide Total, Chosen, ChangeAt, Largest, Precisions;
    var size := baseSize + Total(inputs, COIN_SIZE);
    var fee0 := Total(inputs, COIN_VALUE) - Total(outputs, OUTPUT_VALUE);
    ModestEstimate(fee, size, changeSize);
    var change;
    change, dust, n := ChangeOutputs(Values(outputs), fee0, scripts,
                                     Estimate(fee, size, changeSize), threshold, p);
    tx := Payment(inputs, outputs, change);
  }

  /* The seed fixes the transaction, up to candidates that tie for the least penalty: the inputs
     are the coins of the chosen buckets, and the change is made from the stream behind them. */
  ghost predicate BuiltFrom(tx: Payment, coins: seq<Coin>, outputs: seq<Output>, scripts: seq<nat>, changeSize: nat,
                            baseSize: nat, fee: nat -> int, threshold: nat, penalty: seq<Bucket> -> real,
                            s: Stream, chosen: seq<Bucket>, dust: nat, n: nat)
  {
    var buckets := Buckets(coins);
    && Blocks(s) && ChosenAt(NeedOf(outputs, baseSize, fee), buckets, penalty, s, 0, chosen)
    && tx.inputs == AllCoins(chosen) && tx.outputs == outputs
    && ChangeMade(tx, fee, baseSize, changeSize, scripts, threshold, s,
                  AttemptsBytes(|buckets|, AttemptCount(|buckets|)), dust, n)
  }

  /* The values and sizes of the coins, and the values of the outputs. */
  ghost predicate Fields(coins: seq<Coin>, values: seq<int>, sizes: seq<int>, outputs: seq<Output>, paid: seq<int>)
  {
    && |values| == |sizes| == |coins| && |paid| == |outputs|
    && (forall i :: 0 <= i < |coins| ==> values[i] == coins[i].value && sizes[i] == coins[i].size)
    && (forall i :: 0 <= i < |outputs| ==> paid[i] == outputs[i].value)
  }

  /* All coins together do not pay for themselves: in plain sums. */
  lemma ShortOfFunds(coins: seq<Coin>, values: seq<int>, sizes: seq<int>, outputs: seq<Output>, paid: seq<int>,
                     baseSize: nat, fee: nat -> int)
    requires Fields(coins, values, sizes, outputs, paid)
    ensures SumSeq(sizes) >= 0
    ensures Sufficient(NeedOf(outputs, baseSize, fee), Buckets(coins))
            <==> SumSeq(values) >= SumSeq(paid) + fee(baseSize + SumSeq(sizes))
  {
    hide Buckets, SumSeq, Total;
    BucketsPartition(coins);
    AllCoinsTotals(Buckets(coins));
    TotalPermutation(AllCoins(Buckets(coins)), coins, COIN_SIZE);
    TotalIsSum(coins, COIN_VALUE, values);
    TotalIsSum(coins, COIN_SIZE, sizes);
    TotalIsSum(outputs, OUTPUT_VALUE, paid);
    TotalNonNegative(coins, COIN_SIZE);
  }

  /* The fee paid, in plain sums. */
  lemma PaidFeeIs(tx: Payment, values: seq<int>, sizes: seq<int>, paid: seq<int>, change: seq<int>)
    requires Fields(tx.inputs, values, sizes, tx.outputs, paid) && Fields([], [], [], tx.change, change)
    ensures PaidFee(tx) == SumSeq(values) - SumSeq(paid) - SumSeq(change)
    ensures Total(tx.inputs, COIN_SIZE) == SumSeq(sizes)
  {
    TotalIsSum(tx.inputs, COIN_VALUE, values);
    TotalIsSum(tx.inputs, COIN_SIZE, sizes);
    TotalIsSum(tx.outputs, OUTPUT_VALUE, paid);
    TotalIsSum(tx.change, OUTPUT_VALUE, change);
  }

  method MakeTx(coins: seq<Coin>, outputs: seq<Output>, scripts: seq<nat>, changeSize: nat,
                baseSize: nat, fee: nat -> int, threshold: nat, penalty: seq<Bucket> -> real,
                hash: Hash, seed: seq<Digits.byte>)
    returns (r: Result<Payment, ChooserError>)
    requires outputs != [] && 0 < |scripts| <= MAX_COUNT
    requires ModestFee(fee, changeSize) && HashSize(hash, 32)
    ensures match r
            case Ok(tx) =>
              exists chosen, dust, n ::
                && BuiltFrom(tx, coins, outputs, scripts, changeSize, baseSize, fee, threshold, penalty,
                             Seeded(hash, seed), chosen, dust, n)
                && (threshold > 0 && Monotone(fee) ==>
                      && multiset(tx.inputs) <= multiset(coins)
                      && PaysItsWay(tx, fee, baseSize, changeSize, scripts, threshold, n))
            case Err(NotEnoughFunds) =>
              forall values, sizes, paid :: Fields(coins, values, sizes, outputs, paid) ==>
                SumSeq(sizes) >= 0 && SumSeq(values) < SumSeq(paid) + fee(baseSize + SumSeq(sizes))
            case Err(NoBuckets) => coins == []
  {
    hide Buckets, ChosenAt, ChangeMade, Sufficient, AttemptsBytes, CandidatesAt, PaysItsWay;
    var p := new Prng(hash, seed);
    var need := NeedOf(outputs, baseSize, fee);
    var buckets := BucketizeCoins(coins);
    SomeBucket(coins);
    CandidatesSuffice(need, buckets, p.stream, p.served);
    var picked := ChooseBuckets(buckets, need, penalty, p);
    if picked.Err? {
      forall values, sizes, paid | Fields(coins, values, sizes, outputs, paid)
        ensures SumSeq(sizes) >= 0
        ensures picked.error == NotEnoughFunds ==> SumSeq(values) < SumSeq(paid) + fee(baseSize + SumSeq(sizes))
      {
        ShortOfFunds(coins, values, sizes, outputs, paid, baseSize, fee);
      }
      return Err(picked.error);
    }
    var chosen := picked.value;
    TotalNonNegative(AllCoins(chosen), COIN_SIZE);
    var tx, dust, n := AddChange(AllCoins(chosen), outputs, scripts, changeSize, baseSize, fee, threshold, p);
    if threshold > 0 && Monotone(fee) {
      BuiltPays(tx, coins, outputs, scripts, changeSize, baseSize, fee, threshold, penalty, p.stream, chosen, dust, n);
    }
    assert BuiltFrom(tx, coins, outputs, scripts, changeSize, baseSize, fee, threshold, penalty, p.stream, chosen, dust, n);
    r := Ok(tx);
  }

  lemma SomeBucket(coins: seq<Coin>)
    ensures Buckets(coins) == [] ==> coins == []
  {
    if coins != [] { assert coins[0].key in KeysInOrder(coins); }
  }

  /* Coin selection pays its way: the transaction spends distinct given coins, and its fee is
     bounded on both sides. */
  lemma BuiltPays(tx: Payment, coins: seq<Coin>, outputs: seq<Output>, scripts: seq<nat>, changeSize: nat,
                  baseSize: nat, fee: nat -> int, threshold: nat, penalty: seq<Bucket> -> real,
                  s: Stream, chosen: seq<Bucket>, dust: nat, n: nat)
    requires BuiltFrom(tx, coins, outputs, scripts, changeSize, baseSize, fee, threshold, penalty, s, chosen, dust, n)
    requires threshold > 0 && Monotone(fee)
    ensures multiset(tx.inputs) <= multiset(coins) && tx.outputs == outputs
    ensures PaysItsWay(tx, fee, baseSize, changeSize, scripts, threshold, n)
  {
    hide Buckets, ChosenAt, ChangeMade, Sufficient, AttemptsBytes, Total;
    var need := NeedOf(outputs, baseSize, fee);
    ChosenIsSelection(need, Buckets(coins), penalty, s, 0, chosen);
    SelectedWellMade(coins, chosen);
    SelectionPays(need, chosen);
    ChangePays(tx, fee, baseSize, changeSize, scripts, threshold, s,
               AttemptsBytes(|Buckets(coins)|, AttemptCount(|Buckets(coins)|)), dust, n);
  }

  lemma CountUnique(fee0: int, estimate: nat -> int, count: nat, largest: int, m: nat, n: nat)
    requires Chosen(fee0, estimate, count, largest, m) && Chosen(fee0, estimate, count, largest, n)
    ensures m == n
  {}

  /* Two transactions built from one seed are equal when no two candidates tie. */
  lemma SeedDecides(a: Payment, b: Payment, coins: seq<Coin>, outputs: seq<Output>, scripts: seq<nat>,
                    changeSize: nat, baseSize: nat, fee: nat -> int, threshold: nat, penalty: seq<Bucket> -> real,
                    s: Stream, chosen1: seq<Bucket>, dust1: nat, n1: nat, chosen2: seq<Bucket>, dust2: nat, n2: nat)
    requires BuiltFrom(a, coins, outputs, scripts, changeSize, baseSize, fee, threshold, penalty, s, chosen1, dust1, n1)
    requires BuiltFrom(b, coins, outputs, scripts, changeSize, baseSize, fee, threshold, penalty, s, chosen2, dust2, n2)
    requires NoTies(NeedOf(outputs, baseSize, fee), Buckets(coins), penalty, s, 0)
    ensures a == b
  {
    hide Buckets, ChosenAt, Chosen, Total, NoTies, AmountsAt, Kept, Dust, Largest, Precisions;
    ChoiceDetermined(NeedOf(outputs, baseSize, fee), Buckets(coins), penalty, s, 0, chosen1, chosen2);
    TotalNonNegative(a.inputs, COIN_SIZE);
    var estimate := Estimate(fee, baseSize + Total(a.inputs, COIN_SIZE), changeSize);
    CountUnique(Total(a.inputs, COIN_VALUE) - Total(outputs, OUTPUT_VALUE), estimate, |scripts|,
                Largest(Values(outputs)), n1, n2);
  }
}
