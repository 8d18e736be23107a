/**
 electrumsv/benford.py: amounts that start with a wanted decimal digit, and the greedy splitter
 that hands them out.
 */
module Benford {
  import opened Arith
  import opened Digits
  import opened Sums
  import opened Wrappers

  // -------------------------------------------------------------------------- leading digits

  /* The first digit that is not zero, if there is one. */
  function FirstNonZero(ds: seq<nat>): nat
  {
    if ds == [] then 0 else if ds[0] != 0 then ds[0] else FirstNonZero(ds[1..])
  }

  method LeadingDigitOf(value: int) returns (d: nat)
    ensures d == LeadingDecimal(value)
  {
    var text := Minimal(Magnitude(value), 10);
    assert text[0..] == text;
    for i := 0 to |text|
      invariant FirstNonZero(text) == FirstNonZero(text[i..])
    {
      assert text[i..][1..] == text[i + 1..];
      if text[i] != 0 {
        return text[i];
      }
    }
    return 0;
  }

  function Magnitude(v: int): nat
  {
    if v < 0 then -v else v
  }

  function LeadingDecimal(value: int): nat
  {
    FirstNonZero(Minimal(Magnitude(value), 10))
  }

  function Ten(e: nat): (p: nat)
    ensures p > 0
  {
    PowPositive(10, e);
    Pow(10, e)
  }

  /* v lies among the amounts of e + 1 digits that start with d. */
  predicate InDecade(v: int, d: nat, e: nat)
  {
    d * Ten(e) <= v < (d + 1) * Ten(e)
  }

  ghost predicate StartsWith(v: int, d: nat)
  {
    exists e :: InDecade(v, d, e)
  }

  lemma DecadesApart(v: int, d: nat, e: nat, c: nat, f: nat)
    requires 1 <= d <= 9 && 1 <= c <= 9 && InDecade(v, d, e) && InDecade(v, c, f)
    ensures d == c && e == f
  {
    if e < f {
      DecadeBelow(d, e, f);
      MulMono(1, c, Ten(f));
    } else if f < e {
      DecadeBelow(c, f, e);
      MulMono(1, d, Ten(e));
    } else if d < c {
      MulMono(d + 1, c, Ten(e));
    } else if c < d {
      MulMono(c + 1, d, Ten(e));
    }
  }

  lemma DecadeBelow(d: nat, e: nat, f: nat)
    requires d <= 9 && e < f
    ensures (d + 1) * Ten(e) <= Ten(f)
  {
    PowMono(10, e + 1, f);
    MulMono(d + 1, 10, Ten(e));
  }

  lemma {:induction false} MinimalDecade(v: nat)
    requires v > 0
    ensures 1 <= Minimal(v, 10)[0] <= 9 && InDecade(v, Minimal(v, 10)[0], |Minimal(v, 10)| - 1)
    decreases v
  {
    if v < 10 {
      assert Ten(0) == 1;
    } else {
      var q, r := MinimalStep(v, 10);
      MinimalDecade(q);
      var d, e := Minimal(q, 10)[0], |Minimal(q, 10)| - 1;
      NextDecade(q, r, d, e);
    }
  }

  lemma NextDecade(q: nat, r: nat, d: nat, e: nat)
    requires InDecade(q, d, e) && r < 10
    ensures InDecade(q * 10 + r, d, e + 1)
  {
    var t := Ten(e);
    assert Ten(e + 1) == 10 * t;
    assert (d * t) * 10 == d * (10 * t);
    assert ((d + 1) * t) * 10 == (d + 1) * (10 * t);
  }

  /* The leading digit is the one whose decade the amount lies in. */
  lemma LeadingDigitIsDecade(v: int, d: nat)
    requires v > 0 && 1 <= d <= 9
    ensures LeadingDecimal(v) == d <==> StartsWith(v, d)
  {
    MinimalDecade(v);
    var c, e := Minimal(v, 10)[0], |Minimal(v, 10)| - 1;
    assert LeadingDecimal(v) == c;
    if StartsWith(v, d) {
      var f: nat :| InDecade(v, d, f);
      DecadesApart(v, d, f, c, e);
    }
  }

  // ------------------------------------------------------------------ choosing within bounds

  lemma DecadeOrder(d: nat, e: nat, f: nat)
    requires e <= f
    ensures d * Ten(e) <= d * Ten(f) && (d + 1) * Ten(e) <= (d + 1) * Ten(f)
  {
    PowMono(10, e, f);
    MulMono(Ten(e), Ten(f), d);
    MulMono(Ten(e), Ten(f), d + 1);
  }

  /* No amount of this exponent reaches the minimum. */
  lemma DecadeTooSmall(d: nat, e: nat, f: nat, minimum: int)
    requires d <= 9 && e < f && Ten(f) <= minimum
    ensures (d + 1) * Ten(e) <= minimum
  {
    DecadeBelow(d, e, f);
  }

  function Upper(d: nat, e: nat): int
    requires d <= 9
    ensures Upper(d, e) == (d + 1) * Ten(e) - 1
  {
    if d < 9 then (d + 1) * Ten(e) - 1 else Ten(e + 1) - 1
  }

  method SmallestAmountWithDigit(digit: nat, minimum: int) returns (r: int)
    requires 1 <= digit <= 9
    ensures r >= minimum && StartsWith(r, digit)
    ensures forall v :: v >= minimum && StartsWith(v, digit) ==> r <= v
  {
    if minimum <= digit {
      assert InDecade(digit, digit, 0);
      forall v | StartsWith(v, digit) ensures digit <= v {
        var e: nat :| InDecade(v, digit, e);
        DecadeOrder(digit, 0, e);
      }
      return digit;
    }
    var exp := Max(0, |Minimal(minimum, 10)| - 1);
    MinimalLength(minimum, 10);
    ghost var last := exp + 1;
    forall e | 0 <= e < exp ensures Upper(digit, e) < minimum {
      DecadeTooSmall(digit, e, exp, minimum);
    }
    LastDecade(digit, last, minimum);
    while true
      invariant 0 <= exp <= last
      invariant forall e :: 0 <= e < exp ==> Upper(digit, e) < minimum
      decreases last - exp
    {
      var lower := digit * Ten(exp);
      var upper := Upper(digit, exp);
      if upper >= minimum {
        r := Max(lower, minimum);
        Reached(digit, exp, minimum, r);
        return;
      }
      exp := exp + 1;
    }
  }

  lemma LastDecade(digit: nat, last: nat, minimum: int)
    requires 1 <= digit <= 9 && minimum < Ten(last)
    ensures Upper(digit, last) >= minimum
  {
    MulMono(1, digit, Ten(last));
  }

  lemma DecadeNotEmpty(d: nat, e: nat)
    ensures d * Ten(e) < (d + 1) * Ten(e)
  {}

  lemma Reached(digit: nat, exp: nat, minimum: int, r: int)
    requires 1 <= digit <= 9 && Upper(digit, exp) >= minimum && r == Max(digit * Ten(exp), minimum)
    requires forall e :: 0 <= e < exp ==> Upper(digit, e) < minimum
    ensures StartsWith(r, digit)
    ensures forall v :: v >= minimum && StartsWith(v, digit) ==> r <= v
  {
    hide Ten;
    DecadeNotEmpty(digit, exp);
    assert InDecade(r, digit, exp);
    forall v | v >= minimum && StartsWith(v, digit) ensures r <= v {
      var e: nat :| InDecade(v, digit, e);
      var upper := Upper(digit, e);
      if e >= exp { DecadeOrder(digit, exp, e); }
    }
  }

  ghost predicate Fits(v: int, digit: nat, minimum: int, maximum: int)
  {
    minimum <= v <= maximum && StartsWith(v, digit)
  }

  /* No fitting amount has an exponent above this one. */
  ghost predicate NoneAbove(digit: nat, exp: int, minimum: int, maximum: int)
  {
    forall v, e: nat :: e > exp && InDecade(v, digit, e) ==> !(minimum <= v <= maximum)
  }

  lemma NoneAtFirst(digit: nat, exp: nat, minimum: int, maximum: int)
    requires 1 <= digit <= 9 && maximum < Ten(exp)
    ensures NoneAbove(digit, exp, minimum, maximum)
  {
    forall v, e: nat | e > exp && InDecade(v, digit, e) ensures v > maximum {
      PowMono(10, exp, e);
      MulMono(1, digit, Ten(e));
    }
  }

  lemma NoneHere(digit: nat, exp: nat, minimum: int, maximum: int)
    requires 1 <= digit <= 9 && NoneAbove(digit, exp, minimum, maximum)
    requires Min(maximum, Upper(digit, exp)) < Max(minimum, digit * Ten(exp))
    ensures NoneAbove(digit, exp - 1, minimum, maximum)
  {}

  lemma GreatestHere(digit: nat, exp: nat, minimum: int, maximum: int, v: int)
    requires 1 <= digit <= 9 && NoneAbove(digit, exp, minimum, maximum)
    requires v == Min(maximum, Upper(digit, exp)) >= Max(minimum, digit * Ten(exp))
    ensures Fits(v, digit, minimum, maximum)
    ensures forall w :: Fits(w, digit, minimum, maximum) ==> w <= v
  {
    hide Ten;
    assert InDecade(v, digit, exp);
    forall w | Fits(w, digit, minimum, maximum) ensures w <= v {
      var e: nat :| InDecade(w, digit, e);
      if e <= exp { DecadeOrder(digit, e, exp); }
    }
  }

  /* The greatest amount within the bounds that starts with the digit, None when there is none. */
  method ChooseBenfordAmount(digit: nat, minimum: int, maximum: int) returns (r: Option<int>)
    requires 1 <= digit <= 9
    ensures r == None ==> forall v :: !Fits(v, digit, minimum, maximum)
    ensures r.Some? ==> Fits(r.value, digit, minimum, maximum)
    ensures r.Some? ==> forall v :: Fits(v, digit, minimum, maximum) ==> v <= r.value
  {
    if maximum < minimum {
      return None;
    }
    var candidate := SmallestAmountWithDigit(digit, minimum);
    if candidate > maximum {
      return None;
    }
    ghost var e0: nat :| InDecade(candidate, digit, e0);
    MulPos(digit, Ten(e0));
    MinimalLength(maximum, 10);
    var exp: int := |Minimal(maximum, 10)|;
    NoneAtFirst(digit, exp, minimum, maximum);
    while exp >= 0
      invariant exp >= -1 && NoneAbove(digit, exp, minimum, maximum)
      decreases exp
    {
      var lower := digit * Ten(exp);
      var upper := Upper(digit, exp);
      if upper < minimum {
        NoneHere(digit, exp, minimum, maximum);
        exp := exp - 1;
        continue;
      }
      candidate := Min(maximum, upper);
      if candidate >= Max(minimum, lower) {
        GreatestHere(digit, exp, minimum, maximum, candidate);
        return Some(candidate);
      }
      NoneHere(digit, exp, minimum, maximum);
      exp := exp - 1;
    }
    assert false;
  }

  // --------------------------------------------------------------------------------- splitting

  datatype SplitError = NotEnoughFunds

  predicate WithinCap(v: int, cap: Option<int>)
  {
    cap.Some? ==> v <= cap.value
  }

  /* So much can be split into count parts between the minimum and the cap. */
  predicate Splittable(total: int, count: nat, minimum: int, cap: Option<int>)
  {
    count * minimum <= total && (cap.Some? ==> total <= count * cap.value)
  }

  /* No amount is below the minimum or above the cap. */
  ghost predicate AllWithin(amounts: seq<int>, minimum: int, cap: Option<int>)
  {
    forall i :: 0 <= i < |amounts| ==> minimum <= amounts[i] && (cap.Some? ==> amounts[i] <= cap.value)
  }

  lemma WithinToo(amounts: seq<int>, amount: int, minimum: int, cap: Option<int>)
    requires AllWithin(amounts, minimum, cap) && minimum <= amount && WithinCap(amount, cap)
    ensures AllWithin(amounts + [amount], minimum, cap)
  {}

  lemma SplitRest(total: int, count: nat, minimum: int, cap: Option<int>, amount: int)
    requires count >= 1 && Splittable(total, count + 1, minimum, cap)
    requires minimum <= amount <= total - count * minimum
    requires cap.Some? ==> total - count * cap.value <= amount
    ensures Splittable(total - amount, count, minimum, cap)
  {}

  lemma SplitBounds(total: int, count: nat, minimum: int, cap: Option<int>)
    requires count >= 1
    ensures Splittable(total, count + 1, minimum, cap)
            <==> && minimum <= total - minimum - minimum * (count - 1)
                 && (cap.Some? ==> minimum <= cap.value && total - count * cap.value <= cap.value)
  {
    assert (count + 1) * minimum == minimum + minimum + minimum * (count - 1);
    if cap.Some? {
      assert (count + 1) * cap.value == count * cap.value + cap.value;
      if cap.value < minimum { MulMono(cap.value + 1, minimum, count + 1); }
    }
  }

  /* digitAt stands for the digit of the quantile and scale for the truncated product with the
     privacy factor: both come from floating point, and any values will do. */
  method BuildFixedAmounts(total: int, count: int, minimum: int, cap: Option<int>,
                           digitAt: nat -> nat, scale: (nat, int) -> int)
    returns (r: Result<seq<int>, SplitError>)
    requires forall i :: 1 <= digitAt(i) <= 9
    ensures count < 2 ==> r == Ok([])
    ensures count >= 2 ==> (r.Ok? <==> Splittable(total, count, minimum, cap))
    ensures r.Ok? && count >= 2 ==>
              && |r.value| == count - 1
              && AllWithin(r.value, minimum, cap)
              && minimum <= total - SumSeq(r.value) && WithinCap(total - SumSeq(r.value), cap)
              && AllChosen(total, count, minimum, cap, digitAt, scale, r.value)
  {
    if count < 2 {
      return Ok([]);
    }
    hide Splittable, FixedChoice, AllChosen, AllWithin, SumSeq, WithinCap, SplitSoFar;
    SplitStart(total, count, minimum, cap, digitAt, scale);
    var amounts := [];
    var remaining := total;
    for i := 0 to count - 1
      invariant |amounts| == i && SplitSoFar(total, count, minimum, cap, digitAt, scale, amounts, remaining)
    {
      var amount := FixedAmount(remaining, count - 1 - i, minimum, cap, digitAt(i), i, scale);
      SplitNext(total, count, minimum, cap, digitAt, scale, amounts, remaining);
      if amount.Err? {
        return Err(NotEnoughFunds);
      }
      SplitStep(total, count, minimum, cap, digitAt, scale, amounts, remaining, amount.value);
      amounts := amounts + [amount.value];
      remaining := remaining - amount.value;
    }
    SplitDone(total, count, minimum, cap, digitAt, scale, amounts, remaining);
    return Ok(amounts);
  }

  /* Some amounts were split off and the rest remains. */
  ghost predicate SplitSoFar(total: int, count: int, minimum: int, cap: Option<int>, digitAt: nat -> nat,
                             scale: (nat, int) -> int, amounts: seq<int>, remaining: int)
  {
    && |amounts| < count && SumSeq(amounts) == total - remaining
    && AllWithin(amounts, minimum, cap) && AllChosen(total, count, minimum, cap, digitAt, scale, amounts)
    && (amounts != [] ==> Splittable(total, count, minimum, cap))
    && (Splittable(total, count, minimum, cap) ==> Splittable(remaining, count - |amounts|, minimum, cap))
  }

  lemma SplitStart(total: int, count: int, minimum: int, cap: Option<int>, digitAt: nat -> nat,
                   scale: (nat, int) -> int)
    requires count >= 2
    ensures SplitSoFar(total, count, minimum, cap, digitAt, scale, [], total)
  {
    hide Splittable, AllChosen;
    NoneChosen(total, count, minimum, cap, digitAt, scale);
  }

  /* The rest can be split exactly when the whole could. */
  lemma SplitNext(total: int, count: int, minimum: int, cap: Option<int>, digitAt: nat -> nat,
                  scale: (nat, int) -> int, amounts: seq<int>, remaining: int)
    requires SplitSoFar(total, count, minimum, cap, digitAt, scale, amounts, remaining)
    ensures Splittable(remaining, count - |amounts|, minimum, cap) <==> Splittable(total, count, minimum, cap)
  {
    hide Splittable, AllChosen, AllWithin;
  }

  lemma SplitStep(total: int, count: int, minimum: int, cap: Option<int>, digitAt: nat -> nat,
                  scale: (nat, int) -> int, amounts: seq<int>, remaining: int, amount: int)
    requires SplitSoFar(total, count, minimum, cap, digitAt, scale, amounts, remaining) && |amounts| < count - 1
    requires Splittable(total, count, minimum, cap) && minimum <= amount && WithinCap(amount, cap)
    requires Splittable(remaining - amount, count - 1 - |amounts|, minimum, cap)
    requires FixedChoice(remaining, count - 1 - |amounts|, minimum, cap, digitAt(|amounts|), |amounts|, scale, amount)
    ensures SplitSoFar(total, count, minimum, cap, digitAt, scale, amounts + [amount], remaining - amount)
  {
    hide Splittable, FixedChoice, AllChosen, AllWithin, SumSeq, WithinCap;
    SumSeqAppend(amounts, amount);
    OneMore(total, count, minimum, cap, digitAt, scale, amounts, amount);
    WithinToo(amounts, amount, minimum, cap);
  }

  lemma SplitDone(total: int, count: int, minimum: int, cap: Option<int>, digitAt: nat -> nat,
                  scale: (nat, int) -> int, amounts: seq<int>, remaining: int)
    requires SplitSoFar(total, count, minimum, cap, digitAt, scale, amounts, remaining)
    requires |amounts| == count - 1 > 0
    ensures Splittable(total, count, minimum, cap)
    ensures AllWithin(amounts, minimum, cap) && AllChosen(total, count, minimum, cap, digitAt, scale, amounts)
    ensures minimum <= total - SumSeq(amounts) && WithinCap(total - SumSeq(amounts), cap)
  {
    hide Splittable, AllChosen, AllWithin, WithinCap;
    LastPart(remaining, minimum, cap);
  }

  /* The least amount that leaves no more than the cap allows for the others. */
  ghost function LowestFixed(remaining: int, left: nat, minimum: int, cap: Option<int>): int
  {
    if cap.Some? then Max(minimum, remaining - left * cap.value) else minimum
  }

  /* What the amount aims at: the scaled average of what is left, as far as the others leave room. */
  ghost function TargetOf(remaining: int, left: nat, minimum: int, cap: Option<int>, turn: nat,
                          scale: (nat, int) -> int): int
  {
    var low := LowestFixed(remaining, left, minimum, cap);
    var room := remaining - left * minimum;
    var high := if cap.Some? then Min(room, cap.value) else room;
    Min(Max(low, scale(turn, Max(low, high / (left + 1)))), high)
  }

  /* The amount starts with the digit whenever one between the lowest that leaves room for the cap
     and the target does, and is then the greatest such; otherwise it is the lowest. */
  ghost predicate FixedChoice(remaining: int, left: nat, minimum: int, cap: Option<int>, digit: nat,
                              turn: nat, scale: (nat, int) -> int, amount: int)
    requires left >= 1
  {
    var low := LowestFixed(remaining, left, minimum, cap);
    var target := TargetOf(remaining, left, minimum, cap, turn, scale);
    if exists v :: low <= v <= target && StartsWith(v, digit) then
      && low <= amount <= target && StartsWith(amount, digit)
      && forall v :: low <= v <= target && StartsWith(v, digit) ==> v <= amount
    else amount == low
  }

  lemma ChoiceMade(remaining: int, left: nat, minimum: int, cap: Option<int>, digit: nat, turn: nat,
                   scale: (nat, int) -> int, low: int, target: int, amount: int, chosen: Option<int>)
    requires left >= 1 && low == LowestFixed(remaining, left, minimum, cap)
    requires target == TargetOf(remaining, left, minimum, cap, turn, scale)
    requires chosen == None ==> amount == low && forall v :: !Fits(v, digit, low, target)
    requires chosen.Some? ==> amount == chosen.value && Fits(amount, digit, low, target)
    requires chosen.Some? ==> forall v :: Fits(v, digit, low, target) ==> v <= amount
    ensures FixedChoice(remaining, left, minimum, cap, digit, turn, scale, amount)
  {
    assert forall v :: Fits(v, digit, low, target) <==> low <= v <= target && StartsWith(v, digit);
  }

  /* Amount i is chosen from what the ones before it leave. */
  ghost predicate ChosenAt(total: int, count: int, minimum: int, cap: Option<int>, digitAt: nat -> nat,
                           scale: (nat, int) -> int, amounts: seq<int>, i: nat)
    requires i < |amounts|
  {
    && i < count - 1
    && FixedChoice(total - SumSeq(amounts[..i]), count - 1 - i, minimum, cap, digitAt(i), i, scale, amounts[i])
  }

  ghost predicate AllChosen(total: int, count: int, minimum: int, cap: Option<int>, digitAt: nat -> nat,
                            scale: (nat, int) -> int, amounts: seq<int>)
  {
    forall i :: 0 <= i < |amounts| ==> ChosenAt(total, count, minimum, cap, digitAt, scale, amounts, i)
  }

  lemma NoneChosen(total: int, count: int, minimum: int, cap: Option<int>, digitAt: nat -> nat,
                   scale: (nat, int) -> int)
    ensures AllChosen(total, count, minimum, cap, digitAt, scale, []) && SumSeq([]) == 0
    ensures AllWithin([], minimum, cap)
  {}

  lemma OneMore(total: int, count: int, minimum: int, cap: Option<int>, digitAt: nat -> nat,
                scale: (nat, int) -> int, amounts: seq<int>, amount: int)
    requires AllChosen(total, count, minimum, cap, digitAt, scale, amounts) && |amounts| < count - 1
    requires FixedChoice(total - SumSeq(amounts), count - 1 - |amounts|, minimum, cap, digitAt(|amounts|),
                         |amounts|, scale, amount)
    ensures AllChosen(total, count, minimum, cap, digitAt, scale, amounts + [amount])
  {
    hide FixedChoice, SumSeq, ChosenAt;
    var more := amounts + [amount];
    forall i | 0 <= i < |more| ensures ChosenAt(total, count, minimum, cap, digitAt, scale, more, i) {
      if i < |amounts| {
        assert ChosenAt(total, count, minimum, cap, digitAt, scale, amounts, i);
        StillChosen(total, count, minimum, cap, digitAt, scale, amounts, amount, i);
      } else {
        assert more[..i] == amounts && more[i] == amount;
        LastChosen(total, count, minimum, cap, digitAt, scale, more, i);
      }
    }
  }

  lemma StillChosen(total: int, count: int, minimum: int, cap: Option<int>, digitAt: nat -> nat,
                    scale: (nat, int) -> int, amounts: seq<int>, amount: int, i: nat)
    requires i < |amounts| && ChosenAt(total, count, minimum, cap, digitAt, scale, amounts, i)
    ensures ChosenAt(total, count, minimum, cap, digitAt, scale, amounts + [amount], i)
  {
    hide FixedChoice, SumSeq;
    assert (amounts + [amount])[..i] == amounts[..i];
  }

  lemma LastChosen(total: int, count: int, minimum: int, cap: Option<int>, digitAt: nat -> nat,
                   scale: (nat, int) -> int, amounts: seq<int>, i: nat)
    requires i < |amounts| && i < count - 1
    requires FixedChoice(total - SumSeq(amounts[..i]), count - 1 - i, minimum, cap, digitAt(i), i, scale, amounts[i])
    ensures ChosenAt(total, count, minimum, cap, digitAt, scale, amounts, i)
  {}

  lemma LastPart(total: int, minimum: int, cap: Option<int>)
    ensures Splittable(total, 1, minimum, cap) <==> minimum <= total && WithinCap(total, cap)
  {}

  /* One turn of the loop, with left fixed amounts still to choose, this one included. The bounds
     have not crossed when the minimum is the fallback, so the check after it never fires. */
  method FixedAmount(remaining: int, left: nat, minimum: int, cap: Option<int>, digit: nat,
                     turn: nat, scale: (nat, int) -> int)
    returns (r: Result<int, SplitError>)
    requires left >= 1 && 1 <= digit <= 9
    ensures r.Ok? <==> Splittable(remaining, left + 1, minimum, cap)
    ensures r.Ok? ==> && minimum <= r.value && WithinCap(r.value, cap)
                      && Splittable(remaining - r.value, left, minimum, cap)
                      && FixedChoice(remaining, left, minimum, cap, digit, turn, scale, r.value)
  {
    hide Splittable, FixedChoice, Fits;
    SplitBounds(remaining, left, minimum, cap);
    var low, high := minimum, remaining - minimum - minimum * (left - 1);
    HighIs(remaining, left, minimum);
    if high < minimum {
      return Err(NotEnoughFunds);
    }
    if cap.Some? {
      high := Min(high, cap.value);
      low := Max(low, remaining - left * cap.value);
      if high < minimum {
        return Err(NotEnoughFunds);
      }
      if high < low {
        NoRoom(remaining, left, minimum, cap.value);
        return Err(NotEnoughFunds);
      }
    }
    var average := Max(low, FloorDiv(high, left + 1));
    var target := Min(Max(low, scale(turn, average)), high);
    var chosen := ChooseBenfordAmount(digit, low, target);
    var amount := if chosen.Some? then chosen.value else low;
    SplitRest(remaining, left, minimum, cap, amount);
    ChoiceMade(remaining, left, minimum, cap, digit, turn, scale, low, target, amount, chosen);
    return Ok(amount);
  }

  lemma HighIs(remaining: int, left: nat, minimum: int)
    ensures remaining - minimum - minimum * (left - 1) == remaining - left * minimum
  {
    assert minimum * (left - 1) == left * minimum - minimum;
  }

  /* Bounds that cross although the cap is no less than the minimum: the cap is too small. */
  lemma NoRoom(remaining: int, left: nat, minimum: int, cap: int)
    requires left >= 1 && minimum <= cap && left * minimum <= remaining - minimum
    requires Min(remaining - left * minimum, cap) < Max(minimum, remaining - left * cap)
    ensures remaining - left * cap > cap
  {
    MulMono(minimum, cap, left);
  }

  function FloorDiv(a: int, b: nat): int
    requires b > 0
  {
    a / b
  }

  // ------------------------------------------------------------------------ how many outputs

  const OUTPUT_COUNTS: seq<nat> := [4, 6, 9, 13, 18]

  function TargetOutputCount(total: int, dust: int, privacy: int, cap: Option<int>): int
  {
    var level := Max(1, Min(5, privacy));
    var byValue := Max(2, Min(24, total / Max(dust * 2, 1000)));
    var forCap := if cap.Some? && cap.value > 0 then Max(2, (total + cap.value - 1) / cap.value) else 2;
    Max(forCap, Min(OUTPUT_COUNTS[level - 1], byValue))
  }

  lemma CeilingDivision(total: int, cap: int)
    requires cap > 0
    ensures total <= (total + cap - 1) / cap * cap
  {}

  /* The requested count by privacy level, no more than the value allows, and no less than 2 or
     what the cap takes. */
  lemma CountIs(total: int, dust: int, privacy: int, cap: Option<int>)
    ensures var count := TargetOutputCount(total, dust, privacy, cap);
            var requested := if privacy <= 1 then 4 else if privacy == 2 then 6 else if privacy == 3 then 9
                             else if privacy == 4 then 13 else 18;
            var unit := Max(2 * dust, 1000);
            && (cap.None? || cap.value <= 0 ==>
                  count == if total < 3 * unit then 2
                           else if total < requested * unit then total / unit else requested)
            && (cap.Some? && cap.value > 0 ==>
                  count == Max(TargetOutputCount(total, dust, privacy, None), (total + cap.value - 1) / cap.value))
  {
    var unit := Max(dust * 2, 1000);
    DivBounds(total, unit);
    var q := total / unit;
    if total < 3 * unit && q >= 3 { MulMono(3, q, unit); }
    forall k: nat ensures total < k * unit <==> q < k {
      if q < k { MulMono(q + 1, k, unit); } else { MulMono(k, q, unit); }
    }
  }

  /* At least two outputs, and under a positive cap enough of them for the whole amount, so with
     that count only the minimum can stand in the way of a split. */
  lemma CountRespectsCap(total: int, dust: int, privacy: int, cap: Option<int>, minimum: int)
    requires cap.Some? ==> cap.value > 0
    ensures var count := TargetOutputCount(total, dust, privacy, cap);
            && count >= 2
            && (cap.Some? ==> total <= count * cap.value)
            && (Splittable(total, count, minimum, cap) <==> count * minimum <= total)
  {
    if cap.Some? {
      CeilingDivision(total, cap.value);
      MulMono((total + cap.value - 1) / cap.value, TargetOutputCount(total, dust, privacy, cap), cap.value);
    }
  }
}
