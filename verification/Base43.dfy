/**
 electrumsv/bitcoin.py: byte strings as text in base 43.
 */
module Base43 {
  import opened Arith
  import opened Digits
  import opened Wrappers

  // -------------------------------------------------------------------------- the alphabet

  /* Ten digits, the capital letters and seven marks, as character codes. */
  const MARKS: seq<byte> := [36, 42, 43, 45, 46, 47, 58]

  function CharOf(d: nat): byte
    requires d < 43
  {
    if d < 10 then 48 + d else if d < 36 then 55 + d else MARKS[d - 36]
  }

  /* Like find: -1 for a character outside the alphabet. */
  function Find(c: byte): (d: int)
    ensures -1 <= d < 43
    ensures d >= 0 ==> CharOf(d) == c
  {
    if 48 <= c <= 57 then c - 48
    else if 65 <= c <= 90 then c - 55
    else if c == 36 then 36
    else if c == 42 || c == 43 then c - 5
    else if 45 <= c <= 47 then c - 6
    else if c == 58 then 42
    else -1
  }

  lemma FindChar(d: nat)
    requires d < 43
    ensures Find(CharOf(d)) == d
  {}

  /* The alphabet as text. */
  lemma Alphabet(d: nat)
    requires d < 43
    ensures CharOf(d) == "0123456789ABCDEFGHIJKLMNOPQRSTUVWXYZ$*+-./:"[d] as int
  {}

  function Chars(ds: seq<nat>): (s: seq<byte>)
    requires InBase(ds, 43)
    ensures |s| == |ds| && forall i :: 0 <= i < |s| ==> s[i] == CharOf(ds[i])
  {
    seq(|ds|, i requires 0 <= i < |ds| => CharOf(ds[i]))
  }

  function Finds(s: seq<byte>): (ds: seq<int>)
    ensures |ds| == |s| && forall i :: 0 <= i < |s| ==> ds[i] == Find(s[i])
  {
    seq(|s|, i requires 0 <= i < |s| => Find(s[i]))
  }

  predicate OverAlphabet(s: seq<byte>)
  {
    forall i :: 0 <= i < |s| ==> Find(s[i]) >= 0
  }

  // ---------------------------------------------------------------------- changing the base

  function LeadingZeros(ds: seq<int>): (k: nat)
    ensures k <= |ds| && (forall i :: 0 <= i < k ==> ds[i] == 0) && (k < |ds| ==> ds[k] != 0)
  {
    if ds == [] || ds[0] != 0 then 0 else 1 + LeadingZeros(ds[1..])
  }

  /* The same number in another base, keeping one leading zero for each there was. */
  function Transcode(ds: seq<nat>, b: nat, c: nat): (r: seq<nat>)
    requires c > 1
    ensures InBase(r, c)
  {
    Zeros(LeadingZeros(ds)) + Minimal(Value(ds, b), c)
  }

  predicate NonZero(ds: seq<int>)
  {
    exists i :: 0 <= i < |ds| && ds[i] != 0
  }

  lemma LeadingZerosConcat(k: nat, ds: seq<int>)
    requires ds != [] && ds[0] != 0
    ensures LeadingZeros(Zeros(k) + ds) == k
  {
    var z := Zeros(k) + ds;
    assert z[k] == ds[0];
    assert forall i :: 0 <= i < k ==> z[i] == 0;
  }

  /* A number with a non-zero digit: its zeros, then a minimal numeral. */
  lemma SplitZeros(ds: seq<nat>, b: nat) returns (k: nat, rest: seq<nat>)
    requires b > 1 && InBase(ds, b) && NonZero(ds)
    ensures k == LeadingZeros(ds) && ds == Zeros(k) + rest && rest != [] && rest[0] > 0
    ensures Value(ds, b) == Value(rest, b) > 0 && Minimal(Value(ds, b), b) == rest
  {
    hide Value, Minimal;
    k := LeadingZeros(ds);
    rest := ds[k..];
    assert ds[..k] == Zeros(k) && ds == ds[..k] + rest;
    assert InBase(rest, b) by {
      forall i | 0 <= i < |rest| ensures rest[i] < b { assert rest[i] == ds[k + i]; }
    }
    ValueZeros(k, rest, b);
    MinimalUnique(rest, b);
  }

  lemma ThereAndBack(ds: seq<nat>, b: nat, c: nat)
    requires b > 1 && c > 1 && InBase(ds, b) && NonZero(ds)
    ensures Transcode(Transcode(ds, b, c), c, b) == ds && NonZero(Transcode(ds, b, c))
  {
    hide Minimal, Value, LeadingZeros;
    var k, rest := SplitZeros(ds, b);
    var n := Value(ds, b);
    MinimalLength(n, c);
    ValueMinimal(n, c);
    LeadingZerosConcat(k, Minimal(n, c));
    ValueZeros(k, Minimal(n, c), c);
    assert Transcode(ds, b, c)[k] != 0;
  }

  /* Zeros only: one more comes out than went in. */
  lemma ZerosGrow(ds: seq<nat>, b: nat, c: nat)
    requires c > 1 && !NonZero(ds)
    ensures Transcode(ds, b, c) == Zeros(|ds| + 1)
  {
    ValueAllZeros(ds, b);
    assert LeadingZeros(ds) == |ds|;
    assert Zeros(|ds|) + [0] == Zeros(|ds| + 1);
  }

  lemma ZerosStayZeros(k: nat)
    ensures !NonZero(Zeros(k))
  {}

  /* Changing the base and back is the identity exactly when some digit is not zero. */
  lemma TranscodeRoundTrip(ds: seq<nat>, b: nat, c: nat)
    requires b > 1 && c > 1 && InBase(ds, b)
    ensures Transcode(Transcode(ds, b, c), c, b) == ds <==> NonZero(ds)
  {
    if NonZero(ds) {
      ThereAndBack(ds, b, c);
    } else {
      ZerosGrow(ds, b, c);
      ZerosStayZeros(|ds| + 1);
      ZerosGrow(Zeros(|ds| + 1), c, b);
    }
  }

  // ------------------------------------------------------------------- encoding and decoding

  /* A weighted sum of digits that may be -1. */
  function WeightedSum(ds: seq<int>, b: nat): int
  {
    if ds == [] then 0 else ds[0] * Pow(b, |ds| - 1) + WeightedSum(ds[1..], b)
  }

  lemma {:induction false} WeightedSumValue(ds: seq<nat>, b: nat)
    ensures WeightedSum(ds, b) == Value(ds, b)
  {
    if ds != [] {
      WeightedSumValue(ds[1..], b);
      assert ds == [ds[0]] + ds[1..];
      ValueConcat([ds[0]], ds[1..], b);
      assert Value([ds[0]], b) == ds[0] by { assert [ds[0]][..0] == []; }
    }
  }

  function Encoded(v: seq<byte>): seq<byte>
  {
    Chars(Transcode(v, 256, 43))
  }

  /* None when the characters outside the alphabet make the sum negative. */
  function Decoded(s: seq<byte>): Option<seq<nat>>
  {
    var n := WeightedSum(Finds(s), 43);
    if n < 0 then None else Some(Zeros(LeadingZeros(Finds(s))) + Minimal(n, 256))
  }

  method LongValue(digits: seq<int>, b: nat) returns (sum: int)
    ensures sum == WeightedSum(digits, b)
  {
    sum := 0;
    for i := 0 to |digits|
      invariant sum == WeightedSum(digits[|digits| - i..], b)
    {
      var d := digits[|digits| - 1 - i];
      assert digits[|digits| - (i + 1)..] == [d] + digits[|digits| - i..];
      assert ([d] + digits[|digits| - i..])[1..] == digits[|digits| - i..];
      sum := sum + Pow(b, i) * d;
    }
    assert digits[0..] == digits;
  }

  method CountLeading(v: seq<int>) returns (pad: nat)
    ensures pad == LeadingZeros(v)
  {
    pad := 0;
    assert v[0..] == v;
    while pad < |v| && v[pad] == 0
      invariant pad <= |v| && LeadingZeros(v) == pad + LeadingZeros(v[pad..])
    {
      assert v[pad..][1..] == v[pad + 1..];
      pad := pad + 1;
    }
  }

  lemma NextDigit(n: nat, b: nat, result: seq<nat>)
    requires b > 1 && n >= b
    ensures n / b < n
    ensures Minimal(n / b, b) + Reversed(result + [n % b]) == Minimal(n, b) + Reversed(result)
  {
    var q, d := MinimalStep(n, b);
    DivModUnique(n, b, q, d);
    assert Reversed(result + [d]) == [d] + Reversed(result);
    assert (Minimal(q, b) + [d]) + Reversed(result) == Minimal(q, b) + ([d] + Reversed(result));
  }

  /* Digits come out least significant first, the padding after them, and all is reversed. */
  method WriteDigits(value: nat, b: nat, pad: nat) returns (digits: seq<nat>)
    requires b > 1
    ensures digits == Zeros(pad) + Minimal(value, b)
  {
    hide Minimal;
    var n: nat, result: seq<nat> := value, [];
    assert Minimal(n, b) + Reversed(result) == Minimal(value, b);
    while n >= b
      invariant Minimal(n, b) + Reversed(result) == Minimal(value, b)
      decreases n
    {
      NextDigit(n, b, result);
      result := result + [n % b];
      n := n / b;
    }
    LastDigit(n, b);
    assert Reversed(result + [n]) == [n] + Reversed(result);
    result := result + [n] + Zeros(pad);
    assert Reversed(result) == Zeros(pad) + Minimal(value, b);
    digits := Reversed(result);
  }

  lemma LastDigit(n: nat, b: nat)
    requires 1 < b && n < b
    ensures Minimal(n, b) == [n]
  {}

  method BaseEncode(v: seq<byte>) returns (text: seq<byte>)
    ensures text == Encoded(v)
  {
    hide WeightedSum, Minimal, Value;
    var n: int := LongValue(v, 256);
    WeightedSumValue(v, 256);
    var pad := CountLeading(v);
    var digits := WriteDigits(n, 43, pad);
    text := Chars(digits);
  }

  /* A wanted length that differs from the result's gives nothing. */
  method BaseDecode(text: seq<byte>, length: Option<nat>) returns (r: Result<Option<seq<nat>>, ()>)
    ensures r == match Decoded(text)
                 case None => Err(())
                 case Some(v) => if length.Some? && |v| != length.value then Ok(None) else Ok(Some(v))
  {
    hide WeightedSum, Minimal, LeadingZeros;
    var digits := Finds(text);
    var n: int := LongValue(digits, 43);
    if n < 0 {
      return Err(());
    }
    var pad := CountLeading(digits);
    var v := WriteDigits(n, 256, pad);
    if length.Some? && |v| != length.value {
      return Ok(None);
    }
    return Ok(Some(v));
  }

  lemma DecodedAlphabet(s: seq<byte>, ds: seq<nat>)
    requires InBase(ds, 43) && s == Chars(ds)
    ensures Finds(s) == ds && Decoded(s) == Some(Transcode(ds, 43, 256))
  {
    hide CharOf, Find;
    forall i | 0 <= i < |ds| ensures Finds(s)[i] == ds[i] { FindChar(ds[i]); }
    WeightedSumValue(ds, 43);
  }

  /* Decoding undoes encoding exactly for the byte strings with a non-zero byte. */
  lemma DecodeUndoesEncode(v: seq<byte>)
    ensures Decoded(Encoded(v)) == Some(v) <==> NonZero(v)
  {
    hide Decoded, Transcode;
    DecodedAlphabet(Encoded(v), Transcode(v, 256, 43));
    TranscodeRoundTrip(v, 256, 43);
  }

  /* Encoding undoes decoding exactly for the alphabet strings with a non-zero digit. */
  lemma EncodeUndoesDecode(s: seq<byte>, v: seq<byte>)
    requires Decoded(s) == Some(v)
    ensures Encoded(v) == s <==> OverAlphabet(s) && NonZero(Finds(s))
  {
    hide Decoded, Transcode, Find, CharOf;
    if OverAlphabet(s) {
      var ds: seq<nat> := Finds(s);
      assert s == Chars(ds);
      DecodedAlphabet(s, ds);
      TranscodeRoundTrip(ds, 43, 256);
      if Encoded(v) == s {
        DecodedAlphabet(s, Transcode(v, 256, 43));
      }
    } else {
      var i :| 0 <= i < |s| && Find(s[i]) < 0;
      if Encoded(v) == s {
        FindChar(Transcode(v, 256, 43)[i]);
      }
    }
  }
}
