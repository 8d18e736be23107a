/**
 electrumsv/rsakey.py: the Euclidean loops, big-endian bytes, PKCS#1 v1.5 padding and the RSAKey
 object whose blinding fields change with every private operation.
 */
module Rsa {
  import opened Arith
  import opened Digits
  import opened NumberTheory
  import opened RsaMath
  import opened Wrappers

  // ------------------------------------------------------------------- Euclidean loops

  method GcdLoop(x: nat, y: nat) returns (g: nat)
    ensures g == Gcd(x, y)
  {
    var a, b := Max(x, y), Min(x, y);
    GcdSymmetric(x, y);
    while b != 0
      invariant 0 <= a && 0 <= b && Gcd(a, b) == Gcd(x, y)
      decreases b
    {
      a, b := b, a % b;
    }
    g := a;
  }

  method LcmOf(a: nat, b: nat) returns (l: nat)
    requires a > 0 && b > 0
    ensures l == Lcm(a, b)
  {
    GcdPositive(a, b);
    var g := GcdLoop(a, b);
    l := (a * b) / g;
  }

  lemma DivisionRemainder(d: int, c: int)
    requires c > 0
    ensures d - (d / c) * c == d % c && 0 <= d % c < c
  {}

  lemma EuclidStep(a: int, b: int, c: int, d: int, uc: int, ud: int, q: int)
    requires b > 0 && Cong(a * uc, c, b) && Cong(a * ud, d, b)
    ensures Cong(a * (ud - q * uc), d - q * c, b)
  {
    CongMul(-q, -q, a * uc, c, b);
    CongAdd(a * ud, d, -q * (a * uc), -q * c, b);
    assert a * (q * uc) == q * (a * uc);
    assert a * (ud - q * uc) == a * ud - q * (a * uc);
  }

  lemma EuclidDone(a: nat, b: nat, u: int)
    requires b > 0 && Cong(a * u, 1, b)
    ensures Gcd(a, b) == 1 && 0 <= u % b == Inverse(a, b)
    ensures u % b == 0 <==> b == 1
  {
    CongMod(u, b);
    CongMul(a, a, u % b, u, b);
    InverseUnique(a, b, u % b);
    if b > 1 && u % b == 0 {
      CongSmall(0, 1, b);
    }
  }

  lemma EuclidStart(a: nat, b: nat)
    requires b > 0
    ensures Gcd(b, a) == Gcd(a, b) && Cong(a * 0, b, b)
  {
    GcdSymmetric(a, b);
    CongByMultiple(0, b, b, -1);
  }

  /* Returns the inverse of a modulo b, zero if none. */
  method InvMod(a: nat, b: nat) returns (r: nat)
    requires b > 0
    ensures r == Inverse(a, b)
    ensures r != 0 ==> Cong(a * r, 1, b)
    ensures r == 0 <==> Gcd(a, b) != 1 || b == 1
  {
    var c, d := a, b;
    var uc, ud := 1, 0;
    EuclidStart(a, b);
    while c != 0
      invariant 0 <= c && 0 < d && Gcd(d, c) == Gcd(a, b)
      invariant Cong(a * uc, c, b) && Cong(a * ud, d, b)
      decreases c
    {
      var q := d / c;
      DivisionRemainder(d, c);
      EuclidStep(a, b, c, d, uc, ud, q);
      c, d := d - q * c, c;
      uc, ud := ud - q * uc, uc;
    }
    if d == 1 {
      EuclidDone(a, b, ud);
      r := ud % b;
    } else {
      r := 0;
    }
  }

  /* The key that generate builds once it has found its two primes. */
  method Generate(p: nat, q: nat) returns (key: Key)
    requires p > 1 && q > 1
    ensures key == Generated(p, q)
  {
    LcmMultiple(p - 1, q - 1);
    var t := LcmOf(p - 1, q - 1);
    var d := InvMod(PUBLIC_EXPONENT, t);
    var qInv := InvMod(q, p);
    key := Key(p * q, PUBLIC_EXPONENT, d, p, q, d % (p - 1), d % (q - 1), qInv);
  }

  // -------------------------------------------------------------------------- byte counts

  function HexDigitBits(d: nat): nat
    requires d < 16
  {
    if d == 0 then 0 else if d == 1 then 1 else if d < 4 then 2 else if d < 8 then 3 else 4
  }

  function NumBits(n: nat): nat
  {
    if n == 0 then 0
    else
      var s := Minimal(n, 16);
      (|s| - 1) * 4 + HexDigitBits(s[0])
  }

  function NumBytes(n: nat): nat
  {
    (NumBits(n) + 7) / 8
  }

  lemma Pow2Values()
    ensures Pow(2, 0) == 1 && Pow(2, 1) == 2 && Pow(2, 2) == 4 && Pow(2, 3) == 8 && Pow(2, 4) == 16
  {
    assert Pow(2, 3) == 2 * Pow(2, 2);
    assert Pow(2, 4) == 2 * Pow(2, 3);
  }

  lemma HexPow(k: nat)
    ensures Pow(16, k) == Pow(2, 4 * k)
  {
    Pow2Values();
    PowMulExp(2, 4, k);
  }

  lemma BytePow(k: nat)
    ensures Pow(256, k) == Pow(2, 8 * k)
  {
    Pow2Values();
    PowAdd(2, 4, 4);
    PowMulExp(2, 8, k);
  }

  lemma HexDigitExact(t: nat)
    requires 0 < t < 16
    ensures HexDigitBits(t) > 0
    ensures Pow(2, HexDigitBits(t) - 1) <= t && t + 1 <= Pow(2, HexDigitBits(t))
  {
    Pow2Values();
  }

  /* A number is its first digit times a power of the base, plus less than that power. */
  lemma FirstDigit(s: seq<nat>, b: nat)
    requires b > 0 && s != [] && InBase(s, b)
    ensures var w := Pow(b, |s| - 1); s[0] * w <= Value(s, b) < (s[0] + 1) * w
  {
    var t, rest := s[0], s[1..];
    assert s == [t] + rest;
    ValueConcat([t], rest, b);
    assert Value([t], b) == t by { assert [t][..0] == []; }
    ValueBound(rest, b);
    assert (t + 1) * Pow(b, |rest|) == t * Pow(b, |rest|) + Pow(b, |rest|);
  }

  /* The table over the first hexadecimal digit gives the exact bit length. */
  lemma NumBitsExact(n: nat)
    requires n > 0
    ensures NumBits(n) > 0
    ensures Pow(2, NumBits(n) - 1) <= n < Pow(2, NumBits(n))
  {
    var s := Minimal(n, 16);
    MinimalLength(n, 16);
    ValueMinimal(n, 16);
    FirstDigit(s, 16);
    assert s[0] < 16;
    HexDigitExact(s[0]);
    var tb, w := HexDigitBits(s[0]), 4 * (|s| - 1);
    HexPow(|s| - 1);
    PowPositive(2, w);
    PowAdd(2, tb - 1, w);
    PowAdd(2, tb, w);
    MulMono(Pow(2, tb - 1), s[0], Pow(2, w));
    MulMono(s[0] + 1, Pow(2, tb), Pow(2, w));
  }

  lemma NothingForZero()
    ensures NumBits(0) == 0 && NumBytes(0) == 0
  {}

  lemma NumBytesExact(n: nat)
    requires n > 0
    ensures NumBytes(n) > 0
    ensures Pow(256, NumBytes(n) - 1) <= n < Pow(256, NumBytes(n))
  {
    NumBitsExact(n);
    var k, bits := NumBytes(n), NumBits(n);
    BytePow(k);
    BytePow(k - 1);
    PowMono(2, bits, 8 * k);
    PowMono(2, 8 * (k - 1), bits - 1);
  }

  // ----------------------------------------------------------------- bytes and numbers

  function AsBytes(n: nat, k: nat): (b: seq<byte>)
    ensures |b| == k
  {
    var ds := Fixed(n, 256, k);
    assert forall i :: 0 <= i < |ds| ==> ds[i] < 256;
    seq(k, i requires 0 <= i < k => ds[i])
  }

  lemma AsBytesIsFixed(n: nat, k: nat)
    ensures AsBytes(n, k) == Fixed(n, 256, k)
  {}

  lemma BytesInBase(b: seq<byte>)
    ensures InBase(b, 256)
  {}

  /* The loop fills the buffer from its end; numbers too large lose their high bytes. */
  method NumberToByteArray(number: nat, howManyBytes: Option<nat>) returns (bs: seq<byte>)
    ensures bs == AsBytes(number, if howManyBytes.Some? then howManyBytes.value else NumBytes(number))
  {
    hide NumBytes, Fixed;
    var size := if howManyBytes.Some? then howManyBytes.value else NumBytes(number);
    var b := new byte[size];
    var n: nat := number;
    for count := size downto 0
      invariant Fixed(number, 256, size) == Fixed(n, 256, count) + b[count..]
    {
      ghost var tail := b[count + 1..];
      ghost var whole := n;
      b[count] := n % 256;
      n := n / 256;
      assert b[count..] == [b[count]] + tail;
      FixedLast(whole, count, tail);
    }
    NoDigits(n);
    AsBytesIsFixed(number, size);
    bs := b[..];
  }

  lemma FixedLast(n: nat, count: nat, tail: seq<nat>)
    ensures Fixed(n, 256, count + 1) + tail == Fixed(n / 256, 256, count) + ([n % 256] + tail)
  {}

  lemma NoDigits(n: nat)
    ensures Fixed(n, 256, 0) == []
  {}

  lemma BytesRoundTrip(n: nat, k: nat)
    requires n < Pow(256, k)
    ensures Value(AsBytes(n, k), 256) == n
  {
    AsBytesIsFixed(n, k);
    ValueFixed(n, 256, k);
    DivModUnique(n, Pow(256, k), 0, n);
  }

  lemma NumberRoundTrip(b: seq<byte>)
    ensures AsBytes(Value(b, 256), |b|) == b
  {
    BytesInBase(b);
    AsBytesIsFixed(Value(b, 256), |b|);
    FixedValue(b, 256);
  }

  // ----------------------------------------------------------------------------- padding

  function Repeat(v: byte, k: nat): (b: seq<byte>)
    ensures |b| == k && forall i :: 0 <= i < k ==> b[i] == v
  {
    seq(k, _ => v)
  }

  /* Signature padding; the filler is empty when the message leaves no room for it. */
  function SignaturePadded(size: nat, message: seq<byte>): seq<byte>
  {
    var padLength := size - (|message| + 3);
    [0, 1] + Repeat(0xFF, if padLength < 0 then 0 else padLength) + [0] + message
  }

  ghost predicate Fits(k: Key, message: seq<byte>)
  {
    |message| + 3 <= NumBytes(k.n)
  }

  /* A zero first byte keeps a padded block below the modulus. */
  lemma BlockBelowModulus(n: nat, block: seq<byte>)
    requires n > 0 && |block| == NumBytes(n) && block != [] && block[0] == 0
    ensures Value(block, 256) < n
  {
    NumBytesExact(n);
    var rest := block[1..];
    assert block == Zeros(1) + rest;
    ValueZeros(1, rest, 256);
    BytesInBase(rest);
    ValueBound(rest, 256);
  }

  lemma OverlongBlock(n: nat, message: seq<byte>)
    requires n > 0 && |message| + 3 >= NumBytes(n) + 2
    ensures Value(SignaturePadded(NumBytes(n), message), 256) >= n
  {
    NumBytesExact(n);
    var block := SignaturePadded(NumBytes(n), message);
    var rest := block[1..];
    assert block == Zeros(1) + rest;
    ValueZeros(1, rest, 256);
    BytesInBase(rest);
    LeadingDigit(rest, 256);
    PowMono(256, NumBytes(n), |rest| - 1);
  }

  // -------------------------------------------------------------------------- the object

  datatype RsaError = NoPrivateKey | ValueTooLarge | NoRoomForPadding | BlockTooShort

  class RSAKey {
    const key: Key
    var blinder: nat
    var unblinder: nat

    ghost function State(): Blinding
      reads this
    {
      Blinding(blinder, unblinder)
    }

    constructor (k: Key)
      ensures key == k && State() == Blinding(0, 0)
    {
      key := k;
      blinder, unblinder := 0, 0;
    }

    /* draw stands for the value getRandomNumber(2, n) would return. */
    method RawPrivateKeyOp(input: nat, draw: nat) returns (c: nat)
      requires key.n > 0 && key.p > 0 && key.q > 0
      modifies this
      ensures c as int == BlindedResult(key, old(State()), input, draw)
      ensures State() == NextBlinding(key, old(State()), draw)
    {
      if blinder == 0 {
        unblinder := draw;
        var inv := InvMod(unblinder, key.n);
        blinder := Pow(inv, key.e) % key.n;
      }
      var m := (input * blinder) % key.n;
      var helped := CrtOp(key, m);
      c := (helped * unblinder) % key.n;
      blinder := (blinder * blinder) % key.n;
      unblinder := (unblinder * unblinder) % key.n;
    }

    method Sign(message: seq<byte>, draw: nat) returns (r: Result<seq<byte>, RsaError>)
      requires key.n > 0 && key.p > 0 && key.q > 0
      modifies this
      ensures r == SignSpec(key, old(State()), message, draw)
      ensures State() == if r.Ok? then NextBlinding(key, old(State()), draw) else old(State())
    {
      if key.d == 0 {
        return Err(NoPrivateKey);
      }
      var padded := SignaturePadded(NumBytes(key.n), message);
      var m := Value(padded, 256);
      if m >= key.n {
        return Err(ValueTooLarge);
      }
      var c := RawPrivateKeyOp(m, draw);
      var sig := NumberToByteArray(c, Some(NumBytes(key.n)));
      r := Ok(sig);
    }

    method Verify(sig: seq<byte>, message: seq<byte>) returns (accepted: bool)
      requires key.n > 0
      ensures accepted == VerifySpec(key, sig, message)
    {
      if |sig| != NumBytes(key.n) {
        return false;
      }
      var padded := SignaturePadded(NumBytes(key.n), message);
      var c := Value(sig, 256);
      if c >= key.n {
        return false;
      }
      var m := PublicOp(key, c);
      var check := NumberToByteArray(m, Some(NumBytes(key.n)));
      accepted := check == padded;
    }

    /* filler stands for the non-zero random bytes that encryption padding collects; when
       there is no room for any, joining the block fails. */
    method Encrypt(message: seq<byte>, filler: seq<byte>) returns (r: Result<seq<byte>, RsaError>)
      requires key.n > 0 && FillerFor(key, message, filler)
      ensures r == EncryptSpec(key, message, filler)
    {
      if NumBytes(key.n) - (|message| + 3) <= 0 {
        return Err(NoRoomForPadding);
      }
      var padded := EncryptionPadded(message, filler);
      var m := Value(padded, 256);
      if m >= key.n {
        return Err(ValueTooLarge);
      }
      var c := PublicOp(key, m);
      var enc := NumberToByteArray(c, Some(NumBytes(key.n)));
      r := Ok(enc);
    }

    method Decrypt(enc: seq<byte>, draw: nat) returns (r: Result<Option<seq<byte>>, RsaError>)
      requires key.n > 0 && key.p > 0 && key.q > 0
      modifies this
      ensures r == DecryptSpec(key, old(State()), enc, draw)
    {
      if key.d == 0 {
        return Err(NoPrivateKey);
      }
      if |enc| != NumBytes(key.n) {
        return Ok(None);
      }
      var c := Value(enc, 256);
      if c >= key.n {
        return Ok(None);
      }
      var m := RawPrivateKeyOp(c, draw);
      var dec := NumberToByteArray(m, Some(NumBytes(key.n)));
      if |dec| < 2 {
        return Err(BlockTooShort);
      }
      if dec[0] != 0 || dec[1] != 2 {
        return Ok(None);
      }
      var x := 1;
      while x < |dec| - 1 && dec[x] != 0
        invariant 1 <= x <= |dec|
        invariant AfterSeparator(dec, 1) == AfterSeparator(dec, x)
        decreases |dec| - x
      {
        x := x + 1;
      }
      r := Ok(if x < |dec| - 1 then Some(dec[x + 1..]) else None);
    }
  }

  // --------------------------------------------------------------- signing and verifying

  ghost function SignSpec(k: Key, st: Blinding, message: seq<byte>, draw: nat)
    : Result<seq<byte>, RsaError>
    requires k.n > 0 && k.p > 0 && k.q > 0
  {
    var m := Value(SignaturePadded(NumBytes(k.n), message), 256);
    if k.d == 0 then Err(NoPrivateKey)
    else if m >= k.n then Err(ValueTooLarge)
    else Ok(AsBytes(BlindedResult(k, st, m, draw), NumBytes(k.n)))
  }

  predicate VerifySpec(k: Key, sig: seq<byte>, message: seq<byte>)
    requires k.n > 0
  {
    && |sig| == NumBytes(k.n)
    && Value(sig, 256) < k.n
    && AsBytes(PublicOp(k, Value(sig, 256)), NumBytes(k.n))
       == SignaturePadded(NumBytes(k.n), message)
  }

  /* The blinding values of this call are usable: drawn before, or drawn now coprime to n. */
  ghost predicate Usable(k: Key, st: Blinding, draw: nat)
    requires k.n > 0
  {
    BlindingInv(k, st) && (st.blinder != 0 || Gcd(draw, k.n) == 1)
  }

  /* One byte too many: the block is one byte longer than the modulus, and may still be below it. */
  ghost predicate OverByOne(k: Key, message: seq<byte>)
  {
    |message| + 3 == NumBytes(k.n) + 1 && Pow(256, NumBytes(k.n) - 1) + Value(message, 256) < k.n
  }

  lemma OverByOneValue(size: nat, message: seq<byte>)
    requires |message| + 3 == size + 1
    ensures Value(SignaturePadded(size, message), 256) == Pow(256, size - 1) + Value(message, 256)
  {
    var head: seq<byte> := [0, 1, 0];
    assert SignaturePadded(size, message) == head + message;
    ValueConcat(head, message, 256);
    assert head[..2] == [0, 1] && [0, 1][..1] == [0] && [0][..0] == [];
    assert Value([0, 1], 256) == 1 && Value(head, 256) == 256;
  }

  /* sign succeeds exactly on the messages that fit and on those one byte too long whose block
     stays below the modulus; verify accepts what sign produced exactly for those that fit. */
  lemma SignThenVerify(k: Key, st: Blinding, message: seq<byte>, draw: nat)
    requires Consistent(k) && OddPrimes(k) && Usable(k, st, draw)
    ensures SignSpec(k, st, message, draw).Ok? <==> Fits(k, message) || OverByOne(k, message)
    ensures SignSpec(k, st, message, draw).Ok? ==>
              (VerifySpec(k, SignSpec(k, st, message, draw).value, message) <==> Fits(k, message))
  {
    var size := NumBytes(k.n);
    var padded := SignaturePadded(size, message);
    var m := Value(padded, 256);
    NumBytesExact(k.n);
    if Fits(k, message) {
      BlockBelowModulus(k.n, padded);
    } else if |message| + 3 == size + 1 {
      OverByOneValue(size, message);
    } else {
      OverlongBlock(k.n, message);
    }
    if m < k.n {
      OddStep(k, st, m, draw);
      BytesRoundTrip(BlindedResult(k, st, m, draw), size);
      PublicUndoesPrivate(k, m);
      DivModUnique(m, k.n, 0, m);
      if Fits(k, message) {
        NumberRoundTrip(padded);
      }
    }
  }

  /* Such a message exists: the empty one under a key of two bytes. */
  lemma OverlongSigned()
    ensures var k := SMALL_KEY;
            && Consistent(k) && OddPrimes(k) && Usable(k, Blinding(0, 0), 2) && OverByOne(k, [])
            && SignSpec(k, Blinding(0, 0), [], 2).Ok?
            && !VerifySpec(k, SignSpec(k, Blinding(0, 0), [], 2).value, [])
  {
    var k := SMALL_KEY;
    SmallKey();
    NumBytesExact(323);
    assert Pow(256, 1) == 256 && Pow(256, 2) == 256 * Pow(256, 1);
    LengthUnique(323, 256, NumBytes(323), 2);
    assert Gcd(2, 323) == Gcd(323, 2) == 1 by {
      assert Gcd(2, 323) == Gcd(323, 2 % 323) && Gcd(323, 2) == Gcd(2, 323 % 2) && Gcd(2, 1) == Gcd(1, 0);
    }
    SignThenVerify(k, Blinding(0, 0), [], 2);
  }

  /* For a message that fits, the signature sign produces is the only one verify accepts. */
  lemma VerifyUnique(k: Key, st: Blinding, message: seq<byte>, draw: nat, sig: seq<byte>)
    requires Consistent(k) && OddPrimes(k) && Usable(k, st, draw) && Fits(k, message)
    ensures VerifySpec(k, sig, message) <==> SignSpec(k, st, message, draw) == Ok(sig)
  {
    SignThenVerify(k, st, message, draw);
    var size := NumBytes(k.n);
    var m := Value(SignaturePadded(size, message), 256);
    if VerifySpec(k, sig, message) {
      var c := Value(sig, 256);
      NumBytesExact(k.n);
      BytesRoundTrip(PublicOp(k, c), size);
      PrivateUndoesPublic(k, c);
      DivModUnique(c, k.n, 0, c);
      OddStep(k, st, m, draw);
      NumberRoundTrip(sig);
    }
  }

  /* The block of section 9.2 of RFC 8017: 00 01, bytes of all ones, 00, and what is signed. */
  ghost predicate SignatureBlock(b: seq<byte>, message: seq<byte>)
  {
    var end := |b| - |message| - 1;
    && 2 <= end
    && b[0] == 0x00 && b[1] == 0x01 && (forall i :: 2 <= i < end ==> b[i] == 0xFF)
    && b[end] == 0x00 && b[end + 1..] == message
  }

  lemma PaddedIsBlock(size: nat, message: seq<byte>, b: seq<byte>)
    requires |b| == size
    ensures b == SignaturePadded(size, message) <==> SignatureBlock(b, message)
  {
    var padded, end := SignaturePadded(size, message), size - |message| - 1;
    if end >= 2 {
      assert SignatureBlock(padded, message);
      if SignatureBlock(b, message) {
        assert b == b[..end + 1] + b[end + 1..] && padded == padded[..end + 1] + padded[end + 1..];
        assert b[..end + 1] == padded[..end + 1];
      }
    }
  }

  /* What verify accepts, byte by byte: the public operation recovers exactly such a block. */
  lemma VerifyExact(k: Key, sig: seq<byte>, message: seq<byte>)
    requires k.n > 0
    ensures VerifySpec(k, sig, message)
            <==> |sig| == NumBytes(k.n) && Value(sig, 256) < k.n
                 && SignatureBlock(AsBytes(PublicOp(k, Value(sig, 256)), NumBytes(k.n)), message)
  {
    hide NumBytes, SignatureBlock, SignaturePadded;
    PaddedIsBlock(NumBytes(k.n), message, AsBytes(PublicOp(k, Value(sig, 256)), NumBytes(k.n)));
  }

  /* What sign produces for a message that fits holds such a block. */
  lemma SignExact(k: Key, st: Blinding, message: seq<byte>, draw: nat)
    requires Consistent(k) && OddPrimes(k) && Usable(k, st, draw) && Fits(k, message)
    ensures var sig := SignSpec(k, st, message, draw);
            && sig.Ok? && |sig.value| == NumBytes(k.n) && Value(sig.value, 256) < k.n
            && SignatureBlock(AsBytes(PublicOp(k, Value(sig.value, 256)), NumBytes(k.n)), message)
  {
    SignThenVerify(k, st, message, draw);
    VerifyExact(k, SignSpec(k, st, message, draw).value, message);
  }

  // ------------------------------------------------------------ encrypting and decrypting

  function EncryptionPadded(message: seq<byte>, filler: seq<byte>): seq<byte>
  {
    [0, 2] + filler + [0] + message
  }

  ghost predicate FillerFor(k: Key, message: seq<byte>, filler: seq<byte>)
  {
    var padLength := NumBytes(k.n) - (|message| + 3);
    |filler| == Max(0, padLength) && forall i :: 0 <= i < |filler| ==> filler[i] != 0
  }

  function EncryptSpec(k: Key, message: seq<byte>, filler: seq<byte>): Result<seq<byte>, RsaError>
    requires k.n > 0
  {
    var m := Value(EncryptionPadded(message, filler), 256);
    if NumBytes(k.n) <= |message| + 3 then Err(NoRoomForPadding)
    else if m >= k.n then Err(ValueTooLarge)
    else Ok(AsBytes(PublicOp(k, m), NumBytes(k.n)))
  }

  /* What follows the first zero at or after x; a zero in the last place does not count. */
  function AfterSeparator(b: seq<byte>, x: nat): Option<seq<byte>>
    decreases |b| - x
  {
    if x >= |b| - 1 then None
    else if b[x] == 0 then Some(b[x + 1..])
    else AfterSeparator(b, x + 1)
  }

  ghost function DecryptSpec(k: Key, st: Blinding, enc: seq<byte>, draw: nat)
    : Result<Option<seq<byte>>, RsaError>
    requires k.n > 0 && k.p > 0 && k.q > 0
  {
    if k.d == 0 then Err(NoPrivateKey)
    else if |enc| != NumBytes(k.n) || Value(enc, 256) >= k.n then Ok(None)
    else
      var dec := AsBytes(BlindedResult(k, st, Value(enc, 256), draw), NumBytes(k.n));
      if |dec| < 2 then Err(BlockTooShort)
      else if dec[0] != 0 || dec[1] != 2 then Ok(None) else Ok(AfterSeparator(dec, 1))
  }

  lemma {:induction false} SeparatorSkips(b: seq<byte>, x: nat, y: nat)
    requires x <= y < |b| && b[y] == 0 && forall i :: x <= i < y ==> b[i] != 0
    ensures AfterSeparator(b, x) == if y < |b| - 1 then Some(b[y + 1..]) else None
    decreases y - x
  {
    if x < y {
      SeparatorSkips(b, x + 1, y);
    }
  }

  /* encrypt succeeds exactly when there is room for some filler; decrypt then gives the message
     back exactly when it is not empty: the scan for the separator stops one byte early. */
  lemma EncryptThenDecrypt(k: Key, st: Blinding, message: seq<byte>, filler: seq<byte>, draw: nat)
    requires Consistent(k) && OddPrimes(k) && Usable(k, st, draw) && FillerFor(k, message, filler)
    ensures var enc := EncryptSpec(k, message, filler);
            && (enc.Ok? <==> |message| + 3 < NumBytes(k.n))
            && (enc.Ok? ==>
                  DecryptSpec(k, st, enc.value, draw) == Ok(if message == [] then None else Some(message)))
  {
    if |message| + 3 >= NumBytes(k.n) {
      return;
    }
    var size := NumBytes(k.n);
    var padded := EncryptionPadded(message, filler);
    var m := Value(padded, 256);
    NumBytesExact(k.n);
    BlockBelowModulus(k.n, padded);
    var c := PublicOp(k, m);
    BytesRoundTrip(c, size);
    OddStep(k, st, c, draw);
    PrivateUndoesPublic(k, m);
    DivModUnique(m, k.n, 0, m);
    NumberRoundTrip(padded);
    SeparatorSkips(padded, 1, |filler| + 2);
    assert padded[|filler| + 3..] == message;
  }
}
