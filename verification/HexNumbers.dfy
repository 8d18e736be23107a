/**
 electrumsv/bitcoin.py: little-endian hexadecimal integers and the variable-length integers
 written with them, which are the ones the raw transaction parser reads.
 */
module HexNumbers {
  import opened Arith
  import opened Digits
  import opened RawTransaction
  import opened ScriptData
  import opened Wrappers

  datatype HexError = Overflow | OddLength

  /* The bytes a string of hexadecimal digits denotes. */
  function Pairs(ds: seq<nat>): (r: seq<byte>)
    requires InBase(ds, 16) && |ds| % 2 == 0
    ensures |r| == |ds| / 2
  {
    if ds == [] then [] else
      var n := |ds| - 2;
      assert ds[n] < 16 && ds[n + 1] < 16;
      Pairs(ds[..n]) + [ds[n] * 16 + ds[n + 1]]
  }

  /* Hexadecimal digits on the left padded to the length, then the bytes in reverse. */
  function IntToHex(i: int, length: nat): Result<seq<byte>, HexError>
  {
    PowPositive(256, length);
    var range := Pow(256, length);
    if i < 0 - range / 2 || i >= range then Err(Overflow)
    else
      var padded := Padded(Unsigned(i, range), 16, 2 * length);
      if |padded| % 2 != 0 then Err(OddLength) else Ok(Reversed(Pairs(padded)))
  }

  function VarInt(i: int): Result<seq<byte>, HexError>
  {
    if i < 0xFD then IntToHex(i, 1)
    else if i <= 0xFFFF then Prefixed(0xFD, IntToHex(i, 2))
    else if i <= 0xFFFFFFFF then Prefixed(0xFE, IntToHex(i, 4))
    else Prefixed(0xFF, IntToHex(i, 8))
  }

  function Prefixed(b: byte, r: Result<seq<byte>, HexError>): Result<seq<byte>, HexError>
  {
    if r.Ok? then Ok([b] + r.value) else r
  }

  lemma PowSquare(k: nat)
    ensures Pow(16, 2 * k) == Pow(256, k)
  {
    PowMulExp(16, 2, k);
    assert Pow(16, 2) == 16 * Pow(16, 1);
  }

  /* Two hexadecimal digits make one byte. */
  lemma {:induction false} PairsFixed(n: nat, k: nat)
    ensures Pairs(Fixed(n, 16, 2 * k)) == Fixed(n, 256, k)
    decreases k
  {
    if k > 0 {
      var ds := Fixed(n, 16, 2 * k);
      var m := n / 16;
      assert Fixed(m, 16, 2 * k - 1) == Fixed(m / 16, 16, 2 * (k - 1)) + [m % 16];
      assert ds == (Fixed(m / 16, 16, 2 * (k - 1)) + [m % 16]) + [n % 16];
      assert ds[..2 * k - 2] == Fixed(m / 16, 16, 2 * (k - 1));
      ByteOfDigits(n);
      PairsFixed(n / 256, k - 1);
    }
  }

  lemma ByteOfDigits(n: nat)
    ensures n / 16 / 16 == n / 256 && (n / 16 % 16) * 16 + n % 16 == n % 256
  {}

  /* The bytes are the two's complement in little-endian order, of exactly that length; only
     numbers outside the range of signed and unsigned integers of that length are refused. */
  lemma IntToHexBytes(i: int, length: nat)
    requires length > 0
    ensures Pow(256, length) > 0
    ensures var range := Pow(256, length);
            IntToHex(i, length) == if -(range / 2) <= i < range
                                   then Ok(LittleEndian(if i < 0 then i + range else i, length))
                                   else Err(Overflow)
  {
    hide Padded, Pairs, Pow, Reversed;
    PowPositive(256, length);
    var range := Pow(256, length);
    if 0 - range / 2 <= i < range {
      PaddedBytes(Unsigned(i, range), length);
    }
  }

  lemma PaddedBytes(n: nat, length: nat)
    requires length > 0 && n < Pow(256, length)
    ensures var padded := Padded(n, 16, 2 * length);
            |padded| == 2 * length && Reversed(Pairs(padded)) == LittleEndian(n, length)
  {
    hide Padded, Fixed, FixedLE, Pairs, Pow;
    PowSquare(length);
    PaddedFixed(n, 16, 2 * length);
    PairsFixed(n, length);
    FixedReversed(n, 256, length);
    assert LittleEndian(n, length) == FixedLE(n, 256, length);
  }

  lemma OneByte(n: nat)
    requires n < 256
    ensures LittleEndian(n, 1) == [n]
  {
    assert FixedLE(n, 256, 1) == [n % 256] + FixedLE(n / 256, 256, 0);
  }

  /* The two encoders agree on every length a transaction can hold; beyond 64 bits both fail,
     and a small negative number is refused by one and written as a single byte by the other. */
  lemma VarIntIsVarint(i: int)
    ensures 0 <= i < LONG ==> VarInt(i) == Ok(EncodeVarint(i))
    ensures i >= LONG || i < -128 ==> VarInt(i) == Err(Overflow)
    ensures -128 <= i < 0 ==> VarInt(i) == Ok([256 + i])
  {
    hide IntToHex, LittleEndian, Pow;
    BytePowers();
    IntToHexBytes(i, 1);
    IntToHexBytes(i, 2);
    IntToHexBytes(i, 4);
    IntToHexBytes(i, 8);
    if -128 <= i < 0xFD { OneByte(if i < 0 then i + 256 else i); }
  }
}
