/**
 electrumsv/vault_contract.py: script numbers and data pushes, the two encodings that constructor
 arguments of a contract go through.
 */
module ScriptData {
  import opened Arith
  import opened Digits
  import opened Wrappers

  // ----------------------------------------------------------------------- script numbers

  /* The bytes of a magnitude, least significant first, none for zero. */
  function Magnitude(a: nat): seq<byte>
  {
    if a == 0 then [] else [a % 256] + Magnitude(a / 256)
  }

  function Abs(v: int): nat
  {
    if v < 0 then -v else v
  }

  /* A magnitude with its sign: the top bit of the last byte, in an extra byte when that bit is
     taken. */
  function Signed(m: seq<byte>, negative: bool): seq<byte>
  {
    if m == [] then []
    else
      var n := |m| - 1;
      if m[n] >= 0x80 then m + [if negative then 0x80 else 0]
      else if negative then m[n := m[n] + 0x80]
      else m
  }

  function NumberBytes(v: int): seq<byte>
  {
    Signed(Magnitude(Abs(v)), v < 0)
  }

  method EncodeScriptNumber(value: int) returns (encoded: seq<byte>)
    ensures encoded == NumberBytes(value)
  {
    if value == 0 {
      return [];
    }
    var negative := value < 0;
    var abs := Abs(value);
    encoded := [];
    while abs != 0
      invariant encoded + Magnitude(abs) == Magnitude(Abs(value))
      decreases abs
    {
      assert encoded + ([abs % 256] + Magnitude(abs / 256)) == (encoded + [abs % 256]) + Magnitude(abs / 256);
      encoded := encoded + [abs % 256];
      abs := abs / 256;
    }
    var n := |encoded| - 1;
    if encoded[n] >= 0x80 {
      encoded := encoded + [if negative then 0x80 else 0];
    } else if negative {
      encoded := encoded[n := encoded[n] + 0x80];
    }
  }

  function DecodeScriptNumber(data: seq<byte>): int
  {
    if data == [] then 0
    else
      var n := |data| - 1;
      if data[n] >= 0x80 then 0 - ValueLE(data[n := data[n] - 0x80], 256) else ValueLE(data, 256)
  }

  /* No shorter encoding means the same number: the last byte carries more than a sign, or its
     sign bit was needed because the byte before it is full. */
  predicate MinimalNumber(data: seq<byte>)
  {
    data != [] ==>
      var n := |data| - 1;
      data[n] % 0x80 != 0 || (n > 0 && data[n - 1] >= 0x80)
  }

  lemma {:induction false} MagnitudeValue(a: nat)
    ensures ValueLE(Magnitude(a), 256) == a
    ensures a > 0 ==> Magnitude(a) != [] && Magnitude(a)[|Magnitude(a)| - 1] > 0
    decreases a
  {
    if a > 0 {
      MagnitudeValue(a / 256);
      assert Magnitude(a)[1..] == Magnitude(a / 256);
    }
  }

  lemma {:induction false} MagnitudeUnique(m: seq<byte>)
    requires m != [] ==> m[|m| - 1] > 0
    ensures Magnitude(ValueLE(m, 256)) == m
  {
    if m != [] {
      var rest := m[1..];
      MagnitudeUnique(rest);
      var v := ValueLE(rest, 256);
      DivModUnique(ValueLE(m, 256), 256, v, m[0]);
      assert m == [m[0]] + rest;
    }
  }

  lemma TrailingZero(m: seq<byte>)
    ensures ValueLE(m + [0], 256) == ValueLE(m, 256)
  {
    ValueLEAppend(m, 0, 256);
  }

  /* Any bytes read as a number: little-endian, but the top bit of the last byte is the sign. */
  lemma DecodeIs(data: seq<byte>)
    ensures data == [] ==> DecodeScriptNumber(data) == 0
    ensures data != [] ==>
              var n := |data| - 1;
              var magnitude := ValueLE(data[..n], 256) + (data[n] % 0x80) * Pow(256, n);
              DecodeScriptNumber(data) == if data[n] >= 0x80 then -magnitude else magnitude
  {
    if data != [] {
      var n := |data| - 1;
      var low: byte := data[n] % 0x80;
      ValueLEAppend(data[..n], low, 256);
      assert data[n := low] == data[..n] + [low];
      assert data[n] < 0x80 ==> data == data[..n] + [low];
    }
  }

  /* Every integer survives encoding and decoding. */
  lemma NumberRoundTrip(v: int)
    ensures DecodeScriptNumber(NumberBytes(v)) == v
  {
    MagnitudeValue(Abs(v));
    var m := Magnitude(Abs(v));
    if v != 0 {
      var n := |m| - 1;
      if m[n] >= 0x80 {
        TrailingZero(m);
        assert (m + [0x80])[n + 1 := 0] == m + [0];
      } else if v < 0 {
        assert m[n := m[n] + 0x80][n := m[n]] == m;
      }
    }
  }

  lemma NumberBytesMinimal(v: int)
    ensures MinimalNumber(NumberBytes(v))
  {
    MagnitudeValue(Abs(v));
  }

  /* Some low bits in the last byte: the sign bit shares it. */
  lemma SharedSign(m: seq<byte>, sign: byte)
    requires m != [] && 0 < m[|m| - 1] < 0x80 && (sign == 0 || sign == 0x80)
    ensures NumberBytes(DecodeScriptNumber(m[|m| - 1 := m[|m| - 1] + sign])) == m[|m| - 1 := m[|m| - 1] + sign]
  {
    hide Magnitude, ValueLE;
    MagnitudeUnique(m);
    NonZero(m);
    var n := |m| - 1;
    assert m[n := m[n] + sign][n := m[n]] == m;
    assert m[n := m[n]] == m;
  }

  /* The sign stands alone in the last byte, because the byte before it is full. */
  lemma SeparateSign(m: seq<byte>, sign: byte)
    requires m != [] && m[|m| - 1] >= 0x80 && (sign == 0 || sign == 0x80)
    ensures NumberBytes(DecodeScriptNumber(m + [sign])) == m + [sign]
  {
    hide Magnitude, ValueLE;
    TrailingZero(m);
    MagnitudeUnique(m);
    NonZero(m);
    assert (m + [sign])[|m| := 0] == m + [0];
  }

  /* Decoding then encoding gives the bytes back exactly when they are minimal. */
  lemma BytesRoundTrip(data: seq<byte>)
    ensures NumberBytes(DecodeScriptNumber(data)) == data <==> MinimalNumber(data)
  {
    hide NumberBytes, DecodeScriptNumber;
    NumberBytesMinimal(DecodeScriptNumber(data));
    if data == [] {
      EmptyNumber();
    } else if MinimalNumber(data) {
      var n := |data| - 1;
      var low: byte := data[n] % 0x80;
      if low != 0 {
        var m := data[n := low];
        SharedSign(m, data[n] - low);
        assert m[n := data[n]] == data;
      } else {
        SeparateSign(data[..n], data[n]);
        assert data == data[..n] + [data[n]];
      }
    }
  }

  lemma EmptyNumber()
    ensures NumberBytes(DecodeScriptNumber([])) == []
  {}

  lemma NonZero(m: seq<byte>)
    requires m != [] && m[|m| - 1] > 0
    ensures ValueLE(m, 256) > 0
  {
    MagnitudeUnique(m);
  }

  // --------------------------------------------------------------------------- data pushes

  /* A Python slice: bounds beyond the end are cut off. */
  function Slice<T>(s: seq<T>, start: nat, end: nat): seq<T>
  {
    var e := if end <= |s| then end else |s|;
    if start <= e then s[start..e] else []
  }

  function LittleEndian(n: nat, k: nat): (b: seq<byte>)
    ensures |b| == k
  {
    var ds := FixedLE(n, 256, k);
    assert forall i :: 0 <= i < |ds| ==> ds[i] < 256;
    seq(k, i requires 0 <= i < k => ds[i])
  }

  lemma LittleEndianValue(n: nat, k: nat)
    requires n < Pow(256, k)
    ensures ValueLE(LittleEndian(n, k), 256) == n
  {
    ValueLEFixed(n, 256, k);
    assert LittleEndian(n, k) == FixedLE(n, 256, k);
  }

  lemma BytePowers()
    ensures Pow(256, 0) == 1 && Pow(256, 1) == 256 && Pow(256, 2) == 0x10000 && Pow(256, 3) == 0x1000000
    ensures Pow(256, 4) == 0x100000000 && Pow(256, 8) == 0x1_0000_0000_0000_0000
  {
    assert Pow(256, 2) == 256 * Pow(256, 1);
    assert Pow(256, 3) == 256 * Pow(256, 2);
    assert Pow(256, 4) == 256 * Pow(256, 3);
    PowAdd(256, 4, 4);
  }

  /* The longest data a push can announce. */
  const PUSH_LIMIT := 0x100000000

  function EncodePush(data: seq<byte>): seq<byte>
    requires |data| < PUSH_LIMIT
  {
    var size := |data|;
    if size <= 75 then [size] + data
    else if size <= 0xFF then [0x4C, size] + data
    else if size <= 0xFFFF then [0x4D] + LittleEndian(size, 2) + data
    else [0x4E] + LittleEndian(size, 4) + data
  }

  /* None stands for the errors: no opcode left, no size byte left, or not a push. */
  function ReadPush(script: seq<byte>, offset: nat): (r: Option<(seq<byte>, nat)>)
  {
    if offset >= |script| then None
    else
      var opcode := script[offset];
      if opcode == 0 then Some(([], offset + 1))
      else if opcode <= 75 then
        Some((Slice(script, offset + 1, offset + 1 + opcode), offset + 1 + opcode))
      else if opcode == 0x4C then
        if offset + 1 >= |script| then None
        else
          var size := script[offset + 1];
          Some((Slice(script, offset + 2, offset + 2 + size), offset + 2 + size))
      else if opcode == 0x4D then
        var size := ValueLE(Slice(script, offset + 1, offset + 3), 256);
        Some((Slice(script, offset + 3, offset + 3 + size), offset + 3 + size))
      else if opcode == 0x4E then
        var size := ValueLE(Slice(script, offset + 1, offset + 5), 256);
        Some((Slice(script, offset + 5, offset + 5 + size), offset + 5 + size))
      else None
  }

  lemma SliceMiddle<T>(pre: seq<T>, mid: seq<T>, post: seq<T>)
    ensures Slice(pre + mid + post, |pre|, |pre| + |mid|) == mid
  {}

  /* Wherever a push stands in a script, reading there gives its data and the place after it. */
  lemma PushRoundTrip(pre: seq<byte>, data: seq<byte>, post: seq<byte>)
    requires |data| < PUSH_LIMIT
    ensures ReadPush(pre + EncodePush(data) + post, |pre|)
            == Some((data, |pre| + |EncodePush(data)|))
  {
    if |data| <= 0xFF {
      ShortPush(pre, data, post);
    } else {
      SizedPush(pre, data, post);
    }
  }

  lemma ShortPush(pre: seq<byte>, data: seq<byte>, post: seq<byte>)
    requires |data| <= 0xFF
    ensures ReadPush(pre + EncodePush(data) + post, |pre|)
            == Some((data, |pre| + |EncodePush(data)|))
  {
    hide ValueLE, Slice;
    var size := |data|;
    var head: seq<byte> := if size <= 75 then [size] else [0x4C, size];
    var script := pre + EncodePush(data) + post;
    assert EncodePush(data) == head + data;
    PushBehind(pre, head, data, post);
    assert script[|pre|] == head[0] && script[|pre| + |head| - 1] == size;
    if size == 0 { assert data == []; }
  }

  lemma PushBehind(pre: seq<byte>, head: seq<byte>, data: seq<byte>, post: seq<byte>)
    requires head != []
    ensures var script := pre + (head + data) + post;
            && |script| >= |pre| + |head|
            && script[|pre|] == head[0] && script[|pre| + |head| - 1] == head[|head| - 1]
            && Slice(script, |pre| + |head|, |pre| + |head| + |data|) == data
  {
    assert pre + (head + data) + post == (pre + head) + data + post;
    SliceMiddle(pre + head, data, post);
  }

  lemma SizedPush(pre: seq<byte>, data: seq<byte>, post: seq<byte>)
    requires 0xFF < |data| < PUSH_LIMIT
    ensures ReadPush(pre + EncodePush(data) + post, |pre|)
            == Some((data, |pre| + |EncodePush(data)|))
  {
    hide ValueLE, Slice, LittleEndian;
    var size := |data|;
    BytePowers();
    if size <= 0xFFFF {
      LongPush(pre, 0x4D, LittleEndian(size, 2), data, post);
      LittleEndianValue(size, 2);
    } else {
      LongPush(pre, 0x4E, LittleEndian(size, 4), data, post);
      LittleEndianValue(size, 4);
    }
  }

  lemma LongPush(pre: seq<byte>, opcode: byte, width: seq<byte>, data: seq<byte>, post: seq<byte>)
    ensures var script := pre + ([opcode] + width + data) + post;
            && |pre| < |script| && script[|pre|] == opcode
            && Slice(script, |pre| + 1, |pre| + 1 + |width|) == width
            && Slice(script, |pre| + 1 + |width|, |pre| + 1 + |width| + |data|) == data
  {
    var script := pre + ([opcode] + width + data) + post;
    assert script == (pre + [opcode]) + width + (data + post);
    SliceMiddle(pre + [opcode], width, data + post);
    assert script == (pre + [opcode] + width) + data + post;
    SliceMiddle(pre + [opcode] + width, data, post);
  }

  // --------------------------------------------------------------------- the bytes of a push

  lemma TwoBytes(n: nat)
    ensures LittleEndian(n, 2) == [n % 256, n / 256 % 256]
  {
    assert FixedLE(n, 256, 2) == [n % 256] + FixedLE(n / 256, 256, 1);
    assert FixedLE(n / 256, 256, 1) == [n / 256 % 256] + FixedLE(n / 256 / 256, 256, 0);
  }

  lemma FourBytes(n: nat)
    ensures LittleEndian(n, 4) == [n % 256, n / 256 % 256, n / 0x10000 % 256, n / 0x1000000 % 256]
  {
    var m := n / 0x10000;
    assert n / 256 / 256 == m && m / 256 == n / 0x1000000;
    assert FixedLE(n, 256, 4) == [n % 256] + FixedLE(n / 256, 256, 3);
    assert FixedLE(n / 256, 256, 3) == [n / 256 % 256] + FixedLE(m, 256, 2);
    TwoBytes(m);
    assert LittleEndian(m, 2) == FixedLE(m, 256, 2);
  }

  /* The header on each range of sizes. */
  lemma PushHeader(data: seq<byte>)
    requires |data| < 0x100000000
    ensures var n, e := |data|, EncodePush(data);
            && (n <= 75 ==> e == [n] + data)
            && (76 <= n <= 0xFF ==> e == [0x4C, n] + data)
            && (0x100 <= n <= 0xFFFF ==> e == [0x4D, n % 256, n / 256] + data)
            && (0x10000 <= n ==>
                  e == [0x4E, n % 256, n / 256 % 256, n / 0x10000 % 256, n / 0x1000000] + data)
  {
    hide LittleEndian, FixedLE;
    TwoBytes(|data|);
    FourBytes(|data|);
    HighBytes(|data|);
    JoinHead([0x4D], LittleEndian(|data|, 2), data);
    JoinHead([0x4E], LittleEndian(|data|, 4), data);
  }

  lemma HighBytes(n: nat)
    ensures n <= 0xFFFF ==> n / 256 % 256 == n / 256
    ensures n <= 0xFFFFFFFF ==> n / 0x1000000 % 256 == n / 0x1000000
  {}

  lemma JoinHead(opcode: seq<byte>, width: seq<byte>, data: seq<byte>)
    requires |opcode| == 1
    ensures |width| == 2 ==> opcode + width + data == [opcode[0], width[0], width[1]] + data
    ensures |width| == 4 ==> opcode + width + data == [opcode[0], width[0], width[1], width[2], width[3]] + data
  {}

  /* How many bytes announce the data, by the first of them. */
  function HeaderSize(opcode: byte): nat
  {
    if opcode <= 75 then 1 else if opcode == 0x4C then 2 else if opcode == 0x4D then 3 else 5
  }

  /* Reading fails exactly without an opcode, at one that is no push, or without the size byte of
     0x4C. Otherwise the data is what stands between the header and the next place, cut off at the
     end of the script. */
  lemma PushRefused(script: seq<byte>, offset: nat)
    ensures ReadPush(script, offset).None?
            <==> || offset >= |script| || script[offset] > 0x4E
                 || (script[offset] == 0x4C && offset + 1 >= |script|)
    ensures ReadPush(script, offset).Some? ==>
              var (data, next) := ReadPush(script, offset).value;
              var start := offset + HeaderSize(script[offset]);
              start <= next && data == Slice(script, start, next)
  {
    hide ValueLE;
  }

  /* Each of the four forms is read at any size it can announce, short or not. */
  lemma EveryForm(pre: seq<byte>, header: seq<byte>, data: seq<byte>, post: seq<byte>)
    requires var n := |data|;
             || (n <= 75 && header == [n])
             || (n <= 0xFF && header == [0x4C, n])
             || (n <= 0xFFFF && header == [0x4D, n % 256, n / 256])
             || (n <= 0xFFFFFFFF && header == [0x4E, n % 256, n / 256 % 256, n / 0x10000 % 256, n / 0x1000000])
    ensures ReadPush(pre + (header + data) + post, |pre|) == Some((data, |pre| + |header| + |data|))
  {
    hide ValueLE, Slice, LittleEndian;
    var n, script := |data|, pre + (header + data) + post;
    PushBehind(pre, header, data, post);
    BytePowers();
    if |header| == 3 {
      TwoBytes(n);
      assert header + data == [0x4D] + LittleEndian(n, 2) + data;
      LongPush(pre, 0x4D, LittleEndian(n, 2), data, post);
      LittleEndianValue(n, 2);
    } else if |header| == 5 {
      FourBytes(n);
      assert header + data == [0x4E] + LittleEndian(n, 4) + data;
      LongPush(pre, 0x4E, LittleEndian(n, 4), data, post);
      LittleEndianValue(n, 4);
    } else if n == 0 {
      assert data == [];
    }
  }

  /* No header that is read back is shorter than the one written. */
  lemma PushShortest(data: seq<byte>, header: seq<byte>)
    requires |data| < 0x100000000
    requires ReadPush(header + data, 0) == Some((data, |header| + |data|))
    ensures |EncodePush(data)| <= |header| + |data|
  {
    hide ValueLE;
    PushHeader(data);
    var script, n := header + data, |data|;
    var size := HeaderSize(script[0]);
    PushRefused(script, 0);
    assert |Slice(script, size, |script|)| == |script| - size;
    assert |header| == size;
    if size == 3 || size == 5 {
      AnnouncedSize(script, size);
    }
  }

  /* The announced size fits its width. */
  lemma AnnouncedSize(script: seq<byte>, size: nat)
    requires script != [] && ReadPush(script, 0).Some? && size == HeaderSize(script[0])
    ensures ReadPush(script, 0).value.1 - size <= if size == 1 then 75 else if size == 2 then 0xFF
                                                  else if size == 3 then 0xFFFF else 0xFFFFFFFF
  {
    BytePowers();
    ValueLEBound(Slice(script, 1, 3), 256);
    ValueLEBound(Slice(script, 1, 5), 256);
    PowMono(256, |Slice(script, 1, 3)|, 2);
    PowMono(256, |Slice(script, 1, 5)|, 4);
  }
}
