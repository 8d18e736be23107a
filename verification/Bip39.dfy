/**
 Mnemonic phrases: the generator of electrumsv/mnemonic.py, which works on strings of bits, and
 the validator of electrumsv/keystore.py, which rebuilds one large number from the words.
 */
module Bip39 {
  import opened Arith
  import opened Digits
  import opened Hashing
  import opened HexNumbers
  import opened Wrappers

  const WORDS := 2048

  ghost predicate Wordlist(list: seq<string>)
  {
    |list| == WORDS && forall i, j :: 0 <= i < j < |list| ==> list[i] != list[j]
  }

  // ----------------------------------------------------------------------------- generation

  /* The numbers that consecutive groups of eleven bits denote. */
  function Groups(bits: seq<nat>): (r: seq<nat>)
    requires InBase(bits, 2) && |bits| % 11 == 0
    ensures |r| == |bits| / 11
  {
    if bits == [] then [] else
      var n := |bits| - 11;
      Groups(bits[..n]) + [Value(bits[n..], 2)]
  }

  /* The first bits of the hash, written with all its 256 bits. */
  function ChecksumBits(h: Hash, entropy: seq<byte>, count: nat): (r: seq<nat>)
    requires |h(entropy)| == 32 && count <= 256
    ensures |r| >= count && InBase(r[..count], 2)
  {
    var bits := Padded(Value(h(entropy), 256), 2, 256);
    assert |bits| >= 256;
    bits
  }

  datatype PhraseError = UnsupportedLength

  function EntropySize(numWords: int): nat
  {
    if numWords == 12 then 16 else 32
  }

  /* The bits of the entropy, then the first bits of its hash. */
  function PhraseBits(h: Hash, entropy: seq<byte>): (r: seq<nat>)
    requires |h(entropy)| == 32 && (|entropy| == 16 || |entropy| == 32)
    ensures InBase(r, 2) && |r| == |entropy| * 8 + |entropy| / 4
  {
    EntropyBits(entropy);
    Padded(Value(entropy, 256), 2, |entropy| * 8) + ChecksumBits(h, entropy, |entropy| / 4)[..|entropy| / 4]
  }

  lemma EntropyBits(entropy: seq<byte>)
    requires entropy != []
    ensures Value(entropy, 256) < Pow(2, |entropy| * 8)
    ensures Padded(Value(entropy, 256), 2, |entropy| * 8) == Fixed(Value(entropy, 256), 2, |entropy| * 8)
  {
    ValueBound(entropy, 256);
    PowBits(|entropy|);
    PaddedFixed(Value(entropy, 256), 2, |entropy| * 8);
  }

  lemma PowBits(k: nat)
    ensures Pow(256, k) == Pow(2, k * 8)
  {
    SmallPowers();
    PowMulExp(2, 8, k);
  }

  lemma SmallPowers()
    ensures Pow(2, 8) == 256 && Pow(2, 11) == WORDS
  {
    assert Pow(2, 3) == 8 by { assert Pow(2, 2) == 4; }
    PowAdd(2, 3, 3);
    PowAdd(2, 6, 2);
    PowAdd(2, 8, 3);
  }

  function GeneratePhrase(h: Hash, list: seq<string>, numWords: int, entropy: seq<byte>)
    : Result<seq<string>, PhraseError>
    requires Wordlist(list) && |h(entropy)| == 32 && |entropy| == EntropySize(numWords)
  {
    if numWords != 12 && numWords != 24 then Err(UnsupportedLength)
    else
      var bits := PhraseBits(h, entropy);
      GroupsBelow(bits);
      Ok(Pick(list, Groups(bits)))
  }

  function Pick(list: seq<string>, indices: seq<nat>): (r: seq<string>)
    requires InBase(indices, |list|)
    ensures |r| == |indices| && forall i :: 0 <= i < |r| ==> r[i] == list[indices[i]]
  {
    seq(|indices|, i requires 0 <= i < |indices| => list[indices[i]])
  }

  lemma {:induction false} GroupsBelow(bits: seq<nat>)
    requires InBase(bits, 2) && |bits| % 11 == 0
    ensures InBase(Groups(bits), WORDS)
  {
    if bits != [] {
      var n := |bits| - 11;
      GroupsBelow(bits[..n]);
      SmallPowers();
      ValueBound(bits[n..], 2);
    }
  }

  // ----------------------------------------------------------------------------- validation

  /* The first place of a word in the list. */
  function IndexOf(list: seq<string>, w: string): (r: Option<nat>)
    ensures r == None <==> w !in list
    ensures r.Some? ==> r.value < |list| && list[r.value] == w
  {
    if list == [] then None
    else if list[0] == w then Some(0)
    else
      match IndexOf(list[1..], w)
      case None => None
      case Some(k) => Some(k + 1)
  }

  predicate AllListed(list: seq<string>, words: seq<string>)
  {
    forall i :: 0 <= i < |words| ==> words[i] in list
  }

  function Indices(list: seq<string>, words: seq<string>): (r: seq<nat>)
    requires AllListed(list, words)
    ensures |r| == |words| && InBase(r, |list|)
    ensures forall i :: 0 <= i < |r| ==> Some(r[i]) == IndexOf(list, words[i])
  {
    seq(|words|, i requires 0 <= i < |words| => IndexOf(list, words[i]).value)
  }

  /* The entropy is what is left of the number above the checksum, as bytes. */
  function EntropyBytes(i: nat, size: nat): (r: seq<byte>)
    requires size > 0 && i < Pow(2, 33 * size)
    ensures |r| == 4 * size && Value(r, 256) == i / PowOfTwo(size)
  {
    EntropyDigits(i, size);
    Pairs(Padded(i / PowOfTwo(size), 16, 8 * size))
  }

  function PowOfTwo(k: nat): (p: nat)
    ensures p == Pow(2, k) > 0
  {
    PowPositive(2, k);
    Pow(2, k)
  }

  lemma EntropyDigits(i: nat, size: nat)
    requires size > 0 && i < Pow(2, 33 * size)
    ensures |Padded(i / PowOfTwo(size), 16, 8 * size)| == 8 * size
    ensures var r := Pairs(Padded(i / PowOfTwo(size), 16, 8 * size));
            r == Fixed(i / PowOfTwo(size), 256, 4 * size) && Value(r, 256) == i / PowOfTwo(size)
  {
    hide Padded, Fixed, Pairs, Value, Pow;
    var e := i / PowOfTwo(size);
    PowAdd(2, 32 * size, size);
    DivLess(i, PowOfTwo(size), Pow(2, 32 * size));
    PowBits(4 * size);
    PowSquare(4 * size);
    PaddedFixed(e, 16, 8 * size);
    PairsFixed(e, 4 * size);
    ValueFixed(e, 256, 4 * size);
    DivModUnique(e, Pow(256, 4 * size), 0, e);
  }

  /* Whether the low bits of the number are the high bits of the hash of the entropy. */
  predicate Checks(h: Hash, i: nat, size: nat)
    requires 0 < size <= 256 && i < Pow(2, 33 * size)
  {
    i % PowOfTwo(size) == Value(h(EntropyBytes(i, size)), 256) / PowOfTwo(256 - size)
  }

  predicate StandardLength(count: nat)
  {
    count in [12, 15, 18, 21, 24]
  }

  lemma NumberBelow(list: seq<string>, words: seq<string>)
    requires |list| == WORDS && AllListed(list, words) && |words| % 3 == 0
    ensures Value(Indices(list, words), WORDS) < Pow(2, 33 * (|words| / 3))
  {
    hide Value, Pow, Indices, AllListed;
    ValueBound(Indices(list, words), WORDS);
    SmallPowers();
    PowMulExp(2, 11, |words|);
    assert 33 * (|words| / 3) == 11 * |words|;
  }

  /* Whether the checksum is right, and whether every word is listed. */
  function Verdict(h: Hash, list: seq<string>, words: seq<string>): (bool, bool)
    requires |list| == WORDS
  {
    if !AllListed(list, words) then (false, false)
    else if !StandardLength(|words|) then (false, true)
    else
      NumberBelow(list, words);
      (Checks(h, Value(Indices(list, words), WORDS), |words| / 3), true)
  }

  /* Hexadecimal digits padded one zero at a time. */
  method PadHex(n: nat, length: nat) returns (digits: seq<nat>)
    ensures digits == Padded(n, 16, length)
  {
    digits := Minimal(n, 16);
    ghost var zeros := 0;
    assert digits == Zeros(0) + Minimal(n, 16);
    while |digits| < length
      invariant digits == Zeros(zeros) + Minimal(n, 16) && InBase(digits, 16)
      invariant zeros > 0 ==> |digits| <= length
    {
      assert [0] + (Zeros(zeros) + Minimal(n, 16)) == Zeros(zeros + 1) + Minimal(n, 16);
      digits := [0] + digits;
      zeros := zeros + 1;
    }
  }

  /* The words are popped from the reversed list and read as digits. */
  method ReadWords(list: seq<string>, mnemonic: seq<string>) returns (r: Option<nat>)
    requires |list| == WORDS
    ensures r == if AllListed(list, mnemonic) then Some(Value(Indices(list, mnemonic), WORDS)) else None
  {
    hide IndexOf, Value, Indices;
    var i: nat := 0;
    var words := Reversed(mnemonic);
    ghost var done := 0;
    NoWords(list);
    assert mnemonic[..0] == [];
    while words != []
      invariant done + |words| == |mnemonic| && words == Reversed(mnemonic)[..|words|]
      invariant AllListed(list, mnemonic[..done]) && i == Value(Indices(list, mnemonic[..done]), WORDS)
      decreases |words|
    {
      var w := words[|words| - 1];
      assert w == mnemonic[done];
      words := words[..|words| - 1];
      var k := IndexOf(list, w);
      if k.None? {
        return None;
      }
      NextWord(list, mnemonic, done);
      i := i * |list| + k.value;
      done := done + 1;
    }
    assert mnemonic[..|mnemonic|] == mnemonic;
    return Some(i);
  }

  lemma NoWords(list: seq<string>)
    ensures Value(Indices(list, []), WORDS) == 0
  {}

  method ChecksumValid(h: Hash, list: seq<string>, mnemonic: seq<string>) returns (checksum: bool, listed: bool)
    requires |list| == WORDS
    ensures (checksum, listed) == Verdict(h, list, mnemonic)
  {
    hide IndexOf, Pairs, Padded, Value, Indices, AllListed, Pow;
    var read := ReadWords(list, mnemonic);
    if read.None? {
      return false, false;
    }
    if !StandardLength(|mnemonic|) {
      return false, true;
    }
    var i, checksumLength := read.value, 11 * |mnemonic| / 33;
    NumberBelow(list, mnemonic);
    EntropyDigits(i, checksumLength);
    var entropy := i / PowOfTwo(checksumLength);
    var hex := PadHex(entropy, 8 * checksumLength);
    var hashed := Value(h(Pairs(hex)), 256);
    var calculated := hashed / PowOfTwo(256 - checksumLength);
    return i % PowOfTwo(checksumLength) == calculated, true;
  }

  lemma NextWord(list: seq<string>, words: seq<string>, done: nat)
    requires |list| == WORDS && done < |words| && AllListed(list, words[..done]) && words[done] in list
    ensures AllListed(list, words[..done + 1])
    ensures Value(Indices(list, words[..done + 1]), WORDS)
            == Value(Indices(list, words[..done]), WORDS) * WORDS + IndexOf(list, words[done]).value
  {
    hide IndexOf, Value;
    assert words[..done + 1] == words[..done] + [words[done]];
    ValueAppend(Indices(list, words[..done]), IndexOf(list, words[done]).value, WORDS);
    assert Indices(list, words[..done + 1])
           == Indices(list, words[..done]) + [IndexOf(list, words[done]).value];
  }

  // ----------------------------------------------------------- what is generated is accepted

  /* Groups of eleven bits are the digits of the same number in base 2048. */
  lemma {:induction false} GroupsValue(bits: seq<nat>)
    requires InBase(bits, 2) && |bits| % 11 == 0
    ensures Value(Groups(bits), WORDS) == Value(bits, 2)
  {
    hide Value;
    if bits == [] {
      EmptyValue();
    } else {
      var n := |bits| - 11;
      GroupsValue(bits[..n]);
      SmallPowers();
      assert bits == bits[..n] + bits[n..];
      ValueConcat(bits[..n], bits[n..], 2);
      ValueAppend(Groups(bits[..n]), Value(bits[n..], 2), WORDS);
    }
  }

  lemma EmptyValue()
    ensures Value([], 2) == 0 == Value([], WORDS)
  {}

  /* The leading bits of a number of 256 bits are its quotient by a power of two. */
  lemma LeadingBits(n: nat, count: nat)
    requires n < Pow(2, 256) && count <= 256
    ensures Padded(n, 2, 256) == Fixed(n, 2, 256)
    ensures Value(Fixed(n, 2, 256)[..count], 2) == n / PowOfTwo(256 - count) < PowOfTwo(count)
  {
    hide Value, Fixed, Padded, Pow;
    PaddedFixed(n, 2, 256);
    var bits := Fixed(n, 2, 256);
    ValueFixed(n, 2, 256);
    DivModUnique(n, Pow(2, 256), 0, n);
    assert bits == bits[..count] + bits[count..];
    ValueConcat(bits[..count], bits[count..], 2);
    ValueBound(bits[count..], 2);
    ValueBound(bits[..count], 2);
    DivModUnique(n, PowOfTwo(256 - count), Value(bits[..count], 2), Value(bits[count..], 2));
  }

  /* The number a phrase stands for: the entropy above its checksum. */
  lemma PhraseNumber(h: Hash, entropy: seq<byte>)
    requires HashSize(h, 32) && (|entropy| == 16 || |entropy| == 32)
    ensures var size := |entropy| / 4;
            var checksum := Value(h(entropy), 256) / PowOfTwo(256 - size);
            && Value(Groups(PhraseBits(h, entropy)), WORDS) == Value(entropy, 256) * PowOfTwo(size) + checksum
            && checksum < PowOfTwo(size)
  {
    hide Value, Groups, Fixed, Pow, PhraseBits, Padded, PowOfTwo;
    var bits := PhraseBits(h, entropy);
    assert |bits| == 132 || |bits| == 264;
    GroupsValue(bits);
    PhraseBitsAre(h, entropy);
    EntropyBits(entropy);
    BitsNumber(Value(entropy, 256), |entropy| * 8, Value(h(entropy), 256), |entropy| / 4);
  }

  lemma BitsNumber(e: nat, k: nat, digest: nat, size: nat)
    requires e < Pow(2, k) && digest < Pow(2, 256) && size <= 256
    ensures Value(Fixed(e, 2, k) + Fixed(digest, 2, 256)[..size], 2)
            == e * PowOfTwo(size) + digest / PowOfTwo(256 - size)
    ensures digest / PowOfTwo(256 - size) < PowOfTwo(size)
  {
    hide Value, Fixed, Pow;
    LeadingBits(digest, size);
    ValueFixed(e, 2, k);
    DivModUnique(e, Pow(2, k), 0, e);
    ValueConcat(Fixed(e, 2, k), Fixed(digest, 2, 256)[..size], 2);
  }

  lemma PhraseBitsAre(h: Hash, entropy: seq<byte>)
    requires HashSize(h, 32) && (|entropy| == 16 || |entropy| == 32)
    ensures Value(h(entropy), 256) < Pow(2, 256)
    ensures PhraseBits(h, entropy)
            == Fixed(Value(entropy, 256), 2, |entropy| * 8) + Fixed(Value(h(entropy), 256), 2, 256)[..|entropy| / 4]
  {
    hide Value, Padded, Fixed, Pow;
    EntropyBits(entropy);
    ValueBound(h(entropy), 256);
    PowBits(32);
    LeadingBits(Value(h(entropy), 256), |entropy| / 4);
  }

  lemma IndexOfListed(list: seq<string>, k: nat)
    requires Wordlist(list) && k < |list|
    ensures IndexOf(list, list[k]) == Some(k)
  {
    hide IndexOf;
    assert list[k] in list;
  }

  lemma IndicesOfPicked(list: seq<string>, g: seq<nat>)
    requires Wordlist(list) && InBase(g, WORDS)
    ensures AllListed(list, Pick(list, g)) && Indices(list, Pick(list, g)) == g
  {
    hide IndexOf;
    forall i | 0 <= i < |g| ensures IndexOf(list, Pick(list, g)[i]) == Some(g[i]) {
      IndexOfListed(list, g[i]);
    }
  }

  lemma PickedFromIndices(list: seq<string>, words: seq<string>)
    requires Wordlist(list) && AllListed(list, words)
    ensures Pick(list, Indices(list, words)) == words
  {
    hide IndexOf;
  }

  /* A generated phrase is accepted, and the validator's entropy is the generator's. */
  lemma GeneratedAccepted(h: Hash, list: seq<string>, numWords: int, entropy: seq<byte>)
    requires HashSize(h, 32) && Wordlist(list) && numWords in {12, 24} && |entropy| == EntropySize(numWords)
    ensures var phrase := GeneratePhrase(h, list, numWords, entropy);
            && phrase.Ok? && |phrase.value| == numWords
            && AllListed(list, phrase.value)
            && Verdict(h, list, phrase.value) == (true, true)
            && var i := Value(Indices(list, phrase.value), WORDS);
               i < Pow(2, 33 * (numWords / 3)) && EntropyBytes(i, numWords / 3) == entropy
  {
    hide Value, Groups, Pow, IndexOf, Padded, Pairs, Fixed;
    var size, g := numWords / 3, Groups(PhraseBits(h, entropy));
    GroupsBelow(PhraseBits(h, entropy));
    IndicesOfPicked(list, g);
    NumberBelow(list, Pick(list, g));
    PhraseNumber(h, entropy);
    var i := Value(g, WORDS);
    var checksum := Value(h(entropy), 256) / PowOfTwo(256 - size);
    DivModUnique(i, PowOfTwo(size), Value(entropy, 256), checksum);
    ValueInjective(EntropyBytes(i, size), entropy, 256);
  }

  /* A phrase of twelve or twenty-four words is accepted exactly when some entropy generates it. */
  lemma AcceptedIsGenerated(h: Hash, list: seq<string>, words: seq<string>)
    requires HashSize(h, 32) && Wordlist(list) && |words| in {12, 24}
    ensures Verdict(h, list, words) == (true, true)
            <==> exists entropy: seq<byte> ::
                   |entropy| == EntropySize(|words|) && GeneratePhrase(h, list, |words|, entropy) == Ok(words)
  {
    hide Verdict, GeneratePhrase;
    if Verdict(h, list, words) == (true, true) {
      var entropy := Regenerated(h, list, words);
      assert GeneratePhrase(h, list, |words|, entropy) == Ok(words);
    }
    forall entropy: seq<byte>
      | |entropy| == EntropySize(|words|) && GeneratePhrase(h, list, |words|, entropy) == Ok(words)
      ensures Verdict(h, list, words) == (true, true)
    {
      GeneratedAccepted(h, list, |words|, entropy);
    }
  }

  lemma Regenerated(h: Hash, list: seq<string>, words: seq<string>) returns (entropy: seq<byte>)
    requires HashSize(h, 32) && Wordlist(list) && |words| in {12, 24}
    requires Verdict(h, list, words) == (true, true)
    ensures |entropy| == EntropySize(|words|) && GeneratePhrase(h, list, |words|, entropy) == Ok(words)
  {
    hide Value, Groups, Pow, IndexOf, Padded, Pairs, Fixed;
    var size := |words| / 3;
    NumberBelow(list, words);
    var i := Value(Indices(list, words), WORDS);
    entropy := EntropyBytes(i, size);
    PhraseNumber(h, entropy);
    GroupsBelow(PhraseBits(h, entropy));
    assert i == i / PowOfTwo(size) * PowOfTwo(size) + i % PowOfTwo(size);
    ValueInjective(Groups(PhraseBits(h, entropy)), Indices(list, words), WORDS);
    PickedFromIndices(list, words);
  }
}
