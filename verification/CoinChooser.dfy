/**
 electrumsv/coinchooser.py: grouping coins into buckets, choosing a subset that pays for itself,
 splitting the change, and the transaction that results.
 */
module CoinChooser {
  import opened Arith
  import opened Generator
  import opened Sorting
  import opened Sums
  import opened Wrappers

  datatype Coin = Coin(id: nat, value: nat, size: nat, key: nat)
  datatype Bucket = Bucket(desc: nat, size: nat, value: nat, coins: seq<Coin>)
  datatype Output = Output(value: nat, script: nat)
  datatype ChooserError = NotEnoughFunds | NoBuckets

  const BUCKET_VALUE: Bucket -> int := (b: Bucket) => b.value
  const BUCKET_SIZE: Bucket -> int := (b: Bucket) => b.size
  const COIN_VALUE: Coin -> int := (c: Coin) => c.value
  const COIN_SIZE: Coin -> int := (c: Coin) => c.size

  // --------------------------------------------------------------------------- bucketizing

  /* The coins of one key, in order. */
  function OfKey(coins: seq<Coin>, key: nat): seq<Coin>
  {
    if coins == [] then []
    else
      var n := |coins| - 1;
      OfKey(coins[..n], key) + if coins[n].key == key then [coins[n]] else []
  }

  lemma OfKeyAppend(coins: seq<Coin>, c: Coin, key: nat)
    ensures OfKey(coins + [c], key) == OfKey(coins, key) + if c.key == key then [c] else []
  {
    assert (coins + [c])[..|coins|] == coins;
  }

  /* The distinct keys in order of first appearance. */
  function KeysInOrder(coins: seq<Coin>): (r: seq<nat>)
    ensures forall k :: k in r <==> exists c :: c in coins && c.key == k
  {
    if coins == [] then []
    else
      var n := |coins| - 1;
      var keys := KeysInOrder(coins[..n]);
      assert coins == coins[..n] + [coins[n]];
      if coins[n].key in keys then keys else keys + [coins[n].key]
  }

  lemma {:induction false} KeyAbsent(coins: seq<Coin>, key: nat)
    requires key !in KeysInOrder(coins)
    ensures OfKey(coins, key) == []
  {
    if coins != [] {
      KeyAbsent(coins[..|coins| - 1], key);
    }
  }

  function MakeBucket(key: nat, coins: seq<Coin>): Bucket
  {
    TotalNonNegative(coins, COIN_SIZE);
    TotalNonNegative(coins, COIN_VALUE);
    Bucket(key, Total(coins, COIN_SIZE), Total(coins, COIN_VALUE), coins)
  }

  /* One bucket per key, holding exactly the coins of that key. */
  function Buckets(coins: seq<Coin>): seq<Bucket>
  {
    var keys := KeysInOrder(coins);
    seq(|keys|, i requires 0 <= i < |keys| => MakeBucket(keys[i], OfKey(coins, keys[i])))
  }

  /* The dictionary of buckets: its keys in insertion order, and the coins under each. */
  ghost predicate Groups(coins: seq<Coin>, keys: seq<nat>, groups: map<nat, seq<Coin>>)
  {
    && keys == KeysInOrder(coins)
    && (forall k :: k in groups <==> k in keys)
    && (forall k :: k in groups ==> groups[k] == OfKey(coins, k))
  }

  lemma GroupsStep(coins: seq<Coin>, c: Coin, keys: seq<nat>, groups: map<nat, seq<Coin>>)
    requires Groups(coins, keys, groups)
    ensures Groups(coins + [c], if c.key in groups then keys else keys + [c.key],
                   groups[c.key := (if c.key in groups then groups[c.key] else []) + [c]])
  {
    assert (coins + [c])[..|coins|] == coins;
    var groups' := groups[c.key := (if c.key in groups then groups[c.key] else []) + [c]];
    forall k | k in groups'
      ensures groups'[k] == OfKey(coins + [c], k)
    {
      OfKeyAppend(coins, c, k);
      if k !in groups { KeyAbsent(coins, k); }
    }
  }

  /* A missing key is entered with no coins first, as defaultdict does. */
  method AddCoin(keys: seq<nat>, groups: map<nat, seq<Coin>>, c: Coin)
    returns (keys': seq<nat>, groups': map<nat, seq<Coin>>)
    ensures keys' == if c.key in groups then keys else keys + [c.key]
    ensures groups' == groups[c.key := (if c.key in groups then groups[c.key] else []) + [c]]
  {
    keys', groups' := keys, groups;
    if c.key !in groups {
      keys' := keys + [c.key];
      groups' := groups[c.key := []];
    }
    groups' := groups'[c.key := groups'[c.key] + [c]];
  }

  method GroupCoins(coins: seq<Coin>) returns (keys: seq<nat>, groups: map<nat, seq<Coin>>)
    ensures Groups(coins, keys, groups)
  {
    keys, groups := [], map[];
    for i := 0 to |coins|
      invariant Groups(coins[..i], keys, groups)
    {
      GroupsStep(coins[..i], coins[i], keys, groups);
      TakeNext(coins, i);
      keys, groups := AddCoin(keys, groups, coins[i]);
    }
    assert coins[..|coins|] == coins;
  }

  method BucketizeCoins(coins: seq<Coin>) returns (buckets: seq<Bucket>)
    ensures buckets == Buckets(coins)
  {
    var keys, groups := GroupCoins(coins);
    buckets := [];
    ghost var all := Buckets(coins);
    for i := 0 to |keys|
      invariant buckets == all[..i]
    {
      BucketAt(coins, keys, groups, i);
      buckets := buckets + [MakeBucket(keys[i], groups[keys[i]])];
    }
    assert all[..|keys|] == all;
  }

  lemma TakeNext<T>(s: seq<T>, i: nat)
    requires i < |s|
    ensures s[..i + 1] == s[..i] + [s[i]]
  {}

  lemma BucketAt(coins: seq<Coin>, keys: seq<nat>, groups: map<nat, seq<Coin>>, i: nat)
    requires Groups(coins, keys, groups) && i < |keys|
    ensures keys[i] in groups
    ensures var all := Buckets(coins);
            |all| == |keys| && all[..i + 1] == all[..i] + [MakeBucket(keys[i], groups[keys[i]])]
  {
    var key := keys[i];
    assert key in keys;
    assert groups[key] == OfKey(coins, key);
    TakeNext(Buckets(coins), i);
  }

  /* All coins of a list of buckets. */
  function AllCoins(bs: seq<Bucket>): seq<Coin>
  {
    if bs == [] then [] else bs[0].coins + AllCoins(bs[1..])
  }

  ghost predicate WellMade(b: Bucket)
  {
    b.value == Total(b.coins, COIN_VALUE) && b.size == Total(b.coins, COIN_SIZE)
  }

  /* The totals of buckets are the totals of their coins. */
  lemma {:induction false} AllCoinsTotals(bs: seq<Bucket>)
    requires forall i :: 0 <= i < |bs| ==> WellMade(bs[i])
    ensures Total(AllCoins(bs), COIN_VALUE) == Total(bs, BUCKET_VALUE)
    ensures Total(AllCoins(bs), COIN_SIZE) == Total(bs, BUCKET_SIZE)
  {
    if bs != [] {
      AllCoinsTotals(bs[1..]);
      TotalConcat(bs[0].coins, AllCoins(bs[1..]), COIN_VALUE);
      TotalConcat(bs[0].coins, AllCoins(bs[1..]), COIN_SIZE);
    }
  }

  lemma KeysDistinct(coins: seq<Coin>)
    ensures Distinct(KeysInOrder(coins))
  {
    if coins != [] {
      KeysDistinct(coins[..|coins| - 1]);
    }
  }

  /* The coins of the keys in ks, key by key. */
  function Grouped(coins: seq<Coin>, ks: seq<nat>): seq<Coin>
  {
    if ks == [] then [] else OfKey(coins, ks[0]) + Grouped(coins, ks[1..])
  }

  lemma {:induction false} GroupedAppend(coins: seq<Coin>, c: Coin, ks: seq<nat>)
    requires Distinct(ks)
    ensures multiset(Grouped(coins + [c], ks))
            == multiset(Grouped(coins, ks)) + if c.key in ks then multiset{c} else multiset{}
  {
    if ks != [] {
      assert ks == [ks[0]] + ks[1..];
      assert forall j :: 0 < j < |ks| ==> ks[j] != ks[0];
      OfKeyAppend(coins, c, ks[0]);
      GroupedAppend(coins, c, ks[1..]);
    }
  }

  lemma {:induction false} GroupedNewKey(coins: seq<Coin>, ks: seq<nat>, k: nat)
    ensures Grouped(coins, ks + [k]) == Grouped(coins, ks) + OfKey(coins, k)
  {
    if ks == [] {
      assert [k][1..] == [];
    } else {
      GroupedNewKey(coins, ks[1..], k);
      assert (ks + [k])[1..] == ks[1..] + [k];
      assert OfKey(coins, ks[0]) + (Grouped(coins, ks[1..]) + OfKey(coins, k))
          == (OfKey(coins, ks[0]) + Grouped(coins, ks[1..])) + OfKey(coins, k);
    }
  }

  lemma {:induction false} GroupedAll(coins: seq<Coin>)
    ensures multiset(Grouped(coins, KeysInOrder(coins))) == multiset(coins)
  {
    if coins != [] {
      var n := |coins| - 1;
      var pre, c := coins[..n], coins[n];
      var keys := KeysInOrder(pre);
      assert coins == pre + [c];
      GroupedAll(pre);
      KeysDistinct(pre);
      GroupedAppend(pre, c, keys);
      if c.key !in keys {
        GroupedNewKey(coins, keys, c.key);
        OfKeyAppend(pre, c, c.key);
        KeyAbsent(pre, c.key);
      }
    }
  }

  lemma {:induction false} BucketsGrouped(coins: seq<Coin>, ks: seq<nat>, bs: seq<Bucket>)
    requires |bs| == |ks| && forall i :: 0 <= i < |ks| ==> bs[i].coins == OfKey(coins, ks[i])
    ensures AllCoins(bs) == Grouped(coins, ks)
  {
    if ks != [] {
      BucketsGrouped(coins, ks[1..], bs[1..]);
    }
  }

  /* Bucketizing loses and duplicates no coin. */
  lemma BucketsPartition(coins: seq<Coin>)
    ensures multiset(AllCoins(Buckets(coins))) == multiset(coins)
    ensures forall i :: 0 <= i < |Buckets(coins)| ==> WellMade(Buckets(coins)[i])
    ensures Total(Buckets(coins), BUCKET_VALUE) == Total(coins, COIN_VALUE)
  {
    BucketsGrouped(coins, KeysInOrder(coins), Buckets(coins));
    GroupedAll(coins);
    AllCoinsTotals(Buckets(coins));
    TotalPermutation(AllCoins(Buckets(coins)), coins, COIN_VALUE);
  }

  lemma {:induction false} OfKeyHolds(coins: seq<Coin>, key: nat, c: Coin)
    ensures c in OfKey(coins, key) <==> c in coins && c.key == key
  {
    if coins != [] {
      var n := |coins| - 1;
      OfKeyHolds(coins[..n], key, c);
      assert coins == coins[..n] + [coins[n]];
    }
  }

  /* A bucket holds exactly the coins of the key it is named after, and no two have one name. */
  lemma BucketHolds(coins: seq<Coin>, i: nat, c: Coin)
    requires i < |Buckets(coins)|
    ensures c in Buckets(coins)[i].coins <==> c in coins && c.key == Buckets(coins)[i].desc
    ensures forall j :: 0 <= j < |Buckets(coins)| && j != i ==> Buckets(coins)[j].desc != Buckets(coins)[i].desc
  {
    OfKeyHolds(coins, KeysInOrder(coins)[i], c);
    KeysDistinct(coins);
  }

  // ------------------------------------------------------------------------ sufficient funds

  /* What a selection has to pay: the outputs and the fee for the size it reaches. */
  datatype Need = Need(spent: int, baseSize: nat, fee: nat -> int)

  function TotalSize(bs: seq<Bucket>): (r: nat)
  {
    TotalNonNegative(bs, BUCKET_SIZE);
    Total(bs, BUCKET_SIZE)
  }

  predicate Sufficient(need: Need, bs: seq<Bucket>)
  {
    Total(bs, BUCKET_VALUE) >= need.spent + need.fee(TotalSize(bs) + need.baseSize)
  }

  /* In plain sums: the values of the buckets cover what is spent and the fee for all the sizes. */
  lemma SufficientIs(need: Need, bs: seq<Bucket>, values: seq<int>, sizes: seq<int>)
    requires |values| == |sizes| == |bs|
    requires forall i :: 0 <= i < |bs| ==> values[i] == bs[i].value && sizes[i] == bs[i].size
    ensures SumSeq(sizes) >= 0
    ensures Sufficient(need, bs) <==> SumSeq(values) >= need.spent + need.fee(need.baseSize + SumSeq(sizes))
  {
    TotalIsSum(bs, BUCKET_VALUE, values);
    TotalIsSum(bs, BUCKET_SIZE, sizes);
    TotalNonNegative(bs, BUCKET_SIZE);
  }

  lemma SufficientPermutation(need: Need, a: seq<Bucket>, b: seq<Bucket>)
    requires multiset(a) == multiset(b)
    ensures Sufficient(need, a) == Sufficient(need, b)
  {
    TotalPermutation(a, b, BUCKET_VALUE);
    TotalPermutation(a, b, BUCKET_SIZE);
  }

  /* The loop stops at the first place where one more bucket cannot go; if it could go on to the
     end, nothing is dropped. */
  ghost predicate StopsAt(need: Need, sorted: seq<Bucket>, i: nat)
  {
    && i <= |sorted|
    && (forall j :: 0 < j <= i ==> Sufficient(need, sorted[j..]))
    && (if i < |sorted| && !Sufficient(need, sorted[i + 1..]) then true
        else i == 0 && forall j :: 0 < j <= |sorted| ==> Sufficient(need, sorted[j..]))
  }

  /* The suffix the loop returns when it has come to position i. */
  function StripFrom(need: Need, sorted: seq<Bucket>, i: nat): seq<Bucket>
    requires i <= |sorted|
    decreases |sorted| - i
  {
    if i == |sorted| then sorted
    else if !Sufficient(need, sorted[i + 1..]) then sorted[i..]
    else StripFrom(need, sorted, i + 1)
  }

  function StripOf(need: Need, bkts: seq<Bucket>): seq<Bucket>
  {
    StripFrom(need, SortBy(bkts, BUCKET_VALUE), 0)
  }

  lemma {:induction false} StripStops(need: Need, sorted: seq<Bucket>, i: nat) returns (at: nat)
    requires i <= |sorted| && forall j :: 0 < j <= i ==> Sufficient(need, sorted[j..])
    ensures StopsAt(need, sorted, at) && StripFrom(need, sorted, i) == sorted[at..]
    decreases |sorted| - i
  {
    hide Sufficient;
    if i == |sorted| {
      at := 0;
      assert sorted[0..] == sorted;
    } else if !Sufficient(need, sorted[i + 1..]) {
      at := i;
    } else {
      at := StripStops(need, sorted, i + 1);
    }
  }

  /* Dropping the cheapest buckets while the rest still suffices. */
  method StripUnneeded(bkts: seq<Bucket>, need: Need) returns (r: seq<Bucket>)
    ensures r == StripOf(need, bkts)
  {
    hide Sufficient, SortBy;
    var sorted := SortBy(bkts, BUCKET_VALUE);
    for i := 0 to |sorted|
      invariant StripOf(need, bkts) == StripFrom(need, sorted, i)
    {
      if !Sufficient(need, sorted[i + 1..]) {
        return sorted[i..];
      }
    }
    return sorted;
  }

  /* What stripping promises of a sufficient selection. */
  ghost predicate WellStripped(need: Need, bkts: seq<Bucket>, r: seq<Bucket>)
  {
    && Sufficient(need, r) && multiset(r) <= multiset(bkts) && SortedBy(r, BUCKET_VALUE)
    && (!Sufficient(need, []) ==> r != [] && !Sufficient(need, r[1..]))
  }

  lemma SuffixMultiset<T>(s: seq<T>, i: nat)
    requires i <= |s|
    ensures multiset(s[i..]) <= multiset(s)
  {
    assert s == s[..i] + s[i..];
  }

  /* Sufficiency is kept, and without the cheapest bucket left the funds no longer suffice. */
  lemma StripKeeps(need: Need, bkts: seq<Bucket>, i: nat)
    requires Sufficient(need, bkts)
    requires StopsAt(need, SortBy(bkts, BUCKET_VALUE), i)
    ensures WellStripped(need, bkts, SortBy(bkts, BUCKET_VALUE)[i..])
  {
    hide Sufficient, SortBy;
    var sorted := SortBy(bkts, BUCKET_VALUE);
    SortBySorts(bkts, BUCKET_VALUE);
    SufficientPermutation(need, sorted, bkts);
    SuffixMultiset(sorted, i);
    assert sorted[0..] == sorted;
    assert sorted[|sorted|..] == [];
    if i < |sorted| {
      assert sorted[i..][1..] == sorted[i + 1..];
    }
  }

  /* With a fee that does not depend on size, no bucket at all can be dropped. */
  lemma StripMinimal(need: Need, bkts: seq<Bucket>, r: seq<Bucket>, j: nat)
    requires WellStripped(need, bkts, r) && !Sufficient(need, [])
    requires forall a, b :: need.fee(a) == need.fee(b)
    requires j < |r|
    ensures !Sufficient(need, r[..j] + r[j + 1..])
  {
    var rest := r[..j] + r[j + 1..];
    TotalSplit(r, j, BUCKET_VALUE);
    assert r == [r[0]] + r[1..];
    assert BUCKET_VALUE(r[0]) <= BUCKET_VALUE(r[j]);
    assert need.fee(TotalSize(rest) + need.baseSize) == need.fee(TotalSize(r[1..]) + need.baseSize);
  }

  // ------------------------------------------------------------------------------ candidates

  ghost predicate Indexes(p: seq<nat>, n: nat)
  {
    forall i :: 0 <= i < |p| ==> p[i] < n
  }

  function Pick(bs: seq<Bucket>, p: seq<nat>): (r: seq<Bucket>)
    requires Indexes(p, |bs|)
    ensures |r| == |p| && forall i :: 0 <= i < |p| ==> r[i] == bs[p[i]]
  {
    seq(|p|, i requires 0 <= i < |p| => bs[p[i]])
  }

  function Range(n: nat): (r: seq<nat>)
    ensures |r| == n && Indexes(r, n) && forall i :: 0 <= i < n ==> r[i] == i
  {
    seq(n, i => i)
  }

  lemma {:induction false} PickSame(bs: seq<Bucket>, p: seq<nat>, q: seq<nat>)
    requires Indexes(p, |bs|) && Indexes(q, |bs|) && multiset(p) == multiset(q)
    ensures multiset(Pick(bs, p)) == multiset(Pick(bs, q))
    decreases |p|
  {
    if p == [] {
      assert |multiset(q)| == |multiset(p)|;
    } else {
      var i := MatchFirst(p, q);
      PickSame(bs, p[1..], q[..i] + q[i + 1..]);
      PickFirst(bs, p);
      PickRemove(bs, q, i);
    }
  }

  lemma PickFirst(bs: seq<Bucket>, p: seq<nat>)
    requires Indexes(p, |bs|) && p != []
    ensures multiset(Pick(bs, p)) == multiset(Pick(bs, p[1..])) + multiset{bs[p[0]]}
  {
    hide Pick;
    PickRemove(bs, p, 0);
    assert p[..0] + p[1..] == p[1..];
  }

  lemma PickRemove(bs: seq<Bucket>, p: seq<nat>, i: nat)
    requires Indexes(p, |bs|) && i < |p|
    ensures multiset(Pick(bs, p)) == multiset(Pick(bs, p[..i] + p[i + 1..])) + multiset{bs[p[i]]}
  {
    var r := Pick(bs, p);
    assert r == r[..i] + [r[i]] + r[i + 1..];
    assert Pick(bs, p[..i] + p[i + 1..]) == r[..i] + r[i + 1..];
  }

  lemma PermutationIndexes(p: seq<nat>, n: nat)
    requires multiset(p) == multiset(Range(n))
    ensures Indexes(p, n) && |p| == n
  {
    assert |multiset(p)| == |multiset(Range(n))|;
    forall i | 0 <= i < |p| ensures p[i] < n {
      assert p[i] in multiset(Range(n));
    }
  }

  /* A prefix of a permutation picks no bucket twice, and the whole of it picks them all. */
  lemma PrefixPicks(bs: seq<Bucket>, p: seq<nat>, k: nat)
    requires multiset(p) == multiset(Range(|bs|)) && k <= |p|
    ensures Indexes(p[..k], |bs|) && multiset(Pick(bs, p[..k])) <= multiset(bs)
    ensures k == |bs| ==> multiset(Pick(bs, p[..k])) == multiset(bs)
  {
    PermutationIndexes(p, |bs|);
    PickSame(bs, p, Range(|bs|));
    assert Pick(bs, Range(|bs|)) == bs;
    var r := Pick(bs, p);
    assert Pick(bs, p[..k]) == r[..k];
    assert r == r[..k] + r[k..];
    if k == |bs| { assert p[..k] == p; }
  }

  /* A candidate: a set of bucket indexes, no bucket twice, that suffices. */
  ghost predicate Candidate(need: Need, bs: seq<Bucket>, p: seq<nat>)
  {
    Indexes(p, |bs|) && multiset(Pick(bs, p)) <= multiset(bs) && Sufficient(need, Pick(bs, p))
  }

  lemma SortedCandidate(need: Need, bs: seq<Bucket>, p: seq<nat>)
    requires Candidate(need, bs, p)
    ensures Candidate(need, bs, SortBy(p, ITSELF))
  {
    var q := SortBy(p, ITSELF);
    SortBySorts(p, ITSELF);
    forall i | 0 <= i < |q| ensures q[i] < |bs| {
      assert q[i] in multiset(p);
    }
    PickSame(bs, p, q);
    SufficientPermutation(need, Pick(bs, p), Pick(bs, q));
  }

  /* What combining the buckets of a permutation finds, once count of them did not suffice. */
  function FoundFrom(need: Need, bs: seq<Bucket>, permutation: seq<nat>, count: nat): Option<seq<nat>>
    requires Indexes(permutation, |bs|) && count <= |permutation|
    decreases |permutation| - count
  {
    if count == |permutation| then None
    else
      assert Indexes(permutation[..count + 1], |bs|);
      if Sufficient(need, Pick(bs, permutation[..count + 1]))
      then Some(SortBy(permutation[..count + 1], ITSELF))
      else FoundFrom(need, bs, permutation, count + 1)
  }

  ghost predicate PrefixSuffices(need: Need, bs: seq<Bucket>, permutation: seq<nat>, k: nat)
    requires Indexes(permutation, |bs|) && k <= |permutation|
  {
    assert Indexes(permutation[..k], |bs|);
    Sufficient(need, Pick(bs, permutation[..k]))
  }

  /* What is found is the shortest prefix that suffices; nothing is found when none does. */
  lemma {:induction false} FoundShortest(need: Need, bs: seq<Bucket>, permutation: seq<nat>, count: nat)
    requires Indexes(permutation, |bs|) && count <= |permutation|
    ensures var found := FoundFrom(need, bs, permutation, count);
            && (found.None? ==>
                  forall k :: count < k <= |permutation| ==> !PrefixSuffices(need, bs, permutation, k))
            && (found.Some? ==>
                  exists k :: && count < k <= |permutation| && PrefixSuffices(need, bs, permutation, k)
                              && found.value == SortBy(permutation[..k], ITSELF)
                              && forall j :: count < j < k ==> !PrefixSuffices(need, bs, permutation, j))
    decreases |permutation| - count
  {
    hide Sufficient, SortBy, Pick;
    if count < |permutation| {
      assert PrefixSuffices(need, bs, permutation, count + 1)
        <==> Sufficient(need, Pick(bs, permutation[..count + 1]));
      if !PrefixSuffices(need, bs, permutation, count + 1) {
        FoundShortest(need, bs, permutation, count + 1);
      }
    }
  }

  /* Nothing is found only when all buckets together do not suffice. */
  lemma {:induction false} FoundIsCandidate(need: Need, bs: seq<Bucket>, permutation: seq<nat>, count: nat)
    requires multiset(permutation) == multiset(Range(|bs|)) && count <= |permutation|
    ensures Indexes(permutation, |bs|)
    ensures var found := FoundFrom(need, bs, permutation, count);
            && (found.Some? ==> Candidate(need, bs, found.value))
            && (found.None? && count < |bs| ==> !Sufficient(need, bs))
    decreases |permutation| - count
  {
    hide Sufficient, SortBy;
    PermutationIndexes(permutation, |bs|);
    if count < |permutation| {
      PrefixPicks(bs, permutation, count + 1);
      if Sufficient(need, Pick(bs, permutation[..count + 1])) {
        SortedCandidate(need, bs, permutation[..count + 1]);
      } else {
        FoundIsCandidate(need, bs, permutation, count + 1);
        if count + 1 == |bs| { SufficientPermutation(need, Pick(bs, permutation[..count + 1]), bs); }
      }
    }
  }

  /* One attempt: combine the buckets of a permutation until they suffice. */
  method Attempt(need: Need, bs: seq<Bucket>, permutation: seq<nat>) returns (found: Option<seq<nat>>)
    requires Indexes(permutation, |bs|)
    ensures found == FoundFrom(need, bs, permutation, 0)
  {
    hide Sufficient, SortBy;
    var bkts: seq<Bucket> := [];
    for count := 0 to |permutation|
      invariant bkts == Pick(bs, permutation[..count])
      invariant FoundFrom(need, bs, permutation, 0) == FoundFrom(need, bs, permutation, count)
    {
      bkts := bkts + [bs[permutation[count]]];
      assert bkts == Pick(bs, permutation[..count + 1]);
      if Sufficient(need, bkts) {
        return Some(SortBy(permutation[..count + 1], ITSELF));
      }
    }
    return None;
  }

  function Singles(need: Need, bs: seq<Bucket>): set<seq<nat>>
  {
    set n | 0 <= n < |bs| && Sufficient(need, [bs[n]]) :: [n]
  }

  lemma SinglesAreCandidates(need: Need, bs: seq<Bucket>)
    ensures Candidates(need, bs, Singles(need, bs))
  {
    forall c | c in Singles(need, bs) ensures Candidate(need, bs, c) {
      SingleCandidate(need, bs, c[0]);
    }
  }

  lemma SingleCandidate(need: Need, bs: seq<Bucket>, n: nat)
    requires n < |bs| && Sufficient(need, [bs[n]])
    ensures Candidate(need, bs, [n])
  {
    hide Sufficient;
    assert Pick(bs, [n]) == [bs[n]];
    assert bs[n] in multiset(bs);
  }

  lemma PermutationSize(p: seq<nat>, n: nat)
    requires multiset(p) == multiset(Range(n))
    ensures |p| == n
  {
    PermutationIndexes(p, n);
  }

  method Singletons(need: Need, bs: seq<Bucket>) returns (candidates: set<seq<nat>>)
    ensures candidates == Singles(need, bs)
  {
    hide Sufficient;
    candidates := {};
    for n := 0 to |bs|
      invariant candidates == set i | 0 <= i < n && Sufficient(need, [bs[i]]) :: [i]
    {
      if Sufficient(need, [bs[n]]) {
        candidates := candidates + {[n]};
      }
    }
  }

  /* What every chosen selection satisfies. */
  ghost predicate Selection(need: Need, bs: seq<Bucket>, r: seq<Bucket>)
  {
    && Sufficient(need, r) && multiset(r) <= multiset(bs)
    && (!Sufficient(need, []) ==> r != [] && !Sufficient(need, r[1..]))
  }

  ghost predicate Candidates(need: Need, bs: seq<Bucket>, cs: set<seq<nat>>)
  {
    forall c :: c in cs ==> Candidate(need, bs, c)
  }

  function AttemptCount(n: nat): nat
  {
    if n == 0 then 0 else Min(100, (n - 1) * 10 + 1)
  }

  /* One attempt for one bucket, ten more for every other one, and never more than a hundred. */
  lemma AttemptsGrow(n: nat)
    ensures AttemptCount(0) == 0 && AttemptCount(1) == 1
    ensures 0 < n < 10 ==> AttemptCount(n + 1) == AttemptCount(n) + 10
    ensures n > 10 ==> AttemptCount(n) == 100
  {}

  /* The candidates after so many more attempts, each with the next shuffle of the stream; None
     when an attempt finds nothing. */
  ghost function AttemptsAt(need: Need, bs: seq<Bucket>, s: Stream, at: nat, permutation: seq<nat>,
                            known: set<seq<nat>>, attempts: nat): Option<set<seq<nat>>>
    requires Blocks(s) && multiset(permutation) == multiset(Range(|bs|))
    decreases attempts
  {
    if attempts == 0 then Some(known)
    else
      var next := ShuffledAt(s, at, permutation);
      PermutationIndexes(next, |bs|);
      match FoundFrom(need, bs, next, 0)
      case None => None
      case Some(c) =>
        AttemptsAt(need, bs, s, at + ShuffleBytes(|bs|), next, known + {c}, attempts - 1)
  }

  function ShuffleBytes(n: nat): nat
  {
    SwapBytes(n, Swaps(n))
  }

  /* The bytes that so many shuffles of n elements take. */
  function AttemptsBytes(n: nat, attempts: nat): nat
  {
    if attempts == 0 then 0 else AttemptsBytes(n, attempts - 1) + ShuffleBytes(n)
  }

  lemma NoAttempt(need: Need, bs: seq<Bucket>, s: Stream, at: nat, permutation: seq<nat>, known: set<seq<nat>>)
    requires Blocks(s) && multiset(permutation) == multiset(Range(|bs|))
    ensures AttemptsAt(need, bs, s, at, permutation, known, 0) == Some(known)
  {}

  lemma NextAttempt(need: Need, bs: seq<Bucket>, s: Stream, at: nat, permutation: seq<nat>,
                    known: set<seq<nat>>, attempts: nat)
    requires Blocks(s) && multiset(permutation) == multiset(Range(|bs|)) && attempts > 0
    ensures var next := ShuffledAt(s, at, permutation);
            && Indexes(next, |bs|)
            && AttemptsAt(need, bs, s, at, permutation, known, attempts)
               == match FoundFrom(need, bs, next, 0)
                  case None => None
                  case Some(c) => AttemptsAt(need, bs, s, at + ShuffleBytes(|bs|), next, known + {c}, attempts - 1)
  {
    PermutationIndexes(ShuffledAt(s, at, permutation), |bs|);
  }

  /* The candidates a seed stands for, from a position of its stream on. */
  ghost function CandidatesAt(need: Need, bs: seq<Bucket>, s: Stream, at: nat): Option<set<seq<nat>>>
    requires Blocks(s)
  {
    AttemptsAt(need, bs, s, at, Range(|bs|), Singles(need, bs), AttemptCount(|bs|))
  }

  lemma {:induction false} AttemptsAreCandidates(need: Need, bs: seq<Bucket>, s: Stream, at: nat, permutation: seq<nat>,
                                                 known: set<seq<nat>>, attempts: nat)
    requires Blocks(s) && multiset(permutation) == multiset(Range(|bs|)) && Candidates(need, bs, known)
    ensures var r := AttemptsAt(need, bs, s, at, permutation, known, attempts);
            && (r.Some? ==> Candidates(need, bs, r.value) && known <= r.value && (attempts > 0 ==> r.value != {}))
            && (r.None? && bs != [] ==> !Sufficient(need, bs))
    decreases attempts
  {
    hide Sufficient, Candidate, FoundFrom, ShuffledAt, Pick;
    if attempts > 0 {
      var next := ShuffledAt(s, at, permutation);
      FoundIsCandidate(need, bs, next, 0);
      PermutationIndexes(next, |bs|);
      var found := FoundFrom(need, bs, next, 0);
      if found.Some? {
        AttemptsAreCandidates(need, bs, s, at + ShuffleBytes(|bs|), next, known + {found.value}, attempts - 1);
        assert found.value in known + {found.value};
      }
    }
  }

  /* Every candidate of a seed is a sufficient set of different buckets; there are candidates
     whenever all buckets together suffice. */
  lemma CandidatesSuffice(need: Need, bs: seq<Bucket>, s: Stream, at: nat)
    requires Blocks(s)
    ensures var r := CandidatesAt(need, bs, s, at);
            && (r.Some? ==> Candidates(need, bs, r.value))
            && (Sufficient(need, bs) && bs != [] ==> r.Some? && r.value != {})
            && (r.None? ==> bs != [] && !Sufficient(need, bs))
            && (r == Some({}) ==> bs == [])
  {
    SinglesAreCandidates(need, bs);
    AttemptsAreCandidates(need, bs, s, at, Range(|bs|), Singles(need, bs), AttemptCount(|bs|));
  }

  /* The random attempts; one that finds nothing ends the search. */
  method Attempts(bs: seq<Bucket>, need: Need, p: Prng, known: set<seq<nat>>)
    returns (r: Result<set<seq<nat>>, ChooserError>)
    requires p.Valid()
    modifies p
    ensures p.Valid()
    ensures var found := AttemptsAt(need, bs, p.stream, old(p.served), Range(|bs|), known, AttemptCount(|bs|));
            r == if found.Some? then Ok(found.value) else Err(NotEnoughFunds)
    ensures r.Ok? ==> p.served == old(p.served) + AttemptsBytes(|bs|, AttemptCount(|bs|))
  {
    hide FoundFrom, ShuffledAt, SwapBytes, AttemptsAt, Blocks, Sufficient, Prefix, Chain;
    var candidates := known;
    var permutation := new nat[|bs|](i => i);
    assert permutation[..] == Range(|bs|);
    for i := 0 to AttemptCount(|bs|)
      invariant p.Valid() && multiset(permutation[..]) == multiset(Range(|bs|))
      invariant p.served == old(p.served) + AttemptsBytes(|bs|, i)
      invariant AttemptsAt(need, bs, p.stream, old(p.served), Range(|bs|), known, AttemptCount(|bs|))
                == AttemptsAt(need, bs, p.stream, p.served, permutation[..], candidates, AttemptCount(|bs|) - i)
    {
      NextAttempt(need, bs, p.stream, p.served, permutation[..], candidates, AttemptCount(|bs|) - i);
      PermutationSize(permutation[..], |bs|);
      p.Shuffle(permutation);
      var found := Attempt(need, bs, permutation[..]);
      if found.None? {
        return Err(NotEnoughFunds);
      }
      candidates := candidates + {found.value};
    }
    NoAttempt(need, bs, p.stream, p.served, permutation[..], candidates);
    return Ok(candidates);
  }

  lemma StrippedSelection(need: Need, bs: seq<Bucket>, c: seq<nat>)
    requires Candidate(need, bs, c)
    ensures Selection(need, bs, StripOf(need, Pick(bs, c)))
  {
    hide SortBy, StripFrom;
    var at := StripStops(need, SortBy(Pick(bs, c), BUCKET_VALUE), 0);
    StripKeeps(need, Pick(bs, c), at);
  }

  /* A listing of the candidates, in whatever order a set is iterated. */
  ghost predicate Lists(order: seq<seq<nat>>, candidates: set<seq<nat>>)
  {
    Distinct(order) && forall c :: c in order <==> c in candidates
  }

  function Stripped(need: Need, bs: seq<Bucket>, order: seq<seq<nat>>): (r: seq<seq<Bucket>>)
    requires forall c :: c in order ==> Indexes(c, |bs|)
    ensures |r| == |order| && forall i :: 0 <= i < |r| ==> r[i] == StripOf(need, Pick(bs, order[i]))
  {
    seq(|order|, i requires 0 <= i < |order| => assert order[i] in order; StripOf(need, Pick(bs, order[i])))
  }

  /* The stripped candidates of the seed, each once. */
  method BucketCandidates(bs: seq<Bucket>, need: Need, p: Prng)
    returns (r: Result<seq<seq<Bucket>>, ChooserError>, ghost order: seq<seq<nat>>)
    requires p.Valid()
    modifies p
    ensures p.Valid()
    ensures CandidatesAt(need, bs, p.stream, old(p.served)).None? <==> r.Err?
    ensures r.Err? ==> r.error == NotEnoughFunds
    ensures r.Ok? ==>
              && p.served == old(p.served) + AttemptsBytes(|bs|, AttemptCount(|bs|))
              && Lists(order, CandidatesAt(need, bs, p.stream, old(p.served)).value)
              && (forall c :: c in order ==> Candidate(need, bs, c))
              && r.value == Stripped(need, bs, order)
  {
    hide AttemptsAt, Sufficient, StripOf, Pick, SwapBytes;
    order := [];
    var singles := Singletons(need, bs);
    CandidatesSuffice(need, bs, p.stream, p.served);
    var found := Attempts(bs, need, p, singles);
    if found.Err? {
      return Err(found.error), order;
    }
    var candidates, result: seq<seq<Bucket>> := found.value, [];
    ghost var served := p.served;
    while candidates != {}
      invariant p.Valid() && p.served == served
      invariant candidates <= found.value && Lists(order, found.value - candidates)
      invariant result == Stripped(need, bs, order)
      decreases candidates
    {
      var c :| c in candidates;
      candidates := candidates - {c};
      var stripped := StripUnneeded(Pick(bs, c), need);
      AppendDistinct(order, c);
      order := order + [c];
      result := result + [stripped];
    }
    return Ok(result), order;
  }

  /* Like min: the first of the candidates with the least penalty. */
  method LeastPenalty(candidates: seq<seq<Bucket>>, penalty: seq<Bucket> -> real) returns (winner: nat)
    requires candidates != []
    ensures winner < |candidates|
    ensures forall j :: 0 <= j < |candidates| ==> penalty(candidates[winner]) <= penalty(candidates[j])
    ensures forall j :: 0 <= j < winner ==> penalty(candidates[winner]) < penalty(candidates[j])
  {
    winner := 0;
    for i := 1 to |candidates|
      invariant winner < i
      invariant forall j :: 0 <= j < i ==> penalty(candidates[winner]) <= penalty(candidates[j])
      invariant forall j :: 0 <= j < winner ==> penalty(candidates[winner]) < penalty(candidates[j])
    {
      if penalty(candidates[i]) < penalty(candidates[winner]) {
        winner := i;
      }
    }
  }

  /* The selection is the first of least penalty among the stripped candidates of the seed. */
  ghost predicate ChosenAt(need: Need, bs: seq<Bucket>, penalty: seq<Bucket> -> real, s: Stream, at: nat,
                           chosen: seq<Bucket>)
    requires Blocks(s)
  {
    exists order, w :: ChosenFrom(need, bs, penalty, s, at, chosen, order, w)
  }

  ghost predicate ChosenFrom(need: Need, bs: seq<Bucket>, penalty: seq<Bucket> -> real, s: Stream, at: nat,
                             chosen: seq<Bucket>, order: seq<seq<nat>>, w: nat)
    requires Blocks(s)
  {
    && CandidatesAt(need, bs, s, at).Some? && Lists(order, CandidatesAt(need, bs, s, at).value)
    && (forall c :: c in order ==> Candidate(need, bs, c))
    && var all := Stripped(need, bs, order);
       && w < |all| && all[w] == chosen
       && (forall j :: 0 <= j < |all| ==> penalty(chosen) <= penalty(all[j]))
       && (forall j :: 0 <= j < w ==> penalty(chosen) < penalty(all[j]))
  }

  method ChooseBuckets(bs: seq<Bucket>, need: Need, penalty: seq<Bucket> -> real, p: Prng)
    returns (r: Result<seq<Bucket>, ChooserError>)
    requires p.Valid()
    modifies p
    ensures p.Valid()
    ensures match r
            case Err(NotEnoughFunds) => CandidatesAt(need, bs, p.stream, old(p.served)).None?
            case Err(NoBuckets) => bs == []
            case Ok(chosen) =>
              && ChosenAt(need, bs, penalty, p.stream, old(p.served), chosen)
              && p.served == old(p.served) + AttemptsBytes(|bs|, AttemptCount(|bs|))
  {
    hide CandidatesAt, Stripped, SwapBytes;
    CandidatesSuffice(need, bs, p.stream, p.served);
    var candidates, order := BucketCandidates(bs, need, p);
    if candidates.Err? {
      return Err(candidates.error);
    }
    if candidates.value == [] {
      NoneListed(order, CandidatesAt(need, bs, p.stream, old(p.served)).value);
      return Err(NoBuckets);
    }
    var winner := LeastPenalty(candidates.value, penalty);
    assert ChosenFrom(need, bs, penalty, p.stream, old(p.served), candidates.value[winner], order, winner);
    return Ok(candidates.value[winner]);
  }

  lemma NoneListed(order: seq<seq<nat>>, candidates: set<seq<nat>>)
    requires Lists(order, candidates) && order == []
    ensures candidates == {}
  {
    forall c ensures c !in candidates {
      assert c in order <==> c in candidates;
    }
  }

  /* A chosen selection suffices, is stripped, and some seeds' worth of shuffles always finds one
     when all buckets together suffice. */
  lemma ChosenIsSelection(need: Need, bs: seq<Bucket>, penalty: seq<Bucket> -> real, s: Stream, at: nat,
                          chosen: seq<Bucket>)
    requires Blocks(s) && ChosenAt(need, bs, penalty, s, at, chosen)
    ensures Selection(need, bs, chosen)
  {
    hide CandidatesAt, Selection, StripOf, Pick, Candidate;
    var order, w :| ChosenFrom(need, bs, penalty, s, at, chosen, order, w);
    assert order[w] in order;
    StrippedSelection(need, bs, order[w]);
  }

  /* The same seed always gives the same penalty, and the same selection unless two candidates
     tie for the least. */
  lemma ChoiceDetermined(need: Need, bs: seq<Bucket>, penalty: seq<Bucket> -> real, s: Stream, at: nat,
                         a: seq<Bucket>, b: seq<Bucket>)
    requires Blocks(s) && ChosenAt(need, bs, penalty, s, at, a) && ChosenAt(need, bs, penalty, s, at, b)
    ensures penalty(a) == penalty(b)
    ensures NoTies(need, bs, penalty, s, at) ==> a == b
  {
    hide CandidatesAt, Sufficient, StripOf, Pick;
    var order1, w1 :| ChosenFrom(need, bs, penalty, s, at, a, order1, w1);
    var order2, w2 :| ChosenFrom(need, bs, penalty, s, at, b, order2, w2);
    assert order1[w1] in order1 && order2[w2] in order2;
    assert order1[w1] in order2 && order2[w2] in order1;
    var all1, all2 := Stripped(need, bs, order1), Stripped(need, bs, order2);
    var i :| 0 <= i < |order2| && order2[i] == order1[w1];
    var j :| 0 <= j < |order1| && order1[j] == order2[w2];
    assert all2[i] == a && all1[j] == b;
    assert StrippedCandidate(need, bs, s, at, a) && StrippedCandidate(need, bs, s, at, b);
  }

  ghost predicate NoTies(need: Need, bs: seq<Bucket>, penalty: seq<Bucket> -> real, s: Stream, at: nat)
    requires Blocks(s)
  {
    forall c, d :: (&& StrippedCandidate(need, bs, s, at, c) && StrippedCandidate(need, bs, s, at, d)
                    && penalty(c) == penalty(d)) ==> c == d
  }

  ghost predicate StrippedCandidate(need: Need, bs: seq<Bucket>, s: Stream, at: nat, r: seq<Bucket>)
    requires Blocks(s)
  {
    && CandidatesAt(need, bs, s, at).Some?
    && exists c :: c in CandidatesAt(need, bs, s, at).value && Indexes(c, |bs|) && StripOf(need, Pick(bs, c)) == r
  }
}
