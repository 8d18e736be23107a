/**
 The deterministic generator of electrumsv/coinchooser.py: a pool of bytes refilled by a chain of
 hashes, integers drawn from it, and the in-place shuffle. Every result is a function of the seed
 and of how many bytes were taken before.
 */
module Generator {
  import opened Arith
  import opened Digits
  import opened Hashing
  import opened Sorting

  /* What a seed makes of the generator: a hash and the first block. */
  datatype Stream = Stream(hash: Hash, first: seq<byte>)

  ghost predicate Blocks(s: Stream)
  {
    HashSize(s.hash, 32) && |s.first| == 32
  }

  function Seeded(h: Hash, seed: seq<byte>): Stream
  {
    Stream(h, h(seed))
  }

  /* The hash applied k times. */
  function Chain(s: Stream, k: nat): seq<byte>
  {
    if k == 0 then s.first else s.hash(Chain(s, k - 1))
  }

  /* The first k blocks of the stream. */
  function Prefix(s: Stream, k: nat): seq<byte>
  {
    if k == 0 then [] else Prefix(s, k - 1) + Chain(s, k - 1)
  }

  lemma {:induction false} PrefixSize(s: Stream, k: nat)
    requires Blocks(s)
    ensures |Chain(s, k)| == 32 && |Prefix(s, k)| == 32 * k
  {
    if k > 0 { PrefixSize(s, k - 1); }
  }

  lemma {:induction false} PrefixGrows(s: Stream, a: nat, b: nat)
    requires a <= b
    ensures Prefix(s, a) <= Prefix(s, b)
    decreases b - a
  {
    if a < b { PrefixGrows(s, a, b - 1); }
  }

  /* The n bytes of the stream from a position on. */
  ghost function Served(s: Stream, at: nat, n: nat): (r: seq<byte>)
    requires Blocks(s)
    ensures |r| == n
  {
    PrefixSize(s, at + n);
    Prefix(s, at + n)[at..at + n]
  }

  /* They are the same in every prefix that is long enough. */
  lemma ServedIs(s: Stream, k: nat, at: nat, n: nat)
    requires Blocks(s) && at + n <= |Prefix(s, k)|
    ensures Prefix(s, k)[at..at + n] == Served(s, at, n)
  {
    PrefixSize(s, at + n);
    if k <= at + n {
      PrefixGrows(s, k, at + n);
    } else {
      PrefixGrows(s, at + n, k);
    }
  }

  lemma ServedConcat(s: Stream, at: nat, n: nat, m: nat)
    requires Blocks(s)
    ensures Served(s, at, n) + Served(s, at + n, m) == Served(s, at, n + m)
  {
    var p := Prefix(s, at + n + m);
    PrefixSize(s, at + n + m);
    ServedIs(s, at + n + m, at, n);
    ServedIs(s, at + n + m, at + n, m);
    assert p[at..at + n] + p[at + n..at + n + m] == p[at..at + n + m];
  }

  /* The number of bytes that randint draws: as many as it takes to reach the range. */
  function DrawSize(p: nat, n: nat): nat
    requires p > 0
    decreases n - p
  {
    if p >= n then 0 else 1 + DrawSize(256 * p, n)
  }

  /* The number randint gives for a range, when drawn at a position. */
  ghost function IntAt(s: Stream, at: nat, start: int, end: int): (x: int)
    requires Blocks(s) && start < end
    ensures start <= x < end
  {
    start + Value(Served(s, at, DrawSize(1, end - start)), 256) % (end - start)
  }

  /* The bytes that the first k swaps of a shuffle of n elements take. */
  function SwapBytes(n: nat, k: nat): nat
    requires k <= n
  {
    if k == 0 then 0 else SwapBytes(n, k - 1) + DrawSize(1, n - (k - 1))
  }

  /* The first k draws of a shuffle of n elements. */
  ghost function DrawsAt(s: Stream, at: nat, n: nat, k: nat): (r: seq<nat>)
    requires Blocks(s) && k <= n
    ensures |r| == k && forall i :: 0 <= i < k ==> r[i] <= n - 1 - i
  {
    if k == 0 then []
    else DrawsAt(s, at, n, k - 1) + [IntAt(s, at + SwapBytes(n, k - 1), 0, n - (k - 1))]
  }

  /* An array after the first k swaps of a shuffle that starts at a position of the stream. */
  ghost function PartlyShuffled(s: Stream, at: nat, x: seq<nat>, k: nat): (r: seq<nat>)
    requires Blocks(s) && k <= |x|
    ensures multiset(r) == multiset(x) && |r| == |x|
  {
    ShuffledSame(x, DrawsAt(s, at, |x|, k));
    Shuffled(x, DrawsAt(s, at, |x|, k))
  }

  /* A shuffle swaps at every position but the first. */
  function Swaps(n: nat): nat
  {
    if n == 0 then 0 else n - 1
  }

  ghost function ShuffledAt(s: Stream, at: nat, x: seq<nat>): (r: seq<nat>)
    requires Blocks(s)
    ensures multiset(r) == multiset(x) && |r| == |x|
  {
    PartlyShuffled(s, at, x, Swaps(|x|))
  }

  lemma NextSwap(s: Stream, at: nat, x: seq<nat>, k: nat)
    requires Blocks(s) && k < |x|
    ensures SwapBytes(|x|, k + 1) == SwapBytes(|x|, k) + DrawSize(1, |x| - k)
    ensures var i, cur := |x| - 1 - k, PartlyShuffled(s, at, x, k);
            var j := IntAt(s, at + SwapBytes(|x|, k), 0, i + 1);
            PartlyShuffled(s, at, x, k + 1) == cur[i := cur[j]][j := cur[i]]
  {
    hide IntAt, Shuffled, DrawSize;
    var j := IntAt(s, at + SwapBytes(|x|, k), 0, |x| - k);
    ShuffleStep(x, DrawsAt(s, at, |x|, k), j);
  }

  class Prng {
    const hash: Hash
    var sha: seq<byte>
    var pool: seq<byte>
    ghost const stream: Stream
    ghost var blocks: nat
    ghost var served: nat

    /* The pool is what is left of the stream once the served bytes are taken off. */
    ghost predicate Valid()
      reads this
    {
      && Blocks(stream) && stream.hash == hash
      && sha == Chain(stream, blocks)
      && served <= |Prefix(stream, blocks)|
      && pool == Prefix(stream, blocks)[served..]
    }

    constructor (h: Hash, seed: seq<byte>)
      requires HashSize(h, 32)
      ensures Valid() && stream == Seeded(h, seed) && served == 0
    {
      hash := h;
      sha := h(seed);
      stream := Seeded(h, seed);
      pool := [];
      blocks, served := 0, 0;
    }

    /* One more block of the stream enters the pool. */
    method Refill()
      requires Valid()
      modifies this
      ensures Valid() && served == old(served)
      ensures |pool| == |old(pool)| + 32
    {
      PrefixSize(stream, blocks);
      AppendSlice(Prefix(stream, blocks), sha, served);
      pool := pool + sha;
      sha := hash(sha);
      blocks := blocks + 1;
    }

    /* The result is the next n bytes of the stream. */
    method GetBytes(n: nat) returns (result: seq<byte>)
      requires Valid()
      modifies this
      ensures Valid() && result == Served(stream, old(served), n) && served == old(served) + n
    {
      while |pool| < n
        invariant Valid() && served == old(served)
        decreases n - |pool|
      {
        Refill();
      }
      SplitSlice(Prefix(stream, blocks), served, n);
      ServedIs(stream, blocks, served, n);
      result, pool := pool[..n], pool[n..];
      served := served + n;
    }

    /* Bytes are drawn until they reach the range, and read most significant first. */
    method DrawNumber(n: nat) returns (r: nat)
      requires Valid()
      modifies this
      ensures Valid() && served == old(served) + DrawSize(1, n)
      ensures r == Value(Served(stream, old(served), DrawSize(1, n)), 256)
    {
      hide Prefix, Chain, Served, Value;
      r := 0;
      var p := 1;
      ghost var k := 0;
      NothingServed(stream, served);
      while p < n
        invariant Valid() && p > 0 && served == old(served) + k
        invariant k + DrawSize(p, n) == DrawSize(1, n)
        invariant r == Value(Served(stream, old(served), k), 256)
        decreases n - p
      {
        var b := GetBytes(1);
        ServedConcat(stream, old(served), k, 1);
        ValueNext(Served(stream, old(served), k), b);
        DrawSizeStep(p, n);
        r := b[0] + r * 256;
        p := p * 256;
        k := k + 1;
      }
    }

    /* A number in [start, end): the number drawn, modulo the range. */
    method RandInt(start: int, end: int) returns (x: int)
      requires Valid() && start < end
      modifies this
      ensures Valid() && x == IntAt(stream, old(served), start, end)
      ensures served == old(served) + DrawSize(1, end - start)
    {
      var r := DrawNumber(end - start);
      x := start + r % (end - start);
    }

    /* Position i is swapped with one drawn from those up to itself. */
    method SwapWithDrawn(x: array<nat>, i: nat)
      requires Valid() && i < x.Length
      modifies this, x
      ensures Valid() && served == old(served) + DrawSize(1, i + 1)
      ensures var j := IntAt(stream, old(served), 0, i + 1);
              x[..] == old(x[..])[i := old(x[..])[j]][j := old(x[..])[i]]
    {
      hide IntAt, DrawSize;
      var j := RandInt(0, i + 1);
      x[i], x[j] := x[j], x[i];
    }

    /* Fisher and Yates: every position from the last to the second is swapped with one drawn
       from those up to itself, so the permutation is fixed by the stream. */
    method Shuffle(x: array<nat>)
      requires Valid()
      modifies this, x
      ensures Valid() && x[..] == ShuffledAt(stream, old(served), old(x[..]))
      ensures served == old(served) + SwapBytes(x.Length, Swaps(x.Length))
    {
      hide IntAt, DrawSize, PartlyShuffled, SwapBytes, Prefix, Chain, Served;
      ghost var start, k := x[..], 0;
      NoSwaps(stream, served, start);
      if x.Length == 0 {
        return;
      }
      for i := x.Length downto 1
        invariant Valid() && k == x.Length - i
        invariant served == old(served) + SwapBytes(|start|, k)
        invariant x[..] == PartlyShuffled(stream, old(served), start, k)
      {
        NextSwap(stream, old(served), start, k);
        SwapWithDrawn(x, i);
        k := k + 1;
      }
    }
  }

  lemma NoSwaps(s: Stream, at: nat, x: seq<nat>)
    requires Blocks(s)
    ensures SwapBytes(|x|, 0) == 0 && PartlyShuffled(s, at, x, 0) == x
  {}

  lemma NothingServed(s: Stream, at: nat)
    requires Blocks(s)
    ensures Value(Served(s, at, 0), 256) == 0
  {}

  lemma DrawSizeStep(p: nat, n: nat)
    requires 0 < p < n
    ensures DrawSize(p, n) == 1 + DrawSize(p * 256, n)
  {}

  lemma ValueNext(drawn: seq<byte>, b: seq<byte>)
    requires |b| == 1
    ensures Value(drawn + b, 256) == b[0] + Value(drawn, 256) * 256
  {
    assert b == [b[0]];
    ValueAppend(drawn, b[0], 256);
  }

  lemma AppendSlice<T>(s: seq<T>, t: seq<T>, a: nat)
    requires a <= |s|
    ensures (s + t)[a..] == s[a..] + t
  {}

  lemma SplitSlice<T>(s: seq<T>, a: nat, n: nat)
    requires a + n <= |s|
    ensures s[a..][..n] == s[a..a + n] && s[a..][n..] == s[a + n..]
  {}

  // ----------------------------------------------------------------------------- the shuffle

  /* The k-th draw is for the k-th position from the end, and never beyond it. */
  ghost predicate DrawsIn(s: seq<nat>, draws: seq<nat>)
  {
    |draws| <= |s| && forall k :: 0 <= k < |draws| ==> draws[k] <= |s| - 1 - k
  }

  /* One draw for every position but the first. */
  ghost predicate FullDraws(s: seq<nat>, draws: seq<nat>)
  {
    DrawsIn(s, draws) && |draws| == if s == [] then 0 else |s| - 1
  }

  function Swap(s: seq<nat>, i: nat, j: nat): (r: seq<nat>)
    requires i < |s| && j < |s|
    ensures |r| == |s| && multiset(r) == multiset(s)
  {
    SwapSame(s, i, j);
    s[i := s[j]][j := s[i]]
  }

  lemma SwapSame(s: seq<nat>, i: nat, j: nat)
    requires i < |s| && j < |s|
    ensures multiset(s[i := s[j]][j := s[i]]) == multiset(s)
  {}

  ghost function Shuffled(s: seq<nat>, draws: seq<nat>): (r: seq<nat>)
    requires DrawsIn(s, draws)
    ensures |r| == |s|
  {
    if draws == [] then s
    else
      var k := |draws| - 1;
      Swap(Shuffled(s, draws[..k]), |s| - 1 - k, draws[k])
  }

  lemma DrawsExtend(s: seq<nat>, draws: seq<nat>, j: nat)
    requires DrawsIn(s, draws) && |draws| < |s| && j <= |s| - 1 - |draws|
    ensures DrawsIn(s, draws + [j])
  {}

  lemma ShuffleStep(s: seq<nat>, draws: seq<nat>, j: nat)
    requires DrawsIn(s, draws) && |draws| < |s| && j <= |s| - 1 - |draws|
    ensures DrawsIn(s, draws + [j])
    ensures Shuffled(s, draws + [j]) == Swap(Shuffled(s, draws), |s| - 1 - |draws|, j)
  {
    hide Swap, Shuffled, DrawsIn;
    DrawsExtend(s, draws, j);
    var next := draws + [j];
    var cur := LastSwap(s, next);
    assert |next| == |draws| + 1 && next[|next| - 1] == j && next[..|next| - 1] == draws;
  }

  lemma {:induction false} ShuffledSame(s: seq<nat>, draws: seq<nat>)
    requires DrawsIn(s, draws)
    ensures multiset(Shuffled(s, draws)) == multiset(s)
  {
    if draws != [] { ShuffledSame(s, draws[..|draws| - 1]); }
  }

  /* Positions behind the ones still to be drawn for are settled. */
  lemma {:induction false} Settled(s: seq<nat>, draws: seq<nat>, k: nat)
    requires DrawsIn(s, draws) && k < |draws|
    ensures DrawsIn(s, draws[..k])
    ensures Shuffled(s, draws)[|s| - 1 - k] == Shuffled(s, draws[..k])[draws[k]]
    decreases |draws|
  {
    hide Shuffled, Swap;
    var n := |draws| - 1;
    var cur := LastSwap(s, draws);
    if k < n {
      Settled(s, draws[..n], k);
      assert draws[..n][..k] == draws[..k] && draws[..n][k] == draws[k];
      SwapAt(cur, |s| - 1 - n, draws[n], |s| - 1 - k);
    } else {
      SwapAt(cur, |s| - 1 - n, draws[n], |s| - 1 - n);
    }
  }

  lemma LastSwap(s: seq<nat>, draws: seq<nat>) returns (cur: seq<nat>)
    requires DrawsIn(s, draws) && draws != []
    ensures DrawsIn(s, draws[..|draws| - 1]) && cur == Shuffled(s, draws[..|draws| - 1]) && |cur| == |s|
    ensures Shuffled(s, draws) == Swap(cur, |s| - |draws|, draws[|draws| - 1])
  {
    cur := Shuffled(s, draws[..|draws| - 1]);
  }

  lemma SwapAt(s: seq<nat>, i: nat, j: nat, p: nat)
    requires i < |s| && j <= i && i <= p < |s|
    ensures Swap(s, i, j)[p] == if p == i then s[j] else s[p]
  {}

  /* Draws that agree with a target from the back, position by position. */
  lemma {:induction false} DrawsToward(s: seq<nat>, t: seq<nat>, k: nat) returns (draws: seq<nat>)
    requires multiset(s) == multiset(t) && k < |s| == |t|
    ensures DrawsIn(s, draws) && |draws| == k
    ensures forall p :: |s| - k <= p < |s| ==> Shuffled(s, draws)[p] == t[p]
  {
    hide Shuffled, Swap;
    if k == 0 {
      draws := [];
    } else {
      var before := DrawsToward(s, t, k - 1);
      var cur, m := Shuffled(s, before), |s| - k;
      ShuffledSame(s, before);
      var j := FindFront(cur, t, m);
      ShuffleStep(s, before, j);
      draws := before + [j];
      forall p | m <= p < |s| ensures Shuffled(s, draws)[p] == t[p] {
        SwapAt(cur, m, j, p);
      }
    }
  }

  /* Sequences with the same elements that agree from m + 1 on hold t[m] among the first. */
  lemma FindFront(s: seq<nat>, t: seq<nat>, m: nat) returns (j: nat)
    requires multiset(s) == multiset(t) && m < |s| == |t|
    requires forall p :: m < p < |s| ==> s[p] == t[p]
    ensures j <= m && s[j] == t[m]
  {
    assert s[m + 1..] == t[m + 1..];
    assert s == s[..m + 1] + s[m + 1..] && t == t[..m + 1] + t[m + 1..];
    assert multiset(s[..m + 1]) == multiset(s) - multiset(s[m + 1..]);
    assert multiset(t[..m + 1]) == multiset(t) - multiset(t[m + 1..]);
    assert t[..m + 1][m] == t[m] && t[m] in multiset(t[..m + 1]);
    assert t[m] in multiset(s[..m + 1]);
    assert t[m] in s[..m + 1];
    j :| 0 <= j <= m && s[j] == t[m];
  }

  lemma FirstFollows(s: seq<nat>, t: seq<nat>)
    requires multiset(s) == multiset(t) && |s| == |t| && forall p :: 1 <= p < |s| ==> s[p] == t[p]
    ensures s == t
  {
    if s != [] {
      var j := FindFront(s, t, 0);
    }
  }

  lemma {:induction false} SameDraws(s: seq<nat>, a: seq<nat>, b: seq<nat>, k: nat)
    requires Distinct(s) && DrawsIn(s, a) && DrawsIn(s, b) && k <= |a| == |b|
    requires Shuffled(s, a) == Shuffled(s, b)
    ensures a[..k] == b[..k]
  {
    hide Shuffled;
    if k > 0 {
      SameDraws(s, a, b, k - 1);
      Settled(s, a, k - 1);
      Settled(s, b, k - 1);
      var cur := Shuffled(s, a[..k - 1]);
      ShuffledSame(s, a[..k - 1]);
      DistinctStays(s, cur);
      assert a[..k] == a[..k - 1] + [a[k - 1]] && b[..k] == b[..k - 1] + [b[k - 1]];
    }
  }

  /* Every permutation comes from exactly one sequence of draws: fair draws shuffle fairly. */
  lemma ShuffleReachesAll(s: seq<nat>, t: seq<nat>)
    requires Distinct(s) && multiset(s) == multiset(t)
    ensures exists draws :: FullDraws(s, draws) && Shuffled(s, draws) == t
    ensures forall a, b :: FullDraws(s, a) && FullDraws(s, b) && Shuffled(s, a) == t == Shuffled(s, b) ==> a == b
  {
    hide Shuffled;
    assert |s| == |multiset(s)| == |multiset(t)| == |t|;
    if s == [] {
      ShuffleNothing(s);
    } else {
      var draws := DrawsToward(s, t, |s| - 1);
      ShuffledSame(s, draws);
      FirstFollows(Shuffled(s, draws), t);
      assert FullDraws(s, draws);
    }
    forall a, b | FullDraws(s, a) && FullDraws(s, b) && Shuffled(s, a) == t == Shuffled(s, b)
      ensures a == b
    {
      SameDraws(s, a, b, |a|);
      assert a[..|a|] == a && b[..|b|] == b;
    }
  }

  lemma ShuffleNothing(s: seq<nat>)
    ensures DrawsIn(s, []) && Shuffled(s, []) == s
  {}
}
