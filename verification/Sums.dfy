/** Sums over finite maps and sequences. */
module Sums {

  ghost function Sum<T>(m: map<T, int>): int
  {
    if m.Keys == {} then 0
    else
      var x :| x in m;
      m[x] + Sum(m - {x})
  }

  lemma {:induction false} SumRemove<T>(m: map<T, int>, x: T)
    requires x in m
    ensures Sum(m) == m[x] + Sum(m - {x})
    decreases |m|
  {
    assert x in m.Keys;
    var y :| y in m && Sum(m) == m[y] + Sum(m - {y});
    if y != x {
      assert |m - {x}| < |m| && |m - {y}| < |m| by {
        assert (m - {x}).Keys == m.Keys - {x} && (m - {y}).Keys == m.Keys - {y};
      }
      SumRemove(m - {y}, x);
      SumRemove(m - {x}, y);
      assert m - {x} - {y} == m - {y} - {x};
    }
  }

  function Get<T>(m: map<T, int>, x: T): int
  {
    if x in m then m[x] else 0
  }

  lemma SumUpdate<T>(m: map<T, int>, x: T, v: int)
    ensures Sum(m[x := v]) == Sum(m) - Get(m, x) + v
  {
    SumRemove(m[x := v], x);
    if x in m {
      SumRemove(m, x);
      assert m[x := v] - {x} == m - {x};
    } else {
      assert m[x := v] - {x} == m;
    }
  }

  /* m with v added to the entry of x, an absent entry counting as 0. */
  function Bump<T>(m: map<T, int>, x: T, v: int): map<T, int>
  {
    m[x := Get(m, x) + v]
  }

  lemma SumBump<T>(m: map<T, int>, x: T, v: int)
    ensures Sum(Bump(m, x, v)) == Sum(m) + v
  {
    SumUpdate(m, x, Get(m, x) + v);
  }

  /* Entry-wise sum: the effect of a batch of relative updates. */
  function AddAll<T>(m: map<T, int>, n: map<T, int>): map<T, int>
  {
    map x | x in m.Keys + n.Keys :: Get(m, x) + Get(n, x)
  }

  lemma AddAllBump<T>(m: map<T, int>, n: map<T, int>, x: T, v: int)
    ensures AddAll(m, Bump(n, x, v)) == Bump(AddAll(m, n), x, v)
  {}

  lemma AddAllEmpty<T>(m: map<T, int>)
    ensures AddAll(m, map[]) == m
  {}

  lemma AddAllBumpTwice<T>(m: map<T, int>, n: map<T, int>, x: T, v: int, y: T, u: int)
    ensures AddAll(m, Bump(Bump(n, x, v), y, u)) == Bump(Bump(AddAll(m, n), x, v), y, u)
  {
    AddAllBump(m, n, x, v);
    AddAllBump(m, Bump(n, x, v), y, u);
  }

  lemma DropSize<K, V>(m: map<K, V>, x: K)
    requires x in m
    ensures |m - {x}| == |m| - 1
  {
    assert (m - {x}).Keys == m.Keys - {x};
    assert |m.Keys - {x}| == |m.Keys| - 1;
  }

  lemma GrowSize<K, V>(m: map<K, V>, x: K, v: V)
    requires x !in m
    ensures |m[x := v]| == |m| + 1
  {
    assert m[x := v].Keys == m.Keys + {x};
    assert |m.Keys + {x}| == |m.Keys| + 1;
  }

  lemma MapsEqual<K, V>(m: map<K, V>, n: map<K, V>)
    requires forall x :: x in m <==> x in n
    requires forall x :: x in m ==> m[x] == n[x]
    ensures m == n
  {}

  lemma SumEmpty<T>(m: map<T, int>)
    requires m.Keys == {}
    ensures Sum(m) == 0
  {}

  lemma WithoutKey<T>(m: map<T, int>, x: T)
    requires x in m
    ensures |m - {x}| == |m| - 1 && (m - {x}).Keys == m.Keys - {x} && m == (m - {x})[x := m[x]]
  {
    DropSize(m, x);
  }

  lemma UnionUpdate<T>(m: map<T, int>, n: map<T, int>, x: T, v: int)
    ensures m + n[x := v] == (m + n)[x := v]
  {}

  lemma {:induction false} SumUnion<T>(m: map<T, int>, n: map<T, int>)
    requires m.Keys !! n.Keys
    ensures Sum(m + n) == Sum(m) + Sum(n)
    decreases |n|
  {
    hide Sum;
    if n.Keys == {} {
      SumEmpty(n);
      assert m + n == m;
    } else {
      var x :| x in n.Keys;
      var rest := n - {x};
      WithoutKey(n, x);
      SumUnion(m, rest);
      SumUpdate(rest, x, n[x]);
      UnionUpdate(m, rest, x, n[x]);
      SumUpdate(m + rest, x, n[x]);
    }
  }

  lemma SumSplit<T>(m: map<T, int>, x: T)
    ensures Sum(m) == Get(m, x) + Sum(m - {x})
    ensures m.Keys == {} <==> x !in m && m.Keys - {x} == {}
  {
    if x in m {
      SumRemove(m, x);
    } else {
      assert m - {x} == m;
    }
  }

  /* Maps that differ at one key only. */
  lemma SumChange<T>(m: map<T, int>, n: map<T, int>, x: T)
    requires m - {x} == n - {x}
    ensures Sum(n) == Sum(m) - Get(m, x) + Get(n, x)
  {
    hide Sum;
    SumSplit(m, x);
    SumSplit(n, x);
  }

  /* Amounts that are not negative sum to zero only when each is zero. */
  lemma {:induction false} SumZero<T>(m: map<T, int>)
    requires forall x :: x in m ==> m[x] >= 0
    ensures Sum(m) >= 0
    ensures Sum(m) == 0 <==> forall x :: x in m ==> m[x] == 0
    decreases |m|
  {
    hide Sum;
    if m.Keys == {} {
      SumEmpty(m);
    } else {
      var x :| x in m.Keys;
      WithoutKey(m, x);
      SumZero(m - {x});
      SumSplit(m, x);
      assert forall y :: y in m ==> y == x || (y in m - {x} && (m - {x})[y] == m[y]);
    }
  }

  function Negated<T>(m: map<T, int>): map<T, int>
  {
    map x | x in m :: 0 - m[x]
  }

  lemma NegatedUpdate<T>(m: map<T, int>, x: T, v: int)
    ensures Negated(m[x := v]) == Negated(m)[x := 0 - v]
  {}

  lemma {:induction false} SumNegated<T>(m: map<T, int>)
    ensures Sum(Negated(m)) == 0 - Sum(m)
    decreases |m|
  {
    hide Sum;
    if m.Keys == {} {
      SumEmpty(m);
      SumEmpty(Negated(m));
    } else {
      var x :| x in m.Keys;
      var rest := m - {x};
      WithoutKey(m, x);
      SumNegated(rest);
      SumUpdate(rest, x, m[x]);
      NegatedUpdate(rest, x, m[x]);
      SumUpdate(Negated(rest), x, 0 - m[x]);
    }
  }

  // ---------------------------------------------------------------------------- sequences

  function SumSeq(s: seq<int>): int
  {
    if s == [] then 0 else SumSeq(s[..|s| - 1]) + s[|s| - 1]
  }

  lemma SumSeqAppend(s: seq<int>, x: int)
    ensures SumSeq(s + [x]) == SumSeq(s) + x
  {
    assert (s + [x])[..|s|] == s;
  }
}
