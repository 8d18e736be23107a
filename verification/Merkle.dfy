/**
 Merkle proofs: the fold of electrumsv/network.py and the two loops of
 electrumsv/verification_utils.py that repeat it. Hashes are byte strings, hash is any function.
 */
module Merkle {
  import opened Arith
  import opened Digits
  import opened Hashing
  import opened ScriptData
  import opened Wrappers

  /* What is hashed to go one level up: the sibling stands left of an odd position. */
  function Joined(x: seq<byte>, sibling: seq<byte>, index: int): seq<byte>
  {
    if index % 2 == 1 then sibling + x else x + sibling
  }

  function Fold(h: Hash, x: seq<byte>, branch: seq<seq<byte>>, index: int): seq<byte>
    decreases branch
  {
    if branch == [] then x else Fold(h, h(Joined(x, branch[0], index)), branch[1..], index / 2)
  }

  datatype ProofError = IndexOutOfRange | NotHex

  lemma {:induction false} ShiftedOut(index: int, k: nat)
    ensures Pow(2, k + 1) > 0 && Pow(2, k) > 0
    ensures 0 <= index < Pow(2, k + 1) <==> 0 <= index / 2 < Pow(2, k)
  {
    PowPositive(2, k);
  }

  method RootFromProof(h: Hash, hash: seq<byte>, branch: seq<seq<byte>>, index: int)
    returns (r: Result<seq<byte>, ProofError>)
    ensures r == if 0 <= index < Pow(2, |branch|) then Ok(Fold(h, hash, branch, index)) else Err(IndexOutOfRange)
  {
    var x, i := hash, index;
    assert branch[0..] == branch;
    for k := 0 to |branch|
      invariant Fold(h, x, branch[k..], i) == Fold(h, hash, branch, index)
      invariant 0 <= i < Pow(2, |branch| - k) <==> 0 <= index < Pow(2, |branch|)
    {
      FoldNext(h, x, branch, k, i);
      ShiftedOut(i, |branch| - k - 1);
      x := if i % 2 == 1 then h(branch[k] + x) else h(x + branch[k]);
      i := i / 2;
    }
    assert branch[|branch|..] == [];
    if i != 0 {
      return Err(IndexOutOfRange);
    }
    return Ok(x);
  }

  // ------------------------------------------------------------------------- the other loops

  /* Hexadecimal text: its bytes, or None when it is not hexadecimal. */
  type HexText = Option<seq<byte>>

  predicate AllHex(texts: seq<HexText>)
  {
    forall i :: 0 <= i < |texts| ==> texts[i].Some?
  }

  /* The siblings in the byte order they are hashed in. */
  function LittleEndians(texts: seq<HexText>): (r: seq<seq<byte>>)
    requires AllHex(texts)
    ensures |r| == |texts| && forall i :: 0 <= i < |r| ==> r[i] == Reversed(texts[i].value)
  {
    seq(|texts|, i requires 0 <= i < |texts| => Reversed(texts[i].value))
  }

  lemma FoldNext(h: Hash, x: seq<byte>, siblings: seq<seq<byte>>, k: nat, index: int)
    requires k < |siblings|
    ensures Fold(h, x, siblings[k..], index)
            == Fold(h, h(Joined(x, siblings[k], index)), siblings[k + 1..], index / 2)
  {
    assert siblings[k..][1..] == siblings[k + 1..];
  }

  /* One loop serves both functions: index & 1 == 0 and index % 2 == 0 are the same test. */
  method FoldHex(h: Hash, start: seq<byte>, texts: seq<HexText>, pos: int) returns (r: Option<seq<byte>>)
    ensures r == if AllHex(texts) then Some(Fold(h, start, LittleEndians(texts), pos)) else None
  {
    hide Reversed;
    var x, p := start, pos;
    for k := 0 to |texts|
      invariant forall i :: 0 <= i < k ==> texts[i].Some?
      invariant AllHex(texts) ==>
                  Fold(h, x, LittleEndians(texts)[k..], p) == Fold(h, start, LittleEndians(texts), pos)
    {
      if texts[k].None? {
        return None;
      }
      var sibling := Reversed(texts[k].value);
      if AllHex(texts) { FoldNext(h, x, LittleEndians(texts), k, p); }
      x := if p % 2 == 0 then h(x + sibling) else h(sibling + x);
      p := p / 2;
    }
    return Some(x);
  }

  method ComputeMerkleRoot(h: Hash, txid: HexText, branch: seq<HexText>, pos: int)
    returns (r: Result<seq<byte>, ProofError>)
    ensures r == if txid.Some? && AllHex(branch)
                 then Ok(Fold(h, Reversed(txid.value), LittleEndians(branch), pos)) else Err(NotHex)
  {
    if txid.None? {
      return Err(NotHex);
    }
    var x := FoldHex(h, Reversed(txid.value), branch, pos);
    return if x.Some? then Ok(x.value) else Err(NotHex);
  }

  datatype Proof = Proof(pos: int, merkle: seq<HexText>)

  method VerifyMerkle(h: Hash, txid: HexText, proof: Option<Proof>, header: HexText) returns (ok: bool)
    ensures ok <==> && proof.Some? && header.Some? && header.value != []
                    && txid.Some? && AllHex(proof.value.merkle)
                    && Fold(h, Reversed(txid.value), LittleEndians(proof.value.merkle), proof.value.pos)
                       == Slice(header.value, 36, 68)
  {
    if proof.None? || header == Some([]) || txid.None? {
      return false;
    }
    var x := FoldHex(h, Reversed(txid.value), proof.value.merkle, proof.value.pos);
    if x.None? || header.None? {
      return false;
    }
    return x.value == Slice(header.value, 36, 68);
  }

  lemma HalfOfRemainder(index: int, m: int)
    requires m > 0
    ensures 2 * m > 0
    ensures (index % (2 * m)) / 2 == (index / 2) % m && (index % (2 * m)) % 2 == index % 2
  {
    var q, r := (index / 2) / m, (index / 2) % m;
    assert index / 2 == q * m + r;
    assert index == q * (2 * m) + (2 * r + index % 2) by {
      assert 2 * (q * m) == q * (2 * m);
    }
    DivModUnique(index, 2 * m, q, 2 * r + index % 2);
  }

  /* Only the low bits of the position matter: the two functions without a range check treat a
     position like the one in range that it is congruent to. */
  lemma {:induction false} PositionsWrap(h: Hash, x: seq<byte>, branch: seq<seq<byte>>, index: int)
    ensures Pow(2, |branch|) > 0
    ensures Fold(h, x, branch, index) == Fold(h, x, branch, index % Pow(2, |branch|))
    decreases branch
  {
    PowPositive(2, |branch|);
    if branch != [] {
      var m := Pow(2, |branch| - 1);
      PowPositive(2, |branch| - 1);
      HalfOfRemainder(index, m);
      PositionsWrap(h, h(Joined(x, branch[0], index)), branch[1..], index / 2);
    }
  }

  // --------------------------------------------------------------------------- perfect trees

  datatype Tree = Leaf(value: seq<byte>) | Node(left: Tree, right: Tree)

  ghost predicate Perfect(t: Tree, depth: nat)
  {
    match t
    case Leaf(_) => depth == 0
    case Node(l, r) => depth > 0 && Perfect(l, depth - 1) && Perfect(r, depth - 1)
  }

  function Root(h: Hash, t: Tree): seq<byte>
  {
    match t
    case Leaf(v) => v
    case Node(l, r) => h(Root(h, l) + Root(h, r))
  }

  function LeafAt(t: Tree, depth: nat, index: nat): seq<byte>
    requires Perfect(t, depth)
  {
    match t
    case Leaf(v) => v
    case Node(l, r) =>
      var half := Pow(2, depth - 1);
      if index < half then LeafAt(l, depth - 1, index) else LeafAt(r, depth - 1, index - half)
  }

  /* The siblings on the way from the leaf to the root. */
  function Branch(h: Hash, t: Tree, depth: nat, index: nat): (b: seq<seq<byte>>)
    requires Perfect(t, depth)
    ensures |b| == depth
  {
    match t
    case Leaf(_) => []
    case Node(l, r) =>
      var half := Pow(2, depth - 1);
      if index < half then Branch(h, l, depth - 1, index) + [Root(h, r)]
      else Branch(h, r, depth - 1, index - half) + [Root(h, l)]
  }

  lemma DivDiv(index: int, m: int)
    requires m > 0
    ensures 2 * m > 0 && (index / 2) / m == index / (2 * m)
  {
    var q, r := (index / 2) / m, (index / 2) % m;
    assert index / 2 == q * m + r;
    assert 2 * (q * m) == q * (2 * m);
    DivModUnique(index, 2 * m, q, 2 * r + index % 2);
  }

  /* The topmost sibling joins last, on the side the top bit says. */
  lemma {:induction false} FoldLast(h: Hash, x: seq<byte>, branch: seq<seq<byte>>, top: seq<byte>, index: int)
    ensures Pow(2, |branch|) > 0
    ensures Fold(h, x, branch + [top], index)
            == h(Joined(Fold(h, x, branch, index), top, index / Pow(2, |branch|)))
    decreases branch
  {
    PowPositive(2, |branch|);
    if branch == [] {
      assert Fold(h, x, [top], index) == Fold(h, h(Joined(x, top, index)), [], index / 2);
    } else {
      PowPositive(2, |branch| - 1);
      DivDiv(index, Pow(2, |branch| - 1));
      assert (branch + [top])[1..] == branch[1..] + [top];
      FoldLast(h, h(Joined(x, branch[0], index)), branch[1..], top, index / 2);
    }
  }

  /* Every leaf of every perfect tree folds to the root along its own branch. */
  lemma {:induction false} BranchReachesRoot(h: Hash, t: Tree, depth: nat, index: nat)
    requires Perfect(t, depth) && index < Pow(2, depth)
    ensures Fold(h, LeafAt(t, depth, index), Branch(h, t, depth, index), index) == Root(h, t)
    decreases t
  {
    hide Fold;
    match t
    case Leaf(v) => FoldNothing(h, v, index);
    case Node(l, r) =>
      var half := Pow(2, depth - 1);
      if index < half {
        BranchReachesRoot(h, l, depth - 1, index);
        FoldLast(h, LeafAt(l, depth - 1, index), Branch(h, l, depth - 1, index), Root(h, r), index);
        DivModUnique(index, half, 0, index);
      } else {
        var i := index - half;
        BranchReachesRoot(h, r, depth - 1, i);
        FoldLast(h, LeafAt(r, depth - 1, i), Branch(h, r, depth - 1, i), Root(h, l), index);
        DivModUnique(index, half, 1, i);
        PositionsWrap(h, LeafAt(r, depth - 1, i), Branch(h, r, depth - 1, i), index);
      }
  }

  lemma FoldNothing(h: Hash, x: seq<byte>, index: int)
    ensures Fold(h, x, [], index) == x
  {}

  // ------------------------------------------------------------------------------- soundness

  /* The string hashed at level k. */
  function Hashed(h: Hash, x: seq<byte>, branch: seq<seq<byte>>, index: int, k: nat): seq<byte>
    requires k < |branch|
    decreases k
  {
    if k == 0 then Joined(x, branch[0], index)
    else Hashed(h, h(Joined(x, branch[0], index)), branch[1..], index / 2, k - 1)
  }

  /* Two different strings with one hash, met at some level of the two folds. */
  ghost predicate CollisionMet(h: Hash, x: seq<byte>, b: seq<seq<byte>>, y: seq<byte>, c: seq<seq<byte>>, index: int)
    requires |b| == |c|
  {
    exists k :: 0 <= k < |b| && CollisionAt(h, x, b, y, c, index, k)
  }

  ghost predicate CollisionAt(h: Hash, x: seq<byte>, b: seq<seq<byte>>, y: seq<byte>, c: seq<seq<byte>>,
                              index: int, k: nat)
    requires k < |b| == |c|
  {
    Collision(h, Hashed(h, x, b, index, k), Hashed(h, y, c, index, k))
  }

  ghost predicate Sized(x: seq<byte>, branch: seq<seq<byte>>)
  {
    |x| == 32 && forall i :: 0 <= i < |branch| ==> |branch[i]| == 32
  }

  lemma JoinedInjective(x: seq<byte>, s: seq<byte>, y: seq<byte>, t: seq<byte>, index: int)
    requires |x| == |y| == |s| == |t| && Joined(x, s, index) == Joined(y, t, index)
    ensures x == y && s == t
  {
    if index % 2 == 1 {
      assert (s + x)[..|s|] == s && (t + y)[..|t|] == t;
      assert (s + x)[|s|..] == x && (t + y)[|t|..] == y;
    } else {
      assert (x + s)[..|x|] == x && (y + t)[..|y|] == y;
      assert (x + s)[|x|..] == s && (y + t)[|y|..] == t;
    }
  }

  /* Two proofs at one position with one root are the same proof, or the hash has collided on
     strings that the two folds hash at the same level. */
  lemma {:induction false} FoldInjective(h: Hash, x: seq<byte>, b: seq<seq<byte>>,
                                         y: seq<byte>, c: seq<seq<byte>>, index: int)
    requires HashSize(h, 32) && Sized(x, b) && Sized(y, c) && |b| == |c|
    requires Fold(h, x, b, index) == Fold(h, y, c, index)
    ensures (x == y && b == c) || CollisionMet(h, x, b, y, c, index)
    decreases b
  {
    if b == [] {
      FoldNothing(h, x, index);
      FoldNothing(h, y, index);
    } else {
      var u, v := Joined(x, b[0], index), Joined(y, c[0], index);
      FoldInjective(h, h(u), b[1..], h(v), c[1..], index / 2);
      if CollisionMet(h, h(u), b[1..], h(v), c[1..], index / 2) {
        CollisionHigher(h, x, b, y, c, index);
      } else if u == v {
        JoinedInjective(x, b[0], y, c[0], index);
        assert b == [b[0]] + b[1..] && c == [c[0]] + c[1..];
      } else {
        assert CollisionAt(h, x, b, y, c, index, 0);
      }
    }
  }

  lemma CollisionHigher(h: Hash, x: seq<byte>, b: seq<seq<byte>>, y: seq<byte>, c: seq<seq<byte>>, index: int)
    requires |b| == |c| > 0
    requires CollisionMet(h, h(Joined(x, b[0], index)), b[1..], h(Joined(y, c[0], index)), c[1..], index / 2)
    ensures CollisionMet(h, x, b, y, c, index)
  {
    var k :| 0 <= k < |b| - 1
             && CollisionAt(h, h(Joined(x, b[0], index)), b[1..], h(Joined(y, c[0], index)), c[1..], index / 2, k);
    assert CollisionAt(h, x, b, y, c, index, k + 1);
  }

  ghost predicate LeavesSized(t: Tree)
  {
    match t
    case Leaf(v) => |v| == 32
    case Node(l, r) => LeavesSized(l) && LeavesSized(r)
  }

  lemma {:induction false} BranchSized(h: Hash, t: Tree, depth: nat, index: nat)
    requires HashSize(h, 32) && LeavesSized(t) && Perfect(t, depth)
    ensures |Root(h, t)| == 32 && Sized(LeafAt(t, depth, index), Branch(h, t, depth, index))
    decreases t
  {
    if t.Node? {
      var half := Pow(2, depth - 1);
      BranchSized(h, t.left, depth - 1, 0);
      BranchSized(h, t.right, depth - 1, 0);
      if index < half {
        BranchSized(h, t.left, depth - 1, index);
      } else {
        BranchSized(h, t.right, depth - 1, index - half);
      }
    }
  }

  /* A proof that reaches the root of a tree of its depth is the tree's own proof for the leaf
     at that position, unless it exhibits a collision with it. */
  lemma ProofIsLeaf(h: Hash, t: Tree, depth: nat, index: nat, x: seq<byte>, branch: seq<seq<byte>>)
    requires HashSize(h, 32) && Perfect(t, depth) && LeavesSized(t) && index < Pow(2, depth)
    requires |branch| == depth && Sized(x, branch)
    requires Fold(h, x, branch, index) == Root(h, t)
    ensures || (x == LeafAt(t, depth, index) && branch == Branch(h, t, depth, index))
            || CollisionMet(h, x, branch, LeafAt(t, depth, index), Branch(h, t, depth, index), index)
  {
    BranchReachesRoot(h, t, depth, index);
    BranchSized(h, t, depth, index);
    FoldInjective(h, x, branch, LeafAt(t, depth, index), Branch(h, t, depth, index), index);
  }
}
