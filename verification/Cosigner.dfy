/**
 electrumsv/transaction.py: cosigners fill the signature slots of an input, one slot per key,
 until the threshold is met.
 */
module Cosigner {
  import opened Digits

  type Signature = seq<byte>

  type Secret = seq<byte>

  type Keypairs = map<nat, Secret>

  const NO_SIGNATURE: Signature := [0xFF]
  const HASH_TYPE: byte := 0x41

  /* Signing a digest with a secret; the curve arithmetic behind it is not modelled. */
  type Signer = (Secret, seq<byte>) -> seq<byte>

  /* The part of an input that signing concerns. */
  datatype Slots = Slots(keys: seq<nat>, threshold: nat, signatures: seq<Signature>, digest: seq<byte>)

  function Present(signatures: seq<Signature>): seq<Signature>
  {
    if signatures == [] then []
    else
      var n := |signatures| - 1;
      Present(signatures[..n]) + if signatures[n] != NO_SIGNATURE then [signatures[n]] else []
  }

  /* An input without slots needs no signature. */
  predicate Complete(s: Slots)
  {
    s.signatures == [] || |Present(s.signatures)| >= s.threshold
  }

  function OwnSignature(signer: Signer, secret: Secret, digest: seq<byte>): (r: Signature)
    ensures r != NO_SIGNATURE
  {
    var sig := signer(secret, digest);
    assert (sig + [HASH_TYPE])[|sig|] != NO_SIGNATURE[0];
    sig + [HASH_TYPE]
  }

  /* Every key at hand signs its slot, unless the input is complete already. */
  function Signed(s: Slots, signer: Signer, pairs: Keypairs): (r: Slots)
    requires |s.signatures| == |s.keys|
    ensures |r.signatures| == |r.keys| && r.keys == s.keys && r.threshold == s.threshold && r.digest == s.digest
  {
    if Complete(s) then s
    else
      s.(signatures := seq(|s.keys|, j requires 0 <= j < |s.keys| =>
        if s.keys[j] in pairs then OwnSignature(signer, pairs[s.keys[j]], s.digest) else s.signatures[j]))
  }

  // -------------------------------------------------------------------------------- classes

  class XTxInput {
    const keys: seq<nat>
    const threshold: nat
    const digest: seq<byte>
    var signatures: seq<Signature>

    function State(): Slots
      reads this
    {
      Slots(keys, threshold, signatures, digest)
    }

    ghost predicate Valid()
      reads this
    {
      |signatures| == |keys|
    }

    constructor (xPubkeys: seq<nat>, m: nat, preHash: seq<byte>)
      ensures State() == Blank(xPubkeys, m, preHash) && Valid()
    {
      keys, threshold, digest := xPubkeys, m, preHash;
      signatures := seq(|xPubkeys|, _ => NO_SIGNATURE);
    }

    method SignaturesPresent() returns (r: seq<Signature>)
      ensures r == Present(signatures)
    {
      r := [];
      for i := 0 to |signatures|
        invariant r == Present(signatures[..i])
      {
        assert signatures[..i + 1][..i] == signatures[..i];
        if signatures[i] != NO_SIGNATURE {
          r := r + [signatures[i]];
        }
      }
      assert signatures[..|signatures|] == signatures;
    }

    method IsComplete() returns (r: bool)
      ensures r == Complete(State())
    {
      if signatures == [] {
        return true;
      }
      var present := SignaturesPresent();
      return |present| >= threshold;
    }

    method UnusedXPubkeys() returns (r: seq<nat>)
      requires Valid()
      ensures r == Unused(State())
    {
      var done := IsComplete();
      if done {
        return [];
      }
      r := [];
      for j := 0 to |keys|
        invariant r == BlankKeys(keys[..j], signatures[..j])
      {
        assert keys[..j + 1][..j] == keys[..j] && signatures[..j + 1][..j] == signatures[..j];
        if signatures[j] == NO_SIGNATURE {
          r := r + [keys[j]];
        }
      }
      assert keys[..|keys|] == keys && signatures[..|keys|] == signatures;
    }
  }

  class Transaction {
    const inputs: seq<XTxInput>

    constructor (ins: seq<XTxInput>)
      ensures inputs == ins
    {
      inputs := ins;
    }

    ghost predicate Valid()
      reads this, inputs
    {
      && (forall i :: 0 <= i < |inputs| ==> inputs[i].Valid())
      && (forall i, j :: 0 <= i < j < |inputs| ==> inputs[i] != inputs[j])
    }

    /* Slot by slot the loop writes the signatures of the keys at hand. */
    method SignInput(txin: XTxInput, signer: Signer, pairs: Keypairs)
      requires txin.Valid()
      modifies txin
      ensures txin.State() == Signed(old(txin.State()), signer, pairs)
    {
      var done := txin.IsComplete();
      if done {
        return;
      }
      ghost var before := txin.State();
      for j := 0 to |txin.keys|
        invariant |txin.signatures| == |txin.keys|
        invariant forall k :: 0 <= k < |txin.keys| ==>
                    txin.signatures[k] == (if k < j then Signed(before, signer, pairs) else before).signatures[k]
      {
        if txin.keys[j] in pairs {
          var signature := OwnSignature(signer, pairs[txin.keys[j]], txin.digest);
          txin.signatures := txin.signatures[j := signature];
        }
      }
      assert txin.signatures == Signed(before, signer, pairs).signatures;
    }

    method Sign(signer: Signer, pairs: Keypairs)
      requires Valid()
      modifies inputs
      ensures Valid()
      ensures forall i :: 0 <= i < |inputs| ==>
                inputs[i].State() == Signed(old(inputs[i].State()), signer, pairs)
    {
      for i := 0 to |inputs|
        invariant Valid()
        invariant forall k :: 0 <= k < |inputs| ==>
                    inputs[k].State() == if k < i then Signed(old(inputs[k].State()), signer, pairs)
                                         else old(inputs[k].State())
      {
        SignInput(inputs[i], signer, pairs);
      }
    }

    method IsComplete() returns (r: bool)
      ensures r <==> forall i :: 0 <= i < |inputs| ==> Complete(inputs[i].State())
    {
      for i := 0 to |inputs|
        invariant forall k :: 0 <= k < i ==> Complete(inputs[k].State())
      {
        var done := inputs[i].IsComplete();
        if !done {
          return false;
        }
      }
      return true;
    }
  }

  // ----------------------------------------------------------------------------------- runs

  function Blank(keys: seq<nat>, threshold: nat, digest: seq<byte>): (s: Slots)
    ensures |s.signatures| == |s.keys|
  {
    Slots(keys, threshold, seq(|keys|, _ => NO_SIGNATURE), digest)
  }

  function Run(s: Slots, signer: Signer, calls: seq<Keypairs>): (r: Slots)
    requires |s.signatures| == |s.keys|
    ensures |r.signatures| == |r.keys| && r.keys == s.keys && r.threshold == s.threshold && r.digest == s.digest
    decreases calls
  {
    if calls == [] then s
    else Signed(Run(s, signer, calls[..|calls| - 1]), signer, calls[|calls| - 1])
  }

  /* The secrets handed over are the keys' own. */
  ghost predicate Genuine(calls: seq<Keypairs>, secretOf: nat -> Secret)
  {
    forall i, key :: 0 <= i < |calls| && key in calls[i] ==> calls[i][key] == secretOf(key)
  }

  predicate Reached(key: nat, calls: seq<Keypairs>)
  {
    exists i :: 0 <= i < |calls| && key in calls[i]
  }

  predicate Filled(s: Slots, j: nat)
    requires j < |s.signatures|
  {
    s.signatures[j] != NO_SIGNATURE
  }

  /* A filled slot holds the signature of its own key, behind it the hash type. */
  lemma {:induction false} SlotsHoldOwn(keys: seq<nat>, threshold: nat, digest: seq<byte>, signer: Signer,
                                        calls: seq<Keypairs>, secretOf: nat -> Secret, j: nat)
    requires Genuine(calls, secretOf) && j < |keys|
    ensures var s := Run(Blank(keys, threshold, digest), signer, calls);
            Filled(s, j) ==>
              Reached(keys[j], calls) && s.signatures[j] == signer(secretOf(keys[j]), digest) + [0x41]
    decreases calls
  {
    if calls != [] {
      var n := |calls| - 1;
      GenuinePrefix(calls, n, secretOf);
      SlotsHoldOwn(keys, threshold, digest, signer, calls[..n], secretOf, j);
      ReachedLast(keys[j], calls);
    }
  }

  lemma GenuinePrefix(calls: seq<Keypairs>, n: nat, secretOf: nat -> Secret)
    requires Genuine(calls, secretOf) && n <= |calls|
    ensures Genuine(calls[..n], secretOf)
  {}

  lemma ReachedLast(key: nat, calls: seq<Keypairs>)
    requires calls != []
    ensures Reached(key, calls) <==> Reached(key, calls[..|calls| - 1]) || key in calls[|calls| - 1]
  {
    var n := |calls| - 1;
    if Reached(key, calls[..n]) {
      var i :| 0 <= i < n && key in calls[..n][i];
      assert key in calls[i];
    }
    if Reached(key, calls) {
      var i :| 0 <= i < |calls| && key in calls[i];
      assert i < n ==> key in calls[..n][i];
    }
  }

  /* A slot that is filled at some point of a run keeps its signature to the end. */
  lemma {:induction false} FilledStays(keys: seq<nat>, threshold: nat, digest: seq<byte>, signer: Signer,
                                       calls: seq<Keypairs>, secretOf: nat -> Secret, n: nat, j: nat)
    requires Genuine(calls, secretOf) && n <= |calls| && j < |keys|
    requires Filled(Run(Blank(keys, threshold, digest), signer, calls[..n]), j)
    ensures Run(Blank(keys, threshold, digest), signer, calls).signatures[j]
            == Run(Blank(keys, threshold, digest), signer, calls[..n]).signatures[j]
    decreases |calls|
  {
    if n == |calls| {
      assert calls[..n] == calls;
    } else {
      var before := calls[..|calls| - 1];
      GenuinePrefix(calls, |calls| - 1, secretOf);
      assert before[..n] == calls[..n];
      FilledStays(keys, threshold, digest, signer, before, secretOf, n, j);
      SlotsHoldOwn(keys, threshold, digest, signer, before, secretOf, j);
      SlotsHoldOwn(keys, threshold, digest, signer, calls, secretOf, j);
    }
  }

  /* More slots filled, more signatures present. */
  lemma {:induction false} PresentMonotone(a: seq<Signature>, b: seq<Signature>)
    requires |a| == |b| && forall j :: 0 <= j < |a| && a[j] != NO_SIGNATURE ==> b[j] != NO_SIGNATURE
    ensures |Present(a)| <= |Present(b)|
  {
    if a != [] { PresentMonotone(a[..|a| - 1], b[..|b| - 1]); }
  }

  lemma CompleteStays(s: Slots, signer: Signer, pairs: Keypairs)
    requires |s.signatures| == |s.keys|
    ensures Complete(s) ==> Signed(s, signer, pairs) == s
  {}

  /* While an input is incomplete no call has been skipped, so exactly the reached slots are full. */
  lemma {:induction false} IncompleteFilled(keys: seq<nat>, threshold: nat, digest: seq<byte>, signer: Signer,
                                            calls: seq<Keypairs>, j: nat)
    requires j < |keys| && !Complete(Run(Blank(keys, threshold, digest), signer, calls))
    ensures Filled(Run(Blank(keys, threshold, digest), signer, calls), j) <==> Reached(keys[j], calls)
    decreases calls
  {
    if calls != [] {
      var before := Run(Blank(keys, threshold, digest), signer, calls[..|calls| - 1]);
      CompleteStays(before, signer, calls[|calls| - 1]);
      IncompleteFilled(keys, threshold, digest, signer, calls[..|calls| - 1], j);
      ReachedLast(keys[j], calls);
    }
  }

  /* One mark for every key that some call brought. */
  function Marks(keys: seq<nat>, calls: seq<Keypairs>): (r: seq<Signature>)
    ensures |r| == |keys|
    ensures forall j :: 0 <= j < |keys| ==> (r[j] != NO_SIGNATURE <==> Reached(keys[j], calls))
  {
    seq(|keys|, j requires 0 <= j < |keys| => if Reached(keys[j], calls) then [] else NO_SIGNATURE)
  }

  function Cosigners(keys: seq<nat>, calls: seq<Keypairs>): nat
  {
    |Present(Marks(keys, calls))|
  }

  /* Whatever the order and grouping of the calls, an input is complete exactly when the calls
     together brought the keys of at least threshold slots (or there are no slots). */
  lemma CompleteWhenEnough(keys: seq<nat>, threshold: nat, digest: seq<byte>, signer: Signer,
                           calls: seq<Keypairs>, secretOf: nat -> Secret)
    requires Genuine(calls, secretOf)
    ensures Complete(Run(Blank(keys, threshold, digest), signer, calls))
            <==> keys == [] || Cosigners(keys, calls) >= threshold
  {
    hide Run, Signed, Present;
    var s, marks := Run(Blank(keys, threshold, digest), signer, calls), Marks(keys, calls);
    forall j | 0 <= j < |keys| && s.signatures[j] != NO_SIGNATURE ensures marks[j] != NO_SIGNATURE {
      SlotsHoldOwn(keys, threshold, digest, signer, calls, secretOf, j);
    }
    PresentMonotone(s.signatures, marks);
    if !Complete(s) {
      forall j | 0 <= j < |keys| && marks[j] != NO_SIGNATURE ensures s.signatures[j] != NO_SIGNATURE {
        IncompleteFilled(keys, threshold, digest, signer, calls, j);
      }
      PresentMonotone(marks, s.signatures);
    }
  }

  // ---------------------------------------------------------------------------- unused keys

  function BlankKeys(keys: seq<nat>, signatures: seq<Signature>): seq<nat>
    requires |keys| == |signatures|
  {
    if keys == [] then []
    else
      var n := |keys| - 1;
      BlankKeys(keys[..n], signatures[..n]) + if signatures[n] == NO_SIGNATURE then [keys[n]] else []
  }

  function Unused(s: Slots): seq<nat>
    requires |s.signatures| == |s.keys|
  {
    if Complete(s) then [] else BlankKeys(s.keys, s.signatures)
  }

  function Unreached(keys: seq<nat>, calls: seq<Keypairs>): seq<nat>
  {
    if keys == [] then []
    else
      var n := |keys| - 1;
      Unreached(keys[..n], calls) + if Reached(keys[n], calls) then [] else [keys[n]]
  }

  lemma {:induction false} BlankAreUnreached(keys: seq<nat>, signatures: seq<Signature>, calls: seq<Keypairs>)
    requires |keys| == |signatures|
    requires forall j :: 0 <= j < |keys| ==> (signatures[j] != NO_SIGNATURE <==> Reached(keys[j], calls))
    ensures BlankKeys(keys, signatures) == Unreached(keys, calls)
  {
    hide Reached;
    if keys != [] {
      var n := |keys| - 1;
      forall j | 0 <= j < n ensures signatures[..n][j] != NO_SIGNATURE <==> Reached(keys[..n][j], calls) {
        assert keys[..n][j] == keys[j] && signatures[..n][j] == signatures[j];
      }
      BlankAreUnreached(keys[..n], signatures[..n], calls);
    }
  }

  /* The keys still wanted are those no call has brought, in key order; none once complete. */
  lemma UnusedAreUnreached(keys: seq<nat>, threshold: nat, digest: seq<byte>, signer: Signer, calls: seq<Keypairs>)
    ensures var s := Run(Blank(keys, threshold, digest), signer, calls);
            Unused(s) == if Complete(s) then [] else Unreached(keys, calls)
  {
    hide Run, Signed, Present, Reached;
    var s := Run(Blank(keys, threshold, digest), signer, calls);
    if !Complete(s) {
      forall j | 0 <= j < |keys| ensures s.signatures[j] != NO_SIGNATURE <==> Reached(keys[j], calls) {
        IncompleteFilled(keys, threshold, digest, signer, calls, j);
      }
      BlankAreUnreached(keys, s.signatures, calls);
    }
  }

  // -------------------------------------------------------------------- the signatures used

  /* The first threshold signatures present, padded with blanks. */
  method BareMultisignatures(threshold: nat, signatures: seq<Signature>) returns (r: seq<Signature>)
    ensures r == Bare(threshold, signatures)
  {
    var present := [];
    for i := 0 to |signatures|
      invariant present == Present(signatures[..i])
    {
      assert signatures[..i + 1][..i] == signatures[..i];
      if signatures[i] != NO_SIGNATURE {
        present := present + [signatures[i]];
      }
    }
    assert signatures[..|signatures|] == signatures;
    r := if |present| < threshold then present else present[..threshold];
    while |r| < threshold
      invariant |r| <= threshold
      invariant r + seq(threshold - |r|, _ => NO_SIGNATURE) == Bare(threshold, signatures)
    {
      assert seq(threshold - |r|, _ => NO_SIGNATURE)
             == [NO_SIGNATURE] + seq(threshold - |r| - 1, _ => NO_SIGNATURE);
      r := r + [NO_SIGNATURE];
    }
  }

  function Bare(threshold: nat, signatures: seq<Signature>): seq<Signature>
  {
    var present := Present(signatures);
    if |present| >= threshold then present[..threshold]
    else present + seq(threshold - |present|, _ => NO_SIGNATURE)
  }

  /* The slots that are filled, in order. */
  function FilledSlots(signatures: seq<Signature>): seq<nat>
  {
    if signatures == [] then []
    else
      var n := |signatures| - 1;
      FilledSlots(signatures[..n]) + if signatures[n] != NO_SIGNATURE then [n] else []
  }

  ghost predicate Ascending(js: seq<nat>, n: nat)
  {
    (forall k :: 0 <= k < |js| ==> js[k] < n) && forall k, l :: 0 <= k < l < |js| ==> js[k] < js[l]
  }

  lemma {:induction false} PresentInOrder(signatures: seq<Signature>)
    ensures var js := FilledSlots(signatures);
            && |js| == |Present(signatures)| && Ascending(js, |signatures|)
            && (forall k :: 0 <= k < |js| ==>
                  Present(signatures)[k] == signatures[js[k]] && signatures[js[k]] != NO_SIGNATURE)
  {
    if signatures != [] { PresentInOrder(signatures[..|signatures| - 1]); }
  }

  /* Exactly threshold entries: signatures in key order, then blanks; no blank exactly when
     enough slots are filled. */
  lemma BareInKeyOrder(threshold: nat, signatures: seq<Signature>)
    ensures var r, js := Bare(threshold, signatures), FilledSlots(signatures);
            && |r| == threshold && Ascending(js, |signatures|)
            && (forall k :: 0 <= k < threshold ==>
                  r[k] == if k < |js| then signatures[js[k]] else [0xFF])
            && ((forall k :: 0 <= k < threshold ==> r[k] != NO_SIGNATURE) <==> |Present(signatures)| >= threshold)
  {
    PresentInOrder(signatures);
    var r, js := Bare(threshold, signatures), FilledSlots(signatures);
    if |js| < threshold {
      assert r[|js|] == NO_SIGNATURE;
    }
  }

  /* A completed input's script carries, in key order, threshold genuine signatures of its keys. */
  lemma CompletedScript(keys: seq<nat>, threshold: nat, digest: seq<byte>, signer: Signer,
                        calls: seq<Keypairs>, secretOf: nat -> Secret)
    requires Genuine(calls, secretOf) && keys != []
    requires Complete(Run(Blank(keys, threshold, digest), signer, calls))
    ensures var s := Run(Blank(keys, threshold, digest), signer, calls);
            var r, js := Bare(threshold, s.signatures), FilledSlots(s.signatures);
            && |r| == threshold <= |js| && Ascending(js, |keys|)
            && forall k :: 0 <= k < threshold ==>
                 r[k] == signer(secretOf(keys[js[k]]), digest) + [0x41] && Reached(keys[js[k]], calls)
  {
    hide Run, Signed, Present, Reached, FilledSlots;
    var s := Run(Blank(keys, threshold, digest), signer, calls);
    var js := FilledSlots(s.signatures);
    PresentInOrder(s.signatures);
    BareInKeyOrder(threshold, s.signatures);
    forall k | 0 <= k < threshold
      ensures Bare(threshold, s.signatures)[k] == signer(secretOf(keys[js[k]]), digest) + [0x41]
              && Reached(keys[js[k]], calls)
    {
      SlotsHoldOwn(keys, threshold, digest, signer, calls, secretOf, js[k]);
    }
  }
}
