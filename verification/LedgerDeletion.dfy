/**
 Deleting transactions: the delta rows of a transaction go with it, so the balance is kept exactly
 when every output that comes back was charged to that transaction. Where cached transactions spend
 one output twice, only one of them is charged for it.
 */
module LedgerDeletion {
  import opened Ledger
  import opened LedgerRows
  import opened LedgerSafety
  import opened Sums
  import opened Wrappers

  // ----------------------------------------------------------------------- who is charged

  /* The recorded outputs, unspent or spent. */
  ghost function HeldOf(s: State): map<Outpoint, Holding>
  {
    map o | o in s.rows && Known(s, o) :: Holding(s.rows[o].value, s.rows[o].key)
  }

  /* Every spent output is charged to a cached transaction that spends it, and every delta row is
     the net effect of its transaction. */
  ghost predicate ChargedTo(s: State, c: Charges)
  {
    && c.Keys == s.stxos.Keys
    && (forall o :: o in c ==> c[o] in s.cache && o in s.cache[c[o]].inputs)
    && RowsExact(HeldOf(s), c, s.deltas)
  }

  ghost predicate Charged(s: State)
  {
    exists c :: ChargedTo(s, c)
  }

  lemma HeldStep(s: State, r: State, o: Outpoint, h: Holding)
    requires o in r.rows && Known(r, o) && Holding(r.rows[o].value, r.rows[o].key) == h
    requires forall x :: x != o ==> Known(r, x) == Known(s, x) && (x in r.rows <==> x in s.rows)
    requires forall x :: x != o && x in s.rows ==> r.rows[x] == s.rows[x]
    ensures HeldOf(r) == HeldOf(s)[o := h]
  {
    MapsEqual(HeldOf(r), HeldOf(s)[o := h]);
  }

  lemma HeldAt(s: State, o: Outpoint)
    ensures o in HeldOf(s) <==> o in s.rows && Known(s, o)
    ensures o in HeldOf(s) ==> HeldOf(s)[o] == Holding(s.rows[o].value, s.rows[o].key)
  {}

  lemma SpentCharged(s: State, c: Charges, t: TxId, i: nat, l: KeyId, b: TxId)
    requires t in s.cache && i < |s.cache[t].outputs| && ChargedTo(s, c) && !Known(s, Outpoint(t, i))
    requires b in s.cache && Outpoint(t, i) in s.cache[b].inputs
    ensures ChargedTo(AddSpent(s, t, i, l, b), c[Outpoint(t, i) := b])
  {
    hide RowsExact, HeldOf;
    var r, o, h := AddSpent(s, t, i, l, b), Outpoint(t, i), Holding(s.cache[t].outputs[i].value, l);
    HeldAt(s, o);
    HeldStep(s, r, o, h);
    RowsAddSpent(HeldOf(s), c, s.deltas, o, h, b);
  }

  lemma UnspentCharged(s: State, c: Charges, t: TxId, i: nat, l: KeyId)
    requires t in s.cache && i < |s.cache[t].outputs| && ChargedTo(s, c) && !Known(s, Outpoint(t, i))
    ensures ChargedTo(AddUnspent(s, t, i, l), c)
  {
    hide RowsExact, HeldOf;
    var r, o, h := AddUnspent(s, t, i, l), Outpoint(t, i), Holding(s.cache[t].outputs[i].value, l);
    HeldAt(s, o);
    HeldStep(s, r, o, h);
    RowsAddUnspent(HeldOf(s), c, s.deltas, o, h);
  }

  // --------------------------------------------------------------------------- processing

  lemma CreateCharged(s: State, t: TxId, i: nat)
    requires t in s.cache && i < |s.cache[t].outputs| && Charged(s)
    ensures Charged(CreateOutput(s, t, i))
  {
    hide ChargedTo, FindSpender;
    var c :| ChargedTo(s, c);
    var o := Outpoint(t, i);
    var owner := OwnerOf(s, t, s.cache[t].outputs[i].script);
    if !Known(s, o) && owner.Some? {
      var l := owner.value;
      FindSpenderExact(s.cache, s.history[l], t, o);
      match FindSpender(s.cache, s.history[l], t, o) {
        case Some(b) => SpentCharged(s, c, t, i, l, b);
        case None => UnspentCharged(s, c, t, i, l);
      }
    }
  }

  lemma SpendCharged(s: State, t: TxId, o: Outpoint)
    requires t in s.cache && o in s.cache[t].inputs && Coherent(s, o) && Charged(s)
    ensures Charged(SpendInput(s, t, o))
  {
    hide RowsExact, HeldOf;
    if o in s.utxos {
      var c :| ChargedTo(s, c);
      var r, h := SpendInput(s, t, o), Holding(s.utxos[o].value, s.utxos[o].key);
      HeldAt(s, o);
      HeldStep(s, r, o, h);
      assert HeldOf(s)[o := h] == HeldOf(s);
      RowsSpend(HeldOf(s), c, s.deltas, o, t);
      assert ChargedTo(r, c[o := t]);
    }
  }

  lemma {:induction false} CreatesCharged(s: State, t: TxId, indices: seq<nat>)
    requires InRange(s, t, indices) && Charged(s)
    ensures Charged(CreateOutputs(s, t, indices))
  {
    hide Charged, CreateOutput;
    if indices != [] {
      var n := |indices| - 1;
      assert indices[n] in indices && forall i :: i in indices[..n] ==> i in indices;
      CreatesCharged(s, t, indices[..n]);
      CreateCharged(CreateOutputs(s, t, indices[..n]), t, indices[n]);
    }
  }

  lemma {:induction false} SpendsCharged(s: State, t: TxId, inputs: seq<Outpoint>)
    requires t in s.cache && Valid(s) && Charged(s) && forall o :: o in inputs ==> o in s.cache[t].inputs
    ensures Charged(SpendInputs(s, t, inputs))
  {
    hide Charged, SpendInput;
    if inputs != [] {
      var n := |inputs| - 1;
      SpendsCharged(s, t, inputs[..n]);
      assert Coherent(s, inputs[n]);
      SpendsEffect(s, t, inputs[..n], inputs[n]);
      assert inputs[n] in inputs;
      SpendCharged(SpendInputs(s, t, inputs[..n]), t, inputs[n]);
    }
  }

  lemma ProcessCharged(s: State, t: TxId, relevant: seq<nat>)
    requires CanProcess(s, t, relevant) && Valid(s) && Charged(s)
    ensures Charged(Process(s, t, relevant))
  {
    hide Charged, CreateOutputs, SpendInputs;
    SelectedInRange(s, t, relevant);
    var indices := Selected(s.cache[t], relevant);
    CreatesCharged(s, t, indices);
    var m := CreateOutputs(s, t, indices);
    forall o ensures Coherent(m, o) {
      assert Coherent(s, o);
      CreatesEffect(s, t, indices, o);
    }
    SpendsCharged(m, t, s.cache[t].inputs);
  }

  // ----------------------------------------------------------------------------- deletion

  /* The row of t for a key is what its removal takes out less what it brings back. */
  ghost predicate RowPays(s: State, t: TxId, k: KeyId)
    requires t in s.cache
  {
    Get(s.deltas, (t, k)) == Sum(KeyValues(OwnUtxos(s, t), k)) - Sum(KeyValues(BackAgain(s, t), k))
  }

  lemma DeleteBalances(s: State, t: TxId, k: KeyId)
    requires t in s.cache && Valid(s) && BalancedAt(s.deltas, s.utxos, k)
    ensures BalancedAt(Deleted(s, t).deltas, Deleted(s, t).utxos, k) <==> RowPays(s, t, k)
  {
    hide Sum, KeyValues, Removed;
    RemoveEffect(s, t, k);
    DeletedKeyDeltas(s, t, k);
    SumSplit(KeyDeltas(s.deltas, k), (t, k));
  }

  lemma RemovedDeltas(s: State, t: TxId)
    requires t in s.cache
    ensures Removed(s, t).deltas == s.deltas
  {}

  lemma DeletedKeyDeltas(s: State, t: TxId, k: KeyId)
    requires t in s.cache
    ensures Deleted(s, t).utxos == Removed(s, t).utxos
    ensures KeyDeltas(Deleted(s, t).deltas, k) == KeyDeltas(s.deltas, k) - {(t, k)}
    ensures Get(KeyDeltas(s.deltas, k), (t, k)) == Get(s.deltas, (t, k))
  {
    RemovedDeltas(s, t);
    hide Removed;
    var after, before := KeyDeltas(Deleted(s, t).deltas, k), KeyDeltas(s.deltas, k);
    forall e
      ensures e in after <==> e in before - {(t, k)}
      ensures e in after ==> after[e] == (before - {(t, k)})[e]
    {
      assert e.1 == k ==> (e.0 == t <==> e == (t, k));
    }
    MapsEqual(after, before - {(t, k)});
  }

  // ----------------------------------------------------------- totals follow from the keys

  ghost function DeltasOf(d: map<DeltaKey, int>, keys: set<KeyId>): map<DeltaKey, int>
  {
    map e | e in d && e.1 in keys :: d[e]
  }

  ghost function ValuesOf(utxos: map<Outpoint, Utxo>, keys: set<KeyId>): map<Outpoint, int>
  {
    map o | o in utxos && utxos[o].key in keys :: utxos[o].value
  }

  lemma {:induction false} KeysTotal(d: map<DeltaKey, int>, utxos: map<Outpoint, Utxo>, keys: set<KeyId>)
    requires forall k :: BalancedAt(d, utxos, k)
    ensures Sum(DeltasOf(d, keys)) == Sum(ValuesOf(utxos, keys))
    decreases keys
  {
    hide Sum;
    if keys == {} {
      SumEmpty(DeltasOf(d, keys));
      SumEmpty(ValuesOf(utxos, keys));
    } else {
      var k :| k in keys;
      var rest := keys - {k};
      KeysTotal(d, utxos, rest);
      assert BalancedAt(d, utxos, k);
      assert DeltasOf(d, keys) == DeltasOf(d, rest) + KeyDeltas(d, k);
      assert ValuesOf(utxos, keys) == ValuesOf(utxos, rest) + KeyValues(utxos, k);
      SumUnion(DeltasOf(d, rest), KeyDeltas(d, k));
      SumUnion(ValuesOf(utxos, rest), KeyValues(utxos, k));
    }
  }

  lemma TotalsFollow(s: State)
    requires forall k :: BalancedAt(s.deltas, s.utxos, k)
    ensures Conserved(s)
  {
    var keys := (set e | e in s.deltas :: e.1) + (set o | o in s.utxos :: s.utxos[o].key);
    KeysTotal(s.deltas, s.utxos, keys);
    assert DeltasOf(s.deltas, keys) == s.deltas;
    assert ValuesOf(s.utxos, keys) == Values(s.utxos);
  }

  /* An accepted deletion keeps the ledger conserved exactly when the rows of the transaction pay
     for its removal. */
  lemma DeleteConserves(s: State, t: TxId)
    requires t in s.cache && Valid(s) && Conserved(s)
    ensures Conserved(Deleted(s, t)) <==> forall k :: RowPays(s, t, k)
  {
    hide Sum, Deleted, KeyValues, KeyDeltas, RowPays;
    forall k
      ensures BalancedAt(Deleted(s, t).deltas, Deleted(s, t).utxos, k) <==> RowPays(s, t, k)
    {
      assert BalancedAt(s.deltas, s.utxos, k);
      DeleteBalances(s, t, k);
    }
    if forall k :: RowPays(s, t, k) {
      TotalsFollow(Deleted(s, t));
    }
  }

  /* The values for key k that come back and were charged to t, or to another transaction. */
  ghost function BackCharged(s: State, c: Charges, t: TxId, k: KeyId, toT: bool): map<Outpoint, int>
    requires t in s.cache
  {
    map o | o in KeyValues(BackAgain(s, t), k) && ChargedFor(c, o, t) == toT :: KeyValues(BackAgain(s, t), k)[o]
  }

  /* When no child spends it, the row of t is what it pays less what it is charged for. */
  lemma RowOfDeleted(s: State, c: Charges, t: TxId, k: KeyId)
    requires t in s.cache && Valid(s) && !SpentByChild(s, t) && ChargedTo(s, c)
    ensures Sum(Parts(HeldOf(s), c, t, k))
            == Sum(KeyValues(OwnUtxos(s, t), k)) - Sum(BackCharged(s, c, t, k, true))
  {
    hide Sum, Parts, BackCharged, ChargedTo;
    var own, mine, parts := KeyValues(OwnUtxos(s, t), k), BackCharged(s, c, t, k, true), Parts(HeldOf(s), c, t, k);
    forall o
      ensures !(o in own && o in mine)
      ensures o in parts <==> o in own + Negated(mine)
      ensures o in parts ==> parts[o] == (own + Negated(mine))[o]
    {
      PartOfDeleted(s, c, t, k, o);
    }
    MapsEqual(parts, own + Negated(mine));
    SumUnion(own, Negated(mine));
    SumNegated(mine);
  }

  lemma PartOfDeleted(s: State, c: Charges, t: TxId, k: KeyId, o: Outpoint)
    requires t in s.cache && Valid(s) && !SpentByChild(s, t) && ChargedTo(s, c)
    ensures var own, mine, parts := KeyValues(OwnUtxos(s, t), k), BackCharged(s, c, t, k, true),
                                    Parts(HeldOf(s), c, t, k);
            && !(o in own && o in mine)
            && (o in parts <==> o in own || o in mine)
            && (o in own ==> parts[o] == own[o])
            && (o in mine ==> parts[o] == 0 - mine[o])
  {
    hide RowsExact;
    assert Coherent(s, o);
    if Known(s, o) && o.tx == t {
      assert o == Outpoint(t, o.index);
    }
  }

  lemma BackSplits(s: State, c: Charges, t: TxId, k: KeyId)
    requires t in s.cache
    ensures Sum(KeyValues(BackAgain(s, t), k))
            == Sum(BackCharged(s, c, t, k, true)) + Sum(BackCharged(s, c, t, k, false))
  {
    hide Sum, ChargedFor;
    var back, mine, others :=
      KeyValues(BackAgain(s, t), k), BackCharged(s, c, t, k, true), BackCharged(s, c, t, k, false);
    MapsEqual(mine + others, back);
    SumUnion(mine, others);
  }

  /* Every output of value that comes back with t was charged to t. */
  ghost predicate OwnCharges(s: State, c: Charges, t: TxId)
    requires t in s.cache
  {
    forall o :: o in BackAgain(s, t) && BackAgain(s, t)[o].value > 0 ==> ChargedFor(c, o, t)
  }

  ghost predicate NoOthers(s: State, c: Charges, t: TxId, k: KeyId)
    requires t in s.cache
  {
    forall o :: o in BackCharged(s, c, t, k, false) ==> BackCharged(s, c, t, k, false)[o] == 0
  }

  lemma PaysExactly(s: State, c: Charges, t: TxId, k: KeyId)
    requires t in s.cache && Valid(s) && !SpentByChild(s, t) && ChargedTo(s, c)
    ensures RowPays(s, t, k) <==> NoOthers(s, c, t, k)
  {
    assert forall o :: o in BackCharged(s, c, t, k, false) ==> BackCharged(s, c, t, k, false)[o] >= 0;
    hide Sum, Parts, KeyValues, BackCharged, SpentByChild, OwnUtxos, BackAgain;
    OneRow(HeldOf(s), c, s.deltas, t, k);
    RowOfDeleted(s, c, t, k);
    BackSplits(s, c, t, k);
    SumZero(BackCharged(s, c, t, k, false));
  }

  lemma OthersByKey(s: State, c: Charges, t: TxId)
    requires t in s.cache
    ensures OwnCharges(s, c, t) <==> forall k :: NoOthers(s, c, t, k)
  {
    hide BackAgain;
    forall o | o in BackAgain(s, t) && BackAgain(s, t)[o].value > 0 && !ChargedFor(c, o, t)
      ensures !NoOthers(s, c, t, BackAgain(s, t)[o].key)
    {
      assert o in BackCharged(s, c, t, BackAgain(s, t)[o].key, false);
    }
    forall k | OwnCharges(s, c, t) ensures NoOthers(s, c, t, k) {}
  }

  /* An accepted deletion keeps the balance exactly when every output of value that comes back was
     charged to the deleted transaction. */
  lemma DeleteExact(s: State, c: Charges, t: TxId)
    requires t in s.cache && Valid(s) && Conserved(s) && ChargedTo(s, c) && !SpentByChild(s, t)
    ensures Conserved(Deleted(s, t)) <==> OwnCharges(s, c, t)
  {
    hide Conserved, Deleted, SpentByChild, ChargedTo, RowPays, NoOthers, OwnCharges;
    DeleteConserves(s, t);
    OthersByKey(s, c, t);
    forall k ensures RowPays(s, t, k) <==> NoOthers(s, c, t, k) {
      PaysExactly(s, c, t, k);
    }
  }

  /* No input of t that is recorded as spent is spent by another cached transaction. */
  ghost predicate SoleSpends(s: State, t: TxId)
    requires t in s.cache
  {
    forall o, u :: o in s.stxos && o in s.cache[t].inputs && u in s.cache && o in s.cache[u].inputs ==> u == t
  }

  lemma SoleOwnCharges(s: State, c: Charges, t: TxId)
    requires t in s.cache && ChargedTo(s, c) && SoleSpends(s, t)
    ensures OwnCharges(s, c, t)
    ensures forall o :: o in s.stxos ==> (ChargedFor(c, o, t) <==> o in s.cache[t].inputs)
  {
    hide RowsExact;
    forall o | o in s.stxos ensures ChargedFor(c, o, t) <==> o in s.cache[t].inputs {
      assert c[o] in s.cache && o in s.cache[c[o]].inputs;
    }
  }

  /* What a deletion does to one outpoint. */
  lemma DeletedOf(s: State, t: TxId, o: Outpoint)
    requires t in s.cache && Valid(s) && Grounded(s) && !SpentByChild(s, t)
    ensures var r := Deleted(s, t);
            && (o in r.stxos <==> o in s.stxos && o !in s.cache[t].inputs)
            && (o.tx == t ==> o !in s.stxos && !Known(r, o))
            && (o.tx != t ==>
                  && Known(r, o) == Known(s, o) && (o in r.rows <==> o in s.rows)
                  && (o in s.rows ==> r.rows[o].key == s.rows[o].key && r.rows[o].value == s.rows[o].value))
  {
    assert Coherent(s, o);
    RemovedAt(s, t, o);
    DeletedAt(s, t, o);
    assert o.tx == t ==> o == Outpoint(t, o.index);
  }

  lemma DeletedCache(s: State, t: TxId, u: TxId)
    requires t in s.cache
    ensures u in Deleted(s, t).cache <==> u in s.cache && u != t
    ensures u in Deleted(s, t).cache ==> Deleted(s, t).cache[u] == s.cache[u]
  {}

  lemma DeletedDelta(s: State, t: TxId, u: TxId, k: KeyId)
    requires t in s.cache
    ensures (u, k) in Deleted(s, t).deltas <==> u != t && (u, k) in s.deltas
    ensures Get(Deleted(s, t).deltas, (u, k)) == if u == t then 0 else Get(s.deltas, (u, k))
  {}

  /* The charges that stay when t is deleted. */
  ghost function Without(c: Charges, t: TxId): Charges
  {
    map o | o in c && c[o] != t :: c[o]
  }

  lemma OtherPart(s: State, c: Charges, t: TxId, u: TxId, k: KeyId, o: Outpoint)
    requires t in s.cache && u != t && Valid(s) && Grounded(s) && ChargedTo(s, c) && !SpentByChild(s, t)
    ensures var before, after := Parts(HeldOf(s), c, u, k), Parts(HeldOf(Deleted(s, t)), Without(c, t), u, k);
            && (o in after <==> o in before) && (o in after ==> after[o] == before[o])
  {
    hide Sum, Deleted, SpentByChild, Valid, RowsExact;
    DeletedOf(s, t, o);
    assert ChargedFor(Without(c, t), o, u) <==> ChargedFor(c, o, u);
  }

  lemma NoPart(s: State, c: Charges, t: TxId, k: KeyId)
    requires t in s.cache && Valid(s) && Grounded(s) && !SpentByChild(s, t)
    ensures Parts(HeldOf(Deleted(s, t)), Without(c, t), t, k).Keys == {}
  {
    var r := Deleted(s, t);
    hide Deleted, SpentByChild, Valid;
    forall o ensures !Touches(HeldOf(r), Without(c, t), o, t, k) {
      DeletedOf(s, t, o);
    }
  }

  /* The rows of all other transactions are untouched, and those of t are gone. */
  lemma RowAfterDelete(s: State, c: Charges, t: TxId, u: TxId, k: KeyId)
    requires t in s.cache && Valid(s) && Grounded(s) && ChargedTo(s, c) && !SpentByChild(s, t)
    ensures RowExact(HeldOf(Deleted(s, t)), Without(c, t), Deleted(s, t).deltas, u, k)
  {
    hide Sum, SpentByChild, Deleted, Parts, Valid, Grounded, RowsExact;
    var before, after := Parts(HeldOf(s), c, u, k), Parts(HeldOf(Deleted(s, t)), Without(c, t), u, k);
    DeletedDelta(s, t, u, k);
    OneRow(HeldOf(s), c, s.deltas, u, k);
    if u == t {
      NoPart(s, c, t, k);
      SumEmpty(after);
    } else {
      forall o ensures (o in after <==> o in before) && (o in after ==> after[o] == before[o]) {
        OtherPart(s, c, t, u, k, o);
      }
      MapsEqual(after, before);
    }
  }

  lemma DeleteCharged(s: State, c: Charges, t: TxId)
    requires t in s.cache && Valid(s) && Grounded(s) && ChargedTo(s, c) && !SpentByChild(s, t) && SoleSpends(s, t)
    ensures ChargedTo(Deleted(s, t), Without(c, t))
  {
    hide Deleted, SpentByChild, Valid, Grounded, SoleSpends, HeldOf, RowExact;
    var r, d := Deleted(s, t), Without(c, t);
    forall u, k ensures RowExact(HeldOf(r), d, r.deltas, u, k) { RowAfterDelete(s, c, t, u, k); }
    SoleOwnCharges(s, c, t);
    forall o
      ensures o in d <==> o in r.stxos
      ensures o in d ==> d[o] in r.cache && o in r.cache[d[o]].inputs
    {
      DeletedOf(s, t, o);
      if o in d { DeletedCache(s, t, d[o]); }
    }
  }

  // ---------------------------------------------------------------------------------- runs

  ghost predicate Clean(s: State)
  {
    Valid(s) && Grounded(s) && Charged(s) && Conserved(s)
  }

  /* Removals happen only as part of deletions, and no spent input of a transaction that is deleted
     has another cached spender. Anything may arrive, double spends included. */
  ghost predicate CleanEvent(s: State, e: Event)
  {
    Enabled(s, e) && !e.RemoveTx? && (e.DeleteTx? && !SpentByChild(s, e.id) ==> SoleSpends(s, e.id))
  }

  ghost predicate CleanRuns(s: State, events: seq<Event>, r: State)
    decreases |events|
  {
    if events == [] then r == s
    else CleanEvent(s, events[0]) && CleanRuns(Apply(s, events[0]), events[1..], r)
  }

  /* Charges do not look at histories, and the cache only grows by an arrival. */
  lemma SameCharges(s: State, r: State)
    requires Charged(s)
    requires r.utxos == s.utxos && r.stxos == s.stxos && r.rows == s.rows && r.deltas == s.deltas
    requires forall t :: t in s.cache ==> t in r.cache && r.cache[t] == s.cache[t]
    ensures Charged(r)
  {
    hide RowsExact;
    var c :| ChargedTo(s, c);
    MapsEqual(HeldOf(r), HeldOf(s));
    assert ChargedTo(r, c);
  }

  lemma ApplyClean(s: State, e: Event)
    requires Clean(s) && CleanEvent(s, e)
    ensures Clean(Apply(s, e))
  {
    hide Sum, Process, Deleted, SpentByChild, Charged, Conserved, ChargedTo, SoleSpends;
    ApplyValid(s, e);
    match e {
      case AddTx(t, tx) =>
        SameCharges(s, Apply(s, e));
        ApplyConserves(s, e);
      case SetHistory(k, script, hist) =>
        SameCharges(s, Apply(s, e));
        ApplyConserves(s, e);
      case ProcessTx(t, relevant) =>
        ProcessCharged(s, t, relevant);
        ApplyConserves(s, e);
      case DeleteTx(t) =>
        if !SpentByChild(s, t) {
          DeleteClean(s, t);
        }
    }
  }

  lemma DeleteClean(s: State, t: TxId)
    requires t in s.cache && Clean(s) && !SpentByChild(s, t) && SoleSpends(s, t)
    ensures Charged(Deleted(s, t)) && Conserved(Deleted(s, t))
  {
    hide Deleted, SpentByChild, Conserved, ChargedTo, SoleSpends;
    var c :| ChargedTo(s, c);
    DeleteCharged(s, c, t);
    SoleOwnCharges(s, c, t);
    DeleteExact(s, c, t);
  }

  /* Over every run with deletions, double spends included, in which no spent input of a deleted
     transaction has another cached spender: the deltas of each key sum to its unspent value. */
  lemma {:induction false} DeletionsConserve(s: State, events: seq<Event>, r: State)
    requires CleanRuns(s, events, r) && Clean(s)
    ensures Clean(r)
    decreases |events|
  {
    if events != [] {
      hide Clean, CleanEvent, Apply;
      CleanEnabled(s, events[0]);
      ApplyClean(s, events[0]);
      DeletionsConserve(Apply(s, events[0]), events[1..], r);
    }
  }

  lemma CleanEnabled(s: State, e: Event)
    requires CleanEvent(s, e)
    ensures Enabled(s, e)
  {}

  // ------------------------------------------------------------------ a deletion that does not

  const SPENDING := Tx([PAID], [], false)

  /* A payment and two transactions that spend it, before any of them is processed. */
  const CONFLICT := NOTHING.(cache := map[0 := PAYMENT, 1 := SPENDING, 2 := SPENDING],
                             scripts := map[1 := [7]], history := map[1 := [0, 1, 2]])

  lemma ConflictArrives() returns (events: seq<Event>)
    ensures Runs(NOTHING, events, CONFLICT) && Forward(events)
  {
    var a := NOTHING.(cache := map[0 := PAYMENT]);
    var b := a.(cache := map[0 := PAYMENT, 1 := SPENDING]);
    var c := b.(cache := map[0 := PAYMENT, 1 := SPENDING, 2 := SPENDING]);
    events := [AddTx(0, PAYMENT)];
    RunsOne(NOTHING, events[0]);
    RunsMore(NOTHING, events, a, AddTx(1, SPENDING));
    events := events + [AddTx(1, SPENDING)];
    RunsMore(NOTHING, events, b, AddTx(2, SPENDING));
    events := events + [AddTx(2, SPENDING)];
    RunsMore(NOTHING, events, c, SetHistory(1, [7], [0, 1, 2]));
    events := events + [SetHistory(1, [7], [0, 1, 2])];
  }

  /* Two cached transactions spend one output, and the first of them is charged for it. Deleting
     the other one makes the output unspent again, though the first still spends it. */
  lemma DeletionCanFail() returns (events: seq<Event>, s: State)
    ensures Runs(NOTHING, events, s) && Forward(events) && Valid(s) && Grounded(s) && Conserved(s)
    ensures 2 in s.cache && !SpentByChild(s, 2)
    ensures var r := Deleted(s, 2);
            && PAID in r.utxos && 1 in r.cache && PAID in r.cache[1].inputs
            && !Conserved(r)
  {
    hide Runs, RowsExact, Conserved, Valid, Grounded;
    var arrivals := ConflictArrives();
    ProcessPayment(CONFLICT);
    assert FindSpender(CONFLICT.cache, [0, 1, 2], 0, PAID)
        == FindSpender(CONFLICT.cache, [1, 2], 0, PAID) == Some(1);
    s := AddSpent(CONFLICT, 0, 0, 1, 1);
    RunsMore(NOTHING, arrivals, CONFLICT, ProcessTx(0, []));
    events := arrivals + [ProcessTx(0, [])];
    NothingKept();
    RunsKeep(NOTHING, events, s);
    NoRows(HeldOf(CONFLICT), map[], CONFLICT.deltas);
    SpentCharged(CONFLICT, map[], 0, 0, 1, 1);
    ConflictDeleted(s, map[][PAID := 1]);
  }

  lemma ConflictDeleted(s: State, c: Charges)
    requires 1 in s.cache && 2 in s.cache && s.cache[1] == s.cache[2] == SPENDING
    requires PAID in s.stxos && PAID in s.rows && s.rows[PAID].value == 5
    requires Valid(s) && Conserved(s) && ChargedTo(s, c) && ChargedFor(c, PAID, 1)
    ensures var r := Deleted(s, 2);
            && !SpentByChild(s, 2) && PAID in r.utxos && 1 in r.cache && PAID in r.cache[1].inputs
            && !Conserved(r)
  {
    hide Conserved, ChargedTo, Valid, Deleted, Removed;
    DeleteExact(s, c, 2);
    RemovedAt(s, 2, PAID);
    DeletedKeyDeltas(s, 2, 1);
    DeletedCache(s, 2, 1);
    assert PAID in BackAgain(s, 2);
  }
}
