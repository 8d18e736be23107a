/**
 What the delta rows of a ledger hold: the row of a transaction and a key is the sum of what the
 transaction pays to the key, less what it is charged for the outputs of the key it spends.
 */
module LedgerRows {
  import opened Ledger
  import opened Sums

  /* The worth of a recorded output and the key that holds it. */
  datatype Holding = Holding(value: nat, key: KeyId)

  /* The transaction each spent output is charged to. */
  type Charges = map<Outpoint, TxId>

  predicate ChargedFor(charges: Charges, o: Outpoint, t: TxId)
  {
    o in charges && charges[o] == t
  }

  /* o accounts for part of the row (t, k): t pays it, or t is charged for it. */
  predicate Touches(held: map<Outpoint, Holding>, charges: Charges, o: Outpoint, t: TxId, k: KeyId)
  {
    o in held && held[o].key == k && (o.tx == t || ChargedFor(charges, o, t))
  }

  function Net(held: map<Outpoint, Holding>, charges: Charges, o: Outpoint, t: TxId): int
    requires o in held
  {
    (if o.tx == t then held[o].value else 0) - (if ChargedFor(charges, o, t) then held[o].value else 0)
  }

  function Parts(held: map<Outpoint, Holding>, charges: Charges, t: TxId, k: KeyId): map<Outpoint, int>
  {
    map o | o in held && Touches(held, charges, o, t, k) :: Net(held, charges, o, t)
  }

  /* Row (t, k) exists when something touches it and holds the net effect of t on k. */
  ghost predicate RowExact(held: map<Outpoint, Holding>, charges: Charges, deltas: map<DeltaKey, int>,
                           t: TxId, k: KeyId)
  {
    && ((t, k) in deltas <==> Parts(held, charges, t, k).Keys != {})
    && Get(deltas, (t, k)) == Sum(Parts(held, charges, t, k))
  }

  ghost predicate RowsExact(held: map<Outpoint, Holding>, charges: Charges, deltas: map<DeltaKey, int>)
  {
    forall t, k :: RowExact(held, charges, deltas, t, k)
  }

  lemma NoRows(held: map<Outpoint, Holding>, charges: Charges, deltas: map<DeltaKey, int>)
    requires held.Keys == {} && deltas.Keys == {}
    ensures RowsExact(held, charges, deltas)
  {
    forall t, k ensures RowExact(held, charges, deltas, t, k) {
      assert Parts(held, charges, t, k).Keys == {};
    }
  }

  /* Changing the standing of one outpoint changes only its own part of each row. */
  lemma PartsChange(held: map<Outpoint, Holding>, charges: Charges, held': map<Outpoint, Holding>,
                    charges': Charges, o: Outpoint, t: TxId, k: KeyId)
    requires held' - {o} == held - {o} && charges' - {o} == charges - {o}
    ensures var before, after := Parts(held, charges, t, k), Parts(held', charges', t, k);
            && Sum(after) == Sum(before) - Get(before, o) + Get(after, o)
            && after.Keys - {o} == before.Keys - {o}
  {
    hide Sum;
    var before, after := Parts(held, charges, t, k), Parts(held', charges', t, k);
    forall x
      ensures x in after - {o} <==> x in before - {o}
      ensures x in before - {o} ==> (after - {o})[x] == (before - {o})[x]
    {
      assert x in held' - {o} <==> x in held - {o};
      assert x in held - {o} ==> (held' - {o})[x] == (held - {o})[x];
      assert x in charges' - {o} <==> x in charges - {o};
      assert x in charges - {o} ==> (charges' - {o})[x] == (charges - {o})[x];
    }
    MapsEqual(after - {o}, before - {o});
    assert (after - {o}).Keys == after.Keys - {o} && (before - {o}).Keys == before.Keys - {o};
    SumChange(before, after, o);
  }

  function Credited(deltas: map<DeltaKey, int>, t: TxId, h: Holding): map<DeltaKey, int>
  {
    Bump(deltas, (t, h.key), h.value)
  }

  function Debited(deltas: map<DeltaKey, int>, t: TxId, h: Holding): map<DeltaKey, int>
  {
    Bump(deltas, (t, h.key), 0 - h.value)
  }

  lemma KeysWith(before: map<Outpoint, int>, after: map<Outpoint, int>, o: Outpoint)
    requires after.Keys - {o} == before.Keys - {o}
    ensures o in after ==> after.Keys != {}
    ensures o !in after && o !in before ==> after.Keys == before.Keys
    ensures o in before && o in after ==> after.Keys == before.Keys
  {
    assert o !in after ==> after.Keys == after.Keys - {o};
    assert o !in before ==> before.Keys == before.Keys - {o};
    assert o in after ==> after.Keys == (after.Keys - {o}) + {o};
    assert o in before ==> before.Keys == (before.Keys - {o}) + {o};
  }

  /* A new unspent output adds its value to the row of its transaction. */
  lemma RowAddUnspent(held: map<Outpoint, Holding>, charges: Charges, deltas: map<DeltaKey, int>,
                      o: Outpoint, h: Holding, t: TxId, k: KeyId)
    requires o !in held && o !in charges && RowExact(held, charges, deltas, t, k)
    ensures RowExact(held[o := h], charges, Credited(deltas, o.tx, h), t, k)
  {
    hide Sum;
    PartsChange(held, charges, held[o := h], charges, o, t, k);
    assert Touches(held[o := h], charges, o, t, k) <==> k == h.key && t == o.tx;
    KeysWith(Parts(held, charges, t, k), Parts(held[o := h], charges, t, k), o);
  }

  /* A new output found spent adds to one row and takes from the row of its spender. */
  lemma RowAddSpent(held: map<Outpoint, Holding>, charges: Charges, deltas: map<DeltaKey, int>,
                    o: Outpoint, h: Holding, b: TxId, t: TxId, k: KeyId)
    requires o !in held && o !in charges && RowExact(held, charges, deltas, t, k)
    ensures RowExact(held[o := h], charges[o := b], Credited(Debited(deltas, b, h), o.tx, h), t, k)
  {
    hide Sum;
    PartsChange(held, charges, held[o := h], charges[o := b], o, t, k);
    assert Touches(held[o := h], charges[o := b], o, t, k) <==> k == h.key && (t == o.tx || t == b);
    KeysWith(Parts(held, charges, t, k), Parts(held[o := h], charges[o := b], t, k), o);
  }

  /* Spending an unspent output takes its value from the row of the spender. */
  lemma RowSpend(held: map<Outpoint, Holding>, charges: Charges, deltas: map<DeltaKey, int>,
                 o: Outpoint, b: TxId, t: TxId, k: KeyId)
    requires o in held && o !in charges && RowExact(held, charges, deltas, t, k)
    ensures RowExact(held, charges[o := b], Debited(deltas, b, held[o]), t, k)
  {
    hide Sum;
    PartsChange(held, charges, held, charges[o := b], o, t, k);
    assert Touches(held, charges, o, t, k) <==> k == held[o].key && t == o.tx;
    assert Touches(held, charges[o := b], o, t, k) <==> k == held[o].key && (t == o.tx || t == b);
    KeysWith(Parts(held, charges, t, k), Parts(held, charges[o := b], t, k), o);
  }

  lemma OneRow(held: map<Outpoint, Holding>, charges: Charges, deltas: map<DeltaKey, int>, t: TxId, k: KeyId)
    requires RowsExact(held, charges, deltas)
    ensures RowExact(held, charges, deltas, t, k)
  {}

  lemma RowsAddUnspent(held: map<Outpoint, Holding>, charges: Charges, deltas: map<DeltaKey, int>,
                       o: Outpoint, h: Holding)
    requires o !in held && o !in charges && RowsExact(held, charges, deltas)
    ensures RowsExact(held[o := h], charges, Credited(deltas, o.tx, h))
  {
    var held', after := held[o := h], Credited(deltas, o.tx, h);
    forall t, k ensures RowExact(held', charges, after, t, k) {
      OneRow(held, charges, deltas, t, k);
      RowAddUnspent(held, charges, deltas, o, h, t, k);
    }
  }

  lemma RowsAddSpent(held: map<Outpoint, Holding>, charges: Charges, deltas: map<DeltaKey, int>,
                     o: Outpoint, h: Holding, b: TxId)
    requires o !in held && o !in charges && RowsExact(held, charges, deltas)
    ensures RowsExact(held[o := h], charges[o := b], Credited(Debited(deltas, b, h), o.tx, h))
  {
    var held', charges', after := held[o := h], charges[o := b], Credited(Debited(deltas, b, h), o.tx, h);
    forall t, k ensures RowExact(held', charges', after, t, k) {
      OneRow(held, charges, deltas, t, k);
      RowAddSpent(held, charges, deltas, o, h, b, t, k);
    }
  }

  lemma RowsSpend(held: map<Outpoint, Holding>, charges: Charges, deltas: map<DeltaKey, int>,
                  o: Outpoint, b: TxId)
    requires o in held && o !in charges && RowsExact(held, charges, deltas)
    ensures RowsExact(held, charges[o := b], Debited(deltas, b, held[o]))
  {
    var charges', after := charges[o := b], Debited(deltas, b, held[o]);
    forall t, k ensures RowExact(held, charges', after, t, k) {
      OneRow(held, charges, deltas, t, k);
      RowSpend(held, charges, deltas, o, b, t, k);
    }
  }

  /* Holdings and charges determine every row. */
  lemma RowsDetermined(held: map<Outpoint, Holding>, charges: Charges, d: map<DeltaKey, int>,
                       e: map<DeltaKey, int>)
    requires RowsExact(held, charges, d) && RowsExact(held, charges, e)
    ensures d == e
  {
    forall x: DeltaKey
      ensures x in d <==> x in e
      ensures x in d ==> d[x] == e[x]
    {
      OneRow(held, charges, d, x.0, x.1);
      OneRow(held, charges, e, x.0, x.1);
    }
  }
}
