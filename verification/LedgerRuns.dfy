/**
 Complete runs of the ledger: for a fixed set of transactions with complete key histories, every
 run that processes them all ends in one and the same ledger, whatever the order and however the
 outputs of a transaction were split over processing calls.
 */
module LedgerRuns {
  import opened Ledger
  import opened LedgerRows
  import opened Sums
  import opened Wrappers

  // ------------------------------------------------------------------- the declared ledger

  /* A set of transactions with the histories and scripts recorded before they arrive. */
  datatype World = World(txs: map<TxId, Tx>, history: map<KeyId, seq<TxId>>, scripts: map<KeyId, Script>)

  ghost predicate SpentBy(w: World, o: Outpoint, b: TxId)
  {
    b in w.txs && o in w.txs[b].inputs
  }

  ghost predicate Exists(w: World, o: Outpoint)
  {
    o.tx in w.txs && o.index < |w.txs[o.tx].outputs|
  }

  ghost predicate OwnedBy(w: World, o: Outpoint, k: KeyId)
  {
    Exists(w, o) && k in w.scripts && w.scripts[k] == w.txs[o.tx].outputs[o.index].script
  }

  ghost function Owner(w: World, o: Outpoint): (r: Option<KeyId>)
    ensures r.Some? ==> OwnedBy(w, o, r.value)
    ensures r.None? ==> forall k :: !OwnedBy(w, o, k)
  {
    if exists k :: OwnedBy(w, o, k) then var k :| OwnedBy(w, o, k); Some(k) else None
  }

  ghost predicate NoDoubleSpend(w: World)
  {
    forall o, a, b :: SpentBy(w, o, a) && SpentBy(w, o, b) ==> a == b
  }

  /* The history of a key lists every transaction that pays to it or spends from it. */
  ghost predicate CompleteHistories(w: World)
  {
    forall o, k :: OwnedBy(w, o, k) ==>
      && k in w.history && o.tx in w.history[k]
      && forall b :: SpentBy(w, o, b) ==> b in w.history[k]
  }

  ghost predicate Sound(w: World)
  {
    NoDoubleSpend(w) && CompleteHistories(w) && DistinctScripts(w.scripts)
  }

  ghost function ValueOf(w: World, o: Outpoint): nat
    requires Exists(w, o)
  {
    w.txs[o.tx].outputs[o.index].value
  }

  ghost function AllOutpoints(w: World): (r: set<Outpoint>)
    ensures forall o :: o in r <==> Exists(w, o)
  {
    var r := set t, i | t in w.txs && 0 <= i < |w.txs[t].outputs| :: Outpoint(t, i);
    assert forall o :: Exists(w, o) ==> o == Outpoint(o.tx, o.index) && o in r;
    r
  }

  ghost predicate IsSpent(w: World, o: Outpoint)
  {
    exists b :: SpentBy(w, o, b)
  }

  ghost function OwnedOutpoints(w: World): set<Outpoint>
  {
    set o | o in AllOutpoints(w) && Owner(w, o).Some?
  }

  ghost function SpentOutpoints(w: World): set<Outpoint>
  {
    set o | o in OwnedOutpoints(w) && IsSpent(w, o)
  }

  // ----------------------------------------------------------------- what the deltas hold

  ghost function SpenderOf(w: World, o: Outpoint): (b: TxId)
    requires IsSpent(w, o)
    ensures SpentBy(w, o, b)
  {
    var b :| SpentBy(w, o, b); b
  }

  /* The owned ones among the known outputs. */
  ghost function HeldIn(w: World, known: set<Outpoint>): map<Outpoint, Holding>
  {
    map o | o in known && Exists(w, o) && Owner(w, o).Some? :: Holding(ValueOf(w, o), Owner(w, o).value)
  }

  /* Spent outputs are charged to the transaction of the set that spends them. */
  ghost function ChargesIn(w: World, spent: set<Outpoint>): Charges
  {
    map o | o in spent && IsSpent(w, o) :: SpenderOf(w, o)
  }

  ghost predicate DeltasExact(w: World, known: set<Outpoint>, spent: set<Outpoint>, deltas: map<DeltaKey, int>)
  {
    RowsExact(HeldIn(w, known), ChargesIn(w, spent), deltas)
  }

  lemma HeldGrows(w: World, known: set<Outpoint>, o: Outpoint)
    requires Owner(w, o).Some?
    ensures Exists(w, o)
    ensures HeldIn(w, known + {o}) == HeldIn(w, known)[o := Holding(ValueOf(w, o), Owner(w, o).value)]
  {
    var h := Holding(ValueOf(w, o), Owner(w, o).value);
    MapsEqual(HeldIn(w, known + {o}), HeldIn(w, known)[o := h]);
  }

  lemma ChargesGrow(w: World, spent: set<Outpoint>, o: Outpoint, b: TxId)
    requires NoDoubleSpend(w) && SpentBy(w, o, b)
    ensures ChargesIn(w, spent + {o}) == ChargesIn(w, spent)[o := b]
  {
    MapsEqual(ChargesIn(w, spent + {o}), ChargesIn(w, spent)[o := b]);
  }

  /* A new outpoint, unspent. */
  lemma DeltasAddUnspent(w: World, known: set<Outpoint>, spent: set<Outpoint>,
                         deltas: map<DeltaKey, int>, o: Outpoint, l: KeyId)
    requires Owner(w, o) == Some(l) && o !in known && spent <= known
    requires DeltasExact(w, known, spent, deltas)
    ensures Exists(w, o) && DeltasExact(w, known + {o}, spent, Bump(deltas, (o.tx, l), ValueOf(w, o)))
  {
    hide RowsExact, Owner;
    HeldGrows(w, known, o);
    RowsAddUnspent(HeldIn(w, known), ChargesIn(w, spent), deltas, o, Holding(ValueOf(w, o), l));
  }

  /* A new outpoint found spent. */
  lemma DeltasAddSpent(w: World, known: set<Outpoint>, spent: set<Outpoint>,
                       deltas: map<DeltaKey, int>, o: Outpoint, l: KeyId, b: TxId)
    requires NoDoubleSpend(w) && SpentBy(w, o, b)
    requires Owner(w, o) == Some(l) && o !in known && spent <= known
    requires DeltasExact(w, known, spent, deltas)
    ensures Exists(w, o)
    ensures DeltasExact(w, known + {o}, spent + {o},
                        Bump(Bump(deltas, (b, l), 0 - ValueOf(w, o)), (o.tx, l), ValueOf(w, o)))
  {
    hide RowsExact, Owner;
    HeldGrows(w, known, o);
    ChargesGrow(w, spent, o, b);
    RowsAddSpent(HeldIn(w, known), ChargesIn(w, spent), deltas, o, Holding(ValueOf(w, o), l), b);
  }

  /* A known outpoint is spent. */
  lemma DeltasSpend(w: World, known: set<Outpoint>, spent: set<Outpoint>,
                    deltas: map<DeltaKey, int>, o: Outpoint, l: KeyId, b: TxId)
    requires NoDoubleSpend(w) && SpentBy(w, o, b)
    requires Owner(w, o) == Some(l) && o in known && o !in spent
    requires DeltasExact(w, known, spent, deltas)
    ensures Exists(w, o) && DeltasExact(w, known, spent + {o}, Bump(deltas, (b, l), 0 - ValueOf(w, o)))
  {
    hide RowsExact, Owner;
    HeldGrows(w, known, o);
    ChargesGrow(w, spent, o, b);
    assert known + {o} == known;
    RowsSpend(HeldIn(w, known), ChargesIn(w, spent), deltas, o, b);
  }

  // ------------------------------------------------------------------- the running invariant

  /* What holds of each outpoint while a run is under way: done holds the transactions whose
     inputs were processed, covered the outpoints that were visited. */
  ghost predicate OutpointInv(w: World, s: State, done: set<TxId>, covered: set<Outpoint>, o: Outpoint)
  {
    && (Known(s, o) <==> o in covered && Owner(w, o).Some?)
    && !(o in s.utxos && o in s.stxos)
    && (Known(s, o) ==>
          s.rows.Keys >= {o} &&
          s.rows[o] == Row(ValueOf(w, o), Owner(w, o).value, w.txs[o.tx].coinbase, o in s.stxos))
    && (o in s.rows ==> Known(s, o))
    && (o in s.utxos ==> s.utxos[o] == Utxo(ValueOf(w, o), Owner(w, o).value, w.txs[o.tx].coinbase))
    && (o in s.stxos ==> s.stxos[o] == Owner(w, o).value && IsSpent(w, o))
    && (o in s.utxos ==> forall b :: b in done ==> !SpentBy(w, o, b))
  }

  ghost predicate LedgerRowsExact(w: World, s: State)
  {
    DeltasExact(w, s.utxos.Keys + s.stxos.Keys, s.stxos.Keys, s.deltas)
  }

  ghost predicate RunInv(w: World, s: State, done: set<TxId>, covered: set<Outpoint>)
  {
    && s.history == w.history && s.scripts == w.scripts
    && (forall t :: t in s.cache ==> t in w.txs && s.cache[t] == w.txs[t])
    && done <= s.cache.Keys
    && (forall o :: OutpointInv(w, s, done, covered, o))
    && LedgerRowsExact(w, s)
  }

  lemma OwnerAgrees(w: World, s: State, o: Outpoint)
    requires Sound(w) && s.history == w.history && s.scripts == w.scripts && Exists(w, o)
    ensures OwnerOf(s, o.tx, w.txs[o.tx].outputs[o.index].script) == Owner(w, o)
  {
    var script := w.txs[o.tx].outputs[o.index].script;
    var a, b := OwnerOf(s, o.tx, script), Owner(w, o);
    if a.Some? { assert OwnedBy(w, o, a.value); }
    if b.Some? { assert Owns(s, o.tx, script, b.value); }
  }

  lemma CreatedOutpoint(w: World, s: State, done: set<TxId>, covered: set<Outpoint>, t: TxId, i: nat)
    requires Sound(w) && RunInv(w, s, done, covered)
    requires t in s.cache && t !in done && i < |s.cache[t].outputs|
    requires !Known(s, Outpoint(t, i)) && Owner(w, Outpoint(t, i)).Some?
    ensures OutpointInv(w, CreateOutput(s, t, i), done, covered + {Outpoint(t, i)}, Outpoint(t, i))
  {
    var n := Outpoint(t, i);
    OwnerAgrees(w, s, n);
    var k := Owner(w, n).value;
    assert OwnedBy(w, n, k);
    FindSpenderExact(s.cache, s.history[k], t, n);
    var spender := FindSpender(s.cache, s.history[k], t, n);
    if spender.Some? {
      assert SpentBy(w, n, spender.value);
    }
  }

  lemma OtherOutpoint(w: World, s: State, done: set<TxId>, covered: set<Outpoint>, t: TxId, i: nat, o: Outpoint)
    requires t in s.cache && i < |s.cache[t].outputs| && o != Outpoint(t, i)
    requires OutpointInv(w, s, done, covered, o)
    ensures OutpointInv(w, CreateOutput(s, t, i), done, covered + {Outpoint(t, i)}, o)
  {
    var owner := OwnerOf(s, t, s.cache[t].outputs[i].script);
    if !Known(s, Outpoint(t, i)) && owner.Some? {
      match FindSpender(s.cache, s.history[owner.value], t, Outpoint(t, i)) {
        case Some(b) => assert CreateOutput(s, t, i) == AddSpent(s, t, i, owner.value, b);
        case None => assert CreateOutput(s, t, i) == AddUnspent(s, t, i, owner.value);
      }
    }
  }

  lemma CreateKeepsOutpoints(w: World, s: State, done: set<TxId>, covered: set<Outpoint>, t: TxId, i: nat)
    requires Sound(w) && RunInv(w, s, done, covered)
    requires t in s.cache && t !in done && i < |s.cache[t].outputs|
    ensures forall o :: OutpointInv(w, CreateOutput(s, t, i), done, covered + {Outpoint(t, i)}, o)
  {
    var r, n := CreateOutput(s, t, i), Outpoint(t, i);
    OwnerAgrees(w, s, n);
    forall o
      ensures OutpointInv(w, r, done, covered + {n}, o)
    {
      assert OutpointInv(w, s, done, covered, o);
      if o != n {
        OtherOutpoint(w, s, done, covered, t, i, o);
      } else if !Known(s, n) && Owner(w, n).Some? {
        CreatedOutpoint(w, s, done, covered, t, i);
      }
    }
  }

  lemma AddSpentRows(w: World, s: State, t: TxId, i: nat, k: KeyId, b: TxId)
    requires NoDoubleSpend(w) && LedgerRowsExact(w, s)
    requires t in s.cache && t in w.txs && s.cache[t] == w.txs[t] && i < |s.cache[t].outputs|
    requires !Known(s, Outpoint(t, i)) && Owner(w, Outpoint(t, i)) == Some(k)
    requires SpentBy(w, Outpoint(t, i), b)
    ensures LedgerRowsExact(w, AddSpent(s, t, i, k, b))
  {
    hide DeltasExact, NoDoubleSpend, Owner, SpentBy;
    var known, spent, n := s.utxos.Keys + s.stxos.Keys, s.stxos.Keys, Outpoint(t, i);
    DeltasAddSpent(w, known, spent, s.deltas, n, k, b);
    var r := AddSpent(s, t, i, k, b);
    assert r.utxos.Keys + r.stxos.Keys == known + {n} && r.stxos.Keys == spent + {n};
  }

  lemma AddUnspentRows(w: World, s: State, t: TxId, i: nat, k: KeyId)
    requires LedgerRowsExact(w, s)
    requires t in s.cache && t in w.txs && s.cache[t] == w.txs[t] && i < |s.cache[t].outputs|
    requires !Known(s, Outpoint(t, i)) && Owner(w, Outpoint(t, i)) == Some(k)
    ensures LedgerRowsExact(w, AddUnspent(s, t, i, k))
  {
    hide DeltasExact, Owner;
    var known, spent, n := s.utxos.Keys + s.stxos.Keys, s.stxos.Keys, Outpoint(t, i);
    DeltasAddUnspent(w, known, spent, s.deltas, n, k);
    var r := AddUnspent(s, t, i, k);
    assert r.utxos.Keys + r.stxos.Keys == known + {n} && r.stxos.Keys == spent;
  }

  lemma CreateKeepsRows(w: World, s: State, t: TxId, i: nat)
    requires Sound(w) && s.history == w.history && s.scripts == w.scripts
    requires forall u :: u in s.cache ==> u in w.txs && s.cache[u] == w.txs[u]
    requires t in s.cache && i < |s.cache[t].outputs| && LedgerRowsExact(w, s)
    ensures LedgerRowsExact(w, CreateOutput(s, t, i))
  {
    var n := Outpoint(t, i);
    OwnerAgrees(w, s, n);
    var owner := Owner(w, n);
    if !Known(s, n) && owner.Some? {
      FindSpenderExact(s.cache, s.history[owner.value], t, n);
      match FindSpender(s.cache, s.history[owner.value], t, n) {
        case Some(b) =>
          assert SpentBy(w, n, b);
          AddSpentRows(w, s, t, i, owner.value, b);
        case None =>
          AddUnspentRows(w, s, t, i, owner.value);
      }
    }
  }

  lemma {:induction false} CreatesKeep(w: World, s: State, done: set<TxId>, covered: set<Outpoint>,
                                       t: TxId, indices: seq<nat>)
    requires Sound(w) && RunInv(w, s, done, covered) && t !in done && InRange(s, t, indices)
    ensures RunInv(w, CreateOutputs(s, t, indices), done,
                   covered + set i | i in indices :: Outpoint(t, i))
  {
    if indices == [] {
      assert covered + (set i | i in indices :: Outpoint(t, i)) == covered;
    } else {
      var n := |indices| - 1;
      assert indices[n] in indices && forall i :: i in indices[..n] ==> i in indices;
      CreatesKeep(w, s, done, covered, t, indices[..n]);
      var m := CreateOutputs(s, t, indices[..n]);
      var mid := covered + set i | i in indices[..n] :: Outpoint(t, i);
      CreateKeepsOutpoints(w, m, done, mid, t, indices[n]);
      CreateKeepsRows(w, m, t, indices[n]);
      assert indices == indices[..n] + [indices[n]];
      assert mid + {Outpoint(t, indices[n])} == covered + set i | i in indices :: Outpoint(t, i);
    }
  }

  lemma SpendKeepsOutpoint(w: World, s: State, done: set<TxId>, covered: set<Outpoint>, t: TxId, o: Outpoint,
                           x: Outpoint)
    requires o in s.utxos && SpentBy(w, o, t)
    requires OutpointInv(w, s, done, covered, o) && OutpointInv(w, s, done, covered, x)
    ensures OutpointInv(w, SpendInput(s, t, o), done, covered, x)
  {}

  lemma SpendKeepsRows(w: World, s: State, t: TxId, o: Outpoint)
    requires NoDoubleSpend(w) && SpentBy(w, o, t) && LedgerRowsExact(w, s)
    requires o in s.utxos && o !in s.stxos && Exists(w, o)
    requires Owner(w, o) == Some(s.utxos[o].key) && s.utxos[o].value == ValueOf(w, o)
    ensures LedgerRowsExact(w, SpendInput(s, t, o))
  {
    hide DeltasExact, NoDoubleSpend, Owner, SpentBy;
    var known, spent, r := s.utxos.Keys + s.stxos.Keys, s.stxos.Keys, SpendInput(s, t, o);
    DeltasSpend(w, known, spent, s.deltas, o, s.utxos[o].key, t);
    assert r.utxos.Keys + r.stxos.Keys == known && r.stxos.Keys == spent + {o};
  }

  lemma UnspentOutpoint(w: World, s: State, done: set<TxId>, covered: set<Outpoint>, o: Outpoint)
    requires OutpointInv(w, s, done, covered, o) && o in s.utxos
    ensures o !in s.stxos && Exists(w, o)
    ensures Owner(w, o) == Some(s.utxos[o].key) && s.utxos[o].value == ValueOf(w, o)
  {}

  lemma SpendKeeps(w: World, s: State, done: set<TxId>, covered: set<Outpoint>, t: TxId, o: Outpoint)
    requires Sound(w) && RunInv(w, s, done, covered) && t in s.cache && o in s.cache[t].inputs
    ensures RunInv(w, SpendInput(s, t, o), done, covered)
  {
    hide OutpointInv, LedgerRowsExact;
    assert OutpointInv(w, s, done, covered, o);
    if o in s.utxos {
      UnspentOutpoint(w, s, done, covered, o);
      assert SpentBy(w, o, t);
      forall x ensures OutpointInv(w, SpendInput(s, t, o), done, covered, x) {
        assert OutpointInv(w, s, done, covered, x);
        SpendKeepsOutpoint(w, s, done, covered, t, o, x);
      }
      SpendKeepsRows(w, s, t, o);
    }
  }

  lemma {:induction false} SpendsKeep(w: World, s: State, done: set<TxId>, covered: set<Outpoint>,
                                      t: TxId, inputs: seq<Outpoint>)
    requires Sound(w) && RunInv(w, s, done, covered) && t in s.cache
    requires forall o :: o in inputs ==> o in s.cache[t].inputs
    ensures RunInv(w, SpendInputs(s, t, inputs), done, covered)
  {
    if inputs != [] {
      var n := |inputs| - 1;
      assert inputs[n] in inputs && forall o :: o in inputs[..n] ==> o in inputs;
      SpendsKeep(w, s, done, covered, t, inputs[..n]);
      SpendKeeps(w, SpendInputs(s, t, inputs[..n]), done, covered, t, inputs[n]);
    }
  }

  lemma SmallerDone(w: World, s: State, done: set<TxId>, covered: set<Outpoint>, smaller: set<TxId>)
    requires RunInv(w, s, done, covered) && smaller <= done
    ensures RunInv(w, s, smaller, covered)
  {
    forall o ensures OutpointInv(w, s, smaller, covered, o) {
      assert OutpointInv(w, s, done, covered, o);
    }
  }

  ghost function Visited(w: World, t: TxId, relevant: seq<nat>): set<Outpoint>
    requires t in w.txs
  {
    set i | i in Selected(w.txs[t], relevant) :: Outpoint(t, i)
  }

  lemma ProcessKeeps(w: World, s: State, done: set<TxId>, covered: set<Outpoint>, t: TxId, relevant: seq<nat>)
    requires Sound(w) && RunInv(w, s, done, covered) && CanProcess(s, t, relevant)
    ensures RunInv(w, Process(s, t, relevant), done + {t}, covered + Visited(w, t, relevant))
  {
    var others := done - {t};
    SmallerDone(w, s, done, covered, others);
    SelectedInRange(s, t, relevant);
    var indices := Selected(s.cache[t], relevant);
    CreatesKeep(w, s, others, covered, t, indices);
    var m, visited := CreateOutputs(s, t, indices), covered + Visited(w, t, relevant);
    SpendsKeep(w, m, others, visited, t, s.cache[t].inputs);
    var r := Process(s, t, relevant);
    forall o ensures OutpointInv(w, r, done + {t}, visited, o) {
      assert OutpointInv(w, r, others, visited, o);
      SpendsUnspend(m, t, s.cache[t].inputs, o);
    }
  }

  lemma {:induction false} SpendsUnspend(s: State, t: TxId, inputs: seq<Outpoint>, o: Outpoint)
    ensures o in SpendInputs(s, t, inputs).utxos && o !in SpendInputs(s, t, inputs).stxos
            ==> o !in inputs
  {
    if inputs != [] {
      var n := |inputs| - 1;
      SpendsUnspend(s, t, inputs[..n], o);
      assert inputs == inputs[..n] + [inputs[n]];
    }
  }

  // ---------------------------------------------------------------------- order independence

  datatype Step = Add(id: TxId) | Do(id: TxId, relevant: seq<nat>)

  /* How far a run has come. */
  datatype Progress = Progress(s: State, done: set<TxId>, covered: set<Outpoint>)

  ghost predicate Allowed(w: World, p: Progress, e: Step)
  {
    match e
    case Add(t) => t in w.txs
    case Do(t, relevant) => CanProcess(p.s, t, relevant) && t in w.txs
  }

  ghost function Take(w: World, p: Progress, e: Step): Progress
    requires Allowed(w, p, e)
  {
    match e
    case Add(t) => p.(s := p.s.(cache := p.s.cache[t := w.txs[t]]))
    case Do(t, relevant) =>
      Progress(Process(p.s, t, relevant), p.done + {t}, p.covered + Visited(w, t, relevant))
  }

  ghost predicate RunsTo(w: World, p: Progress, steps: seq<Step>, q: Progress)
    decreases |steps|
  {
    if steps == [] then q == p
    else Allowed(w, p, steps[0]) && RunsTo(w, Take(w, p, steps[0]), steps[1..], q)
  }

  ghost function Start(w: World): Progress
  {
    Progress(State(w.history, w.scripts, map[], map[], map[], map[], map[]), {}, {})
  }

  /* Every transaction was added and processed, and every output was visited. */
  ghost predicate Complete(w: World, p: Progress)
  {
    p.done == w.txs.Keys && p.covered == AllOutpoints(w)
  }

  lemma StartInv(w: World)
    ensures RunInv(w, Start(w).s, {}, {})
  {
    var s := Start(w).s;
    NoRows(HeldIn(w, {}), ChargesIn(w, {}), s.deltas);
    assert s.utxos.Keys + s.stxos.Keys == {} && s.stxos.Keys == {};
  }

  lemma TakeKeeps(w: World, p: Progress, e: Step)
    requires Sound(w) && Allowed(w, p, e) && RunInv(w, p.s, p.done, p.covered)
    ensures var q := Take(w, p, e); RunInv(w, q.s, q.done, q.covered)
  {
    match e {
      case Add(t) =>
        var q := Take(w, p, e);
        forall o ensures OutpointInv(w, q.s, q.done, q.covered, o) {
          assert OutpointInv(w, p.s, p.done, p.covered, o);
          assert Known(q.s, o) == Known(p.s, o);
        }
      case Do(t, relevant) =>
        ProcessKeeps(w, p.s, p.done, p.covered, t, relevant);
    }
  }

  lemma {:induction false} RunsToKeeps(w: World, p: Progress, steps: seq<Step>, q: Progress)
    requires Sound(w) && RunsTo(w, p, steps, q) && RunInv(w, p.s, p.done, p.covered)
    ensures RunInv(w, q.s, q.done, q.covered)
    decreases |steps|
  {
    if steps != [] {
      TakeKeeps(w, p, steps[0]);
      RunsToKeeps(w, Take(w, p, steps[0]), steps[1..], q);
    }
  }

  ghost function DeclaredUtxos(w: World): map<Outpoint, Utxo>
  {
    map o | o in OwnedOutpoints(w) - SpentOutpoints(w) ::
      Utxo(ValueOf(w, o), Owner(w, o).value, w.txs[o.tx].coinbase)
  }

  ghost function DeclaredStxos(w: World): map<Outpoint, KeyId>
  {
    map o | o in SpentOutpoints(w) :: Owner(w, o).value
  }

  ghost function DeclaredRows(w: World): map<Outpoint, Row>
  {
    map o | o in OwnedOutpoints(w) ::
      Row(ValueOf(w, o), Owner(w, o).value, w.txs[o.tx].coinbase, IsSpent(w, o))
  }

  /* A complete run ends in the declared ledger: an owned output is spent exactly when some
     transaction of the set spends it, and each delta row holds the net effect of its
     transaction on its key. */
  lemma CompleteRun(w: World, steps: seq<Step>, q: Progress)
    requires Sound(w) && RunsTo(w, Start(w), steps, q) && Complete(w, q)
    ensures q.s.utxos == DeclaredUtxos(w) && q.s.stxos == DeclaredStxos(w)
    ensures q.s.rows == DeclaredRows(w)
    ensures DeltasExact(w, OwnedOutpoints(w), SpentOutpoints(w), q.s.deltas)
  {
    StartInv(w);
    RunsToKeeps(w, Start(w), steps, q);
    FinalState(w, q.s);
  }

  lemma FinalState(w: World, s: State)
    requires RunInv(w, s, w.txs.Keys, AllOutpoints(w))
    ensures s.utxos == DeclaredUtxos(w) && s.stxos == DeclaredStxos(w) && s.rows == DeclaredRows(w)
    ensures DeltasExact(w, OwnedOutpoints(w), SpentOutpoints(w), s.deltas)
  {
    hide OutpointInv, DeltasExact, DeclaredUtxos, DeclaredStxos, DeclaredRows, OwnedOutpoints, SpentOutpoints;
    FinalStxos(w, s);
    FinalUtxos(w, s);
    FinalRows(w, s);
    DeclaredKeys(w);
  }

  lemma DeclaredKeys(w: World)
    ensures DeclaredStxos(w).Keys == SpentOutpoints(w)
    ensures DeclaredUtxos(w).Keys + DeclaredStxos(w).Keys == OwnedOutpoints(w)
  {
    hide Owner, IsSpent;
  }

  lemma FinalStxos(w: World, s: State)
    requires forall o :: OutpointInv(w, s, w.txs.Keys, AllOutpoints(w), o)
    ensures s.stxos == DeclaredStxos(w)
  {
    var declared := DeclaredStxos(w);
    forall o
      ensures (o in s.stxos <==> o in declared) && (o in s.stxos ==> s.stxos[o] == declared[o])
    {
      assert OutpointInv(w, s, w.txs.Keys, AllOutpoints(w), o);
      FinalOutpoint(w, s, o);
    }
    MapsEqual(s.stxos, declared);
  }

  lemma FinalUtxos(w: World, s: State)
    requires forall o :: OutpointInv(w, s, w.txs.Keys, AllOutpoints(w), o)
    ensures s.utxos == DeclaredUtxos(w)
  {
    var declared := DeclaredUtxos(w);
    forall o
      ensures (o in s.utxos <==> o in declared) && (o in s.utxos ==> s.utxos[o] == declared[o])
    {
      assert OutpointInv(w, s, w.txs.Keys, AllOutpoints(w), o);
      FinalOutpoint(w, s, o);
    }
    MapsEqual(s.utxos, declared);
  }

  lemma FinalRows(w: World, s: State)
    requires forall o :: OutpointInv(w, s, w.txs.Keys, AllOutpoints(w), o)
    ensures s.rows == DeclaredRows(w)
  {
    var declared := DeclaredRows(w);
    forall o
      ensures (o in s.rows <==> o in declared) && (o in s.rows ==> s.rows[o] == declared[o])
    {
      assert OutpointInv(w, s, w.txs.Keys, AllOutpoints(w), o);
      FinalOutpoint(w, s, o);
    }
    MapsEqual(s.rows, declared);
  }

  lemma FinalOutpoint(w: World, s: State, o: Outpoint)
    requires OutpointInv(w, s, w.txs.Keys, AllOutpoints(w), o)
    ensures o in s.stxos <==> o in SpentOutpoints(w)
    ensures o in s.stxos ==> s.stxos[o] == DeclaredStxos(w)[o]
    ensures o in s.utxos <==> o in OwnedOutpoints(w) - SpentOutpoints(w)
    ensures o in s.utxos ==> s.utxos[o] == DeclaredUtxos(w)[o]
    ensures o in s.rows <==> o in OwnedOutpoints(w)
    ensures o in s.rows ==> s.rows[o] == DeclaredRows(w)[o]
  {
    if o in OwnedOutpoints(w) && IsSpent(w, o) {
      var b :| SpentBy(w, o, b);
      assert b in w.txs.Keys;
    }
  }

  /* Order independence: any two complete runs over the same transactions end with the same
     unspent outputs, spent outputs, output rows and delta rows. */
  lemma OrderIndependence(w: World, steps1: seq<Step>, q1: Progress, steps2: seq<Step>, q2: Progress)
    requires Sound(w)
    requires RunsTo(w, Start(w), steps1, q1) && Complete(w, q1)
    requires RunsTo(w, Start(w), steps2, q2) && Complete(w, q2)
    ensures q1.s.utxos == q2.s.utxos && q1.s.stxos == q2.s.stxos
    ensures q1.s.rows == q2.s.rows && q1.s.deltas == q2.s.deltas
  {
    CompleteRun(w, steps1, q1);
    CompleteRun(w, steps2, q2);
    RowsDetermined(HeldIn(w, OwnedOutpoints(w)), ChargesIn(w, SpentOutpoints(w)), q1.s.deltas, q2.s.deltas);
  }

  // -------------------------------------------------------------------------- any order at all

  /* Every transaction added and then processed with all its outputs, in the given order. */
  ghost function InOrder(order: seq<TxId>): seq<Step>
  {
    if order == [] then [] else [Add(order[0]), Do(order[0], [])] + InOrder(order[1..])
  }

  lemma VisitedAll(w: World, t: TxId, o: Outpoint)
    requires t in w.txs
    ensures o in Visited(w, t, []) <==> Exists(w, o) && o.tx == t
  {
    var all := Selected(w.txs[t], []);
    if Exists(w, o) && o.tx == t {
      assert all[o.index] == o.index && o == Outpoint(t, o.index);
    }
  }

  /* Adding and processing one transaction, whatever the state. */
  lemma OneInOrder(w: World, p: Progress, t: TxId) returns (m: Progress)
    requires t in w.txs
    ensures forall steps, q :: RunsTo(w, m, steps, q) ==> RunsTo(w, p, [Add(t), Do(t, [])] + steps, q)
    ensures m.done == p.done + {t}
    ensures forall o :: o in m.covered <==> o in p.covered || (Exists(w, o) && o.tx == t)
  {
    hide Process, Visited;
    var a := Take(w, p, Add(t));
    m := Take(w, a, Do(t, []));
    forall o ensures o in m.covered <==> o in p.covered || (Exists(w, o) && o.tx == t) {
      VisitedAll(w, t, o);
    }
    forall steps, q | RunsTo(w, m, steps, q) ensures RunsTo(w, p, [Add(t), Do(t, [])] + steps, q) {
      var all := [Add(t), Do(t, [])] + steps;
      assert all[0] == Add(t) && all[1..][0] == Do(t, []) && all[1..][1..] == steps;
      assert RunsTo(w, a, all[1..], q);
    }
  }

  lemma {:induction false} RunsInOrder(w: World, p: Progress, order: seq<TxId>) returns (q: Progress)
    requires forall i :: 0 <= i < |order| ==> order[i] in w.txs
    ensures RunsTo(w, p, InOrder(order), q)
    ensures forall t :: t in q.done <==> t in p.done || t in order
    ensures forall o :: o in q.covered <==> o in p.covered || (Exists(w, o) && o.tx in order)
    decreases order
  {
    if order == [] {
      q := p;
    } else {
      hide Exists;
      var m := OneInOrder(w, p, order[0]);
      q := RunsInOrder(w, m, order[1..]);
      assert order == [order[0]] + order[1..];
    }
  }

  /* Every order of the set, repetitions allowed, is a complete run, so it ends in the declared
     ledger. */
  lemma EveryOrderCompletes(w: World, order: seq<TxId>) returns (q: Progress)
    requires Sound(w) && forall t :: t in order <==> t in w.txs
    ensures RunsTo(w, Start(w), InOrder(order), q) && Complete(w, q)
    ensures q.s.utxos == DeclaredUtxos(w) && q.s.stxos == DeclaredStxos(w) && q.s.rows == DeclaredRows(w)
  {
    hide Sound, RunsTo, InOrder, DeclaredUtxos, DeclaredStxos, DeclaredRows;
    forall i | 0 <= i < |order| ensures order[i] in w.txs { assert order[i] in order; }
    q := RunsInOrder(w, Start(w), order);
    assert q.done == w.txs.Keys;
    assert q.covered == AllOutpoints(w);
    CompleteRun(w, InOrder(order), q);
  }
}
