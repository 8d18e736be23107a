/**
 Arbitrary runs of the ledger: transactions arrive, histories are recorded, transactions are
 processed, removed and deleted, in any order and any number of times. Coherence holds over all of
 them; conservation holds as long as nothing is removed. LedgerDeletion says when deletions keep it.
 */
module LedgerSafety {
  import opened Ledger
  import opened Sums
  import opened Wrappers

  datatype Event =
    | AddTx(id: TxId, tx: Tx)
    | SetHistory(key: KeyId, script: Script, history: seq<TxId>)
    | ProcessTx(id: TxId, relevant: seq<nat>)
    | RemoveTx(id: TxId)
    | DeleteTx(id: TxId)

  ghost predicate Enabled(s: State, e: Event)
  {
    match e
    case AddTx(t, _) => t !in s.cache
    case SetHistory(k, script, _) => forall l :: l in s.scripts && s.scripts[l] == script ==> l == k
    case ProcessTx(t, relevant) => CanProcess(s, t, relevant)
    case RemoveTx(t) => t in s.cache
    case DeleteTx(t) => t in s.cache
  }

  /* A history for a key whose script differs from the recorded one is ignored; a removal that is
     refused changes nothing. */
  ghost function Apply(s: State, e: Event): State
    requires Enabled(s, e)
  {
    match e
    case AddTx(t, tx) => s.(cache := s.cache[t := tx])
    case SetHistory(k, script, hist) =>
      if k in s.scripts && s.scripts[k] != script then s
      else s.(scripts := s.scripts[k := script], history := s.history[k := hist])
    case ProcessTx(t, relevant) => Process(s, t, relevant)
    case RemoveTx(t) => if SpentByChild(s, t) then s else Removed(s, t)
    case DeleteTx(t) => Delete(s, t)
  }

  ghost predicate Runs(s: State, events: seq<Event>, r: State)
    decreases |events|
  {
    if events == [] then r == s
    else Enabled(s, events[0]) && Runs(Apply(s, events[0]), events[1..], r)
  }

  /* Every known outpoint belongs to a cached transaction. */
  ghost predicate Grounded(s: State)
  {
    forall o :: Known(s, o) ==> o.tx in s.cache
  }

  /* Validity and grounding look only at the ledger part of a state. */
  lemma SameLedger(s: State, r: State)
    requires Valid(s) && Grounded(s) && DistinctScripts(r.scripts)
    requires r.utxos == s.utxos && r.stxos == s.stxos && r.rows == s.rows && r.deltas == s.deltas
    requires forall t :: t in s.cache ==> t in r.cache && r.cache[t] == s.cache[t]
    ensures Valid(r) && Grounded(r) && (Conserved(s) ==> Conserved(r))
  {
    forall o ensures Coherent(r, o) && (Known(r, o) ==> o.tx in r.cache) {
      assert Coherent(s, o) && Known(r, o) == Known(s, o);
    }
    if Conserved(s) {
      forall k ensures BalancedAt(r.deltas, r.utxos, k) {
        assert BalancedAt(s.deltas, s.utxos, k);
      }
    }
  }

  lemma ProcessGrounded(s: State, t: TxId, relevant: seq<nat>)
    requires CanProcess(s, t, relevant) && Valid(s) && Grounded(s)
    ensures Grounded(Process(s, t, relevant))
  {
    var r := Process(s, t, relevant);
    forall o | Known(r, o) ensures o.tx in r.cache {
      assert Coherent(s, o);
      ProcessEffect(s, t, relevant, o);
    }
  }

  lemma RemovedGrounded(s: State, t: TxId)
    requires t in s.cache && Valid(s) && Grounded(s)
    ensures Grounded(Removed(s, t))
  {
    var r := Removed(s, t);
    forall o | Known(r, o) ensures o.tx in r.cache {
      RemovedAt(s, t, o);
    }
  }

  lemma DeletedGrounded(s: State, t: TxId)
    requires t in s.cache && Valid(s) && Grounded(s) && !SpentByChild(s, t)
    ensures Grounded(Deleted(s, t))
  {
    hide SpentByChild;
    var r := Deleted(s, t);
    forall o | Known(r, o) ensures o.tx in r.cache {
      DeletedAt(s, t, o);
    }
  }

  lemma ApplyValid(s: State, e: Event)
    requires Enabled(s, e) && Valid(s) && Grounded(s)
    ensures Valid(Apply(s, e)) && Grounded(Apply(s, e))
  {
    hide Sum, Process, Removed, Deleted, SpentByChild;
    match e {
      case AddTx(t, tx) => SameLedger(s, Apply(s, e));
      case SetHistory(k, script, hist) => SameLedger(s, Apply(s, e));
      case ProcessTx(t, relevant) =>
        ProcessValid(s, t, relevant);
        ProcessGrounded(s, t, relevant);
      case RemoveTx(t) =>
        RemovedValid(s, t);
        RemovedGrounded(s, t);
      case DeleteTx(t) =>
        if !SpentByChild(s, t) {
          DeletedValid(s, t);
          DeletedGrounded(s, t);
        }
    }
  }

  /* Over every run, with removals and deletions: unspent and spent stay apart and agree with the
     table of outputs, and every known output belongs to a cached transaction. */
  lemma {:induction false} RunsStayValid(s: State, events: seq<Event>, r: State)
    requires Runs(s, events, r) && Valid(s) && Grounded(s)
    ensures Valid(r) && Grounded(r)
    decreases |events|
  {
    if events != [] {
      hide Apply, Enabled;
      ApplyValid(s, events[0]);
      RunsStayValid(Apply(s, events[0]), events[1..], r);
    }
  }

  ghost predicate Forward(events: seq<Event>)
  {
    forall i :: 0 <= i < |events| ==> !events[i].RemoveTx? && !events[i].DeleteTx?
  }

  lemma ApplyConserves(s: State, e: Event)
    requires Enabled(s, e) && Valid(s) && Grounded(s) && Conserved(s) && !e.RemoveTx? && !e.DeleteTx?
    ensures Conserved(Apply(s, e))
  {
    hide Sum, Process;
    match e {
      case AddTx(t, tx) => SameLedger(s, Apply(s, e));
      case SetHistory(k, script, hist) => SameLedger(s, Apply(s, e));
      case ProcessTx(t, relevant) => ProcessConserves(s, t, relevant);
    }
  }

  /* Over every run without removals, double spends included: for each key the emitted deltas sum
     to its unspent value. */
  lemma {:induction false} RunsKeep(s: State, events: seq<Event>, r: State)
    requires Runs(s, events, r) && Valid(s) && Grounded(s) && Conserved(s) && Forward(events)
    ensures Valid(r) && Grounded(r) && Conserved(r)
    decreases |events|
  {
    if events != [] {
      hide Apply, Enabled, Conserved;
      ApplyValid(s, events[0]);
      ApplyConserves(s, events[0]);
      RunsKeep(Apply(s, events[0]), events[1..], r);
    }
  }

  // ------------------------------------------------------------------- a removal that does not

  /* The ledger of a new account. */
  const NOTHING := State(map[], map[], map[], map[], map[], map[], map[])

  lemma NothingKept()
    ensures Valid(NOTHING) && Grounded(NOTHING) && Conserved(NOTHING)
  {
    forall k ensures BalancedAt(NOTHING.deltas, NOTHING.utxos, k) {
      assert KeyDeltas(NOTHING.deltas, k).Keys == {} && KeyValues(NOTHING.utxos, k).Keys == {};
    }
    assert Values(NOTHING.utxos).Keys == {};
  }

  lemma RunsOne(s: State, e: Event)
    requires Enabled(s, e)
    ensures Runs(s, [e], Apply(s, e))
  {
    assert Runs(Apply(s, e), [e][1..], Apply(s, e));
  }

  lemma {:induction false} RunsMore(s: State, events: seq<Event>, m: State, e: Event)
    requires Runs(s, events, m) && Enabled(m, e)
    ensures Runs(s, events + [e], Apply(m, e))
    decreases |events|
  {
    hide Enabled, Apply;
    if events == [] {
      assert events + [e] == [e];
      RunsOne(s, e);
    } else {
      assert (events + [e])[1..] == events[1..] + [e];
      RunsMore(Apply(s, events[0]), events[1..], m, e);
    }
  }

  /* A transaction with a single output. */
  const PAYMENT := Tx([], [Output(5, [7])], false)
  const PAID := Outpoint(0, 0)

  /* Processing a transaction whose single output has an owner and no spender yet. */
  lemma ProcessPayment(s: State)
    requires 0 in s.cache && s.cache[0] == PAYMENT && s.scripts == map[1 := [7]]
    requires 1 in s.history && 0 in s.history[1] && !Known(s, PAID)
    ensures CanProcess(s, 0, [])
    ensures Process(s, 0, []) == match FindSpender(s.cache, s.history[1], 0, PAID)
                                 case Some(b) => AddSpent(s, 0, 0, 1, b)
                                 case None => AddUnspent(s, 0, 0, 1)
  {
    assert Owns(s, 0, [7], 1);
    var indices := Selected(PAYMENT, []);
    SelectedInRange(s, 0, []);
    assert indices == [0] && indices[..0] == [];
    assert CreateOutputs(s, 0, indices[..0]) == s;
    assert CreateOutputs(s, 0, indices) == CreateOutput(s, 0, 0);
    assert SpendInputs(CreateOutput(s, 0, 0), 0, []) == CreateOutput(s, 0, 0);
  }

  /* After one payment its removal takes the coin away and leaves the delta. */
  lemma RemovalCanFail() returns (events: seq<Event>, s: State)
    ensures Runs(NOTHING, events, s) && Valid(s) && Grounded(s) && Conserved(s)
    ensures 0 in s.cache && !SpentByChild(s, 0) && !Conserved(Removed(s, 0))
  {
    var a := NOTHING.(cache := map[0 := PAYMENT]);
    var b := a.(scripts := map[1 := [7]], history := map[1 := [0]]);
    ProcessPayment(b);
    s := AddUnspent(b, 0, 0, 1);
    events := [AddTx(0, PAYMENT)];
    RunsOne(NOTHING, events[0]);
    RunsMore(NOTHING, events, a, SetHistory(1, [7], [0]));
    events := events + [SetHistory(1, [7], [0])];
    assert FindSpender(b.cache, [0], 0, PAID) == FindSpender(b.cache, [], 0, PAID) == None;
    RunsMore(NOTHING, events, b, ProcessTx(0, []));
    events := events + [ProcessTx(0, [])];
    NothingKept();
    RunsKeep(NOTHING, events, s);
    RemovalUneven(s);
    RemoveConserves(s, 0);
  }

  lemma RemovalUneven(s: State)
    requires 0 in s.cache && s.cache[0] == PAYMENT && s.stxos.Keys == {}
    requires PAID in s.utxos && s.utxos[PAID] == Utxo(5, 1, false)
    ensures !Evens(s, 0, 1) && !SpentByChild(s, 0)
  {
    hide Sum;
    var own := KeyValues(OwnUtxos(s, 0), 1);
    forall o | o in own ensures o == PAID { assert o == Outpoint(0, o.index); }
    SumSplit(own, PAID);
    SumEmpty(own - {PAID});
    SumEmpty(KeyValues(BackAgain(s, 0), 1));
  }
}
