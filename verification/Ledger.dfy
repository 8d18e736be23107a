/**
 The account ledger of electrumsv/wallet.py on values: the state behind an account, the single
 steps that _process_key_usage and _remove_transaction are made of, and what every run of them
 keeps. Account.dfy proves the methods that update the state in place against these functions.
 */
module Ledger {
  import opened Sums
  import opened Wrappers

  type TxId = nat
  type KeyId = nat
  type Script = seq<nat>

  datatype Outpoint = Outpoint(tx: TxId, index: nat)
  datatype Output = Output(value: nat, script: Script)
  datatype Tx = Tx(inputs: seq<Outpoint>, outputs: seq<Output>, coinbase: bool)

  /* The parts of a UTXO object that decide balances. */
  datatype Utxo = Utxo(value: nat, key: KeyId, coinbase: bool)

  /* A row of the transaction output table. */
  datatype Row = Row(value: nat, key: KeyId, coinbase: bool, spent: bool)

  type DeltaKey = (TxId, KeyId)

  /* scripts holds the keys whose script type is set; deltas and rows are the two tables. */
  datatype State = State(history: map<KeyId, seq<TxId>>,
                         scripts: map<KeyId, Script>,
                         cache: map<TxId, Tx>,
                         utxos: map<Outpoint, Utxo>,
                         stxos: map<Outpoint, KeyId>,
                         deltas: map<DeltaKey, int>,
                         rows: map<Outpoint, Row>)

  // ------------------------------------------------------------------------ single steps

  ghost predicate InHistory(s: State, k: KeyId, t: TxId)
  {
    k in s.history && t in s.history[k]
  }

  /* Key k is a candidate for transaction t and owns the script. */
  ghost predicate Owns(s: State, t: TxId, script: Script, k: KeyId)
  {
    InHistory(s, k, t) && k in s.scripts && s.scripts[k] == script
  }

  ghost function OwnerOf(s: State, t: TxId, script: Script): (r: Option<KeyId>)
    ensures r.Some? ==> Owns(s, t, script, r.value)
    ensures r.None? ==> forall k :: !Owns(s, t, script, k)
  {
    if exists k :: Owns(s, t, script, k) then var k :| Owns(s, t, script, k); Some(k) else None
  }

  /* The first transaction of a history, other than self, that is cached and spends o. */
  function FindSpender(cache: map<TxId, Tx>, hist: seq<TxId>, self: TxId, o: Outpoint): Option<TxId>
  {
    if hist == [] then None
    else if hist[0] != self && hist[0] in cache && o in cache[hist[0]].inputs then Some(hist[0])
    else FindSpender(cache, hist[1..], self, o)
  }

  lemma {:induction false} FindSpenderExact(cache: map<TxId, Tx>, hist: seq<TxId>, self: TxId, o: Outpoint)
    ensures var r := FindSpender(cache, hist, self, o);
            && (r.Some? ==> r.value in hist && r.value != self && r.value in cache && o in cache[r.value].inputs)
            && (r.None? ==> forall b :: b in hist && b != self && b in cache ==> o !in cache[b].inputs)
  {
    if hist != [] {
      FindSpenderExact(cache, hist[1..], self, o);
    }
  }

  ghost predicate Known(s: State, o: Outpoint)
  {
    o in s.utxos || o in s.stxos
  }

  /* Output i of t, owned by k, is recorded as spent by b. */
  function AddSpent(s: State, t: TxId, i: nat, k: KeyId, b: TxId): State
    requires t in s.cache && i < |s.cache[t].outputs|
  {
    var o, v: int := Outpoint(t, i), s.cache[t].outputs[i].value;
    s.(stxos := s.stxos[o := k],
       rows := s.rows[o := Row(v, k, s.cache[t].coinbase, true)],
       deltas := Bump(Bump(s.deltas, (b, k), -v), (t, k), v))
  }

  /* Output i of t, owned by k, is recorded as unspent. */
  function AddUnspent(s: State, t: TxId, i: nat, k: KeyId): State
    requires t in s.cache && i < |s.cache[t].outputs|
  {
    var o, v: int := Outpoint(t, i), s.cache[t].outputs[i].value;
    s.(utxos := s.utxos[o := Utxo(v, k, s.cache[t].coinbase)],
       rows := s.rows[o := Row(v, k, s.cache[t].coinbase, false)],
       deltas := Bump(s.deltas, (t, k), v))
  }

  /* One turn of the loop over outputs: an output already known or owned by no key is skipped,
     and the history of its owner is searched for a transaction that already spends it. */
  ghost function CreateOutput(s: State, t: TxId, i: nat): State
    requires t in s.cache && i < |s.cache[t].outputs|
  {
    var o := Outpoint(t, i);
    var owner := OwnerOf(s, t, s.cache[t].outputs[i].script);
    if Known(s, o) || owner.None? then s
    else
      match FindSpender(s.cache, s.history[owner.value], t, o)
      case Some(b) => AddSpent(s, t, i, owner.value, b)
      case None => AddUnspent(s, t, i, owner.value)
  }

  /* One turn of the loop over inputs. */
  ghost function SpendInput(s: State, t: TxId, o: Outpoint): State
  {
    if o in s.stxos || o !in s.utxos then s
    else
      var u := s.utxos[o];
      s.(utxos := s.utxos - {o},
         stxos := s.stxos[o := u.key],
         rows := s.rows[o := Row(u.value, u.key, u.coinbase, true)],
         deltas := Bump(s.deltas, (t, u.key), 0 - u.value))
  }

  ghost predicate InRange(s: State, t: TxId, indices: seq<nat>)
  {
    t in s.cache && forall i :: i in indices ==> i < |s.cache[t].outputs|
  }

  ghost function CreateOutputs(s: State, t: TxId, indices: seq<nat>): (r: State)
    requires InRange(s, t, indices)
    ensures r.cache == s.cache && r.history == s.history && r.scripts == s.scripts
  {
    if indices == [] then s
    else
      var n := |indices| - 1;
      assert indices[n] in indices && forall i :: i in indices[..n] ==> i in indices;
      CreateOutput(CreateOutputs(s, t, indices[..n]), t, indices[n])
  }

  ghost function SpendInputs(s: State, t: TxId, inputs: seq<Outpoint>): (r: State)
    ensures r.cache == s.cache && r.history == s.history && r.scripts == s.scripts
  {
    if inputs == [] then s
    else
      var n := |inputs| - 1;
      SpendInput(SpendInputs(s, t, inputs[..n]), t, inputs[n])
  }

  /* An empty or missing list of relevant outputs means all of them. */
  function Selected(tx: Tx, relevant: seq<nat>): seq<nat>
  {
    if relevant == [] then seq(|tx.outputs|, i => i) else relevant
  }

  ghost predicate CanProcess(s: State, t: TxId, relevant: seq<nat>)
  {
    InRange(s, t, relevant)
  }

  lemma SelectedInRange(s: State, t: TxId, relevant: seq<nat>)
    requires CanProcess(s, t, relevant)
    ensures InRange(s, t, Selected(s.cache[t], relevant))
  {}

  ghost function Process(s: State, t: TxId, relevant: seq<nat>): (r: State)
    requires CanProcess(s, t, relevant)
    ensures r.cache == s.cache && r.history == s.history && r.scripts == s.scripts
  {
    SelectedInRange(s, t, relevant);
    SpendInputs(CreateOutputs(s, t, Selected(s.cache[t], relevant)), t, s.cache[t].inputs)
  }

  // -------------------------------------------------------------------------- invariants

  /* Distinct keys never share a script. */
  ghost predicate DistinctScripts(scripts: map<KeyId, Script>)
  {
    forall k, l :: k in scripts && l in scripts && scripts[k] == scripts[l] ==> k == l
  }

  /* An outpoint is never both unspent and spent, its row agrees with the maps in memory, and
     it is an output its transaction has. */
  ghost predicate Coherent(s: State, o: Outpoint)
  {
    && !(o in s.utxos && o in s.stxos)
    && (o in s.utxos ==>
          o in s.rows && var u := s.utxos[o]; s.rows[o] == Row(u.value, u.key, u.coinbase, false))
    && (o in s.stxos ==> o in s.rows && s.rows[o].key == s.stxos[o] && s.rows[o].spent)
    && (Known(s, o) && o.tx in s.cache ==> o.index < |s.cache[o.tx].outputs|)
  }

  ghost predicate Valid(s: State)
  {
    DistinctScripts(s.scripts) && forall o :: Coherent(s, o)
  }

  ghost function KeyDeltas(deltas: map<DeltaKey, int>, k: KeyId): map<DeltaKey, int>
  {
    map e | e in deltas && e.1 == k :: deltas[e]
  }

  ghost function KeyValues(utxos: map<Outpoint, Utxo>, k: KeyId): map<Outpoint, int>
  {
    map o | o in utxos && utxos[o].key == k :: utxos[o].value
  }

  ghost function Values(utxos: map<Outpoint, Utxo>): map<Outpoint, int>
  {
    map o | o in utxos :: utxos[o].value
  }

  ghost predicate BalancedAt(deltas: map<DeltaKey, int>, utxos: map<Outpoint, Utxo>, k: KeyId)
  {
    Sum(KeyDeltas(deltas, k)) == Sum(KeyValues(utxos, k))
  }

  /* For each key the emitted deltas sum to the value of its unspent outputs, and so they do
     over all keys together. */
  ghost predicate Conserved(s: State)
  {
    (forall k :: BalancedAt(s.deltas, s.utxos, k)) && Sum(s.deltas) == Sum(Values(s.utxos))
  }

  lemma BumpKeyDeltas(deltas: map<DeltaKey, int>, t: TxId, k: KeyId, v: int, l: KeyId)
    ensures Sum(KeyDeltas(Bump(deltas, (t, k), v), l))
            == Sum(KeyDeltas(deltas, l)) + if k == l then v else 0
  {
    var before, after := KeyDeltas(deltas, l), KeyDeltas(Bump(deltas, (t, k), v), l);
    if k == l {
      assert after == Bump(before, (t, k), v);
      SumBump(before, (t, k), v);
    } else {
      assert after == before;
    }
  }

  lemma AddUtxoValues(utxos: map<Outpoint, Utxo>, o: Outpoint, u: Utxo, l: KeyId)
    requires o !in utxos
    ensures Sum(Values(utxos[o := u])) == Sum(Values(utxos)) + u.value
    ensures Sum(KeyValues(utxos[o := u], l))
            == Sum(KeyValues(utxos, l)) + if u.key == l then u.value else 0
  {
    assert Values(utxos[o := u]) == Values(utxos)[o := u.value];
    SumUpdate(Values(utxos), o, u.value);
    if u.key == l {
      assert KeyValues(utxos[o := u], l) == KeyValues(utxos, l)[o := u.value];
      SumUpdate(KeyValues(utxos, l), o, u.value);
    } else {
      assert KeyValues(utxos[o := u], l) == KeyValues(utxos, l);
    }
  }

  lemma DropUtxoValues(utxos: map<Outpoint, Utxo>, o: Outpoint, l: KeyId)
    requires o in utxos
    ensures Sum(Values(utxos - {o})) == Sum(Values(utxos)) - utxos[o].value
    ensures Sum(KeyValues(utxos - {o}, l))
            == Sum(KeyValues(utxos, l)) - if utxos[o].key == l then utxos[o].value else 0
  {
    AddUtxoValues(utxos - {o}, o, utxos[o], l);
    assert (utxos - {o})[o := utxos[o]] == utxos;
  }

  lemma CreditUnspent(deltas: map<DeltaKey, int>, utxos: map<Outpoint, Utxo>, t: TxId,
                      o: Outpoint, u: Utxo, l: KeyId)
    requires BalancedAt(deltas, utxos, l) && o !in utxos
    ensures BalancedAt(Bump(deltas, (t, u.key), u.value), utxos[o := u], l)
  {
    BumpKeyDeltas(deltas, t, u.key, u.value, l);
    AddUtxoValues(utxos, o, u, l);
  }

  lemma CreditSpent(deltas: map<DeltaKey, int>, utxos: map<Outpoint, Utxo>, t: TxId, b: TxId,
                    k: KeyId, v: int, l: KeyId)
    requires BalancedAt(deltas, utxos, l)
    ensures BalancedAt(Bump(Bump(deltas, (b, k), -v), (t, k), v), utxos, l)
  {
    BumpKeyDeltas(deltas, b, k, -v, l);
    BumpKeyDeltas(Bump(deltas, (b, k), -v), t, k, v, l);
  }

  lemma DebitSpent(deltas: map<DeltaKey, int>, utxos: map<Outpoint, Utxo>, t: TxId,
                   o: Outpoint, v: int, l: KeyId)
    requires BalancedAt(deltas, utxos, l) && o in utxos && v == utxos[o].value
    ensures BalancedAt(Bump(deltas, (t, utxos[o].key), -v), utxos - {o}, l)
  {
    hide Sum, KeyDeltas, KeyValues, Bump;
    BumpKeyDeltas(deltas, t, utxos[o].key, -v, l);
    DropUtxoValues(utxos, o, l);
  }

  lemma AddSpentConserves(s: State, t: TxId, i: nat, k: KeyId, b: TxId)
    requires t in s.cache && i < |s.cache[t].outputs| && Conserved(s)
    ensures Conserved(AddSpent(s, t, i, k, b))
  {
    var r, v: int := AddSpent(s, t, i, k, b), s.cache[t].outputs[i].value;
    forall l ensures BalancedAt(r.deltas, r.utxos, l) {
      CreditSpent(s.deltas, s.utxos, t, b, k, v, l);
    }
    SumBump(s.deltas, (b, k), -v);
    SumBump(Bump(s.deltas, (b, k), -v), (t, k), v);
  }

  lemma AddUnspentConserves(s: State, t: TxId, i: nat, k: KeyId)
    requires t in s.cache && i < |s.cache[t].outputs| && Conserved(s) && Outpoint(t, i) !in s.utxos
    ensures Conserved(AddUnspent(s, t, i, k))
  {
    var r, v: int := AddUnspent(s, t, i, k), s.cache[t].outputs[i].value;
    var u := Utxo(v, k, s.cache[t].coinbase);
    forall l ensures BalancedAt(r.deltas, r.utxos, l) {
      CreditUnspent(s.deltas, s.utxos, t, Outpoint(t, i), u, l);
    }
    SumBump(s.deltas, (t, k), v);
    AddUtxoValues(s.utxos, Outpoint(t, i), u, k);
  }

  lemma CreateConserves(s: State, t: TxId, i: nat)
    requires t in s.cache && i < |s.cache[t].outputs| && Conserved(s)
    ensures Conserved(CreateOutput(s, t, i))
  {
    var owner := OwnerOf(s, t, s.cache[t].outputs[i].script);
    if !Known(s, Outpoint(t, i)) && owner.Some? {
      match FindSpender(s.cache, s.history[owner.value], t, Outpoint(t, i)) {
        case Some(b) => AddSpentConserves(s, t, i, owner.value, b);
        case None => AddUnspentConserves(s, t, i, owner.value);
      }
    }
  }

  lemma SpendConserves(s: State, t: TxId, o: Outpoint)
    requires Conserved(s)
    ensures Conserved(SpendInput(s, t, o))
  {
    hide Sum, BalancedAt, KeyValues, Values;
    if o in s.utxos && o !in s.stxos {
      var r, k := SpendInput(s, t, o), s.utxos[o].key;
      var v: int := s.utxos[o].value;
      forall l ensures BalancedAt(r.deltas, r.utxos, l) {
        DebitSpent(s.deltas, s.utxos, t, o, v, l);
      }
      SumBump(s.deltas, (t, k), -v);
      DropUtxoValues(s.utxos, o, k);
    }
  }

  lemma {:induction false} CreatesConserve(s: State, t: TxId, indices: seq<nat>)
    requires InRange(s, t, indices) && Conserved(s)
    ensures Conserved(CreateOutputs(s, t, indices))
  {
    if indices != [] {
      var n := |indices| - 1;
      assert indices[n] in indices && forall i :: i in indices[..n] ==> i in indices;
      CreatesConserve(s, t, indices[..n]);
      CreateConserves(CreateOutputs(s, t, indices[..n]), t, indices[n]);
    }
  }

  lemma {:induction false} SpendsConserve(s: State, t: TxId, inputs: seq<Outpoint>)
    requires Conserved(s)
    ensures Conserved(SpendInputs(s, t, inputs))
  {
    if inputs != [] {
      var n := |inputs| - 1;
      SpendsConserve(s, t, inputs[..n]);
      SpendConserves(SpendInputs(s, t, inputs[..n]), t, inputs[n]);
    }
  }

  /* One processing call, on any selection of outputs, keeps the balance of every key. */
  lemma ProcessConserves(s: State, t: TxId, relevant: seq<nat>)
    requires CanProcess(s, t, relevant) && Conserved(s)
    ensures Conserved(Process(s, t, relevant))
  {
    SelectedInRange(s, t, relevant);
    var indices := Selected(s.cache[t], relevant);
    CreatesConserve(s, t, indices);
    SpendsConserve(CreateOutputs(s, t, indices), t, s.cache[t].inputs);
  }

  // -------------------------------------------------------------- what a call leaves behind

  /* What a known outpoint keeps: spent stays spent, unspent stays known, value and owner stay. */
  ghost predicate Kept(s: State, r: State, o: Outpoint)
  {
    && (o in s.stxos ==> o in r.stxos && r.stxos[o] == s.stxos[o])
    && (o in s.utxos ==> Known(r, o))
    && (o in s.utxos && o in r.utxos ==> r.utxos[o] == s.utxos[o])
    && (o in s.utxos && o in r.stxos ==> r.stxos[o] == s.utxos[o].key)
    && (Known(s, o) && o in s.rows ==>
          o in r.rows && r.rows[o].value == s.rows[o].value && r.rows[o].coinbase == s.rows[o].coinbase)
  }

  /* The loop over outputs of t: other outpoints stay as they are. */
  ghost predicate AfterCreates(s: State, r: State, t: TxId, o: Outpoint)
  {
    && Coherent(r, o) && Kept(s, r, o)
    && (o in s.utxos ==> o in r.utxos)
    && (o.tx != t ==> (o in r.utxos <==> o in s.utxos) && (o in r.stxos <==> o in s.stxos))
  }

  /* The loop over inputs: exactly the unspent outpoints among them become spent. */
  ghost predicate AfterSpends(s: State, r: State, inputs: seq<Outpoint>, o: Outpoint)
  {
    && Coherent(r, o) && Kept(s, r, o)
    && (Known(r, o) <==> Known(s, o))
    && (o in r.utxos <==> o in s.utxos && o !in inputs)
  }

  lemma AddSpentEffect(s: State, t: TxId, i: nat, k: KeyId, b: TxId, o: Outpoint)
    requires t in s.cache && i < |s.cache[t].outputs| && Coherent(s, o) && !Known(s, Outpoint(t, i))
    ensures AfterCreates(s, AddSpent(s, t, i, k, b), t, o)
  {}

  lemma AddUnspentEffect(s: State, t: TxId, i: nat, k: KeyId, o: Outpoint)
    requires t in s.cache && i < |s.cache[t].outputs| && Coherent(s, o) && !Known(s, Outpoint(t, i))
    ensures AfterCreates(s, AddUnspent(s, t, i, k), t, o)
  {}

  lemma CreateEffect(s: State, t: TxId, i: nat, o: Outpoint)
    requires t in s.cache && i < |s.cache[t].outputs| && Coherent(s, o)
    ensures AfterCreates(s, CreateOutput(s, t, i), t, o)
  {
    var owner := OwnerOf(s, t, s.cache[t].outputs[i].script);
    if !Known(s, Outpoint(t, i)) && owner.Some? {
      match FindSpender(s.cache, s.history[owner.value], t, Outpoint(t, i)) {
        case Some(b) => AddSpentEffect(s, t, i, owner.value, b, o);
        case None => AddUnspentEffect(s, t, i, owner.value, o);
      }
    }
  }

  /* Ownership depends only on histories and scripts. */
  lemma OwnerStable(s: State, r: State, t: TxId, script: Script)
    requires s.history == r.history && s.scripts == r.scripts && DistinctScripts(s.scripts)
    ensures OwnerOf(s, t, script) == OwnerOf(r, t, script)
  {
    var a, b := OwnerOf(s, t, script), OwnerOf(r, t, script);
    if a.Some? { assert Owns(r, t, script, a.value); }
    if b.Some? { assert Owns(s, t, script, b.value); }
  }

  lemma {:induction false} CreatesEffect(s: State, t: TxId, indices: seq<nat>, o: Outpoint)
    requires InRange(s, t, indices) && Coherent(s, o)
    ensures AfterCreates(s, CreateOutputs(s, t, indices), t, o)
  {
    if indices != [] {
      var n := |indices| - 1;
      assert indices[n] in indices && forall i :: i in indices[..n] ==> i in indices;
      CreatesEffect(s, t, indices[..n], o);
      CreateEffect(CreateOutputs(s, t, indices[..n]), t, indices[n], o);
    }
  }

  /* Every owned output that the loop visits is known afterwards. */
  lemma {:induction false} CreatesKnown(s: State, t: TxId, indices: seq<nat>, i: nat)
    requires InRange(s, t, indices) && DistinctScripts(s.scripts)
    requires i in indices && OwnerOf(s, t, s.cache[t].outputs[i].script).Some?
    ensures Known(CreateOutputs(s, t, indices), Outpoint(t, i))
  {
    var n := |indices| - 1;
    assert indices[n] in indices && forall j :: j in indices[..n] ==> j in indices;
    var m := CreateOutputs(s, t, indices[..n]);
    if indices[n] == i {
      OwnerStable(s, m, t, s.cache[t].outputs[i].script);
    } else {
      assert indices == indices[..n] + [indices[n]];
      CreatesKnown(s, t, indices[..n], i);
    }
  }

  lemma SpendEffect(s: State, t: TxId, input: Outpoint, o: Outpoint)
    requires Coherent(s, o)
    ensures AfterSpends(s, SpendInput(s, t, input), [input], o)
  {}

  lemma {:induction false} SpendsEffect(s: State, t: TxId, inputs: seq<Outpoint>, o: Outpoint)
    requires Coherent(s, o)
    ensures AfterSpends(s, SpendInputs(s, t, inputs), inputs, o)
  {
    if inputs != [] {
      var n := |inputs| - 1;
      SpendsEffect(s, t, inputs[..n], o);
      SpendEffect(SpendInputs(s, t, inputs[..n]), t, inputs[n], o);
      assert inputs == inputs[..n] + [inputs[n]];
    }
  }

  /* A whole call, seen from one outpoint. */
  ghost predicate AfterProcess(s: State, r: State, t: TxId, o: Outpoint)
    requires t in s.cache
  {
    var inputs := s.cache[t].inputs;
    && Coherent(r, o) && Kept(s, r, o)
    && (o in r.utxos ==> o !in inputs)
    && (o in s.utxos ==> (o in r.utxos <==> o !in inputs))
    && (o.tx != t ==> (Known(r, o) <==> Known(s, o)))
  }

  lemma ProcessEffect(s: State, t: TxId, relevant: seq<nat>, o: Outpoint)
    requires CanProcess(s, t, relevant) && Coherent(s, o)
    ensures AfterProcess(s, Process(s, t, relevant), t, o)
  {
    SelectedInRange(s, t, relevant);
    var indices := Selected(s.cache[t], relevant);
    CreatesEffect(s, t, indices, o);
    SpendsEffect(CreateOutputs(s, t, indices), t, s.cache[t].inputs, o);
  }

  /* One processing call keeps the ledger coherent. */
  lemma ProcessValid(s: State, t: TxId, relevant: seq<nat>)
    requires CanProcess(s, t, relevant) && Valid(s)
    ensures Valid(Process(s, t, relevant))
    ensures forall o :: AfterProcess(s, Process(s, t, relevant), t, o)
  {
    var r := Process(s, t, relevant);
    forall o
      ensures AfterProcess(s, r, t, o)
    {
      ProcessEffect(s, t, relevant, o);
    }
    forall o
      ensures Coherent(r, o)
    {
      assert AfterProcess(s, r, t, o);
    }
  }

  lemma ProcessKnown(s: State, t: TxId, relevant: seq<nat>, i: nat)
    requires CanProcess(s, t, relevant) && Valid(s)
    requires i in Selected(s.cache[t], relevant) && OwnerOf(s, t, s.cache[t].outputs[i].script).Some?
    ensures Known(Process(s, t, relevant), Outpoint(t, i))
  {
    SelectedInRange(s, t, relevant);
    var indices, o := Selected(s.cache[t], relevant), Outpoint(t, i);
    CreatesKnown(s, t, indices, i);
    CreatesEffect(s, t, indices, o);
    SpendsEffect(CreateOutputs(s, t, indices), t, s.cache[t].inputs, o);
  }

  // ----------------------------------------------------------------- processing once more

  lemma {:induction false} CreatesNothing(s: State, t: TxId, indices: seq<nat>)
    requires InRange(s, t, indices)
    requires forall i :: i in indices ==>
               Known(s, Outpoint(t, i)) || OwnerOf(s, t, s.cache[t].outputs[i].script).None?
    ensures CreateOutputs(s, t, indices) == s
  {
    if indices != [] {
      var n := |indices| - 1;
      assert indices[n] in indices && forall i :: i in indices[..n] ==> i in indices;
      CreatesNothing(s, t, indices[..n]);
      assert indices[n] in indices;
    }
  }

  lemma {:induction false} SpendsNothing(s: State, t: TxId, inputs: seq<Outpoint>)
    requires forall o :: o in inputs ==> o !in s.utxos
    ensures SpendInputs(s, t, inputs) == s
  {
    if inputs != [] {
      var n := |inputs| - 1;
      assert forall o :: o in inputs[..n] ==> o in inputs;
      SpendsNothing(s, t, inputs[..n]);
      assert inputs[n] in inputs;
    }
  }

  /* Processing the same transaction again changes nothing, and so emits no delta. */
  lemma ProcessTwice(s: State, t: TxId, relevant: seq<nat>)
    requires CanProcess(s, t, relevant) && Valid(s)
    ensures Process(Process(s, t, relevant), t, relevant) == Process(s, t, relevant)
  {
    SelectedInRange(s, t, relevant);
    var r := Process(s, t, relevant);
    var indices := Selected(s.cache[t], relevant);
    forall i | i in indices
      ensures Known(r, Outpoint(t, i)) || OwnerOf(r, t, r.cache[t].outputs[i].script).None?
    {
      OwnerStable(s, r, t, s.cache[t].outputs[i].script);
      if OwnerOf(s, t, s.cache[t].outputs[i].script).Some? {
        ProcessKnown(s, t, relevant, i);
      }
    }
    forall o | o in s.cache[t].inputs
      ensures o !in r.utxos
    {
      ProcessEffect(s, t, relevant, o);
    }
    CreatesNothing(r, t, indices);
    SpendsNothing(r, t, s.cache[t].inputs);
  }

  // ------------------------------------------------------------------------------ removal

  ghost function OwnOutputs(s: State, t: TxId): set<Outpoint>
  {
    set o | o in s.utxos && o.tx == t && t in s.cache && o.index < |s.cache[t].outputs| :: o
  }

  /* The spent inputs of t, with their owners. */
  ghost function Restored(s: State, t: TxId): map<Outpoint, KeyId>
    requires t in s.cache
  {
    map o | o in s.stxos && o in s.cache[t].inputs :: s.stxos[o]
  }

  /* Spent outputs made unspent again, with the value and flags of their rows. */
  ghost function BackUtxos(rows: map<Outpoint, Row>, owners: map<Outpoint, KeyId>): map<Outpoint, Utxo>
  {
    map o | o in owners && o in rows :: Utxo(rows[o].value, owners[o], rows[o].coinbase)
  }

  ghost function BackRows(rows: map<Outpoint, Row>, owners: map<Outpoint, KeyId>): map<Outpoint, Row>
  {
    map o | o in owners && o in rows :: rows[o].(spent := false)
  }

  ghost predicate SpentByChild(s: State, t: TxId)
    requires t in s.cache
  {
    exists i :: 0 <= i < |s.cache[t].outputs| && Outpoint(t, i) in s.stxos
  }

  /* The state after an accepted removal; keys of the outputs taken out lose their script type. */
  ghost function Removed(s: State, t: TxId): State
    requires t in s.cache
  {
    var back := Restored(s, t);
    var gone := OwnOutputs(s, t);
    s.(stxos := s.stxos - back.Keys,
       utxos := (s.utxos + BackUtxos(s.rows, back)) - gone,
       rows := s.rows + BackRows(s.rows, back),
       scripts := s.scripts - set o | o in gone :: s.utxos[o].key)
  }

  ghost function Remove(s: State, t: TxId): Option<State>
    requires t in s.cache
  {
    if SpentByChild(s, t) then None else Some(Removed(s, t))
  }

  ghost predicate Untouched(s: State, t: TxId)
    requires t in s.cache
  {
    && (forall o :: o in s.cache[t].inputs ==> o !in s.stxos)
    && (forall i :: 0 <= i < |s.cache[t].outputs| ==> Outpoint(t, i) !in s.utxos)
  }

  /* Removing undoes processing exactly when no input was spent before and no output of the
     transaction was unspent before. */
  lemma RemoveUndoesProcess(s: State, t: TxId, relevant: seq<nat>)
    requires CanProcess(s, t, relevant) && Valid(s)
    ensures var p := Process(s, t, relevant);
            && Valid(p)
            && (Remove(p, t).None? <==> SpentByChild(p, t))
            && (Remove(p, t).Some? ==>
                  var r := Remove(p, t).value;
                  r.utxos == s.utxos && r.stxos == s.stxos <==> Untouched(s, t))
  {
    var p := Process(s, t, relevant);
    ProcessValid(s, t, relevant);
    if !SpentByChild(p, t) {
      if Untouched(s, t) {
        UndoAll(s, p, t);
      } else {
        UndoFails(s, p, t);
      }
    }
  }

  lemma UndoFails(s: State, p: State, t: TxId)
    requires t in s.cache && p.cache == s.cache && Valid(p)
    requires !Untouched(s, t) && !SpentByChild(p, t)
    requires forall o :: AfterProcess(s, p, t, o)
    ensures Removed(p, t).utxos != s.utxos || Removed(p, t).stxos != s.stxos
  {
    var r := Removed(p, t);
    if i :| 0 <= i < |s.cache[t].outputs| && Outpoint(t, i) in s.utxos {
      var o := Outpoint(t, i);
      assert AfterProcess(s, p, t, o);
      assert o in p.utxos || o in p.stxos;
      assert o !in p.stxos;
      assert o in OwnOutputs(p, t);
      assert o !in r.utxos;
    } else {
      var o :| o in s.cache[t].inputs && o in s.stxos;
      assert AfterProcess(s, p, t, o);
      assert o in p.stxos && o !in r.stxos;
    }
  }

  lemma UndoAt(s: State, p: State, t: TxId, o: Outpoint)
    requires t in s.cache && p.cache == s.cache && Valid(p)
    requires Coherent(s, o) && AfterProcess(s, p, t, o)
    requires Untouched(s, t) && !SpentByChild(p, t)
    ensures var r := Removed(p, t);
            && (o in r.stxos <==> o in s.stxos)
            && (o in s.stxos ==> r.stxos[o] == s.stxos[o])
            && (o in r.utxos <==> o in s.utxos)
            && (o in s.utxos ==> r.utxos[o] == s.utxos[o])
  {
    assert Coherent(p, o);
    if o.tx == t {
      assert o == Outpoint(t, o.index);
    }
  }

  lemma UndoAll(s: State, p: State, t: TxId)
    requires t in s.cache && p.cache == s.cache && Valid(s) && Valid(p)
    requires forall o :: AfterProcess(s, p, t, o)
    requires Untouched(s, t) && !SpentByChild(p, t)
    ensures Removed(p, t).utxos == s.utxos && Removed(p, t).stxos == s.stxos
  {
    var r := Removed(p, t);
    UndoPoints(s, p, t, r);
    MapsEqual(r.stxos, s.stxos);
    MapsEqual(r.utxos, s.utxos);
  }

  lemma UndoPoints(s: State, p: State, t: TxId, r: State)
    requires t in s.cache && p.cache == s.cache && Valid(s) && Valid(p)
    requires forall o :: AfterProcess(s, p, t, o)
    requires Untouched(s, t) && !SpentByChild(p, t) && r == Removed(p, t)
    ensures forall o :: (o in r.stxos <==> o in s.stxos) && (o in s.stxos ==> r.stxos[o] == s.stxos[o])
    ensures forall o :: (o in r.utxos <==> o in s.utxos) && (o in s.utxos ==> r.utxos[o] == s.utxos[o])
  {
    forall o
      ensures (o in r.stxos <==> o in s.stxos) && (o in s.stxos ==> r.stxos[o] == s.stxos[o])
      ensures (o in r.utxos <==> o in s.utxos) && (o in s.utxos ==> r.utxos[o] == s.utxos[o])
    {
      assert AfterProcess(s, p, t, o) && Coherent(s, o);
      UndoAt(s, p, t, o);
    }
  }

  /* The condition can fail: an output that was known before is processed again, then removed. */
  lemma UndoCanFail() returns (s: State, t: TxId)
    ensures CanProcess(s, t, []) && Valid(s)
    ensures var p := Process(s, t, []);
            && Valid(p) && Remove(p, t).Some? && !Untouched(s, t)
            && Remove(p, t).value.utxos != s.utxos
  {
    t := 0;
    var o, tx := Outpoint(0, 0), Tx([], [Output(5, [7])], false);
    s := State(map[1 := [0]], map[1 := [7]], map[0 := tx], map[o := Utxo(5, 1, false)], map[],
               map[(0, 1) := 5], map[o := Row(5, 1, false, false)]);
    assert forall i :: i in Selected(tx, []) ==> Outpoint(t, i) == o;
    SelectedInRange(s, t, []);
    CreatesNothing(s, t, Selected(tx, []));
    SpendsNothing(s, t, []);
    assert Process(s, t, []) == s && Outpoint(t, 0) in s.utxos;
    RemoveUndoesProcess(s, t, []);
    assert o in OwnOutputs(s, t);
  }

  // ------------------------------------------------------------------- what a removal leaves

  lemma RemovedAt(s: State, t: TxId, o: Outpoint)
    requires t in s.cache && Valid(s)
    ensures var r, back, gone := Removed(s, t), Restored(s, t), OwnOutputs(s, t);
            && (o in back ==> o in s.stxos && o in s.rows && o !in s.utxos)
            && (o in r.stxos <==> o in s.stxos && o !in back)
            && (o in r.stxos ==> r.stxos[o] == s.stxos[o])
            && (o in r.utxos <==> (o in s.utxos || o in back) && o !in gone)
            && (o in r.utxos && o in back ==> r.utxos[o] == Utxo(s.rows[o].value, s.stxos[o], s.rows[o].coinbase))
            && (o in r.utxos && o !in back ==> r.utxos[o] == s.utxos[o])
            && (o in r.rows <==> o in s.rows)
            && (o in r.rows ==> r.rows[o] == if o in back then s.rows[o].(spent := false) else s.rows[o])
  {
    assert Coherent(s, o);
  }

  lemma RemovedValid(s: State, t: TxId)
    requires t in s.cache && Valid(s)
    ensures Valid(Removed(s, t))
  {
    forall o ensures Coherent(Removed(s, t), o) {
      assert Coherent(s, o);
      RemovedAt(s, t, o);
    }
  }

  ghost function OwnUtxos(s: State, t: TxId): map<Outpoint, Utxo>
  {
    map o | o in OwnOutputs(s, t) :: s.utxos[o]
  }

  ghost function BackAgain(s: State, t: TxId): map<Outpoint, Utxo>
    requires t in s.cache
  {
    BackUtxos(s.rows, Restored(s, t))
  }

  /* Unspent outputs after a removal, as disjoint parts: taking the own ones out and putting the
     restored ones in. */
  lemma RemovedParts(s: State, t: TxId)
    requires t in s.cache && Valid(s)
    ensures var r := Removed(s, t);
            && r.utxos.Keys !! OwnUtxos(s, t).Keys && s.utxos.Keys !! BackAgain(s, t).Keys
            && r.utxos + OwnUtxos(s, t) == s.utxos + BackAgain(s, t)
  {
    var r := Removed(s, t);
    forall o
      ensures o in r.utxos + OwnUtxos(s, t) <==> o in s.utxos + BackAgain(s, t)
      ensures o in r.utxos + OwnUtxos(s, t) ==> (r.utxos + OwnUtxos(s, t))[o] == (s.utxos + BackAgain(s, t))[o]
      ensures !(o in s.utxos && o in BackAgain(s, t))
    {
      RemovedAt(s, t, o);
    }
    MapsEqual(r.utxos + OwnUtxos(s, t), s.utxos + BackAgain(s, t));
  }

  lemma UnionValues(m: map<Outpoint, Utxo>, n: map<Outpoint, Utxo>, k: KeyId)
    requires m.Keys !! n.Keys
    ensures Sum(KeyValues(m + n, k)) == Sum(KeyValues(m, k)) + Sum(KeyValues(n, k))
    ensures Sum(Values(m + n)) == Sum(Values(m)) + Sum(Values(n))
  {
    hide Sum;
    assert KeyValues(m + n, k) == KeyValues(m, k) + KeyValues(n, k);
    SumUnion(KeyValues(m, k), KeyValues(n, k));
    assert Values(m + n) == Values(m) + Values(n);
    SumUnion(Values(m), Values(n));
  }

  /* A removal changes the unspent value of each key by what it brings back less what it takes
     out, and emits no delta. */
  lemma RemoveEffect(s: State, t: TxId, k: KeyId)
    requires t in s.cache && Valid(s)
    ensures var r := Removed(s, t);
            && Sum(KeyValues(r.utxos, k))
               == Sum(KeyValues(s.utxos, k)) + Sum(KeyValues(BackAgain(s, t), k)) - Sum(KeyValues(OwnUtxos(s, t), k))
            && Sum(Values(r.utxos))
               == Sum(Values(s.utxos)) + Sum(Values(BackAgain(s, t))) - Sum(Values(OwnUtxos(s, t)))
            && r.deltas == s.deltas
  {
    hide Sum, KeyValues, Values;
    var r := Removed(s, t);
    RemovedParts(s, t);
    UnionValues(r.utxos, OwnUtxos(s, t), k);
    UnionValues(s.utxos, BackAgain(s, t), k);
  }

  ghost predicate Evens(s: State, t: TxId, k: KeyId)
    requires t in s.cache
  {
    Sum(KeyValues(BackAgain(s, t), k)) == Sum(KeyValues(OwnUtxos(s, t), k))
  }

  /* So a removal alone keeps the ledger conserved exactly when it brings back as much as it takes
     out, for each key and in total. */
  lemma RemoveConserves(s: State, t: TxId)
    requires t in s.cache && Valid(s) && Conserved(s)
    ensures Conserved(Removed(s, t))
            <==> (forall k :: Evens(s, t, k)) && Sum(Values(BackAgain(s, t))) == Sum(Values(OwnUtxos(s, t)))
  {
    hide Sum, KeyValues, KeyDeltas, Values, Removed, BackAgain, OwnUtxos;
    var r := Removed(s, t);
    RemoveEffect(s, t, 0);
    forall k ensures BalancedAt(r.deltas, r.utxos, k) <==> Evens(s, t, k) {
      assert BalancedAt(s.deltas, s.utxos, k);
      RemoveEffect(s, t, k);
    }
  }

  // -------------------------------------------------------------------------------- deletion

  /* Deleting a transaction removes it, and its rows leave the tables and the cache. */
  ghost function Deleted(s: State, t: TxId): State
    requires t in s.cache
  {
    var r := Removed(s, t);
    r.(cache := r.cache - {t},
       deltas := map e | e in r.deltas && e.0 != t :: r.deltas[e],
       rows := map o | o in r.rows && o.tx != t :: r.rows[o])
  }

  /* A removal that is refused leaves everything as it was. */
  ghost function Delete(s: State, t: TxId): State
    requires t in s.cache
  {
    if SpentByChild(s, t) then s else Deleted(s, t)
  }

  /* Nothing of a deleted transaction stays known, and nothing else becomes known. */
  lemma DeletedAt(s: State, t: TxId, o: Outpoint)
    requires t in s.cache && Valid(s) && !SpentByChild(s, t)
    ensures var r := Deleted(s, t);
            && Known(r, o) == Known(Removed(s, t), o) && Coherent(r, o)
            && (Known(r, o) ==> Known(s, o) && o.tx != t)
  {
    RemovedAt(s, t, o);
    RemovedValid(s, t);
    assert Coherent(s, o) && Coherent(Removed(s, t), o);
    assert o.tx == t ==> o == Outpoint(t, o.index);
  }

  lemma DeletedValid(s: State, t: TxId)
    requires t in s.cache && Valid(s) && !SpentByChild(s, t)
    ensures Valid(Deleted(s, t))
  {
    RemovedValid(s, t);
    assert Deleted(s, t).scripts == Removed(s, t).scripts;
    hide Deleted, SpentByChild;
    forall o ensures Coherent(Deleted(s, t), o) {
      DeletedAt(s, t, o);
    }
  }
}
