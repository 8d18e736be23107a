/**
 The objects of electrumsv/wallet.py that hold the ledger: SyncState with its two indexes, and
 the account whose dictionaries are updated in place. Every method is proved against the
 functions of Ledger.dfy.
 */
module Account {
  import opened Ledger
  import opened Sums
  import opened Wrappers

  ghost predicate Lists(txKeys: map<TxId, set<KeyId>>, t: TxId, k: KeyId)
  {
    t in txKeys && k in txKeys[t]
  }

  class SyncState {
    var keyHistory: map<KeyId, seq<TxId>>
    var txKeys: map<TxId, set<KeyId>>

    /* The two indexes are inverses of each other. */
    ghost predicate Valid()
      reads this
    {
      forall k, t :: (k in keyHistory && t in keyHistory[k]) <==> Lists(txKeys, t, k)
    }

    constructor ()
      ensures Valid() && keyHistory == map[]
    {
      keyHistory, txKeys := map[], map[];
    }

    /* The loop over removed transactions; it never looks up a missing entry. */
    method DropKey(keyId: KeyId, ids: set<TxId>)
      requires forall t :: t in ids ==> Lists(txKeys, t, keyId)
      modifies this`txKeys
      ensures forall t, k :: Lists(txKeys, t, k) <==>
                             Lists(old(txKeys), t, k) && !(k == keyId && t in ids)
    {
      var todo := ids;
      while todo != {}
        invariant todo <= ids && forall t :: t in todo ==> Lists(txKeys, t, keyId)
        invariant forall t, k :: Lists(txKeys, t, k) <==>
                                 Lists(old(txKeys), t, k) && !(k == keyId && t in ids - todo)
        decreases todo
      {
        var t :| t in todo;
        ghost var before := txKeys;
        assert Lists(before, t, keyId);
        txKeys := txKeys[t := txKeys[t] - {keyId}];
        assert forall u, k :: Lists(txKeys, u, k) <==> Lists(before, u, k) && !(u == t && k == keyId);
        todo := todo - {t};
      }
    }

    /* The loop over added transactions. */
    method EnterKey(keyId: KeyId, ids: set<TxId>)
      modifies this`txKeys
      ensures forall t, k :: Lists(txKeys, t, k) <==>
                             Lists(old(txKeys), t, k) || (k == keyId && t in ids)
    {
      var todo := ids;
      while todo != {}
        invariant todo <= ids
        invariant forall t, k :: Lists(txKeys, t, k) <==>
                                 Lists(old(txKeys), t, k) || (k == keyId && t in ids - todo)
        decreases todo
      {
        var t :| t in todo;
        ghost var before := txKeys;
        if t !in txKeys {
          txKeys := txKeys[t := {}];
        }
        txKeys := txKeys[t := txKeys[t] + {keyId}];
        assert forall u, k :: Lists(txKeys, u, k) <==> Lists(before, u, k) || (u == t && k == keyId);
        todo := todo - {t};
      }
    }

    method SetKeyHistory(keyId: KeyId, history: seq<TxId>) returns (removed: set<TxId>, added: set<TxId>)
      requires Valid()
      modifies this
      ensures Valid() && keyHistory == old(keyHistory)[keyId := history]
      ensures var before := if keyId in old(keyHistory) then old(keyHistory)[keyId] else [];
              && removed == (set t | t in before) - (set t | t in history)
              && added == (set t | t in history) - (set t | t in before)
    {
      var oldHistory := if keyId in keyHistory then keyHistory[keyId] else [];
      keyHistory := keyHistory[keyId := history];
      var oldIds := set t | t in oldHistory;
      var newIds := set t | t in history;
      removed := oldIds - newIds;
      added := newIds - oldIds;
      DropKey(keyId, removed);
      EnterKey(keyId, added);
    }

    function GetTransactionKeyIds(t: TxId): (keys: set<KeyId>)
      reads this
    {
      if t in txKeys then txKeys[t] else {}
    }
  }

  datatype LedgerError = NoScriptType | SpentByAChild | UnknownOutput

  /* Unspent, confirmed or unconfirmed, or mined too recently to be spent. */
  datatype Standing = Confirmed | Unconfirmed | Immature

  const COINBASE_MATURITY := 100

  function StandingOf(u: Utxo, height: int, localHeight: int): Standing
  {
    if u.coinbase && height + COINBASE_MATURITY > localHeight then Immature
    else if height > 0 then Confirmed
    else Unconfirmed
  }

  /* The values of the given unspent outputs that have one standing. */
  ghost function StandingValues(utxos: map<Outpoint, Utxo>, domain: set<Outpoint>, heights: TxId -> int,
                                localHeight: int, standing: Standing): map<Outpoint, int>
  {
    map o | o in domain && o in utxos && StandingOf(utxos[o], heights(o.tx), localHeight) == standing ::
      utxos[o].value
  }

  ghost function DomainValues(utxos: map<Outpoint, Utxo>, domain: set<Outpoint>): map<Outpoint, int>
  {
    map o | o in domain && o in utxos :: utxos[o].value
  }

  /* How far the outputs of an account have moved: each is counted once when it becomes known
     and once when it is spent. */
  ghost function Weight(s: State): nat
  {
    |s.utxos| + 2 * |s.stxos|
  }

  class AbstractAccount {
    const sync: SyncState
    var scripts: map<KeyId, Script>
    var cache: map<TxId, Tx>
    var utxos: map<Outpoint, Utxo>
    var stxos: map<Outpoint, KeyId>
    var deltas: map<DeltaKey, int>
    var rows: map<Outpoint, Row>

    ghost function Abs(): State
      reads this, sync
    {
      State(sync.keyHistory, scripts, cache, utxos, stxos, deltas, rows)
    }

    ghost predicate WellFormed()
      reads this, sync
    {
      sync.Valid() && Valid(Abs())
    }

    constructor (s: SyncState)
      requires s.Valid()
      ensures sync == s && WellFormed()
      ensures Abs() == State(s.keyHistory, map[], map[], map[], map[], map[], map[])
    {
      sync := s;
      scripts, cache, utxos, stxos, deltas, rows := map[], map[], map[], map[], map[], map[];
    }

    method RegisterUtxo(o: Outpoint, value: nat, key: KeyId, coinbase: bool)
      modifies this`utxos
      ensures utxos == old(utxos)[o := Utxo(value, key, coinbase)]
    {
      utxos := utxos[o := Utxo(value, key, coinbase)];
    }

    method CreateTransactionOutput(o: Outpoint, value: nat, key: KeyId, coinbase: bool, spent: bool)
      modifies this`utxos, this`stxos, this`rows
      ensures utxos == if spent then old(utxos) else old(utxos)[o := Utxo(value, key, coinbase)]
      ensures stxos == if spent then old(stxos)[o := key] else old(stxos)
      ensures rows == old(rows)[o := Row(value, key, coinbase, spent)]
    {
      if spent {
        stxos := stxos[o := key];
      } else {
        RegisterUtxo(o, value, key, coinbase);
      }
      rows := rows[o := Row(value, key, coinbase, spent)];
    }

    method SetUtxoSpent(o: Outpoint)
      requires o in utxos && o in rows
      modifies this`utxos, this`stxos, this`rows
      ensures utxos == old(utxos) - {o}
      ensures stxos == old(stxos)[o := old(utxos)[o].key]
      ensures rows == old(rows)[o := old(rows)[o].(coinbase := old(utxos)[o].coinbase, spent := true)]
    {
      var utxo := utxos[o];
      utxos := utxos - {o};
      rows := rows[o := rows[o].(coinbase := utxo.coinbase, spent := true)];
      stxos := stxos[o := utxo.key];
    }

    /* The loop over the candidate keys of a transaction. */
    method FindOwner(keys: set<KeyId>, t: TxId, script: Script) returns (owner: Option<KeyId>)
      requires sync.Valid() && keys == sync.GetTransactionKeyIds(t)
      ensures owner.Some? ==> Owns(Abs(), t, script, owner.value)
      ensures owner.None? ==> forall k :: !Owns(Abs(), t, script, k)
      ensures DistinctScripts(scripts) ==> owner == OwnerOf(Abs(), t, script)
    {
      var todo := keys;
      assert forall k :: k in keys <==> Lists(sync.txKeys, t, k);
      assert forall k :: k in keys <==> InHistory(Abs(), k, t);
      while todo != {}
        invariant todo <= keys
        invariant forall k :: k in keys - todo ==> !Owns(Abs(), t, script, k)
        decreases todo
      {
        var k :| k in todo;
        if k in scripts && scripts[k] == script {
          assert Owns(Abs(), t, script, k);
          return Some(k);
        }
        todo := todo - {k};
      }
      assert forall k :: Owns(Abs(), t, script, k) ==> k in keys;
      return None;
    }

    /* The loop over the history of the owner, looking for a transaction that spends o. */
    method SearchSpender(k: KeyId, t: TxId, o: Outpoint) returns (spender: Option<TxId>)
      requires k in sync.keyHistory
      ensures spender == FindSpender(cache, sync.keyHistory[k], t, o)
    {
      var hist := sync.keyHistory[k];
      var i := 0;
      while i < |hist|
        invariant 0 <= i <= |hist|
        invariant FindSpender(cache, hist, t, o) == FindSpender(cache, hist[i..], t, o)
      {
        if hist[i] != t && hist[i] in cache && o in cache[hist[i]].inputs {
          return Some(hist[i]);
        }
        assert hist[i..][1..] == hist[i + 1..];
        i := i + 1;
      }
      return None;
    }

    /* An output owned by k enters the ledger, as spent when a spender is already cached. */
    method RecordOutput(t: TxId, i: nat, k: KeyId, txDeltas: map<DeltaKey, int>)
      returns (newDeltas: map<DeltaKey, int>)
      requires t in cache && i < |cache[t].outputs| && k in sync.keyHistory
      modifies this`utxos, this`stxos, this`rows
      ensures var s := old(Abs()).(deltas := txDeltas);
              Abs().(deltas := newDeltas) ==
              match FindSpender(cache, sync.keyHistory[k], t, Outpoint(t, i))
              case Some(b) => AddSpent(s, t, i, k, b)
              case None => AddUnspent(s, t, i, k)
    {
      var v: int := cache[t].outputs[i].value;
      newDeltas := txDeltas;
      var spender := SearchSpender(k, t, Outpoint(t, i));
      if spender.Some? {
        newDeltas := Bump(newDeltas, (spender.value, k), -v);
      }
      CreateTransactionOutput(Outpoint(t, i), cache[t].outputs[i].value, k, cache[t].coinbase, spender.Some?);
      newDeltas := Bump(newDeltas, (t, k), v);
    }

    /* One turn of the loop over outputs. */
    method VisitOutput(t: TxId, i: nat, keys: set<KeyId>, txDeltas: map<DeltaKey, int>)
      returns (newDeltas: map<DeltaKey, int>)
      requires sync.Valid() && DistinctScripts(scripts) && keys == sync.GetTransactionKeyIds(t)
      requires t in cache && i < |cache[t].outputs|
      modifies this`utxos, this`stxos, this`rows
      ensures Abs().(deltas := newDeltas) == CreateOutput(old(Abs()).(deltas := txDeltas), t, i)
    {
      newDeltas := txDeltas;
      var o := Outpoint(t, i);
      ghost var s := Abs().(deltas := txDeltas);
      OwnerStable(Abs(), s, t, cache[t].outputs[i].script);
      if o in utxos || o in stxos {
        return;
      }
      var owner := FindOwner(keys, t, cache[t].outputs[i].script);
      if owner.Some? {
        newDeltas := RecordOutput(t, i, owner.value, txDeltas);
      }
    }

    /* One turn of the loop over inputs. */
    method VisitInput(t: TxId, o: Outpoint, txDeltas: map<DeltaKey, int>)
      returns (newDeltas: map<DeltaKey, int>)
      requires Coherent(Abs(), o)
      modifies this`utxos, this`stxos, this`rows
      ensures Abs().(deltas := newDeltas) == SpendInput(old(Abs()).(deltas := txDeltas), t, o)
    {
      newDeltas := txDeltas;
      if o in stxos {
        return;
      }
      if o !in utxos {
        return;
      }
      var utxo := utxos[o];
      var v: int := utxo.value;
      SetUtxoSpent(o);
      newDeltas := Bump(newDeltas, (t, utxo.key), -v);
    }

    method VisitOutputs(t: TxId, indices: seq<nat>) returns (txDeltas: map<DeltaKey, int>)
      requires sync.Valid() && DistinctScripts(scripts) && InRange(Abs(), t, indices)
      modifies this`utxos, this`stxos, this`rows
      ensures Abs().(deltas := txDeltas) == CreateOutputs(old(Abs()).(deltas := map[]), t, indices)
    {
      ghost var start := Abs().(deltas := map[]);
      assert InRange(start, t, indices);
      var keys := sync.GetTransactionKeyIds(t);
      txDeltas := map[];
      var i := 0;
      while i < |indices|
        invariant 0 <= i <= |indices|
        invariant InRange(start, t, indices[..i])
        invariant Abs().(deltas := txDeltas) == CreateOutputs(start, t, indices[..i])
      {
        assert indices[i] in indices;
        txDeltas := VisitOutput(t, indices[i], keys, txDeltas);
        assert indices[..i + 1][..i] == indices[..i];
        i := i + 1;
        assert forall x :: x in indices[..i] ==> x in indices;
      }
      assert indices[..|indices|] == indices;
    }

    method VisitInputs(t: TxId, inputs: seq<Outpoint>, before: map<DeltaKey, int>)
      returns (txDeltas: map<DeltaKey, int>)
      requires forall o :: o in inputs ==> Coherent(Abs(), o)
      modifies this`utxos, this`stxos, this`rows
      ensures Abs().(deltas := txDeltas) == SpendInputs(old(Abs()).(deltas := before), t, inputs)
    {
      ghost var mid := Abs().(deltas := before);
      txDeltas := before;
      var i := 0;
      while i < |inputs|
        invariant 0 <= i <= |inputs|
        invariant Abs().(deltas := txDeltas) == SpendInputs(mid, t, inputs[..i])
      {
        assert Coherent(mid, inputs[i]);
        SpendsEffect(mid, t, inputs[..i], inputs[i]);
        txDeltas := VisitInput(t, inputs[i], txDeltas);
        assert inputs[..i + 1][..i] == inputs[..i];
        i := i + 1;
      }
      assert inputs[..|inputs|] == inputs;
    }

    /* relevant lists the outputs to visit; when it is empty all of them are. */
    method ProcessKeyUsage(t: TxId, relevant: seq<nat>) returns (r: Result<bool, LedgerError>)
      requires WellFormed() && CanProcess(Abs(), t, relevant)
      modifies this`utxos, this`stxos, this`rows, this`deltas
      ensures r.Err? <==> exists k :: InHistory(old(Abs()), k, t) && k !in scripts
      ensures r.Err? ==> Abs() == old(Abs())
      ensures r.Ok? ==> Abs() == Process(old(Abs()), t, relevant)
      ensures r.Ok? ==> (r.value <==> Abs() != old(Abs()))
      ensures WellFormed()
    {
      var keys := sync.GetTransactionKeyIds(t);
      assert forall k :: k in keys <==> Lists(sync.txKeys, t, k);
      assert forall k :: k in keys <==> InHistory(Abs(), k, t);
      if exists k :: k in keys && k !in scripts {
        return Err(NoScriptType);
      }
      ghost var s0 := Abs();
      ProcessValid(s0, t, relevant);
      ProcessBatched(s0, t, relevant);
      var txDeltas := VisitOutputs(t, Selected(cache[t], relevant));
      MidCoherent(s0, t, relevant, Abs());
      txDeltas := VisitInputs(t, cache[t].inputs, txDeltas);
      deltas := AddAll(deltas, txDeltas);
      r := Ok(txDeltas != map[]);
    }

    /* The first loop of a removal: it changes nothing, and collects the outputs to take out. */
    method CollectOutputs(t: TxId) returns (r: Result<set<Outpoint>, LedgerError>)
      requires WellFormed() && t in cache
      ensures SpentByChild(Abs(), t) ==> r == Err(SpentByAChild)
      ensures !SpentByChild(Abs(), t) ==> r == Ok(OwnOutputs(Abs(), t))
    {
      var own: set<Outpoint> := {};
      var i := 0;
      while i < |cache[t].outputs|
        invariant 0 <= i <= |cache[t].outputs|
        invariant forall j :: 0 <= j < i ==> Outpoint(t, j) !in stxos
        invariant forall o :: o in own <==> o in OwnOutputs(Abs(), t) && o.index < i
      {
        var o := Outpoint(t, i);
        if o in stxos {
          return Err(SpentByAChild);
        }
        if o in utxos {
          own := own + {o};
        }
        assert forall x :: x in OwnOutputs(Abs(), t) && x.index == i ==> x == o;
        i := i + 1;
      }
      assert own == OwnOutputs(Abs(), t);
      return Ok(own);
    }

    /* The second loop: inputs that were spent leave the spent map and are remembered. */
    method PopInputs(t: TxId) returns (candidates: map<Outpoint, KeyId>)
      requires WellFormed() && t in cache
      modifies this`stxos
      ensures candidates == Restored(old(Abs()), t)
      ensures stxos == old(stxos) - candidates.Keys
    {
      candidates := map[];
      var i := 0;
      var inputs := cache[t].inputs;
      while i < |inputs|
        invariant 0 <= i <= |inputs|
        invariant forall o :: o in candidates <==> o in old(stxos) && o in inputs[..i]
        invariant forall o :: o in candidates ==> candidates[o] == old(stxos)[o]
        invariant forall o :: o in stxos <==> o in old(stxos) && o !in inputs[..i]
        invariant forall o :: o in stxos ==> stxos[o] == old(stxos)[o]
      {
        var o := inputs[i];
        if o in stxos {
          candidates := candidates[o := stxos[o]];
          stxos := stxos - {o};
        }
        assert inputs[..i + 1] == inputs[..i] + [o];
        i := i + 1;
      }
      assert inputs[..|inputs|] == inputs;
    }

    /* The third loop: the remembered outputs become unspent again, with the value and flags of
       their rows. */
    method RestoreOutputs(candidates: map<Outpoint, KeyId>)
      requires candidates.Keys <= rows.Keys
      modifies this`utxos, this`rows
      ensures utxos == old(utxos) + BackUtxos(old(rows), candidates)
      ensures rows == old(rows) + BackRows(old(rows), candidates)
    {
      var todo := candidates.Keys;
      while todo != {}
        invariant todo <= candidates.Keys
        invariant forall o :: RestoredAt(old(utxos), old(rows), candidates, todo, utxos, rows, o)
        decreases todo
      {
        var o :| o in todo;
        ghost var utxos', rows', todo' := utxos, rows, todo;
        assert RestoredAt(old(utxos), old(rows), candidates, todo, utxos, rows, o);
        RegisterUtxo(o, rows[o].value, candidates[o], rows[o].coinbase);
        rows := rows[o := rows[o].(spent := false)];
        todo := todo - {o};
        forall x ensures RestoredAt(old(utxos), old(rows), candidates, todo, utxos, rows, x) {
          assert RestoredAt(old(utxos), old(rows), candidates, todo', utxos', rows', x);
        }
      }
      RestoredDone(old(utxos), old(rows), candidates, utxos, rows);
    }

    /* The last loop: the outputs of the transaction go, and their keys lose their script type. */
    method ExpungeOutputs(own: set<Outpoint>, ghost before: map<Outpoint, Utxo>)
      requires forall o :: o in own ==> o in before && o in utxos && utxos[o] == before[o]
      modifies this`utxos, this`scripts
      ensures utxos == old(utxos) - own
      ensures scripts == old(scripts) - set o | o in own :: before[o].key
    {
      var todo := own;
      while todo != {}
        invariant todo <= own
        invariant utxos == old(utxos) - (own - todo)
        invariant scripts == old(scripts) - set o | o in own - todo :: before[o].key
        decreases todo
      {
        var o :| o in todo;
        scripts := scripts - {utxos[o].key};
        utxos := utxos - {o};
        todo := todo - {o};
        assert own - todo == (own - (todo + {o})) + {o};
      }
      assert own - {} == own;
    }

    method RemoveTransaction(t: TxId) returns (r: Result<(), LedgerError>)
      requires WellFormed() && t in cache
      modifies this`utxos, this`stxos, this`rows, this`scripts
      ensures WellFormed()
      ensures SpentByChild(old(Abs()), t) ==> r == Err(SpentByAChild) && Abs() == old(Abs())
      ensures !SpentByChild(old(Abs()), t) ==> r == Ok(()) && Abs() == Removed(old(Abs()), t)
    {
      var own := CollectOutputs(t);
      if own.Err? {
        return Err(own.error);
      }
      hide SpentByChild, Restored, BackUtxos, BackRows, OwnOutputs;
      ghost var s := Abs();
      var candidates := PopInputs(t);
      RestoredCoherent(s, t);
      RestoreOutputs(candidates);
      ExpungeOutputs(own.value, s.utxos);
      RemovedValid(s, t);
      r := Ok(());
    }

    /* An accepted removal is followed by deleting the transaction from the cache and its rows from
       both tables. */
    method DeleteTransaction(t: TxId) returns (r: Result<(), LedgerError>)
      requires WellFormed() && t in cache
      modifies this`utxos, this`stxos, this`rows, this`scripts, this`deltas, this`cache
      ensures WellFormed() && Abs() == Delete(old(Abs()), t)
      ensures r == if SpentByChild(old(Abs()), t) then Err(SpentByAChild) else Ok(())
    {
      hide SpentByChild, Removed;
      ghost var s := Abs();
      r := RemoveTransaction(t);
      if r.Err? {
        return;
      }
      DeletedValid(s, t);
      cache := cache - {t};
      deltas := map e | e in deltas && e.0 != t :: deltas[e];
      rows := map o | o in rows && o.tx != t :: rows[o];
    }

    /* Confirmed, unconfirmed and immature value of a domain; heights stands for the recorded
       block heights. None is the lookup of a coin that is no longer unspent. */
    method GetBalance(domain: Option<set<Outpoint>>, frozen: set<Outpoint>, excludeFrozen: bool,
                      heights: TxId -> int, localHeight: int)
      returns (r: Option<(int, int, int)>)
      ensures var coins := (if domain.Some? then domain.value else utxos.Keys)
                           - (if excludeFrozen then frozen else {});
              && (r.None? <==> !(coins <= utxos.Keys))
              && (r.Some? ==>
                    && r.value.0 == Sum(StandingValues(utxos, coins, heights, localHeight, Confirmed))
                    && r.value.1 == Sum(StandingValues(utxos, coins, heights, localHeight, Unconfirmed))
                    && r.value.2 == Sum(StandingValues(utxos, coins, heights, localHeight, Immature)))
    {
      hide Sum, StandingValues, StandingOf;
      var all := if domain.Some? then domain.value else utxos.Keys;
      ghost var coins := all - (if excludeFrozen then frozen else {});
      var todo := all;
      var c, u, x := 0, 0, 0;
      assert coins * (all - todo) == {};
      StandingNone(utxos, heights, localHeight);
      while todo != {}
        invariant todo <= all && coins * (all - todo) <= utxos.Keys
        invariant c == Sum(StandingValues(utxos, coins * (all - todo), heights, localHeight, Confirmed))
        invariant u == Sum(StandingValues(utxos, coins * (all - todo), heights, localHeight, Unconfirmed))
        invariant x == Sum(StandingValues(utxos, coins * (all - todo), heights, localHeight, Immature))
        decreases todo
      {
        var k :| k in todo;
        ghost var seen := coins * (all - todo);
        todo := todo - {k};
        if excludeFrozen && k in frozen {
          assert coins * (all - todo) == seen;
          continue;
        }
        if k !in utxos {
          assert k in coins;
          return None;
        }
        assert coins * (all - todo) == seen + {k};
        var o := utxos[k];
        var standing := StandingOf(o, heights(k.tx), localHeight);
        StandingAdd(utxos, seen, heights, localHeight, k, Confirmed);
        StandingAdd(utxos, seen, heights, localHeight, k, Unconfirmed);
        StandingAdd(utxos, seen, heights, localHeight, k, Immature);
        match standing {
          case Immature => x := x + o.value;
          case Confirmed => c := c + o.value;
          case Unconfirmed => u := u + o.value;
        }
      }
      assert coins * (all - todo) == coins;
      return Some((c, u, x));
    }
  }

  /* One outpoint while outputs are being restored: finished ones are unspent again, the
     others are as they were. */
  ghost predicate RestoredAt(utxos: map<Outpoint, Utxo>, rows: map<Outpoint, Row>,
                             candidates: map<Outpoint, KeyId>, todo: set<Outpoint>,
                             utxos': map<Outpoint, Utxo>, rows': map<Outpoint, Row>, o: Outpoint)
  {
    if o in candidates && o !in todo then
      && o in rows && o in utxos' && o in rows'
      && utxos'[o] == Utxo(rows[o].value, candidates[o], rows[o].coinbase)
      && rows'[o] == rows[o].(spent := false)
    else
      && (o in utxos' <==> o in utxos) && (o in utxos ==> utxos'[o] == utxos[o])
      && (o in rows' <==> o in rows) && (o in rows ==> rows'[o] == rows[o])
  }

  lemma RestoredDone(utxos: map<Outpoint, Utxo>, rows: map<Outpoint, Row>,
                     candidates: map<Outpoint, KeyId>,
                     utxos': map<Outpoint, Utxo>, rows': map<Outpoint, Row>)
    requires candidates.Keys <= rows.Keys
    requires forall o :: RestoredAt(utxos, rows, candidates, {}, utxos', rows', o)
    ensures utxos' == utxos + BackUtxos(rows, candidates)
    ensures rows' == rows + BackRows(rows, candidates)
  {
    var wantUtxos, wantRows := utxos + BackUtxos(rows, candidates), rows + BackRows(rows, candidates);
    forall o
      ensures (o in utxos' <==> o in wantUtxos) && (o in utxos' ==> utxos'[o] == wantUtxos[o])
      ensures (o in rows' <==> o in wantRows) && (o in rows' ==> rows'[o] == wantRows[o])
    {
      assert RestoredAt(utxos, rows, candidates, {}, utxos', rows', o);
    }
    MapsEqual(utxos', wantUtxos);
    MapsEqual(rows', wantRows);
  }

  lemma RestoredCoherent(s: State, t: TxId)
    requires Valid(s) && t in s.cache
    ensures Restored(s, t).Keys <= s.rows.Keys
    ensures forall o :: o in OwnOutputs(s, t) ==>
              o in s.utxos + BackUtxos(s.rows, Restored(s, t))
              && (s.utxos + BackUtxos(s.rows, Restored(s, t)))[o] == s.utxos[o]
  {
    forall o | o in Restored(s, t)
      ensures o in s.rows && o !in s.utxos
    {
      assert Coherent(s, o);
    }
  }

  lemma StandingNone(utxos: map<Outpoint, Utxo>, heights: TxId -> int, localHeight: int)
    ensures forall standing :: Sum(StandingValues(utxos, {}, heights, localHeight, standing)) == 0
  {}

  lemma StandingAdd(utxos: map<Outpoint, Utxo>, seen: set<Outpoint>, heights: TxId -> int,
                    localHeight: int, k: Outpoint, standing: Standing)
    requires k in utxos && k !in seen
    ensures Sum(StandingValues(utxos, seen + {k}, heights, localHeight, standing))
            == Sum(StandingValues(utxos, seen, heights, localHeight, standing))
               + if StandingOf(utxos[k], heights(k.tx), localHeight) == standing then utxos[k].value else 0
  {
    var before := StandingValues(utxos, seen, heights, localHeight, standing);
    var after := StandingValues(utxos, seen + {k}, heights, localHeight, standing);
    if StandingOf(utxos[k], heights(k.tx), localHeight) == standing {
      assert after == before[k := utxos[k].value];
      SumUpdate(before, k, utxos[k].value);
    } else {
      assert after == before;
    }
  }

  /* Which coins each part holds: a coinbase output mined less than 100 blocks ago is immature,
     any other coin is confirmed when its transaction has a height. */
  lemma PartsHold(utxos: map<Outpoint, Utxo>, coins: set<Outpoint>, heights: TxId -> int, localHeight: int,
                  o: Outpoint)
    requires o in coins && o in utxos
    ensures var immature := utxos[o].coinbase && localHeight - heights(o.tx) < 100;
            var x := StandingValues(utxos, coins, heights, localHeight, Immature);
            var c := StandingValues(utxos, coins, heights, localHeight, Confirmed);
            var u := StandingValues(utxos, coins, heights, localHeight, Unconfirmed);
            && (o in x <==> immature) && (o in c <==> !immature && heights(o.tx) > 0)
            && (o in u <==> !immature && heights(o.tx) <= 0)
            && (o in x ==> x[o] == utxos[o].value) && (o in c ==> c[o] == utxos[o].value)
            && (o in u ==> u[o] == utxos[o].value)
  {}

  /* The three parts of a balance together. */
  ghost function ThreeParts(utxos: map<Outpoint, Utxo>, domain: set<Outpoint>, heights: TxId -> int,
                            localHeight: int): int
  {
    Sum(StandingValues(utxos, domain, heights, localHeight, Confirmed))
    + Sum(StandingValues(utxos, domain, heights, localHeight, Unconfirmed))
    + Sum(StandingValues(utxos, domain, heights, localHeight, Immature))
  }

  lemma ThreePartsAdd(utxos: map<Outpoint, Utxo>, rest: set<Outpoint>, heights: TxId -> int,
                      localHeight: int, k: Outpoint)
    requires k in utxos && k !in rest
    ensures ThreeParts(utxos, rest + {k}, heights, localHeight)
            == ThreeParts(utxos, rest, heights, localHeight) + utxos[k].value
  {
    StandingAdd(utxos, rest, heights, localHeight, k, Confirmed);
    StandingAdd(utxos, rest, heights, localHeight, k, Unconfirmed);
    StandingAdd(utxos, rest, heights, localHeight, k, Immature);
  }

  lemma DomainAdd(utxos: map<Outpoint, Utxo>, rest: set<Outpoint>, k: Outpoint)
    requires k in utxos && k !in rest
    ensures Sum(DomainValues(utxos, rest + {k})) == Sum(DomainValues(utxos, rest)) + utxos[k].value
  {
    assert DomainValues(utxos, rest + {k}) == DomainValues(utxos, rest)[k := utxos[k].value];
    SumUpdate(DomainValues(utxos, rest), k, utxos[k].value);
  }

  /* The three parts of a balance add up to the value of the domain. */
  lemma {:induction false} PartsAddUp(utxos: map<Outpoint, Utxo>, domain: set<Outpoint>,
                                      heights: TxId -> int, localHeight: int)
    requires domain <= utxos.Keys
    ensures ThreeParts(utxos, domain, heights, localHeight) == Sum(DomainValues(utxos, domain))
    decreases domain
  {
    if domain == {} {
      assert DomainValues(utxos, domain).Keys == {};
    } else {
      var k :| k in domain;
      var rest := domain - {k};
      assert rest + {k} == domain;
      PartsAddUp(utxos, rest, heights, localHeight);
      ThreePartsAdd(utxos, rest, heights, localHeight, k);
      DomainAdd(utxos, rest, k);
    }
  }

  /* Of a conserved ledger the whole balance is the sum of all deltas ever emitted. */
  lemma BalanceIsDeltas(s: State, heights: TxId -> int, localHeight: int)
    requires Conserved(s)
    ensures ThreeParts(s.utxos, s.utxos.Keys, heights, localHeight) == Sum(s.deltas)
  {
    PartsAddUp(s.utxos, s.utxos.Keys, heights, localHeight);
    assert DomainValues(s.utxos, s.utxos.Keys) == Values(s.utxos);
  }

  /* Coherence does not look at deltas, so it survives the loop over outputs. */
  lemma MidCoherent(s: State, t: TxId, relevant: seq<nat>, mid: State)
    requires Valid(s) && CanProcess(s, t, relevant)
    requires InRange(s, t, Selected(s.cache[t], relevant))
    requires exists d ::
      mid.(deltas := d) == CreateOutputs(s.(deltas := map[]), t, Selected(s.cache[t], relevant))
    ensures forall o :: Coherent(mid, o)
  {
    var start, indices := s.(deltas := map[]), Selected(s.cache[t], relevant);
    forall o ensures Coherent(mid, o) {
      assert Coherent(s, o) && Coherent(start, o);
      CreatesEffect(start, t, indices, o);
    }
  }

  // --------------------------------------------------------- deltas collected on the side

  /* The state c with its collected deltas applied to the table d. */
  ghost function Batched(d: map<DeltaKey, int>, c: State): State
  {
    c.(deltas := AddAll(d, c.deltas))
  }

  /* r follows from s: either nothing was collected and nothing moved, or something was. */
  ghost predicate Follows(s: State, r: State)
  {
    r == s || (Weight(r) > Weight(s) && r.deltas != map[])
  }

  /* Recording a spent output looks at the deltas only to add to them. */
  lemma AddSpentShift(c: State, m: map<DeltaKey, int>, t: TxId, i: nat, k: KeyId, b: TxId)
    requires t in c.cache && i < |c.cache[t].outputs|
    ensures var v: int := c.cache[t].outputs[i].value;
            AddSpent(c.(deltas := m), t, i, k, b)
            == AddSpent(c, t, i, k, b).(deltas := Bump(Bump(m, (b, k), 0 - v), (t, k), v))
  {
    hide Bump;
  }

  lemma AddSpentBatched(d: map<DeltaKey, int>, c: State, t: TxId, i: nat, k: KeyId, b: TxId)
    requires t in c.cache && i < |c.cache[t].outputs|
    ensures AddSpent(Batched(d, c), t, i, k, b) == Batched(d, AddSpent(c, t, i, k, b))
  {
    hide *;
    var v: int := c.cache[t].outputs[i].value;
    var all := AddAll(d, c.deltas);
    BatchedIs(d, c);
    AddSpentShift(c, all, t, i, k, b);
    AddAllBumpTwice(d, c.deltas, (b, k), 0 - v, (t, k), v);
    AddSpentDeltas(c, t, i, k, b);
    BatchedIs(d, AddSpent(c, t, i, k, b));
  }

  lemma BatchedIs(d: map<DeltaKey, int>, c: State)
    ensures Batched(d, c) == c.(deltas := AddAll(d, c.deltas))
  {}

  lemma AddSpentDeltas(c: State, t: TxId, i: nat, k: KeyId, b: TxId)
    requires t in c.cache && i < |c.cache[t].outputs|
    ensures var v: int := c.cache[t].outputs[i].value;
            AddSpent(c, t, i, k, b).deltas == Bump(Bump(c.deltas, (b, k), 0 - v), (t, k), v)
  {
    hide Bump;
  }

  lemma AddSpentFollows(c: State, t: TxId, i: nat, k: KeyId, b: TxId)
    requires t in c.cache && i < |c.cache[t].outputs| && !Known(c, Outpoint(t, i))
    ensures Follows(c, AddSpent(c, t, i, k, b))
  {
    assert (t, k) in AddSpent(c, t, i, k, b).deltas;
  }

  lemma AddUnspentBatched(d: map<DeltaKey, int>, c: State, t: TxId, i: nat, k: KeyId)
    requires t in c.cache && i < |c.cache[t].outputs| && !Known(c, Outpoint(t, i))
    ensures AddUnspent(Batched(d, c), t, i, k) == Batched(d, AddUnspent(c, t, i, k))
    ensures (t, k) in AddUnspent(c, t, i, k).deltas
    ensures Weight(AddUnspent(c, t, i, k)) > Weight(c)
  {
    var v: int := c.cache[t].outputs[i].value;
    AddAllBump(d, c.deltas, (t, k), v);
  }

  lemma CreateBatched(d: map<DeltaKey, int>, c: State, t: TxId, i: nat)
    requires t in c.cache && i < |c.cache[t].outputs| && DistinctScripts(c.scripts)
    ensures CreateOutput(Batched(d, c), t, i) == Batched(d, CreateOutput(c, t, i))
    ensures Follows(c, CreateOutput(c, t, i))
  {
    var script, o := c.cache[t].outputs[i].script, Outpoint(t, i);
    OwnerStable(c, Batched(d, c), t, script);
    var owner := OwnerOf(c, t, script);
    if !Known(c, o) && owner.Some? {
      match FindSpender(c.cache, c.history[owner.value], t, o) {
        case Some(b) =>
          AddSpentBatched(d, c, t, i, owner.value, b);
          AddSpentFollows(c, t, i, owner.value, b);
        case None => AddUnspentBatched(d, c, t, i, owner.value);
      }
    }
  }

  lemma SpendBatched(d: map<DeltaKey, int>, c: State, t: TxId, o: Outpoint)
    ensures SpendInput(Batched(d, c), t, o) == Batched(d, SpendInput(c, t, o))
  {
    if o in c.utxos && o !in c.stxos {
      var v: int := c.utxos[o].value;
      AddAllBump(d, c.deltas, (t, c.utxos[o].key), -v);
    }
  }

  lemma SpendFollows(c: State, t: TxId, o: Outpoint)
    ensures Follows(c, SpendInput(c, t, o))
  {
    if o in c.utxos && o !in c.stxos {
      var r := SpendInput(c, t, o);
      assert (t, c.utxos[o].key) in r.deltas;
      DropSize(c.utxos, o);
      GrowSize(c.stxos, o, c.utxos[o].key);
    }
  }

  lemma {:induction false} CreatesBatched(d: map<DeltaKey, int>, c: State, t: TxId, indices: seq<nat>)
    requires InRange(c, t, indices) && DistinctScripts(c.scripts)
    ensures CreateOutputs(Batched(d, c), t, indices) == Batched(d, CreateOutputs(c, t, indices))
    ensures Follows(c, CreateOutputs(c, t, indices))
  {
    if indices != [] {
      var n := |indices| - 1;
      assert indices[n] in indices && forall i :: i in indices[..n] ==> i in indices;
      CreatesBatched(d, c, t, indices[..n]);
      CreateBatched(d, CreateOutputs(c, t, indices[..n]), t, indices[n]);
    }
  }

  lemma {:induction false} SpendsBatched(d: map<DeltaKey, int>, c: State, t: TxId, inputs: seq<Outpoint>)
    ensures SpendInputs(Batched(d, c), t, inputs) == Batched(d, SpendInputs(c, t, inputs))
    ensures Follows(c, SpendInputs(c, t, inputs))
  {
    if inputs != [] {
      var n := |inputs| - 1;
      SpendsBatched(d, c, t, inputs[..n]);
      SpendBatched(d, SpendInputs(c, t, inputs[..n]), t, inputs[n]);
      SpendFollows(SpendInputs(c, t, inputs[..n]), t, inputs[n]);
    }
  }

  /* Collecting the deltas of a call and applying them at the end is processing; nothing is
     emitted exactly when nothing changes. */
  lemma ProcessBatched(s: State, t: TxId, relevant: seq<nat>)
    requires CanProcess(s, t, relevant) && DistinctScripts(s.scripts)
    ensures InRange(s, t, Selected(s.cache[t], relevant))
    ensures var start := s.(deltas := map[]);
            var c := SpendInputs(CreateOutputs(start, t, Selected(s.cache[t], relevant)), t, s.cache[t].inputs);
            && Process(s, t, relevant) == Batched(s.deltas, c)
            && (c.deltas != map[] <==> Process(s, t, relevant) != s)
  {
    hide CreateOutputs, SpendInputs, Follows, AddAll, Batched, DistinctScripts;
    SelectedInRange(s, t, relevant);
    var start, indices := s.(deltas := map[]), Selected(s.cache[t], relevant);
    AddAllEmpty(s.deltas);
    BatchedIs(s.deltas, start);
    assert Batched(s.deltas, start) == s;
    CreatesBatched(s.deltas, start, t, indices);
    var mid := CreateOutputs(start, t, indices);
    SpendsBatched(s.deltas, mid, t, s.cache[t].inputs);
    BatchedMoved(s, SpendInputs(mid, t, s.cache[t].inputs));
  }

  lemma BatchedMoved(s: State, c: State)
    requires Follows(s.(deltas := map[]), c)
    ensures c.deltas != map[] <==> Batched(s.deltas, c) != s
  {
    AddAllEmpty(s.deltas);
    assert Weight(Batched(s.deltas, c)) == Weight(c) && Weight(s.(deltas := map[])) == Weight(s);
  }
}
