/**
 What one processing call does to each output of its transaction, told in terms of the histories,
 the cache and the list of relevant outputs alone.
 */
module LedgerOutcome {
  import opened Ledger
  import opened Wrappers

  /* A transaction of the key's history, or t itself, spends o. */
  ghost predicate SpentAlready(s: State, t: TxId, k: KeyId, o: Outpoint)
    requires k in s.history
  {
    exists b :: b in s.cache && o in s.cache[b].inputs && (b == t || b in s.history[k])
  }

  ghost predicate SpentElsewhere(s: State, t: TxId, k: KeyId, o: Outpoint)
    requires k in s.history
  {
    exists b :: b in s.cache && o in s.cache[b].inputs && b != t && b in s.history[k]
  }

  /* The output has its row, and stands where the row says. */
  ghost predicate Recorded(r: State, o: Outpoint, row: Row)
  {
    && o in r.rows && r.rows[o] == row
    && (o in r.stxos <==> row.spent) && (o in r.utxos <==> !row.spent)
    && (row.spent ==> r.stxos[o] == row.key)
    && (!row.spent ==> r.utxos[o] == Utxo(row.value, row.key, row.coinbase))
  }

  ghost predicate SameAt(s: State, r: State, o: Outpoint)
  {
    && (o in r.utxos <==> o in s.utxos) && (o in s.utxos ==> r.utxos[o] == s.utxos[o])
    && (o in r.stxos <==> o in s.stxos) && (o in s.stxos ==> r.stxos[o] == s.stxos[o])
    && (o in r.rows <==> o in s.rows) && (o in s.rows ==> r.rows[o] == s.rows[o])
  }

  lemma OwnerIs(s: State, t: TxId, script: Script, k: KeyId)
    requires DistinctScripts(s.scripts) && Owns(s, t, script, k)
    ensures OwnerOf(s, t, script) == Some(k)
  {}

  lemma CreateRecords(s: State, t: TxId, i: nat, k: KeyId)
    requires t in s.cache && i < |s.cache[t].outputs| && DistinctScripts(s.scripts)
    requires Owns(s, t, s.cache[t].outputs[i].script, k) && !Known(s, Outpoint(t, i))
    ensures Recorded(CreateOutput(s, t, i), Outpoint(t, i),
                     Row(s.cache[t].outputs[i].value, k, s.cache[t].coinbase, SpentElsewhere(s, t, k, Outpoint(t, i))))
  {
    OwnerIs(s, t, s.cache[t].outputs[i].script, k);
    FindSpenderExact(s.cache, s.history[k], t, Outpoint(t, i));
  }

  lemma CreateSkips(s: State, t: TxId, i: nat, o: Outpoint)
    requires t in s.cache && i < |s.cache[t].outputs|
    requires o != Outpoint(t, i) || Known(s, o) || OwnerOf(s, t, s.cache[t].outputs[i].script).None?
    ensures SameAt(s, CreateOutput(s, t, i), o)
  {}

  lemma {:induction false} CreatesSkip(s: State, t: TxId, indices: seq<nat>, i: nat)
    requires InRange(s, t, indices) && i < |s.cache[t].outputs| && DistinctScripts(s.scripts)
    requires i !in indices || Known(s, Outpoint(t, i)) || OwnerOf(s, t, s.cache[t].outputs[i].script).None?
    ensures SameAt(s, CreateOutputs(s, t, indices), Outpoint(t, i))
  {
    if indices != [] {
      var n := |indices| - 1;
      assert indices[n] in indices && forall j :: j in indices[..n] ==> j in indices;
      CreatesSkip(s, t, indices[..n], i);
      var m := CreateOutputs(s, t, indices[..n]);
      OwnerStable(s, m, t, s.cache[t].outputs[i].script);
      CreateSkips(m, t, indices[n], Outpoint(t, i));
    }
  }

  lemma {:induction false} CreatesRecord(s: State, t: TxId, indices: seq<nat>, i: nat, k: KeyId)
    requires InRange(s, t, indices) && i in indices && DistinctScripts(s.scripts)
    requires Owns(s, t, s.cache[t].outputs[i].script, k) && !Known(s, Outpoint(t, i))
    ensures Recorded(CreateOutputs(s, t, indices), Outpoint(t, i),
                     Row(s.cache[t].outputs[i].value, k, s.cache[t].coinbase, SpentElsewhere(s, t, k, Outpoint(t, i))))
  {
    hide Recorded, SpentElsewhere, CreateOutput;
    var n, o := |indices| - 1, Outpoint(t, i);
    assert indices[n] in indices && forall j :: j in indices[..n] ==> j in indices;
    var m := CreateOutputs(s, t, indices[..n]);
    assert indices == indices[..n] + [indices[n]];
    if i in indices[..n] {
      CreatesRecord(s, t, indices[..n], i, k);
      var row := Row(s.cache[t].outputs[i].value, k, s.cache[t].coinbase, SpentElsewhere(s, t, k, o));
      RecordedKnown(m, o, row);
      CreateSkips(m, t, indices[n], o);
      RecordedSame(m, CreateOutput(m, t, indices[n]), o, row);
    } else {
      CreatesSkip(s, t, indices[..n], i);
      CreateRecords(m, t, i, k);
      ElsewhereSame(s, m, t, k, o);
    }
  }

  lemma RecordedKnown(r: State, o: Outpoint, row: Row)
    requires Recorded(r, o, row)
    ensures Known(r, o)
  {}

  lemma RecordedSame(s: State, r: State, o: Outpoint, row: Row)
    requires Recorded(s, o, row) && SameAt(s, r, o)
    ensures Recorded(r, o, row)
  {}

  lemma ElsewhereSame(s: State, r: State, t: TxId, k: KeyId, o: Outpoint)
    requires k in s.history && s.history == r.history && s.cache == r.cache
    ensures SpentElsewhere(s, t, k, o) == SpentElsewhere(r, t, k, o)
  {}

  lemma SpendAt(s: State, t: TxId, input: Outpoint, o: Outpoint, row: Row)
    requires Recorded(s, o, row)
    ensures Recorded(SpendInput(s, t, input), o, row.(spent := row.spent || o == input))
  {}

  lemma {:induction false} SpendsAt(s: State, t: TxId, inputs: seq<Outpoint>, o: Outpoint, row: Row)
    requires Recorded(s, o, row)
    ensures Recorded(SpendInputs(s, t, inputs), o, row.(spent := row.spent || o in inputs))
  {
    hide Recorded, SpendInput;
    if inputs == [] {
      assert row.(spent := row.spent || o in inputs) == row;
    } else {
      var n := |inputs| - 1;
      SpendsAt(s, t, inputs[..n], o, row);
      SpendAt(SpendInputs(s, t, inputs[..n]), t, inputs[n], o, row.(spent := row.spent || o in inputs[..n]));
      assert inputs == inputs[..n] + [inputs[n]];
    }
  }

  /* An output of the list, or any output when the list is empty, that a candidate key owns is
     recorded unless it is known already. It is spent when a cached transaction of that key's
     history, or the transaction itself, spends it. */
  lemma ProcessRecords(s: State, t: TxId, relevant: seq<nat>, i: nat, k: KeyId)
    requires CanProcess(s, t, relevant) && Valid(s) && i < |s.cache[t].outputs|
    requires k in s.history && t in s.history[k] && k in s.scripts && s.scripts[k] == s.cache[t].outputs[i].script
    requires relevant == [] || i in relevant
    ensures var r, o, output := Process(s, t, relevant), Outpoint(t, i), s.cache[t].outputs[i];
            && Known(r, o)
            && (!Known(s, o) ==>
                  Recorded(r, o, Row(output.value, k, s.cache[t].coinbase, SpentAlready(s, t, k, o))))
  {
    hide Recorded, SpentElsewhere, CreateOutputs, SpendInputs;
    var o, output, indices := Outpoint(t, i), s.cache[t].outputs[i], Selected(s.cache[t], relevant);
    SelectedInRange(s, t, relevant);
    assert relevant == [] ==> indices[i] == i;
    assert Owns(s, t, output.script, k);
    if Known(s, o) {
      assert Coherent(s, o);
      ProcessEffect(s, t, relevant, o);
    } else {
      var m, row := CreateOutputs(s, t, indices), Row(output.value, k, s.cache[t].coinbase, SpentElsewhere(s, t, k, o));
      CreatesRecord(s, t, indices, i, k);
      SpendsAt(m, t, s.cache[t].inputs, o, row);
      AlreadyIs(s, t, k, o);
      RecordedKnown(Process(s, t, relevant), o, row.(spent := row.spent || o in s.cache[t].inputs));
    }
  }

  lemma AlreadyIs(s: State, t: TxId, k: KeyId, o: Outpoint)
    requires k in s.history && t in s.cache
    ensures SpentAlready(s, t, k, o) <==> SpentElsewhere(s, t, k, o) || o in s.cache[t].inputs
  {}

  /* No other output becomes known. */
  lemma ProcessSkips(s: State, t: TxId, relevant: seq<nat>, i: nat)
    requires CanProcess(s, t, relevant) && Valid(s) && i < |s.cache[t].outputs|
    requires (relevant != [] && i !in relevant)
             || forall k :: k in s.history && t in s.history[k] && k in s.scripts
                            ==> s.scripts[k] != s.cache[t].outputs[i].script
    ensures Known(Process(s, t, relevant), Outpoint(t, i)) <==> Known(s, Outpoint(t, i))
  {
    var o, indices := Outpoint(t, i), Selected(s.cache[t], relevant);
    SelectedInRange(s, t, relevant);
    var owner := OwnerOf(s, t, s.cache[t].outputs[i].script);
    assert i in indices ==> relevant == [] || i in relevant;
    CreatesSkip(s, t, indices, i);
    var m := CreateOutputs(s, t, indices);
    assert Coherent(s, o);
    CreatesEffect(s, t, indices, o);
    SpendsEffect(m, t, s.cache[t].inputs, o);
  }
}
