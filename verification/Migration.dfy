/**
 electrumsv/storage.py: the two-pass reconciliation that converts an old text wallet. The first
 pass records every output to a known address, the second one goes over the inputs and takes
 back what they spend. The result is the declared ledger of LedgerRuns, whatever the order of
 the transactions.
 */
module Migration {
  import opened Ledger
  import opened LedgerRows
  import opened LedgerRuns
  import opened Sums
  import opened Wrappers

  type Address = Script

  datatype Flag = Plain | Frozen | Spent

  datatype OutputRow = OutputRow(tx: TxId, index: nat, value: nat, key: KeyId, flag: Flag)

  datatype OutputState = OutputState(value: nat, rowIndex: nat)

  datatype MigrationError = NoAddress

  /* The world as the migration sees it: an output pays a key when its address is that key's.
     Outputs of script classes the wallet does not use have no address among the known ones. */
  ghost predicate Represents(w: World, txs: map<TxId, Tx>, addresses: map<Address, KeyId>)
  {
    && w.txs == txs
    && (forall k, a :: (k in w.scripts && w.scripts[k] == a) <==> (a in addresses && addresses[a] == k))
  }

  /* What a well-formed set of transactions guarantees. */
  ghost predicate Spendable(w: World)
  {
    && NoDoubleSpend(w)
    && (forall t, i, j :: t in w.txs && 0 <= i < j < |w.txs[t].inputs| ==> w.txs[t].inputs[i] != w.txs[t].inputs[j])
    && (forall t, o :: t in w.txs && w.txs[t].coinbase && o in w.txs[t].inputs ==> !Exists(w, o))
  }

  /* One parsed address per input; None is an input script without one. */
  type Parsed = map<TxId, seq<Option<Address>>>

  ghost predicate ParsedFor(txs: map<TxId, Tx>, parsed: Parsed)
  {
    forall t :: t in txs ==> t in parsed && |parsed[t]| == |txs[t].inputs|
  }

  /* The address parsed from an input is that of the output it spends. */
  ghost predicate AddressesMatch(w: World, parsed: Parsed)
  {
    forall t, n :: t in w.txs && t in parsed && 0 <= n < |w.txs[t].inputs| && n < |parsed[t]|
                   && parsed[t][n].Some? && Exists(w, w.txs[t].inputs[n])
                   ==> var o := w.txs[t].inputs[n];
                       parsed[t][n].value == w.txs[o.tx].outputs[o.index].script
  }

  lemma OwnerIsAddress(w: World, txs: map<TxId, Tx>, addresses: map<Address, KeyId>, o: Outpoint)
    requires Represents(w, txs, addresses) && Exists(w, o)
    ensures var a := txs[o.tx].outputs[o.index].script;
            Owner(w, o) == if a in addresses then Some(addresses[a]) else None
  {
    var a := txs[o.tx].outputs[o.index].script;
    if a in addresses {
      assert OwnedBy(w, o, addresses[a]);
    }
  }

  // ------------------------------------------------------------------------ balance per key

  function RowBalance(row: OutputRow, k: KeyId): int
  {
    if row.key == k && row.flag != Spent then row.value else 0
  }

  /* The value of the rows of key k that are not flagged spent. */
  function UnspentTotal(rows: seq<OutputRow>, k: KeyId): int
  {
    if rows == [] then 0 else UnspentTotal(rows[..|rows| - 1], k) + RowBalance(rows[|rows| - 1], k)
  }

  lemma UnspentAppend(rows: seq<OutputRow>, row: OutputRow, k: KeyId)
    ensures UnspentTotal(rows + [row], k) == UnspentTotal(rows, k) + RowBalance(row, k)
  {
    assert (rows + [row])[..|rows|] == rows;
  }

  lemma {:induction false} UnspentReplace(rows: seq<OutputRow>, i: nat, row: OutputRow, k: KeyId)
    requires i < |rows|
    ensures UnspentTotal(rows[i := row], k)
            == UnspentTotal(rows, k) - RowBalance(rows[i], k) + RowBalance(row, k)
  {
    var n := |rows| - 1;
    if i == n {
      assert rows[i := row][..n] == rows[..n];
    } else {
      UnspentReplace(rows[..n], i, row, k);
      assert rows[i := row][..n] == rows[..n][i := row];
    }
  }

  /* The delta rows of a key, its running total and its unspent rows agree. */
  ghost predicate KeyExact(txDeltas: map<DeltaKey, int>, keyDeltas: map<KeyId, int>,
                           rows: seq<OutputRow>, k: KeyId)
  {
    Sum(KeyDeltas(txDeltas, k)) == Get(keyDeltas, k) == UnspentTotal(rows, k)
  }

  lemma KeysStep(txDeltas: map<DeltaKey, int>, keyDeltas: map<KeyId, int>, rows: seq<OutputRow>,
                 t: TxId, l: KeyId, v: int, rows': seq<OutputRow>)
    requires forall k :: KeyExact(txDeltas, keyDeltas, rows, k)
    requires forall k :: UnspentTotal(rows', k) == UnspentTotal(rows, k) + if k == l then v else 0
    ensures forall k :: KeyExact(Bump(txDeltas, (t, l), v), Bump(keyDeltas, l, v), rows', k)
  {
    forall k ensures KeyExact(Bump(txDeltas, (t, l), v), Bump(keyDeltas, l, v), rows', k) {
      assert KeyExact(txDeltas, keyDeltas, rows, k);
      assert UnspentTotal(rows', k) == UnspentTotal(rows, k) + if k == l then v else 0;
      BumpKeyDeltas(txDeltas, t, l, v, k);
    }
  }

  // ------------------------------------------------------------------------------- the steps

  /* What the conversion reads. */
  datatype Wallet = Wallet(txs: map<TxId, Tx>, addresses: map<Address, KeyId>,
                           frozenAddresses: set<Address>, frozenOutputs: set<Outpoint>)

  /* What it builds. */
  datatype Books = Books(keyDeltas: map<KeyId, int>, txDeltas: map<DeltaKey, int>,
                         states: map<Outpoint, OutputState>, rows: seq<OutputRow>)

  const EMPTY := Books(map[], map[], map[], [])

  ghost predicate Indexed(b: Books)
  {
    forall o :: o in b.states ==> b.states[o].rowIndex < |b.rows|
  }

  function IsFrozen(c: Wallet, script: Address, o: Outpoint): bool
  {
    script in c.frozenAddresses || o in c.frozenOutputs
  }

  /* One turn of the first loop: an output to a known address is credited and gets a row. */
  function LocateOutput(c: Wallet, b: Books, t: TxId, n: nat): Books
    requires t in c.txs && n < |c.txs[t].outputs|
  {
    var output, o := c.txs[t].outputs[n], Outpoint(t, n);
    if output.script !in c.addresses then b
    else
      var k := c.addresses[output.script];
      Books(Bump(b.keyDeltas, k, output.value), Bump(b.txDeltas, (t, k), output.value),
            b.states[o := OutputState(output.value, |b.rows|)],
            b.rows + [OutputRow(t, n, output.value, k, if IsFrozen(c, output.script, o) then Frozen else Plain)])
  }

  /* One turn of the second loop: an input whose address is known debits that address's key, if
     the output was located, and the row of the output is flagged. */
  function ReconcileInput(c: Wallet, b: Books, t: TxId, o: Outpoint, address: Address): Books
  {
    if address !in c.addresses || o !in b.states || b.states[o].rowIndex >= |b.rows| then b
    else
      var k, v: int, i := c.addresses[address], b.states[o].value, b.states[o].rowIndex;
      Books(Bump(b.keyDeltas, k, 0 - v), Bump(b.txDeltas, (t, k), 0 - v),
            b.states, b.rows[i := b.rows[i].(flag := Spent)])
  }

  function LocateUpTo(c: Wallet, b: Books, t: TxId, n: nat): Books
    requires t in c.txs && n <= |c.txs[t].outputs|
  {
    if n == 0 then b else LocateOutput(c, LocateUpTo(c, b, t, n - 1), t, n - 1)
  }

  ghost predicate AllIn(order: seq<TxId>, c: Wallet)
  {
    forall i :: 0 <= i < |order| ==> order[i] in c.txs
  }

  /* The first pass over the transactions in the given order. */
  function LocateAll(c: Wallet, b: Books, order: seq<TxId>): Books
    requires AllIn(order, c)
  {
    if order == [] then b
    else
      var t := order[|order| - 1];
      LocateUpTo(c, LocateAll(c, b, order[..|order| - 1]), t, |c.txs[t].outputs|)
  }

  /* Coinbase inputs are passed over; an input without an address stops the conversion. */
  function ReconcileUpTo(c: Wallet, b: Books, t: TxId, parsed: Parsed, n: nat): Option<Books>
    requires ParsedFor(c.txs, parsed) && t in c.txs && n <= |c.txs[t].inputs|
  {
    if n == 0 then Some(b)
    else
      match ReconcileUpTo(c, b, t, parsed, n - 1)
      case None => None
      case Some(p) =>
        if c.txs[t].coinbase then Some(p)
        else if parsed[t][n - 1].None? then None
        else Some(ReconcileInput(c, p, t, c.txs[t].inputs[n - 1], parsed[t][n - 1].value))
  }

  function ReconcileAll(c: Wallet, b: Books, order: seq<TxId>, parsed: Parsed): Option<Books>
    requires ParsedFor(c.txs, parsed) && AllIn(order, c)
  {
    if order == [] then Some(b)
    else
      var t := order[|order| - 1];
      match ReconcileAll(c, b, order[..|order| - 1], parsed)
      case None => None
      case Some(p) => ReconcileUpTo(c, p, t, parsed, |c.txs[t].inputs|)
  }

  function Converted(c: Wallet, order: seq<TxId>, parsed: Parsed): Option<Books>
    requires ParsedFor(c.txs, parsed) && AllIn(order, c)
  {
    ReconcileAll(c, LocateAll(c, EMPTY, order), order, parsed)
  }

  class Conversion {
    const wallet: Wallet
    var keyDeltas: map<KeyId, int>
    var txDeltas: map<DeltaKey, int>
    var states: map<Outpoint, OutputState>
    var rows: seq<OutputRow>

    ghost function Contents(): Books
      reads this
    {
      Books(keyDeltas, txDeltas, states, rows)
    }

    constructor (c: Wallet)
      ensures wallet == c && Contents() == EMPTY
    {
      wallet, keyDeltas, txDeltas, states, rows := c, map[], map[], map[], [];
    }

    method VisitOutput(t: TxId, n: nat)
      requires t in wallet.txs && n < |wallet.txs[t].outputs| && Indexed(Contents())
      modifies this
      ensures Contents() == LocateOutput(wallet, old(Contents()), t, n) && Indexed(Contents())
    {
      var output, o := wallet.txs[t].outputs[n], Outpoint(t, n);
      if output.script in wallet.addresses {
        var k := wallet.addresses[output.script];
        var frozen := IsFrozen(wallet, output.script, o);
        txDeltas := Bump(txDeltas, (t, k), output.value);
        keyDeltas := Bump(keyDeltas, k, output.value);
        states := states[o := OutputState(output.value, |rows|)];
        rows := rows + [OutputRow(t, n, output.value, k, if frozen then Frozen else Plain)];
      }
    }

    method VisitInput(t: TxId, o: Outpoint, address: Address)
      requires Indexed(Contents())
      modifies this
      ensures Contents() == ReconcileInput(wallet, old(Contents()), t, o, address) && Indexed(Contents())
    {
      if address in wallet.addresses {
        var k := wallet.addresses[address];
        if o !in states {
          return;
        }
        var v: int := states[o].value;
        txDeltas := Bump(txDeltas, (t, k), 0 - v);
        keyDeltas := Bump(keyDeltas, k, 0 - v);
        var index := states[o].rowIndex;
        rows := rows[index := rows[index].(flag := Spent)];
      }
    }

    /* Pass one: locate all the outputs. */
    method LocateOutputs(order: seq<TxId>)
      requires AllIn(order, wallet) && Indexed(Contents())
      modifies this
      ensures Contents() == LocateAll(wallet, old(Contents()), order) && Indexed(Contents())
    {
      hide LocateOutput;
      assert order[..0] == [];
      for i := 0 to |order|
        invariant Indexed(Contents()) && AllIn(order[..i], wallet)
        invariant Contents() == LocateAll(wallet, old(Contents()), order[..i])
      {
        var t := order[i];
        ghost var before := Contents();
        for n := 0 to |wallet.txs[t].outputs|
          invariant Indexed(Contents()) && Contents() == LocateUpTo(wallet, before, t, n)
        {
          VisitOutput(t, n);
        }
        assert order[..i + 1][..i] == order[..i];
      }
      assert order[..|order|] == order;
    }

    method ReconcileTransaction(t: TxId, parsed: Parsed) returns (r: Result<(), MigrationError>)
      requires ParsedFor(wallet.txs, parsed) && t in wallet.txs && Indexed(Contents())
      modifies this
      ensures var all := ReconcileUpTo(wallet, old(Contents()), t, parsed, |wallet.txs[t].inputs|);
              if all.None? then r == Err(NoAddress) else r == Ok(()) && Some(Contents()) == all
      ensures Indexed(Contents())
    {
      hide ReconcileInput;
      ghost var before := Contents();
      for n := 0 to |wallet.txs[t].inputs|
        invariant Indexed(Contents()) && ReconcileUpTo(wallet, before, t, parsed, n) == Some(Contents())
      {
        if wallet.txs[t].coinbase {
          continue;
        }
        if parsed[t][n].None? {
          StaysNone(wallet, before, t, parsed, n + 1, |wallet.txs[t].inputs|);
          return Err(NoAddress);
        }
        VisitInput(t, wallet.txs[t].inputs[n], parsed[t][n].value);
      }
      return Ok(());
    }

    /* Pass two: reconcile spending of outputs. It stops at an input without an address. */
    method ReconcileSpends(order: seq<TxId>, parsed: Parsed) returns (r: Result<(), MigrationError>)
      requires AllIn(order, wallet) && ParsedFor(wallet.txs, parsed) && Indexed(Contents())
      modifies this
      ensures var all := ReconcileAll(wallet, old(Contents()), order, parsed);
              if all.None? then r == Err(NoAddress) else r == Ok(()) && Some(Contents()) == all
    {
      hide ReconcileUpTo;
      ghost var before := Contents();
      assert order[..0] == [];
      for i := 0 to |order|
        invariant Indexed(Contents()) && AllIn(order[..i], wallet)
        invariant ReconcileAll(wallet, before, order[..i], parsed) == Some(Contents())
      {
        assert order[..i + 1][..i] == order[..i];
        r := ReconcileTransaction(order[i], parsed);
        if r.Err? {
          AllStaysNone(wallet, before, order, parsed, i + 1);
          return;
        }
      }
      assert order[..|order|] == order;
      return Ok(());
    }

    method ProcessTransactions(order: seq<TxId>, parsed: Parsed) returns (r: Result<(), MigrationError>)
      requires AllIn(order, wallet) && ParsedFor(wallet.txs, parsed) && Contents() == EMPTY
      modifies this
      ensures var all := Converted(wallet, order, parsed);
              if all.None? then r == Err(NoAddress) else r == Ok(()) && Some(Contents()) == all
    {
      LocateOutputs(order);
      r := ReconcileSpends(order, parsed);
    }
  }

  lemma {:induction false} StaysNone(c: Wallet, b: Books, t: TxId, parsed: Parsed, n: nat, m: nat)
    requires ParsedFor(c.txs, parsed) && t in c.txs && n <= m <= |c.txs[t].inputs|
    requires ReconcileUpTo(c, b, t, parsed, n).None?
    ensures ReconcileUpTo(c, b, t, parsed, m).None?
    decreases m - n
  {
    if n < m { StaysNone(c, b, t, parsed, n, m - 1); }
  }

  lemma {:induction false} AllStaysNone(c: Wallet, b: Books, order: seq<TxId>, parsed: Parsed, i: nat)
    requires ParsedFor(c.txs, parsed) && AllIn(order, c) && i <= |order|
    requires AllIn(order[..i], c) && ReconcileAll(c, b, order[..i], parsed).None?
    ensures ReconcileAll(c, b, order, parsed).None?
    decreases |order| - i
  {
    hide ReconcileUpTo;
    if i == |order| {
      assert order[..i] == order;
    } else {
      assert order[..i + 1][..i] == order[..i];
      AllStaysNone(c, b, order, parsed, i + 1);
    }
  }

  // ----------------------------------------------------------------- totals, whatever the input

  ghost predicate TotalsAgree(b: Books)
  {
    forall k :: TotalAgrees(b, k)
  }

  ghost predicate TotalAgrees(b: Books, k: KeyId)
  {
    Sum(KeyDeltas(b.txDeltas, k)) == Get(b.keyDeltas, k)
  }

  lemma BumpAgrees(b: Books, t: TxId, l: KeyId, v: int, r: Books)
    requires TotalsAgree(b) && r.txDeltas == Bump(b.txDeltas, (t, l), v) && r.keyDeltas == Bump(b.keyDeltas, l, v)
    ensures TotalsAgree(r)
  {
    hide Sum;
    forall k ensures TotalAgrees(r, k) {
      assert TotalAgrees(b, k);
      BumpKeyDeltas(b.txDeltas, t, l, v, k);
    }
  }

  lemma {:induction false} LocateTotals(c: Wallet, b: Books, t: TxId, n: nat)
    requires t in c.txs && n <= |c.txs[t].outputs| && TotalsAgree(b)
    ensures TotalsAgree(LocateUpTo(c, b, t, n))
  {
    hide TotalsAgree;
    if n > 0 {
      LocateTotals(c, b, t, n - 1);
      var m, output := LocateUpTo(c, b, t, n - 1), c.txs[t].outputs[n - 1];
      if output.script in c.addresses {
        BumpAgrees(m, t, c.addresses[output.script], output.value, LocateOutput(c, m, t, n - 1));
      }
    }
  }

  lemma {:induction false} ReconcileTotals(c: Wallet, b: Books, t: TxId, parsed: Parsed, n: nat)
    requires ParsedFor(c.txs, parsed) && t in c.txs && n <= |c.txs[t].inputs| && TotalsAgree(b)
    ensures ReconcileUpTo(c, b, t, parsed, n).Some? ==> TotalsAgree(ReconcileUpTo(c, b, t, parsed, n).value)
  {
    hide TotalsAgree;
    if n > 0 && ReconcileUpTo(c, b, t, parsed, n).Some? && !c.txs[t].coinbase {
      ReconcileTotals(c, b, t, parsed, n - 1);
      var m, o := ReconcileUpTo(c, b, t, parsed, n - 1).value, c.txs[t].inputs[n - 1];
      var address := parsed[t][n - 1].value;
      if address in c.addresses && o in m.states && m.states[o].rowIndex < |m.rows| {
        var v: int := m.states[o].value;
        BumpAgrees(m, t, c.addresses[address], 0 - v, ReconcileInput(c, m, t, o, address));
      }
    } else if n > 0 {
      ReconcileTotals(c, b, t, parsed, n - 1);
    }
  }

  /* Double spends and mismatched addresses or not: the delta rows of a key sum to its running
     total. */
  lemma {:induction false} ConversionTotals(c: Wallet, order: seq<TxId>, parsed: Parsed)
    requires ParsedFor(c.txs, parsed) && AllIn(order, c)
    ensures TotalsAgree(LocateAll(c, EMPTY, order))
    ensures forall b :: TotalsAgree(b) && ReconcileAll(c, b, order, parsed).Some?
              ==> TotalsAgree(ReconcileAll(c, b, order, parsed).value)
    decreases order
  {
    hide TotalsAgree, LocateUpTo, ReconcileUpTo;
    if order == [] {
      EmptyTotals();
    } else {
      var n := |order| - 1;
      var t := order[n];
      ConversionTotals(c, order[..n], parsed);
      LocateTotals(c, LocateAll(c, EMPTY, order[..n]), t, |c.txs[t].outputs|);
      forall b | TotalsAgree(b) && ReconcileAll(c, b, order, parsed).Some?
        ensures TotalsAgree(ReconcileAll(c, b, order, parsed).value)
      {
        ReconcileTotals(c, ReconcileAll(c, b, order[..n], parsed).value, t, parsed, |c.txs[t].inputs|);
      }
    }
  }

  lemma EmptyTotals()
    ensures TotalsAgree(EMPTY)
  {
    forall k ensures TotalAgrees(EMPTY, k) {
      assert KeyDeltas(map[], k).Keys == {};
    }
  }

  // ---------------------------------------------------------------------------- the two passes

  /* The outputs visited when pass one stands at output n of transaction i. */
  ghost predicate OutputVisited(order: seq<TxId>, i: nat, n: nat, o: Outpoint)
    requires i <= |order|
  {
    o.tx in order[..i] || (i < |order| && o.tx == order[i] && o.index < n)
  }

  /* The outpoints spent when pass two stands at input n of transaction i. */
  ghost predicate InputVisited(txs: map<TxId, Tx>, order: seq<TxId>, i: nat, n: nat, o: Outpoint)
    requires i <= |order|
  {
    || (exists t :: t in order[..i] && t in txs && o in txs[t].inputs)
    || (i < |order| && order[i] in txs && n <= |txs[order[i]].inputs| && o in txs[order[i]].inputs[..n])
  }

  /* The flag the first pass gives an output. */
  ghost function FirstFlag(c: Wallet, o: Outpoint): Flag
  {
    if o.tx in c.txs && o.index < |c.txs[o.tx].outputs|
       && IsFrozen(c, c.txs[o.tx].outputs[o.index].script, o)
    then Frozen else Plain
  }

  /* The row of a recorded output: its value, its owner, and spent or first flag. */
  ghost predicate RowFor(c: Wallet, w: World, b: Books, spent: set<Outpoint>, o: Outpoint)
  {
    o in b.states ==>
      && Exists(w, o) && Owner(w, o).Some?
      && b.states[o].value == ValueOf(w, o) && b.states[o].rowIndex < |b.rows|
      && b.rows[b.states[o].rowIndex] == OutputRow(o.tx, o.index, ValueOf(w, o), Owner(w, o).value,
                                                   if o in spent then Spent else FirstFlag(c, o))
  }

  /* Each row belongs to the output that points at it. */
  ghost predicate RowsPaired(b: Books)
  {
    forall i :: 0 <= i < |b.rows| ==>
      var o := Outpoint(b.rows[i].tx, b.rows[i].index); o in b.states && b.states[o].rowIndex == i
  }

  /* The books are those of the declared ledger as far as it is known, spent outputs included. */
  ghost predicate Good(c: Wallet, w: World, b: Books, spent: set<Outpoint>)
  {
    && spent <= b.states.Keys
    && (forall o :: RowFor(c, w, b, spent, o)) && RowsPaired(b)
    && DeltasExact(w, b.states.Keys, spent, b.txDeltas)
    && (forall k :: KeyExact(b.txDeltas, b.keyDeltas, b.rows, k))
  }

  lemma EmptyGood(c: Wallet, w: World)
    ensures Good(c, w, EMPTY, {})
  {
    NoRows(HeldIn(w, {}), ChargesIn(w, {}), EMPTY.txDeltas);
    assert EMPTY.states.Keys == {};
    forall k ensures KeyExact(EMPTY.txDeltas, EMPTY.keyDeltas, EMPTY.rows, k) {
      assert KeyDeltas(map[], k).Keys == {};
    }
  }

  lemma LocateGood(c: Wallet, w: World, b: Books, spent: set<Outpoint>, t: TxId, n: nat)
    requires Represents(w, c.txs, c.addresses) && t in c.txs && n < |c.txs[t].outputs|
    requires Good(c, w, b, spent) && Outpoint(t, n) !in b.states
    ensures var r := LocateOutput(c, b, t, n);
            && Good(c, w, r, spent)
            && r.states.Keys == b.states.Keys + if Owner(w, Outpoint(t, n)).Some? then {Outpoint(t, n)} else {}
  {
    hide Sum, UnspentTotal;
    var output, o, r := c.txs[t].outputs[n], Outpoint(t, n), LocateOutput(c, b, t, n);
    OwnerIsAddress(w, c.txs, c.addresses, o);
    if output.script in c.addresses {
      var k := c.addresses[output.script];
      DeltasAddUnspent(w, b.states.Keys, spent, b.txDeltas, o, k);
      forall l ensures UnspentTotal(r.rows, l) == UnspentTotal(b.rows, l) + if l == k then output.value else 0 {
        UnspentAppend(b.rows, r.rows[|b.rows|], l);
      }
      KeysStep(b.txDeltas, b.keyDeltas, b.rows, t, k, output.value, r.rows);
      assert r.states.Keys == b.states.Keys + {o};
      forall x ensures RowFor(c, w, r, spent, x) {
        assert RowFor(c, w, b, spent, x);
      }
    }
  }

  lemma ReconcileGood(c: Wallet, w: World, b: Books, spent: set<Outpoint>, t: TxId, o: Outpoint, address: Address)
    requires Represents(w, c.txs, c.addresses) && NoDoubleSpend(w) && t in c.txs && o in c.txs[t].inputs
    requires Good(c, w, b, spent) && o !in spent
    requires Exists(w, o) ==> address == c.txs[o.tx].outputs[o.index].script
    ensures var r := ReconcileInput(c, b, t, o, address);
            r.states == b.states && Good(c, w, r, spent + if o in b.states then {o} else {})
  {
    hide Sum, UnspentTotal;
    var r := ReconcileInput(c, b, t, o, address);
    assert RowFor(c, w, b, spent, o);
    if o in b.states {
      OwnerIsAddress(w, c.txs, c.addresses, o);
      assert SpentBy(w, o, t);
      var k, v: int, index := c.addresses[address], b.states[o].value, b.states[o].rowIndex;
      DeltasSpend(w, b.states.Keys, spent, b.txDeltas, o, k, t);
      forall l ensures UnspentTotal(r.rows, l) == UnspentTotal(b.rows, l) + if l == k then 0 - v else 0 {
        UnspentReplace(b.rows, index, b.rows[index].(flag := Spent), l);
      }
      KeysStep(b.txDeltas, b.keyDeltas, b.rows, t, k, 0 - v, r.rows);
      forall x ensures RowFor(c, w, r, spent + {o}, x) {
        assert RowFor(c, w, b, spent, x);
      }
    } else {
      assert spent + {} == spent;
    }
  }

  ghost predicate Setting(c: Wallet, w: World, order: seq<TxId>, parsed: Parsed)
  {
    && Represents(w, c.txs, c.addresses) && Spendable(w)
    && ParsedFor(c.txs, parsed) && AddressesMatch(w, parsed)
    && AllIn(order, c) && (forall t :: t in c.txs ==> t in order)
    && (forall i, j :: 0 <= i < j < |order| ==> order[i] != order[j])
  }

  /* Pass one stands at output n of transaction i. */
  ghost predicate LocatedAt(c: Wallet, w: World, b: Books, order: seq<TxId>, i: nat, n: nat)
    requires i <= |order|
  {
    && Good(c, w, b, {})
    && forall o :: o in b.states <==> o in OwnedOutpoints(w) && OutputVisited(order, i, n, o)
  }

  lemma {:induction false} LocateUpToGood(c: Wallet, w: World, b: Books, order: seq<TxId>, parsed: Parsed, i: nat, n: nat)
    requires Setting(c, w, order, parsed) && i < |order| && n <= |c.txs[order[i]].outputs|
    requires LocatedAt(c, w, b, order, i, 0)
    ensures LocatedAt(c, w, LocateUpTo(c, b, order[i], n), order, i, n)
  {
    hide Good, LocateOutput;
    if n > 0 {
      var t, m := order[i], n - 1;
      LocateUpToGood(c, w, b, order, parsed, i, m);
      assert t !in order[..i];
      assert !OutputVisited(order, i, m, Outpoint(t, m));
      LocateGood(c, w, LocateUpTo(c, b, t, m), {}, t, m);
      forall o
        ensures OutputVisited(order, i, n, o) <==> OutputVisited(order, i, m, o) || o == Outpoint(t, m)
      {}
    }
  }

  lemma {:induction false} LocateAllGood(c: Wallet, w: World, order: seq<TxId>, parsed: Parsed, i: nat)
    requires Setting(c, w, order, parsed) && i <= |order|
    ensures AllIn(order[..i], c) && LocatedAt(c, w, LocateAll(c, EMPTY, order[..i]), order, i, 0)
  {
    hide Good, LocateUpTo;
    if i == 0 {
      EmptyGood(c, w);
    } else {
      var t, b := order[i - 1], LocateAll(c, EMPTY, order[..i - 1]);
      assert order[..i][..i - 1] == order[..i - 1];
      assert order[..i] == order[..i - 1] + [t];
      LocateAllGood(c, w, order, parsed, i - 1);
      LocateUpToGood(c, w, b, order, parsed, i - 1, |c.txs[t].outputs|);
      forall o | o in OwnedOutpoints(w)
        ensures OutputVisited(order, i, 0, o) <==> OutputVisited(order, i - 1, |c.txs[t].outputs|, o)
      {}
    }
  }

  lemma NotYetSpent(c: Wallet, w: World, order: seq<TxId>, parsed: Parsed, i: nat, n: nat)
    requires Setting(c, w, order, parsed) && i < |order| && n < |c.txs[order[i]].inputs|
    ensures !InputVisited(c.txs, order, i, n, c.txs[order[i]].inputs[n])
  {
    var t := order[i];
    var o := c.txs[t].inputs[n];
    assert SpentBy(w, o, t);
    assert t !in order[..i];
    forall u | u in c.txs && o in c.txs[u].inputs
      ensures u == t
    {
      assert SpentBy(w, o, u);
    }
  }

  ghost predicate HasAddresses(c: Wallet, t: TxId, parsed: Parsed, n: nat)
    requires t in c.txs && t in parsed && n <= |parsed[t]|
  {
    !c.txs[t].coinbase ==> forall i :: 0 <= i < n ==> parsed[t][i].Some?
  }

  ghost function SpentUpTo(c: Wallet, b: Books, order: seq<TxId>, i: nat, n: nat): set<Outpoint>
    requires i <= |order|
  {
    set o | o in b.states && InputVisited(c.txs, order, i, n, o)
  }

  lemma {:induction false} ReconcileUpToGood(c: Wallet, w: World, b: Books, order: seq<TxId>, parsed: Parsed,
                                             i: nat, n: nat)
    requires Setting(c, w, order, parsed) && i < |order| && n <= |c.txs[order[i]].inputs|
    requires Good(c, w, b, SpentUpTo(c, b, order, i, 0))
    ensures var r := ReconcileUpTo(c, b, order[i], parsed, n);
            && (r.Some? <==> HasAddresses(c, order[i], parsed, n))
            && (r.Some? ==> r.value.states == b.states && Good(c, w, r.value, SpentUpTo(c, b, order, i, n)))
  {
    hide Good, ReconcileInput;
    if n > 0 {
      var t, m := order[i], n - 1;
      ReconcileUpToGood(c, w, b, order, parsed, i, m);
      var p, o := ReconcileUpTo(c, b, t, parsed, m), c.txs[t].inputs[m];
      if p.Some? {
        NotYetSpent(c, w, order, parsed, i, m);
        assert c.txs[t].inputs[..n] == c.txs[t].inputs[..m] + [o];
        forall x ensures InputVisited(c.txs, order, i, n, x) <==> InputVisited(c.txs, order, i, m, x) || x == o {}
        if c.txs[t].coinbase {
          NotLocated(c, w, p.value, SpentUpTo(c, b, order, i, m), o);
          assert SpentUpTo(c, b, order, i, n) == SpentUpTo(c, b, order, i, m);
        } else if parsed[t][m].Some? {
          ReconcileGood(c, w, p.value, SpentUpTo(c, b, order, i, m), t, o, parsed[t][m].value);
          assert SpentUpTo(c, b, order, i, n)
                 == SpentUpTo(c, b, order, i, m) + if o in b.states then {o} else {};
        }
      }
    }
  }

  lemma NotLocated(c: Wallet, w: World, b: Books, spent: set<Outpoint>, o: Outpoint)
    requires Good(c, w, b, spent) && !Exists(w, o)
    ensures o !in b.states
  {
    assert RowFor(c, w, b, spent, o);
  }

  lemma {:induction false} ReconcileAllGood(c: Wallet, w: World, b: Books, order: seq<TxId>, parsed: Parsed, i: nat)
    requires Setting(c, w, order, parsed) && i <= |order| && Good(c, w, b, {})
    ensures AllIn(order[..i], c)
    ensures var r := ReconcileAll(c, b, order[..i], parsed);
            && (r.Some? <==> forall j :: 0 <= j < i ==> HasAddresses(c, order[j], parsed, |parsed[order[j]]|))
            && (r.Some? ==> r.value.states == b.states && Good(c, w, r.value, SpentUpTo(c, b, order, i, 0)))
  {
    hide Good, ReconcileUpTo, SpentUpTo, HasAddresses;
    NoneSpent(c, b, order);
    if i > 0 {
      var t := order[i - 1];
      assert order[..i][..i - 1] == order[..i - 1];
      ReconcileAllGood(c, w, b, order, parsed, i - 1);
      var p := ReconcileAll(c, b, order[..i - 1], parsed);
      if p.Some? {
        SpentSame(c, p.value, b, order, i - 1);
        ReconcileUpToGood(c, w, p.value, order, parsed, i - 1, |c.txs[t].inputs|);
      }
    }
  }

  lemma NoneSpent(c: Wallet, b: Books, order: seq<TxId>)
    ensures SpentUpTo(c, b, order, 0, 0) == {}
  {}

  /* The inputs passed after transaction i are those passed at its last input. */
  lemma SpentSame(c: Wallet, p: Books, b: Books, order: seq<TxId>, i: nat)
    requires i < |order| && order[i] in c.txs && p.states == b.states
    ensures SpentUpTo(c, p, order, i, 0) == SpentUpTo(c, b, order, i, 0)
    ensures SpentUpTo(c, p, order, i, |c.txs[order[i]].inputs|) == SpentUpTo(c, b, order, i + 1, 0)
  {
    hide InputVisited;
    forall o
      ensures InputVisited(c.txs, order, i + 1, 0, o) <==> InputVisited(c.txs, order, i, |c.txs[order[i]].inputs|, o)
    {
      TransactionVisited(c, order, i, o);
    }
  }

  lemma TransactionVisited(c: Wallet, order: seq<TxId>, i: nat, o: Outpoint)
    requires i < |order| && order[i] in c.txs
    ensures InputVisited(c.txs, order, i + 1, 0, o)
            <==> InputVisited(c.txs, order, i, |c.txs[order[i]].inputs|, o)
  {
    var t := order[i];
    assert order[..i + 1] == order[..i] + [t];
    assert c.txs[t].inputs[..|c.txs[t].inputs|] == c.txs[t].inputs;
    if o in c.txs[t].inputs {
      assert t in order[..i + 1];
    }
  }

  lemma AllVisited(c: Wallet, w: World, order: seq<TxId>, parsed: Parsed, o: Outpoint)
    requires Setting(c, w, order, parsed)
    ensures InputVisited(c.txs, order, |order|, 0, o) <==> IsSpent(w, o)
  {
    assert order[..|order|] == order;
    if IsSpent(w, o) {
      var b :| SpentBy(w, o, b);
      assert b in order;
    }
    if t :| t in order && t in c.txs && o in c.txs[t].inputs {
      assert SpentBy(w, o, t);
    }
  }

  /* The books of the declared ledger: exactly the owned outputs have a row, flagged spent exactly
     when a transaction of the set spends them, and the deltas are those of the ledger. */
  ghost predicate Exact(c: Wallet, w: World, b: Books)
  {
    Good(c, w, b, SpentOutpoints(w)) && b.states.Keys == OwnedOutpoints(w)
  }

  /* Without double spends and with addresses that match, the conversion fails exactly when an
     input has no address, and otherwise gives the declared ledger, whatever the order. */
  lemma ConversionExact(c: Wallet, w: World, order: seq<TxId>, parsed: Parsed)
    requires Setting(c, w, order, parsed)
    ensures var r := Converted(c, order, parsed);
            && (r.Some? <==> forall t :: t in c.txs ==> HasAddresses(c, t, parsed, |parsed[t]|))
            && (r.Some? ==> Exact(c, w, r.value))
  {
    hide Good, LocateAll, ReconcileAll;
    assert order[..|order|] == order;
    LocateAllGood(c, w, order, parsed, |order|);
    var b := LocateAll(c, EMPTY, order);
    ReconcileAllGood(c, w, b, order, parsed, |order|);
    forall o ensures o in b.states <==> o in OwnedOutpoints(w) {
      assert o in OwnedOutpoints(w) ==> o.tx in order && OutputVisited(order, |order|, 0, o);
    }
    forall o ensures o in SpentUpTo(c, b, order, |order|, 0) <==> o in SpentOutpoints(w) {
      AllVisited(c, w, order, parsed, o);
    }
    assert SpentUpTo(c, b, order, |order|, 0) == SpentOutpoints(w);
    forall t | t in c.txs ensures exists i :: 0 <= i < |order| && order[i] == t {
      assert t in order;
    }
  }

  /* The migration agrees with the account: when it succeeds, the deltas it writes are those any
     complete run of the account emits, and each of its rows says about its output what the
     account ended with. */
  lemma MigrationAgrees(c: Wallet, w: World, b: Books, steps: seq<Step>, q: Progress)
    requires Sound(w) && RunsTo(w, Start(w), steps, q) && Complete(w, q)
    requires Exact(c, w, b)
    ensures b.txDeltas == q.s.deltas
    ensures forall i :: 0 <= i < |b.rows| ==>
              var row := b.rows[i];
              var o := Outpoint(row.tx, row.index);
              && o in q.s.rows && row.value == q.s.rows[o].value && row.key == q.s.rows[o].key
              && (row.flag == Spent <==> o in q.s.stxos)
  {
    hide Sum, RunsTo, Complete, OwnedOutpoints, SpentOutpoints;
    CompleteRun(w, steps, q);
    RowsDetermined(HeldIn(w, OwnedOutpoints(w)), ChargesIn(w, SpentOutpoints(w)), b.txDeltas, q.s.deltas);
    forall i | 0 <= i < |b.rows|
      ensures var row := b.rows[i];
              var o := Outpoint(row.tx, row.index);
              && o in q.s.rows && row.value == q.s.rows[o].value && row.key == q.s.rows[o].key
              && (row.flag == Spent <==> o in q.s.stxos)
    {
      assert RowFor(c, w, b, SpentOutpoints(w), Outpoint(b.rows[i].tx, b.rows[i].index));
    }
  }

  /* Every owned output has a row, and no two rows are about the same output. */
  lemma OneRowEach(c: Wallet, w: World, b: Books)
    requires Exact(c, w, b)
    ensures forall o :: o in OwnedOutpoints(w) ==>
              exists i :: 0 <= i < |b.rows| && b.rows[i].tx == o.tx && b.rows[i].index == o.index
    ensures forall i, j :: 0 <= i < j < |b.rows| ==>
              b.rows[i].tx != b.rows[j].tx || b.rows[i].index != b.rows[j].index
  {
    forall o | o in OwnedOutpoints(w)
      ensures exists i :: 0 <= i < |b.rows| && b.rows[i].tx == o.tx && b.rows[i].index == o.index
    {
      assert RowFor(c, w, b, SpentOutpoints(w), o);
    }
  }

  /* A row says spent exactly when a transaction of the set spends its output; otherwise it says
     frozen exactly when the address or the output itself was frozen in the old wallet. */
  lemma FlagsExact(c: Wallet, w: World, b: Books, i: nat)
    requires Represents(w, c.txs, c.addresses) && Exact(c, w, b) && i < |b.rows|
    ensures var row := b.rows[i];
            var o := Outpoint(row.tx, row.index);
            && o.tx in c.txs && o.index < |c.txs[o.tx].outputs|
            && var address := c.txs[o.tx].outputs[o.index].script;
               && (row.flag == Spent <==> exists t :: t in c.txs && o in c.txs[t].inputs)
               && (row.flag == Frozen <==> row.flag != Spent
                                           && (address in c.frozenAddresses || o in c.frozenOutputs))
  {
    var o := Outpoint(b.rows[i].tx, b.rows[i].index);
    assert RowFor(c, w, b, SpentOutpoints(w), o);
    assert o in b.states;
    if t :| t in c.txs && o in c.txs[t].inputs {
      assert SpentBy(w, o, t);
    }
    if IsSpent(w, o) {
      var t :| SpentBy(w, o, t);
      assert t in c.txs && o in c.txs[t].inputs;
    }
  }

  /* For each key the delta rows sum to the value of its unspent rows. */
  lemma MigrationConserves(c: Wallet, w: World, b: Books, k: KeyId)
    requires Exact(c, w, b)
    ensures Sum(KeyDeltas(b.txDeltas, k)) == UnspentTotal(b.rows, k)
  {
    assert KeyExact(b.txDeltas, b.keyDeltas, b.rows, k);
  }
}
