/**
 Raw transactions: the wire format of electrumsv/transaction.py, the parser of
 electrumsv/vault_contract.py and the BIP 143 preimage built from what it keeps.
 */
module RawTransaction {
  import opened Arith
  import opened Digits
  import opened Hashing
  import opened ScriptData
  import opened Wrappers

  const WORD := 0x1_0000_0000
  const LONG := 0x1_0000_0000_0000_0000

  datatype TxInput = TxInput(prevHash: seq<byte>, prevIndex: nat, script: seq<byte>, sequence: nat)

  datatype TxOutput = TxOutput(value: int, script: seq<byte>)

  datatype Tx = Tx(version: int, inputs: seq<TxInput>, outputs: seq<TxOutput>, locktime: nat)

  /* What the parser keeps: no input scripts, and every number read as unsigned. */
  datatype Entry = Entry(prevHash: seq<byte>, prevIndex: nat, sequence: nat)

  datatype Payment = Payment(satoshis: nat, script: seq<byte>)

  datatype Parsed = Parsed(version: nat, inputs: seq<Entry>, outputs: seq<Payment>, locktime: nat)

  predicate ValidInput(i: TxInput)
  {
    |i.prevHash| == 32 && i.prevIndex < WORD && i.sequence < WORD && |i.script| < LONG
  }

  predicate ValidOutput(o: TxOutput)
  {
    -(LONG / 2) <= o.value < LONG / 2 && |o.script| < LONG
  }

  predicate ValidTx(tx: Tx)
  {
    && -(WORD / 2) <= tx.version < WORD / 2 && tx.locktime < WORD
    && |tx.inputs| < LONG && |tx.outputs| < LONG
    && (forall i :: 0 <= i < |tx.inputs| ==> ValidInput(tx.inputs[i]))
    && (forall i :: 0 <= i < |tx.outputs| ==> ValidOutput(tx.outputs[i]))
  }

  // -------------------------------------------------------------------------- wire format

  /* The two's complement of v modulo range. */
  function Unsigned(v: int, range: nat): (r: nat)
    requires 0 <= v + range
    ensures v >= 0 ==> r == v
  {
    if v < 0 then v + range else v
  }

  function EncodeVarint(value: nat): seq<byte>
    requires value < LONG
  {
    if value < 0xFD then [value]
    else if value <= 0xFFFF then [0xFD] + LittleEndian(value, 2)
    else if value <= 0xFFFFFFFF then [0xFE] + LittleEndian(value, 4)
    else [0xFF] + LittleEndian(value, 8)
  }

  function InputBytes(i: TxInput): seq<byte>
    requires ValidInput(i)
  {
    i.prevHash + (LittleEndian(i.prevIndex, 4)
      + (EncodeVarint(|i.script|) + (i.script + LittleEndian(i.sequence, 4))))
  }

  function PaymentBytes(p: Payment): seq<byte>
    requires |p.script| < LONG
  {
    LittleEndian(p.satoshis, 8) + (EncodeVarint(|p.script|) + p.script)
  }

  function AsPayment(o: TxOutput): (p: Payment)
    requires ValidOutput(o)
    ensures p.satoshis < LONG && |p.script| < LONG
  {
    Payment(Unsigned(o.value, LONG), o.script)
  }

  function AsEntry(i: TxInput): Entry
  {
    Entry(i.prevHash, i.prevIndex, i.sequence)
  }

  function InputsBytes(ins: seq<TxInput>): seq<byte>
    requires forall i :: 0 <= i < |ins| ==> ValidInput(ins[i])
  {
    if ins == [] then [] else InputBytes(ins[0]) + InputsBytes(ins[1..])
  }

  predicate ValidPayments(ps: seq<Payment>)
  {
    forall i :: 0 <= i < |ps| ==> ps[i].satoshis < LONG && |ps[i].script| < LONG
  }

  function PaymentsBytes(ps: seq<Payment>): seq<byte>
    requires ValidPayments(ps)
  {
    if ps == [] then [] else PaymentBytes(ps[0]) + PaymentsBytes(ps[1..])
  }

  function Entries(ins: seq<TxInput>): (r: seq<Entry>)
    ensures |r| == |ins| && forall i :: 0 <= i < |r| ==> r[i] == AsEntry(ins[i])
  {
    seq(|ins|, i requires 0 <= i < |ins| => AsEntry(ins[i]))
  }

  function Payments(outs: seq<TxOutput>): (r: seq<Payment>)
    requires forall i :: 0 <= i < |outs| ==> ValidOutput(outs[i])
    ensures |r| == |outs| && forall i :: 0 <= i < |r| ==> r[i] == AsPayment(outs[i])
    ensures ValidPayments(r)
  {
    seq(|outs|, i requires 0 <= i < |outs| => AsPayment(outs[i]))
  }

  /* The serialisation: signed version, counted inputs, counted outputs, lock time. */
  function Serialize(tx: Tx): seq<byte>
    requires ValidTx(tx)
  {
    LittleEndian(Unsigned(tx.version, WORD), 4)
    + (EncodeVarint(|tx.inputs|) + (InputsBytes(tx.inputs)
    + (EncodeVarint(|tx.outputs|) + (PaymentsBytes(Payments(tx.outputs))
    + LittleEndian(tx.locktime, 4)))))
  }

  function Kept(tx: Tx): Parsed
    requires ValidTx(tx)
  {
    Parsed(Unsigned(tx.version, WORD), Entries(tx.inputs), Payments(tx.outputs), tx.locktime)
  }

  // ------------------------------------------------------------------------------- reading

  /* A read cuts its result off at the end of the data, but unpacking needs every byte. */
  function ReadUint(data: seq<byte>, offset: nat, size: nat): Option<(nat, nat)>
  {
    var s := Slice(data, offset, offset + size);
    if |s| == size then Some((ValueLE(s, 256), offset + size)) else None
  }

  function ReadVarint(data: seq<byte>, offset: nat): Option<(nat, nat)>
  {
    if offset >= |data| then None
    else if data[offset] < 0xFD then Some((data[offset], offset + 1))
    else if data[offset] == 0xFD then ReadUint(data, offset + 1, 2)
    else if data[offset] == 0xFE then ReadUint(data, offset + 1, 4)
    else ReadUint(data, offset + 1, 8)
  }

  function ReadInput(data: seq<byte>, offset: nat): Option<(Entry, nat)>
  {
    match ReadUint(data, offset + 32, 4)
    case None => None
    case Some((index, o1)) =>
      match ReadVarint(data, o1)
      case None => None
      case Some((size, o2)) =>
        match ReadUint(data, o2 + size, 4)
        case None => None
        case Some((sequence, o3)) => Some((Entry(Slice(data, offset, offset + 32), index, sequence), o3))
  }

  function ReadOutput(data: seq<byte>, offset: nat): Option<(Payment, nat)>
  {
    match ReadUint(data, offset, 8)
    case None => None
    case Some((satoshis, o1)) =>
      match ReadVarint(data, o1)
      case None => None
      case Some((size, o2)) => Some((Payment(satoshis, Slice(data, o2, o2 + size)), o2 + size))
  }

  function ReadInputs(data: seq<byte>, offset: nat, count: nat, read: seq<Entry>): Option<(seq<Entry>, nat)>
    decreases count
  {
    if count == 0 then Some((read, offset))
    else
      match ReadInput(data, offset)
      case None => None
      case Some((entry, next)) => ReadInputs(data, next, count - 1, read + [entry])
  }

  function ReadOutputs(data: seq<byte>, offset: nat, count: nat, read: seq<Payment>): Option<(seq<Payment>, nat)>
    decreases count
  {
    if count == 0 then Some((read, offset))
    else
      match ReadOutput(data, offset)
      case None => None
      case Some((payment, next)) => ReadOutputs(data, next, count - 1, read + [payment])
  }

  function ReadCountedInputs(data: seq<byte>, offset: nat): Option<(seq<Entry>, nat)>
  {
    match ReadVarint(data, offset)
    case None => None
    case Some((count, next)) => ReadInputs(data, next, count, [])
  }

  function ReadCountedOutputs(data: seq<byte>, offset: nat): Option<(seq<Payment>, nat)>
  {
    match ReadVarint(data, offset)
    case None => None
    case Some((count, next)) => ReadOutputs(data, next, count, [])
  }

  /* The parsed transaction and the bytes consumed; None stands for the errors. */
  function ReadTx(data: seq<byte>): Option<(Parsed, nat)>
  {
    match ReadUint(data, 0, 4)
    case None => None
    case Some((version, o1)) =>
      match ReadCountedInputs(data, o1)
      case None => None
      case Some((inputs, o2)) =>
        match ReadCountedOutputs(data, o2)
        case None => None
        case Some((outputs, o3)) =>
          match ReadUint(data, o3, 4)
          case None => None
          case Some((locktime, o4)) => Some((Parsed(version, inputs, outputs, locktime), o4))
  }

  class Reader {
    const data: seq<byte>
    var offset: nat

    constructor (bytes: seq<byte>)
      ensures data == bytes && offset == 0
    {
      data, offset := bytes, 0;
    }

    method Read(size: nat) returns (result: seq<byte>)
      modifies this
      ensures result == Slice(data, old(offset), old(offset) + size)
      ensures offset == old(offset) + size
    {
      result := Slice(data, offset, offset + size);
      offset := offset + size;
    }

    method Unpack(size: nat) returns (r: Option<nat>)
      modifies this
      ensures match ReadUint(data, old(offset), size)
              case None => r == None
              case Some((value, next)) => r == Some(value) && offset == next
    {
      var raw := Read(size);
      r := if |raw| == size then Some(ValueLE(raw, 256)) else None;
    }

    method Varint() returns (r: Option<nat>)
      modifies this
      ensures match ReadVarint(data, old(offset))
              case None => r == None
              case Some((value, next)) => r == Some(value) && offset == next
    {
      if offset >= |data| {
        return None;
      }
      var first := data[offset];
      offset := offset + 1;
      if first < 0xFD {
        return Some(first);
      }
      r := Unpack(if first == 0xFD then 2 else if first == 0xFE then 4 else 8);
    }

    method Input() returns (r: Option<Entry>)
      modifies this
      ensures match ReadInput(data, old(offset))
              case None => r == None
              case Some((entry, next)) => r == Some(entry) && offset == next
    {
      hide ReadUint, ReadVarint, Slice;
      var prevHash := Read(32);
      var index := Unpack(4);
      if index.None? { return None; }
      var size := Varint();
      if size.None? { return None; }
      var script := Read(size.value);
      var sequence := Unpack(4);
      if sequence.None? { return None; }
      return Some(Entry(prevHash, index.value, sequence.value));
    }

    method Output() returns (r: Option<Payment>)
      modifies this
      ensures match ReadOutput(data, old(offset))
              case None => r == None
              case Some((payment, next)) => r == Some(payment) && offset == next
    {
      hide ReadUint, ReadVarint, Slice;
      var satoshis := Unpack(8);
      if satoshis.None? { return None; }
      var size := Varint();
      if size.None? { return None; }
      var script := Read(size.value);
      return Some(Payment(satoshis.value, script));
    }

    method Inputs() returns (r: Option<seq<Entry>>)
      modifies this
      ensures match ReadCountedInputs(data, old(offset))
              case None => r == None
              case Some((entries, next)) => r == Some(entries) && offset == next
    {
      hide ReadInput, ReadVarint;
      var count := Varint();
      if count.None? { return None; }
      ghost var start := offset;
      var entries := [];
      for i := 0 to count.value
        invariant ReadInputs(data, start, count.value, [])
                  == ReadInputs(data, offset, count.value - i, entries)
      {
        var entry := Input();
        if entry.None? { return None; }
        entries := entries + [entry.value];
      }
      return Some(entries);
    }

    method Outputs() returns (r: Option<seq<Payment>>)
      modifies this
      ensures match ReadCountedOutputs(data, old(offset))
              case None => r == None
              case Some((payments, next)) => r == Some(payments) && offset == next
    {
      hide ReadOutput, ReadVarint;
      var count := Varint();
      if count.None? { return None; }
      ghost var start := offset;
      var payments := [];
      for i := 0 to count.value
        invariant ReadOutputs(data, start, count.value, [])
                  == ReadOutputs(data, offset, count.value - i, payments)
      {
        var payment := Output();
        if payment.None? { return None; }
        payments := payments + [payment.value];
      }
      return Some(payments);
    }
  }

  method ParseRawTx(data: seq<byte>) returns (r: Option<Parsed>)
    ensures match ReadTx(data)
            case None => r == None
            case Some((tx, _)) => r == Some(tx)
  {
    hide ReadUint, ReadCountedInputs, ReadCountedOutputs;
    var reader := new Reader(data);
    var version := reader.Unpack(4);
    if version.None? { return None; }
    var inputs := reader.Inputs();
    if inputs.None? { return None; }
    var outputs := reader.Outputs();
    if outputs.None? { return None; }
    var locktime := reader.Unpack(4);
    if locktime.None? { return None; }
    return Some(Parsed(version.value, inputs.value, outputs.value, locktime.value));
  }

  // ---------------------------------------------------------------------------- round trip

  /* The bytes stand at that offset. */
  ghost predicate At(data: seq<byte>, offset: nat, bytes: seq<byte>)
  {
    offset + |bytes| <= |data| && data[offset..offset + |bytes|] == bytes
  }

  lemma AtSplit(data: seq<byte>, offset: nat, a: seq<byte>, b: seq<byte>)
    requires At(data, offset, a + b)
    ensures At(data, offset, a) && At(data, offset + |a|, b)
  {
    var n := offset + |a|;
    assert data[offset..offset + |a + b|][..|a|] == data[offset..n] && (a + b)[..|a|] == a;
    assert data[offset..offset + |a + b|][|a|..] == data[n..n + |b|] && (a + b)[|a|..] == b;
  }

  lemma SliceAt(data: seq<byte>, offset: nat, bytes: seq<byte>)
    requires At(data, offset, bytes)
    ensures Slice(data, offset, offset + |bytes|) == bytes
  {}

  lemma UintAt(data: seq<byte>, offset: nat, n: nat, k: nat)
    requires At(data, offset, LittleEndian(n, k)) && n < Pow(256, k)
    ensures ReadUint(data, offset, k) == Some((n, offset + k))
  {
    hide Slice;
    SliceAt(data, offset, LittleEndian(n, k));
    LittleEndianValue(n, k);
  }

  lemma HeadAt(data: seq<byte>, offset: nat, head: byte, rest: seq<byte>)
    requires At(data, offset, [head] + rest)
    ensures offset < |data| && data[offset] == head && At(data, offset + 1, rest)
  {
    AtSplit(data, offset, [head], rest);
    assert data[offset..offset + 1][0] == head;
  }

  lemma VarintAt(data: seq<byte>, offset: nat, n: nat)
    requires n < LONG && At(data, offset, EncodeVarint(n))
    ensures ReadVarint(data, offset) == Some((n, offset + |EncodeVarint(n)|))
  {
    hide ReadUint, LittleEndian, At;
    BytePowers();
    if n < 0xFD {
      assert [n] == [n] + [];
      HeadAt(data, offset, n, []);
    } else if n <= 0xFFFF {
      HeadAt(data, offset, 0xFD, LittleEndian(n, 2));
      UintAt(data, offset + 1, n, 2);
    } else if n <= 0xFFFFFFFF {
      HeadAt(data, offset, 0xFE, LittleEndian(n, 4));
      UintAt(data, offset + 1, n, 4);
    } else {
      HeadAt(data, offset, 0xFF, LittleEndian(n, 8));
      UintAt(data, offset + 1, n, 8);
    }
  }

  lemma AtSplit3(data: seq<byte>, offset: nat, a: seq<byte>, b: seq<byte>, c: seq<byte>)
    requires At(data, offset, a + (b + c))
    ensures At(data, offset, a) && At(data, offset + |a|, b) && At(data, offset + |a| + |b|, c)
  {
    hide At;
    AtSplit(data, offset, a, b + c);
    AtSplit(data, offset + |a|, b, c);
  }

  /* The script of an input stands behind its outpoint and its size. */
  lemma ScriptStands(i: TxInput)
    requires ValidInput(i)
    ensures var start := 36 + |EncodeVarint(|i.script|)|;
            Slice(InputBytes(i), start, start + |i.script|) == i.script
  {
    hide EncodeVarint, LittleEndian;
    var head := i.prevHash + (LittleEndian(i.prevIndex, 4) + EncodeVarint(|i.script|));
    assert InputBytes(i) == head + i.script + LittleEndian(i.sequence, 4);
    SliceMiddle(head, i.script, LittleEndian(i.sequence, 4));
  }

  /* The bytes of a variable-length integer on each range: the shortest of the four forms. */
  lemma VarintBytes(n: nat)
    requires n < 0x1_0000_0000_0000_0000
    ensures n < 0xFD ==> EncodeVarint(n) == [n]
    ensures 0xFD <= n <= 0xFFFF ==> EncodeVarint(n) == [0xFD, n % 256, n / 256]
    ensures 0x10000 <= n <= 0xFFFFFFFF ==>
              EncodeVarint(n) == [0xFE, n % 256, n / 256 % 256, n / 0x10000 % 256, n / 0x1000000]
    ensures n > 0xFFFFFFFF ==>
              && |EncodeVarint(n)| == 9 && EncodeVarint(n)[0] == 0xFF && ValueLE(EncodeVarint(n)[1..], 256) == n
  {
    hide LittleEndian;
    TwoBytes(n);
    FourBytes(n);
    BytePowers();
    if n > 0xFFFFFFFF {
      LittleEndianValue(n, 8);
      assert EncodeVarint(n)[1..] == LittleEndian(n, 8);
    }
  }

  lemma InputAt(data: seq<byte>, offset: nat, i: TxInput)
    requires ValidInput(i) && At(data, offset, InputBytes(i))
    ensures ReadInput(data, offset) == Some((AsEntry(i), offset + |InputBytes(i)|))
  {
    hide ReadUint, ReadVarint, EncodeVarint, LittleEndian, At, Slice;
    var index, sequence := LittleEndian(i.prevIndex, 4), LittleEndian(i.sequence, 4);
    var size := EncodeVarint(|i.script|);
    BytePowers();
    AtSplit3(data, offset, i.prevHash, index, size + (i.script + sequence));
    AtSplit3(data, offset + 36, size, i.script, sequence);
    SliceAt(data, offset, i.prevHash);
    UintAt(data, offset + 32, i.prevIndex, 4);
    VarintAt(data, offset + 36, |i.script|);
    UintAt(data, offset + 36 + |size| + |i.script|, i.sequence, 4);
    assert |InputBytes(i)| == 36 + |size| + |i.script| + 4;
  }

  lemma OutputAt(data: seq<byte>, offset: nat, p: Payment)
    requires p.satoshis < LONG && |p.script| < LONG && At(data, offset, PaymentBytes(p))
    ensures ReadOutput(data, offset) == Some((p, offset + |PaymentBytes(p)|))
  {
    hide ReadUint, ReadVarint, EncodeVarint, LittleEndian, At, Slice;
    var size := EncodeVarint(|p.script|);
    BytePowers();
    AtSplit(data, offset, LittleEndian(p.satoshis, 8), size + p.script);
    UintAt(data, offset, p.satoshis, 8);
    AtSplit(data, offset + 8, size, p.script);
    VarintAt(data, offset + 8, |p.script|);
    SliceAt(data, offset + 8 + |size|, p.script);
  }

  lemma Reassociate<T>(a: seq<T>, b: seq<T>, c: seq<T>)
    ensures (a + b) + c == a + (b + c)
  {}

  lemma {:induction false} InputsAt(data: seq<byte>, offset: nat, ins: seq<TxInput>, read: seq<Entry>)
    requires forall i :: 0 <= i < |ins| ==> ValidInput(ins[i])
    requires At(data, offset, InputsBytes(ins))
    ensures ReadInputs(data, offset, |ins|, read)
            == Some((read + Entries(ins), offset + |InputsBytes(ins)|))
    decreases ins
  {
    hide ReadInput, InputBytes, At;
    if ins == [] {
      assert read + Entries(ins) == read;
    } else {
      AtSplit(data, offset, InputBytes(ins[0]), InputsBytes(ins[1..]));
      InputAt(data, offset, ins[0]);
      InputsAt(data, offset + |InputBytes(ins[0])|, ins[1..], read + [AsEntry(ins[0])]);
      assert Entries(ins) == [AsEntry(ins[0])] + Entries(ins[1..]);
      Reassociate(read, [AsEntry(ins[0])], Entries(ins[1..]));
    }
  }

  lemma {:induction false} OutputsAt(data: seq<byte>, offset: nat, ps: seq<Payment>, read: seq<Payment>)
    requires ValidPayments(ps) && At(data, offset, PaymentsBytes(ps))
    ensures ReadOutputs(data, offset, |ps|, read) == Some((read + ps, offset + |PaymentsBytes(ps)|))
    decreases ps
  {
    hide ReadOutput, PaymentBytes, At;
    if ps == [] {
      assert read + ps == read;
    } else {
      AtSplit(data, offset, PaymentBytes(ps[0]), PaymentsBytes(ps[1..]));
      OutputAt(data, offset, ps[0]);
      OutputsAt(data, offset + |PaymentBytes(ps[0])|, ps[1..], read + [ps[0]]);
      assert ps == [ps[0]] + ps[1..];
      Reassociate(read, [ps[0]], ps[1..]);
    }
  }

  lemma CountedInputsAt(data: seq<byte>, o: nat, ins: seq<TxInput>)
    requires |ins| < LONG && forall i :: 0 <= i < |ins| ==> ValidInput(ins[i])
    requires At(data, o, EncodeVarint(|ins|)) && At(data, o + |EncodeVarint(|ins|)|, InputsBytes(ins))
    ensures ReadCountedInputs(data, o)
            == Some((Entries(ins), o + |EncodeVarint(|ins|)| + |InputsBytes(ins)|))
  {
    hide ReadVarint, EncodeVarint, At, ReadInputs, InputsBytes, ValidInput, Entries;
    VarintAt(data, o, |ins|);
    InputsAt(data, o + |EncodeVarint(|ins|)|, ins, []);
    assert [] + Entries(ins) == Entries(ins);
  }

  lemma CountedOutputsAt(data: seq<byte>, o: nat, ps: seq<Payment>)
    requires |ps| < LONG && ValidPayments(ps)
    requires At(data, o, EncodeVarint(|ps|)) && At(data, o + |EncodeVarint(|ps|)|, PaymentsBytes(ps))
    ensures ReadCountedOutputs(data, o)
            == Some((ps, o + |EncodeVarint(|ps|)| + |PaymentsBytes(ps)|))
  {
    hide ReadVarint, EncodeVarint, At, ReadOutputs, PaymentsBytes;
    VarintAt(data, o, |ps|);
    OutputsAt(data, o + |EncodeVarint(|ps|)|, ps, []);
    assert [] + ps == ps;
  }

  /* Parsing what was serialised gives every field that is kept, whatever follows it, and
     consumes exactly the serialisation. */
  lemma ParseSerialized(tx: Tx, tail: seq<byte>)
    requires ValidTx(tx)
    ensures ReadTx(Serialize(tx) + tail) == Some((Kept(tx), |Serialize(tx)|))
  {
    hide ReadUint, ReadCountedInputs, ReadCountedOutputs, EncodeVarint, LittleEndian, At, InputsBytes, PaymentsBytes;
    var data := Serialize(tx) + tail;
    AtStart(Serialize(tx), tail);
    var version, locktime := LittleEndian(Unsigned(tx.version, WORD), 4), LittleEndian(tx.locktime, 4);
    var insCount, ins := EncodeVarint(|tx.inputs|), InputsBytes(tx.inputs);
    var outsCount, outs := EncodeVarint(|tx.outputs|), PaymentsBytes(Payments(tx.outputs));
    BytePowers();
    AtSplit(data, 0, version, insCount + (ins + (outsCount + (outs + locktime))));
    UintAt(data, 0, Unsigned(tx.version, WORD), 4);
    AtSplit3(data, 4, insCount, ins, outsCount + (outs + locktime));
    CountedInputsAt(data, 4, tx.inputs);
    var o := 4 + |insCount| + |ins|;
    AtSplit3(data, o, outsCount, outs, locktime);
    CountedOutputsAt(data, o, Payments(tx.outputs));
    UintAt(data, o + |outsCount| + |outs|, tx.locktime, 4);
  }

  lemma AtStart(bytes: seq<byte>, tail: seq<byte>)
    ensures At(bytes + tail, 0, bytes)
  {}

  /* The parser reads signed fields as unsigned, so it returns the transaction's own numbers
     exactly when none of them is negative. */
  lemma KeptExactly(tx: Tx)
    requires ValidTx(tx)
    ensures (Kept(tx).version == tx.version
             && forall i :: 0 <= i < |tx.outputs| ==> Kept(tx).outputs[i].satoshis == tx.outputs[i].value)
            <==> tx.version >= 0 && forall i :: 0 <= i < |tx.outputs| ==> tx.outputs[i].value >= 0
  {
    forall i | 0 <= i < |tx.outputs|
      ensures Kept(tx).outputs[i].satoshis == tx.outputs[i].value <==> tx.outputs[i].value >= 0
    {
      assert Kept(tx).outputs[i] == AsPayment(tx.outputs[i]);
    }
  }

  // ----------------------------------------------------------------------------- truncation

  /* A read that stays within the data gives the same result when more data follows. */
  lemma SliceExtends(data: seq<byte>, tail: seq<byte>, start: nat, end: nat)
    requires start <= end <= |data|
    ensures Slice(data + tail, start, end) == Slice(data, start, end)
  {
    assert (data + tail)[start..end] == data[start..end];
  }

  lemma UintExtends(data: seq<byte>, tail: seq<byte>, offset: nat, size: nat)
    requires size > 0 && ReadUint(data, offset, size).Some?
    ensures ReadUint(data, offset, size).value.1 == offset + size <= |data|
    ensures ReadUint(data + tail, offset, size) == ReadUint(data, offset, size)
  {
    SliceExtends(data, tail, offset, offset + size);
  }

  lemma VarintExtends(data: seq<byte>, tail: seq<byte>, offset: nat)
    requires ReadVarint(data, offset).Some?
    ensures offset < ReadVarint(data, offset).value.1 <= |data|
    ensures ReadVarint(data + tail, offset) == ReadVarint(data, offset)
  {
    hide ReadUint;
    assert (data + tail)[offset] == data[offset];
    if data[offset] >= 0xFD {
      UintExtends(data, tail, offset + 1, if data[offset] == 0xFD then 2 else if data[offset] == 0xFE then 4 else 8);
    }
  }

  lemma InputExtends(data: seq<byte>, tail: seq<byte>, offset: nat)
    requires ReadInput(data, offset).Some?
    ensures offset <= ReadInput(data, offset).value.1 <= |data|
    ensures ReadInput(data + tail, offset) == ReadInput(data, offset)
  {
    hide ReadUint, ReadVarint, Slice;
    UintExtends(data, tail, offset + 32, 4);
    VarintExtends(data, tail, offset + 36);
    var (size, next) := ReadVarint(data, offset + 36).value;
    UintExtends(data, tail, next + size, 4);
    SliceExtends(data, tail, offset, offset + 32);
  }

  lemma OutputExtends(data: seq<byte>, tail: seq<byte>, offset: nat)
    requires ReadOutput(data, offset).Some?
    ensures offset <= ReadOutput(data, offset).value.1
    ensures ReadOutput(data, offset).value.1 <= |data| ==>
              ReadOutput(data + tail, offset) == ReadOutput(data, offset)
  {
    hide ReadUint, ReadVarint, Slice;
    UintExtends(data, tail, offset, 8);
    VarintExtends(data, tail, offset + 8);
    var (size, next) := ReadVarint(data, offset + 8).value;
    if next + size <= |data| {
      SliceExtends(data, tail, next, next + size);
    }
  }

  lemma {:induction false} InputsExtend(data: seq<byte>, tail: seq<byte>, offset: nat, count: nat, read: seq<Entry>)
    requires offset <= |data| && ReadInputs(data, offset, count, read).Some?
    ensures ReadInputs(data, offset, count, read).value.1 <= |data|
    ensures ReadInputs(data + tail, offset, count, read) == ReadInputs(data, offset, count, read)
    decreases count
  {
    hide ReadInput;
    if count > 0 {
      InputExtends(data, tail, offset);
      var (entry, next) := ReadInput(data, offset).value;
      InputsExtend(data, tail, next, count - 1, read + [entry]);
    }
  }

  lemma {:induction false} OutputsExtend(data: seq<byte>, tail: seq<byte>, offset: nat, count: nat, read: seq<Payment>)
    requires ReadOutputs(data, offset, count, read).Some?
    ensures offset <= ReadOutputs(data, offset, count, read).value.1
    ensures ReadOutputs(data, offset, count, read).value.1 <= |data| ==>
              ReadOutputs(data + tail, offset, count, read) == ReadOutputs(data, offset, count, read)
    decreases count
  {
    hide ReadOutput;
    if count > 0 {
      OutputExtends(data, tail, offset);
      var (payment, next) := ReadOutput(data, offset).value;
      OutputsExtend(data, tail, next, count - 1, read + [payment]);
    }
  }

  /* Although single reads tolerate missing bytes, a transaction that parses lies within the data. */
  lemma TxExtends(data: seq<byte>, tail: seq<byte>)
    requires ReadTx(data).Some?
    ensures ReadTx(data).value.1 <= |data| && ReadTx(data + tail) == ReadTx(data)
  {
    hide ReadUint, ReadVarint, ReadInputs, ReadOutputs;
    UintExtends(data, tail, 0, 4);
    VarintExtends(data, tail, 4);
    var (inputCount, o1) := ReadVarint(data, 4).value;
    InputsExtend(data, tail, o1, inputCount, []);
    var o2 := ReadInputs(data, o1, inputCount, []).value.1;
    VarintExtends(data, tail, o2);
    var (outputCount, o3) := ReadVarint(data, o2).value;
    OutputsExtend(data, tail, o3, outputCount, []);
    var o4 := ReadOutputs(data, o3, outputCount, []).value.1;
    UintExtends(data, tail, o4, 4);
  }

  /* A transaction cut short anywhere is refused. */
  lemma TruncatedRefused(tx: Tx, size: nat)
    requires ValidTx(tx) && size < |Serialize(tx)|
    ensures ReadTx(Serialize(tx)[..size]) == None
  {
    hide ReadTx, Serialize;
    var whole := Serialize(tx);
    assert whole[..size] + whole[size..] == whole && whole + [] == whole;
    ParseSerialized(tx, []);
    if ReadTx(whole[..size]).Some? {
      TxExtends(whole[..size], whole[size..]);
    }
  }

  // ------------------------------------------------------------------------------- preimage

  /* The ranges struct.pack accepts; every parsed transaction is within them. */
  ghost predicate Packable(tx: Parsed)
  {
    && tx.version < WORD && tx.locktime < WORD && ValidPayments(tx.outputs)
    && forall i :: 0 <= i < |tx.inputs| ==> ValidEntry(tx.inputs[i])
  }

  predicate ValidEntry(e: Entry)
  {
    |e.prevHash| == 32 && e.prevIndex < WORD && e.sequence < WORD
  }

  function OutpointBytes(e: Entry): seq<byte>
  {
    e.prevHash + LittleEndian(e.prevIndex, 4)
  }

  function Prevouts(es: seq<Entry>): seq<byte>
  {
    if es == [] then [] else OutpointBytes(es[0]) + Prevouts(es[1..])
  }

  function Sequences(es: seq<Entry>): seq<byte>
  {
    if es == [] then [] else LittleEndian(es[0].sequence, 4) + Sequences(es[1..])
  }

  const SIGHASH := 0x41

  /* Python indexing: negative indices count from the end. */
  function Index(count: nat, index: int): Option<nat>
  {
    if 0 <= index < count then Some(index)
    else if 0 <= index + count < count then Some(index + count)
    else None
  }

  function Preimage(h: Hash, tx: Parsed, index: int, subscript: seq<byte>, satoshis: int): Option<seq<byte>>
    requires Packable(tx)
  {
    if Index(|tx.inputs|, index).None? || |subscript| >= LONG || !(0 <= satoshis < LONG) then None
    else Some(PreimageBytes(h, tx, tx.inputs[Index(|tx.inputs|, index).value], subscript, satoshis))
  }

  function PreimageBytes(h: Hash, tx: Parsed, txin: Entry, subscript: seq<byte>, satoshis: nat): seq<byte>
    requires Packable(tx) && |subscript| < LONG
  {
    (LittleEndian(tx.version, 4) + (h(Prevouts(tx.inputs)) + h(Sequences(tx.inputs))))
    + ((OutpointBytes(txin) + (EncodeVarint(|subscript|) + subscript))
    + ((LittleEndian(satoshis, 8) + (LittleEndian(txin.sequence, 4) + h(PaymentsBytes(tx.outputs))))
    + (LittleEndian(tx.locktime, 4) + LittleEndian(SIGHASH, 4))))
  }

  // Every parsed transaction is packable.

  lemma UintRange(data: seq<byte>, offset: nat, size: nat)
    requires ReadUint(data, offset, size).Some?
    ensures ReadUint(data, offset, size).value.0 < Pow(256, size)
  {
    ValueLEBound(Slice(data, offset, offset + size), 256);
  }

  lemma VarintRange(data: seq<byte>, offset: nat)
    requires ReadVarint(data, offset).Some?
    ensures ReadVarint(data, offset).value.0 < LONG
  {
    hide ReadUint;
    BytePowers();
    if data[offset] >= 0xFD {
      UintRange(data, offset + 1, if data[offset] == 0xFD then 2 else if data[offset] == 0xFE then 4 else 8);
    }
  }

  lemma InputPackable(data: seq<byte>, offset: nat)
    requires ReadInput(data, offset).Some?
    ensures ValidEntry(ReadInput(data, offset).value.0)
  {
    hide ReadUint, ReadVarint;
    BytePowers();
    UintRange(data, offset + 32, 4);
    InputExtends(data, [], offset);
    UintExtends(data, [], offset + 32, 4);
    var (size, next) := ReadVarint(data, offset + 36).value;
    UintRange(data, next + size, 4);
  }

  lemma OutputPackable(data: seq<byte>, offset: nat)
    requires ReadOutput(data, offset).Some?
    ensures var p := ReadOutput(data, offset).value.0; p.satoshis < LONG && |p.script| < LONG
  {
    hide ReadUint, ReadVarint;
    BytePowers();
    UintRange(data, offset, 8);
    UintExtends(data, [], offset, 8);
    VarintRange(data, offset + 8);
  }

  lemma {:induction false} InputsPackable(data: seq<byte>, offset: nat, count: nat, read: seq<Entry>)
    requires ReadInputs(data, offset, count, read).Some?
    requires forall i :: 0 <= i < |read| ==> ValidEntry(read[i])
    ensures var es := ReadInputs(data, offset, count, read).value.0;
            forall i :: 0 <= i < |es| ==> ValidEntry(es[i])
    decreases count
  {
    hide ReadInput, ValidEntry;
    if count > 0 {
      InputPackable(data, offset);
      var (entry, next) := ReadInput(data, offset).value;
      InputsPackable(data, next, count - 1, read + [entry]);
    }
  }

  lemma {:induction false} OutputsPackable(data: seq<byte>, offset: nat, count: nat, read: seq<Payment>)
    requires ReadOutputs(data, offset, count, read).Some? && ValidPayments(read)
    ensures ValidPayments(ReadOutputs(data, offset, count, read).value.0)
    decreases count
  {
    hide ReadOutput;
    if count > 0 {
      OutputPackable(data, offset);
      var (payment, next) := ReadOutput(data, offset).value;
      OutputsPackable(data, next, count - 1, read + [payment]);
    }
  }

  lemma ParsedPackable(data: seq<byte>)
    requires ReadTx(data).Some?
    ensures Packable(ReadTx(data).value.0)
  {
    hide ReadUint, ReadVarint, ReadInputs, ReadOutputs;
    BytePowers();
    UintRange(data, 0, 4);
    var (inputCount, o1) := ReadVarint(data, ReadUint(data, 0, 4).value.1).value;
    InputsPackable(data, o1, inputCount, []);
    var o2 := ReadInputs(data, o1, inputCount, []).value.1;
    var (outputCount, o3) := ReadVarint(data, o2).value;
    OutputsPackable(data, o3, outputCount, []);
    UintRange(data, ReadOutputs(data, o3, outputCount, []).value.1, 4);
  }

  /* Signing does not disturb what is signed: transactions that differ only in their input
     scripts have the same preimages. */
  lemma ScriptsDoNotMatter(a: Tx, b: Tx, h: Hash, index: int, subscript: seq<byte>, satoshis: int)
    requires ValidTx(a) && ValidTx(b)
    requires a.version == b.version && a.outputs == b.outputs && a.locktime == b.locktime
    requires |a.inputs| == |b.inputs|
    requires forall i :: 0 <= i < |a.inputs| ==> b.inputs[i] == a.inputs[i].(script := b.inputs[i].script)
    ensures var x, y := ReadTx(Serialize(a)), ReadTx(Serialize(b));
            && x.Some? && y.Some? && Packable(x.value.0) && Packable(y.value.0)
            && Preimage(h, x.value.0, index, subscript, satoshis)
               == Preimage(h, y.value.0, index, subscript, satoshis)
  {
    hide ReadTx, Serialize, Preimage, ValidTx, Packable;
    ParseSerialized(a, []);
    ParseSerialized(b, []);
    assert Serialize(a) + [] == Serialize(a) && Serialize(b) + [] == Serialize(b);
    assert Entries(a.inputs) == Entries(b.inputs);
    ParsedPackable(Serialize(a));
    ParsedPackable(Serialize(b));
  }

  // ------------------------------------------------------------ what the preimage commits to

  /* The preimage read back field by field. */
  ghost predicate HasFields(p: seq<byte>, h: Hash, tx: Parsed, txin: Entry, subscript: seq<byte>, satoshis: nat)
    requires Packable(tx)
  {
    var o := 104 + |EncodeVarint(if |subscript| < LONG then |subscript| else 0)|;
    var q := o + |subscript|;
    && ReadUint(p, 0, 4) == Some((tx.version, 4))
    && Slice(p, 4, 36) == h(Prevouts(tx.inputs)) && Slice(p, 36, 68) == h(Sequences(tx.inputs))
    && Slice(p, 68, 100) == txin.prevHash && ReadUint(p, 100, 4) == Some((txin.prevIndex, 104))
    && ReadVarint(p, 104) == Some((|subscript|, o)) && Slice(p, o, q) == subscript
    && ReadUint(p, q, 8) == Some((satoshis, q + 8)) && ReadUint(p, q + 8, 4) == Some((txin.sequence, q + 12))
    && Slice(p, q + 12, q + 44) == h(PaymentsBytes(tx.outputs))
    && ReadUint(p, q + 44, 4) == Some((tx.locktime, q + 48)) && ReadUint(p, q + 48, 4) == Some((0x41, q + 52))
    && |p| == q + 52
  }

  lemma PreimageHead(p: seq<byte>, h: Hash, tx: Parsed, txin: Entry, subscript: seq<byte>)
    requires Packable(tx) && ValidEntry(txin) && |subscript| < LONG && HashSize(h, 32)
    requires At(p, 0, LittleEndian(tx.version, 4) + (h(Prevouts(tx.inputs)) + h(Sequences(tx.inputs))))
    requires At(p, 68, OutpointBytes(txin) + (EncodeVarint(|subscript|) + subscript))
    ensures var o := 104 + |EncodeVarint(|subscript|)|;
            && ReadUint(p, 0, 4) == Some((tx.version, 4))
            && Slice(p, 4, 36) == h(Prevouts(tx.inputs)) && Slice(p, 36, 68) == h(Sequences(tx.inputs))
            && Slice(p, 68, 100) == txin.prevHash && ReadUint(p, 100, 4) == Some((txin.prevIndex, 104))
            && ReadVarint(p, 104) == Some((|subscript|, o)) && Slice(p, o, o + |subscript|) == subscript
  {
    hide At, ReadUint, ReadVarint, EncodeVarint, Slice, Prevouts, Sequences;
    var prevouts, sequences := h(Prevouts(tx.inputs)), h(Sequences(tx.inputs));
    BytePowers();
    AtSplit3(p, 0, LittleEndian(tx.version, 4), prevouts, sequences);
    UintAt(p, 0, tx.version, 4);
    SliceAt(p, 4, prevouts);
    SliceAt(p, 36, sequences);
    AtSplit3(p, 68, OutpointBytes(txin), EncodeVarint(|subscript|), subscript);
    AtSplit(p, 68, txin.prevHash, LittleEndian(txin.prevIndex, 4));
    SliceAt(p, 68, txin.prevHash);
    UintAt(p, 100, txin.prevIndex, 4);
    VarintAt(p, 104, |subscript|);
    SliceAt(p, 104 + |EncodeVarint(|subscript|)|, subscript);
  }

  lemma PreimageTail(p: seq<byte>, q: nat, h: Hash, tx: Parsed, txin: Entry, satoshis: nat)
    requires Packable(tx) && ValidEntry(txin) && satoshis < LONG && HashSize(h, 32)
    requires At(p, q, (LittleEndian(satoshis, 8) + (LittleEndian(txin.sequence, 4) + h(PaymentsBytes(tx.outputs))))
                      + (LittleEndian(tx.locktime, 4) + LittleEndian(SIGHASH, 4)))
    ensures ReadUint(p, q, 8) == Some((satoshis, q + 8)) && ReadUint(p, q + 8, 4) == Some((txin.sequence, q + 12))
    ensures Slice(p, q + 12, q + 44) == h(PaymentsBytes(tx.outputs))
    ensures ReadUint(p, q + 44, 4) == Some((tx.locktime, q + 48)) && ReadUint(p, q + 48, 4) == Some((0x41, q + 52))
  {
    hide At, ReadUint, Slice, PaymentsBytes;
    var outputs := h(PaymentsBytes(tx.outputs));
    BytePowers();
    var front := LittleEndian(satoshis, 8) + (LittleEndian(txin.sequence, 4) + outputs);
    AtSplit3(p, q, front, LittleEndian(tx.locktime, 4), LittleEndian(SIGHASH, 4));
    AtSplit3(p, q, LittleEndian(satoshis, 8), LittleEndian(txin.sequence, 4), outputs);
    UintAt(p, q, satoshis, 8);
    UintAt(p, q + 8, txin.sequence, 4);
    SliceAt(p, q + 12, outputs);
    UintAt(p, q + 44, tx.locktime, 4);
    UintAt(p, q + 48, SIGHASH, 4);
  }

  lemma PreimageFields(h: Hash, tx: Parsed, txin: Entry, subscript: seq<byte>, satoshis: nat)
    requires Packable(tx) && ValidEntry(txin) && |subscript| < LONG && satoshis < LONG && HashSize(h, 32)
    ensures HasFields(PreimageBytes(h, tx, txin, subscript, satoshis), h, tx, txin, subscript, satoshis)
  {
    hide At, ReadUint, ReadVarint, EncodeVarint, Slice, Prevouts, Sequences, PaymentsBytes, LittleEndian;
    var p := PreimageBytes(h, tx, txin, subscript, satoshis);
    var a := LittleEndian(tx.version, 4) + (h(Prevouts(tx.inputs)) + h(Sequences(tx.inputs)));
    var b := OutpointBytes(txin) + (EncodeVarint(|subscript|) + subscript);
    var c := (LittleEndian(satoshis, 8) + (LittleEndian(txin.sequence, 4) + h(PaymentsBytes(tx.outputs))))
             + (LittleEndian(tx.locktime, 4) + LittleEndian(SIGHASH, 4));
    AtStart(p, []);
    assert p + [] == p && p == a + (b + c);
    AtSplit3(p, 0, a, b, c);
    PreimageHead(p, h, tx, txin, subscript);
    PreimageTail(p, 104 + |EncodeVarint(|subscript|)| + |subscript|, h, tx, txin, satoshis);
  }

  /* The preimage is that of the input asked for, counted from the end when the index is negative;
     any other index fails. */
  lemma PreimageSigns(h: Hash, tx: Parsed, index: int, subscript: seq<byte>, satoshis: int)
    requires Packable(tx) && HashSize(h, 32)
    ensures var n, p := |tx.inputs|, Preimage(h, tx, index, subscript, satoshis);
            && (p.Some? <==> -n <= index < n && |subscript| < LONG && 0 <= satoshis < LONG)
            && (p.Some? && index >= 0 ==> HasFields(p.value, h, tx, tx.inputs[index], subscript, satoshis))
            && (p.Some? && index < 0 ==> HasFields(p.value, h, tx, tx.inputs[n + index], subscript, satoshis))
  {
    hide PreimageBytes, HasFields;
    var n := |tx.inputs|;
    if -n <= index < n && |subscript| < LONG && 0 <= satoshis < LONG {
      PreimageFields(h, tx, tx.inputs[if index >= 0 then index else n + index], subscript, satoshis);
    }
  }

  /* The three hashed lists, entry by entry: 36 bytes for each outpoint, 4 for each sequence. */
  lemma {:induction false} PrevoutsList(es: seq<Entry>, i: nat)
    requires i < |es| && forall j :: 0 <= j < |es| ==> ValidEntry(es[j])
    ensures |Prevouts(es)| == 36 * |es|
    ensures Slice(Prevouts(es), 36 * i, 36 * i + 32) == es[i].prevHash
    ensures ReadUint(Prevouts(es), 36 * i + 32, 4) == Some((es[i].prevIndex, 36 * i + 36))
  {
    hide LittleEndian, ReadUint;
    var head, rest := OutpointBytes(es[0]), Prevouts(es[1..]);
    PrevoutsSize(es[1..]);
    if i == 0 {
      BytePowers();
      AtStart(Prevouts(es), []);
      assert Prevouts(es) + [] == Prevouts(es);
      assert head + rest == es[0].prevHash + (LittleEndian(es[0].prevIndex, 4) + rest);
      AtSplit3(Prevouts(es), 0, es[0].prevHash, LittleEndian(es[0].prevIndex, 4), rest);
      SliceAt(Prevouts(es), 0, es[0].prevHash);
      UintAt(Prevouts(es), 32, es[0].prevIndex, 4);
    } else {
      PrevoutsList(es[1..], i - 1);
      SliceBehind(head, rest, 36 * (i - 1), 36 * (i - 1) + 32);
      UintBehind(head, rest, 36 * (i - 1) + 32, 4);
    }
  }

  lemma {:induction false} PrevoutsSize(es: seq<Entry>)
    requires forall j :: 0 <= j < |es| ==> ValidEntry(es[j])
    ensures |Prevouts(es)| == 36 * |es|
  {
    if es != [] { PrevoutsSize(es[1..]); }
  }

  lemma SliceBehind(head: seq<byte>, rest: seq<byte>, start: nat, end: nat)
    ensures Slice(head + rest, |head| + start, |head| + end) == Slice(rest, start, end)
  {}

  lemma UintBehind(head: seq<byte>, rest: seq<byte>, offset: nat, size: nat)
    ensures var r := ReadUint(rest, offset, size);
            ReadUint(head + rest, |head| + offset, size)
            == if r.None? then None else Some((r.value.0, |head| + r.value.1))
  {
    SliceBehind(head, rest, offset, offset + size);
  }

  lemma {:induction false} SequencesList(es: seq<Entry>, i: nat)
    requires i < |es| && forall j :: 0 <= j < |es| ==> ValidEntry(es[j])
    ensures |Sequences(es)| == 4 * |es|
    ensures ReadUint(Sequences(es), 4 * i, 4) == Some((es[i].sequence, 4 * i + 4))
  {
    hide LittleEndian, ReadUint;
    var head, rest := LittleEndian(es[0].sequence, 4), Sequences(es[1..]);
    SequencesSize(es[1..]);
    if i == 0 {
      BytePowers();
      AtStart(head, rest);
      UintAt(head + rest, 0, es[0].sequence, 4);
    } else {
      SequencesList(es[1..], i - 1);
      UintBehind(head, rest, 4 * (i - 1), 4);
    }
  }

  lemma {:induction false} SequencesSize(es: seq<Entry>)
    ensures |Sequences(es)| == 4 * |es|
  {
    if es != [] { SequencesSize(es[1..]); }
  }

  lemma SameFields(p: seq<byte>, h: Hash, a: Parsed, x: Entry, s: seq<byte>, u: nat,
                   b: Parsed, y: Entry, t: seq<byte>, v: nat)
    requires Packable(a) && Packable(b) && |s| < LONG && |t| < LONG
    requires HasFields(p, h, a, x, s, u) && HasFields(p, h, b, y, t, v)
    ensures a.version == b.version && a.locktime == b.locktime && x == y && s == t && u == v
    ensures h(Prevouts(a.inputs)) == h(Prevouts(b.inputs)) && h(Sequences(a.inputs)) == h(Sequences(b.inputs))
    ensures h(PaymentsBytes(a.outputs)) == h(PaymentsBytes(b.outputs))
  {
    hide ReadUint, ReadVarint, EncodeVarint, Slice, Prevouts, Sequences, PaymentsBytes, Packable;
  }

  lemma CancelHead<T>(a: seq<T>, b: seq<T>, c: seq<T>, d: seq<T>)
    requires |a| == |c| && a + b == c + d
    ensures a == c && b == d
  {
    assert a == (a + b)[..|a|] && c == (c + d)[..|a|];
    assert b == (a + b)[|a|..] && d == (c + d)[|a|..];
  }

  lemma NumberInjective(m: nat, n: nat, k: nat)
    requires m < Pow(256, k) && n < Pow(256, k) && LittleEndian(m, k) == LittleEndian(n, k)
    ensures m == n
  {
    LittleEndianValue(m, k);
    LittleEndianValue(n, k);
  }

  lemma OutpointInjective(a: Entry, b: Entry)
    requires ValidEntry(a) && ValidEntry(b) && OutpointBytes(a) == OutpointBytes(b)
    ensures a.prevHash == b.prevHash && a.prevIndex == b.prevIndex
  {
    hide LittleEndian;
    CancelHead(a.prevHash, LittleEndian(a.prevIndex, 4), b.prevHash, LittleEndian(b.prevIndex, 4));
    BytePowers();
    NumberInjective(a.prevIndex, b.prevIndex, 4);
  }

  lemma PrevoutsHead(es: seq<Entry>)
    ensures es == [] ==> Prevouts(es) == []
    ensures es != [] ==> Prevouts(es) == OutpointBytes(es[0]) + Prevouts(es[1..])
  {}

  lemma {:induction false} PrevoutsInjective(a: seq<Entry>, b: seq<Entry>)
    requires forall i :: 0 <= i < |a| ==> ValidEntry(a[i])
    requires forall i :: 0 <= i < |b| ==> ValidEntry(b[i])
    requires Prevouts(a) == Prevouts(b)
    ensures |a| == |b|
    ensures forall i :: 0 <= i < |a| ==> a[i].prevHash == b[i].prevHash && a[i].prevIndex == b[i].prevIndex
  {
    hide Prevouts, LittleEndian;
    PrevoutsHead(a);
    PrevoutsHead(b);
    if a != [] && b != [] {
      CancelHead(OutpointBytes(a[0]), Prevouts(a[1..]), OutpointBytes(b[0]), Prevouts(b[1..]));
      OutpointInjective(a[0], b[0]);
      PrevoutsInjective(a[1..], b[1..]);
      forall i | 0 < i < |a|
        ensures a[i].prevHash == b[i].prevHash && a[i].prevIndex == b[i].prevIndex
      {
        assert a[i] == a[1..][i - 1] && b[i] == b[1..][i - 1];
      }
    }
  }

  lemma SequencesHead(es: seq<Entry>)
    ensures es != [] ==> Sequences(es) == LittleEndian(es[0].sequence, 4) + Sequences(es[1..])
  {}

  lemma {:induction false} SequencesInjective(a: seq<Entry>, b: seq<Entry>)
    requires |a| == |b| && Sequences(a) == Sequences(b)
    requires forall i :: 0 <= i < |a| ==> a[i].sequence < WORD && b[i].sequence < WORD
    ensures forall i :: 0 <= i < |a| ==> a[i].sequence == b[i].sequence
  {
    hide Sequences, LittleEndian;
    SequencesHead(a);
    SequencesHead(b);
    if a != [] {
      CancelHead(LittleEndian(a[0].sequence, 4), Sequences(a[1..]), LittleEndian(b[0].sequence, 4), Sequences(b[1..]));
      BytePowers();
      NumberInjective(a[0].sequence, b[0].sequence, 4);
      SequencesInjective(a[1..], b[1..]);
      forall i | 0 < i < |a| ensures a[i].sequence == b[i].sequence {
        assert a[i] == a[1..][i - 1] && b[i] == b[1..][i - 1];
      }
    }
  }

  lemma PaymentsHead(ps: seq<Payment>)
    requires ValidPayments(ps)
    ensures ps == [] ==> PaymentsBytes(ps) == []
    ensures ps != [] ==> PaymentsBytes(ps) == PaymentBytes(ps[0]) + PaymentsBytes(ps[1..])
    ensures ps != [] ==> PaymentsBytes(ps) != []
  {}

  /* What stands at the start of the data is determined by reading it. */
  lemma HeadPayment(p: Payment, rest: seq<byte>, q: Payment, other: seq<byte>)
    requires p.satoshis < LONG && |p.script| < LONG && q.satoshis < LONG && |q.script| < LONG
    requires PaymentBytes(p) + rest == PaymentBytes(q) + other
    ensures p == q && rest == other
  {
    hide PaymentBytes, ReadOutput, At;
    AtStart(PaymentBytes(p), rest);
    AtStart(PaymentBytes(q), other);
    OutputAt(PaymentBytes(p) + rest, 0, p);
    OutputAt(PaymentBytes(p) + rest, 0, q);
    CancelHead(PaymentBytes(p), rest, PaymentBytes(q), other);
  }

  lemma {:induction false} PaymentsInjective(a: seq<Payment>, b: seq<Payment>)
    requires ValidPayments(a) && ValidPayments(b) && PaymentsBytes(a) == PaymentsBytes(b)
    ensures a == b
  {
    hide PaymentBytes, PaymentsBytes;
    PaymentsHead(a);
    PaymentsHead(b);
    if a != [] && b != [] {
      HeadPayment(a[0], PaymentsBytes(a[1..]), b[0], PaymentsBytes(b[1..]));
      PaymentsInjective(a[1..], b[1..]);
      assert a == [a[0]] + a[1..] && b == [b[0]] + b[1..];
    }
  }

  /* Equal preimages sign the same transaction, input, subscript and amount, unless the hash
     has collided on one of the three lists it is applied to. */
  lemma PreimageCommits(h: Hash, a: Parsed, i: int, s: seq<byte>, u: int, b: Parsed, j: int, t: seq<byte>, v: int)
    requires Packable(a) && Packable(b) && HashSize(h, 32)
    requires Preimage(h, a, i, s, u) == Preimage(h, b, j, t, v) != None
    ensures s == t && u == v && a.inputs[Index(|a.inputs|, i).value] == b.inputs[Index(|b.inputs|, j).value]
    ensures || a == b
            || Collision(h, Prevouts(a.inputs), Prevouts(b.inputs))
            || Collision(h, Sequences(a.inputs), Sequences(b.inputs))
            || Collision(h, PaymentsBytes(a.outputs), PaymentsBytes(b.outputs))
  {
    hide PreimageBytes, HasFields, Prevouts, Sequences, PaymentsBytes;
    var x, y := a.inputs[Index(|a.inputs|, i).value], b.inputs[Index(|b.inputs|, j).value];
    PreimageFields(h, a, x, s, u);
    PreimageFields(h, b, y, t, v);
    SameFields(PreimageBytes(h, a, x, s, u), h, a, x, s, u, b, y, t, v);
    if Prevouts(a.inputs) == Prevouts(b.inputs) && Sequences(a.inputs) == Sequences(b.inputs)
       && PaymentsBytes(a.outputs) == PaymentsBytes(b.outputs) {
      PrevoutsInjective(a.inputs, b.inputs);
      SequencesInjective(a.inputs, b.inputs);
      PaymentsInjective(a.outputs, b.outputs);
      assert a.inputs == b.inputs;
    }
  }
}
