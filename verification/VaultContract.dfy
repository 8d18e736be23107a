/**
 electrumsv/vault_contract.py: a covenant script is a template whose one-byte slots are replaced by
 pushed constructor arguments. Building splices the arguments in from the last slot to the first,
 parsing walks the template forward, and a code separator offset is relocated by what the earlier
 arguments add.
 */
module VaultContract {
  import opened Arith
  import opened Digits
  import opened ScriptData
  import opened Sorting
  import opened Wrappers

  datatype Arg = BoolArg(flag: bool) | IntArg(number: int) | BytesArg(data: seq<byte>)

  datatype ParamType = PubKey | Addr | BigInt | OtherType

  datatype Slot = Slot(offset: nat, param: nat)

  datatype Template = Template(script: seq<byte>, slots: seq<Slot>, params: seq<ParamType>)

  datatype BuildError = NegativeFee

  const SLOT_OFFSET: Slot -> int := (s: Slot) => s.offset

  /* What an argument pushes; a flag pushes no data. */
  function Payload(a: Arg): seq<byte>
  {
    match a
    case BoolArg(_) => []
    case IntArg(v) => NumberBytes(v)
    case BytesArg(data) => data
  }

  predicate Pushable(a: Arg)
  {
    |Payload(a)| < PUSH_LIMIT
  }

  /* An integer whose bytes are empty is pushed as a single zero, like an empty push; a flag is
     one of the opcodes for one and zero. */
  function EncodeArg(a: Arg): (r: seq<byte>)
    requires Pushable(a)
    ensures (!a.BoolArg? ==> r == EncodePush(Payload(a))) && r != []
  {
    match a
    case BoolArg(flag) => [if flag then 0x51 else 0]
    case IntArg(v) => if NumberBytes(v) != [] then EncodePush(NumberBytes(v)) else [0]
    case BytesArg(data) => EncodePush(data)
  }

  // ---------------------------------------------------------------------------- templates

  /* Slots lie within the script, no two at one place. */
  ghost predicate Placed(t: Template)
  {
    && (forall i :: 0 <= i < |t.slots| ==> t.slots[i].offset < |t.script|)
    && (forall i, j :: 0 <= i < j < |t.slots| ==> t.slots[i].offset != t.slots[j].offset)
  }

  /* Every slot names one of the arguments, which can all be pushed. */
  ghost predicate WellFormed(t: Template, args: seq<Arg>)
  {
    && Placed(t)
    && (forall i :: 0 <= i < |t.slots| ==> t.slots[i].param < |args|)
    && AllPushable(args)
  }

  predicate AllPushable(args: seq<Arg>)
  {
    forall i :: 0 <= i < |args| ==> Pushable(args[i])
  }

  /* The encoded arguments, in the order of the parameters. */
  function Encodings(args: seq<Arg>): (r: seq<seq<byte>>)
    requires AllPushable(args)
    ensures |r| == |args| && forall i :: 0 <= i < |r| ==> r[i] == EncodeArg(args[i])
  {
    seq(|args|, i requires 0 <= i < |args| => EncodeArg(args[i]))
  }

  /* Slots from position from on, in strictly ascending order. */
  ghost predicate Ordered(script: seq<byte>, slots: seq<Slot>, from: nat)
  {
    && from <= |script|
    && (forall i :: 0 <= i < |slots| ==> from <= slots[i].offset < |script|)
    && (forall i, j :: 0 <= i < j < |slots| ==> slots[i].offset < slots[j].offset)
  }

  /* The script from position from on, read forward with a piece in the place of each slot. */
  function Pieced(script: seq<byte>, slots: seq<Slot>, pieces: seq<seq<byte>>, from: nat): seq<byte>
    requires Ordered(script, slots, from) && |pieces| == |slots|
    decreases slots
  {
    if slots == [] then script[from..]
    else
      var o := slots[0].offset;
      script[from..o] + pieces[0] + Pieced(script, slots[1..], pieces[1..], o + 1)
  }

  /* Ordered slots of count parameters. */
  ghost predicate Ascending(script: seq<byte>, slots: seq<Slot>, count: nat, from: nat)
  {
    && Ordered(script, slots, from)
    && (forall i :: 0 <= i < |slots| ==> slots[i].param < count)
  }

  /* The encoding each slot receives. */
  function SlotPieces(slots: seq<Slot>, encs: seq<seq<byte>>): seq<seq<byte>>
    requires forall i :: 0 <= i < |slots| ==> slots[i].param < |encs|
  {
    seq(|slots|, i requires 0 <= i < |slots| => encs[slots[i].param])
  }

  /* The script from position from on with each slot replaced by the encoding of its parameter. */
  function Filled(script: seq<byte>, slots: seq<Slot>, encs: seq<seq<byte>>, from: nat): seq<byte>
    requires Ascending(script, slots, |encs|, from)
  {
    Pieced(script, slots, SlotPieces(slots, encs), from)
  }

  lemma SortedOrdered(t: Template)
    requires Placed(t)
    ensures Ordered(t.script, SortBy(t.slots, SLOT_OFFSET), 0)
  {
    var sorted := SortBy(t.slots, SLOT_OFFSET);
    SortBySorts(t.slots, SLOT_OFFSET);
    forall i | 0 <= i < |sorted|
      ensures sorted[i].offset < |t.script|
    {
      assert sorted[i] in multiset(sorted);
      assert sorted[i] in t.slots;
    }
    forall i, j | 0 <= i < j < |sorted|
      ensures sorted[i].offset < sorted[j].offset
    {
      assert SLOT_OFFSET(sorted[i]) <= SLOT_OFFSET(sorted[j]);
      if sorted[i].offset == sorted[j].offset {
        TwoSlots(t, sorted, i, j);
      }
    }
  }

  lemma SortedAscending(t: Template, args: seq<Arg>)
    requires WellFormed(t, args)
    ensures Ascending(t.script, SortBy(t.slots, SLOT_OFFSET), |args|, 0)
  {
    var sorted := SortBy(t.slots, SLOT_OFFSET);
    SortedOrdered(t);
    SortBySorts(t.slots, SLOT_OFFSET);
    forall i | 0 <= i < |sorted|
      ensures sorted[i].param < |args|
    {
      assert sorted[i] in multiset(sorted);
      assert sorted[i] in t.slots;
    }
  }

  lemma TwoSlots(t: Template, sorted: seq<Slot>, i: nat, j: nat)
    requires multiset(sorted) == multiset(t.slots) && i < j < |sorted|
    requires forall a, b :: 0 <= a < b < |t.slots| ==> t.slots[a].offset != t.slots[b].offset
    ensures sorted[i].offset != sorted[j].offset
  {
    assert Distinct(t.slots);
    DistinctStays(t.slots, sorted);
    assert sorted[i] in multiset(sorted) && sorted[j] in multiset(sorted);
    assert sorted[i] in t.slots && sorted[j] in t.slots;
  }

  lemma Regroup<T>(a: seq<T>, b: seq<T>, c: seq<T>, d: seq<T>)
    ensures (a + b) + c + d == a + (b + c + d)
  {}

  lemma Nest<T>(a: seq<T>, b: seq<T>, c: seq<T>)
    ensures a + b + c == a + (b + c)
  {}

  lemma Unnest<T>(a: seq<T>, b: seq<T>, c: seq<T>, d: seq<T>)
    ensures a + (b + (c + d)) == (a + b + c) + d
  {}

  lemma CutAt<T>(pre: seq<T>, x: T, post: seq<T>)
    ensures (pre + [x] + post)[..|pre|] == pre && (pre + [x] + post)[|pre| + 1..] == post
  {}

  /* The remaining slots may be read from any position up to the next one. */
  lemma AscendingFrom(script: seq<byte>, slots: seq<Slot>, count: nat, from: nat, to: nat)
    requires Ascending(script, slots, count, to) && from <= to
    ensures Ascending(script, slots, count, from)
  {}

  lemma FilledFrom(script: seq<byte>, slots: seq<Slot>, encs: seq<seq<byte>>, from: nat, to: nat)
    requires Ascending(script, slots, |encs|, to) && from <= to
    ensures Ascending(script, slots, |encs|, from)
    ensures Filled(script, slots, encs, from) == script[from..to] + Filled(script, slots, encs, to)
  {
    hide Filled, Ascending;
    AscendingFrom(script, slots, |encs|, from, to);
    FilledHead(script, slots, encs, from);
    FilledHead(script, slots, encs, to);
    if slots == [] {
      assert script[from..] == script[from..to] + script[to..];
    } else {
      var o := slots[0].offset;
      SplitRange(script, from, to, o);
      Regroup(script[from..to], script[to..o], encs[slots[0].param], Filled(script, slots[1..], encs, o + 1));
    }
  }

  lemma FilledHead(script: seq<byte>, slots: seq<Slot>, encs: seq<seq<byte>>, from: nat)
    requires Ascending(script, slots, |encs|, from)
    ensures from <= |script|
    ensures slots == [] ==> Filled(script, slots, encs, from) == script[from..]
    ensures slots != [] ==>
              var o := slots[0].offset;
              && from <= o < |script| && slots[0].param < |encs|
              && Ascending(script, slots[1..], |encs|, o + 1)
              && Filled(script, slots, encs, from)
                 == script[from..o] + encs[slots[0].param] + Filled(script, slots[1..], encs, o + 1)
  {
    if slots != [] {
      assert SlotPieces(slots, encs)[1..] == SlotPieces(slots[1..], encs);
    }
  }

  lemma SplitRange<T>(s: seq<T>, a: nat, b: nat, c: nat)
    requires a <= b <= c <= |s|
    ensures s[a..c] == s[a..b] + s[b..c]
  {}

  lemma TailAscending(script: seq<byte>, slots: seq<Slot>, encs: seq<seq<byte>>, from: nat, i: nat)
    requires Ascending(script, slots, |encs|, from) && i < |slots|
    ensures Ascending(script, slots[i + 1..], |encs|, slots[i].offset + 1)
    ensures Ascending(script, slots[i..], |encs|, slots[i].offset)
  {}

  /* Splicing at one slot, when all later slots are filled already. */
  lemma SpliceStep(script: seq<byte>, slots: seq<Slot>, encs: seq<seq<byte>>, i: nat, current: seq<byte>)
    requires Ascending(script, slots, |encs|, 0) && i < |slots|
    requires Ascending(script, slots[i + 1..], |encs|, 0)
    requires current == Filled(script, slots[i + 1..], encs, 0)
    ensures var o := slots[i].offset;
            && o < |current| && Ascending(script, slots[i..], |encs|, 0)
            && current[..o] + encs[slots[i].param] + current[o + 1..]
               == Filled(script, slots[i..], encs, 0)
  {
    var o := slots[i].offset;
    TailAscending(script, slots, encs, 0, i);
    var rest := Filled(script, slots[i + 1..], encs, o + 1);
    FilledFrom(script, slots[i + 1..], encs, 0, o + 1);
    assert script[0..o + 1] == script[0..o] + [script[o]];
    CutAt(script[0..o], script[o], rest);
    TailFilled(script, slots, encs, i);
  }

  lemma TailFilled(script: seq<byte>, slots: seq<Slot>, encs: seq<seq<byte>>, i: nat)
    requires Ascending(script, slots, |encs|, 0) && i < |slots|
    ensures Ascending(script, slots[i..], |encs|, 0)
    ensures Ascending(script, slots[i + 1..], |encs|, slots[i].offset + 1)
    ensures var o := slots[i].offset;
            Filled(script, slots[i..], encs, 0)
            == script[0..o] + encs[slots[i].param] + Filled(script, slots[i + 1..], encs, o + 1)
  {
    hide Filled;
    assert slots[i..][1..] == slots[i + 1..];
    FilledHead(script, slots[i..], encs, 0);
  }

  /* Flags do not survive: the opcode for true is not a push, and false reads as empty data. */
  lemma FlagNotRead(pre: seq<byte>, flag: bool, post: seq<byte>)
    ensures ReadPush(pre + EncodeArg(BoolArg(flag)) + post, |pre|)
            == if flag then None else Some(([], |pre| + 1))
  {
    hide EncodePush, NumberBytes, ValueLE, Slice;
    var opcode: byte := if flag then 0x51 else 0;
    assert EncodeArg(BoolArg(flag)) == [opcode];
    assert (pre + [opcode] + post)[|pre|] == opcode;
  }

  /* Splicing from the last slot to the first gives the forward concatenation. */
  method BuildScript(t: Template, args: seq<Arg>) returns (script: seq<byte>)
    requires WellFormed(t, args)
    ensures script == Built(t, args)
  {
    hide EncodeArg, SortBy, Filled;
    var slots := SortBy(t.slots, SLOT_OFFSET);
    ghost var encs := Encodings(args);
    SortedAscending(t, args);
    FilledHead(t.script, [], encs, 0);
    assert slots[|slots|..] == [];
    script := t.script;
    assert script[0..] == script;
    for i := |slots| downto 0
      invariant Ascending(t.script, slots[i..], |encs|, 0)
      invariant script == Filled(t.script, slots[i..], encs, 0)
    {
      SpliceStep(t.script, slots, encs, i, script);
      var o := slots[i].offset;
      var encoded := EncodeArg(args[slots[i].param]);
      script := script[..o] + encoded + script[o + 1..];
    }
    assert slots[0..] == slots;
  }

  /* The script a template and its arguments stand for. */
  ghost function Built(t: Template, args: seq<Arg>): seq<byte>
    requires WellFormed(t, args)
  {
    SortedAscending(t, args);
    Filled(t.script, SortBy(t.slots, SLOT_OFFSET), Encodings(args), 0)
  }

  // ------------------------------------------------------------------------------ parsing

  datatype Value = DataValue(data: seq<byte>) | NumberValue(number: int)

  /* validKey stands for the check that some bytes are a public key. */
  function ReadValue(p: ParamType, data: seq<byte>, validKey: seq<byte> -> bool): Option<Value>
  {
    match p
    case PubKey => if validKey(data) then Some(DataValue(data)) else None
    case Addr => if |data| == 20 then Some(DataValue(data)) else None
    case BigInt => Some(NumberValue(DecodeScriptNumber(data)))
    case OtherType => None
  }

  /* Matching the template up to a slot, then reading the value pushed there. */
  function ReadSlot(t: Template, slot: Slot, script: seq<byte>, baseOffset: nat, offset: nat,
                    validKey: seq<byte> -> bool): Option<(Value, nat)>
  {
    var prefix := Slice(t.script, baseOffset, slot.offset);
    if Slice(script, offset, offset + |prefix|) != prefix then None
    else
      match ReadPush(script, offset + |prefix|)
      case None => None
      case Some((data, next)) =>
        if slot.param >= |t.params| then None
        else
          match ReadValue(t.params[slot.param], data, validKey)
          case None => None
          case Some(v) => Some((v, next))
  }

  function ParseFrom(t: Template, slots: seq<Slot>, script: seq<byte>, baseOffset: nat, offset: nat,
                     values: map<nat, Value>, validKey: seq<byte> -> bool): Option<map<nat, Value>>
    decreases slots
  {
    if slots == [] then
      if Slice(script, offset, |script|) == Slice(t.script, baseOffset, |t.script|) then Some(values) else None
    else
      match ReadSlot(t, slots[0], script, baseOffset, offset, validKey)
      case None => None
      case Some((v, next)) =>
        ParseFrom(t, slots[1..], script, slots[0].offset + 1, next, values[slots[0].param := v], validKey)
  }

  method ParseScript(t: Template, script: seq<byte>, validKey: seq<byte> -> bool)
    returns (r: Option<map<nat, Value>>)
    ensures r == ParseFrom(t, SortBy(t.slots, SLOT_OFFSET), script, 0, 0, map[], validKey)
  {
    hide ReadSlot, ParseFrom, SortBy;
    var slots := SortBy(t.slots, SLOT_OFFSET);
    var values: map<nat, Value> := map[];
    var baseOffset: nat, offset: nat := 0, 0;
    assert slots[0..] == slots;
    for i := 0 to |slots|
      invariant ParseFrom(t, slots, script, 0, 0, map[], validKey)
                == ParseFrom(t, slots[i..], script, baseOffset, offset, values, validKey)
    {
      var slot := slots[i];
      var read := ReadSlot(t, slot, script, baseOffset, offset, validKey);
      ParseStep(t, slots, i, script, baseOffset, offset, values, validKey);
      if read.None? {
        return None;
      }
      values := values[slot.param := read.value.0];
      baseOffset, offset := slot.offset + 1, read.value.1;
    }
    assert slots[|slots|..] == [];
    ParseEnd(t, script, baseOffset, offset, values, validKey);
    if Slice(script, offset, |script|) != Slice(t.script, baseOffset, |t.script|) {
      return None;
    }
    return Some(values);
  }

  lemma ParseStep(t: Template, slots: seq<Slot>, i: nat, script: seq<byte>, baseOffset: nat, offset: nat,
                  values: map<nat, Value>, validKey: seq<byte> -> bool)
    requires i < |slots|
    ensures var read := ReadSlot(t, slots[i], script, baseOffset, offset, validKey);
            ParseFrom(t, slots[i..], script, baseOffset, offset, values, validKey)
            == if read.None? then None
               else ParseFrom(t, slots[i + 1..], script, slots[i].offset + 1, read.value.1,
                              values[slots[i].param := read.value.0], validKey)
  {
    hide ReadSlot;
    assert slots[i..][1..] == slots[i + 1..];
  }

  lemma ParseEnd(t: Template, script: seq<byte>, baseOffset: nat, offset: nat,
                 values: map<nat, Value>, validKey: seq<byte> -> bool)
    ensures ParseFrom(t, [], script, baseOffset, offset, values, validKey)
            == if Slice(script, offset, |script|) == Slice(t.script, baseOffset, |t.script|)
               then Some(values) else None
  {}

  function ValueOf(a: Arg): Value
    requires !a.BoolArg?
  {
    match a
    case IntArg(v) => NumberValue(v)
    case BytesArg(data) => DataValue(data)
  }

  /* The argument is one its parameter type admits. */
  ghost predicate Fits(p: ParamType, a: Arg, validKey: seq<byte> -> bool)
  {
    match p
    case PubKey => a.BytesArg? && validKey(a.data)
    case Addr => a.BytesArg? && |a.data| == 20
    case BigInt => a.IntArg?
    case OtherType => false
  }

  ghost predicate ArgsFit(t: Template, args: seq<Arg>, validKey: seq<byte> -> bool)
  {
    && |t.params| == |args|
    && forall i :: 0 <= i < |args| ==> Fits(t.params[i], args[i], validKey)
  }

  lemma ValueComesBack(p: ParamType, a: Arg, validKey: seq<byte> -> bool)
    requires Fits(p, a, validKey)
    ensures ReadValue(p, Payload(a), validKey) == Some(ValueOf(a))
  {
    if a.IntArg? {
      NumberRoundTrip(a.number);
    }
  }

  /* A value the parser accepts in a slot, read from the front of the bytes standing there. */
  function ReadPiece(t: Template, slot: Slot, piece: seq<byte>, validKey: seq<byte> -> bool): Option<(Value, nat)>
  {
    match ReadPush(piece, 0)
    case None => None
    case Some((data, next)) =>
      if slot.param >= |t.params| then None
      else
        match ReadValue(t.params[slot.param], data, validKey)
        case None => None
        case Some(v) => Some((v, next))
  }

  /* The bytes in the place of a slot are one push of the slot's kind. Only where they end the
     script may the push announce more data than there is. */
  predicate Readable(t: Template, slot: Slot, piece: seq<byte>, closing: bool, validKey: seq<byte> -> bool)
  {
    var read := ReadPiece(t, slot, piece, validKey);
    read.Some? && (read.value.1 == |piece| || (closing && read.value.1 > |piece|))
  }

  predicate AllReadable(t: Template, slots: seq<Slot>, pieces: seq<seq<byte>>, validKey: seq<byte> -> bool)
    requires |pieces| == |slots|
  {
    forall i :: 0 <= i < |slots| ==>
      Readable(t, slots[i], pieces[i], i == |slots| - 1 && slots[i].offset + 1 == |t.script|, validKey)
  }

  /* The values read from the pieces, a later slot of a parameter overwriting an earlier one. */
  function PieceValues(t: Template, slots: seq<Slot>, pieces: seq<seq<byte>>, values: map<nat, Value>,
                       validKey: seq<byte> -> bool): map<nat, Value>
    requires |pieces| == |slots| && AllReadable(t, slots, pieces, validKey)
    decreases slots
  {
    if slots == [] then values
    else
      TailReadable(t, slots, pieces, validKey);
      var v := ReadPiece(t, slots[0], pieces[0], validKey).value.0;
      PieceValues(t, slots[1..], pieces[1..], values[slots[0].param := v], validKey)
  }

  lemma TailReadable(t: Template, slots: seq<Slot>, pieces: seq<seq<byte>>, validKey: seq<byte> -> bool)
    requires |pieces| == |slots| > 0
    ensures AllReadable(t, slots, pieces, validKey) <==>
            && Readable(t, slots[0], pieces[0], |slots| == 1 && slots[0].offset + 1 == |t.script|, validKey)
            && AllReadable(t, slots[1..], pieces[1..], validKey)
  {
    hide Readable;
    assert forall i :: 0 < i < |slots| ==> slots[1..][i - 1] == slots[i] && pieces[1..][i - 1] == pieces[i];
  }

  lemma ShiftedSlice<T>(pre: seq<T>, s: seq<T>, start: nat, end: nat)
    ensures Slice(pre + s, |pre| + start, |pre| + end) == Slice(s, start, end)
  {}

  /* Reading at a place depends only on what stands from there on. */
  lemma PushShift(pre: seq<byte>, s: seq<byte>)
    ensures var here := ReadPush(s, 0);
            ReadPush(pre + s, |pre|)
            == if here.None? then None else Some((here.value.0, |pre| + here.value.1))
  {
    hide ValueLE, Slice;
    if s != [] {
      assert (pre + s)[|pre|] == s[0];
      assert |s| > 1 ==> (pre + s)[|pre| + 1] == s[1];
      ShiftedSlice(pre, s, 1, 3);
      ShiftedSlice(pre, s, 1, 5);
      var opcode: nat := s[0];
      var size: nat := if |s| > 1 then s[1] else 0;
      ShiftedSlice(pre, s, 1, 1 + opcode);
      ShiftedSlice(pre, s, 2, 2 + size);
      ShiftedSlice(pre, s, 3, 3 + ValueLE(Slice(s, 1, 3), 256));
      ShiftedSlice(pre, s, 5, 5 + ValueLE(Slice(s, 1, 5), 256));
    }
  }

  lemma FrontSlice<T>(s: seq<T>, post: seq<T>, start: nat, end: nat)
    requires end <= |s|
    ensures Slice(s + post, start, end) == Slice(s, start, end)
  {}

  /* A push that lies within some bytes reads the same whatever follows them. */
  lemma PushExtends(s: seq<byte>, post: seq<byte>)
    requires ReadPush(s, 0).Some? && ReadPush(s, 0).value.1 <= |s|
    ensures ReadPush(s + post, 0) == ReadPush(s, 0)
  {
    hide ValueLE, Slice;
    var whole := s + post;
    assert whole[0] == s[0];
    assert |s| > 1 ==> whole[1] == s[1];
    assert |s| >= 3 ==> Slice(whole, 1, 3) == Slice(s, 1, 3) by { if |s| >= 3 { FrontSlice(s, post, 1, 3); } }
    assert |s| >= 5 ==> Slice(whole, 1, 5) == Slice(s, 1, 5) by { if |s| >= 5 { FrontSlice(s, post, 1, 5); } }
    PushData(s, post);
  }

  lemma PushData(s: seq<byte>, post: seq<byte>)
    requires ReadPush(s, 0).Some? && ReadPush(s, 0).value.1 <= |s|
    ensures var n := ReadPush(s, 0).value.1;
            forall start: nat :: Slice(s + post, start, n) == Slice(s, start, n)
  {
    var n := ReadPush(s, 0).value.1;
    forall start: nat ensures Slice(s + post, start, n) == Slice(s, start, n) {
      FrontSlice(s, post, start, n);
    }
  }

  /* A push that ends within some bytes is read from the bytes before its end. */
  lemma PushCut(s: seq<byte>)
    requires ReadPush(s, 0).Some? && ReadPush(s, 0).value.1 <= |s|
    ensures ReadPush(s[..ReadPush(s, 0).value.1], 0) == ReadPush(s, 0)
  {
    hide ValueLE, Slice;
    var n := ReadPush(s, 0).value.1;
    var front := s[..n];
    assert s == front + s[n..];
    assert n > 0 && front[0] == s[0];
    assert n > 1 ==> front[1] == s[1];
    if n >= 3 { FrontSlice(front, s[n..], 1, 3); }
    if n >= 5 { FrontSlice(front, s[n..], 1, 5); }
    forall start: nat ensures Slice(front, start, n) == Slice(s, start, n) {
      FrontSlice(front, s[n..], start, n);
    }
  }

  /* Reading a slot is matching what stands before it, then reading the piece there. */
  lemma SlotAtPiece(t: Template, slot: Slot, from: nat, done: seq<byte>, rest: seq<byte>,
                    validKey: seq<byte> -> bool)
    requires from <= slot.offset < |t.script|
    ensures var prefix := t.script[from..slot.offset];
            var piece := ReadPiece(t, slot, rest, validKey);
            ReadSlot(t, slot, done + (prefix + rest), from, |done|, validKey)
            == if piece.None? then None else Some((piece.value.0, |done + prefix| + piece.value.1))
  {
    hide ReadPush, ReadValue, Slice;
    var prefix := t.script[from..slot.offset];
    SlicesOf(t.script, from, slot.offset);
    assert done + (prefix + rest) == done + prefix + rest;
    SliceMiddle(done, prefix, rest);
    PushShift(done + prefix, rest);
  }

  lemma SlicesOf<T>(s: seq<T>, from: nat, to: nat)
    requires from <= to <= |s|
    ensures Slice(s, from, to) == s[from..to]
  {}

  /* Past the end of a script no slot can be read. */
  lemma BeyondFails(t: Template, slots: seq<Slot>, script: seq<byte>, from: nat, offset: nat,
                    values: map<nat, Value>, validKey: seq<byte> -> bool)
    requires Ordered(t.script, slots, from) && offset > |script|
    ensures ParseFrom(t, slots, script, from, offset, values, validKey)
            == if slots == [] && from == |t.script| then Some(values) else None
  {
    if slots != [] {
      assert ReadPush(script, offset + |Slice(t.script, from, slots[0].offset)|).None?;
    }
  }

  /* One slot parsed off a script that goes on with its prefix and then rest. */
  lemma ParseSlot(t: Template, slots: seq<Slot>, from: nat, done: seq<byte>, rest: seq<byte>,
                  values: map<nat, Value>, validKey: seq<byte> -> bool)
    requires slots != [] && Ordered(t.script, slots, from)
    ensures var prefix := t.script[from..slots[0].offset];
            var whole := done + (prefix + rest);
            var piece := ReadPiece(t, slots[0], rest, validKey);
            ParseFrom(t, slots, whole, from, |done|, values, validKey)
            == if piece.None? then None
               else ParseFrom(t, slots[1..], whole, slots[0].offset + 1, |done + prefix| + piece.value.1,
                              values[slots[0].param := piece.value.0], validKey)
  {
    hide ReadSlot, ReadPiece;
    SlotAtPiece(t, slots[0], from, done, rest, validKey);
  }

  /* A script made of readable pieces parses to the values in them. */
  lemma {:induction false} PiecesParse(t: Template, slots: seq<Slot>, pieces: seq<seq<byte>>, from: nat,
                                       done: seq<byte>, values: map<nat, Value>, validKey: seq<byte> -> bool)
    requires Ordered(t.script, slots, from) && |pieces| == |slots|
    requires AllReadable(t, slots, pieces, validKey)
    ensures ParseFrom(t, slots, done + Pieced(t.script, slots, pieces, from), from, |done|, values, validKey)
            == Some(PieceValues(t, slots, pieces, values, validKey))
    decreases slots
  {
    hide ParseFrom, ReadPiece, AllReadable, Pieced, Ordered, Slice;
    PiecedHead(t.script, slots, pieces, from);
    if slots == [] {
      EndMatches(t, from, done, values, validKey);
    } else {
      var slot, piece, prefix := slots[0], pieces[0], t.script[from..slots[0].offset];
      var rest := Pieced(t.script, slots[1..], pieces[1..], slot.offset + 1);
      TailReadable(t, slots, pieces, validKey);
      var read := ReadPiece(t, slot, piece, validKey).value;
      var next := values[slot.param := read.0];
      ParseSlot(t, slots, from, done, piece + rest, values, validKey);
      assert |slots| == 1 && slot.offset + 1 == |t.script| ==> rest == [] by {
        NothingAfter(t.script);
        assert |slots| == 1 ==> slots[1..] == [] && pieces[1..] == [];
      }
      PieceExtends(t, slot, piece, rest, validKey);
      if read.1 == |piece| {
        Unnest(done, prefix, piece, rest);
        PiecesParse(t, slots[1..], pieces[1..], slot.offset + 1, done + prefix + piece, next, validKey);
      } else {
        BeyondFails(t, slots[1..], done + (prefix + (piece + rest)), slot.offset + 1,
                    |done + prefix| + read.1, next, validKey);
      }
    }
  }

  lemma PiecedHead(script: seq<byte>, slots: seq<Slot>, pieces: seq<seq<byte>>, from: nat)
    requires Ordered(script, slots, from) && |pieces| == |slots|
    ensures from <= |script|
    ensures slots == [] ==> Pieced(script, slots, pieces, from) == script[from..]
    ensures slots != [] ==>
              var o := slots[0].offset;
              && from <= o < |script| && Ordered(script, slots[1..], o + 1)
              && Pieced(script, slots, pieces, from)
                 == script[from..o] + (pieces[0] + Pieced(script, slots[1..], pieces[1..], o + 1))
  {
    hide Ordered;
    OrderedFrom(script, slots, from);
    if slots != [] {
      var o := slots[0].offset;
      OrderedTail(script, slots, from);
      Nest(script[from..o], pieces[0], Pieced(script, slots[1..], pieces[1..], o + 1));
    }
  }

  lemma NothingAfter(script: seq<byte>)
    ensures Ordered(script, [], |script|) && Pieced(script, [], [], |script|) == []
  {}

  lemma OrderedFrom(script: seq<byte>, slots: seq<Slot>, from: nat)
    requires Ordered(script, slots, from)
    ensures from <= |script|
  {}

  lemma OrderedTail(script: seq<byte>, slots: seq<Slot>, from: nat)
    requires Ordered(script, slots, from) && slots != []
    ensures from <= slots[0].offset < |script| && Ordered(script, slots[1..], slots[0].offset + 1)
  {}

  lemma EndMatches(t: Template, from: nat, done: seq<byte>, values: map<nat, Value>, validKey: seq<byte> -> bool)
    requires from <= |t.script|
    ensures ParseFrom(t, [], done + t.script[from..], from, |done|, values, validKey) == Some(values)
  {
    SlicesOf(t.script, from, |t.script|);
    SlicesOf(done + t.script[from..], |done|, |done + t.script[from..]|);
  }

  lemma PieceExtends(t: Template, slot: Slot, piece: seq<byte>, rest: seq<byte>, validKey: seq<byte> -> bool)
    requires var read := ReadPiece(t, slot, piece, validKey);
             read.Some? && (read.value.1 <= |piece| || rest == [])
    ensures ReadPiece(t, slot, piece + rest, validKey) == ReadPiece(t, slot, piece, validKey)
  {
    hide ReadPush, ReadValue;
    if rest == [] {
      assert piece + rest == piece;
    } else {
      PushExtends(piece, rest);
    }
  }

  /* A script that parses is made of readable pieces. */
  lemma {:induction false} ParsesPieces(t: Template, slots: seq<Slot>, from: nat, done: seq<byte>, rest: seq<byte>,
                                        values: map<nat, Value>, validKey: seq<byte> -> bool)
    returns (pieces: seq<seq<byte>>)
    requires Ordered(t.script, slots, from)
    requires ParseFrom(t, slots, done + rest, from, |done|, values, validKey).Some?
    ensures |pieces| == |slots| && AllReadable(t, slots, pieces, validKey)
    ensures rest == Pieced(t.script, slots, pieces, from)
    decreases slots
  {
    hide ParseFrom, ReadPiece, AllReadable, Pieced, Ordered, Slice;
    if slots == [] {
      OrderedFrom(t.script, slots, from);
      EndStands(t, from, done, rest, values, validKey);
      pieces := [];
      NoneReadable(t, validKey);
    } else {
      OrderedTail(t.script, slots, from);
      var slot, prefix := slots[0], t.script[from..slots[0].offset];
      PrefixStands(t, slots, from, done, rest, values, validKey);
      var behind := rest[|prefix|..];
      assert rest == prefix + behind;
      ParseSlot(t, slots, from, done, behind, values, validKey);
      var read := ReadPiece(t, slot, behind, validKey).value;
      var next := values[slot.param := read.0];
      if read.1 <= |behind| {
        var piece, after := behind[..read.1], behind[read.1..];
        assert behind == piece + after;
        PieceCut(t, slot, behind, validKey);
        Unnest(done, prefix, piece, after);
        var tail := ParsesPieces(t, slots[1..], slot.offset + 1, done + prefix + piece, after, next, validKey);
        pieces := [piece] + tail;
        assert pieces[1..] == tail;
      } else {
        BeyondFails(t, slots[1..], done + (prefix + behind), slot.offset + 1, |done + prefix| + read.1, next, validKey);
        pieces := [behind];
        NothingAfter(t.script);
        assert slots[1..] == [] && pieces[1..] == [];
        assert behind + [] == behind;
        NoneReadable(t, validKey);
      }
      TailReadable(t, slots, pieces, validKey);
    }
    PiecedHead(t.script, slots, pieces, from);
  }

  lemma EndStands(t: Template, from: nat, done: seq<byte>, rest: seq<byte>, values: map<nat, Value>,
                  validKey: seq<byte> -> bool)
    requires from <= |t.script| && ParseFrom(t, [], done + rest, from, |done|, values, validKey).Some?
    ensures rest == t.script[from..]
  {
    ParseEnd(t, done + rest, from, |done|, values, validKey);
    SlicesOf(done + rest, |done|, |done + rest|);
    assert (done + rest)[|done|..|done + rest|] == rest;
    SlicesOf(t.script, from, |t.script|);
  }

  lemma NoneReadable(t: Template, validKey: seq<byte> -> bool)
    ensures AllReadable(t, [], [], validKey)
  {}

  lemma PrefixStands(t: Template, slots: seq<Slot>, from: nat, done: seq<byte>, rest: seq<byte>,
                     values: map<nat, Value>, validKey: seq<byte> -> bool)
    requires slots != [] && Ordered(t.script, slots, from)
    requires ParseFrom(t, slots, done + rest, from, |done|, values, validKey).Some?
    ensures var prefix := t.script[from..slots[0].offset];
            |prefix| <= |rest| && rest[..|prefix|] == prefix
  {
    hide ReadPush, ReadValue, Slice;
    var o := slots[0].offset;
    SlicesOf(t.script, from, o);
    ShiftedSlice(done, rest, 0, o - from);
    ShortSlice(rest, o - from);
  }

  lemma ShortSlice<T>(s: seq<T>, end: nat)
    ensures Slice(s, 0, end) == if end <= |s| then s[..end] else s
  {}

  lemma PieceCut(t: Template, slot: Slot, s: seq<byte>, validKey: seq<byte> -> bool)
    requires ReadPiece(t, slot, s, validKey).Some? && ReadPiece(t, slot, s, validKey).value.1 <= |s|
    ensures ReadPiece(t, slot, s[..ReadPiece(t, slot, s, validKey).value.1], validKey) == ReadPiece(t, slot, s, validKey)
  {
    hide ReadPush, ReadValue;
    PushCut(s);
  }

  /* The script is the template with a readable push of its slot's kind in the place of each slot. */
  ghost predicate Instance(t: Template, script: seq<byte>, pieces: seq<seq<byte>>, validKey: seq<byte> -> bool)
    requires Placed(t)
  {
    var sorted := SortBy(t.slots, SLOT_OFFSET);
    SortedOrdered(t);
    && |pieces| == |sorted| && AllReadable(t, sorted, pieces, validKey)
    && script == Pieced(t.script, sorted, pieces, 0)
  }

  /* A script parses exactly when it is an instance of the template, to the values pushed there. */
  lemma ParsesExactly(t: Template, script: seq<byte>, validKey: seq<byte> -> bool)
    requires Placed(t)
    ensures var r := ParseFrom(t, SortBy(t.slots, SLOT_OFFSET), script, 0, 0, map[], validKey);
            && (r.Some? <==> exists pieces :: Instance(t, script, pieces, validKey))
            && (forall pieces :: Instance(t, script, pieces, validKey) ==>
                  r == Some(PieceValues(t, SortBy(t.slots, SLOT_OFFSET), pieces, map[], validKey)))
  {
    hide ParseFrom, AllReadable, Pieced, SortBy, PieceValues;
    var sorted := SortBy(t.slots, SLOT_OFFSET);
    SortedOrdered(t);
    assert [] + script == script;
    if ParseFrom(t, sorted, script, 0, 0, map[], validKey).Some? {
      var pieces := ParsesPieces(t, sorted, 0, [], script, map[], validKey);
      assert Instance(t, script, pieces, validKey);
    }
    forall pieces | Instance(t, script, pieces, validKey)
      ensures ParseFrom(t, sorted, script, 0, 0, map[], validKey)
              == Some(PieceValues(t, sorted, pieces, map[], validKey))
    {
      PiecesParse(t, sorted, pieces, 0, [], map[], validKey);
    }
  }

  /* A push at the end of a script that announces two bytes and has one still parses. */
  lemma CutPushParses(validKey: seq<byte> -> bool)
    ensures var t := Template([0], [Slot(0, 0)], [BigInt]);
            && Placed(t)
            && ReadPush([2, 5], 0) == Some(([5], 3))
            && ParseFrom(t, SortBy(t.slots, SLOT_OFFSET), [2, 5], 0, 0, map[], validKey)
               == Some(map[0 := NumberValue(5)])
  {
    var t, script: seq<byte> := Template([0], [Slot(0, 0)], [BigInt]), [2, 5];
    assert SortBy(t.slots[1..], SLOT_OFFSET) == [];
    assert SortBy(t.slots, SLOT_OFFSET) == [Slot(0, 0)];
    var five: seq<byte> := [5];
    assert Slice(script, 1, 3) == script[1..2] == five;
    assert ReadPush(script, 0) == Some((five, 3));
    assert five[1..] == [] && ValueLE(five, 256) == 5 + 256 * ValueLE(five[1..], 256);
    assert DecodeScriptNumber(five) == 5;
    BeyondFails(t, [], script, 1, 3, map[0 := NumberValue(5)], validKey);
    hide ReadPush, DecodeScriptNumber, SortBy;
    assert ReadSlot(t, Slot(0, 0), script, 0, 0, validKey) == Some((NumberValue(5), 3));
    assert [Slot(0, 0)][1..] == [];
  }

  ghost predicate Uses(slots: seq<Slot>, p: nat)
  {
    exists i :: 0 <= i < |slots| && slots[i].param == p
  }

  /* What each parameter type accepts, and the value it gives. */
  lemma KindsExact(p: ParamType, data: seq<byte>, validKey: seq<byte> -> bool)
    ensures var r := ReadValue(p, data, validKey);
            && (r.Some? <==> (p.PubKey? && validKey(data)) || (p.Addr? && |data| == 20) || p.BigInt?)
            && (r.Some? && p.BigInt? ==> r.value == NumberValue(DecodeScriptNumber(data)))
            && (r.Some? && !p.BigInt? ==> r.value == DataValue(data))
  {}

  /* The bytes of each kind of argument. */
  lemma ArgBytes(a: Arg)
    requires Pushable(a)
    ensures a.BoolArg? ==> EncodeArg(a) == [if a.flag then 0x51 else 0x00]
    ensures a.BytesArg? ==> EncodeArg(a) == EncodePush(a.data)
    ensures a.IntArg? ==> EncodeArg(a) == if a.number == 0 then [0x00] else EncodePush(NumberBytes(a.number))
  {
    if a.IntArg? {
      MagnitudeValue(Abs(a.number));
    }
  }

  /* The encoding of a fitting argument is a readable piece that gives the argument back. */
  lemma EncodingReadable(t: Template, slot: Slot, a: Arg, validKey: seq<byte> -> bool)
    requires slot.param < |t.params| && Pushable(a) && Fits(t.params[slot.param], a, validKey)
    ensures ReadPiece(t, slot, EncodeArg(a), validKey) == Some((ValueOf(a), |EncodeArg(a)|))
  {
    hide ReadPush, EncodePush, ReadValue, NumberBytes;
    PushRoundTrip([], Payload(a), []);
    assert [] + EncodePush(Payload(a)) + [] == EncodePush(Payload(a));
    ValueComesBack(t.params[slot.param], a, validKey);
  }

  lemma EncodingsReadable(t: Template, slots: seq<Slot>, args: seq<Arg>, validKey: seq<byte> -> bool)
    requires ArgsFit(t, args, validKey) && AllPushable(args)
    requires forall i :: 0 <= i < |slots| ==> slots[i].param < |args|
    ensures AllReadable(t, slots, SlotPieces(slots, Encodings(args)), validKey)
    ensures forall i :: 0 <= i < |slots| ==>
              && !args[slots[i].param].BoolArg?
              && ReadPiece(t, slots[i], SlotPieces(slots, Encodings(args))[i], validKey)
                 == Some((ValueOf(args[slots[i].param]), |EncodeArg(args[slots[i].param])|))
  {
    hide EncodeArg, ReadPiece, Pushable;
    forall i | 0 <= i < |slots|
      ensures !args[slots[i].param].BoolArg?
      ensures ReadPiece(t, slots[i], SlotPieces(slots, Encodings(args))[i], validKey)
              == Some((ValueOf(args[slots[i].param]), |EncodeArg(args[slots[i].param])|))
    {
      EncodingReadable(t, slots[i], args[slots[i].param], validKey);
    }
  }

  lemma {:induction false} PieceValuesAre(t: Template, slots: seq<Slot>, pieces: seq<seq<byte>>, args: seq<Arg>,
                                          values: map<nat, Value>, p: nat, validKey: seq<byte> -> bool)
    requires |pieces| == |slots| && AllReadable(t, slots, pieces, validKey)
    requires forall i :: 0 <= i < |slots| ==>
               && slots[i].param < |args| && !args[slots[i].param].BoolArg?
               && ReadPiece(t, slots[i], pieces[i], validKey).value.0 == ValueOf(args[slots[i].param])
    ensures var r := PieceValues(t, slots, pieces, values, validKey);
            && (p in r <==> p in values || Uses(slots, p))
            && (p in r && Uses(slots, p) ==> p < |args| && !args[p].BoolArg? && r[p] == ValueOf(args[p]))
            && (p in r && !Uses(slots, p) ==> p in values && r[p] == values[p])
  {
    hide ReadPiece, AllReadable;
    if slots != [] {
      var q := slots[0].param;
      TailReadable(t, slots, pieces, validKey);
      PieceValuesAre(t, slots[1..], pieces[1..], args, values[q := ValueOf(args[q])], p, validKey);
      assert slots == [slots[0]] + slots[1..];
      assert Uses(slots, p) <==> q == p || Uses(slots[1..], p);
    }
  }

  lemma UsesSame(a: seq<Slot>, b: seq<Slot>, p: nat)
    requires multiset(a) == multiset(b) && Uses(a, p)
    ensures Uses(b, p)
  {
    var i :| 0 <= i < |a| && a[i].param == p;
    assert a[i] in multiset(a);
    assert a[i] in b;
  }

  /* Parsing a built script gives the arguments back, each under its own index. */
  lemma TemplateRoundTrip(t: Template, args: seq<Arg>, validKey: seq<byte> -> bool)
    requires WellFormed(t, args) && ArgsFit(t, args, validKey)
    ensures var r := ParseFrom(t, SortBy(t.slots, SLOT_OFFSET), Built(t, args), 0, 0, map[], validKey);
            && r.Some?
            && (forall p :: p in r.value <==> Uses(t.slots, p))
            && (forall p :: p in r.value ==> p < |args| && !args[p].BoolArg? && r.value[p] == ValueOf(args[p]))
  {
    hide ParseFrom, ReadPiece, AllReadable, PieceValues, Pieced, EncodeArg, Uses, ValueOf, SortBy, Pushable;
    var sorted := SortBy(t.slots, SLOT_OFFSET);
    SortedAscending(t, args);
    SortBySorts(t.slots, SLOT_OFFSET);
    EncodingsReadable(t, sorted, args, validKey);
    var pieces := SlotPieces(sorted, Encodings(args));
    PiecesParse(t, sorted, pieces, 0, [], map[], validKey);
    assert [] + Built(t, args) == Built(t, args);
    var r := PieceValues(t, sorted, pieces, map[], validKey);
    forall p: nat
      ensures p in r <==> Uses(t.slots, p)
      ensures p in r ==> p < |args| && !args[p].BoolArg? && r[p] == ValueOf(args[p])
    {
      PieceValuesAre(t, sorted, pieces, args, map[], p, validKey);
      if Uses(sorted, p) { UsesSame(sorted, t.slots, p); }
      if Uses(t.slots, p) { UsesSame(t.slots, sorted, p); }
    }
  }

  // --------------------------------------------------------------------- the vault contract

  /* The parameters of the bundled contract: owner key, whitelisted hash, largest fee. */
  datatype Terms = Terms(ownerKey: seq<byte>, whitelist: seq<byte>, maxFee: int)

  function ConstructorArgs(terms: Terms): seq<Arg>
  {
    [BytesArg(terms.ownerKey), BytesArg(terms.whitelist), IntArg(terms.maxFee)]
  }

  ghost predicate VaultTemplate(t: Template)
  {
    t.params == [PubKey, Addr, BigInt] && Uses(t.slots, 0) && Uses(t.slots, 1) && Uses(t.slots, 2)
  }

  /* What parsing makes of the values it read; anything unexpected is not a vault. */
  function AsTerms(values: Option<map<nat, Value>>): Option<Terms>
  {
    if values.None? then None
    else
      var v := values.value;
      if 0 in v && v[0].DataValue? && 1 in v && v[1].DataValue? && 2 in v && v[2].NumberValue?
         && v[2].number >= 0
      then Some(Terms(v[0].data, v[1].data, v[2].number))
      else None
  }

  /* A script is a vault exactly when all three values were read, two as data and the last as a
     number that is not negative; the terms are those values. */
  lemma TermsExact(values: Option<map<nat, Value>>, terms: Terms)
    ensures AsTerms(values) == Some(terms)
            <==> && values.Some? && 0 in values.value && 1 in values.value && 2 in values.value
                 && values.value[0] == DataValue(terms.ownerKey) && values.value[1] == DataValue(terms.whitelist)
                 && values.value[2] == NumberValue(terms.maxFee) && terms.maxFee >= 0
  {}

  method BuildContract(t: Template, terms: Terms) returns (r: Result<seq<byte>, BuildError>)
    requires WellFormed(t, ConstructorArgs(terms))
    ensures r == if terms.maxFee < 0 then Err(NegativeFee) else Ok(Built(t, ConstructorArgs(terms)))
  {
    if terms.maxFee < 0 {
      return Err(NegativeFee);
    }
    var script := BuildScript(t, ConstructorArgs(terms));
    return Ok(script);
  }

  method ParseContract(t: Template, script: seq<byte>, validKey: seq<byte> -> bool) returns (r: Option<Terms>)
    ensures r == AsTerms(ParseFrom(t, SortBy(t.slots, SLOT_OFFSET), script, 0, 0, map[], validKey))
  {
    var values := ParseScript(t, script, validKey);
    r := AsTerms(values);
  }

  /* A contract built from terms parses to those terms. */
  lemma ContractRoundTrip(t: Template, terms: Terms, validKey: seq<byte> -> bool)
    requires VaultTemplate(t) && WellFormed(t, ConstructorArgs(terms))
    requires validKey(terms.ownerKey) && |terms.whitelist| == 20 && terms.maxFee >= 0
    ensures AsTerms(ParseFrom(t, SortBy(t.slots, SLOT_OFFSET), Built(t, ConstructorArgs(terms)),
                              0, 0, map[], validKey)) == Some(terms)
  {
    TemplateRoundTrip(t, ConstructorArgs(terms), validKey);
  }

  // ------------------------------------------------------------------- relocating an offset

  /* What one slot adds to the positions after it. */
  function Growth(s: Slot, encs: seq<seq<byte>>, position: nat): int
  {
    if s.offset < position && s.param < |encs| then |encs[s.param]| - 1 else 0
  }

  function GrowthAt(encs: seq<seq<byte>>, position: nat): Slot -> int
  {
    (s: Slot) => Growth(s, encs, position)
  }

  /* Slots are visited in the order of the artifact, not of their offsets. */
  method AdjustOffset(t: Template, args: seq<Arg>, position: nat) returns (adjusted: int)
    requires WellFormed(t, args)
    ensures adjusted == position + Total(t.slots, GrowthAt(Encodings(args), position))
  {
    hide EncodeArg, SortBy, Total, Growth;
    var shift, encs := 0, Encodings(args);
    ghost var growth := GrowthAt(encs, position);
    assert t.slots[..0] == [];
    NoGrowth([], encs, position);
    for i := 0 to |t.slots|
      invariant shift == Total(t.slots[..i], growth)
    {
      GrowthStep(t.slots, i, encs, position);
      if t.slots[i].offset >= position {
        continue;
      }
      shift := shift + |encs[t.slots[i].param]| - 1;
    }
    assert t.slots[..|t.slots|] == t.slots;
    adjusted := position + shift;
  }

  lemma GrowthStep(slots: seq<Slot>, i: nat, encs: seq<seq<byte>>, position: nat)
    requires i < |slots| && slots[i].param < |encs|
    ensures Total(slots[..i + 1], GrowthAt(encs, position))
            == Total(slots[..i], GrowthAt(encs, position))
               + if slots[i].offset < position then |encs[slots[i].param]| - 1 else 0
  {
    hide Total;
    assert slots[..i + 1] == slots[..i] + [slots[i]];
    TotalAppend(slots[..i], slots[i], GrowthAt(encs, position));
  }

  lemma {:induction false} NoGrowth(slots: seq<Slot>, encs: seq<seq<byte>>, position: nat)
    requires forall i :: 0 <= i < |slots| ==> slots[i].offset >= position
    ensures Total(slots, GrowthAt(encs, position)) == 0
  {
    if slots != [] { NoGrowth(slots[1..], encs, position); }
  }

  lemma Beyond<T>(a: seq<T>, b: seq<T>, c: seq<T>, i: nat)
    requires i < |c|
    ensures (a + b + c)[|a| + |b| + i] == c[i]
  {}

  /* In the filled script a byte outside the slots has moved by the growth of the slots before it. */
  lemma {:induction false} Relocated(script: seq<byte>, slots: seq<Slot>, encs: seq<seq<byte>>, from: nat, position: nat)
    requires Ascending(script, slots, |encs|, from) && from <= position < |script|
    requires forall i :: 0 <= i < |slots| ==> slots[i].offset != position
    ensures var at := position - from + Total(slots, GrowthAt(encs, position));
            && 0 <= at < |Filled(script, slots, encs, from)|
            && Filled(script, slots, encs, from)[at] == script[position]
    decreases slots
  {
    hide Filled, Growth;
    FilledHead(script, slots, encs, from);
    if slots != [] {
      var o := slots[0].offset;
      if position < o {
        NoGrowth(slots, encs, position);
      } else {
        Relocated(script, slots[1..], encs, o + 1, position);
        HeadGrowth(slots, encs, position);
        var at := position - (o + 1) + Total(slots[1..], GrowthAt(encs, position));
        Beyond(script[from..o], encs[slots[0].param], Filled(script, slots[1..], encs, o + 1), at);
      }
    }
  }

  lemma HeadGrowth(slots: seq<Slot>, encs: seq<seq<byte>>, position: nat)
    requires slots != [] && slots[0].offset < position && slots[0].param < |encs|
    ensures Total(slots, GrowthAt(encs, position))
            == |encs[slots[0].param]| - 1 + Total(slots[1..], GrowthAt(encs, position))
  {}

  /* For one argument list, the relocated offset of any byte that is not a slot points at that
     byte in the built script. */
  lemma OffsetPointsAtByte(t: Template, args: seq<Arg>, position: nat)
    requires WellFormed(t, args) && position < |t.script|
    requires forall i :: 0 <= i < |t.slots| ==> t.slots[i].offset != position
    ensures var at := position + Total(t.slots, GrowthAt(Encodings(args), position));
            0 <= at < |Built(t, args)| && Built(t, args)[at] == t.script[position]
  {
    hide EncodeArg, SortBy, Filled, Total, Growth;
    var sorted, encs := SortBy(t.slots, SLOT_OFFSET), Encodings(args);
    SortedAscending(t, args);
    SortBySorts(t.slots, SLOT_OFFSET);
    TotalPermutation(sorted, t.slots, GrowthAt(encs, position));
    forall i | 0 <= i < |sorted| ensures sorted[i].offset != position {
      assert sorted[i] in multiset(sorted);
      assert sorted[i] in t.slots;
    }
    Relocated(t.script, sorted, encs, 0, position);
  }
}
