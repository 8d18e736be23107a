/**
 Key creation: the watermarks of electrumsv/keystore.py, the row ids of the wallet and the keys of
 a deterministic account in electrumsv/wallet.py.
 */
module KeyAllocation {
  import opened Digits
  import opened Sorting
  import opened Wrappers

  type Path = seq<nat>

  datatype ScriptType = NoScript | Script(kind: nat)

  datatype Key = Key(script: ScriptType, active: bool, paymentRequest: bool, invoice: bool)

  datatype State = State(marks: map<Path, nat>, nextId: nat, keys: map<nat, Key>, paths: map<nat, Path>)

  predicate Fresh(k: Key)
  {
    k.script == NoScript && !k.paymentRequest && !k.invoice
  }

  function NewKey(script: ScriptType): Key
  {
    Key(script, true, false, false)
  }

  /* The next index to hand out below a parent path. */
  function Mark(marks: map<Path, nat>, p: Path): nat
  {
    if p in marks then marks[p] else 0
  }

  /* Rows for n consecutive ids. */
  function KeysAdded(keys: map<nat, Key>, start: nat, n: nat, key: Key): map<nat, Key>
  {
    if n == 0 then keys else KeysAdded(keys, start, n - 1, key)[start + n - 1 := key]
  }

  function PathsAdded(paths: map<nat, Path>, start: nat, added: seq<Path>): map<nat, Path>
  {
    if added == [] then paths
    else
      var n := |added| - 1;
      PathsAdded(paths, start, added[..n])[start + n := added[n]]
  }

  /* The paths of count indexes from mark on. */
  function Below(parent: Path, mark: nat, count: nat): (r: seq<Path>)
    ensures |r| == count && forall i :: 0 <= i < count ==> r[i] == parent + [mark + i]
  {
    seq(count, i requires 0 <= i => parent + [mark + i])
  }

  /* count keys below the parent, on the next indexes and the next ids. */
  function Created(s: State, parent: Path, count: nat, script: ScriptType): State
  {
    if count == 0 then s
    else
      var mark := Mark(s.marks, parent);
      State(s.marks[parent := mark + count], s.nextId + count,
            KeysAdded(s.keys, s.nextId, count, NewKey(script)),
            PathsAdded(s.paths, s.nextId, Below(parent, mark, count)))
  }

  lemma {:induction false} KeyAdded(keys: map<nat, Key>, start: nat, n: nat, key: Key, id: nat)
    ensures var r := KeysAdded(keys, start, n, key);
            && (id in r <==> id in keys || start <= id < start + n)
            && (start <= id < start + n ==> r[id] == key)
            && (id in r && !(start <= id < start + n) ==> r[id] == keys[id])
  {
    if n > 0 { KeyAdded(keys, start, n - 1, key, id); }
  }

  lemma {:induction false} PathAdded(paths: map<nat, Path>, start: nat, added: seq<Path>, id: nat)
    ensures var r := PathsAdded(paths, start, added);
            && (id in r <==> id in paths || start <= id < start + |added|)
            && (start <= id < start + |added| ==> r[id] == added[id - start])
            && (id in r && !(start <= id < start + |added|) ==> r[id] == paths[id])
  {
    if added != [] { PathAdded(paths, start, added[..|added| - 1], id); }
  }

  lemma LastOf(p: Path, i: nat)
    ensures p + [i] != [] && (p + [i])[..|p + [i]| - 1] == p && (p + [i])[|p + [i]| - 1] == i
  {}

  lemma LastSplit(p: Path)
    ensures p != [] ==> p == p[..|p| - 1] + [p[|p| - 1]]
  {}

  ghost predicate New(s: State, count: nat, id: nat)
  {
    s.nextId <= id < s.nextId + count
  }

  /* What creation does to one id: a new one gets the next index, any other is left alone. */
  lemma CreatedIs(s: State, parent: Path, count: nat, script: ScriptType, id: nat)
    ensures var t := Created(s, parent, count, script);
            && (id in t.paths <==> id in s.paths || New(s, count, id))
            && (id in t.keys <==> id in s.keys || New(s, count, id))
            && (New(s, count, id) ==>
                  var p := t.paths[id];
                  && t.keys[id] == Key(script, true, false, false)
                  && p != [] && p[..|p| - 1] == parent && p[|p| - 1] == Mark(s.marks, parent) + (id - s.nextId))
            && (id in s.paths && !New(s, count, id) ==> t.paths[id] == s.paths[id])
            && (id in s.keys && !New(s, count, id) ==> t.keys[id] == s.keys[id])
  {
    hide KeysAdded, PathsAdded;
    if count > 0 {
      var mark := Mark(s.marks, parent);
      KeyAdded(s.keys, s.nextId, count, NewKey(script), id);
      PathAdded(s.paths, s.nextId, Below(parent, mark, count), id);
      if New(s, count, id) { LastOf(parent, mark + (id - s.nextId)); }
    }
  }

  lemma CreatedMarks(s: State, parent: Path, count: nat, script: ScriptType)
    ensures var t := Created(s, parent, count, script);
            && t.nextId == s.nextId + count
            && Mark(t.marks, parent) == Mark(s.marks, parent) + count
            && forall p :: p != parent ==> Mark(t.marks, p) == Mark(s.marks, p)
  {}

  /* Creating keys until a derivation leaves that key as the last one created. */
  lemma CreatedUntil(s: State, derivation: Path, script: ScriptType)
    requires derivation != []
    requires var parent, wanted := derivation[..|derivation| - 1], derivation[|derivation| - 1];
             Mark(s.marks, parent) <= wanted
    ensures var parent, wanted := derivation[..|derivation| - 1], derivation[|derivation| - 1];
            var t := Created(s, parent, wanted + 1 - Mark(s.marks, parent), script);
            && Mark(t.marks, parent) == wanted + 1
            && t.nextId > 0 && t.nextId - 1 in t.paths && t.paths[t.nextId - 1] == derivation
  {
    hide Created, Mark;
    var parent, wanted := derivation[..|derivation| - 1], derivation[|derivation| - 1];
    var count := wanted + 1 - Mark(s.marks, parent);
    CreatedMarks(s, parent, count, script);
    CreatedIs(s, parent, count, script, s.nextId + count - 1);
    LastSplit(Created(s, parent, count, script).paths[s.nextId + count - 1]);
    LastSplit(derivation);
  }

  // ----------------------------------------------------------------------------- invariants

  ghost predicate Placed(s: State, id: nat)
    requires id in s.paths
  {
    var p := s.paths[id];
    id < s.nextId && p != [] && p[|p| - 1] < Mark(s.marks, p[..|p| - 1])
  }

  ghost predicate InOrder(s: State, a: nat, b: nat)
    requires a in s.paths && b in s.paths && s.paths[a] != [] && s.paths[b] != []
  {
    var p, q := s.paths[a], s.paths[b];
    p[..|p| - 1] == q[..|q| - 1] ==> p[|p| - 1] < q[|q| - 1]
  }

  /* Every key has a path below its watermark, and later keys below one parent have higher
     indexes; so no two keys share a path. */
  ghost predicate Consistent(s: State)
  {
    && s.keys.Keys == s.paths.Keys
    && (forall id: nat :: id in s.paths ==> Placed(s, id))
    && (forall a: nat, b: nat :: a in s.paths && b in s.paths && a < b ==> InOrder(s, a, b))
  }

  lemma PathsDistinct(s: State, a: nat, b: nat)
    requires Consistent(s) && a in s.paths && b in s.paths && s.paths[a] == s.paths[b]
    ensures a == b
  {
    assert Placed(s, a) && Placed(s, b);
    assert !InOrder(s, a, b) && !InOrder(s, b, a);
  }

  lemma CreatedConsistent(s: State, parent: Path, count: nat, script: ScriptType)
    requires Consistent(s)
    ensures Consistent(Created(s, parent, count, script))
  {
    hide Created, Mark;
    var t := Created(s, parent, count, script);
    CreatedMarks(s, parent, count, script);
    forall id ensures id in t.keys <==> id in t.paths {
      CreatedIs(s, parent, count, script, id);
      assert id in s.keys.Keys <==> id in s.paths.Keys;
    }
    assert t.keys.Keys == t.paths.Keys;
    forall id: nat | id in t.paths ensures Placed(t, id) {
      CreatedIs(s, parent, count, script, id);
      if id in s.paths { assert Placed(s, id); }
    }
    forall a: nat, b: nat | a in t.paths && b in t.paths && a < b ensures InOrder(t, a, b) {
      NewInOrder(s, parent, count, script, a, b);
    }
  }

  lemma NewInOrder(s: State, parent: Path, count: nat, script: ScriptType, a: nat, b: nat)
    requires Consistent(s) && a < b
    requires var t := Created(s, parent, count, script);
             a in t.paths && b in t.paths && Placed(t, a) && Placed(t, b)
    ensures InOrder(Created(s, parent, count, script), a, b)
  {
    hide Created, Mark;
    CreatedIs(s, parent, count, script, a);
    CreatedIs(s, parent, count, script, b);
    if a in s.paths { assert Placed(s, a); }
    if b in s.paths {
      assert Placed(s, b);
      if a in s.paths { assert InOrder(s, a, b); }
    }
  }

  // ----------------------------------------------------------------------------------- runs

  /* What happens to an account: keys are created, their rows replaced, archived keys unloaded,
     and other accounts of the wallet take ids. */
  datatype Step =
    | Create(parent: Path, count: nat, script: ScriptType)
    | Replace(id: nat, key: Key)
    | Archive(ids: set<nat>)
    | Elsewhere(count: nat)

  function Apply(s: State, step: Step): State
  {
    match step
    case Create(parent, count, script) => Created(s, parent, count, script)
    case Replace(id, key) => if id in s.keys then s.(keys := s.keys[id := key]) else s
    case Archive(ids) => s.(keys := s.keys - ids, paths := s.paths - ids)
    case Elsewhere(count) => s.(nextId := s.nextId + count)
  }

  function Run(s: State, steps: seq<Step>): State
    decreases steps
  {
    if steps == [] then s else Run(Apply(s, steps[0]), steps[1..])
  }

  datatype Issue = Issue(id: nat, path: Path)

  /* The keys one step creates, in order. */
  function Batch(s: State, step: Step): (r: seq<Issue>)
    ensures step.Create? ==>
              && |r| == step.count
              && forall i :: 0 <= i < |r| ==>
                   r[i] == Issue(s.nextId + i, step.parent + [Mark(s.marks, step.parent) + i])
    ensures !step.Create? ==> r == []
  {
    if step.Create? then
      seq(step.count, i requires 0 <= i => Issue(s.nextId + i, step.parent + [Mark(s.marks, step.parent) + i]))
    else []
  }

  /* All keys ever created in a run, archived ones included. */
  function Issued(s: State, steps: seq<Step>): seq<Issue>
    decreases steps
  {
    if steps == [] then [] else Batch(s, steps[0]) + Issued(Apply(s, steps[0]), steps[1..])
  }

  lemma {:induction false} RunConsistent(s: State, steps: seq<Step>)
    requires Consistent(s)
    ensures Consistent(Run(s, steps))
    decreases steps
  {
    if steps != [] {
      StepConsistent(s, steps[0]);
      RunConsistent(Apply(s, steps[0]), steps[1..]);
    }
  }

  lemma StepConsistent(s: State, step: Step)
    requires Consistent(s)
    ensures Consistent(Apply(s, step))
  {
    var t := Apply(s, step);
    match step
    case Create(parent, count, script) => CreatedConsistent(s, parent, count, script);
    case _ =>
      forall id: nat | id in t.paths ensures Placed(t, id) { assert Placed(s, id); }
      forall a: nat, b: nat | a in t.paths && b in t.paths && a < b ensures InOrder(t, a, b) {
        assert Placed(s, a) && Placed(s, b) && InOrder(s, a, b);
      }
  }

  /* An id and an index that lie between the two states. */
  ghost predicate Between(s: State, t: State, x: Issue)
  {
    && x.path != []
    && s.nextId <= x.id < t.nextId
    && var parent := x.path[..|x.path| - 1];
       Mark(s.marks, parent) <= x.path[|x.path| - 1] < Mark(t.marks, parent)
  }

  ghost predicate Grows(s: State, t: State)
  {
    s.nextId <= t.nextId && forall p :: Mark(s.marks, p) <= Mark(t.marks, p)
  }

  lemma StepGrows(s: State, step: Step)
    ensures Grows(s, Apply(s, step))
    ensures forall i :: 0 <= i < |Batch(s, step)| ==> Between(s, Apply(s, step), Batch(s, step)[i])
  {
    if step.Create? {
      forall i | 0 <= i < |Batch(s, step)| ensures Between(s, Apply(s, step), Batch(s, step)[i]) {
        LastOf(step.parent, Mark(s.marks, step.parent) + i);
      }
    }
  }

  lemma {:induction false} RunGrows(s: State, steps: seq<Step>)
    ensures Grows(s, Run(s, steps))
    ensures forall i :: 0 <= i < |Issued(s, steps)| ==> Between(s, Run(s, steps), Issued(s, steps)[i])
    decreases steps
  {
    if steps != [] {
      hide Apply, Batch, Between, Grows;
      var t, r := Apply(s, steps[0]), Run(s, steps);
      StepGrows(s, steps[0]);
      RunGrows(t, steps[1..]);
      GrowsOn(s, t, r);
      forall i | 0 <= i < |Issued(s, steps)| ensures Between(s, r, Issued(s, steps)[i]) {
        var n := |Batch(s, steps[0])|;
        if i < n {
          BetweenWider(s, s, t, r, Batch(s, steps[0])[i]);
        } else {
          BetweenWider(s, t, r, r, Issued(t, steps[1..])[i - n]);
        }
      }
    }
  }

  lemma GrowsOn(s: State, t: State, r: State)
    requires Grows(s, t) && Grows(t, r)
    ensures Grows(s, r) && Grows(s, s) && Grows(r, r)
  {}

  lemma BetweenWider(s: State, a: State, b: State, r: State, x: Issue)
    requires Between(a, b, x) && Grows(s, a) && Grows(b, r)
    ensures Between(s, r, x)
  {}

  ghost predicate Later(x: Issue, y: Issue)
  {
    x.id < y.id && x.path != y.path
  }

  /* Over every run ids strictly increase and no derivation path is issued twice. */
  lemma {:induction false} NeverTwice(s: State, steps: seq<Step>)
    ensures forall i, j :: 0 <= i < j < |Issued(s, steps)| ==> Later(Issued(s, steps)[i], Issued(s, steps)[j])
    decreases steps
  {
    if steps != [] {
      hide Apply, Between, Later, Grows, Batch;
      var t := Apply(s, steps[0]);
      var first, rest := Batch(s, steps[0]), Issued(t, steps[1..]);
      StepGrows(s, steps[0]);
      RunGrows(t, steps[1..]);
      NeverTwice(t, steps[1..]);
      forall i, j | 0 <= i < j < |first + rest| ensures Later((first + rest)[i], (first + rest)[j]) {
        if j < |first| {
          BatchLater(s, steps[0], i, j);
        } else if i < |first| {
          BetweenLater(s, t, Run(t, steps[1..]), first[i], rest[j - |first|]);
        } else {
          assert Later(rest[i - |first|], rest[j - |first|]);
        }
      }
    }
  }

  lemma BetweenLater(s: State, t: State, r: State, x: Issue, y: Issue)
    requires Between(s, t, x) && Between(t, r, y)
    ensures Later(x, y)
  {}

  lemma BatchLater(s: State, step: Step, i: nat, j: nat)
    requires i < j < |Batch(s, step)|
    ensures Later(Batch(s, step)[i], Batch(s, step)[j])
  {
    var mark := Mark(s.marks, step.parent);
    LastOf(step.parent, mark + i);
    LastOf(step.parent, mark + j);
  }

  ghost predicate IssuedAt(issued: seq<Issue>, path: Path)
  {
    exists k :: 0 <= k < |issued| && issued[k].path == path
  }

  lemma IssuedInEither(a: seq<Issue>, b: seq<Issue>, path: Path)
    ensures IssuedAt(a + b, path) <==> IssuedAt(a, path) || IssuedAt(b, path)
  {
    if IssuedAt(a, path) {
      var k :| 0 <= k < |a| && a[k].path == path;
      assert (a + b)[k].path == path;
    }
    if IssuedAt(b, path) {
      var k :| 0 <= k < |b| && b[k].path == path;
      assert (a + b)[|a| + k].path == path;
    }
    if IssuedAt(a + b, path) {
      var k :| 0 <= k < |a + b| && (a + b)[k].path == path;
      assert k < |a| ==> a[k].path == path;
      assert k >= |a| ==> b[k - |a|].path == path;
    }
  }

  /* The indexes issued below a parent are exactly those between its two watermarks: from an
     empty keystore they tile [0, watermark), each once because no path is issued twice. */
  lemma {:induction false} IndexesTile(s: State, steps: seq<Step>, parent: Path, i: nat)
    ensures IssuedAt(Issued(s, steps), parent + [i])
            <==> Mark(s.marks, parent) <= i < Mark(Run(s, steps).marks, parent)
    decreases steps
  {
    if steps != [] {
      hide Apply, Batch;
      var t := Apply(s, steps[0]);
      IndexesTile(t, steps[1..], parent, i);
      BatchTiles(s, steps[0], parent, i);
      StepGrows(s, steps[0]);
      RunGrows(t, steps[1..]);
      IssuedInEither(Batch(s, steps[0]), Issued(t, steps[1..]), parent + [i]);
    }
  }

  /* A keystore that handed out nothing yet starts every parent at 0: the indexes issued below a
     parent are then exactly those below its watermark, if it has one. */
  lemma TilesFromZero(s: State, steps: seq<Step>, parent: Path, i: nat)
    requires s.marks.Keys == {}
    ensures var marks := Run(s, steps).marks;
            IssuedAt(Issued(s, steps), parent + [i]) <==> parent in marks && i < marks[parent]
  {
    IndexesTile(s, steps, parent, i);
  }

  lemma BatchTiles(s: State, step: Step, parent: Path, i: nat)
    ensures IssuedAt(Batch(s, step), parent + [i])
            <==> Mark(s.marks, parent) <= i < Mark(Apply(s, step).marks, parent)
  {
    var batch, mark := Batch(s, step), Mark(s.marks, parent);
    if step.Create? && step.parent == parent && mark <= i < mark + step.count {
      assert batch[i - mark].path == parent + [i];
    }
    if IssuedAt(batch, parent + [i]) {
      var k :| 0 <= k < |batch| && batch[k].path == parent + [i];
      LastOf(parent, i);
      LastOf(step.parent, Mark(s.marks, step.parent) + k);
    }
  }

  // ------------------------------------------------------------------------------ fresh keys

  predicate Candidate(s: State, parent: Path, id: nat)
  {
    id in s.paths && |s.paths[id]| == |parent| + 1 && s.paths[id][..|parent|] == parent
  }

  predicate FreshKey(s: State, id: nat)
  {
    id in s.keys && Fresh(s.keys[id])
  }

  /* The unbroken run of fresh keys among the newest below the parent, oldest first: ids below n
     are visited from the highest down, up to the first key that is not fresh. */
  function RunBelow(s: State, parent: Path, n: nat): seq<nat>
  {
    if n == 0 then []
    else if !Candidate(s, parent, n - 1) then RunBelow(s, parent, n - 1)
    else if FreshKey(s, n - 1) then RunBelow(s, parent, n - 1) + [n - 1]
    else []
  }

  function FreshRun(s: State, parent: Path): seq<nat>
  {
    RunBelow(s, parent, s.nextId)
  }

  /* A key right below the parent. */
  ghost predicate ChildOf(s: State, parent: Path, id: nat)
  {
    id in s.paths && s.paths[id] != [] && s.paths[id][..|s.paths[id]| - 1] == parent
  }

  /* The run holds exactly the children of the parent from which on no child has a script type, a
     payment request or an invoice. */
  lemma FreshRunIs(s: State, parent: Path, id: nat)
    ensures id in FreshRun(s, parent)
            <==> && ChildOf(s, parent, id) && id < s.nextId
                 && forall j: nat :: ChildOf(s, parent, j) && id <= j < s.nextId ==>
                      j in s.keys && s.keys[j].script == NoScript && !s.keys[j].paymentRequest && !s.keys[j].invoice
  {
    RunBelowIs(s, parent, s.nextId);
    forall j: nat ensures Candidate(s, parent, j) <==> ChildOf(s, parent, j) {}
  }

  ghost predicate Ascending(ids: seq<nat>)
  {
    forall i, j :: 0 <= i < j < |ids| ==> ids[i] < ids[j]
  }

  /* A candidate below n with no candidate in use from it on. */
  ghost predicate InRun(s: State, parent: Path, n: nat, id: nat)
  {
    Candidate(s, parent, id) && id < n && forall j: nat :: Candidate(s, parent, j) && id <= j < n ==> FreshKey(s, j)
  }

  lemma {:induction false} RunBelowIs(s: State, parent: Path, n: nat)
    ensures Ascending(RunBelow(s, parent, n))
    ensures forall id: nat :: id in RunBelow(s, parent, n) <==> InRun(s, parent, n, id)
  {
    if n > 0 {
      hide Candidate, FreshKey;
      RunBelowIs(s, parent, n - 1);
      var rest := RunBelow(s, parent, n - 1);
      forall i | 0 <= i < |rest| ensures rest[i] < n - 1 {
        assert rest[i] in rest;
        assert InRun(s, parent, n - 1, rest[i]);
      }
      forall id ensures id in RunBelow(s, parent, n) <==> InRun(s, parent, n, id) {
        RunStep(s, parent, n, id);
      }
    }
  }

  lemma RunStep(s: State, parent: Path, n: nat, id: nat)
    requires n > 0 && (id in RunBelow(s, parent, n - 1) <==> InRun(s, parent, n - 1, id))
    ensures id in RunBelow(s, parent, n) <==> InRun(s, parent, n, id)
  {
    hide Candidate, FreshKey;
    if InRun(s, parent, n, id) && id < n - 1 {
      assert InRun(s, parent, n - 1, id);
    }
  }

  lemma AscendingPrefix(a: seq<nat>, n: nat)
    requires Ascending(a) && n <= |a|
    ensures Ascending(a[..n])
  {}

  lemma SameLast(a: seq<nat>, b: seq<nat>)
    requires a != [] && b != [] && Ascending(a) && Ascending(b) && forall x :: x in a <==> x in b
    ensures a[|a| - 1] == b[|b| - 1]
  {
    assert a[|a| - 1] in b && b[|b| - 1] in a;
  }

  lemma AllButLast(a: seq<nat>, x: nat)
    requires a != [] && Ascending(a)
    ensures x in a[..|a| - 1] <==> x in a && x != a[|a| - 1]
  {
    assert a == a[..|a| - 1] + [a[|a| - 1]];
  }

  /* An ascending sequence is determined by its elements. */
  lemma {:induction false} SameAscending(a: seq<nat>, b: seq<nat>)
    requires Ascending(a) && Ascending(b) && forall x :: x in a <==> x in b
    ensures a == b
  {
    hide Ascending;
    assert a != [] ==> a[0] in b;
    assert b != [] ==> b[0] in a;
    if a != [] && b != [] {
      var m, n := |a| - 1, |b| - 1;
      SameLast(a, b);
      forall x ensures x in a[..m] <==> x in b[..n] {
        AllButLast(a, x);
        AllButLast(b, x);
      }
      AscendingPrefix(a, m);
      AscendingPrefix(b, n);
      SameAscending(a[..m], b[..n]);
      assert a == a[..m] + [a[m]] && b == b[..n] + [b[n]];
    }
  }

  function IdRange(start: nat, count: nat): (r: seq<nat>)
    ensures |r| == count && forall i :: 0 <= i < count ==> r[i] == start + i
  {
    seq(count, i requires 0 <= i => start + i)
  }

  /* Keys created without a script type lengthen the run by exactly their ids. */
  lemma CreatedExtendsRun(s: State, parent: Path, count: nat)
    requires Consistent(s)
    ensures FreshRun(Created(s, parent, count, NoScript), parent) == FreshRun(s, parent) + IdRange(s.nextId, count)
  {
    CreatedMarks(s, parent, count, NoScript);
    RunUnchanged(s, parent, count, s.nextId);
    NewKeysInRun(s, parent, count, count);
  }

  lemma {:induction false} RunUnchanged(s: State, parent: Path, count: nat, n: nat)
    requires n <= s.nextId
    ensures RunBelow(Created(s, parent, count, NoScript), parent, n) == RunBelow(s, parent, n)
  {
    hide Created;
    if n > 0 {
      RunUnchanged(s, parent, count, n - 1);
      CreatedIs(s, parent, count, NoScript, n - 1);
    }
  }

  lemma {:induction false} NewKeysInRun(s: State, parent: Path, count: nat, k: nat)
    requires Consistent(s) && k <= count
    ensures RunBelow(Created(s, parent, count, NoScript), parent, s.nextId + k)
            == RunBelow(Created(s, parent, count, NoScript), parent, s.nextId) + IdRange(s.nextId, k)
  {
    hide Created;
    var t := Created(s, parent, count, NoScript);
    if k == 0 {
      assert IdRange(s.nextId, 0) == [];
    } else {
      var id := s.nextId + k - 1;
      NewKeysInRun(s, parent, count, k - 1);
      CreatedIs(s, parent, count, NoScript, id);
      assert Candidate(t, parent, id) && FreshKey(t, id);
      assert IdRange(s.nextId, k) == IdRange(s.nextId, k - 1) + [id];
    }
  }

  // --------------------------------------------------------------------------------- classes

  class Keystore {
    var marks: map<Path, nat>

    constructor (subpaths: map<Path, nat>)
      ensures marks == subpaths
    {
      marks := subpaths;
    }

    function NextIndex(p: Path): nat
      reads this
    {
      Mark(marks, p)
    }

    method AllocateIndexes(p: Path, count: nat) returns (next: nat)
      modifies this
      ensures next == Mark(old(marks), p) && marks == old(marks)[p := next + count]
    {
      next := Mark(marks, p);
      marks := marks[p := next + count];
    }
  }

  class Wallet {
    var nextId: nat

    constructor (next: nat)
      ensures nextId == next
    {
      nextId := next;
    }

    /* The rows get consecutive ids. */
    method CreateKeyInstances(rows: seq<Key>) returns (ids: seq<nat>)
      modifies this
      ensures ids == IdRange(old(nextId), |rows|) && nextId == old(nextId) + |rows|
    {
      var id := nextId;
      ids := [];
      for i := 0 to |rows|
        invariant id == old(nextId) + i && ids == IdRange(old(nextId), i)
      {
        ids := ids + [id];
        id := id + 1;
      }
      nextId := id;
    }
  }

  datatype CreateError = AlreadyCreated

  class Account {
    const keystore: Keystore
    const wallet: Wallet
    const defaultScript: ScriptType
    var keys: map<nat, Key>
    var paths: map<nat, Path>

    ghost function Contents(): State
      reads this, keystore, wallet
    {
      State(keystore.marks, wallet.nextId, keys, paths)
    }

    ghost predicate Valid()
      reads this, keystore, wallet
    {
      Consistent(Contents())
    }

    constructor (store: Keystore, w: Wallet, script: ScriptType)
      ensures keystore == store && wallet == w && defaultScript == script && Valid()
      ensures Contents() == State(store.marks, w.nextId, map[], map[])
    {
      keystore, wallet, defaultScript, keys, paths := store, w, script, map[], map[];
    }

    method AllocateKeys(count: int, parent: Path) returns (granted: seq<Path>)
      modifies keystore
      ensures count <= 0 ==> granted == [] && keystore.marks == old(keystore.marks)
      ensures count > 0 ==>
                var mark := Mark(old(keystore.marks), parent);
                && keystore.marks == old(keystore.marks)[parent := mark + count]
                && granted == Below(parent, mark, count)
    {
      if count <= 0 {
        return [];
      }
      var next := keystore.AllocateIndexes(parent, count);
      granted := Below(parent, next, count);
    }

    method CreateAllocatedKeys(granted: seq<Path>, scriptType: Option<ScriptType>) returns (ids: seq<nat>)
      modifies this`keys, this`paths, wallet
      ensures ids == IdRange(old(wallet.nextId), |granted|) && wallet.nextId == old(wallet.nextId) + |granted|
      ensures var script := if scriptType.Some? then scriptType.value else defaultScript;
              keys == KeysAdded(old(keys), old(wallet.nextId), |granted|, Key(script, true, false, false))
      ensures paths == PathsAdded(old(paths), old(wallet.nextId), granted)
    {
      if |granted| == 0 {
        return [];
      }
      var row := NewKey(ScriptOr(scriptType, defaultScript));
      var rows := seq(|granted|, _ => row);
      ghost var start := wallet.nextId;
      ids := wallet.CreateKeyInstances(rows);
      assert granted[..0] == [];
      for i := 0 to |ids|
        invariant keys == KeysAdded(old(keys), start, i, row)
        invariant paths == PathsAdded(old(paths), start, granted[..i])
        invariant wallet.nextId == start + |granted|
      {
        keys := keys[ids[i] := rows[i]];
        assert granted[..i + 1][..i] == granted[..i];
        paths := paths[ids[i] := granted[i]];
      }
      assert granted[..|granted|] == granted;
    }

    method CreateKeys(count: int, parent: Path, scriptType: Option<ScriptType>) returns (ids: seq<nat>)
      requires Valid()
      modifies this`keys, this`paths, wallet, keystore
      ensures Valid()
      ensures var n := if count < 0 then 0 else count;
              var script := if scriptType.Some? then scriptType.value else defaultScript;
              && Contents() == Created(old(Contents()), parent, n, script)
              && ids == IdRange(old(wallet.nextId), n)
    {
      hide Consistent;
      ghost var s := Contents();
      var granted := AllocateKeys(count, parent);
      ids := CreateAllocatedKeys(granted, scriptType);
      CreatedConsistent(s, parent, |granted|, ScriptOr(scriptType, defaultScript));
    }

    /* Keys up to and including the wanted one; asking for one that was created is an error. */
    method CreateKeysUntil(derivation: Path, scriptType: Option<ScriptType>) returns (r: Result<seq<nat>, CreateError>)
      requires Valid() && derivation != []
      modifies this`keys, this`paths, wallet, keystore
      ensures Valid()
      ensures var parent, wanted := derivation[..|derivation| - 1], derivation[|derivation| - 1];
              var next := Mark(old(keystore.marks), parent);
              var script := if scriptType.Some? then scriptType.value else defaultScript;
              if wanted < next then r == Err(AlreadyCreated) && Contents() == old(Contents())
              else
                && Contents() == Created(old(Contents()), parent, wanted + 1 - next, script)
                && r == Ok(IdRange(old(wallet.nextId), wanted + 1 - next))
    {
      var parent := derivation[..|derivation| - 1];
      var wanted: int, next: int := derivation[|derivation| - 1], keystore.NextIndex(parent);
      var required := wanted - next + 1;
      if required <= 0 {
        return Err(AlreadyCreated);
      }
      hide Created, Consistent, Mark;
      var ids := CreateKeys(required, parent, scriptType);
      return Ok(ids);
    }

    method Candidates(parent: Path) returns (found: seq<nat>)
      requires Valid()
      ensures forall id :: id in found <==> Candidate(Contents(), parent, id)
      ensures Distinct(found)
    {
      found := [];
      var rest := keys.Keys;
      while rest != {}
        invariant rest <= keys.Keys
        invariant forall id :: id in found <==> id in keys.Keys - rest && Candidate(Contents(), parent, id)
        invariant Distinct(found)
        decreases rest
      {
        var id :| id in rest;
        rest := rest - {id};
        if |paths[id]| == |parent| + 1 && paths[id][..|parent|] == parent {
          AppendDistinct(found, id);
          found := found + [id];
        }
      }
    }

    /* Sorted newest first, cut at the first key in use, and reversed. */
    method GetExistingFreshKeys(parent: Path) returns (ids: seq<nat>)
      requires Valid()
      ensures ids == FreshRun(Contents(), parent)
    {
      var found := Candidates(parent);
      var newest := SortBy(found, NEGATED);
      var n := 0;
      while n < |newest| && newest[n] in keys && Fresh(keys[newest[n]])
        invariant n <= |newest| && forall i :: 0 <= i < n ==> FreshKey(Contents(), newest[i])
      {
        n := n + 1;
      }
      ids := Reversed(newest[..n]);
      FreshPrefix(Contents(), parent, found, n);
    }

    method GetFreshKeys(parent: Path, count: int) returns (ids: seq<nat>)
      requires Valid()
      modifies this`keys, this`paths, wallet, keystore
      ensures Valid()
      ensures var run := FreshRun(old(Contents()), parent);
              if count <= |run|
              then
                && Contents() == old(Contents())
                && ids == if count >= 0 then run[..count]
                          else if count >= -|run| then run[..|run| + count] else []
              else
                && Contents() == Created(old(Contents()), parent, count - |run|, NoScript)
                && ids == FreshRun(Contents(), parent) == run + IdRange(old(wallet.nextId), count - |run|)
      ensures |FreshRun(Contents(), parent)| >= count
    {
      hide Created, Consistent, FreshRun;
      ghost var s := Contents();
      var existing := GetExistingFreshKeys(parent);
      ids := PySlice(existing, count);
      if |ids| < count {
        var required := count - |ids|;
        var created := CreateKeys(required, parent, Some(NoScript));
        CreatedExtendsRun(s, parent, required);
        ids := ids + created;
      }
    }
  }

  const NEGATED: nat -> int := (id: nat) => 0 - id

  function ScriptOr(s: Option<ScriptType>, default: ScriptType): ScriptType
  {
    if s.Some? then s.value else default
  }

  /* s[:count], where a negative count leaves that many elements off. */
  function PySlice<T>(s: seq<T>, count: int): seq<T>
  {
    if count >= |s| then s
    else if count >= 0 then s[..count]
    else if count + |s| >= 0 then s[..count + |s|]
    else []
  }

  /* The first n of the candidates in descending order are fresh and the next is not: reversed,
     they are the run. */
  lemma FreshPrefix(s: State, parent: Path, found: seq<nat>, n: nat)
    requires Consistent(s) && n <= |SortBy(found, NEGATED)|
    requires forall id :: id in found <==> Candidate(s, parent, id)
    requires Distinct(found)
    requires var newest := SortBy(found, NEGATED);
             && (forall i :: 0 <= i < n ==> FreshKey(s, newest[i]))
             && (n < |newest| ==> !FreshKey(s, newest[n]))
    ensures Reversed(SortBy(found, NEGATED)[..n]) == FreshRun(s, parent)
  {
    var newest := SortBy(found, NEGATED);
    SortBySorts(found, NEGATED);
    Descending(found);
    RunBelowIs(s, parent, s.nextId);
    var ids := Reversed(newest[..n]);
    forall id ensures id in ids <==> InRun(s, parent, s.nextId, id) {
      if id in ids {
        FirstAreRun(s, parent, newest, n, id);
      }
      if InRun(s, parent, s.nextId, id) {
        RunIsFirst(s, parent, newest, n, id);
      }
    }
    SameAscending(ids, FreshRun(s, parent));
  }

  lemma Descending(found: seq<nat>)
    requires Distinct(found)
    ensures var newest := SortBy(found, NEGATED);
            && (forall i, j :: 0 <= i < j < |newest| ==> newest[i] > newest[j])
            && (forall id :: id in newest <==> id in found)
  {
    hide SortBy;
    SortBySorts(found, NEGATED);
    var newest := SortBy(found, NEGATED);
    DistinctStays(found, newest);
    forall id ensures id in newest <==> id in found {
      assert id in multiset(newest) <==> id in multiset(found);
    }
    forall i, j | 0 <= i < j < |newest| ensures newest[i] > newest[j] {
      assert NEGATED(newest[i]) <= NEGATED(newest[j]);
    }
  }

  lemma FirstAreRun(s: State, parent: Path, newest: seq<nat>, n: nat, id: nat)
    requires Consistent(s) && n <= |newest| && id in Reversed(newest[..n])
    requires forall i, j :: 0 <= i < j < |newest| ==> newest[i] > newest[j]
    requires forall j :: j in newest <==> Candidate(s, parent, j)
    requires forall i :: 0 <= i < n ==> FreshKey(s, newest[i])
    ensures InRun(s, parent, s.nextId, id)
  {
    var r := Reversed(newest[..n]);
    var i :| 0 <= i < |r| && r[i] == id;
    var k := n - 1 - i;
    assert newest[k] == id;
    assert id in newest;
    assert Placed(s, id);
    forall j | id <= j < s.nextId && Candidate(s, parent, j) ensures FreshKey(s, j) {
      var l :| 0 <= l < |newest| && newest[l] == j;
      assert l <= k;
    }
  }

  lemma RunIsFirst(s: State, parent: Path, newest: seq<nat>, n: nat, id: nat)
    requires Consistent(s) && n <= |newest| && InRun(s, parent, s.nextId, id)
    requires forall i, j :: 0 <= i < j < |newest| ==> newest[i] > newest[j]
    requires forall j :: j in newest <==> Candidate(s, parent, j)
    requires n < |newest| ==> !FreshKey(s, newest[n])
    ensures id in Reversed(newest[..n])
  {
    assert id in newest;
    var k :| 0 <= k < |newest| && newest[k] == id;
    if n < |newest| {
      assert newest[n] in newest;
      assert Placed(s, newest[n]);
      assert newest[n] < id;
    }
    assert k < n;
    assert Reversed(newest[..n])[n - 1 - k] == id;
  }
}
