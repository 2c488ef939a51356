/** internal/memory/lanes.go: one typed memory lane, its five-state lifecycle and the undo stack.
    Entries are values in the lane's map; uuids and timestamps come in as parameters. */
module Lanes {
  import opened Basics

  datatype Status = Pending | Approved | Retired | Forgotten | Deferred

  // `body` stands for the fields no transition touches.
  datatype Entry = Entry(id: string, content: string, source: string, timestamp: int, body: string,
                         status: Status, history: seq<Status>)

  datatype LaneValue = LaneValue(entries: map<string, Entry>, order: seq<string>)

  datatype Op =
    | Submit(id: string, content: string, source: string, timestamp: int)
    | Approve(id: string)
    | Reject(id: string)
    | Retire(id: string)
    | Forget(id: string)
    | Defer(id: string)
    | Withdraw(id: string)
    | Undo(id: string)

  // ---- transitions ----

  /** Where a transition takes a status, if it is allowed from there. */
  function Target(op: Op, s: Status): Option<Status> {
    match op
    case Approve(_) => if s.Pending? then Some(Approved) else None
    case Reject(_) => if s.Pending? then Some(Forgotten) else None
    case Retire(_) => if s.Approved? then Some(Retired) else None
    case Forget(_) => Some(Forgotten)
    case Defer(_) => if s.Pending? || s.Deferred? then Some(Deferred) else None
    case Withdraw(_) => if s.Approved? || s.Deferred? then Some(Pending) else None
    case _ => None
  }

  function EntryStep(e: Entry, op: Op): Option<Entry> {
    if op.Undo? then
      if e.history == [] then None
      else Some(e.(status := e.history[|e.history| - 1], history := e.history[..|e.history| - 1]))
    else match Target(op, e.status)
      case Some(t) => Some(e.(status := t, history := e.history + [e.status]))
      case None => None
  }

  function NewEntry(op: Op): Entry
    requires op.Submit?
  {
    Entry(op.id, op.content, op.source, op.timestamp, "", Pending, [])
  }

  function Step(l: LaneValue, op: Op): (LaneValue, bool) {
    if op.Submit? then (LaneValue(l.entries[op.id := NewEntry(op)], l.order + [op.id]), true)
    else if op.id !in l.entries then (l, false)
    else match EntryStep(l.entries[op.id], op)
      case Some(e) => (l.(entries := l.entries[op.id := e]), true)
      case None => (l, false)
  }

  // ---- the lane object ----

  function WithStatus(l: LaneValue, st: Status): seq<Entry>
    requires forall i :: 0 <= i < |l.order| ==> l.order[i] in l.entries
    decreases |l.order|
  {
    if l.order == [] then []
    else
      var n := |l.order| - 1;
      WithStatus(l.(order := l.order[..n]), st) +
      if l.entries[l.order[n]].status == st then [l.entries[l.order[n]]] else []
  }

  lemma SelectNext(l: LaneValue, st: Status, i: nat)
    requires i < |l.order| && forall j :: 0 <= j < |l.order| ==> l.order[j] in l.entries
    ensures WithStatus(LaneValue(l.entries, l.order[..i + 1]), st) ==
            WithStatus(LaneValue(l.entries, l.order[..i]), st) +
            if l.entries[l.order[i]].status == st then [l.entries[l.order[i]]] else []
  {
    assert l.order[..i + 1][..i] == l.order[..i];
  }

  class Lane {
    var entries: map<string, Entry>
    var order: seq<string>

    function Value(): LaneValue
      reads this
    {
      LaneValue(entries, order)
    }

    constructor ()
      ensures Value() == LaneValue(map[], [])
    {
      entries, order := map[], [];
    }

    method Submit(id: string, content: string, source: string, timestamp: int)
      requires id !in entries
      modifies this
      ensures Value() == Step(old(Value()), Op.Submit(id, content, source, timestamp)).0
    {
      var e := Entry(id, content, source, timestamp, "", Pending, []);
      entries := entries[id := e];
      order := order + [id];
    }

    method PushHistory(id: string, st: Status)
      requires id in entries
      modifies `entries
      ensures var e := old(entries)[id];
              entries == old(entries)[id := e.(status := st, history := e.history + [e.status])]
    {
      var e := entries[id];
      e := e.(history := e.history + [e.status]);
      entries := entries[id := e.(status := st)];
    }

    method Approve(id: string) returns (ok: bool)
      modifies `entries
      ensures (Value(), ok) == Step(old(Value()), Op.Approve(id))
    {
      if id !in entries || !entries[id].status.Pending? {
        return false;
      }
      PushHistory(id, Approved);
      return true;
    }

    method Reject(id: string) returns (ok: bool)
      modifies `entries
      ensures (Value(), ok) == Step(old(Value()), Op.Reject(id))
    {
      if id !in entries || !entries[id].status.Pending? {
        return false;
      }
      PushHistory(id, Forgotten);
      return true;
    }

    method Retire(id: string) returns (ok: bool)
      modifies `entries
      ensures (Value(), ok) == Step(old(Value()), Op.Retire(id))
    {
      if id !in entries || !entries[id].status.Approved? {
        return false;
      }
      PushHistory(id, Retired);
      return true;
    }

    method Forget(id: string) returns (ok: bool)
      modifies `entries
      ensures (Value(), ok) == Step(old(Value()), Op.Forget(id))
    {
      if id !in entries {
        return false;
      }
      PushHistory(id, Forgotten);
      return true;
    }

    method Defer(id: string) returns (ok: bool)
      modifies `entries
      ensures (Value(), ok) == Step(old(Value()), Op.Defer(id))
    {
      if id !in entries || (!entries[id].status.Pending? && !entries[id].status.Deferred?) {
        return false;
      }
      PushHistory(id, Deferred);
      return true;
    }

    method Withdraw(id: string) returns (ok: bool)
      modifies `entries
      ensures (Value(), ok) == Step(old(Value()), Op.Withdraw(id))
    {
      if id !in entries || (!entries[id].status.Approved? && !entries[id].status.Deferred?) {
        return false;
      }
      PushHistory(id, Pending);
      return true;
    }

    method Undo(id: string) returns (ok: bool)
      modifies `entries
      ensures (Value(), ok) == Step(old(Value()), Op.Undo(id))
    {
      if id !in entries || |entries[id].history| == 0 {
        return false;
      }
      var e := entries[id];
      var prev := e.history[|e.history| - 1];
      e := e.(history := e.history[..|e.history| - 1]);
      entries := entries[id := e.(status := prev)];
      return true;
    }

    /** The loop of Truth, Pending and Deferred, which differ only in the status they keep. */
    method Select(st: Status) returns (result: seq<Entry>)
      requires Inv(Value())
      ensures result == WithStatus(Value(), st)
    {
      result := [];
      for i := 0 to |order|
        invariant result == WithStatus(LaneValue(entries, order[..i]), st)
      {
        SelectNext(Value(), st, i);
        var e := entries[order[i]];
        if e.status == st {
          result := result + [e];
        }
      }
      assert order[..|order|] == order;
    }

    method Truth() returns (result: seq<Entry>)
      requires Inv(Value())
      ensures result == WithStatus(Value(), Approved)
      // every truth was a pending candidate just before its approval
      ensures forall e :: e in result ==> e.history != [] && e.history[|e.history| - 1].Pending?
    {
      result := Select(Approved);
      SelectedHaveStatus(Value(), Approved);
      forall e | e in result ensures e.history != [] && e.history[|e.history| - 1].Pending? {
        ApprovedFromPending(Value(), e);
      }
    }
  }

  // ---- every reachable lane ----

  /** The lifecycle as a table. */
  predicate Legal(s: Status, t: Status) {
    match s
    case Pending => t in {Approved, Forgotten, Deferred}
    case Approved => t in {Retired, Forgotten, Pending}
    case Retired => t == Forgotten
    case Forgotten => t == Forgotten
    case Deferred => t in {Deferred, Pending, Forgotten}
  }

  /** The statuses an entry has gone through, oldest first, up to the current one. */
  function Trail(e: Entry): seq<Status> {
    e.history + [e.status]
  }

  /** A path of legal transitions that starts at pending. */
  predicate LegalPath(p: seq<Status>) {
    p != [] && p[0] == Pending && forall i :: 0 < i < |p| ==> Legal(p[i - 1], p[i])
  }

  predicate Inv(l: LaneValue) {
    && (forall i :: 0 <= i < |l.order| ==> l.order[i] in l.entries)
    && (forall i, j :: 0 <= i < j < |l.order| ==> l.order[i] != l.order[j])
    && (forall id :: id in l.entries ==> id in l.order && LegalPath(Trail(l.entries[id])))
  }

  lemma EntryStepLegal(e: Entry, op: Op)
    requires LegalPath(Trail(e)) && EntryStep(e, op).Some?
    ensures LegalPath(Trail(EntryStep(e, op).value))
  {
    var p, q := Trail(e), Trail(EntryStep(e, op).value);
    if op.Undo? {
      assert q == p[..|p| - 1];
    } else {
      assert q == p + [q[|p|]];
    }
  }

  // A submitted id is fresh.
  predicate Possible(l: LaneValue, op: Op) {
    op.Submit? ==> op.id !in l.entries
  }

  lemma StepKeepsInv(l: LaneValue, op: Op)
    requires Inv(l) && Possible(l, op)
    ensures Inv(Step(l, op).0)
  {
    if op.Submit? {
      var l' := Step(l, op).0;
      forall id | id in l'.entries ensures id in l'.order {
        if id == op.id { assert l'.order[|l.order|] == id; }
      }
    } else if op.id in l.entries && EntryStep(l.entries[op.id], op).Some? {
      EntryStepLegal(l.entries[op.id], op);
    }
  }

  function Run(l: LaneValue, ops: seq<Op>): LaneValue
    decreases ops
  {
    if ops == [] then l else Run(Step(l, ops[0]).0, ops[1..])
  }

  ghost predicate PossibleRun(l: LaneValue, ops: seq<Op>)
    decreases ops
  {
    ops == [] || (Possible(l, ops[0]) && PossibleRun(Step(l, ops[0]).0, ops[1..]))
  }

  /** In every reachable lane each entry's history followed by its status is a legal path from
      pending, and the order lists each entry once. */
  lemma {:induction false} RunKeepsInv(l: LaneValue, ops: seq<Op>)
    requires Inv(l) && PossibleRun(l, ops)
    ensures Inv(Run(l, ops))
    decreases ops
  {
    if ops != [] {
      StepKeepsInv(l, ops[0]);
      RunKeepsInv(Step(l, ops[0]).0, ops[1..]);
    }
  }

  /** An approved entry was pending right before. */
  lemma ApprovedFromPending(l: LaneValue, e: Entry)
    requires Inv(l) && (exists id :: id in l.entries && l.entries[id] == e) && e.status.Approved?
    ensures e.history != [] && e.history[|e.history| - 1].Pending?
  {
    var p := Trail(e);
    assert |p| > 1;
    var n := |p| - 1;
    assert Legal(p[n - 1], p[n]);
    assert p[n - 1] == e.history[|e.history| - 1];
  }

  lemma {:induction false} SelectedHaveStatus(l: LaneValue, st: Status)
    requires forall i :: 0 <= i < |l.order| ==> l.order[i] in l.entries
    ensures forall e :: e in WithStatus(l, st) ==> e.status == st && exists id :: id in l.entries && l.entries[id] == e
    decreases |l.order|
  {
    if l.order != [] {
      SelectedHaveStatus(l.(order := l.order[..|l.order| - 1]), st);
    }
  }

  /** All entries in insertion order. */
  function All(l: LaneValue): seq<Entry>
    requires forall i :: 0 <= i < |l.order| ==> l.order[i] in l.entries
  {
    seq(|l.order|, i requires 0 <= i < |l.order| => l.entries[l.order[i]])
  }

  lemma {:induction false} SelectedCount(l: LaneValue, st: Status, e: Entry)
    requires forall i :: 0 <= i < |l.order| ==> l.order[i] in l.entries
    ensures multiset(WithStatus(l, st))[e] == if e.status == st then multiset(All(l))[e] else 0
    decreases |l.order|
  {
    if l.order != [] {
      var n := |l.order| - 1;
      var l' := l.(order := l.order[..n]);
      var x := l.entries[l.order[n]];
      SelectedCount(l', st, e);
      AllSnoc(l);
      var tail := if x.status == st then [x] else [];
      assert WithStatus(l, st) == WithStatus(l', st) + tail;
      CountConcat(All(l'), [x], e);
      CountConcat(WithStatus(l', st), tail, e);
    }
  }

  lemma AllSnoc(l: LaneValue)
    requires l.order != [] && forall i :: 0 <= i < |l.order| ==> l.order[i] in l.entries
    ensures var n := |l.order| - 1;
            All(l) == All(l.(order := l.order[..n])) + [l.entries[l.order[n]]]
  {
  }

  lemma CountConcat<T>(a: seq<T>, b: seq<T>, x: T)
    ensures multiset(a + b)[x] == multiset(a)[x] + multiset(b)[x]
  {
  }

  /** The five selections together. */
  function ByStatus(l: LaneValue): multiset<Entry>
    requires forall i :: 0 <= i < |l.order| ==> l.order[i] in l.entries
  {
    multiset(WithStatus(l, Pending)) + multiset(WithStatus(l, Approved)) + multiset(WithStatus(l, Retired)) +
    multiset(WithStatus(l, Forgotten)) + multiset(WithStatus(l, Deferred))
  }

  lemma PartitionAt(l: LaneValue, e: Entry)
    requires forall i :: 0 <= i < |l.order| ==> l.order[i] in l.entries
    ensures multiset(All(l))[e] == ByStatus(l)[e]
  {
    SelectedCount(l, Pending, e);
    SelectedCount(l, Approved, e);
    SelectedCount(l, Retired, e);
    SelectedCount(l, Forgotten, e);
    SelectedCount(l, Deferred, e);
  }

  /** The five statuses partition the lane: every entry is selected by exactly one of them. */
  lemma StatusesPartition(l: LaneValue)
    requires forall i :: 0 <= i < |l.order| ==> l.order[i] in l.entries
    ensures multiset(All(l)) == ByStatus(l)
  {
    forall e: Entry ensures multiset(All(l))[e] == ByStatus(l)[e] {
      PartitionAt(l, e);
    }
  }

  /** An operation touches the entry it names and no other: approving one entry retires none, so
      two approved entries may well carry the same content. */
  lemma OnlyNamedEntryMoves(l: LaneValue, op: Op)
    ensures forall id :: id in l.entries && id != op.id ==>
              id in Step(l, op).0.entries && Step(l, op).0.entries[id] == l.entries[id]
    ensures op.Approve? && op.id in l.entries && l.entries[op.id].status.Pending? ==>
              WithApproved(Step(l, op).0) == WithApproved(l) + {op.id}
  {
    if op.Approve? && op.id in l.entries && l.entries[op.id].status.Pending? {
      forall id ensures id in WithApproved(Step(l, op).0) <==> id in WithApproved(l) + {op.id} {}
    }
  }

  /** No two truths say the same. */
  predicate NoOverlap(l: LaneValue) {
    forall a, b :: a in WithApproved(l) && b in WithApproved(l) && a != b ==>
      l.entries[a].content != l.entries[b].content
  }

  /** After an approval no two truths overlap exactly when none did before and none said what the
      approved entry says: nothing is retired to make room for it. */
  lemma ApproveOverlapIff(l: LaneValue, id: string)
    requires Step(l, Approve(id)).1
    ensures NoOverlap(Step(l, Approve(id)).0) <==>
            && NoOverlap(l)
            && forall a :: a in WithApproved(l) ==> l.entries[a].content != l.entries[id].content
  {
    var l' := Step(l, Approve(id)).0;
    OnlyNamedEntryMoves(l, Approve(id));
    assert id !in WithApproved(l) && id in WithApproved(l') && l'.entries[id].content == l.entries[id].content;
    if NoOverlap(l') {
      forall a, b | a in WithApproved(l) && b in WithApproved(l) && a != b
        ensures l.entries[a].content != l.entries[b].content
      {
        assert a in WithApproved(l') && b in WithApproved(l');
      }
      forall a | a in WithApproved(l) ensures l.entries[a].content != l.entries[id].content {
        assert a in WithApproved(l');
      }
    }
  }

  /** Two entries with the same content, both approved and both still truths. */
  lemma OverlappingTruths(a: string, b: string, content: string)
    requires a != b
    ensures var ops := [Submit(a, content, "", 0), Submit(b, content, "", 0), Approve(a), Approve(b)];
            var l := Run(LaneValue(map[], []), ops);
            && l.order == [a, b] && a in l.entries && b in l.entries
            && l.entries[a].content == l.entries[b].content == content
            && l.entries[a].status == l.entries[b].status == Approved
  {
    var l0 := LaneValue(map[], []);
    var ops := [Submit(a, content, "", 0), Submit(b, content, "", 0), Approve(a), Approve(b)];
    var l1 := Step(l0, ops[0]).0;
    var l2 := Step(l1, ops[1]).0;
    var l3 := Step(l2, ops[2]).0;
    assert Run(l0, ops) == Run(l1, ops[1..]);
    assert Run(l1, ops[1..]) == Run(l2, ops[1..][1..]);
    assert Run(l2, ops[1..][1..]) == Run(l3, ops[1..][1..][1..]);
    assert ops[1..][1..][1..] == [Approve(b)] && [Approve(b)][1..] == [];
    assert Run(l3, [Approve(b)]) == Run(Step(l3, Approve(b)).0, []);
  }

  function WithApproved(l: LaneValue): set<string> {
    set id | id in l.entries && l.entries[id].status.Approved?
  }

  // ---- undo ----

  /** Along the run the entry's undo stack never gets shorter than `depth`. */
  ghost predicate NeverBelow(l: LaneValue, ops: seq<Op>, id: string, depth: nat)
    decreases ops
  {
    && (id in l.entries ==> |l.entries[id].history| >= depth)
    && (ops != [] ==> NeverBelow(Step(l, ops[0]).0, ops[1..], id, depth))
  }

  // One entry is the other with more on its undo stack.
  predicate Extends(base: Entry, e: Entry) {
    Trail(base) <= Trail(e) && e.(status := base.status, history := base.history) == base
  }

  lemma EntryStepExtends(base: Entry, e: Entry, op: Op)
    requires Extends(base, e) && EntryStep(e, op).Some?
    requires |EntryStep(e, op).value.history| >= |base.history|
    ensures Extends(base, EntryStep(e, op).value)
  {
    var q := EntryStep(e, op).value;
    if op.Undo? {
      assert Trail(q) == Trail(e)[..|Trail(e)| - 1];
    } else {
      assert Trail(q) == Trail(e) + [q.status];
    }
  }

  lemma {:induction false} RunExtends(base: Entry, l: LaneValue, ops: seq<Op>, id: string)
    requires id in l.entries && Extends(base, l.entries[id])
    requires PossibleRun(l, ops) && NeverBelow(l, ops, id, |base.history|)
    ensures id in Run(l, ops).entries && Extends(base, Run(l, ops).entries[id])
    decreases ops
  {
    if ops != [] {
      var l' := Step(l, ops[0]).0;
      assert id in l'.entries && |l'.entries[id].history| >= |base.history| by {
        assert NeverBelow(l', ops[1..], id, |base.history|);
      }
      if ops[0].id == id && !ops[0].Submit? && EntryStep(l.entries[id], ops[0]).Some? {
        EntryStepExtends(base, l.entries[id], ops[0]);
      }
      RunExtends(base, l', ops[1..], id);
    }
  }

  /** Undo is exact: a run that brings an entry's undo stack back to its length without ever
      having dug below it leaves the entry exactly as it was, whatever happened in between, to it
      or to others, and whichever of the operations were refused. */
  lemma UndoRestoresEntry(l: LaneValue, ops: seq<Op>, id: string)
    requires id in l.entries && PossibleRun(l, ops)
    requires NeverBelow(l, ops, id, |l.entries[id].history|)
    ensures id in Run(l, ops).entries
    ensures |Run(l, ops).entries[id].history| == |l.entries[id].history| ==> Run(l, ops).entries[id] == l.entries[id]
  {
    RunExtends(l.entries[id], l, ops, id);
    var e, f := l.entries[id], Run(l, ops).entries[id];
    if |f.history| == |e.history| {
      assert Trail(f) == Trail(e);
      assert Trail(f)[..|f.history|] == f.history && Trail(e)[..|e.history|] == e.history;
      assert Trail(f)[|f.history|] == f.status;
    }
  }

  /** Properly nested transitions and undos, across any entries. */
  datatype Nest = Empty | Wrap(op: Op, inner: Nest, rest: Nest)

  function Flatten(n: Nest): seq<Op> {
    match n
    case Empty => []
    case Wrap(op, inner, rest) => [op] + Flatten(inner) + [Undo(op.id)] + Flatten(rest)
  }

  /** Every transition of the nest is one and succeeds when its turn comes. */
  predicate Succeeds(l: LaneValue, n: Nest)
    decreases n
  {
    match n
    case Empty => true
    case Wrap(op, inner, rest) =>
      && !op.Submit? && !op.Undo? && Step(l, op).1
      && Succeeds(Step(l, op).0, inner) && Succeeds(l, rest)
  }

  lemma {:induction false} RunConcat(l: LaneValue, a: seq<Op>, b: seq<Op>)
    ensures Run(l, a + b) == Run(Run(l, a), b)
    decreases a
  {
    if a == [] {
      assert a + b == b;
    } else {
      assert (a + b)[1..] == a[1..] + b;
      RunConcat(Step(l, a[0]).0, a[1..], b);
    }
  }

  lemma UndoReverts(l: LaneValue, op: Op)
    requires !op.Submit? && !op.Undo? && Step(l, op).1
    ensures Step(Step(l, op).0, Undo(op.id)) == (l, true)
  {
    var e := l.entries[op.id];
    var f := EntryStep(e, op).value;
    assert f.history[..|f.history| - 1] == e.history;
    assert l.entries[op.id := f][op.id := e] == l.entries;
  }

  /** A properly nested sequence of successful transitions and their undos restores the lane
      exactly. */
  lemma {:induction false} NestRestoresLane(l: LaneValue, n: Nest)
    requires Succeeds(l, n)
    ensures Run(l, Flatten(n)) == l
    decreases n
  {
    match n {
      case Empty =>
      case Wrap(op, inner, rest) =>
        var a, b, c, d := [op], Flatten(inner), [Undo(op.id)], Flatten(rest);
        RunConcat(l, a + b + c, d);
        RunConcat(l, a + b, c);
        RunConcat(l, a, b);
        assert Run(l, a) == Step(l, op).0;
        NestRestoresLane(Step(l, op).0, inner);
        UndoReverts(l, op);
        assert Run(Step(l, op).0, c) == Step(Step(l, op).0, Undo(op.id)).0;
        NestRestoresLane(l, rest);
    }
  }

  // ---- each operation by itself ----

  /** The operation works exactly from the given statuses; then it takes the entry to `to` and puts the
      status it had on the stack, and otherwise it changes nothing. */
  predicate Moves(l: LaneValue, op: Op, from: set<Status>, to: Status)
    requires !op.Submit?
  {
    var (l', ok) := Step(l, op);
    && (ok <==> op.id in l.entries && l.entries[op.id].status in from)
    && (ok ==>
        var e := l.entries[op.id];
        l' == l.(entries := l.entries[op.id := e.(status := to, history := e.history + [e.status])]))
    && (!ok ==> l' == l)
  }

  /** What the six transitions do. */
  lemma TransitionsMove(l: LaneValue, id: string)
    ensures Moves(l, Approve(id), {Pending}, Approved)
    ensures Moves(l, Reject(id), {Pending}, Forgotten)
    ensures Moves(l, Retire(id), {Approved}, Retired)
    ensures Moves(l, Forget(id), {Pending, Approved, Retired, Forgotten, Deferred}, Forgotten)
    ensures Moves(l, Defer(id), {Pending, Deferred}, Deferred)
    ensures Moves(l, Withdraw(id), {Approved, Deferred}, Pending)
  {
  }

  /** An undo works exactly when the entry has a stack, and takes its top back; a submission is pending,
      with an empty stack, behind all others. */
  lemma UndoAndSubmit(l: LaneValue, id: string, content: string, source: string, timestamp: int)
    ensures var (l', ok) := Step(l, Undo(id));
            && (ok <==> id in l.entries && l.entries[id].history != [])
            && (!ok ==> l' == l)
            && (ok ==>
                l' == l.(entries := l'.entries) && l'.entries.Keys == l.entries.Keys &&
                (forall x :: x in l.entries && x != id ==> l'.entries[x] == l.entries[x]) &&
                l'.entries[id].history + [l'.entries[id].status] == l.entries[id].history &&
                l'.entries[id] == l.entries[id].(status := l'.entries[id].status, history := l'.entries[id].history))
    ensures var l' := Step(l, Submit(id, content, source, timestamp)).0;
            && l'.order == l.order + [id] && l'.entries.Keys == l.entries.Keys + {id}
            && l'.entries[id] == Entry(id, content, source, timestamp, "", Pending, [])
            && forall x :: x in l.entries && x != id ==> l'.entries[x] == l.entries[x]
  {
  }

  /** A selection goes through the lane in insertion order: each further entry comes last, and exactly when
      it has the status. */
  lemma SelectionInOrder(entries: map<string, Entry>, order: seq<string>, id: string, st: Status)
    requires id in entries && forall i :: 0 <= i < |order| ==> order[i] in entries
    ensures WithStatus(LaneValue(entries, []), st) == []
    ensures WithStatus(LaneValue(entries, order + [id]), st) ==
            WithStatus(LaneValue(entries, order), st) + if entries[id].status == st then [entries[id]] else []
  {
    var l := LaneValue(entries, order + [id]);
    assert l.order[..|order|] == order && l.(order := order) == LaneValue(entries, order);
  }
}
