/** What the scheduler of internal/dispatch promises over whole runs: selection ignores slice
    layout, so batching cannot be observed; nothing is lost or served twice; an idle queue drains
    in priority order; and a connector waits for a bounded number of agent items. */
module QueuePolicy {
  import opened Numerals
  import opened InvocationQueue

  // ---- the invariant ----

  /** Sequence numbers are distinct and none exceeds the last one handed out. */
  ghost predicate Inv(s: State) {
    && (forall i :: 0 <= i < |s.items| ==> s.items[i].seqNo <= s.lastSeq)
    && (forall i, j :: 0 <= i < j < |s.items| ==> s.items[i].seqNo != s.items[j].seqNo)
  }

  lemma PutKeepsInv(s: State, item: QueueItem)
    requires Inv(s)
    ensures Inv(Put(s, item))
  {
  }

  lemma TakeKeepsInv(s: State)
    requires Inv(s) && s.items != []
    ensures Inv(Take(s))
  {
  }

  lemma StepKeepsInv(s: State, op: Op)
    requires Inv(s)
    ensures Inv(Step(s, op).0)
  {
    if op.Enqueue? {
      PutKeepsInv(s, op.item);
    } else if Step(s, op).0 != s && s.items != [] && (op.Dequeue? || op.TryAutoExecute?) {
      TakeKeepsInv(s);
    }
  }

  // ---- selection by rank, not by position ----

  /** `x` outranks every other item in the bag. */
  ghost predicate IsBest(x: QueueItem, bag: multiset<QueueItem>, promote: bool) {
    && x in bag
    && forall y :: y in bag && y != x ==> Better(x, y, promote)
  }

  lemma {:induction false} ScanFindsBest(items: seq<QueueItem>, promote: bool, n: nat)
    requires 0 < n <= |items|
    requires forall i, j :: 0 <= i < j < |items| ==> items[i].seqNo != items[j].seqNo
    ensures forall j :: 0 <= j < n && j != BestOf(items, promote, n) ==>
              Better(items[BestOf(items, promote, n)], items[j], promote)
  {
    if n > 1 {
      ScanFindsBest(items, promote, n - 1);
    }
  }

  lemma SelectedIsBest(s: State)
    requires Inv(s) && s.items != []
    ensures IsBest(s.items[SelectIndex(s)], multiset(s.items), Promoting(s))
  {
    ScanFindsBest(s.items, Promoting(s), |s.items|);
  }

  lemma BestIsUnique(x: QueueItem, y: QueueItem, bag: multiset<QueueItem>, promote: bool)
    requires IsBest(x, bag, promote) && IsBest(y, bag, promote)
    ensures x == y
  {
  }

  lemma RemoveAtBag(items: seq<QueueItem>, i: nat)
    requires i < |items|
    ensures multiset(RemoveAt(items, i)) == multiset(items) - multiset{items[i]}
  {
    assert items == items[..i] + [items[i]] + items[i + 1..];
  }

  lemma InsertBag(items: seq<QueueItem>, i: nat, x: QueueItem)
    requires i <= |items|
    ensures multiset(items[..i] + [x] + items[i..]) == multiset(items) + multiset{x}
  {
    assert items == items[..i] + items[i..];
  }

  // ---- batching is invisible ----

  /** Two queues that hold the same items, whatever the slice order and the batching flag. */
  ghost predicate SameButLayout(s: State, t: State) {
    && multiset(s.items) == multiset(t.items)
    && s.lastSeq == t.lastSeq && s.a2aBusy == t.a2aBusy
    && s.agentServed == t.agentServed && s.starveLimit == t.starveLimit
  }

  lemma SameFlags(s: State, t: State, threadId: string)
    requires SameButLayout(s, t)
    ensures Promoting(s) == Promoting(t)
    ensures |s.items| == |t.items|
    ensures (exists i :: 0 <= i < |s.items| && WaitsOnThread(s.items[i], threadId)) <==>
            (exists i :: 0 <= i < |t.items| && WaitsOnThread(t.items[i], threadId))
  {
    assert |multiset(s.items)| == |s.items|;
    forall x ensures x in s.items <==> x in t.items {
      assert x in s.items <==> x in multiset(s.items);
    }
    if i :| 0 <= i < |s.items| && s.items[i].kind == Connector {
      assert s.items[i] in t.items;
    }
    if i :| 0 <= i < |t.items| && t.items[i].kind == Connector {
      assert t.items[i] in s.items;
    }
    if i :| 0 <= i < |s.items| && WaitsOnThread(s.items[i], threadId) {
      assert s.items[i] in t.items;
    }
    if i :| 0 <= i < |t.items| && WaitsOnThread(t.items[i], threadId) {
      assert t.items[i] in s.items;
    }
  }

  lemma SameSelection(s: State, t: State)
    requires Inv(s) && Inv(t) && SameButLayout(s, t) && s.items != [] && t.items != []
    ensures s.items[SelectIndex(s)] == t.items[SelectIndex(t)]
    ensures SameButLayout(Take(s), Take(t))
  {
    SameFlags(s, t, "");
    SelectedIsBest(s);
    SelectedIsBest(t);
    BestIsUnique(s.items[SelectIndex(s)], t.items[SelectIndex(t)], multiset(s.items), Promoting(s));
    RemoveAtBag(s.items, SelectIndex(s));
    RemoveAtBag(t.items, SelectIndex(t));
  }

  /** One operation on two queues that differ in layout only: same answer, same items again. */
  lemma StepIgnoresLayout(s: State, t: State, op: Op)
    requires Inv(s) && Inv(t) && SameButLayout(s, t)
    ensures Step(s, op).1 == Step(t, op).1
    ensures SameButLayout(Step(s, op).0, Step(t, op).0)
  {
    match op {
      case Enqueue(item) =>
        InsertBag(s.items, InsertAt(s, item), Stamped(s, item));
        InsertBag(t.items, InsertAt(t, item), Stamped(t, item));
      case HasQueuedNonAgent(threadId) => SameFlags(s, t, threadId);
      case SetA2ASaturation(_) =>
      case SetBatching(_) =>
      case _ => SameTake(s, t, op);
    }
  }

  lemma SameTake(s: State, t: State, op: Op)
    requires Inv(s) && Inv(t) && SameButLayout(s, t)
    requires op.Dequeue? || op.Peek? || op.TryAutoExecute?
    ensures Step(s, op).1 == Step(t, op).1
    ensures SameButLayout(Step(s, op).0, Step(t, op).0)
  {
    SameFlags(s, t, "");
    match op {
      case Dequeue => if s.items != [] { SameSelection(s, t); }
      case Peek => if s.items != [] { SameSelection(s, t); }
      case TryAutoExecute => if s.items != [] { SameSelection(s, t); }
      case _ =>
    }
  }

  function Run(s: State, ops: seq<Op>): State
    decreases ops
  {
    if ops == [] then s else Run(Step(s, ops[0]).0, ops[1..])
  }

  /** The answers of a run, one per operation that is not a batching switch. */
  function Answers(s: State, ops: seq<Op>): seq<Output>
    decreases ops
  {
    if ops == [] then []
    else (if ops[0].SetBatching? then [] else [Step(s, ops[0]).1]) + Answers(Step(s, ops[0]).0, ops[1..])
  }

  function WithoutSwitches(ops: seq<Op>): seq<Op> {
    if ops == [] then []
    else (if ops[0].SetBatching? then [] else [ops[0]]) + WithoutSwitches(ops[1..])
  }

  lemma {:induction false} RunKeepsInv(s: State, ops: seq<Op>)
    requires Inv(s)
    ensures Inv(Run(s, ops))
    decreases ops
  {
    if ops != [] {
      StepKeepsInv(s, ops[0]);
      RunKeepsInv(Step(s, ops[0]).0, ops[1..]);
    }
  }

  /** Batching cannot be observed: dropping every switch of it, from queues that may start with
      different flags and layouts, leaves every dequeue, peek, auto-execution and answer as it was. */
  lemma {:induction false} BatchingInvisible(s: State, t: State, ops: seq<Op>)
    requires Inv(s) && Inv(t) && SameButLayout(s, t)
    ensures Answers(s, ops) == Answers(t, WithoutSwitches(ops))
    ensures SameButLayout(Run(s, ops), Run(t, WithoutSwitches(ops)))
    decreases ops
  {
    if ops != [] {
      StepKeepsInv(s, ops[0]);
      var s' := Step(s, ops[0]).0;
      if ops[0].SetBatching? {
        assert WithoutSwitches(ops) == WithoutSwitches(ops[1..]);
        BatchingInvisible(s', t, ops[1..]);
      } else {
        var rest := WithoutSwitches(ops[1..]);
        assert WithoutSwitches(ops) == [ops[0]] + rest && ([ops[0]] + rest)[1..] == rest;
        StepKeepsInv(t, ops[0]);
        StepIgnoresLayout(s, t, ops[0]);
        BatchingInvisible(s', Step(t, ops[0]).0, ops[1..]);
      }
    }
  }

  /** With batching on, a user's item is queued right behind that user's last queued item. */
  lemma BatchedBehindSameUser(s: State, item: QueueItem)
    requires s.batching && item.kind.User? && item.user != ""
    requires exists i :: 0 <= i < |s.items| && s.items[i].kind.User? && s.items[i].user == item.user
    ensures var at := InsertAt(s, item);
            && 0 < at && Put(s, item).items[at] == Stamped(s, item)
            && Put(s, item).items[at - 1].kind.User? && Put(s, item).items[at - 1].user == item.user
            && forall j :: at < j < |Put(s, item).items| ==>
                 !(Put(s, item).items[j].kind.User? && Put(s, item).items[j].user == item.user)
  {
    AfterLastIsLast(s.items, item.user, |s.items|);
  }

  lemma {:induction false} AfterLastIsLast(items: seq<QueueItem>, user: string, n: nat)
    requires n <= |items|
    requires exists i :: 0 <= i < n && items[i].kind.User? && items[i].user == user
    ensures var at := AfterLastOf(items, user, n);
            && 0 < at <= n && items[at - 1].kind.User? && items[at - 1].user == user
            && forall j :: at <= j < n ==> !(items[j].kind.User? && items[j].user == user)
  {
    if !(items[n - 1].kind.User? && items[n - 1].user == user) {
      AfterLastIsLast(items, user, n - 1);
    }
  }

  // ---- conservation ----

  // The items an operation brings in and takes out.
  function In(s: State, op: Op): multiset<QueueItem> {
    if op.Enqueue? then multiset{Stamped(s, op.item)} else multiset{}
  }

  function Out(s: State, op: Op): multiset<QueueItem> {
    match Step(s, op).1
    case Dequeued(x) => multiset{x}
    case Executed(x) => multiset{x}
    case _ => multiset{}
  }

  function AllIn(s: State, ops: seq<Op>): multiset<QueueItem>
    decreases ops
  {
    if ops == [] then multiset{} else In(s, ops[0]) + AllIn(Step(s, ops[0]).0, ops[1..])
  }

  function AllOut(s: State, ops: seq<Op>): multiset<QueueItem>
    decreases ops
  {
    if ops == [] then multiset{} else Out(s, ops[0]) + AllOut(Step(s, ops[0]).0, ops[1..])
  }

  lemma Balance<T>(last: multiset<T>, mid: multiset<T>, first: multiset<T>,
      out: multiset<T>, outs: multiset<T>, into: multiset<T>, intos: multiset<T>)
    requires mid + out == first + into && last + outs == mid + intos
    ensures last + (out + outs) == first + (into + intos)
  {
    forall x ensures (last + (out + outs))[x] == (first + (into + intos))[x] {
      assert (mid + out)[x] == (first + into)[x] && (last + outs)[x] == (mid + intos)[x];
    }
  }

  lemma TakeConserves(s: State)
    requires s.items != []
    ensures multiset(Take(s).items) + multiset{s.items[SelectIndex(s)]} == multiset(s.items)
  {
    RemoveAtBag(s.items, SelectIndex(s));
    assert s.items[SelectIndex(s)] in multiset(s.items);
  }

  lemma StepConserves(s: State, op: Op)
    ensures multiset(Step(s, op).0.items) + Out(s, op) == multiset(s.items) + In(s, op)
  {
    if op.Enqueue? {
      InsertBag(s.items, InsertAt(s, op.item), Stamped(s, op.item));
    } else if Step(s, op).1.Dequeued? || Step(s, op).1.Executed? {
      TakeConserves(s);
      assert Step(s, op).0 == Take(s) && Out(s, op) == multiset{s.items[SelectIndex(s)]};
    } else {
      assert Step(s, op).0.items == s.items && Out(s, op) == multiset{};
    }
  }

  /** Over any run, what went in is what came out plus what is still queued, item for item. */
  lemma {:induction false} RunConserves(s: State, ops: seq<Op>)
    ensures multiset(Run(s, ops).items) + AllOut(s, ops) == multiset(s.items) + AllIn(s, ops)
    decreases ops
  {
    if ops != [] {
      var s' := Step(s, ops[0]).0;
      StepConserves(s, ops[0]);
      RunConserves(s', ops[1..]);
      Balance(multiset(Run(s', ops[1..]).items), multiset(s'.items), multiset(s.items),
        Out(s, ops[0]), AllOut(s', ops[1..]), In(s, ops[0]), AllIn(s', ops[1..]));
    }
  }

  // ---- draining ----

  /** Everything a queue serves when it is dequeued until empty. */
  function Drain(s: State): (out: seq<QueueItem>)
    decreases |s.items|
  {
    if s.items == [] then [] else [s.items[SelectIndex(s)]] + Drain(Take(s))
  }

  ghost predicate InServingOrder(items: seq<QueueItem>) {
    forall i, j :: 0 <= i < j < |items| ==> Better(items[i], items[j], false)
  }

  lemma Prepend(x: QueueItem, rest: seq<QueueItem>)
    requires InServingOrder(rest)
    requires forall j :: 0 <= j < |rest| ==> Better(x, rest[j], false)
    ensures InServingOrder([x] + rest)
    ensures multiset([x] + rest) == multiset(rest) + multiset{x}
  {
  }

  /** A queue whose channel is not busy drains to all its items, best priority first and earliest
      arrival first among equals. */
  lemma {:induction false} DrainIsSorted(s: State)
    requires Inv(s) && !s.a2aBusy
    ensures multiset(Drain(s)) == multiset(s.items)
    ensures InServingOrder(Drain(s))
    decreases |s.items|
  {
    if s.items != [] {
      var x := s.items[SelectIndex(s)];
      var rest := Drain(Take(s));
      TakeKeepsInv(s);
      DrainIsSorted(Take(s));
      HeadBeatsRest(s, rest);
      TakeConserves(s);
      Prepend(x, rest);
      assert multiset(Drain(s)) == multiset(Take(s).items) + multiset{x};
    }
  }

  lemma HeadBeatsRest(s: State, rest: seq<QueueItem>)
    requires Inv(s) && !s.a2aBusy && s.items != []
    requires multiset(rest) == multiset(Take(s).items)
    ensures forall j :: 0 <= j < |rest| ==> Better(s.items[SelectIndex(s)], rest[j], false)
  {
    SelectedIsBest(s);
    SeqNosDiffer(s, SelectIndex(s));
    RemoveAtBag(s.items, SelectIndex(s));
    forall j | 0 <= j < |rest| ensures Better(s.items[SelectIndex(s)], rest[j], false) {
      assert rest[j] in multiset(rest);
      assert rest[j] in multiset(s.items);
      assert rest[j] in Take(s).items;
    }
  }

  lemma SeqNosDiffer(s: State, i: nat)
    requires Inv(s) && i < |s.items|
    ensures s.items[i] !in RemoveAt(s.items, i)
  {
  }

  // ---- who is served next to whom ----

  /** `x` is served right before `y`. */
  ghost predicate ServedTogether(out: seq<QueueItem>, x: QueueItem, y: QueueItem) {
    exists i :: 0 <= i < |out| - 1 && out[i] == x && NextIs(out, i, y)
  }

  predicate NextIs(out: seq<QueueItem>, i: nat, y: QueueItem)
    requires i + 1 < |out|
  {
    out[i + 1] == y
  }

  /** Some queued item ranks between the two. */
  ghost predicate RanksBetween(items: seq<QueueItem>, x: QueueItem, y: QueueItem) {
    exists z :: z in items && Better(x, z, false) && Better(z, y, false)
  }

  lemma PositionsTell(out: seq<QueueItem>)
    requires InServingOrder(out)
    ensures forall i, j :: 0 <= i < |out| && 0 <= j < |out| ==> (Better(out[i], out[j], false) <==> i < j)
    ensures forall i, j :: 0 <= i < |out| && 0 <= j < |out| ==> (out[i] == out[j] <==> i == j)
  {
    forall i, j | 0 <= i < |out| && 0 <= j < |out|
      ensures (Better(out[i], out[j], false) <==> i < j) && (out[i] == out[j] <==> i == j)
    {
      if i < j { assert Better(out[i], out[j], false); }
      if j < i { assert Better(out[j], out[i], false); }
    }
  }

  lemma NeighboursInOrder(out: seq<QueueItem>, x: QueueItem, y: QueueItem)
    requires InServingOrder(out) && x in out && y in out && Better(x, y, false)
    ensures ServedTogether(out, x, y) <==> !RanksBetween(out, x, y)
  {
    PositionsTell(out);
    var i :| 0 <= i < |out| && out[i] == x;
    var j :| 0 <= j < |out| && out[j] == y;
    if j == i + 1 {
      assert NextIs(out, i, y);
      forall z | z in out ensures !(Better(x, z, false) && Better(z, y, false)) {
        var k :| 0 <= k < |out| && out[k] == z;
      }
    } else {
      assert Better(x, out[i + 1], false) && Better(out[i + 1], y, false);
      forall k | 0 <= k < |out| - 1 && out[k] == x ensures !NextIs(out, k, y) {}
    }
  }

  /** Two queued items are served one right after the other, when an idle queue drains, exactly when
      the first outranks the second and no queued item ranks between them: being of one user, and
      lying side by side in the slice, has no part in it. */
  lemma ServedTogetherIff(s: State, x: QueueItem, y: QueueItem)
    requires Inv(s) && !s.a2aBusy && x in s.items && y in s.items
    ensures ServedTogether(Drain(s), x, y) <==> Better(x, y, false) && !RanksBetween(s.items, x, y)
  {
    var out := Drain(s);
    DrainIsSorted(s);
    SameMembers(out, s.items);
    if Better(x, y, false) {
      NeighboursInOrder(out, x, y);
    } else {
      forall i | 0 <= i < |out| - 1 && NextIs(out, i, y) ensures out[i] != x {
        assert Better(out[i], out[i + 1], false);
      }
    }
  }

  lemma SameMembers(a: seq<QueueItem>, b: seq<QueueItem>)
    requires multiset(a) == multiset(b)
    ensures forall x :: x in a <==> x in b
  {
    forall x ensures x in a <==> x in b {
      assert x in multiset(a) <==> x in multiset(b);
    }
  }

  function UserItem(id: string, user: string): QueueItem {
    QueueItem(id, "", user, User, 0, false, false, 0)
  }

  const ALICE_FIRST := UserItem("a1", "a")
  const BOB := UserItem("b1", "b")
  const ALICE_SECOND := UserItem("a2", "a")
  const FRESH_QUEUE := State([], 0, false, 0, DEFAULT_CONNECTOR_STARVE_LIMIT, true)

  // The slice after the three items were queued in this order.
  lemma BatchedSlice()
    ensures Put(Put(Put(FRESH_QUEUE, ALICE_FIRST), BOB), ALICE_SECOND).items ==
            [ALICE_FIRST.(seqNo := 1), ALICE_SECOND.(seqNo := 3), BOB.(seqNo := 2)]
  {
    var s1 := Put(FRESH_QUEUE, ALICE_FIRST);
    assert s1.items == [ALICE_FIRST.(seqNo := 1)];
    var s2 := Put(s1, BOB);
    assert AfterLastOf(s1.items, "b", 1) == 1;
    assert s2.items == [ALICE_FIRST.(seqNo := 1), BOB.(seqNo := 2)];
    assert AfterLastOf(s2.items, "a", 2) == 1;
  }

  /** Batching puts a's second item right behind a's first one in the slice, and b's item is still
      served between the two. */
  lemma BatchServedApart()
    ensures var s := Run(FRESH_QUEUE, [Enqueue(ALICE_FIRST), Enqueue(BOB), Enqueue(ALICE_SECOND)]);
            && |s.items| == 3 && s.items[0].user == s.items[1].user == "a" && s.items[2].user == "b"
            && !ServedTogether(Drain(s), s.items[0], s.items[1])
  {
    RunThree(FRESH_QUEUE, ALICE_FIRST, BOB, ALICE_SECOND);
    BatchedSlice();
    BobComesBetween(Put(Put(Put(FRESH_QUEUE, ALICE_FIRST), BOB), ALICE_SECOND));
  }

  lemma BobComesBetween(s: State)
    requires s.items == [ALICE_FIRST.(seqNo := 1), ALICE_SECOND.(seqNo := 3), BOB.(seqNo := 2)]
    requires s.lastSeq == 3 && !s.a2aBusy
    ensures !ServedTogether(Drain(s), s.items[0], s.items[1])
  {
    var z := s.items[2];
    assert z in s.items && Better(s.items[0], z, false) && Better(z, s.items[1], false);
    ServedTogetherIff(s, s.items[0], s.items[1]);
  }

  lemma RunThree(s: State, a: QueueItem, b: QueueItem, c: QueueItem)
    ensures Run(s, [Enqueue(a), Enqueue(b), Enqueue(c)]) == Put(Put(Put(s, a), b), c)
  {
    var ops := [Enqueue(a), Enqueue(b), Enqueue(c)];
    assert ops[1..] == [Enqueue(b), Enqueue(c)] && ops[1..][1..] == [Enqueue(c)] && ops[1..][1..][1..] == [];
    assert Run(s, ops) == Run(Put(s, a), ops[1..]);
    assert Run(Put(s, a), ops[1..]) == Run(Put(Put(s, a), b), ops[1..][1..]);
    assert Run(Put(Put(s, a), b), ops[1..][1..]) == Run(Put(Put(Put(s, a), b), c), []);
  }

  // ---- bounded waiting ----

  /** `x` is a connector the scheduler prefers to `c`. */
  predicate Outranks(x: QueueItem, c: QueueItem) {
    x.kind.Connector? && Better(x, c, false)
  }

  function CountOutranking(items: seq<QueueItem>, c: QueueItem): nat {
    if items == [] then 0
    else CountOutranking(items[..|items| - 1], c) + if Outranks(items[|items| - 1], c) then 1 else 0
  }

  lemma {:induction false} CountConcat(a: seq<QueueItem>, b: seq<QueueItem>, c: QueueItem)
    ensures CountOutranking(a + b, c) == CountOutranking(a, c) + CountOutranking(b, c)
  {
    if b == [] {
      assert a + b == a;
    } else {
      assert (a + b)[..|a + b| - 1] == a + b[..|b| - 1];
      CountConcat(a, b[..|b| - 1], c);
    }
  }

  lemma CountRemove(items: seq<QueueItem>, i: nat, c: QueueItem)
    requires i < |items|
    ensures CountOutranking(RemoveAt(items, i), c) == CountOutranking(items, c) - if Outranks(items[i], c) then 1 else 0
  {
    assert items == items[..i] + ([items[i]] + items[i + 1..]);
    CountConcat(items[..i], items[i + 1..], c);
    CountConcat(items[..i], [items[i]] + items[i + 1..], c);
    CountConcat([items[i]], items[i + 1..], c);
    assert CountOutranking([items[i]], c) == if Outranks(items[i], c) then 1 else 0 by {
      assert [items[i]][..0] == [];
    }
  }

  lemma CountInsert(items: seq<QueueItem>, i: nat, x: QueueItem, c: QueueItem)
    requires i <= |items|
    ensures CountOutranking(items[..i] + [x] + items[i..], c) ==
            CountOutranking(items, c) + if Outranks(x, c) then 1 else 0
  {
    assert items == items[..i] + items[i..];
    CountConcat(items[..i] + [x], items[i..], c);
    CountConcat(items[..i], items[i..], c);
    assert (items[..i] + [x])[..i] == items[..i];
  }

  /** The channel stays busy and no connector arrives with a higher effective priority than `c`. */
  predicate NothingBetterArrives(ops: seq<Op>, c: QueueItem) {
    forall i :: 0 <= i < |ops| ==>
      && (ops[i].SetA2ASaturation? ==> ops[i].busy)
      && (ops[i].Enqueue? && ops[i].item.kind.Connector? ==>
            ops[i].item.EffectivePriority() <= c.EffectivePriority())
  }

  function AgentOut(s: State, op: Op): nat {
    match Step(s, op).1
    case Dequeued(x) => if x.kind.Agent? then 1 else 0
    case Executed(x) => if x.kind.Agent? then 1 else 0
    case _ => 0
  }

  function AgentsOut(s: State, ops: seq<Op>): nat
    decreases ops
  {
    if ops == [] then 0 else AgentOut(s, ops[0]) + AgentsOut(Step(s, ops[0]).0, ops[1..])
  }

  /** How many agent items can still be served before `c` is. */
  function Allowance(s: State, c: QueueItem): nat {
    Budget(CountOutranking(s.items, c), s.agentServed, s.starveLimit)
  }

  // `limit` agent items before each of `k` connectors, plus what is left before the next one.
  function Budget(k: nat, served: nat, limit: nat): nat {
    k * limit + if served < limit then limit - served else 0
  }

  lemma BudgetConnector(k: nat, served: nat, limit: nat)
    requires k > 0
    ensures Budget(k - 1, 0, limit) <= Budget(k, served, limit)
  {
    assert (k - 1) * limit + limit == k * limit;
  }

  // Serving one item other than the waiting connector uses up the allowance when it is an agent.
  lemma TakeUsesAllowance(s: State, c: QueueItem)
    requires Inv(s) && s.a2aBusy && c in s.items && c.kind.Connector?
    requires s.items[SelectIndex(s)] != c
    ensures c in Take(s).items
    ensures var x := s.items[SelectIndex(s)];
            Allowance(Take(s), c) + (if x.kind.Agent? then 1 else 0) <= Allowance(s, c)
  {
    var i := SelectIndex(s);
    var x := s.items[i];
    StillQueued(s.items, i, c);
    CountRemove(s.items, i, c);
    match x.kind {
      case Connector =>
        BestConnectorOutranks(s, c);
        BudgetConnector(CountOutranking(s.items, c), s.agentServed, s.starveLimit);
      case Agent => NotPromoting(s, c);
      case User =>
    }
  }

  lemma BestConnectorOutranks(s: State, c: QueueItem)
    requires Inv(s) && c in s.items && c.kind.Connector?
    requires s.items[SelectIndex(s)].kind.Connector? && s.items[SelectIndex(s)] != c
    ensures Outranks(s.items[SelectIndex(s)], c)
    ensures CountOutranking(s.items, c) > 0
  {
    SelectedIsBest(s);
    assert c in multiset(s.items);
    CountRemove(s.items, SelectIndex(s), c);
  }

  lemma StillQueued(items: seq<QueueItem>, i: nat, c: QueueItem)
    requires i < |items| && c in items && items[i] != c
    ensures c in RemoveAt(items, i)
  {
    var j :| 0 <= j < |items| && items[j] == c;
    if j < i { assert RemoveAt(items, i)[j] == c; } else { assert RemoveAt(items, i)[j - 1] == c; }
  }

  // An agent item is selected over a waiting connector only while the limit is not reached.
  lemma NotPromoting(s: State, c: QueueItem)
    requires Inv(s) && s.a2aBusy && c in s.items && c.kind.Connector?
    requires !s.items[SelectIndex(s)].kind.Connector?
    ensures s.agentServed < s.starveLimit
  {
    var j :| 0 <= j < |s.items| && s.items[j] == c;
    SelectedIsBest(s);
    assert c in multiset(s.items);
  }

  lemma StepUsesAllowance(s: State, c: QueueItem, op: Op)
    requires Inv(s) && s.a2aBusy && c in s.items && c.kind.Connector?
    requires NothingBetterArrives([op], c)
    requires c in Step(s, op).0.items
    ensures Step(s, op).0.a2aBusy
    ensures Allowance(Step(s, op).0, c) + AgentOut(s, op) <= Allowance(s, c)
  {
    assert [op][0] == op;
    match op {
      case Enqueue(item) =>
        CountInsert(s.items, InsertAt(s, item), Stamped(s, item), c);
      case Dequeue =>
        SeqNosDiffer(s, SelectIndex(s));
        TakeUsesAllowance(s, c);
      case TryAutoExecute =>
        SeqNosDiffer(s, SelectIndex(s));
        if s.items[SelectIndex(s)].autoExec { TakeUsesAllowance(s, c); }
      case _ =>
    }
  }

  lemma StepKeepsGone(s: State, c: QueueItem, op: Op)
    requires c !in s.items && c.seqNo <= s.lastSeq
    ensures c !in Step(s, op).0.items && c.seqNo <= Step(s, op).0.lastSeq
  {
  }

  lemma {:induction false} OnceServedGone(s: State, c: QueueItem, ops: seq<Op>)
    requires c !in s.items && c.seqNo <= s.lastSeq
    ensures c !in Run(s, ops).items
    decreases ops
  {
    if ops != [] {
      StepKeepsGone(s, c, ops[0]);
      OnceServedGone(Step(s, ops[0]).0, c, ops[1..]);
    }
  }

  /** Bounded waiting: as long as a connector is still queued, the agent items served meanwhile
      number at most (k + 1) times the limit, k being the connectors that outranked it. */
  lemma {:induction false} BoundedWaiting(s: State, c: QueueItem, ops: seq<Op>)
    requires Inv(s) && s.a2aBusy && c in s.items && c.kind.Connector?
    requires NothingBetterArrives(ops, c)
    requires c in Run(s, ops).items
    ensures AgentsOut(s, ops) <= Allowance(s, c)
    ensures AgentsOut(s, ops) <= (CountOutranking(s.items, c) + 1) * s.starveLimit
    decreases ops
  {
    AllowanceBound(s, c);
    if ops != [] {
      var s' := Step(s, ops[0]).0;
      StepKeepsInv(s, ops[0]);
      if c !in s'.items {
        OnceServedGone(s', c, ops[1..]);
        assert false;
      }
      assert NothingBetterArrives([ops[0]], c);
      StepUsesAllowance(s, c, ops[0]);
      BoundedWaiting(s', c, ops[1..]);
    }
  }

  lemma AllowanceBound(s: State, c: QueueItem)
    ensures Allowance(s, c) <= (CountOutranking(s.items, c) + 1) * s.starveLimit
  {
    var k := CountOutranking(s.items, c);
    assert (k + 1) * s.starveLimit == k * s.starveLimit + s.starveLimit;
  }

  /** Once the limit is reached on a busy channel, the very next dequeue serves a connector, and
      the best one waiting. */
  lemma PromotionServesBestConnector(s: State, c: QueueItem)
    requires Inv(s) && s.a2aBusy && s.agentServed >= s.starveLimit
    requires c in s.items && c.kind.Connector?
    ensures Step(s, Dequeue).1.Dequeued?
    ensures var x := Step(s, Dequeue).1.item; x == c || Outranks(x, c)
  {
    var j :| 0 <= j < |s.items| && s.items[j] == c;
    SelectedIsBest(s);
    assert c in multiset(s.items);
  }
}
