/** The fairness limit of internal/dispatch/invocation_queue.go counts agent items only, so user items may
    hold a connector back: when they can do so without end, and when waiting is bounded by the queue. */
module Starvation {
  import opened Numerals
  import opened InvocationQueue
  import opened QueuePolicy

  predicate HasTop(items: seq<QueueItem>) {
    exists i :: 0 <= i < |items| && items[i].EffectivePriority() == MAX_INT
  }

  /** Once the queued items of the highest priority are served, in the order the scheduler takes them,
      the connector is still waiting, and either the limit is not reached or another connector goes
      first and resets it. */
  predicate Exposed(s: State, c: QueueItem)
    decreases |s.items|
  {
    && s.starveLimit >= 1 && c in s.items
    && if HasTop(s.items) then s.items[SelectIndex(s)] != c && Exposed(Take(s), c)
       else s.agentServed < s.starveLimit || CountOutranking(s.items, c) > 0
  }

  /** Some run on the busy channel, with no better connector arriving, serves `n` items while `c` waits. */
  ghost predicate CanPass(s: State, c: QueueItem, n: nat) {
    exists ops :: Passes(s, c, ops, n)
  }

  ghost predicate Passes(s: State, c: QueueItem, ops: seq<Op>, n: nat) {
    NothingBetterArrives(ops, c) && c in Run(s, ops).items && |AllOut(s, ops)| == n
  }

  // ---- a run that keeps the connector waiting ----

  const URGENT_USER := QueueItem("u", "", "", User, 0, true, false, 0)

  /** Serve the urgent backlog and, at the limit, the next connector; otherwise let an urgent user item
      arrive and be served. */
  function Plan(s: State, c: QueueItem, n: nat): seq<Op>
    decreases n
  {
    if n == 0 then []
    else if s.items != [] && (HasTop(s.items) || s.agentServed >= s.starveLimit) then
      [Dequeue] + Plan(Take(s), c, n - 1)
    else [Enqueue(URGENT_USER), Dequeue] + Plan(s.(lastSeq := s.lastSeq + 1), c, n - 1)
  }

  lemma UrgentUserIsBest(s: State)
    requires Inv(s) && !HasTop(s.items) && s.agentServed < s.starveLimit
    ensures Put(s, URGENT_USER).items == s.items + [Stamped(s, URGENT_USER)]
    ensures SelectIndex(Put(s, URGENT_USER)) == |s.items|
  {
    var u := Stamped(s, URGENT_USER);
    var s1 := Put(s, URGENT_USER);
    assert s1.items == s.items + [u];
    PutKeepsInv(s, URGENT_USER);
    SelectedIsBest(s1);
    assert s1.items[|s.items|] == u;
    forall y | y in multiset(s1.items) && y != u ensures Better(u, y, false) {
      assert y in s.items;
    }
    BestIsUnique(s1.items[SelectIndex(s1)], u, multiset(s1.items), false);
  }

  lemma FloodRound(s: State)
    requires Inv(s) && !HasTop(s.items) && s.agentServed < s.starveLimit
    ensures Step(Put(s, URGENT_USER), Dequeue) == (s.(lastSeq := s.lastSeq + 1), Dequeued(Stamped(s, URGENT_USER)))
  {
    UrgentUserIsBest(s);
    var u := Stamped(s, URGENT_USER);
    assert RemoveAt(s.items + [u], |s.items|) == s.items;
  }

  lemma OneStep(s: State, a: Op, ops: seq<Op>)
    ensures Run(s, [a] + ops) == Run(Step(s, a).0, ops)
    ensures AllOut(s, [a] + ops) == Out(s, a) + AllOut(Step(s, a).0, ops)
  {
    assert ([a] + ops)[1..] == ops;
  }

  lemma AllowedConcat(a: seq<Op>, b: seq<Op>, c: QueueItem)
    requires NothingBetterArrives(a, c) && NothingBetterArrives(b, c)
    ensures NothingBetterArrives(a + b, c)
  {
  }

  // At the limit, an exposed connector lets another one go first and is exposed again.
  lemma TakeKeepsExposed(s: State, c: QueueItem)
    requires Inv(s) && s.a2aBusy && c.kind.Connector? && Exposed(s, c)
    requires HasTop(s.items) || s.agentServed >= s.starveLimit
    ensures s.items[SelectIndex(s)] != c && Exposed(Take(s), c)
  {
    if !HasTop(s.items) {
      SelectedIsBest(s);
      SomeOutranks(s.items, c);
      var x :| x in s.items && Outranks(x, c);
      assert x in multiset(s.items) && c in multiset(s.items);
      PromotedIsConnector(s, c);
      StillQueued(s.items, SelectIndex(s), c);
      TakeKeepsTopFree(s);
    }
  }

  lemma PromotedIsConnector(s: State, c: QueueItem)
    requires Inv(s) && s.a2aBusy && s.agentServed >= s.starveLimit && c in s.items && c.kind.Connector?
    ensures Promoting(s) && s.items[SelectIndex(s)].kind.Connector?
  {
    var j :| 0 <= j < |s.items| && s.items[j] == c;
    SelectedIsBest(s);
    assert c in multiset(s.items);
  }

  lemma TakeKeepsTopFree(s: State)
    requires s.items != [] && !HasTop(s.items)
    ensures !HasTop(Take(s).items)
  {
    var i := SelectIndex(s);
    forall k | 0 <= k < |s.items| - 1 ensures Take(s).items[k].EffectivePriority() != MAX_INT {
      assert Take(s).items[k] == s.items[if k < i then k else k + 1];
    }
  }

  lemma {:induction false} SomeOutranks(items: seq<QueueItem>, c: QueueItem)
    requires CountOutranking(items, c) > 0
    ensures exists x :: x in items && Outranks(x, c)
  {
    var n := |items| - 1;
    if Outranks(items[n], c) {
      assert items[n] in items;
    } else {
      SomeOutranks(items[..n], c);
      var x :| x in items[..n] && Outranks(x, c);
      assert x in items;
    }
  }

  lemma TakeThenPass(s: State, c: QueueItem, rest: seq<Op>, n: nat)
    requires s.items != [] && Passes(Take(s), c, rest, n)
    ensures Passes(s, c, [Dequeue] + rest, n + 1)
  {
    OneStep(s, Dequeue, rest);
    AllowedConcat([Dequeue], rest, c);
    assert Out(s, Dequeue) == multiset{s.items[SelectIndex(s)]};
  }

  lemma FloodThenPass(s: State, c: QueueItem, rest: seq<Op>, n: nat)
    requires Inv(s) && !HasTop(s.items) && s.agentServed < s.starveLimit
    requires Passes(s.(lastSeq := s.lastSeq + 1), c, rest, n)
    ensures Passes(s, c, [Enqueue(URGENT_USER), Dequeue] + rest, n + 1)
  {
    var s1 := Put(s, URGENT_USER);
    FloodRound(s);
    OneStep(s, Enqueue(URGENT_USER), [Dequeue] + rest);
    OneStep(s1, Dequeue, rest);
    assert [Enqueue(URGENT_USER), Dequeue] + rest == [Enqueue(URGENT_USER)] + ([Dequeue] + rest);
    AllowedConcat([Enqueue(URGENT_USER), Dequeue], rest, c);
    assert Out(s, Enqueue(URGENT_USER)) == multiset{} && Out(s1, Dequeue) == multiset{Stamped(s, URGENT_USER)};
  }

  lemma {:induction false} PlanPasses(s: State, c: QueueItem, n: nat)
    requires Inv(s) && s.a2aBusy && c.kind.Connector? && Exposed(s, c)
    ensures Passes(s, c, Plan(s, c, n), n)
    decreases n
  {
    if n == 0 {
    } else if HasTop(s.items) || s.agentServed >= s.starveLimit {
      TakeKeepsExposed(s, c);
      TakeKeepsInv(s);
      PlanPasses(Take(s), c, n - 1);
      TakeThenPass(s, c, Plan(Take(s), c, n - 1), n - 1);
    } else {
      var s2 := s.(lastSeq := s.lastSeq + 1);
      PlanPasses(s2, c, n - 1);
      FloodThenPass(s, c, Plan(s2, c, n - 1), n - 1);
    }
  }

  // ---- no run can ----

  /** `t` is `s` with later arrivals, none of them a connector that outranks `c`. */
  ghost predicate Shadows(s: State, t: State, c: QueueItem) {
    && Inv(s) && Inv(t) && s.a2aBusy && t.a2aBusy
    && s.agentServed == t.agentServed && s.starveLimit == t.starveLimit
    && (forall x :: x in s.items ==> x in t.items)
    && (forall y :: y in t.items && y !in s.items ==> LateFor(s.items, c, y))
  }

  ghost predicate LateFor(items: seq<QueueItem>, c: QueueItem, y: QueueItem) {
    && (forall x :: x in items ==> x.seqNo < y.seqNo)
    && (y.kind.Connector? ==> y.EffectivePriority() <= c.EffectivePriority())
  }

  lemma SeqNoTells(s: State, x: QueueItem, y: QueueItem)
    requires Inv(s) && x in s.items && y in s.items && x.seqNo == y.seqNo
    ensures x == y
  {
  }

  // What is served next is decided by the backlog: later arrivals change nothing about it.
  lemma SameNext(s: State, t: State, c: QueueItem)
    requires Shadows(s, t, c) && c in s.items && c.kind.Connector?
    requires HasTop(s.items) || s.agentServed >= s.starveLimit
    ensures s.items[SelectIndex(s)] == t.items[SelectIndex(t)]
  {
    var x, z := s.items[SelectIndex(s)], t.items[SelectIndex(t)];
    SelectedIsBest(s);
    SelectedIsBest(t);
    SamePromotion(s, t, c);
    assert x in multiset(t.items) && c in multiset(s.items);
    if z in s.items {
      assert z in multiset(s.items);
    } else {
      assert LateFor(s.items, c, z) && x.seqNo < z.seqNo;
      if !Promoting(s) { TopIsNext(s); }
    }
  }

  lemma SamePromotion(s: State, t: State, c: QueueItem)
    requires s.a2aBusy == t.a2aBusy && s.agentServed == t.agentServed && s.starveLimit == t.starveLimit
    requires c in s.items && c in t.items && c.kind.Connector?
    ensures Promoting(s) == Promoting(t) == (s.a2aBusy && s.agentServed >= s.starveLimit)
  {
    var i :| 0 <= i < |s.items| && s.items[i] == c;
    var j :| 0 <= j < |t.items| && t.items[j] == c;
  }

  lemma TopIsNext(s: State)
    requires Inv(s) && HasTop(s.items) && !Promoting(s)
    ensures s.items[SelectIndex(s)].EffectivePriority() == MAX_INT
  {
    SelectedIsBest(s);
    var i :| 0 <= i < |s.items| && s.items[i].EffectivePriority() == MAX_INT;
    assert s.items[i] in multiset(s.items);
  }

  lemma TakeKeepsShadow(s: State, t: State, c: QueueItem)
    requires Shadows(s, t, c) && s.items != [] && t.items != []
    requires s.items[SelectIndex(s)] == t.items[SelectIndex(t)]
    ensures Shadows(Take(s), Take(t), c)
  {
    var x := s.items[SelectIndex(s)];
    TakeKeepsInv(s);
    TakeKeepsInv(t);
    Remaining(s);
    Remaining(t);
  }

  lemma Remaining(s: State)
    requires Inv(s) && s.items != []
    ensures forall y :: y in Take(s).items <==> y in s.items && y != s.items[SelectIndex(s)]
  {
    var i := SelectIndex(s);
    SeqNosDiffer(s, i);
    forall y | y in s.items && y != s.items[i] ensures y in Take(s).items {
      StillQueued(s.items, i, y);
    }
  }

  lemma ArrivalKeepsShadow(s: State, t: State, c: QueueItem, item: QueueItem)
    requires Shadows(s, t, c) && NothingBetterArrives([Enqueue(item)], c)
    ensures Shadows(s, Put(t, item), c)
  {
    PutKeepsInv(t, item);
    assert [Enqueue(item)][0] == Enqueue(item);
    var at := InsertAt(t, item);
    var t' := Put(t, item);
    assert t.items == t.items[..at] + t.items[at..];
    forall x | x in s.items ensures x in t'.items && x.seqNo < Stamped(t, item).seqNo {
      var k :| 0 <= k < |t.items| && t.items[k] == x;
      assert x in t.items[..at] || x in t.items[at..];
    }
  }

  // A connector that is not exposed, with something to serve before it.
  lemma UnexposedTake(s: State, c: QueueItem)
    requires Inv(s) && s.a2aBusy && c in s.items && c.kind.Connector? && !Exposed(s, c)
    ensures HasTop(s.items) || s.agentServed >= s.starveLimit
    ensures s.items[SelectIndex(s)] != c ==> c in Take(s).items && !Exposed(Take(s), c)
  {
    var x := s.items[SelectIndex(s)];
    if x != c {
      StillQueued(s.items, SelectIndex(s), c);
      if s.starveLimit >= 1 && !HasTop(s.items) {
        PromotedIsConnector(s, c);
        BestConnectorOutranks(s, c);
      }
    }
  }

  lemma ServesOrNot(t: State, op: Op)
    requires !op.Enqueue?
    ensures Out(t, op) == multiset{} || (t.items != [] && Step(t, op).0 == Take(t) && |Out(t, op)| == 1)
  {
  }

  lemma QuietKeepsShadow(s: State, t: State, c: QueueItem, op: Op)
    requires Shadows(s, t, c) && !op.Enqueue? && Out(t, op) == multiset{} && NothingBetterArrives([op], c)
    ensures Shadows(s, Step(t, op).0, c)
  {
    assert [op][0] == op;
  }

  // One served item of the backlog, in the shadow.
  lemma ServeBacklog(s: State, t: State, c: QueueItem, rest: seq<Op>)
    requires Shadows(s, t, c) && c in s.items && c.kind.Connector? && !Exposed(s, c) && t.items != []
    requires c in Run(Take(t), rest).items
    ensures Shadows(Take(s), Take(t), c) && c in Take(s).items && !Exposed(Take(s), c)
  {
    UnexposedTake(s, c);
    SameNext(s, t, c);
    TakeKeepsShadow(s, t, c);
    StaysOrGone(t, c, rest);
  }

  /** While a connector that is not exposed waits, a run serves fewer items than the backlog holds. */
  lemma {:induction false} NoMoreThanBacklog(s: State, t: State, c: QueueItem, ops: seq<Op>)
    requires Shadows(s, t, c) && c in s.items && c.kind.Connector? && !Exposed(s, c)
    requires NothingBetterArrives(ops, c) && c in Run(t, ops).items
    ensures |AllOut(t, ops)| < |s.items|
    decreases ops
  {
    if ops != [] {
      var op, rest := ops[0], ops[1..];
      var t' := Step(t, op).0;
      assert NothingBetterArrives([op], c) && NothingBetterArrives(rest, c);
      if op.Enqueue? {
        ArrivalKeepsShadow(s, t, c, op.item);
        NoMoreThanBacklog(s, t', c, rest);
      } else if Out(t, op) == multiset{} {
        QuietKeepsShadow(s, t, c, op);
        NoMoreThanBacklog(s, t', c, rest);
      } else {
        ServesOrNot(t, op);
        ServeBacklog(s, t, c, rest);
        NoMoreThanBacklog(Take(s), t', c, rest);
      }
    }
  }

  lemma StaysOrGone(t: State, c: QueueItem, rest: seq<Op>)
    requires Inv(t) && t.items != [] && c in t.items && c in Run(Take(t), rest).items
    ensures t.items[SelectIndex(t)] != c
  {
    Remaining(t);
    if t.items[SelectIndex(t)] == c {
      OnceServedGone(Take(t), c, rest);
    }
  }

  /** Items can pass a waiting connector without end exactly when it is exposed; otherwise fewer can than
      are queued now. */
  lemma CanPassForeverIff(s: State, c: QueueItem)
    requires Inv(s) && s.a2aBusy && c in s.items && c.kind.Connector?
    ensures (forall n: nat :: CanPass(s, c, n)) <==> Exposed(s, c)
    ensures !Exposed(s, c) ==> forall n: nat :: CanPass(s, c, n) ==> n < |s.items|
  {
    if Exposed(s, c) {
      forall n: nat ensures CanPass(s, c, n) {
        PlanPasses(s, c, n);
      }
    } else {
      forall n: nat | CanPass(s, c, n) ensures n < |s.items| {
        var ops :| Passes(s, c, ops, n);
        NoMoreThanBacklog(s, s, c, ops);
      }
      assert !CanPass(s, c, |s.items|);
    }
  }

  /** Without an urgent backlog the condition is in the queue's counters: the limit is not reached yet,
      or some connector goes first and resets it. */
  lemma WithoutUrgentBacklog(s: State, c: QueueItem)
    requires Inv(s) && s.a2aBusy && c in s.items && c.kind.Connector? && !HasTop(s.items)
    ensures (forall n: nat :: CanPass(s, c, n)) <==>
            s.starveLimit >= 1 && (s.agentServed < s.starveLimit || CountOutranking(s.items, c) > 0)
  {
    CanPassForeverIff(s, c);
  }

  /** A connector of the highest priority is never exposed: no later arrival outranks it. */
  lemma {:induction false} UrgentConnectorIsSafe(s: State, c: QueueItem)
    requires Inv(s) && c.EffectivePriority() == MAX_INT
    ensures !Exposed(s, c)
    decreases |s.items|
  {
    if c in s.items {
      var j :| 0 <= j < |s.items| && s.items[j] == c;
      assert HasTop(s.items);
      TakeKeepsInv(s);
      UrgentConnectorIsSafe(Take(s), c);
    }
  }
}
