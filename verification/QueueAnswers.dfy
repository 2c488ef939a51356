/** What the operations of internal/dispatch/invocation_queue.go answer, read off the fields of the items
    themselves: who is served, what a peek foretells, when an item is executed, which id it gets. */
module QueueAnswers {
  import opened Numerals
  import opened InvocationQueue
  import opened QueuePolicy

  /** Urgent, or of the priority an urgent item counts with. */
  predicate AtTop(x: QueueItem) {
    x.urgent || x.priority == MAX_INT
  }

  /** `x` goes before `y`: the items at the top first, then the higher priority, and the earlier arrival
      among equals. */
  predicate Ahead(x: QueueItem, y: QueueItem) {
    if AtTop(x) || AtTop(y) then AtTop(x) && (AtTop(y) ==> x.seqNo < y.seqNo)
    else x.priority > y.priority || (x.priority == y.priority && x.seqNo < y.seqNo)
  }

  lemma AheadIsBetter(x: QueueItem, y: QueueItem)
    ensures Ahead(x, y) <==> Better(x, y, false)
  {
  }

  /** The items a dequeue chooses among: the connectors when the channel is busy, the limit is reached and
      one is waiting, and all items otherwise. */
  predicate Eligible(s: State, x: QueueItem) {
    && x in s.items
    && (s.a2aBusy && s.agentServed >= s.starveLimit && (exists c :: c in s.items && c.kind.Connector?) ==>
        x.kind.Connector?)
  }

  /** A dequeue serves the eligible item that goes before all other eligible ones. */
  lemma DequeueServes(s: State, x: QueueItem)
    requires Inv(s) && s.items != []
    ensures Step(s, Dequeue).1 == Dequeued(x) <==>
            Eligible(s, x) && forall y :: Eligible(s, y) && y != x ==> Ahead(x, y)
  {
    var best := s.items[SelectIndex(s)];
    BestIsEligible(s);
    SelectedIsBest(s);
    PromotingIff(s);
    forall y | Eligible(s, y) && y != best ensures Ahead(best, y) && !Ahead(y, best) {
      assert y in multiset(s.items);
      assert Better(best, y, Promoting(s));
    }
  }

  lemma BestIsEligible(s: State)
    requires Inv(s) && s.items != []
    ensures Eligible(s, s.items[SelectIndex(s)])
  {
    var best := s.items[SelectIndex(s)];
    SelectedIsBest(s);
    PromotingIff(s);
    if Promoting(s) {
      var c :| c in s.items && c.kind.Connector?;
      assert c in multiset(s.items);
      assert c != best ==> Better(best, c, true);
    }
  }

  lemma PromotingIff(s: State)
    ensures Promoting(s) <==>
            s.a2aBusy && s.agentServed >= s.starveLimit && exists c :: c in s.items && c.kind.Connector?
  {
    if Promoting(s) {
      var i :| 0 <= i < |s.items| && s.items[i].kind == Connector;
      assert s.items[i] in s.items && s.items[i].kind.Connector?;
    }
  }

  /** Whom a dequeue serves is gone, everything else stays, and only the fairness counter moves: back to
      zero for a connector, up by one for an agent item. */
  lemma DequeueLeaves(s: State)
    requires s.items != []
    ensures var (t, out) := Step(s, Dequeue);
            && out.Dequeued?
            && multiset(t.items) + multiset{out.item} == multiset(s.items)
            && (out.item.kind.Connector? ==> t.agentServed == 0)
            && (out.item.kind.Agent? ==> t.agentServed == s.agentServed + 1)
            && (out.item.kind.User? ==> t.agentServed == s.agentServed)
            && t == s.(items := t.items, agentServed := t.agentServed)
  {
    TakeConserves(s);
  }

  /** On a channel that is not busy a queue drains with every item ahead of all that follow it. */
  lemma DrainsAhead(s: State, i: nat, j: nat)
    requires Inv(s) && !s.a2aBusy && i < j < |Drain(s)|
    ensures Ahead(Drain(s)[i], Drain(s)[j])
  {
    DrainIsSorted(s);
    AheadIsBetter(Drain(s)[i], Drain(s)[j]);
  }

  /** A peek changes nothing and shows what the next dequeue serves. */
  lemma PeekForetells(s: State)
    ensures Step(s, Peek).0 == s
    ensures s.items == [] ==> Step(s, Peek).1 == Empty && Step(s, Dequeue) == (s, Empty)
    ensures s.items != [] ==> Step(s, Peek).1.Peeked? && Step(s, Dequeue).1 == Dequeued(Step(s, Peek).1.item)
  {
  }

  /** An auto-execution takes the item a dequeue would serve, in the same way, exactly when that item is
      marked for it, and leaves the queue alone otherwise. */
  lemma AutoExecutesIff(s: State)
    ensures var (t, out) := Step(s, TryAutoExecute);
            && (out.Executed? <==> s.items != [] && Step(s, Dequeue).1.item.autoExec)
            && (out.Executed? ==> t == Step(s, Dequeue).0 && Step(s, Dequeue).1 == Dequeued(out.item))
            && (!out.Executed? ==> t == s && out == if s.items == [] then Empty else Refused)
  {
  }

  /** A thread is answered for exactly when a user's or a connector's item of it is queued. */
  lemma WaitsOnThreadIff(s: State, threadId: string)
    ensures Step(s, HasQueuedNonAgent(threadId)) ==
            (s, Answer(exists x :: x in s.items && x.threadId == threadId && (x.kind.User? || x.kind.Connector?)))
  {
    if x :| x in s.items && x.threadId == threadId && (x.kind.User? || x.kind.Connector?) {
      var i :| 0 <= i < |s.items| && s.items[i] == x;
      assert WaitsOnThread(s.items[i], threadId);
    }
  }

  // ---- arrivals ----

  /** Without batching, for an item that is no known user's, and for a user's first, the place is the end. */
  lemma EnqueuesLast(s: State, item: QueueItem)
    requires !s.batching || !item.kind.User? || item.user == "" ||
             forall x :: x in s.items && x.kind.User? ==> x.user != item.user
    ensures var t := Step(s, Enqueue(item)).0;
            |t.items| == |s.items| + 1 && t.items[..|s.items|] == s.items
  {
    NoneOfUser(s.items, item.user, |s.items|);
  }

  lemma {:induction false} NoneOfUser(items: seq<QueueItem>, user: string, n: nat)
    requires n <= |items|
    ensures (forall x :: x in items && x.kind.User? ==> x.user != user) ==> AfterLastOf(items, user, n) == |items|
  {
    if n > 0 { NoneOfUser(items, user, n - 1); }
  }

  /** An enqueued item keeps the id it brings, and gets one with its number otherwise. */
  lemma EnqueueKeepsId(s: State, item: QueueItem)
    ensures var (t, out) := Step(s, Enqueue(item));
            && out.Enqueued?
            && multiset(t.items) == multiset(s.items) + multiset{item.(id := out.id, seqNo := s.lastSeq + 1)}
            && (item.id != "" ==> out.id == item.id)
            && (item.id == "" ==>
                |out.id| > 4 && out.id[..4] == "inv-" && ReadDecimal(out.id[4..]) == s.lastSeq + 1)
            && t == s.(items := t.items, lastSeq := s.lastSeq + 1)
  {
    InsertBag(s.items, InsertAt(s, item), Stamped(s, item));
    DecimalHead(s.lastSeq + 1);
    ReadDecimalBack(s.lastSeq + 1);
    assert NewItemId(s.lastSeq + 1)[4..] == Decimal(s.lastSeq + 1);
  }

  lemma {:induction false} SeqGrows(s: State, ops: seq<Op>)
    ensures s.lastSeq <= Run(s, ops).lastSeq
    decreases ops
  {
    if ops != [] {
      assert s.lastSeq <= Step(s, ops[0]).0.lastSeq;
      SeqGrows(Step(s, ops[0]).0, ops[1..]);
    }
  }

  /** No two items that came without an id are ever given the same one. */
  lemma GeneratedIdsDiffer(s: State, a: QueueItem, between: seq<Op>, b: QueueItem)
    requires a.id == "" && b.id == ""
    ensures var (s1, first) := Step(s, Enqueue(a));
            var second := Step(Run(s1, between), Enqueue(b)).1;
            first.Enqueued? && second.Enqueued? && first.id != "" && first.id != second.id
  {
    var s1 := Step(s, Enqueue(a)).0;
    SeqGrows(s1, between);
    NewItemIdsDiffer(s.lastSeq + 1, Run(s1, between).lastSeq + 1);
  }
}
