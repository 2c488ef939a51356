/** internal/dispatch/invocation_queue.go and queue_item.go: the priority queue of invocations.
    The class keeps its items in the source's slice order; every operation is tied to a function
    on the value `State`, about which QueuePolicy.dfy proves what the scheduler promises. */
module InvocationQueue {
  import opened Numerals

  datatype ItemKind = User | Agent | Connector

  datatype QueueItem = QueueItem(
    id: string, threadId: string, user: string, kind: ItemKind,
    priority: Int64, urgent: bool, autoExec: bool, seqNo: nat)
  {
    // An urgent item ranks with the largest priority, no higher.
    function EffectivePriority(): Int64 {
      if urgent then MAX_INT else priority
    }
  }

  const DEFAULT_CONNECTOR_STARVE_LIMIT := 4

  // ---- ids ----

  /** What the digit loop writes; on the smallest int64 the negation overflows back to itself and
      the loop never runs. */
  function ItoaText(n: Int64): string {
    if n >= 0 then Decimal(n)
    else if n == MIN_INT then "-"
    else "-" + Decimal(-n)
  }

  function ReadInt(s: string): int {
    if s != [] && s[0] == '-' then -ReadDecimal(s[1..]) else ReadDecimal(s)
  }

  lemma ReadNegative(m: nat)
    ensures ReadInt("-" + Decimal(m)) == 0 - m
  {
    ReadDecimalBack(m);
    assert ("-" + Decimal(m))[1..] == Decimal(m);
  }

  /** Reading the text back gives the number, for every int64 but the smallest. */
  lemma ItoaReadsBack(n: Int64)
    ensures ReadInt(ItoaText(n)) == n <==> n != MIN_INT
  {
    if n >= 0 {
      ReadDecimalBack(n);
      DecimalHead(n);
    } else if n == MIN_INT {
      var s := ItoaText(n);
      assert s == "-" && s[1..] == [];
    } else if n < 0 {
      ReadNegative(-n);
    }
  }

  // Negation on int64 wraps at the smallest value.
  function Negate64(n: Int64): Int64 {
    if n == MIN_INT then MIN_INT else -n
  }

  // The digits still to be written when `m` is left.
  function Leading(m: int): string {
    if m > 0 then Decimal(m) else []
  }

  lemma LeadingStep(m: int, tail: string)
    requires m > 0
    ensures Leading(m) + tail == Leading(m / 10) + ([Digit(m % 10)] + tail)
    ensures |Leading(m)| >= 1
  {
  }

  method Itoa(n: Int64) returns (s: string)
    ensures s == ItoaText(n)
  {
    if n == 0 {
      return "0";
    }
    var neg := n < 0;
    var m: Int64 := if neg then Negate64(n) else n;
    ghost var m0 := m;
    var buf := new char[20];
    var i := buf.Length;
    assert |Leading(m0)| <= 19 by {
      if m0 > 0 {
        Pow10Nineteen();
        DecimalLength(m0, 19);
      }
    }
    while m > 0
      invariant 0 <= i <= 20
      invariant Leading(m0) == Leading(m) + buf[i..]
      decreases m
    {
      ghost var tail := buf[i..];
      LeadingStep(m, tail);
      i := i - 1;
      buf[i] := Digit(m % 10);
      assert buf[i..] == [Digit(m % 10)] + tail;
      m := m / 10;
    }
    if neg {
      ghost var tail := buf[i..];
      i := i - 1;
      buf[i] := '-';
      assert buf[i..] == ['-'] + tail;
    }
    return buf[i..];
  }

  function NewItemId(n: nat): string {
    "inv-" + Decimal(n)
  }

  /** Ids built from different sequence numbers differ. */
  lemma NewItemIdsDiffer(m: nat, n: nat)
    requires m != n
    ensures NewItemId(m) != NewItemId(n)
  {
    ReadDecimalBack(m);
    ReadDecimalBack(n);
    assert NewItemId(m)[4..] == Decimal(m) && NewItemId(n)[4..] == Decimal(n);
  }

  // ---- the policy as functions ----

  datatype State = State(
    items: seq<QueueItem>, lastSeq: nat, a2aBusy: bool, agentServed: nat, starveLimit: nat, batching: bool)

  predicate HasKind(items: seq<QueueItem>, k: ItemKind) {
    exists i :: 0 <= i < |items| && items[i].kind == k
  }

  predicate Promoting(s: State) {
    s.a2aBusy && s.agentServed >= s.starveLimit && HasKind(s.items, Connector)
  }

  /** `a` is served before `b`. */
  predicate Better(a: QueueItem, b: QueueItem, promote: bool) {
    if promote && a.kind.Connector? != b.kind.Connector? then a.kind.Connector?
    else if a.EffectivePriority() != b.EffectivePriority() then a.EffectivePriority() > b.EffectivePriority()
    else a.seqNo < b.seqNo
  }

  /** Left-to-right scan for the best of the first `n` items. */
  function BestOf(items: seq<QueueItem>, promote: bool, n: nat): (i: nat)
    requires 0 < n <= |items|
    ensures i < n
  {
    if n == 1 then 0
    else
      var b := BestOf(items, promote, n - 1);
      if Better(items[n - 1], items[b], promote) then n - 1 else b
  }

  function SelectIndex(s: State): (i: nat)
    requires s.items != []
    ensures i < |s.items|
  {
    BestOf(s.items, Promoting(s), |s.items|)
  }

  function RemoveAt(items: seq<QueueItem>, i: nat): seq<QueueItem>
    requires i < |items|
  {
    items[..i] + items[i + 1..]
  }

  // The fairness counter after serving an item of the given kind.
  function Served(count: nat, k: ItemKind): nat {
    match k
    case Connector => 0
    case Agent => count + 1
    case User => count
  }

  function Take(s: State): State
    requires s.items != []
  {
    var i := SelectIndex(s);
    s.(items := RemoveAt(s.items, i), agentServed := Served(s.agentServed, s.items[i].kind))
  }

  // One past the last of the first `n` items that belongs to the user; the end when there is none.
  function AfterLastOf(items: seq<QueueItem>, user: string, n: nat): (i: nat)
    requires n <= |items|
    ensures i <= |items|
  {
    if n == 0 then |items|
    else if items[n - 1].kind.User? && items[n - 1].user == user then n
    else AfterLastOf(items, user, n - 1)
  }

  function InsertAt(s: State, item: QueueItem): (i: nat)
    ensures i <= |s.items|
  {
    if s.batching && item.kind.User? && item.user != "" then AfterLastOf(s.items, item.user, |s.items|)
    else |s.items|
  }

  function Stamped(s: State, item: QueueItem): QueueItem {
    item.(id := if item.id == "" then NewItemId(s.lastSeq + 1) else item.id, seqNo := s.lastSeq + 1)
  }

  function Put(s: State, item: QueueItem): State {
    var i := InsertAt(s, item);
    s.(items := s.items[..i] + [Stamped(s, item)] + s.items[i..], lastSeq := s.lastSeq + 1)
  }

  // ---- operations on a value of the queue ----

  datatype Op =
    | Enqueue(item: QueueItem)
    | Dequeue
    | Peek
    | TryAutoExecute
    | SetA2ASaturation(busy: bool)
    | SetBatching(on: bool)
    | HasQueuedNonAgent(threadId: string)

  datatype Output =
    | Enqueued(id: string)
    | Dequeued(item: QueueItem)
    | Executed(item: QueueItem)
    | Peeked(item: QueueItem)
    | Empty
    | Refused
    | Answer(yes: bool)
    | Silent

  predicate WaitsOnThread(it: QueueItem, threadId: string) {
    it.threadId == threadId && !it.kind.Agent?
  }

  function Step(s: State, op: Op): (State, Output) {
    match op
    case Enqueue(item) => (Put(s, item), Enqueued(Stamped(s, item).id))
    case Dequeue =>
      if s.items == [] then (s, Empty) else (Take(s), Dequeued(s.items[SelectIndex(s)]))
    case Peek =>
      (s, if s.items == [] then Empty else Peeked(s.items[SelectIndex(s)]))
    case TryAutoExecute =>
      if s.items == [] then (s, Empty)
      else if s.items[SelectIndex(s)].autoExec then (Take(s), Executed(s.items[SelectIndex(s)]))
      else (s, Refused)
    case SetA2ASaturation(busy) => (s.(a2aBusy := busy), Silent)
    case SetBatching(on) => (s.(batching := on), Silent)
    case HasQueuedNonAgent(threadId) =>
      (s, Answer(exists i :: 0 <= i < |s.items| && WaitsOnThread(s.items[i], threadId)))
  }

  // ---- the queue object ----

  class Queue {
    var items: seq<QueueItem>
    var lastSeq: nat
    var a2aBusy: bool
    var agentServedSinceConnector: nat
    var connectorStarveLimit: nat
    var batching: bool

    function Value(): State
      reads this
    {
      State(items, lastSeq, a2aBusy, agentServedSinceConnector, connectorStarveLimit, batching)
    }

    constructor ()
      ensures Value() == State([], 0, false, 0, 4, true)
    {
      items, lastSeq, a2aBusy := [], 0, false;
      agentServedSinceConnector, connectorStarveLimit, batching := 0, DEFAULT_CONNECTOR_STARVE_LIMIT, true;
    }

    method SetA2ASaturation(busy: bool)
      modifies this
      ensures Value() == Step(old(Value()), Op.SetA2ASaturation(busy)).0
    {
      a2aBusy := busy;
    }

    method SetBatching(on: bool)
      modifies this
      ensures Value() == Step(old(Value()), Op.SetBatching(on)).0
    {
      batching := on;
    }

    // The backward search for the last queued item of the same user.
    method AfterLastOfUser(user: string) returns (insertAt: nat)
      ensures insertAt == AfterLastOf(items, user, |items|)
    {
      insertAt := |items|;
      var i := |items| - 1;
      while i >= 0
        invariant -1 <= i < |items|
        invariant AfterLastOf(items, user, |items|) == AfterLastOf(items, user, i + 1)
      {
        if items[i].kind.User? && items[i].user == user {
          return i + 1;
        }
        i := i - 1;
      }
    }

    method Enqueue(item: QueueItem) returns (id: string)
      modifies this
      ensures (Value(), Enqueued(id)) == Step(old(Value()), Op.Enqueue(item))
    {
      lastSeq := lastSeq + 1;
      id := if item.id == "" then NewItemId(lastSeq) else item.id;
      var stamped := item.(id := id, seqNo := lastSeq);
      if batching && item.kind.User? && item.user != "" {
        var insertAt := AfterLastOfUser(item.user);
        items := items[..insertAt] + [stamped] + items[insertAt..];
        return;
      }
      items := items + [stamped];
      assert items == old(items)[..|old(items)|] + [stamped] + old(items)[|old(items)|..];
    }

    method HasKindLocked(k: ItemKind) returns (b: bool)
      ensures b == HasKind(items, k)
    {
      for i := 0 to |items|
        invariant forall j :: 0 <= j < i ==> items[j].kind != k
      {
        if items[i].kind == k {
          return true;
        }
      }
      return false;
    }

    method SelectIndexLocked() returns (best: nat)
      requires items != []
      ensures best == SelectIndex(Value())
    {
      var hasConnector := HasKindLocked(Connector);
      var promote := a2aBusy && agentServedSinceConnector >= connectorStarveLimit && hasConnector;
      best := 0;
      for i := 1 to |items|
        invariant best == BestOf(items, promote, i)
      {
        if Better(items[i], items[best], promote) {
          best := i;
        }
      }
    }

    method RemoveLocked(idx: nat)
      requires idx < |items|
      modifies this
      ensures Value() == old(Value()).(items := RemoveAt(old(items), idx),
                agentServed := Served(old(agentServedSinceConnector), old(items)[idx].kind))
    {
      var item := items[idx];
      items := items[..idx] + items[idx + 1..];
      match item.kind {
        case Connector => agentServedSinceConnector := 0;
        case Agent => agentServedSinceConnector := agentServedSinceConnector + 1;
        case User =>
      }
    }

    method Dequeue() returns (r: Output)
      modifies this
      ensures (Value(), r) == Step(old(Value()), Op.Dequeue)
    {
      if |items| == 0 {
        return Empty;
      }
      var idx := SelectIndexLocked();
      var item := items[idx];
      RemoveLocked(idx);
      return Dequeued(item);
    }

    method Peek() returns (r: Output)
      ensures r == Step(Value(), Op.Peek).1
    {
      if |items| == 0 {
        return Empty;
      }
      var idx := SelectIndexLocked();
      return Peeked(items[idx]);
    }

    /** `fn` is the caller's callback, reduced to whether it fails; it runs after the removal. */
    method TryAutoExecute(fn: QueueItem -> bool) returns (executed: bool, failed: bool, ghost r: Output)
      modifies this
      ensures (Value(), r) == Step(old(Value()), Op.TryAutoExecute)
      ensures executed <==> r.Executed?
      ensures failed <==> executed && fn(r.item)
    {
      if |items| == 0 {
        return false, false, Empty;
      }
      var idx := SelectIndexLocked();
      if !items[idx].autoExec {
        return false, false, Refused;
      }
      var item := items[idx];
      RemoveLocked(idx);
      return true, fn(item), Executed(item);
    }

    method HasQueuedNonAgentForThread(threadId: string) returns (b: bool)
      ensures Answer(b) == Step(Value(), HasQueuedNonAgent(threadId)).1
    {
      for i := 0 to |items|
        invariant forall j :: 0 <= j < i ==> !WaitsOnThread(items[j], threadId)
      {
        if items[i].threadId == threadId && !items[i].kind.Agent? {
          assert WaitsOnThread(items[i], threadId);
          return true;
        }
      }
      return false;
    }
  }
}
