/** internal/dossier/checkpoint.go: the in-memory opportunity store, one `record` call on its own,
    and any number of concurrent calls interleaved between lock acquisitions. */
module Checkpoint {

  datatype OppStatus = Pending | Converted | Dismissed

  datatype Opportunity = Opportunity(
    sourceEvent: string, sourceId: string, targetDogId: string, threadId: string, reviewerDogId: string,
    status: OppStatus, proposalId: string)

  // Opportunity ids are the numbers behind "opp-%d".
  datatype Store = Store(items: map<nat, Opportunity>, bySource: map<string, nat>, counter: nat)

  // ---- the store as functions ----

  predicate Recorded(st: Store, sourceId: string) {
    sourceId in st.bySource && st.bySource[sourceId] in st.items
  }

  function CreateIn(st: Store, op: Opportunity): Store {
    Store(st.items[st.counter + 1 := op.(status := Pending)], st.bySource[op.sourceId := st.counter + 1],
      st.counter + 1)
  }

  predicate Open(st: Store, id: nat) {
    id in st.items && st.items[id].status.Pending?
  }

  function DismissIn(st: Store, id: nat): Store {
    if Open(st, id) then st.(items := st.items[id := st.items[id].(status := Dismissed)]) else st
  }

  function ConvertIn(st: Store, id: nat, proposalId: string): Store {
    if Open(st, id) then
      st.(items := st.items[id := st.items[id].(status := Converted, proposalId := proposalId)])
    else st
  }

  class InMemoryOpportunityStore {
    var items: map<nat, Opportunity>
    var bySource: map<string, nat>
    var counter: nat

    function Value(): Store
      reads this
    {
      Store(items, bySource, counter)
    }

    constructor ()
      ensures Value() == Store(map[], map[], 0)
    {
      items, bySource, counter := map[], map[], 0;
    }

    method GetBySourceID(sourceId: string) returns (found: bool)
      ensures found <==> Recorded(Value(), sourceId)
    {
      if sourceId !in bySource {
        return false;
      }
      return bySource[sourceId] in items;
    }

    method Create(op: Opportunity) returns (id: nat)
      modifies this
      ensures Value() == CreateIn(old(Value()), op) && id == counter
    {
      counter := counter + 1;
      id := counter;
      items := items[id := op.(status := Pending)];
      bySource := bySource[op.sourceId := id];
    }

    method Dismiss(id: nat) returns (ok: bool)
      modifies this
      ensures ok <==> Open(old(Value()), id)
      ensures Value() == DismissIn(old(Value()), id)
    {
      if id !in items || !items[id].status.Pending? {
        return false;
      }
      items := items[id := items[id].(status := Dismissed)];
      return true;
    }

    method MarkConverted(id: nat, proposalId: string) returns (ok: bool)
      modifies this
      ensures ok <==> Open(old(Value()), id)
      ensures Value() == ConvertIn(old(Value()), id, proposalId)
    {
      if id !in items || !items[id].status.Pending? {
        return false;
      }
      items := items[id := items[id].(status := Converted, proposalId := proposalId)];
      return true;
    }
  }

  class CheckpointService {
    const store: InMemoryOpportunityStore
    var inFlight: set<string>

    constructor (store: InMemoryOpportunityStore)
      ensures this.store == store && inFlight == {}
    {
      this.store := store;
      inFlight := {};
    }

    /** One call that nothing interrupts. */
    method Record(op: Opportunity) returns (created: bool)
      modifies this, store
      ensures created <==> !Recorded(old(store.Value()), op.sourceId) && op.sourceId !in old(inFlight)
      ensures store.Value() == if created then CreateIn(old(store.Value()), op) else old(store.Value())
      ensures inFlight == old(inFlight)
    {
      var found := store.GetBySourceID(op.sourceId);
      if found {
        return false;
      }
      if op.sourceId in inFlight {
        return false;
      }
      inFlight := inFlight + {op.sourceId};
      found := store.GetBySourceID(op.sourceId);
      if found {
        created := false;
      } else {
        var id := store.Create(op);
        created := true;
      }
      inFlight := inFlight - {op.sourceId};
    }
  }

  // ---- concurrent calls ----

  /** Where a `record` call stands between two lock acquisitions. */
  datatype Pc = Checking | Acquiring | Rechecking | Creating | Releasing(created: bool) | Returned(created: bool)

  datatype Call = Call(op: Opportunity, pc: Pc)

  /** The shared state and every call so far. `slots` is the in-flight set together with the call
      that holds each entry; `winners` and `failed` are history: the call whose Create recorded a
      source, and the sources for which a store's Create returned an error. */
  datatype System = System(
    store: Store, slots: map<string, nat>, calls: map<nat, Call>, winners: map<string, nat>, failed: set<string>)

  datatype Event =
    | Start(t: nat, op: Opportunity)
    | Advance(t: nat)
    | FailCreate(t: nat)
    | Dismiss(id: nat)
    | Convert(id: nat, proposalId: string)

  predicate Enabled(s: System, e: Event) {
    match e
    case Start(t, _) => t !in s.calls
    case Advance(t) => t in s.calls && !s.calls[t].pc.Returned?
    case FailCreate(t) => t in s.calls && s.calls[t].pc.Creating?
    case Dismiss(_) => true
    case Convert(_, _) => true
  }

  function Src(s: System, t: nat): string
    requires t in s.calls
  {
    s.calls[t].op.sourceId
  }

  function Move(s: System, t: nat, pc: Pc): System
    requires t in s.calls
  {
    s.(calls := s.calls[t := s.calls[t].(pc := pc)])
  }

  // The five locked sections of a `record` call.
  function Check(s: System, t: nat): System
    requires t in s.calls
  {
    Move(s, t, if Recorded(s.store, Src(s, t)) then Returned(false) else Acquiring)
  }

  function Acquire(s: System, t: nat): System
    requires t in s.calls
  {
    if Src(s, t) in s.slots then Move(s, t, Returned(false))
    else Move(s, t, Rechecking).(slots := s.slots[Src(s, t) := t])
  }

  function Recheck(s: System, t: nat): System
    requires t in s.calls
  {
    Move(s, t, if Recorded(s.store, Src(s, t)) then Releasing(false) else Creating)
  }

  function Create(s: System, t: nat): System
    requires t in s.calls
  {
    Move(s, t, Releasing(true)).(store := CreateIn(s.store, s.calls[t].op), winners := s.winners[Src(s, t) := t])
  }

  function Release(s: System, t: nat, created: bool): System
    requires t in s.calls
  {
    Move(s, t, Returned(created)).(slots := s.slots - {Src(s, t)})
  }

  function Step(s: System, e: Event): System
    requires Enabled(s, e)
  {
    match e
    case Start(t, op) => s.(calls := s.calls[t := Call(op, Checking)])
    case Advance(t) =>
      (match s.calls[t].pc
       case Checking => Check(s, t)
       case Acquiring => Acquire(s, t)
       case Rechecking => Recheck(s, t)
       case Creating => Create(s, t)
       case Releasing(created) => Release(s, t, created)
       case Returned(_) => s)
    case FailCreate(t) => Move(s, t, Releasing(false)).(failed := s.failed + {Src(s, t)})
    case Dismiss(id) => s.(store := DismissIn(s.store, id))
    case Convert(id, proposalId) => s.(store := ConvertIn(s.store, id, proposalId))
  }

  const INITIAL := System(Store(map[], map[], 0), map[], map[], map[], {})

  ghost predicate Reaches(s: System, events: seq<Event>, t: System)
    decreases events
  {
    if events == [] then s == t else Enabled(s, events[0]) && Reaches(Step(s, events[0]), events[1..], t)
  }

  ghost predicate Reachable(s: System) {
    exists events :: Reaches(INITIAL, events, s)
  }

  // ---- the invariant ----

  predicate Holding(c: Call) {
    c.pc.Rechecking? || c.pc.Creating? || c.pc.Releasing?
  }

  predicate Succeeded(c: Call) {
    (c.pc.Releasing? || c.pc.Returned?) && c.pc.created
  }

  // Each opportunity is filed under its source, so no two share one.
  ghost predicate StoreInv(st: Store) {
    && (forall id :: id in st.items ==>
          id <= st.counter && st.items[id].sourceId in st.bySource && st.bySource[st.items[id].sourceId] == id)
    && (forall src :: src in st.bySource ==> st.bySource[src] in st.items && st.items[st.bySource[src]].sourceId == src)
  }

  // The in-flight set is a mutual exclusion per source, and creating happens inside it.
  ghost predicate SlotInv(s: System) {
    && (forall t :: t in s.calls && Holding(s.calls[t]) ==> Src(s, t) in s.slots && s.slots[Src(s, t)] == t)
    && (forall src :: src in s.slots ==>
          s.slots[src] in s.calls && Holding(s.calls[s.slots[src]]) && Src(s, s.slots[src]) == src)
    && (forall t :: t in s.calls && s.calls[t].pc.Creating? ==> Src(s, t) !in s.store.bySource)
  }

  // The calls that return true are in one-to-one correspondence with the recorded sources.
  ghost predicate WinnerInv(s: System) {
    && s.winners.Keys == s.store.bySource.Keys
    && (forall t :: t in s.calls && Succeeded(s.calls[t]) ==> Src(s, t) in s.winners && s.winners[Src(s, t)] == t)
    && (forall src :: src in s.winners ==>
          s.winners[src] in s.calls && Succeeded(s.calls[s.winners[src]]) && Src(s, s.winners[src]) == src)
  }

  predicate Handled(s: System, src: string) {
    src in s.store.bySource || src in s.failed
  }

  // A call that gave up left its source recorded, failed, or in the hands of another call.
  ghost predicate HandledInv(s: System) {
    && (forall t :: t in s.calls && s.calls[t].pc.Releasing? ==> Handled(s, Src(s, t)))
    && (forall t :: t in s.calls && s.calls[t].pc.Returned? ==> Handled(s, Src(s, t)) || Src(s, t) in s.slots)
  }

  ghost predicate Inv(s: System) {
    StoreInv(s.store) && SlotInv(s) && WinnerInv(s) && HandledInv(s)
  }

  // ---- the invariant holds throughout ----

  // A move between program counters that neither takes nor frees the slot nor decides the call.
  lemma MoveKeeps(s: System, t: nat, pc: Pc)
    requires Inv(s) && t in s.calls
    requires Holding(s.calls[t].(pc := pc)) == Holding(s.calls[t])
    requires Succeeded(s.calls[t].(pc := pc)) == Succeeded(s.calls[t])
    requires pc.Creating? ==> Src(s, t) !in s.store.bySource
    requires pc.Releasing? ==> Handled(s, Src(s, t))
    requires pc.Returned? ==> Handled(s, Src(s, t)) || Src(s, t) in s.slots
    ensures Inv(Move(s, t, pc))
  {
    MoveKeepsSlots(s, t, pc);
    MoveKeepsWinners(s, t, pc);
  }

  lemma MoveKeepsSlots(s: System, t: nat, pc: Pc)
    requires SlotInv(s) && t in s.calls
    requires Holding(s.calls[t].(pc := pc)) == Holding(s.calls[t])
    requires pc.Creating? ==> Src(s, t) !in s.store.bySource
    ensures SlotInv(Move(s, t, pc))
  {
  }

  lemma MoveKeepsWinners(s: System, t: nat, pc: Pc)
    requires WinnerInv(s) && t in s.calls
    requires Succeeded(s.calls[t].(pc := pc)) == Succeeded(s.calls[t])
    ensures WinnerInv(Move(s, t, pc))
  {
  }

  lemma StartKeeps(s: System, t: nat, op: Opportunity)
    requires Inv(s) && t !in s.calls
    ensures Inv(Step(s, Start(t, op)))
  {
    assert SlotInv(Step(s, Start(t, op)));
    assert WinnerInv(Step(s, Start(t, op)));
  }

  lemma AcquireKeeps(s: System, t: nat)
    requires Inv(s) && t in s.calls && s.calls[t].pc.Acquiring? && Src(s, t) !in s.slots
    ensures Inv(Acquire(s, t))
  {
    AcquireKeepsSlots(s, t);
    var moved := Move(s, t, Rechecking);
    MoveKeepsWinners(s, t, Rechecking);
    assert WinnerInv(moved);
  }

  lemma AcquireKeepsSlots(s: System, t: nat)
    requires SlotInv(s) && t in s.calls && s.calls[t].pc.Acquiring? && Src(s, t) !in s.slots
    ensures SlotInv(Acquire(s, t))
  {
  }

  lemma CreateKeepsStore(st: Store, op: Opportunity)
    requires StoreInv(st) && op.sourceId !in st.bySource
    ensures StoreInv(CreateIn(st, op))
  {
  }

  lemma CreateKeeps(s: System, t: nat)
    requires Inv(s) && t in s.calls && s.calls[t].pc.Creating?
    ensures Inv(Create(s, t))
  {
    CreateKeepsStore(s.store, s.calls[t].op);
    CreateKeepsSlots(s, t);
    CreateKeepsWinners(s, t);
  }

  lemma CreateKeepsSlots(s: System, t: nat)
    requires SlotInv(s) && t in s.calls && s.calls[t].pc.Creating?
    ensures SlotInv(Create(s, t))
  {
  }

  lemma CreateKeepsWinners(s: System, t: nat)
    requires WinnerInv(s) && t in s.calls && s.calls[t].pc.Creating? && Src(s, t) !in s.store.bySource
    ensures WinnerInv(Create(s, t))
  {
  }

  lemma ReleaseKeeps(s: System, t: nat, created: bool)
    requires Inv(s) && t in s.calls && s.calls[t].pc == Releasing(created)
    ensures Inv(Release(s, t, created))
  {
    assert SlotInv(Release(s, t, created));
    assert WinnerInv(Release(s, t, created));
  }

  lemma FailKeeps(s: System, t: nat)
    requires Inv(s) && t in s.calls && s.calls[t].pc.Creating?
    ensures Inv(Step(s, FailCreate(t)))
  {
    MoveKeeps(s.(failed := s.failed + {Src(s, t)}), t, Releasing(false));
  }

  // Dismissing or converting changes no id or source.
  lemma DisposeKeeps(s: System, st: Store)
    requires Inv(s)
    requires st.items.Keys == s.store.items.Keys && st.bySource == s.store.bySource && st.counter == s.store.counter
    requires forall id :: id in st.items ==> st.items[id].sourceId == s.store.items[id].sourceId
    ensures Inv(s.(store := st))
  {
    assert SlotInv(s.(store := st));
  }

  /** Every lock-granular step of every interleaving keeps the invariant. */
  lemma StepKeepsInv(s: System, e: Event)
    requires Inv(s) && Enabled(s, e)
    ensures Inv(Step(s, e))
  {
    match e {
      case Start(t, op) => StartKeeps(s, t, op);
      case FailCreate(t) => FailKeeps(s, t);
      case Dismiss(id) => DisposeKeeps(s, DismissIn(s.store, id));
      case Convert(id, p) => DisposeKeeps(s, ConvertIn(s.store, id, p));
      case Advance(t) => AdvanceKeepsInv(s, t);
    }
  }

  lemma AdvanceKeepsInv(s: System, t: nat)
    requires Inv(s) && Enabled(s, Advance(t))
    ensures Inv(Step(s, Advance(t)))
  {
    match s.calls[t].pc {
      case Checking => MoveKeeps(s, t, if Recorded(s.store, Src(s, t)) then Returned(false) else Acquiring);
      case Acquiring => if Src(s, t) in s.slots { MoveKeeps(s, t, Returned(false)); } else { AcquireKeeps(s, t); }
      case Rechecking => MoveKeeps(s, t, if Recorded(s.store, Src(s, t)) then Releasing(false) else Creating);
      case Creating => CreateKeeps(s, t);
      case Releasing(created) => ReleaseKeeps(s, t, created);
    }
  }

  lemma {:induction false} RunKeepsInv(s: System, events: seq<Event>, t: System)
    requires Inv(s) && Reaches(s, events, t)
    ensures Inv(t)
    decreases events
  {
    if events != [] {
      StepKeepsInv(s, events[0]);
      RunKeepsInv(Step(s, events[0]), events[1..], t);
    }
  }

  lemma ReachableInv(s: System)
    requires Reachable(s)
    ensures Inv(s)
  {
    var events :| Reaches(INITIAL, events, s);
    RunKeepsInv(INITIAL, events, s);
  }

  // ---- what the interleavings guarantee ----

  /** No two opportunities are ever created for one source. */
  lemma AtMostOnePerSource(s: System, i: nat, j: nat)
    requires Reachable(s) && i in s.store.items && j in s.store.items
    requires s.store.items[i].sourceId == s.store.items[j].sourceId
    ensures i == j
  {
    ReachableInv(s);
  }

  function Successes(s: System): set<nat> {
    set t | t in s.calls && Succeeded(s.calls[t])
  }

  // A map whose values are distinct has as many values as keys.
  lemma {:induction false} Injective<K, V>(m: map<K, V>)
    requires forall j, k :: j in m && k in m && m[j] == m[k] ==> j == k
    ensures |m.Values| == |m|
    decreases |m|
  {
    if m == map[] {
      assert m.Values == {};
    } else {
      var k :| k in m;
      var rest := m - {k};
      Injective(rest);
      forall v | v in m.Values ensures v in rest.Values + {m[k]} {
        var j :| j in m && m[j] == v;
        if j != k { assert rest[j] == v && j in rest; }
      }
      assert m[k] !in rest.Values;
      assert m.Values == rest.Values + {m[k]};
      assert m.Keys == rest.Keys + {k};
      assert |m| == |m.Keys| && |rest| == |rest.Keys|;
    }
  }

  /** As many calls return true as there are opportunities. */
  lemma TrueCallsCountOpportunities(s: System)
    requires Reachable(s)
    ensures |Successes(s)| == |s.store.items|
  {
    ReachableInv(s);
    Injective(s.winners);
    Injective(s.store.bySource);
    assert s.winners.Values == Successes(s);
    assert s.store.bySource.Values == s.store.items.Keys;
    assert |s.winners| == |s.winners.Keys| == |s.store.bySource.Keys| == |s.store.bySource|;
    assert |s.store.items| == |s.store.items.Keys|;
  }

  /** Once every call has returned, each source that was asked for and met no store error has
      exactly one opportunity, and exactly one of its calls returned true. */
  lemma ExactlyOnceAtRest(s: System, t: nat)
    requires Reachable(s) && t in s.calls && Src(s, t) !in s.failed
    requires forall u :: u in s.calls ==> s.calls[u].pc.Returned?
    ensures s.slots == map[] && Recorded(s.store, Src(s, t))
    ensures exists w :: w in s.calls && Src(s, w) == Src(s, t) && s.calls[w].pc == Returned(true) &&
              forall v :: v in s.calls && Src(s, v) == Src(s, t) && v != w ==> s.calls[v].pc == Returned(false)
  {
    ReachableInv(s);
    assert s.slots == map[];
    var w := s.winners[Src(s, t)];
    assert w in s.calls && Src(s, w) == Src(s, t) && s.calls[w].pc == Returned(true);
  }

  // A call finishes after at most five of its own steps.
  function StepsLeft(pc: Pc): nat {
    match pc
    case Checking => 5
    case Acquiring => 4
    case Rechecking => 3
    case Creating => 2
    case Releasing(_) => 1
    case Returned(_) => 0
  }

  /** No call waits for another: each of its steps is enabled until it returns, brings it closer
      to returning, and leaves the other calls where they were. */
  lemma AdvanceProgresses(s: System, t: nat)
    requires t in s.calls && !s.calls[t].pc.Returned?
    ensures Enabled(s, Advance(t)) && t in Step(s, Advance(t)).calls
    ensures StepsLeft(Step(s, Advance(t)).calls[t].pc) < StepsLeft(s.calls[t].pc)
    ensures forall u :: u in s.calls && u != t ==>
            u in Step(s, Advance(t)).calls && Step(s, Advance(t)).calls[u] == s.calls[u]
  {
  }

  // ---- leaving pending ----

  /** How often the events of a run, as far as they are enabled, take the opportunity out of
      pending. */
  ghost function Exits(s: System, events: seq<Event>, id: nat): nat
    decreases events
  {
    if events == [] || !Enabled(s, events[0]) then 0
    else
      var s' := Step(s, events[0]);
      (if Open(s.store, id) && !Open(s'.store, id) then 1 else 0) + Exits(s', events[1..], id)
  }

  // An opportunity that is no longer pending is never touched again.
  lemma ClosedStaysClosed(s: System, e: Event, id: nat)
    requires Inv(s) && Enabled(s, e) && id in s.store.items && !Open(s.store, id)
    ensures id in Step(s, e).store.items && Step(s, e).store.items[id] == s.store.items[id]
  {
    match e {
      case Advance(t) => if s.calls[t].pc.Creating? { assert id != s.store.counter + 1; }
      case _ =>
    }
  }

  lemma StaysInStore(s: System, e: Event, id: nat)
    requires Enabled(s, e) && id in s.store.items
    ensures id in Step(s, e).store.items
  {
  }

  /** Along any run an opportunity leaves pending at most once, and never again once it has. */
  lemma {:induction false} LeavesPendingAtMostOnce(s: System, events: seq<Event>, id: nat)
    requires Inv(s)
    ensures Exits(s, events, id) <= if id in s.store.items && !Open(s.store, id) then 0 else 1
    decreases events
  {
    if events != [] && Enabled(s, events[0]) {
      var s' := Step(s, events[0]);
      StepKeepsInv(s, events[0]);
      LeavesPendingAtMostOnce(s', events[1..], id);
      if id in s.store.items {
        StaysInStore(s, events[0], id);
        if !Open(s.store, id) { ClosedStaysClosed(s, events[0], id); }
      }
    }
  }

  // ---- one call alone, in the two models ----

  function RunAlone(s: System, t: nat, n: nat): System
    decreases n
  {
    if n == 0 || t !in s.calls || s.calls[t].pc.Returned? then s else RunAlone(Step(s, Advance(t)), t, n - 1)
  }

  /** A call that nothing interleaves with does to the store, the in-flight set and its result
      what the sequential Record does. */
  lemma SoloCallIsRecord(s: System, t: nat)
    requires StoreInv(s.store) && t in s.calls && s.calls[t].pc.Checking?
    ensures var r := RunAlone(s, t, 5);
            var created := !Recorded(s.store, Src(s, t)) && Src(s, t) !in s.slots;
            && t in r.calls && r.calls[t].pc == Returned(created)
            && r.slots == s.slots
            && r.store == if created then CreateIn(s.store, s.calls[t].op) else s.store
  {
    var s1 := Check(s, t);
    assert RunAlone(s, t, 5) == RunAlone(s1, t, 4);
    if s1.calls[t].pc.Acquiring? {
      var s2 := Acquire(s1, t);
      assert RunAlone(s1, t, 4) == RunAlone(s2, t, 3);
      if s2.calls[t].pc.Rechecking? {
        var s3 := Recheck(s2, t);
        assert RunAlone(s2, t, 3) == RunAlone(s3, t, 2);
        var s4 := Create(s3, t);
        assert RunAlone(s3, t, 2) == RunAlone(s4, t, 1);
        assert RunAlone(s4, t, 1) == Release(s4, t, true);
        assert s.slots[Src(s, t) := t] - {Src(s, t)} == s.slots;
      }
    }
  }

  // ---- what becomes of an opportunity ----

  /** A source is recorded while the opportunity last filed under it is there. */
  lemma RecordedIff(st: Store, sourceId: string)
    ensures Recorded(st, sourceId) <==>
            exists id :: id in st.items && sourceId in st.bySource && st.bySource[sourceId] == id
  {
  }

  /** A created opportunity is pending under a new number, whatever status it came with. */
  lemma CreateLeaves(st: Store, op: Opportunity)
    ensures var st' := CreateIn(st, op); var id := st.counter + 1;
            && st'.counter == id && st'.items.Keys == st.items.Keys + {id} && st'.items[id] == op.(status := Pending)
            && (forall x :: x in st.items && x != id ==> st'.items[x] == st.items[x])
            && st'.bySource.Keys == st.bySource.Keys + {op.sourceId} && st'.bySource[op.sourceId] == id
            && forall src :: src in st.bySource && src != op.sourceId ==> st'.bySource[src] == st.bySource[src]
  {
  }

  /** A pending opportunity is dismissed, or converted with the proposal's id; any other stays, and so do
      all the rest. */
  lemma SettleLeaves(st: Store, id: nat, proposalId: string)
    ensures var d, c := DismissIn(st, id), ConvertIn(st, id, proposalId);
            && d == st.(items := d.items) && c == st.(items := c.items)
            && d.items.Keys == c.items.Keys == st.items.Keys
            && (forall x :: x in st.items && x != id ==> d.items[x] == c.items[x] == st.items[x])
            && (id in st.items && !st.items[id].status.Pending? ==> d == c == st)
            && (id in st.items && st.items[id].status.Pending? ==>
                d.items[id] == st.items[id].(status := Dismissed) &&
                c.items[id] == st.items[id].(status := Converted, proposalId := proposalId))
  {
  }
}
