/** internal/eval/closure.go: the verdict event log. Redis clients append in two steps, reading the
    length and then running the atomic Lua script; the in-memory service appends in one. */
module Closure {

  // `payload` stands for the timestamp, actor and data, which nothing here inspects.
  datatype Event = Event(id: string, kind: string, payload: string)

  datatype ClosureState =
    | Open | Acknowledged | ActionPlanned | FixLanded | MainLanded | LiveActive
    | ReevalPending | Resolved | Suppressed | Escalated

  // ---- the projection ----

  function Transition(kind: string): (next: ClosureState)
    requires Known(kind)
  {
    match kind
    case "verdict_opened" => Open
    case "owner_acknowledged" => Acknowledged
    case "action_planned" => ActionPlanned
    case "fix_recorded" => FixLanded
    case "reeval_requested" => ReevalPending
    case "reeval_passed" => Resolved
    case "reeval_failed" => FixLanded
    case "cvo_suppressed" => Suppressed
    case _ => Escalated
  }

  /** Events of any other kind are passed over. */
  predicate Known(kind: string) {
    kind in {"verdict_opened", "owner_acknowledged", "action_planned", "fix_recorded", "reeval_requested",
             "reeval_passed", "reeval_failed", "cvo_suppressed", "sla_escalated"}
  }

  predicate Terminal(kind: string) {
    kind == "cvo_suppressed" || kind == "sla_escalated"
  }

  /** The first terminal event decides; without one, the last known event does. */
  ghost predicate IsProjection(events: seq<Event>, state: ClosureState) {
    if exists i :: 0 <= i < |events| && Terminal(events[i].kind) then
      exists i :: 0 <= i < |events| && Terminal(events[i].kind) && state == Transition(events[i].kind) &&
        forall j :: 0 <= j < i ==> !Terminal(events[j].kind)
    else if exists i :: 0 <= i < |events| && Known(events[i].kind) then
      exists i :: 0 <= i < |events| && Known(events[i].kind) && state == Transition(events[i].kind) &&
        forall j :: i < j < |events| ==> !Known(events[j].kind)
    else state == Open
  }

  method ProjectState(events: seq<Event>) returns (state: ClosureState)
    ensures IsProjection(events, state)
    // two of the ten states are never projected
    ensures !state.MainLanded? && !state.LiveActive?
  {
    state := Open;
    ghost var last := -1;
    for i := 0 to |events|
      invariant forall j :: 0 <= j < i ==> !Terminal(events[j].kind)
      invariant -1 <= last < i
      invariant forall j :: last < j < i ==> !Known(events[j].kind)
      invariant if last == -1 then state == Open else Known(events[last].kind) && state == Transition(events[last].kind)
    {
      if Known(events[i].kind) {
        if Terminal(events[i].kind) {
          return Transition(events[i].kind);
        }
        state, last := Transition(events[i].kind), i;
      }
    }
  }

  lemma ProjectionIsUnique(events: seq<Event>, a: ClosureState, b: ClosureState)
    requires IsProjection(events, a) && IsProjection(events, b)
    ensures a == b
  {
  }

  /** A suppressed or escalated verdict stays so under any further events. */
  lemma TerminalAbsorbs(events: seq<Event>, more: seq<Event>, state: ClosureState)
    requires IsProjection(events, state) && (state.Suppressed? || state.Escalated?)
    ensures IsProjection(events + more, state)
  {
    var all := events + more;
    if i :| 0 <= i < |events| && Terminal(events[i].kind) {
      var k :| 0 <= k < |events| && Terminal(events[k].kind) && state == Transition(events[k].kind) &&
        forall j :: 0 <= j < k ==> !Terminal(events[j].kind);
      assert all[k] == events[k];
      assert Terminal(all[k].kind);
      forall j | 0 <= j < k ensures !Terminal(all[j].kind) {
        assert all[j] == events[j];
      }
    }
  }

  // ---- the projection, kind by kind ----

  /** The last event of a known kind is of the given one. */
  predicate LastIs(events: seq<Event>, kind: string) {
    exists i :: 0 <= i < |events| && events[i].kind == kind && forall j :: i < j < |events| ==> !Known(events[j].kind)
  }

  predicate NoneKnown(events: seq<Event>) {
    forall i :: 0 <= i < |events| ==> !Known(events[i].kind)
  }

  /** No suppression and no escalation in the first `n` events. */
  predicate Undecided(events: seq<Event>, n: nat)
    requires n <= |events|
  {
    forall i :: 0 <= i < n ==> events[i].kind != "cvo_suppressed" && events[i].kind != "sla_escalated"
  }

  /** The first suppression or escalation of the log is of the given kind. */
  predicate DecidedBy(events: seq<Event>, kind: string) {
    exists i :: 0 <= i < |events| && events[i].kind == kind && Undecided(events, i)
  }

  lemma TransitionsOf(kind: string)
    requires Known(kind) && !Terminal(kind)
    ensures Transition(kind).Open? <==> kind == "verdict_opened"
    ensures Transition(kind).Acknowledged? <==> kind == "owner_acknowledged"
    ensures Transition(kind).ActionPlanned? <==> kind == "action_planned"
    ensures Transition(kind).FixLanded? <==> kind == "fix_recorded" || kind == "reeval_failed"
    ensures Transition(kind).ReevalPending? <==> kind == "reeval_requested"
    ensures Transition(kind).Resolved? <==> kind == "reeval_passed"
  {
  }

  // Where the last known event stands, its kind is what `LastIs` finds.
  lemma LastIsThere(events: seq<Event>, i: nat, kind: string)
    requires i < |events| && Known(events[i].kind) && Known(kind)
    requires forall j :: i < j < |events| ==> !Known(events[j].kind)
    ensures LastIs(events, kind) <==> events[i].kind == kind
  {
    if k :| 0 <= k < |events| && events[k].kind == kind && forall j :: k < j < |events| ==> !Known(events[j].kind) {
      assert Known(events[k].kind);
      assert k == i;
    }
  }

  /** The state of a log without suppression or escalation is that of its last known event. */
  lemma OpenProjection(events: seq<Event>, state: ClosureState)
    requires IsProjection(events, state) && Undecided(events, |events|)
    ensures state.Open? <==> NoneKnown(events) || LastIs(events, "verdict_opened")
    ensures state.Acknowledged? <==> LastIs(events, "owner_acknowledged")
    ensures state.ActionPlanned? <==> LastIs(events, "action_planned")
    ensures state.FixLanded? <==> LastIs(events, "fix_recorded") || LastIs(events, "reeval_failed")
    ensures state.ReevalPending? <==> LastIs(events, "reeval_requested")
    ensures state.Resolved? <==> LastIs(events, "reeval_passed")
    ensures !state.MainLanded? && !state.LiveActive? && !state.Suppressed? && !state.Escalated?
  {
    if i :| 0 <= i < |events| && Known(events[i].kind) {
      var k :| 0 <= k < |events| && Known(events[k].kind) && state == Transition(events[k].kind) &&
        forall j :: k < j < |events| ==> !Known(events[j].kind);
      TransitionsOf(events[k].kind);
      forall kind | Known(kind) ensures LastIs(events, kind) <==> events[k].kind == kind {
        LastIsThere(events, k, kind);
      }
      assert !NoneKnown(events);
    }
  }

  // Where the first terminal event stands, its kind is what `DecidedBy` finds.
  lemma DecidedThere(events: seq<Event>, k: nat, kind: string)
    requires k < |events| && Terminal(events[k].kind) && Terminal(kind)
    requires forall j :: 0 <= j < k ==> !Terminal(events[j].kind)
    ensures DecidedBy(events, kind) <==> events[k].kind == kind
  {
    assert Undecided(events, k);
    if i :| 0 <= i < |events| && events[i].kind == kind && Undecided(events, i) {
      assert Terminal(events[i].kind);
      assert i == k;
    }
  }

  lemma FirstTerminal(events: seq<Event>, state: ClosureState) returns (k: nat)
    requires IsProjection(events, state) && exists i :: 0 <= i < |events| && Terminal(events[i].kind)
    ensures k < |events| && (forall j :: 0 <= j < k ==> !Terminal(events[j].kind))
    ensures (state.Suppressed? && events[k].kind == "cvo_suppressed") ||
            (state.Escalated? && events[k].kind == "sla_escalated")
  {
    k :| 0 <= k < |events| && Terminal(events[k].kind) && state == Transition(events[k].kind) &&
      forall j :: 0 <= j < k ==> !Terminal(events[j].kind);
  }

  /** Once there is a suppression or an escalation, the first of them is the state. */
  lemma DecidedProjection(events: seq<Event>, state: ClosureState)
    requires IsProjection(events, state) && !Undecided(events, |events|)
    ensures state.Suppressed? || state.Escalated?
    ensures state.Suppressed? <==> DecidedBy(events, "cvo_suppressed")
    ensures state.Escalated? <==> DecidedBy(events, "sla_escalated")
  {
    SomeTerminal(events);
    var k := FirstTerminal(events, state);
    DecidedThere(events, k, "cvo_suppressed");
    DecidedThere(events, k, "sla_escalated");
  }

  lemma SomeTerminal(events: seq<Event>)
    requires !Undecided(events, |events|)
    ensures exists i :: 0 <= i < |events| && Terminal(events[i].kind)
  {
    var i :| 0 <= i < |events| && Terminal(events[i].kind);
  }

  // ---- the two stores ----

  /** Lists per verdict, the set of ids ever appended and the verdict index. */
  datatype Db = Db(logs: map<string, seq<Event>>, seen: set<string>, index: set<string>)

  datatype Memory = Memory(events: map<string, seq<Event>>, seen: set<string>)

  datatype Reply = Appended | Duplicate | Conflict

  function LogIn(logs: map<string, seq<Event>>, verdict: string): seq<Event> {
    if verdict in logs then logs[verdict] else []
  }

  function LogOf(db: Db, verdict: string): seq<Event> {
    LogIn(db.logs, verdict)
  }

  /** The Lua script: one atomic step. */
  function Script(db: Db, verdict: string, e: Event, expected: nat): (Db, Reply) {
    if e.id in db.seen then (db, Duplicate)
    else if |LogOf(db, verdict)| != expected then (db, Conflict)
    else
      (Db(db.logs[verdict := LogOf(db, verdict) + [e]], db.seen + {e.id}, db.index + {verdict}), Appended)
  }

  /** The in-memory append. */
  function Remember(m: Memory, verdict: string, e: Event): (Memory, Reply) {
    if e.id in m.seen then (m, Duplicate)
    else (Memory(m.events[verdict := LogIn(m.events, verdict) + [e]], m.seen + {e.id}), Appended)
  }

  class MemoryClosureService {
    var events: map<string, seq<Event>>
    var seen: set<string>

    function Value(): Memory
      reads this
    {
      Memory(events, seen)
    }

    method AppendEvent(verdict: string, e: Event) returns (r: Reply)
      modifies this
      ensures (Value(), r) == Remember(old(Value()), verdict, e)
    {
      if e.id in seen {
        return Duplicate;
      }
      seen := seen + {e.id};
      events := events[verdict := (if verdict in events then events[verdict] else []) + [e]];
      return Appended;
    }

    method CurrentState(verdict: string) returns (state: ClosureState)
      ensures IsProjection(LogIn(events, verdict), state)
    {
      state := ProjectState(if verdict in events then events[verdict] else []);
    }
  }

  class RedisClosureService {
    var logs: map<string, seq<Event>>
    var seen: set<string>
    var index: set<string>

    function Value(): Db
      reads this
    {
      Db(logs, seen, index)
    }

    method LLen(verdict: string) returns (n: nat)
      ensures n == |LogOf(Value(), verdict)|
    {
      n := if verdict in logs then |logs[verdict]| else 0;
    }

    method Eval(verdict: string, e: Event, expected: nat) returns (r: Reply)
      modifies this
      ensures (Value(), r) == Script(old(Value()), verdict, e, expected)
    {
      if e.id in seen {
        return Duplicate;
      }
      var current := LLen(verdict);
      if current != expected {
        return Conflict;
      }
      seen := seen + {e.id};
      index := index + {verdict};
      logs := logs[verdict := (if verdict in logs then logs[verdict] else []) + [e]];
      return Appended;
    }

    /** An append that nobody interleaves with never conflicts. */
    method AppendEvent(verdict: string, e: Event) returns (r: Reply)
      modifies this
      ensures !r.Conflict?
      ensures (Memory(logs, seen), r) == Remember(old(Memory(logs, seen)), verdict, e)
    {
      var currentLen := LLen(verdict);
      r := Eval(verdict, e, currentLen);
    }
  }

  // ---- concurrent clients ----

  datatype Client = Client(verdict: string, event: Event, pc: Pc)

  /** Before reading the length, between the two steps, and done. */
  datatype Pc = Reading | Posting(read: nat) | Finished(read: nat, reply: Reply)

  datatype System = System(db: Db, clients: map<nat, Client>)

  datatype Action = Submit(c: nat, verdict: string, event: Event) | Read(c: nat) | Post(c: nat)

  predicate Enabled(s: System, a: Action) {
    match a
    case Submit(c, _, _) => c !in s.clients
    case Read(c) => c in s.clients && s.clients[c].pc.Reading?
    case Post(c) => c in s.clients && s.clients[c].pc.Posting?
  }

  function Outcome(s: System, c: nat): (Db, Reply)
    requires Enabled(s, Post(c))
  {
    Script(s.db, s.clients[c].verdict, s.clients[c].event, s.clients[c].pc.read)
  }

  function Step(s: System, a: Action): System
    requires Enabled(s, a)
  {
    match a
    case Submit(c, v, e) => s.(clients := s.clients[c := Client(v, e, Reading)])
    case Read(c) => s.(clients := s.clients[c := s.clients[c].(pc := Posting(|LogOf(s.db, s.clients[c].verdict)|))])
    case Post(c) =>
      System(Outcome(s, c).0, s.clients[c := s.clients[c].(pc := Finished(s.clients[c].pc.read, Outcome(s, c).1))])
  }

  const INITIAL := System(Db(map[], {}, {}), map[])

  ghost predicate Reaches(s: System, actions: seq<Action>, t: System)
    decreases actions
  {
    if actions == [] then s == t else Enabled(s, actions[0]) && Reaches(Step(s, actions[0]), actions[1..], t)
  }

  // ---- the invariant ----

  /** Where an event with the given id sits. */
  predicate At(db: Db, v: string, i: int, id: string) {
    v in db.logs && 0 <= i < |db.logs[v]| && db.logs[v][i].id == id
  }

  ghost predicate DbInv(db: Db) {
    && (forall v, i, w, j, id :: At(db, v, i, id) && At(db, w, j, id) ==> v == w && i == j)
    && (forall v, i, id :: At(db, v, i, id) ==> id in db.seen)
    && (forall id :: id in db.seen ==> exists v, i :: At(db, v, i, id))
    && db.index == db.logs.Keys
    && (forall v :: v in db.logs ==> db.logs[v] != [])
  }

  ghost predicate ClientInv(s: System, c: nat)
    requires c in s.clients
  {
    match s.clients[c].pc
    case Reading => true
    case Posting(n) => n <= |LogOf(s.db, s.clients[c].verdict)|
    case Finished(n, r) =>
      r.Appended? ==>
        n < |LogOf(s.db, s.clients[c].verdict)| && LogOf(s.db, s.clients[c].verdict)[n] == s.clients[c].event
  }

  ghost predicate Inv(s: System) {
    && DbInv(s.db)
    && (forall c :: c in s.clients ==> ClientInv(s, c))
    && (forall c, d :: c in s.clients && d in s.clients && c != d && Landed(s.clients[c]) && Landed(s.clients[d]) ==>
          s.clients[c].event.id != s.clients[d].event.id)
  }

  predicate Landed(c: Client) {
    c.pc.Finished? && c.pc.reply.Appended?
  }

  lemma ScriptKeepsDb(db: Db, v: string, e: Event, expected: nat)
    requires DbInv(db)
    ensures DbInv(Script(db, v, e, expected).0)
    ensures forall w :: LogOf(db, w) <= LogOf(Script(db, v, e, expected).0, w)
    ensures Script(db, v, e, expected).1.Appended? ==>
              e.id !in db.seen && expected == |LogOf(db, v)| &&
              LogOf(Script(db, v, e, expected).0, v) == LogOf(db, v) + [e]
  {
    var db' := Script(db, v, e, expected).0;
    if Script(db, v, e, expected).1.Appended? {
      var n := |LogOf(db, v)|;
      forall w, i, id ensures At(db', w, i, id) <==> At(db, w, i, id) || (w == v && i == n && id == e.id) {
        if w == v && v !in db.logs { assert LogOf(db, v) == []; }
      }
      forall id | id in db'.seen ensures exists w, i :: At(db', w, i, id) {
        if id == e.id {
          assert At(db', v, n, id);
        } else {
          var w, i :| At(db, w, i, id);
          assert At(db', w, i, id);
        }
      }
    }
  }

  lemma StepKeepsInv(s: System, a: Action)
    requires Inv(s) && Enabled(s, a)
    ensures Inv(Step(s, a))
    ensures forall v :: LogOf(s.db, v) <= LogOf(Step(s, a).db, v)
  {
    if a.Post? {
      PostKeepsInv(s, a.c);
    }
  }

  lemma PostKeepsInv(s: System, c: nat)
    requires Inv(s) && Enabled(s, Post(c))
    ensures Inv(Step(s, Post(c)))
    ensures forall v :: LogOf(s.db, v) <= LogOf(Step(s, Post(c)).db, v)
  {
    var s' := Step(s, Post(c));
    var cl := s.clients[c];
    ScriptKeepsDb(s.db, cl.verdict, cl.event, cl.pc.read);
    forall d | d in s'.clients ensures ClientInv(s', d) {
      assert d != c ==> s'.clients[d] == s.clients[d] && ClientInv(s, d);
      assert LogOf(s.db, s'.clients[d].verdict) <= LogOf(s'.db, s'.clients[d].verdict);
    }
    forall d | d in s.clients && d != c && Landed(s.clients[d]) ensures s.clients[d].event.id in s.db.seen {
      assert ClientInv(s, d);
      assert At(s.db, s.clients[d].verdict, s.clients[d].pc.read, s.clients[d].event.id);
    }
  }

  /** In every reachable state ids are unique across all logs and are exactly the seen set, an
      appended event sits at the index its client read, and logs have only grown. */
  lemma {:induction false} RunKeepsInv(s: System, actions: seq<Action>, t: System)
    requires Inv(s) && Reaches(s, actions, t)
    ensures Inv(t)
    ensures forall v :: LogOf(s.db, v) <= LogOf(t.db, v)
    decreases actions
  {
    if actions != [] {
      StepKeepsInv(s, actions[0]);
      RunKeepsInv(Step(s, actions[0]), actions[1..], t);
    }
  }

  /** At most one client ever lands at a given index of a log. */
  lemma OneWinnerPerIndex(actions: seq<Action>, t: System, c: nat, d: nat)
    requires Reaches(INITIAL, actions, t) && c in t.clients && d in t.clients
    requires Landed(t.clients[c]) && Landed(t.clients[d])
    requires t.clients[c].verdict == t.clients[d].verdict && t.clients[c].pc.read == t.clients[d].pc.read
    ensures c == d
  {
    RunKeepsInv(INITIAL, actions, t);
    assert ClientInv(t, c) && ClientInv(t, d);
  }

  /** A conflict means another client's append got in between the two steps: when nobody wrote to
      the verdict since the read, the post is not refused as a conflict. */
  lemma ConflictIffLogGrew(s: System, c: nat)
    requires Inv(s) && Enabled(s, Post(c))
    ensures Outcome(s, c).1.Conflict? <==>
            s.clients[c].event.id !in s.db.seen && |LogOf(s.db, s.clients[c].verdict)| > s.clients[c].pc.read
    ensures Outcome(s, c).1.Conflict? ==> Outcome(s, c).0 == s.db
  {
    assert ClientInv(s, c);
  }

  // ---- refinement of the in-memory service ----

  function Abstract(db: Db): Memory {
    Memory(db.logs, db.seen)
  }

  datatype Attempt = Attempt(verdict: string, event: Event, reply: Reply)

  /** The posts that were not conflicts, in the order their scripts ran, with their replies. */
  ghost function Effective(s: System, actions: seq<Action>): seq<Attempt>
    decreases actions
  {
    if actions == [] || !Enabled(s, actions[0]) then []
    else
      (if actions[0].Post? && !Outcome(s, actions[0].c).1.Conflict? then
         [Attempt(s.clients[actions[0].c].verdict, s.clients[actions[0].c].event, Outcome(s, actions[0].c).1)]
       else []) + Effective(Step(s, actions[0]), actions[1..])
  }

  /** Running the attempts one after another through the in-memory service gives `m'` and the
      very replies the clients saw. */
  predicate Replays(m: Memory, attempts: seq<Attempt>, m': Memory)
    decreases attempts
  {
    if attempts == [] then m == m'
    else
      var (next, reply) := Remember(m, attempts[0].verdict, attempts[0].event);
      reply == attempts[0].reply && Replays(next, attempts[1..], m')
  }

  /** Any interleaving of clients is the in-memory service run in script order: same logs, same
      replies, with conflicts changing nothing. */
  lemma {:induction false} ConcurrentRefinesMemory(s: System, actions: seq<Action>, t: System)
    requires Reaches(s, actions, t)
    ensures Replays(Abstract(s.db), Effective(s, actions), Abstract(t.db))
    decreases actions
  {
    if actions != [] {
      var s' := Step(s, actions[0]);
      var rest := Effective(s', actions[1..]);
      ConcurrentRefinesMemory(s', actions[1..], t);
      if actions[0].Post? && !Outcome(s, actions[0].c).1.Conflict? {
        var cl := s.clients[actions[0].c];
        var first := Attempt(cl.verdict, cl.event, Outcome(s, actions[0].c).1);
        assert Effective(s, actions) == [first] + rest;
        assert ([first] + rest)[1..] == rest;
        assert Remember(Abstract(s.db), cl.verdict, cl.event) == (Abstract(s'.db), first.reply);
      } else {
        assert Effective(s, actions) == rest;
      }
    }
  }

  /** Once a verdict projects to suppressed or escalated, it does so in every later state of
      every run, whatever the clients do. */
  lemma TerminalForever(s: System, actions: seq<Action>, t: System, v: string, state: ClosureState)
    requires Inv(s) && Reaches(s, actions, t)
    requires IsProjection(LogOf(s.db, v), state) && (state.Suppressed? || state.Escalated?)
    ensures IsProjection(LogOf(t.db, v), state)
  {
    RunKeepsInv(s, actions, t);
    var n := |LogOf(s.db, v)|;
    assert LogOf(t.db, v) == LogOf(s.db, v) + LogOf(t.db, v)[n..];
    TerminalAbsorbs(LogOf(s.db, v), LogOf(t.db, v)[n..], state);
  }
}
