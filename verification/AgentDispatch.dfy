/** internal/capability/agent_dispatch.go: Kahn's algorithm with cycle detection, followed by a
    guarded planning loop. Statuses and skip reasons are the source's string constants as
    datatypes; the SHA-256 of the dedup key is taken to be injective, so the key is its preimage. */
module AgentDispatch {
  import opened DependencyGraph

  // ---- phase 1: topological sort ----

  function At(m: map<string, seq<string>>, k: string): seq<string> {
    if k in m then m[k] else []
  }

  /** The first loop: the task each id stands for, and a zero in-degree for it. */
  method IndexTasks(subtasks: seq<SubTask>) returns (idMap: map<string, SubTask>, inDegree: map<string, int>)
    ensures idMap.Keys == inDegree.Keys == Ids(subtasks)
    ensures forall id :: id in idMap ==> idMap[id] == LastWithId(subtasks, id)
    ensures forall id :: id in inDegree ==> inDegree[id] == 0
  {
    idMap, inDegree := map[], map[];
    for i := 0 to |subtasks|
      invariant idMap.Keys == inDegree.Keys == Ids(subtasks[..i])
      invariant forall id :: id in idMap ==> idMap[id] == LastWithId(subtasks[..i], id)
      invariant forall id :: id in inDegree ==> inDegree[id] == 0
    {
      var st := subtasks[i];
      assert subtasks[..i + 1] == subtasks[..i] + [st];
      IdsSnoc(subtasks[..i], st);
      ghost var before := idMap;
      idMap := idMap[st.id := st];
      inDegree := inDegree[st.id := 0];
      forall id | id in idMap ensures idMap[id] == LastWithId(subtasks[..i + 1], id) {
        assert subtasks[..i + 1][..i] == subtasks[..i];
        if id != st.id {
          assert id in before;
        }
      }
    }
    assert subtasks[..|subtasks|] == subtasks;
  }

  // The graph maps agree with the arcs read so far.
  ghost predicate Tallies(inDegree: map<string, int>, dependents: map<string, seq<string>>, arcs: seq<Arc>) {
    && (forall id :: id in inDegree ==> inDegree[id] == Open(arcs, id, {}))
    && (forall d :: At(dependents, d) == Waiting(arcs, d))
  }

  lemma TallyOne(inDegree: map<string, int>, dependents: map<string, seq<string>>, arcs: seq<Arc>, dep: string,
      task: string)
    requires Tallies(inDegree, dependents, arcs) && task in inDegree
    ensures Tallies(inDegree[task := inDegree[task] + 1], dependents[dep := At(dependents, dep) + [task]],
                    arcs + [Arc(dep, task)])
  {
    var a := Arc(dep, task);
    var inDegree' := inDegree[task := inDegree[task] + 1];
    var dependents' := dependents[dep := At(dependents, dep) + [task]];
    forall id | id in inDegree' ensures inDegree'[id] == Open(arcs + [a], id, {}) {
      OpenSnoc(arcs, a, id, {});
    }
    forall d ensures At(dependents', d) == Waiting(arcs + [a], d) {
      WaitingSnoc(arcs, a, d);
      assert At(dependents, d) == Waiting(arcs, d);
    }
  }

  // The arcs known after reading the first `k` dependencies of one more task.
  ghost function Reading(before: seq<Arc>, known: set<string>, st: SubTask, k: nat): seq<Arc>
    requires k <= |st.dependsOn|
  {
    before + TaskArcs(known, st.id, st.dependsOn[..k])
  }

  lemma ReadingStep(before: seq<Arc>, known: set<string>, st: SubTask, k: nat)
    requires k < |st.dependsOn|
    ensures Reading(before, known, st, k + 1) ==
            if st.dependsOn[k] in known then Reading(before, known, st, k) + [Arc(st.dependsOn[k], st.id)]
            else Reading(before, known, st, k)
  {
    TaskArcsStep(known, st.id, st.dependsOn, k);
  }

  /** The inner loop over one task's dependency list. */
  method AddDependencies(known: set<string>, st: SubTask, inDegree: map<string, int>,
      dependents: map<string, seq<string>>, ghost before: seq<Arc>)
    returns (inDegree': map<string, int>, dependents': map<string, seq<string>>)
    requires st.id in inDegree
    requires Tallies(inDegree, dependents, before)
    ensures inDegree'.Keys == inDegree.Keys
    ensures Tallies(inDegree', dependents', before + TaskArcs(known, st.id, st.dependsOn))
  {
    inDegree', dependents' := inDegree, dependents;
    assert Reading(before, known, st, 0) == before;
    for k := 0 to |st.dependsOn|
      invariant inDegree'.Keys == inDegree.Keys
      invariant Tallies(inDegree', dependents', Reading(before, known, st, k))
    {
      var dep := st.dependsOn[k];
      ReadingStep(before, known, st, k);
      if dep in known {
        TallyOne(inDegree', dependents', Reading(before, known, st, k), dep, st.id);
        dependents' := dependents'[dep := At(dependents', dep) + [st.id]];
        inDegree' := inDegree'[st.id := inDegree'[st.id] + 1];
      }
    }
    assert st.dependsOn[..|st.dependsOn|] == st.dependsOn;
  }

  /** The first two loops together: the task per id, the in-degrees, and who waits on whom. */
  method BuildGraph(subtasks: seq<SubTask>)
    returns (idMap: map<string, SubTask>, inDegree: map<string, int>, dependents: map<string, seq<string>>)
    ensures idMap.Keys == inDegree.Keys == Ids(subtasks)
    ensures forall id :: id in idMap ==> idMap[id] == LastWithId(subtasks, id)
    ensures Tallies(inDegree, dependents, Arcs(Ids(subtasks), subtasks))
  {
    idMap, inDegree := IndexTasks(subtasks);
    dependents := map[];
    for i := 0 to |subtasks|
      invariant inDegree.Keys == idMap.Keys
      invariant Tallies(inDegree, dependents, Arcs(idMap.Keys, subtasks[..i]))
    {
      assert subtasks[i].id in idMap;
      assert subtasks[..i + 1][..i] == subtasks[..i];
      inDegree, dependents :=
        AddDependencies(idMap.Keys, subtasks[i], inDegree, dependents, Arcs(idMap.Keys, subtasks[..i]));
    }
    assert subtasks[..|subtasks|] == subtasks;
  }

  /** Go ranges over the in-degree map in an order of its own choosing; so does this loop. */
  method SeedQueue(inDegree: map<string, int>) returns (queue: seq<string>)
    ensures forall id :: id in queue <==> id in inDegree && inDegree[id] == 0
    ensures NoRepeats(queue)
  {
    queue := [];
    var rest := inDegree.Keys;
    while rest != {}
      invariant rest <= inDegree.Keys
      invariant forall id :: id in queue <==> id in inDegree.Keys - rest && inDegree[id] == 0
      invariant NoRepeats(queue)
      decreases rest
    {
      var id :| id in rest;
      rest := rest - {id};
      if inDegree[id] == 0 {
        queue := queue + [id];
      }
    }
  }

  predicate NoRepeats(q: seq<string>) {
    forall i, j :: 0 <= i < j < |q| ==> q[i] != q[j]
  }

  // The queue holds, once each, the ids not yet emitted that no arc holds back.
  ghost predicate IsReady(queue: seq<string>, inDegree: map<string, int>, done: set<string>) {
    && NoRepeats(queue)
    && forall t :: t in queue <==> t in inDegree && t !in done && inDegree[t] == 0
  }

  // One decrement of a task that still has an open dependency.
  lemma LowerOne(queue: seq<string>, inDegree: map<string, int>, done: set<string>, dep: string)
    requires IsReady(queue, inDegree, done)
    requires dep in inDegree && inDegree[dep] >= 1 && dep !in done
    ensures IsReady(if inDegree[dep] == 1 then queue + [dep] else queue, inDegree[dep := inDegree[dep] - 1], done)
  {
    assert dep !in queue;
  }

  lemma TakeHead(queue: seq<string>, inDegree: map<string, int>, done: set<string>)
    requires queue != [] && IsReady(queue, inDegree, done)
    ensures IsReady(queue[1..], inDegree, done + {queue[0]})
  {
    assert queue == [queue[0]] + queue[1..];
    forall t | t in queue[1..] ensures t != queue[0] {}
  }

  // `now` is `was` after one decrement per entry of `w`.
  ghost predicate Lowered(was: map<string, int>, now: map<string, int>, w: seq<string>) {
    && now.Keys == was.Keys
    && forall t :: t in was ==> now[t] == was[t] - multiset(w)[t]
  }

  // The k-th waiting task still counts its dependency when its turn comes.
  lemma LowerNext(was: map<string, int>, now: map<string, int>, w: seq<string>, k: nat)
    requires k < |w| && w[k] in was && was[w[k]] >= multiset(w)[w[k]]
    requires Lowered(was, now, w[..k])
    ensures now[w[k]] >= 1 && Lowered(was, now[w[k] := now[w[k]] - 1], w[..k + 1])
  {
    assert w == w[..k + 1] + w[k + 1..];
    assert w[..k + 1] == w[..k] + [w[k]];
  }

  /** Emits `id`: the in-degree of every task waiting on it drops, and those reaching zero queue up. */
  method Release(queue: seq<string>, inDegree: map<string, int>, waiting: seq<string>, ghost emitted: set<string>)
    returns (queue': seq<string>, inDegree': map<string, int>)
    requires IsReady(queue, inDegree, emitted)
    requires forall t :: t in waiting ==> t in inDegree && t !in emitted && inDegree[t] >= multiset(waiting)[t]
    ensures Lowered(inDegree, inDegree', waiting)
    ensures IsReady(queue', inDegree', emitted)
  {
    queue', inDegree' := queue, inDegree;
    for k := 0 to |waiting|
      invariant Lowered(inDegree, inDegree', waiting[..k])
      invariant IsReady(queue', inDegree', emitted)
    {
      var dep := waiting[k];
      assert dep in waiting;
      LowerNext(inDegree, inDegree', waiting, k);
      LowerOne(queue', inDegree', emitted, dep);
      inDegree' := inDegree'[dep := inDegree'[dep] - 1];
      if inDegree'[dep] == 0 {
        queue' := queue' + [dep];
      }
    }
    assert waiting[..|waiting|] == waiting;
  }

  // What the main loop keeps: in-degrees count what is still open, and every emitted task
  // comes after all it waits on.
  ghost predicate Emitting(tasks: seq<SubTask>, sorted: seq<SubTask>, inDegree: map<string, int>) {
    var arcs := Arcs(Ids(tasks), tasks);
    && inDegree.Keys == Ids(tasks)
    && (forall t :: t in inDegree ==> inDegree[t] == Open(arcs, t, Ids(sorted)))
    && (forall t :: t in Ids(sorted) ==> t in inDegree && inDegree[t] == 0)
    && DistinctIds(sorted)
    && (forall t :: t in sorted ==> t.id in Ids(tasks) && t == LastWithId(tasks, t.id))
    && (forall i, a :: 0 <= i < |sorted| && a in arcs && a.task == sorted[i].id ==> a.dep in Ids(sorted[..i]))
  }

  lemma EmitStep(tasks: seq<SubTask>, sorted: seq<SubTask>, was: map<string, int>, now: map<string, int>, id: string)
    requires Emitting(tasks, sorted, was)
    requires id in was && id !in Ids(sorted) && was[id] == 0
    requires Lowered(was, now, Waiting(Arcs(Ids(tasks), tasks), id))
    ensures Ids(sorted + [LastWithId(tasks, id)]) == Ids(sorted) + {id}
    ensures Emitting(tasks, sorted + [LastWithId(tasks, id)], now)
  {
    var arcs := Arcs(Ids(tasks), tasks);
    IdsSnoc(sorted, LastWithId(tasks, id));
    EmitDegrees(arcs, Ids(sorted), was, now, id);
    OpenZero(arcs, id, Ids(sorted));
    EmitOrder(arcs, sorted, LastWithId(tasks, id));
  }

  lemma EmitDegrees(arcs: seq<Arc>, done: set<string>, was: map<string, int>, now: map<string, int>, id: string)
    requires id in was && id !in done && was[id] == 0
    requires forall t :: t in was ==> was[t] == Open(arcs, t, done)
    requires forall t :: t in done ==> t in was && was[t] == 0
    requires Lowered(was, now, Waiting(arcs, id))
    ensures forall t :: t in now ==> now[t] == Open(arcs, t, done + {id})
    ensures forall t :: t in done + {id} ==> t in now && now[t] == 0
  {
    forall t | t in now ensures now[t] == Open(arcs, t, done + {id}) <= was[t] {
      OpenAfterEmit(arcs, t, done, id);
    }
  }

  lemma EmitOrder(arcs: seq<Arc>, sorted: seq<SubTask>, next: SubTask)
    requires forall i, a :: 0 <= i < |sorted| && a in arcs && a.task == sorted[i].id ==> a.dep in Ids(sorted[..i])
    requires forall a :: a in arcs && a.task == next.id ==> a.dep in Ids(sorted)
    ensures var after := sorted + [next];
            forall i, a :: 0 <= i < |after| && a in arcs && a.task == after[i].id ==> a.dep in Ids(after[..i])
  {
    var after := sorted + [next];
    forall i, a | 0 <= i < |after| && a in arcs && a.task == after[i].id ensures a.dep in Ids(after[..i]) {
      if i < |sorted| {
        assert after[..i] == sorted[..i];
      } else {
        assert after[..i] == sorted;
      }
    }
  }

  /** Any list is split correctly, duplicate ids and repeated dependencies included. */
  method TopologicalSortDetectCycle(subtasks: seq<SubTask>)
    returns (sorted: seq<SubTask>, unresolved: seq<SubTask>)
    ensures IsTopologicalSplit(subtasks, sorted, unresolved)
  {
    var idMap, inDegree, dependents := BuildGraph(subtasks);
    var queue := SeedQueue(inDegree);
    sorted, unresolved := [], [];
    assert Ids(sorted) == {};
    while queue != []
      invariant Emitting(subtasks, sorted, inDegree)
      invariant IsReady(queue, inDegree, Ids(sorted))
      decreases Ids(subtasks) - Ids(sorted)
    {
      var id := queue[0];
      assert id in queue;
      WaitersCount(subtasks, sorted, inDegree, id);
      TakeHead(queue, inDegree, Ids(sorted));
      ghost var was := inDegree;
      queue, inDegree := Release(queue[1..], inDegree, At(dependents, id), Ids(sorted) + {id});
      EmitStep(subtasks, sorted, was, inDegree, id);
      sorted := sorted + [idMap[id]];
    }
    for i := 0 to |subtasks|
      invariant unresolved == Without(subtasks[..i], Ids(sorted))
    {
      assert subtasks[..i + 1][..i] == subtasks[..i];
      assert subtasks[i].id in Ids(subtasks);
      if inDegree[subtasks[i].id] > 0 {
        unresolved := unresolved + [subtasks[i]];
      }
    }
    assert subtasks[..|subtasks|] == subtasks;
    SplitFromArcs(subtasks, sorted, unresolved);
  }

  // Whoever waits on the next task is itself unemitted, and counts every one of its waits.
  lemma WaitersCount(tasks: seq<SubTask>, sorted: seq<SubTask>, inDegree: map<string, int>, id: string)
    requires Emitting(tasks, sorted, inDegree)
    requires id in inDegree && id !in Ids(sorted) && inDegree[id] == 0
    ensures var w := Waiting(Arcs(Ids(tasks), tasks), id);
            forall t :: t in w ==> t in inDegree && t !in Ids(sorted) + {id} && inDegree[t] >= multiset(w)[t]
  {
    var arcs := Arcs(Ids(tasks), tasks);
    forall t | t in Waiting(arcs, id)
      ensures t in inDegree && t !in Ids(sorted) + {id} && inDegree[t] >= multiset(Waiting(arcs, id))[t]
    {
      WaitingSound(arcs, id, t);
      ArcsSound(Ids(tasks), tasks, id, t);
      OpenAfterEmit(arcs, t, Ids(sorted), id);
    }
  }

  // What the final in-degrees say about arcs, said about dependencies.
  lemma SplitFromArcs(tasks: seq<SubTask>, sorted: seq<SubTask>, unresolved: seq<SubTask>)
    requires DistinctIds(sorted)
    requires forall t :: t in sorted ==> t.id in Ids(tasks) && t == LastWithId(tasks, t.id)
    requires unresolved == Without(tasks, Ids(sorted))
    requires forall i, a :: 0 <= i < |sorted| && a in Arcs(Ids(tasks), tasks) && a.task == sorted[i].id ==>
               a.dep in Ids(sorted[..i])
    requires forall t :: t in Ids(tasks) - Ids(sorted) ==> Open(Arcs(Ids(tasks), tasks), t, Ids(sorted)) > 0
    ensures IsTopologicalSplit(tasks, sorted, unresolved)
  {
    var arcs := Arcs(Ids(tasks), tasks);
    forall i, d | 0 <= i < |sorted| && DependsOn(tasks, sorted[i].id, d) ensures d in Ids(sorted[..i]) {
      ArcsSound(Ids(tasks), tasks, d, sorted[i].id);
      assert Arc(d, sorted[i].id) in arcs;
    }
    forall t | t in Ids(tasks) - Ids(sorted) ensures exists d :: DependsOn(tasks, t, d) && d !in Ids(sorted) {
      OpenZero(arcs, t, Ids(sorted));
      var a :| a in arcs && a.task == t && a.dep !in Ids(sorted);
      ArcsSound(Ids(tasks), tasks, a.dep, t);
      assert a == Arc(a.dep, t);
    }
  }

  // ---- phase 2: the guarded plan ----

  datatype Status = Pending | Blocked | Skipped

  datatype Reason =
    | NoReason | CyclicDependency | DependencySkipped | InvalidBreed | Depth | Dedup | PingPong

  datatype DispatchEntry = DispatchEntry(
    breedId: string, subTaskId: string, priority: nat, dependsOn: seq<string>, status: Status, skipReason: Reason)

  datatype DispatchPlan = DispatchPlan(entries: seq<DispatchEntry>, maxDepth: int, total: nat, skipped: nat)

  function DedupKey(st: SubTask): string {
    st.suggestBreed + st.title + st.description
  }

  // How many entries await the breed.
  function PendingOf(entries: seq<DispatchEntry>, breed: string): nat {
    if entries == [] then 0
    else
      var n := |entries| - 1;
      PendingOf(entries[..n], breed) + if entries[n].status.Pending? && entries[n].breedId == breed then 1 else 0
  }

  function PendingCount(entries: seq<DispatchEntry>): nat {
    if entries == [] then 0
    else
      var n := |entries| - 1;
      PendingCount(entries[..n]) + if entries[n].status.Pending? then 1 else 0
  }

  /** The guards read off the entries already planned, with no auxiliary state. The ping-pong
      guard has no place here: it never decides an entry. */
  ghost function Verdict(cyclic: set<string>, breeds: set<string>, maxDepth: int,
      earlier: seq<SubTask>, entries: seq<DispatchEntry>, st: SubTask): (Status, Reason)
    requires |earlier| == |entries|
  {
    if st.id in cyclic then (Blocked, CyclicDependency)
    else if exists e :: e in entries && e.subTaskId in st.dependsOn && !e.status.Pending? then
      (Blocked, DependencySkipped)
    else if st.suggestBreed !in breeds then (Skipped, InvalidBreed)
    else if PendingOf(entries, st.suggestBreed) >= maxDepth then (Skipped, Depth)
    else if exists j :: 0 <= j < |entries| && entries[j].status.Pending? && DedupKey(earlier[j]) == DedupKey(st) then
      (Skipped, Dedup)
    else (Pending, NoReason)
  }

  ghost predicate EntryFollows(cyclic: set<string>, breeds: set<string>, maxDepth: int,
      tasks: seq<SubTask>, entries: seq<DispatchEntry>, i: nat)
    requires i < |entries| <= |tasks|
  {
    var v := Verdict(cyclic, breeds, maxDepth, tasks[..i], entries[..i], tasks[i]);
    entries[i] == DispatchEntry(tasks[i].suggestBreed, tasks[i].id, i, tasks[i].dependsOn, v.0, v.1)
  }

  ghost predicate EntriesFollow(cyclic: set<string>, breeds: set<string>, maxDepth: int,
      tasks: seq<SubTask>, entries: seq<DispatchEntry>)
  {
    && |entries| <= |tasks|
    && forall i :: 0 <= i < |entries| ==> EntryFollows(cyclic, breeds, maxDepth, tasks, entries, i)
  }

  /** The plan lists every sorted task, then every unresolved one, each with its verdict. */
  ghost predicate PlanFollows(breeds: set<string>, maxDepth: int,
      sorted: seq<SubTask>, unresolved: seq<SubTask>, plan: DispatchPlan)
  {
    && |plan.entries| == plan.total == |sorted| + |unresolved|
    && EntriesFollow(Ids(unresolved), breeds, maxDepth, sorted + unresolved, plan.entries)
    && plan.maxDepth == maxDepth
    && plan.skipped == plan.total - PendingCount(plan.entries)
  }

  method HasSkippedDependency(st: SubTask, subtaskStatus: map<string, Status>) returns (b: bool)
    ensures b <==> exists d :: d in st.dependsOn && d in subtaskStatus && !subtaskStatus[d].Pending?
  {
    for i := 0 to |st.dependsOn|
      invariant forall k :: 0 <= k < i ==> st.dependsOn[k] in subtaskStatus ==> subtaskStatus[st.dependsOn[k]].Pending?
    {
      var dep := st.dependsOn[i];
      if dep in subtaskStatus && !subtaskStatus[dep].Pending? {
        return true;
      }
    }
    return false;
  }

  /** A pending entry and `st` depend on each other. */
  predicate MutualWith(st: SubTask, e: DispatchEntry) {
    e.status.Pending? && e.subTaskId in st.dependsOn && st.id in e.dependsOn
  }

  method IsPingPong(st: SubTask, entries: seq<DispatchEntry>) returns (b: bool)
    ensures b <==> exists e :: e in entries && MutualWith(st, e)
  {
    for i := 0 to |entries|
      invariant forall k :: 0 <= k < i ==> !MutualWith(st, entries[k])
    {
      var e := entries[i];
      if !e.status.Pending? {
        continue;
      }
      for j := 0 to |st.dependsOn|
        invariant forall k :: 0 <= k < j ==> st.dependsOn[k] == e.subTaskId ==> st.id !in e.dependsOn
      {
        if st.dependsOn[j] == e.subTaskId {
          for m := 0 to |e.dependsOn|
            invariant st.id !in e.dependsOn[..m]
          {
            if e.dependsOn[m] == st.id {
              assert MutualWith(st, e);
              return true;
            }
          }
        }
      }
    }
    return false;
  }

  method CountSkipped(entries: seq<DispatchEntry>) returns (count: nat)
    ensures count == |entries| - PendingCount(entries)
  {
    count := 0;
    for i := 0 to |entries|
      invariant count == i - PendingCount(entries[..i])
    {
      assert entries[..i + 1][..i] == entries[..i];
      if entries[i].status.Skipped? || entries[i].status.Blocked? {
        count := count + 1;
      }
    }
    assert entries[..|entries|] == entries;
  }

  // The planner's three maps say exactly what the entries already say.
  ghost predicate SeenIs(tasks: seq<SubTask>, entries: seq<DispatchEntry>, seen: set<string>)
    requires |entries| <= |tasks|
  {
    forall k :: k in seen <==> exists j :: 0 <= j < |entries| && entries[j].status.Pending? && DedupKey(tasks[j]) == k
  }

  ghost predicate DepthIs(entries: seq<DispatchEntry>, breedDepth: map<string, int>) {
    forall b :: PendingOf(entries, b) == Depth0(breedDepth, b)
  }

  ghost predicate StatusIs(entries: seq<DispatchEntry>, subtaskStatus: map<string, Status>) {
    && (forall d :: d in subtaskStatus ==> exists e :: e in entries && e.subTaskId == d)
    && (forall e :: e in entries ==> e.subTaskId in subtaskStatus && subtaskStatus[e.subTaskId] == e.status)
  }

  function Depth0(breedDepth: map<string, int>, breed: string): int {
    if breed in breedDepth then breedDepth[breed] else 0
  }

  ghost predicate Bookkeeping(tasks: seq<SubTask>, entries: seq<DispatchEntry>,
      seen: set<string>, breedDepth: map<string, int>, subtaskStatus: map<string, Status>)
    requires |entries| <= |tasks|
  {
    SeenIs(tasks, entries, seen) && DepthIs(entries, breedDepth) && StatusIs(entries, subtaskStatus)
  }

  // An id that is not cyclic occurs once in the list the planner walks.
  lemma PlannedOnce(tasks: seq<SubTask>, sorted: seq<SubTask>, unresolved: seq<SubTask>, i: nat)
    requires IsTopologicalSplit(tasks, sorted, unresolved)
    requires i < |sorted| + |unresolved|
    ensures (sorted + unresolved)[i].id in Ids(unresolved) <==> i >= |sorted|
    ensures i < |sorted| ==>
              forall j :: 0 <= j < |sorted| + |unresolved| && j != i ==> (sorted + unresolved)[j].id != sorted[i].id
  {
    var all := sorted + unresolved;
    WithoutSound(tasks, Ids(sorted));
    forall j | |sorted| <= j < |all|
      ensures all[j] in unresolved && all[j].id !in Ids(sorted) && all[j].id in Ids(unresolved)
    {
      assert all[j] == unresolved[j - |sorted|];
    }
    if i < |sorted| {
      assert all[i] == sorted[i] && sorted[i].id in Ids(sorted);
    }
  }

  // A planned task never mutually depends on an earlier pending entry.
  lemma NeverPingPong(tasks: seq<SubTask>, sorted: seq<SubTask>, unresolved: seq<SubTask>,
      breeds: set<string>, maxDepth: int, entries: seq<DispatchEntry>, e: DispatchEntry)
    requires IsTopologicalSplit(tasks, sorted, unresolved)
    requires |entries| < |sorted|
    requires EntriesFollow(Ids(unresolved), breeds, maxDepth, sorted + unresolved, entries)
    requires e in entries
    ensures !MutualWith(sorted[|entries|], e)
  {
    var i := |entries|;
    var j :| 0 <= j < i && entries[j] == e;
    var all := sorted + unresolved;
    assert EntryFollows(Ids(unresolved), breeds, maxDepth, all, entries, j);
    assert all[j] == sorted[j];
    if MutualWith(sorted[i], e) {
      assert sorted[i] in sorted && sorted[j] in sorted;
      TaskDependency(tasks, sorted[j], sorted[i].id);
    }
  }

  lemma TaskDependency(tasks: seq<SubTask>, t: SubTask, d: string)
    requires t in tasks && d in t.dependsOn && d in Ids(tasks)
    ensures DependsOn(tasks, t.id, d)
  {
    var i :| 0 <= i < |tasks| && tasks[i] == t;
    assert tasks[i].id == t.id && d in tasks[i].dependsOn;
  }

  // Appending one entry and updating each of the three maps the way the planner does.
  lemma RecordSeen(tasks: seq<SubTask>, entries: seq<DispatchEntry>, seen: set<string>, e: DispatchEntry)
    requires |entries| < |tasks| && SeenIs(tasks, entries, seen)
    ensures SeenIs(tasks, entries + [e], if e.status.Pending? then seen + {DedupKey(tasks[|entries|])} else seen)
  {
    var n := |entries|;
    var entries' := entries + [e];
    var seen' := if e.status.Pending? then seen + {DedupKey(tasks[n])} else seen;
    forall k
      ensures k in seen' <==> exists j :: 0 <= j < n + 1 && entries'[j].status.Pending? && DedupKey(tasks[j]) == k
    {
      if k in seen {
        var j :| 0 <= j < n && entries[j].status.Pending? && DedupKey(tasks[j]) == k;
        assert entries'[j] == entries[j];
      } else if k in seen' {
        assert entries'[n].status.Pending? && DedupKey(tasks[n]) == k;
      }
    }
  }

  lemma RecordDepth(entries: seq<DispatchEntry>, breedDepth: map<string, int>, e: DispatchEntry)
    requires DepthIs(entries, breedDepth)
    ensures DepthIs(entries + [e],
              if e.status.Pending? then breedDepth[e.breedId := Depth0(breedDepth, e.breedId) + 1] else breedDepth)
  {
    assert (entries + [e])[..|entries|] == entries;
    var depth' := if e.status.Pending? then breedDepth[e.breedId := Depth0(breedDepth, e.breedId) + 1] else breedDepth;
    forall b ensures PendingOf(entries + [e], b) == Depth0(depth', b) {
      assert PendingOf(entries, b) == Depth0(breedDepth, b);
    }
  }

  lemma RecordStatus(entries: seq<DispatchEntry>, subtaskStatus: map<string, Status>, e: DispatchEntry)
    requires StatusIs(entries, subtaskStatus)
    requires forall p :: p in entries && p.subTaskId == e.subTaskId ==> p.status == e.status
    ensures StatusIs(entries + [e], subtaskStatus[e.subTaskId := e.status])
  {
    var entries' := entries + [e];
    var status' := subtaskStatus[e.subTaskId := e.status];
    forall d | d in status' ensures exists p :: p in entries' && p.subTaskId == d {
      if d == e.subTaskId {
        assert e in entries';
      } else {
        var p :| p in entries && p.subTaskId == d;
        assert p in entries';
      }
    }
  }

  // The planner's guard order over its maps gives the verdict read off the entries.
  lemma GuardsDecide(cyclic: set<string>, breeds: set<string>, maxDepth: int, tasks: seq<SubTask>,
      entries: seq<DispatchEntry>, seen: set<string>, breedDepth: map<string, int>, subtaskStatus: map<string, Status>,
      st: SubTask)
    requires |entries| < |tasks| && st == tasks[|entries|]
    requires Bookkeeping(tasks, entries, seen, breedDepth, subtaskStatus)
    ensures Verdict(cyclic, breeds, maxDepth, tasks[..|entries|], entries, st) ==
            if st.id in cyclic then (Blocked, CyclicDependency)
            else if exists d :: d in st.dependsOn && d in subtaskStatus && !subtaskStatus[d].Pending? then
              (Blocked, DependencySkipped)
            else if st.suggestBreed !in breeds then (Skipped, InvalidBreed)
            else if Depth0(breedDepth, st.suggestBreed) >= maxDepth then (Skipped, Depth)
            else if DedupKey(st) in seen then (Skipped, Dedup)
            else (Pending, NoReason)
  {
    if exists d :: d in st.dependsOn && d in subtaskStatus && !subtaskStatus[d].Pending? {
      var d :| d in st.dependsOn && d in subtaskStatus && !subtaskStatus[d].Pending?;
      var e :| e in entries && e.subTaskId == d;
    }
  }

  // Entries that share an id are all cyclic, so they share a status.
  lemma SameIdSameStatus(tasks: seq<SubTask>, sorted: seq<SubTask>, unresolved: seq<SubTask>,
      breeds: set<string>, maxDepth: int, entries: seq<DispatchEntry>, p: DispatchEntry)
    requires IsTopologicalSplit(tasks, sorted, unresolved)
    requires |entries| < |sorted| + |unresolved|
    requires EntriesFollow(Ids(unresolved), breeds, maxDepth, sorted + unresolved, entries)
    requires p in entries && p.subTaskId == (sorted + unresolved)[|entries|].id
    ensures p.status.Blocked? && p.subTaskId in Ids(unresolved)
  {
    var all := sorted + unresolved;
    var j :| 0 <= j < |entries| && entries[j] == p;
    assert EntryFollows(Ids(unresolved), breeds, maxDepth, all, entries, j);
    PlannedOnce(tasks, sorted, unresolved, |entries|);
  }

  lemma EntriesFollowSnoc(cyclic: set<string>, breeds: set<string>, maxDepth: int,
      tasks: seq<SubTask>, entries: seq<DispatchEntry>, e: DispatchEntry)
    requires EntriesFollow(cyclic, breeds, maxDepth, tasks, entries)
    requires |entries| < |tasks| && EntryFollows(cyclic, breeds, maxDepth, tasks, entries + [e], |entries|)
    ensures EntriesFollow(cyclic, breeds, maxDepth, tasks, entries + [e])
  {
    forall i | 0 <= i < |entries| + 1 ensures EntryFollows(cyclic, breeds, maxDepth, tasks, entries + [e], i) {
      if i < |entries| {
        assert EntryFollows(cyclic, breeds, maxDepth, tasks, entries, i);
        assert (entries + [e])[..i] == entries[..i];
      }
    }
  }

  /** `Run` on already extracted subtasks, available breeds and depth limit. */
  method Run(subtasks: seq<SubTask>, availableBreeds: set<string>, maxDepth: int) returns (plan: DispatchPlan)
    ensures IsPlanFor(subtasks, availableBreeds, maxDepth, plan)
  {
    var sorted, unresolved := TopologicalSortDetectCycle(subtasks);
    var unresolvedSet := Ids(unresolved);
    var allTasks := sorted + unresolved;
    var entries: seq<DispatchEntry> := [];
    var seen: set<string> := {};
    var breedDepth: map<string, int> := map[];
    var subtaskStatus: map<string, Status> := map[];
    for i := 0 to |allTasks|
      invariant |entries| == i
      invariant EntriesFollow(unresolvedSet, availableBreeds, maxDepth, allTasks, entries)
      invariant Bookkeeping(allTasks, entries, seen, breedDepth, subtaskStatus)
    {
      var st := allTasks[i];
      GuardsDecide(unresolvedSet, availableBreeds, maxDepth, allTasks, entries, seen, breedDepth, subtaskStatus, st);
      PlannedOnce(subtasks, sorted, unresolved, i);
      var depSkipped := HasSkippedDependency(st, subtaskStatus);
      var pingPong := IsPingPong(st, entries);
      if st.id !in unresolvedSet && pingPong {
        var e :| e in entries && MutualWith(st, e);
        NeverPingPong(subtasks, sorted, unresolved, availableBreeds, maxDepth, entries, e);
        assert false;
      }
      var status, reason;
      if st.id in unresolvedSet {
        status, reason := Blocked, CyclicDependency;
      } else if depSkipped {
        status, reason := Blocked, DependencySkipped;
      } else if st.suggestBreed !in availableBreeds {
        status, reason := Skipped, InvalidBreed;
      } else if Depth0(breedDepth, st.suggestBreed) >= maxDepth {
        status, reason := Skipped, Depth;
      } else if DedupKey(st) in seen {
        status, reason := Skipped, Dedup;
      } else if pingPong {
        status, reason := Skipped, PingPong;
      } else {
        status, reason := Pending, NoReason;
      }
      var entry := DispatchEntry(st.suggestBreed, st.id, i, st.dependsOn, status, reason);
      forall p | p in entries && p.subTaskId == entry.subTaskId ensures p.status == entry.status {
        SameIdSameStatus(subtasks, sorted, unresolved, availableBreeds, maxDepth, entries, p);
      }
      RecordSeen(allTasks, entries, seen, entry);
      RecordDepth(entries, breedDepth, entry);
      RecordStatus(entries, subtaskStatus, entry);
      assert (entries + [entry])[..i] == entries;
      EntriesFollowSnoc(unresolvedSet, availableBreeds, maxDepth, allTasks, entries, entry);
      if status.Pending? {
        seen := seen + {DedupKey(st)};
        breedDepth := breedDepth[st.suggestBreed := Depth0(breedDepth, st.suggestBreed) + 1];
      }
      subtaskStatus := subtaskStatus[st.id := status];
      entries := entries + [entry];
    }
    var skipped := CountSkipped(entries);
    plan := DispatchPlan(entries, maxDepth, |entries|, skipped);
    assert PlanFollows(availableBreeds, maxDepth, sorted, unresolved, plan);
  }

  // ---- what every plan guarantees ----

  ghost predicate IsPlanFor(subtasks: seq<SubTask>, breeds: set<string>, maxDepth: int, plan: DispatchPlan) {
    exists sorted, unresolved ::
      IsTopologicalSplit(subtasks, sorted, unresolved) && PlanFollows(breeds, maxDepth, sorted, unresolved, plan)
  }

  // A pending entry stands for the sorted task at its own position.
  lemma PendingIsSorted(subtasks: seq<SubTask>, breeds: set<string>, maxDepth: int,
      sorted: seq<SubTask>, unresolved: seq<SubTask>, plan: DispatchPlan, i: nat)
    requires IsTopologicalSplit(subtasks, sorted, unresolved) && PlanFollows(breeds, maxDepth, sorted, unresolved, plan)
    requires i < |plan.entries| && plan.entries[i].status.Pending?
    ensures i < |sorted| && (sorted + unresolved)[i] == sorted[i]
    ensures sorted[i] in subtasks && sorted[i] == LastWithId(subtasks, sorted[i].id)
    ensures plan.entries[i].subTaskId == sorted[i].id && plan.entries[i].dependsOn == sorted[i].dependsOn
  {
    assert EntryFollows(Ids(unresolved), breeds, maxDepth, sorted + unresolved, plan.entries, i);
    PlannedOnce(subtasks, sorted, unresolved, i);
    assert sorted[i] in sorted;
  }

  /** A pending entry's known dependencies are pending and planned earlier. */
  lemma PendingDependenciesFirst(subtasks: seq<SubTask>, breeds: set<string>, maxDepth: int, plan: DispatchPlan,
      i: nat, d: string)
    requires IsPlanFor(subtasks, breeds, maxDepth, plan)
    requires i < |plan.entries| && plan.entries[i].status.Pending?
    requires d in plan.entries[i].dependsOn && d in Ids(subtasks)
    ensures exists j :: 0 <= j < i && plan.entries[j].subTaskId == d && plan.entries[j].status.Pending?
  {
    var sorted: seq<SubTask>, unresolved: seq<SubTask> :|
      IsTopologicalSplit(subtasks, sorted, unresolved) && PlanFollows(breeds, maxDepth, sorted, unresolved, plan);
    var all := sorted + unresolved;
    PendingIsSorted(subtasks, breeds, maxDepth, sorted, unresolved, plan, i);
    TaskDependency(subtasks, sorted[i], d);
    var j := PositionOf(sorted[..i], d);
    assert EntryFollows(Ids(unresolved), breeds, maxDepth, all, plan.entries, i);
    assert EntryFollows(Ids(unresolved), breeds, maxDepth, all, plan.entries, j);
    assert all[j] == sorted[j];
    assert plan.entries[j] in plan.entries[..i];
  }

  /** No breed is handed more than max(maxDepth, 0) pending tasks. */
  lemma BreedWithinDepth(subtasks: seq<SubTask>, breeds: set<string>, maxDepth: int, plan: DispatchPlan, breed: string)
    requires IsPlanFor(subtasks, breeds, maxDepth, plan)
    ensures PendingOf(plan.entries, breed) <= if maxDepth > 0 then maxDepth else 0
  {
    var sorted: seq<SubTask>, unresolved: seq<SubTask> :|
      IsTopologicalSplit(subtasks, sorted, unresolved) && PlanFollows(breeds, maxDepth, sorted, unresolved, plan);
    PrefixWithinDepth(Ids(unresolved), breeds, maxDepth, sorted + unresolved, plan.entries, |plan.entries|, breed);
    assert plan.entries[..|plan.entries|] == plan.entries;
  }

  lemma {:induction false} PrefixWithinDepth(cyclic: set<string>, breeds: set<string>, maxDepth: int,
      tasks: seq<SubTask>, entries: seq<DispatchEntry>, n: nat, breed: string)
    requires EntriesFollow(cyclic, breeds, maxDepth, tasks, entries)
    requires n <= |entries|
    ensures PendingOf(entries[..n], breed) <= if maxDepth > 0 then maxDepth else 0
  {
    if n > 0 {
      PrefixWithinDepth(cyclic, breeds, maxDepth, tasks, entries, n - 1, breed);
      assert entries[..n][..n - 1] == entries[..n - 1];
      assert EntryFollows(cyclic, breeds, maxDepth, tasks, entries, n - 1);
    }
  }

  /** Two pending entries never carry the same work: their tasks' dedup keys differ. */
  lemma PendingKeysDistinct(subtasks: seq<SubTask>, breeds: set<string>, maxDepth: int, plan: DispatchPlan, i: nat,
      j: nat)
    requires IsPlanFor(subtasks, breeds, maxDepth, plan)
    requires i < j < |plan.entries| && plan.entries[i].status.Pending? && plan.entries[j].status.Pending?
    ensures plan.entries[i].subTaskId in Ids(subtasks) && plan.entries[j].subTaskId in Ids(subtasks)
    ensures DedupKey(LastWithId(subtasks, plan.entries[i].subTaskId)) !=
            DedupKey(LastWithId(subtasks, plan.entries[j].subTaskId))
    ensures plan.entries[i].subTaskId != plan.entries[j].subTaskId
  {
    var sorted: seq<SubTask>, unresolved: seq<SubTask> :|
      IsTopologicalSplit(subtasks, sorted, unresolved) && PlanFollows(breeds, maxDepth, sorted, unresolved, plan);
    PendingIsSorted(subtasks, breeds, maxDepth, sorted, unresolved, plan, i);
    PendingIsSorted(subtasks, breeds, maxDepth, sorted, unresolved, plan, j);
    KeysDiffer(Ids(unresolved), breeds, maxDepth, sorted + unresolved, plan.entries, i, j);
    InSubtasks(subtasks, sorted[i]);
    InSubtasks(subtasks, sorted[j]);
  }

  lemma InSubtasks(subtasks: seq<SubTask>, t: SubTask)
    requires t in subtasks
    ensures t.id in Ids(subtasks)
  {
  }

  lemma KeysDiffer(cyclic: set<string>, breeds: set<string>, maxDepth: int, tasks: seq<SubTask>,
      entries: seq<DispatchEntry>, i: nat, j: nat)
    requires EntriesFollow(cyclic, breeds, maxDepth, tasks, entries)
    requires i < j < |entries| && entries[i].status.Pending? && entries[j].status.Pending?
    ensures DedupKey(tasks[i]) != DedupKey(tasks[j])
  {
    assert EntryFollows(cyclic, breeds, maxDepth, tasks, entries, j);
    assert entries[..j][i] == entries[i] && tasks[..j][i] == tasks[i];
  }

  function NotPending(entries: seq<DispatchEntry>, n: nat): set<nat>
    requires n <= |entries|
  {
    set j: nat | j < n && !entries[j].status.Pending?
  }

  lemma {:induction false} NotPendingCounts(entries: seq<DispatchEntry>, n: nat)
    requires n <= |entries|
    ensures n - PendingCount(entries[..n]) == |NotPending(entries, n)|
  {
    if n > 0 {
      NotPendingCounts(entries, n - 1);
      assert entries[..n][..n - 1] == entries[..n - 1];
      assert NotPending(entries, n) ==
             NotPending(entries, n - 1) + if entries[n - 1].status.Pending? then {} else {n - 1};
    }
  }

  /** The counts add up, and with distinct ids every task is planned exactly once. */
  lemma PlanAccounts(subtasks: seq<SubTask>, breeds: set<string>, maxDepth: int, plan: DispatchPlan)
    requires IsPlanFor(subtasks, breeds, maxDepth, plan)
    ensures plan.total == |plan.entries| && plan.skipped == |NotPending(plan.entries, plan.total)|
    ensures plan.maxDepth == maxDepth
    ensures DistinctIds(subtasks) ==> plan.total == |subtasks|
    ensures forall id :: id in Ids(subtasks) ==> exists i :: 0 <= i < |plan.entries| && plan.entries[i].subTaskId == id
  {
    var sorted: seq<SubTask>, unresolved: seq<SubTask> :|
      IsTopologicalSplit(subtasks, sorted, unresolved) && PlanFollows(breeds, maxDepth, sorted, unresolved, plan);
    WithoutSound(subtasks, Ids(sorted));
    NotPendingCounts(plan.entries, |plan.entries|);
    assert plan.entries[..|plan.entries|] == plan.entries;
    if DistinctIds(subtasks) {
      SplitIsPartition(subtasks, sorted, unresolved);
    }
    forall id | id in Ids(subtasks) ensures exists i :: 0 <= i < |plan.entries| && plan.entries[i].subTaskId == id {
      var i;
      if id in Ids(sorted) {
        i := PositionOf(sorted, id);
      } else {
        assert LastWithId(subtasks, id) in unresolved;
        i := |sorted| + PositionOf(unresolved, id);
      }
      assert EntryFollows(Ids(unresolved), breeds, maxDepth, sorted + unresolved, plan.entries, i);
    }
  }

  /** The entries blocked as cyclic are exactly those whose dependency chains run into a cycle,
      and the ping-pong guard never decides an entry. */
  lemma CyclicEntries(subtasks: seq<SubTask>, breeds: set<string>, maxDepth: int, plan: DispatchPlan, i: nat)
    requires IsPlanFor(subtasks, breeds, maxDepth, plan) && i < |plan.entries|
    ensures plan.entries[i].subTaskId in Ids(subtasks)
    ensures plan.entries[i].skipReason.CyclicDependency? <==> RunsIntoCycle(subtasks, plan.entries[i].subTaskId)
    ensures !plan.entries[i].skipReason.PingPong?
  {
    var sorted: seq<SubTask>, unresolved: seq<SubTask> :|
      IsTopologicalSplit(subtasks, sorted, unresolved) && PlanFollows(breeds, maxDepth, sorted, unresolved, plan);
    WithoutSound(subtasks, Ids(sorted));
    assert EntryFollows(Ids(unresolved), breeds, maxDepth, sorted + unresolved, plan.entries, i);
    assert (sorted + unresolved)[i] in sorted || (sorted + unresolved)[i] in unresolved;
    UnresolvedIffCycle(subtasks, sorted, unresolved, plan.entries[i].subTaskId);
  }

  // ---- the guards in terms of the plan alone ----

  /** The positions before `n` whose entries await the breed. */
  function Awaiting(entries: seq<DispatchEntry>, breed: string, n: nat): set<nat>
    requires n <= |entries|
  {
    set j: nat | j < n && entries[j].status.Pending? && entries[j].breedId == breed
  }

  lemma {:induction false} PendingOfCounts(entries: seq<DispatchEntry>, breed: string, n: nat)
    requires n <= |entries|
    ensures PendingOf(entries[..n], breed) == |Awaiting(entries, breed, n)|
  {
    if n > 0 {
      PendingOfCounts(entries, breed, n - 1);
      assert entries[..n][..n - 1] == entries[..n - 1];
      var e := entries[n - 1];
      assert Awaiting(entries, breed, n) ==
             Awaiting(entries, breed, n - 1) + if e.status.Pending? && e.breedId == breed then {n - 1} else {};
    }
  }

  /** An earlier entry that was blocked or skipped is a dependency of entry `i`. */
  predicate HeldUp(entries: seq<DispatchEntry>, i: nat)
    requires i < |entries|
  {
    exists j :: 0 <= j < i && !entries[j].status.Pending? && entries[j].subTaskId in entries[i].dependsOn
  }

  /** The tasks of the two ids read the same: breed, title and description put together. */
  predicate SameWork(subtasks: seq<SubTask>, a: string, b: string) {
    && a in Ids(subtasks) && b in Ids(subtasks)
    && var s, t := LastWithId(subtasks, a), LastWithId(subtasks, b);
       s.suggestBreed + s.title + s.description == t.suggestBreed + t.title + t.description
  }

  /** An earlier pending entry carries the work of entry `i`. */
  predicate Repeated(subtasks: seq<SubTask>, entries: seq<DispatchEntry>, i: nat)
    requires i < |entries|
  {
    exists j :: 0 <= j < i && entries[j].status.Pending? &&
      SameWork(subtasks, entries[j].subTaskId, entries[i].subTaskId)
  }

  /** How every entry is decided, the guards in their order: cyclic, held up, no such breed, the breed's
      share used up, the same work already pending. */
  lemma EntryDecided(subtasks: seq<SubTask>, breeds: set<string>, maxDepth: int, plan: DispatchPlan, i: nat)
    requires IsPlanFor(subtasks, breeds, maxDepth, plan) && i < |plan.entries|
    ensures var e := plan.entries[i];
            (e.status, e.skipReason) ==
              if RunsIntoCycle(subtasks, e.subTaskId) then (Blocked, CyclicDependency)
              else if HeldUp(plan.entries, i) then (Blocked, DependencySkipped)
              else if e.breedId !in breeds then (Skipped, InvalidBreed)
              else if |Awaiting(plan.entries, e.breedId, i)| >= maxDepth then (Skipped, Depth)
              else if Repeated(subtasks, plan.entries, i) then (Skipped, Dedup)
              else (Pending, NoReason)
  {
    var sorted: seq<SubTask>, unresolved: seq<SubTask> :|
      IsTopologicalSplit(subtasks, sorted, unresolved) && PlanFollows(breeds, maxDepth, sorted, unresolved, plan);
    var all, e := sorted + unresolved, plan.entries[i];
    CyclicEntries(subtasks, breeds, maxDepth, plan, i);
    assert EntryFollows(Ids(unresolved), breeds, maxDepth, all, plan.entries, i);
    PendingOfCounts(plan.entries, e.breedId, i);
    HeldUpIff(plan.entries, i);
    if e.subTaskId !in Ids(unresolved) {
      RepeatedIff(subtasks, breeds, maxDepth, sorted, unresolved, plan, i);
    }
  }

  /** Every entry names a task, carries its breed and dependencies, and its position as priority; off the
      cycles it is the last task of that id. */
  lemma EntryIsTask(subtasks: seq<SubTask>, breeds: set<string>, maxDepth: int, plan: DispatchPlan, i: nat)
    requires IsPlanFor(subtasks, breeds, maxDepth, plan) && i < |plan.entries|
    ensures var e := plan.entries[i];
            && e.priority == i
            && (exists t :: t in subtasks &&
                  t.id == e.subTaskId && t.suggestBreed == e.breedId && t.dependsOn == e.dependsOn)
            && (!RunsIntoCycle(subtasks, e.subTaskId) && e.subTaskId in Ids(subtasks) ==>
                var t := LastWithId(subtasks, e.subTaskId); t.suggestBreed == e.breedId && t.dependsOn == e.dependsOn)
  {
    var sorted: seq<SubTask>, unresolved: seq<SubTask> :|
      IsTopologicalSplit(subtasks, sorted, unresolved) && PlanFollows(breeds, maxDepth, sorted, unresolved, plan);
    CyclicEntries(subtasks, breeds, maxDepth, plan, i);
    WithoutSound(subtasks, Ids(sorted));
    assert EntryFollows(Ids(unresolved), breeds, maxDepth, sorted + unresolved, plan.entries, i);
    assert (sorted + unresolved)[i] in sorted || (sorted + unresolved)[i] in unresolved;
  }

  lemma HeldUpIff(entries: seq<DispatchEntry>, i: nat)
    requires i < |entries|
    ensures HeldUp(entries, i) <==>
            exists e :: e in entries[..i] && e.subTaskId in entries[i].dependsOn && !e.status.Pending?
  {
    if HeldUp(entries, i) {
      var j :| 0 <= j < i && !entries[j].status.Pending? && entries[j].subTaskId in entries[i].dependsOn;
      assert entries[j] in entries[..i];
    }
  }

  lemma RepeatedIff(subtasks: seq<SubTask>, breeds: set<string>, maxDepth: int,
      sorted: seq<SubTask>, unresolved: seq<SubTask>, plan: DispatchPlan, i: nat)
    requires IsTopologicalSplit(subtasks, sorted, unresolved) && PlanFollows(breeds, maxDepth, sorted, unresolved, plan)
    requires i < |plan.entries| && plan.entries[i].subTaskId !in Ids(unresolved)
    ensures var all := sorted + unresolved;
            Repeated(subtasks, plan.entries, i) <==>
            exists j :: 0 <= j < i && plan.entries[..i][j].status.Pending? && DedupKey(all[..i][j]) == DedupKey(all[i])
  {
    var all := sorted + unresolved;
    assert EntryFollows(Ids(unresolved), breeds, maxDepth, all, plan.entries, i);
    PlannedOnce(subtasks, sorted, unresolved, i);
    assert sorted[i] in sorted;
    InSubtasks(subtasks, sorted[i]);
    forall j | 0 <= j < i && plan.entries[j].status.Pending?
      ensures SameWork(subtasks, plan.entries[j].subTaskId, plan.entries[i].subTaskId) <==>
              DedupKey(all[..i][j]) == DedupKey(all[i])
    {
      PendingIsSorted(subtasks, breeds, maxDepth, sorted, unresolved, plan, j);
      InSubtasks(subtasks, sorted[j]);
    }
    if Repeated(subtasks, plan.entries, i) {
      var j :| 0 <= j < i && plan.entries[j].status.Pending? &&
        SameWork(subtasks, plan.entries[j].subTaskId, plan.entries[i].subTaskId);
      assert plan.entries[..i][j] == plan.entries[j] && DedupKey(all[..i][j]) == DedupKey(all[i]);
    }
  }
}
