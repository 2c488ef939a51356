/** The dependency graph of a list of subtasks (pkg/pack/orchestrator/dispatch_types.go:9-15),
    the bookkeeping Kahn's algorithm keeps over it, and the order-theoretic facts that make
    its result mean something: sorted exactly when no chain of dependencies runs into a cycle. */
module DependencyGraph {

  datatype SubTask = SubTask(
    id: string, title: string, description: string, suggestBreed: string, dependsOn: seq<string>)

  function Ids(tasks: seq<SubTask>): set<string> {
    set i | 0 <= i < |tasks| :: tasks[i].id
  }

  predicate DistinctIds(tasks: seq<SubTask>) {
    forall i, j :: 0 <= i < j < |tasks| ==> tasks[i].id != tasks[j].id
  }

  lemma IdsSnoc(tasks: seq<SubTask>, t: SubTask)
    ensures Ids(tasks + [t]) == Ids(tasks) + {t.id}
  {
    var all := tasks + [t];
    assert all[|tasks|] == t;
    forall i | 0 <= i < |tasks| ensures tasks[i].id in Ids(all) {
      assert all[i] == tasks[i];
    }
  }

  // The task a map filled in list order holds for an id: the last one written.
  function LastWithId(tasks: seq<SubTask>, id: string): (t: SubTask)
    requires id in Ids(tasks)
    ensures t in tasks && t.id == id
  {
    var n := |tasks| - 1;
    if tasks[n].id == id then tasks[n]
    else
      assert tasks == tasks[..n] + [tasks[n]];
      IdsSnoc(tasks[..n], tasks[n]);
      LastWithId(tasks[..n], id)
  }

  lemma {:induction false} LastWithIdIsLast(tasks: seq<SubTask>, id: string, i: nat)
    requires i < |tasks| && tasks[i].id == id && forall j :: i < j < |tasks| ==> tasks[j].id != id
    ensures id in Ids(tasks) && LastWithId(tasks, id) == tasks[i]
  {
    var n := |tasks| - 1;
    if tasks[n].id != id {
      LastWithIdIsLast(tasks[..n], id, i);
    }
  }

  /** Some task called `t` lists `d`, and `d` is the id of a task in the list. */
  ghost predicate DependsOn(tasks: seq<SubTask>, t: string, d: string) {
    && d in Ids(tasks)
    && exists i :: 0 <= i < |tasks| && tasks[i].id == t && d in tasks[i].dependsOn
  }

  // ---- arcs, one per occurrence of a known dependency ----

  datatype Arc = Arc(dep: string, task: string)

  function TaskArcs(known: set<string>, task: string, deps: seq<string>): seq<Arc> {
    if deps == [] then []
    else
      var n := |deps| - 1;
      TaskArcs(known, task, deps[..n]) + if deps[n] in known then [Arc(deps[n], task)] else []
  }

  lemma TaskArcsStep(known: set<string>, task: string, deps: seq<string>, k: nat)
    requires k < |deps|
    ensures TaskArcs(known, task, deps[..k + 1]) ==
            TaskArcs(known, task, deps[..k]) + if deps[k] in known then [Arc(deps[k], task)] else []
  {
    assert deps[..k + 1][..k] == deps[..k];
  }

  function Arcs(known: set<string>, tasks: seq<SubTask>): seq<Arc> {
    if tasks == [] then []
    else
      var n := |tasks| - 1;
      Arcs(known, tasks[..n]) + TaskArcs(known, tasks[n].id, tasks[n].dependsOn)
  }

  lemma {:induction false} TaskArcsSound(known: set<string>, task: string, deps: seq<string>, d: string, t: string)
    ensures Arc(d, t) in TaskArcs(known, task, deps) <==> t == task && d in known && d in deps
  {
    if deps != [] {
      var n := |deps| - 1;
      assert deps == deps[..n] + [deps[n]];
      TaskArcsSound(known, task, deps[..n], d, t);
    }
  }

  lemma {:induction false} ArcsSound(known: set<string>, tasks: seq<SubTask>, d: string, t: string)
    ensures Arc(d, t) in Arcs(known, tasks) <==>
            d in known && exists i :: 0 <= i < |tasks| && tasks[i].id == t && d in tasks[i].dependsOn
  {
    if tasks != [] {
      var n := |tasks| - 1;
      ArcsSound(known, tasks[..n], d, t);
      TaskArcsSound(known, tasks[n].id, tasks[n].dependsOn, d, t);
      forall i | 0 <= i < n ensures tasks[..n][i] == tasks[i] {}
      if Arc(d, t) in Arcs(known, tasks[..n]) {
        var i :| 0 <= i < n && tasks[..n][i].id == t && d in tasks[..n][i].dependsOn;
        assert tasks[i].id == t && d in tasks[i].dependsOn;
      }
      if d in known && exists i :: 0 <= i < |tasks| && tasks[i].id == t && d in tasks[i].dependsOn {
        var i :| 0 <= i < |tasks| && tasks[i].id == t && d in tasks[i].dependsOn;
        if i < n {
          assert tasks[..n][i].id == t && d in tasks[..n][i].dependsOn;
        }
      }
    }
  }

  // Tasks waiting on `d`, once per arc, in arc order.
  function Waiting(arcs: seq<Arc>, d: string): seq<string> {
    if arcs == [] then []
    else
      var n := |arcs| - 1;
      Waiting(arcs[..n], d) + if arcs[n].dep == d then [arcs[n].task] else []
  }

  // The in-degree of `t` once the tasks in `done` have been emitted.
  function Open(arcs: seq<Arc>, t: string, done: set<string>): nat {
    if arcs == [] then 0
    else
      var n := |arcs| - 1;
      Open(arcs[..n], t, done) + if arcs[n].task == t && arcs[n].dep !in done then 1 else 0
  }

  lemma WaitingSnoc(arcs: seq<Arc>, a: Arc, d: string)
    ensures Waiting(arcs + [a], d) == Waiting(arcs, d) + if a.dep == d then [a.task] else []
  {
    assert (arcs + [a])[..|arcs|] == arcs;
  }

  lemma OpenSnoc(arcs: seq<Arc>, a: Arc, t: string, done: set<string>)
    ensures Open(arcs + [a], t, done) == Open(arcs, t, done) + if a.task == t && a.dep !in done then 1 else 0
  {
    assert (arcs + [a])[..|arcs|] == arcs;
  }

  lemma {:induction false} WaitingSound(arcs: seq<Arc>, d: string, t: string)
    ensures t in Waiting(arcs, d) <==> Arc(d, t) in arcs
  {
    if arcs != [] {
      var n := |arcs| - 1;
      assert arcs == arcs[..n] + [arcs[n]];
      WaitingSound(arcs[..n], d, t);
      assert arcs[n] == Arc(arcs[n].dep, arcs[n].task);
    }
  }

  /** Emitting `d` lowers the in-degree of `t` by the number of times `t` waits on `d`:
      repeated entries in a dependency list are counted alike on both sides. */
  lemma {:induction false} OpenAfterEmit(arcs: seq<Arc>, t: string, done: set<string>, d: string)
    requires d !in done
    ensures Open(arcs, t, done + {d}) == Open(arcs, t, done) - multiset(Waiting(arcs, d))[t]
  {
    if arcs != [] {
      OpenAfterEmit(arcs[..|arcs| - 1], t, done, d);
    }
  }

  lemma {:induction false} OpenZero(arcs: seq<Arc>, t: string, done: set<string>)
    ensures Open(arcs, t, done) == 0 <==> forall a :: a in arcs && a.task == t ==> a.dep in done
  {
    if arcs != [] {
      var n := |arcs| - 1;
      assert arcs == arcs[..n] + [arcs[n]];
      OpenZero(arcs[..n], t, done);
    }
  }

  // ---- what a correct split into sorted and unresolved is ----

  /** `sorted` holds one task per id, each after all its known dependencies; `unresolved` is
      every other task in input order, and each of those still waits on an unsorted one. */
  ghost predicate IsTopologicalSplit(tasks: seq<SubTask>, sorted: seq<SubTask>, unresolved: seq<SubTask>) {
    && DistinctIds(sorted)
    && (forall t :: t in sorted ==> t.id in Ids(tasks) && t == LastWithId(tasks, t.id))
    && (forall i, d :: 0 <= i < |sorted| && DependsOn(tasks, sorted[i].id, d) ==> d in Ids(sorted[..i]))
    && unresolved == Without(tasks, Ids(sorted))
    && (forall t :: t in Ids(tasks) - Ids(sorted) ==>
          exists d :: DependsOn(tasks, t, d) && d !in Ids(sorted))
  }

  function Without(tasks: seq<SubTask>, ids: set<string>): seq<SubTask> {
    if tasks == [] then []
    else
      var n := |tasks| - 1;
      Without(tasks[..n], ids) + if tasks[n].id in ids then [] else [tasks[n]]
  }

  lemma {:induction false} WithoutSound(tasks: seq<SubTask>, ids: set<string>)
    ensures forall t :: t in Without(tasks, ids) <==> t in tasks && t.id !in ids
  {
    if tasks != [] {
      var n := |tasks| - 1;
      assert tasks == tasks[..n] + [tasks[n]];
      WithoutSound(tasks[..n], ids);
    }
  }

  /** The tasks left over stand in the order of the list. */
  lemma {:induction false} WithoutInOrder(tasks: seq<SubTask>, ids: set<string>, t: SubTask)
    ensures Without([], ids) == []
    ensures Without(tasks + [t], ids) == Without(tasks, ids) + if t.id in ids then [] else [t]
  {
    assert (tasks + [t])[..|tasks|] == tasks;
  }

  // ---- cycles ----

  ghost predicate Link(tasks: seq<SubTask>, p: seq<string>, i: nat)
    requires i + 1 < |p|
  {
    DependsOn(tasks, p[i], p[i + 1])
  }

  /** p[0] depends on p[1], which depends on p[2], and so on. */
  ghost predicate Chain(tasks: seq<SubTask>, p: seq<string>) {
    && p != []
    && forall i :: 0 <= i < |p| - 1 ==> Link(tasks, p, i)
  }

  /** A chain from `t` whose last task already occurs earlier on it. */
  ghost predicate Lasso(tasks: seq<SubTask>, t: string, p: seq<string>) {
    && Chain(tasks, p)
    && p[0] == t
    && p[|p| - 1] in p[..|p| - 1]
  }

  ghost predicate RunsIntoCycle(tasks: seq<SubTask>, t: string) {
    exists p :: Lasso(tasks, t, p)
  }

  // Position of an id in a list with distinct ids.
  ghost function PositionOf(sorted: seq<SubTask>, id: string): (i: nat)
    requires id in Ids(sorted)
    ensures i < |sorted| && sorted[i].id == id
  {
    var i :| 0 <= i < |sorted| && sorted[i].id == id; i
  }

  // Along a chain that starts in the sorted part, positions fall strictly.
  lemma {:induction false} ChainDescends(tasks: seq<SubTask>, sorted: seq<SubTask>, unresolved: seq<SubTask>,
      p: seq<string>, k: nat)
    requires IsTopologicalSplit(tasks, sorted, unresolved)
    requires Chain(tasks, p) && p[0] in Ids(sorted) && k < |p|
    ensures forall j :: 0 <= j <= k ==> p[j] in Ids(sorted)
    ensures forall j :: 0 <= j < k ==> PositionOf(sorted, p[k]) < PositionOf(sorted, p[j])
  {
    if k > 0 {
      ChainDescends(tasks, sorted, unresolved, p, k - 1);
      var i := PositionOf(sorted, p[k - 1]);
      assert Link(tasks, p, k - 1);
      assert p[k] in Ids(sorted[..i]);
      var m := PositionOf(sorted[..i], p[k]);
      assert sorted[m].id == p[k];
    }
  }

  // Unresolved tasks keep waiting on unresolved tasks, so chains through them never end.
  lemma {:induction false} UnresolvedChain(tasks: seq<SubTask>, sorted: seq<SubTask>, unresolved: seq<SubTask>,
      t: string, n: nat) returns (p: seq<string>)
    requires IsTopologicalSplit(tasks, sorted, unresolved)
    requires t in Ids(tasks) - Ids(sorted)
    ensures |p| == n + 1 && p[0] == t && Chain(tasks, p)
    ensures forall id :: id in p ==> id in Ids(tasks)
    decreases n
  {
    if n == 0 {
      p := [t];
    } else {
      var d :| DependsOn(tasks, t, d) && d !in Ids(sorted);
      var q := UnresolvedChain(tasks, sorted, unresolved, d, n - 1);
      p := [t] + q;
      forall i | 0 <= i < |p| - 1 ensures Link(tasks, p, i) {
        if i > 0 {
          assert Link(tasks, q, i - 1);
        }
      }
    }
  }

  // Pigeonhole: a list longer than the finite set it draws from repeats an element.
  lemma {:induction false} Pigeonhole(p: seq<string>, ids: set<string>) returns (k: nat)
    requires |p| > |ids|
    requires forall id :: id in p ==> id in ids
    ensures k < |p| && p[k] in p[..k]
    decreases |p|
  {
    var n := |p| - 1;
    if p[n] in p[..n] {
      k := n;
    } else {
      forall id | id in p[..n] ensures id in ids - {p[n]} {}
      k := Pigeonhole(p[..n], ids - {p[n]});
      assert p[..n][..k] == p[..k];
    }
  }

  /** A task is left unresolved exactly when some chain of its dependencies runs into a cycle. */
  lemma UnresolvedIffCycle(tasks: seq<SubTask>, sorted: seq<SubTask>, unresolved: seq<SubTask>, t: string)
    requires IsTopologicalSplit(tasks, sorted, unresolved)
    requires t in Ids(tasks)
    ensures t in Ids(unresolved) <==> RunsIntoCycle(tasks, t)
  {
    WithoutSound(tasks, Ids(sorted));
    assert t in Ids(unresolved) <==> t !in Ids(sorted) by {
      if t !in Ids(sorted) {
        assert LastWithId(tasks, t) in unresolved;
      }
    }
    if t in Ids(sorted) {
      forall p ensures !Lasso(tasks, t, p) {
        if Lasso(tasks, t, p) {
          ChainDescends(tasks, sorted, unresolved, p, |p| - 1);
        }
      }
    } else {
      var p := UnresolvedChain(tasks, sorted, unresolved, t, |Ids(tasks)|);
      var k := Pigeonhole(p, Ids(tasks));
      var q := p[..k + 1];
      assert q[..k] == p[..k];
      forall i | 0 <= i < |q| - 1 ensures Link(tasks, q, i) {
        assert Link(tasks, p, i);
      }
      assert Lasso(tasks, t, q);
    }
  }

  /** `unresolved` is non-empty exactly when the list contains a cycle. */
  lemma UnresolvedNonEmptyIffCyclic(tasks: seq<SubTask>, sorted: seq<SubTask>, unresolved: seq<SubTask>)
    requires IsTopologicalSplit(tasks, sorted, unresolved)
    ensures unresolved != [] <==> exists t :: t in Ids(tasks) && RunsIntoCycle(tasks, t)
  {
    WithoutSound(tasks, Ids(sorted));
    if unresolved != [] {
      var t := unresolved[0];
      assert t in unresolved && t.id in Ids(tasks) && t.id in Ids(unresolved);
      UnresolvedIffCycle(tasks, sorted, unresolved, t.id);
    }
    if exists t :: t in Ids(tasks) && RunsIntoCycle(tasks, t) {
      var t :| t in Ids(tasks) && RunsIntoCycle(tasks, t);
      UnresolvedIffCycle(tasks, sorted, unresolved, t);
    }
  }

  lemma {:induction false} WithoutOnce(tasks: seq<SubTask>, ids: set<string>, t: SubTask)
    requires DistinctIds(tasks)
    ensures multiset(Without(tasks, ids))[t] == if t in tasks && t.id !in ids then 1 else 0
    ensures multiset(tasks)[t] == if t in tasks then 1 else 0
  {
    if tasks != [] {
      var n := |tasks| - 1;
      assert tasks == tasks[..n] + [tasks[n]];
      WithoutOnce(tasks[..n], ids, t);
      assert tasks[n] !in tasks[..n];
    }
  }

  /** With distinct ids the two parts together are the input, task for task. */
  lemma SplitIsPartition(tasks: seq<SubTask>, sorted: seq<SubTask>, unresolved: seq<SubTask>)
    requires IsTopologicalSplit(tasks, sorted, unresolved)
    requires DistinctIds(tasks)
    ensures multiset(sorted + unresolved) == multiset(tasks)
    ensures |sorted| + |unresolved| == |tasks|
  {
    forall t: SubTask ensures multiset(sorted + unresolved)[t] == multiset(tasks)[t] {
      WithoutOnce(tasks, Ids(sorted), t);
      WithoutOnce(sorted, {}, t);
      if t in tasks && t.id in Ids(sorted) {
        // the sorted task with this id is the only task with it
        var s := sorted[PositionOf(sorted, t.id)];
        var i :| 0 <= i < |tasks| && tasks[i] == s;
        var j :| 0 <= j < |tasks| && tasks[j] == t;
        assert i == j;
      }
    }
    assert |multiset(sorted + unresolved)| == |sorted + unresolved|;
  }
}
