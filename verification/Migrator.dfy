/** The resumable migrator of internal/ragstore/migrator.go. Documents are copied one by one from a
    frozen retired store into the active one, each step of which may fail, be cut off by a
    cancelled context, or be the last before a crash; the migration log survives all of these. */
module Migrator {

  datatype Status = Pending | Done | Failed

  datatype Row = Row(from: string, to: string, doc: string)

  /** What the outside world does to one I/O step. */
  datatype Signal = Proceed | Fails | Cancel | Crash

  datatype Progress = Progress(total: nat, done: nat, failed: nat, pending: nat)

  datatype Outcome = Completed(progress: Progress) | Errored | Crashed

  datatype Retired = NoRetired | Retired(docs: map<string, string>)

  datatype State = State(log: map<Row, Status>, target: map<string, string>)

  // ---- what any run may do, however it ends ----

  /** The relation between the states before and after a run from `from` to `to` over the retired
      store `docs`: rows are never lost, statuses only leave pending, a document newly marked done
      is in the target, and the target only gains documents of the retired store. */
  ghost predicate Evolves(docs: map<string, string>, from: string, to: string, s: State, t: State) {
    && (forall r :: r in s.log ==> r in t.log)
    && (forall r :: r in t.log && r !in s.log ==> r.from == from && r.to == to && r.doc in docs)
    && (forall r :: r in s.log ==> t.log[r] == s.log[r] || (s.log[r].Pending? && r.from == from && r.to == to))
    && (forall r :: r in t.log && t.log[r].Done? && (r in s.log ==> !s.log[r].Done?) ==>
          r.doc in docs && r.doc in t.target && t.target[r.doc] == docs[r.doc])
    && (forall d :: d in s.target ==> d in t.target)
    && (forall d :: d in t.target ==>
          (d in s.target && t.target[d] == s.target[d]) || (d in docs && t.target[d] == docs[d]))
  }

  /** No document was newly recorded as failed. */
  ghost predicate NoNewFailure(s: State, t: State) {
    forall r :: r in t.log && t.log[r].Failed? ==> r in s.log && s.log[r].Failed?
  }

  /** Every row of the pair is about a document of the retired store. */
  ghost predicate RowsKnown(docs: map<string, string>, from: string, to: string, s: State) {
    forall r :: r in s.log && r.from == from && r.to == to ==> r.doc in docs
  }

  /** The retired store is fully dealt with: each document has a row and none is pending. */
  ghost predicate Settled(docs: map<string, string>, from: string, to: string, s: State) {
    && (forall d :: d in docs ==> Row(from, to, d) in s.log)
    && RowsWith(s.log, from, to, Pending) == {}
  }

  lemma EvolvesRefl(docs: map<string, string>, from: string, to: string, s: State)
    ensures Evolves(docs, from, to, s, s)
  {
  }

  lemma EvolvesTrans(docs: map<string, string>, from: string, to: string, s: State, t: State, u: State)
    requires Evolves(docs, from, to, s, t) && Evolves(docs, from, to, t, u)
    ensures Evolves(docs, from, to, s, u)
  {
    forall r | r in u.log && u.log[r].Done? && (r in s.log ==> !s.log[r].Done?)
      ensures r.doc in docs && r.doc in u.target && u.target[r.doc] == docs[r.doc]
    {
      if r in t.log && t.log[r].Done? {
        assert t.target[r.doc] == docs[r.doc];
      }
    }
  }

  // ---- progress ----

  function RowsWith(log: map<Row, Status>, from: string, to: string, st: Status): set<Row> {
    set r | r in log && r.from == from && r.to == to && log[r] == st
  }

  function RowsOf(log: map<Row, Status>, from: string, to: string): set<Row> {
    set r | r in log && r.from == from && r.to == to
  }

  /** Rows grouped by status partition the pair's rows. */
  lemma RowsPartition(log: map<Row, Status>, from: string, to: string)
    ensures |RowsOf(log, from, to)| ==
            |RowsWith(log, from, to, Done)| + |RowsWith(log, from, to, Failed)| + |RowsWith(log, from, to, Pending)|
  {
    var d, f, p := RowsWith(log, from, to, Done), RowsWith(log, from, to, Failed), RowsWith(log, from, to, Pending);
    assert RowsOf(log, from, to) == d + f + p;
    assert d !! f && (d + f) !! p;
  }

  /** Each count is that of its status, or 0 when its group was not read. */
  predicate CountsOf(log: map<Row, Status>, from: string, to: string, p: Progress) {
    && (p.done == 0 || p.done == |RowsWith(log, from, to, Done)|)
    && (p.failed == 0 || p.failed == |RowsWith(log, from, to, Failed)|)
    && (p.pending == 0 || p.pending == |RowsWith(log, from, to, Pending)|)
  }

  /** Every row of the pair is counted, under its status. */
  predicate AllCounted(log: map<Row, Status>, from: string, to: string, p: Progress) {
    && p.done == |RowsWith(log, from, to, Done)|
    && p.failed == |RowsWith(log, from, to, Failed)|
    && p.pending == |RowsWith(log, from, to, Pending)|
    && p.total == |RowsOf(log, from, to)|
  }

  // One row leaves the pending ones.
  lemma HandleRow(log: map<Row, Status>, from: string, to: string, todo: set<Row>, r: Row, st: Status)
    requires todo <= RowsWith(log, from, to, Pending) && r in todo
    ensures todo - {r} <= RowsWith(log[r := st], from, to, Pending)
    ensures todo == RowsWith(log, from, to, Pending) && !st.Pending? ==>
            todo - {r} == RowsWith(log[r := st], from, to, Pending)
  {
  }

  class Migrator {
    var log: map<Row, Status>
    var target: map<string, string>
    // cleared by the first cancellation; a cancelled context fails every database call
    var live: bool

    function Value(): State
      reads this
    {
      State(log, target)
    }

    method DbStep(sig: Signal) returns (ok: bool)
      modifies `live
      ensures live <==> old(live) && !sig.Cancel?
      ensures ok <==> sig.Proceed? && live
    {
      if sig.Cancel? {
        live := false;
      }
      ok := sig.Proceed? && live;
    }

    // A vector store may answer even under a cancelled context.
    method StoreStep(sig: Signal) returns (ok: bool)
      modifies `live
      ensures live <==> old(live) && !sig.Cancel?
      ensures ok <==> sig.Proceed?
    {
      if sig.Cancel? {
        live := false;
      }
      ok := sig.Proceed?;
    }

    /** INSERT OR IGNORE of a pending row. */
    method EnsureLogEntry(from: string, to: string, doc: string, sig: Signal) returns (ok: bool)
      modifies `live, `log
      ensures live <==> old(live) && !sig.Cancel?
      ensures ok <==> sig.Proceed? && live
      ensures log == if ok && Row(from, to, doc) !in old(log) then old(log)[Row(from, to, doc) := Pending] else old(log)
    {
      ok := DbStep(sig);
      if ok && Row(from, to, doc) !in log {
        log := log[Row(from, to, doc) := Pending];
      }
    }

    /** UPDATE of a row's status; its error is ignored by the caller. */
    method Mark(r: Row, st: Status, sig: Signal)
      modifies `live, `log
      ensures live <==> old(live) && !sig.Cancel?
      ensures log == if sig.Proceed? && live && r in old(log) then old(log)[r := st] else old(log)
    {
      var ok := DbStep(sig);
      if ok && r in log {
        log := log[r := st];
      }
    }

    /** The GROUP BY query and the loop adding it up. A context cancelled or a database error while
        the groups are read ends the loop early, and nobody looks: what was read so far is returned
        without an error. */
    method GetProgress(from: string, to: string, sig: Signal) returns (ok: bool, p: Progress)
      modifies `live
      ensures live <==> old(live) && !sig.Cancel?
      ensures sig.Proceed? ==> (ok <==> live)
      ensures p.total == p.done + p.failed + p.pending
      ensures CountsOf(log, from, to, p)
      ensures ok && sig.Proceed? ==> AllCounted(log, from, to, p)
    {
      RowsPartition(log, from, to);
      p := Progress(0, 0, 0, 0);
      ok := DbStep(sig);
      if sig.Proceed? && !ok {
        return;
      }
      if !sig.Proceed? {
        // the query itself may already fail, or its rows break off
        if * {
          return false, p;
        }
        ok := true;
      }
      var statuses := [Done, Failed, Pending];
      for i := 0 to 3
        invariant p.done == 0 || (i > 0 && p.done == |RowsWith(log, from, to, Done)|)
        invariant p.failed == 0 || (i > 1 && p.failed == |RowsWith(log, from, to, Failed)|)
        invariant p.pending == 0 || (i > 2 && p.pending == |RowsWith(log, from, to, Pending)|)
        invariant sig.Proceed? && i > 0 ==> p.done == |RowsWith(log, from, to, Done)|
        invariant sig.Proceed? && i > 1 ==> p.failed == |RowsWith(log, from, to, Failed)|
        invariant sig.Proceed? && i > 2 ==> p.pending == |RowsWith(log, from, to, Pending)|
        invariant p.total == p.done + p.failed + p.pending
      {
        var count := |RowsWith(log, from, to, statuses[i])|;
        var reached := true;
        if !sig.Proceed? {
          reached := *;
        }
        // a status without rows has no group
        if count > 0 && reached {
          p := p.(total := p.total + count);
          match statuses[i] {
            case Done => p := p.(done := count);
            case Failed => p := p.(failed := count);
            case Pending => p := p.(pending := count);
          }
        }
      }
    }

    /** Step 1 of SyncData: a pending row for every document not yet logged. */
    method LogAll(docs: map<string, string>, from: string, to: string, env: nat -> Signal, k0: nat)
      returns (res: Outcome, k: nat)
      modifies `live, `log
      ensures Evolves(docs, from, to, old(Value()), Value()) && NoNewFailure(old(Value()), Value())
      ensures res.Completed? ==> forall d :: d in docs ==> Row(from, to, d) in log
      ensures old(live) && (forall j :: env(j).Proceed?) ==> live && res.Completed?
    {
      k := k0;
      var rest := docs.Keys;
      ghost var s := Value();
      while rest != {}
        invariant rest <= docs.Keys
        invariant target == s.target
        invariant Evolves(docs, from, to, s, Value()) && NoNewFailure(s, Value())
        invariant forall d :: d in docs && d !in rest ==> Row(from, to, d) in log
        invariant old(live) && (forall j :: env(j).Proceed?) ==> live
        decreases rest
      {
        var d :| d in rest;
        if env(k).Crash? {
          return Crashed, k;
        }
        var ok := EnsureLogEntry(from, to, d, env(k));
        k := k + 1;
        if !ok {
          return Errored, k;
        }
        rest := rest - {d};
      }
      return Completed(Progress(0, 0, 0, 0)), k;
    }

    /** The body of step 3 for one pending document: get, upsert, mark. */
    method MigrateOne(docs: map<string, string>, row: Row, env: nat -> Signal, k0: nat)
      returns (crashed: bool, k: nat)
      requires row in log && log[row].Pending?
      modifies `live, `log, `target
      ensures Evolves(docs, row.from, row.to, old(Value()), Value())
      ensures row in log && log == old(log)[row := log[row]]
      ensures (forall j :: !env(j).Fails?) && row.doc in docs ==> NoNewFailure(old(Value()), Value())
      ensures old(live) && (forall j :: env(j).Proceed?) ==>
                !crashed && live && log[row] == if row.doc in docs then Done else Failed
      // a store error is recorded as a failure; one at the read copies nothing, one at the write may
      // come after the document got there
      ensures old(live) && env(k0).Fails? && env(k0 + 1).Proceed? ==> log[row].Failed? && target == old(target)
      ensures old(live) && env(k0).Proceed? && row.doc in docs && env(k0 + 1).Fails? && env(k0 + 2).Proceed? ==>
                log[row].Failed? && (target == old(target) || target == old(target)[row.doc := docs[row.doc]])
    {
      var doc := row.doc;
      k := k0;
      if env(k).Crash? {
        return true, k;
      }
      var got := StoreStep(env(k));
      k := k + 1;
      if !got || doc !in docs {
        if env(k).Crash? {
          return true, k;
        }
        Mark(row, Failed, env(k));
        return false, k + 1;
      }
      if env(k).Crash? {
        return true, k;
      }
      var put := StoreStep(env(k));
      k := k + 1;
      if !put {
        // the error may hide a write that landed
        if * {
          target := target[doc := docs[doc]];
        }
        if env(k).Crash? {
          return true, k;
        }
        Mark(row, Failed, env(k));
        return false, k + 1;
      }
      target := target[doc := docs[doc]];
      if env(k).Crash? {
        return true, k;
      }
      Mark(row, Done, env(k));
      return false, k + 1;
    }

    /** Step 2: the pending rows. A context cancelled or a database error while they are read hands
        back only some of them, without an error. */
    method GetPending(from: string, to: string, sig: Signal) returns (ok: bool, rows: set<Row>)
      modifies `live
      ensures live <==> old(live) && !sig.Cancel?
      ensures rows <= RowsWith(log, from, to, Pending)
      ensures sig.Proceed? && live ==> ok && rows == RowsWith(log, from, to, Pending)
    {
      rows := RowsWith(log, from, to, Pending);
      ok := DbStep(sig);
      if sig.Cancel? || sig.Fails? {
        // the query itself may already fail, or its rows break off
        if * {
          return;
        }
        rows :| rows <= RowsWith(log, from, to, Pending);
        ok := true;
      }
    }

    // `todo` is pending, and under a clean environment it is all that is.
    ghost predicate Remaining(from: string, to: string, todo: set<Row>, clean: bool)
      reads this
    {
      && todo <= RowsWith(log, from, to, Pending)
      && (clean ==> live && todo == RowsWith(log, from, to, Pending))
    }

    /** Step 3: each pending row in turn, in any order. */
    method MigratePending(docs: map<string, string>, from: string, to: string, env: nat -> Signal, k0: nat,
        rows: set<Row>)
      returns (res: Outcome, k: nat)
      requires Remaining(from, to, rows, live && forall j :: env(j).Proceed?)
      modifies `live, `log, `target
      ensures Evolves(docs, from, to, old(Value()), Value())
      ensures (forall j :: !env(j).Fails?) && RowsKnown(docs, from, to, old(Value())) ==>
                NoNewFailure(old(Value()), Value())
      ensures old(live) && (forall j :: env(j).Proceed?) ==>
                res.Completed? && live && RowsWith(log, from, to, Pending) == {}
    {
      k := k0;
      var rest := rows;
      ghost var s := Value();
      ghost var clean := live && forall j :: env(j).Proceed?;
      ghost var quiet := (forall j :: !env(j).Fails?) && RowsKnown(docs, from, to, s);
      while rest != {}
        invariant Remaining(from, to, rest, clean)
        invariant Evolves(docs, from, to, s, Value())
        invariant quiet ==> NoNewFailure(s, Value())
        decreases rest
      {
        if env(k).Crash? {
          return Crashed, k;
        }
        // ctx.Err(): a cancelled context ends the loop, and the progress query fails with it
        var alive := DbStep(env(k));
        k := k + 1;
        if !live {
          return Errored, k;
        }
        var r :| r in rest;
        ghost var before := Value();
        var crashed;
        crashed, k := MigrateOne(docs, r, env, k);
        HandleRow(before.log, from, to, rest, r, log[r]);
        rest := rest - {r};
        EvolvesTrans(docs, from, to, s, before, Value());
        if crashed {
          return Crashed, k;
        }
      }
      return Completed(Progress(0, 0, 0, 0)), k;
    }

    /** Steps 2 and 3 and the final progress, over rows already logged. */
    method MigrateLogged(docs: map<string, string>, from: string, to: string, env: nat -> Signal, k0: nat)
      returns (res: Outcome)
      modifies `live, `log, `target
      ensures Evolves(docs, from, to, old(Value()), Value())
      ensures (forall j :: !env(j).Fails?) && RowsKnown(docs, from, to, old(Value())) ==>
                NoNewFailure(old(Value()), Value())
      ensures old(live) && (forall j :: env(j).Proceed?) ==> res.Completed? && RowsWith(log, from, to, Pending) == {}
      ensures res.Completed? ==> IsProgress(log, from, to, env, res.progress)
    {
      if env(k0).Crash? {
        return Crashed;
      }
      var selected, rows := GetPending(from, to, env(k0));
      if !selected {
        return Errored;
      }
      var k;
      res, k := MigratePending(docs, from, to, env, k0 + 1, rows);
      if !res.Completed? {
        return;
      }
      if env(k).Crash? {
        return Crashed;
      }
      var ok, p := GetProgress(from, to, env(k));
      if !ok {
        return Errored;
      }
      return Completed(p);
    }

    // A reported progress; exact unless the environment interfered.
    ghost predicate IsProgress(log: map<Row, Status>, from: string, to: string, env: nat -> Signal, p: Progress) {
      && CountsOf(log, from, to, p) && p.total == p.done + p.failed + p.pending
      && ((forall j :: !env(j).Fails? && !env(j).Cancel?) ==> AllCounted(log, from, to, p))
    }

    /** SyncData from the retired backend `from` into the active backend `to`. */
    method SyncData(retired: Retired, from: string, to: string, env: nat -> Signal) returns (res: Outcome)
      modifies this
      ensures retired.NoRetired? ==> res == Errored && Value() == old(Value())
      ensures retired.Retired? ==> Evolves(retired.docs, from, to, old(Value()), Value())
      ensures retired.Retired? && (forall j :: !env(j).Fails?) && RowsKnown(retired.docs, from, to, old(Value())) ==>
                NoNewFailure(old(Value()), Value())
      ensures retired.Retired? && (forall j :: env(j).Proceed?) ==>
                res.Completed? && Settled(retired.docs, from, to, Value()) && res.progress.pending == 0
      ensures res.Completed? ==> IsProgress(log, from, to, env, res.progress)
    {
      live := true;
      if retired.NoRetired? {
        return Errored;
      }
      var docs := retired.docs;
      ghost var s := Value();
      if env(0).Crash? {
        return Crashed;
      }
      var listed := StoreStep(env(0));
      if !listed {
        return Errored;
      }
      var k;
      res, k := LogAll(docs, from, to, env, 1);
      if !res.Completed? {
        return;
      }
      ghost var t := Value();
      LoggingKeepsKnown(docs, from, to, s, t);
      res := MigrateLogged(docs, from, to, env, k);
      EvolvesTrans(docs, from, to, s, t, Value());
    }
  }

  lemma LoggingKeepsKnown(docs: map<string, string>, from: string, to: string, s: State, t: State)
    requires Evolves(docs, from, to, s, t)
    ensures RowsKnown(docs, from, to, s) ==> RowsKnown(docs, from, to, t)
  {
  }

  // ---- any number of runs ----

  /** A history of runs over the frozen retired store: each step is one run, however it ended. */
  ghost predicate History(docs: map<string, string>, from: string, to: string, states: seq<State>) {
    && states != []
    && forall i :: 0 <= i < |states| - 1 ==> RunBetween(docs, from, to, states, i)
  }

  ghost predicate RunBetween(docs: map<string, string>, from: string, to: string, states: seq<State>, i: nat)
    requires i + 1 < |states|
  {
    Evolves(docs, from, to, states[i], states[i + 1])
  }

  /** No run of the history recorded a new failure: none met a store error of its own. */
  ghost predicate WithoutFailures(states: seq<State>) {
    forall i :: 0 <= i < |states| - 1 ==> QuietBetween(states, i)
  }

  ghost predicate QuietBetween(states: seq<State>, i: nat)
    requires i + 1 < |states|
  {
    NoNewFailure(states[i], states[i + 1])
  }

  /** Nothing about the pair has been logged yet. */
  ghost predicate Fresh(from: string, to: string, s: State) {
    forall r :: r in s.log ==> !(r.from == from && r.to == to)
  }

  lemma {:induction false} HistoryEvolves(docs: map<string, string>, from: string, to: string, states: seq<State>,
      n: nat)
    requires History(docs, from, to, states) && n < |states|
    ensures Evolves(docs, from, to, states[0], states[n])
    ensures WithoutFailures(states) ==> NoNewFailure(states[0], states[n])
  {
    if n == 0 {
      EvolvesRefl(docs, from, to, states[0]);
    } else {
      HistoryEvolves(docs, from, to, states, n - 1);
      assert RunBetween(docs, from, to, states, n - 1);
      EvolvesTrans(docs, from, to, states[0], states[n - 1], states[n]);
      if WithoutFailures(states) { assert QuietBetween(states, n - 1); }
    }
  }

  /** In every reachable state a row marked done has its document in the target, and rows only
      ever moved from pending to done or failed. */
  lemma DoneMeansCopied(docs: map<string, string>, from: string, to: string, states: seq<State>, n: nat, d: string)
    requires History(docs, from, to, states) && Fresh(from, to, states[0]) && n < |states|
    requires Row(from, to, d) in states[n].log && states[n].log[Row(from, to, d)].Done?
    ensures d in docs && d in states[n].target && states[n].target[d] == docs[d]
  {
    HistoryEvolves(docs, from, to, states, n);
  }

  lemma {:induction false} StatusOnlyLeavesPending(docs: map<string, string>, from: string, to: string,
      states: seq<State>, i: nat, j: nat, r: Row)
    requires History(docs, from, to, states) && i <= j < |states|
    requires r in states[i].log && !states[i].log[r].Pending?
    ensures r in states[j].log && states[j].log[r] == states[i].log[r]
    decreases j - i
  {
    if i < j {
      assert RunBetween(docs, from, to, states, i);
      StatusOnlyLeavesPending(docs, from, to, states, i + 1, j, r);
    }
  }

  /** Resumability: after any number of cancelled or crashed runs, a state with nothing pending
      holds exactly the documents one uninterrupted run would have produced, the original target
      overlaid with the retired store. */
  lemma ResumedEqualsUninterrupted(docs: map<string, string>, from: string, to: string, states: seq<State>)
    requires History(docs, from, to, states) && Fresh(from, to, states[0]) && WithoutFailures(states)
    requires Settled(docs, from, to, states[|states| - 1])
    ensures states[|states| - 1].target == states[0].target + docs
  {
    var n := |states| - 1;
    HistoryEvolves(docs, from, to, states, n);
    forall d | d in docs ensures d in states[n].target && states[n].target[d] == docs[d] {
      assert Row(from, to, d) !in RowsWith(states[n].log, from, to, Pending);
    }
  }

  /** With store errors allowed, the settled target misses at most the documents recorded as
      failed: it equals the uninterrupted result exactly when each of those got there anyway. */
  lemma SettledUpToFailures(docs: map<string, string>, from: string, to: string, states: seq<State>)
    requires History(docs, from, to, states) && Fresh(from, to, states[0])
    requires Settled(docs, from, to, states[|states| - 1])
    ensures var last := states[|states| - 1];
            last.target == states[0].target + docs <==>
            forall d :: d in docs && last.log[Row(from, to, d)].Failed? ==>
                d in last.target && last.target[d] == docs[d]
  {
    var n := |states| - 1;
    var last := states[n];
    HistoryEvolves(docs, from, to, states, n);
    if forall d :: d in docs && last.log[Row(from, to, d)].Failed? ==> d in last.target && last.target[d] == docs[d] {
      forall d | d in docs ensures d in last.target && last.target[d] == docs[d] {
        assert Row(from, to, d) !in RowsWith(last.log, from, to, Pending);
      }
    } else {
      var d :| d in docs && last.log[Row(from, to, d)].Failed? && !(d in last.target && last.target[d] == docs[d]);
      assert (states[0].target + docs)[d] == docs[d];
    }
  }
}
