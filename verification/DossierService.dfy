/** The proposal pipeline of internal/dossier: validation (proposal.go), the in-memory proposal
    store (memory_stores.go) and the service (service.go) that approves, rejects and applies
    proposals to the dossier file. A commit lands or not, and one that landed may still be reported
    as failed; reading and writing the file either work or leave it as it was. Calls are served one
    at a time. */
module DossierService {
  import opened Basics
  import opened DossierApplier
  import opened DossierSections

  datatype CreateInput = CreateInput(
    sourceEvent: string, sourceId: string, targetDogId: string, targetFields: seq<string>,
    beforeSnapshot: string, afterDraft: string, rationale: string, evidenceRefs: seq<EvidenceRef>,
    baseHash: Digest, createdBy: string)

  datatype ServiceError =
    | Validation | NotFound | WrongState | SeparationOfDuties | NotTargetDog
    | ReadFailed | DraftRefused(error: DraftError) | WriteFailed | CommitFailed

  datatype Result<+T> = Ok(value: T) | Err(error: ServiceError)

  // ---- validation ----

  const SOURCE_EVENTS := {"review-complete", "feat-phase-close", "manual"}
  const EVIDENCE_KINDS := {"observation", "review", "trajectory", "operator-comment"}

  /** Evidence is present, of known kinds, named, and no piece is cited twice. */
  predicate GoodEvidence(refs: seq<EvidenceRef>) {
    && (forall i :: 0 <= i < |refs| ==> refs[i].kind in EVIDENCE_KINDS && refs[i].id != "")
    && (forall i, j :: 0 <= i < j < |refs| ==> refs[i].kind != refs[j].kind || refs[i].id != refs[j].id)
  }

  predicate ValidInput(x: CreateInput) {
    && x.sourceEvent in SOURCE_EVENTS && x.sourceId != "" && x.targetDogId != "" && x.targetFields != []
    && x.beforeSnapshot != "" && x.afterDraft != "" && x.rationale != "" && x.baseHash != OtherText("")
    && x.evidenceRefs != [] && GoodEvidence(x.evidenceRefs)
  }

  function EvidenceKey(r: EvidenceRef): string {
    r.kind + ":" + r.id
  }

  // The kinds contain no colon, so joining kind and id with one loses nothing.
  lemma KeysTell(a: EvidenceRef, b: EvidenceRef)
    requires a.kind in EVIDENCE_KINDS && b.kind in EVIDENCE_KINDS
    ensures EvidenceKey(a) == EvidenceKey(b) <==> a.kind == b.kind && a.id == b.id
  {
    if EvidenceKey(a) == EvidenceKey(b) {
      var n, m := |a.kind|, |b.kind|;
      assert EvidenceKey(a)[n] == ':' && EvidenceKey(b)[m] == ':';
      assert forall i :: 0 <= i < n ==> EvidenceKey(a)[i] == a.kind[i];
      assert forall i :: 0 <= i < m ==> EvidenceKey(b)[i] == b.kind[i];
      NoColon(a.kind);
      NoColon(b.kind);
      assert n == m;
      assert a.kind == EvidenceKey(a)[..n] == EvidenceKey(b)[..m] == b.kind;
      assert a.id == EvidenceKey(a)[n + 1..] == EvidenceKey(b)[m + 1..] == b.id;
    }
  }

  lemma NoColon(kind: string)
    requires kind in EVIDENCE_KINDS
    ensures forall i :: 0 <= i < |kind| ==> kind[i] != ':'
  {
  }

  ghost predicate KeysOf(refs: seq<EvidenceRef>, n: nat, seen: set<string>)
    requires n <= |refs|
  {
    forall k :: k in seen <==> exists j :: 0 <= j < n && EvidenceKey(refs[j]) == k
  }

  // The next piece of evidence was cited before exactly when its key was seen.
  lemma CitedIff(refs: seq<EvidenceRef>, i: nat, seen: set<string>)
    requires i < |refs| && KeysOf(refs, i, seen) && GoodEvidence(refs[..i]) && refs[i].kind in EVIDENCE_KINDS &&
             refs[i].id != ""
    ensures EvidenceKey(refs[i]) in seen <==> !GoodEvidence(refs[..i + 1])
    ensures KeysOf(refs, i + 1, seen + {EvidenceKey(refs[i])})
    ensures EvidenceKey(refs[i]) in seen ==> !GoodEvidence(refs)
  {
    forall j | 0 <= j < i
      ensures EvidenceKey(refs[j]) == EvidenceKey(refs[i]) <==> refs[j].kind == refs[i].kind && refs[j].id == refs[i].id
    {
      assert refs[..i][j] == refs[j];
      KeysTell(refs[j], refs[i]);
    }
    assert refs[..i + 1][i] == refs[i];
    forall j | 0 <= j < i ensures refs[..i + 1][j] == refs[..i][j] == refs[j] {}
    if EvidenceKey(refs[i]) in seen {
      var j :| 0 <= j < i && EvidenceKey(refs[j]) == EvidenceKey(refs[i]);
      assert refs[..i + 1][j].kind == refs[..i + 1][i].kind;
    }
  }

  method ValidateCreateProposal(x: CreateInput) returns (ok: bool)
    ensures ok <==> ValidInput(x)
  {
    if x.sourceEvent !in SOURCE_EVENTS || x.sourceId == "" || x.targetDogId == "" || |x.targetFields| == 0 {
      return false;
    }
    if x.beforeSnapshot == "" || x.afterDraft == "" || x.rationale == "" || x.baseHash == OtherText("") {
      return false;
    }
    if |x.evidenceRefs| == 0 {
      return false;
    }
    var seen: set<string> := {};
    for i := 0 to |x.evidenceRefs|
      invariant GoodEvidence(x.evidenceRefs[..i])
      invariant KeysOf(x.evidenceRefs, i, seen)
    {
      var r := x.evidenceRefs[i];
      if r.kind !in EVIDENCE_KINDS || r.id == "" {
        return false;
      }
      CitedIff(x.evidenceRefs, i, seen);
      if EvidenceKey(r) in seen {
        return false;
      }
      seen := seen + {EvidenceKey(r)};
    }
    assert x.evidenceRefs[..|x.evidenceRefs|] == x.evidenceRefs;
    return true;
  }

  /** Which events may lead to a proposal, and which kinds of evidence count: a good input stays good under
      another event or kind exactly when that is one of these. */
  lemma AcceptedNames(x: CreateInput, name: string)
    requires ValidInput(x) && |x.evidenceRefs| == 1
    ensures ValidInput(x.(sourceEvent := name)) <==>
            name == "review-complete" || name == "feat-phase-close" || name == "manual"
    ensures ValidInput(x.(evidenceRefs := [x.evidenceRefs[0].(kind := name)])) <==>
            name == "observation" || name == "review" || name == "trajectory" || name == "operator-comment"
  {
    var refs := [x.evidenceRefs[0].(kind := name)];
    assert refs[0].kind == name && refs[0].id == x.evidenceRefs[0].id;
    assert x.evidenceRefs[0].id != "";
  }

  /** No field may be left empty but the creator; evidence must be there, named and not cited twice. */
  lemma NothingMissing(x: CreateInput)
    requires ValidInput(x)
    ensures !ValidInput(x.(sourceId := "")) && !ValidInput(x.(targetDogId := ""))
    ensures !ValidInput(x.(targetFields := [])) && !ValidInput(x.(rationale := ""))
    ensures !ValidInput(x.(beforeSnapshot := "")) && !ValidInput(x.(afterDraft := ""))
    ensures !ValidInput(x.(baseHash := OtherText(""))) && !ValidInput(x.(evidenceRefs := []))
    ensures ValidInput(x.(createdBy := ""))
    ensures forall r: EvidenceRef :: ValidInput(x.(evidenceRefs := x.evidenceRefs + [r])) <==>
              ValidInput(x.(evidenceRefs := [r])) &&
              forall q :: q in x.evidenceRefs ==> q.kind != r.kind || q.id != r.id
  {
    forall r: EvidenceRef
      ensures ValidInput(x.(evidenceRefs := x.evidenceRefs + [r])) <==>
              ValidInput(x.(evidenceRefs := [r])) &&
              forall q :: q in x.evidenceRefs ==> q.kind != r.kind || q.id != r.id
    {
      OneMore(x.evidenceRefs, r);
    }
  }

  lemma OneMore(refs: seq<EvidenceRef>, r: EvidenceRef)
    requires GoodEvidence(refs)
    ensures GoodEvidence(refs + [r]) <==>
            GoodEvidence([r]) && forall q :: q in refs ==> q.kind != r.kind || q.id != r.id
  {
    var all := refs + [r];
    assert all[|refs|] == r && [r][0] == r;
    forall i | 0 <= i < |refs| ensures all[i] == refs[i] && refs[i] in refs {}
    if GoodEvidence(all) {
      forall q | q in refs ensures q.kind != r.kind || q.id != r.id {
        var i :| 0 <= i < |refs| && refs[i] == q;
        assert all[i].kind != all[|refs|].kind || all[i].id != all[|refs|].id;
      }
    }
  }

  // ---- the service as functions ----

  /** The proposal ledger, the dossier file, the dossier as last committed, and the proposals
      applied so far in commit order. */
  datatype State = State(
    items: map<nat, Proposal>, bySource: map<string, nat>, order: seq<nat>, counter: nat,
    text: string, head: string, commits: seq<nat>)

  function OrOperator(who: string): string {
    if who == "" then "operator" else who
  }

  function NewProposal(s: State, x: CreateInput): Proposal {
    Proposal(s.counter + 1, Pending, x.sourceEvent, x.sourceId, x.targetDogId, x.targetFields,
      x.beforeSnapshot, x.afterDraft, x.rationale, x.evidenceRefs, x.baseHash, OrOperator(x.createdBy), "", "", "",
      "", "")
  }

  function Create(s: State, x: CreateInput): (State, Result<Proposal>) {
    if !ValidInput(x) then (s, Err(Validation))
    else if x.sourceId in s.bySource then
      if s.bySource[x.sourceId] in s.items then (s, Ok(s.items[s.bySource[x.sourceId]])) else (s, Err(NotFound))
    else
      var p := NewProposal(s, x);
      (s.(items := s.items[p.id := p], bySource := s.bySource[p.sourceId := p.id],
          order := s.order + [p.id], counter := p.id),
       Ok(p))
  }

  // Moves a proposal on when it is still in the expected status.
  function Transition(s: State, id: nat, from: ProposalStatus, next: Proposal): (State, Result<Proposal>) {
    if id !in s.items then (s, Err(NotFound))
    else if s.items[id].status != from then (s, Err(WrongState))
    else (s.(items := s.items[id := next]), Ok(next))
  }

  function Approve(s: State, id: nat, who: string): (State, Result<Proposal>) {
    if id !in s.items then (s, Err(NotFound))
    else if s.items[id].createdBy == OrOperator(who) then (s, Err(SeparationOfDuties))
    else Transition(s, id, Pending, s.items[id].(status := Approved, approvedBy := OrOperator(who)))
  }

  function Reject(s: State, id: nat, who: string, reason: string): (State, Result<Proposal>) {
    if id !in s.items then (s, Err(NotFound))
    else if s.items[id].createdBy == OrOperator(who) then (s, Err(SeparationOfDuties))
    else
      Transition(s, id, Pending,
        s.items[id].(status := Rejected, rejectedBy := OrOperator(who), rejectReason := reason))
  }

  /** What becomes of a commit. The last one landed, but asking git for its hash failed, so the
      service takes it for a failure. Git lands no commit of a file that is as it was last committed. */
  datatype Commit = Landed(sha: string) | NotLanded | LandedUnreported

  /** What the file system and git answer to one apply. */
  datatype Io = Io(readOk: bool, writeOk: bool, commit: Commit)

  function Apply(s: State, id: nat, who: string, io: Io): (State, Result<Proposal>) {
    if id !in s.items then (s, Err(NotFound))
    else
      var p := s.items[id];
      if p.targetDogId != OrOperator(who) then (s, Err(NotTargetDog))
      else if !p.status.Approved? then (s, Err(WrongState))
      else if !io.readOk then (s, Err(ReadFailed))
      else match PrepareDraft(p, s.text)
        case Refused(e) => (s, Err(DraftRefused(e)))
        case Draft(modified) =>
          if !io.writeOk then (s, Err(WriteFailed))
          else if io.commit.NotLanded? || modified == s.head then (s, Err(CommitFailed))
          else if io.commit.LandedUnreported? then (s.(head := modified), Err(CommitFailed))
          else
            var applied := p.(status := Applied, appliedBy := OrOperator(who), commitSha := io.commit.sha);
            (s.(items := s.items[id := applied], text := modified, head := modified, commits := s.commits + [id]),
             Ok(applied))
  }

  // ---- the service object ----

  class Service {
    var items: map<nat, Proposal>
    var bySource: map<string, nat>
    var order: seq<nat>
    var counter: nat
    var file: string
    var head: string
    var commits: seq<nat>

    function Value(): State
      reads this
    {
      State(items, bySource, order, counter, file, head, commits)
    }

    method CreateProposal(x: CreateInput) returns (r: Result<Proposal>, created: bool)
      requires forall src :: src in bySource ==> bySource[src] in items
      modifies this
      ensures (Value(), r) == Create(old(Value()), x)
      ensures created <==> r.Ok? && x.sourceId !in old(bySource)
      ensures created <==> Value() != old(Value())
    {
      var input := if x.createdBy == "" then x.(createdBy := "operator") else x;
      var ok := ValidateCreateProposal(input);
      if !ok {
        return Err(Validation), false;
      }
      if input.sourceId in bySource {
        return Ok(items[bySource[input.sourceId]]), false;
      }
      var p := NewProposal(Value(), input);
      counter := counter + 1;
      items := items[p.id := p];
      bySource := bySource[p.sourceId := p.id];
      order := order + [p.id];
      return Ok(p), true;
    }

    // The compare-and-set every status change goes through.
    method TransitionTo(id: nat, from: ProposalStatus, next: Proposal) returns (r: Result<Proposal>)
      modifies `items
      ensures (Value(), r) == Transition(old(Value()), id, from, next)
    {
      if id !in items {
        return Err(NotFound);
      }
      if items[id].status != from {
        return Err(WrongState);
      }
      items := items[id := next];
      return Ok(next);
    }

    method ApproveProposal(id: nat, approver: string) returns (r: Result<Proposal>)
      modifies `items
      ensures (Value(), r) == Approve(old(Value()), id, approver)
    {
      var who := if approver == "" then "operator" else approver;
      if id !in items {
        return Err(NotFound);
      }
      var p := items[id];
      if p.createdBy == who {
        return Err(SeparationOfDuties);
      }
      r := TransitionTo(id, Pending, p.(status := Approved, approvedBy := who));
    }

    method RejectProposal(id: nat, rejecter: string, reason: string) returns (r: Result<Proposal>)
      modifies `items
      ensures (Value(), r) == Reject(old(Value()), id, rejecter, reason)
    {
      var who := if rejecter == "" then "operator" else rejecter;
      if id !in items {
        return Err(NotFound);
      }
      var p := items[id];
      if p.createdBy == who {
        return Err(SeparationOfDuties);
      }
      r := TransitionTo(id, Pending, p.(status := Rejected, rejectedBy := who, rejectReason := reason));
    }

    /** Write the draft, commit, and restore the original when the commit fails. */
    method ExecuteApply(id: nat, appliedBy: string, io: Io) returns (r: Result<Proposal>)
      modifies `items, `file, `head, `commits
      ensures (Value(), r) == Apply(old(Value()), id, appliedBy, io)
    {
      var who := if appliedBy == "" then "operator" else appliedBy;
      if id !in items {
        return Err(NotFound);
      }
      var p := items[id];
      if p.targetDogId != who {
        return Err(NotTargetDog);
      }
      if !p.status.Approved? {
        return Err(WrongState);
      }
      if !io.readOk {
        return Err(ReadFailed);
      }
      var original := file;
      var draft := PrepareDraft(p, original);
      if draft.Refused? {
        return Err(DraftRefused(draft.error));
      }
      if !io.writeOk {
        return Err(WriteFailed);
      }
      file := draft.modified;
      var landed := !io.commit.NotLanded? && file != head;
      if landed {
        head := file;
      }
      if !landed || io.commit.LandedUnreported? {
        file := original;
        return Err(CommitFailed);
      }
      commits := commits + [id];
      r := TransitionTo(id, Approved, p.(status := Applied, appliedBy := who, commitSha := io.commit.sha));
    }
  }

  /** What a new proposal takes from its input. */
  lemma CreateLeaves(s: State, x: CreateInput)
    requires ValidInput(x) && x.sourceId !in s.bySource
    ensures var (t, r) := Create(s, x);
            && r.Ok? && t.items == s.items[r.value.id := r.value] && t.bySource == s.bySource[x.sourceId := r.value.id]
            && t == s.(items := t.items, bySource := t.bySource, order := s.order + [r.value.id], counter := r.value.id)
            && var p := r.value;
               && p.id == s.counter + 1 && p.status == Pending
               && p.sourceEvent == x.sourceEvent && p.sourceId == x.sourceId
               && p.targetDogId == x.targetDogId && p.targetFields == x.targetFields
               && p.beforeSnapshot == x.beforeSnapshot && p.afterDraft == x.afterDraft
               && p.rationale == x.rationale && p.evidenceRefs == x.evidenceRefs && p.baseHash == x.baseHash
               && p.createdBy == (if x.createdBy == "" then "operator" else x.createdBy)
               && p.approvedBy == p.rejectedBy == p.rejectReason == p.appliedBy == p.commitSha == ""
  {
  }

  /** What a decision does: it needs a pending proposal and somebody else than its creator. */
  lemma DecisionLeaves(s: State, id: nat, who: string, reason: string)
    ensures var decider := if who == "" then "operator" else who;
            var ok := id in s.items && s.items[id].status.Pending? && s.items[id].createdBy != decider;
            var (a, approved) := Approve(s, id, who);
            var (b, rejected) := Reject(s, id, who, reason);
            && approved.Ok? == rejected.Ok? == ok
            && (!ok ==>
                a == b == s &&
                approved == rejected == Err(if id !in s.items then NotFound
                                            else if s.items[id].createdBy == decider then SeparationOfDuties
                                            else WrongState))
            && (ok ==>
                var p := s.items[id];
                && a == s.(items := s.items[id := p.(status := Approved, approvedBy := decider)])
                && b == s.(items := s.items[id := p.(status := Rejected, rejectedBy := decider,
                                                     rejectReason := reason)]))
  {
  }

  /** Why an apply fails, the first reason that holds; an apply with none succeeds. */
  lemma ApplyRefusedWhy(s: State, id: nat, who: string, io: Io)
    requires id in s.items
    ensures var p := s.items[id]; var draft := PrepareDraft(p, s.text); var r := Apply(s, id, who, io).1;
            if p.targetDogId != (if who == "" then "operator" else who) then r == Err(NotTargetDog)
            else if p.status != Approved then r == Err(WrongState)
            else if !io.readOk then r == Err(ReadFailed)
            else if draft.Refused? then r == Err(DraftRefused(draft.error))
            else if !io.writeOk then r == Err(WriteFailed)
            else if !io.commit.Landed? || draft.modified == s.head then r == Err(CommitFailed)
            else r.Ok?
  {
  }

  // ---- runs ----

  datatype Op =
    | CreateOp(x: CreateInput)
    | ApproveOp(id: nat, who: string)
    | RejectOp(id: nat, who: string, reason: string)
    | ApplyOp(id: nat, who: string, io: Io)

  function Step(s: State, op: Op): (State, Result<Proposal>) {
    match op
    case CreateOp(x) => Create(s, x)
    case ApproveOp(id, who) => Approve(s, id, who)
    case RejectOp(id, who, reason) => Reject(s, id, who, reason)
    case ApplyOp(id, who, io) => Apply(s, id, who, io)
  }

  function Run(s: State, ops: seq<Op>): State
    decreases ops
  {
    if ops == [] then s else Run(Step(s, ops[0]).0, ops[1..])
  }

  function Initial(text: string): State {
    State(map[], map[], [], 0, text, text, [])
  }

  /** Rewriting the text for one proposal after another; a rewrite that finds nothing to replace
      leaves the text alone. */
  function Replay(text: string, ps: seq<Proposal>): string {
    if ps == [] then text
    else
      var before := Replay(text, ps[..|ps| - 1]);
      var p := ps[|ps| - 1];
      match Substitute(before, p.targetDogId, p.beforeSnapshot, p.afterDraft)
      case Draft(m) => m
      case Refused(_) => before
  }

  // The committed proposals, in commit order.
  function Committed(s: State): seq<Proposal>
    requires forall i :: 0 <= i < |s.commits| ==> s.commits[i] in s.items
  {
    seq(|s.commits|, i requires 0 <= i < |s.commits| => s.items[s.commits[i]])
  }

  /** Approved by somebody else than its creator. */
  predicate ApprovedByOther(p: Proposal) {
    p.approvedBy != "" && p.approvedBy != p.createdBy
  }

  ghost predicate Ledger(s: State) {
    && (forall id :: id in s.items ==> id <= s.counter && s.items[id].id == id)
    && (forall src :: src in s.bySource ==> s.bySource[src] in s.items && s.items[s.bySource[src]].sourceId == src)
    && (forall id :: id in s.items ==> s.items[id].sourceId in s.bySource && s.bySource[s.items[id].sourceId] == id)
    && (forall id :: id in s.items && (s.items[id].status.Approved? || s.items[id].status.Applied?) ==>
        ApprovedByOther(s.items[id]))
    && (forall id :: id in s.items && s.items[id].status.Applied? ==> s.items[id].appliedBy == s.items[id].targetDogId)
  }

  // The commit list holds exactly the applied proposals, each once.
  ghost predicate Committing(s: State) {
    && (forall i :: 0 <= i < |s.commits| ==> s.commits[i] in s.items && s.items[s.commits[i]].status.Applied?)
    && (forall i, j :: 0 <= i < j < |s.commits| ==> s.commits[i] != s.commits[j])
    && (forall id :: id in s.items && s.items[id].status.Applied? ==> id in s.commits)
  }

  /** The text is the initial one with the committed drafts replayed, and each draft was written
      against the very text it replaced. */
  ghost predicate TextFollows(s: State, initial: string)
    requires Committing(s)
  {
    && s.text == Replay(initial, Committed(s))
    && forall i :: 0 <= i < |s.commits| ==>
         Committed(s)[i].baseHash == OfContent(Replay(initial, Committed(s)[..i]))
  }

  ghost predicate Inv(s: State, initial: string) {
    Ledger(s) && Committing(s) && TextFollows(s, initial)
  }

  // ---- every step keeps the invariant ----

  // Replacing a proposal by one that keeps its identity and the separation of duties.
  lemma UpdateKeepsLedger(s: State, id: nat, next: Proposal, text: string, head: string, commits: seq<nat>)
    requires Ledger(s) && id in s.items && next.id == id && next.sourceId == s.items[id].sourceId
    requires next.status.Approved? || next.status.Applied? ==> ApprovedByOther(next)
    requires next.status.Applied? ==> next.appliedBy == next.targetDogId
    ensures Ledger(s.(items := s.items[id := next], text := text, head := head, commits := commits))
  {
  }

  lemma OneProposalMoves(s: State, op: Op)
    requires !op.CreateOp? && Step(s, op).1.Ok?
    ensures var t, next := Step(s, op).0, Step(s, op).1.value;
            && op.id in s.items
            && t == s.(items := s.items[op.id := next], text := t.text, head := t.head, commits := t.commits)
            && next.id == s.items[op.id].id && next.sourceId == s.items[op.id].sourceId
            && (op.ApproveOp? ==> next.createdBy != next.approvedBy && next.approvedBy != "")
            && (op.RejectOp? ==> next.status.Rejected?)
            && next.targetDogId == s.items[op.id].targetDogId && !next.status.Pending?
            && (!op.ApplyOp? ==> s.items[op.id].status.Pending?)
            && (op.ApplyOp? ==> s.items[op.id].status.Approved? && next.appliedBy == next.targetDogId &&
                                next.approvedBy == s.items[op.id].approvedBy &&
                                next.createdBy == s.items[op.id].createdBy)
            && (op.ApproveOp? ==> next.status.Approved?)
  {
  }

  lemma StepKeepsLedger(s: State, op: Op)
    requires Ledger(s)
    ensures Ledger(Step(s, op).0)
  {
    if op.CreateOp? {
      CreateKeepsLedger(s, op.x);
    } else if Step(s, op).1.Ok? {
      var next := Step(s, op).1.value;
      OneProposalMoves(s, op);
      UpdateKeepsLedger(s, op.id, next, Step(s, op).0.text, Step(s, op).0.head, Step(s, op).0.commits);
    } else {
      FailureChangesNothing(s, op);
    }
  }

  lemma CreateKeepsLedger(s: State, x: CreateInput)
    requires Ledger(s)
    ensures Ledger(Create(s, x).0)
    ensures forall id :: id in s.items ==> id in Create(s, x).0.items && Create(s, x).0.items[id] == s.items[id]
    ensures forall id :: id in Create(s, x).0.items && id !in s.items ==> Create(s, x).0.items[id].status.Pending?
    ensures Create(s, x).0.text == s.text && Create(s, x).0.commits == s.commits
  {
  }

  // A step that is no successful apply leaves the text, the commits and every applied proposal alone.
  lemma QuietStep(s: State, op: Op)
    requires Ledger(s) && Committing(s)
    requires op.ApplyOp? ==> Step(s, op).1.Err?
    ensures var t := Step(s, op).0;
            t.text == s.text && t.commits == s.commits && Committing(t) && Committed(t) == Committed(s)
  {
    if op.CreateOp? {
      CreateKeepsLedger(s, op.x);
      SameCommits(s, Create(s, op.x).0);
    } else if Step(s, op).1.Ok? {
      PendingUpdate(s, op.id, Step(s, op).0.items[op.id]);
    } else {
      FailureChangesNothing(s, op);
      SameCommits(s, Step(s, op).0);
    }
  }

  // Approving or rejecting touches no applied proposal.
  lemma PendingUpdate(s: State, id: nat, next: Proposal)
    requires Committing(s) && id in s.items && s.items[id].status.Pending? && !next.status.Applied?
    ensures var t := s.(items := s.items[id := next]);
            Committing(t) && Committed(t) == Committed(s)
  {
    SameCommits(s, s.(items := s.items[id := next]));
  }

  // Two ledgers with the same commits and the same applied proposals.
  lemma SameCommits(s: State, t: State)
    requires Committing(s) && t.commits == s.commits
    requires forall id :: id in s.items && s.items[id].status.Applied? ==> id in t.items && t.items[id] == s.items[id]
    requires forall id :: id in t.items && t.items[id].status.Applied? ==> id in s.items && s.items[id].status.Applied?
    ensures Committing(t) && Committed(t) == Committed(s)
  {
  }

  /** What a successful apply does, in full. */
  lemma ApplyStep(s: State, id: nat, who: string, io: Io)
    requires Ledger(s) && Committing(s) && Apply(s, id, who, io).1.Ok?
    ensures var t := Apply(s, id, who, io).0; var p := s.items[id];
            && Committing(t) && Committed(t) == Committed(s) + [t.items[id]]
            && p.status.Approved? && p.targetDogId == OrOperator(who) && p.baseHash == OfContent(s.text)
            && PrepareDraft(p, s.text) == Draft(t.text)
            && Substitute(s.text, p.targetDogId, p.beforeSnapshot, p.afterDraft) == Draft(t.text)
            && io.commit.Landed? && t.head == t.text
            && t.items[id] == p.(status := Applied, appliedBy := OrOperator(who), commitSha := io.commit.sha)
  {
    var t := Apply(s, id, who, io).0;
    assert id !in s.commits;
    assert t.commits == s.commits + [id];
    forall d | d in t.items && t.items[d].status.Applied? ensures d in t.commits {
      if d == id { assert t.commits[|s.commits|] == id; } else { assert d in s.commits; }
    }
    forall i | 0 <= i < |t.commits| ensures t.commits[i] in t.items && t.items[t.commits[i]].status.Applied? {
      if i < |s.commits| { assert t.commits[i] == s.commits[i]; }
    }
  }

  lemma ReplaySnoc(text: string, ps: seq<Proposal>, p: Proposal)
    requires Substitute(Replay(text, ps), p.targetDogId, p.beforeSnapshot, p.afterDraft).Draft?
    ensures Replay(text, ps + [p]) ==
            Substitute(Replay(text, ps), p.targetDogId, p.beforeSnapshot, p.afterDraft).modified
  {
    assert (ps + [p])[..|ps|] == ps;
  }

  lemma ApplyKeepsText(s: State, id: nat, who: string, io: Io, initial: string)
    requires Inv(s, initial) && Apply(s, id, who, io).1.Ok?
    ensures Committing(Apply(s, id, who, io).0) && TextFollows(Apply(s, id, who, io).0, initial)
  {
    var t := Apply(s, id, who, io).0;
    ApplyStep(s, id, who, io);
    var before, now, p := Committed(s), Committed(t), t.items[id];
    assert now == before + [p];
    ReplaySnoc(initial, before, p);
    forall i | 0 <= i < |t.commits| ensures now[i].baseHash == OfContent(Replay(initial, now[..i])) {
      if i < |before| {
        assert now[..i] == before[..i];
      } else {
        assert now[..i] == before;
      }
    }
  }

  lemma StepKeepsInv(s: State, op: Op, initial: string)
    requires Inv(s, initial)
    ensures Inv(Step(s, op).0, initial)
  {
    StepKeepsLedger(s, op);
    if op.ApplyOp? && Step(s, op).1.Ok? {
      ApplyKeepsText(s, op.id, op.who, op.io, initial);
    } else {
      QuietStep(s, op);
    }
  }

  lemma {:induction false} RunKeepsInv(s: State, ops: seq<Op>, initial: string)
    requires Inv(s, initial)
    ensures Inv(Run(s, ops), initial)
    decreases ops
  {
    if ops != [] {
      StepKeepsInv(s, ops[0], initial);
      RunKeepsInv(Step(s, ops[0]).0, ops[1..], initial);
    }
  }

  /** After any run of service calls, failed commits included, the dossier is the initial text with
      the committed drafts replayed in commit order, each against the text it was written for; every
      applied proposal is committed exactly once, was approved by someone other than its creator and
      applied by its target dog. */
  lemma RunIsReplay(initial: string, ops: seq<Op>)
    ensures var s := Run(Initial(initial), ops);
            && Committing(s) && s.text == Replay(initial, Committed(s))
            && (forall i :: 0 <= i < |s.commits| ==>
                Committed(s)[i].baseHash == OfContent(Replay(initial, Committed(s)[..i])))
            && (forall p :: p in Committed(s) ==> ApprovedByOther(p) && p.appliedBy == p.targetDogId)
  {
    assert Committed(Initial(initial)) == [];
    RunKeepsInv(Initial(initial), ops, initial);
    var s := Run(Initial(initial), ops);
    forall p | p in Committed(s) ensures ApprovedByOther(p) && p.appliedBy == p.targetDogId {
      var i :| 0 <= i < |s.commits| && Committed(s)[i] == p;
      assert p == s.items[s.commits[i]];
    }
  }

  /** A call that fails, for whatever reason, leaves ledger, text and applied proposals as they
      were. Only a commit that landed without the service learning of it leaves a trace, in git. */
  lemma FailureChangesNothing(s: State, op: Op)
    requires Step(s, op).1.Err?
    ensures var t := Step(s, op).0;
            && t == s.(head := t.head)
            && (t == s || (op.ApplyOp? && op.io.commit.LandedUnreported? && op.id in s.items &&
                           PrepareDraft(s.items[op.id], s.text) == Draft(t.head)))
  {
  }

  /** The step gets as far as committing a changed text, and git keeps the commit to itself. */
  predicate CommitsUnreported(s: State, op: Op) {
    && op.ApplyOp? && op.io == Io(true, true, LandedUnreported) && op.id in s.items
    && s.items[op.id].targetDogId == OrOperator(op.who)
    && PrepareDraft(s.items[op.id], s.text).Draft? && PrepareDraft(s.items[op.id], s.text).modified != s.text
  }

  /** File and last commit agree after a step exactly when the step makes no unreported commit. */
  lemma HeadIsTextIff(s: State, op: Op)
    requires s.head == s.text
    ensures Step(s, op).0.head == Step(s, op).0.text <==> !CommitsUnreported(s, op)
  {
    if !op.ApplyOp? {
      OnlyApplyWrites(s, op);
    }
  }

  lemma OnlyApplyWrites(s: State, op: Op)
    requires !op.ApplyOp?
    ensures Step(s, op).0.head == s.head && Step(s, op).0.text == s.text
  {
  }

  ghost predicate AllReported(s: State, ops: seq<Op>)
    decreases ops
  {
    ops == [] || (!CommitsUnreported(s, ops[0]) && AllReported(Step(s, ops[0]).0, ops[1..]))
  }

  /** Over a run whose commits are all reported, the last commit is the file. */
  lemma {:induction false} RunHeadIsText(s: State, ops: seq<Op>)
    requires s.head == s.text && AllReported(s, ops)
    ensures Run(s, ops).head == Run(s, ops).text
    decreases ops
  {
    if ops != [] {
      HeadIsTextIff(s, ops[0]);
      RunHeadIsText(Step(s, ops[0]).0, ops[1..]);
    }
  }

  // ---- commits that landed unreported ----

  /** An apply can succeed, if file system and git do their part, exactly when the target dog applies
      an approved proposal whose draft exists and is not what was committed last. */
  lemma CanApplyIff(s: State, id: nat, who: string)
    ensures (exists io :: Apply(s, id, who, io).1.Ok?) <==>
            && id in s.items && s.items[id].status.Approved? && s.items[id].targetDogId == OrOperator(who)
            && PrepareDraft(s.items[id], s.text).Draft? && PrepareDraft(s.items[id], s.text).modified != s.head
  {
    if id in s.items && s.items[id].status.Approved? && s.items[id].targetDogId == OrOperator(who) {
      var io := Io(true, true, Landed(""));
      var d := PrepareDraft(s.items[id], s.text);
      assert Apply(s, id, who, io).1.Ok? <==> d.Draft? && d.modified != s.head;
    }
  }

  // An approved proposal stays as it is until it is applied, and an applied one for ever.
  lemma ApprovedStays(s: State, op: Op, id: nat)
    requires Ledger(s) && id in s.items && (s.items[id].status.Approved? || s.items[id].status.Applied?)
    ensures var t := Step(s, op).0;
            id in t.items && (t.items[id] == s.items[id] || t.items[id].status.Applied?)
  {
    match op {
      case CreateOp(x) => CreateKeepsLedger(s, x);
      case _ =>
        if Step(s, op).1.Ok? { OneProposalMoves(s, op); } else { FailureChangesNothing(s, op); }
    }
  }

  lemma {:induction false} ApprovedStaysOverRun(s: State, ops: seq<Op>, id: nat)
    requires Ledger(s) && id in s.items && (s.items[id].status.Approved? || s.items[id].status.Applied?)
    ensures var t := Run(s, ops);
            id in t.items && (t.items[id] == s.items[id] || t.items[id].status.Applied?)
    decreases ops
  {
    if ops != [] {
      StepKeepsLedger(s, ops[0]);
      ApprovedStays(s, ops[0], id);
      ApprovedStaysOverRun(Step(s, ops[0]).0, ops[1..], id);
    }
  }

  /** The rollback is there so that a retry starts clean. After a commit that landed unreported the
      retry has nothing to commit: whatever the service does meanwhile, the proposal can be applied
      again exactly when the file is back to the text it was written for and some other text has
      been committed last. While both stay as the failed apply left them, it is stuck. */
  lemma RetryAfterUnreportedIff(s: State, id: nat, who: string, io: Io, ops: seq<Op>)
    requires Ledger(s) && Apply(s, id, who, io).1.Err? && Apply(s, id, who, io).0.head != s.head
    ensures var r := Apply(s, id, who, io).0; var t := Run(r, ops);
            && r.text == s.text && id in t.items
            && ((exists io' :: Apply(t, id, who, io').1.Ok?) <==>
                t.items[id].status.Approved? && t.text == s.text && t.head != r.head)
  {
    var r := Apply(s, id, who, io).0;
    var t := Run(r, ops);
    StepKeepsLedger(s, ApplyOp(id, who, io));
    assert Step(s, ApplyOp(id, who, io)).0 == r;
    ApprovedStaysOverRun(r, ops, id);
    CanApplyIff(t, id, who);
    assert PrepareDraft(r.items[id], s.text) == Draft(r.head);
  }

  /** A step that changes the text is an apply by the target dog, and it keeps every character
      outside that dog's section. */
  lemma TextChangesOnlyInTargetSection(s: State, op: Op) returns (start: nat, end: nat, at: nat)
    requires Ledger(s) && Committing(s) && Step(s, op).0.text != s.text
    ensures op.ApplyOp? && op.id in s.items && s.items[op.id].targetDogId == OrOperator(op.who)
    ensures EditPoint(s.items[op.id], s.text, start, end, at)
    ensures var m := Step(s, op).0.text;
            && start <= |m| && |s.text| - end <= |m|
            && m[..start] == s.text[..start] && m[|m| - (|s.text| - end)..] == s.text[end..]
  {
    if op.ApplyOp? && Step(s, op).1.Ok? {
      ApplyStep(s, op.id, op.who, op.io);
      start, end, at := DraftStaysInSection(s.items[op.id], s.text);
    } else {
      QuietStep(s, op);
      assert false;
    }
  }

  // ---- one dog's section over a run ----

  /** The apply rewrites another section than the dog's and lets the dog keep its place. */
  ghost predicate Spares(s: State, op: Op, dogId: string) {
    && op.ApplyOp? && op.id in s.items
    && exists start: nat, end: nat, w: string ::
         SparesAt(s.text, s.items[op.id].targetDogId, start, end, w, Step(s, op).0.text, dogId)
  }

  ghost predicate SparesAt(s: string, owner: string, start: nat, end: nat, w: string, m: string, dogId: string) {
    && SectionBecomes(s, owner, start, end, w, m) && FindSectionStart(s, dogId) != Some(start)
    && KeepsPlace(s, m, start, end, w, dogId)
  }

  predicate OwnApply(s: State, op: Op, dogId: string) {
    op.ApplyOp? && op.id in s.items && s.items[op.id].targetDogId == dogId && Step(s, op).1.Ok?
  }

  function OwnApplies(s: State, ops: seq<Op>, dogId: string): nat
    decreases ops
  {
    if ops == [] then 0
    else (if OwnApply(s, ops[0], dogId) then 1 else 0) + OwnApplies(Step(s, ops[0]).0, ops[1..], dogId)
  }

  /** Every apply for another dog, when its turn comes, spares this one. */
  ghost predicate OthersSpare(s: State, ops: seq<Op>, dogId: string)
    decreases ops
  {
    ops == [] || (
      && (Step(s, ops[0]).0.text == s.text || OwnApply(s, ops[0], dogId) || Spares(s, ops[0], dogId))
      && OthersSpare(Step(s, ops[0]).0, ops[1..], dogId))
  }

  lemma StepKeepsSection(s: State, op: Op, dogId: string)
    requires Spares(s, op, dogId)
    ensures SectionText(Step(s, op).0.text, dogId) == SectionText(s.text, dogId)
  {
    var m, owner := Step(s, op).0.text, s.items[op.id].targetDogId;
    var start: nat, end: nat, w: string :| SparesAt(s.text, owner, start, end, w, m, dogId);
    SectionKeptIff(s.text, owner, start, end, w, m, dogId);
  }

  /** As long as the applies for other dogs spare it, a dog's section changes by its own applies
      only: over a run without one it is the same text, found by the same heading. */
  lemma {:induction false} OnlyOwnAppliesChange(s: State, ops: seq<Op>, dogId: string, initial: string)
    requires Inv(s, initial) && OthersSpare(s, ops, dogId)
    requires SectionText(Run(s, ops).text, dogId) != SectionText(s.text, dogId)
    ensures OwnApplies(s, ops, dogId) > 0
    decreases ops
  {
    if ops != [] && !OwnApply(s, ops[0], dogId) {
      var t := Step(s, ops[0]).0;
      StepKeepsInv(s, ops[0], initial);
      if t.text != s.text {
        StepKeepsSection(s, ops[0], dogId);
      }
      OnlyOwnAppliesChange(t, ops[1..], dogId, initial);
    }
  }

  // ---- who approves and who applies ----

  lemma DecidedStays(s: State, op: Op, id: nat)
    requires Ledger(s) && id in s.items && !s.items[id].status.Pending?
    ensures var t := Step(s, op).0;
            && id in t.items && !t.items[id].status.Pending?
            && t.items[id].approvedBy == s.items[id].approvedBy && t.items[id].targetDogId == s.items[id].targetDogId
            && t.items[id].createdBy == s.items[id].createdBy
  {
    match op {
      case CreateOp(x) => CreateKeepsLedger(s, x);
      case _ =>
        if Step(s, op).1.Ok? { OneProposalMoves(s, op); } else { FailureChangesNothing(s, op); }
    }
  }

  lemma {:induction false} DecisionStays(s: State, ops: seq<Op>, id: nat)
    requires Ledger(s) && id in s.items && !s.items[id].status.Pending?
    ensures var t := Run(s, ops);
            && id in t.items && t.items[id].approvedBy == s.items[id].approvedBy
            && t.items[id].targetDogId == s.items[id].targetDogId && t.items[id].createdBy == s.items[id].createdBy
    decreases ops
  {
    if ops != [] {
      StepKeepsLedger(s, ops[0]);
      DecidedStays(s, ops[0], id);
      DecisionStays(Step(s, ops[0]).0, ops[1..], id);
    }
  }

  /** The documentation wants creator, approver and applier to be three hands. Creator and approver
      always differ; approver and applier are the same exactly when the target dog approved. */
  lemma ApproverAppliesIff(s: State, id: nat, approver: string, ops: seq<Op>, applier: string, io: Io)
    requires Ledger(s) && Approve(s, id, approver).1.Ok?
    requires Apply(Run(Approve(s, id, approver).0, ops), id, applier, io).1.Ok?
    ensures var p := Apply(Run(Approve(s, id, approver).0, ops), id, applier, io).1.value;
            && p.createdBy != p.approvedBy
            && (p.approvedBy == p.appliedBy <==> OrOperator(approver) == s.items[id].targetDogId)
  {
    StepKeepsLedger(s, ApproveOp(id, approver));
    DecisionStays(Approve(s, id, approver).0, ops, id);
  }

  /** The target dog approves a proposal somebody else wrote for it and applies it: the service
      accepts, and one dog is both approver and applier. */
  lemma TargetApprovesAndApplies(x: CreateInput)
    requires ValidInput(x) && x.createdBy == "operator" && x.targetDogId == "a"
    requires x.beforeSnapshot == OLD_LINE && x.afterDraft == "new" && x.baseHash == ComputeFileHash(TwoDogs(OLD_LINE))
    ensures var ops := [CreateOp(x), ApproveOp(1, "a"), ApplyOp(1, "a", Io(true, true, Landed("")))];
            var s := Run(Initial(TwoDogs(OLD_LINE)), ops);
            && 1 in s.items && s.items[1].status.Applied?
            && s.items[1].createdBy == "operator" && s.items[1].approvedBy == s.items[1].appliedBy == "a"
  {
    var s0 := Initial(TwoDogs(OLD_LINE));
    var p := NewProposal(s0, x);
    var a, b, c := CreateOp(x), ApproveOp(1, "a"), ApplyOp(1, "a", Io(true, true, Landed("")));
    var q := p.(status := Approved, approvedBy := "a");
    var s1 := s0.(items := map[1 := p], bySource := map[x.sourceId := 1], order := [1], counter := 1);
    var s2 := s1.(items := map[1 := q]);
    assert Step(s0, a).0 == s1;
    assert Step(s1, b).0 == s2 by { assert s1.items[1] == p; }
    AppliesFirst(s2, q, "new");
    RunThree(s0, a, b, c);
    assert Run(s0, [a, b, c]) == Step(s2, c).0;
    assert q.createdBy == OrOperator(x.createdBy) == "operator";
  }

  /** A proposal with a base hash of less than eight characters is accepted and may be approved; the
      target dog's apply then panics, whatever the dossier holds. */
  lemma ShortHashPanics(x: CreateInput, initial: string, approver: string)
    requires ValidInput(x) && x.baseHash.OtherText? && |x.baseHash.text| < 8
    requires OrOperator(approver) != OrOperator(x.createdBy)
    ensures var s := Run(Initial(initial), [CreateOp(x), ApproveOp(1, approver)]);
            forall io: Io :: io.readOk ==> Apply(s, 1, x.targetDogId, io).1 == Err(DraftRefused(SliceOutOfRange))
  {
    var s0 := Initial(initial);
    var a, b := CreateOp(x), ApproveOp(1, approver);
    var s1 := Step(s0, a).0;
    var s2 := Step(s1, b).0;
    assert [a, b][1..] == [b] && [b][1..] == [];
    assert Run(s0, [a, b]) == Run(s1, [b]) == Run(s2, []) == s2;
    SliceOutOfRangeIff(s2.items[1], initial);
  }

  /** Such a run exists: the hash is "abc". */
  lemma AbcHashPanics()
    ensures var x := CreateInput("manual", "m", "a", ["role"], "old", "new", "why", [EvidenceRef("review", "r", "")],
                                 OtherText("abc"), "operator");
            && ValidInput(x)
            && Apply(Run(Initial(TwoDogs(OLD_LINE)), [CreateOp(x), ApproveOp(1, "b")]), 1, "a",
                     Io(true, true, Landed(""))).1 == Err(DraftRefused(SliceOutOfRange))
  {
    var x := CreateInput("manual", "m", "a", ["role"], "old", "new", "why", [EvidenceRef("review", "r", "")],
                         OtherText("abc"), "operator");
    ShortHashPanics(x, TwoDogs(OLD_LINE), "b");
  }

  lemma LongerText(after: string)
    requires |after| != |OLD_LINE|
    ensures TwoDogs(after) != TwoDogs(OLD_LINE)
  {
    TwoDogsParts(after);
    TwoDogsParts(OLD_LINE);
  }

  lemma AppliesFirst(s: State, q: Proposal, after: string)
    requires s.items == map[1 := q] && ReplacesOldLine(q, after) && s.text == s.head == TwoDogs(OLD_LINE)
    requires |after| != |OLD_LINE|
    ensures var t := Step(s, ApplyOp(1, "a", Io(true, true, Landed("")))).0;
            1 in t.items && t.items[1] == q.(status := Applied, appliedBy := "a", commitSha := "")
  {
    var io := Io(true, true, Landed(""));
    assert s.items[1] == q && OrOperator("a") == "a";
    DraftsOldText(q, after);
    LongerText(after);
    assert Apply(s, 1, "a", io).1.Ok?;
    assert Step(s, ApplyOp(1, "a", io)) == Apply(s, 1, "a", io);
  }

  lemma RunThree(s: State, a: Op, b: Op, c: Op)
    ensures Run(s, [a, b, c]) == Step(Step(Step(s, a).0, b).0, c).0
  {
    var s1 := Step(s, a).0;
    var s2 := Step(s1, b).0;
    assert [a, b, c][1..] == [b, c] && [b, c][1..] == [c] && [c][1..] == [];
    assert Run(s, [a, b, c]) == Run(s1, [b, c]);
    assert Run(s1, [b, c]) == Run(s2, [c]);
    assert Run(s2, [c]) == Run(Step(s2, c).0, []);
  }
}
