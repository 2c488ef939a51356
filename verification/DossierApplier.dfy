/** internal/dossier/applier.go: computing the dossier text an approved proposal leads to. The two
    regular expressions are spelled out as what they match; SHA-256 is taken to be injective, so a
    digest is either that of some content or a text that is no content's digest. */
module DossierApplier {
  import opened Basics

  datatype ProposalStatus = Pending | Approved | Rejected | Applied

  datatype Digest = OfContent(content: string) | OtherText(text: string)

  function ComputeFileHash(content: string): Digest {
    OfContent(content)
  }

  datatype EvidenceRef = EvidenceRef(kind: string, id: string, summary: string)

  datatype Proposal = Proposal(
    id: nat, status: ProposalStatus, sourceEvent: string, sourceId: string,
    targetDogId: string, targetFields: seq<string>,
    beforeSnapshot: string, afterDraft: string, rationale: string, evidenceRefs: seq<EvidenceRef>, baseHash: Digest,
    createdBy: string, approvedBy: string, rejectedBy: string, rejectReason: string, appliedBy: string,
    commitSha: string)

  // `SliceOutOfRange` is the panic of cutting a digest text shorter than eight characters.
  datatype DraftError = NotApproved | BaseHashMismatch | SliceOutOfRange | SectionNotFound | BeforeSnapshotNotFound

  datatype DraftResult = Draft(modified: string) | Refused(error: DraftError)

  // ---- headings ----

  predicate IsWhite(c: char) {
    c in {'\t', '\n', '\U{0C}', '\r', ' '}
  }

  /** What `\s` matches in a Go regular expression, by number. */
  lemma WhiteNumbers(c: char)
    ensures IsWhite(c) <==> c as int in {9, 10, 12, 13, 32}
  {
  }

  predicate LineStart(s: string, i: nat)
    requires i <= |s|
  {
    i == 0 || s[i - 1] == '\n'
  }

  /** A match of `^###\s` at `i`. */
  predicate HeadingAt(s: string, i: nat) {
    i + 3 < |s| && LineStart(s, i) && s[i] == s[i + 1] == s[i + 2] == '#' && IsWhite(s[i + 3])
  }

  function Tag(dogId: string): string {
    "`dog:" + dogId + "`"
  }

  /** A match of `^###\s+.*` followed by the dog's tag at `i`: white space up to `j`, then no line
      break up to the tag at `k`. */
  predicate DogHeadingAt(s: string, i: nat, dogId: string) {
    HeadingAt(s, i) && Tagged(s, i, Tag(dogId))
  }

  predicate Tagged(s: string, i: nat, tag: string) {
    exists j, k :: 0 <= j <= |s| && 0 <= k <= |s| && TagAt(s, i, j, k, tag)
  }

  predicate TagAt(s: string, i: nat, j: nat, k: nat, tag: string) {
    i + 4 <= j <= k <= |s| - |tag| && HeadingBridge(s, i, j, k) && s[k..k + |tag|] == tag
  }

  predicate HeadingBridge(s: string, i: nat, j: nat, k: nat)
    requires i + 4 <= j <= k <= |s|
  {
    && (forall m :: i + 3 <= m < j ==> IsWhite(s[m]))
    && (forall m :: j <= m < k ==> s[m] != '\n')
  }

  // ---- the two expressions as texts ----

  predicate AllWhite(s: string) {
    forall i :: 0 <= i < |s| ==> IsWhite(s[i])
  }

  /** A heading is a line that begins with three marks and white space. */
  lemma HeadingIsMatch(s: string, i: nat)
    requires i <= |s|
    ensures HeadingAt(s, i) <==>
            LineStart(s, i) && exists c: char, rest: string :: IsWhite(c) && s[i..] == "###" + [c] + rest
  {
    if HeadingAt(s, i) {
      assert s[i..] == "###" + [s[i + 3]] + s[i + 4..];
    }
    if c: char, rest: string :| IsWhite(c) && s[i..] == "###" + [c] + rest {
      assert s[i..][0] == s[i] && s[i..][1] == s[i + 1] && s[i..][2] == s[i + 2] && s[i..][3] == s[i + 3];
    }
  }

  /** What follows the marks of a dog's heading: white space, the rest of one line, and the tag in it. */
  ghost predicate TagFollows(t: string, dogId: string) {
    exists a: string, b: string, rest: string :: TagLine(t, dogId, a, b, rest)
  }

  predicate TagLine(t: string, dogId: string, a: string, b: string, rest: string) {
    t == "###" + a + b + "`dog:" + dogId + "`" + rest && a != "" && AllWhite(a) && '\n' !in b
  }

  /** A dog's heading is a line that begins with three marks and has the dog's tag behind them. */
  lemma DogHeadingIsMatch(s: string, i: nat, dogId: string)
    requires i <= |s|
    ensures DogHeadingAt(s, i, dogId) <==> LineStart(s, i) && TagFollows(s[i..], dogId)
  {
    if DogHeadingAt(s, i, dogId) {
      var j, k :| 0 <= j <= |s| && 0 <= k <= |s| && TagAt(s, i, j, k, Tag(dogId));
      MatchCut(s, i, j, k, dogId);
    }
    if LineStart(s, i) && TagFollows(s[i..], dogId) {
      var a, b, rest :| TagLine(s[i..], dogId, a, b, rest);
      MatchPlace(s, i, dogId, a, b, rest);
    }
  }

  lemma MatchCut(s: string, i: nat, j: nat, k: nat, dogId: string)
    requires HeadingAt(s, i) && TagAt(s, i, j, k, Tag(dogId))
    ensures TagFollows(s[i..], dogId)
  {
    var n := |Tag(dogId)|;
    var a, b, rest := s[i + 3..j], s[j..k], s[k + n..];
    assert s[i..i + 3] == "###";
    assert s[i..] == s[i..i + 3] + a + b + s[k..k + n] + rest;
    assert TagLine(s[i..], dogId, a, b, rest);
  }

  lemma MatchPlace(s: string, i: nat, dogId: string, a: string, b: string, rest: string)
    requires i <= |s| && LineStart(s, i) && TagLine(s[i..], dogId, a, b, rest)
    ensures DogHeadingAt(s, i, dogId)
  {
    var t := s[i..];
    var j, k := i + 3 + |a|, i + 3 + |a| + |b|;
    assert t == "###" + a + b + Tag(dogId) + rest;
    assert s[k..k + |Tag(dogId)|] == Tag(dogId);
    forall m | i + 3 <= m < j ensures s[m] == a[m - i - 3] { assert s[m] == t[m - i]; }
    forall m | j <= m < k ensures s[m] == b[m - j] { assert s[m] == t[m - i]; }
    assert s[i] == t[0] && s[i + 1] == t[1] && s[i + 2] == t[2];
    assert TagAt(s, i, j, k, Tag(dogId));
  }

  // ---- leftmost searches ----

  function FindDogHeading(s: string, i: nat, dogId: string): (r: Option<nat>)
    requires i <= |s|
    ensures r.Some? ==> i <= r.value < |s| && DogHeadingAt(s, r.value, dogId)
    ensures r.Some? ==> forall m :: i <= m < r.value ==> !DogHeadingAt(s, m, dogId)
    ensures r.None? ==> forall m :: i <= m < |s| ==> !DogHeadingAt(s, m, dogId)
    decreases |s| - i
  {
    if i == |s| then None
    else if DogHeadingAt(s, i, dogId) then Some(i)
    else FindDogHeading(s, i + 1, dogId)
  }

  function FindSectionStart(s: string, dogId: string): Option<nat> {
    FindDogHeading(s, 0, dogId)
  }

  // Position of the first line break from `i` on, or the end.
  function LineEnd(s: string, i: nat): (e: nat)
    requires i <= |s|
    ensures i <= e <= |s|
    ensures e < |s| ==> s[e] == '\n'
    decreases |s| - i
  {
    if i == |s| || s[i] == '\n' then i else LineEnd(s, i + 1)
  }

  lemma {:induction false} NoBreakBefore(s: string, i: nat, x: nat)
    requires i <= |s| && i <= x < LineEnd(s, i)
    ensures s[x] != '\n'
    decreases x - i
  {
    if i < x { NoBreakBefore(s, i + 1, x); }
  }

  lemma LineEndAtMost(s: string, i: nat, x: nat)
    requires i <= x < |s| && s[x] == '\n'
    ensures LineEnd(s, i) <= x
  {
    if x < LineEnd(s, i) { NoBreakBefore(s, i, x); }
  }

  function FindHeading(s: string, i: nat): (e: nat)
    requires i <= |s|
    ensures i <= e <= |s|
    ensures e < |s| ==> HeadingAt(s, e)
    ensures forall m :: i <= m < e ==> !HeadingAt(s, m)
    decreases |s| - i
  {
    if i == |s| || HeadingAt(s, i) then i else FindHeading(s, i + 1)
  }

  /** The next heading after the heading's own line, or the end of the text. */
  function FindSectionEnd(s: string, start: nat): (e: nat)
    requires start <= |s|
    ensures start <= e <= |s|
  {
    var lineEnd := LineEnd(s, start);
    if lineEnd == |s| then |s| else FindHeading(s, lineEnd + 1)
  }

  /** A section ends at the first heading behind its own, or with the text. */
  lemma SectionEndIs(s: string, start: nat)
    requires start < |s|
    ensures var e := FindSectionEnd(s, start);
            && start < e && (e < |s| ==> HeadingAt(s, e))
            && forall i :: start < i < e ==> !HeadingAt(s, i)
  {
    forall i | start < i < FindSectionEnd(s, start) ensures !HeadingAt(s, i) {
      if HeadingAt(s, i) { LineEndAtMost(s, start, i - 1); }
    }
  }

  predicate OccursAt(s: string, sub: string, i: nat) {
    i + |sub| <= |s| && s[i..i + |sub|] == sub
  }

  /** strings.Index. */
  function IndexOf(s: string, sub: string, i: nat): (r: Option<nat>)
    requires i <= |s|
    ensures r.Some? ==> i <= r.value && OccursAt(s, sub, r.value)
    decreases |s| - i
  {
    if OccursAt(s, sub, i) then Some(i)
    else if i == |s| then None
    else IndexOf(s, sub, i + 1)
  }

  /** It finds the first occurrence, and none only when there is none. */
  lemma {:induction false} IndexOfFirst(s: string, sub: string, i: nat, m: nat)
    requires i <= m && m <= |s| && OccursAt(s, sub, m)
    ensures IndexOf(s, sub, i).Some? && IndexOf(s, sub, i).value <= m
    decreases |s| - i
  {
    if i < m && !OccursAt(s, sub, i) {
      IndexOfFirst(s, sub, i + 1, m);
    }
  }

  // ---- drafting ----

  function ReplaceAt(s: string, at: nat, before: string, after: string): string
    requires at + |before| <= |s|
  {
    s[..at] + after + s[at + |before|..]
  }

  /** The text with the dog's section rewritten, when the section and the snapshot are found. */
  function Substitute(s: string, dogId: string, before: string, after: string): DraftResult {
    match FindSectionStart(s, dogId)
    case None => Refused(SectionNotFound)
    case Some(start) => SubstituteIn(s, start, FindSectionEnd(s, start), before, after)
  }

  function SubstituteIn(s: string, start: nat, end: nat, before: string, after: string): DraftResult
    requires start <= end <= |s|
  {
    match IndexOf(s[start..end], before, 0)
    case None => Refused(BeforeSnapshotNotFound)
    case Some(offset) => Draft(ReplaceAt(s, start + offset, before, after))
  }

  function PrepareDraft(p: Proposal, current: string): DraftResult {
    if !p.status.Approved? then Refused(NotApproved)
    else if ComputeFileHash(current) != p.baseHash then
      if p.baseHash.OtherText? && |p.baseHash.text| < 8 then Refused(SliceOutOfRange) else Refused(BaseHashMismatch)
    else Substitute(current, p.targetDogId, p.beforeSnapshot, p.afterDraft)
  }

  // Occurrences inside a window of the text.
  lemma WindowOccurrence(s: string, start: nat, end: nat, sub: string, m: nat)
    requires start <= end <= |s| && m + |sub| <= end - start
    ensures OccursAt(s[start..end], sub, m) <==> OccursAt(s, sub, start + m)
  {
    var a, b := s[start..end][m..m + |sub|], s[start + m..start + m + |sub|];
    assert |a| == |b| == |sub|;
    forall i | 0 <= i < |sub| ensures a[i] == b[i] {}
    assert a == b;
  }

  /** A draft exists exactly when the proposal is approved, the text is the one it was written
      against, the dog has a section and the snapshot occurs inside it. */
  lemma DraftIff(p: Proposal, s: string)
    ensures PrepareDraft(p, s).Draft? <==>
            && p.status.Approved? && p.baseHash == OfContent(s)
            && exists start :: 0 <= start < |s| && FindSectionStart(s, p.targetDogId) == Some(start) &&
                 exists at :: start <= at && at + |p.beforeSnapshot| <= FindSectionEnd(s, start) &&
                   OccursAt(s, p.beforeSnapshot, at)
  {
    var f := FindSectionStart(s, p.targetDogId);
    if f.Some? {
      WindowDraftIff(s, f.value, FindSectionEnd(s, f.value), p.beforeSnapshot, p.afterDraft);
    }
  }

  lemma WindowDraftIff(s: string, start: nat, end: nat, before: string, after: string)
    requires start <= end <= |s|
    ensures SubstituteIn(s, start, end, before, after).Draft? <==>
            exists at :: start <= at && at + |before| <= end && OccursAt(s, before, at)
  {
    var scope := s[start..end];
    var r := IndexOf(scope, before, 0);
    forall at: nat | start <= at && at + |before| <= end && OccursAt(s, before, at) ensures r.Some? {
      WindowOccurrence(s, start, end, before, at - start);
      IndexOfFirst(scope, before, 0, at - start);
    }
    if r.Some? {
      FoundInWindow(s, start, end, before, r.value);
    }
  }

  /** Why there is no draft, the guards in their order. */
  lemma RefusedWhy(p: Proposal, s: string, e: DraftError)
    ensures PrepareDraft(p, s) == Refused(e) ==>
              e == if !p.status.Approved? then NotApproved
                   else if p.baseHash.OtherText? && |p.baseHash.text| < 8 then SliceOutOfRange
                   else if p.baseHash != OfContent(s) then BaseHashMismatch
                   else if FindSectionStart(s, p.targetDogId) == None then SectionNotFound
                   else BeforeSnapshotNotFound
  {
    if p.status.Approved? && p.baseHash == OfContent(s) && FindSectionStart(s, p.targetDogId).Some? {
      var start := FindSectionStart(s, p.targetDogId).value;
      assert PrepareDraft(p, s) == SubstituteIn(s, start, FindSectionEnd(s, start), p.beforeSnapshot, p.afterDraft);
    }
  }

  /** The error message for a changed text cuts eight characters off both digests, so an approved
      proposal whose base hash is a shorter text makes the draft panic, whatever the dossier holds. */
  lemma SliceOutOfRangeIff(p: Proposal, s: string)
    ensures PrepareDraft(p, s) == Refused(SliceOutOfRange) <==>
            p.status.Approved? && p.baseHash.OtherText? && |p.baseHash.text| < 8
  {
  }

  /** `at` is where the snapshot first occurs inside the dog's section [start, end). */
  ghost predicate EditPoint(p: Proposal, s: string, start: nat, end: nat, at: nat) {
    && FindSectionStart(s, p.targetDogId) == Some(start)
    && start < |s| && end == FindSectionEnd(s, start)
    && start <= at && at + |p.beforeSnapshot| <= end <= |s|
    && OccursAt(s, p.beforeSnapshot, at)
    && forall m :: start <= m < at ==> !OccursAt(s, p.beforeSnapshot, m)
  }

  lemma NotEarlier(s: string, start: nat, end: nat, sub: string, off: nat, x: nat)
    requires start <= end <= |s| && IndexOf(s[start..end], sub, 0) == Some(off) && x < off
    ensures !OccursAt(s, sub, start + x)
  {
    var w := s[start..end];
    assert OccursAt(w, sub, off);
    if OccursAt(w, sub, x) {
      IndexOfFirst(w, sub, 0, x);
    }
    WindowOccurrence(s, start, end, sub, x);
  }

  lemma FoundInWindow(s: string, start: nat, end: nat, sub: string, off: nat)
    requires start <= end <= |s| && IndexOf(s[start..end], sub, 0) == Some(off)
    ensures start + off + |sub| <= end && OccursAt(s, sub, start + off)
  {
    assert OccursAt(s[start..end], sub, off);
    WindowOccurrence(s, start, end, sub, off);
  }

  lemma FirstInWindow(s: string, start: nat, end: nat, sub: string, off: nat)
    requires start <= end <= |s| && IndexOf(s[start..end], sub, 0) == Some(off)
    ensures forall m :: start <= m < start + off ==> !OccursAt(s, sub, m)
  {
    forall m: nat | start <= m < start + off ensures !OccursAt(s, sub, m) {
      NotEarlier(s, start, end, sub, off, m - start);
    }
  }

  // The rewritten place inside a window.
  lemma WindowEditPoint(s: string, start: nat, end: nat, before: string, after: string) returns (at: nat)
    requires start <= end <= |s| && SubstituteIn(s, start, end, before, after).Draft?
    ensures start <= at && at + |before| <= end && OccursAt(s, before, at)
    ensures forall m :: start <= m < at ==> !OccursAt(s, before, m)
    ensures SubstituteIn(s, start, end, before, after) == Draft(ReplaceAt(s, at, before, after))
  {
    var off := IndexOf(s[start..end], before, 0).value;
    FoundInWindow(s, start, end, before, off);
    FirstInWindow(s, start, end, before, off);
    at := start + off;
  }

  lemma DraftEditPoint(p: Proposal, s: string) returns (start: nat, end: nat, at: nat)
    requires PrepareDraft(p, s).Draft?
    ensures EditPoint(p, s, start, end, at)
    ensures PrepareDraft(p, s).modified == ReplaceAt(s, at, p.beforeSnapshot, p.afterDraft)
  {
    start := FindSectionStart(s, p.targetDogId).value;
    end := FindSectionEnd(s, start);
    at := WindowEditPoint(s, start, end, p.beforeSnapshot, p.afterDraft);
  }

  lemma AppendDrop(a: string, b: string)
    ensures (a + b)[|a|..] == b
  {
  }

  lemma ReplaceInside(s: string, start: nat, at: nat, before: string, after: string, end: nat)
    requires start <= at && at + |before| <= end <= |s|
    ensures var m := ReplaceAt(s, at, before, after);
            && start <= |m| && |s| - end <= |m| && m[..start] == s[..start] && m[|m| - (|s| - end)..] == s[end..]
            && m[start..|m| - (|s| - end)] == s[start..at] + after + s[at + |before|..end]
  {
    var m, cut, tail := ReplaceAt(s, at, before, after), at + |before|, at + |after|;
    assert m[..start] == s[..start];
    AppendDrop(s[..at] + after, s[cut..]);
    assert m[tail..] == s[cut..];
    assert m[tail..][end - cut..] == m[|m| - (|s| - end)..];
    assert s[cut..][end - cut..] == s[end..];
    assert m[start..tail + (end - cut)] == s[start..at] + after + s[cut..end];
  }

  /** A draft replaces the first occurrence of the snapshot in the dog's section and nothing else:
      every character before the section and every character from its end on stays. */
  lemma DraftStaysInSection(p: Proposal, s: string) returns (start: nat, end: nat, at: nat)
    requires PrepareDraft(p, s).Draft?
    ensures EditPoint(p, s, start, end, at)
    ensures var m := PrepareDraft(p, s).modified;
            && start <= |m| && |s| - end <= |m| && m[..start] == s[..start] && m[|m| - (|s| - end)..] == s[end..]
            && m[start..|m| - (|s| - end)] == s[start..at] + p.afterDraft + s[at + |p.beforeSnapshot|..end]
  {
    start, end, at := DraftEditPoint(p, s);
    ReplaceInside(s, start, at, p.beforeSnapshot, p.afterDraft, end);
  }

  /** Sections of different headings do not overlap. */
  lemma SectionsDisjoint(s: string, i: nat, j: nat)
    requires i < j && HeadingAt(s, i) && HeadingAt(s, j)
    ensures FindSectionEnd(s, i) <= j
  {
    assert s[j - 1] == '\n';
    LineEndAtMost(s, i, j - 1);
  }
}
