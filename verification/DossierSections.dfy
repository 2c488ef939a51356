/** What rewriting one dog's section does to the others' (internal/dossier/applier.go:107-136): when the
    code still finds every other section where it was, when it does not, and two edits that break it. */
module DossierSections {
  import opened Basics
  import opened DossierApplier

  datatype Span = Span(from: int, to: int)

  /** Where the code finds a dog's section. */
  function SectionOf(s: string, dogId: string): (r: Option<Span>)
    ensures r.Some? ==> 0 <= r.value.from <= r.value.to <= |s|
  {
    match FindSectionStart(s, dogId)
    case None => None
    case Some(h) => Some(Span(h, FindSectionEnd(s, h)))
  }

  function SectionText(s: string, dogId: string): Option<string> {
    TextAt(s, SectionOf(s, dogId))
  }

  function TextAt(s: string, span: Option<Span>): Option<string> {
    if span.Some? && 0 <= span.value.from <= span.value.to <= |s| then Some(s[span.value.from..span.value.to]) else None
  }

  /** `m` is `s` with the section that starts at `start` and ends at `end` rewritten, so that it
      ends at `newEnd`. */
  ghost predicate Rewritten(s: string, m: string, start: nat, end: nat, newEnd: nat) {
    && HeadingAt(s, start) && end == FindSectionEnd(s, start)
    && start <= newEnd <= |m| && |m| - newEnd == |s| - end
    && m[..start] == s[..start] && m[newEnd..] == s[end..]
  }

  lemma SlicePrefix(s: string, m: string, n: nat, i: nat, j: nat)
    requires i <= j <= n && n <= |s| && n <= |m| && m[..n] == s[..n]
    ensures m[i..j] == s[i..j]
  {
    assert m[..n][i..j] == m[i..j];
    assert s[..n][i..j] == s[i..j];
  }

  lemma SliceSuffix(s: string, m: string, a: nat, b: nat, i: nat, j: nat)
    requires a <= i <= j <= |s| && b <= |m| && m[b..] == s[a..]
    ensures j - a + b <= |m| && m[i - a + b..j - a + b] == s[i..j]
  {
    assert |m[b..]| == |s[a..]|;
    assert m[b..][i - a..j - a] == m[i - a + b..j - a + b];
    assert s[a..][i - a..j - a] == s[i..j];
  }

  lemma BeforeWindow(s: string, m: string, start: nat, end: nat, newEnd: nat, i: nat)
    requires Rewritten(s, m, start, end, newEnd) && i < start
    ensures m[i] == s[i]
  {
    assert m[i] == m[..start][i] == s[..start][i];
  }

  lemma BehindWindow(s: string, m: string, start: nat, end: nat, newEnd: nat, i: nat)
    requires Rewritten(s, m, start, end, newEnd) && end <= i < |s|
    ensures m[i - end + newEnd] == s[i]
  {
    assert m[i - end + newEnd] == m[newEnd..][i - end] == s[end..][i - end];
  }

  // Nothing of a heading before the window reaches into it.
  lemma HeadingBefore(s: string, m: string, start: nat, end: nat, newEnd: nat, i: nat)
    requires Rewritten(s, m, start, end, newEnd) && i < start
    ensures HeadingAt(m, i) <==> HeadingAt(s, i)
  {
    assert s[start - 1] == '\n';
    BeforeWindow(s, m, start, end, newEnd, start - 1);
    if i + 4 <= start {
      SlicePrefix(s, m, start, i, i + 3);
      BeforeWindow(s, m, start, end, newEnd, i + 3);
      if i > 0 { BeforeWindow(s, m, start, end, newEnd, i - 1); }
    } else {
      assert s[start - 1] == m[start - 1] == '\n';
    }
  }

  // A heading behind the window stays one, unless it began right there and lost its line start.
  lemma HeadingBehind(s: string, m: string, start: nat, end: nat, newEnd: nat, i: nat)
    requires Rewritten(s, m, start, end, newEnd) && end <= i <= |s|
    ensures HeadingAt(m, i - end + newEnd) <==> HeadingAt(s, i) && (i == end ==> LineStart(m, newEnd))
  {
    var d := newEnd - end;
    if i + 3 < |s| {
      SliceSuffix(s, m, end, newEnd, i, i + 3);
      BehindWindow(s, m, start, end, newEnd, i + 3);
      if i > end { BehindWindow(s, m, start, end, newEnd, i - 1); }
    }
  }

  lemma DogHeadingBehind(s: string, m: string, start: nat, end: nat, newEnd: nat, i: nat, dogId: string)
    requires Rewritten(s, m, start, end, newEnd) && end <= i <= |s|
    ensures DogHeadingAt(m, i - end + newEnd, dogId) <==>
            DogHeadingAt(s, i, dogId) && (i == end ==> LineStart(m, newEnd))
  {
    HeadingBehind(s, m, start, end, newEnd, i);
    TaggedMoves(s, m, i, i - end + newEnd, Tag(dogId), end, newEnd);
    TaggedMoves(m, s, i - end + newEnd, i, Tag(dogId), newEnd, end);
  }

  lemma TaggedMoves(s: string, m: string, i: nat, i': nat, tag: string, a: nat, b: nat)
    requires a <= |s| && b <= |m| && s[a..] == m[b..] && a <= i && i' - b == i - a
    ensures Tagged(s, i, tag) ==> Tagged(m, i', tag)
  {
    if Tagged(s, i, tag) {
      var j: nat, k: nat :| j <= |s| && k <= |s| && TagAt(s, i, j, k, tag);
      TagMoves(s, m, i, i', j, k, tag, a, b);
    }
  }

  // A heading's tag read in two texts that agree from `a` and `b` on.
  lemma TagMoves(s: string, m: string, i: nat, i': nat, j: nat, k: nat, tag: string, a: nat, b: nat)
    requires a <= |s| && b <= |m| && s[a..] == m[b..] && a <= i && i' - b == i - a
    requires TagAt(s, i, j, k, tag)
    ensures TagAt(m, i', j + i' - i, k + i' - i, tag)
  {
    var d, n := i' - i, |tag|;
    assert |s[a..]| == |m[b..]|;
    forall x | a <= x < |s| ensures m[x + d] == s[x] {
      assert s[a..][x - a] == m[b..][x - a];
    }
    assert forall x :: i' + 3 <= x < k + d ==> m[x] == s[x - d];
    assert m[k + d..k + d + n] == s[k..k + n];
  }

  lemma FindHeadingBehind(s: string, m: string, start: nat, end: nat, newEnd: nat, i: nat)
    requires Rewritten(s, m, start, end, newEnd) && end < i <= |s|
    ensures FindHeading(m, i - end + newEnd) == FindHeading(s, i) - end + newEnd
  {
    FoundNoLater(s, m, start, end, newEnd, i);
    FoundNoSooner(s, m, start, end, newEnd, i);
  }

  lemma FoundNoSooner(s: string, m: string, start: nat, end: nat, newEnd: nat, i: nat)
    requires Rewritten(s, m, start, end, newEnd) && end < i <= |s|
    ensures FindHeading(m, i - end + newEnd) >= FindHeading(s, i) - end + newEnd
  {
    var e := FindHeading(m, i - end + newEnd);
    var x := e - newEnd + end;
    if e < |m| {
      assert HeadingAt(m, e) && x > end;
      HeadingBehind(s, m, start, end, newEnd, x);
      FindHeadingAtMost(s, i, x);
    }
  }

  lemma FoundNoLater(s: string, m: string, start: nat, end: nat, newEnd: nat, i: nat)
    requires Rewritten(s, m, start, end, newEnd) && end < i <= |s|
    ensures FindHeading(m, i - end + newEnd) <= FindHeading(s, i) - end + newEnd
  {
    var e := FindHeading(s, i);
    if e < |s| {
      HeadingBehind(s, m, start, end, newEnd, e);
      FindHeadingAtMost(m, i - end + newEnd, e - end + newEnd);
    }
  }

  lemma FindHeadingAtMost(s: string, i: nat, x: nat)
    requires i <= x && HeadingAt(s, x)
    ensures FindHeading(s, i) <= x
  {
  }

  lemma LineEndBehind(s: string, m: string, start: nat, end: nat, newEnd: nat, i: nat)
    requires Rewritten(s, m, start, end, newEnd) && end <= i <= |s|
    ensures LineEnd(m, i - end + newEnd) == LineEnd(s, i) - end + newEnd
  {
    var d := newEnd - end;
    var e, e' := LineEnd(s, i), LineEnd(m, i + d);
    if e < |s| {
      BehindWindow(s, m, start, end, newEnd, e);
      LineEndAtMost(m, i + d, e + d);
    }
    if e' < |m| {
      BehindWindow(s, m, start, end, newEnd, e' - d);
      LineEndAtMost(s, i, e' - d);
    }
  }

  lemma SectionEndBehind(s: string, m: string, start: nat, end: nat, newEnd: nat, h: nat)
    requires Rewritten(s, m, start, end, newEnd) && end <= h <= |s|
    ensures FindSectionEnd(m, h - end + newEnd) == FindSectionEnd(s, h) - end + newEnd
  {
    LineEndBehind(s, m, start, end, newEnd, h);
    var e := LineEnd(s, h);
    if e < |s| { FindHeadingBehind(s, m, start, end, newEnd, e + 1); }
  }

  // An earlier section ends where it did, if the heading it ran up to is still there.
  lemma SectionEndBefore(s: string, m: string, start: nat, end: nat, newEnd: nat, h: nat)
    requires Rewritten(s, m, start, end, newEnd) && h < start && HeadingAt(s, h)
    ensures FindSectionEnd(s, h) <= start
    ensures FindSectionEnd(m, h) == FindSectionEnd(s, h) <==>
            (FindSectionEnd(s, h) == start ==> start == |m| || HeadingAt(m, start))
  {
    SectionsDisjoint(s, h, start);
    var e := LineEnd(s, h);
    LineEndBefore(s, m, start, end, newEnd, h);
    var x, y := FindHeading(s, e + 1), FindHeading(m, e + 1);
    if x < start { HeadingBefore(s, m, start, end, newEnd, x); }
    if y < start { HeadingBefore(s, m, start, end, newEnd, y); }
  }

  lemma LineEndBefore(s: string, m: string, start: nat, end: nat, newEnd: nat, h: nat)
    requires Rewritten(s, m, start, end, newEnd) && h < start
    ensures LineEnd(m, h) == LineEnd(s, h) < start
  {
    assert s[start - 1] == '\n';
    BeforeWindow(s, m, start, end, newEnd, start - 1);
    LineEndAtMost(s, h, start - 1);
    LineEndAtMost(m, h, start - 1);
    BeforeWindow(s, m, start, end, newEnd, LineEnd(s, h));
    BeforeWindow(s, m, start, end, newEnd, LineEnd(m, h));
    LineEndAtMost(m, h, LineEnd(s, h));
    LineEndAtMost(s, h, LineEnd(m, h));
  }

  /** The dog's section where it was: before the window unmoved, behind it moved with the text. */
  function Moved(span: Option<Span>, start: nat, end: nat, newEnd: nat): Option<Span> {
    match span
    case None => None
    case Some(x) => if x.from < start then span else Some(Span(x.from - end + newEnd, x.to - end + newEnd))
  }

  /** The code finds the dog's section where it was. */
  predicate InPlace(s: string, m: string, start: nat, end: nat, newEnd: nat, dogId: string) {
    SectionOf(m, dogId) == Moved(SectionOf(s, dogId), start, end, newEnd)
  }

  ghost predicate NoHeadingBefore(s: string, n: nat, dogId: string) {
    forall i :: 0 <= i < n ==> !DogHeadingAt(s, i, dogId)
  }

  // The same condition read off the new text; `Spared` below says it over the old one.
  ghost predicate Undisturbed(s: string, m: string, start: nat, end: nat, newEnd: nat, dogId: string)
    requires newEnd <= |m|
  {
    match FindSectionStart(s, dogId)
    case None => NoHeadingBefore(m, newEnd, dogId)
    case Some(h) =>
      if h < start then
        && NoHeadingBefore(m, h, dogId)
        && DogHeadingAt(m, h, dogId)
        && (FindSectionEnd(s, h) == start ==> start == |m| || HeadingAt(m, start))
      else
        && NoHeadingBefore(m, newEnd, dogId)
        && (h == end ==> LineStart(m, newEnd))
  }

  lemma ElsewhereIsOutside(s: string, start: nat, dogId: string)
    requires HeadingAt(s, start) && FindSectionStart(s, dogId) != Some(start)
    ensures var h := FindSectionStart(s, dogId);
            h.Some? ==>
              && HeadingAt(s, h.value) && h.value < |s|
              && (h.value < start || FindSectionEnd(s, start) <= h.value <= FindSectionEnd(s, h.value))
  {
    var h := FindSectionStart(s, dogId);
    if h.Some? && h.value > start {
      SectionsDisjoint(s, start, h.value);
    }
  }

  // Behind the window the draft has no heading of the dog that the text did not have.
  lemma NoneBehind(s: string, m: string, start: nat, end: nat, newEnd: nat, dogId: string, h: nat)
    requires Rewritten(s, m, start, end, newEnd) && end <= h <= |s|
    requires forall i :: end <= i < h ==> !DogHeadingAt(s, i, dogId)
    ensures forall i :: newEnd <= i < h - end + newEnd ==> !DogHeadingAt(m, i, dogId)
  {
    forall i | newEnd <= i < h - end + newEnd ensures !DogHeadingAt(m, i, dogId) {
      DogHeadingBehind(s, m, start, end, newEnd, i - newEnd + end, dogId);
    }
  }

  lemma StartIs(s: string, dogId: string, h: nat)
    ensures FindSectionStart(s, dogId) == Some(h) <==>
            h < |s| && DogHeadingAt(s, h, dogId) && NoHeadingBefore(s, h, dogId)
  {
  }

  lemma AbsentKeptIff(s: string, m: string, start: nat, end: nat, newEnd: nat, dogId: string)
    requires Rewritten(s, m, start, end, newEnd)
    requires FindSectionStart(s, dogId) == None
    ensures SectionOf(m, dogId) == Moved(SectionOf(s, dogId), start, end, newEnd) <==>
            Undisturbed(s, m, start, end, newEnd, dogId)
  {
    NoneBehind(s, m, start, end, newEnd, dogId, |s|);
  }

  lemma BeforeKeptIff(s: string, m: string, start: nat, end: nat, newEnd: nat, dogId: string, h: nat)
    requires Rewritten(s, m, start, end, newEnd)
    requires FindSectionStart(s, dogId) == Some(h) && h < start
    ensures SectionOf(m, dogId) == Moved(SectionOf(s, dogId), start, end, newEnd) <==>
            Undisturbed(s, m, start, end, newEnd, dogId)
  {
    SectionEndBefore(s, m, start, end, newEnd, h);
    StartIs(m, dogId, h);
  }

  lemma BehindKeptIff(s: string, m: string, start: nat, end: nat, newEnd: nat, dogId: string, h: nat)
    requires Rewritten(s, m, start, end, newEnd)
    requires FindSectionStart(s, dogId) == Some(h) && end <= h < |s|
    ensures SectionOf(m, dogId) == Moved(SectionOf(s, dogId), start, end, newEnd) <==>
            Undisturbed(s, m, start, end, newEnd, dogId)
  {
    StartBehind(s, m, start, end, newEnd, dogId, h);
    SectionEndBehind(s, m, start, end, newEnd, h);
    SpanBehind(s, m, start, end, newEnd, dogId, h, FindSectionEnd(s, h));
  }

  lemma SpanBehind(s: string, m: string, start: nat, end: nat, newEnd: nat, dogId: string, h: nat, e: nat)
    requires FindSectionStart(s, dogId) == Some(h) && start <= end <= h <= |s| && FindSectionEnd(s, h) == e
    requires h - end + newEnd <= |m| && FindSectionEnd(m, h - end + newEnd) == e - end + newEnd
    ensures SectionOf(m, dogId) == Moved(SectionOf(s, dogId), start, end, newEnd) <==>
            FindSectionStart(m, dogId) == Some(h - end + newEnd)
  {
    SectionIs(s, dogId, h, e);
    SectionIs(m, dogId, h - end + newEnd, e - end + newEnd);
    SpanMoves(s, m, start, end, newEnd, dogId, h, e);
  }

  lemma SpanMoves(s: string, m: string, start: nat, end: nat, newEnd: nat, dogId: string, h: int, e: int)
    requires start <= end <= h && SectionOf(s, dogId) == Some(Span(h, e))
    ensures SectionOf(m, dogId) == Moved(SectionOf(s, dogId), start, end, newEnd) <==>
            SectionOf(m, dogId) == Some(Span(h - end + newEnd, e - end + newEnd))
  {
  }

  lemma SectionIs(s: string, dogId: string, h: nat, e: nat)
    requires h <= |s| && FindSectionEnd(s, h) == e
    ensures SectionOf(s, dogId) == Some(Span(h, e)) <==> FindSectionStart(s, dogId) == Some(h)
  {
  }

  lemma StartBehind(s: string, m: string, start: nat, end: nat, newEnd: nat, dogId: string, h: nat)
    requires Rewritten(s, m, start, end, newEnd)
    requires FindSectionStart(s, dogId) == Some(h) && end <= h < |s|
    ensures FindSectionStart(m, dogId) == Some(h - end + newEnd) <==>
            && NoHeadingBefore(m, newEnd, dogId)
            && (h == end ==> LineStart(m, newEnd))
  {
    StartIs(s, dogId, h);
    StartIs(m, dogId, h - end + newEnd);
    NoneBehind(s, m, start, end, newEnd, dogId, h);
    DogHeadingBehind(s, m, start, end, newEnd, h, dogId);
  }

  lemma UndisturbedIff(s: string, m: string, start: nat, end: nat, newEnd: nat, dogId: string)
    ensures Rewritten(s, m, start, end, newEnd) && FindSectionStart(s, dogId) != Some(start) ==>
              (InPlace(s, m, start, end, newEnd, dogId) <==> Undisturbed(s, m, start, end, newEnd, dogId))
  {
    if Rewritten(s, m, start, end, newEnd) && FindSectionStart(s, dogId) != Some(start) {
      RewrittenKeepsIff(s, m, start, end, newEnd, dogId);
    }
  }

  lemma RewrittenKeepsIff(s: string, m: string, start: nat, end: nat, newEnd: nat, dogId: string)
    requires Rewritten(s, m, start, end, newEnd)
    requires FindSectionStart(s, dogId) != Some(start)
    ensures InPlace(s, m, start, end, newEnd, dogId) <==> Undisturbed(s, m, start, end, newEnd, dogId)
  {
    ElsewhereIsOutside(s, start, dogId);
    match FindSectionStart(s, dogId) {
      case None => AbsentKeptIff(s, m, start, end, newEnd, dogId);
      case Some(h) =>
        if h < start {
          BeforeKeptIff(s, m, start, end, newEnd, dogId, h);
        } else {
          BehindKeptIff(s, m, start, end, newEnd, dogId, h);
        }
    }
  }

  lemma SpanOutside(s: string, start: nat, dogId: string)
    requires HeadingAt(s, start) && FindSectionStart(s, dogId) != Some(start)
    ensures var span := SectionOf(s, dogId);
            span.Some? ==>
              if span.value.from < start then span.value.to <= start else FindSectionEnd(s, start) <= span.value.from
  {
    ElsewhereIsOutside(s, start, dogId);
    var h := FindSectionStart(s, dogId);
    if h.Some? && h.value < start {
      SectionsDisjoint(s, h.value, start);
    }
  }

  /** A kept section is kept to the letter. */
  lemma KeptText(s: string, m: string, start: nat, end: nat, newEnd: nat, dogId: string)
    requires Rewritten(s, m, start, end, newEnd) && FindSectionStart(s, dogId) != Some(start)
    requires InPlace(s, m, start, end, newEnd, dogId)
    ensures SectionText(m, dogId) == SectionText(s, dogId)
  {
    SpanOutside(s, start, dogId);
    SpanText(s, m, start, end, newEnd, SectionOf(s, dogId));
  }

  lemma SpanText(s: string, m: string, start: nat, end: nat, newEnd: nat, span: Option<Span>)
    requires start <= end <= |s| && start <= newEnd <= |m| && m[..start] == s[..start] && m[newEnd..] == s[end..]
    requires span.Some? ==> 0 <= span.value.from <= span.value.to <= |s|
    requires span.Some? ==> if span.value.from < start then span.value.to <= start else end <= span.value.from
    ensures TextAt(m, Moved(span, start, end, newEnd)) == TextAt(s, span)
  {
    if span.Some? {
      if span.value.from < start {
        SlicePrefix(s, m, start, span.value.from, span.value.to);
      } else {
        SliceSuffix(s, m, end, newEnd, span.value.from, span.value.to);
      }
    }
  }

  // ---- the condition over the old text and the rewritten section ----

  predicate EndsAtLineStart(w: string) {
    w == "" || w[|w| - 1] == '\n'
  }

  /** A heading in front of `start` with nothing but white space behind its mark. */
  ghost predicate RunsInto(s: string, start: nat) {
    exists i: nat :: RunsIntoFrom(s, start, i)
  }

  predicate RunsIntoFrom(s: string, start: nat, i: nat) {
    i + 4 <= start <= |s| && HeadingAt(s, i) && forall x :: i + 3 <= x < start ==> IsWhite(s[x])
  }

  /** The first line that is not blank holds the tag. */
  ghost predicate TagAhead(t: string, tag: string) {
    exists j: nat, k: nat :: TagAheadAt(t, tag, j, k)
  }

  predicate TagAheadAt(t: string, tag: string, j: nat, k: nat) {
    && j <= k && k + |tag| <= |t|
    && (forall x :: 0 <= x < j ==> IsWhite(t[x]))
    && (forall x :: j <= x < k ==> t[x] != '\n')
    && t[k..k + |tag|] == tag
  }

  /** What rewriting the section [start, end) as `w` must observe for the sake of one dog. If the
      dog's section lies before and runs up to `start`, a heading must stand there still. If it lies
      behind, or the dog has none: no heading in `w` carries the dog's tag, none in front of it comes
      to carry it by running into `w`, and when the dog's heading follows right behind, `w` ends where
      a line begins. */
  ghost predicate Spared(s: string, start: nat, end: nat, w: string, dogId: string)
    requires end <= |s|
  {
    var t := w + s[end..];
    var h := FindSectionStart(s, dogId);
    if h.Some? && h.value < start then
      FindSectionEnd(s, h.value) == start ==> t == "" || HeadingAt(t, 0)
    else
      && (forall i :: 0 <= i < |w| ==> !DogHeadingAt(t, i, dogId))
      && !(RunsInto(s, start) && TagAhead(t, Tag(dogId)))
      && (h == Some(end) ==> EndsAtLineStart(w))
  }

  /** The tag of an id that holds a line break may itself reach across the edge of the section: such
      an id is judged on the new text. */
  ghost predicate KeepsPlace(s: string, m: string, start: nat, end: nat, w: string, dogId: string)
    requires start <= end <= |s| && start + |w| <= |m|
  {
    if '\n' in dogId then Undisturbed(s, m, start, end, start + |w|, dogId)
    else Spared(s, start, end, w, dogId)
  }

  /** `m` is `s` with [start, end), the section of `owner`, rewritten as `w`. */
  ghost predicate SectionBecomes(s: string, owner: string, start: nat, end: nat, w: string, m: string) {
    FindSectionStart(s, owner) == Some(start) && Rewritten(s, m, start, end, start + |w|) && m[start..start + |w|] == w
  }

  lemma BecomesRewritten(s: string, owner: string, start: nat, end: nat, w: string, m: string)
    requires SectionBecomes(s, owner, start, end, w, m)
    ensures start < end
    ensures m[start..] == w + s[end..] && m == s[..start] + (w + s[end..])
  {
    assert m[start..] == m[start..][..|w|] + m[start..][|w|..];
    assert m[start..][|w|..] == m[start + |w|..];
    assert m == m[..start] + m[start..];
  }

  // From the section on, the new text has the headings of the rewritten section and what follows it.
  lemma HeadingsFrom(s: string, owner: string, start: nat, end: nat, w: string, m: string, i: nat, dogId: string)
    requires SectionBecomes(s, owner, start, end, w, m)
    ensures HeadingAt(m, start + i) <==> HeadingAt(w + s[end..], i)
    ensures DogHeadingAt(m, start + i, dogId) <==> DogHeadingAt(w + s[end..], i, dogId)
  {
    BecomesRewritten(s, owner, start, end, w, m);
    BreakBefore(s, owner, start, end, w, m);
    HeadingsOfSuffix(m, start, w + s[end..], i, dogId);
  }

  lemma BreakBefore(s: string, owner: string, start: nat, end: nat, w: string, m: string)
    requires SectionBecomes(s, owner, start, end, w, m)
    ensures LineStart(m, start)
  {
    assert start > 0 ==> m[start - 1] == m[..start][start - 1] == s[start - 1] == '\n';
  }

  lemma HeadingsOfSuffix(m: string, start: nat, t: string, i: nat, dogId: string)
    requires start <= |m| && t == m[start..] && LineStart(m, start)
    ensures HeadingAt(m, start + i) <==> HeadingAt(t, i)
    ensures DogHeadingAt(m, start + i, dogId) <==> DogHeadingAt(t, i, dogId)
  {
    assert t[0..] == t;
    TaggedMoves(t, m, i, start + i, Tag(dogId), 0, start);
    TaggedMoves(m, t, start + i, i, Tag(dogId), start, 0);
  }

  /** A match that begins before the section ends before it, or the heading is blank up to it. */
  ghost predicate EndsBefore(s: string, start: nat, i: nat, tag: string) {
    exists j: nat, k: nat :: TagAt(s, i, j, k, tag) && k + |tag| <= start
  }

  lemma MatchFromBefore(s: string, start: nat, t: string, m: string, i: nat, tag: string)
    requires i < start <= |s| && s[start - 1] == '\n' && m == s[..start] + t && HeadingAt(s, i) && '\n' !in tag
    requires Tagged(m, i, tag)
    ensures EndsBefore(s, start, i, tag) || (RunsIntoFrom(s, start, i) && TagAhead(t, tag))
  {
    var j: nat, k: nat :| j <= |m| && k <= |m| && TagAt(m, i, j, k, tag);
    assert m[..start] == s[..start];
    assert m[start - 1] == '\n';
    if k + |tag| <= start {
      SameTag(m, s, i, j, k, tag, start);
    } else {
      CrossesBlank(m, start, i, j, k, tag);
      assert m[k..k + |tag|] == t[k - start..k - start + |tag|];
      assert TagAheadAt(t, tag, j - start, k - start);
      BlankBefore(s, start, m, i, j);
    }
  }

  // A match across a line break takes it for white space behind the mark.
  lemma CrossesBlank(m: string, start: nat, i: nat, j: nat, k: nat, tag: string)
    requires 0 < start <= |m| && m[start - 1] == '\n' && TagAt(m, i, j, k, tag) && '\n' !in tag
    requires i + 4 <= start < k + |tag|
    ensures start <= j
  {
    forall x | j <= x < k + |tag| ensures m[x] != '\n' {
      if x >= k { assert m[x] == m[k..k + |tag|][x - k] == tag[x - k]; }
    }
  }

  lemma BlankBefore(s: string, start: nat, m: string, i: nat, j: nat)
    requires start <= |s| && start <= |m| && m[..start] == s[..start] && HeadingAt(s, i) && i + 4 <= start <= j <= |m|
    requires forall x :: i + 3 <= x < j ==> IsWhite(m[x])
    ensures RunsIntoFrom(s, start, i)
  {
    forall x | i + 3 <= x < start ensures IsWhite(s[x]) { assert s[x] == s[..start][x] == m[..start][x]; }
  }

  lemma MatchAcross(s: string, start: nat, t: string, m: string, i: nat, tag: string)
    requires i < start <= |s| && m == s[..start] + t
    requires EndsBefore(s, start, i, tag) || (RunsIntoFrom(s, start, i) && TagAhead(t, tag))
    ensures Tagged(m, i, tag)
  {
    assert m[..start] == s[..start];
    if EndsBefore(s, start, i, tag) {
      var j: nat, k: nat :| TagAt(s, i, j, k, tag) && k + |tag| <= start;
      SameTag(s, m, i, j, k, tag, start);
    } else {
      var j: nat, k: nat :| TagAheadAt(t, tag, j, k);
      assert m[start + k..start + k + |tag|] == t[k..k + |tag|];
      assert TagAt(m, i, start + j, start + k, tag);
    }
  }

  lemma EndsBeforeTags(s: string, start: nat, i: nat, tag: string)
    ensures EndsBefore(s, start, i, tag) ==> Tagged(s, i, tag)
  {
  }

  // A heading blank up to the section carries the owner's tag as well, if the line there holds a tag.
  lemma OwnTagCarries(s: string, owner: string, start: nat, i: nat, tag: string)
    requires DogHeadingAt(s, start, owner) && RunsIntoFrom(s, start, i)
    requires tag != "" && tag[0] == '`' && TagAhead(s[start..], tag)
    ensures DogHeadingAt(s, i, owner)
  {
    var t := s[start..];
    var j: nat, k: nat :| TagAheadAt(t, tag, j, k);
    assert j == 0;
    assert t[k] == t[k..k + |tag|][0] == '`';
    var j0: nat, k0: nat :| j0 <= |s| && k0 <= |s| && TagAt(s, start, j0, k0, Tag(owner));
    NoBreakUpTo(s, start, j0, k0, Tag(owner), start + k);
    assert TagAt(s, i, start, k0, Tag(owner));
  }

  lemma OwnHeadingFirst(s: string, owner: string, start: nat, i: nat, dogId: string)
    requires FindSectionStart(s, owner) == Some(start) && RunsIntoFrom(s, start, i)
    ensures !TagAhead(s[start..], Tag(dogId))
  {
    StartIs(s, owner, start);
    if TagAhead(s[start..], Tag(dogId)) {
      OwnTagCarries(s, owner, start, i, Tag(dogId));
    }
  }

  lemma NoBreakUpTo(s: string, i: nat, j: nat, k: nat, tag: string, x: nat)
    requires TagAt(s, i, j, k, tag) && i + 3 < x < |s| && s[x] == '`'
    requires forall y :: i <= y < x ==> s[y] != '\n'
    ensures forall y :: i <= y < k ==> s[y] != '\n'
  {
    assert j <= x;
  }

  // The heading of an earlier dog is found where it was.
  lemma EarlierHeading(s: string, owner: string, start: nat, end: nat, w: string, m: string, dogId: string, h: nat)
    requires SectionBecomes(s, owner, start, end, w, m) && '\n' !in dogId
    requires FindSectionStart(s, dogId) == Some(h) && h < start
    ensures NoHeadingBefore(m, h, dogId) && DogHeadingAt(m, h, dogId)
  {
    var newEnd := start + |w|;
    BecomesRewritten(s, owner, start, end, w, m);
    StartIs(s, dogId, h);
    assert '\n' !in Tag(dogId);
    assert s == s[..start] + s[start..];
    MatchFromBefore(s, start, s[start..], s, h, Tag(dogId));
    if RunsIntoFrom(s, start, h) { OwnHeadingFirst(s, owner, start, h, dogId); }
    MatchAcross(s, start, w + s[end..], m, h, Tag(dogId));
    HeadingBefore(s, m, start, end, newEnd, h);
    forall i: nat | i < h ensures !DogHeadingAt(m, i, dogId) {
      NoneBeforeEarlier(s, owner, start, end, w, m, dogId, h, i);
    }
  }

  lemma NoneBeforeEarlier(s: string, owner: string, start: nat, end: nat, w: string, m: string, dogId: string,
      h: nat, i: nat)
    requires SectionBecomes(s, owner, start, end, w, m) && '\n' !in dogId
    requires NoHeadingBefore(s, h, dogId) && HeadingAt(s, h) && i < h < start
    ensures !DogHeadingAt(m, i, dogId)
  {
    BecomesRewritten(s, owner, start, end, w, m);
    assert '\n' !in Tag(dogId);
    HeadingBefore(s, m, start, end, start + |w|, i);
    if DogHeadingAt(m, i, dogId) {
      assert !DogHeadingAt(s, i, dogId);
      EndsBeforeTags(s, start, i, Tag(dogId));
      NotBlankUpTo(s, start, i, h);
      MatchFromBefore(s, start, w + s[end..], m, i, Tag(dogId));
    }
  }

  lemma NotBlankUpTo(s: string, start: nat, i: nat, h: nat)
    requires HeadingAt(s, i) && HeadingAt(s, h) && i < h < start
    ensures !RunsIntoFrom(s, start, i)
  {
    assert s[h] == '#';
    assert i + 3 <= h;
  }

  // Before the section the new text has a heading of the dog only by running into it.
  lemma NewHeadingBefore(s: string, owner: string, start: nat, end: nat, w: string, m: string, dogId: string)
    requires SectionBecomes(s, owner, start, end, w, m) && '\n' !in dogId && NoHeadingBefore(s, start, dogId)
    ensures NoHeadingBefore(m, start, dogId) <==> !(RunsInto(s, start) && TagAhead(w + s[end..], Tag(dogId)))
  {
    var t, newEnd := w + s[end..], start + |w|;
    BecomesRewritten(s, owner, start, end, w, m);
    assert '\n' !in Tag(dogId);
    forall i: nat | i < start && DogHeadingAt(m, i, dogId) ensures RunsInto(s, start) && TagAhead(t, Tag(dogId)) {
      HeadingBefore(s, m, start, end, newEnd, i);
      MatchFromBefore(s, start, t, m, i, Tag(dogId));
      assert !DogHeadingAt(s, i, dogId);
      EndsBeforeTags(s, start, i, Tag(dogId));
    }
    if RunsInto(s, start) && TagAhead(t, Tag(dogId)) {
      var i: nat :| RunsIntoFrom(s, start, i);
      MatchAcross(s, start, t, m, i, Tag(dogId));
      HeadingBefore(s, m, start, end, newEnd, i);
      assert DogHeadingAt(m, i, dogId);
    }
  }

  lemma LaterSparedIff(s: string, owner: string, start: nat, end: nat, w: string, m: string, dogId: string)
    requires SectionBecomes(s, owner, start, end, w, m) && '\n' !in dogId
    requires var h := FindSectionStart(s, dogId); h.None? || end <= h.value
    ensures Undisturbed(s, m, start, end, start + |w|, dogId) <==> Spared(s, start, end, w, dogId)
  {
    var newEnd := start + |w|;
    BecomesRewritten(s, owner, start, end, w, m);
    NewHeadingBefore(s, owner, start, end, w, m, dogId);
    HeadingsInside(s, owner, start, end, w, m, dogId);
    LineStartBehind(s, owner, start, end, w, m);
  }

  // The rewritten section's headings of one dog, in the new text and on their own.
  lemma HeadingsInside(s: string, owner: string, start: nat, end: nat, w: string, m: string, dogId: string)
    requires SectionBecomes(s, owner, start, end, w, m)
    ensures (forall x :: start <= x < start + |w| ==> !DogHeadingAt(m, x, dogId)) <==>
            (forall i :: 0 <= i < |w| ==> !DogHeadingAt(w + s[end..], i, dogId))
  {
    forall x | start <= x < start + |w|
      ensures DogHeadingAt(m, x, dogId) <==> DogHeadingAt(w + s[end..], x - start, dogId)
    {
      HeadingsFrom(s, owner, start, end, w, m, x - start, dogId);
    }
    forall i | 0 <= i < |w| ensures DogHeadingAt(m, start + i, dogId) <==> DogHeadingAt(w + s[end..], i, dogId) {
      HeadingsFrom(s, owner, start, end, w, m, i, dogId);
    }
  }

  lemma LineStartBehind(s: string, owner: string, start: nat, end: nat, w: string, m: string)
    requires SectionBecomes(s, owner, start, end, w, m)
    ensures LineStart(m, start + |w|) <==> EndsAtLineStart(w)
  {
    BecomesRewritten(s, owner, start, end, w, m);
    assert start > 0 ==> m[start - 1] == s[start - 1] == '\n';
    if w != "" { assert m[start + |w| - 1] == w[|w| - 1]; }
  }

  lemma SparedIff(s: string, owner: string, start: nat, end: nat, w: string, m: string, dogId: string)
    ensures SectionBecomes(s, owner, start, end, w, m) && FindSectionStart(s, dogId) != Some(start) ==>
              (Undisturbed(s, m, start, end, start + |w|, dogId) <==> KeepsPlace(s, m, start, end, w, dogId))
  {
    var h := FindSectionStart(s, dogId);
    if SectionBecomes(s, owner, start, end, w, m) && h != Some(start) && '\n' !in dogId {
      ElsewhereIsOutside(s, start, dogId);
      if h.Some? && h.value < start {
        EarlierSparedIff(s, owner, start, end, w, m, dogId, h.value);
      } else {
        LaterSparedIff(s, owner, start, end, w, m, dogId);
      }
    }
  }

  lemma EarlierSparedIff(s: string, owner: string, start: nat, end: nat, w: string, m: string, dogId: string, h: nat)
    requires SectionBecomes(s, owner, start, end, w, m) && '\n' !in dogId
    requires FindSectionStart(s, dogId) == Some(h) && h < start
    ensures Undisturbed(s, m, start, end, start + |w|, dogId) <==> Spared(s, start, end, w, dogId)
  {
    EarlierHeading(s, owner, start, end, w, m, dogId, h);
    HeadingsFrom(s, owner, start, end, w, m, 0, dogId);
    BecomesRewritten(s, owner, start, end, w, m);
  }

  lemma InPlaceIff(s: string, owner: string, start: nat, end: nat, w: string, m: string, dogId: string)
    requires SectionBecomes(s, owner, start, end, w, m) && FindSectionStart(s, dogId) != Some(start)
    ensures InPlace(s, m, start, end, start + |w|, dogId) <==> KeepsPlace(s, m, start, end, w, dogId)
  {
    UndisturbedIff(s, m, start, end, start + |w|, dogId);
    SparedIff(s, owner, start, end, w, m, dogId);
  }

  /** When the code still finds another dog's section, in its place and to the letter, after a
      section was rewritten. */
  lemma SectionKeptIff(s: string, owner: string, start: nat, end: nat, w: string, m: string, dogId: string)
    requires SectionBecomes(s, owner, start, end, w, m) && FindSectionStart(s, dogId) != Some(start)
    ensures InPlace(s, m, start, end, start + |w|, dogId) <==> KeepsPlace(s, m, start, end, w, dogId)
    ensures KeepsPlace(s, m, start, end, w, dogId) ==> SectionText(m, dogId) == SectionText(s, dogId)
  {
    InPlaceIff(s, owner, start, end, w, m, dogId);
    if KeepsPlace(s, m, start, end, w, dogId) {
      KeptText(s, m, start, end, start + |w|, dogId);
    }
  }

  /** The target's section once the first occurrence of the snapshot, at `at`, is replaced. */
  function NewSection(p: Proposal, s: string, start: nat, end: nat, at: nat): string
    requires start <= at && at + |p.beforeSnapshot| <= end <= |s|
  {
    s[start..at] + p.afterDraft + s[at + |p.beforeSnapshot|..end]
  }

  lemma ReplaceBecomes(s: string, owner: string, start: nat, end: nat, at: nat, before: string, after: string)
    requires FindSectionStart(s, owner) == Some(start) && start < |s| && end == FindSectionEnd(s, start)
    requires start <= at && at + |before| <= end
    ensures SectionBecomes(s, owner, start, end, s[start..at] + after + s[at + |before|..end],
              ReplaceAt(s, at, before, after))
  {
    ReplaceInside(s, start, at, before, after, end);
  }

  /** A draft rewrites the target dog's section and nothing else. */
  lemma DraftRewrites(p: Proposal, s: string) returns (start: nat, end: nat, at: nat)
    requires PrepareDraft(p, s).Draft?
    ensures EditPoint(p, s, start, end, at)
    ensures SectionBecomes(s, p.targetDogId, start, end, NewSection(p, s, start, end, at), PrepareDraft(p, s).modified)
  {
    start, end, at := DraftEditPoint(p, s);
    ReplaceBecomes(s, p.targetDogId, start, end, at, p.beforeSnapshot, p.afterDraft);
  }

  lemma DraftBecomes(p: Proposal, s: string) returns (start: nat, end: nat, w: string)
    requires PrepareDraft(p, s).Draft?
    ensures SectionBecomes(s, p.targetDogId, start, end, w, PrepareDraft(p, s).modified)
  {
    var at;
    start, end, at := DraftRewrites(p, s);
    w := NewSection(p, s, start, end, at);
  }

  /** What a draft does to any other dog's section: the code still finds it in its place, with its
      text, exactly when the rewritten section `w` lets the dog keep its place. */
  lemma DraftKeepsSectionIff(p: Proposal, s: string, dogId: string) returns (start: nat, end: nat, w: string)
    requires PrepareDraft(p, s).Draft?
    requires FindSectionStart(s, dogId) != FindSectionStart(s, p.targetDogId)
    ensures var m := PrepareDraft(p, s).modified;
            && SectionBecomes(s, p.targetDogId, start, end, w, m)
            && (InPlace(s, m, start, end, start + |w|, dogId) <==> KeepsPlace(s, m, start, end, w, dogId))
            && (KeepsPlace(s, m, start, end, w, dogId) ==> SectionText(m, dogId) == SectionText(s, dogId))
  {
    start, end, w := DraftBecomes(p, s);
    SectionKeptIff(s, p.targetDogId, start, end, w, PrepareDraft(p, s).modified, dogId);
  }

  // ---- edits that are safe for everybody else ----

  /** Some line break separates the heading's tag from the edit. */
  ghost predicate BehindTitle(s: string, start: nat, at: nat, tag: string) {
    exists j: nat, k: nat, e: nat :: TitleEndsBy(s, start, at, tag, j, k, e)
  }

  predicate TitleEndsBy(s: string, start: nat, at: nat, tag: string, j: nat, k: nat, e: nat) {
    at <= |s| && TagAt(s, start, j, k, tag) && k + |tag| <= e < at && s[e] == '\n'
  }

  /** Up to `at`, behind the heading's lines, the section stays as it is; behind its heading the
      rewritten section `w` has no other, and it ends where a line begins or the text ends. */
  ghost predicate PlainEdit(s: string, start: nat, end: nat, at: nat, w: string, tag: string)
    requires end <= |s|
  {
    && start <= at <= start + |w| && BehindTitle(s, start, at, tag) && w[..at - start] == s[start..at]
    && (forall i :: 0 < i < |w| ==> !HeadingAt(w + s[end..], i))
    && (end == |s| || EndsAtLineStart(w))
  }

  // A match that starts no later than the window ends in front of the edit.
  lemma MatchEndsBefore(s: string, i: nat, j: nat, k: nat, tag: string, title: nat, e: nat)
    requires TagAt(s, i, j, k, tag) && '\n' !in tag
    requires i + 3 <= title <= e < |s| && !IsWhite(s[title]) && s[e] == '\n'
    ensures k + |tag| <= e
  {
    assert j <= title;
    assert k <= e;
    forall x | k <= x < k + |tag| ensures s[x] != '\n' {
      assert s[x] == s[k..k + |tag|][x - k] == tag[x - k];
    }
  }

  lemma SameMatches(s: string, m: string, start: nat, at: nat, tag: string, own: string, i: nat)
    requires at <= |s| && at <= |m| && m[..at] == s[..at] && i <= start
    requires BehindTitle(s, start, at, own) && own != "" && own[0] == '`' && '\n' !in tag
    ensures Tagged(m, i, tag) ==> Tagged(s, i, tag)
    ensures Tagged(s, i, tag) ==> Tagged(m, i, tag)
  {
    var j0: nat, k0: nat, e: nat :| TitleEndsBy(s, start, at, own, j0, k0, e);
    assert s[k0] == s[k0..k0 + |own|][0] == '`';
    forall x | 0 <= x < at ensures m[x] == s[x] { assert m[..at][x] == s[..at][x]; }
    if Tagged(m, i, tag) {
      var j: nat, k: nat :| j <= |m| && k <= |m| && TagAt(m, i, j, k, tag);
      MatchEndsBefore(m, i, j, k, tag, k0, e);
      SameTag(m, s, i, j, k, tag, at);
    }
    if Tagged(s, i, tag) {
      var j: nat, k: nat :| j <= |s| && k <= |s| && TagAt(s, i, j, k, tag);
      MatchEndsBefore(s, i, j, k, tag, k0, e);
      SameTag(s, m, i, j, k, tag, at);
    }
  }

  lemma SameTag(s: string, m: string, i: nat, j: nat, k: nat, tag: string, at: nat)
    requires at <= |s| && at <= |m| && m[..at] == s[..at]
    requires TagAt(s, i, j, k, tag) && k + |tag| <= at
    ensures TagAt(m, i, j, k, tag)
  {
    forall x | 0 <= x < at ensures m[x] == s[x] { assert m[..at][x] == s[..at][x]; }
    assert m[k..k + |tag|] == s[k..k + |tag|];
  }

  lemma SameHeadings(s: string, m: string, start: nat, at: nat, dogId: string, own: string, i: nat)
    requires at <= |s| && at <= |m| && m[..at] == s[..at] && i <= start
    requires BehindTitle(s, start, at, Tag(own)) && '\n' !in dogId
    ensures HeadingAt(m, i) <==> HeadingAt(s, i)
    ensures DogHeadingAt(m, i, dogId) <==> DogHeadingAt(s, i, dogId)
  {
    assert '\n' !in Tag(dogId);
    assert Tag(own)[0] == '`';
    SameMatches(s, m, start, at, Tag(dogId), Tag(own), i);
    forall x | 0 <= x < at ensures m[x] == s[x] { assert m[..at][x] == s[..at][x]; }
  }

  /** A plain edit of one dog's section leaves every other dog's section where it is. */
  lemma PlainEditSpares(s: string, owner: string, start: nat, end: nat, at: nat, w: string, m: string, dogId: string)
    requires SectionBecomes(s, owner, start, end, w, m) && PlainEdit(s, start, end, at, w, Tag(owner))
    requires '\n' !in dogId && FindSectionStart(s, dogId) != Some(start)
    ensures Spared(s, start, end, w, dogId)
    ensures InPlace(s, m, start, end, start + |w|, dogId) && SectionText(m, dogId) == SectionText(s, dogId)
  {
    UpToEdit(s, m, start, at, w);
    PlainKeepsPlace(s, owner, start, end, at, w, m, dogId);
    SectionKeptIff(s, owner, start, end, w, m, dogId);
  }

  lemma PlainKeepsPlace(s: string, owner: string, start: nat, end: nat, at: nat, w: string, m: string, dogId: string)
    requires SectionBecomes(s, owner, start, end, w, m) && PlainEdit(s, start, end, at, w, Tag(owner))
    requires start <= at <= |s| && at <= |m| && m[..at] == s[..at]
    requires '\n' !in dogId && FindSectionStart(s, dogId) != Some(start)
    ensures KeepsPlace(s, m, start, end, w, dogId)
  {
    forall i | 0 <= i <= start
      ensures HeadingAt(m, i) <==> HeadingAt(s, i)
      ensures DogHeadingAt(m, i, dogId) <==> DogHeadingAt(s, i, dogId)
    {
      SameHeadings(s, m, start, at, dogId, owner, i);
    }
    forall i | start < i < start + |w| ensures !HeadingAt(m, i) {
      HeadingsFrom(s, owner, start, end, w, m, i - start, dogId);
    }
    LineStartBehind(s, owner, start, end, w, m);
    PlainIsUndisturbed(s, m, start, end, start + |w|, dogId);
    SparedIff(s, owner, start, end, w, m, dogId);
  }

  lemma UpToEdit(s: string, m: string, start: nat, at: nat, w: string)
    requires start <= at <= |s| && start + |w| <= |m| && at - start <= |w|
    requires m[..start] == s[..start] && m[start..start + |w|] == w && w[..at - start] == s[start..at]
    ensures at <= |m| && m[..at] == s[..at]
  {
    assert m[..at] == m[..start] + w[..at - start];
    assert s[..at] == s[..start] + s[start..at];
  }

  lemma PlainIsUndisturbed(s: string, m: string, start: nat, end: nat, newEnd: nat, dogId: string)
    requires Rewritten(s, m, start, end, newEnd) && FindSectionStart(s, dogId) != Some(start)
    requires forall i :: 0 <= i <= start ==> (HeadingAt(m, i) <==> HeadingAt(s, i))
    requires forall i :: 0 <= i <= start ==> (DogHeadingAt(m, i, dogId) <==> DogHeadingAt(s, i, dogId))
    requires forall i :: start < i < newEnd ==> !HeadingAt(m, i)
    requires newEnd == |m| || LineStart(m, newEnd)
    ensures Undisturbed(s, m, start, end, newEnd, dogId)
  {
    ElsewhereIsOutside(s, start, dogId);
  }

  // ---- edits that are not ----

  function Title(x: char): (t: string)
    ensures |t| == 12 && t[0] == t[1] == t[2] == '#' && t[3] == ' ' && t[4..11] == Tag([x]) && t[11] == '\n'
    ensures t[4] == '`' && t[5] == 'd' && t[6] == 'o' && t[7] == 'g' && t[8] == ':' && t[9] == x && t[10] == '`'
  {
    "### `dog:" + [x] + "`\n"
  }

  // A title line somewhere in a text.
  predicate TitleIn(s: string, i: nat, x: char) {
    i + 12 <= |s| && x !in {'`', '\n'} && s[i..i + 12] == Title(x)
  }

  lemma TitleChars(s: string, i: nat, x: char)
    requires TitleIn(s, i, x)
    ensures s[i] == s[i + 1] == s[i + 2] == '#' && s[i + 3] == ' ' && s[i + 4..i + 11] == Tag([x]) && s[i + 11] == '\n'
    ensures s[i + 4] == '`' && s[i + 9] == x && s[i + 10] == '`'
    ensures forall k :: i <= k < i + 11 ==> s[k] != '\n'
    ensures forall k :: i <= k < i + 12 && s[k] == '`' ==> k == i + 4 || k == i + 10
  {
    var t := Title(x);
    forall k | i <= k < i + 12 ensures s[k] == t[k - i] { assert s[i..i + 12][k - i] == t[k - i]; }
    assert s[i + 4..i + 11] == s[i..i + 12][4..11] == t[4..11];
  }

  lemma TitleIsHeading(s: string, i: nat, x: char)
    requires TitleIn(s, i, x) && LineStart(s, i)
    ensures HeadingAt(s, i) && DogHeadingAt(s, i, [x]) && LineEnd(s, i) == i + 11
  {
    TitleChars(s, i, x);
    assert TagAt(s, i, i + 4, i + 4, Tag([x]));
    LineEndAtMost(s, i, i + 11);
  }

  lemma TagChars(s: string, i: nat, j: nat, k: nat, tag: string)
    requires |tag| == 7
    ensures TagAt(s, i, j, k, tag) ==> s[k] == tag[0] && s[k + 1] == tag[1] && s[k + 5] == tag[5]
  {
    if TagAt(s, i, j, k, tag) {
      assert s[k..k + 7][0] == s[k] && s[k..k + 7][1] == s[k + 1] && s[k..k + 7][5] == s[k + 5];
    }
  }

  // A title line names one dog only.
  lemma TitleOfAnother(s: string, i: nat, x: char, y: char)
    requires TitleIn(s, i, x) && x != y && y !in {'`', '\n'}
    ensures !DogHeadingAt(s, i, [y])
  {
    TitleChars(s, i, x);
    var tag := Tag([y]);
    assert tag[0] == '`' && tag[1] == 'd' && tag[5] == y;
    forall j: nat, k: nat ensures !TagAt(s, i, j, k, tag) {
      TagChars(s, i, j, k, tag);
    }
  }

  const OLD_LINE := "old\n"

  // Dog a's section, directly followed by dog b's.
  function TwoDogs(body: string): string {
    Title('a') + body + Title('b') + "X"
  }

  lemma TwoDogsParts(body: string)
    ensures var s, n := TwoDogs(body), |body|;
            && |s| == n + 25 && TitleIn(s, 0, 'a') && TitleIn(s, n + 12, 'b') && s[12..n + 12] == body &&
               s[n + 24] == 'X'
  {
    var s, n := TwoDogs(body), |body|;
    assert s[0..12] == Title('a');
    assert s[12..n + 12] == body;
    assert s[n + 12..n + 24] == Title('b');
  }

  // Which positions of such a text can begin a heading.
  lemma TwoDogsHeadings(body: string, i: nat)
    requires HeadingAt(TwoDogs(body), i)
    ensures i == 0 || i == |body| + 12 || (12 <= i < |body| + 12 && LineStart(TwoDogs(body), i))
  {
    var s, n := TwoDogs(body), |body|;
    TwoDogsParts(body);
    TitleChars(s, 0, 'a');
    TitleChars(s, n + 12, 'b');
  }

  lemma OldText()
    ensures var s := TwoDogs(OLD_LINE);
            && FindSectionStart(s, "a") == Some(0)
            && SectionOf(s, "a") == Some(Span(0, 16)) && SectionOf(s, "b") == Some(Span(16, 29))
  {
    var s := TwoDogs(OLD_LINE);
    TwoDogsParts(OLD_LINE);
    assert s[12..16] == OLD_LINE && s[12] == s[12..16][0] && s[13] == s[12..16][1] && s[14] == s[12..16][2] &&
        s[15] == s[12..16][3];
    assert "a" == ['a'] && "b" == ['b'];
    TitleIsHeading(s, 0, 'a');
    TitleIsHeading(s, 16, 'b');
    TitleOfAnother(s, 0, 'a', 'b');
    assert !HeadingAt(s, 12) by { assert s[12] == 'o'; }
    forall i: nat | HeadingAt(s, i) ensures i == 0 || i == 16 {
      TwoDogsHeadings(OLD_LINE, i);
    }
    StartIs(s, "a", 0);
    StartIs(s, "b", 16);
    assert FindHeading(s, 12) == 16 && FindHeading(s, 28) == 29;
  }

  // A proposal to replace dog a's only line.
  predicate ReplacesOldLine(p: Proposal, after: string) {
    && p.status.Approved? && p.targetDogId == "a" && p.beforeSnapshot == OLD_LINE && p.afterDraft == after
    && p.baseHash == ComputeFileHash(TwoDogs(OLD_LINE))
  }

  lemma OldLineAt()
    ensures var s := TwoDogs(OLD_LINE); |s| == 29 && IndexOf(s[0..16], OLD_LINE, 0) == Some(12)
  {
    var s := TwoDogs(OLD_LINE);
    TwoDogsParts(OLD_LINE);
    TitleChars(s, 0, 'a');
    var w := s[0..16];
    assert w[12..16] == s[12..16] == OLD_LINE;
    assert OccursAt(w, OLD_LINE, 12);
    forall m: nat | m < 12 ensures !OccursAt(w, OLD_LINE, m) {
      NoBreakInTitle(s, w, m);
    }
    IndexOfFirst(w, OLD_LINE, 0, 12);
  }

  // The old line ends in a line break, which the title has at its end only.
  lemma NoBreakInTitle(s: string, w: string, m: nat)
    requires |s| == 29 && w == s[0..16] && m < 12 && TitleIn(s, 0, 'a') && w[12..16] == OLD_LINE
    ensures !OccursAt(w, OLD_LINE, m)
  {
    TitleChars(s, 0, 'a');
    assert w[12] == OLD_LINE[0] && w[13] == OLD_LINE[1] && w[14] == OLD_LINE[2] by {
      assert w[12..16][0] == w[12] && w[12..16][1] == w[13] && w[12..16][2] == w[14];
    }
    assert m + 3 != 11 ==> w[m + 3] != '\n';
    assert w[8] == s[0..12][8] == ':';
    if m + 4 <= |w| {
      assert w[m..m + 4][3] == w[m + 3] && w[m..m + 4][0] == w[m];
    }
  }

  lemma DraftsOldText(p: Proposal, after: string)
    requires ReplacesOldLine(p, after)
    ensures PrepareDraft(p, TwoDogs(OLD_LINE)) == Draft(TwoDogs(after))
  {
    var s := TwoDogs(OLD_LINE);
    OldText();
    OldLineAt();
    TwoDogsParts(OLD_LINE);
    assert FindSectionEnd(s, 0) == 16;
    assert s[..12] == Title('a');
    assert s[16..] == Title('b') + "X";
    assert ReplaceAt(s, 12, OLD_LINE, after) == TwoDogs(after);
  }

  lemma NewText()
    ensures var m := TwoDogs("new"); SectionOf(m, "b") == None && SectionOf(m, "a") == Some(Span(0, |m|))
  {
    var m := TwoDogs("new");
    TwoDogsParts("new");
    assert m[12..15] == "new" && m[12] == m[12..15][0] && m[13] == m[12..15][1] && m[14] == m[12..15][2];
    assert "a" == ['a'] && "b" == ['b'];
    TitleIsHeading(m, 0, 'a');
    TitleOfAnother(m, 0, 'a', 'b');
    assert !HeadingAt(m, 12) by { assert m[12..15][0] == 'n'; }
    forall i: nat | HeadingAt(m, i) ensures i == 0 {
      TwoDogsHeadings("new", i);
    }
    StartIs(m, "a", 0);
    assert FindHeading(m, 12) == 28;
  }

  /** The rewritten line loses its line break: dog b's heading no longer starts a line, b has no
      section any more, and a's section now holds b's text. */
  lemma LostLineBreak(p: Proposal)
    requires ReplacesOldLine(p, "new")
    ensures var s, m := TwoDogs(OLD_LINE), TwoDogs("new");
            && SectionOf(s, "b") == Some(Span(16, 29)) && PrepareDraft(p, s) == Draft(m)
            && SectionOf(m, "b") == None && SectionOf(m, "a") == Some(Span(0, |m|))
  {
    OldText();
    DraftsOldText(p, "new");
    NewText();
  }

  const HIJACK := Title('b') + "Y\n"

  lemma HijackParts()
    ensures var m := TwoDogs(HIJACK);
            && |m| == 39 && TitleIn(m, 0, 'a') && TitleIn(m, 12, 'b') && TitleIn(m, 26, 'b')
            && m[12..26] == HIJACK && m[24] == 'Y' && m[25] == '\n'
  {
    var m := TwoDogs(HIJACK);
    TwoDogsParts(HIJACK);
    assert m[12..24] == m[12..26][..12] == Title('b');
    assert m[24] == m[12..26][12] && m[25] == m[12..26][13];
  }

  lemma HijackText()
    ensures SectionOf(TwoDogs(HIJACK), "b") == Some(Span(12, 26))
  {
    var m := TwoDogs(HIJACK);
    HijackParts();
    assert "b" == ['b'];
    TitleChars(m, 0, 'a');
    TitleChars(m, 12, 'b');
    TitleIsHeading(m, 12, 'b');
    TitleIsHeading(m, 26, 'b');
    TitleOfAnother(m, 0, 'a', 'b');
    forall i: nat | HeadingAt(m, i) && i < 26 ensures i == 0 || i == 12 {
      TwoDogsHeadings(HIJACK, i);
    }
    StartIs(m, "b", 12);
    assert FindHeading(m, 24) == 26;
  }

  /** The rewritten line brings in a heading of its own with dog b's tag: from now on that is b's
      section. */
  lemma HijackedSection(p: Proposal)
    requires ReplacesOldLine(p, HIJACK)
    ensures var s, m := TwoDogs(OLD_LINE), TwoDogs(HIJACK);
            && SectionText(s, "b") == Some(Title('b') + "X") && PrepareDraft(p, s) == Draft(m)
            && SectionText(m, "b") == Some(HIJACK)
  {
    var s := TwoDogs(OLD_LINE);
    OldText();
    TwoDogsParts(OLD_LINE);
    assert s[16..29] == Title('b') + "X";
    DraftsOldText(p, HIJACK);
    HijackText();
    HijackParts();
  }
}
