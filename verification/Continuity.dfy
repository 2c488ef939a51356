/** internal/settings/continuity.go: the per-breed ring of rotation checkpoints. A breed's file is
    taken as already parsed; whether it loads, what writeAtomic answers and the clock are parameters. */
module Continuity {
  import opened Numerals
  import opened Text

  datatype Checkpoint = Checkpoint(rotationIndex: Int64, summary: string, threadId: string, updatedAt: int)

  const MAX_CHECKPOINTS := 8

  // ---- the ring as functions ----

  // sort.SliceStable by rotation index.
  function StableSort(s: seq<Checkpoint>): seq<Checkpoint> {
    if s == [] then [] else InsertStable(StableSort(s[..|s| - 1]), s[|s| - 1])
  }

  function InsertStable(s: seq<Checkpoint>, c: Checkpoint): seq<Checkpoint> {
    if s != [] && c.rotationIndex < s[|s| - 1].rotationIndex then InsertStable(s[..|s| - 1], c) + [s[|s| - 1]]
    else s + [c]
  }

  // The first checkpoint of the same index is replaced; without one, the new one is appended.
  function Upsert(s: seq<Checkpoint>, c: Checkpoint): seq<Checkpoint> {
    if s == [] then [c]
    else if s[0].rotationIndex == c.rotationIndex then [c] + s[1..]
    else [s[0]] + Upsert(s[1..], c)
  }

  function KeepLatest(s: seq<Checkpoint>): seq<Checkpoint> {
    if |s| > MAX_CHECKPOINTS then s[|s| - MAX_CHECKPOINTS..] else s
  }

  function Record(ring: seq<Checkpoint>, c: Checkpoint): seq<Checkpoint> {
    KeepLatest(StableSort(Upsert(ring, c)))
  }

  /** One past the highest index, on int64; 0 for an empty ring. */
  function NextIndex(ring: seq<Checkpoint>): Int64 {
    if ring == [] then 0
    else if ring[|ring| - 1].rotationIndex == MAX_INT then MIN_INT
    else ring[|ring| - 1].rotationIndex + 1
  }

  // ---- the store ----

  function SanitizeChar(c: char): char {
    if 'a' <= c <= 'z' || 'A' <= c <= 'Z' || '0' <= c <= '9' || c in {'.', '_', '-'} then c else '_'
  }

  /** The file a breed's checkpoints live in. */
  function FileKey(breedId: string): string {
    if breedId == "" then "unnamed" else seq(|breedId|, i requires 0 <= i < |breedId| => SanitizeChar(breedId[i]))
  }

  function RingAt(files: map<string, seq<Checkpoint>>, breedId: string): seq<Checkpoint> {
    if FileKey(breedId) in files then files[FileKey(breedId)] else []
  }

  class ContinuityStore {
    var files: map<string, seq<Checkpoint>>

    // The upsert loop shared by both entry points.
    method UpsertLoop(ring: seq<Checkpoint>, c: Checkpoint) returns (out: seq<Checkpoint>)
      ensures out == Upsert(ring, c)
    {
      var i := 0;
      assert ring[0..] == ring;
      while i < |ring|
        invariant 0 <= i <= |ring|
        invariant Upsert(ring, c) == ring[..i] + Upsert(ring[i..], c)
      {
        if ring[i].rotationIndex == c.rotationIndex {
          assert ring[i := c] == ring[..i] + ([c] + ring[i..][1..]);
          return ring[i := c];
        }
        assert ring[i..][1..] == ring[i + 1..];
        assert ring[..i] + ([ring[i]] + Upsert(ring[i + 1..], c)) == ring[..i + 1] + Upsert(ring[i + 1..], c);
        i := i + 1;
      }
      return ring + [c];
    }

    method RecordRotation(breedId: string, summary: string, threadId: string, rotationIndex: Int64,
        now: int, loadOk: bool, writeOk: bool) returns (ok: bool)
      modifies this
      ensures ok <==> breedId != "" && TrimSpace(summary) != "" && loadOk && writeOk
      ensures files == if ok then
                         old(files)[FileKey(breedId) := Record(RingAt(old(files), breedId),
                           Checkpoint(rotationIndex, TrimSpace(summary), threadId, now))]
                       else old(files)
    {
      if breedId == "" || TrimSpace(summary) == "" {
        return false;
      }
      // a missing file is an empty ring; any other error ends the call
      if !loadOk {
        return false;
      }
      var ring := RingAt(files, breedId);
      var cp := Checkpoint(rotationIndex, TrimSpace(summary), threadId, now);
      ring := UpsertLoop(ring, cp);
      ring := StableSort(ring);
      if |ring| > MAX_CHECKPOINTS {
        ring := ring[|ring| - MAX_CHECKPOINTS..];
      }
      if !writeOk {
        return false;
      }
      files := files[FileKey(breedId) := ring];
      return true;
    }

    method RecordNextRotation(breedId: string, summary: string, threadId: string, now: int,
        loadOk: bool, writeOk: bool) returns (index: Int64, ok: bool)
      modifies this
      ensures ok <==> breedId != "" && TrimSpace(summary) != "" && loadOk && writeOk
      ensures ok ==> index == NextIndex(RingAt(old(files), breedId))
      ensures files == if ok then
                         old(files)[FileKey(breedId) := Record(RingAt(old(files), breedId),
                           Checkpoint(index, TrimSpace(summary), threadId, now))]
                       else old(files)
    {
      if breedId == "" || TrimSpace(summary) == "" || !loadOk {
        return 0, false;
      }
      index := 0;
      var ring := RingAt(files, breedId);
      if |ring| > 0 {
        var latest := ring[|ring| - 1].rotationIndex;
        index := if latest == MAX_INT then MIN_INT else latest + 1;
      }
      ok := RecordRotation(breedId, summary, threadId, index, now, true, writeOk);
    }
  }

  // ---- the unbounded list the ring stands for ----

  predicate Increasing(s: seq<Checkpoint>) {
    forall i, j :: 0 <= i < j < |s| ==> s[i].rotationIndex < s[j].rotationIndex
  }

  /** Every index ever recorded with its latest checkpoint, in index order. */
  function RecordAll(all: seq<Checkpoint>, c: Checkpoint): seq<Checkpoint> {
    StableSort(Upsert(all, c))
  }

  // Where an index belongs in an increasing list.
  function Rank(s: seq<Checkpoint>, k: int): (p: nat)
    ensures p <= |s|
    ensures forall i :: 0 <= i < p ==> s[i].rotationIndex < k
    ensures p < |s| ==> s[p].rotationIndex >= k
  {
    if s == [] || s[0].rotationIndex >= k then 0 else 1 + Rank(s[1..], k)
  }

  /** Putting a checkpoint in its place. */
  function Put(s: seq<Checkpoint>, c: Checkpoint): seq<Checkpoint> {
    PutAt(s, c, Rank(s, c.rotationIndex))
  }

  function PutAt(s: seq<Checkpoint>, c: Checkpoint, p: nat): seq<Checkpoint>
    requires p <= |s|
  {
    s[..p] + [c] + if p < |s| && s[p].rotationIndex == c.rotationIndex then s[p + 1..] else s[p..]
  }

  lemma {:induction false} SortIncreasing(s: seq<Checkpoint>)
    requires Increasing(s)
    ensures StableSort(s) == s
  {
    if s != [] {
      SortIncreasing(s[..|s| - 1]);
    }
  }

  /** The first checkpoint of the same index is replaced, in any list. */
  lemma {:induction false} UpsertPresent(s: seq<Checkpoint>, c: Checkpoint, p: nat)
    requires p < |s| && s[p].rotationIndex == c.rotationIndex
    requires forall i :: 0 <= i < p ==> s[i].rotationIndex != c.rotationIndex
    ensures Upsert(s, c) == s[..p] + [c] + s[p + 1..]
  {
    if p > 0 {
      UpsertPresent(s[1..], c, p - 1);
      assert s[1..][p - 1] == s[p];
      assert s[..p] == [s[0]] + s[1..][..p - 1];
    }
  }

  lemma {:induction false} UpsertAbsent(s: seq<Checkpoint>, c: Checkpoint)
    requires forall i :: 0 <= i < |s| ==> s[i].rotationIndex != c.rotationIndex
    ensures Upsert(s, c) == s + [c]
  {
    if s != [] {
      UpsertAbsent(s[1..], c);
    }
  }

  lemma {:induction false} InsertAtRank(s: seq<Checkpoint>, c: Checkpoint, p: nat)
    requires Increasing(s) && p <= |s|
    requires forall i :: 0 <= i < p ==> s[i].rotationIndex < c.rotationIndex
    requires forall i :: p <= i < |s| ==> c.rotationIndex < s[i].rotationIndex
    ensures InsertStable(s, c) == s[..p] + [c] + s[p..]
  {
    if p < |s| {
      var n := |s| - 1;
      InsertAtRank(s[..n], c, p);
      assert s[..n][..p] == s[..p] && s[..n][p..] + [s[n]] == s[p..];
    }
  }

  /** On an increasing list, upserting and stably sorting is putting in place. */
  lemma RecordAllIsPut(s: seq<Checkpoint>, c: Checkpoint)
    requires Increasing(s)
    ensures RecordAll(s, c) == Put(s, c) && Increasing(Put(s, c))
  {
    var p := Rank(s, c.rotationIndex);
    PutIncreasing(s, c);
    if p < |s| && s[p].rotationIndex == c.rotationIndex {
      UpsertPresent(s, c, p);
      SortIncreasing(Put(s, c));
    } else {
      RecordAbsent(s, c, p);
    }
  }

  lemma RecordAbsent(s: seq<Checkpoint>, c: Checkpoint, p: nat)
    requires Increasing(s) && p == Rank(s, c.rotationIndex)
    requires p < |s| ==> s[p].rotationIndex != c.rotationIndex
    ensures RecordAll(s, c) == s[..p] + [c] + s[p..]
  {
    AboveRank(s, c);
    AppendAndSort(s, c, p);
  }

  lemma AppendAndSort(s: seq<Checkpoint>, c: Checkpoint, p: nat)
    requires Increasing(s) && p <= |s|
    requires forall i :: 0 <= i < p ==> s[i].rotationIndex < c.rotationIndex
    requires forall i :: p <= i < |s| ==> c.rotationIndex < s[i].rotationIndex
    ensures RecordAll(s, c) == s[..p] + [c] + s[p..]
  {
    UpsertAbsent(s, c);
    SortSnoc(s, c);
    SortIncreasing(s);
    InsertAtRank(s, c, p);
  }

  lemma SortSnoc(s: seq<Checkpoint>, c: Checkpoint)
    ensures StableSort(s + [c]) == InsertStable(StableSort(s), c)
  {
    assert (s + [c])[..|s|] == s;
  }

  lemma AboveRank(s: seq<Checkpoint>, c: Checkpoint)
    requires Increasing(s)
    ensures var p := Rank(s, c.rotationIndex);
            forall i :: p <= i < |s| && (i > p || s[p].rotationIndex != c.rotationIndex) ==>
              c.rotationIndex < s[i].rotationIndex
  {
    var p := Rank(s, c.rotationIndex);
    forall i | p < i < |s| ensures c.rotationIndex < s[i].rotationIndex {
      assert s[p].rotationIndex < s[i].rotationIndex;
    }
  }

  lemma PutIncreasing(s: seq<Checkpoint>, c: Checkpoint)
    requires Increasing(s)
    ensures Increasing(Put(s, c))
  {
    AboveRank(s, c);
  }

  lemma RankIsUnique(s: seq<Checkpoint>, k: int, p: nat)
    requires Increasing(s) && p <= |s|
    requires forall i :: 0 <= i < p ==> s[i].rotationIndex < k
    requires p < |s| ==> s[p].rotationIndex >= k
    ensures Rank(s, k) == p
  {
  }

  lemma PutAtShift(s: seq<Checkpoint>, c: Checkpoint, p: nat, o: nat)
    requires o <= p <= |s|
    ensures PutAt(s, c, p) == s[..o] + PutAt(s[o..], c, p - o)
  {
  }

  lemma SuffixRank(s: seq<Checkpoint>, k: int, o: nat)
    requires Increasing(s) && o <= |s|
    ensures Rank(s[o..], k) == if o <= Rank(s, k) then Rank(s, k) - o else 0
    ensures Rank(s, k) < o < |s| ==> s[o].rotationIndex > k
  {
    var p := Rank(s, k);
    if p < o < |s| { assert s[p].rotationIndex < s[o].rotationIndex; }
    RankIsUnique(s[o..], k, if o <= p then p - o else 0);
  }

  // Prepending to a list of at least eight does not change its last eight.
  lemma DropPrefix(a: seq<Checkpoint>, b: seq<Checkpoint>)
    requires |b| >= MAX_CHECKPOINTS
    ensures KeepLatest(a + b) == KeepLatest(b)
  {
  }

  lemma FrontDropped(s: seq<Checkpoint>, t: seq<Checkpoint>, c: Checkpoint, p: nat)
    requires |s| > MAX_CHECKPOINTS && t == s[|s| - MAX_CHECKPOINTS..]
    requires p < |s| - MAX_CHECKPOINTS && t[0].rotationIndex != c.rotationIndex
    ensures KeepLatest(PutAt(s, c, p)) == KeepLatest(PutAt(t, c, 0))
  {
    var o := |s| - MAX_CHECKPOINTS;
    assert PutAt(t, c, 0) == [c] + t;
    DropPrefix([c], t);
    if s[p].rotationIndex == c.rotationIndex {
      assert PutAt(s, c, p) == (s[..p] + [c] + s[p + 1..o]) + t;
      DropPrefix(s[..p] + [c] + s[p + 1..o], t);
    } else {
      assert PutAt(s, c, p) == (s[..p] + [c] + s[p..o]) + t;
      DropPrefix(s[..p] + [c] + s[p..o], t);
    }
  }

  lemma BackKept(s: seq<Checkpoint>, t: seq<Checkpoint>, c: Checkpoint, p: nat, q: nat)
    requires |s| > MAX_CHECKPOINTS && t == s[|s| - MAX_CHECKPOINTS..]
    requires p <= |s| && p - q == |s| - MAX_CHECKPOINTS
    ensures KeepLatest(PutAt(s, c, p)) == KeepLatest(PutAt(t, c, q))
  {
    PutAtShift(s, c, p, p - q);
    DropPrefix(s[..p - q], PutAt(t, c, q));
  }

  /** A ring longer than eight loses its front. */
  lemma KeepsLastEight(s: seq<Checkpoint>)
    ensures KeepLatest(s) == if |s| > 8 then s[|s| - 8..] else s
  {
  }

  /** Dropping all but the last eight commutes with putting in place. */
  lemma KeepLatestPut(s: seq<Checkpoint>, c: Checkpoint)
    requires Increasing(s)
    ensures KeepLatest(Put(KeepLatest(s), c)) == KeepLatest(Put(s, c))
  {
    if |s| > MAX_CHECKPOINTS {
      SuffixPut(s, s[|s| - MAX_CHECKPOINTS..], c);
    }
  }

  lemma SuffixPut(s: seq<Checkpoint>, t: seq<Checkpoint>, c: Checkpoint)
    requires Increasing(s) && |s| > MAX_CHECKPOINTS && t == s[|s| - MAX_CHECKPOINTS..]
    ensures KeepLatest(Put(t, c)) == KeepLatest(Put(s, c))
  {
    var o := |s| - MAX_CHECKPOINTS;
    var p, q := Rank(s, c.rotationIndex), Rank(t, c.rotationIndex);
    SuffixRank(s, c.rotationIndex, o);
    if o <= p {
      BackKept(s, t, c, p, q);
    } else {
      FrontDropped(s, t, c, p);
    }
  }

  /** The ring refines the unbounded list: recording into the last eight checkpoints gives the last
      eight of recording into all of them. */
  lemma RingRefines(all: seq<Checkpoint>, c: Checkpoint)
    requires Increasing(all)
    ensures Record(KeepLatest(all), c) == KeepLatest(RecordAll(all, c))
    ensures Increasing(RecordAll(all, c))
    ensures NextIndex(KeepLatest(all)) == NextIndex(all)
  {
    var ring := KeepLatest(all);
    assert Increasing(ring);
    RecordAllIsPut(all, c);
    RecordAllIsPut(ring, c);
    KeepLatestPut(all, c);
  }

  // ---- whole runs ----

  /** A call of RecordRotation, or of RecordNextRotation when the index is left open. */
  datatype Call = At(checkpoint: Checkpoint) | Next(summary: string, threadId: string, updatedAt: int)

  function ToRecord(ring: seq<Checkpoint>, call: Call): Checkpoint {
    match call
    case At(c) => c
    case Next(summary, threadId, updatedAt) => Checkpoint(NextIndex(ring), summary, threadId, updatedAt)
  }

  function RunRing(calls: seq<Call>): seq<Checkpoint> {
    if calls == [] then []
    else
      var ring := RunRing(calls[..|calls| - 1]);
      Record(ring, ToRecord(ring, calls[|calls| - 1]))
  }

  function RunAll(calls: seq<Call>): seq<Checkpoint> {
    if calls == [] then []
    else
      var all := RunAll(calls[..|calls| - 1]);
      RecordAll(all, ToRecord(all, calls[|calls| - 1]))
  }

  /** From an empty document, any mix of the two calls leaves the eight highest-index entries of
      the unbounded list, strictly sorted. */
  lemma {:induction false} RingIsLatestEight(calls: seq<Call>)
    ensures RunRing(calls) == KeepLatest(RunAll(calls))
    ensures Increasing(RunAll(calls)) && Increasing(RunRing(calls)) && |RunRing(calls)| <= 8
  {
    if calls != [] {
      var init, last := calls[..|calls| - 1], calls[|calls| - 1];
      RingIsLatestEight(init);
      var all := RunAll(init);
      RingRefines(all, ToRecord(all, last));
      KeepLatestIncreasing(RunAll(calls));
    }
  }

  lemma KeepLatestIncreasing(s: seq<Checkpoint>)
    requires Increasing(s)
    ensures Increasing(KeepLatest(s)) && |KeepLatest(s)| <= MAX_CHECKPOINTS
  {
  }

  /** The latest checkpoint recorded for each index, as a map. */
  function LatestMap(calls: seq<Call>): map<Int64, Checkpoint> {
    if calls == [] then map[]
    else
      var init := calls[..|calls| - 1];
      var c := ToRecord(RunAll(init), calls[|calls| - 1]);
      LatestMap(init)[c.rotationIndex := c]
  }

  /** The unbounded list is that map: one entry per index ever recorded, holding its latest record. */
  lemma {:induction false} AllIsLatestMap(calls: seq<Call>)
    ensures forall c :: c in RunAll(calls) <==>
            c.rotationIndex in LatestMap(calls) && LatestMap(calls)[c.rotationIndex] == c
  {
    if calls != [] {
      var init := calls[..|calls| - 1];
      var all := RunAll(init);
      var c := ToRecord(all, calls[|calls| - 1]);
      AllIsLatestMap(init);
      RingIsLatestEight(init);
      RecordAllIsPut(all, c);
      PutMembers(all, c);
    }
  }

  lemma PutMembers(s: seq<Checkpoint>, c: Checkpoint)
    requires Increasing(s)
    ensures forall d :: d in Put(s, c) <==> d == c || (d in s && d.rotationIndex != c.rotationIndex)
  {
    var p := Rank(s, c.rotationIndex);
    forall d ensures d in Put(s, c) <==> d == c || (d in s && d.rotationIndex != c.rotationIndex) {
      if d in s && d.rotationIndex != c.rotationIndex {
        var i :| 0 <= i < |s| && s[i] == d;
        if i < p { assert Put(s, c)[i] == d; }
        else if s[p].rotationIndex == c.rotationIndex { assert Put(s, c)[i] == d; }
        else { assert Put(s, c)[i + 1] == d; }
      }
      if p < |s| && s[p].rotationIndex != c.rotationIndex {
        forall i | p <= i < |s| ensures s[i].rotationIndex > c.rotationIndex {
          if i > p { assert s[p].rotationIndex < s[i].rotationIndex; }
        }
      }
      assert c == Put(s, c)[p];
    }
  }

  lemma {:induction false} NextOnlyCounts(calls: seq<Call>)
    requires forall i :: 0 <= i < |calls| ==> calls[i].Next?
    requires |calls| <= MAX_INT
    ensures |RunAll(calls)| == |calls|
    ensures forall i :: 0 <= i < |calls| ==> RunAll(calls)[i].rotationIndex == i
  {
    if calls != [] {
      var n := |calls| - 1;
      NextOnlyCounts(calls[..n]);
      RingIsLatestEight(calls[..n]);
      AppendNext(RunAll(calls[..n]), calls[n]);
    }
  }

  /** Spawns that only ever call RecordNextRotation leave exactly the last eight rotations. */
  lemma NextOnlyLeavesLastEight(calls: seq<Call>)
    requires forall i :: 0 <= i < |calls| ==> calls[i].Next?
    requires |calls| <= MAX_INT
    ensures var kept := if |calls| > 8 then 8 else |calls|;
            |RunRing(calls)| == kept &&
            forall i :: 0 <= i < kept ==> RunRing(calls)[i].rotationIndex == |calls| - kept + i
  {
    NextOnlyCounts(calls);
    RingIsLatestEight(calls);
  }

  lemma AppendNext(all: seq<Checkpoint>, call: Call)
    requires call.Next? && |all| <= MAX_INT && Increasing(all)
    requires forall i :: 0 <= i < |all| ==> all[i].rotationIndex == i
    ensures RecordAll(all, ToRecord(all, call)) == all + [ToRecord(all, call)]
    ensures ToRecord(all, call).rotationIndex == |all|
  {
    RecordAllIsPut(all, ToRecord(all, call));
    RankIsUnique(all, |all|, |all|);
  }

  // ---- two breeds ----

  /** The files after a checkpoint was recorded for a breed. */
  function RecordedFor(files: map<string, seq<Checkpoint>>, breedId: string, c: Checkpoint): map<string,
      seq<Checkpoint>> {
    files[FileKey(breedId) := Record(RingAt(files, breedId), c)]
  }

  lemma NewestIsLast(ring: seq<Checkpoint>, c: Checkpoint)
    requires Increasing(ring) && c.rotationIndex == MAX_INT
    ensures var r := Record(ring, c); r != [] && r[|r| - 1] == c
  {
    RecordAllIsPut(ring, c);
    var p := Put(ring, c);
    AboveRank(ring, c);
    var k := Rank(ring, c.rotationIndex);
    if k < |ring| {
      assert ring[k].rotationIndex == MAX_INT >= ring[|ring| - 1].rotationIndex;
    }
    assert p == ring[..k] + [c];
  }

  /** Recording for one breed leaves another breed's ring alone, whatever is recorded, exactly when
      the two are kept in different files. */
  lemma SeparateIff(files: map<string, seq<Checkpoint>>, breedId: string, other: string)
    requires Increasing(RingAt(files, other))
    ensures (forall c: Checkpoint :: RingAt(RecordedFor(files, breedId, c), other) == RingAt(files, other)) <==>
            FileKey(breedId) != FileKey(other)
  {
    if FileKey(breedId) == FileKey(other) {
      var ring := RingAt(files, other);
      var summary := if ring == [] then "" else ring[|ring| - 1].summary + " ";
      var c := Checkpoint(MAX_INT, summary, "", 0);
      NewestIsLast(ring, c);
      assert RingAt(RecordedFor(files, breedId, c), other) == Record(ring, c);
      assert ring != [] ==> |ring[|ring| - 1].summary| < |c.summary|;
    }
  }

  /** Two breeds share a file exactly when their ids agree up to characters unfit for a file name. */
  lemma SameFileIff(a: string, b: string)
    requires a != "" && b != ""
    ensures FileKey(a) == FileKey(b) <==>
            |a| == |b| && forall i :: 0 <= i < |a| ==> SanitizeChar(a[i]) == SanitizeChar(b[i])
  {
    var x, y := FileKey(a), FileKey(b);
    assert |x| == |a| && |y| == |b|;
    if x == y {
      forall i | 0 <= i < |a| ensures SanitizeChar(a[i]) == SanitizeChar(b[i]) {
        assert x[i] == y[i];
      }
    } else if |a| == |b| {
      var i :| 0 <= i < |a| && x[i] != y[i];
    }
  }

  lemma CollidingBreeds()
    ensures "guide dog" != "guide_dog" && FileKey("guide dog") == FileKey("guide_dog")
  {
    var a, b := "guide dog", "guide_dog";
    assert a[5] == ' ' && b[5] == '_';
    forall i | 0 <= i < 9 ensures SanitizeChar(a[i]) == SanitizeChar(b[i]) {
      if i != 5 { assert a[i] == b[i]; }
    }
    SameFileIff(a, b);
  }

  // ---- rings in any order ----

  /** The checkpoints of one index, in the order of the list. */
  function WithIndex(s: seq<Checkpoint>, k: int): seq<Checkpoint> {
    if s == [] then []
    else
      var n := |s| - 1;
      WithIndex(s[..n], k) + if s[n].rotationIndex == k then [s[n]] else []
  }

  predicate Ascending(s: seq<Checkpoint>) {
    forall i, j :: 0 <= i < j < |s| ==> s[i].rotationIndex <= s[j].rotationIndex
  }

  lemma WithIndexSnoc(s: seq<Checkpoint>, c: Checkpoint, k: int)
    ensures WithIndex(s + [c], k) == WithIndex(s, k) + if c.rotationIndex == k then [c] else []
  {
    assert (s + [c])[..|s|] == s;
  }

  lemma {:induction false} InsertKeepsBag(s: seq<Checkpoint>, c: Checkpoint)
    ensures multiset(InsertStable(s, c)) == multiset(s) + multiset{c}
  {
    if s != [] && c.rotationIndex < s[|s| - 1].rotationIndex {
      assert s == s[..|s| - 1] + [s[|s| - 1]];
      InsertKeepsBag(s[..|s| - 1], c);
    }
  }

  lemma {:induction false} InsertKeepsOrder(s: seq<Checkpoint>, c: Checkpoint)
    requires Ascending(s)
    ensures Ascending(InsertStable(s, c))
  {
    if s != [] && c.rotationIndex < s[|s| - 1].rotationIndex {
      var init, last := s[..|s| - 1], s[|s| - 1];
      assert s == init + [last];
      InsertKeepsOrder(init, c);
      InsertKeepsBag(init, c);
      InsertedBelow(init, c, last);
    }
  }

  lemma {:induction false} InsertsLast(s: seq<Checkpoint>, c: Checkpoint, k: int)
    ensures WithIndex(InsertStable(s, c), k) == WithIndex(s, k) + if c.rotationIndex == k then [c] else []
  {
    if s != [] && c.rotationIndex < s[|s| - 1].rotationIndex {
      var init, last := s[..|s| - 1], s[|s| - 1];
      InsertsLast(init, c, k);
      WithIndexSnoc(InsertStable(init, c), last, k);
    } else {
      WithIndexSnoc(s, c, k);
    }
  }

  lemma InsertedBelow(s: seq<Checkpoint>, c: Checkpoint, last: Checkpoint)
    requires Ascending(s + [last]) && c.rotationIndex < last.rotationIndex
    requires Ascending(InsertStable(s, c)) && multiset(InsertStable(s, c)) == multiset(s) + multiset{c}
    ensures Ascending(InsertStable(s, c) + [last])
  {
    var r := InsertStable(s, c);
    forall i | 0 <= i < |r| ensures r[i].rotationIndex <= last.rotationIndex {
      assert r[i] in multiset(r);
      assert r[i] == c || r[i] in s;
      if r[i] in s {
        var j :| 0 <= j < |s| && s[j] == r[i];
        assert (s + [last])[j] == s[j] && (s + [last])[|s|] == last;
      }
    }
  }

  /** The sort is a stable one, for rings in any order and with indices repeated: ascending, the same
      checkpoints, those of one index in the order they were in. */
  lemma {:induction false} SortIsStable(s: seq<Checkpoint>, k: int)
    ensures Ascending(StableSort(s)) && multiset(StableSort(s)) == multiset(s)
    ensures WithIndex(StableSort(s), k) == WithIndex(s, k)
  {
    if s != [] {
      var init, last := s[..|s| - 1], s[|s| - 1];
      assert s == init + [last];
      SortIsStable(init, k);
      InsertKeepsBag(StableSort(init), last);
      InsertKeepsOrder(StableSort(init), last);
      InsertsLast(StableSort(init), last, k);
    }
  }

  /** The next index is 0 for an empty ring, and else one more than the last, as int64 counts. */
  lemma NextIndexCounts(ring: seq<Checkpoint>)
    ensures ring == [] ==> NextIndex(ring) == 0
    ensures ring != [] ==>
              (NextIndex(ring) - (ring[|ring| - 1].rotationIndex + 1)) % 0x1_0000_0000_0000_0000 == 0
  {
  }

  /** The characters fit for a file name, by number: letters, digits, dot, hyphen and underscore. */
  predicate FitsName(c: char) {
    var n := c as int;
    48 <= n <= 57 || 65 <= n <= 90 || 97 <= n <= 122 || n == 45 || n == 46 || n == 95
  }

  /** A file name keeps the characters of the id that fit, and puts an underscore for each of the others;
      the empty id has a name of its own. */
  lemma FileNameOf(breedId: string)
    ensures breedId == "" ==> FileKey(breedId) == "unnamed"
    ensures breedId != "" ==> |FileKey(breedId)| == |breedId|
    ensures forall i :: 0 <= i < |breedId| ==> FileKey(breedId)[i] == if FitsName(breedId[i]) then breedId[i] else '_'
  {
  }
}
