/** internal/ops/logbuffer.go and log_writer.go: the ring of recent log entries and the writer that
    cuts a byte stream into lines for it. Entry times are left out; the underlying destination of
    the writer is a parameter saying what its Write returned. */
module LogRing {
  import opened Basics

  type Byte = b: int | 0 <= b < 256

  datatype LogEntry = LogEntry(level: string, message: seq<Byte>)

  // ---- modular positions ----

  // Two positions less than a whole turn apart fall into different cells.
  lemma DistinctCells(a: nat, b: nat, c: nat)
    requires c >= 1 && a < b < a + c
    ensures a % c != b % c
  {
    var qa, qb := a / c, b / c;
    assert a == qa * c + a % c && b == qb * c + b % c;
    assert (qb - qa) * c == b - a - (b % c - a % c);
    ScaleAway(qb - qa, c);
  }

  lemma NextCell(a: nat, c: nat)
    requires c >= 1
    ensures (a % c + 1) % c == (a + 1) % c
    ensures (a + 1) % c == if a % c + 1 == c then 0 else a % c + 1
  {
    var q := a / c;
    assert a == q * c + a % c;
    if a % c + 1 == c {
      assert a + 1 == (q + 1) * c;
      DivisionIsUnique(a + 1, q + 1, 0, c);
      DivisionIsUnique(a % c + 1, 1, 0, c);
    } else {
      assert a + 1 == q * c + (a % c + 1);
      DivisionIsUnique(a + 1, q, a % c + 1, c);
      DivisionIsUnique(a % c + 1, 0, a % c + 1, c);
    }
  }

  // The cell `k` places after position `a`.
  lemma CellAt(a: nat, k: nat, c: nat)
    requires c >= 1
    ensures (a % c + k) % c == (a + k) % c
  {
    var q, m := a / c, (a % c + k) / c;
    assert a == q * c + a % c;
    assert a % c + k == m * c + (a % c + k) % c;
    assert a + k == (q + m) * c + (a % c + k) % c by {
      assert (q + m) * c == q * c + m * c;
    }
    DivisionIsUnique(a + k, q + m, (a % c + k) % c, c);
  }

  function Min(a: nat, b: nat): nat {
    if a < b then a else b
  }

  function Last<T>(s: seq<T>, n: nat): seq<T>
    requires n <= |s|
  {
    s[|s| - n..]
  }

  // ---- the ring ----

  class LogBuffer {
    const capacity: nat
    const entries: array<LogEntry>
    var head: nat
    var tail: nat
    var count: nat
    // every entry ever added, oldest first
    ghost var history: seq<LogEntry>

    ghost predicate Valid()
      reads this, entries
    {
      && capacity >= 1 && entries.Length == capacity
      && count == Min(|history|, capacity)
      && tail == |history| % capacity
      && head == (|history| - count) % capacity
      && forall j :: |history| - count <= j < |history| ==> entries[j % capacity] == history[j]
    }

    constructor (wanted: int)
      ensures Valid() && history == [] && capacity == if wanted < 1 then 1 else wanted
      ensures fresh(entries)
    {
      capacity := if wanted < 1 then 1 else wanted;
      entries := new LogEntry[if wanted < 1 then 1 else wanted](_ => LogEntry("", []));
      head, tail, count := 0, 0, 0;
      history := [];
    }

    method Add(level: string, msg: seq<Byte>)
      requires Valid()
      modifies this, entries
      ensures Valid()
      ensures history == old(history) + [LogEntry(level, msg)]
    {
      ghost var n := |history|;
      entries[tail] := LogEntry(level, msg);
      NextCell(n, capacity);
      tail := (tail + 1) % capacity;
      if count < capacity {
        count := count + 1;
      } else {
        NextCell(n - count, capacity);
        head := (head + 1) % capacity;
      }
      history := history + [LogEntry(level, msg)];
      forall j | |history| - count <= j < |history| ensures entries[j % capacity] == history[j] {
        if j < n { DistinctCells(j, n, capacity); }
      }
    }

    /** The last `n` entries in the order they were added; all of those kept when `n` is not
        positive or too large. */
    method Recent(n: int) returns (result: seq<LogEntry>)
      requires Valid()
      ensures result == Last(history, if n <= 0 || n > Min(|history|, capacity) then Min(|history|, capacity) else n)
    {
      var k := n;
      if k <= 0 || k > count {
        k := count;
      }
      if k == 0 {
        return [];
      }
      var start := tail - k;
      if start < 0 {
        start := start + capacity;
      }
      ghost var first := |history| - k;
      assert start == first % capacity by {
        StartCell(|history|, k, capacity);
      }
      result := [];
      for i := 0 to k
        invariant |result| == i
        invariant forall j :: 0 <= j < i ==> result[j] == history[first + j]
      {
        CellAt(first, i, capacity);
        assert entries[(first + i) % capacity] == history[first + i];
        result := result + [entries[(start + i) % capacity]];
      }
    }
  }

  lemma StartCell(total: nat, k: nat, c: nat)
    requires 1 <= k <= c && k <= total
    ensures (total - k) % c == if total % c - k < 0 then total % c - k + c else total % c - k
  {
    var q := total / c;
    assert total == q * c + total % c;
    if total % c >= k {
      DivisionIsUnique(total - k, q, total % c - k, c);
    } else {
      assert total - k == (q - 1) * c + (total % c - k + c);
      DivisionIsUnique(total - k, q - 1, total % c - k + c, c);
    }
  }

  // ---- cutting a stream into lines ----

  const NEWLINE: Byte := 10
  const SLASH: Byte := 47
  const SPACE: Byte := 32
  const COLON: Byte := 58

  // Position of the first newline, or the length when there is none.
  function IndexNewline(data: seq<Byte>): (i: nat)
    ensures i <= |data|
    ensures i < |data| ==> data[i] == NEWLINE
    ensures forall j :: 0 <= j < i ==> data[j] != NEWLINE
  {
    if data == [] || data[0] == NEWLINE then 0 else 1 + IndexNewline(data[1..])
  }

  function Lines(data: seq<Byte>): seq<seq<Byte>>
    decreases |data|
  {
    var i := IndexNewline(data);
    if i == |data| then [] else [data[..i]] + Lines(data[i + 1..])
  }

  /** What follows the last newline. */
  function Remainder(data: seq<Byte>): (r: seq<Byte>)
    decreases |data|
  {
    var i := IndexNewline(data);
    if i == |data| then data else Remainder(data[i + 1..])
  }

  // Ending every line with a newline again.
  function Unlines(lines: seq<seq<Byte>>): seq<Byte> {
    if lines == [] then [] else lines[0] + [NEWLINE] + Unlines(lines[1..])
  }

  predicate OneLine(line: seq<Byte>) {
    forall i :: 0 <= i < |line| ==> line[i] != NEWLINE
  }

  lemma CutStep(data: seq<Byte>)
    requires IndexNewline(data) < |data|
    ensures var i := IndexNewline(data); var line, rest := data[..i] + [NEWLINE], data[i + 1..];
            && data == line + rest
            && Unlines(Lines(data)) == line + Unlines(Lines(rest))
            && Remainder(data) == Remainder(rest)
  {
    var i := IndexNewline(data);
    assert Lines(data) == [data[..i]] + Lines(data[i + 1..]);
  }

  /** Cutting loses nothing: the lines and the remainder put together again are the stream. */
  lemma {:induction false} LinesRejoin(data: seq<Byte>)
    ensures Unlines(Lines(data)) + Remainder(data) == data
    decreases |data|
  {
    var i := IndexNewline(data);
    if i < |data| {
      CutStep(data);
      LinesRejoin(data[i + 1..]);
      Reassociate(data[..i] + [NEWLINE], Unlines(Lines(data[i + 1..])), Remainder(data[i + 1..]));
    }
  }

  lemma Reassociate(a: seq<Byte>, b: seq<Byte>, c: seq<Byte>)
    ensures (a + b) + c == a + (b + c)
  {
  }

  lemma {:induction false} LinesAreLines(data: seq<Byte>)
    ensures (forall line :: line in Lines(data) ==> OneLine(line)) && OneLine(Remainder(data))
    decreases |data|
  {
    var i := IndexNewline(data);
    if i < |data| {
      LinesAreLines(data[i + 1..]);
      assert OneLine(data[..i]);
    }
  }

  /** The message of a line, without the standard date-and-time prefix. */
  function Strip(line: seq<Byte>): seq<Byte> {
    if |line| > 20 && line[4] == SLASH && line[7] == SLASH && line[10] == SPACE && line[13] == COLON then line[20..]
    else line
  }

  // The entry a line leaves in the ring; an empty line leaves none.
  function EntryOf(level: string, line: seq<Byte>): seq<LogEntry> {
    if line == [] then [] else [LogEntry(level, Strip(line))]
  }

  function EntriesOf(level: string, lines: seq<seq<Byte>>): seq<LogEntry> {
    if lines == [] then [] else EntryOf(level, lines[0]) + EntriesOf(level, lines[1..])
  }

  /** What one successful write makes of the ring's history and the leftover line. */
  function Feed(level: string, history: seq<LogEntry>, leftover: seq<Byte>, p: seq<Byte>): (seq<LogEntry>, seq<Byte>) {
    (history + EntriesOf(level, Lines(leftover + p)), Remainder(leftover + p))
  }

  class LogWriter {
    const buf: LogBuffer
    const level: string
    var leftover: seq<Byte>

    constructor (buf: LogBuffer, level: string)
      ensures this.buf == buf && this.level == level && leftover == []
    {
      this.buf, this.level, leftover := buf, level, [];
    }

    method ParseAndAdd(line: seq<Byte>)
      requires buf.Valid()
      modifies buf, buf.entries
      ensures buf.Valid() && buf.history == old(buf.history) + EntryOf(level, line)
    {
      if |line| == 0 {
        return;
      }
      var msg := line;
      if |msg| > 20 && msg[4] == SLASH && msg[7] == SLASH && msg[10] == SPACE && msg[13] == COLON {
        msg := msg[20..];
      }
      buf.Add(level, msg);
    }

    /** `destN` and `destFailed` are what the underlying writer answered; after a failure nothing
        of the chunk is recorded. */
    method Write(p: seq<Byte>, destN: int, destFailed: bool) returns (n: int, failed: bool)
      requires buf.Valid()
      modifies this, buf, buf.entries
      ensures n == destN && failed == destFailed && buf.Valid()
      ensures destFailed ==> buf.history == old(buf.history) && leftover == old(leftover)
      ensures !destFailed ==> (buf.history, leftover) == Feed(level, old(buf.history), old(leftover), p)
    {
      if destFailed {
        return destN, true;
      }
      var data := leftover + p;
      leftover := [];
      ghost var all := data;
      ghost var before := buf.history;
      while true
        invariant buf.Valid()
        invariant buf.history + EntriesOf(level, Lines(data)) == before + EntriesOf(level, Lines(all))
        invariant Remainder(data) == Remainder(all)
        decreases |data|
      {
        var idx := IndexNewline(data);
        if idx == |data| {
          assert buf.history + EntriesOf(level, Lines(data)) == buf.history;
          leftover := data;
          break;
        }
        var line := data[..idx];
        assert Lines(data) == [line] + Lines(data[idx + 1..]);
        ghost var sofar, rest := buf.history, EntriesOf(level, Lines(data[idx + 1..]));
        assert EntriesOf(level, Lines(data)) == EntryOf(level, line) + rest;
        data := data[idx + 1..];
        ParseAndAdd(line);
        assert sofar + (EntryOf(level, line) + rest) == sofar + EntryOf(level, line) + rest;
      }
      return destN, false;
    }

    method Flush()
      requires buf.Valid()
      modifies this, buf, buf.entries
      ensures buf.Valid() && leftover == []
      ensures buf.history == old(buf.history) + EntryOf(level, old(leftover))
    {
      if |leftover| > 0 {
        ParseAndAdd(leftover);
        leftover := [];
      }
    }
  }

  // ---- chunking does not matter ----

  /** Reading on from what a first chunk left over is reading the joined stream. */
  lemma {:induction false} LinesOfJoin(a: seq<Byte>, b: seq<Byte>)
    ensures Lines(a + b) == Lines(a) + Lines(Remainder(a) + b)
    ensures Remainder(a + b) == Remainder(Remainder(a) + b)
    decreases |a|
  {
    var i := IndexNewline(a);
    if i == |a| {
      assert Lines(a) == [];
    } else {
      FirstNewline(a, b);
      assert (a + b)[..i] == a[..i];
      assert (a + b)[i + 1..] == a[i + 1..] + b;
      LinesOfJoin(a[i + 1..], b);
    }
  }

  lemma FirstNewline(a: seq<Byte>, b: seq<Byte>)
    requires IndexNewline(a) < |a|
    ensures IndexNewline(a + b) == IndexNewline(a)
  {
    var i, j := IndexNewline(a), IndexNewline(a + b);
    assert (a + b)[i] == NEWLINE;
    if j < i { assert (a + b)[j] == a[j]; }
  }

  lemma {:induction false} EntriesOfConcat(level: string, a: seq<seq<Byte>>, b: seq<seq<Byte>>)
    ensures EntriesOf(level, a + b) == EntriesOf(level, a) + EntriesOf(level, b)
  {
    if a == [] {
      assert a + b == b;
    } else {
      assert (a + b)[1..] == a[1..] + b;
      EntriesOfConcat(level, a[1..], b);
    }
  }

  function Join(chunks: seq<seq<Byte>>): seq<Byte> {
    if chunks == [] then [] else Join(chunks[..|chunks| - 1]) + chunks[|chunks| - 1]
  }

  /** History and leftover of a fresh ring and writer after a run of successful writes. */
  function AfterWrites(level: string, chunks: seq<seq<Byte>>): (seq<LogEntry>, seq<Byte>) {
    if chunks == [] then ([], [])
    else
      var (h, left) := AfterWrites(level, chunks[..|chunks| - 1]);
      Feed(level, h, left, chunks[|chunks| - 1])
  }

  /** However the stream is cut, the ring has received the non-empty complete lines of the whole
      stream, stripped and in order, and the writer holds what follows the last newline. */
  lemma {:induction false} ChunkingIsInvisible(level: string, chunks: seq<seq<Byte>>)
    ensures AfterWrites(level, chunks) == (EntriesOf(level, Lines(Join(chunks))), Remainder(Join(chunks)))
  {
    if chunks != [] {
      var init, last := chunks[..|chunks| - 1], chunks[|chunks| - 1];
      ChunkingIsInvisible(level, init);
      LinesOfJoin(Join(init), last);
      EntriesOfConcat(level, Lines(Join(init)), Lines(Remainder(Join(init)) + last));
    }
  }

  /** A fresh ring fed a stream chunk by chunk, and then asked for its recent entries: the last of the
      non-empty complete lines of the whole stream, stripped, however it was cut. */
  method StreamThenRecent(capacity: int, level: string, chunks: seq<seq<Byte>>, n: int) returns (result: seq<LogEntry>)
    ensures var all := EntriesOf(level, Lines(Join(chunks)));
            var kept := Min(|all|, if capacity < 1 then 1 else capacity);
            result == Last(all, if n <= 0 || n > kept then kept else n)
  {
    var buf := new LogBuffer(capacity);
    var w := new LogWriter(buf, level);
    for i := 0 to |chunks|
      invariant w.buf == buf && w.level == level && buf.Valid()
      invariant buf.capacity == if capacity < 1 then 1 else capacity
      invariant fresh(w) && fresh(buf) && fresh(buf.entries)
      invariant (buf.history, w.leftover) == AfterWrites(level, chunks[..i])
    {
      assert chunks[..i + 1][..i] == chunks[..i];
      var written, failed := w.Write(chunks[i], |chunks[i]|, false);
    }
    assert chunks[..|chunks|] == chunks;
    ChunkingIsInvisible(level, chunks);
    result := buf.Recent(n);
  }

  /** Two ways of cutting one stream cannot be told apart. */
  lemma SameStreamSameState(level: string, a: seq<seq<Byte>>, b: seq<seq<Byte>>)
    requires Join(a) == Join(b)
    ensures AfterWrites(level, a) == AfterWrites(level, b)
  {
    ChunkingIsInvisible(level, a);
    ChunkingIsInvisible(level, b);
  }

  // ---- what a line leaves ----

  /** The shape of "2006/01/02 15:04:05 ": twenty bytes with slashes behind year and month, a blank behind
      the day and a colon behind the hour. */
  predicate LooksDated(prefix: seq<Byte>) {
    |prefix| == 20 && prefix[4] == 47 && prefix[7] == 47 && prefix[10] == 32 && prefix[13] == 58
  }

  /** A dated line leaves its message, any other line all of itself. */
  lemma LineLeaves(level: string, line: seq<Byte>)
    ensures line == [] ==> EntryOf(level, line) == []
    ensures forall prefix, message :: line == prefix + message && LooksDated(prefix) && message != [] ==>
              EntryOf(level, line) == [LogEntry(level, message)]
    ensures line != [] && (|line| <= 20 || !LooksDated(line[..20])) ==> EntryOf(level, line) == [LogEntry(level, line)]
  {
    forall prefix, message | line == prefix + message && LooksDated(prefix) && message != []
      ensures EntryOf(level, line) == [LogEntry(level, message)]
    {
      assert line[20..] == message;
    }
    if |line| > 20 {
      var p := line[..20];
      assert p[4] == line[4] && p[7] == line[7] && p[10] == line[10] && p[13] == line[13];
    }
  }

  /** A line is what ends in a line feed: written after a full line, it leaves its entry and nothing to
      complete; what ends in none leaves no entry yet. */
  lemma LineFed(level: string, history: seq<LogEntry>, line: seq<Byte>)
    requires forall i :: 0 <= i < |line| ==> line[i] != 10
    ensures Feed(level, history, [], line + [10]) == (history + EntryOf(level, line), [])
    ensures Feed(level, history, [], line) == (history, line)
  {
    LastLine(line);
    var none: seq<Byte> := [];
    assert none + (line + [10]) == line + [10] && none + line == line;
    OneEntry(level, line);
    assert history + EntriesOf(level, []) == history;
  }

  lemma OneEntry(level: string, line: seq<Byte>)
    ensures EntriesOf(level, [line]) == EntryOf(level, line)
  {
    assert [line][1..] == [];
    assert EntryOf(level, line) + EntriesOf(level, []) == EntryOf(level, line);
  }

  lemma LastLine(line: seq<Byte>)
    requires forall i :: 0 <= i < |line| ==> line[i] != 10
    ensures Lines(line + [10]) == [line] && Remainder(line + [10]) == []
    ensures Lines(line) == [] && Remainder(line) == line
  {
    var data := line + [10];
    assert data[|line|] == 10;
    assert IndexNewline(data) == |line|;
    assert data[..|line|] == line && data[|line| + 1..] == [];
  }
}
