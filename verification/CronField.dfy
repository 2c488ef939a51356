/** parseField of internal/scheduler/cron.go (lines 116-158): one cron field as a set of values.
    Text helpers follow Go's strings and strconv; the stepping loop runs on wrapping int64. */
module CronField {
  import opened Basics
  import opened Numerals
  import opened Text

  // ---- text ----

  // The position of the first `c`, or the length when there is none.
  function Index(s: string, c: char): (i: nat)
    ensures i <= |s|
    ensures i < |s| ==> s[i] == c
    ensures c !in s[..i]
  {
    if s == [] || s[0] == c then 0 else
      var i := Index(s[1..], c);
      assert s[..i + 1] == [s[0]] + s[1..][..i];
      i + 1
  }

  function Split(s: string, sep: char): (parts: seq<string>)
    ensures parts != []
    decreases |s|
  {
    var i := Index(s, sep);
    if i == |s| then [s] else [s[..i]] + Split(s[i + 1..], sep)
  }

  predicate AllDigits(s: string) {
    forall i :: 0 <= i < |s| ==> '0' <= s[i] <= '9'
  }

  /** strconv.Atoi: an optional sign and digits, within int64. */
  function Atoi(s: string): Option<Int64> {
    var signed := s != [] && (s[0] == '-' || s[0] == '+');
    var digits := if signed then s[1..] else s;
    if digits == [] || !AllDigits(digits) then None
    else
      var n := if signed && s[0] == '-' then -ReadDecimal(digits) else ReadDecimal(digits);
      if MIN_INT <= n <= MAX_INT then Some(n) else None
  }

  // ---- stepping through a range ----

  function Add64(a: Int64, b: Int64): Int64 {
    if a + b > MAX_INT then a + b - 0x1_0000_0000_0000_0000
    else if a + b < MIN_INT then a + b + 0x1_0000_0000_0000_0000
    else a + b
  }

  // Shrinks with every turn of the loop, also when a huge step makes `i` wrap around.
  function StrideMeasure(i: Int64, hi: int, step: Int64): int {
    if step < MAX_INT - 200 then hi - i
    else if i < -1000 then 2 * (i + step + 1000) + 1
    else 2 * (i + 1000)
  }

  /** The values `for i := lo; i <= hi; i += step` visits from `i` on, on int64. */
  function Stride(i: Int64, hi: int, step: Int64): set<int>
    requires 0 <= hi < 100 && i <= hi && step >= 1
    requires step < MAX_INT - 200 || i >= -1000 || i < -0x4000_0000_0000_0000
    decreases StrideMeasure(i, hi, step)
  {
    var next := Add64(i, step);
    {i as int} + if next <= hi then Stride(next, hi, step) else {}
  }

  /** The loop leaves its range exactly when its first addition overflows. */
  predicate Overflows(lo: int, step: Int64) {
    lo + step > MAX_INT
  }

  lemma StrideUnfold(i: Int64, hi: int, step: Int64, v: int)
    requires 0 <= i <= hi < 100 && step >= 1 && !Overflows(i, step)
    ensures v in Stride(i, hi, step) <==> v == i || (i + step <= hi && v in Stride(i + step, hi, step))
  {
  }

  /** Without overflow the loop visits exactly the values of the range a whole number of steps
      from its start. */
  lemma {:induction false} StrideExact(i: Int64, hi: int, step: Int64, v: int)
    requires 0 <= i <= hi < 100 && step >= 1 && !Overflows(i, step)
    ensures v in Stride(i, hi, step) <==> i <= v <= hi && (v - i) % step == 0
    decreases hi - i
  {
    StrideUnfold(i, hi, step, v);
    if i + step <= hi {
      StrideExact(i + step, hi, step, v);
    }
    if v >= i + step {
      ModShift(v - (i + step), step);
      assert (v - i) % step == (v - (i + step)) % step;
    } else if v >= i {
      SmallMod(v - i, step);
    }
  }

  lemma SmallMod(x: int, step: int)
    requires 0 <= x < step
    ensures x % step == x
  {
  }

  /** The loop stays inside its range exactly when its first addition does not overflow. */
  lemma StrideInRange(lo: Int64, hi: int, step: Int64)
    requires 0 <= lo <= hi < 100 && step >= 1
    ensures lo in Stride(lo, hi, step)
    ensures !Overflows(lo, step) ==> forall v :: v in Stride(lo, hi, step) ==> lo <= v <= hi
    ensures Overflows(lo, step) ==> exists v :: v in Stride(lo, hi, step) && v < 0
  {
    if !Overflows(lo, step) {
      forall v | v in Stride(lo, hi, step) ensures lo <= v <= hi {
        StrideExact(lo, hi, step, v);
      }
    } else {
      var next := Add64(lo, step);
      assert next < 0;
      assert next in Stride(next, hi, step);
    }
  }

  const TWO_TO_63 := 0x8000_0000_0000_0000

  // How far below its start the overflowing loop comes back, every second turn.
  function Backstep(step: Int64): int {
    2 * (TWO_TO_63 - step)
  }

  // The two turns after the first value: far below zero, then `Backstep` below the start.
  lemma TwoTurns(i: Int64, hi: int, step: Int64)
    requires 0 <= i <= hi < 100 && step >= 1 && Overflows(i, step)
    ensures step > MAX_INT - 200 && -100 < i - Backstep(step) < i
    ensures Add64(i, step) == i + step - 2 * TWO_TO_63 < -0x4000_0000_0000_0000
    ensures Add64(Add64(i, step), step) == i - Backstep(step)
    ensures forall v :: v >= 0 ==> (v in Stride(i, hi, step) <==> v == i || v in Stride(i - Backstep(step), hi, step))
  {
    var a := Add64(i, step);
    assert Stride(i, hi, step) == {i as int} + Stride(a, hi, step);
    assert Stride(a, hi, step) == {a as int} + Stride(i - Backstep(step), hi, step);
  }

  lemma LastTurn(b: Int64, hi: int, step: Int64)
    requires -100 < b <= hi && 0 <= hi < 100 && step > MAX_INT - 200 && !Overflows(b, step)
    ensures Stride(b, hi, step) == {b as int}
  {
  }

  /** When the first addition overflows, the values the loop visits that are no negative numbers lead
      down from its start. */
  lemma {:induction false} StrideWraps(i: Int64, hi: int, step: Int64, v: int)
    requires 0 <= i <= hi < 100 && step >= 1 && Overflows(i, step) && v >= 0
    ensures v in Stride(i, hi, step) <==> v <= i && (i - v) % Backstep(step) == 0
    decreases i
  {
    TwoTurns(i, hi, step);
    var k := Backstep(step);
    var b := i - k;
    if b >= 0 && Overflows(b, step) {
      StrideWraps(b, hi, step, v);
    } else {
      LastTurn(b, hi, step);
      if 0 <= v <= b { SmallMod(b - v, k); }
    }
    if v <= b {
      ModShift(b - v, k);
    } else if v <= i {
      SmallMod(i - v, k);
    }
  }

  method StrideLoop(lo: Int64, hi: int, step: Int64, steps: set<int>) returns (out: set<int>)
    requires 0 <= lo <= hi < 100 && step >= 1
    ensures out == steps + Stride(lo, hi, step)
  {
    out := steps;
    var i: Int64 := lo;
    while i <= hi
      invariant step < MAX_INT - 200 || i >= -1000 || i < -0x4000_0000_0000_0000
      invariant steps + Stride(lo, hi, step) == if i <= hi then out + Stride(i, hi, step) else out
      decreases if i > hi then 0 else StrideMeasure(i, hi, step) + 1
    {
      out := out + {i as int};
      i := Add64(i, step);
    }
  }

  // ---- one comma-separated part ----

  datatype Part =
    | Range(lo: Int64, hi: Int64, step: Int64)
    | Single(v: Int64)
    | Bad

  function ReadBody(body: string, min: Int64, max: Int64, step: Int64): Part {
    if body == "*" then Range(min, max, step)
    else if '-' in body then
      var j := Index(body, '-');
      assert j < |body| by { assert body[..|body|] == body; }
      var lo := Atoi(body[..j]);
      var hi := Atoi(body[j + 1..]);
      if lo.None? || hi.None? || lo.value < min || hi.value > max || lo.value > hi.value then Bad
      else Range(lo.value, hi.value, step)
    else
      var v := Atoi(body);
      if v.None? || v.value < min || v.value > max then Bad else Single(v.value)
  }

  /** A part that parsed: its bounds lie in the field's range. */
  predicate Proper(p: Part, min: Int64, max: Int64) {
    match p
    case Range(lo, hi, step) => min <= lo <= hi <= max && step >= 1
    case Single(v) => min <= v <= max
    case Bad => false
  }

  /** What one part asks for; a step after a single value is read and ignored. */
  function ReadPart(text: string, min: Int64, max: Int64): (p: Part)
    ensures min <= max && !p.Bad? ==> Proper(p, min, max)
  {
    var s := TrimSpace(text);
    var si := Index(s, '/');
    if si < |s| then
      var n := Atoi(s[si + 1..]);
      if n.None? || n.value <= 0 then Bad else ReadBody(s[..si], min, max, n.value)
    else
      ReadBody(s, min, max, 1)
  }

  predicate PartOverflows(p: Part) {
    p.Range? && Overflows(p.lo, p.step)
  }

  /** The values from 0 on that a part stands for: from the lower bound up by steps, or, when that
      overflows, down from it. */
  predicate PartAllows(p: Part, v: int) {
    match p
    case Range(lo, hi, step) =>
      if Overflows(lo, step) then v <= lo && step >= 1 && (lo - v) % Backstep(step) == 0
      else lo <= v <= hi && step >= 1 && (v - lo) % step == 0
    case Single(x) => v == x
    case Bad => false
  }

  // The five calls of parseField have small bounds, the lower one 0 or 1.
  predicate Bounds(min: Int64, max: Int64) {
    0 <= min <= max < 100
  }

  function PartSteps(p: Part, min: Int64, max: Int64): set<int>
    requires Bounds(min, max) && Proper(p, min, max)
  {
    match p
    case Range(lo, hi, step) => Stride(lo, hi, step)
    case Single(v) => {v as int}
  }

  lemma PartFacts(p: Part, min: Int64, max: Int64)
    requires Bounds(min, max) && Proper(p, min, max)
    ensures exists v :: v in PartSteps(p, min, max) && min <= v <= max
    ensures forall v :: v >= 0 ==> (v in PartSteps(p, min, max) <==> PartAllows(p, v))
    ensures !PartOverflows(p) ==> forall v :: v in PartSteps(p, min, max) ==> min <= v <= max
    ensures PartOverflows(p) ==> exists v :: v in PartSteps(p, min, max) && v < 0
  {
    match p {
      case Range(lo, hi, step) =>
        StrideInRange(lo, hi, step);
        assert lo in PartSteps(p, min, max);
        forall v | v >= 0 ensures v in PartSteps(p, min, max) <==> PartAllows(p, v) {
          if PartOverflows(p) { StrideWraps(lo, hi, step, v); } else { StrideExact(lo, hi, step, v); }
        }
      case Single(v) =>
        assert v in PartSteps(p, min, max);
    }
  }

  // ---- a whole field ----

  datatype FieldSet = FieldSet(all: bool, steps: set<int>)
  {
    predicate Matches(v: int) {
      all || v in steps
    }
  }

  predicate AllProper(parts: seq<Part>, min: Int64, max: Int64) {
    forall i :: 0 <= i < |parts| ==> Proper(parts[i], min, max)
  }

  function StepsOf(parts: seq<Part>, min: Int64, max: Int64): set<int>
    requires Bounds(min, max) && AllProper(parts, min, max)
  {
    if parts == [] then {}
    else
      var n := |parts| - 1;
      StepsOf(parts[..n], min, max) + PartSteps(parts[n], min, max)
  }

  /** The parts of a field, read one by one. */
  function PartsOf(s: string, min: Int64, max: Int64): (parts: seq<Part>)
    ensures parts != []
  {
    var texts := Split(s, ',');
    seq(|texts|, i requires 0 <= i < |texts| => ReadPart(texts[i], min, max))
  }

  lemma ProperUnlessBad(s: string, min: Int64, max: Int64)
    requires Bounds(min, max) && Bad !in PartsOf(s, min, max)
    ensures AllProper(PartsOf(s, min, max), min, max)
  {
    var parts := PartsOf(s, min, max);
    forall i | 0 <= i < |parts| ensures Proper(parts[i], min, max) {
      assert parts[i] in parts;
    }
  }

  function ParseFieldSpec(s: string, min: Int64, max: Int64): Option<FieldSet>
    requires Bounds(min, max)
  {
    if s == "*" then Some(FieldSet(true, {}))
    else if Bad in PartsOf(s, min, max) then None
    else
      ProperUnlessBad(s, min, max);
      Some(FieldSet(false, StepsOf(PartsOf(s, min, max), min, max)))
  }

  // The steps of one more part joined to those collected so far.
  method AddPart(p: Part, min: Int64, max: Int64, steps: set<int>) returns (out: set<int>)
    requires Bounds(min, max) && Proper(p, min, max)
    ensures out == steps + PartSteps(p, min, max)
  {
    match p {
      case Range(lo, hi, step) => out := StrideLoop(lo, hi, step, steps);
      case Single(v) => out := steps + {v as int};
    }
  }

  lemma StepsOfSnoc(parts: seq<Part>, i: nat, min: Int64, max: Int64)
    requires Bounds(min, max) && i < |parts| && AllProper(parts[..i + 1], min, max)
    ensures AllProper(parts[..i], min, max) && Proper(parts[i], min, max)
    ensures StepsOf(parts[..i + 1], min, max) == StepsOf(parts[..i], min, max) + PartSteps(parts[i], min, max)
  {
    assert parts[..i + 1][..i] == parts[..i];
    assert parts[..i + 1][i] == parts[i];
    forall k | 0 <= k < i ensures parts[..i][k] == parts[..i + 1][k] {}
  }

  // The loop over the comma-separated parts; it stops at the first that does not parse.
  method CollectSteps(texts: seq<string>, min: Int64, max: Int64, ghost parts: seq<Part>)
    returns (ok: bool, steps: set<int>)
    requires Bounds(min, max)
    requires |parts| == |texts| && forall i :: 0 <= i < |texts| ==> parts[i] == ReadPart(texts[i], min, max)
    ensures ok ==> AllProper(parts, min, max) && steps == StepsOf(parts, min, max)
    ensures !ok ==> Bad in parts
  {
    steps := {};
    for i := 0 to |texts|
      invariant AllProper(parts[..i], min, max)
      invariant steps == StepsOf(parts[..i], min, max)
    {
      var p := ReadPart(texts[i], min, max);
      assert p == parts[i];
      if p.Bad? {
        return false, {};
      }
      assert parts[..i + 1] == parts[..i] + [p];
      StepsOfSnoc(parts, i, min, max);
      steps := AddPart(p, min, max, steps);
    }
    assert parts[..|texts|] == parts;
    return true, steps;
  }

  lemma ProperIsNotBad(parts: seq<Part>, min: Int64, max: Int64)
    requires AllProper(parts, min, max)
    ensures Bad !in parts
  {
  }

  method ParseField(s: string, min: Int64, max: Int64) returns (r: Option<FieldSet>)
    requires Bounds(min, max)
    ensures r == ParseFieldSpec(s, min, max)
  {
    if s == "*" {
      return Some(FieldSet(true, {}));
    }
    var ok, steps := CollectSteps(Split(s, ','), min, max, PartsOf(s, min, max));
    if !ok {
      return None;
    }
    ProperIsNotBad(PartsOf(s, min, max), min, max);
    return Some(FieldSet(false, steps));
  }

  lemma {:induction false} StepsOfMember(parts: seq<Part>, min: Int64, max: Int64, v: int)
    requires Bounds(min, max) && AllProper(parts, min, max)
    ensures v in StepsOf(parts, min, max) <==>
            exists p :: p in parts && Proper(p, min, max) && v in PartSteps(p, min, max)
  {
    if parts != [] {
      var n := |parts| - 1;
      StepsOfMember(parts[..n], min, max, v);
      assert parts == parts[..n] + [parts[n]];
    }
  }

  /** Every field that parses allows some value of its range, so the scan has something to find. */
  lemma FieldUsable(s: string, min: Int64, max: Int64)
    requires Bounds(min, max) && ParseFieldSpec(s, min, max).Some?
    ensures exists v :: min <= v <= max && ParseFieldSpec(s, min, max).value.Matches(v)
  {
    var f := ParseFieldSpec(s, min, max).value;
    if f.all {
      assert f.Matches(min);
    } else {
      var parts := PartsOf(s, min, max);
      ProperUnlessBad(s, min, max);
      PartFacts(parts[0], min, max);
      var v :| v in PartSteps(parts[0], min, max) && min <= v <= max;
      StepsOfMember(parts, min, max, v);
      assert f.Matches(v);
    }
  }

  lemma StepsInRangeIff(parts: seq<Part>, min: Int64, max: Int64)
    requires Bounds(min, max) && AllProper(parts, min, max)
    ensures (forall v :: v in StepsOf(parts, min, max) ==> min <= v <= max) <==>
            forall p :: p in parts ==> !PartOverflows(p)
  {
    if p :| p in parts && PartOverflows(p) {
      PartFacts(p, min, max);
      var v :| v in PartSteps(p, min, max) && v < 0;
      StepsOfMember(parts, min, max, v);
    } else {
      forall v | v in StepsOf(parts, min, max) ensures min <= v <= max {
        StepsOfMember(parts, min, max, v);
        var p :| p in parts && Proper(p, min, max) && v in PartSteps(p, min, max);
        PartFacts(p, min, max);
      }
    }
  }

  /** The parsed set stays inside the field's range exactly when no part's step is so large that
      stepping from its lower bound overflows int64. */
  lemma FieldInRangeIff(s: string, min: Int64, max: Int64)
    requires Bounds(min, max) && ParseFieldSpec(s, min, max).Some? && s != "*"
    ensures (forall v :: v in ParseFieldSpec(s, min, max).value.steps ==> min <= v <= max) <==>
            forall p :: p in PartsOf(s, min, max) ==> !PartOverflows(p)
  {
    ProperUnlessBad(s, min, max);
    StepsInRangeIff(PartsOf(s, min, max), min, max);
    assert ParseFieldSpec(s, min, max).value.steps == StepsOf(PartsOf(s, min, max), min, max);
  }

  /** A value, none of which is negative, is allowed exactly when one of the parts stands for it. */
  lemma FieldMeaning(s: string, min: Int64, max: Int64, v: int)
    requires Bounds(min, max) && ParseFieldSpec(s, min, max).Some? && s != "*" && v >= 0
    ensures ParseFieldSpec(s, min, max).value.Matches(v) <==>
            exists p :: p in PartsOf(s, min, max) && PartAllows(p, v)
  {
    var parts := PartsOf(s, min, max);
    ProperUnlessBad(s, min, max);
    StepsOfMember(parts, min, max, v);
    assert ParseFieldSpec(s, min, max).value.Matches(v) <==> v in StepsOf(parts, min, max);
    if v in StepsOf(parts, min, max) {
      var p :| p in parts && Proper(p, min, max) && v in PartSteps(p, min, max);
      PartFacts(p, min, max);
      assert PartAllows(p, v);
    }
    if p :| p in parts && PartAllows(p, v) {
      PartFacts(p, min, max);
      assert v in PartSteps(p, min, max);
    }
  }

  /** Stepping by the largest int64 from `lo` comes back to `lo - 2`. */
  lemma HugeStepLeavesRange(lo: Int64)
    requires 1 <= lo < 100
    ensures Overflows(lo, MAX_INT) && lo - 2 in Stride(lo, lo, MAX_INT)
  {
    var a := Add64(lo, MAX_INT);
    var b := Add64(a, MAX_INT);
    assert b == lo - 2;
    assert b in Stride(b, lo, MAX_INT);
    assert b in Stride(a, lo, MAX_INT);
  }
}
