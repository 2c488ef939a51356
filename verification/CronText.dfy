/** Writing cron parts and fields as text, and the proof that parseField reads them back: the text
    handling of internal/scheduler/cron.go (lines 116-158) loses nothing. */
module CronText {
  import opened Basics
  import opened Numerals
  import opened Text
  import opened CronField

  // ---- numerals ----

  predicate Plain(c: char) {
    '0' <= c <= '9' || c == '-' || c == '/' || c == '*'
  }

  lemma {:induction false} DecimalDigits(n: nat)
    ensures Decimal(n) != [] && AllDigits(Decimal(n))
  {
    if n >= 10 { DecimalDigits(n / 10); }
  }

  lemma AtoiDecimal(n: nat)
    requires n <= MAX_INT
    ensures Atoi(Decimal(n)) == Some(n)
  {
    DecimalDigits(n);
    ReadDecimalBack(n);
    assert '0' <= Decimal(n)[0] <= '9';
  }

  /** A sign in front is read as one; a number beyond int64 is none. */
  lemma AtoiSigns(n: nat)
    ensures n <= MAX_INT ==> Atoi("+" + Decimal(n)) == Some(n)
    ensures n <= MAX_INT + 1 ==> Atoi("-" + Decimal(n)) == Some(0 - n)
    ensures n > MAX_INT ==> Atoi(Decimal(n)) == None
  {
    DecimalDigits(n);
    ReadDecimalBack(n);
    assert ("+" + Decimal(n))[1..] == Decimal(n);
    assert ("-" + Decimal(n))[1..] == Decimal(n);
    assert '0' <= Decimal(n)[0] <= '9';
  }

  /** Text without a digit, or with anything else behind its first character, is no number. */
  lemma AtoiRefuses(s: string)
    requires s == "" || s == "+" || s == "-" || exists i :: 0 < i < |s| && !('0' <= s[i] <= '9')
    ensures Atoi(s) == None
  {
    if i :| 0 < i < |s| && !('0' <= s[i] <= '9') {
      assert s[1..][i - 1] == s[i];
    }
  }

  // ---- searching in joined text ----

  // A text cut at its first `c` gives back the two sides.
  lemma {:induction false} IndexAfter(a: string, c: char, b: string)
    requires c !in a
    ensures var s := a + [c] + b;
            c in s && Index(s, c) == |a| < |s| && s[..|a|] == a && s[|a| + 1..] == b
  {
    var s := a + [c] + b;
    assert s[|a|] == c;
    if a != [] {
      assert s[1..] == a[1..] + [c] + b;
      IndexAfter(a[1..], c, b);
    }
  }

  lemma IndexAbsent(s: string, c: char)
    requires c !in s
    ensures Index(s, c) == |s|
  {
  }

  lemma PlainTrims(s: string)
    requires forall i :: 0 <= i < |s| ==> Plain(s[i])
    ensures TrimSpace(s) == s
  {
    if s != [] {
      assert !IsSpace(s[0]) && !IsSpace(s[|s| - 1]);
    }
  }

  // ---- parts ----

  // The ways to write a part: "*", "*/n", "lo-hi", "lo-hi/n", "v" and "v/n".
  datatype Form =
    | Every
    | EveryNth(step: Int64)
    | FromTo(lo: Int64, hi: Int64)
    | Steps(lo: Int64, hi: Int64, step: Int64)
    | Only(v: Int64)
    | OnlyNth(v: Int64, step: Int64)

  /** What a part so written asks for. Without a step every value of a range counts; on a single value a
      step is idle. */
  function Meant(f: Form, min: Int64, max: Int64): Part {
    match f
    case Every => Range(min, max, 1)
    case EveryNth(step) => Range(min, max, step)
    case FromTo(lo, hi) => Range(lo, hi, 1)
    case Steps(lo, hi, step) => Range(lo, hi, step)
    case Only(v) => Single(v)
    case OnlyNth(v, _) => Single(v)
  }

  predicate Fits(f: Form, min: Int64, max: Int64) {
    && Proper(Meant(f, min, max), min, max)
    && (f.OnlyNth? ==> f.step >= 1)
  }

  predicate NotNegative(f: Form) {
    match f
    case Every => true
    case EveryNth(step) => step >= 0
    case FromTo(lo, hi) => lo >= 0 && hi >= 0
    case Steps(lo, hi, step) => lo >= 0 && hi >= 0 && step >= 0
    case Only(v) => v >= 0
    case OnlyNth(v, step) => v >= 0 && step >= 0
  }

  function RangeText(lo: nat, hi: nat): string {
    Decimal(lo) + ['-'] + Decimal(hi)
  }

  function BodyText(f: Form): string
    requires NotNegative(f)
  {
    match f
    case Every => "*"
    case EveryNth(_) => "*"
    case FromTo(lo, hi) => RangeText(lo, hi)
    case Steps(lo, hi, _) => RangeText(lo, hi)
    case Only(v) => Decimal(v)
    case OnlyNth(v, _) => Decimal(v)
  }

  predicate HasStep(f: Form) {
    f.EveryNth? || f.Steps? || f.OnlyNth?
  }

  function FormText(f: Form): string
    requires NotNegative(f)
  {
    if HasStep(f) then BodyText(f) + ['/'] + Decimal(f.step) else BodyText(f)
  }

  lemma NoSuch(n: nat, c: char)
    requires !('0' <= c <= '9')
    ensures c !in Decimal(n)
  {
    DecimalDigits(n);
  }

  lemma BoundsReadBack(a: string, b: string, lo: Int64, hi: Int64, min: Int64, max: Int64, step: Int64)
    requires a != "" && a[0] != '*' && '-' !in a && Atoi(a) == Some(lo) && Atoi(b) == Some(hi)
    requires min <= lo <= hi <= max
    ensures ReadBody(a + ['-'] + b, min, max, step) == Range(lo, hi, step)
  {
    IndexAfter(a, '-', b);
    assert (a + ['-'] + b)[0] == a[0];
  }

  lemma RangeReadsBack(lo: Int64, hi: Int64, min: Int64, max: Int64, step: Int64)
    requires Bounds(min, max) && min <= lo <= hi <= max
    ensures ReadBody(RangeText(lo, hi), min, max, step) == Range(lo, hi, step)
  {
    NoSuch(lo, '-');
    AtoiDecimal(lo);
    AtoiDecimal(hi);
    DecimalDigits(lo);
    BoundsReadBack(Decimal(lo), Decimal(hi), lo, hi, min, max, step);
  }

  lemma ValueReadsBack(v: Int64, min: Int64, max: Int64, step: Int64)
    requires Bounds(min, max) && min <= v <= max
    ensures ReadBody(Decimal(v), min, max, step) == Single(v)
  {
    DecimalDigits(v);
    NoSuch(v, '-');
    AtoiDecimal(v);
    assert Decimal(v)[0] != '*';
  }

  lemma BodyReadsBack(f: Form, min: Int64, max: Int64)
    requires Bounds(min, max) && Fits(f, min, max)
    ensures NotNegative(f)
    ensures ReadBody(BodyText(f), min, max, if HasStep(f) then f.step else 1) == Meant(f, min, max)
  {
    match f {
      case Every =>
      case EveryNth(_) =>
      case FromTo(lo, hi) => RangeReadsBack(lo, hi, min, max, 1);
      case Steps(lo, hi, step) => RangeReadsBack(lo, hi, min, max, step);
      case Only(v) => ValueReadsBack(v, min, max, 1);
      case OnlyNth(v, step) => ValueReadsBack(v, min, max, step);
    }
  }

  lemma BodyPlain(f: Form)
    requires NotNegative(f)
    ensures BodyText(f) != "" && (forall i :: 0 <= i < |BodyText(f)| ==> Plain(BodyText(f)[i]))
    ensures '/' !in BodyText(f) && ',' !in BodyText(f)
    ensures BodyText(f) == "*" <==> f.Every? || f.EveryNth?
  {
    match f {
      case Every =>
      case EveryNth(_) =>
      case FromTo(lo, hi) => RangePlain(lo, hi);
      case Steps(lo, hi, _) => RangePlain(lo, hi);
      case Only(v) => DecimalPlain(v);
      case OnlyNth(v, _) => DecimalPlain(v);
    }
  }

  lemma DecimalPlain(n: nat)
    ensures Decimal(n) != "" && '0' <= Decimal(n)[0] <= '9'
    ensures forall i :: 0 <= i < |Decimal(n)| ==> Plain(Decimal(n)[i])
    ensures '/' !in Decimal(n) && ',' !in Decimal(n)
  {
    DecimalDigits(n);
    NoSuch(n, '/');
    NoSuch(n, ',');
  }

  lemma RangePlain(lo: nat, hi: nat)
    ensures RangeText(lo, hi) != "" && '0' <= RangeText(lo, hi)[0] <= '9'
    ensures forall i :: 0 <= i < |RangeText(lo, hi)| ==> Plain(RangeText(lo, hi)[i])
    ensures '/' !in RangeText(lo, hi) && ',' !in RangeText(lo, hi)
  {
    DecimalPlain(lo);
    DecimalPlain(hi);
  }

  lemma FormPlain(f: Form)
    requires NotNegative(f)
    ensures FormText(f) != "" && (forall i :: 0 <= i < |FormText(f)| ==> Plain(FormText(f)[i]))
    ensures ',' !in FormText(f)
    ensures FormText(f) == "*" <==> f.Every?
  {
    BodyPlain(f);
    if HasStep(f) {
      DecimalPlain(f.step);
      assert |FormText(f)| > 1;
    }
  }

  lemma StepReadsBack(body: string, step: Int64, min: Int64, max: Int64)
    requires step >= 1 && '/' !in body && forall i :: 0 <= i < |body| ==> Plain(body[i])
    ensures ReadPart(body + ['/'] + Decimal(step), min, max) == ReadBody(body, min, max, step)
  {
    DecimalPlain(step);
    PlainTrims(body + ['/'] + Decimal(step));
    IndexAfter(body, '/', Decimal(step));
    AtoiDecimal(step);
  }

  lemma NoStepReadsBack(body: string, min: Int64, max: Int64)
    requires '/' !in body && forall i :: 0 <= i < |body| ==> Plain(body[i])
    ensures ReadPart(body, min, max) == ReadBody(body, min, max, 1)
  {
    PlainTrims(body);
    IndexAbsent(body, '/');
  }

  /** Every part that fits its field reads back from its text, however it is written. */
  lemma PartReadsBack(f: Form, min: Int64, max: Int64)
    requires Bounds(min, max) && Fits(f, min, max)
    ensures NotNegative(f) && ReadPart(FormText(f), min, max) == Meant(f, min, max)
  {
    BodyReadsBack(f, min, max);
    BodyPlain(f);
    if HasStep(f) {
      StepReadsBack(BodyText(f), f.step, min, max);
    } else {
      NoStepReadsBack(BodyText(f), min, max);
    }
  }

  // ---- fields ----

  function JoinParts(texts: seq<string>): string
    requires texts != []
  {
    if |texts| == 1 then texts[0] else texts[0] + [','] + JoinParts(texts[1..])
  }

  lemma {:induction false} SplitJoined(texts: seq<string>)
    requires texts != [] && forall i :: 0 <= i < |texts| ==> ',' !in texts[i]
    ensures Split(JoinParts(texts), ',') == texts
  {
    if |texts| == 1 {
      IndexAbsent(texts[0], ',');
    } else {
      var rest := JoinParts(texts[1..]);
      IndexAfter(texts[0], ',', rest);
      SplitJoined(texts[1..]);
    }
  }

  predicate AllFit(forms: seq<Form>, min: Int64, max: Int64) {
    forall i :: 0 <= i < |forms| ==> Fits(forms[i], min, max)
  }

  lemma AllNotNegative(forms: seq<Form>, min: Int64, max: Int64)
    requires Bounds(min, max) && AllFit(forms, min, max)
    ensures forall i :: 0 <= i < |forms| ==> NotNegative(forms[i])
  {
    forall i | 0 <= i < |forms| ensures NotNegative(forms[i]) {
      BodyReadsBack(forms[i], min, max);
    }
  }

  function FieldText(forms: seq<Form>): string
    requires forms != [] && forall i :: 0 <= i < |forms| ==> NotNegative(forms[i])
  {
    JoinParts(seq(|forms|, i requires 0 <= i < |forms| => FormText(forms[i])))
  }

  function AllMeant(forms: seq<Form>, min: Int64, max: Int64): seq<Part> {
    seq(|forms|, i requires 0 <= i < |forms| => Meant(forms[i], min, max))
  }

  lemma MeantProper(forms: seq<Form>, min: Int64, max: Int64)
    requires AllFit(forms, min, max)
    ensures AllProper(AllMeant(forms, min, max), min, max)
  {
  }

  /** The set a field stands for: a star alone is no restriction. */
  function FieldOf(forms: seq<Form>, min: Int64, max: Int64): FieldSet
    requires Bounds(min, max) && AllFit(forms, min, max)
  {
    MeantProper(forms, min, max);
    if forms == [Every] then FieldSet(true, {}) else FieldSet(false, StepsOf(AllMeant(forms, min, max), min, max))
  }

  /** A field written out from any non-empty list of parts that fit parses back to what they mean. */
  lemma FieldReadsBack(forms: seq<Form>, min: Int64, max: Int64)
    requires forms != [] && Bounds(min, max) && AllFit(forms, min, max)
    ensures forall i :: 0 <= i < |forms| ==> NotNegative(forms[i])
    ensures PartsOf(FieldText(forms), min, max) == AllMeant(forms, min, max)
    ensures ParseFieldSpec(FieldText(forms), min, max) == Some(FieldOf(forms, min, max))
  {
    AllNotNegative(forms, min, max);
    var texts := seq(|forms|, i requires 0 <= i < |forms| => FormText(forms[i]));
    forall i | 0 <= i < |forms|
      ensures ',' !in texts[i] && (texts[i] == "*" <==> forms[i].Every?)
      ensures ReadPart(texts[i], min, max) == Meant(forms[i], min, max)
    {
      assert texts[i] == FormText(forms[i]);
      FormPlain(forms[i]);
      PartReadsBack(forms[i], min, max);
    }
    SplitJoined(texts);
    assert PartsOf(FieldText(forms), min, max) == AllMeant(forms, min, max);
    MeantProper(forms, min, max);
    ProperIsNotBad(AllMeant(forms, min, max), min, max);
    StarIff(texts);
  }

  lemma StarIff(texts: seq<string>)
    requires texts != [] && forall i :: 0 <= i < |texts| ==> ',' !in texts[i]
    ensures JoinParts(texts) == "*" <==> texts == ["*"]
  {
    if |texts| > 1 {
      var s := JoinParts(texts);
      assert s[|texts[0]|] == ',';
    }
  }

  /** The values of its range a part without overflow allows, form by form. */
  predicate FormAllows(f: Form, min: Int64, v: int) {
    match f
    case Every => true
    case EveryNth(step) => step >= 1 && (v - min) % step == 0
    case FromTo(lo, hi) => lo <= v <= hi
    case Steps(lo, hi, step) => step >= 1 && lo <= v <= hi && (v - lo) % step == 0
    case Only(x) => v == x
    case OnlyNth(x, _) => v == x
  }

  /** A written field allows a value of its range exactly when one of its parts does. */
  lemma FieldAllowsIff(forms: seq<Form>, min: Int64, max: Int64, v: int)
    requires forms != [] && Bounds(min, max) && AllFit(forms, min, max) && min <= v <= max
    requires forall i :: 0 <= i < |forms| ==> !PartOverflows(Meant(forms[i], min, max))
    ensures FieldOf(forms, min, max).Matches(v) <==> exists i :: 0 <= i < |forms| && FormAllows(forms[i], min, v)
  {
    var parts := AllMeant(forms, min, max);
    MeantProper(forms, min, max);
    StepsOfMember(parts, min, max, v);
    forall i | 0 <= i < |forms| ensures v in PartSteps(parts[i], min, max) <==> FormAllows(forms[i], min, v) {
      PartFacts(parts[i], min, max);
    }
    if i :| 0 <= i < |forms| && FormAllows(forms[i], min, v) {
      assert parts[i] in parts;
    }
    if v in StepsOf(parts, min, max) {
      var p :| p in parts && Proper(p, min, max) && v in PartSteps(p, min, max);
      var i :| 0 <= i < |parts| && parts[i] == p;
      assert FormAllows(forms[i], min, v);
    }
    if forms == [Every] { assert FormAllows(forms[0], min, v); }
  }

  /** A range whose step overflows int64 parses, and its set then holds a negative value: for
      "1-1/9223372036854775807" it is -1. */
  lemma HugeStepParses(lo: Int64, hi: Int64, step: Int64, min: Int64, max: Int64)
    requires Bounds(min, max) && min <= lo <= hi <= max && step >= 1 && Overflows(lo, step)
    ensures var r := ParseFieldSpec(Decimal(lo) + ['-'] + Decimal(hi) + ['/'] + Decimal(step), min, max);
            && r.Some? && !r.value.all && (exists v :: v in r.value.steps && v < 0)
            && (lo == hi && step == MAX_INT ==> lo - 2 in r.value.steps)
  {
    var p := Range(lo, hi, step);
    var forms := [Steps(lo, hi, step)];
    FieldReadsBack(forms, min, max);
    MeantProper(forms, min, max);
    var parts := AllMeant(forms, min, max);
    assert parts == [p] && FieldText(forms) == FormText(forms[0]);
    StrideInRange(lo, hi, step);
    var v :| v in PartSteps(p, min, max) && v < 0;
    assert p in parts;
    StepsOfMember(parts, min, max, v);
    if lo == hi && step == MAX_INT {
      HugeStepLeavesRange(lo);
      assert lo - 2 in PartSteps(p, min, max);
      StepsOfMember(parts, min, max, lo - 2);
    }
  }
}
