/** Reading a whole cron line back (internal/scheduler/cron.go:88-112): which word becomes which field,
    where words begin and end, and which lines are refused. */
module CronLine {
  import opened Basics
  import opened Numerals
  import opened Text
  import opened CronField
  import opened CronText
  import opened Cron

  // ---- words ----

  predicate Word(s: string) {
    s != "" && forall i :: 0 <= i < |s| ==> !IsSpace(s[i])
  }

  lemma {:induction false} BlankSkipped(gap: string, s: string)
    requires AllSpace(gap)
    ensures Words(gap + s) == Words(s)
  {
    if gap == "" {
      assert gap + s == s;
    } else {
      assert (gap + s)[1..] == gap[1..] + s;
      BlankSkipped(gap[1..], s);
    }
  }

  lemma {:induction false} WordLengthIs(w: string, s: string)
    requires (forall i :: 0 <= i < |w| ==> !IsSpace(w[i])) && (s != "" ==> IsSpace(s[0]))
    ensures WordLength(w + s) == |w|
  {
    if w == "" {
      assert w + s == s;
    } else {
      assert (w + s)[1..] == w[1..] + s;
      WordLengthIs(w[1..], s);
    }
  }

  lemma WordRead(w: string, s: string)
    requires Word(w) && (s != "" ==> IsSpace(s[0]))
    ensures Words(w + s) == [w] + Words(s)
  {
    WordLengthIs(w, s);
    assert (w + s)[..|w|] == w && (w + s)[|w|..] == s;
  }

  /** Each word with the blank that follows it. */
  function Spaced(words: seq<string>, gaps: seq<string>): string
    requires |gaps| == |words|
  {
    if words == [] then "" else words[0] + (gaps[0] + Spaced(words[1..], gaps[1..]))
  }

  /** Blanks separate the words; behind the last there may be none. */
  predicate Separates(words: seq<string>, gaps: seq<string>) {
    && |gaps| == |words|
    && (forall i :: 0 <= i < |words| ==> Word(words[i]) && AllSpace(gaps[i]))
    && (forall i :: 0 <= i < |words| - 1 ==> gaps[i] != "")
  }

  /** A line gives back its words, however they are spaced. */
  lemma {:induction false} WordsReadBack(lead: string, words: seq<string>, gaps: seq<string>)
    requires AllSpace(lead) && Separates(words, gaps)
    ensures Words(lead + Spaced(words, gaps)) == words
    decreases words
  {
    BlankSkipped(lead, Spaced(words, gaps));
    if words != [] {
      var rest := Spaced(words[1..], gaps[1..]);
      WordsReadBack(gaps[0], words[1..], gaps[1..]);
      assert gaps[0] == "" ==> rest == "";
      WordRead(words[0], gaps[0] + rest);
    }
  }

  /** A line that has not five words is refused. */
  lemma NotFiveWords(lead: string, words: seq<string>, gaps: seq<string>)
    requires AllSpace(lead) && Separates(words, gaps) && |words| != 5
    ensures ParseCronSpec(lead + Spaced(words, gaps)) == None
  {
    WordsReadBack(lead, words, gaps);
  }

  // ---- lines ----

  lemma {:induction false} JoinedPlain(texts: seq<string>)
    requires texts != [] && forall i :: 0 <= i < |texts| ==> Word(texts[i])
    ensures Word(JoinParts(texts))
  {
    if |texts| > 1 { JoinedPlain(texts[1..]); }
  }

  lemma FieldIsWord(forms: seq<Form>, min: Int64, max: Int64)
    requires forms != [] && Bounds(min, max) && AllFit(forms, min, max)
    ensures forall i :: 0 <= i < |forms| ==> NotNegative(forms[i])
    ensures Word(FieldText(forms))
  {
    AllNotNegative(forms, min, max);
    var texts := seq(|forms|, i requires 0 <= i < |forms| => FormText(forms[i]));
    forall i | 0 <= i < |forms| ensures Word(texts[i]) {
      FormPlain(forms[i]);
    }
    JoinedPlain(texts);
  }

  /** Five fields as written: minute, hour, day of month, month, day of week. */
  datatype Line = Line(minute: seq<Form>, hour: seq<Form>, dom: seq<Form>, month: seq<Form>, dow: seq<Form>)

  predicate FieldFits(forms: seq<Form>, min: Int64, max: Int64) {
    forms != [] && AllFit(forms, min, max)
  }

  predicate LineFits(l: Line) {
    && FieldFits(l.minute, 0, 59) && FieldFits(l.hour, 0, 23) && FieldFits(l.dom, 1, 31)
    && FieldFits(l.month, 1, 12) && FieldFits(l.dow, 0, 6)
  }

  lemma LineTextable(l: Line)
    requires LineFits(l)
    ensures Textable(l)
  {
    AllNotNegative(l.minute, 0, 59);
    AllNotNegative(l.hour, 0, 23);
    AllNotNegative(l.dom, 1, 31);
    AllNotNegative(l.month, 1, 12);
    AllNotNegative(l.dow, 0, 6);
  }

  predicate Writable(forms: seq<Form>) {
    forms != [] && forall i :: 0 <= i < |forms| ==> NotNegative(forms[i])
  }

  predicate Textable(l: Line) {
    Writable(l.minute) && Writable(l.hour) && Writable(l.dom) && Writable(l.month) && Writable(l.dow)
  }

  function LineWords(l: Line): seq<string>
    requires Textable(l)
  {
    [FieldText(l.minute), FieldText(l.hour), FieldText(l.dom), FieldText(l.month), FieldText(l.dow)]
  }

  lemma LineWordsAreWords(l: Line)
    requires LineFits(l) && Textable(l)
    ensures forall i :: 0 <= i < 5 ==> Word(LineWords(l)[i])
  {
    FieldIsWord(l.minute, 0, 59);
    FieldIsWord(l.hour, 0, 23);
    FieldIsWord(l.dom, 1, 31);
    FieldIsWord(l.month, 1, 12);
    FieldIsWord(l.dow, 0, 6);
  }

  function SpecOf(l: Line): Spec
    requires LineFits(l)
  {
    Spec(FieldOf(l.minute, 0, 59), FieldOf(l.hour, 0, 23), FieldOf(l.dom, 1, 31), FieldOf(l.month, 1, 12),
      FieldOf(l.dow, 0, 6))
  }

  /** Five fields written out and spaced in any way parse to the schedule with their sets, minute first and
      day of week last. */
  lemma LineReadsBack(l: Line, lead: string, gaps: seq<string>)
    requires LineFits(l) && AllSpace(lead)
    requires |gaps| == 5 && (forall i :: 0 <= i < 5 ==> AllSpace(gaps[i])) && forall i :: 0 <= i < 4 ==> gaps[i] != ""
    ensures Textable(l)
    ensures ParseCronSpec(lead + Spaced(LineWords(l), gaps)) == Some(SpecOf(l))
  {
    LineTextable(l);
    LineWordsAreWords(l);
    WordsReadBack(lead, LineWords(l), gaps);
    FieldReadsBack(l.minute, 0, 59);
    FieldReadsBack(l.hour, 0, 23);
    FieldReadsBack(l.dom, 1, 31);
    FieldReadsBack(l.month, 1, 12);
    FieldReadsBack(l.dow, 0, 6);
  }

  const ONE_BLANK_EACH := [" ", " ", " ", " ", ""]

  function DailyLine(hour: Int64, minute: Int64): Line {
    Line([Only(minute)], [Only(hour)], [Every], [Every], [Every])
  }

  /** "minute hour * * *" is the daily schedule at that time. */
  lemma DailyReadsBack(hour: int, minute: int)
    requires 0 <= hour < 24 && 0 <= minute < 60
    ensures ParseCronSpec(Decimal(minute) + " " + Decimal(hour) + " * * *") == Some(DailySpec(hour, minute))
  {
    var l := DailyLine(hour, minute);
    LineReadsBack(l, "", ONE_BLANK_EACH);
    DailyText(hour, minute);
    DailySpecOf(hour, minute);
  }

  lemma DailyText(hour: Int64, minute: Int64)
    requires 0 <= hour < 24 && 0 <= minute < 60
    ensures Textable(DailyLine(hour, minute))
    ensures "" + Spaced(LineWords(DailyLine(hour, minute)), ONE_BLANK_EACH) ==
            Decimal(minute) + " " + Decimal(hour) + " * * *"
  {
    var a, b := Decimal(minute), Decimal(hour);
    assert LineWords(DailyLine(hour, minute)) == [a, b, "*", "*", "*"];
    SpacedFive(a, b, "*", "*", "*");
    assert "*" + " " + "*" + " " + "*" == "* * *";
    assert a + " " + b + " " + "*" + " " + "*" + " " + "*" == a + " " + b + " * * *";
  }

  lemma SpacedFive(a: string, b: string, c: string, d: string, e: string)
    ensures Spaced([a, b, c, d, e], ONE_BLANK_EACH) == a + " " + b + " " + c + " " + d + " " + e
  {
    var w, g := [a, b, c, d, e], ONE_BLANK_EACH;
    assert w[1..] == [b, c, d, e] && g[1..] == [" ", " ", " ", ""];
    assert w[1..][1..] == [c, d, e] && g[1..][1..] == [" ", " ", ""];
    assert [c, d, e][1..] == [d, e] && [" ", " ", ""][1..] == [" ", ""];
    assert [d, e][1..] == [e] && [" ", ""][1..] == [""];
    assert Spaced([e], [""]) == e;
    assert Spaced([d, e], [" ", ""]) == d + (" " + e);
    assert Spaced([c, d, e], [" ", " ", ""]) == c + (" " + (d + (" " + e)));
    assert Spaced([b, c, d, e], [" ", " ", " ", ""]) == b + (" " + (c + (" " + (d + (" " + e)))));
  }

  lemma DailySpecOf(hour: Int64, minute: Int64)
    requires 0 <= hour < 24 && 0 <= minute < 60
    ensures LineFits(DailyLine(hour, minute)) && SpecOf(DailyLine(hour, minute)) == DailySpec(hour, minute)
  {
    OnlyValue(minute, 0, 59);
    OnlyValue(hour, 0, 23);
  }

  lemma OnlyValue(v: Int64, min: Int64, max: Int64)
    requires Bounds(min, max) && min <= v <= max
    ensures AllFit([Only(v)], min, max) && FieldOf([Only(v)], min, max) == FieldSet(false, {v as int})
  {
    MeantProper([Only(v)], min, max);
    var parts := AllMeant([Only(v)], min, max);
    assert parts == [Single(v)] && parts[..0] == [];
    assert StepsOf([], min, max) == {};
  }
}
