/** Whole expressions: every one written in the grammar parses to what it denotes, and the
    two inputs on which the code and its documentation part, from their text on. */
module CronLimits {
  import opened Text
  import opened Calendar
  import opened Cron
  import opened CronReach
  import opened CronParse
  import opened Wrappers

  // ----- Fields of a written expression

  predicate IsWord(s: string) {
    s != "" && forall i :: 0 <= i < |s| ==> !IsSpace(s[i])
  }

  lemma {:induction false} RunOfWord(word: string, rest: string)
    requires forall i :: 0 <= i < |word| ==> !IsSpace(word[i])
    requires rest == "" || IsSpace(rest[0])
    ensures Run(word + rest) == |word|
    decreases |word|
  {
    if word == "" {
      assert word + rest == rest;
    } else {
      assert (word + rest)[1..] == word[1..] + rest;
      RunOfWord(word[1..], rest);
    }
  }

  lemma FieldsOfWord(word: string, rest: string)
    requires IsWord(word) && (rest == "" || IsSpace(rest[0]))
    ensures Fields(word + rest) == [word] + Fields(rest)
  {
    RunOfWord(word, rest);
    assert (word + rest)[..|word|] == word && (word + rest)[|word|..] == rest;
  }

  /** Words joined by single spaces are found again. */
  lemma {:induction false} FieldsOfJoin(words: seq<string>)
    requires words != [] && forall i :: 0 <= i < |words| ==> IsWord(words[i])
    ensures Fields(Join(words, ' ')) == words
    decreases |words|
  {
    hide Fields, IsWord;
    if |words| == 1 {
      FieldsOfWord(words[0], "");
      NoFields();
      assert words[0] + "" == words[0];
    } else {
      var rest := [' '] + Join(words[1..], ' ');
      FieldsOfWord(words[0], rest);
      SkipSpace(Join(words[1..], ' '));
      FieldsOfJoin(words[1..]);
      assert words[0] + [' '] + Join(words[1..], ' ') == words[0] + rest;
    }
  }

  lemma NoFields()
    ensures Fields("") == []
  {
  }

  lemma SkipSpace(s: string)
    ensures Fields([' '] + s) == Fields(s)
  {
    assert ([' '] + s)[1..] == s;
  }

  // ----- Expressions of the grammar

  /** One list of parts for each of the five fields. */
  datatype Expression = Expression(
    minutes: seq<Part>, hours: seq<Part>, days: seq<Part>, months: seq<Part>, weekdays: seq<Part>)

  ghost predicate ValidField(parts: seq<Part>, min: nat, max: nat) {
    parts != [] && forall i :: 0 <= i < |parts| ==> ValidPart(parts[i], min, max)
  }

  ghost predicate ValidExpression(e: Expression) {
    && ValidField(e.minutes, 0, 59) && ValidField(e.hours, 0, 23) && ValidField(e.days, 1, 31)
    && ValidField(e.months, 1, 12) && ValidField(e.weekdays, 0, 6)
  }

  function FieldText(parts: seq<Part>): string {
    Join(Texts(parts), ',')
  }

  function Words(e: Expression): seq<string> {
    [FieldText(e.minutes), FieldText(e.hours), FieldText(e.days), FieldText(e.months), FieldText(e.weekdays)]
  }

  function Written(e: Expression): string {
    Join(Words(e), ' ')
  }

  predicate NoSpaces(s: string) {
    forall i :: 0 <= i < |s| ==> !IsSpace(s[i])
  }

  lemma DigitsAreWords(n: nat)
    ensures NoSpaces(Digits(n)) && Digits(n) != ""
  {
    DigitsAreDecimal(n);
    forall i | 0 <= i < |Digits(n)| ensures !IsSpace(Digits(n)[i]) {
      assert IsDigit(Digits(n)[i]);
    }
  }

  lemma NoSpacesConcat(a: string, c: char, b: string)
    requires NoSpaces(a) && NoSpaces(b) && !IsSpace(c)
    ensures NoSpaces(a + [c] + b)
  {
  }

  lemma BaseIsWord(b: Base)
    ensures NoSpaces(BaseText(b)) && BaseText(b) != ""
  {
    hide Digits;
    match b
    case Star =>
    case Value(v) => DigitsAreWords(v);
    case Range(lo, hi) =>
      DigitsAreWords(lo);
      DigitsAreWords(hi);
      NoSpacesConcat(Digits(lo), '-', Digits(hi));
  }

  lemma PartIsWord(p: Part)
    ensures NoSpaces(PartText(p)) && PartText(p) != ""
  {
    hide Digits, BaseText, NoSpaces;
    BaseIsWord(p.base);
    if p.step.Some? {
      DigitsAreWords(p.step.value);
      NoSpacesConcat(BaseText(p.base), '/', Digits(p.step.value));
    }
  }

  lemma {:induction false} JoinIsWord(words: seq<string>)
    requires words != [] && forall i :: 0 <= i < |words| ==> NoSpaces(words[i]) && words[i] != ""
    ensures NoSpaces(Join(words, ',')) && Join(words, ',') != ""
    decreases |words|
  {
    hide NoSpaces;
    if |words| > 1 {
      JoinIsWord(words[1..]);
      NoSpacesConcat(words[0], ',', Join(words[1..], ','));
    }
  }

  lemma FieldIsWord(parts: seq<Part>)
    requires parts != []
    ensures IsWord(FieldText(parts))
  {
    forall i | 0 <= i < |parts| ensures NoSpaces(Texts(parts)[i]) && Texts(parts)[i] != "" {
      PartIsWord(parts[i]);
    }
    JoinIsWord(Texts(parts));
  }

  lemma WrittenHasFields(e: Expression)
    requires ValidExpression(e)
    ensures Fields(Written(e)) == Words(e)
  {
    hide FieldText, IsWord, Fields, Join;
    FieldIsWord(e.minutes);
    FieldIsWord(e.hours);
    FieldIsWord(e.days);
    FieldIsWord(e.months);
    FieldIsWord(e.weekdays);
    FieldsOfJoin(Words(e));
  }

  lemma FieldParses(parts: seq<Part>, min: nat, max: nat)
    requires min <= max <= 59 && ValidField(parts, min, max)
    ensures FieldValues(Split(FieldText(parts), ','), min, max) == Ok(Denotation(parts, min, max))
  {
    FieldRoundTrip(parts, min, max);
  }

  /** Every expression of the grammar, written out, parses, and to what its fields denote. */
  method ParseWritten(e: Expression, text: string) returns (s: Schedule)
    requires ValidExpression(e) && text == Written(e)
    ensures ParsesTo(text, s)
    ensures s.minutes == Denotation(e.minutes, 0, 59) && s.hours == Denotation(e.hours, 0, 23)
    ensures s.days == Denotation(e.days, 1, 31) && s.months == Denotation(e.months, 1, 12)
    ensures s.weekdays == Denotation(e.weekdays, 0, 6)
    ensures s.dayRestricted == (FieldText(e.days) != "*") && s.weekdayRestricted == (FieldText(e.weekdays) != "*")
    ensures WellFormed(s)
  {
    hide FieldText, Denotation, Fields, FieldValues, WellFormed, Written;
    WrittenHasFields(e);
    FieldParses(e.minutes, 0, 59);
    FieldParses(e.hours, 0, 23);
    FieldParses(e.days, 1, 31);
    FieldParses(e.months, 1, 12);
    FieldParses(e.weekdays, 0, 6);
    var r := Parse(text);
    s := r.value;
  }

  // ----- A step that wraps

  const EVERY: seq<Part> := [Part(Star, None)]

  function One(v: nat): seq<Part> {
    [Part(Value(v), None)]
  }

  /** One more digit. */
  lemma NextDigit(n: nat, d: nat, a: string, b: string)
    requires n > 0 && d < 10 && Digits(n) == a && b == a + ['0' + d as char]
    ensures Digits(n * 10 + d) == b
  {
    var k := n * 10 + d;
    assert k / 10 == n && k % 10 == d;
  }

  lemma FirstDigits()
    ensures Digits(9223372036) == "9223372036"
  {
    assert Digits(9) == "9";
    hide Digits;
    NextDigit(9, 2, "9", "92");
    NextDigit(92, 2, "92", "922");
    NextDigit(922, 3, "922", "9223");
    NextDigit(9223, 3, "9223", "92233");
    NextDigit(92233, 7, "92233", "922337");
    NextDigit(922337, 2, "922337", "9223372");
    NextDigit(9223372, 0, "9223372", "92233720");
    NextDigit(92233720, 3, "92233720", "922337203");
    NextDigit(922337203, 6, "922337203", "9223372036");
  }

  lemma MaxDigits()
    ensures Digits(INT64_MAX) == "9223372036854775807"
  {
    hide Digits;
    FirstDigits();
    NextDigit(9223372036, 8, "9223372036", "92233720368");
    NextDigit(92233720368, 5, "92233720368", "922337203685");
    NextDigit(922337203685, 4, "922337203685", "9223372036854");
    NextDigit(9223372036854, 7, "9223372036854", "92233720368547");
    NextDigit(92233720368547, 7, "92233720368547", "922337203685477");
    NextDigit(922337203685477, 5, "922337203685477", "9223372036854775");
    NextDigit(9223372036854775, 8, "9223372036854775", "92233720368547758");
    NextDigit(92233720368547758, 0, "92233720368547758", "922337203685477580");
    NextDigit(922337203685477580, 7, "922337203685477580", "9223372036854775807");
  }

  /** `59/9223372036854775807 * * * *` is accepted and allows minute 57, which no step from 59
      up to 59 reaches. */
  method HugeStepIsWrong() returns (s: Schedule)
    ensures ParsesTo("59/9223372036854775807 * * * *", s)
    ensures 57 in s.minutes && 57 !in StepSet(59, 59, INT64_MAX)
  {
    hide ParsesTo, Written, Denotation, StepSet;
    var huge := [Part(Value(59), Some(INT64_MAX))];
    var e := Expression(huge, EVERY, EVERY, EVERY, EVERY);
    HugeStepMeaning();
    s := ParseWritten(e, "59/9223372036854775807 * * * *");
  }

  lemma HugeStepMeaning()
    ensures var huge := [Part(Value(59), Some(INT64_MAX))];
      && Written(Expression(huge, EVERY, EVERY, EVERY, EVERY)) == "59/9223372036854775807 * * * *"
      && 57 in Denotation(huge, 0, 59) && 57 !in StepSet(59, 59, INT64_MAX)
  {
    hide Digits, Walk, StepSet;
    var huge := [Part(Value(59), Some(INT64_MAX))];
    HugeStepText();
    HugeStepWalks();
    assert huge[..0] == [];
    assert Denotation(huge[..0], 0, 59) == {};
  }

  lemma SteppedValueText(v: nat, n: nat, a: string, b: string)
    requires Digits(v) == a && Digits(n) == b
    ensures PartText(Part(Value(v), Some(n))) == a + ['/'] + b
  {
  }

  lemma FiftyNine()
    ensures Digits(59) == "59"
  {
  }

  lemma HugePartText()
    ensures PartText(Part(Value(59), Some(INT64_MAX))) == "59/9223372036854775807"
  {
    hide Digits, PartText;
    FiftyNine();
    MaxDigits();
    SteppedValueText(59, INT64_MAX, "59", "9223372036854775807");
    assert "59" + ['/'] + "9223372036854775807" == "59/9223372036854775807";
  }

  lemma HugeStepText()
    ensures var huge := [Part(Value(59), Some(INT64_MAX))];
      Written(Expression(huge, EVERY, EVERY, EVERY, EVERY)) == "59/9223372036854775807 * * * *"
  {
    hide PartText, Join, FieldText;
    var huge := [Part(Value(59), Some(INT64_MAX))];
    HugePartText();
    OnePartText(huge);
    EveryText();
    ThenStars("59/9223372036854775807");
    assert "59/9223372036854775807" + " * * * *" == "59/9223372036854775807 * * * *";
  }

  lemma ThenStars(a: string)
    ensures Join([a, "*", "*", "*", "*"], ' ') == a + " * * * *"
  {
    hide Join;
    FiveWords(a, "*", "*", "*", "*");
    assert a + " " + "*" + " " + "*" + " " + "*" + " " + "*" == a + " * * * *";
  }

  lemma OnePartText(parts: seq<Part>)
    requires |parts| == 1
    ensures FieldText(parts) == PartText(parts[0])
  {
  }

  lemma EveryText()
    ensures FieldText(EVERY) == "*"
  {
    OnePartText(EVERY);
  }

  lemma FiveWords(a: string, b: string, c: string, d: string, e: string)
    ensures Join([a, b, c, d, e], ' ') == a + " " + b + " " + c + " " + d + " " + e
  {
    assert Join([e], ' ') == e;
    assert [d, e][1..] == [e] && Join([d, e], ' ') == d + [' '] + e;
    assert [c, d, e][1..] == [d, e] && Join([c, d, e], ' ') == c + [' '] + (d + [' '] + e);
    assert [b, c, d, e][1..] == [c, d, e];
    assert [a, b, c, d, e][1..] == [b, c, d, e];
  }

  // ----- A leap day out of reach

  lemma OneDenotes(v: nat, min: nat, max: nat)
    requires min <= v <= max <= 59
    ensures ValidField(One(v), min, max) && Denotation(One(v), min, max) == {v}
  {
    var parts := One(v);
    assert parts[..0] == [] && Denotation(parts[..0], min, max) == {};
    assert Walk(v + 1, v, 1) == {};
    assert Walk(v, v, 1) == {v};
  }

  lemma EveryWeekday()
    ensures ValidField(EVERY, 0, 6) && Denotation(EVERY, 0, 6) == {0, 1, 2, 3, 4, 5, 6}
  {
    hide Walk, StepSet;
    assert EVERY[..0] == [];
    assert Denotation(EVERY[..0], 0, 6) == {};
    WalkWithoutWrap(0, 6, 1);
    forall v ensures v in StepSet(0, 6, 1) <==> 0 <= v <= 6 {
      StepSetIsProgression(0, 6, 1, v);
      if 0 <= v {
        assert v == 0 + v * 1;
      }
    }
  }

  lemma LeapNightText()
    ensures var e := Expression(One(0), One(0), One(29), One(2), EVERY);
      Written(e) == "0 0 29 2 *" && FieldText(e.days) != "*" && FieldText(e.weekdays) == "*"
  {
    assert Digits(0) == "0" && Digits(29) == "29" && Digits(2) == "2";
    hide Digits, Join;
    OnePartText(One(0));
    OnePartText(One(29));
    OnePartText(One(2));
    EveryText();
    FiveWords("0", "0", "29", "2", "*");
    assert "0" + " " + "0" + " " + "29" + " " + "2" + " " + "*" == "0 0 29 2 *";
    assert |"29"| != |"*"|;
  }

  /** `0 0 29 2 *`, asked on 29 February 2096 a minute before midnight: the search gives up,
      although the schedule fires in 2104. */
  method GivesUpBefore2104() returns (s: Schedule, after: int, r: Option<int>)
    ensures ParsesTo("0 0 29 2 *", s) && r == None
    ensures Start(after, 0) == DayNumber(2096, 3, 1) * 86400
    ensures NoMatch(s, Start(after, 0) / 60, Start(after, 0) / 60 + LOOKAHEAD)
    ensures Matches(s, LeapDay(2104) * 1440) && Start(after, 0) / 60 < LeapDay(2104) * 1440
  {
    hide ParsesTo, Matches, LeapDay, DayNumber, Denotation, WellFormed, NoMatch, FieldText, Written;
    var e := Expression(One(0), One(0), One(29), One(2), EVERY);
    OneDenotes(0, 0, 59);
    OneDenotes(0, 0, 23);
    OneDenotes(29, 1, 31);
    OneDenotes(2, 1, 12);
    EveryWeekday();
    LeapNightText();
    s := ParseWritten(e, "0 0 29 2 *");
    assert s == LEAP_NIGHT;
    LeapNightGap();
    LeapDayAhead();
    after := (DayNumber(2096, 3, 1) * 86400 - 60) * 1_000_000_000;
    StartsAt(DayNumber(2096, 3, 1));
    r := Next(s, after, 0);
    if r.Some? {
      FoundIsOutside(s, Start(after, 0), r.value);
    }
  }

  lemma LeapDayAhead()
    ensures DayNumber(2096, 3, 1) * 1440 < LeapDay(2104) * 1440
  {
    hide DayNumber, LeapDay;
    MarchFirst2096();
  }

  lemma StartsAt(day: int)
    ensures Start((day * 86400 - 60) * 1_000_000_000, 0) == day * 86400 && day * 86400 / 60 == day * 1440
  {
    assert (day * 86400 - 60) * 1_000_000_000 == (day * 1440 - 1) * 60_000_000_000;
  }

  lemma FoundIsOutside(s: Schedule, start: int, found: int)
    requires NoMatch(s, start / 60, start / 60 + LOOKAHEAD) && Matches(s, found / 60) && start % 60 == 0
    ensures !(start <= found < start + LOOKAHEAD * 60)
  {
    hide Matches;
  }
}
