/** Parsing five-field cron expressions.

    The expansion loop adds the step to a 64-bit integer, and the grammar puts no
    bound on the step, so the addition can wrap around.  The wrap is modelled, and
    the fields it corrupts are characterized exactly. */
module CronParse {
  import opened Text
  import opened Cron
  import CronReach
  import opened Wrappers

  datatype Result<T> = Ok(value: T) | Err(error: ParseError)

  datatype ParseError = FieldCount | EmptyValue | InvalidStep | NotANumber | OutOfRange | InvertedRange | NoValue

  const INT64_MAX: int := 9223372036854775807
  const TWO_64: int := 18446744073709551616

  // ----- Numbers

  predicate IsDigit(c: char) {
    '0' <= c <= '9'
  }

  predicate AllDigits(s: string) {
    s != "" && forall i :: 0 <= i < |s| ==> IsDigit(s[i])
  }

  function DigitValue(c: char): nat
    requires IsDigit(c)
  {
    c as int - '0' as int
  }

  function Decimal(s: string): nat
    requires forall i :: 0 <= i < |s| ==> IsDigit(s[i])
  {
    if s == "" then 0 else Decimal(s[..|s| - 1]) * 10 + DigitValue(s[|s| - 1])
  }

  /** `strconv.Atoi`: an optional sign, at least one digit, and a value that fits. */
  function Atoi(s: string): Option<int> {
    var signed := s != "" && (s[0] == '-' || s[0] == '+');
    var body := if signed then s[1..] else s;
    if !AllDigits(body) then None
    else
      var v: int := Decimal(body);
      var n := if signed && s[0] == '-' then 0 - v else v;
      if -INT64_MAX - 1 <= n <= INT64_MAX then Some(n) else None
  }

  function Digits(n: nat): string {
    var last := ['0' + (n % 10) as char];
    if n < 10 then last else Digits(n / 10) + last
  }

  lemma {:induction false} DigitsAreDecimal(n: nat)
    ensures |Digits(n)| > 0
    ensures forall i :: 0 <= i < |Digits(n)| ==> IsDigit(Digits(n)[i])
    ensures Decimal(Digits(n)) == n
  {
    if n >= 10 {
      DigitsAreDecimal(n / 10);
      assert Digits(n)[..|Digits(n)| - 1] == Digits(n / 10);
    } else {
      assert Digits(n)[..0] == "";
    }
  }

  lemma NumberRoundTrip(n: nat)
    requires n <= INT64_MAX
    ensures Atoi(Digits(n)) == Some(n) && TrimSpace(Digits(n)) == Digits(n)
  {
    DigitsAreDecimal(n);
    var d := Digits(n);
    assert IsDigit(d[0]) && IsDigit(d[|d| - 1]);
    assert !IsSpace(d[0]) && !IsSpace(d[|d| - 1]);
  }

  function BoundedValue(s: string, min: int, max: int): (r: Result<int>)
    ensures r.Ok? ==> min <= r.value <= max
  {
    match Atoi(TrimSpace(s))
    case None => Err(NotANumber)
    case Some(v) => if v < min || v > max then Err(OutOfRange) else Ok(v)
  }

  // ----- The expansion loop and its wrap-around

  function Add64(a: int, b: int): int {
    if a + b > INT64_MAX then a + b - TWO_64 else a + b
  }

  /** What a loop position is worth: the loop ends although the counter may wrap. */
  ghost function Measure(v: int, hi: int, step: int): nat
    requires 0 <= hi <= 59 && 1 <= step <= INT64_MAX
  {
    var k := INT64_MAX + 1 - step;
    if v > hi then 0
    else if step <= INT64_MAX - hi then hi - v + 1
    else if v + step <= hi then Low(v + step, k) + 1
    else Low(v, k)
  }

  ghost function Low(v: int, k: int): nat {
    if v < k then 1 else if v > 0 then 2 * v + 10 else 10
  }

  /** Every value the counter takes from `v` on while it does not exceed `hi`. */
  ghost function Walk(v: int, hi: int, step: int): set<int>
    requires 0 <= hi <= 59 && 1 <= step <= INT64_MAX && v >= -INT64_MAX - 1
    decreases Measure(v, hi, step)
  {
    if v > hi then {} else {v} + Walk(Add64(v, step), hi, step)
  }

  method Expand(set0: set<int>, lo: int, hi: int, step: int) returns (values: set<int>)
    requires 0 <= lo <= hi <= 59 && 1 <= step <= INT64_MAX
    ensures values == set0 + Walk(lo, hi, step)
  {
    values := set0;
    var v := lo;
    while v <= hi
      invariant v >= -INT64_MAX - 1
      invariant values + Walk(v, hi, step) == set0 + Walk(lo, hi, step)
      decreases Measure(v, hi, step)
    {
      values := values + {v};
      v := Add64(v, step);
    }
  }

  /** The values the grammar means by `lo-hi/step`: the same loop on unbounded integers. */
  ghost function StepSet(lo: int, hi: int, step: int): set<int>
    requires step >= 1
    decreases hi - lo
  {
    if lo > hi then {} else {lo} + StepSet(lo + step, hi, step)
  }

  /** ... that is, the arithmetic progression from `lo` up to `hi`. */
  lemma {:induction false} StepSetIsProgression(lo: int, hi: int, step: int, x: int)
    requires step >= 1
    ensures x in StepSet(lo, hi, step) <==> x <= hi && exists k: nat :: x == lo + k * step
    decreases hi - lo
  {
    if lo <= hi {
      StepSetIsProgression(lo + step, hi, step, x);
      if k: nat :| x == lo + step + k * step {
        assert x == lo + (k + 1) * step;
      }
      if k: nat :| x == lo + k * step {
        if k > 0 {
          assert x == lo + step + (k - 1) * step;
        }
      }
      assert lo == lo + 0 * step;
    } else if k: nat :| x == lo + k * step {
      assert k * step >= 0;
    }
  }

  lemma {:induction false} WalkWithoutWrap(v: int, hi: int, step: int)
    requires 0 <= v && 0 <= hi <= 59 && 1 <= step <= INT64_MAX - hi
    ensures Walk(v, hi, step) == StepSet(v, hi, step)
    decreases hi - v
  {
    if v <= hi {
      WalkWithoutWrap(v + step, hi, step);
    }
  }

  /** With a step so large that the counter wraps, every later value is below the
      position: either far negative or smaller by a multiple of two. */
  lemma {:induction false} WrappedWalkIsBelow(v: int, hi: int, step: int, x: int)
    requires 0 <= hi <= 59 && INT64_MAX - hi < step <= INT64_MAX && -200 <= v <= hi
    requires x in Walk(v, hi, step)
    ensures x <= v
    decreases Measure(v, hi, step)
  {
    if x != v && v + step > INT64_MAX {
      var deep := Add64(v, step);
      if x != deep {
        assert x in Walk(Add64(deep, step), hi, step);
        WrappedWalkIsBelow(deep + step, hi, step, x);
      }
    }
  }

  lemma WrappedWalk(lo: int, hi: int, step: int)
    requires 0 <= lo <= hi <= 59 && step <= INT64_MAX < lo + step
    ensures var back := lo + 2 * step - TWO_64;
      && lo in Walk(lo, hi, step) && back in Walk(lo, hi, step) && back < lo
      && forall x :: x in Walk(lo, hi, step) && x != lo ==> x <= back || x < 0
  {
    var deep, back := Add64(lo, step), lo + 2 * step - TWO_64;
    assert Walk(lo, hi, step) == {lo} + ({deep} + Walk(back, hi, step));
    assert back in Walk(back, hi, step);
    forall x | x in Walk(back, hi, step) ensures x <= back {
      WrappedWalkIsBelow(back, hi, step, x);
    }
  }

  /** A field part means what it says, on the values a clock can show, exactly when
      the second addition does not wrap back into the range. */
  lemma StepsExactly(lo: int, hi: int, step: int, min: int)
    requires 0 <= min <= lo <= hi <= 59 && 1 <= step <= INT64_MAX
    ensures (forall x :: x >= min ==> (x in Walk(lo, hi, step) <==> x in StepSet(lo, hi, step)))
       <==> (lo + step <= INT64_MAX || lo + 2 * step - TWO_64 < min)
  {
    if step <= INT64_MAX - hi {
      WalkWithoutWrap(lo, hi, step);
    } else {
      assert StepSet(lo + step, hi, step) == {};
      assert StepSet(lo, hi, step) == {lo};
      if lo + step <= INT64_MAX {
        assert Walk(lo, hi, step) == {lo} + Walk(lo + step, hi, step);
        assert Walk(lo + step, hi, step) == {};
      } else {
        WrappedWalk(lo, hi, step);
      }
    }
  }

  /** The part `59/9223372036854775807` is meant to allow minute 59 only; its walk also meets 57. */
  lemma HugeStepWalks()
    ensures 57 in Walk(59, 59, INT64_MAX) && 57 !in StepSet(59, 59, INT64_MAX)
  {
    WrappedWalk(59, 59, INT64_MAX);
    StepsExactly(59, 59, INT64_MAX, 0);
    assert StepSet(59 + INT64_MAX, 59, INT64_MAX) == {};
  }

  // ----- Fields

  /** The bounds and step of one part. */
  datatype Steps = Steps(lo: int, hi: int, step: int)

  function ParseStep(part: string): Result<(string, int)> {
    var k := Find(part, '/');
    if k == |part| then Ok((part, 1))
    else
      match Atoi(part[k + 1..])
      case None => Err(InvalidStep)
      case Some(n) => if n < 1 then Err(InvalidStep) else Ok((part[..k], n))
  }

  function ParseBase(base: string, step: int, min: int, max: int): (r: Result<Steps>)
    requires min <= max
    ensures r.Ok? ==> min <= r.value.lo <= r.value.hi <= max && r.value.step == step
  {
    var k := Find(base, '-');
    if base == "*" then Ok(Steps(min, max, step))
    else if k < |base| then
      match BoundedValue(base[..k], min, max)
      case Err(e) => Err(e)
      case Ok(lo) =>
        match BoundedValue(base[k + 1..], min, max)
        case Err(e) => Err(e)
        case Ok(hi) => if lo > hi then Err(InvertedRange) else Ok(Steps(lo, hi, step))
    else
      match BoundedValue(base, min, max)
      case Err(e) => Err(e)
      case Ok(v) => Ok(Steps(v, if step > 1 then max else v, step))
  }

  function ParsePart(part: string, min: int, max: int): (r: Result<Steps>)
    requires min <= max
    ensures r.Ok? ==> min <= r.value.lo <= r.value.hi <= max && 1 <= r.value.step <= INT64_MAX
  {
    if part == "" then Err(EmptyValue)
    else
      match ParseStep(part)
      case Err(e) => Err(e)
      case Ok((base, step)) => ParseBase(base, step, min, max)
  }

  /** The values of a list of parts; the first malformed part decides the error. */
  ghost function FieldValues(parts: seq<string>, min: int, max: int): Result<set<int>>
    requires 0 <= min <= max <= 59
  {
    if parts == [] then Ok({})
    else
      var init := FieldValues(parts[..|parts| - 1], min, max);
      if init.Err? then init
      else
        match ParsePart(parts[|parts| - 1], min, max)
        case Err(e) => Err(e)
        case Ok(s) => Ok(init.value + Walk(s.lo, s.hi, s.step))
  }

  lemma {:induction false} FirstErrorStays(parts: seq<string>, k: nat, min: int, max: int)
    requires 0 <= min <= max <= 59 && k <= |parts| && FieldValues(parts[..k], min, max).Err?
    ensures FieldValues(parts, min, max) == FieldValues(parts[..k], min, max)
    decreases |parts| - k
  {
    if k < |parts| {
      assert parts[..k + 1][..k] == parts[..k];
      FirstErrorStays(parts, k + 1, min, max);
    } else {
      assert parts[..k] == parts;
    }
  }

  /** A field that parses always allows some value of its range. */
  lemma {:induction false} FieldHasValue(parts: seq<string>, min: int, max: int)
    requires 0 <= min <= max <= 59 && parts != [] && FieldValues(parts, min, max).Ok?
    ensures exists v :: min <= v <= max && v in FieldValues(parts, min, max).value
  {
    var s := ParsePart(parts[|parts| - 1], min, max).value;
    assert s.lo in Walk(s.lo, s.hi, s.step);
    assert s.lo in FieldValues(parts, min, max).value;
  }

  method ParseField(field: string, min: int, max: int) returns (r: Result<set<int>>)
    requires 0 <= min <= max <= 59
    ensures r == FieldValues(Split(field, ','), min, max)
    ensures r.Ok? ==> exists v :: min <= v <= max && v in r.value
  {
    var parts := Split(field, ',');
    var values := {};
    for i := 0 to |parts|
      invariant FieldValues(parts[..i], min, max) == Ok(values)
    {
      assert parts[..i + 1][..i] == parts[..i];
      match ParsePart(parts[i], min, max)
      case Err(e) =>
        FirstErrorStays(parts, i + 1, min, max);
        return Err(e);
      case Ok(s) =>
        values := Expand(values, s.lo, s.hi, s.step);
    }
    assert parts[..|parts|] == parts;
    FieldHasValue(parts, min, max);
    r := if values == {} then Err(NoValue) else Ok(values);
  }

  // ----- The supported grammar, from its text

  datatype Base = Star | Value(v: nat) | Range(lo: nat, hi: nat)

  datatype Part = Part(base: Base, step: Option<nat>)

  predicate ValidPart(p: Part, min: nat, max: nat) {
    && (match p.base
        case Star => true
        case Value(v) => min <= v <= max
        case Range(lo, hi) => min <= lo <= hi <= max)
    && (p.step.Some? ==> 1 <= p.step.value <= INT64_MAX)
  }

  function BaseText(b: Base): string {
    match b
    case Star => "*"
    case Value(v) => Digits(v)
    case Range(lo, hi) => Digits(lo) + ['-'] + Digits(hi)
  }

  function PartText(p: Part): string {
    match p.step
    case None => BaseText(p.base)
    case Some(n) => BaseText(p.base) + ['/'] + Digits(n)
  }

  function Meaning(p: Part, max: nat, min: nat): (s: Steps)
    requires min <= max && ValidPart(p, min, max)
    ensures min <= s.lo <= s.hi <= max && 1 <= s.step <= INT64_MAX
  {
    var step := if p.step.Some? then p.step.value else 1;
    match p.base
    case Star => Steps(min, max, step)
    case Value(v) => Steps(v, if step > 1 then max else v, step)
    case Range(lo, hi) => Steps(lo, hi, step)
  }

  lemma NotInDigits(n: nat, c: char)
    requires !IsDigit(c)
    ensures c !in Digits(n) && Find(Digits(n), c) == |Digits(n)|
  {
    DigitsAreDecimal(n);
  }

  lemma BaseTextFree(b: Base, c: char)
    requires c == '/' || c == ','
    ensures c !in BaseText(b) && Find(BaseText(b), c) == |BaseText(b)| && BaseText(b) != ""
  {
    match b
    case Star =>
    case Value(v) =>
      NotInDigits(v, c);
      DigitsAreDecimal(v);
    case Range(lo, hi) =>
      NotInDigits(lo, c);
      NotInDigits(hi, c);
  }

  lemma ValueRoundTrip(v: nat, min: nat, max: nat)
    requires min <= v <= max <= 59
    ensures BoundedValue(Digits(v), min, max) == Ok(v)
  {
    hide Digits, Atoi, TrimSpace;
    NumberRoundTrip(v);
  }

  lemma BaseRoundTrip(b: Base, step: nat, min: nat, max: nat)
    requires min <= max <= 59 && ValidPart(Part(b, Some(step)), min, max)
    ensures ParseBase(BaseText(b), step, min, max) == Ok(Meaning(Part(b, Some(step)), max, min))
  {
    hide Digits, BoundedValue;
    match b
    case Star =>
    case Value(v) =>
      NotInDigits(v, '-');
      NotInDigits(v, '*');
      assert '*' in "*";
      ValueRoundTrip(v, min, max);
    case Range(lo, hi) =>
      NotInDigits(lo, '-');
      FindAt(Digits(lo), '-', Digits(hi));
      var text := BaseText(b);
      assert text[..|Digits(lo)|] == Digits(lo) && text[|Digits(lo)| + 1..] == Digits(hi);
      assert text[|Digits(lo)|] == '-';
      ValueRoundTrip(lo, min, max);
      ValueRoundTrip(hi, min, max);
  }

  lemma PartRoundTrip(p: Part, min: nat, max: nat)
    requires min <= max <= 59 && ValidPart(p, min, max)
    ensures ParsePart(PartText(p), min, max) == Ok(Meaning(p, max, min))
    ensures ',' !in PartText(p)
  {
    hide Digits, BaseText, Atoi, ParseBase;
    BaseTextFree(p.base, '/');
    BaseTextFree(p.base, ',');
    var text := PartText(p);
    if p.step.Some? {
      var n := p.step.value;
      FindAt(BaseText(p.base), '/', Digits(n));
      assert text[..|BaseText(p.base)|] == BaseText(p.base);
      assert text[|BaseText(p.base)| + 1..] == Digits(n);
      NumberRoundTrip(n);
      NotInDigits(n, ',');
      BaseRoundTrip(p.base, n, min, max);
    } else {
      BaseRoundTrip(p.base, 1, min, max);
    }
  }

  /** The union of what the parts mean. */
  ghost function Denotation(parts: seq<Part>, min: nat, max: nat): set<int>
    requires min <= max <= 59 && forall i :: 0 <= i < |parts| ==> ValidPart(parts[i], min, max)
  {
    if parts == [] then {}
    else
      var m := Meaning(parts[|parts| - 1], max, min);
      Denotation(parts[..|parts| - 1], min, max) + Walk(m.lo, m.hi, m.step)
  }

  function Texts(parts: seq<Part>): (r: seq<string>)
    ensures |r| == |parts| && forall i :: 0 <= i < |r| ==> r[i] == PartText(parts[i])
  {
    seq(|parts|, i requires 0 <= i < |parts| => PartText(parts[i]))
  }

  lemma {:induction false} TextsRoundTrip(parts: seq<Part>, min: nat, max: nat)
    requires min <= max <= 59 && forall i :: 0 <= i < |parts| ==> ValidPart(parts[i], min, max)
    ensures FieldValues(Texts(parts), min, max) == Ok(Denotation(parts, min, max))
    ensures Free(',', Texts(parts))
  {
    hide PartText, ParsePart, ValidPart, Meaning, Walk;
    if parts != [] {
      var init := parts[..|parts| - 1];
      TextsRoundTrip(init, min, max);
      assert Texts(parts)[..|parts| - 1] == Texts(init);
      PartRoundTrip(parts[|parts| - 1], min, max);
    }
  }

  /** Every field of the grammar, written out, parses to the set it denotes. */
  lemma FieldRoundTrip(parts: seq<Part>, min: nat, max: nat)
    requires min <= max <= 59 && parts != []
    requires forall i :: 0 <= i < |parts| ==> ValidPart(parts[i], min, max)
    ensures FieldValues(Split(Join(Texts(parts), ','), ','), min, max) == Ok(Denotation(parts, min, max))
  {
    TextsRoundTrip(parts, min, max);
    SplitJoin(Texts(parts), ',');
  }

  /** The counter of this part never wraps back into the range. */
  predicate Unwrapped(m: Steps, min: nat) {
    m.lo + m.step <= INT64_MAX || m.lo + 2 * m.step - TWO_64 < min
  }

  /** ... and it denotes the union of the progressions its parts spell out, as long as no
      part has a step large enough to wrap. */
  lemma {:induction false} FieldMeansProgressions(parts: seq<Part>, min: nat, max: nat, x: int)
    requires min <= max <= 59 && x >= min
    requires forall i :: 0 <= i < |parts| ==>
      ValidPart(parts[i], min, max) && Unwrapped(Meaning(parts[i], max, min), min)
    ensures x in Denotation(parts, min, max) <==>
            exists i :: 0 <= i < |parts| && var m := Meaning(parts[i], max, min); x in StepSet(m.lo, m.hi, m.step)
  {
    hide Meaning, ValidPart, Walk, StepSet;
    if parts != [] {
      var n := |parts| - 1;
      var m := Meaning(parts[n], max, min);
      FieldMeansProgressions(parts[..n], min, max, x);
      StepsExactly(m.lo, m.hi, m.step, min);
      assert forall i :: 0 <= i < n ==> parts[..n][i] == parts[i];
    }
  }

  // ----- What each kind of part means, from its text

  /** The part's text, as a field, allows the progression from `lo` up to `hi` by `step`. */
  ghost predicate FieldAllows(text: string, min: nat, max: nat, x: int, lo: int, hi: int, step: int)
    requires min <= max <= 59
  {
    var f := FieldValues(Split(text, ','), min, max);
    f.Ok? && (x in f.value <==> x <= hi && exists k: nat :: x == lo + k * step)
  }

  lemma OnePart(p: Part, min: nat, max: nat, x: int)
    requires min <= max <= 59 && x >= min && ValidPart(p, min, max) && Unwrapped(Meaning(p, max, min), min)
    ensures var m := Meaning(p, max, min); FieldAllows(PartText(p), min, max, x, m.lo, m.hi, m.step)
  {
    hide Meaning, ValidPart, Walk, StepSet, PartText;
    var m := Meaning(p, max, min);
    FieldRoundTrip([p], min, max);
    FieldMeansProgressions([p], min, max, x);
    assert Texts([p]) == [PartText(p)] && Join([PartText(p)], ',') == PartText(p);
    StepSetIsProgression(m.lo, m.hi, m.step, x);
    assert [p][0] == p;
  }

  /** A star with step `n` allows every `n`-th value from the least; no step is too large for it. */
  lemma StarWithStep(n: nat, min: nat, max: nat, x: int)
    requires 1 <= n <= INT64_MAX && min <= max <= 59 && x >= min
    ensures FieldAllows("*/" + Digits(n), min, max, x, min, max, n)
  {
    hide Digits, FieldAllows;
    var p := Part(Star, Some(n));
    assert PartText(p) == "*/" + Digits(n);
    OnePart(p, min, max, x);
  }

  /** `v/n` allows every `n`-th value from `v` on, and `v/1` just `v`. */
  lemma ValueWithStep(v: nat, n: nat, min: nat, max: nat, x: int)
    requires 1 <= n <= INT64_MAX && min <= v <= max <= 59 && x >= min
    requires v + n <= INT64_MAX || v + 2 * n - TWO_64 < min
    ensures FieldAllows(Digits(v) + "/" + Digits(n), min, max, x, v, if n == 1 then v else max, n)
  {
    hide Digits, FieldAllows;
    var p := Part(Value(v), Some(n));
    assert PartText(p) == Digits(v) + "/" + Digits(n);
    OnePart(p, min, max, x);
  }

  /** `a-b/n` allows every `n`-th value from `a` up to `b`. */
  lemma RangeWithStep(a: nat, b: nat, n: nat, min: nat, max: nat, x: int)
    requires 1 <= n <= INT64_MAX && min <= a <= b <= max <= 59 && x >= min
    requires a + n <= INT64_MAX || a + 2 * n - TWO_64 < min
    ensures FieldAllows(Digits(a) + "-" + Digits(b) + "/" + Digits(n), min, max, x, a, b, n)
  {
    hide Digits, FieldAllows;
    var p := Part(Range(a, b), Some(n));
    assert PartText(p) == Digits(a) + "-" + Digits(b) + "/" + Digits(n);
    OnePart(p, min, max, x);
  }

  /** Without a step `*` allows the whole range, `a` just `a`, and `a-b` what lies between. */
  lemma WithoutStep(a: nat, b: nat, min: nat, max: nat, x: int)
    requires min <= a <= b <= max <= 59 && x >= min
    ensures FieldAllows("*", min, max, x, min, max, 1)
    ensures FieldAllows(Digits(a), min, max, x, a, a, 1)
    ensures FieldAllows(Digits(a) + "-" + Digits(b), min, max, x, a, b, 1)
  {
    hide Digits, FieldAllows;
    var star, value, range := Part(Star, None), Part(Value(a), None), Part(Range(a, b), None);
    assert PartText(star) == "*" && PartText(value) == Digits(a) && PartText(range) == Digits(a) + "-" + Digits(b);
    OnePart(star, min, max, x);
    OnePart(value, min, max, x);
    OnePart(range, min, max, x);
  }

  // ----- Expressions

  /** `strings.Fields`: the maximal runs without white space. */
  function Fields(s: string): seq<string>
    decreases |s|
  {
    if s == "" then []
    else if IsSpace(s[0]) then Fields(s[1..])
    else
      var k := Run(s);
      [s[..k]] + Fields(s[k..])
  }

  function Run(s: string): (k: nat)
    ensures k <= |s| && (s != "" && !IsSpace(s[0]) ==> k > 0)
  {
    if s == "" || IsSpace(s[0]) then 0 else 1 + Run(s[1..])
  }

  lemma StarAllowsAll(min: int, max: int)
    requires 0 <= min <= max <= 59
    ensures FieldValues(Split("*", ','), min, max).Ok?
    ensures forall v :: min <= v <= max ==> v in FieldValues(Split("*", ','), min, max).value
  {
    assert Find("*", ',') == 1 && Split("*", ',') == ["*"];
    assert Find("*", '/') == 1;
    assert ParsePart("*", min, max) == Ok(Steps(min, max, 1));
    var parts := ["*"];
    assert FieldValues(parts[..0], min, max) == Ok({});
    assert FieldValues(parts, min, max).value == {} + Walk(min, max, 1);
    WalkWithoutWrap(min, max, 1);
    forall v | min <= v <= max ensures v in StepSet(min, max, 1) {
      StepSetIsProgression(min, max, 1, v);
      assert v == min + (v - min) * 1;
    }
  }

  /** The error of the first field, left to right, that does not parse. */
  ghost function FirstError(f: seq<string>): Option<ParseError>
    requires |f| == 5
  {
    var minutes, hours := FieldValues(Split(f[0], ','), 0, 59), FieldValues(Split(f[1], ','), 0, 23);
    var days, months := FieldValues(Split(f[2], ','), 1, 31), FieldValues(Split(f[3], ','), 1, 12);
    var weekdays := FieldValues(Split(f[4], ','), 0, 6);
    if minutes.Err? then Some(minutes.error)
    else if hours.Err? then Some(hours.error)
    else if days.Err? then Some(days.error)
    else if months.Err? then Some(months.error)
    else if weekdays.Err? then Some(weekdays.error)
    else None
  }

  /** The schedule holds the values of the expression's five fields. */
  ghost predicate ParsesTo(expr: string, s: Schedule) {
    var f := Fields(expr);
    && |f| == 5
    && FieldValues(Split(f[0], ','), 0, 59) == Ok(s.minutes) && FieldValues(Split(f[1], ','), 0, 23) == Ok(s.hours)
    && FieldValues(Split(f[2], ','), 1, 31) == Ok(s.days) && FieldValues(Split(f[3], ','), 1, 12) == Ok(s.months)
    && FieldValues(Split(f[4], ','), 0, 6) == Ok(s.weekdays)
    && s.dayRestricted == (f[2] != "*") && s.weekdayRestricted == (f[4] != "*")
  }

  method Parse(expr: string) returns (r: Result<Schedule>)
    ensures r.Ok? ==> ParsesTo(expr, r.value) && CronReach.WellFormed(r.value)
    ensures |Fields(expr)| != 5 ==> r == Err(FieldCount)
    ensures |Fields(expr)| == 5 && r.Err? ==> FirstError(Fields(expr)) == Some(r.error)
  {
    var fields := Fields(expr);
    if |fields| != 5 {
      return Err(FieldCount);
    }
    var minutes := ParseField(fields[0], 0, 59);
    if minutes.Err? { return Err(minutes.error); }
    var hours := ParseField(fields[1], 0, 23);
    if hours.Err? { return Err(hours.error); }
    var days := ParseField(fields[2], 1, 31);
    if days.Err? { return Err(days.error); }
    var months := ParseField(fields[3], 1, 12);
    if months.Err? { return Err(months.error); }
    var weekdays := ParseField(fields[4], 0, 6);
    if weekdays.Err? { return Err(weekdays.error); }
    StarAllowsAll(1, 31);
    StarAllowsAll(0, 6);
    r := Ok(Schedule(minutes.value, hours.value, days.value, months.value, weekdays.value,
                     fields[2] != "*", fields[4] != "*"));
  }
}
