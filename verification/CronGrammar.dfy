/** Which texts are accepted, and as what: the parser against a grammar that cuts nothing. */
module CronGrammar {
  import opened Text
  import opened CronParse
  import opened CronLimits
  import opened Wrappers

  // ----- Words and the white space around them

  /** Words with a gap before each and one at the end; only the outer gaps may be empty. */
  ghost predicate IsSpread(gaps: seq<string>, words: seq<string>) {
    && |gaps| == |words| + 1
    && (forall i :: 0 <= i < |words| ==> IsWord(words[i]))
    && (forall i :: 0 <= i < |gaps| ==> AllSpace(gaps[i]) && (0 < i < |words| ==> gaps[i] != ""))
  }

  function Spread(gaps: seq<string>, words: seq<string>): string
    requires |gaps| == |words| + 1
  {
    if words == [] then gaps[0] else gaps[0] + (words[0] + Spread(gaps[1..], words[1..]))
  }

  lemma {:induction false} SkipGap(gap: string, rest: string)
    requires AllSpace(gap)
    ensures Fields(gap + rest) == Fields(rest)
    decreases |gap|
  {
    if gap == "" {
      assert gap + rest == rest;
    } else {
      assert (gap + rest)[1..] == gap[1..] + rest;
      SkipGap(gap[1..], rest);
    }
  }

  /** However an expression is spaced, its fields are its words. */
  lemma {:induction false} FieldsOfSpread(gaps: seq<string>, words: seq<string>)
    requires IsSpread(gaps, words)
    ensures Fields(Spread(gaps, words)) == words
    decreases |words|
  {
    hide Fields, IsWord;
    if words == [] {
      SkipGap(gaps[0], "");
      NoFields();
      assert gaps[0] + "" == gaps[0];
    } else {
      var rest := Spread(gaps[1..], words[1..]);
      FieldsOfSpread(gaps[1..], words[1..]);
      SkipGap(gaps[0], words[0] + rest);
      SpreadBegins(gaps[1..], words[1..]);
      FieldsOfWord(words[0], rest);
    }
  }

  lemma SpreadBegins(gaps: seq<string>, words: seq<string>)
    requires |gaps| == |words| + 1 && AllSpace(gaps[0]) && (words != [] ==> gaps[0] != "")
    ensures var s := Spread(gaps, words); s == "" || IsSpace(s[0])
  {
  }

  /** Every text is its fields, spaced in some way. */
  lemma {:induction false} EveryTextIsSpread(s: string) returns (gaps: seq<string>)
    ensures IsSpread(gaps, Fields(s)) && Spread(gaps, Fields(s)) == s
    decreases |s|
  {
    if s == "" {
      gaps := [""];
    } else if IsSpace(s[0]) {
      var inner := EveryTextIsSpread(s[1..]);
      gaps := [[s[0]] + inner[0]] + inner[1..];
      WiderGap(inner, Fields(s[1..]), s[0]);
      assert s == [s[0]] + s[1..];
    } else {
      var k := Run(s);
      RunIsWord(s);
      var inner := EveryTextIsSpread(s[k..]);
      gaps := [""] + inner;
      WordBefore(inner, Fields(s[k..]), s[..k]);
      assert s == s[..k] + s[k..];
    }
  }

  lemma WiderGap(gaps: seq<string>, words: seq<string>, c: char)
    requires IsSpread(gaps, words) && IsSpace(c)
    ensures var wider := [[c] + gaps[0]] + gaps[1..];
      IsSpread(wider, words) && Spread(wider, words) == [c] + Spread(gaps, words)
  {
    hide IsWord, IsSpace;
    var wider := [[c] + gaps[0]] + gaps[1..];
    assert wider[1..] == gaps[1..];
    assert forall i :: 0 < i < |gaps| ==> wider[i] == gaps[i];
  }

  lemma WordBefore(gaps: seq<string>, words: seq<string>, word: string)
    requires IsSpread(gaps, words) && IsWord(word)
    requires words != [] ==> gaps[0] != ""
    ensures IsSpread([""] + gaps, [word] + words)
    ensures Spread([""] + gaps, [word] + words) == word + Spread(gaps, words)
  {
    hide IsWord;
    var gaps', words' := [""] + gaps, [word] + words;
    assert gaps'[1..] == gaps && words'[1..] == words;
    assert "" + (word + Spread(gaps, words)) == word + Spread(gaps, words);
  }

  lemma {:induction false} RunIsWord(s: string)
    requires s != "" && !IsSpace(s[0])
    ensures var k := Run(s); k <= |s| && IsWord(s[..k]) && (k < |s| ==> IsSpace(s[k]))
    decreases |s|
  {
    if |s| > 1 && !IsSpace(s[1]) {
      RunIsWord(s[1..]);
    } else {
      assert Run(s) == 1;
    }
  }

  // ----- Numbers

  /** Digits, or digits after a sign, of this value. */
  predicate IsNumeral(t: string, v: int) {
    || (AllDigits(t) && v == Decimal(t))
    || (t != "" && t[0] == '+' && AllDigits(t[1..]) && v == Decimal(t[1..]))
    || (t != "" && t[0] == '-' && AllDigits(t[1..]) && v == 0 - Decimal(t[1..]))
  }

  /** A number is accepted exactly when it is a numeral of 64 bits. */
  lemma AtoiExactly(t: string, v: int)
    ensures Atoi(t) == Some(v) <==> IsNumeral(t, v) && -INT64_MAX - 1 <= v <= INT64_MAX
  {
    hide Decimal;
    if t != "" && (t[0] == '-' || t[0] == '+') {
      assert !IsDigit(t[0]);
    }
  }

  predicate IsBounded(t: string, v: int, min: nat, max: nat) {
    IsNumeral(TrimSpace(t), v) && min <= v <= max
  }

  lemma BoundedExactly(t: string, v: int, min: nat, max: nat)
    requires max <= 59
    ensures BoundedValue(t, min, max) == Ok(v) <==> IsBounded(t, v, min, max)
  {
    hide Atoi, IsNumeral, TrimSpace;
    AtoiExactly(TrimSpace(t), v);
  }

  // ----- Parts

  ghost predicate IsRangeOf(base: string, a: string, b: string, s: Steps, min: nat, max: nat) {
    base == a + ['-'] + b && '-' !in a && IsBounded(a, s.lo, min, max) && IsBounded(b, s.hi, min, max) && s.lo <= s.hi
  }

  /** A star, a range, or a value, which with a step goes on to the end. */
  ghost predicate IsBase(base: string, s: Steps, min: nat, max: nat) {
    || (base == "*" && s.lo == min && s.hi == max)
    || (exists a, b :: IsRangeOf(base, a, b, s, min, max))
    || ('-' !in base && IsBounded(base, s.lo, min, max) && s.hi == if s.step == 1 then s.lo else max)
  }

  ghost predicate IsStepped(part: string, base: string, step: string, s: Steps, min: nat, max: nat) {
    part == base + ['/'] + step && '/' !in base && IsNumeral(step, s.step) && IsBase(base, s, min, max)
  }

  /** A base alone, or a base, a slash and a positive step. */
  ghost predicate IsPart(part: string, s: Steps, min: nat, max: nat) {
    && 1 <= s.step <= INT64_MAX
    && (('/' !in part && s.step == 1 && IsBase(part, s, min, max))
        || exists base, step :: IsStepped(part, base, step, s, min, max))
  }

  /** A range can only be cut at its first dash. */
  lemma RangeCut(base: string, s: Steps, min: nat, max: nat)
    requires '-' in base
    ensures var k := Find(base, '-');
      && k < |base|
      && ((exists a, b :: IsRangeOf(base, a, b, s, min, max)) <==>
            IsRangeOf(base, base[..k], base[k + 1..], s, min, max))
  {
    hide IsBounded;
    var k := Find(base, '-');
    if a, b :| IsRangeOf(base, a, b, s, min, max) {
      FindAt(a, '-', b);
      assert base[..k] == a && base[k + 1..] == b;
    }
  }

  lemma ParseRange(base: string, step: int, min: nat, max: nat, s: Steps)
    requires min <= max <= 59 && '-' in base && s.step == step
    ensures ParseBase(base, step, min, max) == Ok(s) <==> exists a, b :: IsRangeOf(base, a, b, s, min, max)
  {
    hide BoundedValue, IsBounded;
    RangeCut(base, s, min, max);
    var k := Find(base, '-');
    var a, b := base[..k], base[k + 1..];
    assert base == a + ['-'] + b && '-' !in a && base != "*";
    BoundedExactly(a, s.lo, min, max);
    BoundedExactly(b, s.hi, min, max);
  }

  lemma ParseBaseExactly(base: string, step: int, min: nat, max: nat, s: Steps)
    requires min <= max <= 59 && step >= 1 && s.step == step
    ensures ParseBase(base, step, min, max) == Ok(s) <==> IsBase(base, s, min, max)
  {
    if '-' in base {
      assert base != "*";
      ParseRange(base, step, min, max, s);
    } else {
      hide BoundedValue, IsBounded;
      BoundedExactly(base, s.lo, min, max);
      assert forall a, b :: '-' in a + ['-'] + b;
    }
  }

  /** A part is accepted, with these bounds and step, exactly when the grammar says so. */
  lemma ParsePartExactly(part: string, min: nat, max: nat, s: Steps)
    requires min <= max <= 59
    ensures ParsePart(part, min, max) == Ok(s) <==> IsPart(part, s, min, max)
  {
    hide ParseBase, IsBase, Atoi, IsNumeral;
    var k := Find(part, '/');
    if k == |part| {
      assert '/' !in part;
      assert forall base, step :: '/' in base + ['/'] + step;
      EmptyIsNoBase(s, min, max);
      if s.step == 1 {
        ParseBaseExactly(part, 1, min, max, s);
      }
    } else {
      var base, step := part[..k], part[k + 1..];
      assert part == base + ['/'] + step;
      AtoiExactly(step, s.step);
      if s.step >= 1 {
        ParseBaseExactly(base, s.step, min, max, s);
      }
      if base', step' :| IsStepped(part, base', step', s, min, max) {
        FindAt(base', '/', step');
        assert base == base' && step == step';
      }
      if ParsePart(part, min, max) == Ok(s) {
        assert IsStepped(part, base, step, s, min, max);
      }
    }
  }

  lemma EmptyIsNoBase(s: Steps, min: nat, max: nat)
    ensures !IsBase("", s, min, max)
  {
    hide Decimal;
  }

  // ----- Fields

  ghost predicate PartAllows(part: string, min: nat, max: nat, x: int)
    requires min <= max <= 59
  {
    exists s :: IsPart(part, s, min, max) && StepsAllow(s, max, x)
  }

  /** The counter of these steps meets `x`. */
  ghost predicate StepsAllow(s: Steps, max: nat, x: int) {
    0 <= s.lo && 0 <= s.hi <= max <= 59 && 1 <= s.step <= INT64_MAX && x in Walk(s.lo, s.hi, s.step)
  }

  ghost predicate IsAnyPart(part: string, min: nat, max: nat) {
    exists s :: IsPart(part, s, min, max)
  }

  lemma PartExactly(part: string, min: nat, max: nat, x: int)
    requires min <= max <= 59
    ensures ParsePart(part, min, max).Ok? <==> IsAnyPart(part, min, max)
    ensures var r := ParsePart(part, min, max);
      r.Ok? ==> (x in Walk(r.value.lo, r.value.hi, r.value.step) <==> PartAllows(part, min, max, x))
  {
    hide ParsePart, IsPart, Walk;
    forall s { ParsePartExactly(part, min, max, s); }
    var r := ParsePart(part, min, max);
    if r.Ok? {
      assert IsPart(part, r.value, min, max);
      assert x in Walk(r.value.lo, r.value.hi, r.value.step) <==> StepsAllow(r.value, max, x);
    }
  }

  /** A field is accepted exactly when every one of its parts is, and allows what any of them
      allows. */
  lemma {:induction false} FieldExactly(parts: seq<string>, min: nat, max: nat, x: int)
    requires min <= max <= 59
    ensures var r := FieldValues(parts, min, max);
      && (r.Ok? <==> forall i :: 0 <= i < |parts| ==> IsAnyPart(parts[i], min, max))
      && (r.Ok? ==> (x in r.value <==> exists i :: 0 <= i < |parts| && PartAllows(parts[i], min, max, x)))
  {
    hide IsAnyPart, Walk, PartAllows, ParsePart;
    if parts != [] {
      var n := |parts| - 1;
      FieldExactly(parts[..n], min, max, x);
      PartExactly(parts[n], min, max, x);
      assert forall i :: 0 <= i < n ==> parts[..n][i] == parts[i];
    }
  }
}
