/** The regular expressions the route compiler emits: their text, how a regular expression
    engine reads that text, and the language it then denotes.

    The reader has a syntax of its own, that of RE2 as far as the expressions in this
    package go: escapes, any character, classes by their ranges with `+` and `*`, groups of
    literal alternatives, and the two anchors.  A character that is an operator there
    never reads as itself, unless it is escaped. */
module RouteRegex {
  import opened Text
  import opened Wrappers

  datatype Times = Once | AnyTimes | AtLeastOnce

  datatype Item =
    | Char(c: char)
    | Any
    | Class(ranges: seq<(char, char)>, times: Times)
    | OneOf(values: seq<string>)

  // ----- The language

  /** The unreserved characters of section 2.3 of RFC 3986. */
  predicate IsUnreserved(c: char) {
    || 'A' <= c <= 'Z' || 'a' <= c <= 'z' || '0' <= c <= '9'
    || c == '.' || c == '_' || c == '~' || c == '-'
  }

  predicate UnreservedText(s: string) {
    s != "" && forall i :: 0 <= i < |s| ==> IsUnreserved(s[i])
  }

  predicate InRanges(c: char, ranges: seq<(char, char)>) {
    exists i :: 0 <= i < |ranges| && ranges[i].0 <= c <= ranges[i].1
  }

  predicate ClassAccepts(ranges: seq<(char, char)>, times: Times, w: string) {
    && (times.Once? ==> |w| == 1) && (times.AtLeastOnce? ==> w != "")
    && forall i :: 0 <= i < |w| ==> InRanges(w[i], ranges)
  }

  predicate ItemAccepts(item: Item, w: string) {
    match item
    case Char(c) => w == [c]
    case Any => |w| == 1 && w != "\n"
    case Class(ranges, times) => ClassAccepts(ranges, times, w)
    case OneOf(values) => w in values
  }

  ghost predicate Accepts(items: seq<Item>, s: string)
    decreases |items|
  {
    if items == [] then s == ""
    else exists k :: 0 <= k <= |s| && ItemAccepts(items[0], s[..k]) && Accepts(items[1..], s[k..])
  }

  lemma AcceptsOne(item: Item, s: string)
    ensures Accepts([item], s) <==> ItemAccepts(item, s)
  {
    var items := [item];
    assert items[1..] == [];
    if ItemAccepts(item, s) {
      assert s[..|s|] == s && s[|s|..] == "";
      assert Accepts(items[1..], s[|s|..]);
    }
    if Accepts(items, s) {
      var k :| 0 <= k <= |s| && ItemAccepts(items[0], s[..k]) && Accepts(items[1..], s[k..]);
      assert s[..k] == s;
    }
  }

  lemma AcceptsFirst(items: seq<Item>, s: string, k: nat)
    requires items != [] && k <= |s| && ItemAccepts(items[0], s[..k]) && Accepts(items[1..], s[k..])
    ensures Accepts(items, s)
  {
  }

  lemma FirstAccepts(items: seq<Item>, s: string) returns (k: nat)
    requires items != [] && Accepts(items, s)
    ensures k <= |s| && ItemAccepts(items[0], s[..k]) && Accepts(items[1..], s[k..])
  {
    k :| 0 <= k <= |s| && ItemAccepts(items[0], s[..k]) && Accepts(items[1..], s[k..]);
  }

  lemma AcceptsNone(s: string)
    ensures Accepts([], s) <==> s == ""
  {
  }

  lemma {:induction false} ConcatAccepts(a: seq<Item>, b: seq<Item>, s: string, k: nat)
    requires k <= |s| && Accepts(a, s[..k]) && Accepts(b, s[k..])
    ensures Accepts(a + b, s)
    decreases |a|
  {
    hide Accepts, ItemAccepts;
    if a == [] {
      AcceptsNone(s[..k]);
      assert a + b == b && s[k..] == s;
    } else {
      var j := FirstAccepts(a, s[..k]);
      assert s[..k][..j] == s[..j];
      assert s[..k][j..] == s[j..][..k - j];
      assert s[j..][k - j..] == s[k..];
      ConcatAccepts(a[1..], b, s[j..], k - j);
      assert (a + b)[1..] == a[1..] + b;
      AcceptsFirst(a + b, s, j);
    }
  }

  lemma {:induction false} AcceptsConcat(a: seq<Item>, b: seq<Item>, s: string) returns (k: nat)
    requires Accepts(a + b, s)
    ensures k <= |s| && Accepts(a, s[..k]) && Accepts(b, s[k..])
    decreases |a|
  {
    hide Accepts, ItemAccepts;
    if a == [] {
      assert a + b == b && s[0..] == s;
      k := 0;
      AcceptsNone(s[..0]);
    } else {
      assert (a + b)[1..] == a[1..] + b;
      var j := FirstAccepts(a + b, s);
      var i := AcceptsConcat(a[1..], b, s[j..]);
      k := j + i;
      assert s[..k][..j] == s[..j];
      assert s[..k][j..] == s[j..][..i];
      assert s[j..][i..] == s[k..];
      AcceptsFirst(a, s[..k], j);
    }
  }

  function Chars(s: string): (r: seq<Item>)
    ensures |r| == |s|
  {
    seq(|s|, i requires 0 <= i < |s| => Char(s[i]))
  }

  lemma {:induction false} CharsAccept(lit: string, s: string)
    ensures Accepts(Chars(lit), s) <==> s == lit
    decreases |lit|
  {
    if lit != "" {
      assert Chars(lit)[1..] == Chars(lit[1..]);
      assert lit == [lit[0]] + lit[1..];
      if s == lit {
        CharsAccept(lit[1..], s[1..]);
        assert s[..1] == [lit[0]];
      }
      if Accepts(Chars(lit), s) {
        var k :| 0 <= k <= |s| && ItemAccepts(Chars(lit)[0], s[..k]) && Accepts(Chars(lit)[1..], s[k..]);
        CharsAccept(lit[1..], s[k..]);
        assert s == s[..k] + s[k..];
      }
    }
  }

  // ----- The text

  /** The characters `regexp.QuoteMeta` escapes. */
  predicate IsMeta(c: char) {
    c in "\\.+*?()|[]{}^$"
  }

  function QuoteMeta(s: string): string {
    if s == "" then ""
    else (if IsMeta(s[0]) then ['\\', s[0]] else [s[0]]) + QuoteMeta(s[1..])
  }

  const CLASS := "[A-Za-z0-9._~-]+"

  function Alternatives(values: seq<string>): string {
    if values == [] then ""
    else if |values| == 1 then QuoteMeta(values[0])
    else QuoteMeta(values[0]) + "|" + Alternatives(values[1..])
  }

  /** The text of an emitted item; the only class emitted is the unreserved one. */
  function ItemText(item: Item): string {
    match item
    case Char(c) => QuoteMeta([c])
    case Any => "."
    case Class(_, _) => CLASS
    case OneOf(values) => "(" + Alternatives(values) + ")"
  }

  function ItemsText(items: seq<Item>): string {
    if items == [] then "" else ItemText(items[0]) + ItemsText(items[1..])
  }

  predicate Emitted(item: Item) {
    match item
    case Char(_) => true
    case Any => false
    case Class(_, _) => item == UNRESERVED
    case OneOf(values) => values != []
  }

  // ----- Reading the text

  /** Characters that stand for something other than themselves. */
  predicate IsOperator(c: char) {
    || c == '\\' || c == '.' || c == '+' || c == '*' || c == '?' || c == '|' || c == '^' || c == '$'
    || c == '(' || c == ')' || c == '[' || c == ']' || c == '{' || c == '}'
  }

  predicate IsAlphanumeric(c: char) {
    'A' <= c <= 'Z' || 'a' <= c <= 'z' || '0' <= c <= '9'
  }

  /** One literal character and what follows it: itself, if it is no operator, or escaped, if
      it is ASCII and neither a letter nor a digit. */
  function ReadChar(s: string): (r: Option<(char, string)>)
    ensures r.Some? ==> |r.value.1| < |s|
  {
    if s == "" then None
    else if s[0] == '\\' then
      if |s| >= 2 && s[1] < '\U{80}' && !IsAlphanumeric(s[1]) then Some((s[1], s[2..])) else None
    else if IsOperator(s[0]) then None
    else Some((s[0], s[1..]))
  }

  /** The ranges of a class, up to `]`, and what follows it. */
  function ReadRanges(s: string): (r: Option<(seq<(char, char)>, string)>)
    ensures r.Some? ==> |r.value.1| < |s|
    decreases |s|
  {
    if s == "" || s[0] == '\\' || s[0] == '[' then None
    else if s[0] == ']' then Some(([], s[1..]))
    else
      var wide := |s| >= 3 && s[1] == '-' && s[2] != ']';
      var range := (s[0], if wide then s[2] else s[0]);
      if wide && (s[2] == '\\' || s[2] == '[' || s[2] < s[0]) then None
      else
        match ReadRanges(if wide then s[3..] else s[1..])
        case None => None
        case Some((ranges, rest)) => Some(([range] + ranges, rest))
  }

  /** A class that is not negated, with what repeats it. */
  function ReadClass(s: string): (r: Option<(Item, string)>)
    ensures r.Some? ==> |r.value.1| < |s|
  {
    if s != "" && s[0] == '^' then None
    else
      match ReadRanges(s)
      case None => None
      case Some((ranges, rest)) =>
        if rest == "" then Some((Class(ranges, Once), rest))
        else if rest[0] == '+' then Some((Class(ranges, AtLeastOnce), rest[1..]))
        else if rest[0] == '*' then Some((Class(ranges, AnyTimes), rest[1..]))
        else if rest[0] == '?' || rest[0] == '{' then None
        else Some((Class(ranges, Once), rest))
  }

  /** The rest of a group: the alternative read so far, then the others, up to `)`. */
  function ReadGroup(s: string, current: string): (r: Option<(seq<string>, string)>)
    ensures r.Some? ==> |r.value.1| < |s| && |r.value.0| > 0
    decreases |s|
  {
    if s == "" then None
    else if s[0] == ')' then Some(([current], s[1..]))
    else if s[0] == '|' then
      match ReadGroup(s[1..], "")
      case None => None
      case Some((others, rest)) => Some(([current] + others, rest))
    else
      match ReadChar(s)
      case None => None
      case Some((c, rest)) => ReadGroup(rest, current + [c])
  }

  function ReadItem(s: string): (r: Option<(Item, string)>)
    ensures r.Some? ==> |r.value.1| < |s|
  {
    if s == "" then None
    else if s[0] == '.' then Some((Any, s[1..]))
    else if s[0] == '[' then ReadClass(s[1..])
    else if s[0] == '(' then
      match ReadGroup(s[1..], "")
      case None => None
      case Some((values, rest)) => Some((OneOf(values), rest))
    else
      match ReadChar(s)
      case None => None
      case Some((c, rest)) => Some((Char(c), rest))
  }

  predicate IsRepetition(s: string) {
    s != "" && (s[0] == '+' || s[0] == '*' || s[0] == '?' || s[0] == '{')
  }

  function ReadItems(s: string): Option<seq<Item>>
    decreases |s|
  {
    if s == "$" then Some([])
    else
      match ReadItem(s)
      case None => None
      case Some((item, rest)) =>
        if IsRepetition(rest) then None
        else
          match ReadItems(rest)
          case None => None
          case Some(items) => Some([item] + items)
  }

  /** An expression anchored at both ends. */
  function ReadRegex(s: string): Option<seq<Item>> {
    if s == "" || s[0] != '^' then None else ReadItems(s[1..])
  }

  // ----- Reading undoes writing

  lemma QuotedChar(c: char, rest: string)
    ensures ReadChar(QuoteMeta([c]) + rest) == Some((c, rest))
    ensures QuoteMeta([c]) != "" && QuoteMeta([c])[0] !in ".()|[$+*?{"
  {
    assert [c][1..] == "" && QuoteMeta("") == "";
    var q := QuoteMeta([c]);
    if IsMeta(c) {
      assert q == ['\\', c];
      assert (q + rest)[2..] == rest;
    } else {
      assert q == [c];
      assert (q + rest)[1..] == rest;
      assert !IsOperator(c);
    }
  }

  lemma QuoteHead(s: string)
    requires s != ""
    ensures QuoteMeta(s) == QuoteMeta([s[0]]) + QuoteMeta(s[1..])
  {
    assert [s[0]][1..] == "" && QuoteMeta("") == "";
  }

  lemma QuoteNothing()
    ensures QuoteMeta("") == ""
  {
  }

  lemma ReadQuotedInGroup(c: char, current: string, rest: string)
    ensures ReadGroup(QuoteMeta([c]) + rest, current) == ReadGroup(rest, current + [c])
  {
    hide QuoteMeta, ReadChar;
    QuotedChar(c, rest);
    FirstIsPlain(QuoteMeta([c])[0]);
    assert (QuoteMeta([c]) + rest)[0] == QuoteMeta([c])[0];
  }

  lemma {:induction false} ReadAlternative(value: string, current: string, tail: string)
    ensures ReadGroup(QuoteMeta(value) + tail, current) == ReadGroup(tail, current + value)
    decreases |value|
  {
    hide QuoteMeta, ReadChar, ReadGroup;
    if value == "" {
      QuoteNothing();
      assert "" + tail == tail && current + value == current;
    } else {
      QuoteHead(value);
      var q, rest := QuoteMeta([value[0]]), QuoteMeta(value[1..]) + tail;
      assert QuoteMeta(value) + tail == q + rest;
      ReadQuotedInGroup(value[0], current, rest);
      ReadAlternative(value[1..], current + [value[0]], tail);
      assert current + [value[0]] + value[1..] == current + value;
    }
  }

  lemma {:induction false} ReadAlternatives(values: seq<string>, rest: string)
    requires values != []
    ensures ReadGroup(Alternatives(values) + ")" + rest, "") == Some((values, rest))
    decreases |values|
  {
    hide QuoteMeta, ReadChar;
    if |values| == 1 {
      var tail := ")" + rest;
      assert Alternatives(values) + ")" + rest == QuoteMeta(values[0]) + tail;
      ReadAlternative(values[0], "", tail);
      assert tail[1..] == rest && "" + values[0] == values[0] && values == [values[0]];
    } else {
      var others := Alternatives(values[1..]) + ")" + rest;
      var tail := "|" + others;
      assert Alternatives(values) + ")" + rest == QuoteMeta(values[0]) + tail;
      ReadAlternative(values[0], "", tail);
      ReadAlternatives(values[1..], rest);
      assert tail[1..] == others && "" + values[0] == values[0];
      assert values == [values[0]] + values[1..];
    }
  }

  /** Every emitted expression reads back as the items it was written from. */
  lemma {:induction false} ReadWritten(items: seq<Item>)
    requires forall i :: 0 <= i < |items| ==> Emitted(items[i])
    ensures ReadItems(ItemsText(items) + "$") == Some(items)
    ensures !IsRepetition(ItemsText(items) + "$")
    decreases |items|
  {
    hide ReadItems, ReadItem, ItemText, IsRepetition;
    if items == [] {
      ReadEnd();
    } else {
      var rest := ItemsText(items[1..]) + "$";
      ReadWritten(items[1..]);
      assert ItemsText(items) + "$" == ItemText(items[0]) + rest;
      assert items == [items[0]] + items[1..];
      ReadWrittenItem(items[0], rest);
      ReadNext(ItemText(items[0]) + rest, items[0], rest, items[1..]);
    }
  }

  lemma ReadEnd()
    ensures ReadItems("" + "$") == Some([]) && !IsRepetition("" + "$")
  {
    assert "" + "$" == "$";
  }

  lemma ReadNext(s: string, item: Item, rest: string, items: seq<Item>)
    requires ReadItem(s) == Some((item, rest)) && s != "" && s[0] != '$' && !IsRepetition(rest)
    requires ReadItems(rest) == Some(items)
    ensures ReadItems(s) == Some([item] + items)
  {
    hide ReadItem, IsRepetition;
    assert "$"[0] == '$';
  }

  lemma ReadWrittenItem(item: Item, rest: string)
    requires Emitted(item) && !IsRepetition(rest)
    ensures var s := ItemText(item) + rest;
      ReadItem(s) == Some((item, rest)) && s != "" && s[0] != '$' && !IsRepetition(s)
  {
    hide QuoteMeta, ReadChar, Alternatives, ReadGroup, ReadClass;
    var s := ItemText(item) + rest;
    match item
    case Char(c) =>
      QuotedChar(c, rest);
      assert s[0] == QuoteMeta([c])[0];
      FirstIsPlain(QuoteMeta([c])[0]);
    case Class(_, _) =>
      ReadUnreserved(rest);
      assert s[0] == CLASS[0] == '[' && s[1..] == CLASS[1..] + rest;
    case OneOf(values) =>
      assert s[0] == '(' && s[1..] == Alternatives(values) + ")" + rest;
      ReadAlternatives(values, rest);
  }

  lemma FirstIsPlain(c: char)
    requires c !in ".()|[$+*?{"
    ensures c != '.' && c != '(' && c != '[' && c != '$' && c != '+' && c != '*' && c != '?' && c != '{'
    ensures c != ')' && c != '|'
  {
    var ops := ".()|[$+*?{";
    assert ops[0] == '.' && ops[1] == '(' && ops[4] == '[' && ops[5] == '$' && ops[6] == '+' && ops[7] == '*';
    assert ops[8] == '?' && ops[9] == '{' && ops[2] == ')' && ops[3] == '|';
  }

  // ----- Classes by their ranges

  function Singles(s: string): (r: seq<(char, char)>)
    ensures |r| == |s| && forall i :: 0 <= i < |r| ==> r[i] == (s[i], s[i])
  {
    seq(|s|, i requires 0 <= i < |s| => (s[i], s[i]))
  }

  lemma InSingles(c: char, s: string)
    ensures InRanges(c, Singles(s)) <==> c in s
  {
    if c in s {
      var i :| 0 <= i < |s| && s[i] == c;
      assert Singles(s)[i].0 <= c <= Singles(s)[i].1;
    }
  }

  lemma InConcat(c: char, a: seq<(char, char)>, b: seq<(char, char)>)
    ensures InRanges(c, a + b) <==> InRanges(c, a) || InRanges(c, b)
  {
    if InRanges(c, a) {
      var i :| 0 <= i < |a| && a[i].0 <= c <= a[i].1;
      assert (a + b)[i] == a[i];
    }
    if InRanges(c, b) {
      var i :| 0 <= i < |b| && b[i].0 <= c <= b[i].1;
      assert (a + b)[|a| + i] == b[i];
    }
    if InRanges(c, a + b) {
      var i :| 0 <= i < |a + b| && (a + b)[i].0 <= c <= (a + b)[i].1;
      assert if i < |a| then (a + b)[i] == a[i] else (a + b)[i] == b[i - |a|];
    }
  }

  /** Plain in a class: neither a bracket nor an escape; a dash only at the end. */
  predicate PlainSingles(s: string) {
    forall i :: 0 <= i < |s| ==> s[i] !in "[]\\" && (s[i] == '-' ==> i == |s| - 1)
  }

  /** Single characters in a class, read to its end. */
  lemma {:induction false} ReadSingles(s: string, rest: string)
    requires PlainSingles(s)
    ensures ReadRanges(s + "]" + rest) == Some((Singles(s), rest))
    decreases |s|
  {
    var t := s + "]" + rest;
    if s == "" {
      assert t[0] == ']' && t[1..] == rest && Singles(s) == [];
    } else {
      NotABracket(s[0]);
      assert t[0] == s[0] && t[1] == if |s| > 1 then s[1] else ']';
      assert |s| == 2 ==> t[2] == ']';
      assert t[1..] == s[1..] + "]" + rest;
      assert Singles(s) == [(s[0], s[0])] + Singles(s[1..]);
      ReadSingles(s[1..], rest);
    }
  }

  lemma NotABracket(c: char)
    requires c !in "[]\\"
    ensures c != '[' && c != ']' && c != '\\'
  {
    var ops := "[]\\";
    assert ops[0] == '[' && ops[1] == ']' && ops[2] == '\\';
  }

  /** A range of letters or digits, then the rest of the class. */
  lemma ReadWide(a: char, b: char, s: string)
    requires IsAlphanumeric(a) && IsAlphanumeric(b) && a <= b
    ensures ReadRanges([a, '-', b] + s)
         == match ReadRanges(s) case None => None case Some((ranges, rest)) => Some(([(a, b)] + ranges, rest))
  {
    var t := [a, '-', b] + s;
    assert t[0] == a && t[1] == '-' && t[2] == b && t[3..] == s;
  }

  const UNRESERVED_RANGES: seq<(char, char)> := [('A', 'Z'), ('a', 'z'), ('0', '9')] + Singles("._~-")

  const UNRESERVED: Item := Class(UNRESERVED_RANGES, AtLeastOnce)

  /** The class text, read by its ranges, is the unreserved characters. */
  lemma ReadUnreserved(rest: string)
    requires !IsRepetition(rest)
    ensures ReadClass(CLASS[1..] + rest) == Some((UNRESERVED, rest))
  {
    hide ReadRanges;
    var tail := "._~-" + "]" + ("+" + rest);
    ReadSingles("._~-", "+" + rest);
    ReadWide('0', '9', tail);
    ReadWide('a', 'z', ['0', '-', '9'] + tail);
    ReadWide('A', 'Z', ['a', '-', 'z'] + (['0', '-', '9'] + tail));
    var s := CLASS[1..] + rest;
    assert s == ['A', '-', 'Z'] + (['a', '-', 'z'] + (['0', '-', '9'] + tail));
    var ranges := [('A', 'Z')] + ([('a', 'z')] + ([('0', '9')] + Singles("._~-")));
    assert ranges == UNRESERVED_RANGES;
    assert ("+" + rest)[0] == '+' && ("+" + rest)[1..] == rest;
  }

  lemma UnreservedByRanges(c: char)
    ensures InRanges(c, UNRESERVED_RANGES) <==> IsUnreserved(c)
  {
    var wide, singles := [('A', 'Z'), ('a', 'z'), ('0', '9')], "._~-";
    InConcat(c, wide, Singles(singles));
    InSingles(c, singles);
    assert wide[0] == ('A', 'Z') && wide[1] == ('a', 'z') && wide[2] == ('0', '9');
    assert c in singles <==> c == singles[0] || c == singles[1] || c == singles[2] || c == singles[3];
  }

  lemma UnreservedAccepts(w: string)
    ensures ItemAccepts(UNRESERVED, w) <==> UnreservedText(w)
  {
    hide InRanges, IsUnreserved;
    forall i | 0 <= i < |w| ensures InRanges(w[i], UNRESERVED_RANGES) <==> IsUnreserved(w[i]) {
      UnreservedByRanges(w[i]);
    }
  }
}
