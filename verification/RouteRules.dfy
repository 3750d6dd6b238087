/** The meaning of a route, the rule text compiled from it, and `Covers`. */
module RouteRules {
  import opened Text
  import opened RouteRegex
  import opened AccessRoutes
  import opened Wrappers

  // ----- What a route stands for

  predicate SegmentAccepts(parameters: map<string, seq<string>>, segment: string, v: string) {
    if !IsPlaceholder(segment) then v == segment
    else
      var name := segment[1..];
      if name in parameters && parameters[name] != [] then v in parameters[name] else UnreservedText(v)
  }

  /** Segment by segment. */
  ghost predicate SegmentsAccept(parameters: map<string, seq<string>>, segments: seq<string>, parts: seq<string>) {
    |parts| == |segments|
    && forall i :: 0 <= i < |segments| ==> SegmentAccepts(parameters, segments[i], parts[i])
  }

  /** The subtree below a path: its segments begin the other's.  A trailing slash asks
      for at least one more segment, possibly empty. */
  ghost predicate InSubtree(segments: seq<string>, parts: seq<string>)
    requires segments != []
  {
    var n := |segments|;
    |parts| >= n && if segments[n - 1] == "" then parts[..n - 1] == segments[..n - 1] else parts[..n] == segments
  }

  ghost predicate RouteAccepts(r: Route, p: string) {
    if r.mode == PREFIX then InSubtree(Split(r.path, '/'), Split(p, '/'))
    else if r.mode == TEMPLATE then SegmentsAccept(r.parameters, Split(r.path, '/'), Split(p, '/'))
    else p == r.path
  }

  // ----- The compiled rule

  datatype Matcher = Path(p: string) | PathPrefix(p: string) | PathRegexp(text: string) | Either(a: Matcher, b: Matcher)

  ghost predicate MatcherAccepts(m: Matcher, p: string) {
    match m
    case Path(q) => p == q
    case PathPrefix(q) => q <= p
    case PathRegexp(text) => ReadRegex(text).Some? && Accepts(ReadRegex(text).value, p)
    case Either(a, b) => MatcherAccepts(a, p) || MatcherAccepts(b, p)
  }

  function SegmentItems(parameters: map<string, seq<string>>, segment: string): seq<Item> {
    if !IsPlaceholder(segment) then Chars(segment)
    else
      var name := segment[1..];
      if name in parameters && parameters[name] != [] then [OneOf(parameters[name])] else [UNRESERVED]
  }

  function TemplateItems(parameters: map<string, seq<string>>, segments: seq<string>): seq<Item> {
    if segments == [] then []
    else if |segments| == 1 then SegmentItems(parameters, segments[0])
    else SegmentItems(parameters, segments[0]) + [Char('/')] + TemplateItems(parameters, segments[1..])
  }

  function TemplateText(r: Route): string {
    "^" + ItemsText(TemplateItems(r.parameters, Split(r.path, '/'))) + "$"
  }

  function MatcherOf(r: Route): Matcher {
    if r.mode == PREFIX then
      (if r.path != "" && r.path[|r.path| - 1] == '/' then PathPrefix(r.path)
       else Either(Path(r.path), PathPrefix(r.path + "/")))
    else if r.mode == TEMPLATE then PathRegexp(TemplateText(r))
    else Path(r.path)
  }

  function RuleText(m: Matcher): string {
    match m
    case Path(q) => "Path(`" + q + "`)"
    case PathPrefix(q) => "PathPrefix(`" + q + "`)"
    case PathRegexp(text) => "PathRegexp(`" + text + "`)"
    case Either(a, b) => "(" + RuleText(a) + " || " + RuleText(b) + ")"
  }

  // ----- Writing the rule

  lemma {:induction false} ItemsTextConcat(a: seq<Item>, b: seq<Item>)
    ensures ItemsText(a + b) == ItemsText(a) + ItemsText(b)
    decreases |a|
  {
    hide ItemText;
    if a == [] {
      assert a + b == b;
    } else {
      assert (a + b)[1..] == a[1..] + b;
      ItemsTextConcat(a[1..], b);
    }
  }

  lemma ItemsTextOne(item: Item)
    ensures ItemsText([item]) == ItemText(item)
  {
    hide ItemText;
    assert [item][1..] == [];
    assert ItemText(item) + "" == ItemText(item);
  }

  lemma {:induction false} CharsText(s: string)
    ensures ItemsText(Chars(s)) == QuoteMeta(s)
    decreases |s|
  {
    if s != "" {
      hide ItemText, QuoteMeta;
      QuoteHead(s);
      assert Chars(s)[1..] == Chars(s[1..]);
      CharsText(s[1..]);
      CharItemText(s[0]);
    }
  }

  lemma CharItemText(c: char)
    ensures ItemText(Char(c)) == QuoteMeta([c])
  {
    hide QuoteMeta;
  }

  lemma {:induction false} TemplateItemsAppend(parameters: map<string, seq<string>>, segments: seq<string>,
                                               last: string)
    requires segments != []
    ensures TemplateItems(parameters, segments + [last])
         == TemplateItems(parameters, segments) + ([Char('/')] + SegmentItems(parameters, last))
    decreases |segments|
  {
    hide SegmentItems;
    var all := segments + [last];
    assert all[1..] == segments[1..] + [last];
    if |segments| > 1 {
      TemplateItemsAppend(parameters, segments[1..], last);
    }
  }

  lemma {:induction false} AlternativesAppend(values: seq<string>, v: string)
    requires values != []
    ensures Alternatives(values + [v]) == Alternatives(values) + "|" + QuoteMeta(v)
    decreases |values|
  {
    hide QuoteMeta;
    assert (values + [v])[1..] == values[1..] + [v];
    if |values| > 1 {
      AlternativesAppend(values[1..], v);
    }
  }

  /** A group of quoted alternatives. */
  method WriteGroup(values: seq<string>) returns (text: string)
    requires values != []
    ensures text == "(" + Alternatives(values) + ")"
  {
    hide QuoteMeta;
    text := "(";
    for n := 0 to |values|
      invariant text == "(" + Alternatives(values[..n])
    {
      if n > 0 {
        text := text + "|";
        AlternativesAppend(values[..n], values[n]);
      }
      assert values[..n + 1] == values[..n] + [values[n]];
      text := text + QuoteMeta(values[n]);
    }
    assert values[..|values|] == values;
    text := text + ")";
  }

  method WriteSegment(parameters: map<string, seq<string>>, segment: string) returns (text: string)
    ensures text == ItemsText(SegmentItems(parameters, segment))
  {
    hide QuoteMeta, ItemsText, Alternatives;
    if !IsPlaceholder(segment) {
      CharsText(segment);
      return QuoteMeta(segment);
    }
    var name := segment[1..];
    var values := if name in parameters then parameters[name] else [];
    if |values| == 0 {
      ItemsTextOne(UNRESERVED);
      return CLASS;
    }
    ItemsTextOne(OneOf(values));
    text := WriteGroup(values);
  }

  /** The rule for a route, built piece by piece. */
  method PathExpression(r: Route) returns (text: string)
    ensures text == RuleText(MatcherOf(r))
  {
    hide ItemsText, TemplateItems, SegmentItems;
    if r.mode == PREFIX {
      if r.path == "/" || (r.path != "" && r.path[|r.path| - 1] == '/') {
        return "PathPrefix(`" + r.path + "`)";
      }
      return "(" + ("Path(`" + r.path + "`)") + " || " + ("PathPrefix(`" + (r.path + "/") + "`)") + ")";
    }
    if r.mode == TEMPLATE {
      var expression := WriteTemplate(r);
      return "PathRegexp(`" + expression + "`)";
    }
    return "Path(`" + r.path + "`)";
  }

  method WriteTemplate(r: Route) returns (expression: string)
    ensures expression == TemplateText(r)
  {
    hide ItemsText, SegmentItems;
    expression := "^";
    var segments := Split(r.path, '/');
    NothingWritten();
    for i := 0 to |segments|
      invariant expression == "^" + ItemsText(TemplateItems(r.parameters, segments[..i]))
    {
      WriteOneMore(r.parameters, segments, i);
      if i > 0 {
        expression := expression + "/";
      }
      var text := WriteSegment(r.parameters, segments[i]);
      expression := expression + text;
    }
    assert segments[..|segments|] == segments;
    expression := expression + "$";
  }

  lemma NothingWritten()
    ensures ItemsText([]) == ""
  {
  }

  lemma SlashText()
    ensures ItemsText([Char('/')]) == "/"
  {
    ItemsTextOne(Char('/'));
    assert !IsMeta('/');
    assert ['/'][1..] == "" && QuoteMeta("") == "";
  }

  lemma WriteOneMore(parameters: map<string, seq<string>>, segments: seq<string>, i: nat)
    requires i < |segments|
    ensures ItemsText(TemplateItems(parameters, segments[..i + 1]))
         == ItemsText(TemplateItems(parameters, segments[..i])) + (if i > 0 then "/" else "")
            + ItemsText(SegmentItems(parameters, segments[i]))
  {
    hide ItemsText, SegmentItems;
    var before, item := segments[..i], SegmentItems(parameters, segments[i]);
    assert segments[..i + 1] == before + [segments[i]];
    if i == 0 {
      assert before + [segments[i]] == [segments[i]];
      NothingWritten();
    } else {
      TemplateItemsAppend(parameters, before, segments[i]);
      ItemsTextConcat(TemplateItems(parameters, before), [Char('/')] + item);
      ItemsTextConcat([Char('/')], item);
      SlashText();
    }
  }

  // ----- Reading the rule

  /** What lies between two back quotes, and what follows `)`. */
  function ReadQuoted(s: string): Option<(string, string)> {
    var k := Find(s, '`');
    if k < |s| && k + 1 < |s| && s[k + 1] == ')' then Some((s[..k], s[k + 2..])) else None
  }

  function ReadAtom(s: string): Option<(Matcher, string)> {
    if "PathPrefix(`" <= s then
      match ReadQuoted(s[12..]) case None => None case Some((q, rest)) => Some((PathPrefix(q), rest))
    else if "PathRegexp(`" <= s then
      match ReadQuoted(s[12..]) case None => None case Some((q, rest)) => Some((PathRegexp(q), rest))
    else if "Path(`" <= s then
      match ReadQuoted(s[6..]) case None => None case Some((q, rest)) => Some((Path(q), rest))
    else None
  }

  /** An atom, or a parenthesized choice of two. */
  function ReadRule(s: string): Option<Matcher> {
    if s != "" && s[0] == '(' then
      match ReadAtom(s[1..])
      case None => None
      case Some((a, rest)) =>
        if !(" || " <= rest) then None
        else
          match ReadAtom(rest[4..])
          case None => None
          case Some((b, rest')) => if rest' == ")" then Some(Either(a, b)) else None
    else
      match ReadAtom(s)
      case None => None
      case Some((a, rest)) => if rest == "" then Some(a) else None
  }

  ghost predicate RuleAccepts(text: string, p: string) {
    ReadRule(text).Some? && MatcherAccepts(ReadRule(text).value, p)
  }

  lemma ReadQuotedBack(q: string, rest: string)
    requires '`' !in q
    ensures ReadQuoted(q + "`)" + rest) == Some((q, rest))
  {
    var s := q + "`)" + rest;
    assert s == q + ['`'] + (")" + rest);
    FindAt(q, '`', ")" + rest);
    assert s[..|q|] == q && s[|q| + 2..] == rest && s[|q| + 1] == ')';
  }

  predicate IsAtom(m: Matcher) {
    !m.Either? && '`' !in (if m.PathRegexp? then m.text else m.p)
  }

  lemma ReadAtomBack(m: Matcher, rest: string)
    requires IsAtom(m)
    ensures ReadAtom(RuleText(m) + rest) == Some((m, rest))
  {
    hide ReadQuoted;
    var s := RuleText(m) + rest;
    match m
    case Path(q) =>
      assert s[6..] == q + "`)" + rest;
      assert s[4] == '(';
      ReadQuotedBack(q, rest);
    case PathPrefix(q) =>
      assert s[12..] == q + "`)" + rest;
      ReadQuotedBack(q, rest);
    case PathRegexp(q) =>
      assert s[12..] == q + "`)" + rest;
      assert s[4] == 'R';
      ReadQuotedBack(q, rest);
  }

  lemma ReadChoiceBack(a: Matcher, b: Matcher)
    requires IsAtom(a) && IsAtom(b)
    ensures ReadRule(RuleText(Either(a, b))) == Some(Either(a, b))
  {
    hide ReadAtom, IsAtom;
    var s := RuleText(Either(a, b));
    var ta, tb := RuleText(a), RuleText(b);
    var tail := " || " + tb + ")";
    assert s == "(" + ta + " || " + tb + ")";
    assert s[1..] == ta + tail;
    ReadAtomBack(a, tail);
    assert tail[4..] == tb + ")";
    ReadAtomBack(b, ")");
  }

  lemma ReadSingleBack(m: Matcher)
    requires IsAtom(m)
    ensures ReadRule(RuleText(m)) == Some(m)
  {
    hide ReadAtom;
    assert RuleText(m) + "" == RuleText(m);
    ReadAtomBack(m, "");
    assert RuleText(m)[0] == 'P';
  }

  // ----- The template expression means the template

  lemma SegmentMeaning(parameters: map<string, seq<string>>, segment: string, v: string)
    ensures Accepts(SegmentItems(parameters, segment), v) <==> SegmentAccepts(parameters, segment, v)
  {
    hide Accepts, ClassAccepts, UnreservedText;
    if !IsPlaceholder(segment) {
      CharsAccept(segment, v);
    } else {
      AcceptsOne(SegmentItems(parameters, segment)[0], v);
      UnreservedAccepts(v);
      assert SegmentItems(parameters, segment) == [SegmentItems(parameters, segment)[0]];
    }
  }

  /** No segment language contains a slash, so the split at slashes is unique. */
  ghost predicate SlashFree(parameters: map<string, seq<string>>, segment: string) {
    && (!IsPlaceholder(segment) ==> '/' !in segment)
    && forall name, v :: name in parameters && v in parameters[name] ==> '/' !in v
  }

  lemma AcceptedIsSlashFree(parameters: map<string, seq<string>>, segment: string, v: string)
    requires SlashFree(parameters, segment) && SegmentAccepts(parameters, segment, v)
    ensures '/' !in v && Find(v, '/') == |v| && Split(v, '/') == [v]
  {
    assert !IsUnreserved('/');
  }

  ghost predicate AllSlashFree(parameters: map<string, seq<string>>, segments: seq<string>) {
    forall i :: 0 <= i < |segments| ==> SlashFree(parameters, segments[i])
  }

  lemma {:induction false} TemplateMeaning(parameters: map<string, seq<string>>, segments: seq<string>, p: string)
    requires segments != [] && AllSlashFree(parameters, segments)
    ensures Accepts(TemplateItems(parameters, segments), p) <==> SegmentsAccept(parameters, segments, Split(p, '/'))
    decreases |segments|
  {
    hide Accepts, SegmentItems, SegmentAccepts, SlashFree, Split;
    if |segments| == 1 {
      OneSegmentMeaning(parameters, segments[0], p);
    } else {
      var first, rest := SegmentItems(parameters, segments[0]), segments[1..];
      var tail := TemplateItems(parameters, rest);
      assert first + [Char('/')] + tail == first + ([Char('/')] + tail);
      if Accepts(first + ([Char('/')] + tail), p) {
        var k := AcceptsConcat(first, [Char('/')] + tail, p);
        var j := AcceptsConcat([Char('/')], tail, p[k..]);
        AcceptsOne(Char('/'), p[k..][..j]);
        assert p[k..][..j] == "/" && p[k] == p[k..][0] == '/';
        assert p[k..][1..] == p[k + 1..];
        SegmentMeaning(parameters, segments[0], p[..k]);
        TemplateMeaning(parameters, rest, p[k + 1..]);
        AcceptedIsSlashFree(parameters, segments[0], p[..k]);
        SplitFirst(p, k);
        FirstAndRest(parameters, segments, p[..k], Split(p[k + 1..], '/'));
      }
      if SegmentsAccept(parameters, segments, Split(p, '/')) {
        var k := FirstPart(p);
        var parts := Split(p, '/');
        assert parts[1..] == Split(p[k + 1..], '/');
        FirstAndRestBack(parameters, segments, parts);
        SegmentMeaning(parameters, segments[0], p[..k]);
        TemplateMeaning(parameters, rest, p[k + 1..]);
        AcceptsOne(Char('/'), "/");
        assert p[k..][..1] == "/" && p[k..][1..] == p[k + 1..];
        ConcatAccepts([Char('/')], tail, p[k..], 1);
        ConcatAccepts(first, [Char('/')] + tail, p, k);
      }
    }
  }

  lemma OneSegmentMeaning(parameters: map<string, seq<string>>, segment: string, p: string)
    requires SlashFree(parameters, segment)
    ensures Accepts(TemplateItems(parameters, [segment]), p) <==> SegmentsAccept(parameters, [segment], Split(p, '/'))
  {
    hide Accepts, SegmentItems, SegmentAccepts, SlashFree;
    SegmentMeaning(parameters, segment, p);
    if SegmentAccepts(parameters, segment, p) {
      AcceptedIsSlashFree(parameters, segment, p);
    }
    if |Split(p, '/')| == 1 {
      assert Split(p, '/') == [p];
    }
  }

  lemma SplitFirst(p: string, k: nat)
    requires k < |p| && p[k] == '/' && '/' !in p[..k]
    ensures Split(p, '/') == [p[..k]] + Split(p[k + 1..], '/')
  {
    assert p == p[..k] + ['/'] + p[k + 1..];
    FindAt(p[..k], '/', p[k + 1..]);
  }

  lemma FirstPart(p: string) returns (k: nat)
    requires |Split(p, '/')| > 1
    ensures k < |p| && p[k] == '/' && Split(p, '/') == [p[..k]] + Split(p[k + 1..], '/')
  {
    k := Find(p, '/');
  }

  lemma FirstAndRest(parameters: map<string, seq<string>>, segments: seq<string>, v: string, parts: seq<string>)
    requires segments != [] && SegmentAccepts(parameters, segments[0], v)
    requires SegmentsAccept(parameters, segments[1..], parts)
    ensures SegmentsAccept(parameters, segments, [v] + parts)
  {
    hide SegmentAccepts;
    var all := [v] + parts;
    forall i | 0 <= i < |segments| ensures SegmentAccepts(parameters, segments[i], all[i]) {
      if i > 0 {
        assert segments[i] == segments[1..][i - 1] && all[i] == parts[i - 1];
      }
    }
  }

  lemma FirstAndRestBack(parameters: map<string, seq<string>>, segments: seq<string>, parts: seq<string>)
    requires |segments| > 0 && SegmentsAccept(parameters, segments, parts)
    ensures SegmentAccepts(parameters, segments[0], parts[0])
    ensures SegmentsAccept(parameters, segments[1..], parts[1..])
  {
    hide SegmentAccepts;
  }

  // ----- Every rule means its route

  lemma NormalSegments(r: Route)
    requires Normal(r)
    ensures Split(r.path, '/') == [""] + Split(r.path[1..], '/')
    ensures AllSlashFree(r.parameters, Split(r.path, '/'))
  {
    SplitFirst(r.path, 0);
    JoinSplit(r.path, '/');
    forall name, v | name in r.parameters && v in r.parameters[name] ensures '/' !in v {
      assert IsValue(v);
    }
  }

  lemma NoBackquoteInPath(r: Route)
    requires Normal(r)
    ensures '`' !in r.path
  {
    assert '`' in "?#%`*\\";
  }

  predicate NoBackquote(item: Item) {
    match item
    case Char(c) => c != '`'
    case Any => true
    case Class(_, _) => true
    case OneOf(values) => forall i :: 0 <= i < |values| ==> '`' !in values[i]
  }

  lemma {:induction false} QuoteHasNoBackquote(s: string)
    requires '`' !in s
    ensures '`' !in QuoteMeta(s)
    decreases |s|
  {
    if s != "" {
      QuoteHasNoBackquote(s[1..]);
    }
  }

  lemma {:induction false} AlternativesHaveNoBackquote(values: seq<string>)
    requires forall i :: 0 <= i < |values| ==> '`' !in values[i]
    ensures '`' !in Alternatives(values)
    decreases |values|
  {
    hide QuoteMeta;
    if values != [] {
      QuoteHasNoBackquote(values[0]);
      AlternativesHaveNoBackquote(values[1..]);
    }
  }

  lemma {:induction false} TextHasNoBackquote(items: seq<Item>)
    requires forall i :: 0 <= i < |items| ==> NoBackquote(items[i])
    ensures '`' !in ItemsText(items)
    decreases |items|
  {
    hide QuoteMeta, Alternatives;
    if items != [] {
      TextHasNoBackquote(items[1..]);
      assert NoBackquote(items[0]);
      match items[0]
      case Char(c) => QuoteHasNoBackquote([c]);
      case Any =>
      case Class(_, _) =>
      case OneOf(values) => AlternativesHaveNoBackquote(values);
    }
  }

  ghost predicate GoodItem(item: Item) {
    NoBackquote(item) && Emitted(item)
  }

  ghost predicate GoodItems(items: seq<Item>) {
    forall i :: 0 <= i < |items| ==> GoodItem(items[i])
  }

  lemma {:induction false} TemplateItemsAreGood(parameters: map<string, seq<string>>, segments: seq<string>)
    requires forall i :: 0 <= i < |segments| ==> '`' !in segments[i]
    requires forall name, v :: name in parameters && v in parameters[name] ==> '`' !in v
    ensures GoodItems(TemplateItems(parameters, segments))
    decreases |segments|
  {
    if segments != [] {
      SegmentItemsAreGood(parameters, segments[0]);
      TemplateItemsAreGood(parameters, segments[1..]);
    }
  }

  lemma SegmentItemsAreGood(parameters: map<string, seq<string>>, segment: string)
    requires '`' !in segment
    requires forall name, v :: name in parameters && v in parameters[name] ==> '`' !in v
    ensures GoodItems(SegmentItems(parameters, segment))
  {
  }

  lemma NormalItemsAreGood(r: Route)
    requires Normal(r)
    ensures GoodItems(TemplateItems(r.parameters, Split(r.path, '/')))
  {
    NoBackquoteInPath(r);
    PartsWithout(r.path, '/', '`');
    forall name, v | name in r.parameters && v in r.parameters[name] ensures '`' !in v {
      assert IsValue(v);
    }
    TemplateItemsAreGood(r.parameters, Split(r.path, '/'));
  }

  lemma {:induction false} PartsWithout(s: string, c: char, x: char)
    requires x !in s
    ensures forall i :: 0 <= i < |Split(s, c)| ==> x !in Split(s, c)[i]
    decreases |s|
  {
    var k := Find(s, c);
    if k < |s| {
      PartsWithout(s[k + 1..], c, x);
    }
  }

  lemma TemplateReads(r: Route)
    requires Normal(r)
    ensures ReadRegex(TemplateText(r)) == Some(TemplateItems(r.parameters, Split(r.path, '/')))
    ensures '`' !in TemplateText(r)
  {
    hide ReadItems, ItemsText, Normal, TemplateItems;
    NormalItemsAreGood(r);
    var items := TemplateItems(r.parameters, Split(r.path, '/'));
    ReadWritten(items);
    TextHasNoBackquote(items);
    assert TemplateText(r)[1..] == ItemsText(items) + "$";
  }

  lemma TemplateRule(r: Route, p: string)
    requires Normal(r) && r.mode == TEMPLATE
    ensures RuleAccepts(RuleText(MatcherOf(r)), p) <==> RouteAccepts(r, p)
  {
    hide ReadRule, ReadRegex, TemplateText, Normal, TemplateItems, Accepts, RuleText, Split;
    TemplateReads(r);
    ModesDiffer();
    ReadSingleBack(MatcherOf(r));
    NormalSegments(r);
    TemplateMeaning(r.parameters, Split(r.path, '/'), p);
  }

  lemma ModesDiffer()
    ensures TEMPLATE != PREFIX && TEMPLATE != EXACT && PREFIX != EXACT
  {
    assert |TEMPLATE| != |PREFIX| && |TEMPLATE| != |EXACT| && |PREFIX| != |EXACT|;
  }

  lemma SubtreeWithSlash(q: string, p: string)
    ensures q + "/" <= p <==> InSubtree(Split(q + "/", '/'), Split(p, '/'))
  {
    hide Split;
    var full := q + "/";
    assert full[|q|] == '/' && full[..|q|] == q && full[|q| + 1..] == "";
    SplitAt(full, '/', |q|);
    EmptySplit();
    PrefixBySegments(q, p, '/');
    assert Split(full, '/') == Split(q, '/') + [""];
    assert Split(full, '/')[..|Split(q, '/')|] == Split(q, '/');
  }

  lemma EmptySplit()
    ensures Split("", '/') == [""]
  {
  }

  lemma SubtreeWithoutSlash(q: string, p: string)
    requires Split(q, '/')[|Split(q, '/')| - 1] != ""
    ensures p == q || q + "/" <= p <==> InSubtree(Split(q, '/'), Split(p, '/'))
  {
    hide Split;
    PrefixBySegments(q, p, '/');
    SplitInjective(p, q, '/');
    var a, b := Split(q, '/'), Split(p, '/');
    if |a| == |b| {
      assert b[..|a|] == b;
    }
  }

  lemma {:induction false} LastPart(s: string)
    requires s != "" && s[|s| - 1] != '/'
    ensures Split(s, '/')[|Split(s, '/')| - 1] != ""
    decreases |s|
  {
    var k := Find(s, '/');
    if k < |s| {
      LastPart(s[k + 1..]);
    }
  }

  lemma SlashPrefixRule(q: string, p: string)
    requires '`' !in q
    ensures RuleAccepts(RuleText(PathPrefix(q + "/")), p) <==> InSubtree(Split(q + "/", '/'), Split(p, '/'))
  {
    hide ReadRule, RuleText, Split, InSubtree;
    ReadSingleBack(PathPrefix(q + "/"));
    SubtreeWithSlash(q, p);
  }

  lemma PlainPrefixRule(q: string, p: string)
    requires '`' !in q && q != "" && q[|q| - 1] != '/'
    ensures RuleAccepts(RuleText(Either(Path(q), PathPrefix(q + "/"))), p) <==> InSubtree(Split(q, '/'), Split(p, '/'))
  {
    hide ReadRule, RuleText, Split, InSubtree;
    ReadChoiceBack(Path(q), PathPrefix(q + "/"));
    assert MatcherAccepts(Path(q), p) <==> p == q;
    assert MatcherAccepts(PathPrefix(q + "/"), p) <==> q + "/" <= p;
    LastPart(q);
    SubtreeWithoutSlash(q, p);
  }

  lemma PrefixRule(r: Route, p: string)
    requires Normal(r) && r.mode == PREFIX
    ensures RuleAccepts(RuleText(MatcherOf(r)), p) <==> RouteAccepts(r, p)
  {
    hide RuleAccepts, RuleText, Split, InSubtree, ValidatePath;
    NoBackquoteInPath(r);
    var path := r.path;
    if path[|path| - 1] == '/' {
      assert path == path[..|path| - 1] + "/";
      SlashPrefixRule(path[..|path| - 1], p);
    } else {
      PlainPrefixRule(path, p);
    }
  }

  /** The main result: the compiled rule accepts exactly the paths of the route. */
  lemma RuleMeansRoute(r: Route, p: string)
    requires Normal(r)
    ensures RuleAccepts(RuleText(MatcherOf(r)), p) <==> RouteAccepts(r, p)
  {
    if r.mode == PREFIX {
      PrefixRule(r, p);
    } else if r.mode == TEMPLATE {
      TemplateRule(r, p);
    } else {
      NoBackquoteInPath(r);
      hide ReadRule, RuleText, Normal;
      ReadSingleBack(Path(r.path));
    }
  }

  // ----- Covers

  function TrimSlash(s: string): string {
    if s != "" && s[|s| - 1] == '/' then s[..|s| - 1] else s
  }

  /** Index of the first "/:", or the length when there is none. */
  function FindPlaceholder(s: string): (k: nat)
    ensures k <= |s|
    ensures k < |s| ==> k + 1 < |s| && s[k] == '/' && s[k + 1] == ':'
    ensures forall i :: 0 <= i < k && i + 1 < |s| ==> !(s[i] == '/' && s[i + 1] == ':')
  {
    if |s| < 2 then |s|
    else if s[0] == '/' && s[1] == ':' then 0
    else
      assert s[1..][0] == s[1];
      1 + FindPlaceholder(s[1..])
  }

  /** Whether a resource rooted at `base` can serve the route at all. */
  predicate Covers(base: string, r: Route) {
    if base == "" || base == "/" then true
    else
      var root := TrimSlash(base);
      var path := r.path[..FindPlaceholder(r.path)];
      path == root || root + "/" <= path
  }

  ghost predicate Under(root: string, p: string) {
    p == root || root + "/" <= p
  }

  ghost predicate StaysUnder(root: string, r: Route) {
    forall p :: RouteAccepts(r, p) ==> Under(root, p)
  }

  lemma NoPlaceholderOutsideTemplates(r: Route)
    requires Normal(r) && r.mode != TEMPLATE
    ensures ':' !in r.path && FindPlaceholder(r.path) == |r.path|
  {
    NormalSegments(r);
    var segments := Split(r.path, '/');
    forall i | 0 <= i < |segments| ensures ':' !in segments[i] {
      if i > 0 {
        assert segments[i] == Split(r.path[1..], '/')[i - 1];
        assert SegmentError(segments[i], r.mode).None?;
      }
    }
    JoinSplit(r.path, '/');
    JoinWithout(segments, '/', ':');
  }

  lemma {:induction false} JoinWithout(parts: seq<string>, c: char, x: char)
    requires x != c && forall i :: 0 <= i < |parts| ==> x !in parts[i]
    ensures x !in Join(parts, c)
    decreases |parts|
  {
    if |parts| > 1 {
      JoinWithout(parts[1..], c, x);
    }
  }

  /** Under a template the literal segments before the first placeholder are fixed. */
  lemma TemplateKeepsLead(r: Route, p: string)
    requires Normal(r) && r.mode == TEMPLATE && RouteAccepts(r, p) && FindPlaceholder(r.path) < |r.path|
    ensures r.path[..FindPlaceholder(r.path)] + "/" <= p
  {
    var k := FindPlaceholder(r.path);
    var lead := r.path[..k];
    SplitAt(r.path, '/', k);
    hide Normal, Split, SegmentAccepts;
    var a, all, parts := Split(lead, '/'), Split(r.path, '/'), Split(p, '/');
    ModesDiffer();
    forall i | 0 <= i < |a| ensures parts[i] == a[i] {
      assert SegmentAccepts(r.parameters, all[i], parts[i]);
      LeadIsLiteral(r.path, k, i);
      LiteralAccepts(r.parameters, a[i], parts[i]);
    }
    assert parts[..|a|] == a;
    PrefixBySegments(lead, p, '/');
  }

  lemma LiteralAccepts(parameters: map<string, seq<string>>, segment: string, v: string)
    requires !IsPlaceholder(segment) && SegmentAccepts(parameters, segment, v)
    ensures v == segment
  {
  }

  /** Before the first "/:" no segment is a placeholder, except possibly the very first. */
  lemma {:induction false} LaterPartsAreLiteral(s: string, i: nat)
    requires 0 < i < |Split(s, '/')|
    requires forall j :: 0 <= j < |s| - 1 ==> !(s[j] == '/' && s[j + 1] == ':')
    ensures !IsPlaceholder(Split(s, '/')[i])
    decreases |s|
  {
    var k := FirstPart(s);
    var rest := s[k + 1..];
    assert Split(s, '/')[i] == Split(rest, '/')[i - 1];
    if i > 1 {
      LaterPartsAreLiteral(rest, i - 1);
    } else if rest != "" {
      assert s[k + 1] == rest[0];
      FirstPartStarts(rest);
    } else {
      EmptySplit();
    }
  }

  lemma FirstPartStarts(s: string)
    requires s != ""
    ensures IsPlaceholder(Split(s, '/')[0]) ==> s[0] == ':'
  {
  }

  lemma LeadIsLiteral(path: string, k: nat, i: nat)
    requires k == FindPlaceholder(path) && k < |path| && path[0] == '/' && i < |Split(path[..k], '/')|
    ensures !IsPlaceholder(Split(path[..k], '/')[i])
  {
    var lead := path[..k];
    forall j | 0 <= j < |lead| - 1 ensures !(lead[j] == '/' && lead[j + 1] == ':') {
      assert lead[j] == path[j] && lead[j + 1] == path[j + 1];
    }
    if i > 0 {
      LaterPartsAreLiteral(lead, i);
    } else if lead == "" {
      EmptySplit();
    } else {
      FirstPartStarts(lead);
      assert lead[0] == '/';
    }
  }

  // ----- Covers, by segments

  /** How many segments come before the first placeholder. */
  function LeadCount(segments: seq<string>): (n: nat)
    ensures n <= |segments| && (forall i :: 0 <= i < n ==> !IsPlaceholder(segments[i]))
    ensures n < |segments| ==> IsPlaceholder(segments[n])
  {
    if segments == [] || IsPlaceholder(segments[0]) then 0 else 1 + LeadCount(segments[1..])
  }

  /** The path up to its first placeholder is its segments up to there. */
  lemma LeadBySegments(path: string)
    requires path != "" && path[0] == '/'
    ensures var segments := Split(path, '/');
      Split(path[..FindPlaceholder(path)], '/') == segments[..LeadCount(segments)]
  {
    hide Split;
    var k, segments := FindPlaceholder(path), Split(path, '/');
    if k < |path| {
      var lead, rest := Split(path[..k], '/'), path[k + 1..];
      SplitAt(path, '/', k);
      assert segments == lead + Split(rest, '/');
      FirstAfterColon(rest);
      forall i | 0 <= i < |lead| ensures !IsPlaceholder(segments[i]) {
        LeadIsLiteral(path, k, i);
      }
      assert IsPlaceholder(segments[|lead|]);
      assert LeadCount(segments) == |lead|;
    } else {
      assert path[..k] == path;
      forall i | 0 <= i < |segments| ensures !IsPlaceholder(segments[i]) {
        if i > 0 {
          LaterPartsAreLiteral(path, i);
        } else {
          FirstPartStarts(path);
        }
      }
      assert LeadCount(segments) == |segments| && segments[..|segments|] == segments;
    }
  }

  lemma FirstAfterColon(s: string)
    requires s != "" && s[0] == ':'
    ensures IsPlaceholder(Split(s, '/')[0])
  {
  }

  /** At or under a root, by segments. */
  lemma AtOrUnder(root: string, path: string)
    ensures path == root || root + "/" <= path <==> Split(root, '/') <= Split(path, '/')
  {
    hide Split;
    PrefixBySegments(root, path, '/');
    SplitInjective(root, path, '/');
    assert root + "/" == root + ['/'];
    var a, b := Split(root, '/'), Split(path, '/');
    assert a <= b && |a| == |b| ==> a == b;
    assert |a| < |b| ==> (a <= b <==> b[..|a|] == a);
  }

  /** A base covers a validated route exactly when its segments, one trailing slash apart, begin
      the route's segments before the first placeholder. */
  lemma CoversBySegments(root: string, r: Route)
    requires Normal(r) && root != ""
    ensures var segments := Split(r.path, '/');
      var covered := Split(root, '/') <= segments[..LeadCount(segments)];
      && (Covers(root + "/", r) <==> covered)
      && (root[|root| - 1] != '/' ==> (Covers(root, r) <==> covered))
  {
    hide Split, Normal;
    NormalIsRooted(r);
    LeadBySegments(r.path);
    AtOrUnder(root, r.path[..FindPlaceholder(r.path)]);
    var base := root + "/";
    assert base[|base| - 1] == '/' && base[..|base| - 1] == root && base != "/";
    assert "/"[0] == '/';
  }

  /** The empty base and the root cover everything. */
  lemma RootCovers(r: Route)
    ensures Covers("", r) && Covers("/", r)
  {
  }

  lemma UnderTransitive(root: string, path: string, p: string)
    requires path == root || root + "/" <= path
    requires path + "/" <= p
    ensures root + "/" <= p
  {
  }

  /** The one way out of a covered base: a base ending in two slashes and a prefix route
      on the trimmed base itself, which accepts `root` followed by anything. */
  ghost predicate Escapes(root: string, r: Route) {
    r.mode == PREFIX && r.path == root && root != "" && root[|root| - 1] == '/'
  }

  lemma TemplateStaysUnder(root: string, r: Route)
    requires Normal(r) && r.mode == TEMPLATE
    requires var path := r.path[..FindPlaceholder(r.path)]; path == root || root + "/" <= path
    ensures StaysUnder(root, r)
  {
    forall p | RouteAccepts(r, p) ensures Under(root, p) {
      TemplateHasPlaceholder(r);
      TemplateKeepsLead(r, p);
      UnderTransitive(root, r.path[..FindPlaceholder(r.path)], p);
    }
  }

  lemma TemplateHasPlaceholder(r: Route)
    requires Normal(r) && r.mode == TEMPLATE
    ensures FindPlaceholder(r.path) < |r.path|
  {
    var path := r.path;
    NormalSegments(r);
    var segments := Split(path[1..], '/');
    assert exists i :: 0 <= i < |segments| && IsPlaceholder(segments[i]) by {
      var x :| x in Placeholders(segments);
    }
    var i :| 0 <= i < |segments| && IsPlaceholder(segments[i]);
    assert Split(path, '/')[i + 1] == segments[i];
    if FindPlaceholder(path) == |path| {
      LaterPartsAreLiteral(path, i + 1);
    }
  }

  lemma PrefixStaysUnder(root: string, r: Route)
    requires Normal(r) && r.mode == PREFIX && (r.path == root || root + "/" <= r.path)
    ensures StaysUnder(root, r) <==> !Escapes(root, r)
  {
    NormalIsRooted(r);
    hide Normal, Split, InSubtree, ReadRule, RuleText, RouteAccepts;
    if Escapes(root, r) {
      var p := root + "x";
      EscapeAccepted(r, p);
      assert !Under(root, p) by {
        assert p[|root|] == 'x';
      }
    } else {
      forall p | RouteAccepts(r, p) ensures Under(root, p) {
        PrefixAcceptedBegins(r, p);
        if r.path != root {
          UnderPrefix(root, r.path, p);
        }
      }
    }
  }

  lemma NormalIsRooted(r: Route)
    requires Normal(r)
    ensures r.path != "" && r.path[0] == '/'
  {
  }

  lemma UnderPrefix(root: string, path: string, p: string)
    requires root + "/" <= path && (p == path || path <= p || path + "/" <= p)
    ensures root + "/" <= p
  {
  }

  lemma EscapeAccepted(r: Route, p: string)
    requires Normal(r) && r.mode == PREFIX && r.path[|r.path| - 1] == '/' && r.path <= p
    ensures RouteAccepts(r, p)
  {
    var q := r.path[..|r.path| - 1];
    hide Normal, Split, InSubtree;
    assert r.path == q + "/";
    SubtreeWithSlash(q, p);
  }

  lemma PrefixAcceptedBegins(r: Route, p: string)
    requires Normal(r) && r.mode == PREFIX && RouteAccepts(r, p)
    ensures p == r.path || r.path + "/" <= p || (r.path[|r.path| - 1] == '/' && r.path <= p)
  {
    var path := r.path;
    assert path != "";
    hide Normal, Split, InSubtree;
    if path[|path| - 1] == '/' {
      assert path == path[..|path| - 1] + "/";
      SubtreeWithSlash(path[..|path| - 1], p);
    } else {
      LastPart(path);
      SubtreeWithoutSlash(path, p);
    }
  }

  /** A covered route keeps every path it accepts at or under the base, exactly unless
      it is the escape above. */
  lemma CoversExactly(base: string, r: Route)
    requires Normal(r) && base != "" && base != "/" && Covers(base, r)
    ensures StaysUnder(TrimSlash(base), r) <==> !Escapes(TrimSlash(base), r)
  {
    var root := TrimSlash(base);
    ModesDiffer();
    if r.mode == TEMPLATE {
      TemplateStaysUnder(root, r);
    } else {
      NoPlaceholderOutsideTemplates(r);
      assert r.path[..|r.path|] == r.path;
      if r.mode == PREFIX {
        PrefixStaysUnder(root, r);
      }
    }
  }

  lemma SlashASlash()
    ensures Split("a/", '/') == ["a", ""] && Split("/a/", '/') == ["", "a", ""] && "/a/"[1..] == "a/"
  {
    assert "/a/"[1..] == "a/" && "a/"[2..] == "" && "a/"[..1] == "a";
    EmptySplit();
    SplitFirst("a/", 1);
    SplitFirst("/a/", 0);
  }

  lemma SlashASlashIsValid()
    ensures ValidatePath("/a/").None?
  {
    SlashASlash();
    hide Split;
    assert forall i :: 0 <= i < 3 ==> "/a/"[i] == '/' || "/a/"[i] == 'a';
    assert forall i :: 0 <= i < 3 ==> !IsDot(["", "a", ""][i]);
  }

  lemma SegmentsAreValid()
    ensures ValidSegments(["a", ""], PREFIX) && Placeholders(["a", ""]) == {}
  {
    assert forall i :: 0 <= i < 2 ==> !IsPlaceholder(["a", ""][i]) && ':' !in ["a", ""][i];
  }

  lemma PrefixRouteIsNormal(m: string)
    requires IsMethod(m)
    ensures Normal(Route("/a/", PREFIX, [m], map[]))
  {
    hide Split, ValidatePath, ValidSegments, Placeholders, IsMethod;
    ModesDiffer();
    SlashASlash();
    SlashASlashIsValid();
    SegmentsAreValid();
  }

  /** Base `/a//` covers the validated prefix route `/a/`, which also serves `/a/x`. */
  lemma DoubleSlashEscapes()
    ensures var r := Route("/a/", PREFIX, ["GET"], map[]);
      Normal(r) && Covers("/a//", r) && RouteAccepts(r, "/a/x") && !Under(TrimSlash("/a//"), "/a/x")
  {
    hide Normal, RouteAccepts;
    assert IsMethod("GET");
    PrefixRouteIsNormal("GET");
    EscapeAccepted(Route("/a/", PREFIX, ["GET"], map[]), "/a/x");
    DoubleSlashCovers();
  }

  lemma DoubleSlashCovers()
    ensures Covers("/a//", Route("/a/", PREFIX, ["GET"], map[])) && !Under(TrimSlash("/a//"), "/a/x")
  {
    assert TrimSlash("/a//") == "/a/";
    assert "/a/"[..FindPlaceholder("/a/")] == "/a/";
    assert "/a/x"[3] == 'x';
  }
}
