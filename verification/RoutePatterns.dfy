/** What validation accepts, against other descriptions of the same: the patterns the source
    matches with, read as regular expressions, and the segments of a path. */
module RoutePatterns {
  import opened Text
  import opened Wrappers
  import opened RouteRegex
  import opened AccessRoutes

  // ----- Patterns

  /** One character of the first class, then any number of the second. */
  lemma FirstThenMany(first: seq<(char, char)>, more: seq<(char, char)>, s: string)
    ensures Accepts([Class(first, Once), Class(more, AnyTimes)], s) <==>
            s != "" && InRanges(s[0], first) && forall i :: 1 <= i < |s| ==> InRanges(s[i], more)
  {
    hide InRanges, Accepts;
    var items := [Class(first, Once), Class(more, AnyTimes)];
    assert items[1..] == [Class(more, AnyTimes)];
    if Accepts(items, s) {
      var k := FirstAccepts(items, s);
      AcceptsOne(Class(more, AnyTimes), s[k..]);
      assert k == 1 && s[..1][0] == s[0];
      assert forall i :: 1 <= i < |s| ==> s[i] == s[1..][i - 1];
    }
    if s != "" && InRanges(s[0], first) && forall i :: 1 <= i < |s| ==> InRanges(s[i], more) {
      AcceptsOne(Class(more, AnyTimes), s[1..]);
      AcceptsFirst(items, s, 1);
    }
  }

  lemma InThree(c: char, a: (char, char), b: (char, char), x: string)
    ensures InRanges(c, [a] + ([b] + Singles(x))) <==> a.0 <= c <= a.1 || b.0 <= c <= b.1 || c in x
  {
    InConcat(c, [a], [b] + Singles(x));
    InConcat(c, [b], Singles(x));
    InSingles(c, x);
    assert [a][0] == a && [b][0] == b;
  }

  lemma InFour(c: char, a: (char, char), b: (char, char), d: (char, char), x: string)
    ensures InRanges(c, [a] + ([b] + ([d] + Singles(x)))) <==>
            a.0 <= c <= a.1 || b.0 <= c <= b.1 || d.0 <= c <= d.1 || c in x
  {
    InConcat(c, [a], [b] + ([d] + Singles(x)));
    InThree(c, b, d, x);
    assert [a][0] == a;
  }

  lemma InOne(c: char, a: (char, char))
    ensures InRanges(c, [a] + Singles("")) <==> a.0 <= c <= a.1
  {
    assert ([a] + Singles(""))[0] == a;
  }

  const NAME_FIRST: seq<(char, char)> := [('A', 'Z')] + ([('a', 'z')] + Singles("_"))

  const NAME_MORE: seq<(char, char)> := [('A', 'Z')] + ([('a', 'z')] + ([('0', '9')] + Singles("_")))

  const METHOD_MARKS := "!#$%&'*+.^_`|~-"

  const METHOD_FIRST: seq<(char, char)> := [('A', 'Z')] + Singles("")

  const METHOD_MORE: seq<(char, char)> := [('A', 'Z')] + ([('0', '9')] + Singles(METHOD_MARKS))

  /** A class text that is a few ranges and then single characters, and what follows. */
  lemma ReadClassText(marks: string, rest: string)
    requires PlainSingles(marks)
    ensures ReadRanges(marks + "]" + rest) == Some((Singles(marks), rest))
  {
    ReadSingles(marks, rest);
  }

  lemma MarksArePlain()
    ensures PlainSingles(METHOD_MARKS) && PlainSingles("_") && PlainSingles("")
  {
    var brackets := "[]\\";
    assert forall i :: 0 <= i < |brackets| ==> brackets[i] == '[' || brackets[i] == ']' || brackets[i] == '\\';
  }

  lemma ReadOnceItem(s: string, a: string, ranges: seq<(char, char)>, rest: string)
    requires s == "[" + a && ReadRanges(a) == Some((ranges, rest)) && a != "" && a[0] != '^'
    requires rest != "" && rest[0] == '['
    ensures ReadItem(s) == Some((Class(ranges, Once), rest)) && s[0] == '['
  {
    hide ReadRanges;
    assert s[0] == '[' && s[1..] == a;
  }

  lemma ReadManyItem(s: string, a: string, ranges: seq<(char, char)>)
    requires s == "[" + a && ReadRanges(a) == Some((ranges, "*$")) && a != "" && a[0] != '^'
    ensures ReadItem(s) == Some((Class(ranges, AnyTimes), "$")) && s[0] == '['
  {
    hide ReadRanges;
    assert s[0] == '[' && s[1..] == a;
    assert "*$"[1..] == "$" && "*$"[0] == '*';
  }

  lemma TwoClasses(a: string, first: seq<(char, char)>, b: string, more: seq<(char, char)>)
    requires ReadRanges(a + "]" + ("[" + b + "]*$")) == Some((first, "[" + b + "]*$"))
    requires ReadRanges(b + "]" + "*$") == Some((more, "*$"))
    requires a != "" && a[0] != '^' && b != "" && b[0] != '^'
    ensures ReadRegex("^[" + a + "][" + b + "]*$") == Some([Class(first, Once), Class(more, AnyTimes)])
  {
    hide ReadRanges, ReadItems, ReadItem, IsRepetition;
    var s, tail := "^[" + a + "][" + b + "]*$", "[" + b + "]*$";
    ClassTexts(a, b);
    ReadOnceItem(s[1..], a + "]" + tail, first, tail);
    ReadManyItem(tail, b + "]" + "*$", more);
    ReadLastItem(tail, Class(more, AnyTimes));
    NoRepetition(tail);
    ReadNext(s[1..], Class(first, Once), tail, [Class(more, AnyTimes)]);
    assert [Class(first, Once)] + [Class(more, AnyTimes)] == [Class(first, Once), Class(more, AnyTimes)];
  }

  lemma ClassTexts(a: string, b: string)
    ensures var s, tail := "^[" + a + "][" + b + "]*$", "[" + b + "]*$";
      && s[0] == '^' && s[1..] == "[" + (a + "]" + tail)
      && tail == "[" + (b + "]" + "*$") && tail[0] == '['
  {
  }

  lemma ReadLastItem(s: string, item: Item)
    requires ReadItem(s) == Some((item, "$")) && s != "" && s[0] != '$'
    ensures ReadItems(s) == Some([item])
  {
    hide ReadItem, ReadItems;
    ReadEnd();
    assert "" + "$" == "$";
    ReadNext(s, item, "$", []);
    assert [item] + [] == [item];
  }

  lemma NoRepetition(s: string)
    requires s != "" && s[0] == '['
    ensures !IsRepetition(s)
  {
  }

  /** A placeholder's name is what the source's pattern matches. */
  lemma NamePattern(s: string)
    ensures var re := ReadRegex("^[A-Za-z_][A-Za-z0-9_]*$");
      re.Some? && (Accepts(re.value, s) <==> IsParameterName(s))
  {
    hide InRanges, Accepts, ReadRanges, ReadRegex;
    NameClasses();
    TwoClasses("A-Za-z_", NAME_FIRST, "A-Za-z0-9_", NAME_MORE);
    assert "^[" + "A-Za-z_" + "][" + "A-Za-z0-9_" + "]*$" == "^[A-Za-z_][A-Za-z0-9_]*$";
    FirstThenMany(NAME_FIRST, NAME_MORE, s);
    forall i | 0 <= i < |s|
      ensures InRanges(s[i], NAME_FIRST) <==> IsNameStart(s[i])
      ensures InRanges(s[i], NAME_MORE) <==> IsNameStart(s[i]) || '0' <= s[i] <= '9'
    {
      InThree(s[i], ('A', 'Z'), ('a', 'z'), "_");
      InFour(s[i], ('A', 'Z'), ('a', 'z'), ('0', '9'), "_");
    }
  }

  lemma NameClasses()
    ensures ReadRanges("A-Za-z_" + "]" + ("[" + "A-Za-z0-9_" + "]*$")) == Some((NAME_FIRST, "[" + "A-Za-z0-9_" + "]*$"))
    ensures ReadRanges("A-Za-z0-9_" + "]" + "*$") == Some((NAME_MORE, "*$"))
  {
    hide ReadRanges;
    MarksArePlain();
    var rest := "[" + "A-Za-z0-9_" + "]*$";
    ReadClassText("_", rest);
    ReadWide('a', 'z', "_" + "]" + rest);
    ReadWide('A', 'Z', ['a', '-', 'z'] + ("_" + "]" + rest));
    assert "A-Za-z_" + "]" + rest == ['A', '-', 'Z'] + (['a', '-', 'z'] + ("_" + "]" + rest));
    var end := "_" + "]" + "*$";
    ReadClassText("_", "*$");
    ReadWide('0', '9', end);
    ReadWide('a', 'z', ['0', '-', '9'] + end);
    ReadWide('A', 'Z', ['a', '-', 'z'] + (['0', '-', '9'] + end));
    assert "A-Za-z0-9_" + "]" + "*$" == ['A', '-', 'Z'] + (['a', '-', 'z'] + (['0', '-', '9'] + end));
  }

  /** A method is what the source's pattern matches. */
  lemma MethodPattern(s: string)
    ensures var re := ReadRegex("^[A-Z][A-Z0-9!#$%&'*+.^_`|~-]*$");
      re.Some? && (Accepts(re.value, s) <==> IsMethod(s))
  {
    hide InRanges, Accepts, ReadRanges, ReadRegex;
    MethodClasses();
    TwoClasses("A-Z", METHOD_FIRST, "A-Z0-9" + METHOD_MARKS, METHOD_MORE);
    assert "^[" + "A-Z" + "][" + ("A-Z0-9" + METHOD_MARKS) + "]*$" == "^[A-Z][A-Z0-9!#$%&'*+.^_`|~-]*$";
    FirstThenMany(METHOD_FIRST, METHOD_MORE, s);
    forall i | 0 <= i < |s|
      ensures InRanges(s[i], METHOD_FIRST) <==> 'A' <= s[i] <= 'Z'
      ensures InRanges(s[i], METHOD_MORE) <==> IsMethodChar(s[i])
    {
      InOne(s[i], ('A', 'Z'));
      InThree(s[i], ('A', 'Z'), ('0', '9'), METHOD_MARKS);
    }
  }

  lemma MethodClasses()
    ensures var b := "A-Z0-9" + METHOD_MARKS;
      && ReadRanges("A-Z" + "]" + ("[" + b + "]*$")) == Some((METHOD_FIRST, "[" + b + "]*$"))
      && ReadRanges(b + "]" + "*$") == Some((METHOD_MORE, "*$"))
  {
    hide ReadRanges;
    MarksArePlain();
    var b := "A-Z0-9" + METHOD_MARKS;
    var rest := "[" + b + "]*$";
    ReadClassText("", rest);
    ReadWide('A', 'Z', "" + "]" + rest);
    assert "A-Z" + "]" + rest == ['A', '-', 'Z'] + ("" + "]" + rest);
    var end := METHOD_MARKS + "]" + "*$";
    ReadClassText(METHOD_MARKS, "*$");
    ReadWide('0', '9', end);
    ReadWide('A', 'Z', ['0', '-', '9'] + end);
    assert b + "]" + "*$" == ['A', '-', 'Z'] + (['0', '-', '9'] + end);
  }

  /** A value of an allow-list is what the source's pattern matches, the two dots excepted. */
  lemma ValuePattern(s: string)
    ensures var re := ReadRegex("^[A-Za-z0-9._~-]+$");
      re.Some? && (Accepts(re.value, s) && s != "." && s != ".." <==> IsValue(s))
  {
    hide Accepts, ReadItems, ReadClass;
    var t := "^[A-Za-z0-9._~-]+$";
    ReadUnreserved("$");
    assert t[1..] == "[" + (CLASS[1..] + "$") && t[1..][1..] == CLASS[1..] + "$" && t[1..][0] == '[';
    ReadEnd();
    assert "" + "$" == "$";
    ReadNext(t[1..], UNRESERVED, "$", []);
    assert [UNRESERVED] + [] == [UNRESERVED];
    AcceptsOne(UNRESERVED, s);
    UnreservedAccepts(s);
  }

  // ----- Paths by their segments

  /** Characters no path may hold: those with a meaning in a URL or in a rule, white space,
      and control characters. */
  predicate IsForbidden(c: char) {
    || c == '?' || c == '#' || c == '%' || c == '`' || c == '*' || c == '\\'
    || c as int <= 0x20 || c as int == 0x7F
  }

  /** Two slashes in a row are an empty segment between two others. */
  lemma DoubleSlashIsEmptyPart(p: string)
    ensures (exists i :: 0 <= i < |p| - 1 && p[i] == '/' && p[i + 1] == '/') <==>
            exists j :: 0 < j < |Split(p, '/')| - 1 && Split(p, '/')[j] == ""
  {
    hide Split;
    if i :| 0 <= i < |p| - 1 && p[i] == '/' && p[i + 1] == '/' {
      SplitAt(p, '/', i);
      var t := p[i + 1..];
      assert t[0] == '/' && t[..0] == "";
      SplitAt(t, '/', 0);
      EmptyPart();
      assert Split(p, '/')[|Split(p[..i], '/')|] == "";
    }
    if j :| 0 < j < |Split(p, '/')| - 1 && Split(p, '/')[j] == "" {
      EmptyPartIsDoubleSlash(p, j);
    }
  }

  lemma EmptyPart()
    ensures Split("", '/') == [""]
  {
  }

  lemma EmptyPartIsDoubleSlash(p: string, j: nat)
    requires 0 < j < |Split(p, '/')| - 1 && Split(p, '/')[j] == ""
    ensures exists i :: 0 <= i < |p| - 1 && p[i] == '/' && p[i + 1] == '/'
  {
    hide Split;
    var parts := Split(p, '/');
    JoinSplit(p, '/');
    JoinConcat(parts[..j], parts[j..], '/');
    assert parts == parts[..j] + parts[j..];
    assert parts[j..] == [""] + parts[j + 1..];
    JoinConcat([""], parts[j + 1..], '/');
    var a, b := Join(parts[..j], '/'), Join(parts[j + 1..], '/');
    assert p == a + ['/'] + ("" + ['/'] + b);
    assert p[|a|] == '/' && p[|a| + 1] == '/';
  }

  ghost predicate ProperSegments(segments: seq<string>) {
    forall i :: 0 <= i < |segments| ==>
      segments[i] != "." && segments[i] != ".." && (segments[i] == "" ==> i == |segments| - 1)
  }

  /** The segments of a rooted path, and what its splitting as a whole shows. */
  lemma RootedSegments(p: string)
    requires p != "" && p[0] == '/'
    ensures ProperSegments(Split(p[1..], '/')) <==>
      && (forall j :: 0 < j < |Split(p, '/')| - 1 ==> Split(p, '/')[j] != "")
      && (forall j :: 0 <= j < |Split(p, '/')| ==> !IsDot(Split(p, '/')[j]))
  {
    hide Split;
    assert p[..0] == "";
    SplitAt(p, '/', 0);
    EmptyPart();
    var parts, segments := Split(p, '/'), Split(p[1..], '/');
    assert parts == [""] + segments;
    assert forall i :: 0 <= i < |segments| ==> segments[i] == parts[i + 1];
    assert forall j :: 1 <= j < |parts| ==> parts[j] == segments[j - 1];
  }

  ghost predicate NothingForbidden(p: string) {
    forall i :: 0 <= i < |p| ==> !IsForbidden(p[i])
  }

  lemma ForbiddenAnywhere(p: string)
    ensures NothingForbidden(p) <==>
      && (forall i :: 0 <= i < |p| ==> p[i] !in "?#%`*\\")
      && (forall i :: 0 <= i < |p| ==> !(p[i] <= ' ' || p[i] == '\U{7F}'))
  {
    hide IsForbidden;
    forall i | 0 <= i < |p|
      ensures IsForbidden(p[i]) <==> p[i] in "?#%`*\\" || p[i] <= ' ' || p[i] == '\U{7F}'
    {
      ForbiddenIs(p[i]);
    }
  }

  /** An accepted path begins with a slash, is not too long, holds no forbidden character, and
      none of its segments is a dot, two dots, or, but for the last, empty; and conversely. */
  lemma ValidPathExactly(p: string)
    ensures ValidatePath(p).None? <==>
      p != "" && p[0] == '/' && |p| <= 2048 && NothingForbidden(p) && ProperSegments(Split(p[1..], '/'))
  {
    hide Split, NothingForbidden, ProperSegments, IsDot;
    ForbiddenAnywhere(p);
    DoubleSlashIsEmptyPart(p);
    if p != "" && p[0] == '/' {
      RootedSegments(p);
    }
  }

  lemma ForbiddenIs(c: char)
    ensures IsForbidden(c) <==> c in "?#%`*\\" || c <= ' ' || c == '\U{7F}'
  {
    var marks := "?#%`*\\";
    assert marks[0] == '?' && marks[1] == '#' && marks[2] == '%' && marks[3] == '`' && marks[4] == '*';
    assert marks[5] == '\\';
    assert c in marks ==> c == '?' || c == '#' || c == '%' || c == '`' || c == '*' || c == '\\';
  }

  // ----- Accepted routes, from their text

  /** A segment may hold no colon, unless it is a colon and a name and the route is a template. */
  ghost predicate IsSegment(segment: string, mode: string) {
    ':' !in segment || (mode == "template" && exists name :: IsNamed(segment, name))
  }

  ghost predicate IsNamed(segment: string, name: string) {
    segment == [':'] + name && IsParameterName(name)
  }

  lemma SegmentExactly(segment: string, mode: string)
    ensures SegmentError(segment, mode).None? <==> IsSegment(segment, mode)
  {
    hide IsParameterName;
    if IsPlaceholder(segment) {
      var name := segment[1..];
      assert segment == [':'] + name && ':' in segment;
      assert IsParameterName(name) ==> IsNamed(segment, name);
      forall other | IsNamed(segment, other) ensures other == name {
        assert ([':'] + other)[1..] == other;
      }
    } else {
      assert ':' in segment ==> segment != "" && segment[0] != ':';
      assert forall name: string :: ([':'] + name)[0] == ':';
    }
  }

  lemma PlaceholdersExactly(segments: seq<string>, name: string)
    ensures name in Placeholders(segments) <==> [':'] + name in segments
  {
    if i :| 0 <= i < |segments| && IsPlaceholder(segments[i]) && name == segments[i][1..] {
      assert segments[i] == [':'] + name;
    }
    if [':'] + name in segments {
      var i :| 0 <= i < |segments| && segments[i] == [':'] + name;
      assert IsPlaceholder(segments[i]) && segments[i][1..] == name;
    }
  }

  /** The allow-lists name placeholders of the path, and hold values. */
  ghost predicate AreAllowLists(parameters: map<string, seq<string>>, segments: seq<string>) {
    forall name :: name in parameters ==>
      [':'] + name in segments && parameters[name] != [] && forall v :: v in parameters[name] ==> IsValue(v)
  }

  lemma AllowListsExactly(parameters: map<string, seq<string>>, segments: seq<string>)
    ensures ValidParameters(parameters, Placeholders(segments)) <==> AreAllowLists(parameters, segments)
  {
    hide Placeholders, IsValue;
    forall name ensures name in Placeholders(segments) <==> [':'] + name in segments {
      PlaceholdersExactly(segments, name);
    }
  }

  /** Which routes validation accepts, from the path's text, its segments, the methods and the
      allow-lists. */
  lemma AcceptableExactly(r: Route)
    ensures Acceptable(r) <==>
      && r.mode in {"", "exact", "template", "prefix"}
      && r.path != "" && r.path[0] == '/' && |r.path| <= 2048 && NothingForbidden(r.path)
      && var segments := Split(r.path[1..], '/');
      && ProperSegments(segments) && (forall i :: 0 <= i < |segments| ==> IsSegment(segments[i], r.mode))
      && (r.mode == "template" ==> exists name :: [':'] + name in segments)
      && r.methods != [] && (forall m :: m in NormalSet(r.methods) ==> IsMethod(m))
      && (r.parameters != map[] ==> r.mode == "template") && AreAllowLists(r.parameters, segments)
  {
    hide Split, ValidatePath, SegmentError, ValidParameters, AreAllowLists, IsSegment, NormalSet, Placeholders;
    ValidPathExactly(r.path);
    if r.path != "" && r.path[0] == '/' {
      var segments := Split(r.path[1..], '/');
      AllowListsExactly(r.parameters, segments);
      forall i | 0 <= i < |segments|
        ensures SegmentError(segments[i], r.mode).None? <==> IsSegment(segments[i], r.mode)
      {
        SegmentExactly(segments[i], r.mode);
      }
      DefaultIsExact(segments);
      SomePlaceholder(segments);
    }
  }

  lemma DefaultIsExact(segments: seq<string>)
    ensures ValidSegments(segments, "") <==> ValidSegments(segments, EXACT)
  {
    assert |EXACT| != |TEMPLATE|;
  }

  lemma SomePlaceholder(segments: seq<string>)
    ensures Placeholders(segments) != {} <==> exists name :: [':'] + name in segments
  {
    if Placeholders(segments) != {} {
      var name :| name in Placeholders(segments);
      PlaceholdersExactly(segments, name);
    }
    if name :| [':'] + name in segments {
      PlaceholdersExactly(segments, name);
    }
  }

  // ----- Upper case

  const LOWER := "abcdefghijklmnopqrstuvwxyz\U{0131}\U{017F}"

  const UPPER := "ABCDEFGHIJKLMNOPQRSTUVWXYZIS"

  /** The upper case of these letters is the letter across; every other character stays. */
  lemma UpperIs(c: char)
    ensures forall i :: 0 <= i < |LOWER| && c == LOWER[i] ==> Upper(c) == UPPER[i]
    ensures c !in LOWER ==> Upper(c) == c
  {
    if 'a' <= c <= 'z' {
      var i := c as int - 'a' as int;
      LetterAcross(i);
    }
    assert LOWER[26] == '\U{0131}' && LOWER[27] == '\U{017F}' && UPPER[26] == 'I' && UPPER[27] == 'S';
    forall i | 0 <= i < 26 ensures LOWER[i] as int == 97 + i && UPPER[i] as int == 65 + i {
      LetterAcross(i);
    }
  }

  lemma LetterAcross(i: nat)
    requires i < 26
    ensures |LOWER| == |UPPER| == 28 && LOWER[i] as int == 97 + i && UPPER[i] as int == 65 + i
  {
  }
}
