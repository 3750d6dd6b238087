/** The method half of a public route's rule: its text, how that text reads back, and what it
    then accepts. */
module RouteMethods {
  import opened Text
  import opened Wrappers
  import opened AccessRoutes
  import opened RouteRules

  // ----- Writing

  function MethodAtom(m: string): string {
    "Method(`" + m + "`)"
  }

  function Alternation(ms: seq<string>): string {
    if ms == [] then ""
    else if |ms| == 1 then MethodAtom(ms[0])
    else MethodAtom(ms[0]) + " || " + Alternation(ms[1..])
  }

  function MethodText(ms: seq<string>): string {
    if |ms| == 1 then MethodAtom(ms[0]) else "(" + Alternation(ms) + ")"
  }

  lemma {:induction false} AlternationAppend(ms: seq<string>, m: string)
    requires ms != []
    ensures Alternation(ms + [m]) == Alternation(ms) + " || " + MethodAtom(m)
    decreases |ms|
  {
    hide MethodAtom;
    if |ms| == 1 {
      assert (ms + [m])[1..] == [m];
    } else {
      assert (ms + [m])[1..] == ms[1..] + [m];
      AlternationAppend(ms[1..], m);
    }
  }

  method MethodExpression(methods: seq<string>) returns (text: string)
    ensures text == MethodText(methods)
  {
    if |methods| == 1 {
      return "Method(`" + methods[0] + "`)";
    }
    text := "";
    for i := 0 to |methods|
      invariant text == Alternation(methods[..i])
    {
      assert methods[..i + 1] == methods[..i] + [methods[i]];
      if i > 0 {
        AlternationAppend(methods[..i], methods[i]);
        text := text + " || ";
      }
      text := text + ("Method(`" + methods[i] + "`)");
    }
    assert methods[..|methods|] == methods;
    text := "(" + text + ")";
  }

  // ----- Reading

  function ReadMethod(s: string): (r: Option<(string, string)>)
    ensures r.Some? ==> |r.value.1| < |s|
  {
    if "Method(`" <= s then ReadQuoted(s[8..]) else None
  }

  /** Alternatives up to the closing parenthesis. */
  function ReadAlternation(s: string): Option<seq<string>>
    decreases |s|
  {
    match ReadMethod(s)
    case None => None
    case Some((m, rest)) =>
      if rest == ")" then Some([m])
      else if !(" || " <= rest) then None
      else
        match ReadAlternation(rest[4..])
        case None => None
        case Some(ms) => Some([m] + ms)
  }

  function ReadMethods(s: string): Option<seq<string>> {
    if s != "" && s[0] == '(' then ReadAlternation(s[1..])
    else
      match ReadMethod(s)
      case None => None
      case Some((m, rest)) => if rest == "" then Some([m]) else None
  }

  lemma ReadMethodBack(m: string, rest: string)
    requires '`' !in m
    ensures ReadMethod(MethodAtom(m) + rest) == Some((m, rest))
  {
    var s := MethodAtom(m) + rest;
    assert s[8..] == m + "`)" + rest && "Method(`" <= s;
    ReadQuotedBack(m, rest);
  }

  /** A back quote inside a quotation ends it. */
  lemma QuotationEnds(m: string, rest: string, k: nat)
    requires k < |m| && m[k] == '`' && '`' !in m[..k]
    ensures Find(m + rest, '`') == k
  {
    var q := m + rest;
    assert q == m[..k] + ['`'] + q[k + 1..];
    FindAt(m[..k], '`', q[k + 1..]);
  }

  /** ... and inside a method no parenthesis follows it. */
  lemma ReadMethodFails(m: string, rest: string)
    requires IsMethod(m) && '`' in m
    ensures ReadMethod(MethodAtom(m) + rest) == None
  {
    hide Find;
    var s, tail := MethodAtom(m) + rest, "`)" + rest;
    assert s[8..] == m + tail && "Method(`" <= s;
    var k := Find(m, '`');
    QuotationEnds(m, tail, k);
    assert (m + tail)[k + 1] == if k + 1 < |m| then m[k + 1] else '`';
    assert k + 1 < |m| ==> IsMethodChar(m[k + 1]);
  }

  lemma ReadLast(m: string)
    requires '`' !in m
    ensures ReadAlternation(MethodAtom(m) + ")") == Some([m])
  {
    hide MethodAtom, ReadMethod;
    ReadMethodBack(m, ")");
  }

  lemma ReadFirst(m: string, tail: string)
    requires '`' !in m
    ensures ReadAlternation(MethodAtom(m) + (" || " + tail))
         == match ReadAlternation(tail) case None => None case Some(ms) => Some([m] + ms)
  {
    hide MethodAtom, ReadMethod;
    var rest := " || " + tail;
    ReadMethodBack(m, rest);
    assert rest[0] == ' ' && " || " <= rest && rest[4..] == tail;
  }

  predicate Unquoted(ms: seq<string>) {
    forall i :: 0 <= i < |ms| ==> '`' !in ms[i]
  }

  lemma {:induction false} ReadAlternationBack(ms: seq<string>)
    requires ms != [] && forall i :: 0 <= i < |ms| ==> IsMethod(ms[i])
    ensures ReadAlternation(Alternation(ms) + ")") == if Unquoted(ms) then Some(ms) else None
    decreases |ms|
  {
    hide MethodAtom, ReadMethod, ReadAlternation, IsMethod;
    var tail := Alternation(ms[1..]) + ")";
    var rest := if |ms| == 1 then ")" else " || " + tail;
    assert Alternation(ms) + ")" == MethodAtom(ms[0]) + rest;
    if '`' in ms[0] {
      ReadFails(ms[0], rest);
    } else if |ms| == 1 {
      ReadLast(ms[0]);
      assert ms == [ms[0]];
    } else {
      ReadAlternationBack(ms[1..]);
      ReadFirst(ms[0], tail);
      assert ms == [ms[0]] + ms[1..];
      assert Unquoted(ms) <==> Unquoted(ms[1..]);
    }
  }

  lemma ReadFails(m: string, rest: string)
    requires IsMethod(m) && '`' in m
    ensures ReadAlternation(MethodAtom(m) + rest) == None
  {
    hide MethodAtom, ReadMethod, IsMethod;
    ReadMethodFails(m, rest);
  }

  /** The rule for the methods reads back as those methods if and only if none of them holds a
      back quote; otherwise it does not read at all. */
  lemma MethodsReadBackExactly(ms: seq<string>)
    requires ms != [] && forall i :: 0 <= i < |ms| ==> IsMethod(ms[i])
    ensures ReadMethods(MethodText(ms)) == if Unquoted(ms) then Some(ms) else None
  {
    hide ReadMethod, ReadAlternation, Alternation, IsMethod;
    if |ms| == 1 {
      assert MethodText(ms)[0] == 'M';
      assert MethodText(ms) == MethodAtom(ms[0]) + "";
      if '`' in ms[0] {
        ReadMethodFails(ms[0], "");
      } else {
        ReadMethodBack(ms[0], "");
        assert ms == [ms[0]];
      }
    } else {
      assert MethodText(ms)[1..] == Alternation(ms) + ")";
      ReadAlternationBack(ms);
    }
  }

  ghost predicate MethodAccepted(text: string, x: string) {
    ReadMethods(text).Some? && x in ReadMethods(text).value
  }

  /** The method rule of a validated route accepts exactly its methods, unless one of them
      holds a back quote; then it accepts none. */
  lemma MethodRuleMeans(r: Route, x: string)
    requires Normal(r)
    ensures MethodAccepted(MethodText(r.methods), x) <==> x in r.methods && Unquoted(r.methods)
  {
    hide ReadMethods, MethodText, IsMethod;
    MethodsReadBackExactly(r.methods);
  }

  /** A validated route with the method A`B, whose rule does not read. */
  lemma BackQuotedMethod()
    ensures var r := Route("/a/", PREFIX, ["A`B"], map[]);
      Normal(r) && ReadMethods(MethodText(r.methods)) == None
  {
    assert forall i :: 0 <= i < 3 ==> IsMethodChar("A`B"[i]);
    assert "A`B"[1] == '`';
    PrefixRouteIsNormal("A`B");
    MethodsReadBackExactly(["A`B"]);
  }
}
