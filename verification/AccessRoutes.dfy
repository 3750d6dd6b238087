/** Public routes: validation, the meaning of a route, and the proxy rule it is
    compiled to.

    A route is compiled to rule text, and the text is given a meaning by reading
    it back.  The main result is that, for every validated route, the rule accepts
    exactly the paths the route stands for.  Strings are sequences of bytes. */
module AccessRoutes {
  import opened Text
  import opened RouteRegex
  import opened Wrappers

  datatype Route = Route(path: string, mode: string, methods: seq<string>, parameters: map<string, seq<string>>)

  const EXACT := "exact"
  const TEMPLATE := "template"
  const PREFIX := "prefix"

  datatype RouteError =
    | UnknownMode | PathRequired | PathTooLong | PathNotAbsolute | PathReserved | PathControl | PathEmptySegment
    | PathDotSegment | NoMethod | BadMethod | PartialPlaceholder | PlaceholderNeedsTemplate | BadPlaceholder
    | NoPlaceholder | ParametersNeedTemplate | UnknownParameter | EmptyParameter | BadValue

  datatype Result<T> = Ok(value: T) | Err(error: RouteError)

  // ----- Paths

  predicate IsDot(segment: string) {
    segment == "." || segment == ".."
  }

  function ValidatePath(p: string): Option<RouteError> {
    if p == "" then Some(PathRequired)
    else if |p| > 2048 then Some(PathTooLong)
    else if p[0] != '/' then Some(PathNotAbsolute)
    else if exists i :: 0 <= i < |p| && p[i] in "?#%`*\\" then Some(PathReserved)
    else if exists i :: 0 <= i < |p| && (p[i] <= ' ' || p[i] == '\U{7F}') then Some(PathControl)
    else if exists i :: 0 <= i < |p| - 1 && p[i] == '/' && p[i + 1] == '/' then Some(PathEmptySegment)
    else if exists i :: 0 <= i < |Split(p, '/')| && IsDot(Split(p, '/')[i]) then Some(PathDotSegment)
    else None
  }

  // ----- Segments

  predicate IsPlaceholder(segment: string) {
    segment != "" && segment[0] == ':'
  }

  predicate IsNameStart(c: char) {
    'A' <= c <= 'Z' || 'a' <= c <= 'z' || c == '_'
  }

  predicate IsParameterName(s: string) {
    s != "" && IsNameStart(s[0]) && forall i :: 0 <= i < |s| ==> IsNameStart(s[i]) || '0' <= s[i] <= '9'
  }

  function SegmentError(segment: string, mode: string): Option<RouteError> {
    if !IsPlaceholder(segment) then (if ':' in segment then Some(PartialPlaceholder) else None)
    else if mode != TEMPLATE then Some(PlaceholderNeedsTemplate)
    else if !IsParameterName(segment[1..]) then Some(BadPlaceholder)
    else None
  }

  ghost predicate ValidSegments(segments: seq<string>, mode: string) {
    forall i :: 0 <= i < |segments| ==> SegmentError(segments[i], mode).None?
  }

  ghost function Placeholders(segments: seq<string>): set<string> {
    set i | 0 <= i < |segments| && IsPlaceholder(segments[i]) :: segments[i][1..]
  }

  /** Collects the placeholder names; the leading slash does not start a segment. */
  method ValidateMatchPath(path: string, mode: string) returns (r: Result<set<string>>)
    requires path != "" && path[0] == '/'
    ensures r.Ok? <==>
      && ValidSegments(Split(path[1..], '/'), mode)
      && (mode == TEMPLATE ==> Placeholders(Split(path[1..], '/')) != {})
    ensures r.Ok? ==> r.value == Placeholders(Split(path[1..], '/'))
  {
    var segments := Split(path[1..], '/');
    var placeholders := {};
    for i := 0 to |segments|
      invariant ValidSegments(segments[..i], mode)
      invariant placeholders == Placeholders(segments[..i])
    {
      assert segments[..i + 1] == segments[..i] + [segments[i]];
      OneMorePlaceholder(segments, i);
      match SegmentError(segments[i], mode)
      case Some(e) => return Err(e);
      case None =>
        if IsPlaceholder(segments[i]) {
          placeholders := placeholders + {segments[i][1..]};
        }
    }
    assert segments[..|segments|] == segments;
    if mode == TEMPLATE && placeholders == {} {
      return Err(NoPlaceholder);
    }
    return Ok(placeholders);
  }

  lemma OneMorePlaceholder(segments: seq<string>, i: nat)
    requires i < |segments|
    ensures Placeholders(segments[..i + 1])
         == Placeholders(segments[..i]) + if IsPlaceholder(segments[i]) then {segments[i][1..]} else {}
  {
    var a, b := segments[..i], segments[..i + 1];
    forall x | x in Placeholders(b)
      ensures x in Placeholders(a) + if IsPlaceholder(segments[i]) then {segments[i][1..]} else {}
    {
      var j :| 0 <= j < |b| && IsPlaceholder(b[j]) && x == b[j][1..];
      if j < i {
        assert a[j] == b[j];
      }
    }
    forall x | x in Placeholders(a) ensures x in Placeholders(b) {
      var j :| 0 <= j < |a| && IsPlaceholder(a[j]) && x == a[j][1..];
      assert b[j] == a[j];
    }
    if IsPlaceholder(segments[i]) {
      assert b[i] == segments[i];
    }
  }

  // ----- Methods

  /** The upper case of a letter, where it is ASCII: beside the ASCII letters that is so of the
      dotless i and of the long s.  Any other letter stays, and is no method character. */
  function Upper(c: char): char {
    if 'a' <= c <= 'z' then c - 32 as char
    else if c == '\U{0131}' then 'I'
    else if c == '\U{017F}' then 'S'
    else c
  }

  function ToUpper(s: string): string {
    seq(|s|, i requires 0 <= i < |s| => Upper(s[i]))
  }

  function NormalMethod(raw: string): string {
    ToUpper(TrimSpace(raw))
  }

  predicate IsMethodChar(c: char) {
    'A' <= c <= 'Z' || '0' <= c <= '9' || c in "!#$%&'*+.^_`|~-"
  }

  predicate IsMethod(s: string) {
    s != "" && 'A' <= s[0] <= 'Z' && forall i :: 0 <= i < |s| ==> IsMethodChar(s[i])
  }

  lemma MethodIsNormal(s: string)
    requires IsMethod(s)
    ensures NormalMethod(s) == s
  {
    assert IsMethodChar(s[0]) && IsMethodChar(s[|s| - 1]);
    assert !IsSpace(s[0]) && !IsSpace(s[|s| - 1]);
    assert forall i :: 0 <= i < |s| ==> Upper(s[i]) == s[i];
  }

  ghost function NormalSet(methods: seq<string>): set<string> {
    set i | 0 <= i < |methods| :: NormalMethod(methods[i])
  }

  /** Upper-cased, deduplicated, sorted. */
  method NormalizeMethods(methods: seq<string>) returns (r: Result<seq<string>>)
    ensures r.Ok? <==> forall m :: m in NormalSet(methods) ==> IsMethod(m)
    ensures r.Ok? ==> Sorted(r.value) && ListsExactly(r.value, NormalSet(methods))
  {
    var seen := {};
    var out := [];
    for i := 0 to |methods|
      invariant ListsExactly(out, seen) && seen == NormalSet(methods[..i])
      invariant forall m :: m in seen ==> IsMethod(m)
    {
      var m := NormalMethod(methods[i]);
      OneMoreMethod(methods, i);
      NormalSetGrows(methods, i);
      if !IsMethod(m) {
        assert m in NormalSet(methods);
        return Err(BadMethod);
      }
      if m !in seen {
        assert m !in Elements(out);
        assert Elements(out + [m]) == Elements(out) + {m};
        out := out + [m];
        seen := seen + {m};
      }
    }
    assert methods[..|methods|] == methods;
    SameElements(out, Sort(out));
    return Ok(Sort(out));
  }

  lemma OneMoreMethod(methods: seq<string>, i: nat)
    requires i < |methods|
    ensures NormalSet(methods[..i + 1]) == NormalSet(methods[..i]) + {NormalMethod(methods[i])}
  {
    hide NormalMethod;
    var a, b := methods[..i], methods[..i + 1];
    forall x | x in NormalSet(b) ensures x in NormalSet(a) + {NormalMethod(methods[i])} {
      var j :| 0 <= j < |b| && x == NormalMethod(b[j]);
      if j < i {
        assert a[j] == b[j];
      }
    }
    forall x | x in NormalSet(a) ensures x in NormalSet(b) {
      var j :| 0 <= j < |a| && x == NormalMethod(a[j]);
      assert b[j] == a[j];
    }
    assert b[i] == methods[i];
  }

  lemma NormalSetGrows(methods: seq<string>, i: nat)
    requires i < |methods|
    ensures NormalMethod(methods[i]) in NormalSet(methods)
  {
  }

  // ----- Parameters

  predicate IsValue(v: string) {
    !IsDot(v) && UnreservedText(v)
  }

  ghost predicate ValidValues(values: seq<string>) {
    values != [] && forall v :: v in values ==> IsValue(v)
  }

  ghost predicate ValidParameters(parameters: map<string, seq<string>>, placeholders: set<string>) {
    forall name :: name in parameters ==> name in placeholders && ValidValues(parameters[name])
  }

  /** Every allow-list sorted and without duplicates. */
  ghost predicate NormalParameters(before: map<string, seq<string>>, after: map<string, seq<string>>) {
    after.Keys == before.Keys
    && forall name :: name in before ==>
         Sorted(after[name]) && ListsExactly(after[name], Elements(before[name]))
  }

  method NormalizeValues(values: seq<string>) returns (r: Result<seq<string>>)
    ensures r.Ok? <==> ValidValues(values)
    ensures r.Ok? ==> Sorted(r.value) && ListsExactly(r.value, Elements(values))
  {
    if |values| == 0 {
      return Err(EmptyParameter);
    }
    var seen := {};
    for i := 0 to |values|
      invariant seen == Elements(values[..i])
      invariant forall v :: v in seen ==> IsValue(v)
    {
      assert values[..i + 1] == values[..i] + [values[i]];
      if !IsValue(values[i]) {
        return Err(BadValue);
      }
      seen := seen + {values[i]};
    }
    assert values[..|values|] == values;
    assert forall v :: v in values ==> v in Elements(values);
    var sorted := SortedNames(seen);
    return Ok(sorted);
  }

  method NormalizeParameters(parameters: map<string, seq<string>>, placeholders: set<string>)
    returns (r: Result<map<string, seq<string>>>)
    ensures r.Ok? <==> ValidParameters(parameters, placeholders)
    ensures r.Ok? ==> NormalParameters(parameters, r.value)
  {
    hide ListsExactly, Sorted, ValidValues;
    var todo := parameters.Keys;
    var normalized: map<string, seq<string>> := map[];
    while todo != {}
      invariant todo <= parameters.Keys && normalized.Keys == parameters.Keys - todo
      invariant forall name :: name in normalized ==>
        && name in placeholders && ValidValues(parameters[name])
        && Sorted(normalized[name]) && ListsExactly(normalized[name], Elements(parameters[name]))
      decreases todo
    {
      var name :| name in todo;
      todo := todo - {name};
      if name !in placeholders {
        return Err(UnknownParameter);
      }
      var values := NormalizeValues(parameters[name]);
      if values.Err? {
        return Err(values.error);
      }
      normalized := normalized[name := values.value];
    }
    return Ok(normalized);
  }

  // ----- Routes

  predicate KnownMode(mode: string) {
    mode == EXACT || mode == TEMPLATE || mode == PREFIX
  }

  /** A validated, normalized route. */
  ghost predicate Normal(r: Route) {
    && KnownMode(r.mode) && ValidatePath(r.path).None?
    && r.methods != [] && Sorted(r.methods) && NoDuplicates(r.methods)
    && (forall m :: m in r.methods ==> IsMethod(m))
    && r.path != "" && r.path[0] == '/'
    && ValidSegments(Split(r.path[1..], '/'), r.mode)
    && (r.mode == TEMPLATE ==> Placeholders(Split(r.path[1..], '/')) != {})
    && (r.parameters != map[] ==> r.mode == TEMPLATE)
    && ValidParameters(r.parameters, Placeholders(Split(r.path[1..], '/')))
    && NormalParameters(r.parameters, r.parameters)
  }

  /** What validation asks of its input. */
  ghost predicate Acceptable(r: Route) {
    var mode := if r.mode == "" then EXACT else r.mode;
    && KnownMode(mode) && ValidatePath(r.path).None? && r.methods != []
    && (forall m :: m in NormalSet(r.methods) ==> IsMethod(m))
    && r.path != "" && r.path[0] == '/'
    && ValidSegments(Split(r.path[1..], '/'), mode)
    && (mode == TEMPLATE ==> Placeholders(Split(r.path[1..], '/')) != {})
    && (r.parameters != map[] ==> mode == TEMPLATE)
    && ValidParameters(r.parameters, Placeholders(Split(r.path[1..], '/')))
  }

  /** Accepts or rejects; what it accepts is normal, keeps the path and the meaning of
      methods and allow-lists, and is accepted again unchanged. */
  method Validate(input: Route) returns (r: Result<Route>)
    ensures r.Ok? <==> Acceptable(input)
    ensures r.Ok? ==>
      && Normal(r.value) && r.value.path == input.path
      && r.value.mode == (if input.mode == "" then EXACT else input.mode)
      && Elements(r.value.methods) == NormalSet(input.methods)
      && NormalParameters(input.parameters, r.value.parameters)
    ensures Normal(input) ==> r == Ok(input)
  {
    hide ListsExactly, Sorted, NormalMethod, IsMethod, ValidSegments, Placeholders, ValidValues;
    var mode := if input.mode == "" then EXACT else input.mode;
    ModesAreNotEmpty();
    if !KnownMode(mode) {
      return Err(UnknownMode);
    }
    var pathError := ValidatePath(input.path);
    if pathError.Some? {
      return Err(pathError.value);
    }
    if |input.methods| == 0 {
      return Err(NoMethod);
    }
    var methods := NormalizeMethods(input.methods);
    NormalMethods(input.methods);
    if methods.Err? {
      return Err(methods.error);
    }
    MethodsAreNormal(input.methods, methods.value);
    var placeholders := ValidateMatchPath(input.path, mode);
    if placeholders.Err? {
      return Err(placeholders.error);
    }
    if |input.parameters| > 0 && mode != TEMPLATE {
      return Err(ParametersNeedTemplate);
    }
    var parameters := input.parameters;
    if |input.parameters| > 0 {
      var normalized := NormalizeParameters(input.parameters, placeholders.value);
      if normalized.Err? {
        return Err(normalized.error);
      }
      parameters := normalized.value;
      ParametersAreNormal(input.parameters, parameters, placeholders.value);
    }
    return Ok(Route(input.path, mode, methods.value, parameters));
  }

  lemma ModesAreNotEmpty()
    ensures !KnownMode("") && KnownMode(EXACT)
  {
  }

  lemma NormalMethods(methods: seq<string>)
    ensures (forall m :: m in methods ==> IsMethod(m)) ==> NormalSet(methods) == Elements(methods)
    ensures (forall m :: m in methods ==> IsMethod(m)) ==> forall m :: m in NormalSet(methods) ==> IsMethod(m)
  {
    hide NormalMethod, IsMethod;
    if forall m :: m in methods ==> IsMethod(m) {
      forall i | 0 <= i < |methods| ensures NormalMethod(methods[i]) == methods[i] {
        MethodIsNormal(methods[i]);
      }
      forall x ensures x in NormalSet(methods) <==> x in Elements(methods) {
        if x in methods {
          var i :| 0 <= i < |methods| && methods[i] == x;
        }
      }
    }
  }

  lemma SortedListUnique(xs: seq<string>, ys: seq<string>)
    requires Sorted(xs) && Sorted(ys) && NoDuplicates(xs) && NoDuplicates(ys) && Elements(xs) == Elements(ys)
    ensures xs == ys
  {
    hide Sorted, NoDuplicates;
    NoDuplicatesMultiset(xs);
    NoDuplicatesMultiset(ys);
    forall x ensures multiset(xs)[x] == multiset(ys)[x] {
      assert x in xs <==> x in Elements(xs);
      assert x in ys <==> x in Elements(ys);
    }
    assert multiset(xs) == multiset(ys);
    SortedUnique(xs, ys);
  }

  lemma MethodsAreNormal(input: seq<string>, out: seq<string>)
    requires input != [] && (forall m :: m in NormalSet(input) ==> IsMethod(m))
    requires Sorted(out) && ListsExactly(out, NormalSet(input))
    ensures out != [] && Sorted(out) && NoDuplicates(out) && Elements(out) == NormalSet(input)
    ensures forall m :: m in out ==> IsMethod(m)
    ensures (forall m :: m in input ==> IsMethod(m)) && Sorted(input) && NoDuplicates(input) ==> out == input
  {
    NormalSetGrows(input, 0);
    hide NormalMethod, IsMethod;
    assert NormalMethod(input[0]) in Elements(out);
    assert forall m :: m in out ==> m in Elements(out);
    if (forall m :: m in input ==> IsMethod(m)) && Sorted(input) && NoDuplicates(input) {
      NormalMethods(input);
      SortedListUnique(out, input);
    }
  }

  lemma ParametersAreNormal(before: map<string, seq<string>>, after: map<string, seq<string>>,
                            placeholders: set<string>)
    requires ValidParameters(before, placeholders) && NormalParameters(before, after)
    ensures ValidParameters(after, placeholders) && NormalParameters(after, after)
    ensures NormalParameters(before, before) ==> after == before
  {
    hide IsValue;
    forall name | name in after
      ensures ValidValues(after[name]) && ListsExactly(after[name], Elements(after[name]))
    {
      var a, b := after[name], before[name];
      assert b[0] in Elements(b);
      assert forall v :: v in a ==> v in Elements(a);
    }
    if NormalParameters(before, before) {
      forall name | name in before ensures after[name] == before[name] {
        SortedListUnique(after[name], before[name]);
      }
    }
  }
}
