/** The byte-wise order of strings and the sorting built on it. */
module Text {

  /** Lexicographic order, as `sort.Strings` compares. */
  predicate Le(a: string, b: string)
    decreases |a|
  {
    if a == "" then true
    else if b == "" then false
    else a[0] < b[0] || (a[0] == b[0] && Le(a[1..], b[1..]))
  }

  lemma {:induction false} LeTotal(a: string, b: string)
    ensures Le(a, b) || Le(b, a)
    decreases |a|
  {
    if a != "" && b != "" && a[0] == b[0] {
      LeTotal(a[1..], b[1..]);
    }
  }

  lemma {:induction false} LeAntisymmetric(a: string, b: string)
    requires Le(a, b) && Le(b, a)
    ensures a == b
    decreases |a|
  {
    if a != "" {
      LeAntisymmetric(a[1..], b[1..]);
      assert a == [a[0]] + a[1..] && b == [b[0]] + b[1..];
    }
  }

  lemma {:induction false} LeTransitive(a: string, b: string, c: string)
    requires Le(a, b) && Le(b, c)
    ensures Le(a, c)
    decreases |a|
  {
    if a != "" && a[0] == b[0] && b[0] == c[0] {
      LeTransitive(a[1..], b[1..], c[1..]);
    }
  }

  /** The first difference between `a` and `b` is at `k`, where `a` is smaller. */
  ghost predicate SmallerAt(a: string, b: string, k: nat) {
    k < |a| && k < |b| && a[..k] == b[..k] && a[k] < b[k]
  }

  /** `a` begins `b`, or the first difference is smaller in `a`. */
  lemma {:induction false} LeExactly(a: string, b: string)
    ensures Le(a, b) <==> a <= b || exists k: nat :: SmallerAt(a, b, k)
    decreases |a|
  {
    if a != "" && b != "" {
      if a[0] < b[0] {
        assert SmallerAt(a, b, 0);
      } else {
        forall k: nat | SmallerAt(a, b, k) ensures k > 0 && SmallerAt(a[1..], b[1..], k - 1) && a[0] == b[0] {
          SmallerLater(a, b, k);
        }
        LeExactly(a[1..], b[1..]);
        if k: nat :| a[0] == b[0] && SmallerAt(a[1..], b[1..], k) {
          SmallerAfterFirst(a, b, k);
        }
        assert a <= b <==> a[0] == b[0] && a[1..] <= b[1..];
      }
    }
  }

  lemma SmallerLater(a: string, b: string, k: nat)
    requires SmallerAt(a, b, k) && a[0] >= b[0]
    ensures k > 0 && SmallerAt(a[1..], b[1..], k - 1) && a[0] == b[0]
  {
    assert k > 0 ==> a[..k][0] == b[..k][0] && a[1..][..k - 1] == a[..k][1..] && b[1..][..k - 1] == b[..k][1..];
  }

  lemma SmallerAfterFirst(a: string, b: string, k: nat)
    requires a != "" && b != "" && a[0] == b[0] && SmallerAt(a[1..], b[1..], k)
    ensures SmallerAt(a, b, k + 1)
  {
    assert a[..k + 1] == [a[0]] + a[1..][..k] && b[..k + 1] == [b[0]] + b[1..][..k];
  }

  ghost predicate Sorted(xs: seq<string>) {
    forall i, j :: 0 <= i < j < |xs| ==> Le(xs[i], xs[j])
  }

  predicate NoDuplicates<T(==)>(xs: seq<T>) {
    forall i, j :: 0 <= i < j < |xs| ==> xs[i] != xs[j]
  }

  function Elements<T>(xs: seq<T>): set<T> {
    set x | x in xs
  }

  function Insert(x: string, xs: seq<string>): (r: seq<string>)
    requires Sorted(xs)
    ensures Sorted(r) && multiset(r) == multiset(xs) + multiset{x}
  {
    if xs == [] then [x]
    else if Le(x, xs[0]) then
      InsertFront(x, xs);
      [x] + xs
    else
      LeTotal(x, xs[0]);
      var rest := Insert(x, xs[1..]);
      assert xs == [xs[0]] + xs[1..];
      InsertLater(xs[0], x, xs[1..], rest);
      [xs[0]] + rest
  }

  lemma InsertFront(x: string, xs: seq<string>)
    requires Sorted(xs) && xs != [] && Le(x, xs[0])
    ensures Sorted([x] + xs)
  {
    forall i | 0 <= i < |xs| ensures Le(x, xs[i]) {
      if i > 0 {
        LeTransitive(x, xs[0], xs[i]);
      }
    }
  }

  lemma InsertLater(h: string, x: string, tail: seq<string>, rest: seq<string>)
    requires Sorted([h] + tail) && Le(h, x)
    requires Sorted(rest) && multiset(rest) == multiset(tail) + multiset{x}
    ensures Sorted([h] + rest)
  {
    forall i | 0 <= i < |rest| ensures Le(h, rest[i]) {
      assert rest[i] in multiset(rest);
      if rest[i] != x {
        assert rest[i] in multiset(tail);
        var k :| 0 <= k < |tail| && tail[k] == rest[i];
        assert ([h] + tail)[k + 1] == tail[k];
        assert Le(([h] + tail)[0], ([h] + tail)[k + 1]);
      }
    }
  }

  /** `sort.Strings`. */
  function Sort(xs: seq<string>): (r: seq<string>)
    ensures Sorted(r) && multiset(r) == multiset(xs)
  {
    if xs == [] then []
    else
      assert xs == [xs[0]] + xs[1..];
      Insert(xs[0], Sort(xs[1..]))
  }

  lemma SameElements<T>(xs: seq<T>, ys: seq<T>)
    requires multiset(xs) == multiset(ys)
    ensures Elements(xs) == Elements(ys) && |xs| == |ys|
    ensures NoDuplicates(xs) ==> NoDuplicates(ys)
  {
    forall x ensures x in xs <==> x in ys {
      assert x in multiset(xs) <==> x in multiset(ys);
    }
    assert |multiset(xs)| == |multiset(ys)|;
    if NoDuplicates(xs) {
      NoDuplicatesMultiset(xs);
      MultisetNoDuplicates(ys);
    }
  }

  lemma {:induction false} NoDuplicatesMultiset<T>(xs: seq<T>)
    requires NoDuplicates(xs)
    ensures forall x :: x in xs ==> multiset(xs)[x] == 1
  {
    if xs != [] {
      NoDuplicatesMultiset(xs[1..]);
      assert xs == [xs[0]] + xs[1..];
      assert multiset(xs) == multiset{xs[0]} + multiset(xs[1..]);
      assert xs[0] !in xs[1..];
      forall x | x in xs ensures multiset(xs)[x] == 1 {
        if x != xs[0] {
          assert x in xs[1..];
        }
      }
    }
  }

  lemma TwoOccurrences<T>(xs: seq<T>, i: int, j: int)
    requires 0 <= i < j < |xs| && xs[i] == xs[j]
    ensures multiset(xs)[xs[j]] >= 2
  {
    assert xs == xs[..j] + [xs[j]] + xs[j + 1..];
    assert xs[i] == xs[..j][i];
  }

  lemma MultisetNoDuplicates<T>(xs: seq<T>)
    requires forall x :: x in xs ==> multiset(xs)[x] == 1
    ensures NoDuplicates(xs)
  {
    forall i, j | 0 <= i < j < |xs| ensures xs[i] != xs[j] {
      if xs[i] == xs[j] {
        TwoOccurrences(xs, i, j);
      }
    }
  }

  /** A sorted list is determined by its elements. */
  lemma {:induction false} SortedUnique(xs: seq<string>, ys: seq<string>)
    requires Sorted(xs) && Sorted(ys) && multiset(xs) == multiset(ys)
    ensures xs == ys
  {
    if xs == [] {
      assert |multiset(ys)| == 0;
    } else {
      assert |multiset(xs)| == |multiset(ys)|;
      HeadIsLeast(xs, ys);
      HeadIsLeast(ys, xs);
      LeAntisymmetric(xs[0], ys[0]);
      TailMultiset(xs);
      TailMultiset(ys);
      hide Sorted;
      SortedTail(xs);
      SortedTail(ys);
      SortedUnique(xs[1..], ys[1..]);
    }
  }

  lemma TailMultiset(xs: seq<string>)
    requires xs != []
    ensures multiset(xs[1..]) == multiset(xs) - multiset{xs[0]}
    ensures xs == [xs[0]] + xs[1..]
  {
    assert xs == [xs[0]] + xs[1..];
  }

  lemma SortedTail(xs: seq<string>)
    requires Sorted(xs) && xs != []
    ensures Sorted(xs[1..])
  {
  }

  lemma HeadIsLeast(xs: seq<string>, ys: seq<string>)
    requires Sorted(xs) && multiset(xs) == multiset(ys) && xs != [] && ys != []
    ensures Le(xs[0], ys[0])
  {
    assert ys[0] in multiset(xs);
    var j :| 0 <= j < |xs| && xs[j] == ys[0];
    LeTotal(xs[0], xs[0]);
  }

  lemma NoDuplicatesCount<T>(xs: seq<T>)
    requires NoDuplicates(xs)
    ensures |Elements(xs)| == |xs|
  {
    if xs != [] {
      NoDuplicatesCount(xs[1..]);
      assert Elements(xs) == {xs[0]} + Elements(xs[1..]);
    }
  }

  // ----- The keys of a map

  ghost predicate ListsExactly(xs: seq<string>, s: set<string>) {
    NoDuplicates(xs) && Elements(xs) == s
  }

  /** Map keys in arbitrary iteration order. */
  method NamesOf(s: set<string>) returns (names: seq<string>)
    ensures ListsExactly(names, s)
  {
    names := [];
    var todo := s;
    while todo != {}
      invariant todo <= s && ListsExactly(names, s - todo)
      decreases todo
    {
      var n :| n in todo;
      assert n !in Elements(names);
      assert Elements(names + [n]) == Elements(names) + {n};
      assert s - (todo - {n}) == (s - todo) + {n};
      todo := todo - {n};
      names := names + [n];
    }
    assert s - todo == s;
  }

  method SortedNames(s: set<string>) returns (names: seq<string>)
    ensures ListsExactly(names, s) && Sorted(names)
  {
    var unsorted := NamesOf(s);
    SameElements(unsorted, Sort(unsorted));
    names := Sort(unsorted);
  }

  // ----- White space

  predicate IsSpace(c: char) {
    || c == ' ' || '\t' <= c <= '\r' || c == '\U{0085}' || c == '\U{00A0}' || c == '\U{1680}'
    || '\U{2000}' <= c <= '\U{200A}' || c == '\U{2028}' || c == '\U{2029}' || c == '\U{202F}'
    || c == '\U{205F}' || c == '\U{3000}'
  }

  function TrimSpace(s: string): string {
    if s != "" && IsSpace(s[0]) then TrimSpace(s[1..])
    else if s != "" && IsSpace(s[|s| - 1]) then TrimSpace(s[..|s| - 1])
    else s
  }

  predicate AllSpace(s: string) {
    forall i :: 0 <= i < |s| ==> IsSpace(s[i])
  }

  /** Trimming takes white space off both ends, all of it and nothing else. */
  lemma {:induction false} TrimExactly(s: string) returns (before: string, after: string)
    ensures s == before + TrimSpace(s) + after && AllSpace(before) && AllSpace(after)
    ensures var t := TrimSpace(s); t != "" ==> !IsSpace(t[0]) && !IsSpace(t[|t| - 1])
    decreases |s|
  {
    hide IsSpace;
    before, after := "", "";
    if s != "" && IsSpace(s[0]) {
      var inner;
      inner, after := TrimExactly(s[1..]);
      before := [s[0]] + inner;
      assert s == [s[0]] + s[1..];
      assert s == before + TrimSpace(s) + after;
    } else if s != "" && IsSpace(s[|s| - 1]) {
      var inner;
      before, inner := TrimExactly(s[..|s| - 1]);
      after := inner + [s[|s| - 1]];
      assert s == s[..|s| - 1] + [s[|s| - 1]];
      assert s == before + TrimSpace(s) + after;
    }
  }

  // ----- Cutting and splitting at a separator

  /** Index of the first `c`, or the length when there is none. */
  function Find(s: string, c: char): (k: nat)
    ensures k <= |s| && (forall i :: 0 <= i < k ==> s[i] != c) && (k < |s| ==> s[k] == c)
  {
    if s == "" || s[0] == c then 0
    else
      assert s == [s[0]] + s[1..];
      1 + Find(s[1..], c)
  }

  /** `strings.Split` at a one-character separator. */
  function Split(s: string, c: char): (parts: seq<string>)
    ensures |parts| > 0
    decreases |s|
  {
    var k := Find(s, c);
    if k == |s| then [s] else [s[..k]] + Split(s[k + 1..], c)
  }

  function Join(parts: seq<string>, c: char): string {
    if parts == [] then ""
    else if |parts| == 1 then parts[0]
    else parts[0] + [c] + Join(parts[1..], c)
  }

  predicate Free(c: char, parts: seq<string>) {
    forall i :: 0 <= i < |parts| ==> c !in parts[i]
  }

  lemma {:induction false} JoinSplit(s: string, c: char)
    ensures Join(Split(s, c), c) == s && Free(c, Split(s, c))
    decreases |s|
  {
    var k := Find(s, c);
    if k < |s| {
      JoinSplit(s[k + 1..], c);
      assert s == s[..k] + [c] + s[k + 1..];
      assert Split(s, c)[1..] == Split(s[k + 1..], c);
    } else {
      assert s == s[..k];
    }
  }

  lemma FindAt(p: string, c: char, rest: string)
    requires c !in p
    ensures Find(p + [c] + rest, c) == |p|
  {
    var s := p + [c] + rest;
    assert s[|p|] == c;
    assert forall i :: 0 <= i < |p| ==> s[i] == p[i];
  }

  /** Splitting undoes joining when no part holds the separator. */
  lemma {:induction false} SplitJoin(parts: seq<string>, c: char)
    requires |parts| > 0 && Free(c, parts)
    ensures Split(Join(parts, c), c) == parts
    decreases |parts|
  {
    if |parts| == 1 {
      assert Find(parts[0], c) == |parts[0]|;
    } else {
      var rest := Join(parts[1..], c);
      FindAt(parts[0], c, rest);
      SplitJoin(parts[1..], c);
      var s := parts[0] + [c] + rest;
      assert s[..|parts[0]|] == parts[0] && s[|parts[0]| + 1..] == rest;
    }
  }

  lemma SplitAt(s: string, c: char, i: nat)
    requires i < |s| && s[i] == c
    ensures Split(s, c) == Split(s[..i], c) + Split(s[i + 1..], c)
  {
    hide Split, Join;
    var a, b := Split(s[..i], c), Split(s[i + 1..], c);
    JoinSplit(s[..i], c);
    JoinSplit(s[i + 1..], c);
    JoinConcat(a, b, c);
    assert s == s[..i] + [c] + s[i + 1..];
    SplitJoin(a + b, c);
  }

  lemma {:induction false} JoinConcat(a: seq<string>, b: seq<string>, c: char)
    requires a != [] && b != []
    ensures Join(a + b, c) == Join(a, c) + [c] + Join(b, c)
    decreases |a|
  {
    if |a| == 1 {
      assert (a + b)[1..] == b;
    } else {
      JoinConcat(a[1..], b, c);
      assert (a + b)[1..] == a[1..] + b;
    }
  }

  /** `p` followed by the separator begins `s` exactly when the parts of `p` are a
      proper prefix of the parts of `s`. */
  lemma PrefixBySegments(p: string, s: string, c: char)
    ensures p + [c] <= s <==>
            |Split(p, c)| < |Split(s, c)| && Split(s, c)[..|Split(p, c)|] == Split(p, c)
  {
    hide Split, Join;
    var a := Split(p, c);
    if p + [c] <= s {
      assert s[|p|] == c && s[..|p|] == p;
      SplitAt(s, c, |p|);
      assert (a + Split(s[|p| + 1..], c))[..|a|] == a;
    }
    if |a| < |Split(s, c)| && Split(s, c)[..|a|] == a {
      var b := Split(s, c)[|a|..];
      assert Split(s, c) == a + b;
      JoinSplit(p, c);
      JoinSplit(s, c);
      JoinConcat(a, b, c);
    }
  }

  lemma SplitInjective(p: string, s: string, c: char)
    ensures Split(p, c) == Split(s, c) <==> p == s
  {
    JoinSplit(p, c);
    JoinSplit(s, c);
  }
}
