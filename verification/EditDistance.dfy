/** The typo suggestions for unknown configuration variables: a two-row
    Levenshtein distance filled in place, and the search for the closest key.

    `Distance` is the textbook recursion.  It is tied to an independent meaning,
    the length of the shortest chain of single-character edits, so that the
    table-filling method is proved to compute that and not merely a recursion
    of the same shape. */
module EditDistance {
  import opened Wrappers

  function Cost(x: char, y: char): nat {
    if x == y then 0 else 1
  }

  /** Minimum number of insertions, deletions and substitutions, by last characters. */
  function Distance(a: string, b: string): nat
    decreases |a| + |b|
  {
    if a == "" then |b|
    else if b == "" then |a|
    else
      var a', b' := a[..|a| - 1], b[..|b| - 1];
      Min(Min(Distance(a', b) + 1, Distance(a, b') + 1),
          Distance(a', b') + Cost(a[|a| - 1], b[|b| - 1]))
  }

  // ----- The distance is a metric

  lemma {:induction false} DistanceZero(a: string, b: string)
    ensures Distance(a, b) == 0 <==> a == b
    decreases |a|
  {
    if a != "" && b != "" {
      DistanceZero(a[..|a| - 1], b[..|b| - 1]);
      assert a == a[..|a| - 1] + [a[|a| - 1]];
      assert b == b[..|b| - 1] + [b[|b| - 1]];
    }
  }

  lemma {:induction false} DistanceSymmetric(a: string, b: string)
    ensures Distance(a, b) == Distance(b, a)
    decreases |a| + |b|
  {
    if a != "" && b != "" {
      DistanceSymmetric(a[..|a| - 1], b);
      DistanceSymmetric(a, b[..|b| - 1]);
      DistanceSymmetric(a[..|a| - 1], b[..|b| - 1]);
    }
  }

  /** Going from `a` to `c` by deleting all of `a` bounds the distance. */
  lemma {:induction false} DistanceAtMostSum(a: string, c: string)
    ensures Distance(a, c) <= |a| + |c|
    decreases |a| + |c|
  {
    if a != "" && c != "" {
      DistanceAtMostSum(a[..|a| - 1], c);
    }
  }

  lemma {:induction false} TriangleInequality(a: string, b: string, c: string)
    ensures Distance(a, c) <= Distance(a, b) + Distance(b, c)
    decreases |a| + |b| + |c|
  {
    if a == "" {
      LengthBound(b, c);
    } else if c == "" {
      DistanceSymmetric(a, b);
      LengthBound(b, a);
    } else if b == "" {
      DistanceAtMostSum(a, c);
    } else {
      var a', b', c' := a[..|a| - 1], b[..|b| - 1], c[..|c| - 1];
      TriangleInequality(a', b, c);
      TriangleInequality(a, b, c');
      TriangleInequality(a, b', c);
      TriangleInequality(a, b', c');
      TriangleInequality(a', b', c);
      TriangleInequality(a', b', c');
    }
  }

  /** Lengths differ by at most the distance. */
  lemma {:induction false} LengthBound(b: string, c: string)
    ensures |c| <= |b| + Distance(b, c)
    decreases |b| + |c|
  {
    if b != "" && c != "" {
      LengthBound(b[..|b| - 1], c);
      LengthBound(b, c[..|c| - 1]);
      LengthBound(b[..|b| - 1], c[..|c| - 1]);
    }
  }

  // ----- The distance is the length of the shortest edit chain

  ghost predicate Inserts(s: string, t: string) {
    exists k, x :: 0 <= k <= |s| && t == s[..k] + [x] + s[k..]
  }

  ghost predicate Substitutes(s: string, t: string) {
    |t| == |s| && exists k :: 0 <= k < |s| && t == s[k := t[k]]
  }

  /** One keystroke apart: an insertion, a deletion or a substitution. */
  ghost predicate OneEdit(s: string, t: string) {
    Inserts(s, t) || Inserts(t, s) || Substitutes(s, t)
  }

  ghost predicate EditChain(chain: seq<string>, a: string, b: string) {
    && |chain| > 0 && chain[0] == a && chain[|chain| - 1] == b
    && forall i :: 0 <= i < |chain| - 1 ==> OneEdit(chain[i], chain[i + 1])
  }

  /** A common last character can be added without raising the distance. */
  lemma ExtendBoth(s: string, t: string, x: char)
    ensures Distance(s + [x], t + [x]) <= Distance(s, t)
  {
    assert (s + [x])[..|s|] == s && (t + [x])[..|t|] == t;
  }

  lemma {:induction false} CommonSuffix(s: string, t: string, u: string)
    ensures Distance(s + u, t + u) <= Distance(s, t)
    decreases |u|
  {
    if u == "" {
      assert s + u == s && t + u == t;
    } else {
      var u', x := u[..|u| - 1], u[|u| - 1];
      CommonSuffix(s, t, u');
      assert s + u == (s + u') + [x] && t + u == (t + u') + [x];
      ExtendBoth(s + u', t + u', x);
    }
  }

  lemma InsertionCostsOne(s: string, t: string)
    requires Inserts(s, t)
    ensures Distance(s, t) <= 1 && Distance(t, s) <= 1
  {
    var k, x :| 0 <= k <= |s| && t == s[..k] + [x] + s[k..];
    var p := s[..k];
    assert s == p + s[k..];
    assert (p + [x])[..|p|] == p;
    DistanceZero(p, p);
    assert Distance(p, p + [x]) <= 1;
    CommonSuffix(p, p + [x], s[k..]);
    DistanceSymmetric(s, t);
  }

  lemma LastCostsOne(p: string, y: char, x: char)
    ensures Distance(p + [y], p + [x]) <= 1
  {
    assert (p + [y])[..|p|] == p && (p + [x])[..|p|] == p;
    DistanceZero(p, p);
  }

  lemma SubstitutionCostsOne(s: string, t: string)
    requires Substitutes(s, t)
    ensures Distance(s, t) <= 1
  {
    hide Distance;
    var k :| 0 <= k < |s| && t == s[k := t[k]];
    var p, y, x := s[..k], s[k], t[k];
    assert s == (p + [y]) + s[k + 1..];
    assert t == (p + [x]) + s[k + 1..];
    LastCostsOne(p, y, x);
    CommonSuffix(p + [y], p + [x], s[k + 1..]);
  }

  /** No chain of edits is shorter than the distance. */
  lemma {:induction false} NoShorterChain(chain: seq<string>, a: string, b: string)
    requires EditChain(chain, a, b)
    ensures Distance(a, b) <= |chain| - 1
    decreases |chain|
  {
    if |chain| == 1 {
      DistanceZero(a, b);
    } else {
      var c := chain[1];
      assert OneEdit(chain[0], chain[1]);
      if Inserts(a, c) {
        InsertionCostsOne(a, c);
      } else if Inserts(c, a) {
        InsertionCostsOne(c, a);
      } else {
        SubstitutionCostsOne(a, c);
      }
      NoShorterChain(chain[1..], c, b);
      TriangleInequality(a, c, b);
    }
  }

  /** Appending one character to every element of a chain keeps it a chain. */
  lemma SuffixedChain(chain: seq<string>, a: string, b: string, x: char) returns (r: seq<string>)
    requires EditChain(chain, a, b)
    ensures EditChain(r, a + [x], b + [x]) && |r| == |chain|
  {
    r := seq(|chain|, i requires 0 <= i < |chain| => chain[i] + [x]);
    forall i | 0 <= i < |r| - 1 ensures OneEdit(r[i], r[i + 1]) {
      SuffixedEdit(chain[i], chain[i + 1], x);
    }
  }

  lemma SuffixedInsertion(s: string, t: string, x: char)
    requires Inserts(s, t)
    ensures Inserts(s + [x], t + [x])
  {
    var k, y :| 0 <= k <= |s| && t == s[..k] + [y] + s[k..];
    assert t + [x] == (s + [x])[..k] + [y] + (s + [x])[k..];
  }

  lemma SuffixedEdit(s: string, t: string, x: char)
    requires OneEdit(s, t)
    ensures OneEdit(s + [x], t + [x])
  {
    if Inserts(s, t) {
      SuffixedInsertion(s, t, x);
    } else if Inserts(t, s) {
      SuffixedInsertion(t, s, x);
    } else {
      var k :| 0 <= k < |s| && t == s[k := t[k]];
      assert t + [x] == (s + [x])[k := (t + [x])[k]];
      assert Substitutes(s + [x], t + [x]);
    }
  }

  lemma AppendIsInsertion(s: string, x: char)
    ensures Inserts(s, s + [x])
  {
    assert s + [x] == s[..|s|] + [x] + s[|s|..];
  }

  lemma ExtendChain(chain: seq<string>, a: string, b: string, c: string)
    requires EditChain(chain, a, b) && OneEdit(b, c)
    ensures EditChain(chain + [c], a, c)
  {
  }

  lemma PrependChain(chain: seq<string>, a: string, b: string, c: string)
    requires OneEdit(a, b) && EditChain(chain, b, c)
    ensures EditChain([a] + chain, a, c)
  {
  }

  /** A chain of exactly `Distance(a, b)` edits exists. */
  lemma {:induction false} ShortestChain(a: string, b: string) returns (chain: seq<string>)
    ensures EditChain(chain, a, b) && |chain| == Distance(a, b) + 1
    decreases |a| + |b|
  {
    if a == "" && b == "" {
      chain := [a];
    } else if a == "" || (b != "" && Distance(a, b) == Distance(a, b[..|b| - 1]) + 1) {
      chain := ChainByInsertion(a, b);
    } else if b == "" || Distance(a, b) == Distance(a[..|a| - 1], b) + 1 {
      chain := ChainByDeletion(a, b);
    } else {
      chain := ChainByLast(a, b);
    }
  }

  lemma {:induction false} ChainByInsertion(a: string, b: string) returns (chain: seq<string>)
    requires b != "" && Distance(a, b) == Distance(a, b[..|b| - 1]) + 1
    ensures EditChain(chain, a, b) && |chain| == Distance(a, b) + 1
    decreases |a| + |b|, 0
  {
    var b' := b[..|b| - 1];
    var rest := ShortestChain(a, b');
    AppendIsInsertion(b', b[|b| - 1]);
    assert b == b' + [b[|b| - 1]];
    ExtendChain(rest, a, b', b);
    chain := rest + [b];
  }

  lemma {:induction false} ChainByDeletion(a: string, b: string) returns (chain: seq<string>)
    requires a != "" && Distance(a, b) == Distance(a[..|a| - 1], b) + 1
    ensures EditChain(chain, a, b) && |chain| == Distance(a, b) + 1
    decreases |a| + |b|, 0
  {
    var a' := a[..|a| - 1];
    var rest := ShortestChain(a', b);
    AppendIsInsertion(a', a[|a| - 1]);
    assert a == a' + [a[|a| - 1]];
    PrependChain(rest, a, a', b);
    chain := [a] + rest;
  }

  lemma {:induction false} ChainByLast(a: string, b: string) returns (chain: seq<string>)
    requires a != "" && b != ""
    requires Distance(a, b) == Distance(a[..|a| - 1], b[..|b| - 1]) + Cost(a[|a| - 1], b[|b| - 1])
    ensures EditChain(chain, a, b) && |chain| == Distance(a, b) + 1
    decreases |a| + |b|, 0
  {
    var a', b', x, y := a[..|a| - 1], b[..|b| - 1], a[|a| - 1], b[|b| - 1];
    var rest := ShortestChain(a', b');
    chain := SuffixedChain(rest, a', b', x);
    assert a == a' + [x] && b == b' + [y];
    if x != y {
      assert b == (b' + [x])[|b'| := b[|b'|]];
      assert Substitutes(b' + [x], b);
      ExtendChain(chain, a, b' + [x], b);
      chain := chain + [b];
    }
  }

  // ----- The two-row table

  /** Row `i` of the table, up to column `n`. */
  ghost predicate RowOf(row: array<nat>, a: string, b: string, i: nat, n: nat)
    requires i <= |a| && n <= |b| + 1 && row.Length == |b| + 1
    reads row
  {
    forall j :: 0 <= j < n ==> row[j] == Distance(a[..i], b[..j])
  }

  lemma CellStep(a: string, b: string, i: nat, j: nat)
    requires 0 < i <= |a| && 0 < j <= |b|
    ensures Distance(a[..i], b[..j])
         == Min(Min(Distance(a[..i - 1], b[..j]) + 1, Distance(a[..i], b[..j - 1]) + 1),
                Distance(a[..i - 1], b[..j - 1]) + Cost(a[i - 1], b[j - 1]))
  {
    assert a[..i][..i - 1] == a[..i - 1];
    assert b[..j][..j - 1] == b[..j - 1];
  }

  lemma FirstColumn(a: string, b: string, i: nat)
    requires i <= |a|
    ensures Distance(a[..i], b[..0]) == i
  {
  }

  /** The inner loop: one row of the table from the row above it. */
  method FillRow(prev: array<nat>, cur: array<nat>, a: string, b: string, i: nat)
    requires prev.Length == cur.Length == |b| + 1 && prev != cur && 0 < i <= |a|
    requires RowOf(prev, a, b, i - 1, |b| + 1)
    modifies cur
    ensures RowOf(cur, a, b, i, |b| + 1)
  {
    hide Distance;
    FirstColumn(a, b, i);
    cur[0] := i;
    for j := 1 to |b| + 1
      invariant RowOf(cur, a, b, i, j)
    {
      var cost := 1;
      if a[i - 1] == b[j - 1] {
        cost := 0;
      }
      assert prev[j] == Distance(a[..i - 1], b[..j]);
      assert prev[j - 1] == Distance(a[..i - 1], b[..j - 1]);
      assert cur[j - 1] == Distance(a[..i], b[..j - 1]);
      CellStep(a, b, i, j);
      cur[j] := Min(Min(prev[j] + 1, cur[j - 1] + 1), prev[j - 1] + cost);
    }
  }

  method Levenshtein(a: string, b: string) returns (d: nat)
    ensures d == Distance(a, b)
  {
    var prev := new nat[|b| + 1];
    var cur := new nat[|b| + 1];
    for j := 0 to |b| + 1
      invariant RowOf(prev, a, b, 0, j)
    {
      prev[j] := j;
    }
    for i := 1 to |a| + 1
      invariant prev.Length == cur.Length == |b| + 1 && prev != cur
      invariant fresh(prev) && fresh(cur)
      invariant RowOf(prev, a, b, i - 1, |b| + 1)
    {
      FillRow(prev, cur, a, b, i);
      prev, cur := cur, prev;
    }
    d := prev[|b|];
    assert a[..|a|] == a && b[..|b|] == b;
  }

  // ----- The suggestion

  /** `best` is the first of `keys` at the least distance from `name`. */
  ghost predicate FirstClosest(keys: seq<string>, name: string, k: nat) {
    && k < |keys|
    && (forall i :: 0 <= i < |keys| ==> Distance(name, keys[k]) <= Distance(name, keys[i]))
    && (forall i :: 0 <= i < k ==> Distance(name, keys[k]) < Distance(name, keys[i]))
  }

  /** Only typos fewer than four edits away are suggested; "" means no suggestion. */
  method ClosestKey(keys: seq<string>, name: string) returns (best: string)
    ensures (exists k :: 0 <= k < |keys| && Distance(name, keys[k]) < 4)
            ==> exists k: nat :: FirstClosest(keys, name, k) && best == keys[k]
    ensures (forall k :: 0 <= k < |keys| ==> Distance(name, keys[k]) >= 4) ==> best == ""
  {
    var bestDist := 4;
    best := "";
    ghost var at := 0;
    for i := 0 to |keys|
      invariant bestDist <= 4
      invariant forall k :: 0 <= k < i ==> bestDist <= Distance(name, keys[k])
      invariant bestDist == 4 ==> best == ""
      invariant bestDist < 4 ==>
        && at < i && best == keys[at] && bestDist == Distance(name, keys[at])
        && forall k :: 0 <= k < at ==> bestDist < Distance(name, keys[k])
    {
      var d := Levenshtein(name, keys[i]);
      if d < bestDist {
        best, bestDist := keys[i], d;
        at := i;
      }
    }
    assert bestDist < 4 ==> FirstClosest(keys, name, at);
  }
}
