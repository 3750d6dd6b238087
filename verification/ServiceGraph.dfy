/** Compose `depends_on`: Kahn's start order and the depth-first cycle search.

    The two algorithms are independent in the source, and the plan builder relies
    on their agreement.  Both are tied here to one notion, the existence of a
    start order, and the order Kahn's loop returns is shown to be the least one. */
module ServiceGraph {
  import opened Text

  /** Each service with the names its `depends_on` mentions, known or not. */
  type Graph = map<string, set<string>>

  /** Dependencies on services of the project; the others are skipped. */
  function Known(g: Graph, n: string): set<string>
    requires n in g
  {
    g[n] * g.Keys
  }

  ghost predicate DependenciesFirst(g: Graph, order: seq<string>) {
    forall i :: 0 <= i < |order| ==> order[i] in g && Known(g, order[i]) <= Elements(order[..i])
  }

  ghost predicate IsStartOrder(g: Graph, order: seq<string>) {
    NoDuplicates(order) && Elements(order) == g.Keys && DependenciesFirst(g, order)
  }

  ghost predicate Orderable(g: Graph) {
    exists order :: IsStartOrder(g, order)
  }

  /** A cycle as the error message prints it: first name repeated at the end. */
  ghost predicate IsClosedWalk(g: Graph, c: seq<string>) {
    && |c| >= 2 && c[0] == c[|c| - 1]
    && forall i :: 0 <= i < |c| - 1 ==> c[i] in g && c[i + 1] in Known(g, c[i])
  }

  /** A start order lists every service once, and each after all it names that are services too. */
  lemma StartOrderExactly(g: Graph, order: seq<string>)
    ensures IsStartOrder(g, order) <==>
      && (forall n :: n in order <==> n in g)
      && (forall i, j :: 0 <= i < j < |order| ==> order[i] != order[j])
      && forall i, d :: 0 <= i < |order| && order[i] in g && d in g[order[i]] && d in g ==> d in order[..i]
  {
    assert forall n :: n in order <==> n in Elements(order);
    if forall n :: n in order <==> n in g {
      assert Elements(order) == g.Keys;
      forall i | 0 <= i < |order|
        ensures Known(g, order[i]) <= Elements(order[..i]) <==>
                forall d :: d in g[order[i]] && d in g ==> d in order[..i]
      {
        assert forall d :: d in order[..i] <==> d in Elements(order[..i]);
      }
    }
  }

  /** Both are services and `a` names `b`. */
  predicate Names(g: Graph, a: string, b: string) {
    a in g && b in g && b in g[a]
  }

  /** A closed walk goes from service to service along what they name, and ends where it began. */
  lemma ClosedWalkExactly(g: Graph, c: seq<string>)
    ensures IsClosedWalk(g, c) <==>
      |c| >= 2 && c[0] == c[|c| - 1] && forall i :: 0 <= i < |c| - 1 ==> Names(g, c[i], c[i + 1])
  {
    forall i | 0 <= i < |c| - 1 && IsClosedWalk(g, c) ensures Names(g, c[i], c[i + 1]) {
      assert c[i] in g && c[i + 1] in Known(g, c[i]);
    }
    if forall i :: 0 <= i < |c| - 1 ==> Names(g, c[i], c[i + 1]) {
      forall i | 0 <= i < |c| - 1 ensures c[i] in g && c[i + 1] in Known(g, c[i]) {
        assert Names(g, c[i], c[i + 1]);
      }
    }
  }

  // ----- Start orders and closed walks exclude each other

  ghost function Position(order: seq<string>, n: string): (k: nat)
    requires n in order
    ensures k < |order| && order[k] == n
  {
    var k :| 0 <= k < |order| && order[k] == n;
    k
  }

  lemma {:induction false} WalkDescends(g: Graph, order: seq<string>, c: seq<string>, k: nat)
    requires IsStartOrder(g, order) && IsClosedWalk(g, c) && k < |c|
    ensures c[k] in order && c[0] in order
    ensures Position(order, c[k]) + k <= Position(order, c[0])
  {
    assert c[0] in g && c[0] in Elements(order);
    if k > 0 {
      WalkDescends(g, order, c, k - 1);
      var p := Position(order, c[k - 1]);
      assert order[p] == c[k - 1] && c[k] in Known(g, order[p]);
      assert c[k] in order[..p];
      var q :| 0 <= q < p && order[q] == c[k];
      assert order[Position(order, c[k])] == order[q];
    }
  }

  /** A service on a cycle can never start: no start order exists. */
  lemma ClosedWalkBlocksOrders(g: Graph, c: seq<string>)
    requires IsClosedWalk(g, c)
    ensures !Orderable(g)
  {
    forall order ensures !IsStartOrder(g, order) {
      if IsStartOrder(g, order) {
        WalkDescends(g, order, c, |c| - 1);
      }
    }
  }

  // ----- The greedy order: always the least service that may start next

  ghost function Available(g: Graph, done: set<string>): set<string> {
    set n | n in g && n !in done && Known(g, n) <= done
  }

  ghost predicate IsLeast(n: string, s: set<string>) {
    n in s && forall m :: m in s ==> Le(n, m)
  }

  lemma {:induction false} LeastExists(s: set<string>) returns (n: string)
    requires s != {}
    ensures IsLeast(n, s)
    decreases s
  {
    n :| n in s;
    if s != {n} {
      var m := LeastExists(s - {n});
      LeTotal(n, m);
      LeTotal(n, n);
      if Le(n, m) {
        forall x | x in s ensures Le(n, x) {
          if x != n {
            LeTransitive(n, m, x);
          }
        }
      } else {
        n := m;
      }
    } else {
      LeTotal(n, n);
    }
  }

  ghost function Least(s: set<string>): (n: string)
    requires s != {}
    ensures IsLeast(n, s)
  {
    LeastIsThere(s);
    var n :| IsLeast(n, s);
    n
  }

  lemma LeastIsThere(s: set<string>)
    requires s != {}
    ensures exists n :: IsLeast(n, s)
  {
    var n := LeastExists(s);
  }

  lemma LeastUnique(n: string, s: set<string>)
    requires IsLeast(n, s)
    ensures n == Least(s)
  {
    LeAntisymmetric(n, Least(s));
  }

  ghost function GreedyOrder(g: Graph, done: set<string>): seq<string>
    decreases g.Keys - done
  {
    var ready := Available(g, done);
    if ready == {} then []
    else
      var n := Least(ready);
      assert g.Keys - (done + {n}) < g.Keys - done by {
        assert n in g.Keys - done;
      }
      [n] + GreedyOrder(g, done + {n})
  }

  /** The services of `o` may start one after the other once `done` has started. */
  ghost predicate MayFollow(g: Graph, done: set<string>, o: seq<string>) {
    && NoDuplicates(o) && Elements(o) !! done && Elements(o) <= g.Keys
    && forall i :: 0 <= i < |o| ==> o[i] in g && Known(g, o[i]) <= done + Elements(o[..i])
  }

  lemma MayPrepend(g: Graph, done: set<string>, n: string, rest: seq<string>)
    requires n in Available(g, done) && MayFollow(g, done + {n}, rest)
    ensures MayFollow(g, done, [n] + rest)
    ensures done + Elements([n] + rest) == done + {n} + Elements(rest)
  {
    var o := [n] + rest;
    forall i | 0 <= i < |o| ensures o[i] in g && Known(g, o[i]) <= done + Elements(o[..i]) {
      if i > 0 {
        assert o[..i] == [n] + rest[..i - 1];
        assert Known(g, rest[i - 1]) <= done + {n} + Elements(rest[..i - 1]);
      }
    }
    assert n !in Elements(rest);
    assert Elements(o) == {n} + Elements(rest);
  }

  /** The greedy order can be followed, and it stops only when nothing more can start. */
  lemma {:induction false} GreedyRuns(g: Graph, done: set<string>)
    ensures MayFollow(g, done, GreedyOrder(g, done))
    ensures Available(g, done + Elements(GreedyOrder(g, done))) == {}
    decreases g.Keys - done
  {
    var ready := Available(g, done);
    if ready != {} {
      var n := Least(ready);
      assert n in g.Keys - done;
      hide MayFollow, Known;
      GreedyRuns(g, done + {n});
      MayPrepend(g, done, n, GreedyOrder(g, done + {n}));
    } else {
      assert done + Elements([]) == done;
    }
  }

  /** Any start order, restricted to what is not done, begins with an available service. */
  lemma StuckMeansBlocked(g: Graph, done: set<string>, order: seq<string>)
    requires Available(g, done) == {} && IsStartOrder(g, order)
    ensures g.Keys <= done
  {
    var i := 0;
    while i < |order|
      invariant 0 <= i <= |order|
      invariant Elements(order[..i]) <= done
    {
      assert order[i] in g && Known(g, order[i]) <= Elements(order[..i]);
      assert order[i] !in Available(g, done);
      assert Elements(order[..i + 1]) == Elements(order[..i]) + {order[i]};
      i := i + 1;
    }
    assert order[..i] == order;
  }

  lemma FullGreedyIsOrder(g: Graph)
    requires |GreedyOrder(g, {})| == |g|
    ensures IsStartOrder(g, GreedyOrder(g, {}))
  {
    GreedyRuns(g, {});
    hide GreedyOrder, Available, Known;
    var o := GreedyOrder(g, {});
    CoversAll(g, o);
  }

  lemma CoversAll(g: Graph, o: seq<string>)
    requires NoDuplicates(o) && Elements(o) <= g.Keys && |o| == |g|
    ensures Elements(o) == g.Keys
  {
    NoDuplicatesCount(o);
    SubsetOfSameSize(Elements(o), g.Keys);
  }

  lemma OrderMeansFullGreedy(g: Graph, order: seq<string>)
    requires IsStartOrder(g, order)
    ensures |GreedyOrder(g, {})| == |g|
  {
    GreedyRuns(g, {});
    hide GreedyOrder, Available, Known, IsStartOrder;
    var o := GreedyOrder(g, {});
    assert {} + Elements(o) == Elements(o);
    StuckMeansBlocked(g, Elements(o), order);
    assert Elements(o) == g.Keys;
    NoDuplicatesCount(o);
  }

  /** The greedy order covers every service exactly when some start order exists. */
  lemma GreedyComplete(g: Graph)
    ensures |GreedyOrder(g, {})| == |g| <==> Orderable(g)
    ensures Orderable(g) ==> IsStartOrder(g, GreedyOrder(g, {}))
  {
    hide GreedyOrder, IsStartOrder;
    if |GreedyOrder(g, {})| == |g| {
      FullGreedyIsOrder(g);
    }
    if Orderable(g) {
      var order :| IsStartOrder(g, order);
      OrderMeansFullGreedy(g, order);
    }
  }

  lemma SubsetOfSameSize<T>(a: set<T>, b: set<T>)
    requires a <= b && |a| == |b|
    ensures a == b
  {
    assert |b - a| == 0;
  }

  /** Lexicographic order on lists of names. */
  ghost predicate ListLe(xs: seq<string>, ys: seq<string>)
    decreases |xs|
  {
    if xs == [] then true
    else if ys == [] then false
    else if xs[0] == ys[0] then ListLe(xs[1..], ys[1..])
    else Le(xs[0], ys[0])
  }

  /** The first difference between two lists is at `k`, where the first has the lesser name. */
  ghost predicate LesserAt(xs: seq<string>, ys: seq<string>, k: nat) {
    k < |xs| && k < |ys| && xs[..k] == ys[..k] && xs[k] != ys[k] && Le(xs[k], ys[k])
  }

  /** `xs` begins `ys`, or has the lesser name at the first difference. */
  lemma {:induction false} ListLeExactly(xs: seq<string>, ys: seq<string>)
    ensures ListLe(xs, ys) <==> xs <= ys || exists k: nat :: LesserAt(xs, ys, k)
    decreases |xs|
  {
    if xs != [] && ys != [] {
      if xs[0] == ys[0] {
        ListLeExactly(xs[1..], ys[1..]);
        assert xs <= ys <==> xs[1..] <= ys[1..];
        if k: nat :| LesserAt(xs[1..], ys[1..], k) {
          LesserOneLater(xs, ys, k);
        }
        if k: nat :| LesserAt(xs, ys, k) {
          LesserOneEarlier(xs, ys, k);
        }
      } else {
        forall k: nat | LesserAt(xs, ys, k) ensures k == 0 {
          LesserAtOnce(xs, ys, k);
        }
        assert Le(xs[0], ys[0]) ==> LesserAt(xs, ys, 0);
      }
    }
  }

  lemma LesserAtOnce(xs: seq<string>, ys: seq<string>, k: nat)
    requires xs != [] && ys != [] && xs[0] != ys[0] && LesserAt(xs, ys, k)
    ensures k == 0
  {
  }

  lemma LesserOneLater(xs: seq<string>, ys: seq<string>, k: nat)
    requires xs != [] && ys != [] && xs[0] == ys[0] && LesserAt(xs[1..], ys[1..], k)
    ensures LesserAt(xs, ys, k + 1)
  {
    assert xs[..k + 1] == [xs[0]] + xs[1..][..k] && ys[..k + 1] == [ys[0]] + ys[1..][..k];
  }

  lemma LesserOneEarlier(xs: seq<string>, ys: seq<string>, k: nat)
    requires xs != [] && ys != [] && xs[0] == ys[0] && LesserAt(xs, ys, k)
    ensures k > 0 && LesserAt(xs[1..], ys[1..], k - 1)
  {
    assert k > 0 ==> xs[1..][..k - 1] == xs[..k][1..] && ys[1..][..k - 1] == ys[..k][1..];
  }

  /** A legal continuation once `done` has started. */
  ghost predicate Continues(g: Graph, done: set<string>, order: seq<string>) {
    && NoDuplicates(order) && Elements(order) == g.Keys - done
    && forall i :: 0 <= i < |order| ==> order[i] in g && Known(g, order[i]) <= done + Elements(order[..i])
  }

  lemma {:induction false} GreedyIsLeastFrom(g: Graph, done: set<string>, order: seq<string>)
    requires Continues(g, done, order)
    ensures ListLe(GreedyOrder(g, done), order)
    decreases |order|
  {
    if order != [] {
      assert order[0] in g && order[..0] == [];
      assert order[0] in Elements(order);
      assert order[0] in Available(g, done);
      var n := Least(Available(g, done));
      if n == order[0] {
        ContinuesTail(g, done, order);
        GreedyIsLeastFrom(g, done + {n}, order[1..]);
      }
    } else {
      assert Elements(order) == {};
      assert forall n :: n in g ==> n !in g.Keys - done;
      assert Available(g, done) == {};
    }
  }

  lemma ContinuesTail(g: Graph, done: set<string>, order: seq<string>)
    requires Continues(g, done, order) && order != []
    ensures Continues(g, done + {order[0]}, order[1..])
  {
    var rest := order[1..];
    assert order == [order[0]] + rest;
    assert Elements(order) == {order[0]} + Elements(rest);
    forall i | 0 <= i < |rest|
      ensures rest[i] in g && Known(g, rest[i]) <= done + {order[0]} + Elements(rest[..i])
    {
      assert order[..i + 1] == [order[0]] + rest[..i];
      assert rest[i] == order[i + 1];
    }
  }

  /** No start order comes before the greedy one. */
  lemma GreedyIsLeast(g: Graph, order: seq<string>)
    requires IsStartOrder(g, order)
    ensures ListLe(GreedyOrder(g, {}), order)
  {
    assert Continues(g, {}, order) by {
      assert g.Keys - {} == g.Keys;
    }
    GreedyIsLeastFrom(g, {}, order);
  }

  // ----- Kahn's loop

  /** How many known dependencies of `n` have not started. */
  ghost function Missing(g: Graph, n: string, done: set<string>): nat
    requires n in g
  {
    |Known(g, n) - done|
  }

  lemma MissingNone(g: Graph, n: string, done: set<string>)
    requires n in g
    ensures Missing(g, n, done) == 0 <==> Known(g, n) <= done
  {
    assert Known(g, n) <= done ==> Known(g, n) - done == {};
    assert Known(g, n) - done == {} ==> forall d :: d in Known(g, n) ==> d in done || d in Known(g, n) - done;
  }

  lemma MissingAll(g: Graph, n: string)
    requires n in g
    ensures Missing(g, n, {}) == |Known(g, n)|
  {
    assert Known(g, n) - {} == Known(g, n);
  }

  lemma MissingAfter(g: Graph, n: string, done: set<string>, name: string)
    requires n in g && name !in done
    ensures Missing(g, n, done + {name}) == Missing(g, n, done) - if name in Known(g, n) then 1 else 0
  {
    if name in Known(g, n) {
      assert Known(g, n) - done == (Known(g, n) - (done + {name})) + {name};
    } else {
      assert Known(g, n) - done == Known(g, n) - (done + {name});
    }
  }

  ghost predicate EdgesCounted(g: Graph, indegree: map<string, int>, done: set<string>) {
    indegree.Keys == g.Keys && forall n :: n in g ==> indegree[n] == Missing(g, n, done)
  }

  ghost function DependentsOf(g: Graph, d: string): set<string> {
    set n | n in g && d in Known(g, n)
  }

  ghost predicate DependentsListed(g: Graph, dependents: map<string, seq<string>>) {
    && dependents.Keys == g.Keys
    && forall d :: d in g ==> ListsExactly(dependents[d], DependentsOf(g, d))
  }

  /** One service's edges, in the arbitrary order of a map iteration. */
  method CountService(g: Graph, name: string, indegree0: map<string, int>, dependents0: map<string, seq<string>>)
    returns (indegree: map<string, int>, dependents: map<string, seq<string>>)
    requires name in g && name in indegree0 && indegree0[name] == 0 && dependents0.Keys == g.Keys
    requires forall d :: d in g ==> name !in dependents0[d]
    ensures indegree == indegree0[name := |Known(g, name)|]
    ensures dependents.Keys == g.Keys
    ensures forall d :: d in g ==>
              dependents[d] == if d in Known(g, name) then dependents0[d] + [name] else dependents0[d]
  {
    hide *;
    indegree, dependents := indegree0, dependents0;
    var todo := g[name];
    ghost var seen: set<string> := {};
    CountNone(g);
    while todo != {}
      invariant seen !! todo && seen + todo == g[name]
      invariant indegree == indegree0[name := CountKnown(g, seen)]
      invariant dependents.Keys == g.Keys
      invariant forall d :: d in g ==>
                  dependents[d] == if d in seen then dependents0[d] + [name] else dependents0[d]
      decreases todo
    {
      var dep :| dep in todo;
      todo := todo - {dep};
      CountOne(g, seen, dep);
      if dep in g {
        indegree := indegree[name := indegree[name] + 1];
        dependents := dependents[dep := dependents[dep] + [name]];
      }
      seen := seen + {dep};
    }
    CountAll(g, name, seen);
  }

  ghost function CountKnown(g: Graph, seen: set<string>): nat {
    |seen * g.Keys|
  }

  lemma CountNone(g: Graph)
    ensures CountKnown(g, {}) == 0
  {
  }

  lemma CountOne(g: Graph, seen: set<string>, dep: string)
    requires dep !in seen
    ensures CountKnown(g, seen + {dep}) == CountKnown(g, seen) + if dep in g then 1 else 0
  {
    assert (seen + {dep}) * g.Keys == seen * g.Keys + if dep in g then {dep} else {};
  }

  lemma CountAll(g: Graph, name: string, seen: set<string>)
    requires name in g && seen == g[name]
    ensures CountKnown(g, seen) == |Known(g, name)|
    ensures forall d :: d in g ==> (d in seen <==> d in Known(g, name))
  {
  }

  /** The counts once the services of `seen` have been walked. */
  ghost predicate CountedSoFar(g: Graph, indegree: map<string, int>, dependents: map<string, seq<string>>,
                               seen: set<string>) {
    && indegree.Keys == g.Keys && dependents.Keys == g.Keys
    && (forall n :: n in g ==> indegree[n] == if n in seen then |Known(g, n)| else 0)
    && forall d :: d in g ==> ListsExactly(dependents[d], DependentsOf(g, d) * seen)
  }

  method CountEdges(g: Graph) returns (indegree: map<string, int>, dependents: map<string, seq<string>>)
    ensures EdgesCounted(g, indegree, {}) && DependentsListed(g, dependents)
  {
    hide *;
    indegree := map n | n in g :: 0;
    dependents := map n | n in g :: [];
    var todo := g.Keys;
    ghost var seen: set<string> := {};
    NothingCounted(g, indegree, dependents);
    while todo != {}
      invariant seen !! todo && seen + todo == g.Keys
      invariant CountedSoFar(g, indegree, dependents, seen)
      decreases todo
    {
      var name :| name in todo;
      todo := todo - {name};
      NotCounted(g, indegree, dependents, seen, name);
      ghost var i, d := indegree, dependents;
      indegree, dependents := CountService(g, name, indegree, dependents);
      OneMoreService(g, i, d, indegree, dependents, seen, name);
      seen := seen + {name};
    }
    assert seen == g.Keys;
    AllCounted(g, indegree, dependents);
  }

  lemma NothingCounted(g: Graph, indegree: map<string, int>, dependents: map<string, seq<string>>)
    requires indegree.Keys == g.Keys && forall n :: n in g ==> indegree[n] == 0
    requires dependents.Keys == g.Keys && forall d :: d in g ==> dependents[d] == []
    ensures CountedSoFar(g, indegree, dependents, {})
  {
    hide Known;
  }

  lemma NotCounted(g: Graph, indegree: map<string, int>, dependents: map<string, seq<string>>,
                   seen: set<string>, name: string)
    requires CountedSoFar(g, indegree, dependents, seen) && name in g && name !in seen
    ensures name in indegree && indegree[name] == 0 && dependents.Keys == g.Keys
    ensures forall d :: d in g ==> name !in dependents[d]
  {
    hide Known, DependentsOf, ListsExactly;
    forall d | d in g ensures name !in dependents[d] {
      NotListed(dependents[d], DependentsOf(g, d), seen, name);
    }
  }

  lemma OneMoreService(g: Graph, indegree0: map<string, int>, dependents0: map<string, seq<string>>,
                       indegree: map<string, int>, dependents: map<string, seq<string>>,
                       seen: set<string>, name: string)
    requires CountedSoFar(g, indegree0, dependents0, seen) && name in g && name !in seen
    requires indegree == indegree0[name := |Known(g, name)|] && dependents.Keys == g.Keys
    requires forall d :: d in g ==>
               dependents[d] == if d in Known(g, name) then dependents0[d] + [name] else dependents0[d]
    ensures CountedSoFar(g, indegree, dependents, seen + {name})
  {
    hide Known, DependentsOf, ListsExactly;
    forall d | d in g ensures ListsExactly(dependents[d], DependentsOf(g, d) * (seen + {name})) {
      AddDependent(g, d, name, seen, dependents0[d], dependents[d]);
    }
  }

  lemma NotListed(xs: seq<string>, s: set<string>, seen: set<string>, name: string)
    requires ListsExactly(xs, s * seen) && name !in seen
    ensures name !in xs
  {
    assert name !in Elements(xs);
  }

  lemma AllCounted(g: Graph, indegree: map<string, int>, dependents: map<string, seq<string>>)
    requires CountedSoFar(g, indegree, dependents, g.Keys)
    ensures EdgesCounted(g, indegree, {}) && DependentsListed(g, dependents)
  {
    hide Known, Missing, ListsExactly;
    forall n | n in g ensures indegree[n] == Missing(g, n, {}) {
      MissingAll(g, n);
    }
    forall d | d in g ensures DependentsOf(g, d) * g.Keys == DependentsOf(g, d) {
    }
  }

  lemma AddDependent(g: Graph, d: string, name: string, seen: set<string>, old_: seq<string>, new_: seq<string>)
    requires d in g && name in g && name !in seen
    requires ListsExactly(old_, DependentsOf(g, d) * seen)
    requires new_ == if d in Known(g, name) then old_ + [name] else old_
    ensures ListsExactly(new_, DependentsOf(g, d) * (seen + {name}))
  {
    assert name !in Elements(old_);
    if d in Known(g, name) {
      assert Elements(new_) == Elements(old_) + {name};
      assert DependentsOf(g, d) * (seen + {name}) == DependentsOf(g, d) * seen + {name};
    } else {
      assert DependentsOf(g, d) * (seen + {name}) == DependentsOf(g, d) * seen;
    }
  }

  /** The ready list: sorted and duplicate-free. */
  ghost predicate ReadyList(ready: seq<string>, s: set<string>) {
    Sorted(ready) && ListsExactly(ready, s)
  }

  lemma SortedReady(xs: seq<string>, s: set<string>)
    requires ListsExactly(xs, s)
    ensures ReadyList(Sort(xs), s)
  {
    SameElements(xs, Sort(xs));
  }

  lemma ZeroIsAvailable(g: Graph, indegree: map<string, int>, name: string)
    requires EdgesCounted(g, indegree, {}) && name in g
    ensures name in Available(g, {}) <==> indegree[name] == 0
  {
    hide Missing;
    MissingNone(g, name, {});
  }

  /** One more name listed when it belongs, none when it does not. */
  lemma ListOneMore(xs: seq<string>, s: set<string>, seen: set<string>, name: string)
    requires ListsExactly(xs, s * seen) && name !in seen
    ensures name in s ==> ListsExactly(xs + [name], s * (seen + {name}))
    ensures name !in s ==> ListsExactly(xs, s * (seen + {name}))
  {
    NotListed(xs, s, seen, name);
    assert Elements(xs + [name]) == Elements(xs) + {name};
    if name in s {
      assert s * (seen + {name}) == s * seen + {name};
    } else {
      assert s * (seen + {name}) == s * seen;
    }
  }

  method InitialReady(g: Graph, indegree: map<string, int>) returns (ready: seq<string>)
    requires EdgesCounted(g, indegree, {})
    ensures ReadyList(ready, Available(g, {}))
  {
    hide *;
    ready := [];
    var todo := indegree.Keys;
    ghost var free := Available(g, {});
    ghost var seen := {};
    KeysCounted(g, indegree, {});
    EmptyList(free);
    while todo != {}
      invariant seen !! todo && seen + todo == g.Keys
      invariant ListsExactly(ready, free * seen)
      decreases todo
    {
      var name :| name in todo;
      todo := todo - {name};
      ZeroIsAvailable(g, indegree, name);
      ListOneMore(ready, free, seen, name);
      if indegree[name] == 0 {
        ready := ready + [name];
      }
      seen := seen + {name};
    }
    AvailableIsKnown(g, {}, seen);
    SortedReady(ready, free);
    ready := Sort(ready);
  }

  lemma KeysCounted(g: Graph, indegree: map<string, int>, done: set<string>)
    requires EdgesCounted(g, indegree, done)
    ensures indegree.Keys == g.Keys
  {
  }

  lemma EmptyList(s: set<string>)
    ensures ListsExactly([], s * {})
  {
  }

  lemma AvailableIsKnown(g: Graph, done: set<string>, seen: set<string>)
    requires seen == g.Keys
    ensures Available(g, done) * seen == Available(g, done)
  {
  }

  ghost predicate Unblocked(g: Graph, done: set<string>, n: string)
    requires n in g
  {
    Known(g, n) <= done
  }

  /** The counts while the dependents of `name` are being walked. */
  ghost predicate CountsDuring(g: Graph, indegree: map<string, int>, done: set<string>, name: string,
                               walked: set<string>) {
    && indegree.Keys == g.Keys
    && forall n :: n in g ==>
         indegree[n] == Missing(g, n, if n in walked then done + {name} else done)
  }

  ghost function Unblocks(g: Graph, done: set<string>, name: string): set<string> {
    set n | n in DependentsOf(g, name) && Unblocked(g, done + {name}, n)
  }

  lemma WalkOneDependent(g: Graph, indegree: map<string, int>, done: set<string>, name: string,
                         walked: set<string>, n: string)
    requires CountsDuring(g, indegree, done, name, walked)
    requires n in DependentsOf(g, name) && n !in walked && name !in done
    ensures n in indegree && n in g
    ensures CountsDuring(g, indegree[n := indegree[n] - 1], done, name, walked + {n})
    ensures indegree[n] - 1 == 0 <==> n in Unblocks(g, done, name)
    ensures n !in Available(g, done)
  {
    hide Missing;
    MissingAfter(g, n, done, name);
    MissingNone(g, n, done + {name});
  }

  lemma WalkFinished(g: Graph, indegree: map<string, int>, done: set<string>, name: string)
    requires CountsDuring(g, indegree, done, name, DependentsOf(g, name)) && name !in done
    ensures EdgesCounted(g, indegree, done + {name})
  {
    hide Missing;
    forall n | n in g ensures indegree[n] == Missing(g, n, done + {name}) {
      MissingAfter(g, n, done, name);
    }
  }

  /** What has started has its dependencies started. */
  ghost predicate DoneClosed(g: Graph, done: set<string>) {
    forall n :: n in done && n in g ==> Known(g, n) <= done
  }

  lemma NewlyAvailable(g: Graph, name: string, done: set<string>)
    requires name in Available(g, done) && DoneClosed(g, done)
    ensures (Available(g, done) - {name}) + Unblocks(g, done, name) == Available(g, done + {name})
  {
    forall n | n in g
      ensures n in Available(g, done + {name}) <==> n in (Available(g, done) - {name}) + Unblocks(g, done, name)
    {
      var before := Available(g, done);
      if name in Known(g, n) {
        assert name !in done;
        assert n !in before;
        assert n !in done;
      } else {
        assert Known(g, n) <= done + {name} <==> Known(g, n) <= done;
      }
    }
  }

  lemma ReadyOneMore(ready: seq<string>, base: set<string>, s: set<string>, walked: set<string>, n: string)
    requires ReadyList(ready, base + s * walked) && n !in base && n !in walked
    ensures n in s ==> ReadyList(Sort(ready + [n]), base + s * (walked + {n}))
    ensures n !in s ==> ReadyList(ready, base + s * (walked + {n}))
  {
    if n in s {
      assert n !in Elements(ready);
      assert Elements(ready + [n]) == Elements(ready) + {n};
      assert base + s * (walked + {n}) == base + s * walked + {n};
      SortedReady(ready + [n], base + s * (walked + {n}));
    } else {
      assert base + s * (walked + {n}) == base + s * walked;
    }
  }

  /** The inner loop: `name` has started; its dependents lose one missing dependency. */
  method ReleaseDependents(g: Graph, name: string, next: seq<string>, ghost done: set<string>,
                           indegree0: map<string, int>, ready0: seq<string>)
    returns (indegree: map<string, int>, ready: seq<string>)
    requires name in Available(g, done) && ListsExactly(next, DependentsOf(g, name))
    requires EdgesCounted(g, indegree0, done) && DoneClosed(g, done)
    requires ReadyList(ready0, Available(g, done) - {name})
    ensures EdgesCounted(g, indegree, done + {name})
    ensures ReadyList(ready, Available(g, done + {name}))
  {
    hide *;
    indegree, ready := indegree0, ready0;
    ghost var walked: set<string> := {};
    ghost var base, unblocks := Available(g, done) - {name}, Unblocks(g, done, name);
    WalkBegins(g, indegree, done, name);
    assert base + unblocks * walked == base;
    for k := 0 to |next|
      invariant walked == Elements(next[..k])
      invariant CountsDuring(g, indegree, done, name, walked)
      invariant ReadyList(ready, base + unblocks * walked)
    {
      var dependent := next[k];
      NextListed(next, DependentsOf(g, name), k);
      WalkOneDependent(g, indegree, done, name, walked, dependent);
      ReadyOneMore(ready, base, unblocks, walked, dependent);
      indegree := indegree[dependent := indegree[dependent] - 1];
      if indegree[dependent] == 0 {
        ready := Sort(ready + [dependent]);
      }
      walked := walked + {dependent};
    }
    AllWalked(next, DependentsOf(g, name));
    WalkFinished(g, indegree, done, name);
    NewlyAvailable(g, name, done);
    UnblocksAreDependents(g, done, name);
  }

  lemma WalkBegins(g: Graph, indegree: map<string, int>, done: set<string>, name: string)
    requires EdgesCounted(g, indegree, done) && name in Available(g, done)
    ensures CountsDuring(g, indegree, done, name, {}) && name !in done
    ensures Elements<string>([]) == {}
  {
  }

  lemma NextListed(xs: seq<string>, s: set<string>, k: nat)
    requires ListsExactly(xs, s) && k < |xs|
    ensures xs[k] in s && xs[k] !in Elements(xs[..k])
    ensures Elements(xs[..k + 1]) == Elements(xs[..k]) + {xs[k]}
  {
    assert xs[k] in Elements(xs);
    assert xs[..k + 1] == xs[..k] + [xs[k]];
  }

  lemma AllWalked(xs: seq<string>, s: set<string>)
    requires ListsExactly(xs, s)
    ensures Elements(xs[..|xs|]) == s
  {
    assert xs[..|xs|] == xs;
  }

  lemma UnblocksAreDependents(g: Graph, done: set<string>, name: string)
    ensures Unblocks(g, done, name) * DependentsOf(g, name) == Unblocks(g, done, name)
  {
  }

  lemma GreedyStep(g: Graph, done: set<string>, ready: seq<string>)
    requires ReadyList(ready, Available(g, done)) && ready != []
    ensures ready[0] in Available(g, done) && ready[0] in g
    ensures ReadyList(ready[1..], Available(g, done) - {ready[0]})
    ensures GreedyOrder(g, done) == [ready[0]] + GreedyOrder(g, done + {ready[0]})
  {
    assert ready == [ready[0]] + ready[1..];
    assert ready[0] in Elements(ready);
    forall m | m in Available(g, done) ensures Le(ready[0], m) {
      assert m in Elements(ready);
      var k :| 0 <= k < |ready| && ready[k] == m;
      LeTotal(m, m);
    }
    LeastUnique(ready[0], Available(g, done));
    assert Elements(ready) == {ready[0]} + Elements(ready[1..]);
  }

  lemma StartedStaysClosed(g: Graph, done: set<string>, name: string)
    requires DoneClosed(g, done) && name in Available(g, done) && done <= g.Keys
    ensures DoneClosed(g, done + {name}) && done + {name} <= g.Keys
    ensures g.Keys - (done + {name}) < g.Keys - done
  {
    assert name in g.Keys - done;
  }

  lemma DependentsSorted(g: Graph, dependents: map<string, seq<string>>, name: string)
    requires DependentsListed(g, dependents) && name in g
    ensures name in dependents && ListsExactly(Sort(dependents[name]), DependentsOf(g, name))
  {
    SameElements(dependents[name], Sort(dependents[name]));
  }

  lemma NothingReady(g: Graph, done: set<string>, ready: seq<string>)
    requires ReadyList(ready, Available(g, done)) && ready == []
    ensures GreedyOrder(g, done) == []
  {
    assert Elements(ready) == {};
  }

  lemma NothingDone(g: Graph)
    ensures DoneClosed(g, {})
  {
  }

  /** Kahn's order: whatever the map iterations do, the result is the greedy order. */
  method TopologicalOrder(g: Graph) returns (order: seq<string>, ok: bool)
    ensures order == GreedyOrder(g, {})
    ensures ok <==> Orderable(g)
    ensures ok ==> IsStartOrder(g, order)
    ensures ok ==> forall other :: IsStartOrder(g, other) ==> ListLe(order, other)
  {
    hide *;
    var indegree, dependents := CountEdges(g);
    var ready := InitialReady(g, indegree);
    order := [];
    ghost var done: set<string> := {};
    NothingDone(g);
    while |ready| > 0
      invariant done <= g.Keys && DoneClosed(g, done)
      invariant order + GreedyOrder(g, done) == GreedyOrder(g, {})
      invariant EdgesCounted(g, indegree, done)
      invariant ReadyList(ready, Available(g, done))
      decreases g.Keys - done
    {
      var name := ready[0];
      GreedyStep(g, done, ready);
      ready := ready[1..];
      order := order + [name];
      StartedStaysClosed(g, done, name);
      DependentsSorted(g, dependents, name);
      var next := Sort(dependents[name]);
      indegree, ready := ReleaseDependents(g, name, next, done, indegree, ready);
      done := done + {name};
    }
    NothingReady(g, done, ready);
    assert order + [] == order;
    ok := |order| == |g|;
    GreedyComplete(g);
    forall other | ok && IsStartOrder(g, other) ensures ListLe(order, other) {
      GreedyIsLeast(g, other);
    }
  }

  // ----- The three-colour search

  datatype Color = White | Gray | Black

  type Coloring = map<string, Color>

  function ColorOf(color: Coloring, n: string): Color {
    if n in color then color[n] else White
  }

  ghost predicate Painted(color: Coloring, c: Color, names: seq<string>) {
    NoDuplicates(names) && forall n :: ColorOf(color, n) == c <==> n in names
  }

  ghost predicate IsPath(g: Graph, stack: seq<string>) {
    && (forall n :: n in stack ==> n in g)
    && forall i :: 0 <= i < |stack| - 1 ==> stack[i + 1] in Known(g, stack[i])
  }

  /** The stack is the gray path being explored; the black services are closed
      under dependencies, in the order in which they were finished. */
  ghost predicate Coherent(g: Graph, color: Coloring, stack: seq<string>, finished: seq<string>) {
    && color.Keys <= g.Keys && (forall n :: n in color ==> color[n] != White)
    && Painted(color, Gray, stack) && IsPath(g, stack)
    && Painted(color, Black, finished) && DependenciesFirst(g, finished)
  }

  /** Nothing turns white again, and black stays black. */
  ghost predicate Advances(before: Coloring, after: Coloring) {
    && before.Keys <= after.Keys
    && forall n :: ColorOf(before, n) == Black ==> ColorOf(after, n) == Black
  }

  lemma Enter(g: Graph, color: Coloring, stack: seq<string>, finished: seq<string>, name: string)
    requires Coherent(g, color, stack, finished) && name in g && ColorOf(color, name) == White
    requires stack != [] ==> name in Known(g, stack[|stack| - 1])
    ensures name !in color
    ensures Coherent(g, color[name := Gray], stack + [name], finished)
    ensures Advances(color, color[name := Gray])
  {
    hide DependenciesFirst, Known;
    assert IsPath(g, stack + [name]);
  }

  lemma Leave(g: Graph, color: Coloring, stack: seq<string>, finished: seq<string>, name: string)
    requires Coherent(g, color, stack + [name], finished) && Known(g, name) <= Elements(finished)
    ensures Coherent(g, color[name := Black], stack, finished + [name])
    ensures Advances(color, color[name := Black])
  {
    var all := stack + [name];
    assert all[|stack|] == name;
    FinishedStaysOrdered(g, finished, name);
    hide DependenciesFirst, Known;
    LastIsNew(stack, name);
    assert ColorOf(color, name) == Gray;
    assert name !in finished;
    assert IsPath(g, stack) by {
      assert forall n :: n in stack ==> n in all;
      forall i | 0 <= i < |stack| - 1 ensures stack[i + 1] in Known(g, stack[i]) {
        assert stack[i] == all[i] && stack[i + 1] == all[i + 1];
      }
    }
    var color' := color[name := Black];
    assert Painted(color', Gray, stack) by {
      forall n ensures ColorOf(color', n) == Gray <==> n in stack {
        assert n in all <==> n in stack || n == name;
      }
    }
    assert Painted(color', Black, finished + [name]);
  }

  lemma LastIsNew(stack: seq<string>, name: string)
    requires NoDuplicates(stack + [name])
    ensures name !in stack && NoDuplicates(stack)
  {
    var all := stack + [name];
    forall i | 0 <= i < |stack| ensures stack[i] != name {
      assert all[i] == stack[i] && all[|stack|] == name;
    }
    forall i, j | 0 <= i < j < |stack| ensures stack[i] != stack[j] {
      assert all[i] == stack[i] && all[j] == stack[j];
    }
  }

  lemma GrayIsOnStack(g: Graph, color: Coloring, stack: seq<string>, finished: seq<string>, n: string)
    requires Coherent(g, color, stack, finished)
    ensures ColorOf(color, n) == Gray ==> n in stack
    ensures ColorOf(color, n) == Black ==> n in finished
    ensures IsPath(g, stack)
  {
  }

  lemma AdvancesTransitive(a: Coloring, b: Coloring, c: Coloring)
    requires Advances(a, b) && Advances(b, c)
    ensures Advances(a, c)
  {
  }

  lemma AdvancesDecreases(g: Graph, a: Coloring, b: Coloring, name: string)
    requires name in g && name !in a && name in b && Advances(a, b)
    ensures g.Keys - b.Keys < g.Keys - a.Keys
  {
    assert name in g.Keys - a.Keys;
  }

  ghost predicate AllBlack(g: Graph, color: Coloring, deps: seq<string>) {
    forall d :: d in deps && d in g ==> ColorOf(color, d) == Black
  }

  /** One more dependency is settled. */
  lemma OneMoreBlack(g: Graph, before: Coloring, after: Coloring, deps: seq<string>, k: nat)
    requires k < |deps| && AllBlack(g, before, deps[..k]) && Advances(before, after)
    requires deps[k] in g ==> ColorOf(after, deps[k]) == Black
    ensures AllBlack(g, after, deps[..k + 1])
  {
    assert deps[..k + 1] == deps[..k] + [deps[k]];
  }

  lemma DependenciesFinished(g: Graph, color: Coloring, stack: seq<string>, finished: seq<string>,
                             name: string, deps: seq<string>)
    requires name in g && Coherent(g, color, stack, finished)
    requires ListsExactly(deps, g[name]) && AllBlack(g, color, deps[..|deps|])
    ensures Known(g, name) <= Elements(finished)
  {
    assert deps[..|deps|] == deps;
    forall d | d in Known(g, name) ensures d in finished {
      assert d in Elements(deps);
      GrayIsOnStack(g, color, stack, finished, d);
    }
  }

  class CycleSearch {
    const g: Graph
    var color: Coloring
    var stack: seq<string>
    var cycle: seq<string>
    /** The order in which services turned black. */
    ghost var finished: seq<string>

    constructor (g: Graph)
      ensures this.g == g && color == map[] && stack == [] && cycle == [] && finished == []
    {
      this.g, color, stack, cycle, finished := g, map[], [], [], [];
    }

    /** True when a cycle was found below `name`; otherwise everything reachable
        from it is black and the stack is as before. */
    method Visit(name: string) returns (found: bool)
      requires Coherent(g, color, stack, finished) && name in g && ColorOf(color, name) == White
      requires stack != [] ==> name in Known(g, stack[|stack| - 1])
      modifies this
      ensures found ==> IsClosedWalk(g, cycle)
      ensures !found ==>
        && Coherent(g, color, stack, finished) && stack == old(stack) && cycle == old(cycle)
        && Advances(old(color), color) && ColorOf(color, name) == Black
      decreases g.Keys - color.Keys
    {
      hide *;
      Enter(g, color, stack, finished, name);
      color := color[name := Gray];
      stack := stack + [name];
      var deps := SortedNames(g[name]);
      NothingBlack(g, color, deps);
      for k := 0 to |deps|
        invariant Coherent(g, color, stack, finished) && stack == old(stack) + [name] && cycle == old(cycle)
        invariant Advances(old(color), color) && name in color
        invariant AllBlack(g, color, deps[..k])
      {
        var dep := deps[k];
        ghost var before := color;
        NextDependency(g, name, deps, k);
        GrayIsOnStack(g, color, stack, finished, dep);
        AdvancesReflexive(color);
        if dep in g {
          if ColorOf(color, dep) == White {
            AdvancesDecreases(g, old(color), color, name);
            found := Visit(dep);
            if found {
              return;
            }
            AdvancesTransitive(old(color), before, color);
            AdvancesKeys(before, color, name);
          } else if ColorOf(color, dep) == Gray {
            var i := 0;
            while stack[i] != dep
              invariant 0 <= i < |stack| && dep in stack[i..]
              decreases |stack| - i
            {
              i := i + 1;
            }
            cycle := stack[i..] + [dep];
            found := true;
            ClosesWalk(g, stack, i, dep);
            return;
          }
        }
        OneMoreBlack(g, before, color, deps, k);
      }
      DependenciesFinished(g, color, stack, finished, name, deps);
      Leave(g, color, old(stack), finished, name);
      AdvancesTransitive(old(color), color, color[name := Black]);
      stack := stack[..|stack| - 1];
      color := color[name := Black];
      finished := finished + [name];
      assert stack == old(stack);
      NowBlack(color, name);
      found := false;
    }
  }

  lemma NothingBlack(g: Graph, color: Coloring, deps: seq<string>)
    ensures AllBlack(g, color, deps[..0])
  {
  }

  lemma NextDependency(g: Graph, name: string, deps: seq<string>, k: nat)
    requires name in g && ListsExactly(deps, g[name]) && k < |deps|
    ensures deps[k] in g ==> deps[k] in Known(g, name)
  {
    assert deps[k] in Elements(deps);
  }

  lemma AdvancesReflexive(color: Coloring)
    ensures Advances(color, color)
    ensures forall n :: ColorOf(color, n) in {White, Gray, Black}
  {
  }

  lemma AdvancesKeys(before: Coloring, after: Coloring, name: string)
    requires Advances(before, after) && name in before
    ensures name in after
  {
  }

  lemma NowBlack(color: Coloring, name: string)
    requires name in color && color[name] == Black
    ensures ColorOf(color, name) == Black
  {
  }

  lemma FinishedStaysOrdered(g: Graph, finished: seq<string>, name: string)
    requires DependenciesFirst(g, finished) && name in g && Known(g, name) <= Elements(finished)
    ensures DependenciesFirst(g, finished + [name])
  {
    var f := finished + [name];
    forall i | 0 <= i < |f| ensures f[i] in g && Known(g, f[i]) <= Elements(f[..i]) {
      if i < |finished| {
        assert f[..i] == finished[..i];
      } else {
        assert f[..i] == finished;
      }
    }
  }

  lemma ClosesWalk(g: Graph, stack: seq<string>, i: nat, dep: string)
    requires i < |stack| && stack[i] == dep && IsPath(g, stack)
    requires stack[|stack| - 1] in g && dep in Known(g, stack[|stack| - 1])
    ensures IsClosedWalk(g, stack[i..] + [dep])
  {
    var c := stack[i..] + [dep];
    forall k | 0 <= k < |c| - 1 ensures c[k] in g && c[k + 1] in Known(g, c[k]) {
      assert c[k] == stack[i + k];
      if i + k < |stack| - 1 {
        assert c[k + 1] == stack[i + k + 1];
      }
    }
  }

  lemma SearchBegins(g: Graph)
    ensures Coherent(g, map[], [], [])
  {
  }

  lemma AllBlackIsOrder(g: Graph, names: seq<string>, color: Coloring, stack: seq<string>, finished: seq<string>)
    requires Coherent(g, color, stack, finished)
    requires ListsExactly(names, g.Keys) && AllBlack(g, color, names[..|names|])
    ensures IsStartOrder(g, finished)
  {
    assert names[..|names|] == names;
    forall n | n in g ensures n in finished {
      assert n in Elements(names);
    }
    forall n | n in finished ensures n in g {
      assert ColorOf(color, n) == Black;
    }
  }

  /** Names one dependency cycle; the empty list means there is none. */
  method FindCycle(g: Graph) returns (cycle: seq<string>)
    ensures cycle == [] <==> Orderable(g)
    ensures cycle != [] ==> IsClosedWalk(g, cycle)
  {
    hide *;
    var search := new CycleSearch(g);
    var names := SortedNames(g.Keys);
    SearchBegins(g);
    NothingBlack(g, search.color, names);
    for k := 0 to |names|
      invariant fresh(search) && search.g == g && search.stack == []
      invariant Coherent(g, search.color, search.stack, search.finished)
      invariant AllBlack(g, search.color, names[..k])
    {
      ghost var before := search.color;
      NextListed(names, g.Keys, k);
      AdvancesReflexive(before);
      GrayIsOnStack(g, before, search.stack, search.finished, names[k]);
      if ColorOf(search.color, names[k]) == White {
        var found := search.Visit(names[k]);
        if found {
          ClosedWalkBlocksOrders(g, search.cycle);
          WalkNotEmpty(g, search.cycle);
          return search.cycle;
        }
      }
      OneMoreBlack(g, before, search.color, names, k);
    }
    AllBlackIsOrder(g, names, search.color, search.stack, search.finished);
    OrderExists(g, search.finished);
    return [];
  }

  lemma WalkNotEmpty(g: Graph, c: seq<string>)
    requires IsClosedWalk(g, c)
    ensures c != []
  {
  }

  lemma OrderExists(g: Graph, order: seq<string>)
    requires IsStartOrder(g, order)
    ensures Orderable(g)
  {
  }

  // ----- Validation guards planning

  datatype PlanResult = CycleReported(cycle: seq<string>) | Planned(order: seq<string>) | CycleSurvived

  /** Validation runs the cycle search; planning runs Kahn's order afterwards.  The
      "cycle survived validation" outcome is never produced. */
  method ValidateAndPlan(g: Graph) returns (r: PlanResult)
    ensures r != CycleSurvived
    ensures r.Planned? <==> Orderable(g)
    ensures r.Planned? ==> IsStartOrder(g, r.order)
    ensures r.CycleReported? ==> IsClosedWalk(g, r.cycle)
  {
    var cycle := FindCycle(g);
    if |cycle| > 0 {
      return CycleReported(cycle);
    }
    var order, ok := TopologicalOrder(g);
    r := if !ok then CycleSurvived else Planned(order);
  }
}
