/** The permission algebra: prerequisites and their closure, the projections of
    coarse scopes, custom roles, and the ceiling a token's creator puts on it. */
module Permissions {
  import opened Text

  /** The closed set of coarse scopes ("socles"). */
  datatype Coarse = Read | ReadSensitive | Write | Deploy | Root

  function Name(c: Coarse): string {
    match c
    case Read => "read"
    case ReadSensitive => "read:sensitive"
    case Write => "write"
    case Deploy => "deploy"
    case Root => "root"
  }

  /** Every granular permission with its coarse scope, and the dependencies that the
      "an action implies the domain's read" rule does not derive. */
  datatype Catalogue = Catalogue(socle: map<string, Coarse>, extras: map<string, seq<string>>)

  /** "domain:action"; nothing without exactly one colon between two non-empty parts. */
  function SplitPerm(perm: string): (r: (string, string, bool))
    ensures r.2 ==> perm == r.0 + ":" + r.1 && r.0 != "" && r.1 != ""
  {
    var k := Find(perm, ':');
    if k == |perm| || k == 0 || k == |perm| - 1 || ':' in perm[k + 1..] then ("", "", false)
    else (perm[..k], perm[k + 1..], true)
  }

  /** The permissions that `perm` directly implies. */
  function Prerequisites(cat: Catalogue, perm: string): seq<string> {
    var (domain, action, ok) := SplitPerm(perm);
    (if ok && action != "read" && domain + ":read" in cat.socle then [domain + ":read"] else [])
    + (if perm in cat.extras then cat.extras[perm] else [])
  }

  ghost predicate Closed(cat: Catalogue, s: set<string>) {
    forall p, d :: p in s && d in Prerequisites(cat, p) ==> d in s
  }

  /** `c` is the least prerequisite-closed superset of `s`. */
  ghost predicate IsClosure(cat: Catalogue, s: set<string>, c: set<string>) {
    && s <= c && Closed(cat, c)
    && forall t :: s <= t && Closed(cat, t) ==> c <= t
  }

  lemma ClosureUnique(cat: Catalogue, s: set<string>, c: set<string>, c': set<string>)
    requires IsClosure(cat, s, c) && IsClosure(cat, s, c')
    ensures c == c'
  {
  }

  lemma ClosureMonotone(cat: Catalogue, s: set<string>, t: set<string>, c: set<string>, c': set<string>)
    requires IsClosure(cat, s, c) && IsClosure(cat, t, c') && s <= t
    ensures c <= c'
  {
  }

  lemma ClosureIdempotent(cat: Catalogue, s: set<string>, c: set<string>)
    requires IsClosure(cat, s, c)
    ensures IsClosure(cat, c, c)
  {
  }

  lemma ClosedIntersection(cat: Catalogue, a: set<string>, b: set<string>)
    requires Closed(cat, a) && Closed(cat, b)
    ensures Closed(cat, a * b)
  {
  }

  // ----- What a closure holds, from the names

  /** A non-empty name without a colon. */
  predicate IsNamePart(s: string) {
    s != "" && ':' !in s
  }

  /** `p` is an action other than "read" on a domain and `d` that domain's "read" in the catalogue. */
  ghost predicate IsReadFor(cat: Catalogue, p: string, d: string) {
    d in cat.socle && exists domain, action ::
      p == ActionOn(domain, action) && IsNamePart(domain) && IsNamePart(action) && action != "read"
      && d == ActionOn(domain, "read")
  }

  function ActionOn(domain: string, action: string): string {
    domain + ":" + action
  }

  lemma SplitPermOf(domain: string, action: string)
    requires domain != "" && action != "" && ':' !in domain && ':' !in action
    ensures SplitPerm(domain + [':'] + action) == (domain, action, true)
  {
    FindAt(domain, ':', action);
    var perm := domain + [':'] + action;
    assert perm[..|domain|] == domain && perm[|domain| + 1..] == action;
  }

  /** A permission implies its domain's read and its extras, and nothing else. */
  lemma PrerequisitesExactly(cat: Catalogue, p: string, d: string)
    ensures d in Prerequisites(cat, p) <==> IsReadFor(cat, p, d) || (p in cat.extras && d in cat.extras[p])
  {
    hide SplitPerm;
    SplitParts(p);
    var (domain, action, ok) := SplitPerm(p);
    if ok && action != "read" && domain + ":read" in cat.socle && d == domain + ":read" {
      assert p == ActionOn(domain, action) && d == ActionOn(domain, "read");
    }
    if IsReadFor(cat, p, d) {
      var domain', action' :| p == ActionOn(domain', action') && IsNamePart(domain') && IsNamePart(action')
        && action' != "read" && d == ActionOn(domain', "read");
      SplitPermOf(domain', action');
      assert p == domain' + [':'] + action';
      assert d == domain' + ":read";
    }
  }

  lemma SplitParts(p: string)
    ensures SplitPerm(p).2 ==>
      IsNamePart(SplitPerm(p).0) && IsNamePart(SplitPerm(p).1) && p == SplitPerm(p).0 + ":" + SplitPerm(p).1
  {
  }

  /** An action in a closure brings its domain's read. */
  lemma ActionBringsRead(cat: Catalogue, s: set<string>, c: set<string>, domain: string, action: string)
    requires IsClosure(cat, s, c) && IsNamePart(domain) && IsNamePart(action) && action != "read"
    requires domain + ":" + action in c && domain + ":read" in cat.socle
    ensures domain + ":read" in c
  {
    hide Prerequisites;
    var p, d := domain + ":" + action, domain + ":read";
    assert p == ActionOn(domain, action) && d == ActionOn(domain, "read");
    assert IsReadFor(cat, p, d);
    PrerequisitesExactly(cat, p, d);
  }

  /** A permission in a closure brings its extras. */
  lemma ExtrasAreBrought(cat: Catalogue, s: set<string>, c: set<string>, p: string, d: string)
    requires IsClosure(cat, s, c) && p in c && p in cat.extras && d in cat.extras[p]
    ensures d in c
  {
    hide Prerequisites;
    PrerequisitesExactly(cat, p, d);
  }

  /** Whatever was not asked for is the read or an extra of another member. */
  lemma NothingElseIsBrought(cat: Catalogue, s: set<string>, c: set<string>, d: string)
    requires IsClosure(cat, s, c) && d in c && d !in s
    ensures exists p :: p in c && p != d && (IsReadFor(cat, p, d) || (p in cat.extras && d in cat.extras[p]))
  {
    hide Prerequisites, IsReadFor, IsClosure;
    BroughtByAnother(cat, s, c, d);
    var p :| p in c && p != d && d in Prerequisites(cat, p);
    PrerequisitesExactly(cat, p, d);
  }

  lemma BroughtByAnother(cat: Catalogue, s: set<string>, c: set<string>, d: string)
    requires IsClosure(cat, s, c) && d in c && d !in s
    ensures exists p :: p in c && p != d && d in Prerequisites(cat, p)
  {
    hide Prerequisites;
    var without := c - {d};
    assert !(c <= without);
    assert !Closed(cat, without);
    var p, e :| p in without && e in Prerequisites(cat, p) && e !in without;
    assert e == d;
  }

  // ----- What the catalogue must satisfy

  ghost predicate ReadsAreNotRoot(cat: Catalogue) {
    forall d: string :: d + ":read" in cat.socle ==> cat.socle[d + ":read"] != Root
  }

  ghost predicate ExtrasAreKnown(cat: Catalogue) {
    forall p, d :: p in cat.extras && d in cat.extras[p] ==> d in cat.socle && cat.socle[d] != Root
  }

  ghost predicate CoarseImpliesNothing(cat: Catalogue) {
    forall c: Coarse :: Prerequisites(cat, Name(c)) == []
  }

  ghost predicate Sound(cat: Catalogue) {
    ReadsAreNotRoot(cat) && ExtrasAreKnown(cat) && CoarseImpliesNothing(cat)
  }

  /** Prerequisites stay in the catalogue and never climb to the instance. */
  lemma PrerequisitesAreKnown(cat: Catalogue, p: string, d: string)
    requires Sound(cat) && d in Prerequisites(cat, p)
    ensures d in cat.socle && cat.socle[d] != Root
  {
    hide CoarseImpliesNothing;
    if p in cat.extras && d in cat.extras[p] {
    } else {
      var domain := SplitPerm(p).0;
      assert d == domain + ":read";
    }
  }

  // ----- Closure

  /** The recursive walk over prerequisites; `seen` is shared by all calls. */
  method Walk(cat: Catalogue, seen0: set<string>, p: string) returns (seen: set<string>)
    requires Sound(cat)
    ensures seen0 + {p} <= seen
    ensures forall q, d :: q in seen - seen0 && d in Prerequisites(cat, q) ==> d in seen
    ensures forall t :: seen0 + {p} <= t && Closed(cat, t) ==> seen <= t
    decreases cat.socle.Keys + {p} - seen0
  {
    hide Sound, Prerequisites;
    seen := seen0;
    if p in seen {
      return;
    }
    seen := seen + {p};
    var deps := Prerequisites(cat, p);
    for i := 0 to |deps|
      invariant seen0 + {p} <= seen
      invariant forall d :: d in deps[..i] ==> d in seen
      invariant forall q, d :: q in seen - seen0 - {p} && d in Prerequisites(cat, q) ==> d in seen
      invariant forall t :: seen0 + {p} <= t && Closed(cat, t) ==> seen <= t
    {
      ghost var before := seen;
      PrerequisitesAreKnown(cat, p, deps[i]);
      assert cat.socle.Keys + {deps[i]} - seen < cat.socle.Keys + {p} - seen0 by {
        assert p in cat.socle.Keys + {p} - seen0;
      }
      seen := Walk(cat, seen, deps[i]);
      assert deps[..i + 1] == deps[..i] + [deps[i]];
      forall t | seen0 + {p} <= t && Closed(cat, t) ensures seen <= t {
        assert deps[i] in t;
      }
    }
    assert deps[..|deps|] == deps;
  }

  method Closure(cat: Catalogue, perms: seq<string>) returns (out: seq<string>)
    requires Sound(cat)
    ensures IsClosure(cat, Elements(perms), Elements(out))
    ensures Sorted(out) && NoDuplicates(out)
  {
    var seen := {};
    for i := 0 to |perms|
      invariant IsClosure(cat, Elements(perms[..i]), seen)
    {
      ghost var before := seen;
      seen := Walk(cat, seen, perms[i]);
      WalkExtendsClosure(cat, perms, i, before, seen);
    }
    assert perms[..|perms|] == perms;
    out := SortedNames(seen);
  }

  lemma WalkExtendsClosure(cat: Catalogue, perms: seq<string>, i: nat, before: set<string>, seen: set<string>)
    requires i < |perms| && IsClosure(cat, Elements(perms[..i]), before)
    requires before + {perms[i]} <= seen
    requires forall q, d :: q in seen - before && d in Prerequisites(cat, q) ==> d in seen
    requires forall t :: before + {perms[i]} <= t && Closed(cat, t) ==> seen <= t
    ensures IsClosure(cat, Elements(perms[..i + 1]), seen)
  {
    hide Prerequisites;
    assert perms[..i + 1] == perms[..i] + [perms[i]];
    assert Elements(perms[..i + 1]) == Elements(perms[..i]) + {perms[i]};
    forall t | Elements(perms[..i + 1]) <= t && Closed(cat, t) ensures seen <= t {
      assert Elements(perms[..i]) <= t;
      assert before <= t;
    }
  }

  // ----- Has

  predicate Grants(g: string, required: string) {
    || g == Name(Root) || g == required
    || (required == Name(Read) && (g == Name(Write) || g == Name(ReadSensitive) || g == Name(Deploy)))
  }

  /** `root` grants everything; the other coarse scopes grant `read`. */
  predicate Has(granted: seq<string>, required: string) {
    exists g :: g in granted && Grants(g, required)
  }

  /** What grants what, on the names themselves. */
  lemma HasExactly(granted: seq<string>, required: string)
    ensures Has(granted, required) <==>
      || "root" in granted || required in granted
      || (required == "read" && ("write" in granted || "read:sensitive" in granted || "deploy" in granted))
  {
    assert forall g :: g in granted && Grants(g, required) ==> Has(granted, required);
  }

  lemma HasMonotone(a: seq<string>, b: seq<string>, required: string)
    requires Elements(a) <= Elements(b) && Has(a, required)
    ensures Has(b, required)
  {
    var g :| g in a && Grants(g, required);
    assert g in Elements(a);
  }

  // ----- Custom roles

  datatype RoleResult = Role(perms: seq<string>) | Unknown(perm: string) | InstanceScoped(perm: string)
    | NotHeld(perm: string)

  ghost predicate TeamScoped(cat: Catalogue, p: string) {
    p in cat.socle && cat.socle[p] != Root
  }

  /** Team-scoped permissions have team-scoped closures. */
  lemma ClosureStaysInTeam(cat: Catalogue, s: set<string>, c: set<string>)
    requires Sound(cat) && IsClosure(cat, s, c) && forall p :: p in s ==> TeamScoped(cat, p)
    ensures forall p :: p in c ==> TeamScoped(cat, p)
  {
    var team := set p | p in cat.socle && cat.socle[p] != Root;
    hide Prerequisites, Sound;
    forall p, d | p in team && d in Prerequisites(cat, p) ensures d in team {
      PrerequisitesAreKnown(cat, p, d);
    }
    assert Closed(cat, team) && s <= team;
  }

  /** An accepted role is the closure of what was asked, holds nothing of the instance
      even through prerequisites, and stays within the composer's own permissions;
      it is refused only for one of these three reasons, naming the first offender in the
      order asked or, among what is not held, the least name. */
  method ValidateCustomPermissions(cat: Catalogue, perms: seq<string>, composer: seq<string>) returns (r: RoleResult)
    requires Sound(cat)
    ensures r.Role? ==>
      && IsClosure(cat, Elements(perms), Elements(r.perms))
      && Sorted(r.perms) && NoDuplicates(r.perms)
      && forall p :: p in r.perms ==> TeamScoped(cat, p) && Has(composer, p)
    ensures r.Unknown? ==> FirstOutside(cat, perms, r.perm) && r.perm !in cat.socle
    ensures r.InstanceScoped? ==> FirstOutside(cat, perms, r.perm) && r.perm in cat.socle && cat.socle[r.perm] == Root
    ensures r.NotHeld? ==>
      && (forall p :: p in perms ==> TeamScoped(cat, p)) && !Has(composer, r.perm)
      && exists c :: IsClosure(cat, Elements(perms), c) && r.perm in c
                     && forall p :: p in c && Le(p, r.perm) && p != r.perm ==> Has(composer, p)
  {
    hide *;
    for i := 0 to |perms|
      invariant forall p :: p in perms[..i] ==> p in cat.socle && cat.socle[p] != Root
    {
      assert perms[..i + 1] == perms[..i] + [perms[i]];
      if perms[i] !in cat.socle {
        IsFirstOutside(cat, perms, i);
        return Unknown(perms[i]);
      }
      if cat.socle[perms[i]] == Root {
        IsFirstOutside(cat, perms, i);
        return InstanceScoped(perms[i]);
      }
    }
    assert perms[..|perms|] == perms;
    var closed := Closure(cat, perms);
    TeamFromList(cat, perms);
    ClosureStaysInTeam(cat, Elements(perms), Elements(closed));
    ElementsAre(closed);
    for i := 0 to |closed|
      invariant forall p :: p in closed[..i] ==> Has(composer, p)
    {
      assert closed[..i + 1] == closed[..i] + [closed[i]];
      if !Has(composer, closed[i]) {
        assert closed[i] in Elements(closed);
        LesserComesFirst(closed, i);
        return NotHeld(closed[i]);
      }
    }
    assert closed[..|closed|] == closed;
    return Role(closed);
  }

  /** The first entry that is not team-scoped. */
  ghost predicate FirstOutside(cat: Catalogue, perms: seq<string>, perm: string) {
    exists i :: 0 <= i < |perms| && perms[i] == perm && forall p :: p in perms[..i] ==> TeamScoped(cat, p)
  }

  lemma IsFirstOutside(cat: Catalogue, perms: seq<string>, i: nat)
    requires i < |perms| && forall p :: p in perms[..i] ==> p in cat.socle && cat.socle[p] != Root
    ensures FirstOutside(cat, perms, perms[i])
  {
  }

  lemma LesserComesFirst(xs: seq<string>, i: nat)
    requires Sorted(xs) && i < |xs|
    ensures forall p :: p in xs && Le(p, xs[i]) && p != xs[i] ==> p in xs[..i]
  {
    hide Le;
    forall p | p in xs && Le(p, xs[i]) && p != xs[i] ensures p in xs[..i] {
      var j :| 0 <= j < |xs| && xs[j] == p;
      if i < j {
        LeAntisymmetric(p, xs[i]);
      }
      assert xs[..i][j] == p;
    }
  }

  lemma TeamFromList(cat: Catalogue, perms: seq<string>)
    requires forall p :: p in perms ==> p in cat.socle && cat.socle[p] != Root
    ensures forall p :: p in perms ==> TeamScoped(cat, p)
    ensures forall p :: p in Elements(perms) ==> TeamScoped(cat, p)
  {
  }

  lemma ElementsAre(xs: seq<string>)
    ensures forall x :: x in xs <==> x in Elements(xs)
  {
  }

  // ----- Projections

  /** Every catalogue permission whose coarse scope is among the scopes; all of them for `root`. */
  method ProjectScopes(cat: Catalogue, scopes: seq<string>) returns (out: seq<string>)
    requires Sound(cat)
    ensures IsClosure(cat, Projected(cat, Elements(scopes)), Elements(out))
    ensures forall p :: p in cat.socle && ("root" in scopes || Name(cat.socle[p]) in scopes) ==> p in out
    ensures forall p :: p in out ==>
      || (p in cat.socle && ("root" in scopes || Name(cat.socle[p]) in scopes))
      || exists q :: q in out && q != p && p in Prerequisites(cat, q)
    ensures Sorted(out) && NoDuplicates(out)
  {
    var held := Elements(scopes);
    var names: seq<string>;
    if Name(Root) in held {
      names := NamesOf(cat.socle.Keys);
      assert Projected(cat, held) == cat.socle.Keys;
    } else {
      names := NamesOf(set p | p in cat.socle && Name(cat.socle[p]) in held);
      assert Projected(cat, held) == set p | p in cat.socle && Name(cat.socle[p]) in held;
    }
    out := Closure(cat, names);
    hide *;
    ProjectionHolds(cat, scopes, out);
  }

  lemma ProjectionHolds(cat: Catalogue, scopes: seq<string>, out: seq<string>)
    requires IsClosure(cat, Projected(cat, Elements(scopes)), Elements(out))
    ensures forall p :: p in cat.socle && ("root" in scopes || Name(cat.socle[p]) in scopes) ==> p in out
    ensures forall p :: p in out ==>
      || (p in cat.socle && ("root" in scopes || Name(cat.socle[p]) in scopes))
      || exists q :: q in out && q != p && p in Prerequisites(cat, q)
  {
    hide Prerequisites;
    var asked := Projected(cat, Elements(scopes));
    assert forall p :: p in asked <==> p in cat.socle && ("root" in scopes || Name(cat.socle[p]) in scopes);
    ElementsAre(out);
    forall p | p in out && p !in asked ensures exists q :: q in out && q != p && p in Prerequisites(cat, q) {
      BroughtByAnother(cat, asked, Elements(out), p);
    }
  }

  ghost function Projected(cat: Catalogue, held: set<string>): set<string> {
    set p | p in cat.socle && (Name(Root) in held || Name(cat.socle[p]) in held)
  }

  ghost predicate IsCoarse(p: string) {
    exists c: Coarse :: p == Name(c)
  }

  lemma AddCoarse(cat: Catalogue, s: set<string>, coarse: set<string>)
    requires Sound(cat) && Closed(cat, s) && forall p :: p in coarse ==> IsCoarse(p)
    ensures Closed(cat, s + coarse)
  {
    hide Prerequisites;
    forall p | p in coarse ensures Prerequisites(cat, p) == [] {
      var c: Coarse :| p == Name(c);
    }
  }

  /** The union with a closed set is closed exactly when what the others imply is in it. */
  lemma AddAny(cat: Catalogue, s: set<string>, more: set<string>)
    requires Closed(cat, s)
    ensures Closed(cat, s + more) <==> forall p, d :: p in more && d in Prerequisites(cat, p) ==> d in s + more
  {
    hide Prerequisites;
  }

  /** The scopes together with the granular permissions they project to.  Closed when the
      scopes are the coarse ones, and in general exactly when what they imply is there. */
  method EffectivePermissions(cat: Catalogue, scopes: seq<string>) returns (out: seq<string>)
    requires Sound(cat)
    ensures Sorted(out) && NoDuplicates(out)
    ensures exists c :: IsClosure(cat, Projected(cat, Elements(scopes)), c) && Elements(out) == Elements(scopes) + c
    ensures (forall p :: p in scopes ==> IsCoarse(p)) ==> Closed(cat, Elements(out))
    ensures Closed(cat, Elements(out)) <==>
            forall p, d :: p in Elements(scopes) && d in Prerequisites(cat, p) ==> d in Elements(out)
  {
    hide *;
    var granular := ProjectScopes(cat, scopes);
    ghost var c := Elements(granular);
    out := SortedNames(Elements(scopes) + Elements(granular));
    ClosureParts(cat, Projected(cat, Elements(scopes)), c);
    assert c + Elements(scopes) == Elements(scopes) + c;
    ListedElements(out, Elements(scopes) + c);
    ElementsAre(scopes);
    AddAny(cat, c, Elements(scopes));
    if forall p :: p in scopes ==> IsCoarse(p) {
      AddCoarse(cat, c, Elements(scopes));
    }
  }

  lemma ClosureParts(cat: Catalogue, s: set<string>, c: set<string>)
    requires IsClosure(cat, s, c)
    ensures s <= c && Closed(cat, c)
  {
  }

  lemma ListedElements(xs: seq<string>, s: set<string>)
    requires ListsExactly(xs, s)
    ensures Elements(xs) == s && NoDuplicates(xs)
  {
  }

  ghost function SoclesOf(cat: Catalogue, s: set<string>): set<string> {
    set p | p in s && p in cat.socle :: Name(cat.socle[p])
  }

  /** A granular set closed under prerequisites, with the coarse scope of each member. */
  method ExpandGranular(cat: Catalogue, perms: seq<string>) returns (out: seq<string>)
    requires Sound(cat)
    ensures Closed(cat, Elements(out)) && Sorted(out) && NoDuplicates(out)
    ensures exists c :: IsClosure(cat, Elements(perms), c) && Elements(out) == c + SoclesOf(cat, c)
  {
    var closed := Closure(cat, perms);
    hide *;
    ghost var c := Elements(closed);
    var all := {};
    SoclesOfNone(cat);
    assert closed[..0] == [];
    for i := 0 to |closed|
      invariant all == Elements(closed[..i]) + SoclesOf(cat, Elements(closed[..i]))
    {
      OneMoreSocle(cat, closed, i);
      all := all + {closed[i]};
      if closed[i] in cat.socle {
        all := all + {Name(cat.socle[closed[i]])};
      }
    }
    assert closed[..|closed|] == closed;
    out := SortedNames(all);
    ListedElements(out, all);
    ClosureParts(cat, Elements(perms), c);
    SoclesAreCoarse(cat, c);
    AddCoarse(cat, c, SoclesOf(cat, c));
  }

  lemma SoclesOfNone(cat: Catalogue)
    ensures Elements<string>([]) + SoclesOf(cat, Elements<string>([])) == {}
  {
  }

  lemma OneMoreSocle(cat: Catalogue, closed: seq<string>, i: nat)
    requires i < |closed|
    ensures Elements(closed[..i + 1]) + SoclesOf(cat, Elements(closed[..i + 1]))
         == Elements(closed[..i]) + SoclesOf(cat, Elements(closed[..i])) + {closed[i]}
            + if closed[i] in cat.socle then {Name(cat.socle[closed[i]])} else {}
  {
    assert closed[..i + 1] == closed[..i] + [closed[i]];
    var s, p := Elements(closed[..i]), closed[i];
    assert Elements(closed[..i + 1]) == s + {p};
    assert SoclesOf(cat, s + {p}) == SoclesOf(cat, s) + if p in cat.socle then {Name(cat.socle[p])} else {};
  }

  lemma SoclesAreCoarse(cat: Catalogue, s: set<string>)
    ensures forall p :: p in SoclesOf(cat, s) ==> IsCoarse(p)
  {
  }

  // ----- Ceilings

  function Filter(a: seq<string>, keep: set<string>): (r: seq<string>)
    ensures Elements(r) == Elements(a) * keep
  {
    if a == [] then []
    else
      var init, last := a[..|a| - 1], a[|a| - 1];
      assert Elements(a) == Elements(init) + {last};
      assert Elements(Filter(init, keep) + [last]) == Elements(Filter(init, keep)) + {last};
      if last in keep then Filter(init, keep) + [last] else Filter(init, keep)
  }

  /** The permissions of `a` that `b` holds too, in `a`'s order. */
  method Intersect(a: seq<string>, b: seq<string>) returns (out: seq<string>)
    ensures out == Filter(a, Elements(b))
    ensures Elements(out) == Elements(a) * Elements(b)
  {
    var held := Elements(b);
    out := [];
    for i := 0 to |a|
      invariant out == Filter(a[..i], held)
    {
      assert a[..i + 1][..i] == a[..i];
      if a[i] in held {
        out := out + [a[i]];
      }
    }
    assert a[..|a|] == a;
  }

  /** A capped set grants exactly what a permission common to both grants. */
  lemma CappedHas(a: seq<string>, b: seq<string>, capped: seq<string>, required: string)
    requires Elements(capped) == Elements(a) * Elements(b)
    ensures Has(capped, required) <==> exists g :: g in a && g in b && Grants(g, required)
    ensures Has(capped, required) ==> Has(a, required) && Has(b, required)
  {
    assert forall g :: g in capped <==> g in Elements(capped);
    assert forall g :: g in Elements(capped) <==> g in a && g in b;
    if Has(capped, required) {
      HasMonotone(capped, a, required);
      HasMonotone(capped, b, required);
    }
  }

  /** Both sides may grant `read` through different scopes and the cap still loses it. */
  lemma CapMayLoseRead()
    ensures var a, b := [Name(Write)], [Name(Read)];
      && Has(a, Name(Read)) && Has(b, Name(Read))
      && forall capped :: Elements(capped) == Elements(a) * Elements(b) ==> !Has(capped, Name(Read))
  {
    var a, b := [Name(Write)], [Name(Read)];
    assert Name(Write) in a && Grants(Name(Write), Name(Read));
    assert Name(Read) in b && Grants(Name(Read), Name(Read));
    assert |Name(Write)| != |Name(Read)|;
    forall capped: seq<string> | Elements(capped) == Elements(a) * Elements(b)
      ensures !Has(capped, Name(Read))
    {
      CappedHas(a, b, capped, Name(Read));
    }
  }

  /** So may anything that one side grants as `root` only. */
  lemma CapMayLoseUnderRoot(p: string)
    requires p != Name(Root)
    ensures Has([Name(Root)], p) && Has([p], p)
    ensures forall capped :: Elements(capped) == Elements([Name(Root)]) * Elements([p]) ==> !Has(capped, p)
  {
    var a, b := [Name(Root)], [p];
    assert Name(Root) in a && Grants(Name(Root), p) && p in b && Grants(p, p);
    forall capped: seq<string> | Elements(capped) == Elements(a) * Elements(b) ensures !Has(capped, p) {
      CappedHas(a, b, capped, p);
    }
  }

  /** There is no third way: for any permission but `read`, and without `root`, the cap grants
      what both sides grant. */
  lemma CapKeepsGranular(a: seq<string>, b: seq<string>, capped: seq<string>, required: string)
    requires Elements(capped) == Elements(a) * Elements(b)
    requires required != Name(Read) && Name(Root) !in a && Name(Root) !in b
    ensures Has(capped, required) <==> Has(a, required) && Has(b, required)
  {
    CappedHas(a, b, capped, required);
  }

  datatype Authority = NoCreator | NoLongerMember | Member(userId: int, base: seq<string>)

  class Identity {
    var permissions: seq<string>
    var userId: int

    /** Caps a token at what its creator holds now; a creator who left takes everything away. */
    method BoundToCreator(cat: Catalogue, creator: Authority, granted: seq<string>)
      requires Sound(cat) && permissions == granted
      modifies this
      ensures Closed(cat, Elements(granted)) ==> Closed(cat, Elements(permissions))
      ensures forall p :: Has(permissions, p) ==> Has(granted, p)
      ensures creator.NoCreator? ==> permissions == granted && userId == old(userId)
      ensures creator.NoLongerMember? ==> permissions == [] && userId == old(userId)
      ensures creator.Member? ==>
        exists c :: IsClosure(cat, Elements(creator.base), c)
          && permissions == Filter(granted, c + SoclesOf(cat, c)) && userId == creator.userId
          && forall p :: Has(permissions, p) ==> exists g :: g in c + SoclesOf(cat, c) && Grants(g, p)
    {
      hide *;
      match creator
      case NoCreator =>
      case NoLongerMember =>
        permissions := [];
        NothingHeld(cat);
      case Member(user, base) =>
        var ceiling := ExpandGranular(cat, base);
        permissions := Intersect(granted, ceiling);
        userId := user;
        if Closed(cat, Elements(granted)) {
          ClosedIntersection(cat, Elements(granted), Elements(ceiling));
        }
        forall p | Has(permissions, p)
          ensures Has(granted, p) && exists g :: g in Elements(ceiling) && Grants(g, p)
        {
          CappedHas(granted, ceiling, permissions, p);
          ElementsAre(ceiling);
        }
    }
  }

  lemma NothingHeld(cat: Catalogue)
    ensures Closed(cat, Elements<string>([])) && forall p :: !Has([], p)
  {
    hide Prerequisites;
  }

  // ----- The catalogue itself

  function Access(): map<string, Coarse> {
    map[
      "team:read" := Read, "team:manage" := Write, "members:read" := Read, "members:manage" := Write,
      "invitations:manage" := Write, "roles:read" := Read, "roles:manage" := Write, "tokens:read" := Read,
      "tokens:create" := Write, "tokens:revoke" := Write, "projects:read" := Read,
      "projects:manage" := Write, "environments:read" := Read, "environments:manage" := Write,
      "environments:deploy" := Deploy, "resources:read" := Read, "resources:adopt" := Write
    ]
  }

  function Workloads(): map<string, Coarse> {
    map[
      "applications:read" := Read, "applications:create" := Write, "applications:update" := Write,
      "applications:delete" := Write, "applications:deploy" := Deploy, "applications:lifecycle" := Deploy,
      "applications:exec" := Deploy, "databases:read" := Read, "databases:create" := Write,
      "databases:update" := Write, "databases:delete" := Write, "databases:lifecycle" := Deploy,
      "databases:credentials" := ReadSensitive, "services:read" := Read, "services:manage" := Write,
      "services:deploy" := Deploy, "secrets:read" := Read, "secrets:reveal" := ReadSensitive,
      "secrets:write" := Write, "backups:read" := Read, "backups:manage" := Write,
      "backups:restore" := Write, "deployments:read" := Read, "deployments:cancel" := Deploy,
      "jobs:manage" := Write, "previews:read" := Read, "previews:manage" := Write,
      "templates:manage" := Write
    ]
  }

  function Infrastructure(): map<string, Coarse> {
    map[
      "servers:read" := Read, "servers:manage" := Write, "servers:maintain" := Write,
      "servers:proxy" := Write, "keys:read" := Read, "keys:manage" := Write, "certificates:read" := Read,
      "certificates:renew" := Write, "sources:read" := Read, "sources:manage" := Write,
      "registries:manage" := Write, "cloud:read" := Read, "cloud:manage" := Write,
      "storages:manage" := Write
    ]
  }

  function Reach(): map<string, Coarse> {
    map[
      "terminal:open" := Write, "terminal:root" := Write, "port-forwards:open" := Write,
      "external-endpoints:read" := Read, "external-endpoints:manage" := Write,
      "ingress-endpoints:read" := Read, "ingress-endpoints:manage" := Write, "ingress-tunnels:open" := Write
    ]
  }

  function Observability(): map<string, Coarse> {
    map[
      "logs:read" := Read, "logs:manage" := Write, "metrics:read" := Read, "audit:read" := Read,
      "uptime:read" := Read, "uptime:manage" := Write, "notifications:read" := Read,
      "notifications:manage" := Write, "config:export" := Read, "config:apply" := Write
    ]
  }

  function Instance(): map<string, Coarse> {
    map[
      "instance:manage" := Root, "instance:audit" := Root, "instance:encryption" := Root
    ]
  }

  function Extras(): map<string, seq<string>> {
    map[
      "invitations:manage" := ["members:read"], "config:apply" := ["config:export"],
      "environments:deploy" := ["resources:read", "environments:read"], "terminal:root" := ["terminal:open"],
      "registries:manage" := ["sources:read"], "storages:manage" := ["applications:read"],
      "jobs:manage" := ["deployments:read"], "ingress-tunnels:open" := ["ingress-endpoints:read"]
    ]
  }

  function Team(): map<string, Coarse> {
    Access() + Workloads() + Infrastructure() + Reach() + Observability()
  }

  function Akerdock(): Catalogue {
    Catalogue(Team() + Instance(), Extras())
  }

  ghost predicate NoRoot(m: map<string, Coarse>) {
    forall p :: p in m ==> m[p] != Root
  }

  lemma AccessDomains()
    ensures NoRoot(Access()) && NoRoot(Infrastructure())
  {
  }

  lemma WorkloadDomains()
    ensures NoRoot(Workloads()) && NoRoot(Reach()) && NoRoot(Observability())
  {
  }

  lemma TeamDomains()
    ensures NoRoot(Access()) && NoRoot(Workloads()) && NoRoot(Infrastructure())
    ensures NoRoot(Reach()) && NoRoot(Observability())
  {
    hide *;
    AccessDomains();
    WorkloadDomains();
  }

  lemma TeamHasNoRoot()
    ensures NoRoot(Team())
  {
    TeamDomains();
    hide Access, Workloads, Infrastructure, Reach, Observability;
  }

  lemma InstanceDomain(p: string)
    requires p in Instance()
    ensures p[|p| - 1] != 'd'
  {
  }

  ghost predicate NoReadDomain(m: map<string, Coarse>) {
    forall p :: p in m ==> p != "read:read"
  }

  lemma AccessNoRead()
    ensures NoReadDomain(Access())
  {
  }

  lemma WorkloadsNoRead()
    ensures NoReadDomain(Workloads())
  {
  }

  lemma OthersNoRead()
    ensures NoReadDomain(Infrastructure()) && NoReadDomain(Reach())
    ensures NoReadDomain(Observability()) && NoReadDomain(Instance())
  {
  }

  lemma NoReadRead()
    ensures "read:read" !in Akerdock().socle
  {
    AccessNoRead();
    WorkloadsNoRead();
    OthersNoRead();
    hide Access, Workloads, Infrastructure, Reach, Observability, Instance;
  }

  lemma TargetsAreKnown()
    ensures "members:read" in Access() && "resources:read" in Access() && "environments:read" in Access()
    ensures "applications:read" in Workloads() && "deployments:read" in Workloads()
    ensures "sources:read" in Infrastructure() && "config:export" in Observability()
    ensures "terminal:open" in Reach() && "ingress-endpoints:read" in Reach()
  {
  }

  lemma CatalogueReads()
    ensures ReadsAreNotRoot(Akerdock())
  {
    TeamHasNoRoot();
    hide Team, Instance, Extras;
    forall d: string | d + ":read" in Akerdock().socle ensures Akerdock().socle[d + ":read"] != Root {
      var p := d + ":read";
      if p in Instance() {
        InstanceDomain(p);
      }
    }
  }

  function Targets(): set<string> {
    {"members:read", "config:export", "resources:read", "environments:read", "terminal:open", "sources:read",
     "applications:read", "deployments:read", "ingress-endpoints:read"}
  }

  lemma ExtraTargets(p: string, d: string)
    requires p in Extras() && d in Extras()[p]
    ensures d in Targets()
  {
  }

  lemma TargetIsInTeam(d: string)
    requires d in Targets()
    ensures d in Team()
  {
    TargetsAreKnown();
    hide Access, Workloads, Infrastructure, Reach, Observability;
  }

  lemma TargetIsTeamScoped(d: string)
    requires d in Targets()
    ensures d in Akerdock().socle && Akerdock().socle[d] != Root
  {
    TeamHasNoRoot();
    TargetIsInTeam(d);
    TargetsAreNotInstance(d);
    hide Team, Instance, Extras, Targets;
  }

  lemma TargetsAreNotInstance(d: string)
    requires d in Targets()
    ensures d !in Instance()
  {
  }

  lemma CatalogueExtras()
    ensures ExtrasAreKnown(Akerdock())
  {
    hide Team, Instance, Extras, Targets;
    forall p, d | p in Extras() && d in Extras()[p] ensures d in Akerdock().socle && Akerdock().socle[d] != Root {
      ExtraTargets(p, d);
      TargetIsTeamScoped(d);
    }
  }

  lemma CoarseHasNoDomain(c: Coarse)
    ensures c != ReadSensitive ==> !SplitPerm(Name(c)).2
  {
    assert c != ReadSensitive ==> forall i :: 0 <= i < |Name(c)| ==> Name(c)[i] != ':';
  }

  lemma SensitiveIsInReadDomain()
    ensures SplitPerm(Name(ReadSensitive)) == ("read", "sensitive", true)
  {
    hide SplitPerm;
    SplitPermOf("read", "sensitive");
    assert Name(ReadSensitive) == "read" + [':'] + "sensitive";
  }

  lemma CoarseHasNoExtras(c: Coarse)
    ensures Name(c) !in Extras()
  {
    assert |Name(c)| in {4, 5, 6, 14};
  }

  lemma CoarsePrerequisites(c: Coarse)
    ensures Prerequisites(Akerdock(), Name(c)) == []
  {
    hide Team, Instance, SplitPerm, Name, Extras;
    CoarseHasNoDomain(c);
    CoarseHasNoExtras(c);
    if c == ReadSensitive {
      NoReadRead();
      SensitiveIsInReadDomain();
      assert "read" + ":read" == "read:read";
    }
  }

  lemma CatalogueCoarse()
    ensures CoarseImpliesNothing(Akerdock())
  {
    hide Akerdock, Prerequisites;
    forall c: Coarse ensures Prerequisites(Akerdock(), Name(c)) == [] {
      CoarsePrerequisites(c);
    }
  }

  lemma CatalogueIsSound()
    ensures Sound(Akerdock())
  {
    hide Akerdock, ReadsAreNotRoot, ExtrasAreKnown, CoarseImpliesNothing;
    CatalogueReads();
    CatalogueExtras();
    CatalogueCoarse();
  }
}
