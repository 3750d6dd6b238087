/** Relay connections: `Source.conn` as two critical sections around a dial, run by any
    number of concurrent callers while connections may die at any moment. */
module Relay {
  import opened Wrappers

  /** Where a caller stands. */
  datatype Caller = Idle | Dialing(server: int) | Dialed(server: int, conn: nat) | Has(server: int, conn: nat) | GaveUp

  /** `dialed` maps every connection ever dialed to its server; `dead` are those that broke
      or were closed. */
  datatype State = State(
    cache: map<int, nat>, dead: set<nat>, dialed: map<nat, int>, callers: map<nat, Caller>)

  const START := State(map[], {}, map[], map[])

  datatype Action =
    | Ask(caller: nat, server: int) | DialOk(caller: nat, conn: nat) | DialFails(caller: nat)
    | Install(caller: nat) | Die(conn: nat)

  // ----- The two critical sections

  /** The first: a live cached connection is returned, a dead one forgotten. */
  function Lookup(cache: map<int, nat>, dead: set<nat>, server: int): (map<int, nat>, Option<nat>) {
    if server !in cache then (cache, None)
    else if cache[server] in dead then (cache - {server}, None)
    else (cache, Some(cache[server]))
  }

  /** The second: whoever finds a live connection already cached closes its own. */
  function Settle(cache: map<int, nat>, dead: set<nat>, server: int, conn: nat): (map<int, nat>, set<nat>, nat) {
    if server in cache && cache[server] !in dead then (cache, dead + {conn}, cache[server])
    else (cache[server := conn], dead, conn)
  }

  function CallerOf(s: State, c: nat): Caller {
    if c in s.callers then s.callers[c] else Idle
  }

  predicate Enabled(s: State, a: Action) {
    match a
    case Ask(c, _) => !CallerOf(s, c).Dialing? && !CallerOf(s, c).Dialed?
    case DialOk(c, conn) => CallerOf(s, c).Dialing? && conn !in s.dialed
    case DialFails(c) => CallerOf(s, c).Dialing?
    case Install(c) => CallerOf(s, c).Dialed?
    case Die(conn) => conn in s.dialed
  }

  function Next(s: State, a: Action): State
    requires Enabled(s, a)
  {
    match a
    case Ask(c, server) =>
      var (cache, found) := Lookup(s.cache, s.dead, server);
      s.(cache := cache, callers := s.callers[c := if found.Some? then Has(server, found.value) else Dialing(server)])
    case DialOk(c, conn) =>
      var server := CallerOf(s, c).server;
      s.(dialed := s.dialed[conn := server], callers := s.callers[c := Dialed(server, conn)])
    case DialFails(c) => s.(callers := s.callers[c := GaveUp])
    case Install(c) =>
      var (server, conn) := (CallerOf(s, c).server, CallerOf(s, c).conn);
      var (cache, dead, result) := Settle(s.cache, s.dead, server, conn);
      s.(cache := cache, dead := dead, callers := s.callers[c := Has(server, result)])
    case Die(conn) => s.(dead := s.dead + {conn})
  }

  // ----- The invariant

  ghost predicate Holds(s: State, c: nat, conn: nat) {
    CallerOf(s, c).Dialed? && CallerOf(s, c).conn == conn
  }

  ghost predicate IsHeld(s: State, conn: nat) {
    exists c :: Holds(s, c, conn)
  }

  ghost predicate IsCached(s: State, conn: nat) {
    exists server :: server in s.cache && s.cache[server] == conn
  }

  /** Records name dialed connections of the right server. */
  ghost predicate WellKept(s: State) {
    && s.dead <= s.dialed.Keys
    && (forall server :: server in s.cache ==> s.cache[server] in s.dialed && s.dialed[s.cache[server]] == server)
    && (forall c :: CallerOf(s, c).Dialed? || CallerOf(s, c).Has? ==>
          CallerOf(s, c).conn in s.dialed && s.dialed[CallerOf(s, c).conn] == CallerOf(s, c).server)
  }

  /** A connection has at most one holder, and none once it is cached. */
  ghost predicate OneOwner(s: State) {
    && (forall c, d :: c != d && CallerOf(s, c).Dialed? && CallerOf(s, d).Dialed? ==>
          CallerOf(s, c).conn != CallerOf(s, d).conn)
    && (forall c, server :: CallerOf(s, c).Dialed? && server in s.cache ==> CallerOf(s, c).conn != s.cache[server])
  }

  /** No live connection is lost, and a live one in use is the cached one. */
  ghost predicate NoLeak(s: State) {
    && (forall conn :: conn in s.dialed && conn !in s.dead ==>
          IsHeld(s, conn) || (s.dialed[conn] in s.cache && s.cache[s.dialed[conn]] == conn))
    && (forall c :: CallerOf(s, c).Has? && CallerOf(s, c).conn !in s.dead ==>
          CallerOf(s, c).server in s.cache && s.cache[CallerOf(s, c).server] == CallerOf(s, c).conn)
  }

  ghost predicate Inv(s: State) {
    WellKept(s) && OneOwner(s) && NoLeak(s)
  }

  lemma AskKeeps(s: State, c: nat, server: int)
    requires Inv(s) && Enabled(s, Ask(c, server))
    ensures Inv(Next(s, Ask(c, server)))
  {
    var s' := Next(s, Ask(c, server));
    assert forall d :: d != c ==> CallerOf(s', d) == CallerOf(s, d);
    forall conn | IsHeld(s, conn) ensures IsHeld(s', conn) {
      var d :| Holds(s, d, conn);
      assert Holds(s', d, conn);
    }
  }

  lemma DialOkKeeps(s: State, c: nat, conn: nat)
    requires Inv(s) && Enabled(s, DialOk(c, conn))
    ensures Inv(Next(s, DialOk(c, conn)))
  {
    var s' := Next(s, DialOk(c, conn));
    assert forall d :: d != c ==> CallerOf(s', d) == CallerOf(s, d);
    assert Holds(s', c, conn);
    forall x | IsHeld(s, x) ensures IsHeld(s', x) {
      var d :| Holds(s, d, x);
      assert Holds(s', d, x);
    }
  }

  lemma DialFailsKeeps(s: State, c: nat)
    requires Inv(s) && Enabled(s, DialFails(c))
    ensures Inv(Next(s, DialFails(c)))
  {
    var s' := Next(s, DialFails(c));
    assert forall d :: d != c ==> CallerOf(s', d) == CallerOf(s, d);
    forall x | IsHeld(s, x) ensures IsHeld(s', x) {
      var d :| Holds(s, d, x);
      assert Holds(s', d, x);
    }
  }

  lemma InstallKeeps(s: State, c: nat)
    requires Inv(s) && Enabled(s, Install(c))
    ensures Inv(Next(s, Install(c)))
  {
    var s' := Next(s, Install(c));
    var conn := CallerOf(s, c).conn;
    assert forall d :: d != c ==> CallerOf(s', d) == CallerOf(s, d);
    assert Holds(s, c, conn);
    forall x | IsHeld(s, x) && x != conn ensures IsHeld(s', x) {
      var d :| Holds(s, d, x);
      assert Holds(s', d, x);
    }
    assert forall d :: d != c && CallerOf(s, d).Dialed? ==> Holds(s, d, CallerOf(s, d).conn);
  }

  lemma DieKeeps(s: State, conn: nat)
    requires Inv(s) && Enabled(s, Die(conn))
    ensures Inv(Next(s, Die(conn)))
  {
    var s' := Next(s, Die(conn));
    assert forall d :: CallerOf(s', d) == CallerOf(s, d);
    forall x | IsHeld(s, x) ensures IsHeld(s', x) {
      var d :| Holds(s, d, x);
      assert Holds(s', d, x);
    }
  }

  lemma StepKeeps(s: State, a: Action)
    requires Inv(s) && Enabled(s, a)
    ensures Inv(Next(s, a))
  {
    hide Inv, Next, Enabled;
    match a
    case Ask(c, server) => AskKeeps(s, c, server);
    case DialOk(c, conn) => DialOkKeeps(s, c, conn);
    case DialFails(c) => DialFailsKeeps(s, c);
    case Install(c) => InstallKeeps(s, c);
    case Die(conn) => DieKeeps(s, conn);
  }

  // ----- Runs

  ghost predicate IsRun(states: seq<State>, actions: seq<Action>) {
    && |states| == |actions| + 1 && states[0] == START
    && forall i :: 0 <= i < |actions| ==> Enabled(states[i], actions[i]) && states[i + 1] == Next(states[i], actions[i])
  }

  lemma {:induction false} RunKeeps(states: seq<State>, actions: seq<Action>, i: nat)
    requires IsRun(states, actions) && i < |states|
    ensures Inv(states[i])
  {
    hide Inv, Next, Enabled;
    if i == 0 {
      StartInv();
    } else {
      RunKeeps(states, actions, i - 1);
      StepKeeps(states[i - 1], actions[i - 1]);
    }
  }

  lemma StartInv()
    ensures Inv(START)
  {
  }

  /** At every moment of every interleaving, a dialed connection is dead, or held by
      exactly one dialer, or cached for its server, and never two of the last. */
  lemma EveryConnectionAccountedFor(states: seq<State>, actions: seq<Action>, i: nat, conn: nat)
    requires IsRun(states, actions) && i < |states| && conn in states[i].dialed
    ensures conn in states[i].dead || IsHeld(states[i], conn) || IsCached(states[i], conn)
    ensures !(IsHeld(states[i], conn) && IsCached(states[i], conn))
    ensures forall c, d :: Holds(states[i], c, conn) && Holds(states[i], d, conn) ==> c == d
  {
    RunKeeps(states, actions, i);
    var s := states[i];
    if conn !in s.dead && !IsHeld(s, conn) {
      var server := s.dialed[conn];
      assert server in s.cache && s.cache[server] == conn;
      assert IsCached(s, conn);
    }
  }

  /** Callers that got live connections to one server got the same one: the cached one. */
  lemma CallersConverge(states: seq<State>, actions: seq<Action>, i: nat, c: nat, d: nat)
    requires IsRun(states, actions) && i < |states|
    requires var x, y := CallerOf(states[i], c), CallerOf(states[i], d);
      x.Has? && y.Has? && x.server == y.server && x.conn !in states[i].dead && y.conn !in states[i].dead
    ensures CallerOf(states[i], c).conn == CallerOf(states[i], d).conn
    ensures var x := CallerOf(states[i], c); x.server in states[i].cache && states[i].cache[x.server] == x.conn
  {
    RunKeeps(states, actions, i);
  }

  /** A live connection to the server that no dialer holds on to. */
  ghost predicate IsShared(s: State, server: int, conn: nat) {
    conn in s.dialed && s.dialed[conn] == server && conn !in s.dead && !IsHeld(s, conn)
  }

  lemma SharedIsCached(s: State, server: int, conn: nat)
    requires Inv(s)
    ensures IsShared(s, server, conn) <==> server in s.cache && s.cache[server] == conn && conn !in s.dead
  {
  }

  /** Who asks for a server gets the shared live connection to it; a dial begins exactly when
      there is none. */
  lemma AskReuses(states: seq<State>, actions: seq<Action>, i: nat)
    requires IsRun(states, actions) && i < |actions| && actions[i].Ask?
    ensures var after := CallerOf(states[i + 1], actions[i].caller);
      && after.server == actions[i].server
      && (forall conn :: IsShared(states[i], actions[i].server, conn) <==> after == Has(actions[i].server, conn))
      && (after.Dialing? <==> forall conn :: !IsShared(states[i], actions[i].server, conn))
    ensures states[i + 1].dead == states[i].dead && states[i + 1].dialed == states[i].dialed
  {
    RunKeeps(states, actions, i);
    forall conn { SharedIsCached(states[i], actions[i].server, conn); }
    hide Inv, IsShared;
    assert Enabled(states[i], actions[i]);
  }

  /** A dialer that finds a shared live connection takes it and closes its own; otherwise it keeps
      its own, and nothing is closed. */
  lemma InstallSettles(states: seq<State>, actions: seq<Action>, i: nat)
    requires IsRun(states, actions) && i < |actions| && actions[i].Install?
    ensures var s, s', c := states[i], states[i + 1], actions[i].caller;
      && CallerOf(s, c).Dialed?
      && var (server, own) := (CallerOf(s, c).server, CallerOf(s, c).conn);
      && (forall conn :: IsShared(s, server, conn) ==>
            CallerOf(s', c) == Has(server, conn) && s'.dead == s.dead + {own} && conn != own)
      && ((forall conn :: !IsShared(s, server, conn)) ==> CallerOf(s', c) == Has(server, own) && s'.dead == s.dead)
  {
    var s, c := states[i], actions[i].caller;
    assert Enabled(s, actions[i]);
    RunKeeps(states, actions, i);
    forall conn { SharedIsCached(s, CallerOf(s, c).server, conn); }
    assert Holds(s, c, CallerOf(s, c).conn);
    hide IsShared, NoLeak, WellKept;
  }

  // ----- The code of the sections

  class Connection {
    const server: int
    var done: bool

    constructor (server: int)
      ensures this.server == server && !done
    {
      this.server, done := server, false;
    }

    method Close()
      modifies this
      ensures done
    {
      done := true;
    }
  }

  class Source {
    var conns: map<int, Connection>

    constructor ()
      ensures conns == map[]
    {
      conns := map[];
    }

    /** First section: the live cached connection, or nothing and the dead one forgotten. */
    method Cached(server: int) returns (c: Connection?)
      modifies this
      ensures c == (if server in old(conns) && !old(conns)[server].done then old(conns)[server] else null)
      ensures conns == if server in old(conns) && old(conns)[server].done then old(conns) - {server} else old(conns)
    {
      c := null;
      if server in conns {
        if conns[server].done {
          conns := conns - {server};
        } else {
          c := conns[server];
        }
      }
    }

    /** Second section: exactly one of the two survives, in the cache. */
    method Keep(server: int, c: Connection) returns (kept: Connection)
      requires server in conns ==> conns[server] != c
      modifies this, c, if server in conns then {conns[server]} else {}
      ensures server in conns && conns[server] == kept && conns == old(conns)[server := kept]
      ensures server in old(conns) && !old(conns[server].done) ==> kept == old(conns)[server] && c.done && !kept.done
      ensures server !in old(conns) || old(conns[server].done) ==> kept == c && c.done == old(c.done)
    {
      if server in conns {
        var existing := conns[server];
        if !existing.done {
          c.Close();
          return existing;
        }
        existing.Close();
      }
      conns := conns[server := c];
      kept := c;
    }
  }
}
