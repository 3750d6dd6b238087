/** The code of the dev ingress module's locked sections and of its attach handlers, each
    proved against the functions the interleaved model is built from. */
module IngressTable {
  import opened Steps = Ingress
  import opened Wrappers

  class SessionObject {
    const uuid: string
    const endpoint: string
    var cancel: Option<string>

    constructor (uuid: string, endpoint: string)
      ensures this.uuid == uuid && this.endpoint == endpoint && cancel == None
    {
      this.uuid, this.endpoint, cancel := uuid, endpoint, None;
    }

    /** Sends without waiting on a one-place channel: a second reason is dropped. */
    method Tell(reason: string)
      modifies this
      ensures cancel == Offered(old(cancel), reason)
    {
      if cancel.None? {
        cancel := Some(reason);
      }
    }
  }

  datatype Route = Route(host: string, endpoint: string)

  /** Two routes of one host: the later one counts. */
  function HostTable(routes: seq<Route>): map<string, string> {
    if routes == [] then map[]
    else HostTable(routes[..|routes| - 1])[routes[|routes| - 1].host := routes[|routes| - 1].endpoint]
  }

  /** The table holds the last route of every routed host and nothing else. */
  lemma {:induction false} HostTableHolds(routes: seq<Route>, host: string, endpoint: string)
    ensures (host in HostTable(routes) && HostTable(routes)[host] == endpoint)
       <==> exists i :: 0 <= i < |routes| && routes[i] == Route(host, endpoint)
                        && forall j :: i < j < |routes| ==> routes[j].host != host
  {
    if routes == [] {
    } else {
      var n := |routes| - 1;
      var front := routes[..n];
      HostTableHolds(front, host, endpoint);
      if routes[n].host != host {
        if host in HostTable(front) && HostTable(front)[host] == endpoint {
          var i :| 0 <= i < |front| && front[i] == Route(host, endpoint)
                   && forall j :: i < j < |front| ==> front[j].host != host;
          assert routes[i] == Route(host, endpoint) && forall j :: i < j < |routes| ==> routes[j].host != host;
        }
        if i :| 0 <= i < |routes| && routes[i] == Route(host, endpoint)
                && forall j :: i < j < |routes| ==> routes[j].host != host {
          assert front[i] == Route(host, endpoint) && forall j :: i < j < |front| ==> front[j].host != host;
        }
      } else {
        assert routes[n] == Route(host, endpoint) <==> routes[n].endpoint == endpoint;
      }
    }
  }

  function Endpoints(routes: seq<Route>): set<string> {
    set r | r in routes :: r.endpoint
  }

  datatype Reply = Checked(r: ClaimResult) | MissingToken

  /** How an attach over a web socket goes after its claim. */
  datatype SocketCourse = AcceptFails | WrongProtocol | BadKey | SocketRuns(reason: string)

  /** How an attach over an HTTP control stream goes, the first two before its claim. */
  datatype ControlCourse = WrongVersion | BadControlKey | NoDuplex | FlushFails | ControlRuns(reason: string)

  datatype Notice = ClaimedNotice(uuid: string) | ClosedNotice(uuid: string, reason: string)

  /** What other goroutines may do while an attach is under way. */
  datatype Operation =
    | Arming(hash: string, uuid: string, endpoint: string, expires: int, now: int)
    | Cutting(uuid: string, reason: string)
    | Reloading(routes: seq<Route>)
    | Claiming(token: string, hash: string, endpoint: string, now: int)
    | Releasing(endpoint: string, session: SessionObject)

  class Ingress {
    var hosts: map<string, string>
    var expects: map<string, Expect>
    var live: map<string, SessionObject>
    /** How often a token was armed. */
    var serials: nat

    ghost predicate Valid()
      reads this
    {
      forall e :: e in live ==> live[e].endpoint == e
    }

    constructor ()
      ensures Valid() && hosts == map[] && expects == map[] && live == map[] && serials == 0
    {
      hosts, expects, live, serials := map[], map[], map[], 0;
    }

    /** The routing reload: sessions whose endpoint left the table are told, all others left alone. */
    method SetRoutes(routes: seq<Route>)
      requires Valid()
      modifies this`hosts, live.Values
      ensures Valid() && hosts == HostTable(routes)
      ensures forall e :: e in live && e !in Endpoints(routes)
                          ==> live[e].cancel == Offered(old(live[e].cancel), REVOKED)
      ensures forall e :: e in live && e in Endpoints(routes) ==> live[e].cancel == old(live[e].cancel)
    {
      var table, known := ReadRoutes(routes);
      hosts := table;
      TellUnknown(known);
    }

    static method ReadRoutes(routes: seq<Route>) returns (table: map<string, string>, known: set<string>)
      ensures table == HostTable(routes) && known == Endpoints(routes)
    {
      table, known := map[], {};
      for i := 0 to |routes|
        invariant table == HostTable(routes[..i]) && known == Endpoints(routes[..i])
      {
        assert routes[..i + 1][..i] == routes[..i] && routes[..i + 1] == routes[..i] + [routes[i]];
        table := table[routes[i].host := routes[i].endpoint];
        known := known + {routes[i].endpoint};
      }
      assert routes[..|routes|] == routes;
    }

    method TellUnknown(known: set<string>)
      requires Valid()
      modifies live.Values
      ensures forall e :: e in live && e !in known ==> live[e].cancel == Offered(old(live[e].cancel), REVOKED)
      ensures forall e :: e in live && e in known ==> live[e].cancel == old(live[e].cancel)
    {
      var todo := live.Keys - known;
      while todo != {}
        invariant todo <= live.Keys - known
        invariant forall e :: e in live && e !in known && e !in todo
                              ==> live[e].cancel == Offered(old(live[e].cancel), REVOKED)
        invariant forall e :: e in live && (e in known || e in todo) ==> live[e].cancel == old(live[e].cancel)
      {
        var e :| e in todo;
        live[e].Tell(REVOKED);
        todo := todo - {e};
      }
    }

    /** Arms a token, after forgetting every token that has expired. */
    method Arm(hash: string, session: string, endpoint: string, expires: int, now: int)
      modifies this`expects, this`serials
      ensures expects == Armed(old(expects), hash, Expect(session, endpoint, expires, old(serials)), now)
      ensures serials == old(serials) + 1
    {
      var todo := expects.Keys;
      while todo != {}
        invariant serials == old(serials) && todo <= expects.Keys <= old(expects).Keys
        invariant forall h :: h in expects ==> expects[h] == old(expects)[h]
        invariant forall h :: h in old(expects) && h !in todo ==> (h in expects <==> old(expects)[h].expires >= now)
        decreases todo
      {
        var h :| h in todo;
        todo := todo - {h};
        if expects[h].expires < now {
          expects := expects - {h};
        }
      }
      expects := expects[hash := Expect(session, endpoint, expires, serials)];
      serials := serials + 1;
    }

    method Disarm(uuid: string) returns (found: bool)
      modifies this`expects
      ensures expects == Disarmed(old(expects), uuid)
      ensures found <==> exists h :: h in old(expects) && old(expects)[h].session == uuid
    {
      found := false;
      var todo := expects.Keys;
      while todo != {}
        invariant todo <= expects.Keys <= old(expects).Keys
        invariant forall h :: h in expects ==> expects[h] == old(expects)[h]
        invariant forall h :: h in old(expects) && h !in todo ==> (h in expects <==> old(expects)[h].session != uuid)
        invariant found <==> exists h :: h in old(expects) && h !in todo && old(expects)[h].session == uuid
        decreases todo
      {
        var h :| h in todo;
        todo := todo - {h};
        if expects[h].session == uuid {
          expects := expects - {h};
          found := true;
        }
      }
    }

    /** Some live session of that name, if there is one. */
    method FindLive(uuid: string) returns (target: SessionObject?)
      ensures target == null ==> forall e :: e in live ==> live[e].uuid != uuid
      ensures target != null ==> target.uuid == uuid && target in live.Values
    {
      target := null;
      var todo := live.Keys;
      while todo != {}
        invariant todo <= live.Keys
        invariant forall e :: e in live && e !in todo ==> live[e].uuid != uuid
      {
        var e :| e in todo;
        if live[e].uuid == uuid {
          return live[e];
        }
        todo := todo - {e};
      }
    }

    /** Disarms every token of that session and tells one live session of that name. */
    method Cut(uuid: string, reason: string) returns (found: bool, target: SessionObject?)
      modifies this`expects, live.Values
      ensures expects == Disarmed(old(expects), uuid)
      ensures target == null ==> forall e :: e in live ==> live[e].uuid != uuid
      ensures target != null ==> target.uuid == uuid && target in live.Values
      ensures target != null ==> target.cancel == Offered(old(target.cancel), if reason == "" then REVOKED else reason)
      ensures forall x :: x in live.Values && x != target ==> x.cancel == old(x.cancel)
      ensures found <==> target != null || exists h :: h in old(expects) && old(expects)[h].session == uuid
    {
      target := FindLive(uuid);
      found := Disarm(uuid);
      if target != null {
        found := true;
        target.Tell(if reason == "" then REVOKED else reason);
      }
    }

    /** A token is consumed on sight; only a granted claim occupies the endpoint. */
    method Claim(token: string, hash: string, endpoint: string, now: int) returns (r: Reply, session: SessionObject?)
      requires Valid()
      modifies this`expects, this`live
      ensures Valid()
      ensures r == if token == "" then MissingToken
                   else Checked(ClaimOutcome(old(expects), old(live).Keys, hash, endpoint, now))
      ensures var armed := token != "" && hash in old(expects) && old(expects)[hash].endpoint == endpoint;
        && (session != null <==> armed && old(expects)[hash].expires >= now && endpoint !in old(live))
        && (r == Checked(Expired) <==> armed && old(expects)[hash].expires < now)
        && (r == Checked(Occupied) <==> armed && old(expects)[hash].expires >= now && endpoint in old(live))
        && (session != null ==> session.uuid == old(expects)[hash].session)
      ensures expects == if token == "" then old(expects) else old(expects) - {hash}
      ensures session != null <==> r.Checked? && r.r.Granted?
      ensures session != null ==>
        && fresh(session) && session.uuid == r.r.e.session && session.endpoint == endpoint
        && session.cancel == None && live == old(live)[endpoint := session]
      ensures session == null ==> live == old(live)
    {
      session := null;
      if token == "" {
        return MissingToken, null;
      }
      var known := hash in expects;
      var e := if known then Some(expects[hash]) else None;
      expects := expects - {hash};
      if e.None? || e.value.endpoint != endpoint {
        r := Checked(InvalidToken);
      } else if e.value.expires < now {
        r := Checked(Expired);
      } else if endpoint in live {
        r := Checked(Occupied);
      } else {
        r := Checked(Granted(e.value));
        session := new SessionObject(e.value.session, endpoint);
        live := live[endpoint := session];
      }
    }

    /** Frees the endpoint if the session still holds it. */
    method Release(endpoint: string, session: SessionObject)
      requires Valid()
      modifies this`live
      ensures Valid()
      ensures live == if endpoint in old(live) && old(live)[endpoint] == session
                      then old(live) - {endpoint} else old(live)
    {
      if endpoint in live && live[endpoint] == session {
        live := live - {endpoint};
      }
    }

    /** Others act while `mine` holds its endpoint; none of them is its handler, so it still
        holds it afterwards. */
    method Meanwhile(others: seq<Operation>, mine: SessionObject)
      requires Valid() && mine.endpoint in live && live[mine.endpoint] == mine
      requires forall i :: 0 <= i < |others| && others[i].Releasing? ==> others[i].session != mine
      modifies this, live.Values
      ensures Valid() && mine.endpoint in live && live[mine.endpoint] == mine
      ensures others == [] ==> live == old(live) && expects == old(expects)
    {
      for i := 0 to |others|
        invariant Valid() && mine.endpoint in live && live[mine.endpoint] == mine
        invariant forall x :: x in live.Values ==> x in old(live.Values) || fresh(x)
        invariant i == 0 ==> live == old(live) && expects == old(expects)
      {
        match others[i]
        case Arming(hash, uuid, endpoint, expires, now) => Arm(hash, uuid, endpoint, expires, now);
        case Cutting(uuid, reason) => var _, _ := Cut(uuid, reason);
        case Reloading(routes) => SetRoutes(routes);
        case Claiming(token, hash, endpoint, now) => var _, _ := Claim(token, hash, endpoint, now);
        case Releasing(endpoint, session) => Release(endpoint, session);
      }
    }

    /** Whatever way a web socket attach goes and whatever others do meanwhile, its endpoint is
        free when it ends; without others everything is as it was but for the token.  The
        session is announced, and its end reported, exactly when it ran. */
    method AttachWebSocket(token: string, hash: string, endpoint: string, now: int, course: SocketCourse,
                           others: seq<Operation>)
      returns (r: Reply, notices: seq<Notice>)
      requires Valid()
      modifies this, live.Values
      ensures Valid()
      ensures r == if token == "" then MissingToken
                   else Checked(ClaimOutcome(old(expects), old(live).Keys, hash, endpoint, now))
      ensures r.Checked? && r.r.Granted? ==> endpoint !in live
      ensures !(r.Checked? && r.r.Granted?) || others == [] ==>
        && live == old(live)
        && expects == if token == "" then old(expects) else old(expects) - {hash}
      ensures notices == if r.Checked? && r.r.Granted? && course.SocketRuns?
                         then [ClaimedNotice(r.r.e.session), ClosedNotice(r.r.e.session, course.reason)] else []
    {
      notices := [];
      var session;
      r, session := Claim(token, hash, endpoint, now);
      if session == null {
        return;
      }
      assert old(live)[endpoint := session] - {endpoint} == old(live);
      Meanwhile(others, session);
      match course {
        case AcceptFails => Release(endpoint, session);
        case WrongProtocol => Release(endpoint, session);
        case BadKey => Release(endpoint, session);
        case SocketRuns(reason) =>
          notices := [ClaimedNotice(r.r.e.session)];
          Release(endpoint, session);
          notices := notices + [ClosedNotice(r.r.e.session, reason)];
      }
    }

    /** The same over an HTTP control stream, which looks at the token only once the protocol
        version and the attach key are in order. */
    method AttachControl(token: string, hash: string, endpoint: string, now: int, course: ControlCourse,
                         others: seq<Operation>)
      returns (r: Option<Reply>, notices: seq<Notice>)
      requires Valid()
      modifies this, live.Values
      ensures Valid()
      ensures r == if course.WrongVersion? || course.BadControlKey? then None
                   else if token == "" then Some(MissingToken)
                   else Some(Checked(ClaimOutcome(old(expects), old(live).Keys, hash, endpoint, now)))
      ensures r.Some? && r.value.Checked? && r.value.r.Granted? ==> endpoint !in live
      ensures !(r.Some? && r.value.Checked? && r.value.r.Granted?) || others == [] ==>
        && live == old(live)
        && expects == if r.Some? && r.value.Checked? then old(expects) - {hash} else old(expects)
      ensures notices == if r.Some? && r.value.Checked? && r.value.r.Granted? && course.ControlRuns?
                         then var uuid := r.value.r.e.session; [ClaimedNotice(uuid), ClosedNotice(uuid, course.reason)]
                         else []
    {
      notices := [];
      if course.WrongVersion? || course.BadControlKey? {
        return None, [];
      }
      var c, session := Claim(token, hash, endpoint, now);
      r := Some(c);
      if session == null {
        return;
      }
      assert old(live)[endpoint := session] - {endpoint} == old(live);
      Meanwhile(others, session);
      if course.ControlRuns? {
        notices := [ClaimedNotice(c.r.e.session)];
        Release(endpoint, session);
        notices := notices + [ClosedNotice(c.r.e.session, course.reason)];
      } else {
        Release(endpoint, session);
      }
    }
  }
}
