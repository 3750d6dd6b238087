/** Dev ingress attaches: arming, claiming, cutting and releasing sessions.

    The steps are the sections the code runs under its lock and the sends it does
    after releasing it; they may interleave in any order. */
module Ingress {
  import opened Wrappers

  /** An armed, single-use expectation.  `serial` tells armings apart. */
  datatype Expect = Expect(session: string, endpoint: string, expires: int, serial: nat)

  /** Where the handler of an attach stands. */
  datatype Phase = Claimed | Running | Finishing | Gone

  /** `cancel` is the one-place channel; `told` is whether an end reason was ever sent. */
  datatype Session = Session(uuid: string, endpoint: string, cancel: Option<string>, told: bool, phase: Phase)

  datatype Sending = Sending(target: nat, reason: string)

  /** `sessions` are all claims ever made, `live` the occupant of each endpoint, `pending` the
      reasons chosen under the lock and not yet sent, `redeemed` the serials claimed. */
  datatype State = State(
    hosts: map<string, string>, expects: map<string, Expect>, live: map<string, nat>,
    sessions: map<nat, Session>, pending: seq<Sending>, serials: nat, redeemed: seq<nat>)

  const START := State(map[], map[], map[], map[], [], 0, [])

  const REVOKED := "revoked"

  // ----- The locked sections, as functions

  /** Arming first forgets what has expired. */
  function Armed(expects: map<string, Expect>, hash: string, e: Expect, now: int): map<string, Expect> {
    (map h | h in expects && expects[h].expires >= now :: expects[h])[hash := e]
  }

  datatype ClaimResult = Granted(e: Expect) | InvalidToken | Expired | Occupied

  /** A token is consumed on sight, valid or not. */
  function ClaimOutcome(expects: map<string, Expect>, live: set<string>, hash: string, endpoint: string,
                        now: int): ClaimResult {
    if hash !in expects || expects[hash].endpoint != endpoint then InvalidToken
    else if expects[hash].expires < now then Expired
    else if endpoint in live then Occupied
    else Granted(expects[hash])
  }

  function Disarmed(expects: map<string, Expect>, uuid: string): map<string, Expect> {
    map h | h in expects && expects[h].session != uuid :: expects[h]
  }

  // ----- Steps

  datatype Action =
    | Arm(hash: string, session: string, endpoint: string, expires: int, now: int)
    | Claim(hash: string, endpoint: string, now: int, id: nat)
    | CutMiss(uuid: string) | CutHit(uuid: string, reason: string, target: nat)
    | Reload(hosts: map<string, string>, known: set<string>, cut: seq<nat>)
    | SendReason(k: nat)
    | StartRun(id: nat) | EndRun(id: nat) | TakeReason(id: nat) | Release(id: nat)

  ghost predicate IsLive(s: State, id: nat) {
    id in s.sessions && s.sessions[id].endpoint in s.live && s.live[s.sessions[id].endpoint] == id
  }

  /** The sessions a reload cuts: those whose endpoint left the table, in any order. */
  ghost predicate CutsUnknown(s: State, known: set<string>, cut: seq<nat>) {
    forall id :: id in cut <==> IsLive(s, id) && s.sessions[id].endpoint !in known
  }

  ghost predicate Enabled(s: State, a: Action) {
    match a
    case Arm(_, _, _, _, _) => true
    case Claim(_, _, _, id) => id !in s.sessions
    case CutMiss(uuid) => forall id :: IsLive(s, id) ==> s.sessions[id].uuid != uuid
    case CutHit(uuid, _, id) => IsLive(s, id) && s.sessions[id].uuid == uuid
    case Reload(_, known, cut) => CutsUnknown(s, known, cut)
    case SendReason(k) => k < |s.pending|
    case StartRun(id) => id in s.sessions && s.sessions[id].phase == Claimed
    case EndRun(id) => id in s.sessions && s.sessions[id].phase == Running
    case TakeReason(id) => id in s.sessions && s.sessions[id].phase == Running && s.sessions[id].cancel.Some?
    case Release(id) => id in s.sessions && (s.sessions[id].phase == Claimed || s.sessions[id].phase == Finishing)
  }

  function Sends(cut: seq<nat>): (r: seq<Sending>)
    ensures |r| == |cut| && forall i :: 0 <= i < |r| ==> r[i] == Sending(cut[i], REVOKED)
  {
    seq(|cut|, i requires 0 <= i < |cut| => Sending(cut[i], REVOKED))
  }

  function WithPhase(s: State, id: nat, phase: Phase): State
    requires id in s.sessions
  {
    s.(sessions := s.sessions[id := s.sessions[id].(phase := phase)])
  }

  /** What a one-place channel holds after a send that does not wait: full, it ignores it. */
  function Offered(cancel: Option<string>, reason: string): Option<string> {
    if cancel.None? then Some(reason) else cancel
  }

  function Told(x: Session, reason: string): Session {
    x.(cancel := Offered(x.cancel, reason), told := true)
  }

  ghost function Next(s: State, a: Action): State
    requires Enabled(s, a)
  {
    match a
    case Arm(hash, session, endpoint, expires, now) =>
      s.(expects := Armed(s.expects, hash, Expect(session, endpoint, expires, s.serials), now),
         serials := s.serials + 1)
    case Claim(hash, endpoint, now, id) =>
      var s1 := s.(expects := s.expects - {hash});
      (match ClaimOutcome(s.expects, s.live.Keys, hash, endpoint, now)
       case Granted(e) =>
         s1.(live := s.live[endpoint := id], redeemed := s.redeemed + [e.serial],
             sessions := s.sessions[id := Session(e.session, endpoint, None, false, Claimed)])
       case _ => s1)
    case CutMiss(uuid) => s.(expects := Disarmed(s.expects, uuid))
    case CutHit(uuid, reason, id) =>
      s.(expects := Disarmed(s.expects, uuid),
         pending := s.pending + [Sending(id, if reason == "" then REVOKED else reason)])
    case Reload(hosts, _, cut) => s.(hosts := hosts, pending := s.pending + Sends(cut))
    case SendReason(k) =>
      var p, rest := s.pending[k], s.(pending := s.pending[..k] + s.pending[k + 1..]);
      if p.target in s.sessions
      then rest.(sessions := s.sessions[p.target := Told(s.sessions[p.target], p.reason)]) else rest
    case StartRun(id) => WithPhase(s, id, Running)
    case EndRun(id) => WithPhase(s, id, Finishing)
    case TakeReason(id) =>
      WithPhase(s.(sessions := s.sessions[id := s.sessions[id].(cancel := None)]), id, Finishing)
    case Release(id) =>
      var endpoint := s.sessions[id].endpoint;
      WithPhase(if endpoint in s.live && s.live[endpoint] == id then s.(live := s.live - {endpoint}) else s, id, Gone)
  }

  // ----- The invariant

  /** A session occupies its endpoint from its claim to its release. */
  ghost predicate Occupancy(s: State) {
    && (forall id :: id in s.sessions ==> (s.sessions[id].phase != Gone <==> IsLive(s, id)))
    && (forall e :: e in s.live ==> s.live[e] in s.sessions && s.sessions[s.live[e]].endpoint == e)
  }

  /** Serials in use are distinct, and none in use has been redeemed. */
  ghost predicate SingleUse(expects: map<string, Expect>, serials: nat, redeemed: seq<nat>) {
    && (forall h :: h in expects ==> expects[h].serial < serials && expects[h].serial !in redeemed)
    && (forall h, g :: h in expects && g in expects && h != g ==> expects[h].serial != expects[g].serial)
    && (forall i :: 0 <= i < |redeemed| ==> redeemed[i] < serials)
    && (forall i, j :: 0 <= i < j < |redeemed| ==> redeemed[i] != redeemed[j])
  }

  /** A reason once sent waits in the channel until the run takes it. */
  ghost predicate ReasonWaits(s: State) {
    forall id :: id in s.sessions && s.sessions[id].told && s.sessions[id].phase in {Claimed, Running}
                 ==> s.sessions[id].cancel.Some?
  }

  ghost predicate PendingKnown(s: State) {
    forall k :: 0 <= k < |s.pending| ==> s.pending[k].target in s.sessions
  }

  ghost predicate Inv(s: State) {
    Occupancy(s) && SingleUse(s.expects, s.serials, s.redeemed) && ReasonWaits(s) && PendingKnown(s)
  }

  lemma ArmKeeps(s: State, hash: string, session: string, endpoint: string, expires: int, now: int)
    requires Inv(s)
    ensures Inv(Next(s, Arm(hash, session, endpoint, expires, now)))
  {
    var s' := Next(s, Arm(hash, session, endpoint, expires, now));
    assert forall id :: IsLive(s', id) <==> IsLive(s, id);
  }

  lemma SingleUseSmaller(small: map<string, Expect>, expects: map<string, Expect>, serials: nat, redeemed: seq<nat>)
    requires SingleUse(expects, serials, redeemed) && small.Keys <= expects.Keys
    requires forall h :: h in small ==> small[h] == expects[h]
    ensures SingleUse(small, serials, redeemed)
  {
  }

  lemma RedeemKeepsSingleUse(expects: map<string, Expect>, serials: nat, redeemed: seq<nat>, hash: string)
    requires SingleUse(expects, serials, redeemed) && hash in expects
    ensures SingleUse(expects - {hash}, serials, redeemed + [expects[hash].serial])
  {
    var r := redeemed + [expects[hash].serial];
    forall i, j | 0 <= i < j < |r| ensures r[i] != r[j] {
      if j == |redeemed| {
        assert r[i] == redeemed[i] && redeemed[i] in redeemed;
      }
    }
  }

  lemma ClaimKeeps(s: State, hash: string, endpoint: string, now: int, id: nat)
    requires Inv(s) && id !in s.sessions
    ensures Inv(Next(s, Claim(hash, endpoint, now, id)))
  {
    hide SingleUse;
    var s' := Next(s, Claim(hash, endpoint, now, id));
    if ClaimOutcome(s.expects, s.live.Keys, hash, endpoint, now).Granted? {
      RedeemKeepsSingleUse(s.expects, s.serials, s.redeemed, hash);
      assert forall x :: x in s.sessions ==> s'.sessions[x] == s.sessions[x];
      forall x | x in s'.sessions ensures s'.sessions[x].phase != Gone <==> IsLive(s', x) {
        if x != id {
          assert IsLive(s, x) <==> IsLive(s', x);
        }
      }
    } else {
      SingleUseSmaller(s.expects - {hash}, s.expects, s.serials, s.redeemed);
      assert forall x :: IsLive(s', x) <==> IsLive(s, x);
    }
  }

  lemma QuietKeeps(s: State, a: Action)
    requires Inv(s) && Enabled(s, a) && (a.CutMiss? || a.CutHit? || a.Reload?)
    ensures Inv(Next(s, a))
  {
    hide SingleUse;
    var s' := Next(s, a);
    assert forall x :: IsLive(s', x) <==> IsLive(s, x);
    SingleUseSmaller(s'.expects, s.expects, s.serials, s.redeemed);
    if a.Reload? {
      forall k | 0 <= k < |s'.pending| ensures s'.pending[k].target in s'.sessions {
        if k >= |s.pending| {
          assert a.cut[k - |s.pending|] in a.cut;
        }
      }
    }
  }

  lemma SendKeeps(s: State, k: nat)
    requires Inv(s) && Enabled(s, SendReason(k))
    ensures Inv(Next(s, SendReason(k)))
  {
    hide SingleUse;
    var s' := Next(s, SendReason(k));
    assert forall x :: IsLive(s', x) <==> IsLive(s, x);
  }

  lemma PhaseKeeps(s: State, id: nat, phase: Phase)
    requires Inv(s) && id in s.sessions
    requires (s.sessions[id].phase, phase) in {(Claimed, Running), (Running, Finishing)}
    ensures Inv(WithPhase(s, id, phase))
  {
    hide SingleUse;
    var s' := WithPhase(s, id, phase);
    assert forall x :: IsLive(s', x) <==> IsLive(s, x);
  }

  lemma TakeKeeps(s: State, id: nat)
    requires Inv(s) && Enabled(s, TakeReason(id))
    ensures Inv(Next(s, TakeReason(id)))
  {
    hide SingleUse;
    var s' := Next(s, TakeReason(id));
    assert forall x :: IsLive(s', x) <==> IsLive(s, x);
  }

  lemma ReleaseKeeps(s: State, id: nat)
    requires Inv(s) && Enabled(s, Release(id))
    ensures Inv(Next(s, Release(id)))
  {
    hide SingleUse;
    var s' := Next(s, Release(id));
    assert IsLive(s, id);
    forall x | x in s'.sessions ensures s'.sessions[x].phase != Gone <==> IsLive(s', x) {
      if x != id {
        assert IsLive(s, x) <==> IsLive(s', x);
      }
    }
  }

  lemma StartKeeps(s: State, id: nat)
    requires Inv(s) && Enabled(s, StartRun(id))
    ensures Inv(Next(s, StartRun(id)))
  {
    hide Inv;
    PhaseKeeps(s, id, Running);
  }

  lemma EndKeeps(s: State, id: nat)
    requires Inv(s) && Enabled(s, EndRun(id))
    ensures Inv(Next(s, EndRun(id)))
  {
    hide Inv;
    PhaseKeeps(s, id, Finishing);
  }

  lemma StepKeeps(s: State, a: Action)
    requires Inv(s) && Enabled(s, a)
    ensures Inv(Next(s, a))
  {
    hide Inv, Next;
    match a
    case Arm(hash, session, endpoint, expires, now) => ArmKeeps(s, hash, session, endpoint, expires, now);
    case Claim(hash, endpoint, now, id) => ClaimKeeps(s, hash, endpoint, now, id);
    case CutMiss(_) => QuietKeeps(s, a);
    case CutHit(_, _, _) => QuietKeeps(s, a);
    case Reload(_, _, _) => QuietKeeps(s, a);
    case SendReason(k) => SendKeeps(s, k);
    case StartRun(id) => StartKeeps(s, id);
    case EndRun(id) => EndKeeps(s, id);
    case TakeReason(id) => TakeKeeps(s, id);
    case Release(id) => ReleaseKeeps(s, id);
  }

  // ----- Runs

  ghost predicate IsRun(states: seq<State>, actions: seq<Action>) {
    && |states| == |actions| + 1 && states[0] == START
    && forall i :: 0 <= i < |actions| ==> Enabled(states[i], actions[i]) && states[i + 1] == Next(states[i], actions[i])
  }

  lemma {:induction false} RunKeeps(states: seq<State>, actions: seq<Action>, i: nat)
    requires IsRun(states, actions) && i < |states|
    ensures Inv(states[i])
  {
    hide Inv, Next, Enabled;
    if i == 0 {
      StartInv();
    } else {
      RunKeeps(states, actions, i - 1);
      StepKeeps(states[i - 1], actions[i - 1]);
    }
  }

  lemma StartInv()
    ensures Inv(START)
  {
  }

  /** Each arming is redeemed at most once. */
  lemma RedeemedOnce(states: seq<State>, actions: seq<Action>, i: nat)
    requires IsRun(states, actions) && i < |states|
    ensures forall j, k :: 0 <= j < k < |states[i].redeemed| ==> states[i].redeemed[j] != states[i].redeemed[k]
  {
    RunKeeps(states, actions, i);
  }

  /** At most one unreleased session per endpoint. */
  lemma OneSessionPerEndpoint(states: seq<State>, actions: seq<Action>, i: nat, x: nat, y: nat)
    requires IsRun(states, actions) && i < |states| && x in states[i].sessions && y in states[i].sessions
    requires states[i].sessions[x].phase != Gone && states[i].sessions[y].phase != Gone
    requires states[i].sessions[x].endpoint == states[i].sessions[y].endpoint
    ensures x == y
  {
    RunKeeps(states, actions, i);
    assert IsLive(states[i], x) && IsLive(states[i], y);
  }

  lemma StaysUnreleased(s: State, a: Action, id: nat)
    requires Enabled(s, a) && a != Release(id) && id in s.sessions && s.sessions[id].phase != Gone
    ensures var s' := Next(s, a);
      id in s'.sessions && s'.sessions[id].phase != Gone && s'.sessions[id].endpoint == s.sessions[id].endpoint
  {
  }

  /** Until its own handler releases it, a session keeps its endpoint, whatever else happens. */
  lemma {:induction false} OccupiedUntilReleased(states: seq<State>, actions: seq<Action>, i: nat, j: nat, id: nat)
    requires IsRun(states, actions) && i <= j < |states| && IsLive(states[i], id)
    requires Release(id) !in actions[i..j]
    ensures IsLive(states[j], id) && states[j].sessions[id].endpoint == states[i].sessions[id].endpoint
  {
    hide Next, Enabled, SingleUse, ReasonWaits, PendingKnown;
    if i < j {
      assert actions[i..j][..j - 1 - i] == actions[i..j - 1] && actions[i..j][j - 1 - i] == actions[j - 1];
      OccupiedUntilReleased(states, actions, i, j - 1, id);
      RunKeeps(states, actions, j - 1);
      RunKeeps(states, actions, j);
      StaysUnreleased(states[j - 1], actions[j - 1], id);
    }
  }

  /** The release of a session frees its endpoint and no other. */
  lemma ReleaseFrees(states: seq<State>, actions: seq<Action>, i: nat)
    requires IsRun(states, actions) && i < |actions| && actions[i].Release?
    ensures states[i + 1].live == states[i].live - {states[i].sessions[actions[i].id].endpoint}
    ensures states[i].sessions[actions[i].id].endpoint in states[i].live
  {
    hide SingleUse, ReasonWaits, PendingKnown;
    RunKeeps(states, actions, i);
    assert IsLive(states[i], actions[i].id);
  }

  /** A session that was sent a reason before its run began finds it there when it runs. */
  lemma EarlyCutIsHonoured(states: seq<State>, actions: seq<Action>, i: nat, id: nat)
    requires IsRun(states, actions) && i < |states| && id in states[i].sessions
    requires states[i].sessions[id].told && states[i].sessions[id].phase == Running
    ensures Enabled(states[i], TakeReason(id))
  {
    RunKeeps(states, actions, i);
  }

  // ----- What a cut achieves

  ghost predicate IsPending(s: State, id: nat) {
    exists k :: 0 <= k < |s.pending| && s.pending[k].target == id
  }

  /** Neither armed nor live without an end reason, sent or about to be. */
  ghost predicate CutOff(s: State, uuid: string) {
    && (forall h :: h in s.expects ==> s.expects[h].session != uuid)
    && forall id :: IsLive(s, id) && s.sessions[id].uuid == uuid ==> s.sessions[id].told || IsPending(s, id)
  }

  /** A cut that finds no live session leaves none armed either. */
  lemma CutMissCuts(s: State, uuid: string)
    requires Enabled(s, CutMiss(uuid))
    ensures CutOff(Next(s, CutMiss(uuid)), uuid)
  {
    var s' := Next(s, CutMiss(uuid));
    assert forall x :: IsLive(s', x) <==> IsLive(s, x);
  }

  /** The code cuts one live session of that name, so the cut is complete exactly when any
      other one of the same name has been dealt with already. */
  lemma CutHitCutsExactly(s: State, uuid: string, reason: string, id: nat)
    requires Enabled(s, CutHit(uuid, reason, id))
    ensures CutOff(Next(s, CutHit(uuid, reason, id)), uuid)
       <==> forall x :: IsLive(s, x) && s.sessions[x].uuid == uuid && x != id ==> s.sessions[x].told || IsPending(s, x)
  {
    var s' := Next(s, CutHit(uuid, reason, id));
    assert forall x :: IsLive(s', x) <==> IsLive(s, x);
    forall x ensures IsPending(s', x) <==> IsPending(s, x) || x == id {
      if IsPending(s, x) {
        var k :| 0 <= k < |s.pending| && s.pending[k].target == x;
        assert s'.pending[k].target == x;
      }
      if x == id {
        assert s'.pending[|s.pending|].target == x;
      }
      if IsPending(s', x) && x != id {
        var k :| 0 <= k < |s'.pending| && s'.pending[k].target == x;
        assert s.pending[k].target == x;
      }
    }
  }

  /** Two sessions armed under one name: a cut leaves the other running untold. */
  lemma SharedNameSurvives()
    ensures var s1 := Next(START, Arm("g", "u", "e", 60, 0));
      var s2 := Next(s1, Arm("h", "u", "f", 60, 0));
      var s3 := Next(s2, Claim("g", "e", 0, 0));
      var s4 := Next(s3, Claim("h", "f", 0, 1));
      Enabled(s4, CutHit("u", "", 0)) && !CutOff(Next(s4, CutHit("u", "", 0)), "u")
  {
    var s1 := Next(START, Arm("g", "u", "e", 60, 0));
    var s2 := Next(s1, Arm("h", "u", "f", 60, 0));
    assert "g"[0] != "h"[0] && "e"[0] != "f"[0];
    assert s2.expects["g"] == Expect("u", "e", 60, 0) && s2.expects["h"] == Expect("u", "f", 60, 1);
    var s3 := Next(s2, Claim("g", "e", 0, 0));
    assert s3.expects["h"] == Expect("u", "f", 60, 1) && s3.live == map["e" := 0];
    var s4 := Next(s3, Claim("h", "f", 0, 1));
    assert s4.live["e"] == 0 && s4.live["f"] == 1;
    assert IsLive(s4, 0) && IsLive(s4, 1) && !s4.sessions[1].told && s4.pending == [];
    CutHitCutsExactly(s4, "u", "", 0);
  }

  // ----- Sessions minted once

  /** Every name armed so far was armed once: it is armed, or claimed, at most once. */
  ghost predicate MintedOnce(expects: map<string, Expect>, sessions: map<nat, Session>, minted: set<string>) {
    && (forall h :: h in expects ==> expects[h].session in minted)
    && (forall id :: id in sessions ==> sessions[id].uuid in minted)
    && (forall h, g :: h in expects && g in expects && h != g ==> expects[h].session != expects[g].session)
    && (forall h, id :: h in expects && id in sessions ==> expects[h].session != sessions[id].uuid)
    && (forall x, y :: x in sessions && y in sessions && x != y ==> sessions[x].uuid != sessions[y].uuid)
  }

  lemma MintedOnceSmaller(small: map<string, Expect>, expects: map<string, Expect>,
                          sessions': map<nat, Session>, sessions: map<nat, Session>, minted: set<string>)
    requires MintedOnce(expects, sessions, minted) && small.Keys <= expects.Keys && sessions'.Keys == sessions.Keys
    requires forall h :: h in small ==> small[h] == expects[h]
    requires forall id :: id in sessions ==> sessions'[id].uuid == sessions[id].uuid
    ensures MintedOnce(small, sessions', minted)
  {
  }

  ghost function MintedBy(actions: seq<Action>): set<string> {
    set i | 0 <= i < |actions| && actions[i].Arm? :: actions[i].session
  }

  /** No name is armed twice. */
  ghost predicate FreshMints(actions: seq<Action>) {
    forall i, j :: 0 <= i < j < |actions| && actions[i].Arm? && actions[j].Arm?
                   ==> actions[i].session != actions[j].session
  }

  lemma ArmMintsOnce(s: State, hash: string, session: string, endpoint: string, expires: int, now: int,
                     minted: set<string>)
    requires MintedOnce(s.expects, s.sessions, minted) && session !in minted
    ensures var s' := Next(s, Arm(hash, session, endpoint, expires, now));
      MintedOnce(s'.expects, s'.sessions, minted + {session})
  {
  }

  lemma ClaimMintsOnce(s: State, hash: string, endpoint: string, now: int, id: nat, minted: set<string>)
    requires MintedOnce(s.expects, s.sessions, minted) && id !in s.sessions
    ensures var s' := Next(s, Claim(hash, endpoint, now, id)); MintedOnce(s'.expects, s'.sessions, minted)
  {
  }

  lemma OtherMintsOnce(s: State, a: Action, minted: set<string>)
    requires MintedOnce(s.expects, s.sessions, minted) && Enabled(s, a) && !a.Arm? && !a.Claim?
    ensures MintedOnce(Next(s, a).expects, Next(s, a).sessions, minted)
  {
    hide MintedOnce;
    var s' := Next(s, a);
    MintedOnceSmaller(s'.expects, s.expects, s'.sessions, s.sessions, minted);
  }

  lemma MintedGrows(actions: seq<Action>, i: nat)
    requires i < |actions|
    ensures MintedBy(actions[..i + 1]) == MintedBy(actions[..i]) + if actions[i].Arm? then {actions[i].session} else {}
    ensures FreshMints(actions) && actions[i].Arm? ==> actions[i].session !in MintedBy(actions[..i])
  {
    var a, b := actions[..i], actions[..i + 1];
    forall x | x in MintedBy(b)
      ensures x in MintedBy(a) + if actions[i].Arm? then {actions[i].session} else {}
    {
      var j :| 0 <= j < |b| && b[j].Arm? && b[j].session == x;
      if j < i {
        assert a[j] == b[j];
      }
    }
    forall x | x in MintedBy(a) ensures x in MintedBy(b) {
      var j :| 0 <= j < |a| && a[j].Arm? && a[j].session == x;
      assert b[j] == a[j];
    }
    if actions[i].Arm? {
      assert b[i] == actions[i];
    }
    forall j | 0 <= j < |a| && a[j].Arm? && FreshMints(actions) && actions[i].Arm?
      ensures a[j].session != actions[i].session
    {
      assert a[j] == actions[j];
    }
  }

  lemma {:induction false} RunMintsOnce(states: seq<State>, actions: seq<Action>, i: nat)
    requires IsRun(states, actions) && FreshMints(actions) && i < |states|
    ensures MintedOnce(states[i].expects, states[i].sessions, MintedBy(actions[..i]))
  {
    hide MintedOnce, Next, Enabled, FreshMints, MintedBy;
    if i == 0 {
      NothingMinted(actions);
    } else {
      RunMintsOnce(states, actions, i - 1);
      MintedGrows(actions, i - 1);
      OneStepMintsOnce(states[i - 1], actions[i - 1], MintedBy(actions[..i - 1]), MintedBy(actions[..i]));
    }
  }

  lemma NothingMinted(actions: seq<Action>)
    ensures MintedOnce(START.expects, START.sessions, MintedBy(actions[..0]))
  {
  }

  lemma OneStepMintsOnce(s: State, a: Action, before: set<string>, after: set<string>)
    requires MintedOnce(s.expects, s.sessions, before) && Enabled(s, a)
    requires after == before + (if a.Arm? then {a.session} else {}) && (a.Arm? ==> a.session !in before)
    ensures MintedOnce(Next(s, a).expects, Next(s, a).sessions, after)
  {
    hide MintedOnce;
    match a {
      case Arm(hash, session, endpoint, expires, now) => ArmMintsOnce(s, hash, session, endpoint, expires, now, before);
      case Claim(hash, endpoint, now, id) => ClaimMintsOnce(s, hash, endpoint, now, id, before);
      case _ => OtherMintsOnce(s, a, before);
    }
    assert !a.Arm? ==> after == before;
  }

  // ----- A cut holds

  /** Every step but a new arming of the name leaves it cut off. */
  lemma CutStays(s: State, a: Action, uuid: string)
    requires Inv(s) && Enabled(s, a) && CutOff(s, uuid) && (a.Arm? ==> a.session != uuid)
    ensures CutOff(Next(s, a), uuid)
  {
    hide SingleUse, ReasonWaits;
    var s' := Next(s, a);
    forall x | IsLive(s', x) && s'.sessions[x].uuid == uuid ensures s'.sessions[x].told || IsPending(s', x) {
      assert IsLive(s, x) && s.sessions[x].uuid == uuid;
      if IsPending(s, x) {
        PendingStays(s, a, x);
      }
    }
  }

  /** A reason on its way stays so until it is sent. */
  lemma PendingStays(s: State, a: Action, x: nat)
    requires Enabled(s, a) && IsPending(s, x) && x in s.sessions
    ensures IsPending(Next(s, a), x) || (x in Next(s, a).sessions && Next(s, a).sessions[x].told)
  {
    var s' := Next(s, a);
    var k :| 0 <= k < |s.pending| && s.pending[k].target == x;
    if a.SendReason? {
      if k < a.k {
        assert s'.pending[k] == s.pending[k];
      } else if k > a.k {
        assert s'.pending[k - 1] == s.pending[k];
      }
    } else {
      assert s'.pending[k] == s.pending[k];
    }
  }

  /** From a state where the name is cut off to any later one, it stays cut off unless it is
      armed again. */
  lemma {:induction false} CutHolds(states: seq<State>, actions: seq<Action>, i: nat, j: nat, uuid: string)
    requires IsRun(states, actions) && i <= j < |states| && CutOff(states[i], uuid)
    requires forall m :: i <= m < j && actions[m].Arm? ==> actions[m].session != uuid
    ensures CutOff(states[j], uuid)
    decreases j
  {
    hide Next, Enabled, Inv, CutOff;
    if i < j {
      CutHolds(states, actions, i, j - 1, uuid);
      RunKeeps(states, actions, j - 1);
      CutStays(states[j - 1], actions[j - 1], uuid);
    }
  }

  ghost predicate IsCut(a: Action) {
    a.CutHit? || a.CutMiss?
  }

  /** When every session name is armed once, every cut in every run is complete, wherever the
      handler of the session stands. */
  lemma CutCompletes(states: seq<State>, actions: seq<Action>, i: nat)
    requires IsRun(states, actions) && FreshMints(actions) && i < |actions| && IsCut(actions[i])
    ensures CutOff(states[i + 1], actions[i].uuid)
  {
    hide Next, FreshMints, CutOff;
    RunMintsOnce(states, actions, i);
    if actions[i].CutHit? {
      CutHitCutsExactly(states[i], actions[i].uuid, actions[i].reason, actions[i].target);
    } else {
      CutMissCuts(states[i], actions[i].uuid);
    }
  }

  /** ... and it stays complete in every later state, if the name had been armed before the cut:
      the session is never again armed, nor live without its end reason sent or on its way. */
  lemma CutIsComplete(states: seq<State>, actions: seq<Action>, i: nat, j: nat)
    requires IsRun(states, actions) && FreshMints(actions) && i < |actions| && IsCut(actions[i])
    requires actions[i].uuid in MintedBy(actions[..i]) && i < j < |states|
    ensures CutOff(states[j], actions[i].uuid)
  {
    CutCompletes(states, actions, i);
    hide Next, Enabled, CutOff, IsRun;
    var m :| 0 <= m < i && actions[..i][m].Arm? && actions[..i][m].session == actions[i].uuid;
    assert actions[m] == actions[..i][m];
    CutHolds(states, actions, i + 1, j, actions[i].uuid);
  }

  lemma ToldStays(s: State, a: Action, x: nat)
    requires Enabled(s, a) && x in s.sessions && s.sessions[x].told
    ensures x in Next(s, a).sessions && Next(s, a).sessions[x].told
  {
  }

  /** Once its reason has been sent, a session has been told, for good. */
  lemma {:induction false} SentIsTold(states: seq<State>, actions: seq<Action>, m: nat, j: nat)
    requires IsRun(states, actions) && m < j < |states| && actions[m].SendReason?
    ensures actions[m].k < |states[m].pending|
    ensures var x := states[m].pending[actions[m].k].target; x in states[j].sessions && states[j].sessions[x].told
    decreases j
  {
    assert Enabled(states[m], actions[m]);
    hide Inv, Next;
    if j == m + 1 {
      RunKeeps(states, actions, m);
      SendTells(states[m], actions[m].k);
    } else {
      SentIsTold(states, actions, m, j - 1);
      ToldStays(states[j - 1], actions[j - 1], states[m].pending[actions[m].k].target);
    }
  }

  /** A pending reason, once sent, has told its session. */
  lemma SendTells(s: State, k: nat)
    requires Inv(s) && k < |s.pending|
    ensures var s', x := Next(s, SendReason(k)), s.pending[k].target; x in s'.sessions && s'.sessions[x].told
  {
  }
}
