/** Which claims are granted, told from the run alone: what was armed, claimed and cut before. */
module IngressTokens {
  import opened Ingress

  /** The token is armed again, forgotten as expired by a later arming, claimed, or cut. */
  ghost predicate Withdraws(a: Action, arming: Action)
    requires arming.Arm?
  {
    || (a.Arm? && (a.hash == arming.hash || arming.expires < a.now))
    || (a.Claim? && a.hash == arming.hash)
    || (IsCut(a) && a.uuid == arming.session)
  }

  /** What step `j` armed, no step before `i` has withdrawn. */
  ghost predicate StillArmed(actions: seq<Action>, j: nat, i: nat) {
    j < i <= |actions| && actions[j].Arm? && forall m :: j < m < i ==> !Withdraws(actions[m], actions[j])
  }

  ghost predicate ArmedAs(e: Expect, arming: Action)
    requires arming.Arm?
  {
    e.session == arming.session && e.endpoint == arming.endpoint && e.expires == arming.expires
  }

  lemma ArmStep(s: State, a: Action)
    requires Enabled(s, a) && a.Arm?
    ensures a.hash in Next(s, a).expects && ArmedAs(Next(s, a).expects[a.hash], a)
  {
  }

  /** What one step does to a token it does not arm. */
  lemma TokenStep(s: State, a: Action, h: string)
    requires Enabled(s, a) && !(a.Arm? && a.hash == h)
    ensures var s' := Next(s, a);
      && (h in s'.expects <==>
            && h in s.expects && !(a.Arm? && s.expects[h].expires < a.now) && !(a.Claim? && a.hash == h)
            && !(IsCut(a) && s.expects[h].session == a.uuid))
      && (h in s'.expects ==> s'.expects[h] == s.expects[h])
  {
  }

  /** A token in the table goes back to the arming that has not been withdrawn. */
  lemma {:induction false} LastArming(states: seq<State>, actions: seq<Action>, i: nat, h: string) returns (j: nat)
    requires IsRun(states, actions) && i < |states| && h in states[i].expects
    ensures StillArmed(actions, j, i) && actions[j].hash == h && ArmedAs(states[i].expects[h], actions[j])
    decreases i
  {
    var a := actions[i - 1];
    assert Enabled(states[i - 1], a);
    hide Next, Enabled;
    if a.Arm? && a.hash == h {
      ArmStep(states[i - 1], a);
      j := i - 1;
    } else {
      TokenStep(states[i - 1], a, h);
      j := LastArming(states, actions, i - 1, h);
    }
  }

  lemma ArmingStep(s: State, a: Action, arming: Action)
    requires Enabled(s, a) && arming.Arm? && !Withdraws(a, arming)
    requires arming.hash in s.expects && ArmedAs(s.expects[arming.hash], arming)
    ensures arming.hash in Next(s, a).expects && ArmedAs(Next(s, a).expects[arming.hash], arming)
  {
    hide Next, Enabled;
    TokenStep(s, a, arming.hash);
  }

  /** ... and an arming that has not been withdrawn is in the table. */
  lemma {:induction false} StaysArmed(states: seq<State>, actions: seq<Action>, j: nat, i: nat)
    requires IsRun(states, actions) && StillArmed(actions, j, i)
    ensures actions[j].hash in states[i].expects && ArmedAs(states[i].expects[actions[j].hash], actions[j])
    decreases i
  {
    hide Next, Enabled, Withdraws, ArmedAs;
    if j == i - 1 {
      ArmStep(states[j], actions[j]);
    } else {
      StaysArmed(states, actions, j, i - 1);
      ArmingStep(states[i - 1], actions[i - 1], actions[j]);
    }
  }

  /** No unreleased session holds the endpoint. */
  ghost predicate IsFree(s: State, endpoint: string) {
    forall id :: id in s.sessions && s.sessions[id].endpoint == endpoint ==> s.sessions[id].phase == Gone
  }

  lemma FreeIsNotLive(s: State, endpoint: string)
    requires Inv(s)
    ensures IsFree(s, endpoint) <==> endpoint !in s.live
  {
    hide SingleUse, ReasonWaits, PendingKnown;
    if endpoint in s.live {
      assert IsLive(s, s.live[endpoint]);
    }
  }

  /** Step `c` may claim what step `j` armed: its own endpoint's token, in time. */
  ghost predicate Redeems(actions: seq<Action>, j: nat, c: nat)
    requires c < |actions| && actions[c].Claim?
  {
    && StillArmed(actions, j, c) && actions[j].hash == actions[c].hash
    && actions[j].endpoint == actions[c].endpoint && actions[j].expires >= actions[c].now
  }

  lemma ClaimStep(s: State, a: Action)
    requires Enabled(s, a) && a.Claim?
    ensures a.id in Next(s, a).sessions <==>
      && a.hash in s.expects && s.expects[a.hash].endpoint == a.endpoint && s.expects[a.hash].expires >= a.now
      && a.endpoint !in s.live
    ensures a.id in Next(s, a).sessions ==>
      Next(s, a).sessions[a.id].uuid == s.expects[a.hash].session && Next(s, a).sessions[a.id].endpoint == a.endpoint
  {
  }

  /** A claim opens a session exactly when its token was armed for that endpoint, has neither
      expired nor been withdrawn, and no unreleased session holds the endpoint. */
  lemma GrantedExactly(states: seq<State>, actions: seq<Action>, c: nat)
    requires IsRun(states, actions) && c < |actions| && actions[c].Claim?
    ensures actions[c].id in states[c + 1].sessions <==>
      (exists j :: Redeems(actions, j, c)) && IsFree(states[c], actions[c].endpoint)
  {
    var a, s := actions[c], states[c];
    assert Enabled(s, a);
    RunKeeps(states, actions, c);
    hide Next, Enabled, Inv;
    ClaimStep(s, a);
    FreeIsNotLive(s, a.endpoint);
    if a.hash in s.expects {
      var j := LastArming(states, actions, c, a.hash);
      assert s.expects[a.hash].endpoint == a.endpoint && s.expects[a.hash].expires >= a.now ==> Redeems(actions, j, c);
    }
    if j :| Redeems(actions, j, c) {
      StaysArmed(states, actions, j, c);
    }
  }

  /** The session then bears the name it was armed under. */
  lemma GrantedName(states: seq<State>, actions: seq<Action>, j: nat, c: nat)
    requires IsRun(states, actions) && c < |actions| && actions[c].Claim? && Redeems(actions, j, c)
    requires actions[c].id in states[c + 1].sessions
    ensures states[c + 1].sessions[actions[c].id].uuid == actions[j].session
    ensures states[c + 1].sessions[actions[c].id].endpoint == actions[j].endpoint
  {
    assert Enabled(states[c], actions[c]);
    hide Next, Enabled;
    ClaimStep(states[c], actions[c]);
    StaysArmed(states, actions, j, c);
  }

  lemma SessionStep(s: State, a: Action, id: nat)
    requires Enabled(s, a) && id in Next(s, a).sessions && !(a.Claim? && a.id == id)
    ensures id in s.sessions && Next(s, a).sessions[id].uuid == s.sessions[id].uuid
    ensures Next(s, a).sessions[id].endpoint == s.sessions[id].endpoint
  {
  }

  /** Every session of every run goes back to one claim and from there to one arming: for the
      claim's hash, the session's endpoint and name, unexpired at the claim, not withdrawn. */
  lemma {:induction false} SessionsWereArmed(states: seq<State>, actions: seq<Action>, i: nat, id: nat)
    returns (j: nat, c: nat)
    requires IsRun(states, actions) && i < |states| && id in states[i].sessions
    ensures c < i && actions[c].Claim? && actions[c].id == id && Redeems(actions, j, c)
    ensures actions[j].session == states[i].sessions[id].uuid && actions[j].endpoint == states[i].sessions[id].endpoint
    decreases i
  {
    var a := actions[i - 1];
    assert Enabled(states[i - 1], a);
    hide Next, Enabled;
    if a.Claim? && a.id == id {
      c := i - 1;
      GrantedExactly(states, actions, c);
      j :| Redeems(actions, j, c);
      GrantedName(states, actions, j, c);
    } else {
      SessionStep(states[i - 1], a, id);
      j, c := SessionsWereArmed(states, actions, i - 1, id);
    }
  }
}
