/** End reasons: where they come from, that the first one counts, and what a reload achieves. */
module IngressReasons {
  import opened Ingress
  import opened Wrappers

  /** The first reason sent to a session is the one its run takes: it stays until then. */
  lemma {:induction false} FirstReasonStays(states: seq<State>, actions: seq<Action>, m: nat, j: nat, id: nat)
    requires IsRun(states, actions) && m < j < |states| && actions[m].SendReason?
    requires var p := states[m].pending[actions[m].k];
      p.target == id && id in states[m].sessions && states[m].sessions[id].cancel.None?
    requires TakeReason(id) !in actions[m..j]
    ensures id in states[j].sessions && states[j].sessions[id].cancel == Some(states[m].pending[actions[m].k].reason)
    decreases j
  {
    assert Enabled(states[j - 1], actions[j - 1]);
    if j > m + 1 {
      assert actions[m..j][..j - 1 - m] == actions[m..j - 1] && actions[m..j][j - 1 - m] == actions[j - 1];
      FirstReasonStays(states, actions, m, j - 1, id);
      ReasonStays(states[j - 1], actions[j - 1], id);
      hide Next, Enabled;
    } else {
      ReasonArrives(states[m], actions[m].k);
      hide Next, Enabled;
    }
  }

  lemma ReasonArrives(s: State, k: nat)
    requires k < |s.pending| && s.pending[k].target in s.sessions && s.sessions[s.pending[k].target].cancel.None?
    ensures var s', x := Next(s, SendReason(k)), s.pending[k].target;
      x in s'.sessions && s'.sessions[x].cancel == Some(s.pending[k].reason)
  {
  }

  lemma ReasonStays(s: State, a: Action, id: nat)
    requires Enabled(s, a) && id in s.sessions && s.sessions[id].cancel.Some? && a != TakeReason(id)
    ensures id in Next(s, a).sessions && Next(s, a).sessions[id].cancel == s.sessions[id].cancel
  {
  }

  // ----- Where reasons come from

  /** Step `a` gave session `id` this reason: a cut its own, or "revoked" for none, a reload "revoked". */
  ghost predicate Gives(a: Action, id: nat, reason: string) {
    || (a.CutHit? && a.target == id && reason == if a.reason != "" then a.reason else "revoked")
    || (a.Reload? && id in a.cut && reason == "revoked")
  }

  ghost predicate GivenBefore(actions: seq<Action>, i: nat, id: nat, reason: string) {
    exists m :: 0 <= m < i <= |actions| && Gives(actions[m], id, reason)
  }

  lemma PendingStep(s: State, a: Action, k: nat)
    requires Enabled(s, a) && k < |Next(s, a).pending|
    ensures Next(s, a).pending[k] in s.pending || Gives(a, Next(s, a).pending[k].target, Next(s, a).pending[k].reason)
  {
    var p := Next(s, a).pending[k];
    if a.SendReason? {
      assert p == if k < a.k then s.pending[k] else s.pending[k + 1];
    } else if a.Reload? && k >= |s.pending| {
      assert p.target == a.cut[k - |s.pending|];
    } else if k < |s.pending| {
      assert p == s.pending[k];
    }
  }

  lemma {:induction false} PendingWasGiven(states: seq<State>, actions: seq<Action>, i: nat, k: nat)
    requires IsRun(states, actions) && i < |states| && k < |states[i].pending|
    ensures GivenBefore(actions, i, states[i].pending[k].target, states[i].pending[k].reason)
    decreases i
  {
    var p := states[i].pending[k];
    hide Next, Enabled, Gives;
    PendingStep(states[i - 1], actions[i - 1], k);
    if p in states[i - 1].pending {
      var l :| 0 <= l < |states[i - 1].pending| && states[i - 1].pending[l] == p;
      PendingWasGiven(states, actions, i - 1, l);
    }
  }

  lemma CancelStep(s: State, a: Action, id: nat)
    requires Enabled(s, a) && id in Next(s, a).sessions && Next(s, a).sessions[id].cancel.Some?
    ensures (id in s.sessions && s.sessions[id].cancel == Next(s, a).sessions[id].cancel)
         || (a.SendReason? && a.k < |s.pending| && s.pending[a.k] == Sending(id, Next(s, a).sessions[id].cancel.value))
  {
  }

  /** Every reason in a session's channel was given by an earlier cut of that session or by an
      earlier reload that dropped its endpoint. */
  lemma {:induction false} ReasonsWereGiven(states: seq<State>, actions: seq<Action>, i: nat, id: nat)
    requires IsRun(states, actions) && i < |states| && id in states[i].sessions && states[i].sessions[id].cancel.Some?
    ensures GivenBefore(actions, i, id, states[i].sessions[id].cancel.value)
    decreases i
  {
    hide Next, Enabled, Gives;
    var s, a := states[i - 1], actions[i - 1];
    CancelStep(s, a, id);
    if id in s.sessions && s.sessions[id].cancel == states[i].sessions[id].cancel {
      ReasonsWereGiven(states, actions, i - 1, id);
    } else {
      PendingWasGiven(states, actions, i - 1, a.k);
    }
  }

  // ----- What a reload achieves

  /** A reload gives a reason to every live session whose endpoint left the table and to no other. */
  lemma ReloadGives(s: State, a: Action, id: nat)
    requires Enabled(s, a) && a.Reload?
    ensures IsPending(Next(s, a), id) <==>
      IsPending(s, id) || (IsLive(s, id) && s.sessions[id].endpoint !in a.known)
  {
    var s' := Next(s, a);
    if IsPending(s, id) {
      var k :| 0 <= k < |s.pending| && s.pending[k].target == id;
      assert s'.pending[k].target == id;
    }
    if id in a.cut {
      var k :| 0 <= k < |a.cut| && a.cut[k] == id;
      assert s'.pending[|s.pending| + k].target == id;
    }
    if IsPending(s', id) {
      var k :| 0 <= k < |s'.pending| && s'.pending[k].target == id;
      assert k < |s.pending| ==> s.pending[k].target == id;
      assert k >= |s.pending| ==> a.cut[k - |s.pending|] == id;
    }
  }

  /** From then on that session has been told, or is about to be. */
  lemma {:induction false} ReloadHolds(states: seq<State>, actions: seq<Action>, i: nat, j: nat, id: nat)
    requires IsRun(states, actions) && i < j < |states| && actions[i].Reload?
    requires IsLive(states[i], id) && states[i].sessions[id].endpoint !in actions[i].known
    ensures id in states[j].sessions && (states[j].sessions[id].told || IsPending(states[j], id))
    decreases j
  {
    assert Enabled(states[j - 1], actions[j - 1]);
    if j == i + 1 {
      ReloadGives(states[i], actions[i], id);
      hide IsPending;
    } else {
      hide Enabled, Next, IsPending;
      ReloadHolds(states, actions, i, j - 1, id);
      SessionsStay(states[j - 1], actions[j - 1], id);
      if states[j - 1].sessions[id].told {
        ToldStays(states[j - 1], actions[j - 1], id);
      } else {
        PendingStays(states[j - 1], actions[j - 1], id);
      }
    }
  }

  lemma SessionsStay(s: State, a: Action, id: nat)
    requires Enabled(s, a) && id in s.sessions
    ensures id in Next(s, a).sessions
  {
  }

  // ----- A handler can always finish

  /** The steps of its own handler that release a session, from wherever it stands. */
  function WayOut(phase: Phase, id: nat): seq<Action> {
    match phase
    case Claimed => [Release(id)]
    case Running => [EndRun(id), Release(id)]
    case Finishing => [Release(id)]
    case Gone => []
  }

  ghost predicate Leads(s: State, actions: seq<Action>, to: State)
    decreases |actions|
  {
    if actions == [] then s == to
    else Enabled(s, actions[0]) && Leads(Next(s, actions[0]), actions[1..], to)
  }

  /** No unreleased session is stuck: two steps of its own handler free the endpoint. */
  lemma HandlerCanFinish(s: State, id: nat) returns (to: State)
    requires Inv(s) && id in s.sessions
    ensures Leads(s, WayOut(s.sessions[id].phase, id), to)
    ensures id in to.sessions && to.sessions[id].phase == Gone
    ensures s.sessions[id].phase != Gone ==> s.sessions[id].endpoint !in to.live
  {
    var phase := s.sessions[id].phase;
    to := s;
    if phase == Running {
      to := Next(to, EndRun(id));
      assert [EndRun(id), Release(id)][1..] == [Release(id)];
    }
    if phase != Gone {
      var before := to;
      to := Next(to, Release(id));
      assert [Release(id)][1..] == [];
      assert Leads(before, [Release(id)], to);
    }
  }
}
