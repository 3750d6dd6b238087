/** The scale-to-zero wake: polls the containers of a resource, starts each one once
    its needs are released, re-arms its deadline on progress, rolls back on failure. */
module Waker {
  import opened Text
  import opened WakeLog

  // ----- The environment

  /** One answer of the daemon or the clock; any sequence of answers is possible. */
  datatype Answer = Answer(ok: bool, state: ContainerState, delay: nat)

  datatype InspectResult = Found(state: ContainerState) | NotFound

  class Host {
    const script: nat -> Answer
    var calls: nat
    var time: int
    /** What happened since the wake attempt began. */
    ghost var log: seq<Event>

    constructor (script: nat -> Answer, time: int)
      ensures this.script == script && calls == 0 && this.time == time && log == []
    {
      this.script, calls, this.time, log := script, 0, time, [];
    }

    /** The readings in the log never go back, and none is ahead of the clock. */
    ghost predicate Timed()
      reads this
    {
      Forward(log) && forall i :: 0 <= i < |log| && log[i].Clock? ==> log[i].at <= time
    }

    /** The clock never goes back; any amount of time may have passed. */
    method Now() returns (t: int)
      modifies this
      ensures old(Timed()) ==> Timed()
      ensures t == time && time >= old(time) && log == old(log) + [Clock(t)]
      ensures time == old(time) + script(old(calls)).delay && calls == old(calls) + 1
    {
      time := time + script(calls).delay;
      calls := calls + 1;
      t := time;
      log := log + [Clock(t)];
    }

    method Inspect(name: string) returns (r: InspectResult)
      modifies this
      ensures old(Timed()) ==> Timed()
      ensures time == old(time)
      ensures log == old(log) + [if r.Found? then Inspected(name, r.state) else InspectFailed(name)]
      ensures r == if script(old(calls)).ok then Found(script(old(calls)).state) else NotFound
      ensures calls == old(calls) + 1
    {
      r := if script(calls).ok then Found(script(calls).state) else NotFound;
      calls := calls + 1;
      log := log + [if r.Found? then Inspected(name, r.state) else InspectFailed(name)];
    }

    method StartContainer(name: string) returns (ok: bool)
      modifies this
      ensures old(Timed()) ==> Timed()
      ensures time == old(time) && log == old(log) + [Start(name, ok)]
      ensures ok == script(old(calls)).ok && calls == old(calls) + 1
    {
      ok := script(calls).ok;
      calls := calls + 1;
      log := log + [Start(name, ok)];
    }

    method StopContainer(name: string) returns (ok: bool)
      modifies this
      ensures old(Timed()) ==> Timed()
      ensures time == old(time) && log == old(log) + [Stop(name, ok)]
      ensures ok == script(old(calls)).ok && calls == old(calls) + 1
    {
      ok := script(calls).ok;
      calls := calls + 1;
      log := log + [Stop(name, ok)];
    }

    /** Sleeps at least `d` unless the request is cancelled. */
    method Sleep(d: nat) returns (ok: bool)
      modifies this
      ensures old(Timed()) ==> Timed()
      ensures log == old(log) + [Slept(ok)] && time >= old(time) && (ok ==> time >= old(time) + d)
      ensures ok == script(old(calls)).ok && calls == old(calls) + 1
      ensures time == old(time) + script(old(calls)).delay + if ok then d else 0
    {
      ok := script(calls).ok;
      time := time + script(calls).delay + if ok then d else 0;
      calls := calls + 1;
      log := log + [Slept(ok)];
    }

    ghost method Note(e: Event)
      requires !e.Clock?
      modifies this`log
      ensures log == old(log) + [e] && (old(Timed()) ==> Timed())
    {
      log := log + [e];
    }
  }

  // ----- The attempt's bookkeeping

  datatype Progress = Progress(
    released: set<string>, startedByWake: set<string>, started: seq<string>, firstRunning: map<string, int>)

  /** The bookkeeping tells what the log tells. */
  ghost predicate Tracks(wakeSet: seq<Container>, stableFor: int, log: seq<Event>, s: Progress) {
    && SafeLog(wakeSet, stableFor, log)
    && s.released <= NamesIn(wakeSet) && (forall c :: c in s.released <==> Released(c) in log)
    && s.started == FirstStarts(log) && s.startedByWake == Elements(s.started)
    && s.firstRunning.Keys <= s.startedByWake
  }

  /** An open stability window was opened by the streak's first inspection; without one the
      container was last seen in another state, or started. */
  ghost predicate WindowOk(log: seq<Event>, s: Progress, c: string) {
    if c in s.firstRunning then StreakFrom(log, c, s.firstRunning[c]) else Broken(log, c)
  }

  /** The windows of the started containers; `except` is the one being examined. */
  ghost predicate Windows(log: seq<Event>, s: Progress, except: set<string>) {
    forall c :: c in s.startedByWake && c !in s.released && c !in except ==> WindowOk(log, s, c)
  }

  lemma StreakExtends(log: seq<Event>, c: string, t: int, e: Event)
    requires StreakFrom(log, c, t) && (About(e, c) ==> e == Inspected(c, STABLE))
    ensures StreakFrom(log + [e], c, t)
  {
    var p: nat :| StreakAt(log, c, t, p);
    StreakStays(log, log + [e], c, t, p);
  }

  lemma BrokenExtends(log: seq<Event>, c: string, e: Event)
    requires Broken(log, c) && !About(e, c)
    ensures Broken(log + [e], c)
  {
    var b: nat :| IsLastAbout(log, c, b) && log[b] != Inspected(c, STABLE);
    assert IsLastAbout(log + [e], c, b);
  }

  lemma BrokenNow(log: seq<Event>, c: string, e: Event)
    requires About(e, c) && e != Inspected(c, STABLE)
    ensures Broken(log + [e], c)
  {
    assert IsLastAbout(log + [e], c, |log|);
  }

  lemma WindowKeeps(log: seq<Event>, s: Progress, c: string, e: Event)
    requires WindowOk(log, s, c) && (About(e, c) ==> c in s.firstRunning && e == Inspected(c, STABLE))
    ensures WindowOk(log + [e], s, c)
  {
    hide StreakFrom, Broken;
    if c in s.firstRunning {
      StreakExtends(log, c, s.firstRunning[c], e);
    } else {
      BrokenExtends(log, c, e);
    }
  }

  lemma WindowsExtend(log: seq<Event>, s: Progress, e: Event)
    requires Windows(log, s, {})
    ensures e.Clock? || e.Slept? ==> Windows(log + [e], s, {})
    ensures !e.Clock? && !e.Slept? ==> Windows(log + [e], s, {e.name})
    ensures e.Inspected? && e.state == STABLE && e.name in s.firstRunning ==> Windows(log + [e], s, {})
  {
    hide WindowOk;
    forall c | c in s.startedByWake && c !in s.released
               && (!About(e, c) || (e == Inspected(c, STABLE) && c in s.firstRunning))
      ensures WindowOk(log + [e], s, c)
    {
      WindowKeeps(log, s, c, e);
    }
  }

  lemma WindowsClock(log: seq<Event>, s: Progress, c: string, t: int)
    requires Windows(log, s, {c})
    ensures Windows(log + [Clock(t)], s, {c})
  {
    hide WindowOk;
    forall d | d in s.startedByWake && d !in s.released && d != c ensures WindowOk(log + [Clock(t)], s, d) {
      WindowKeeps(log, s, d, Clock(t));
    }
  }

  /** An event that changes no bookkeeping. */
  lemma TracksNeutral(wakeSet: seq<Container>, stableFor: int, log: seq<Event>, s: Progress, e: Event)
    requires Tracks(wakeSet, stableFor, log, s) && EventOk(wakeSet, stableFor, log, e)
    requires !e.Released? && !(e.Start? && e.ok)
    ensures Tracks(wakeSet, stableFor, log + [e], s)
  {
    hide SafeLog, EventOk, FirstStarts;
    SafeAppend(wakeSet, stableFor, log, e);
    FirstStartsAppend(log, e);
  }

  lemma TracksRelease(wakeSet: seq<Container>, stableFor: int, log: seq<Event>, s: Progress, c: string)
    requires Tracks(wakeSet, stableFor, log, s) && EventOk(wakeSet, stableFor, log, Released(c))
    ensures Tracks(wakeSet, stableFor, log + [Released(c)], s.(released := s.released + {c}))
  {
    assert c in NamesIn(wakeSet);
    hide SafeLog, EventOk, FirstStarts;
    SafeAppend(wakeSet, stableFor, log, Released(c));
    FirstStartsAppend(log, Released(c));
  }

  lemma TracksStart(wakeSet: seq<Container>, stableFor: int, log: seq<Event>, s: Progress, c: string)
    requires Tracks(wakeSet, stableFor, log, s) && EventOk(wakeSet, stableFor, log, Start(c, true))
    ensures Tracks(wakeSet, stableFor, log + [Start(c, true)], StartedNow(s, c))
  {
    hide SafeLog, EventOk, FirstStarts;
    SafeAppend(wakeSet, stableFor, log, Start(c, true));
    FirstStartsAppend(log, Start(c, true));
    assert Elements(s.started + [c]) == Elements(s.started) + {c};
  }

  function StartedNow(s: Progress, c: string): Progress {
    Progress(s.released, s.startedByWake + {c},
             if c in s.startedByWake then s.started else s.started + [c], s.firstRunning - {c})
  }

  // ----- One container

  /** `depsMet`: needs outside the wake set are satisfied by construction. */
  predicate DepsMet(c: Container, released: set<string>, inSet: set<string>) {
    forall i :: 0 <= i < |c.needs| ==> c.needs[i] in inSet ==> c.needs[i] in released
  }

  lemma DepsMetMeansReleased(wakeSet: seq<Container>, log: seq<Event>, s: Progress, i: nat, inSet: set<string>)
    requires i < |wakeSet| && DistinctNames(wakeSet) && inSet == NamesIn(wakeSet)
    requires forall c :: c in s.released <==> Released(c) in log
    ensures DepsMet(wakeSet[i], s.released, inSet) <==> NeedsReleased(wakeSet, log, wakeSet[i].name)
  {
    if NeedsReleased(wakeSet, log, wakeSet[i].name) {
      forall k | 0 <= k < |wakeSet[i].needs| && wakeSet[i].needs[k] in inSet
        ensures wakeSet[i].needs[k] in s.released
      {
        assert wakeSet[i].needs[k] in wakeSet[i].needs;
      }
    }
    if DepsMet(wakeSet[i], s.released, inSet) {
      forall j, d | 0 <= j < |wakeSet| && wakeSet[j].name == wakeSet[i].name && d in wakeSet[j].needs && d in inSet
        ensures Released(d) in log
      {
        assert i == j;
      }
    }
  }

  datatype Verdict = ReleasedNow | Blocked | Failed

  /** What `ready` may have done, event by event. */
  ghost predicate ReadyDid(c: string, state: ContainerState, before: map<string, int>, after: map<string, int>,
                           log1: seq<Event>, log: seq<Event>, now: int, ok: bool, stableFor: int) {
    match state.health
    case Healthy => ok && after == before && log == log1
    case NoCheck =>
      if c in before then
        after == before && log == log1 + [Clock(now)] && ok == (now - before[c] >= stableFor)
      else
        exists t :: after == before[c := t] && log == log1 + [Clock(t)] + [Clock(now)] && ok == (now - t >= stableFor)
    case _ => !ok && after == before - {c} && log == log1
  }

  /** `ready`: healthy, or running-stable for `stableFor` without a healthcheck. */
  method Ready(host: Host, c: string, state: ContainerState, firstRunning0: map<string, int>, stableFor: int)
    returns (ok: bool, firstRunning: map<string, int>)
    modifies host
    ensures old(host.Timed()) ==> host.Timed()
    ensures host.time >= old(host.time)
    ensures ReadyDid(c, state, firstRunning0, firstRunning, old(host.log), host.log, host.time, ok, stableFor)
  {
    firstRunning := firstRunning0;
    match state.health
    case Healthy =>
      ok := true;
    case Unhealthy =>
      firstRunning := firstRunning - {c};
      ok := false;
    case Starting =>
      firstRunning := firstRunning - {c};
      ok := false;
    case NoCheck =>
      if c !in firstRunning {
        var t := host.Now();
        firstRunning := firstRunning[c := t];
      }
      var now := host.Now();
      ok := now - firstRunning[c] >= stableFor;
  }

  // ----- What each outcome leaves behind

  lemma Unreleased(wakeSet: seq<Container>, stableFor: int, log: seq<Event>, s: Progress, e: Event)
    requires Tracks(wakeSet, stableFor, log, s) && !e.Released? && !(e.Start? && e.ok)
    requires EventOk(wakeSet, stableFor, log, e)
    ensures Tracks(wakeSet, stableFor, log + [e], s)
    ensures forall c :: c in s.released <==> Released(c) in log + [e]
    ensures forall c :: c in s.startedByWake <==> Start(c, true) in log + [e]
  {
    TracksNeutral(wakeSet, stableFor, log, s, e);
    hide SafeLog, EventOk, FirstStarts;
    forall c ensures c in s.startedByWake <==> Start(c, true) in log + [e] {
      FirstStartsHappened(log, c);
      assert c in Elements(s.started) <==> c in s.started;
    }
  }

  lemma SeenLast(log: seq<Event>, c: string, state: ContainerState)
    ensures LastSeen(log + [Inspected(c, state)], c, state)
  {
    var all := log + [Inspected(c, state)];
    assert all[|log|] == Inspected(c, state) && IsLastAbout(all, c, |log|);
  }

  lemma SeenBeforeClock(log: seq<Event>, c: string, state: ContainerState, t: int)
    requires LastSeen(log, c, state)
    ensures LastSeen(log + [Clock(t)], c, state)
  {
    var i: nat :| IsLastAbout(log, c, i) && log[i] == Inspected(c, state);
    var all := log + [Clock(t)];
    assert all[i] == Inspected(c, state) && IsLastAbout(all, c, i);
  }

  lemma StreakBegins(log: seq<Event>, c: string, t: int)
    requires Broken(log, c)
    ensures StreakAt(log + [Inspected(c, STABLE)] + [Clock(t)], c, t, |log| + 1)
  {
    hide Broken;
    var all := log + [Inspected(c, STABLE)] + [Clock(t)];
    assert all[..|log|] == log;
  }

  lemma StableRelease(log: seq<Event>, c: string, t: int, now: int, stableFor: int)
    requires LastSeen(log, c, STABLE) && StreakFrom(log, c, t) && now - t >= stableFor
    ensures MayRelease(log + [Clock(now)], c, stableFor)
  {
    hide LastSeen, StreakFrom;
    SeenBeforeClock(log, c, STABLE, now);
    StreakExtends(log, c, t, Clock(now));
    var all := log + [Clock(now)];
    assert all[|all| - 1] == Clock(now);
  }

  lemma WindowsAfterRelease(log: seq<Event>, s: Progress, c: string)
    requires Windows(log, s, {c})
    ensures Windows(log + [Released(c)], s.(released := s.released + {c}), {})
  {
    hide WindowOk;
    forall d | d in s.startedByWake && d !in s.released && d != c
      ensures WindowOk(log + [Released(c)], s.(released := s.released + {c}), d)
    {
      WindowKeeps(log, s, d, Released(c));
      SameWindow(log + [Released(c)], s, s.(released := s.released + {c}), d);
    }
  }

  lemma SameWindow(log: seq<Event>, s: Progress, s': Progress, c: string)
    requires WindowOk(log, s, c) && (c in s.firstRunning <==> c in s'.firstRunning)
    requires c in s.firstRunning ==> s'.firstRunning[c] == s.firstRunning[c]
    ensures WindowOk(log, s', c)
  {
    hide StreakFrom, Broken;
  }

  lemma WindowsAfterStart(log: seq<Event>, s: Progress, c: string)
    requires Windows(log, s, {c})
    ensures Windows(log + [Start(c, true)], StartedNow(s, c), {})
  {
    hide WindowOk;
    forall d | d in s.startedByWake + {c} && d !in s.released
      ensures WindowOk(log + [Start(c, true)], StartedNow(s, c), d)
    {
      if d == c {
        BrokenNow(log, c, Start(c, true));
        NoWindow(log + [Start(c, true)], StartedNow(s, c), c);
      } else {
        WindowKeeps(log, s, d, Start(c, true));
        SameWindow(log + [Start(c, true)], s, StartedNow(s, c), d);
      }
    }
  }

  lemma NoWindow(log: seq<Event>, s: Progress, c: string)
    requires Broken(log, c) && c !in s.firstRunning
    ensures WindowOk(log, s, c)
  {
  }

  lemma MayStart(wakeSet: seq<Container>, stableFor: int, log: seq<Event>, s: Progress, i: nat, inSet: set<string>,
                 state: ContainerState, ok: bool)
    requires Tracks(wakeSet, stableFor, log, s) && DistinctNames(wakeSet) && inSet == NamesIn(wakeSet)
    requires i < |wakeSet| && wakeSet[i].name !in s.released && !state.running
    requires DepsMet(wakeSet[i], s.released, inSet)
    ensures EventOk(wakeSet, stableFor, log + [Inspected(wakeSet[i].name, state)], Start(wakeSet[i].name, ok))
  {
    hide SafeLog, FirstStarts;
    DepsMetMeansReleased(wakeSet, log, s, i, inSet);
  }

  /** A container this attempt started can always be started again. */
  lemma StartedCanRestart(wakeSet: seq<Container>, stableFor: int, log: seq<Event>, s: Progress, i: nat,
                          inSet: set<string>)
    requires Tracks(wakeSet, stableFor, log, s) && DistinctNames(wakeSet) && inSet == NamesIn(wakeSet)
    requires i < |wakeSet| && wakeSet[i].name in s.startedByWake
    ensures DepsMet(wakeSet[i], s.released, inSet)
  {
    hide SafeLog, FirstStarts, DepsMet;
    assert wakeSet[i].name in Elements(s.started);
    StartedHadNeeds(wakeSet, stableFor, log, wakeSet[i].name);
    DepsMetMeansReleased(wakeSet, log, s, i, inSet);
  }

  lemma WindowsWithout(log: seq<Event>, s: Progress, c: string)
    requires Windows(log, s, {c}) && (c !in s.startedByWake || c in s.released)
    ensures Windows(log, s, {})
  {
    hide WindowOk;
  }

  lemma WindowsDropped(log: seq<Event>, s: Progress, c: string)
    requires Windows(log, s, {c}) && Broken(log, c)
    ensures Windows(log, s.(firstRunning := s.firstRunning - {c}), {})
  {
    hide WindowOk, Broken;
    var s' := s.(firstRunning := s.firstRunning - {c});
    forall d | d in s.startedByWake && d !in s.released ensures WindowOk(log, s', d) {
      if d == c {
        NoWindow(log, s', c);
      } else {
        SameWindow(log, s, s', d);
      }
    }
  }

  lemma WindowsOpened(log: seq<Event>, s: Progress, c: string, t: int)
    requires Windows(log, s, {c}) && StreakFrom(log, c, t)
    ensures Windows(log, s.(firstRunning := s.firstRunning[c := t]), {})
  {
    hide StreakFrom, Broken;
    var s' := s.(firstRunning := s.firstRunning[c := t]);
    forall d | d in s.startedByWake && d !in s.released ensures WindowOk(log, s', d) {
      if d != c {
        SameWindow(log, s, s', d);
      }
    }
  }

  lemma TracksWindows(wakeSet: seq<Container>, stableFor: int, log: seq<Event>, s: Progress,
                      firstRunning: map<string, int>)
    requires Tracks(wakeSet, stableFor, log, s) && firstRunning.Keys <= s.startedByWake
    ensures Tracks(wakeSet, stableFor, log, s.(firstRunning := firstRunning))
  {
    hide SafeLog, FirstStarts;
  }

  // ----- One container, examined

  lemma MayReleaseOk(wakeSet: seq<Container>, stableFor: int, log: seq<Event>, s: Progress, i: nat)
    requires Tracks(wakeSet, stableFor, log, s) && i < |wakeSet| && wakeSet[i].name !in s.released
    requires MayRelease(log, wakeSet[i].name, stableFor)
    ensures EventOk(wakeSet, stableFor, log, Released(wakeSet[i].name))
  {
    hide SafeLog, FirstStarts, MayRelease;
  }

  lemma FoundRunning(wakeSet: seq<Container>, stableFor: int, log0: seq<Event>, s: Progress, c: string,
                     state: ContainerState)
    requires Tracks(wakeSet, stableFor, log0, s) && state.running
    requires c !in s.startedByWake || state.health == Healthy
    ensures MayRelease(log0 + [Inspected(c, state)], c, stableFor)
  {
    Unreleased(wakeSet, stableFor, log0, s, Inspected(c, state));
    hide SafeLog, FirstStarts, LastSeen;
    SeenLast(log0, c, state);
    assert state == ContainerState(true, state.health);
  }

  /** The state after the `ready` branch. */
  ghost predicate ReadyOutcome(wakeSet: seq<Container>, i: nat, stableFor: int, s: Progress, ready: bool,
                               log: seq<Event>)
    requires i < |wakeSet|
  {
    && Tracks(wakeSet, stableFor, log, s)
    && Windows(log, s, if ready then {wakeSet[i].name} else {})
    && (ready ==> EventOk(wakeSet, stableFor, log, Released(wakeSet[i].name)))
    && (!ready ==> NotReady(log, wakeSet[i].name, stableFor))
  }

  lemma AfterHealthy(wakeSet: seq<Container>, i: nat, state: ContainerState, stableFor: int, s0: Progress,
                     log0: seq<Event>)
    requires i < |wakeSet| && state.running && state.health == Healthy && wakeSet[i].name !in s0.released
    requires Tracks(wakeSet, stableFor, log0, s0) && Windows(log0, s0, {})
    ensures ReadyOutcome(wakeSet, i, stableFor, s0, true, log0 + [Inspected(wakeSet[i].name, state)])
  {
    hide Tracks, Windows, EventOk, MayRelease, NotReady;
    var c := wakeSet[i].name;
    InspectionIsNeutral(wakeSet, stableFor, log0, s0, c, state);
    WindowsExtend(log0, s0, Inspected(c, state));
    FoundRunning(wakeSet, stableFor, log0, s0, c, state);
    MayReleaseOk(wakeSet, stableFor, log0 + [Inspected(c, state)], s0, i);
  }

  lemma InspectionIsNeutral(wakeSet: seq<Container>, stableFor: int, log: seq<Event>, s: Progress, c: string,
                            state: ContainerState)
    requires Tracks(wakeSet, stableFor, log, s)
    ensures Tracks(wakeSet, stableFor, log + [Inspected(c, state)], s)
  {
    hide Tracks;
    TracksNeutral(wakeSet, stableFor, log, s, Inspected(c, state));
  }

  lemma ClockIsNeutral(wakeSet: seq<Container>, stableFor: int, log: seq<Event>, s: Progress, t: int)
    requires Tracks(wakeSet, stableFor, log, s)
    ensures Tracks(wakeSet, stableFor, log + [Clock(t)], s)
  {
    hide Tracks;
    TracksNeutral(wakeSet, stableFor, log, s, Clock(t));
  }

  lemma SickIsNotReady(log: seq<Event>, c: string, health: Health, stableFor: int)
    requires health == Unhealthy || health == Starting
    ensures NotReady(log + [Inspected(c, ContainerState(true, health))], c, stableFor)
  {
    var all := log + [Inspected(c, ContainerState(true, health))];
    assert all[|log|] == Inspected(c, ContainerState(true, health));
    assert NotReadyAt(all, c, stableFor, |log|);
  }

  lemma AfterSick(wakeSet: seq<Container>, i: nat, state: ContainerState, stableFor: int, s0: Progress,
                  log0: seq<Event>)
    requires i < |wakeSet| && Tracks(wakeSet, stableFor, log0, s0) && Windows(log0, s0, {})
    requires state.running && (state.health == Unhealthy || state.health == Starting)
    ensures ReadyOutcome(wakeSet, i, stableFor, s0.(firstRunning := s0.firstRunning - {wakeSet[i].name}), false,
                         log0 + [Inspected(wakeSet[i].name, state)])
  {
    var c := wakeSet[i].name;
    assert s0.firstRunning.Keys <= s0.startedByWake;
    hide Tracks, Windows, EventOk, NotReady, Broken;
    var log := log0 + [Inspected(c, state)];
    InspectionIsNeutral(wakeSet, stableFor, log0, s0, c, state);
    WindowsExtend(log0, s0, Inspected(c, state));
    BrokenNow(log0, c, Inspected(c, state));
    WindowsDropped(log, s0, c);
    TracksWindows(wakeSet, stableFor, log, s0, s0.firstRunning - {c});
    assert state == ContainerState(true, state.health);
    SickIsNotReady(log0, c, state.health, stableFor);
  }

  /** Inspection `k` found the container running without a healthcheck; the log ends with the
      reading that decides. */
  lemma YoungIsNotReady(log: seq<Event>, c: string, stableFor: int, k: nat, t: int, p: nat, now: int)
    requires IsLastAbout(log, c, k) && log[k] == Inspected(c, STABLE) && StreakAt(log, c, t, p)
    requires |log| == (if p == k + 1 then k + 2 else k + 1) && now - t < stableFor
    ensures NotReady(log + [Clock(now)], c, stableFor)
  {
    hide StreakAt;
    var all := log + [Clock(now)];
    StreakStays(log, all, c, t, p);
    assert all[|log|] == Clock(now);
    assert TooYoung(all, c, stableFor, k, t, p);
    assert IsLastAbout(all, c, k);
    assert NotReadyAt(all, c, stableFor, k);
  }

  /** `p - 1` is where the streak began. */
  lemma AfterStable(wakeSet: seq<Container>, i: nat, stableFor: int, s: Progress, log: seq<Event>, now: int,
                    ready: bool, k: nat, p: nat)
    requires i < |wakeSet| && Tracks(wakeSet, stableFor, log, s) && Windows(log, s, {})
    requires wakeSet[i].name in s.firstRunning && wakeSet[i].name !in s.released
    requires IsLastAbout(log, wakeSet[i].name, k) && log[k] == Inspected(wakeSet[i].name, STABLE)
    requires StreakAt(log, wakeSet[i].name, s.firstRunning[wakeSet[i].name], p)
    requires |log| == if p == k + 1 then k + 2 else k + 1
    requires ready == (now - s.firstRunning[wakeSet[i].name] >= stableFor)
    ensures ReadyOutcome(wakeSet, i, stableFor, s, ready, log + [Clock(now)])
  {
    var c := wakeSet[i].name;
    assert StreakFrom(log, c, s.firstRunning[c]) && LastSeen(log, c, STABLE);
    hide Tracks, Windows, EventOk, MayRelease, StreakFrom, LastSeen, StreakAt, NotReady;
    ClockIsNeutral(wakeSet, stableFor, log, s, now);
    WindowsExtend(log, s, Clock(now));
    if ready {
      StableRelease(log, c, s.firstRunning[c], now, stableFor);
      MayReleaseOk(wakeSet, stableFor, log + [Clock(now)], s, i);
      WindowsExcept(log + [Clock(now)], s, c);
    } else {
      YoungIsNotReady(log, c, stableFor, k, s.firstRunning[c], p, now);
    }
  }

  lemma WindowsExcept(log: seq<Event>, s: Progress, c: string)
    requires Windows(log, s, {})
    ensures Windows(log, s, {c})
  {
    hide WindowOk;
  }

  lemma AfterFirstStable(wakeSet: seq<Container>, i: nat, stableFor: int, s0: Progress, log0: seq<Event>, t: int)
    requires i < |wakeSet| && Tracks(wakeSet, stableFor, log0, s0) && Windows(log0, s0, {})
    requires wakeSet[i].name in s0.startedByWake && wakeSet[i].name !in s0.firstRunning
    requires wakeSet[i].name !in s0.released
    ensures var c := wakeSet[i].name;
      var s, log := s0.(firstRunning := s0.firstRunning[c := t]), log0 + [Inspected(c, STABLE)] + [Clock(t)];
      && Tracks(wakeSet, stableFor, log, s) && Windows(log, s, {})
      && IsLastAbout(log, c, |log0|) && StreakAt(log, c, t, |log0| + 1)
  {
    var c := wakeSet[i].name;
    assert s0.firstRunning[c := t].Keys <= s0.startedByWake;
    assert WindowOk(log0, s0, c) && Broken(log0, c);
    hide Tracks, Windows, WindowOk, Broken, StreakAt;
    var log1 := log0 + [Inspected(c, STABLE)];
    InspectionIsNeutral(wakeSet, stableFor, log0, s0, c, STABLE);
    WindowsExtend(log0, s0, Inspected(c, STABLE));
    ClockIsNeutral(wakeSet, stableFor, log1, s0, t);
    WindowsClock(log1, s0, c, t);
    StreakBegins(log0, c, t);
    assert StreakFrom(log1 + [Clock(t)], c, t);
    WindowsOpened(log1 + [Clock(t)], s0, c, t);
    TracksWindows(wakeSet, stableFor, log1 + [Clock(t)], s0, s0.firstRunning[c := t]);
  }

  lemma AfterReady(wakeSet: seq<Container>, i: nat, state: ContainerState, stableFor: int, s0: Progress,
                   log0: seq<Event>, firstRunning: map<string, int>, ready: bool, log: seq<Event>, now: int)
    requires i < |wakeSet| && state.running
    requires Tracks(wakeSet, stableFor, log0, s0) && Windows(log0, s0, {})
    requires wakeSet[i].name in s0.startedByWake && wakeSet[i].name !in s0.released
    requires ReadyDid(wakeSet[i].name, state, s0.firstRunning, firstRunning,
                      log0 + [Inspected(wakeSet[i].name, state)], log, now, ready, stableFor)
    ensures ReadyOutcome(wakeSet, i, stableFor, s0.(firstRunning := firstRunning), ready, log)
  {
    hide Tracks, Windows, LastSeen, ReadyOutcome;
    var c := wakeSet[i].name;
    var log1 := log0 + [Inspected(c, state)];
    match state.health
    case Healthy => AfterHealthy(wakeSet, i, state, stableFor, s0, log0);
    case Unhealthy => AfterSick(wakeSet, i, state, stableFor, s0, log0);
    case Starting => AfterSick(wakeSet, i, state, stableFor, s0, log0);
    case NoCheck =>
      assert state == STABLE;
      if c in s0.firstRunning {
        AfterLaterStable(wakeSet, i, stableFor, s0, log0, now, ready);
      } else {
        var t :| firstRunning == s0.firstRunning[c := t] && log == log1 + [Clock(t)] + [Clock(now)]
                 && ready == (now - t >= stableFor);
        AfterFirstStable(wakeSet, i, stableFor, s0, log0, t);
        AfterStable(wakeSet, i, stableFor, s0.(firstRunning := firstRunning), log1 + [Clock(t)], now, ready,
                    |log0|, |log0| + 1);
      }
  }

  lemma WindowStreak(log: seq<Event>, s: Progress, c: string) returns (p: nat)
    requires Windows(log, s, {}) && c in s.startedByWake && c !in s.released && c in s.firstRunning
    ensures p < |log| && StreakAt(log, c, s.firstRunning[c], p)
  {
    assert WindowOk(log, s, c);
    p :| StreakAt(log, c, s.firstRunning[c], p);
  }

  lemma AfterLaterStable(wakeSet: seq<Container>, i: nat, stableFor: int, s0: Progress, log0: seq<Event>, now: int,
                         ready: bool)
    requires i < |wakeSet| && Tracks(wakeSet, stableFor, log0, s0) && Windows(log0, s0, {})
    requires wakeSet[i].name in s0.startedByWake && wakeSet[i].name !in s0.released
    requires wakeSet[i].name in s0.firstRunning
    requires ready == (now - s0.firstRunning[wakeSet[i].name] >= stableFor)
    ensures ReadyOutcome(wakeSet, i, stableFor, s0, ready, log0 + [Inspected(wakeSet[i].name, STABLE)] + [Clock(now)])
  {
    hide Tracks, Windows, StreakAt, ReadyOutcome;
    var c := wakeSet[i].name;
    var p := WindowStreak(log0, s0, c);
    var log1 := log0 + [Inspected(c, STABLE)];
    InspectionIsNeutral(wakeSet, stableFor, log0, s0, c, STABLE);
    WindowsExtend(log0, s0, Inspected(c, STABLE));
    StreakStays(log0, log1, c, s0.firstRunning[c], p);
    assert log1[|log0|] == Inspected(c, STABLE) && IsLastAbout(log1, c, |log0|);
    AfterStable(wakeSet, i, stableFor, s0, log1, now, ready, |log0|, p);
  }

  lemma Releases(wakeSet: seq<Container>, i: nat, stableFor: int, s: Progress, log: seq<Event>)
    requires i < |wakeSet| && ReadyOutcome(wakeSet, i, stableFor, s, true, log)
    ensures var s', log' := s.(released := s.released + {wakeSet[i].name}), log + [Released(wakeSet[i].name)];
      Tracks(wakeSet, stableFor, log', s') && Windows(log', s', {})
  {
    hide Tracks, Windows, EventOk;
    TracksRelease(wakeSet, stableFor, log, s, wakeSet[i].name);
    WindowsAfterRelease(log, s, wakeSet[i].name);
  }

  /** Found running, not by this attempt: released as is. */
  lemma AfterFoundRunning(wakeSet: seq<Container>, i: nat, state: ContainerState, stableFor: int, s0: Progress,
                          log0: seq<Event>)
    requires i < |wakeSet| && state.running && Tracks(wakeSet, stableFor, log0, s0) && Windows(log0, s0, {})
    requires wakeSet[i].name !in s0.startedByWake && wakeSet[i].name !in s0.released
    ensures ReadyOutcome(wakeSet, i, stableFor, s0, true, log0 + [Inspected(wakeSet[i].name, state)])
  {
    hide Tracks, Windows, EventOk, MayRelease, NotReady;
    var c := wakeSet[i].name;
    InspectionIsNeutral(wakeSet, stableFor, log0, s0, c, state);
    WindowsExtend(log0, s0, Inspected(c, state));
    FoundRunning(wakeSet, stableFor, log0, s0, c, state);
    MayReleaseOk(wakeSet, stableFor, log0 + [Inspected(c, state)], s0, i);
  }

  lemma AfterStart(wakeSet: seq<Container>, i: nat, state: ContainerState, stableFor: int, s0: Progress,
                   log0: seq<Event>, inSet: set<string>, ok: bool)
    requires i < |wakeSet| && !state.running && Tracks(wakeSet, stableFor, log0, s0) && Windows(log0, s0, {})
    requires DistinctNames(wakeSet) && inSet == NamesIn(wakeSet) && wakeSet[i].name !in s0.released
    requires DepsMet(wakeSet[i], s0.released, inSet)
    ensures var c := wakeSet[i].name;
      var log := log0 + [Inspected(c, state)] + [Start(c, ok)];
      if ok then
        && Tracks(wakeSet, stableFor, log, StartedNow(s0, c)) && Windows(log, StartedNow(s0, c), {})
        && NotReady(log, c, stableFor)
      else Tracks(wakeSet, stableFor, log, s0)
  {
    hide Tracks, Windows, EventOk, DepsMet, NotReady;
    var c := wakeSet[i].name;
    var log1 := log0 + [Inspected(c, state)];
    MayStart(wakeSet, stableFor, log0, s0, i, inSet, state, ok);
    InspectionIsNeutral(wakeSet, stableFor, log0, s0, c, state);
    WindowsExtend(log0, s0, Inspected(c, state));
    if ok {
      TracksStart(wakeSet, stableFor, log1, s0, c);
      WindowsAfterStart(log1, s0, c);
      StartedIsNotReady(log1, c, stableFor);
    } else {
      TracksNeutral(wakeSet, stableFor, log1, s0, Start(c, false));
    }
  }

  lemma StartedIsNotReady(log: seq<Event>, c: string, stableFor: int)
    ensures NotReady(log + [Start(c, true)], c, stableFor)
  {
    var all := log + [Start(c, true)];
    assert all[|log|] == Start(c, true);
    assert NotReadyAt(all, c, stableFor, |log|);
  }

  /** Stopped and waiting for its needs. */
  lemma AfterWaiting(wakeSet: seq<Container>, i: nat, state: ContainerState, stableFor: int, s0: Progress,
                     log0: seq<Event>, inSet: set<string>)
    requires i < |wakeSet| && Tracks(wakeSet, stableFor, log0, s0) && Windows(log0, s0, {})
    requires DistinctNames(wakeSet) && inSet == NamesIn(wakeSet) && !DepsMet(wakeSet[i], s0.released, inSet)
    requires !state.running
    ensures var log := log0 + [Inspected(wakeSet[i].name, state)];
      Tracks(wakeSet, stableFor, log, s0) && Windows(log, s0, {}) && FoundStopped(log, wakeSet[i].name)
    ensures wakeSet[i].name !in s0.startedByWake
  {
    hide Tracks, Windows, DepsMet, LastSeen;
    var c := wakeSet[i].name;
    InspectionIsNeutral(wakeSet, stableFor, log0, s0, c, state);
    WindowsExtend(log0, s0, Inspected(c, state));
    if c in s0.startedByWake {
      StartedCanRestart(wakeSet, stableFor, log0, s0, i, inSet);
    }
    WindowsWithout(log0 + [Inspected(c, state)], s0, c);
    SeenLast(log0, c, state);
  }

  /** Started and not ready, or stopped with a need missing from `released`. */
  ghost predicate BlockedRightly(wakeSet: seq<Container>, k: nat, released: set<string>, s: Progress, log: seq<Event>,
                                 stableFor: int)
    requires k < |wakeSet|
  {
    var c := wakeSet[k].name;
    if c in s.startedByWake then NotReady(log, c, stableFor)
    else FoundStopped(log, c) && !DepsMet(wakeSet[k], released, NamesIn(wakeSet))
  }

  /** The daemon refused the last call. */
  ghost predicate FailedCall(log: seq<Event>) {
    log != [] && var e := log[|log| - 1]; e.InspectFailed? || (e.Start? && !e.ok)
  }

  ghost predicate NoSleep(log: seq<Event>, after: seq<Event>) {
    log <= after && forall k :: |log| <= k < |after| ==> !after[k].Slept?
  }

  lemma RightlyByReadiness(wakeSet: seq<Container>, k: nat, released: set<string>, s: Progress, log: seq<Event>,
                           stableFor: int)
    requires k < |wakeSet| && wakeSet[k].name in s.startedByWake && NotReady(log, wakeSet[k].name, stableFor)
    ensures BlockedRightly(wakeSet, k, released, s, log, stableFor)
  {
  }

  lemma RightlyByNeeds(wakeSet: seq<Container>, k: nat, released: set<string>, s: Progress, log: seq<Event>,
                       stableFor: int)
    requires k < |wakeSet| && wakeSet[k].name !in s.startedByWake && FoundStopped(log, wakeSet[k].name)
    requires !DepsMet(wakeSet[k], released, NamesIn(wakeSet))
    ensures BlockedRightly(wakeSet, k, released, s, log, stableFor)
  {
  }

  /** What one examination may add to the log. */
  lemma Adds(log: seq<Event>, added: seq<Event>, c: string)
    requires forall k :: 0 <= k < |added| ==> added[k].Clock? || (!added[k].Slept? && added[k].name == c)
    requires added != [] && (added[0].Inspected? || added[0].InspectFailed?)
    requires forall k :: 0 < k < |added| ==> !added[k].Inspected? && !added[k].InspectFailed?
    ensures AddsOnly(log, log + added, c) && NoSleep(log, log + added) && AddsLook(log, log + added, c)
  {
  }

  lemma ReadyAdds(c: string, state: ContainerState, before: map<string, int>, after: map<string, int>,
                  log0: seq<Event>, log: seq<Event>, now: int, ok: bool, stableFor: int)
    requires ReadyDid(c, state, before, after, log0 + [Inspected(c, state)], log, now, ok, stableFor)
    ensures AddsOnly(log0, log, c) && NoSleep(log0, log) && AddsLook(log0, log, c)
    ensures AddsOnly(log0, log + [Released(c)], c) && NoSleep(log0, log + [Released(c)])
    ensures AddsLook(log0, log + [Released(c)], c)
  {
  }

  lemma Fails(log: seq<Event>, e: Event)
    requires e.InspectFailed? || (e.Start? && !e.ok)
    ensures FailedCall(log + [e])
  {
  }

  /** One turn of the inner loop for a container that is not released. */
  method Examine(host: Host, wakeSet: seq<Container>, inSet: set<string>, i: nat, stableFor: int, s0: Progress)
    returns (s: Progress, v: Verdict)
    requires DistinctNames(wakeSet) && inSet == NamesIn(wakeSet)
    requires i < |wakeSet| && wakeSet[i].name !in s0.released
    requires Tracks(wakeSet, stableFor, host.log, s0) && Windows(host.log, s0, {})
    modifies host
    ensures old(host.Timed()) ==> host.Timed()
    ensures host.time >= old(host.time)
    ensures Tracks(wakeSet, stableFor, host.log, s)
    ensures !v.Failed? ==> Windows(host.log, s, {})
    ensures s.released == if v.ReleasedNow? then s0.released + {wakeSet[i].name} else s0.released
    ensures s0.startedByWake <= s.startedByWake <= s0.startedByWake + {wakeSet[i].name}
    ensures v.Blocked? ==> BlockedRightly(wakeSet, i, s0.released, s, host.log, stableFor)
    ensures v.Failed? ==> FailedCall(host.log)
    ensures AddsOnly(old(host.log), host.log, wakeSet[i].name) && NoSleep(old(host.log), host.log)
    ensures AddsLook(old(host.log), host.log, wakeSet[i].name)
  {
    hide *;
    var c := wakeSet[i];
    ghost var log0 := host.log;
    s := s0;
    var found := host.Inspect(c.name);
    if found.NotFound? {
      FailedInspection(wakeSet, stableFor, log0, s0, c.name);
      Fails(log0, InspectFailed(c.name));
      Adds(log0, [InspectFailed(c.name)], c.name);
      return s, Failed;
    }
    var state := found.state;
    Adds(log0, [Inspected(c.name, state)], c.name);
    if state.running {
      var ready := true;
      if c.name !in s.startedByWake {
        AfterFoundRunning(wakeSet, i, state, stableFor, s0, log0);
        Adds(log0, [Inspected(c.name, state), Released(c.name)], c.name);
        assert host.log + [Released(c.name)] == log0 + [Inspected(c.name, state), Released(c.name)];
      } else {
        var firstRunning;
        ready, firstRunning := Ready(host, c.name, state, s.firstRunning, stableFor);
        s := s.(firstRunning := firstRunning);
        AfterReady(wakeSet, i, state, stableFor, s0, log0, firstRunning, ready, host.log, host.time);
        ReadyAdds(c.name, state, s0.firstRunning, firstRunning, log0, host.log, host.time, ready, stableFor);
      }
      if ready {
        Releases(wakeSet, i, stableFor, s, host.log);
        s := s.(released := s.released + {c.name});
        host.Note(Released(c.name));
        return s, ReleasedNow;
      }
      StillBlocked(wakeSet, i, stableFor, s, host.log);
      RightlyByReadiness(wakeSet, i, s0.released, s, host.log, stableFor);
      return s, Blocked;
    }
    if DepsMet(c, s.released, inSet) {
      var ok := host.StartContainer(c.name);
      AfterStart(wakeSet, i, state, stableFor, s0, log0, inSet, ok);
      Adds(log0, [Inspected(c.name, state), Start(c.name, ok)], c.name);
      assert host.log == log0 + [Inspected(c.name, state), Start(c.name, ok)];
      if !ok {
        Fails(log0 + [Inspected(c.name, state)], Start(c.name, ok));
        return s, Failed;
      }
      StartedNowIs(s, c.name);
      if c.name !in s.startedByWake {
        s := s.(startedByWake := s.startedByWake + {c.name}, started := s.started + [c.name]);
      }
      s := s.(firstRunning := s.firstRunning - {c.name});
      RightlyByReadiness(wakeSet, i, s0.released, s, host.log, stableFor);
      return s, Blocked;
    }
    AfterWaiting(wakeSet, i, state, stableFor, s0, log0, inSet);
    RightlyByNeeds(wakeSet, i, s0.released, s, host.log, stableFor);
    return s, Blocked;
  }

  lemma FailedInspection(wakeSet: seq<Container>, stableFor: int, log: seq<Event>, s: Progress, c: string)
    requires Tracks(wakeSet, stableFor, log, s)
    ensures Tracks(wakeSet, stableFor, log + [InspectFailed(c)], s)
  {
    hide Tracks;
    TracksNeutral(wakeSet, stableFor, log, s, InspectFailed(c));
  }

  lemma StillBlocked(wakeSet: seq<Container>, i: nat, stableFor: int, s: Progress, log: seq<Event>)
    requires i < |wakeSet| && ReadyOutcome(wakeSet, i, stableFor, s, false, log)
    ensures Tracks(wakeSet, stableFor, log, s) && Windows(log, s, {}) && NotReady(log, wakeSet[i].name, stableFor)
  {
    hide Tracks, Windows, NotReady;
  }

  lemma StartedNowIs(s: Progress, c: string)
    ensures StartedNow(s, c) == s.(
      startedByWake := s.startedByWake + {c}, started := if c in s.startedByWake then s.started else s.started + [c],
      firstRunning := s.firstRunning - {c})
    ensures c in s.startedByWake ==> s.startedByWake + {c} == s.startedByWake
  {
  }

  // ----- One pass over the wake set

  /** What was released before container `k` was looked at, in a pass that began with
      `before` and ended with `after` released. */
  ghost function EarlyReleased(wakeSet: seq<Container>, k: nat, before: set<string>, after: set<string>): set<string>
    requires k <= |wakeSet|
  {
    before + NamesIn(wakeSet[..k]) * after
  }

  /** An unreleased container was started and is not ready, or it was found stopped with a need
      that had not been released when it was looked at. */
  ghost predicate SettledAt(wakeSet: seq<Container>, k: nat, before: set<string>, s: Progress, log: seq<Event>,
                            stableFor: int)
    requires k < |wakeSet|
  {
    wakeSet[k].name !in s.released ==>
      BlockedRightly(wakeSet, k, EarlyReleased(wakeSet, k, before, s.released), s, log, stableFor)
  }

  ghost predicate Settled(wakeSet: seq<Container>, n: nat, before: set<string>, s: Progress, log: seq<Event>,
                          stableFor: int)
    requires n <= |wakeSet|
  {
    forall k :: 0 <= k < n ==> SettledAt(wakeSet, k, before, s, log, stableFor)
  }

  /** `blocked` names the first unreleased container among the first `n`, if there is one. */
  ghost predicate NamesBlocked(wakeSet: seq<Container>, n: nat, released: set<string>, blocked: string)
    requires n <= |wakeSet|
  {
    if blocked == "" then forall k :: 0 <= k < n ==> wakeSet[k].name in released
    else exists k :: 0 <= k < n && wakeSet[k].name == blocked && blocked !in released
                     && forall j :: 0 <= j < k ==> wakeSet[j].name in released
  }

  ghost predicate NonEmptyNames(wakeSet: seq<Container>) {
    forall k :: 0 <= k < |wakeSet| ==> wakeSet[k].name != ""
  }

  lemma NameIsIn(wakeSet: seq<Container>, k: nat)
    requires k < |wakeSet|
    ensures wakeSet[k].name in NamesIn(wakeSet)
    ensures DistinctNames(wakeSet) ==> wakeSet[k].name !in NamesIn(wakeSet[..k])
    ensures NamesIn(wakeSet[..k + 1]) == NamesIn(wakeSet[..k]) + {wakeSet[k].name}
  {
    var a, b := wakeSet[..k], wakeSet[..k + 1];
    forall x | x in NamesIn(b) ensures x in NamesIn(a) + {wakeSet[k].name} {
      var j :| 0 <= j < |b| && x == b[j].name;
      if j < k {
        assert a[j] == b[j];
      }
    }
    forall x | x in NamesIn(a) ensures x in NamesIn(b) {
      var j :| 0 <= j < |a| && x == a[j].name;
      assert b[j] == a[j];
    }
    assert b[k].name in NamesIn(b);
  }

  /** Nothing that happens to others unsettles a container. */
  lemma RightlyStays(wakeSet: seq<Container>, k: nat, released: set<string>, s: Progress, s': Progress,
                     log: seq<Event>, log': seq<Event>, stableFor: int)
    requires k < |wakeSet| && BlockedRightly(wakeSet, k, released, s, log, stableFor) && log <= log'
    requires wakeSet[k].name in s.startedByWake <==> wakeSet[k].name in s'.startedByWake
    requires forall i :: |log| <= i < |log'| ==> !About(log'[i], wakeSet[k].name)
    ensures BlockedRightly(wakeSet, k, released, s', log', stableFor)
  {
    hide NotReady, FoundStopped, DepsMet;
    if wakeSet[k].name in s.startedByWake {
      NotReadyStays(log, log', wakeSet[k].name, stableFor);
    } else {
      FoundStoppedStays(log, log', wakeSet[k].name);
    }
  }

  /** Releasing or starting a later container leaves the earlier ones settled. */
  lemma SettledStays(wakeSet: seq<Container>, n: nat, before: set<string>, s: Progress, s': Progress,
                     log: seq<Event>, log': seq<Event>, stableFor: int)
    requires n < |wakeSet| && DistinctNames(wakeSet) && Settled(wakeSet, n, before, s, log, stableFor)
    requires s'.released == s.released || s'.released == s.released + {wakeSet[n].name}
    requires s.startedByWake <= s'.startedByWake <= s.startedByWake + {wakeSet[n].name}
    requires AddsOnly(log, log', wakeSet[n].name)
    ensures Settled(wakeSet, n, before, s', log', stableFor)
  {
    hide BlockedRightly, EarlyReleased;
    forall k | 0 <= k < n ensures SettledAt(wakeSet, k, before, s', log', stableFor) {
      assert SettledAt(wakeSet, k, before, s, log, stableFor);
      LaterReleaseIsLate(wakeSet, k, n, before, s.released, s'.released);
      if wakeSet[k].name !in s'.released {
        RightlyStays(wakeSet, k, EarlyReleased(wakeSet, k, before, s.released), s, s', log, log', stableFor);
      }
    }
  }

  /** Readings of the clock unsettle nothing. */
  lemma SettledThroughClock(wakeSet: seq<Container>, before: set<string>, s: Progress, log: seq<Event>, t: int,
                            stableFor: int)
    requires Settled(wakeSet, |wakeSet|, before, s, log, stableFor)
    ensures Settled(wakeSet, |wakeSet|, before, s, log + [Clock(t)], stableFor)
  {
    hide BlockedRightly, EarlyReleased;
    forall k | 0 <= k < |wakeSet| ensures SettledAt(wakeSet, k, before, s, log + [Clock(t)], stableFor) {
      assert SettledAt(wakeSet, k, before, s, log, stableFor);
      if wakeSet[k].name !in s.released {
        RightlyStays(wakeSet, k, EarlyReleased(wakeSet, k, before, s.released), s, s, log, log + [Clock(t)], stableFor);
      }
    }
  }

  lemma LaterReleaseIsLate(wakeSet: seq<Container>, k: nat, n: nat, before: set<string>, r: set<string>,
                           r': set<string>)
    requires k <= n < |wakeSet| && DistinctNames(wakeSet)
    requires r' == r || r' == r + {wakeSet[n].name}
    ensures EarlyReleased(wakeSet, k, before, r') == EarlyReleased(wakeSet, k, before, r)
  {
    assert wakeSet[n].name !in NamesIn(wakeSet[..k]) by {
      forall j | 0 <= j < k ensures wakeSet[..k][j].name != wakeSet[n].name {
        assert wakeSet[..k][j] == wakeSet[j];
      }
    }
  }

  lemma SettleOne(wakeSet: seq<Container>, n: nat, before: set<string>, s: Progress, log: seq<Event>, stableFor: int)
    requires n < |wakeSet| && Settled(wakeSet, n, before, s, log, stableFor)
    requires SettledAt(wakeSet, n, before, s, log, stableFor)
    ensures Settled(wakeSet, n + 1, before, s, log, stableFor)
  {
    hide SettledAt;
  }

  /** The containers released so far in a pass are those of `before` and of the walked prefix. */
  ghost predicate PassReleased(wakeSet: seq<Container>, n: nat, before: set<string>, released: set<string>)
    requires n <= |wakeSet|
  {
    before <= released && released <= before + NamesIn(wakeSet[..n])
  }

  lemma ReleasedIsEarly(wakeSet: seq<Container>, n: nat, before: set<string>, released: set<string>)
    requires n <= |wakeSet| && PassReleased(wakeSet, n, before, released)
    ensures EarlyReleased(wakeSet, n, before, released) == released
  {
  }

  lemma BlockedStep(wakeSet: seq<Container>, n: nat, released: set<string>, released': set<string>, blocked: string,
                    blocked': string)
    requires n < |wakeSet| && DistinctNames(wakeSet) && NonEmptyNames(wakeSet)
    requires NamesBlocked(wakeSet, n, released, blocked)
    requires released' == released || released' == released + {wakeSet[n].name}
    requires blocked' == if wakeSet[n].name !in released' && blocked == "" then wakeSet[n].name else blocked
    ensures NamesBlocked(wakeSet, n + 1, released', blocked')
  {
    if blocked != "" {
      var k :| 0 <= k < n && wakeSet[k].name == blocked && blocked !in released
               && forall j :: 0 <= j < k ==> wakeSet[j].name in released;
      assert wakeSet[k].name != wakeSet[n].name;
      assert blocked !in released';
    } else if blocked' != "" {
      assert wakeSet[n].name == blocked';
    }
  }

  method Pass(host: Host, wakeSet: seq<Container>, inSet: set<string>, stableFor: int, s0: Progress)
    returns (s: Progress, ok: bool, progress: bool, blocked: string)
    requires DistinctNames(wakeSet) && NonEmptyNames(wakeSet) && inSet == NamesIn(wakeSet)
    requires Tracks(wakeSet, stableFor, host.log, s0) && Windows(host.log, s0, {})
    requires OncePerPass(host.log) && LookedAt(host.log, {})
    modifies host
    ensures old(host.Timed()) ==> host.Timed()
    ensures host.time >= old(host.time)
    ensures Tracks(wakeSet, stableFor, host.log, s)
    ensures ok ==> Windows(host.log, s, {})
    ensures s0.released <= s.released
    ensures ok ==> (progress <==> s.released != s0.released)
    ensures ok ==> Settled(wakeSet, |wakeSet|, s0.released, s, host.log, stableFor)
    ensures ok ==> NamesBlocked(wakeSet, |wakeSet|, s.released, blocked)
    ensures !ok ==> FailedCall(host.log)
    ensures NoSleep(old(host.log), host.log)
    ensures OncePerPass(host.log) && LookedAt(host.log, NamesIn(wakeSet))
  {
    hide *;
    s, progress, blocked := s0, false, "";
    PassBegins(wakeSet, s0, host.log, stableFor);
    for i := 0 to |wakeSet|
      invariant host.time >= old(host.time)
      invariant Tracks(wakeSet, stableFor, host.log, s) && Windows(host.log, s, {})
      invariant PassReleased(wakeSet, i, s0.released, s.released)
      invariant progress <==> s.released != s0.released
      invariant Settled(wakeSet, i, s0.released, s, host.log, stableFor)
      invariant NoSleep(old(host.log), host.log) && (old(host.Timed()) ==> host.Timed())
      invariant OncePerPass(host.log) && LookedAt(host.log, NamesIn(wakeSet[..i]))
      invariant NamesBlocked(wakeSet, i, s.released, blocked)
    {
      ghost var before, blocked0, log0 := s, blocked, host.log;
      PassGrows(wakeSet, i, s0.released, s.released);
      NameIsIn(wakeSet, i);
      LookedAtMore(host.log, NamesIn(wakeSet[..i]), NamesIn(wakeSet[..i + 1]));
      if wakeSet[i].name in s.released {
        SettledReleased(wakeSet, i, s0.released, s, host.log, stableFor);
        SettleOne(wakeSet, i, s0.released, s, host.log, stableFor);
      } else {
        var v;
        s, v := Examine(host, wakeSet, inSet, i, stableFor, s);
        NoSleepJoins(old(host.log), log0, host.log);
        LookOnce(log0, host.log, wakeSet[i].name, NamesIn(wakeSet[..i]));
        if v.Failed? {
          PassReleasedGrows(wakeSet, i, s0.released, s.released);
          PrefixNames(wakeSet, i + 1);
          LookedAtMore(host.log, NamesIn(wakeSet[..i + 1]), NamesIn(wakeSet));
          ok := false;
          return;
        }
        SettledStays(wakeSet, i, s0.released, before, s, log0, host.log, stableFor);
        SettledByVerdict(wakeSet, i, s0.released, before, s, v, host.log, stableFor);
        SettleOne(wakeSet, i, s0.released, s, host.log, stableFor);
        if v.ReleasedNow? {
          progress := true;
        } else if blocked == "" {
          blocked := wakeSet[i].name;
        }
      }
      BlockedStep(wakeSet, i, before.released, s.released, blocked0, blocked);
    }
    PassReleasedGrows(wakeSet, |wakeSet|, s0.released, s.released);
    PrefixNames(wakeSet, |wakeSet|);
    LookedAtMore(host.log, NamesIn(wakeSet[..|wakeSet|]), NamesIn(wakeSet));
    ok := true;
  }

  lemma LookedAtMore(log: seq<Event>, names: set<string>, more: set<string>)
    requires LookedAt(log, names) && names <= more
    ensures LookedAt(log, more)
  {
  }

  lemma PrefixNames(wakeSet: seq<Container>, n: nat)
    requires n <= |wakeSet|
    ensures NamesIn(wakeSet[..n]) <= NamesIn(wakeSet)
  {
    forall x | x in NamesIn(wakeSet[..n]) ensures x in NamesIn(wakeSet) {
      var j :| 0 <= j < n && x == wakeSet[..n][j].name;
      assert x == wakeSet[j].name;
    }
  }

  lemma NoSleepJoins(a: seq<Event>, b: seq<Event>, c: seq<Event>)
    requires NoSleep(a, b) && NoSleep(b, c)
    ensures NoSleep(a, c)
  {
  }

  lemma PassBegins(wakeSet: seq<Container>, s: Progress, log: seq<Event>, stableFor: int)
    ensures PassReleased(wakeSet, 0, s.released, s.released) && NoSleep(log, log) && NamesIn(wakeSet[..0]) == {}
    ensures Settled(wakeSet, 0, s.released, s, log, stableFor) && NamesBlocked(wakeSet, 0, s.released, "")
  {
  }

  lemma PassGrows(wakeSet: seq<Container>, i: nat, before: set<string>, released: set<string>)
    requires i < |wakeSet| && PassReleased(wakeSet, i, before, released)
    ensures PassReleased(wakeSet, i + 1, before, released)
    ensures PassReleased(wakeSet, i + 1, before, released + {wakeSet[i].name})
    ensures wakeSet[i].name !in released ==> released + {wakeSet[i].name} != before
  {
    NameIsIn(wakeSet, i);
  }

  lemma PassReleasedGrows(wakeSet: seq<Container>, n: nat, before: set<string>, released: set<string>)
    requires n <= |wakeSet| && PassReleased(wakeSet, n, before, released)
    ensures before <= released
  {
  }

  lemma SettledReleased(wakeSet: seq<Container>, i: nat, before: set<string>, s: Progress, log: seq<Event>,
                        stableFor: int)
    requires i < |wakeSet| && wakeSet[i].name in s.released
    ensures SettledAt(wakeSet, i, before, s, log, stableFor)
  {
  }

  lemma SettledByVerdict(wakeSet: seq<Container>, i: nat, before: set<string>, s0: Progress, s: Progress, v: Verdict,
                         log: seq<Event>, stableFor: int)
    requires i < |wakeSet| && DistinctNames(wakeSet) && PassReleased(wakeSet, i, before, s0.released)
    requires s.released == if v.ReleasedNow? then s0.released + {wakeSet[i].name} else s0.released
    requires v.Blocked? ==> BlockedRightly(wakeSet, i, s0.released, s, log, stableFor)
    requires !v.Failed?
    ensures SettledAt(wakeSet, i, before, s, log, stableFor)
  {
    hide BlockedRightly;
    ReleasedIsEarly(wakeSet, i, before, s0.released);
  }

  // ----- The attempt

  datatype WakeResult = Awake(started: seq<string>) | TimedOut(blocked: string) | DockerFailed | Cancelled

  function CeilDiv(a: int, b: int): (q: nat)
    requires b > 0
    ensures if a <= 0 then q == 0 else (q - 1) * b < a <= q * b
  {
    if a <= 0 then 0 else (a + b - 1) / b
  }

  /** Fewer than `CeilDiv` whole polls fit before the deadline. */
  lemma PollsFit(m: nat, poll: int, timeout: int)
    requires poll > 0 && m * poll < timeout
    ensures m + 1 <= CeilDiv(timeout, poll)
  {
    var q := (timeout + poll - 1) / poll;
    assert q * poll <= timeout + poll - 1 < q * poll + poll;
    PollsMonotone(q, m, poll);
  }

  lemma PollsMonotone(q: int, m: int, poll: int)
    requires poll > 0
    ensures q <= m ==> q * poll <= m * poll
  {
  }

  lemma PassBudget(n: nat, rearms: nat, k: nat, m: nat, passes: nat)
    requires rearms <= n && m <= k && passes <= rearms * k + m
    ensures passes + 1 <= (n + 1) * (k + 1)
  {
    assert rearms * k <= n * k;
    assert (n + 1) * (k + 1) == n * k + n + k + 1;
  }

  /** Stops everything that was started, last started first. */
  ghost predicate RollsBack(stops: seq<Event>, started: seq<string>) {
    |stops| == |started|
    && forall k :: 0 <= k < |stops| ==> stops[k].Stop? && stops[k].name == started[|started| - 1 - k]
  }

  method Rollback(host: Host, started: seq<string>) returns (ghost stops: seq<Event>)
    modifies host
    ensures host.log == old(host.log) + stops && RollsBack(stops, started)
  {
    stops := [];
    var i := |started|;
    while i > 0
      invariant 0 <= i <= |started|
      invariant host.log == old(host.log) + stops && |stops| == |started| - i
      invariant forall k :: 0 <= k < |stops| ==> stops[k].Stop? && stops[k].name == started[|started| - 1 - k]
    {
      i := i - 1;
      var ok := host.StopContainer(started[i]);
      stops := stops + [Stop(started[i], ok)];
    }
  }

  /** The last pass began at `n`: after a wait, or at the very beginning. */
  ghost predicate PassFrom(log: seq<Event>, n: nat) {
    && n <= |log| && (n == 0 || log[n - 1].Slept?)
    && forall k :: n <= k < |log| ==> !log[k].Slept?
  }

  /** `before` was released when the last pass began. */
  ghost predicate BeganWith(log: seq<Event>, before: set<string>, n: nat) {
    PassFrom(log, n) && forall c :: c in before <==> Released(c) in log[..n]
  }

  /** The deadline was re-armed at `a`: right after a pass that released something, right
      before the reading that tests it and the wait. */
  ghost predicate RearmedAt(log: seq<Event>, a: nat) {
    && 0 < a && a + 1 < |log| && log[a].Clock? && log[a + 1].Clock?
    && (a + 2 == |log| || log[a + 2].Slept?)
    && exists r :: 0 <= r < a && log[r].Released? && forall k :: r < k < a ==> !log[k].Slept?
  }

  /** The current deadline counts from the reading at `a`. */
  ghost predicate ArmedAt(log: seq<Event>, a: nat) {
    && a < |log| && log[a].Clock? && (a == 0 || RearmedAt(log, a))
    && forall k :: a < k < |log| ==> !log[k].Released?
  }

  /** The last reading is at least `timeout` after the one that armed the deadline. */
  ghost predicate DeadlinePassed(log: seq<Event>, timeout: int) {
    exists a: nat :: ArmedAt(log, a) && a + 1 < |log| && log[|log| - 1].Clock?
                     && log[|log| - 1].at - log[a].at >= timeout
  }

  /** How a timed-out attempt stood at the end of its last pass. */
  ghost predicate TimeoutState(wakeSet: seq<Container>, timeout: int, stableFor: int, log: seq<Event>,
                               before: set<string>, s: Progress, blocked: string) {
    && Tracks(wakeSet, stableFor, log, s) && s.released != NamesIn(wakeSet)
    && Forward(log) && OncePerPass(log)
    && (exists n: nat :: BeganWith(log, before, n))
    && Settled(wakeSet, |wakeSet|, before, s, log, stableFor) && NamesBlocked(wakeSet, |wakeSet|, s.released, blocked)
    && DeadlinePassed(log, timeout)
  }

  /** `WakeResource`, past the lookup and the per-resource gate. */
  method WakeResource(host: Host, wakeSet: seq<Container>, timeout: int, poll: int, stableFor: int)
    returns (r: WakeResult, ghost body: seq<Event>, ghost stops: seq<Event>,
             ghost before: set<string>, ghost last: Progress)
    requires DistinctNames(wakeSet) && NonEmptyNames(wakeSet) && poll > 0 && host.log == []
    modifies host
    ensures SafeLog(wakeSet, stableFor, body) && host.log == body + stops
    ensures NoDuplicates(FirstStarts(body)) && NeedsFirst(wakeSet, FirstStarts(body))
    ensures r.Awake? ==>
      && stops == [] && r.started == FirstStarts(body)
      && forall c :: c in NamesIn(wakeSet) ==> Released(c) in body
    ensures !r.Awake? ==> RollsBack(stops, FirstStarts(body))
    ensures OncePerPass(body) && Forward(body)
    ensures Waits(body) + (if r.Cancelled? then 0 else 1) <= (|wakeSet| + 1) * (CeilDiv(timeout, poll) + 1)
    ensures r.TimedOut? ==> TimeoutState(wakeSet, timeout, stableFor, body, before, last, r.blocked)
    ensures r.DockerFailed? ==> FailedCall(body)
    ensures r.Cancelled? ==> body != [] && body[|body| - 1] == Slept(false)
  {
    hide *;
    var inSet := SetOfNames(wakeSet);
    var s := Progress({}, {}, [], map[]);
    WakeBegins(wakeSet, stableFor);
    before, last, stops := {}, s, [];
    ghost var passes := 0;
    NothingHappened(host);
    var now := host.Now();
    FirstReading(now);
    ClockIsNeutral(wakeSet, stableFor, [], s, now);
    NoWindows(host.log, s);
    var deadline := now + timeout;
    ghost var armed, sleeps, rearms, budget := now, 0, 0, CeilDiv(timeout, poll);
    CeilIsNat(timeout, poll);
    ghost var a: nat, n: nat := 0, 0;
    FirstArming(now);
    assert host.log == [Clock(now)];
    while true
      invariant Arming(host.log, a, armed) && BeganWith(host.log, s.released, n)
      invariant Tracks(wakeSet, stableFor, host.log, s) && Windows(host.log, s, {})
      invariant deadline == armed + timeout && host.time >= armed + sleeps * poll
      invariant sleeps <= budget && rearms <= |s.released| <= |wakeSet|
      invariant passes <= rearms * budget + sleeps && passes == Waits(host.log)
      invariant host.Timed() && OncePerPass(host.log) && LookedAt(host.log, {})
      decreases |wakeSet| - |s.released|, budget - sleeps
    {
      before := s.released;
      ghost var log0, s0 := host.log, s;
      var ok, progress, blocked;
      s, ok, progress, blocked := Pass(host, wakeSet, inSet, stableFor, s);
      ReleasedCount(wakeSet, stableFor, host.log, s);
      PassBudget(|wakeSet|, rearms, budget, sleeps, passes);
      passes := passes + 1;
      SamePassWaits(log0, host.log);
      TimedIsForward(host);
      if !ok {
        body := host.log;
        TracksEnds(wakeSet, stableFor, body, s);
        stops := Rollback(host, s.started);
        return DockerFailed, body, stops, before, s;
      }
      if |s.released| == |wakeSet| {
        AllReleased(wakeSet, stableFor, host.log, s);
        TracksEnds(wakeSet, stableFor, host.log, s);
        return Awake(s.started), host.log, [], before, s;
      }
      if progress {
        SetGrew(before, s.released);
        RearmBudget(rearms, budget, sleeps, passes);
        sleeps, rearms := 0, rearms + 1;
      }
      var expired;
      deadline, expired, a, armed :=
        TestDeadline(host, wakeSet, timeout, stableFor, s, progress, deadline, log0, s0, n, a, armed);
      TimedIsForward(host);
      if expired {
        body := host.log;
        TestedTracks(wakeSet, stableFor, body, before, s, n, a, armed);
        TracksEnds(wakeSet, stableFor, body, s);
        TimeoutEnds(wakeSet, stableFor, timeout, body, before, s, blocked, a, armed, n);
        stops := Rollback(host, s.started);
        return TimedOut(blocked), body, stops, before, s;
      }
      TestedTracks(wakeSet, stableFor, host.log, before, s, n, a, armed);
      PollsFit(sleeps, poll, timeout);
      ghost var log3 := host.log;
      var slept := host.Sleep(poll);
      SleepIsNeutral(wakeSet, stableFor, log3, s, slept);
      TickLooks(log3, Slept(slept), NamesIn(wakeSet));
      TimedIsForward(host);
      if !slept {
        body := host.log;
        TracksEnds(wakeSet, stableFor, body, s);
        stops := Rollback(host, s.started);
        return Cancelled, body, stops, before, s;
      }
      OneMorePoll(sleeps, poll);
      sleeps := sleeps + 1;
      SleepAfterArming(log3, a, armed);
      n := |host.log|;
      PassBeginsHere(wakeSet, stableFor, host.log, s);
    }
  }

  /** After the reading that tests the deadline. */
  ghost predicate Tested(wakeSet: seq<Container>, stableFor: int, log: seq<Event>, before: set<string>, s: Progress,
                         n: nat, a: nat, armed: int) {
    && Tracks(wakeSet, stableFor, log, s) && Windows(log, s, {})
    && Settled(wakeSet, |wakeSet|, before, s, log, stableFor) && BeganWith(log, before, n)
    && ArmedAt(log, a) && log[a] == Clock(armed) && a + 1 < |log| && log[|log| - 1].Clock?
    && OncePerPass(log) && LookedAt(log, NamesIn(wakeSet))
  }

  lemma TestedTracks(wakeSet: seq<Container>, stableFor: int, log: seq<Event>, before: set<string>, s: Progress,
                     n: nat, a: nat, armed: int)
    requires Tested(wakeSet, stableFor, log, before, s, n, a, armed)
    ensures Tracks(wakeSet, stableFor, log, s) && Windows(log, s, {}) && OncePerPass(log)
    ensures LookedAt(log, NamesIn(wakeSet)) && ArmedAt(log, a) && log[a] == Clock(armed)
  {
    hide Tracks, Windows, OncePerPass, LookedAt, ArmedAt;
  }

  /** Re-arms the deadline after a pass that released something, and tests it. */
  method TestDeadline(host: Host, wakeSet: seq<Container>, timeout: int, stableFor: int, s: Progress, progress: bool,
                      deadline0: int, ghost log0: seq<Event>, ghost s0: Progress, ghost n: nat,
                      ghost a0: nat, ghost armed0: int)
    returns (deadline: int, expired: bool, ghost a: nat, ghost armed: int)
    requires Tracks(wakeSet, stableFor, log0, s0) && Tracks(wakeSet, stableFor, host.log, s) && Windows(host.log, s, {})
    requires NoSleep(log0, host.log) && s0.released <= s.released && (progress <==> s.released != s0.released)
    requires Arming(log0, a0, armed0) && BeganWith(log0, s0.released, n) && deadline0 == armed0 + timeout
    requires Settled(wakeSet, |wakeSet|, s0.released, s, host.log, stableFor)
    requires OncePerPass(host.log) && LookedAt(host.log, NamesIn(wakeSet)) && host.Timed()
    modifies host
    ensures Tested(wakeSet, stableFor, host.log, s0.released, s, n, a, armed) && host.Timed()
    ensures Waits(host.log) == old(Waits(host.log)) && host.time >= old(host.time)
    ensures deadline == armed + timeout && (expired <==> host.time >= deadline)
    ensures host.log[|host.log| - 1] == Clock(host.time)
    ensures if progress then armed <= host.time else armed == armed0
  {
    hide *;
    ghost var log1, before := host.log, s0.released;
    PassContinues(log0, log1, before, n);
    deadline, a, armed := deadline0, a0, armed0;
    if progress {
      var now := host.Now();
      ReadingIsNeutral(wakeSet, stableFor, log1, before, s, n, now);
      deadline, armed := now + timeout, now;
    } else {
      ArmingHolds(wakeSet, stableFor, log0, log1, s0, s, a, armed);
    }
    ghost var log2 := host.log;
    var now := host.Now();
    ReadingIsNeutral(wakeSet, stableFor, log2, before, s, n, now);
    if progress {
      a := |log1|;
      Rearming(wakeSet, stableFor, log0, log1, s0, s, armed, now);
    } else {
      ClockAfterArming(log1, a, armed, now);
    }
    IsTested(wakeSet, stableFor, host.log, before, s, n, a, armed);
    expired := now >= deadline;
  }

  lemma ReadingIsNeutral(wakeSet: seq<Container>, stableFor: int, log: seq<Event>, before: set<string>, s: Progress,
                         n: nat, now: int)
    requires Tracks(wakeSet, stableFor, log, s) && Windows(log, s, {}) && BeganWith(log, before, n)
    requires Settled(wakeSet, |wakeSet|, before, s, log, stableFor) && OncePerPass(log)
    requires LookedAt(log, NamesIn(wakeSet))
    ensures var all := log + [Clock(now)];
      && Tracks(wakeSet, stableFor, all, s) && Windows(all, s, {}) && BeganWith(all, before, n)
      && Settled(wakeSet, |wakeSet|, before, s, all, stableFor) && OncePerPass(all) && LookedAt(all, NamesIn(wakeSet))
      && Waits(all) == Waits(log) && all[|log|] == Clock(now)
  {
    hide *;
    ClockIsNeutral(wakeSet, stableFor, log, s, now);
    WindowsExtend(log, s, Clock(now));
    SettledThroughClock(wakeSet, before, s, log, now, stableFor);
    PassContinues(log, log + [Clock(now)], before, n);
    TickLooks(log, Clock(now), NamesIn(wakeSet));
  }

  lemma IsTested(wakeSet: seq<Container>, stableFor: int, log: seq<Event>, before: set<string>, s: Progress,
                 n: nat, a: nat, armed: int)
    requires Tracks(wakeSet, stableFor, log, s) && Windows(log, s, {})
    requires Settled(wakeSet, |wakeSet|, before, s, log, stableFor) && BeganWith(log, before, n)
    requires ArmedAt(log, a) && log[a] == Clock(armed) && a + 1 < |log| && log[|log| - 1].Clock?
    requires OncePerPass(log) && LookedAt(log, NamesIn(wakeSet))
    ensures Tested(wakeSet, stableFor, log, before, s, n, a, armed)
  {
    hide Tracks, Windows, Settled, BeganWith, ArmedAt, OncePerPass, LookedAt;
  }

  lemma NothingHappened(host: Host)
    requires host.log == []
    ensures host.Timed()
  {
  }

  lemma FirstReading(now: int)
    ensures OncePerPass([Clock(now)]) && LookedAt([Clock(now)], {}) && Waits([Clock(now)]) == 0
  {
    WaitsAppend([], Clock(now));
    assert [] + [Clock(now)] == [Clock(now)];
  }

  lemma TimedIsForward(host: Host)
    requires host.Timed()
    ensures Forward(host.log)
  {
  }

  lemma SamePassWaits(log: seq<Event>, after: seq<Event>)
    requires NoSleep(log, after)
    ensures Waits(after) == Waits(log)
  {
    WaitsUnchanged(log, after);
  }

  /** A reading or a wait inspects nothing. */
  lemma TickLooks(log: seq<Event>, e: Event, names: set<string>)
    requires OncePerPass(log) && LookedAt(log, names) && (e.Clock? || e.Slept?)
    ensures OncePerPass(log + [e]) && LookedAt(log + [e], names) && (e.Slept? ==> LookedAt(log + [e], {}))
    ensures Waits(log + [e]) == Waits(log) + if e.Slept? then 1 else 0
  {
    hide OncePerPass, LookedAt, Waits;
    NoLook(log, log + [e], names);
    WaitsAppend(log, e);
  }

  method SetOfNames(wakeSet: seq<Container>) returns (names: set<string>)
    ensures names == NamesIn(wakeSet)
  {
    names := {};
    for i := 0 to |wakeSet|
      invariant names == NamesIn(wakeSet[..i])
    {
      NameIsIn(wakeSet, i);
      names := names + {wakeSet[i].name};
    }
    assert wakeSet[..|wakeSet|] == wakeSet;
  }

  lemma WakeBegins(wakeSet: seq<Container>, stableFor: int)
    ensures Tracks(wakeSet, stableFor, [], Progress({}, {}, [], map[]))
  {
  }

  lemma NoWindows(log: seq<Event>, s: Progress)
    requires s.startedByWake == {}
    ensures Windows(log, s, {})
  {
  }

  lemma CeilIsNat(timeout: int, poll: int)
    requires poll > 0
    ensures CeilDiv(timeout, poll) >= 0
  {
  }

  lemma ReleasedCount(wakeSet: seq<Container>, stableFor: int, log: seq<Event>, s: Progress)
    requires Tracks(wakeSet, stableFor, log, s)
    ensures |s.released| <= |wakeSet|
  {
    hide SafeLog, FirstStarts;
    NamesCount(wakeSet);
    SubsetCount(s.released, NamesIn(wakeSet));
  }

  lemma {:induction false} NamesCount(wakeSet: seq<Container>)
    ensures |NamesIn(wakeSet)| <= |wakeSet|
    decreases |wakeSet|
  {
    if wakeSet != [] {
      var n := |wakeSet| - 1;
      NamesCount(wakeSet[..n]);
      NameIsIn(wakeSet, n);
      assert wakeSet[..n + 1] == wakeSet;
    }
  }

  lemma SubsetCount<T>(a: set<T>, b: set<T>)
    requires a <= b
    ensures |a| <= |b|
    ensures |a| == |b| ==> a == b
  {
    assert b == a + (b - a);
  }

  lemma SetGrew(a: set<string>, b: set<string>)
    requires a <= b && a != b
    ensures |a| < |b|
  {
    SubsetCount(a, b);
  }

  lemma RearmBudget(rearms: nat, k: nat, m: nat, passes: nat)
    requires m <= k && passes <= rearms * k + m + 1
    ensures passes <= (rearms + 1) * k + 1
  {
    assert (rearms + 1) * k == rearms * k + k;
  }

  lemma OneMorePoll(m: nat, poll: int)
    ensures (m + 1) * poll == m * poll + poll
  {
  }

  lemma AllReleased(wakeSet: seq<Container>, stableFor: int, log: seq<Event>, s: Progress)
    requires Tracks(wakeSet, stableFor, log, s) && |s.released| == |wakeSet|
    ensures forall c :: c in NamesIn(wakeSet) ==> Released(c) in log
  {
    hide SafeLog, FirstStarts;
    NamesCount(wakeSet);
    SubsetCount(s.released, NamesIn(wakeSet));
  }

  lemma TracksEnds(wakeSet: seq<Container>, stableFor: int, log: seq<Event>, s: Progress)
    requires Tracks(wakeSet, stableFor, log, s)
    ensures SafeLog(wakeSet, stableFor, log) && s.started == FirstStarts(log)
    ensures NoDuplicates(FirstStarts(log)) && NeedsFirst(wakeSet, FirstStarts(log))
  {
    hide SafeLog, FirstStarts, NeedsFirst;
    StartOrder(wakeSet, stableFor, log);
  }

  /** At the beginning of a pass the deadline counts from reading `a`. */
  ghost predicate Arming(log: seq<Event>, a: nat, armed: int) {
    ArmedAt(log, a) && log[a] == Clock(armed) && (a == 0 || a + 2 < |log|)
  }

  lemma FirstArming(now: int)
    ensures Arming([Clock(now)], 0, now) && BeganWith([Clock(now)], {}, 0)
  {
  }

  lemma PassContinues(log: seq<Event>, log': seq<Event>, before: set<string>, n: nat)
    requires BeganWith(log, before, n)
    ensures NoSleep(log, log') ==> BeganWith(log', before, n)
    ensures |log'| == |log| + 1 && log <= log' && log'[|log|].Clock? ==> BeganWith(log', before, n)
  {
    if log <= log' {
      assert log'[..n] == log[..n];
    }
  }

  lemma NotReleasedAgain(wakeSet: seq<Container>, stableFor: int, log: seq<Event>, log': seq<Event>, k: nat, c: string)
    requires SafeLog(wakeSet, stableFor, log') && log <= log' && |log| <= k < |log'| && Released(c) in log
    ensures log'[k] != Released(c)
  {
    hide MayRelease;
    assert EventOk(wakeSet, stableFor, log'[..k], log'[k]);
    var i :| 0 <= i < |log| && log[i] == Released(c);
    assert log'[..k][i] == Released(c);
  }

  /** A pass that made no progress released nothing. */
  lemma NoNewRelease(wakeSet: seq<Container>, stableFor: int, log: seq<Event>, log': seq<Event>, s: Progress,
                     s': Progress, k: nat)
    requires Tracks(wakeSet, stableFor, log, s) && Tracks(wakeSet, stableFor, log', s') && s'.released == s.released
    requires log <= log' && |log| <= k < |log'|
    ensures !log'[k].Released?
  {
    hide SafeLog, FirstStarts;
    forall c ensures log'[k] != Released(c) {
      if Released(c) in log {
        NotReleasedAgain(wakeSet, stableFor, log, log', k, c);
      } else {
        assert c !in s'.released;
      }
    }
  }

  lemma RearmedStays(log: seq<Event>, log': seq<Event>, a: nat)
    requires RearmedAt(log, a) && log <= log' && (a + 2 == |log'| || log'[a + 2].Slept?)
    ensures RearmedAt(log', a)
  {
    var r :| 0 <= r < a && log[r].Released? && forall k :: r < k < a ==> !log[k].Slept?;
    assert log'[r].Released? && forall k :: r < k < a ==> !log'[k].Slept?;
  }

  lemma ArmingHolds(wakeSet: seq<Container>, stableFor: int, log: seq<Event>, log': seq<Event>, s: Progress,
                    s': Progress, a: nat, armed: int)
    requires Tracks(wakeSet, stableFor, log, s) && Tracks(wakeSet, stableFor, log', s') && s'.released == s.released
    requires Arming(log, a, armed) && NoSleep(log, log')
    ensures Arming(log', a, armed)
  {
    hide Tracks;
    forall k | a < k < |log'| ensures !log'[k].Released? {
      if k >= |log| {
        NoNewRelease(wakeSet, stableFor, log, log', s, s', k);
      }
    }
    if a != 0 {
      RearmedStays(log, log', a);
    }
  }

  lemma ClockAfterArming(log: seq<Event>, a: nat, armed: int, now: int)
    requires Arming(log, a, armed)
    ensures var all := log + [Clock(now)]; ArmedAt(all, a) && all[a] == Clock(armed) && a + 1 < |all|
  {
    if a != 0 {
      RearmedStays(log, log + [Clock(now)], a);
    }
  }

  /** A pass that made progress is followed by the arming and the test. */
  lemma Rearming(wakeSet: seq<Container>, stableFor: int, log: seq<Event>, log': seq<Event>, s: Progress, s': Progress,
                 armed: int, now: int)
    requires Tracks(wakeSet, stableFor, log, s) && Tracks(wakeSet, stableFor, log', s')
    requires s.released <= s'.released && s.released != s'.released && NoSleep(log, log')
    ensures var all := log' + [Clock(armed)] + [Clock(now)];
      ArmedAt(all, |log'|) && all[|log'|] == Clock(armed) && |all| == |log'| + 2
  {
    hide SafeLog, FirstStarts;
    var all := log' + [Clock(armed)] + [Clock(now)];
    var c := Outside(s.released, s'.released);
    var r :| 0 <= r < |log'| && log'[r] == Released(c);
    assert Released(c) !in log && forall k :: 0 <= k < |log| ==> log[k] == log'[k];
    assert all[r].Released? && forall k :: r < k < |log'| ==> !all[k].Slept?;
    assert RearmedAt(all, |log'|);
  }

  lemma SleepAfterArming(log: seq<Event>, a: nat, armed: int)
    requires ArmedAt(log, a) && log[a] == Clock(armed)
    ensures Arming(log + [Slept(true)], a, armed)
  {
    var all := log + [Slept(true)];
    if a != 0 {
      RearmedStays(log, all, a);
    }
  }

  lemma SleepIsNeutral(wakeSet: seq<Container>, stableFor: int, log: seq<Event>, s: Progress, ok: bool)
    requires Tracks(wakeSet, stableFor, log, s) && Windows(log, s, {})
    ensures Tracks(wakeSet, stableFor, log + [Slept(ok)], s) && Windows(log + [Slept(ok)], s, {})
    ensures (log + [Slept(ok)])[|log|] == Slept(ok)
  {
    hide Tracks, Windows;
    TracksNeutral(wakeSet, stableFor, log, s, Slept(ok));
    WindowsExtend(log, s, Slept(ok));
  }

  lemma PassBeginsHere(wakeSet: seq<Container>, stableFor: int, log: seq<Event>, s: Progress)
    requires Tracks(wakeSet, stableFor, log, s) && log != [] && log[|log| - 1].Slept?
    ensures BeganWith(log, s.released, |log|)
  {
    hide SafeLog, FirstStarts;
    assert log[..|log|] == log;
  }

  lemma TimeoutEnds(wakeSet: seq<Container>, stableFor: int, timeout: int, log: seq<Event>,
                    before: set<string>, s: Progress, blocked: string, a: nat, armed: int, n: nat)
    requires Tested(wakeSet, stableFor, log, before, s, n, a, armed) && Forward(log)
    requires |s.released| != |wakeSet| && DistinctNames(wakeSet)
    requires NamesBlocked(wakeSet, |wakeSet|, s.released, blocked) && log[|log| - 1].at >= armed + timeout
    ensures TimeoutState(wakeSet, timeout, stableFor, log, before, s, blocked)
  {
    hide Tracks, Settled, NamesBlocked, BeganWith, ArmedAt, Windows, OncePerPass, LookedAt, Forward;
    ExactNamesCount(wakeSet);
  }

  lemma {:induction false} ExactNamesCount(wakeSet: seq<Container>)
    requires DistinctNames(wakeSet)
    ensures |NamesIn(wakeSet)| == |wakeSet|
    decreases |wakeSet|
  {
    if wakeSet != [] {
      var n := |wakeSet| - 1;
      ExactNamesCount(wakeSet[..n]);
      NameIsIn(wakeSet, n);
      assert wakeSet[..n + 1] == wakeSet;
    }
  }

  // ----- Why an attempt times out

  /** Started by this attempt, all its needs released, and not ready. */
  ghost predicate Culprit(wakeSet: seq<Container>, k: nat, s: Progress, log: seq<Event>, stableFor: int)
    requires k < |wakeSet|
  {
    && wakeSet[k].name in s.startedByWake && wakeSet[k].name !in s.released
    && DepsMet(wakeSet[k], s.released, NamesIn(wakeSet)) && NotReady(log, wakeSet[k].name, stableFor)
  }

  ghost predicate HasCulprit(wakeSet: seq<Container>, s: Progress, log: seq<Event>, stableFor: int) {
    exists k :: 0 <= k < |wakeSet| && Culprit(wakeSet, k, s, log, stableFor)
  }

  /** The needs within the set have lower ranks: the graph has no cycle. */
  ghost predicate Ranked(wakeSet: seq<Container>, rank: map<string, nat>) {
    && rank.Keys == NamesIn(wakeSet)
    && forall k, d :: 0 <= k < |wakeSet| && d in wakeSet[k].needs && d in rank && wakeSet[k].name in rank
                      ==> rank[d] < rank[wakeSet[k].name]
  }

  /** In an acyclic wake set some unreleased container waits for nothing. */
  lemma {:induction false} SomeoneIsUnblocked(wakeSet: seq<Container>, rank: map<string, nat>, released: set<string>,
                                              k: nat)
    returns (m: nat)
    requires Ranked(wakeSet, rank) && k < |wakeSet| && wakeSet[k].name !in released && wakeSet[k].name in rank
    ensures m < |wakeSet| && wakeSet[m].name !in released && DepsMet(wakeSet[m], released, NamesIn(wakeSet))
    decreases rank[wakeSet[k].name]
  {
    if DepsMet(wakeSet[k], released, NamesIn(wakeSet)) {
      m := k;
    } else {
      var needs := wakeSet[k].needs;
      var i :| 0 <= i < |needs| && needs[i] in NamesIn(wakeSet) && needs[i] !in released;
      var d := needs[i];
      var j :| 0 <= j < |wakeSet| && wakeSet[j].name == d;
      assert d in wakeSet[k].needs;
      m := SomeoneIsUnblocked(wakeSet, rank, released, j);
    }
  }

  /** An acyclic wake that times out after a pass that released nothing has a container that
      was started, lacks nothing, and is not ready. */
  lemma TimeoutHasCulprit(wakeSet: seq<Container>, rank: map<string, nat>, timeout: int, stableFor: int,
                          log: seq<Event>, before: set<string>, s: Progress, blocked: string)
    requires Ranked(wakeSet, rank) && TimeoutState(wakeSet, timeout, stableFor, log, before, s, blocked)
    requires s.released == before
    ensures HasCulprit(wakeSet, s, log, stableFor)
  {
    assert s.released <= NamesIn(wakeSet);
    hide Tracks, NamesBlocked, DepsMet, NotReady, BeganWith, DeadlinePassed;
    var c := Outside(s.released, NamesIn(wakeSet));
    var k :| 0 <= k < |wakeSet| && wakeSet[k].name == c;
    var m := SomeoneIsUnblocked(wakeSet, rank, s.released, k);
    assert SettledAt(wakeSet, m, before, s, log, stableFor);
    assert EarlyReleased(wakeSet, m, before, s.released) == s.released;
    assert Culprit(wakeSet, m, s, log, stableFor);
  }

  /** Two readings next to each other, the later at least `timeout` after the earlier, end the log. */
  ghost predicate ClockJumped(log: seq<Event>, timeout: int) {
    && |log| >= 2 && log[|log| - 1].Clock? && log[|log| - 2].Clock?
    && log[|log| - 1].at - log[|log| - 2].at >= timeout
  }

  /** A timeout after a pass that released something: the deadline was re-armed, and a whole
      budget passed before the very next reading. */
  lemma ProgressMeansJump(wakeSet: seq<Container>, timeout: int, stableFor: int, log: seq<Event>,
                          before: set<string>, s: Progress, blocked: string)
    requires TimeoutState(wakeSet, timeout, stableFor, log, before, s, blocked) && s.released != before
    ensures RearmedAt(log, |log| - 2) && ClockJumped(log, timeout)
  {
    hide SafeLog, FirstStarts, Settled, NamesBlocked, Forward, OncePerPass;
    var n: nat :| BeganWith(log, before, n);
    var r := NewRelease(log, before, s.released, n);
    var a: nat :| ArmedAt(log, a) && a + 1 < |log| && log[|log| - 1].Clock? && log[|log| - 1].at - log[a].at >= timeout;
    assert n <= r < a;
  }

  /** What was released beyond `before` was released in the last pass. */
  lemma NewRelease(log: seq<Event>, before: set<string>, released: set<string>, n: nat) returns (r: nat)
    requires BeganWith(log, before, n) && released != before && forall c :: c in released <==> Released(c) in log
    ensures n <= r < |log| && log[r].Released?
  {
    forall c | c in before ensures c in released {
      assert Released(c) in log[..n];
    }
    var c := Outside(before, released);
    r :| 0 <= r < |log| && log[r] == Released(c);
    assert Released(c) !in log[..n] && forall k :: 0 <= k < n ==> log[k] == log[..n][k];
  }

  ghost predicate DependenciesFirst(wakeSet: seq<Container>) {
    forall k, d :: 0 <= k < |wakeSet| && d in wakeSet[k].needs && d in NamesIn(wakeSet) ==> d in NamesIn(wakeSet[..k])
  }

  /** Listed dependencies first, the error names such a container, jump or no jump. */
  lemma TimeoutNamesCulprit(wakeSet: seq<Container>, timeout: int, stableFor: int, log: seq<Event>, before: set<string>,
                            s: Progress, blocked: string)
    requires DependenciesFirst(wakeSet) && TimeoutState(wakeSet, timeout, stableFor, log, before, s, blocked)
    ensures exists k :: 0 <= k < |wakeSet| && wakeSet[k].name == blocked && Culprit(wakeSet, k, s, log, stableFor)
  {
    TimeoutWithin(wakeSet, timeout, stableFor, log, before, s, blocked);
    hide TimeoutState, Settled, BlockedRightly, DependenciesFirst, EarlyReleased, DepsMet, NamesBlocked, NotReady;
    SomethingIsBlocked(wakeSet, s.released, blocked);
    var k :| 0 <= k < |wakeSet| && wakeSet[k].name == blocked && blocked !in s.released
             && forall j :: 0 <= j < k ==> wakeSet[j].name in s.released;
    FirstHasNeeds(wakeSet, k, before, s.released);
    RightlyNotReady(wakeSet, k, before, s, log, stableFor);
    assert Culprit(wakeSet, k, s, log, stableFor);
  }

  lemma TimeoutWithin(wakeSet: seq<Container>, timeout: int, stableFor: int, log: seq<Event>, before: set<string>,
                      s: Progress, blocked: string)
    requires TimeoutState(wakeSet, timeout, stableFor, log, before, s, blocked)
    ensures s.released <= NamesIn(wakeSet) && s.released != NamesIn(wakeSet)
    ensures NamesBlocked(wakeSet, |wakeSet|, s.released, blocked)
    ensures Settled(wakeSet, |wakeSet|, before, s, log, stableFor)
  {
    hide SafeLog, FirstStarts, NamesBlocked, Settled, BeganWith, DeadlinePassed;
  }

  /** Listed dependencies first, the first unreleased container lacks nothing, then or now. */
  lemma FirstHasNeeds(wakeSet: seq<Container>, k: nat, before: set<string>, released: set<string>)
    requires DependenciesFirst(wakeSet) && k < |wakeSet| && forall j :: 0 <= j < k ==> wakeSet[j].name in released
    ensures DepsMet(wakeSet[k], released, NamesIn(wakeSet))
    ensures DepsMet(wakeSet[k], EarlyReleased(wakeSet, k, before, released), NamesIn(wakeSet))
  {
    forall i | 0 <= i < |wakeSet[k].needs| && wakeSet[k].needs[i] in NamesIn(wakeSet)
      ensures wakeSet[k].needs[i] in released && wakeSet[k].needs[i] in NamesIn(wakeSet[..k])
    {
      var d := wakeSet[k].needs[i];
      assert d in wakeSet[k].needs;
      var j :| 0 <= j < k && wakeSet[..k][j].name == d;
      assert wakeSet[j].name == d;
    }
  }

  lemma RightlyNotReady(wakeSet: seq<Container>, k: nat, before: set<string>, s: Progress, log: seq<Event>,
                        stableFor: int)
    requires k < |wakeSet| && Settled(wakeSet, |wakeSet|, before, s, log, stableFor) && wakeSet[k].name !in s.released
    requires DepsMet(wakeSet[k], EarlyReleased(wakeSet, k, before, s.released), NamesIn(wakeSet))
    ensures wakeSet[k].name in s.startedByWake && NotReady(log, wakeSet[k].name, stableFor)
  {
    hide DepsMet, EarlyReleased, NotReady, FoundStopped;
    assert SettledAt(wakeSet, k, before, s, log, stableFor);
  }

  // ----- Without the order a clock jump can leave no culprit

  const STOPPED := ContainerState(false, NoCheck)

  /** A first pass over `n` containers in which all but `k` are found running. */
  ghost function QuickPass(wakeSet: seq<Container>, k: nat, n: nat): seq<Event>
    requires n <= |wakeSet|
  {
    if n == 0 then [Clock(0)]
    else
      var c := wakeSet[n - 1].name;
      QuickPass(wakeSet, k, n - 1)
        + if n - 1 == k then [Inspected(c, STOPPED)] else [Inspected(c, STABLE)] + [Released(c)]
  }

  ghost function QuickState(wakeSet: seq<Container>, k: nat, n: nat): Progress
    requires n <= |wakeSet| && k < |wakeSet|
  {
    Progress(NamesIn(wakeSet[..n]) - {wakeSet[k].name}, {}, [], map[])
  }

  /** Something other than the last container's name was released: `d`, and nobody slept. */
  lemma {:induction false} QuickPassShape(wakeSet: seq<Container>, k: nat, n: nat)
    requires n <= |wakeSet|
    ensures forall i :: 0 <= i < |QuickPass(wakeSet, k, n)| ==> !QuickPass(wakeSet, k, n)[i].Slept?
    ensures QuickPass(wakeSet, k, n) != [] && QuickPass(wakeSet, k, n)[0] == Clock(0)
    ensures forall i :: 0 < i < |QuickPass(wakeSet, k, n)| ==> !QuickPass(wakeSet, k, n)[i].Clock?
  {
    if n > 0 {
      QuickPassShape(wakeSet, k, n - 1);
    }
  }

  lemma {:induction false} QuickPassTracks(wakeSet: seq<Container>, k: nat, n: nat, stableFor: int)
    requires DistinctNames(wakeSet) && k < |wakeSet| && n <= |wakeSet|
    ensures Tracks(wakeSet, stableFor, QuickPass(wakeSet, k, n), QuickState(wakeSet, k, n))
    ensures Windows(QuickPass(wakeSet, k, n), QuickState(wakeSet, k, n), {})
  {
    hide Tracks, Windows, ReadyOutcome;
    var s := QuickState(wakeSet, k, n);
    if n == 0 {
      assert s == Progress({}, {}, [], map[]);
      WakeBegins(wakeSet, stableFor);
      ClockIsNeutral(wakeSet, stableFor, [], s, 0);
      assert [] + [Clock(0)] == [Clock(0)];
      NoWindows([Clock(0)], s);
    } else {
      QuickPassTracks(wakeSet, k, n - 1, stableFor);
      QuickTurn(wakeSet, k, n - 1, stableFor);
    }
  }

  lemma QuickTurn(wakeSet: seq<Container>, k: nat, m: nat, stableFor: int)
    requires DistinctNames(wakeSet) && k < |wakeSet| && m < |wakeSet|
    requires Tracks(wakeSet, stableFor, QuickPass(wakeSet, k, m), QuickState(wakeSet, k, m))
    requires Windows(QuickPass(wakeSet, k, m), QuickState(wakeSet, k, m), {})
    ensures Tracks(wakeSet, stableFor, QuickPass(wakeSet, k, m + 1), QuickState(wakeSet, k, m + 1))
    ensures Windows(QuickPass(wakeSet, k, m + 1), QuickState(wakeSet, k, m + 1), {})
  {
    hide Tracks, Windows, ReadyOutcome;
    var c, log, s := wakeSet[m].name, QuickPass(wakeSet, k, m), QuickState(wakeSet, k, m);
    var s' := QuickState(wakeSet, k, m + 1);
    NameIsIn(wakeSet, m);
    if m == k {
      assert s' == s;
      InspectionIsNeutral(wakeSet, stableFor, log, s, c, STOPPED);
      NoWindows(log + [Inspected(c, STOPPED)], s);
    } else {
      assert c != wakeSet[k].name;
      assert s' == s.(released := s.released + {c});
      AfterFoundRunning(wakeSet, m, STABLE, stableFor, s, log);
      Releases(wakeSet, m, stableFor, s, log + [Inspected(c, STABLE)]);
      assert log + ([Inspected(c, STABLE)] + [Released(c)]) == log + [Inspected(c, STABLE)] + [Released(c)];
    }
  }

  lemma {:induction false} QuickPassLooks(wakeSet: seq<Container>, k: nat, n: nat)
    requires DistinctNames(wakeSet) && n <= |wakeSet|
    ensures OncePerPass(QuickPass(wakeSet, k, n)) && LookedAt(QuickPass(wakeSet, k, n), NamesIn(wakeSet[..n]))
  {
    hide OncePerPass, LookedAt;
    if n == 0 {
      FirstReading(0);
      assert NamesIn(wakeSet[..0]) == {};
    } else {
      QuickPassLooks(wakeSet, k, n - 1);
      NameIsIn(wakeSet, n - 1);
      var c, log := wakeSet[n - 1].name, QuickPass(wakeSet, k, n - 1);
      LookOnce(log, QuickPass(wakeSet, k, n), c, NamesIn(wakeSet[..n - 1]));
    }
  }

  lemma JumpIsForward(wakeSet: seq<Container>, k: nat, timeout: nat)
    requires DistinctNames(wakeSet)
    ensures Forward(JumpLog(wakeSet, k, timeout)) && OncePerPass(JumpLog(wakeSet, k, timeout))
  {
    QuickPassShape(wakeSet, k, |wakeSet|);
    QuickPassLooks(wakeSet, k, |wakeSet|);
    hide QuickPass, OncePerPass, LookedAt;
    var pass := QuickPass(wakeSet, k, |wakeSet|);
    TickLooks(pass, Clock(0), NamesIn(wakeSet[..|wakeSet|]));
    TickLooks(pass + [Clock(0)], Clock(timeout), NamesIn(wakeSet[..|wakeSet|]));
  }

  /** The one container left is found stopped, and stays so. */
  lemma {:induction false} QuickPassStopped(wakeSet: seq<Container>, k: nat, n: nat)
    requires DistinctNames(wakeSet) && k < n <= |wakeSet|
    ensures FoundStopped(QuickPass(wakeSet, k, n), wakeSet[k].name)
  {
    hide LastSeen;
    var c, log := wakeSet[k].name, QuickPass(wakeSet, k, n - 1);
    if n == k + 1 {
      SeenLast(log, c, STOPPED);
    } else {
      QuickPassStopped(wakeSet, k, n - 1);
      assert wakeSet[n - 1].name != c;
      FoundStoppedStays(log, QuickPass(wakeSet, k, n), c);
    }
  }

  /** The re-arming reading and a test a whole budget later follow the quick pass. */
  ghost function JumpLog(wakeSet: seq<Container>, k: nat, timeout: nat): seq<Event> {
    QuickPass(wakeSet, k, |wakeSet|) + [Clock(0)] + [Clock(timeout)]
  }

  lemma JumpDeadline(wakeSet: seq<Container>, k: nat, d: string, timeout: nat)
    requires Released(d) in QuickPass(wakeSet, k, |wakeSet|)
    ensures DeadlinePassed(JumpLog(wakeSet, k, timeout), timeout) && BeganWith(JumpLog(wakeSet, k, timeout), {}, 0)
  {
    QuickPassShape(wakeSet, k, |wakeSet|);
    hide QuickPass;
    var pass, log := QuickPass(wakeSet, k, |wakeSet|), JumpLog(wakeSet, k, timeout);
    var r :| 0 <= r < |pass| && pass[r] == Released(d);
    assert log[r].Released? && forall i :: r < i < |pass| ==> !log[i].Slept?;
    assert RearmedAt(log, |pass|) && ArmedAt(log, |pass|);
    assert log[|log| - 1] == Clock(timeout) && log[|pass|] == Clock(0);
  }

  /** A container listed before one of its needs can time out with nothing started at all. */
  lemma JumpTimesOut(wakeSet: seq<Container>, k: nat, d: string, timeout: nat, stableFor: int)
    requires DistinctNames(wakeSet) && NonEmptyNames(wakeSet) && k < |wakeSet| && d in wakeSet[k].needs
    requires d in NamesIn(wakeSet) && d !in NamesIn(wakeSet[..k]) && d != wakeSet[k].name
    ensures var s := QuickState(wakeSet, k, |wakeSet|);
      && TimeoutState(wakeSet, timeout, stableFor, JumpLog(wakeSet, k, timeout), {}, s, wakeSet[k].name)
      && !HasCulprit(wakeSet, s, JumpLog(wakeSet, k, timeout), stableFor)
  {
    hide Tracks, QuickPass, DeadlinePassed, BeganWith, FoundStopped, NotReady, Settled, NamesBlocked, Forward;
    hide OncePerPass;
    var s, log := QuickState(wakeSet, k, |wakeSet|), JumpLog(wakeSet, k, timeout);
    assert wakeSet[..|wakeSet|] == wakeSet;
    JumpTracks(wakeSet, k, d, timeout, stableFor);
    JumpDeadline(wakeSet, k, d, timeout);
    JumpIsForward(wakeSet, k, timeout);
    assert wakeSet[k].name in NamesIn(wakeSet) && s.released != NamesIn(wakeSet);
    JumpSettled(wakeSet, k, d, s, log, stableFor);
  }

  lemma {:induction false} JumpTracks(wakeSet: seq<Container>, k: nat, d: string, timeout: nat, stableFor: int)
    requires DistinctNames(wakeSet) && k < |wakeSet| && d in NamesIn(wakeSet) && d != wakeSet[k].name
    ensures var log := JumpLog(wakeSet, k, timeout);
      && Tracks(wakeSet, stableFor, log, QuickState(wakeSet, k, |wakeSet|))
      && FoundStopped(log, wakeSet[k].name) && Released(d) in QuickPass(wakeSet, k, |wakeSet|)
  {
    hide QuickPass, FoundStopped, SafeLog, FirstStarts;
    var pass, s := QuickPass(wakeSet, k, |wakeSet|), QuickState(wakeSet, k, |wakeSet|);
    var log := JumpLog(wakeSet, k, timeout);
    assert wakeSet[..|wakeSet|] == wakeSet;
    QuickPassTracks(wakeSet, k, |wakeSet|, stableFor);
    assert d in s.released;
    QuickPassStopped(wakeSet, k, |wakeSet|);
    FoundStoppedStays(pass, log, wakeSet[k].name);
    ClockIsNeutral(wakeSet, stableFor, pass, s, 0);
    ClockIsNeutral(wakeSet, stableFor, pass + [Clock(0)], s, timeout);
  }

  lemma JumpSettled(wakeSet: seq<Container>, k: nat, d: string, s: Progress, log: seq<Event>, stableFor: int)
    requires DistinctNames(wakeSet) && NonEmptyNames(wakeSet) && k < |wakeSet| && d in wakeSet[k].needs
    requires d in NamesIn(wakeSet) && d !in NamesIn(wakeSet[..k])
    requires s == Progress(NamesIn(wakeSet) - {wakeSet[k].name}, {}, [], map[]) && FoundStopped(log, wakeSet[k].name)
    ensures Settled(wakeSet, |wakeSet|, {}, s, log, stableFor)
    ensures NamesBlocked(wakeSet, |wakeSet|, s.released, wakeSet[k].name)
  {
    hide FoundStopped, NotReady;
    var i :| 0 <= i < |wakeSet[k].needs| && wakeSet[k].needs[i] == d;
    assert !DepsMet(wakeSet[k], EarlyReleased(wakeSet, k, {}, s.released), NamesIn(wakeSet));
    forall j | 0 <= j < |wakeSet| ensures SettledAt(wakeSet, j, {}, s, log, stableFor) {
      assert wakeSet[j].name in NamesIn(wakeSet);
    }
    assert forall j :: 0 <= j < k ==> wakeSet[j].name in NamesIn(wakeSet);
  }

  /** Exactly the wake sets listed dependencies first have a culprit in every timeout. */
  lemma CulpritExactly(wakeSet: seq<Container>, rank: map<string, nat>, timeout: nat, stableFor: int)
    requires DistinctNames(wakeSet) && NonEmptyNames(wakeSet) && Ranked(wakeSet, rank)
    ensures DependenciesFirst(wakeSet) <==>
      forall log, before, s, blocked ::
        TimeoutState(wakeSet, timeout, stableFor, log, before, s, blocked) ==> HasCulprit(wakeSet, s, log, stableFor)
  {
    hide TimeoutState, Culprit;
    if DependenciesFirst(wakeSet) {
      forall log, before, s, blocked | TimeoutState(wakeSet, timeout, stableFor, log, before, s, blocked)
        ensures HasCulprit(wakeSet, s, log, stableFor)
      {
        TimeoutNamesCulprit(wakeSet, timeout, stableFor, log, before, s, blocked);
      }
    } else {
      var k, d :| 0 <= k < |wakeSet| && d in wakeSet[k].needs && d in NamesIn(wakeSet) && d !in NamesIn(wakeSet[..k]);
      assert wakeSet[k].name in NamesIn(wakeSet);
      JumpTimesOut(wakeSet, k, d, timeout, stableFor);
    }
  }

  /** `b` needs `a` and is listed before it; `a` is found running, and a minute's budget passes
      between the two readings that follow: the wake fails with nothing started. */
  lemma JumpWithoutCulprit()
    ensures var wakeSet := [Container("b", ["a"]), Container("a", [])];
      var log := [Clock(0), Inspected("b", STOPPED), Inspected("a", STABLE), Released("a"), Clock(0), Clock(60)];
      var s := Progress({"a"}, {}, [], map[]);
      && TimeoutState(wakeSet, 60, 5, log, {}, s, "b") && !HasCulprit(wakeSet, s, log, 5) && FirstStarts(log) == []
  {
    hide TimeoutState, HasCulprit, FirstStarts;
    var wakeSet := [Container("b", ["a"]), Container("a", [])];
    assert "a"[0] != "b"[0];
    assert wakeSet[1].name in NamesIn(wakeSet) && NamesIn(wakeSet[..0]) == {};
    NameIsIn(wakeSet, 0);
    NameIsIn(wakeSet, 1);
    assert wakeSet[..2] == wakeSet;
    JumpTimesOut(wakeSet, 0, "a", 60, 5);
    assert QuickPass(wakeSet, 0, 0) == [Clock(0)];
    assert QuickPass(wakeSet, 0, 1) == [Clock(0), Inspected("b", STOPPED)];
    assert QuickPass(wakeSet, 0, 2) == [Clock(0), Inspected("b", STOPPED), Inspected("a", STABLE), Released("a")];
    assert JumpLog(wakeSet, 0, 60) ==
      [Clock(0), Inspected("b", STOPPED), Inspected("a", STABLE), Released("a"), Clock(0), Clock(60)];
    assert QuickState(wakeSet, 0, 2) == Progress({"a"}, {}, [], map[]);
    TimeoutStarts(wakeSet, 60, 5, JumpLog(wakeSet, 0, 60), {}, QuickState(wakeSet, 0, 2), "b");
  }

  lemma TimeoutStarts(wakeSet: seq<Container>, timeout: int, stableFor: int, log: seq<Event>, before: set<string>,
                      s: Progress, blocked: string)
    requires TimeoutState(wakeSet, timeout, stableFor, log, before, s, blocked)
    ensures FirstStarts(log) == s.started
  {
  }

  lemma SomethingIsBlocked(wakeSet: seq<Container>, released: set<string>, blocked: string)
    requires NamesBlocked(wakeSet, |wakeSet|, released, blocked)
    requires released <= NamesIn(wakeSet) && released != NamesIn(wakeSet)
    ensures exists k :: 0 <= k < |wakeSet| && wakeSet[k].name == blocked && blocked !in released
                        && forall j :: 0 <= j < k ==> wakeSet[j].name in released
  {
    var c := Outside(released, NamesIn(wakeSet));
    var k :| 0 <= k < |wakeSet| && wakeSet[k].name == c;
    assert wakeSet[k].name !in released;
  }

  lemma Outside(a: set<string>, b: set<string>) returns (c: string)
    requires a <= b && a != b
    ensures c in b && c !in a
  {
    assert !(b <= a);
    c :| c in b && c !in a;
  }
}
