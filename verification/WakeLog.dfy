/** What a wake attempt does to the containers, as a log of events, and what makes
    such a log acceptable.  The theorems here are about logs alone. */
module WakeLog {
  import opened Text

  datatype Health = Healthy | Unhealthy | Starting | NoCheck

  datatype ContainerState = ContainerState(running: bool, health: Health)

  datatype Container = Container(name: string, needs: seq<string>)

  datatype Event =
    | Inspected(name: string, state: ContainerState)
    | InspectFailed(name: string)
    | Start(name: string, ok: bool)
    | Released(name: string)
    | Clock(at: int)
    | Slept(ok: bool)
    | Stop(name: string, ok: bool)

  /** A reading of the clock or the wait between two passes. */
  predicate IsTick(e: Event) {
    e.Clock? || e.Slept?
  }

  predicate About(e: Event, c: string) {
    !IsTick(e) && e.name == c
  }

  ghost predicate IsLastAbout(log: seq<Event>, c: string, i: nat) {
    i < |log| && About(log[i], c) && forall k :: i < k < |log| ==> !About(log[k], c)
  }

  ghost function NamesIn(wakeSet: seq<Container>): set<string> {
    set i | 0 <= i < |wakeSet| :: wakeSet[i].name
  }

  ghost predicate DistinctNames(wakeSet: seq<Container>) {
    forall i, j :: 0 <= i < j < |wakeSet| ==> wakeSet[i].name != wakeSet[j].name
  }

  ghost predicate NeedsReleased(wakeSet: seq<Container>, log: seq<Event>, c: string) {
    forall i, d :: 0 <= i < |wakeSet| && wakeSet[i].name == c && d in wakeSet[i].needs && d in NamesIn(wakeSet)
                   ==> Released(d) in log
  }

  const STABLE := ContainerState(true, NoCheck)

  /** The last thing that happened to `c` is not an inspection that found it running
      without a healthcheck. */
  ghost predicate Broken(log: seq<Event>, c: string) {
    exists b: nat :: IsLastAbout(log, c, b) && log[b] != Inspected(c, STABLE)
  }

  /** At `p - 1` a streak begins: from there on, and not before, everything that happened to
      `c` was an inspection that found it running without a healthcheck; the clock then
      read `t`. */
  ghost predicate StreakAt(log: seq<Event>, c: string, t: int, p: nat) {
    && 0 < p < |log| && log[p] == Clock(t) && log[p - 1] == Inspected(c, STABLE)
    && (forall k :: p - 1 <= k < |log| && About(log[k], c) ==> log[k] == Inspected(c, STABLE))
    && Broken(log[..p - 1], c)
  }

  ghost predicate StreakFrom(log: seq<Event>, c: string, t: int) {
    exists p: nat :: StreakAt(log, c, t, p)
  }

  /** The last thing that happened to `c` is this inspection. */
  ghost predicate LastSeen(log: seq<Event>, c: string, state: ContainerState) {
    exists i: nat :: IsLastAbout(log, c, i) && log[i] == Inspected(c, state)
  }

  ghost predicate FoundStopped(log: seq<Event>, c: string) {
    exists state: ContainerState :: !state.running && LastSeen(log, c, state)
  }

  /** The streak that began at `p - 1` was too young at the reading that followed inspection
      `i`: the second one for the inspection that began it, else the first. */
  ghost predicate TooYoung(log: seq<Event>, c: string, stableFor: int, i: nat, t: int, p: nat) {
    && StreakAt(log, c, t, p)
    && var j := if p == i + 1 then i + 2 else i + 1;
       j < |log| && log[j].Clock? && log[j].at - t < stableFor
  }

  /** Just started, or last found starting or unhealthy, or last found running without a
      healthcheck for less than `stableFor`. */
  ghost predicate NotReadyAt(log: seq<Event>, c: string, stableFor: int, i: nat) {
    && IsLastAbout(log, c, i)
    && (|| log[i] == Start(c, true)
        || log[i] == Inspected(c, ContainerState(true, Unhealthy))
        || log[i] == Inspected(c, ContainerState(true, Starting))
        || (log[i] == Inspected(c, STABLE) && exists t, p: nat :: TooYoung(log, c, stableFor, i, t, p)))
  }

  ghost predicate NotReady(log: seq<Event>, c: string, stableFor: int) {
    exists i: nat :: NotReadyAt(log, c, stableFor, i)
  }

  /** `after` adds to `log` only readings, waits and what happened to `c`. */
  ghost predicate AddsOnly(log: seq<Event>, after: seq<Event>, c: string) {
    log <= after && forall k :: |log| <= k < |after| ==> IsTick(after[k]) || after[k].name == c
  }

  lemma StreakStays(log: seq<Event>, after: seq<Event>, c: string, t: int, p: nat)
    requires log <= after && StreakAt(log, c, t, p)
    requires forall k :: |log| <= k < |after| && About(after[k], c) ==> after[k] == Inspected(c, STABLE)
    ensures StreakAt(after, c, t, p)
  {
    hide Broken;
    assert after[..p - 1] == log[..p - 1];
  }

  lemma NotReadyStays(log: seq<Event>, after: seq<Event>, c: string, stableFor: int)
    requires log <= after && NotReady(log, c, stableFor)
    requires forall k :: |log| <= k < |after| ==> !About(after[k], c)
    ensures NotReady(after, c, stableFor)
  {
    hide StreakAt;
    var i: nat :| NotReadyAt(log, c, stableFor, i);
    assert IsLastAbout(after, c, i) && after[i] == log[i];
    if t, p: nat :| TooYoung(log, c, stableFor, i, t, p) {
      StreakStays(log, after, c, t, p);
      assert TooYoung(after, c, stableFor, i, t, p);
    }
    assert NotReadyAt(after, c, stableFor, i);
  }

  lemma FoundStoppedStays(log: seq<Event>, after: seq<Event>, c: string)
    requires log <= after && FoundStopped(log, c)
    requires forall k :: |log| <= k < |after| ==> !About(after[k], c)
    ensures FoundStopped(after, c)
  {
    var state: ContainerState :| !state.running && LastSeen(log, c, state);
    var i: nat :| IsLastAbout(log, c, i) && log[i] == Inspected(c, state);
    assert IsLastAbout(after, c, i) && after[i] == Inspected(c, state);
    assert LastSeen(after, c, state);
  }

  /** A running container found running counts as awake.  One this attempt started must be
      healthy or, without a healthcheck, have been running for an unbroken `stableFor`. */
  ghost predicate MayRelease(log: seq<Event>, c: string, stableFor: int) {
    exists health ::
      && LastSeen(log, c, ContainerState(true, health))
      && (Start(c, true) in log ==>
            || health == Healthy
            || (health == NoCheck && log != [] && log[|log| - 1].Clock?
                && exists t :: StreakFrom(log, c, t) && log[|log| - 1].at - t >= stableFor))
  }

  ghost predicate EventOk(wakeSet: seq<Container>, stableFor: int, log: seq<Event>, e: Event) {
    match e
    case Start(c, _) =>
      && c in NamesIn(wakeSet) && Released(c) !in log && NeedsReleased(wakeSet, log, c)
      && log != [] && log[|log| - 1].Inspected? && log[|log| - 1].name == c && !log[|log| - 1].state.running
    case Released(c) => c in NamesIn(wakeSet) && Released(c) !in log && MayRelease(log, c, stableFor)
    case Stop(_, _) => false
    case _ => true
  }

  /** Every event was acceptable when it happened. */
  ghost predicate SafeLog(wakeSet: seq<Container>, stableFor: int, log: seq<Event>) {
    forall i :: 0 <= i < |log| ==> EventOk(wakeSet, stableFor, log[..i], log[i])
  }

  // ----- Passes

  predicate IsLook(e: Event) {
    e.Inspected? || e.InspectFailed?
  }

  /** How often the attempt waited. */
  ghost function Waits(log: seq<Event>): nat {
    if log == [] then 0 else Waits(log[..|log| - 1]) + if log[|log| - 1].Slept? then 1 else 0
  }

  lemma WaitsAppend(log: seq<Event>, e: Event)
    ensures Waits(log + [e]) == Waits(log) + if e.Slept? then 1 else 0
  {
    assert (log + [e])[..|log|] == log;
  }

  lemma {:induction false} WaitsUnchanged(log: seq<Event>, after: seq<Event>)
    requires log <= after && forall k :: |log| <= k < |after| ==> !after[k].Slept?
    ensures Waits(after) == Waits(log)
    decreases |after|
  {
    if |after| > |log| {
      WaitsUnchanged(log, after[..|after| - 1]);
    } else {
      assert after == log;
    }
  }

  ghost predicate WaitedAfter(log: seq<Event>, i: nat) {
    exists k :: i < k < |log| && log[k].Slept?
  }

  ghost predicate WaitedBetween(log: seq<Event>, i: nat, j: nat)
    requires i < j < |log|
  {
    exists k :: i < k < j && log[k].Slept?
  }

  /** No container is inspected twice without a wait in between. */
  ghost predicate OncePerPass(log: seq<Event>) {
    forall i: nat, j: nat :: i < j < |log| && IsLook(log[i]) && IsLook(log[j]) && log[i].name == log[j].name
                             ==> WaitedBetween(log, i, j)
  }

  /** Since the last wait only these containers were inspected. */
  ghost predicate LookedAt(log: seq<Event>, names: set<string>) {
    forall i: nat :: i < |log| && IsLook(log[i]) ==> log[i].name in names || WaitedAfter(log, i)
  }

  /** `after` adds one inspection of `c`, first, and no other. */
  ghost predicate AddsLook(log: seq<Event>, after: seq<Event>, c: string) {
    && |log| < |after| && log <= after && IsLook(after[|log|]) && after[|log|].name == c
    && forall k :: |log| < k < |after| ==> !IsLook(after[k])
  }

  ghost predicate AddsNoLook(log: seq<Event>, after: seq<Event>) {
    log <= after && forall k :: |log| <= k < |after| ==> !IsLook(after[k])
  }

  lemma WaitedStays(log: seq<Event>, after: seq<Event>)
    requires log <= after
    ensures forall i: nat :: i < |log| && WaitedAfter(log, i) ==> WaitedAfter(after, i)
    ensures forall i: nat, j: nat :: i < j < |log| && WaitedBetween(log, i, j) ==> WaitedBetween(after, i, j)
  {
    forall i: nat | i < |log| && WaitedAfter(log, i) ensures WaitedAfter(after, i) {
      var k :| i < k < |log| && log[k].Slept?;
      assert after[k].Slept?;
    }
    forall i: nat, j: nat | i < j < |log| && WaitedBetween(log, i, j) ensures WaitedBetween(after, i, j) {
      var k :| i < k < j && log[k].Slept?;
      assert after[k].Slept?;
    }
  }

  lemma LookOnce(log: seq<Event>, after: seq<Event>, c: string, names: set<string>)
    requires OncePerPass(log) && LookedAt(log, names) && c !in names && AddsLook(log, after, c)
    ensures OncePerPass(after) && LookedAt(after, names + {c})
  {
    WaitedStays(log, after);
    forall i: nat, j: nat | i < j < |after| && IsLook(after[i]) && IsLook(after[j]) && after[i].name == after[j].name
      ensures WaitedBetween(after, i, j)
    {
      if j < |log| {
        assert WaitedBetween(log, i, j);
      } else {
        assert j == |log| && log[i].name !in names && WaitedAfter(log, i);
        var k :| i < k < |log| && log[k].Slept?;
        assert after[k].Slept?;
      }
    }
    forall i: nat | i < |after| && IsLook(after[i]) ensures after[i].name in names + {c} || WaitedAfter(after, i) {
      if i < |log| {
        assert log[i].name in names || WaitedAfter(log, i);
      }
    }
  }

  lemma NoLook(log: seq<Event>, after: seq<Event>, names: set<string>)
    requires OncePerPass(log) && LookedAt(log, names) && AddsNoLook(log, after)
    ensures OncePerPass(after) && LookedAt(after, names)
    ensures |after| > |log| && after[|after| - 1].Slept? ==> LookedAt(after, {})
  {
    WaitedStays(log, after);
    if |after| > |log| && after[|after| - 1].Slept? {
      forall i: nat | i < |after| && IsLook(after[i]) ensures WaitedAfter(after, i) {
        assert i < |after| - 1;
      }
    }
  }

  // ----- The clock

  /** The readings never go back. */
  ghost predicate Forward(log: seq<Event>) {
    forall i, j :: 0 <= i < j < |log| && log[i].Clock? && log[j].Clock? ==> log[i].at <= log[j].at
  }

  lemma SafeAppend(wakeSet: seq<Container>, stableFor: int, log: seq<Event>, e: Event)
    requires SafeLog(wakeSet, stableFor, log) && EventOk(wakeSet, stableFor, log, e)
    ensures SafeLog(wakeSet, stableFor, log + [e])
  {
    hide EventOk;
    var all := log + [e];
    forall i | 0 <= i < |all| ensures EventOk(wakeSet, stableFor, all[..i], all[i]) {
      if i < |log| {
        assert all[..i] == log[..i];
      } else {
        assert all[..i] == log;
      }
    }
  }

  lemma SafePrefix(wakeSet: seq<Container>, stableFor: int, log: seq<Event>)
    requires log != [] && SafeLog(wakeSet, stableFor, log)
    ensures SafeLog(wakeSet, stableFor, log[..|log| - 1])
    ensures EventOk(wakeSet, stableFor, log[..|log| - 1], log[|log| - 1])
  {
    hide EventOk;
    var init := log[..|log| - 1];
    forall i | 0 <= i < |init| ensures EventOk(wakeSet, stableFor, init[..i], init[i]) {
      assert init[..i] == log[..i] && init[i] == log[i];
    }
  }

  /** The containers successfully started, each at its first start. */
  ghost function FirstStarts(log: seq<Event>): seq<string> {
    if log == [] then []
    else
      var before, e := FirstStarts(log[..|log| - 1]), log[|log| - 1];
      if e.Start? && e.ok && e.name !in before then before + [e.name] else before
  }

  lemma FirstStartsAppend(log: seq<Event>, e: Event)
    ensures FirstStarts(log + [e])
         == if e.Start? && e.ok && e.name !in FirstStarts(log) then FirstStarts(log) + [e.name] else FirstStarts(log)
  {
    assert (log + [e])[..|log|] == log;
  }

  lemma {:induction false} FirstStartsHappened(log: seq<Event>, c: string)
    ensures c in FirstStarts(log) <==> Start(c, true) in log
  {
    if log != [] {
      var init := log[..|log| - 1];
      assert log == init + [log[|log| - 1]];
      FirstStartsHappened(init, c);
    }
  }

  ghost predicate NeedsFirst(wakeSet: seq<Container>, order: seq<string>) {
    forall k, i, d ::
      0 <= k < |order| && 0 <= i < |wakeSet| && wakeSet[i].name == order[k] && d in wakeSet[i].needs && d in order
      ==> d in order[..k]
  }

  /** Whatever was started had its needs released, and stays so. */
  lemma {:induction false} StartedHadNeeds(wakeSet: seq<Container>, stableFor: int, log: seq<Event>, c: string)
    requires SafeLog(wakeSet, stableFor, log) && c in FirstStarts(log)
    ensures c in NamesIn(wakeSet) && NeedsReleased(wakeSet, log, c)
    decreases |log|
  {
    var init, e := log[..|log| - 1], log[|log| - 1];
    SafePrefix(wakeSet, stableFor, log);
    if c in FirstStarts(init) {
      StartedHadNeeds(wakeSet, stableFor, init, c);
    }
  }

  /** Every safe log starts needs before dependents, each container at most once in the list. */
  lemma {:induction false} StartOrder(wakeSet: seq<Container>, stableFor: int, log: seq<Event>)
    requires SafeLog(wakeSet, stableFor, log)
    ensures NoDuplicates(FirstStarts(log)) && NeedsFirst(wakeSet, FirstStarts(log))
    decreases |log|
  {
    if log != [] {
      var init, e := log[..|log| - 1], log[|log| - 1];
      SafePrefix(wakeSet, stableFor, log);
      StartOrder(wakeSet, stableFor, init);
      if e.Start? && e.ok && e.name !in FirstStarts(init) {
        AppendKeepsOrder(wakeSet, stableFor, init, e.name);
      }
    }
  }

  lemma AppendKeepsOrder(wakeSet: seq<Container>, stableFor: int, log: seq<Event>, c: string)
    requires SafeLog(wakeSet, stableFor, log) && NeedsFirst(wakeSet, FirstStarts(log))
    requires Released(c) !in log && c in NamesIn(wakeSet) && NeedsReleased(wakeSet, log, c)
    ensures NeedsFirst(wakeSet, FirstStarts(log) + [c])
  {
    hide SafeLog, FirstStarts;
    var before := FirstStarts(log);
    var order := before + [c];
    forall k, i, d | 0 <= k < |order| && 0 <= i < |wakeSet| && wakeSet[i].name == order[k]
                     && d in wakeSet[i].needs && d in order
      ensures d in order[..k]
    {
      if k < |before| {
        assert order[..k] == before[..k] && order[k] == before[k];
        StartedHadNeeds(wakeSet, stableFor, log, before[k]);
        assert d != c;
      } else {
        assert order[..k] == before;
        assert d != c;
      }
    }
  }
}
