/** The agent's bounded queue of observations, pushed to by several goroutines and drained
    by the flusher.

    A push is three operations on the queue, between which other pushes and the flusher may
    act.  Undisturbed, it drops the oldest entry of a full queue and keeps the newest.  What
    disturbed ones do is proved of an interleaved model, in which a push is known by its
    number: exactly when one is dropped itself, and exactly when it drops an entry from a
    queue that is not full. */
module PushQueue {
  import Observations
  import opened Wrappers

  type Observation = Observations.Observation

  const QUEUE_MAX: nat := 512

  function Newest(q: seq<Observation>): (r: seq<Observation>)
    ensures |r| <= QUEUE_MAX
  {
    if |q| <= QUEUE_MAX then q else q[|q| - QUEUE_MAX..]
  }

  /** The queue after a series of pushes. */
  function Pushed(q: seq<Observation>, os: seq<Observation>): seq<Observation>
    requires |q| <= QUEUE_MAX
    decreases |os|
  {
    if os == [] then q else Pushed(Newest(q + [os[0]]), os[1..])
  }

  lemma NewestOfShort(q: seq<Observation>)
    requires |q| <= QUEUE_MAX
    ensures Newest(q) == q
  {
  }

  lemma NewestOfNewest(q: seq<Observation>, rest: seq<Observation>)
    ensures Newest(Newest(q) + rest) == Newest(q + rest)
  {
    if |q| > QUEUE_MAX {
      assert Newest(q) + rest == (q + rest)[|q| - QUEUE_MAX..];
    }
  }

  /** Whatever is pushed, undisturbed, the queue holds the newest observations, in order. */
  lemma {:induction false} PushedKeepsNewest(q: seq<Observation>, os: seq<Observation>)
    requires |q| <= QUEUE_MAX
    ensures Pushed(q, os) == Newest(q + os)
    decreases |os|
  {
    hide Newest;
    if os == [] {
      NewestOfShort(q);
      assert q + os == q;
    } else {
      PushedKeepsNewest(Newest(q + [os[0]]), os[1..]);
      assert q + [os[0]] + os[1..] == q + os;
      NewestOfNewest(q + [os[0]], os[1..]);
    }
  }

  // ----- The code, with others acting in between

  /** What another goroutine may do to the queue at one go: a send or a receive that does not wait. */
  datatype Op = Arrive(o: Observation) | Leave

  function AfterOne(q: seq<Observation>, op: Op): seq<Observation> {
    match op
    case Arrive(o) => if |q| < QUEUE_MAX then q + [o] else q
    case Leave => if q == [] then q else q[1..]
  }

  function After(q: seq<Observation>, ops: seq<Op>): (r: seq<Observation>)
    ensures |q| <= QUEUE_MAX ==> |r| <= QUEUE_MAX
  {
    if ops == [] then q else AfterOne(After(q, ops[..|ops| - 1]), ops[|ops| - 1])
  }

  /** What others do, they do one after the other: a send lands if there is room, a receive takes
      the oldest entry. */
  lemma AfterEach(q: seq<Observation>, ops: seq<Op>, o: Observation)
    ensures var q' := After(q, ops);
      && After(q, []) == q
      && After(q, ops + [Arrive(o)]) == q' + (if |q'| < QUEUE_MAX then [o] else [])
      && After(q, ops + [Leave]) == if q' == [] then [] else q'[1..]
  {
    assert (ops + [Arrive(o)])[..|ops|] == ops && (ops + [Leave])[..|ops|] == ops;
  }

  /** An entry that left the queue, to the flusher or shed. */
  datatype Exit<T> = Exit(push: T, taken: bool)

  ghost function Left<T>(exits: seq<Exit<T>>): (r: seq<T>)
    ensures |r| == |exits| && forall i :: 0 <= i < |r| ==> r[i] == exits[i].push
  {
    seq(|exits|, i requires 0 <= i < |exits| => exits[i].push)
  }

  ghost function Taken<T>(exits: seq<Exit<T>>): seq<T> {
    if exits == [] then []
    else Taken(exits[..|exits| - 1]) + if exits[|exits| - 1].taken then [exits[|exits| - 1].push] else []
  }

  lemma TakenAppend<T>(exits: seq<Exit<T>>, e: Exit<T>)
    ensures Taken(exits + [e]) == Taken(exits) + if e.taken then [e.push] else []
  {
    assert (exits + [e])[..|exits|] == exits;
  }

  lemma LeftAppend<T>(exits: seq<Exit<T>>, e: Exit<T>, rest: seq<T>)
    ensures Left(exits + [e]) + rest == Left(exits) + ([e.push] + rest)
  {
    assert Left(exits + [e]) == Left(exits) + [e.push];
  }

  /** A collection that holds `items`, over the turns of its window, and the queue it leaves. */
  function Collected(q: seq<Observation>, items: seq<Observation>, turns: seq<seq<Op>>)
    : (seq<Observation>, seq<Observation>)
    decreases |turns|
  {
    if turns == [] || |items| == Observations.BATCH_MAX then (items, q)
    else
      var q' := After(q, turns[0]);
      if q' == [] then Collected(q', items, turns[1..]) else Collected(q'[1..], items + [q'[0]], turns[1..])
  }

  /** If nobody else acts, every turn takes the oldest entry, until the queue is empty or the
      batch full. */
  lemma {:induction false} QuietWindow(q: seq<Observation>, items: seq<Observation>, turns: seq<seq<Op>>)
    requires |items| <= Observations.BATCH_MAX && forall k :: 0 <= k < |turns| ==> turns[k] == []
    ensures var n := Min(Min(|q|, |turns|), Observations.BATCH_MAX - |items|);
      Collected(q, items, turns) == (items + q[..n], q[n..])
    decreases |turns|
  {
    var n := Min(Min(|q|, |turns|), Observations.BATCH_MAX - |items|);
    if turns != [] && |items| < Observations.BATCH_MAX {
      assert After(q, turns[0]) == q;
      if q != [] {
        QuietWindow(q[1..], items + [q[0]], turns[1..]);
        assert items + q[..n] == items + [q[0]] + q[1..][..n - 1];
      } else {
        QuietWindow(q, items, turns[1..]);
      }
    } else {
      assert items + q[..0] == items && q[0..] == q;
    }
  }

  class Agent {
    var queue: seq<Observation>

    constructor ()
      ensures queue == []
    {
      queue := [];
    }

    method TryOffer(o: Observation) returns (landed: bool)
      modifies this
      ensures landed == (|old(queue)| < QUEUE_MAX) && queue == AfterOne(old(queue), Arrive(o))
    {
      landed := |queue| < QUEUE_MAX;
      if landed {
        queue := queue + [o];
      }
    }

    method ShedOne()
      modifies this
      ensures queue == AfterOne(old(queue), Leave)
    {
      if queue != [] {
        queue := queue[1..];
      }
    }

    /** Others act; what entered and what left is kept account of. */
    method Others(ops: seq<Op>, ghost from: seq<Observation>, ghost exits0: seq<Exit<Observation>>,
                  ghost admitted0: seq<Observation>)
      returns (ghost exits: seq<Exit<Observation>>, ghost admitted: seq<Observation>)
      requires Left(exits0) + queue == from + admitted0
      modifies this
      ensures queue == After(old(queue), ops)
      ensures Taken(exits) == Taken(exits0) && Left(exits) + queue == from + admitted
    {
      hide Left, Taken;
      exits, admitted := exits0, admitted0;
      for i := 0 to |ops|
        invariant queue == After(old(queue), ops[..i])
        invariant Taken(exits) == Taken(exits0) && Left(exits) + queue == from + admitted
      {
        assert ops[..i + 1][..i] == ops[..i];
        ghost var q := queue;
        match ops[i]
        case Arrive(o) =>
          var landed := TryOffer(o);
          if landed {
            assert Left(exits) + (q + [o]) == Left(exits) + q + [o];
            assert from + (admitted + [o]) == from + admitted + [o];
            admitted := admitted + [o];
          }
        case Leave =>
          ShedOne();
          if q != [] {
            TakenAppend(exits, Exit(q[0], false));
            LeftAppend(exits, Exit(q[0], false), q[1..]);
            assert [q[0]] + q[1..] == q;
            exits := exits + [Exit(q[0], false)];
          }
      }
      assert ops[..|ops|] == ops;
    }

    /** Others do `first` between the offer and the shedding, `second` before the retry.  The
        observation lands if there is room at the offer or at the retry; undisturbed, the queue
        keeps the newest. */
    method Push(o: Observation, first: seq<Op>, second: seq<Op>) returns (landed: bool)
      requires |queue| <= QUEUE_MAX
      modifies this
      ensures |old(queue)| < QUEUE_MAX ==> landed && queue == old(queue) + [o]
      ensures |old(queue)| == QUEUE_MAX ==>
        var q := After(AfterOne(After(old(queue), first), Leave), second);
        landed == (|q| < QUEUE_MAX) && queue == if landed then q + [o] else q
      ensures first == [] && second == [] ==> landed && queue == Pushed(old(queue), [o])
      ensures |queue| <= QUEUE_MAX
    {
      landed := TryOffer(o);
      if !landed {
        assert Left<Observation>([]) + queue == queue + [];
        ghost var _, _ := Others(first, queue, [], []);
        ShedOne();
        assert Left<Observation>([]) + queue == queue + [];
        ghost var _, _ := Others(second, queue, [], []);
        landed := TryOffer(o);
      }
      assert [o][1..] == [];
    }

    /** In each turn of the window others act and then, if there is something, one observation
        is received.  The batch is what was received, in order, at least one and at most the
        limit; everything that entered the queue left it in order or is still there. */
    method CollectBatch(turns: seq<seq<Op>>)
      returns (items: seq<Observation>, ghost exits: seq<Exit<Observation>>, ghost admitted: seq<Observation>)
      requires queue != []
      modifies this
      ensures 1 <= |items| <= Observations.BATCH_MAX && items == Taken(exits)
      ensures Left(exits) + queue == old(queue) + admitted
      ensures (items, queue) == Collected(old(queue)[1..], [old(queue)[0]], turns)
      ensures (forall k :: 0 <= k < |turns| ==> turns[k] == []) ==>
        var n := Min(Min(|old(queue)|, 1 + |turns|), Observations.BATCH_MAX);
        items == old(queue)[..n] && queue == old(queue)[n..]
    {
      items, exits, admitted := [queue[0]], [Exit(queue[0], true)], [];
      TakenAppend([], exits[0]);
      assert [] + [exits[0]] == exits;
      queue := queue[1..];
      for k := 0 to |turns|
        invariant 1 <= |items| <= Observations.BATCH_MAX && items == Taken(exits)
        invariant Left(exits) + queue == old(queue) + admitted
        invariant Collected(queue, items, turns[k..]) == Collected(old(queue)[1..], [old(queue)[0]], turns)
      {
        if |items| == Observations.BATCH_MAX {
          break;
        }
        assert turns[k..][0] == turns[k] && turns[k..][1..] == turns[k + 1..];
        exits, admitted := Others(turns[k], old(queue), exits, admitted);
        if queue != [] {
          TakenAppend(exits, Exit(queue[0], true));
          LeftAppend(exits, Exit(queue[0], true), queue[1..]);
          assert [queue[0]] + queue[1..] == queue;
          items, exits := items + [queue[0]], exits + [Exit(queue[0], true)];
          queue := queue[1..];
        }
      }
      QuietBatch(old(queue), turns);
    }
  }

  lemma QuietBatch(q: seq<Observation>, turns: seq<seq<Op>>)
    requires q != []
    ensures (forall k :: 0 <= k < |turns| ==> turns[k] == []) ==>
      var n := Min(Min(|q|, 1 + |turns|), Observations.BATCH_MAX);
      Collected(q[1..], [q[0]], turns) == (q[..n], q[n..])
  {
    hide Collected;
    if forall k :: 0 <= k < |turns| ==> turns[k] == [] {
      QuietWindow(q[1..], [q[0]], turns);
      var n := Min(Min(|q|, 1 + |turns|), Observations.BATCH_MAX);
      assert Min(Min(|q[1..]|, |turns|), Observations.BATCH_MAX - 1) == n - 1;
      assert [q[0]] + q[1..][..n - 1] == q[..n] && q[1..][n - 1..] == q[n..];
    }
  }

  // ----- Overlapping pushes

  /** Where a push stands, with how many had landed and left when it found the queue full, and
      right after it had shed. */
  datatype Phase = Offering | Full(landed: nat, left: nat) | Retrying(landed: nat, left: nat)

  /** `landed` are the pushes that entered the queue and `exits` those that left it, in order;
      `dropped` are those that found the queue full twice. */
  datatype State = State(
    queue: seq<nat>, pushers: map<nat, Phase>, begun: nat, landed: seq<nat>, exits: seq<Exit<nat>>, dropped: set<nat>,
    batch: seq<nat>, batches: seq<seq<nat>>)

  const START := State([], map[], 0, [], [], {}, [], [])

  datatype Action = Begin | Offer(p: nat) | Shed(p: nat) | Retry(p: nat) | Take | Seal

  predicate Enabled(s: State, a: Action) {
    match a
    case Begin => true
    case Offer(p) => p in s.pushers && s.pushers[p].Offering?
    case Shed(p) => p in s.pushers && s.pushers[p].Full?
    case Retry(p) => p in s.pushers && s.pushers[p].Retrying?
    case Take => s.queue != [] && |s.batch| < Observations.BATCH_MAX
    case Seal => s.batch != []
  }

  function Land(s: State, p: nat): State {
    s.(queue := s.queue + [p], landed := s.landed + [p], pushers := s.pushers - {p})
  }

  function Next(s: State, a: Action): State
    requires Enabled(s, a)
  {
    match a
    case Begin => s.(pushers := s.pushers[s.begun := Offering], begun := s.begun + 1)
    case Offer(p) =>
      if |s.queue| < QUEUE_MAX then Land(s, p)
      else s.(pushers := s.pushers[p := Full(|s.landed|, |s.exits|)])
    case Shed(p) =>
      var exits := if s.queue == [] then s.exits else s.exits + [Exit(s.queue[0], false)];
      s.(pushers := s.pushers[p := Retrying(|s.landed|, |exits|)], exits := exits,
         queue := if s.queue == [] then [] else s.queue[1..])
    case Retry(p) =>
      if |s.queue| < QUEUE_MAX then Land(s, p)
      else s.(pushers := s.pushers - {p}, dropped := s.dropped + {p})
    case Take => s.(queue := s.queue[1..], exits := s.exits + [Exit(s.queue[0], true)], batch := s.batch + [s.queue[0]])
    case Seal => s.(batches := s.batches + [s.batch], batch := [])
  }

  ghost function Flat(batches: seq<seq<nat>>): seq<nat> {
    if batches == [] then [] else Flat(batches[..|batches| - 1]) + batches[|batches| - 1]
  }

  /** First in, first out: what landed is what left, then what is queued, in order. */
  ghost predicate InOrder(s: State) {
    s.landed == Left(s.exits) + s.queue
  }

  /** The flusher's batches are what it took, in order. */
  ghost predicate Batched(s: State) {
    Taken(s.exits) == Flat(s.batches) + s.batch && |s.batch| <= Observations.BATCH_MAX
  }

  /** Every push begun is under way, landed once, or dropped, and no two of these. */
  ghost predicate Accounted(s: State) {
    && (forall p: nat :: p < s.begun <==> p in s.pushers || p in s.landed || p in s.dropped)
    && (forall p :: p in s.pushers ==> p !in s.landed && p !in s.dropped)
    && (forall p :: p in s.landed ==> p !in s.dropped)
    && (forall i, j :: 0 <= i < j < |s.landed| ==> s.landed[i] != s.landed[j])
  }

  /** The counts a push keeps: the queue was full when it was refused, and not after it shed. */
  ghost predicate Counted(s: State) {
    && |s.queue| <= QUEUE_MAX
    && forall p :: p in s.pushers && !s.pushers[p].Offering? ==>
         && s.pushers[p].landed <= |s.landed| && s.pushers[p].left <= |s.exits|
         && if s.pushers[p].Full? then s.pushers[p].landed - s.pushers[p].left == QUEUE_MAX
            else s.pushers[p].landed - s.pushers[p].left < QUEUE_MAX
  }

  ghost predicate Inv(s: State) {
    InOrder(s) && Batched(s) && Accounted(s) && Counted(s)
  }

  lemma LandKeeps(s: State, p: nat)
    requires Inv(s) && p in s.pushers && |s.queue| < QUEUE_MAX
    ensures Inv(Land(s, p))
  {
    hide Batched;
    assert Batched(Land(s, p)) by {
      BatchedStays(s, Land(s, p));
    }
    assert Left(s.exits) + s.queue + [p] == Left(s.exits) + (s.queue + [p]);
    var s' := Land(s, p);
    assert forall q :: q in s'.landed <==> q in s.landed || q == p;
    assert p < s.begun;
  }

  lemma BatchedStays(s: State, s': State)
    requires Batched(s) && s'.exits == s.exits && s'.batches == s.batches && s'.batch == s.batch
    ensures Batched(s')
  {
  }

  lemma DropKeeps(s: State, p: nat)
    requires Inv(s) && Enabled(s, Retry(p)) && |s.queue| == QUEUE_MAX
    ensures Inv(Next(s, Retry(p)))
  {
    hide Batched;
    BatchedStays(s, Next(s, Retry(p)));
  }

  lemma ShedKeeps(s: State, p: nat)
    requires Inv(s) && Enabled(s, Shed(p))
    ensures Inv(Next(s, Shed(p)))
  {
    hide Taken, Flat, Left;
    if s.queue != [] {
      var e := Exit(s.queue[0], false);
      TakenAppend(s.exits, e);
      LeftAppend(s.exits, e, s.queue[1..]);
      assert [s.queue[0]] + s.queue[1..] == s.queue;
    }
  }

  lemma TakeKeeps(s: State)
    requires Inv(s) && Enabled(s, Take)
    ensures Inv(Next(s, Take))
  {
    hide Taken, Flat, Left;
    var e := Exit(s.queue[0], true);
    TakenAppend(s.exits, e);
    LeftAppend(s.exits, e, s.queue[1..]);
    assert [s.queue[0]] + s.queue[1..] == s.queue;
  }

  lemma SealKeeps(s: State)
    requires Inv(s) && Enabled(s, Seal)
    ensures Inv(Next(s, Seal))
  {
    var s' := Next(s, Seal);
    assert s'.batches[..|s.batches|] == s.batches;
    hide Taken, Left, Accounted;
    assert Accounted(s') by {
      AccountedStays(s, s');
    }
  }

  lemma AccountedStays(s: State, s': State)
    requires Accounted(s) && s'.pushers.Keys == s.pushers.Keys && s'.begun == s.begun
    requires s'.landed == s.landed && s'.dropped == s.dropped
    ensures Accounted(s')
  {
  }

  lemma BeginKeeps(s: State)
    requires Inv(s)
    ensures Inv(Next(s, Begin))
  {
    hide Batched;
    BatchedStays(s, Next(s, Begin));
  }

  lemma FullKeeps(s: State, p: nat)
    requires Inv(s) && Enabled(s, Offer(p)) && |s.queue| == QUEUE_MAX
    ensures Inv(Next(s, Offer(p)))
  {
    hide Batched, Accounted;
    BatchedStays(s, Next(s, Offer(p)));
    AccountedStays(s, Next(s, Offer(p)));
  }

  lemma StepKeeps(s: State, a: Action)
    requires Inv(s) && Enabled(s, a)
    ensures Inv(Next(s, a))
  {
    assert |s.queue| <= QUEUE_MAX;
    hide Inv;
    match a
    case Begin => BeginKeeps(s);
    case Offer(p) =>
      if |s.queue| < QUEUE_MAX {
        LandKeeps(s, p);
      } else {
        FullKeeps(s, p);
      }
    case Shed(p) => ShedKeeps(s, p);
    case Retry(p) =>
      if |s.queue| < QUEUE_MAX {
        LandKeeps(s, p);
      } else {
        DropKeeps(s, p);
      }
    case Take => TakeKeeps(s);
    case Seal => SealKeeps(s);
  }

  ghost predicate IsRun(states: seq<State>, actions: seq<Action>) {
    && |states| == |actions| + 1 && states[0] == START
    && forall i :: 0 <= i < |actions| ==> Enabled(states[i], actions[i]) && states[i + 1] == Next(states[i], actions[i])
  }

  lemma StartInv()
    ensures Inv(START)
  {
  }

  lemma {:induction false} RunKeeps(states: seq<State>, actions: seq<Action>, i: nat)
    requires IsRun(states, actions) && i < |states|
    ensures Inv(states[i])
  {
    hide Inv, Next, Enabled;
    if i == 0 {
      StartInv();
    } else {
      RunKeeps(states, actions, i - 1);
      StepKeeps(states[i - 1], actions[i - 1]);
    }
  }

  /** However pushes overlap: a push is under way, landed, or dropped, and only one of these; a
      landed one is in the queue or left it, once; the queue is the last to land. */
  lemma EveryPushAccountedFor(states: seq<State>, actions: seq<Action>, i: nat, p: nat)
    requires IsRun(states, actions) && i < |states| && p < states[i].begun
    ensures var s := states[i];
      && (p in s.pushers || p in s.landed || p in s.dropped)
      && !(p in s.pushers && p in s.landed) && !(p in s.pushers && p in s.dropped) && !(p in s.landed && p in s.dropped)
      && s.landed == Left(s.exits) + s.queue && |s.queue| <= QUEUE_MAX
      && forall j, k :: 0 <= j < k < |s.landed| ==> s.landed[j] != s.landed[k]
  {
    RunKeeps(states, actions, i);
  }

  /** The batches hold what was taken from the queue, in the order it landed, nothing twice. */
  lemma BatchesKeepOrder(states: seq<State>, actions: seq<Action>, i: nat)
    requires IsRun(states, actions) && i < |states|
    ensures Flat(states[i].batches) + states[i].batch == Taken(states[i].exits)
    ensures Left(states[i].exits) <= states[i].landed && |states[i].batch| <= Observations.BATCH_MAX
  {
    RunKeeps(states, actions, i);
  }

  /** Every batch sealed holds 1 to 100 observations. */
  lemma {:induction false} BatchSizes(states: seq<State>, actions: seq<Action>, i: nat)
    requires IsRun(states, actions) && i < |states|
    ensures forall b :: b in states[i].batches ==> 1 <= |b| <= 100
  {
    if i > 0 {
      BatchSizes(states, actions, i - 1);
      BatchesKeepOrder(states, actions, i - 1);
      BatchesStep(states[i - 1], actions[i - 1]);
      hide Next, Enabled, Inv, Flat, Taken, Left;
    }
  }

  lemma BatchesStep(s: State, a: Action)
    requires Enabled(s, a)
    ensures Next(s, a).batches == s.batches || (s.batch != [] && Next(s, a).batches == s.batches + [s.batch])
  {
  }

  lemma QueueLength(states: seq<State>, actions: seq<Action>, i: nat)
    requires IsRun(states, actions) && i < |states|
    ensures |states[i].queue| == |states[i].landed| - |states[i].exits| <= QUEUE_MAX
  {
    RunKeeps(states, actions, i);
  }

  /** A retry is dropped exactly when the queue is full again: when since the shedding as many
      more pushes landed than entries left as there was room then. */
  lemma DropExactly(states: seq<State>, actions: seq<Action>, i: nat)
    requires IsRun(states, actions) && i < |actions| && actions[i].Retry?
    ensures var s, p := states[i], actions[i].p;
      && p in s.pushers && s.pushers[p].Retrying?
      && (p in states[i + 1].dropped <==> |s.queue| == QUEUE_MAX)
      && var mark := s.pushers[p];
         (p in states[i + 1].dropped <==>
            (|s.landed| - mark.landed) - (|s.exits| - mark.left) == QUEUE_MAX - (mark.landed - mark.left))
  {
    RunKeeps(states, actions, i);
    QueueLength(states, actions, i);
    assert Enabled(states[i], actions[i]) && states[i + 1] == Next(states[i], actions[i]);
  }

  /** In particular, only if another push landed after it had shed. */
  lemma DropNeedsOverlap(states: seq<State>, actions: seq<Action>, i: nat)
    requires IsRun(states, actions) && i < |actions| && actions[i].Retry? && actions[i].p in states[i + 1].dropped
    ensures var s, p := states[i], actions[i].p;
      p in s.pushers && s.pushers[p].Retrying? && s.pushers[p].landed < |s.landed| && s.landed[s.pushers[p].landed] != p
  {
    DropExactly(states, actions, i);
    RunKeeps(states, actions, i);
  }

  /** A shedding takes an entry from a queue that is not full exactly when, since the push was
      refused, more entries left than pushes landed. */
  lemma NeedlessExactly(states: seq<State>, actions: seq<Action>, i: nat)
    requires IsRun(states, actions) && i < |actions| && actions[i].Shed?
    ensures var s, p := states[i], actions[i].p;
      && p in s.pushers && s.pushers[p].Full?
      && (|s.queue| < QUEUE_MAX <==> |s.exits| - s.pushers[p].left > |s.landed| - s.pushers[p].landed)
  {
    RunKeeps(states, actions, i);
    QueueLength(states, actions, i);
    assert Enabled(states[i], actions[i]);
  }

  /** A push with no step of another push or of the flusher between its own keeps the newest. */
  lemma UndisturbedKeepsNewest(s: State, p: nat)
    requires Inv(s) && Enabled(s, Offer(p))
    ensures var s1 := Next(s, Offer(p));
      var s' := if p in s1.pushers then Next(Next(s1, Shed(p)), Retry(p)) else s1;
      && s'.queue == (if |s.queue| < QUEUE_MAX then s.queue else s.queue[1..]) + [p]
      && p in s'.landed && s'.dropped == s.dropped
  {
  }

  // ----- Runs that show it

  lemma RunExtends(states: seq<State>, actions: seq<Action>, a: Action)
    returns (states': seq<State>, actions': seq<Action>)
    requires IsRun(states, actions) && Enabled(states[|states| - 1], a)
    ensures IsRun(states', actions') && states' == states + [Next(states[|states| - 1], a)] && actions' == actions + [a]
  {
    states', actions' := states + [Next(states[|states| - 1], a)], actions + [a];
  }

  /** Full queues are reached. */
  lemma {:induction false} Fills(n: nat) returns (states: seq<State>, actions: seq<Action>)
    requires n <= QUEUE_MAX
    ensures IsRun(states, actions)
    ensures var s := states[|states| - 1]; |s.queue| == n && s.pushers == map[] && s.batch == []
  {
    if n == 0 {
      states, actions := [START], [];
    } else {
      states, actions := Fills(n - 1);
      var s := states[|states| - 1];
      states, actions := RunExtends(states, actions, Begin);
      states, actions := RunExtends(states, actions, Offer(s.begun));
      assert states[|states| - 1].pushers == map[];
    }
  }

  /** From the beginning to two pushes that overlap on a full queue: the first sheds, the second
      takes the room, the first is dropped.  The queue lacks it and lost its oldest entry too. */
  lemma OverlapDrops() returns (states: seq<State>, actions: seq<Action>, full: State, a: nat, b: nat)
    ensures IsRun(states, actions) && full in states && |full.queue| == QUEUE_MAX && a != b
    ensures var s := states[|states| - 1]; s.queue == full.queue[1..] + [b] && a in s.dropped
  {
    states, actions := Fills(QUEUE_MAX);
    full := states[|states| - 1];
    RunKeeps(states, actions, |states| - 1);
    a, b := full.begun, full.begun + 1;
    states, actions := RunExtends(states, actions, Begin);
    states, actions := RunExtends(states, actions, Begin);
    states, actions := RunExtends(states, actions, Offer(a));
    states, actions := RunExtends(states, actions, Shed(a));
    states, actions := RunExtends(states, actions, Offer(b));
    states, actions := RunExtends(states, actions, Retry(a));
  }

  /** From the beginning to a push, the only one under way, that finds the queue full: the
      flusher takes an entry, and the push sheds another although there is room. */
  lemma NeedlessShed() returns (states: seq<State>, actions: seq<Action>, full: State, p: nat)
    ensures IsRun(states, actions) && full in states && |full.queue| == QUEUE_MAX
    ensures var s := states[|states| - 1];
      && s.queue == full.queue[2..] + [p] && s.batch == [full.queue[0]]
      && s.exits == full.exits + [Exit(full.queue[0], true), Exit(full.queue[1], false)]
  {
    states, actions := Fills(QUEUE_MAX);
    full := states[|states| - 1];
    p := full.begun;
    states, actions := RunExtends(states, actions, Begin);
    states, actions := RunExtends(states, actions, Offer(p));
    states, actions := RunExtends(states, actions, Take);
    states, actions := RunExtends(states, actions, Shed(p));
    states, actions := RunExtends(states, actions, Retry(p));
  }
}
