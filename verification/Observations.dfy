/** Observation delivery: the agent's flusher, the acknowledged channel, the control
    plane's handler, and the POST fallback. */
module Observations {
  import opened Wrappers

  /** What an observation says does not matter here. */
  type Observation = int

  /** The observations of one delivery; `no` tells batches of equal contents apart. */
  datatype Batch = Batch(no: nat, items: seq<Observation>)

  const BATCH_MAX: nat := 100
  const INGEST_MAX: nat := 500
  const ACK_BUFFER: nat := 4

  datatype Frame = Frame(seqNo: nat, batch: Batch)

  datatype Ack = Ack(seqNo: nat, denied: bool)

  /** One connection: frames up, acknowledgements down, and the agent's ack buffer. */
  datatype Channel = Channel(up: seq<Frame>, down: seq<Ack>, acks: seq<Ack>)

  const NEW_CHANNEL := Channel([], [], [])

  datatype Flusher = Collecting(items: seq<Observation>) | Ready(batch: Batch) | Waiting(batch: Batch)
    | Posting(batch: Batch)

  datatype Outcome = Delivered(batch: Batch) | Denied(batch: Batch, byChannel: bool)

  /** `stray` are frames of closed channels that the handler may still read; `handed` are
      the batches given to the ingestion queue; `completed` what the flusher finished;
      `built` counts the batches it sealed. */
  datatype State = State(
    seqNo: nat, built: nat, channel: Option<Channel>, flusher: Flusher, stray: seq<Batch>,
    handed: seq<Batch>, completed: seq<Outcome>, droppedAcks: nat, staleAcks: nat)

  const START := State(0, 0, None, Collecting([]), [], [], [], 0, 0)

  datatype Action =
    | Collect(o: Observation) | Seal
    | Dial | SkipChannel | SendOk | SendBreaks
    | HandlerReads | StrayRead(k: nat) | AgentReads | TakeAck | TakeAckInline | ChannelBreaks
    | PostAccepted | PostLost | PostRefused | PostFails

  function Batches(frames: seq<Frame>): seq<Batch> {
    seq(|frames|, i requires 0 <= i < |frames| => frames[i].batch)
  }

  predicate Enabled(s: State, a: Action) {
    match a
    case Collect(_) => s.flusher.Collecting? && |s.flusher.items| < BATCH_MAX
    case Seal => s.flusher.Collecting? && s.flusher.items != []
    case Dial => s.flusher.Ready? && s.channel.None?
    case SkipChannel => s.flusher.Ready? && s.channel.None?
    case SendOk => s.flusher.Ready? && s.channel.Some?
    case SendBreaks => s.flusher.Ready? && s.channel.Some?
    case HandlerReads => s.channel.Some? && s.channel.value.up != []
    case StrayRead(k) => k < |s.stray|
    case AgentReads => s.channel.Some? && s.channel.value.down != []
    case TakeAck => s.flusher.Waiting? && s.channel.Some? && s.channel.value.acks != []
    case TakeAckInline => s.flusher.Waiting? && s.channel.Some? && s.channel.value.down != []
    case ChannelBreaks => s.flusher.Waiting? && s.channel.Some?
    case PostAccepted => s.flusher.Posting? && |s.flusher.batch.items| <= INGEST_MAX
    case PostLost => s.flusher.Posting? && |s.flusher.batch.items| <= INGEST_MAX
    case PostRefused => s.flusher.Posting?
    case PostFails => s.flusher.Posting?
  }

  /** The handler: too large a batch is denied, any other handed on before it is acked. */
  function Handle(s: State, c: Channel): State
    requires c.up != []
  {
    var f, rest := c.up[0], c.(up := c.up[1..]);
    if |f.batch.items| > INGEST_MAX then s.(channel := Some(rest.(down := rest.down + [Ack(f.seqNo, true)])))
    else s.(handed := s.handed + [f.batch], channel := Some(rest.(down := rest.down + [Ack(f.seqNo, false)])))
  }

  /** A batch of up to 500 observations is handed on, a larger one refused; each is answered once. */
  lemma HandlesExactly(s: State, c: Channel)
    requires c.up != []
    ensures var s', b := Handle(s, c), c.up[0].batch;
      && s'.handed == s.handed + (if |b.items| <= 500 then [b] else [])
      && s'.channel == Some(Channel(c.up[1..], c.down + [Ack(c.up[0].seqNo, |b.items| > 500)], c.acks))
      && s' == s.(handed := s'.handed, channel := s'.channel)
  {
  }

  /** The flusher looks at an acknowledgement: another batch's is skipped. */
  function Acknowledge(s: State, ack: Ack, c: Channel): State
    requires s.flusher.Waiting?
  {
    if ack.seqNo != s.seqNo then s.(channel := Some(c), staleAcks := s.staleAcks + 1)
    else
      var outcome := if ack.denied then Denied(s.flusher.batch, true) else Delivered(s.flusher.batch);
      s.(channel := Some(c), flusher := Collecting([]), completed := s.completed + [outcome])
  }

  /** A broken channel is closed and the batch goes to the POST. */
  function Break(s: State, frames: seq<Frame>): State
    requires !s.flusher.Collecting?
  {
    s.(channel := None, flusher := Posting(s.flusher.batch), stray := s.stray + Batches(frames))
  }

  function Next(s: State, a: Action): State
    requires Enabled(s, a)
  {
    match a
    case Collect(o) => s.(flusher := Collecting(s.flusher.items + [o]))
    case Seal => s.(built := s.built + 1, flusher := Ready(Batch(s.built, s.flusher.items)))
    case Dial => s.(channel := Some(NEW_CHANNEL))
    case SkipChannel => s.(flusher := Posting(s.flusher.batch))
    case SendOk =>
      var c, n := s.channel.value, s.seqNo + 1;
      s.(seqNo := n, channel := Some(c.(up := c.up + [Frame(n, s.flusher.batch)])), flusher := Waiting(s.flusher.batch))
    case SendBreaks =>
      var c, n := s.channel.value, s.seqNo + 1;
      Break(s.(seqNo := n), c.up + [Frame(n, s.flusher.batch)])
    case HandlerReads => Handle(s, s.channel.value)
    case StrayRead(k) =>
      var b := s.stray[k];
      s.(stray := s.stray[..k] + s.stray[k + 1..],
         handed := if |b.items| > INGEST_MAX then s.handed else s.handed + [b])
    case AgentReads =>
      var c := s.channel.value;
      if |c.acks| < ACK_BUFFER
      then s.(channel := Some(c.(down := c.down[1..], acks := c.acks + [c.down[0]])))
      else s.(channel := Some(c.(down := c.down[1..])), droppedAcks := s.droppedAcks + 1)
    case TakeAck =>
      var c := s.channel.value;
      Acknowledge(s, c.acks[0], c.(acks := c.acks[1..]))
    case TakeAckInline =>
      var c := s.channel.value;
      Acknowledge(s, c.down[0], c.(down := c.down[1..]))
    case ChannelBreaks => Break(s, s.channel.value.up)
    case PostAccepted =>
      s.(handed := s.handed + [s.flusher.batch], completed := s.completed + [Delivered(s.flusher.batch)],
         flusher := Collecting([]))
    case PostLost => s.(handed := s.handed + [s.flusher.batch], flusher := Ready(s.flusher.batch))
    case PostRefused => s.(completed := s.completed + [Denied(s.flusher.batch, false)], flusher := Collecting([]))
    case PostFails => s.(flusher := Ready(s.flusher.batch))
  }

  // ----- The invariant

  function Outstanding(c: Channel): nat {
    |c.up| + |c.down| + |c.acks|
  }

  /** The one thing in flight belongs to the batch being waited for; once acknowledged, that
      batch has been handed on. */
  ghost predicate Matches(s: State, c: Channel)
    requires s.flusher.Waiting?
  {
    && Outstanding(c) == 1
    && (c.up != [] ==> c.up[0] == Frame(s.seqNo, s.flusher.batch))
    && (c.down != [] ==> c.down[0] == Ack(s.seqNo, false) && s.flusher.batch in s.handed)
    && (c.acks != [] ==> c.acks[0] == Ack(s.seqNo, false) && s.flusher.batch in s.handed)
  }

  ghost predicate OneInFlight(s: State) {
    && (s.flusher.Waiting? ==> s.channel.Some? && Matches(s, s.channel.value))
    && (!s.flusher.Waiting? && s.channel.Some? ==> Outstanding(s.channel.value) == 0)
  }

  ghost predicate Accounted(s: State) {
    && (if s.flusher.Collecting? then |s.flusher.items| <= BATCH_MAX else 1 <= |s.flusher.batch.items| <= BATCH_MAX)
    && s.droppedAcks == 0 && s.staleAcks == 0
    && (forall i :: 0 <= i < |s.completed| ==> s.completed[i].Delivered? ==> s.completed[i].batch in s.handed)
    && (forall i :: 0 <= i < |s.completed| ==> s.completed[i].Denied? ==> !s.completed[i].byChannel)
  }

  /** Batches are completed one after the other in the order they were built. */
  ghost predicate InOrder(s: State) {
    && (forall i :: 0 <= i < |s.completed| ==> s.completed[i].batch.no == i)
    && (if s.flusher.Collecting? then s.built == |s.completed|
        else s.built == |s.completed| + 1 && s.flusher.batch.no == |s.completed|)
  }

  ghost predicate Inv(s: State) {
    OneInFlight(s) && Accounted(s) && InOrder(s)
  }

  lemma StartInv()
    ensures Inv(START)
  {
  }

  lemma StepKeeps(s: State, a: Action)
    requires Inv(s) && Enabled(s, a)
    ensures Inv(Next(s, a))
  {
    hide Batches;
  }

  // ----- Runs

  ghost predicate IsRun(states: seq<State>, actions: seq<Action>) {
    && |states| == |actions| + 1 && states[0] == START
    && forall i :: 0 <= i < |actions| ==> Enabled(states[i], actions[i]) && states[i + 1] == Next(states[i], actions[i])
  }

  lemma {:induction false} RunKeeps(states: seq<State>, actions: seq<Action>, i: nat)
    requires IsRun(states, actions) && i < |states|
    ensures Inv(states[i])
  {
    hide Inv, Next, Enabled;
    if i == 0 {
      StartInv();
    } else {
      RunKeeps(states, actions, i - 1);
      StepKeeps(states[i - 1], actions[i - 1]);
    }
  }

  /** At most one observation frame or acknowledgement is in flight on a channel, so the ack
      buffer never drops one and the flusher never meets another batch's. */
  lemma OneAckOutstanding(states: seq<State>, actions: seq<Action>, i: nat)
    requires IsRun(states, actions) && i < |states|
    ensures states[i].channel.Some? ==> Outstanding(states[i].channel.value) <= 1
    ensures states[i].droppedAcks == 0 && states[i].staleAcks == 0
  {
    RunKeeps(states, actions, i);
  }

  /** Every batch built is completed in turn, none skipped and none twice; one completed
      without a denial was handed to the ingestion queue; and the channel never denies. */
  lemma AtLeastOnce(states: seq<State>, actions: seq<Action>, i: nat, k: nat)
    requires IsRun(states, actions) && i < |states| && k < |states[i].completed|
    ensures var o := states[i].completed[k];
      && o.batch.no == k && k < states[i].built
      && if o.Delivered? then o.batch in states[i].handed else !o.byChannel
    ensures |states[i].completed| <= states[i].built <= |states[i].completed| + 1
  {
    RunKeeps(states, actions, i);
  }

  // ----- What the batches hold

  /** The observations collected, in order. */
  ghost function Collected(actions: seq<Action>): seq<Observation> {
    if actions == [] then []
    else
      var last := actions[|actions| - 1];
      Collected(actions[..|actions| - 1]) + if last.Collect? then [last.o] else []
  }

  ghost function ItemsOf(completed: seq<Outcome>): seq<Observation> {
    if completed == [] then []
    else ItemsOf(completed[..|completed| - 1]) + completed[|completed| - 1].batch.items
  }

  /** What the flusher is at work on. */
  function InProgress(f: Flusher): seq<Observation> {
    if f.Collecting? then f.items else f.batch.items
  }

  lemma ItemsOfAppend(completed: seq<Outcome>, o: Outcome)
    ensures ItemsOf(completed + [o]) == ItemsOf(completed) + o.batch.items
  {
    assert (completed + [o])[..|completed|] == completed;
  }

  lemma StepHolds(s: State, a: Action)
    requires Enabled(s, a)
    ensures ItemsOf(Next(s, a).completed) + InProgress(Next(s, a).flusher)
         == ItemsOf(s.completed) + InProgress(s.flusher) + if a.Collect? then [a.o] else []
  {
    hide ItemsOf, Batches;
    var s' := Next(s, a);
    if s'.completed != s.completed {
      ItemsOfAppend(s.completed, s'.completed[|s.completed|]);
    }
  }

  /** No observation is lost, repeated or reordered on the way into the batches: those completed,
      and the one in progress, hold together what was collected. */
  lemma {:induction false} BatchesHoldAll(states: seq<State>, actions: seq<Action>, i: nat)
    requires IsRun(states, actions) && i < |states|
    ensures ItemsOf(states[i].completed) + InProgress(states[i].flusher) == Collected(actions[..i])
  {
    hide ItemsOf, Next, Enabled;
    if i > 0 {
      BatchesHoldAll(states, actions, i - 1);
      StepHolds(states[i - 1], actions[i - 1]);
      assert actions[..i][..i - 1] == actions[..i - 1];
    } else {
      NothingCollected();
    }
  }

  lemma NothingCollected()
    ensures ItemsOf(START.completed) + InProgress(START.flusher) == []
  {
  }

  // ----- What is handed on

  /** `b` is a batch completed or the one in progress. */
  ghost predicate IsOwn(s: State, b: Batch) {
    || (b.no < |s.completed| && s.completed[b.no].batch == b)
    || (!s.flusher.Collecting? && s.flusher.batch == b)
  }

  ghost predicate OwnOnly(s: State) {
    && (forall b :: b in s.handed ==> IsOwn(s, b))
    && (forall b :: b in s.stray ==> IsOwn(s, b) && |b.items| <= BATCH_MAX)
  }

  lemma OwnStays(s: State, a: Action, b: Batch)
    requires Inv(s) && Enabled(s, a) && IsOwn(s, b)
    ensures IsOwn(Next(s, a), b)
  {
    hide Batches, OneInFlight, Accounted;
  }

  lemma StepHandsOwn(s: State, a: Action)
    requires Inv(s) && OwnOnly(s) && Enabled(s, a)
    ensures OwnOnly(Next(s, a))
  {
    hide Inv, Next, Enabled;
    var s' := Next(s, a);
    forall b | b in s'.handed || b in s'.stray
      ensures IsOwn(s', b) && (b in s'.stray ==> |b.items| <= BATCH_MAX)
    {
      HandedOrStray(s, a, b);
      OwnStays(s, a, b);
    }
  }

  /** What a step hands on or leaves behind is the batch in progress. */
  lemma HandedOrStray(s: State, a: Action, b: Batch)
    requires Inv(s) && Enabled(s, a) && (b in Next(s, a).handed || b in Next(s, a).stray)
    ensures b in s.handed || b in s.stray || (!s.flusher.Collecting? && b == s.flusher.batch)
    ensures b in Next(s, a).stray ==>
      b in s.stray || (!s.flusher.Collecting? && b == s.flusher.batch && |b.items| <= BATCH_MAX)
  {
    hide InOrder;
  }

  /** Only batches of the flusher ever reach the ingestion queue, each as it was built. */
  lemma {:induction false} OnlyOwnAreHanded(states: seq<State>, actions: seq<Action>, i: nat)
    requires IsRun(states, actions) && i < |states|
    ensures forall b :: b in states[i].handed ==> IsOwn(states[i], b)
    ensures OwnOnly(states[i])
  {
    hide Inv, Next, Enabled;
    if i > 0 {
      OnlyOwnAreHanded(states, actions, i - 1);
      RunKeeps(states, actions, i - 1);
      StepHandsOwn(states[i - 1], actions[i - 1]);
    }
  }

  // ----- Every transmission, once

  ghost function FramesSent(actions: seq<Action>): nat {
    if actions == [] then 0
    else
      var last := actions[|actions| - 1];
      FramesSent(actions[..|actions| - 1]) + if last.SendOk? || last.SendBreaks? then 1 else 0
  }

  ghost function PostsTaken(actions: seq<Action>): nat {
    if actions == [] then 0
    else
      var last := actions[|actions| - 1];
      PostsTaken(actions[..|actions| - 1]) + if last.PostAccepted? || last.PostLost? then 1 else 0
  }

  /** What was handed on, and what the handler may still read. */
  ghost function Arrived(s: State): nat {
    |s.handed| + |s.stray| + if s.channel.Some? then |s.channel.value.up| else 0
  }

  lemma TransmissionStep(s: State, a: Action)
    requires Inv(s) && OwnOnly(s) && Enabled(s, a)
    ensures Arrived(Next(s, a)) == Arrived(s)
              + (if a.SendOk? || a.SendBreaks? then 1 else 0) + (if a.PostAccepted? || a.PostLost? then 1 else 0)
    ensures Next(s, a).seqNo == s.seqNo + if a.SendOk? || a.SendBreaks? then 1 else 0
  {
    hide IsOwn, InOrder;
    assert a.StrayRead? ==> s.stray[a.k] in s.stray;
  }

  /** Each frame sent and each POST the control plane took is handed on once, or still to be
      read; and every frame has its own number. */
  lemma {:induction false} TransmissionsArriveOnce(states: seq<State>, actions: seq<Action>, i: nat)
    requires IsRun(states, actions) && i < |states|
    ensures Arrived(states[i]) == FramesSent(actions[..i]) + PostsTaken(actions[..i])
    ensures states[i].seqNo == FramesSent(actions[..i])
  {
    if i > 0 {
      hide Inv, OwnOnly, Next, Enabled, Arrived;
      TransmissionsArriveOnce(states, actions, i - 1);
      RunKeeps(states, actions, i - 1);
      OnlyOwnAreHanded(states, actions, i - 1);
      TransmissionStep(states[i - 1], actions[i - 1]);
      assert actions[..i][..i - 1] == actions[..i - 1];
    }
  }

  /** In any state, reachable or not, an acknowledgement is buffered unless four are waiting, and
      then its loss is counted. */
  lemma DropsAreCounted(s: State)
    requires Enabled(s, AgentReads)
    ensures var s', c := Next(s, AgentReads), s.channel.value;
      && s'.channel.Some?
      && s'.channel.value.acks == c.acks + (if |c.acks| < 4 then [c.down[0]] else [])
      && s'.droppedAcks + |s'.channel.value.acks| == s.droppedAcks + |c.acks| + 1
  {
  }

  /** In any state, the acknowledgement of the last frame settles the batch as it says, and any
      other is counted and leaves the flusher waiting. */
  lemma AcknowledgesExactly(s: State, ack: Ack, c: Channel)
    requires s.flusher.Waiting?
    ensures var s' := Acknowledge(s, ack, c);
      if ack.seqNo == s.seqNo then
        && s'.flusher == Collecting([]) && s'.staleAcks == s.staleAcks
        && |s'.completed| == |s.completed| + 1 && s.completed <= s'.completed
        && s'.completed[|s.completed|].batch == s.flusher.batch
        && (s'.completed[|s.completed|].Delivered? <==> !ack.denied)
      else s'.flusher == s.flusher && s'.completed == s.completed && s'.staleAcks == s.staleAcks + 1
  {
  }
}
