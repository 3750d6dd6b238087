/** The command channel as a whole: calls multiplexed by id over one wire.

    Each call's stream, seen alone, takes a step of `WireStream` or none at all, so
    what is proved of one stream holds of every call, and no frame of one call ever
    touches another. */
module WireMux {
  import opened WireStream
  import opened Wrappers

  datatype Frame = ResultFrame(id: nat, ok: bool) | ChunkFrame(id: nat, c: Chunk)

  /** A command in flight.  Only a streaming call has a chunk queue. */
  datatype Call = Call(streaming: bool, result: Option<bool>, end: Endpoint, lost: bool)

  function NewCall(streaming: bool): Call {
    Call(streaming, None, FRESH, false)
  }

  datatype MuxHand = MuxFree | MuxBusy(id: nat, hand: Hand)

  /** `calls` keeps the calls that were unregistered: their streams may still be read. */
  datatype Mux = Mux(
    nextId: nat, table: set<nat>, calls: map<nat, Call>, wire: seq<Frame>, hand: MuxHand, sent: seq<Frame>)

  const UP := Mux(0, {}, map[], [], MuxFree, [])

  datatype MuxAction =
    | OpenCall(streaming: bool) | PeerSends(f: Frame) | TakeFrame | HandStep
    | Reader(id: nat, a: Action) | CloseCall(id: nat)

  /** The chunks of one call, in order. */
  ghost function Chunks(id: nat, frames: seq<Frame>): seq<Chunk> {
    if frames == [] then []
    else (if frames[0].ChunkFrame? && frames[0].id == id then [frames[0].c] else []) + Chunks(id, frames[1..])
  }

  lemma {:induction false} ChunksConcat(id: nat, a: seq<Frame>, b: seq<Frame>)
    ensures Chunks(id, a + b) == Chunks(id, a) + Chunks(id, b)
    decreases |a|
  {
    if a == [] {
      assert a + b == b;
    } else {
      assert (a + b)[1..] == a[1..] + b;
      ChunksConcat(id, a[1..], b);
    }
  }

  lemma ChunksOne(id: nat, f: Frame)
    ensures Chunks(id, [f]) == if f.ChunkFrame? && f.id == id then [f.c] else []
  {
    assert [f][1..] == [];
  }

  lemma {:induction false} ChunksNone(id: nat, frames: seq<Frame>)
    requires forall i :: 0 <= i < |frames| ==> frames[i].id != id
    ensures Chunks(id, frames) == []
    decreases |frames|
  {
    if frames != [] {
      ChunksNone(id, frames[1..]);
    }
  }

  /** The state of one call's stream. */
  ghost function Project(m: Mux, id: nat): Stream
    requires id in m.calls
  {
    Stream(Chunks(id, m.sent), Chunks(id, m.wire),
           if m.hand.MuxBusy? && m.hand.id == id then m.hand.hand else Free,
           id in m.table && m.calls[id].streaming, m.calls[id].end, m.calls[id].lost)
  }

  predicate IsReaderAction(a: Action) {
    a.ReadChunk? || a.ReadBytes? || a.Interrupt?
  }

  ghost predicate MuxEnabled(m: Mux, a: MuxAction) {
    match a
    case OpenCall(_) => true
    case PeerSends(f) =>
      f.id in m.calls && (f.ChunkFrame? ==> Enabled(Project(m, f.id), Send(f.c)))
    case TakeFrame => m.hand.MuxFree? && m.wire != []
    case HandStep => m.hand.MuxBusy? && m.hand.id in m.calls && !m.hand.hand.Free?
    case Reader(id, x) => id in m.calls && IsReaderAction(x) && Enabled(Project(m, id), x)
    case CloseCall(_) => true
  }

  predicate Registered(m: Mux, id: nat) {
    id in m.table && id in m.calls
  }

  /** The read loop handles the oldest frame: a result goes to its call's one-place
      channel, a chunk is taken in hand; a frame nobody waits for is dropped. */
  function Take(m: Mux): Mux
    requires m.wire != []
  {
    var f, rest := m.wire[0], m.(wire := m.wire[1..]);
    match f
    case ResultFrame(id, ok) =>
      if Registered(m, id) && m.calls[id].result.None?
      then rest.(calls := m.calls[id := m.calls[id].(result := Some(ok))]) else rest
    case ChunkFrame(id, c) =>
      if Registered(m, id) && m.calls[id].streaming then rest.(hand := MuxBusy(id, Holding(c)))
      else if id in m.calls then rest.(calls := m.calls[id := m.calls[id].(lost := true)])
      else rest
  }

  function HandAction(h: Hand): Action
    requires !h.Free?
  {
    match h
    case Holding(_) => Push
    case Overflowed => DropOldest
    case Shed => PushError
  }

  ghost function MuxNext(m: Mux, a: MuxAction): Mux
    requires MuxEnabled(m, a)
  {
    match a
    case OpenCall(streaming) =>
      var id := m.nextId + 1;
      m.(nextId := id, table := m.table + {id}, calls := m.calls[id := NewCall(streaming)])
    case PeerSends(f) => m.(wire := m.wire + [f], sent := m.sent + [f])
    case TakeFrame => Take(m)
    case HandStep =>
      var id := m.hand.id;
      var s := Next(Project(m, id), HandAction(m.hand.hand));
      m.(hand := if s.hand.Free? then MuxFree else MuxBusy(id, s.hand),
         calls := m.calls[id := m.calls[id].(end := s.end, lost := s.lost)])
    case Reader(id, x) =>
      m.(calls := m.calls[id := m.calls[id].(end := Next(Project(m, id), x).end)])
    case CloseCall(id) => m.(table := m.table - {id})
  }

  // ----- What keeps calls apart

  /** Ids are handed out in increasing order and never twice; frames answer issued ids. */
  ghost predicate IdsIssued(m: Mux) {
    && (forall id :: id in m.calls ==> 1 <= id <= m.nextId)
    && m.table <= m.calls.Keys
    && (forall i :: 0 <= i < |m.sent| ==> m.sent[i].id in m.calls)
    && (forall i :: 0 <= i < |m.wire| ==> m.wire[i].id in m.calls)
    && (m.hand.MuxBusy? ==> m.hand.id in m.calls && !m.hand.hand.Free?)
  }

  lemma IdsStayIssued(m: Mux, a: MuxAction)
    requires IdsIssued(m) && MuxEnabled(m, a)
    ensures IdsIssued(MuxNext(m, a))
  {
    hide Project, Enabled, Next;
  }

  /** Which step of its own stream a channel step is for call `id`, if any. */
  ghost function StreamAction(m: Mux, a: MuxAction, id: nat): Option<Action> {
    match a
    case OpenCall(_) => None
    case PeerSends(f) => if f.ChunkFrame? && f.id == id then Some(Send(f.c)) else None
    case TakeFrame =>
      if m.wire != [] && m.wire[0].ChunkFrame? && m.wire[0].id == id then Some(WireStream.Take) else None
    case HandStep =>
      if m.hand.MuxBusy? && m.hand.id == id && !m.hand.hand.Free? then Some(HandAction(m.hand.hand)) else None
    case Reader(i, x) => if i == id then Some(x) else None
    case CloseCall(i) => if i == id then Some(Close) else None
  }

  ghost predicate StepsOrStays(s: Stream, a: Option<Action>, s': Stream) {
    match a
    case None => s' == s
    case Some(x) => Enabled(s, x) && s' == Next(s, x)
  }

  lemma SendProjects(m: Mux, f: Frame, id: nat)
    requires id in m.calls && MuxEnabled(m, PeerSends(f))
    ensures StepsOrStays(Project(m, id), StreamAction(m, PeerSends(f), id), Project(MuxNext(m, PeerSends(f)), id))
  {
    hide Chunks;
    ChunksConcat(id, m.sent, [f]);
    ChunksConcat(id, m.wire, [f]);
    ChunksOne(id, f);
  }

  lemma TakeProjects(m: Mux, id: nat)
    requires IdsIssued(m) && id in m.calls && MuxEnabled(m, TakeFrame)
    ensures StepsOrStays(Project(m, id), StreamAction(m, TakeFrame, id), Project(MuxNext(m, TakeFrame), id))
  {
    hide Chunks;
    var f, rest := m.wire[0], m.wire[1..];
    assert m.wire == [f] + rest;
    ChunksConcat(id, [f], rest);
    ChunksOne(id, f);
    if f.ChunkFrame? && f.id == id {
      assert ([f.c] + Chunks(id, rest))[1..] == Chunks(id, rest);
    }
  }

  lemma OpenProjects(m: Mux, streaming: bool, id: nat)
    requires IdsIssued(m) && id in m.calls
    ensures StepsOrStays(Project(m, id), None, Project(MuxNext(m, OpenCall(streaming)), id))
  {
    hide Chunks;
  }

  lemma HandProjects(m: Mux, id: nat)
    requires id in m.calls && MuxEnabled(m, HandStep)
    ensures StepsOrStays(Project(m, id), StreamAction(m, HandStep, id), Project(MuxNext(m, HandStep), id))
  {
    hide Chunks;
  }

  lemma LocalProjects(m: Mux, a: MuxAction, id: nat)
    requires id in m.calls && MuxEnabled(m, a) && (a.Reader? || a.CloseCall?)
    ensures StepsOrStays(Project(m, id), StreamAction(m, a, id), Project(MuxNext(m, a), id))
  {
    hide Chunks;
  }

  /** A channel step is one step of the call it concerns and leaves every other call alone. */
  lemma StepProjects(m: Mux, a: MuxAction, id: nat)
    requires IdsIssued(m) && MuxEnabled(m, a) && id in m.calls
    ensures id in MuxNext(m, a).calls
    ensures StepsOrStays(Project(m, id), StreamAction(m, a, id), Project(MuxNext(m, a), id))
  {
    hide Project, Enabled, Next, StepsOrStays;
    match a
    case OpenCall(streaming) => OpenProjects(m, streaming, id);
    case PeerSends(f) => SendProjects(m, f, id);
    case TakeFrame => TakeProjects(m, id);
    case HandStep => HandProjects(m, id);
    case Reader(_, _) => LocalProjects(m, a, id);
    case CloseCall(_) => LocalProjects(m, a, id);
  }

  /** A fresh id starts with a fresh stream: nothing on the wire carries it. */
  lemma OpenIsIdle(m: Mux)
    requires IdsIssued(m)
    ensures var id := m.nextId + 1;
      id !in m.calls && Project(MuxNext(m, OpenCall(true)), id) == IDLE
  {
    var id := m.nextId + 1;
    ChunksNone(id, m.sent);
    ChunksNone(id, m.wire);
  }

  lemma OpenUnaryKeeps(m: Mux)
    requires IdsIssued(m)
    ensures Inv(Project(MuxNext(m, OpenCall(false)), m.nextId + 1))
  {
    var id := m.nextId + 1;
    ChunksNone(id, m.sent);
    ChunksNone(id, m.wire);
  }

  // ----- Runs of the channel

  ghost predicate MuxInv(m: Mux) {
    IdsIssued(m) && forall id :: id in m.calls ==> Inv(Project(m, id))
  }

  lemma MuxKeeps(m: Mux, a: MuxAction)
    requires MuxInv(m) && MuxEnabled(m, a)
    ensures MuxInv(MuxNext(m, a))
  {
    IdsStayIssued(m, a);
    var m' := MuxNext(m, a);
    forall id | id in m'.calls ensures Inv(Project(m', id)) {
      if id in m.calls {
        OneCallKeeps(m, a, id);
      } else {
        NewCallKeeps(m, a, id);
      }
    }
  }

  lemma OneCallKeeps(m: Mux, a: MuxAction, id: nat)
    requires MuxInv(m) && MuxEnabled(m, a) && id in m.calls
    ensures id in MuxNext(m, a).calls && Inv(Project(MuxNext(m, a), id))
  {
    hide Project, Enabled, Next, Inv, MuxNext, MuxEnabled;
    StepProjects(m, a, id);
    if StreamAction(m, a, id).Some? {
      StepKeeps(Project(m, id), StreamAction(m, a, id).value);
    }
  }

  lemma NewCallKeeps(m: Mux, a: MuxAction, id: nat)
    requires MuxInv(m) && MuxEnabled(m, a) && id !in m.calls && id in MuxNext(m, a).calls
    ensures Inv(Project(MuxNext(m, a), id))
  {
    hide Project, Enabled, Next, Inv;
    assert a.OpenCall? && id == m.nextId + 1;
    if a.streaming {
      OpenIsIdle(m);
      IdleInv();
    } else {
      OpenUnaryKeeps(m);
    }
  }

  ghost predicate IsMuxRun(states: seq<Mux>, actions: seq<MuxAction>) {
    && |states| == |actions| + 1 && states[0] == UP
    && forall i :: 0 <= i < |actions| ==>
         MuxEnabled(states[i], actions[i]) && states[i + 1] == MuxNext(states[i], actions[i])
  }

  lemma {:induction false} MuxRunKeeps(states: seq<Mux>, actions: seq<MuxAction>, i: nat)
    requires IsMuxRun(states, actions) && i < |states|
    ensures MuxInv(states[i])
  {
    hide MuxNext, MuxEnabled, MuxInv;
    if i == 0 {
      UpInv();
    } else {
      MuxRunKeeps(states, actions, i - 1);
      MuxKeeps(states[i - 1], actions[i - 1]);
    }
  }

  lemma UpInv()
    ensures MuxInv(UP)
  {
  }

  /** On a shared channel too, a clean end means the whole stream of that very call. */
  lemma CleanEofOnChannel(states: seq<Mux>, actions: seq<MuxAction>, i: nat, id: nat)
    requires IsMuxRun(states, actions) && i < |states| && id in states[i].calls
    requires var e := states[i].calls[id].end; e.buf == [] && e.end == Eof
    ensures var sent := Chunks(id, states[i].sent);
      && states[i].calls[id].end.returned == Data(sent) && Disciplined(sent)
      && sent != [] && CleanEnd(sent[|sent| - 1])
  {
    hide Chunks, IsMuxRun, IdsIssued, Inv, Data;
    MuxRunKeeps(states, actions, i);
    EofIsComplete(Project(states[i], id));
  }

  // ----- Results

  ghost function FirstResult(id: nat, frames: seq<Frame>): Option<bool> {
    if frames == [] then None
    else if frames[0].ResultFrame? && frames[0].id == id then Some(frames[0].ok)
    else FirstResult(id, frames[1..])
  }

  lemma {:induction false} FirstResultConcat(id: nat, a: seq<Frame>, b: seq<Frame>)
    ensures FirstResult(id, a + b)
         == if FirstResult(id, a).Some? then FirstResult(id, a) else FirstResult(id, b)
    decreases |a|
  {
    if a == [] {
      assert a + b == b;
    } else {
      assert (a + b)[1..] == a[1..] + b;
      FirstResultConcat(id, a[1..], b);
    }
  }

  /** What the read loop has handled so far. */
  ghost predicate Handled(m: Mux, done: seq<Frame>) {
    m.sent == done + m.wire
  }

  /** A call holds the first result sent for its id; a registered call without one has
      missed none. */
  ghost predicate ResultsMatch(m: Mux, done: seq<Frame>) {
    forall id :: id in m.calls ==>
      && (m.calls[id].result.Some? ==> FirstResult(id, done) == m.calls[id].result)
      && (m.calls[id].result.None? && id in m.table ==> FirstResult(id, done) == None)
  }

  ghost function DoneAfter(m: Mux, a: MuxAction, done: seq<Frame>): seq<Frame> {
    if a.TakeFrame? && m.wire != [] then done + [m.wire[0]] else done
  }

  lemma {:induction false} NoResult(id: nat, frames: seq<Frame>)
    requires forall i :: 0 <= i < |frames| ==> frames[i].id != id
    ensures FirstResult(id, frames) == None
    decreases |frames|
  {
    if frames != [] {
      NoResult(id, frames[1..]);
    }
  }

  lemma ResultOne(id: nat, f: Frame)
    ensures FirstResult(id, [f]) == if f.ResultFrame? && f.id == id then Some(f.ok) else None
  {
    assert [f][1..] == [];
  }

  /** No result ever reaches another call, and the first one wins. */
  lemma ResultsStayMatched(m: Mux, a: MuxAction, done: seq<Frame>)
    requires IdsIssued(m) && MuxEnabled(m, a) && Handled(m, done) && ResultsMatch(m, done)
    ensures Handled(MuxNext(m, a), DoneAfter(m, a, done))
    ensures ResultsMatch(MuxNext(m, a), DoneAfter(m, a, done))
  {
    hide Project, Enabled, Next, FirstResult;
    var m', done' := MuxNext(m, a), DoneAfter(m, a, done);
    HandledGrows(m, a, done);
    forall id | id in m'.calls
      ensures m'.calls[id].result.Some? ==> FirstResult(id, done') == m'.calls[id].result
      ensures m'.calls[id].result.None? && id in m'.table ==> FirstResult(id, done') == None
    {
      if a.TakeFrame? {
        FirstResultConcat(id, done, [m.wire[0]]);
        ResultOne(id, m.wire[0]);
      } else if a.OpenCall? && id == m.nextId + 1 {
        assert forall i :: 0 <= i < |done| ==> done[i] == m.sent[i];
        NoResult(id, done);
      }
    }
  }

  lemma HandledGrows(m: Mux, a: MuxAction, done: seq<Frame>)
    requires MuxEnabled(m, a) && Handled(m, done)
    ensures Handled(MuxNext(m, a), DoneAfter(m, a, done))
  {
    hide Project, Enabled, Next;
    if a.TakeFrame? {
      assert m.wire == [m.wire[0]] + m.wire[1..];
      assert done + [m.wire[0]] + m.wire[1..] == done + m.wire;
    } else if a.PeerSends? {
      assert done + m.wire + [a.f] == done + (m.wire + [a.f]);
    }
  }

  lemma NothingHandled()
    ensures Handled(UP, []) && ResultsMatch(UP, [])
  {
  }

  lemma {:induction false} RunMatches(states: seq<Mux>, actions: seq<MuxAction>, i: nat) returns (done: seq<Frame>)
    requires IsMuxRun(states, actions) && i < |states|
    ensures Handled(states[i], done) && ResultsMatch(states[i], done)
    decreases i
  {
    hide MuxEnabled, MuxNext, Handled, ResultsMatch, IdsIssued, Project, Inv;
    if i == 0 {
      done := [];
      NothingHandled();
    } else {
      done := RunMatches(states, actions, i - 1);
      MuxRunKeeps(states, actions, i - 1);
      ResultsStayMatched(states[i - 1], actions[i - 1], done);
      done := DoneAfter(states[i - 1], actions[i - 1], done);
    }
  }

  /** At every moment of every run, a call that has a result has the first one the peer sent
      under its own id. */
  lemma ResultsOnChannel(states: seq<Mux>, actions: seq<MuxAction>, i: nat, id: nat)
    requires IsMuxRun(states, actions) && i < |states| && id in states[i].calls && states[i].calls[id].result.Some?
    ensures FirstResult(id, states[i].sent) == states[i].calls[id].result
  {
    hide IsMuxRun, FirstResult;
    var done := RunMatches(states, actions, i);
    FirstResultConcat(id, done, states[i].wire);
  }
}
