/** One stream of the typed command channel, from the peer's chunks to the reader.

    The peer's chunks travel over a first-in first-out wire.  The read loop delivers
    them into a bounded queue; when the queue is full it drops the chunk, sheds the
    oldest queued one and queues an error.  The reader runs concurrently, so it may
    act between any two of these steps.  The guarantee proved is that a clean end of
    stream is never reported unless every byte sent has been returned. */
module WireStream {

  newtype byte = b: int | 0 <= b < 256

  type Bytes = seq<byte>

  /** Undelivered chunks one stream may hold. */
  const CAPACITY: nat := 512

  /** Data, and whether the chunk ends the stream cleanly (`eof`) or with an error. */
  datatype Chunk = Chunk(data: Bytes, eof: bool, broken: bool)

  const TOO_SLOW := Chunk([], false, true)

  predicate Terminal(c: Chunk) {
    c.eof || c.broken
  }

  /** What the reader takes for a clean end: an error wins over an end mark. */
  predicate CleanEnd(c: Chunk) {
    c.eof && !c.broken
  }

  /** At most one terminal chunk, and nothing after it. */
  ghost predicate Disciplined(chunks: seq<Chunk>) {
    forall i :: 0 <= i < |chunks| - 1 ==> !Terminal(chunks[i])
  }

  ghost function Data(chunks: seq<Chunk>): Bytes {
    if chunks == [] then [] else chunks[0].data + Data(chunks[1..])
  }

  lemma {:induction false} DataConcat(a: seq<Chunk>, b: seq<Chunk>)
    ensures Data(a + b) == Data(a) + Data(b)
    decreases |a|
  {
    if a == [] {
      assert a + b == b;
    } else {
      assert (a + b)[1..] == a[1..] + b;
      DataConcat(a[1..], b);
    }
  }

  lemma DataOne(c: Chunk)
    ensures Data([c]) == c.data
  {
    assert [c][1..] == [];
  }

  // ----- The reader's end of a stream

  datatype End = Open | Eof | Failed

  /** The queue and the reader's fields.  `returned` is all the bytes handed to the caller. */
  datatype Endpoint = Endpoint(queue: seq<Chunk>, buf: Bytes, end: End, returned: Bytes)

  const FRESH := Endpoint([], [], Open, [])

  function TryPush(e: Endpoint, c: Chunk): Endpoint {
    if |e.queue| < CAPACITY then e.(queue := e.queue + [c]) else e
  }

  function ShedOldest(e: Endpoint): Endpoint {
    if e.queue != [] then e.(queue := e.queue[1..]) else e
  }

  /** The reader takes the oldest chunk. */
  function Receive(e: Endpoint): Endpoint
    requires e.queue != []
  {
    var c := e.queue[0];
    e.(queue := e.queue[1..], buf := c.data, end := if c.broken then Failed else if c.eof then Eof else e.end)
  }

  function HandOver(e: Endpoint, n: nat): Endpoint
    requires n <= |e.buf|
  {
    e.(buf := e.buf[n..], returned := e.returned + e.buf[..n])
  }

  // ----- The whole path of one stream

  /** Where the read loop stands with a chunk of this stream. */
  datatype Hand = Free | Holding(c: Chunk) | Overflowed | Shed

  /** `sent` and `lost` are history: what the peer sent, and whether a chunk was dropped. */
  datatype Stream = Stream(
    sent: seq<Chunk>, wire: seq<Chunk>, hand: Hand, registered: bool, end: Endpoint, lost: bool)

  datatype Action = Send(c: Chunk) | Take | Push | DropOldest | PushError | ReadChunk | ReadBytes(n: nat) | Interrupt
    | Close

  predicate Enabled(s: Stream, a: Action) {
    match a
    case Send(c) => forall i :: 0 <= i < |s.sent| ==> !Terminal(s.sent[i])
    case Take => s.hand.Free? && s.wire != []
    case Push => s.hand.Holding?
    case DropOldest => s.hand.Overflowed?
    case PushError => s.hand.Shed?
    case ReadChunk => s.end.buf == [] && s.end.end == Open && s.end.queue != []
    case ReadBytes(n) => n <= |s.end.buf|
    case Interrupt => s.end.buf == [] && s.end.end == Open
    case Close => true
  }

  function Next(s: Stream, a: Action): Stream
    requires Enabled(s, a)
  {
    match a
    case Send(c) => s.(sent := s.sent + [c], wire := s.wire + [c])
    case Take =>
      if s.registered then s.(wire := s.wire[1..], hand := Holding(s.wire[0]))
      else s.(wire := s.wire[1..], lost := true)
    case Push =>
      if |s.end.queue| < CAPACITY then s.(hand := Free, end := TryPush(s.end, s.hand.c))
      else s.(hand := Overflowed, lost := true)
    case DropOldest => s.(hand := Shed, end := ShedOldest(s.end))
    case PushError => s.(hand := Free, end := TryPush(s.end, TOO_SLOW))
    case ReadChunk => s.(end := Receive(s.end))
    case ReadBytes(n) => s.(end := HandOver(s.end, n))
    case Interrupt => s.(end := s.end.(end := Failed))
    case Close => s.(registered := false)
  }

  const IDLE := Stream([], [], Free, true, FRESH, false)

  // ----- The invariant

  function HandChunks(s: Stream): seq<Chunk> {
    if s.hand.Holding? then [s.hand.c] else []
  }

  ghost predicate IsTail(a: seq<Chunk>, b: seq<Chunk>) {
    |a| <= |b| && b[|b| - |a|..] == a
  }

  lemma TailOfTail(a: seq<Chunk>, b: seq<Chunk>)
    requires IsTail(a, b) && a != []
    ensures IsTail(a[1..], b) && b[|b| - |a|] == a[0]
  {
    var k := |b| - |a|;
    assert b[k] == b[k..][0];
    assert b[k + 1..] == b[k..][1..];
  }

  lemma TailAppend(a: seq<Chunk>, b: seq<Chunk>, c: Chunk)
    requires IsTail(a, b)
    ensures IsTail(a + [c], b + [c])
  {
    assert (b + [c])[|b| - |a|..] == b[|b| - |a|..] + [c];
  }

  /** What is still on its way is the tail of what was sent. */
  ghost predicate Ordered(s: Stream) {
    IsTail(HandChunks(s) + s.wire, s.sent) && Disciplined(s.sent)
  }

  ghost predicate HasCleanEnd(queue: seq<Chunk>) {
    exists i :: 0 <= i < |queue| && CleanEnd(queue[i])
  }

  ghost predicate HasError(queue: seq<Chunk>) {
    exists i :: 0 <= i < |queue| && queue[i].broken
  }

  /** A clean end, queued or seen, is the last thing the peer sent. */
  ghost predicate EndIsLast(s: Stream) {
    && (HasCleanEnd(s.end.queue) || s.end.end == Eof ==>
          s.wire == [] && s.hand.Free? && s.sent != [] && CleanEnd(s.sent[|s.sent| - 1]))
    && (forall i :: 0 <= i < |s.end.queue| - 1 ==> !CleanEnd(s.end.queue[i]))
    && (s.end.end == Eof ==> s.end.queue == [])
  }

  ghost predicate Bounded(s: Stream) {
    |s.end.queue| <= CAPACITY && (s.hand.Shed? ==> |s.end.queue| < CAPACITY)
  }

  /** Without loss, every byte sent is returned, buffered, queued, in hand or on the wire. */
  ghost predicate Conserved(s: Stream) {
    !s.lost ==>
      s.end.returned + s.end.buf + Data(s.end.queue) + Data(HandChunks(s)) + Data(s.wire) == Data(s.sent)
  }

  /** After a loss, the reader has failed, or will find an error before any end, or will
      find nothing more at all. */
  ghost predicate LossIsTold(s: Stream) {
    s.lost ==>
      || s.end.end == Failed
      || (s.end.end == Open && HasError(s.end.queue))
      || (s.end.end == Open && (s.hand.Overflowed? || s.hand.Shed?))
      || (s.end.end == Open && !s.registered && s.hand.Free? && !HasCleanEnd(s.end.queue))
  }

  ghost predicate LossIsMarked(s: Stream) {
    s.hand.Overflowed? || s.hand.Shed? ==> s.lost
  }

  ghost predicate Inv(s: Stream) {
    Ordered(s) && EndIsLast(s) && Bounded(s) && Conserved(s) && LossIsTold(s) && LossIsMarked(s)
  }

  lemma IdleInv()
    ensures Inv(IDLE)
  {
    hide Data;
    NoData();
    assert HandChunks(IDLE) + IDLE.wire == [];
    assert IsTail([], []);
  }

  // ----- Every step keeps it

  lemma NoData()
    ensures Data([]) == []
  {
  }

  lemma SendKeeps(s: Stream, c: Chunk)
    requires Inv(s) && Enabled(s, Send(c))
    ensures Inv(Next(s, Send(c)))
  {
    hide Data;
    SendConserves(s, c);
    SendOrders(s, c);
    hide Conserved, Ordered;
    assert !HasCleanEnd(s.end.queue) && s.end.end != Eof;
  }

  lemma SendConserves(s: Stream, c: Chunk)
    requires Conserved(s) && Enabled(s, Send(c))
    ensures Conserved(Next(s, Send(c)))
  {
    hide Data;
    DataConcat(s.sent, [c]);
    DataConcat(s.wire, [c]);
  }

  lemma SendOrders(s: Stream, c: Chunk)
    requires Ordered(s) && Enabled(s, Send(c))
    ensures Ordered(Next(s, Send(c)))
  {
    TailAppend(HandChunks(s) + s.wire, s.sent, c);
    assert HandChunks(s) + (s.wire + [c]) == HandChunks(s) + s.wire + [c];
  }

  lemma TakeKeeps(s: Stream)
    requires Inv(s) && Enabled(s, Take)
    ensures Inv(Next(s, Take))
  {
    hide Data, Conserved, Ordered;
    TakeConserves(s);
    TakeOrders(s);
  }

  lemma TakeConserves(s: Stream)
    requires Conserved(s) && Enabled(s, Take)
    ensures Conserved(Next(s, Take))
  {
    hide Data;
    NoData();
    var tail := s.wire[1..];
    assert s.wire == [s.wire[0]] + tail;
    DataConcat([s.wire[0]], tail);
  }

  lemma TakeOrders(s: Stream)
    requires Ordered(s) && Enabled(s, Take)
    ensures Ordered(Next(s, Take))
  {
    hide IsTail, Disciplined;
    assert HandChunks(s) + s.wire == s.wire;
    assert [s.wire[0]] + s.wire[1..] == s.wire;
    assert [] + s.wire[1..] == s.wire[1..];
    TailOfTail(s.wire, s.sent);
  }

  lemma PushKeeps(s: Stream)
    requires Inv(s) && Enabled(s, Push)
    ensures Inv(Next(s, Push))
  {
    hide Data, Conserved;
    PushConserves(s);
    PushOrders(s);
    assert !HasCleanEnd(s.end.queue) && s.end.end != Eof;
    if |s.end.queue| < CAPACITY {
      PushEnds(s, Next(s, Push), s.hand.c);
    }
  }

  lemma PushConserves(s: Stream)
    requires Conserved(s) && Enabled(s, Push)
    ensures Conserved(Next(s, Push))
  {
    hide Data;
    NoData();
    DataConcat(s.end.queue, [s.hand.c]);
  }

  lemma PushOrders(s: Stream)
    requires Ordered(s) && Enabled(s, Push)
    ensures Ordered(Next(s, Push))
  {
    hide IsTail, Disciplined;
    var way := HandChunks(s) + s.wire;
    assert way[1..] == s.wire && [] + s.wire == s.wire;
    TailOfTail(way, s.sent);
  }

  lemma PushEnds(s: Stream, s': Stream, c: Chunk)
    requires Inv(s) && s.hand == Holding(c) && |s.end.queue| < CAPACITY && s' == Next(s, Push)
    requires !HasCleanEnd(s.end.queue) && s.end.end != Eof
    ensures EndIsLast(s') && LossIsTold(s')
  {
    hide Data;
    var q, q' := s.end.queue, s'.end.queue;
    assert q' == q + [c];
    assert forall i :: 0 <= i < |q| ==> q'[i] == q[i] && !CleanEnd(q[i]);
    if CleanEnd(c) {
      TailOfTail([c] + s.wire, s.sent);
    }
    if HasError(q) {
      var i :| 0 <= i < |q| && q[i].broken;
      assert q'[i].broken;
    }
  }

  lemma DropKeeps(s: Stream)
    requires Inv(s) && Enabled(s, DropOldest)
    ensures Inv(Next(s, DropOldest))
  {
    hide Data;
    var s' := Next(s, DropOldest);
    assert !HasCleanEnd(s.end.queue) && s.end.end != Eof;
    assert forall i :: 0 <= i < |s'.end.queue| ==> s'.end.queue[i] == s.end.queue[i + 1];
  }

  lemma PushErrorKeeps(s: Stream)
    requires Inv(s) && Enabled(s, PushError)
    ensures Inv(Next(s, PushError))
  {
    hide Data;
    var s' := Next(s, PushError);
    var q, q' := s.end.queue, s'.end.queue;
    assert !HasCleanEnd(q) && s.end.end != Eof;
    assert q' == q + [TOO_SLOW];
    assert forall i :: 0 <= i < |q| ==> q'[i] == q[i] && !CleanEnd(q[i]);
    assert q'[|q|].broken;
  }

  lemma ReadChunkKeeps(s: Stream)
    requires Inv(s) && Enabled(s, ReadChunk)
    ensures Inv(Next(s, ReadChunk))
  {
    hide Data, Conserved;
    ReadChunkConserves(s);
    ReadChunkEnds(s, Next(s, ReadChunk));
  }

  lemma ReadChunkConserves(s: Stream)
    requires Conserved(s) && Enabled(s, ReadChunk)
    ensures Conserved(Next(s, ReadChunk))
  {
    hide Data;
    var q := s.end.queue;
    assert q == [q[0]] + q[1..];
    DataConcat([q[0]], q[1..]);
    DataOne(q[0]);
  }

  lemma ReadChunkEnds(s: Stream, s': Stream)
    requires Inv(s) && Enabled(s, ReadChunk) && s' == Next(s, ReadChunk)
    ensures EndIsLast(s') && LossIsTold(s')
  {
    hide Data;
    var q, q' := s.end.queue, s'.end.queue;
    assert forall i :: 0 <= i < |q'| ==> q'[i] == q[i + 1];
    if HasCleanEnd(q') {
      var i :| 0 <= i < |q'| && CleanEnd(q'[i]);
      assert CleanEnd(q[i + 1]);
    }
    if HasError(q) && !q[0].broken {
      var i :| 0 <= i < |q| && q[i].broken;
      assert q'[i - 1].broken;
      assert !CleanEnd(q[0]);
    }
    if CleanEnd(q[0]) {
      assert |q| == 1;
    }
  }

  lemma ReadBytesKeeps(s: Stream, n: nat)
    requires Inv(s) && Enabled(s, ReadBytes(n))
    ensures Inv(Next(s, ReadBytes(n)))
  {
    hide Data, Conserved, HasCleanEnd, HasError, Disciplined;
    ReadBytesConserves(s, n);
  }

  lemma ReadBytesConserves(s: Stream, n: nat)
    requires Conserved(s) && Enabled(s, ReadBytes(n))
    ensures Conserved(Next(s, ReadBytes(n)))
  {
    hide Data;
    assert s.end.buf == s.end.buf[..n] + s.end.buf[n..];
    assert s.end.returned + s.end.buf == s.end.returned + s.end.buf[..n] + s.end.buf[n..];
  }

  lemma InterruptKeeps(s: Stream)
    requires Inv(s) && Enabled(s, Interrupt)
    ensures Inv(Next(s, Interrupt))
  {
    hide Data, HasCleanEnd, HasError, Disciplined;
  }

  lemma CloseKeeps(s: Stream)
    requires Inv(s)
    ensures Inv(Next(s, Close))
  {
    hide Data, HasCleanEnd, HasError, Disciplined;
  }

  lemma StepKeeps(s: Stream, a: Action)
    requires Inv(s) && Enabled(s, a)
    ensures Inv(Next(s, a))
  {
    hide Inv, Next, Enabled;
    match a
    case Send(c) => SendKeeps(s, c);
    case Take => TakeKeeps(s);
    case Push => PushKeeps(s);
    case DropOldest => DropKeeps(s);
    case PushError => PushErrorKeeps(s);
    case ReadChunk => ReadChunkKeeps(s);
    case ReadBytes(n) => ReadBytesKeeps(s, n);
    case Interrupt => InterruptKeeps(s);
    case Close => CloseKeeps(s);
  }

  // ----- Runs

  ghost predicate IsRun(states: seq<Stream>, actions: seq<Action>) {
    && |states| == |actions| + 1 && states[0] == IDLE
    && forall i :: 0 <= i < |actions| ==> Enabled(states[i], actions[i]) && states[i + 1] == Next(states[i], actions[i])
  }

  lemma {:induction false} RunKeeps(states: seq<Stream>, actions: seq<Action>, i: nat)
    requires IsRun(states, actions) && i < |states|
    ensures Inv(states[i])
  {
    hide Inv, Next, Enabled;
    if i == 0 {
      IdleInv();
    } else {
      RunKeeps(states, actions, i - 1);
      StepKeeps(states[i - 1], actions[i - 1]);
    }
  }

  /** The reader is told the stream ended cleanly. */
  predicate ReadsEof(s: Stream) {
    s.end.buf == [] && s.end.end == Eof
  }

  /** Over every interleaving: a clean end means every byte sent was returned, in order,
      and the peer did end the stream; nothing was dropped on the way. */
  lemma CleanEofIsComplete(states: seq<Stream>, actions: seq<Action>, i: nat)
    requires IsRun(states, actions) && i < |states| && ReadsEof(states[i])
    ensures states[i].end.returned == Data(states[i].sent) && !states[i].lost
    ensures states[i].sent != [] && CleanEnd(states[i].sent[|states[i].sent| - 1])
  {
    hide IsRun, Data;
    RunKeeps(states, actions, i);
    EofIsComplete(states[i]);
  }

  lemma EofIsComplete(s: Stream)
    requires Inv(s) && ReadsEof(s)
    ensures s.end.returned == Data(s.sent) && !s.lost
    ensures Disciplined(s.sent) && s.sent != [] && CleanEnd(s.sent[|s.sent| - 1])
  {
    hide Data, IsTail, Disciplined;
    NoData();
    assert s.end.returned + [] + [] + [] + [] == s.end.returned;
  }

  /** A dropped chunk surfaces: from then on the reader never sees a clean end. */
  lemma {:induction false} LossIsNeverSilent(states: seq<Stream>, actions: seq<Action>, i: nat, j: nat)
    requires IsRun(states, actions) && i <= j < |states| && states[i].lost
    ensures states[j].lost && states[j].end.end != Eof
    decreases j
  {
    RunKeeps(states, actions, j);
    hide Inv, Enabled;
    if i < j {
      LossIsNeverSilent(states, actions, i, j - 1);
    }
    LostHasNoEof(states[j]);
  }

  lemma LostHasNoEof(s: Stream)
    requires Inv(s)
    ensures s.lost ==> s.end.end != Eof
  {
    hide Data;
  }

  /** A reader that keeps reading what is queued, until it is told of an end. */
  function ReadOn(e: Endpoint): Endpoint
    decreases |e.queue|
  {
    if e.end != Open || e.queue == [] then e else ReadOn(Receive(HandOver(e, |e.buf|)))
  }

  lemma {:induction false} ErrorIsReached(e: Endpoint)
    requires e.end == Open && HasError(e.queue) && forall i :: 0 <= i < |e.queue| - 1 ==> !CleanEnd(e.queue[i])
    ensures ReadOn(e).end == Failed
    decreases |e.queue|
  {
    var i :| 0 <= i < |e.queue| && e.queue[i].broken;
    var next := Receive(HandOver(e, |e.buf|));
    assert forall j :: 0 <= j < |next.queue| ==> next.queue[j] == e.queue[j + 1];
    if !e.queue[0].broken {
      assert i > 0 && next.queue[i - 1].broken;
      ErrorIsReached(next);
    }
  }

  /** A loss surfaces: on a stream its reader has not closed, with no delivery under way, a
      reader that has not been told of an end finds the error by reading on. */
  lemma LossSurfaces(states: seq<Stream>, actions: seq<Action>, i: nat)
    requires IsRun(states, actions) && i < |states|
    requires states[i].lost && states[i].registered && states[i].hand.Free? && states[i].end.end == Open
    ensures HasError(states[i].end.queue) && ReadOn(states[i].end).end == Failed
  {
    RunKeeps(states, actions, i);
    ErrorIsReached(states[i].end);
  }

  /** Before any loss the reader has a prefix of what was sent. */
  lemma PrefixBeforeLoss(states: seq<Stream>, actions: seq<Action>, i: nat)
    requires IsRun(states, actions) && i < |states| && !states[i].lost
    ensures states[i].end.returned <= Data(states[i].sent)
  {
    RunKeeps(states, actions, i);
    hide Data;
  }
}
