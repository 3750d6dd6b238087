/** The agent's side of a command: the frames it answers with. */
module Executor {
  import opened WireStream
  import opened WireMux

  const CHUNK_SIZE: nat := 32768

  /** The sends numbered `from` up to `to` all succeeded. */
  ghost predicate AllSent(script: nat -> bool, from: nat, to: nat) {
    forall i :: from <= i < to ==> script(i)
  }

  /** `n` sends from number `from` on, of which at most the last one failed. */
  ghost predicate StopsAtFailure(script: nat -> bool, from: nat, n: nat) {
    n > 0 ==> AllSent(script, from, from + n - 1)
  }

  /** One send, and then, only if it succeeded, `n` more. */
  lemma SentAfter(script: nat -> bool, first: nat, n: nat)
    ensures StopsAtFailure(script, first, 1)
    ensures script(first) && StopsAtFailure(script, first + 1, n) ==> StopsAtFailure(script, first, n + 1)
    ensures AllSent(script, first, first + 1 + n) ==> script(first) && AllSent(script, first + 1, first + 1 + n)
  {
  }

  /** Where frames go.  Any send may fail: the channel died. */
  class Sender {
    const script: nat -> bool
    var calls: nat
    var frames: seq<Frame>

    constructor (script: nat -> bool)
      ensures this.script == script && calls == 0 && frames == []
    {
      this.script, calls, frames := script, 0, [];
    }

    method SendFrame(f: Frame) returns (ok: bool)
      modifies this
      ensures frames == old(frames) + [f]
      ensures ok == script(old(calls)) && calls == old(calls) + 1
    {
      ok := script(calls);
      calls := calls + 1;
      frames := frames + [f];
    }
  }

  ghost predicate ChunkFrames(id: nat, frames: seq<Frame>) {
    forall i :: 0 <= i < |frames| ==> frames[i].ChunkFrame? && frames[i].id == id
  }

  /** One result; then, only after a success of a streaming method, chunks of which at
      most the last is terminal.  Everything carries the command's id. */
  ghost predicate WellFormedReply(id: nat, streaming: bool, frames: seq<Frame>) {
    frames != [] ==>
      && frames[0].ResultFrame? && frames[0].id == id
      && ChunkFrames(id, frames[1..]) && Disciplined(Chunks(id, frames[1..]))
      && (|frames| > 1 ==> streaming && frames[0].ok)
  }

  // ----- Pumping a reader

  datatype ReadEnd = More | AtEof | Error

  /** One `Read`: the bytes it gave and how it ended. */
  datatype ReadStep = ReadStep(data: Bytes, end: ReadEnd)

  ghost function ReadData(steps: seq<ReadStep>): Bytes {
    if steps == [] then [] else ReadData(steps[..|steps| - 1]) + steps[|steps| - 1].data
  }

  /** Non-terminal data chunks of 1 to `CHUNK_SIZE` bytes. */
  ghost predicate DataChunks(chunks: seq<Chunk>) {
    forall i :: 0 <= i < |chunks| ==> !Terminal(chunks[i]) && 1 <= |chunks[i].data| <= CHUNK_SIZE
  }

  /** Every read up to `k` was forwarded, and none of those before `k` ended the reader. */
  ghost predicate Forwarded(chunks: seq<Chunk>, steps: seq<ReadStep>, k: nat) {
    && k <= |steps| && DataChunks(chunks) && Data(chunks) == ReadData(steps[..k])
    && forall i :: 0 <= i < k - 1 ==> steps[i].end == More
  }

  /** Read `k` ended the reader: its bytes and all before went out, then one terminal
      chunk, an error only if the reader failed while the command was not cancelled. */
  ghost predicate EndsAt(chunks: seq<Chunk>, steps: seq<ReadStep>, k: nat, cancelled: nat -> bool) {
    && chunks != [] && k < |steps|
    && Forwarded(chunks[..|chunks| - 1], steps, k + 1) && steps[k].end != More
    && var failed := steps[k].end == Error && !cancelled(k);
       chunks[|chunks| - 1] == Chunk([], !failed, failed)
  }

  ghost predicate Pumped(chunks: seq<Chunk>, steps: seq<ReadStep>, k: nat, cancelled: nat -> bool) {
    Forwarded(chunks, steps, k) || EndsAt(chunks, steps, k, cancelled)
  }

  /** The pump ran to the end of the reader, or forwarded all there was of one that goes on. */
  ghost predicate PumpedAll(chunks: seq<Chunk>, steps: seq<ReadStep>, k: nat, cancelled: nat -> bool) {
    || EndsAt(chunks, steps, k, cancelled)
    || (Forwarded(chunks, steps, k) && k == |steps| && forall i :: 0 <= i < |steps| ==> steps[i].end == More)
  }

  lemma DataAppend(chunks: seq<Chunk>, c: Chunk)
    ensures Data(chunks + [c]) == Data(chunks) + c.data
  {
    DataConcat(chunks, [c]);
    DataOne(c);
  }

  lemma ReadAppend(steps: seq<ReadStep>, k: nat)
    requires k < |steps|
    ensures ReadData(steps[..k + 1]) == ReadData(steps[..k]) + steps[k].data
  {
    assert steps[..k + 1][..k] == steps[..k];
  }

  lemma ForwardStep(chunks: seq<Chunk>, steps: seq<ReadStep>, k: nat)
    requires Forwarded(chunks, steps, k) && k < |steps| && |steps[k].data| <= CHUNK_SIZE
    requires k > 0 ==> steps[k - 1].end == More
    ensures steps[k].data == [] ==> Forwarded(chunks, steps, k + 1)
    ensures steps[k].data != [] ==> Forwarded(chunks + [Chunk(steps[k].data, false, false)], steps, k + 1)
  {
    hide Data, ReadData;
    ReadAppend(steps, k);
    DataAppend(chunks, Chunk(steps[k].data, false, false));
  }

  lemma ForwardNothing(steps: seq<ReadStep>)
    ensures Forwarded([], steps, 0)
  {
    assert steps[..0] == [];
  }

  /** Forwards the reads given, in order; `cancelled(k)` says whether the command was
      cancelled when read `k` ended.  The pump stops at the first send that fails; if
      none does, it stops at the end of the reader, and running out of reads is a pump
      still going. */
  method PumpReader(sender: Sender, id: nat, steps: seq<ReadStep>, cancelled: nat -> bool)
    returns (ghost chunks: seq<Chunk>, ghost k: nat)
    requires forall i :: 0 <= i < |steps| ==> |steps[i].data| <= CHUNK_SIZE
    modifies sender
    ensures sender.frames == old(sender.frames) + Tag(id, chunks)
    ensures Pumped(chunks, steps, k, cancelled)
    ensures sender.calls == old(sender.calls) + |chunks| && StopsAtFailure(sender.script, old(sender.calls), |chunks|)
    ensures AllSent(sender.script, old(sender.calls), sender.calls) ==> PumpedAll(chunks, steps, k, cancelled)
  {
    hide Forwarded, EndsAt, Tag;
    chunks, k := [], 0;
    ghost var first := sender.calls;
    ghost var base := sender.frames;
    ForwardNothing(steps);
    TagNone(id);
    for n := 0 to |steps|
      invariant sender.frames == base + Tag(id, chunks) && k == n
      invariant sender.calls == first + |chunks| && AllSent(sender.script, first, sender.calls)
      invariant Forwarded(chunks, steps, n)
      invariant forall i :: 0 <= i < n ==> steps[i].end == More
    {
      var step := steps[n];
      ForwardStep(chunks, steps, n);
      if |step.data| > 0 {
        var c := Chunk(step.data, false, false);
        var ok := sender.SendFrame(ChunkFrame(id, c));
        TagAppend(id, chunks, c);
        chunks := chunks + [c];
        if !ok {
          k := n + 1;
          assert !sender.script(sender.calls - 1);
          return;
        }
      }
      if step.end != More {
        var c := Chunk([], true, false);
        if step.end != AtEof && !cancelled(n) {
          c := Chunk([], false, true);
        }
        var ok := sender.SendFrame(ChunkFrame(id, c));
        TagAppend(id, chunks, c);
        EndsHere(chunks, steps, n, cancelled, c);
        chunks := chunks + [c];
        return;
      }
      k := n + 1;
    }
  }

  lemma EndsHere(chunks: seq<Chunk>, steps: seq<ReadStep>, k: nat, cancelled: nat -> bool, c: Chunk)
    requires k < |steps| && Forwarded(chunks, steps, k + 1) && steps[k].end != More
    requires c == if steps[k].end == Error && !cancelled(k) then Chunk([], false, true) else Chunk([], true, false)
    ensures EndsAt(chunks + [c], steps, k, cancelled)
  {
    hide Forwarded;
    assert (chunks + [c])[..|chunks|] == chunks;
  }

  lemma TerminalIsNotData(chunks: seq<Chunk>, steps: seq<ReadStep>, k: nat)
    requires chunks != [] && Terminal(chunks[|chunks| - 1])
    ensures !Forwarded(chunks, steps, k)
  {
  }

  function Tag(id: nat, chunks: seq<Chunk>): (r: seq<Frame>)
    ensures |r| == |chunks| && forall i :: 0 <= i < |r| ==> r[i] == ChunkFrame(id, chunks[i])
  {
    seq(|chunks|, i requires 0 <= i < |chunks| => ChunkFrame(id, chunks[i]))
  }

  lemma TagNone(id: nat)
    ensures Tag(id, []) == []
  {
  }

  lemma TagAppend(id: nat, chunks: seq<Chunk>, c: Chunk)
    ensures Tag(id, chunks + [c]) == Tag(id, chunks) + [ChunkFrame(id, c)]
  {
  }

  lemma {:induction false} ChunksOfTag(id: nat, chunks: seq<Chunk>)
    ensures Chunks(id, Tag(id, chunks)) == chunks
    decreases |chunks|
  {
    if chunks != [] {
      assert Tag(id, chunks)[1..] == Tag(id, chunks[1..]);
      ChunksOfTag(id, chunks[1..]);
      assert chunks == [chunks[0]] + chunks[1..];
    }
  }

  lemma PumpedIsDisciplined(chunks: seq<Chunk>, steps: seq<ReadStep>, k: nat, cancelled: nat -> bool)
    requires Pumped(chunks, steps, k, cancelled)
    ensures Disciplined(chunks)
  {
    hide Data, ReadData;
    if EndsAt(chunks, steps, k, cancelled) {
      assert forall i :: 0 <= i < |chunks| - 1 ==> chunks[i] == chunks[..|chunks| - 1][i];
    }
  }

  // ----- Pumping daemon events

  /** What the daemon's error channel yields: it was closed, or it gave no error, the end, or a failure. */
  datatype ErrorKind = ChannelClosed | NoError | EndOfFile | Failure

  datatype EventStep = Message(data: Bytes, encodes: bool) | StreamError(kind: ErrorKind) | ContextDone

  /** The chunk of one event, if it has one. */
  function EventChunk(e: EventStep): seq<Chunk> {
    match e
    case ContextDone => [Chunk([], false, true)]
    case StreamError(kind) => [if kind == Failure then Chunk([], false, true) else Chunk([], true, false)]
    case Message(data, encodes) => if encodes then [Chunk(data, false, false)] else []
  }

  /** The chunks a list of events stands for: unencodable messages are skipped, and the
      end of the stream or of the command is the last chunk. */
  function EventChunks(events: seq<EventStep>): seq<Chunk> {
    if events == [] then []
    else EventChunk(events[0]) + if events[0].Message? then EventChunks(events[1..]) else []
  }

  lemma {:induction false} EventChunksDisciplined(events: seq<EventStep>)
    ensures Disciplined(EventChunks(events))
    decreases |events|
  {
    if events != [] {
      EventChunksDisciplined(events[1..]);
    }
  }

  /** How many messages come before the stream or the command ends. */
  ghost function MessagesFirst(events: seq<EventStep>): (n: nat)
    ensures n <= |events| && (forall i :: 0 <= i < n ==> events[i].Message?) && (n < |events| ==> !events[n].Message?)
  {
    if events == [] || !events[0].Message? then 0 else 1 + MessagesFirst(events[1..])
  }

  /** The encodings of the messages that have one, in order. */
  ghost function Encodings(events: seq<EventStep>): seq<Bytes> {
    if events == [] then []
    else (if events[0].Message? && events[0].encodes then [events[0].data] else []) + Encodings(events[1..])
  }

  ghost function Payloads(chunks: seq<Chunk>): (r: seq<Bytes>)
    ensures |r| == |chunks| && forall i :: 0 <= i < |r| ==> r[i] == chunks[i].data
  {
    seq(|chunks|, i requires 0 <= i < |chunks| => chunks[i].data)
  }

  /** Messages give one chunk for each encoding. */
  lemma {:induction false} MessagesExactly(events: seq<EventStep>)
    requires forall i :: 0 <= i < |events| ==> events[i].Message?
    ensures Payloads(EventChunks(events)) == Encodings(events)
    ensures forall c :: c in EventChunks(events) ==> !Terminal(c)
    decreases |events|
  {
    if events != [] {
      MessagesExactly(events[1..]);
    }
  }

  lemma {:induction false} MessagesThenEnd(events: seq<EventStep>)
    ensures var n := MessagesFirst(events);
      EventChunks(events) == EventChunks(events[..n]) + if n < |events| then EventChunk(events[n]) else []
    decreases |events|
  {
    var n := MessagesFirst(events);
    if n > 0 {
      MessagesThenEnd(events[1..]);
      assert events[..n][1..] == events[1..][..n - 1];
    } else if events != [] {
      assert events[..0] == [];
    }
  }

  /** The chunks carry the encodings of the messages before the end, one each; the end follows,
      clean exactly when the daemon's stream did not fail and the command was not cancelled. */
  lemma EventStreamExactly(events: seq<EventStep>) returns (data: seq<Chunk>)
    ensures (forall c :: c in data ==> !Terminal(c)) && Payloads(data) == Encodings(events[..MessagesFirst(events)])
    ensures var n := MessagesFirst(events);
      EventChunks(events) == data +
        if n == |events| then []
        else if events[n].StreamError? && events[n].kind in {ChannelClosed, NoError, EndOfFile}
        then [Chunk([], true, false)] else [Chunk([], false, true)]
  {
    var n := MessagesFirst(events);
    data := EventChunks(events[..n]);
    MessagesExactly(events[..n]);
    MessagesThenEnd(events);
    hide EventChunks, Payloads, Encodings;
  }

  lemma NextEvent(events: seq<EventStep>, k: nat)
    requires k < |events|
    ensures EventChunks(events[k..])
         == EventChunk(events[k]) + if events[k].Message? then EventChunks(events[k + 1..]) else []
  {
    assert events[k..][0] == events[k] && events[k..][1..] == events[k + 1..];
  }

  lemma EventsBegin(events: seq<EventStep>)
    ensures events[0..] == events && EventChunks(events[|events|..]) == []
  {
  }

  /** Sends those chunks, all of them or up to the first one that cannot be sent. */
  method PumpEvents(sender: Sender, id: nat, events: seq<EventStep>) returns (ghost chunks: seq<Chunk>)
    modifies sender
    ensures sender.frames == old(sender.frames) + Tag(id, chunks)
    ensures sender.calls == old(sender.calls) + |chunks| && StopsAtFailure(sender.script, old(sender.calls), |chunks|)
    ensures chunks <= EventChunks(events)
    ensures AllSent(sender.script, old(sender.calls), sender.calls) ==> chunks == EventChunks(events)
  {
    hide EventChunks, Tag;
    chunks := [];
    ghost var base, first := sender.frames, sender.calls;
    EventsBegin(events);
    TagNone(id);
    for k := 0 to |events|
      invariant sender.frames == base + Tag(id, chunks)
      invariant sender.calls == first + |chunks| && AllSent(sender.script, first, sender.calls)
      invariant chunks + EventChunks(events[k..]) == EventChunks(events)
    {
      NextEvent(events, k);
      var c;
      match events[k] {
        case ContextDone => c := Chunk([], false, true);
        case StreamError(kind) =>
          c := Chunk([], true, false);
          if kind != ChannelClosed && kind != NoError && kind != EndOfFile {
            c := Chunk([], false, true);
          }
        case Message(data, encodes) =>
          if !encodes {
            continue;
          }
          c := Chunk(data, false, false);
      }
      assert EventChunk(events[k]) == [c];
      var ok := sender.SendFrame(ChunkFrame(id, c));
      TagAppend(id, chunks, c);
      chunks := chunks + [c];
      if !events[k].Message? {
        return;
      }
      if !ok {
        assert !sender.script(sender.calls - 1);
        return;
      }
    }
  }

  // ----- Executing a command

  datatype Command =
    | Unary(ok: bool)
    | OpenFails
    | Pump(steps: seq<ReadStep>)
    | EventStream(events: seq<EventStep>)

  lemma PrefixIsDisciplined(a: seq<Chunk>, b: seq<Chunk>)
    requires a <= b && Disciplined(b)
    ensures Disciplined(a)
  {
  }

  lemma ReplyIsWellFormed(id: nat, chunks: seq<Chunk>, streaming: bool, ok: bool, frames: seq<Frame>)
    requires Disciplined(chunks) && frames == [ResultFrame(id, ok)] + Tag(id, chunks)
    requires chunks != [] ==> streaming && ok
    ensures WellFormedReply(id, streaming, frames) && Chunks(id, frames[1..]) == chunks
  {
    hide Chunks;
    assert frames[1..] == Tag(id, chunks);
    ChunksOfTag(id, chunks);
  }

  /** Everything the command had to answer. */
  ghost predicate WholeReply(cmd: Command, chunks: seq<Chunk>, k: nat, cancelled: nat -> bool) {
    match cmd
    case Pump(steps) => PumpedAll(chunks, steps, k, cancelled)
    case EventStream(events) => chunks == EventChunks(events)
    case _ => chunks == []
  }

  /** Runs one command.  Whatever fails on the way, the frames handed to the channel are a
      well-formed reply; sending stops at the first failure, and without one the reply is
      whole. */
  method Execute(sender: Sender, id: nat, cmd: Command, cancelled: nat -> bool)
    returns (ghost chunks: seq<Chunk>, ghost k: nat)
    requires sender.frames == []
    requires cmd.Pump? ==> forall i :: 0 <= i < |cmd.steps| ==> |cmd.steps[i].data| <= CHUNK_SIZE
    modifies sender
    ensures sender.frames != [] && WellFormedReply(id, cmd.Pump? || cmd.EventStream?, sender.frames)
    ensures chunks == Chunks(id, sender.frames[1..])
    ensures sender.frames[0] == ResultFrame(id, if cmd.Unary? then cmd.ok else !cmd.OpenFails?)
    ensures cmd.Pump? ==> Pumped(chunks, cmd.steps, k, cancelled)
    ensures cmd.EventStream? ==> chunks <= EventChunks(cmd.events)
    ensures sender.calls == old(sender.calls) + |sender.frames|
    ensures StopsAtFailure(sender.script, old(sender.calls), |sender.frames|)
    ensures AllSent(sender.script, old(sender.calls), sender.calls) ==> WholeReply(cmd, chunks, k, cancelled)
  {
    hide Pumped, PumpedAll, Chunks, Forwarded, EventChunks, WellFormedReply, AllSent, StopsAtFailure;
    chunks, k := [], 0;
    var ok;
    ghost var first := sender.calls;
    match cmd {
      case Unary(success) =>
        ok := sender.SendFrame(ResultFrame(id, success));
      case OpenFails =>
        ok := sender.SendFrame(ResultFrame(id, false));
      case Pump(steps) =>
        ok := sender.SendFrame(ResultFrame(id, true));
        PumpNothing(steps, cancelled);
        if ok {
          chunks, k := PumpReader(sender, id, steps, cancelled);
        }
        PumpedIsDisciplined(chunks, steps, k, cancelled);
      case EventStream(events) =>
        ok := sender.SendFrame(ResultFrame(id, true));
        EventChunksDisciplined(events);
        if ok {
          chunks := PumpEvents(sender, id, events);
        }
        PrefixIsDisciplined(chunks, EventChunks(events));
    }
    SentAfter(sender.script, first, |chunks|);
    ReplyIsWellFormed(id, chunks, cmd.Pump? || cmd.EventStream?, sender.frames[0].ok, sender.frames);
  }

  lemma PumpNothing(steps: seq<ReadStep>, cancelled: nat -> bool)
    ensures Pumped([], steps, 0, cancelled)
  {
    ForwardNothing(steps);
  }

  // ----- Writing input

  /** `Attached.Write`: the input cut into chunks, as far as the channel lasts. */
  method AttachedWrite(sender: Sender, id: nat, p: Bytes) returns (total: nat, ok: bool, ghost chunks: seq<Chunk>)
    modifies sender
    ensures sender.frames == old(sender.frames) + Tag(id, chunks)
    ensures DataChunks(chunks)
    ensures sender.calls == old(sender.calls) + |chunks| && StopsAtFailure(sender.script, old(sender.calls), |chunks|)
    ensures ok <==> AllSent(sender.script, old(sender.calls), sender.calls)
    ensures ok ==> total == |p| && Data(chunks) == p
    ensures !ok ==> chunks != [] && Data(chunks) <= p && total + |chunks[|chunks| - 1].data| == |Data(chunks)|
  {
    hide Data, Tag, DataChunks, AllSent, StopsAtFailure;
    total, chunks := 0, [];
    var rest := p;
    ghost var first := sender.calls;
    NothingWritten(p);
    TagNone(id);
    NoneSent(sender.script, first);
    while |rest| > 0
      invariant sender.frames == old(sender.frames) + Tag(id, chunks)
      invariant sender.calls == first + |chunks| && AllSent(sender.script, first, sender.calls)
      invariant StopsAtFailure(sender.script, first, |chunks|)
      invariant DataChunks(chunks) && Data(chunks) + rest == p && total == |Data(chunks)|
      decreases |rest|
    {
      var n := if |rest| < CHUNK_SIZE then |rest| else CHUNK_SIZE;
      var c := Chunk(rest[..n], false, false);
      SentOneMore(sender.script, first, |chunks|);
      ok := sender.SendFrame(ChunkFrame(id, c));
      WroteOneMore(chunks, rest, n, p);
      TagAppend(id, chunks, c);
      chunks := chunks + [c];
      if !ok {
        return;
      }
      total := total + n;
      rest := rest[n..];
    }
    ok := true;
  }

  lemma NoneSent(script: nat -> bool, first: nat)
    ensures AllSent(script, first, first) && StopsAtFailure(script, first, 0)
  {
  }

  lemma SentOneMore(script: nat -> bool, first: nat, n: nat)
    requires AllSent(script, first, first + n)
    ensures StopsAtFailure(script, first, n + 1) && (AllSent(script, first, first + n + 1) <==> script(first + n))
  {
  }

  lemma NothingWritten(p: Bytes)
    ensures DataChunks([]) && Data([]) + p == p && |Data([])| == 0
  {
  }

  lemma WroteOneMore(chunks: seq<Chunk>, rest: Bytes, n: nat, p: Bytes)
    requires DataChunks(chunks) && Data(chunks) + rest == p && 1 <= n <= CHUNK_SIZE && n <= |rest|
    ensures var after := chunks + [Chunk(rest[..n], false, false)];
      && DataChunks(after) && Data(after) + rest[n..] == p && Data(after) <= p
      && |Data(after)| == |Data(chunks)| + n
  {
    hide Data;
    DataAppend(chunks, Chunk(rest[..n], false, false));
    assert rest == rest[..n] + rest[n..];
  }

  // ----- End to end

  /** A stream read to its clean end over the shared channel is the pumped source up to
      the read that ended it, and that read was the end of the source unless the command
      had been cancelled. */
  lemma StreamEndToEnd(states: seq<Mux>, actions: seq<MuxAction>, i: nat, id: nat,
                       chunks: seq<Chunk>, steps: seq<ReadStep>, k: nat, cancelled: nat -> bool)
    requires IsMuxRun(states, actions) && i < |states| && id in states[i].calls
    requires var e := states[i].calls[id].end; e.buf == [] && e.end == Eof
    requires Pumped(chunks, steps, k, cancelled) && Chunks(id, states[i].sent) <= chunks
    ensures k < |steps| && steps[k].end != More && (steps[k].end == AtEof || cancelled(k))
    ensures states[i].calls[id].end.returned == ReadData(steps[..k + 1])
  {
    hide Chunks, IsMuxRun, ReadData, Data, Pumped, Disciplined;
    CleanEofOnChannel(states, actions, i, id);
    PumpedIsDisciplined(chunks, steps, k, cancelled);
    WholePrefix(Chunks(id, states[i].sent), chunks);
    PumpedToEnd(chunks, steps, k, cancelled);
  }

  lemma WholePrefix(sent: seq<Chunk>, chunks: seq<Chunk>)
    requires sent <= chunks && Disciplined(chunks) && sent != [] && Terminal(sent[|sent| - 1])
    ensures sent == chunks
  {
    assert chunks[|sent| - 1] == sent[|sent| - 1];
  }

  lemma {:induction false} PumpedToEnd(chunks: seq<Chunk>, steps: seq<ReadStep>, k: nat, cancelled: nat -> bool)
    requires Pumped(chunks, steps, k, cancelled) && chunks != [] && CleanEnd(chunks[|chunks| - 1])
    ensures k < |steps| && steps[k].end != More && (steps[k].end == AtEof || cancelled(k))
    ensures Data(chunks) == ReadData(steps[..k + 1])
  {
    hide ReadData, Data;
    TerminalIsNotData(chunks, steps, k);
    var last := |chunks| - 1;
    assert chunks == chunks[..last] + [chunks[last]];
    DataAppend(chunks[..last], chunks[last]);
  }

  // ----- What a clean end chunk means

  /** The end mark a pump sends means the end of the source, exactly unless the reader failed
      while the command was cancelled. */
  lemma CleanEndExactly(chunks: seq<Chunk>, steps: seq<ReadStep>, k: nat, cancelled: nat -> bool)
    requires EndsAt(chunks, steps, k, cancelled)
    ensures (CleanEnd(chunks[|chunks| - 1]) <==> steps[k].end == AtEof) <==> !(steps[k].end == Error && cancelled(k))
  {
  }

  const CUT_SHORT: seq<ReadStep> := [ReadStep([1], More), ReadStep([], Error), ReadStep([2], AtEof)]

  /** A read that fails after the command was cancelled: with every send succeeding, the pump
      forwards what came before and ends the stream cleanly. */
  method CancelledPumpEndsCleanly(id: nat) returns (frames: seq<Frame>)
    ensures frames == [ChunkFrame(id, Chunk([1], false, false)), ChunkFrame(id, Chunk([], true, false))]
    ensures CleanEnd(frames[1].c) && CUT_SHORT[1].end == Error
  {
    var sender := new Sender(n => true);
    ghost var chunks, k := PumpReader(sender, id, CUT_SHORT, n => true);
    CutShort(chunks, k);
    frames := sender.frames;
  }

  lemma CutShort(chunks: seq<Chunk>, k: nat)
    requires PumpedAll(chunks, CUT_SHORT, k, n => true)
    ensures chunks == [Chunk([1], false, false), Chunk([], true, false)]
  {
    assert CUT_SHORT[1].end == Error;
    assert EndsAt(chunks, CUT_SHORT, k, n => true);
    var data := chunks[..|chunks| - 1];
    assert k == 1;
    FirstReads();
    OneByte(data);
    assert chunks == data + [chunks[|chunks| - 1]];
  }

  lemma FirstReads()
    ensures ReadData(CUT_SHORT[..2]) == [1]
  {
    ReadAppend(CUT_SHORT, 0);
    ReadAppend(CUT_SHORT, 1);
  }

  lemma {:induction false} ChunksHaveBytes(chunks: seq<Chunk>)
    requires DataChunks(chunks)
    ensures |chunks| <= |Data(chunks)|
    decreases |chunks|
  {
    if chunks != [] {
      assert chunks == [chunks[0]] + chunks[1..];
      ChunksHaveBytes(chunks[1..]);
      DataConcat([chunks[0]], chunks[1..]);
      DataOne(chunks[0]);
    }
  }

  lemma OneByte(chunks: seq<Chunk>)
    requires DataChunks(chunks) && Data(chunks) == [1]
    ensures chunks == [Chunk([1], false, false)]
  {
    ChunksHaveBytes(chunks);
    assert chunks == [chunks[0]];
    DataOne(chunks[0]);
  }
}
