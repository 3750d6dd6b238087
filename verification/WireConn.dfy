/** The channel's code: the call table, the delivery of frames, and the reader.

    Each method is tied to the steps of `WireStream`; delivering a chunk without
    interruption is the read loop's three steps in a row. */
module WireConn {
  import opened WireStream
  import opened WireMux
  import opened Wrappers

  // ----- What the methods compute

  /** A chunk delivered without the reader interfering. */
  function Delivered(queue: seq<Chunk>, c: Chunk): seq<Chunk> {
    if |queue| < CAPACITY then queue + [c] else queue[1..] + [TOO_SLOW]
  }

  /** The read loop's steps from a chunk in hand until the hand is free. */
  ghost function DeliverSteps(s: Stream): Stream
    requires s.hand.Holding?
  {
    var s1 := Next(s, Push);
    if s1.hand.Free? then s1 else Next(Next(s1, DropOldest), PushError)
  }

  lemma DeliverIsSteps(s: Stream)
    requires s.hand.Holding? && |s.end.queue| <= CAPACITY
    ensures DeliverSteps(s) == s.(hand := Free, end := s.end.(queue := Delivered(s.end.queue, s.hand.c)),
                                  lost := s.lost || |s.end.queue| == CAPACITY)
  {
  }

  /** The reader takes chunks until it has bytes, an end, or nothing left to take. */
  function Drain(e: Endpoint): Endpoint
    decreases |e.queue|
  {
    if e.buf != [] || e.end != Open || e.queue == [] then e else Drain(Receive(e))
  }

  /** `to` follows from `from` by the reader taking `n` chunks. */
  ghost predicate TakesChunks(from: Stream, n: nat, to: Stream)
    decreases n
  {
    if n == 0 then to == from else Enabled(from, ReadChunk) && TakesChunks(Next(from, ReadChunk), n - 1, to)
  }

  lemma {:induction false} DrainIsSteps(s: Stream) returns (n: nat)
    ensures TakesChunks(s, n, s.(end := Drain(s.end)))
    ensures !Enabled(s.(end := Drain(s.end)), ReadChunk)
    decreases |s.end.queue|
  {
    if Enabled(s, ReadChunk) {
      var s' := Next(s, ReadChunk);
      var k := DrainIsSteps(s');
      n := k + 1;
    } else {
      n := 0;
    }
  }

  /** A chunk the caller hears of: it has bytes or ends the stream. */
  ghost predicate Says(c: Chunk) {
    c.data != [] || c.eof || c.broken
  }

  /** How many chunks come before the first the caller hears of. */
  ghost function Quiet(queue: seq<Chunk>): (n: nat)
    ensures n <= |queue| && (forall i :: 0 <= i < n ==> !Says(queue[i])) && (n < |queue| ==> Says(queue[n]))
  {
    if queue == [] || Says(queue[0]) then 0 else 1 + Quiet(queue[1..])
  }

  /** Draining discards the silent chunks and takes the first the caller hears of. */
  lemma {:induction false} DrainExactly(e: Endpoint)
    requires e.buf == [] && e.end == Open
    ensures var n := Quiet(e.queue);
      && (n == |e.queue| ==> Drain(e) == e.(queue := []))
      && (n < |e.queue| ==>
            && Drain(e).queue == e.queue[n + 1..] && Drain(e).buf == e.queue[n].data
            && Drain(e).end == (if e.queue[n].broken then Failed else if e.queue[n].eof then Eof else Open)
            && Drain(e).returned == e.returned)
    decreases |e.queue|
  {
    if e.queue != [] && !Says(e.queue[0]) {
      DrainExactly(Receive(e));
      assert forall n :: 0 <= n <= |e.queue[1..]| ==> e.queue[1..][n..] == e.queue[n + 1..];
    }
  }

  // ----- The objects

  class CallObject {
    const streaming: bool
    var result: Option<bool>
    var queue: seq<Chunk>

    constructor (streaming: bool)
      ensures this.streaming == streaming && result == None && queue == []
    {
      this.streaming, result, queue := streaming, None, [];
    }
  }

  class Conn {
    var nextId: nat
    var calls: map<nat, CallObject>
    /** The ids the peer was told to abort. */
    var cancels: seq<nat>

    ghost predicate Valid()
      reads this, calls.Values
    {
      && (forall id :: id in calls ==> 1 <= id <= nextId && |calls[id].queue| <= CAPACITY)
      && forall i, j :: i in calls && j in calls && i != j ==> calls[i] != calls[j]
    }

    constructor ()
      ensures Valid() && nextId == 0 && calls == map[] && cancels == []
    {
      nextId, calls, cancels := 0, map[], [];
    }

    /** Registers a call under an id that no call has had. */
    method StartCall(streaming: bool) returns (id: nat, call: CallObject)
      requires Valid()
      modifies this
      ensures Valid() && fresh(call) && id == old(nextId) + 1 && nextId == id && id !in old(calls)
      ensures calls == old(calls)[id := call] && cancels == old(cancels)
      ensures call.streaming == streaming && call.result == None && call.queue == []
    {
      call := new CallObject(streaming);
      nextId := nextId + 1;
      id := nextId;
      calls := calls[id := call];
    }

    method Finish(id: nat)
      requires Valid()
      modifies this
      ensures Valid() && calls == old(calls) - {id} && nextId == old(nextId) && cancels == old(cancels)
    {
      calls := calls - {id};
    }

    /** Only the call with this id is touched; the first result wins. */
    method DeliverResult(id: nat, ok: bool)
      requires Valid()
      modifies if id in calls then {calls[id]} else {}
      ensures Valid()
      ensures id in calls ==>
        calls[id].queue == old(calls[id].queue)
        && calls[id].result == if old(calls[id].result).None? then Some(ok) else old(calls[id].result)
    {
      if id in calls {
        var call := calls[id];
        if call.result.None? {
          call.result := Some(ok);
        }
      }
    }

    /** Only the call with this id is touched; a full queue sheds and tells the peer. */
    method DeliverChunk(id: nat, c: Chunk)
      requires Valid()
      modifies `cancels, if id in calls && calls[id].streaming then {calls[id]} else {}
      ensures Valid()
      ensures id in calls && calls[id].streaming ==>
        && calls[id].result == old(calls[id].result)
        && calls[id].queue == Delivered(old(calls[id].queue), c)
        && cancels == old(cancels) + if |old(calls[id].queue)| < CAPACITY then [] else [id]
      ensures !(id in calls && calls[id].streaming) ==> cancels == old(cancels)
    {
      if id !in calls || !calls[id].streaming {
        return;
      }
      var call := calls[id];
      if |call.queue| < CAPACITY {
        call.queue := call.queue + [c];
      } else {
        cancels := cancels + [id];
        if call.queue != [] {
          call.queue := call.queue[1..];
        }
        if |call.queue| < CAPACITY {
          call.queue := call.queue + [TOO_SLOW];
        }
      }
    }
  }

  datatype ReadOutcome = Got(data: Bytes) | Ended(end: End) | WouldBlock

  class StreamReader {
    const call: CallObject
    var buf: Bytes
    var end: End
    ghost var returned: Bytes

    constructor (call: CallObject)
      ensures this.call == call && buf == [] && end == Open && returned == []
    {
      this.call, buf, end, returned := call, [], Open, [];
    }

    ghost function State(): Endpoint
      reads this, call
    {
      Endpoint(call.queue, buf, end, returned)
    }

    /** Up to `size` buffered bytes; else the end, once there is one; else the first queued chunk
        the caller hears of.  It blocks only with nothing buffered, nothing queued and no end. */
    method Read(size: nat) returns (r: ReadOutcome)
      modifies this, call
      ensures call.result == old(call.result)
      ensures returned == old(returned) + if r.Got? then r.data else []
      ensures old(buf) != [] ==>
        r.Got? && r.data + buf == old(buf) && |r.data| == Min(size, |old(buf)|)
        && call.queue == old(call.queue) && end == old(end)
      ensures old(buf) == [] && old(end) != Open ==>
        r == Ended(old(end)) && call.queue == old(call.queue) && buf == [] && end == old(end)
      ensures old(buf) == [] && old(end) == Open ==>
        var n, queue := Quiet(old(call.queue)), old(call.queue);
        if n == |queue| then r == WouldBlock && call.queue == [] && buf == [] && end == Open
        else
          && call.queue == queue[n + 1..]
          && end == (if queue[n].broken then Failed else if queue[n].eof then Eof else Open)
          && if queue[n].data == [] then r == Ended(end) && buf == []
             else r.Got? && r.data + buf == queue[n].data && |r.data| == Min(size, |queue[n].data|)
      ensures var e := Drain(old(State()));
        if e.buf != [] then
          var n := Min(size, |e.buf|);
          r == Got(e.buf[..n]) && State() == HandOver(e, n)
        else if e.end != Open then r == Ended(e.end) && State() == e
        else r == WouldBlock && State() == e
    {
      ghost var before := State();
      if before.buf == [] && before.end == Open {
        DrainExactly(before);
      }
      while buf == [] && end == Open && call.queue != []
        invariant call.result == old(call.result)
        invariant Drain(State()) == Drain(old(State()))
        decreases |call.queue|
      {
        var c := call.queue[0];
        call.queue := call.queue[1..];
        if c.broken {
          end := Failed;
        } else if c.eof {
          end := Eof;
        }
        buf := c.data;
      }
      if |buf| > 0 {
        var n := Min(size, |buf|);
        r := Got(buf[..n]);
        returned := returned + buf[..n];
        buf := buf[n..];
      } else if end != Open {
        r := Ended(end);
      } else {
        r := WouldBlock;
      }
    }
  }
}
