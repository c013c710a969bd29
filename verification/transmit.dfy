/**
 * Stream endpoints (transmit/transmit.go): the server-side wrapper with its
 * diversion flag and bounded queue, the client-side wrapper, and the ordered
 * handler lists both transports keep.
 *
 * Every server-side connection is identified by a `StreamId`; the wrappers of
 * all connections form a store `Endpoints` that the server, the pipe and the
 * relay read and update. Whether a send succeeds is an input: the set of
 * streams that are still open.
 */
module Transmit {
  import opened Wrappers
  import opened Message

  type StreamId = nat

  /** Capacity of the diversion queue `Ch`. */
  const QueueCapacity: nat := 10

  datatype ServerStreamWrapper = ServerStreamWrapper(stream: StreamId, ch: seq<Message>, writeToCh: bool)

  datatype ClientStreamWrapper = ClientStreamWrapper(stream: StreamId)

  /** The wrapper of every server-side connection, by stream. */
  type Endpoints = map<StreamId, ServerStreamWrapper>

  /** Each wrapper sits under its own stream and its queue respects the capacity. */
  ghost predicate EndpointsValid(ws: Endpoints) {
    forall id :: id in ws ==> ws[id].stream == id && |ws[id].ch| <= QueueCapacity
  }

  /** A message handed to the transport for one stream, whether or not it got through. */
  datatype Outgoing = Outgoing(to: StreamId, msg: Message)

  const StreamError: string := "transport: the stream is closed"

  function NewServerStreamWrapper(stream: StreamId): (w: ServerStreamWrapper)
    ensures w.stream == stream && w.ch == [] && !w.writeToCh
  {
    ServerStreamWrapper(stream, [], false)
  }

  function StartWriteToChannel(w: ServerStreamWrapper): (w': ServerStreamWrapper)
    ensures w'.writeToCh
    ensures w'.stream == w.stream && w'.ch == w.ch
  {
    w.(writeToCh := true)
  }

  function StopWriteToChannel(w: ServerStreamWrapper): (w': ServerStreamWrapper)
    ensures !w'.writeToCh
    ensures w'.stream == w.stream && w'.ch == w.ch
  {
    w.(writeToCh := false)
  }

  /**
   * Toggling diversion is idempotent, the last toggle wins, and a start
   * followed by a stop restores a wrapper that was not diverted.
   */
  lemma DiversionToggles(w: ServerStreamWrapper)
    ensures StartWriteToChannel(StartWriteToChannel(w)) == StartWriteToChannel(w)
    ensures StopWriteToChannel(StopWriteToChannel(w)) == StopWriteToChannel(w)
    ensures StopWriteToChannel(StartWriteToChannel(w)) == StopWriteToChannel(w)
    ensures StartWriteToChannel(StopWriteToChannel(w)) == StartWriteToChannel(w)
    ensures !w.writeToCh ==> StopWriteToChannel(StartWriteToChannel(w)) == w
  {
  }

  /** Sets the diversion flag of one wrapper in the store; unknown streams are left alone. */
  function SetDiversion(ws: Endpoints, id: StreamId, on: bool): (ws': Endpoints)
    ensures ws'.Keys == ws.Keys
    ensures id in ws ==> ws'[id].writeToCh == on && ws'[id].stream == ws[id].stream && ws'[id].ch == ws[id].ch
    ensures forall k :: k in ws && k != id ==> ws'[k] == ws[k]
  {
    if id in ws then
      ws[id := if on then StartWriteToChannel(ws[id]) else StopWriteToChannel(ws[id])]
    else ws
  }

  /** The result of one `Send`: what was handed to the transport and the error it returned. */
  datatype SendResult = SendResult(attempt: Outgoing, err: Option<string>)

  /**
   * `Send` on a gRPC stream, which both wrappers forward to unchanged: the
   * message is handed to the stream, and the error is the stream's own.
   */
  function StreamSend(id: StreamId, msg: Message, open: set<StreamId>): (r: SendResult)
    ensures r.attempt == Outgoing(id, msg)
    ensures r.err.None? <==> id in open
    ensures r.err.Some? ==> r.err == Some(StreamError)
  {
    SendResult(Outgoing(id, msg), if id in open then None else Some(StreamError))
  }

  /** `ServerStreamWrapper.Send`: a `StreamSend` on the wrapped stream. */
  function ServerSend(w: ServerStreamWrapper, msg: Message, open: set<StreamId>): SendResult {
    StreamSend(w.stream, msg, open)
  }

  function NewClientStreamWrapper(stream: StreamId): (w: ClientStreamWrapper)
    ensures w.stream == stream
  {
    ClientStreamWrapper(stream)
  }

  /** `ClientStreamWrapper.Send`: a `StreamSend` on the wrapped stream. */
  function ClientSend(w: ClientStreamWrapper, msg: Message, open: set<StreamId>): SendResult {
    StreamSend(w.stream, msg, open)
  }

  // ---------------------------------------------------------------------------
  // Handler lists (shared by the server and the client transport)
  // ---------------------------------------------------------------------------

  /** A handler invocation `handler.HandleMessage(stream, msg)`. */
  datatype HandlerCall<H> = HandlerCall(handler: H, stream: StreamId, msg: Message)

  /** `append(handlers, h)`. */
  function AppendHandler<H>(hs: seq<H>, h: H): (r: seq<H>)
    ensures |r| == |hs| + 1 && r[..|hs|] == hs && r[|hs|] == h
  {
    hs + [h]
  }

  /** The position of the first handler equal to `h`. */
  function FirstIndex<H(==)>(hs: seq<H>, h: H): (i: nat)
    requires h in hs
    ensures i < |hs| && hs[i] == h && h !in hs[..i]
    decreases |hs|
  {
    if hs[0] == h then 0
    else
      var j := FirstIndex(hs[1..], h);
      assert hs[..j + 1] == [hs[0]] + hs[1..][..j];
      j + 1
  }

  /** Removes the first handler equal to `h`, keeping the order of the others. */
  function RemoveFirst<H(==)>(hs: seq<H>, h: H): (r: seq<H>)
    ensures h !in hs ==> r == hs
    ensures h in hs ==> |r| == |hs| - 1
  {
    if h in hs then
      var i := FirstIndex(hs, h);
      hs[..i] + hs[i + 1..]
    else
      hs
  }

  /**
   * Removing a present handler takes exactly one copy of it out and keeps
   * every other handler, in order: the ones before the first copy, then the
   * ones after it.
   */
  lemma RemoveFirstRemovesOne<H>(hs: seq<H>, h: H)
    requires h in hs
    ensures multiset(RemoveFirst(hs, h)) + multiset{h} == multiset(hs)
    ensures var i := FirstIndex(hs, h);
            RemoveFirst(hs, h) == hs[..i] + hs[i + 1..] && h !in hs[..i]
  {
    var i := FirstIndex(hs, h);
    var a, b := hs[..i], hs[i + 1..];
    assert hs == a + [h] + b;
    assert RemoveFirst(hs, h) == a + b;
    assert multiset(hs) == multiset(a) + multiset{h} + multiset(b);
  }

  /** Every handler, in list order, is called with the same stream and message. */
  function CallAll<H>(hs: seq<H>, stream: StreamId, msg: Message): (calls: seq<HandlerCall<H>>)
    ensures |calls| == |hs|
    ensures forall i :: 0 <= i < |hs| ==> calls[i] == HandlerCall(hs[i], stream, msg)
  {
    seq(|hs|, i requires 0 <= i < |hs| => HandlerCall(hs[i], stream, msg))
  }
}
