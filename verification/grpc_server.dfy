/**
 * The server-side transport (transmit/server/grpc_server.go): the handler
 * list, the registry of accepted streams, and the dispatch of each inbound
 * message either to the stream's diversion queue or to every handler.
 */
module GrpcServer {
  import opened Wrappers
  import opened Message
  import opened Transmit

  /** `GrpcServer`; the registry maps each generated key to its connection. */
  datatype Server<H> = Server(address: string, ports: string, handlers: seq<H>, streams: map<string, StreamId>)

  function NewPdhGrpcServer<H>(address: string, ports: string): (s: Server<H>)
    ensures s.address == address && s.ports == ports
    ensures s.handlers == [] && s.streams == map[]
  {
    Server(address, ports, [], map[])
  }

  /** `AddHandler`: the handler goes to the end of the list; nothing else changes. */
  function AddHandler<H>(s: Server<H>, h: H): (s': Server<H>)
    ensures |s'.handlers| == |s.handlers| + 1
    ensures s'.handlers[..|s.handlers|] == s.handlers && s'.handlers[|s.handlers|] == h
    ensures s'.streams == s.streams && s'.address == s.address && s'.ports == s.ports
  {
    s.(handlers := AppendHandler(s.handlers, h))
  }

  /**
   * `RemoveHandler`: only the first handler equal to `h` goes, the others keep
   * their order; an absent handler leaves the server unchanged.
   */
  function RemoveHandler<H(==)>(s: Server<H>, h: H): (s': Server<H>)
    ensures h !in s.handlers ==> s' == s
    ensures h in s.handlers ==>
              var i := FirstIndex(s.handlers, h);
              s'.handlers == s.handlers[..i] + s.handlers[i + 1..]
    ensures s'.streams == s.streams && s'.address == s.address && s'.ports == s.ports
  {
    s.(handlers := RemoveFirst(s.handlers, h))
  }

  /**
   * The start of `Transmit`: a fresh wrapper for the accepted stream, with
   * diversion off and an empty queue, registered under the generated key.
   */
  function Register<H>(s: Server<H>, ws: Endpoints, key: string, stream: StreamId): (r: (Server<H>, Endpoints))
    ensures r.0.streams == s.streams[key := stream]
    ensures r.0.handlers == s.handlers
    ensures stream in r.1 && r.1[stream] == NewServerStreamWrapper(stream)
    ensures forall id :: id in ws && id != stream ==> id in r.1 && r.1[id] == ws[id]
    ensures r.1.Keys == ws.Keys + {stream}
  {
    (s.(streams := s.streams[key := stream]), ws[stream := NewServerStreamWrapper(stream)])
  }

  /** The end of `Transmit`: once receiving fails, the key is removed from the registry. */
  function Unregister<H>(s: Server<H>, key: string): (s': Server<H>)
    ensures key !in s'.streams
    ensures forall k :: k in s.streams && k != key ==> k in s'.streams && s'.streams[k] == s.streams[k]
    ensures s'.streams.Keys == s.streams.Keys - {key}
    ensures s'.handlers == s.handlers
  {
    s.(streams := s.streams - {key})
  }

  /** A connection's registration lasts exactly as long as its receive loop. */
  lemma TransmitLifecycle<H>(s: Server<H>, ws: Endpoints, key: string, stream: StreamId)
    requires key !in s.streams
    ensures Unregister(Register(s, ws, key, stream).0, key) == s
  {
    assert (s.streams[key := stream] - {key}) == s.streams;
  }

  /** Where one inbound message went. */
  datatype Dispatched<H> =
    | Queued(endpoints: Endpoints)
    | QueueFull
    | Handled(calls: seq<HandlerCall<H>>)

  /**
   * `dispatchMessage`: with diversion on, the message only joins the wrapper's
   * queue (waiting while the queue is full) and no handler runs; with
   * diversion off, every handler is called in list order with the same
   * wrapper and message.
   */
  function DispatchMessage<H>(s: Server<H>, ws: Endpoints, id: StreamId, msg: Message): (r: Dispatched<H>)
    requires id in ws
    ensures ws[id].writeToCh && |ws[id].ch| < QueueCapacity ==>
              r.Queued? && r.endpoints.Keys == ws.Keys
              && r.endpoints[id] == ws[id].(ch := ws[id].ch + [msg])
              && forall k :: k in ws && k != id ==> r.endpoints[k] == ws[k]
    ensures ws[id].writeToCh && |ws[id].ch| >= QueueCapacity ==> r.QueueFull?
    ensures !ws[id].writeToCh ==>
              r.Handled? && |r.calls| == |s.handlers|
              && forall i :: 0 <= i < |s.handlers| ==> r.calls[i] == HandlerCall(s.handlers[i], id, msg)
  {
    var w := ws[id];
    if w.writeToCh then
      if |w.ch| < QueueCapacity then Queued(ws[id := w.(ch := w.ch + [msg])]) else QueueFull
    else Handled(CallAll(s.handlers, id, msg))
  }

  /** A queued message is the last of the queue, which stays within its capacity. */
  lemma DispatchKeepsQueueBound<H>(s: Server<H>, ws: Endpoints, id: StreamId, msg: Message)
    requires id in ws && EndpointsValid(ws)
    ensures DispatchMessage(s, ws, id, msg).Queued? ==>
              EndpointsValid(DispatchMessage(s, ws, id, msg).endpoints)
  {
  }

  const SendNilError: string := "send error stream is nil"

  /** The outcome of `GrpcServer.Send`: what was attempted and the returned error. */
  datatype ServerSendResult = ServerSendResult(attempt: Option<Outgoing>, err: Option<string>)

  /**
   * `GrpcServer.Send` as written: after a successful send it falls through to
   * the "stream is nil" error, so it never reports success.
   */
  function SendAsWritten(stream: Option<StreamId>, msg: Message, open: set<StreamId>): (r: ServerSendResult)
    ensures stream.Some? ==> r.attempt == Some(Outgoing(stream.value, msg))
    ensures stream.None? ==> r.attempt.None?
    ensures stream.Some? && stream.value !in open ==> r.err == Some(StreamError)
    ensures r.err.Some?
  {
    if stream.Some? then
      var sent := StreamSend(stream.value, msg, open);
      if sent.err.Some? then ServerSendResult(Some(sent.attempt), sent.err)
      else ServerSendResult(Some(sent.attempt), Some(SendNilError))
    else ServerSendResult(None, Some(SendNilError))
  }

  /** Even a send the transport accepted is reported as a failure. */
  lemma SendAsWrittenFailsOnSuccess(id: StreamId, msg: Message)
    ensures SendAsWritten(Some(id), msg, {id}).attempt == Some(Outgoing(id, msg))
    ensures SendAsWritten(Some(id), msg, {id}).err == Some(SendNilError)
  {
  }

  /**
   * `GrpcServer.Send` as evidently intended: nil after a successful send, the
   * transport error after a failed one, "stream is nil" without a stream.
   */
  function Send(stream: Option<StreamId>, msg: Message, open: set<StreamId>): (r: ServerSendResult)
    ensures stream.Some? ==> r.attempt == Some(Outgoing(stream.value, msg))
    ensures stream.None? ==> r.attempt.None? && r.err == Some(SendNilError)
    ensures r.err.None? <==> stream.Some? && stream.value in open
  {
    if stream.Some? then
      var sent := StreamSend(stream.value, msg, open);
      ServerSendResult(Some(sent.attempt), sent.err)
    else ServerSendResult(None, Some(SendNilError))
  }
}
