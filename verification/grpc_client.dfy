/**
 * The client-side transport (transmit/client/grpc_client.go): the handler
 * list, the dispatch of inbound messages to every handler, and `Send` with
 * its restart attempt when the connection is missing.
 */
module GrpcClient {
  import opened Wrappers
  import opened Message
  import opened Transmit

  /** `GrpcClient`: whether a service client exists, and the current stream if any. */
  datatype Client<H> = Client(target: string, handlers: seq<H>, hasClient: bool, stream: Option<StreamId>)

  function NewPdhGrpcClient<H>(target: string): (c: Client<H>)
    ensures c.target == target && c.handlers == []
    ensures !c.hasClient && c.stream.None?
  {
    Client(target, [], false, None)
  }

  /** `AddHandler`: the handler goes to the end of the list; nothing else changes. */
  function AddHandler<H>(c: Client<H>, h: H): (c': Client<H>)
    ensures |c'.handlers| == |c.handlers| + 1
    ensures c'.handlers[..|c.handlers|] == c.handlers && c'.handlers[|c.handlers|] == h
    ensures c'.target == c.target && c'.hasClient == c.hasClient && c'.stream == c.stream
  {
    c.(handlers := AppendHandler(c.handlers, h))
  }

  /** `RemoveHandler`: only the first equal handler goes, the others keep their order. */
  function RemoveHandler<H(==)>(c: Client<H>, h: H): (c': Client<H>)
    ensures h !in c.handlers ==> c' == c
    ensures h in c.handlers ==>
              var i := FirstIndex(c.handlers, h);
              c'.handlers == c.handlers[..i] + c.handlers[i + 1..]
    ensures c'.target == c.target && c'.hasClient == c.hasClient && c'.stream == c.stream
  {
    c.(handlers := RemoveFirst(c.handlers, h))
  }

  /** `dispatchMessage`: every handler, in list order, gets the same message and stream wrapper. */
  function DispatchMessage<H>(c: Client<H>, stream: StreamId, msg: Message): (calls: seq<HandlerCall<H>>)
    ensures |calls| == |c.handlers|
    ensures forall i :: 0 <= i < |c.handlers| ==>
              calls[i].handler == c.handlers[i] && calls[i].msg == msg
              && calls[i].stream == NewClientStreamWrapper(stream).stream
  {
    CallAll(c.handlers, NewClientStreamWrapper(stream).stream, msg)
  }

  /** How an attempt to (re)connect went: dialling failed, opening the stream failed, or a new stream. */
  datatype StartOutcome = DialFailed | TransmitFailed | Started(stream: StreamId)

  /** The effect of `Start` on the client's fields. */
  function Restart<H>(c: Client<H>, outcome: StartOutcome): (r: Client<H>)
    ensures r.target == c.target && r.handlers == c.handlers
    ensures r.hasClient <==> c.hasClient || !outcome.DialFailed?
    ensures r.stream == if outcome.Started? then Some(outcome.stream) else c.stream
  {
    match outcome
    case DialFailed => c
    case TransmitFailed => c.(hasClient := true)
    case Started(s) => c.(hasClient := true, stream := Some(s))
  }

  datatype ClientSendResult<H> = ClientSendResult(client: Client<H>, attempt: Option<Outgoing>, err: Option<string>)

  const StreamNilError: string := "stream is nil"

  /**
   * `GrpcClient.Send`: when the stream or the service client is missing a
   * restart is attempted (its error ignored); then the message goes to the
   * stream if there is one, and "stream is nil" is returned otherwise.
   */
  function Send<H>(c: Client<H>, msg: Message, restart: StartOutcome, open: set<StreamId>): (r: ClientSendResult<H>)
    ensures c.stream.Some? && c.hasClient ==>
              r.client == c && r.attempt == Some(Outgoing(c.stream.value, msg))
    ensures c.stream.None? || !c.hasClient ==> r.client == Restart(c, restart)
    ensures r.client.stream.None? ==> r.attempt.None? && r.err == Some(StreamNilError)
    ensures r.client.stream.Some? ==>
              r.attempt == Some(Outgoing(r.client.stream.value, msg))
              && (r.err.None? <==> r.client.stream.value in open)
    ensures r.client.handlers == c.handlers && r.client.target == c.target
  {
    var c1 := if c.stream.None? || !c.hasClient then Restart(c, restart) else c;
    match c1.stream
    case None => ClientSendResult(c1, None, Some(StreamNilError))
    case Some(s) =>
      var sent := ClientSend(NewClientStreamWrapper(s), msg, open);
      ClientSendResult(c1, Some(sent.attempt), sent.err)
  }

  /**
   * A client without a connection reconnects on its first send, and the
   * message goes out on the new stream; the next send reuses that stream,
   * whatever a restart would do, and leaves the client as it is.
   */
  lemma SendRestartsThenReuses<H>(c: Client<H>, m1: Message, m2: Message, s: StreamId,
                                  restart2: StartOutcome, open: set<StreamId>)
    requires c.stream.None? || !c.hasClient
    ensures var r1 := Send(c, m1, Started(s), open);
            && r1.client == c.(hasClient := true, stream := Some(s))
            && r1.attempt == Some(Outgoing(s, m1)) && (r1.err.None? <==> s in open)
            && var r2 := Send(r1.client, m2, restart2, open);
               r2.client == r1.client && r2.attempt == Some(Outgoing(s, m2)) && (r2.err.None? <==> s in open)
  {
  }

  /** A client that never connected and cannot reconnect reports "stream is nil" and sends nothing. */
  lemma SendWithoutStream<H>(target: string, msg: Message, restart: StartOutcome, open: set<StreamId>)
    requires !restart.Started?
    ensures var r := Send(NewPdhGrpcClient<H>(target), msg, restart, open);
            r.err == Some(StreamNilError) && r.attempt.None? && r.client.stream.None?
  {
  }
}
