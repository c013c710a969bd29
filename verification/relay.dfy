/**
 * The relay (relay/relay.go): a table of channels keyed by share code. The
 * sender creates a channel, the receiver joins it, and joining starts a pipe
 * between the two connections. A periodic sweep pings both ends of every
 * channel and drops the channels whose ends are gone or that are too old.
 *
 * Time is an input in nanoseconds; the sweep visits the channels in an order
 * that is an input as well, since Go's map iteration order is unspecified.
 */
module Relay {
  import opened Wrappers
  import opened StringTools
  import opened Message
  import opened Transmit
  import opened Pipe
  import GrpcServer

  /** `time.Minute * 30`, in nanoseconds. */
  const ChannelTimeout: int := 30 * 60 * 1000000000

  datatype Channel = Channel(owner: StreamId, visitor: Option<StreamId>, createdAt: int, full: bool, pipe: Option<Pipe>)

  /** The relay registers itself as the only handler of its server. */
  datatype Handler = RelayHandler

  datatype Relay = Relay(server: GrpcServer.Server<Handler>, channels: map<string, Channel>)

  function NewRelay(host: string, port: string): (r: Relay)
    ensures r.channels == map[]
    ensures r.server.address == host && r.server.ports == port
    ensures r.server.handlers == [RelayHandler] && r.server.streams == map[]
  {
    Relay(GrpcServer.AddHandler(GrpcServer.NewPdhGrpcServer(host, port), RelayHandler), map[])
  }

  /** `SendMessage`: the message goes unchanged to the given stream. */
  function SendMessage(stream: StreamId, msg: Message, open: set<StreamId>): (r: SendResult)
    ensures r.attempt == Outgoing(stream, msg)
    ensures r.err.None? <==> stream in open
  {
    StreamSend(stream, msg, open)
  }

  /** A reply without payload; the relay ignores whether it got through. */
  function Reply(to: StreamId, kind: MessageType): Outgoing {
    Outgoing(to, NewMessage(kind, None))
  }

  /** The share code a create or join request carries, as `ParseMessagePayload` reads it. */
  function RequestedCode(c: JsonCodec, msg: Message): (code: string)
    requires msg.messageType == CreateChannel || msg.messageType == JoinChannel
    ensures BytesOfString(code) == (if msg.payload.Some? then msg.payload.value else [])
  {
    ParseMessagePayload(c, Some(msg)).value.value.shareCode.shareCode
  }

  /** The relay after one handled message, and the replies it sent. */
  datatype Handled = Handled(relay: Relay, endpoints: Endpoints, replies: seq<Outgoing>)

  /**
   * The body of `HandleMessage`. `markFull` says whether a successful join
   * marks the channel full: the code as written never does.
   */
  function Handle(c: JsonCodec, r: Relay, ws: Endpoints, caller: StreamId, msg: Message, now: int, markFull: bool): (h: Handled)
    ensures h.relay.channels.Keys == r.channels.Keys
            || (msg.messageType == CreateChannel && h.relay.channels.Keys == r.channels.Keys + {RequestedCode(c, msg)}
                && RequestedCode(c, msg) !in r.channels && h.replies == [Reply(caller, CreateChannelSuccess)])
    ensures msg.messageType == JoinChannel && h.replies == [Reply(caller, JoinChannelSuccess)] ==>
              var code := RequestedCode(c, msg);
              code in r.channels && !r.channels[code].full
              && h.relay.channels == r.channels[code := h.relay.channels[code]]
              && h.relay.channels[code].visitor == Some(caller) && h.relay.channels[code].pipe.Some?
  {
    match msg.messageType
    case CreateChannel =>
      var code := RequestedCode(c, msg);
      if |code| > 0 && code !in r.channels then
        Handled(r.(channels := r.channels[code := Channel(caller, None, now, false, None)]), ws,
                [Reply(caller, CreateChannelSuccess)])
      else Handled(r, ws, [Reply(caller, CreateChannelFailed)])
    case JoinChannel =>
      var code := RequestedCode(c, msg);
      if |code| == 0 then Handled(r, ws, [Reply(caller, JoinChannelFailed)])
      else if code !in r.channels then Handled(r, ws, [Reply(caller, ChannelNotFound)])
      else
        var ch := r.channels[code];
        if ch.full then Handled(r, ws, [Reply(caller, ChannelFull)])
        else
          var started := Start(CreatePipe(ch.owner, caller), ws);
          var joined := ch.(visitor := Some(caller), full := ch.full || markFull, pipe := Some(started.pipe));
          Handled(r.(channels := r.channels[code := joined]), started.endpoints, [Reply(caller, JoinChannelSuccess)])
    case _ => Handled(r, ws, [])
  }

  /**
   * The outcome every request shares, whether or not joins mark the channel
   * full: exactly one reply, to the caller, for a create or join and none for
   * any other kind; the server is untouched, no channel is ever removed, and
   * a create never alters an existing channel.
   */
  lemma HandleShape(c: JsonCodec, r: Relay, ws: Endpoints, caller: StreamId, msg: Message, now: int, markFull: bool)
    ensures var h := Handle(c, r, ws, caller, msg, now, markFull);
            && h.relay.server == r.server
            && r.channels.Keys <= h.relay.channels.Keys
            && (msg.messageType in {CreateChannel, JoinChannel} <==> |h.replies| == 1)
            && (msg.messageType !in {CreateChannel, JoinChannel} ==> h.replies == [] && h == Handled(r, ws, []))
            && (|h.replies| == 1 ==> h.replies[0].to == caller && h.replies[0].msg.payload.None?)
            && (msg.messageType == CreateChannel ==>
                  h.endpoints == ws
                  && forall k :: k in r.channels ==> h.relay.channels[k] == r.channels[k])
  {
  }

  /** `HandleMessage` as written: a join never marks the channel full. */
  function HandleMessageAsWritten(c: JsonCodec, r: Relay, ws: Endpoints, caller: StreamId, msg: Message, now: int): (h: Handled)
    ensures (forall k :: k in r.channels ==> !r.channels[k].full) ==>
              forall k :: k in h.relay.channels ==> !h.relay.channels[k].full
    ensures (forall k :: k in r.channels ==> !r.channels[k].full) ==>
              forall i :: 0 <= i < |h.replies| ==> h.replies[i].msg.messageType != ChannelFull
  {
    Handle(c, r, ws, caller, msg, now, false)
  }

  /**
   * `HandleMessage` as evidently intended: a successful join marks the
   * channel full, so that a later join is answered with ChannelFull.
   */
  function HandleMessage(c: JsonCodec, r: Relay, ws: Endpoints, caller: StreamId, msg: Message, now: int): (h: Handled)
    ensures msg.messageType == CreateChannel ==>
              var code := RequestedCode(c, msg);
              if |code| > 0 && code !in r.channels then
                h.relay.channels == r.channels[code := Channel(caller, None, now, false, None)]
                && h.replies == [Reply(caller, CreateChannelSuccess)]
              else h == Handled(r, ws, [Reply(caller, CreateChannelFailed)])
    ensures msg.messageType == JoinChannel ==>
              var code := RequestedCode(c, msg);
              && (|code| == 0 ==> h == Handled(r, ws, [Reply(caller, JoinChannelFailed)]))
              && (|code| > 0 && code !in r.channels ==> h == Handled(r, ws, [Reply(caller, ChannelNotFound)]))
              && (|code| > 0 && code in r.channels && r.channels[code].full ==>
                    h == Handled(r, ws, [Reply(caller, ChannelFull)]))
              && (|code| > 0 && code in r.channels && !r.channels[code].full ==>
                    var ch := r.channels[code];
                    && h.replies == [Reply(caller, JoinChannelSuccess)]
                    && h.relay.channels.Keys == r.channels.Keys
                    && h.relay.channels[code].owner == ch.owner
                    && h.relay.channels[code].visitor == Some(caller)
                    && h.relay.channels[code].createdAt == ch.createdAt
                    && h.relay.channels[code].full
                    && h.relay.channels[code].pipe == Some(Start(CreatePipe(ch.owner, caller), ws).pipe)
                    && h.endpoints == DivertBoth(CreatePipe(ch.owner, caller), ws, true)
                    && forall k :: k in r.channels && k != code ==> h.relay.channels[k] == r.channels[k])
  {
    Handle(c, r, ws, caller, msg, now, true)
  }

  /** A join request for a share code, as the receiver sends it. */
  function JoinRequest(code: string): Message {
    NewMessage(JoinChannel, Some(BytesOfString(code)))
  }

  /** A create request for a share code, as the sender sends it. */
  function CreateRequest(code: string): Message {
    NewMessage(CreateChannel, Some(BytesOfString(code)))
  }

  lemma RequestedCodeOfRequest(c: JsonCodec, code: string)
    requires IsByteString(code)
    ensures RequestedCode(c, JoinRequest(code)) == code
    ensures RequestedCode(c, CreateRequest(code)) == code
  {
    ShareCodeRoundTrip(c, code, JoinChannel);
    ShareCodeRoundTrip(c, code, CreateChannel);
  }

  /** A create request for a fresh, non-empty code opens a channel owned by the caller. */
  lemma CreateFresh(c: JsonCodec, r: Relay, ws: Endpoints, caller: StreamId, code: string, now: int, markFull: bool)
    requires IsByteString(code) && |code| > 0 && code !in r.channels
    ensures Handle(c, r, ws, caller, CreateRequest(code), now, markFull)
            == Handled(r.(channels := r.channels[code := Channel(caller, None, now, false, None)]), ws,
                       [Reply(caller, CreateChannelSuccess)])
  {
    RequestedCodeOfRequest(c, code);
  }

  /** A join request for a channel that is not full attaches the caller and starts a pipe. */
  lemma JoinOpen(c: JsonCodec, r: Relay, ws: Endpoints, caller: StreamId, code: string, now: int, markFull: bool)
    requires IsByteString(code) && |code| > 0 && code in r.channels && !r.channels[code].full
    ensures var ch := r.channels[code];
            var started := Start(CreatePipe(ch.owner, caller), ws);
            Handle(c, r, ws, caller, JoinRequest(code), now, markFull)
            == Handled(r.(channels := r.channels[code := ch.(visitor := Some(caller), full := markFull,
                                                              pipe := Some(started.pipe))]),
                       started.endpoints, [Reply(caller, JoinChannelSuccess)])
  {
    RequestedCodeOfRequest(c, code);
  }

  /** A join request for a full channel is refused and changes nothing. */
  lemma JoinFull(c: JsonCodec, r: Relay, ws: Endpoints, caller: StreamId, code: string, now: int, markFull: bool)
    requires IsByteString(code) && |code| > 0 && code in r.channels && r.channels[code].full
    ensures Handle(c, r, ws, caller, JoinRequest(code), now, markFull) == Handled(r, ws, [Reply(caller, ChannelFull)])
  {
    RequestedCodeOfRequest(c, code);
  }

  /**
   * The intended session: the owner creates a channel and a visitor joins it.
   * Both get a success reply, both connections are diverted into a running
   * pipe from owner to visitor, and a second visitor is turned away with
   * ChannelFull while the session stays as it was.
   */
  lemma CreateJoinSession(c: JsonCodec, r: Relay, ws: Endpoints, code: string, owner: StreamId,
                          visitor: StreamId, other: StreamId, t0: int, t1: int, t2: int)
    requires IsByteString(code) && |code| > 0 && code !in r.channels
    requires owner in ws && visitor in ws
    ensures var started := Start(CreatePipe(owner, visitor), ws);
            var r1 := r.(channels := r.channels[code := Channel(owner, None, t0, false, None)]);
            var r2 := r.(channels := r.channels[code := Channel(owner, Some(visitor), t0, true, Some(started.pipe))]);
            && HandleMessage(c, r, ws, owner, CreateRequest(code), t0)
               == Handled(r1, ws, [Reply(owner, CreateChannelSuccess)])
            && HandleMessage(c, r1, ws, visitor, JoinRequest(code), t1)
               == Handled(r2, started.endpoints, [Reply(visitor, JoinChannelSuccess)])
            && started.endpoints[owner].writeToCh && started.endpoints[visitor].writeToCh
            && started.pipe.first == owner && started.pipe.second == visitor && started.pipe.loop == Running
            && HandleMessage(c, r2, started.endpoints, other, JoinRequest(code), t2)
               == Handled(r2, started.endpoints, [Reply(other, ChannelFull)])
  {
    CreateFresh(c, r, ws, owner, code, t0, true);
    var r1 := r.(channels := r.channels[code := Channel(owner, None, t0, false, None)]);
    JoinOpen(c, r1, ws, visitor, code, t1, true);
    var started := Start(CreatePipe(owner, visitor), ws);
    var r2 := r.(channels := r.channels[code := Channel(owner, Some(visitor), t0, true, Some(started.pipe))]);
    assert r1.(channels := r1.channels[code := Channel(owner, Some(visitor), t0, true, Some(started.pipe))]) == r2;
    JoinFull(c, r2, started.endpoints, other, code, t2, true);
  }

  /**
   * As written, a second visitor is accepted too: it gets JoinChannelSuccess,
   * replaces the first visitor and gets a new pipe, while the first pipe is
   * no longer reachable from the channel table.
   */
  lemma SecondJoinTakesOver(c: JsonCodec, r: Relay, ws: Endpoints, code: string, owner: StreamId,
                            visitor: StreamId, other: StreamId, t0: int, t1: int, t2: int)
    requires IsByteString(code) && |code| > 0 && code !in r.channels
    ensures var first := Start(CreatePipe(owner, visitor), ws);
            var second := Start(CreatePipe(owner, other), first.endpoints);
            var r1 := r.(channels := r.channels[code := Channel(owner, None, t0, false, None)]);
            var r2 := r.(channels := r.channels[code := Channel(owner, Some(visitor), t0, false, Some(first.pipe))]);
            var r3 := r.(channels := r.channels[code := Channel(owner, Some(other), t0, false, Some(second.pipe))]);
            && HandleMessageAsWritten(c, r, ws, owner, CreateRequest(code), t0)
               == Handled(r1, ws, [Reply(owner, CreateChannelSuccess)])
            && HandleMessageAsWritten(c, r1, ws, visitor, JoinRequest(code), t1)
               == Handled(r2, first.endpoints, [Reply(visitor, JoinChannelSuccess)])
            && HandleMessageAsWritten(c, r2, first.endpoints, other, JoinRequest(code), t2)
               == Handled(r3, second.endpoints, [Reply(other, JoinChannelSuccess)])
  {
    CreateFresh(c, r, ws, owner, code, t0, false);
    var r1 := r.(channels := r.channels[code := Channel(owner, None, t0, false, None)]);
    JoinOpen(c, r1, ws, visitor, code, t1, false);
    var first := Start(CreatePipe(owner, visitor), ws);
    var r2 := r.(channels := r.channels[code := Channel(owner, Some(visitor), t0, false, Some(first.pipe))]);
    assert r1.(channels := r1.channels[code := Channel(owner, Some(visitor), t0, false, Some(first.pipe))]) == r2;
    JoinOpen(c, r2, first.endpoints, other, code, t2, false);
    var second := Start(CreatePipe(owner, other), first.endpoints);
    var r3 := r.(channels := r.channels[code := Channel(owner, Some(other), t0, false, Some(second.pipe))]);
    assert r2.(channels := r2.channels[code := Channel(owner, Some(other), t0, false, Some(second.pipe))]) == r3;
  }

  // ---------------------------------------------------------------------------
  // The periodic sweep (`checkChannel`, one tick of the ticker)
  // ---------------------------------------------------------------------------

  const PingMessage: Message := NewMessage(Ping, None)

  /** Both ends of the channel still accept a send. */
  predicate EndsOpen(ch: Channel, open: set<StreamId>) {
    ch.owner in open && (ch.visitor.None? || ch.visitor.value in open)
  }

  /** The channel has outlived `ChannelTimeout`. */
  predicate Expired(ch: Channel, now: int) {
    now - ch.createdAt > ChannelTimeout
  }

  /** The channels a sweep is meant to keep. */
  predicate Keep(ch: Channel, now: int, open: set<StreamId>) {
    EndsOpen(ch, open) && !Expired(ch, now)
  }

  /** `Stop` on the channel's pipe returns (it is absent, or its quit channel can take the value). */
  predicate Stoppable(ch: Channel) {
    ch.pipe.Some? ==> Stop(ch.pipe.value, map[]).Stopped?
  }

  /** The outcome of a sweep: finished, panicked on a nil pipe, or blocked forever in `Stop`. */
  datatype Tick =
    | Swept(channels: map<string, Channel>, endpoints: Endpoints, sent: seq<Outgoing>)
    | Crashed(sent: seq<Outgoing>)
    | Hung(sent: seq<Outgoing>)

  /** Stops the pipe if there is one; `None` when `Stop` blocks. */
  function StopPipe(pipe: Option<Pipe>, ws: Endpoints): (r: (Option<Endpoints>, seq<Outgoing>))
    ensures pipe.None? ==> r == (Some(ws), [])
    ensures pipe.Some? ==> r.1 == NotifyBoth(pipe.value)
                           && (r.0.Some? <==> Stop(pipe.value, ws).Stopped?)
    ensures r.0.Some? ==> r.0.value.Keys == ws.Keys
  {
    match pipe
    case None => (Some(ws), [])
    case Some(p) =>
      match Stop(p, ws)
      case Stopped(st, sent) => (Some(st.endpoints), sent)
      case Blocked(sent) => (None, sent)
  }

  /** Drops a channel after stopping its pipe (if any). */
  function Drop(chs: map<string, Channel>, ws: Endpoints, key: string, sent: seq<Outgoing>): Tick
    requires key in chs
  {
    var (ws', stopSent) := StopPipe(chs[key].pipe, ws);
    if ws'.Some? then Swept(chs - {key}, ws'.value, sent + stopSent) else Hung(sent + stopSent)
  }

  /**
   * One channel of the sweep. `guardNil` says whether the age branch checks
   * for a missing pipe: the code as written does not, and panics.
   */
  function Visit(chs: map<string, Channel>, ws: Endpoints, key: string, now: int, open: set<StreamId>, guardNil: bool): (t: Tick)
    requires key in chs
    ensures t.Swept? ==> t.channels == (if Keep(chs[key], now, open) then chs else chs - {key})
    ensures t.Crashed? <==> !guardNil && chs[key].pipe.None? && EndsOpen(chs[key], open) && Expired(chs[key], now)
    ensures t.Hung? ==> chs[key].pipe.Some? && !Keep(chs[key], now, open)
    ensures |t.sent| > 0 && t.sent[0] == Outgoing(chs[key].owner, PingMessage)
  {
    var ch := chs[key];
    var ping := [Outgoing(ch.owner, PingMessage)];
    if ch.owner !in open then Drop(chs, ws, key, ping)
    else
      var pings := ping + (if ch.visitor.Some? then [Outgoing(ch.visitor.value, PingMessage)] else []);
      if ch.visitor.Some? && ch.visitor.value !in open then Drop(chs, ws, key, pings)
      else if Expired(ch, now) then
        if ch.pipe.None? && !guardNil then Crashed(pings) else Drop(chs, ws, key, pings)
      else Swept(chs, ws, pings)
  }

  /** No key is listed twice. */
  predicate Distinct(order: seq<string>) {
    forall i, j :: 0 <= i < j < |order| ==> order[i] != order[j]
  }

  /** The sweep over the keys in visiting order. */
  function SweepKeys(chs: map<string, Channel>, ws: Endpoints, order: seq<string>, now: int,
                     open: set<StreamId>, guardNil: bool): (t: Tick)
    requires Distinct(order) && forall i :: 0 <= i < |order| ==> order[i] in chs
    ensures t.Swept? ==> t.channels.Keys <= chs.Keys && t.endpoints.Keys == ws.Keys
    decreases |order|
  {
    if order == [] then Swept(chs, ws, [])
    else
      match Visit(chs, ws, order[0], now, open, guardNil)
      case Swept(chs', ws', sent) =>
        assert forall i :: 0 <= i < |order[1..]| ==> order[1..][i] in chs' by {
          forall i | 0 <= i < |order[1..]| ensures order[1..][i] in chs' {
            assert order[1..][i] == order[i + 1] != order[0];
          }
        }
        var rest := SweepKeys(chs', ws', order[1..], now, open, guardNil);
        (match rest
         case Swept(c, w, s) => Swept(c, w, sent + s)
         case Crashed(s) => Crashed(sent + s)
         case Hung(s) => Hung(sent + s))
      case Crashed(sent) => Crashed(sent)
      case Hung(sent) => Hung(sent)
  }

  /** `checkChannel` as written: one tick, with no check for a missing pipe on the age branch. */
  function SweepAsWritten(r: Relay, ws: Endpoints, order: seq<string>, now: int, open: set<StreamId>): (t: Tick)
    requires Distinct(order) && (forall i :: 0 <= i < |order| ==> order[i] in r.channels)
    requires forall k :: k in r.channels ==> k in order
    ensures t.Swept? ==> t.channels.Keys <= r.channels.Keys
  {
    SweepKeys(r.channels, ws, order, now, open, false)
  }

  /**
   * A channel that was created but never joined, whose owner still answers,
   * makes the sweep panic once it is older than 30 minutes.
   */
  lemma SweepAsWrittenCrashes(r: Relay, ws: Endpoints, code: string, owner: StreamId, createdAt: int, now: int)
    requires r.channels == map[code := Channel(owner, None, createdAt, false, None)]
    requires now - createdAt > ChannelTimeout
    ensures SweepAsWritten(r, ws, [code], now, {owner}) == Crashed([Outgoing(owner, PingMessage)])
  {
  }

  /** `checkChannel` as evidently intended: on the age branch the pipe is stopped only if there is one. */
  function Sweep(r: Relay, ws: Endpoints, order: seq<string>, now: int, open: set<StreamId>): (t: Tick)
    requires Distinct(order) && (forall i :: 0 <= i < |order| ==> order[i] in r.channels)
    requires forall k :: k in r.channels ==> k in order
    ensures !t.Crashed?
    ensures (forall k :: k in r.channels ==> Stoppable(r.channels[k])) ==>
              t.Swept? && t.channels == map k | k in r.channels && Keep(r.channels[k], now, open) :: r.channels[k]
  {
    SweepNeverCrashes(r.channels, ws, order, now, open);
    SweepFiltersAll(r.channels, ws, order, now, open);
    SweepKeys(r.channels, ws, order, now, open, true)
  }

  /** With every key visited, the kept channels are exactly those satisfying `Keep`. */
  lemma SweepFiltersAll(chs: map<string, Channel>, ws: Endpoints, order: seq<string>, now: int, open: set<StreamId>)
    requires Distinct(order) && (forall i :: 0 <= i < |order| ==> order[i] in chs)
    requires forall k :: k in chs ==> k in order
    ensures (forall k :: k in chs ==> Stoppable(chs[k])) ==>
              var t := SweepKeys(chs, ws, order, now, open, true);
              t.Swept? && t.channels == map k | k in chs && Keep(chs[k], now, open) :: chs[k]
  {
    if forall k :: k in chs ==> Stoppable(chs[k]) {
      SweepKeepsLive(chs, ws, order, now, open);
      assert Survivors(chs, order, now, open) == (map k | k in chs && Keep(chs[k], now, open) :: chs[k]);
    }
  }

  lemma {:induction false} SweepNeverCrashes(chs: map<string, Channel>, ws: Endpoints, order: seq<string>,
                                             now: int, open: set<StreamId>)
    requires Distinct(order) && forall i :: 0 <= i < |order| ==> order[i] in chs
    ensures !SweepKeys(chs, ws, order, now, open, true).Crashed?
    decreases |order|
  {
    if order != [] {
      match Visit(chs, ws, order[0], now, open, true)
      case Swept(chs', ws', sent) =>
        assert forall i :: 0 <= i < |order[1..]| ==> order[1..][i] in chs' by {
          forall i | 0 <= i < |order[1..]| ensures order[1..][i] in chs' {
            assert order[1..][i] == order[i + 1] != order[0];
          }
        }
        SweepNeverCrashes(chs', ws', order[1..], now, open);
      case Crashed(_) =>
      case Hung(_) =>
    }
  }

  /** The channels a sweep over `order` leaves: the unvisited ones and the visited ones that `Keep` holds for. */
  function Survivors(chs: map<string, Channel>, order: seq<string>, now: int, open: set<StreamId>): map<string, Channel> {
    map k | k in chs && (k !in order || Keep(chs[k], now, open)) :: chs[k]
  }

  /** A visit with every pipe stoppable keeps the channel exactly when `Keep` holds. */
  lemma VisitKeeps(chs: map<string, Channel>, ws: Endpoints, key: string, now: int, open: set<StreamId>)
    requires key in chs && Stoppable(chs[key])
    ensures var t := Visit(chs, ws, key, now, open, true);
            && t.Swept?
            && t.channels == (if Keep(chs[key], now, open) then chs else chs - {key})
  {
  }

  /**
   * When every pipe can be stopped, the corrected sweep finishes and keeps
   * exactly the channels it has not visited and the visited ones whose ends
   * both answer and that are younger than the timeout, unchanged.
   */
  lemma {:induction false} SweepKeepsLive(chs: map<string, Channel>, ws: Endpoints, order: seq<string>,
                                          now: int, open: set<StreamId>)
    requires Distinct(order) && forall i :: 0 <= i < |order| ==> order[i] in chs
    requires forall k :: k in chs ==> Stoppable(chs[k])
    ensures var t := SweepKeys(chs, ws, order, now, open, true);
            t.Swept? && t.channels == Survivors(chs, order, now, open)
    decreases |order|
  {
    if order == [] {
      assert Survivors(chs, order, now, open) == chs;
    } else {
      var key := order[0];
      VisitKeeps(chs, ws, key, now, open);
      var v := Visit(chs, ws, key, now, open, true);
      var chs' := v.channels;
      assert forall i :: 0 <= i < |order[1..]| ==> order[1..][i] in chs' by {
        forall i | 0 <= i < |order[1..]| ensures order[1..][i] in chs' {
          assert order[1..][i] == order[i + 1] != order[0];
        }
      }
      SweepKeepsLive(chs', v.endpoints, order[1..], now, open);
      assert key !in order[1..] by {
        forall i | 0 <= i < |order[1..]| ensures order[1..][i] != key {
          assert order[1..][i] == order[i + 1];
        }
      }
      var lhs := Survivors(chs', order[1..], now, open);
      var rhs := Survivors(chs, order, now, open);
      assert forall k :: k in order <==> k == key || k in order[1..] by {
        assert order == [key] + order[1..];
      }
      assert lhs.Keys == rhs.Keys;
      assert lhs == rhs;
    }
  }

  /**
   * The code as written and the corrected sweep agree on every tick in
   * which the written one does not panic.
   */
  lemma {:induction false} SweepAgreesUnlessCrash(chs: map<string, Channel>, ws: Endpoints, order: seq<string>,
                                                  now: int, open: set<StreamId>)
    requires Distinct(order) && forall i :: 0 <= i < |order| ==> order[i] in chs
    ensures var t := SweepKeys(chs, ws, order, now, open, false);
            t.Crashed? || t == SweepKeys(chs, ws, order, now, open, true)
    decreases |order|
  {
    if order != [] {
      var v := Visit(chs, ws, order[0], now, open, false);
      if !v.Crashed? {
        assert v == Visit(chs, ws, order[0], now, open, true);
        if v.Swept? {
          assert forall i :: 0 <= i < |order[1..]| ==> order[1..][i] in v.channels by {
            forall i | 0 <= i < |order[1..]| ensures order[1..][i] in v.channels {
              assert order[1..][i] == order[i + 1] != order[0];
            }
          }
          SweepAgreesUnlessCrash(v.channels, v.endpoints, order[1..], now, open);
        }
      }
    }
  }
}
