/**
 * The relay's forwarding pipe (transmit/pipe/pipe.go). A pipe joins two
 * server-side connections: while it runs, both connections are diverted into
 * their queues and a loop moves each queued message to the other side. Its
 * quit channel holds at most one value, modelled as `quitPending`.
 *
 * The loop is a goroutine whose `select` picks any ready case; the model
 * makes that choice an input (`Choice`), and a case that is not ready leaves
 * everything unchanged.
 */
module Pipe {
  import opened Wrappers
  import opened StringTools
  import opened Message
  import opened Transmit

  /**
   * Where the forwarding goroutine is: not started, looping, returned after
   * taking the quit value, or blocked forever on a full quit channel.
   */
  datatype LoopState = Idle | Running | Exited | Stuck

  datatype Pipe = Pipe(first: StreamId, second: StreamId, quitPending: bool, running: bool, loop: LoopState)

  /** A pipe together with the store of connection wrappers it acts on. */
  datatype PipeState = PipeState(pipe: Pipe, endpoints: Endpoints)

  /** What a pipe operation did: the new state and every message it handed to the transport, in order. */
  datatype Effect = Effect(state: PipeState, sent: seq<Outgoing>)

  const CancelMessage: Message := NewMessage(Cancel, None)
  const ClosedText: string := "stream is closed"
  const ClosedMessage: Message := NewMessage(Failed, Some(BytesOfString(ClosedText)))

  function CreatePipe(first: StreamId, second: StreamId): (p: Pipe)
    ensures p.first == first && p.second == second
    ensures !p.quitPending && !p.running && p.loop == Idle
  {
    Pipe(first, second, false, false, Idle)
  }

  /** Diverts or releases both connections of the pipe; queues and other connections are untouched. */
  function DivertBoth(p: Pipe, ws: Endpoints, on: bool): (ws': Endpoints)
    ensures ws'.Keys == ws.Keys
    ensures forall id :: id in ws ==> ws'[id].ch == ws[id].ch && ws'[id].stream == ws[id].stream
    ensures p.first in ws ==> ws'[p.first].writeToCh == on
    ensures p.second in ws ==> ws'[p.second].writeToCh == on
    ensures forall id :: id in ws && id != p.first && id != p.second ==> ws'[id] == ws[id]
  {
    SetDiversion(SetDiversion(ws, p.first, on), p.second, on)
  }

  /** `Start`: marks the pipe running, diverts both connections and launches the loop. */
  function Start(p: Pipe, ws: Endpoints): (r: PipeState)
    ensures r.pipe.running && r.pipe.loop == Running
    ensures r.pipe.first == p.first && r.pipe.second == p.second && r.pipe.quitPending == p.quitPending
    ensures r.endpoints == DivertBoth(p, ws, true)
  {
    PipeState(p.(running := true, loop := Running), DivertBoth(p, ws, true))
  }

  /** `notifyBoth`: a Cancel to the first connection, then to the second; errors are ignored. */
  function NotifyBoth(p: Pipe): (sent: seq<Outgoing>)
    ensures |sent| == 2
    ensures sent[0].to == p.first && sent[1].to == p.second
    ensures sent[0].msg.messageType == Cancel && sent[1].msg.messageType == Cancel
    ensures sent[0].msg.payload.None? && sent[1].msg.payload.None?
  {
    [Outgoing(p.first, CancelMessage), Outgoing(p.second, CancelMessage)]
  }

  /** The rest of `Stop` once the quit value is stored: not running, both connections released. */
  function Release(p: Pipe, ws: Endpoints): (r: PipeState)
    ensures r.pipe == p.(quitPending := true, running := false)
    ensures r.endpoints == DivertBoth(p, ws, false)
  {
    PipeState(p.(quitPending := true, running := false), DivertBoth(p, ws, false))
  }

  /** `Stop` either completes or stays blocked on the full quit channel. */
  datatype StopResult = Stopped(state: PipeState, sent: seq<Outgoing>) | Blocked(sent: seq<Outgoing>)

  /**
   * `Stop`, called from outside the loop. Both sides get a Cancel first. The
   * quit value is then stored if the channel is empty; if one is already
   * pending, the send waits until the running loop takes it (and exits), and
   * blocks forever when no loop is running.
   */
  function Stop(p: Pipe, ws: Endpoints): (r: StopResult)
    ensures r.sent == NotifyBoth(p)
    ensures r.Stopped? <==> !p.quitPending || p.loop == Running
    ensures r.Stopped? ==>
              && r.state.pipe.quitPending && !r.state.pipe.running
              && r.state.pipe.first == p.first && r.state.pipe.second == p.second
              && r.state.endpoints == DivertBoth(p, ws, false)
    ensures r.Stopped? ==> r.state.pipe.loop == (if p.quitPending then Exited else p.loop)
  {
    if !p.quitPending then Stopped(Release(p, ws), NotifyBoth(p))
    else if p.loop == Running then Stopped(Release(p.(loop := Exited), ws), NotifyBoth(p))
    else Blocked(NotifyBoth(p))
  }

  /** The `select` case the loop takes. */
  datatype Choice = TakeQuit | FromFirst | FromSecond

  /** Whether a case of the loop's `select` can proceed. */
  predicate Ready(p: Pipe, ws: Endpoints, c: Choice) {
    p.loop == Running &&
    match c
    case TakeQuit => p.quitPending
    case FromFirst => p.first in ws && |ws[p.first].ch| > 0
    case FromSecond => p.second in ws && |ws[p.second].ch| > 0
  }

  /**
   * One forwarding case: the head of `from`'s queue is sent to `to`. When that
   * send fails, `from` is told the stream is closed and the loop calls `Stop`
   * itself; if a quit value is already pending, that call can never complete
   * since the loop is the only reader of the quit channel.
   */
  function Forward(p: Pipe, ws: Endpoints, from: StreamId, to: StreamId, open: set<StreamId>): (r: Effect)
    requires from in ws && |ws[from].ch| > 0
    ensures var rest := ws[from := ws[from].(ch := ws[from].ch[1..])];
            && |r.sent| > 0 && r.sent[0] == Outgoing(to, ws[from].ch[0])
            && (to in open ==> r.sent == [Outgoing(to, ws[from].ch[0])] && r.state == PipeState(p, rest))
            && (to !in open ==>
                  && r.sent == [Outgoing(to, ws[from].ch[0]), Outgoing(from, ClosedMessage)] + NotifyBoth(p)
                  && (p.quitPending ==> r.state == PipeState(p.(loop := Stuck), rest))
                  && (!p.quitPending ==> r.state == Release(p, rest)))
  {
    var m := ws[from].ch[0];
    var rest := ws[from := ws[from].(ch := ws[from].ch[1..])];
    var sent := StreamSend(to, m, open);
    if sent.err.None? then Effect(PipeState(p, rest), [sent.attempt])
    else
      var failure := [sent.attempt, Outgoing(from, ClosedMessage)] + NotifyBoth(p);
      if p.quitPending then Effect(PipeState(p.(loop := Stuck), rest), failure)
      else Effect(Release(p, rest), failure)
  }

  /** One iteration of the loop; a case that is not ready changes nothing and sends nothing. */
  function Step(p: Pipe, ws: Endpoints, c: Choice, open: set<StreamId>): (r: Effect)
    ensures !Ready(p, ws, c) ==> r == Effect(PipeState(p, ws), [])
    ensures Ready(p, ws, c) && c.TakeQuit? ==>
              r.sent == [] && r.state == PipeState(p.(quitPending := false, loop := Exited), ws)
    ensures r.state.pipe.first == p.first && r.state.pipe.second == p.second
    ensures r.state.endpoints.Keys == ws.Keys
  {
    if !Ready(p, ws, c) then Effect(PipeState(p, ws), [])
    else
      match c
      case TakeQuit => Effect(PipeState(p.(quitPending := false, loop := Exited), ws), [])
      case FromFirst => Forward(p, ws, p.first, p.second, open)
      case FromSecond => Forward(p, ws, p.second, p.first, open)
  }

  /** A run of the loop over a sequence of `select` choices. */
  function Run(p: Pipe, ws: Endpoints, cs: seq<Choice>, open: set<StreamId>): (r: Effect)
    ensures r.state.pipe.first == p.first && r.state.pipe.second == p.second
    ensures r.state.endpoints.Keys == ws.Keys
    decreases |cs|
  {
    if cs == [] then Effect(PipeState(p, ws), [])
    else
      var s := Step(p, ws, cs[0], open);
      var rest := Run(s.state.pipe, s.state.endpoints, cs[1..], open);
      Effect(rest.state, s.sent + rest.sent)
  }

  /** The messages handed to the transport for one connection, in order. */
  function SentTo(out: seq<Outgoing>, id: StreamId): (ms: seq<Message>)
    ensures |ms| <= |out|
  {
    if out == [] then []
    else (if out[0].to == id then [out[0].msg] else []) + SentTo(out[1..], id)
  }

  lemma {:induction false} SentToAppend(a: seq<Outgoing>, b: seq<Outgoing>, id: StreamId)
    ensures SentTo(a + b, id) == SentTo(a, id) + SentTo(b, id)
    decreases |a|
  {
    if a == [] {
      assert a + b == b;
    } else {
      var head := if a[0].to == id then [a[0].msg] else [];
      assert (a + b)[0] == a[0];
      assert (a + b)[1..] == a[1..] + b;
      SentToAppend(a[1..], b, id);
      assert SentTo(a + b, id) == head + SentTo(a[1..] + b, id);
      assert SentTo(a, id) == head + SentTo(a[1..], id);
    }
  }

  /** `SentTo` of a one-message list. */
  lemma SentToSingle(o: Outgoing, id: StreamId)
    ensures SentTo([o], id) == if o.to == id then [o.msg] else []
  {
    assert [o][1..] == [];
  }

  /** `e` is what is left of queue `q` after messages were taken off its front. */
  ghost predicate Remains(e: seq<Message>, q: seq<Message>) {
    |e| <= |q| && e == q[|q| - |e|..]
  }

  /** The part of a queue a run has taken off its front. */
  function Taken(before: seq<Message>, after: seq<Message>): seq<Message>
    requires |after| <= |before|
  {
    before[..|before| - |after|]
  }

  lemma TakenNothing(q: seq<Message>)
    ensures Remains(q, q) && Taken(q, q) == []
  {
  }

  lemma TakenHead(q: seq<Message>, e: seq<Message>)
    requires |q| > 0 && Remains(e, q[1..])
    ensures Remains(e, q) && Taken(q, e) == [q[0]] + Taken(q[1..], e)
  {
    assert q[1..][|q| - 1 - |e|..] == q[|q| - |e|..];
  }

  /**
   * One loop iteration while both connections are open: either nothing moves,
   * or the head of one queue is delivered, unchanged, to the other side.
   */
  lemma StepOpen(p: Pipe, ws: Endpoints, c: Choice, open: set<StreamId>)
    requires p.first != p.second && p.first in ws && p.second in ws
    requires p.first in open && p.second in open
    ensures var s := Step(p, ws, c, open);
            var q1, q2 := ws[p.first].ch, ws[p.second].ch;
            var ws1 := s.state.endpoints;
            && s.state.pipe.running == p.running && s.state.pipe.loop in {p.loop, Exited}
            && ((ws1[p.first].ch == q1 && ws1[p.second].ch == q2 && s.sent == [])
                || (|q1| > 0 && ws1[p.first].ch == q1[1..] && ws1[p.second].ch == q2
                    && s.sent == [Outgoing(p.second, q1[0])])
                || (|q2| > 0 && ws1[p.second].ch == q2[1..] && ws1[p.first].ch == q1
                    && s.sent == [Outgoing(p.first, q2[0])]))
  {
  }

  /**
   * While both connections stay open, the pipe delivers to each side exactly
   * the messages it took from the other side's queue, unchanged and in queue
   * order, and sends nothing else; the queues only lose messages from their
   * fronts, and no Stop happens inside the loop.
   */
  lemma {:induction false} ForwardInOrder(p: Pipe, ws: Endpoints, cs: seq<Choice>, open: set<StreamId>)
    requires p.first != p.second && p.first in ws && p.second in ws
    requires p.first in open && p.second in open
    ensures var r := Run(p, ws, cs, open);
            var q1, q2 := ws[p.first].ch, ws[p.second].ch;
            var e1, e2 := r.state.endpoints[p.first].ch, r.state.endpoints[p.second].ch;
            && Remains(e1, q1) && Remains(e2, q2)
            && SentTo(r.sent, p.second) == Taken(q1, e1)
            && SentTo(r.sent, p.first) == Taken(q2, e2)
            && |r.sent| == |Taken(q1, e1)| + |Taken(q2, e2)|
            && r.state.pipe.running == p.running && r.state.pipe.loop in {p.loop, Exited}
    decreases |cs|
  {
    var q1, q2 := ws[p.first].ch, ws[p.second].ch;
    if cs == [] {
      TakenNothing(q1);
      TakenNothing(q2);
    } else {
      var s := Step(p, ws, cs[0], open);
      var p1, ws1 := s.state.pipe, s.state.endpoints;
      StepOpen(p, ws, cs[0], open);
      ForwardInOrder(p1, ws1, cs[1..], open);
      var rest := Run(p1, ws1, cs[1..], open);
      assert Run(p, ws, cs, open) == Effect(rest.state, s.sent + rest.sent);
      SentToAppend(s.sent, rest.sent, p.first);
      SentToAppend(s.sent, rest.sent, p.second);
      var e1, e2 := rest.state.endpoints[p.first].ch, rest.state.endpoints[p.second].ch;
      if s.sent == [] {
      } else if |q1| > 0 && ws1[p.first].ch == q1[1..] && s.sent == [Outgoing(p.second, q1[0])] {
        SentToSingle(s.sent[0], p.first);
        SentToSingle(s.sent[0], p.second);
        TakenHead(q1, e1);
      } else {
        SentToSingle(s.sent[0], p.first);
        SentToSingle(s.sent[0], p.second);
        TakenHead(q2, e2);
      }
    }
  }

  /** Once the loop has exited or is stuck (or was never started), no run sends or changes anything. */
  lemma {:induction false} StoppedLoopIsInert(p: Pipe, ws: Endpoints, cs: seq<Choice>, open: set<StreamId>)
    requires p.loop != Running
    ensures Run(p, ws, cs, open) == Effect(PipeState(p, ws), [])
    decreases |cs|
  {
    if cs != [] {
      StoppedLoopIsInert(p, ws, cs[1..], open);
    }
  }

  /**
   * A running pipe whose first connection has two queued messages while the
   * second connection is closed: the first failure stops the pipe, the second
   * failure makes the loop call `Stop` again with the quit value still
   * pending, and the loop blocks forever.
   */
  lemma SecondFailureBlocksLoop(first: StreamId, second: StreamId, ws: Endpoints, m1: Message, m2: Message)
    requires first != second && first in ws && second in ws && ws[first].ch == [m1, m2]
    ensures var st := Start(CreatePipe(first, second), ws);
            var r := Run(st.pipe, st.endpoints, [FromFirst, FromFirst], {first});
            && r.state.pipe.loop == Stuck && r.state.pipe.quitPending
            && SentTo(r.sent, first) == [ClosedMessage, CancelMessage, ClosedMessage, CancelMessage]
  {
    var st := Start(CreatePipe(first, second), ws);
    var s1 := Step(st.pipe, st.endpoints, FromFirst, {first});
    assert s1.state.endpoints[first].ch == [m2];
    var s2 := Step(s1.state.pipe, s1.state.endpoints, FromFirst, {first});
    assert s2.state.pipe.loop == Stuck;
    FailureNotices(st.pipe, m1);
    FailureNotices(s1.state.pipe, m2);
    assert [FromFirst, FromFirst][1..] == [FromFirst];
    var r := Run(st.pipe, st.endpoints, [FromFirst, FromFirst], {first});
    assert r.sent == s1.sent + s2.sent + [];
    assert s1.sent + s2.sent + [] == s1.sent + s2.sent;
    SentToAppend(s1.sent, s2.sent, first);
  }

  /** A failed forward from the first connection reports to it a closed stream, then a Cancel. */
  lemma FailureNotices(p: Pipe, m: Message)
    requires p.first != p.second
    ensures SentTo([Outgoing(p.second, m), Outgoing(p.first, ClosedMessage)] + NotifyBoth(p), p.first)
            == [ClosedMessage, CancelMessage]
  {
    var out := [Outgoing(p.second, m), Outgoing(p.first, ClosedMessage)] + NotifyBoth(p);
    assert out == [Outgoing(p.second, m)] + [Outgoing(p.first, ClosedMessage)]
                  + [Outgoing(p.first, CancelMessage)] + [Outgoing(p.second, CancelMessage)];
    SentToAppend([Outgoing(p.second, m)] + [Outgoing(p.first, ClosedMessage)] + [Outgoing(p.first, CancelMessage)],
                 [Outgoing(p.second, CancelMessage)], p.first);
    SentToAppend([Outgoing(p.second, m)] + [Outgoing(p.first, ClosedMessage)],
                 [Outgoing(p.first, CancelMessage)], p.first);
    SentToAppend([Outgoing(p.second, m)], [Outgoing(p.first, ClosedMessage)], p.first);
    SentToSingle(Outgoing(p.second, m), p.first);
    SentToSingle(Outgoing(p.first, ClosedMessage), p.first);
    SentToSingle(Outgoing(p.first, CancelMessage), p.first);
    SentToSingle(Outgoing(p.second, CancelMessage), p.first);
  }

  /** A stop while the loop runs: both sides released, and the loop exits on its next quit case. */
  lemma StopThenQuit(p: Pipe, ws: Endpoints, open: set<StreamId>)
    requires p.loop == Running && !p.quitPending
    ensures Stop(p, ws).Stopped?
    ensures var s := Stop(p, ws).state;
            Step(s.pipe, s.endpoints, TakeQuit, open).state.pipe.loop == Exited
            && !Step(s.pipe, s.endpoints, TakeQuit, open).state.pipe.quitPending
  {
  }
}
