/**
 * The receiving side (receiver/receiver.go): option checks, joining through
 * the local network or the relay, the reaction to every message kind, and
 * the loop that writes one file from its FileData messages.
 *
 * The console answer, the disk, the decompressor and the health of the
 * stream are inputs. The `sync.WaitGroup` is the `pending` counter; the
 * `latestFileWriteDone` channel (capacity 1) is the `tokens` count.
 */
module Receiver {
  import opened Wrappers
  import opened StringTools
  import opened Files
  import opened Message
  import opened Transmit
  import GrpcClient
  import Sender

  datatype ReceiverOptions = ReceiverOptions(
    shareCode: string, relay: string, outPath: string, localNetwork: bool, localPort: string)

  const BlankRelayError: string := "relay address can't empty"

  /** `checkOptions`: a blank share code, or a blank relay outside local-network mode, ends the program. */
  function CheckOptions(opt: ReceiverOptions): (r: Option<string>)
    ensures IsBlank(opt.shareCode) ==> r == Some(Sender.BlankShareCodeError)
    ensures !IsBlank(opt.shareCode) ==> (r.Some? <==> !opt.localNetwork && IsBlank(opt.relay))
    ensures r.Some? && !IsBlank(opt.shareCode) ==> r == Some(BlankRelayError)
  {
    if IsBlank(opt.shareCode) then Some(Sender.BlankShareCodeError)
    else if !opt.localNetwork && IsBlank(opt.relay) then Some(BlankRelayError)
    else None
  }

  /**
   * The receiver. `hasFile` says whether `currentFile` is set; `watching`
   * whether the goroutine waiting on the counter has been started.
   */
  datatype Receiver = Receiver(
    opt: ReceiverOptions, hasFile: bool, filesSize: int, pending: int, watching: bool, tokens: nat,
    queue: seq<Message>)

  function NewReceiver(opt: ReceiverOptions): (r: Result<Receiver>)
    ensures r.Err? <==> CheckOptions(opt).Some?
    ensures r.Err? ==> r.error == CheckOptions(opt).value
    ensures r.Ok? ==> r.value.opt == opt && !r.value.hasFile && r.value.pending == 0 && !r.value.watching
                      && r.value.tokens == 0 && r.value.queue == []
  {
    match CheckOptions(opt)
    case Some(e) => Err(e)
    case None => Ok(Receiver(opt, false, 0, 0, false, 0, []))
  }

  // ---------------------------------------------------------------------------
  // The yes/no prompts
  // ---------------------------------------------------------------------------

  /** A prompt answer: the line is trimmed (`GetInput`) and lower-cased; empty, "y" and "yes" accept. */
  predicate Accepts(line: string) {
    ToLower(TrimSpace(line)) in {"", "y", "yes"}
  }

  /** The accepted answers spelled out: nothing, or "y" or "yes" in any mix of cases. */
  predicate IsYes(t: string) {
    || t == []
    || (|t| == 1 && t[0] in {'y', 'Y'})
    || (|t| == 3 && t[0] in {'y', 'Y'} && t[1] in {'e', 'E'} && t[2] in {'s', 'S'})
  }

  lemma LowerCharIs(c: char, lower: char)
    requires 'a' <= lower <= 'z'
    ensures LowerChar(c) == lower <==> c == lower || c == (lower as int - 32) as char
  {
  }

  lemma AcceptedAnswers(line: string)
    ensures Accepts(line) <==> IsYes(TrimSpace(line))
  {
    var t := TrimSpace(line);
    var l := ToLower(t);
    LowerCharIs('y', 'y');
    if |t| >= 1 { LowerCharIs(t[0], 'y'); }
    if |t| == 3 { LowerCharIs(t[1], 'e'); LowerCharIs(t[2], 's'); }
    if |t| == 1 {
      assert l == "y" <==> l[0] == 'y';
    }
    if |t| == 3 {
      assert l == "yes" <==> l[0] == 'y' && l[1] == 'e' && l[2] == 's';
    }
  }

  /** "n" declines. */
  lemma Declines()
    ensures !Accepts("n")
  {
    TrimSpaceUnspaced("n");
    AcceptedAnswers("n");
  }

  // ---------------------------------------------------------------------------
  // Joining
  // ---------------------------------------------------------------------------

  /** The request that joins the channel: the share code as raw bytes. */
  function JoinRequest(opt: ReceiverOptions): Message {
    NewMessage(JoinChannel, Some(BytesOfString(opt.shareCode)))
  }

  /** The relay reads back exactly the share code the receiver put in its join request. */
  lemma JoinRequestCarriesCode(c: JsonCodec, opt: ReceiverOptions)
    requires IsByteString(opt.shareCode)
    ensures ParseMessagePayload(c, Some(JoinRequest(opt))) == Ok(Some(ShareCode(ShareCodePayload(opt.shareCode))))
  {
    ShareCodeRoundTrip(c, opt.shareCode, JoinChannel);
  }

  const NotDiscoveredError: string := "not discovery on local network"
  const StartError: string := "start failed"

  /** How joining went: the sends attempted, whether `Done` was called, and the error returned. */
  datatype Joined = Joined(attempts: seq<Outgoing>, finished: bool, err: Option<string>)

  /**
   * `receiveFromLocalNetwork`, returning once a failed `Start` has called
   * `Done`: without a discovered sender it fails; otherwise it announces local
   * mode (ignoring that send's error) and asks for the file statistics,
   * calling `Done` if the client cannot start or the request fails.
   */
  function ReceiveFromLocalNetwork(found: bool, start: GrpcClient.StartOutcome, open: set<StreamId>): (j: Joined)
    ensures !found ==> j == Joined([], false, Some(NotDiscoveredError))
    ensures found && !start.Started? ==> j.finished && j.err.None? && j.attempts == []
    ensures found && start.Started? ==>
              j.err.None?
              && j.attempts == [Outgoing(start.stream, NewMessage(LocalNetworkMode, None)),
                                Outgoing(start.stream, NewMessage(GetFileStat, None))]
              && (j.finished <==> start.stream !in open)
  {
    if !found then Joined([], false, Some(NotDiscoveredError))
    else if !start.Started? then Joined([], true, None)
    else
      var s := start.stream;
      Joined([Outgoing(s, NewMessage(LocalNetworkMode, None)), Outgoing(s, NewMessage(GetFileStat, None))],
             s !in open, None)
  }

  /**
   * How `receiveFromLocalNetwork` goes as written: the sends attempted, the
   * calls of `Done` made before it returns, and the error returned.
   */
  datatype LocalJoin = LocalJoin(attempts: seq<Outgoing>, doneCalls: nat, err: Option<string>)

  function Attempted(a: Option<Outgoing>): seq<Outgoing> {
    if a.Some? then [a.value] else []
  }

  /**
   * `receiveFromLocalNetwork` as written: a failed `Start` calls `Done` but
   * does not return, so both requests still go through `GrpcClient.Send`,
   * each of which retries `Start` while there is no stream (`retry1` and
   * `retry2` are how those retries go); a failed GetFileStat request calls
   * `Done` again.
   */
  function ReceiveFromLocalNetworkAsWritten(found: bool, target: string, start: GrpcClient.StartOutcome,
                                            retry1: GrpcClient.StartOutcome, retry2: GrpcClient.StartOutcome,
                                            open: set<StreamId>): (j: LocalJoin)
    ensures !found ==> j == LocalJoin([], 0, Some(NotDiscoveredError))
    ensures found ==> j.err.None?
  {
    if !found then LocalJoin([], 0, Some(NotDiscoveredError))
    else
      var c0 := GrpcClient.Restart(GrpcClient.NewPdhGrpcClient<Receiver>(target), start);
      var s1 := GrpcClient.Send(c0, NewMessage(LocalNetworkMode, None), retry1, open);
      var s2 := GrpcClient.Send(s1.client, NewMessage(GetFileStat, None), retry2, open);
      LocalJoin(Attempted(s1.attempt) + Attempted(s2.attempt),
                (if start.Started? then 0 else 1) + (if s2.err.Some? then 1 else 0), None)
  }

  /**
   * `Done` puts a value into the `done` channel (capacity 1), which `Receive`
   * reads only after joining: a second `Done` while joining never returns.
   */
  predicate Hangs(j: LocalJoin) {
    j.doneCalls >= 2
  }

  /**
   * As written, a sender that is found but cannot be reached hangs the
   * receiver: `Start` fails, both retries fail, nothing is sent, and the
   * second `Done` blocks for ever.
   */
  lemma LocalStartFailureHangs(target: string, start: GrpcClient.StartOutcome, retry1: GrpcClient.StartOutcome,
                               retry2: GrpcClient.StartOutcome, open: set<StreamId>)
    requires !start.Started? && !retry1.Started? && !retry2.Started?
    ensures var j := ReceiveFromLocalNetworkAsWritten(true, target, start, retry1, retry2, open);
            j.attempts == [] && j.doneCalls == 2 && Hangs(j)
  {
  }

  /**
   * As written, the retries can also succeed after `Done` has been called:
   * both requests then go out on the new stream although the receiver has
   * already given up.
   */
  lemma LocalStartRetrySends(target: string, start: GrpcClient.StartOutcome, s: StreamId,
                             retry2: GrpcClient.StartOutcome, open: set<StreamId>)
    requires !start.Started? && s in open
    ensures var j := ReceiveFromLocalNetworkAsWritten(true, target, start, GrpcClient.Started(s), retry2, open);
            j.attempts == [Outgoing(s, NewMessage(LocalNetworkMode, None)), Outgoing(s, NewMessage(GetFileStat, None))]
            && j.doneCalls == 1 && !Hangs(j)
  {
  }

  /**
   * Once `Start` succeeds, the as-written join and the corrected one send the
   * same requests and call `Done` exactly when the request fails.
   */
  lemma LocalJoinAgreesWhenStarted(target: string, start: GrpcClient.StartOutcome, retry1: GrpcClient.StartOutcome,
                                   retry2: GrpcClient.StartOutcome, open: set<StreamId>)
    requires start.Started?
    ensures var j := ReceiveFromLocalNetworkAsWritten(true, target, start, retry1, retry2, open);
            var k := ReceiveFromLocalNetwork(true, start, open);
            j.attempts == k.attempts && (j.doneCalls == 1 <==> k.finished) && j.doneCalls <= 1
  {
  }

  /** `receiveFromRelay`: a client for the relay; once started, the join request goes out on its stream. */
  function ReceiveFromRelay(opt: ReceiverOptions, start: GrpcClient.StartOutcome, open: set<StreamId>): (j: Joined)
    ensures !j.finished
    ensures !start.Started? ==> j.attempts == [] && j.err == Some(StartError)
    ensures start.Started? ==>
              j.attempts == [Outgoing(start.stream, JoinRequest(opt))]
              && (j.err.None? <==> start.stream in open)
  {
    if !start.Started? then Joined([], false, Some(StartError))
    else
      var sent := ClientSend(NewClientStreamWrapper(start.stream), JoinRequest(opt), open);
      Joined([sent.attempt], false, sent.err)
  }

  /** `Receive`: the local network first, the relay when no sender answers there; `Done` when both fail. */
  function Receive(opt: ReceiverOptions, found: bool, local: GrpcClient.StartOutcome, relay: GrpcClient.StartOutcome,
                   open: set<StreamId>): (j: Joined)
    ensures found ==> j == ReceiveFromLocalNetwork(found, local, open)
    ensures !found ==> j.attempts == ReceiveFromRelay(opt, relay, open).attempts
                       && (j.finished <==> ReceiveFromRelay(opt, relay, open).err.Some?)
  {
    var l := ReceiveFromLocalNetwork(found, local, open);
    if l.err.None? then l
    else
      var r := ReceiveFromRelay(opt, relay, open);
      if r.err.Some? then r.(finished := true) else r
  }

  // ---------------------------------------------------------------------------
  // Reaction to each message
  // ---------------------------------------------------------------------------

  /** What the handler may find on disk; the oracles answer for the cleaned path. */
  datatype Disk = Disk(
    present: string -> bool, mkdirOk: string -> bool, openOk: string -> bool, truncateOk: string -> bool)

  /** The inputs a handler call consults: the console line, the stream's health and the disk. */
  datatype Environment = Environment(input: string, linkUp: bool, disk: Disk)

  /**
   * How a handler call ended: it returned with the receiver still waiting,
   * it called `Done` (or the counter reached zero, which calls it), it
   * panicked, or it never returns.
   */
  datatype Status = Idle | Finished | Panicked | Blocked

  /** A file whose FileData messages the write loop will now consume. */
  datatype WriteJob = WriteJob(path: string, size: int)

  datatype Reaction = Reaction(receiver: Receiver, sent: seq<Message>, status: Status, job: Option<WriteJob>)

  function Finish(r: Receiver, sent: seq<Message>): Reaction {
    Reaction(r, sent, Finished, None)
  }

  /** The counter has been armed and has reached zero: "Receive Completed!" and `Done`. */
  predicate Completed(r: Receiver) {
    r.watching && r.pending == 0
  }

  /**
   * FileStat: the statistics are decoded (a decoding error calls `Done`, a
   * missing payload panics on the type assertion); a refusal answers
   * RefuseReceive and calls `Done`; an acceptance records the size, answers
   * AgreeReceive and adds the number of files to the counter.
   */
  function HandleFileStat(r: Receiver, c: JsonCodec, msg: Message, env: Environment): (x: Reaction)
    requires msg.messageType == FileStat
    ensures ParseMessagePayload(c, Some(msg)).Err? ==> x == Finish(r, [])
    ensures msg.payload.None? ==> x.status == Panicked
    ensures ParseMessagePayload(c, Some(msg)).Ok? && msg.payload.Some? ==>
              var st := ParseMessagePayload(c, Some(msg)).value.value.stat;
              if !Accepts(env.input) then x == Finish(r, [NewMessage(RefuseReceive, None)])
              else
                && x.sent == [NewMessage(AgreeReceive, None)]
                && (r.pending + st.filesNumber < 0 <==> x.status == Panicked)
                && (x.status != Panicked ==>
                      && x.receiver == r.(filesSize := st.filesSize, pending := r.pending + st.filesNumber, watching := true)
                      && (x.status == Finished <==> !env.linkUp || Completed(x.receiver))
                      && (x.status != Finished ==> x.status == Idle))
  {
    match ParseMessagePayload(c, Some(msg))
    case Err(_) => Finish(r, [])
    case Ok(None) => Reaction(r, [], Panicked, None)
    case Ok(Some(p)) =>
      if !p.Stat? then Reaction(r, [], Panicked, None)
      else if !Accepts(env.input) then Finish(r, [NewMessage(RefuseReceive, None)])
      else
        var agree := [NewMessage(AgreeReceive, None)];
        var n := r.pending + p.stat.filesNumber;
        if n < 0 then Reaction(r, agree, Panicked, None)
        else
          var r' := r.(filesSize := p.stat.filesSize, pending := n, watching := true);
          if !env.linkUp || Completed(r') then Finish(r', agree) else Reaction(r', agree, Idle, None)
  }

  /**
   * The sender's FileStat reply arms the receiver: accepted, it expects as
   * many files as the sender's list holds and records the sender's total size;
   * refused, it answers RefuseReceive and calls `Done`.
   */
  lemma FileStatReplyArms(r: Receiver, c: JsonCodec, s: Sender.Sender, env: Environment)
    requires Faithful(c) && r.pending >= 0 && env.linkUp
    ensures var x := HandleFileStat(r, c, Sender.FileStatReply(c, s), env);
            if Accepts(env.input) then
              && x.sent == [NewMessage(AgreeReceive, None)]
              && x.receiver == r.(filesSize := s.totalFilesSize, pending := r.pending + |s.fs.filesInfo|, watching := true)
              && (x.status == Finished <==> r.pending + |s.fs.filesInfo| == 0)
              && (x.status != Finished ==> x.status == Idle)
            else x == Finish(r, [NewMessage(RefuseReceive, None)])
  {
    Sender.FileStatReplyParses(c, s);
  }

  /**
   * FileInfo, from the point where the entry has been decoded: the folder is
   * created if missing (a failure returns silently); an existing file the
   * user does not want overwritten is answered with SkipFile; otherwise the
   * file is created or truncated, sized to the announced length, and
   * ReadyForReceive is answered, handing the file to the write loop.
   *
   * `r0` is the receiver before the handler took the previous file's
   * write-done token; `skipCounts` selects the corrected skip, which leaves
   * that token in place and counts the skipped file as done.
   */
  function Admit(r0: Receiver, r: Receiver, f: FileInfo, env: Environment, skipCounts: bool): (x: Reaction)
    ensures Sender.ReadyMessage in x.sent <==> Prepared(r, f, env)
    ensures x.job.Some? <==> Prepared(r, f, env) && env.linkUp
    ensures x.job.Some? ==>
              x == Reaction(r.(hasFile := true), [Sender.ReadyMessage], Idle, Some(WriteJob(TargetPath(r, f), f.size)))
    ensures !FolderReady(r, f, env) ==> x == Reaction(r, [], Idle, None)
    ensures FolderReady(r, f, env) && !Proceeds(r, f, env) ==> x.sent == [Sender.SkipMessage] && x.job.None?
    ensures Proceeds(r, f, env) && !env.disk.openOk(TargetPath(r, f)) ==> x == Finish(r.(hasFile := false), [])
    ensures Proceeds(r, f, env) && env.disk.openOk(TargetPath(r, f)) && !env.disk.truncateOk(TargetPath(r, f)) ==>
              x == Finish(r.(hasFile := true), [])
    ensures Prepared(r, f, env) && !env.linkUp ==> x == Finish(r.(hasFile := true), [Sender.ReadyMessage])
    ensures !skipCounts ==> x.receiver.pending == r.pending
    ensures x.receiver.pending == r.pending || x.receiver.pending == r0.pending - 1
  {
    var dir := FolderPath(r, f);
    var path := TargetPath(r, f);
    if !env.disk.present(dir) && !env.disk.mkdirOk(dir) then Reaction(r, [], Idle, None)
    else if env.disk.present(path) && !Accepts(env.input) then
      if !skipCounts then Reaction(r, [Sender.SkipMessage], Idle, None)
      else
        var r' := r0.(pending := r0.pending - 1);
        if r'.pending < 0 then Reaction(r', [Sender.SkipMessage], Panicked, None)
        else if Completed(r') then Finish(r', [Sender.SkipMessage])
        else Reaction(r', [Sender.SkipMessage], Idle, None)
    else if !env.disk.openOk(path) then Finish(r.(hasFile := false), [])
    else if !env.disk.truncateOk(path) then Finish(r.(hasFile := true), [])
    else if !env.linkUp then Finish(r.(hasFile := true), [Sender.ReadyMessage])
    else Reaction(r.(hasFile := true), [Sender.ReadyMessage], Idle, Some(WriteJob(path, f.size)))
  }

  /**
   * FileInfo: once a file has been opened, the handler first waits for the
   * previous file's write-done token; then the payload is decoded (an error
   * calls `Done`, a missing payload panics) and a present entry is admitted.
   */
  function HandleFileInfo(r: Receiver, c: JsonCodec, msg: Message, env: Environment, skipCounts: bool): (x: Reaction)
    requires msg.messageType == MessageType.FileInfo
    ensures r.hasFile && r.tokens == 0 ==> x == Reaction(r, [], Blocked, None)
    ensures !(r.hasFile && r.tokens == 0) ==>
              var r1 := TakeToken(r);
              match ParseMessagePayload(c, Some(msg))
              case Err(_) => x == Finish(r1, [])
              case Ok(None) => x.status == Panicked
              case Ok(Some(p)) =>
                && (!p.Info? ==> x.status == Panicked)
                && (p.Info? && p.info.fileInfo.None? ==> x == Reaction(r1, [], Idle, None))
                && (p.Info? && p.info.fileInfo.Some? ==> x == Admit(r, r1, p.info.fileInfo.value, env, skipCounts))
  {
    if r.hasFile && r.tokens == 0 then Reaction(r, [], Blocked, None)
    else
      var r1 := TakeToken(r);
      match ParseMessagePayload(c, Some(msg))
      case Err(_) => Finish(r1, [])
      case Ok(None) => Reaction(r1, [], Panicked, None)
      case Ok(Some(p)) =>
        if !p.Info? then Reaction(r1, [], Panicked, None)
        else
          match p.info.fileInfo
          case None => Reaction(r1, [], Idle, None)
          case Some(f) => Admit(r, r1, f, env, skipCounts)
  }

  /** Capacity of the `fileHandleMsg` channel. */
  const HandleQueueCapacity: nat := 10

  /** `Receiver.HandleMessage`, with the skip behaviour selected by `skipCounts`. */
  function HandleMessageWith(r: Receiver, c: JsonCodec, msg: Message, env: Environment, skipCounts: bool): (x: Reaction)
    ensures msg.messageType in {Interrupt, ChannelFull, ChannelNotFound, JoinChannelFailed, FileFinish} ==>
              x == Finish(r, [])
    ensures msg.messageType == JoinChannelSuccess ==>
              x.sent == [NewMessage(GetFileStat, None)] && x.receiver == r
              && (x.status == Finished <==> !env.linkUp) && (x.status != Finished ==> x.status == Idle)
    ensures msg.messageType == FileData ==>
              x.sent == [] && (x.status == Blocked <==> |r.queue| >= HandleQueueCapacity)
              && (x.status != Blocked ==> x == Reaction(r.(queue := r.queue + [msg]), [], Idle, None))
    ensures msg.messageType in {CreateChannel, CreateChannelSuccess, CreateChannelFailed, JoinChannel, GetFileStat,
                                ReadyForReceive, SkipFile, AgreeReceive, RefuseReceive, Ping, Cancel, Failed,
                                LocalNetworkMode} ==>
              x == Reaction(r, [], Idle, None)
    ensures msg.messageType == FileStat ==> x == HandleFileStat(r, c, msg, env)
    ensures msg.messageType == MessageType.FileInfo ==> x == HandleFileInfo(r, c, msg, env, skipCounts)
  {
    match msg.messageType
    case Interrupt => Finish(r, [])
    case ChannelFull => Finish(r, [])
    case ChannelNotFound => Finish(r, [])
    case JoinChannelFailed => Finish(r, [])
    case FileFinish => Finish(r, [])
    case JoinChannelSuccess =>
      var ask := [NewMessage(GetFileStat, None)];
      if env.linkUp then Reaction(r, ask, Idle, None) else Finish(r, ask)
    case FileStat => HandleFileStat(r, c, msg, env)
    case FileData =>
      if |r.queue| < HandleQueueCapacity then Reaction(r.(queue := r.queue + [msg]), [], Idle, None)
      else Reaction(r, [], Blocked, None)
    case FileInfo => HandleFileInfo(r, c, msg, env, skipCounts)
    case _ => Reaction(r, [], Idle, None)
  }

  /** `Receiver.HandleMessage` as written: a skipped file is never counted done. */
  function HandleMessageAsWritten(r: Receiver, c: JsonCodec, msg: Message, env: Environment): (x: Reaction)
    ensures msg.messageType != FileStat ==> x.receiver.pending == r.pending
  {
    HandleMessageWith(r, c, msg, env, false)
  }

  /** `Receiver.HandleMessage` as evidently intended: a skipped file counts as done and keeps the token. */
  function HandleMessage(r: Receiver, c: JsonCodec, msg: Message, env: Environment): (x: Reaction)
    ensures msg.messageType != MessageType.FileInfo ==> x == HandleMessageAsWritten(r, c, msg, env)
    ensures msg.messageType == MessageType.FileInfo ==>
              x.receiver.pending == r.pending || x.receiver.pending == r.pending - 1
  {
    HandleMessageWith(r, c, msg, env, true)
  }

  // ---------------------------------------------------------------------------
  // The write loop
  // ---------------------------------------------------------------------------

  function Zeros(n: nat): (z: seq<byte>)
    ensures |z| == n && forall i :: 0 <= i < n ==> z[i] == 0
  {
    seq(n, _ => 0)
  }

  /** A file after writing `data` at offset `off`: overwritten there, extended if the write runs past the end. */
  function WriteAt(file: seq<byte>, off: nat, data: seq<byte>): (r: seq<byte>)
    requires off <= |file|
    ensures |r| == if off + |data| < |file| then |file| else off + |data|
    ensures r[..off] == file[..off] && r[off..off + |data|] == data
    ensures forall i :: off + |data| <= i < |file| ==> r[i] == file[i]
  {
    file[..off] + data + if off + |data| < |file| then file[off + |data|..] else []
  }

  /** Two writes back to back are one write of both. */
  lemma WriteAtConcat(file: seq<byte>, off: nat, a: seq<byte>, b: seq<byte>)
    requires off <= |file|
    ensures WriteAt(WriteAt(file, off, a), off + |a|, b) == WriteAt(file, off, a + b)
  {
    var x := WriteAt(WriteAt(file, off, a), off + |a|, b);
    var y := WriteAt(file, off, a + b);
    assert |x| == |y|;
    forall i | 0 <= i < |x|
      ensures x[i] == y[i]
    {
      if i < off {
        assert x[i] == x[..off][i];
        assert y[i] == y[..off][i];
      } else if i < off + |a| {
        assert x[i] == x[..off + |a|][i];
        assert y[i] == y[off..off + |a| + |b|][i - off];
      } else if i < off + |a| + |b| {
        assert x[i] == x[off + |a|..off + |a| + |b|][i - off - |a|];
        assert y[i] == y[off..off + |a| + |b|][i - off];
      }
    }
  }

  /** How the write loop ended: the file closed at EOF, removed after a write error, still waiting, or a panic. */
  datatype WriteOutcome = Closed(content: seq<byte>) | Removed | Unfinished(content: seq<byte>) | Crashed

  /**
   * The write goroutine over the queued messages: each FileData message is
   * decoded (a failure panics), a chunk without data is ignored, the data is
   * decompressed and written where the previous write ended, and the EOF
   * chunk closes the file. `failAt` is the write (counted from `k`) that
   * fails with an I/O error, if any.
   */
  function WriteLoop(c: JsonCodec, decompress: seq<byte> -> seq<byte>, file: seq<byte>, off: nat,
                     msgs: seq<Message>, failAt: Option<nat>, k: nat): (w: WriteOutcome)
    requires off <= |file|
    ensures w.Removed? ==> failAt.Some? && k <= failAt.value
    decreases |msgs|
  {
    if msgs == [] then Unfinished(file)
    else if msgs[0].messageType != FileData then WriteLoop(c, decompress, file, off, msgs[1..], failAt, k)
    else
      match ParseMessagePayload(c, Some(msgs[0]))
      case Err(_) => Crashed
      case Ok(None) => Crashed
      case Ok(Some(p)) =>
        if !p.Data? then Crashed
        else if p.chunk.data.None? then WriteLoop(c, decompress, file, off, msgs[1..], failAt, k)
        else if failAt == Some(k) then Removed
        else
          var bytes := decompress(p.chunk.data.value);
          var file' := WriteAt(file, off, bytes);
          if p.chunk.eof then Closed(file')
          else WriteLoop(c, decompress, file', off + |bytes|, msgs[1..], failAt, k + 1)
  }

  /** A chunking as the sender produces it: not empty, and only the last chunk marked EOF. */
  predicate EndsOnce(cs: seq<Sender.Chunk>) {
    |cs| > 0 && cs[|cs| - 1].eof && forall i :: 0 <= i < |cs| - 1 ==> !cs[i].eof
  }

  /** One FileData message with data and no write error: the bytes are written, then EOF closes or the loop goes on. */
  lemma WriteLoopDataStep(c: JsonCodec, decompress: seq<byte> -> seq<byte>, file: seq<byte>, off: nat,
                          msgs: seq<Message>, failAt: Option<nat>, k: nat, d: seq<byte>, pos: int, eof: bool)
    requires off <= |file| && |msgs| > 0 && msgs[0].messageType == FileData && failAt != Some(k)
    requires ParseMessagePayload(c, Some(msgs[0])) == Ok(Some(Data(FileDataPayload(Some(d), pos, eof))))
    ensures var file' := WriteAt(file, off, decompress(d));
            WriteLoop(c, decompress, file, off, msgs, failAt, k)
            == if eof then Closed(file') else WriteLoop(c, decompress, file', off + |decompress(d)|, msgs[1..], failAt, k + 1)
  {
  }

  /**
   * A FileData chunk without data is ignored wherever it comes: the loop ends
   * as it would without that message, even when the chunk is marked EOF.
   */
  lemma {:induction false} WriteLoopIgnoresEmptyChunk(c: JsonCodec, decompress: seq<byte> -> seq<byte>,
                                                      file: seq<byte>, off: nat, msgs: seq<Message>,
                                                      failAt: Option<nat>, k: nat, i: nat, p: FileDataPayload)
    requires off <= |file| && i < |msgs| && msgs[i].messageType == FileData
    requires ParseMessagePayload(c, Some(msgs[i])) == Ok(Some(Data(p))) && p.data.None?
    ensures WriteLoop(c, decompress, file, off, msgs, failAt, k)
            == WriteLoop(c, decompress, file, off, msgs[..i] + msgs[i + 1..], failAt, k)
    decreases i
  {
    var rest := msgs[..i] + msgs[i + 1..];
    if i == 0 {
      assert rest == msgs[1..];
    } else {
      assert rest[0] == msgs[0];
      assert rest[1..] == msgs[1..][..i - 1] + msgs[1..][i..];
      var m := msgs[0];
      var q := ParseMessagePayload(c, Some(m));
      if m.messageType != FileData || (q.Ok? && q.value.Some? && q.value.value.Data? && q.value.value.chunk.data.None?) {
        WriteLoopIgnoresEmptyChunk(c, decompress, file, off, msgs[1..], failAt, k, i - 1, p);
      } else if q.Ok? && q.value.Some? && q.value.value.Data? && failAt != Some(k) && !q.value.value.chunk.eof {
        var bytes := decompress(q.value.value.chunk.data.value);
        WriteLoopIgnoresEmptyChunk(c, decompress, WriteAt(file, off, bytes), off + |bytes|, msgs[1..], failAt, k + 1, i - 1, p);
      }
    }
  }

  /**
   * A write that fails with an I/O error removes the file: fed a sender's
   * chunking, the loop whose j-th write fails ends with the file removed.
   */
  lemma WriteFailureRemoves(c: JsonCodec, compress: seq<byte> -> seq<byte>, decompress: seq<byte> -> seq<byte>,
                            file: seq<byte>, off: nat, cs: seq<Sender.Chunk>, k: nat, j: nat)
    requires Faithful(c) && off <= |file| && EndsOnce(cs) && j < |cs|
    ensures WriteLoop(c, decompress, file, off, Sender.DataMessages(c, compress, cs), Some(k + j), k) == Removed
  {
    WriteFailureAt(c, compress, decompress, file, off, cs, k, k + j);
  }

  /** `WriteFailureRemoves` by induction on the chunking, with the failing write counted from the loop's start. */
  lemma {:induction false} WriteFailureAt(c: JsonCodec, compress: seq<byte> -> seq<byte>,
                                          decompress: seq<byte> -> seq<byte>, file: seq<byte>, off: nat,
                                          cs: seq<Sender.Chunk>, k: nat, fail: nat)
    requires Faithful(c) && off <= |file| && EndsOnce(cs) && k <= fail < k + |cs|
    ensures WriteLoop(c, decompress, file, off, Sender.DataMessages(c, compress, cs), Some(fail), k) == Removed
    decreases |cs|
  {
    var ms := Sender.DataMessages(c, compress, cs);
    var ch := cs[0];
    assert ms[0] == Sender.DataMessage(c, compress, ch);
    Sender.DataMessageParses(c, compress, ch);
    if fail == k {
      WriteLoopFailStep(c, decompress, file, off, ms, k, compress(ch.data), ch.position, ch.eof);
    } else {
      ChunkingTail(c, compress, cs);
      var bytes := decompress(compress(ch.data));
      WriteLoopDataStep(c, decompress, file, off, ms, Some(fail), k, compress(ch.data), ch.position, false);
      WriteFailureAt(c, compress, decompress, WriteAt(file, off, bytes), off + |bytes|, cs[1..], k + 1, fail);
    }
  }

  /** A chunking longer than one chunk: the first is not EOF, and the rest is a chunking carried by the rest of the messages. */
  lemma ChunkingTail(c: JsonCodec, compress: seq<byte> -> seq<byte>, cs: seq<Sender.Chunk>)
    requires EndsOnce(cs) && |cs| > 1
    ensures !cs[0].eof && EndsOnce(cs[1..])
    ensures var ms := Sender.DataMessages(c, compress, cs);
            ms[0] == Sender.DataMessage(c, compress, cs[0]) && ms[1..] == Sender.DataMessages(c, compress, cs[1..])
  {
    var rest := cs[1..];
    assert forall i :: 0 <= i < |rest| ==> rest[i] == cs[i + 1];
  }

  /** One FileData message with data whose write fails: the file is removed and the loop ends. */
  lemma WriteLoopFailStep(c: JsonCodec, decompress: seq<byte> -> seq<byte>, file: seq<byte>, off: nat,
                          msgs: seq<Message>, k: nat, d: seq<byte>, pos: int, eof: bool)
    requires off <= |file| && |msgs| > 0 && msgs[0].messageType == FileData
    requires ParseMessagePayload(c, Some(msgs[0])) == Ok(Some(Data(FileDataPayload(Some(d), pos, eof))))
    ensures WriteLoop(c, decompress, file, off, msgs, Some(k), k) == Removed
  {
  }

  /**
   * Given a faithful codec and a decompressor that undoes the compressor, the
   * write loop fed the FileData messages of a chunking closes the file with
   * all the chunks' bytes written in order from `off`.
   */
  lemma {:induction false} WriteLoopWritesChunks(c: JsonCodec, compress: seq<byte> -> seq<byte>,
                                                 decompress: seq<byte> -> seq<byte>, file: seq<byte>, off: nat,
                                                 cs: seq<Sender.Chunk>, k: nat)
    requires Faithful(c) && forall b :: decompress(compress(b)) == b
    requires off <= |file| && EndsOnce(cs)
    ensures WriteLoop(c, decompress, file, off, Sender.DataMessages(c, compress, cs), None, k)
            == Closed(WriteAt(file, off, Sender.ConcatData(cs)))
    decreases |cs|
  {
    var ms := Sender.DataMessages(c, compress, cs);
    var ch := cs[0];
    var rest := cs[1..];
    assert Sender.ConcatData(cs) == ch.data + Sender.ConcatData(rest);
    assert ms[1..] == Sender.DataMessages(c, compress, rest);
    assert decompress(compress(ch.data)) == ch.data;
    Sender.DataMessageParses(c, compress, ch);
    WriteLoopDataStep(c, decompress, file, off, ms, None, k, compress(ch.data), ch.position, ch.eof);
    var file' := WriteAt(file, off, ch.data);
    if !ch.eof {
      assert EndsOnce(rest) by {
        assert forall i :: 0 <= i < |rest| ==> rest[i] == cs[i + 1];
      }
      WriteLoopWritesChunks(c, compress, decompress, file', off + |ch.data|, rest, k + 1);
      WriteAtConcat(file, off, ch.data, Sender.ConcatData(rest));
    } else {
      assert rest == [];
    }
  }

  /**
   * End to end: the file the receiver pre-sizes to the announced length and
   * fills from the sender's FileData messages holds the sender's bytes,
   * followed by zeros when the announced length is larger.
   */
  lemma ReceivedFile(c: JsonCodec, compress: seq<byte> -> seq<byte>, decompress: seq<byte> -> seq<byte>,
                     content: seq<byte>, size: nat)
    requires Faithful(c) && forall b :: decompress(compress(b)) == b
    ensures WriteLoop(c, decompress, Zeros(size), 0, Sender.DataMessages(c, compress, Sender.FileChunks(content, 0)), None, 0)
            == Closed(content + Zeros(if size > |content| then size - |content| else 0))
  {
    WriteOverZeros(content, size);
    var cs := Sender.FileChunks(content, 0);
    Sender.FileChunksEnd(content, 0);
    Sender.FileChunksData(content, 0);
    assert content[0..] == content;
    WriteLoopWritesChunks(c, compress, decompress, Zeros(size), 0, cs, 0);
  }

  /**
   * The write loop ignores `Position` and writes where the previous write
   * ended. When the two FileData messages of a two-chunk file reach it in the
   * wrong order, the EOF chunk is written at the start offset and closes the
   * file: the first chunk's bytes are never written.
   */
  lemma SwappedChunksLoseData(c: JsonCodec, compress: seq<byte> -> seq<byte>, decompress: seq<byte> -> seq<byte>,
                              file: seq<byte>, off: nat, cs: seq<Sender.Chunk>)
    requires Faithful(c) && forall b :: decompress(compress(b)) == b
    requires off <= |file| && |cs| == 2 && EndsOnce(cs)
    ensures WriteLoop(c, decompress, file, off,
                      [Sender.DataMessage(c, compress, cs[1]), Sender.DataMessage(c, compress, cs[0])], None, 0)
            == Closed(WriteAt(file, off, cs[1].data))
  {
    var ms := [Sender.DataMessage(c, compress, cs[1]), Sender.DataMessage(c, compress, cs[0])];
    Sender.DataMessageParses(c, compress, cs[1]);
    assert decompress(compress(cs[1].data)) == cs[1].data;
    WriteLoopDataStep(c, decompress, file, off, ms, None, 0, compress(cs[1].data), cs[1].position, cs[1].eof);
  }

  /** Writing bytes at the start of a zero-filled file leaves them followed by the zeros past their end. */
  lemma WriteOverZeros(content: seq<byte>, size: nat)
    ensures WriteAt(Zeros(size), 0, content) == content + Zeros(if size > |content| then size - |content| else 0)
  {
    var w := WriteAt(Zeros(size), 0, content);
    var z := content + Zeros(if size > |content| then size - |content| else 0);
    assert |w| == |z|;
    forall i | 0 <= i < |w|
      ensures w[i] == z[i]
    {
      if i < |content| {
        assert w[i] == w[0..|content|][i];
      }
    }
  }

  /** With the announced size equal to the file's length, the received file is exactly the sent one. */
  lemma ReceivedFileExact(c: JsonCodec, compress: seq<byte> -> seq<byte>, decompress: seq<byte> -> seq<byte>,
                          content: seq<byte>)
    requires Faithful(c) && forall b :: decompress(compress(b)) == b
    ensures WriteLoop(c, decompress, Zeros(|content|), 0,
                      Sender.DataMessages(c, compress, Sender.FileChunks(content, 0)), None, 0)
            == Closed(content)
  {
    ReceivedFile(c, compress, decompress, content, |content|);
    assert content + Zeros(0) == content;
  }

  /**
   * The end of the write goroutine: after EOF it hands over the write-done
   * token (waiting while one is already there) and counts the file done;
   * after a write error the file is removed and `Done` is called.
   */
  function EndWrite(r: Receiver, w: WriteOutcome): (x: Reaction)
    ensures w.Closed? && r.tokens == 0 && r.pending >= 1 ==>
              x.receiver == r.(tokens := 1, pending := r.pending - 1)
              && (x.status == Finished <==> Completed(x.receiver))
    ensures w.Closed? && r.tokens > 0 ==> x.status == Blocked
    ensures w.Removed? ==> x.status == Finished || x.status == Panicked
    ensures w.Unfinished? ==> x.status == Blocked
    ensures w.Crashed? ==> x.status == Panicked
  {
    match w
    case Closed(_) =>
      if r.tokens > 0 then Reaction(r, [], Blocked, None)
      else
        var r' := r.(tokens := 1, pending := r.pending - 1);
        if r'.pending < 0 then Reaction(r', [], Panicked, None)
        else if Completed(r') then Finish(r', []) else Reaction(r', [], Idle, None)
    case Removed =>
      var r' := r.(pending := r.pending - 1);
      if r'.pending < 0 then Reaction(r', [], Panicked, None) else Finish(r', [])
    case Unfinished(_) => Reaction(r, [], Blocked, None)
    case Crashed => Reaction(r, [], Panicked, None)
  }

  // ---------------------------------------------------------------------------
  // Skipping a file
  // ---------------------------------------------------------------------------

  lemma InfoParses(c: JsonCodec, f: FileInfo)
    requires Faithful(c)
    ensures ParseMessagePayload(c, Some(Sender.FileInfoMessage(c, f))) == Ok(Some(Info(FileInfoPayload(Some(f)))))
  {
    JsonRoundTrip(c, Info(FileInfoPayload(Some(f))));
  }

  /** The receiver once the handler holds the previous file's write-done token. */
  function TakeToken(r: Receiver): (t: Receiver)
    requires !(r.hasFile && r.tokens == 0)
    ensures t.pending == r.pending && t.hasFile == r.hasFile
  {
    if r.hasFile then r.(tokens := r.tokens - 1) else r
  }

  /** The folder a file goes to: `path.Join(outPath, folderRemote)`. */
  function FolderPath(r: Receiver, f: FileInfo): string {
    Join([r.opt.outPath, f.folderRemote])
  }

  /** Where a file is written: `path.Join(outPath, folderRemote, name)`. */
  function TargetPath(r: Receiver, f: FileInfo): string {
    Join([r.opt.outPath, f.folderRemote, f.name])
  }

  /** The folder of `f` exists or can be created. */
  predicate FolderReady(r: Receiver, f: FileInfo, env: Environment) {
    env.disk.present(FolderPath(r, f)) || env.disk.mkdirOk(FolderPath(r, f))
  }

  /** The file is to be written: its folder is there and it is new, or the user agrees to overwrite it. */
  predicate Proceeds(r: Receiver, f: FileInfo, env: Environment) {
    FolderReady(r, f, env) && (!env.disk.present(TargetPath(r, f)) || Accepts(env.input))
  }

  /** The file is to be written, and it opens and takes the announced size. */
  predicate Prepared(r: Receiver, f: FileInfo, env: Environment) {
    Proceeds(r, f, env) && env.disk.openOk(TargetPath(r, f)) && env.disk.truncateOk(TargetPath(r, f))
  }

  /**
   * Declining to overwrite an existing file answers SkipFile. As written the
   * handler keeps the token it took and the counter is unchanged; corrected,
   * the token stays in place and the file is counted done.
   */
  lemma SkipStep(r: Receiver, c: JsonCodec, f: FileInfo, env: Environment, skipCounts: bool)
    requires Faithful(c) && !(r.hasFile && r.tokens == 0)
    requires FolderReady(r, f, env) && env.disk.present(TargetPath(r, f)) && !Accepts(env.input)
    ensures var x := HandleMessageWith(r, c, Sender.FileInfoMessage(c, f), env, skipCounts);
            && x.sent == [Sender.SkipMessage] && x.job.None?
            && (!skipCounts ==> x.receiver == TakeToken(r) && x.status == Idle)
            && (skipCounts && r.pending >= 1 ==>
                  x.receiver == r.(pending := r.pending - 1)
                  && (x.status == Finished <==> Completed(x.receiver))
                  && (x.status != Finished ==> x.status == Idle))
  {
    InfoParses(c, f);
  }

  /**
   * A file that is new, or that the user agrees to overwrite, is opened and
   * sized, ReadyForReceive is answered, and its write loop starts; skipping
   * plays no part, so both variants agree.
   */
  lemma ReadyStep(r: Receiver, c: JsonCodec, f: FileInfo, env: Environment, skipCounts: bool)
    requires Faithful(c) && !(r.hasFile && r.tokens == 0) && env.linkUp
    requires FolderReady(r, f, env) && (!env.disk.present(TargetPath(r, f)) || Accepts(env.input))
    requires env.disk.openOk(TargetPath(r, f)) && env.disk.truncateOk(TargetPath(r, f))
    ensures HandleMessageWith(r, c, Sender.FileInfoMessage(c, f), env, skipCounts)
            == Reaction(TakeToken(r).(hasFile := true), [Sender.ReadyMessage], Idle, Some(WriteJob(TargetPath(r, f), f.size)))
  {
    InfoParses(c, f);
  }

  /** The disk of the scenarios below: folders exist, and only `existing` names an existing file. */
  function ScenarioDisk(existing: string): Disk {
    Disk(p => p == existing, _ => true, _ => true, _ => true)
  }

  /** The receiver after accepting two files, before any FileInfo. */
  function TwoFilesExpected(opt: ReceiverOptions): Receiver {
    Receiver(opt, false, 0, 2, true, 0, [])
  }

  /**
   * As written, with two files expected, skipping the first and receiving
   * the second leaves one file pending forever: "Receive Completed!" never
   * comes.
   */
  lemma SkipNeverCompletesAsWritten(c: JsonCodec, opt: ReceiverOptions, f1: FileInfo, f2: FileInfo)
    requires Faithful(c)
    requires TargetPath(TwoFilesExpected(opt), f1) != TargetPath(TwoFilesExpected(opt), f2)
    ensures var r0 := TwoFilesExpected(opt);
            var env := Environment("n", true, ScenarioDisk(TargetPath(r0, f1)));
            var x1 := HandleMessageAsWritten(r0, c, Sender.FileInfoMessage(c, f1), env);
            var x2 := HandleMessageAsWritten(x1.receiver, c, Sender.FileInfoMessage(c, f2), env);
            var x3 := EndWrite(x2.receiver, Closed([]));
            && x1.sent == [Sender.SkipMessage] && x2.sent == [Sender.ReadyMessage] && x2.job.Some?
            && x3.status == Idle && x3.receiver.pending == 1
  {
    var r0 := TwoFilesExpected(opt);
    var env := Environment("n", true, ScenarioDisk(TargetPath(r0, f1)));
    Declines();
    var x1 := HandleMessageAsWritten(r0, c, Sender.FileInfoMessage(c, f1), env);
    SkipStep(r0, c, f1, env, false);
    assert x1.receiver == r0;
    var x2 := HandleMessageAsWritten(r0, c, Sender.FileInfoMessage(c, f2), env);
    ReadyStep(r0, c, f2, env, false);
    assert x2.receiver == r0.(hasFile := true);
  }

  /**
   * As written, a skip after a received file swallows that file's write-done
   * token, so the next FileInfo waits for a token that never comes.
   */
  lemma SkipAfterWriteBlocksAsWritten(c: JsonCodec, opt: ReceiverOptions, f2: FileInfo, f3: FileInfo)
    requires Faithful(c)
    ensures var r1 := Receiver(opt, true, 0, 2, true, 1, []);
            var env := Environment("n", true, ScenarioDisk(TargetPath(r1, f2)));
            var x2 := HandleMessageAsWritten(r1, c, Sender.FileInfoMessage(c, f2), env);
            var x3 := HandleMessageAsWritten(x2.receiver, c, Sender.FileInfoMessage(c, f3), env);
            && x2.sent == [Sender.SkipMessage] && x2.receiver.tokens == 0
            && x3.status == Blocked
  {
    var r1 := Receiver(opt, true, 0, 2, true, 1, []);
    var env := Environment("n", true, ScenarioDisk(TargetPath(r1, f2)));
    Declines();
    SkipThenBlocks(c, r1, f2, f3, env);
  }

  /** A declined file after a written one leaves no token, so the next FileInfo blocks. */
  lemma SkipThenBlocks(c: JsonCodec, r1: Receiver, f2: FileInfo, f3: FileInfo, env: Environment)
    requires Faithful(c) && r1.hasFile && r1.tokens == 1
    requires FolderReady(r1, f2, env) && env.disk.present(TargetPath(r1, f2)) && !Accepts(env.input)
    ensures var x2 := HandleMessageAsWritten(r1, c, Sender.FileInfoMessage(c, f2), env);
            var x3 := HandleMessageAsWritten(x2.receiver, c, Sender.FileInfoMessage(c, f3), env);
            && x2.sent == [Sender.SkipMessage] && x2.receiver.tokens == 0
            && x3.status == Blocked
  {
    SkipStep(r1, c, f2, env, false);
    var x2 := HandleMessageAsWritten(r1, c, Sender.FileInfoMessage(c, f2), env);
    assert x2.receiver == r1.(tokens := 0);
    var m3 := Sender.FileInfoMessage(c, f3);
    assert HandleMessageAsWritten(x2.receiver, c, m3, env) == HandleFileInfo(x2.receiver, c, m3, env, false);
  }

  /**
   * Corrected, a declined file counts as done and keeps the token: the same
   * two-file session completes once the second file is written.
   */
  lemma SkipCompletes(c: JsonCodec, opt: ReceiverOptions, f1: FileInfo, f2: FileInfo)
    requires Faithful(c)
    requires TargetPath(TwoFilesExpected(opt), f1) != TargetPath(TwoFilesExpected(opt), f2)
    ensures var r0 := TwoFilesExpected(opt);
            var env := Environment("n", true, ScenarioDisk(TargetPath(r0, f1)));
            var x1 := HandleMessage(r0, c, Sender.FileInfoMessage(c, f1), env);
            var x2 := HandleMessage(x1.receiver, c, Sender.FileInfoMessage(c, f2), env);
            var x3 := EndWrite(x2.receiver, Closed([]));
            && x1.sent == [Sender.SkipMessage] && x2.sent == [Sender.ReadyMessage] && x2.job.Some?
            && x3.status == Finished && Completed(x3.receiver)
  {
    var r0 := TwoFilesExpected(opt);
    var env := Environment("n", true, ScenarioDisk(TargetPath(r0, f1)));
    Declines();
    var x1 := HandleMessage(r0, c, Sender.FileInfoMessage(c, f1), env);
    SkipStep(r0, c, f1, env, true);
    var r1 := r0.(pending := 1);
    assert x1.receiver == r1;
    assert TargetPath(r1, f2) == TargetPath(r0, f2);
    var x2 := HandleMessage(r1, c, Sender.FileInfoMessage(c, f2), env);
    ReadyStep(r1, c, f2, env, true);
    assert x2.receiver == r1.(hasFile := true);
    assert EndWrite(x2.receiver, Closed([])).receiver == r1.(hasFile := true, tokens := 1, pending := 0);
  }
}
