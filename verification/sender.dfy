/**
 * The sending side (sender/sender.go): option checks, the walk over the file
 * list that totals sizes and resolves symbolic links, the FileStat reply, the
 * per-file handshake and the chunked streaming of each file, and the reaction
 * to every message kind.
 *
 * The disk, the symbolic-link lookup, the compressor and the health of the
 * stream are inputs. A stream is described by how many sends it accepts
 * before breaking (`None`: it never breaks).
 */
module Sender {
  import opened Wrappers
  import opened StringTools
  import opened Files
  import opened Message
  import opened Transmit
  import GrpcClient

  const MaxBufferSize: nat := 1024 * 64

  /** The read buffer of the streaming loop: half of `MaxBufferSize`, 32 KiB. */
  const ChunkSize: nat := 32768

  /** `os.ModeSymlink`, bit 27 of a Go file mode. */
  const ModeSymlink: nat := 0x800_0000

  datatype SenderOptions = SenderOptions(
    shareCode: string, relay: string, hashAlgorithm: string, zip: bool, localNetwork: bool, localPort: string)

  /**
   * The sender. `fs` starts empty (it is set by `Send` before any message can
   * arrive); `queue` is the `fileHandleMsg` channel; `hasRelayClient` says
   * whether `gc` is set.
   */
  datatype Sender = Sender(
    totalFilesSize: int, longestFilename: nat, totalNumberOfContents: int,
    fs: Files, opt: SenderOptions, hasRelayClient: bool, queue: seq<Message>)

  const BlankShareCodeError: string := "share code can't empty"

  /** Capacity of the `fileHandleMsg` channel. */
  const HandleQueueCapacity: nat := 10

  /** `checkOptions` followed by the construction: a blank share code ends the program. */
  function NewSender(opt: SenderOptions): (r: Result<Sender>)
    ensures r.Err? <==> IsBlank(opt.shareCode)
    ensures r.Err? ==> r.error == BlankShareCodeError
    ensures r.Ok? ==> r.value.opt == opt && r.value.totalFilesSize == 0 && r.value.longestFilename == 0
                      && r.value.queue == [] && !r.value.hasRelayClient
  {
    if IsBlank(opt.shareCode) then Err(BlankShareCodeError)
    else Ok(Sender(0, 0, 0, Files([], [], 0), opt, false, []))
  }

  /** The first half of `Send`: the file list is built, and a failure ends the program. */
  function PrepareSend(s: Sender, fsys: FileSystem, filePaths: seq<string>): (r: Result<Sender>)
    ensures r.Ok? <==> GetFilesInfo(fsys, filePaths, s.opt.zip).Ok?
    ensures r.Err? ==> r.error == GetFilesInfo(fsys, filePaths, s.opt.zip).error
    ensures r.Ok? ==> r.value.fs == GetFilesInfo(fsys, filePaths, s.opt.zip).value
                      && r.value.totalNumberOfContents == |r.value.fs.filesInfo|
                      && r.value.opt == s.opt && r.value.queue == s.queue
  {
    match GetFilesInfo(fsys, filePaths, s.opt.zip)
    case Err(e) => Err(e)
    case Ok(fs) => Ok(s.(fs := fs, totalNumberOfContents := |fs.filesInfo|))
  }

  /** The request that opens the channel: the share code as raw bytes. */
  function CreateChannelRequest(opt: SenderOptions): Message {
    NewMessage(CreateChannel, Some(BytesOfString(opt.shareCode)))
  }

  /** How `sendWithRelay` went: the client (if started), what was sent, and whether it succeeded. */
  datatype RelayStart<H> = RelayStart(client: Option<GrpcClient.Client<H>>, attempt: Option<Outgoing>, ok: bool)

  /**
   * `sendWithRelay`: a client for the relay with the sender as its handler;
   * when it starts, the create request goes out on its stream.
   */
  function SendWithRelay<H>(opt: SenderOptions, h: H, start: GrpcClient.StartOutcome, open: set<StreamId>): (r: RelayStart<H>)
    ensures r.client.Some? <==> start.Started?
    ensures r.ok <==> start.Started? && start.stream in open
    ensures start.Started? ==>
              r.attempt == Some(Outgoing(start.stream, CreateChannelRequest(opt)))
              && r.client.value.handlers == [h] && r.client.value.stream == Some(start.stream)
    ensures !start.Started? ==> r.attempt.None?
  {
    var gc := GrpcClient.AddHandler(GrpcClient.NewPdhGrpcClient(opt.relay), h);
    var started := GrpcClient.Restart(gc, start);
    if start.Started? then
      var sent := GrpcClient.Send(started, CreateChannelRequest(opt), start, open);
      RelayStart(Some(sent.client), sent.attempt, sent.err.None?)
    else RelayStart(None, None, false)
  }

  /** The relay reads back exactly the share code the sender put in its create request. */
  lemma CreateRequestCarriesCode(c: JsonCodec, opt: SenderOptions)
    requires IsByteString(opt.shareCode)
    ensures ParseMessagePayload(c, Some(CreateChannelRequest(opt))) == Ok(Some(ShareCode(ShareCodePayload(opt.shareCode))))
  {
    ShareCodeRoundTrip(c, opt.shareCode, CreateChannel);
  }

  // ---------------------------------------------------------------------------
  // sendCollectFiles
  // ---------------------------------------------------------------------------

  predicate IsSymlink(mode: int) {
    (mode / ModeSymlink) % 2 == 1
  }

  /** The path handed to `os.Readlink`: the folder and the name joined by a separator, then cleaned. */
  function LinkPath(f: FileInfo): (p: string)
    ensures p == Clean(p)
  {
    CleanIdempotent(f.folderSource + [Separator] + f.name);
    Clean(f.folderSource + [Separator] + f.name)
  }

  /** Whether an entry's link can be resolved: it is not a link, or the lookup succeeds. */
  predicate LinkReadable(f: FileInfo, readlink: string -> Result<string>) {
    !IsSymlink(f.mode) || readlink(LinkPath(f)).Ok?
  }

  /**
   * One entry's link resolution: a link gets its target (the empty string when
   * the lookup fails, as `os.Readlink` returns), together with the lookup error.
   */
  function Resolve(f: FileInfo, readlink: string -> Result<string>): (r: (FileInfo, Option<string>))
    ensures r.1.None? <==> LinkReadable(f, readlink)
  {
    if IsSymlink(f.mode) then
      match readlink(LinkPath(f))
      case Ok(target) => (f.(symlink := target), None)
      case Err(e) => (f.(symlink := ""), Some(e))
    else (f, None)
  }

  function SizeSum(infos: seq<FileInfo>): int
    decreases |infos|
  {
    if infos == [] then 0 else SizeSum(infos[..|infos| - 1]) + infos[|infos| - 1].size
  }

  function Max(a: int, b: int): int {
    if a < b then b else a
  }

  /** The length of the longest name among the entries, 0 when there is none. */
  function LongestName(infos: seq<FileInfo>): (n: nat)
    ensures forall i :: 0 <= i < |infos| ==> |infos[i].name| <= n
    decreases |infos|
  {
    if infos == [] then 0
    else
      var m := LongestName(infos[..|infos| - 1]);
      assert forall i :: 0 <= i < |infos| - 1 ==> infos[..|infos| - 1][i] == infos[i];
      if |infos[|infos| - 1].name| > m then |infos[|infos| - 1].name| else m
  }

  /** The longest length is attained: it is 0 for no entries, and some entry's name length otherwise. */
  lemma {:induction false} LongestNameAttained(infos: seq<FileInfo>)
    ensures infos == [] ==> LongestName(infos) == 0
    ensures infos != [] ==> exists i :: 0 <= i < |infos| && |infos[i].name| == LongestName(infos)
    decreases |infos|
  {
    if infos != [] {
      var last := |infos| - 1;
      var front := infos[..last];
      if |infos[last].name| <= LongestName(front) {
        LongestNameAttained(front);
        if front == [] {
          assert |infos[last].name| == 0 == LongestName(infos);
        } else {
          var i :| 0 <= i < |front| && |front[i].name| == LongestName(front);
          assert infos[i] == front[i];
        }
      }
    }
  }

  /** The first entry whose link cannot be read. */
  function FirstUnreadable(infos: seq<FileInfo>, readlink: string -> Result<string>): (r: Option<nat>)
    ensures r.None? <==> forall i :: 0 <= i < |infos| ==> LinkReadable(infos[i], readlink)
    ensures r.Some? ==> r.value < |infos| && !LinkReadable(infos[r.value], readlink)
                        && forall i :: 0 <= i < r.value ==> LinkReadable(infos[i], readlink)
    decreases |infos|
  {
    if infos == [] then None
    else if !LinkReadable(infos[0], readlink) then Some(0)
    else
      match FirstUnreadable(infos[1..], readlink)
      case None => None
      case Some(k) => Some(k + 1)
  }

  /** How many entries the walk handles: all of them, or up to and including the first unreadable link. */
  function Walked(infos: seq<FileInfo>, readlink: string -> Result<string>): (n: nat)
    ensures n <= |infos|
  {
    match FirstUnreadable(infos, readlink)
    case None => |infos|
    case Some(k) => k + 1
  }

  /** The entries with the first `n` of them resolved and the rest untouched. */
  function ResolvePrefix(infos: seq<FileInfo>, readlink: string -> Result<string>, n: nat): (r: seq<FileInfo>)
    requires n <= |infos|
    ensures |r| == |infos|
    ensures forall i :: 0 <= i < n ==> r[i] == Resolve(infos[i], readlink).0
    ensures forall i :: n <= i < |infos| ==> r[i] == infos[i]
  {
    seq(|infos|, i requires 0 <= i < |infos| => if i < n then Resolve(infos[i], readlink).0 else infos[i])
  }

  /**
   * `sendCollectFiles`: walks the entries in order, tracking the longest name,
   * resolving symbolic links and totalling the sizes. The first link that
   * cannot be read stops the walk, after that entry's size has been added,
   * and its lookup error is returned.
   */
  method CollectFiles(infos: seq<FileInfo>, readlink: string -> Result<string>, total0: int, longest0: nat)
    returns (out: seq<FileInfo>, total: int, longest: nat, err: Option<string>)
    ensures var n := Walked(infos, readlink);
            && out == ResolvePrefix(infos, readlink, n)
            && total == total0 + SizeSum(infos[..n])
            && longest == Max(longest0, LongestName(infos[..n]))
    ensures match FirstUnreadable(infos, readlink)
            case None => err.None?
            case Some(k) => err == Resolve(infos[k], readlink).1
  {
    out := infos;
    total := total0;
    longest := longest0;
    var i := 0;
    while i < |infos|
      invariant 0 <= i <= |infos|
      invariant total == total0 + SizeSum(infos[..i])
      invariant longest == Max(longest0, LongestName(infos[..i]))
      invariant forall j :: 0 <= j < i ==> LinkReadable(infos[j], readlink)
      invariant out == ResolvePrefix(infos, readlink, i)
    {
      CollectStep(infos, readlink, i);
      if |infos[i].name| > longest {
        longest := |infos[i].name|;
      }
      var res := Resolve(infos[i], readlink);
      out := out[i := res.0];
      total := total + infos[i].size;
      if res.1.Some? {
        FirstUnreadableAt(infos, readlink, i);
        return out, total, longest, res.1;
      }
      i := i + 1;
    }
    assert infos[..|infos|] == infos;
    err := None;
  }

  /** What one more step of the walk adds to the totals and to the resolved prefix. */
  lemma CollectStep(infos: seq<FileInfo>, readlink: string -> Result<string>, i: nat)
    requires i < |infos|
    ensures SizeSum(infos[..i + 1]) == SizeSum(infos[..i]) + infos[i].size
    ensures LongestName(infos[..i + 1]) == Max(LongestName(infos[..i]), |infos[i].name|)
    ensures ResolvePrefix(infos, readlink, i)[i := Resolve(infos[i], readlink).0] == ResolvePrefix(infos, readlink, i + 1)
  {
    assert infos[..i + 1][..i] == infos[..i];
  }

  /** An unreadable link preceded only by readable ones is the first unreadable one. */
  lemma FirstUnreadableAt(infos: seq<FileInfo>, readlink: string -> Result<string>, i: nat)
    requires i < |infos| && !LinkReadable(infos[i], readlink)
    requires forall j :: 0 <= j < i ==> LinkReadable(infos[j], readlink)
    ensures FirstUnreadable(infos, readlink) == Some(i)
    ensures Walked(infos, readlink) == i + 1
  {
  }

  /** The FileStat answer: total size, number of files and number of folders, as JSON. */
  function FileStatReply(c: JsonCodec, s: Sender): (m: Message)
    ensures m.messageType == FileStat && m.payload.Some?
  {
    NewMessage(FileStat, Bytes(c, JsonProtocol, Payload.Stat(FileStatPayload(s.totalFilesSize, |s.fs.filesInfo|, s.fs.totalNumberFolders))).value)
  }

  /** The receiver reads back the sender's totals from its FileStat reply. */
  lemma FileStatReplyParses(c: JsonCodec, s: Sender)
    requires Faithful(c)
    ensures FileStatReply(c, s).messageType == FileStat
    ensures ParseMessagePayload(c, Some(FileStatReply(c, s)))
            == Ok(Some(Payload.Stat(FileStatPayload(s.totalFilesSize, |s.fs.filesInfo|, s.fs.totalNumberFolders))))
  {
    JsonRoundTrip(c, Payload.Stat(FileStatPayload(s.totalFilesSize, |s.fs.filesInfo|, s.fs.totalNumberFolders)));
  }

  // ---------------------------------------------------------------------------
  // Chunked reading of one file
  // ---------------------------------------------------------------------------

  function Min(a: int, b: int): int {
    if a < b then a else b
  }

  datatype ReadResult = ReadResult(data: seq<byte>, eof: bool)

  /**
   * `ReadAt` with a buffer of `ChunkSize` bytes: all the bytes left, up to
   * the buffer size, and io.EOF exactly when the buffer could not be filled.
   */
  function ReadAt(content: seq<byte>, pos: nat): (r: ReadResult)
    requires pos <= |content|
    ensures |r.data| == Min(ChunkSize, |content| - pos)
    ensures r.data == content[pos..pos + |r.data|]
    ensures r.eof <==> |r.data| < ChunkSize
  {
    var n := Min(ChunkSize, |content| - pos);
    ReadResult(content[pos..pos + n], n < ChunkSize)
  }

  /** One chunk as the sender describes it: raw bytes, position after them, and the end flag. */
  datatype Chunk = Chunk(data: seq<byte>, position: int, eof: bool)

  /** The chunks the streaming loop reads from `pos` on, one per `ReadAt`, the last one at io.EOF. */
  function FileChunks(content: seq<byte>, pos: nat): (cs: seq<Chunk>)
    requires pos <= |content|
    ensures |cs| > 0 && cs[|cs| - 1].eof
    decreases |content| - pos
  {
    var r := ReadAt(content, pos);
    var ch := Chunk(r.data, pos + |r.data|, r.eof);
    if r.eof then [ch] else [ch] + FileChunks(content, pos + |r.data|)
  }

  function ConcatData(cs: seq<Chunk>): seq<byte>
    decreases |cs|
  {
    if cs == [] then [] else cs[0].data + ConcatData(cs[1..])
  }

  lemma {:induction false} ConcatDataAppend(a: seq<Chunk>, b: seq<Chunk>)
    ensures ConcatData(a + b) == ConcatData(a) + ConcatData(b)
    decreases |a|
  {
    if a != [] {
      assert (a + b)[1..] == a[1..] + b;
      ConcatDataAppend(a[1..], b);
    } else {
      assert a + b == b;
    }
  }

  lemma DivStep(n: int)
    requires n >= ChunkSize
    ensures n / ChunkSize == (n - ChunkSize) / ChunkSize + 1
    ensures n % ChunkSize == (n - ChunkSize) % ChunkSize
  {
  }

  /**
   * A file read from `pos` gives one chunk per full buffer plus a final one,
   * and the final chunk is empty exactly when the remaining length is a
   * multiple of the buffer size.
   */
  lemma {:induction false} FileChunksCount(content: seq<byte>, pos: nat)
    requires pos <= |content|
    ensures var cs := FileChunks(content, pos);
            && |cs| == (|content| - pos) / ChunkSize + 1
            && (cs[|cs| - 1].data == [] <==> (|content| - pos) % ChunkSize == 0)
    decreases |content| - pos
  {
    var r := ReadAt(content, pos);
    if !r.eof {
      FileChunksCount(content, pos + ChunkSize);
      DivStep(|content| - pos);
      var rest := FileChunks(content, pos + ChunkSize);
      assert FileChunks(content, pos)[1..] == rest;
    }
  }

  /**
   * Exactly the last chunk is marked EOF, every earlier chunk holds a full
   * buffer, and the last position is the file length.
   */
  lemma {:induction false} FileChunksEnd(content: seq<byte>, pos: nat)
    requires pos <= |content|
    ensures var cs := FileChunks(content, pos);
            && |cs| > 0 && cs[|cs| - 1].eof && cs[|cs| - 1].position == |content|
            && (forall i :: 0 <= i < |cs| - 1 ==> !cs[i].eof && |cs[i].data| == ChunkSize)
    decreases |content| - pos
  {
    var r := ReadAt(content, pos);
    if !r.eof {
      FileChunksEnd(content, pos + ChunkSize);
      var cs := FileChunks(content, pos);
      var rest := FileChunks(content, pos + ChunkSize);
      assert forall i :: 1 <= i < |cs| ==> cs[i] == rest[i - 1];
    }
  }

  /**
   * The chunks' bytes put together are the rest of the file, and each chunk's
   * position is `pos` plus the bytes read up to and including it.
   */
  lemma {:induction false} FileChunksData(content: seq<byte>, pos: nat)
    requires pos <= |content|
    ensures var cs := FileChunks(content, pos);
            && ConcatData(cs) == content[pos..]
            && (forall i :: 0 <= i < |cs| ==> cs[i].position == pos + |ConcatData(cs[..i + 1])|)
    decreases |content| - pos
  {
    var cs := FileChunks(content, pos);
    var r := ReadAt(content, pos);
    var ch := Chunk(r.data, pos + |r.data|, r.eof);
    assert ConcatData([ch]) == ch.data + ConcatData([]);
    if r.eof {
      assert cs == [ch] && cs[..1] == [ch];
    } else {
      var rest := FileChunks(content, pos + ChunkSize);
      FileChunksData(content, pos + ChunkSize);
      assert cs == [ch] + rest;
      ConcatDataAppend([ch], rest);
      assert content[pos..] == r.data + content[pos + ChunkSize..];
      forall i | 0 <= i < |cs|
        ensures cs[i].position == pos + |ConcatData(cs[..i + 1])|
      {
        if i == 0 {
          assert cs[..1] == [ch];
        } else {
          assert cs[..i + 1] == [ch] + rest[..i];
          ConcatDataAppend([ch], rest[..i]);
        }
      }
    }
  }

  // ---------------------------------------------------------------------------
  // Messages of the transfer
  // ---------------------------------------------------------------------------

  /** A FileInfo message describing one entry, as JSON. */
  function FileInfoMessage(c: JsonCodec, f: FileInfo): Message {
    NewMessage(MessageType.FileInfo, Bytes(c, JsonProtocol, Info(FileInfoPayload(Some(f)))).value)
  }

  /** A FileData message for one chunk: its compressed bytes, position and end flag, as JSON. */
  function DataMessage(c: JsonCodec, compress: seq<byte> -> seq<byte>, ch: Chunk): Message {
    NewMessage(FileData, Bytes(c, JsonProtocol, Data(FileDataPayload(Some(compress(ch.data)), ch.position, ch.eof))).value)
  }

  function DataMessages(c: JsonCodec, compress: seq<byte> -> seq<byte>, cs: seq<Chunk>): (ms: seq<Message>)
    ensures |ms| == |cs|
    ensures forall i :: 0 <= i < |cs| ==> ms[i] == DataMessage(c, compress, cs[i])
  {
    seq(|cs|, i requires 0 <= i < |cs| => DataMessage(c, compress, cs[i]))
  }

  /** With a faithful codec the receiver decodes a FileData message back into the chunk it carries. */
  lemma DataMessageParses(c: JsonCodec, compress: seq<byte> -> seq<byte>, ch: Chunk)
    requires Faithful(c)
    ensures DataMessage(c, compress, ch).messageType == FileData
    ensures ParseMessagePayload(c, Some(DataMessage(c, compress, ch)))
            == Ok(Some(Data(FileDataPayload(Some(compress(ch.data)), ch.position, ch.eof))))
  {
    JsonRoundTrip(c, Data(FileDataPayload(Some(compress(ch.data)), ch.position, ch.eof)));
  }

  const FileFinishMessage: Message := NewMessage(FileFinish, None)

  /** Whether the `k`-th send on a stream that accepts `budget` sends gets through. */
  predicate LinkUp(budget: Option<nat>, k: nat) {
    budget.None? || k < budget.value
  }

  /** A file on disk: its bytes, and the `ReadAt` call (counted from 0) that fails with an I/O error, if any. */
  datatype FileContent = FileContent(bytes: seq<byte>, failAt: Option<nat>)

  /** The result of streaming one file: whether it finished, and the chunks handed to the stream. */
  datatype Streamed = Streamed(ok: bool, chunks: seq<Chunk>)

  /**
   * The streaming loop of one file from read number `k` at `pos`, on a stream
   * that has already carried `already` messages: each read becomes one
   * FileData message; an I/O error or a failed send stops the transfer, the
   * EOF chunk ends the file.
   */
  function StreamFile(file: FileContent, budget: Option<nat>, already: nat, k: nat, pos: nat): (r: Streamed)
    requires pos <= |file.bytes|
    ensures r.ok ==> |r.chunks| > 0 && r.chunks[|r.chunks| - 1].eof
    ensures r.ok ==> LinkUp(budget, already + |r.chunks| - 1)
    decreases |file.bytes| - pos
  {
    if file.failAt == Some(k) then Streamed(false, [])
    else
      var rd := ReadAt(file.bytes, pos);
      var ch := Chunk(rd.data, pos + |rd.data|, rd.eof);
      if !LinkUp(budget, already) then Streamed(false, [ch])
      else if rd.eof then Streamed(true, [ch])
      else
        var rest := StreamFile(file, budget, already + 1, k + 1, pos + |rd.data|);
        Streamed(rest.ok, [ch] + rest.chunks)
  }

  /**
   * Whatever happens, the chunks the loop hands to the stream are a prefix of
   * the file's chunking, in order; all of them exactly when it finishes.
   */
  lemma {:induction false} StreamFileSendsChunks(file: FileContent, budget: Option<nat>, already: nat, k: nat, pos: nat)
    requires pos <= |file.bytes|
    ensures var r := StreamFile(file, budget, already, k, pos);
            var all := FileChunks(file.bytes, pos);
            && |r.chunks| <= |all|
            && r.chunks == all[..|r.chunks|]
            && (r.ok ==> r.chunks == all)
    decreases |file.bytes| - pos
  {
    if file.failAt != Some(k) {
      var rd := ReadAt(file.bytes, pos);
      var ch := Chunk(rd.data, pos + |rd.data|, rd.eof);
      if LinkUp(budget, already) && !rd.eof {
        var all' := FileChunks(file.bytes, pos + |rd.data|);
        assert FileChunks(file.bytes, pos) == [ch] + all';
        var rest := StreamFile(file, budget, already + 1, k + 1, pos + |rd.data|);
        assert StreamFile(file, budget, already, k, pos) == Streamed(rest.ok, [ch] + rest.chunks);
        StreamFileSendsChunks(file, budget, already + 1, k + 1, pos + |rd.data|);
        PrefixCons(ch, all', |rest.chunks|);
      }
    }
  }

  /** Taking a prefix commutes with putting an element in front. */
  lemma PrefixCons<T>(x: T, s: seq<T>, n: nat)
    requires n <= |s|
    ensures ([x] + s)[..n + 1] == [x] + s[..n]
  {
  }

  /** With no I/O error and a healthy stream, the loop finishes having sent every chunk. */
  lemma {:induction false} StreamFileComplete(bytes: seq<byte>, already: nat, k: nat, pos: nat)
    requires pos <= |bytes|
    ensures StreamFile(FileContent(bytes, None), None, already, k, pos) == Streamed(true, FileChunks(bytes, pos))
    decreases |bytes| - pos
  {
    var rd := ReadAt(bytes, pos);
    if !rd.eof {
      StreamFileComplete(bytes, already + 1, k + 1, pos + |rd.data|);
    }
  }

  /** A read error before the last chunk stops the loop with exactly the chunks read before it. */
  lemma {:induction false} StreamFileReadError(bytes: seq<byte>, j: nat, already: nat, k: nat, pos: nat)
    requires pos <= |bytes| && k <= j < k + |FileChunks(bytes, pos)|
    ensures StreamFile(FileContent(bytes, Some(j)), None, already, k, pos)
            == Streamed(false, FileChunks(bytes, pos)[..j - k])
    decreases |bytes| - pos
  {
    if j != k {
      var rd := ReadAt(bytes, pos);
      var ch := Chunk(rd.data, pos + |rd.data|, rd.eof);
      var all' := FileChunks(bytes, pos + |rd.data|);
      assert !rd.eof;
      assert FileChunks(bytes, pos) == [ch] + all';
      var rest := StreamFile(FileContent(bytes, Some(j)), None, already + 1, k + 1, pos + |rd.data|);
      assert StreamFile(FileContent(bytes, Some(j)), None, already, k, pos) == Streamed(rest.ok, [ch] + rest.chunks);
      StreamFileReadError(bytes, j, already + 1, k + 1, pos + |rd.data|);
      PrefixCons(ch, all', j - k - 1);
    }
  }

  /**
   * A failed send stops the loop: when the stream breaks on the send of chunk
   * `b - already`, exactly the chunks up to and including that one were handed
   * to it, and no further chunk is read or sent.
   */
  lemma {:induction false} StreamFileSendFailure(bytes: seq<byte>, b: nat, already: nat, k: nat, pos: nat)
    requires pos <= |bytes| && already <= b < already + |FileChunks(bytes, pos)|
    ensures StreamFile(FileContent(bytes, None), Some(b), already, k, pos)
            == Streamed(false, FileChunks(bytes, pos)[..b - already + 1])
    decreases |bytes| - pos
  {
    var rd := ReadAt(bytes, pos);
    var ch := Chunk(rd.data, pos + |rd.data|, rd.eof);
    if b == already {
      assert FileChunks(bytes, pos)[..1] == [ch];
    } else {
      var all' := FileChunks(bytes, pos + |rd.data|);
      assert !rd.eof;
      assert FileChunks(bytes, pos) == [ch] + all';
      var rest := StreamFile(FileContent(bytes, None), Some(b), already + 1, k + 1, pos + |rd.data|);
      assert StreamFile(FileContent(bytes, None), Some(b), already, k, pos) == Streamed(rest.ok, [ch] + rest.chunks);
      StreamFileSendFailure(bytes, b, already + 1, k + 1, pos + |rd.data|);
      PrefixCons(ch, all', b - already);
    }
  }

  // ---------------------------------------------------------------------------
  // The transfer started by AgreeReceive
  // ---------------------------------------------------------------------------

  /** What the receiver answered about the file just announced. */
  datatype Answer = Skip(rest: seq<Message>) | Ready(rest: seq<Message>) | Starved

  /** A message that answers a FileInfo announcement. */
  predicate IsAnswer(m: Message) {
    m.messageType == SkipFile || m.messageType == ReadyForReceive
  }

  /**
   * The wait on `fileHandleMsg`: the first SkipFile or ReadyForReceive decides;
   * any other message before it is taken and dropped; with none left the
   * sender waits forever.
   */
  function Handshake(inbox: seq<Message>): (a: Answer)
    ensures a.Starved? <==> forall i :: 0 <= i < |inbox| ==> !IsAnswer(inbox[i])
    decreases |inbox|
  {
    if inbox == [] then Starved
    else if inbox[0].messageType == SkipFile then Skip(inbox[1..])
    else if inbox[0].messageType == ReadyForReceive then Ready(inbox[1..])
    else
      var a := Handshake(inbox[1..]);
      assert forall i :: 1 <= i < |inbox| ==> inbox[1..][i - 1] == inbox[i];
      a
  }

  /** The first answer in the inbox decides the handshake, and everything after it stays queued. */
  lemma {:induction false} HandshakeFirstAnswer(inbox: seq<Message>, i: nat)
    requires i < |inbox| && IsAnswer(inbox[i])
    requires forall j :: 0 <= j < i ==> !IsAnswer(inbox[j])
    ensures Handshake(inbox) == if inbox[i].messageType == SkipFile then Skip(inbox[i + 1..]) else Ready(inbox[i + 1..])
    decreases i
  {
    if i > 0 {
      var tail := inbox[1..];
      assert tail[i - 1] == inbox[i] && tail[i..] == inbox[i + 1..];
      assert forall j :: 0 <= j < i - 1 ==> tail[j] == inbox[j + 1];
      HandshakeFirstAnswer(tail, i - 1);
    }
  }

  /**
   * How the transfer ended: all files handled, stopped after an error (Done
   * called), returned silently after a file could not be opened, or waiting
   * forever for the receiver's answer.
   */
  datatype Outcome = Completed | Aborted | Returned | Waiting

  datatype Transfer = Transfer(outcome: Outcome, sent: seq<Message>, inbox: seq<Message>)

  /**
   * The AgreeReceive loop from file `i` on: announce the file, wait for the
   * answer, then skip it (the last file skipped is followed by FileFinish) or
   * stream it.
   */
  function SendFiles(c: JsonCodec, compress: seq<byte> -> seq<byte>, infos: seq<FileInfo>, i: nat,
                     disk: (string, string) -> Option<FileContent>, budget: Option<nat>,
                     sent: seq<Message>, inbox: seq<Message>): (t: Transfer)
    requires i <= |infos|
    ensures sent <= t.sent
    ensures t.outcome == Waiting ==> t.inbox == []
    decreases |infos| - i
  {
    if i == |infos| then Transfer(Completed, sent, inbox)
    else
      var info := infos[i];
      var announce := sent + [FileInfoMessage(c, info)];
      if !LinkUp(budget, |sent|) then Transfer(Aborted, announce, inbox)
      else
        match Handshake(inbox)
        case Starved => Transfer(Waiting, announce, [])
        case Skip(rest) =>
          var after := if i == |infos| - 1 then announce + [FileFinishMessage] else announce;
          SendFiles(c, compress, infos, i + 1, disk, budget, after, rest)
        case Ready(rest) =>
          match disk(info.folderSource, info.name)
          case None => Transfer(Returned, announce, rest)
          case Some(file) =>
            var st := StreamFile(file, budget, |announce|, 0, 0);
            var streamed := announce + DataMessages(c, compress, st.chunks);
            if st.ok then SendFiles(c, compress, infos, i + 1, disk, budget, streamed, rest)
            else Transfer(Aborted, streamed, rest)
  }

  const ReadyMessage: Message := NewMessage(ReadyForReceive, None)
  const SkipMessage: Message := NewMessage(SkipFile, None)

  /** The messages a complete transfer of files `i..` sends when the receiver accepts every one. */
  function ExpectedStream(c: JsonCodec, compress: seq<byte> -> seq<byte>, infos: seq<FileInfo>, i: nat,
                          contents: seq<seq<byte>>): seq<Message>
    requires i <= |infos| == |contents|
    decreases |infos| - i
  {
    if i == |infos| then []
    else [FileInfoMessage(c, infos[i])] + DataMessages(c, compress, FileChunks(contents[i], 0))
         + ExpectedStream(c, compress, infos, i + 1, contents)
  }

  /** One accepted, readable file on a healthy stream: it is announced and streamed whole, then the next one follows. */
  lemma SendFilesReadyStep(c: JsonCodec, compress: seq<byte> -> seq<byte>, infos: seq<FileInfo>, i: nat,
                           bytes: seq<byte>, disk: (string, string) -> Option<FileContent>,
                           sent: seq<Message>, rest: seq<Message>)
    requires i < |infos|
    requires disk(infos[i].folderSource, infos[i].name) == Some(FileContent(bytes, None))
    ensures SendFiles(c, compress, infos, i, disk, None, sent, [ReadyMessage] + rest)
            == SendFiles(c, compress, infos, i + 1, disk, None,
                         sent + [FileInfoMessage(c, infos[i])] + DataMessages(c, compress, FileChunks(bytes, 0)), rest)
  {
    assert ([ReadyMessage] + rest)[1..] == rest;
    SendFilesReadyUnfold(c, compress, infos, i, FileContent(bytes, None), disk, None, sent, [ReadyMessage] + rest, rest);
    var announce := sent + [FileInfoMessage(c, infos[i])];
    StreamFileComplete(bytes, |announce|, 0, 0);
    var st := StreamFile(FileContent(bytes, None), None, |announce|, 0, 0);
    assert st.ok && st.chunks == FileChunks(bytes, 0);
  }

  /** One step of the loop for a file the receiver accepted and the disk can open. */
  lemma SendFilesReadyUnfold(c: JsonCodec, compress: seq<byte> -> seq<byte>, infos: seq<FileInfo>, i: nat,
                             file: FileContent, disk: (string, string) -> Option<FileContent>, budget: Option<nat>,
                             sent: seq<Message>, inbox: seq<Message>, rest: seq<Message>)
    requires i < |infos| && LinkUp(budget, |sent|) && Handshake(inbox) == Ready(rest)
    requires disk(infos[i].folderSource, infos[i].name) == Some(file)
    ensures var announce := sent + [FileInfoMessage(c, infos[i])];
            var st := StreamFile(file, budget, |announce|, 0, 0);
            var streamed := announce + DataMessages(c, compress, st.chunks);
            SendFiles(c, compress, infos, i, disk, budget, sent, inbox)
            == if st.ok then SendFiles(c, compress, infos, i + 1, disk, budget, streamed, rest)
               else Transfer(Aborted, streamed, rest)
  {
  }

  /**
   * With a healthy stream, readable files and a ReadyForReceive for each file,
   * the transfer completes, and for each file in order it sends the file's
   * FileInfo followed by the FileData messages of all its chunks.
   */
  lemma {:induction false} SendFilesAllAccepted(c: JsonCodec, compress: seq<byte> -> seq<byte>, infos: seq<FileInfo>,
                                                i: nat, contents: seq<seq<byte>>,
                                                disk: (string, string) -> Option<FileContent>, sent: seq<Message>)
    requires i <= |infos| == |contents|
    requires forall j :: 0 <= j < |infos| ==>
               disk(infos[j].folderSource, infos[j].name) == Some(FileContent(contents[j], None))
    ensures SendFiles(c, compress, infos, i, disk, None, sent, ReadyMessages(|infos| - i))
            == Transfer(Completed, sent + ExpectedStream(c, compress, infos, i, contents), [])
    decreases |infos| - i
  {
    if i < |infos| {
      var head := [FileInfoMessage(c, infos[i])] + DataMessages(c, compress, FileChunks(contents[i], 0));
      var later := ExpectedStream(c, compress, infos, i + 1, contents);
      assert ExpectedStream(c, compress, infos, i, contents) == head + later;
      assert sent + head + later == sent + (head + later);
      AcceptedStep(c, compress, infos, i, contents[i], disk, sent);
      SendFilesAllAccepted(c, compress, infos, i + 1, contents, disk, sent + head);
    }
  }

  /** `n` ReadyForReceive answers in a row. */
  function ReadyMessages(n: nat): (ms: seq<Message>)
    ensures |ms| == n
    ensures forall j :: 0 <= j < n ==> ms[j] == ReadyMessage
  {
    seq(n, _ => ReadyMessage)
  }

  /** The inductive step of `SendFilesAllAccepted`: the first file's messages, then the transfer of the rest. */
  lemma AcceptedStep(c: JsonCodec, compress: seq<byte> -> seq<byte>, infos: seq<FileInfo>,
                     i: nat, bytes: seq<byte>, disk: (string, string) -> Option<FileContent>, sent: seq<Message>)
    requires i < |infos|
    requires disk(infos[i].folderSource, infos[i].name) == Some(FileContent(bytes, None))
    ensures var head := [FileInfoMessage(c, infos[i])] + DataMessages(c, compress, FileChunks(bytes, 0));
            SendFiles(c, compress, infos, i, disk, None, sent, ReadyMessages(|infos| - i))
            == SendFiles(c, compress, infos, i + 1, disk, None, sent + head, ReadyMessages(|infos| - (i + 1)))
  {
    var rest := ReadyMessages(|infos| - (i + 1));
    assert ReadyMessages(|infos| - i) == [ReadyMessage] + rest;
    var dm := DataMessages(c, compress, FileChunks(bytes, 0));
    assert sent + [FileInfoMessage(c, infos[i])] + dm == sent + ([FileInfoMessage(c, infos[i])] + dm);
    SendFilesReadyStep(c, compress, infos, i, bytes, disk, sent, rest);
  }

  /**
   * SkipFile, for any file on a healthy stream: the file is announced and not
   * streamed, FileFinish follows exactly when it is the last file, and the
   * transfer goes on with the next file and the rest of the inbox.
   */
  lemma SendFilesSkipStep(c: JsonCodec, compress: seq<byte> -> seq<byte>, infos: seq<FileInfo>, i: nat,
                          disk: (string, string) -> Option<FileContent>, budget: Option<nat>,
                          sent: seq<Message>, inbox: seq<Message>, rest: seq<Message>)
    requires i < |infos| && LinkUp(budget, |sent|) && Handshake(inbox) == Skip(rest)
    ensures SendFiles(c, compress, infos, i, disk, budget, sent, inbox)
            == SendFiles(c, compress, infos, i + 1, disk, budget,
                         sent + [FileInfoMessage(c, infos[i])]
                         + (if i == |infos| - 1 then [FileFinishMessage] else []), rest)
  {
    var announce := sent + [FileInfoMessage(c, infos[i])];
    assert announce + [] == announce;
  }

  /** Skipping the only file ends the transfer with FileFinish after its FileInfo. */
  lemma SkipLastFileFinishes(c: JsonCodec, compress: seq<byte> -> seq<byte>, f: FileInfo,
                             disk: (string, string) -> Option<FileContent>)
    ensures SendFiles(c, compress, [f], 0, disk, None, [], [SkipMessage])
            == Transfer(Completed, [FileInfoMessage(c, f), FileFinishMessage], [])
  {
    assert Handshake([SkipMessage]) == Skip([]);
  }

  /** Skipping a file that is not the last sends no FileFinish: the next file is announced right away. */
  lemma SkipMiddleFileContinues(c: JsonCodec, compress: seq<byte> -> seq<byte>, f: FileInfo, g: FileInfo,
                                disk: (string, string) -> Option<FileContent>)
    ensures SendFiles(c, compress, [f, g], 0, disk, None, [], [SkipMessage])
            == Transfer(Waiting, [FileInfoMessage(c, f), FileInfoMessage(c, g)], [])
  {
    assert Handshake([SkipMessage]) == Skip([]);
    assert Handshake([]) == Starved;
  }

  // ---------------------------------------------------------------------------
  // Done, and the reaction to each message
  // ---------------------------------------------------------------------------

  function HasSuffix(s: string, suffix: string): bool {
    |suffix| <= |s| && s[|s| - |suffix|..] == suffix
  }

  /** The names removed by `Done`, as written: with zip on, every entry whose name ends in ".zip". */
  function DoneRemovalsAsWritten(s: Sender): (names: seq<string>)
    ensures !s.opt.zip ==> names == []
    ensures s.opt.zip ==> forall n :: n in names <==> exists f :: f in s.fs.filesInfo && f.name == n && HasSuffix(n, ".zip")
  {
    if !s.opt.zip then []
    else
      Names(s.fs.filesInfo, (f: FileInfo) => HasSuffix(f.name, ".zip"))
  }

  /** The names of the entries that satisfy `keep`, in order. */
  function Names(infos: seq<FileInfo>, keep: FileInfo -> bool): (names: seq<string>)
    ensures forall n :: n in names <==> exists f :: f in infos && keep(f) && f.name == n
    decreases |infos|
  {
    if infos == [] then []
    else
      var rest := Names(infos[1..], keep);
      assert forall f :: f in infos <==> f == infos[0] || f in infos[1..];
      (if keep(infos[0]) then [infos[0].name] else []) + rest
  }

  /**
   * A user's own file "a.zip" sent with zip on (a plain file, so not an
   * archive the sender made) is removed by `Done` as written.
   */
  lemma DoneRemovesUserZip(s: Sender, f: FileInfo)
    requires s.opt.zip && s.fs.filesInfo == [f] && f.name == "a.zip" && !f.tempFile
    ensures "a.zip" in DoneRemovalsAsWritten(s)
  {
    assert HasSuffix(f.name, ".zip");
  }

  /** The names removed by `Done` as evidently intended: only the temporary archives the sender created. */
  function DoneRemovals(s: Sender): (names: seq<string>)
    ensures !s.opt.zip ==> names == []
    ensures s.opt.zip ==> forall n :: n in names <==> exists f :: f in s.fs.filesInfo && f.tempFile && f.name == n
  {
    if !s.opt.zip then [] else Names(s.fs.filesInfo, (f: FileInfo) => f.tempFile)
  }

  /** A plain file is never removed by the corrected `Done`, whatever its name. */
  lemma DoneKeepsUserFiles(s: Sender, n: string)
    requires forall f :: f in s.fs.filesInfo && f.name == n ==> !f.tempFile
    ensures n !in DoneRemovals(s)
  {
  }

  /**
   * How a handler call ended: it returned with the sender still waiting, it
   * called `Done`, it ended the program, it panicked, or it never returns.
   */
  datatype Status = Idle | Finished | Exited | Panicked | Blocked

  datatype Reaction = Reaction(sender: Sender, sent: seq<Message>, status: Status, removed: seq<string>)

  /** LocalNetworkMode as written: `gc.Stop()` on a sender that never created a relay client panics. */
  function StopRelayClientAsWritten(s: Sender): (r: Reaction)
    ensures r.status == Panicked <==> !s.hasRelayClient
    ensures r.status != Panicked ==> r.status == Idle && !r.sender.hasRelayClient
  {
    if !s.hasRelayClient then Reaction(s, [], Panicked, [])
    else Reaction(s.(hasRelayClient := false), [], Idle, [])
  }

  /** A sender started in local-network mode has no relay client and crashes on LocalNetworkMode. */
  lemma LocalModeSenderPanics(opt: SenderOptions)
    requires !IsBlank(opt.shareCode) && opt.localNetwork
    ensures StopRelayClientAsWritten(NewSender(opt).value).status == Panicked
  {
  }

  /** LocalNetworkMode as evidently intended: the relay client is stopped if there is one. */
  function StopRelayClient(s: Sender): (r: Reaction)
    ensures r.status == Idle && !r.sender.hasRelayClient && r.sent == []
    ensures r.sender == s.(hasRelayClient := false)
  {
    Reaction(s.(hasRelayClient := false), [], Idle, [])
  }

  function Finish(s: Sender, sent: seq<Message>): Reaction {
    Reaction(s, sent, Finished, DoneRemovals(s))
  }

  /** The inputs a handler call consults: link lookup, the disk, the stream's health and later arrivals. */
  datatype Environment = Environment(
    readlink: string -> Result<string>,
    disk: (string, string) -> Option<FileContent>,
    budget: Option<nat>,
    arrivals: seq<Message>)

  /**
   * `Sender.HandleMessage`. For AgreeReceive, the control messages already
   * queued plus `env.arrivals` (those the receiver's answers will queue) feed
   * the handshakes.
   */
  method HandleMessage(s: Sender, c: JsonCodec, compress: seq<byte> -> seq<byte>, msg: Message, env: Environment)
    returns (r: Reaction)
    ensures msg.messageType in {Interrupt, Cancel, CreateChannelFailed, RefuseReceive} ==>
              r == Reaction(s, [], Finished, DoneRemovals(s))
    ensures msg.messageType == LocalNetworkMode ==> r == StopRelayClient(s)
    ensures msg.messageType == CreateChannelSuccess ==>
              r.sent == [] && (r.status == Exited <==> FirstUnreadable(s.fs.filesInfo, env.readlink).Some?)
              && (r.status != Exited ==>
                    r.status == Idle && r.sender.totalFilesSize == s.totalFilesSize + SizeSum(s.fs.filesInfo))
    ensures msg.messageType == GetFileStat ==>
              r.sent == [FileStatReply(c, s)] && r.sender == s
              && (r.status == Finished <==> !LinkUp(env.budget, 0))
              && (r.status != Finished ==> r.status == Idle)
    ensures msg.messageType in {SkipFile, ReadyForReceive, FileFinish} ==>
              r.sent == []
              && (r.status == Blocked <==> |s.queue| >= HandleQueueCapacity)
              && (r.status != Blocked ==> r.status == Idle && r.sender.queue == s.queue + [msg])
    ensures msg.messageType == AgreeReceive ==>
              var t := SendFiles(c, compress, s.fs.filesInfo, 0, env.disk, env.budget, [], s.queue + env.arrivals);
              && r.sent == t.sent
              && (r.status == Finished <==> t.outcome in {Completed, Aborted})
              && (r.status == Blocked <==> t.outcome == Waiting)
              && (t.outcome == Returned ==> r.status == Idle)
    ensures msg.messageType in {CreateChannel, CreateChannelSuccess, JoinChannel, JoinChannelSuccess, JoinChannelFailed,
                                ChannelNotFound, ChannelFull, FileStat, MessageType.FileInfo, FileData, Ping, Failed} &&
            msg.messageType != CreateChannelSuccess ==>
              r == Reaction(s, [], Idle, [])
  {
    match msg.messageType {
      case LocalNetworkMode =>
        r := StopRelayClient(s);
      case Interrupt =>
        r := Finish(s, []);
      case Cancel =>
        r := Finish(s, []);
      case CreateChannelFailed =>
        r := Finish(s, []);
      case RefuseReceive =>
        r := Finish(s, []);
      case CreateChannelSuccess =>
        var out, total, longest, err := CollectFiles(s.fs.filesInfo, env.readlink, s.totalFilesSize, s.longestFilename);
        var s' := s.(totalFilesSize := total, longestFilename := longest, fs := s.fs.(filesInfo := out));
        if err.Some? {
          r := Reaction(s', [], Exited, []);
        } else {
          assert s.fs.filesInfo[..|s.fs.filesInfo|] == s.fs.filesInfo;
          r := Reaction(s', [], Idle, []);
        }
      case GetFileStat =>
        var reply := FileStatReply(c, s);
        if LinkUp(env.budget, 0) {
          r := Reaction(s, [reply], Idle, []);
        } else {
          r := Finish(s, [reply]);
        }
      case SkipFile =>
        r := Enqueue(s, msg);
      case ReadyForReceive =>
        r := Enqueue(s, msg);
      case FileFinish =>
        r := Enqueue(s, msg);
      case AgreeReceive =>
        var t := SendFiles(c, compress, s.fs.filesInfo, 0, env.disk, env.budget, [], s.queue + env.arrivals);
        var s' := s.(queue := t.inbox);
        match t.outcome {
          case Completed => r := Finish(s', t.sent);
          case Aborted => r := Finish(s', t.sent);
          case Returned => r := Reaction(s', t.sent, Idle, []);
          case Waiting => r := Reaction(s', t.sent, Blocked, []);
        }
      case _ =>
        r := Reaction(s, [], Idle, []);
    }
  }

  /** A control message joins the `fileHandleMsg` queue, or the handler waits while it is full. */
  function Enqueue(s: Sender, msg: Message): (x: Reaction)
    ensures x.sent == [] && x.removed == []
    ensures x.status == Blocked <==> |s.queue| >= HandleQueueCapacity
    ensures x.status != Blocked ==> x == Reaction(s.(queue := s.queue + [msg]), [], Idle, [])
    ensures x.status == Blocked ==> x.sender == s
  {
    if |s.queue| < HandleQueueCapacity then Reaction(s.(queue := s.queue + [msg]), [], Idle, [])
    else Reaction(s, [], Blocked, [])
  }
}
