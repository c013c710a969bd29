# pdh protocol core in Dafny

pdh sends files between two computers, either directly on the local network
or through a relay server. The relay pairs a sender and a receiver by a share
code and pipes messages between their two connections. This project models
the protocol logic of that system as pure functions over immutable data. It
covers:

- the relay's channel table: create, join, and the periodic sweep;
- the message envelope: `NewMessage`, `Bytes`, `ParseMessagePayload`;
- the stream wrappers and their diversion flag;
- the handler lists and dispatch of the gRPC server and client;
- the pipe that links two connections;
- the sender: file statistics, size totals, the per-file skip/ready handshake, and the 32 KiB chunking loop;
- the receiver: the yes/no prompts, the skip / create / truncate / ready decision, and the write loop;
- the string helpers;
- the construction of the file set.

The network, the disk, the console, the clock, the random source and the
compressor are inputs.

- Whether a send gets through is decided by a set of open streams (`open`), or by a count of sends a stream accepts (`budget`).
- The JSON library is a record of functions (`JsonCodec`). The predicate `Faithful` says that decoding what it encoded gives the record back.
- Each connection is a `StreamId`. Its server-side wrapper is held in a map, `Endpoints`, which the relay and the pipe update.
- Every handler call and every loop iteration is one atomic step. A message queue is a `seq<Message>`.

Files, one module each:

| file | models |
|---|---|
| wrappers.dfy | `Option` and `Result` |
| string_tools.dfy | tools/string.go, plus Go's byte/string conversions |
| files.dfy | files/files.go |
| message.dfy | message/message.go |
| transmit.dfy | transmit/transmit.go, and the handler-list helpers both transports share |
| grpc_server.dfy | transmit/server/grpc_server.go |
| grpc_client.dfy | transmit/client/grpc_client.go |
| pipe.dfy | transmit/pipe/pipe.go |
| relay.dfy | relay/relay.go |
| sender.dfy | sender/sender.go |
| receiver.dfy | receiver/receiver.go |

Several places where the code does something other than what its authors
evidently meant are listed under "## Findings". Each is modelled twice, once
as written and once corrected; the rest of the model uses the corrected
version. Example: a join never marks a channel full in the code, although
its field and reply kind say it should. The relay model marks the joined
channel full, so a second visitor gets ChannelFull;
`Relay.HandleMessageAsWritten` and `Relay.SecondJoinTakesOver` show what the
code does instead (every join succeeds and the last visitor takes over).

## Model

| member | source | states |
|---|---|---|
| Relay.NewRelay | relay/relay.go:141-151 | A new relay has an empty channel table; its server has the given address and port, no connections, and the relay as its only handler |
| Relay.SendMessage | relay/relay.go:137-139 | The message goes unchanged to the given stream, and the error is nil exactly when that stream is open |
| Relay.RequestedCode | relay/relay.go:85-91 | The share code a create or join carries is exactly the payload bytes read as a string, or "" when the payload is nil |
| Relay.RequestedCodeOfRequest | relay/relay.go:85-91 | A create or join request built from a share code is read back by the relay as that same code |
| Relay.HandleShape | relay/relay.go:80-135 | Every create or join gets exactly one reply, addressed to the caller and without payload; other kinds get no reply and change nothing. No channel is ever removed, and a create never alters an existing channel |
| Relay.Handle | relay/relay.go:80-135 | Either the channel table keeps its codes, or a create with a fresh code added exactly that code and answered CreateChannelSuccess. A join answered JoinChannelSuccess was for an existing channel not marked full, and changed only that channel, now with the caller as visitor and a pipe |
| Relay.HandleMessage | relay/relay.go:80-135 | Corrected: create with a fresh non-empty code adds {owner = caller, createdAt = now, not full, no visitor, no pipe} and answers CreateChannelSuccess; otherwise CreateChannelFailed with no change. Join answers JoinChannelFailed for an empty code, ChannelNotFound for an unknown one and ChannelFull for a full one, each with no change; on an open channel it sets the visitor, starts a pipe from owner to visitor (diverting both connections), marks the channel full (the code as written never does, see `Relay.HandleMessageAsWritten`) and answers JoinChannelSuccess |
| Relay.HandleMessageAsWritten | relay/relay.go:115-125 | As written, a join never marks a channel full: if no channel is full beforehand, none is full afterwards, and no reply is ChannelFull |
| Relay.CreateFresh | relay/relay.go:92-101 | A create request for a fresh non-empty code opens a channel owned by the caller, replies CreateChannelSuccess and touches no connection |
| Relay.JoinOpen | relay/relay.go:115-125 | A join request for a channel that is not full keeps the owner and creation time, records the visitor, starts the pipe and replies JoinChannelSuccess |
| Relay.JoinFull | relay/relay.go:117-118 | A join request for a full channel is answered with ChannelFull and changes nothing |
| Relay.CreateJoinSession | relay/relay.go:84-131 | Corrected: owner creates, visitor joins: both get success replies, both connections are diverted into a running pipe, and a second visitor gets ChannelFull with the session unchanged |
| Relay.SecondJoinTakesOver | relay/relay.go:115-125 | As written, a second visitor also gets JoinChannelSuccess, replaces the first visitor and gets a new pipe |
| Relay.StopPipe | relay/relay.go:54-56 | Stopping an absent pipe does nothing; a present pipe gets its two Cancel notices, and the connection store keeps its keys |
| Relay.SweepKeys | relay/relay.go:46-75 | A finished sweep only removes channels and never adds or removes connections |
| Relay.SweepAsWritten | relay/relay.go:41-78 | The sweep as written only ever removes channels |
| Relay.SweepAsWrittenCrashes | relay/relay.go:70-71 | A channel never joined, whose owner still answers the ping and which is older than 30 minutes, makes the sweep as written dereference a nil pipe |
| Relay.Sweep | relay/relay.go:41-78 | The corrected sweep never crashes. When every pipe can be stopped, it keeps exactly the channels whose owner (and visitor, if any) answer the ping and that are not older than 30 minutes |
| Relay.SweepFiltersAll | relay/relay.go:46-75 | With every key visited and every pipe stoppable, the remaining channels are exactly the live ones, unchanged |
| Relay.SweepNeverCrashes | relay/relay.go:63-74 | Stopping a pipe only when one is present means no visiting order can crash the sweep |
| Relay.VisitKeeps | relay/relay.go:47-74 | With the channel's pipe stoppable, one visit finishes and keeps the channel exactly when both ends answer and it is young enough; otherwise it removes only that channel |
| Relay.Visit | relay/relay.go:47-74 | The owner is always pinged first. A visit that finishes keeps the channel exactly when both ends answer and it is younger than the timeout, and otherwise removes only that channel; it crashes exactly when the age check meets a channel without a pipe in the code as written; it hangs only while dropping a channel that has a pipe |
| Relay.SweepKeepsLive | relay/relay.go:46-75 | After any visiting order, the channels left are the unvisited ones plus the visited live ones, unchanged |
| Relay.SweepAgreesUnlessCrash | relay/relay.go:46-75 | The sweep as written and the corrected sweep give the same result on every tick in which the written one does not crash |
| Message.NewMessage | message/message.go:119-124 | Kind and payload are kept exactly |
| Message.Bytes | message/message.go:30-72 | Encoding never fails, and gives bytes exactly under the JSON protocol (nil under any other). `Message.JsonRoundTrip` states what those bytes decode to |
| Message.ParseMessagePayload | message/message.go:74-117 | A nil message is an error. Create/join never fail and carry the payload as the share code ("" for nil). FileStat/FileInfo/FileData with a nil payload give (nil, nil); with a payload they give the decoded record or the decoder's error. Every other kind is an "unknown message type" error |
| Message.JsonRoundTrip | message/message.go:43-112 | With a faithful codec, parsing the JSON of a FileStat, FileInfo or FileData record under its own kind gives that record back |
| Message.ShareCodeRoundTrip | message/message.go:80-85 | A share code sent as its raw bytes in a create or join message is read back unchanged |
| Transmit.NewServerStreamWrapper | transmit/transmit.go:35-40 | A new server wrapper has diversion off and an empty queue |
| Transmit.StartWriteToChannel | transmit/transmit.go:27-29 | Turns diversion on and changes nothing else |
| Transmit.StopWriteToChannel | transmit/transmit.go:31-33 | Turns diversion off and changes nothing else |
| Transmit.DiversionToggles | transmit/transmit.go:27-33 | Both toggles are idempotent, the last one wins, and start-then-stop restores a wrapper that was not diverted |
| Transmit.SetDiversion | transmit/transmit.go:27-33 | Toggling one wrapper in the store changes only its flag; the other wrappers, the queue and the stream stay as they were |
| Transmit.StreamSend | transmit/transmit.go:23-25 | The send both wrappers forward to (the client side is at transmit/transmit.go:46-48): the message goes unchanged to the stream, and the error is nil exactly when the stream is open, the stream's error otherwise |
| Transmit.NewClientStreamWrapper | transmit/transmit.go:50-54 | The client wrapper wraps the given stream |
| Transmit.AppendHandler | transmit/server/grpc_server.go:45 | The handler is appended at the end; the earlier handlers are kept in order |
| Transmit.FirstIndex | transmit/server/grpc_server.go:53-54 | The index found holds the handler and no earlier index does |
| Transmit.RemoveFirst | transmit/server/grpc_server.go:53-58 | An absent handler leaves the list unchanged; a present one makes it one shorter |
| Transmit.RemoveFirstRemovesOne | transmit/server/grpc_server.go:53-58 | Exactly one copy of the handler is removed (a multiset equation): the first one, with the handlers before and after it kept in order |
| Transmit.CallAll | transmit/server/grpc_server.go:75-77 | Every handler is called once, in list order, with the same stream and message |
| GrpcServer.NewPdhGrpcServer | transmit/server/grpc_server.go:100-107 | A new server has the given options, no handlers and no registered streams |
| GrpcServer.AddHandler | transmit/server/grpc_server.go:42-46 | The handler is appended at the end; the streams are untouched |
| GrpcServer.RemoveHandler | transmit/server/grpc_server.go:49-59 | Only the first equal handler goes and the rest keep their order; an absent handler leaves the server unchanged |
| GrpcServer.Register | transmit/server/grpc_server.go:23-28 | The accepted stream gets a fresh wrapper (diversion off, empty queue) under the generated key; every other wrapper is untouched |
| GrpcServer.Unregister | transmit/server/grpc_server.go:30-35 | When receiving fails, exactly that key is removed from the registry |
| GrpcServer.TransmitLifecycle | transmit/server/grpc_server.go:23-36 | Registering a fresh key and then unregistering it restores the server |
| GrpcServer.DispatchMessage | transmit/server/grpc_server.go:71-79 | With diversion on, the message only joins the wrapper's queue (the call waits while the queue is full) and no handler runs. With diversion off, every handler is called in order with the same wrapper and message |
| GrpcServer.DispatchKeepsQueueBound | transmit/server/grpc_server.go:72-73 | Queueing a message never takes a wrapper past the queue capacity of 10 |
| GrpcServer.SendAsWritten | transmit/server/grpc_server.go:61-69 | As written, `Send` returns an error on every path, including after a successful send |
| GrpcServer.SendAsWrittenFailsOnSuccess | transmit/server/grpc_server.go:61-69 | A send the transport accepted is reported as "send error stream is nil" |
| GrpcServer.Send | transmit/server/grpc_server.go:61-69 | Corrected: the error is nil exactly when a stream is present and open; "stream is nil" without a stream |
| GrpcClient.NewPdhGrpcClient | transmit/client/grpc_client.go:99-104 | A new client has the given target, no handlers, no service client and no stream |
| GrpcClient.AddHandler | transmit/client/grpc_client.go:51-55 | The handler is appended at the end; nothing else changes |
| GrpcClient.RemoveHandler | transmit/client/grpc_client.go:58-68 | Only the first equal handler goes and the others keep their order; nothing else changes |
| GrpcClient.DispatchMessage | transmit/client/grpc_client.go:93-97 | Every handler is called in list order with the same message and a wrapper of the current stream |
| GrpcClient.Send | transmit/client/grpc_client.go:70-79 | A restart is attempted when the stream or the service client is missing. The message then goes to the stream if there is one, with the stream's error; otherwise the result is "stream is nil" and nothing is sent |
| GrpcClient.SendRestartsThenReuses | transmit/client/grpc_client.go:70-79 | A client without a connection reconnects on its first send, which goes out on the new stream; the next send reuses that stream without restarting and leaves the client unchanged |
| GrpcClient.SendWithoutStream | transmit/client/grpc_client.go:23-79 | A new client whose reconnection fails, at the dial or at opening the stream, still has no stream, returns "stream is nil" and sends nothing |
| GrpcClient.Restart | transmit/client/grpc_client.go:23-39 | `Start` keeps the target and the handlers; after a successful dial the client holds a service client, and only a successful `Transmit` replaces the stream |
| Pipe.CreatePipe | transmit/pipe/pipe.go:79-85 | Stores both ends; not running, nothing in the one-slot quit channel, no loop yet |
| Pipe.DivertBoth | transmit/pipe/pipe.go:40-41 | Sets the diversion flag of both ends; queues, streams and every other connection are untouched |
| Pipe.Start | transmit/pipe/pipe.go:36-41 | Marks the pipe running, diverts both ends and starts the loop |
| Pipe.NotifyBoth | transmit/pipe/pipe.go:74-77 | Sends a Cancel without payload to the first end, then to the second |
| Pipe.Release | transmit/pipe/pipe.go:68-71 | After the quit value is stored: not running, and both ends released from diversion |
| Pipe.Stop | transmit/pipe/pipe.go:66-72 | Always sends both Cancels. It completes unless a quit value is already pending with no loop to take it; when it completes, the pipe is not running and both ends are released |
| Pipe.Forward | transmit/pipe/pipe.go:47-60 | The head of one side's queue goes unchanged to the other side. If that send fails, the source gets Failed("stream is closed") and the pipe stops; with a quit value already pending, the loop is stuck |
| Pipe.Step | transmit/pipe/pipe.go:43-61 | A select case that cannot proceed changes nothing; taking the quit value ends the loop and sends nothing |
| Pipe.Run | transmit/pipe/pipe.go:42-62 | A run keeps the pipe's two ends and the set of connections |
| Pipe.StepOpen | transmit/pipe/pipe.go:44-61 | While both ends are open, one iteration moves nothing, or delivers the head of one queue unchanged to the other side |
| Pipe.ForwardInOrder | transmit/pipe/pipe.go:42-62 | While both ends stay open, each side receives exactly the messages taken from the other side's queue, unchanged and in queue order, and nothing else is sent |
| Pipe.StoppedLoopIsInert | transmit/pipe/pipe.go:45-46 | Once the loop has exited, is stuck, or never started, it forwards nothing and changes nothing |
| Pipe.SecondFailureBlocksLoop | transmit/pipe/pipe.go:47-68 | Two queued messages toward a closed end: the first failure stops the pipe; the second makes the loop call `Stop` with the quit value still pending, and the loop blocks forever |
| Pipe.FailureNotices | transmit/pipe/pipe.go:49-51 | After a failed forward, the source end receives "stream is closed" and then a Cancel |
| Pipe.StopThenQuit | transmit/pipe/pipe.go:45-72 | A stop while the loop runs completes, and the loop exits on its next quit case |
| StringTools.StringOfBytes | message/message.go:83 | Go's `string(b)`: one character per byte, with the same values |
| StringTools.BytesStringRoundTrip | message/message.go:83 | Bytes to string and back gives the same bytes |
| StringTools.StringBytesRoundTrip | message/message.go:83 | A byte string to bytes and back gives the same string |
| StringTools.TrimLeft | tools/string.go:18 | Drops exactly the longest prefix of cut characters |
| StringTools.TrimRight | tools/string.go:18 | Drops exactly the longest suffix of cut characters |
| StringTools.TrimBothEmpty | tools/string.go:18 | Trimming leaves nothing exactly when every character is cut |
| StringTools.IsEmpty | tools/string.go:13-15 | True exactly for the empty string |
| StringTools.IsBlank | tools/string.go:17-19 | True exactly when every character is ' ' (tabs and newlines are not blank) |
| StringTools.EmptyIsBlank | tools/string.go:13-19 | The empty string is blank, and a non-empty blank string starts with a space |
| StringTools.TrimSpace | tools/string.go:52 | The result starts and ends with a non-white-space character, or is empty |
| StringTools.TrimSpaceUnspaced | tools/string.go:52 | A text that neither starts nor ends with white space comes back unchanged |
| StringTools.TrimSpaceSlice | tools/string.go:52 | The result is one slice of the input, with only white space before and after it |
| StringTools.ToLower | receiver/receiver.go:151 | Same length; every character lower-cased, no upper-case ASCII letter left |
| StringTools.HexDigit | tools/string.go:27 | A nibble becomes one lower-case hex digit |
| StringTools.HexByte | tools/string.go:27 | A byte becomes two lower-case hex digits |
| StringTools.HexByteRoundTrip | tools/string.go:27 | The two digits of a byte decode back to that byte |
| StringTools.Group | tools/string.go:26-27 | Each round gives 4 lower-case hex characters |
| StringTools.JoinedSnoc | tools/string.go:27-30 | Adding a part adds the separator and then the part at the end, never a trailing separator |
| StringTools.JoinedLength | tools/string.go:25-31 | n parts of width w joined by sep have w·n + (n−1)·|sep| characters |
| StringTools.Groups | tools/string.go:25-31 | Round i gives group i, for exactly n rounds |
| StringTools.GenRandStr | tools/string.go:21-33 | "" for n ≤ 0. Otherwise the n hex groups joined by `join`, of length 4n + (n−1)·|join| |
| StringTools.NatDigits | tools/string.go:38 | Non-empty and all decimal digits; the first digit is '0' exactly for 0, whose text is "0" |
| StringTools.CanonicalDigitsUnique | tools/string.go:38 | Digits without a leading zero are the `%d` text of the number they read as |
| StringTools.DecimalTextUnique | tools/string.go:38 | The `%d` text of x is canonical (optional '-', no leading zero, no "-0"), and it is the only canonical text that reads back as x |
| StringTools.NatDigitsRoundTrip | tools/string.go:38 | The digits of n read back as n |
| StringTools.DecimalRoundTrip | tools/string.go:38 | The `%d` text of any integer, negatives included, reads back as that integer |
| StringTools.ByteCountDecimal | tools/string.go:35-46 | b < 1024 (negatives included) gives a text ending in " B" whose number is canonical `%d` text (no leading zeros) reading back as b, hence exactly the `%d` text of b. Otherwise it gives a divisor 1024^(exp+1) with div ≤ b < 1024·div, exp ≤ 5, and the unit letter "kMGTPE"[exp] |
| StringTools.SelectUnit | tools/string.go:40-44 | The loop picks the largest power of 1024 (at least 1024) not above b, and stays within "kMGTPE" for every int64 |
| Files.StripTrailingSlashes | files/files.go:64-67 | Drops exactly the trailing separators |
| Files.LastSlash | files/files.go:67 | Finds the last separator, or reports that there is none |
| Files.Elements | files/files.go:67 | Splits a path at its separators: at least one element, none containing a separator |
| Files.ElementsJoined | files/files.go:67 | Joining the elements with separators gives the path back |
| Files.JoinedElements | files/files.go:67 | Splitting parts without separators after joining them gives the parts back |
| Files.PushKeepsClean | files/files.go:67 | One step of `filepath.Clean`'s scan keeps the element stack clean: no empty or "." element, ".." only before every other element and never at the root |
| Files.Reduce | files/files.go:67 | The elements that survive `filepath.Clean`'s scan form a clean stack |
| Files.ReduceKeepsClean | files/files.go:67 | A clean stack after elements that vanish comes through the scan unchanged |
| Files.Render | files/files.go:67 | The cleaned text is non-empty and starts with a separator exactly for a rooted path |
| Files.Clean | files/files.go:67 | `filepath.Clean` is never empty and keeps a path rooted exactly when it was |
| Files.CleanTrailingSlash | files/files.go:64-67 | A trailing separator makes no difference to the cleaned path |
| Files.CleanIdempotent | files/files.go:67 | Cleaning a cleaned path changes nothing |
| Files.RenderIsClean | files/files.go:67 | A path rendered from a clean stack is its own cleaned form |
| Files.CleanDot | files/files.go:67 | "." is clean |
| Files.CleanRoot | files/files.go:67 | "/" is clean |
| Files.NonEmptyParts | receiver/receiver.go:192-193 | Keeps each non-empty part as often as it occurs and no other part, and is empty exactly when every part is |
| Files.NonEmptyPartsAppend | receiver/receiver.go:192-193 | Dropping the empty parts distributes over concatenation, so the kept parts stay in their order |
| Files.Join | receiver/receiver.go:192-193 | `path.Join` is "" exactly when every part is empty, and its result is otherwise already clean |
| Files.JoinCleanParts | receiver/receiver.go:192-193 | When every non-empty part is a single clean element other than "..", `path.Join` is exactly the non-empty parts, in order, with one separator between each two |
| Files.Dir | files/files.go:67 | `filepath.Dir` gives a cleaned path |
| Files.ZipDestinationClean | files/files.go:63-68 | The archive of a folder is named after the last element of its cleaned path, plus ".zip" |
| Files.ZipDestinationDotElement | files/files.go:63-68 | "e/./" is zipped into "e.zip": the "." element does not count |
| Files.ZipDestination | files/files.go:63-68 | The archive name ends in ".zip" (that the rest is the cleaned folder's base name is `Files.ZipDestinationClean`) |
| Files.BaseOfElement | files/files.go:68 | A single element is its own base name |
| Files.TrimPrefix | files/files.go:96-97 | Removes the prefix when it is present, and otherwise returns the string unchanged |
| Files.ExpandArguments | files/files.go:36-48 | Arguments containing '*' are replaced by their glob matches, and the others are kept, in argument order. The error is that of the first argument whose glob fails, every earlier argument having succeeded |
| Files.WalkCounts | files/files.go:91-117 | Every visited directory, the sent folder included, adds one to the folder count; every non-directory adds one file entry after the earlier ones; empty folders are at most the directories (which ones they are is `Files.WalkEmptyFolders`) |
| Files.WalkStep | files/files.go:92-118 | A visited non-directory appends one entry, named after the last element of its path and read from its directory, and changes nothing else; a visited directory adds one to the folder count, keeps the file entries and appends an empty-folder entry exactly when it has no children |
| Files.WalkAddsEmptyFolders | files/files.go:108-117 | The walk appends to the earlier empty folders exactly one record per visited folder without children, in walk order |
| Files.WalkEmptyFolders | files/files.go:108-117 | The walk keeps the earlier empty folders in front and adds one entry (remote folder only) for each visited folder without children, and nothing else |
| Files.WalkFolderRemote | files/files.go:96-101 | A file at the cleaned path <parent>/<rel>/<name> under the sent folder gets name <name>, source folder <parent>/<rel> and remote folder "<rel>/" |
| Files.PathEntries | files/files.go:50-135 | An Lstat or Abs failure aborts with that error. A non-directory gives one entry with remote folder "./". A folder with zip on gives exactly one temporary entry named after the archive `ZipDestination` gives (the last element of the cleaned path plus ".zip") with remote folder "./". A folder without zip gives its walk |
| Files.CollectPaths | files/files.go:50-137 | Succeeds exactly when every path's contribution succeeds |
| Files.CollectPathsContents | files/files.go:50-142 | The reported error is that of the first failing path, every earlier path having succeeded. On success the entries and the empty folders are every path's contribution, concatenated in path order, and the folder count is the sum of the paths' counts |
| Files.Contributions | files/files.go:50-137 | Each path's contribution, in path order |
| Files.GetFilesInfo | files/files.go:30-143 | A glob error aborts with that (first) error, as `Files.ExpandArguments` states. Otherwise the file set is the path loop over the expanded paths, whose contents (first failing path, in-order entries, folder count) `Files.CollectPathsContents` states; on success every path passed Lstat and Abs |
| Sender.NewSender | sender/sender.go:307-325 | A blank share code is rejected with "share code can't empty"; otherwise the sender starts with zero totals and an empty queue |
| Sender.PrepareSend | sender/sender.go:43-51 | A file-set error ends the program with that error; otherwise the file set is stored and the number of contents is its entry count |
| Sender.SendWithRelay | sender/sender.go:83-93 | A client with the sender as its only handler. Once it starts, the create request carrying the share code goes out on its stream, and the result is the send's success |
| Sender.CreateRequestCarriesCode | sender/sender.go:91 | The relay reads back exactly the sender's share code from the create request |
| Sender.Resolve | sender/sender.go:280-284 | The lookup error is absent exactly when the entry is not a link or its link can be read |
| Sender.LinkPath | sender/sender.go:273-274 | The path handed to `os.Readlink` is already in `filepath.Clean` form |
| Sender.LongestName | sender/sender.go:276-278 | No entry's name is longer than the result |
| Sender.LongestNameAttained | sender/sender.go:276-278 | The result is 0 for no entries and otherwise the name length of some entry, so it is the maximum |
| Sender.FirstUnreadable | sender/sender.go:280-288 | Finds the first entry whose link cannot be read, or reports that every link is readable |
| Sender.ResolvePrefix | sender/sender.go:271-284 | The first n entries get their link resolved and the rest are untouched |
| Sender.CollectFiles | sender/sender.go:270-305 | The walk handles every entry, or stops at the first unreadable link (after adding that entry's size) and returns its error. Over the entries handled, the total grows by the sum of their sizes, the longest name is the maximum of their name lengths, and their links are resolved |
| Sender.CollectStep | sender/sender.go:276-285 | One more entry adds its size to the sum, its name length to the maximum, and its resolution to the resolved prefix |
| Sender.FirstUnreadableAt | sender/sender.go:280-288 | An unreadable link after only readable ones is where the walk stops |
| Sender.FileStatReplyParses | sender/sender.go:160-167 | The FileStat reply decodes to FilesSize = the total size, FilesNumber = the number of entries, FolderNumber = the folder count |
| Sender.FileStatReply | sender/sender.go:160-167 | The GetFileStat answer is a FileStat message that carries a payload (what the payload decodes to is `Sender.FileStatReplyParses`) |
| Sender.ReadAt | sender/sender.go:231-232 | Reads min(32768, bytes left) bytes from the position, and signals io.EOF exactly when fewer than 32768 remain |
| Sender.FileChunks | sender/sender.go:230-249 | The loop reads at least one chunk and its last chunk is the EOF chunk (that no earlier chunk is EOF, the count and the bytes are `Sender.FileChunksEnd`, `Sender.FileChunksCount` and `Sender.FileChunksData`) |
| Sender.FileChunksCount | sender/sender.go:230-263 | A file of length L read from p gives (L−p)/32768 + 1 chunks, and the last chunk is empty exactly when (L−p) is a multiple of 32768 |
| Sender.FileChunksEnd | sender/sender.go:233-249 | Exactly the last chunk is EOF and its position is the file length; every earlier chunk is full |
| Sender.FileChunksData | sender/sender.go:243-249 | The chunks' bytes concatenated are the file from the start position, and each chunk's position is the start position plus the bytes of all chunks up to and including it |
| Sender.DataMessages | sender/sender.go:243-251 | One FileData message per chunk, in order |
| Sender.DataMessageParses | sender/sender.go:245-251 | With a faithful codec, a FileData message decodes to the compressed chunk with its position and EOF flag |
| Sender.StreamFileSendsChunks | sender/sender.go:230-263 | Whatever fails, the chunks sent are a prefix of the file's chunking; all of them when the loop finishes |
| Sender.StreamFile | sender/sender.go:225-263 | A loop that finishes ended on the EOF chunk, and every send it made, the last one included, was within what the stream accepts |
| Sender.StreamFileComplete | sender/sender.go:230-263 | With no read error and a healthy stream, every chunk is sent and the loop finishes |
| Sender.StreamFileReadError | sender/sender.go:237-241 | A read error stops the loop with exactly the chunks read before it |
| Sender.StreamFileSendFailure | sender/sender.go:252-257 | When the stream breaks on the send of chunk n, the loop stops unfinished having handed exactly chunks 0..n of the file's chunking to the stream; no later chunk is read or sent |
| Sender.Handshake | sender/sender.go:195-210 | The sender waits forever exactly when no SkipFile or ReadyForReceive is queued |
| Sender.SendFiles | sender/sender.go:182-266 | The transfer only appends: what was sent before stays sent, in front. A transfer left waiting for an answer has consumed every queued message |
| Sender.HandshakeFirstAnswer | sender/sender.go:196-208 | The first SkipFile or ReadyForReceive decides, other kinds before it are dropped, and the messages after it stay queued |
| Sender.SendFilesReadyStep | sender/sender.go:183-264 | An accepted, readable file on a healthy stream is announced and then streamed whole before the next file |
| Sender.SendFilesReadyUnfold | sender/sender.go:206-263 | For a file the receiver accepts and the disk opens, the loop streams it from position 0, counting sends from after the announcement; it goes on to the next file with the remaining queue when the stream finished, and otherwise stops with the chunks streamed so far |
| Sender.AcceptedStep | sender/sender.go:183-264 | With every file accepted, one file's FileInfo and FileData messages come before the rest of the transfer |
| Sender.SendFilesAllAccepted | sender/sender.go:183-266 | With a healthy stream, readable files and a ReadyForReceive for each, the transfer completes, sending for each file in order its FileInfo followed by the FileData messages of all its chunks |
| Sender.SkipLastFileFinishes | sender/sender.go:200-205 | For a single announced file, skipping it sends FileFinish after its FileInfo and completes the transfer (the one-file case of `Sender.SendFilesSkipStep`) |
| Sender.SkipMiddleFileContinues | sender/sender.go:200-205 | For two files, skipping the first sends no FileFinish and announces the second (the two-file case of `Sender.SendFilesSkipStep`) |
| Sender.SendFilesSkipStep | sender/sender.go:188-205 | For any file whose announcement gets through and whose first answer is SkipFile, the loop goes on to the next file with the messages after that answer still queued; FileFinish follows the announcement exactly when the skipped file is the last |
| Sender.DoneRemovalsAsWritten | sender/sender.go:96-103 | As written, with zip on, every entry whose name ends in ".zip" is removed; nothing is removed with zip off |
| Sender.DoneRemovesUserZip | sender/sender.go:99-101 | A user's own file "a.zip", sent with zip on, is removed by `Done` as written |
| Sender.DoneRemovals | sender/sender.go:96-103 | Corrected: with zip on, exactly the temporary archives the sender made are removed |
| Sender.DoneKeepsUserFiles | sender/sender.go:96-103 | The corrected `Done` never removes a file the user sent |
| Sender.StopRelayClientAsWritten | sender/sender.go:126-129 | As written, LocalNetworkMode panics exactly when the sender has no relay client |
| Sender.LocalModeSenderPanics | sender/sender.go:126-129 | A sender started with `--local` never creates a relay client, so LocalNetworkMode makes it panic |
| Sender.StopRelayClient | sender/sender.go:126-129 | Corrected: the relay client, if any, is dropped, and nothing is sent |
| Sender.Enqueue | sender/sender.go:175-176 | A SkipFile, ReadyForReceive or FileFinish joins the end of the `fileHandleMsg` queue with nothing sent or removed; when the queue already holds 10 the handler waits and the sender is unchanged |
| Sender.HandleMessage | sender/sender.go:123-268 | Interrupt, Cancel, CreateChannelFailed and RefuseReceive call `Done`, which removes the corrected set `Sender.DoneRemovals` (only the sender's own temporary archives). LocalNetworkMode behaves as the corrected `Sender.StopRelayClient`: the relay client is stopped only if there is one, where the code as written panics (`Sender.StopRelayClientAsWritten`). CreateChannelSuccess totals the sizes, or ends the program at an unreadable link. GetFileStat answers with the statistics and calls `Done` if that send fails. SkipFile, ReadyForReceive and FileFinish are queued (waiting when the queue holds 10). AgreeReceive runs the transfer: `Done` after completion or a send/read error, silent return after an open failure, waiting forever without an answer. The remaining kinds do nothing |
| Receiver.CheckOptions | receiver/receiver.go:280-292 | A blank share code is rejected. Outside local-network mode, so is a blank relay address. Nothing else is rejected |
| Receiver.NewReceiver | receiver/receiver.go:294-302 | The options are checked; a receiver starts with no file, no pending count, no watcher, no token and an empty queue |
| Receiver.AcceptedAnswers | receiver/receiver.go:151-152 | An answer is accepted exactly when its trimmed form is empty, "y" or "yes" in any mix of cases |
| Receiver.Declines | receiver/receiver.go:206-207 | "n" is not accepted |
| Receiver.JoinRequestCarriesCode | receiver/receiver.go:95 | The relay reads back exactly the receiver's share code from the join request |
| Receiver.ReceiveFromLocalNetwork | receiver/receiver.go:53-84 | Corrected: no discovered sender is an error. A client that cannot start calls `Done` and sends nothing. Otherwise LocalNetworkMode and then GetFileStat go out, and `Done` is called when the request fails |
| Receiver.ReceiveFromLocalNetworkAsWritten | receiver/receiver.go:53-84 | As written: no discovered sender is an error; once a sender is found the join returns no error, whatever the sends do |
| Receiver.LocalStartFailureHangs | receiver/receiver.go:67-78 | As written, a found sender that cannot be reached makes the join call `Done` twice without sending anything; the second call blocks on the full `done` channel |
| Receiver.LocalStartRetrySends | receiver/receiver.go:67-76 | As written, a retry that connects after a failed `Start` sends both requests on the new stream, after `Done` was already called once |
| Receiver.LocalJoinAgreesWhenStarted | receiver/receiver.go:66-78 | Once `Start` succeeds, the as-written and the corrected join send the same requests and call `Done` at most once, exactly when the request fails |
| Receiver.ReceiveFromRelay | receiver/receiver.go:86-96 | A client that cannot start is an error; otherwise the join request goes out and its send error is returned |
| Receiver.Receive | receiver/receiver.go:38-51 | Corrected: the local network is tried first, through the corrected `Receiver.ReceiveFromLocalNetwork`, so a discovered sender that cannot be reached calls `Done` once and returns (as written it hangs, `Receiver.LocalStartFailureHangs`). The relay is used when no sender is discovered, and `Done` is called when the relay path fails too |
| Receiver.HandleFileStat | receiver/receiver.go:141-171 | A decoding error calls `Done`; a nil payload panics. A refusal sends RefuseReceive and calls `Done`. An acceptance records the size, sends AgreeReceive and adds the file count to the counter (a negative total panics); it completes at once when nothing is pending, and calls `Done` if the send fails |
| Receiver.FileStatReplyArms | receiver/receiver.go:141-171 | The sender's FileStat reply, accepted, records the sender's total size and makes the receiver expect exactly the sender's number of files; refused, it answers RefuseReceive and calls `Done` |
| Receiver.Admit | receiver/receiver.go:192-232 | ReadyForReceive is sent exactly when the folder exists or is created, the file is new or the user agrees to overwrite it, and it opens and truncates. A mkdir failure returns silently; an open or truncate failure calls `Done`; a failed ReadyForReceive send calls `Done`. The write loop starts only after ReadyForReceive went out, for the joined path and the announced size |
| Receiver.HandleFileInfo | receiver/receiver.go:174-232 | With a file open, the handler first waits for the write-done token. A decoding error calls `Done`, a nil payload or one of another kind panics, an entry without FileInfo does nothing, and an entry with one is admitted exactly as `Receiver.Admit` states, after the token is taken |
| Receiver.HandleMessageWith | receiver/receiver.go:117-140 | Interrupt, ChannelFull, ChannelNotFound, JoinChannelFailed and FileFinish call `Done`. JoinChannelSuccess asks for GetFileStat and calls `Done` if that fails. FileStat is answered exactly as `Receiver.HandleFileStat` and FileInfo exactly as `Receiver.HandleFileInfo` state. FileData is queued (waiting when the queue holds 10). Other unhandled kinds do nothing |
| Receiver.HandleMessageAsWritten | receiver/receiver.go:117-210 | As written, no message other than FileStat changes the count of files still expected, so a skipped file is never counted done |
| Receiver.HandleMessage | receiver/receiver.go:117-210 | The corrected handler agrees with the one as written on every message kind except FileInfo, where the count of files still expected drops by at most one (the skipped file) |
| Receiver.WriteAt | receiver/receiver.go:254 | Writing at an offset overwrites there, extends the file past its end if needed, and keeps the rest |
| Receiver.WriteAtConcat | receiver/receiver.go:254 | Two writes back to back are one write of both |
| Receiver.WriteLoop | receiver/receiver.go:243-274 | The loop ends with the file removed only after a write has failed |
| Receiver.WriteLoopIgnoresEmptyChunk | receiver/receiver.go:252 | A FileData chunk without data, even one marked EOF, is ignored: the loop ends as it would without that message |
| Receiver.WriteFailureRemoves | receiver/receiver.go:255-259 | Fed a sender's chunking, a loop whose j-th write fails ends with the file removed |
| Receiver.WriteLoopDataStep | receiver/receiver.go:247-268 | A FileData message with data is decompressed and written at the current offset; EOF closes the file, and otherwise the loop continues after it |
| Receiver.WriteLoopWritesChunks | receiver/receiver.go:243-274 | With a faithful codec and a decompressor that undoes the compressor, the loop fed a sender's chunking closes the file with all the chunks' bytes written in order from the start offset |
| Receiver.ReceivedFile | receiver/receiver.go:220-274 | When the FileData messages reach the loop in sending order, a file pre-sized to the announced length and filled from the sender's FileData messages holds the sender's bytes, followed by zeros if the announced length is larger |
| Receiver.SwappedChunksLoseData | receiver/receiver.go:254-266 | A two-chunk file whose EOF chunk reaches the loop first is closed with only that chunk written, at the start offset |
| Receiver.ReceivedFileExact | receiver/receiver.go:220-274 | With the messages in sending order, when the announced size is the file's length, the received file is exactly the sent file |
| Receiver.EndWrite | receiver/receiver.go:255-273 | After EOF the write-done token is handed over (the loop waits while one is already there) and the file counts as done. After a write error the file is removed and `Done` is called |
| Receiver.SkipStep | receiver/receiver.go:201-210 | Declining to overwrite an existing file sends SkipFile and opens nothing. As written, the token the handler took stays taken and the counter is unchanged. Corrected, the file counts as done |
| Receiver.ReadyStep | receiver/receiver.go:192-232 | A new file, or one the user agrees to overwrite, is created or truncated and sized to the announced length; ReadyForReceive is sent and the write loop starts (the converse, that nothing else sends ReadyForReceive, is `Receiver.Admit`) |
| Receiver.SkipNeverCompletesAsWritten | receiver/receiver.go:166-210 | As written, with two files expected, skipping one and receiving the other leaves one file pending forever |
| Receiver.SkipAfterWriteBlocksAsWritten | receiver/receiver.go:175-210 | As written, a skip after a received file swallows that file's write-done token, so the next FileInfo waits forever |
| Receiver.SkipCompletes | receiver/receiver.go:166-273 | Corrected, the same two-file session completes after the second file is written |

## Left out

- Concurrency: goroutines, channels, `common.RWMutex`, atomics, `sync.WaitGroup`. Each handler call and each loop iteration is one atomic step. A channel is a sequence, and the wait group is a counter. The sweep reads the channel table without the lock; that is a race, not behaviour, and it is not modelled.
- Local-network discovery and broadcast are not modelled. "A sender was found" is an input to `Receiver.Receive`; `sendWithLocalNetwork` and the mode wiring of `Sender.Send` are left out.
- I/O is taken as oracle inputs: `os.Lstat`, `filepath.Abs`, `filepath.Glob`, `filepath.Walk`, `os.Readlink`, `os.Open`, `MkdirAll`, `Truncate`, the console line and the gRPC dial. `path.Join` and `filepath.Clean` are modelled lexically (`Files.Join`, `Files.Clean`); `filepath.Abs` is an oracle, and so are the answers the walk gives.
- `tools.ZipDirectory` is an external call; its error is ignored by the code, and the archive's Lstat is an input.
- `tools.IsEmptyFolder` is an oracle.
- Compression is a pair of opaque functions. Where it matters, the decompressor is required to undo the compressor.
- JSON is an abstract codec record, and `Faithful` is the only assumption about it.
- Printing, colours and progress bars (tools/print.go, `fmt`, `progress_bar`) are left out, as is the `%.1f` float formatting in `ByteCountDecimal`. Only the divisor and the unit letter are modelled.
- Signal handling and the one-second sleep in `Done` are left out. Calling `Done` from a handler is recorded as the `Finished` status. The sends inside `Done` are modelled only while joining: a second `Done` there blocks on the capacity-1 `done` channel (`Receiver.Hangs`).
- The relay sweep's ticker and clock are left out. A tick is one call, with `now` and the set of answering streams as inputs, and the Go map's iteration order as an explicit key order.
- The nil channel entry of the sweep (relay/relay.go:48-50) is not modelled: the channel table holds values and cannot contain nil.
- gRPC plumbing is left out: server `Start`/`Stop`, client `Stop`, both receive loops, and `Pipe.chanFromStream`, which nothing calls.
- The client's `Start` is reduced to its three outcomes: dial failed, stream failed, or stream started.
- `GenRandStr` keys: the random bytes are an input (`draw`), and key collisions are not modelled.
- tools/file.go is not modelled: hashing, zip and unzip, and the `IsFile`/`IsDir` helpers. The hash algorithm option is unused by the core.
- CLI wiring (cmd/*), version/version.go, options/options.go and common/common.go are not part of this model beyond the constants used: 64 KiB `MaxBufferSize` and queue capacity 10.
- Sender.CollectFiles: the 64-bit size total is an unbounded integer; int64 overflow of `TotalFilesSize` is not modelled.
- Sender.StreamFile: a stream that fails is described by how many sends it accepts before breaking, not by an arbitrary per-send outcome.
- Sender.HandleMessage: the CreateChannelSuccess branch's printed instructions are left out, and `os.Exit` is the `Exited` status.
- Receiver.ReceivedFile: assumes the FileData messages reach the write loop in the order they were sent. Both transports dispatch every received message on its own goroutine (transmit/server/grpc_server.go:37, transmit/client/grpc_client.go:89), and the loop ignores `Position`; `Receiver.SwappedChunksLoseData` shows what a swap does, and the row under "## Findings" records it.
- Receiver.ReceivedFileExact: the same in-order assumption as `Receiver.ReceivedFile`.
- Receiver.WriteLoopWritesChunks: the same in-order assumption as `Receiver.ReceivedFile`.
- Relay.Sweep: a channel holds the pipe as the join left it. The pipe loop's later state (a failed forward's `Stop`, the steps of `Pipe.Run`) is not written back into the channel table, so the `Hung` outcome of a sweep arises only from channel tables given as input, never from one built by `Relay.HandleMessage`.
- Relay.SweepAsWritten: the same pipe snapshot as `Relay.Sweep`.
- Receiver.EndWrite: the write loop's `writePosition` only feeds the progress bar and is not kept.
- StringTools.TrimSpace and StringTools.ToLower cover ASCII only: no Unicode white space or case mapping.

## Findings

| source | as written | input that shows it | evidently intended | confidence | as-written member | corrected member |
|---|---|---|---|---|---|---|
| relay/relay.go:70-71 | the age branch calls `ch.pipe.Stop()` without checking that there is a pipe | a channel created but never joined, whose owner still answers, older than 30 minutes | stop the pipe only if there is one, as the two ping branches do | high, not executed | Relay.SweepAsWrittenCrashes | Relay.Sweep |
| transmit/server/grpc_server.go:61-69 | after a successful `stream.Send` it falls through to "send error stream is nil" | any send on an open stream | return nil after a successful send | high, not executed | GrpcServer.SendAsWrittenFailsOnSuccess | GrpcServer.Send |
| relay/relay.go:117-125 | `full` is read but never set, so every join succeeds | create "c", then two joins of "c" from different streams | a successful join marks the channel full, so the second join gets ChannelFull | high, not executed | Relay.SecondJoinTakesOver | Relay.CreateJoinSession |
| sender/sender.go:96-103 | with zip on, `Done` removes every entry whose name ends in ".zip" | sending the plain file "a.zip" with zip on | remove only the temporary archives the sender created (`TempFile`) | medium, not executed | Sender.DoneRemovesUserZip | Sender.DoneKeepsUserFiles |
| sender/sender.go:126-129 | LocalNetworkMode calls `s.gc.Stop()` on a nil client when the sender runs in local-network mode | a sender started with `--local` receiving LocalNetworkMode from a local receiver | stop the relay client only if there is one | high, not executed | Sender.LocalModeSenderPanics | Sender.StopRelayClient |
| receiver/receiver.go:67-78 | when `Start` fails, `Done` is called but the function goes on: both requests go through `Send`, whose `Start` retries fail too, and the failed request calls `Done` again, which blocks on the full `done` channel before `Receive` ever reads it | a sender discovered on the local network whose port refuses connections | return after the first `Done` | high, not executed | Receiver.LocalStartFailureHangs | Receiver.ReceiveFromLocalNetwork |
| transmit/server/grpc_server.go:37 | every received message is dispatched on its own goroutine (the client does the same at transmit/client/grpc_client.go:89), while the write loop writes at the current offset and ignores `Position` | a two-chunk file whose EOF chunk is dispatched first | hand messages to the handlers in arrival order | medium, not executed | Receiver.SwappedChunksLoseData | Receiver.ReceivedFile |
| receiver/receiver.go:175-177, 206-210 | declining to overwrite sends SkipFile and returns without `wg.Done()`, after having taken the previous file's write-done token | two files expected; the first exists and the user answers "n" | a skipped file counts as done and the token is left in place | high, not executed | Receiver.SkipNeverCompletesAsWritten | Receiver.SkipCompletes |
