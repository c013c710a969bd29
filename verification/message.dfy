/**
 * The message envelope (message/message.go): the wire unit is a kind plus an
 * optional payload; structured payloads go through a JSON codec that is an
 * input of the model.
 */
module Message {
  import opened Wrappers
  import opened StringTools
  import Files

  /** The closed set of message kinds of the protocol. */
  datatype MessageType =
    | CreateChannel | CreateChannelSuccess | CreateChannelFailed
    | JoinChannel | JoinChannelSuccess | JoinChannelFailed
    | ChannelNotFound | ChannelFull
    | GetFileStat | FileStat | FileInfo | ReadyForReceive | SkipFile
    | FileData | FileFinish | AgreeReceive | RefuseReceive
    | Ping | Interrupt | Cancel | Failed | LocalNetworkMode

  /** A message on the wire; a `None` payload is Go's nil slice. */
  datatype Message = Message(messageType: MessageType, payload: Option<seq<byte>>)

  datatype ShareCodePayload = ShareCodePayload(shareCode: string)
  datatype FileStatPayload = FileStatPayload(filesSize: int, filesNumber: int, folderNumber: int)
  datatype FileInfoPayload = FileInfoPayload(fileInfo: Option<Files.FileInfo>)
  datatype FileDataPayload = FileDataPayload(data: Option<seq<byte>>, position: int, eof: bool)

  /** The decoded payload, tagged by the record it was decoded into. */
  datatype Payload =
    | ShareCode(shareCode: ShareCodePayload)
    | Stat(stat: FileStatPayload)
    | Info(info: FileInfoPayload)
    | Data(chunk: FileDataPayload)

  /**
   * The JSON library: one encoder for every record and one decoder per target
   * record type, each of which may fail.
   */
  datatype JsonCodec = JsonCodec(
    marshal: Payload -> seq<byte>,
    unmarshalStat: seq<byte> -> Result<FileStatPayload>,
    unmarshalInfo: seq<byte> -> Result<FileInfoPayload>,
    unmarshalData: seq<byte> -> Result<FileDataPayload>)

  /** Decoding what the codec encoded gives the record back. */
  ghost predicate Faithful(c: JsonCodec) {
    && (forall p: FileStatPayload :: c.unmarshalStat(c.marshal(Stat(p))) == Ok(p))
    && (forall p: FileInfoPayload :: c.unmarshalInfo(c.marshal(Info(p))) == Ok(p))
    && (forall p: FileDataPayload :: c.unmarshalData(c.marshal(Data(p))) == Ok(p))
  }

  type Protocol = string

  const RawProtocol: Protocol := "raw"
  const JsonProtocol: Protocol := "json"

  /** `NewMessage(kind, payload)`. */
  function NewMessage(messageType: MessageType, payload: Option<seq<byte>>): (m: Message)
    ensures m.messageType == messageType && m.payload == payload
  {
    Message(messageType, payload)
  }

  /**
   * `Bytes(protocol)` of any payload record: the JSON encoding under the JSON
   * protocol, and `(nil, nil)` under every other protocol. `json.Marshal` cannot
   * fail on these records, so the error is always nil.
   */
  function Bytes(c: JsonCodec, protocol: Protocol, p: Payload): (r: Result<Option<seq<byte>>>)
    ensures r.Ok?
    ensures protocol != JsonProtocol <==> r.value.None?
  {
    if protocol == JsonProtocol then Ok(Some(c.marshal(p))) else Ok(None)
  }

  /** The kinds `ParseMessagePayload` knows how to decode. */
  predicate IsParsedKind(t: MessageType) {
    t in {CreateChannel, JoinChannel, FileStat, FileInfo, FileData}
  }

  function KindName(t: MessageType): string {
    match t
    case CreateChannel => "CreateChannel"
    case CreateChannelSuccess => "CreateChannelSuccess"
    case CreateChannelFailed => "CreateChannelFailed"
    case JoinChannel => "JoinChannel"
    case JoinChannelSuccess => "JoinChannelSuccess"
    case JoinChannelFailed => "JoinChannelFailed"
    case ChannelNotFound => "ChannelNotFound"
    case ChannelFull => "ChannelFull"
    case GetFileStat => "GetFileStat"
    case FileStat => "FileStat"
    case FileInfo => "FileInfo"
    case ReadyForReceive => "ReadyForReceive"
    case SkipFile => "SkipFile"
    case FileData => "FileData"
    case FileFinish => "FileFinish"
    case AgreeReceive => "AgreeReceive"
    case RefuseReceive => "RefuseReceive"
    case Ping => "Ping"
    case Interrupt => "Interrupt"
    case Cancel => "Cancel"
    case Failed => "Failed"
    case LocalNetworkMode => "LocalNetworkMode"
  }

  const NilMessageError: string := "message is nil"

  function UnknownTypeError(t: MessageType): string {
    "unknown message type: [" + KindName(t) + "]"
  }

  /** The share code carried by a create or join message: its payload read as a string. */
  function ShareCodeOf(payload: Option<seq<byte>>): string {
    match payload
    case None => ""
    case Some(b) => StringOfBytes(b)
  }

  /**
   * `ParseMessagePayload(msg)`: dispatch on the kind; a missing message and an
   * unknown kind are errors; a structured kind with a nil payload yields
   * `(nil, nil)`.
   */
  function ParseMessagePayload(c: JsonCodec, msg: Option<Message>): (r: Result<Option<Payload>>)
    ensures msg.None? ==> r == Err(NilMessageError)
    ensures msg.Some? && !IsParsedKind(msg.value.messageType) ==>
              r == Err(UnknownTypeError(msg.value.messageType))
    ensures msg.Some? && msg.value.messageType in {CreateChannel, JoinChannel} ==>
              && r.Ok? && r.value.Some? && r.value.value.ShareCode?
              && BytesOfString(r.value.value.shareCode.shareCode)
                 == (if msg.value.payload.Some? then msg.value.payload.value else [])
    ensures msg.Some? && msg.value.messageType in {FileStat, FileInfo, FileData} && msg.value.payload.None? ==>
              r == Ok(None)
    ensures msg.Some? && msg.value.messageType == FileStat && msg.value.payload.Some? ==>
              match c.unmarshalStat(msg.value.payload.value)
              case Ok(v) => r == Ok(Some(Stat(v)))
              case Err(e) => r == Err(e)
    ensures msg.Some? && msg.value.messageType == FileInfo && msg.value.payload.Some? ==>
              match c.unmarshalInfo(msg.value.payload.value)
              case Ok(v) => r == Ok(Some(Info(v)))
              case Err(e) => r == Err(e)
    ensures msg.Some? && msg.value.messageType == FileData && msg.value.payload.Some? ==>
              match c.unmarshalData(msg.value.payload.value)
              case Ok(v) => r == Ok(Some(Data(v)))
              case Err(e) => r == Err(e)
  {
    match msg
    case None => Err(NilMessageError)
    case Some(m) =>
      match m.messageType
      case CreateChannel =>
        BytesStringRoundTrip(if m.payload.Some? then m.payload.value else []);
        Ok(Some(ShareCode(ShareCodePayload(ShareCodeOf(m.payload)))))
      case JoinChannel =>
        BytesStringRoundTrip(if m.payload.Some? then m.payload.value else []);
        Ok(Some(ShareCode(ShareCodePayload(ShareCodeOf(m.payload)))))
      case FileStat =>
        if m.payload.None? then Ok(None)
        else (match c.unmarshalStat(m.payload.value)
              case Err(e) => Err(e)
              case Ok(v) => Ok(Some(Stat(v))))
      case FileInfo =>
        if m.payload.None? then Ok(None)
        else (match c.unmarshalInfo(m.payload.value)
              case Err(e) => Err(e)
              case Ok(v) => Ok(Some(Info(v))))
      case FileData =>
        if m.payload.None? then Ok(None)
        else (match c.unmarshalData(m.payload.value)
              case Err(e) => Err(e)
              case Ok(v) => Ok(Some(Data(v))))
      case _ => Err(UnknownTypeError(m.messageType))
  }

  /** The kind whose payload decodes into the given record. */
  function KindOf(p: Payload): MessageType {
    match p
    case ShareCode(_) => CreateChannel
    case Stat(_) => FileStat
    case Info(_) => FileInfo
    case Data(_) => FileData
  }

  /**
   * With a faithful codec, parsing the JSON bytes of a FileStat, FileInfo or
   * FileData record under the matching kind gives the record back.
   */
  lemma JsonRoundTrip(c: JsonCodec, p: Payload)
    requires Faithful(c)
    requires !p.ShareCode?
    ensures ParseMessagePayload(c, Some(NewMessage(KindOf(p), Bytes(c, JsonProtocol, p).value)))
            == Ok(Some(p))
  {
    match p
    case Stat(s) => assert c.unmarshalStat(c.marshal(Stat(s))) == Ok(s);
    case Info(i) => assert c.unmarshalInfo(c.marshal(Info(i))) == Ok(i);
    case Data(d) => assert c.unmarshalData(c.marshal(Data(d))) == Ok(d);
  }

  /**
   * A share code sent as its raw bytes, as the sender and receiver send it, is
   * read back unchanged by create and join parsing.
   */
  lemma ShareCodeRoundTrip(c: JsonCodec, code: string, kind: MessageType)
    requires IsByteString(code)
    requires kind == CreateChannel || kind == JoinChannel
    ensures ParseMessagePayload(c, Some(NewMessage(kind, Some(BytesOfString(code)))))
            == Ok(Some(ShareCode(ShareCodePayload(code))))
  {
    StringBytesRoundTrip(code);
  }
}
