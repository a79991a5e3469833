/**
  The wire format: a command byte, a big-endian 32-bit payload length, the
  payload. One decoder serves both peers; they differ in the commands they accept.
 */
module Framing {
  import opened Common

  const HEADER_LENGTH := 5
  const MAXIMUM_PAYLOAD_BYTES := 1024 * 1024

  datatype Command = Info | Connect | Publish | Subscribe | UnSubscribe | Message

  function CommandByte(c: Command): Byte {
    match c
    case Info => 0
    case Connect => 1
    case Publish => 2
    case Subscribe => 3
    case UnSubscribe => 4
    case Message => 5
  }

  /** The side that decodes: `ServerCodec` or `ClientCodec`. */
  datatype Peer = Server | Client

  /** `ServerInboundCommand::try_from` and `ClientInboundCommand::try_from`. */
  function Inbound(peer: Peer, b: Byte): Option<Command> {
    match peer
    case Server =>
      if b == CommandByte(Connect) then Some(Connect)
      else if b == CommandByte(Publish) then Some(Publish)
      else if b == CommandByte(Subscribe) then Some(Subscribe)
      else if b == CommandByte(UnSubscribe) then Some(UnSubscribe)
      else None
    case Client =>
      if b == CommandByte(Info) then Some(Info)
      else if b == CommandByte(Message) then Some(Message)
      else None
  }

  /** `get_u32`. */
  function GetU32(b: Bytes): (n: U32)
    requires |b| == 4
  {
    b[0] as int * 0x100_0000 + b[1] as int * 0x1_0000 + b[2] as int * 0x100 + b[3] as int
  }

  /** `put_u32`. */
  function PutU32(n: U32): (b: Bytes)
    ensures |b| == 4
  {
    var high := n / 256 / 256;
    [high / 256, high % 256, n / 256 % 256, n % 256]
  }

  function ParseHeader(buf: Bytes): Option<(Byte, U32)> {
    if |buf| < HEADER_LENGTH then None else Some((buf[0], GetU32(buf[1..5])))
  }

  /** A message: its command and its contents. */
  datatype Frame<P> = Frame(command: Command, body: P)

  /** The payload codec. Nothing is assumed of it; see `Faithful`. */
  datatype PayloadCodec<!P> = PayloadCodec(
    encode: Frame<P> -> Option<Bytes>,
    decode: (Command, Bytes) -> Option<P>)

  /** What one decode call can produce besides "not yet": a frame, or a payload that does not parse. */
  datatype Event<P> = Delivered(frame: Frame<P>) | Rejected

  datatype Outcome<P> = Outcome(event: Option<Event<P>>, rest: Bytes)

  /** The payload of an accepted command, handed to the payload codec. */
  function EventOf<P>(codec: PayloadCodec<P>, command: Command, payload: Bytes): Event<P> {
    match codec.decode(command, payload)
    case Some(body) => Delivered(Frame(command, body))
    case None => Rejected
  }

  /** One call of `decode`, retry by retry. */
  function Decoded<P>(peer: Peer, codec: PayloadCodec<P>, buf: Bytes): (r: Outcome<P>)
    ensures |r.rest| <= |buf|
    ensures r.event.Some? ==> |r.rest| < |buf|
  {
    match ParseHeader(buf)
    case None => Outcome(None, buf)
    case Some((b, length)) =>
      match Inbound(peer, b)
      case None => Decoded(peer, codec, buf[1..])
      case Some(command) =>
        if length > MAXIMUM_PAYLOAD_BYTES then Decoded(peer, codec, buf[1..])
        else if |buf| < HEADER_LENGTH + length then Outcome(None, buf)
        else Outcome(Some(EventOf(codec, command, buf[5..5 + length])), buf[5 + length..])
  }

  datatype Stream<P> = Stream(events: seq<Event<P>>, rest: Bytes)

  /** Calling `decode` until it has nothing more to give. */
  function Drained<P>(peer: Peer, codec: PayloadCodec<P>, buf: Bytes): Stream<P>
    decreases |buf|
  {
    var r := Decoded(peer, codec, buf);
    if r.event.None? then Stream([], r.rest)
    else
      var more := Drained(peer, codec, r.rest);
      Stream([r.event.value] + more.events, more.rest)
  }

  /** Appending each chunk as it arrives and draining after each. */
  function Fed<P>(peer: Peer, codec: PayloadCodec<P>, buf: Bytes, chunks: seq<Bytes>): Stream<P>
    decreases chunks
  {
    if chunks == [] then Stream([], buf)
    else
      var now := Drained(peer, codec, buf + chunks[0]);
      var later := Fed(peer, codec, now.rest, chunks[1..]);
      Stream(now.events + later.events, later.rest)
  }

  function Concat(chunks: seq<Bytes>): Bytes {
    if chunks == [] then [] else chunks[0] + Concat(chunks[1..])
  }

  // ---- Encoding ----

  datatype CodecError = EncodeFailed | InvalidSizeBytes(size: nat)

  function EncodeFrame<P>(codec: PayloadCodec<P>, item: Frame<P>): Result<Bytes, CodecError> {
    match codec.encode(item)
    case None => Err(EncodeFailed)
    case Some(payload) =>
      if |payload| >= 0x1_0000_0000 then Err(InvalidSizeBytes(|payload|))
      else Ok([CommandByte(item.command)] + PutU32(|payload|) + payload)
  }

  /** What an encode call appends to the output buffer: nothing if it fails. */
  function Appended<P>(codec: PayloadCodec<P>, item: Frame<P>): Bytes {
    match EncodeFrame(codec, item)
    case Ok(bytes) => bytes
    case Err(_) => []
  }

  /** The payload codec reads back what it wrote for this message. */
  ghost predicate Faithful<P>(codec: PayloadCodec<P>, item: Frame<P>) {
    codec.encode(item).Some? && codec.decode(item.command, codec.encode(item).value) == Some(item.body)
  }

  ghost predicate Accepts(peer: Peer, c: Command) {
    Inbound(peer, CommandByte(c)) == Some(c)
  }

  /** The peer accepts this command, and the payload is within the limit and reads back. */
  ghost predicate Sendable<P>(peer: Peer, codec: PayloadCodec<P>, item: Frame<P>) {
    && Accepts(peer, item.command)
    && Faithful(codec, item)
    && |codec.encode(item).value| <= 1_048_576
  }
}
