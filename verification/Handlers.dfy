/**
  What the TCP and QUIC handlers do with one frame or message: the write they hand to the batch
  writer, if any, and the bytes they reply. A read sees the store committed at that moment.
 */
module Handlers {
  import opened Bytes
  import opened Store
  import opened Messages

  const WRITE: byte := 87 // 'W'
  const READ: byte := 82 // 'R'

  /** The two handlers registry.go registers with each server. */
  datatype Handler = WriteHandler | ReadHandler

  type HandlerRegistry = map<byte, Handler>

  /** The registry of a transport that registry.go has set up. */
  const Standard: HandlerRegistry := map[WRITE := WriteHandler, READ := ReadHandler]

  const ACK: seq<byte> := [0]
  const NACK: seq<byte> := [1]

  function Ascii(text: string): (b: seq<byte>)
    ensures |b| == |text|
    ensures forall i | 0 <= i < |text| :: b[i] as int == text[i] as int % 256
  {
    seq(|text|, i requires 0 <= i < |text| => (text[i] as int % 256) as byte)
  }

  datatype Outcome = Outcome(write: Option<Req>, reply: seq<byte>)

  function Reply(reply: seq<byte>): Outcome {
    Outcome(None, reply)
  }

  // ----- TCP: a frame is one traffic event -----

  function TcpWrite(frame: seq<byte>): Outcome {
    if |frame| < 34 then Reply(NACK) else Outcome(Some(Req(frame[1..33], frame[33..])), ACK)
  }

  /** A failed or an empty lookup is told in words; a value is sent as it is. */
  function TcpRead(store: Kv, frame: seq<byte>): seq<byte> {
    if |frame| < 33 then Ascii("Invalid message format")
    else
      match Lookup(store, frame[1..33])
      case None => Ascii("Error reading from database")
      case Some(value) => if value == [] then Ascii("No value found for key") else value
  }

  /** `OnTraffic`: only the action bytes for writing and reading are parsed, whatever is registered. */
  function TcpTraffic(registry: HandlerRegistry, store: Kv, frame: seq<byte>): Outcome {
    if frame == [] || (frame[0] != WRITE && frame[0] != READ) then Reply(Ascii("ERROR: Invalid action"))
    else if frame[0] !in registry then Reply(Ascii("ERROR: Unknown action"))
    else
      match registry[frame[0]]
      case WriteHandler => TcpWrite(frame)
      case ReadHandler => Reply(TcpRead(store, frame))
  }

  /**
    A TCP frame writes exactly when it is a write frame of at least 34 bytes; it is then its action
    byte, key and value.
   */
  lemma TcpWritesExactly(store: Kv, frame: seq<byte>)
    ensures TcpTraffic(Standard, store, frame).write.Some? <==> |frame| >= 34 && frame[0] == WRITE
    ensures TcpTraffic(Standard, store, frame).write.Some? ==>
      var req := TcpTraffic(Standard, store, frame).write.value;
      frame == [WRITE] + req.key + req.value && req.value != []
  {
  }

  /** A TCP read needs only its action byte and key: what follows the key has no effect on the reply. */
  lemma TcpReadNeedsKeyOnly(store: Kv, k: Key, rest: seq<byte>)
    ensures TcpTraffic(Standard, store, [READ] + k + rest) == TcpTraffic(Standard, store, [READ] + k)
    ensures Lookup(store, k).Some? && Lookup(store, k).value != [] ==>
      TcpTraffic(Standard, store, [READ] + k) == Outcome(None, Lookup(store, k).value)
  {
    assert ([READ] + k + rest)[1..33] == k && ([READ] + k)[1..33] == k;
  }

  /** The bytes are those of the text, character by character. */
  predicate Spells(b: seq<byte>, text: string) {
    |b| == |text| && forall i | 0 <= i < |b| :: b[i] as int == text[i] as int
  }

  lemma AsciiSpells(text: string)
    requires forall i | 0 <= i < |text| :: text[i] as int < 256
    ensures Spells(Ascii(text), text)
  {
  }

  /** What the transports reply instead of a value, in the bytes that are sent. */
  lemma Texts()
    ensures Spells(Ascii("ERROR: Invalid action"), "ERROR: Invalid action")
    ensures Spells(Ascii("ERROR: Unknown action"), "ERROR: Unknown action")
    ensures Spells(Ascii("Invalid message format"), "Invalid message format")
    ensures Spells(Ascii("Error reading from database"), "Error reading from database")
    ensures Spells(Ascii("No value found for key"), "No value found for key")
  {
    AsciiSpells("ERROR: Invalid action");
    AsciiSpells("ERROR: Unknown action");
    AsciiSpells("Invalid message format");
    AsciiSpells("Error reading from database");
    AsciiSpells("No value found for key");
  }

  /** 87 is 'W' and 82 is 'R'. */
  lemma StandardHandlers()
    ensures Standard == map[87 := WriteHandler, 82 := ReadHandler]
  {
  }

  /**
    The TCP protocol in bytes. Only frames that begin with 87 or 82 are acted on, and only if that
    byte has a handler. The write handler takes 34 bytes or more, a byte 0 telling that it did and a
    byte 1 that it did not; the read handler takes 33 or more and replies the value as it is.
   */
  lemma TcpProtocol(registry: HandlerRegistry, store: Kv, frame: seq<byte>)
    ensures var out := TcpTraffic(registry, store, frame);
      if |frame| == 0 || (frame[0] != 87 && frame[0] != 82) then
        out.write == None && Spells(out.reply, "ERROR: Invalid action")
      else if frame[0] !in registry then
        out.write == None && Spells(out.reply, "ERROR: Unknown action")
      else if registry[frame[0]].WriteHandler? then
        out == if |frame| >= 34 then Outcome(Some(Req(frame[1..33], frame[33..])), [0]) else Outcome(None, [1])
      else
        && out.write == None
        && if |frame| < 33 then Spells(out.reply, "Invalid message format")
          else if frame[1..33] !in store then Spells(out.reply, "Error reading from database")
          else if |store[frame[1..33]]| == 0 then Spells(out.reply, "No value found for key")
          else out.reply == store[frame[1..33]]
  {
    Texts();
  }

  // ----- QUIC: a message is decoded from what one read of the stream returned -----

  const READ_SIZE: nat := 4096

  type Chunk = c: seq<byte> | |c| <= READ_SIZE

  function QuicRead(store: Kv, k: Key): seq<byte> {
    match Lookup(store, k)
    case None => Ascii("Error reading from database")
    case Some(value) => if value == [] then Ascii("No value found for key") else Be32(|value|) + value
  }

  function QuicMessage(handler: Handler, store: Kv, m: Message): Outcome {
    match handler
    case WriteHandler => Outcome(Some(Req(m.key, m.data)), ACK)
    case ReadHandler => Reply(QuicRead(store, m.key))
  }

  /** The first read of a stream on which a frame was sent. */
  function FirstRead(frame: seq<byte>): Chunk {
    if |frame| <= READ_SIZE then frame else frame[..READ_SIZE]
  }

  /** What one read leads to, or `None` where it ends the stream. */
  function QuicChunk(registry: HandlerRegistry, store: Kv, chunk: Chunk): Option<Outcome> {
    match Decoding(chunk)
    case Ok(m) => if m.handler in registry then Some(QuicMessage(registry[m.handler], store, m)) else None
    case _ => None
  }

  /** The length that bytes 33 to 36 of a frame declare. */
  function LengthField(frame: seq<byte>): nat
    requires |frame| >= 37
  {
    frame[33] as int * 16777216 + frame[34] as int * 65536 + frame[35] as int * 256 + frame[36] as int
  }

  /** A value's length in four bytes, most significant first, and then the value. */
  predicate Prefixed(reply: seq<byte>, value: Value) {
    && |reply| == 4 + |value| && reply[4..] == value
    && reply[0] as int == |value| / 16777216 % 256 && reply[1] as int == |value| / 65536 % 256
    && reply[2] as int == |value| / 256 % 256 && reply[3] as int == |value| % 256
  }

  /**
    The QUIC protocol in bytes, for the handlers registry.go registers. What one read returned is a
    message if it has 37 bytes and the data they declare; one that begins with 87 writes and is told
    a byte 0, one that begins with 82 reads, and nothing else has a handler.
   */
  lemma QuicProtocol(store: Kv, chunk: Chunk)
    ensures var out := QuicChunk(Standard, store, chunk);
      if |chunk| < 37 || |chunk| - 37 < LengthField(chunk) || (chunk[0] != 87 && chunk[0] != 82) then out == None
      else if chunk[0] == 87 then
        out == Some(Outcome(Some(Req(chunk[1..33], chunk[37..37 + LengthField(chunk)])), [0]))
      else
        && out.Some? && out.value.write == None
        && if chunk[1..33] !in store then Spells(out.value.reply, "Error reading from database")
          else if |store[chunk[1..33]]| == 0 then Spells(out.value.reply, "No value found for key")
          else Prefixed(out.value.reply, store[chunk[1..33]])
  {
    Texts();
    if |chunk| >= 37 {
      BigEndian(0, chunk[33..37]);
      if chunk[1..33] in store {
        BigEndian(|store[chunk[1..33]]|, chunk[33..37]);
      }
    }
  }

  /** Bytes after the first message of a chunk have no effect. */
  lemma ChunkTailIgnored(registry: HandlerRegistry, store: Kv, chunk: Chunk)
    requires Decoding(chunk).Ok?
    ensures var used := Encoding(Decoding(chunk).message);
      && |used| <= READ_SIZE && used <= chunk
      && QuicChunk(registry, store, used) == QuicChunk(registry, store, chunk)
  {
    Reencoding(chunk);
    var m := Decoding(chunk).message;
    RoundTrip(m, []);
    assert Encoding(m) + [] == Encoding(m);
  }

  /** A message sent as one QUIC frame is delivered as it is exactly when its data fits one read. */
  lemma QuicDelivers(m: Message)
    ensures Decoding(FirstRead(Encoding(m))) == Ok(m) <==> |m.data| <= 4059
  {
    if |m.data| <= 4059 {
      RoundTrip(m, []);
      assert Encoding(m) + [] == Encoding(m);
    }
  }

  /** The value a TCP write of an encoded message stores: QUIC's length prefix and data. */
  lemma TcpStoresPrefixed(store: Kv, m: Message)
    requires m.handler == WRITE
    ensures TcpTraffic(Standard, store, Encoding(m)) == Outcome(Some(Req(m.key, Be32(|m.data|) + m.data)), ACK)
  {
    EncodingFields(m, []);
    assert Encoding(m) + [] == Encoding(m);
    assert Encoding(m)[33..] == Be32(|m.data|) + m.data;
  }
}
