/**
  The wire format of messages/message.go: one handler byte, a 32-byte key, a 4-byte big-endian
  data length and the data. `Encoding` and `Decoding` are the value-level format; the methods
  write and read byte arrays in place.
 */
module Messages {
  import opened Bytes

  const HEADER_SIZE: nat := 37

  datatype Message = Message(handler: byte, key: Key, data: Value)

  /** What comes before the data. */
  function Header(handler: byte, key: Key, len: nat): (b: seq<byte>)
    ensures |b| == HEADER_SIZE
  {
    [handler] + key + Be32(len)
  }

  /** The bytes of a message, the length field holding `uint32(len(Data))`. */
  function Encoding(m: Message): (b: seq<byte>)
    ensures |b| == HEADER_SIZE + |m.data|
  {
    Header(m.handler, m.key, |m.data|) + m.data
  }

  /** `OutOfRange` is the run-time panic of a slice whose upper bound wrapped below its lower bound. */
  datatype Decoded = Ok(message: Message) | TooShort | LengthMismatch | OutOfRange

  function DeclaredLength(b: seq<byte>): (n: nat)
    requires HEADER_SIZE <= |b|
    ensures n < TWO_TO_THE_32
  {
    FromBe32(b[33..37])
  }

  /** The upper slice bound `37+dataLen`, an addition of two uint32 values. */
  function SliceEnd(dataLen: nat): nat {
    (HEADER_SIZE + dataLen) % TWO_TO_THE_32
  }

  function Decoding(b: seq<byte>): Decoded {
    if |b| < HEADER_SIZE then TooShort
    else
      var n := DeclaredLength(b);
      if |b| - HEADER_SIZE < n then LengthMismatch
      else if SliceEnd(n) < HEADER_SIZE || |b| < SliceEnd(n) then OutOfRange
      else Ok(Message(b[0], b[1..33], b[37..SliceEnd(n)]))
  }

  /** Which error an input gets, by its length and the length its bytes 33 to 36 declare. */
  lemma ErrorsExactly(b: seq<byte>)
    ensures Decoding(b).TooShort? <==> |b| < 37
    ensures Decoding(b).LengthMismatch? <==>
      && |b| >= 37
      && |b| - 37 < b[33] as int * 16777216 + b[34] as int * 65536 + b[35] as int * 256 + b[36] as int
  {
    if |b| >= 37 {
      BigEndian(0, b[33..37]);
    }
  }

  /** The data lengths for which `37+dataLen` does not wrap in uint32 arithmetic. */
  predicate Fits(m: Message) {
    |m.data| <= TWO_TO_THE_32 - 38
  }

  /** Where the fields of a message stand in its frame. */
  lemma EncodingFields(m: Message, rest: seq<byte>)
    ensures var b := Encoding(m) + rest;
      && b[0] == m.handler && b[1..33] == m.key && b[33..37] == Be32(|m.data|)
      && b[37..37 + |m.data|] == m.data && b[37 + |m.data|..] == rest
  {
  }

  /** The slice expression panics exactly when a declared length of at least 2^32-37 bytes is really there. */
  lemma OutOfRangeExactly(b: seq<byte>)
    ensures Decoding(b).OutOfRange? <==>
      HEADER_SIZE <= |b| && TWO_TO_THE_32 - 37 <= DeclaredLength(b) <= |b| - HEADER_SIZE
    ensures |b| < TWO_TO_THE_32 ==> !Decoding(b).OutOfRange?
  {
    if HEADER_SIZE <= |b| {
      var n := DeclaredLength(b);
      if n < TWO_TO_THE_32 - 37 {
        assert SliceEnd(n) == 37 + n;
      } else {
        assert SliceEnd(n) == 37 + n - TWO_TO_THE_32;
      }
    }
  }

  /** Encoding undoes decoding: an accepted frame starts with the encoding of its message. */
  lemma Reencoding(b: seq<byte>)
    requires Decoding(b).Ok?
    ensures var m := Decoding(b).message;
      Fits(m) && HEADER_SIZE + |m.data| <= |b| && Encoding(m) == b[..HEADER_SIZE + |m.data|]
  {
    var m := Decoding(b).message;
    var n := DeclaredLength(b);
    assert n < TWO_TO_THE_32 - 37 && SliceEnd(n) == 37 + n;
    FromBe32RoundTrip(b[33..37]);
    FrameParts(b, n);
  }

  lemma FrameParts(b: seq<byte>, n: nat)
    requires HEADER_SIZE + n <= |b|
    ensures [b[0]] + b[1..33] + b[33..37] + b[37..37 + n] == b[..37 + n]
  {
  }

  lemma DecodingFields(b: seq<byte>, n: nat)
    requires HEADER_SIZE + n <= |b| && n <= TWO_TO_THE_32 - 38 && DeclaredLength(b) == n
    ensures Decoding(b) == Ok(Message(b[0], b[1..33], b[37..37 + n]))
  {
    assert SliceEnd(n) == HEADER_SIZE + n;
  }

  /** Decoding undoes encoding, whatever follows the message, for exactly the data lengths that fit. */
  lemma RoundTrip(m: Message, rest: seq<byte>)
    ensures Decoding(Encoding(m) + rest) == Ok(m) <==> Fits(m)
  {
    var b := Encoding(m) + rest;
    if Fits(m) {
      EncodingFields(m, rest);
      Be32RoundTrip(|m.data|);
      DecodingFields(b, |m.data|);
    } else if Decoding(b) == Ok(m) {
      Reencoding(b);
    }
  }

  function EncodingAll(ms: seq<Message>): (b: seq<byte>) {
    if ms == [] then [] else Encoding(ms[0]) + EncodingAll(ms[1..])
  }

  /** Encodings are self-delimiting, so a concatenation of them has one reading. */
  lemma {:induction false} UniquelyDecodable(ms: seq<Message>, ns: seq<Message>)
    requires forall m | m in ms + ns :: Fits(m)
    requires EncodingAll(ms) == EncodingAll(ns)
    ensures ms == ns
    ensures ms != [] ==> Decoding(EncodingAll(ms)) == Ok(ms[0])
  {
    if ms == [] || ns == [] {
    } else {
      assert ms[0] in ms + ns && ns[0] in ms + ns;
      RoundTrip(ms[0], EncodingAll(ms[1..]));
      RoundTrip(ns[0], EncodingAll(ns[1..]));
      EncodingFields(ms[0], EncodingAll(ms[1..]));
      EncodingFields(ns[0], EncodingAll(ns[1..]));
      assert forall m | m in ms[1..] + ns[1..] :: m in ms + ns;
      UniquelyDecodable(ms[1..], ns[1..]);
    }
  }

  /** `Encode`: the message in a newly allocated buffer of exactly its length. */
  method Encode(m: Message) returns (buf: array<byte>)
    ensures fresh(buf) && buf[..] == Encoding(m)
  {
    buf := new byte[HEADER_SIZE + |m.data|];
    WriteHeader(m.handler, m.key, |m.data|, buf);
    CopyInto(buf, HEADER_SIZE, m.data);
  }

  /** The handler, key and length stores that both encoders start with. */
  method WriteHeader(handler: byte, key: Key, len: nat, buf: array<byte>)
    requires HEADER_SIZE <= buf.Length
    modifies buf
    ensures buf[..] == Header(handler, key, len) + old(buf[HEADER_SIZE..])
  {
    buf[0] := handler;
    CopyInto(buf, 1, key);
    CopyInto(buf, 33, Be32(len));
  }

  /** What a slice of the buffer holds once the header has been written. */
  function DataAfter(header: seq<byte>, before: seq<byte>, lo: nat, hi: nat): seq<byte>
    requires |header| <= |before| && lo <= hi <= |before|
  {
    (header + before[|header|..])[lo..hi]
  }

  lemma DataBehindHeader(header: seq<byte>, before: seq<byte>, lo: nat, hi: nat)
    requires |header| <= |before| && lo <= hi <= |before| && lo >= |header|
    ensures DataAfter(header, before, lo, hi) == before[lo..hi]
  {
  }

  lemma EncodesExactly(header: seq<byte>, copied: seq<byte>, m: Message)
    requires header == Header(m.handler, m.key, |m.data|)
    ensures header + copied == Encoding(m) <==> copied == m.data
  {
    assert (header + copied)[HEADER_SIZE..] == copied && Encoding(m)[HEADER_SIZE..] == m.data;
  }

  /** The buffer after the header and the data have been copied over what it held. */
  lemma CopiedOver(header: seq<byte>, copied: seq<byte>, before: seq<byte>, mid: seq<byte>, after: seq<byte>)
    requires |header| + |copied| <= |before| && mid == header + before[|header|..]
    requires after == mid[..|header|] + copied + mid[|header| + |copied|..]
    ensures after[..|header| + |copied|] == header + copied
    ensures after[|header| + |copied|..] == before[|header| + |copied|..]
  {
    assert mid[..|header|] == header && mid[|header| + |copied|..] == before[|header| + |copied|..];
  }

  /**
    `EncodeWithBuffer` into a reused buffer: it fails exactly when the buffer is too short, leaving
    it alone; otherwise the tail is kept and the used part holds the encoding, whatever was there,
    if and only if writing the header did not change the data. It does not when the data lies
    elsewhere or behind the header, where `Decode` finds it.
   */
  method EncodeWithBuffer(handler: byte, key: Key, data: Slice, buf: array<byte>) returns (used: Option<nat>)
    requires data.InBounds()
    modifies buf
    ensures var n := HEADER_SIZE + data.hi - data.lo; used == if buf.Length < n then None else Some(n)
    ensures used.None? ==> buf[..] == old(buf[..])
    ensures used.Some? ==> buf[used.value..] == old(buf[used.value..])
    ensures used.Some? ==>
      var m := Message(handler, key, old(data.Contents()));
      var header := Header(handler, key, |m.data|);
      && buf[..used.value] ==
          header + (if data.arr == buf then DataAfter(header, old(buf[..]), data.lo, data.hi) else m.data)
      && (data.arr != buf || data.lo >= HEADER_SIZE ==> buf[..used.value] == Encoding(m))
      && (data.arr == buf ==>
          (buf[..used.value] == Encoding(m) <==> DataAfter(header, old(buf[..]), data.lo, data.hi) == m.data))
  {
    var len := data.hi - data.lo;
    if buf.Length < HEADER_SIZE + len {
      return None;
    }
    ghost var before, header := buf[..], Header(handler, key, len);
    hide Header, Encoding;
    WriteHeader(handler, key, len, buf);
    ghost var mid, copied := buf[..], data.Contents();
    EncodesExactly(header, copied, Message(handler, key, old(data.Contents())));
    if data.arr == buf && data.lo >= HEADER_SIZE {
      DataBehindHeader(header, before, data.lo, data.hi);
    }
    assert data.arr == buf ==> copied == DataAfter(header, before, data.lo, data.hi);
    CopyInto(buf, HEADER_SIZE, data.Contents());
    CopiedOver(header, copied, before, mid, buf[..]);
    return Some(HEADER_SIZE + len);
  }

  /** What `Decode` returns: a copied key and a data slice that aliases the input array. */
  datatype DecodeOutcome =
    | Parsed(handler: byte, key: Key, data: Slice)
    | Failed(why: Decoded)

  /** `Decode(buf[:n])`, without copying the data. */
  method Decode(buf: array<byte>, n: nat) returns (r: DecodeOutcome)
    requires n <= buf.Length
    ensures r.Failed? ==> r.why == Decoding(buf[..n]) && !r.why.Ok?
    ensures r.Parsed? ==>
      && r.data.arr == buf && r.data.InBounds() && r.data.lo == HEADER_SIZE
      && Decoding(buf[..n]) == Ok(Message(r.handler, r.key, r.data.Contents()))
  {
    if n < HEADER_SIZE {
      return Failed(TooShort);
    }
    ghost var b := buf[..n];
    assert b[1..33] == buf[1..33] && b[33..37] == buf[33..37];
    var dataLen := FromBe32(buf[33..37]);
    if n - HEADER_SIZE < dataLen {
      return Failed(LengthMismatch);
    }
    var end := SliceEnd(dataLen);
    if end < HEADER_SIZE || n < end {
      return Failed(OutOfRange);
    }
    assert b[37..end] == buf[37..end];
    r := Parsed(buf[0], buf[1..33], Slice(buf, HEADER_SIZE, end));
  }
}
