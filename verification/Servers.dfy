/**
  The TCP and QUIC server objects: their handler registries and the loops that turn received bytes
  into calls of a handler. Each server has the batch writer registry.go built for it.
 */
module Servers {
  import opened Bytes
  import opened Store
  import opened Writers
  import opened Transports
  import opened Messages
  import opened Handlers
  import opened BatchWriting
  import opened Streams

  /** What the loop body made of one read: the stream ends, gets a reply, or waits to send. */
  datatype Handled = Closes(why: Ending) | Answers(reply: seq<byte>) | Blocks(req: WriteRequest)

  /** Where a stream's goroutine stands. */
  datatype At = AtRead | AtSend(req: WriteRequest) | Returned(why: Ending)

  /** One stream: where its goroutine stands and the replies written to it. */
  datatype Conn = Conn(at: At, replies: seq<seq<byte>>)

  ghost predicate ConnTied(held: Contents, conn: Conn, st: Stream) {
    && conn.replies == st.replies
    && match conn.at
      case AtRead => st.status.Reading?
      case AtSend(req) => st.status.Sending? && RequestTied(held, req, st.status.req)
      case Returned(why) => st.status == Ended(why)
  }

  ghost predicate ConnsTied(held: Contents, conns: map<nat, Conn>, streams: map<nat, Stream>) {
    conns.Keys == streams.Keys && forall id | id in conns :: ConnTied(held, conns[id], streams[id])
  }

  /** The arrays still hold what is recorded of them. */
  ghost predicate Frozen(held: Contents)
    reads held.Keys
  {
    forall a | a in held :: a[..] == held[a]
  }

  function ConnOf(conns: map<nat, Conn>, id: nat): Conn {
    if id in conns then conns[id] else Conn(AtRead, [])
  }

  lemma ConnOfTied(held: Contents, conns: map<nat, Conn>, streams: map<nat, Stream>, id: nat)
    requires ConnsTied(held, conns, streams)
    ensures ConnTied(held, ConnOf(conns, id), StreamIn(streams, id))
  {
  }

  /** What a turn of the loop makes of the stream. */
  function ConnAfter(conn: Conn, handled: Handled): Conn {
    match handled
    case Closes(why) => conn.(at := Returned(why))
    case Answers(reply) => conn.(replies := conn.replies + [reply])
    case Blocks(req) => conn.(at := AtSend(req))
  }

  ghost predicate HandledTied(held: Contents, handled: Handled, served: Served, c: Cell) {
    match served
    case Closing(why) => handled == Closes(why)
    case Replying(reply) => handled == Answers(reply)
    case Writing(req) =>
      if Enabled(c.writer, BufferWrite(req)) then handled == Answers(ACK)
      else handled.Blocks? && RequestTied(held, handled.req, req)
  }

  function CellAfter(c: Cell, served: Served): Cell {
    if served.Writing? && Enabled(c.writer, BufferWrite(served.req)) then CellNext(c, BufferWrite(served.req)) else c
  }

  lemma ReadMoves(registry: HandlerRegistry, held: Contents, more: Contents, conns: map<nat, Conn>, v: Serving, id: nat,
      chunk: Chunk, handled: Handled)
    requires ConnsTied(held, conns, v.streams) && StreamOf(v, id).status.Reading?
    requires forall a | a in held :: a in more && more[a] == held[a]
    requires HandledTied(more, handled, Serve(registry, v.cell.store, chunk), v.cell)
    ensures var v' := Dispatch(registry, v, id, chunk);
      && v'.cell == CellAfter(v.cell, Serve(registry, v.cell.store, chunk))
      && ConnsTied(more, conns[id := ConnAfter(ConnOf(conns, id), handled)], v'.streams)
  {
    hide Serve;
    ConnOfTied(held, conns, v.streams, id);
    ConnMoves(held, more, conns, v.streams, id, ConnAfter(ConnOf(conns, id), handled),
      StreamOf(Dispatch(registry, v, id, chunk), id));
  }

  /** Recording one more array, and moving one stream on. */
  lemma ConnMoves(held: Contents, more: Contents, conns: map<nat, Conn>, streams: map<nat, Stream>, id: nat,
      conn: Conn, st: Stream)
    requires ConnsTied(held, conns, streams) && ConnTied(more, conn, st)
    requires forall a | a in held :: a in more && more[a] == held[a]
    ensures ConnsTied(more, conns[id := conn], streams[id := st])
  {
    forall j | j in conns
      ensures ConnTied(more, conns[j], streams[j])
    {
      assert ConnTied(held, conns[j], streams[j]);
    }
  }

  class QuicServer {
    const db: Db
    const writer: BatchWriter
    var handlerRegistry: HandlerRegistry

    constructor (db: Db, writer: BatchWriter)
      ensures this.db == db && this.writer == writer && handlerRegistry == map[]
    {
      this.db := db;
      this.writer := writer;
      handlerRegistry := map[];
    }

    method RegisterHandler(actionType: byte, handler: Handler)
      modifies this
      ensures handlerRegistry == old(handlerRegistry)[actionType := handler]
    {
      handlerRegistry := handlerRegistry[actionType := handler];
    }

    method DeregisterHandler(actionType: byte)
      modifies this
      ensures handlerRegistry == old(handlerRegistry) - {actionType}
    {
      handlerRegistry := handlerRegistry - {actionType};
    }

    /** The read handler: the length prefix, filled in place, and the value are two writes to the stream. */
    method HandleRead(key: Key) returns (reply: seq<byte>)
      ensures reply == QuicRead(db.store, key)
    {
      var value := db.Get(key, true);
      if !value.Fetched? {
        return Ascii("Error reading from database");
      }
      if |value.value| == 0 {
        return Ascii("No value found for key");
      }
      var lengthBuffer := new byte[4];
      CopyInto(lengthBuffer, 0, Be32(|value.value|));
      assert lengthBuffer[..] == Be32(|value.value|);
      reply := lengthBuffer[..] + value.value;
    }

    /**
      The write handler: the decoded data goes to the batch writer as the slice it is; `None` while
      the send blocks.
     */
    method HandleWrite(key: Key, data: Slice) returns (reply: Option<seq<byte>>)
      requires writer.Valid() && data.InBounds()
      modifies writer`model, writer`owned, writer.workerChannels
      ensures writer.Valid()
      ensures var write := BufferWrite(Req(key, data.Contents()));
        if Enabled(old(writer.model), write)
        then reply == Some(ACK) && writer.model == Next(old(writer.model), write)
          && writer.owned == old(writer.owned)[data.arr := data.arr[..]]
        else reply == None && writer.model == old(writer.model) && writer.owned == old(writer.owned)
    {
      var room := writer.HasRoom(key);
      if !room {
        return None;
      }
      writer.BufferWrite(key, data);
      reply := Some(ACK);
    }

    /** Steps 2 to 5 of the loop, on the first `n` bytes of the buffer. */
    method HandleBuffer(buffer: array<byte>, n: nat) returns (handled: Handled)
      requires writer.Valid() && n <= READ_SIZE && n <= buffer.Length
      modifies writer`model, writer`owned, writer.workerChannels
      ensures writer.Valid()
      ensures var c := Cell(old(writer.model), db.store); var served := Serve(handlerRegistry, db.store, buffer[..n]);
        && HandledTied(map[buffer := buffer[..]], handled, served, c)
        && Cell(writer.model, db.store) == CellAfter(c, served)
      ensures writer.owned.Keys <= old(writer.owned.Keys) + {buffer}
    {
      hide WriterInv;
      var outcome := Decode(buffer, n);
      if outcome.Failed? {
        return Closes(BadFrame);
      }
      if outcome.handler !in handlerRegistry {
        return Closes(NoHandler);
      }
      match handlerRegistry[outcome.handler] {
        case ReadHandler =>
          var reply := HandleRead(outcome.key);
          handled := Answers(reply);
        case WriteHandler =>
          var ack := HandleWrite(outcome.key, outcome.data);
          handled := if ack.Some? then Answers(ack.value) else Blocks(WriteRequest(outcome.key, outcome.data));
      }
    }

    /** One turn of the loop: a read into a buffer allocated for it, and what is made of it. */
    method TakeRead(chunk: Chunk) returns (buffer: array<byte>, handled: Handled)
      requires writer.Valid()
      modifies writer`model, writer`owned, writer.workerChannels
      ensures writer.Valid() && fresh(buffer)
      ensures var c := Cell(old(writer.model), db.store); var served := Serve(handlerRegistry, db.store, chunk);
        && HandledTied(map[buffer := buffer[..]], handled, served, c)
        && Cell(writer.model, db.store) == CellAfter(c, served)
      ensures writer.owned.Keys <= old(writer.owned.Keys) + {buffer}
    {
      buffer := new byte[READ_SIZE](_ => 0);
      CopyInto(buffer, 0, chunk);
      assert buffer[..|chunk|] == chunk;
      handled := HandleBuffer(buffer, |chunk|);
    }

    method HandleReadEvent(id: nat, chunk: Chunk, conns: map<nat, Conn>, ghost held: Contents, ghost v: Serving)
        returns (conns': map<nat, Conn>, ghost held': Contents)
      requires writer.Valid() && Frozen(held) && ConnsTied(held, conns, v.streams)
      requires v.cell == Cell(writer.model, db.store) && StreamOf(v, id).status.Reading?
      modifies writer`model, writer`owned, writer.workerChannels
      ensures writer.Valid() && Frozen(held')
      ensures var v' := Dispatch(handlerRegistry, v, id, chunk);
        v'.cell == Cell(writer.model, db.store) && ConnsTied(held', conns', v'.streams)
      ensures held'.Keys >= held.Keys && forall a | a in held' && a !in held :: fresh(a)
      ensures forall a | a in writer.owned && a !in old(writer.owned) :: fresh(a)
    {
      hide writer.Valid, Dispatch, Serve, CellAfter, ConnsTied;
      var buffer, handled := TakeRead(chunk);
      held' := held[buffer := buffer[..]];
      conns' := conns[id := ConnAfter(ConnOf(conns, id), handled)];
      ReadMoves(handlerRegistry, held, held', conns, v, id, chunk, handled);
    }

    /** A waiting send tries again. */
    method ResumeSend(id: nat, conns: map<nat, Conn>, ghost held: Contents, ghost v: Serving)
        returns (conns': map<nat, Conn>)
      requires writer.Valid() && Frozen(held) && ConnsTied(held, conns, v.streams)
      requires v.cell == Cell(writer.model, db.store) && StreamOf(v, id).status.Sending?
      modifies writer`model, writer`owned, writer.workerChannels
      ensures writer.Valid()
      ensures var v' := Send(v, id, StreamOf(v, id).status.req);
        v'.cell == Cell(writer.model, db.store) && ConnsTied(held, conns', v'.streams)
      ensures writer.owned.Keys <= old(writer.owned.Keys) + held.Keys
    {
      var conn := ConnOf(conns, id);
      ConnOfTied(held, conns, v.streams, id);
      var req := conn.at.req;
      assert RequestTied(held, req, StreamOf(v, id).status.req);
      var ack := HandleWrite(req.key, req.value);
      if ack.Some? {
        conn := Conn(AtRead, conn.replies + [ack.value]);
      }
      conns' := conns[id := conn];
      ConnMoves(held, held, conns, v.streams, id, conn, StreamOf(Send(v, id, StreamOf(v, id).status.req), id));
    }

    /** One event of the server: a step of one of its streams, or of something else in the system. */
    method HandleEvent(event: Event, conns: map<nat, Conn>, ghost held: Contents, ghost v: Serving)
        returns (conns': map<nat, Conn>, ghost held': Contents)
      requires writer.Valid() && writer.db == db && Frozen(held) && ConnsTied(held, conns, v.streams)
      requires v.cell == Cell(writer.model, db.store)
      modifies writer, writer.workerChannels, writer.workerBuffers, writer.workerStates, db
      ensures writer.Valid() && Frozen(held')
      ensures var v' := EventNext(handlerRegistry, v, event);
        v'.cell == Cell(writer.model, db.store) && ConnsTied(held', conns', v'.streams)
      ensures held'.Keys >= held.Keys && forall a | a in held' && a !in held :: fresh(a)
      ensures forall a | a in writer.owned && a !in old(writer.owned) :: a in held || fresh(a)
    {
      hide WriterInv;
      conns', held' := conns, held;
      match event {
        case Read(id, chunk) =>
          ConnOfTied(held, conns, v.streams, id);
          if ConnOf(conns, id).at.AtRead? {
            conns', held' := HandleReadEvent(id, chunk, conns, held, v);
          }
        case ReadFails(id) =>
          ConnOfTied(held, conns, v.streams, id);
          var conn := ConnOf(conns, id);
          if conn.at.AtRead? {
            conns' := conns[id := conn.(at := Returned(ReadFailed))];
          }
        case Resume(id) =>
          ConnOfTied(held, conns, v.streams, id);
          if ConnOf(conns, id).at.AtSend? {
            conns' := ResumeSend(id, conns, held, v);
          }
        case _ => HandleOther(event, v);
      }
    }

    /** What is not a step of a stream leaves the streams alone. */
    method HandleOther(event: Event, ghost v: Serving)
      requires writer.Valid() && writer.db == db && v.cell == Cell(writer.model, db.store)
      requires event.Other? || event.Stop? || event.Elsewhere?
      modifies writer, writer.workerChannels, writer.workerBuffers, writer.workerStates, db
      ensures writer.Valid() && writer.owned == old(writer.owned)
      ensures EventNext(handlerRegistry, v, event) == v.(cell := Cell(writer.model, db.store))
    {
      match event {
        case Other(act) =>
          writer.Perform(act);
        case Stop =>
          if !writer.stopped {
            writer.FlushAndStop();
          }
        case Elsewhere(buffer) =>
          db.store := db.store + buffer;
      }
    }

    /**
      `handleStream`, for all the streams of the server at once, with whatever else happens
      meanwhile. What is queued in the writer or waits to be sent is never written again, since each
      read has its own buffer: the writer is still valid at the end, its requests being the bytes
      that were decoded.
     */
    method HandleStreams(script: seq<Event>) returns (conns: map<nat, Conn>, ghost held: Contents, ghost v: Serving)
      requires writer.Valid() && writer.db == db
      modifies writer, writer.workerChannels, writer.workerBuffers, writer.workerStates, db
      ensures writer.Valid() && Frozen(held)
      ensures v == Serves(handlerRegistry, Idle(Cell(old(writer.model), old(db.store))), script)
      ensures v.cell == Cell(writer.model, db.store) && ConnsTied(held, conns, v.streams)
      ensures forall a | a in held || (a in writer.owned && a !in old(writer.owned)) :: fresh(a)
    {
      ghost var start := Idle(Cell(writer.model, db.store));
      conns, held, v := map[], map[], start;
      for i := 0 to |script|
        invariant writer.Valid() && Frozen(held)
        invariant v == Serves(handlerRegistry, start, script[..i])
        invariant v.cell == Cell(writer.model, db.store) && ConnsTied(held, conns, v.streams)
        invariant forall a | a in held || (a in writer.owned && a !in old(writer.owned)) :: fresh(a)
      {
        assert script[..i + 1][..i] == script[..i];
        conns, held := HandleEvent(script[i], conns, held, v);
        v := EventNext(handlerRegistry, v, script[i]);
      }
      assert script[..|script|] == script;
    }
  }

  /** What a TCP traffic event leads to: a reply, a send that waits for room, or the end of the connection. */
  datatype Response = Replies(reply: seq<byte>) | SendWaits | ClosesConnection

  class TcpServer {
    const db: Db
    const writer: BatchWriter
    var handlerRegistry: HandlerRegistry

    constructor (db: Db, writer: BatchWriter)
      ensures this.db == db && this.writer == writer && handlerRegistry == map[]
    {
      this.db := db;
      this.writer := writer;
      handlerRegistry := map[];
    }

    method RegisterHandler(actionType: byte, handler: Handler)
      modifies this
      ensures handlerRegistry == old(handlerRegistry)[actionType := handler]
    {
      handlerRegistry := handlerRegistry[actionType := handler];
    }

    method DeregisterHandler(actionType: byte)
      modifies this
      ensures handlerRegistry == old(handlerRegistry) - {actionType}
    {
      handlerRegistry := handlerRegistry - {actionType};
    }

    /** The write handler: the value is the frame from byte 33 on, as a slice of the frame. */
    method HandleWrite(frame: array<byte>) returns (reply: Option<seq<byte>>)
      requires writer.Valid()
      modifies writer`model, writer`owned, writer.workerChannels
      ensures writer.Valid()
      ensures match TcpWrite(frame[..]).write
        case None => reply == Some(NACK) && writer.model == old(writer.model)
        case Some(req) =>
          if Enabled(old(writer.model), BufferWrite(req))
          then reply == Some(ACK) && writer.model == Next(old(writer.model), BufferWrite(req))
          else reply == None && writer.model == old(writer.model)
    {
      hide WriterInv;
      if frame.Length < 34 {
        return Some(NACK);
      }
      var key: Key := frame[1..33];
      var value := Slice(frame, 33, frame.Length);
      assert key == frame[..][1..33] && value.Contents() == frame[..][33..];
      var room := writer.HasRoom(key);
      if !room {
        return None;
      }
      writer.BufferWrite(key, value);
      reply := Some(ACK);
    }

    /** `OnTraffic`, on a frame or on a failed read, up to the reply. */
    method OnTraffic(next: Option<array<byte>>) returns (response: Response)
      requires writer.Valid()
      modifies writer`model, writer`owned, writer.workerChannels
      ensures writer.Valid()
      ensures next.None? ==> response == ClosesConnection && writer.model == old(writer.model)
      ensures next.Some? ==>
        match TcpTraffic(handlerRegistry, db.store, next.value[..])
        case Outcome(None, r) => response == Replies(r) && writer.model == old(writer.model)
        case Outcome(Some(req), r) =>
          if Enabled(old(writer.model), BufferWrite(req))
          then response == Replies(r) && writer.model == Next(old(writer.model), BufferWrite(req))
          else response == SendWaits && writer.model == old(writer.model)
    {
      if next.None? {
        return ClosesConnection;
      }
      var frame := next.value;
      if frame.Length == 0 || (frame[0] != WRITE && frame[0] != READ) {
        return Replies(Ascii("ERROR: Invalid action"));
      }
      if frame[0] !in handlerRegistry {
        return Replies(Ascii("ERROR: Unknown action"));
      }
      match handlerRegistry[frame[0]] {
        case WriteHandler =>
          var ack := HandleWrite(frame);
          response := if ack.Some? then Replies(ack.value) else SendWaits;
        case ReadHandler =>
          var text := HandleRead(frame);
          response := Replies(text);
      }
    }

    /** The read handler: the value as it is, or why there is none. */
    method HandleRead(frame: array<byte>) returns (reply: seq<byte>)
      ensures reply == TcpRead(db.store, frame[..])
    {
      if frame.Length < 33 {
        return Ascii("Invalid message format");
      }
      assert frame[1..33] == frame[..][1..33];
      var value := db.Get(frame[1..33], true);
      if !value.Fetched? {
        return Ascii("Error reading from database");
      }
      if |value.value| == 0 {
        return Ascii("No value found for key");
      }
      reply := value.value;
    }
  }
}
