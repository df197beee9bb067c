/** The transport constructors of registry.go: each builds its own batch writer on the shared store. */
module Registry {
  import opened Bytes
  import opened Store
  import opened Writers
  import opened Handlers
  import opened Turns
  import opened BatchWriting
  import opened Streams
  import opened Servers

  const BATCH_SIZE: int := 512
  const WORKERS: nat := 15

  method SetUpQuic(db: Db) returns (server: QuicServer)
    ensures fresh(server) && fresh(server.writer) && server.db == db && server.writer.db == db
    ensures server.writer.Valid() && server.writer.model == NewWriter(15, 512)
    ensures server.writer.workers == 15 && server.writer.maxBatchSize == 512
    ensures fresh(server.writer.workerChannels)
    ensures fresh(server.writer.workerBuffers) && fresh(server.writer.workerStates)
    ensures server.handlerRegistry == Standard == map[87 := WriteHandler, 82 := ReadHandler]
  {
    var batchWriter := new BatchWriter(db, BATCH_SIZE, WORKERS);
    server := new QuicServer(db, batchWriter);
    server.RegisterHandler(WRITE, WriteHandler);
    server.RegisterHandler(READ, ReadHandler);
  }

  method SetUpTcp(db: Db) returns (server: TcpServer)
    ensures fresh(server) && fresh(server.writer) && server.db == db && server.writer.db == db
    ensures server.writer.Valid() && server.writer.model == NewWriter(15, 512)
    ensures server.writer.workers == 15 && server.writer.maxBatchSize == 512
    ensures fresh(server.writer.workerChannels)
    ensures fresh(server.writer.workerBuffers) && fresh(server.writer.workerStates)
    ensures server.handlerRegistry == Standard == map[87 := WriteHandler, 82 := ReadHandler]
  {
    var batchWriter := new BatchWriter(db, BATCH_SIZE, WORKERS);
    server := new TcpServer(db, batchWriter);
    server.RegisterHandler(WRITE, WriteHandler);
    server.RegisterHandler(READ, ReadHandler);
  }

  /** A QUIC server on the store, from its construction through any script of events. */
  method ServeQuic(db: Db, script: seq<Event>)
      returns (server: QuicServer, conns: map<nat, Conn>, ghost held: Contents, ghost v: Serving)
    modifies db
    ensures server.writer.Valid() && server.db == db && Frozen(held)
    ensures v == Serves(Standard, Idle(Cell(NewWriter(15, 512), old(db.store))), script)
    ensures v.cell == Cell(server.writer.model, db.store) && ConnsTied(held, conns, v.streams)
  {
    server := SetUpQuic(db);
    conns, held, v := server.HandleStreams(script);
  }

  /** A TCP server on the store, from its construction through one frame: its channels still have room. */
  method ServeTcp(db: Db, frame: array<byte>) returns (server: TcpServer, response: Response)
    ensures server.writer.Valid() && server.db == db
    ensures var out := TcpTraffic(Standard, db.store, frame[..]);
      && response == Replies(out.reply)
      && server.writer.model.arrivals == if out.write.Some? then [out.write.value] else []
  {
    server := SetUpTcp(db);
    response := server.OnTraffic(Some(frame));
  }

  /** One worker's way with one request: receive, insert, tick, flush. */
  function OneRound(w: nat): seq<Event> {
    [Other(Act(w, DoReceive, NoFault)), Other(Act(w, DoInsert, NoFault))] +
    [Other(Act(w, DoTick, NoFault)), Other(Act(w, DoFlush, NoFault))]
  }

  /**
    A write and a read at a server so built, from the bytes of the first stream to the bytes of the
    reply on the second: the write is acknowledged, the worker of its key commits it, and the read
    gets its length and data.
   */
  lemma QuicWriteIsRead(store: Kv, i: nat, write: Chunk, j: nat, read: Chunk)
    requires i != j && |write| > 37 && write[0] == 87 && LengthField(write) == |write| - 37
    requires |read| >= 37 && read[0] == 82 && LengthField(read) <= |read| - 37 && read[1..33] == write[1..33]
    ensures var script := [Read(i, write)] + OneRound(write[1] as int % 15) + [Read(j, read)];
      var v := Serves(Standard, Idle(Cell(NewWriter(15, 512), store)), script);
      && v.cell.store == store[write[1..33] := write[37..]]
      && StreamOf(v, i) == Stream(Reading, [[0]])
      && StreamOf(v, j).status == Reading && |StreamOf(v, j).replies| == 1
      && Prefixed(StreamOf(v, j).replies[0], write[37..])
  {
    var v0 := Idle(Cell(NewWriter(15, 512), store));
    var w := write[1] as int % 15;
    var round := OneRound(w);
    WriteIsCommitted(store, i, write);
    var served := [Read(i, write)] + round;
    ServesOneMore(Standard, v0, served, Read(j, read));
    ReadEvent(Serves(Standard, v0, served), j, read);
  }

  lemma ServesNothing(registry: HandlerRegistry, v: Serving)
    ensures Serves(registry, v, []) == v
  {
  }

  /** First the write is queued and acknowledged. */
  lemma WriteIsQueued(v: Serving, i: nat, write: Chunk)
    requires |write| > 37 && write[0] == 87 && LengthField(write) == |write| - 37
    requires |v.cell.writer.workers| == 15 && v.cell.writer.workers[write[1] as int % 15] == IdleWorker
    requires v.streams == map[]
    ensures var w := write[1] as int % 15; var v' := Serves(Standard, v, [Read(i, write)]);
      && v'.cell.store == v.cell.store && |v'.cell.writer.workers| == 15
      && v'.cell.writer.maxBatchSize == v.cell.writer.maxBatchSize
      && v'.cell.writer.workers[w].queue == [Req(write[1..33], write[37..])]
      && v'.cell.writer.workers[w].pc == Selecting && v'.cell.writer.workers[w].buffer == map[]
      && v'.streams == map[i := Stream(Reading, [[0]])]
  {
    hide EventNext, Serves;
    ServesNothing(Standard, v);
    ServesOneMore(Standard, v, [], Read(i, write));
    assert [] + [Read(i, write)] == [Read(i, write)];
    ReadEvent(v, i, write);
    assert write[37..37 + LengthField(write)] == write[37..];
    assert StreamOf(v, i).replies + [[0]] == [[0]];
    assert v.streams[i := Stream(Reading, [[0]])] == map[i := Stream(Reading, [[0]])];
  }

  ghost predicate HasQueued(c: Cell, w: nat, req: Req) {
    && w < |c.writer.workers| && c.writer.workers[w].queue == [req] && c.writer.maxBatchSize > 1
    && c.writer.workers[w].pc == Selecting && c.writer.workers[w].buffer == map[]
  }

  /** Then its worker takes it into the buffer. */
  lemma RoundBuffers(v: Serving, script: seq<Event>, w: nat, req: Req)
    requires HasQueued(Serves(Standard, v, script).cell, w, req)
    ensures var before, mid := Serves(Standard, v, script), Serves(Standard, v, script + OneRound(w)[..2]);
      && mid.cell.store == before.cell.store && mid.streams == before.streams
      && w < |mid.cell.writer.workers| && mid.cell.writer.workers[w].pc == Selecting
      && mid.cell.writer.workers[w].buffer == map[req.key := req.value]
  {
    hide EventNext, Serves;
    assert OneRound(w)[..2] == [Other(Act(w, DoReceive, NoFault)), Other(Act(w, DoInsert, NoFault))];
    ReceiveThenInsert(Standard, v, script, w, NoFault);
  }

  /** And one tick commits it. */
  lemma RoundCommits(v: Serving, script: seq<Event>, w: nat, req: Req)
    requires HasQueued(Serves(Standard, v, script).cell, w, req)
    ensures var before, after := Serves(Standard, v, script), Serves(Standard, v, script + OneRound(w));
      after.cell.store == before.cell.store[req.key := req.value] && after.streams == before.streams
  {
    hide EventNext, Serves, HasQueued;
    var round := OneRound(w);
    RoundBuffers(v, script, w, req);
    TickThenFlush(Standard, v, script + round[..2], w, NoFault);
    assert round[2..] == [Other(Act(w, DoTick, NoFault)), Other(Act(w, DoFlush, NoFault))];
    assert script + round[..2] + round[2..] == script + round;
  }

  lemma WriteIsCommitted(store: Kv, i: nat, write: Chunk)
    requires |write| > 37 && write[0] == 87 && LengthField(write) == |write| - 37
    ensures var script := [Read(i, write)] + OneRound(write[1] as int % 15);
      var v := Serves(Standard, Idle(Cell(NewWriter(15, 512), store)), script);
      v.cell.store == store[write[1..33] := write[37..]] && v.streams == map[i := Stream(Reading, [[0]])]
  {
    hide Serves, OneRound;
    var v := Idle(Cell(NewWriter(15, 512), store));
    WriteIsQueued(v, i, write);
    RoundCommits(v, [Read(i, write)], write[1] as int % 15, Req(write[1..33], write[37..]));
  }
}
