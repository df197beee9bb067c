/**
  The streams of a QUIC server among everything else that goes on: each stream's goroutine reads,
  decodes and dispatches in a loop, and between any two of its steps other streams, the workers, the
  stop signal and commits of other transports may come.
 */
module Streams {
  import opened Bytes
  import opened Store
  import opened Writers
  import opened Transports
  import opened Messages
  import opened Handlers
  import opened Turns

  /** Why a stream ends. */
  datatype Ending = ReadFailed | BadFrame | NoHandler

  /** Where a stream's goroutine stands; a send to a full channel keeps it waiting. */
  datatype Status = Reading | Sending(req: Req) | Ended(why: Ending)

  datatype Stream = Stream(status: Status, replies: seq<seq<byte>>)

  /** `senders` is history: the stream that each accepted write came from. */
  datatype Serving = Serving(cell: Cell, streams: map<nat, Stream>, senders: seq<nat>)

  /**
    One thing that happens: a read of a stream returns or fails, a waiting send tries again, a worker
    takes a step, the stop signal is given, or a transaction of another writer commits.
   */
  datatype Event =
    | Read(id: nat, chunk: Chunk)
    | ReadFails(id: nat)
    | Resume(id: nat)
    | Other(act: Act)
    | Stop
    | Elsewhere(buffer: Kv)

  /** What the loop body makes of one read. */
  datatype Served = Closing(why: Ending) | Replying(reply: seq<byte>) | Writing(req: Req)

  function Serve(registry: HandlerRegistry, store: Kv, chunk: Chunk): Served {
    if !Decoding(chunk).Ok? then Closing(BadFrame)
    else
      match QuicChunk(registry, store, chunk)
      case None => Closing(NoHandler)
      case Some(Outcome(None, reply)) => Replying(reply)
      case Some(Outcome(Some(req), _)) => Writing(req)
  }

  function StreamIn(streams: map<nat, Stream>, id: nat): Stream {
    if id in streams then streams[id] else Stream(Reading, [])
  }

  function StreamOf(v: Serving, id: nat): Stream {
    StreamIn(v.streams, id)
  }

  function With(v: Serving, id: nat, st: Stream): Serving {
    v.(streams := v.streams[id := st])
  }

  /** A send goes through when the channel has room, and only then is the write acknowledged. */
  function Send(v: Serving, id: nat, req: Req): Serving {
    var st := StreamOf(v, id);
    if Enabled(v.cell.writer, BufferWrite(req)) then
      With(v, id, Stream(Reading, st.replies + [ACK])).(
        cell := CellNext(v.cell, BufferWrite(req)), senders := v.senders + [id])
    else With(v, id, st.(status := Sending(req)))
  }

  function Dispatch(registry: HandlerRegistry, v: Serving, id: nat, chunk: Chunk): Serving {
    var st := StreamOf(v, id);
    match Serve(registry, v.cell.store, chunk)
    case Closing(why) => With(v, id, st.(status := Ended(why)))
    case Replying(reply) => With(v, id, st.(replies := st.replies + [reply]))
    case Writing(req) => Send(v, id, req)
  }

  /** An event whose goroutine is elsewhere does not happen. */
  function EventNext(registry: HandlerRegistry, v: Serving, e: Event): Serving {
    match e
    case Read(id, chunk) => if StreamOf(v, id).status.Reading? then Dispatch(registry, v, id, chunk) else v
    case ReadFails(id) =>
      var st := StreamOf(v, id);
      if st.status.Reading? then With(v, id, st.(status := Ended(ReadFailed))) else v
    case Resume(id) => if StreamOf(v, id).status.Sending? then Send(v, id, StreamOf(v, id).status.req) else v
    case Other(act) => v.(cell := ActNext(v.cell, act))
    case Stop => if v.cell.writer.stopped then v else v.(cell := CellNext(v.cell, SignalStop))
    case Elsewhere(buffer) => v.(cell := Cell(v.cell.writer, v.cell.store + buffer))
  }

  function Serves(registry: HandlerRegistry, v: Serving, script: seq<Event>): Serving {
    if script == [] then v
    else EventNext(registry, Serves(registry, v, script[..|script| - 1]), script[|script| - 1])
  }

  /** A server with no streams yet. */
  function Idle(c: Cell): Serving {
    Serving(c, map[], [])
  }

  /** Streams whose send waits do not read meanwhile. */
  predicate Orderly(registry: HandlerRegistry, v: Serving, script: seq<Event>) {
    script == [] || (
      var n := |script| - 1;
      && Orderly(registry, v, script[..n])
      && (script[n].Read? || script[n].ReadFails? ==>
          !StreamOf(Serves(registry, v, script[..n]), script[n].id).status.Sending?))
  }

  // ----- what a stream is about, told from its reads alone -----

  predicate IsGood(registry: HandlerRegistry, chunk: Chunk) {
    Decoding(chunk).Ok? && Decoding(chunk).message.handler in registry
  }

  /** The reads of a stream so far all decoded and named a registered handler. */
  predicate IsOpen(registry: HandlerRegistry, script: seq<Event>, id: nat) {
    script == [] || (
      var e := script[|script| - 1];
      && IsOpen(registry, script[..|script| - 1], id)
      && e != ReadFails(id) && (e.Read? && e.id == id ==> IsGood(registry, e.chunk)))
  }

  /** The messages of the longest prefix of a stream's reads that decode and name a registered handler. */
  function GoodMessages(registry: HandlerRegistry, script: seq<Event>, id: nat): seq<Message> {
    if script == [] then []
    else
      var before := script[..|script| - 1];
      var e := script[|script| - 1];
      GoodMessages(registry, before, id) +
      if IsOpen(registry, before, id) && e.Read? && e.id == id && IsGood(registry, e.chunk)
      then [Decoding(e.chunk).message] else []
  }

  function WriteOf(registry: HandlerRegistry, m: Message): seq<Req> {
    if m.handler in registry && registry[m.handler].WriteHandler? then [Req(m.key, m.data)] else []
  }

  /** The writes that messages ask for, in order. */
  function WritesOf(registry: HandlerRegistry, ms: seq<Message>): seq<Req> {
    if ms == [] then [] else WritesOf(registry, ms[..|ms| - 1]) + WriteOf(registry, ms[|ms| - 1])
  }

  lemma WritesOfSnoc(registry: HandlerRegistry, ms: seq<Message>, m: Message)
    ensures WritesOf(registry, ms + [m]) == WritesOf(registry, ms) + WriteOf(registry, m)
  {
    assert (ms + [m])[..|ms|] == ms;
  }

  /** The accepted writes that came from one stream, in order. */
  function SentBy(accepted: seq<Req>, senders: seq<nat>, id: nat): seq<Req>
    requires |accepted| == |senders|
  {
    if accepted == [] then []
    else
      var n := |accepted| - 1;
      SentBy(accepted[..n], senders[..n], id) + if senders[n] == id then [accepted[n]] else []
  }

  lemma SentBySnoc(accepted: seq<Req>, senders: seq<nat>, req: Req, sender: nat, id: nat)
    requires |accepted| == |senders|
    ensures SentBy(accepted + [req], senders + [sender], id) ==
      SentBy(accepted, senders, id) + if sender == id then [req] else []
  {
    assert (accepted + [req])[..|accepted|] == accepted && (senders + [sender])[..|senders|] == senders;
  }

  /** The write a stream's goroutine is waiting to send. */
  function Waiting(st: Stream): seq<Req> {
    if st.status.Sending? then [st.status.req] else []
  }

  /** The writes accepted since the writer was in `c`. */
  function Since(c: Cell, v: Serving): seq<Req> {
    if |c.writer.arrivals| <= |v.cell.writer.arrivals| then v.cell.writer.arrivals[|c.writer.arrivals|..] else []
  }

  /** Every write accepted since has a sender. */
  ghost predicate Attributed(c: Cell, v: Serving) {
    c.writer.arrivals <= v.cell.writer.arrivals && |Since(c, v)| == |v.senders|
  }

  /** Stream `id` stands where its reads have brought it. */
  ghost predicate Follows(registry: HandlerRegistry, c: Cell, v: Serving, script: seq<Event>, id: nat)
    requires Attributed(c, v)
  {
    var st := StreamOf(v, id);
    var good := GoodMessages(registry, script, id);
    && SentBy(Since(c, v), v.senders, id) + Waiting(st) == WritesOf(registry, good)
    && |st.replies| + |Waiting(st)| == |good|
    && (IsOpen(registry, script, id) <==> !st.status.Ended?)
  }

  lemma ServeMeans(registry: HandlerRegistry, store: Kv, chunk: Chunk)
    ensures match Serve(registry, store, chunk)
      case Closing(_) => !IsGood(registry, chunk)
      case Replying(reply) =>
        && IsGood(registry, chunk)
        && var m := Decoding(chunk).message;
          WriteOf(registry, m) == [] && reply == QuicMessage(registry[m.handler], store, m).reply
      case Writing(req) => IsGood(registry, chunk) && WriteOf(registry, Decoding(chunk).message) == [req]
  {
  }

  predicate Concerns(e: Event, id: nat) {
    (e.Read? || e.ReadFails? || e.Resume?) && e.id == id
  }

  /** The write that an event gets accepted. */
  function Accepts(registry: HandlerRegistry, v: Serving, e: Event): Option<Req> {
    var req :=
      match e
      case Read(id, chunk) =>
        if StreamOf(v, id).status.Reading? && Serve(registry, v.cell.store, chunk).Writing?
        then Some(Serve(registry, v.cell.store, chunk).req) else None
      case Resume(id) => if StreamOf(v, id).status.Sending? then Some(StreamOf(v, id).status.req) else None
      case _ => None;
    if req.Some? && Enabled(v.cell.writer, BufferWrite(req.value)) then req else None
  }

  lemma EventAccepts(registry: HandlerRegistry, v: Serving, e: Event)
    ensures var v' := EventNext(registry, v, e);
      match Accepts(registry, v, e)
      case None => v'.cell.writer.arrivals == v.cell.writer.arrivals && v'.senders == v.senders
      case Some(req) =>
        v'.cell.writer.arrivals == v.cell.writer.arrivals + [req] && v'.senders == v.senders + [e.id]
  {
  }

  lemma EventAttributes(registry: HandlerRegistry, c: Cell, v: Serving, e: Event)
    requires Attributed(c, v)
    ensures Attributed(c, EventNext(registry, v, e))
    ensures Since(c, EventNext(registry, v, e)) ==
      Since(c, v) + if Accepts(registry, v, e).Some? then [Accepts(registry, v, e).value] else []
  {
    EventAccepts(registry, v, e);
  }

  /** What an event does to the stream it concerns. */
  lemma EventMoves(registry: HandlerRegistry, v: Serving, e: Event, id: nat)
    ensures var st, st' := StreamOf(v, id), StreamOf(EventNext(registry, v, e), id);
      if !Concerns(e, id) then st' == st
      else
        match e
        case Read(_, chunk) =>
          if !st.status.Reading? then st' == st
          else (
            match Serve(registry, v.cell.store, chunk)
            case Closing(why) => st' == st.(status := Ended(why))
            case Replying(reply) => st' == st.(replies := st.replies + [reply])
            case Writing(req) =>
              if Accepts(registry, v, e).Some? then st' == st.(replies := st.replies + [ACK])
              else st' == st.(status := Sending(req)))
        case ReadFails(_) => st' == if st.status.Reading? then st.(status := Ended(ReadFailed)) else st
        case Resume(_) => st' == if Accepts(registry, v, e).Some? then Stream(Reading, st.replies + [ACK]) else st
  {
  }

  lemma SentAfter(registry: HandlerRegistry, c: Cell, v: Serving, e: Event, id: nat)
    requires Attributed(c, v)
    ensures Attributed(c, EventNext(registry, v, e))
    ensures var v' := EventNext(registry, v, e);
      SentBy(Since(c, v'), v'.senders, id) ==
        SentBy(Since(c, v), v.senders, id) +
        if Accepts(registry, v, e).Some? && e.id == id then [Accepts(registry, v, e).value] else []
  {
    EventAttributes(registry, c, v, e);
    EventAccepts(registry, v, e);
    if Accepts(registry, v, e).Some? {
      SentBySnoc(Since(c, v), v.senders, Accepts(registry, v, e).value, e.id, id);
    }
  }

  lemma GoodAfter(registry: HandlerRegistry, script: seq<Event>, id: nat)
    requires script != []
    ensures var before := script[..|script| - 1]; var e := script[|script| - 1];
      var counts := IsOpen(registry, before, id) && e.Read? && e.id == id;
      && (IsOpen(registry, script, id) <==>
          IsOpen(registry, before, id) && e != ReadFails(id) && (counts ==> IsGood(registry, e.chunk)))
      && GoodMessages(registry, script, id) ==
          (if counts && IsGood(registry, e.chunk) then GoodMessages(registry, before, id) + [Decoding(e.chunk).message]
           else GoodMessages(registry, before, id))
  {
  }

  /** What one read brings a stream that was reading. */
  lemma FollowsRead(registry: HandlerRegistry, c: Cell, v: Serving, script: seq<Event>, id: nat, chunk: Chunk)
    requires script != [] && script[|script| - 1] == Read(id, chunk) && StreamOf(v, id).status.Reading?
    requires Attributed(c, v) && Follows(registry, c, v, script[..|script| - 1], id)
    ensures Attributed(c, EventNext(registry, v, Read(id, chunk)))
    ensures Follows(registry, c, EventNext(registry, v, Read(id, chunk)), script, id)
  {
    hide EventNext, Since, Serve, SentBy, Decoding, WritesOf, WriteOf, GoodMessages, IsOpen, Accepts;
    var e := Read(id, chunk);
    var sent := SentBy(Since(c, v), v.senders, id);
    var good := GoodMessages(registry, script[..|script| - 1], id);
    GoodAfter(registry, script, id);
    EventMoves(registry, v, e, id);
    SentAfter(registry, c, v, e, id);
    ServeMeans(registry, v.cell.store, chunk);
    assert sent + [] == sent;
    match Serve(registry, v.cell.store, chunk)
    case Closing(_) => OnlySendsAccept(registry, v, e);
    case Replying(_) =>
      OnlySendsAccept(registry, v, e);
      WritesOfSnoc(registry, good, Decoding(chunk).message);
    case Writing(req) =>
      OnlySendsAccept(registry, v, e);
      WritesOfSnoc(registry, good, Decoding(chunk).message);
      assert (sent + [req]) + [] == sent + [req];
  }

  lemma OnlySendsAccept(registry: HandlerRegistry, v: Serving, e: Event)
    ensures Accepts(registry, v, e).Some? ==>
      match e
      case Read(id, chunk) =>
        && StreamOf(v, id).status.Reading?
        && Serve(registry, v.cell.store, chunk) == Writing(Accepts(registry, v, e).value)
      case Resume(id) => StreamOf(v, id).status == Sending(Accepts(registry, v, e).value)
      case _ => false
  {
  }

  lemma FollowsStep(registry: HandlerRegistry, c: Cell, v: Serving, script: seq<Event>, id: nat)
    requires script != [] && Attributed(c, v) && Follows(registry, c, v, script[..|script| - 1], id)
    requires var e := script[|script| - 1];
      e.Read? || e.ReadFails? ==> !StreamOf(v, e.id).status.Sending?
    ensures Attributed(c, EventNext(registry, v, script[|script| - 1]))
    ensures Follows(registry, c, EventNext(registry, v, script[|script| - 1]), script, id)
  {
    hide EventNext, Since, Serve, SentBy, Decoding, WritesOf, WriteOf, GoodMessages, IsOpen, Accepts;
    var e := script[|script| - 1];
    var sent := SentBy(Since(c, v), v.senders, id);
    if e.Read? && e.id == id && StreamOf(v, id).status.Reading? {
      FollowsRead(registry, c, v, script, id, e.chunk);
    } else {
      GoodAfter(registry, script, id);
      EventMoves(registry, v, e, id);
      SentAfter(registry, c, v, e, id);
      OnlySendsAccept(registry, v, e);
      assert sent + [] == sent && forall req: Req :: (sent + [req]) + [] == sent + [req];
    }
  }

  /**
    However the streams, the workers, a stop and other transports interleave: the accepted writes
    are a merge of the streams' own, each stream's being exactly the writes of the good messages
    among its reads, in order, but for the one it may be waiting to send; it has one reply for each
    of the others; and it has ended exactly when a read failed, did not decode or named no handler.
   */
  lemma {:induction false} StreamsFollow(registry: HandlerRegistry, c: Cell, script: seq<Event>, id: nat)
    requires Orderly(registry, Idle(c), script)
    ensures Attributed(c, Serves(registry, Idle(c), script))
    ensures Follows(registry, c, Serves(registry, Idle(c), script), script, id)
  {
    if script != [] {
      StreamsFollow(registry, c, script[..|script| - 1], id);
      FollowsStep(registry, c, Serves(registry, Idle(c), script[..|script| - 1]), script, id);
    }
  }

  // ----- replies -----

  /** The answer to a message is the reply at `j`, or will be once the waiting send goes through. */
  ghost predicate Answered(st: Stream, j: nat, answer: seq<byte>) {
    if j < |st.replies| then st.replies[j] == answer
    else j == |st.replies| && st.status.Sending? && answer == ACK
  }

  lemma AnsweredStays(registry: HandlerRegistry, v: Serving, e: Event, id: nat, j: nat, answer: seq<byte>)
    requires Answered(StreamOf(v, id), j, answer)
    ensures Answered(StreamOf(EventNext(registry, v, e), id), j, answer)
  {
    EventMoves(registry, v, e, id);
  }

  /** What a stream is told about a message: an acknowledgement, or what the store held at that moment. */
  function AnswerTo(registry: HandlerRegistry, store: Kv, m: Message): seq<byte>
    requires m.handler in registry
  {
    match registry[m.handler]
    case WriteHandler => ACK
    case ReadHandler => QuicRead(store, m.key)
  }

  lemma AnsweredNow(registry: HandlerRegistry, v: Serving, id: nat, chunk: Chunk)
    requires StreamOf(v, id).status.Reading? && IsGood(registry, chunk)
    ensures Answered(StreamOf(EventNext(registry, v, Read(id, chunk)), id), |StreamOf(v, id).replies|,
      AnswerTo(registry, v.cell.store, Decoding(chunk).message))
  {
    EventMoves(registry, v, Read(id, chunk), id);
    ServeMeans(registry, v.cell.store, chunk);
  }

  /**
    The replies of a stream answer its good messages one by one: reply number `j` answers message
    number `j`, read at event `n`, with an acknowledgement if it is a write and otherwise with what
    the store held at that event.
   */
  lemma {:induction false} RepliesAnswer(registry: HandlerRegistry, c: Cell, script: seq<Event>, n: nat)
    requires Orderly(registry, Idle(c), script) && n < |script| && script[n].Read?
    requires IsOpen(registry, script[..n], script[n].id) && IsGood(registry, script[n].chunk)
    ensures var id := script[n].id; var m := Decoding(script[n].chunk).message;
      var j := |GoodMessages(registry, script[..n], id)|;
      && Answered(StreamOf(Serves(registry, Idle(c), script), id), j,
          AnswerTo(registry, Serves(registry, Idle(c), script[..n]).cell.store, m))
      && j < |GoodMessages(registry, script, id)| && GoodMessages(registry, script, id)[j] == m
  {
    var last := |script| - 1;
    var id := script[n].id;
    if n < last {
      assert script[..last][..n] == script[..n];
      RepliesAnswer(registry, c, script[..last], n);
      AnsweredStays(registry, Serves(registry, Idle(c), script[..last]), script[last], id,
        |GoodMessages(registry, script[..n], id)|,
        AnswerTo(registry, Serves(registry, Idle(c), script[..n]).cell.store, Decoding(script[n].chunk).message));
    } else {
      StreamsFollow(registry, c, script[..n], id);
      AnsweredNow(registry, Serves(registry, Idle(c), script[..n]), id, script[n].chunk);
    }
  }

  // ----- what events are, in bytes and on the workers' fields -----

  /** A write reaches the writer: with room it is queued and acknowledged with a byte 0, else it waits. */
  ghost predicate Sent(v: Serving, v': Serving, id: nat, req: Req) {
    var wr := v.cell.writer;
    var st := StreamOf(v, id);
    if |wr.workers| > 0 && |wr.workers[req.key[0] as int % |wr.workers|].queue| < 500000 then
      var w := req.key[0] as int % |wr.workers|;
      var wk := wr.workers[w];
      && v'.cell.store == v.cell.store
      && v'.cell.writer == wr.(
          workers := wr.workers[w := wk.(queue := wk.queue + [req], accepted := wk.accepted + [req])],
          arrivals := wr.arrivals + [req])
      && v'.streams == v.streams[id := Stream(Reading, st.replies + [[0]])]
    else
      v'.cell == v.cell && v'.streams == v.streams[id := Stream(Sending(req), st.replies)]
  }

  lemma SendSends(v: Serving, id: nat, req: Req)
    ensures Sent(v, Send(v, id, req), id, req)
  {
    SendsExactly(v.cell.writer, req);
  }

  /**
    What a read does to a stream that reads, for the handlers registry.go registers: bytes that are
    no message or name no handler end it; 87 hands the key and data to the writer; 82 is answered
    with the length and value the store holds, or why there is none.
   */
  lemma ReadEvent(v: Serving, id: nat, chunk: Chunk)
    requires StreamOf(v, id).status.Reading?
    ensures var v' := EventNext(Standard, v, Read(id, chunk));
      var st := StreamOf(v, id);
      if |chunk| < 37 || |chunk| - 37 < LengthField(chunk) then
        v'.cell == v.cell && v'.streams == v.streams[id := Stream(Ended(BadFrame), st.replies)]
      else if chunk[0] == 87 then
        Sent(v, v', id, Req(chunk[1..33], chunk[37..37 + LengthField(chunk)]))
      else if chunk[0] == 82 then
        && v'.cell == v.cell && |v'.streams[id].replies| == |st.replies| + 1
        && v'.streams == v.streams[id := Stream(Reading, st.replies + [v'.streams[id].replies[|st.replies|]])]
        && var reply := v'.streams[id].replies[|st.replies|];
          if chunk[1..33] !in v.cell.store then Spells(reply, "Error reading from database")
          else if |v.cell.store[chunk[1..33]]| == 0 then Spells(reply, "No value found for key")
          else Prefixed(reply, v.cell.store[chunk[1..33]])
      else v'.cell == v.cell && v'.streams == v.streams[id := Stream(Ended(NoHandler), st.replies)]
  {
    hide Spells, Prefixed, Sent;
    QuicProtocol(v.cell.store, chunk);
    ErrorsExactly(chunk);
    OutOfRangeExactly(chunk);
    if |chunk| >= 37 && |chunk| - 37 >= LengthField(chunk) && chunk[0] == 87 {
      SendSends(v, id, Req(chunk[1..33], chunk[37..37 + LengthField(chunk)]));
    }
  }

  /** A waiting send goes through, or waits on; a failed read ends its stream; a stop is seen by the writer. */
  lemma OtherEvents(registry: HandlerRegistry, v: Serving, id: nat, buffer: Kv)
    ensures StreamOf(v, id).status.Sending? ==>
      Sent(v, EventNext(registry, v, Resume(id)), id, StreamOf(v, id).status.req)
    ensures StreamOf(v, id).status.Reading? ==>
      EventNext(registry, v, ReadFails(id)) ==
        v.(streams := v.streams[id := Stream(Ended(ReadFailed), StreamOf(v, id).replies)])
    ensures EventNext(registry, v, Stop) == v.(cell := v.cell.(writer := v.cell.writer.(stopped := true)))
    ensures EventNext(registry, v, Elsewhere(buffer)) == v.(cell := v.cell.(store := v.cell.store + buffer))
  {
    if StreamOf(v, id).status.Sending? {
      SendSends(v, id, StreamOf(v, id).status.req);
    }
  }

  lemma ServesOneMore(registry: HandlerRegistry, v: Serving, script: seq<Event>, e: Event)
    ensures Serves(registry, v, script + [e]) == EventNext(registry, Serves(registry, v, script), e)
  {
    hide EventNext;
    assert (script + [e])[..|script|] == script;
  }

  lemma ServesTwoActs(registry: HandlerRegistry, v: Serving, script: seq<Event>, a: Act, b: Act)
    ensures var before := Serves(registry, v, script);
      Serves(registry, v, script + [Other(a), Other(b)]) == before.(cell := ActNext(ActNext(before.cell, a), b))
  {
    hide Serves, ActNext;
    ServesOneMore(registry, v, script, Other(a));
    ServesOneMore(registry, v, script + [Other(a)], Other(b));
    assert script + [Other(a)] + [Other(b)] == script + [Other(a), Other(b)];
  }

  /** At any time, a tick and a flush without fault of a selecting worker commit its buffer, stopped or not. */
  lemma TickThenFlush(registry: HandlerRegistry, v: Serving, script: seq<Event>, w: nat, fault: Fault)
    requires w < |Serves(registry, v, script).cell.writer.workers|
    requires Serves(registry, v, script).cell.writer.workers[w].pc == Selecting
    ensures var before := Serves(registry, v, script);
      var after := Serves(registry, v, script + [Other(Act(w, DoTick, fault)), Other(Act(w, DoFlush, NoFault))]);
      && after.cell.store == before.cell.store + before.cell.writer.workers[w].buffer
      && OnlyWorker(before.cell, after.cell, w) && after.streams == before.streams
      && after.cell.writer.workers[w].buffer == map[] && after.cell.writer.workers[w].pc == Selecting
      && after.cell.writer.workers[w].queue == before.cell.writer.workers[w].queue
  {
    hide Serves, ActNext, StreamOf;
    var before := Serves(registry, v, script);
    ServesTwoActs(registry, v, script, Act(w, DoTick, fault), Act(w, DoFlush, NoFault));
    TickAct(before.cell, w, fault);
    FlushAct(ActNext(before.cell, Act(w, DoTick, fault)), w, NoFault);
  }

  /** At any time, the stop case of a stopped writer and its flush commit the buffer and end the worker. */
  lemma StopThenFlush(registry: HandlerRegistry, v: Serving, script: seq<Event>, w: nat, fault: Fault)
    requires w < |Serves(registry, v, script).cell.writer.workers| && Serves(registry, v, script).cell.writer.stopped
    requires Serves(registry, v, script).cell.writer.workers[w].pc == Selecting
    ensures var before := Serves(registry, v, script);
      var after := Serves(registry, v, script + [Other(Act(w, DoStop, fault)), Other(Act(w, DoFlush, NoFault))]);
      && after.cell.store == before.cell.store + before.cell.writer.workers[w].buffer
      && OnlyWorker(before.cell, after.cell, w) && after.streams == before.streams
      && after.cell.writer.workers[w].buffer == map[] && after.cell.writer.workers[w].pc == Exited
      && after.cell.writer.workers[w].queue == before.cell.writer.workers[w].queue
  {
    hide Serves, ActNext, StreamOf;
    var before := Serves(registry, v, script);
    ServesTwoActs(registry, v, script, Act(w, DoStop, fault), Act(w, DoFlush, NoFault));
    StopAct(before.cell, w, fault);
    FlushAct(ActNext(before.cell, Act(w, DoStop, fault)), w, NoFault);
  }

  /** At any time, a selecting worker with requests takes the oldest and puts it in its buffer. */
  lemma ReceiveThenInsert(registry: HandlerRegistry, v: Serving, script: seq<Event>, w: nat, fault: Fault)
    requires w < |Serves(registry, v, script).cell.writer.workers|
    requires Serves(registry, v, script).cell.writer.workers[w].pc == Selecting
    requires |Serves(registry, v, script).cell.writer.workers[w].queue| > 0
    ensures var before := Serves(registry, v, script);
      var after := Serves(registry, v, script + [Other(Act(w, DoReceive, fault)), Other(Act(w, DoInsert, fault))]);
      && after.cell.store == before.cell.store && OnlyWorker(before.cell, after.cell, w)
      && after.streams == before.streams
      && var wk, wk' := before.cell.writer.workers[w], after.cell.writer.workers[w];
      && wk'.queue == wk.queue[1..]
      && wk'.buffer == wk.buffer[wk.queue[0].key := wk.queue[0].value]
      && wk'.pc == (if |wk'.buffer| >= before.cell.writer.maxBatchSize then Flushing(Threshold) else Selecting)
  {
    hide Serves, ActNext, StreamOf;
    var before := Serves(registry, v, script);
    ServesTwoActs(registry, v, script, Act(w, DoReceive, fault), Act(w, DoInsert, fault));
    ReceiveAct(before.cell, w, fault);
    InsertAct(ActNext(before.cell, Act(w, DoReceive, fault)), w, fault);
  }

  // ----- a server as part of the system -----

  /** The steps of the server's own writer that an event is. */
  function StepsOf(registry: HandlerRegistry, v: Serving, e: Event): seq<Step> {
    var accepts := Accepts(registry, v, e);
    if accepts.Some? then [BufferWrite(accepts.value)]
    else if e.Other? && Enabled(v.cell.writer, ActStep(v.cell.writer, e.act)) then [ActStep(v.cell.writer, e.act)]
    else if e.Stop? && !v.cell.writer.stopped then [SignalStop]
    else []
  }

  lemma EventIsSteps(registry: HandlerRegistry, v: Serving, e: Event)
    requires !e.Elsewhere?
    ensures var steps := StepsOf(registry, v, e);
      CanTake(v.cell, steps) && Take(v.cell, steps) == EventNext(registry, v, e).cell
  {
    var steps := StepsOf(registry, v, e);
    if steps != [] {
      TakeOneStep(v.cell, steps[0]);
    }
  }

  /** What an action of another writer puts in the store. */
  function PutBy(s: Sys, a: Action): Kv
    requires CanDo(s, a)
  {
    var wr := s.writers[a.writer];
    if Commits(wr, a.step) then wr.workers[a.step.w].buffer else map[]
  }

  /** `run` is what an event at the server of transport `i` is in the system. */
  ghost predicate Happens(registry: HandlerRegistry, s: Sys, i: nat, v: Serving, e: Event, run: seq<Action>) {
    if e.Elsewhere? then
      |run| == 1 && run[0].writer != i && CanDo(s, run[0]) && e.buffer == PutBy(s, run[0])
    else run == Lift(i, StepsOf(registry, v, e))
  }

  /** `run` is what a script is in the system, event by event. */
  ghost predicate Plays(registry: HandlerRegistry, s: Sys, i: nat, v: Serving, script: seq<Event>, run: seq<Action>)
    decreases |script|
  {
    if script == [] then run == []
    else
      var n := |script| - 1;
      exists m: nat :: m <= |run| &&
        Plays(registry, s, i, v, script[..n], run[..m]) && CanRun(s, run[..m]) &&
        Happens(registry, RunFrom(s, run[..m]), i, Serves(registry, v, script[..n]), script[n], run[m..])
  }

  lemma HappensIsRun(registry: HandlerRegistry, s: Sys, i: nat, v: Serving, e: Event, run: seq<Action>)
    requires i < |s.writers| && v.cell == Cell(s.writers[i], s.store) && Happens(registry, s, i, v, e, run)
    ensures CanRun(s, run)
    ensures var t := RunFrom(s, run); Cell(t.writers[i], t.store) == EventNext(registry, v, e).cell
  {
    if e.Elsewhere? {
      OneStepRun(s, run[0]);
      assert run == [run[0]];
    } else {
      EventIsSteps(registry, v, e);
      WriterRunIsRun(s, i, StepsOf(registry, v, e));
    }
  }

  /**
    Serving the streams while other transports commit is a run of the system, so all that is proved
    of runs holds of it.
   */
  lemma {:induction false} ServingIsRun(registry: HandlerRegistry, s: Sys, i: nat, v: Serving, script: seq<Event>,
      run: seq<Action>)
    requires i < |s.writers| && v.cell == Cell(s.writers[i], s.store) && Plays(registry, s, i, v, script, run)
    ensures CanRun(s, run)
    ensures var t := RunFrom(s, run); Cell(t.writers[i], t.store) == Serves(registry, v, script).cell
    decreases |script|
  {
    hide After, EventNext, Happens;
    if script != [] {
      var n := |script| - 1;
      var m: nat :| m <= |run| &&
        Plays(registry, s, i, v, script[..n], run[..m]) && CanRun(s, run[..m]) &&
        Happens(registry, RunFrom(s, run[..m]), i, Serves(registry, v, script[..n]), script[n], run[m..]);
      ServingIsRun(registry, s, i, v, script[..n], run[..m]);
      HappensIsRun(registry, RunFrom(s, run[..m]), i, Serves(registry, v, script[..n]), script[n], run[m..]);
      RunConcat(s, run[..m], run[m..]);
      assert run[..m] + run[m..] == run;
    }
  }

  /** Every script without outside commits is played by some run. */
  lemma {:induction false} EveryScriptPlays(registry: HandlerRegistry, s: Sys, i: nat, v: Serving, script: seq<Event>)
      returns (run: seq<Action>)
    requires i < |s.writers| && v.cell == Cell(s.writers[i], s.store)
    requires forall e | e in script :: !e.Elsewhere?
    ensures Plays(registry, s, i, v, script, run)
    decreases |script|
  {
    if script == [] {
      run := [];
    } else {
      var n := |script| - 1;
      assert script[n] in script;
      var before := EveryScriptPlays(registry, s, i, v, script[..n]);
      ServingIsRun(registry, s, i, v, script[..n], before);
      var last := Lift(i, StepsOf(registry, Serves(registry, v, script[..n]), script[n]));
      run := before + last;
      assert run[..|before|] == before && run[|before|..] == last;
    }
  }
}
