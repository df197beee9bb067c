/**
  From the bytes of a write frame to the bytes of a later read's reply, through the batch writer of
  one transport while the others go on, and where the transports agree.
 */
module EndToEnd {
  import opened Bytes
  import opened Store
  import opened Writers
  import opened Transports
  import opened Histories
  import opened Shards
  import opened Landing
  import opened Messages
  import opened Handlers

  // ----- replies -----

  /** A read request for a key, short enough for one QUIC read. */
  predicate ReadRequest(r: Message, k: Key) {
    r.handler == READ && r.key == k && |r.data| <= 4059
  }

  function TcpReply(store: Kv, r: Message): seq<byte> {
    TcpTraffic(Standard, store, Encoding(r)).reply
  }

  function QuicReply(store: Kv, r: Message): Option<seq<byte>> {
    var out := QuicChunk(Standard, store, FirstRead(Encoding(r)));
    if out.None? then None else Some(out.value.reply)
  }

  lemma Replies(store: Kv, r: Message, k: Key, v: Value)
    requires ReadRequest(r, k) && Lookup(store, k) == Some(v)
    ensures TcpReply(store, r) == if v == [] then Ascii("No value found for key") else v
    ensures QuicReply(store, r) == Some(if v == [] then Ascii("No value found for key") else Be32(|v|) + v)
  {
    EncodingFields(r, []);
    assert Encoding(r) + [] == Encoding(r);
    QuicDelivers(r);
  }

  /** The write that a message sent as one TCP frame leads to, or as one QUIC frame. */
  predicate TcpAccepts(s: Sys, m: Message, req: Req) {
    TcpTraffic(Standard, s.store, Encoding(m)) == Outcome(Some(req), ACK)
  }

  predicate QuicAccepts(s: Sys, m: Message, req: Req) {
    QuicChunk(Standard, s.store, FirstRead(Encoding(m))) == Some(Outcome(Some(req), ACK))
  }

  /** Both transports accept every write message whose frame fits one read, TCP with the length prefix. */
  lemma WritesAreAccepted(s: Sys, m: Message)
    requires m.handler == WRITE && |m.data| <= 4059
    ensures TcpAccepts(s, m, Req(m.key, Be32(|m.data|) + m.data))
    ensures QuicAccepts(s, m, Req(m.key, m.data))
  {
    TcpStoresPrefixed(s.store, m);
    QuicDelivers(m);
  }

  /**
    Any write frame of at least 34 bytes, a message or not: once landed it is read back over TCP, by
    a read frame with anything after the key, as exactly its bytes from 33 on; QUIC prefixes their
    number.
   */
  lemma FrameWriteThenRead(initial: Kv, configs: seq<Config>, before: seq<Action>, s: Sys,
      i: nat, frame: seq<byte>, run: seq<Action>, t: Sys, rest: seq<byte>, r: Message)
    requires |frame| >= 34 && frame[0] == WRITE && ReadRequest(r, frame[1..33])
    requires Reaches(initial, configs, before, s) && Lands(s, i, Req(frame[1..33], frame[33..]), run, t)
    ensures TcpTraffic(Standard, s.store, frame) == Outcome(Some(Req(frame[1..33], frame[33..])), ACK)
    ensures TcpTraffic(Standard, t.store, [READ] + frame[1..33] + rest) == Reply(frame[33..])
    ensures QuicReply(t.store, r) == Some(Be32(|frame| - 33) + frame[33..])
  {
    LandedWriteIsRead(initial, configs, before, s, i, Req(frame[1..33], frame[33..]), run, t);
    TcpReadNeedsKeyOnly(t.store, frame[1..33], rest);
    Replies(t.store, r, frame[1..33], frame[33..]);
  }

  /**
    A message written over TCP as one frame: TCP reads give back its length and data, QUIC reads
    prefix that once more.
   */
  lemma TcpWriteThenRead(initial: Kv, configs: seq<Config>, before: seq<Action>, s: Sys,
      i: nat, m: Message, req: Req, run: seq<Action>, t: Sys, r: Message)
    requires Reaches(initial, configs, before, s) && Lands(s, i, req, run, t)
    requires m.handler == WRITE && TcpAccepts(s, m, req) && ReadRequest(r, m.key)
    ensures TcpReply(t.store, r) == Be32(|m.data|) + m.data
    ensures QuicReply(t.store, r) == Some(Be32(|m.data| + 4) + (Be32(|m.data|) + m.data))
  {
    TcpStoresPrefixed(s.store, m);
    LandedWriteIsRead(initial, configs, before, s, i, req, run, t);
    Replies(t.store, r, m.key, Be32(|m.data|) + m.data);
  }

  /**
    A message written over QUIC: QUIC reads give back its length and data, TCP reads the data
    alone; empty data reads as no value.
   */
  lemma QuicWriteThenRead(initial: Kv, configs: seq<Config>, before: seq<Action>, s: Sys,
      i: nat, m: Message, req: Req, run: seq<Action>, t: Sys, r: Message)
    requires Reaches(initial, configs, before, s) && Lands(s, i, req, run, t)
    requires m.handler == WRITE && |m.data| <= 4059 && QuicAccepts(s, m, req) && ReadRequest(r, m.key)
    ensures QuicReply(t.store, r) ==
      Some(if m.data == [] then Ascii("No value found for key") else Be32(|m.data|) + m.data)
    ensures TcpReply(t.store, r) == if m.data == [] then Ascii("No value found for key") else m.data
  {
    WritesAreAccepted(s, m);
    LandedWriteIsRead(initial, configs, before, s, i, req, run, t);
    Replies(t.store, r, m.key, m.data);
  }

  /**
    In one system, a message landed over TCP in one continuation and over QUIC in another: writing
    and reading over TCP gives the reply bytes of writing and reading over QUIC exactly when there
    is data.
   */
  lemma TransportsAgreeExactly(initial: Kv, configs: seq<Config>, before: seq<Action>, s: Sys, m: Message, r: Message,
      tcp: nat, req1: Req, run1: seq<Action>, t1: Sys, quic: nat, req2: Req, run2: seq<Action>, t2: Sys)
    requires Reaches(initial, configs, before, s)
    requires m.handler == WRITE && |m.data| <= 4059 && ReadRequest(r, m.key)
    requires TcpAccepts(s, m, req1) && Lands(s, tcp, req1, run1, t1)
    requires QuicAccepts(s, m, req2) && Lands(s, quic, req2, run2, t2)
    ensures QuicReply(t2.store, r) == Some(TcpReply(t1.store, r)) <==> m.data != []
  {
    TcpWriteThenRead(initial, configs, before, s, tcp, m, req1, run1, t1, r);
    QuicWriteThenRead(initial, configs, before, s, quic, m, req2, run2, t2, r);
    assert |Be32(0) + []| == 4 && |Ascii("No value found for key")| == 22;
  }

  // ----- values from frames are never empty -----

  /** Every request of the run came from the frame write handler. */
  ghost predicate FromFrames(run: seq<Action>) {
    forall a | a in run && a.step.BufferWrite? :: exists frame :: TcpWrite(frame).write == Some(a.step.req)
  }

  lemma {:induction false} FrameRunsAcceptNoEmpty(s: Sys, run: seq<Action>, i: nat)
    requires CanRun(s, run) && FromFrames(run) && i < |s.writers|
    requires forall r | r in s.writers[i].arrivals :: r.value != []
    ensures forall r | r in RunFrom(s, run).writers[i].arrivals :: r.value != []
    decreases |run|
  {
    if run != [] {
      assert run[0] in run;
      if run[0].step.BufferWrite? {
        var frame :| TcpWrite(frame).write == Some(run[0].step.req);
        assert |frame[33..]| >= 1;
      }
      assert FromFrames(run[1..]);
      FrameRunsAcceptNoEmpty(After(s, run[0]), run[1..], i);
    }
  }

  lemma AcceptedIsArrived(wr: Writer, w: nat, r: Req)
    requires WriterInv(wr) && w < |wr.workers| && r in wr.workers[w].accepted
    ensures r in wr.arrivals
  {
    RoutedMembers(wr.arrivals, w, |wr.workers|, r);
  }

  /**
    If the store starts without an empty value at a key and all writes come from frames, no request
    waiting anywhere is ever empty, nor what the store holds at the key; so a reader of the key
    always replies with the value or that there is none, never that it is empty.
   */
  lemma FramesStoreNoEmptyValue(initial: Kv, configs: seq<Config>, run: seq<Action>, s: Sys, k: Key)
    requires Reaches(initial, configs, run, s) && FromFrames(run) && Lookup(initial, k) != Some([])
    ensures Lookup(s.store, k) != Some([])
    ensures forall i: nat, w: nat, r | IsWorker(s, i, w) && r in Pending(s.writers[i].workers[w]) :: r.value != []
    ensures forall frame | |frame| >= 33 && frame[1..33] == k ::
      TcpRead(s.store, frame) == if k in s.store then s.store[k] else Ascii("Error reading from database")
    ensures QuicRead(s.store, k) ==
      if k in s.store then Be32(|s.store[k]|) + s.store[k] else Ascii("Error reading from database")
  {
    ReachableInv(initial, configs, run, s);
    forall i: nat, w: nat, r | IsWorker(s, i, w) && r in s.writers[i].workers[w].accepted
      ensures r.value != []
    {
      FrameRunsAcceptNoEmpty(Init(initial, configs), run, i);
      AcceptedIsArrived(s.writers[i], w, r);
    }
    forall i: nat, w: nat, r | IsWorker(s, i, w) && r in Pending(s.writers[i].workers[w])
      ensures r.value != []
    {
      var wr := s.writers[i];
      assert WorkerInv(wr.workers[w], w, |wr.workers|, wr.maxBatchSize);
      assert r in wr.workers[w].accepted;
    }
    StoreShowsVisible(initial, s, k);
    var o := Visible(s.log, k);
    if o.Some? {
      var accepted := s.writers[o.value.writer].workers[o.value.worker].accepted;
      assert accepted[o.value.pos] in accepted;
    }
  }
}
