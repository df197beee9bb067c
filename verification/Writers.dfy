/**
  db/writer.go as a step system: one `BatchWriter` whose goroutines interleave at the granularity
  of channel operations and transactions. `accepted`, `closed`, `current` and `arrivals` are
  history: no step's guard reads them.
 */
module Writers {
  import opened Bytes
  import opened Store

  /** The capacity of every worker channel; a send to a full channel blocks. */
  const CHANNEL_CAPACITY: nat := 500000

  /** Why a worker calls `flush`: the size threshold, the ticker or the stop signal. */
  datatype Reason = Threshold | Ticker | Stopping

  /** Where a worker goroutine stands in its loop. */
  datatype Pc = Selecting | InHand(req: Req) | Flushing(reason: Reason) | Exited

  /** The requests of one attempted transaction, in arrival order, and whether it committed. */
  datatype Batch = Batch(reqs: seq<Req>, reason: Reason, committed: bool)

  datatype Worker = Worker(
    queue: seq<Req>, pc: Pc, buffer: Kv,
    accepted: seq<Req>, closed: seq<Batch>, current: seq<Req>)

  datatype Writer = Writer(workers: seq<Worker>, maxBatchSize: int, stopped: bool, arrivals: seq<Req>)

  datatype Step =
    | BufferWrite(req: Req)
    | Receive(w: nat)
    | Insert(w: nat)
    | TickFires(w: nat)
    | SeesStop(w: nat)
    | Flush(w: nat, ok: bool)
    | SignalStop

  const IdleWorker := Worker([], Selecting, map[], [], [], [])

  function NewWriter(workers: nat, maxBatchSize: int): Writer {
    Writer(seq(workers, _ => IdleWorker), maxBatchSize, false, [])
  }

  /** `int(key[0]) % bw.workers`. */
  function Route(k: Key, workers: nat): (w: nat)
    requires workers > 0
    ensures w < workers
  {
    k[0] as int % workers
  }

  predicate Enabled(wr: Writer, st: Step) {
    match st
    case BufferWrite(req) =>
      |wr.workers| > 0 && |wr.workers[Route(req.key, |wr.workers|)].queue| < CHANNEL_CAPACITY
    case Receive(w) => w < |wr.workers| && wr.workers[w].pc.Selecting? && wr.workers[w].queue != []
    case Insert(w) => w < |wr.workers| && wr.workers[w].pc.InHand?
    case TickFires(w) => w < |wr.workers| && wr.workers[w].pc.Selecting?
    case SeesStop(w) => w < |wr.workers| && wr.workers[w].pc.Selecting? && wr.stopped
    case Flush(w, _) => w < |wr.workers| && wr.workers[w].pc.Flushing?
    case SignalStop => !wr.stopped
  }

  function Accepting(wk: Worker, req: Req): Worker {
    wk.(queue := wk.queue + [req], accepted := wk.accepted + [req])
  }

  function Receiving(wk: Worker): Worker
    requires wk.queue != []
  {
    wk.(queue := wk.queue[1..], pc := InHand(wk.queue[0]))
  }

  /** The map write and the size check, under one lock. */
  function Inserting(wk: Worker, maxBatchSize: int): Worker
    requires wk.pc.InHand?
  {
    var buffer := wk.buffer[wk.pc.req.key := wk.pc.req.value];
    wk.(buffer := buffer,
        current := wk.current + [wk.pc.req],
        pc := if |buffer| >= maxBatchSize then Flushing(Threshold) else Selecting)
  }

  /** `flush`: no transaction for an empty buffer; the buffer is cleared even when the transaction failed. */
  function Flushed(wk: Worker, ok: bool): Worker
    requires wk.pc.Flushing?
  {
    wk.(buffer := map[],
        current := [],
        closed := if |wk.buffer| == 0 then wk.closed else wk.closed + [Batch(wk.current, wk.pc.reason, ok)],
        pc := if wk.pc.reason.Stopping? then Exited else Selecting)
  }

  function Set(wr: Writer, w: nat, wk: Worker): Writer
    requires w < |wr.workers|
  {
    wr.(workers := wr.workers[w := wk])
  }

  function Next(wr: Writer, st: Step): (wr': Writer)
    requires Enabled(wr, st)
    ensures |wr'.workers| == |wr.workers| && wr'.maxBatchSize == wr.maxBatchSize
  {
    match st
    case BufferWrite(req) =>
      var w := Route(req.key, |wr.workers|);
      Set(wr, w, Accepting(wr.workers[w], req)).(arrivals := wr.arrivals + [req])
    case Receive(w) => Set(wr, w, Receiving(wr.workers[w]))
    case Insert(w) => Set(wr, w, Inserting(wr.workers[w], wr.maxBatchSize))
    case TickFires(w) => Set(wr, w, wr.workers[w].(pc := Flushing(Ticker)))
    case SeesStop(w) => Set(wr, w, wr.workers[w].(pc := Flushing(Stopping)))
    case Flush(w, ok) => Set(wr, w, Flushed(wr.workers[w], ok))
    case SignalStop => wr.(stopped := true)
  }

  /**
    A send goes through exactly when the channel numbered by the first key byte modulo the workers
    holds fewer than 500000 requests, stopped or not, and then the request is the last in it.
   */
  lemma SendsExactly(wr: Writer, req: Req)
    ensures Enabled(wr, BufferWrite(req)) <==>
      |wr.workers| > 0 && |wr.workers[req.key[0] as int % |wr.workers|].queue| < 500000
    ensures Enabled(wr, BufferWrite(req)) ==>
      var w := req.key[0] as int % |wr.workers|;
      var wk := wr.workers[w];
      Next(wr, BufferWrite(req)) == wr.(
        workers := wr.workers[w := wk.(queue := wk.queue + [req], accepted := wk.accepted + [req])],
        arrivals := wr.arrivals + [req])
  {
  }

  /** A new writer: all its workers select, with nothing in their channels and buffers. */
  lemma StartsIdle(workers: nat, maxBatchSize: int)
    ensures var wr := NewWriter(workers, maxBatchSize);
      && |wr.workers| == workers && wr.maxBatchSize == maxBatchSize && !wr.stopped && wr.arrivals == []
      && forall w | 0 <= w < workers ::
          var wk := wr.workers[w];
          && wk.queue == [] && wk.pc == Selecting && wk.buffer == map[]
          && wk.accepted == [] && wk.current == [] && wk.closed == []
  {
  }

  predicate Commits(wr: Writer, st: Step)
    requires Enabled(wr, st)
  {
    st.Flush? && st.ok && |wr.workers[st.w].buffer| > 0
  }

  /** A committed transaction puts every buffered pair. */
  function StoreNext(store: Kv, wr: Writer, st: Step): Kv
    requires Enabled(wr, st)
  {
    if Commits(wr, st) then store + wr.workers[st.w].buffer else store
  }

  function Flat(closed: seq<Batch>): seq<Req> {
    if closed == [] then []
    else Flat(closed[..|closed| - 1]) + closed[|closed| - 1].reqs
  }

  lemma FlatSnoc(closed: seq<Batch>, b: Batch)
    ensures Flat(closed + [b]) == Flat(closed) + b.reqs
  {
    assert (closed + [b])[..|closed|] == closed;
  }

  function HandOf(pc: Pc): seq<Req> {
    if pc.InHand? then [pc.req] else []
  }

  /** The requests a worker has taken from its channel and not yet put in a transaction. */
  function Unflushed(wk: Worker): seq<Req> {
    wk.current + HandOf(wk.pc)
  }

  /** Everything accepted that no transaction has been attempted for. */
  function Pending(wk: Worker): seq<Req> {
    Unflushed(wk) + wk.queue
  }

  /** The number of keys that triggers a flush: a threshold below one acts like one. */
  function Limit(maxBatchSize: int): (n: nat)
    ensures n >= 1 && n >= maxBatchSize
  {
    if maxBatchSize < 1 then 1 else maxBatchSize
  }

  /** An attempted transaction has between one key and the limit, and a threshold flush has exactly the limit. */
  predicate BatchSized(b: Batch, maxBatchSize: int) {
    var keys := |Replay(map[], b.reqs)|;
    1 <= keys <= Limit(maxBatchSize) && (b.reason.Threshold? ==> keys == Limit(maxBatchSize))
  }

  /** What every step keeps about worker `w` of `n`. */
  ghost predicate WorkerInv(wk: Worker, w: nat, n: nat, maxBatchSize: int)
    requires n > 0
  {
    && wk.accepted == Flat(wk.closed) + Pending(wk)
    && wk.buffer == Replay(map[], wk.current)
    && (forall r | r in wk.accepted :: Route(r.key, n) == w)
    && (forall b | b in wk.closed :: BatchSized(b, maxBatchSize))
    && (if wk.pc == Flushing(Threshold) then |wk.buffer| == Limit(maxBatchSize) else |wk.buffer| < Limit(maxBatchSize))
    && (wk.pc.Exited? ==> wk.current == [])
    && |wk.queue| <= CHANNEL_CAPACITY
  }

  lemma AcceptingKeeps(wk: Worker, req: Req, w: nat, n: nat, maxBatchSize: int)
    requires n > 0 && WorkerInv(wk, w, n, maxBatchSize) && Route(req.key, n) == w && |wk.queue| < CHANNEL_CAPACITY
    ensures WorkerInv(Accepting(wk, req), w, n, maxBatchSize)
  {
    var wk' := Accepting(wk, req);
    assert Pending(wk') == Pending(wk) + [req];
  }

  lemma ReceivingKeeps(wk: Worker, w: nat, n: nat, maxBatchSize: int)
    requires n > 0 && WorkerInv(wk, w, n, maxBatchSize) && wk.pc.Selecting? && wk.queue != []
    ensures WorkerInv(Receiving(wk), w, n, maxBatchSize)
  {
    assert Pending(Receiving(wk)) == Pending(wk);
  }

  lemma InsertingKeeps(wk: Worker, w: nat, n: nat, maxBatchSize: int)
    requires n > 0 && WorkerInv(wk, w, n, maxBatchSize) && wk.pc.InHand?
    ensures WorkerInv(Inserting(wk, maxBatchSize), w, n, maxBatchSize)
  {
    var wk' := Inserting(wk, maxBatchSize);
    assert Pending(wk') == Pending(wk);
    ReplaySnoc(map[], wk.current, wk.pc.req);
    assert wk'.buffer.Keys == wk.buffer.Keys + {wk.pc.req.key};
    assert |wk'.buffer| == |wk'.buffer.Keys| && |wk.buffer| == |wk.buffer.Keys|;
    assert wk.pc.req.key in wk'.buffer.Keys;
  }

  lemma PendingWithoutHand(wk: Worker)
    requires !wk.pc.InHand?
    ensures Pending(wk) == wk.current + wk.queue
  {
    assert wk.current + [] == wk.current;
  }

  lemma FlatAfterFlush(wk: Worker, ok: bool)
    requires wk.pc.Flushing? && wk.buffer == Replay(map[], wk.current)
    ensures Flat(Flushed(wk, ok).closed) == Flat(wk.closed) + wk.current
  {
    ReplaySize(wk.current);
    if |wk.buffer| == 0 {
      assert wk.buffer == map[];
      assert Flat(wk.closed) + [] == Flat(wk.closed);
    } else {
      FlatSnoc(wk.closed, Batch(wk.current, wk.pc.reason, ok));
    }
  }

  lemma FlushedHistory(wk: Worker, ok: bool)
    requires wk.pc.Flushing? && wk.accepted == Flat(wk.closed) + Pending(wk) && wk.buffer == Replay(map[], wk.current)
    ensures wk.accepted == Flat(Flushed(wk, ok).closed) + Pending(Flushed(wk, ok))
  {
    hide Flat, Replay;
    PendingWithoutHand(wk);
    PendingWithoutHand(Flushed(wk, ok));
    FlatAfterFlush(wk, ok);
    assert [] + wk.queue == wk.queue;
    assert Flat(wk.closed) + (wk.current + wk.queue) == (Flat(wk.closed) + wk.current) + wk.queue;
  }

  lemma FlushedKeeps(wk: Worker, ok: bool, w: nat, n: nat, maxBatchSize: int)
    requires n > 0 && WorkerInv(wk, w, n, maxBatchSize) && wk.pc.Flushing?
    ensures WorkerInv(Flushed(wk, ok), w, n, maxBatchSize)
  {
    FlushedHistory(wk, ok);
    forall b | b in Flushed(wk, ok).closed
      ensures BatchSized(b, maxBatchSize)
    {
    }
  }

  /** The current batch is the stretch of accepted requests that follows the closed batches. */
  lemma CurrentIsNextStretch(wk: Worker, w: nat, n: nat, maxBatchSize: int)
    requires n > 0 && WorkerInv(wk, w, n, maxBatchSize)
    ensures var from := |Flat(wk.closed)|;
      && from + |wk.current| <= |wk.accepted|
      && wk.accepted[..from] == Flat(wk.closed)
      && wk.accepted[from..from + |wk.current|] == wk.current
  {
  }

  lemma CurrentAt(wk: Worker, w: nat, n: nat, maxBatchSize: int, q: nat)
    requires n > 0 && WorkerInv(wk, w, n, maxBatchSize) && q < |wk.current|
    ensures |Flat(wk.closed)| + q < |wk.accepted| && wk.accepted[|Flat(wk.closed)| + q] == wk.current[q]
  {
  }

  // ----- one writer and its store -----

  datatype Cell = Cell(writer: Writer, store: Kv)

  function CellNext(c: Cell, st: Step): Cell
    requires Enabled(c.writer, st)
  {
    Cell(Next(c.writer, st), StoreNext(c.store, c.writer, st))
  }

  predicate CanTake(c: Cell, steps: seq<Step>)
    decreases |steps|
  {
    steps == [] || (Enabled(c.writer, steps[0]) && CanTake(CellNext(c, steps[0]), steps[1..]))
  }

  function Take(c: Cell, steps: seq<Step>): Cell
    requires CanTake(c, steps)
    decreases |steps|
  {
    if steps == [] then c else Take(CellNext(c, steps[0]), steps[1..])
  }

  lemma {:induction false} TakeConcat(c: Cell, a: seq<Step>, b: seq<Step>)
    requires CanTake(c, a) && CanTake(Take(c, a), b)
    ensures CanTake(c, a + b) && Take(c, a + b) == Take(Take(c, a), b)
    decreases |a|
  {
    if a == [] {
      assert a + b == b;
    } else {
      TakeConcat(CellNext(c, a[0]), a[1..], b);
      assert (a + b)[0] == a[0] && (a + b)[1..] == a[1..] + b;
    }
  }

  lemma TakeOneStep(c: Cell, st: Step)
    requires Enabled(c.writer, st)
    ensures CanTake(c, [st]) && Take(c, [st]) == CellNext(c, st)
  {
    assert [st][1..] == [];
    assert CanTake(CellNext(c, st), []);
    assert Take(CellNext(c, st), []) == CellNext(c, st);
  }

  lemma TakeSnoc(c: Cell, steps: seq<Step>, st: Step)
    requires CanTake(c, steps) && Enabled(Take(c, steps).writer, st)
    ensures CanTake(c, steps + [st]) && Take(c, steps + [st]) == CellNext(Take(c, steps), st)
  {
    TakeOneStep(Take(c, steps), st);
    TakeConcat(c, steps, [st]);
  }
}
