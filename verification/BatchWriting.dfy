/**
  The `BatchWriter` object of db/writer.go, updated in place. Each method is one uninterrupted
  stretch of a goroutine and is proved to take the matching step of `Writers`; request values are
  slices that alias arrays the writer did not allocate, and `owned` records what those arrays held.
 */
module BatchWriting {
  import opened Bytes
  import opened Store
  import opened Writers
  import opened Transports
  import opened Turns

  datatype WriteRequest = WriteRequest(key: Key, value: Slice)

  /** Where a worker goroutine stands; it holds at most one received request. */
  datatype Where = AtSelect | Holding(req: WriteRequest) | InFlush(reason: Reason) | Done

  type Contents = map<array<byte>, seq<byte>>

  ghost predicate Holds(owned: Contents, sl: Slice, v: Value) {
    sl.arr in owned && sl.lo <= sl.hi <= |owned[sl.arr]| && owned[sl.arr][sl.lo..sl.hi] == v
  }

  ghost predicate RequestTied(owned: Contents, req: WriteRequest, r: Req) {
    req.key == r.key && Holds(owned, req.value, r.value)
  }

  ghost predicate QueueTied(owned: Contents, channel: seq<WriteRequest>, queue: seq<Req>) {
    |channel| == |queue| && forall j | 0 <= j < |channel| :: RequestTied(owned, channel[j], queue[j])
  }

  ghost predicate BufferTied(owned: Contents, buffer: map<Key, Slice>, kv: Kv) {
    buffer.Keys == kv.Keys && forall k | k in buffer :: Holds(owned, buffer[k], kv[k])
  }

  ghost predicate PcTied(owned: Contents, at: Where, pc: Pc) {
    match at
    case AtSelect => pc.Selecting?
    case Holding(req) => pc.InHand? && RequestTied(owned, req, pc.req)
    case InFlush(reason) => pc == Flushing(reason)
    case Done => pc.Exited?
  }

  ghost predicate WorkerTied(owned: Contents, channel: seq<WriteRequest>, buffer: map<Key, Slice>, at: Where,
      wk: Worker) {
    QueueTied(owned, channel, wk.queue) && BufferTied(owned, buffer, wk.buffer) && PcTied(owned, at, wk.pc)
  }

  /** Recording one more array does not change what the recorded ones hold. */
  lemma TiedStays(owned: Contents, more: Contents, channel: seq<WriteRequest>, buffer: map<Key, Slice>,
      at: Where, wk: Worker)
    requires WorkerTied(owned, channel, buffer, at, wk)
    requires forall a | a in owned :: a in more && more[a] == owned[a]
    ensures WorkerTied(more, channel, buffer, at, wk)
  {
    forall j | 0 <= j < |channel|
      ensures RequestTied(more, channel[j], wk.queue[j])
    {
      assert RequestTied(owned, channel[j], wk.queue[j]);
    }
    forall k | k in buffer
      ensures Holds(more, buffer[k], wk.buffer[k])
    {
      assert Holds(owned, buffer[k], wk.buffer[k]);
    }
  }

  lemma SameSize(buffer: map<Key, Slice>, kv: Kv)
    requires buffer.Keys == kv.Keys
    ensures |buffer| == |kv|
  {
    assert |buffer| == |buffer.Keys| && |kv| == |kv.Keys|;
  }

  lemma PutTied(owned: Contents, buffer: map<Key, Slice>, kv: Kv, k: Key, sl: Slice, v: Value)
    requires BufferTied(owned, buffer, kv) && Holds(owned, sl, v)
    ensures BufferTied(owned, buffer[k := sl], kv[k := v])
  {
  }

  lemma InsertTied(owned: Contents, channel: seq<WriteRequest>, buffer: map<Key, Slice>, req: WriteRequest,
      wk: Worker, maxBatchSize: int)
    requires WorkerTied(owned, channel, buffer, Holding(req), wk)
    ensures var buffer' := buffer[req.key := req.value];
      WorkerTied(owned, channel, buffer', if |buffer'| >= maxBatchSize then InFlush(Threshold) else AtSelect,
        Inserting(wk, maxBatchSize))
  {
    PutTied(owned, buffer, wk.buffer, req.key, req.value, wk.pc.req.value);
    SameSize(buffer[req.key := req.value], wk.buffer[req.key := wk.pc.req.value]);
  }

  /** All buffered pairs but those still to do are put. */
  ghost predicate PutSoFar(store: Kv, kv: Kv, todo: set<Key>, txn: Kv) {
    forall k :: Lookup(txn, k) == if k in kv && k !in todo then Some(kv[k]) else Lookup(store, k)
  }

  lemma NothingPut(store: Kv, kv: Kv)
    ensures PutSoFar(store, kv, kv.Keys, store)
  {
  }

  lemma PutOne(store: Kv, kv: Kv, todo: set<Key>, txn: Kv, k: Key)
    requires PutSoFar(store, kv, todo, txn) && k in kv && k in todo
    ensures PutSoFar(store, kv, todo - {k}, txn[k := kv[k]])
  {
  }

  lemma AllPut(store: Kv, kv: Kv, txn: Kv)
    requires PutSoFar(store, kv, {}, txn)
    ensures txn == store + kv
  {
    LookupExtensionality(txn, store + kv);
  }

  class BatchWriter {
    const db: Db
    const workers: nat
    const maxBatchSize: int
    const workerChannels: array<seq<WriteRequest>>
    const workerBuffers: array<map<Key, Slice>>
    const workerStates: array<Where>
    var stopped: bool

    ghost var model: Writer
    ghost var owned: Contents

    ghost predicate Valid()
      reads this, workerChannels, workerBuffers, workerStates, owned.Keys
    {
      && workerChannels.Length == workerBuffers.Length == workerStates.Length == workers == |model.workers|
      && model.maxBatchSize == maxBatchSize && model.stopped == stopped && WriterInv(model)
      && (forall a | a in owned :: a[..] == owned[a])
      && forall w | 0 <= w < workers ::
          WorkerTied(owned, workerChannels[w], workerBuffers[w], workerStates[w], model.workers[w])
    }

    /** `NewBatchWriter`: empty channels and buffers, every worker at its first `select`. */
    constructor (db: Db, maxBatchSize: int, workers: nat)
      ensures Valid() && fresh(workerChannels) && fresh(workerBuffers) && fresh(workerStates)
      ensures this.db == db && this.workers == workers && this.maxBatchSize == maxBatchSize
      ensures model == NewWriter(workers, maxBatchSize) && owned == map[]
      ensures !stopped && workerChannels.Length == workerBuffers.Length == workerStates.Length == workers
      ensures forall w | 0 <= w < workers ::
        workerChannels[w] == [] && workerBuffers[w] == map[] && workerStates[w] == AtSelect
    {
      this.db := db;
      this.maxBatchSize := maxBatchSize;
      this.workers := workers;
      workerChannels := new seq<WriteRequest>[workers](_ => []);
      workerBuffers := new map<Key, Slice>[workers](_ => map[]);
      workerStates := new Where[workers](_ => AtSelect);
      stopped := false;
      model := NewWriter(workers, maxBatchSize);
      owned := map[];
      NewWriterInv(workers, maxBatchSize);
    }

    /**
      Whether a send for this key would go through at once: when there are workers and the channel
      holds fewer than 500000 requests, stopped or not.
     */
    method HasRoom(key: Key) returns (room: bool)
      requires Valid()
      ensures room == (workers > 0 && |workerChannels[key[0] as int % workers]| < 500000)
      ensures forall v :: room == Enabled(model, Writers.BufferWrite(Req(key, v)))
    {
      room := workers > 0 && |workerChannels[Route(key, workers)]| < CHANNEL_CAPACITY;
      assert workers > 0 ==>
        QueueTied(owned, workerChannels[Route(key, workers)], model.workers[Route(key, workers)].queue);
    }

    /**
      `BufferWrite`, at the moment its send completes: the request joins the channel numbered by the
      first byte of the key modulo the workers. The value is not copied.
     */
    method BufferWrite(key: Key, value: Slice)
      requires Valid() && value.InBounds()
      requires Enabled(model, Writers.BufferWrite(Req(key, value.Contents())))
      modifies this`model, this`owned, workerChannels
      ensures Valid() && owned == old(owned)[value.arr := value.arr[..]]
      ensures model == Next(old(model), Writers.BufferWrite(Req(key, value.Contents())))
      ensures workers > 0
      ensures var w := key[0] as int % workers;
        workerChannels[..] == old(workerChannels[..])[w := old(workerChannels[w]) + [WriteRequest(key, value)]]
    {
      hide WriterInv;
      var w := Route(key, workers);
      ghost var more := owned[value.arr := value.arr[..]];
      forall v | 0 <= v < workers
        ensures WorkerTied(more, workerChannels[v], workerBuffers[v], workerStates[v], model.workers[v])
      {
        TiedStays(owned, more, workerChannels[v], workerBuffers[v], workerStates[v], model.workers[v]);
      }
      assert Holds(more, value, value.Contents());
      WriterStepKeeps(model, Writers.BufferWrite(Req(key, value.Contents())));
      workerChannels[w] := workerChannels[w] + [WriteRequest(key, value)];
      owned := more;
      model := Next(model, Writers.BufferWrite(Req(key, value.Contents())));
    }

    /** The receive case of the `select`. */
    method Receive(w: nat)
      requires Valid() && Enabled(model, Writers.Receive(w))
      modifies this`model, workerChannels, workerStates
      ensures Valid() && model == Next(old(model), Writers.Receive(w))
      ensures old(workerStates[w]) == AtSelect && |old(workerChannels[w])| > 0
      ensures workerStates[w] == Holding(old(workerChannels[w][0])) && workerChannels[w] == old(workerChannels[w][1..])
      ensures forall v | 0 <= v < workers && v != w ::
        workerChannels[v] == old(workerChannels[v]) && workerStates[v] == old(workerStates[v])
    {
      hide WriterInv;
      var req := workerChannels[w][0];
      assert RequestTied(owned, req, model.workers[w].queue[0]);
      WriterStepKeeps(model, Writers.Receive(w));
      workerChannels[w] := workerChannels[w][1..];
      workerStates[w] := Holding(req);
      model := Next(model, Writers.Receive(w));
    }

    /** The map write under the worker's mutex, and the size check. */
    method Insert(w: nat)
      requires Valid() && Enabled(model, Writers.Insert(w))
      modifies this`model, workerBuffers, workerStates
      ensures Valid() && model == Next(old(model), Writers.Insert(w))
      ensures old(workerStates[w]).Holding?
      ensures var req := old(workerStates[w]).req; var buffer := old(workerBuffers[w])[req.key := req.value];
        && workerBuffers[..] == old(workerBuffers[..])[w := buffer]
        && workerStates[..] ==
            old(workerStates[..])[w := if |buffer| >= maxBatchSize then InFlush(Threshold) else AtSelect]
    {
      hide WriterInv;
      var req := workerStates[w].req;
      ghost var wk := model.workers[w];
      InsertTied(owned, workerChannels[w], workerBuffers[w], req, wk, maxBatchSize);
      var buffer := workerBuffers[w][req.key := req.value];
      var next := if |buffer| >= maxBatchSize then InFlush(Threshold) else AtSelect;
      WriterStepKeeps(model, Writers.Insert(w));
      Update(w, buffer, next, Next(model, Writers.Insert(w)));
    }

    /** Stores a worker's buffer and state. */
    method Update(w: nat, buffer: map<Key, Slice>, at: Where, ghost next: Writer)
      requires Valid() && w < workers && |next.workers| == workers
      requires next == Set(model, w, next.workers[w])
      requires WorkerTied(owned, workerChannels[w], buffer, at, next.workers[w]) && WriterInv(next)
      modifies this`model, workerBuffers, workerStates
      ensures Valid() && model == next
      ensures workerBuffers[..] == old(workerBuffers[..])[w := buffer]
      ensures workerStates[..] == old(workerStates[..])[w := at]
    {
      hide WriterInv;
      workerBuffers[w] := buffer;
      workerStates[w] := at;
      model := next;
    }

    /** The ticker case of the `select`. */
    method TickFires(w: nat)
      requires Valid() && Enabled(model, Writers.TickFires(w))
      modifies this`model, workerStates
      ensures Valid() && model == Next(old(model), Writers.TickFires(w))
      ensures old(workerStates[w]) == AtSelect && workerStates[..] == old(workerStates[..])[w := InFlush(Ticker)]
    {
      hide WriterInv;
      WriterStepKeeps(model, Writers.TickFires(w));
      workerStates[w] := InFlush(Ticker);
      model := Next(model, Writers.TickFires(w));
    }

    /** The stop case of the `select`. */
    method SeesStop(w: nat)
      requires Valid() && Enabled(model, Writers.SeesStop(w))
      modifies this`model, workerStates
      ensures Valid() && model == Next(old(model), Writers.SeesStop(w))
      ensures stopped && old(workerStates[w]) == AtSelect
      ensures workerStates[..] == old(workerStates[..])[w := InFlush(Stopping)]
    {
      hide WriterInv;
      WriterStepKeeps(model, Writers.SeesStop(w));
      workerStates[w] := InFlush(Stopping);
      model := Next(model, Writers.SeesStop(w));
    }

    /** `FlushAndStop` only closes the stop channel; closing it twice panics. */
    method FlushAndStop()
      requires Valid() && !stopped
      modifies this`model, this`stopped
      ensures Valid() && stopped && model == Next(old(model), SignalStop)
    {
      hide WriterInv;
      WriterStepKeeps(model, SignalStop);
      stopped := true;
      model := Next(model, SignalStop);
    }

    /**
      `flush`: one transaction that puts the buffered pairs in any order and commits unless the
      fault hits; either way the buffer is cleared.
     */
    method Flush(w: nat, fault: Fault) returns (ok: bool)
      requires Valid() && w < workers && workerStates[w].InFlush?
      modifies this`model, workerBuffers, workerStates, db
      ensures Valid()
      ensures ok == !Aborts(fault, |old(workerBuffers[w])|)
      ensures Enabled(old(model), Writers.Flush(w, ok))
      ensures db.store == if ok then old(db.store) + old(model.workers[w].buffer) else old(db.store)
      ensures workerBuffers[..] == old(workerBuffers[..])[w := map[]]
      ensures workerStates[..] ==
        old(workerStates[..])[w := if old(workerStates[w]) == InFlush(Stopping) then Done else AtSelect]
      ensures Cell(model, db.store) == CellNext(Cell(old(model), old(db.store)), Writers.Flush(w, ok))
    {
      hide WriterInv;
      InFlushTied(w);
      ok := Commit(w, fault);
      Clear(w, ok);
    }

    lemma InFlushTied(w: nat)
      requires Valid() && w < workers && workerStates[w].InFlush?
      ensures |model.workers| == workerBuffers.Length == workers
      ensures model.workers[w].pc == Flushing(workerStates[w].reason)
      ensures |workerBuffers[w]| == |model.workers[w].buffer|
    {
      assert WorkerTied(owned, workerChannels[w], workerBuffers[w], workerStates[w], model.workers[w]);
      SameSize(workerBuffers[w], model.workers[w].buffer);
    }

    /** The transaction, unless there is nothing to put. */
    method Commit(w: nat, fault: Fault) returns (ok: bool)
      requires Valid() && w < workers && workerStates[w].InFlush?
      modifies db
      ensures ok == !Aborts(fault, |workerBuffers[w]|)
      ensures db.store == if ok then old(db.store) + model.workers[w].buffer else old(db.store)
    {
      hide Valid, WriterInv;
      InFlushTied(w);
      NothingToPut(db.store, model.workers[w].buffer);
      if |workerBuffers[w]| == 0 {
        return true;
      }
      var txn;
      ok, txn := PutAll(w, fault);
      if ok {
        db.store := txn;
      }
    }

    /** The buffer is replaced by an empty one, whatever became of the transaction. */
    method Clear(w: nat, ghost ok: bool)
      requires Valid() && w < workers && workerStates[w].InFlush?
      modifies this`model, workerBuffers, workerStates
      ensures Valid() && Enabled(old(model), Writers.Flush(w, ok))
      ensures model == Next(old(model), Writers.Flush(w, ok))
      ensures workerBuffers[..] == old(workerBuffers[..])[w := map[]]
      ensures workerStates[..] ==
        old(workerStates[..])[w := if old(workerStates[w]) == InFlush(Stopping) then Done else AtSelect]
    {
      hide WriterInv;
      InFlushTied(w);
      WriterStepKeeps(model, Writers.Flush(w, ok));
      var next := if workerStates[w].reason.Stopping? then Done else AtSelect;
      assert WorkerTied(owned, workerChannels[w], map[], next, Flushed(model.workers[w], ok));
      Update(w, map[], next, Next(model, Writers.Flush(w, ok)));
    }

    /** The body of the update transaction, on its own view of the store. */
    method PutAll(w: nat, fault: Fault) returns (ok: bool, txn: Kv)
      requires Valid() && w < workers
      ensures ok <==>
        match fault
        case NoFault => true
        case CursorFails => false
        case PutFails(at) => at >= |workerBuffers[w]|
        case CommitFails => false
      ensures ok ==> txn == db.store + model.workers[w].buffer
    {
      var buffer := workerBuffers[w];
      ghost var kv := model.workers[w].buffer;
      assert BufferTied(owned, buffer, kv);
      hide PutSoFar, Valid;
      txn := db.store;
      if fault.CursorFails? {
        return false, txn;
      }
      var todo := buffer.Keys;
      var puts := 0;
      NothingPut(db.store, kv);
      while todo != {}
        invariant todo <= buffer.Keys
        invariant puts == |buffer.Keys| - |todo|
        invariant fault.PutFails? ==> fault.at >= puts
        invariant PutSoFar(db.store, kv, todo, txn)
        decreases todo
      {
        var key :| key in todo;
        if fault == PutFails(puts) {
          return false, txn;
        }
        assert Holds(owned, buffer[key], kv[key]);
        PutOne(db.store, kv, todo, txn, key);
        txn := txn[key := buffer[key].Contents()];
        todo := todo - {key};
        puts := puts + 1;
      }
      AllPut(db.store, kv, txn);
      ok := !fault.CommitFails?;
    }

    /** One turn of the loop in `runWorker`, from `select` back to it or out of the loop. */
    method Turn(w: nat, branch: Branch, fault: Fault)
      requires Valid() && w < workers && workerStates[w].AtSelect? && Ready(model, w, branch)
      modifies this`model, workerChannels, workerBuffers, workerStates, db
      ensures Valid()
      ensures var c := Cell(old(model), old(db.store));
        && c.writer.workers[w].pc.Selecting?
        && Cell(model, db.store) == Take(c, TurnSteps(c, w, branch, fault))
    {
      hide WriterInv;
      ghost var c := Cell(model, db.store);
      BeforeFlushRuns(c, w, branch);
      match branch {
        case OnRequest =>
          Receive(w);
          Insert(w);
        case OnTick =>
          TickFires(w);
        case OnStop =>
          SeesStop(w);
      }
      assert Cell(model, db.store) == Take(c, BeforeFlush(w, branch));
      FlushIfDue(w, fault);
      ghost var mid := Take(c, BeforeFlush(w, branch));
      if mid.writer.workers[w].pc.Flushing? {
        TakeSnoc(c, BeforeFlush(w, branch), Writers.Flush(w, FlushOk(mid.writer.workers[w], fault)));
      }
    }

    method FlushIfDue(w: nat, fault: Fault)
      requires Valid() && w < workers
      modifies this`model, workerBuffers, workerStates, db
      ensures Valid()
      ensures AfterFlush(Cell(old(model), old(db.store)), Cell(model, db.store), w, fault)
    {
      hide Valid, Aborts, FlushOk, CellNext;
      FlushTied(w);
      OkUnlessAborted(model.workers[w], fault);
      if workerStates[w].InFlush? {
        var _ := Flush(w, fault);
      }
    }

    lemma FlushTied(w: nat)
      requires Valid() && w < workers
      ensures |model.workers| == workerBuffers.Length == workerStates.Length == workers
      ensures workerStates[w].InFlush? <==> model.workers[w].pc.Flushing?
      ensures |workerBuffers[w]| == |model.workers[w].buffer|
    {
      assert WorkerTied(owned, workerChannels[w], workerBuffers[w], workerStates[w], model.workers[w]);
      SameSize(workerBuffers[w], model.workers[w].buffer);
    }

    lemma AtSelectFacts(w: nat)
      requires Valid() && w < workers && workerStates[w].AtSelect?
      ensures model.workers[w].pc.Selecting? && BufferMatches(model.workers[w])
      ensures |workerBuffers[w]| == |model.workers[w].buffer|
    {
      assert WorkerTied(owned, workerChannels[w], workerBuffers[w], workerStates[w], model.workers[w]);
      assert WorkerInv(model.workers[w], w, |model.workers|, model.maxBatchSize);
      SameSize(workerBuffers[w], model.workers[w].buffer);
    }

    method Woken(w: nat, wake: Wake)
      requires Valid() && w < workers && workerStates[w].AtSelect?
      modifies this`model, workerChannels, workerBuffers, workerStates, db
      ensures Valid()
      ensures var c := Cell(old(model), old(db.store));
        c.writer.workers[w].pc.Selecting? && Cell(model, db.store) == WakeNext(c, w, wake)
    {
      assert WorkerTied(owned, workerChannels[w], workerBuffers[w], workerStates[w], model.workers[w]);
      var ready :=
        match wake.branch
        case OnRequest => workerChannels[w] != []
        case OnTick => true
        case OnStop => stopped;
      assert ready == Ready(model, w, wake.branch);
      if ready {
        Turn(w, wake.branch, wake.fault);
      }
    }

    /** The loop of `runWorker`, which ends when the stop case is taken. */
    method Loop(w: nat, wakes: seq<Wake>)
      requires Valid() && w < workers && workerStates[w].AtSelect?
      modifies this`model, workerChannels, workerBuffers, workerStates, db
      ensures Valid()
      ensures var c := Cell(old(model), old(db.store));
        c.writer.workers[w].pc.Selecting? && Cell(model, db.store) == WorkerRun(c, w, wakes)
    {
      hide WriterInv;
      ghost var target := WorkerRun(Cell(model, db.store), w, wakes);
      var i := 0;
      while i < |wakes| && !workerStates[w].Done?
        invariant i <= |wakes| && Valid()
        invariant PcTied(owned, workerStates[w], model.workers[w].pc)
        invariant model.workers[w].pc.Selecting? || model.workers[w].pc.Exited?
        invariant target == WorkerRun(Cell(model, db.store), w, wakes[i..])
      {
        assert wakes[i..][1..] == wakes[i + 1..];
        Woken(w, wakes[i]);
        assert WorkerTied(owned, workerChannels[w], workerBuffers[w], workerStates[w], model.workers[w]);
        i := i + 1;
      }
    }

    /**
      `runWorker`, for as many wakes as are given. Woken by requests it takes what there is, in
      order; a tick commits the buffer; the stop of a stopped writer does too, and ends the worker.
     */
    method RunWorker(w: nat, wakes: seq<Wake>)
      requires Valid() && w < workers && workerStates[w].AtSelect?
      modifies this`model, workerChannels, workerBuffers, workerStates, db
      ensures Valid()
      ensures var c := Cell(old(model), old(db.store));
        c.writer.workers[w].pc.Selecting? && Cell(model, db.store) == WorkerRun(c, w, wakes)
      ensures var wk, wk' := old(model.workers[w]), model.workers[w];
        var n := if |wakes| < |wk.queue| then |wakes| else |wk.queue|;
        (forall k | 0 <= k < |wakes| :: wakes[k].branch.OnRequest?) ==>
          && workerStates[w] == AtSelect && wk'.queue == wk.queue[n..]
          && Flat(wk'.closed) + wk'.current == Flat(wk.closed) + wk.current + wk.queue[..n]
      ensures |wakes| == 1 && wakes[0] == Wake(OnTick, NoFault) ==>
        && db.store == old(db.store) + old(model.workers[w].buffer)
        && workerBuffers[w] == map[] && workerStates[w] == AtSelect
      ensures old(stopped) && |wakes| > 0 && wakes[0].branch.OnStop? ==>
        && db.store == (if Aborts(wakes[0].fault, |old(workerBuffers[w])|) then old(db.store)
            else old(db.store) + old(model.workers[w].buffer))
        && workerBuffers[w] == map[] && workerStates[w] == Done
        && model.workers[w].queue == old(model.workers[w].queue)
    {
      hide WriterInv, WorkerRun;
      AtSelectFacts(w);
      WorkerRunMeans(Cell(model, db.store), w, wakes);
      Loop(w, wakes);
      StateFacts(w);
    }

    lemma StateFacts(w: nat)
      requires Valid() && w < workers
      ensures model.workers[w].pc.Selecting? ==> workerStates[w] == AtSelect
      ensures model.workers[w].pc.Exited? ==> workerStates[w] == Done
      ensures model.workers[w].buffer == map[] ==> workerBuffers[w] == map[]
    {
      assert WorkerTied(owned, workerChannels[w], workerBuffers[w], workerStates[w], model.workers[w]);
      if model.workers[w].buffer == map[] {
        assert workerBuffers[w].Keys == {};
      }
    }

    /** Whether the goroutine of the act's worker stands where the act can happen. */
    method CanPerform(act: Act) returns (can: bool)
      requires Valid()
      ensures can == Enabled(model, ActStep(model, act))
    {
      if act.w >= workers {
        return false;
      }
      var at := workerStates[act.w];
      assert WorkerTied(owned, workerChannels[act.w], workerBuffers[act.w], at, model.workers[act.w]);
      match act.kind {
        case DoReceive => can := at.AtSelect? && workerChannels[act.w] != [];
        case DoInsert => can := at.Holding?;
        case DoTick => can := at.AtSelect?;
        case DoStop => can := at.AtSelect? && stopped;
        case DoFlush => can := at.InFlush?;
      }
    }

    method Move(act: Act)
      requires Valid() && Enabled(model, ActStep(model, act)) && !act.kind.DoFlush?
      modifies this`model, workerChannels, workerBuffers, workerStates
      ensures Valid() && model == Next(old(model), ActStep(old(model), act))
    {
      match act.kind {
        case DoReceive => Receive(act.w);
        case DoInsert => Insert(act.w);
        case DoTick => TickFires(act.w);
        case DoStop => SeesStop(act.w);
      }
    }

    method Perform(act: Act)
      requires Valid()
      modifies this`model, workerChannels, workerBuffers, workerStates, db
      ensures Valid()
      ensures Cell(model, db.store) == ActNext(Cell(old(model), old(db.store)), act)
    {
      hide WriterInv;
      var can := CanPerform(act);
      if can {
        ghost var c := Cell(model, db.store);
        if act.kind.DoFlush? {
          ActNextFlush(c, act);
          FlushIfDue(act.w, act.fault);
        } else {
          ActNextMove(c, act);
          Move(act);
        }
      }
    }
  }
}
