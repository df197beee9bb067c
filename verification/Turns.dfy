/**
  What a worker goroutine does when it is woken: the turns of its select loop, whole or as the
  scheduler may cut them into steps, and what they amount to.
 */
module Turns {
  import opened Store
  import opened Writers
  import opened Failures
  import opened Shards

  /** What goes wrong in a transaction: opening the cursor, one of the puts, or the commit. */
  datatype Fault = NoFault | CursorFails | PutFails(at: nat) | CommitFails {
    predicate Hits(puts: nat) {
      CursorFails? || CommitFails? || (PutFails? && at < puts)
    }
  }

  /** The case a `select` takes. */
  datatype Branch = OnRequest | OnTick | OnStop

  // ----- one turn of the select loop -----

  predicate Ready(wr: Writer, w: nat, branch: Branch)
    requires w < |wr.workers|
  {
    match branch
    case OnRequest => wr.workers[w].queue != []
    case OnTick => true
    case OnStop => wr.stopped
  }

  /** Up to where the turn either returns to `select` or calls `flush`. */
  function BeforeFlush(w: nat, branch: Branch): seq<Step> {
    match branch
    case OnRequest => [Receive(w), Insert(w)]
    case OnTick => [TickFires(w)]
    case OnStop => [SeesStop(w)]
  }

  lemma BeforeFlushRuns(c: Cell, w: nat, branch: Branch)
    requires w < |c.writer.workers| && c.writer.workers[w].pc.Selecting? && Ready(c.writer, w, branch)
    ensures CanTake(c, BeforeFlush(w, branch))
    ensures Take(c, BeforeFlush(w, branch)) ==
      match branch
      case OnRequest => CellNext(CellNext(c, Receive(w)), Insert(w))
      case OnTick => CellNext(c, TickFires(w))
      case OnStop => CellNext(c, SeesStop(w))
  {
    if branch.OnRequest? {
      TakeOneStep(c, Receive(w));
      TakeSnoc(c, [Receive(w)], Insert(w));
      assert [Receive(w)] + [Insert(w)] == [Receive(w), Insert(w)];
    } else {
      TakeOneStep(c, BeforeFlush(w, branch)[0]);
    }
  }

  function FlushOk(wk: Worker, fault: Fault): bool {
    |wk.buffer| == 0 || !fault.Hits(|wk.buffer|)
  }

  /** The steps of one turn: what the chosen case does, and the flush it leads to if any. */
  function TurnSteps(c: Cell, w: nat, branch: Branch, fault: Fault): (steps: seq<Step>)
    requires w < |c.writer.workers| && c.writer.workers[w].pc.Selecting? && Ready(c.writer, w, branch)
    ensures CanTake(c, steps) && |Take(c, steps).writer.workers| == |c.writer.workers|
  {
    BeforeFlushRuns(c, w, branch);
    var mid := Take(c, BeforeFlush(w, branch));
    if mid.writer.workers[w].pc.Flushing? then
      var flush := Flush(w, FlushOk(mid.writer.workers[w], fault));
      TakeSnoc(c, BeforeFlush(w, branch), flush);
      BeforeFlush(w, branch) + [flush]
    else BeforeFlush(w, branch)
  }

  /** One thing that wakes a worker at its `select`, and what befalls the transaction it may lead to. */
  datatype Wake = Wake(branch: Branch, fault: Fault)

  lemma TurnEnds(c: Cell, w: nat, branch: Branch, fault: Fault)
    requires w < |c.writer.workers| && c.writer.workers[w].pc.Selecting? && Ready(c.writer, w, branch)
    ensures var wk := Take(c, TurnSteps(c, w, branch, fault)).writer.workers[w];
      if branch.OnStop? then wk.pc.Exited? else wk.pc.Selecting?
  {
    BeforeFlushRuns(c, w, branch);
    var mid := Take(c, BeforeFlush(w, branch));
    if mid.writer.workers[w].pc.Flushing? {
      TakeSnoc(c, BeforeFlush(w, branch), Flush(w, FlushOk(mid.writer.workers[w], fault)));
    }
  }

  /** A wake whose case is not ready does not happen. */
  function WakeSteps(c: Cell, w: nat, wake: Wake): (steps: seq<Step>)
    requires w < |c.writer.workers| && c.writer.workers[w].pc.Selecting?
    ensures CanTake(c, steps)
  {
    if Ready(c.writer, w, wake.branch) then TurnSteps(c, w, wake.branch, wake.fault) else []
  }

  function WakeNext(c: Cell, w: nat, wake: Wake): (c': Cell)
    requires w < |c.writer.workers| && c.writer.workers[w].pc.Selecting?
    ensures w < |c'.writer.workers| && (c'.writer.workers[w].pc.Selecting? || c'.writer.workers[w].pc.Exited?)
  {
    if Ready(c.writer, w, wake.branch) then
      TurnEnds(c, w, wake.branch, wake.fault);
      Take(c, WakeSteps(c, w, wake))
    else c
  }

  /** What `runWorker` does when woken so: a stop ends it. */
  function WorkerRun(c: Cell, w: nat, wakes: seq<Wake>): (c': Cell)
    requires w < |c.writer.workers| && (c.writer.workers[w].pc.Selecting? || c.writer.workers[w].pc.Exited?)
    ensures w < |c'.writer.workers|
    decreases |wakes|
  {
    if wakes == [] || c.writer.workers[w].pc.Exited? then c
    else WorkerRun(WakeNext(c, w, wakes[0]), w, wakes[1..])
  }

  /** All of it is steps of the writer. */
  lemma {:induction false} WorkerRunIsSteps(c: Cell, w: nat, wakes: seq<Wake>) returns (steps: seq<Step>)
    requires w < |c.writer.workers| && (c.writer.workers[w].pc.Selecting? || c.writer.workers[w].pc.Exited?)
    ensures CanTake(c, steps) && Take(c, steps) == WorkerRun(c, w, wakes)
    decreases |wakes|
  {
    if wakes == [] || c.writer.workers[w].pc.Exited? {
      steps := [];
    } else {
      var turn := WakeSteps(c, w, wakes[0]);
      assert Take(c, turn) == WakeNext(c, w, wakes[0]);
      var rest := WorkerRunIsSteps(WakeNext(c, w, wakes[0]), w, wakes[1..]);
      TakeConcat(c, turn, rest);
      steps := turn + rest;
    }
  }

  /** A step of a worker goroutine, as the scheduler may slip it between two steps of another goroutine. */
  datatype Act = Act(w: nat, kind: ActKind, fault: Fault)

  datatype ActKind = DoReceive | DoInsert | DoTick | DoStop | DoFlush

  function ActStep(wr: Writer, act: Act): Step {
    match act.kind
    case DoReceive => Receive(act.w)
    case DoInsert => Insert(act.w)
    case DoTick => TickFires(act.w)
    case DoStop => SeesStop(act.w)
    case DoFlush => Flush(act.w, act.w < |wr.workers| && FlushOk(wr.workers[act.w], act.fault))
  }

  /** An act whose step is not enabled does not happen. */
  function ActNext(c: Cell, act: Act): Cell {
    var st := ActStep(c.writer, act);
    if Enabled(c.writer, st) then CellNext(c, st) else c
  }

  /** A worker on its way into a flush has done it, and any other is as it was. */
  predicate AfterFlush(c: Cell, c': Cell, w: nat, fault: Fault) {
    && w < |c.writer.workers|
    && var wk := c.writer.workers[w];
      c' == if wk.pc.Flushing? then CellNext(c, Flush(w, FlushOk(wk, fault))) else c
  }

  lemma ActNextMove(c: Cell, act: Act)
    requires Enabled(c.writer, ActStep(c.writer, act)) && !act.kind.DoFlush?
    ensures ActNext(c, act) == Cell(Next(c.writer, ActStep(c.writer, act)), c.store)
  {
  }

  lemma ActNextFlush(c: Cell, act: Act)
    requires Enabled(c.writer, ActStep(c.writer, act)) && act.kind.DoFlush?
    ensures act.w < |c.writer.workers| && c.writer.workers[act.w].pc.Flushing?
    ensures ActNext(c, act) == CellNext(c, Flush(act.w, FlushOk(c.writer.workers[act.w], act.fault)))
  {
  }

  // ----- what acts are, on the worker's own fields -----

  /** Everything but worker `w` and the store is as it was. */
  predicate OnlyWorker(c: Cell, c': Cell, w: nat)
    requires w < |c.writer.workers|
  {
    w < |c'.writer.workers| && c'.writer == c.writer.(workers := c.writer.workers[w := c'.writer.workers[w]])
  }

  lemma ActElsewhere(c: Cell, act: Act)
    requires act.w >= |c.writer.workers|
    ensures ActNext(c, act) == c
  {
  }

  /** The receive case takes the oldest request of the channel in hand, if the worker selects and there is one. */
  lemma ReceiveAct(c: Cell, w: nat, fault: Fault)
    requires w < |c.writer.workers|
    ensures var c' := ActNext(c, Act(w, DoReceive, fault)); var wk := c.writer.workers[w];
      if wk.pc.Selecting? && |wk.queue| > 0 then
        && OnlyWorker(c, c', w) && c'.store == c.store
        && c'.writer.workers[w] == wk.(queue := wk.queue[1..], pc := InHand(wk.queue[0]))
      else c' == c
  {
  }

  /** The request in hand goes into the map, and the size decides whether a flush follows. */
  lemma InsertAct(c: Cell, w: nat, fault: Fault)
    requires w < |c.writer.workers|
    ensures var c' := ActNext(c, Act(w, DoInsert, fault)); var wk := c.writer.workers[w];
      if wk.pc.InHand? then
        var wk' := c'.writer.workers[w];
        && OnlyWorker(c, c', w) && c'.store == c.store
        && wk'.buffer == wk.buffer[wk.pc.req.key := wk.pc.req.value]
        && wk'.pc == (if |wk'.buffer| >= c.writer.maxBatchSize then Flushing(Threshold) else Selecting)
        && wk' == wk.(buffer := wk'.buffer, pc := wk'.pc, current := wk.current + [wk.pc.req])
      else c' == c
  {
  }

  /** The ticker case leads a selecting worker into a flush, stopped or not. */
  lemma TickAct(c: Cell, w: nat, fault: Fault)
    requires w < |c.writer.workers|
    ensures var c' := ActNext(c, Act(w, DoTick, fault)); var wk := c.writer.workers[w];
      if wk.pc.Selecting? then
        OnlyWorker(c, c', w) && c'.store == c.store && c'.writer.workers[w] == wk.(pc := Flushing(Ticker))
      else c' == c
  {
  }

  /** The stop case leads a selecting worker into its last flush exactly when the writer is stopped. */
  lemma StopAct(c: Cell, w: nat, fault: Fault)
    requires w < |c.writer.workers|
    ensures var c' := ActNext(c, Act(w, DoStop, fault)); var wk := c.writer.workers[w];
      if wk.pc.Selecting? && c.writer.stopped then
        OnlyWorker(c, c', w) && c'.store == c.store && c'.writer.workers[w] == wk.(pc := Flushing(Stopping))
      else c' == c
  {
  }

  /** Which faults abort a transaction of `n` puts; an empty buffer makes none. */
  predicate Aborts(fault: Fault, n: nat) {
    n > 0 &&
      match fault
      case NoFault => false
      case CursorFails => true
      case PutFails(at) => at < n
      case CommitFails => true
  }

  lemma OkUnlessAborted(wk: Worker, fault: Fault)
    ensures FlushOk(wk, fault) == !Aborts(fault, |wk.buffer|)
  {
  }

  lemma NothingToPut(store: Kv, buffer: Kv)
    ensures |buffer| == 0 ==> store + buffer == store
  {
  }

  /** A flush commits all of the buffer or nothing, clears it, and ends the loop if it is the last. */
  lemma FlushAct(c: Cell, w: nat, fault: Fault)
    requires w < |c.writer.workers|
    ensures var c' := ActNext(c, Act(w, DoFlush, fault)); var wk := c.writer.workers[w];
      if wk.pc.Flushing? then
        var wk' := c'.writer.workers[w];
        var ok := !Aborts(fault, |wk.buffer|);
        && OnlyWorker(c, c', w)
        && c'.store == (if ok then c.store + wk.buffer else c.store)
        && wk'.buffer == map[] && wk'.current == [] && wk'.queue == wk.queue && wk'.accepted == wk.accepted
        && wk'.pc == (if wk.pc.reason == Stopping then Exited else Selecting)
        && wk'.closed ==
            (if |wk.buffer| == 0 then wk.closed else wk.closed + [Batch(wk.current, wk.pc.reason, ok)])
      else c' == c
  {
    hide Replay;
    var wk := c.writer.workers[w];
    if wk.pc.Flushing? {
      ActNextFlush(c, Act(w, DoFlush, fault));
      NothingToPut(c.store, wk.buffer);
    }
  }

  // ----- what turns amount to -----

  ghost predicate BufferMatches(wk: Worker) {
    wk.buffer == Replay(map[], wk.current)
  }

  /**
    From `c` to `c'` worker `w` has taken `n` requests, and committed what its newly closed batches
    say, all of them if no transaction failed.
   */
  ghost predicate Progress(c: Cell, c': Cell, w: nat, n: nat, clean: bool) {
    && w < |c.writer.workers| && OnlyWorker(c, c', w)
    && var wk, wk' := c.writer.workers[w], c'.writer.workers[w];
      && n <= |wk.queue| && wk'.queue == wk.queue[n..] && wk'.accepted == wk.accepted
      && BufferMatches(wk') && wk.closed <= wk'.closed
      && Flat(wk'.closed) + Unflushed(wk') == Flat(wk.closed) + Unflushed(wk) + wk.queue[..n]
      && c'.store == Replay(c.store, CommittedReqs(wk'.closed[|wk.closed|..]))
      && (clean ==> AllCommitted(wk'.closed[|wk.closed|..]))
  }

  lemma {:induction false} CommittedReqsAppend(a: seq<Batch>, b: seq<Batch>)
    ensures CommittedReqs(a + b) == CommittedReqs(a) + CommittedReqs(b)
  {
    if b == [] {
      assert a + b == a;
    } else {
      var n := |b| - 1;
      assert (a + b)[..|a + b| - 1] == a + b[..n];
      CommittedReqsAppend(a, b[..n]);
    }
  }

  lemma NoProgress(c: Cell, w: nat)
    requires w < |c.writer.workers| && BufferMatches(c.writer.workers[w])
    ensures Progress(c, c, w, 0, true)
  {
    var wk := c.writer.workers[w];
    assert wk.queue[0..] == wk.queue && wk.closed[|wk.closed|..] == [];
    assert Flat(wk.closed) + Unflushed(wk) + [] == Flat(wk.closed) + Unflushed(wk);
  }

  lemma StoreProgress(m: Kv, a: seq<Batch>, b: seq<Batch>, c: seq<Batch>)
    requires a <= b <= c
    ensures Replay(Replay(m, CommittedReqs(b[|a|..])), CommittedReqs(c[|b|..])) == Replay(m, CommittedReqs(c[|a|..]))
  {
    assert c[|a|..] == b[|a|..] + c[|b|..];
    CommittedReqsAppend(b[|a|..], c[|b|..]);
    ReplayAppend(m, CommittedReqs(b[|a|..]), CommittedReqs(c[|b|..]));
  }

  lemma QueueProgress(done: seq<Req>, queue: seq<Req>, m: nat, n: nat)
    requires m + n <= |queue|
    ensures queue[m..][n..] == queue[m + n..]
    ensures done + queue[..m] + queue[m..][..n] == done + queue[..m + n]
  {
    assert queue[..m] + queue[m..][..n] == queue[..m + n];
  }

  lemma ProgressGoesOn(a: Cell, b: Cell, c: Cell, w: nat, m: nat, n: nat, x: bool, y: bool)
    requires Progress(a, b, w, m, x) && Progress(b, c, w, n, y)
    ensures Progress(a, c, w, m + n, x && y)
  {
    hide Flat, Replay, CommittedReqs, Unflushed, BufferMatches;
    var wa, wb, wc := a.writer.workers[w], b.writer.workers[w], c.writer.workers[w];
    StoreProgress(a.store, wa.closed, wb.closed, wc.closed);
    QueueProgress(Flat(wa.closed) + Unflushed(wa), wa.queue, m, n);
    assert wc.closed[|wa.closed|..] == wb.closed[|wa.closed|..] + wc.closed[|wb.closed|..];
  }

  lemma CommittedNothing()
    ensures CommittedReqs([]) == [] && forall m: Kv :: Replay(m, []) == m
  {
  }

  lemma TakesOne(c: Cell, w: nat)
    requires w < |c.writer.workers| && c.writer.workers[w].pc.Selecting? && c.writer.workers[w].queue != []
    ensures CellNext(CellNext(c, Receive(w)), Insert(w)) ==
      Cell(Set(c.writer, w, Inserting(Receiving(c.writer.workers[w]), c.writer.maxBatchSize)), c.store)
  {
  }

  lemma TakeProgress(c: Cell, w: nat)
    requires w < |c.writer.workers| && BufferMatches(c.writer.workers[w])
    requires c.writer.workers[w].pc.Selecting? && c.writer.workers[w].queue != []
    ensures Progress(c, CellNext(CellNext(c, Receive(w)), Insert(w)), w, 1, true)
  {
    hide Flat, CommittedReqs, CellNext, Replay;
    var wk := c.writer.workers[w];
    var wk' := Inserting(Receiving(wk), c.writer.maxBatchSize);
    TakesOne(c, w);
    CommittedNothing();
    ReplaySnoc(map[], wk.current, wk.queue[0]);
    assert wk.current + [] == wk.current && wk'.current + [] == wk'.current;
    assert wk'.closed[|wk.closed|..] == [];
    assert Flat(wk.closed) + (wk.current + [wk.queue[0]]) == Flat(wk.closed) + wk.current + wk.queue[..1];
  }

  lemma EnterProgress(c: Cell, w: nat, reason: Reason)
    requires w < |c.writer.workers| && BufferMatches(c.writer.workers[w]) && c.writer.workers[w].pc.Selecting?
    ensures Progress(c, Cell(Set(c.writer, w, c.writer.workers[w].(pc := Flushing(reason))), c.store), w, 0, true)
  {
    NoProgress(c, w);
  }

  lemma CommittedReqsOne(b: Batch)
    ensures CommittedReqs([b]) == if b.committed then b.reqs else []
  {
    assert [b][..0] == [];
  }

  lemma FlushStore(c: Cell, w: nat, ok: bool)
    requires w < |c.writer.workers| && BufferMatches(c.writer.workers[w]) && c.writer.workers[w].pc.Flushing?
    ensures var wk, wk' := c.writer.workers[w], Flushed(c.writer.workers[w], ok);
      && wk.closed <= wk'.closed
      && StoreNext(c.store, c.writer, Flush(w, ok)) == Replay(c.store, CommittedReqs(wk'.closed[|wk.closed|..]))
  {
    var wk := c.writer.workers[w];
    var b := Batch(wk.current, wk.pc.reason, ok);
    if |wk.buffer| > 0 {
      assert (wk.closed + [b])[|wk.closed|..] == [b];
      CommittedReqsOne(b);
      ReplayIsOverlay(c.store, wk.current);
    }
  }

  lemma FlushProgress(c: Cell, w: nat, ok: bool)
    requires w < |c.writer.workers| && BufferMatches(c.writer.workers[w]) && c.writer.workers[w].pc.Flushing?
    ensures Progress(c, CellNext(c, Flush(w, ok)), w, 0, ok)
  {
    hide Flat, CommittedReqs, Replay, StoreNext;
    var wk := c.writer.workers[w];
    var wk' := Flushed(wk, ok);
    FlushStore(c, w, ok);
    FlatAfterFlush(wk, ok);
    ReplayNothing();
    assert wk.current + [] == wk.current && wk'.current + [] == [] && wk.queue[0..] == wk.queue;
    assert Flat(wk'.closed) + [] == Flat(wk.closed) + wk.current + [];
  }

  lemma ReplayNothing()
    ensures Replay(map[], []) == map[]
  {
  }

  /** The flush of a turn that is due one; `before` is where the turn started. */
  lemma FlushEnds(before: Cell, mid: Cell, w: nat, n: nat, fault: Fault)
    requires Progress(before, mid, w, n, true) && mid.writer.workers[w].pc.Flushing?
    ensures var c' := CellNext(mid, Flush(w, FlushOk(mid.writer.workers[w], fault)));
      Progress(before, c', w, n, fault.NoFault?) && c'.writer.workers[w].current == []
  {
    FlushProgress(mid, w, FlushOk(mid.writer.workers[w], fault));
    var ok := FlushOk(mid.writer.workers[w], fault);
    ProgressGoesOn(before, mid, CellNext(mid, Flush(w, ok)), w, n, 0, true, ok);
  }

  lemma BeforeFlushProgress(c: Cell, w: nat, branch: Branch)
    requires w < |c.writer.workers| && BufferMatches(c.writer.workers[w])
    requires c.writer.workers[w].pc.Selecting? && Ready(c.writer, w, branch)
    ensures CanTake(c, BeforeFlush(w, branch))
    ensures var mid := Take(c, BeforeFlush(w, branch));
      && w < |mid.writer.workers| && Progress(c, mid, w, if branch.OnRequest? then 1 else 0, true)
      && (!branch.OnRequest? ==> mid.writer.workers[w].pc.Flushing?)
  {
    hide Progress, BufferMatches;
    BeforeFlushRuns(c, w, branch);
    match branch
    case OnRequest => TakeProgress(c, w);
    case OnTick => EnterProgress(c, w, Ticker);
    case OnStop => EnterProgress(c, w, Stopping);
  }

  lemma TurnProgress(c: Cell, w: nat, branch: Branch, fault: Fault)
    requires w < |c.writer.workers| && BufferMatches(c.writer.workers[w])
    requires c.writer.workers[w].pc.Selecting? && Ready(c.writer, w, branch)
    ensures var c' := Take(c, TurnSteps(c, w, branch, fault));
      && Progress(c, c', w, if branch.OnRequest? then 1 else 0, fault.NoFault?)
      && (!branch.OnRequest? ==> c'.writer.workers[w].current == [])
  {
    hide Progress, BufferMatches, BeforeFlush, CellNext;
    BeforeFlushProgress(c, w, branch);
    var mid := Take(c, BeforeFlush(w, branch));
    ProgressWeaker(c, mid, w, if branch.OnRequest? then 1 else 0, true, fault.NoFault?);
    if mid.writer.workers[w].pc.Flushing? {
      var n := if branch.OnRequest? then 1 else 0;
      FlushEnds(c, mid, w, n, fault);
      TakeSnoc(c, BeforeFlush(w, branch), Flush(w, FlushOk(mid.writer.workers[w], fault)));
    }
  }

  /** The request wakes of a worker, up to the stop if it is to see one. */
  function Requests(stopped: bool, wakes: seq<Wake>): nat {
    if wakes == [] || (stopped && wakes[0].branch.OnStop?) then 0
    else (if wakes[0].branch.OnRequest? then 1 else 0) + Requests(stopped, wakes[1..])
  }

  function Min(a: nat, b: nat): nat {
    if a < b then a else b
  }

  predicate StopSeen(stopped: bool, wakes: seq<Wake>) {
    stopped && exists k :: 0 <= k < |wakes| && wakes[k].branch.OnStop?
  }

  predicate NoneFails(wakes: seq<Wake>) {
    forall k | 0 <= k < |wakes| :: wakes[k].fault.NoFault?
  }

  /** A turn that ends in a flush leaves nothing unflushed, and later turns may add to that again. */
  predicate EndsFlushed(stopped: bool, wakes: seq<Wake>) {
    StopSeen(stopped, wakes) || (wakes != [] && wakes[|wakes| - 1].branch.OnTick?)
  }

  /** What a worker at its `select` does in a series of wakes: the requests it takes, and whether it ends. */
  ghost predicate WorkerDoes(c: Cell, c': Cell, w: nat, wakes: seq<Wake>)
    requires w < |c.writer.workers|
  {
    && Progress(c, c', w, Min(Requests(c.writer.stopped, wakes), |c.writer.workers[w].queue|), NoneFails(wakes))
    && c'.writer.workers[w].pc == (if StopSeen(c.writer.stopped, wakes) then Exited else Selecting)
    && (EndsFlushed(c.writer.stopped, wakes) ==> c'.writer.workers[w].current == [])
  }

  lemma FirstWake(stopped: bool, wakes: seq<Wake>)
    requires wakes != []
    ensures StopSeen(stopped, [wakes[0]]) <==> stopped && wakes[0].branch.OnStop?
    ensures StopSeen(stopped, wakes) <==> StopSeen(stopped, [wakes[0]]) || StopSeen(stopped, wakes[1..])
    ensures Requests(stopped, [wakes[0]]) == if wakes[0].branch.OnRequest? then 1 else 0
    ensures Requests(stopped, wakes) ==
      if StopSeen(stopped, [wakes[0]]) then 0 else Requests(stopped, [wakes[0]]) + Requests(stopped, wakes[1..])
    ensures NoneFails([wakes[0]]) <==> wakes[0].fault.NoFault?
    ensures NoneFails(wakes) <==> wakes[0].fault.NoFault? && NoneFails(wakes[1..])
  {
    assert [wakes[0]][1..] == [] && [wakes[0]][0] == wakes[0];
    assert Requests(stopped, []) == 0;
    if StopSeen(stopped, wakes[1..]) {
      var k :| 0 <= k < |wakes[1..]| && wakes[1..][k].branch.OnStop?;
      assert wakes[k + 1].branch.OnStop?;
    }
    assert forall k | 1 <= k < |wakes| :: wakes[k] == wakes[1..][k - 1];
  }

  lemma OneWake(c: Cell, w: nat, wake: Wake)
    requires w < |c.writer.workers| && BufferMatches(c.writer.workers[w]) && c.writer.workers[w].pc.Selecting?
    ensures WorkerDoes(c, WakeNext(c, w, wake), w, [wake])
  {
    hide Progress, TurnSteps, Requests, StopSeen, NoneFails;
    FirstWake(c.writer.stopped, [wake]);
    if Ready(c.writer, w, wake.branch) {
      TurnProgress(c, w, wake.branch, wake.fault);
      TurnEnds(c, w, wake.branch, wake.fault);
    } else {
      NoProgress(c, w);
      ProgressWeaker(c, c, w, 0, true, wake.fault.NoFault?);
    }
  }

  /**
    A worker at its `select`, woken any number of times: it takes one request for every request wake
    it gets while there is one, in order, and keeps them in closed batches, the last of which may
    still be open; the store gets what its batches commit; and it exits when it sees the stop.
   */
  lemma {:induction false} WorkerRunDoes(c: Cell, w: nat, wakes: seq<Wake>)
    requires w < |c.writer.workers| && BufferMatches(c.writer.workers[w]) && c.writer.workers[w].pc.Selecting?
    ensures WorkerDoes(c, WorkerRun(c, w, wakes), w, wakes)
    decreases |wakes|
  {
    if wakes == [] {
      NoProgress(c, w);
    } else {
      var mid := WakeNext(c, w, wakes[0]);
      OneWake(c, w, wakes[0]);
      if mid.writer.workers[w].pc.Selecting? {
        WorkerRunDoes(mid, w, wakes[1..]);
      } else {
        assert WorkerRun(mid, w, wakes[1..]) == mid;
      }
      WakesGoOn(c, mid, WorkerRun(c, w, wakes), w, wakes);
    }
  }

  lemma WakesGoOn(c: Cell, mid: Cell, end: Cell, w: nat, wakes: seq<Wake>)
    requires w < |c.writer.workers| && wakes != [] && WorkerDoes(c, mid, w, [wakes[0]])
    requires if mid.writer.workers[w].pc.Exited? || wakes[1..] == [] then end == mid
      else WorkerDoes(mid, end, w, wakes[1..])
    ensures WorkerDoes(c, end, w, wakes)
  {
    hide Progress, StopSeen, Requests, NoneFails;
    FirstWake(c.writer.stopped, wakes);
    var m := Min(Requests(c.writer.stopped, [wakes[0]]), |c.writer.workers[w].queue|);
    ProgressEffect(c, mid, w, m, NoneFails([wakes[0]]));
    if mid.writer.workers[w].pc.Exited? || wakes[1..] == [] {
      assert wakes[1..] == [] ==> wakes == [wakes[0]];
      ProgressWeaker(c, mid, w, m, NoneFails([wakes[0]]), NoneFails(wakes));
    } else {
      var n := Min(Requests(c.writer.stopped, wakes[1..]), |mid.writer.workers[w].queue|);
      ProgressGoesOn(c, mid, end, w, m, n, NoneFails([wakes[0]]), NoneFails(wakes[1..]));
    }
  }

  lemma ProgressWeaker(c: Cell, c': Cell, w: nat, n: nat, x: bool, y: bool)
    requires Progress(c, c', w, n, x) && (y ==> x)
    ensures Progress(c, c', w, n, y)
  {
  }

  lemma ProgressEffect(c: Cell, c': Cell, w: nat, n: nat, clean: bool)
    requires Progress(c, c', w, n, clean)
    ensures c'.writer.stopped == c.writer.stopped && w < |c'.writer.workers|
    ensures n <= |c.writer.workers[w].queue| && |c'.writer.workers[w].queue| == |c.writer.workers[w].queue| - n
  {
  }

  /** Woken by requests only, a worker takes as many as it is woken for and as there are. */
  lemma RequestWakes(c: Cell, w: nat, wakes: seq<Wake>)
    requires w < |c.writer.workers| && BufferMatches(c.writer.workers[w]) && c.writer.workers[w].pc.Selecting?
    requires forall k | 0 <= k < |wakes| :: wakes[k].branch.OnRequest?
    ensures var wk := c.writer.workers[w]; var wk' := WorkerRun(c, w, wakes).writer.workers[w];
      var n := if |wakes| < |wk.queue| then |wakes| else |wk.queue|;
      && wk'.pc.Selecting? && wk'.queue == wk.queue[n..]
      && Flat(wk'.closed) + wk'.current == Flat(wk.closed) + wk.current + wk.queue[..n]
  {
    hide WorkerRun;
    var wk, wk' := c.writer.workers[w], WorkerRun(c, w, wakes).writer.workers[w];
    WorkerRunDoes(c, w, wakes);
    AllAreRequests(c.writer.stopped, wakes);
    assert wk.current + [] == wk.current && wk'.current + [] == wk'.current;
  }

  lemma {:induction false} AllAreRequests(stopped: bool, wakes: seq<Wake>)
    requires forall k | 0 <= k < |wakes| :: wakes[k].branch.OnRequest?
    ensures Requests(stopped, wakes) == |wakes| && !StopSeen(stopped, wakes)
  {
    if wakes != [] {
      AllAreRequests(stopped, wakes[1..]);
    }
  }

  /** A tick, or the stop of a stopped writer: one flush, and the loop ends after the stop. */
  lemma FlushWake(c: Cell, w: nat, wake: Wake)
    requires w < |c.writer.workers| && c.writer.workers[w].pc.Selecting?
    requires wake.branch.OnTick? || (wake.branch.OnStop? && c.writer.stopped)
    ensures var wk := c.writer.workers[w]; var c' := WakeNext(c, w, wake); var wk' := c'.writer.workers[w];
      && c'.store == (if Aborts(wake.fault, |wk.buffer|) then c.store else c.store + wk.buffer)
      && wk'.buffer == map[] && wk'.queue == wk.queue
      && wk'.pc == if wake.branch.OnTick? then Selecting else Exited
  {
    var kind := if wake.branch.OnTick? then DoTick else DoStop;
    BeforeFlushRuns(c, w, wake.branch);
    TickAct(c, w, wake.fault);
    StopAct(c, w, wake.fault);
    var mid := ActNext(c, Act(w, kind, wake.fault));
    FlushAct(mid, w, wake.fault);
    TakeSnoc(c, BeforeFlush(w, wake.branch), Flush(w, FlushOk(mid.writer.workers[w], wake.fault)));
  }

  /** One tick commits the buffer and empties it. */
  lemma TickWake(c: Cell, w: nat, fault: Fault)
    requires w < |c.writer.workers| && c.writer.workers[w].pc.Selecting?
    ensures var wk := c.writer.workers[w]; var c' := WorkerRun(c, w, [Wake(OnTick, fault)]);
      && c'.store == (if Aborts(fault, |wk.buffer|) then c.store else c.store + wk.buffer)
      && c'.writer.workers[w].buffer == map[] && c'.writer.workers[w].queue == wk.queue
      && c'.writer.workers[w].pc.Selecting?
  {
    var wake := Wake(OnTick, fault);
    FlushWake(c, w, wake);
    assert [wake][1..] == [];
    assert WorkerRun(WakeNext(c, w, wake), w, []) == WakeNext(c, w, wake);
  }

  /** A stopped writer's worker that sees the stop flushes and is done: later wakes change nothing. */
  lemma StopWakes(c: Cell, w: nat, wakes: seq<Wake>)
    requires w < |c.writer.workers| && c.writer.workers[w].pc.Selecting?
    requires c.writer.stopped && wakes != [] && wakes[0].branch.OnStop?
    ensures var wk := c.writer.workers[w]; var c' := WorkerRun(c, w, wakes);
      && c'.store == (if Aborts(wakes[0].fault, |wk.buffer|) then c.store else c.store + wk.buffer)
      && c'.writer.workers[w].buffer == map[] && c'.writer.workers[w].queue == wk.queue
      && c'.writer.workers[w].pc.Exited?
  {
    FlushWake(c, w, wakes[0]);
    assert WorkerRun(WakeNext(c, w, wakes[0]), w, wakes[1..]) == WakeNext(c, w, wakes[0]);
  }

  /** All of that together, without saying how the run is computed. */
  lemma WorkerRunMeans(c: Cell, w: nat, wakes: seq<Wake>)
    requires w < |c.writer.workers| && BufferMatches(c.writer.workers[w]) && c.writer.workers[w].pc.Selecting?
    ensures var wk := c.writer.workers[w]; var c' := WorkerRun(c, w, wakes); var wk' := c'.writer.workers[w];
      var n := if |wakes| < |wk.queue| then |wakes| else |wk.queue|;
      (forall k | 0 <= k < |wakes| :: wakes[k].branch.OnRequest?) ==>
        && wk'.pc.Selecting? && wk'.queue == wk.queue[n..]
        && Flat(wk'.closed) + wk'.current == Flat(wk.closed) + wk.current + wk.queue[..n]
    ensures var wk := c.writer.workers[w]; var c' := WorkerRun(c, w, wakes); var wk' := c'.writer.workers[w];
      |wakes| == 1 && wakes[0] == Wake(OnTick, NoFault) ==>
        c'.store == c.store + wk.buffer && wk'.buffer == map[] && wk'.pc.Selecting?
    ensures var wk := c.writer.workers[w]; var c' := WorkerRun(c, w, wakes); var wk' := c'.writer.workers[w];
      c.writer.stopped && |wakes| > 0 && wakes[0].branch.OnStop? ==>
        && c'.store == (if Aborts(wakes[0].fault, |wk.buffer|) then c.store else c.store + wk.buffer)
        && wk'.buffer == map[] && wk'.queue == wk.queue && wk'.pc.Exited?
  {
    hide WorkerRun, Flat;
    if forall k | 0 <= k < |wakes| :: wakes[k].branch.OnRequest? {
      RequestWakes(c, w, wakes);
    }
    if |wakes| == 1 && wakes[0] == Wake(OnTick, NoFault) {
      assert wakes == [Wake(OnTick, NoFault)];
      TickWake(c, w, NoFault);
    }
    if c.writer.stopped && |wakes| > 0 && wakes[0].branch.OnStop? {
      StopWakes(c, w, wakes);
    }
  }

  lemma {:induction false} FlatAppend(a: seq<Batch>, b: seq<Batch>)
    ensures Flat(a + b) == Flat(a) + Flat(b)
  {
    if b == [] {
      assert a + b == a;
    } else {
      var n := |b| - 1;
      assert (a + b)[..|a + b| - 1] == a + b[..n];
      FlatAppend(a, b[..n]);
    }
  }

  lemma SuffixOf(front: seq<Req>, back: seq<Req>, rest: seq<Req>)
    requires front + back == front + rest
    ensures back == rest
  {
    assert (front + back)[|front|..] == back && (front + rest)[|front|..] == rest;
  }

  /**
    When no transaction fails and the last wake flushes, the store is as if everything buffered and
    then taken had been set in order, one by one.
   */
  lemma FlushedRunIsReplay(c: Cell, w: nat, wakes: seq<Wake>)
    requires w < |c.writer.workers| && BufferMatches(c.writer.workers[w]) && c.writer.workers[w].pc.Selecting?
    requires NoneFails(wakes) && EndsFlushed(c.writer.stopped, wakes)
    ensures var wk := c.writer.workers[w];
      var n := Min(Requests(c.writer.stopped, wakes), |wk.queue|);
      WorkerRun(c, w, wakes).store == Replay(c.store, wk.current + wk.queue[..n])
  {
    hide WorkerRun, Flat, CommittedReqs, Replay, Requests, StopSeen, NoneFails;
    var wk, wk' := c.writer.workers[w], WorkerRun(c, w, wakes).writer.workers[w];
    var n := Min(Requests(c.writer.stopped, wakes), |wk.queue|);
    WorkerRunDoes(c, w, wakes);
    var added := wk'.closed[|wk.closed|..];
    assert wk'.closed == wk.closed + added;
    FlatAppend(wk.closed, added);
    AllCommittedIsFlat(added);
    assert Flat(wk'.closed) + [] == Flat(wk'.closed) && wk.current + [] == wk.current;
    assert Flat(wk.closed) + Flat(added) == Flat(wk.closed) + (wk.current + wk.queue[..n]);
    SuffixOf(Flat(wk.closed), Flat(added), wk.current + wk.queue[..n]);
  }
}
