/** A writer that gets no new requests comes to rest, with everything it accepted in the store. */
module Draining {
  import opened Store
  import opened Writers
  import opened Transports
  import opened Histories
  import opened Shards
  import opened Flushing

  /**
    The steps left to a worker: a queued request has more ahead of it than one in hand, and that
    more than a buffered key.
   */
  function Work(wk: Worker): nat {
    5 * |wk.queue| + 4 * |HandOf(wk.pc)| +
    (if wk.pc.Flushing? && |wk.buffer| > 0 then 2 * |wk.buffer| - 1 else 2 * |wk.buffer|)
  }

  function TotalWork(workers: seq<Worker>): nat {
    if workers == [] then 0
    else TotalWork(workers[..|workers| - 1]) + Work(workers[|workers| - 1])
  }

  lemma {:induction false} TotalWorkUpdate(workers: seq<Worker>, w: nat, wk: Worker)
    requires w < |workers|
    ensures TotalWork(workers[w := wk]) == TotalWork(workers) - Work(workers[w]) + Work(wk)
  {
    var n := |workers| - 1;
    if w < n {
      TotalWorkUpdate(workers[..n], w, wk);
      assert workers[w := wk][..n] == workers[..n][w := wk];
    } else {
      assert workers[w := wk][..n] == workers[..n];
    }
  }

  /** A step that does something: a tick or stop that finds an empty buffer, and its empty flush, do not. */
  predicate Busy(wr: Writer, st: Step)
    requires Enabled(wr, st)
  {
    match st
    case Receive(_) => true
    case Insert(_) => true
    case TickFires(w) => |wr.workers[w].buffer| > 0
    case SeesStop(w) => |wr.workers[w].buffer| > 0
    case Flush(w, _) => |wr.workers[w].buffer| > 0
    case BufferWrite(_) => false
    case SignalStop => false
  }

  lemma InsertWork(wk: Worker, maxBatchSize: int)
    requires wk.pc.InHand?
    ensures Work(Inserting(wk, maxBatchSize)) < Work(wk)
  {
    var wk' := Inserting(wk, maxBatchSize);
    assert wk'.buffer.Keys == wk.buffer.Keys + {wk.pc.req.key};
    assert |wk'.buffer| == |wk'.buffer.Keys| && |wk.buffer| == |wk.buffer.Keys|;
  }

  /** Every busy step, committed or failed, brings the writer closer to rest; idle steps leave it where it is. */
  lemma StepDrains(wr: Writer, st: Step)
    requires Enabled(wr, st) && !st.BufferWrite?
    ensures var before, after := TotalWork(wr.workers), TotalWork(Next(wr, st).workers);
      if Busy(wr, st) then after < before else after == before
  {
    hide TotalWork;
    match st
    case Receive(w) => TotalWorkUpdate(wr.workers, w, Next(wr, st).workers[w]);
    case Insert(w) =>
      InsertWork(wr.workers[w], wr.maxBatchSize);
      TotalWorkUpdate(wr.workers, w, Next(wr, st).workers[w]);
    case TickFires(w) => TotalWorkUpdate(wr.workers, w, Next(wr, st).workers[w]);
    case SeesStop(w) => TotalWorkUpdate(wr.workers, w, Next(wr, st).workers[w]);
    case Flush(w, _) => TotalWorkUpdate(wr.workers, w, Next(wr, st).workers[w]);
    case SignalStop =>
  }

  /** How many busy steps writer `i` makes in a run. */
  function BusySteps(s: Sys, run: seq<Action>, i: nat): nat
    requires CanRun(s, run)
    decreases |run|
  {
    if run == [] then 0
    else
      (if run[0].writer == i && Busy(s.writers[i], run[0].step) then 1 else 0) +
      BusySteps(After(s, run[0]), run[1..], i)
  }

  predicate NoNewRequests(run: seq<Action>, i: nat) {
    forall a | a in run :: a.writer == i ==> !a.step.BufferWrite?
  }

  /** However it is scheduled and whatever fails, a writer without new requests makes a bounded number of busy steps. */
  lemma {:induction false} RunsDrain(s: Sys, run: seq<Action>, i: nat)
    requires CanRun(s, run) && NoNewRequests(run, i) && i < |s.writers|
    ensures BusySteps(s, run, i) + TotalWork(RunFrom(s, run).writers[i].workers) <= TotalWork(s.writers[i].workers)
    decreases |run|
  {
    if run != [] {
      assert run[0] in run;
      if run[0].writer == i {
        StepDrains(s.writers[i], run[0].step);
      }
      RunsDrain(After(s, run[0]), run[1..], i);
    }
  }

  lemma {:induction false} NoWorkLeft(workers: seq<Worker>)
    ensures TotalWork(workers) == 0 <==> forall w | 0 <= w < |workers| :: Work(workers[w]) == 0
  {
    if workers != [] {
      var n := |workers| - 1;
      NoWorkLeft(workers[..n]);
      assert forall w | 0 <= w < n :: workers[..n][w] == workers[w];
    }
  }

  /** At rest is the same as drained. */
  lemma RestIsDrained(wr: Writer)
    requires WriterInv(wr)
    ensures TotalWork(wr.workers) == 0 <==> Drained(wr)
  {
    NoWorkLeft(wr.workers);
    forall w | 0 <= w < |wr.workers|
      ensures Work(wr.workers[w]) == 0 <==> Pending(wr.workers[w]) == []
    {
      var wk := wr.workers[w];
      assert WorkerInv(wk, w, |wr.workers|, wr.maxBatchSize);
      ReplaySize(wk.current);
      assert |wk.buffer| == 0 <==> wk.current == [];
    }
  }

  /** No worker has left its loop, or is about to, with requests still in its channel. */
  ghost predicate NothingStranded(wr: Writer) {
    forall w | 0 <= w < |wr.workers| && (wr.workers[w].pc.Exited? || wr.workers[w].pc == Flushing(Stopping)) ::
      wr.workers[w].queue == []
  }

  lemma UnstoppedStrandsNothing(wr: Writer)
    requires WriterInv(wr) && !wr.stopped
    ensures NothingStranded(wr)
  {
    assert NoneStopping(wr);
  }

  /** What a worker that has not exited does next, if no transaction fails. */
  function NextStep(wk: Worker, w: nat): Step
    requires !wk.pc.Exited?
  {
    match wk.pc
    case Selecting => if wk.queue != [] then Receive(w) else TickFires(w)
    case InHand(_) => Insert(w)
    case Flushing(_) => Flush(w, true)
  }

  lemma EmptyFlushThenReceive(s: Sys, i: nat, w: nat)
    requires IsWorker(s, i, w) && s.writers[i].workers[w].pc.Flushing? && !s.writers[i].workers[w].pc.reason.Stopping?
    requires |s.writers[i].workers[w].buffer| == 0 && s.writers[i].workers[w].queue != []
    ensures CanRun(s, [Do(i, Flush(w, true)), Do(i, Receive(w))])
    ensures var t := RunFrom(s, [Do(i, Flush(w, true)), Do(i, Receive(w))]);
      TotalWork(t.writers[i].workers) < TotalWork(s.writers[i].workers)
  {
    var flush, receive := Do(i, Flush(w, true)), Do(i, Receive(w));
    TwoStepRun(s, flush, receive);
    StepDrains(s.writers[i], flush.step);
    StepDrains(After(s, flush).writers[i], receive.step);
  }

  lemma OneBusyStep(s: Sys, i: nat, st: Step)
    requires CanDo(s, Do(i, st)) && !st.BufferWrite? && Busy(s.writers[i], st)
    ensures CanRun(s, [Do(i, st)])
    ensures TotalWork(RunFrom(s, [Do(i, st)]).writers[i].workers) < TotalWork(s.writers[i].workers)
  {
    OneStepRun(s, Do(i, st));
    StepDrains(s.writers[i], st);
  }

  /** A run of writer `i` that neither fails, nor accepts requests, nor starts a stop. */
  predicate Calm(run: seq<Action>, i: nat) {
    forall a | a in run ::
      && a.writer == i && !a.step.BufferWrite? && !a.step.SeesStop? && !a.step.SignalStop?
      && (a.step.Flush? ==> a.step.ok)
  }

  lemma ProgressOf(s: Sys, i: nat, w: nat) returns (run: seq<Action>)
    requires IsWorker(s, i, w) && Work(s.writers[i].workers[w]) > 0 && !s.writers[i].workers[w].pc.Exited?
    requires s.writers[i].workers[w].pc == Flushing(Stopping) ==> s.writers[i].workers[w].queue == []
    ensures CanRun(s, run) && Calm(run, i)
    ensures TotalWork(RunFrom(s, run).writers[i].workers) < TotalWork(s.writers[i].workers)
  {
    var wk := s.writers[i].workers[w];
    if wk.pc.Flushing? && |wk.buffer| == 0 {
      EmptyFlushThenReceive(s, i, w);
      run := [Do(i, Flush(w, true)), Do(i, Receive(w))];
    } else {
      var st := NextStep(wk, w);
      OneBusyStep(s, i, st);
      run := [Do(i, st)];
    }
  }

  lemma Progress(s: Sys, i: nat) returns (run: seq<Action>)
    requires AllWriters(s) && i < |s.writers| && NothingStranded(s.writers[i])
    requires TotalWork(s.writers[i].workers) > 0
    ensures CanRun(s, run) && Calm(run, i)
    ensures TotalWork(RunFrom(s, run).writers[i].workers) < TotalWork(s.writers[i].workers)
  {
    NoWorkLeft(s.writers[i].workers);
    var w: nat :| w < |s.writers[i].workers| && Work(s.writers[i].workers[w]) != 0;
    if s.writers[i].workers[w].pc.Exited? {
      ExitedHoldsNothing(s.writers[i], w);
    }
    run := ProgressOf(s, i, w);
  }

  lemma {:induction false} CalmKeeps(s: Sys, run: seq<Action>, i: nat)
    requires CanRun(s, run) && Calm(run, i) && i < |s.writers| && NothingStranded(s.writers[i])
    ensures NothingStranded(RunFrom(s, run).writers[i])
    ensures RunFrom(s, run).writers[i].arrivals == s.writers[i].arrivals
    decreases |run|
  {
    if run != [] {
      assert run[0] in run;
      CalmStepKeeps(s.writers[i], run[0].step);
      CalmKeeps(After(s, run[0]), run[1..], i);
    }
  }

  lemma CalmStepKeeps(wr: Writer, st: Step)
    requires Enabled(wr, st) && NothingStranded(wr) && !st.BufferWrite? && !st.SeesStop?
    ensures NothingStranded(Next(wr, st))
  {
  }

  /** From any reachable state with nothing stranded, the writer's own steps can bring it to rest. */
  lemma {:induction false} DrainingRun(initial: Kv, s: Sys, i: nat) returns (run: seq<Action>)
    requires Inv(initial, s) && i < |s.writers| && NothingStranded(s.writers[i])
    ensures CanRun(s, run) && Calm(run, i)
    ensures Drained(RunFrom(s, run).writers[i]) && RunFrom(s, run).writers[i].arrivals == s.writers[i].arrivals
    decreases TotalWork(s.writers[i].workers)
  {
    RestIsDrained(s.writers[i]);
    if TotalWork(s.writers[i].workers) == 0 {
      run := [];
    } else {
      var head := Progress(s, i);
      RunKeeps(initial, s, head);
      CalmKeeps(s, head, i);
      var rest := DrainingRun(initial, RunFrom(s, head), i);
      RunConcat(s, head, rest);
      run := head + rest;
    }
  }

  /**
    A fault-free writer that has not been stopped loses nothing: from every reachable state some continuation of
    its own steps makes the store agree with one `Db.Set` per accepted write, on every key that no
    other writer writes.
   */
  lemma EveryAcceptedWriteCanLand(initial: Kv, configs: seq<Config>, run: seq<Action>, s: Sys,
      i: nat) returns (more: seq<Action>)
    requires Reaches(initial, configs, run, s) && FaultFree(run, i) && i < |configs|
    requires |s.writers| == |configs| && !s.writers[i].stopped
    ensures CanRun(s, more) && Calm(more, i) && RunFrom(s, more).writers[i].arrivals == s.writers[i].arrivals
    ensures forall k | OnlyFrom(RunFrom(s, more), i, k) ::
      Lookup(RunFrom(s, more).store, k) == Lookup(Replay(initial, WritesIn(run, i)), k)
  {
    FaultFreeReachable(initial, configs, run, s, i);
    ReachedWriter(initial, configs, run, s, i);
    UnstoppedStrandsNothing(s.writers[i]);
    more := DrainingRun(initial, s, i);
    RunKeeps(initial, s, more);
    FaultFreeRunsCommit(s, more, i);
    forall k | OnlyFrom(RunFrom(s, more), i, k)
      ensures Lookup(RunFrom(s, more).store, k) == Lookup(Replay(initial, WritesIn(run, i)), k)
    {
      DrainedShowsSets(initial, RunFrom(s, more), i, k);
    }
  }
}
