/** What `FlushAndStop` is good for: exactly when everything a worker had accepted is sure to reach the store. */
module Stopping {
  import opened Bytes
  import opened Store
  import opened Writers
  import opened Transports
  import opened Histories
  import opened Failures
  import opened Shards
  import opened Flushing
  import opened Draining

  ghost predicate AllItsWritesCommitted(t: Sys, i: nat, w: nat) {
    forall p: nat, k: Key | IsWrite(t, i, w, p, k) :: Committed(t, i, w, p, k)
  }

  /** However the goroutines are scheduled from here to the worker's exit, without failures and new requests. */
  ghost predicate StopSavesAll(s: Sys, i: nat, w: nat)
    requires IsWorker(s, i, w)
  {
    forall run | CanRun(s, run) && FaultFree(run, i) && NoNewRequests(run, i) && HasExited(RunFrom(s, run), i, w) ::
      AllItsWritesCommitted(RunFrom(s, run), i, w)
  }

  ghost predicate HasExited(t: Sys, i: nat, w: nat) {
    IsWorker(t, i, w) && t.writers[i].workers[w].pc.Exited?
  }

  lemma {:induction false} QueueShrinks(s: Sys, run: seq<Action>, i: nat, w: nat)
    requires CanRun(s, run) && NoNewRequests(run, i) && IsWorker(s, i, w)
    ensures IsWorker(RunFrom(s, run), i, w)
    ensures |RunFrom(s, run).writers[i].workers[w].queue| <= |s.writers[i].workers[w].queue|
    decreases |run|
  {
    if run != [] {
      assert run[0] in run;
      QueueShrinks(After(s, run[0]), run[1..], i, w);
    }
  }

  /** An exited worker has committed everything exactly when its channel is empty and none of its batches failed. */
  lemma ExitedSavedAllExactly(initial: Kv, t: Sys, i: nat, w: nat)
    requires Inv(initial, t) && HasExited(t, i, w)
    ensures var wk := t.writers[i].workers[w];
      AllItsWritesCommitted(t, i, w) <==> wk.queue == [] && AllCommitted(wk.closed)
  {
    var wk := t.writers[i].workers[w];
    ExitedHoldsNothing(t.writers[i], w);
    FlushedAllCommittedExactly(initial, t, i, w);
    if wk.queue != [] {
      var p := |wk.accepted| - 1;
      assert IsWrite(t, i, w, p, wk.accepted[p].key);
      if AllItsWritesCommitted(t, i, w) {
        OnlyShownIsCommitted(t, i, w, p, wk.accepted[p].key);
      }
    }
  }

  /** A worker's own steps from anywhere in its loop back to `select`, or out of it if it was on its way. */
  lemma BackToSelect(s: Sys, i: nat, w: nat) returns (run: seq<Action>)
    requires IsWorker(s, i, w)
    ensures CanRun(s, run) && FaultFree(run, i) && NoNewRequests(run, i) && IsWorker(RunFrom(s, run), i, w)
    ensures var wk := RunFrom(s, run).writers[i].workers[w];
      (wk.pc.Selecting? || wk.pc.Exited?) && wk.queue == s.writers[i].workers[w].queue
    ensures RunFrom(s, run).writers[i].stopped == s.writers[i].stopped
  {
    var insert, flush := Do(i, Insert(w)), Do(i, Flush(w, true));
    match s.writers[i].workers[w].pc
    case Selecting => run := [];
    case Exited => run := [];
    case Flushing(_) =>
      OneStepRun(s, flush);
      run := [flush];
    case InHand(_) =>
      OneStepRun(s, insert);
      run := [insert];
      if After(s, insert).writers[i].workers[w].pc.Flushing? {
        TwoStepRun(s, insert, flush);
        run := [insert, flush];
      }
  }

  /** From any state of a stopped writer a worker can exit without taking anything more from its channel. */
  lemma ExitAtOnce(s: Sys, i: nat, w: nat) returns (run: seq<Action>)
    requires IsWorker(s, i, w) && s.writers[i].stopped
    ensures CanRun(s, run) && FaultFree(run, i) && NoNewRequests(run, i) && HasExited(RunFrom(s, run), i, w)
    ensures RunFrom(s, run).writers[i].workers[w].queue == s.writers[i].workers[w].queue
  {
    run := BackToSelect(s, i, w);
    var s' := RunFrom(s, run);
    if s'.writers[i].workers[w].pc.Selecting? {
      var exit := [Do(i, SeesStop(w)), Do(i, Flush(w, true))];
      TwoStepRun(s', exit[0], exit[1]);
      RunConcat(s, run, exit);
      run := run + exit;
    }
  }

  /**
    The comment on `FlushAndStop` says that remaining data is flushed. Once the stop signal is
    given, everything a worker has accepted is sure to be committed, under every schedule, if and
    only if its channel is empty and none of its transactions has failed; otherwise some schedule
    leaves a request behind.
   */
  lemma StopSavesAllExactly(initial: Kv, configs: seq<Config>, run: seq<Action>, s: Sys, i: nat, w: nat)
    requires Reaches(initial, configs, run, s) && IsWorker(s, i, w) && s.writers[i].stopped
    ensures var wk := s.writers[i].workers[w]; StopSavesAll(s, i, w) <==> wk.queue == [] && AllCommitted(wk.closed)
  {
    ReachableInv(initial, configs, run, s);
    var wk := s.writers[i].workers[w];
    forall more | wk.queue == [] && AllCommitted(wk.closed) && CanRun(s, more) && FaultFree(more, i)
        && NoNewRequests(more, i) && HasExited(RunFrom(s, more), i, w)
      ensures AllItsWritesCommitted(RunFrom(s, more), i, w)
    {
      RunKeeps(initial, s, more);
      FaultFreeWorkerCommits(s, more, i, w);
      QueueShrinks(s, more, i, w);
      ExitedSavedAllExactly(initial, RunFrom(s, more), i, w);
    }
    var exit := ExitAtOnce(s, i, w);
    RunKeeps(initial, s, exit);
    RunGrows(s, exit, i, w);
    ExitedSavedAllExactly(initial, RunFrom(s, exit), i, w);
  }

  /** The failing side happens: a writer with one worker that accepts a write and is told to stop at once. */
  lemma StopCanLeaveBehind(initial: Kv, r: Req) returns (s: Sys)
    ensures Reaches(initial, [Config(1, 1)], [Do(0, BufferWrite(r)), Do(0, SignalStop)], s)
    ensures IsWorker(s, 0, 0) && s.writers[0].stopped && s.writers[0].workers[0].queue == [r]
    ensures !StopSavesAll(s, 0, 0)
  {
    var write, stop := Do(0, BufferWrite(r)), Do(0, SignalStop);
    var s0 := Init(initial, [Config(1, 1)]);
    assert s0.writers == [NewWriter(1, 1)] && s0.writers[0].workers == [IdleWorker];
    assert After(s0, write).writers[0].workers[0] == Accepting(IdleWorker, r);
    TwoStepRun(s0, write, stop);
    s := After(After(s0, write), stop);
    StopSavesAllExactly(initial, [Config(1, 1)], [write, stop], s, 0, 0);
  }
}
