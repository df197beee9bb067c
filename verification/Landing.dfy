/**
  The last write to a key, from its acceptance by one transport until its transaction: when the
  store shows it, whatever the other transports, the other keys and failing transactions do.
 */
module Landing {
  import opened Bytes
  import opened Store
  import opened Writers
  import opened Transports
  import opened Histories
  import opened Failures
  import opened Shards
  import opened Draining

  // ----- in one state -----

  /** Writer `i` has accepted no write to `k` after number `p` of its worker `w`. */
  ghost predicate LastOfWriter(s: Sys, i: nat, w: nat, p: nat, k: Key) {
    IsWrite(s, i, w, p, k) && forall q: nat | q > p :: !IsWrite(s, i, w, q, k)
  }

  /** After the transaction of that write, one of another writer to the same key has committed. */
  ghost predicate Overtaken(log: seq<Commit>, i: nat, w: nat, p: nat, k: Key) {
    exists a: nat, b: nat ::
      a < b < |log| && Covers(log[a], i, w, p) && log[b].writer != i && LastIn(log[b].reqs, k).Some?
  }

  lemma VisibleIsCommitted(s: Sys, k: Key)
    requires AllEntries(s) && Visible(s.log, k).Some?
    ensures var o := Visible(s.log, k).value; Committed(s, o.writer, o.worker, o.pos, k)
  {
    var a := LastTouch(s.log, k).value;
    var o := Visible(s.log, k).value;
    TouchIsWrite(s, a, k);
    assert Covers(s.log[a], o.writer, o.worker, o.pos);
  }

  lemma OvertakenIsHidden(log: seq<Commit>, i: nat, w: nat, p: nat, k: Key)
    requires LogOrdered(log) && Overtaken(log, i, w, p, k)
    ensures Visible(log, k) != Some(Origin(i, w, p))
  {
    var a: nat, b: nat :|
      a < b < |log| && Covers(log[a], i, w, p) && log[b].writer != i && LastIn(log[b].reqs, k).Some?;
    var c := LastTouch(log, k).value;
    assert c >= b > a;
  }

  lemma TouchedLastByWriter(log: seq<Commit>, i: nat, w: nat, p: nat, k: Key, a: nat)
    requires a < |log| && Covers(log[a], i, w, p) && LastIn(log[a].reqs, k).Some? && !Overtaken(log, i, w, p, k)
    ensures Visible(log, k).Some? && Visible(log, k).value.writer == i
  {
    var b := LastTouch(log, k).value;
    assert a <= b;
  }

  /** The last committed write of its writer is hidden only by another writer's. */
  lemma NotOvertakenIsShown(initial: Kv, s: Sys, i: nat, w: nat, p: nat, k: Key)
    requires Inv(initial, s) && LastOfWriter(s, i, w, p, k) && Committed(s, i, w, p, k)
    requires !Overtaken(s.log, i, w, p, k)
    ensures Visible(s.log, k) == Some(Origin(i, w, p))
  {
    hide Visible, Overtaken, LastIn, LogEntryOk, AllWriters, AllMatch, LogOrdered, ReplayLog;
    CommittedHidesEarlier(initial, s, i, w, p, k);
    StoreShowsVisible(initial, s, k);
    var a :| 0 <= a < |s.log| && Covers(s.log[a], i, w, p);
    CoveredWriteIsTouched(s, a, i, w, p, k);
    TouchedLastByWriter(s.log, i, w, p, k, a);
  }

  /**
    In every reachable state, whatever failed and however busy the workers are: the last write of a
    transport to a key is the one the store shows if and only if it has committed and no other
    transport's write to that key has committed since.
   */
  lemma ShownExactly(initial: Kv, configs: seq<Config>, run: seq<Action>, s: Sys, i: nat, w: nat, p: nat, k: Key)
    requires Reaches(initial, configs, run, s) && LastOfWriter(s, i, w, p, k)
    ensures Visible(s.log, k) == Some(Origin(i, w, p)) <==>
      Committed(s, i, w, p, k) && !Overtaken(s.log, i, w, p, k)
  {
    ReachableInv(initial, configs, run, s);
    if Visible(s.log, k) == Some(Origin(i, w, p)) {
      VisibleIsCommitted(s, k);
      if Overtaken(s.log, i, w, p, k) {
        OvertakenIsHidden(s.log, i, w, p, k);
      }
    } else if Committed(s, i, w, p, k) && !Overtaken(s.log, i, w, p, k) {
      NotOvertakenIsShown(initial, s, i, w, p, k);
    }
  }

  // ----- a write, from its acceptance on -----

  /** Where a request that writer `i` accepts in `s` is put. */
  function Accepted(s: Sys, i: nat, req: Req): Origin
    requires CanDo(s, Do(i, BufferWrite(req)))
  {
    var w := Route(req.key, |s.writers[i].workers|);
    Origin(i, w, |s.writers[i].workers[w].accepted|)
  }

  lemma AcceptedIsWaiting(s: Sys, i: nat, req: Req)
    requires AllWriters(s) && CanDo(s, Do(i, BufferWrite(req)))
    ensures var s' := After(s, Do(i, BufferWrite(req))); var o := Accepted(s, i, req);
      IsWrite(s', i, o.worker, o.pos, req.key) && Shown(s'.writers[i].workers[o.worker]) <= o.pos
  {
    var o := Accepted(s, i, req);
    var wr := s.writers[i];
    assert After(s, Do(i, BufferWrite(req))).writers[i].workers[o.worker] == Accepting(wr.workers[o.worker], req);
    CurrentIsNextStretch(wr.workers[o.worker], o.worker, |wr.workers|, wr.maxBatchSize);
  }

  lemma NotYetCommitted(s: Sys, i: nat, w: nat, p: nat)
    requires AllEntries(s) && IsWorker(s, i, w) && p >= |s.writers[i].workers[w].accepted|
    ensures forall a | 0 <= a < |s.log| :: !Covers(s.log[a], i, w, p)
  {
    forall a | 0 <= a < |s.log|
      ensures !Covers(s.log[a], i, w, p)
    {
      assert LogEntryOk(s, s.log[a]);
    }
  }

  /** Writer `i` accepts no write to `k`. */
  predicate QuietBy(run: seq<Action>, i: nat, k: Key) {
    forall a | a in run :: a.writer == i && a.step.BufferWrite? ==> a.step.req.key != k
  }

  /** A run without new writes of writer `j` to `k` leaves its writes to `k` as they were. */
  lemma {:induction false} SameWrites(s: Sys, run: seq<Action>, j: nat, w: nat, q: nat, k: Key)
    requires CanRun(s, run) && QuietBy(run, j, k)
    ensures IsWrite(RunFrom(s, run), j, w, q, k) <==> IsWrite(s, j, w, q, k)
    decreases |run|
  {
    if run != [] {
      assert run[0] in run;
      if j == run[0].writer && IsWorker(s, j, w) {
        WriterStepEffect(s.writers[j], run[0].step, w);
      }
      SameWrites(After(s, run[0]), run[1..], j, w, q, k);
    }
  }

  /**
    `run` accepts a write on writer `i` of `s` and goes on to `t`, where its transaction has
    committed; meanwhile this writer accepted no later write to the key, and none of another
    writer's has committed since. Nothing is said about failures or about other keys.
   */
  ghost predicate Lands(s: Sys, i: nat, req: Req, run: seq<Action>, t: Sys) {
    && TakesOn(s, i, req, run, t)
    && var o := Accepted(s, i, req);
      Committed(t, i, o.worker, o.pos, req.key) && !Overtaken(t.log, i, o.worker, o.pos, req.key)
  }

  /** The first part of that: up to the transaction and what comes after it. */
  ghost predicate TakesOn(s: Sys, i: nat, req: Req, run: seq<Action>, t: Sys) {
    && run != [] && run[0] == Do(i, BufferWrite(req))
    && CanRun(s, run) && t == RunFrom(s, run)
    && QuietBy(run[1..], i, req.key)
  }

  lemma AcceptedIsLast(initial: Kv, s: Sys, i: nat, req: Req, run: seq<Action>, t: Sys)
    requires Inv(initial, s) && TakesOn(s, i, req, run, t)
    ensures Inv(initial, t)
    ensures var o := Accepted(s, i, req);
      LastOfWriter(t, i, o.worker, o.pos, req.key) && ValueOf(t, o) == req.value
  {
    var o := Accepted(s, i, req);
    var s' := After(s, run[0]);
    StepKeeps(initial, s, run[0]);
    RunKeeps(initial, s', run[1..]);
    AcceptedIsWaiting(s, i, req);
    RunGrows(s', run[1..], i, o.worker);
    forall q: nat | q > o.pos
      ensures !IsWrite(t, i, o.worker, q, req.key)
    {
      SameWrites(s', run[1..], i, o.worker, q, req.key);
    }
  }

  /** A landed write is what every read of its key sees. */
  lemma LandedWriteIsRead(initial: Kv, configs: seq<Config>, before: seq<Action>, s: Sys, i: nat, req: Req,
      run: seq<Action>, t: Sys)
    requires Reaches(initial, configs, before, s) && Lands(s, i, req, run, t)
    ensures Lookup(t.store, req.key) == Some(req.value)
  {
    var o := Accepted(s, i, req);
    ReachableInv(initial, configs, before, s);
    AcceptedIsLast(initial, s, i, req, run, t);
    NotOvertakenIsShown(initial, t, i, o.worker, o.pos, req.key);
    StoreShowsVisible(initial, t, req.key);
  }

  // ----- what keeps other transports from overtaking -----

  /** None of the writes to `k` that writer `j` accepted is still waiting. */
  ghost predicate NoneWaiting(s: Sys, j: nat, k: Key) {
    forall w: nat, p: nat | IsWrite(s, j, w, p, k) :: p < Shown(s.writers[j].workers[w])
  }

  /** No write to `k` is accepted by any writer. */
  predicate QuietAt(run: seq<Action>, k: Key) {
    forall a | a in run :: a.step.BufferWrite? ==> a.step.req.key != k
  }

  lemma CurrentIsAccepted(wr: Writer, w: nat, q: nat)
    requires WriterInv(wr) && w < |wr.workers| && q < |wr.workers[w].current|
    ensures var wk := wr.workers[w];
      Shown(wk) + q < |wk.accepted| && wk.accepted[Shown(wk) + q] == wk.current[q]
  {
    CurrentAt(wr.workers[w], w, |wr.workers|, wr.maxBatchSize, q);
  }

  lemma IdleCommitsElsewhere(s: Sys, a: Action, k: Key)
    requires AllWriters(s) && CanDo(s, a) && NoneWaiting(s, a.writer, k) && Commits(s.writers[a.writer], a.step)
    ensures LastIn(s.writers[a.writer].workers[a.step.w].current, k).None?
  {
    var wr := s.writers[a.writer];
    var last := LastIn(wr.workers[a.step.w].current, k);
    if last.Some? {
      CurrentIsAccepted(wr, a.step.w, last.value);
      assert IsWrite(s, a.writer, a.step.w, Shown(wr.workers[a.step.w]) + last.value, k);
    }
  }

  lemma NoneWaitingStep(s: Sys, a: Action, j: nat, k: Key)
    requires AllWriters(s) && CanDo(s, a) && NoneWaiting(s, j, k) && QuietAt([a], k)
    ensures NoneWaiting(After(s, a), j, k)
  {
    OneStepRun(s, a);
    forall v: nat, q: nat | IsWrite(After(s, a), j, v, q, k)
      ensures q < Shown(After(s, a).writers[j].workers[v])
    {
      SameWrites(s, [a], j, v, q, k);
      if j == a.writer {
        FlushedCountGrows(s.writers[j], a.step, v);
      }
    }
  }

  ghost predicate OthersIdle(s: Sys, i: nat, k: Key) {
    forall j | 0 <= j < |s.writers| && j != i :: NoneWaiting(s, j, k)
  }

  /** In such a run no other writer commits anything to the key. */
  lemma {:induction false} OthersCommitElsewhere(s: Sys, run: seq<Action>, i: nat, k: Key)
    requires AllWriters(s) && CanRun(s, run) && OthersIdle(s, i, k) && QuietAt(run, k)
    ensures s.log <= RunFrom(s, run).log
    ensures forall b | |s.log| <= b < |RunFrom(s, run).log| && RunFrom(s, run).log[b].writer != i ::
      LastIn(RunFrom(s, run).log[b].reqs, k).None?
    decreases |run|
  {
    hide LastIn, NoneWaiting, StoreNext, WriterInv;
    if run != [] {
      assert run[0] in run;
      var s' := After(s, run[0]);
      WritersKept(s, run[0]);
      forall j | 0 <= j < |s'.writers| && j != i
        ensures NoneWaiting(s', j, k)
      {
        NoneWaitingStep(s, run[0], j, k);
      }
      if Commits(s.writers[run[0].writer], run[0].step) && run[0].writer != i {
        IdleCommitsElsewhere(s, run[0], k);
      }
      OthersCommitElsewhere(s', run[1..], i, k);
    }
  }

  lemma OthersStayIdle(s: Sys, i: nat, req: Req)
    requires CanDo(s, Do(i, BufferWrite(req))) && OthersIdle(s, i, req.key)
    ensures OthersIdle(After(s, Do(i, BufferWrite(req))), i, req.key)
  {
    var s' := After(s, Do(i, BufferWrite(req)));
    forall j | 0 <= j < |s'.writers| && j != i
      ensures NoneWaiting(s', j, req.key)
    {
      assert NoneWaiting(s, j, req.key) && s'.writers[j] == s.writers[j];
      assert forall v: nat, q: nat | IsWrite(s', j, v, q, req.key) :: IsWrite(s, j, v, q, req.key);
    }
  }

  lemma NothingOvertakes(before: seq<Commit>, log: seq<Commit>, i: nat, w: nat, p: nat, k: Key)
    requires before <= log && forall a | 0 <= a < |before| :: !Covers(before[a], i, w, p)
    requires forall b | |before| <= b < |log| && log[b].writer != i :: LastIn(log[b].reqs, k).None?
    ensures !Overtaken(log, i, w, p, k)
  {
    assert forall a | 0 <= a < |before| :: log[a] == before[a];
  }

  lemma UndisturbedIsNotOvertaken(s: Sys, i: nat, req: Req, run: seq<Action>, t: Sys)
    requires AllWriters(s) && AllEntries(s) && TakesOn(s, i, req, run, t)
    requires OthersIdle(s, i, req.key) && QuietAt(run[1..], req.key)
    ensures var o := Accepted(s, i, req); !Overtaken(t.log, i, o.worker, o.pos, req.key)
  {
    hide Overtaken, Covers, LastIn, OthersIdle;
    var o := Accepted(s, i, req);
    WritersKept(s, run[0]);
    NotYetCommitted(s, i, o.worker, o.pos);
    OthersStayIdle(s, i, req);
    OthersCommitElsewhere(After(s, run[0]), run[1..], i, req.key);
    NothingOvertakes(s.log, t.log, i, o.worker, o.pos, req.key);
  }

  /**
    If no other transport has a write to the key waiting and none accepts one, nothing can overtake:
    the write lands as soon as its transaction commits.
   */
  lemma UndisturbedLandsExactly(initial: Kv, configs: seq<Config>, before: seq<Action>, s: Sys, i: nat, req: Req,
      run: seq<Action>, t: Sys)
    requires Reaches(initial, configs, before, s) && TakesOn(s, i, req, run, t)
    requires OthersIdle(s, i, req.key) && QuietAt(run[1..], req.key)
    ensures var o := Accepted(s, i, req);
      Lands(s, i, req, run, t) <==> Committed(t, i, o.worker, o.pos, req.key)
  {
    ReachableInv(initial, configs, before, s);
    UndisturbedIsNotOvertaken(s, i, req, run, t);
  }

  /** A write that a fault-free run flushes is committed. */
  lemma {:induction false} FlushedInRunIsCommitted(initial: Kv, s: Sys, run: seq<Action>, i: nat, w: nat, p: nat,
      k: Key)
    requires Inv(initial, s) && CanRun(s, run) && FaultFree(run, i) && IsWrite(s, i, w, p, k)
    requires Shown(s.writers[i].workers[w]) <= p
    requires IsWorker(RunFrom(s, run), i, w) && p < Shown(RunFrom(s, run).writers[i].workers[w])
    ensures Committed(RunFrom(s, run), i, w, p, k)
    decreases |run|
  {
    var s' := After(s, run[0]);
    assert run[0] in run;
    StepKeeps(initial, s, run[0]);
    StepGrows(s, run[0], i, w);
    if p < Shown(s'.writers[i].workers[w]) {
      FlushCommits(initial, s, run[0], i, w, p, k);
      CommittedStays(s', run[1..], i, w, p, k);
    } else {
      FlushedInRunIsCommitted(initial, s', run[1..], i, w, p, k);
    }
  }

  lemma FlushCommits(initial: Kv, s: Sys, a: Action, i: nat, w: nat, p: nat, k: Key)
    requires CanDo(s, a) && Inv(initial, After(s, a)) && IsWrite(s, i, w, p, k) && IsWrite(After(s, a), i, w, p, k)
    requires a.writer == i && a.step.Flush? ==> a.step.ok
    requires Shown(s.writers[i].workers[w]) <= p < Shown(After(s, a).writers[i].workers[w])
    ensures Committed(After(s, a), i, w, p, k)
  {
    var wk := s.writers[i].workers[w];
    var closed := After(s, a).writers[i].workers[w].closed;
    if a.writer == i {
      WriterStepEffect(s.writers[i], a.step, w);
      FlatSnoc(wk.closed, Batch(wk.current, wk.pc.reason, a.step.ok));
    }
    CommittedIffInBatch(initial, After(s, a), i, w, p, k);
    assert closed[..|wk.closed|] == wk.closed;
    assert InBatch(closed, |wk.closed|, p);
  }

  lemma CalmIsQuiet(run: seq<Action>, i: nat, k: Key)
    requires Calm(run, i)
    ensures QuietAt(run, k) && FaultFree(run, i)
  {
    assert forall a | a in run :: !a.step.BufferWrite? && (a.writer == i && a.step.Flush? ==> a.step.ok);
  }

  /** A calm run that drains the writer commits a write that was waiting. */
  lemma DrainCommits(initial: Kv, s: Sys, run: seq<Action>, i: nat, w: nat, p: nat, k: Key)
    requires Inv(initial, s) && CanRun(s, run) && Calm(run, i) && IsWrite(s, i, w, p, k)
    requires Shown(s.writers[i].workers[w]) <= p && Drained(RunFrom(s, run).writers[i])
    ensures Committed(RunFrom(s, run), i, w, p, k)
  {
    var t := RunFrom(s, run);
    RunKeeps(initial, s, run);
    RunGrows(s, run, i, w);
    DrainedShowsAll(t.writers[i], w);
    CalmIsQuiet(run, i, k);
    FlushedInRunIsCommitted(initial, s, run, i, w, p, k);
  }

  /** A write that a writer not yet stopped accepts can land, if no other transport has one to the same key waiting. */
  lemma WriteCanLand(initial: Kv, configs: seq<Config>, before: seq<Action>, s: Sys, i: nat, req: Req)
      returns (run: seq<Action>)
    requires Reaches(initial, configs, before, s) && CanDo(s, Do(i, BufferWrite(req))) && !s.writers[i].stopped
    requires OthersIdle(s, i, req.key)
    ensures CanRun(s, run) && Lands(s, i, req, run, RunFrom(s, run))
  {
    var a := Do(i, BufferWrite(req));
    var s' := After(s, a);
    var o := Accepted(s, i, req);
    ReachableInv(initial, configs, before, s);
    StepKeeps(initial, s, a);
    UnstoppedStrandsNothing(s'.writers[i]);
    var drain := DrainingRun(initial, s', i);
    run := [a] + drain;
    assert run[1..] == drain;
    AcceptedIsWaiting(s, i, req);
    CalmIsQuiet(drain, i, req.key);
    DrainCommits(initial, s', drain, i, o.worker, o.pos, req.key);
    UndisturbedLandsExactly(initial, configs, before, s, i, req, run, RunFrom(s, run));
  }
}
