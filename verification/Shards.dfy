/**
  How the batching writer compares with the plain store it speeds up: one `Db.Set` per write.
 */
module Shards {
  import opened Bytes
  import opened Store
  import opened Writers
  import opened Transports
  import opened Histories
  import opened Failures

  /** The requests of the batches that committed. */
  function CommittedReqs(closed: seq<Batch>): seq<Req> {
    if closed == [] then []
    else
      var last := closed[|closed| - 1];
      CommittedReqs(closed[..|closed| - 1]) + if last.committed then last.reqs else []
  }

  /** No writer but `i` has been asked to write `k`. */
  ghost predicate OnlyFrom(s: Sys, i: nat, k: Key) {
    forall j, r | 0 <= j < |s.writers| && j != i && r in s.writers[j].arrivals :: r.key != k
  }

  /** No transaction of writer `i` fails in the run. */
  predicate FaultFree(run: seq<Action>, i: nat) {
    forall a | a in run :: a.writer == i && a.step.Flush? ==> a.step.ok
  }

  ghost predicate NoFailure(s: Sys, i: nat) {
    i < |s.writers| && forall w | 0 <= w < |s.writers[i].workers| :: AllCommitted(s.writers[i].workers[w].closed)
  }

  /** Nothing accepted is waiting in a channel, in hand or in a buffer. */
  ghost predicate Drained(wr: Writer) {
    forall w | 0 <= w < |wr.workers| :: Pending(wr.workers[w]) == []
  }

  lemma {:induction false} RoutedMembers(reqs: seq<Req>, w: nat, n: nat, r: Req)
    requires n > 0
    ensures r in Routed(reqs, w, n) <==> r in reqs && Route(r.key, n) == w
  {
    if reqs != [] {
      var m := |reqs| - 1;
      RoutedMembers(reqs[..m], w, n, r);
      assert reqs == reqs[..m] + [reqs[m]];
    }
  }

  lemma ByKeySnoc(reqs: seq<Req>, r: Req, k: Key)
    ensures ByKey(reqs + [r], k) == ByKey(reqs, k) + if r.key == k then [r] else []
  {
    assert (reqs + [r])[..|reqs|] == reqs;
  }

  /** Routing keeps the order of the writes to each key. */
  lemma {:induction false} RoutedByKey(reqs: seq<Req>, n: nat, k: Key)
    requires n > 0
    ensures ByKey(Routed(reqs, Route(k, n), n), k) == ByKey(reqs, k)
  {
    if reqs != [] {
      var m := |reqs| - 1;
      var w := Route(k, n);
      var before := Routed(reqs[..m], w, n);
      RoutedByKey(reqs[..m], n, k);
      assert reqs == reqs[..m] + [reqs[m]];
      ByKeySnoc(reqs[..m], reqs[m], k);
      RoutedSnoc(reqs[..m], reqs[m], w, n);
      hide ByKey, Routed, Route;
      if Route(reqs[m].key, n) == w {
        ByKeySnoc(before, reqs[m], k);
      } else {
        assert before + [] == before;
      }
    }
  }

  lemma TouchesAreOfTheShard(s: Sys, i: nat, k: Key, a: nat)
    requires AllWriters(s) && AllEntries(s) && OnlyFrom(s, i, k)
    requires a < |s.log| && LastIn(s.log[a].reqs, k).Some?
    ensures var c := s.log[a]; c.writer == i && i < |s.writers| && s.writers[i].workers != []
    ensures s.log[a].worker == Route(k, |s.writers[i].workers|)
  {
    var c := s.log[a];
    var q := LastIn(c.reqs, k).value;
    EntryHolds(s, c, q);
    var wr := s.writers[c.writer];
    assert WorkerInv(wr.workers[c.worker], c.worker, |wr.workers|, wr.maxBatchSize);
    RoutedMembers(wr.arrivals, c.worker, |wr.workers|, c.reqs[q]);
    assert c.reqs[q] in wr.workers[c.worker].accepted;
  }

  lemma {:induction false} ShardOfLog(m: Kv, log: seq<Commit>, i: nat, w: nat, k: Key)
    requires forall a | 0 <= a < |log| && LastIn(log[a].reqs, k).Some? :: log[a].writer == i && log[a].worker == w
    ensures Lookup(ReplayLog(m, log), k) == Lookup(ReplayLog(m, LogOf(log, i, w)), k)
  {
    if log != [] {
      var n := |log| - 1;
      var c := log[n];
      ShardOfLog(m, log[..n], i, w, k);
      var all, own := ReplayLog(m, log[..n]), ReplayLog(m, LogOf(log[..n], i, w));
      SameKeySameReplay(all, own, c.reqs, k);
      if c.writer == i && c.worker == w {
        ReplayLogSnoc(m, LogOf(log[..n], i, w), c);
      } else {
        ReplayUntouched(all, c.reqs, k);
        assert LogOf(log, i, w) == LogOf(log[..n], i, w);
      }
    }
  }

  lemma {:induction false} SameKeySameReplay(a: Kv, b: Kv, reqs: seq<Req>, k: Key)
    requires Lookup(a, k) == Lookup(b, k)
    ensures Lookup(Replay(a, reqs), k) == Lookup(Replay(b, reqs), k)
  {
    if reqs != [] {
      SameKeySameReplay(a, b, reqs[..|reqs| - 1], k);
    }
  }

  lemma {:induction false} CommitsReplay(m: Kv, i: nat, w: nat, closed: seq<Batch>)
    ensures ReplayLog(m, CommitsFrom(i, w, closed)) == Replay(m, CommittedReqs(closed))
  {
    if closed != [] {
      var n := |closed| - 1;
      CommitsReplay(m, i, w, closed[..n]);
      if closed[n].committed {
        ReplayLogSnoc(m, CommitsFrom(i, w, closed[..n]), Commit(i, w, |Flat(closed[..n])|, closed[n].reqs));
        ReplayAppend(m, CommittedReqs(closed[..n]), closed[n].reqs);
      } else {
        assert CommitsFrom(i, w, closed) == CommitsFrom(i, w, closed[..n]);
        assert CommittedReqs(closed) == CommittedReqs(closed[..n]);
      }
    }
  }

  /** A key that only writer `i` writes holds what its shard's committed batches, in order, made of it. */
  lemma ShardView(initial: Kv, s: Sys, i: nat, k: Key)
    requires Inv(initial, s) && i < |s.writers| && s.writers[i].workers != [] && OnlyFrom(s, i, k)
    ensures var closed := s.writers[i].workers[Route(k, |s.writers[i].workers|)].closed;
      Lookup(s.store, k) == Lookup(Replay(initial, CommittedReqs(closed)), k)
  {
    var w := Route(k, |s.writers[i].workers|);
    forall a | 0 <= a < |s.log| && LastIn(s.log[a].reqs, k).Some?
      ensures s.log[a].writer == i && s.log[a].worker == w
    {
      TouchesAreOfTheShard(s, i, k, a);
    }
    ShardOfLog(initial, s.log, i, w, k);
    assert LogMatches(s, i, w);
    CommitsReplay(initial, i, w, s.writers[i].workers[w].closed);
  }

  /**
    In every reachable state, failures included: what a worker accepted is the writes handed to its
    writer whose first key byte, modulo the workers, is its number; they are its closed batches, the
    current batch, the request in hand and the queue, in that order; its buffer is the
    last-write-wins view of the current batch; and its keys show its committed batches.
   */
  lemma HistoryPartition(initial: Kv, configs: seq<Config>, run: seq<Action>, s: Sys, i: nat, w: nat)
    requires Reaches(initial, configs, run, s) && IsWorker(s, i, w)
    ensures var wk := s.writers[i].workers[w];
      && wk.accepted == Flat(wk.closed) + wk.current + HandOf(wk.pc) + wk.queue
      && wk.buffer == Replay(map[], wk.current)
      && wk.accepted == Routed(WritesIn(run, i), w, |s.writers[i].workers|)
      && forall r | r in wk.accepted :: r.key[0] as int % |s.writers[i].workers| == w
    ensures forall k: Key | k[0] as int % |s.writers[i].workers| == w && OnlyFrom(s, i, k) ::
      Lookup(s.store, k) == Lookup(Replay(initial, CommittedReqs(s.writers[i].workers[w].closed)), k)
  {
    ReachableInv(initial, configs, run, s);
    ReachedWriter(initial, configs, run, s, i);
    WorkerPartition(s.writers[i], w);
    forall k: Key | k[0] as int % |s.writers[i].workers| == w && OnlyFrom(s, i, k)
      ensures Lookup(s.store, k) == Lookup(Replay(initial, CommittedReqs(s.writers[i].workers[w].closed)), k)
    {
      ShardView(initial, s, i, k);
    }
  }

  lemma WorkerPartition(wr: Writer, w: nat)
    requires WriterInv(wr) && w < |wr.workers|
    ensures var wk := wr.workers[w];
      && wk.accepted == Flat(wk.closed) + wk.current + HandOf(wk.pc) + wk.queue
      && wk.buffer == Replay(map[], wk.current)
      && wk.accepted == Routed(wr.arrivals, w, |wr.workers|)
      && forall r | r in wk.accepted :: r.key[0] as int % |wr.workers| == w
  {
    var wk := wr.workers[w];
    assert WorkerInv(wk, w, |wr.workers|, wr.maxBatchSize);
    assert Flat(wk.closed) + Pending(wk) == Flat(wk.closed) + wk.current + HandOf(wk.pc) + wk.queue;
  }

  // ----- fault-free runs -----

  lemma {:induction false} FaultFreeWorkerCommits(s: Sys, run: seq<Action>, i: nat, w: nat)
    requires CanRun(s, run) && FaultFree(run, i) && IsWorker(s, i, w) && AllCommitted(s.writers[i].workers[w].closed)
    ensures IsWorker(RunFrom(s, run), i, w) && AllCommitted(RunFrom(s, run).writers[i].workers[w].closed)
    decreases |run|
  {
    if run != [] {
      assert run[0] in run;
      if run[0].writer == i {
        WriterStepEffect(s.writers[i], run[0].step, w);
      }
      FaultFreeWorkerCommits(After(s, run[0]), run[1..], i, w);
    }
  }

  lemma FaultFreeRunsCommit(s: Sys, run: seq<Action>, i: nat)
    requires CanRun(s, run) && FaultFree(run, i) && NoFailure(s, i)
    ensures NoFailure(RunFrom(s, run), i)
  {
    WorkersFixed(s, run, i);
    forall w | 0 <= w < |s.writers[i].workers|
      ensures AllCommitted(RunFrom(s, run).writers[i].workers[w].closed)
    {
      FaultFreeWorkerCommits(s, run, i, w);
    }
  }

  lemma InitHasNoFailure(initial: Kv, configs: seq<Config>, i: nat)
    requires i < |configs|
    ensures NoFailure(Init(initial, configs), i)
  {
    var wr := Init(initial, configs).writers[i];
    forall w | 0 <= w < |wr.workers|
      ensures AllCommitted(wr.workers[w].closed)
    {
      assert wr.workers[w] == IdleWorker;
    }
  }

  lemma {:induction false} AllCommittedIsFlat(closed: seq<Batch>)
    requires AllCommitted(closed)
    ensures CommittedReqs(closed) == Flat(closed)
  {
    if closed != [] {
      assert closed[|closed| - 1] in closed;
      AllCommittedIsFlat(closed[..|closed| - 1]);
    }
  }

  /** Without failures a shard shows exactly the first `Shown` of its accepted writes. */
  lemma ShardShowsPrefix(initial: Kv, s: Sys, i: nat, k: Key)
    requires Inv(initial, s) && NoFailure(s, i) && s.writers[i].workers != [] && OnlyFrom(s, i, k)
    ensures var wk := s.writers[i].workers[Route(k, |s.writers[i].workers|)];
      && Shown(wk) <= |wk.accepted|
      && Lookup(s.store, k) == Lookup(Replay(initial, wk.accepted[..Shown(wk)]), k)
  {
    var wr := s.writers[i];
    var w := Route(k, |wr.workers|);
    ShardView(initial, s, i, k);
    AllCommittedIsFlat(wr.workers[w].closed);
    CurrentIsNextStretch(wr.workers[w], w, |wr.workers|, wr.maxBatchSize);
  }

  lemma ShownGrows(initial: Kv, s: Sys, run: seq<Action>, i: nat, w: nat)
    requires Inv(initial, s) && CanRun(s, run) && IsWorker(s, i, w)
    ensures IsWorker(RunFrom(s, run), i, w)
    ensures Shown(s.writers[i].workers[w]) <= Shown(RunFrom(s, run).writers[i].workers[w])
  {
    RunGrows(s, run, i, w);
    FlatOfPrefix(s.writers[i].workers[w].closed, RunFrom(s, run).writers[i].workers[w].closed);
  }

  lemma {:induction false} WorkersFixed(s: Sys, run: seq<Action>, i: nat)
    requires CanRun(s, run) && i < |s.writers|
    ensures |RunFrom(s, run).writers[i].workers| == |s.writers[i].workers|
    decreases |run|
  {
    if run != [] {
      WorkersFixed(After(s, run[0]), run[1..], i);
    }
  }

  lemma OnlyFromEarlier(s: Sys, run: seq<Action>, i: nat, k: Key)
    requires CanRun(s, run) && OnlyFrom(RunFrom(s, run), i, k)
    ensures OnlyFrom(s, i, k)
  {
    var t := RunFrom(s, run);
    forall j, r | 0 <= j < |s.writers| && j != i && r in s.writers[j].arrivals
      ensures r.key != k
    {
      ArrivalsGrowBy(s, run, j);
      assert r in t.writers[j].arrivals;
    }
  }

  /** An earlier and a later state, by what the shard of `k` shows in each. */
  ghost predicate ShowsGrowingPrefix(initial: Kv, s: Sys, t: Sys, i: nat, k: Key)
    requires i < |s.writers| && s.writers[i].workers != []
  {
    var w := Route(k, |s.writers[i].workers|);
    && IsWorker(t, i, w)
    && var accepted := t.writers[i].workers[w].accepted;
      var n := Shown(s.writers[i].workers[w]);
      var m := Shown(t.writers[i].workers[w]);
      && n <= m <= |accepted|
      && Lookup(s.store, k) == Lookup(Replay(initial, accepted[..n]), k)
      && Lookup(t.store, k) == Lookup(Replay(initial, accepted[..m]), k)
  }

  lemma GrowingPrefix(initial: Kv, s: Sys, t: Sys, i: nat, k: Key)
    requires i < |s.writers| && s.writers[i].workers != []
    requires i < |t.writers| && |t.writers[i].workers| == |s.writers[i].workers|
    requires var wk := s.writers[i].workers[Route(k, |s.writers[i].workers|)];
      Shown(wk) <= |wk.accepted| && Lookup(s.store, k) == Lookup(Replay(initial, wk.accepted[..Shown(wk)]), k)
    requires var wk := t.writers[i].workers[Route(k, |s.writers[i].workers|)];
      Shown(wk) <= |wk.accepted| && Lookup(t.store, k) == Lookup(Replay(initial, wk.accepted[..Shown(wk)]), k)
    requires var w := Route(k, |s.writers[i].workers|);
      var wk, wk' := s.writers[i].workers[w], t.writers[i].workers[w];
      wk.accepted <= wk'.accepted && Shown(wk) <= Shown(wk')
    ensures ShowsGrowingPrefix(initial, s, t, i, k)
  {
    var w := Route(k, |s.writers[i].workers|);
    var wk, wk' := s.writers[i].workers[w], t.writers[i].workers[w];
    assert wk.accepted[..Shown(wk)] == wk'.accepted[..Shown(wk)];
  }

  /**
    Successive reads never go back in time: between any two states of a fault-free run, both the
    earlier and the later `Get` see a replay of a prefix of the same accepted writes, and the later
    prefix is no shorter.
   */
  lemma MonotoneReads(initial: Kv, configs: seq<Config>, run: seq<Action>, s: Sys, more: seq<Action>, i: nat, k: Key)
    requires Reaches(initial, configs, run, s) && CanRun(s, more)
    requires i < |configs| && |s.writers| == |configs| && s.writers[i].workers != []
    requires FaultFree(run, i) && FaultFree(more, i) && OnlyFrom(RunFrom(s, more), i, k)
    ensures ShowsGrowingPrefix(initial, s, RunFrom(s, more), i, k)
  {
    var t := RunFrom(s, more);
    var w := Route(k, |s.writers[i].workers|);
    FaultFreeReachable(initial, configs, run, s, i);
    WorkersFixed(s, more, i);
    ShownGrows(initial, s, more, i, w);
    RunGrows(s, more, i, w);
    OnlyFromEarlier(s, more, i, k);
    ShardShowsPrefix(initial, s, i, k);
    RunKeeps(initial, s, more);
    FaultFreeRunsCommit(s, more, i);
    ShardShowsPrefix(initial, t, i, k);
    GrowingPrefix(initial, s, t, i, k);
  }

  // ----- drained runs -----

  lemma NoWorkersNoWrites(initial: Kv, s: Sys, i: nat, k: Key)
    requires Inv(initial, s) && i < |s.writers| && s.writers[i].workers == [] && OnlyFrom(s, i, k)
    ensures Lookup(s.store, k) == Lookup(initial, k)
  {
    var a := LastTouch(s.log, k);
    if a.Some? {
      TouchesAreOfTheShard(s, i, k, a.value);
    }
    LogShowsLastTouch(initial, s.log, k);
  }

  lemma RoutedReplay(initial: Kv, reqs: seq<Req>, n: nat, k: Key)
    requires n > 0
    ensures Lookup(Replay(initial, Routed(reqs, Route(k, n), n)), k) == Lookup(Replay(initial, reqs), k)
  {
    ReplayByKey(initial, Routed(reqs, Route(k, n), n), k);
    RoutedByKey(reqs, n, k);
    ReplayByKey(initial, reqs, k);
  }

  lemma DrainedShowsAll(wr: Writer, w: nat)
    requires WriterInv(wr) && Drained(wr) && w < |wr.workers|
    ensures var wk := wr.workers[w];
      Shown(wk) == |wk.accepted| && wk.accepted == Routed(wr.arrivals, w, |wr.workers|)
  {
    assert WorkerInv(wr.workers[w], w, |wr.workers|, wr.maxBatchSize);
  }

  /** Once writer `i` has drained without a failure, a key that only it writes is as if set directly. */
  lemma DrainedShowsSets(initial: Kv, s: Sys, i: nat, k: Key)
    requires Inv(initial, s) && NoFailure(s, i) && Drained(s.writers[i]) && OnlyFrom(s, i, k)
    ensures Lookup(s.store, k) == Lookup(Replay(initial, s.writers[i].arrivals), k)
  {
    var wr := s.writers[i];
    if wr.workers == [] {
      NoWorkersNoWrites(initial, s, i, k);
      assert WriterInv(wr);
    } else {
      var n := |wr.workers|;
      var wk := wr.workers[Route(k, n)];
      ShardShowsPrefix(initial, s, i, k);
      DrainedShowsAll(wr, Route(k, n));
      assert wk.accepted[..|wk.accepted|] == wk.accepted;
      RoutedReplay(initial, wr.arrivals, n, k);
    }
  }

  lemma FaultFreeReachable(initial: Kv, configs: seq<Config>, run: seq<Action>, s: Sys, i: nat)
    requires Reaches(initial, configs, run, s) && FaultFree(run, i) && i < |configs|
    ensures Inv(initial, s) && NoFailure(s, i) && |s.writers| == |configs|
  {
    ReachableInv(initial, configs, run, s);
    InitHasInv(initial, configs);
    InitHasNoFailure(initial, configs, i);
    FaultFreeRunsCommit(Init(initial, configs), run, i);
  }

  /** One batching writer, drained and without failures, left what one `Db.Set` per write would have. */
  lemma DrainedRefinesSets(initial: Kv, config: Config, run: seq<Action>, s: Sys)
    requires Reaches(initial, [config], run, s) && FaultFree(run, 0) && Drained(s.writers[0])
    ensures s.store == Replay(initial, WritesIn(run, 0))
  {
    FaultFreeReachable(initial, [config], run, s, 0);
    ReachedWriter(initial, [config], run, s, 0);
    forall k
      ensures Lookup(s.store, k) == Lookup(Replay(initial, WritesIn(run, 0)), k)
    {
      DrainedShowsSets(initial, s, 0, k);
    }
    LookupExtensionality(s.store, Replay(initial, WritesIn(run, 0)));
  }

  lemma SameOrderSameReplay(m: Kv, a: seq<Req>, b: seq<Req>)
    requires forall k :: ByKey(a, k) == ByKey(b, k)
    ensures Replay(m, a) == Replay(m, b)
  {
    forall k
      ensures Lookup(Replay(m, a), k) == Lookup(Replay(m, b), k)
    {
      ReplayByKey(m, a, k);
      ReplayByKey(m, b, k);
      assert ByKey(a, k) == ByKey(b, k);
    }
    LookupExtensionality(Replay(m, a), Replay(m, b));
  }

  /**
    The outcome depends on nothing but the order of the writes to each key: not on the number of
    workers, the batch size, the ticks, or how workers and clients interleaved.
   */
  lemma ScheduleIndependence(initial: Kv, c1: Config, run1: seq<Action>, s1: Sys, c2: Config,
      run2: seq<Action>, s2: Sys)
    requires Reaches(initial, [c1], run1, s1) && FaultFree(run1, 0) && Drained(s1.writers[0])
    requires Reaches(initial, [c2], run2, s2) && FaultFree(run2, 0) && Drained(s2.writers[0])
    requires forall k :: ByKey(WritesIn(run1, 0), k) == ByKey(WritesIn(run2, 0), k)
    ensures s1.store == s2.store == Replay(initial, WritesIn(run1, 0))
  {
    DrainedRefinesSets(initial, c1, run1, s1);
    DrainedRefinesSets(initial, c2, run2, s2);
    SameOrderSameReplay(initial, WritesIn(run1, 0), WritesIn(run2, 0));
  }

  /** Without failures, every write that was flushed is committed. */
  lemma FlushedIsCommitted(initial: Kv, s: Sys, i: nat, w: nat, p: nat, k: Key)
    requires Inv(initial, s) && NoFailure(s, i) && IsWrite(s, i, w, p, k) && p < Shown(s.writers[i].workers[w])
    ensures Committed(s, i, w, p, k)
  {
    FlushedAllCommittedExactly(initial, s, i, w);
  }

  /**
    Several transports writing one key: when every writer has drained without a failure, the key
    holds the last accepted write of one of the writers that wrote it, never a superseded one.
   */
  lemma ContestedKeyHoldsALastWrite(initial: Kv, configs: seq<Config>, run: seq<Action>, s: Sys, i: nat,
      w: nat, p: nat, k: Key)
    requires Reaches(initial, configs, run, s) && IsWrite(s, i, w, p, k)
    requires forall j: nat | j < |s.writers| :: FaultFree(run, j) && Drained(s.writers[j])
    ensures Visible(s.log, k).Some?
    ensures var o := Visible(s.log, k).value;
      && IsWrite(s, o.writer, o.worker, o.pos, k) && Lookup(s.store, k) == Some(ValueOf(s, o))
      && forall q | q > o.pos :: !IsWrite(s, o.writer, o.worker, q, k)
  {
    FaultFreeReachable(initial, configs, run, s, i);
    DrainedIsCommitted(initial, s, i, w, p, k);
    CommittedHidesEarlier(initial, s, i, w, p, k);
    StoreShowsVisible(initial, s, k);
    var o := Visible(s.log, k).value;
    FaultFreeReachable(initial, configs, run, s, o.writer);
    forall q | q > o.pos && IsWrite(s, o.writer, o.worker, q, k)
      ensures false
    {
      DrainedIsCommitted(initial, s, o.writer, o.worker, q, k);
      CommittedHidesEarlier(initial, s, o.writer, o.worker, q, k);
    }
  }

  lemma DrainedIsCommitted(initial: Kv, s: Sys, i: nat, w: nat, p: nat, k: Key)
    requires Inv(initial, s) && NoFailure(s, i) && Drained(s.writers[i]) && IsWrite(s, i, w, p, k)
    ensures Committed(s, i, w, p, k)
  {
    var wr := s.writers[i];
    assert WorkerInv(wr.workers[w], w, |wr.workers|, wr.maxBatchSize);
    FlushedIsCommitted(initial, s, i, w, p, k);
  }
}
