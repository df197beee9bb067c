/**
  Transactions of one writer: which flushes commute, how large and how frequent they are, and what
  a worker that exits has committed.
 */
module Flushing {
  import opened Bytes
  import opened Store
  import opened Writers
  import opened Transports
  import opened Histories
  import opened Failures
  import opened Shards

  // ----- order of puts and of flushes -----

  /** `puts` visits a map the way Go's `range` may: every entry, in any order. */
  ghost predicate Visits(puts: seq<Req>, buffer: Kv) {
    && (forall r | r in puts :: r.key in buffer && r.value == buffer[r.key])
    && (forall k | k in buffer :: Req(k, buffer[k]) in puts)
  }

  /** Whatever order the transaction puts the buffered pairs in, it overlays the buffer on the store. */
  lemma PutOrderIrrelevant(store: Kv, buffer: Kv, puts: seq<Req>)
    requires Visits(puts, buffer)
    ensures Replay(store, puts) == store + buffer
  {
    forall k
      ensures Lookup(Replay(store, puts), k) == Lookup(store + buffer, k)
    {
      assert k in buffer ==> Req(k, buffer[k]) in puts;
      var p := LastIn(puts, k);
      if p.Some? {
        ReplayLastWrite(store, puts, p.value);
        assert puts[p.value] in puts;
      } else {
        ReplayUntouched(store, puts, k);
      }
    }
    LookupExtensionality(Replay(store, puts), store + buffer);
  }

  lemma BufferedKeyIsRouted(wr: Writer, w: nat, k: Key)
    requires WriterInv(wr) && w < |wr.workers| && k in wr.workers[w].buffer
    ensures Route(k, |wr.workers|) == w
  {
    var wk := wr.workers[w];
    assert WorkerInv(wk, w, |wr.workers|, wr.maxBatchSize);
    ReplayedKeyIsWritten(wk.current, k);
    var q :| 0 <= q < |wk.current| && wk.current[q].key == k;
    CurrentAt(wk, w, |wr.workers|, wr.maxBatchSize, q);
    assert wk.accepted[|Flat(wk.closed)| + q] in wk.accepted;
  }

  lemma BuffersDisjoint(wr: Writer, v: nat, w: nat)
    requires WriterInv(wr) && v < |wr.workers| && w < |wr.workers| && v != w
    ensures wr.workers[v].buffer.Keys !! wr.workers[w].buffer.Keys
  {
    forall k | k in wr.workers[v].buffer && k in wr.workers[w].buffer
      ensures false
    {
      BufferedKeyIsRouted(wr, v, k);
      BufferedKeyIsRouted(wr, w, k);
    }
  }

  /** A transaction puts all of the buffer or none of it. */
  function Txn(store: Kv, buffer: Kv, ok: bool): Kv {
    if ok then store + buffer else store
  }

  lemma TxnsCommute(store: Kv, a: Kv, b: Kv, okA: bool, okB: bool)
    requires a.Keys !! b.Keys
    ensures Txn(Txn(store, a, okA), b, okB) == Txn(Txn(store, b, okB), a, okA)
  {
    assert (store + a) + b == (store + b) + a;
  }

  lemma EmptyOverlay(store: Kv, buffer: Kv)
    ensures |buffer| == 0 ==> store + buffer == store
  {
  }

  lemma FlushOnce(s: Sys, i: nat, v: nat, ok: bool)
    requires CanDo(s, Do(i, Flush(v, ok)))
    ensures var t := After(s, Do(i, Flush(v, ok))); var ws := s.writers[i].workers;
      && t.store == Txn(s.store, ws[v].buffer, ok)
      && t.writers == s.writers[i := s.writers[i].(workers := ws[v := Flushed(ws[v], ok)])]
  {
    EmptyOverlay(s.store, s.writers[i].workers[v].buffer);
  }

  lemma FlushAfterFlush(s: Sys, i: nat, v: nat, w: nat, okV: bool, okW: bool)
    requires v != w && CanDo(s, Do(i, Flush(v, okV))) && CanDo(s, Do(i, Flush(w, okW)))
    ensures CanDo(After(s, Do(i, Flush(v, okV))), Do(i, Flush(w, okW)))
    ensures var t := After(After(s, Do(i, Flush(v, okV))), Do(i, Flush(w, okW)));
      var ws := s.writers[i].workers;
      && t.store == Txn(Txn(s.store, ws[v].buffer, okV), ws[w].buffer, okW)
      && t.writers == s.writers[i :=
          s.writers[i].(workers := ws[v := Flushed(ws[v], okV)][w := Flushed(ws[w], okW)])]
  {
    FlushOnce(s, i, v, okV);
    FlushOnce(After(s, Do(i, Flush(v, okV))), i, w, okW);
  }

  /** The workers of one writer share no keys, so their flushes commute, whether each commits or fails. */
  lemma FlushesCommute(s: Sys, i: nat, v: nat, w: nat, okV: bool, okW: bool)
    requires AllWriters(s) && v != w
    requires CanDo(s, Do(i, Flush(v, okV))) && CanDo(s, Do(i, Flush(w, okW)))
    ensures s.writers[i].workers[v].buffer.Keys !! s.writers[i].workers[w].buffer.Keys
    ensures CanDo(After(s, Do(i, Flush(v, okV))), Do(i, Flush(w, okW)))
    ensures CanDo(After(s, Do(i, Flush(w, okW))), Do(i, Flush(v, okV)))
    ensures var t := After(After(s, Do(i, Flush(v, okV))), Do(i, Flush(w, okW)));
      var u := After(After(s, Do(i, Flush(w, okW))), Do(i, Flush(v, okV)));
      t.store == u.store && t.writers == u.writers
  {
    hide Flushed, After, WriterInv, Txn;
    var ws := s.writers[i].workers;
    BuffersDisjoint(s.writers[i], v, w);
    FlushAfterFlush(s, i, v, w, okV, okW);
    FlushAfterFlush(s, i, w, v, okW, okV);
    assert ws[v := Flushed(ws[v], okV)][w := Flushed(ws[w], okW)] ==
      ws[w := Flushed(ws[w], okW)][v := Flushed(ws[v], okV)];
    TxnsCommute(s.store, ws[v].buffer, ws[w].buffer, okV, okW);
  }

  // ----- batch sizes -----

  function ThresholdFlushes(closed: seq<Batch>): nat {
    if closed == [] then 0
    else ThresholdFlushes(closed[..|closed| - 1]) + if closed[|closed| - 1].reason.Threshold? then 1 else 0
  }

  lemma ThresholdBatchPays(b: Batch, maxBatchSize: int)
    requires BatchSized(b, maxBatchSize)
    ensures b.reason.Threshold? ==> Limit(maxBatchSize) <= |b.reqs|
  {
    ReplaySize(b.reqs);
  }

  lemma OneMoreTimes(n: nat, limit: nat)
    ensures (n + 1) * limit == n * limit + limit
  {
  }

  lemma {:induction false} ThresholdsArePaidFor(closed: seq<Batch>, maxBatchSize: int)
    requires forall b | b in closed :: BatchSized(b, maxBatchSize)
    ensures ThresholdFlushes(closed) * Limit(maxBatchSize) <= |Flat(closed)|
  {
    hide BatchSized, Limit;
    if closed != [] {
      var n := |closed| - 1;
      assert closed[n] in closed;
      ThresholdsArePaidFor(closed[..n], maxBatchSize);
      ThresholdBatchPays(closed[n], maxBatchSize);
      OneMoreTimes(ThresholdFlushes(closed[..n]), Limit(maxBatchSize));
    }
  }

  /**
    With the configured batch size, or one if that is smaller: the buffer never holds more keys, and
    fewer except on the way into a threshold flush; every attempted transaction has between one key
    and that many, a threshold flush exactly that many; threshold flushes are amortised over the
    requests taken from the channel; and a channel never holds more than 500000.
   */
  lemma FlushesAreAmortised(initial: Kv, configs: seq<Config>, run: seq<Action>, s: Sys, i: nat, w: nat)
    requires Reaches(initial, configs, run, s) && IsWorker(s, i, w)
    ensures |s.writers| == |configs| && |s.writers[i].workers| == configs[i].workers
    ensures var wk := s.writers[i].workers[w];
      var limit := if configs[i].maxBatchSize >= 1 then configs[i].maxBatchSize else 1;
      && |wk.buffer| <= limit && (|wk.buffer| == limit <==> wk.pc == Flushing(Threshold))
      && (forall b | b in wk.closed :: 1 <= |Replay(map[], b.reqs)| <= limit)
      && (forall b | b in wk.closed && b.reason.Threshold? :: |Replay(map[], b.reqs)| == limit)
      && ThresholdFlushes(wk.closed) * limit <= |wk.accepted| - |wk.queue|
      && |wk.queue| <= 500000
  {
    ReachableInv(initial, configs, run, s);
    ReachedWriter(initial, configs, run, s, i);
    var wr := s.writers[i];
    var wk := wr.workers[w];
    assert WorkerInv(wk, w, |wr.workers|, wr.maxBatchSize);
    ThresholdsArePaidFor(wk.closed, wr.maxBatchSize);
    forall b | b in wk.closed
      ensures BatchSized(b, wr.maxBatchSize)
    {
    }
  }

  // ----- shutdown -----

  lemma ExitedStepStays(s: Sys, a: Action, i: nat, w: nat)
    requires CanDo(s, a) && IsWorker(s, i, w) && s.writers[i].workers[w].pc.Exited?
    ensures IsWorker(After(s, a), i, w)
    ensures var wk := s.writers[i].workers[w]; var wk' := After(s, a).writers[i].workers[w];
      wk'.pc.Exited? && wk'.closed == wk.closed
    ensures LogOf(After(s, a).log, i, w) == LogOf(s.log, i, w)
  {
    var wr := s.writers[a.writer];
    if Commits(wr, a.step) {
      LogOfSnoc(s.log, CommitOf(a, wr), i, w);
    }
  }

  lemma {:induction false} ExitedStays(s: Sys, run: seq<Action>, i: nat, w: nat)
    requires CanRun(s, run) && IsWorker(s, i, w) && s.writers[i].workers[w].pc.Exited?
    ensures IsWorker(RunFrom(s, run), i, w)
    ensures var wk := s.writers[i].workers[w]; var wk' := RunFrom(s, run).writers[i].workers[w];
      wk'.pc.Exited? && wk'.closed == wk.closed
    ensures LogOf(RunFrom(s, run).log, i, w) == LogOf(s.log, i, w)
    decreases |run|
  {
    if run != [] {
      ExitedStepStays(s, run[0], i, w);
      ExitedStays(After(s, run[0]), run[1..], i, w);
    }
  }

  lemma ExitedHoldsNothing(wr: Writer, w: nat)
    requires WriterInv(wr) && w < |wr.workers| && wr.workers[w].pc.Exited?
    ensures var wk := wr.workers[w];
      wk.buffer == map[] && wk.accepted == Flat(wk.closed) + wk.queue
  {
    var wk := wr.workers[w];
    assert WorkerInv(wk, w, |wr.workers|, wr.maxBatchSize);
    assert Pending(wk) == wk.queue;
  }

  /**
    After a worker has exited its buffer is empty and everything it took from its channel is in a
    closed batch; in any continuation it commits nothing more, and of all the writes it ever
    accepts, none that was still queued or came later is ever committed.
   */
  lemma ExitIsFinal(initial: Kv, configs: seq<Config>, run: seq<Action>, s: Sys, more: seq<Action>, i: nat, w: nat)
    requires Reaches(initial, configs, run, s) && CanRun(s, more)
    requires IsWorker(s, i, w) && s.writers[i].workers[w].pc.Exited?
    ensures var t := RunFrom(s, more);
      && IsWorker(t, i, w)
      && var wk := t.writers[i].workers[w];
        && wk.buffer == map[] && wk.closed == s.writers[i].workers[w].closed
        && wk.accepted == Flat(wk.closed) + wk.queue
    ensures LogOf(RunFrom(s, more).log, i, w) == LogOf(s.log, i, w)
    ensures forall p: nat, k :: p >= Shown(s.writers[i].workers[w]) ==> !Committed(RunFrom(s, more), i, w, p, k)
  {
    var t := RunFrom(s, more);
    ReachableInv(initial, configs, run, s);
    ExitedStays(s, more, i, w);
    RunKeeps(initial, s, more);
    ExitedHoldsNothing(t.writers[i], w);
    forall p: nat, k | Committed(t, i, w, p, k)
      ensures p < Shown(s.writers[i].workers[w])
    {
      OnlyShownIsCommitted(t, i, w, p, k);
    }
  }

  /** Worker `w` has committed exactly the writes it took from its channel. */
  ghost predicate CommittedWhatItTook(s: Sys, i: nat, w: nat)
    requires IsWorker(s, i, w)
  {
    var wk := s.writers[i].workers[w];
    forall p: nat, k | IsWrite(s, i, w, p, k) :: Committed(s, i, w, p, k) <==> p < |wk.accepted| - |wk.queue|
  }

  /**
    An exited worker has committed exactly the writes it dequeued if and only if none of its
    transactions failed, which is so in every fault-free run.
   */
  lemma ExitedCommitsExactly(initial: Kv, configs: seq<Config>, run: seq<Action>, s: Sys, i: nat, w: nat)
    requires Reaches(initial, configs, run, s) && IsWorker(s, i, w) && s.writers[i].workers[w].pc.Exited?
    ensures CommittedWhatItTook(s, i, w) <==> AllCommitted(s.writers[i].workers[w].closed)
    ensures FaultFree(run, i) ==> AllCommitted(s.writers[i].workers[w].closed)
  {
    ReachableInv(initial, configs, run, s);
    ExitedHoldsNothing(s.writers[i], w);
    FlushedAllCommittedExactly(initial, s, i, w);
    forall p: nat, k | Committed(s, i, w, p, k)
      ensures p < Shown(s.writers[i].workers[w])
    {
      OnlyShownIsCommitted(s, i, w, p, k);
    }
    if FaultFree(run, i) {
      FaultFreeReachable(initial, configs, run, s, i);
    }
  }

  /** `FlushAndStop` promises less than its comment: a stopping worker may leave any suffix of its queue behind. */
  lemma {:induction false} StopMayLeaveAnySuffix(s: Sys, i: nat, w: nat, taken: nat) returns (run: seq<Action>)
    requires IsWorker(s, i, w) && s.writers[i].stopped && s.writers[i].workers[w].pc.Selecting?
    requires taken <= |s.writers[i].workers[w].queue|
    ensures CanRun(s, run) && FaultFree(run, i) && IsWorker(RunFrom(s, run), i, w)
    ensures RunFrom(s, run).writers[i].workers[w].pc.Exited?
    ensures RunFrom(s, run).writers[i].workers[w].queue == s.writers[i].workers[w].queue[taken..]
    decreases taken
  {
    if taken == 0 {
      TwoStepRun(s, Do(i, SeesStop(w)), Do(i, Flush(w, true)));
      run := [Do(i, SeesStop(w)), Do(i, Flush(w, true))];
    } else {
      var head := TakeOne(s, i, w);
      var s' := RunFrom(s, head);
      var rest := StopMayLeaveAnySuffix(s', i, w, taken - 1);
      RunConcat(s, head, rest);
      run := head + rest;
      assert s.writers[i].workers[w].queue[1..][taken - 1..] == s.writers[i].workers[w].queue[taken..];
    }
  }

  /** One turn of the select loop on a queued request: receive, insert, and flush if the limit is reached. */
  lemma TakeOne(s: Sys, i: nat, w: nat) returns (run: seq<Action>)
    requires IsWorker(s, i, w) && s.writers[i].workers[w].pc.Selecting? && s.writers[i].workers[w].queue != []
    ensures CanRun(s, run) && FaultFree(run, i) && IsWorker(RunFrom(s, run), i, w)
    ensures var wk := s.writers[i].workers[w]; var wk' := RunFrom(s, run).writers[i].workers[w];
      wk'.pc.Selecting? && wk'.queue == wk.queue[1..]
    ensures RunFrom(s, run).writers[i].stopped == s.writers[i].stopped
  {
    hide After, CanDo;
    ReceiveInsert(s, i, w);
    run := [Do(i, Receive(w)), Do(i, Insert(w))];
    var s2 := RunFrom(s, run);
    if s2.writers[i].workers[w].pc.Flushing? {
      var flush := Do(i, Flush(w, true));
      WorkerFlushes(s2, i, w);
      OneStepRun(s2, flush);
      RunConcat(s, run, [flush]);
      run := run + [flush];
    }
  }

  lemma ReceiveInsert(s: Sys, i: nat, w: nat)
    requires IsWorker(s, i, w) && s.writers[i].workers[w].pc.Selecting? && s.writers[i].workers[w].queue != []
    ensures var run := [Do(i, Receive(w)), Do(i, Insert(w))];
      && CanRun(s, run) && IsWorker(RunFrom(s, run), i, w)
      && RunFrom(s, run).writers[i].stopped == s.writers[i].stopped
      && RunFrom(s, run).writers[i].workers[w] ==
          Inserting(Receiving(s.writers[i].workers[w]), s.writers[i].maxBatchSize)
  {
    TwoStepRun(s, Do(i, Receive(w)), Do(i, Insert(w)));
  }

  lemma WorkerFlushes(s: Sys, i: nat, w: nat)
    requires IsWorker(s, i, w) && s.writers[i].workers[w].pc.Flushing?
    ensures CanDo(s, Do(i, Flush(w, true)))
    ensures var t := After(s, Do(i, Flush(w, true)));
      && IsWorker(t, i, w) && t.writers[i].stopped == s.writers[i].stopped
      && t.writers[i].workers[w] == Flushed(s.writers[i].workers[w], true)
  {
  }
}
