/**
  What becomes of the writes of a transaction that fails. `flush` clears the buffer either way, so a
  write's fate is settled by the one transaction it is put in.
 */
module Failures {
  import opened Bytes
  import opened Store
  import opened Writers
  import opened Transports
  import opened Histories

  /** How many of its accepted requests a worker has put in transactions. */
  function Shown(wk: Worker): nat {
    |Flat(wk.closed)|
  }

  /** Accepted request `p` of a worker was in closed batch `b`. */
  ghost predicate InBatch(closed: seq<Batch>, b: nat, p: nat) {
    b < |closed| && |Flat(closed[..b])| <= p < |Flat(closed[..b])| + |closed[b].reqs|
  }

  ghost predicate AllCommitted(closed: seq<Batch>) {
    forall b | b in closed :: b.committed
  }

  ghost predicate InCommittedBatch(closed: seq<Batch>, p: nat) {
    exists b: nat :: InBatch(closed, b, p) && closed[b].committed
  }

  lemma {:induction false} FlatOfPrefix(a: seq<Batch>, b: seq<Batch>)
    requires a <= b
    ensures Flat(a) <= Flat(b)
  {
    if |a| < |b| {
      FlatOfPrefix(a, b[..|b| - 1]);
    } else {
      assert a == b;
    }
  }

  /** The closed batches divide up the requests that were put in transactions. */
  lemma {:induction false} BatchAt(closed: seq<Batch>, p: nat) returns (b: nat)
    requires p < |Flat(closed)|
    ensures InBatch(closed, b, p)
    ensures forall c: nat :: InBatch(closed, c, p) ==> c == b
  {
    var n := |closed| - 1;
    if p < |Flat(closed[..n])| {
      b := BatchAt(closed[..n], p);
      forall c: nat | InBatch(closed, c, p)
        ensures c == b
      {
        assert c < n ==> closed[..n][..c] == closed[..c];
        assert c < n ==> InBatch(closed[..n], c, p);
      }
      assert closed[..n][..b] == closed[..b];
    } else {
      b := n;
      forall c: nat | InBatch(closed, c, p)
        ensures c == b
      {
        FlatThrough(closed, c, n);
      }
    }
  }

  /** A batch ends before the next one starts. */
  lemma FlatThrough(closed: seq<Batch>, c: nat, n: nat)
    requires c < |closed| && n <= |closed|
    ensures c < n ==> |Flat(closed[..c])| + |closed[c].reqs| <= |Flat(closed[..n])|
  {
    if c < n {
      assert closed[..c + 1] == closed[..c] + [closed[c]];
      FlatSnoc(closed[..c], closed[c]);
      FlatOfPrefix(closed[..c + 1], closed[..n]);
    }
  }

  lemma {:induction false} CommitOfBatch(i: nat, w: nat, closed: seq<Batch>, b: nat)
    requires b < |closed| && closed[b].committed
    ensures Commit(i, w, |Flat(closed[..b])|, closed[b].reqs) in CommitsFrom(i, w, closed)
  {
    var n := |closed| - 1;
    if b < n {
      assert closed[..n][..b] == closed[..b];
      CommitOfBatch(i, w, closed[..n], b);
    }
  }

  lemma {:induction false} BatchOfCommit(i: nat, w: nat, closed: seq<Batch>, c: Commit) returns (b: nat)
    requires c in CommitsFrom(i, w, closed)
    ensures b < |closed| && closed[b].committed && c == Commit(i, w, |Flat(closed[..b])|, closed[b].reqs)
  {
    var n := |closed| - 1;
    if c in CommitsFrom(i, w, closed[..n]) {
      b := BatchOfCommit(i, w, closed[..n], c);
      assert closed[..n][..b] == closed[..b];
    } else {
      b := n;
    }
  }

  lemma {:induction false} LogOfMembers(log: seq<Commit>, i: nat, w: nat, c: Commit)
    ensures c in LogOf(log, i, w) <==> c in log && c.writer == i && c.worker == w
  {
    if log != [] {
      var n := |log| - 1;
      LogOfMembers(log[..n], i, w, c);
      assert log == log[..n] + [log[n]];
    }
  }

  lemma CommitIsBatch(s: Sys, i: nat, w: nat, p: nat, k: Key)
    requires Committed(s, i, w, p, k) && LogMatches(s, i, w)
    ensures InCommittedBatch(s.writers[i].workers[w].closed, p)
  {
    var closed := s.writers[i].workers[w].closed;
    var a :| 0 <= a < |s.log| && Covers(s.log[a], i, w, p);
    LogOfMembers(s.log, i, w, s.log[a]);
    var b := BatchOfCommit(i, w, closed, s.log[a]);
    assert InBatch(closed, b, p);
  }

  lemma BatchIsCommit(s: Sys, i: nat, w: nat, p: nat, k: Key)
    requires IsWrite(s, i, w, p, k) && LogMatches(s, i, w) && InCommittedBatch(s.writers[i].workers[w].closed, p)
    ensures Committed(s, i, w, p, k)
  {
    var closed := s.writers[i].workers[w].closed;
    var b: nat :| InBatch(closed, b, p) && closed[b].committed;
    var c := Commit(i, w, |Flat(closed[..b])|, closed[b].reqs);
    CommitOfBatch(i, w, closed, b);
    LogOfMembers(s.log, i, w, c);
    var a :| 0 <= a < |s.log| && s.log[a] == c;
    assert Covers(s.log[a], i, w, p);
  }

  lemma CommittedIffInBatch(initial: Kv, s: Sys, i: nat, w: nat, p: nat, k: Key)
    requires Inv(initial, s) && IsWrite(s, i, w, p, k)
    ensures Committed(s, i, w, p, k) <==> InCommittedBatch(s.writers[i].workers[w].closed, p)
  {
    hide Committed, InCommittedBatch;
    assert LogMatches(s, i, w);
    if Committed(s, i, w, p, k) {
      CommitIsBatch(s, i, w, p, k);
    } else if InCommittedBatch(s.writers[i].workers[w].closed, p) {
      BatchIsCommit(s, i, w, p, k);
    }
  }

  ghost predicate FlushedAllCommitted(s: Sys, i: nat, w: nat)
    requires IsWorker(s, i, w)
  {
    forall p: nat, k | IsWrite(s, i, w, p, k) && p < Shown(s.writers[i].workers[w]) :: Committed(s, i, w, p, k)
  }

  lemma BatchNotEmpty(wr: Writer, w: nat, b: nat)
    requires WriterInv(wr) && w < |wr.workers| && b < |wr.workers[w].closed|
    ensures |wr.workers[w].closed[b].reqs| > 0
  {
    var wk := wr.workers[w];
    assert WorkerInv(wk, w, |wr.workers|, wr.maxBatchSize);
    assert BatchSized(wk.closed[b], wr.maxBatchSize);
    ReplaySize(wk.closed[b].reqs);
  }

  lemma BatchIsCommitted(initial: Kv, s: Sys, i: nat, w: nat, b: nat)
    requires Inv(initial, s) && IsWorker(s, i, w) && FlushedAllCommitted(s, i, w)
    requires b < |s.writers[i].workers[w].closed|
    ensures s.writers[i].workers[w].closed[b].committed
  {
    var wk := s.writers[i].workers[w];
    BatchNotEmpty(s.writers[i], w, b);
    var p := |Flat(wk.closed[..b])|;
    assert wk.closed[..|wk.closed|] == wk.closed;
    FlatThrough(wk.closed, b, |wk.closed|);
    CurrentIsNextStretch(wk, w, |s.writers[i].workers|, s.writers[i].maxBatchSize);
    assert IsWrite(s, i, w, p, wk.accepted[p].key);
    CommittedIffInBatch(initial, s, i, w, p, wk.accepted[p].key);
    var c := BatchAt(wk.closed, p);
    assert InBatch(wk.closed, b, p);
  }

  /** All that a worker flushed is committed exactly when no batch of it failed. */
  lemma FlushedAllCommittedExactly(initial: Kv, s: Sys, i: nat, w: nat)
    requires Inv(initial, s) && IsWorker(s, i, w)
    ensures FlushedAllCommitted(s, i, w) <==> AllCommitted(s.writers[i].workers[w].closed)
  {
    var closed := s.writers[i].workers[w].closed;
    if AllCommitted(closed) {
      forall p: nat, k | IsWrite(s, i, w, p, k) && p < Shown(s.writers[i].workers[w])
        ensures Committed(s, i, w, p, k)
      {
        CommittedIffInBatch(initial, s, i, w, p, k);
        var b := BatchAt(closed, p);
        assert closed[b] in closed;
      }
    }
    if FlushedAllCommitted(s, i, w) {
      forall b | 0 <= b < |closed|
        ensures closed[b].committed
      {
        BatchIsCommitted(initial, s, i, w, b);
      }
    }
  }

  lemma OnlyShownIsCommitted(s: Sys, i: nat, w: nat, p: nat, k: Key)
    requires AllEntries(s) && Committed(s, i, w, p, k)
    ensures p < Shown(s.writers[i].workers[w])
  {
    var a :| 0 <= a < |s.log| && Covers(s.log[a], i, w, p);
    assert LogEntryOk(s, s.log[a]);
  }

  /**
    In every reachable state, failures included, a write is committed exactly when the batch it was
    flushed in committed: no other transaction ever carries it.
   */
  lemma CommittedExactly(initial: Kv, configs: seq<Config>, run: seq<Action>, s: Sys, i: nat, w: nat, p: nat, k: Key)
    requires Reaches(initial, configs, run, s) && IsWrite(s, i, w, p, k)
    ensures var wk := s.writers[i].workers[w];
      && (p < Shown(wk) <==> exists b: nat :: InBatch(wk.closed, b, p))
      && (forall b: nat :: InBatch(wk.closed, b, p) ==> (Committed(s, i, w, p, k) <==> wk.closed[b].committed))
      && (p >= Shown(wk) ==> !Committed(s, i, w, p, k))
  {
    ReachableInv(initial, configs, run, s);
    var closed := s.writers[i].workers[w].closed;
    CommittedIffInBatch(initial, s, i, w, p, k);
    assert closed[..|closed|] == closed;
    if p < |Flat(closed)| {
      var b := BatchAt(closed, p);
    } else {
      forall b: nat | InBatch(closed, b, p)
        ensures false
      {
        FlatThrough(closed, b, |closed|);
      }
    }
  }

  lemma BatchStays(a: seq<Batch>, b: seq<Batch>, p: nat)
    requires a <= b && p < |Flat(a)|
    ensures InCommittedBatch(a, p) <==> InCommittedBatch(b, p)
  {
    var m := BatchAt(a, p);
    FlatOfPrefix(a, b);
    var n := BatchAt(b, p);
    assert a[..m] == b[..m] && a[m] == b[m];
    assert InBatch(b, m, p);
  }

  /**
    Once a write has been put in a transaction its fate is sealed: if that transaction failed, the
    write, though acknowledged, is never committed in any continuation.
   */
  lemma FlushedFateIsFinal(initial: Kv, configs: seq<Config>, run: seq<Action>, s: Sys, more: seq<Action>,
      i: nat, w: nat, p: nat, k: Key)
    requires Reaches(initial, configs, run, s) && CanRun(s, more)
    requires IsWrite(s, i, w, p, k) && p < Shown(s.writers[i].workers[w])
    ensures IsWrite(RunFrom(s, more), i, w, p, k)
    ensures Committed(RunFrom(s, more), i, w, p, k) <==> Committed(s, i, w, p, k)
  {
    var t := RunFrom(s, more);
    ReachableInv(initial, configs, run, s);
    RunKeeps(initial, s, more);
    RunGrows(s, more, i, w);
    CommittedIffInBatch(initial, s, i, w, p, k);
    CommittedIffInBatch(initial, t, i, w, p, k);
    BatchStays(s.writers[i].workers[w].closed, t.writers[i].workers[w].closed, p);
  }

  /** One worker with batches of one: the write `r` is accepted and flushed, and the transaction fails. */
  function LosingRun(r: Req): seq<Action> {
    [Do(0, BufferWrite(r)), Do(0, Receive(0))] + [Do(0, Insert(0)), Do(0, Flush(0, false))]
  }

  lemma LosingRunRuns(initial: Kv, r: Req) returns (s: Sys)
    ensures Reaches(initial, [Config(1, 1)], LosingRun(r), s)
    ensures IsWorker(s, 0, 0) && s.log == []
    ensures s.writers[0].workers[0].accepted == [r] && s.writers[0].workers[0].closed == [Batch([r], Threshold, false)]
  {
    var run := LosingRun(r);
    var s0 := Init(initial, [Config(1, 1)]);
    assert s0.writers == [NewWriter(1, 1)] && s0.writers[0].workers == [IdleWorker];
    TwoStepRun(s0, run[0], run[1]);
    var s1 := After(s0, run[0]);
    assert s1.writers[0].workers[0] == Accepting(IdleWorker, r);
    var s2 := After(s1, run[1]);
    assert s2.writers[0].workers[0] == Worker([], InHand(r), map[], [r], [], []);
    var s3 := After(s2, run[2]);
    assert s3.writers[0].workers[0] == Worker([], Flushing(Threshold), map[r.key := r.value], [r], [], [r]);
    TwoStepRun(s2, run[2], run[3]);
    RunConcat(s0, run[..2], run[2..]);
    s := After(s3, run[3]);
  }

  /** Such a run exists, and the write is lost for good. */
  lemma AcceptedWriteCanBeLost(initial: Kv, r: Req) returns (s: Sys)
    ensures Reaches(initial, [Config(1, 1)], LosingRun(r), s) && IsWrite(s, 0, 0, 0, r.key)
    ensures forall more | CanRun(s, more) :: !Committed(RunFrom(s, more), 0, 0, 0, r.key)
  {
    s := LosingRunRuns(initial, r);
    FlatSnoc([], Batch([r], Threshold, false));
    assert [] + [Batch([r], Threshold, false)] == [Batch([r], Threshold, false)];
    forall more | CanRun(s, more)
      ensures !Committed(RunFrom(s, more), 0, 0, 0, r.key)
    {
      FlushedFateIsFinal(initial, [Config(1, 1)], LosingRun(r), s, more, 0, 0, 0, r.key);
    }
  }
}
