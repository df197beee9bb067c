/**
  What the store shows over any run: which write is visible at a key, and that no writer's earlier
  write comes back once a later one has committed.
 */
module Histories {
  import opened Bytes
  import opened Store
  import opened Writers
  import opened Transports

  // ----- the visible write -----

  /** Where the last write to a key stands in a sequence of requests. */
  function LastIn(reqs: seq<Req>, k: Key): (r: Option<nat>)
    ensures match r
      case None => forall q | 0 <= q < |reqs| :: reqs[q].key != k
      case Some(p) => p < |reqs| && reqs[p].key == k && forall q | p < q < |reqs| :: reqs[q].key != k
  {
    if reqs == [] then None
    else if reqs[|reqs| - 1].key == k then Some(|reqs| - 1)
    else LastIn(reqs[..|reqs| - 1], k)
  }

  /** The last committed transaction that wrote a key. */
  function LastTouch(log: seq<Commit>, k: Key): (r: Option<nat>)
    ensures match r
      case None => forall b | 0 <= b < |log| :: LastIn(log[b].reqs, k).None?
      case Some(a) =>
        && a < |log| && LastIn(log[a].reqs, k).Some?
        && forall b | a < b < |log| :: LastIn(log[b].reqs, k).None?
  {
    if log == [] then None
    else if LastIn(log[|log| - 1].reqs, k).Some? then Some(|log| - 1)
    else LastTouch(log[..|log| - 1], k)
  }

  /** A write, by its place among the accepted requests of a worker of a writer. */
  datatype Origin = Origin(writer: nat, worker: nat, pos: nat)

  function Visible(log: seq<Commit>, k: Key): Option<Origin> {
    var a := LastTouch(log, k);
    if a.None? then None
    else var c := log[a.value]; Some(Origin(c.writer, c.worker, c.start + LastIn(c.reqs, k).value))
  }

  ghost predicate IsWorker(s: Sys, i: nat, w: nat) {
    i < |s.writers| && w < |s.writers[i].workers|
  }

  /** Write number `p` accepted by worker `w` of writer `i` is to `k`. */
  ghost predicate IsWrite(s: Sys, i: nat, w: nat, p: nat, k: Key) {
    && IsWorker(s, i, w)
    && var accepted := s.writers[i].workers[w].accepted;
      p < |accepted| && accepted[p].key == k
  }

  function ValueOf(s: Sys, o: Origin): Value
    requires o.writer < |s.writers| && o.worker < |s.writers[o.writer].workers|
    requires o.pos < |s.writers[o.writer].workers[o.worker].accepted|
  {
    s.writers[o.writer].workers[o.worker].accepted[o.pos].value
  }

  lemma {:induction false} LogShowsLastTouch(m: Kv, log: seq<Commit>, k: Key)
    ensures Lookup(ReplayLog(m, log), k) ==
      match LastTouch(log, k)
      case None => Lookup(m, k)
      case Some(a) => Some(log[a].reqs[LastIn(log[a].reqs, k).value].value)
  {
    if log != [] {
      var n := |log| - 1;
      var before := ReplayLog(m, log[..n]);
      if LastIn(log[n].reqs, k).Some? {
        ReplayLastWrite(before, log[n].reqs, LastIn(log[n].reqs, k).value);
      } else {
        ReplayUntouched(before, log[n].reqs, k);
        LogShowsLastTouch(m, log[..n], k);
      }
    }
  }

  lemma EntryHolds(s: Sys, c: Commit, q: nat)
    requires LogEntryOk(s, c) && q < |c.reqs|
    ensures var accepted := s.writers[c.writer].workers[c.worker].accepted;
      c.start + q < |accepted| && accepted[c.start + q] == c.reqs[q]
  {
    var accepted := s.writers[c.writer].workers[c.worker].accepted;
    assert accepted[c.start..c.start + |c.reqs|][q] == accepted[c.start + q];
  }

  lemma TouchIsWrite(s: Sys, a: nat, k: Key)
    requires a < |s.log| && LogEntryOk(s, s.log[a]) && LastIn(s.log[a].reqs, k).Some?
    ensures var c := s.log[a]; var q := LastIn(c.reqs, k).value;
      && IsWrite(s, c.writer, c.worker, c.start + q, k)
      && ValueOf(s, Origin(c.writer, c.worker, c.start + q)) == c.reqs[q].value
  {
    EntryHolds(s, s.log[a], LastIn(s.log[a].reqs, k).value);
  }

  /** Which write a `Get` returns: the visible one, or what the store held at the start. */
  lemma StoreShowsVisible(initial: Kv, s: Sys, k: Key)
    requires AllEntries(s) && s.store == ReplayLog(initial, s.log)
    ensures match Visible(s.log, k)
      case None => Lookup(s.store, k) == Lookup(initial, k)
      case Some(o) => IsWrite(s, o.writer, o.worker, o.pos, k) && Lookup(s.store, k) == Some(ValueOf(s, o))
  {
    LogShowsLastTouch(initial, s.log, k);
    if LastTouch(s.log, k).Some? {
      TouchIsWrite(s, LastTouch(s.log, k).value, k);
    }
  }

  /** Write number `p` of worker `w` of writer `i` is to `k` and has been committed. */
  ghost predicate Committed(s: Sys, i: nat, w: nat, p: nat, k: Key) {
    && IsWrite(s, i, w, p, k)
    && exists a :: 0 <= a < |s.log| && Covers(s.log[a], i, w, p)
  }

  predicate Covers(c: Commit, i: nat, w: nat, p: nat) {
    c.writer == i && c.worker == w && c.start <= p < c.start + |c.reqs|
  }

  lemma CoveredWriteIsTouched(s: Sys, a: nat, i: nat, w: nat, p: nat, k: Key)
    requires a < |s.log| && LogEntryOk(s, s.log[a]) && Covers(s.log[a], i, w, p) && IsWrite(s, i, w, p, k)
    ensures var last := LastIn(s.log[a].reqs, k); last.Some? && s.log[a].start + last.value >= p
  {
    EntryHolds(s, s.log[a], p - s.log[a].start);
  }

  lemma LaterTouchIsLaterWrite(log: seq<Commit>, a: nat, k: Key, p: nat)
    requires LogOrdered(log) && a < |log| && LastIn(log[a].reqs, k).Some?
    requires p <= log[a].start + LastIn(log[a].reqs, k).value
    ensures Visible(log, k).Some?
    ensures var o := Visible(log, k).value; o.writer == log[a].writer && o.worker == log[a].worker ==> o.pos >= p
  {
    var b := LastTouch(log, k).value;
    assert a <= b;
  }

  /** In one state: a committed write hides every earlier write of its writer to that key. */
  lemma CommittedHidesEarlier(initial: Kv, s: Sys, i: nat, w: nat, p: nat, k: Key)
    requires Inv(initial, s) && Committed(s, i, w, p, k)
    ensures Visible(s.log, k).Some?
    ensures var o := Visible(s.log, k).value; o.writer == i ==> o.worker == w && o.pos >= p
  {
    var a :| 0 <= a < |s.log| && Covers(s.log[a], i, w, p);
    CoveredWriteIsTouched(s, a, i, w, p, k);
    LaterTouchIsLaterWrite(s.log, a, k, p);
    StoreShowsVisible(initial, s, k);
    var o := Visible(s.log, k).value;
    if o.writer == i {
      KeyHasOneWorker(s, i, w, o.worker, p, o.pos, k);
    }
  }

  lemma KeyHasOneWorker(s: Sys, i: nat, w: nat, v: nat, p: nat, q: nat, k: Key)
    requires AllWriters(s) && IsWrite(s, i, w, p, k) && IsWrite(s, i, v, q, k)
    ensures w == v == Route(k, |s.writers[i].workers|)
  {
    var wr := s.writers[i];
    assert WriterInv(wr);
    assert WorkerInv(wr.workers[w], w, |wr.workers|, wr.maxBatchSize);
    assert WorkerInv(wr.workers[v], v, |wr.workers|, wr.maxBatchSize);
    assert wr.workers[w].accepted[p] in wr.workers[w].accepted;
    assert wr.workers[v].accepted[q] in wr.workers[v].accepted;
  }

  lemma StepGrows(s: Sys, a: Action, i: nat, w: nat)
    requires AllWriters(s) && CanDo(s, a) && IsWorker(s, i, w)
    ensures IsWorker(After(s, a), i, w)
    ensures var wk := s.writers[i].workers[w]; var wk' := After(s, a).writers[i].workers[w];
      wk.accepted <= wk'.accepted && wk.closed <= wk'.closed
    ensures s.log <= After(s, a).log
  {
    if i == a.writer {
      WriterStepEffect(s.writers[i], a.step, w);
    }
  }

  /** History only grows at its end. */
  lemma {:induction false} RunGrows(s: Sys, run: seq<Action>, i: nat, w: nat)
    requires AllWriters(s) && CanRun(s, run) && IsWorker(s, i, w)
    ensures IsWorker(RunFrom(s, run), i, w)
    ensures var wk := s.writers[i].workers[w]; var wk' := RunFrom(s, run).writers[i].workers[w];
      wk.accepted <= wk'.accepted && wk.closed <= wk'.closed
    ensures s.log <= RunFrom(s, run).log
    decreases |run|
  {
    if run != [] {
      var s1 := After(s, run[0]);
      WritersKept(s, run[0]);
      StepGrows(s, run[0], i, w);
      RunGrows(s1, run[1..], i, w);
      var wk, wk1 := s.writers[i].workers[w], s1.writers[i].workers[w];
      var wk' := RunFrom(s1, run[1..]).writers[i].workers[w];
      assert wk.accepted <= wk1.accepted <= wk'.accepted && wk.closed <= wk1.closed <= wk'.closed;
    }
  }

  /**
    Over any run of any number of writers: once a write has committed, the key never again shows
    an earlier write of the same writer, nor a value from before.
   */
  lemma NoResurrection(initial: Kv, configs: seq<Config>, run: seq<Action>, s: Sys, more: seq<Action>,
      i: nat, w: nat, p: nat, k: Key)
    requires Reaches(initial, configs, run, s) && CanRun(s, more) && Committed(s, i, w, p, k)
    ensures var t := RunFrom(s, more);
      && Committed(t, i, w, p, k) && Visible(t.log, k).Some?
      && var o := Visible(t.log, k).value;
        && IsWrite(t, o.writer, o.worker, o.pos, k) && Lookup(t.store, k) == Some(ValueOf(t, o))
        && (o.writer == i ==> o.worker == w && o.pos >= p)
  {
    var t := RunFrom(s, more);
    ReachableInv(initial, configs, run, s);
    RunKeeps(initial, s, more);
    CommittedStays(s, more, i, w, p, k);
    CommittedHidesEarlier(initial, t, i, w, p, k);
    StoreShowsVisible(initial, t, k);
  }

  lemma CommittedStays(s: Sys, run: seq<Action>, i: nat, w: nat, p: nat, k: Key)
    requires AllWriters(s) && CanRun(s, run) && Committed(s, i, w, p, k)
    ensures Committed(RunFrom(s, run), i, w, p, k)
  {
    RunGrows(s, run, i, w);
    var a :| 0 <= a < |s.log| && Covers(s.log[a], i, w, p);
    assert RunFrom(s, run).log[a] == s.log[a];
  }
}
