/**
  registry.go gives every transport its own `BatchWriter` on the one `Db`. Here any number of
  writers with any settings race on one store; a step of the system is a step of one of them.
 */
module Transports {
  import opened Store
  import opened Writers

  /** A committed transaction: whose it was, where in that worker's accepted requests it starts, and its requests. */
  datatype Commit = Commit(writer: nat, worker: nat, start: nat, reqs: seq<Req>)

  /** `log` is history: the committed transactions in the order the store serialised them. */
  datatype Sys = Sys(store: Kv, writers: seq<Writer>, log: seq<Commit>)

  datatype Action = Do(writer: nat, step: Step)

  datatype Config = Config(workers: nat, maxBatchSize: int)

  function Init(initial: Kv, configs: seq<Config>): Sys {
    Sys(initial,
        seq(|configs|, i requires 0 <= i < |configs| => NewWriter(configs[i].workers, configs[i].maxBatchSize)),
        [])
  }

  predicate CanDo(s: Sys, a: Action) {
    a.writer < |s.writers| && Enabled(s.writers[a.writer], a.step)
  }

  function CommitOf(a: Action, wr: Writer): Commit
    requires Enabled(wr, a.step) && a.step.Flush?
  {
    var wk := wr.workers[a.step.w];
    Commit(a.writer, a.step.w, |Flat(wk.closed)|, wk.current)
  }

  function After(s: Sys, a: Action): (t: Sys)
    requires CanDo(s, a)
    ensures |t.writers| == |s.writers|
    ensures forall i | 0 <= i < |s.writers| :: |t.writers[i].workers| == |s.writers[i].workers|
  {
    var wr := s.writers[a.writer];
    Sys(StoreNext(s.store, wr, a.step),
        s.writers[a.writer := Next(wr, a.step)],
        if Commits(wr, a.step) then s.log + [CommitOf(a, wr)] else s.log)
  }

  /** A run: every action is enabled when its turn comes. */
  predicate CanRun(s: Sys, run: seq<Action>)
    decreases |run|
  {
    run == [] || (CanDo(s, run[0]) && CanRun(After(s, run[0]), run[1..]))
  }

  function RunFrom(s: Sys, run: seq<Action>): (t: Sys)
    requires CanRun(s, run)
    ensures |t.writers| == |s.writers|
    decreases |run|
  {
    if run == [] then s else RunFrom(After(s, run[0]), run[1..])
  }

  lemma OneStepRun(s: Sys, a: Action)
    requires CanDo(s, a)
    ensures CanRun(s, [a]) && RunFrom(s, [a]) == After(s, a)
  {
    assert [a][1..] == [];
    assert CanRun(After(s, a), []);
    assert RunFrom(After(s, a), []) == After(s, a);
  }

  lemma TwoStepRun(s: Sys, a: Action, b: Action)
    requires CanDo(s, a) && CanDo(After(s, a), b)
    ensures CanRun(s, [a, b]) && RunFrom(s, [a, b]) == After(After(s, a), b)
  {
    OneStepRun(After(s, a), b);
    assert [a, b][1..] == [b];
  }

  lemma {:induction false} RunConcat(s: Sys, a: seq<Action>, b: seq<Action>)
    requires CanRun(s, a) && CanRun(RunFrom(s, a), b)
    ensures CanRun(s, a + b) && RunFrom(s, a + b) == RunFrom(RunFrom(s, a), b)
    decreases |a|
  {
    hide After;
    if a == [] {
      assert a + b == b;
    } else {
      var s' := After(s, a[0]);
      assert (a + b)[0] == a[0] && (a + b)[1..] == a[1..] + b;
      assert RunFrom(s, a) == RunFrom(s', a[1..]);
      RunConcat(s', a[1..], b);
    }
  }

  function ReplayLog(m: Kv, log: seq<Commit>): Kv {
    if log == [] then m
    else Replay(ReplayLog(m, log[..|log| - 1]), log[|log| - 1].reqs)
  }

  /** The commits of one worker of one writer, in log order. */
  function LogOf(log: seq<Commit>, i: nat, w: nat): seq<Commit> {
    if log == [] then []
    else
      var last := log[|log| - 1];
      LogOf(log[..|log| - 1], i, w) + if last.writer == i && last.worker == w then [last] else []
  }

  /** The commits that a worker's closed batches amount to, in batch order. */
  function CommitsFrom(i: nat, w: nat, closed: seq<Batch>): seq<Commit> {
    if closed == [] then []
    else
      var before := closed[..|closed| - 1];
      var last := closed[|closed| - 1];
      CommitsFrom(i, w, before) + if last.committed then [Commit(i, w, |Flat(before)|, last.reqs)] else []
  }

  /** The requests routed to one of `n` workers, in order. */
  function Routed(reqs: seq<Req>, w: nat, n: nat): seq<Req>
    requires n > 0
  {
    if reqs == [] then []
    else
      var last := reqs[|reqs| - 1];
      Routed(reqs[..|reqs| - 1], w, n) + if Route(last.key, n) == w then [last] else []
  }

  /** No worker has left its loop or is about to. */
  ghost predicate NoneStopping(wr: Writer) {
    forall w | 0 <= w < |wr.workers| :: !wr.workers[w].pc.Exited? && wr.workers[w].pc != Flushing(Stopping)
  }

  /** What each worker accepted is what was routed to it. */
  ghost predicate AllRouted(wr: Writer) {
    forall w | 0 <= w < |wr.workers| :: wr.workers[w].accepted == Routed(wr.arrivals, w, |wr.workers|)
  }

  ghost predicate WorkersInv(wr: Writer) {
    forall w | 0 <= w < |wr.workers| :: WorkerInv(wr.workers[w], w, |wr.workers|, wr.maxBatchSize)
  }

  ghost predicate WriterInv(wr: Writer) {
    && (wr.workers == [] ==> wr.arrivals == [])
    && (!wr.stopped ==> NoneStopping(wr))
    && WorkersInv(wr) && AllRouted(wr)
  }

  ghost predicate StretchOf(wk: Worker, start: nat, reqs: seq<Req>) {
    && start + |reqs| <= |Flat(wk.closed)| <= |wk.accepted|
    && wk.accepted[start..start + |reqs|] == reqs
  }

  /** A commit is a stretch of its worker's accepted requests that lies within the closed batches. */
  ghost predicate LogEntryOk(s: Sys, c: Commit) {
    && c.writer < |s.writers| && c.worker < |s.writers[c.writer].workers|
    && StretchOf(s.writers[c.writer].workers[c.worker], c.start, c.reqs)
  }

  ghost predicate LogMatches(s: Sys, i: nat, w: nat)
    requires i < |s.writers| && w < |s.writers[i].workers|
  {
    LogOf(s.log, i, w) == CommitsFrom(i, w, s.writers[i].workers[w].closed)
  }

  /** One worker's transactions commit in the order of its requests. */
  ghost predicate LogOrdered(log: seq<Commit>) {
    forall a, b | 0 <= a < b < |log| && log[a].writer == log[b].writer && log[a].worker == log[b].worker ::
      log[a].start + |log[a].reqs| <= log[b].start
  }

  ghost predicate AllWriters(s: Sys) {
    forall i | 0 <= i < |s.writers| :: WriterInv(s.writers[i])
  }

  ghost predicate AllMatch(s: Sys) {
    forall i, w | 0 <= i < |s.writers| && 0 <= w < |s.writers[i].workers| :: LogMatches(s, i, w)
  }

  ghost predicate AllEntries(s: Sys) {
    forall a | 0 <= a < |s.log| :: LogEntryOk(s, s.log[a])
  }

  /** What every run keeps, whatever fails and however the writers interleave. */
  ghost predicate Inv(initial: Kv, s: Sys) {
    AllWriters(s) && AllMatch(s) && AllEntries(s) && LogOrdered(s.log) && s.store == ReplayLog(initial, s.log)
  }

  lemma NewWriterInv(workers: nat, maxBatchSize: int)
    ensures WriterInv(NewWriter(workers, maxBatchSize))
  {
    var wr := NewWriter(workers, maxBatchSize);
    forall w | 0 <= w < workers
      ensures WorkerInv(wr.workers[w], w, workers, maxBatchSize)
    {
      assert wr.workers[w] == IdleWorker;
    }
  }

  lemma InitHasInv(initial: Kv, configs: seq<Config>)
    ensures Inv(initial, Init(initial, configs))
  {
    var s := Init(initial, configs);
    forall i | 0 <= i < |s.writers|
      ensures WriterInv(s.writers[i])
    {
      NewWriterInv(configs[i].workers, configs[i].maxBatchSize);
    }
    forall i, w | 0 <= i < |s.writers| && 0 <= w < |s.writers[i].workers|
      ensures LogMatches(s, i, w)
    {
      assert s.writers[i].workers[w] == IdleWorker;
    }
  }

  lemma RoutedSnoc(reqs: seq<Req>, r: Req, w: nat, n: nat)
    requires n > 0
    ensures Routed(reqs + [r], w, n) == Routed(reqs, w, n) + if Route(r.key, n) == w then [r] else []
  {
    assert (reqs + [r])[..|reqs|] == reqs;
  }

  lemma LogOfSnoc(log: seq<Commit>, c: Commit, i: nat, w: nat)
    ensures LogOf(log + [c], i, w) == LogOf(log, i, w) + if c.writer == i && c.worker == w then [c] else []
  {
    assert (log + [c])[..|log|] == log;
  }

  lemma ReplayLogSnoc(m: Kv, log: seq<Commit>, c: Commit)
    ensures ReplayLog(m, log + [c]) == Replay(ReplayLog(m, log), c.reqs)
  {
    assert (log + [c])[..|log|] == log;
  }

  lemma CommitsFromSnoc(i: nat, w: nat, closed: seq<Batch>, b: Batch)
    ensures CommitsFrom(i, w, closed + [b]) ==
      CommitsFrom(i, w, closed) + if b.committed then [Commit(i, w, |Flat(closed)|, b.reqs)] else []
  {
    assert (closed + [b])[..|closed|] == closed;
  }

  /** Each step extends one worker's history, and only at its end. */
  lemma WriterStepEffect(wr: Writer, st: Step, w: nat)
    requires Enabled(wr, st) && w < |wr.workers|
    ensures var wk := wr.workers[w]; var wk' := Next(wr, st).workers[w];
      && wk'.accepted ==
          (if st.BufferWrite? && Route(st.req.key, |wr.workers|) == w then wk.accepted + [st.req] else wk.accepted)
      && wk'.closed ==
          (if st.Flush? && st.w == w && |wk.buffer| > 0 then wk.closed + [Batch(wk.current, wk.pc.reason, st.ok)]
           else wk.closed)
  {
  }

  lemma WorkerStepKeeps(wr: Writer, st: Step, w: nat)
    requires WorkersInv(wr) && Enabled(wr, st) && w < |wr.workers|
    ensures WorkerInv(Next(wr, st).workers[w], w, |wr.workers|, wr.maxBatchSize)
  {
    var n := |wr.workers|;
    var wk := wr.workers[w];
    assert WorkerInv(wk, w, n, wr.maxBatchSize);
    if Next(wr, st).workers[w] != wk {
      match st
      case BufferWrite(req) => AcceptingKeeps(wk, req, w, n, wr.maxBatchSize);
      case Receive(_) => ReceivingKeeps(wk, w, n, wr.maxBatchSize);
      case Insert(_) => InsertingKeeps(wk, w, n, wr.maxBatchSize);
      case TickFires(_) => assert Pending(Next(wr, st).workers[w]) == Pending(wk);
      case SeesStop(_) => assert Pending(Next(wr, st).workers[w]) == Pending(wk);
      case Flush(_, ok) => FlushedKeeps(wk, ok, w, n, wr.maxBatchSize);
      case SignalStop =>
    }
  }

  lemma WorkersInvKept(wr: Writer, st: Step)
    requires WorkersInv(wr) && Enabled(wr, st)
    ensures WorkersInv(Next(wr, st))
  {
    hide WorkerInv, Next;
    forall w | 0 <= w < |wr.workers|
      ensures WorkerInv(Next(wr, st).workers[w], w, |wr.workers|, wr.maxBatchSize)
    {
      WorkerStepKeeps(wr, st, w);
    }
  }

  lemma RoutedKept(wr: Writer, st: Step)
    requires AllRouted(wr) && Enabled(wr, st)
    ensures AllRouted(Next(wr, st))
  {
    forall w | 0 <= w < |wr.workers|
      ensures Next(wr, st).workers[w].accepted == Routed(Next(wr, st).arrivals, w, |wr.workers|)
    {
      ArrivalsAfter(wr, st);
      WriterStepEffect(wr, st, w);
      if st.BufferWrite? {
        RoutedSnoc(wr.arrivals, st.req, w, |wr.workers|);
      }
    }
  }

  lemma ArrivalsAfter(wr: Writer, st: Step)
    requires Enabled(wr, st)
    ensures Next(wr, st).arrivals == if st.BufferWrite? then wr.arrivals + [st.req] else wr.arrivals
  {
  }

  lemma NoneStoppingKept(wr: Writer, st: Step)
    requires (!wr.stopped ==> NoneStopping(wr)) && Enabled(wr, st)
    ensures !Next(wr, st).stopped ==> NoneStopping(Next(wr, st))
  {
  }

  lemma WriterStepKeeps(wr: Writer, st: Step)
    requires WriterInv(wr) && Enabled(wr, st)
    ensures WriterInv(Next(wr, st))
  {
    hide WorkerInv, NoneStopping, Routed, Next;
    WorkersInvKept(wr, st);
    RoutedKept(wr, st);
    ArrivalsAfter(wr, st);
    NoneStoppingKept(wr, st);
  }

  lemma LogMatchesKept(s: Sys, a: Action, i: nat, w: nat)
    requires CanDo(s, a) && WriterInv(s.writers[a.writer])
    requires i < |s.writers| && w < |s.writers[i].workers| && LogMatches(s, i, w)
    ensures LogMatches(After(s, a), i, w)
  {
    var wr := s.writers[a.writer];
    if Commits(wr, a.step) {
      LogOfSnoc(s.log, CommitOf(a, wr), i, w);
    }
    if i == a.writer {
      WriterStepEffect(wr, a.step, w);
      var wk := wr.workers[w];
      if a.step.Flush? && a.step.w == w && |wk.buffer| > 0 {
        CommitsFromSnoc(i, w, wk.closed, Batch(wk.current, wk.pc.reason, a.step.ok));
      }
    }
  }

  lemma StretchStays(wk: Worker, wk': Worker, start: nat, reqs: seq<Req>)
    requires StretchOf(wk, start, reqs)
    requires wk.accepted <= wk'.accepted && |Flat(wk.closed)| <= |Flat(wk'.closed)| <= |wk'.accepted|
    ensures StretchOf(wk', start, reqs)
  {
    assert wk'.accepted[start..start + |reqs|] == wk.accepted[start..start + |reqs|];
  }

  lemma FlushedCountGrows(wr: Writer, st: Step, w: nat)
    requires WriterInv(wr) && Enabled(wr, st) && w < |wr.workers|
    ensures var wk := wr.workers[w]; var wk' := Next(wr, st).workers[w];
      wk.accepted <= wk'.accepted && |Flat(wk.closed)| <= |Flat(wk'.closed)| <= |wk'.accepted|
  {
    var wk := wr.workers[w];
    var wk' := Next(wr, st).workers[w];
    WriterStepEffect(wr, st, w);
    WorkerStepKeeps(wr, st, w);
    CurrentIsNextStretch(wk', w, |wr.workers|, wr.maxBatchSize);
    if wk'.closed != wk.closed {
      FlatSnoc(wk.closed, Batch(wk.current, wk.pc.reason, st.ok));
    }
  }

  /** A worker's history only grows, so what was said about an earlier commit stays true. */
  lemma LogEntryKept(s: Sys, a: Action, c: Commit)
    requires CanDo(s, a) && WriterInv(s.writers[a.writer]) && LogEntryOk(s, c)
    ensures LogEntryOk(After(s, a), c)
  {
    if c.writer == a.writer {
      var wr := s.writers[a.writer];
      FlushedCountGrows(wr, a.step, c.worker);
      StretchStays(wr.workers[c.worker], Next(wr, a.step).workers[c.worker], c.start, c.reqs);
    }
  }

  lemma FlushedStretch(wk: Worker, ok: bool, w: nat, n: nat, maxBatchSize: int)
    requires n > 0 && WorkerInv(wk, w, n, maxBatchSize) && wk.pc.Flushing? && |wk.buffer| > 0
    ensures StretchOf(Flushed(wk, ok), |Flat(wk.closed)|, wk.current)
  {
    hide WorkerInv;
    CurrentIsNextStretch(wk, w, n, maxBatchSize);
    FlatSnoc(wk.closed, Batch(wk.current, wk.pc.reason, ok));
  }

  /** A new log entry starts where the closed batches ended, and ends where they end now. */
  lemma NewLogEntryOk(s: Sys, a: Action)
    requires CanDo(s, a) && WriterInv(s.writers[a.writer]) && Commits(s.writers[a.writer], a.step)
    ensures LogEntryOk(After(s, a), CommitOf(a, s.writers[a.writer]))
  {
    hide Flushed, WorkerInv, StretchOf;
    var wr := s.writers[a.writer];
    FlushedStretch(wr.workers[a.step.w], a.step.ok, a.step.w, |wr.workers|, wr.maxBatchSize);
  }

  lemma WritersKept(s: Sys, a: Action)
    requires AllWriters(s) && CanDo(s, a)
    ensures AllWriters(After(s, a))
  {
    WriterStepKeeps(s.writers[a.writer], a.step);
  }

  lemma MatchKept(s: Sys, a: Action)
    requires AllWriters(s) && AllMatch(s) && CanDo(s, a)
    ensures AllMatch(After(s, a))
  {
    var s' := After(s, a);
    forall i, w | 0 <= i < |s'.writers| && 0 <= w < |s'.writers[i].workers|
      ensures LogMatches(s', i, w)
    {
      assert LogMatches(s, i, w);
      LogMatchesKept(s, a, i, w);
    }
  }

  lemma EntriesKept(s: Sys, a: Action)
    requires AllWriters(s) && AllEntries(s) && CanDo(s, a)
    ensures AllEntries(After(s, a))
  {
    var s' := After(s, a);
    forall b | 0 <= b < |s'.log|
      ensures LogEntryOk(s', s'.log[b])
    {
      if b < |s.log| {
        LogEntryKept(s, a, s.log[b]);
      } else {
        NewLogEntryOk(s, a);
      }
    }
  }

  lemma OrderKept(s: Sys, a: Action)
    requires AllEntries(s) && LogOrdered(s.log) && CanDo(s, a)
    ensures LogOrdered(After(s, a).log)
  {
    if Commits(s.writers[a.writer], a.step) {
      forall b | 0 <= b < |s.log|
        ensures LogEntryOk(s, s.log[b])
      {
      }
    }
  }

  lemma StoreKept(initial: Kv, s: Sys, a: Action)
    requires AllWriters(s) && s.store == ReplayLog(initial, s.log) && CanDo(s, a)
    ensures After(s, a).store == ReplayLog(initial, After(s, a).log)
  {
    var wr := s.writers[a.writer];
    if Commits(wr, a.step) {
      var wk := wr.workers[a.step.w];
      assert WorkerInv(wk, a.step.w, |wr.workers|, wr.maxBatchSize);
      ReplayLogSnoc(initial, s.log, CommitOf(a, wr));
      ReplayIsOverlay(s.store, wk.current);
    }
  }

  lemma StepKeeps(initial: Kv, s: Sys, a: Action)
    requires Inv(initial, s) && CanDo(s, a)
    ensures Inv(initial, After(s, a))
  {
    WritersKept(s, a);
    MatchKept(s, a);
    EntriesKept(s, a);
    OrderKept(s, a);
    StoreKept(initial, s, a);
  }

  lemma {:induction false} RunKeeps(initial: Kv, s: Sys, run: seq<Action>)
    requires Inv(initial, s) && CanRun(s, run)
    ensures Inv(initial, RunFrom(s, run))
    decreases |run|
  {
    if run != [] {
      StepKeeps(initial, s, run[0]);
      RunKeeps(initial, After(s, run[0]), run[1..]);
    }
  }

  /** `s` is what `run` makes of a store and freshly built writers. */
  predicate Reaches(initial: Kv, configs: seq<Config>, run: seq<Action>, s: Sys) {
    CanRun(Init(initial, configs), run) && s == RunFrom(Init(initial, configs), run)
  }

  lemma ReachableInv(initial: Kv, configs: seq<Config>, run: seq<Action>, s: Sys)
    requires Reaches(initial, configs, run, s)
    ensures Inv(initial, s)
  {
    InitHasInv(initial, configs);
    RunKeeps(initial, Init(initial, configs), run);
  }

  /** The requests that a run hands to writer `i`, in order. */
  function WritesIn(run: seq<Action>, i: nat): seq<Req> {
    if run == [] then []
    else (if run[0].writer == i && run[0].step.BufferWrite? then [run[0].step.req] else []) + WritesIn(run[1..], i)
  }

  lemma {:induction false} ArrivalsGrowBy(s: Sys, run: seq<Action>, i: nat)
    requires CanRun(s, run) && i < |s.writers|
    ensures RunFrom(s, run).writers[i].arrivals == s.writers[i].arrivals + WritesIn(run, i)
    decreases |run|
  {
    if run != [] {
      if run[0].writer == i {
        ArrivalsAfter(s.writers[i], run[0].step);
      }
      ArrivalsGrowBy(After(s, run[0]), run[1..], i);
    }
  }

  lemma {:induction false} SettingsKept(s: Sys, run: seq<Action>, i: nat)
    requires CanRun(s, run) && i < |s.writers|
    ensures var wr, wr' := s.writers[i], RunFrom(s, run).writers[i];
      |wr'.workers| == |wr.workers| && wr'.maxBatchSize == wr.maxBatchSize
    decreases |run|
  {
    if run != [] {
      SettingsKept(After(s, run[0]), run[1..], i);
    }
  }

  /** The writers of a reachable state are those configured, and have accepted the writes handed to them. */
  lemma ReachedWriter(initial: Kv, configs: seq<Config>, run: seq<Action>, s: Sys, i: nat)
    requires Reaches(initial, configs, run, s) && i < |s.writers|
    ensures |s.writers| == |configs|
    ensures |s.writers[i].workers| == configs[i].workers && s.writers[i].maxBatchSize == configs[i].maxBatchSize
    ensures s.writers[i].arrivals == WritesIn(run, i)
  {
    var s0 := Init(initial, configs);
    StartsIdle(configs[i].workers, configs[i].maxBatchSize);
    SettingsKept(s0, run, i);
    ArrivalsGrowBy(s0, run, i);
    assert [] + WritesIn(run, i) == WritesIn(run, i);
  }

  function Lift(i: nat, steps: seq<Step>): (run: seq<Action>)
    ensures |run| == |steps|
  {
    seq(|steps|, j requires 0 <= j < |steps| => Do(i, steps[j]))
  }

  /** What one writer does on the store is a run of the system, so all that is proved of runs holds of it. */
  lemma {:induction false} WriterRunIsRun(s: Sys, i: nat, steps: seq<Step>)
    requires i < |s.writers| && CanTake(Cell(s.writers[i], s.store), steps)
    ensures CanRun(s, Lift(i, steps))
    ensures var t := RunFrom(s, Lift(i, steps));
      Cell(t.writers[i], t.store) == Take(Cell(s.writers[i], s.store), steps)
    decreases |steps|
  {
    if steps != [] {
      var a := Do(i, steps[0]);
      assert Lift(i, steps)[0] == a && Lift(i, steps)[1..] == Lift(i, steps[1..]);
      WriterRunIsRun(After(s, a), i, steps[1..]);
    }
  }

  /**
    However many transports share the store, it is the initial store overlaid by a merge of their
    committed batches that keeps the order of every worker of every writer and leaves none out.
   */
  lemma StoreIsMergeOfBatches(initial: Kv, configs: seq<Config>, run: seq<Action>, s: Sys)
    requires Reaches(initial, configs, run, s)
    ensures s.store == ReplayLog(initial, s.log)
    ensures forall i, w | 0 <= i < |s.writers| && 0 <= w < |s.writers[i].workers| ::
      LogOf(s.log, i, w) == CommitsFrom(i, w, s.writers[i].workers[w].closed)
    ensures forall a | 0 <= a < |s.log| ::
      s.log[a].writer < |s.writers| && s.log[a].worker < |s.writers[s.log[a].writer].workers|
  {
    ReachableInv(initial, configs, run, s);
    forall i, w | 0 <= i < |s.writers| && 0 <= w < |s.writers[i].workers|
      ensures LogOf(s.log, i, w) == CommitsFrom(i, w, s.writers[i].workers[w].closed)
    {
      assert LogMatches(s, i, w);
    }
    forall a | 0 <= a < |s.log|
      ensures s.log[a].writer < |s.writers| && s.log[a].worker < |s.writers[s.log[a].writer].workers|
    {
      assert LogEntryOk(s, s.log[a]);
    }
  }
}
