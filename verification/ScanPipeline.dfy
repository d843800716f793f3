/**
 The whole scan of `crates/pkgcruft/src/iter.rs`: threads and consumer together.

 A schedule is a sequence of labels, one atomic step each; the report channel is the part of the log
 the consumer has not received, bounded by the number of jobs.  Every theorem quantifies over all
 plans, all job counts and all schedules, the caller calling `next` whenever it can.
 */
module ScanPipeline {
  import opened Wrappers
  import opened ReportOrder
  import opened ScanConsumer
  import opened ScanThreads
  import opened ScanHistory

  datatype Reader = Reader(
    recv: nat,               // items received so far
    k: Consumer,
    joining: Option<nat>,    // blocked in `thread.join()`
    yielded: seq<Report>,    // what `next` has returned so far
    done: bool)              // `next` has returned `None`

  datatype State = State(t: Threads, r: Reader)

  datatype RStep = Skip | Yield | Receive | Join | Stop

  datatype Label = Produce(p: PStep) | Work(w: nat, s: WStep) | Read(r: RStep)

  ghost predicate ThreadGone(t: Threads, thread: nat) {
    if thread == |t.workers| then t.producer.PGone? else thread < |t.workers| && t.workers[thread].Gone?
  }

  ghost predicate AllGone(t: Threads) {
    forall thread: nat :: thread <= |t.workers| ==> ThreadGone(t, thread)
  }

  ghost function ReaderStep(t: Threads, r: Reader, l: RStep): Option<Reader> {
    if r.done then None
    else if r.joining.Some? then
      if l.Join? && ThreadGone(t, r.joining.value)
      then Some(r.(k := Joined(r.k, r.joining.value), joining := None)) else None
    else match l
      case Skip => if MustSkip(r.k) then Some(r.(k := Settled(r.k))) else None
      case Yield =>
        if !MustSkip(r.k) && !MustReceive(r.k) && Settled(r.k).reports != []
        then Some(r.(k := Popped(Settled(r.k)), yielded := r.yielded + [Settled(r.k).reports[0]])) else None
      case Receive =>
        if !MustReceive(r.k) || r.recv >= |t.log| then None else
          if t.log[r.recv].Finish? then Some(r.(recv := r.recv + 1, joining := Some(t.log[r.recv].thread)))
          else Some(r.(recv := r.recv + 1, k := Handled(r.k, t.log[r.recv])))
      case Stop =>
        // every sender is dropped when every thread is gone
        if MustReceive(r.k) && r.recv >= |t.log| && AllGone(t) then Some(r.(done := true)) else None
      case _ => None
  }

  ghost function Step(p: Plan, s: State, l: Label): Option<State> {
    var room := |s.t.log| - s.r.recv < p.jobs;
    match l
    case Produce(m) =>
      var t := ProducerStep(p, s.t, room, m);
      if t.None? then None else Some(s.(t := t.value))
    case Work(w, m) =>
      var t := WorkerStep(p, s.t, room, w, m);
      if t.None? then None else Some(s.(t := t.value))
    case Read(m) =>
      var r := ReaderStep(s.t, s.r, m);
      if r.None? then None else Some(s.(r := r.value))
  }

  /** The workers are numbered from 0, the producer comes last. */
  ghost function ThreadIds(jobs: nat): (ids: set<nat>)
    ensures forall th: nat :: th in ids <==> th <= jobs
  {
    if jobs == 0 then {0} else ThreadIds(jobs - 1) + {jobs}
  }

  ghost function Init(p: Plan, sort: bool): State {
    State(Start(p), Reader(0, Consumer(ThreadIds(p.jobs), 0, sort, map[], map[], []), None, [], false))
  }

  /** The state after a whole schedule, if every step of it was enabled. */
  ghost function Exec(p: Plan, sort: bool, schedule: seq<Label>): Option<State> {
    if schedule == [] then Some(Init(p, sort)) else
      var before := Exec(p, sort, schedule[..|schedule| - 1]);
      if before.None? then None else Step(p, before.value, schedule[|schedule| - 1])
  }

  // ---------------------------------------------------------------- the consumer's invariant

  ghost predicate Threading(p: Plan, t: Threads, r: Reader)
    requires r.recv <= |t.log|
  {
    && (forall th: nat :: th in r.k.threads <==>
                            th <= p.jobs && (Finish(th) !in t.log[..r.recv] || r.joining == Some(th)))
    && (r.joining.Some? ==> Finish(r.joining.value) in t.log[..r.recv] && r.joining.value in r.k.threads && MustReceive(r.k))
    && (r.k.threads == {} ==> r.recv == |t.log| && AllLeft(p, t) && !Ready(r.k))
    && (r.done ==> r.k.threads == {} && MustReceive(r.k))
  }

  ghost predicate RInv(p: Plan, t: Threads, r: Reader) {
    && r.recv <= |t.log| && |t.log| - r.recv <= p.jobs
    && Mirror(t.log[..r.recv], r.k, r.yielded)
    && Threading(p, t, r)
  }

  ghost predicate SInv(p: Plan, sort: bool, s: State) {
    Inv(p, s.t) && RInv(p, s.t, s.r) && s.r.k.sort == sort
  }

  lemma {:induction false} FreshPrefix(log: seq<Item>, n: nat)
    requires FreshIds(log) && n <= |log|
    ensures FreshIds(log[..n])
    decreases |log|
  {
    if n < |log| {
      FreshPrefix(log[..|log| - 1], n);
      assert log[..|log| - 1][..n] == log[..n];
    } else {
      assert log[..n] == log;
    }
  }

  lemma ReceiveMirror(t: Threads, r: Reader)
    requires FreshIds(t.log) && r.recv < |t.log| && r.k.threads != {}
    requires Mirror(t.log[..r.recv], r.k, r.yielded)
    ensures Mirror(t.log[..r.recv + 1], if t.log[r.recv].Finish? then r.k else Handled(r.k, t.log[r.recv]), r.yielded)
  {
    var before, item := t.log[..r.recv], t.log[r.recv];
    assert t.log[..r.recv + 1] == before + [item];
    FreshPrefix(t.log, r.recv + 1);
    match item
    case Send(report) => SendMirrors(before, r.k, r.yielded, report);
    case Process(target, id) => ProcessMirrors(before, r.k, r.yielded, target, id);
    case Finish(thread) => FinishMirrors(before, r.k, r.yielded, thread);
  }

  lemma ReceiveStepMirror(t: Threads, r: Reader)
    requires FreshIds(t.log) && r.recv <= |t.log| && Mirror(t.log[..r.recv], r.k, r.yielded)
    requires r.k.threads != {} && ReaderStep(t, r, Receive).Some?
    ensures var r' := ReaderStep(t, r, Receive).value; r'.recv <= |t.log| && Mirror(t.log[..r'.recv], r'.k, r'.yielded)
  {
    var r', item := ReaderStep(t, r, Receive).value, t.log[r.recv];
    ReceiveMirror(t, r);
    assert r'.recv == r.recv + 1 && r'.yielded == r.yielded && r'.k == if item.Finish? then r.k else Handled(r.k, item);
  }

  lemma ReceiveThreading(p: Plan, t: Threads, r: Reader)
    requires Notices(p, t) && r.recv < |t.log| && Threading(p, t, r) && ReaderStep(t, r, Receive).Some?
    ensures Threading(p, t, ReaderStep(t, r, Receive).value)
  {
    var before, item := t.log[..r.recv], t.log[r.recv];
    assert t.log[..r.recv + 1] == before + [item];
    if item.Finish? {
      assert Finish(item.thread) in t.log;
      forall i | 0 <= i < |before| ensures before[i] != item {
        assert t.log[i] != t.log[r.recv];
      }
    }
  }

  lemma JoinThreading(p: Plan, t: Threads, r: Reader)
    requires Notices(p, t) && r.recv <= |t.log| && Threading(p, t, r) && ReaderStep(t, r, Join).Some?
    ensures Threading(p, t, ReaderStep(t, r, Join).value)
  {
    var r' := ReaderStep(t, r, Join).value;
    assert r'.k.threads == r.k.threads - {r.joining.value};
    if r'.k.threads == {} { LastJoin(p, t, r); }
  }

  /** When the last thread is joined, everything sent has been received. */
  lemma LastJoin(p: Plan, t: Threads, r: Reader)
    requires Notices(p, t) && r.recv <= |t.log| && Threading(p, t, r)
    requires r.joining.Some? && r.k.threads - {r.joining.value} == {}
    ensures r.recv == |t.log| && AllLeft(p, t)
  {
    forall th: nat | th <= p.jobs ensures Finish(th) in t.log[..r.recv] && Left(p, t, th) {
      assert th !in r.k.threads - {r.joining.value};
      assert Finish(th) in t.log[..r.recv];
      assert Finish(th) in t.log;
    }
    LastNotice(p, t, r.recv);
  }

  lemma LastNotice(p: Plan, t: Threads, recv: nat)
    requires Notices(p, t) && recv <= |t.log| && AllLeft(p, t)
    requires forall th: nat :: th <= p.jobs ==> Finish(th) in t.log[..recv]
    ensures recv == |t.log|
  {
    var n := |t.log| - 1;
    assert Finish(t.log[n].thread) in t.log;
    var i :| 0 <= i < recv && t.log[..recv][i] == Finish(t.log[n].thread);
    assert t.log[i] == t.log[n];
  }

  lemma QueueThreading(p: Plan, t: Threads, r: Reader, l: RStep)
    requires r.recv <= |t.log| && Threading(p, t, r)
    requires ReaderStep(t, r, l).Some? && (l.Skip? || l.Yield? || l.Stop?)
    requires l.Stop? ==> r.recv == |t.log| && forall th: nat :: th <= p.jobs ==> Finish(th) in t.log
    ensures Threading(p, t, ReaderStep(t, r, l).value)
  {
    var r' := ReaderStep(t, r, l).value;
    assert r'.k.threads == r.k.threads;
    if l.Stop? {
      assert t.log[..r.recv] == t.log;
      assert forall th: nat :: th !in r.k.threads;
    }
  }

  lemma QueueMirror(t: Threads, r: Reader, l: RStep)
    requires r.recv <= |t.log| && Mirror(t.log[..r.recv], r.k, r.yielded)
    requires r.k.threads == {} ==> !Ready(r.k)
    requires ReaderStep(t, r, l).Some? && (l.Skip? || l.Yield?)
    ensures var r' := ReaderStep(t, r, l).value; Mirror(t.log[..r'.recv], r'.k, r'.yielded)
  {
    if Ready(r.k) { SettleMirrors(t.log[..r.recv], r.k, r.yielded); }
    if l.Yield? { PopMirrors(t.log[..r.recv], Settled(r.k), r.yielded); }
  }

  lemma StopThreading(p: Plan, t: Threads, r: Reader)
    requires Control(p, t) && Notices(p, t) && r.recv <= |t.log| && Threading(p, t, r) && ReaderStep(t, r, Stop).Some?
    ensures Threading(p, t, ReaderStep(t, r, Stop).value)
  {
    forall th: nat | th <= p.jobs ensures Finish(th) in t.log {
      assert ThreadGone(t, th);
      assert Left(p, t, th);
    }
    QueueThreading(p, t, r, Stop);
  }

  lemma ReaderThreading(p: Plan, t: Threads, r: Reader, l: RStep)
    requires Inv(p, t) && r.recv <= |t.log| && Threading(p, t, r) && ReaderStep(t, r, l).Some?
    ensures var r' := ReaderStep(t, r, l).value;
            r.recv <= r'.recv <= |t.log| && Threading(p, t, r') && r'.k.sort == r.k.sort
  {
    match l
    case Receive => ReceiveThreading(p, t, r);
    case Join => JoinThreading(p, t, r);
    case Stop => StopThreading(p, t, r);
    case _ => QueueThreading(p, t, r, l);
  }

  lemma ReaderMirror(t: Threads, r: Reader, l: RStep)
    requires FreshIds(t.log) && r.recv <= |t.log| && Mirror(t.log[..r.recv], r.k, r.yielded)
    requires (l.Receive? || l.Join?) ==> r.k.threads != {}
    requires r.k.threads == {} ==> !Ready(r.k)
    requires ReaderStep(t, r, l).Some?
    ensures var r' := ReaderStep(t, r, l).value; r'.recv <= |t.log| && Mirror(t.log[..r'.recv], r'.k, r'.yielded)
  {
    match l
    case Receive => ReceiveStepMirror(t, r);
    case Join => JoinMirrors(t.log[..r.recv], r.k, r.yielded, r.joining.value);
    case Stop =>
    case _ => QueueMirror(t, r, l);
  }

  lemma ReaderInv(p: Plan, t: Threads, r: Reader, l: RStep)
    requires Inv(p, t) && RInv(p, t, r) && ReaderStep(t, r, l).Some?
    ensures RInv(p, t, ReaderStep(t, r, l).value)
    ensures ReaderStep(t, r, l).value.k.sort == r.k.sort
  {
    ReaderThreading(p, t, r, l);
    ReaderMirror(t, r, l);
  }

  /** A thread step leaves what has been received alone; after the last notice nothing is sent. */
  lemma ThreadsKeepReader(p: Plan, t: Threads, t': Threads, r: Reader)
    requires RInv(p, t, r) && |t.log| <= |t'.log| <= |t.log| + 1 && t'.log[..|t.log|] == t.log
    requires |t'.log| > |t.log| ==> |t.log| - r.recv < p.jobs
    requires AllLeft(p, t) ==> t'.log == t.log && AllLeft(p, t')
    ensures RInv(p, t', r)
  {
    assert t'.log[..r.recv] == t.log[..r.recv];
  }

  lemma WorkerAppends(p: Plan, t: Threads, room: bool, w: nat, l: WStep)
    requires Control(p, t) && WorkerStep(p, t, room, w, l).Some?
    ensures var t' := WorkerStep(p, t, room, w, l).value;
            && |t.log| <= |t'.log| <= |t.log| + 1 && t'.log[..|t.log|] == t.log
            && (|t'.log| > |t.log| ==> room)
            && (AllLeft(p, t) ==> t'.log == t.log && AllLeft(p, t'))
  {
    var t' := WorkerStep(p, t, room, w, l).value;
    if AllLeft(p, t) {
      assert Left(p, t, w);
      forall th: nat | th <= p.jobs ensures Left(p, t', th) {
        assert Left(p, t, th);
      }
    }
  }

  lemma ProducerAppends(p: Plan, t: Threads, room: bool, l: PStep)
    requires Control(p, t) && ProducerStep(p, t, room, l).Some?
    ensures var t' := ProducerStep(p, t, room, l).value;
            && |t.log| <= |t'.log| <= |t.log| + 1 && t'.log[..|t.log|] == t.log
            && (|t'.log| > |t.log| ==> room)
            && (AllLeft(p, t) ==> t'.log == t.log && AllLeft(p, t'))
  {
    var t' := ProducerStep(p, t, room, l).value;
    if AllLeft(p, t) {
      assert Left(p, t, p.jobs);
      forall th: nat | th <= p.jobs ensures Left(p, t', th) {
        assert Left(p, t, th);
      }
    }
  }

  lemma StepInv(p: Plan, sort: bool, s: State, l: Label)
    requires SInv(p, sort, s) && Step(p, s, l).Some?
    ensures SInv(p, sort, Step(p, s, l).value)
  {
    var room := |s.t.log| - s.r.recv < p.jobs;
    match l
    case Produce(m) =>
      ProducerInv(p, s.t, room, m);
      ProducerAppends(p, s.t, room, m);
      ThreadsKeepReader(p, s.t, Step(p, s, l).value.t, s.r);
    case Work(w, m) =>
      WorkerInv(p, s.t, room, w, m);
      WorkerAppends(p, s.t, room, w, m);
      ThreadsKeepReader(p, s.t, Step(p, s, l).value.t, s.r);
    case Read(m) => ReaderInv(p, s.t, s.r, m);
  }

  lemma InitInv(p: Plan, sort: bool)
    requires p.jobs >= 1
    ensures SInv(p, sort, Init(p, sort))
  {
    StartInv(p);
    StartMirrors(ThreadIds(p.jobs), sort);
    assert Start(p).log[..0] == [];
    assert 0 in ThreadIds(p.jobs);
  }

  lemma {:induction false} ExecInv(p: Plan, sort: bool, schedule: seq<Label>)
    requires p.jobs >= 1 && Exec(p, sort, schedule).Some?
    ensures SInv(p, sort, Exec(p, sort, schedule).value)
  {
    if schedule == [] {
      InitInv(p, sort);
    } else {
      var before := schedule[..|schedule| - 1];
      ExecInv(p, sort, before);
      StepInv(p, sort, Exec(p, sort, before).value, schedule[|schedule| - 1]);
    }
  }
}
