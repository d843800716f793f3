/**
 A scan never deadlocks and always ends: while the caller keeps calling `next`, some thread or the
 consumer can take a step until `None` is returned, and every schedule is finite.
 */
module ScanProgress {
  import opened Wrappers
  import opened ReportOrder
  import opened ScanConsumer
  import opened ScanThreads
  import opened ScanHistory
  import opened ScanPipeline

  // ---------------------------------------------------------------- no deadlock

  /** With room in the report channel, a thread can move unless all threads are gone. */
  lemma ThreadsProgress(p: Plan, t: Threads) returns (l: Label)
    requires Control(p, t) && !AllGone(t)
    ensures match l
            case Produce(m) => ProducerStep(p, t, true, m).Some?
            case Work(w, m) => WorkerStep(p, t, true, w, m).Some?
            case Read(_) => false
  {
    if w: nat :| w < |t.workers| && t.workers[w].Job? {
      l := Work(w, if t.sent[t.workers[w].k] < |Items(p, t.workers[w].k)| then Emit else Return);
    } else if w: nat :| w < |t.workers| && t.workers[w].Finishing? {
      l := Work(w, Notify);
    } else if w: nat :| w < |t.workers| && t.workers[w].Leaving? {
      l := Work(w, Leave);
    } else {
      l := QuietProgress(p, t);
    }
  }

  /** Every worker is waiting on a channel or gone. */
  lemma QuietProgress(p: Plan, t: Threads) returns (l: Label)
    requires Control(p, t) && !AllGone(t)
    requires forall w :: 0 <= w < |t.workers| ==> t.workers[w].MainRecv? || t.workers[w].FinRecv? || t.workers[w].Gone?
    ensures match l
            case Produce(m) => ProducerStep(p, t, true, m).Some?
            case Work(w, m) => WorkerStep(p, t, true, w, m).Some?
            case Read(_) => false
  {
    match t.producer
    case PMain =>
      if t.queued < MainSize(p) && |t.tq| == p.jobs {
        assert InMain(p, t.workers[0]);
        l := Work(0, Take);
      } else {
        l := Produce(if t.queued < MainSize(p) then Enqueue else Advance);
      }
    case PWaiting =>
      if w: nat :| w < |t.workers| && t.workers[w].MainRecv? {
        l := Work(w, if t.tq == [] then Leave else Take);
      } else {
        l := Produce(Advance);
      }
    case PFin =>
      if t.queued < Total(p) && |t.fq| == p.jobs {
        assert !InMain(p, t.workers[0]);
        l := Work(0, Take);
      } else {
        l := Produce(if t.queued < Total(p) then Enqueue else Advance);
      }
    case PFinishing => l := Produce(Notice);
    case PLeaving => l := Produce(Advance);
    case PGone =>
      assert NoneInMain(p, t);
      var th: nat :| th <= |t.workers| && !ThreadGone(t, th);
      assert !InMain(p, t.workers[th]);
      l := Work(th, if t.fq == [] then Leave else Take);
  }

  /** A thread that has sent its notice is gone or about to be. */
  lemma JoinProgress(p: Plan, s: State) returns (l: Label)
    requires Control(p, s.t) && Notices(p, s.t) && s.r.recv <= |s.t.log| && Threading(p, s.t, s.r)
    requires s.r.joining.Some? && !s.r.done
    ensures Step(p, s, l).Some?
  {
    var th := s.r.joining.value;
    assert Finish(th) in s.t.log;
    assert Left(p, s.t, th);
    l := if ThreadGone(s.t, th) then Read(Join) else if th == p.jobs then Produce(Advance) else Work(th, Leave);
  }

  lemma StateProgress(p: Plan, s: State) returns (l: Label)
    requires Control(p, s.t) && Notices(p, s.t) && s.r.recv <= |s.t.log| && Threading(p, s.t, s.r)
    requires !s.r.done
    ensures Step(p, s, l).Some?
  {
    if s.r.joining.Some? {
      l := JoinProgress(p, s);
    } else if MustSkip(s.r.k) {
      l := Read(Skip);
    } else if !MustReceive(s.r.k) {
      l := Read(Yield);
    } else if s.r.recv < |s.t.log| {
      l := Read(Receive);
    } else if AllGone(s.t) {
      l := Read(Stop);
    } else {
      l := ThreadsProgress(p, s.t);
    }
  }

  /** No schedule gets stuck before `next` has returned `None`. */
  lemma NoDeadlock(p: Plan, sort: bool, schedule: seq<Label>) returns (l: Label)
    requires p.jobs >= 1 && Exec(p, sort, schedule).Some? && !Exec(p, sort, schedule).value.r.done
    ensures Exec(p, sort, schedule + [l]).Some?
  {
    ExecInv(p, sort, schedule);
    l := StateProgress(p, Exec(p, sort, schedule).value);
    assert (schedule + [l])[..|schedule|] == schedule;
  }

  // ---------------------------------------------------------------- guaranteed end

  ghost function WorkerCost(p: Plan, w: Worker): nat {
    match w
    case MainRecv => 6
    case FinRecv => 5
    case Job(k) => if k < MainSize(p) then 7 else 6
    case Finishing => 4
    case Leaving => 1
    case Gone => 0
  }

  ghost function Cost(p: Plan, ws: seq<Worker>): nat {
    if ws == [] then 0 else WorkerCost(p, ws[0]) + Cost(p, ws[1..])
  }

  ghost function ProducerCost(q: Producer): nat {
    match q
    case PMain => 7 case PWaiting => 6 case PFin => 5 case PFinishing => 4 case PLeaving => 1 case PGone => 0
  }

  /** Items of the first `n` jobs still to be sent. */
  ghost function Unsent(p: Plan, sent: seq<nat>, n: nat): int
    requires n <= Total(p) == |sent|
  {
    if n == 0 then 0 else Unsent(p, sent, n - 1) + |Items(p, n - 1)| - sent[n - 1]
  }

  ghost function ThreadsMeasure(p: Plan, t: Threads): int
    requires |t.sent| == Total(p)
  {
    3 * (Total(p) - t.queued) + 2 * (|t.tq| + |t.fq|) + 3 * Unsent(p, t.sent, Total(p))
    + Cost(p, t.workers) + ProducerCost(t.producer)
  }

  /** How many of the items carry a report. */
  ghost function SendCount(log: seq<Item>): nat {
    if log == [] then 0 else SendCount(log[..|log| - 1]) + (if log[|log| - 1].Send? then 1 else 0)
  }

  lemma {:induction false} BagSize(log: seq<Item>)
    ensures |Bag(log)| == SendCount(log)
  {
    if log != [] {
      var n := |log| - 1;
      BagSize(log[..n]);
      assert |BagOf(log[n])| == if log[n].Send? then 1 else 0;
    }
  }

  ghost function ReaderMeasure(log: seq<Item>, r: Reader): int
    requires r.recv <= |log|
  {
    2 * (|log| - r.recv) + SendCount(log[..r.recv]) - |r.yielded| + |r.k.ids|
    + (if r.joining.Some? then 1 else 0) + (if r.done then 0 else 1)
  }

  /** Work left: the moves every job, item and thread still has to make. */
  ghost function Measure(p: Plan, s: State): int
    requires |s.t.sent| == Total(p) && s.r.recv <= |s.t.log|
  {
    ThreadsMeasure(p, s.t) + ReaderMeasure(s.t.log, s.r)
  }

  lemma {:induction false} CostUpdate(p: Plan, ws: seq<Worker>, i: nat, w: Worker)
    requires i < |ws|
    ensures Cost(p, ws[i := w]) + WorkerCost(p, ws[i]) == Cost(p, ws) + WorkerCost(p, w)
  {
    if i > 0 {
      assert ws[i := w][1..] == ws[1..][i - 1 := w];
      CostUpdate(p, ws[1..], i - 1, w);
    } else {
      assert ws[i := w][1..] == ws[1..];
    }
  }

  lemma {:induction false} UnsentUpdate(p: Plan, sent: seq<nat>, n: nat, k: nat)
    requires n <= Total(p) == |sent| && k < Total(p)
    ensures Unsent(p, sent[k := sent[k] + 1], n) == Unsent(p, sent, n) - (if k < n then 1 else 0)
  {
    if n > 0 { UnsentUpdate(p, sent, n - 1, k); }
  }

  lemma {:induction false} UnsentNonNegative(p: Plan, sent: seq<nat>, n: nat)
    requires n <= Total(p) == |sent|
    requires forall k :: 0 <= k < Total(p) ==> sent[k] <= |Items(p, k)|
    ensures Unsent(p, sent, n) >= 0
  {
    if n > 0 { UnsentNonNegative(p, sent, n - 1); }
  }

  lemma ProducerDecreases(p: Plan, t: Threads, room: bool, l: PStep)
    requires Control(p, t) && ProducerStep(p, t, room, l).Some?
    ensures var t' := ProducerStep(p, t, room, l).value;
            |t'.sent| == Total(p) && ThreadsMeasure(p, t') + 2 * (|t'.log| - |t.log|) < ThreadsMeasure(p, t)
  {
  }

  lemma WorkerDecreases(p: Plan, t: Threads, room: bool, w: nat, l: WStep)
    requires Control(p, t) && WorkerStep(p, t, room, w, l).Some?
    ensures var t' := WorkerStep(p, t, room, w, l).value;
            |t'.sent| == Total(p) && ThreadsMeasure(p, t') + 2 * (|t'.log| - |t.log|) < ThreadsMeasure(p, t)
  {
    match l
    case Take => TakeDecreases(p, t, room, w);
    case Emit => UnsentUpdate(p, t.sent, Total(p), t.workers[w].k);
    case Return => CostUpdate(p, t.workers, w, if t.workers[w].k < MainSize(p) then MainRecv else FinRecv);
    case _ => LeaveDecreases(p, t, room, w, l);
  }

  lemma LeaveDecreases(p: Plan, t: Threads, room: bool, w: nat, l: WStep)
    requires |t.sent| == Total(p) && WorkerStep(p, t, room, w, l).Some? && (l.Leave? || l.Notify?)
    ensures var t' := WorkerStep(p, t, room, w, l).value;
            |t'.sent| == Total(p) && ThreadsMeasure(p, t') + 2 * (|t'.log| - |t.log|) < ThreadsMeasure(p, t)
  {
    CostUpdate(p, t.workers, w, WorkerStep(p, t, room, w, l).value.workers[w]);
  }

  lemma TakeDecreases(p: Plan, t: Threads, room: bool, w: nat)
    requires Control(p, t) && WorkerStep(p, t, room, w, Take).Some?
    ensures ThreadsMeasure(p, WorkerStep(p, t, room, w, Take).value) < ThreadsMeasure(p, t)
  {
    TakeControl(p, t, room, w);
    CostUpdate(p, t.workers, w, Job(Taken(t)));
  }

  lemma ReaderDecreases(t: Threads, r: Reader, l: RStep)
    requires r.recv <= |t.log| && ReaderStep(t, r, l).Some?
    ensures var r' := ReaderStep(t, r, l).value;
            r'.recv <= |t.log| && ReaderMeasure(t.log, r') < ReaderMeasure(t.log, r)
  {
    match l
    case Receive => ReceiveDecreases(t, r);
    case Join =>
    case Stop =>
    case _ => if Ready(r.k) { IdsShrink(r.k); }
  }

  lemma ReceiveDecreases(t: Threads, r: Reader)
    requires r.recv <= |t.log| && ReaderStep(t, r, Receive).Some?
    ensures var r' := ReaderStep(t, r, Receive).value;
            r'.recv <= |t.log| && ReaderMeasure(t.log, r') < ReaderMeasure(t.log, r)
  {
    var item := t.log[r.recv];
    assert t.log[..r.recv + 1][..r.recv] == t.log[..r.recv];
    IdsGrow(r.k, item);
  }

  lemma IdsShrink(k: Consumer)
    requires Ready(k)
    ensures |k.ids| == |Settled(k).ids| + 1
  {
    assert k.ids.Keys == (k.ids - {k.id}).Keys + {k.id};
    assert |k.ids.Keys| == |(k.ids - {k.id}).Keys| + 1;
  }

  lemma IdsGrow(k: Consumer, item: Item)
    ensures |Handled(k, item).ids| <= |k.ids| + (if item.Process? then 1 else 0)
  {
    if item.Process? && k.sort {
      var ids' := Handled(k, item).ids;
      assert ids'.Keys == k.ids.Keys + {item.id};
      assert |ids'.Keys| <= |k.ids.Keys| + 1;
    }
  }

  lemma StepDecreases(p: Plan, sort: bool, s: State, l: Label)
    requires SInv(p, sort, s) && Step(p, s, l).Some?
    ensures var s' := Step(p, s, l).value;
            |s'.t.sent| == Total(p) && s'.r.recv <= |s'.t.log| && Measure(p, s') < Measure(p, s)
  {
    var room, s' := |s.t.log| - s.r.recv < p.jobs, Step(p, s, l).value;
    match l
    case Produce(m) =>
      ProducerDecreases(p, s.t, room, m);
      ProducerAppends(p, s.t, room, m);
      assert s'.t.log[..s.r.recv] == s.t.log[..s.r.recv];
    case Work(w, m) =>
      WorkerDecreases(p, s.t, room, w, m);
      WorkerAppends(p, s.t, room, w, m);
      assert s'.t.log[..s.r.recv] == s.t.log[..s.r.recv];
    case Read(m) => ReaderDecreases(s.t, s.r, m);
  }

  lemma MeasureNonNegative(p: Plan, sort: bool, s: State)
    requires SInv(p, sort, s)
    ensures Measure(p, s) >= 0
  {
    UnsentNonNegative(p, s.t.sent, Total(p));
    YieldedBound(s.t.log[..s.r.recv], s.r.k, s.r.yielded);
  }

  lemma YieldedBound(log: seq<Item>, k: Consumer, yielded: seq<Report>)
    requires Conserved(log, k, yielded)
    ensures |yielded| <= SendCount(log)
  {
    BagSize(log);
    assert |multiset(yielded)| <= |Bag(log)|;
  }

  /** Every schedule is finite: it is no longer than the work in the initial state. */
  lemma {:induction false} Terminates(p: Plan, sort: bool, schedule: seq<Label>)
    requires p.jobs >= 1 && Exec(p, sort, schedule).Some?
    ensures var s := Exec(p, sort, schedule).value;
            && |s.t.sent| == Total(p) && s.r.recv <= |s.t.log|
            && |schedule| <= Measure(p, Init(p, sort)) - Measure(p, s)
            && 0 <= Measure(p, s)
  {
    ExecInv(p, sort, schedule);
    MeasureNonNegative(p, sort, Exec(p, sort, schedule).value);
    if schedule != [] {
      var before := schedule[..|schedule| - 1];
      Terminates(p, sort, before);
      ExecInv(p, sort, before);
      StepDecreases(p, sort, Exec(p, sort, before).value, schedule[|schedule| - 1]);
    }
  }
}
