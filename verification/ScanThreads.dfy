/**
 The threads of a scan: producer and workers of `crates/pkgcruft/src/iter.rs`.

 A `Plan` lists the jobs the producer enqueues: main-phase checks, then packages, then finish-phase
 calls.  Jobs are numbered in that order, and running a job means sending its items over the report
 channel one by one.  `ThreadStep` is one atomic step of one thread, and the invariants below hold
 whatever the schedule.
 */
module ScanThreads {
  import opened Wrappers
  import opened ReportOrder
  import opened ScanConsumer

  /** A package target and the reports its checks emit, in order. */
  datatype Pkg = Pkg(cpn: Cpn, reports: seq<Report>)

  datatype Plan = Plan(checks: seq<seq<Report>>, pkgs: seq<Pkg>, finish: seq<seq<Report>>, jobs: nat)

  ghost function MainSize(p: Plan): nat {
    |p.checks| + |p.pkgs|
  }

  ghost function Total(p: Plan): nat {
    MainSize(p) + |p.finish|
  }

  ghost function Sends(reports: seq<Report>): (items: seq<Item>)
    ensures |items| == |reports|
    ensures forall i :: 0 <= i < |reports| ==> items[i] == Send(reports[i])
  {
    seq(|reports|, i requires 0 <= i < |reports| => Send(reports[i]))
  }

  ghost function Reports(p: Plan, k: nat): seq<Report>
    requires k < Total(p)
  {
    if k < |p.checks| then p.checks[k]
    else if k < MainSize(p) then p.pkgs[k - |p.checks|].reports
    else p.finish[k - MainSize(p)]
  }

  /** What running a job sends: its reports and, for a package, the order to process them. */
  ghost function Items(p: Plan, k: nat): seq<Item>
    requires k < Total(p)
  {
    Sends(Reports(p, k)) +
    if |p.checks| <= k < MainSize(p) then [Process(PkgTarget(p, k - |p.checks|), k - |p.checks|)] else []
  }

  ghost function PkgTarget(p: Plan, i: nat): Target
    requires i < |p.pkgs|
  {
    CpnTarget(p.pkgs[i].cpn)
  }

  // ---------------------------------------------------------------- states and steps

  datatype Producer = PMain | PWaiting | PFin | PFinishing | PLeaving | PGone

  /** `MainRecv` and `FinRecv` wait on the two channels; a worker holds a `Job` while it runs. */
  datatype Worker = MainRecv | FinRecv | Job(k: nat) | Finishing | Leaving | Gone

  datatype Event = Begin(worker: nat, job: nat) | End(worker: nat, job: nat)

  datatype Threads = Threads(
    producer: Producer,
    queued: nat,          // jobs enqueued so far, over both phases
    tq: seq<nat>,         // bounded targets channel
    fq: seq<nat>,         // bounded finish channel
    workers: seq<Worker>,
    sent: seq<nat>,       // per job, how many of its items have been sent
    log: seq<Item>,       // everything sent over the report channel so far
    events: seq<Event>)   // the calls of check runners so far

  datatype PStep = Enqueue | Advance | Notice
  datatype WStep = Take | Emit | Return | Leave | Notify

  /** The worker still holds its clone of the wait group. */
  ghost predicate InMain(p: Plan, w: Worker) {
    w.MainRecv? || (w.Job? && w.k < MainSize(p))
  }

  ghost predicate NoneInMain(p: Plan, t: Threads) {
    forall w :: 0 <= w < |t.workers| ==> !InMain(p, t.workers[w])
  }

  ghost function Start(p: Plan): Threads {
    Threads(PMain, 0, [], [], seq(p.jobs, _ => MainRecv), seq(Total(p), _ => 0), [], [])
  }

  /** `room` tells whether the bounded report channel has a free place. */
  ghost function ProducerStep(p: Plan, t: Threads, room: bool, l: PStep): Option<Threads> {
    match (l, t.producer)
    case (Enqueue, PMain) =>
      if t.queued < MainSize(p) && |t.tq| < p.jobs
      then Some(t.(tq := t.tq + [t.queued], queued := t.queued + 1)) else None
    case (Enqueue, PFin) =>
      if t.queued < Total(p) && |t.fq| < p.jobs
      then Some(t.(fq := t.fq + [t.queued], queued := t.queued + 1)) else None
    // drop(tx)
    case (Advance, PMain) => if t.queued >= MainSize(p) then Some(t.(producer := PWaiting)) else None
    // wg.wait()
    case (Advance, PWaiting) => if NoneInMain(p, t) then Some(t.(producer := PFin)) else None
    case (Advance, PFin) => if t.queued >= Total(p) then Some(t.(producer := PFinishing)) else None
    // the closure returns, dropping the finish channel's sender
    case (Advance, PLeaving) => Some(t.(producer := PGone))
    case (Notice, PFinishing) =>
      if room then Some(t.(producer := PLeaving, log := t.log + [Finish(p.jobs)])) else None
    case _ => None
  }

  ghost function WorkerStep(p: Plan, t: Threads, room: bool, w: nat, l: WStep): Option<Threads> {
    if w >= |t.workers| then None else
      match (l, t.workers[w])
      case (Take, MainRecv) =>
        if t.tq == [] then None else
          Some(t.(tq := t.tq[1..], workers := t.workers[w := Job(t.tq[0])], events := t.events + [Begin(w, t.tq[0])]))
      case (Take, FinRecv) =>
        if t.fq == [] then None else
          Some(t.(fq := t.fq[1..], workers := t.workers[w := Job(t.fq[0])], events := t.events + [Begin(w, t.fq[0])]))
      case (Emit, Job(k)) =>
        if k < Total(p) && k < |t.sent| && t.sent[k] < |Items(p, k)| && room
        then Some(t.(sent := t.sent[k := t.sent[k] + 1], log := t.log + [Items(p, k)[t.sent[k]]])) else None
      case (Return, Job(k)) =>
        if k < Total(p) && k < |t.sent| && t.sent[k] >= |Items(p, k)|
        then Some(t.(workers := t.workers[w := if k < MainSize(p) then MainRecv else FinRecv],
                     events := t.events + [End(w, k)])) else None
      // the targets channel is disconnected: drop(wg)
      case (Leave, MainRecv) =>
        if t.tq == [] && !t.producer.PMain? then Some(t.(workers := t.workers[w := FinRecv])) else None
      // the finish channel is disconnected
      case (Leave, FinRecv) =>
        if t.fq == [] && t.producer.PGone? then Some(t.(workers := t.workers[w := Finishing])) else None
      case (Leave, Leaving) => Some(t.(workers := t.workers[w := Gone]))
      case (Notify, Finishing) =>
        if room then Some(t.(workers := t.workers[w := Leaving], log := t.log + [Finish(w)])) else None
      case _ => None
  }

  // ---------------------------------------------------------------- queues, phases, holders

  ghost function Range(a: int, b: int): seq<nat>
    requires 0 <= a
  {
    seq(if a <= b then b - a else 0, i => a + i)
  }

  /** Jobs a worker has taken: the first so many, as both channels are first-in first-out. */
  ghost function Taken(t: Threads): int {
    t.queued - |t.tq| - |t.fq|
  }

  ghost predicate Queues(p: Plan, t: Threads) {
    && t.queued <= Total(p) && 0 <= Taken(t)
    && |t.tq| <= p.jobs && |t.fq| <= p.jobs
    && (t.tq == [] || t.fq == [])
    && t.tq + t.fq == Range(Taken(t), t.queued)
    && (t.tq != [] ==> t.queued <= MainSize(p))
    && (t.fq != [] ==> Taken(t) >= MainSize(p))
  }

  ghost predicate Ended(w: Worker) {
    w.Finishing? || w.Leaving? || w.Gone?
  }

  ghost predicate ProducerEnded(q: Producer) {
    q.PFinishing? || q.PLeaving? || q.PGone?
  }

  ghost predicate Phases(p: Plan, t: Threads) {
    && |t.workers| == p.jobs
    && (t.producer.PMain? ==> t.queued <= MainSize(p) && t.fq == [])
    && (t.producer.PWaiting? ==> t.queued == MainSize(p) && t.fq == [])
    && (t.producer.PFin? || ProducerEnded(t.producer) ==> MainSize(p) <= t.queued && NoneInMain(p, t))
    && (ProducerEnded(t.producer) ==> t.queued == Total(p))
    && (forall w :: 0 <= w < |t.workers| && !InMain(p, t.workers[w]) ==> t.tq == [] && !t.producer.PMain?)
    && (forall w :: 0 <= w < |t.workers| && Ended(t.workers[w]) ==> t.producer.PGone? && t.fq == [])
  }

  ghost predicate Held(t: Threads, k: int) {
    exists w :: 0 <= w < |t.workers| && t.workers[w].Job? && t.workers[w].k == k
  }

  ghost predicate Holders(p: Plan, t: Threads) {
    && |t.sent| == Total(p)
    && (forall k :: 0 <= k < Total(p) ==> t.sent[k] <= |Items(p, k)|)
    && (forall k :: 0 <= k < Total(p) && Taken(t) <= k ==> t.sent[k] == 0)
    && (forall k :: 0 <= k < Taken(t) && k < Total(p) ==> t.sent[k] == |Items(p, k)| || Held(t, k))
    && (forall w :: 0 <= w < |t.workers| && t.workers[w].Job? ==> t.workers[w].k < Taken(t))
    && (forall v, w :: 0 <= v < w < |t.workers| && t.workers[v].Job? && t.workers[w].Job?
                       ==> t.workers[v].k != t.workers[w].k)
  }

  ghost predicate Control(p: Plan, t: Threads) {
    p.jobs >= 1 && Queues(p, t) && Phases(p, t) && Holders(p, t)
  }

  lemma ProducerControl(p: Plan, t: Threads, room: bool, l: PStep)
    requires Control(p, t) && ProducerStep(p, t, room, l).Some?
    ensures Control(p, ProducerStep(p, t, room, l).value)
  {
    var t' := ProducerStep(p, t, room, l).value;
    assert t'.workers == t.workers && t'.sent == t.sent && Taken(t') == Taken(t);
    assert forall k :: Held(t, k) ==> Held(t', k);
    if l.Enqueue? {
      assert t'.tq + t'.fq == t.tq + t.fq + [t.queued];
      if t.producer.PFin? { assert !InMain(p, t.workers[0]); }
    }
  }

  lemma TakeControl(p: Plan, t: Threads, room: bool, w: nat)
    requires Control(p, t) && WorkerStep(p, t, room, w, Take).Some?
    ensures Control(p, WorkerStep(p, t, room, w, Take).value)
    ensures WorkerStep(p, t, room, w, Take).value.workers[w] == Job(Taken(t))
    ensures Taken(WorkerStep(p, t, room, w, Take).value) == Taken(t) + 1
  {
    var t' := WorkerStep(p, t, room, w, Take).value;
    assert (t.tq + t.fq)[0] == Range(Taken(t), t.queued)[0];
    assert t'.tq + t'.fq == (t.tq + t.fq)[1..];
    assert t'.workers[w].k == Taken(t);
    forall k | 0 <= k < Taken(t') && k < Total(p) ensures t'.sent[k] == |Items(p, k)| || Held(t', k) {
      if k == Taken(t) {
        assert t'.workers[w].Job? && t'.workers[w].k == k;
      } else if Held(t, k) {
        KeepHolder(t, t', w, k);
      }
    }
  }

  /** A job held by another worker stays held. */
  lemma KeepHolder(t: Threads, t': Threads, w: nat, k: int)
    requires Held(t, k) && w < |t.workers| == |t'.workers|
    requires t.workers[w].Job? ==> t.workers[w].k != k || t'.workers[w] == t.workers[w]
    requires forall v :: 0 <= v < |t.workers| && v != w ==> t'.workers[v] == t.workers[v]
    ensures Held(t', k)
  {
    var v :| 0 <= v < |t.workers| && t.workers[v].Job? && t.workers[v].k == k;
    assert t'.workers[v].Job? && t'.workers[v].k == k;
  }

  lemma EmitControl(p: Plan, t: Threads, room: bool, w: nat)
    requires Control(p, t) && WorkerStep(p, t, room, w, Emit).Some?
    ensures Control(p, WorkerStep(p, t, room, w, Emit).value)
  {
    var t' := WorkerStep(p, t, room, w, Emit).value;
    assert t'.workers == t.workers && Taken(t') == Taken(t);
    assert forall k :: Held(t, k) ==> Held(t', k);
    assert Held(t, t.workers[w].k);
  }

  lemma ReturnControl(p: Plan, t: Threads, room: bool, w: nat)
    requires Control(p, t) && WorkerStep(p, t, room, w, Return).Some?
    ensures Control(p, WorkerStep(p, t, room, w, Return).value)
  {
    var t' := WorkerStep(p, t, room, w, Return).value;
    assert Taken(t') == Taken(t);
    forall k | 0 <= k < Taken(t') && k < Total(p) ensures t'.sent[k] == |Items(p, k)| || Held(t', k) {
      if k != t.workers[w].k && Held(t, k) { KeepHolder(t, t', w, k); }
    }
  }

  lemma LeaveControl(p: Plan, t: Threads, room: bool, w: nat, l: WStep)
    requires Control(p, t) && WorkerStep(p, t, room, w, l).Some? && (l.Leave? || l.Notify?)
    ensures Control(p, WorkerStep(p, t, room, w, l).value)
  {
    var t' := WorkerStep(p, t, room, w, l).value;
    assert Taken(t') == Taken(t);
    forall k | Held(t, k) ensures Held(t', k) {
      KeepHolder(t, t', w, k);
    }
  }

  lemma WorkerControl(p: Plan, t: Threads, room: bool, w: nat, l: WStep)
    requires Control(p, t) && WorkerStep(p, t, room, w, l).Some?
    ensures Control(p, WorkerStep(p, t, room, w, l).value)
  {
    match l
    case Take => TakeControl(p, t, room, w);
    case Emit => EmitControl(p, t, room, w);
    case Return => ReturnControl(p, t, room, w);
    case _ => LeaveControl(p, t, room, w, l);
  }

  /** Once a finish job has been taken, every main job has been run to its end. */
  lemma MainIsOver(p: Plan, t: Threads, k: nat)
    requires Control(p, t) && (MainSize(p) < Taken(t) || NoneInMain(p, t))
    requires k < MainSize(p)
    ensures k < Taken(t) && t.sent[k] == |Items(p, k)| && !Held(t, k)
  {
    assert NoneInMain(p, t);
    assert !InMain(p, t.workers[0]);
  }
}
