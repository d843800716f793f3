/**
 What the threads of a scan leave behind: the log of items sent over the report channel and the
 history of check-runner calls.  Invariants over every schedule of `ScanThreads`.
 */
module ScanHistory {
  import opened Wrappers
  import opened ReportOrder
  import opened ScanConsumer
  import opened ScanThreads

  // ---------------------------------------------------------------- the phase barrier

  ghost predicate Ends(events: seq<Event>, k: nat) {
    exists i :: 0 <= i < |events| && events[i].End? && events[i].job == k
  }

  /** The jobs begun, in order. */
  ghost function Begun(events: seq<Event>): nat {
    if events == [] then 0 else
      Begun(events[..|events| - 1]) + (if events[|events| - 1].Begin? then 1 else 0)
  }

  /**
   Jobs begin in their numbered order, each once; a job ends once, on the worker it began on; and a
   finish-phase job begins only after every main-phase job has ended.
   */
  ghost predicate Legal(p: Plan, events: seq<Event>) {
    events == [] || (
      var before, last := events[..|events| - 1], events[|events| - 1];
      && Legal(p, before)
      && match last
         case Begin(w, k) => k == Begun(before) && (MainSize(p) <= k ==> forall j: nat :: j < MainSize(p) ==> Ends(before, j))
         case End(w, k) => Begin(w, k) in before && !Ends(before, k))
  }

  ghost predicate History(p: Plan, t: Threads) {
    && Legal(p, t.events) && Begun(t.events) == Taken(t)
    && (forall w: nat :: w < |t.workers| && t.workers[w].Job? ==>
                           Begin(w, t.workers[w].k) in t.events && !Ends(t.events, t.workers[w].k))
    && (forall k: nat :: k < Taken(t) && !Held(t, k) ==> Ends(t.events, k))
    && (forall i :: 0 <= i < |t.events| ==> t.events[i].job < Taken(t))
  }

  lemma EndsAppend(events: seq<Event>, e: Event)
    ensures forall k: nat :: Ends(events + [e], k) <==> Ends(events, k) || (e.End? && e.job == k)
    ensures (events + [e])[..|events|] == events
    ensures forall x :: x in events + [e] <==> x in events || x == e
  {
    forall k: nat | Ends(events, k) ensures Ends(events + [e], k) {
      var i :| 0 <= i < |events| && events[i].End? && events[i].job == k;
      assert (events + [e])[i] == events[i];
    }
    assert (events + [e])[|events|] == e;
  }

  lemma ProducerHistory(p: Plan, t: Threads, room: bool, l: PStep)
    requires Control(p, t) && History(p, t) && ProducerStep(p, t, room, l).Some?
    ensures History(p, ProducerStep(p, t, room, l).value)
  {
    var t' := ProducerStep(p, t, room, l).value;
    assert t'.workers == t.workers && t'.events == t.events && Taken(t') == Taken(t);
    assert forall k :: Held(t', k) ==> Held(t, k);
  }

  lemma WorkerHistory(p: Plan, t: Threads, room: bool, w: nat, l: WStep)
    requires Control(p, t) && History(p, t) && WorkerStep(p, t, room, w, l).Some?
    ensures History(p, WorkerStep(p, t, room, w, l).value)
  {
    var t' := WorkerStep(p, t, room, w, l).value;
    match l
    case Take => TakeHistory(p, t, room, w);
    case Return => ReturnHistory(p, t, room, w);
    case _ =>
      assert t'.events == t.events && Taken(t') == Taken(t);
      forall k | Held(t, k) ensures Held(t', k) {
        KeepHolder(t, t', w, k);
      }
  }

  lemma TakeHistory(p: Plan, t: Threads, room: bool, w: nat)
    requires Control(p, t) && History(p, t) && WorkerStep(p, t, room, w, Take).Some?
    ensures History(p, WorkerStep(p, t, room, w, Take).value)
  {
    TakeControl(p, t, room, w);
    var k := Taken(t);
    if MainSize(p) <= k {
      forall j: nat | j < MainSize(p) ensures Ends(t.events, j) {
        TakenPastMain(p, t, room, w, j);
      }
    }
    BeginHistory(p, t, WorkerStep(p, t, room, w, Take).value, w, k);
  }

  lemma BeginHistory(p: Plan, t: Threads, t': Threads, w: nat, k: nat)
    requires History(p, t) && w < |t.workers| && !t.workers[w].Job? && k == Taken(t) && Taken(t') == k + 1
    requires t'.workers == t.workers[w := Job(k)] && t'.events == t.events + [Begin(w, k)]
    requires MainSize(p) <= k ==> forall j: nat :: j < MainSize(p) ==> Ends(t.events, j)
    ensures History(p, t')
  {
    EndsAppend(t.events, Begin(w, k));
    assert !Ends(t.events, k);
    assert Held(t', k) by { assert t'.workers[w].Job? && t'.workers[w].k == k; }
    forall j: nat | j < Taken(t') && !Held(t', j) ensures Ends(t'.events, j) {
      if Held(t, j) { KeepHolder(t, t', w, j); }
    }
  }

  /** The barrier itself: a worker that takes a finish job finds every main job ended. */
  lemma TakenPastMain(p: Plan, t: Threads, room: bool, w: nat, j: nat)
    requires Control(p, t) && History(p, t) && WorkerStep(p, t, room, w, Take).Some?
    requires MainSize(p) <= Taken(t) && j < MainSize(p)
    ensures Ends(t.events, j)
  {
    assert t.fq != [];
    MainIsOver(p, t, j);
  }

  lemma ReturnHistory(p: Plan, t: Threads, room: bool, w: nat)
    requires Control(p, t) && History(p, t) && WorkerStep(p, t, room, w, Return).Some?
    ensures History(p, WorkerStep(p, t, room, w, Return).value)
  {
    var t', k := WorkerStep(p, t, room, w, Return).value, t.workers[w].k;
    EndsAppend(t.events, End(w, k));
    assert Taken(t') == Taken(t);
    forall j: nat | j < Taken(t') && !Held(t', j) ensures Ends(t'.events, j) {
      if j != k && Held(t, j) { KeepHolder(t, t', w, j); }
    }
  }

  /** `Legal`, spelled out: the order of calls in any history. */
  lemma {:induction false} LegalMeans(p: Plan, events: seq<Event>, i: nat)
    requires Legal(p, events) && i < |events|
    ensures events[i].Begin? ==> events[i].job < Begun(events)
    ensures events[i].Begin? && MainSize(p) <= events[i].job ==>
              forall j: nat :: j < MainSize(p) ==> Ends(events[..i], j)
    ensures events[i].End? ==> Begin(events[i].worker, events[i].job) in events[..i]
    ensures forall j :: i < j < |events| && events[j].job == events[i].job ==> events[i].Begin? && events[j].End?
  {
    var n := |events| - 1;
    var before := events[..n];
    if i < n {
      LegalMeans(p, before, i);
      assert before[..i] == events[..i];
      forall j | i < j < |events| && events[j].job == events[i].job ensures events[i].Begin? && events[j].End? {
        if j == n {
          if events[i].End? {
            assert before[i].End?;
            assert Ends(before, events[i].job);
            EndedWasBegun(p, before, i);
          }
        } else {
          assert before[j] == events[j];
        }
      }
    }
  }

  lemma {:induction false} EndedWasBegun(p: Plan, events: seq<Event>, i: nat)
    requires Legal(p, events) && i < |events|
    ensures events[i].job < Begun(events)
  {
    var n := |events| - 1;
    if i < n {
      EndedWasBegun(p, events[..n], i);
    } else if events[n].End? {
      var b :| 0 <= b < n && events[b] == Begin(events[n].worker, events[n].job);
      EndedWasBegun(p, events[..n], b);
    }
  }

  // ---------------------------------------------------------------- finish notices

  ghost predicate Left(p: Plan, t: Threads, thread: nat) {
    if thread == p.jobs then t.producer.PLeaving? || t.producer.PGone?
    else thread < |t.workers| && (t.workers[thread].Leaving? || t.workers[thread].Gone?)
  }

  ghost predicate AllLeft(p: Plan, t: Threads) {
    forall thread: nat :: thread <= p.jobs ==> Left(p, t, thread)
  }

  /** A thread's notice is in the log exactly when it has left, at most once, and the last one is last. */
  ghost predicate Notices(p: Plan, t: Threads) {
    && (forall thread: nat :: Finish(thread) in t.log <==> thread <= p.jobs && Left(p, t, thread))
    && (forall i, j :: 0 <= i < j < |t.log| && t.log[i].Finish? ==> t.log[i] != t.log[j])
    && (AllLeft(p, t) ==> t.log != [] && t.log[|t.log| - 1].Finish?)
  }

  lemma ProducerNotices(p: Plan, t: Threads, room: bool, l: PStep)
    requires Control(p, t) && Notices(p, t) && ProducerStep(p, t, room, l).Some?
    ensures Notices(p, ProducerStep(p, t, room, l).value)
  {
    var t' := ProducerStep(p, t, room, l).value;
    assert forall th: nat :: th < p.jobs ==> Left(p, t', th) == Left(p, t, th);
    if l.Notice? {
      assert !Left(p, t, p.jobs);
      assert t'.log == t.log + [Finish(p.jobs)];
    } else {
      assert t'.log == t.log;
      assert Left(p, t', p.jobs) == Left(p, t, p.jobs);
    }
  }

  lemma WorkerNotices(p: Plan, t: Threads, room: bool, w: nat, l: WStep)
    requires Control(p, t) && Notices(p, t) && WorkerStep(p, t, room, w, l).Some?
    ensures Notices(p, WorkerStep(p, t, room, w, l).value)
  {
    match l
    case Notify => NotifyNotices(p, t, room, w);
    case Emit => EmitNotices(p, t, room, w);
    case _ => SilentNotices(p, t, room, w, l);
  }

  lemma NotifyNotices(p: Plan, t: Threads, room: bool, w: nat)
    requires Control(p, t) && Notices(p, t) && WorkerStep(p, t, room, w, Notify).Some?
    ensures Notices(p, WorkerStep(p, t, room, w, Notify).value)
  {
    var t' := WorkerStep(p, t, room, w, Notify).value;
    assert forall th: nat :: th <= p.jobs && th != w ==> Left(p, t', th) == Left(p, t, th);
    assert !Left(p, t, w);
    assert t'.log == t.log + [Finish(w)];
  }

  lemma SilentNotices(p: Plan, t: Threads, room: bool, w: nat, l: WStep)
    requires |t.workers| == p.jobs && Notices(p, t) && WorkerStep(p, t, room, w, l).Some? && !l.Notify? && !l.Emit?
    ensures Notices(p, WorkerStep(p, t, room, w, l).value)
  {
    var t' := WorkerStep(p, t, room, w, l).value;
    assert t'.log == t.log;
    assert forall th: nat :: th <= p.jobs ==> Left(p, t', th) == Left(p, t, th);
  }

  lemma EmitNotices(p: Plan, t: Threads, room: bool, w: nat)
    requires Control(p, t) && Notices(p, t) && WorkerStep(p, t, room, w, Emit).Some?
    ensures Notices(p, WorkerStep(p, t, room, w, Emit).value)
  {
    var t', item := WorkerStep(p, t, room, w, Emit).value, Items(p, t.workers[w].k)[t.sent[t.workers[w].k]];
    assert !item.Finish?;
    assert t'.log == t.log + [item];
    assert !Left(p, t', w);
    assert forall th: nat :: Left(p, t', th) == Left(p, t, th);
  }

  // ---------------------------------------------------------------- which packages have been processed

  ghost predicate Processed(p: Plan, t: Threads) {
    && FreshIds(t.log)
    && |t.sent| == Total(p)
    && forall id: nat :: InStep(p, t.sent, t.log, id)
  }

  /** A package has been processed exactly when all items of its job have been sent. */
  ghost predicate InStep(p: Plan, sent: seq<nat>, log: seq<Item>, id: nat)
    requires |sent| == Total(p)
  {
    id in Blocks(log) <==> id < |p.pkgs| && sent[|p.checks| + id] == |Items(p, |p.checks| + id)|
  }

  lemma OtherProcessed(p: Plan, t: Threads, thread: nat)
    requires Processed(p, t)
    ensures Processed(p, t.(log := t.log + [Finish(thread)]))
  {
    OneMoreBlock(t.log, Finish(thread));
    forall id: nat ensures InStep(p, t.sent, t.log + [Finish(thread)], id) {
      assert InStep(p, t.sent, t.log, id);
    }
  }

  /** A job's last item, and no other, processes its package. */
  lemma LastItem(p: Plan, k: nat, n: nat)
    requires k < Total(p) && n < |Items(p, k)|
    ensures Items(p, k)[n].Process? <==> |p.checks| <= k < MainSize(p) && n == |Items(p, k)| - 1
    ensures Items(p, k)[n].Process? ==> Items(p, k)[n] == Process(PkgTarget(p, k - |p.checks|), k - |p.checks|)
    ensures !Items(p, k)[n].Process? ==> n < |Reports(p, k)| && Items(p, k)[n] == Send(Reports(p, k)[n])
  {
  }

  lemma EmitProcessed(p: Plan, t: Threads, room: bool, w: nat)
    requires Control(p, t) && Processed(p, t) && WorkerStep(p, t, room, w, Emit).Some?
    ensures Processed(p, WorkerStep(p, t, room, w, Emit).value)
  {
    ItemProcessed(p, t, t.workers[w].k);
  }

  lemma ItemProcessed(p: Plan, t: Threads, k: nat)
    requires Processed(p, t) && k < Total(p) && t.sent[k] < |Items(p, k)|
    ensures Processed(p, t.(sent := t.sent[k := t.sent[k] + 1], log := t.log + [Items(p, k)[t.sent[k]]]))
  {
    var item, sent := Items(p, k)[t.sent[k]], t.sent[k := t.sent[k] + 1];
    OneMoreBlock(t.log, item);
    LastItem(p, k, t.sent[k]);
    assert item.Process? ==> InStep(p, t.sent, t.log, item.id);
    forall id: nat ensures InStep(p, sent, t.log + [item], id) {
      StaysInStep(p, t, k, id);
    }
  }

  /** Sending an item completes the job of a package exactly when it is the item that processes it. */
  lemma StaysInStep(p: Plan, t: Threads, k: nat, id: nat)
    requires |t.sent| == Total(p) && k < Total(p) && t.sent[k] < |Items(p, k)| && InStep(p, t.sent, t.log, id)
    ensures InStep(p, t.sent[k := t.sent[k] + 1], t.log + [Items(p, k)[t.sent[k]]], id)
  {
    LastItem(p, k, t.sent[k]);
    OneMoreBlock(t.log, Items(p, k)[t.sent[k]]);
  }

  // ---------------------------------------------------------------- every report sent once

  /** The reports among the first `n` items of a job. */
  ghost function SentOf(p: Plan, k: nat, n: nat): multiset<Report>
    requires k < Total(p)
  {
    if n == 0 || n > |Items(p, k)| then multiset{} else SentOf(p, k, n - 1) + BagOf(Items(p, k)[n - 1])
  }

  /** The reports among what has been sent of the first `n` jobs. */
  ghost function SentBag(p: Plan, sent: seq<nat>, n: nat): multiset<Report>
    requires n <= Total(p) == |sent|
  {
    if n == 0 then multiset{} else SentBag(p, sent, n - 1) + SentOf(p, n - 1, sent[n - 1])
  }

  /** All reports of the first `n` jobs. */
  ghost function AllReports(p: Plan, n: nat): multiset<Report>
    requires n <= Total(p)
  {
    if n == 0 then multiset{} else AllReports(p, n - 1) + multiset(Reports(p, n - 1))
  }

  ghost predicate Sums(p: Plan, t: Threads) {
    && |t.sent| == Total(p)
    && Bag(t.log) == SentBag(p, t.sent, Total(p))
  }

  lemma {:induction false} SentBagUpdate(p: Plan, a: seq<nat>, b: seq<nat>, n: nat, k: nat)
    requires k < n <= Total(p) == |a| && a[k] < |Items(p, k)| && b == a[k := a[k] + 1]
    ensures SentBag(p, b, n) == SentBag(p, a, n) + BagOf(Items(p, k)[a[k]])
  {
    var m, one := n - 1, BagOf(Items(p, k)[a[k]]);
    if k < m {
      assert b[m] == a[m];
      SentBagUpdate(p, a, b, m, k);
      AddedOnce(SentBag(p, a, m), SentOf(p, m, a[m]), one);
    } else {
      assert b[m] == a[k] + 1;
      SentBagFrame(p, a, b, m);
      SentOfNext(p, k, a[k]);
      BagAssoc(SentBag(p, a, m), SentOf(p, m, a[m]), one);
    }
  }

  lemma SentOfNext(p: Plan, k: nat, n: nat)
    requires k < Total(p) && n < |Items(p, k)|
    ensures SentOf(p, k, n + 1) == SentOf(p, k, n) + BagOf(Items(p, k)[n])
  {
  }

  lemma AddedOnce<T>(before: multiset<T>, last: multiset<T>, one: multiset<T>)
    ensures (before + one) + last == (before + last) + one
  {
  }

  lemma {:induction false} SentBagFrame(p: Plan, a: seq<nat>, b: seq<nat>, n: nat)
    requires n <= Total(p) == |a| == |b| && a[..n] == b[..n]
    ensures SentBag(p, a, n) == SentBag(p, b, n)
  {
    if n > 0 {
      assert a[n - 1] == a[..n][n - 1] == b[n - 1];
      assert a[..n - 1] == a[..n][..n - 1] == b[..n - 1];
      SentBagFrame(p, a, b, n - 1);
    }
  }

  lemma EmitSums(p: Plan, t: Threads, room: bool, w: nat)
    requires Sums(p, t) && WorkerStep(p, t, room, w, Emit).Some?
    ensures Sums(p, WorkerStep(p, t, room, w, Emit).value)
  {
    var t', k := WorkerStep(p, t, room, w, Emit).value, t.workers[w].k;
    ItemSums(p, t.sent, k, t.log);
    assert t'.sent == t.sent[k := t.sent[k] + 1] && t'.log == t.log + [Items(p, k)[t.sent[k]]];
  }

  lemma ItemSums(p: Plan, sent: seq<nat>, k: nat, log: seq<Item>)
    requires |sent| == Total(p) && k < Total(p) && sent[k] < |Items(p, k)|
    requires Bag(log) == SentBag(p, sent, Total(p))
    ensures Bag(log + [Items(p, k)[sent[k]]]) == SentBag(p, sent[k := sent[k] + 1], Total(p))
  {
    SentBagUpdate(p, sent, sent[k := sent[k] + 1], Total(p), k);
    OneMoreInBag(log, Items(p, k)[sent[k]]);
  }

  lemma OtherSums(p: Plan, t: Threads, thread: nat)
    requires Sums(p, t)
    ensures Sums(p, t.(log := t.log + [Finish(thread)]))
  {
    OneMoreInBag(t.log, Finish(thread));
  }

  lemma {:induction false} BagOfSends(reports: seq<Report>)
    ensures Bag(Sends(reports)) == multiset(reports)
  {
    if reports != [] {
      var n := |reports| - 1;
      BagOfSends(reports[..n]);
      assert Sends(reports)[..n] == Sends(reports[..n]);
      assert reports == reports[..n] + [reports[n]];
    }
  }

  lemma BagOfItems(p: Plan, k: nat)
    requires k < Total(p)
    ensures Bag(Items(p, k)) == multiset(Reports(p, k))
  {
    BagOfSends(Reports(p, k));
    if |p.checks| <= k < MainSize(p) {
      Appended(Sends(Reports(p, k)), Process(PkgTarget(p, k - |p.checks|), k - |p.checks|));
    } else {
      assert Items(p, k) == Sends(Reports(p, k));
    }
  }

  lemma {:induction false} FullySent(p: Plan, sent: seq<nat>, n: nat)
    requires n <= Total(p) == |sent|
    requires forall k :: 0 <= k < Total(p) ==> sent[k] == |Items(p, k)|
    ensures SentBag(p, sent, n) == AllReports(p, n)
  {
    if n > 0 {
      FullySent(p, sent, n - 1);
      FullyOne(p, n - 1);
    }
  }

  lemma {:induction false} SentOfIs(p: Plan, k: nat, n: nat)
    requires k < Total(p) && n <= |Items(p, k)|
    ensures SentOf(p, k, n) == Bag(Items(p, k)[..n])
  {
    if n > 0 {
      SentOfIs(p, k, n - 1);
      TakeOneMore(Items(p, k), n - 1);
      OneMoreInBag(Items(p, k)[..n - 1], Items(p, k)[n - 1]);
    }
  }

  lemma FullyOne(p: Plan, k: nat)
    requires k < Total(p)
    ensures SentOf(p, k, |Items(p, k)|) == multiset(Reports(p, k))
  {
    SentOfIs(p, k, |Items(p, k)|);
    BagOfItems(p, k);
    assert Items(p, k)[..|Items(p, k)|] == Items(p, k);
  }

  lemma {:induction false} NothingSent(p: Plan, sent: seq<nat>, n: nat)
    requires n <= Total(p) == |sent|
    requires forall k :: 0 <= k < Total(p) ==> sent[k] == 0
    ensures SentBag(p, sent, n) == multiset{}
  {
    if n > 0 {
      NothingSent(p, sent, n - 1);
    }
  }

  // ---------------------------------------------------------------- a package's own reports

  /** The reports on a package or its versions. */
  ghost function Own(reports: seq<Report>, cpn: Cpn): seq<Report> {
    if reports == [] then [] else
      var n := |reports| - 1;
      Own(reports[..n], cpn) + (if Concerns(reports[n].scope, cpn) then [reports[n]] else [])
  }

  /**
   Packages are distinct, and in the main phase only the job of a package emits its reports.
   */
  ghost predicate Scoped(p: Plan) {
    && (forall i, j :: 0 <= i < j < |p.pkgs| ==> p.pkgs[i].cpn != p.pkgs[j].cpn)
    && (forall k, i, n | 0 <= k < MainSize(p) && 0 <= i < |p.pkgs| && 0 <= n < |Reports(p, k)| ::
          Concerns(Reports(p, k)[n].scope, p.pkgs[i].cpn) ==> k == |p.checks| + i)
  }

  /** A package's block, once processed, is its own reports sorted; before that they are pending. */
  ghost predicate OwnBlock(p: Plan, t: Threads, i: nat)
    requires i < |p.pkgs| && |t.sent| == Total(p)
  {
    var k := |p.checks| + i;
    if t.sent[k] < |Items(p, k)|
    then Pending(t.log, PkgTarget(p, i)) == Own(Reports(p, k)[..t.sent[k]], p.pkgs[i].cpn)
    else i in Blocks(t.log) && Blocks(t.log)[i] == Sort(Own(Reports(p, k), p.pkgs[i].cpn))
  }

  ghost predicate OwnBlocks(p: Plan, t: Threads) {
    |t.sent| == Total(p) && forall i: nat :: i < |p.pkgs| ==> OwnBlock(p, t, i)
  }

  lemma EmitOwn(p: Plan, t: Threads, room: bool, w: nat, i: nat)
    requires Control(p, t) && Scoped(p) && Processed(p, t) && WorkerStep(p, t, room, w, Emit).Some?
    requires i < |p.pkgs| && OwnBlock(p, t, i)
    ensures OwnBlock(p, WorkerStep(p, t, room, w, Emit).value, i)
  {
    var k := t.workers[w].k;
    if k == |p.checks| + i {
      EmitOwnJob(p, t, k, i);
    } else {
      EmitOther(p, t, room, w, i);
    }
  }

  lemma EmitOther(p: Plan, t: Threads, room: bool, w: nat, i: nat)
    requires Control(p, t) && Scoped(p) && WorkerStep(p, t, room, w, Emit).Some?
    requires i < |p.pkgs| && OwnBlock(p, t, i) && t.workers[w].k != |p.checks| + i
    ensures OwnBlock(p, WorkerStep(p, t, room, w, Emit).value, i)
  {
    var k := t.workers[w].k;
    if k >= MainSize(p) { MainIsOver(p, t, |p.checks| + i); }
    EmitOtherJob(p, t, k, i);
  }

  lemma EmitOwnJob(p: Plan, t: Threads, k: nat, i: nat)
    requires i < |p.pkgs| && k == |p.checks| + i && |t.sent| == Total(p) && t.sent[k] < |Items(p, k)|
    requires OwnBlock(p, t, i)
    ensures OwnBlock(p, t.(sent := t.sent[k := t.sent[k] + 1], log := t.log + [Items(p, k)[t.sent[k]]]), i)
  {
    var n := t.sent[k];
    LastItem(p, k, n);
    OneMorePending(t.log, Items(p, k)[n], p.pkgs[i].cpn);
    if n < |Reports(p, k)| {
      OwnOneMore(Reports(p, k), n, p.pkgs[i].cpn);
    } else {
      assert Reports(p, k)[..n] == Reports(p, k);
    }
  }

  lemma OwnOneMore(reports: seq<Report>, n: nat, cpn: Cpn)
    requires n < |reports|
    ensures Own(reports[..n + 1], cpn) == Own(reports[..n], cpn) + (if Concerns(reports[n].scope, cpn) then [reports[n]] else [])
  {
    assert reports[..n + 1] == reports[..n] + [reports[n]];
    InitOne(reports[..n], reports[n]);
  }

  /** In the main phase other jobs send nothing for this package; afterwards its block is fixed. */
  lemma EmitOtherJob(p: Plan, t: Threads, k: nat, i: nat)
    requires i < |p.pkgs| && k < Total(p) && k != |p.checks| + i
    requires |t.sent| == Total(p) && t.sent[k] < |Items(p, k)| && Scoped(p)
    requires OwnBlock(p, t, i)
    requires k >= MainSize(p) ==> t.sent[|p.checks| + i] == |Items(p, |p.checks| + i)|
    ensures OwnBlock(p, t.(sent := t.sent[k := t.sent[k] + 1], log := t.log + [Items(p, k)[t.sent[k]]]), i)
  {
    var item := Items(p, k)[t.sent[k]];
    OneMorePending(t.log, item, p.pkgs[i].cpn);
    LastItem(p, k, t.sent[k]);
    if k < MainSize(p) { NotThisPackage(p, k, t.sent[k], i); }
  }

  /** Another main-phase job sends nothing on this package, and does not have it processed. */
  lemma NotThisPackage(p: Plan, k: nat, n: nat, i: nat)
    requires Scoped(p) && i < |p.pkgs| && k < MainSize(p) && k != |p.checks| + i && n < |Items(p, k)|
    ensures var item := Items(p, k)[n];
            && (item.Send? ==> !Concerns(item.report.scope, p.pkgs[i].cpn))
            && (item.Process? ==> item.target != CpnTarget(p.pkgs[i].cpn) && item.id != i)
  {
    LastItem(p, k, n);
    if n < |Reports(p, k)| { assert Items(p, k)[n] == Send(Reports(p, k)[n]); }
  }

  lemma OtherOwn(p: Plan, t: Threads, thread: nat)
    requires OwnBlocks(p, t)
    ensures OwnBlocks(p, t.(log := t.log + [Finish(thread)]))
  {
    Appended(t.log, Finish(thread));
    forall i: nat | i < |p.pkgs| ensures OwnBlock(p, t.(log := t.log + [Finish(thread)]), i) {
      assert OwnBlock(p, t, i);
    }
  }

  // ---------------------------------------------------------------- all together

  ghost predicate Inv(p: Plan, t: Threads) {
    && Control(p, t) && History(p, t) && Notices(p, t) && Processed(p, t) && Sums(p, t)
    && (Scoped(p) ==> OwnBlocks(p, t))
  }

  lemma StartInv(p: Plan)
    requires p.jobs >= 1
    ensures Inv(p, Start(p))
  {
    var t := Start(p);
    NothingSent(p, t.sent, Total(p));
    assert !Left(p, t, p.jobs);
    forall i: nat | i < |p.pkgs| ensures OwnBlock(p, t, i) {
      StartOwn(p, i);
    }
  }

  lemma StartOwn(p: Plan, i: nat)
    requires i < |p.pkgs|
    ensures OwnBlock(p, Start(p), i)
  {
    assert Reports(p, |p.checks| + i)[..0] == [];
  }

  lemma ProducerInv(p: Plan, t: Threads, room: bool, l: PStep)
    requires Inv(p, t) && ProducerStep(p, t, room, l).Some?
    ensures Inv(p, ProducerStep(p, t, room, l).value)
  {
    ProducerControl(p, t, room, l);
    ProducerHistory(p, t, room, l);
    ProducerNotices(p, t, room, l);
    NoEmission(p, t, ProducerStep(p, t, room, l).value, p.jobs);
  }

  lemma WorkerInv(p: Plan, t: Threads, room: bool, w: nat, l: WStep)
    requires Inv(p, t) && WorkerStep(p, t, room, w, l).Some?
    ensures Inv(p, WorkerStep(p, t, room, w, l).value)
  {
    WorkerControl(p, t, room, w, l);
    WorkerHistory(p, t, room, w, l);
    WorkerNotices(p, t, room, w, l);
    if l.Emit? {
      EmitInv(p, t, room, w);
    } else {
      NoEmission(p, t, WorkerStep(p, t, room, w, l).value, w);
    }
  }

  lemma EmitInv(p: Plan, t: Threads, room: bool, w: nat)
    requires Inv(p, t) && WorkerStep(p, t, room, w, Emit).Some?
    ensures var t' := WorkerStep(p, t, room, w, Emit).value;
            Processed(p, t') && Sums(p, t') && (Scoped(p) ==> OwnBlocks(p, t'))
  {
    EmitProcessed(p, t, room, w);
    EmitSums(p, t, room, w);
    if Scoped(p) {
      forall i: nat | i < |p.pkgs| ensures OwnBlock(p, WorkerStep(p, t, room, w, Emit).value, i) {
        EmitOwn(p, t, room, w, i);
      }
    }
  }

  /** Steps that send no item of a job. */
  lemma NoEmission(p: Plan, t: Threads, t': Threads, thread: nat)
    requires Processed(p, t) && Sums(p, t) && (Scoped(p) ==> OwnBlocks(p, t))
    requires t'.sent == t.sent && (t'.log == t.log || t'.log == t.log + [Finish(thread)])
    ensures Processed(p, t') && Sums(p, t') && (Scoped(p) ==> OwnBlocks(p, t'))
  {
    OtherProcessed(p, t, thread);
    OtherSums(p, t, thread);
    if Scoped(p) {
      OtherOwn(p, t, thread);
      forall i: nat | i < |p.pkgs| ensures OwnBlock(p, t', i) {
        assert OwnBlock(p, t, i);
        assert OwnBlock(p, t.(log := t.log + [Finish(thread)]), i);
      }
    }
  }
}
