/**
 What a scan guarantees (`crates/pkgcruft/src/iter.rs`): conservation of reports, the phase barrier,
 output that does not depend on the schedule, absence of deadlock, and termination.
 */
module ScanResults {
  import opened Wrappers
  import opened ReportOrder
  import opened ScanConsumer
  import opened ScanThreads
  import opened ScanHistory
  import opened ScanPipeline

  // ---------------------------------------------------------------- the expected output

  /** The reports on anything but a package and its versions. */
  ghost function Others(reports: seq<Report>, cpn: Cpn): seq<Report> {
    if reports == [] then [] else
      var n := |reports| - 1;
      Others(reports[..n], cpn) + (if Concerns(reports[n].scope, cpn) then [] else [reports[n]])
  }

  /** What a job emits outside the packages' own blocks. */
  ghost function Rest(p: Plan, k: nat): seq<Report>
    requires k < Total(p)
  {
    if |p.checks| <= k < MainSize(p) then Others(Reports(p, k), p.pkgs[k - |p.checks|].cpn) else Reports(p, k)
  }

  ghost function Leftovers(p: Plan, n: nat): seq<Report>
    requires n <= Total(p)
  {
    if n == 0 then [] else Leftovers(p, n - 1) + Rest(p, n - 1)
  }

  /** Each package's own reports, sorted. */
  ghost function PkgBlocks(p: Plan): map<nat, seq<Report>> {
    map i: nat | i < |p.pkgs| :: Sort(Own(p.pkgs[i].reports, p.pkgs[i].cpn))
  }

  /** Every package's block in package order, then everything else, sorted. */
  ghost function Expected(p: Plan): seq<Report> {
    Cat(PkgBlocks(p), Upto(|p.pkgs|)) + Sort(Leftovers(p, Total(p)))
  }

  ghost predicate NoDup(order: seq<nat>) {
    forall i, j :: 0 <= i < j < |order| ==> order[i] != order[j]
  }

  ghost predicate Covers(order: seq<nat>, blocks: map<nat, seq<Report>>) {
    forall i: nat :: i in order <==> i in blocks
  }

  lemma {:induction false} CatIsAll(blocks: map<nat, seq<Report>>, order: seq<nat>)
    requires NoDup(order) && Covers(order, blocks)
    ensures multiset(Cat(blocks, order)) == multiset(AllOf(blocks))
    decreases |order|
  {
    if order == [] {
      assert forall k: nat :: k in blocks ==> k in order;
      assert blocks.Keys == {};
    } else {
      var last, init := order[|order| - 1], order[..|order| - 1];
      assert last in order;
      AllOfRemove(blocks, last);
      forall i: nat ensures i in init <==> i in blocks - {last} {
        assert i in order <==> i in init || i == last;
      }
      CatIsAll(blocks - {last}, init);
      forall i | 0 <= i < |init| ensures init[i] in blocks && init[i] != last {
        assert order[i] in order && order[i] != order[|order| - 1];
      }
      CatFrame(blocks, blocks - {last}, init);
    }
  }

  lemma {:induction false} OwnAndOthers(reports: seq<Report>, cpn: Cpn)
    ensures multiset(reports) == multiset(Own(reports, cpn)) + multiset(Others(reports, cpn))
  {
    if reports != [] {
      var n := |reports| - 1;
      OwnAndOthers(reports[..n], cpn);
      assert reports == reports[..n] + [reports[n]];
    }
  }

  ghost function Before(p: Plan, n: nat): nat {
    if n <= |p.checks| then 0 else if n <= MainSize(p) then n - |p.checks| else |p.pkgs|
  }

  /** All reports are the packages' blocks and the leftovers. */
  lemma {:induction false} Division(p: Plan, n: nat)
    requires n <= Total(p)
    ensures AllReports(p, n) == multiset(Leftovers(p, n)) + multiset(Cat(PkgBlocks(p), Upto(Before(p, n))))
  {
    if n > 0 {
      Division(p, n - 1);
      JobDivision(p, n - 1);
      Balance(AllReports(p, n - 1), multiset(Reports(p, n - 1)), multiset(Leftovers(p, n - 1)),
              multiset(Rest(p, n - 1)), multiset(Cat(PkgBlocks(p), Upto(Before(p, n - 1)))),
              multiset(Cat(PkgBlocks(p), Upto(Before(p, n)))));
    }
  }

  lemma Balance(all: multiset<Report>, reports: multiset<Report>, left: multiset<Report>, rest: multiset<Report>,
                blocks: multiset<Report>, blocks': multiset<Report>)
    requires all == left + blocks && blocks' + rest == blocks + reports
    ensures all + reports == (left + rest) + blocks'
  {
    assert all + reports == left + (blocks + reports);
  }

  lemma JobDivision(p: Plan, k: nat)
    requires k < Total(p)
    ensures multiset(Cat(PkgBlocks(p), Upto(Before(p, k + 1)))) + multiset(Rest(p, k))
            == multiset(Cat(PkgBlocks(p), Upto(Before(p, k)))) + multiset(Reports(p, k))
  {
    if |p.checks| <= k < MainSize(p) { PkgDivision(p, k - |p.checks|); }
  }

  lemma PkgDivision(p: Plan, i: nat)
    requires i < |p.pkgs|
    ensures multiset(Cat(PkgBlocks(p), Upto(i + 1))) + multiset(Others(p.pkgs[i].reports, p.pkgs[i].cpn))
            == multiset(Cat(PkgBlocks(p), Upto(i))) + multiset(p.pkgs[i].reports)
  {
    var reports, cpn, before := p.pkgs[i].reports, p.pkgs[i].cpn, Cat(PkgBlocks(p), Upto(i));
    OwnAndOthers(reports, cpn);
    SortLaws(Own(reports, cpn));
    NextBlock(p, i);
    Together(before, Sort(Own(reports, cpn)), Own(reports, cpn), Others(reports, cpn), reports);
  }

  lemma NextBlock(p: Plan, i: nat)
    requires i < |p.pkgs|
    ensures Cat(PkgBlocks(p), Upto(i + 1)) == Cat(PkgBlocks(p), Upto(i)) + Sort(Own(p.pkgs[i].reports, p.pkgs[i].cpn))
  {
    assert Upto(i + 1) == Upto(i) + [i];
    CatAppend(PkgBlocks(p), Upto(i), i);
  }

  lemma Together(before: seq<Report>, sorted: seq<Report>, own: seq<Report>, others: seq<Report>, all: seq<Report>)
    requires multiset(sorted) == multiset(own) && multiset(all) == multiset(own) + multiset(others)
    ensures multiset(before + sorted) + multiset(others) == multiset(before) + multiset(all)
  {
    BagAssoc(multiset(before), multiset(own), multiset(others));
  }

  // ---------------------------------------------------------------- the final state

  lemma AllSent(p: Plan, t: Threads)
    requires Inv(p, t) && AllLeft(p, t)
    ensures forall k :: 0 <= k < Total(p) ==> t.sent[k] == |Items(p, k)|
  {
    assert Left(p, t, p.jobs);
    forall w | 0 <= w < |t.workers| ensures Ended(t.workers[w]) {
      assert Left(p, t, w);
    }
    assert !InMain(p, t.workers[0]);
    assert Taken(t) == Total(p);
  }

  lemma {:induction false} OrderCovers(log: seq<Item>)
    requires FreshIds(log)
    ensures NoDup(Order(log)) && Covers(Order(log), Blocks(log))
  {
    if log != [] {
      var before, last := log[..|log| - 1], log[|log| - 1];
      OrderCovers(before);
      assert log == before + [last];
      Appended(before, last);
      if last.Process? {
        forall i: nat ensures i in Order(log) <==> i in Blocks(log) {
          assert i in Order(log) <==> i in Order(before) || i == last.id;
        }
        assert last.id !in Order(before);
      }
    }
  }

  /** Once all threads have left, everything has been sent and every package processed. */
  lemma AllProcessed(p: Plan, t: Threads)
    requires Inv(p, t) && AllLeft(p, t)
    ensures Bag(t.log) == AllReports(p, Total(p))
    ensures forall i: nat :: i in Blocks(t.log) <==> i < |p.pkgs|
  {
    AllSent(p, t);
    FullySent(p, t.sent, Total(p));
    forall i: nat ensures i in Blocks(t.log) <==> i < |p.pkgs| {
      assert InStep(p, t.sent, t.log, i);
    }
  }

  lemma TargetsDrained(log: seq<Item>, k: Consumer)
    requires MirrorTargets(log, k) && k.threads == {}
    ensures AllOf(k.targets) == []
  {
    forall t | t in k.targets ensures k.targets[t] == [] {
      assert Get(k.targets, t) == [];
    }
    AllOfEmpty(k.targets);
  }

  lemma BagDrained(log: seq<Item>, k: Consumer, yielded: seq<Report>)
    requires Conserved(log, k, yielded) && AllOf(k.targets) == [] && AllOf(k.ids) == [] && k.reports == []
    ensures multiset(yielded) == Bag(log)
  {
  }

  /** At `None`, the consumer has nothing left and the blocks went out in a complete order. */
  lemma Finished(p: Plan, sort: bool, s: State)
    requires SInv(p, sort, s) && s.r.done
    ensures s.r.recv == |s.t.log|
    ensures multiset(s.r.yielded) == AllReports(p, Total(p))
    ensures var (blocks, order) := (Blocks(s.t.log), Released(s.t.log, s.r.k));
            && NoDup(order) && Covers(order, blocks)
            && Cat(blocks, order) <= s.r.yielded && Sorted(s.r.yielded[|Cat(blocks, order)|..])
    ensures sort ==> s.r.k.id == |p.pkgs|
    ensures forall i: nat :: i in Blocks(s.t.log) <==> i < |p.pkgs|
  {
    var k := s.r.k;
    assert s.t.log[..s.r.recv] == s.t.log;
    AllProcessed(p, s.t);
    OrderCovers(s.t.log);
    TargetsDrained(s.t.log, k);
    if sort { SortedFinished(s.t.log, k, |p.pkgs|); }
    AllOfEmpty(k.ids);
    BagDrained(s.t.log, k, s.r.yielded);
    assert s.r.yielded + k.reports == s.r.yielded;
  }

  lemma SortedFinished(log: seq<Item>, k: Consumer, n: nat)
    requires MirrorIds(log, k) && k.sort && k.id !in k.ids
    requires forall i: nat :: i in Blocks(log) <==> i < n
    ensures k.id == n && k.ids == map[]
    ensures NoDup(Upto(k.id)) && Covers(Upto(k.id), Blocks(log))
  {
    assert k.id !in Blocks(log);
    assert n < k.id ==> n in Blocks(log);
    assert forall i: nat :: i !in k.ids;
    forall i: nat ensures i in Upto(n) <==> i < n {
      if i < n { assert Upto(n)[i] == i; }
    }
  }

  /** With scoped checks the blocks are the packages' own reports. */
  lemma BlocksAreOwn(p: Plan, t: Threads)
    requires Inv(p, t) && AllLeft(p, t) && Scoped(p)
    ensures Blocks(t.log) == PkgBlocks(p)
  {
    AllSent(p, t);
    AllProcessed(p, t);
    AllOwn(p, t, Blocks(t.log));
  }

  lemma AllOwn(p: Plan, t: Threads, blocks: map<nat, seq<Report>>)
    requires OwnBlocks(p, t) && blocks == Blocks(t.log)
    requires forall k :: 0 <= k < Total(p) ==> t.sent[k] == |Items(p, k)|
    requires forall i: nat :: i in blocks <==> i < |p.pkgs|
    ensures blocks == PkgBlocks(p)
  {
    forall i: nat | i < |p.pkgs| ensures blocks[i] == PkgBlocks(p)[i] {
      assert OwnBlock(p, t, i);
      BlockIsOwn(p, t, i);
    }
  }

  lemma BlockIsOwn(p: Plan, t: Threads, i: nat)
    requires i < |p.pkgs| && |t.sent| == Total(p) && OwnBlock(p, t, i)
    requires t.sent[|p.checks| + i] == |Items(p, |p.checks| + i)|
    ensures i in Blocks(t.log) && Blocks(t.log)[i] == PkgBlocks(p)[i]
  {
  }

  /** The tail after the blocks is the leftovers, sorted. */
  lemma TailIsLeftovers(p: Plan, out: seq<Report>, order: seq<nat>)
    requires multiset(out) == AllReports(p, Total(p))
    requires NoDup(order) && Covers(order, PkgBlocks(p))
    requires Cat(PkgBlocks(p), order) <= out && Sorted(out[|Cat(PkgBlocks(p), order)|..])
    ensures out == Cat(PkgBlocks(p), order) + Sort(Leftovers(p, Total(p)))
  {
    AllDivision(p, order);
    SortedTail(out, Cat(PkgBlocks(p), order), Leftovers(p, Total(p)));
  }

  lemma SortedTail(out: seq<Report>, head: seq<Report>, left: seq<Report>)
    requires head <= out && Sorted(out[|head|..]) && multiset(out) == multiset(left) + multiset(head)
    ensures out == head + Sort(left)
  {
    TailBag(out, head, left);
    SortLaws(left);
    SortedIsUnique(out[|head|..], Sort(left));
  }

  lemma TailBag(out: seq<Report>, head: seq<Report>, left: seq<Report>)
    requires head <= out && multiset(out) == multiset(left) + multiset(head)
    ensures multiset(out[|head|..]) == multiset(left)
  {
    assert out == head + out[|head|..];
    Cancel(multiset(head), multiset(out[|head|..]), multiset(left));
  }

  lemma AllDivision(p: Plan, order: seq<nat>)
    requires NoDup(order) && Covers(order, PkgBlocks(p))
    ensures AllReports(p, Total(p)) == multiset(Leftovers(p, Total(p))) + multiset(Cat(PkgBlocks(p), order))
  {
    Division(p, Total(p));
    CatIsAll(PkgBlocks(p), order);
    UptoCovers(p);
    CatIsAll(PkgBlocks(p), Upto(|p.pkgs|));
    assert Before(p, Total(p)) == |p.pkgs|;
  }

  lemma Cancel(a: multiset<Report>, b: multiset<Report>, c: multiset<Report>)
    requires a + b == c + a
    ensures b == c
  {
    assert (a + b) - a == b;
    assert (c + a) - a == c;
  }

  lemma UptoCovers(p: Plan)
    ensures NoDup(Upto(|p.pkgs|)) && Covers(Upto(|p.pkgs|), PkgBlocks(p))
  {
    forall i: nat ensures i in Upto(|p.pkgs|) <==> i < |p.pkgs| {
      if i < |p.pkgs| { assert Upto(|p.pkgs|)[i] == i; }
    }
  }

  // ---------------------------------------------------------------- main results: output

  /** In every state of every schedule: what was sent is in the channel, a cache, the queue, or yielded. */
  lemma ReportsAreConserved(p: Plan, sort: bool, schedule: seq<Label>)
    requires p.jobs >= 1 && Exec(p, sort, schedule).Some?
    ensures var s := Exec(p, sort, schedule).value;
            && s.r.recv <= |s.t.log|
            && Bag(s.t.log) == Bag(s.t.log[s.r.recv..]) + multiset(AllOf(s.r.k.targets)) + multiset(AllOf(s.r.k.ids))
                               + multiset(s.r.k.reports) + multiset(s.r.yielded)
  {
    ExecInv(p, sort, schedule);
    var s := Exec(p, sort, schedule).value;
    ConservedSoFar(s.t.log, s.r.recv, s.r.k, s.r.yielded);
  }

  lemma ConservedSoFar(log: seq<Item>, recv: nat, k: Consumer, yielded: seq<Report>)
    requires recv <= |log| && Conserved(log[..recv], k, yielded)
    ensures Bag(log) == Bag(log[recv..]) + multiset(AllOf(k.targets)) + multiset(AllOf(k.ids))
                        + multiset(k.reports) + multiset(yielded)
  {
    BagSplit(log[..recv], log[recv..]);
    assert log[..recv] + log[recv..] == log;
    InFront(Bag(log[recv..]), multiset(AllOf(k.targets)), multiset(AllOf(k.ids)), multiset(k.reports), multiset(yielded));
  }

  lemma InFront<T>(channel: multiset<T>, targets: multiset<T>, ids: multiset<T>, reports: multiset<T>, yielded: multiset<T>)
    ensures (targets + ids + reports + yielded) + channel == channel + targets + ids + reports + yielded
  {
  }

  lemma {:induction false} BagSplit(a: seq<Item>, b: seq<Item>)
    ensures Bag(a + b) == Bag(a) + Bag(b)
  {
    if b == [] {
      assert a + b == a;
    } else {
      var n := |b| - 1;
      InitAppend(a, b);
      BagSplit(a, b[..n]);
      BagAssoc(Bag(a), Bag(b[..n]), BagOf(b[n]));
    }
  }

  /** When `next` returns `None`, every report of every job has been yielded exactly once, sorted or not. */
  lemma EveryReportOnce(p: Plan, sort: bool, schedule: seq<Label>)
    requires p.jobs >= 1 && Exec(p, sort, schedule).Some? && Exec(p, sort, schedule).value.r.done
    ensures multiset(Exec(p, sort, schedule).value.r.yielded) == AllReports(p, Total(p))
  {
    ExecInv(p, sort, schedule);
    Finished(p, sort, Exec(p, sort, schedule).value);
  }

  /** A sorted scan yields each package's sorted reports in package order, then all leftovers sorted. */
  lemma SortedOutput(p: Plan, schedule: seq<Label>)
    requires p.jobs >= 1 && Scoped(p)
    requires Exec(p, true, schedule).Some? && Exec(p, true, schedule).value.r.done
    ensures Exec(p, true, schedule).value.r.yielded == Expected(p)
  {
    ExecInv(p, true, schedule);
    var s := Exec(p, true, schedule).value;
    Finished(p, true, s);
    BlocksAreOwn(p, s.t);
    TailIsLeftovers(p, s.r.yielded, Upto(|p.pkgs|));
  }

  /** Neither the interleaving nor the number of jobs shows in the output of a sorted scan. */
  lemma ScheduleIndependence(p: Plan, q: Plan, a: seq<Label>, b: seq<Label>)
    requires p.jobs >= 1 && q.jobs >= 1 && Scoped(p) && q == p.(jobs := q.jobs)
    requires Exec(p, true, a).Some? && Exec(p, true, a).value.r.done
    requires Exec(q, true, b).Some? && Exec(q, true, b).value.r.done
    ensures Exec(p, true, a).value.r.yielded == Exec(q, true, b).value.r.yielded
  {
    SortedOutput(p, a);
    SameScoped(p, q);
    SortedOutput(q, b);
    SameExpected(p, q);
  }

  lemma SameScoped(p: Plan, q: Plan)
    requires q == p.(jobs := q.jobs) && Scoped(p)
    ensures Scoped(q)
  {
    forall k, i, n | 0 <= k < MainSize(q) && 0 <= i < |q.pkgs| && 0 <= n < |Reports(q, k)|
      ensures Concerns(Reports(q, k)[n].scope, q.pkgs[i].cpn) ==> k == |q.checks| + i
    {
      assert Reports(q, k) == Reports(p, k);
    }
  }

  lemma SameExpected(p: Plan, q: Plan)
    requires q == p.(jobs := q.jobs)
    ensures Expected(p) == Expected(q)
  {
    SameLeftovers(p, q, Total(p));
    SameBlocks(p, q);
    assert Cat(PkgBlocks(p), Upto(|p.pkgs|)) == Cat(PkgBlocks(q), Upto(|q.pkgs|));
    assert Total(q) == Total(p) && Sort(Leftovers(p, Total(p))) == Sort(Leftovers(q, Total(q)));
  }

  lemma SameBlocks(p: Plan, q: Plan)
    requires q == p.(jobs := q.jobs)
    ensures PkgBlocks(p) == PkgBlocks(q)
  {
    forall i: nat | i < |p.pkgs| ensures PkgBlocks(p)[i] == PkgBlocks(q)[i] {
      assert p.pkgs[i] == q.pkgs[i];
    }
  }

  lemma {:induction false} SameLeftovers(p: Plan, q: Plan, n: nat)
    requires q == p.(jobs := q.jobs) && n <= Total(p)
    ensures Leftovers(p, n) == Leftovers(q, n)
  {
    if n > 0 {
      SameLeftovers(p, q, n - 1);
      SameRest(p, q, n - 1);
    }
  }

  lemma SameRest(p: Plan, q: Plan, k: nat)
    requires q == p.(jobs := q.jobs) && k < Total(p)
    ensures Rest(p, k) == Rest(q, k)
  {
    assert Reports(p, k) == Reports(q, k);
  }

  /**
   An unsorted scan yields every package's main-phase reports as one contiguous sorted block, the
   blocks in the order the packages were finished, then all leftovers sorted.
   */
  lemma UnsortedOutput(p: Plan, schedule: seq<Label>) returns (order: seq<nat>)
    requires p.jobs >= 1 && Scoped(p)
    requires Exec(p, false, schedule).Some? && Exec(p, false, schedule).value.r.done
    ensures order == Order(Exec(p, false, schedule).value.t.log)
    ensures NoDup(order) && Covers(order, PkgBlocks(p))
    ensures Exec(p, false, schedule).value.r.yielded == Cat(PkgBlocks(p), order) + Sort(Leftovers(p, Total(p)))
  {
    ExecInv(p, false, schedule);
    var s := Exec(p, false, schedule).value;
    Finished(p, false, s);
    BlocksAreOwn(p, s.t);
    order := Order(s.t.log);
    TailIsLeftovers(p, s.r.yielded, order);
  }

  // ---------------------------------------------------------------- main results: calls

  /** On every schedule, no finish-phase call begins before every main-phase call has returned. */
  lemma PhaseBarrier(p: Plan, sort: bool, schedule: seq<Label>, i: nat, j: nat)
    requires p.jobs >= 1 && Exec(p, sort, schedule).Some?
    requires var events := Exec(p, sort, schedule).value.t.events;
             i < |events| && events[i].Begin? && MainSize(p) <= events[i].job && j < MainSize(p)
    ensures var events := Exec(p, sort, schedule).value.t.events;
            exists e :: 0 <= e < i && events[e].End? && events[e].job == j
  {
    ExecInv(p, sort, schedule);
    var events := Exec(p, sort, schedule).value.t.events;
    LegalMeans(p, events, i);
    assert Ends(events[..i], j);
    var e :| 0 <= e < i && events[..i][e].End? && events[..i][e].job == j;
    assert events[e].End?;
  }

  /** On every schedule, a job is begun at most once, and ended at most once on the worker that began it. */
  lemma RunsAtMostOnce(p: Plan, sort: bool, schedule: seq<Label>, i: nat, j: nat)
    requires p.jobs >= 1 && Exec(p, sort, schedule).Some?
    requires var events := Exec(p, sort, schedule).value.t.events;
             i < j < |events| && events[i].job == events[j].job
    ensures var events := Exec(p, sort, schedule).value.t.events;
            && events[i].Begin? && events[j].End? && events[i].worker == events[j].worker
            && forall n :: 0 <= n < |events| && events[n].job == events[i].job ==> n == i || n == j
  {
    ExecInv(p, sort, schedule);
    var events := Exec(p, sort, schedule).value.t.events;
    LegalMeans(p, events, i);
    LegalMeans(p, events, j);
    var b :| 0 <= b < j && events[..j][b] == Begin(events[j].worker, events[j].job);
    assert events[b] == Begin(events[j].worker, events[j].job);
    LegalMeans(p, events, b);
    assert events[b].job == events[i].job;
    assert b == i;
    forall n | 0 <= n < |events| && events[n].job == events[i].job ensures n == i || n == j {
      LegalMeans(p, events, n);
    }
  }

  /** By the time `next` returns `None`, every job has been run to its end. */
  lemma EveryJobRuns(p: Plan, sort: bool, schedule: seq<Label>, k: nat)
    requires p.jobs >= 1 && Exec(p, sort, schedule).Some? && Exec(p, sort, schedule).value.r.done
    requires k < Total(p)
    ensures Ends(Exec(p, sort, schedule).value.t.events, k)
  {
    ExecInv(p, sort, schedule);
    var t := Exec(p, sort, schedule).value.t;
    assert Left(p, t, p.jobs);
    forall w | 0 <= w < |t.workers| ensures Ended(t.workers[w]) {
      assert Left(p, t, w);
    }
    assert !InMain(p, t.workers[0]);
    assert Taken(t) == Total(p) && !Held(t, k);
  }
}
