/**
 The class `ReportIter` and the step system agree: collecting the iterator over the items a completed
 scan sent returns what the scan yielded, and no finish notice names an unknown thread.
 */
module ScanReplay {
  import opened Wrappers
  import opened ReportOrder
  import opened ScanConsumer
  import opened ScanThreads
  import opened ScanHistory
  import opened ScanPipeline
  import opened ScanResults

  /** Everything repeated calls of `next` return when the channel delivers `rx` and then disconnects. */
  ghost function Drain(k: Consumer, rx: seq<Item>): seq<Report>
    decreases |rx|, |k.ids.Keys|, |k.reports|
  {
    if MustSkip(k) then Drain(Settled(k), rx)
    else if MustReceive(k) then
      if rx == [] then [] else Drain(Received(k, rx[0]), rx[1..])
    else [Settled(k).reports[0]] + Drain(Popped(Settled(k)), rx)
  }

  /** One call of `next` takes the head off what is to come. */
  lemma {:induction false} DrainNext(k: Consumer, rx: seq<Item>)
    ensures var (k', rx', r) := NextFrom(k, rx);
            && Drain(k, rx) == (if r.None? then [] else [r.value] + Drain(k', rx'))
            && (r.None? ==> rx' == [] && MustReceive(k'))
    ensures var (k', rx', r) := NextFrom(k, rx);
            r.Some? ==> |rx'| < |rx| || (rx' == rx && |k'.ids.Keys| <= |k.ids.Keys|
                        && (|k'.ids.Keys| < |k.ids.Keys| || |k'.reports| < |k.reports|))
    decreases |rx|, |k.ids.Keys|
  {
    if MustSkip(k) {
      DrainNext(Settled(k), rx);
    } else if MustReceive(k) {
      if rx != [] { DrainNext(Received(k, rx[0]), rx[1..]); }
    } else if Ready(k) {
      assert k.ids.Keys == (k.ids - {k.id}).Keys + {k.id};
    }
  }

  /** `scan.collect()`: calls `next` until it returns `None`. */
  method Collect(iter: ReportIter) returns (all: seq<Report>)
    requires KnownThreads(iter.rx, iter.threads)
    modifies iter
    ensures all == Drain(old(iter.View()), old(iter.rx))
  {
    all := [];
    while true
      invariant KnownThreads(iter.rx, iter.threads)
      invariant all + Drain(iter.View(), iter.rx) == Drain(old(iter.View()), old(iter.rx))
      decreases |iter.rx|, |iter.View().ids.Keys|, |iter.View().reports|
    {
      DrainNext(iter.View(), iter.rx);
      var r := iter.Next();
      if r.None? { return; }
      all := all + [r.value];
    }
  }

  /** The consumer as it will be once a pending join is over. */
  ghost function Current(r: Reader): Consumer {
    if r.joining.Some? then Joined(r.k, r.joining.value) else r.k
  }

  /** At any time, what has been yielded and what the rest of the log will yield make up the whole. */
  lemma {:induction false} Replays(p: Plan, sort: bool, schedule: seq<Label>, log: seq<Item>)
    requires p.jobs >= 1 && Exec(p, sort, schedule).Some? && Exec(p, sort, schedule).value.t.log <= log
    ensures var r := Exec(p, sort, schedule).value.r;
            && r.recv <= |log|
            && Drain(Init(p, sort).r.k, log) == r.yielded + Drain(Current(r), log[r.recv..])
  {
    ExecInv(p, sort, schedule);
    if schedule == [] {
      assert log[0..] == log;
    } else {
      var before, l := schedule[..|schedule| - 1], schedule[|schedule| - 1];
      ExecInv(p, sort, before);
      var s := Exec(p, sort, before).value;
      LogGrows(p, s, l);
      Replays(p, sort, before, log);
      StepReplays(p, s, l, log);
    }
  }

  lemma StepReplays(p: Plan, s: State, l: Label, log: seq<Item>)
    requires s.r.recv <= |s.t.log| && s.t.log <= log && Step(p, s, l).Some?
    ensures var (r, r') := (s.r, Step(p, s, l).value.r);
            && r'.recv <= |log|
            && r.yielded + Drain(Current(r), log[r.recv..]) == r'.yielded + Drain(Current(r'), log[r'.recv..])
  {
    if l.Read? { ReaderReplays(s.t, s.r, l.r, log); }
  }

  lemma LogGrows(p: Plan, s: State, l: Label)
    requires Control(p, s.t) && Step(p, s, l).Some?
    ensures s.t.log <= Step(p, s, l).value.t.log
  {
    var room := |s.t.log| - s.r.recv < p.jobs;
    match l
    case Produce(m) => ProducerAppends(p, s.t, room, m);
    case Work(w, m) => WorkerAppends(p, s.t, room, w, m);
    case Read(_) =>
  }

  lemma ReaderReplays(t: Threads, r: Reader, l: RStep, log: seq<Item>)
    requires r.recv <= |t.log| && t.log <= log && ReaderStep(t, r, l).Some?
    ensures var r' := ReaderStep(t, r, l).value;
            && r'.recv <= |log|
            && r.yielded + Drain(Current(r), log[r.recv..]) == r'.yielded + Drain(Current(r'), log[r'.recv..])
  {
    if l.Receive? {
      assert log[r.recv] == t.log[r.recv];
      assert log[r.recv..][1..] == log[r.recv + 1..];
    } else if l.Yield? {
      var head := Settled(r.k).reports[0];
      assert r.yielded + ([head] + Drain(Popped(Settled(r.k)), log[r.recv..]))
          == r.yielded + [head] + Drain(Popped(Settled(r.k)), log[r.recv..]);
    }
  }

  lemma {:induction false} NoticesAreKnown(log: seq<Item>, threads: set<nat>)
    requires forall i :: 0 <= i < |log| && log[i].Finish? ==> log[i].thread in threads
    requires forall i, j :: 0 <= i < j < |log| && log[i].Finish? ==> log[i] != log[j]
    ensures KnownThreads(log, threads)
    decreases |log|
  {
    if log != [] {
      var left := if log[0].Finish? then threads - {log[0].thread} else threads;
      forall i | 0 <= i < |log[1..]| && log[1..][i].Finish? ensures log[1..][i].thread in left {
        assert log[0].Finish? ==> log[0] != log[i + 1];
      }
      NoticesAreKnown(log[1..], left);
    }
  }

  /**
   Collecting `ReportIter` over the items sent in a completed scan never meets an unknown thread and
   returns exactly what the scan yielded.
   */
  lemma IteratorAgrees(p: Plan, sort: bool, schedule: seq<Label>)
    requires p.jobs >= 1 && Exec(p, sort, schedule).Some? && Exec(p, sort, schedule).value.r.done
    ensures var s := Exec(p, sort, schedule).value;
            && KnownThreads(s.t.log, ThreadIds(p.jobs))
            && Drain(Consumer(ThreadIds(p.jobs), 0, sort, map[], map[], []), s.t.log) == s.r.yielded
  {
    ExecInv(p, sort, schedule);
    var s := Exec(p, sort, schedule).value;
    Finished(p, sort, s);
    Replays(p, sort, schedule, s.t.log);
    assert s.t.log[s.r.recv..] == [];
    assert Drain(s.r.k, []) == [];
    forall i | 0 <= i < |s.t.log| && s.t.log[i].Finish? ensures s.t.log[i].thread in ThreadIds(p.jobs) {
      assert Finish(s.t.log[i].thread) in s.t.log;
    }
    NoticesAreKnown(s.t.log, ThreadIds(p.jobs));
  }
}
