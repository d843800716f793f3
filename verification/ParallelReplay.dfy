/**
 The class `OrderedIter` and the step system of `ParallelMap` agree: collecting the iterator over the
 results the workers sent on a finished schedule returns what the step system returned.
 */
module ParallelReplay {
  import opened Wrappers
  import opened ParallelMap

  /** Everything repeated calls of `next` return when the channel delivers `rx` and then disconnects. */
  ghost function Drain<R>(k: Consumer<R>, rx: seq<(nat, R)>): seq<R>
    decreases |rx|, |k.cache.Keys|
  {
    if k.id in k.cache then
      Fewer(k);
      [k.cache[k.id]] + Drain(Returned(k), rx)
    else if rx != [] then Drain(Received(k, rx[0]), rx[1..])
    else []
  }

  lemma Fewer<R>(k: Consumer<R>)
    requires k.id in k.cache
    ensures |Returned(k).cache.Keys| < |k.cache.Keys|
  {
    assert k.cache.Keys == Returned(k).cache.Keys + {k.id};
  }

  /** One call of `next` takes the head off what is to come. */
  lemma {:induction false} DrainNext<R>(k: Consumer<R>, rx: seq<(nat, R)>)
    ensures var (k', rx', r) := NextFrom(k, rx);
            && Drain(k, rx) == (if r.None? then [] else [r.value] + Drain(k', rx'))
            && (r.Some? ==> |rx'| < |rx| || (rx' == rx && |k'.cache.Keys| < |k.cache.Keys|))
    decreases |rx|
  {
    if k.id in k.cache {
      Fewer(k);
    } else if rx != [] {
      DrainNext(Received(k, rx[0]), rx[1..]);
    }
  }

  /** `iter.collect()`: calls `next` until it returns `None`. */
  method Collect<R>(iter: OrderedIter<R>) returns (all: seq<R>)
    modifies iter
    ensures all == Drain(old(iter.View()), old(iter.rx))
  {
    all := [];
    while true
      invariant all + Drain(iter.View(), iter.rx) == Drain(old(iter.View()), old(iter.rx))
      decreases |iter.rx|, |iter.View().cache.Keys|
    {
      DrainNext(iter.View(), iter.rx);
      var r := iter.Next();
      if r.None? { return; }
      all := all + [r.value];
    }
  }

  /** Everything the workers send along a schedule, in order. */
  ghost function Sent<T, R>(c: Config<T, R>, schedule: seq<Label>): seq<(nat, R)> {
    if schedule == [] then [] else
      var n := |schedule| - 1;
      Sent(c, schedule[..n]) + SentBy(c, Exec(c, schedule[..n]), schedule[n])
  }

  ghost function SentBy<T, R>(c: Config<T, R>, s: Option<State<T, R>>, l: Label): seq<(nat, R)> {
    if s.Some? && l.Work? && l.s.Put? && l.w < |s.value.workers| && s.value.workers[l.w].Holding?
    then [(s.value.workers[l.w].id, c.f(s.value.workers[l.w].item))] else []
  }

  /** What was sent is what was received, in order, and then what is in the channel. */
  ghost predicate InStep<R>(sent: seq<(nat, R)>, output: seq<(nat, R)>) {
    |output| <= |sent| && sent[|sent| - |output|..] == output
  }

  /** At any time, what was returned and what the rest of the results will give make up the whole. */
  ghost predicate Accounts<T, R>(s: State<T, R>, sent: seq<(nat, R)>, log: seq<(nat, R)>) {
    && InStep(sent, s.output) && sent <= log
    && Drain(Consumer(0, map[]), log) == s.returned + Drain(s.k, log[|sent| - |s.output|..])
  }

  lemma {:induction false} Replays<T, R>(c: Config<T, R>, schedule: seq<Label>, log: seq<(nat, R)>)
    requires Exec(c, schedule).Some? && Sent(c, schedule) <= log
    ensures Accounts(Exec(c, schedule).value, Sent(c, schedule), log)
  {
    if schedule == [] {
      assert log[0..] == log;
    } else {
      var n := |schedule| - 1;
      Replays(c, schedule[..n], log);
      StepReplays(c, Exec(c, schedule[..n]).value, schedule[n], Sent(c, schedule[..n]), log);
    }
  }

  lemma StepReplays<T, R>(c: Config<T, R>, s: State<T, R>, l: Label, sent: seq<(nat, R)>, log: seq<(nat, R)>)
    requires Accounts(s, sent, log) && Step(c, s, l).Some? && sent + SentBy(c, Some(s), l) <= log
    ensures Accounts(Step(c, s, l).value, sent + SentBy(c, Some(s), l), log)
  {
    match l
    case Produce(_) => assert sent + [] == sent;
    case Work(w, m) => WorkReplays(c, s, w, m, sent, log);
    case Consume(m) =>
      assert sent + [] == sent;
      ConsumeReplays(s, m, sent, log);
  }

  lemma WorkReplays<T, R>(c: Config<T, R>, s: State<T, R>, w: nat, m: WorkerStep, sent: seq<(nat, R)>, log: seq<(nat, R)>)
    requires Accounts(s, sent, log) && WorkStep(c, s, w, m).Some? && sent + SentBy(c, Some(s), Work(w, m)) <= log
    ensures Accounts(WorkStep(c, s, w, m).value, sent + SentBy(c, Some(s), Work(w, m)), log)
  {
    WorkSends(c, s, w, m);
    SendReplays(s.output, sent, SentBy(c, Some(s), Work(w, m)));
  }

  /** A worker's step touches nothing of the consumer, and the channel only by what it sends. */
  lemma WorkSends<T, R>(c: Config<T, R>, s: State<T, R>, w: nat, m: WorkerStep)
    requires WorkStep(c, s, w, m).Some?
    ensures var t := WorkStep(c, s, w, m).value;
            t.k == s.k && t.returned == s.returned && t.output == s.output + SentBy(c, Some(s), Work(w, m))
  {
  }

  lemma SendReplays<R>(output: seq<(nat, R)>, sent: seq<(nat, R)>, more: seq<(nat, R)>)
    requires InStep(sent, output)
    ensures InStep(sent + more, output + more) && |sent + more| - |output + more| == |sent| - |output|
  {
    var at := |sent| - |output|;
    assert (sent + more)[at..] == sent[at..] + more;
  }

  lemma ConsumeReplays<T, R>(s: State<T, R>, l: ConsumerStep, sent: seq<(nat, R)>, log: seq<(nat, R)>)
    requires Accounts(s, sent, log) && ConsumeStep(s, l).Some?
    ensures Accounts(ConsumeStep(s, l).value, sent, log)
  {
    var at := |sent| - |s.output|;
    match l
    case Return => Assoc(s.returned, [s.k.cache[s.k.id]], Drain(Returned(s.k), log[at..]));
    case Receive =>
      assert log[at] == sent[at] == sent[at..][0] == s.output[0];
      assert log[at..][1..] == log[at + 1..] && sent[at..][1..] == sent[at + 1..];
    case Finish =>
  }

  /**
   Collecting `OrderedIter` over the results sent on a finished schedule returns exactly what the step
   system returned, which is the function mapped over the input.
   */
  lemma IteratorAgrees<T, R>(c: Config<T, R>, schedule: seq<Label>)
    requires c.jobs >= 1 && Exec(c, schedule).Some? && Exec(c, schedule).value.done
    ensures Drain(Consumer(0, map[]), Sent(c, schedule)) == Exec(c, schedule).value.returned == MapSeq(c.f, c.xs)
  {
    var s, sent := Exec(c, schedule).value, Sent(c, schedule);
    Replays(c, schedule, sent);
    ExhaustionIsComplete(c, schedule);
    Exhausted(c, schedule);
    assert sent[|sent|..] == [];
    assert Drain(s.k, []) == [];
  }

  /** Once `next` has returned `None`, channel and cache have nothing for it. */
  lemma {:induction false} Exhausted<T, R>(c: Config<T, R>, schedule: seq<Label>)
    requires Exec(c, schedule).Some? && Exec(c, schedule).value.done
    ensures var s := Exec(c, schedule).value; s.output == [] && s.k.id !in s.k.cache && AllEnded(s.workers)
  {
    if schedule != [] {
      var n := |schedule| - 1;
      if Exec(c, schedule[..n]).value.done { Exhausted(c, schedule[..n]); }
    }
  }
}
