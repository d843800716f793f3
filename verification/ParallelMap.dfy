/**
 The order-preserving parallel map of `crates/pkgcraft/src/traits.rs`.

 One producer thread enumerates the input into a bounded channel, `jobs` worker threads apply the
 function and send `(id, value)` pairs into a second bounded channel, and the iterator reorders
 what it receives through a cache keyed by id.  The threads are a labelled step system: a schedule
 is a sequence of labels, and every statement below quantifies over all schedules.  The consumer
 steps are those of the class `OrderedIter`, whose `Next` is the source's loop.
 */
module ParallelMap {
  import opened Wrappers

  // ---------------------------------------------------------------- the consumer

  /** The fields of `ParallelMapOrderedIter` that `next` updates. */
  datatype Consumer<R> = Consumer(id: nat, cache: map<nat, R>)

  ghost function Returned<R>(k: Consumer<R>): Consumer<R> {
    Consumer(k.id + 1, k.cache - {k.id})
  }

  ghost function Received<R>(k: Consumer<R>, item: (nat, R)): Consumer<R> {
    Consumer(k.id, k.cache[item.0 := item.1])
  }

  /** What one call of `next` does when the channel delivers `rx` and then disconnects. */
  ghost function NextFrom<R>(k: Consumer<R>, rx: seq<(nat, R)>): (Consumer<R>, seq<(nat, R)>, Option<R>)
    decreases |rx|
  {
    if k.id in k.cache then (Returned(k), rx, Some(k.cache[k.id]))
    else if rx != [] then NextFrom(Received(k, rx[0]), rx[1..])
    else (k, rx, None)
  }

  class OrderedIter<R> {
    var rx: seq<(nat, R)>   // what the channel will still deliver before it disconnects
    var id: nat
    var cache: map<nat, R>

    ghost function View(): Consumer<R>
      reads this
    {
      Consumer(id, cache)
    }

    constructor (rx: seq<(nat, R)>)
      ensures View() == Consumer(0, map[]) && this.rx == rx
    {
      this.rx, id, cache := rx, 0, map[];
    }

    method Next() returns (r: Option<R>)
      modifies this
      ensures (View(), rx, r) == NextFrom(old(View()), old(rx))
    {
      while true
        invariant NextFrom(View(), rx) == NextFrom(old(View()), old(rx))
        decreases |rx|
      {
        if id in cache {
          r := Some(cache[id]);
          cache, id := cache - {id}, id + 1;
          return;
        } else if rx != [] {
          cache, rx := cache[rx[0].0 := rx[0].1], rx[1..];
        } else {
          return None;
        }
      }
    }
  }

  ghost predicate Faithful<R>(q: seq<(nat, R)>, vals: seq<R>) {
    forall i :: 0 <= i < |q| ==> q[i].0 < |vals| && q[i].1 == vals[q[i].0]
  }

  ghost predicate CacheFaithful<R>(cache: map<nat, R>, vals: seq<R>) {
    forall j :: j in cache ==> j < |vals| && cache[j] == vals[j]
  }

  /** Cache and channel between them hold the values of ids `k.id .. |vals|`, each exactly once. */
  ghost predicate Delivers<R>(k: Consumer<R>, rx: seq<(nat, R)>, vals: seq<R>) {
    && k.id <= |vals|
    && Faithful(rx, vals) && CacheFaithful(k.cache, vals)
    && forall j: nat :: Count(rx, j) + Cached(k, j) == if k.id <= j < |vals| then 1 else 0
  }

  /** Whatever order the channel delivers in, `next` returns the values in id order, then `None`. */
  lemma {:induction false} NextIsInOrder<R>(k: Consumer<R>, rx: seq<(nat, R)>, vals: seq<R>)
    requires Delivers(k, rx, vals)
    ensures var (k', rx', r) := NextFrom(k, rx);
            && Delivers(k', rx', vals)
            && (k.id < |vals| ==> r == Some(vals[k.id]) && k'.id == k.id + 1)
            && (k.id == |vals| ==> r == None && k'.id == k.id)
    decreases |rx|
  {
    assert Count(rx, k.id) + Cached(k, k.id) == if k.id < |vals| then 1 else 0;
    if k.id !in k.cache && rx != [] {
      var k' := Received(k, rx[0]);
      assert Count(rx, rx[0].0) + Cached(k, rx[0].0) <= 1;
      forall j: nat ensures Count(rx[1..], j) + Cached(k', j) == Count(rx, j) + Cached(k, j) {
      }
      NextIsInOrder(k', rx[1..], vals);
    }
  }

  // ---------------------------------------------------------------- the threads

  /** Input, function and thread count; `jobs` is both the worker count and each channel's capacity. */
  datatype Config<!T, !R> = Config(xs: seq<T>, f: T -> R, jobs: nat)

  /** A worker waits on the input channel, holds an item it took, or has left its loop. */
  datatype Worker<T> = Idle | Holding(id: nat, item: T) | Ended

  datatype State<T, R> = State(
    pulled: nat,             // items the producer has taken from the input iterator
    hand: bool,              // the producer holds item `pulled - 1` and is about to send it
    closed: bool,            // the producer has ended, dropping its sender
    input: seq<(nat, T)>,    // bounded channel producer -> workers
    workers: seq<Worker<T>>,
    output: seq<(nat, R)>,   // bounded channel workers -> consumer
    k: Consumer<R>,
    returned: seq<R>,        // values handed to the caller so far
    done: bool)              // `next` has returned `None`

  datatype Label = Produce(p: ProducerStep) | Work(w: nat, s: WorkerStep) | Consume(c: ConsumerStep)
  datatype ProducerStep = Pull | Send | Close
  datatype WorkerStep = Take | Put | End
  datatype ConsumerStep = Return | Receive | Finish

  ghost function Init<T, R>(c: Config<T, R>): State<T, R> {
    State(0, false, false, [], seq(c.jobs, _ => Idle), [], Consumer(0, map[]), [], false)
  }

  ghost function ProduceStep<T, R>(c: Config<T, R>, s: State<T, R>, p: ProducerStep): Option<State<T, R>> {
    match p
    case Pull =>
      if !s.closed && !s.hand && s.pulled < |c.xs| then Some(s.(pulled := s.pulled + 1, hand := true)) else None
    case Send =>
      if s.hand && 0 < s.pulled <= |c.xs| && |s.input| < c.jobs
      then Some(s.(hand := false, input := s.input + [(s.pulled - 1, c.xs[s.pulled - 1])])) else None
    case Close =>
      if !s.closed && !s.hand && s.pulled == |c.xs| then Some(s.(closed := true)) else None
  }

  ghost function WorkStep<T, R>(c: Config<T, R>, s: State<T, R>, w: nat, l: WorkerStep): Option<State<T, R>> {
    if w >= |s.workers| then None else
      match (l, s.workers[w])
      case (Take, Idle) =>
        if s.input == [] then None else
          Some(s.(workers := s.workers[w := Holding(s.input[0].0, s.input[0].1)], input := s.input[1..]))
      case (Put, Holding(id, item)) =>
        if |s.output| >= c.jobs then None else
          Some(s.(workers := s.workers[w := Idle], output := s.output + [(id, c.f(item))]))
      case (End, Idle) =>
        if s.input == [] && s.closed then Some(s.(workers := s.workers[w := Ended])) else None
      case _ => None
  }

  ghost function ConsumeStep<T, R>(s: State<T, R>, l: ConsumerStep): Option<State<T, R>> {
    if s.done then None else
      match l
      case Return =>
        if s.k.id in s.k.cache
        then Some(s.(returned := s.returned + [s.k.cache[s.k.id]], k := Returned(s.k))) else None
      case Receive =>
        if s.k.id !in s.k.cache && s.output != []
        then Some(s.(k := Received(s.k, s.output[0]), output := s.output[1..])) else None
      case Finish =>
        // disconnected once every worker has ended; joining the threads also waits for the producer
        if s.k.id !in s.k.cache && s.output == [] && AllEnded(s.workers) && s.closed
        then Some(s.(done := true)) else None
  }

  ghost predicate AllEnded<T>(ws: seq<Worker<T>>) {
    forall w :: 0 <= w < |ws| ==> ws[w].Ended?
  }

  /** One atomic step of one thread; `None` when that thread is blocked or not at that point. */
  ghost function Step<T, R>(c: Config<T, R>, s: State<T, R>, l: Label): Option<State<T, R>> {
    match l
    case Produce(p) => ProduceStep(c, s, p)
    case Work(w, m) => WorkStep(c, s, w, m)
    case Consume(m) => ConsumeStep(s, m)
  }

  /** The state after a whole schedule, if every step of it was enabled. */
  ghost function Exec<T, R>(c: Config<T, R>, schedule: seq<Label>): Option<State<T, R>> {
    if schedule == [] then Some(Init(c)) else
      var prev := Exec(c, schedule[..|schedule| - 1]);
      if prev.None? then None else Step(c, prev.value, schedule[|schedule| - 1])
  }

  /** The sequential reference: the function applied to each input in order. */
  ghost function MapSeq<T, R>(f: T -> R, xs: seq<T>): (r: seq<R>)
    ensures |r| == |xs|
    ensures forall i :: 0 <= i < |xs| ==> r[i] == f(xs[i])
  {
    if xs == [] then [] else [f(xs[0])] + MapSeq(f, xs[1..])
  }

  // ---------------------------------------------------------------- where every id is

  /** How often id `j` occurs in a channel. */
  ghost function Count<A>(q: seq<(nat, A)>, j: nat): nat {
    if q == [] then 0 else (if q[0].0 == j then 1 else 0) + Count(q[1..], j)
  }

  ghost function Held<T>(w: Worker<T>, j: nat): nat {
    if w.Holding? && w.id == j then 1 else 0
  }

  ghost function HeldBy<T>(ws: seq<Worker<T>>, j: nat): nat {
    if ws == [] then 0 else Held(ws[0], j) + HeldBy(ws[1..], j)
  }

  ghost function Cached<R>(k: Consumer<R>, j: nat): nat {
    if j in k.cache then 1 else 0
  }

  ghost function InHand<T, R>(s: State<T, R>, j: nat): nat {
    if s.hand && s.pulled == j + 1 then 1 else 0
  }

  /** In how many places id `j` is: the producer's hand, the channels, the workers and the cache. */
  ghost function Places<T, R>(s: State<T, R>, j: nat): nat {
    InHand(s, j) + Count(s.input, j) + HeldBy(s.workers, j) + Count(s.output, j) + Cached(s.k, j)
  }

  /** How many workers hold an item. */
  ghost function Busy<T>(ws: seq<Worker<T>>): nat {
    if ws == [] then 0 else (if ws[0].Holding? then 1 else 0) + Busy(ws[1..])
  }

  lemma {:induction false} CountAppend<A>(q: seq<(nat, A)>, p: (nat, A), j: nat)
    ensures Count(q + [p], j) == Count(q, j) + (if p.0 == j then 1 else 0)
  {
    if q == [] {
      assert q + [p] == [p];
    } else {
      assert (q + [p])[1..] == q[1..] + [p];
      CountAppend(q[1..], p, j);
    }
  }

  lemma {:induction false} HeldUpdate<T>(ws: seq<Worker<T>>, i: nat, w: Worker<T>, j: nat)
    requires i < |ws|
    ensures HeldBy(ws[i := w], j) + Held(ws[i], j) == HeldBy(ws, j) + Held(w, j)
  {
    if i > 0 {
      assert ws[i := w][1..] == ws[1..][i - 1 := w];
      HeldUpdate(ws[1..], i - 1, w, j);
    } else {
      assert ws[i := w][1..] == ws[1..];
    }
  }

  lemma {:induction false} BusyUpdate<T>(ws: seq<Worker<T>>, i: nat, w: Worker<T>)
    requires i < |ws|
    ensures Busy(ws[i := w]) + (if ws[i].Holding? then 1 else 0) == Busy(ws) + (if w.Holding? then 1 else 0)
  {
    if i > 0 {
      assert ws[i := w][1..] == ws[1..][i - 1 := w];
      BusyUpdate(ws[1..], i - 1, w);
    } else {
      assert ws[i := w][1..] == ws[1..];
    }
  }

  lemma {:induction false} NoneHeld<T>(ws: seq<Worker<T>>, j: nat)
    requires forall i :: 0 <= i < |ws| ==> !ws[i].Holding?
    ensures HeldBy(ws, j) == 0 && Busy(ws) == 0
  {
    if ws != [] { NoneHeld(ws[1..], j); }
  }

  lemma {:induction false} BusyBound<T>(ws: seq<Worker<T>>)
    ensures Busy(ws) <= |ws|
  {
    if ws != [] { BusyBound(ws[1..]); }
  }

  // ---------------------------------------------------------------- invariant

  ghost predicate Shape<T, R>(c: Config<T, R>, s: State<T, R>) {
    && |s.workers| == c.jobs
    && s.pulled <= |c.xs| && s.k.id <= s.pulled
    && (s.hand ==> 0 < s.pulled)
    && (s.closed ==> !s.hand && s.pulled == |c.xs|)
    && |s.input| <= c.jobs && |s.output| <= c.jobs
    && (forall w :: 0 <= w < |s.workers| && s.workers[w].Ended? ==> s.closed && s.input == [])
    && (s.done ==> s.k.id == |c.xs|)
  }

  ghost predicate Values<T, R>(c: Config<T, R>, s: State<T, R>) {
    var vals := MapSeq(c.f, c.xs);
    && Faithful(s.input, c.xs) && Faithful(s.output, vals) && CacheFaithful(s.k.cache, vals)
    && (forall w :: 0 <= w < |s.workers| && s.workers[w].Holding? ==>
                      s.workers[w].id < |c.xs| && s.workers[w].item == c.xs[s.workers[w].id])
    && s.k.id <= |c.xs| && s.returned == vals[..s.k.id]
  }

  /** Every id pulled and not returned is in one place, every other id in none. */
  ghost predicate OnePlace<T, R>(s: State<T, R>) {
    forall j: nat :: Places(s, j) == if s.k.id <= j < s.pulled then 1 else 0
  }

  ghost predicate Sizes<T, R>(s: State<T, R>) {
    (if s.hand then 1 else 0) + |s.input| + Busy(s.workers) + |s.output| + |s.k.cache| == s.pulled - s.k.id
  }

  ghost predicate Inv<T, R>(c: Config<T, R>, s: State<T, R>) {
    Shape(c, s) && Values(c, s) && OnePlace(s) && Sizes(s)
  }

  /** The producer moves an id in from the input, then from its hand to the channel. */
  lemma ProduceInv<T, R>(c: Config<T, R>, s: State<T, R>, p: ProducerStep)
    requires Inv(c, s) && ProduceStep(c, s, p).Some?
    ensures Inv(c, ProduceStep(c, s, p).value)
  {
    ProducePlaces(c, s, p);
  }

  lemma ProducePlaces<T, R>(c: Config<T, R>, s: State<T, R>, p: ProducerStep)
    requires Shape(c, s) && OnePlace(s) && ProduceStep(c, s, p).Some?
    ensures OnePlace(ProduceStep(c, s, p).value)
  {
    var t := ProduceStep(c, s, p).value;
    forall j: nat ensures Places(t, j) == if t.k.id <= j < t.pulled then 1 else 0 {
      assert Places(s, j) == if s.k.id <= j < s.pulled then 1 else 0;
      if p.Send? { CountAppend(s.input, (s.pulled - 1, c.xs[s.pulled - 1]), j); }
    }
  }

  /** A worker moves an id from the input channel to itself, then to the output channel. */
  lemma WorkInv<T, R>(c: Config<T, R>, s: State<T, R>, w: nat, l: WorkerStep)
    requires Inv(c, s) && WorkStep(c, s, w, l).Some?
    ensures Inv(c, WorkStep(c, s, w, l).value)
  {
    var t := WorkStep(c, s, w, l).value;
    forall j: nat ensures Places(t, j) == if t.k.id <= j < t.pulled then 1 else 0 {
      assert Places(s, j) == if s.k.id <= j < s.pulled then 1 else 0;
      HeldUpdate(s.workers, w, t.workers[w], j);
      if l.Put? { CountAppend(s.output, (s.workers[w].id, c.f(s.workers[w].item)), j); }
    }
    BusyUpdate(s.workers, w, t.workers[w]);
  }

  /** The consumer moves an id from the channel to the cache, then out to the caller. */
  lemma ConsumeInv<T, R>(c: Config<T, R>, s: State<T, R>, l: ConsumerStep)
    requires Inv(c, s) && ConsumeStep(s, l).Some? && c.jobs >= 1
    ensures Inv(c, ConsumeStep(s, l).value)
  {
    if l.Finish? {
      QuietIsComplete(c, s);
      assert forall j: nat :: Places(ConsumeStep(s, l).value, j) == Places(s, j);
    } else {
      ConsumePlaces(s, l);
      ConsumeValues(c, s, l);
      CacheSize(s, l);
    }
  }

  lemma ConsumeValues<T, R>(c: Config<T, R>, s: State<T, R>, l: ConsumerStep)
    requires Values(c, s) && s.k.id < |c.xs| && ConsumeStep(s, l).Some? && !l.Finish?
    ensures Values(c, ConsumeStep(s, l).value)
  {
  }

  /** Returning removes one entry from the cache; receiving adds one, for an id not yet cached. */
  lemma CacheSize<T, R>(s: State<T, R>, l: ConsumerStep)
    requires ConsumeStep(s, l).Some? && !l.Finish?
    ensures var t := ConsumeStep(s, l).value;
            |t.k.cache| == if l.Return? then |s.k.cache| - 1
                           else if s.output[0].0 in s.k.cache then |s.k.cache| else |s.k.cache| + 1
  {
    var t := ConsumeStep(s, l).value;
    if l.Return? {
      assert s.k.cache.Keys == t.k.cache.Keys + {s.k.id};
    } else {
      assert t.k.cache.Keys == s.k.cache.Keys + {s.output[0].0};
    }
    assert |s.k.cache.Keys| == |s.k.cache| && |t.k.cache.Keys| == |t.k.cache|;
  }

  lemma ConsumePlaces<T, R>(s: State<T, R>, l: ConsumerStep)
    requires OnePlace(s) && ConsumeStep(s, l).Some? && !l.Finish?
    ensures OnePlace(ConsumeStep(s, l).value)
    ensures l.Receive? ==> s.output[0].0 !in s.k.cache
    ensures l.Return? ==> s.k.id < s.pulled
  {
    var t := ConsumeStep(s, l).value;
    assert l.Return? ==> Places(s, s.k.id) >= 1;
    if l.Receive? {
      assert Places(s, s.output[0].0) <= 1;
    }
    forall j: nat ensures Places(t, j) == if t.k.id <= j < t.pulled then 1 else 0 {
      assert Places(s, j) == if s.k.id <= j < s.pulled then 1 else 0;
    }
  }

  /** When every thread has ended, all that is left is the cache. */
  lemma QuietIsComplete<T, R>(c: Config<T, R>, s: State<T, R>)
    requires Inv(c, s) && s.output == [] && AllEnded(s.workers) && s.closed && c.jobs >= 1
    requires s.k.id !in s.k.cache
    ensures s.k.id == |c.xs|
  {
    NoneHeld(s.workers, s.k.id);
    assert s.workers[0].Ended?;
    assert Places(s, s.k.id) == 0;
  }

  lemma {:induction false} ExecInv<T, R>(c: Config<T, R>, schedule: seq<Label>)
    requires c.jobs >= 1 && Exec(c, schedule).Some?
    ensures Inv(c, Exec(c, schedule).value)
  {
    if schedule == [] {
      InitInv(c);
    } else {
      var prefix := schedule[..|schedule| - 1];
      ExecInv(c, prefix);
      match schedule[|schedule| - 1]
      case Produce(p) => ProduceInv(c, Exec(c, prefix).value, p);
      case Work(w, m) => WorkInv(c, Exec(c, prefix).value, w, m);
      case Consume(m) => ConsumeInv(c, Exec(c, prefix).value, m);
    }
  }

  lemma InitInv<T, R>(c: Config<T, R>)
    ensures Inv(c, Init(c))
  {
    forall j: nat ensures Places(Init(c), j) == 0 {
      NoneHeld(Init(c).workers, j);
    }
    NoneHeld(Init(c).workers, 0);
  }

  // ---------------------------------------------------------------- main results

  /** On every schedule, the values returned so far are a prefix of the sequential map. */
  lemma ReturnsPrefix<T, R>(c: Config<T, R>, schedule: seq<Label>)
    requires c.jobs >= 1 && Exec(c, schedule).Some?
    ensures var s := Exec(c, schedule).value;
            s.k.id <= |c.xs| && s.returned == MapSeq(c.f, c.xs)[..s.k.id]
  {
    ExecInv(c, schedule);
  }

  /** On every schedule, each id pulled and not returned is in exactly one place. */
  lemma NothingLostOrDuplicated<T, R>(c: Config<T, R>, schedule: seq<Label>, j: nat)
    requires c.jobs >= 1 && Exec(c, schedule).Some?
    ensures var s := Exec(c, schedule).value;
            Places(s, j) == if s.k.id <= j < s.pulled then 1 else 0
  {
    ExecInv(c, schedule);
  }

  /** When the iterator is exhausted it has returned the whole sequential map, whatever the schedule. */
  lemma ExhaustionIsComplete<T, R>(c: Config<T, R>, schedule: seq<Label>)
    requires c.jobs >= 1 && Exec(c, schedule).Some? && Exec(c, schedule).value.done
    ensures Exec(c, schedule).value.returned == MapSeq(c.f, c.xs)
  {
    ExecInv(c, schedule);
  }

  /** Items pulled but not yet received by the consumer never exceed three channel widths plus one. */
  lemma InFlightBound<T, R>(c: Config<T, R>, schedule: seq<Label>)
    requires c.jobs >= 1 && Exec(c, schedule).Some?
    ensures var s := Exec(c, schedule).value;
            s.pulled - (s.k.id + |s.k.cache|) <= 3 * c.jobs + 1
  {
    ExecInv(c, schedule);
    BusyBound(Exec(c, schedule).value.workers);
  }

  /** No schedule gets stuck: until `next` has returned `None`, some thread can take a step. */
  lemma Progress<T, R>(c: Config<T, R>, schedule: seq<Label>) returns (l: Label)
    requires c.jobs >= 1 && Exec(c, schedule).Some? && !Exec(c, schedule).value.done
    ensures Exec(c, schedule + [l]).Some?
  {
    ExecInv(c, schedule);
    var s := Exec(c, schedule).value;
    if s.k.id in s.k.cache {
      l := Consume(Return);
    } else if s.output != [] {
      l := Consume(Receive);
    } else if w: nat :| w < |s.workers| && s.workers[w].Holding? {
      l := Work(w, Put);
    } else if s.input != [] {
      assert s.workers[0].Idle?;
      l := Work(0, Take);
    } else if s.hand {
      l := Produce(Send);
    } else if s.pulled < |c.xs| {
      l := Produce(Pull);
    } else if !s.closed {
      l := Produce(Close);
    } else if w: nat :| w < |s.workers| && s.workers[w].Idle? {
      l := Work(w, End);
    } else {
      assert AllEnded(s.workers);
      l := Consume(Finish);
    }
    assert (schedule + [l])[..|schedule|] == schedule;
  }

  ghost function WorkerCost<T>(w: Worker<T>): nat {
    match w case Idle => 1 case Holding(_, _) => 4 case Ended => 0
  }

  ghost function Cost<T>(ws: seq<Worker<T>>): nat {
    if ws == [] then 0 else WorkerCost(ws[0]) + Cost(ws[1..])
  }

  /** Work left in a state: the moves each item still has to make, plus the exits. */
  ghost function Measure<T, R>(c: Config<T, R>, s: State<T, R>): int {
    6 * (|c.xs| - s.pulled) + (if s.hand then 5 else 0) + (if s.closed then 0 else 1)
    + 4 * |s.input| + Cost(s.workers) + 2 * |s.output| + |s.k.cache| + (if s.done then 0 else 1)
  }

  lemma {:induction false} CostUpdate<T>(ws: seq<Worker<T>>, i: nat, w: Worker<T>)
    requires i < |ws|
    ensures Cost(ws[i := w]) + WorkerCost(ws[i]) == Cost(ws) + WorkerCost(w)
  {
    if i > 0 {
      assert ws[i := w][1..] == ws[1..][i - 1 := w];
      CostUpdate(ws[1..], i - 1, w);
    } else {
      assert ws[i := w][1..] == ws[1..];
    }
  }

  lemma WorkDecreases<T, R>(c: Config<T, R>, s: State<T, R>, w: nat, l: WorkerStep)
    requires WorkStep(c, s, w, l).Some?
    ensures Measure(c, WorkStep(c, s, w, l).value) < Measure(c, s)
  {
    CostUpdate(s.workers, w, WorkStep(c, s, w, l).value.workers[w]);
  }

  lemma StepDecreases<T, R>(c: Config<T, R>, s: State<T, R>, l: Label)
    requires Inv(c, s) && Step(c, s, l).Some?
    ensures Measure(c, Step(c, s, l).value) < Measure(c, s)
  {
    match l
    case Produce(_) =>
    case Work(w, m) => WorkDecreases(c, s, w, m);
    case Consume(m) => if !m.Finish? { CacheSize(s, m); }
  }

  /** Every schedule is finite: it is no longer than the work in the initial state. */
  lemma {:induction false} Terminates<T, R>(c: Config<T, R>, schedule: seq<Label>)
    requires c.jobs >= 1 && Exec(c, schedule).Some?
    ensures |schedule| + Measure(c, Exec(c, schedule).value) <= 6 * |c.xs| + c.jobs + 2
    ensures Measure(c, Exec(c, schedule).value) >= 0
  {
    ExecInv(c, schedule);
    if schedule == [] {
      CostIdle<T>(c.jobs);
    } else {
      var prefix := schedule[..|schedule| - 1];
      Terminates(c, prefix);
      ExecInv(c, prefix);
      StepDecreases(c, Exec(c, prefix).value, schedule[|schedule| - 1]);
    }
  }

  lemma {:induction false} CostIdle<T>(n: nat)
    ensures Cost(seq(n, _ => Worker<T>.Idle)) == n
  {
    if n > 0 {
      CostIdle<T>(n - 1);
      assert seq(n, _ => Worker<T>.Idle)[1..] == seq(n - 1, _ => Worker<T>.Idle);
    }
  }
}
