/**
 The consuming side of a scan: `ReportIter` of `crates/pkgcruft/src/iter.rs`.

 The iterator's fields are a `Consumer` value; the class `ReportIter` updates them with the source's
 loops and is proved equal to `NextFrom`.  `Mirror` says what the fields hold after any prefix of the
 items sent over the report channel.
 */
module ScanConsumer {
  import opened Wrappers
  import opened ReportOrder

  /** `runner.rs`: what a check is run against, and the key reports are grouped by. */
  datatype Target = CpvTarget(cpv: Cpv) | CpnTarget(cpn: Cpn) | CategoryTarget(category: string) | RepoTarget

  /** `impl From<&ReportScope> for Target`: a version's reports belong to its package. */
  function TargetOf(s: ReportScope): Target {
    match s
    case Version(cpv, _) => CpnTarget(cpv.cpn)
    case Package(cpn) => CpnTarget(cpn)
    case Category(category) => CategoryTarget(category)
    case Repo(_) => RepoTarget
  }

  /** A report on a package is one on the package itself or on one of its versions, wherever in its ebuild. */
  predicate Concerns(s: ReportScope, cpn: Cpn) {
    (s.Package? && s.cpn == cpn) || (s.Version? && s.cpv.cpn == cpn)
  }

  /** Which reports processing a target takes out of the cache. */
  predicate Takes(t: Target, s: ReportScope) {
    match t
    case CpnTarget(cpn) => Concerns(s, cpn)
    case CategoryTarget(category) => s.Category? && s.category == category
    case RepoTarget => s.Repo?
    case CpvTarget(_) => false
  }

  /** An item on the report channel; threads are numbered. */
  datatype Item = Send(report: Report) | Process(target: Target, id: nat) | Finish(thread: nat)

  datatype Consumer = Consumer(
    threads: set<nat>,
    id: nat,
    sort: bool,
    targets: map<Target, seq<Report>>,  // `target_cache`
    ids: map<nat, seq<Report>>,         // `id_cache`
    reports: seq<Report>)               // the ready queue

  function Get(m: map<Target, seq<Report>>, t: Target): seq<Report> {
    if t in m then m[t] else []
  }

  /** All cached reports, target by target in some order. */
  ghost function AllOf<K>(m: map<K, seq<Report>>): seq<Report>
    decreases |m.Keys|
  {
    if m.Keys == {} then [] else
      var k :| k in m.Keys;
      m[k] + AllOf(m - {k})
  }

  lemma {:induction false} AllOfRemove<K>(m: map<K, seq<Report>>, k: K)
    requires k in m
    ensures multiset(AllOf(m)) == multiset(m[k]) + multiset(AllOf(m - {k}))
    decreases |m.Keys|
  {
    var j :| j in m.Keys && AllOf(m) == m[j] + AllOf(m - {j});
    if j != k {
      AllOfRemove(m - {j}, k);
      AllOfRemove(m - {k}, j);
      assert m - {j} - {k} == m - {k} - {j};
      BagSwap(multiset(m[j]), multiset(m[k]), multiset(AllOf(m - {j} - {k})));
    }
  }

  lemma AllOfInsert<K>(m: map<K, seq<Report>>, k: K, v: seq<Report>)
    ensures multiset(AllOf(m[k := v])) == multiset(v) + multiset(AllOf(m - {k}))
  {
    AllOfRemove(m[k := v], k);
    assert m[k := v] - {k} == m - {k};
  }

  lemma CacheTaken(m: map<Target, seq<Report>>, t: Target)
    ensures multiset(AllOf(m)) == multiset(Get(m, t)) + multiset(AllOf(m - {t}))
  {
    if t in m {
      AllOfRemove(m, t);
    } else {
      assert m - {t} == m;
    }
  }

  lemma CacheGrown(m: map<Target, seq<Report>>, t: Target, r: Report)
    ensures multiset(AllOf(m[t := Get(m, t) + [r]])) == multiset(AllOf(m)) + multiset{r}
  {
    CacheTaken(m, t);
    AllOfInsert(m, t, Get(m, t) + [r]);
  }

  lemma {:induction false} AllOfEmpty<K>(m: map<K, seq<Report>>)
    requires forall k :: k in m ==> m[k] == []
    ensures AllOf(m) == []
    decreases |m.Keys|
  {
    if m.Keys != {} {
      var k :| k in m.Keys && AllOf(m) == m[k] + AllOf(m - {k});
      AllOfEmpty(m - {k});
    }
  }

  // ---------------------------------------------------------------- the consumer's steps

  /** The block of the next package is ready. */
  predicate Ready(k: Consumer) {
    k.sort && k.id in k.ids
  }

  /** One pass over the head of `next`'s loop: move the next package's block to the queue. */
  function Settled(k: Consumer): Consumer {
    if Ready(k) then k.(id := k.id + 1, ids := k.ids - {k.id}, reports := k.reports + k.ids[k.id]) else k
  }

  /** The `continue` of `next`: the block was empty. */
  predicate MustSkip(k: Consumer) {
    Ready(k) && k.ids[k.id] == []
  }

  /** `next` has nothing to hand out and blocks on the channel. */
  predicate MustReceive(k: Consumer) {
    !Ready(k) && k.reports == []
  }

  function Popped(k: Consumer): Consumer
    requires k.reports != []
  {
    k.(reports := k.reports[1..])
  }

  /** `receive`, up to the join of a finished thread. */
  function Handled(k: Consumer, item: Item): Consumer {
    match item
    case Send(r) => k.(targets := k.targets[TargetOf(r.scope) := Get(k.targets, TargetOf(r.scope)) + [r]])
    case Process(t, id) =>
      var reports := Sort(Get(k.targets, t));
      if k.sort then k.(targets := k.targets - {t}, ids := k.ids[id := reports])
      else k.(targets := k.targets - {t}, reports := k.reports + reports)
    case Finish(_) => k
  }

  /** `receive`, from the join on: the last thread to end flushes what is still cached. */
  ghost function Joined(k: Consumer, thread: nat): Consumer {
    if k.threads - {thread} == {}
    then k.(threads := {}, reports := k.reports + Sort(AllOf(k.targets)), targets := map t | t in k.targets :: [])
    else k.(threads := k.threads - {thread})
  }

  ghost function Received(k: Consumer, item: Item): Consumer {
    if item.Finish? then Joined(k, item.thread) else Handled(k, item)
  }

  /** A report leaves the cache with exactly the targets that take it: it joins the block, or the block is as before. */
  lemma ProcessTakes(k: Consumer, r: Report, t: Target, id: nat)
    requires k.sort
    ensures var after := Handled(Handled(k, Send(r)), Process(t, id));
            && id in after.ids && Sorted(after.ids[id])
            && multiset(after.ids[id]) == multiset(Get(k.targets, t)) + (if Takes(t, r.scope) then multiset{r} else multiset{})
            && Get(after.targets, t) == []
  {
    TargetTakes(t, r.scope);
    var sent := Handled(k, Send(r));
    assert Get(sent.targets, t) == Get(k.targets, t) + if Takes(t, r.scope) then [r] else [];
    SortLaws(Get(sent.targets, t));
    assert multiset(Get(k.targets, t) + [r]) == multiset(Get(k.targets, t)) + multiset{r};
    assert Handled(sent, Process(t, id)).ids[id] == Sort(Get(sent.targets, t));
  }

  lemma TargetTakes(t: Target, s: ReportScope)
    ensures TargetOf(s) == t <==> Takes(t, s)
  {
  }

  /** One call of `next` when the channel delivers `rx` and then disconnects. */
  ghost function NextFrom(k: Consumer, rx: seq<Item>): (Consumer, seq<Item>, Option<Report>)
    decreases |rx|, |k.ids.Keys|
  {
    if MustSkip(k) then NextFrom(Settled(k), rx)
    else if MustReceive(k) then
      if rx == [] then (k, rx, None) else NextFrom(Received(k, rx[0]), rx[1..])
    else (Popped(Settled(k)), rx, Some(Settled(k).reports[0]))
  }

  /** Every finish notice still to come names a thread not yet joined, and no thread twice. */
  ghost predicate KnownThreads(rx: seq<Item>, threads: set<nat>)
    decreases |rx|
  {
    rx == [] ||
    if rx[0].Finish? then rx[0].thread in threads && KnownThreads(rx[1..], threads - {rx[0].thread})
    else KnownThreads(rx[1..], threads)
  }

  class ReportIter {
    var rx: seq<Item>    // what the channel will still deliver before it disconnects
    var threads: set<nat>
    var id: nat
    var sort: bool
    var targetCache: map<Target, seq<Report>>
    var idCache: map<nat, seq<Report>>
    var reports: seq<Report>

    ghost function View(): Consumer
      reads this
    {
      Consumer(threads, id, sort, targetCache, idCache, reports)
    }

    constructor (rx: seq<Item>, threads: set<nat>, sort: bool)
      ensures View() == Consumer(threads, 0, sort, map[], map[], []) && this.rx == rx
    {
      this.rx, this.threads, id, this.sort := rx, threads, 0, sort;
      targetCache, idCache, reports := map[], map[], [];
    }

    /** Takes every cached report out, leaving empty entries, and queues them sorted. */
    method Flush()
      modifies this`targetCache, this`reports
      ensures reports == old(reports) + Sort(AllOf(old(targetCache)))
      ensures targetCache == map t | t in old(targetCache) :: []
    {
      var todo, all := targetCache, [];
      while todo.Keys != {}
        invariant targetCache == old(targetCache) && reports == old(reports)
        invariant multiset(all) + multiset(AllOf(todo)) == multiset(AllOf(targetCache))
        decreases |todo.Keys|
      {
        var t :| t in todo.Keys;
        AllOfRemove(todo, t);
        all, todo := all + todo[t], todo - {t};
      }
      AllOfEmpty(todo);
      SortIsCanonical(all, AllOf(targetCache));
      reports, targetCache := reports + Sort(all), map t | t in targetCache :: [];
    }

    /** Returns false on a disconnected channel. */
    method Receive() returns (ok: bool)
      requires KnownThreads(rx, threads)
      modifies this
      ensures KnownThreads(rx, threads)
      ensures ok == (old(rx) != [])
      ensures !ok ==> View() == old(View()) && rx == []
      ensures ok ==> View() == Received(old(View()), old(rx)[0]) && rx == old(rx)[1..]
    {
      if rx == [] { return false; }
      var item := rx[0];
      rx := rx[1..];
      match item {
        case Send(report) =>
          var t := TargetOf(report.scope);
          targetCache := targetCache[t := Get(targetCache, t) + [report]];
        case Process(target, n) =>
          var block := Sort(Get(targetCache, target));
          targetCache := targetCache - {target};
          if sort {
            idCache := idCache[n := block];
          } else if block != [] {
            reports := reports + block;
          }
        case Finish(thread) =>
          threads := threads - {thread};
          if threads == {} { Flush(); }
      }
      ok := true;
    }

    method Next() returns (r: Option<Report>)
      requires KnownThreads(rx, threads)
      modifies this
      ensures KnownThreads(rx, threads)
      ensures (View(), rx, r) == NextFrom(old(View()), old(rx))
    {
      while true
        invariant KnownThreads(rx, threads)
        invariant NextFrom(View(), rx) == NextFrom(old(View()), old(rx))
        decreases |rx|, |idCache.Keys|
      {
        ghost var start := View();
        if sort && id in idCache {
          var block := idCache[id];
          idCache, id := idCache - {id}, id + 1;
          assert View() == Settled(start).(reports := reports);
          if block == [] {
            assert View() == Settled(start);
            continue;
          }
          reports := reports + block;
        }
        if reports != [] {
          r := Some(reports[0]);
          reports := reports[1..];
          return;
        } else {
          var ok := Receive();
          if !ok { return None; }
        }
      }
    }
  }

  // ---------------------------------------------------------------- what the sent items determine

  /** The reports among the items. */
  ghost function Bag(log: seq<Item>): multiset<Report> {
    if log == [] then multiset{} else Bag(log[..|log| - 1]) + BagOf(log[|log| - 1])
  }

  ghost function BagOf(item: Item): multiset<Report> {
    if item.Send? then multiset{item.report} else multiset{}
  }

  /** The reports for `t` sent since its last `Process`, in order. */
  ghost function Pending(log: seq<Item>, t: Target): seq<Report> {
    if log == [] then [] else
      var before, last := Pending(log[..|log| - 1], t), log[|log| - 1];
      if last.Send? && TargetOf(last.report.scope) == t then before + [last.report]
      else if last.Process? && last.target == t then []
      else before
  }

  /** For each `Process` sent, the sorted block it makes of the reports pending for its target. */
  ghost function Blocks(log: seq<Item>): map<nat, seq<Report>> {
    if log == [] then map[] else
      var before, last := log[..|log| - 1], log[|log| - 1];
      if last.Process? then Blocks(before)[last.id := Sort(Pending(before, last.target))] else Blocks(before)
  }

  /** The ids of the `Process` items in the order they were sent. */
  ghost function Order(log: seq<Item>): seq<nat> {
    if log == [] then [] else
      var last := log[|log| - 1];
      Order(log[..|log| - 1]) + (if last.Process? then [last.id] else [])
  }

  /** No id is processed twice. */
  ghost predicate FreshIds(log: seq<Item>) {
    log == [] || (
      var before, last := log[..|log| - 1], log[|log| - 1];
      FreshIds(before) && (last.Process? ==> last.id !in Blocks(before)))
  }

  ghost function Cat(blocks: map<nat, seq<Report>>, order: seq<nat>): seq<Report> {
    if order == [] then [] else
      var last := order[|order| - 1];
      Cat(blocks, order[..|order| - 1]) + (if last in blocks then blocks[last] else [])
  }

  ghost function Upto(n: nat): seq<nat> {
    seq(n, i => i)
  }

  lemma {:induction false} CatFrame(a: map<nat, seq<Report>>, b: map<nat, seq<Report>>, order: seq<nat>)
    requires forall i :: 0 <= i < |order| ==> order[i] in a && order[i] in b && a[order[i]] == b[order[i]]
    ensures Cat(a, order) == Cat(b, order)
  {
    if order != [] { CatFrame(a, b, order[..|order| - 1]); }
  }

  lemma {:induction false} OrderInBlocks(log: seq<Item>)
    ensures forall i :: 0 <= i < |Order(log)| ==> Order(log)[i] in Blocks(log)
  {
    if log != [] { OrderInBlocks(log[..|log| - 1]); }
  }

  // ---------------------------------------------------------------- the consumer mirrors the log

  /** The ids whose blocks have left the caches, in the order they left. */
  ghost function Released(log: seq<Item>, k: Consumer): seq<nat> {
    if k.sort then Upto(k.id) else Order(log)
  }

  ghost predicate MirrorTargets(log: seq<Item>, k: Consumer) {
    forall t :: Get(k.targets, t) == if k.threads == {} then [] else Pending(log, t)
  }

  ghost predicate MirrorIds(log: seq<Item>, k: Consumer) {
    var blocks := Blocks(log);
    if k.sort then
      && (forall i: nat :: i in k.ids <==> i in blocks && k.id <= i)
      && (forall i: nat :: i in k.ids ==> k.ids[i] == blocks[i])
      && (forall i: nat :: i < k.id ==> i in blocks)
    else
      k.ids == map[]
  }

  /** Before the flush, out has gone exactly the released blocks; the flush adds a sorted tail. */
  ghost predicate MirrorOut(log: seq<Item>, k: Consumer, yielded: seq<Report>) {
    var out, released := yielded + k.reports, Cat(Blocks(log), Released(log, k));
    if k.threads == {} then released <= out && Sorted(out[|released|..]) else out == released
  }

  /** Every report received is cached, queued or yielded, exactly once. */
  ghost predicate Conserved(log: seq<Item>, k: Consumer, yielded: seq<Report>) {
    Bag(log) == multiset(AllOf(k.targets)) + multiset(AllOf(k.ids)) + multiset(k.reports) + multiset(yielded)
  }

  ghost predicate Mirror(log: seq<Item>, k: Consumer, yielded: seq<Report>) {
    MirrorTargets(log, k) && MirrorIds(log, k) && MirrorOut(log, k, yielded) && Conserved(log, k, yielded)
  }

  lemma StartMirrors(threads: set<nat>, sort: bool)
    ensures Mirror([], Consumer(threads, 0, sort, map[], map[], []), [])
  {
    AllOfEmpty<Target>(map[]);
    AllOfEmpty<nat>(map[]);
  }

  lemma OneMoreInBag(log: seq<Item>, item: Item)
    ensures Bag(log + [item]) == Bag(log) + BagOf(item)
  {
    InitOne(log, item);
  }

  lemma OneMoreBlock(log: seq<Item>, item: Item)
    ensures forall id: nat :: id in Blocks(log + [item]) <==> id in Blocks(log) || (item.Process? && item.id == id)
    ensures FreshIds(log + [item]) <==> FreshIds(log) && (item.Process? ==> item.id !in Blocks(log))
  {
    assert (log + [item])[..|log|] == log;
  }

  /** What sending one more item changes. */
  lemma Appended(log: seq<Item>, item: Item)
    ensures var log' := log + [item];
            && Bag(log') == (if item.Send? then Bag(log) + multiset{item.report} else Bag(log))
            && Order(log') == (if item.Process? then Order(log) + [item.id] else Order(log))
            && Blocks(log') == (if item.Process? then Blocks(log)[item.id := Sort(Pending(log, item.target))] else Blocks(log))
    ensures FreshIds(log + [item]) <==> FreshIds(log) && (item.Process? ==> item.id !in Blocks(log))
    ensures forall t :: Pending(log + [item], t) ==
                        if item.Send? && TargetOf(item.report.scope) == t then Pending(log, t) + [item.report]
                        else if item.Process? && item.target == t then [] else Pending(log, t)
  {
    assert (log + [item])[..|log|] == log;
  }

  /** The same for what is pending for one package. */
  lemma OneMorePending(log: seq<Item>, item: Item, cpn: Cpn)
    ensures Pending(log + [item], CpnTarget(cpn)) ==
            if item.Send? && Concerns(item.report.scope, cpn) then Pending(log, CpnTarget(cpn)) + [item.report]
            else if item.Process? && item.target == CpnTarget(cpn) then [] else Pending(log, CpnTarget(cpn))
    ensures Blocks(log + [item]) ==
            if item.Process? then Blocks(log)[item.id := Sort(Pending(log, item.target))] else Blocks(log)
  {
    InitOne(log, item);
  }

  /** Moving a block to the queue. */
  lemma SettleMirrors(log: seq<Item>, k: Consumer, yielded: seq<Report>)
    requires Mirror(log, k, yielded) && Ready(k) && k.threads != {}
    ensures Mirror(log, Settled(k), yielded)
  {
    SettleOut(log, k, yielded);
    SettleConserves(log, k, yielded);
  }

  lemma SettleConserves(log: seq<Item>, k: Consumer, yielded: seq<Report>)
    requires Conserved(log, k, yielded) && Ready(k)
    ensures Conserved(log, Settled(k), yielded)
  {
    var block := k.ids[k.id];
    AllOfRemove(k.ids, k.id);
    assert multiset(k.reports + block) == multiset(k.reports) + multiset(block);
    Queued(multiset(AllOf(k.targets)), multiset(block), multiset(AllOf(k.ids - {k.id})), multiset(k.reports), multiset(yielded));
  }

  lemma Queued<T>(targets: multiset<T>, block: multiset<T>, ids: multiset<T>, reports: multiset<T>, yielded: multiset<T>)
    ensures targets + (block + ids) + reports + yielded == targets + ids + (reports + block) + yielded
  {
  }

  lemma SettleOut(log: seq<Item>, k: Consumer, yielded: seq<Report>)
    requires MirrorIds(log, k) && MirrorOut(log, k, yielded) && Ready(k) && k.threads != {}
    ensures MirrorOut(log, Settled(k), yielded)
  {
    assert Upto(k.id + 1)[..k.id] == Upto(k.id);
    assert yielded + (k.reports + k.ids[k.id]) == yielded + k.reports + k.ids[k.id];
  }

  /** Handing out the head of the queue. */
  lemma PopMirrors(log: seq<Item>, k: Consumer, yielded: seq<Report>)
    requires Mirror(log, k, yielded) && k.reports != []
    ensures Mirror(log, Popped(k), yielded + [k.reports[0]])
  {
    assert k.reports == [k.reports[0]] + k.reports[1..];
    assert yielded + k.reports == yielded + [k.reports[0]] + k.reports[1..];
  }

  lemma SendMirrors(log: seq<Item>, k: Consumer, yielded: seq<Report>, r: Report)
    requires Mirror(log, k, yielded) && k.threads != {}
    ensures Mirror(log + [Send(r)], Handled(k, Send(r)), yielded)
  {
    SendTargets(log, k, r);
    SendOut(log, k, yielded, r);
    SendConserves(log, k, yielded, r);
  }

  lemma SendTargets(log: seq<Item>, k: Consumer, r: Report)
    requires MirrorTargets(log, k) && MirrorIds(log, k) && k.threads != {}
    ensures MirrorTargets(log + [Send(r)], Handled(k, Send(r)))
    ensures MirrorIds(log + [Send(r)], Handled(k, Send(r)))
  {
    Appended(log, Send(r));
  }

  lemma SendConserves(log: seq<Item>, k: Consumer, yielded: seq<Report>, r: Report)
    requires Conserved(log, k, yielded)
    ensures Conserved(log + [Send(r)], Handled(k, Send(r)), yielded)
  {
    Appended(log, Send(r));
    CacheGrown(k.targets, TargetOf(r.scope), r);
  }

  lemma SendOut(log: seq<Item>, k: Consumer, yielded: seq<Report>, r: Report)
    requires MirrorOut(log, k, yielded)
    ensures MirrorOut(log + [Send(r)], Handled(k, Send(r)), yielded)
  {
    Appended(log, Send(r));
    assert Released(log + [Send(r)], Handled(k, Send(r))) == Released(log, k);
  }

  lemma ProcessMirrors(log: seq<Item>, k: Consumer, yielded: seq<Report>, t: Target, id: nat)
    requires Mirror(log, k, yielded) && k.threads != {} && FreshIds(log + [Process(t, id)])
    ensures Mirror(log + [Process(t, id)], Handled(k, Process(t, id)), yielded)
  {
    Appended(log, Process(t, id));
    ProcessConserves(log, k, yielded, t, id);
    ProcessCaches(log, k, t, id);
    ProcessOut(log, k, yielded, t, id);
  }

  lemma ProcessCaches(log: seq<Item>, k: Consumer, t: Target, id: nat)
    requires MirrorTargets(log, k) && MirrorIds(log, k) && k.threads != {} && id !in Blocks(log)
    ensures MirrorTargets(log + [Process(t, id)], Handled(k, Process(t, id)))
    ensures MirrorIds(log + [Process(t, id)], Handled(k, Process(t, id)))
  {
    Appended(log, Process(t, id));
    ProcessIds(log, k, t, id);
  }

  lemma ProcessIds(log: seq<Item>, k: Consumer, t: Target, id: nat)
    requires MirrorTargets(log, k) && MirrorIds(log, k) && k.threads != {} && id !in Blocks(log)
    ensures MirrorIds(log + [Process(t, id)], Handled(k, Process(t, id)))
  {
    InitOne(log, Process(t, id));
    assert Get(k.targets, t) == Pending(log, t);
    assert Blocks(log + [Process(t, id)]) == Blocks(log)[id := Sort(Pending(log, t))];
  }

  lemma ProcessConserves(log: seq<Item>, k: Consumer, yielded: seq<Report>, t: Target, id: nat)
    requires Conserved(log, k, yielded) && id !in k.ids
    ensures Conserved(log + [Process(t, id)], Handled(k, Process(t, id)), yielded)
  {
    Appended(log, Process(t, id));
    TakenSorted(k.targets, t);
    var block := Sort(Get(k.targets, t));
    Moved(multiset(block), multiset(AllOf(k.targets - {t})), multiset(AllOf(k.ids)), multiset(k.reports), multiset(yielded));
    if k.sort { BlockCached(k.ids, id, block); } else { assert multiset(k.reports + block) == multiset(k.reports) + multiset(block); }
  }

  lemma Moved<T>(block: multiset<T>, targets: multiset<T>, ids: multiset<T>, reports: multiset<T>, yielded: multiset<T>)
    ensures (block + targets) + ids + reports + yielded == targets + (block + ids) + reports + yielded
    ensures (block + targets) + ids + reports + yielded == targets + ids + (reports + block) + yielded
  {
  }

  lemma BlockCached(ids: map<nat, seq<Report>>, id: nat, block: seq<Report>)
    requires id !in ids
    ensures multiset(AllOf(ids[id := block])) == multiset(block) + multiset(AllOf(ids))
  {
    AllOfInsert(ids, id, block);
    assert ids - {id} == ids;
  }

  lemma TakenSorted(m: map<Target, seq<Report>>, t: Target)
    ensures multiset(AllOf(m)) == multiset(Sort(Get(m, t))) + multiset(AllOf(m - {t}))
  {
    SortLaws(Get(m, t));
    CacheTaken(m, t);
  }

  lemma ProcessOut(log: seq<Item>, k: Consumer, yielded: seq<Report>, t: Target, id: nat)
    requires MirrorTargets(log, k) && MirrorIds(log, k) && MirrorOut(log, k, yielded)
    requires k.threads != {} && id !in Blocks(log)
    ensures MirrorOut(log + [Process(t, id)], Handled(k, Process(t, id)), yielded)
  {
    assert Get(k.targets, t) == Pending(log, t);
    ProcessCat(log, k, t, id);
    if !k.sort { Assoc(yielded, k.reports, Sort(Pending(log, t))); }
  }

  lemma ProcessCat(log: seq<Item>, k: Consumer, t: Target, id: nat)
    requires MirrorIds(log, k) && id !in Blocks(log)
    ensures var (log', block) := (log + [Process(t, id)], Sort(Pending(log, t)));
            && (k.sort ==> Cat(Blocks(log'), Upto(k.id)) == Cat(Blocks(log), Upto(k.id)))
            && (!k.sort ==> Cat(Blocks(log'), Order(log')) == Cat(Blocks(log), Order(log)) + block)
  {
    var log', block := log + [Process(t, id)], Sort(Pending(log, t));
    Appended(log, Process(t, id));
    OrderInBlocks(log);
    CatFrame(Blocks(log), Blocks(log'), if k.sort then Upto(k.id) else Order(log));
    CatAppend(Blocks(log'), Order(log), id);
  }

  lemma CatAppend(blocks: map<nat, seq<Report>>, order: seq<nat>, id: nat)
    requires id in blocks
    ensures Cat(blocks, order + [id]) == Cat(blocks, order) + blocks[id]
  {
    assert (order + [id])[..|order|] == order;
  }

  /** A finish notice changes no cache; joining the last thread flushes what is left. */
  lemma JoinMirrors(log: seq<Item>, k: Consumer, yielded: seq<Report>, thread: nat)
    requires Mirror(log, k, yielded) && k.threads != {}
    ensures Mirror(log, Joined(k, thread), yielded)
  {
    if k.threads - {thread} == {} {
      FlushMirrors(log, k, yielded, Joined(k, thread));
    }
  }

  lemma FlushMirrors(log: seq<Item>, k: Consumer, yielded: seq<Report>, k': Consumer)
    requires Mirror(log, k, yielded) && k.threads != {}
    requires k' == k.(threads := {}, reports := k.reports + Sort(AllOf(k.targets)), targets := map t | t in k.targets :: [])
    ensures Mirror(log, k', yielded)
  {
    SortLaws(AllOf(k.targets));
    FlushOut(log, k, yielded, Sort(AllOf(k.targets)));
    FlushConserves(log, k, yielded, k');
  }

  lemma FlushConserves(log: seq<Item>, k: Consumer, yielded: seq<Report>, k': Consumer)
    requires Conserved(log, k, yielded)
    requires k' == k.(threads := {}, reports := k.reports + Sort(AllOf(k.targets)), targets := map t | t in k.targets :: [])
    ensures Conserved(log, k', yielded)
  {
    var tail := Sort(AllOf(k.targets));
    SortLaws(AllOf(k.targets));
    AllOfEmpty(k'.targets);
    assert multiset(k.reports + tail) == multiset(k.reports) + multiset(tail);
    Queued(multiset{}, multiset(tail), multiset(AllOf(k.ids)), multiset(k.reports), multiset(yielded));
  }

  lemma FlushOut(log: seq<Item>, k: Consumer, yielded: seq<Report>, tail: seq<Report>)
    requires MirrorOut(log, k, yielded) && k.threads != {} && Sorted(tail)
    ensures MirrorOut(log, k.(threads := {}, reports := k.reports + tail), yielded)
  {
    assert yielded + (k.reports + tail) == yielded + k.reports + tail;
    assert (yielded + k.reports + tail)[|yielded + k.reports|..] == tail;
  }

  lemma FinishMirrors(log: seq<Item>, k: Consumer, yielded: seq<Report>, thread: nat)
    requires Mirror(log, k, yielded)
    ensures Mirror(log + [Finish(thread)], k, yielded)
  {
    Appended(log, Finish(thread));
    assert Released(log + [Finish(thread)], k) == Released(log, k);
  }
}
