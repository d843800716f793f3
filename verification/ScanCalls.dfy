/**
 Which calls a scan makes, in terms of its checks and targets alone: what `pkg_producer` and
 `version_producer` of `crates/pkgcruft/src/iter.rs` send, in what order, and where every report that a
 scan yields comes from.
 */
module ScanCalls {
  import opened Wrappers
  import opened ReportOrder
  import opened ScanConsumer
  import opened ScanThreads
  import opened ScanHistory
  import opened ScanPipeline
  import opened ScanResults
  import opened ScanPlan

  // ---------------------------------------------------------------- filters and products

  /** `x` stands somewhere in front of `y`. */
  ghost predicate InFrontOf<T>(s: seq<T>, x: T, y: T) {
    exists i, j :: 0 <= i < j < |s| && s[i] == x && s[j] == y
  }

  lemma InFrontNext<T>(s: seq<T>, x: T, y: T)
    requires s != [] && InFrontOf(s[1..], x, y)
    ensures InFrontOf(s, x, y)
  {
    var i, j :| 0 <= i < j < |s[1..]| && s[1..][i] == x && s[1..][j] == y;
    assert s[i + 1] == x && s[j + 1] == y;
  }

  lemma InFrontFirst<T>(s: seq<T>, y: T)
    requires s != [] && y in s[1..]
    ensures InFrontOf(s, s[0], y)
  {
    var j :| 0 <= j < |s[1..]| && s[1..][j] == y;
    assert s[0] == s[0] && s[j + 1] == y;
  }

  lemma {:induction false} PickMeans(checks: seq<Check>, f: Check -> bool, c: Check)
    ensures c in Pick(checks, f) <==> c in checks && f(c)
  {
    if checks != [] {
      PickMeans(checks[1..], f, c);
      assert c in checks <==> c == checks[0] || c in checks[1..];
    }
  }

  lemma {:induction false} PickOrder(checks: seq<Check>, f: Check -> bool, i: nat, j: nat)
    requires i < j < |Pick(checks, f)|
    ensures InFrontOf(checks, Pick(checks, f)[i], Pick(checks, f)[j])
  {
    var rest := Pick(checks[1..], f);
    if !f(checks[0]) {
      PickOrder(checks[1..], f, i, j);
      InFrontNext(checks, rest[i], rest[j]);
    } else if i > 0 {
      PickOrder(checks[1..], f, i - 1, j - 1);
      InFrontNext(checks, rest[i - 1], rest[j - 1]);
    } else {
      assert rest[j - 1] in rest;
      PickMeans(checks[1..], f, rest[j - 1]);
      InFrontFirst(checks, rest[j - 1]);
    }
  }

  lemma MapMeans<A(!new), B>(f: A -> B, xs: seq<A>, y: B)
    ensures y in Map(f, xs) <==> exists x :: x in xs && y == f(x)
  {
    if x :| x in xs && y == f(x) {
      var i :| 0 <= i < |xs| && xs[i] == x;
      assert Map(f, xs)[i] == y;
    }
  }

  ghost predicate FromPair<A>(targets: seq<Target>, checks: seq<Check>, f: (Check, Target) -> A, x: A, c: Check, t: Target) {
    c in checks && t in targets && x == f(c, t)
  }

  lemma {:induction false} CrossMeans<A>(targets: seq<Target>, checks: seq<Check>, f: (Check, Target) -> A, x: A)
    ensures x in Cross(targets, checks, f) <==> exists c, t :: FromPair(targets, checks, f, x, c, t)
  {
    if targets != [] {
      var row := Map((c: Check) => f(c, targets[0]), checks);
      CrossMeans(targets[1..], checks, f, x);
      if c, t :| FromPair(targets, checks, f, x, c, t) {
        if t == targets[0] {
          var i :| 0 <= i < |checks| && checks[i] == c;
          assert row[i] == x;
        } else {
          assert FromPair(targets[1..], checks, f, x, c, t);
        }
      }
      if x in row {
        var i :| 0 <= i < |row| && row[i] == x;
        assert FromPair(targets, checks, f, x, checks[i], targets[0]);
      }
      if c, t :| FromPair(targets[1..], checks, f, x, c, t) { assert FromPair(targets, checks, f, x, c, t); }
    }
  }

  /** Of two pairs, the first has the earlier target, or the same target and the earlier check. */
  ghost predicate PairBefore(targets: seq<Target>, checks: seq<Check>, c: Check, t: Target, d: Check, u: Target) {
    InFrontOf(targets, t, u) || (t == u && InFrontOf(checks, c, d))
  }

  lemma {:induction false} CrossOrder<A>(targets: seq<Target>, checks: seq<Check>, f: (Check, Target) -> A, i: nat, j: nat)
    returns (c: Check, t: Target, d: Check, u: Target)
    requires i < j < |Cross(targets, checks, f)|
    ensures FromPair(targets, checks, f, Cross(targets, checks, f)[i], c, t)
    ensures FromPair(targets, checks, f, Cross(targets, checks, f)[j], d, u)
    ensures PairBefore(targets, checks, c, t, d, u)
  {
    var row, rest := Map((c: Check) => f(c, targets[0]), checks), Cross(targets[1..], checks, f);
    if j < |row| {
      c, t, d, u := checks[i], targets[0], checks[j], targets[0];
      assert InFrontOf(checks, c, d);
    } else if i < |row| {
      assert rest[j - |row|] in rest;
      CrossMeans(targets[1..], checks, f, rest[j - |row|]);
      c, t := checks[i], targets[0];
      d, u :| FromPair(targets[1..], checks, f, rest[j - |row|], d, u);
      InFrontFirst(targets, u);
    } else {
      c, t, d, u := CrossOrder(targets[1..], checks, f, i - |row|, j - |row|);
      if InFrontOf(targets[1..], t, u) { InFrontNext(targets, t, u); }
    }
  }

  // ---------------------------------------------------------------- the messages of a package-level scan

  /** Some check of the run looks at packages or their versions. */
  ghost predicate ChecksPackages(run: Run) {
    exists c :: c in run.checks && (c.scope.VersionScope? || c.scope.PackageScope?)
  }

  ghost predicate IsMessage(run: Run, m: Message) {
    match m.target
    case RepoTarget => m.check.Some? && m.id == 0 && m.check.value in run.checks && m.check.value.fromRepo
    case CategoryTarget(s) =>
      m.check.Some? && m.id == 0 && m.check.value in run.checks && m.check.value.fromCategory && s in run.categories
    case CpnTarget(cpn) => m.check.None? && ChecksPackages(run) && m.id < |run.cpns| && run.cpns[m.id] == cpn
    case CpvTarget(_) => false
  }

  lemma RunsMeans(run: Run)
    ensures RunsPackages(run) <==> ChecksPackages(run)
  {
    if c :| c in run.checks && (c.scope.VersionScope? || c.scope.PackageScope?) {
      var i :| 0 <= i < |run.checks| && run.checks[i] == c;
      assert Rank(run.checks[i].scope) <= Rank(PackageScope);
    }
    if i :| 0 <= i < |run.checks| && Rank(run.checks[i].scope) <= Rank(PackageScope) {
      assert run.checks[i] in run.checks;
    }
  }

  lemma RepoMessagesAre(run: Run, m: Message)
    ensures m in RepoMessages(run) <==> m.target.RepoTarget? && IsMessage(run, m)
  {
    var f := (c: Check) => c.fromRepo;
    MapMeans(c => Message(Some(c), RepoTarget, 0), Pick(run.checks, f), m);
    if m.check.Some? { PickMeans(run.checks, f, m.check.value); }
  }

  ghost function CategoryTargets(run: Run): (ts: seq<Target>)
    ensures ts == Map(s => CategoryTarget(s), run.categories)
    ensures |ts| == |run.categories| && forall i :: 0 <= i < |ts| ==> ts[i] == CategoryTarget(run.categories[i])
  {
    Map(s => CategoryTarget(s), run.categories)
  }

  lemma CategoryIn(run: Run, t: Target)
    ensures t in CategoryTargets(run) <==> t.CategoryTarget? && t.category in run.categories
  {
    if t.CategoryTarget? && t.category in run.categories {
      var i :| 0 <= i < |run.categories| && run.categories[i] == t.category;
      assert CategoryTargets(run)[i] == t;
    }
  }

  lemma CategoryMessagesAre(run: Run, m: Message)
    ensures m in CategoryMessages(run) <==> m.target.CategoryTarget? && IsMessage(run, m)
  {
    var f, g := (c: Check) => c.fromCategory, (c: Check, t: Target) => Message(Some(c), t, 0);
    CrossMeans(CategoryTargets(run), Pick(run.checks, f), g, m);
    CategoryIn(run, m.target);
    if m.check.Some? {
      PickMeans(run.checks, f, m.check.value);
      assert FromPair(CategoryTargets(run), Pick(run.checks, f), g, m, m.check.value, m.target) <==>
             m.check.value in Pick(run.checks, f) && m.target in CategoryTargets(run) && m.id == 0;
    }
  }

  /** Everything sent over the targets channel: which checks, on which targets, with which ids. */
  lemma MessagesAre(run: Run, m: Message)
    ensures m in PkgMessages(run) <==> IsMessage(run, m)
  {
    RunsMeans(run);
    RepoMessagesAre(run, m);
    CategoryMessagesAre(run, m);
    var head, n := PkgChecks(run), |PkgChecks(run)|;
    assert m in head <==> m in RepoMessages(run) || m in CategoryMessages(run);
    if m.target.CpnTarget? && IsMessage(run, m) {
      assert PkgMessages(run)[n + m.id] == m;
    }
    assert forall j :: 0 <= j < n ==> PkgMessages(run)[j] in head;
    if m in PkgMessages(run) && m !in head {
      var i :| 0 <= i < |PkgMessages(run)| && PkgMessages(run)[i] == m;
      assert PkgMessages(run)[i] == Message(None, CpnTarget(run.cpns[i - n]), i - n);
    }
  }

  /** Repository checks, then categories one by one, each with all its checks, then packages one by one. */
  ghost predicate SentBefore(run: Run, m: Message, n: Message) {
    match (m.target, n.target)
    case (RepoTarget, RepoTarget) => m.check.Some? && n.check.Some? && InFrontOf(run.checks, m.check.value, n.check.value)
    case (RepoTarget, _) => true
    case (CategoryTarget(s), CategoryTarget(t)) =>
      m.check.Some? && n.check.Some?
      && (InFrontOf(run.categories, s, t) || (s == t && InFrontOf(run.checks, m.check.value, n.check.value)))
    case (CategoryTarget(_), CpnTarget(_)) => true
    case (CpnTarget(_), CpnTarget(_)) => m.id < n.id
    case _ => false
  }

  lemma RepoMessagesOrder(run: Run, i: nat, j: nat)
    requires i < j < |RepoMessages(run)|
    ensures SentBefore(run, RepoMessages(run)[i], RepoMessages(run)[j])
  {
    PickOrder(run.checks, (c: Check) => c.fromRepo, i, j);
  }

  lemma CategoriesInFront(run: Run, t: Target, u: Target)
    requires InFrontOf(CategoryTargets(run), t, u)
    ensures t.CategoryTarget? && u.CategoryTarget? && InFrontOf(run.categories, t.category, u.category)
  {
    var i, j :| 0 <= i < j < |CategoryTargets(run)| && CategoryTargets(run)[i] == t && CategoryTargets(run)[j] == u;
    assert run.categories[i] == t.category && run.categories[j] == u.category;
  }

  lemma PickedInFront(checks: seq<Check>, f: Check -> bool, c: Check, d: Check)
    requires InFrontOf(Pick(checks, f), c, d)
    ensures InFrontOf(checks, c, d)
  {
    var i: nat, j: nat :| i < j < |Pick(checks, f)| && Pick(checks, f)[i] == c && Pick(checks, f)[j] == d;
    PickOrder(checks, f, i, j);
  }

  lemma CategoryMessagesOrder(run: Run, i: nat, j: nat)
    requires i < j < |CategoryMessages(run)|
    ensures SentBefore(run, CategoryMessages(run)[i], CategoryMessages(run)[j])
  {
    var f, g := (c: Check) => c.fromCategory, (c: Check, t: Target) => Message(Some(c), t, 0);
    assert CategoryMessages(run) == Cross(CategoryTargets(run), Pick(run.checks, f), g);
    var c, t, d, u := CrossOrder(CategoryTargets(run), Pick(run.checks, f), g, i, j);
    CategoryIn(run, t);
    CategoryIn(run, u);
    if InFrontOf(CategoryTargets(run), t, u) {
      CategoriesInFront(run, t, u);
    } else {
      PickedInFront(run.checks, f, c, d);
    }
  }

  lemma MessageAt(run: Run, i: nat)
    requires i < |PkgMessages(run)|
    ensures var (r, c) := (|RepoMessages(run)|, |CategoryMessages(run)|);
            if i < r then PkgMessages(run)[i] == RepoMessages(run)[i] && RepoMessages(run)[i].target.RepoTarget?
            else if i < r + c then
              PkgMessages(run)[i] == CategoryMessages(run)[i - r] && CategoryMessages(run)[i - r].target.CategoryTarget?
            else i - r - c < |run.cpns| && PkgMessages(run)[i] == Message(None, CpnTarget(run.cpns[i - r - c]), i - r - c)
  {
    var r := |RepoMessages(run)|;
    if i < r {
      RepoMessagesAre(run, RepoMessages(run)[i]);
    } else if i < |PkgChecks(run)| {
      assert CategoryMessages(run)[i - r] in CategoryMessages(run);
      CategoryMessagesAre(run, CategoryMessages(run)[i - r]);
    }
  }

  /** The order in which messages are sent. */
  lemma MessagesOrder(run: Run, i: nat, j: nat)
    requires i < j < |PkgMessages(run)|
    ensures SentBefore(run, PkgMessages(run)[i], PkgMessages(run)[j])
  {
    var (r, c) := (|RepoMessages(run)|, |CategoryMessages(run)|);
    MessageAt(run, i);
    MessageAt(run, j);
    if j < r {
      RepoMessagesOrder(run, i, j);
    } else if r <= i && j < r + c {
      CategoryMessagesOrder(run, i - r, j - r);
    }
  }

  // ---------------------------------------------------------------- the other calls

  ghost predicate IsPkgFinish(run: Run, task: Task) {
    match task
    case FinishTarget(c, CategoryTarget(s)) => c in run.checks && c.fromCategory && c.finishTarget && s in run.categories
    case FinishCheck(c) => c in run.checks && c.finishCheck
    case _ => false
  }

  /** What the finish channel of a package-level scan carries. */
  lemma PkgFinishIs(run: Run, task: Task)
    ensures task in PkgFinish(run) <==> IsPkgFinish(run, task)
  {
    var from, fin, g := (c: Check) => c.fromCategory, (c: Check) => c.finishTarget, (c, t) => FinishTarget(c, t);
    var picked := Pick(Pick(run.checks, from), fin);
    var ends := Pick(run.checks, (c: Check) => c.finishCheck);
    CrossMeans(CategoryTargets(run), picked, g, task);
    MapMeans(c => FinishCheck(c), ends, task);
    if task.FinishTarget? {
      CategoryIn(run, task.target);
      PickMeans(run.checks, from, task.check);
      PickMeans(Pick(run.checks, from), fin, task.check);
      assert FromPair(CategoryTargets(run), picked, g, task, task.check, task.target) <==>
             task.check in picked && task.target in CategoryTargets(run);
    }
    if task.FinishCheck? { PickMeans(run.checks, (c: Check) => c.finishCheck, task.check); }
    assert PkgFinish(run) == Cross(CategoryTargets(run), picked, g) + Map(c => FinishCheck(c), ends);
  }

  /** Categories one by one, each with all its checks, then checks as a whole. */
  ghost predicate FinishedBefore(run: Run, a: Task, b: Task) {
    match (a, b)
    case (FinishTarget(c, CategoryTarget(s)), FinishTarget(d, CategoryTarget(t))) =>
      InFrontOf(run.categories, s, t) || (s == t && InFrontOf(run.checks, c, d))
    case (FinishTarget(_, _), FinishCheck(_)) => true
    case (FinishCheck(c), FinishCheck(d)) => InFrontOf(run.checks, c, d)
    case _ => false
  }

  lemma PkgFinishOrder(run: Run, i: nat, j: nat)
    requires i < j < |PkgFinish(run)|
    ensures FinishedBefore(run, PkgFinish(run)[i], PkgFinish(run)[j])
  {
    var from, fin, g := (c: Check) => c.fromCategory, (c: Check) => c.finishTarget, (c, t) => FinishTarget(c, t);
    var picked := Pick(Pick(run.checks, from), fin);
    var ends, targets := Pick(run.checks, (c: Check) => c.finishCheck), Cross(CategoryTargets(run), picked, g);
    var n := |targets|;
    assert PkgFinish(run) == targets + Map(c => FinishCheck(c), ends);
    if j < n {
      var c, t, d, u := CrossOrder(CategoryTargets(run), picked, g, i, j);
      CategoryIn(run, t);
      CategoryIn(run, u);
      if InFrontOf(CategoryTargets(run), t, u) {
        CategoriesInFront(run, t, u);
      } else {
        PickedInFront(Pick(run.checks, from), fin, c, d);
        PickedInFront(run.checks, from, c, d);
      }
    } else if i < n {
      assert targets[i] in targets;
      CrossMeans(CategoryTargets(run), picked, g, targets[i]);
    } else {
      PickOrder(run.checks, (c: Check) => c.finishCheck, i - n, j - n);
    }
  }

  ghost predicate IsVersionMain(run: Run, task: Task) {
    match task
    case RunCheck(c, CpvTarget(cpv)) => c in run.checks && c.scope.VersionScope? && cpv in run.cpvs
    case RunCheck(c, CpnTarget(cpn)) => c in run.checks && c.scope.PackageScope? && cpn in run.cpns
    case _ => false
  }

  ghost predicate IsVersionFinish(run: Run, task: Task) {
    match task
    case FinishTarget(c, CpvTarget(cpv)) => c in run.checks && c.finishTarget && cpv in run.cpvs
    case FinishTarget(c, CpnTarget(cpn)) => c in run.checks && c.finishTarget && cpn in run.cpns
    case _ => false
  }

  lemma TargetsIn(run: Run, t: Target)
    ensures t in Targets(run).0 <==> t.CpvTarget? && t.cpv in run.cpvs
    ensures t in Targets(run).1 <==> t.CpnTarget? && t.cpn in run.cpns
  {
    MapMeans(c => CpvTarget(c), run.cpvs, t);
    MapMeans(c => CpnTarget(c), run.cpns, t);
  }

  /** A product of targets with the checks a filter lets through. */
  lemma ProductIs(run: Run, targets: seq<Target>, f: Check -> bool, g: (Check, Target) -> Task, task: Task, c: Check, t: Target)
    requires task == g(c, t) && forall d, u :: g(d, u) == task ==> d == c && u == t
    ensures task in Cross(targets, Pick(run.checks, f), g) <==> c in run.checks && f(c) && t in targets
  {
    CrossMeans(targets, Pick(run.checks, f), g, task);
    PickMeans(run.checks, f, c);
    assert FromPair(targets, Pick(run.checks, f), g, task, c, t) <==> c in Pick(run.checks, f) && t in targets;
  }

  lemma NotInProduct(run: Run, targets: seq<Target>, f: Check -> bool, g: (Check, Target) -> Task, task: Task)
    requires forall d, u :: g(d, u) != task
    ensures task !in Cross(targets, Pick(run.checks, f), g)
  {
    CrossMeans(targets, Pick(run.checks, f), g, task);
  }

  lemma VersionMainIs(run: Run, task: Task)
    ensures task in VersionMain(run) <==> IsVersionMain(run, task)
  {
    var v, p, g := (c: Check) => c.scope == VersionScope, (c: Check) => c.scope == PackageScope, (c, t) => RunCheck(c, t);
    var (cpvs, cpns) := Targets(run);
    assert VersionMain(run) == Cross(cpvs, Pick(run.checks, v), g) + Cross(cpns, Pick(run.checks, p), g);
    if task.RunCheck? {
      ProductIs(run, cpvs, v, g, task, task.check, task.target);
      ProductIs(run, cpns, p, g, task, task.check, task.target);
      TargetsIn(run, task.target);
    } else {
      NotInProduct(run, cpvs, v, g, task);
      NotInProduct(run, cpns, p, g, task);
    }
  }

  lemma VersionFinishIs(run: Run, task: Task)
    ensures task in VersionFinish(run) <==> IsVersionFinish(run, task)
  {
    var f, g := (c: Check) => c.finishTarget, (c, t) => FinishTarget(c, t);
    var (cpvs, cpns) := Targets(run);
    assert VersionFinish(run) == Cross(cpvs, Pick(run.checks, f), g) + Cross(cpns, Pick(run.checks, f), g);
    if task.FinishTarget? {
      ProductIs(run, cpvs, f, g, task, task.check, task.target);
      ProductIs(run, cpns, f, g, task, task.check, task.target);
      TargetsIn(run, task.target);
    } else {
      NotInProduct(run, cpvs, f, g, task);
      NotInProduct(run, cpns, f, g, task);
    }
  }

  /** Versions one by one, each with all its checks, then packages in the same way. */
  ghost predicate VersionBefore(run: Run, c: Check, t: Target, d: Check, u: Target) {
    match (t, u)
    case (CpvTarget(x), CpvTarget(y)) => InFrontOf(run.cpvs, x, y) || (x == y && InFrontOf(run.checks, c, d))
    case (CpvTarget(_), CpnTarget(_)) => true
    case (CpnTarget(x), CpnTarget(y)) => InFrontOf(run.cpns, x, y) || (x == y && InFrontOf(run.checks, c, d))
    case _ => false
  }

  lemma TargetsInFront(run: Run, t: Target, u: Target)
    ensures InFrontOf(Targets(run).0, t, u) ==> t.CpvTarget? && u.CpvTarget? && InFrontOf(run.cpvs, t.cpv, u.cpv)
    ensures InFrontOf(Targets(run).1, t, u) ==> t.CpnTarget? && u.CpnTarget? && InFrontOf(run.cpns, t.cpn, u.cpn)
  {
    var (cpvs, cpns) := Targets(run);
    if i, j :| 0 <= i < j < |cpvs| && cpvs[i] == t && cpvs[j] == u {
      assert run.cpvs[i] == t.cpv && run.cpvs[j] == u.cpv;
    }
    if i, j :| 0 <= i < j < |cpns| && cpns[i] == t && cpns[j] == u {
      assert run.cpns[i] == t.cpn && run.cpns[j] == u.cpn;
    }
  }

  /** The order in a product over versions followed by one over packages. */
  lemma TwoProducts(run: Run, f: Check -> bool, h: Check -> bool, g: (Check, Target) -> Task, i: nat, j: nat)
    returns (c: Check, t: Target, d: Check, u: Target)
    requires i < j < |Cross(Targets(run).0, Pick(run.checks, f), g) + Cross(Targets(run).1, Pick(run.checks, h), g)|
    ensures var all := Cross(Targets(run).0, Pick(run.checks, f), g) + Cross(Targets(run).1, Pick(run.checks, h), g);
            all[i] == g(c, t) && all[j] == g(d, u) && VersionBefore(run, c, t, d, u)
  {
    var (cpvs, cpns) := Targets(run);
    var xs, ys := Cross(cpvs, Pick(run.checks, f), g), Cross(cpns, Pick(run.checks, h), g);
    var n := |xs|;
    if j < n {
      c, t, d, u := OneProduct(run, cpvs, f, g, i, j);
    } else if i < n {
      c, t := SomePair(run, cpvs, f, g, i);
      d, u := SomePair(run, cpns, h, g, j - n);
      TargetsIn(run, t);
      TargetsIn(run, u);
      assert VersionBefore(run, c, t, d, u);
    } else {
      c, t, d, u := OneProduct(run, cpns, h, g, i - n, j - n);
    }
  }

  lemma SomePair(run: Run, targets: seq<Target>, f: Check -> bool, g: (Check, Target) -> Task, i: nat) returns (c: Check, t: Target)
    requires i < |Cross(targets, Pick(run.checks, f), g)|
    ensures t in targets && Cross(targets, Pick(run.checks, f), g)[i] == g(c, t)
  {
    var x := Cross(targets, Pick(run.checks, f), g)[i];
    assert x in Cross(targets, Pick(run.checks, f), g);
    CrossMeans(targets, Pick(run.checks, f), g, x);
    c, t :| FromPair(targets, Pick(run.checks, f), g, x, c, t);
  }

  lemma OneProduct(run: Run, targets: seq<Target>, f: Check -> bool, g: (Check, Target) -> Task, i: nat, j: nat)
    returns (c: Check, t: Target, d: Check, u: Target)
    requires i < j < |Cross(targets, Pick(run.checks, f), g)| && (targets == Targets(run).0 || targets == Targets(run).1)
    ensures t in targets && u in targets
    ensures Cross(targets, Pick(run.checks, f), g)[i] == g(c, t) && Cross(targets, Pick(run.checks, f), g)[j] == g(d, u)
    ensures VersionBefore(run, c, t, d, u)
  {
    c, t, d, u := CrossOrder(targets, Pick(run.checks, f), g, i, j);
    TargetsIn(run, t);
    TargetsIn(run, u);
    TargetsInFront(run, t, u);
    if InFrontOf(Pick(run.checks, f), c, d) { PickedInFront(run.checks, f, c, d); }
  }

  lemma VersionMainOrder(run: Run, i: nat, j: nat)
    requires i < j < |VersionMain(run)|
    ensures var (a, b) := (VersionMain(run)[i], VersionMain(run)[j]);
            a.RunCheck? && b.RunCheck? && VersionBefore(run, a.check, a.target, b.check, b.target)
  {
    var v, p, g := (c: Check) => c.scope == VersionScope, (c: Check) => c.scope == PackageScope, (c, t) => RunCheck(c, t);
    assert VersionMain(run) == Cross(Targets(run).0, Pick(run.checks, v), g) + Cross(Targets(run).1, Pick(run.checks, p), g);
    var c, t, d, u := TwoProducts(run, v, p, g, i, j);
  }

  lemma VersionFinishOrder(run: Run, i: nat, j: nat)
    requires i < j < |VersionFinish(run)|
    ensures var (a, b) := (VersionFinish(run)[i], VersionFinish(run)[j]);
            a.FinishTarget? && b.FinishTarget? && VersionBefore(run, a.check, a.target, b.check, b.target)
  {
    var f, g := (c: Check) => c.finishTarget, (c, t) => FinishTarget(c, t);
    assert VersionFinish(run) == Cross(Targets(run).0, Pick(run.checks, f), g) + Cross(Targets(run).1, Pick(run.checks, f), g);
    var c, t, d, u := TwoProducts(run, f, f, g, i, j);
  }

  // ---------------------------------------------------------------- where reports come from

  /** Every call of a package-level scan. */
  ghost predicate PkgCalls(run: Run, task: Task) {
    match task
    case RunChecks(cpn) => cpn in run.cpns && ChecksPackages(run)
    case RunCheck(c, RepoTarget) => c in run.checks && c.fromRepo
    case RunCheck(c, CategoryTarget(s)) => c in run.checks && c.fromCategory && s in run.categories
    case _ => IsPkgFinish(run, task)
  }

  lemma {:induction false} ReportOfJob(p: Plan, n: nat, r: Report)
    requires n <= Total(p)
    ensures r in AllReports(p, n) <==> exists k: nat :: k < n && r in Reports(p, k)
  {
    if n > 0 { ReportOfJob(p, n - 1, r); }
  }

  /** What a worker makes of a message: a package runs all checks, any other target the one it comes with. */
  ghost function TaskOf(m: Message): Task
    requires m.target.CpnTarget? || m.check.Some?
  {
    if m.target.CpnTarget? then RunChecks(m.target.cpn) else RunCheck(m.check.value, m.target)
  }

  /** The call that a job of a package-level scan makes. */
  ghost function PkgTask(run: Run, k: nat): Task
    requires k < |PkgMessages(run)| + |PkgFinish(run)|
  {
    if k >= |PkgMessages(run)| then PkgFinish(run)[k - |PkgMessages(run)|] else
      var m := PkgMessages(run)[k];
      assert m in PkgMessages(run);
      MessagesAre(run, m);
      TaskOf(m)
  }

  lemma JobEmits(run: Run, emit: Task -> seq<Report>, k: nat)
    requires k < Total(PkgPlan(run, emit))
    ensures k < |PkgMessages(run)| + |PkgFinish(run)| && Reports(PkgPlan(run, emit), k) == emit(PkgTask(run, k))
  {
    PlanSizes(run, emit);
    if k < |PkgMessages(run)| {
      MessageAt(run, k);
      if k < |PkgChecks(run)| { CheckMessages(run, k); }
    }
  }

  lemma TaskIsCalled(run: Run, k: nat)
    requires k < |PkgMessages(run)| + |PkgFinish(run)|
    ensures PkgCalls(run, PkgTask(run, k))
  {
    var n := |PkgMessages(run)|;
    if k < n {
      assert PkgMessages(run)[k] in PkgMessages(run);
      MessagesAre(run, PkgMessages(run)[k]);
    } else {
      assert PkgFinish(run)[k - n] in PkgFinish(run);
      PkgFinishIs(run, PkgFinish(run)[k - n]);
    }
  }

  lemma CalledIsTask(run: Run, task: Task) returns (k: nat)
    requires PkgCalls(run, task)
    ensures k < |PkgMessages(run)| + |PkgFinish(run)| && PkgTask(run, k) == task
  {
    var n := |PkgMessages(run)|;
    match task
    case RunChecks(cpn) =>
      var i :| 0 <= i < |run.cpns| && run.cpns[i] == cpn;
      var m := Message(None, CpnTarget(cpn), i);
      MessagesAre(run, m);
      k :| k < n && PkgMessages(run)[k] == m;
    case RunCheck(c, t) =>
      var m := Message(Some(c), t, 0);
      MessagesAre(run, m);
      k :| k < n && PkgMessages(run)[k] == m;
    case _ =>
      PkgFinishIs(run, task);
      var j: nat :| j < |PkgFinish(run)| && PkgFinish(run)[j] == task;
      k := n + j;
  }

  /** A finished package-level scan has yielded a report exactly when one of its calls emitted it. */
  lemma PkgScanYields(run: Run, emit: Task -> seq<Report>, sort: bool, schedule: seq<Label>, r: Report)
    requires run.jobs >= 1
    requires var done := Exec(PkgPlan(run, emit), sort, schedule); done.Some? && done.value.r.done
    ensures r in Exec(PkgPlan(run, emit), sort, schedule).value.r.yielded <==> exists task :: PkgCalls(run, task) && r in emit(task)
  {
    var p := PkgPlan(run, emit);
    EveryReportOnce(p, sort, schedule);
    var yielded := Exec(p, sort, schedule).value.r.yielded;
    assert r in yielded <==> r in multiset(yielded);
    PlanReports(run, emit, r);
  }

  lemma PlanReports(run: Run, emit: Task -> seq<Report>, r: Report)
    ensures var p := PkgPlan(run, emit);
            r in AllReports(p, Total(p)) <==> exists task :: PkgCalls(run, task) && r in emit(task)
  {
    var p := PkgPlan(run, emit);
    PlanSizes(run, emit);
    ReportOfJob(p, Total(p), r);
    if k: nat :| k < Total(p) && r in Reports(p, k) {
      JobEmits(run, emit, k);
      TaskIsCalled(run, k);
    }
    if task :| PkgCalls(run, task) && r in emit(task) {
      var k := CalledIsTask(run, task);
      JobEmits(run, emit, k);
    }
  }

  /** The same for a version-level scan. */
  lemma VersionScanYields(run: Run, emit: Task -> seq<Report>, sort: bool, schedule: seq<Label>, r: Report)
    requires run.jobs >= 1
    requires var done := Exec(VersionPlan(run, emit), sort, schedule); done.Some? && done.value.r.done
    ensures r in Exec(VersionPlan(run, emit), sort, schedule).value.r.yielded <==>
            exists task :: VersionCalls(run, task) && r in emit(task)
  {
    var p := VersionPlan(run, emit);
    EveryReportOnce(p, sort, schedule);
    var yielded := Exec(p, sort, schedule).value.r.yielded;
    assert r in yielded <==> r in multiset(yielded);
    VersionReports(run, emit, r);
  }

  ghost predicate VersionCalls(run: Run, task: Task) {
    IsVersionMain(run, task) || IsVersionFinish(run, task)
  }

  ghost function VersionTask(run: Run, k: nat): Task
    requires k < |VersionMain(run)| + |VersionFinish(run)|
  {
    (VersionMain(run) + VersionFinish(run))[k]
  }

  lemma VersionJobEmits(run: Run, emit: Task -> seq<Report>, k: nat)
    requires k < Total(VersionPlan(run, emit))
    ensures k < |VersionMain(run)| + |VersionFinish(run)| && Reports(VersionPlan(run, emit), k) == emit(VersionTask(run, k))
  {
    VersionSizes(run, emit);
  }

  lemma VersionSizes(run: Run, emit: Task -> seq<Report>)
    ensures var p := VersionPlan(run, emit);
            |p.checks| == |VersionMain(run)| && p.pkgs == [] && Total(p) == |VersionMain(run)| + |VersionFinish(run)|
  {
  }

  lemma VersionTaskIsCalled(run: Run, k: nat)
    requires k < |VersionMain(run)| + |VersionFinish(run)|
    ensures VersionCalls(run, VersionTask(run, k))
  {
    var task := VersionTask(run, k);
    assert task in VersionMain(run) || task in VersionFinish(run);
    VersionMainIs(run, task);
    VersionFinishIs(run, task);
  }

  lemma VersionCalledIsTask(run: Run, task: Task) returns (k: nat)
    requires VersionCalls(run, task)
    ensures k < |VersionMain(run)| + |VersionFinish(run)| && VersionTask(run, k) == task
  {
    VersionMainIs(run, task);
    VersionFinishIs(run, task);
    var all := VersionMain(run) + VersionFinish(run);
    assert task in all;
    k :| k < |all| && all[k] == task;
  }

  lemma VersionReports(run: Run, emit: Task -> seq<Report>, r: Report)
    ensures var p := VersionPlan(run, emit);
            r in AllReports(p, Total(p)) <==> exists task :: VersionCalls(run, task) && r in emit(task)
  {
    var p := VersionPlan(run, emit);
    VersionSizes(run, emit);
    ReportOfJob(p, Total(p), r);
    if k: nat :| k < Total(p) && r in Reports(p, k) {
      VersionJobEmits(run, emit, k);
      VersionTaskIsCalled(run, k);
    }
    if task :| VersionCalls(run, task) && r in emit(task) {
      var k := VersionCalledIsTask(run, task);
      VersionJobEmits(run, emit, k);
    }
  }
}
