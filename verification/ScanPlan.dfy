/**
 Which jobs a scan consists of: the two producers of `crates/pkgcruft/src/iter.rs` and what their
 workers send for each job.  Checks are abstract: a deterministic function from a call to reports.
 */
module ScanPlan {
  import opened Wrappers
  import opened ReportOrder
  import opened ScanConsumer
  import opened ScanThreads
  import opened ScanHistory
  import opened ScanPipeline
  import opened ScanResults

  /** What the producers look at in a check. */
  datatype Check = Check(name: nat, fromRepo: bool, fromCategory: bool, scope: Scope, finishTarget: bool, finishCheck: bool)

  /** The checks of a run and the targets its restriction matches. */
  datatype Run = Run(checks: seq<Check>, categories: seq<string>, cpns: seq<Cpn>, cpvs: seq<Cpv>, jobs: nat)

  /** A call of a check runner. */
  datatype Task =
    | RunChecks(cpn: Cpn)
    | RunCheck(check: Check, target: Target)
    | FinishTarget(check: Check, target: Target)
    | FinishCheck(check: Check)

  /** A message on the targets channel of a package-level scan. */
  datatype Message = Message(check: Option<Check>, target: Target, id: nat)

  ghost function Pick(checks: seq<Check>, f: Check -> bool): seq<Check> {
    if checks == [] then [] else (if f(checks[0]) then [checks[0]] else []) + Pick(checks[1..], f)
  }

  ghost function Map<A, B>(f: A -> B, xs: seq<A>): (ys: seq<B>)
    ensures |ys| == |xs| && forall i :: 0 <= i < |xs| ==> ys[i] == f(xs[i])
  {
    if xs == [] then [] else [f(xs[0])] + Map(f, xs[1..])
  }

  /** For every target, every check. */
  ghost function Cross<A>(targets: seq<Target>, checks: seq<Check>, f: (Check, Target) -> A): seq<A> {
    if targets == [] then [] else Map((c: Check) => f(c, targets[0]), checks) + Cross(targets[1..], checks, f)
  }

  // ---------------------------------------------------------------- package-level scans

  /** The tasks `pkg_producer` enqueues before the packages: repository checks, then category checks. */
  ghost function PkgChecks(run: Run): seq<Message> {
    RepoMessages(run) + CategoryMessages(run)
  }

  ghost predicate RunsPackages(run: Run) {
    exists i :: 0 <= i < |run.checks| && Rank(run.checks[i].scope) <= Rank(PackageScope)
  }

  /** Everything `pkg_producer` sends over the targets channel, in order. */
  ghost function PkgMessages(run: Run): seq<Message> {
    PkgChecks(run) +
    if RunsPackages(run)
    then seq(|run.cpns|, i requires 0 <= i < |run.cpns| => Message(None, CpnTarget(run.cpns[i]), i)) else []
  }

  /** Everything `pkg_producer` sends over the finish channel, as the calls the workers make of it. */
  ghost function PkgFinish(run: Run): seq<Task> {
    Cross(Map(s => CategoryTarget(s), run.categories),
          Pick(Pick(run.checks, (c: Check) => c.fromCategory), (c: Check) => c.finishTarget), (c, t) => FinishTarget(c, t))
    + Map(c => FinishCheck(c), Pick(run.checks, (c: Check) => c.finishCheck))
  }

  /** The loop body of `pkg_worker`: a package runs all checks and is then processed. */
  ghost function PkgWorkerSends(m: Message, emit: Task -> seq<Report>): seq<Item> {
    if m.target.CpnTarget? then Sends(emit(RunChecks(m.target.cpn))) + [Process(m.target, m.id)]
    else if m.check.Some? then Sends(emit(RunCheck(m.check.value, m.target)))
    else []
  }

  ghost function PkgPlan(run: Run, emit: Task -> seq<Report>): Plan {
    Plan(Map((m: Message) => if m.check.Some? then emit(RunCheck(m.check.value, m.target)) else [], PkgChecks(run)),
         if RunsPackages(run) then Map((cpn: Cpn) => Pkg(cpn, emit(RunChecks(cpn))), run.cpns) else [],
         Map(emit, PkgFinish(run)),
         run.jobs)
  }

  lemma {:induction false} CrossTargets<A>(targets: seq<Target>, checks: seq<Check>, f: (Check, Target) -> A, i: nat)
    requires i < |Cross(targets, checks, f)|
    ensures exists c, t :: c in checks && t in targets && Cross(targets, checks, f)[i] == f(c, t)
  {
    var row := Map((c: Check) => f(c, targets[0]), checks);
    if i < |row| {
      assert checks[i] in checks && targets[0] in targets && row[i] == f(checks[i], targets[0]);
    } else {
      CrossTargets(targets[1..], checks, f, i - |row|);
      var c, t :| c in checks && t in targets[1..] && Cross(targets[1..], checks, f)[i - |row|] == f(c, t);
      assert t in targets;
    }
  }

  ghost function RepoMessages(run: Run): seq<Message> {
    Map(c => Message(Some(c), RepoTarget, 0), Pick(run.checks, (c: Check) => c.fromRepo))
  }

  ghost function CategoryMessages(run: Run): seq<Message> {
    Cross(Map(s => CategoryTarget(s), run.categories), Pick(run.checks, (c: Check) => c.fromCategory),
          (c, t) => Message(Some(c), t, 0))
  }

  lemma CategoryMessage(run: Run, i: nat)
    requires i < |CategoryMessages(run)|
    ensures CategoryMessages(run)[i].check.Some? && CategoryMessages(run)[i].target.CategoryTarget?
  {
    var targets := Map(s => CategoryTarget(s), run.categories);
    CrossTargets(targets, Pick(run.checks, (c: Check) => c.fromCategory), (c, t) => Message(Some(c), t, 0), i);
  }

  /** Check messages carry a check and no package. */
  lemma CheckMessages(run: Run, i: nat)
    requires i < |PkgChecks(run)|
    ensures PkgChecks(run)[i].check.Some? && !PkgChecks(run)[i].target.CpnTarget?
  {
    if i >= |RepoMessages(run)| { CategoryMessage(run, i - |RepoMessages(run)|); }
  }

  lemma PlanSizes(run: Run, emit: Task -> seq<Report>)
    ensures var p := PkgPlan(run, emit);
            |p.checks| == |PkgChecks(run)| && MainSize(p) == |PkgMessages(run)| && Total(p) == |PkgMessages(run)| + |PkgFinish(run)|
  {
  }

  lemma CheckJob(run: Run, emit: Task -> seq<Report>, k: nat)
    requires k < |PkgChecks(run)|
    ensures Items(PkgPlan(run, emit), k) == PkgWorkerSends(PkgMessages(run)[k], emit)
  {
    CheckMessages(run, k);
    assert PkgMessages(run)[k] == PkgChecks(run)[k];
  }

  lemma PackageJob(run: Run, emit: Task -> seq<Report>, i: nat)
    requires RunsPackages(run) && i < |run.cpns|
    ensures var k := |PkgChecks(run)| + i; Items(PkgPlan(run, emit), k) == PkgWorkerSends(PkgMessages(run)[k], emit)
  {
    assert PkgMessages(run)[|PkgChecks(run)| + i] == Message(None, CpnTarget(run.cpns[i]), i);
  }

  lemma FinishJob(run: Run, emit: Task -> seq<Report>, i: nat)
    requires i < |PkgFinish(run)|
    ensures Items(PkgPlan(run, emit), |PkgMessages(run)| + i) == Sends(emit(PkgFinish(run)[i]))
  {
    PlanSizes(run, emit);
  }

  /**
   The plan is what producer and workers do, job by job and message by message: every message is a job and
   every job a message, over the targets channel and then over the finish channel.
   */
  lemma PkgPlanMatches(run: Run, emit: Task -> seq<Report>, k: nat)
    ensures MainSize(PkgPlan(run, emit)) == |PkgMessages(run)|
    ensures Total(PkgPlan(run, emit)) == |PkgMessages(run)| + |PkgFinish(run)|
    ensures k < |PkgMessages(run)| ==> Items(PkgPlan(run, emit), k) == PkgWorkerSends(PkgMessages(run)[k], emit)
    ensures k < |PkgFinish(run)| ==> Items(PkgPlan(run, emit), |PkgMessages(run)| + k) == Sends(emit(PkgFinish(run)[k]))
  {
    PlanSizes(run, emit);
    if k < |PkgMessages(run)| { MainJob(run, emit, k); }
    if k < |PkgFinish(run)| { FinishJob(run, emit, k); }
  }

  lemma MainJob(run: Run, emit: Task -> seq<Report>, k: nat)
    requires k < |PkgMessages(run)|
    ensures k < Total(PkgPlan(run, emit)) && Items(PkgPlan(run, emit), k) == PkgWorkerSends(PkgMessages(run)[k], emit)
  {
    PlanSizes(run, emit);
    if k < |PkgChecks(run)| { CheckJob(run, emit, k); } else { PackageJob(run, emit, k - |PkgChecks(run)|); }
  }

  /**
   Of the calls a package-level scan makes before the finish phase, only `run_checks` on a package reports
   on that package.  A scan without package-level checks makes no such calls on packages.
   */
  ghost predicate Local(run: Run, emit: Task -> seq<Report>) {
    RunsPackages(run) ==>
    && (forall m, r, cpn | m in PkgChecks(run) && m.check.Some? && r in emit(RunCheck(m.check.value, m.target))
                           && cpn in run.cpns :: !Concerns(r.scope, cpn))
    && (forall a, b, r | a in run.cpns && b in run.cpns && r in emit(RunChecks(a)) :: Concerns(r.scope, b) ==> a == b)
  }

  lemma ChecksConcernNoPackage(run: Run, emit: Task -> seq<Report>, k: nat, n: nat, i: nat)
    requires Local(run, emit) && RunsPackages(run) && k < |PkgChecks(run)| && i < |run.cpns|
    requires var p := PkgPlan(run, emit); n < |Reports(p, k)|
    ensures !Concerns(Reports(PkgPlan(run, emit), k)[n].scope, run.cpns[i])
  {
    CheckMessages(run, k);
    var m := PkgChecks(run)[k];
    assert m in PkgChecks(run) && run.cpns[i] in run.cpns;
    assert Reports(PkgPlan(run, emit), k)[n] in emit(RunCheck(m.check.value, m.target));
  }

  lemma JobsConcernTheirPackage(run: Run, emit: Task -> seq<Report>, j: nat, n: nat, i: nat)
    requires Local(run, emit) && RunsPackages(run) && j < |run.cpns| && i < |run.cpns|
    requires n < |emit(RunChecks(run.cpns[j]))| && Concerns(emit(RunChecks(run.cpns[j]))[n].scope, run.cpns[i])
    ensures run.cpns[j] == run.cpns[i]
  {
    assert emit(RunChecks(run.cpns[j]))[n] in emit(RunChecks(run.cpns[j]));
    assert run.cpns[j] in run.cpns && run.cpns[i] in run.cpns;
  }

  /** A report on a package, sent in the main phase, comes from the package's own job. */
  lemma OwnJob(run: Run, emit: Task -> seq<Report>, k: nat, i: nat, n: nat)
    requires forall i, j :: 0 <= i < j < |run.cpns| ==> run.cpns[i] != run.cpns[j]
    requires Local(run, emit) && RunsPackages(run) && k < MainSize(PkgPlan(run, emit)) && i < |run.cpns|
    requires n < |Reports(PkgPlan(run, emit), k)| && Concerns(Reports(PkgPlan(run, emit), k)[n].scope, run.cpns[i])
    ensures k == |PkgChecks(run)| + i
  {
    PlanSizes(run, emit);
    if k < |PkgChecks(run)| {
      ChecksConcernNoPackage(run, emit, k, n, i);
    } else {
      JobsConcernTheirPackage(run, emit, k - |PkgChecks(run)|, n, i);
    }
  }

  lemma LocalIsScoped(run: Run, emit: Task -> seq<Report>)
    requires forall i, j :: 0 <= i < j < |run.cpns| ==> run.cpns[i] != run.cpns[j]
    requires Local(run, emit)
    ensures Scoped(PkgPlan(run, emit))
  {
    var p := PkgPlan(run, emit);
    if RunsPackages(run) {
      forall k, i, n | 0 <= k < MainSize(p) && 0 <= i < |p.pkgs| && 0 <= n < |Reports(p, k)|
        ensures Concerns(Reports(p, k)[n].scope, p.pkgs[i].cpn) ==> k == |p.checks| + i
      {
        assert p.pkgs[i].cpn == run.cpns[i];
        if Concerns(Reports(p, k)[n].scope, run.cpns[i]) { OwnJob(run, emit, k, i, n); }
      }
    } else {
      assert p.pkgs == [];
    }
  }

  /** A sorted package-level scan: the packages' own reports in repository order, then the rest. */
  lemma SortedPkgScan(run: Run, emit: Task -> seq<Report>, schedule: seq<Label>)
    requires run.jobs >= 1 && Local(run, emit)
    requires forall i, j :: 0 <= i < j < |run.cpns| ==> run.cpns[i] != run.cpns[j]
    requires var done := Exec(PkgPlan(run, emit), true, schedule); done.Some? && done.value.r.done
    ensures Exec(PkgPlan(run, emit), true, schedule).value.r.yielded == Expected(PkgPlan(run, emit))
  {
    LocalIsScoped(run, emit);
    SortedOutput(PkgPlan(run, emit), schedule);
  }

  // ---------------------------------------------------------------- version-level scans

  ghost function Targets(run: Run): (seq<Target>, seq<Target>) {
    (Map(c => CpvTarget(c), run.cpvs), Map(c => CpnTarget(c), run.cpns))
  }

  /** What `version_producer` sends over the targets channel; its workers call `run_check` for each. */
  ghost function VersionMain(run: Run): seq<Task> {
    Cross(Targets(run).0, Pick(run.checks, (c: Check) => c.scope == VersionScope), (c, t) => RunCheck(c, t))
    + Cross(Targets(run).1, Pick(run.checks, (c: Check) => c.scope == PackageScope), (c, t) => RunCheck(c, t))
  }

  /** What `version_producer` sends over the finish channel; its workers call `finish_target` for each. */
  ghost function VersionFinish(run: Run): seq<Task> {
    Cross(Targets(run).0, Pick(run.checks, (c: Check) => c.finishTarget), (c, t) => FinishTarget(c, t))
    + Cross(Targets(run).1, Pick(run.checks, (c: Check) => c.finishTarget), (c, t) => FinishTarget(c, t))
  }

  ghost function VersionPlan(run: Run, emit: Task -> seq<Report>): Plan {
    Plan(Map(emit, VersionMain(run)), [], Map(emit, VersionFinish(run)), run.jobs)
  }

  /** A version-level scan processes no package, so it yields all reports sorted, asked for or not. */
  lemma VersionScanIsSorted(run: Run, emit: Task -> seq<Report>, sort: bool, schedule: seq<Label>)
    requires run.jobs >= 1
    requires var done := Exec(VersionPlan(run, emit), sort, schedule); done.Some? && done.value.r.done
    ensures var (p, yielded) := (VersionPlan(run, emit), Exec(VersionPlan(run, emit), sort, schedule).value.r.yielded);
            Sorted(yielded) && multiset(yielded) == AllReports(p, Total(p))
  {
    var p := VersionPlan(run, emit);
    EveryReportOnce(p, sort, schedule);
    SortLaws(Leftovers(p, Total(p)));
    if sort {
      SortedOutput(p, schedule);
    } else {
      var order := UnsortedOutput(p, schedule);
      NothingProcessed(p, order);
    }
  }

  lemma FirstIsBlock(order: seq<nat>, blocks: map<nat, seq<Report>>)
    requires Covers(order, blocks)
    ensures order == [] || order[0] in blocks
  {
    if order != [] { assert order[0] in order; }
  }

  lemma NothingProcessed(p: Plan, order: seq<nat>)
    requires p.pkgs == [] && Covers(order, PkgBlocks(p))
    ensures order == []
  {
    FirstIsBlock(order, PkgBlocks(p));
  }
}
