/**
 Reports and their order (`crates/pkgcruft/src/report.rs`), and sorting by it.

 `ReportScope` has a hand-written `cmp` that interleaves packages with their versions; it is shown
 to be a total order, so that sorting a bag of reports has one possible result.
 */
module ReportOrder {
  import opened Wrappers

  datatype Location = Location(line: nat, column: nat)

  datatype Cpn = Cpn(category: string, package: string)

  /** A versioned package; the version is its place in the version order. */
  datatype Cpv = Cpv(cpn: Cpn, version: int)

  datatype Scope = VersionScope | PackageScope | CategoryScope | RepoScope

  datatype ReportScope =
    | Version(cpv: Cpv, location: Option<Location>)
    | Package(cpn: Cpn)
    | Category(category: string)
    | Repo(repo: string)
  {
    function Scope(): Scope {
      match this
      case Version(_, _) => VersionScope
      case Package(_) => PackageScope
      case Category(_) => CategoryScope
      case Repo(_) => RepoScope
    }
  }

  /** A report; `kind` is the place of its variant in `ReportKind`. */
  datatype Report = Report(scope: ReportScope, kind: nat, message: Option<string>)

  function CmpMessage(a: Option<string>, b: Option<string>): Ordering {
    match (a, b)
    case (None, None) => Equal
    case (None, Some(_)) => Less
    case (Some(_), None) => Greater
    case (Some(x), Some(y)) => CmpString(x, y)
  }

  function CmpLocation(a: Option<Location>, b: Option<Location>): Ordering {
    match (a, b)
    case (None, None) => Equal
    case (None, Some(_)) => Less
    case (Some(_), None) => Greater
    case (Some(x), Some(y)) => CmpInt(x.line, y.line).Then(CmpInt(x.column, y.column))
  }

  function CmpCpn(a: Cpn, b: Cpn): Ordering {
    CmpString(a.category, b.category).Then(CmpString(a.package, b.package))
  }

  function CmpCpv(a: Cpv, b: Cpv): Ordering {
    CmpCpn(a.cpn, b.cpn).Then(CmpInt(a.version, b.version))
  }

  function Rank(s: Scope): nat {
    match s case VersionScope => 0 case PackageScope => 1 case CategoryScope => 2 case RepoScope => 3
  }

  function CmpRank(a: ReportScope, b: ReportScope): Ordering {
    CmpInt(Rank(a.Scope()), Rank(b.Scope()))
  }

  /** `impl Ord for ReportScope`, arm by arm. */
  function CmpScope(a: ReportScope, b: ReportScope): Ordering {
    match (a, b)
    case (Repo(x), Repo(y)) => CmpString(x, y)
    case (Category(x), Category(y)) => CmpString(x, y)
    case (Package(x), Package(y)) => CmpCpn(x, y)
    case (Version(x, l), Version(y, m)) => CmpCpv(x, y).Then(CmpLocation(l, m))
    case (Version(x, _), Package(y)) => CmpCpn(x.cpn, y).Then(CmpRank(a, b))
    case (Package(x), Version(y, _)) => CmpCpn(x, y.cpn).Then(CmpRank(a, b))
    case _ => CmpRank(a, b)
  }

  /** The derived order of `Report`: scope, then kind, then message. */
  function CmpReport(a: Report, b: Report): Ordering {
    CmpScope(a.scope, b.scope).Then(CmpInt(a.kind, b.kind)).Then(CmpMessage(a.message, b.message))
  }

  // ---------------------------------------------------------------- the order laws

  lemma CpnLaws(a: Cpn, b: Cpn, c: Cpn)
    ensures CmpCpn(a, b) == Equal <==> a == b
    ensures CmpCpn(b, a) == CmpCpn(a, b).Flip()
    ensures CmpCpn(a, b) != Greater && CmpCpn(b, c) != Greater ==> CmpCpn(a, c) != Greater
  {
    StringLaws(a.category, b.category, c.category);
    StringLaws(b.category, c.category, a.category);
    StringLaws(c.category, a.category, b.category);
    StringLaws(a.package, b.package, c.package);
  }

  lemma ScopePair(a: ReportScope, b: ReportScope)
    ensures CmpScope(a, b) == Equal <==> a == b
    ensures CmpScope(b, a) == CmpScope(a, b).Flip()
  {
    match (a, b)
    case (Repo(x), Repo(y)) => StringLaws(x, y, x);
    case (Category(x), Category(y)) => StringLaws(x, y, x);
    case (Package(x), Package(y)) => CpnLaws(x, y, x);
    case (Version(x, _), Version(y, _)) => CpnLaws(x.cpn, y.cpn, x.cpn);
    case (Version(x, _), Package(y)) => CpnLaws(x.cpn, y, y);
    case (Package(x), Version(y, _)) => CpnLaws(x, y.cpn, x);
    case _ =>
  }

  function PackageOf(s: ReportScope): Cpn
    requires s.Version? || s.Package?
  {
    if s.Version? then s.cpv.cpn else s.cpn
  }

  lemma ScopeTransitive(a: ReportScope, b: ReportScope, c: ReportScope)
    requires CmpScope(a, b) != Greater && CmpScope(b, c) != Greater
    ensures CmpScope(a, c) != Greater
  {
    if a.Repo? && b.Repo? && c.Repo? {
      StringLaws(a.repo, b.repo, c.repo);
    } else if a.Category? && b.Category? && c.Category? {
      StringLaws(a.category, b.category, c.category);
    } else if Rank(a.Scope()) <= 1 && Rank(b.Scope()) <= 1 && Rank(c.Scope()) <= 1 {
      var x, y, z := PackageOf(a), PackageOf(b), PackageOf(c);
      CpnLaws(x, y, z);
      CpnLaws(y, z, x);
      CpnLaws(z, x, y);
    }
  }

  /** `CmpReport` is a total order whose equality is equality of reports. */
  lemma ReportLaws(a: Report, b: Report, c: Report)
    ensures CmpReport(a, b) == Equal <==> a == b
    ensures CmpReport(b, a) == CmpReport(a, b).Flip()
    ensures CmpReport(a, b) != Greater && CmpReport(b, c) != Greater ==> CmpReport(a, c) != Greater
  {
    ScopePair(a.scope, b.scope);
    ScopePair(b.scope, c.scope);
    ScopePair(a.scope, c.scope);
    MessageLaws(a.message, b.message, c.message);
    if CmpReport(a, b) != Greater && CmpReport(b, c) != Greater {
      ScopeTransitive(a.scope, b.scope, c.scope);
      if CmpScope(a.scope, c.scope) == Equal {
        ScopeTransitive(c.scope, a.scope, b.scope);
      }
    }
  }

  lemma MessageLaws(a: Option<string>, b: Option<string>, c: Option<string>)
    ensures CmpMessage(a, b) == Equal <==> a == b
    ensures CmpMessage(b, a) == CmpMessage(a, b).Flip()
    ensures CmpMessage(a, b) != Greater && CmpMessage(b, c) != Greater ==> CmpMessage(a, c) != Greater
  {
    StringLaws(if a.Some? then a.value else [], if b.Some? then b.value else [], if c.Some? then c.value else []);
  }

  /** Packages are never interleaved: between two reports on one there are only reports on it. */
  lemma PackagesAreContiguous(a: ReportScope, b: ReportScope, c: ReportScope)
    requires a.Version? || a.Package?
    requires c.Version? || c.Package?
    requires PackageOf(a) == PackageOf(c)
    requires CmpScope(a, b) != Greater && CmpScope(b, c) != Greater
    ensures (b.Version? || b.Package?) && PackageOf(b) == PackageOf(a)
  {
    CpnLaws(PackageOf(a), PackageOf(c), PackageOf(a));
    if b.Version? || b.Package? {
      CpnLaws(PackageOf(a), PackageOf(b), PackageOf(c));
    }
  }

  // ---------------------------------------------------------------- which report comes first

  ghost predicate CpnBefore(a: Cpn, b: Cpn) {
    StringBefore(a.category, b.category) || (a.category == b.category && StringBefore(a.package, b.package))
  }

  /** No location comes first, then by line, then by column. */
  predicate LocationBefore(a: Option<Location>, b: Option<Location>) {
    b.Some? && (a.None? || a.value.line < b.value.line || (a.value.line == b.value.line && a.value.column < b.value.column))
  }

  /** For one package: older versions first, each in the order of its locations, then the package as a whole. */
  predicate InPackageBefore(a: ReportScope, b: ReportScope) {
    a.Version? && (b.Package? || (b.Version? &&
      (a.cpv.version < b.cpv.version || (a.cpv.version == b.cpv.version && LocationBefore(a.location, b.location)))))
  }

  /** All packages before all categories before all repositories; packages in the order of their names. */
  ghost predicate ScopeBefore(a: ReportScope, b: ReportScope) {
    if a.Repo? then b.Repo? && StringBefore(a.repo, b.repo)
    else if a.Category? then b.Repo? || (b.Category? && StringBefore(a.category, b.category))
    else b.Repo? || b.Category? || CpnBefore(PackageOf(a), PackageOf(b)) || (PackageOf(a) == PackageOf(b) && InPackageBefore(a, b))
  }

  /** In one place, by kind; for one kind, no message comes first. */
  ghost predicate ReportBefore(a: Report, b: Report) {
    ScopeBefore(a.scope, b.scope) || (a.scope == b.scope && (a.kind < b.kind || (a.kind == b.kind && MessageBefore(a.message, b.message))))
  }

  ghost predicate MessageBefore(a: Option<string>, b: Option<string>) {
    b.Some? && (a.None? || StringBefore(a.value, b.value))
  }

  lemma CpnOrder(a: Cpn, b: Cpn)
    ensures CmpCpn(a, b) == Less <==> CpnBefore(a, b)
  {
    StringLaws(a.category, b.category, a.category);
    StringOrder(a.category, b.category);
    StringOrder(a.package, b.package);
  }

  lemma ScopeOrder(a: ReportScope, b: ReportScope)
    ensures CmpScope(a, b) == Less <==> ScopeBefore(a, b)
  {
    match (a, b)
    case (Repo(x), Repo(y)) => StringOrder(x, y);
    case (Category(x), Category(y)) => StringOrder(x, y);
    case (Repo(_), _) =>
    case (_, Repo(_)) =>
    case (Category(_), _) =>
    case (_, Category(_)) =>
    case _ => PackageOrder(a, b);
  }

  lemma PackageOrder(a: ReportScope, b: ReportScope)
    requires (a.Version? || a.Package?) && (b.Version? || b.Package?)
    ensures CmpScope(a, b) == Less <==>
            CpnBefore(PackageOf(a), PackageOf(b)) || (PackageOf(a) == PackageOf(b) && InPackageBefore(a, b))
  {
    CpnOrder(PackageOf(a), PackageOf(b));
    CpnLaws(PackageOf(a), PackageOf(b), PackageOf(a));
    CpnLaws(PackageOf(a), PackageOf(a), PackageOf(a));
  }

  /** The order of reports, on their fields. */
  lemma ReportsInOrder(a: Report, b: Report)
    ensures CmpReport(a, b) == Less <==> ReportBefore(a, b)
  {
    ScopePair(a.scope, b.scope);
    ScopeOrder(a.scope, b.scope);
    if a.message.Some? && b.message.Some? { StringOrder(a.message.value, b.message.value); }
    MessageLaws(a.message, b.message, a.message);
  }

  // ---------------------------------------------------------------- sorting

  predicate Leq(a: Report, b: Report) {
    CmpReport(a, b) != Greater
  }

  predicate Sorted(s: seq<Report>) {
    forall i, j :: 0 <= i < j < |s| ==> Leq(s[i], s[j])
  }

  function Insert(r: Report, s: seq<Report>): seq<Report> {
    if s == [] || Leq(r, s[0]) then [r] + s else [s[0]] + Insert(r, s[1..])
  }

  /** The sorted rearrangement of a sequence. */
  function Sort(s: seq<Report>): seq<Report> {
    if s == [] then [] else Insert(s[0], Sort(s[1..]))
  }

  lemma {:induction false} InsertLaws(r: Report, s: seq<Report>)
    requires Sorted(s)
    ensures Sorted(Insert(r, s))
    ensures multiset(Insert(r, s)) == multiset{r} + multiset(s)
  {
    if s == [] {
    } else if Leq(r, s[0]) {
      forall j | 0 <= j < |s| ensures Leq(r, s[j]) {
        ReportLaws(r, s[0], s[j]);
        ReportLaws(s[0], s[0], s[0]);
      }
    } else {
      InsertLaws(r, s[1..]);
      var t := Insert(r, s[1..]);
      ReportLaws(r, s[0], r);
      assert s == [s[0]] + s[1..];
      forall j | 0 <= j < |t| ensures Leq(s[0], t[j]) {
        assert t[j] in multiset(t);
        assert t[j] == r || t[j] in s[1..];
      }
    }
  }

  lemma {:induction false} SortLaws(s: seq<Report>)
    ensures Sorted(Sort(s)) && multiset(Sort(s)) == multiset(s)
  {
    if s != [] {
      SortLaws(s[1..]);
      InsertLaws(s[0], Sort(s[1..]));
      assert s == [s[0]] + s[1..];
    }
  }

  lemma HeadIsLeast(s: seq<Report>, r: Report)
    requires Sorted(s) && r in multiset(s)
    ensures s != [] && Leq(s[0], r)
  {
    var i :| 0 <= i < |s| && s[i] == r;
    ReportLaws(r, r, r);
  }

  /** A bag of reports has exactly one sorted arrangement. */
  lemma {:induction false} SortedIsUnique(a: seq<Report>, b: seq<Report>)
    requires Sorted(a) && Sorted(b) && multiset(a) == multiset(b)
    ensures a == b
  {
    assert |a| == |multiset(a)| && |b| == |multiset(b)|;
    if a != [] {
      assert a[0] in multiset(b);
      HeadIsLeast(b, a[0]);
      assert b[0] in multiset(a);
      HeadIsLeast(a, b[0]);
      ReportLaws(a[0], b[0], a[0]);
      assert a == [a[0]] + a[1..] && b == [b[0]] + b[1..];
      SameTail(a, b);
      SortedIsUnique(a[1..], b[1..]);
    }
  }

  /** Sorted is: nothing that comes before a report stands behind it. */
  lemma SortedMeans(s: seq<Report>)
    ensures Sorted(s) <==> forall i, j :: 0 <= i < j < |s| ==> !ReportBefore(s[j], s[i])
  {
    forall i, j | 0 <= i < j < |s| ensures Leq(s[i], s[j]) <==> !ReportBefore(s[j], s[i]) {
      ReportsInOrder(s[j], s[i]);
      ReportLaws(s[i], s[j], s[i]);
    }
  }

  /** Sorting two reports. */
  lemma SortOfTwo(a: Report, b: Report)
    ensures Sort([a, b]) == if ReportBefore(b, a) then [b, a] else [a, b]
  {
    ReportsInOrder(b, a);
    ReportLaws(a, b, a);
    assert [a, b][1..] == [b] && [b][1..] == [];
    assert Insert(b, Sort([])) == [b];
    assert Insert(a, [b][1..]) == [a];
    assert Sort([a, b]) == Insert(a, Sort([b])) == Insert(a, [b]);
  }

  /** Sorting depends only on which reports there are and how often, not on their order of arrival. */
  lemma SortIsCanonical(a: seq<Report>, b: seq<Report>)
    requires multiset(a) == multiset(b)
    ensures Sort(a) == Sort(b)
  {
    SortLaws(a);
    SortLaws(b);
    SortedIsUnique(Sort(a), Sort(b));
  }
}
