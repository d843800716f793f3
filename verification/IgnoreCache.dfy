/**
 The ignore cache at work (`crates/pkgcruft/src/ignore.rs`): which scopes a report looks at, the cache
 filled on first use, the decision, and the directives left unused.
 */
module IgnoreCache {
  import opened Wrappers
  import opened ReportOrder
  import opened Ignore

  // ---------------------------------------------------------------- the scopes a report looks at

  /** The scope `IgnoreScopes` visits at a step; steps finer than the target fall through to the repo. */
  function EntryScope(name: string, step: Scope, target: ReportScope): ReportScope {
    match (step, target)
    case (VersionScope, Version(_, _)) => target
    case (PackageScope, Version(cpv, _)) => Package(cpv.cpn)
    case (PackageScope, Package(_)) => target
    case (CategoryScope, Category(_)) => target
    case (CategoryScope, Package(cpn)) => Category(cpn.category)
    case (CategoryScope, Version(cpv, _)) => Category(cpv.cpn.category)
    case _ => Repo(name)
  }

  function Finer(step: Scope): Option<Scope> {
    match step
    case RepoScope => Some(CategoryScope)
    case CategoryScope => Some(PackageScope)
    case PackageScope => Some(VersionScope)
    case VersionScope => None
  }

  function From(name: string, step: Option<Scope>, target: ReportScope): seq<ReportScope>
    decreases if step.Some? then Rank(step.value) + 1 else 0
  {
    if step.None? then [] else [EntryScope(name, step.value, target)] + From(name, Finer(step.value), target)
  }

  class IgnoreScopes {
    const name: string
    const target: ReportScope
    var scope: Option<Scope>

    constructor (name: string, target: ReportScope)
      ensures Rest() == From(name, Some(RepoScope), target)
    {
      this.name, this.target, this.scope := name, target, Some(RepoScope);
    }

    ghost function Rest(): seq<ReportScope>
      reads this
    {
      From(name, scope, target)
    }

    method Next() returns (r: Option<ReportScope>)
      modifies this
      ensures old(Rest()) == (if r.Some? then [r.value] else []) + Rest()
      ensures r.None? ==> Rest() == []
    {
      if scope.None? { return None; }
      var step := scope.value;
      r := Some(EntryScope(name, step, target));
      scope := Finer(step);
    }
  }

  function Visits(name: string, target: ReportScope): seq<ReportScope> {
    From(name, Some(RepoScope), target)
  }

  /** The iterator run to its end. */
  method Scopes(name: string, target: ReportScope) returns (visits: seq<ReportScope>)
    ensures visits == Visits(name, target)
  {
    var iter := new IgnoreScopes(name, target);
    visits := [];
    while true
      invariant fresh(iter) && visits + iter.Rest() == Visits(name, target)
      decreases |iter.Rest()|
    {
      var next := iter.Next();
      if next.None? {
        assert visits + [] == visits;
        break;
      }
      visits := visits + [next.value];
    }
  }

  /** What the visits are; only a version's are all different. */
  lemma VisitsAre(name: string, target: ReportScope)
    ensures Visits(name, target) ==
            match target
            case Version(cpv, _) => [Repo(name), Category(cpv.cpn.category), Package(cpv.cpn), target]
            case Package(cpn) => [Repo(name), Category(cpn.category), target, Repo(name)]
            case Category(_) => [Repo(name), target, Repo(name), Repo(name)]
            case Repo(_) => [Repo(name), Repo(name), Repo(name), Repo(name)]
  {
    assert From(name, Some(VersionScope), target) == [EntryScope(name, VersionScope, target)];
    assert From(name, Some(PackageScope), target) == [EntryScope(name, PackageScope, target), EntryScope(name, VersionScope, target)];
  }

  // ---------------------------------------------------------------- the decision

  /** The directives for a kind in some scopes, one scope after the other. */
  function Found(setup: Setup, scopes: seq<ReportScope>, k: Kind): seq<Directive> {
    if scopes == [] then [] else
      var n := |scopes| - 1;
      Found(setup, scopes[..n], k) + At(setup, scopes[n], k)
  }

  /** The last directive decides; without one a report is not ignored. */
  predicate Decide(ds: seq<Directive>) {
    ds != [] && !ds[|ds| - 1].invert
  }

  predicate IsIgnored(setup: Setup, scope: ReportScope, k: Kind) {
    Decide(Found(setup, Visits(setup.name, scope), k))
  }

  // ---------------------------------------------------------------- the cache

  function Marked(ds: seq<Directive>): (r: seq<Directive>)
    ensures |r| == |ds| && forall i :: 0 <= i < |ds| ==> r[i] == ds[i].(used := true)
  {
    seq(|ds|, i requires 0 <= i < |ds| => ds[i].(used := true))
  }

  /** An entry after its directives for a kind were consulted. */
  function Consulted(entry: Entry, kind: Kind): Entry {
    if kind in entry.lists then entry.(lists := entry.lists[kind := Marked(entry.lists[kind])]) else entry
  }

  /** An entry after consultations for some kinds. */
  ghost function Replay(entry: Entry, kinds: seq<Kind>): Entry {
    if kinds == [] then entry else
      var n := |kinds| - 1;
      Consulted(Replay(entry, kinds[..n]), kinds[n])
  }

  lemma ReplayOneMore(entry: Entry, kinds: seq<Kind>, kind: Kind)
    ensures Replay(entry, kinds + [kind]) == Consulted(Replay(entry, kinds), kind)
  {
    assert (kinds + [kind])[..|kinds|] == kinds;
  }

  /** Consulting changes nothing but the marks, and sets exactly those of the kinds consulted. */
  lemma {:induction false} ReplayMarks(entry: Entry, kinds: seq<Kind>, k: Kind)
    ensures Replay(entry, kinds).kinds == entry.kinds
    ensures k in Replay(entry, kinds).lists <==> k in entry.lists
    ensures Replay(entry, kinds).Get(k) == if k in kinds then Marked(entry.Get(k)) else entry.Get(k)
  {
    if kinds != [] {
      var n := |kinds| - 1;
      ReplayMarks(entry, kinds[..n], k);
      ReplayMarks(entry, kinds[..n], kinds[n]);
      assert k in kinds <==> k in kinds[..n] || k == kinds[n];
      assert Marked(Marked(entry.Get(k))) == Marked(entry.Get(k)) && Marked([]) == [];
    }
  }

  /** For every loaded scope, the kinds it was consulted for, in order. */
  type Uses = map<ReportScope, seq<Kind>>

  ghost function Opened(uses: Uses, scopes: seq<ReportScope>): Uses {
    if scopes == [] then uses else
      var n := |scopes| - 1;
      Open(Opened(uses, scopes[..n]), scopes[n])
  }

  lemma OpenedOneMore(uses: Uses, scopes: seq<ReportScope>, i: nat)
    requires i < |scopes|
    ensures Opened(uses, scopes[..i + 1]) == Open(Opened(uses, scopes[..i]), scopes[i])
  {
    assert scopes[..i + 1][..i] == scopes[..i];
  }

  ghost function Open(uses: Uses, scope: ReportScope): (r: Uses)
    ensures scope in r
  {
    if scope in uses then uses else uses[scope := []]
  }

  ghost function Used(uses: Uses, scopes: seq<ReportScope>, kind: Kind): Uses {
    if scopes == [] then uses else
      var n := |scopes| - 1;
      UseOne(Used(uses, scopes[..n], kind), scopes[n], kind)
  }

  ghost function UseOne(uses: Uses, scope: ReportScope, kind: Kind): Uses {
    Open(uses, scope)[scope := Open(uses, scope)[scope] + [kind]]
  }

  /** What an entry decides about a kind is what its file decides. */
  lemma EntryMeans(setup: Setup, scope: ReportScope, kinds: seq<Kind>, k: Kind)
    ensures var entry := Replay(Loaded(setup, scope), kinds);
            && (entry.Get(k) == [] <==> At(setup, scope, k) == [])
            && Decide(entry.Get(k)) == Decide(At(setup, scope, k))
  {
    ReplayMarks(Loaded(setup, scope), kinds, k);
    GroupMeans(Pushes(setup.expand, ValuesOf(setup, scope)), k);
    var ds := At(setup, scope, k);
    assert Decide(Marked(ds)) == Decide(ds);
  }

  lemma OneMoreScope(setup: Setup, scopes: seq<ReportScope>, i: nat, k: Kind, uses: Uses)
    requires i < |scopes|
    ensures Decide(Found(setup, scopes[..i + 1], k)) ==
            if At(setup, scopes[i], k) == [] then Decide(Found(setup, scopes[..i], k)) else Decide(At(setup, scopes[i], k))
    ensures Used(uses, scopes[..i + 1], k) == UseOne(Used(uses, scopes[..i], k), scopes[i], k)
  {
    assert scopes[..i + 1][..i] == scopes[..i];
    assert Found(setup, scopes[..i + 1], k) == Found(setup, scopes[..i], k) + At(setup, scopes[i], k);
  }

  /** The loop over the directives of one entry. */
  method MarkAll(ds: seq<Directive>, before: bool) returns (marked: seq<Directive>, ignored: bool)
    ensures marked == Marked(ds)
    ensures ignored == if ds == [] then before else Decide(ds)
  {
    marked, ignored := ds, before;
    for i := 0 to |ds|
      invariant |marked| == |ds|
      invariant forall j :: 0 <= j < i ==> marked[j] == ds[j].(used := true)
      invariant forall j :: i <= j < |ds| ==> marked[j] == ds[j]
      invariant ignored == if i == 0 then before else !ds[i - 1].invert
    {
      marked := marked[i := marked[i].(used := true)];
      ignored := !marked[i].invert;
    }
  }

  /** One turn of the loop in `ignored`, on the entry. */
  method ConsultEntry(entry: Entry, kind: Kind, before: bool) returns (after: Entry, ignored: bool)
    ensures after == Consulted(entry, kind)
    ensures ignored == if entry.Get(kind) == [] then before else Decide(entry.Get(kind))
  {
    if kind !in entry.lists { return entry, before; }
    var marked;
    marked, ignored := MarkAll(entry.lists[kind], before);
    after := entry.(lists := entry.lists[kind := marked]);
  }

  /** Every entry is what its file says, with the marks of the kinds it was consulted for. */
  ghost predicate Coherent(setup: Setup, cache: map<ReportScope, Entry>, uses: Uses) {
    && cache.Keys == uses.Keys
    && forall s :: s in cache ==> cache[s] == Replay(Loaded(setup, s), uses[s])
  }

  /** Consulting an entry keeps the cache coherent and decides what the file decides. */
  lemma ConsultingIsCoherent(setup: Setup, cache: map<ReportScope, Entry>, uses: Uses, scope: ReportScope, kind: Kind)
    requires Coherent(setup, cache, uses) && scope in cache
    ensures Coherent(setup, cache[scope := Consulted(cache[scope], kind)], uses[scope := uses[scope] + [kind]])
    ensures cache[scope].Get(kind) == [] <==> At(setup, scope, kind) == []
    ensures Decide(cache[scope].Get(kind)) == Decide(At(setup, scope, kind))
  {
    EntryMeans(setup, scope, uses[scope], kind);
    ReplayOneMore(Loaded(setup, scope), uses[scope], kind);
  }

  /** The turn on a cache that has the entry. */
  method ConsultCached(setup: Setup, cache: map<ReportScope, Entry>, ghost uses: Uses, scope: ReportScope, kind: Kind, before: bool)
    returns (after: map<ReportScope, Entry>, ignored: bool)
    requires Coherent(setup, cache, uses) && scope in cache
    ensures Coherent(setup, after, uses[scope := uses[scope] + [kind]])
    ensures ignored == if At(setup, scope, kind) == [] then before else Decide(At(setup, scope, kind))
  {
    ConsultingIsCoherent(setup, cache, uses, scope, kind);
    var entry;
    entry, ignored := ConsultEntry(cache[scope], kind, before);
    after := cache[scope := entry];
  }

  class IgnoreData {
    const setup: Setup
    var cache: map<ReportScope, Entry>
    ghost var uses: Uses

    ghost predicate Valid()
      reads this
    {
      Coherent(setup, cache, uses)
    }

    constructor (setup: Setup)
      ensures Valid() && this.setup == setup && uses == map[]
    {
      this.setup, this.cache, this.uses := setup, map[], map[];
    }

    /** `cache.entry(scope).or_insert_with(load)`; the locations of values that do not parse are reported. */
    method Fetch(scope: ReportScope) returns (invalid: seq<(nat, nat)>)
      requires Valid()
      modifies this
      ensures Valid() && uses == Open(old(uses), scope)
      ensures invalid == if scope in old(uses) then [] else Invalid(ValuesOf(setup, scope))
    {
      if scope in cache { return []; }
      var entry;
      entry, invalid := LoadData(setup, scope);
      cache := cache[scope := entry];
      uses := uses[scope := []];
    }

    /** `generate(..).count()`: load every entry a scope looks at. */
    method Generate(scope: ReportScope)
      requires Valid()
      modifies this
      ensures Valid() && uses == Opened(old(uses), Visits(setup.name, scope))
    {
      var visits := Scopes(setup.name, scope);
      for i := 0 to |visits|
        invariant Valid() && uses == Opened(old(uses), visits[..i])
      {
        OpenedOneMore(old(uses), visits, i);
        var _ := Fetch(visits[i]);
      }
      assert visits[..|visits|] == visits;
    }

    /** `ignored`, for a report of a kind in a scope. */
    method Ignored(scope: ReportScope, kind: Kind) returns (ignored: bool)
      requires Valid()
      modifies this
      ensures Valid() && uses == Used(old(uses), Visits(setup.name, scope), kind)
      ensures ignored == IsIgnored(setup, scope, kind)
    {
      ignored := false;
      var visits := Scopes(setup.name, scope);
      for i := 0 to |visits|
        invariant Valid() && uses == Used(old(uses), visits[..i], kind)
        invariant ignored == Decide(Found(setup, visits[..i], kind))
      {
        OneMoreScope(setup, visits, i, kind, old(uses));
        ignored := Consult(visits[i], kind, ignored);
      }
      assert visits[..|visits|] == visits;
    }

    /** One turn of the loop in `ignored`: fetch the entry and consult it. */
    method Consult(scope: ReportScope, kind: Kind, before: bool) returns (ignored: bool)
      requires Valid()
      modifies this
      ensures Valid() && uses == UseOne(old(uses), scope, kind)
      ensures ignored == if At(setup, scope, kind) == [] then before else Decide(At(setup, scope, kind))
    {
      var _ := Fetch(scope);
      cache, ignored := ConsultCached(setup, cache, uses, scope, kind, before);
      uses := uses[scope := uses[scope] + [kind]];
    }

    /** `unused`: each set once, by its first kind that was never consulted, in file order within a kind. */
    function Unused(scope: ReportScope): (r: Option<seq<nat>>)
      requires Valid()
      reads this
      ensures r.Some? <==> scope in uses && exists m :: NeverUsed(setup, scope, uses[scope], m)
      ensures r.Some? ==> forall m :: m in r.value <==> NeverUsed(setup, scope, uses[scope], m)
      ensures r.Some? ==> forall i, j :: 0 <= i < j < |r.value| ==> r.value[i] != r.value[j]
      ensures r.Some? ==> r.value == Listing(setup, scope, uses[scope])
    {
      if scope !in cache then None else
        FirstOnlyLaws(UnusedIn(cache[scope], cache[scope].kinds));
        UnusedMeans(setup, scope, uses[scope]);
        UnusedOrder(setup, scope, uses[scope]);
        var sets := FirstOnly(UnusedIn(cache[scope], cache[scope].kinds));
        if sets == [] then None else assert sets[0] in sets; Some(sets)
    }
  }

  // ---------------------------------------------------------------- unused directives

  function UnusedOf(ds: seq<Directive>): seq<nat> {
    if ds == [] then [] else
      var n := |ds| - 1;
      UnusedOf(ds[..n]) + if ds[n].used then [] else [ds[n].rset]
  }

  /** `flat_map` over the values of an entry. */
  function UnusedIn(entry: Entry, kinds: seq<Kind>): seq<nat> {
    if kinds == [] then [] else
      var n := |kinds| - 1;
      UnusedIn(entry, kinds[..n]) + UnusedOf(entry.Get(kinds[n]))
  }

  /** The sets of directives, in order. */
  function Sets(ds: seq<Directive>): seq<nat> {
    seq(|ds|, i requires 0 <= i < |ds| => ds[i].rset)
  }

  /** The sets a file names for some kinds, those consulted left out. */
  ghost function SetsFor(setup: Setup, scope: ReportScope, kinds: seq<Kind>, used: seq<Kind>): seq<nat> {
    if kinds == [] then [] else
      var n := |kinds| - 1;
      SetsFor(setup, scope, kinds[..n], used) + SetsForOne(setup, scope, kinds[n], used)
  }

  ghost function SetsForOne(setup: Setup, scope: ReportScope, k: Kind, used: seq<Kind>): seq<nat> {
    if k in used then [] else Sets(At(setup, scope, k))
  }

  /** The kinds of a file, in the order in which its directives first name them. */
  function KindsAt(setup: Setup, scope: ReportScope): seq<Kind> {
    FirstOnly(Kinds(Pushes(setup.expand, ValuesOf(setup, scope))))
  }

  /** The listing, from the file and the kinds consulted alone. */
  ghost function Listing(setup: Setup, scope: ReportScope, used: seq<Kind>): seq<nat> {
    FirstOnly(SetsFor(setup, scope, KindsAt(setup, scope), used))
  }

  lemma {:induction false} UnusedOfMarks(ds: seq<Directive>)
    ensures UnusedOf(Marked(ds)) == []
  {
    if ds != [] {
      var n := |ds| - 1;
      UnusedOfMarks(ds[..n]);
      assert Marked(ds)[..n] == Marked(ds[..n]);
    }
  }

  lemma {:induction false} UnusedOfFresh(ds: seq<Directive>)
    requires forall d :: d in ds ==> !d.used
    ensures UnusedOf(ds) == Sets(ds)
  {
    if ds != [] {
      var n := |ds| - 1;
      UnusedOfFresh(ds[..n]);
      assert Sets(ds) == Sets(ds[..n]) + [ds[n].rset];
    }
  }

  /** What an entry lists for some kinds is what its file names for those not consulted. */
  lemma {:induction false} UnusedForKinds(setup: Setup, scope: ReportScope, kinds: seq<Kind>, used: seq<Kind>)
    ensures UnusedIn(Replay(Loaded(setup, scope), used), kinds) == SetsFor(setup, scope, kinds, used)
  {
    if kinds != [] {
      var n := |kinds| - 1;
      UnusedForKinds(setup, scope, kinds[..n], used);
      UnusedKind(setup, scope, used, kinds[n]);
      UnusedOfMarks(At(setup, scope, kinds[n]));
      NothingUsed(setup, scope, kinds[n]);
      UnusedOfFresh(At(setup, scope, kinds[n]));
    }
  }

  lemma NothingUsed(setup: Setup, scope: ReportScope, k: Kind)
    ensures forall d :: d in At(setup, scope, k) ==> !d.used
  {
    forall d | d in At(setup, scope, k) ensures !d.used { AtMeans(setup, scope, k, d); }
  }

  lemma UnusedOrder(setup: Setup, scope: ReportScope, used: seq<Kind>)
    ensures var entry := Replay(Loaded(setup, scope), used);
            FirstOnly(UnusedIn(entry, entry.kinds)) == Listing(setup, scope, used)
  {
    var entry := Replay(Loaded(setup, scope), used);
    ReplayMarks(Loaded(setup, scope), used, 0);
    GroupOrder(Pushes(setup.expand, ValuesOf(setup, scope)));
    UnusedForKinds(setup, scope, entry.kinds, used);
  }

  /** A set is written in a scope's file and one of its kinds was never consulted there. */
  ghost predicate NeverUsed(setup: Setup, scope: ReportScope, kinds: seq<Kind>, m: nat) {
    exists v, k :: v in ValuesOf(setup, scope) && v.spec.Some? && v.spec.value.rset == m && k in setup.expand(m) && k !in kinds
  }

  lemma {:induction false} OfMeans(pushes: seq<(Kind, Directive)>, k: Kind, d: Directive)
    ensures d in Of(pushes, k) <==> (k, d) in pushes
  {
    if pushes != [] {
      var n := |pushes| - 1;
      OfMeans(pushes[..n], k, d);
      assert (k, d) in pushes <==> (k, d) in pushes[..n] || pushes[n] == (k, d);
    }
  }

  ghost predicate Wrote(expand: nat -> seq<Kind>, v: Value, k: Kind, d: Directive) {
    v.spec.Some? && k in expand(v.spec.value.rset) && d == Fresh(v.location, v.spec.value)
  }

  lemma PushedMeans(expand: nat -> seq<Kind>, v: Value, k: Kind, d: Directive)
    ensures (k, d) in PushesOf(expand, v) <==> Wrote(expand, v, k, d)
  {
    if Wrote(expand, v, k, d) {
      var kinds := expand(v.spec.value.rset);
      var i :| 0 <= i < |kinds| && kinds[i] == k;
      assert ForEach(kinds, d)[i] == (k, d);
    }
  }

  lemma {:induction false} PushesMean(expand: nat -> seq<Kind>, values: seq<Value>, k: Kind, d: Directive)
    ensures (k, d) in Pushes(expand, values) <==> exists v :: v in values && Wrote(expand, v, k, d)
  {
    if values != [] {
      PushedMeans(expand, values[0], k, d);
      PushesMean(expand, values[1..], k, d);
      assert forall v :: v in values <==> v == values[0] || v in values[1..];
    }
  }

  /** The directives of a scope for a kind are those of the values whose sets have the kind. */
  lemma AtMeans(setup: Setup, scope: ReportScope, k: Kind, d: Directive)
    ensures d in At(setup, scope, k) <==> exists v :: v in ValuesOf(setup, scope) && Wrote(setup.expand, v, k, d)
  {
    OfMeans(Pushes(setup.expand, ValuesOf(setup, scope)), k, d);
    PushesMean(setup.expand, ValuesOf(setup, scope), k, d);
  }

  lemma {:induction false} SetsForMeans(setup: Setup, scope: ReportScope, kinds: seq<Kind>, used: seq<Kind>, m: nat)
    ensures m in SetsFor(setup, scope, kinds, used) <==> exists k :: k in kinds && k !in used && Names(setup, scope, k, m)
  {
    if kinds != [] {
      var n := |kinds| - 1;
      SetsForMeans(setup, scope, kinds[..n], used, m);
      LastOr(kinds);
      SetsMean(setup, scope, kinds[n], m);
    }
  }

  lemma LastOr<T>(s: seq<T>)
    requires s != []
    ensures forall x :: x in s <==> x in s[..|s| - 1] || x == s[|s| - 1]
  {
  }

  /** A directive for a kind names a set. */
  ghost predicate Names(setup: Setup, scope: ReportScope, k: Kind, m: nat) {
    exists d :: d in At(setup, scope, k) && d.rset == m
  }

  lemma SetsMean(setup: Setup, scope: ReportScope, k: Kind, m: nat)
    ensures m in Sets(At(setup, scope, k)) <==> Names(setup, scope, k, m)
  {
    var ds := At(setup, scope, k);
    if d :| d in ds && d.rset == m {
      var i :| 0 <= i < |ds| && ds[i] == d;
      assert Sets(ds)[i] == m;
    }
  }

  lemma KindsAtMeans(setup: Setup, scope: ReportScope, k: Kind)
    ensures k in KindsAt(setup, scope) <==> At(setup, scope, k) != []
  {
    var pushes := Pushes(setup.expand, ValuesOf(setup, scope));
    GroupOrder(pushes);
    GroupMeans(pushes, k);
  }

  /** A set counts as unused as soon as one of its kinds was never consulted. */
  lemma UnusedMeans(setup: Setup, scope: ReportScope, used: seq<Kind>)
    ensures forall m :: m in Listing(setup, scope, used) <==> NeverUsed(setup, scope, used, m)
  {
    var kinds := KindsAt(setup, scope);
    FirstOnlyLaws(SetsFor(setup, scope, kinds, used));
    forall m ensures m in Listing(setup, scope, used) <==> NeverUsed(setup, scope, used, m) {
      SetsForMeans(setup, scope, kinds, used, m);
      ListedMeans(setup, scope, used, m);
    }
  }

  lemma ListedMeans(setup: Setup, scope: ReportScope, used: seq<Kind>, m: nat)
    ensures (exists k :: k in KindsAt(setup, scope) && k !in used && Names(setup, scope, k, m))
            <==> NeverUsed(setup, scope, used, m)
  {
    if k :| k in KindsAt(setup, scope) && k !in used && Names(setup, scope, k, m) {
      var d :| d in At(setup, scope, k) && d.rset == m;
      AtMeans(setup, scope, k, d);
    }
    if v, k :| v in ValuesOf(setup, scope) && v.spec.Some? && v.spec.value.rset == m && k in setup.expand(m) && k !in used {
      var d := Fresh(v.location, v.spec.value);
      assert Wrote(setup.expand, v, k, d);
      AtMeans(setup, scope, k, d);
      KindsAtMeans(setup, scope, k);
      assert k in KindsAt(setup, scope) && d in At(setup, scope, k) && Names(setup, scope, k, m);
    }
  }

  lemma UnusedKind(setup: Setup, scope: ReportScope, used: seq<Kind>, k: Kind)
    ensures Replay(Loaded(setup, scope), used).Get(k) ==
            if k in used then Marked(At(setup, scope, k)) else At(setup, scope, k)
  {
    ReplayMarks(Loaded(setup, scope), used, k);
    GroupMeans(Pushes(setup.expand, ValuesOf(setup, scope)), k);
  }

  // ---------------------------------------------------------------- runs

  /** A use of the cache: asking about a report, or loading what a scope looks at. */
  datatype Call = Asked(scope: ReportScope, kind: Kind) | Populate(scope: ReportScope)

  ghost function After(name: string, uses: Uses, calls: seq<Call>): Uses {
    if calls == [] then uses else
      var n := |calls| - 1;
      Apply(name, After(name, uses, calls[..n]), calls[n])
  }

  ghost function Apply(name: string, uses: Uses, call: Call): Uses {
    match call
    case Asked(scope, kind) => Used(uses, Visits(name, scope), kind)
    case Populate(scope) => Opened(uses, Visits(name, scope))
  }

  lemma AfterOneMore(name: string, uses: Uses, calls: seq<Call>, i: nat)
    requires i < |calls|
    ensures After(name, uses, calls[..i + 1]) == Apply(name, After(name, uses, calls[..i]), calls[i])
  {
    assert calls[..i + 1][..i] == calls[..i];
  }

  /** What the files by themselves say about a call. */
  predicate Answer(setup: Setup, call: Call) {
    call.Asked? && IsIgnored(setup, call.scope, call.kind)
  }

  /** One call. */
  method ServeOne(data: IgnoreData, call: Call) returns (answer: bool)
    requires data.Valid()
    modifies data
    ensures data.Valid() && data.uses == Apply(data.setup.name, old(data.uses), call)
    ensures answer == Answer(data.setup, call)
  {
    answer := false;
    match call {
      case Asked(scope, kind) => answer := data.Ignored(scope, kind);
      case Populate(scope) => data.Generate(scope);
    }
  }

  ghost function Answers(setup: Setup, calls: seq<Call>): seq<bool> {
    if calls == [] then [] else
      var n := |calls| - 1;
      Answers(setup, calls[..n]) + [Answer(setup, calls[n])]
  }

  lemma AnswersOneMore(setup: Setup, calls: seq<Call>, i: nat)
    requires i < |calls|
    ensures Answers(setup, calls[..i + 1]) == Answers(setup, calls[..i]) + [Answer(setup, calls[i])]
  {
    assert calls[..i + 1][..i] == calls[..i];
  }

  /**
   Any run over unchanged files: every answer is the one the files give by themselves, whatever was
   asked before.
   */
  method Serve(data: IgnoreData, calls: seq<Call>) returns (answers: seq<bool>)
    requires data.Valid()
    modifies data
    ensures data.Valid() && data.uses == After(data.setup.name, old(data.uses), calls)
    ensures answers == Answers(data.setup, calls)
  {
    answers := [];
    for i := 0 to |calls|
      invariant data.Valid() && data.uses == After(data.setup.name, old(data.uses), calls[..i])
      invariant answers == Answers(data.setup, calls[..i])
    {
      AfterOneMore(data.setup.name, old(data.uses), calls, i);
      AnswersOneMore(data.setup, calls, i);
      var answer := ServeOne(data, calls[i]);
      answers := answers + [answer];
    }
    assert calls[..|calls|] == calls;
  }

  /** Some call consulted a scope for a kind. */
  ghost predicate Consults(name: string, calls: seq<Call>, s: ReportScope, k: Kind) {
    exists i :: 0 <= i < |calls| && calls[i].Asked? && calls[i].kind == k && s in Visits(name, calls[i].scope)
  }

  ghost predicate Has(uses: Uses, s: ReportScope, k: Kind) {
    s in uses && k in uses[s]
  }

  lemma {:induction false} UsedMeans(uses: Uses, scopes: seq<ReportScope>, kind: Kind, s: ReportScope, k: Kind)
    ensures Has(Used(uses, scopes, kind), s, k) <==> Has(uses, s, k) || (k == kind && s in scopes)
  {
    if scopes != [] {
      var n := |scopes| - 1;
      UsedMeans(uses, scopes[..n], kind, s, k);
      assert s in scopes <==> s in scopes[..n] || s == scopes[n];
    }
  }

  lemma {:induction false} OpenedMeans(uses: Uses, scopes: seq<ReportScope>, s: ReportScope, k: Kind)
    ensures Has(Opened(uses, scopes), s, k) <==> Has(uses, s, k)
  {
    if scopes != [] { OpenedMeans(uses, scopes[..|scopes| - 1], s, k); }
  }

  lemma ApplyMeans(name: string, uses: Uses, call: Call, s: ReportScope, k: Kind)
    ensures Has(Apply(name, uses, call), s, k) <==>
            Has(uses, s, k) || (call.Asked? && call.kind == k && s in Visits(name, call.scope))
  {
    match call {
      case Asked(scope, kind) => UsedMeans(uses, Visits(name, scope), kind, s, k);
      case Populate(scope) => OpenedMeans(uses, Visits(name, scope), s, k);
    }
  }

  lemma ConsultsOneMore(name: string, calls: seq<Call>, s: ReportScope, k: Kind)
    requires calls != []
    ensures var n := |calls| - 1;
            Consults(name, calls, s, k) <==>
            Consults(name, calls[..n], s, k) || (calls[n].Asked? && calls[n].kind == k && s in Visits(name, calls[n].scope))
  {
    var n := |calls| - 1;
    assert forall i :: 0 <= i < n ==> calls[..n][i] == calls[i];
  }

  /** The marks after a run, from an empty cache: exactly the scopes and kinds some report consulted. */
  lemma {:induction false} MarksAfter(name: string, calls: seq<Call>, s: ReportScope, k: Kind)
    ensures Has(After(name, map[], calls), s, k) <==> Consults(name, calls, s, k)
  {
    if calls != [] {
      var n := |calls| - 1;
      MarksAfter(name, calls[..n], s, k);
      ApplyMeans(name, After(name, map[], calls[..n]), calls[n], s, k);
      ConsultsOneMore(name, calls, s, k);
    }
  }

  /** Which reports consult a scope: all of them the repo; below it, those of the same place or finer. */
  lemma ConsultsMeans(name: string, s: ReportScope, target: ReportScope)
    ensures s in Visits(name, target) <==>
            match s
            case Repo(r) => r == name
            case Category(c) => (target.Category? && target.category == c)
                                || (target.Package? && target.cpn.category == c)
                                || (target.Version? && target.cpv.cpn.category == c)
            case Package(p) => (target.Package? && target.cpn == p) || (target.Version? && target.cpv.cpn == p)
            case Version(_, _) => target == s
  {
    VisitsAre(name, target);
  }

  // ---------------------------------------------------------------- what a file decides

  /** The value at a place names a set with the kind. */
  ghost predicate Speaks(setup: Setup, scope: ReportScope, k: Kind, place: (nat, nat), spec: Spec) {
    Says(scope.Version?, setup.Lines(scope), place.0, place.1, Some(spec)) && k in setup.expand(spec.rset)
  }

  ghost predicate SpeaksLast(setup: Setup, scope: ReportScope, k: Kind, place: (nat, nat), spec: Spec) {
    && Speaks(setup, scope, k, place, spec)
    && forall other, more :: Speaks(setup, scope, k, other, more) ==> !PlaceBefore(place, other)
  }

  predicate NamesKind(expand: nat -> seq<Kind>, v: Value, k: Kind) {
    v.spec.Some? && k in expand(v.spec.value.rset)
  }

  lemma {:induction false} OfAppend(a: seq<(Kind, Directive)>, b: seq<(Kind, Directive)>, k: Kind)
    ensures Of(a + b, k) == Of(a, k) + Of(b, k)
  {
    if b == [] {
      assert a + b == a;
    } else {
      InitAppend(a, b);
      OfAppend(a, b[..|b| - 1], k);
    }
  }

  lemma {:induction false} OfForEach(kinds: seq<Kind>, d: Directive, k: Kind)
    ensures Of(ForEach(kinds, d), k) != [] <==> k in kinds
    ensures forall e :: e in Of(ForEach(kinds, d), k) ==> e == d
  {
    if kinds != [] {
      var n := |kinds| - 1;
      OfForEach(kinds[..n], d, k);
      assert ForEach(kinds, d)[..n] == ForEach(kinds[..n], d);
      assert k in kinds <==> k in kinds[..n] || k == kinds[n];
    }
  }

  lemma OfOneValue(expand: nat -> seq<Kind>, v: Value, k: Kind)
    ensures var ds := Of(PushesOf(expand, v), k);
            && (ds != [] <==> NamesKind(expand, v, k))
            && (ds != [] ==> ds[|ds| - 1] == Fresh(v.location, v.spec.value))
  {
    if v.spec.Some? {
      OfForEach(expand(v.spec.value.rset), Fresh(v.location, v.spec.value), k);
      var ds := Of(PushesOf(expand, v), k);
      assert ds != [] ==> ds[|ds| - 1] in ds;
    }
  }

  lemma OfOneMore(expand: nat -> seq<Kind>, values: seq<Value>, k: Kind)
    requires values != []
    ensures var n := |values| - 1;
            Of(Pushes(expand, values), k) == Of(Pushes(expand, values[..n]), k) + Of(PushesOf(expand, values[n]), k)
  {
    var n := |values| - 1;
    assert values == values[..n] + [values[n]];
    PushesSplit(expand, values[..n], [values[n]]);
    One(expand, values[n]);
    OfAppend(Pushes(expand, values[..n]), PushesOf(expand, values[n]), k);
  }

  /** The last value whose set has the kind, if there is one. */
  ghost predicate LastNamed(expand: nat -> seq<Kind>, values: seq<Value>, k: Kind, j: nat) {
    j < |values| && NamesKind(expand, values[j], k) && forall h :: j < h < |values| ==> !NamesKind(expand, values[h], k)
  }

  lemma LastNamedInit(expand: nat -> seq<Kind>, values: seq<Value>, k: Kind, j: nat)
    requires values != [] && LastNamed(expand, values[..|values| - 1], k, j) && !NamesKind(expand, values[|values| - 1], k)
    ensures LastNamed(expand, values, k, j)
  {
    var init := values[..|values| - 1];
    forall h | j < h < |values| ensures !NamesKind(expand, values[h], k) {
      if h < |init| { assert init[h] == values[h]; }
    }
  }

  /** The last directive for a kind is that of the last value whose set has it. */
  lemma {:induction false} LastOf(expand: nat -> seq<Kind>, values: seq<Value>, k: Kind) returns (j: nat)
    ensures var ds := Of(Pushes(expand, values), k);
            if ds == [] then forall v :: v in values ==> !NamesKind(expand, v, k)
            else LastNamed(expand, values, k, j) && ds[|ds| - 1] == Fresh(values[j].location, values[j].spec.value)
  {
    j := 0;
    if values != [] {
      var n := |values| - 1;
      j := LastOf(expand, values[..n], k);
      OfOneMore(expand, values, k);
      OfOneValue(expand, values[n], k);
      LastOr(values);
      if NamesKind(expand, values[n], k) {
        j := n;
      } else if Of(Pushes(expand, values), k) != [] {
        LastNamedInit(expand, values, k, j);
      }
    }
  }

  /** The directives of a file: none when nothing speaks about the kind, else the last one to speak decides. */
  lemma FileDecides(setup: Setup, scope: ReportScope, k: Kind)
    ensures At(setup, scope, k) == [] <==> forall place, spec :: !Speaks(setup, scope, k, place, spec)
    ensures Decide(At(setup, scope, k)) <==> exists place, spec :: SpeaksLast(setup, scope, k, place, spec) && !spec.invert
  {
    var values, ds := ValuesOf(setup, scope), At(setup, scope, k);
    var j := LastOf(setup.expand, values, k);
    forall place, spec | Speaks(setup, scope, k, place, spec) ensures ds != [] && !PlaceBefore(values[j].location, place) {
      SpeakerBefore(setup, scope, k, place, spec, j);
    }
    if ds != [] {
      var v := values[j];
      assert v in values;
      ValuesAre(setup, scope, v);
      assert SpeaksLast(setup, scope, k, v.location, v.spec.value);
      forall place, spec | SpeaksLast(setup, scope, k, place, spec) ensures spec == v.spec.value {
        assert Speaks(setup, scope, k, v.location, v.spec.value) && !PlaceBefore(place, v.location);
      }
    }
  }

  lemma SpeakerBefore(setup: Setup, scope: ReportScope, k: Kind, place: (nat, nat), spec: Spec, j: nat)
    requires Speaks(setup, scope, k, place, spec)
    requires var ds := At(setup, scope, k);
             if ds == [] then forall v :: v in ValuesOf(setup, scope) ==> !NamesKind(setup.expand, v, k)
             else LastNamed(setup.expand, ValuesOf(setup, scope), k, j)
    ensures At(setup, scope, k) != [] && !PlaceBefore(ValuesOf(setup, scope)[j].location, place)
  {
    var values, v := ValuesOf(setup, scope), Value(place, Some(spec));
    ValuesAre(setup, scope, v);
    assert v in values && NamesKind(setup.expand, v, k);
    var h :| 0 <= h < |values| && values[h] == v;
    if h < j { ValuesInOrder(setup, scope, h, j); }
  }

  // ---------------------------------------------------------------- the documented rule and the code

  /** The scopes in order of precedence, the most specific last. */
  function Precedence(name: string, target: ReportScope): seq<ReportScope> {
    match target
    case Version(cpv, _) => [Repo(name), Category(cpv.cpn.category), Package(cpv.cpn), target]
    case Package(cpn) => [Repo(name), Category(cpn.category), target]
    case Category(_) => [Repo(name), target]
    case Repo(_) => [Repo(name)]
  }

  /** What the documentation of `IgnoreScopes` promises: more specific directives override those at a larger scope. */
  predicate Promised(setup: Setup, target: ReportScope, k: Kind) {
    Decide(Found(setup, Precedence(setup.name, target), k))
  }

  lemma FoundLast(setup: Setup, scopes: seq<ReportScope>, s: ReportScope, k: Kind)
    ensures Decide(Found(setup, scopes + [s], k)) ==
            if At(setup, s, k) == [] then Decide(Found(setup, scopes, k)) else Decide(At(setup, s, k))
  {
    assert (scopes + [s])[..|scopes|] == scopes;
    OneMoreScope(setup, scopes + [s], |scopes|, k, map[]);
    assert (scopes + [s])[..|scopes| + 1] == scopes + [s];
  }

  /** For a version the last matching directive in repo, category, package, ebuild order decides. */
  lemma VersionRule(setup: Setup, cpv: Cpv, location: Option<Location>, k: Kind)
    ensures var repo, category := At(setup, Repo(setup.name), k), At(setup, Category(cpv.cpn.category), k);
            var package, ebuild := At(setup, Package(cpv.cpn), k), At(setup, Version(cpv, None), k);
            IsIgnored(setup, Version(cpv, location), k) ==
            (if ebuild != [] then Decide(ebuild) else if package != [] then Decide(package)
             else if category != [] then Decide(category) else Decide(repo))
  {
    var target := Version(cpv, location);
    VisitsAre(setup.name, target);
    LastOfFour(setup, Repo(setup.name), Category(cpv.cpn.category), Package(cpv.cpn), target, k);
    assert At(setup, target, k) == At(setup, Version(cpv, None), k);
  }

  lemma LastOfTwo(setup: Setup, r: ReportScope, c: ReportScope, k: Kind)
    ensures Decide(Found(setup, [r, c], k)) == if At(setup, c, k) != [] then Decide(At(setup, c, k)) else Decide(At(setup, r, k))
  {
    FoundLast(setup, [], r, k);
    assert [] + [r] == [r] && Found(setup, [], k) == [];
    FoundLast(setup, [r], c, k);
    assert [r] + [c] == [r, c];
  }

  lemma LastOfFour(setup: Setup, r: ReportScope, c: ReportScope, p: ReportScope, v: ReportScope, k: Kind)
    ensures Decide(Found(setup, [r, c, p, v], k)) ==
            if At(setup, v, k) != [] then Decide(At(setup, v, k)) else if At(setup, p, k) != [] then Decide(At(setup, p, k))
            else if At(setup, c, k) != [] then Decide(At(setup, c, k)) else Decide(At(setup, r, k))
  {
    LastOfTwo(setup, r, c, k);
    FoundLast(setup, [r, c], p, k);
    assert [r, c] + [p] == [r, c, p];
    FoundLast(setup, [r, c, p], v, k);
    assert [r, c, p] + [v] == [r, c, p, v];
  }

  /** The directives of the scopes below the repo. */
  function Specific(setup: Setup, target: ReportScope, k: Kind): seq<Directive> {
    Found(setup, Precedence(setup.name, target)[1..], k)
  }

  lemma {:induction false} FoundFirst(setup: Setup, scopes: seq<ReportScope>, k: Kind)
    requires scopes != []
    ensures Found(setup, scopes, k) == At(setup, scopes[0], k) + Found(setup, scopes[1..], k)
  {
    var n := |scopes| - 1;
    if n == 0 {
      assert scopes[..0] == [] && scopes[1..] == [];
      assert Found(setup, [], k) == [];
    } else {
      FoundFirst(setup, scopes[..n], k);
      assert scopes[..n][1..] == scopes[1..][..n - 1] && scopes[1..][n - 1] == scopes[n];
      Assoc(At(setup, scopes[0], k), Found(setup, scopes[1..][..n - 1], k), At(setup, scopes[n], k));
    }
  }

  /** The promise in terms of the two groups of directives. */
  lemma PromisedMeans(setup: Setup, target: ReportScope, k: Kind)
    ensures var (repo, specific) := (At(setup, Repo(setup.name), k), Specific(setup, target, k));
            Promised(setup, target, k) == if specific == [] then Decide(repo) else Decide(specific)
  {
    FoundFirst(setup, Precedence(setup.name, target), k);
  }

  /**
   The code keeps the promise for versions, and for coarser reports exactly when the repo or the more
   specific scopes have no directive for the kind, or the last of both say the same.
   */
  lemma MoreSpecificWins(setup: Setup, target: ReportScope, k: Kind)
    ensures var (repo, specific) := (At(setup, Repo(setup.name), k), Specific(setup, target, k));
            IsIgnored(setup, target, k) == Promised(setup, target, k) <==>
            target.Version? || repo == [] || specific == [] || Decide(repo) == Decide(specific)
  {
    PromisedMeans(setup, target, k);
    if !target.Version? {
      var n := if target.Package? then 1 else if target.Category? then 2 else 3;
      VisitsEnd(setup.name, target, n);
      RepoDecides(setup, Precedence(setup.name, target), n, k);
    } else {
      VisitsAre(setup.name, target);
    }
  }

  function Times(s: ReportScope, n: nat): seq<ReportScope> {
    if n == 0 then [] else Times(s, n - 1) + [s]
  }

  /** The steps finer than the target visit the repo again. */
  lemma VisitsEnd(name: string, target: ReportScope, n: nat)
    requires !target.Version? && n == if target.Package? then 1 else if target.Category? then 2 else 3
    ensures Visits(name, target) == Precedence(name, target) + Times(Repo(name), n)
  {
    VisitsAre(name, target);
    assert Times(Repo(name), 1) == [Repo(name)];
    assert Times(Repo(name), 2) == [Repo(name), Repo(name)];
    assert Times(Repo(name), 3) == [Repo(name), Repo(name), Repo(name)];
  }

  lemma TimesNext(before: seq<ReportScope>, s: ReportScope, n: nat)
    requires n > 0
    ensures before + Times(s, n) == (before + Times(s, n - 1)) + [s]
  {
  }

  /** Whatever came before, the repo's directives decide when it has any. */
  lemma {:induction false} RepoDecides(setup: Setup, before: seq<ReportScope>, n: nat, k: Kind)
    ensures var repo := At(setup, Repo(setup.name), k);
            Decide(Found(setup, before + Times(Repo(setup.name), n), k)) ==
            if n == 0 || repo == [] then Decide(Found(setup, before, k)) else Decide(repo)
  {
    var r := Repo(setup.name);
    if n == 0 {
      TimesNone(before, r);
    } else {
      RepoDecides(setup, before, n - 1, k);
      TimesNext(before, r, n);
      FoundLast(setup, before + Times(r, n - 1), r, k);
    }
  }

  lemma TimesNone(before: seq<ReportScope>, s: ReportScope)
    ensures before + Times(s, 0) == before
  {
  }

  /** The kinds 0, 1, .. form one set each. */
  function Single(m: nat): seq<Kind> {
    [m]
  }

  lemma OneValue(setup: Setup, scope: ReportScope, spec: Spec)
    requires setup.Lines(scope) == [if scope.Version? then Tagged([Some(spec)]) else Text(Some(spec))]
    ensures ValuesOf(setup, scope) == [Value((1, 0), Some(spec))]
  {
    var line := setup.Lines(scope)[0];
    assert Parsed(scope.Version?, [line][1..], 2) == [];
    assert LineValues(scope.Version?, line, 1) == [Value((1, 0), Some(spec))];
  }

  lemma OneDirective(setup: Setup, scope: ReportScope, spec: Spec)
    requires setup.expand == Single
    requires setup.Lines(scope) == [if scope.Version? then Tagged([Some(spec)]) else Text(Some(spec))]
    ensures At(setup, scope, spec.rset) == [Fresh((1, 0), spec)]
    ensures ValuesOf(setup, scope) == [Value((1, 0), Some(spec))]
  {
    OneValue(setup, scope, spec);
    One(setup.expand, Value((1, 0), Some(spec)));
    assert ForEach([spec.rset], Fresh((1, 0), spec)) == [(spec.rset, Fresh((1, 0), spec))];
    assert Of([], spec.rset) == [];
  }

  /** A repo ignores kind 7 and a package un-ignores it: the package's own reports are ignored all the same. */
  lemma RepoOverridesPackage()
    ensures var files := (s: ReportScope) => if s.Repo? then [Text(Some(Spec(7, false)))] else if s.Package? then [Text(Some(Spec(7, true)))] else [];
            var setup, target := Setup("gentoo", files, Single), Package(Cpn("cat", "pkg"));
            IsIgnored(setup, target, 7) && !Promised(setup, target, 7)
  {
    var files := (s: ReportScope) => if s.Repo? then [Text(Some(Spec(7, false)))] else if s.Package? then [Text(Some(Spec(7, true)))] else [];
    var setup, target := Setup("gentoo", files, Single), Package(Cpn("cat", "pkg"));
    OneDirective(setup, Repo("gentoo"), Spec(7, false));
    OneDirective(setup, target, Spec(7, true));
    VisitsAre("gentoo", target);
    var r, c := Repo("gentoo"), Category("cat");
    FoundLast(setup, [r, c], target, 7);
    FoundLast(setup, [r, c, target], r, 7);
    assert [r, c] + [target] == [r, c, target] && [r, c, target] + [r] == [r, c, target, r];
  }

  /**
   A set in an ebuild is reported as unused exactly when one of its kinds had no report for the version
   as a whole: reports that point into the ebuild are looked up, and marked, under another key.
   */
  lemma EbuildUnused(setup: Setup, calls: seq<Call>, cpv: Cpv, m: nat)
    requires Version(cpv, None) in After(setup.name, map[], calls)
    ensures NeverUsed(setup, Version(cpv, None), After(setup.name, map[], calls)[Version(cpv, None)], m) <==>
            exists v, k :: v in ValuesOf(setup, Version(cpv, None)) && v.spec.Some? && v.spec.value.rset == m
                           && k in setup.expand(m) && Asked(Version(cpv, None), k) !in calls
  {
    var s, uses := Version(cpv, None), After(setup.name, map[], calls);
    forall k ensures k in uses[s] <==> Asked(s, k) in calls {
      MarksAfter(setup.name, calls, s, k);
      forall i | 0 <= i < |calls| ensures s in Visits(setup.name, calls[i].scope) <==> calls[i].scope == s {
        ConsultsMeans(setup.name, s, calls[i].scope);
      }
    }
  }

  /** A directive that did ignore a report, but one with a line number, is reported as unused. */
  lemma LocatedUseIsMissed(cpv: Cpv, location: Location)
    ensures var files := (s: ReportScope) => if s.Version? then [Tagged([Some(Spec(7, false))])] else [];
            var setup := Setup("gentoo", files, Single);
            var calls := [Asked(Version(cpv, Some(location)), 7), Populate(Version(cpv, None))];
            && IsIgnored(setup, Version(cpv, Some(location)), 7)
            && Version(cpv, None) in After("gentoo", map[], calls)
            && NeverUsed(setup, Version(cpv, None), After("gentoo", map[], calls)[Version(cpv, None)], 7)
  {
    var files := (s: ReportScope) => if s.Version? then [Tagged([Some(Spec(7, false))])] else [];
    var setup, s := Setup("gentoo", files, Single), Version(cpv, None);
    var calls := [Asked(Version(cpv, Some(location)), 7), Populate(s)];
    OneDirective(setup, s, Spec(7, false));
    VersionRule(setup, cpv, Some(location), 7);
    Unconsulted(setup, calls, cpv, Value((1, 0), Some(Spec(7, false))), 7);
  }

  /** A kind nobody asked about for the version as a whole makes its set unused. */
  lemma Unconsulted(setup: Setup, calls: seq<Call>, cpv: Cpv, v: Value, k: Kind)
    requires calls != [] && calls[|calls| - 1] == Populate(Version(cpv, None)) && Asked(Version(cpv, None), k) !in calls
    requires v in ValuesOf(setup, Version(cpv, None)) && v.spec.Some? && k in setup.expand(v.spec.value.rset)
    ensures Version(cpv, None) in After(setup.name, map[], calls)
    ensures NeverUsed(setup, Version(cpv, None), After(setup.name, map[], calls)[Version(cpv, None)], v.spec.value.rset)
  {
    LoadedAtEnd(setup.name, calls, Version(cpv, None));
    EbuildUnused(setup, calls, cpv, v.spec.value.rset);
  }

  /** A set of two kinds. */
  function Double(m: nat): seq<Kind> {
    [m, m + 1]
  }

  /** A set of two kinds that did ignore a report of the first is reported as unused for want of the second. */
  lemma HalfUsedSetIsUnused(cpv: Cpv)
    ensures var files := (s: ReportScope) => if s.Version? then [Tagged([Some(Spec(7, false))])] else [];
            var setup := Setup("gentoo", files, Double);
            var calls := [Asked(Version(cpv, None), 7), Populate(Version(cpv, None))];
            && IsIgnored(setup, Version(cpv, None), 7)
            && Version(cpv, None) in After("gentoo", map[], calls)
            && NeverUsed(setup, Version(cpv, None), After("gentoo", map[], calls)[Version(cpv, None)], 7)
  {
    var files := (s: ReportScope) => if s.Version? then [Tagged([Some(Spec(7, false))])] else [];
    var setup, s := Setup("gentoo", files, Double), Version(cpv, None);
    var calls := [Asked(s, 7), Populate(s)];
    OneValue(setup, s, Spec(7, false));
    var v := Value((1, 0), Some(Spec(7, false)));
    assert Wrote(setup.expand, v, 7, Fresh((1, 0), Spec(7, false)));
    AtMeans(setup, s, 7, Fresh((1, 0), Spec(7, false)));
    NotInverted(setup, s, Spec(7, false), 7);
    VersionRule(setup, cpv, None, 7);
    assert 8 in Double(7);
    Unconsulted(setup, calls, cpv, v, 8);
  }

  /** With one directive in the file, it is the one that decides. */
  lemma NotInverted(setup: Setup, scope: ReportScope, spec: Spec, k: Kind)
    requires ValuesOf(setup, scope) == [Value((1, 0), Some(spec))] && At(setup, scope, k) != []
    ensures Decide(At(setup, scope, k)) == !spec.invert
  {
    var ds := At(setup, scope, k);
    AtMeans(setup, scope, k, ds[|ds| - 1]);
  }

  /** A version's own entry is there after loading it. */
  lemma LoadedAtEnd(name: string, calls: seq<Call>, s: ReportScope)
    requires calls != [] && s.Version? && calls[|calls| - 1] == Populate(s)
    ensures s in After(name, map[], calls)
  {
    VisitsAre(name, s);
    var v := Visits(name, s);
    assert v[..4] == v && v[3] == s;
    assert s in Opened(After(name, map[], calls[..|calls| - 1]), v);
  }
}
