/**
 Collapsing report targets (`crates/pkgcruft/src/report.rs`): `set`, `+add` and `-remove` targets become
 the sorted sets of enabled and of selected report kinds.
 */
module Collapse {
  import opened Wrappers

  /** Report kinds and report sets, both by their place in the source's order. */
  type Kind = int
  type KindSet = int

  datatype Target = Set(kinds: KindSet) | Add(kinds: KindSet) | Remove(kinds: KindSet) {
    function Rank(): nat {
      match this case Set(_) => 0 case Add(_) => 1 case Remove(_) => 2
    }
  }

  /** What a report set expands to, and whether it names a report or a check. */
  datatype Sets = Sets(expand: KindSet -> seq<Kind>, named: KindSet -> bool)

  ghost function AsSet(s: seq<Kind>): set<Kind> {
    set k | k in s
  }

  // ---------------------------------------------------------------- index sets

  /** An index set: no element twice. */
  ghost predicate Distinct<T>(s: seq<T>) {
    forall i, j :: 0 <= i < j < |s| ==> s[i] != s[j]
  }

  function Insert<T(==)>(s: seq<T>, x: T): seq<T> {
    if x in s then s else s + [x]
  }

  /** Removal moves the last element into the gap. */
  function SwapRemove(s: seq<Kind>, x: Kind): seq<Kind> {
    if x in s then SwapOut(s, IndexOf(s, x)) else s
  }

  function IndexOf(s: seq<Kind>, x: Kind): (i: nat)
    requires x in s
    ensures i < |s| && s[i] == x
  {
    if s[0] == x then 0 else 1 + IndexOf(s[1..], x)
  }

  function SwapOut(s: seq<Kind>, i: nat): seq<Kind>
    requires i < |s|
  {
    s[i := s[|s| - 1]][..|s| - 1]
  }

  lemma InsertLaws(s: seq<Kind>, x: Kind)
    requires Distinct(s)
    ensures Distinct(Insert(s, x)) && AsSet(Insert(s, x)) == AsSet(s) + {x}
  {
  }

  lemma SwapRemoveLaws(s: seq<Kind>, x: Kind)
    requires Distinct(s)
    ensures Distinct(SwapRemove(s, x)) && AsSet(SwapRemove(s, x)) == AsSet(s) - {x}
  {
    if x in s {
      var i, n := IndexOf(s, x), |s| - 1;
      var r := SwapOut(s, i);
      assert forall j :: 0 <= j < n ==> r[j] == if j == i then s[n] else s[j];
      forall k ensures k in r <==> k in s && k != x {
        if k in s && k != x {
          var j :| 0 <= j < |s| && s[j] == k;
          assert r[if j == n then i else j] == k;
        }
      }
    }
  }

  // ---------------------------------------------------------------- sorting

  predicate Leq(a: Target, b: Target) {
    a.Rank() < b.Rank() || (a.Rank() == b.Rank() && a.kinds <= b.kinds)
  }

  function InsertTarget(t: Target, ts: seq<Target>): seq<Target> {
    if ts == [] || Leq(t, ts[0]) then [t] + ts else [ts[0]] + InsertTarget(t, ts[1..])
  }

  function SortTargets(ts: seq<Target>): seq<Target> {
    if ts == [] then [] else InsertTarget(ts[0], SortTargets(ts[1..]))
  }

  ghost predicate InOrder(ts: seq<Target>) {
    forall i, j :: 0 <= i < j < |ts| ==> Leq(ts[i], ts[j])
  }

  lemma {:induction false} InsertTargetLaws(t: Target, ts: seq<Target>)
    requires InOrder(ts)
    ensures InOrder(InsertTarget(t, ts))
    ensures forall u :: u in InsertTarget(t, ts) <==> u == t || u in ts
  {
    if ts == [] {
    } else if Leq(t, ts[0]) {
      assert forall j :: 0 <= j < |ts| ==> Leq(ts[0], ts[j]);
    } else {
      InsertTargetLaws(t, ts[1..]);
      var rest := InsertTarget(t, ts[1..]);
      assert forall u :: u in ts <==> u == ts[0] || u in ts[1..];
      forall j | 0 <= j < |rest| ensures Leq(ts[0], rest[j]) {
        assert rest[j] in rest;
      }
    }
  }

  lemma {:induction false} SortTargetsLaws(ts: seq<Target>)
    ensures InOrder(SortTargets(ts)) && forall t :: t in SortTargets(ts) <==> t in ts
  {
    if ts != [] {
      SortTargetsLaws(ts[1..]);
      InsertTargetLaws(ts[0], SortTargets(ts[1..]));
      assert forall u :: u in ts <==> u == ts[0] || u in ts[1..];
    }
  }

  function InsertKind(k: Kind, s: seq<Kind>): seq<Kind> {
    if s == [] || k <= s[0] then [k] + s else [s[0]] + InsertKind(k, s[1..])
  }

  function SortKinds(s: seq<Kind>): seq<Kind> {
    if s == [] then [] else InsertKind(s[0], SortKinds(s[1..]))
  }

  ghost predicate Ascending(s: seq<Kind>) {
    forall i, j :: 0 <= i < j < |s| ==> s[i] < s[j]
  }

  lemma {:induction false} InsertKindLaws(k: Kind, s: seq<Kind>)
    requires Ascending(s) && k !in s
    ensures Ascending(InsertKind(k, s)) && AsSet(InsertKind(k, s)) == AsSet(s) + {k}
  {
    if s == [] || k <= s[0] {
      assert forall j :: 0 <= j < |s| ==> s[j] in s;
    } else {
      InsertKindLaws(k, s[1..]);
      var rest := InsertKind(k, s[1..]);
      assert AsSet(s) == AsSet(s[1..]) + {s[0]};
      forall j | 0 <= j < |rest| ensures s[0] < rest[j] {
        assert rest[j] in AsSet(rest);
      }
    }
  }

  lemma {:induction false} SortKindsLaws(s: seq<Kind>)
    requires Distinct(s)
    ensures Ascending(SortKinds(s)) && AsSet(SortKinds(s)) == AsSet(s)
  {
    if s != [] {
      SortKindsLaws(s[1..]);
      assert AsSet(s) == AsSet(s[1..]) + {s[0]};
      assert s[0] !in s[1..];
      assert s[0] in AsSet(SortKinds(s[1..])) <==> s[0] in AsSet(s[1..]);
      InsertKindLaws(s[0], SortKinds(s[1..]));
    }
  }

  // ---------------------------------------------------------------- what collapsing should give

  ghost predicate Expands(sets: Sets, t: Target, k: Kind) {
    k in sets.expand(t.kinds)
  }

  /** Named or added by some target. */
  ghost predicate Wanted(sets: Sets, targets: seq<Target>, k: Kind) {
    exists t :: t in targets && !t.Remove? && Expands(sets, t, k)
  }

  ghost predicate Unwanted(sets: Sets, targets: seq<Target>, k: Kind) {
    exists t :: t in targets && t.Remove? && Expands(sets, t, k)
  }

  ghost predicate AnySet(targets: seq<Target>) {
    exists t :: t in targets && t.Set?
  }

  /** The defaults, unless some target is neutral, and the wanted kinds, without the unwanted ones. */
  ghost predicate IsEnabled(sets: Sets, defaults: set<Kind>, targets: seq<Target>, k: Kind) {
    ((!AnySet(targets) && k in defaults) || Wanted(sets, targets, k)) && !Unwanted(sets, targets, k)
  }

  /** Wanted by a target that names reports or checks, or supported. */
  ghost predicate IsSelected(sets: Sets, supported: set<Kind>, targets: seq<Target>, k: Kind) {
    exists t :: t in targets && !t.Remove? && Expands(sets, t, k) && (sets.named(t.kinds) || k in supported)
  }

  // ---------------------------------------------------------------- the loops

  ghost function Start(defaults: seq<Kind>, targets: seq<Target>): set<Kind> {
    if AnySet(targets) then {} else AsSet(defaults)
  }

  /** The targets of a list without duplicates, in order. */
  method Arrange(targets: seq<Target>) returns (sorted: seq<Target>)
    ensures InOrder(sorted) && forall t :: t in sorted <==> t in targets
  {
    var unique := [];
    for i := 0 to |targets|
      invariant forall t :: t in unique <==> t in targets[..i]
    {
      unique := Insert(unique, targets[i]);
      assert forall t :: t in targets[..i + 1] <==> t in targets[..i] || t == targets[i];
    }
    assert targets[..|targets|] == targets;
    SortTargetsLaws(unique);
    sorted := SortTargets(unique);
  }

  /** One `set` or `+add` target. */
  method AddAll(kinds: seq<Kind>, named: bool, supported: set<Kind>, enabled: seq<Kind>, selected: seq<Kind>)
    returns (newEnabled: seq<Kind>, newSelected: seq<Kind>)
    requires Distinct(enabled) && Distinct(selected)
    ensures Distinct(newEnabled) && AsSet(newEnabled) == AsSet(enabled) + AsSet(kinds)
    ensures Distinct(newSelected) && AsSet(newSelected) == AsSet(selected) + if named then AsSet(kinds) else AsSet(kinds) * supported
  {
    newEnabled, newSelected := enabled, selected;
    for i := 0 to |kinds|
      invariant Distinct(newEnabled) && AsSet(newEnabled) == AsSet(enabled) + AsSet(kinds[..i])
      invariant Distinct(newSelected)
      invariant AsSet(newSelected) == AsSet(selected) + if named then AsSet(kinds[..i]) else AsSet(kinds[..i]) * supported
    {
      var r := kinds[i];
      assert AsSet(kinds[..i + 1]) == AsSet(kinds[..i]) + {r};
      InsertLaws(newEnabled, r);
      newEnabled := Insert(newEnabled, r);
      if named || r in supported {
        InsertLaws(newSelected, r);
        newSelected := Insert(newSelected, r);
      }
    }
    assert kinds[..|kinds|] == kinds;
  }

  /** One `-remove` target. */
  method RemoveAll(kinds: seq<Kind>, enabled: seq<Kind>) returns (newEnabled: seq<Kind>)
    requires Distinct(enabled)
    ensures Distinct(newEnabled) && AsSet(newEnabled) == AsSet(enabled) - AsSet(kinds)
  {
    newEnabled := enabled;
    for i := 0 to |kinds|
      invariant Distinct(newEnabled) && AsSet(newEnabled) == AsSet(enabled) - AsSet(kinds[..i])
    {
      assert AsSet(kinds[..i + 1]) == AsSet(kinds[..i]) + {kinds[i]};
      SwapRemoveLaws(newEnabled, kinds[i]);
      newEnabled := SwapRemove(newEnabled, kinds[i]);
    }
    assert kinds[..|kinds|] == kinds;
  }

  /** `ReportTarget::collapse` */
  method Collapse(sets: Sets, targets: seq<Target>, defaults: seq<Kind>, supported: set<Kind>)
    returns (r: Result<(seq<Kind>, seq<Kind>), string>)
    requires Distinct(defaults)
    ensures r.Err? <==> forall k :: !IsEnabled(sets, AsSet(defaults), targets, k)
    ensures r.Ok? ==> Ascending(r.value.0) && Ascending(r.value.1)
    ensures r.Ok? ==> forall k :: k in r.value.0 <==> IsEnabled(sets, AsSet(defaults), targets, k)
    ensures r.Ok? ==> forall k :: k in r.value.1 <==> IsSelected(sets, supported, targets, k)
  {
    var sorted := Arrange(targets);
    FirstIsSet(sorted);
    var enabled := if sorted != [] && sorted[0].Set? then [] else defaults;
    var selected := [];
    for i := 0 to |sorted|
      invariant Distinct(enabled) && Distinct(selected)
      invariant forall k :: k in AsSet(enabled) <==> IsEnabledFrom(sets, Start(defaults, sorted), sorted[..i], k)
      invariant forall k :: k in AsSet(selected) <==> IsSelected(sets, supported, sorted[..i], k)
    {
      var t := sorted[i];
      ghost var before, chosen := AsSet(enabled), AsSet(selected);
      var kinds := sets.expand(t.kinds);
      if t.Remove? {
        enabled := RemoveAll(kinds, enabled);
      } else {
        enabled, selected := AddAll(kinds, sets.named(t.kinds), supported, enabled, selected);
      }
      forall k ensures k in AsSet(enabled) <==> IsEnabledFrom(sets, Start(defaults, sorted), sorted[..i + 1], k) {
        EnabledOneMore(sets, Start(defaults, sorted), sorted, i, k);
      }
      forall k ensures k in AsSet(selected) <==> IsSelected(sets, supported, sorted[..i + 1], k) {
        SelectedOneMore(sets, supported, sorted, i, k);
      }
    }
    assert sorted[..|sorted|] == sorted;
    forall k ensures k in AsSet(enabled) <==> IsEnabled(sets, AsSet(defaults), targets, k) {
      OrderDoesNotMatter(sets, AsSet(defaults), supported, sorted, targets, k);
    }
    forall k ensures k in AsSet(selected) <==> IsSelected(sets, supported, targets, k) {
      OrderDoesNotMatter(sets, AsSet(defaults), supported, sorted, targets, k);
    }
    if enabled == [] { return Err("no reports enabled"); }
    assert enabled[0] in AsSet(enabled);
    SortKindsLaws(enabled);
    SortKindsLaws(selected);
    var first, second := SortKinds(enabled), SortKinds(selected);
    assert forall k :: k in first <==> k in AsSet(first);
    assert forall k :: k in second <==> k in AsSet(second);
    r := Ok((first, second));
  }

  ghost predicate IsEnabledFrom(sets: Sets, start: set<Kind>, targets: seq<Target>, k: Kind) {
    (k in start || Wanted(sets, targets, k)) && !Unwanted(sets, targets, k)
  }

  lemma FirstIsSet(sorted: seq<Target>)
    requires InOrder(sorted)
    ensures AnySet(sorted) <==> sorted != [] && sorted[0].Set?
  {
    if AnySet(sorted) {
      var t :| t in sorted && t.Set?;
      var i :| 0 <= i < |sorted| && sorted[i] == t;
      assert i == 0 || Leq(sorted[0], sorted[i]);
    }
  }

  /** In order, nothing is wanted once something was unwanted. */
  lemma EnabledOneMore(sets: Sets, start: set<Kind>, sorted: seq<Target>, i: nat, k: Kind)
    requires InOrder(sorted) && i < |sorted|
    ensures var t := sorted[i];
            IsEnabledFrom(sets, start, sorted[..i + 1], k) <==>
            if t.Remove? then IsEnabledFrom(sets, start, sorted[..i], k) && !Expands(sets, t, k)
            else IsEnabledFrom(sets, start, sorted[..i], k) || Expands(sets, t, k)
  {
    var t := sorted[i];
    assert forall u :: u in sorted[..i + 1] <==> u in sorted[..i] || u == t;
    if !t.Remove? {
      forall u | u in sorted[..i + 1] ensures !u.Remove? {
        var j :| 0 <= j <= i && sorted[..i + 1][j] == u;
        assert j < i ==> Leq(sorted[j], sorted[i]);
      }
    }
  }

  lemma SelectedOneMore(sets: Sets, supported: set<Kind>, sorted: seq<Target>, i: nat, k: Kind)
    requires i < |sorted|
    ensures var t := sorted[i];
            IsSelected(sets, supported, sorted[..i + 1], k) <==>
            IsSelected(sets, supported, sorted[..i], k)
            || (!t.Remove? && Expands(sets, t, k) && (sets.named(t.kinds) || k in supported))
  {
    assert forall u :: u in sorted[..i + 1] <==> u in sorted[..i] || u == sorted[i];
  }

  /** Only which targets there are matters. */
  lemma OrderDoesNotMatter(sets: Sets, defaults: set<Kind>, supported: set<Kind>, a: seq<Target>, b: seq<Target>, k: Kind)
    requires forall t :: t in a <==> t in b
    ensures IsEnabled(sets, defaults, a, k) <==> IsEnabled(sets, defaults, b, k)
    ensures IsSelected(sets, supported, a, k) <==> IsSelected(sets, supported, b, k)
  {
  }

  /** An ascending list is determined by its elements, so targets in any order collapse to the same lists. */
  lemma {:induction false} AscendingIsUnique(a: seq<Kind>, b: seq<Kind>)
    requires Ascending(a) && Ascending(b) && forall k :: k in a <==> k in b
    ensures a == b
  {
    assert a != [] ==> a[0] in a && a[0] in b;
    assert b != [] ==> b[0] in b && b[0] in a;
    if a != [] {
      assert a[0] == b[0];
      forall k ensures k in a[1..] <==> k in b[1..] {
        assert k in a[1..] ==> k in a && k != a[0];
        assert k in b[1..] ==> k in b && k != b[0];
      }
      AscendingIsUnique(a[1..], b[1..]);
    }
  }
}
