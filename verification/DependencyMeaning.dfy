/**
 What a dependency tree asks for, and when evaluation preserves it.

 `Sat` is the meaning of section 8.2 of the Package Manager Specification: a selection of values
 satisfies a tree under a set of taken conditionals.  A conditional directly inside a choice group is
 a member of it only when taken.  Whether a choice group without members counts as satisfied depends
 on the EAPI and is a parameter.
 */
module DependencyMeaning {
  import opened Wrappers
  import opened DependencyTree
  import opened DependencyEval

  datatype World<T(==)> = World(selected: set<T>, emptyMatches: bool)

  ghost predicate Sat<T>(w: World<T>, on: Test, d: Dependency<T>)
    decreases d, 1
  {
    match d
    case Enabled(v) => v in w.selected
    case Disabled(v) => v !in w.selected
    case AllOf(ds) => SatEach(w, on, ds)
    case Conditional(u, ds) => on(u) ==> SatEach(w, on, ds)
    case AnyOf(ds) => if MemberCount(on, ds) == 0 then w.emptyMatches else SatCount(w, on, ds) >= 1
    case ExactlyOneOf(ds) => if MemberCount(on, ds) == 0 then w.emptyMatches else SatCount(w, on, ds) == 1
    case AtMostOneOf(ds) => SatCount(w, on, ds) <= 1
  }

  ghost predicate SatEach<T>(w: World<T>, on: Test, ds: seq<Dependency<T>>)
    decreases ds, 0
  {
    ds == [] || (Sat(w, on, ds[0]) && SatEach(w, on, ds[1..]))
  }

  /** Members of a choice group: everything but conditionals that are not taken. */
  ghost predicate Member<T>(on: Test, d: Dependency<T>) {
    d.Conditional? ==> on(d.guard)
  }

  ghost function MemberCount<T>(on: Test, ds: seq<Dependency<T>>): nat {
    if ds == [] then 0 else (if Member(on, ds[0]) then 1 else 0) + MemberCount(on, ds[1..])
  }

  /** How many members of a choice group are satisfied. */
  ghost function SatCount<T>(w: World<T>, on: Test, ds: seq<Dependency<T>>): nat
    decreases ds, 0
  {
    if ds == [] then 0 else (if Member(on, ds[0]) && Sat(w, on, ds[0]) then 1 else 0) + SatCount(w, on, ds[1..])
  }

  /** `!a` asks for the opposite of `a`: no selection satisfies both, every selection exactly one. */
  lemma OppositeLeaves<T>(w: World<T>, on: Test, v: T)
    ensures Sat(w, on, Enabled(v)) <==> v in w.selected
    ensures !Sat(w, on, AllOf([Enabled(v), Disabled(v)])) && Sat(w, on, ExactlyOneOf([Enabled(v), Disabled(v)]))
  {
    TwoSat(w, on, Enabled(v), Disabled(v));
  }

  // ---------------------------------------------------------------- equal dependencies mean the same

  lemma {:induction false} SatOfSame<T>(w: World<T>, on: Test, a: Dependency<T>, b: Dependency<T>)
    requires Same(a, b)
    ensures Sat(w, on, a) == Sat(w, on, b)
    ensures Member(on, a) == Member(on, b)
    decreases a, 1
  {
    if !a.Leaf() {
      assert TagOf(a) == TagOf(b);
      if a.Choice() {
        SatOfLists(w, on, a.vals, b.vals);
      } else {
        SatOfSets(w, on, a.vals, b.vals);
      }
    }
  }

  lemma {:induction false} SatOfLists<T>(w: World<T>, on: Test, xs: seq<Dependency<T>>, ys: seq<Dependency<T>>)
    requires Keys(xs) == Keys(ys)
    ensures SatCount(w, on, xs) == SatCount(w, on, ys) && MemberCount(on, xs) == MemberCount(on, ys)
    decreases xs, 0
  {
    if xs != [] {
      assert ys != [] && Keys(xs)[0] == Keys(ys)[0] && Keys(xs)[1..] == Keys(ys)[1..];
      SatOfSame(w, on, xs[0], ys[0]);
      SatOfLists(w, on, xs[1..], ys[1..]);
    }
  }

  lemma {:induction false} EachMeans<T>(w: World<T>, on: Test, ds: seq<Dependency<T>>)
    ensures SatEach(w, on, ds) <==> forall i :: 0 <= i < |ds| ==> Sat(w, on, ds[i])
  {
    if ds != [] {
      EachMeans(w, on, ds[1..]);
      assert forall i :: 0 < i < |ds| ==> ds[i] == ds[1..][i - 1];
    }
  }

  lemma {:induction false} SatOfSets<T>(w: World<T>, on: Test, xs: seq<Dependency<T>>, ys: seq<Dependency<T>>)
    requires (set k | k in Keys(xs)) == (set k | k in Keys(ys))
    ensures SatEach(w, on, xs) == SatEach(w, on, ys)
    decreases xs, 0
  {
    EachMeans(w, on, xs);
    EachMeans(w, on, ys);
    forall i | 0 <= i < |xs| ensures exists j :: 0 <= j < |ys| && Sat(w, on, xs[i]) == Sat(w, on, ys[j]) {
      var j := Find(xs, ys, i);
      SatOfSame(w, on, xs[i], ys[j]);
    }
    forall j | 0 <= j < |ys| ensures exists i :: 0 <= i < |xs| && Sat(w, on, xs[i]) == Sat(w, on, ys[j]) {
      var i := Find(ys, xs, j);
      SatOfSame(w, on, xs[i], ys[j]);
    }
  }

  lemma Find<T>(xs: seq<Dependency<T>>, ys: seq<Dependency<T>>, i: nat) returns (j: nat)
    requires i < |xs| && (set k | k in Keys(xs)) == (set k | k in Keys(ys))
    ensures j < |ys| && Same(ys[j], xs[i])
  {
    var key := Keys(xs)[i];
    var xk, yk := set k | k in Keys(xs), set k | k in Keys(ys);
    assert xk == yk && key in xk;
    j :| j < |Keys(ys)| && Keys(ys)[j] == key;
  }

  /** Dropping duplicates keeps "each" and "at least one". */
  lemma DedupSat<T>(w: World<T>, on: Test, ds: seq<Dependency<T>>)
    ensures SatEach(w, on, Dedup(ds)) == SatEach(w, on, ds)
    ensures SatCount(w, on, Dedup(ds)) >= 1 <==> SatCount(w, on, ds) >= 1
  {
    var r := Dedup(ds);
    EachMeans(w, on, ds);
    EachMeans(w, on, r);
    SomeMeans(w, on, ds);
    SomeMeans(w, on, r);
    forall i | 0 <= i < |ds|
      ensures exists j :: 0 <= j < |r| && Sat(w, on, r[j]) == Sat(w, on, ds[i]) && Member(on, r[j]) == Member(on, ds[i])
    {
      var j := Kept(w, on, ds, i);
    }
    forall j | 0 <= j < |r| ensures exists i :: 0 <= i < |ds| && ds[i] == r[j] {
      DedupDistinct(ds);
      assert r[j] in ds;
    }
  }

  lemma Kept<T>(w: World<T>, on: Test, ds: seq<Dependency<T>>, i: nat) returns (j: nat)
    requires i < |ds|
    ensures j < |Dedup(ds)| && Sat(w, on, Dedup(ds)[j]) == Sat(w, on, ds[i]) && Member(on, Dedup(ds)[j]) == Member(on, ds[i])
  {
    DedupCovers(ds, ds[i]);
    var e :| e in Dedup(ds) && Same(e, ds[i]);
    j :| j < |Dedup(ds)| && Dedup(ds)[j] == e;
    SatOfSame(w, on, e, ds[i]);
  }

  lemma {:induction false} SomeMeans<T>(w: World<T>, on: Test, ds: seq<Dependency<T>>)
    ensures SatCount(w, on, ds) >= 1 <==> exists i :: 0 <= i < |ds| && Member(on, ds[i]) && Sat(w, on, ds[i])
  {
    if ds != [] {
      SomeMeans(w, on, ds[1..]);
      if i :| 0 <= i < |ds[1..]| && Member(on, ds[1..][i]) && Sat(w, on, ds[1..][i]) {
        assert ds[i + 1] == ds[1..][i];
      }
      assert forall i :: 0 < i < |ds| ==> ds[i] == ds[1..][i - 1];
    }
  }

  // ---------------------------------------------------------------- when evaluation preserves meaning

  /**
   The condition under which a tree keeps its meaning.  In a choice group every member evaluates to
   exactly one dependency, equal results do not fall together where members are counted, and the group
   does not lose all its members unless that counts as satisfied.
   */
  ghost predicate Regular<T>(on: Test, emptyMatches: bool, d: Dependency<T>)
    decreases d, 1
  {
    if d.Leaf() then true
    else if d.Conditional? then on(d.guard) ==> RegularAll(on, emptyMatches, d.vals)
    else if d.AllOf? then RegularAll(on, emptyMatches, d.vals)
    else
      && RegularMembers(on, emptyMatches, d.vals)
      && (d.AnyOf? || Distinct(EvalAll(on, d.vals)))
      && (d.AtMostOneOf? || emptyMatches || MemberCount(on, d.vals) > 0)
  }

  ghost predicate RegularAll<T>(on: Test, emptyMatches: bool, ds: seq<Dependency<T>>)
    decreases ds, 0
  {
    ds == [] || (Regular(on, emptyMatches, ds[0]) && RegularAll(on, emptyMatches, ds[1..]))
  }

  ghost predicate RegularMembers<T>(on: Test, emptyMatches: bool, ds: seq<Dependency<T>>)
    decreases ds, 0
  {
    ds == [] || (
      && (Member(on, ds[0]) ==> |Eval(on, ds[0])| == 1 && Regular(on, emptyMatches, ds[0]))
      && RegularMembers(on, emptyMatches, ds[1..]))
  }

  lemma {:induction false} SatEachAppend<T>(w: World<T>, on: Test, a: seq<Dependency<T>>, b: seq<Dependency<T>>)
    ensures SatEach(w, on, a + b) == (SatEach(w, on, a) && SatEach(w, on, b))
  {
    if a == [] {
      assert a + b == b;
    } else {
      assert (a + b)[1..] == a[1..] + b;
      SatEachAppend(w, on, a[1..], b);
    }
  }

  lemma {:induction false} EvalSat<T>(w: World<T>, on: Test, again: Test, d: Dependency<T>)
    requires Regular(on, w.emptyMatches, d)
    ensures Sat(w, on, d) <==> SatEach(w, again, Eval(on, d))
    decreases d, 1
  {
    if d.Conditional? {
      if on(d.guard) { EvalAllSat(w, on, again, d.vals); }
    } else if d.AllOf? {
      EvalAllSat(w, on, again, d.vals);
      DedupSat(w, again, EvalAll(on, d.vals));
    } else if d.Choice() {
      MembersSat(w, on, again, d.vals);
      ChoiceSat(w, on, again, d, EvalAll(on, d.vals));
    }
  }

  lemma {:induction false} EvalAllSat<T>(w: World<T>, on: Test, again: Test, ds: seq<Dependency<T>>)
    requires RegularAll(on, w.emptyMatches, ds)
    ensures SatEach(w, on, ds) <==> SatEach(w, again, EvalAll(on, ds))
    decreases ds, 0
  {
    if ds != [] {
      EvalSat(w, on, again, ds[0]);
      EvalAllSat(w, on, again, ds[1..]);
      SatEachAppend(w, again, Eval(on, ds[0]), EvalAll(on, ds[1..]));
    }
  }

  lemma {:induction false} MembersSat<T>(w: World<T>, on: Test, again: Test, ds: seq<Dependency<T>>)
    requires RegularMembers(on, w.emptyMatches, ds)
    ensures SatCount(w, again, EvalAll(on, ds)) == SatCount(w, on, ds)
    ensures MemberCount(again, EvalAll(on, ds)) == |EvalAll(on, ds)| == MemberCount(on, ds)
    decreases ds, 0
  {
    if ds != [] {
      MembersSat(w, on, again, ds[1..]);
      var here, rest := Eval(on, ds[0]), EvalAll(on, ds[1..]);
      if Member(on, ds[0]) {
        EvalSat(w, on, again, ds[0]);
        EvalIsNormal(on, ds[0]);
        assert Normal(here[0]);
        assert (here + rest)[0] == here[0] && (here + rest)[1..] == rest;
      } else {
        assert here + rest == rest;
      }
    }
  }

  lemma ChoiceSat<T>(w: World<T>, on: Test, again: Test, d: Dependency<T>, es: seq<Dependency<T>>)
    requires d.Choice() && es == EvalAll(on, d.vals)
    requires SatCount(w, again, es) == SatCount(w, on, d.vals)
    requires MemberCount(again, es) == |es| == MemberCount(on, d.vals)
    requires d.AnyOf? || Distinct(es)
    requires d.AtMostOneOf? || w.emptyMatches || |es| > 0
    ensures Sat(w, on, d) <==> SatEach(w, again, Eval(on, d))
  {
    DedupDistinct(es);
    if es == [] {
      assert SatEach(w, again, Eval(on, d));
    } else {
      EvalAllIsNormal(on, d.vals);
      var group := Regroup(d, Dedup(es));
      GroupSat(w, on, again, d, es, group);
      OneSat(w, again, group);
    }
  }

  lemma GroupSat<T>(w: World<T>, on: Test, again: Test, d: Dependency<T>, es: seq<Dependency<T>>, group: Dependency<T>)
    requires d.Choice() && es != [] && NormalAll(es) && group == Regroup(d, Dedup(es))
    requires SatCount(w, again, es) == SatCount(w, on, d.vals)
    requires MemberCount(again, es) == |es| == MemberCount(on, d.vals)
    requires d.AnyOf? || Distinct(es)
    ensures Sat(w, on, d) <==> Sat(w, again, group)
  {
    if d.AnyOf? {
      DedupSat(w, again, es);
      DedupIsNormal(es);
      AllAreMembers(again, Dedup(es));
      DedupDistinct(es);
    } else {
      DedupKeeps(es);
    }
  }

  lemma {:induction false} AllAreMembers<T>(on: Test, ds: seq<Dependency<T>>)
    requires NormalAll(ds)
    ensures MemberCount(on, ds) == |ds|
  {
    if ds != [] {
      assert Normal(ds[0]);
      AllAreMembers(on, ds[1..]);
    }
  }

  /**
   A selection satisfies a regular tree exactly when it satisfies every dependency of its evaluation,
   duplicates dropped, under any further options.
   */
  lemma EvaluationPreservesMeaning<T>(w: World<T>, on: Test, again: Test, d: Dependency<T>)
    requires Regular(on, w.emptyMatches, d)
    ensures Sat(w, on, d) <==> SatEach(w, again, Evaluate(on, d))
  {
    EvalSat(w, on, again, d);
    DedupSat(w, again, Eval(on, d));
  }

  // ---------------------------------------------------------------- a condition on the tree alone

  /** Choice groups are non-empty sets that hold no conditional and no empty group at any depth. */
  ghost predicate Plain<T>(d: Dependency<T>)
    decreases d, 1
  {
    if d.Leaf() then true
    else if d.Choice() then Normal(d)
    else PlainAll(d.vals)
  }

  ghost predicate PlainAll<T>(ds: seq<Dependency<T>>)
    decreases ds, 0
  {
    ds == [] || (Plain(ds[0]) && PlainAll(ds[1..]))
  }

  lemma {:induction false} NormalIsRegular<T>(on: Test, emptyMatches: bool, d: Dependency<T>)
    requires Normal(d)
    ensures Regular(on, emptyMatches, d)
    decreases d, 1
  {
    if !d.Leaf() {
      NormalAllRegular(on, emptyMatches, d.vals);
      NormalAllFixed(on, d.vals);
    }
  }

  lemma {:induction false} NormalAllRegular<T>(on: Test, emptyMatches: bool, ds: seq<Dependency<T>>)
    requires NormalAll(ds)
    ensures RegularAll(on, emptyMatches, ds) && RegularMembers(on, emptyMatches, ds) && MemberCount(on, ds) == |ds|
    decreases ds, 0
  {
    if ds != [] {
      assert Normal(ds[0]);
      NormalIsRegular(on, emptyMatches, ds[0]);
      NormalIsFixed(on, ds[0]);
      NormalAllRegular(on, emptyMatches, ds[1..]);
    }
  }

  /** Plain trees keep their meaning under every option set and in every EAPI. */
  lemma {:induction false} PlainIsRegular<T>(on: Test, emptyMatches: bool, d: Dependency<T>)
    requires Plain(d)
    ensures Regular(on, emptyMatches, d)
    decreases d, 1
  {
    if d.Choice() {
      NormalIsRegular(on, emptyMatches, d);
    } else if !d.Leaf() {
      PlainAllRegular(on, emptyMatches, d.vals);
    }
  }

  lemma {:induction false} PlainAllRegular<T>(on: Test, emptyMatches: bool, ds: seq<Dependency<T>>)
    requires PlainAll(ds)
    ensures RegularAll(on, emptyMatches, ds)
    decreases ds, 0
  {
    if ds != [] {
      PlainIsRegular(on, emptyMatches, ds[0]);
      PlainAllRegular(on, emptyMatches, ds[1..]);
    }
  }

  // ---------------------------------------------------------------- each part of the condition is needed

  const U := UseDep("u", true, None)

  ghost function Sats<T>(w: World<T>, on: Test, d: Dependency<T>): nat {
    if Member(on, d) && Sat(w, on, d) then 1 else 0
  }

  lemma OneEval<T>(on: Test, a: Dependency<T>)
    ensures EvalAll(on, [a]) == Eval(on, a)
  {
    assert EvalAll(on, [a][1..]) == [];
  }

  lemma OneDedup<T>(a: Dependency<T>)
    ensures Dedup([a]) == [a]
  {
    DedupKeeps([a]);
  }

  lemma OneSat<T>(w: World<T>, on: Test, a: Dependency<T>)
    ensures SatEach(w, on, [a]) == Sat(w, on, a) && SatCount(w, on, [a]) == Sats(w, on, a)
    ensures MemberCount(on, [a]) == if Member(on, a) then 1 else 0
  {
    assert [a][1..] == [];
  }

  lemma TwoEval<T>(on: Test, a: Dependency<T>, b: Dependency<T>)
    ensures EvalAll(on, [a, b]) == Eval(on, a) + Eval(on, b)
  {
    OneEval(on, b);
    assert [a, b][1..] == [b];
  }

  lemma TwoDedup<T>(a: Dependency<T>, b: Dependency<T>)
    ensures Dedup([a, b]) == if Same(a, b) then [a] else [a, b]
  {
    OneDedup(a);
    assert [a, b][..1] == [a];
    assert Keys([a])[0] == KeyOf(a);
  }

  lemma TwoSat<T>(w: World<T>, on: Test, a: Dependency<T>, b: Dependency<T>)
    ensures SatEach(w, on, [a, b]) == (Sat(w, on, a) && Sat(w, on, b))
    ensures SatCount(w, on, [a, b]) == Sats(w, on, a) + Sats(w, on, b)
    ensures MemberCount(on, [a, b]) == (if Member(on, a) then 1 else 0) + (if Member(on, b) then 1 else 0)
  {
    OneSat(w, on, b);
    assert [a, b][1..] == [b];
  }

  lemma One<T>(w: World<T>, on: Test, a: Dependency<T>)
    ensures EvalAll(on, [a]) == Eval(on, a) && Dedup([a]) == [a]
    ensures SatEach(w, on, [a]) == Sat(w, on, a) && SatCount(w, on, [a]) == Sats(w, on, a)
    ensures MemberCount(on, [a]) == if Member(on, a) then 1 else 0
  {
    OneEval(on, a);
    OneDedup(a);
    OneSat(w, on, a);
  }

  lemma Two<T>(w: World<T>, on: Test, a: Dependency<T>, b: Dependency<T>)
    ensures EvalAll(on, [a, b]) == Eval(on, a) + Eval(on, b)
    ensures Dedup([a, b]) == if Same(a, b) then [a] else [a, b]
    ensures SatEach(w, on, [a, b]) == (Sat(w, on, a) && Sat(w, on, b))
    ensures SatCount(w, on, [a, b]) == Sats(w, on, a) + Sats(w, on, b)
    ensures MemberCount(on, [a, b]) == (if Member(on, a) then 1 else 0) + (if Member(on, b) then 1 else 0)
  {
    TwoEval(on, a, b);
    TwoDedup(a, b);
    TwoSat(w, on, a, b);
  }

  /** `|| ( u? ( a b ) )` with u on becomes `|| ( a b )`: a alone suffices afterwards, not before. */
  lemma SplicingIntoChoiceChangesMeaning()
    ensures var d := AnyOf([Conditional(U, [Enabled(1), Enabled(2)])]);
            var w := World({1}, true);
            !Sat(w, Force(true), d) && SatEach(w, Force(true), Evaluate(Force(true), d))
  {
    var on, w := Force(true), World({1}, true);
    var a, b := Enabled(1), Enabled(2);
    var c := Conditional(U, [a, b]);
    Two(w, on, a, b);
    One(w, on, c);
    assert EvalAll(on, [c]) == [a, b];
    assert Eval(on, AnyOf([c])) == [AnyOf([a, b])];
    One(w, on, AnyOf([a, b]));
  }

  /** `|| ( ( u? ( a ) ) b )` with u off becomes `|| ( b )`: the emptied group was satisfied before. */
  lemma DroppingEmptyGroupChangesMeaning()
    ensures var d := AnyOf([AllOf([Conditional(U, [Enabled(1)])]), Enabled(2)]);
            var w := World({}, true);
            Sat(w, Force(false), d) && !SatEach(w, Force(false), Evaluate(Force(false), d))
  {
    var on, w: World<int> := Force(false), World({}, true);
    var c, b := Conditional(U, [Enabled(1)]), Enabled(2);
    One(w, on, c);
    Two(w, on, AllOf([c]), b);
    One(w, on, b);
    assert Eval(on, AllOf([c])) == [];
    assert EvalAll(on, [AllOf([c]), b]) == [b];
    assert Eval(on, AnyOf([AllOf([c]), b])) == [AnyOf([b])];
    One(w, on, AnyOf([b]));
  }

  /** `^^ ( ( a ) ( a u? ( b ) ) )` with u off becomes `^^ ( ( a ) )`: two satisfied members fall together. */
  lemma CollapsingDuplicatesChangesMeaning()
    ensures var d := ExactlyOneOf([AllOf([Enabled(1)]), AllOf([Enabled(1), Conditional(U, [Enabled(2)])])]);
            var w := World({1}, true);
            !Sat(w, Force(false), d) && SatEach(w, Force(false), Evaluate(Force(false), d))
  {
    var on, w := Force(false), World({1}, true);
    var a, c := Enabled(1), Conditional(U, [Enabled(2)]);
    var x, y := AllOf([a]), AllOf([a, c]);
    One(w, on, a);
    Two(w, on, a, c);
    assert Eval(on, x) == [x] && Eval(on, y) == [x];
    Twins(on, x, y);
    Two(w, on, x, y);
    One(w, on, x);
    One(w, on, ExactlyOneOf([x]));
  }

  /** Two members that evaluate to the same one fall together. */
  lemma Twins<T>(on: Test, x: Dependency<T>, y: Dependency<T>)
    requires Eval(on, x) == [x] == Eval(on, y)
    ensures Eval(on, ExactlyOneOf([x, y])) == [ExactlyOneOf([x])]
  {
    TwinMembers(on, x, y);
    TwoDedup(x, x);
  }

  lemma TwinMembers<T>(on: Test, x: Dependency<T>, y: Dependency<T>)
    requires Eval(on, x) == [x] == Eval(on, y)
    ensures EvalAll(on, [x, y]) == [x, x]
  {
    TwoEval(on, x, y);
  }

  /** `|| ( u? ( a ) )` with u off disappears, also where an empty group does not count as satisfied. */
  lemma DroppingEmptyChoiceChangesMeaning()
    ensures var d := AnyOf([Conditional(U, [Enabled(1)])]);
            var w := World({}, false);
            !Sat(w, Force(false), d) && SatEach(w, Force(false), Evaluate(Force(false), d))
  {
    var on, w: World<int> := Force(false), World({}, false);
    One(w, on, Conditional(U, [Enabled(1)]));
    assert Eval(on, AnyOf([Conditional(U, [Enabled(1)])])) == [];
  }
}
