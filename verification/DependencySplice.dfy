/**
 Choice groups with one conditional or one nested group beside plain values: exactly when evaluation
 (`crates/pkgcraft/src/dep/dependency_iter.rs`) keeps what they ask for, for all three kinds of choice.
 */
module DependencySplice {
  import opened Wrappers
  import opened DependencyTree
  import opened DependencyEval
  import opened DependencyMeaning

  // ---------------------------------------------------------------- plain values

  ghost function On<T>(vs: seq<T>): (ds: seq<Dependency<T>>)
    ensures |ds| == |vs| && forall i :: 0 <= i < |vs| ==> ds[i] == Enabled(vs[i])
  {
    seq(|vs|, i requires 0 <= i < |vs| => Enabled(vs[i]))
  }

  ghost function AsSet<T>(vs: seq<T>): set<T> {
    set v | v in vs
  }

  ghost predicate NoRepeat<T>(vs: seq<T>) {
    forall i, j :: 0 <= i < j < |vs| ==> vs[i] != vs[j]
  }

  /** How many of the values are selected. */
  ghost function Count<T>(vs: seq<T>, selected: set<T>): nat {
    if vs == [] then 0 else (if vs[0] in selected then 1 else 0) + Count(vs[1..], selected)
  }

  lemma OnRest<T>(vs: seq<T>)
    requires vs != []
    ensures On(vs) != [] && On(vs)[0] == Enabled(vs[0]) && On(vs)[1..] == On(vs[1..])
  {
  }

  lemma OnInit<T>(vs: seq<T>)
    requires vs != []
    ensures On(vs) != [] && On(vs)[..|On(vs)| - 1] == On(vs[..|vs| - 1]) && On(vs)[|On(vs)| - 1] == Enabled(vs[|vs| - 1])
  {
  }

  lemma OnOneMore<T>(vs: seq<T>, v: T)
    ensures On(vs) + [Enabled(v)] == On(vs + [v])
  {
  }

  lemma OnAppend<T>(xs: seq<T>, ys: seq<T>)
    ensures On(xs) + On(ys) == On(xs + ys)
  {
  }

  lemma {:induction false} OnEvaluates<T>(on: Test, vs: seq<T>)
    ensures EvalAll(on, On(vs)) == On(vs)
  {
    if vs != [] {
      OnRest(vs);
      OnEvaluates(on, vs[1..]);
      assert [On(vs)[0]] + On(vs)[1..] == On(vs);
    }
  }

  lemma {:induction false} CountOn<T>(w: World<T>, on: Test, vs: seq<T>)
    ensures SatCount(w, on, On(vs)) == Count(vs, w.selected) && MemberCount(on, On(vs)) == |vs|
  {
    if vs != [] {
      OnRest(vs);
      CountOn(w, on, vs[1..]);
    }
  }

  lemma {:induction false} EachOn<T>(w: World<T>, on: Test, vs: seq<T>)
    ensures SatEach(w, on, On(vs)) <==> AsSet(vs) <= w.selected
  {
    if vs != [] {
      OnRest(vs);
      EachOn(w, on, vs[1..]);
      FirstInSet(vs);
    }
  }

  lemma FirstInSet<T>(vs: seq<T>)
    requires vs != []
    ensures AsSet(vs) == {vs[0]} + AsSet(vs[1..])
  {
  }

  lemma {:induction false} CountIsSize<T>(vs: seq<T>, selected: set<T>)
    requires NoRepeat(vs)
    ensures Count(vs, selected) == |AsSet(vs) * selected|
  {
    if vs == [] {
      assert AsSet(vs) * selected == {};
    } else {
      CountIsSize(vs[1..], selected);
      FirstInSet(vs);
      var rest := AsSet(vs[1..]) * selected;
      assert vs[0] !in rest;
      assert AsSet(vs) * selected == if vs[0] in selected then rest + {vs[0]} else rest;
    }
  }

  lemma {:induction false} SomeCounted<T>(vs: seq<T>, selected: set<T>)
    ensures Count(vs, selected) >= 1 <==> AsSet(vs) * selected != {}
  {
    if vs == [] {
      assert AsSet(vs) * selected == {};
    } else {
      SomeCounted(vs[1..], selected);
      FirstInSet(vs);
      assert AsSet(vs) * selected == ({vs[0]} * selected) + (AsSet(vs[1..]) * selected);
      assert vs[0] in selected ==> vs[0] in {vs[0]} * selected;
    }
  }

  /** The values without repetitions, each where it first occurs. */
  ghost function Firsts<T>(vs: seq<T>): seq<T> {
    if vs == [] then [] else
      var n := |vs| - 1;
      var kept := Firsts(vs[..n]);
      if vs[n] in kept then kept else kept + [vs[n]]
  }

  lemma {:induction false} FirstsLaws<T>(vs: seq<T>)
    ensures NoRepeat(Firsts(vs)) && AsSet(Firsts(vs)) == AsSet(vs)
  {
    if vs != [] {
      var n := |vs| - 1;
      FirstsLaws(vs[..n]);
      assert vs == vs[..n] + [vs[n]];
      assert AsSet(vs) == AsSet(vs[..n]) + {vs[n]};
    }
  }

  lemma KeyOnce<T>(vs: seq<T>, v: T)
    ensures KeyOf(Enabled(v)) in Keys(On(vs)) <==> v in vs
  {
    var ks := Keys(On(vs));
    assert forall i :: 0 <= i < |vs| ==> ks[i] == LeafKey(true, vs[i]);
    if v in vs {
      var i :| 0 <= i < |vs| && vs[i] == v;
      assert ks[i] == KeyOf(Enabled(v));
    }
  }

  lemma {:induction false} DedupOn<T>(vs: seq<T>)
    ensures Dedup(On(vs)) == On(Firsts(vs))
  {
    if vs != [] {
      var n := |vs| - 1;
      OnInit(vs);
      DedupOn(vs[..n]);
      KeyOnce(Firsts(vs[..n]), vs[n]);
      OnOneMore(Firsts(vs[..n]), vs[n]);
    }
  }

  // ---------------------------------------------------------------- one conditional among the values

  /** How many satisfied members a choice group of a kind wants. */
  ghost predicate Enough<T>(g: Dependency<T>, n: nat) {
    if g.AnyOf? then n >= 1 else if g.ExactlyOneOf? then n == 1 else n <= 1
  }

  /** A conditional counts as one satisfied member when all its values are selected. */
  ghost function Whole<T>(xs: set<T>, selected: set<T>): nat {
    if xs <= selected then 1 else 0
  }

  /** `|| ( u? ( xs ) ys )`, and so for the kind of `g`. */
  ghost function Spliced<T>(g: Dependency<T>, u: UseDep, xs: seq<T>, ys: seq<T>): Dependency<T>
    requires g.Choice()
  {
    Regroup(g, [Conditional(u, On(xs))] + On(ys))
  }

  lemma ChoiceMeans<T>(w: World<T>, on: Test, g: Dependency<T>, ds: seq<Dependency<T>>)
    requires g.Choice() && MemberCount(on, ds) > 0
    ensures Sat(w, on, Regroup(g, ds)) <==> Enough(g, SatCount(w, on, ds))
  {
  }

  lemma BeforeSplicing<T>(w: World<T>, on: Test, g: Dependency<T>, u: UseDep, xs: seq<T>, ys: seq<T>)
    requires g.Choice() && on(u)
    ensures Sat(w, on, Spliced(g, u, xs, ys)) <==>
            Enough(g, Whole(AsSet(xs), w.selected) + Count(ys, w.selected))
  {
    var c := Conditional(u, On(xs));
    EachOn(w, on, xs);
    CountOn(w, on, ys);
    assert ([c] + On(ys))[0] == c && ([c] + On(ys))[1..] == On(ys);
    assert Sat(w, on, c) == SatEach(w, on, On(xs));
    ChoiceMeans(w, on, g, [c] + On(ys));
  }

  lemma MembersSpliced<T>(on: Test, g: Dependency<T>, u: UseDep, xs: seq<T>, ys: seq<T>)
    requires g.Choice() && on(u)
    ensures EvalAll(on, Spliced(g, u, xs, ys).vals) == On(xs + ys)
  {
    OnEvaluates(on, xs);
    OnEvaluates(on, ys);
    TailAppend([Conditional(u, On(xs))], On(ys));
    assert [Conditional(u, On(xs))][1..] + On(ys) == On(ys);
    OnAppend(xs, ys);
  }

  /** A choice of plain values, evaluated: without repetitions, or gone when there is none. */
  lemma ValuesEvaluate<T>(on: Test, g: Dependency<T>, ds: seq<Dependency<T>>, vs: seq<T>)
    requires g.Choice() && EvalAll(on, ds) == On(vs)
    ensures Evaluate(on, Regroup(g, ds)) == if vs == [] then [] else [Regroup(g, On(Firsts(vs)))]
  {
    DedupOn(vs);
    if vs != [] {
      DedupDistinct(On(vs));
      OneDedup(Regroup(g, On(Firsts(vs))));
    } else {
      assert Eval(on, Regroup(g, ds)) == [];
    }
  }

  lemma ValuesSat<T>(w: World<T>, on: Test, g: Dependency<T>, vs: seq<T>)
    requires g.Choice() && vs != []
    ensures SatEach(w, on, [Regroup(g, On(Firsts(vs)))]) <==> Enough(g, |AsSet(vs) * w.selected|)
  {
    FirstsLaws(vs);
    CountOn(w, on, Firsts(vs));
    CountIsSize(Firsts(vs), w.selected);
    assert vs[0] in AsSet(vs);
    OneSat(w, on, Regroup(g, On(Firsts(vs))));
    ChoiceMeans(w, on, g, On(Firsts(vs)));
  }

  /** Evaluation keeps the meaning of a tree for a selection. */
  ghost predicate MeaningKept<T>(on: Test, d: Dependency<T>, w: World<T>) {
    Sat(w, on, d) <==> SatEach(w, on, Evaluate(on, d))
  }

  lemma AfterSplicing<T>(w: World<T>, on: Test, g: Dependency<T>, u: UseDep, xs: seq<T>, ys: seq<T>)
    requires g.Choice() && on(u) && xs + ys != []
    ensures SatEach(w, on, Evaluate(on, Spliced(g, u, xs, ys))) <==> Enough(g, |AsSet(xs + ys) * w.selected|)
  {
    MembersSpliced(on, g, u, xs, ys);
    ValuesEvaluate(on, g, [Conditional(u, On(xs))] + On(ys), xs + ys);
    ValuesSat(w, on, g, xs + ys);
  }

  lemma EnoughCounted<T>(g: Dependency<T>, more: nat, ys: seq<T>, selected: set<T>)
    requires g.AnyOf? || NoRepeat(ys)
    ensures Enough(g, more + Count(ys, selected)) <==> Enough(g, more + |AsSet(ys) * selected|)
  {
    if g.AnyOf? {
      SomeCounted(ys, selected);
      assert AsSet(ys) * selected == {} <==> |AsSet(ys) * selected| == 0;
    } else {
      CountIsSize(ys, selected);
    }
  }

  /** What the tree asks for, in terms of the two sets. */
  ghost predicate WantsBefore<T>(g: Dependency<T>, xs: set<T>, ys: set<T>, selected: set<T>) {
    Enough(g, Whole(xs, selected) + |ys * selected|)
  }

  /** What its evaluation asks for. */
  ghost predicate WantsAfter<T>(g: Dependency<T>, xs: set<T>, ys: set<T>, selected: set<T>) {
    Enough(g, |(xs + ys) * selected|)
  }

  /** Before: the conditional as one member beside the values.  After: all values on a par. */
  ghost predicate SetsAgree<T>(g: Dependency<T>, xs: set<T>, ys: set<T>, selected: set<T>) {
    WantsBefore(g, xs, ys, selected) <==> WantsAfter(g, xs, ys, selected)
  }

  /** The same for the lists of values. */
  ghost predicate ListsAgree<T>(g: Dependency<T>, xs: seq<T>, ys: seq<T>, selected: set<T>) {
    Enough(g, Whole(AsSet(xs), selected) + Count(ys, selected)) <==> Enough(g, |AsSet(xs + ys) * selected|)
  }

  lemma KeptMeans<T>(on: Test, g: Dependency<T>, u: UseDep, xs: seq<T>, ys: seq<T>, w: World<T>)
    requires g.Choice() && on(u) && xs != []
    ensures MeaningKept(on, Spliced(g, u, xs, ys), w) <==> ListsAgree(g, xs, ys, w.selected)
  {
    BeforeSplicing(w, on, g, u, xs, ys);
    AfterSplicing(w, on, g, u, xs, ys);
  }

  lemma ListsMean<T>(g: Dependency<T>, xs: seq<T>, ys: seq<T>, selected: set<T>)
    requires g.AnyOf? || NoRepeat(ys)
    ensures ListsAgree(g, xs, ys, selected) <==> SetsAgree(g, AsSet(xs), AsSet(ys), selected)
  {
    EnoughCounted(g, Whole(AsSet(xs), selected), ys, selected);
    assert AsSet(xs + ys) == AsSet(xs) + AsSet(ys);
  }

  // ---------------------------------------------------------------- the condition on the two sets

  /**
   For all kinds, the conditional holds one value that is not among the others, or several that all are.
   `||` also allows one value that is, and `??` two values of which one is the only other value.
   */
  ghost predicate Harmless<T>(g: Dependency<T>, xs: set<T>, ys: set<T>) {
    if g.AnyOf? then |xs| == 1 || xs <= ys
    else
      || (|xs| == 1 && xs * ys == {})
      || (|xs| >= 2 && xs <= ys)
      || (g.AtMostOneOf? && |xs| == 2 && |ys| == 1 && ys <= xs)
  }

  lemma SizeOfOne<T>(s: set<T>, x: T)
    requires |s| == 1 && x in s
    ensures s == {x}
  {
    assert |s - {x}| == 0;
  }

  lemma SizeOfUnion<T>(a: set<T>, b: set<T>, s: set<T>)
    requires a !! b
    ensures |(a + b) * s| == |a * s| + |b * s|
  {
    assert (a + b) * s == (a * s) + (b * s);
  }

  lemma SmallerSet<T>(a: set<T>, b: set<T>)
    requires a <= b
    ensures |a| <= |b|
  {
    assert b == a + (b - a);
  }

  /** A single value beside others: one more of them. */
  lemma OneBeside<T>(g: Dependency<T>, x: T, ys: set<T>, selected: set<T>)
    requires x !in ys
    ensures SetsAgree(g, {x}, ys, selected)
  {
    SizeOfUnion({x}, ys, selected);
    assert {x} * selected == if x in selected then {x} else {};
  }

  /** Several values that all are among the others: they count at least as much without the conditional. */
  lemma SeveralAmong<T>(g: Dependency<T>, xs: set<T>, ys: set<T>, selected: set<T>)
    requires xs <= ys && (g.AnyOf? || |xs| >= 2) && xs != {}
    ensures SetsAgree(g, xs, ys, selected)
  {
    assert xs + ys == ys;
    if xs <= selected {
      SmallerSet(xs, ys * selected);
    }
  }

  /** Any-of: one value, among the others or not. */
  lemma AnyOne<T>(g: Dependency<T>, x: T, ys: set<T>, selected: set<T>)
    requires g.AnyOf?
    ensures SetsAgree(g, {x}, ys, selected)
  {
    if x in ys { SeveralAmong(g, {x}, ys, selected); } else { OneBeside(g, x, ys, selected); }
  }

  /** At most one of: two values of which one is the only other. */
  lemma PairWithOne<T>(g: Dependency<T>, xs: set<T>, ys: set<T>, selected: set<T>)
    requires g.AtMostOneOf? && |xs| == 2 && |ys| == 1 && ys <= xs
    ensures SetsAgree(g, xs, ys, selected)
  {
    assert xs + ys == xs;
    SmallerSet(ys * selected, ys);
    SmallerSet(xs * selected, xs);
    if xs <= selected {
      assert xs * selected == xs && ys * selected == ys;
    } else {
      var x :| x in xs && x !in selected;
      SmallerSet(xs * selected, xs - {x});
    }
  }

  lemma HarmlessAgrees<T>(g: Dependency<T>, xs: set<T>, ys: set<T>, selected: set<T>)
    requires xs != {} && Harmless(g, xs, ys)
    ensures SetsAgree(g, xs, ys, selected)
  {
    if xs <= ys && (g.AnyOf? || |xs| >= 2) {
      SeveralAmong(g, xs, ys, selected);
    } else if |xs| == 1 {
      var x :| x in xs;
      SizeOfOne(xs, x);
      if g.AnyOf? { AnyOne(g, x, ys, selected); } else { OneBeside(g, x, ys, selected); }
    } else {
      PairWithOne(g, xs, ys, selected);
    }
  }

  /** One value that is among the others counts twice before and once after. */
  lemma OneAmongDisagrees<T>(g: Dependency<T>, x: T, ys: set<T>)
    requires !g.AnyOf? && x in ys
    ensures !SetsAgree(g, {x}, ys, {x})
  {
    assert ys * {x} == {x} && ({x} + ys) * {x} == {x};
  }

  /** One of several values, which is not among the others, is selected alone: one satisfied value, but only after. */
  lemma AloneDisagrees<T>(g: Dependency<T>, xs: set<T>, ys: set<T>, x: T)
    requires g.Choice() && !g.AtMostOneOf? && |xs| >= 2 && x in xs && x !in ys
    ensures !SetsAgree(g, xs, ys, {x})
  {
    assert ys * {x} == {} && (xs + ys) * {x} == {x};
    if xs <= {x} { SmallerSet(xs, {x}); }
  }

  /** At most one of: a selection of two that satisfies at most one member before, and two after. */
  lemma PairDisagrees<T>(g: Dependency<T>, xs: set<T>, ys: set<T>, x: T, z: T)
    requires g.AtMostOneOf? && x in xs && x !in ys && x != z && z in xs + ys
    requires xs <= {x, z} ==> z !in ys
    ensures !SetsAgree(g, xs, ys, {x, z})
  {
    assert (xs + ys) * {x, z} == {x, z};
    assert ys * {x, z} == if z in ys then {z} else {};
  }

  lemma TwoOf<T>(s: set<T>, x: T) returns (y: T)
    requires |s| >= 2 && x in s
    ensures y in s && y != x
  {
    assert |s - {x}| >= 1;
    y :| y in s - {x};
  }

  /** Where the condition fails, some selection tells the tree from its evaluation. */
  lemma HarmfulDisagrees<T>(g: Dependency<T>, xs: set<T>, ys: set<T>) returns (selected: set<T>)
    requires g.Choice() && xs != {} && !Harmless(g, xs, ys)
    ensures !SetsAgree(g, xs, ys, selected)
  {
    if |xs| == 1 {
      assert xs * ys != {};
      var x :| x in xs * ys;
      SizeOfOne(xs, x);
      OneAmongDisagrees(g, x, ys);
      selected := {x};
    } else {
      var x :| x in xs && x !in ys;
      if g.AtMostOneOf? {
        var z := SecondValue(xs, ys, x);
        PairDisagrees(g, xs, ys, x, z);
        selected := {x, z};
      } else {
        AloneDisagrees(g, xs, ys, x);
        selected := {x};
      }
    }
  }

  lemma SecondValue<T>(xs: set<T>, ys: set<T>, x: T) returns (z: T)
    requires |xs| >= 2 && x in xs && x !in ys
    requires !(|xs| == 2 && |ys| == 1 && ys <= xs)
    ensures x != z && z in xs + ys && (xs <= {x, z} ==> z !in ys)
  {
    z := TwoOf(xs, x);
    if xs <= {x, z} && z in ys {
      assert xs == {x, z};
      if ys == {z} {
        assert false;
      } else {
        assert ys == {z} + (ys - {z});
        var y :| y in ys - {z};
        z := y;
      }
    }
  }

  // ---------------------------------------------------------------- main results

  /**
   Evaluating a choice of a taken conditional with the values xs and of the values ys keeps its meaning for
   every selection exactly when `Harmless` holds of the two sets.
   */
  lemma SplicingExactly<T(!new)>(on: Test, g: Dependency<T>, u: UseDep, xs: seq<T>, ys: seq<T>, emptyMatches: bool)
    requires g.Choice() && on(u) && xs != [] && (g.AnyOf? || NoRepeat(ys))
    ensures (forall selected: set<T> :: MeaningKept(on, Spliced(g, u, xs, ys), World(selected, emptyMatches)))
            <==> Harmless(g, AsSet(xs), AsSet(ys))
  {
    assert xs[0] in AsSet(xs);
    if Harmless(g, AsSet(xs), AsSet(ys)) {
      forall selected: set<T> ensures MeaningKept(on, Spliced(g, u, xs, ys), World(selected, emptyMatches)) {
        KeptMeans(on, g, u, xs, ys, World(selected, emptyMatches));
        ListsMean(g, xs, ys, selected);
        HarmlessAgrees(g, AsSet(xs), AsSet(ys), selected);
      }
    } else {
      var selected := HarmfulDisagrees(g, AsSet(xs), AsSet(ys));
      KeptMeans(on, g, u, xs, ys, World(selected, emptyMatches));
      ListsMean(g, xs, ys, selected);
    }
  }

  // ---------------------------------------------------------------- a conditional that is not taken

  lemma UntakenMembers<T>(w: World<T>, on: Test, u: UseDep, xs: seq<T>, ys: seq<T>)
    requires !on(u)
    ensures var ds := [Conditional(u, On(xs))] + On(ys);
            && EvalAll(on, ds) == On(ys) && MemberCount(on, ds) == |ys| && SatCount(w, on, ds) == Count(ys, w.selected)
  {
    var c := Conditional(u, On(xs));
    assert ([c] + On(ys))[0] == c && ([c] + On(ys))[1..] == On(ys);
    OnEvaluates(on, ys);
    CountOn(w, on, ys);
  }

  lemma UntakenKept<T>(on: Test, g: Dependency<T>, u: UseDep, xs: seq<T>, ys: seq<T>, w: World<T>)
    requires g.Choice() && !on(u) && NoRepeat(ys)
    ensures MeaningKept(on, Spliced(g, u, xs, ys), w) <==> ys != [] || w.emptyMatches || g.AtMostOneOf?
  {
    var ds := [Conditional(u, On(xs))] + On(ys);
    UntakenMembers(w, on, u, xs, ys);
    ValuesEvaluate(on, g, ds, ys);
    if ys != [] {
      ChoiceMeans(w, on, g, ds);
      ValuesSat(w, on, g, ys);
      CountIsSize(ys, w.selected);
    }
  }

  /**
   With the conditional not taken, evaluation keeps the meaning exactly when values are left, or an empty
   choice counts as satisfied anyway.
   */
  lemma UntakenExactly<T(!new)>(on: Test, g: Dependency<T>, u: UseDep, xs: seq<T>, ys: seq<T>, emptyMatches: bool)
    requires g.Choice() && !on(u) && NoRepeat(ys)
    ensures (forall selected: set<T> :: MeaningKept(on, Spliced(g, u, xs, ys), World(selected, emptyMatches)))
            <==> ys != [] || emptyMatches || g.AtMostOneOf?
  {
    UntakenKept(on, g, u, xs, ys, World({}, emptyMatches));
    forall selected: set<T>
      ensures MeaningKept(on, Spliced(g, u, xs, ys), World(selected, emptyMatches)) <==> ys != [] || emptyMatches || g.AtMostOneOf?
    {
      UntakenKept(on, g, u, xs, ys, World(selected, emptyMatches));
    }
  }

  // ---------------------------------------------------------------- a group that evaluation empties

  /** `|| ( ( u? ( xs ) ) ys )`, and so for the kind of `g`. */
  ghost function Nested<T>(g: Dependency<T>, u: UseDep, xs: seq<T>, ys: seq<T>): Dependency<T>
    requires g.Choice()
  {
    Regroup(g, [AllOf([Conditional(u, On(xs))])] + On(ys))
  }

  lemma NestedGroup<T>(w: World<T>, on: Test, u: UseDep, xs: seq<T>)
    requires !on(u)
    ensures var d := AllOf([Conditional(u, On(xs))]); Sat(w, on, d) && Member(on, d) && Eval(on, d) == []
  {
    OneEval(on, Conditional(u, On(xs)));
    OneSat(w, on, Conditional(u, On(xs)));
  }

  lemma NestedMembers<T>(w: World<T>, on: Test, u: UseDep, xs: seq<T>, ys: seq<T>)
    requires !on(u)
    ensures var ds := [AllOf([Conditional(u, On(xs))])] + On(ys);
            && EvalAll(on, ds) == On(ys) && MemberCount(on, ds) == 1 + |ys| && SatCount(w, on, ds) == 1 + Count(ys, w.selected)
  {
    var d := AllOf([Conditional(u, On(xs))]);
    NestedGroup(w, on, u, xs);
    assert ([d] + On(ys))[0] == d && ([d] + On(ys))[1..] == On(ys);
    OnEvaluates(on, ys);
    CountOn(w, on, ys);
  }

  lemma NestedKept<T>(on: Test, g: Dependency<T>, u: UseDep, xs: seq<T>, ys: seq<T>, w: World<T>)
    requires g.Choice() && !on(u)
    ensures MeaningKept(on, Nested(g, u, xs, ys), w) <==>
            (Enough(g, 1 + Count(ys, w.selected)) <==> (ys == [] || Enough(g, |AsSet(ys) * w.selected|)))
  {
    var ds := [AllOf([Conditional(u, On(xs))])] + On(ys);
    NestedMembers(w, on, u, xs, ys);
    ValuesEvaluate(on, g, ds, ys);
    ChoiceMeans(w, on, g, ds);
    if ys != [] { ValuesSat(w, on, g, ys); }
  }

  /** With a member that evaluation empties, the meaning is kept exactly when there is nothing beside it. */
  lemma EmptiedGroupExactly<T(!new)>(on: Test, g: Dependency<T>, u: UseDep, xs: seq<T>, ys: seq<T>, emptyMatches: bool)
    requires g.Choice() && !on(u)
    ensures (forall selected: set<T> :: MeaningKept(on, Nested(g, u, xs, ys), World(selected, emptyMatches))) <==> ys == []
  {
    forall selected: set<T> | ys == [] ensures MeaningKept(on, Nested(g, u, xs, ys), World(selected, emptyMatches)) {
      NestedKept(on, g, u, xs, ys, World(selected, emptyMatches));
    }
    if ys != [] {
      var selected: set<T> := if g.AtMostOneOf? then {ys[0]} else {};
      NestedKept(on, g, u, xs, ys, World(selected, emptyMatches));
      assert ys[0] in AsSet(ys);
      assert AsSet(ys) * selected == selected;
      SomeCounted(ys, selected);
    }
  }

  // ---------------------------------------------------------------- members that fall together

  /** `^^ ( ( xs ) ( xs u? ( zs ) ) )`, and so for the kind of `g`. */
  ghost function TwinGroups<T>(g: Dependency<T>, u: UseDep, xs: seq<T>, zs: seq<T>): Dependency<T>
    requires g.Choice()
  {
    Regroup(g, [AllOf(On(xs)), AllOf(On(xs) + [Conditional(u, On(zs))])])
  }

  lemma TwinEvaluates<T>(on: Test, u: UseDep, xs: seq<T>, zs: seq<T>)
    requires !on(u) && xs != []
    ensures Eval(on, AllOf(On(xs))) == [AllOf(On(Firsts(xs)))] == Eval(on, AllOf(On(xs) + [Conditional(u, On(zs))]))
  {
    OnEvaluates(on, xs);
    DedupOn(xs);
    DedupDistinct(On(xs));
    EvalAppend(on, On(xs), [Conditional(u, On(zs))]);
    OneEval(on, Conditional(u, On(zs)));
    assert On(xs) + [] == On(xs);
  }

  lemma TwinSat<T>(w: World<T>, on: Test, u: UseDep, xs: seq<T>, zs: seq<T>)
    requires !on(u)
    ensures Sat(w, on, AllOf(On(xs))) <==> AsSet(xs) <= w.selected
    ensures Sat(w, on, AllOf(On(xs) + [Conditional(u, On(zs))])) <==> AsSet(xs) <= w.selected
    ensures Sat(w, on, AllOf(On(Firsts(xs)))) <==> AsSet(xs) <= w.selected
  {
    EachOn(w, on, xs);
    EachOn(w, on, Firsts(xs));
    FirstsLaws(xs);
    SatEachAppend(w, on, On(xs), [Conditional(u, On(zs))]);
    OneSat(w, on, Conditional(u, On(zs)));
  }

  lemma TwinResult<T>(on: Test, g: Dependency<T>, a: Dependency<T>, b: Dependency<T>, e: Dependency<T>)
    requires g.Choice() && Eval(on, a) == [e] == Eval(on, b)
    ensures Evaluate(on, Regroup(g, [a, b])) == [Regroup(g, [e])]
  {
    TwoEval(on, a, b);
    TwoDedup(e, e);
    assert [e] + [e] == [e, e];
    OneDedup(Regroup(g, [e]));
  }

  lemma TwinKept<T>(on: Test, g: Dependency<T>, u: UseDep, xs: seq<T>, zs: seq<T>, w: World<T>)
    requires g.Choice() && !on(u) && xs != []
    ensures MeaningKept(on, TwinGroups(g, u, xs, zs), w) <==>
            (Enough(g, 2 * Whole(AsSet(xs), w.selected)) <==> Enough(g, Whole(AsSet(xs), w.selected)))
  {
    var a, b, e := AllOf(On(xs)), AllOf(On(xs) + [Conditional(u, On(zs))]), AllOf(On(Firsts(xs)));
    TwinEvaluates(on, u, xs, zs);
    TwinSat(w, on, u, xs, zs);
    TwinResult(on, g, a, b, e);
    TwoSat(w, on, a, b);
    OneSat(w, on, e);
    OneSat(w, on, Regroup(g, [e]));
    ChoiceMeans(w, on, g, [a, b]);
    ChoiceMeans(w, on, g, [e]);
  }

  /** Two members that evaluate to the same one: kept exactly for any-of. */
  lemma TwinsExactly<T(!new)>(on: Test, g: Dependency<T>, u: UseDep, xs: seq<T>, zs: seq<T>, emptyMatches: bool)
    requires g.Choice() && !on(u) && xs != []
    ensures (forall selected: set<T> :: MeaningKept(on, TwinGroups(g, u, xs, zs), World(selected, emptyMatches))) <==> g.AnyOf?
  {
    TwinKept(on, g, u, xs, zs, World(AsSet(xs), emptyMatches));
    forall selected: set<T> | g.AnyOf? ensures MeaningKept(on, TwinGroups(g, u, xs, zs), World(selected, emptyMatches)) {
      TwinKept(on, g, u, xs, zs, World(selected, emptyMatches));
    }
  }
}
