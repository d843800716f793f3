/**
 Evaluation of dependency trees (`crates/pkgcraft/src/dep/dependency_iter.rs`): resolving conditionals
 against a set of enabled options, or forcing all of them on or off.
 */
module DependencyEval {
  import opened Wrappers
  import opened DependencyTree

  /** Which conditionals are taken. */
  type Test = UseDep -> bool

  /** `evaluate(options)` */
  function Options(options: set<string>): Test {
    u => Matches(u, options)
  }

  /** `evaluate_force(force)` */
  function Force(force: bool): Test {
    _ => force
  }

  /** A group of the same kind as `d`. */
  function Regroup<T>(d: Dependency<T>, vals: seq<Dependency<T>>): Dependency<T>
    requires d.AllOf? || d.Choice()
  {
    match d
    case AllOf(_) => AllOf(vals)
    case AnyOf(_) => AnyOf(vals)
    case ExactlyOneOf(_) => ExactlyOneOf(vals)
    case AtMostOneOf(_) => AtMostOneOf(vals)
  }

  /** What evaluating a tree yields: taken conditionals are spliced into their place, empty groups go. */
  function Eval<T(==)>(on: Test, d: Dependency<T>): seq<Dependency<T>>
    decreases d, 1
  {
    if d.Leaf() then [d]
    else if d.Conditional? then (if on(d.guard) then EvalAll(on, d.vals) else [])
    else
      var vals := Dedup(EvalAll(on, d.vals));
      if vals == [] then [] else [Regroup(d, vals)]
  }

  function EvalAll<T(==)>(on: Test, ds: seq<Dependency<T>>): seq<Dependency<T>>
    decreases ds, 0
  {
    if ds == [] then [] else Eval(on, ds[0]) + EvalAll(on, ds[1..])
  }

  /** `evaluate` collects into a set. */
  function Evaluate<T(==)>(on: Test, d: Dependency<T>): seq<Dependency<T>> {
    Dedup(Eval(on, d))
  }

  lemma {:induction false} EvalAppend<T>(on: Test, a: seq<Dependency<T>>, b: seq<Dependency<T>>)
    ensures EvalAll(on, a + b) == EvalAll(on, a) + EvalAll(on, b)
  {
    if a == [] {
      assert a + b == b;
    } else {
      assert (a + b)[1..] == a[1..] + b;
      EvalAppend(on, a[1..], b);
    }
  }

  // ---------------------------------------------------------------- the iterator

  /** `IterEvaluate` with the test of an option set, `IterEvaluateForce` with a constant one. */
  class IterEvaluate<T(==)> {
    var q: seq<Dependency<T>>
    const on: Test

    constructor (q: seq<Dependency<T>>, on: Test)
      ensures this.q == q && this.on == on
    {
      this.q, this.on := q, on;
    }

    method Next() returns (r: Option<Dependency<T>>)
      modifies this
      ensures EvalAll(on, old(q)) == (if r.None? then [] else [r.value]) + EvalAll(on, q)
      ensures r.None? ==> q == []
      ensures r.Some? ==> SizeAll(q) < SizeAll(old(q))
      decreases SizeAll(q), 0
    {
      while q != []
        invariant EvalAll(on, q) == EvalAll(on, old(q))
        invariant SizeAll(q) <= SizeAll(old(q))
        decreases SizeAll(q)
      {
        var dep := q[0];
        assert SizeAll(q) == Size(dep) + SizeAll(q[1..]);
        q := q[1..];
        match dep {
          case Enabled(val) => return Some(dep);
          case Disabled(val) => return Some(dep);
          case AllOf(vals) =>
            var evaluated := Collected(vals, on);
            if evaluated != [] { return Some(AllOf(evaluated)); }
          case AnyOf(vals) =>
            var evaluated := Collected(vals, on);
            if evaluated != [] { return Some(AnyOf(evaluated)); }
          case ExactlyOneOf(vals) =>
            var evaluated := Collected(vals, on);
            if evaluated != [] { return Some(ExactlyOneOf(evaluated)); }
          case AtMostOneOf(vals) =>
            var evaluated := Collected(vals, on);
            if evaluated != [] { return Some(AtMostOneOf(evaluated)); }
          case Conditional(u, vals) =>
            if on(u) {
              EvalAppend(on, vals, q);
              SizeAppend(vals, q);
              q := vals + q;
            }
        }
      }
      r := None;
    }
  }

  /** The `eval!` macro: every member's own evaluation, collected into the group's set. */
  method Collected<T(==)>(vals: seq<Dependency<T>>, on: Test) returns (out: seq<Dependency<T>>)
    ensures out == Dedup(EvalAll(on, vals))
    decreases SizeAll(vals), 1
  {
    var all := [];
    for i := 0 to |vals|
      invariant all == EvalAll(on, vals[..i])
    {
      var iter := new IterEvaluate([vals[i]], on);
      ghost var before := all;
      SizeMember(vals, i);
      assert SizeAll([vals[i]]) == Size(vals[i]) by { assert [vals[i]][1..] == []; }
      while true
        invariant iter.on == on && fresh(iter)
        invariant SizeAll(iter.q) <= Size(vals[i])
        invariant all + EvalAll(on, iter.q) == before + EvalAll(on, [vals[i]])
        decreases SizeAll(iter.q)
      {
        var r := iter.Next();
        if r.None? { break; }
        all := all + [r.value];
      }
      assert vals[..i + 1] == vals[..i] + [vals[i]];
      EvalAppend(on, vals[..i], [vals[i]]);
    }
    assert vals[..|vals|] == vals;
    out := Dedup(all);
  }

  /** `evaluate`: the iterator over one tree, collected into a set. */
  method EvaluateTree<T(==)>(d: Dependency<T>, on: Test) returns (out: seq<Dependency<T>>)
    ensures out == Evaluate(on, d)
  {
    out := Collected([d], on);
    assert [d][1..] == [] && EvalAll(on, [d]) == Eval(on, d);
  }

  // ---------------------------------------------------------------- leaves of equal dependencies

  ghost function KeyLeaves<T>(k: Key<T>): set<T>
    decreases k
  {
    match k
    case LeafKey(_, v) => {v}
    case SetKey(_, ks) => set j, v | j in ks && v in KeyLeaves(j) :: v
    case ListKey(_, ks) => set j, v | j in ks && v in KeyLeaves(j) :: v
  }

  lemma {:induction false} LeavesOfKey<T>(d: Dependency<T>, v: T)
    ensures v in Leaves(d) <==> v in KeyLeaves(KeyOf(d))
    decreases d, 1
  {
    if !d.Leaf() { LeavesOfKeys(d.vals, v); }
  }

  lemma {:induction false} LeavesOfKeys<T>(ds: seq<Dependency<T>>, v: T)
    ensures v in LeavesAll(ds) <==> exists k :: k in Keys(ds) && v in KeyLeaves(k)
    decreases ds, 0
  {
    if ds != [] {
      LeavesOfKey(ds[0], v);
      LeavesOfKeys(ds[1..], v);
      assert forall k :: k in Keys(ds) <==> k == KeyOf(ds[0]) || k in Keys(ds[1..]);
    }
  }

  lemma {:induction false} LeafOfMember<T>(ds: seq<Dependency<T>>, v: T)
    ensures v in LeavesAll(ds) <==> exists d :: d in ds && v in Leaves(d)
  {
    if ds != [] {
      LeafOfMember(ds[1..], v);
      assert ds[0] in ds;
      assert forall d :: d in ds <==> d == ds[0] || d in ds[1..];
      if v in LeavesAll(ds[1..]) {
        var d :| d in ds[1..] && v in Leaves(d);
        assert d in ds;
      }
    }
  }

  /** Dropping duplicates loses no leaf value. */
  lemma DedupLeaves<T>(ds: seq<Dependency<T>>, v: T)
    ensures v in LeavesAll(Dedup(ds)) <==> v in LeavesAll(ds)
  {
    DedupDistinct(ds);
    LeafOfMember(ds, v);
    LeafOfMember(Dedup(ds), v);
    if d :| d in ds && v in Leaves(d) {
      DedupCovers(ds, d);
      var e :| e in Dedup(ds) && Same(e, d);
      LeavesOfKey(d, v);
      LeavesOfKey(e, v);
    }
  }

  // ---------------------------------------------------------------- evaluation and guard paths

  ghost predicate AllOn(on: Test, us: seq<UseDep>) {
    forall u :: u in us ==> on(u)
  }

  /** `v` is listed with all guards on its path taken. */
  ghost predicate Reached<T>(on: Test, listed: seq<(seq<UseDep>, T)>, v: T) {
    exists i :: 0 <= i < |listed| && AllOn(on, listed[i].0) && listed[i].1 == v
  }

  lemma ReachedAppend<T>(on: Test, a: seq<(seq<UseDep>, T)>, b: seq<(seq<UseDep>, T)>, v: T)
    ensures Reached(on, a + b, v) <==> Reached(on, a, v) || Reached(on, b, v)
  {
    if Reached(on, a, v) {
      var i :| 0 <= i < |a| && AllOn(on, a[i].0) && a[i].1 == v;
      assert (a + b)[i] == a[i];
    }
    if Reached(on, b, v) {
      var i :| 0 <= i < |b| && AllOn(on, b[i].0) && b[i].1 == v;
      assert (a + b)[|a| + i] == b[i];
    }
  }

  lemma {:induction false} EvalReaches<T>(on: Test, us: seq<UseDep>, d: Dependency<T>, v: T)
    ensures Reached(on, Guarded(us, d), v) <==> AllOn(on, us) && v in LeavesAll(Eval(on, d))
    decreases d, 1
  {
    if d.Leaf() {
      assert LeavesAll([d]) == Leaves(d) + LeavesAll([d][1..]);
      assert Guarded(us, d)[0] == (us, d.val);
    } else {
      var us' := if d.Conditional? then us + [d.guard] else us;
      EvalAllReaches(on, us', d.vals, v);
      if d.Conditional? {
        assert AllOn(on, us') <==> AllOn(on, us) && on(d.guard) by {
          assert forall u :: u in us' <==> u in us || u == d.guard;
        }
      } else {
        DedupLeaves(EvalAll(on, d.vals), v);
        GroupLeaves(d, Dedup(EvalAll(on, d.vals)));
      }
    }
  }

  lemma GroupLeaves<T>(d: Dependency<T>, vals: seq<Dependency<T>>)
    requires d.AllOf? || d.Choice()
    ensures LeavesAll([Regroup(d, vals)]) == LeavesAll(vals)
  {
    assert [Regroup(d, vals)][1..] == [];
    assert LeavesAll([Regroup(d, vals)]) == Leaves(Regroup(d, vals)) + LeavesAll([Regroup(d, vals)][1..]);
  }

  lemma {:induction false} EvalAllReaches<T>(on: Test, us: seq<UseDep>, ds: seq<Dependency<T>>, v: T)
    ensures Reached(on, GuardedAll(us, ds), v) <==> AllOn(on, us) && v in LeavesAll(EvalAll(on, ds))
    decreases ds, 0
  {
    if ds != [] {
      EvalReaches(on, us, ds[0], v);
      EvalAllReaches(on, us, ds[1..], v);
      ReachedAppend(on, Guarded(us, ds[0]), GuardedAll(us, ds[1..]), v);
      LeavesAppend(Eval(on, ds[0]), EvalAll(on, ds[1..]));
    }
  }

  /**
   The leaves of `evaluate` are exactly the leaves `iter_conditional_flatten` lists with every guard
   on their path taken.
   */
  lemma EvaluationFollowsGuards<T>(on: Test, d: Dependency<T>, v: T)
    ensures v in LeavesAll(Evaluate(on, d)) <==> Reached(on, Guarded([], d), v)
  {
    EvalReaches(on, [], d, v);
    DedupLeaves(Eval(on, d), v);
  }

  /** Taking more conditionals only adds leaves. */
  lemma EvaluationIsMonotone<T>(a: Test, b: Test, d: Dependency<T>, v: T)
    requires forall u :: a(u) ==> b(u)
    requires v in LeavesAll(Evaluate(a, d))
    ensures v in LeavesAll(Evaluate(b, d))
  {
    EvaluationFollowsGuards(a, d, v);
    EvaluationFollowsGuards(b, d, v);
    var i :| 0 <= i < |Guarded([], d)| && AllOn(a, Guarded([], d)[i].0) && Guarded([], d)[i].1 == v;
    assert AllOn(b, Guarded([], d)[i].0);
  }

  /** For every option set: forced off, evaluated, forced on. */
  lemma ForceBounds<T>(options: set<string>, d: Dependency<T>, v: T)
    ensures v in LeavesAll(Evaluate(Force(false), d)) ==> v in LeavesAll(Evaluate(Options(options), d))
    ensures v in LeavesAll(Evaluate(Options(options), d)) ==> v in LeavesAll(Evaluate(Force(true), d))
  {
    if v in LeavesAll(Evaluate(Force(false), d)) { EvaluationIsMonotone(Force(false), Options(options), d, v); }
    if v in LeavesAll(Evaluate(Options(options), d)) { EvaluationIsMonotone(Options(options), Force(true), d, v); }
  }

  // ---------------------------------------------------------------- normal form

  /** No conditional, no empty group, no duplicate members, all the way down. */
  ghost predicate Normal<T>(d: Dependency<T>)
    decreases d, 1
  {
    d.Leaf() || (!d.Conditional? && d.vals != [] && Distinct(d.vals) && NormalAll(d.vals))
  }

  ghost predicate NormalAll<T>(ds: seq<Dependency<T>>)
    decreases ds, 0
  {
    forall i :: 0 <= i < |ds| ==> Normal(ds[i])
  }

  lemma {:induction false} EvalIsNormal<T>(on: Test, d: Dependency<T>)
    ensures NormalAll(Eval(on, d))
    decreases d, 1
  {
    if !d.Leaf() {
      EvalAllIsNormal(on, d.vals);
      if !d.Conditional? { DedupIsNormal(EvalAll(on, d.vals)); }
    }
  }

  lemma {:induction false} EvalAllIsNormal<T>(on: Test, ds: seq<Dependency<T>>)
    ensures NormalAll(EvalAll(on, ds))
    decreases ds, 0
  {
    if ds != [] {
      EvalIsNormal(on, ds[0]);
      EvalAllIsNormal(on, ds[1..]);
    }
  }

  lemma DedupIsNormal<T>(ds: seq<Dependency<T>>)
    requires NormalAll(ds)
    ensures NormalAll(Dedup(ds)) && Distinct(Dedup(ds))
  {
    DedupDistinct(ds);
    forall i | 0 <= i < |Dedup(ds)| ensures Normal(Dedup(ds)[i]) {
      assert Dedup(ds)[i] in ds;
    }
  }

  lemma {:induction false} NormalIsFixed<T>(on: Test, d: Dependency<T>)
    requires Normal(d)
    ensures Eval(on, d) == [d]
    decreases d, 1
  {
    if !d.Leaf() {
      NormalAllFixed(on, d.vals);
      DedupKeeps(d.vals);
    }
  }

  lemma {:induction false} NormalAllFixed<T>(on: Test, ds: seq<Dependency<T>>)
    requires NormalAll(ds)
    ensures EvalAll(on, ds) == ds
    decreases ds, 0
  {
    if ds != [] {
      NormalIsFixed(on, ds[0]);
      NormalAllFixed(on, ds[1..]);
    }
  }

  /** `evaluate` returns a set in normal form. */
  lemma EvaluateIsNormal<T>(on: Test, d: Dependency<T>)
    ensures NormalAll(Evaluate(on, d)) && Distinct(Evaluate(on, d))
  {
    EvalIsNormal(on, d);
    DedupIsNormal(Eval(on, d));
  }

  /** Evaluating what has been evaluated changes nothing, whatever the options. */
  lemma EvaluateIsIdempotent<T>(on: Test, again: Test, d: Dependency<T>)
    ensures Dedup(EvalAll(again, Evaluate(on, d))) == Evaluate(on, d)
  {
    EvaluateIsNormal(on, d);
    NormalAllFixed(again, Evaluate(on, d));
    DedupKeeps(Evaluate(on, d));
  }
}
