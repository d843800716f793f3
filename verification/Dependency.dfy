/**
 Dependency trees (`crates/pkgcraft/src/dep/dependency.rs`): the tree, the equality its sets use, and
 the structural recursions the iterators are proved against.
 */
module DependencyTree {
  import opened Wrappers

  /** The guard of a conditional group: a USE dependency of the conditional kind. */
  datatype UseDep = UseDep(flag: string, enabled: bool, default: Option<bool>)

  datatype Dependency<T> =
    | Enabled(val: T)
    | Disabled(val: T)
    | AllOf(vals: seq<Dependency<T>>)
    | AnyOf(vals: seq<Dependency<T>>)
    | ExactlyOneOf(vals: seq<Dependency<T>>)
    | AtMostOneOf(vals: seq<Dependency<T>>)
    | Conditional(guard: UseDep, vals: seq<Dependency<T>>)
  {
    predicate Leaf() {
      Enabled? || Disabled?
    }

    predicate Choice() {
      AnyOf? || ExactlyOneOf? || AtMostOneOf?
    }

    /** The members of a group; none for a leaf. */
    function Members(): seq<Dependency<T>> {
      if Leaf() then [] else vals
    }
  }

  /** `UseDep::matches` on a conditional: the flag is on exactly when the guard asks for it. */
  predicate Matches(u: UseDep, options: set<string>) {
    u.enabled == (u.flag in options)
  }

  // ---------------------------------------------------------------- sizes

  function Size<T>(d: Dependency<T>): (n: nat)
    ensures n >= 1
    decreases d, 1
  {
    if d.Leaf() then 1 else 1 + SizeAll(d.vals)
  }

  function SizeAll<T>(ds: seq<Dependency<T>>): nat
    decreases ds, 0
  {
    if ds == [] then 0 else Size(ds[0]) + SizeAll(ds[1..])
  }

  lemma {:induction false} SizeAppend<T>(a: seq<Dependency<T>>, b: seq<Dependency<T>>)
    ensures SizeAll(a + b) == SizeAll(a) + SizeAll(b)
  {
    if a == [] {
      assert a + b == b;
    } else {
      assert (a + b)[1..] == a[1..] + b;
      SizeAppend(a[1..], b);
    }
  }

  lemma {:induction false} SizeMember<T>(ds: seq<Dependency<T>>, i: nat)
    requires i < |ds|
    ensures Size(ds[i]) <= SizeAll(ds)
  {
    if i > 0 { SizeMember(ds[1..], i - 1); }
  }

  // ---------------------------------------------------------------- leaves

  /** The values in the leaves, left to right. */
  function Leaves<T>(d: Dependency<T>): seq<T>
    decreases d, 1
  {
    if d.Leaf() then [d.val] else LeavesAll(d.vals)
  }

  function LeavesAll<T>(ds: seq<Dependency<T>>): seq<T>
    decreases ds, 0
  {
    if ds == [] then [] else Leaves(ds[0]) + LeavesAll(ds[1..])
  }

  lemma {:induction false} LeavesAppend<T>(a: seq<Dependency<T>>, b: seq<Dependency<T>>)
    ensures LeavesAll(a + b) == LeavesAll(a) + LeavesAll(b)
  {
    if a == [] {
      assert a + b == b;
    } else {
      assert (a + b)[1..] == a[1..] + b;
      LeavesAppend(a[1..], b);
    }
  }

  // ---------------------------------------------------------------- leaves with the guards on their path

  function Guarded<T>(us: seq<UseDep>, d: Dependency<T>): seq<(seq<UseDep>, T)>
    decreases d, 1
  {
    if d.Leaf() then [(us, d.val)] else GuardedAll(if d.Conditional? then us + [d.guard] else us, d.vals)
  }

  function GuardedAll<T>(us: seq<UseDep>, ds: seq<Dependency<T>>): seq<(seq<UseDep>, T)>
    decreases ds, 0
  {
    if ds == [] then [] else Guarded(us, ds[0]) + GuardedAll(us, ds[1..])
  }

  /** The same for a worklist of trees, each with the guards already passed. */
  function GuardedWork<T>(q: seq<(seq<UseDep>, Dependency<T>)>): seq<(seq<UseDep>, T)> {
    if q == [] then [] else Guarded(q[0].0, q[0].1) + GuardedWork(q[1..])
  }

  function Tagged<T>(us: seq<UseDep>, ds: seq<Dependency<T>>): (q: seq<(seq<UseDep>, Dependency<T>)>)
    ensures |q| == |ds| && forall i :: 0 <= i < |ds| ==> q[i] == (us, ds[i])
  {
    seq(|ds|, i requires 0 <= i < |ds| => (us, ds[i]))
  }

  lemma {:induction false} GuardedAppend<T>(a: seq<(seq<UseDep>, Dependency<T>)>, b: seq<(seq<UseDep>, Dependency<T>)>)
    ensures GuardedWork(a + b) == GuardedWork(a) + GuardedWork(b)
  {
    if a == [] {
      assert a + b == b;
    } else {
      assert (a + b)[1..] == a[1..] + b;
      GuardedAppend(a[1..], b);
    }
  }

  lemma {:induction false} GuardedTagged<T>(us: seq<UseDep>, ds: seq<Dependency<T>>)
    ensures GuardedWork(Tagged(us, ds)) == GuardedAll(us, ds)
  {
    if ds != [] {
      assert Tagged(us, ds)[1..] == Tagged(us, ds[1..]);
      GuardedTagged(us, ds[1..]);
    }
  }

  // ---------------------------------------------------------------- all nodes, all guards

  /** Every node, parents before children, left to right. */
  function Preorder<T>(d: Dependency<T>): seq<Dependency<T>>
    decreases d, 1
  {
    if d.Leaf() then [d] else [d] + PreorderAll(d.vals)
  }

  function PreorderAll<T>(ds: seq<Dependency<T>>): seq<Dependency<T>>
    decreases ds, 0
  {
    if ds == [] then [] else Preorder(ds[0]) + PreorderAll(ds[1..])
  }

  lemma {:induction false} PreorderAppend<T>(a: seq<Dependency<T>>, b: seq<Dependency<T>>)
    ensures PreorderAll(a + b) == PreorderAll(a) + PreorderAll(b)
  {
    if a == [] {
      assert a + b == b;
    } else {
      assert (a + b)[1..] == a[1..] + b;
      PreorderAppend(a[1..], b);
    }
  }

  /** The guards of the conditionals among some nodes, in order. */
  function GuardsIn<T>(nodes: seq<Dependency<T>>): seq<UseDep> {
    if nodes == [] then [] else OwnGuard(nodes[0]) + GuardsIn(nodes[1..])
  }

  function OwnGuard<T>(d: Dependency<T>): seq<UseDep> {
    if d.Conditional? then [d.guard] else []
  }

  // ---------------------------------------------------------------- set equality

  datatype Tag = All | Any | ExactlyOne | AtMostOne | When(guard: UseDep)

  function TagOf<T>(d: Dependency<T>): Tag
    requires !d.Leaf()
  {
    match d
    case AllOf(_) => All
    case AnyOf(_) => Any
    case ExactlyOneOf(_) => ExactlyOne
    case AtMostOneOf(_) => AtMostOne
    case Conditional(u, _) => When(u)
  }

  /**
   What the source's sets compare.  All-of and conditional groups hold sorted sets, which are equal
   when they have the same members in any order; choice groups hold ordered sets.
   */
  datatype Key<T(==)> = LeafKey(on: bool, val: T) | SetKey(tag: Tag, members: set<Key<T>>) | ListKey(tag: Tag, list: seq<Key<T>>)

  function KeyOf<T(==)>(d: Dependency<T>): Key<T>
    decreases d, 1
  {
    if d.Leaf() then LeafKey(d.Enabled?, d.val)
    else if d.Choice() then ListKey(TagOf(d), Keys(d.vals))
    else SetKey(TagOf(d), set k | k in Keys(d.vals))
  }

  function Keys<T(==)>(ds: seq<Dependency<T>>): (ks: seq<Key<T>>)
    ensures |ks| == |ds|
    ensures forall i :: 0 <= i < |ds| ==> ks[i] == KeyOf(ds[i])
    decreases ds, 0
  {
    if ds == [] then [] else [KeyOf(ds[0])] + Keys(ds[1..])
  }

  predicate Same<T(==)>(a: Dependency<T>, b: Dependency<T>) {
    KeyOf(a) == KeyOf(b)
  }

  /** Collecting into a set: duplicates are dropped, the first occurrence stays. */
  function Dedup<T(==)>(ds: seq<Dependency<T>>): (r: seq<Dependency<T>>)
    ensures |r| <= |ds|
  {
    if ds == [] then [] else
      var n := |ds| - 1;
      var kept := Dedup(ds[..n]);
      if KeyOf(ds[n]) in Keys(kept) then kept else kept + [ds[n]]
  }

  predicate Distinct<T(==)>(ds: seq<Dependency<T>>) {
    forall i, j | 0 <= i < j < |ds| :: KeyOf(ds[i]) != KeyOf(ds[j])
  }

  lemma {:induction false} DedupDistinct<T>(ds: seq<Dependency<T>>)
    ensures Distinct(Dedup(ds))
    ensures forall d :: d in Dedup(ds) ==> d in ds
    ensures ds != [] ==> Dedup(ds) != []
  {
    if ds != [] {
      var n := |ds| - 1;
      DedupDistinct(ds[..n]);
      var kept := Dedup(ds[..n]);
      assert forall i :: 0 <= i < |kept| ==> Keys(kept)[i] == KeyOf(kept[i]);
    }
  }

  lemma {:induction false} DedupKeeps<T>(ds: seq<Dependency<T>>)
    requires Distinct(ds)
    ensures Dedup(ds) == ds
  {
    if ds != [] {
      var n := |ds| - 1;
      var init := ds[..n];
      DedupKeeps(init);
      forall i | 0 <= i < n ensures Keys(init)[i] != KeyOf(ds[n]) {
        assert Keys(init)[i] == KeyOf(init[i]) && init[i] == ds[i];
      }
      assert KeyOf(ds[n]) !in Keys(init);
    }
  }

  /** Every dropped dependency has an equal that stays. */
  lemma {:induction false} DedupCovers<T>(ds: seq<Dependency<T>>, d: Dependency<T>)
    requires d in ds
    ensures exists e :: e in Dedup(ds) && Same(e, d)
  {
    var n := |ds| - 1;
    var kept := Dedup(ds[..n]);
    if d in ds[..n] {
      DedupCovers(ds[..n], d);
      var e :| e in kept && Same(e, d);
      assert e in Dedup(ds);
    } else {
      assert d == ds[n];
      if KeyOf(d) in Keys(kept) {
        var i :| 0 <= i < |kept| && Keys(kept)[i] == KeyOf(d);
        assert kept[i] in Dedup(ds);
      } else {
        assert d in Dedup(ds);
      }
    }
  }

  /** No equal dependency stands in front of it. */
  ghost predicate IsFirst<T>(ds: seq<Dependency<T>>, i: nat) {
    i < |ds| && forall h :: 0 <= h < i ==> !Same(ds[h], ds[i])
  }

  /** Of equal dependencies the first stays, and what stays keeps its order. */
  lemma {:induction false} DedupKeepsFirsts<T>(ds: seq<Dependency<T>>) returns (at: seq<nat>)
    ensures |at| == |Dedup(ds)| && forall i, j :: 0 <= i < j < |at| ==> at[i] < at[j]
    ensures forall i :: 0 <= i < |at| ==> at[i] < |ds| && Dedup(ds)[i] == ds[at[i]]
    ensures forall i: nat :: i in at <==> IsFirst(ds, i)
  {
    at := [];
    if ds != [] {
      var n := |ds| - 1;
      at := DedupKeepsFirsts(ds[..n]);
      var before := at;
      LastIsFirst(ds);
      if IsFirst(ds, n) { at := at + [n]; }
      forall i: nat ensures i in at <==> IsFirst(ds, i) {
        if i < n { FirstInInit(ds, i); }
        assert i in at <==> i in before || (i == n && IsFirst(ds, n));
      }
    }
  }

  lemma FirstInInit<T>(ds: seq<Dependency<T>>, i: nat)
    requires i < |ds| - 1
    ensures IsFirst(ds[..|ds| - 1], i) <==> IsFirst(ds, i)
  {
    var init := ds[..|ds| - 1];
    assert forall h :: 0 <= h <= i ==> init[h] == ds[h];
  }

  lemma LastIsFirst<T>(ds: seq<Dependency<T>>)
    requires ds != []
    ensures var n := |ds| - 1; IsFirst(ds, n) <==> KeyOf(ds[n]) !in Keys(Dedup(ds[..n]))
  {
    var n := |ds| - 1;
    var init := ds[..n];
    var kept := Dedup(init);
    if KeyOf(ds[n]) in Keys(kept) {
      var i :| 0 <= i < |kept| && Keys(kept)[i] == KeyOf(ds[n]);
      DedupDistinct(init);
      assert kept[i] in init;
      var h :| 0 <= h < |init| && init[h] == kept[i];
      assert Same(ds[h], ds[n]);
    }
    if h :| 0 <= h < n && Same(ds[h], ds[n]) {
      assert init[h] == ds[h];
      DedupCovers(init, init[h]);
      var e :| e in kept && Same(e, ds[h]);
      var i :| 0 <= i < |kept| && kept[i] == e;
      assert Keys(kept)[i] == KeyOf(ds[n]);
    }
  }
}
