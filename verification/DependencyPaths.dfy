/**
 Where leaves and nodes stand in a dependency tree, by their paths, and what that says of the lists the
 iterators of `crates/pkgcraft/src/dep/dependency_iter.rs` return and of evaluation under options.
 */
module DependencyPaths {
  import opened Wrappers
  import opened Paths
  import opened DependencyTree
  import opened DependencyEval
  import opened DependencyIter

  // ---------------------------------------------------------------- paths

  /** A path goes from a tree to a leaf with a value, through conditionals with these guards, outermost first. */
  ghost predicate LeafAt<T>(d: Dependency<T>, path: seq<nat>, us: seq<UseDep>, v: T)
    decreases |path|
  {
    if path == [] then d.Leaf() && d.val == v && us == []
    else if d.Leaf() || path[0] >= |d.vals| then false
    else if d.Conditional? then us != [] && us[0] == d.guard && LeafAt(d.vals[path[0]], path[1..], us[1..], v)
    else LeafAt(d.vals[path[0]], path[1..], us, v)
  }

  ghost predicate NodeAt<T>(d: Dependency<T>, path: seq<nat>, n: Dependency<T>)
    decreases |path|
  {
    if path == [] then d == n else !d.Leaf() && path[0] < |d.vals| && NodeAt(d.vals[path[0]], path[1..], n)
  }

  // ---------------------------------------------------------------- the paths of all leaves

  ghost function LeafPaths<T>(d: Dependency<T>): seq<seq<nat>>
    decreases d, 1
  {
    if d.Leaf() then [[]] else LeafPathsFrom(0, d.vals)
  }

  ghost function LeafPathsFrom<T>(k: nat, ds: seq<Dependency<T>>): seq<seq<nat>>
    decreases ds, 0
  {
    if ds == [] then [] else Under(k, LeafPaths(ds[0])) + LeafPathsFrom(k + 1, ds[1..])
  }

  lemma {:induction false} LeafPathsAscend<T>(d: Dependency<T>)
    ensures Ascending(LeafPaths(d))
    decreases d, 1
  {
    if !d.Leaf() { LeafPathsFromAscend(0, d.vals); }
  }

  lemma {:induction false} LeafPathsFromAscend<T>(k: nat, ds: seq<Dependency<T>>)
    ensures Ascending(LeafPathsFrom(k, ds)) && From(k, LeafPathsFrom(k, ds))
    decreases ds, 0
  {
    if ds != [] {
      LeafPathsAscend(ds[0]);
      LeafPathsFromAscend(k + 1, ds[1..]);
      UnderThenMore(k, LeafPaths(ds[0]), LeafPathsFrom(k + 1, ds[1..]));
    }
  }

  /** What is listed for a path, after the guards passed before. */
  ghost predicate Leads<T>(us: seq<UseDep>, d: Dependency<T>, path: seq<nat>, listed: (seq<UseDep>, T)) {
    us <= listed.0 && LeafAt(d, path, listed.0[|us|..], listed.1)
  }

  lemma {:induction false} GuardedLeads<T>(us: seq<UseDep>, d: Dependency<T>)
    ensures |LeafPaths(d)| == |Guarded(us, d)|
    ensures forall i :: 0 <= i < |LeafPaths(d)| ==> Leads(us, d, LeafPaths(d)[i], Guarded(us, d)[i])
    decreases d, 1
  {
    if d.Leaf() {
      assert us[|us|..] == [];
    } else {
      var us' := if d.Conditional? then us + [d.guard] else us;
      GuardedAllLeads(us', 0, d.vals);
      forall i | 0 <= i < |LeafPaths(d)| ensures Leads(us, d, LeafPaths(d)[i], Guarded(us, d)[i]) {
        assert LeadsFrom(us', 0, d.vals, LeafPaths(d)[i], Guarded(us, d)[i]);
        ThroughGroup(us, d, LeafPaths(d)[i], Guarded(us, d)[i]);
      }
    }
  }

  ghost predicate LeadsFrom<T>(us: seq<UseDep>, k: nat, ds: seq<Dependency<T>>, path: seq<nat>, listed: (seq<UseDep>, T)) {
    path != [] && k <= path[0] < k + |ds| && Leads(us, ds[path[0] - k], path[1..], listed)
  }

  lemma ThroughGroup<T>(us: seq<UseDep>, d: Dependency<T>, path: seq<nat>, listed: (seq<UseDep>, T))
    requires !d.Leaf() && LeadsFrom(if d.Conditional? then us + [d.guard] else us, 0, d.vals, path, listed)
    ensures Leads(us, d, path, listed)
  {
    if d.Conditional? {
      assert listed.0[|us|] == (us + [d.guard])[|us|];
      assert listed.0[|us|..][1..] == listed.0[|us + [d.guard]|..];
      assert us <= us + [d.guard];
    }
  }

  lemma {:induction false} GuardedAllLeads<T>(us: seq<UseDep>, k: nat, ds: seq<Dependency<T>>)
    ensures |LeafPathsFrom(k, ds)| == |GuardedAll(us, ds)|
    ensures forall i :: 0 <= i < |LeafPathsFrom(k, ds)| ==> LeadsFrom(us, k, ds, LeafPathsFrom(k, ds)[i], GuardedAll(us, ds)[i])
    decreases ds, 0
  {
    if ds != [] {
      GuardedLeads(us, ds[0]);
      GuardedAllLeads(us, k + 1, ds[1..]);
      var n, paths, listed := |LeafPaths(ds[0])|, LeafPathsFrom(k, ds), GuardedAll(us, ds);
      forall i | 0 <= i < |paths| ensures LeadsFrom(us, k, ds, paths[i], listed[i]) {
        if i < n {
          assert paths[i] == Under(k, LeafPaths(ds[0]))[i] && listed[i] == Guarded(us, ds[0])[i];
          assert Leads(us, ds[0], LeafPaths(ds[0])[i], Guarded(us, ds[0])[i]);
        } else {
          assert paths[i] == LeafPathsFrom(k + 1, ds[1..])[i - n] && listed[i] == GuardedAll(us, ds[1..])[i - n];
          assert LeadsFrom(us, k + 1, ds[1..], paths[i], listed[i]);
        }
      }
    }
  }

  lemma {:induction false} LeafPathsComplete<T>(d: Dependency<T>, path: seq<nat>, us: seq<UseDep>, v: T)
    requires LeafAt(d, path, us, v)
    ensures path in LeafPaths(d)
    decreases |path|
  {
    if path != [] {
      var rest := if d.Conditional? then us[1..] else us;
      LeafPathsComplete(d.vals[path[0]], path[1..], rest, v);
      MemberPath(0, d.vals, path);
    }
  }

  lemma {:induction false} MemberPath<T>(k: nat, ds: seq<Dependency<T>>, path: seq<nat>)
    requires path != [] && k <= path[0] < k + |ds| && path[1..] in LeafPaths(ds[path[0] - k])
    ensures path in LeafPathsFrom(k, ds)
    decreases |ds|
  {
    if path[0] == k {
      InUnder(k, LeafPaths(ds[0]), path);
    } else {
      MemberPath(k + 1, ds[1..], path);
    }
  }

  /**
   `iter_conditional_flatten` lists every leaf of the tree once, from left to right, each with the guards
   of the conditionals around it, outermost first.
   */
  lemma GuardedListsLeaves<T(!new)>(d: Dependency<T>) returns (paths: seq<seq<nat>>)
    ensures |paths| == |Guarded([], d)| && Ascending(paths)
    ensures forall i :: 0 <= i < |paths| ==> LeafAt(d, paths[i], Guarded([], d)[i].0, Guarded([], d)[i].1)
    ensures forall path, us, v :: LeafAt(d, path, us, v) ==> path in paths
  {
    paths := LeafPaths(d);
    LeafPathsAscend(d);
    GuardedLeads([], d);
    forall i | 0 <= i < |paths| ensures LeafAt(d, paths[i], Guarded([], d)[i].0, Guarded([], d)[i].1) {
      assert Leads([], d, paths[i], Guarded([], d)[i]);
      assert Guarded([], d)[i].0[0..] == Guarded([], d)[i].0;
    }
    forall path, us, v | LeafAt(d, path, us, v) ensures path in paths { LeafPathsComplete(d, path, us, v); }
  }

  /** A path leads to one leaf. */
  lemma {:induction false} OneLeaf<T>(d: Dependency<T>, path: seq<nat>, us: seq<UseDep>, v: T, us': seq<UseDep>, v': T)
    requires LeafAt(d, path, us, v) && LeafAt(d, path, us', v')
    ensures us == us' && v == v'
    decreases |path|
  {
    if path != [] {
      if d.Conditional? {
        OneLeaf(d.vals[path[0]], path[1..], us[1..], v, us'[1..], v');
        assert us == [us[0]] + us[1..] && us' == [us'[0]] + us'[1..];
      } else {
        OneLeaf(d.vals[path[0]], path[1..], us, v, us', v');
      }
    }
  }

  /** A leaf of the tree with a value, inside conditionals with these guards. */
  ghost predicate HasLeaf<T>(d: Dependency<T>, us: seq<UseDep>, v: T) {
    exists path :: LeafAt(d, path, us, v)
  }

  lemma PlaceOf<A>(s: seq<A>, x: A) returns (i: nat)
    requires x in s
    ensures i < |s| && s[i] == x
  {
    i :| i < |s| && s[i] == x;
  }

  lemma GuardedMeans<T(!new)>(d: Dependency<T>, us: seq<UseDep>, v: T)
    ensures (us, v) in Guarded([], d) <==> HasLeaf(d, us, v)
  {
    var paths := GuardedListsLeaves(d);
    if HasLeaf(d, us, v) {
      var path :| LeafAt(d, path, us, v);
      var i := PlaceOf(paths, path);
      OneLeaf(d, path, us, v, Guarded([], d)[i].0, Guarded([], d)[i].1);
      assert Guarded([], d)[i] == (us, v);
    }
    if (us, v) in Guarded([], d) {
      var i := PlaceOf(Guarded([], d), (us, v));
      assert LeafAt(d, paths[i], us, v);
    }
  }

  /** `iter_flatten` lists the same leaves in the same order, without their guards. */
  lemma {:induction false} LeavesAreValues<T>(us: seq<UseDep>, d: Dependency<T>)
    ensures |Leaves(d)| == |Guarded(us, d)| && forall i :: 0 <= i < |Leaves(d)| ==> Leaves(d)[i] == Guarded(us, d)[i].1
    decreases d, 1
  {
    if !d.Leaf() { LeavesAllAreValues(if d.Conditional? then us + [d.guard] else us, d.vals); }
  }

  lemma {:induction false} LeavesAllAreValues<T>(us: seq<UseDep>, ds: seq<Dependency<T>>)
    ensures |LeavesAll(ds)| == |GuardedAll(us, ds)|
    ensures forall i :: 0 <= i < |LeavesAll(ds)| ==> LeavesAll(ds)[i] == GuardedAll(us, ds)[i].1
    decreases ds, 0
  {
    if ds != [] {
      LeavesAreValues(us, ds[0]);
      LeavesAllAreValues(us, ds[1..]);
    }
  }

  // ---------------------------------------------------------------- the paths of all nodes

  ghost function NodePaths<T>(d: Dependency<T>): seq<seq<nat>>
    decreases d, 1
  {
    [[]] + if d.Leaf() then [] else NodePathsFrom(0, d.vals)
  }

  ghost function NodePathsFrom<T>(k: nat, ds: seq<Dependency<T>>): seq<seq<nat>>
    decreases ds, 0
  {
    if ds == [] then [] else Under(k, NodePaths(ds[0])) + NodePathsFrom(k + 1, ds[1..])
  }

  lemma {:induction false} NodePathsAscend<T>(d: Dependency<T>)
    ensures Ascending(NodePaths(d))
    decreases d, 1
  {
    if !d.Leaf() { NodePathsFromAscend(0, d.vals); }
  }

  lemma {:induction false} NodePathsFromAscend<T>(k: nat, ds: seq<Dependency<T>>)
    ensures Ascending(NodePathsFrom(k, ds)) && From(k, NodePathsFrom(k, ds))
    decreases ds, 0
  {
    if ds != [] {
      NodePathsAscend(ds[0]);
      NodePathsFromAscend(k + 1, ds[1..]);
      UnderThenMore(k, NodePaths(ds[0]), NodePathsFrom(k + 1, ds[1..]));
    }
  }

  lemma {:induction false} PreorderAt<T>(d: Dependency<T>)
    ensures |NodePaths(d)| == |Preorder(d)|
    ensures forall i :: 0 <= i < |NodePaths(d)| ==> NodeAt(d, NodePaths(d)[i], Preorder(d)[i])
    decreases d, 1
  {
    if !d.Leaf() {
      PreorderAllAt(0, d.vals);
      forall i | 0 < i < |NodePaths(d)| ensures NodeAt(d, NodePaths(d)[i], Preorder(d)[i]) {
        assert NodeFrom(0, d.vals, NodePathsFrom(0, d.vals)[i - 1], PreorderAll(d.vals)[i - 1]);
      }
    }
  }

  ghost predicate NodeFrom<T>(k: nat, ds: seq<Dependency<T>>, path: seq<nat>, n: Dependency<T>) {
    path != [] && k <= path[0] < k + |ds| && NodeAt(ds[path[0] - k], path[1..], n)
  }

  lemma {:induction false} PreorderAllAt<T>(k: nat, ds: seq<Dependency<T>>)
    ensures |NodePathsFrom(k, ds)| == |PreorderAll(ds)|
    ensures forall i :: 0 <= i < |NodePathsFrom(k, ds)| ==> NodeFrom(k, ds, NodePathsFrom(k, ds)[i], PreorderAll(ds)[i])
    decreases ds, 0
  {
    if ds != [] {
      PreorderAt(ds[0]);
      PreorderAllAt(k + 1, ds[1..]);
      var n, paths, nodes := |NodePaths(ds[0])|, NodePathsFrom(k, ds), PreorderAll(ds);
      forall i | 0 <= i < |paths| ensures NodeFrom(k, ds, paths[i], nodes[i]) {
        if i < n {
          assert paths[i] == Under(k, NodePaths(ds[0]))[i] && nodes[i] == Preorder(ds[0])[i];
        } else {
          assert paths[i] == NodePathsFrom(k + 1, ds[1..])[i - n] && nodes[i] == PreorderAll(ds[1..])[i - n];
          assert NodeFrom(k + 1, ds[1..], paths[i], nodes[i]);
        }
      }
    }
  }

  lemma {:induction false} NodePathsComplete<T>(d: Dependency<T>, path: seq<nat>, n: Dependency<T>)
    requires NodeAt(d, path, n)
    ensures path in NodePaths(d)
    decreases |path|
  {
    if path != [] {
      NodePathsComplete(d.vals[path[0]], path[1..], n);
      MemberNodePath(0, d.vals, path);
    }
  }

  lemma {:induction false} MemberNodePath<T>(k: nat, ds: seq<Dependency<T>>, path: seq<nat>)
    requires path != [] && k <= path[0] < k + |ds| && path[1..] in NodePaths(ds[path[0] - k])
    ensures path in NodePathsFrom(k, ds)
    decreases |ds|
  {
    if path[0] == k {
      InUnder(k, NodePaths(ds[0]), path);
    } else {
      MemberNodePath(k + 1, ds[1..], path);
    }
  }

  /** `iter_recursive` lists every node of the tree once, each before those under it, from left to right. */
  lemma PreorderListsNodes<T(!new)>(d: Dependency<T>) returns (paths: seq<seq<nat>>)
    ensures |paths| == |Preorder(d)| && Ascending(paths)
    ensures forall i :: 0 <= i < |paths| ==> NodeAt(d, paths[i], Preorder(d)[i])
    ensures forall path, n :: NodeAt(d, path, n) ==> path in paths
  {
    paths := NodePaths(d);
    NodePathsAscend(d);
    PreorderAt(d);
    forall path, n | NodeAt(d, path, n) ensures path in paths { NodePathsComplete(d, path, n); }
  }

  /** `iter_conditionals` lists the guards of exactly the conditionals among some nodes, in their order. */
  lemma {:induction false} GuardsAreOf<T>(nodes: seq<Dependency<T>>) returns (at: seq<nat>)
    ensures |at| == |GuardsIn(nodes)| && forall i, j :: 0 <= i < j < |at| ==> at[i] < at[j]
    ensures forall i :: 0 <= i < |at| ==> at[i] < |nodes| && nodes[at[i]].Conditional? && nodes[at[i]].guard == GuardsIn(nodes)[i]
    ensures forall n :: 0 <= n < |nodes| && nodes[n].Conditional? ==> n in at
  {
    at := [];
    if nodes != [] {
      var n := |nodes| - 1;
      at := GuardsAreOf(nodes[..n]);
      assert nodes == nodes[..n] + [nodes[n]] && [nodes[n]][1..] == [];
      GuardsAppend(nodes[..n], [nodes[n]]);
      assert GuardsIn([nodes[n]]) == OwnGuard(nodes[n]) + GuardsIn([nodes[n]][1..]);
      if nodes[n].Conditional? { at := at + [n]; }
    }
  }

  // ---------------------------------------------------------------- evaluation

  /** `u?` asks for the flag to be on, `!u?` for it to be off. */
  predicate Holds(us: seq<UseDep>, options: set<string>) {
    forall u :: u in us ==> if u.enabled then u.flag in options else u.flag !in options
  }

  /** A value is among the leaves of the evaluation exactly when it is a leaf whose guards all hold. */
  lemma EvaluationUnderOptions<T(!new)>(options: set<string>, d: Dependency<T>, v: T)
    ensures v in LeavesAll(Evaluate(Options(options), d)) <==> exists us :: HasLeaf(d, us, v) && Holds(us, options)
  {
    var on := Options(options);
    EvaluationFollowsGuards(on, d, v);
    if i :| 0 <= i < |Guarded([], d)| && AllOn(on, Guarded([], d)[i].0) && Guarded([], d)[i].1 == v {
      var us := Guarded([], d)[i].0;
      assert Guarded([], d)[i] == (us, v);
      GuardedMeans(d, us, v);
      assert forall u :: u in us ==> on(u);
      assert Holds(us, options);
    }
    if us :| HasLeaf(d, us, v) && Holds(us, options) {
      GuardedMeans(d, us, v);
      var i := PlaceOf(Guarded([], d), (us, v));
      assert AllOn(on, Guarded([], d)[i].0);
    }
  }

  /** Forced on, all leaves stay; forced off, those outside conditionals. */
  lemma EvaluationForced<T(!new)>(d: Dependency<T>, v: T)
    ensures v in LeavesAll(Evaluate(Force(true), d)) <==> v in Leaves(d)
    ensures v in LeavesAll(Evaluate(Force(false), d)) <==> HasLeaf(d, [], v)
  {
    EvaluationFollowsGuards(Force(true), d, v);
    EvaluationFollowsGuards(Force(false), d, v);
    LeavesAreValues([], d);
    GuardedMeans(d, [], v);
    if v in Leaves(d) {
      var i := PlaceOf(Leaves(d), v);
      assert AllOn(Force(true), Guarded([], d)[i].0);
    }
    if i :| 0 <= i < |Guarded([], d)| && AllOn(Force(false), Guarded([], d)[i].0) && Guarded([], d)[i].1 == v {
      NoneOn(Guarded([], d)[i].0);
      assert Guarded([], d)[i] == ([], v);
    }
    if ([], v) in Guarded([], d) {
      var i := PlaceOf(Guarded([], d), ([], v));
      assert AllOn(Force(false), Guarded([], d)[i].0);
    }
  }

  lemma NoneOn(us: seq<UseDep>)
    requires AllOn(Force(false), us)
    ensures us == []
  {
    FirstIn(us);
  }

  lemma FirstIn<A>(s: seq<A>)
    ensures s == [] || s[0] in s
  {
  }

  /** `f? ( ds )` gives the evaluated members when the flag is on, `!f? ( ds )` when it is off. */
  lemma Polarity<T>(options: set<string>, f: string, default: Option<bool>, ds: seq<Dependency<T>>)
    ensures var (on, members) := (Options(options), Dedup(EvalAll(Options(options), ds)));
            && Evaluate(on, Conditional(UseDep(f, true, default), ds)) == (if f in options then members else [])
            && Evaluate(on, Conditional(UseDep(f, false, default), ds)) == (if f in options then [] else members)
  {
  }

  // ---------------------------------------------------------------- the order of evaluated leaves

  /** One list comes from another by leaving out elements. */
  ghost predicate Thinned<T>(s: seq<T>, all: seq<T>) {
    s == [] || (all != [] && ((s[0] == all[0] && Thinned(s[1..], all[1..])) || Thinned(s, all[1..])))
  }

  lemma {:induction false} ThinnedSelf<T>(s: seq<T>)
    ensures Thinned(s, s)
  {
    if s != [] { ThinnedSelf(s[1..]); }
  }

  lemma {:induction false} ThinnedAppend<T>(a: seq<T>, all: seq<T>, b: seq<T>, more: seq<T>)
    requires Thinned(a, all) && Thinned(b, more)
    ensures Thinned(a + b, all + more)
    decreases |all|
  {
    if all == [] {
      assert a + b == b && all + more == more;
    } else {
      assert (all + more)[0] == all[0] && (all + more)[1..] == all[1..] + more;
      if a != [] && a[0] == all[0] && Thinned(a[1..], all[1..]) {
        assert (a + b)[0] == a[0] && (a + b)[1..] == a[1..] + b;
        ThinnedAppend(a[1..], all[1..], b, more);
      } else {
        ThinnedAppend(a, all[1..], b, more);
      }
    }
  }

  lemma {:induction false} ThinnedTrans<T>(a: seq<T>, b: seq<T>, c: seq<T>)
    requires Thinned(a, b) && Thinned(b, c)
    ensures Thinned(a, c)
    decreases |b| + |c|
  {
    if a != [] {
      if b[0] == c[0] && Thinned(b[1..], c[1..]) {
        if a[0] == b[0] && Thinned(a[1..], b[1..]) {
          ThinnedTrans(a[1..], b[1..], c[1..]);
        } else {
          ThinnedTrans(a, b[1..], c[1..]);
        }
      } else {
        ThinnedTrans(a, b, c[1..]);
      }
    }
  }

  /** Dropping duplicates only leaves out leaves. */
  lemma {:induction false} DedupThins<T>(ds: seq<Dependency<T>>)
    ensures Thinned(LeavesAll(Dedup(ds)), LeavesAll(ds))
  {
    if ds != [] {
      var n := |ds| - 1;
      var kept, last := Dedup(ds[..n]), [ds[n]];
      DedupThins(ds[..n]);
      assert ds == ds[..n] + last;
      LeavesAppend(ds[..n], last);
      if Dedup(ds) == kept {
        ThinnedAppend(LeavesAll(kept), LeavesAll(ds[..n]), [], LeavesAll(last));
        assert LeavesAll(kept) + [] == LeavesAll(kept);
      } else {
        LeavesAppend(kept, last);
        ThinnedSelf(LeavesAll(last));
        ThinnedAppend(LeavesAll(kept), LeavesAll(ds[..n]), LeavesAll(last), LeavesAll(last));
      }
    }
  }

  lemma {:induction false} EvalThins<T>(on: Test, d: Dependency<T>)
    ensures Thinned(LeavesAll(Eval(on, d)), Leaves(d))
    decreases d, 1
  {
    if d.Leaf() {
      assert [d][1..] == [] && LeavesAll([d]) == Leaves(d) + LeavesAll([d][1..]);
      ThinnedSelf(Leaves(d));
    } else {
      EvalAllThins(on, d.vals);
      if !d.Conditional? {
        var members := EvalAll(on, d.vals);
        DedupThins(members);
        ThinnedTrans(LeavesAll(Dedup(members)), LeavesAll(members), LeavesAll(d.vals));
        GroupLeaves(d, Dedup(members));
      }
    }
  }

  lemma {:induction false} EvalAllThins<T>(on: Test, ds: seq<Dependency<T>>)
    ensures Thinned(LeavesAll(EvalAll(on, ds)), LeavesAll(ds))
    decreases ds, 0
  {
    if ds != [] {
      EvalThins(on, ds[0]);
      EvalAllThins(on, ds[1..]);
      LeavesAppend(Eval(on, ds[0]), EvalAll(on, ds[1..]));
      ThinnedAppend(LeavesAll(Eval(on, ds[0])), Leaves(ds[0]), LeavesAll(EvalAll(on, ds[1..])), LeavesAll(ds[1..]));
    }
  }

  /** Evaluation leaves out leaves and keeps the others in order. */
  lemma EvaluationKeepsOrder<T>(on: Test, d: Dependency<T>)
    ensures Thinned(LeavesAll(Evaluate(on, d)), Leaves(d))
  {
    EvalThins(on, d);
    DedupThins(Eval(on, d));
    ThinnedTrans(LeavesAll(Evaluate(on, d)), LeavesAll(Eval(on, d)), Leaves(d));
  }
}
