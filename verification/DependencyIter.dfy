/**
 The iterators of `crates/pkgcraft/src/dep/dependency_iter.rs`.

 Each is a worklist of trees that `next` pops from and extends in place.  Each `Next` is proved
 against a structural recursion over the trees: what it returns is the first element of that
 recursion's list, and what it leaves behind is the rest.
 */
module DependencyIter {
  import opened Wrappers
  import opened DependencyTree

  // ---------------------------------------------------------------- leaves, from both ends

  class IterFlatten<T> {
    var q: seq<Dependency<T>>

    constructor (deps: seq<Dependency<T>>)
      ensures q == deps
    {
      q := deps;
    }

    method Next() returns (r: Option<T>)
      modifies this
      ensures LeavesAll(old(q)) == (if r.None? then [] else [r.value]) + LeavesAll(q)
      ensures r.None? ==> q == []
    {
      while q != []
        invariant LeavesAll(q) == LeavesAll(old(q))
        decreases SizeAll(q)
      {
        var dep := q[0];
        assert SizeAll(q) == Size(dep) + SizeAll(q[1..]);
        q := q[1..];
        match dep {
          case Enabled(val) => return Some(val);
          case Disabled(val) => return Some(val);
          case AllOf(vals) => ExtendLeft(vals);
          case AnyOf(vals) => ExtendLeft(vals);
          case ExactlyOneOf(vals) => ExtendLeft(vals);
          case AtMostOneOf(vals) => ExtendLeft(vals);
          case Conditional(_, vals) => ExtendLeft(vals);
        }
      }
      r := None;
    }

    /** Prepends the members of a group, keeping their order. */
    method ExtendLeft(vals: seq<Dependency<T>>)
      modifies this
      ensures q == vals + old(q)
      ensures LeavesAll(q) == LeavesAll(vals) + LeavesAll(old(q))
      ensures SizeAll(q) == SizeAll(vals) + SizeAll(old(q))
    {
      LeavesAppend(vals, q);
      SizeAppend(vals, q);
      q := vals + q;
    }

    method NextBack() returns (r: Option<T>)
      modifies this
      ensures LeavesAll(old(q)) == LeavesAll(q) + (if r.None? then [] else [r.value])
      ensures r.None? ==> q == []
    {
      while q != []
        invariant LeavesAll(q) == LeavesAll(old(q))
        decreases SizeAll(q)
      {
        var dep := q[|q| - 1];
        LastLeaves(q);
        q := q[..|q| - 1];
        match dep {
          case Enabled(val) => return Some(val);
          case Disabled(val) => return Some(val);
          case AllOf(vals) => Extend(vals);
          case AnyOf(vals) => Extend(vals);
          case ExactlyOneOf(vals) => Extend(vals);
          case AtMostOneOf(vals) => Extend(vals);
          case Conditional(_, vals) => Extend(vals);
        }
      }
      r := None;
    }

    /** Appends the members of a group. */
    method Extend(vals: seq<Dependency<T>>)
      modifies this
      ensures q == old(q) + vals
      ensures LeavesAll(q) == LeavesAll(old(q)) + LeavesAll(vals)
      ensures SizeAll(q) == SizeAll(old(q)) + SizeAll(vals)
    {
      LeavesAppend(q, vals);
      SizeAppend(q, vals);
      q := q + vals;
    }
  }

  lemma LastLeaves<T>(q: seq<Dependency<T>>)
    requires q != []
    ensures LeavesAll(q) == LeavesAll(q[..|q| - 1]) + Leaves(q[|q| - 1])
    ensures SizeAll(q) == SizeAll(q[..|q| - 1]) + Size(q[|q| - 1])
  {
    var init, last := q[..|q| - 1], [q[|q| - 1]];
    assert q == init + last;
    LeavesAppend(init, last);
    SizeAppend(init, last);
    assert LeavesAll(last) == Leaves(last[0]) + LeavesAll(last[1..]);
  }

  function Reversed<A>(s: seq<A>): seq<A> {
    if s == [] then [] else Reversed(s[1..]) + [s[0]]
  }

  lemma {:induction false} ReversedAppend<A>(s: seq<A>, x: A)
    ensures Reversed(s + [x]) == [x] + Reversed(s)
  {
    if s == [] {
      assert s + [x] == [x];
    } else {
      assert (s + [x])[1..] == s[1..] + [x];
      ReversedAppend(s[1..], x);
    }
  }

  /**
   Any interleaving of calls at the two ends: what came out in front, what is left, and what came out
   at the back, reversed, make up the leaves; nothing is lost, repeated or reordered.
   */
  method Interleave<T>(iter: IterFlatten<T>, atFront: seq<bool>) returns (front: seq<T>, back: seq<T>)
    modifies iter
    ensures front + LeavesAll(iter.q) + Reversed(back) == LeavesAll(old(iter.q))
    ensures |front| + |back| < |atFront| ==> iter.q == []
  {
    front, back := [], [];
    for i := 0 to |atFront|
      invariant front + LeavesAll(iter.q) + Reversed(back) == LeavesAll(old(iter.q))
      invariant |front| + |back| < i ==> iter.q == []
      invariant |front| + |back| <= i
    {
      if atFront[i] {
        var r := iter.Next();
        if r.Some? {
          front := front + [r.value];
        }
      } else {
        var r := iter.NextBack();
        if r.Some? {
          ReversedAppend(back, r.value);
          back := back + [r.value];
        }
      }
    }
  }

  // ---------------------------------------------------------------- leaves with their guards

  class IterConditionalFlatten<T> {
    var q: seq<(seq<UseDep>, Dependency<T>)>

    constructor (deps: seq<Dependency<T>>)
      ensures GuardedWork(q) == GuardedAll([], deps)
    {
      q := Tagged([], deps);
      GuardedTagged([], deps);
    }

    static function Weight(q: seq<(seq<UseDep>, Dependency<T>)>): nat {
      if q == [] then 0 else Size(q[0].1) + Weight(q[1..])
    }

    static lemma {:induction false} WeightTagged(us: seq<UseDep>, vals: seq<Dependency<T>>, q: seq<(seq<UseDep>, Dependency<T>)>)
      ensures Weight(Tagged(us, vals) + q) == SizeAll(vals) + Weight(q)
    {
      if vals == [] {
        assert Tagged(us, vals) + q == q;
      } else {
        assert (Tagged(us, vals) + q)[1..] == Tagged(us, vals[1..]) + q;
        WeightTagged(us, vals[1..], q);
      }
    }

    method Next() returns (r: Option<(seq<UseDep>, T)>)
      modifies this
      ensures GuardedWork(old(q)) == (if r.None? then [] else [r.value]) + GuardedWork(q)
      ensures r.None? ==> q == []
    {
      while q != []
        invariant GuardedWork(q) == GuardedWork(old(q))
        decreases Weight(q)
      {
        var (useDeps, dep) := q[0];
        q := q[1..];
        match dep {
          case Enabled(val) => return Some((useDeps, val));
          case Disabled(val) => return Some((useDeps, val));
          case AllOf(vals) => ExtendLeft(useDeps, vals);
          case AnyOf(vals) => ExtendLeft(useDeps, vals);
          case ExactlyOneOf(vals) => ExtendLeft(useDeps, vals);
          case AtMostOneOf(vals) => ExtendLeft(useDeps, vals);
          case Conditional(u, vals) =>
            useDeps := useDeps + [u];
            ExtendLeft(useDeps, vals);
        }
      }
      r := None;
    }

    method ExtendLeft(useDeps: seq<UseDep>, vals: seq<Dependency<T>>)
      modifies this
      ensures GuardedWork(q) == GuardedAll(useDeps, vals) + GuardedWork(old(q))
      ensures Weight(q) == SizeAll(vals) + Weight(old(q))
    {
      GuardedAppend(Tagged(useDeps, vals), q);
      GuardedTagged(useDeps, vals);
      WeightTagged(useDeps, vals, q);
      q := Tagged(useDeps, vals) + q;
    }
  }

  // ---------------------------------------------------------------- nodes and guards

  class IterRecursive<T> {
    var q: seq<Dependency<T>>

    constructor (deps: seq<Dependency<T>>)
      ensures q == deps
    {
      q := deps;
    }

    method Next() returns (val: Option<Dependency<T>>)
      modifies this
      ensures PreorderAll(old(q)) == (if val.None? then [] else [val.value]) + PreorderAll(q)
      ensures val.None? ==> q == []
    {
      if q == [] { return None; }
      var dep := q[0];
      assert PreorderAll(q) == [dep] + (PreorderAll(dep.Members()) + PreorderAll(q[1..]));
      val := Some(dep);
      q := q[1..];
      match dep {
        case Enabled(_) =>
        case Disabled(_) =>
        case AllOf(vals) => ExtendLeft(vals);
        case AnyOf(vals) => ExtendLeft(vals);
        case ExactlyOneOf(vals) => ExtendLeft(vals);
        case AtMostOneOf(vals) => ExtendLeft(vals);
        case Conditional(_, vals) => ExtendLeft(vals);
      }
    }

    method ExtendLeft(vals: seq<Dependency<T>>)
      modifies this
      ensures PreorderAll(q) == PreorderAll(vals) + PreorderAll(old(q))
    {
      PreorderAppend(vals, q);
      q := vals + q;
    }
  }

  lemma {:induction false} GuardsAppend<T>(a: seq<Dependency<T>>, b: seq<Dependency<T>>)
    ensures GuardsIn(a + b) == GuardsIn(a) + GuardsIn(b)
  {
    if a == [] {
      assert a + b == b;
    } else {
      assert (a + b)[0] == a[0] && (a + b)[1..] == a[1..] + b;
      GuardsAppend(a[1..], b);
      Assoc(OwnGuard(a[0]), GuardsIn(a[1..]), GuardsIn(b));
    }
  }

  /** The first tree's own guard, if it is a conditional, then its members', then the other trees'. */
  lemma FirstGuard<T>(q: seq<Dependency<T>>)
    requires q != []
    ensures GuardsIn(PreorderAll(q)) ==
            OwnGuard(q[0]) + (GuardsIn(PreorderAll(q[0].Members())) + GuardsIn(PreorderAll(q[1..])))
    ensures SizeAll(q) == 1 + SizeAll(q[0].Members()) + SizeAll(q[1..])
  {
    var d := q[0];
    assert PreorderAll(q) == [d] + (PreorderAll(d.Members()) + PreorderAll(q[1..]));
    GuardsAppend(PreorderAll(d.Members()), PreorderAll(q[1..]));
  }

  class IterConditionals<T> {
    var q: seq<Dependency<T>>

    constructor (deps: seq<Dependency<T>>)
      ensures q == deps
    {
      q := deps;
    }

    /** The guards still to come: those of the conditionals among the remaining nodes, in node order. */
    ghost function Remaining(): seq<UseDep>
      reads this
    {
      GuardsIn(PreorderAll(q))
    }

    method Next() returns (r: Option<UseDep>)
      modifies this
      ensures old(Remaining()) == (if r.None? then [] else [r.value]) + Remaining()
      ensures r.None? ==> q == []
    {
      while q != []
        invariant Remaining() == old(Remaining())
        decreases SizeAll(q)
      {
        var dep := q[0];
        FirstGuard(q);
        q := q[1..];
        match dep {
          case Enabled(_) =>
          case Disabled(_) =>
          case AllOf(vals) => ExtendLeft(vals);
          case AnyOf(vals) => ExtendLeft(vals);
          case ExactlyOneOf(vals) => ExtendLeft(vals);
          case AtMostOneOf(vals) => ExtendLeft(vals);
          case Conditional(u, vals) =>
            ExtendLeft(vals);
            return Some(u);
        }
      }
      r := None;
    }

    method ExtendLeft(vals: seq<Dependency<T>>)
      modifies this
      ensures Remaining() == GuardsIn(PreorderAll(vals)) + old(Remaining())
      ensures SizeAll(q) == SizeAll(vals) + SizeAll(old(q))
    {
      PreorderAppend(vals, q);
      GuardsAppend(PreorderAll(vals), PreorderAll(q));
      SizeAppend(vals, q);
      q := vals + q;
    }
  }
}
