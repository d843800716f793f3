/**
 How many `..` a relative path needs, and when `relpath` (`crates/pkgcraft/src/utils.rs`) uses no more.
 */
module RelpathFewest {
  import opened Wrappers
  import opened Relpath
  import opened RelpathExact

  function UpCount(p: seq<Component>): nat {
    if p == [] then 0 else (if p[0] == ParentDir then 1 else 0) + UpCount(p[1..])
  }

  lemma {:induction false} UpCountAfterUps(n: nat, p: seq<Component>)
    ensures UpCount(Ups(n) + p) == n + UpCount(p)
  {
    if n == 0 {
      assert Ups(0) + p == p;
    } else {
      TailAppend(Ups(n), p);
      assert Ups(n)[1..] == Ups(n - 1);
      UpCountAfterUps(n - 1, p);
    }
  }

  // ---------------------------------------------------------------- the fewest there can be

  /**
   The `..` it takes to get from a place to a resolved goal: one for every component of the place that
   the goal does not share, and those the goal itself has after the shared ones.
   */
  function Need(place: seq<Component>, goal: seq<Component>): nat {
    var s := Shared(goal, place);
    |place| - s + UpCount(goal[s..])
  }

  lemma {:induction false} SharedIs(p: seq<Component>, b: seq<Component>, k: nat)
    requires k <= |p| && k <= |b| && p[..k] == b[..k] && (k < |p| && k < |b| ==> p[k] != b[k])
    ensures Shared(p, b) == k
  {
    if k > 0 {
      assert p[0] == p[..k][0] == b[..k][0] == b[0];
      assert p[1..][..k - 1] == p[..k][1..] && b[1..][..k - 1] == b[..k][1..];
      SharedIs(p[1..], b[1..], k - 1);
    }
  }

  lemma NeedAfterPush(place: seq<Component>, c: Component, goal: seq<Component>)
    ensures var s := Shared(goal, place);
            Need(place + [c], goal) ==
            if s == |place| && s < |goal| && goal[s] == c then Need(place, goal) - (if c == ParentDir then 1 else 0)
            else Need(place, goal) + 1
  {
    var s, next := Shared(goal, place), place + [c];
    assert next[..s] == place[..s];
    if s == |place| && s < |goal| && goal[s] == c {
      assert goal[..s + 1] == goal[..s] + [c] && next[..s + 1] == next;
      SharedIs(goal, next, s + 1);
      assert goal[s..][0] == c && goal[s..][1..] == goal[s + 1..];
    } else {
      SharedIs(goal, next, s);
    }
  }

  lemma NeedAfterPop(place: seq<Component>, goal: seq<Component>)
    requires place != [] && place[|place| - 1].Normal?
    ensures Need(place, goal) <= Need(place[..|place| - 1], goal) + 1
  {
    var n, init := |place| - 1, place[..|place| - 1];
    assert init + [place[n]] == place;
    NeedAfterPush(init, place[n], goal);
  }

  /** A step saves at most one `..`, and only by being one. */
  lemma NeedAfterStep(place: seq<Component>, c: Component, goal: seq<Component>)
    requires c != RootDir
    ensures Need(place, goal) <= Need(Step(place, c), goal) + if c == ParentDir then 1 else 0
  {
    if c.Normal? {
      NeedAfterPush(place, c, goal);
    } else if c == ParentDir {
      if place != [] && place[|place| - 1].Normal? {
        NeedAfterPop(place, goal);
      } else {
        NeedAfterPush(place, ParentDir, goal);
        assert [] + [ParentDir] == [ParentDir];
      }
    }
  }

  lemma NoNeedAtGoal(goal: seq<Component>)
    ensures Need(goal, goal) == 0
  {
    SharedIs(goal, goal, |goal|);
  }

  /** Whatever way leads from a place to a goal, it has as many `..` as needed. */
  lemma {:induction false} WaysNeedUps(place: seq<Component>, way: seq<Component>, goal: seq<Component>)
    requires NoRoot(way) && Walk(place, way) == goal
    ensures Need(place, goal) <= UpCount(way)
    decreases |way|
  {
    if way == [] {
      NoNeedAtGoal(goal);
    } else {
      assert way[0] != RootDir;
      NeedAfterStep(place, way[0], goal);
      WaysNeedUps(Step(place, way[0]), way[1..], goal);
    }
  }

  /** No relative path from a base to where a path leads has fewer `..` than needed, whatever base and path. */
  lemma FewestBound(path: seq<Component>, base: seq<Component>, other: seq<Component>)
    requires NoRoot(other) && Resolve(base + other) == Resolve(path)
    ensures UpCount(other) >= Need(Resolve(base), Resolve(path))
  {
    WalkAppend([], base, other);
    WaysNeedUps(Resolve(base), other, Resolve(path));
  }

  // ---------------------------------------------------------------- a path that attains it

  /** Resolved places stay as they are. */
  ghost predicate Settled(place: seq<Component>) {
    Resolve(place) == place
  }

  lemma ResolveOneMore(place: seq<Component>, c: Component)
    ensures Resolve(place + [c]) == Step(Resolve(place), c)
  {
    WalkAppend([], place, [c]);
    WalkFirst(Resolve(place), c, []);
    assert [c] + [] == [c];
  }

  lemma StepSettles(place: seq<Component>, c: Component)
    requires Settled(place)
    ensures Settled(Step(place, c))
  {
    if place != [] && c == ParentDir && place[|place| - 1].Normal? {
      var n := |place| - 1;
      assert place[..n] + [place[n]] == place;
      ResolveOneMore(place[..n], place[n]);
      assert (Resolve(place[..n]) + [place[n]])[..n] == Resolve(place[..n]);
    } else if c == RootDir {
      WalkFirst([], RootDir, []);
      assert [RootDir] + [] == [RootDir];
    } else {
      ResolveOneMore(place, c);
      assert [] + [c] == [c];
    }
  }

  lemma {:induction false} WalkSettles(place: seq<Component>, p: seq<Component>)
    requires Settled(place)
    ensures Settled(Walk(place, p))
    decreases |p|
  {
    if p != [] {
      StepSettles(place, p[0]);
      WalkSettles(Step(place, p[0]), p[1..]);
    }
  }

  /** What does not go up comes first in a resolved place: a root or `..`s, then names. */
  ghost predicate Shaped(place: seq<Component>, n: nat) {
    n <= |place| && (forall i :: 0 <= i < n ==> !place[i].Normal?) && Names(place[n..])
  }

  lemma ShapeNext(place: seq<Component>, n: nat, c: Component) returns (m: nat)
    requires Shaped(place, n)
    ensures Shaped(Step(place, c), m)
  {
    if c.Normal? {
      m := n;
      assert Step(place, c)[n..] == place[n..] + [c];
    } else if c == ParentDir && place != [] && place[|place| - 1].Normal? {
      m := n;
      assert Step(place, c)[n..] == place[n..][..|place| - n - 1];
    } else if c == CurDir {
      m := n;
    } else {
      m := |Step(place, c)|;
      assert n < |place| ==> place[n..][|place| - n - 1].Normal?;
    }
  }

  lemma {:induction false} WalkShaped(place: seq<Component>, n: nat, p: seq<Component>) returns (m: nat)
    requires Shaped(place, n)
    ensures Shaped(Walk(place, p), m)
    decreases |p|
  {
    m := n;
    if p != [] {
      m := ShapeNext(place, n, p[0]);
      m := WalkShaped(Step(place, p[0]), m, p[1..]);
    }
  }

  /** A way without a root never undoes what comes before the names. */
  lemma {:induction false} StemStays(place: seq<Component>, n: nat, way: seq<Component>)
    requires n <= |place| && (forall i :: 0 <= i < n ==> !place[i].Normal?) && NoRoot(way)
    ensures n <= |Walk(place, way)| && Walk(place, way)[..n] == place[..n]
    decreases |way|
  {
    if way != [] {
      assert way[0] != RootDir;
      var next := Step(place, way[0]);
      assert n <= |next| && next[..n] == place[..n];
      assert forall i :: 0 <= i < n ==> next[i] == next[..n][i] == place[..n][i];
      StemStays(next, n, way[1..]);
    }
  }

  lemma {:induction false} SharedAtLeast(p: seq<Component>, b: seq<Component>, n: nat)
    requires n <= |p| && n <= |b| && p[..n] == b[..n]
    ensures Shared(p, b) >= n
  {
    if n > 0 {
      assert p[0] == p[..n][0] == b[..n][0] == b[0];
      assert p[1..][..n - 1] == p[..n][1..] && b[1..][..n - 1] == b[..n][1..];
      SharedAtLeast(p[1..], b[1..], n - 1);
    }
  }

  /** Where some way leads from a place, everything of the place that is not shared is a name. */
  lemma UnsharedAreNames(place: seq<Component>, n: nat, way: seq<Component>)
    requires Shaped(place, n) && NoRoot(way)
    ensures var s := Shared(Walk(place, way), place); s >= n && Names(place[s..])
  {
    StemStays(place, n, way);
    SharedAtLeast(Walk(place, way), place, n);
    var s := Shared(Walk(place, way), place);
    assert place[s..] == place[n..][s - n..];
  }

  /** Up to what place and goal share, then on to the goal. */
  function Best(place: seq<Component>, goal: seq<Component>): seq<Component> {
    var s := Shared(goal, place);
    Ups(|place| - s) + goal[s..]
  }

  lemma BestCount(place: seq<Component>, goal: seq<Component>)
    ensures UpCount(Best(place, goal)) == Need(place, goal)
  {
    UpCountAfterUps(|place| - Shared(goal, place), goal[Shared(goal, place)..]);
  }

  /** Leads from the base to where the path leads, without starting over at a root. */
  ghost predicate IsRelative(path: seq<Component>, base: seq<Component>, r: seq<Component>) {
    NoRoot(r) && Resolve(base + r) == Resolve(path)
  }

  /** Where any relative path leads from the base to the path, one does with no more `..` than needed. */
  lemma BestLeads(path: seq<Component>, base: seq<Component>, way: seq<Component>)
    requires IsPath(path) && IsPath(base) && IsRelative(path, base, way)
    ensures var best := Best(Resolve(base), Resolve(path));
            IsRelative(path, base, best) && UpCount(best) == Need(Resolve(base), Resolve(path))
  {
    var place, goal := Resolve(base), Resolve(path);
    var s := Shared(goal, place);
    BestCount(place, goal);
    WalkAppend([], base, way);
    var n := WalkShaped([], 0, base);
    UnsharedAreNames(place, n, way);
    WalkSettles([], base);
    WalkSettles([], path);
    Rejoined(goal, place, s);
    WalkAppend([], place, Best(place, goal));
    WalkAppend([], base, Best(place, goal));
    GoalRoot(path);
    GoalRoot(base);
    RootStays(place, way);
    RestHasNoRoot(goal, s);
    NoRootConcat(Ups(|place| - s), goal[s..]);
  }

  /** A way without a root leads to a rooted place only from one. */
  lemma RootStays(place: seq<Component>, way: seq<Component>)
    requires RootOnlyFirst(place) && NoRoot(way)
    ensures Absolute(Walk(place, way)) ==> Absolute(place) && Shared(Walk(place, way), place) >= 1
  {
    if Absolute(place) {
      StemStays(place, 1, way);
      SharedAtLeast(Walk(place, way), place, 1);
    } else {
      WalkHasNoRoot(place, way);
    }
  }

  /** A resolved path has a root in front exactly when the path has, and nowhere else. */
  ghost predicate RootOnlyFirst(p: seq<Component>) {
    forall i :: 0 < i < |p| ==> p[i] != RootDir
  }

  lemma GoalRoot(path: seq<Component>)
    requires IsPath(path)
    ensures Absolute(Resolve(path)) == Absolute(path) && RootOnlyFirst(Resolve(path))
  {
    if Absolute(path) {
      ResolveRooted(path);
    } else {
      forall i | 0 <= i < |path| ensures path[i] != RootDir {
        assert i > 0 ==> path[i].Normal? || path[i].ParentDir?;
      }
      WalkHasNoRoot([], path);
    }
  }

  lemma {:induction false} WalkHasNoRoot(place: seq<Component>, p: seq<Component>)
    requires NoRoot(place) && NoRoot(p)
    ensures NoRoot(Walk(place, p))
    decreases |p|
  {
    if p != [] {
      assert p[0] != RootDir;
      WalkHasNoRoot(Step(place, p[0]), p[1..]);
    }
  }

  lemma RestHasNoRoot(p: seq<Component>, k: nat)
    requires RootOnlyFirst(p) && k <= |p| && (Absolute(p) ==> k >= 1)
    ensures NoRoot(p[k..])
  {
    forall i | 0 <= i < |p| - k ensures p[k..][i] != RootDir {
      assert p[k..][i] == p[k + i];
    }
  }

  // ---------------------------------------------------------------- when relpath has the fewest

  /** The `..` in the result: a leading `.` of the base that the path does not share saves one. */
  function AnswerUps(path: seq<Component>, base: seq<Component>): int {
    var k := Shared(path, base);
    |base| - k + UpCount(path[k..]) - if base != [] && base[0] == CurDir && path != [] && path[0] != CurDir then 1 else 0
  }

  lemma {:induction false} RestHasNoRoots(comps: seq<Component>, path: seq<Component>, base: seq<Component>)
    requires NoRoot(comps) && NoRoot(path) && Rest(comps, path, base).Some?
    ensures NoRoot(Rest(comps, path, base).value)
    decreases |path| + |base|
  {
    if base == [] {
    } else if path == [] {
      RestHasNoRoots(comps + [ParentDir], [], base[1..]);
    } else if comps == [] && path[0] == base[0] {
      RestHasNoRoots(comps, path[1..], base[1..]);
    } else if base[0] == CurDir {
      assert path[0] != RootDir;
      RestHasNoRoots(comps + [path[0]], path[1..], base[1..]);
    }
  }

  /** Between paths of the same kind the result has no root. */
  lemma AnswerHasNoRoot(path: seq<Component>, base: seq<Component>)
    requires IsPath(path) && IsPath(base) && Absolute(path) == Absolute(base) && Answer(path, base).Some?
    ensures NoRoot(Answer(path, base).value)
  {
    if Absolute(path) {
      var k := Shared(path, base);
      SharedRoot(path, base);
      NoCurInAbsolute(base);
      RestIs(path, base);
      StepsBehind(path, k);
      StepsHaveNoRoot(path[k..]);
      NoRootConcat(Ups(|base| - k), path[k..]);
    } else {
      NoRootOrCur(path, []);
      RestHasNoRoots([], path, base);
    }
  }

  lemma AnswerCount(path: seq<Component>, base: seq<Component>)
    requires IsPath(path) && IsPath(base) && Absolute(path) == Absolute(base) && Answer(path, base).Some?
    requires !(path == [] && base != [] && base[0] == CurDir)
    ensures UpCount(Answer(path, base).value) == AnswerUps(path, base)
  {
    if base != [] && base[0] == CurDir {
      CountFromCur(path, base);
    } else {
      if Absolute(base) { NoCurInAbsolute(base); } else { NoRootOrCur(path, base); }
      RestIs(path, base);
      UpCountAfterUps(|base| - Shared(path, base), path[Shared(path, base)..]);
    }
  }

  lemma CountFromCur(path: seq<Component>, base: seq<Component>)
    requires IsPath(path) && IsPath(base) && path != [] && base != [] && base[0] == CurDir && Rest([], path, base).Some?
    ensures UpCount(Rest([], path, base).value) == AnswerUps(path, base)
  {
    StepsBehind(base, 1);
    RestFromCur(path, base);
    if path[0] == CurDir {
      CountShared(path, base);
    } else {
      CountSwapped(path[0], path[1..], base[1..]);
      assert [path[0]] + path[1..] == path;
    }
  }

  lemma CountShared(path: seq<Component>, base: seq<Component>)
    requires path != [] && base != [] && path[0] == base[0] == CurDir && Steps(base[1..]) && Rest([], path[1..], base[1..]).Some?
    ensures UpCount(Rest([], path[1..], base[1..]).value) == |base| - Shared(path, base) + UpCount(path[Shared(path, base)..])
  {
    var q, b := path[1..], base[1..];
    StepsHaveNoCur(b);
    RestIs(q, b);
    UpCountAfterUps(|b| - Shared(q, b), q[Shared(q, b)..]);
    assert path[1 + Shared(q, b)..] == q[Shared(q, b)..];
  }

  lemma CountSwapped(c: Component, q: seq<Component>, b: seq<Component>)
    requires Steps(b) && Rest([c], q, b).Some?
    ensures UpCount(Rest([c], q, b).value) == |b| + UpCount([c] + q)
  {
    assert ([c] + q)[1..] == q;
    if b != [] {
      RestAfterCur(c, q, b);
      UpCountAfterUps(|b|, q);
      Assoc([c], Ups(|b|), q);
      assert ([c] + (Ups(|b|) + q))[1..] == Ups(|b|) + q;
    }
  }

  /** A relative path from the base to the path with no more `..` than any other. */
  ghost predicate IsFewest(path: seq<Component>, base: seq<Component>, r: seq<Component>) {
    IsRelative(path, base, r) && forall other :: IsRelative(path, base, other) ==> UpCount(r) <= UpCount(other)
  }

  /** Having the fewest is having as many as needed. */
  lemma FewestIsNeed(path: seq<Component>, base: seq<Component>, r: seq<Component>)
    requires IsPath(path) && IsPath(base) && IsRelative(path, base, r)
    ensures IsFewest(path, base, r) <==> UpCount(r) == Need(Resolve(base), Resolve(path))
  {
    BestLeads(path, base, r);
    FewestBound(path, base, r);
    forall other | IsRelative(path, base, other) ensures UpCount(other) >= Need(Resolve(base), Resolve(path)) {
      FewestBound(path, base, other);
    }
  }

  /**
   For every path and base with a result: it is a relative path with the fewest `..` exactly when both are
   of the same kind, it leads to the path at all, and what stands in the path and the base after what they
   share has no more `..` and names to undo than resolving both leaves.
   */
  lemma FewestExactly(path: seq<Component>, base: seq<Component>)
    requires IsPath(path) && IsPath(base) && Answer(path, base).Some?
    ensures IsFewest(path, base, Answer(path, base).value) <==>
            && Absolute(path) == Absolute(base) && LeadsBackWhen(path, base)
            && AnswerUps(path, base) == Need(Resolve(base), Resolve(path))
  {
    var r := Answer(path, base).value;
    LeadsBackExactly(path, base);
    if Absolute(path) != Absolute(base) {
      assert r[0] == RootDir;
    } else if LeadsBackWhen(path, base) {
      AnswerHasNoRoot(path, base);
      AnswerCount(path, base);
      FewestIsNeed(path, base, r);
    }
  }

  /** In particular, between a path and a base without dots none has fewer. */
  lemma FewestUps(path: seq<Component>, base: seq<Component>, other: seq<Component>)
    requires DotFree(base) && DotFree(path) && Absolute(path) == Absolute(base)
    requires NoRoot(other) && Resolve(base + other) == Resolve(path)
    ensures Answer(path, base).Some? && UpCount(Answer(path, base).value) <= UpCount(other)
  {
    DotFreeIsPath(path);
    DotFreeIsPath(base);
    AnswerIs(path, base);
    RelpathLeadsBack(path, base);
    DotFreeHasNoCur(base);
    Resolved(base);
    Resolved(path);
    LeadsBackExactly(path, base);
    FewestExactly(path, base);
    assert IsRelative(path, base, other);
  }

  lemma DotFreeIsPath(p: seq<Component>)
    requires DotFree(p)
    ensures IsPath(p)
  {
    forall i | 0 < i < |p| ensures p[i].Normal? {
      if Absolute(p) { assert p[1..][i - 1] == p[i]; }
    }
  }

  /** For a path with dots there can be a way with fewer `..`: from `a` to `b/../a` one needs none. */
  lemma DottedPathCostsMore()
    ensures var a, b := Normal("a"), Normal("b");
            && Answer([b, ParentDir, a], [a]) == Some([ParentDir, b, ParentDir, a])
            && Resolve([a] + []) == Resolve([b, ParentDir, a])
  {
    var a, b := Normal("a"), Normal("b");
    DottedAnswer(b, a);
    DottedPlace(b, a);
    assert [a] + [] == [a];
  }

  lemma DottedAnswer(b: Component, a: Component)
    requires b.Normal? && a.Normal? && a != b
    ensures Answer([b, ParentDir, a], [a]) == Some([ParentDir, b, ParentDir, a])
  {
    assert [] + Ups(1) + [b, ParentDir, a] == [ParentDir, b, ParentDir, a];
  }

  lemma DottedPlace(b: Component, a: Component)
    requires b.Normal? && a.Normal?
    ensures Resolve([b, ParentDir, a]) == Resolve([a])
  {
    WalkFirst([], b, [ParentDir, a]);
    WalkFirst([b], ParentDir, [a]);
    assert [b] + [ParentDir, a] == [b, ParentDir, a] && [ParentDir] + [a] == [ParentDir, a];
  }
}
