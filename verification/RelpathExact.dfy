/**
 When appending a relative path to its base leads to the path: the exact condition, for all paths and
 bases (`crates/pkgcraft/src/utils.rs`).
 */
module RelpathExact {
  import opened Wrappers
  import opened Relpath

  /** What splitting a path into components guarantees: after the first, only names and `..`. */
  ghost predicate IsPath(p: seq<Component>) {
    forall i :: 0 < i < |p| ==> p[i].Normal? || p[i].ParentDir?
  }

  ghost predicate Steps(p: seq<Component>) {
    forall i :: 0 <= i < |p| ==> p[i].Normal? || p[i].ParentDir?
  }

  // ---------------------------------------------------------------- below a root

  /** The root and names below it. */
  ghost predicate Rooted(place: seq<Component>) {
    Absolute(place) && forall i :: 0 < i < |place| ==> place[i].Normal?
  }

  /** The length of the place reached from a rooted place of length `n`; `..` at the root stays there. */
  function Height(n: nat, p: seq<Component>): (h: nat)
    requires n >= 1
    ensures h >= 1
    decreases |p|
  {
    if p == [] then n
    else Height(if p[0].Normal? then n + 1 else if n == 1 then 1 else n - 1, p[1..])
  }

  lemma {:induction false} WalkRooted(place: seq<Component>, p: seq<Component>)
    requires Rooted(place) && Steps(p)
    ensures Rooted(Walk(place, p)) && |Walk(place, p)| == Height(|place|, p)
    decreases |p|
  {
    if p != [] {
      assert p[0].Normal? || p[0].ParentDir?;
      WalkRooted(Step(place, p[0]), p[1..]);
    }
  }

  lemma {:induction false} HeightAppend(n: nat, p: seq<Component>, q: seq<Component>)
    requires n >= 1
    ensures Height(n, p + q) == Height(Height(n, p), q)
    decreases |p|
  {
    if p == [] {
      assert p + q == q;
    } else {
      TailAppend(p, q);
      HeightAppend(if p[0].Normal? then n + 1 else if n == 1 then 1 else n - 1, p[1..], q);
    }
  }

  lemma {:induction false} HeightUps(n: nat, m: nat)
    requires n >= 1
    ensures Height(n, Ups(m)) == if m < n then n - m else 1
  {
    if m > 0 {
      assert Ups(m)[1..] == Ups(m - 1);
      HeightUps(if n == 1 then 1 else n - 1, m - 1);
    }
  }

  lemma {:induction false} HeightBound(n: nat, p: seq<Component>)
    requires n >= 1
    ensures Height(n, p) <= n + |p|
    ensures !Names(p) ==> Height(n, p) < n + |p|
    decreases |p|
  {
    if p != [] {
      HeightBound(if p[0].Normal? then n + 1 else if n == 1 then 1 else n - 1, p[1..]);
    }
  }

  /** Going down a way that is not all names, and up again as often as it is long, ends higher or at the root. */
  lemma Shrinks(n: nat, mine: seq<Component>)
    requires n >= 1 && !Names(mine)
    ensures var h := Height(n, mine + Ups(|mine|)); h < n || (n == 1 && h == 1)
  {
    HeightAppend(n, mine, Ups(|mine|));
    HeightUps(Height(n, mine), |mine|);
    HeightBound(n, mine);
  }

  lemma {:induction false} Deeper(a: nat, b: nat, p: seq<Component>)
    requires 1 <= a <= b
    ensures Height(a, p) <= Height(b, p)
    decreases |p|
  {
    if p != [] {
      Deeper(if p[0].Normal? then a + 1 else if a == 1 then 1 else a - 1,
             if p[0].Normal? then b + 1 else if b == 1 then 1 else b - 1, p[1..]);
    }
  }

  /** Two different heights only fall together where the deeper walk is at the root. */
  lemma {:induction false} MeetAtRoot(a: nat, b: nat, p: seq<Component>) returns (j: nat)
    requires 1 <= a < b && Height(a, p) == Height(b, p)
    ensures j <= |p| && Height(b, p[..j]) == 1
    decreases |p|
  {
    var down := p[0].Normal?;
    var nextA := if down then a + 1 else if a == 1 then 1 else a - 1;
    var nextB := if down then b + 1 else b - 1;
    if nextB == 1 {
      assert p[..1][0] == p[0] && p[..1][1..] == [];
      j := 1;
    } else {
      j := MeetAtRoot(nextA, nextB, p[1..]);
      assert p[..j + 1][0] == p[0] && p[..j + 1][1..] == p[1..][..j];
      j := j + 1;
    }
  }

  lemma OnlyRoot(place: seq<Component>)
    requires Rooted(place)
    ensures |place| == 1 <==> place == [RootDir]
  {
  }

  lemma TwoWays(place: seq<Component>, mine: seq<Component>, p: seq<Component>)
    ensures Walk(place, mine + (Ups(|mine|) + p)) == Walk(Walk(place, mine + Ups(|mine|)), p)
  {
    Assoc(mine, Ups(|mine|), p);
    WalkAppend(place, mine + Ups(|mine|), p);
  }

  lemma StepsUps(mine: seq<Component>)
    requires Steps(mine)
    ensures Steps(mine + Ups(|mine|))
  {
  }

  /** If the wrong way and the right way end in the same place, the right way passes the root. */
  lemma EqualMeansRoot(place: seq<Component>, other: seq<Component>, p: seq<Component>) returns (j: nat)
    requires Rooted(place) && Rooted(other) && |other| < |place| && Steps(p) && Walk(other, p) == Walk(place, p)
    ensures j <= |p| && Walk(place, p[..j]) == [RootDir]
  {
    WalkRooted(other, p);
    WalkRooted(place, p);
    j := MeetAtRoot(|other|, |place|, p);
    WalkRooted(place, p[..j]);
    OnlyRoot(Walk(place, p[..j]));
  }

  /** Where the right way passes the root, the wrong way is at the root too. */
  lemma RootMeansEqual(place: seq<Component>, other: seq<Component>, p: seq<Component>, j: nat)
    requires Rooted(place) && Rooted(other) && |other| <= |place| && Steps(p)
    requires j <= |p| && Walk(place, p[..j]) == [RootDir]
    ensures Walk(other, p) == Walk(place, p)
  {
    WalkRooted(place, p[..j]);
    WalkRooted(other, p[..j]);
    Deeper(|other|, |place|, p[..j]);
    OnlyRoot(Walk(other, p[..j]));
    WalkAppend(place, p[..j], p[j..]);
    WalkAppend(other, p[..j], p[j..]);
    SplitAt(p, j);
  }

  /** From a rooted place, over a way that is not all names, back up, and on. */
  lemma RootedExactly(place: seq<Component>, mine: seq<Component>, p: seq<Component>)
    requires Rooted(place) && Steps(mine) && !Names(mine) && Steps(p)
    ensures Walk(place, mine + (Ups(|mine|) + p)) == Walk(place, p) <==> PassesRoot(place, p)
  {
    var other := Walk(place, mine + Ups(|mine|));
    TwoWays(place, mine, p);
    StepsUps(mine);
    WalkRooted(place, mine + Ups(|mine|));
    Shrinks(|place|, mine);
    OnlyRoot(place);
    OnlyRoot(other);
    if PassesRoot(place, p) {
      var j: nat :| j <= |p| && Walk(place, p[..j]) == [RootDir];
      RootMeansEqual(place, other, p, j);
    }
    if Walk(other, p) == Walk(place, p) {
      if |other| < |place| {
        var j := EqualMeansRoot(place, other, p);
      } else {
        assert p[..0] == [] && Walk(place, p[..0]) == [RootDir];
      }
    }
  }

  /** Walking a way from a place comes through the root, or starts there. */
  ghost predicate PassesRoot(place: seq<Component>, p: seq<Component>) {
    exists j: nat :: j <= |p| && Walk(place, p[..j]) == [RootDir]
  }

  /** The path resolves to the root at its `k`-th component or later. */
  ghost predicate AtRootFrom(path: seq<Component>, k: nat) {
    exists i: nat :: k <= i <= |path| && Resolve(path[..i]) == [RootDir]
  }

  lemma PassesRootMeans(path: seq<Component>, k: nat)
    requires k <= |path|
    ensures PassesRoot(Resolve(path[..k]), path[k..]) <==> AtRootFrom(path, k)
  {
    var place, p := Resolve(path[..k]), path[k..];
    if PassesRoot(place, p) {
      var j: nat :| j <= |p| && Walk(place, p[..j]) == [RootDir];
      PrefixWalk(path, k, k + j);
    }
    if AtRootFrom(path, k) {
      var i: nat :| k <= i <= |path| && Resolve(path[..i]) == [RootDir];
      PrefixWalk(path, k, i);
    }
  }

  lemma PrefixWalk(path: seq<Component>, k: nat, i: nat)
    requires k <= i <= |path|
    ensures Resolve(path[..i]) == Walk(Resolve(path[..k]), path[k..][..i - k])
  {
    assert path[..k] + path[k..][..i - k] == path[..i];
    WalkAppend([], path[..k], path[k..][..i - k]);
  }

  lemma StepsBehind(p: seq<Component>, k: nat)
    requires IsPath(p) && 1 <= k <= |p|
    ensures Steps(p[k..])
  {
    forall i | 0 <= i < |p| - k ensures p[k..][i].Normal? || p[k..][i].ParentDir? {
      assert p[k..][i] == p[k + i];
    }
  }

  lemma ResolveRooted(p: seq<Component>)
    requires IsPath(p) && Absolute(p)
    ensures Rooted(Resolve(p))
  {
    StepsBehind(p, 1);
    WalkRooted([RootDir], p[1..]);
  }

  lemma NoCurInAbsolute(p: seq<Component>)
    requires IsPath(p) && Absolute(p)
    ensures NoCur(p)
  {
    forall i | 0 <= i < |p| ensures p[i] != CurDir {
      assert i > 0 ==> p[i].Normal? || p[i].ParentDir?;
    }
  }

  lemma PrefixIsPath(p: seq<Component>, k: nat)
    requires IsPath(p) && Absolute(p) && 1 <= k <= |p|
    ensures IsPath(p[..k]) && Absolute(p[..k])
  {
  }

  /** Both absolute: the rest of the base is all names, or the rest of the path passes the root. */
  lemma AbsoluteExactly(path: seq<Component>, base: seq<Component>)
    requires IsPath(path) && IsPath(base) && Absolute(path) && Absolute(base) && Answer(path, base).Some?
    ensures var k := Shared(path, base);
            Resolve(base + Answer(path, base).value) == Resolve(path) <==> Names(base[k..]) || AtRootFrom(path, k)
  {
    var k := Shared(path, base);
    SharedRoot(path, base);
    NoCurInAbsolute(base);
    RestIs(path, base);
    AbsoluteAt(path, base, k);
  }

  lemma AbsoluteAt(path: seq<Component>, base: seq<Component>, k: nat)
    requires IsPath(path) && IsPath(base) && Absolute(path)
    requires 1 <= k <= |path| && k <= |base| && path[..k] == base[..k]
    ensures Resolve(base + (Ups(|base| - k) + path[k..])) == Resolve(path) <==> Names(base[k..]) || AtRootFrom(path, k)
  {
    if Names(base[k..]) {
      Rejoined(path, base, k);
    } else {
      PrefixIsPath(path, k);
      ResolveRooted(path[..k]);
      StepsBehind(path, k);
      StepsBehind(base, k);
      RootedExactly(Resolve(path[..k]), base[k..], path[k..]);
      PassesRootMeans(path, k);
      SharedSplit(path, base, k);
    }
  }

  lemma SharedSplit(path: seq<Component>, base: seq<Component>, k: nat)
    requires k <= |path| && k <= |base| && path[..k] == base[..k]
    ensures var (place, mine, p) := (Resolve(path[..k]), base[k..], path[k..]);
            && Resolve(base + (Ups(|base| - k) + p)) == Walk(place, mine + (Ups(|mine|) + p))
            && Resolve(path) == Walk(place, p)
  {
    var (mine, p) := (base[k..], path[k..]);
    assert base + (Ups(|base| - k) + p) == base[..k] + (mine + (Ups(|mine|) + p));
    WalkAppend([], base[..k], mine + (Ups(|mine|) + p));
    WalkAppend([], path[..k], p);
    assert path[..k] + p == path;
  }

  // ---------------------------------------------------------------- from a base that begins with `.`

  /** The loop after `.` has put the first component of the path into the result. */
  lemma RestAfterCur(c: Component, q: seq<Component>, b: seq<Component>)
    requires Steps(b) && b != []
    ensures Rest([c], q, b) == if q != [] && b[0] == ParentDir then None else Some([c] + Ups(|b|) + q)
  {
    if q == [] {
      RestUps([c], b);
      assert [c] + Ups(|b|) + [] == [c] + Ups(|b|);
    } else {
      assert b[0].Normal? || b[0].ParentDir?;
    }
  }

  lemma CurIsNothing(p: seq<Component>)
    ensures Resolve([CurDir] + p) == Resolve(p)
  {
    WalkFirst([], CurDir, p);
  }

  lemma WalkFirst(place: seq<Component>, c: Component, p: seq<Component>)
    ensures Walk(place, [c] + p) == Walk(Step(place, c), p)
  {
    assert ([c] + p)[1..] == p;
  }

  /** Some beginning of a way leads above its start. */
  ghost predicate Rises(q: seq<Component>) {
    exists i: nat :: i <= |q| && Depth(q[..i]) < 0
  }

  /** Some beginning leads more than `n` levels above the start. */
  ghost predicate RisesBy(n: nat, q: seq<Component>) {
    exists i: nat :: i <= |q| && n + Depth(q[..i]) < 0
  }

  lemma DepthFirst(c: Component, q: seq<Component>, i: nat)
    requires c.Normal? || c.ParentDir?
    requires i <= |q|
    ensures Depth(([c] + q)[..i + 1]) == (if c.Normal? then 1 else -1) + Depth(q[..i])
  {
    assert ([c] + q)[..i + 1] == [c] + q[..i];
    DepthAppend([c], q[..i]);
    assert [c][..0] == [] && Depth([c]) == Depth([]) + if c.Normal? then 1 else -1;
  }

  /** One step on a way that rises: the start cannot, what is left rises by the new level. */
  lemma RisesNext(n: nat, c: Component, q: seq<Component>)
    requires c.Normal? || (c.ParentDir? && n > 0)
    ensures RisesBy(n, [c] + q) <==> RisesBy(if c.Normal? then n + 1 else n - 1, q)
  {
    var m: nat := if c.Normal? then n + 1 else n - 1;
    var p := [c] + q;
    if RisesBy(n, p) {
      var i: nat :| i <= |p| && n + Depth(p[..i]) < 0;
      assert i > 0 by { assert p[..0] == []; }
      DepthFirst(c, q, i - 1);
      assert m + Depth(q[..i - 1]) < 0;
    }
    if RisesBy(m, q) {
      var i: nat :| i <= |q| && m + Depth(q[..i]) < 0;
      DepthFirst(c, q, i);
      assert n + Depth(p[..i + 1]) < 0;
    }
  }

  lemma RisesNow(q: seq<Component>)
    ensures RisesBy(0, [ParentDir] + q)
  {
    DepthFirst(ParentDir, q, 0);
    assert q[..0] == [];
    assert 0 + Depth(([ParentDir] + q)[..1]) < 0;
  }

  lemma StandingDoesNotRise(n: nat)
    ensures !RisesBy(n, [])
  {
    var p: seq<Component> := [];
    assert forall i: nat :: i <= |p| ==> p[..i] == [];
  }

  lemma SameStart(x: Component, y: Component, w: seq<Component>)
    ensures [x] + w == [y] + w <==> x == y
  {
    assert ([x] + w)[0] == x && ([y] + w)[0] == y;
  }

  /** The next place below a first name. */
  lemma StepBelow(x: Component, w: seq<Component>, c: Component)
    requires x.Normal? && Names(w) && (c.Normal? || c.ParentDir?)
    ensures Step([x] + w, c) == if c.Normal? then [x] + (w + [c]) else if w != [] then [x] + w[..|w| - 1] else []
  {
    if c.Normal? {
      Assoc([x], w, [c]);
    } else if w != [] {
      InitAppend([x], w);
      assert w[|w| - 1].Normal?;
    } else {
      assert [x] + w == [x] && [x][..0] == [];
    }
  }

  /** Two ways that differ in their first name only end apart, unless they come back above it. */
  lemma {:induction false} FirstNameCounts(x: Component, y: Component, w: seq<Component>, q: seq<Component>)
    requires x.Normal? && y.Normal? && Names(w) && Steps(q)
    ensures Walk([x] + w, q) == Walk([y] + w, q) <==> x == y || RisesBy(|w|, q)
    decreases |q|
  {
    if q == [] {
      StandingDoesNotRise(|w|);
      SameStart(x, y, w);
    } else {
      var c, rest := q[0], q[1..];
      assert q == [c] + rest && (c.Normal? || c.ParentDir?);
      StepBelow(x, w, c);
      StepBelow(y, w, c);
      if c.ParentDir? && w == [] {
        RisesNow(rest);
      } else {
        RisesNext(|w|, c, rest);
        FirstNameCounts(x, y, if c.Normal? then w + [c] else w[..|w| - 1], rest);
      }
    }
  }

  /** Down `b` and into `c`, up as often as `b` is long, and on: only the first name of `b` is left. */
  lemma OverNames(b: seq<Component>, c: Component, q: seq<Component>)
    requires Names(b) && b != [] && (c.Normal? || c.ParentDir?)
    ensures Resolve(b + ([c] + (Ups(|b|) + q))) == Walk([if c.Normal? then b[0] else ParentDir], q)
  {
    WalkAppend([], b, [c] + (Ups(|b|) + q));
    WalkNames([], b);
    assert [] + b == b;
    WalkFirst(b, c, Ups(|b|) + q);
    WalkAppend(Step(b, c), Ups(|b|), q);
    if c.Normal? { UpFromBelow(b, c); } else { UpFromAbove(b); }
  }

  lemma UpFromBelow(b: seq<Component>, c: Component)
    requires Names(b) && b != [] && c.Normal?
    ensures Walk(b + [c], Ups(|b|)) == [b[0]]
  {
    var below := b[1..] + [c];
    assert [b[0]] + b[1..] == b;
    Assoc([b[0]], b[1..], [c]);
    NamesAfterFirst(b, c);
    assert |below| == |b|;
    WalkUps([b[0]], below);
  }

  lemma NamesAfterFirst(b: seq<Component>, c: Component)
    requires Names(b) && b != [] && c.Normal?
    ensures Names(b[1..] + [c])
  {
  }

  lemma UpFromAbove(b: seq<Component>)
    requires Names(b) && b != []
    ensures Walk(Step(b, ParentDir), Ups(|b|)) == [ParentDir]
  {
    var n := |b| - 1;
    assert [] + b[..n] == b[..n];
    WalkUps([], b[..n]);
    UpsSplit(n);
    WalkAppend(b[..n], Ups(n), [ParentDir]);
    WalkFirst([], ParentDir, []);
    assert [ParentDir] + [] == [ParentDir];
  }

  lemma {:induction false} UpsSplit(n: nat)
    ensures Ups(n + 1) == Ups(n) + [ParentDir]
  {
    if n > 0 {
      UpsSplit(n - 1);
      assert [ParentDir] + (Ups(n - 1) + [ParentDir]) == ([ParentDir] + Ups(n - 1)) + [ParentDir];
    }
  }

  lemma JoinedDepth(b: seq<Component>, c: Component, q: seq<Component>)
    ensures Depth(b + ([c] + (Ups(|b|) + q))) == Depth(b) + Depth([c]) - |b| + Depth(q)
    ensures Depth([c] + q) == Depth([c]) + Depth(q)
  {
    DepthAppend(b, [c] + (Ups(|b|) + q));
    DepthAppend([c], Ups(|b|) + q);
    DepthAppend(Ups(|b|), q);
    DepthAppend([c], q);
    DepthUps(|b|);
  }

  lemma NoRootConcat(p: seq<Component>, q: seq<Component>)
    requires NoRoot(p) && NoRoot(q)
    ensures NoRoot(p + q)
  {
  }

  lemma NoRootJoinedCur(b: seq<Component>, c: Component, q: seq<Component>)
    requires Steps(b) && Steps([c] + q)
    ensures NoRoot(b + ([c] + (Ups(|b|) + q))) && NoRoot([c] + q) && NoRoot([])
  {
    StepsHaveNoRoot(b);
    StepsHaveNoRoot([c] + q);
    NoRootParts([c], q);
    NoRootConcat(Ups(|b|), q);
    NoRootConcat([c], Ups(|b|) + q);
    NoRootConcat(b, [c] + (Ups(|b|) + q));
  }

  lemma StepsHaveNoRoot(p: seq<Component>)
    requires Steps(p)
    ensures NoRoot(p)
  {
    forall i | 0 <= i < |p| ensures p[i] != RootDir {
      assert p[i].Normal? || p[i].ParentDir?;
    }
  }

  lemma StepsHaveNoCur(p: seq<Component>)
    requires Steps(p)
    ensures NoCur(p)
  {
    forall i | 0 <= i < |p| ensures p[i] != CurDir {
      assert p[i].Normal? || p[i].ParentDir?;
    }
  }

  lemma NoRootParts(p: seq<Component>, q: seq<Component>)
    requires NoRoot(p + q)
    ensures NoRoot(p) && NoRoot(q)
  {
    assert forall i :: 0 <= i < |p| ==> (p + q)[i] == p[i];
    assert forall i :: 0 <= i < |q| ==> (p + q)[|p| + i] == q[i];
  }

  /** With a base `.` + `b` the first component of the path comes before the `..`s. */
  lemma SwappedExactly(b: seq<Component>, c: Component, q: seq<Component>)
    requires Steps(b) && b != [] && Steps([c] + q)
    ensures Resolve(b + ([c] + (Ups(|b|) + q))) == Resolve([c] + q) <==>
            Names(b) && (c == ParentDir || b[0] == c || Rises(q))
  {
    assert ([c] + q)[0] == c;
    if Names(b) {
      OverNames(b, c, q);
      WalkFirst([], c, q);
      if c.Normal? { FirstOfBase(b[0], c, q); }
    } else {
      NoRootJoinedCur(b, c, q);
      JoinedDepth(b, c, q);
      DepthBound(b);
      WalkDepth([], b + ([c] + (Ups(|b|) + q)));
      WalkDepth([], [c] + q);
    }
  }

  lemma FirstOfBase(x: Component, c: Component, q: seq<Component>)
    requires x.Normal? && c.Normal? && Steps([c] + q)
    ensures Walk([x], q) == Walk([] + [c], q) <==> x == c || Rises(q)
  {
    assert forall i :: 0 <= i < |q| ==> ([c] + q)[i + 1] == q[i];
    assert [] + [c] == [c] && [x] + [] == [x] && [c] + [] == [c];
    FirstNameCounts(x, c, [], q);
    RisesByZero(q);
  }

  lemma RisesByZero(q: seq<Component>)
    ensures RisesBy(0, q) <==> Rises(q)
  {
    if RisesBy(0, q) {
      var i: nat :| i <= |q| && 0 + Depth(q[..i]) < 0;
      assert Depth(q[..i]) < 0;
    }
    if Rises(q) {
      var i: nat :| i <= |q| && Depth(q[..i]) < 0;
      assert 0 + Depth(q[..i]) < 0;
    }
  }

  /** A base that begins with `.`, case by case. */
  ghost predicate CurLeadsBackWhen(path: seq<Component>, b: seq<Component>) {
    if path == [] then false
    else if path[0] == CurDir then Names(b[Shared(path[1..], b)..])
    else b == [] || (Names(b) && (path[0] == ParentDir || b[0] == path[0] || Rises(path[1..])))
  }

  lemma RestFromCur(path: seq<Component>, base: seq<Component>)
    requires path != [] && base != [] && base[0] == CurDir
    ensures Rest([], path, base) ==
            if path[0] == CurDir then Rest([], path[1..], base[1..]) else Rest([path[0]], path[1..], base[1..])
  {
    assert [] + [path[0]] == [path[0]];
  }

  lemma CurExactly(path: seq<Component>, base: seq<Component>)
    requires IsPath(path) && !Absolute(path) && IsPath(base) && base != [] && base[0] == CurDir
    requires Answer(path, base).Some?
    ensures Resolve(base + Answer(path, base).value) == Resolve(path) <==> CurLeadsBackWhen(path, base[1..])
  {
    var b, r := base[1..], Answer(path, base).value;
    StepsBehind(base, 1);
    assert base + r == [CurDir] + (b + r);
    CurIsNothing(b + r);
    if path == [] {
      CurToNothing(b);
      RestUps([], base);
      assert [] + Ups(|base|) == Ups(|base|);
    } else {
      StepsBehind(path, 1);
      assert [path[0]] + path[1..] == path;
      RestFromCur(path, base);
      if path[0] == CurDir {
        CurIsNothing(path[1..]);
        CurShared(path[1..], b);
      } else if b != [] {
        CurSwapped(path, b, r);
      } else {
        assert b + r == path;
      }
    }
  }

  lemma CurSwapped(path: seq<Component>, b: seq<Component>, r: seq<Component>)
    requires path != [] && Steps(path) && Steps(b) && b != [] && Rest([path[0]], path[1..], b) == Some(r)
    ensures Resolve(b + r) == Resolve(path) <==>
            Names(b) && (path[0] == ParentDir || b[0] == path[0] || Rises(path[1..]))
  {
    var c, q := path[0], path[1..];
    assert path == [c] + q;
    RestAfterCur(c, q, b);
    Assoc([c], Ups(|b|), q);
    SwappedExactly(b, c, q);
  }

  lemma CurToNothing(b: seq<Component>)
    requires Steps(b)
    ensures Resolve(b + Ups(|b| + 1)) != []
  {
    assert NoRoot(b + Ups(|b| + 1)) && NoRoot([]);
    WalkDepth([], b + Ups(|b| + 1));
    DepthAppend(b, Ups(|b| + 1));
    DepthUps(|b| + 1);
    DepthBound(b);
  }

  /** Both begin with `.`: as without it. */
  lemma CurShared(q: seq<Component>, b: seq<Component>)
    requires Steps(q) && Steps(b) && Rest([], q, b).Some?
    ensures Resolve(b + Rest([], q, b).value) == Resolve(q) <==> Names(b[Shared(q, b)..])
  {
    StepsHaveNoRoot(q);
    StepsHaveNoRoot(b);
    StepsHaveNoCur(b);
    RestIs(q, b);
    ExactAt(q, b, Shared(q, b));
  }

  // ---------------------------------------------------------------- all paths and bases

  /**
   When appending the result to the base leads to the path.  An absolute path always does from a relative
   base.  Otherwise the base must have only names after what it shares with the path, unless the path goes
   through the root afterwards; a leading `.` of the base shifts the result by one component.
   */
  ghost predicate LeadsBackWhen(path: seq<Component>, base: seq<Component>) {
    if Absolute(path) && !Absolute(base) then true
    else if Absolute(path) then Names(base[Shared(path, base)..]) || AtRootFrom(path, Shared(path, base))
    else if base != [] && base[0] == CurDir then CurLeadsBackWhen(path, base[1..])
    else Names(base[Shared(path, base)..])
  }

  /** The exact condition, for every path and every base that has a result. */
  lemma LeadsBackExactly(path: seq<Component>, base: seq<Component>)
    requires IsPath(path) && IsPath(base) && Answer(path, base).Some?
    ensures Resolve(base + Answer(path, base).value) == Resolve(path) <==> LeadsBackWhen(path, base)
  {
    if Absolute(path) {
      if Absolute(base) { AbsoluteExactly(path, base); } else { RootForgets(base, path); }
    } else if base != [] && base[0] == CurDir {
      CurExactly(path, base);
    } else {
      NoRootOrCur(path, base);
      RelativeExactly(path, base);
    }
  }

  lemma NoRootOrCur(path: seq<Component>, base: seq<Component>)
    requires IsPath(path) && !Absolute(path) && IsPath(base) && !Absolute(base) && (base == [] || base[0] != CurDir)
    ensures NoRoot(path) && NoRoot(base) && NoCur(base)
  {
    forall i | 0 <= i < |path| ensures path[i] != RootDir {
      assert i > 0 ==> path[i].Normal? || path[i].ParentDir?;
    }
    forall i | 0 <= i < |base| ensures base[i] != RootDir && base[i] != CurDir {
      assert i > 0 ==> base[i].Normal? || base[i].ParentDir?;
    }
  }

  /** When there is no result at all: a relative path from an absolute base, or a `..` that would have to be undone. */
  lemma NoAnswerExactly(path: seq<Component>, base: seq<Component>)
    requires IsPath(path) && IsPath(base)
    ensures Answer(path, base).None? <==>
            if Absolute(path) != Absolute(base) then Absolute(base)
            else if base != [] && base[0] == CurDir && path != [] && path[0] != CurDir then
              |path| > 1 && |base| > 1 && base[1] == ParentDir
            else var k := Shared(path, base); k < |path| && k < |base| && base[k] == ParentDir
  {
    if Absolute(path) == Absolute(base) {
      if base != [] && base[0] == CurDir {
        NoAnswerFromCur(path, base);
      } else {
        if Absolute(base) { NoCurInAbsolute(base); } else { NoRootOrCur(path, base); }
        RestIs(path, base);
      }
    }
  }

  lemma NoAnswerFromCur(path: seq<Component>, base: seq<Component>)
    requires IsPath(base) && base != [] && base[0] == CurDir
    ensures Rest([], path, base).None? <==>
            if path != [] && path[0] != CurDir then |path| > 1 && |base| > 1 && base[1] == ParentDir
            else var k := Shared(path, base); k < |path| && k < |base| && base[k] == ParentDir
  {
    StepsBehind(base, 1);
    if path == [] {
      RestUps([], base);
    } else {
      RestFromCur(path, base);
      if path[0] == CurDir {
        StepsHaveNoCur(base[1..]);
        RestIs(path[1..], base[1..]);
      } else if |base| > 1 {
        RestAfterCur(path[0], path[1..], base[1..]);
      }
    }
  }
}
