/**
 Relative paths (`crates/pkgcraft/src/utils.rs`): the path from a base directory to a path, and when
 appending it to the base leads to the path.
 */
module Relpath {
  import opened Wrappers

  /** What splitting a path yields; a root only comes first, and `.` only first in a relative path. */
  datatype Component = RootDir | CurDir | ParentDir | Normal(name: string)

  predicate Absolute(p: seq<Component>) {
    p != [] && p[0] == RootDir
  }

  function Ups(n: nat): (r: seq<Component>)
    ensures |r| == n && forall i :: 0 <= i < n ==> r[i] == ParentDir
  {
    if n == 0 then [] else [ParentDir] + Ups(n - 1)
  }

  /** The loop of `relpath` on what is left of the path and the base. */
  function Rest(comps: seq<Component>, path: seq<Component>, base: seq<Component>): Option<seq<Component>>
    decreases |path| + |base|
  {
    if base == [] then Some(comps + path)
    else if path == [] then Rest(comps + [ParentDir], [], base[1..])
    else if comps == [] && path[0] == base[0] then Rest(comps, path[1..], base[1..])
    else if base[0] == CurDir then Rest(comps + [path[0]], path[1..], base[1..])
    else if base[0] == ParentDir then None
    else Some(comps + Ups(|base|) + path)
  }

  /** What `relpath` returns. */
  function Answer(path: seq<Component>, base: seq<Component>): Option<seq<Component>> {
    if Absolute(path) == Absolute(base) then Rest([], path, base) else if Absolute(path) then Some(path) else None
  }

  method Relpath(path: seq<Component>, base: seq<Component>) returns (r: Option<seq<Component>>)
    ensures r == Answer(path, base)
  {
    if Absolute(path) != Absolute(base) {
      return if Absolute(path) then Some(path) else None;
    }
    var i, j, comps := 0, 0, [];
    while i < |path| || j < |base|
      invariant i <= |path| && j <= |base| && Rest([], path, base) == Rest(comps, path[i..], base[j..])
      decreases |path| - i + |base| - j
    {
      assert i < |path| ==> path[i..] == [path[i]] + path[i + 1..] && path[i..][1..] == path[i + 1..];
      assert j < |base| ==> base[j..] == [base[j]] + base[j + 1..] && base[j..][1..] == base[j + 1..];
      if j == |base| {
        assert comps + path[i..] == comps + [path[i]] + path[i + 1..];
        return Some(comps + [path[i]] + path[i + 1..]);
      } else if i == |path| {
        comps, j := comps + [ParentDir], j + 1;
      } else if comps == [] && path[i] == base[j] {
        i, j := i + 1, j + 1;
      } else if base[j] == CurDir {
        comps, i, j := comps + [path[i]], i + 1, j + 1;
      } else if base[j] == ParentDir {
        return None;
      } else {
        assert Rest(comps, path[i..], base[j..]) == Some(comps + Ups(|base| - j) + path[i..]);
        assert comps + Ups(|base| - j) + path[i..] ==
               comps + [ParentDir] + Ups(|base| - j - 1) + [path[i]] + path[i + 1..];
        comps := comps + [ParentDir];
        comps := comps + Ups(|base| - j - 1);
        return Some(comps + [path[i]] + path[i + 1..]);
      }
    }
    assert comps + path[i..] == comps;
    r := Some(comps);
  }

  // ---------------------------------------------------------------- what a path leads to

  /** One step from a place; `..` at the root stays there. */
  function Step(place: seq<Component>, c: Component): seq<Component> {
    match c
    case RootDir => [RootDir]
    case CurDir => place
    case Normal(_) => place + [c]
    case ParentDir =>
      if place == [] then [ParentDir] else
        match place[|place| - 1]
        case Normal(_) => place[..|place| - 1]
        case RootDir => place
        case _ => place + [ParentDir]
  }

  function Walk(place: seq<Component>, p: seq<Component>): seq<Component>
    decreases |p|
  {
    if p == [] then place else Walk(Step(place, p[0]), p[1..])
  }

  /** A path with every `.` dropped and every `..` cancelled where something is in front of it. */
  function Resolve(p: seq<Component>): seq<Component> {
    Walk([], p)
  }

  lemma {:induction false} WalkAppend(place: seq<Component>, p: seq<Component>, q: seq<Component>)
    ensures Walk(place, p + q) == Walk(Walk(place, p), q)
    decreases |p|
  {
    if p == [] {
      assert p + q == q;
    } else {
      assert (p + q)[1..] == p[1..] + q;
      WalkAppend(Step(place, p[0]), p[1..], q);
    }
  }

  ghost predicate Names(p: seq<Component>) {
    forall i :: 0 <= i < |p| ==> p[i].Normal?
  }

  /** No `.` and no `..`: an optional root, then names. */
  ghost predicate DotFree(p: seq<Component>) {
    Names(if Absolute(p) then p[1..] else p)
  }

  lemma {:induction false} WalkNames(place: seq<Component>, p: seq<Component>)
    requires Names(p)
    ensures Walk(place, p) == place + p
    decreases |p|
  {
    if p != [] {
      WalkNames(place + [p[0]], p[1..]);
      assert place + p == (place + [p[0]]) + p[1..];
    }
  }

  lemma {:induction false} WalkUps(place: seq<Component>, p: seq<Component>)
    requires Names(p)
    ensures Walk(place + p, Ups(|p|)) == place
  {
    if p == [] {
      assert place + p == place;
    } else {
      var n := |p| - 1;
      assert (place + p)[..|place| + n] == place + p[..n] && Ups(|p|)[1..] == Ups(n);
      WalkUps(place, p[..n]);
    }
  }

  // ---------------------------------------------------------------- what relpath returns

  /** How many components two paths share in front. */
  function Shared(p: seq<Component>, b: seq<Component>): (k: nat)
    ensures k <= |p| && k <= |b| && p[..k] == b[..k]
    ensures k < |p| && k < |b| ==> p[k] != b[k]
  {
    if p == [] || b == [] || p[0] != b[0] then 0 else 1 + Shared(p[1..], b[1..])
  }

  ghost predicate NoCur(p: seq<Component>) {
    forall i :: 0 <= i < |p| ==> p[i] != CurDir
  }

  lemma {:induction false} RestUps(comps: seq<Component>, base: seq<Component>)
    ensures Rest(comps, [], base) == Some(comps + Ups(|base|))
    decreases |base|
  {
    if base != [] {
      RestUps(comps + [ParentDir], base[1..]);
      assert comps + Ups(|base|) == comps + [ParentDir] + Ups(|base| - 1);
    }
  }

  /** The result for a base without `.`: one `..` for every component not shared, then the rest of the path. */
  lemma {:induction false} RestIs(path: seq<Component>, base: seq<Component>)
    requires NoCur(base)
    ensures var k := Shared(path, base);
            Rest([], path, base) ==
            if k < |path| && k < |base| && base[k] == ParentDir then None else Some(Ups(|base| - k) + path[k..])
    decreases |path| + |base|
  {
    if base == [] {
      assert Ups(0) + path[0..] == path;
    } else if path == [] {
      RestUps([], base);
      assert [] + Ups(|base|) == Ups(|base|) + path[0..];
    } else if path[0] == base[0] {
      RestIs(path[1..], base[1..]);
      var k := Shared(path[1..], base[1..]);
      assert path[1..][k..] == path[k + 1..];
    } else {
      assert [] + Ups(|base|) + path == Ups(|base| - 0) + path[0..];
    }
  }

  lemma NamesBehind(p: seq<Component>, k: nat)
    requires DotFree(p) && k <= |p| && (Absolute(p) ==> k >= 1)
    ensures Names(p[k..])
  {
    forall i | 0 <= i < |p| - k ensures p[k..][i].Normal? {
      assert p[k..][i] == p[k + i];
      if Absolute(p) { assert p[1..][k + i - 1] == p[k + i]; }
    }
  }

  lemma DotFreeHasNoCur(p: seq<Component>)
    requires DotFree(p)
    ensures NoCur(p)
  {
    forall i | 0 <= i < |p| ensures p[i] != CurDir {
      if Absolute(p) && i > 0 { assert p[1..][i - 1] == p[i]; }
    }
  }

  /** From a base without dots, the names of the base that are not shared are undone one by one. */
  lemma AnswerIs(path: seq<Component>, base: seq<Component>)
    requires DotFree(base) && Absolute(path) == Absolute(base)
    ensures var k := Shared(path, base);
            Names(base[k..]) && Answer(path, base) == Some(Ups(|base| - k) + path[k..])
  {
    var k := Shared(path, base);
    DotFreeHasNoCur(base);
    RestIs(path, base);
    SharedRoot(path, base);
    NamesBehind(base, k);
    assert k < |base| ==> base[k..][0] == base[k];
  }

  lemma SharedRoot(path: seq<Component>, base: seq<Component>)
    requires Absolute(path) == Absolute(base)
    ensures Absolute(base) ==> Shared(path, base) >= 1
  {
  }

  lemma Rejoined(path: seq<Component>, base: seq<Component>, k: nat)
    requires k <= |path| && k <= |base| && path[..k] == base[..k] && Names(base[k..])
    ensures Resolve(base + (Ups(|base| - k) + path[k..])) == Resolve(path)
  {
    OutAndBack(base[..k], base[k..], path[k..]);
    assert base[..k] + base[k..] == base && base[..k] + path[k..] == path;
  }

  /**
   From a base without `.` and `..`: there is a relative path unless only the base is absolute, and
   appending it to the base leads where the path leads.
   */
  lemma RelpathLeadsBack(path: seq<Component>, base: seq<Component>)
    requires DotFree(base)
    ensures Answer(path, base).None? <==> Absolute(base) && !Absolute(path)
    ensures Answer(path, base).Some? ==> Resolve(base + Answer(path, base).value) == Resolve(path)
  {
    if Absolute(path) == Absolute(base) {
      AnswerIs(path, base);
      Rejoined(path, base, Shared(path, base));
    } else if Absolute(path) {
      RootForgets(base, path);
    }
  }

  lemma RootForgets(base: seq<Component>, path: seq<Component>)
    requires Absolute(path)
    ensures Resolve(base + path) == Resolve(path)
  {
    WalkAppend([], base, path);
  }

  lemma OutAndBack(common: seq<Component>, names: seq<Component>, p: seq<Component>)
    requires Names(names)
    ensures Resolve((common + names) + (Ups(|names|) + p)) == Resolve(common + p)
  {
    assert (common + names) + (Ups(|names|) + p) == common + (names + (Ups(|names|) + p));
    WalkAppend([], common, names + (Ups(|names|) + p));
    BackAndForth(Walk([], common), names, p);
    WalkAppend([], common, p);
  }

  lemma BackAndForth(place: seq<Component>, names: seq<Component>, p: seq<Component>)
    requires Names(names)
    ensures Walk(place, names + (Ups(|names|) + p)) == Walk(place, p)
  {
    WalkAppend(place, names, Ups(|names|) + p);
    WalkNames(place, names);
    WalkAppend(place + names, Ups(|names|), p);
    WalkUps(place, names);
  }

  // ---------------------------------------------------------------- relative paths from any base without `.`

  /** How far below its start a relative path leads; negative above it. */
  function Depth(p: seq<Component>): int {
    if p == [] then 0 else
      var n := |p| - 1;
      Depth(p[..n]) + match p[n] case Normal(_) => 1 case ParentDir => -1 case _ => 0
  }

  ghost predicate NoRoot(p: seq<Component>) {
    forall i :: 0 <= i < |p| ==> p[i] != RootDir
  }

  lemma {:induction false} DepthAppend(p: seq<Component>, q: seq<Component>)
    ensures Depth(p + q) == Depth(p) + Depth(q)
  {
    if q == [] {
      assert p + q == p;
    } else {
      assert (p + q)[..|p + q| - 1] == p + q[..|q| - 1];
      DepthAppend(p, q[..|q| - 1]);
    }
  }

  lemma {:induction false} WalkDepth(place: seq<Component>, p: seq<Component>)
    requires NoRoot(place) && NoRoot(p)
    ensures Depth(Walk(place, p)) == Depth(place) + Depth(p)
    decreases |p|
  {
    if p != [] {
      DepthAppend([p[0]], p[1..]);
      assert [p[0]] + p[1..] == p && [p[0]][..0] == [];
      assert Depth([p[0]]) == Depth([]) + match p[0] case Normal(_) => 1 case ParentDir => -1 case _ => 0;
      DepthAppend(place, [p[0]]);
      WalkDepth(Step(place, p[0]), p[1..]);
    }
  }

  lemma {:induction false} DepthUps(n: nat)
    ensures Depth(Ups(n)) == 0 - n
  {
    if n > 0 {
      assert Ups(n)[..n - 1] == Ups(n - 1);
      DepthUps(n - 1);
    }
  }

  lemma {:induction false} DepthBound(p: seq<Component>)
    ensures Depth(p) <= |p|
    ensures Depth(p) == |p| <==> Names(p)
  {
    if p != [] {
      DepthBound(p[..|p| - 1]);
    }
  }

  /**
   For a relative path and a relative base without `.`, the result leads back to the path exactly when
   the base has only names after the components it shares with the path.
   */
  lemma RelativeExactly(path: seq<Component>, base: seq<Component>)
    requires NoRoot(path) && NoRoot(base) && NoCur(base) && Answer(path, base).Some?
    ensures Resolve(base + Answer(path, base).value) == Resolve(path) <==> Names(base[Shared(path, base)..])
  {
    RestIs(path, base);
    ExactAt(path, base, Shared(path, base));
  }

  lemma ExactAt(path: seq<Component>, base: seq<Component>, k: nat)
    requires NoRoot(path) && NoRoot(base) && k <= |path| && k <= |base| && path[..k] == base[..k]
    ensures Resolve(base + (Ups(|base| - k) + path[k..])) == Resolve(path) <==> Names(base[k..])
  {
    if Names(base[k..]) {
      Rejoined(path, base, k);
    } else {
      assert base[..k] + base[k..] == base && base[..k] + path[k..] == path;
      WrongDepth(base[..k], base[k..], path[k..]);
    }
  }

  lemma WrongDepth(common: seq<Component>, mine: seq<Component>, p: seq<Component>)
    requires NoRoot(common + mine) && NoRoot(p) && NoRoot(common + p) && !Names(mine)
    ensures Resolve((common + mine) + (Ups(|mine|) + p)) != Resolve(common + p)
  {
    NoRootJoined(common, mine, p);
    DepthJoined(common, mine, p);
    DepthBound(mine);
    WalkDepth([], (common + mine) + (Ups(|mine|) + p));
    WalkDepth([], common + p);
  }

  lemma NoRootJoined(common: seq<Component>, mine: seq<Component>, p: seq<Component>)
    requires NoRoot(common + mine) && NoRoot(p)
    ensures NoRoot((common + mine) + (Ups(|mine|) + p))
  {
  }

  lemma DepthJoined(common: seq<Component>, mine: seq<Component>, p: seq<Component>)
    ensures Depth((common + mine) + (Ups(|mine|) + p)) == Depth(common) + Depth(mine) - |mine| + Depth(p)
    ensures Depth(common + p) == Depth(common) + Depth(p)
  {
    DepthAppend(common + mine, Ups(|mine|) + p);
    DepthAppend(common, mine);
    DepthAppend(Ups(|mine|), p);
    DepthAppend(common, p);
    DepthUps(|mine|);
  }

  /** With `.` as the base, the result leads one directory too far up. */
  lemma CurrentDirectoryAsBase()
    ensures Answer([], [CurDir]) == Some([ParentDir])
    ensures Resolve([CurDir] + [ParentDir]) != Resolve([])
  {
    RestUps([], [CurDir]);
    assert [] + Ups(1) == [ParentDir];
    assert ([CurDir] + [ParentDir])[1..] == [ParentDir] && [ParentDir][1..] == [];
    assert Walk([], [CurDir] + [ParentDir]) == Walk([], [ParentDir]) == Walk([ParentDir], []);
  }

  lemma Resolved(p: seq<Component>)
    requires DotFree(p)
    ensures Resolve(p) == p
  {
    if Absolute(p) {
      WalkNames([RootDir], p[1..]);
      assert [RootDir] + p[1..] == p;
    } else {
      WalkNames([], p);
    }
  }
}
