/**
 Walking a bash parse tree (`crates/pkgcraft/src/bash.rs`): the recursive iterator that drives a tree
 cursor, remembers the nodes it has left upwards, and does not enter nodes of skipped kinds.
 */
module BashWalk {
  import opened Wrappers
  import opened Paths

  /** A parse tree; the parser gives every node of a tree its own id. */
  datatype Node = Node(id: nat, kind: string, children: seq<Node>)

  // ---------------------------------------------------------------- the cursor

  /** A place in a tree: the nodes from the root to the current one, and each one's place in its parent. */
  datatype Cursor = Cursor(spine: seq<Node>, places: seq<nat>) {
    ghost predicate Valid() {
      && |spine| == |places| + 1
      && forall i :: 0 <= i < |places| ==> places[i] < |spine[i].children| && spine[i + 1] == spine[i].children[places[i]]
    }

    function Current(): Node
      requires Valid()
    {
      spine[|places|]
    }

    function FirstChild(): (r: Option<Cursor>)
      requires Valid()
      ensures r.Some? ==> r.value.Valid()
    {
      if Current().children == [] then None
      else Some(Cursor(spine + [Current().children[0]], places + [0]))
    }

    function NextSibling(): (r: Option<Cursor>)
      requires Valid()
      ensures r.Some? ==> r.value.Valid()
    {
      if places == [] then None else
        var n := |places| - 1;
        var parent, next := spine[n], places[n] + 1;
        if next == |parent.children| then None
        else Some(Cursor(spine[..n + 1] + [parent.children[next]], places[..n] + [next]))
    }

    function Parent(): (r: Option<Cursor>)
      requires Valid()
      ensures r.Some? ==> r.value.Valid()
    {
      if places == [] then None else Some(Cursor(spine[..|places|], places[..|places| - 1]))
    }
  }

  // ---------------------------------------------------------------- the walk

  /** A node and everything under it, except under nodes of skipped kinds; parents first, left to right. */
  function Walk(skip: set<string>, t: Node): seq<Node>
    decreases t, 1
  {
    [t] + Below(skip, t)
  }

  function Below(skip: set<string>, t: Node): seq<Node>
    decreases t, 0
  {
    if t.kind in skip then [] else WalkAll(skip, t.children)
  }

  function WalkAll(skip: set<string>, ts: seq<Node>): seq<Node>
    decreases ts, 0
  {
    if ts == [] then [] else Walk(skip, ts[0]) + WalkAll(skip, ts[1..])
  }

  /** What comes after the subtree under the cursor. */
  ghost function After(skip: set<string>, c: Cursor): seq<Node>
    requires c.Valid()
    decreases |c.places|
  {
    if c.places == [] then [] else
      var n := |c.places| - 1;
      WalkAll(skip, c.spine[n].children[c.places[n] + 1..]) + After(skip, c.Parent().value)
  }

  /** No two nodes have the same id. */
  ghost predicate Distinct(nodes: seq<Node>) {
    forall i, j :: 0 <= i < j < |nodes| ==> nodes[i].id != nodes[j].id
  }

  /** Every node of the tree has its own id. */
  ghost predicate Unique(t: Node) {
    Distinct(Walk({}, t))
  }

  // ---------------------------------------------------------------- ids stay apart

  /** A list of nodes without two equal ids keeps that when a stretch of it is cut out. */
  lemma CutKeepsApart(a: seq<Node>, cut: seq<Node>, rest: seq<Node>)
    requires Distinct(a + cut + rest)
    ensures Distinct(a + rest)
    ensures forall m, n :: m in a && n in rest ==> m.id != n.id
  {
    var long, short := a + cut + rest, a + rest;
    assert forall i :: 0 <= i < |a| ==> long[i] == a[i];
    assert forall j :: 0 <= j < |rest| ==> long[|a| + |cut| + j] == rest[j];
    forall i, j | 0 <= i < j < |short| ensures short[i].id != short[j].id {
      var x := if i < |a| then i else i + |cut|;
      var y := if j < |a| then j else j + |cut|;
      assert long[x] == short[i] && long[y] == short[j];
    }
  }

  /** The cursor moves to `m`, past `cut`, leaving the tail of its spine behind. */
  lemma Advanced(spine: seq<Node>, k: nat, cut: seq<Node>, m: Node, rest: seq<Node>)
    requires k <= |spine| && Distinct(spine + (cut + [m] + rest))
    ensures Distinct(spine[..k] + [m] + rest)
  {
    assert spine + (cut + [m] + rest) == spine[..k] + (spine[k..] + cut) + ([m] + rest);
    CutKeepsApart(spine[..k], spine[k..] + cut, [m] + rest);
    assert spine[..k] + ([m] + rest) == spine[..k] + [m] + rest;
  }

  /** The cursor moves up, past `cut`. */
  lemma Retreated(spine: seq<Node>, k: nat, cut: seq<Node>, rest: seq<Node>)
    requires 0 < k <= |spine| && Distinct(spine + (cut + rest))
    ensures Distinct(spine[..k] + rest)
    ensures forall n :: n in rest ==> spine[k - 1].id != n.id
  {
    assert spine + (cut + rest) == spine[..k] + (spine[k..] + cut) + rest;
    CutKeepsApart(spine[..k], spine[k..] + cut, rest);
    assert spine[k - 1] in spine[..k];
  }

  // ---------------------------------------------------------------- the iterator

  /** What the walk still returns from a cursor, given the nodes it has left upwards. */
  ghost function Pending(skip: set<string>, c: Cursor, seen: set<nat>): seq<Node>
    requires c.Valid()
  {
    (if c.Current().id in seen then [] else Below(skip, c.Current())) + After(skip, c)
  }

  /** Nothing ahead of the cursor has the id of a node above it or of a node left upwards. */
  ghost predicate Apart(c: Cursor, seen: set<nat>)
    requires c.Valid()
  {
    && Distinct(c.spine + Pending({}, c, seen))
    && forall n :: n in Pending({}, c, seen) ==> n.id !in seen
  }

  class IterRecursive {
    var cursor: Cursor
    const skip: set<string>
    var seen: set<nat>

    ghost predicate Valid()
      reads this
    {
      cursor.Valid() && Apart(cursor, seen)
    }

    /** The nodes the iterator has yet to return. */
    ghost function Remaining(): seq<Node>
      requires Valid()
      reads this
    {
      Pending(skip, cursor, seen)
    }

    constructor (root: Node, skip: set<string>)
      requires Unique(root)
      ensures Valid() && Remaining() == Below(skip, root) && this.skip == skip
    {
      this.cursor, this.skip, this.seen := Cursor([root], []), skip, {};
      new;
      assert cursor.spine + Pending({}, cursor, seen) == Walk({}, root);
    }

    method Next() returns (r: Option<Node>)
      requires Valid()
      modifies this
      ensures Valid()
      ensures old(Remaining()) == (if r.Some? then [r.value] else []) + Remaining()
      ensures r.None? ==> Remaining() == []
    {
      while true
        invariant Valid() && Remaining() == old(Remaining())
        decreases |cursor.places|
      {
        var node := cursor.Current();
        var down := if node.id !in seen && node.kind !in skip then cursor.FirstChild() else None;
        var next := if down.Some? then down else cursor.NextSibling();
        if next.Some? {
          if down.Some? { DownMoves(skip, cursor, seen); } else { AcrossMoves(skip, cursor, seen); }
          cursor := next.value;
          return Some(cursor.Current());
        }
        var up := cursor.Parent();
        UpMoves(skip, cursor, seen);
        if up.None? { return None; }
        cursor := up.value;
        seen := seen + {cursor.Current().id};
      }
    }
  }

  // ---------------------------------------------------------------- what each cursor move does

  lemma AfterDown(skip: set<string>, c: Cursor)
    requires c.Valid() && c.FirstChild().Some?
    ensures var d := c.FirstChild().value;
            WalkAll(skip, c.Current().children) + After(skip, c) == [d.Current()] + (Below(skip, d.Current()) + After(skip, d))
  {
    var d := c.FirstChild().value;
    var n := |c.places|;
    assert d.spine[n] == c.Current() && d.spine[n + 1] == d.Current();
    assert d.Parent().value == c by {
      assert d.spine[..n + 1] == c.spine && d.places[..n] == c.places;
    }
    assert After(skip, d) == WalkAll(skip, c.Current().children[1..]) + After(skip, c);
  }

  lemma AfterAcross(skip: set<string>, c: Cursor)
    requires c.Valid() && c.NextSibling().Some?
    ensures var d := c.NextSibling().value;
            After(skip, c) == [d.Current()] + (Below(skip, d.Current()) + After(skip, d))
  {
    var d := c.NextSibling().value;
    var n := |c.places| - 1;
    assert d.spine[n] == c.spine[n] && d.spine[n + 1] == d.Current();
    assert d.Parent().value == c.Parent().value by {
      assert d.spine[..n + 1] == c.spine[..n + 1] && d.places[..n] == c.places[..n];
    }
    var rest := c.spine[n].children[c.places[n] + 1..];
    assert rest[0] == d.Current() && rest[1..] == d.spine[n].children[d.places[n] + 1..];
    assert After(skip, d) == WalkAll(skip, rest[1..]) + After(skip, c.Parent().value);
    assert After(skip, c) == WalkAll(skip, rest) + After(skip, c.Parent().value);
  }

  lemma AfterUp(skip: set<string>, c: Cursor)
    requires c.Valid() && c.Parent().Some? && c.NextSibling().None?
    ensures After(skip, c) == After(skip, c.Parent().value)
  {
    var n := |c.places| - 1;
    assert c.spine[n].children[c.places[n] + 1..] == [];
  }

  /** A cursor that moves on to the node after some of what is ahead still has nothing known ahead. */
  lemma StaysApart(c: Cursor, seen: set<nat>, k: nat, cut: seq<Node>, d: Cursor)
    requires c.Valid() && Apart(c, seen) && d.Valid() && k <= |c.spine| && d.spine == c.spine[..k] + [d.Current()]
    requires Pending({}, c, seen) == cut + [d.Current()] + (Below({}, d.Current()) + After({}, d))
    ensures Apart(d, seen) && d.Current().id !in seen
  {
    var rest := Below({}, d.Current()) + After({}, d);
    Advanced(c.spine, k, cut, d.Current(), rest);
    assert d.Current() in Pending({}, c, seen);
    assert Pending({}, d, seen) == rest;
    assert forall n :: n in rest ==> n in Pending({}, c, seen);
  }

  lemma EntersChild(c: Cursor, seen: set<nat>)
    requires c.Valid() && c.Current().id !in seen && c.FirstChild().Some?
    ensures var d := c.FirstChild().value;
            && d.spine == c.spine[..|c.spine|] + [d.Current()]
            && Pending({}, c, seen) == [] + [d.Current()] + (Below({}, d.Current()) + After({}, d))
  {
    AfterDown({}, c);
    assert c.spine[..|c.spine|] == c.spine;
  }

  /** Entering a child returns it. */
  lemma DownMoves(skip: set<string>, c: Cursor, seen: set<nat>)
    requires c.Valid() && Apart(c, seen)
    requires c.Current().id !in seen && c.Current().kind !in skip && c.FirstChild().Some?
    ensures var d := c.FirstChild().value;
            Pending(skip, c, seen) == [d.Current()] + Pending(skip, d, seen) && Apart(d, seen)
  {
    var d := c.FirstChild().value;
    AfterDown(skip, c);
    EntersChild(c, seen);
    StaysApart(c, seen, |c.spine|, [], d);
  }

  /** Going to the next sibling returns it. */
  lemma AcrossMoves(skip: set<string>, c: Cursor, seen: set<nat>)
    requires c.Valid() && Apart(c, seen) && c.NextSibling().Some?
    requires c.Current().id in seen || c.Current().kind in skip || c.FirstChild().None?
    ensures var d := c.NextSibling().value;
            Pending(skip, c, seen) == [d.Current()] + Pending(skip, d, seen) && Apart(d, seen)
  {
    var d := c.NextSibling().value;
    var cut := if c.Current().id in seen then [] else Below({}, c.Current());
    AfterAcross({}, c);
    AfterAcross(skip, c);
    NothingBelow(skip, c, seen);
    assert cut + ([d.Current()] + (Below({}, d.Current()) + After({}, d))) == cut + [d.Current()] + (Below({}, d.Current()) + After({}, d));
    StaysApart(c, seen, |c.places|, cut, d);
  }

  lemma NothingBelow(skip: set<string>, c: Cursor, seen: set<nat>)
    requires c.Valid()
    requires c.Current().id in seen || c.Current().kind in skip || c.FirstChild().None?
    ensures Pending(skip, c, seen) == After(skip, c)
  {
    assert c.Current().children == [] ==> WalkAll(skip, c.Current().children) == [];
    assert [] + After(skip, c) == After(skip, c);
  }

  /** With neither a child to enter nor a sibling left, going up and leaving the node there loses nothing. */
  lemma UpMoves(skip: set<string>, c: Cursor, seen: set<nat>)
    requires c.Valid() && Apart(c, seen) && c.NextSibling().None?
    requires c.Current().id in seen || c.Current().kind in skip || c.FirstChild().None?
    ensures c.Parent().None? ==> Pending(skip, c, seen) == []
    ensures c.Parent().Some? ==>
              var u, left := c.Parent().value, seen + {c.Parent().value.Current().id};
              Pending(skip, u, left) == Pending(skip, c, seen) && Apart(u, left)
  {
    NothingBelow(skip, c, seen);
    if c.Parent().Some? {
      var u := c.Parent().value;
      AfterUp({}, c);
      AfterUp(skip, c);
      NothingBelow(skip, u, seen + {u.Current().id});
      NothingBelow({}, u, seen + {u.Current().id});
      Retreated(c.spine, |c.places|, if c.Current().id in seen then [] else Below({}, c.Current()), After({}, c));
    }
  }

  // ---------------------------------------------------------------- what the walk returns

  /** The nodes reached from `t` through nodes of other than skipped kinds, by their places below `t`. */
  ghost predicate Reaches(skip: set<string>, t: Node, path: seq<nat>, n: Node)
    decreases |path|
  {
    if path == [] then t == n
    else t.kind !in skip && path[0] < |t.children| && Reaches(skip, t.children[path[0]], path[1..], n)
  }

  ghost predicate Reachable(skip: set<string>, t: Node, n: Node) {
    exists path :: Reaches(skip, t, path, n)
  }

  /** The walk returns exactly the nodes with no node of a skipped kind above them. */
  lemma WalkIsReachable(skip: set<string>, t: Node, n: Node)
    ensures n in Walk(skip, t) <==> Reachable(skip, t, n)
  {
    if path :| Reaches(skip, t, path, n) { ReachedIsWalked(skip, t, path, n); }
    if n in Walk(skip, t) {
      var path := WalkedIsReached(skip, t, n);
      assert Reaches(skip, t, path, n);
    }
  }

  ghost function WalkPaths(skip: set<string>, t: Node): seq<seq<nat>>
    decreases t, 1
  {
    [[]] + if t.kind in skip then [] else WalkPathsFrom(skip, 0, t.children)
  }

  ghost function WalkPathsFrom(skip: set<string>, k: nat, ts: seq<Node>): seq<seq<nat>>
    decreases ts, 0
  {
    if ts == [] then [] else Under(k, WalkPaths(skip, ts[0])) + WalkPathsFrom(skip, k + 1, ts[1..])
  }

  lemma {:induction false} WalkPathsAscend(skip: set<string>, t: Node)
    ensures Ascending(WalkPaths(skip, t))
    decreases t, 1
  {
    if t.kind !in skip { WalkPathsFromAscend(skip, 0, t.children); }
  }

  lemma {:induction false} WalkPathsFromAscend(skip: set<string>, k: nat, ts: seq<Node>)
    ensures Ascending(WalkPathsFrom(skip, k, ts)) && From(k, WalkPathsFrom(skip, k, ts))
    decreases ts, 0
  {
    if ts != [] {
      WalkPathsAscend(skip, ts[0]);
      WalkPathsFromAscend(skip, k + 1, ts[1..]);
      UnderThenMore(k, WalkPaths(skip, ts[0]), WalkPathsFrom(skip, k + 1, ts[1..]));
    }
  }

  lemma {:induction false} WalkAt(skip: set<string>, t: Node)
    ensures |WalkPaths(skip, t)| == |Walk(skip, t)|
    ensures forall i :: 0 <= i < |WalkPaths(skip, t)| ==> Reaches(skip, t, WalkPaths(skip, t)[i], Walk(skip, t)[i])
    decreases t, 1
  {
    if t.kind !in skip {
      WalkAllAt(skip, 0, t.children);
      forall i | 0 < i < |WalkPaths(skip, t)| ensures Reaches(skip, t, WalkPaths(skip, t)[i], Walk(skip, t)[i]) {
        assert ReachesFrom(skip, 0, t.children, WalkPathsFrom(skip, 0, t.children)[i - 1], WalkAll(skip, t.children)[i - 1]);
      }
    }
  }

  ghost predicate ReachesFrom(skip: set<string>, k: nat, ts: seq<Node>, path: seq<nat>, n: Node) {
    path != [] && k <= path[0] < k + |ts| && Reaches(skip, ts[path[0] - k], path[1..], n)
  }

  lemma {:induction false} WalkAllAt(skip: set<string>, k: nat, ts: seq<Node>)
    ensures |WalkPathsFrom(skip, k, ts)| == |WalkAll(skip, ts)|
    ensures forall i :: 0 <= i < |WalkPathsFrom(skip, k, ts)| ==>
                          ReachesFrom(skip, k, ts, WalkPathsFrom(skip, k, ts)[i], WalkAll(skip, ts)[i])
    decreases ts, 0
  {
    if ts != [] {
      WalkAt(skip, ts[0]);
      WalkAllAt(skip, k + 1, ts[1..]);
      var n, paths, nodes := |WalkPaths(skip, ts[0])|, WalkPathsFrom(skip, k, ts), WalkAll(skip, ts);
      forall i | 0 <= i < |paths| ensures ReachesFrom(skip, k, ts, paths[i], nodes[i]) {
        if i < n {
          assert paths[i] == Under(k, WalkPaths(skip, ts[0]))[i] && nodes[i] == Walk(skip, ts[0])[i];
        } else {
          assert paths[i] == WalkPathsFrom(skip, k + 1, ts[1..])[i - n] && nodes[i] == WalkAll(skip, ts[1..])[i - n];
          assert ReachesFrom(skip, k + 1, ts[1..], paths[i], nodes[i]);
        }
      }
    }
  }

  /** The walk goes through the tree by ascending paths: every node before those under it, left to right. */
  lemma WalkInOrder(skip: set<string>, t: Node) returns (paths: seq<seq<nat>>)
    ensures |paths| == |Walk(skip, t)| && Ascending(paths)
    ensures forall i :: 0 <= i < |paths| ==> Reaches(skip, t, paths[i], Walk(skip, t)[i])
  {
    paths := WalkPaths(skip, t);
    WalkPathsAscend(skip, t);
    WalkAt(skip, t);
  }

  lemma {:induction false} ReachedIsWalked(skip: set<string>, t: Node, path: seq<nat>, n: Node)
    requires Reaches(skip, t, path, n)
    ensures n in Walk(skip, t)
    decreases |path|
  {
    if path != [] {
      ReachedIsWalked(skip, t.children[path[0]], path[1..], n);
      WalkOfMember(skip, t.children, path[0], n);
      assert Walk(skip, t) == [t] + WalkAll(skip, t.children);
    }
  }

  lemma {:induction false} WalkOfMember(skip: set<string>, ts: seq<Node>, i: nat, n: Node)
    requires i < |ts| && n in Walk(skip, ts[i])
    ensures n in WalkAll(skip, ts)
  {
    if i > 0 { WalkOfMember(skip, ts[1..], i - 1, n); }
  }

  lemma {:induction false} WalkedIsReached(skip: set<string>, t: Node, n: Node) returns (path: seq<nat>)
    requires n in Walk(skip, t)
    ensures Reaches(skip, t, path, n)
    decreases t, 1
  {
    if n == t {
      path := [];
    } else {
      assert Walk(skip, t) == [t] + Below(skip, t) && t.kind !in skip;
      var i, rest := WalkedInMember(skip, t.children, n);
      path := [i] + rest;
      assert path[1..] == rest;
    }
  }

  lemma {:induction false} WalkedInMember(skip: set<string>, ts: seq<Node>, n: Node) returns (i: nat, path: seq<nat>)
    requires n in WalkAll(skip, ts)
    ensures i < |ts| && Reaches(skip, ts[i], path, n)
    decreases ts, 0
  {
    if n in Walk(skip, ts[0]) {
      i := 0;
      path := WalkedIsReached(skip, ts[0], n);
    } else {
      i, path := WalkedInMember(skip, ts[1..], n);
      i := i + 1;
    }
  }

  /** Skipping only removes nodes: the walk is what is left of the full walk after cutting stretches out. */
  lemma {:induction false} WalkIsApart(skip: set<string>, t: Node, before: seq<Node>, after: seq<Node>)
    requires Distinct(before + Walk({}, t) + after)
    ensures Distinct(before + Walk(skip, t) + after)
    decreases t, 1
  {
    var full := Below({}, t);
    assert before + Walk({}, t) + after == (before + [t]) + full + after;
    if t.kind in skip {
      CutKeepsApart(before + [t], full, after);
      assert before + Walk(skip, t) + after == (before + [t]) + after;
    } else {
      WalkAllIsApart(skip, t.children, before + [t], after);
      assert before + Walk(skip, t) + after == (before + [t]) + WalkAll(skip, t.children) + after;
    }
  }

  lemma {:induction false} WalkAllIsApart(skip: set<string>, ts: seq<Node>, before: seq<Node>, after: seq<Node>)
    requires Distinct(before + WalkAll({}, ts) + after)
    ensures Distinct(before + WalkAll(skip, ts) + after)
    decreases ts, 0
  {
    if ts != [] {
      var rest := WalkAll({}, ts[1..]);
      assert before + WalkAll({}, ts) + after == before + Walk({}, ts[0]) + (rest + after);
      WalkIsApart(skip, ts[0], before, rest + after);
      var first := Walk(skip, ts[0]);
      assert before + first + (rest + after) == (before + first) + rest + after;
      WalkAllIsApart(skip, ts[1..], before + first, after);
      assert before + WalkAll(skip, ts) + after == (before + first) + WalkAll(skip, ts[1..]) + after;
    }
  }

  /** No id is walked past twice. */
  lemma EachOnce(skip: set<string>, root: Node)
    requires Unique(root)
    ensures Distinct(Below(skip, root))
  {
    assert [] + Walk({}, root) + [] == Walk({}, root) && [] + Walk(skip, root) + [] == Walk(skip, root);
    WalkIsApart(skip, root, [], []);
    assert Walk(skip, root) == [] + [root] + Below(skip, root);
    CutKeepsApart([], [root], Below(skip, root));
    assert [] + Below(skip, root) == Below(skip, root);
  }

  /**
   All that repeated calls return for a tree: its walk without the root, no node twice, and nothing
   more after the end.
   */
  method Nodes(root: Node, skip: set<string>) returns (nodes: seq<Node>)
    requires Unique(root)
    ensures nodes == Walk(skip, root)[1..]
    ensures Distinct(nodes)
  {
    var iter := new IterRecursive(root, skip);
    nodes := [];
    while true
      invariant iter.Valid() && fresh(iter) && nodes + iter.Remaining() == Below(skip, root)
      decreases |iter.Remaining()|
    {
      var r := iter.Next();
      if r.None? {
        assert nodes + [] == nodes;
        break;
      }
      Assoc(nodes, [r.value], iter.Remaining());
      nodes := nodes + [r.value];
    }
    EachOnce(skip, root);
  }
}
