/** Places in a tree, as paths of child numbers from the root, and their order. */
module Paths {
  /** A place comes before what is under it, and left comes before right. */
  predicate Before(p: seq<nat>, q: seq<nat>) {
    q != [] && (p == [] || p[0] < q[0] || (p[0] == q[0] && Before(p[1..], q[1..])))
  }

  ghost predicate Ascending(paths: seq<seq<nat>>) {
    forall i, j :: 0 <= i < j < |paths| ==> Before(paths[i], paths[j])
  }

  function Under(k: nat, paths: seq<seq<nat>>): (r: seq<seq<nat>>)
    ensures |r| == |paths| && forall i :: 0 <= i < |paths| ==> r[i] == [k] + paths[i] && r[i][1..] == paths[i]
  {
    seq(|paths|, i requires 0 <= i < |paths| => [k] + paths[i])
  }

  lemma InUnder(k: nat, paths: seq<seq<nat>>, path: seq<nat>)
    requires path != [] && path[0] == k && path[1..] in paths
    ensures path in Under(k, paths)
  {
    var i :| 0 <= i < |paths| && paths[i] == path[1..];
    assert Under(k, paths)[i] == [k] + path[1..] == path;
  }

  /** Paths that begin at place `k` or later. */
  ghost predicate From(k: nat, paths: seq<seq<nat>>) {
    forall i :: 0 <= i < |paths| ==> paths[i] != [] && paths[i][0] >= k
  }

  lemma UnderThenMore(k: nat, a: seq<seq<nat>>, b: seq<seq<nat>>)
    requires Ascending(a) && Ascending(b) && From(k + 1, b)
    ensures Ascending(Under(k, a) + b) && From(k, Under(k, a) + b)
  {
    var all, n := Under(k, a) + b, |a|;
    forall i, j | 0 <= i < j < |all| ensures Before(all[i], all[j]) {
      if j < n {
        assert all[i] == [k] + a[i] && all[j] == [k] + a[j] && Before(a[i], a[j]);
      } else if i < n {
        assert all[i] == [k] + a[i] && all[j] == b[j - n];
      } else {
        assert all[i] == b[i - n] && all[j] == b[j - n];
      }
    }
  }
}
