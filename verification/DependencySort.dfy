/**
 `Dependency::sort` (`crates/pkgcraft/src/dep/dependency.rs`): all-of and conditional groups are sorted
 from the inside out, choice groups and everything in them are left alone.  The order of dependencies is
 a parameter; `DependencyOrder` has the derived one.
 */
module DependencySort {
  import opened DependencyTree

  type Order<!T> = (Dependency<T>, Dependency<T>) -> bool

  ghost predicate IsOrder<T(!new)>(leq: Order<T>) {
    && (forall a, b :: leq(a, b) || leq(b, a))
    && (forall a, b, c :: leq(a, b) && leq(b, c) ==> leq(a, c))
  }

  function Insert<T>(leq: Order<T>, d: Dependency<T>, s: seq<Dependency<T>>): seq<Dependency<T>> {
    if s == [] || leq(d, s[0]) then [d] + s else [s[0]] + Insert(leq, d, s[1..])
  }

  /** The stable sort of `itertools::sorted`. */
  function Arrange<T>(leq: Order<T>, s: seq<Dependency<T>>): seq<Dependency<T>> {
    if s == [] then [] else Insert(leq, s[0], Arrange(leq, s[1..]))
  }

  function Sort<T(==)>(leq: Order<T>, d: Dependency<T>): Dependency<T>
    decreases d, 1
  {
    if d.Leaf() || d.Choice() then d else d.(vals := Dedup(Arrange(leq, SortAll(leq, d.vals))))
  }

  function SortAll<T(==)>(leq: Order<T>, ds: seq<Dependency<T>>): (r: seq<Dependency<T>>)
    ensures |r| == |ds| && forall i :: 0 <= i < |ds| ==> r[i] == Sort(leq, ds[i])
    decreases ds, 0
  {
    if ds == [] then [] else [Sort(leq, ds[0])] + SortAll(leq, ds[1..])
  }

  // ---------------------------------------------------------------- rearranging a list

  lemma {:induction false} InsertKeepsBag<T>(leq: Order<T>, d: Dependency<T>, s: seq<Dependency<T>>)
    ensures multiset(Insert(leq, d, s)) == multiset{d} + multiset(s)
  {
    if s != [] && !leq(d, s[0]) {
      InsertKeepsBag(leq, d, s[1..]);
      assert s == [s[0]] + s[1..];
    }
  }

  lemma {:induction false} ArrangeKeepsBag<T>(leq: Order<T>, s: seq<Dependency<T>>)
    ensures multiset(Arrange(leq, s)) == multiset(s)
  {
    if s != [] {
      ArrangeKeepsBag(leq, s[1..]);
      InsertKeepsBag(leq, s[0], Arrange(leq, s[1..]));
      assert s == [s[0]] + s[1..];
    }
  }

  ghost predicate Ascending<T>(leq: Order<T>, s: seq<Dependency<T>>) {
    forall i, j :: 0 <= i < j < |s| ==> leq(s[i], s[j])
  }

  lemma {:induction false} InsertAscends<T(!new)>(leq: Order<T>, d: Dependency<T>, s: seq<Dependency<T>>)
    requires IsOrder(leq) && Ascending(leq, s)
    ensures Ascending(leq, Insert(leq, d, s))
  {
    if s == [] {
    } else if leq(d, s[0]) {
      forall j | 0 <= j < |s| ensures leq(d, s[j]) {
        assert leq(s[0], s[j]) || j == 0;
      }
    } else {
      var t := Insert(leq, d, s[1..]);
      InsertAscends(leq, d, s[1..]);
      InsertKeepsBag(leq, d, s[1..]);
      assert leq(s[0], d);
      forall j | 0 <= j < |t| ensures leq(s[0], t[j]) {
        assert t[j] in multiset(t);
        assert t[j] == d || t[j] in s[1..];
      }
    }
  }

  lemma {:induction false} ArrangeAscends<T(!new)>(leq: Order<T>, s: seq<Dependency<T>>)
    requires IsOrder(leq)
    ensures Ascending(leq, Arrange(leq, s))
  {
    if s != [] {
      ArrangeAscends(leq, s[1..]);
      InsertAscends(leq, s[0], Arrange(leq, s[1..]));
    }
  }

  lemma {:induction false} ArrangeIsFixed<T>(leq: Order<T>, s: seq<Dependency<T>>)
    requires Ascending(leq, s)
    ensures Arrange(leq, s) == s
  {
    if s != [] {
      ArrangeIsFixed(leq, s[1..]);
      assert s == [s[0]] + s[1..];
    }
  }

  lemma {:induction false} DedupAscends<T>(leq: Order<T>, s: seq<Dependency<T>>)
    requires Ascending(leq, s)
    ensures Ascending(leq, Dedup(s))
  {
    if s != [] {
      var n := |s| - 1;
      DedupAscends(leq, s[..n]);
      DedupDistinct(s[..n]);
      var kept := Dedup(s[..n]);
      forall i | 0 <= i < |kept| ensures leq(kept[i], s[n]) {
        assert kept[i] in s[..n];
      }
    }
  }

  // ---------------------------------------------------------------- sorting a tree

  /** The keys in two lists that hold the same dependencies. */
  lemma KeysOfBag<T>(a: seq<Dependency<T>>, b: seq<Dependency<T>>)
    requires multiset(a) == multiset(b)
    ensures (set k | k in Keys(a)) == (set k | k in Keys(b))
  {
    KeysInBag(a, b);
    KeysInBag(b, a);
  }

  lemma KeysInBag<T>(a: seq<Dependency<T>>, b: seq<Dependency<T>>)
    requires multiset(a) == multiset(b)
    ensures forall k :: k in Keys(a) ==> k in Keys(b)
  {
    forall k | k in Keys(a) ensures k in Keys(b) {
      var i :| 0 <= i < |a| && Keys(a)[i] == k;
      assert a[i] in multiset(b);
      var j :| 0 <= j < |b| && b[j] == a[i];
      assert Keys(b)[j] == k;
    }
  }

  lemma KeysOfDedup<T>(ds: seq<Dependency<T>>)
    ensures (set k | k in Keys(Dedup(ds))) == (set k | k in Keys(ds))
  {
    DedupDistinct(ds);
    forall k | k in Keys(Dedup(ds)) ensures k in Keys(ds) {
      var i :| 0 <= i < |Dedup(ds)| && Keys(Dedup(ds))[i] == k;
      assert Dedup(ds)[i] in ds;
      var j :| 0 <= j < |ds| && ds[j] == Dedup(ds)[i];
      assert Keys(ds)[j] == k;
    }
    forall k | k in Keys(ds) ensures k in Keys(Dedup(ds)) {
      var i :| 0 <= i < |ds| && Keys(ds)[i] == k;
      DedupCovers(ds, ds[i]);
      var e :| e in Dedup(ds) && Same(e, ds[i]);
      var j :| 0 <= j < |Dedup(ds)| && Dedup(ds)[j] == e;
      assert Keys(Dedup(ds))[j] == k;
    }
  }

  lemma GroupIsSame<T>(d: Dependency<T>, vals: seq<Dependency<T>>)
    requires !d.Leaf() && !d.Choice() && (set k | k in Keys(vals)) == (set k | k in Keys(d.vals))
    ensures Same(d.(vals := vals), d)
  {
    assert TagOf(d.(vals := vals)) == TagOf(d);
  }

  /** A sorted tree compares equal to the tree it came from. */
  lemma {:induction false} SortIsSame<T>(leq: Order<T>, d: Dependency<T>)
    ensures Same(Sort(leq, d), d)
    decreases d, 1
  {
    if !d.Leaf() && !d.Choice() {
      var all := SortAll(leq, d.vals);
      var sorted := Arrange(leq, all);
      SortAllIsSame(leq, d.vals);
      ArrangeKeepsBag(leq, all);
      KeysOfBag(sorted, all);
      KeysOfDedup(sorted);
      GroupIsSame(d, Dedup(sorted));
    }
  }

  lemma {:induction false} SortAllIsSame<T>(leq: Order<T>, ds: seq<Dependency<T>>)
    ensures Keys(SortAll(leq, ds)) == Keys(ds)
    decreases ds, 0
  {
    if ds != [] {
      SortIsSame(leq, ds[0]);
      SortAllIsSame(leq, ds[1..]);
      assert SortAll(leq, ds)[1..] == SortAll(leq, ds[1..]);
    }
  }

  /** Every all-of and conditional group outside choice groups is in order. */
  ghost predicate InOrder<T>(leq: Order<T>, d: Dependency<T>)
    decreases d, 1
  {
    d.Leaf() || d.Choice() || (Ascending(leq, d.vals) && InOrderAll(leq, d.vals))
  }

  ghost predicate InOrderAll<T>(leq: Order<T>, ds: seq<Dependency<T>>)
    decreases ds, 0
  {
    ds == [] || (InOrder(leq, ds[0]) && InOrderAll(leq, ds[1..]))
  }

  lemma {:induction false} InOrderMeans<T>(leq: Order<T>, ds: seq<Dependency<T>>)
    ensures InOrderAll(leq, ds) <==> forall d :: d in ds ==> InOrder(leq, d)
  {
    if ds != [] {
      InOrderMeans(leq, ds[1..]);
      assert ds[0] in ds;
      assert forall d :: d in ds <==> d == ds[0] || d in ds[1..];
    }
  }

  /** After sorting, the tree is in order at every depth outside choice groups. */
  lemma {:induction false} SortOrders<T(!new)>(leq: Order<T>, d: Dependency<T>)
    requires IsOrder(leq)
    ensures InOrder(leq, Sort(leq, d))
    decreases d, 1
  {
    if !d.Leaf() && !d.Choice() {
      SortAllOrders(leq, d.vals);
      var all := SortAll(leq, d.vals);
      var sorted := Arrange(leq, all);
      ArrangeAscends(leq, all);
      DedupAscends(leq, sorted);
      ArrangeKeepsBag(leq, all);
      DedupDistinct(sorted);
      InOrderMeans(leq, all);
      InOrderMeans(leq, Dedup(sorted));
      assert forall e :: e in sorted ==> e in multiset(sorted);
    }
  }

  lemma {:induction false} SortAllOrders<T(!new)>(leq: Order<T>, ds: seq<Dependency<T>>)
    requires IsOrder(leq)
    ensures InOrderAll(leq, SortAll(leq, ds))
    decreases ds, 0
  {
    if ds != [] {
      SortOrders(leq, ds[0]);
      SortAllOrders(leq, ds[1..]);
      assert SortAll(leq, ds)[1..] == SortAll(leq, ds[1..]);
    }
  }

  /** The source's sets never hold two equal members; here for the groups that are sorted. */
  ghost predicate Sets<T>(d: Dependency<T>)
    decreases d, 1
  {
    d.Leaf() || d.Choice() || (Distinct(d.vals) && SetsAll(d.vals))
  }

  ghost predicate SetsAll<T>(ds: seq<Dependency<T>>)
    decreases ds, 0
  {
    ds == [] || (Sets(ds[0]) && SetsAll(ds[1..]))
  }

  lemma {:induction false} SetsMeans<T>(ds: seq<Dependency<T>>)
    ensures SetsAll(ds) <==> forall d :: d in ds ==> Sets(d)
  {
    if ds != [] {
      SetsMeans(ds[1..]);
      assert ds[0] in ds;
      assert forall d :: d in ds <==> d == ds[0] || d in ds[1..];
    }
  }

  /** Sorting yields sets even where it started from lists with equal members. */
  lemma {:induction false} SortYieldsSets<T>(leq: Order<T>, d: Dependency<T>)
    ensures Sets(Sort(leq, d))
    decreases d, 1
  {
    if !d.Leaf() && !d.Choice() {
      SortAllYieldsSets(leq, d.vals);
      var all := SortAll(leq, d.vals);
      var sorted := Arrange(leq, all);
      ArrangeKeepsBag(leq, all);
      DedupDistinct(sorted);
      SetsMeans(all);
      SetsMeans(Dedup(sorted));
      assert forall e :: e in sorted ==> e in multiset(sorted);
    }
  }

  lemma {:induction false} SortAllYieldsSets<T>(leq: Order<T>, ds: seq<Dependency<T>>)
    ensures SetsAll(SortAll(leq, ds))
    decreases ds, 0
  {
    if ds != [] {
      SortYieldsSets(leq, ds[0]);
      SortAllYieldsSets(leq, ds[1..]);
      assert SortAll(leq, ds)[1..] == SortAll(leq, ds[1..]);
    }
  }

  /** A tree of sets that is in order stays as it is. */
  lemma {:induction false} InOrderIsFixed<T>(leq: Order<T>, d: Dependency<T>)
    requires InOrder(leq, d) && Sets(d)
    ensures Sort(leq, d) == d
    decreases d, 1
  {
    if !d.Leaf() && !d.Choice() {
      InOrderAllIsFixed(leq, d.vals);
      ArrangeIsFixed(leq, d.vals);
      DedupKeeps(d.vals);
    }
  }

  lemma {:induction false} InOrderAllIsFixed<T>(leq: Order<T>, ds: seq<Dependency<T>>)
    requires InOrderAll(leq, ds) && SetsAll(ds)
    ensures SortAll(leq, ds) == ds
    decreases ds, 0
  {
    if ds != [] {
      InOrderIsFixed(leq, ds[0]);
      InOrderAllIsFixed(leq, ds[1..]);
    }
  }

  lemma SortIsIdempotent<T(!new)>(leq: Order<T>, d: Dependency<T>)
    requires IsOrder(leq)
    ensures Sort(leq, Sort(leq, d)) == Sort(leq, d)
  {
    SortOrders(leq, d);
    SortYieldsSets(leq, d);
    InOrderIsFixed(leq, Sort(leq, d));
  }

  // ---------------------------------------------------------------- what sorting keeps

  /** The leaves and choice groups that sorting moves around, each as a whole. */
  ghost function Blocks<T>(d: Dependency<T>): multiset<Dependency<T>>
    decreases d, 1
  {
    if d.Leaf() || d.Choice() then multiset{d} else BlocksAll(d.vals)
  }

  ghost function BlocksAll<T>(ds: seq<Dependency<T>>): multiset<Dependency<T>>
    decreases ds, 0
  {
    if ds == [] then multiset{} else Blocks(ds[0]) + BlocksAll(ds[1..])
  }

  lemma {:induction false} InsertBlocks<T>(leq: Order<T>, d: Dependency<T>, s: seq<Dependency<T>>)
    ensures BlocksAll(Insert(leq, d, s)) == Blocks(d) + BlocksAll(s)
  {
    if s != [] && !leq(d, s[0]) {
      InsertBlocks(leq, d, s[1..]);
    }
  }

  lemma {:induction false} ArrangeBlocks<T>(leq: Order<T>, s: seq<Dependency<T>>)
    ensures BlocksAll(Arrange(leq, s)) == BlocksAll(s)
  {
    if s != [] {
      ArrangeBlocks(leq, s[1..]);
      InsertBlocks(leq, s[0], Arrange(leq, s[1..]));
    }
  }

  lemma {:induction false} DistinctInsert<T>(leq: Order<T>, d: Dependency<T>, s: seq<Dependency<T>>)
    requires Distinct(s) && forall e :: e in s ==> !Same(d, e)
    ensures Distinct(Insert(leq, d, s))
  {
    if s == [] || leq(d, s[0]) {
      assert forall j :: 0 <= j < |s| ==> s[j] in s;
    } else {
      DistinctInsert(leq, d, s[1..]);
      InsertKeepsBag(leq, d, s[1..]);
      var t := Insert(leq, d, s[1..]);
      forall j | 0 <= j < |t| ensures !Same(s[0], t[j]) {
        assert t[j] in multiset(t);
        assert t[j] == d || t[j] in s[1..];
        assert s[0] in s;
      }
    }
  }

  lemma {:induction false} DistinctArrange<T>(leq: Order<T>, s: seq<Dependency<T>>)
    requires Distinct(s)
    ensures Distinct(Arrange(leq, s))
  {
    if s != [] {
      var rest := Arrange(leq, s[1..]);
      DistinctArrange(leq, s[1..]);
      ArrangeKeepsBag(leq, s[1..]);
      forall e | e in rest ensures !Same(s[0], e) {
        assert e in multiset(rest);
        assert e in s[1..];
      }
      DistinctInsert(leq, s[0], rest);
    }
  }

  /** The members of a set stay distinct while they are sorted, so collecting them drops none. */
  lemma NothingDropped<T>(leq: Order<T>, ds: seq<Dependency<T>>)
    requires Distinct(ds)
    ensures Dedup(Arrange(leq, SortAll(leq, ds))) == Arrange(leq, SortAll(leq, ds))
  {
    var all := SortAll(leq, ds);
    SortAllIsSame(leq, ds);
    assert forall i :: 0 <= i < |all| ==> KeyOf(all[i]) == Keys(all)[i] == KeyOf(ds[i]);
    DistinctArrange(leq, all);
    DedupKeeps(Arrange(leq, all));
  }

  lemma GroupBlocks<T>(d: Dependency<T>, vals: seq<Dependency<T>>)
    requires !d.Leaf() && !d.Choice() && BlocksAll(vals) == BlocksAll(d.vals)
    ensures Blocks(d.(vals := vals)) == Blocks(d)
  {
  }

  /**
   Sorting a tree of sets neither loses nor copies a leaf or a choice group, and leaves every choice
   group exactly as it was.
   */
  lemma {:induction false} SortKeepsBlocks<T>(leq: Order<T>, d: Dependency<T>)
    requires Sets(d)
    ensures Blocks(Sort(leq, d)) == Blocks(d)
    decreases d, 1
  {
    if !d.Leaf() && !d.Choice() {
      var all := SortAll(leq, d.vals);
      SortAllKeepsBlocks(leq, d.vals);
      NothingDropped(leq, d.vals);
      ArrangeBlocks(leq, all);
      GroupBlocks(d, Arrange(leq, all));
    }
  }

  lemma {:induction false} SortAllKeepsBlocks<T>(leq: Order<T>, ds: seq<Dependency<T>>)
    requires SetsAll(ds)
    ensures BlocksAll(SortAll(leq, ds)) == BlocksAll(ds)
    decreases ds, 0
  {
    if ds != [] {
      SortKeepsBlocks(leq, ds[0]);
      SortAllKeepsBlocks(leq, ds[1..]);
      assert SortAll(leq, ds)[1..] == SortAll(leq, ds[1..]);
    }
  }

  /** Nor does it lose or copy a value in a leaf, at whatever depth. */
  lemma {:induction false} SortKeepsLeaves<T>(leq: Order<T>, d: Dependency<T>)
    requires Sets(d)
    ensures multiset(Leaves(Sort(leq, d))) == multiset(Leaves(d))
    decreases d, 1
  {
    if !d.Leaf() && !d.Choice() {
      var all := SortAll(leq, d.vals);
      SortAllKeepsLeaves(leq, d.vals);
      NothingDropped(leq, d.vals);
      ArrangeLeaves(leq, all);
    }
  }

  lemma {:induction false} SortAllKeepsLeaves<T>(leq: Order<T>, ds: seq<Dependency<T>>)
    requires SetsAll(ds)
    ensures multiset(LeavesAll(SortAll(leq, ds))) == multiset(LeavesAll(ds))
    decreases ds, 0
  {
    if ds != [] {
      SortKeepsLeaves(leq, ds[0]);
      SortAllKeepsLeaves(leq, ds[1..]);
      assert SortAll(leq, ds)[1..] == SortAll(leq, ds[1..]);
    }
  }

  lemma {:induction false} InsertLeaves<T>(leq: Order<T>, d: Dependency<T>, s: seq<Dependency<T>>)
    ensures multiset(LeavesAll(Insert(leq, d, s))) == multiset(Leaves(d)) + multiset(LeavesAll(s))
  {
    if s != [] && !leq(d, s[0]) {
      InsertLeaves(leq, d, s[1..]);
    }
  }

  lemma {:induction false} ArrangeLeaves<T>(leq: Order<T>, s: seq<Dependency<T>>)
    ensures multiset(LeavesAll(Arrange(leq, s))) == multiset(LeavesAll(s))
  {
    if s != [] {
      ArrangeLeaves(leq, s[1..]);
      InsertLeaves(leq, s[0], Arrange(leq, s[1..]));
    }
  }
}
