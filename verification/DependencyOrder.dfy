/**
 The derived order of dependencies (`crates/pkgcraft/src/dep/dependency.rs`), where sorted sets are
 compared by their sorted members (`crates/pkgcraft/src/types/sorted_set.rs`) and ordered sets as they
 are.  The comparison sorts and the sorting compares; this is a total order all the same, and its
 equality is `Same`.
 */
module DependencyOrder {
  import opened Wrappers
  import opened DependencyTree
  import opened DependencySort

  type Compare<!T> = (T, T) -> Ordering

  /** What `Ord` asks of the values in the leaves. */
  ghost predicate Lawful<T(!new)>(c: Compare<T>) {
    && (forall x, y :: c(x, y) == Equal <==> x == y)
    && (forall x, y :: c(y, x) == c(x, y).Flip())
    && (forall x, y, z :: c(x, y) != Greater && c(y, z) != Greater ==> c(x, z) != Greater)
  }

  /** Strings are lawful, and so are numbers. */
  lemma StringsAreLawful()
    ensures Lawful<string>((x, y) => CmpString(x, y)) && Lawful<int>((x, y) => CmpInt(x, y))
  {
    var c: Compare<string> := (x, y) => CmpString(x, y);
    forall x, y ensures (c(x, y) == Equal <==> x == y) && c(y, x) == c(x, y).Flip() { StringLaws(x, y, x); }
    forall x, y, z | c(x, y) != Greater && c(y, z) != Greater ensures c(x, z) != Greater { StringLaws(x, y, z); }
  }

  // ---------------------------------------------------------------- a node without its members

  datatype Label<T> = LeafLabel(on: bool, val: T) | GroupLabel(tag: Tag)

  function LabelOf<T>(d: Dependency<T>): Label<T> {
    if d.Leaf() then LeafLabel(d.Enabled?, d.val) else GroupLabel(TagOf(d))
  }

  /** The place of the variant in the enumeration. */
  function Variant<T>(l: Label<T>): nat {
    match l
    case LeafLabel(on, _) => if on then 0 else 1
    case GroupLabel(All) => 2
    case GroupLabel(Any) => 3
    case GroupLabel(ExactlyOne) => 4
    case GroupLabel(AtMostOne) => 5
    case GroupLabel(When(_)) => 6
  }

  function CmpBool(a: bool, b: bool): Ordering {
    if a == b then Equal else if b then Less else Greater
  }

  function CmpDefault(a: Option<bool>, b: Option<bool>): Ordering {
    match (a, b)
    case (None, None) => Equal
    case (None, Some(_)) => Less
    case (Some(_), None) => Greater
    case (Some(x), Some(y)) => CmpBool(x, y)
  }

  function CmpGuard(a: UseDep, b: UseDep): Ordering {
    CmpString(a.flag, b.flag).Then(CmpBool(a.enabled, b.enabled)).Then(CmpDefault(a.default, b.default))
  }

  /** Variants first, then values or guards. */
  function CmpLabel<T>(c: Compare<T>, a: Label<T>, b: Label<T>): Ordering {
    match (a, b)
    case (GroupLabel(When(u)), GroupLabel(When(v))) => CmpGuard(u, v)
    case (LeafLabel(on, x), LeafLabel(off, y)) => if on == off then c(x, y) else CmpInt(Variant(a), Variant(b))
    case _ => CmpInt(Variant(a), Variant(b))
  }

  lemma GuardLaws(a: UseDep, b: UseDep, d: UseDep)
    ensures CmpGuard(a, b) == Equal <==> a == b
    ensures CmpGuard(b, a) == CmpGuard(a, b).Flip()
    ensures CmpGuard(a, b) != Greater && CmpGuard(b, d) != Greater ==> CmpGuard(a, d) != Greater
  {
    StringLaws(a.flag, b.flag, d.flag);
    StringLaws(b.flag, d.flag, a.flag);
    StringLaws(d.flag, a.flag, b.flag);
  }

  lemma LabelLaws<T(!new)>(c: Compare<T>, a: Label<T>, b: Label<T>, d: Label<T>)
    requires Lawful(c)
    ensures CmpLabel(c, a, b) == Equal <==> a == b
    ensures CmpLabel(c, b, a) == CmpLabel(c, a, b).Flip()
    ensures CmpLabel(c, a, b) != Greater && CmpLabel(c, b, d) != Greater ==> CmpLabel(c, a, d) != Greater
  {
    if Variant(a) == Variant(b) == 6 {
      GuardLaws(a.tag.guard, b.tag.guard, if Variant(d) == 6 then d.tag.guard else a.tag.guard);
    }
  }

  // ---------------------------------------------------------------- the derived comparison

  /** `Ord` for dependencies: variant, value or guard, members. */
  function Cmp<T>(c: Compare<T>, a: Dependency<T>, b: Dependency<T>): Ordering
    decreases Size(a) + Size(b), 1
  {
    CmpLabel(c, LabelOf(a), LabelOf(b)).Then(CmpAll(c, Listed(c, a), Listed(c, b)))
  }

  /** The members in the order they are compared in. */
  function Listed<T>(c: Compare<T>, d: Dependency<T>): (r: seq<Dependency<T>>)
    ensures SizeAll(r) < Size(d)
    decreases Size(d), 0
  {
    if d.Leaf() || d.Choice() then d.Members() else Sorted(c, d.vals)
  }

  /** `iter().cmp(..)` */
  function CmpAll<T>(c: Compare<T>, x: seq<Dependency<T>>, y: seq<Dependency<T>>): Ordering
    decreases SizeAll(x) + SizeAll(y), 2
  {
    if x == [] && y == [] then Equal
    else if x == [] then Less
    else if y == [] then Greater
    else Cmp(c, x[0], y[0]).Then(CmpAll(c, x[1..], y[1..]))
  }

  /** `iter().sorted()` */
  function Sorted<T>(c: Compare<T>, s: seq<Dependency<T>>): (r: seq<Dependency<T>>)
    ensures SizeAll(r) == SizeAll(s)
    decreases SizeAll(s), 3
  {
    if s == [] then [] else SortedInsert(c, s[0], Sorted(c, s[1..]))
  }

  function SortedInsert<T>(c: Compare<T>, d: Dependency<T>, s: seq<Dependency<T>>): (r: seq<Dependency<T>>)
    ensures SizeAll(r) == Size(d) + SizeAll(s)
    decreases Size(d) + SizeAll(s), 2
  {
    if s == [] || Cmp(c, d, s[0]) != Greater then [d] + s else [s[0]] + SortedInsert(c, d, s[1..])
  }

  /** The order as a parameter of `DependencySort`. */
  function Derived<T>(c: Compare<T>): Order<T> {
    (a, b) => Cmp(c, a, b) != Greater
  }

  /** The sort inside the comparison is the one the sorting uses. */
  lemma {:induction false} SortedIsArrange<T>(c: Compare<T>, s: seq<Dependency<T>>)
    ensures Sorted(c, s) == Arrange(Derived(c), s)
  {
    if s != [] {
      SortedIsArrange(c, s[1..]);
      InsertIsInsert(c, s[0], Sorted(c, s[1..]));
    }
  }

  lemma {:induction false} InsertIsInsert<T>(c: Compare<T>, d: Dependency<T>, s: seq<Dependency<T>>)
    ensures SortedInsert(c, d, s) == Insert(Derived(c), d, s)
  {
    if s != [] && Cmp(c, d, s[0]) == Greater { InsertIsInsert(c, d, s[1..]); }
  }

  // ---------------------------------------------------------------- comparison without sorting

  function Lex<T>(c: Compare<T>, a: Dependency<T>, b: Dependency<T>): Ordering
    decreases a, 1
  {
    CmpLabel(c, LabelOf(a), LabelOf(b)).Then(if a.Leaf() then Equal else LexAll(c, a.vals, b.Members()))
  }

  function LexAll<T>(c: Compare<T>, x: seq<Dependency<T>>, y: seq<Dependency<T>>): Ordering
    decreases x, 0
  {
    if x == [] && y == [] then Equal
    else if x == [] then Less
    else if y == [] then Greater
    else Lex(c, x[0], y[0]).Then(LexAll(c, x[1..], y[1..]))
  }

  function LexOrder<T>(c: Compare<T>): Order<T> {
    (a, b) => Lex(c, a, b) != Greater
  }

  /** A node is its label and its members. */
  lemma LabelAndMembers<T>(a: Dependency<T>, b: Dependency<T>)
    requires LabelOf(a) == LabelOf(b) && a.Members() == b.Members()
    ensures a == b
  {
  }

  lemma {:induction false} LexPair<T(!new)>(c: Compare<T>, a: Dependency<T>, b: Dependency<T>)
    requires Lawful(c)
    ensures Lex(c, a, b) == Equal <==> a == b
    ensures Lex(c, b, a) == Lex(c, a, b).Flip()
    decreases a, 1
  {
    LabelLaws(c, LabelOf(a), LabelOf(b), LabelOf(a));
    if !a.Leaf() && !b.Leaf() { LexAllPair(c, a.vals, b.vals); }
    if LabelOf(a) == LabelOf(b) && a.Members() == b.Members() { LabelAndMembers(a, b); }
  }

  lemma {:induction false} LexAllPair<T(!new)>(c: Compare<T>, x: seq<Dependency<T>>, y: seq<Dependency<T>>)
    requires Lawful(c)
    ensures LexAll(c, x, y) == Equal <==> x == y
    ensures LexAll(c, y, x) == LexAll(c, x, y).Flip()
    decreases x, 0
  {
    if x != [] && y != [] {
      LexPair(c, x[0], y[0]);
      LexAllPair(c, x[1..], y[1..]);
      assert x == [x[0]] + x[1..] && y == [y[0]] + y[1..];
    }
  }

  lemma {:induction false} LexTransitive<T(!new)>(c: Compare<T>, a: Dependency<T>, b: Dependency<T>, d: Dependency<T>)
    requires Lawful(c) && Lex(c, a, b) != Greater && Lex(c, b, d) != Greater
    ensures Lex(c, a, d) != Greater
    decreases a, 1
  {
    LabelLaws(c, LabelOf(a), LabelOf(b), LabelOf(d));
    LabelLaws(c, LabelOf(b), LabelOf(d), LabelOf(a));
    LabelLaws(c, LabelOf(a), LabelOf(d), LabelOf(b));
    if LabelOf(a) == LabelOf(b) == LabelOf(d) && !a.Leaf() {
      LexAllTransitive(c, a.vals, b.vals, d.vals);
    }
  }

  lemma {:induction false} LexAllTransitive<T(!new)>(c: Compare<T>, x: seq<Dependency<T>>, y: seq<Dependency<T>>, z: seq<Dependency<T>>)
    requires Lawful(c) && LexAll(c, x, y) != Greater && LexAll(c, y, z) != Greater
    ensures LexAll(c, x, z) != Greater
    decreases x, 0
  {
    if x != [] && y != [] && z != [] {
      LexPair(c, x[0], y[0]);
      LexPair(c, y[0], z[0]);
      LexPair(c, x[0], z[0]);
      LexTransitive(c, x[0], y[0], z[0]);
      if x[0] == y[0] == z[0] { LexAllTransitive(c, x[1..], y[1..], z[1..]); }
    }
  }

  lemma LexIsOrder<T(!new)>(c: Compare<T>)
    requires Lawful(c)
    ensures IsOrder(LexOrder(c))
  {
    var leq := LexOrder(c);
    forall a, b ensures leq(a, b) || leq(b, a) { LexPair(c, a, b); }
    forall a, b, d | leq(a, b) && leq(b, d) ensures leq(a, d) { LexTransitive(c, a, b, d); }
  }

  // ---------------------------------------------------------------- the two agree

  /** A tree with every sorted group in order, also inside choice groups. */
  function Norm<T>(c: Compare<T>, d: Dependency<T>): Dependency<T>
    decreases d, 1
  {
    match d
    case AnyOf(vals) => AnyOf(NormAll(c, vals))
    case ExactlyOneOf(vals) => ExactlyOneOf(NormAll(c, vals))
    case AtMostOneOf(vals) => AtMostOneOf(NormAll(c, vals))
    case AllOf(vals) => AllOf(Arrange(LexOrder(c), NormAll(c, vals)))
    case Conditional(u, vals) => Conditional(u, Arrange(LexOrder(c), NormAll(c, vals)))
    case _ => d
  }

  function NormAll<T>(c: Compare<T>, ds: seq<Dependency<T>>): (r: seq<Dependency<T>>)
    ensures |r| == |ds| && forall i :: 0 <= i < |ds| ==> r[i] == Norm(c, ds[i])
    decreases ds, 0
  {
    if ds == [] then [] else [Norm(c, ds[0])] + NormAll(c, ds[1..])
  }

  lemma NormLabel<T>(c: Compare<T>, d: Dependency<T>)
    ensures LabelOf(Norm(c, d)) == LabelOf(d)
  {
  }

  /** The derived comparison compares normal forms member by member. */
  lemma {:induction false} CmpIsLex<T>(c: Compare<T>, a: Dependency<T>, b: Dependency<T>)
    ensures Cmp(c, a, b) == Lex(c, Norm(c, a), Norm(c, b))
    decreases Size(a) + Size(b), 1
  {
    NormLabel(c, a);
    NormLabel(c, b);
    ListedNorm(c, a);
    ListedNorm(c, b);
    CmpAllIsLex(c, Listed(c, a), Listed(c, b));
  }

  lemma {:induction false} CmpAllIsLex<T>(c: Compare<T>, x: seq<Dependency<T>>, y: seq<Dependency<T>>)
    ensures CmpAll(c, x, y) == LexAll(c, NormAll(c, x), NormAll(c, y))
    decreases SizeAll(x) + SizeAll(y), 2
  {
    if x != [] && y != [] {
      CmpIsLex(c, x[0], y[0]);
      CmpAllIsLex(c, x[1..], y[1..]);
      assert NormAll(c, x)[1..] == NormAll(c, x[1..]) && NormAll(c, y)[1..] == NormAll(c, y[1..]);
    }
  }

  lemma {:induction false} ListedNorm<T>(c: Compare<T>, d: Dependency<T>)
    ensures NormAll(c, Listed(c, d)) == Norm(c, d).Members()
    decreases Size(d), 0
  {
    if !d.Leaf() && !d.Choice() { SortedNorm(c, d.vals); }
  }

  lemma {:induction false} SortedNorm<T>(c: Compare<T>, s: seq<Dependency<T>>)
    ensures NormAll(c, Sorted(c, s)) == Arrange(LexOrder(c), NormAll(c, s))
    decreases SizeAll(s), 3
  {
    if s != [] {
      SortedNorm(c, s[1..]);
      InsertNorm(c, s[0], Sorted(c, s[1..]));
      assert NormAll(c, s)[1..] == NormAll(c, s[1..]);
    }
  }

  lemma {:induction false} InsertNorm<T>(c: Compare<T>, d: Dependency<T>, s: seq<Dependency<T>>)
    ensures NormAll(c, SortedInsert(c, d, s)) == Insert(LexOrder(c), Norm(c, d), NormAll(c, s))
    decreases Size(d) + SizeAll(s), 2
  {
    if s != [] {
      CmpIsLex(c, d, s[0]);
      assert NormAll(c, s)[1..] == NormAll(c, s[1..]);
      if Cmp(c, d, s[0]) == Greater {
        InsertNorm(c, d, s[1..]);
        var r := SortedInsert(c, d, s[1..]);
        assert ([s[0]] + r)[1..] == r;
      } else {
        assert ([d] + s)[1..] == s;
      }
    }
  }

  // ---------------------------------------------------------------- the laws

  /** The derived comparison is total, antisymmetric up to its equality, and transitive. */
  lemma DerivedLaws<T(!new)>(c: Compare<T>, a: Dependency<T>, b: Dependency<T>, d: Dependency<T>)
    requires Lawful(c)
    ensures Cmp(c, b, a) == Cmp(c, a, b).Flip()
    ensures Cmp(c, a, b) != Greater && Cmp(c, b, d) != Greater ==> Cmp(c, a, d) != Greater
  {
    CmpIsLex(c, a, b);
    CmpIsLex(c, b, a);
    CmpIsLex(c, b, d);
    CmpIsLex(c, a, d);
    LexPair(c, Norm(c, a), Norm(c, b));
    if Cmp(c, a, b) != Greater && Cmp(c, b, d) != Greater { LexTransitive(c, Norm(c, a), Norm(c, b), Norm(c, d)); }
  }

  lemma DerivedIsOrder<T(!new)>(c: Compare<T>)
    requires Lawful(c)
    ensures IsOrder(Derived(c))
  {
    var leq := Derived(c);
    forall a, b ensures leq(a, b) || leq(b, a) { DerivedLaws(c, a, b, a); }
    forall a, b, d | leq(a, b) && leq(b, d) ensures leq(a, d) { DerivedLaws(c, a, b, d); }
  }

  /** No group anywhere holds two equal members. */
  ghost predicate AllSets<T>(d: Dependency<T>)
    decreases d, 1
  {
    d.Leaf() || (Distinct(d.vals) && AllSetsIn(d.vals))
  }

  ghost predicate AllSetsIn<T>(ds: seq<Dependency<T>>)
    decreases ds, 0
  {
    ds == [] || (AllSets(ds[0]) && AllSetsIn(ds[1..]))
  }

  lemma {:induction false} AllSetsMember<T>(ds: seq<Dependency<T>>, i: nat)
    requires AllSetsIn(ds) && i < |ds|
    ensures AllSets(ds[i])
  {
    if i > 0 { AllSetsMember(ds[1..], i - 1); }
  }

  /** Normal forms have the keys of the trees they come from. */
  lemma {:induction false} NormIsSame<T>(c: Compare<T>, d: Dependency<T>)
    ensures Same(Norm(c, d), d)
    decreases d, 1
  {
    if !d.Leaf() {
      NormAllIsSame(c, d.vals);
      if !d.Choice() {
        var all := NormAll(c, d.vals);
        ArrangeKeepsBag(LexOrder(c), all);
        KeysOfBag(Arrange(LexOrder(c), all), all);
        GroupIsSame(d, Arrange(LexOrder(c), all));
      }
    }
  }

  lemma {:induction false} NormAllIsSame<T>(c: Compare<T>, ds: seq<Dependency<T>>)
    ensures Keys(NormAll(c, ds)) == Keys(ds)
    decreases ds, 0
  {
    if ds != [] {
      NormIsSame(c, ds[0]);
      NormAllIsSame(c, ds[1..]);
      assert NormAll(c, ds)[1..] == NormAll(c, ds[1..]);
    }
  }

  /** Trees of sets with the same key have the same normal form. */
  lemma {:induction false} SameNorm<T(!new)>(c: Compare<T>, a: Dependency<T>, b: Dependency<T>)
    requires Lawful(c) && AllSets(a) && AllSets(b) && Same(a, b)
    ensures Norm(c, a) == Norm(c, b)
    decreases a, 1
  {
    if a.Choice() {
      SameNormAll(c, a.vals, b.vals);
    } else if !a.Leaf() {
      var x, y := NormAll(c, a.vals), NormAll(c, b.vals);
      forall i, j | 0 <= i < |x| && 0 <= j < |y| && Keys(a.vals)[i] == Keys(b.vals)[j] ensures x[i] == y[j] {
        AllSetsMember(a.vals, i);
        AllSetsMember(b.vals, j);
        SameNorm(c, a.vals[i], b.vals[j]);
      }
      NormDistinct(c, a.vals);
      NormDistinct(c, b.vals);
      SameKeys(a, b);
      SameMembers(Keys(a.vals), Keys(b.vals), x, y);
      SameBag(x, y);
      ArrangeIsCanonical(c, x, y);
    }
  }

  lemma {:induction false} SameNormAll<T(!new)>(c: Compare<T>, x: seq<Dependency<T>>, y: seq<Dependency<T>>)
    requires Lawful(c) && AllSetsIn(x) && AllSetsIn(y) && Keys(x) == Keys(y)
    ensures NormAll(c, x) == NormAll(c, y)
    decreases x, 0
  {
    assert |Keys(x)| == |Keys(y)|;
    if x != [] {
      assert Keys(x)[0] == Keys(y)[0];
      SameNorm(c, x[0], y[0]);
      assert Keys(x)[1..] == Keys(x[1..]) && Keys(y)[1..] == Keys(y[1..]);
      SameNormAll(c, x[1..], y[1..]);
    }
  }

  lemma NormDistinct<T>(c: Compare<T>, ds: seq<Dependency<T>>)
    requires Distinct(ds)
    ensures forall i, j :: 0 <= i < j < |ds| ==> NormAll(c, ds)[i] != NormAll(c, ds)[j]
  {
    forall i, j | 0 <= i < j < |ds| ensures NormAll(c, ds)[i] != NormAll(c, ds)[j] {
      NormIsSame(c, ds[i]);
      NormIsSame(c, ds[j]);
    }
  }

  lemma SameKeys<T>(a: Dependency<T>, b: Dependency<T>)
    requires !a.Leaf() && !a.Choice() && Same(a, b)
    ensures LabelOf(a) == LabelOf(b)
    ensures forall k :: k in Keys(a.vals) <==> k in Keys(b.vals)
  {
    assert KeyOf(a) == KeyOf(b);
    forall k ensures k in Keys(a.vals) <==> k in Keys(b.vals) {
      assert k in Keys(a.vals) <==> k in KeyOf(a).members;
      assert k in Keys(b.vals) <==> k in KeyOf(b).members;
    }
  }

  /** Lists whose keys correspond, and whose elements agree where the keys do, have the same elements. */
  lemma SameMembers<K, V>(ks: seq<K>, ls: seq<K>, x: seq<V>, y: seq<V>)
    requires |ks| == |x| && |ls| == |y| && forall k :: k in ks <==> k in ls
    requires forall i, j :: 0 <= i < |x| && 0 <= j < |y| && ks[i] == ls[j] ==> x[i] == y[j]
    ensures forall v :: v in x <==> v in y
  {
    forall v | v in x ensures v in y {
      var i :| 0 <= i < |x| && x[i] == v;
      assert ks[i] in ks && ks[i] in ls;
      var j :| 0 <= j < |ls| && ls[j] == ks[i];
      assert y[j] == v;
    }
    forall v | v in y ensures v in x {
      var j :| 0 <= j < |y| && y[j] == v;
      assert ls[j] in ls && ls[j] in ks;
      var i :| 0 <= i < |ks| && ks[i] == ls[j];
      assert x[i] == v;
    }
  }

  lemma SameBag<V>(x: seq<V>, y: seq<V>)
    requires forall v :: v in x <==> v in y
    requires forall i, j :: 0 <= i < j < |x| ==> x[i] != x[j]
    requires forall i, j :: 0 <= i < j < |y| ==> y[i] != y[j]
    ensures multiset(x) == multiset(y)
  {
    forall v ensures multiset(x)[v] == multiset(y)[v] {
      CountOne(x, v);
      CountOne(y, v);
    }
  }

  lemma {:induction false} CountOne<V>(x: seq<V>, v: V)
    requires forall i, j :: 0 <= i < j < |x| ==> x[i] != x[j]
    ensures multiset(x)[v] == if v in x then 1 else 0
  {
    if x != [] {
      CountOne(x[1..], v);
      assert x == [x[0]] + x[1..];
    }
  }

  /** A bag of dependencies has one arrangement. */
  lemma ArrangeIsCanonical<T(!new)>(c: Compare<T>, x: seq<Dependency<T>>, y: seq<Dependency<T>>)
    requires Lawful(c) && multiset(x) == multiset(y)
    ensures Arrange(LexOrder(c), x) == Arrange(LexOrder(c), y)
  {
    LexIsOrder(c);
    ArrangeKeepsBag(LexOrder(c), x);
    ArrangeKeepsBag(LexOrder(c), y);
    ArrangeAscends(LexOrder(c), x);
    ArrangeAscends(LexOrder(c), y);
    AscendingIsUnique(c, Arrange(LexOrder(c), x), Arrange(LexOrder(c), y));
  }

  lemma {:induction false} AscendingIsUnique<T(!new)>(c: Compare<T>, x: seq<Dependency<T>>, y: seq<Dependency<T>>)
    requires Lawful(c) && multiset(x) == multiset(y)
    requires Ascending(LexOrder(c), x) && Ascending(LexOrder(c), y)
    ensures x == y
  {
    assert |x| == |multiset(x)| && |y| == |multiset(y)|;
    if x != [] {
      assert x[0] in multiset(y) && y[0] in multiset(x);
      HeadIsLeast(c, y, x[0]);
      HeadIsLeast(c, x, y[0]);
      LexPair(c, x[0], y[0]);
      SameTail(x, y);
      AscendingIsUnique(c, x[1..], y[1..]);
    }
  }

  lemma HeadIsLeast<T(!new)>(c: Compare<T>, x: seq<Dependency<T>>, d: Dependency<T>)
    requires Lawful(c) && Ascending(LexOrder(c), x) && d in x
    ensures Lex(c, x[0], d) != Greater
  {
    var i :| 0 <= i < |x| && x[i] == d;
    LexPair(c, d, d);
    if i > 0 { assert LexOrder(c)(x[0], x[i]); }
  }

  /** Dependencies built of sets compare equal exactly when they are the same up to the order in sorted groups. */
  lemma EqualExactly<T(!new)>(c: Compare<T>, a: Dependency<T>, b: Dependency<T>)
    requires Lawful(c) && AllSets(a) && AllSets(b)
    ensures Cmp(c, a, b) == Equal <==> Same(a, b)
  {
    CmpIsLex(c, a, b);
    LexPair(c, Norm(c, a), Norm(c, b));
    if Same(a, b) { SameNorm(c, a, b); }
    NormIsSame(c, a);
    NormIsSame(c, b);
  }

  /** Under the derived order, sorting twice is sorting once, and the result is in order throughout. */
  lemma SortByDerived<T(!new)>(c: Compare<T>, d: Dependency<T>)
    requires Lawful(c)
    ensures InOrder(Derived(c), Sort(Derived(c), d))
    ensures Sort(Derived(c), Sort(Derived(c), d)) == Sort(Derived(c), d)
  {
    DerivedIsOrder(c);
    SortOrders(Derived(c), d);
    SortIsIdempotent(Derived(c), d);
  }

  // ---------------------------------------------------------------- which dependency comes first

  /** The variants in the order they are declared in. */
  predicate VariantBefore<T>(a: Dependency<T>, b: Dependency<T>) {
    match a
    case Enabled(_) => !b.Enabled?
    case Disabled(_) => !b.Leaf()
    case AllOf(_) => b.Choice() || b.Conditional?
    case AnyOf(_) => b.ExactlyOneOf? || b.AtMostOneOf? || b.Conditional?
    case ExactlyOneOf(_) => b.AtMostOneOf? || b.Conditional?
    case AtMostOneOf(_) => b.Conditional?
    case Conditional(_, _) => false
  }

  /** By flag; `!u?` before `u?`; then no default, off, on. */
  ghost predicate GuardBefore(a: UseDep, b: UseDep) {
    || StringBefore(a.flag, b.flag)
    || (a.flag == b.flag && !a.enabled && b.enabled)
    || (a.flag == b.flag && a.enabled == b.enabled && b.default.Some? && (a.default.None? || (!a.default.value && b.default.value)))
  }

  lemma GuardOrder(a: UseDep, b: UseDep)
    ensures CmpGuard(a, b) == Less <==> GuardBefore(a, b)
  {
    StringOrder(a.flag, b.flag);
    StringLaws(a.flag, b.flag, a.flag);
    if a.flag == b.flag { NotBeforeItself(a.flag); }
  }

  lemma NotBeforeItself(s: string)
    ensures !StringBefore(s, s)
  {
    StringOrder(s, s);
    StringLaws(s, s, s);
  }

  /** Up to a place the lists compare equal, and there the first ends or has the smaller member. */
  ghost predicate BeforeAt<T>(c: Compare<T>, x: seq<Dependency<T>>, y: seq<Dependency<T>>, n: nat) {
    && n <= |x| && n < |y| && (forall i :: 0 <= i < n ==> Cmp(c, x[i], y[i]) == Equal)
    && (n == |x| || Cmp(c, x[n], y[n]) == Less)
  }

  ghost predicate ListBefore<T>(c: Compare<T>, x: seq<Dependency<T>>, y: seq<Dependency<T>>) {
    exists n :: BeforeAt(c, x, y, n)
  }

  lemma {:induction false} ListOrder<T>(c: Compare<T>, x: seq<Dependency<T>>, y: seq<Dependency<T>>)
    ensures CmpAll(c, x, y) == Less <==> ListBefore(c, x, y)
    decreases |x|
  {
    if x == [] && y != [] { assert BeforeAt(c, x, y, 0); }
    if x != [] && y != [] {
      ListOrder(c, x[1..], y[1..]);
      if n: nat :| BeforeAt(c, x, y, n) { if n > 0 { OneLater(c, x, y, n - 1); } }
      if n: nat :| BeforeAt(c, x[1..], y[1..], n) { OneLater(c, x, y, n); }
      if Cmp(c, x[0], y[0]) == Less { assert BeforeAt(c, x, y, 0); }
    }
  }

  lemma OneLater<T>(c: Compare<T>, x: seq<Dependency<T>>, y: seq<Dependency<T>>, n: nat)
    requires x != [] && y != []
    ensures BeforeAt(c, x, y, n + 1) <==> Cmp(c, x[0], y[0]) == Equal && BeforeAt(c, x[1..], y[1..], n)
  {
    assert forall i :: 0 < i < |x| ==> x[1..][i - 1] == x[i];
    assert forall i :: 0 < i < |y| ==> y[1..][i - 1] == y[i];
    if BeforeAt(c, x, y, n + 1) {
      forall i | 0 <= i < n ensures Cmp(c, x[1..][i], y[1..][i]) == Equal { assert Cmp(c, x[i + 1], y[i + 1]) == Equal; }
    }
    if Cmp(c, x[0], y[0]) == Equal && BeforeAt(c, x[1..], y[1..], n) {
      forall i | 0 <= i < n + 1 ensures Cmp(c, x[i], y[i]) == Equal {
        if i > 0 { assert Cmp(c, x[1..][i - 1], y[1..][i - 1]) == Equal; }
      }
    }
  }

  /** Members are compared as they stand in choice groups, and in ascending order in the others. */
  lemma ListedMeans<T(!new)>(c: Compare<T>, d: Dependency<T>)
    requires Lawful(c) && !d.Leaf()
    ensures d.Choice() ==> Listed(c, d) == d.vals
    ensures !d.Choice() ==> multiset(Listed(c, d)) == multiset(d.vals) && Ascending(Derived(c), Listed(c, d))
  {
    if !d.Choice() {
      DerivedIsOrder(c);
      SortedIsArrange(c, d.vals);
      ArrangeKeepsBag(Derived(c), d.vals);
      ArrangeAscends(Derived(c), d.vals);
    }
  }

  /** Variants first; leaves of one variant by value; groups by guard, then by their members. */
  lemma DependencyOrders<T(!new)>(c: Compare<T>, a: Dependency<T>, b: Dependency<T>)
    requires Lawful(c)
    ensures Cmp(c, a, b) == Less <==>
            || VariantBefore(a, b)
            || (a.Leaf() && b.Leaf() && a.Enabled? == b.Enabled? && c(a.val, b.val) == Less)
            || (a.Conditional? && b.Conditional? && GuardBefore(a.guard, b.guard))
            || (!a.Leaf() && !b.Leaf() && TagOf(a) == TagOf(b) && ListBefore(c, Listed(c, a), Listed(c, b)))
  {
    LabelLaws(c, LabelOf(a), LabelOf(b), LabelOf(a));
    ListOrder(c, Listed(c, a), Listed(c, b));
    if a.Conditional? && b.Conditional? {
      GuardOrder(a.guard, b.guard);
      NotBeforeItself(a.guard.flag);
    }
  }
}
