/**
 Ignore directives (`crates/pkgcruft/src/ignore.rs`): reading them from files, the lazily filled cache
 with its `used` marks, the decision whether a report is ignored, and which directives went unused.
 */
module Ignore {
  import opened Wrappers
  import opened ReportOrder

  /** Report kinds, numbered. */
  type Kind = int

  /** A parsed directive value: a report set, possibly inverted.  Sets are numbered. */
  datatype Spec = Spec(rset: nat, invert: bool)

  /**
   A trimmed line of a file.  `Tagged` holds the comma-separated values of a `# pkgcruft-ignore: ` comment,
   `Text` any line that is neither blank nor a comment; `None` is a value that does not parse.
   */
  datatype Line = Blank | Comment | Tagged(values: seq<Option<Spec>>) | Text(value: Option<Spec>)

  /**
   A repository: its name, the lines of the file each scope names, and the report kinds of each set.
   Where in an ebuild a report points does not change which file is read.
   */
  datatype Setup = Setup(name: string, files: ReportScope -> seq<Line>, expand: nat -> seq<Kind>) {
    function Lines(scope: ReportScope): seq<Line> {
      files(if scope.Version? then Version(scope.cpv, None) else scope)
    }
  }

  datatype Directive = Directive(location: (nat, nat), rset: nat, used: bool, invert: bool)

  /** An index map: the kinds in the order they were first inserted, and the directives of each. */
  datatype Entry = Entry(kinds: seq<Kind>, lists: map<Kind, seq<Directive>>) {
    function Get(k: Kind): seq<Directive> {
      if k in lists then lists[k] else []
    }
  }

  // ---------------------------------------------------------------- what a file says

  /** A value in a file with its line number and its place in the line. */
  datatype Value = Value(location: (nat, nat), spec: Option<Spec>)

  function Located(line: nat, values: seq<Option<Spec>>): seq<Value> {
    seq(|values|, i requires 0 <= i < |values| => Value((line, i), values[i]))
  }

  /** The values of one line: comma-separated in an ebuild's tagged comments, whole lines elsewhere. */
  function LineValues(ebuild: bool, line: Line, lineno: nat): seq<Value> {
    match line
    case Tagged(values) => if ebuild then Located(lineno, values) else []
    case Text(value) => if ebuild then [] else Located(lineno, [value])
    case _ => []
  }

  /** Ebuilds are read up to their first line of code, other files to their end. */
  function Parsed(ebuild: bool, lines: seq<Line>, lineno: nat): seq<Value> {
    if lines == [] || (ebuild && lines[0].Text?) then []
    else LineValues(ebuild, lines[0], lineno) + Parsed(ebuild, lines[1..], lineno + 1)
  }

  function ValuesOf(setup: Setup, scope: ReportScope): seq<Value> {
    Parsed(scope.Version?, setup.Lines(scope), 1)
  }

  function Fresh(location: (nat, nat), spec: Spec): Directive {
    Directive(location, spec.rset, false, spec.invert)
  }

  /**
   What a file says, by line and place in the line, both as they are reported.  In an ebuild only tagged
   comments in front of the first line of code count; elsewhere every line that is not a comment.
   */
  predicate Says(ebuild: bool, lines: seq<Line>, n: nat, i: nat, spec: Option<Spec>) {
    && 1 <= n <= |lines|
    && (if ebuild
        then lines[n - 1].Tagged? && i < |lines[n - 1].values| && lines[n - 1].values[i] == spec
             && forall m :: 0 <= m < n - 1 ==> !lines[m].Text?
        else lines[n - 1] == Text(spec) && i == 0)
  }

  predicate PlaceBefore(a: (nat, nat), b: (nat, nat)) {
    a.0 < b.0 || (a.0 == b.0 && a.1 < b.1)
  }

  lemma LineSays(ebuild: bool, line: Line, lineno: nat, v: Value)
    ensures v in LineValues(ebuild, line, lineno) <==>
            v.location.0 == lineno && (if ebuild
              then line.Tagged? && v.location.1 < |line.values| && line.values[v.location.1] == v.spec
              else line == Text(v.spec) && v.location.1 == 0)
  {
    var vs := LineValues(ebuild, line, lineno);
    if ebuild && line.Tagged? && v.location.0 == lineno && v.location.1 < |line.values| && line.values[v.location.1] == v.spec {
      assert vs[v.location.1] == v;
    }
    if !ebuild && line == Text(v.spec) && v.location == (lineno, 0) { assert vs[0] == v; }
  }

  lemma {:induction false} ParsedSays(ebuild: bool, lines: seq<Line>, lineno: nat, v: Value)
    requires lineno >= 1
    ensures v in Parsed(ebuild, lines, lineno) <==>
            v.location.0 >= lineno && Says(ebuild, lines, v.location.0 - lineno + 1, v.location.1, v.spec)
    decreases |lines|
  {
    if lines != [] && !(ebuild && lines[0].Text?) {
      var (n, i) := v.location;
      LineSays(ebuild, lines[0], lineno, v);
      ParsedSays(ebuild, lines[1..], lineno + 1, v);
      if n > lineno { SaysLater(ebuild, lines, n - lineno + 1, i, v.spec); }
    }
  }

  lemma SaysLater(ebuild: bool, lines: seq<Line>, n: nat, i: nat, spec: Option<Spec>)
    requires n >= 2 && lines != [] && !(ebuild && lines[0].Text?)
    ensures Says(ebuild, lines, n, i, spec) <==> Says(ebuild, lines[1..], n - 1, i, spec)
  {
    if n <= |lines| { assert lines[1..][n - 2] == lines[n - 1]; }
    assert forall m :: 0 < m < |lines| ==> lines[1..][m - 1] == lines[m];
    assert forall m :: 0 <= m < |lines| - 1 ==> lines[m + 1] == lines[1..][m];
  }

  /** The values read from the file of a scope, exactly. */
  lemma ValuesAre(setup: Setup, scope: ReportScope, v: Value)
    ensures v in ValuesOf(setup, scope) <==> Says(scope.Version?, setup.Lines(scope), v.location.0, v.location.1, v.spec)
  {
    ParsedSays(scope.Version?, setup.Lines(scope), 1, v);
  }

  lemma {:induction false} InvalidMeans(values: seq<Value>, place: (nat, nat))
    ensures place in Invalid(values) <==> Value(place, None) in values
  {
    if values != [] {
      InvalidMeans(values[1..], place);
      assert Value(place, None) in values <==> Value(place, None) == values[0] || Value(place, None) in values[1..];
      assert values[0] == Value(values[0].location, values[0].spec);
    }
  }

  /** The places that are reported as invalid are those with a value that does not parse. */
  lemma InvalidAre(setup: Setup, scope: ReportScope, place: (nat, nat))
    ensures place in Invalid(ValuesOf(setup, scope)) <==> Says(scope.Version?, setup.Lines(scope), place.0, place.1, None)
  {
    InvalidMeans(ValuesOf(setup, scope), place);
    ValuesAre(setup, scope, Value(place, None));
  }

  lemma {:induction false} ParsedInOrder(ebuild: bool, lines: seq<Line>, lineno: nat, a: nat, b: nat)
    requires lineno >= 1 && a < b < |Parsed(ebuild, lines, lineno)|
    ensures PlaceBefore(Parsed(ebuild, lines, lineno)[a].location, Parsed(ebuild, lines, lineno)[b].location)
    decreases |lines|
  {
    var here, rest := LineValues(ebuild, lines[0], lineno), Parsed(ebuild, lines[1..], lineno + 1);
    if a >= |here| {
      ParsedInOrder(ebuild, lines[1..], lineno + 1, a - |here|, b - |here|);
    } else if b >= |here| {
      assert rest[b - |here|] in rest;
      ParsedSays(ebuild, lines[1..], lineno + 1, rest[b - |here|]);
    }
  }

  /** They are read line by line, from left to right. */
  lemma ValuesInOrder(setup: Setup, scope: ReportScope, a: nat, b: nat)
    requires a < b < |ValuesOf(setup, scope)|
    ensures PlaceBefore(ValuesOf(setup, scope)[a].location, ValuesOf(setup, scope)[b].location)
  {
    ParsedInOrder(scope.Version?, setup.Lines(scope), 1, a, b);
  }

  /** What gets pushed for a list of values: each directive once for every kind its set expands to. */
  function Pushes(expand: nat -> seq<Kind>, values: seq<Value>): seq<(Kind, Directive)> {
    if values == [] then [] else PushesOf(expand, values[0]) + Pushes(expand, values[1..])
  }

  function PushesOf(expand: nat -> seq<Kind>, v: Value): seq<(Kind, Directive)> {
    if v.spec.None? then [] else ForEach(expand(v.spec.value.rset), Fresh(v.location, v.spec.value))
  }

  function ForEach(kinds: seq<Kind>, d: Directive): seq<(Kind, Directive)> {
    seq(|kinds|, i requires 0 <= i < |kinds| => (kinds[i], d))
  }

  /** The directives pushed for one kind, in order. */
  function Of(pushes: seq<(Kind, Directive)>, k: Kind): seq<Directive> {
    if pushes == [] then [] else
      var n := |pushes| - 1;
      Of(pushes[..n], k) + if pushes[n].0 == k then [pushes[n].1] else []
  }

  /** The directives of a scope for a kind, as its file gives them. */
  function At(setup: Setup, scope: ReportScope, k: Kind): seq<Directive> {
    Of(Pushes(setup.expand, ValuesOf(setup, scope)), k)
  }

  /** The locations of values that do not parse. */
  function Invalid(values: seq<Value>): seq<(nat, nat)> {
    if values == [] then [] else
      (if values[0].spec.None? then [values[0].location] else []) + Invalid(values[1..])
  }

  function Push(entry: Entry, k: Kind, d: Directive): Entry {
    Entry(if k in entry.lists then entry.kinds else entry.kinds + [k], entry.lists[k := entry.Get(k) + [d]])
  }

  /** The entry that pushing in order builds. */
  function Group(pushes: seq<(Kind, Directive)>): Entry {
    if pushes == [] then Entry([], map[]) else
      var n := |pushes| - 1;
      Push(Group(pushes[..n]), pushes[n].0, pushes[n].1)
  }

  /** An entry has a kind exactly when something was pushed for it, and then all of that, in order. */
  lemma {:induction false} GroupMeans(pushes: seq<(Kind, Directive)>, k: Kind)
    ensures k in Group(pushes).lists <==> Of(pushes, k) != []
    ensures Group(pushes).Get(k) == Of(pushes, k)
  {
    if pushes != [] { GroupMeans(pushes[..|pushes| - 1], k); }
  }

  /** Collecting into an index set: of equal elements the first stays. */
  function FirstOnly<T(==)>(s: seq<T>): seq<T> {
    if s == [] then [] else
      var n := |s| - 1;
      var kept := FirstOnly(s[..n]);
      if s[n] in kept then kept else kept + [s[n]]
  }

  lemma {:induction false} FirstOnlyLaws<T>(s: seq<T>)
    ensures forall x :: x in FirstOnly(s) <==> x in s
    ensures forall i, j :: 0 <= i < j < |FirstOnly(s)| ==> FirstOnly(s)[i] != FirstOnly(s)[j]
  {
    if s != [] {
      var n := |s| - 1;
      FirstOnlyLaws(s[..n]);
      assert forall x :: x in s <==> x in s[..n] || x == s[n];
    }
  }

  ghost predicate IsFirst<T>(s: seq<T>, i: nat) {
    i < |s| && forall h :: 0 <= h < i ==> s[h] != s[i]
  }

  /** Of equal elements the first stays, and what stays keeps its order. */
  lemma {:induction false} FirstOnlyKeepsFirsts<T>(s: seq<T>) returns (at: seq<nat>)
    ensures |at| == |FirstOnly(s)| && forall i, j :: 0 <= i < j < |at| ==> at[i] < at[j]
    ensures forall i :: 0 <= i < |at| ==> at[i] < |s| && FirstOnly(s)[i] == s[at[i]]
    ensures forall i: nat :: i in at <==> IsFirst(s, i)
  {
    at := [];
    if s != [] {
      var n := |s| - 1;
      at := FirstOnlyKeepsFirsts(s[..n]);
      var before := at;
      FirstOnlyLaws(s[..n]);
      NewMeans(s);
      assert FirstOnly(s) == if IsFirst(s, n) then FirstOnly(s[..n]) + [s[n]] else FirstOnly(s[..n]);
      if IsFirst(s, n) { at := at + [n]; }
      forall i: nat ensures i in at <==> IsFirst(s, i) {
        if i < n { FirstInInit(s, i); }
        assert i in at <==> i in before || (i == n && IsFirst(s, n));
      }
    }
  }

  lemma FirstInInit<T>(s: seq<T>, i: nat)
    requires i < |s| - 1
    ensures IsFirst(s[..|s| - 1], i) <==> IsFirst(s, i)
  {
    var init := s[..|s| - 1];
    assert forall h :: 0 <= h <= i ==> init[h] == s[h];
  }

  lemma NewMeans<T>(s: seq<T>)
    requires s != []
    ensures IsFirst(s, |s| - 1) <==> s[|s| - 1] !in s[..|s| - 1]
  {
  }

  /** The kinds of the directives pushed, in order. */
  function Kinds(pushes: seq<(Kind, Directive)>): seq<Kind> {
    seq(|pushes|, i requires 0 <= i < |pushes| => pushes[i].0)
  }

  /** An entry's kinds stand in the order in which they were first pushed. */
  lemma {:induction false} GroupOrder(pushes: seq<(Kind, Directive)>)
    ensures Group(pushes).kinds == FirstOnly(Kinds(pushes))
    ensures forall k :: k in Group(pushes).lists <==> k in Group(pushes).kinds
  {
    if pushes != [] {
      var n := |pushes| - 1;
      GroupOrder(pushes[..n]);
      assert Kinds(pushes)[..n] == Kinds(pushes[..n]);
    }
  }

  lemma GroupOneMore(pushes: seq<(Kind, Directive)>, k: Kind, d: Directive)
    ensures Group(pushes + [(k, d)]) == Push(Group(pushes), k, d)
  {
    assert (pushes + [(k, d)])[..|pushes|] == pushes;
  }

  /** The innermost loop: one directive for every kind of its set. */
  method PushAll(kinds: seq<Kind>, d: Directive, entry: Entry, ghost done: seq<(Kind, Directive)>) returns (r: Entry)
    requires entry == Group(done)
    ensures r == Group(done + ForEach(kinds, d))
  {
    r := entry;
    assert done + ForEach(kinds, d)[..0] == done;
    for i := 0 to |kinds|
      invariant r == Group(done + ForEach(kinds, d)[..i])
    {
      GroupOneMore(done + ForEach(kinds, d)[..i], kinds[i], d);
      assert done + ForEach(kinds, d)[..i + 1] == done + ForEach(kinds, d)[..i] + [(kinds[i], d)];
      r := Push(r, kinds[i], d);
    }
    assert ForEach(kinds, d)[..|kinds|] == ForEach(kinds, d);
  }

  /** One value: its directive for every kind, or a complaint. */
  method ParseValue(expand: nat -> seq<Kind>, v: Value, entry: Entry, ghost done: seq<(Kind, Directive)>)
    returns (newEntry: Entry, wrong: seq<(nat, nat)>)
    requires entry == Group(done)
    ensures newEntry == Group(done + PushesOf(expand, v))
    ensures wrong == Invalid([v])
  {
    One(expand, v);
    match v.spec {
      case None =>
        assert done + PushesOf(expand, v) == done;
        return entry, [v.location];
      case Some(spec) =>
        newEntry := PushAll(expand(spec.rset), Fresh(v.location, spec), entry, done);
        wrong := [];
    }
  }

  /** `load_data`'s closure for the values of one line. */
  method ParseLine(expand: nat -> seq<Kind>, values: seq<Value>, entry: Entry, ghost done: seq<(Kind, Directive)>)
    returns (newEntry: Entry, wrong: seq<(nat, nat)>)
    requires entry == Group(done)
    ensures newEntry == Group(done + Pushes(expand, values))
    ensures wrong == Invalid(values)
  {
    newEntry, wrong := entry, [];
    assert done + Pushes(expand, values[..0]) == done;
    for i := 0 to |values|
      invariant newEntry == Group(done + Pushes(expand, values[..i]))
      invariant wrong == Invalid(values[..i])
    {
      Extended(expand, values, i);
      Assoc(done, Pushes(expand, values[..i]), PushesOf(expand, values[i]));
      var more;
      newEntry, more := ParseValue(expand, values[i], newEntry, done + Pushes(expand, values[..i]));
      wrong := wrong + more;
    }
    assert values[..|values|] == values;
  }

  lemma One(expand: nat -> seq<Kind>, v: Value)
    ensures Pushes(expand, [v]) == PushesOf(expand, v)
    ensures Invalid([v]) == if v.spec.None? then [v.location] else []
  {
    assert [v][1..] == [];
  }

  lemma {:induction false} PushesSplit(expand: nat -> seq<Kind>, a: seq<Value>, b: seq<Value>)
    ensures Pushes(expand, a + b) == Pushes(expand, a) + Pushes(expand, b)
  {
    if a == [] {
      assert a + b == b;
    } else {
      TailAppend(a, b);
      PushesSplit(expand, a[1..], b);
      Assoc(PushesOf(expand, a[0]), Pushes(expand, a[1..]), Pushes(expand, b));
    }
  }

  lemma {:induction false} InvalidSplit(a: seq<Value>, b: seq<Value>)
    ensures Invalid(a + b) == Invalid(a) + Invalid(b)
  {
    if a == [] {
      assert a + b == b;
    } else {
      TailAppend(a, b);
      InvalidSplit(a[1..], b);
      Assoc(if a[0].spec.None? then [a[0].location] else [], Invalid(a[1..]), Invalid(b));
    }
  }

  /** One more value. */
  lemma Extended(expand: nat -> seq<Kind>, values: seq<Value>, i: nat)
    requires i < |values|
    ensures Pushes(expand, values[..i + 1]) == Pushes(expand, values[..i]) + PushesOf(expand, values[i])
    ensures Invalid(values[..i + 1]) == Invalid(values[..i]) + Invalid([values[i]])
  {
    assert values[..i + 1] == values[..i] + [values[i]];
    PushesSplit(expand, values[..i], [values[i]]);
    InvalidSplit(values[..i], [values[i]]);
    One(expand, values[i]);
  }

  /** What the file of a scope says. */
  function Loaded(setup: Setup, scope: ReportScope): Entry {
    Group(Pushes(setup.expand, ValuesOf(setup, scope)))
  }

  /** `load_data` */
  method LoadData(setup: Setup, scope: ReportScope) returns (entry: Entry, invalid: seq<(nat, nat)>)
    ensures entry == Loaded(setup, scope)
    ensures invalid == Invalid(ValuesOf(setup, scope))
  {
    entry, invalid := LoadLines(setup.expand, scope.Version?, setup.Lines(scope));
  }

  method LoadLines(expand: nat -> seq<Kind>, ebuild: bool, lines: seq<Line>) returns (entry: Entry, invalid: seq<(nat, nat)>)
    ensures entry == Group(Pushes(expand, Parsed(ebuild, lines, 1)))
    ensures invalid == Invalid(Parsed(ebuild, lines, 1))
  {
    entry, invalid := Entry([], map[]), [];
    ghost var done: seq<Value> := [];
    var i := 0;
    while i < |lines| && !(ebuild && lines[i].Text?)
      invariant i <= |lines|
      invariant Parsed(ebuild, lines, 1) == done + Parsed(ebuild, lines[i..], i + 1)
      invariant entry == Group(Pushes(expand, done)) && invalid == Invalid(done)
    {
      var values := LineValues(ebuild, lines[i], i + 1);
      assert lines[i..][1..] == lines[i + 1..];
      Assoc(done, values, Parsed(ebuild, lines[i + 1..], i + 2));
      var wrong;
      entry, wrong := ParseLine(expand, values, entry, Pushes(expand, done));
      invalid := invalid + wrong;
      PushesSplit(expand, done, values);
      InvalidSplit(done, values);
      done := done + values;
      i := i + 1;
    }
    assert done + Parsed(ebuild, lines[i..], i + 1) == done;
  }
}
