/** Types shared by the models. */
module Wrappers {
  datatype Option<+T> = None | Some(value: T)

  datatype Result<+T, +E> = Ok(value: T) | Err(error: E)

  lemma Assoc<T>(x: seq<T>, y: seq<T>, z: seq<T>)
    ensures x + (y + z) == (x + y) + z
  {
  }

  /** The first element and the rest of a concatenation. */
  lemma TailAppend<T>(a: seq<T>, b: seq<T>)
    requires a != []
    ensures a + b != [] && (a + b)[0] == a[0] && (a + b)[1..] == a[1..] + b
  {
  }

  /** The last element and what is before it. */
  lemma InitAppend<T>(a: seq<T>, b: seq<T>)
    requires b != []
    ensures a + b != [] && (a + b)[..|a + b| - 1] == a + b[..|b| - 1] && (a + b)[|a + b| - 1] == b[|b| - 1]
  {
  }

  lemma InitOne<T>(a: seq<T>, x: T)
    ensures a + [x] != [] && (a + [x])[..|a + [x]| - 1] == a && (a + [x])[|a + [x]| - 1] == x
  {
  }

  lemma BagAssoc<T>(a: multiset<T>, b: multiset<T>, c: multiset<T>)
    ensures (a + b) + c == a + (b + c)
  {
  }

  lemma BagSwap<T>(a: multiset<T>, b: multiset<T>, c: multiset<T>)
    ensures a + (b + c) == b + (a + c) && (a + b) + c == (a + c) + b
  {
  }

  lemma TakeOneMore<T>(s: seq<T>, n: nat)
    requires n < |s|
    ensures s[..n + 1] == s[..n] + [s[n]]
  {
  }

  lemma SplitAt<T>(s: seq<T>, n: nat)
    requires n <= |s|
    ensures s[..n] + s[n..] == s
  {
  }

  lemma SameTail<T>(a: seq<T>, b: seq<T>)
    requires a != [] && b != [] && a[0] == b[0] && multiset(a) == multiset(b)
    ensures multiset(a[1..]) == multiset(b[1..])
  {
    assert a == [a[0]] + a[1..] && b == [b[0]] + b[1..];
    assert multiset(a[1..]) == multiset(a) - multiset{a[0]};
  }

  // ---------------------------------------------------------------- comparisons

  datatype Ordering = Less | Equal | Greater {
    function Then(next: Ordering): Ordering {
      if this.Equal? then next else this
    }

    function Flip(): Ordering {
      match this case Less => Greater case Equal => Equal case Greater => Less
    }
  }

  function CmpInt(a: int, b: int): Ordering {
    if a < b then Less else if a == b then Equal else Greater
  }

  function CmpString(a: string, b: string): Ordering {
    if a == [] && b == [] then Equal
    else if a == [] then Less
    else if b == [] then Greater
    else CmpInt(a[0] as int, b[0] as int).Then(CmpString(a[1..], b[1..]))
  }

  lemma {:induction false} StringLaws(a: string, b: string, c: string)
    ensures CmpString(a, b) == Equal <==> a == b
    ensures CmpString(b, a) == CmpString(a, b).Flip()
    ensures CmpString(a, b) != Greater && CmpString(b, c) != Greater ==> CmpString(a, c) != Greater
    decreases |a| + |b| + |c|
  {
    if a != [] && b != [] {
      if c == [] { StringLaws(a[1..], b[1..], []); } else { StringLaws(a[1..], b[1..], c[1..]); }
      assert a == [a[0]] + a[1..] && b == [b[0]] + b[1..];
      assert CmpInt(a[0] as int, b[0] as int) == Equal <==> a[0] == b[0];
    }
  }

  /** One string is a proper beginning of the other, or has the smaller character where they first differ. */
  ghost predicate StringBefore(a: string, b: string) {
    exists n: nat :: n <= |a| && n < |b| && a[..n] == b[..n] && (n == |a| || a[n] < b[n])
  }

  lemma {:induction false} StringOrder(a: string, b: string)
    ensures CmpString(a, b) == Less <==> StringBefore(a, b)
    decreases |a|
  {
    if a != [] && b != [] {
      StringOrder(a[1..], b[1..]);
      if StringBefore(a, b) {
        var n: nat :| n <= |a| && n < |b| && a[..n] == b[..n] && (n == |a| || a[n] < b[n]);
        if n > 0 {
          assert a[0] == a[..n][0] == b[..n][0] == b[0];
          assert a[1..][..n - 1] == a[..n][1..] && b[1..][..n - 1] == b[..n][1..];
          assert StringBefore(a[1..], b[1..]);
        }
      }
      if a[0] == b[0] && StringBefore(a[1..], b[1..]) {
        var n: nat :| n <= |a[1..]| && n < |b[1..]| && a[1..][..n] == b[1..][..n] && (n == |a[1..]| || a[1..][n] < b[1..][n]);
        assert a[..n + 1] == [a[0]] + a[1..][..n] && b[..n + 1] == [b[0]] + b[1..][..n];
      }
      if a[0] < b[0] { assert a[..0] == b[..0]; }
    } else if b != [] {
      assert a[..0] == b[..0];
    }
  }
}
