/** Small facts about sequences and sets shared by every component. */
module Seqs {

  datatype Option<+T> = None | Some(value: T)

  /** The elements of `s` that satisfy `keep`, in order. */
  function Filter<T>(keep: T -> bool, s: seq<T>): (r: seq<T>)
    ensures forall x | x in r :: x in s && keep(x)
    ensures forall x | x in s && keep(x) :: x in r
  {
    if s == [] then []
    else (if keep(s[0]) then [s[0]] else []) + Filter(keep, s[1..])
  }

  lemma {:induction false} FilterConcat<T>(keep: T -> bool, a: seq<T>, b: seq<T>)
    ensures Filter(keep, a + b) == Filter(keep, a) + Filter(keep, b)
  {
    if a == [] {
      assert a + b == b;
    } else {
      assert (a + b)[1..] == a[1..] + b;
      FilterConcat(keep, a[1..], b);
    }
  }

  lemma {:induction false} FilterAll<T>(keep: T -> bool, a: seq<T>)
    requires forall x | x in a :: keep(x)
    ensures Filter(keep, a) == a
  {
    if a != [] { FilterAll(keep, a[1..]); }
  }

  lemma {:induction false} FilterNone<T>(keep: T -> bool, a: seq<T>)
    requires forall x | x in a :: !keep(x)
    ensures Filter(keep, a) == []
  {
    if a != [] { FilterNone(keep, a[1..]); }
  }

  function Min(a: nat, b: nat): nat { if a <= b then a else b }

  function Elements<T>(s: seq<T>): set<T> {
    set x | x in s
  }

  ghost predicate Distinct<T>(s: seq<T>) {
    forall i, j | 0 <= i < j < |s| :: s[i] != s[j]
  }

  ghost predicate StrictlyIncreasing(s: seq<nat>) {
    forall i, j | 0 <= i < j < |s| :: s[i] < s[j]
  }

  /** The first position whose element satisfies `want`, as `Iterator::position` finds it. */
  function Position<T>(want: T -> bool, s: seq<T>): (r: Option<nat>)
    ensures r.Some? ==> r.value < |s| && want(s[r.value]) && forall i | 0 <= i < r.value :: !want(s[i])
    ensures r.None? ==> forall x | x in s :: !want(x)
  {
    if s == [] then None
    else if want(s[0]) then Some(0)
    else match Position(want, s[1..])
      case None => None
      case Some(i) => Some(i + 1)
  }

  function Maximum(s: seq<nat>): (m: nat)
    requires s != []
    ensures m in s && forall x | x in s :: x <= m
  {
    if |s| == 1 then s[0]
    else
      var rest := Maximum(s[1..]);
      assert s == [s[0]] + s[1..];
      if s[0] < rest then rest else s[0]
  }

  lemma ConsIncreasing(x: nat, s: seq<nat>)
    requires StrictlyIncreasing(s) && forall y | y in s :: x < y
    ensures StrictlyIncreasing([x] + s)
  {
    var r := [x] + s;
    forall i, j | 0 <= i < j < |r| ensures r[i] < r[j] {
      if i == 0 { assert r[j] == s[j - 1] && s[j - 1] in s; } else { assert r[i] == s[i - 1] && r[j] == s[j - 1]; }
    }
  }

  lemma TailIncreasing(s: seq<nat>)
    requires StrictlyIncreasing(s) && s != []
    ensures StrictlyIncreasing(s[1..]) && (forall y | y in s[1..] :: s[0] < y) && forall y :: y in s <==> y == s[0] || y in s[1..]
  {
    assert s == [s[0]] + s[1..];
  }

  function InsertUnique(x: nat, s: seq<nat>): (r: seq<nat>)
    requires StrictlyIncreasing(s)
    ensures StrictlyIncreasing(r)
    ensures forall y :: y in r <==> y in s || y == x
  {
    if s == [] then [x]
    else
      TailIncreasing(s);
      if x < s[0] then
        ConsIncreasing(x, s);
        [x] + s
      else if x == s[0] then s
      else
        var rest := InsertUnique(x, s[1..]);
        ConsIncreasing(s[0], rest);
        [s[0]] + rest
  }

  /** What `sort_unstable` followed by `dedup` leaves of a list of ids. */
  function SortUnique(ids: seq<nat>): (r: seq<nat>)
    ensures StrictlyIncreasing(r)
    ensures Elements(r) == Elements(ids)
  {
    if ids == [] then []
    else
      var rest := SortUnique(ids[1..]);
      assert forall y :: y in rest <==> y in Elements(rest);
      assert forall y :: y in ids <==> y == ids[0] || y in Elements(ids[1..]);
      InsertUnique(ids[0], rest)
  }

  /** A strictly increasing list is determined by its elements. */
  lemma {:induction false} StrictlyIncreasingUnique(a: seq<nat>, b: seq<nat>)
    requires StrictlyIncreasing(a) && StrictlyIncreasing(b)
    requires Elements(a) == Elements(b)
    ensures a == b
  {
    assert a == [] <==> b == [] by {
      assert a == [] <==> Elements(a) == {} by { assert a != [] ==> a[0] in Elements(a); }
      assert b == [] <==> Elements(b) == {} by { assert b != [] ==> b[0] in Elements(b); }
    }
    if a != [] {
      assert a[0] in Elements(b) && b[0] in Elements(a);
      assert a == [a[0]] + a[1..] && b == [b[0]] + b[1..];
      forall x | x in a[1..] ensures x in b[1..] {
        assert x in Elements(b);
      }
      forall x | x in b[1..] ensures x in a[1..] {
        assert x in Elements(a);
      }
      StrictlyIncreasingUnique(a[1..], b[1..]);
    }
  }

  /** An injective image of `a` inside `b` bounds the size of `a`. */
  lemma {:induction false} InjectionBound<A, B>(f: map<A, B>, b: set<B>)
    requires forall x | x in f :: f[x] in b
    requires forall x, y | x in f && y in f && f[x] == f[y] :: x == y
    ensures |f.Keys| <= |b|
    decreases |f.Keys|
  {
    if f.Keys != {} {
      var x :| x in f.Keys;
      var g := map y | y in f && y != x :: f[y];
      assert g.Keys == f.Keys - {x};
      InjectionBound(g, b - {f[x]});
    }
  }
}
