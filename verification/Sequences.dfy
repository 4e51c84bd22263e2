/** Facts about sequences that several models use. */
module Sequences {

  lemma Assoc<T>(a: seq<T>, b: seq<T>, c: seq<T>)
    ensures a + b + c == a + (b + c)
  {
  }

  lemma Regroup<T>(a: seq<T>, b: seq<T>, c: seq<T>, d: seq<T>)
    ensures a + b + c + d == a + (b + c + d)
  {
  }

  ghost predicate Distinct<T>(s: seq<T>) {
    forall i, j :: 0 <= i < j < |s| ==> s[i] != s[j]
  }

  function Reverse<T>(s: seq<T>): seq<T> {
    if s == [] then [] else [s[|s| - 1]] + Reverse(s[..|s| - 1])
  }

  lemma {:induction false} ReverseContents<T>(s: seq<T>)
    ensures forall x :: x in Reverse(s) <==> x in s
  {
    if s != [] {
      ReverseContents(s[..|s| - 1]);
      assert s == s[..|s| - 1] + [s[|s| - 1]];
    }
  }

  lemma {:induction false} ReverseSnoc<T>(s: seq<T>, x: T)
    ensures Reverse(s + [x]) == [x] + Reverse(s)
  {
    assert (s + [x])[..|s|] == s;
  }

  lemma {:induction false} ReverseEnds<T>(s: seq<T>)
    requires s != []
    ensures |Reverse(s)| == |s| && Reverse(s)[|s| - 1] == s[0]
  {
    if |s| > 1 { ReverseEnds(s[..|s| - 1]); }
  }

  /** The elements that satisfy `keep`, in order. */
  ghost function Filter<T(!new)>(keep: T -> bool, s: seq<T>): (r: seq<T>)
    ensures forall x :: x in r <==> x in s && keep(x)
  {
    if s == [] then []
    else
      var rest := Filter(keep, s[..|s| - 1]);
      if keep(s[|s| - 1]) then rest + [s[|s| - 1]] else rest
  }

  lemma {:induction false} FilterSnoc<T(!new)>(keep: T -> bool, s: seq<T>, x: T)
    ensures Filter(keep, s + [x]) == Filter(keep, s) + (if keep(x) then [x] else [])
  {
    assert (s + [x])[..|s|] == s;
  }

  lemma {:induction false} FilterConcat<T(!new)>(keep: T -> bool, a: seq<T>, b: seq<T>)
    ensures Filter(keep, a + b) == Filter(keep, a) + Filter(keep, b)
  {
    if b == [] {
      assert a + b == a;
    } else {
      var n := |b| - 1;
      FilterConcat(keep, a, b[..n]);
      assert b == b[..n] + [b[n]] && a + b == (a + b[..n]) + [b[n]];
      FilterSnoc(keep, a + b[..n], b[n]);
      FilterSnoc(keep, b[..n], b[n]);
      Assoc(Filter(keep, a), Filter(keep, b[..n]), if keep(b[n]) then [b[n]] else []);
    }
  }

  lemma {:induction false} FilterCons<T(!new)>(keep: T -> bool, x: T, s: seq<T>)
    ensures Filter(keep, [x] + s) == (if keep(x) then [x] else []) + Filter(keep, s)
  {
    FilterConcat(keep, [x], s);
    assert [x][..0] == [];
  }

  lemma {:induction false} FilterReverse<T(!new)>(keep: T -> bool, s: seq<T>)
    ensures Filter(keep, Reverse(s)) == Reverse(Filter(keep, s))
  {
    if s != [] {
      var n := |s| - 1;
      FilterReverse(keep, s[..n]);
      FilterCons(keep, s[n], Reverse(s[..n]));
      ReverseSnoc(Filter(keep, s[..n]), s[n]);
    }
  }

  lemma {:induction false} FilterLast<T(!new)>(keep: T -> bool, s: seq<T>, k: nat)
    requires k < |s| && keep(s[k]) && forall i :: k < i < |s| ==> !keep(s[i])
    ensures Filter(keep, s) != [] && Filter(keep, s)[|Filter(keep, s)| - 1] == s[k]
  {
    if k < |s| - 1 { FilterLast(keep, s[..|s| - 1], k); }
  }

  /** What `f` reads off the elements, in order. */
  ghost function FlatMap<T, X>(f: T -> seq<X>, s: seq<T>): seq<X> {
    if s == [] then [] else FlatMap(f, s[..|s| - 1]) + f(s[|s| - 1])
  }

  lemma {:induction false} FlatMapSnoc<T, X>(f: T -> seq<X>, s: seq<T>, x: T)
    ensures FlatMap(f, s + [x]) == FlatMap(f, s) + f(x)
  {
    assert (s + [x])[..|s|] == s;
  }

  lemma {:induction false} FlatMapConcat<T, X>(f: T -> seq<X>, a: seq<T>, b: seq<T>)
    ensures FlatMap(f, a + b) == FlatMap(f, a) + FlatMap(f, b)
  {
    if b == [] {
      assert a + b == a;
    } else {
      var n := |b| - 1;
      FlatMapConcat(f, a, b[..n]);
      assert b == b[..n] + [b[n]] && a + b == (a + b[..n]) + [b[n]];
      FlatMapSnoc(f, a + b[..n], b[n]);
      Assoc(FlatMap(f, a), FlatMap(f, b[..n]), f(b[n]));
    }
  }

  lemma {:induction false} FlatMapSplit<T, X>(f: T -> seq<X>, s: seq<T>, k: nat)
    requires k <= |s|
    ensures FlatMap(f, s) == FlatMap(f, s[..k]) + FlatMap(f, s[k..])
  {
    assert s == s[..k] + s[k..];
    FlatMapConcat(f, s[..k], s[k..]);
  }

  lemma {:induction false} FlatMapNone<T, X>(f: T -> seq<X>, s: seq<T>)
    requires forall i :: 0 <= i < |s| ==> f(s[i]) == []
    ensures FlatMap(f, s) == []
  {
    if s != [] { FlatMapNone(f, s[..|s| - 1]); }
  }

  lemma {:induction false} FlatMapOne<T, X>(f: T -> seq<X>, x: T)
    ensures FlatMap(f, [x]) == f(x)
  {
    assert [x][..0] == [];
  }
}
