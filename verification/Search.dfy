/**
Leftmost search and replacement on sequences.  `Find` stands for the library search the program
calls (`memchr::memmem::Finder::find` on bytes, `str::contains` on text) and `ReplaceAll` for the
leftmost non-overlapping replacement of `str::replace`.
*/
module Search {
  import opened Wrappers
  import opened Sequences

  /** `p` occurs in `s` starting at index `i`. */
  ghost predicate OccursAt<T>(p: seq<T>, s: seq<T>, i: nat) {
    i + |p| <= |s| && s[i..i + |p|] == p
  }

  /** The leftmost occurrence of `p` in `s`. */
  ghost function Find<T>(p: seq<T>, s: seq<T>): (r: Option<nat>)
    ensures r.Some? ==> OccursAt(p, s, r.value)
    ensures r.Some? ==> forall j: nat :: j < r.value ==> !OccursAt(p, s, j)
    ensures r.None? ==> forall j: nat :: !OccursAt(p, s, j)
  {
    if exists i: nat :: OccursAt(p, s, i) then
      LeftmostExists(p, s);
      var i: nat :| IsLeftmost(p, s, i);
      Some(i)
    else None
  }

  ghost predicate IsLeftmost<T>(p: seq<T>, s: seq<T>, i: nat) {
    OccursAt(p, s, i) && forall j: nat :: j < i ==> !OccursAt(p, s, j)
  }

  lemma LeftmostExists<T>(p: seq<T>, s: seq<T>)
    requires exists i: nat :: OccursAt(p, s, i)
    ensures exists i: nat :: IsLeftmost(p, s, i)
  {
    var i: nat :| OccursAt(p, s, i);
    while exists j: nat :: j < i && OccursAt(p, s, j)
      invariant OccursAt(p, s, i)
      decreases i
    {
      var j: nat :| j < i && OccursAt(p, s, j);
      i := j;
    }
    assert IsLeftmost(p, s, i);
  }

  /** The search itself: the first index at which `p` occurs. */
  method FindIndex<T(==)>(p: seq<T>, s: seq<T>) returns (r: Option<nat>)
    ensures r == Find(p, s)
  {
    var i := 0;
    while i + |p| <= |s|
      invariant forall j: nat :: j < i ==> !OccursAt(p, s, j)
    {
      if s[i..i + |p|] == p {
        FindIs(p, s, i);
        return Some(i);
      }
      i := i + 1;
    }
    return None;
  }

  method Contains<T(==)>(p: seq<T>, s: seq<T>) returns (found: bool)
    ensures found <==> Find(p, s).Some?
  {
    var r := FindIndex(p, s);
    return r.Some?;
  }

  /** Replaces every occurrence, leftmost first and without overlaps. */
  ghost function ReplaceAll<T>(p: seq<T>, r: seq<T>, s: seq<T>): seq<T>
    requires |p| > 0
    decreases |s|
  {
    match Find(p, s)
    case None => s
    case Some(i) => s[..i] + r + ReplaceAll(p, r, s[i + |p|..])
  }

  /** Replaces the leftmost occurrence only. */
  ghost function ReplaceFirst<T>(p: seq<T>, r: seq<T>, s: seq<T>): seq<T> {
    match Find(p, s)
    case None => s
    case Some(i) => s[..i] + r + s[i + |p|..]
  }

  /** The leftmost occurrence is the only index with no earlier occurrence. */
  lemma FindIs<T>(p: seq<T>, s: seq<T>, i: nat)
    requires OccursAt(p, s, i)
    requires forall j: nat :: j < i ==> !OccursAt(p, s, j)
    ensures Find(p, s) == Some(i)
  {
  }

  /** Occurrences that end inside `s` do not depend on what follows `s`. */
  lemma OccursInPrefix<T>(p: seq<T>, s: seq<T>, x: seq<T>, i: nat)
    requires i + |p| <= |s|
    ensures OccursAt(p, s + x, i) <==> OccursAt(p, s, i)
  {
    assert (s + x)[i..i + |p|] == s[i..i + |p|];
  }

  lemma OccursInSuffix<T>(p: seq<T>, s: seq<T>, k: nat, i: nat)
    requires k <= |s|
    ensures OccursAt(p, s, k + i) <==> OccursAt(p, s[k..], i)
  {
    if k + i + |p| <= |s| {
      assert s[k + i..k + i + |p|] == s[k..][i..i + |p|];
    }
  }

  /** A match found in a prefix is the match found in every extension. */
  lemma FindStable<T>(p: seq<T>, s: seq<T>, x: seq<T>)
    requires Find(p, s).Some?
    ensures Find(p, s + x) == Find(p, s)
  {
    var i := Find(p, s).value;
    forall j: nat | j <= i ensures OccursAt(p, s + x, j) <==> OccursAt(p, s, j) {
      OccursInPrefix(p, s, x, j);
    }
    FindIs(p, s + x, i);
  }

  /** Skipping a stretch in which no occurrence starts shifts the leftmost occurrence. */
  lemma FindAfter<T>(p: seq<T>, s: seq<T>, k: nat)
    requires k <= |s|
    requires forall j: nat :: j < k ==> !OccursAt(p, s, j)
    ensures Find(p, s) == (match Find(p, s[k..]) case None => None case Some(i) => Some(k + i))
  {
    match Find(p, s[k..]) {
      case None =>
        forall j: nat ensures !OccursAt(p, s, j) {
          if j >= k { OccursInSuffix(p, s, k, j - k); }
        }
      case Some(i) =>
        forall j: nat | j < k + i ensures !OccursAt(p, s, j) {
          if j >= k { OccursInSuffix(p, s, k, j - k); }
        }
        OccursInSuffix(p, s, k, i);
        FindIs(p, s, k + i);
    }
  }

  /** What `ReplaceAll` does when the leftmost occurrence is known. */
  lemma {:induction false} ReplaceAllAt<T>(p: seq<T>, r: seq<T>, s: seq<T>, i: nat)
    requires |p| > 0 && Find(p, s) == Some(i)
    ensures i + |p| <= |s|
    ensures ReplaceAll(p, r, s) == s[..i] + r + ReplaceAll(p, r, s[i + |p|..])
  {
  }

  /** A stretch in which no occurrence starts is copied verbatim. */
  lemma {:induction false} ReplaceAllSkips<T>(p: seq<T>, r: seq<T>, s: seq<T>, k: nat)
    requires |p| > 0 && k <= |s|
    requires forall j: nat :: j < k ==> !OccursAt(p, s, j)
    ensures ReplaceAll(p, r, s) == s[..k] + ReplaceAll(p, r, s[k..])
  {
    var found := Find(p, s[k..]);
    FindAfter(p, s, k);
    if found.Some? {
      ReplaceAllShifted(p, r, s, k, found.value);
    } else {
      assert s == s[..k] + s[k..];
    }
  }

  lemma {:induction false} ReplaceAllShifted<T>(p: seq<T>, r: seq<T>, s: seq<T>, k: nat, i: nat)
    requires |p| > 0 && k <= |s|
    requires Find(p, s[k..]) == Some(i) && Find(p, s) == Some(k + i)
    ensures ReplaceAll(p, r, s) == s[..k] + ReplaceAll(p, r, s[k..])
  {
    var t := s[k..];
    ReplaceAllAt(p, r, s, k + i);
    ReplaceAllAt(p, r, t, i);
    SlicesAgree(s, k, i, |p|);
    Regroup(s[..k], t[..i], r, ReplaceAll(p, r, t[i + |p|..]));
  }

  lemma SlicesAgree<T>(s: seq<T>, k: nat, i: nat, n: nat)
    requires k + i + n <= |s|
    ensures s[k..][i + n..] == s[k + i + n..]
    ensures s[..k + i] == s[..k] + s[k..][..i]
  {
  }

  /** The replacement itself. */
  method Replace<T(==)>(p: seq<T>, r: seq<T>, s: seq<T>) returns (out: seq<T>)
    requires |p| > 0
    ensures out == ReplaceAll(p, r, s)
  {
    out := [];
    var rest := s;
    assert out + ReplaceAll(p, r, rest) == ReplaceAll(p, r, s);
    while true
      invariant out + ReplaceAll(p, r, rest) == ReplaceAll(p, r, s)
      decreases |rest|
    {
      var found := FindIndex(p, rest);
      if found.None? {
        return out + rest;
      }
      var i := found.value;
      ReplaceAllAt(p, r, rest, i);
      Regroup(out, rest[..i], r, ReplaceAll(p, r, rest[i + |p|..]));
      out := out + rest[..i] + r;
      rest := rest[i + |p|..];
    }
  }
}
