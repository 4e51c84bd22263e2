/**
Stable sorting by a total preorder, as `sort_by` of the standard library does it, and sorting with
removal of duplicates (`sort_unstable` and `dedup`) on strings.
*/
module Sorting {
  import opened Sequences

  /** A comparison that `sort_by` accepts. */
  ghost predicate TotalPreorder<T(!new)>(le: (T, T) -> bool) {
    && (forall x, y :: le(x, y) || le(y, x))
    && (forall x, y, z :: le(x, y) && le(y, z) ==> le(x, z))
  }

  ghost predicate SortedBy<T>(le: (T, T) -> bool, s: seq<T>) {
    forall i, j :: 0 <= i < j < |s| ==> le(s[i], s[j])
  }

  /** Inserts `x` behind every element that is not above it. */
  function Insert<T>(le: (T, T) -> bool, s: seq<T>, x: T): seq<T> {
    if s == [] || le(s[|s| - 1], x) then s + [x]
    else Insert(le, s[..|s| - 1], x) + [s[|s| - 1]]
  }

  function SortBy<T>(le: (T, T) -> bool, s: seq<T>): seq<T> {
    if s == [] then [] else Insert(le, SortBy(le, s[..|s| - 1]), s[|s| - 1])
  }

  lemma {:induction false} InsertContents<T>(le: (T, T) -> bool, s: seq<T>, x: T)
    ensures multiset(Insert(le, s, x)) == multiset(s) + multiset{x}
    ensures forall y :: y in Insert(le, s, x) <==> y in s || y == x
  {
    if s != [] && !le(s[|s| - 1], x) {
      InsertContents(le, s[..|s| - 1], x);
      assert s == s[..|s| - 1] + [s[|s| - 1]];
    }
  }

  lemma {:induction false} InsertSorted<T(!new)>(le: (T, T) -> bool, s: seq<T>, x: T)
    requires TotalPreorder(le) && SortedBy(le, s)
    ensures SortedBy(le, Insert(le, s, x))
  {
    if s != [] && !le(s[|s| - 1], x) {
      var last := s[|s| - 1];
      InsertSorted(le, s[..|s| - 1], x);
      InsertContents(le, s[..|s| - 1], x);
      var front := Insert(le, s[..|s| - 1], x);
      forall i | 0 <= i < |front| ensures le(front[i], last) {
        assert front[i] in front;
      }
    }
  }

  /** Sorting only rearranges. */
  lemma {:induction false} SortByContents<T>(le: (T, T) -> bool, s: seq<T>)
    ensures multiset(SortBy(le, s)) == multiset(s)
    ensures forall x :: x in SortBy(le, s) <==> x in s
  {
    if s != [] {
      SortByContents(le, s[..|s| - 1]);
      InsertContents(le, SortBy(le, s[..|s| - 1]), s[|s| - 1]);
      assert s == s[..|s| - 1] + [s[|s| - 1]];
    }
  }

  lemma {:induction false} SortBySorted<T(!new)>(le: (T, T) -> bool, s: seq<T>)
    requires TotalPreorder(le)
    ensures SortedBy(le, SortBy(le, s))
  {
    if s != [] {
      SortBySorted(le, s[..|s| - 1]);
      InsertSorted(le, SortBy(le, s[..|s| - 1]), s[|s| - 1]);
    }
  }

  /** `keep` holds only of elements that are equal to each other in the order. */
  ghost predicate OneClass<T(!new)>(le: (T, T) -> bool, keep: T -> bool) {
    forall x, y :: keep(x) && keep(y) ==> le(x, y)
  }

  lemma {:induction false} InsertStable<T(!new)>(le: (T, T) -> bool, s: seq<T>, x: T, keep: T -> bool)
    requires OneClass(le, keep)
    ensures Filter(keep, Insert(le, s, x)) == Filter(keep, s) + (if keep(x) then [x] else [])
  {
    if s == [] || le(s[|s| - 1], x) {
      assert (s + [x])[..|s|] == s;
    } else {
      var last := s[|s| - 1];
      InsertStable(le, s[..|s| - 1], x, keep);
      var front := Insert(le, s[..|s| - 1], x);
      assert (front + [last])[..|front|] == front;
    }
  }

  /** Elements that compare as equal keep their order. */
  lemma {:induction false} SortByStable<T(!new)>(le: (T, T) -> bool, s: seq<T>, keep: T -> bool)
    requires OneClass(le, keep)
    ensures Filter(keep, SortBy(le, s)) == Filter(keep, s)
  {
    if s != [] {
      SortByStable(le, s[..|s| - 1], keep);
      InsertStable(le, SortBy(le, s[..|s| - 1]), s[|s| - 1], keep);
    }
  }

  // ---------------------------------------------------------------------------------------------
  // Sorted lists of strings without duplicates

  /** The order of `String`. */
  function StringLe(a: string, b: string): bool {
    if a == [] then true
    else if b == [] then false
    else if a[0] == b[0] then StringLe(a[1..], b[1..])
    else a[0] < b[0]
  }

  lemma {:induction false} StringLeTotal(a: string, b: string)
    ensures StringLe(a, b) || StringLe(b, a)
    ensures StringLe(a, b) && StringLe(b, a) ==> a == b
  {
    if a != [] && b != [] && a[0] == b[0] {
      StringLeTotal(a[1..], b[1..]);
      assert a == [a[0]] + a[1..] && b == [b[0]] + b[1..];
    }
  }

  lemma {:induction false} StringLeTransitive(a: string, b: string, c: string)
    requires StringLe(a, b) && StringLe(b, c)
    ensures StringLe(a, c)
  {
    if a != [] && b != [] && c != [] && a[0] == b[0] == c[0] {
      StringLeTransitive(a[1..], b[1..], c[1..]);
    }
  }

  lemma {:induction false} StringOrder()
    ensures TotalPreorder(StringLe)
  {
    forall a, b ensures StringLe(a, b) || StringLe(b, a) {
      StringLeTotal(a, b);
    }
    forall a, b, c | StringLe(a, b) && StringLe(b, c) ensures StringLe(a, c) {
      StringLeTransitive(a, b, c);
    }
  }

  /** Removes consecutive repetitions. */
  function Dedup(s: seq<string>): seq<string> {
    if |s| <= 1 then s
    else
      var rest := Dedup(s[..|s| - 1]);
      if s[|s| - 1] == s[|s| - 2] then rest else rest + [s[|s| - 1]]
  }

  function SortDedup(s: seq<string>): seq<string> {
    Dedup(SortBy(StringLe, s))
  }

  ghost predicate Ascending(s: seq<string>) {
    forall i, j :: 0 <= i < j < |s| ==> StringLe(s[i], s[j]) && s[i] != s[j]
  }

  lemma {:induction false} DedupAscending(s: seq<string>)
    requires SortedBy(StringLe, s)
    ensures Ascending(Dedup(s))
    ensures forall x :: x in Dedup(s) <==> x in s
    ensures |s| > 0 ==> |Dedup(s)| > 0 && Dedup(s)[|Dedup(s)| - 1] == s[|s| - 1]
  {
    if |s| > 1 {
      var n := |s| - 1;
      var rest := Dedup(s[..n]);
      DedupAscending(s[..n]);
      assert s == s[..n] + [s[n]];
      if s[n] != s[n - 1] {
        forall i | 0 <= i < |rest| ensures StringLe(rest[i], s[n]) && rest[i] != s[n] {
          assert rest[i] in s[..n];
          DistinctFromLast(s, rest[i]);
        }
      }
    }
  }

  lemma DistinctFromLast(s: seq<string>, x: string)
    requires |s| > 1 && SortedBy(StringLe, s) && s[|s| - 1] != s[|s| - 2]
    requires x in s[..|s| - 1]
    ensures StringLe(x, s[|s| - 1]) && x != s[|s| - 1]
  {
    var n := |s| - 1;
    var i :| 0 <= i < n && s[i] == x;
    assert StringLe(x, s[n - 1]) || i == n - 1;
    StringLeTotal(s[n - 1], s[n]);
    StringLeTotal(x, s[n - 1]);
  }

  /** The list holds exactly the given strings, in ascending order. */
  lemma SortDedupAscending(s: seq<string>)
    ensures Ascending(SortDedup(s))
    ensures forall x :: x in SortDedup(s) <==> x in s
  {
    StringOrder();
    SortBySorted(StringLe, s);
    SortByContents(StringLe, s);
    DedupAscending(SortBy(StringLe, s));
  }

  /** The last string is the greatest. */
  lemma LastIsGreatest(s: seq<string>, x: string)
    requires Ascending(s) && x in s
    ensures s != [] && StringLe(x, s[|s| - 1])
  {
    var i :| 0 <= i < |s| && s[i] == x;
    StringLeTotal(x, x);
  }

  lemma SameLast(s: seq<string>, t: seq<string>)
    requires Ascending(s) && Ascending(t) && s != []
    requires forall x :: x in s <==> x in t
    ensures t != [] && s[|s| - 1] == t[|t| - 1]
  {
    var x := s[|s| - 1];
    assert x in s;
    LastIsGreatest(t, x);
    var y := t[|t| - 1];
    assert y in t;
    LastIsGreatest(s, y);
    StringLeTotal(x, y);
  }

  lemma SameFronts(s: seq<string>, t: seq<string>, last: string)
    requires Ascending(s + [last]) && Ascending(t + [last])
    requires forall x :: x in s + [last] <==> x in t + [last]
    ensures Ascending(s) && Ascending(t)
    ensures forall x :: x in s <==> x in t
  {
    AscendingFront(s, last);
    AscendingFront(t, last);
    forall x ensures x in s <==> x in t {
      assert x in s + [last] <==> x in t + [last];
    }
  }

  lemma AscendingFront(s: seq<string>, last: string)
    requires Ascending(s + [last])
    ensures Ascending(s) && last !in s
  {
    var all := s + [last];
    forall i, j | 0 <= i < j < |s| ensures StringLe(s[i], s[j]) && s[i] != s[j] {
      assert s[i] == all[i] && s[j] == all[j];
    }
    forall i | 0 <= i < |s| ensures s[i] != last {
      assert all[i] != all[|s|];
    }
  }

  lemma {:induction false} AscendingUnique(s: seq<string>, t: seq<string>)
    requires Ascending(s) && Ascending(t)
    requires forall x :: x in s <==> x in t
    ensures s == t
    decreases |s|
  {
    if s == [] {
      FirstIsIn(t);
    } else {
      SameLast(s, t);
      var last, s', t' := s[|s| - 1], s[..|s| - 1], t[..|t| - 1];
      assert s == s' + [last] && t == t' + [last];
      SameFronts(s', t', last);
      AscendingUnique(s', t');
    }
  }

  lemma FirstIsIn(t: seq<string>)
    ensures t != [] ==> t[0] in t
  {
  }

  /** Lists that name the same strings, in whatever order and however often, become equal. */
  lemma SortDedupCanonical(s: seq<string>, t: seq<string>)
    requires forall x :: x in s <==> x in t
    ensures SortDedup(s) == SortDedup(t)
  {
    SortDedupAscending(s);
    SortDedupAscending(t);
    AscendingUnique(SortDedup(s), SortDedup(t));
  }
}
