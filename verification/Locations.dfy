/**
Location matching, the slash count by which locations are ranked, and removal of a location prefix.
Paths are the strings of the non-Windows build.
*/
module Locations {
  import opened Wrappers
  import opened Sequences
  import opened Text
  import opened Search

  // ---------------------------------------------------------------------------------------------
  // Normalised prefixes

  /** One pass that writes one slash for every run of slashes; `inRun` says that `s` continues a run. */
  function Squeeze(inRun: bool, s: string): string
    decreases |s|
  {
    if s == [] then []
    else if s[0] != '/' then [s[0]] + Squeeze(false, s[1..])
    else if inRun then Squeeze(true, s[1..])
    else "/" + Squeeze(true, s[1..])
  }

  function EndsInRun(inRun: bool, s: string): bool {
    if s == [] then inRun else s[|s| - 1] == '/'
  }

  /** The prefix that a configured location stands for. */
  function Normal(path: string): string {
    Squeeze(false, TrimEnd('/', path))
  }

  ghost predicate HasDoubleSlash(s: string) {
    Find("//", s).Some?
  }

  lemma {:induction false} SqueezeConcat(inRun: bool, a: string, b: string)
    ensures Squeeze(inRun, a + b) == Squeeze(inRun, a) + Squeeze(EndsInRun(inRun, a), b)
    decreases |a|
  {
    if a == [] {
      assert a + b == b;
    } else {
      var inRun' := a[0] == '/';
      assert (a + b)[1..] == a[1..] + b;
      SqueezeConcat(inRun', a[1..], b);
      SqueezeCons(inRun, a);
      SqueezeCons(inRun, a + b);
      Assoc(First(inRun, a[0]), Squeeze(inRun', a[1..]), Squeeze(EndsInRun(inRun', a[1..]), b));
    }
  }

  /** What one character contributes. */
  function First(inRun: bool, c: char): string {
    if c == '/' && inRun then [] else [c]
  }

  lemma SqueezeCons(inRun: bool, s: string)
    requires s != []
    ensures Squeeze(inRun, s) == First(inRun, s[0]) + Squeeze(s[0] == '/', s[1..])
    ensures EndsInRun(inRun, s) == EndsInRun(s[0] == '/', s[1..])
  {
  }

  /** Replacing every `//` by `/` does not change what squeezing gives. */
  lemma {:induction false} SqueezeReplace(inRun: bool, s: string)
    ensures Squeeze(inRun, ReplaceAll("//", "/", s)) == Squeeze(inRun, s)
    decreases |s|
  {
    var found := Find("//", s);
    if found.Some? {
      var i := found.value;
      var a, rest := s[..i], s[i + 2..];
      MatchSplits(s, i);
      SqueezeReplace(true, rest);
      SqueezeMatch(inRun, a, rest, ReplaceAll("//", "/", rest));
    }
  }

  lemma {:induction false} MatchSplits(s: string, i: nat)
    requires Find("//", s) == Some(i)
    ensures i + 2 <= |s| && s == s[..i] + ("//" + s[i + 2..])
    ensures ReplaceAll("//", "/", s) == s[..i] + ("/" + ReplaceAll("//", "/", s[i + 2..]))
  {
    ReplaceAllAt("//", "/", s, i);
    assert s[i..i + 2] == "//";
    Cut(s, i, i + 2);
    Assoc(s[..i], "/", ReplaceAll("//", "/", s[i + 2..]));
  }

  lemma Cut(s: string, i: nat, j: nat)
    requires i <= j <= |s|
    ensures s == s[..i] + (s[i..j] + s[j..])
  {
  }

  lemma {:induction false} SqueezeMatch(inRun: bool, a: string, rest: string, replaced: string)
    requires Squeeze(true, replaced) == Squeeze(true, rest)
    ensures Squeeze(inRun, a + ("/" + replaced)) == Squeeze(inRun, a + ("//" + rest))
  {
    var run := EndsInRun(inRun, a);
    SqueezeConcat(inRun, a, "//" + rest);
    SqueezeConcat(inRun, a, "/" + replaced);
    SqueezeSlashes(run, rest);
    SqueezeSlash(run, replaced);
  }

  lemma SqueezeSlash(inRun: bool, s: string)
    ensures Squeeze(inRun, "/" + s) == (if inRun then "" else "/") + Squeeze(true, s)
  {
    assert ("/" + s)[1..] == s;
  }

  lemma SqueezeSlashes(inRun: bool, s: string)
    ensures Squeeze(inRun, "//" + s) == (if inRun then "" else "/") + Squeeze(true, s)
  {
    assert "//" + s == "/" + ("/" + s);
    SqueezeSlash(inRun, "/" + s);
    SqueezeSlash(true, s);
  }

  /** A path without `//` is already squeezed. */
  lemma {:induction false} SqueezedAlready(inRun: bool, s: string)
    requires !HasDoubleSlash(s) && !(inRun && s != [] && s[0] == '/')
    ensures Squeeze(inRun, s) == s
    decreases |s|
  {
    if s != [] {
      assert s == [s[0]] + s[1..];
      NoDoubleInTail(s);
      SqueezedAlready(s[0] == '/', s[1..]);
    }
  }

  lemma {:induction false} NoDoubleInTail(s: string)
    requires s != [] && !HasDoubleSlash(s)
    ensures !HasDoubleSlash(s[1..])
    ensures s[0] == '/' && |s| > 1 ==> s[1] != '/'
  {
    if HasDoubleSlash(s[1..]) {
      OccursInSuffix("//", s, 1, Find("//", s[1..]).value);
    }
    if |s| > 1 {
      assert s[0..2] == [s[0], s[1]];
      assert !OccursAt("//", s, 0);
    }
  }

  /** Squeezing leaves no `//`. */
  lemma {:induction false} SqueezedHasNone(inRun: bool, s: string, i: nat)
    ensures !OccursAt("//", Squeeze(inRun, s), i)
    ensures inRun && Squeeze(inRun, s) != [] ==> Squeeze(inRun, s)[0] != '/'
    decreases |s|
  {
    if s != [] {
      var rest := Squeeze(s[0] == '/', s[1..]);
      SqueezedHasNone(s[0] == '/', s[1..], if i > 0 then i - 1 else 0);
      if s[0] == '/' && inRun {
        SqueezedHasNone(true, s[1..], i);
      } else {
        ConsHasNone(s[0], rest, i);
      }
    }
  }

  lemma ConsHasNone(c: char, rest: string, i: nat)
    requires c == '/' && rest != [] ==> rest[0] != '/'
    requires i > 0 ==> !OccursAt("//", rest, i - 1)
    ensures !OccursAt("//", [c] + rest, i)
  {
    var t := [c] + rest;
    if i > 0 {
      assert i + 2 <= |t| ==> t[i..i + 2] == rest[i - 1..i + 1];
    } else if rest != [] {
      assert t[0..2][0] == c && t[0..2][1] == rest[0];
    }
  }

  /** The loop `while s.contains("//") { s = s.replace("//", "/") }`, which ends because it shortens. */
  method CollapseSlashes(s: string) returns (t: string)
    ensures t == Squeeze(false, s)
    ensures !HasDoubleSlash(t)
  {
    t := s;
    while true
      invariant Squeeze(false, t) == Squeeze(false, s)
      decreases |t|
    {
      var more := Contains("//", t);
      if !more {
        SqueezedAlready(false, t);
        return;
      }
      SqueezeReplace(false, t);
      ReplaceShortens(t);
      t := Replace("//", "/", t);
    }
  }

  lemma {:induction false} ReplaceShortens(s: string)
    ensures |ReplaceAll("//", "/", s)| <= |s|
    ensures HasDoubleSlash(s) ==> |ReplaceAll("//", "/", s)| < |s|
    decreases |s|
  {
    var found := Find("//", s);
    if found.Some? {
      ReplaceShortens(s[found.value + 2..]);
    }
  }

  method DropTrailingSlashes(path: string) returns (t: string)
    ensures t == TrimEnd('/', path)
  {
    t := path;
    while t != [] && t[|t| - 1] == '/'
      invariant TrimEnd('/', t) == TrimEnd('/', path)
    {
      t := t[..|t| - 1];
    }
  }

  // ---------------------------------------------------------------------------------------------
  // Matching and prefix removal

  /** The request path is the prefix, or lies below it. */
  predicate Under(prefix: string, requested: string) {
    prefix == requested || prefix + "/" <= requested
  }

  /** The outcome of a location match, the loop over the request path included. */
  ghost predicate Matches(path: string, requested: string) {
    HasDoubleSlash(requested) || Under(Normal(path), requested)
  }

  /**
  As written, the loop over the request path assigns it from the configured path, so a request path
  that contains `//` matches every location; other request paths match what lies at or below the
  normalised prefix.
  */
  method MatchLocation(path: string, requested: string) returns (matches: bool)
    ensures matches <==> Matches(path, requested)
  {
    var trimmed := DropTrailingSlashes(path);
    var prepared := CollapseSlashes(trimmed);
    var request := requested;
    var more := Contains("//", request);
    while more
      invariant more <==> HasDoubleSlash(request)
      invariant if HasDoubleSlash(requested) then request == requested || request == prepared else request == requested
      decreases more
    {
      request := Replace("//", "/", prepared);
      more := Contains("//", request);
    }
    return prepared == request || prepared + "/" <= request;
  }

  /** The location prefix taken off a request path, if it is there. */
  method RemovePrefix(path: string, requested: string) returns (r: Option<string>)
    ensures r.Some? <==> Under(Normal(path), requested)
    ensures r.Some? ==> |r.value| > 0 && r.value[0] == '/'
    ensures r.Some? && requested != Normal(path) ==> Normal(path) + r.value == requested
    ensures requested == Normal(path) ==> r == Some("/")
    ensures !HasDoubleSlash(requested) ==> (r.Some? <==> Matches(path, requested))
  {
    var trimmed := DropTrailingSlashes(path);
    var prepared := CollapseSlashes(trimmed);
    if requested == prepared {
      return Some("/");
    } else if prepared + "/" <= requested {
      assert requested[|prepared|] == (prepared + "/")[|prepared|];
      return Some(requested[|prepared|..]);
    }
    return None;
  }

  /** With `//` the two part: a path that begins with `//` matches every location, and loses no prefix but the empty one. */
  lemma {:induction false} LeadingDoubleSlash(path: string, requested: string)
    requires "//" <= requested && Normal(path) != []
    ensures Matches(path, requested) && !Under(Normal(path), requested)
  {
    assert OccursAt("//", requested, 0);
    var n := Normal(path);
    SqueezedHasNone(false, TrimEnd('/', path), 0);
    NormalEnd(path);
    assert requested[0] == '/' && requested[1] == '/';
    assert (n + "/")[0] == n[0];
    if |n| >= 2 {
      assert (n + "/")[1] == n[1];
      assert n[0..2] == [n[0], n[1]];
    }
  }

  lemma {:induction false} NormalEnd(path: string)
    ensures Normal(path) != [] ==> Normal(path)[|Normal(path)| - 1] != '/'
  {
    var t := TrimEnd('/', path);
    TrimmedEnd(path);
    if t != [] {
      assert t[..|t| - 1 + 1] == t;
      SqueezeSnoc(t, |t| - 1);
    }
  }

  lemma {:induction false} TrimmedEnd(path: string)
    ensures TrimEnd('/', path) != [] ==> TrimEnd('/', path)[|TrimEnd('/', path)| - 1] != '/'
  {
    if path != [] && path[|path| - 1] == '/' { TrimmedEnd(path[..|path| - 1]); }
  }

  // ---------------------------------------------------------------------------------------------
  // The slash count

  /** The rank of a location: the slashes of its normalised prefix. */
  function LogicalSlashes(path: string): nat {
    Occurrences('/', Normal(path))
  }

  method CountLogicalSlashes(s: string) returns (count: nat)
    ensures count == LogicalSlashes(s)
  {
    if s == [] {
      return 0;
    }
    var trimmed := DropTrailingSlashes(s);
    if trimmed == [] {
      return 0;
    }
    count := 0;
    var previousWasSlash := false;
    for i := 0 to |trimmed|
      invariant count == Occurrences('/', Squeeze(false, trimmed[..i]))
      invariant previousWasSlash == EndsInRun(false, trimmed[..i])
    {
      SqueezeSnoc(trimmed, i);
      if trimmed[i] == '/' {
        if !previousWasSlash {
          count := count + 1;
          previousWasSlash := true;
        }
      } else {
        previousWasSlash := false;
      }
    }
    assert trimmed[..|trimmed|] == trimmed;
  }

  lemma {:induction false} SqueezeSnoc(s: string, i: nat)
    requires i < |s|
    ensures var before := Squeeze(false, s[..i]);
            && Squeeze(false, s[..i + 1]) == before + (if s[i] == '/' && EndsInRun(false, s[..i]) then [] else [s[i]])
            && Occurrences('/', Squeeze(false, s[..i + 1]))
               == Occurrences('/', before) + (if s[i] == '/' && !EndsInRun(false, s[..i]) then 1 else 0)
  {
    assert s[..i + 1] == s[..i] + [s[i]];
    SqueezeConcat(false, s[..i], [s[i]]);
    assert [s[i]][1..] == [];
    var before := Squeeze(false, s[..i]);
    assert (before + [s[i]])[..|before|] == before;
    assert before + [] == before;
  }

  /**
  Prefixes of locations that match one request path are nested, and the slash count ranks them by
  their length: it is larger for the longer prefix, and equal only for equal prefixes.
  */
  lemma {:induction false} SlashesRankPrefixes(p: string, q: string, requested: string)
    requires !HasDoubleSlash(requested) && Matches(p, requested) && Matches(q, requested)
    ensures |Normal(p)| < |Normal(q)| ==> Normal(p) + "/" <= Normal(q) && LogicalSlashes(p) < LogicalSlashes(q)
    ensures |Normal(p)| == |Normal(q)| <==> Normal(p) == Normal(q)
    ensures LogicalSlashes(p) == LogicalSlashes(q) <==> Normal(p) == Normal(q)
  {
    UnderNested(Normal(p), Normal(q), requested);
    UnderNested(Normal(q), Normal(p), requested);
  }

  lemma {:induction false} UnderNested(m: string, n: string, requested: string)
    requires Under(m, requested) && Under(n, requested)
    ensures |m| < |n| ==> m + "/" <= n && Occurrences('/', m) < Occurrences('/', n)
    ensures |m| == |n| ==> m == n
  {
    assert m == requested[..|m|] && n == requested[..|n|];
    if |m| < |n| {
      assert requested[|m|] == (m + "/")[|m|];
      assert n == m + "/" + n[|m| + 1..];
      OccurrencesConcat('/', m + "/", n[|m| + 1..]);
      OccurrencesConcat('/', m, "/");
      assert Occurrences('/', "/") == 1;
    }
  }
}
