/**
Hostname matching, and the TLS host resolver that keeps its list sorted by a cheap key (wildcard or
not, number of dots) so that the first match is the most specific one.
*/
module Hostnames {
  import opened Wrappers
  import opened Sequences
  import opened Text
  import opened Sorting

  predicate IsWildcard(host: string) {
    "*." <= host
  }

  /** Matches the requested hostname against a configured one. */
  predicate MatchHostname(hostname: Option<string>, requested: Option<string>) {
    if hostname.None? || hostname == Some("*") then true
    else if requested.None? then false
    else if IsWildcard(hostname.value) && hostname.value != "*." then
      var root := hostname.value[2..];
      requested.value == root || (|requested.value| > |root| && EndsWith(requested.value, "." + root))
    else requested.value == hostname.value
  }

  /** The domain level by which hostnames are ordered. */
  function Level(host: string): nat {
    Occurrences('.', TrimEnd('.', host))
  }

  /** A wildcard that matches covers the requested name itself or a whole number of its last labels. */
  ghost predicate Covers(root: string, requested: string) {
    root == requested || EndsWith(requested, "." + root)
  }

  lemma MatchIs(host: string, requested: string)
    requires host != "*"
    ensures MatchHostname(Some(host), Some(requested))
            <==> if IsWildcard(host) && host != "*." then Covers(host[2..], requested) else host == requested
  {
  }

  lemma CoversSuffix(root: string, requested: string)
    requires Covers(root, requested)
    ensures EndsWith(requested, root)
  {
    var q := requested;
    if root != q {
      assert q[|q| - |root|..] == q[|q| - |root| - 1..][1..] == ("." + root)[1..] == root;
    }
  }

  /** Of two roots that cover the same name, the longer one ends with a dot and the shorter one. */
  lemma CoversNested(r: string, s: string, requested: string)
    requires Covers(r, requested) && Covers(s, requested)
    ensures |r| < |s| ==> EndsWith(s, "." + r)
    ensures |r| == |s| ==> r == s
  {
    var q := requested;
    CoversSuffix(r, q);
    CoversSuffix(s, q);
    if |r| < |s| {
      assert s[|s| - |r| - 1..] == q[|q| - |r| - 1..];
    }
  }

  lemma {:induction false} DotsNested(r: string, s: string)
    requires EndsWith(s, "." + r)
    ensures Occurrences('.', r) < Occurrences('.', s)
  {
    var x := s[..|s| - |r| - 1];
    assert s == x + ("." + r);
    OccurrencesConcat('.', x, "." + r);
    OccurrencesConcat('.', ".", r);
    assert Occurrences('.', ".") == 1;
  }

  /** The number of dots orders the wildcards that match one name by the length of their roots. */
  lemma {:induction false} LevelOrdersRoots(g: string, h: string, requested: string)
    requires IsWildcard(g) && IsWildcard(h) && |g| > 2 && |h| > 2
    requires Covers(g[2..], requested) && Covers(h[2..], requested)
    requires !EndsWith(requested, ".")
    ensures |g| < |h| ==> Level(g) < Level(h)
    ensures |g| == |h| ==> g == h
  {
    LastOfRoot(g, requested);
    LastOfRoot(h, requested);
    CoversNested(g[2..], h[2..], requested);
    assert g == "*." + g[2..] && h == "*." + h[2..];
    if |g| < |h| {
      DotsNested(g[2..], h[2..]);
      OccurrencesConcat('.', "*.", g[2..]);
      OccurrencesConcat('.', "*.", h[2..]);
    }
  }

  lemma LastOfRoot(h: string, requested: string)
    requires IsWildcard(h) && |h| > 2 && Covers(h[2..], requested) && !EndsWith(requested, ".")
    ensures TrimEnd('.', h) == h
  {
    assert h[|h| - 1] == requested[|requested| - 1];
    assert [requested[|requested| - 1]] == requested[|requested| - 1..];
  }

  // ---------------------------------------------------------------------------------------------
  // The resolver list

  type Resolver = nat
  type Certificate = nat

  datatype Item = Item(host: string, resolver: Resolver)

  /** The comparison by which the list is sorted: wildcards last, more dots first. */
  predicate Before(a: Item, b: Item) {
    if IsWildcard(a.host) != IsWildcard(b.host) then IsWildcard(b.host)
    else Level(a.host) >= Level(b.host)
  }

  lemma BeforeOrder()
    ensures TotalPreorder(Before)
  {
  }

  predicate Registered(items: seq<Item>, host: string) {
    exists i :: 0 <= i < |items| && items[i].host == host
  }

  function Load(items: seq<Item>, host: string, r: Resolver): seq<Item> {
    SortBy(Before, if Registered(items, host) then items else items + [Item(host, r)])
  }

  /** The list after a sequence of registrations. */
  function LoadAll(regs: seq<Item>): seq<Item> {
    if regs == [] then []
    else Load(LoadAll(regs[..|regs| - 1]), regs[|regs| - 1].host, regs[|regs| - 1].resolver)
  }

  class CustomSniResolver {
    var resolvers: seq<Item>
    var fallback: Option<Resolver>
    var fallbackPort: Option<nat>     // set together with the channel for names without a certificate

    constructor ()
      ensures resolvers == [] && fallback == None && fallbackPort == None
    {
      resolvers, fallback, fallbackPort := [], None, None;
    }

    method LoadHostResolver(host: string, r: Resolver)
      modifies this`resolvers
      ensures resolvers == Load(old(resolvers), host, r)
    {
      var found := false;
      for i := 0 to |resolvers|
        invariant found <==> exists j :: 0 <= j < i && resolvers[j].host == host
      {
        if resolvers[i].host == host { found := true; }
      }
      if !found {
        resolvers := resolvers + [Item(host, r)];
      }
      resolvers := SortBy(Before, resolvers);
    }

    /**
    `answers` is what each resolver says to the client.  The resolver of the first host that matches
    decides alone.  Otherwise the fallback does, and a name that is left without a certificate is
    sent to the channel.
    */
    method Resolve(serverName: Option<string>, answers: Resolver -> Option<Certificate>)
      returns (certificate: Option<Certificate>, sent: Option<(string, nat)>)
      ensures var hostname := if serverName.Some? then Some(StripDot(serverName.value)) else None;
              var first := if hostname.Some? then FirstMatch(resolvers, hostname.value) else None;
              && certificate == (if first.Some? then answers(first.value.resolver)
                                 else if fallback.Some? then answers(fallback.value)
                                 else None)
              && (sent.Some? <==> first.None? && certificate.None? && hostname.Some? && fallbackPort.Some?)
              && (sent.Some? ==> sent.value == (hostname.value, fallbackPort.value))
    {
      sent := None;
      var hostname := if serverName.Some? then Some(StripDot(serverName.value)) else None;
      if hostname.Some? {
        for i := 0 to |resolvers|
          invariant FirstMatch(resolvers, hostname.value) == FirstMatch(resolvers[i..], hostname.value)
        {
          if MatchHostname(Some(resolvers[i].host), hostname) {
            certificate := answers(resolvers[i].resolver);
            return;
          }
        }
      }
      certificate := None;
      if fallback.Some? {
        certificate := answers(fallback.value);
      }
      if certificate.None? && fallbackPort.Some? && hostname.Some? {
        sent := Some((hostname.value, fallbackPort.value));
      }
    }
  }

  /** `strip_suffix('.')`. */
  function StripDot(s: string): string {
    if s != [] && s[|s| - 1] == '.' then s[..|s| - 1] else s
  }

  /** One dot at the end does not count. */
  lemma StripDotMeans(s: string)
    ensures StripDot(s + ".") == s
    ensures !EndsWith(s, ".") ==> StripDot(s) == s
  {
    assert (s + ".")[..|s|] == s;
    if s != [] { assert s[|s| - 1..] == [s[|s| - 1]]; }
  }

  function FirstMatch(items: seq<Item>, requested: string): Option<Item> {
    if items == [] then None
    else if MatchHostname(Some(items[0].host), Some(requested)) then Some(items[0])
    else FirstMatch(items[1..], requested)
  }

  // ---------------------------------------------------------------------------------------------
  // What every sequence of registrations leads to

  /** The first registration of `host`. */
  ghost function FirstRegistration(regs: seq<Item>, host: string): Option<Resolver> {
    if regs == [] then None
    else
      var earlier := FirstRegistration(regs[..|regs| - 1], host);
      if earlier.Some? then earlier
      else if regs[|regs| - 1].host == host then Some(regs[|regs| - 1].resolver)
      else None
  }

  ghost predicate NoDuplicates(items: seq<Item>) {
    forall i, j :: 0 <= i < j < |items| ==> items[i].host != items[j].host
  }

  /** The list holds each registered host once, with its first resolver. */
  ghost predicate Holds(items: seq<Item>, regs: seq<Item>) {
    && (forall x :: x in items <==> FirstRegistration(regs, x.host) == Some(x.resolver))
    && SortedBy(Before, items)
    && NoDuplicates(items)
  }

  lemma {:induction false} NoDuplicatesSorted(items: seq<Item>)
    requires NoDuplicates(items)
    ensures NoDuplicates(SortBy(Before, items))
  {
    var sorted := SortBy(Before, items);
    SortByContents(Before, items);
    if !NoDuplicates(sorted) {
      var i, j :| 0 <= i < j < |sorted| && sorted[i].host == sorted[j].host;
      DuplicateInMultiset(items, sorted, i, j);
    }
  }

  lemma {:induction false} DuplicateInMultiset(items: seq<Item>, sorted: seq<Item>, i: nat, j: nat)
    requires multiset(items) == multiset(sorted) && i < j < |sorted|
    requires sorted[i].host == sorted[j].host
    ensures !NoDuplicates(items)
  {
    var x, y := sorted[i], sorted[j];
    assert sorted == sorted[..j] + [y] + sorted[j + 1..];
    assert sorted[..j][i] == x;
    assert x in multiset(sorted[..j]);
    assert multiset(sorted) == multiset(sorted[..j]) + multiset{y} + multiset(sorted[j + 1..]);
    if x == y {
      assert multiset(items)[x] >= 2;
      TwiceIn(items, x);
    } else {
      assert x in multiset(items) && y in multiset(items);
      var a :| 0 <= a < |items| && items[a] == x;
      var b :| 0 <= b < |items| && items[b] == y;
      assert a != b;
    }
  }

  lemma {:induction false} TwiceIn(items: seq<Item>, x: Item)
    requires multiset(items)[x] >= 2
    ensures !NoDuplicates(items)
  {
    var n := |items| - 1;
    assert items == items[..n] + [items[n]];
    if items[n] == x {
      assert x in multiset(items[..n]);
      var i :| 0 <= i < n && items[i] == x;
      assert items[i].host == items[n].host;
    } else {
      TwiceIn(items[..n], x);
    }
  }

  lemma {:induction false} LoadAllHolds(regs: seq<Item>)
    ensures Holds(LoadAll(regs), regs)
  {
    if regs != [] {
      var prev, last := regs[..|regs| - 1], regs[|regs| - 1];
      var items := LoadAll(prev);
      LoadAllHolds(prev);
      var more := if Registered(items, last.host) then items else items + [last];
      assert regs == prev + [last] && items + [last] == items + [Item(last.host, last.resolver)];
      LoadContents(prev, last, items);
      SortHolds(more, regs);
    }
  }

  lemma {:induction false} SortHolds(items: seq<Item>, regs: seq<Item>)
    requires forall x :: x in items <==> FirstRegistration(regs, x.host) == Some(x.resolver)
    requires NoDuplicates(items)
    ensures Holds(SortBy(Before, items), regs)
  {
    BeforeOrder();
    SortBySorted(Before, items);
    SortByContents(Before, items);
    NoDuplicatesSorted(items);
  }

  lemma {:induction false} LoadContents(prev: seq<Item>, last: Item, items: seq<Item>)
    requires forall x :: x in items <==> FirstRegistration(prev, x.host) == Some(x.resolver)
    requires NoDuplicates(items)
    ensures var more := if Registered(items, last.host) then items else items + [last];
            && (forall x :: x in more <==> FirstRegistration(prev + [last], x.host) == Some(x.resolver))
            && NoDuplicates(more)
  {
    RegisteredIs(prev, last.host, items);
    var more := if Registered(items, last.host) then items else items + [last];
    forall x ensures x in more <==> FirstRegistration(prev + [last], x.host) == Some(x.resolver) {
      MemberAfterLoad(prev, last, items, more, x);
    }
    if !Registered(items, last.host) { NoDuplicatesSnoc(items, last); }
  }

  lemma MemberAfterLoad(prev: seq<Item>, last: Item, items: seq<Item>, more: seq<Item>, x: Item)
    requires x in items <==> FirstRegistration(prev, x.host) == Some(x.resolver)
    requires Registered(items, last.host) <==> FirstRegistration(prev, last.host).Some?
    requires more == if Registered(items, last.host) then items else items + [last]
    ensures x in more <==> FirstRegistration(prev + [last], x.host) == Some(x.resolver)
  {
    FirstRegistrationSnoc(prev, last, x.host);
  }

  lemma NoDuplicatesSnoc(items: seq<Item>, last: Item)
    requires NoDuplicates(items) && !Registered(items, last.host)
    ensures NoDuplicates(items + [last])
  {
  }

  lemma FirstRegistrationSnoc(prev: seq<Item>, last: Item, h: string)
    ensures FirstRegistration(prev + [last], h) ==
            if FirstRegistration(prev, h).None? && h == last.host then Some(last.resolver) else FirstRegistration(prev, h)
  {
    assert (prev + [last])[..|prev|] == prev;
  }

  lemma RegisteredIs(prev: seq<Item>, host: string, items: seq<Item>)
    requires forall x :: x in items <==> FirstRegistration(prev, x.host) == Some(x.resolver)
    ensures Registered(items, host) <==> FirstRegistration(prev, host).Some?
  {
    if FirstRegistration(prev, host).Some? {
      assert Item(host, FirstRegistration(prev, host).value) in items;
    } else {
      forall i | 0 <= i < |items| ensures items[i].host != host {
        assert items[i] in items;
      }
    }
  }

  ghost predicate Matches(host: string, requested: string) {
    MatchHostname(Some(host), Some(requested))
  }

  lemma {:induction false} FirstMatchIs(items: seq<Item>, requested: string)
    ensures FirstMatch(items, requested).None? ==> forall x :: x in items ==> !Matches(x.host, requested)
    ensures FirstMatch(items, requested).Some? ==>
              var x := FirstMatch(items, requested).value;
              && x in items && Matches(x.host, requested)
              && (SortedBy(Before, items) ==> forall y :: y in items && Matches(y.host, requested) ==> y == x || Before(x, y))
  {
    if items != [] {
      FirstMatchIs(items[1..], requested);
      assert items == [items[0]] + items[1..];
      if Matches(items[0].host, requested) && SortedBy(Before, items) {
        forall y | y in items && Matches(y.host, requested) ensures y == items[0] || Before(items[0], y) {
          var i :| 0 <= i < |items| && items[i] == y;
        }
      } else if SortedBy(Before, items) {
        assert SortedBy(Before, items[1..]);
      }
    }
  }

  ghost predicate IsRegistered(regs: seq<Item>, host: string) {
    FirstRegistration(regs, host).Some?
  }

  /** `*` is less specific than any other host, and a wildcard less than an exact host or a longer wildcard. */
  ghost predicate LessSpecific(h: string, g: string) {
    && g != "*"
    && (h == "*" || (IsWildcard(h) && (IsWildcard(g) ==> |h| < |g|)))
  }

  /** `best` is the most specific registered host for the name. */
  ghost predicate MostSpecific(regs: seq<Item>, requested: string, best: string) {
    && IsRegistered(regs, best) && Matches(best, requested)
    && forall h :: IsRegistered(regs, h) && Matches(h, requested) && h != best ==> LessSpecific(h, best)
  }

  /** A matching host that the list does not put before another one is less specific. */
  lemma {:induction false} RankedBehind(g: string, h: string, requested: string)
    requires g != "*" && h != "*" && Matches(g, requested) && Matches(h, requested) && !EndsWith(requested, ".")
    ensures g != h && Before(Item(g, 0), Item(h, 0)) ==> LessSpecific(h, g)
  {
    MatchIs(g, requested);
    MatchIs(h, requested);
    if IsWildcard(g) && IsWildcard(h) {
      NotBareWildcard(g, requested);
      NotBareWildcard(h, requested);
      LevelOrdersRoots(g, h, requested);
      LevelOrdersRoots(h, g, requested);
    }
  }

  lemma NotBareWildcard(h: string, requested: string)
    requires IsWildcard(h) && h != "*" && Matches(h, requested) && !EndsWith(requested, ".")
    ensures |h| > 2 && Covers(h[2..], requested)
  {
    assert "*."[1..] == ".";
    MatchIs(h, requested);
  }

  /** What the scan finds is registered, and it finds nothing only if no registered host matches. */
  lemma {:induction false} PickIsRegistered(regs: seq<Item>, requested: string)
    ensures var first := FirstMatch(LoadAll(regs), requested);
            && (first.Some? ==> && FirstRegistration(regs, first.value.host) == Some(first.value.resolver)
                                && Matches(first.value.host, requested))
            && (first.None? ==> forall h :: IsRegistered(regs, h) ==> !Matches(h, requested))
  {
    var items := LoadAll(regs);
    LoadAllHolds(regs);
    FirstMatchIs(items, requested);
    forall h | IsRegistered(regs, h) && Matches(h, requested) ensures FirstMatch(items, requested).Some? {
      assert Item(h, FirstRegistration(regs, h).value) in items;
    }
  }

  /**
  Without `*`, and for every sequence of registrations, the scan picks the exact host if it is
  registered, otherwise the wildcard with the longest matching root.
  */
  lemma {:induction false} PickWithoutStar(regs: seq<Item>, requested: string)
    requires !IsRegistered(regs, "*") && !EndsWith(requested, ".") && FirstMatch(LoadAll(regs), requested).Some?
    ensures MostSpecific(regs, requested, FirstMatch(LoadAll(regs), requested).value.host)
  {
    var items := LoadAll(regs);
    LoadAllHolds(regs);
    FirstMatchIs(items, requested);
    PickIsRegistered(regs, requested);
    var best := FirstMatch(items, requested).value;
    forall h | IsRegistered(regs, h) && Matches(h, requested) && h != best.host ensures LessSpecific(h, best.host) {
      var y := Item(h, FirstRegistration(regs, h).value);
      assert y in items;
      RankedBehind(best.host, h, requested);
    }
  }

  // ---------------------------------------------------------------------------------------------
  // With `*` registered

  /** `g` was registered when `h` was not yet. */
  ghost predicate Earlier(regs: seq<Item>, g: string, h: string) {
    exists i :: 0 <= i < |regs| && regs[i].host == g && forall j :: 0 <= j < i ==> regs[j].host != h
  }

  /** The first registration of every host, in order. */
  ghost function Firsts(regs: seq<Item>): seq<Item> {
    if regs == [] then []
    else
      var prev, last := regs[..|regs| - 1], regs[|regs| - 1];
      if IsRegistered(prev, last.host) then Firsts(prev) else Firsts(prev) + [last]
  }

  /** Hosts that compare as equal stay in the order of their first registration. */
  lemma {:induction false} LoadAllStable(regs: seq<Item>, keep: Item -> bool)
    requires OneClass(Before, keep)
    ensures Filter(keep, LoadAll(regs)) == Filter(keep, Firsts(regs))
  {
    if regs != [] {
      var prev, last := regs[..|regs| - 1], regs[|regs| - 1];
      var items := LoadAll(prev);
      LoadAllStable(prev, keep);
      LoadAllHolds(prev);
      RegisteredIs(prev, last.host, items);
      FilterSnoc(keep, items, last);
      FilterSnoc(keep, Firsts(prev), last);
      assert last == Item(last.host, last.resolver);
      SortByStable(Before, if Registered(items, last.host) then items else items + [last], keep);
    }
  }

  /** The items of a name and of `*`. */
  ghost function Either(q: string): Item -> bool {
    (x: Item) => x.host == q || x.host == "*"
  }

  lemma {:induction false} FirstOfEither(regs: seq<Item>, q: string)
    requires q != "*"
    ensures var found := Filter(Either(q), Firsts(regs));
            && (found == [] <==> !IsRegistered(regs, q) && !IsRegistered(regs, "*"))
            && (found != [] ==> (found[0].host == q <==> Earlier(regs, q, "*")))
  {
    if regs != [] {
      var prev, last := regs[..|regs| - 1], regs[|regs| - 1];
      FirstOfEither(prev, q);
      assert regs == prev + [last];
      FirstRegistrationSnoc(prev, last, q);
      FirstRegistrationSnoc(prev, last, "*");
      FilterSnoc(Either(q), Firsts(prev), last);
      EarlierSnoc(prev, last, q, "*");
      EarlierIsRegistered(prev, q, "*");
    }
  }

  lemma {:induction false} EarlierSnoc(prev: seq<Item>, last: Item, g: string, h: string)
    ensures Earlier(prev + [last], g, h) <==> Earlier(prev, g, h) || (last.host == g && !IsRegistered(prev, h))
  {
    var regs := prev + [last];
    RegisteredMeans(prev, h);
    if Earlier(prev, g, h) {
      var i :| 0 <= i < |prev| && prev[i].host == g && forall j :: 0 <= j < i ==> prev[j].host != h;
      assert regs[i].host == g && forall j :: 0 <= j < i ==> regs[j].host != h;
    }
    if last.host == g && !IsRegistered(prev, h) {
      assert regs[|prev|].host == g && forall j :: 0 <= j < |prev| ==> regs[j].host != h;
    }
    if Earlier(regs, g, h) {
      var i :| 0 <= i < |regs| && regs[i].host == g && forall j :: 0 <= j < i ==> regs[j].host != h;
      assert forall j :: 0 <= j < |prev| ==> prev[j] == regs[j];
    }
  }

  lemma {:induction false} RegisteredMeans(regs: seq<Item>, h: string)
    ensures IsRegistered(regs, h) <==> exists i :: 0 <= i < |regs| && regs[i].host == h
  {
    if regs != [] {
      var n := |regs| - 1;
      RegisteredMeans(regs[..n], h);
      if i :| 0 <= i < n && regs[..n][i].host == h {
        assert regs[i].host == h;
      }
      if i :| 0 <= i < |regs| && regs[i].host == h {
        assert i < n ==> regs[..n][i].host == h;
      }
    }
  }

  lemma EarlierIsRegistered(regs: seq<Item>, g: string, h: string)
    ensures Earlier(regs, g, h) ==> IsRegistered(regs, g)
    ensures IsRegistered(regs, g) && !IsRegistered(regs, h) ==> Earlier(regs, g, h)
  {
    RegisteredMeans(regs, g);
    RegisteredMeans(regs, h);
  }

  /** `*` leaves the name to its exact host. */
  ghost predicate StarYields(regs: seq<Item>, q: string) {
    && q != "*" && !IsWildcard(q) && IsRegistered(regs, q)
    && (Level(q) > 0 || Earlier(regs, q, "*"))
  }

  /**
  With `*` registered the scan picks the exact host, if that has a dot or was registered before `*`;
  in every other case it picks `*`, whatever wildcards match.
  */
  lemma {:induction false} PickWithStar(regs: seq<Item>, q: string)
    requires IsRegistered(regs, "*")
    ensures var first := FirstMatch(LoadAll(regs), q);
            && first.Some?
            && first.value.host == (if StarYields(regs, q) then q else "*")
            && FirstRegistration(regs, first.value.host) == Some(first.value.resolver)
  {
    PickIsExactOrStar(regs, q);
    PickIsRegistered(regs, q);
    if q != "*" && !IsWildcard(q) && IsRegistered(regs, q) {
      if Level(q) > 0 {
        PickHigher(regs, q);
      } else {
        PickFirst(regs, q);
      }
    }
  }

  lemma {:induction false} PickIsExactOrStar(regs: seq<Item>, q: string)
    requires IsRegistered(regs, "*")
    ensures var first := FirstMatch(LoadAll(regs), q);
            && first.Some? && !IsWildcard(first.value.host)
            && (first.value.host == q || first.value.host == "*")
  {
    LoadAllHolds(regs);
    FirstMatchIs(LoadAll(regs), q);
    var star := Item("*", FirstRegistration(regs, "*").value);
    assert star in LoadAll(regs) && Matches("*", q);
  }

  lemma {:induction false} PickHigher(regs: seq<Item>, q: string)
    requires IsRegistered(regs, "*") && IsRegistered(regs, q) && !IsWildcard(q) && Level(q) > 0
    ensures FirstMatch(LoadAll(regs), q).Some? && FirstMatch(LoadAll(regs), q).value.host == q
  {
    LoadAllHolds(regs);
    FirstMatchIs(LoadAll(regs), q);
    PickIsExactOrStar(regs, q);
    var exact := Item(q, FirstRegistration(regs, q).value);
    assert exact in LoadAll(regs) && Matches(q, q);
    assert Level("*") == 0;
  }

  lemma {:induction false} PickFirst(regs: seq<Item>, q: string)
    requires IsRegistered(regs, "*") && q != "*" && !IsWildcard(q) && Level(q) == 0
    ensures FirstMatch(LoadAll(regs), q).Some?
    ensures FirstMatch(LoadAll(regs), q).value.host == q <==> Earlier(regs, q, "*")
  {
    PickIsExactOrStar(regs, q);
    EitherIsOneClass(q);
    LoadAllStable(regs, Either(q));
    FirstOfEither(regs, q);
    FirstMatchIsHead(LoadAll(regs), q);
  }

  lemma EitherIsOneClass(q: string)
    requires !IsWildcard(q) && Level(q) == 0
    ensures OneClass(Before, Either(q))
  {
    assert Level("*") == 0;
  }

  lemma {:induction false} FirstMatchIsHead(items: seq<Item>, q: string)
    requires !IsWildcard(q) && FirstMatch(items, q).Some? && Either(q)(FirstMatch(items, q).value)
    ensures Filter(Either(q), items) != [] && Filter(Either(q), items)[0] == FirstMatch(items, q).value
  {
    assert items == [items[0]] + items[1..];
    FilterCons(Either(q), items[0], items[1..]);
    if !Matches(items[0].host, q) {
      FirstMatchIsHead(items[1..], q);
    }
  }

  // ---------------------------------------------------------------------------------------------
  // Both together

  /**
  For every sequence of registrations and every name: the scan finds nothing exactly when no registered
  host matches, and what it finds is the most specific registered host exactly when `*` is not
  registered, or yields to the exact host, or is all that matches.
  */
  lemma {:induction false} ResolvesMostSpecificIff(regs: seq<Item>, requested: string)
    requires !EndsWith(requested, ".")
    ensures var first := FirstMatch(LoadAll(regs), requested);
            && (first.None? <==> forall h :: IsRegistered(regs, h) ==> !Matches(h, requested))
            && (first.Some? ==> FirstRegistration(regs, first.value.host) == Some(first.value.resolver))
            && (first.Some? ==>
                  (MostSpecific(regs, requested, first.value.host)
                   <==> || !IsRegistered(regs, "*")
                        || StarYields(regs, requested)
                        || forall h :: IsRegistered(regs, h) && Matches(h, requested) ==> h == "*"))
  {
    PickIsRegistered(regs, requested);
    if !IsRegistered(regs, "*") {
      if FirstMatch(LoadAll(regs), requested).Some? {
        PickWithoutStar(regs, requested);
      }
    } else {
      PickWithStar(regs, requested);
      if StarYields(regs, requested) {
        ExactIsMostSpecific(regs, requested);
      }
    }
  }

  lemma ExactIsMostSpecific(regs: seq<Item>, q: string)
    requires q != "*" && !IsWildcard(q) && IsRegistered(regs, q)
    ensures MostSpecific(regs, q, q)
  {
    forall h | IsRegistered(regs, h) && Matches(h, q) && h != q ensures LessSpecific(h, q) {
      if h != "*" { MatchIs(h, q); }
    }
  }

  /** `*` and an exact host without a dot compete for the name. */
  ghost predicate Contested(regs: seq<Item>, q: string) {
    IsRegistered(regs, "*") && q != "*" && !IsWildcard(q) && IsRegistered(regs, q) && Level(q) == 0
  }

  /**
  Registrations that agree on the first resolver of every host give the same choice exactly unless
  `*` and an exact host without a dot compete and were registered in different orders.
  */
  lemma {:induction false} OrderMattersIff(regs: seq<Item>, regs': seq<Item>, requested: string)
    requires !EndsWith(requested, ".")
    requires forall h :: FirstRegistration(regs, h) == FirstRegistration(regs', h)
    ensures FirstMatch(LoadAll(regs), requested) != FirstMatch(LoadAll(regs'), requested)
            <==> Contested(regs, requested) && Earlier(regs, requested, "*") != Earlier(regs', requested, "*")
  {
    assert forall h :: IsRegistered(regs, h) == IsRegistered(regs', h);
    if IsRegistered(regs, "*") {
      PickWithStar(regs, requested);
      PickWithStar(regs', requested);
    } else {
      SameWithoutStar(regs, regs', requested);
    }
  }

  lemma {:induction false} SameWithoutStar(regs: seq<Item>, regs': seq<Item>, requested: string)
    requires !IsRegistered(regs, "*") && !EndsWith(requested, ".")
    requires forall h :: FirstRegistration(regs, h) == FirstRegistration(regs', h)
    ensures FirstMatch(LoadAll(regs), requested) == FirstMatch(LoadAll(regs'), requested)
  {
    PickIsRegistered(regs, requested);
    PickIsRegistered(regs', requested);
    var first, first' := FirstMatch(LoadAll(regs), requested), FirstMatch(LoadAll(regs'), requested);
    if first.Some? && first'.Some? {
      PickWithoutStar(regs, requested);
      PickWithoutStar(regs', requested);
      assert first.value.host == first'.value.host;
    }
  }

  /** Where it shows: any host without a dot, registered after `*` and before it. */
  lemma {:induction false} DotlessHostAndStar(h: string, exact: Resolver, star: Resolver)
    requires h != "*" && !IsWildcard(h) && Level(h) == 0
    ensures FirstMatch(LoadAll([Item("*", star), Item(h, exact)]), h) == Some(Item("*", star))
    ensures FirstMatch(LoadAll([Item(h, exact), Item("*", star)]), h) == Some(Item(h, exact))
  {
    TwoRegistrations(Item("*", star), Item(h, exact));
    TwoRegistrations(Item(h, exact), Item("*", star));
    PickWithStar([Item("*", star), Item(h, exact)], h);
    PickWithStar([Item(h, exact), Item("*", star)], h);
  }

  lemma {:induction false} TwoRegistrations(a: Item, b: Item)
    requires a.host != b.host
    ensures FirstRegistration([a, b], a.host) == Some(a.resolver) && FirstRegistration([a, b], b.host) == Some(b.resolver)
    ensures Earlier([a, b], a.host, b.host) && !Earlier([a, b], b.host, a.host)
  {
    assert [a, b] == [a] + [b] && [a] == [] + [a];
    assert FirstRegistration([], a.host).None? && FirstRegistration([], b.host).None?;
    FirstRegistrationSnoc([], a, a.host);
    FirstRegistrationSnoc([], a, b.host);
    FirstRegistrationSnoc([a], b, a.host);
    FirstRegistrationSnoc([a], b, b.host);
    EarlierSnoc([a], b, a.host, b.host);
    EarlierSnoc([a], b, b.host, a.host);
    EarlierSnoc([], a, a.host, b.host);
    EarlierSnoc([], a, b.host, a.host);
  }
}
