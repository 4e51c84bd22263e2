/**
Choice of the server configuration for a request.  Configurations are sorted by a chain of cheap
keys, and the scan from the end takes the first one that matches.
*/
module Routing {
  import opened Wrappers
  import opened Sequences
  import opened Text
  import opened Sorting
  import opened Hostnames
  import Locations

  type Ip = nat
  /** Conditionals are evaluated by the request; here they are opaque. */
  type Conditional = nat

  datatype Conditions = Conditions(locationPrefix: string, conditionals: seq<Conditional>)

  datatype ErrorStatus = AnyStatus | Status(code: nat)

  datatype Filters = Filters(
    isHost: bool,
    hostname: Option<string>,
    ip: Option<Ip>,
    port: Option<nat>,
    condition: Option<Conditions>,
    errorStatus: Option<ErrorStatus>)

  // ---------------------------------------------------------------------------------------------
  // The comparison

  datatype Ordering = Less | Equal | Greater {
    function Then(next: Ordering): Ordering {
      if this.Equal? then next else this
    }
  }

  function CmpInt(a: int, b: int): Ordering {
    if a < b then Less else if a == b then Equal else Greater
  }

  function CmpBool(a: bool, b: bool): Ordering {
    CmpInt(if a then 1 else 0, if b then 1 else 0)
  }

  /** `None` comes before every `Some`. */
  function CmpOption(a: Option<int>, b: Option<int>): Ordering {
    if a.None? && b.None? then Equal
    else if a.None? then Less
    else if b.None? then Greater
    else CmpInt(a.value, b.value)
  }

  function CmpConditions(a: Conditions, b: Conditions): Ordering {
    CmpInt(Locations.LogicalSlashes(a.locationPrefix), Locations.LogicalSlashes(b.locationPrefix))
      .Then(CmpInt(|a.conditionals|, |b.conditionals|))
  }

  function CmpCondition(a: Option<Conditions>, b: Option<Conditions>): Ordering {
    if a.None? && b.None? then Equal
    else if a.None? then Less
    else if b.None? then Greater
    else CmpConditions(a.value, b.value)
  }

  function ExactHost(h: Option<string>): Option<int> {
    if h.None? then None else Some(if IsWildcard(h.value) then 0 else 1)
  }

  function HostLevel(h: Option<string>): Option<int> {
    if h.None? then None else Some(Level(h.value))
  }

  function CmpHost(a: Option<string>, b: Option<string>): Ordering {
    CmpOption(ExactHost(a), ExactHost(b)).Then(CmpOption(HostLevel(a), HostLevel(b)))
  }

  /** The first half of the chain, up to the address. */
  function CmpAddress(a: Filters, b: Filters): Ordering {
    CmpBool(a.isHost, b.isHost).Then(CmpBool(a.port.Some?, b.port.Some?)).Then(CmpBool(a.ip.Some?, b.ip.Some?))
  }

  function Cmp(a: Filters, b: Filters): Ordering {
    CmpAddress(a, b)
      .Then(CmpHost(a.hostname, b.hostname))
      .Then(CmpCondition(a.condition, b.condition))
      .Then(CmpBool(a.errorStatus.Some?, b.errorStatus.Some?))
  }

  datatype Config = Config(filters: Filters, id: nat)

  predicate Le(a: Config, b: Config) {
    !Cmp(a.filters, b.filters).Greater?
  }

  /** `o` compares `x` and `y`, `p` compares `y` and `z`, `r` compares `x` and `z`: they fit together. */
  predicate Consistent(o: Ordering, p: Ordering, r: Ordering) {
    && (o.Equal? ==> r == p)
    && (p.Equal? ==> r == o)
    && (o.Less? && p.Less? ==> r.Less?)
    && (o.Greater? && p.Greater? ==> r.Greater?)
  }

  lemma ThenConsistent(o: Ordering, p: Ordering, r: Ordering, o': Ordering, p': Ordering, r': Ordering)
    requires Consistent(o, p, r) && Consistent(o', p', r')
    ensures Consistent(o.Then(o'), p.Then(p'), r.Then(r'))
  {
  }

  lemma ChainConsistent(o1: Ordering, p1: Ordering, r1: Ordering, o2: Ordering, p2: Ordering, r2: Ordering,
                        o3: Ordering, p3: Ordering, r3: Ordering)
    requires Consistent(o1, p1, r1) && Consistent(o2, p2, r2) && Consistent(o3, p3, r3)
    ensures Consistent(o1.Then(o2).Then(o3), p1.Then(p2).Then(p3), r1.Then(r2).Then(r3))
  {
    ThenConsistent(o1, p1, r1, o2, p2, r2);
    ThenConsistent(o1.Then(o2), p1.Then(p2), r1.Then(r2), o3, p3, r3);
  }

  lemma AddressConsistent(a: Filters, b: Filters, c: Filters)
    ensures Consistent(CmpAddress(a, b), CmpAddress(b, c), CmpAddress(a, c))
  {
    ChainConsistent(CmpBool(a.isHost, b.isHost), CmpBool(b.isHost, c.isHost), CmpBool(a.isHost, c.isHost),
                    CmpBool(a.port.Some?, b.port.Some?), CmpBool(b.port.Some?, c.port.Some?), CmpBool(a.port.Some?, c.port.Some?),
                    CmpBool(a.ip.Some?, b.ip.Some?), CmpBool(b.ip.Some?, c.ip.Some?), CmpBool(a.ip.Some?, c.ip.Some?));
  }

  lemma CmpConsistent(a: Filters, b: Filters, c: Filters)
    ensures Consistent(Cmp(a, b), Cmp(b, c), Cmp(a, c))
  {
    AddressConsistent(a, b, c);
    HostConsistent(a.hostname, b.hostname, c.hostname);
    ConditionConsistent(a.condition, b.condition, c.condition);
    FourConsistent(CmpAddress(a, b), CmpAddress(b, c), CmpAddress(a, c),
                   CmpHost(a.hostname, b.hostname), CmpHost(b.hostname, c.hostname), CmpHost(a.hostname, c.hostname),
                   CmpCondition(a.condition, b.condition), CmpCondition(b.condition, c.condition), CmpCondition(a.condition, c.condition),
                   CmpBool(a.errorStatus.Some?, b.errorStatus.Some?), CmpBool(b.errorStatus.Some?, c.errorStatus.Some?),
                   CmpBool(a.errorStatus.Some?, c.errorStatus.Some?));
  }

  lemma FourConsistent(o1: Ordering, p1: Ordering, r1: Ordering, o2: Ordering, p2: Ordering, r2: Ordering,
                       o3: Ordering, p3: Ordering, r3: Ordering, o4: Ordering, p4: Ordering, r4: Ordering)
    requires Consistent(o1, p1, r1) && Consistent(o2, p2, r2) && Consistent(o3, p3, r3) && Consistent(o4, p4, r4)
    ensures Consistent(o1.Then(o2).Then(o3).Then(o4), p1.Then(p2).Then(p3).Then(p4), r1.Then(r2).Then(r3).Then(r4))
  {
    ChainConsistent(o1, p1, r1, o2, p2, r2, o3, p3, r3);
    ThenConsistent(o1.Then(o2).Then(o3), p1.Then(p2).Then(p3), r1.Then(r2).Then(r3), o4, p4, r4);
  }

  lemma HostConsistent(a: Option<string>, b: Option<string>, c: Option<string>)
    ensures Consistent(CmpHost(a, b), CmpHost(b, c), CmpHost(a, c))
  {
    ThenConsistent(CmpOption(ExactHost(a), ExactHost(b)), CmpOption(ExactHost(b), ExactHost(c)), CmpOption(ExactHost(a), ExactHost(c)),
                   CmpOption(HostLevel(a), HostLevel(b)), CmpOption(HostLevel(b), HostLevel(c)), CmpOption(HostLevel(a), HostLevel(c)));
  }

  lemma ConditionConsistent(a: Option<Conditions>, b: Option<Conditions>, c: Option<Conditions>)
    ensures Consistent(CmpCondition(a, b), CmpCondition(b, c), CmpCondition(a, c))
  {
  }

  function Opposite(o: Ordering): Ordering {
    match o case Less => Greater case Equal => Equal case Greater => Less
  }

  lemma CmpReversed(a: Filters, b: Filters)
    ensures Cmp(b, a) == Opposite(Cmp(a, b))
  {
  }

  /** The comparison is one that sorting accepts. */
  lemma LeOrder()
    ensures TotalPreorder(Le)
  {
    forall a, b ensures Le(a, b) || Le(b, a) {
      CmpReversed(a.filters, b.filters);
    }
    forall a, b, c | Le(a, b) && Le(b, c) ensures Le(a, c) {
      CmpConsistent(a.filters, b.filters, c.filters);
    }
  }

  // ---------------------------------------------------------------------------------------------
  // Matching

  /** The parts of a request that configurations are matched against. */
  datatype Query = Query(
    hostname: Option<string>,
    localIp: Ip,
    localPort: nat,
    loopback: bool,
    path: string,
    conditions: map<Conditional, Option<bool>>)   // what each conditional evaluates to; `None` is an error

  datatype Verdict = Yes | No | Error

  function Evaluate(q: Query, c: Conditional): Verdict {
    if c !in q.conditions || q.conditions[c].None? then Error else if q.conditions[c].value then Yes else No
  }

  ghost function MatchConditionals(q: Query, cs: seq<Conditional>): Verdict {
    if cs == [] then Yes
    else if Evaluate(q, cs[0]).Yes? then MatchConditionals(q, cs[1..])
    else Evaluate(q, cs[0])
  }

  ghost function ConditionVerdict(q: Query, c: Option<Conditions>): Verdict {
    if c.None? then Yes
    else if !Locations.Matches(c.value.locationPrefix, q.path) then No
    else MatchConditionals(q, c.value.conditionals)
  }

  predicate IsLocalhost(hostname: Option<string>) {
    hostname.Some? && var h := TrimEnd('.', Lower(hostname.value)); h == "localhost" || EndsWith(h, ".localhost")
  }

  predicate AddressMatches(q: Query, f: Filters) {
    && MatchHostname(f.hostname, q.hostname)
    && ((f.ip.None? && (!IsLocalhost(f.hostname) || q.loopback)) || f.ip == Some(q.localIp))
    && (f.port.None? || f.port == Some(q.localPort))
  }

  ghost function MatchFilters(q: Query, f: Filters): Verdict {
    if !AddressMatches(q, f) then No
    else if ConditionVerdict(q, f.condition).Yes? then (if f.errorStatus.None? then Yes else No)
    else ConditionVerdict(q, f.condition)
  }

  method EvaluateConditions(q: Query, c: Conditions) returns (v: Verdict)
    ensures v == ConditionVerdict(q, Some(c))
  {
    var located := Locations.MatchLocation(c.locationPrefix, q.path);
    if !located {
      return No;
    }
    for i := 0 to |c.conditionals|
      invariant MatchConditionals(q, c.conditionals) == MatchConditionals(q, c.conditionals[i..])
    {
      if Evaluate(q, c.conditionals[i]) != Yes {
        return Evaluate(q, c.conditionals[i]);
      }
    }
    return Yes;
  }

  // ---------------------------------------------------------------------------------------------
  // The sorted list and the scan

  class ServerConfigurations {
    var inner: seq<Config>

    constructor (configs: seq<Config>)
      ensures inner == SortBy(Le, Reverse(configs))
    {
      inner := SortBy(Le, Reverse(configs));
    }

    method FindConfiguration(q: Query) returns (r: Result<Option<Config>, ()>)
      ensures r == Scan(q, inner)
    {
      var i := |inner|;
      assert inner[..i] == inner;
      while i > 0
        invariant 0 <= i <= |inner|
        invariant Scan(q, inner) == Scan(q, inner[..i])
      {
        i := i - 1;
        assert inner[..i + 1][..i] == inner[..i];
        var f := inner[i].filters;
        if AddressMatches(q, f) {
          var v := Yes;
          if f.condition.Some? {
            v := EvaluateConditions(q, f.condition.value);
          }
          if v == Error {
            return Failure(());
          }
          if v == Yes && f.errorStatus.None? {
            return Success(Some(inner[i]));
          }
        }
      }
      return Success(None);
    }
  }

  ghost function Scan(q: Query, inner: seq<Config>): Result<Option<Config>, ()> {
    if inner == [] then Success(None)
    else
      var last := inner[|inner| - 1];
      match MatchFilters(q, last.filters)
      case Yes => Success(Some(last))
      case Error => Failure(())
      case No => Scan(q, inner[..|inner| - 1])
  }

  // ---------------------------------------------------------------------------------------------
  // The cheap keys against real specificity

  /** A configuration for hosts beats one that is not; then one that names a port, then one that names an address. */
  ghost predicate AddressBeats(a: Filters, b: Filters) {
    || (a.isHost && !b.isHost)
    || (a.isHost == b.isHost && a.port.Some? && b.port.None?)
    || (a.isHost == b.isHost && a.port.Some? == b.port.Some? && a.ip.Some? && b.ip.None?)
  }

  ghost predicate SameAddress(a: Filters, b: Filters) {
    a.isHost == b.isHost && a.port.Some? == b.port.Some? && a.ip.Some? == b.ip.Some?
  }

  /** Any name beats no name, an exact name a wildcard, a longer wildcard a shorter one. */
  ghost predicate HostBeats(a: Option<string>, b: Option<string>) {
    && a.Some?
    && (|| b.None?
        || (!("*." <= a.value) && "*." <= b.value)
        || ("*." <= a.value && "*." <= b.value && |a.value| > |b.value|))
  }

  /** A condition beats none, a longer normalised prefix a shorter one, then more conditionals fewer. */
  ghost predicate ConditionBeats(a: Option<Conditions>, b: Option<Conditions>) {
    && a.Some?
    && (|| b.None?
        || |Locations.Normal(a.value.locationPrefix)| > |Locations.Normal(b.value.locationPrefix)|
        || (|Locations.Normal(a.value.locationPrefix)| == |Locations.Normal(b.value.locationPrefix)|
            && |a.value.conditionals| > |b.value.conditionals|))
  }

  /** Real specificity: the address decides, then the hostname, then the location. */
  ghost predicate Beats(a: Filters, b: Filters) {
    || AddressBeats(a, b)
    || (SameAddress(a, b) && HostBeats(a.hostname, b.hostname))
    || (SameAddress(a, b) && !HostBeats(b.hostname, a.hostname) && ConditionBeats(a.condition, b.condition))
  }

  ghost function Compared(above: bool, below: bool): Ordering {
    if above then Greater else if below then Less else Equal
  }

  /** A request whose path has no `//` and whose host name does not end with a dot. */
  ghost predicate Plain(q: Query) {
    !Locations.HasDoubleSlash(q.path) && (q.hostname.Some? ==> !EndsWith(q.hostname.value, "."))
  }

  lemma {:induction false} HostKeysAreReal(q: Query, a: Option<string>, b: Option<string>)
    requires Plain(q) && a != Some("*") && b != Some("*")
    requires MatchHostname(a, q.hostname) && MatchHostname(b, q.hostname)
    ensures CmpHost(a, b) == Compared(HostBeats(a, b), HostBeats(b, a))
  {
    if a.Some? && b.Some? && IsWildcard(a.value) == IsWildcard(b.value) {
      var name := q.hostname.value;
      if IsWildcard(a.value) {
        NotBareWildcard(a.value, name);
        NotBareWildcard(b.value, name);
        LevelOrdersRoots(a.value, b.value, name);
        LevelOrdersRoots(b.value, a.value, name);
      }
    }
  }

  lemma {:induction false} ConditionKeysAreReal(q: Query, a: Option<Conditions>, b: Option<Conditions>)
    requires Plain(q)
    requires ConditionVerdict(q, a).Yes? && ConditionVerdict(q, b).Yes?
    ensures CmpCondition(a, b) == Compared(ConditionBeats(a, b), ConditionBeats(b, a))
  {
    if a.Some? && b.Some? {
      Locations.SlashesRankPrefixes(a.value.locationPrefix, b.value.locationPrefix, q.path);
      Locations.SlashesRankPrefixes(b.value.locationPrefix, a.value.locationPrefix, q.path);
    }
  }

  /** On configurations that match one request, the cheap keys agree with real specificity. */
  lemma {:induction false} KeysAreReal(q: Query, a: Filters, b: Filters)
    requires Plain(q) && a.hostname != Some("*") && b.hostname != Some("*")
    requires MatchFilters(q, a).Yes? && MatchFilters(q, b).Yes?
    ensures Cmp(a, b) == Compared(Beats(a, b), Beats(b, a))
  {
    HostKeysAreReal(q, a.hostname, b.hostname);
    ConditionKeysAreReal(q, a.condition, b.condition);
  }

  lemma {:induction false} ScanFindsLast(q: Query, inner: seq<Config>)
    ensures Scan(q, inner) == Success(None) ==> forall i :: 0 <= i < |inner| ==> MatchFilters(q, inner[i].filters).No?
    ensures Scan(q, inner).Success? && Scan(q, inner).value.Some? ==>
              exists k :: && 0 <= k < |inner| && inner[k] == Scan(q, inner).value.value
                          && MatchFilters(q, inner[k].filters).Yes?
                          && forall i :: k < i < |inner| ==> MatchFilters(q, inner[i].filters).No?
  {
    if inner != [] {
      var n := |inner| - 1;
      ScanFindsLast(q, inner[..n]);
      if MatchFilters(q, inner[n].filters).Yes? {
        assert inner[n] == Scan(q, inner).value.value;
      } else if MatchFilters(q, inner[n].filters).No? && Scan(q, inner).Success? && Scan(q, inner).value.Some? {
        var k :| 0 <= k < n && inner[..n][k] == Scan(q, inner).value.value && MatchFilters(q, inner[..n][k].filters).Yes?
                 && forall i :: k < i < n ==> MatchFilters(q, inner[..n][i].filters).No?;
        forall i | k < i <= n ensures MatchFilters(q, inner[i].filters).No? {
          assert i == n || inner[i] == inner[..n][i];
        }
        assert inner[k] == Scan(q, inner).value.value;
      }
    }
  }

  // ---------------------------------------------------------------------------------------------
  // What matching means

  /** The configured name is the requested one, or a wildcard whose root is the requested name or a suffix behind a dot. */
  ghost predicate HostFits(host: Option<string>, requested: Option<string>) {
    || host.None? || host.value == "*"
    || (requested.Some?
        && if "*." <= host.value && host.value != "*." then
             requested.value == host.value[2..] || exists front: string :: requested.value == front + ("." + host.value[2..])
           else requested == host)
  }

  /** Up to letter case and dots at the end, the name is `localhost` or ends with `.localhost`. */
  ghost predicate NamesLocalhost(host: string) {
    exists n: nat :: n <= |host| && NamesLocalhostTo(host, n)
  }

  ghost predicate NamesLocalhostTo(host: string, n: nat)
    requires n <= |host|
  {
    && (forall i :: n <= i < |host| ==> host[i] == '.')
    && (Lower(host[..n]) == "localhost" || EndsWith(Lower(host[..n]), ".localhost"))
  }

  ghost predicate AddressFits(q: Query, f: Filters) {
    && HostFits(f.hostname, q.hostname)
    && (f.port.Some? ==> f.port.value == q.localPort)
    && (f.ip.Some? ==> f.ip.value == q.localIp)
    && (f.ip.None? && f.hostname.Some? && NamesLocalhost(f.hostname.value) ==> q.loopback)
  }

  /** The path is the prefix or lies below it, or contains `//`. */
  ghost predicate PathFits(q: Query, f: Filters) {
    f.condition.Some? ==>
      var prefix := Locations.Normal(f.condition.value.locationPrefix);
      Locations.HasDoubleSlash(q.path) || q.path == prefix || prefix + "/" <= q.path
  }

  ghost predicate Holds(q: Query, c: Conditional) {
    c in q.conditions && q.conditions[c] == Some(true)
  }

  /** The conditional cannot be evaluated. */
  ghost predicate Breaks(q: Query, c: Conditional) {
    c !in q.conditions || q.conditions[c].None?
  }

  ghost predicate Matching(q: Query, f: Filters) {
    && AddressFits(q, f) && PathFits(q, f)
    && (f.condition.Some? ==> forall i :: 0 <= i < |f.condition.value.conditionals| ==> Holds(q, f.condition.value.conditionals[i]))
    && f.errorStatus.None?
  }

  /** The first conditional that does not hold cannot be evaluated. */
  ghost predicate BreaksFirst(q: Query, cs: seq<Conditional>) {
    exists i :: 0 <= i < |cs| && Breaks(q, cs[i]) && forall j :: 0 <= j < i ==> Holds(q, cs[j])
  }

  ghost predicate Undecidable(q: Query, f: Filters) {
    AddressFits(q, f) && PathFits(q, f) && f.condition.Some? && BreaksFirst(q, f.condition.value.conditionals)
  }

  lemma {:induction false} LocalhostIs(host: string)
    ensures IsLocalhost(Some(host)) <==> NamesLocalhost(host)
  {
    var n := TrimmedLength(host);
    LowerParts(host, n);
    assert IsLocalhost(Some(host)) <==> NamesLocalhostTo(host, n);
    if n0: nat :| 0 <= n0 <= |host| && NamesLocalhostTo(host, n0) {
      EndsInLetter(host, n0);
      TrimmedUnique(host, n, n0);
    }
  }

  /** Where the dots at the end begin. */
  lemma {:induction false} TrimmedLength(host: string) returns (n: nat)
    ensures n <= |host| && TrimEnd('.', Lower(host)) == Lower(host)[..n]
    ensures forall i :: n <= i < |host| ==> host[i] == '.'
    ensures n > 0 ==> host[n - 1] != '.'
  {
    if host != [] && host[|host| - 1] == '.' {
      var front := host[..|host| - 1];
      n := TrimmedLength(front);
      LowerParts(host, |host| - 1);
      assert Lower(host)[..|host| - 1][..n] == Lower(host)[..n];
    } else {
      n := |host|;
      assert Lower(host)[..n] == Lower(host);
    }
  }

  lemma LowerParts(s: string, n: nat)
    requires n <= |s|
    ensures Lower(s)[..n] == Lower(s[..n])
  {
  }

  lemma EndsInLetter(host: string, n: nat)
    requires n <= |host| && NamesLocalhostTo(host, n)
    ensures n > 0 && host[n - 1] != '.'
  {
    var s := Lower(host[..n]);
    assert ".localhost"[|".localhost"| - 1] == 't' && "localhost"[|"localhost"| - 1] == 't';
    if EndsWith(s, ".localhost") {
      assert s[|s| - 1] == s[|s| - 10..][9];
    }
    assert s[n - 1] == 't';
  }

  lemma TrimmedUnique(host: string, m: nat, n: nat)
    requires m <= |host| && n <= |host|
    requires forall i :: m <= i < |host| ==> host[i] == '.'
    requires forall i :: n <= i < |host| ==> host[i] == '.'
    requires (m > 0 ==> host[m - 1] != '.') && n > 0 && host[n - 1] != '.'
    ensures m == n
  {
  }

  lemma {:induction false} HostFitsIff(host: Option<string>, requested: Option<string>)
    ensures MatchHostname(host, requested) <==> HostFits(host, requested)
  {
    if host.Some? && host.value != "*" && requested.Some? && "*." <= host.value && host.value != "*." {
      var tail := "." + host.value[2..];
      var r := requested.value;
      if EndsWith(r, tail) {
        assert r == r[..|r| - |tail|] + tail;
      }
      if front: string :| r == front + tail {
        assert r[|r| - |tail|..] == tail;
      }
    }
  }

  lemma {:induction false} ConditionalsIff(q: Query, cs: seq<Conditional>)
    ensures MatchConditionals(q, cs).Yes? <==> forall i :: 0 <= i < |cs| ==> Holds(q, cs[i])
    ensures MatchConditionals(q, cs).Error? <==> BreaksFirst(q, cs)
  {
    if cs != [] {
      ConditionalsIff(q, cs[1..]);
      assert forall i :: 1 <= i < |cs| ==> cs[i] == cs[1..][i - 1];
      if Holds(q, cs[0]) { BreaksFirstCons(q, cs[0], cs[1..]); }
      assert cs == [cs[0]] + cs[1..];
    }
  }

  lemma BreaksFirstCons(q: Query, c: Conditional, cs: seq<Conditional>)
    requires Holds(q, c)
    ensures BreaksFirst(q, [c] + cs) <==> BreaksFirst(q, cs)
  {
    var all := [c] + cs;
    if i :| 0 <= i < |cs| && Breaks(q, cs[i]) && forall j :: 0 <= j < i ==> Holds(q, cs[j]) {
      assert Breaks(q, all[i + 1]) && forall j :: 0 <= j < i + 1 ==> Holds(q, all[j]);
    }
    if i :| 0 <= i < |all| && Breaks(q, all[i]) && forall j :: 0 <= j < i ==> Holds(q, all[j]) {
      assert Breaks(q, cs[i - 1]);
      forall j | 0 <= j < i - 1 ensures Holds(q, cs[j]) {
        assert all[j + 1] == cs[j];
      }
    }
  }

  lemma {:induction false} AddressFitsIff(q: Query, f: Filters)
    ensures AddressMatches(q, f) <==> AddressFits(q, f)
  {
    HostFitsIff(f.hostname, q.hostname);
    if f.hostname.Some? { LocalhostIs(f.hostname.value); }
  }

  /** The verdict on a configuration, spelled out. */
  lemma {:induction false} MatchesIff(q: Query, f: Filters)
    ensures MatchFilters(q, f).Yes? <==> Matching(q, f)
    ensures MatchFilters(q, f).Error? <==> Undecidable(q, f)
  {
    AddressFitsIff(q, f);
    if f.condition.Some? { ConditionalsIff(q, f.condition.value.conditionals); }
  }

  /**
  For every list of configurations: the one found matches and no other one that matches beats it; none
  is found exactly if none matches and none is undecidable; and the lookup fails exactly if an
  undecidable one decides.
  */
  lemma {:induction false} FindsMostSpecific(configs: seq<Config>, q: Query)
    requires Plain(q) && forall c :: c in configs ==> c.filters.hostname != Some("*")
    ensures var r := Scan(q, SortBy(Le, Reverse(configs)));
            && (r == Success(None) <==> forall c :: c in configs ==> !Matching(q, c.filters) && !Undecidable(q, c.filters))
            && (forall best :: r == Success(Some(best)) ==>
                  && best in configs && Matching(q, best.filters)
                  && forall c :: c in configs && Matching(q, c.filters) ==> !Beats(c.filters, best.filters))
            && (r.Failure? <==> exists c :: Decides(configs, q, c) && Undecidable(q, c.filters))
  {
    ScanResult(configs, q);
    forall f ensures MatchFilters(q, f).Yes? <==> Matching(q, f)
             ensures MatchFilters(q, f).Error? <==> Undecidable(q, f) {
      MatchesIff(q, f);
    }
    forall best, c | Decides(configs, q, best) && MatchFilters(q, best.filters).Yes? && c in configs && MatchFilters(q, c.filters).Yes?
      ensures !Beats(c.filters, best.filters)
    {
      assert Ends(q, c) && Le(c, best);
      KeysAreReal(q, c.filters, best.filters);
    }
  }

  /** In particular, and for every request and list: the address part of the order is never overridden. */
  lemma {:induction false} AddressComesFirst(configs: seq<Config>, q: Query, best: Config, c: Config)
    requires Scan(q, SortBy(Le, Reverse(configs))) == Success(Some(best)) && c in configs && Matching(q, c.filters)
    ensures c.filters.isHost ==> best.filters.isHost
    ensures c.filters.isHost == best.filters.isHost && c.filters.port.Some? ==> best.filters.port.Some?
    ensures c.filters.isHost == best.filters.isHost && c.filters.port.Some? == best.filters.port.Some? && c.filters.ip.Some? ==>
              best.filters.ip.Some?
  {
    ScanResult(configs, q);
    MatchesIff(q, c.filters);
    assert Decides(configs, q, best) && Ends(q, c) && Le(c, best);
  }

  // ---------------------------------------------------------------------------------------------
  // Ties

  /** The matching configurations that compare as equal to `best`. */
  ghost function Ties(q: Query, best: Config): Config -> bool {
    (c: Config) => MatchFilters(q, c.filters).Yes? && Cmp(c.filters, best.filters).Equal?
  }

  lemma {:induction false} TiesAreOneClass(q: Query, best: Config)
    ensures OneClass(Le, Ties(q, best))
  {
    forall x, y | Ties(q, best)(x) && Ties(q, best)(y) ensures Le(x, y) {
      EqualsAreEqual(x.filters, best.filters, y.filters);
    }
  }

  lemma {:induction false} FoundIsLastTie(q: Query, inner: seq<Config>, best: Config)
    requires Scan(q, inner) == Success(Some(best))
    ensures var ties := Filter(Ties(q, best), inner); ties != [] && ties[|ties| - 1] == best
  {
    ScanFindsLast(q, inner);
    var k :| 0 <= k < |inner| && inner[k] == best && MatchFilters(q, inner[k].filters).Yes?
             && forall j :: k < j < |inner| ==> MatchFilters(q, inner[j].filters).No?;
    CmpReversed(best.filters, best.filters);
    FilterLast(Ties(q, best), inner, k);
  }

  /** Among matching configurations that compare as equal, the one configured first is found. */
  lemma {:induction false} EarliestOfEqualsWins(configs: seq<Config>, q: Query, best: Config)
    requires Scan(q, SortBy(Le, Reverse(configs))) == Success(Some(best))
    ensures var ties := Filter(Ties(q, best), configs); ties != [] && ties[0] == best
  {
    TiesAreOneClass(q, best);
    SortByStable(Le, Reverse(configs), Ties(q, best));
    FilterReverse(Ties(q, best), configs);
    FoundIsLastTie(q, SortBy(Le, Reverse(configs)), best);
    ReverseEnds(Filter(Ties(q, best), configs));
  }

  lemma EqualsAreEqual(x: Filters, b: Filters, y: Filters)
    requires Cmp(x, b).Equal? && Cmp(y, b).Equal?
    ensures Cmp(x, y).Equal?
  {
    CmpReversed(y, b);
    CmpConsistent(x, b, y);
  }

  // ---------------------------------------------------------------------------------------------
  // Conditionals that fail

  /** The verdict on a configuration ends the scan: it matches, or its conditionals cannot be evaluated. */
  ghost predicate Ends(q: Query, c: Config) {
    !MatchFilters(q, c.filters).No?
  }

  /** The configurations that end the scan and compare as equal to `best`. */
  ghost function Rivals(q: Query, best: Config): Config -> bool {
    (c: Config) => Ends(q, c) && Cmp(c.filters, best.filters).Equal?
  }

  /** Of the configurations that would end the scan, none is above `c`, and `c` is the first configured of its equals. */
  ghost predicate Decides(configs: seq<Config>, q: Query, c: Config) {
    && c in configs && Ends(q, c)
    && (forall d :: d in configs && Ends(q, d) ==> Le(d, c))
    && var rivals := Filter(Rivals(q, c), configs); rivals != [] && rivals[0] == c
  }

  ghost predicate LastToEnd(q: Query, inner: seq<Config>, k: nat) {
    k < |inner| && Ends(q, inner[k]) && forall i :: k < i < |inner| ==> !Ends(q, inner[i])
  }

  lemma {:induction false} ScanEndsAt(q: Query, inner: seq<Config>, k: nat)
    requires LastToEnd(q, inner, k)
    ensures Scan(q, inner) == if MatchFilters(q, inner[k].filters).Error? then Failure(()) else Success(Some(inner[k]))
    decreases |inner|
  {
    var n := |inner| - 1;
    if k < n {
      assert !Ends(q, inner[n]);
      ScanEndsAt(q, inner[..n], k);
    }
  }

  lemma {:induction false} SomeoneEnds(q: Query, inner: seq<Config>)
    ensures (forall c :: c in inner ==> !Ends(q, c)) ==> Scan(q, inner) == Success(None)
    ensures (exists c :: c in inner && Ends(q, c)) ==> exists k: nat :: LastToEnd(q, inner, k)
  {
    if inner != [] {
      var n := |inner| - 1;
      assert inner == inner[..n] + [inner[n]];
      SomeoneEnds(q, inner[..n]);
      if Ends(q, inner[n]) {
        assert LastToEnd(q, inner, n);
      } else if k: nat :| LastToEnd(q, inner[..n], k) {
        assert LastToEnd(q, inner, k);
      }
    }
  }

  lemma {:induction false} RivalsAreOneClass(q: Query, best: Config)
    ensures OneClass(Le, Rivals(q, best))
  {
    forall x, y | Rivals(q, best)(x) && Rivals(q, best)(y) ensures Le(x, y) {
      EqualsAreEqual(x.filters, best.filters, y.filters);
    }
  }

  lemma {:induction false} LastDecides(configs: seq<Config>, q: Query, inner: seq<Config>, k: nat)
    requires inner == SortBy(Le, Reverse(configs)) && LastToEnd(q, inner, k)
    ensures Decides(configs, q, inner[k])
  {
    var c := inner[k];
    LastIsTop(configs, q, inner, k);
    RivalsAreOneClass(q, c);
    SortByStable(Le, Reverse(configs), Rivals(q, c));
    FilterReverse(Rivals(q, c), configs);
    CmpReversed(c.filters, c.filters);
    FilterLast(Rivals(q, c), inner, k);
    ReverseEnds(Filter(Rivals(q, c), configs));
  }

  lemma {:induction false} LastIsTop(configs: seq<Config>, q: Query, inner: seq<Config>, k: nat)
    requires inner == SortBy(Le, Reverse(configs)) && LastToEnd(q, inner, k)
    ensures inner[k] in configs && forall d :: d in configs && Ends(q, d) ==> Le(d, inner[k])
  {
    SortByContents(Le, Reverse(configs));
    ReverseContents(configs);
    LeOrder();
    SortBySorted(Le, Reverse(configs));
    assert inner[k] in inner;
    forall d | d in configs && Ends(q, d) ensures Le(d, inner[k]) {
      BelowLast(q, inner, k, d);
    }
  }

  lemma BelowLast(q: Query, inner: seq<Config>, k: nat, d: Config)
    requires SortedBy(Le, inner) && LastToEnd(q, inner, k) && d in inner && Ends(q, d)
    ensures Le(d, inner[k])
  {
    var i :| 0 <= i < |inner| && inner[i] == d;
    CmpReversed(d.filters, d.filters);
  }

  lemma {:induction false} OneDecides(configs: seq<Config>, q: Query, c: Config, d: Config)
    requires Decides(configs, q, c) && Decides(configs, q, d)
    ensures c == d
  {
    CmpReversed(c.filters, d.filters);
    assert Le(c, d) && Le(d, c);
    SameRivals(q, c, d, configs);
  }

  lemma {:induction false} SameRivals(q: Query, c: Config, d: Config, s: seq<Config>)
    requires Cmp(c.filters, d.filters).Equal?
    ensures Filter(Rivals(q, c), s) == Filter(Rivals(q, d), s)
  {
    if s != [] {
      var last := s[|s| - 1];
      SameRivals(q, c, d, s[..|s| - 1]);
      CmpConsistent(last.filters, c.filters, d.filters);
    }
  }

  /**
  The result for every list of configurations: nothing is found exactly when no configuration ends
  the scan.  Otherwise exactly one decides; the lookup fails exactly when the conditionals of that
  one cannot be evaluated, and else finds it.
  */
  lemma {:induction false} ScanResult(configs: seq<Config>, q: Query)
    ensures var r := Scan(q, SortBy(Le, Reverse(configs)));
            && (r == Success(None) <==> forall c :: c in configs ==> MatchFilters(q, c.filters).No?)
            && (r.Failure? <==> exists c :: Decides(configs, q, c) && MatchFilters(q, c.filters).Error?)
            && forall c :: r == Success(Some(c)) <==> Decides(configs, q, c) && MatchFilters(q, c.filters).Yes?
  {
    var inner := SortBy(Le, Reverse(configs));
    SortByContents(Le, Reverse(configs));
    ReverseContents(configs);
    SomeoneEnds(q, inner);
    if k: nat :| LastToEnd(q, inner, k) {
      LastDecides(configs, q, inner, k);
      ScanEndsAt(q, inner, k);
      forall c | Decides(configs, q, c) ensures c == inner[k] {
        OneDecides(configs, q, c, inner[k]);
      }
    }
  }
}
