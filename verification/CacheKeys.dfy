/**
The two key builders of the response cache: the base key of a request target, and the composite key
that adds the request headers named by a Vary list.
*/
module CacheKeys {
  import opened Wrappers
  import opened Text

  /** What the base key is built from. */
  datatype Target = Target(method_: string, encrypted: bool, host: string, path: string, query: Option<string>)

  /** Header values by lower-case name, in the order in which they were sent. */
  type Headers = map<string, seq<string>>

  function Scheme(encrypted: bool): string {
    if encrypted then "https://" else "http://"
  }

  function QueryPart(query: Option<string>): string {
    if query.Some? then "?" + query.value else ""
  }

  function BaseKey(t: Target): string {
    t.method_ + " " + Scheme(t.encrypted) + t.host + t.path + QueryPart(t.query)
  }

  method BuildCacheKey(t: Target) returns (key: string)
    ensures key == BaseKey(t)
  {
    key := t.method_;
    key := key + " ";
    key := key + (if t.encrypted then "https://" else "http://");
    key := key + t.host;
    key := key + t.path;
    if t.query.Some? {
      key := key + "?";
      key := key + t.query.value;
      assert key == t.method_ + " " + Scheme(t.encrypted) + t.host + t.path + QueryPart(t.query);
    }
  }

  /** What the HTTP library guarantees of methods and paths. */
  predicate ValidTarget(t: Target) {
    ' ' !in t.method_ && |t.path| > 0 && t.path[0] == '/' && '?' !in t.path
  }

  predicate ValidHost(t: Target) {
    '/' !in t.host
  }

  /** Of two ways to split at a separator, the later one has a separator before it and the earlier one after it. */
  lemma ShorterHead(a: string, b: string, a': string, b': string, c: char)
    requires a + [c] + b == a' + [c] + b'
    ensures |a| < |a'| ==> c in a' && c in b
  {
    var s := a + [c] + b;
    if |a| < |a'| {
      assert s[|a|] == c && s[|a'|] == (a' + [c] + b')[|a'|] == c;
      assert a'[|a|] == s[|a|] && b[|a'| - |a| - 1] == s[|a'|];
    }
  }

  lemma SplitAtFirst(a: string, b: string, a': string, b': string, c: char)
    requires a + [c] + b == a' + [c] + b'
    requires c !in a && c !in a'
    ensures a == a' && b == b'
  {
    var s := a + [c] + b;
    ShorterHead(a, b, a', b', c);
    ShorterHead(a', b', a, b, c);
    assert a == s[..|a|] && a' == s[..|a'|];
    assert b == s[|a| + 1..] && b' == s[|a'| + 1..];
  }

  lemma SplitAtLast(a: string, b: string, a': string, b': string, c: char)
    requires a + [c] + b == a' + [c] + b'
    requires c !in b && c !in b'
    ensures a == a' && b == b'
  {
    var s := a + [c] + b;
    ShorterHead(a, b, a', b', c);
    ShorterHead(a', b', a, b, c);
    assert a == s[..|a|] && a' == s[..|a'|];
    assert b == s[|a| + 1..] && b' == s[|a'| + 1..];
  }

  /** A path and its optional query can be told apart. */
  lemma QueryInjective(p: string, q: Option<string>, p': string, q': Option<string>)
    requires '?' !in p && '?' !in p'
    requires p + QueryPart(q) == p' + QueryPart(q')
    ensures p == p' && q == q'
  {
    var s := p + QueryPart(q);
    assert q.Some? ==> s[|p|] == '?';
    assert q'.Some? ==> s[|p'|] == '?';
    assert q.None? ==> s == p;
    assert q'.None? ==> s == p';
    if q.Some? {
      assert s == p + ['?'] + q.value && s == p' + ['?'] + q'.value;
      SplitAtFirst(p, q.value, p', q'.value, '?');
    }
  }

  /** Host, path and query, as the key spells them. */
  function Location(t: Target): string {
    t.host + t.path + QueryPart(t.query)
  }

  lemma LocationSplits(t: Target)
    requires ValidTarget(t)
    ensures t.path + QueryPart(t.query) == ['/'] + (t.path[1..] + QueryPart(t.query))
    ensures Location(t) == t.host + ['/'] + (t.path[1..] + QueryPart(t.query))
  {
    assert t.path == ['/'] + t.path[1..];
  }

  /** After the host, everything from the first slash on is the path and the query. */
  lemma LocationInjective(t: Target, t': Target)
    requires ValidTarget(t) && ValidTarget(t') && ValidHost(t) && ValidHost(t')
    requires Location(t) == Location(t')
    ensures t.host == t'.host && t.path == t'.path && t.query == t'.query
  {
    LocationSplits(t);
    LocationSplits(t');
    SplitAtFirst(t.host, t.path[1..] + QueryPart(t.query), t'.host, t'.path[1..] + QueryPart(t'.query), '/');
    QueryInjective(t.path, t.query, t'.path, t'.query);
  }

  lemma SchemeInjective(e: bool, r: string, e': bool, r': string)
    requires Scheme(e) + r == Scheme(e') + r'
    ensures e == e' && r == r'
  {
    assert (Scheme(e) + r)[4] == Scheme(e)[4] && (Scheme(e') + r')[4] == Scheme(e')[4];
    assert r == (Scheme(e) + r)[|Scheme(e)|..] && r' == (Scheme(e') + r')[|Scheme(e')|..];
  }

  /** Different requests have different base keys, as long as the hosts contain no slash. */
  lemma BaseKeyInjective(t: Target, t': Target)
    requires ValidTarget(t) && ValidTarget(t') && ValidHost(t) && ValidHost(t')
    requires BaseKey(t) == BaseKey(t')
    ensures t == t'
  {
    BaseKeyParts(t);
    BaseKeyParts(t');
    SplitAtFirst(t.method_, Scheme(t.encrypted) + Location(t), t'.method_, Scheme(t'.encrypted) + Location(t'), ' ');
    SchemeInjective(t.encrypted, Location(t), t'.encrypted, Location(t'));
    LocationInjective(t, t');
  }

  lemma BaseKeyParts(t: Target)
    ensures BaseKey(t) == t.method_ + [' '] + (Scheme(t.encrypted) + Location(t))
  {
    var s, q := Scheme(t.encrypted), QueryPart(t.query);
    assert s + t.host + t.path + q == s + (t.host + t.path + q);
    assert t.method_ + " " + s + t.host + t.path + q == t.method_ + " " + (s + t.host + t.path + q);
  }

  /** The condition on hosts is tight: every host with a slash shares its key with another request. */
  lemma HostWithSlashCollides(t: Target)
    requires ValidTarget(t) && !ValidHost(t)
    ensures exists u :: ValidTarget(u) && ValidHost(u) && u.host != t.host && BaseKey(u) == BaseKey(t)
  {
    var i := IndexOf(t.host, '/');
    var tail := t.host[i..] + t.path;
    assert Location(t) == t.host[..i] + tail + QueryPart(t.query);
    var u;
    if '?' !in tail {
      u := t.(host := t.host[..i], path := tail);
    } else {
      var j := IndexOf(tail, '?');
      u := t.(host := t.host[..i], path := tail[..j], query := Some(tail[j + 1..] + QueryPart(t.query)));
      MoveIntoQuery(t.host[..i], tail, j, QueryPart(t.query));
    }
    BaseKeyParts(t);
    BaseKeyParts(u);
    assert ValidTarget(u) && ValidHost(u) && u.host != t.host && BaseKey(u) == BaseKey(t);
  }

  lemma MoveIntoQuery(host: string, tail: string, j: nat, q: string)
    requires j < |tail| && tail[j] == '?'
    ensures host + tail[..j] + ("?" + (tail[j + 1..] + q)) == host + tail + q
  {
    assert tail == tail[..j] + "?" + tail[j + 1..];
    assert tail[..j] + ("?" + (tail[j + 1..] + q)) == tail + q;
  }

  lemma IndexOf(s: string, c: char) returns (i: nat)
    requires c in s
    ensures i < |s| && s[i] == c && c !in s[..i]
  {
    i := 0;
    while s[i] != c
      invariant i < |s| && c !in s[..i] && c in s[i..]
      decreases |s| - i
    {
      i := i + 1;
    }
  }

  // ---------------------------------------------------------------------------------------------
  // Composite keys

  /** `HeaderMap::get` finds the first value, whatever the letter case of the name; absent counts as empty. */
  function FirstValue(h: Headers, name: string): string {
    var k := Lower(name);
    if k in h && |h[k]| > 0 then h[k][0] else ""
  }

  /** Of a list of values the first one counts, under whatever letter case the name is listed; without values, the empty one. */
  lemma FirstValueMeans(h: Headers, name: string)
    ensures forall v, rest :: Lower(name) in h && h[Lower(name)] == [v] + rest ==> FirstValue(h, name) == v
    ensures Lower(name) !in h || h[Lower(name)] == [] ==> FirstValue(h, name) == ""
    ensures forall name' :: Lower(name') == Lower(name) ==> FirstValue(h, name') == FirstValue(h, name)
  {
  }

  function Line(name: string, h: Headers): string {
    name + ": " + FirstValue(h, name)
  }

  /** The base key, a newline, and one line per listed header, separated by newlines. */
  function VaryKey(base: string, names: seq<string>, h: Headers): string {
    if |names| == 0 then base + "\n"
    else
      var n := |names| - 1;
      VaryKey(base, names[..n], h) + (if n > 0 then "\n" else "") + Line(names[n], h)
  }

  method BuildVaryKey(base: string, names: seq<string>, h: Headers) returns (buffer: string)
    ensures buffer == VaryKey(base, names, h)
  {
    buffer := base;
    buffer := buffer + "\n";
    for i := 0 to |names|
      invariant buffer == VaryKey(base, names[..i], h)
    {
      ghost var before := buffer;
      if i > 0 {
        buffer := buffer + "\n";
      }
      buffer := buffer + names[i];
      buffer := buffer + ": ";
      if Lower(names[i]) in h && |h[Lower(names[i])]| > 0 {
        buffer := buffer + h[Lower(names[i])][0];
      }
      assert names[..i + 1][..i] == names[..i];
      assert buffer == before + (if i > 0 then "\n" else "") + Line(names[i], h);
    }
    assert names[..|names|] == names;
  }

  predicate NoNewline(s: string) {
    '\n' !in s
  }

  /** The text that separates a name from its value. */
  ghost predicate SeparatorAt(name: string, i: int) {
    0 <= i < |name| - 1 && name[i] == ':' && name[i + 1] == ' '
  }

  ghost predicate HasSeparator(name: string) {
    exists i :: SeparatorAt(name, i)
  }

  /** The characters that the HTTP library admits in header names; it keeps names in lower case. */
  predicate IsNameChar(c: char) {
    'a' <= c <= 'z' || '0' <= c <= '9' || c in "!#$%&'*+-.^_`|~"
  }

  ghost predicate IsHeaderName(s: string) {
    s != [] && forall i :: 0 <= i < |s| ==> IsNameChar(s[i])
  }

  /** Header values have tabs but no other control characters. */
  ghost predicate IsHeaderValue(s: string) {
    forall i :: 0 <= i < |s| ==> s[i] == '\t' || (s[i] >= ' ' && s[i] != '\U{7F}')
  }

  /** What the HTTP library guarantees of a header map. */
  ghost predicate ValidHeaders(h: Headers) {
    forall k :: k in h ==> IsHeaderName(k) && forall i :: 0 <= i < |h[k]| ==> IsHeaderValue(h[k][i])
  }

  /** The line of a listed name can be read as the line of a shorter name, whose value goes on after the first separator. */
  ghost predicate IsMistakable(name: string) {
    exists j :: CutsAt(name, j)
  }

  ghost predicate CutsAt(name: string, j: int) {
    && SeparatorAt(name, j) && !HasSeparator(name[..j])
    && IsHeaderName(Lower(name[..j])) && IsHeaderValue(name[j + 2..])
  }

  ghost predicate ValidName(name: string) {
    !IsMistakable(name) && NoNewline(name)
  }

  ghost predicate ValidNames(names: seq<string>) {
    forall i :: 0 <= i < |names| ==> ValidName(names[i])
  }

  lemma FirstValueIs(h: Headers, name: string)
    requires ValidHeaders(h)
    ensures IsHeaderValue(FirstValue(h, name)) && NoNewline(FirstValue(h, name))
    ensures FirstValue(h, name) != "" ==> IsHeaderName(Lower(name))
  {
  }

  /** A name with a separator is no header name, so the value in its line is empty. */
  lemma SeparatedHasNoValue(h: Headers, name: string)
    requires ValidHeaders(h)
    ensures HasSeparator(name) ==> FirstValue(h, name) == ""
  {
    if i :| SeparatorAt(name, i) {
      assert Lower(name)[i] == ':';
      assert !IsNameChar(':');
    }
  }

  /** A line with a shorter name cuts the longer one at a separator. */
  lemma CutByShorter(n: string, v: string, n': string, v': string)
    requires n + ": " + v == n' + ": " + v' && |n| < |n'|
    ensures SeparatorAt(n', |n|) && n'[..|n|] == n
    ensures v == n'[|n| + 2..] + ": " + v'
  {
    var i, line, line' := |n|, n + ": " + v, n' + ": " + v';
    assert line'[i] == ':' && line'[i + 1] == ' ' && line'[|n'|] == ':';
    assert line'[..i] == n && n'[..i] == line'[..i];
    assert v == line[i + 2..] && line'[i + 2..] == n'[i + 2..] + ": " + v';
  }

  lemma ShorterIsMistaken(n: string, h: Headers, n': string, h': Headers)
    requires ValidHeaders(h) && ValidHeaders(h') && Line(n, h) == Line(n', h') && |n| < |n'|
    ensures IsMistakable(n')
  {
    var v, v' := FirstValue(h, n), FirstValue(h', n');
    CutByShorter(n, v, n', v');
    SeparatedHasNoValue(h', n');
    SeparatedHasNoValue(h, n);
    FirstValueIs(h, n);
    ValueRest(n'[|n| + 2..], v);
    assert CutsAt(n', |n|);
  }

  lemma ValueRest(rest: string, v: string)
    requires v == rest + ": " + "" && IsHeaderValue(v)
    ensures IsHeaderValue(rest)
  {
    forall i | 0 <= i < |rest| ensures rest[i] == v[i] {
    }
  }

  lemma LineInjective(n: string, h: Headers, n': string, h': Headers)
    requires !IsMistakable(n) && !IsMistakable(n') && ValidHeaders(h) && ValidHeaders(h')
    requires Line(n, h) == Line(n', h')
    ensures n == n' && FirstValue(h, n) == FirstValue(h', n')
  {
    var v, v' := FirstValue(h, n), FirstValue(h', n');
    if |n| < |n'| { ShorterIsMistaken(n, h, n', h'); }
    if |n'| < |n| { ShorterIsMistaken(n', h', n, h); }
    var line, line' := n + ": " + v, n' + ": " + v';
    assert n == line[..|n|] && n' == line'[..|n|] && v == line[|n| + 2..] && v' == line'[|n| + 2..];
  }

  /** Every composite key is the base key, a newline, and a rest. */
  lemma {:induction false} VaryKeyBase(base: string, names: seq<string>, h: Headers) returns (rest: string)
    ensures VaryKey(base, names, h) == base + ['\n'] + rest
    ensures names == [] <==> rest == ""
    ensures |names| == 1 ==> rest == Line(names[0], h)
    ensures |names| > 1 ==> '\n' in rest
  {
    if names == [] {
      rest := "";
    } else {
      var n := |names| - 1;
      var r := VaryKeyBase(base, names[..n], h);
      var line := Line(names[n], h);
      if n == 0 {
        rest := line;
        assert VaryKey(base, names, h) == base + "\n" + "" + line;
      } else {
        rest := r + "\n" + line;
        assert base + ['\n'] + r + "\n" + line == base + ['\n'] + rest;
        assert rest[|r|] == '\n';
      }
    }
  }

  lemma LineHasNoNewline(n: string, h: Headers)
    requires NoNewline(n) && ValidHeaders(h)
    ensures NoNewline(Line(n, h))
  {
    FirstValueIs(h, n);
  }

  /** Two composite keys have equally many lines. */
  lemma {:induction false} VaryKeySameEmpty(base: string, names: seq<string>, h: Headers,
                                            base': string, names': seq<string>, h': Headers)
    requires NoNewline(base) && NoNewline(base')
    requires ValidNames(names) && ValidNames(names') && ValidHeaders(h) && ValidHeaders(h')
    requires VaryKey(base, names, h) == VaryKey(base', names', h')
    ensures base == base'
    ensures names == [] <==> names' == []
    ensures |names| == 1 <==> |names'| == 1
  {
    var rest := VaryKeyBase(base, names, h);
    var rest' := VaryKeyBase(base', names', h');
    SplitAtFirst(base, rest, base', rest', '\n');
    if |names| == 1 { LineHasNoNewline(names[0], h); }
    if |names'| == 1 { LineHasNoNewline(names'[0], h'); }
  }

  /** A composite key determines the base key, the Vary list and the listed header values. */
  lemma {:induction false} VaryKeyInjective(base: string, names: seq<string>, h: Headers,
                                            base': string, names': seq<string>, h': Headers)
    requires NoNewline(base) && NoNewline(base')
    requires ValidNames(names) && ValidNames(names') && ValidHeaders(h) && ValidHeaders(h')
    requires VaryKey(base, names, h) == VaryKey(base', names', h')
    ensures base == base' && names == names'
    ensures forall i :: 0 <= i < |names| ==> FirstValue(h, names[i]) == FirstValue(h', names[i])
    decreases |names|
  {
    VaryKeySameEmpty(base, names, h, base', names', h');
    if |names| > 1 {
      var n, n' := |names| - 1, |names'| - 1;
      VaryKeyLast(base, names, h, base', names', h');
      VaryKeyInjective(base, names[..n], h, base', names'[..n'], h');
      SameNames(names, h, names', h');
    } else if |names| == 1 {
      VaryKeyOne(base, names, h, base', names', h');
    }
  }

  lemma SameNames(names: seq<string>, h: Headers, names': seq<string>, h': Headers)
    requires |names| > 0 && |names'| > 0
    requires var n, n' := |names| - 1, |names'| - 1;
             && names[..n] == names'[..n'] && names[n] == names'[n'] && FirstValue(h, names[n]) == FirstValue(h', names[n])
             && forall i :: 0 <= i < n ==> FirstValue(h, names[..n][i]) == FirstValue(h', names[..n][i])
    ensures names == names'
    ensures forall i :: 0 <= i < |names| ==> FirstValue(h, names[i]) == FirstValue(h', names[i])
  {
    var n := |names| - 1;
    assert names == names[..n] + [names[n]] && names' == names'[..n] + [names'[n]];
    forall i | 0 <= i < n ensures FirstValue(h, names[i]) == FirstValue(h', names[i]) {
      assert names[i] == names[..n][i];
    }
  }

  lemma {:induction false} VaryKeyOne(base: string, names: seq<string>, h: Headers,
                                      base': string, names': seq<string>, h': Headers)
    requires NoNewline(base) && NoNewline(base') && |names| == 1 && |names'| == 1
    requires ValidNames(names) && ValidNames(names') && ValidHeaders(h) && ValidHeaders(h')
    requires VaryKey(base, names, h) == VaryKey(base', names', h')
    ensures names == names' && FirstValue(h, names[0]) == FirstValue(h', names[0])
  {
    var rest := VaryKeyBase(base, names, h);
    var rest' := VaryKeyBase(base', names', h');
    SplitAtFirst(base, rest, base', rest', '\n');
    LineInjective(names[0], h, names'[0], h');
  }

  lemma {:induction false} VaryKeyLast(base: string, names: seq<string>, h: Headers,
                                       base': string, names': seq<string>, h': Headers)
    requires |names| > 1 && |names'| > 1
    requires ValidNames(names) && ValidNames(names') && ValidHeaders(h) && ValidHeaders(h')
    requires VaryKey(base, names, h) == VaryKey(base', names', h')
    ensures var n, n' := |names| - 1, |names'| - 1;
            && names[n] == names'[n'] && FirstValue(h, names[n]) == FirstValue(h', names[n])
            && VaryKey(base, names[..n], h) == VaryKey(base', names'[..n'], h')
  {
    var n, n' := |names| - 1, |names'| - 1;
    LineHasNoNewline(names[n], h);
    LineHasNoNewline(names'[n'], h');
    SplitAtLast(VaryKey(base, names[..n], h), Line(names[n], h),
                VaryKey(base', names'[..n'], h'), Line(names'[n'], h'), '\n');
    LineInjective(names[n], h, names'[n'], h');
  }

  lemma OneLine(base: string, name: string, h: Headers)
    ensures VaryKey(base, [name], h) == base + "\n" + Line(name, h)
  {
    assert [name][..0] == [];
    assert VaryKey(base, [], h) + "" == base + "\n";
  }

  lemma {:induction false} CutName(name: string, i: nat, h: Headers) returns (h': Headers)
    requires CutsAt(name, i) && ValidHeaders(h)
    ensures ValidHeaders(h') && Line(name, h) == Line(name[..i], h')
  {
    var a, b := name[..i], name[i + 2..];
    SeparatedHasNoValue(h, name);
    h' := map[Lower(a) := [b + ": "]];
    assert name == a + ": " + b;
    assert a + ": " + b + ": " + "" == a + ": " + (b + ": ");
  }

  /**
  The condition on names is exact: whatever the headers, a listed name can be mistaken for another
  one, that itself meets the condition, exactly when the part before its first separator is a header
  name and the part behind it could begin a header value.
  */
  lemma {:induction false} NameCollidesIff(base: string, name: string, h: Headers)
    requires ValidHeaders(h)
    ensures IsMistakable(name) <==>
            exists name', h' :: && name' != name && !IsMistakable(name') && ValidHeaders(h')
                                && VaryKey(base, [name], h) == VaryKey(base, [name'], h')
  {
    OneLine(base, name, h);
    if IsMistakable(name) {
      var j :| CutsAt(name, j);
      var h' := CutName(name, j, h);
      OneLine(base, name[..j], h');
      assert !IsMistakable(name[..j]) && |name[..j]| < |name|;
    } else if name', h' :| && name' != name && !IsMistakable(name') && ValidHeaders(h')
                           && VaryKey(base, [name], h) == VaryKey(base, [name'], h') {
      OneLine(base, name', h');
      var front := base + "\n";
      assert Line(name, h) == (front + Line(name, h))[|front|..] && Line(name', h') == (front + Line(name', h'))[|front|..];
      LineInjective(name, h, name', h');
    }
  }
}
