/**
The HTTP response cache: a map from base keys to Vary lists, and a map from composite keys to stored
responses.  Handlers of many requests work on the two maps at once, one map operation at a time.
*/
module ResponseCaches {
  import opened Wrappers
  import opened Sequences
  import opened ByteStrings
  import opened Text
  import opened CacheKeys
  import opened Sorting

  const DEFAULT_MAX_AGE: nat := 300

  datatype Cachability = Public | Private | NoCache | OnlyIfCached

  /** A parsed Cache-Control header. */
  datatype CacheControl = CacheControl(noStore: bool, cachability: Option<Cachability>,
                                       maxAge: Option<nat>, sMaxAge: Option<nat>)

  /** A request, with its Cache-Control header parsed. */
  datatype Request = Request(target: Target, headers: Headers, control: Option<CacheControl>)

  /** One element of a response body. */
  datatype Frame = Data(bytes: Bytes) | Trailers | Failed

  /** A response, with its Cache-Control header parsed and its Vary headers split into names. */
  datatype Response = Response(status: nat, headers: Headers, frames: seq<Frame>,
                               control: Option<CacheControl>, vary: seq<string>)

  /** The part of the configuration that a handler reads. */
  datatype Settings = Settings(vary: seq<string>, ignored: seq<string>, limit: Option<nat>)

  datatype Entry = Entry(status: nat, headers: Headers, body: Bytes, stored: nat, control: Option<CacheControl>)

  // ---------------------------------------------------------------------------------------------
  // The decision on the request

  /** Bit flags, as the program keeps them. */
  datatype CacheDecision = CacheDecision(flags: bv8) {
    predicate NoStore() { flags & 1 != 0 }
    predicate NoCache() { flags & 2 != 0 }
    function SetNoStore(): CacheDecision { CacheDecision(flags | 1) }
    function SetNoCache(): CacheDecision { CacheDecision(flags | 2) }
    function SetCacheableMethod(): CacheDecision { CacheDecision(flags | 4) }
  }

  /** The request must not be answered from the cache, nor its response stored. */
  predicate BypassesCache(r: Request) {
    || !(r.target.method_ == "GET" || r.target.method_ == "HEAD")
    || "upgrade" in r.headers
    || (r.control.Some? && r.control.value.noStore)
  }

  /** The request must not be answered from the cache. */
  predicate SkipsLookup(r: Request) {
    r.control.Some? && r.control.value.cachability == Some(NoCache)
  }

  method DecideFromRequest(r: Request) returns (d: CacheDecision)
    ensures d.NoStore() <==> BypassesCache(r)
    ensures !d.NoStore() ==> (d.NoCache() <==> SkipsLookup(r))
  {
    d := CacheDecision(0);
    if r.target.method_ == "GET" || r.target.method_ == "HEAD" {
      d := d.SetCacheableMethod();
    } else {
      d := d.SetNoStore();
    }
    if d.NoStore() {
      return;
    }
    if "upgrade" in r.headers {
      d := d.SetNoStore();
      return;
    }
    if r.control.Some? {
      if r.control.value.noStore {
        d := d.SetNoStore();
      }
      if r.control.value.cachability == Some(NoCache) {
        d := d.SetNoCache();
      }
    }
  }

  // ---------------------------------------------------------------------------------------------
  // Collecting the body

  /** The buffered body; or what is buffered and what is left of the stream; or a failure. */
  datatype Collected = Complete(body: Bytes) | Streamed(buffer: Bytes, rest: seq<Frame>) | Broken

  function DataOfFrame(f: Frame): Bytes {
    if f.Data? then f.bytes else []
  }

  ghost function DataOf(frames: seq<Frame>): Bytes {
    FlatMap(DataOfFrame, frames)
  }

  predicate Fits(limit: Option<nat>, size: nat) {
    limit.None? || size <= limit.value
  }

  method CollectBody(limit: Option<nat>, frames: seq<Frame>) returns (c: Collected)
    ensures c == Collect(limit, frames)
  {
    var buffer: Bytes := [];
    for i := 0 to |frames|
      invariant forall k :: 0 <= k < i ==> !Stops(limit, frames, k)
      invariant buffer == DataOf(frames[..i])
    {
      assert frames[..i + 1][..i] == frames[..i];
      if frames[i].Failed? {
        CollectStops(limit, frames, i);
        return Broken;
      }
      if frames[i].Data? {
        if !Fits(limit, |buffer| + |frames[i].bytes|) {
          CollectStops(limit, frames, i);
          return Streamed(buffer, frames[i + 1..]);
        }
        buffer := buffer + frames[i].bytes;
      }
    }
    assert frames[..|frames|] == frames;
    return Complete(buffer);
  }

  /** Collection ends at frame `k`: it failed, or the data through it exceed the limit. */
  ghost predicate Stops(limit: Option<nat>, frames: seq<Frame>, k: nat)
    requires k < |frames|
  {
    frames[k].Failed? || (frames[k].Data? && !Fits(limit, |DataOf(frames[..k])| + |frames[k].bytes|))
  }

  ghost predicate StopsFirst(limit: Option<nat>, frames: seq<Frame>, k: nat) {
    k < |frames| && Stops(limit, frames, k) && forall j :: 0 <= j < k ==> !Stops(limit, frames, j)
  }

  ghost function Collect(limit: Option<nat>, frames: seq<Frame>): Collected {
    if exists k: nat :: StopsFirst(limit, frames, k) then
      var k: nat :| StopsFirst(limit, frames, k);
      if frames[k].Failed? then Broken else Streamed(DataOf(frames[..k]), frames[k + 1..])
    else Complete(DataOf(frames))
  }

  lemma CollectStops(limit: Option<nat>, frames: seq<Frame>, k: nat)
    requires StopsFirst(limit, frames, k)
    ensures Collect(limit, frames) ==
            if frames[k].Failed? then Broken else Streamed(DataOf(frames[..k]), frames[k + 1..])
  {
  }

  lemma {:induction false} WithinLimit(limit: Option<nat>, frames: seq<Frame>, n: nat)
    requires n <= |frames| && forall k :: 0 <= k < n ==> !Stops(limit, frames, k)
    ensures Fits(limit, |DataOf(frames[..n])|)
  {
    if n > 0 {
      WithinLimit(limit, frames, n - 1);
      assert frames[..n][..n - 1] == frames[..n - 1];
      assert !Stops(limit, frames, n - 1);
    }
  }

  lemma {:induction false} FirstStop(limit: Option<nat>, frames: seq<Frame>, k: nat)
    requires k < |frames| && Stops(limit, frames, k)
    ensures exists j: nat :: StopsFirst(limit, frames, j)
  {
    if exists j :: 0 <= j < k && Stops(limit, frames, j) {
      var j :| 0 <= j < k && Stops(limit, frames, j);
      FirstStop(limit, frames, j);
    } else {
      assert StopsFirst(limit, frames, k);
    }
  }

  /** Frame `k` ends the collection: nothing failed before it and the data were within the limit, but it fails or its data are not. */
  ghost predicate EndsAt(limit: Option<nat>, frames: seq<Frame>, k: int) {
    && 0 <= k < |frames|
    && (forall j :: 0 <= j < k ==> !frames[j].Failed?)
    && (limit.Some? ==> |DataOf(frames[..k])| <= limit.value)
    && (frames[k].Failed? || (limit.Some? && |DataOf(frames[..k + 1])| > limit.value))
  }

  lemma {:induction false} DataThrough(frames: seq<Frame>, k: nat)
    requires k < |frames|
    ensures DataOf(frames[..k + 1]) == DataOf(frames[..k]) + DataOfFrame(frames[k])
  {
    assert frames[..k + 1][..k] == frames[..k];
  }

  lemma {:induction false} DataGrows(frames: seq<Frame>, j: nat, k: nat)
    requires j <= k <= |frames|
    ensures |DataOf(frames[..j])| <= |DataOf(frames[..k])|
  {
    FlatMapSplit(DataOfFrame, frames[..k], j);
    assert frames[..k][..j] == frames[..j];
  }

  lemma {:induction false} EndsIsStops(limit: Option<nat>, frames: seq<Frame>, k: nat)
    requires EndsAt(limit, frames, k)
    ensures StopsFirst(limit, frames, k)
  {
    DataThrough(frames, k);
    forall j | 0 <= j < k ensures !Stops(limit, frames, j) {
      DataThrough(frames, j);
      DataGrows(frames, j + 1, k);
    }
  }

  lemma {:induction false} StopsIsEnds(limit: Option<nat>, frames: seq<Frame>, k: nat)
    requires StopsFirst(limit, frames, k)
    ensures EndsAt(limit, frames, k)
  {
    DataThrough(frames, k);
    WithinLimit(limit, frames, k);
    forall j | 0 <= j < k ensures !frames[j].Failed? {
      assert !Stops(limit, frames, j);
    }
  }

  /** The three outcomes of collecting: a failure, what was within the limit with the frames behind the crossing one, or the whole body. */
  lemma {:induction false} CollectedAs(limit: Option<nat>, frames: seq<Frame>)
    ensures forall k :: EndsAt(limit, frames, k) ==>
              Collect(limit, frames) == if frames[k].Failed? then Broken else Streamed(DataOf(frames[..k]), frames[k + 1..])
    ensures (forall k :: !EndsAt(limit, frames, k)) ==> Collect(limit, frames) == Complete(DataOf(frames))
  {
    forall k | EndsAt(limit, frames, k)
      ensures Collect(limit, frames) == if frames[k].Failed? then Broken else Streamed(DataOf(frames[..k]), frames[k + 1..])
    {
      EndsIsStops(limit, frames, k);
      CollectStops(limit, frames, k);
    }
    if k: nat :| StopsFirst(limit, frames, k) {
      StopsIsEnds(limit, frames, k);
    }
  }

  /** A body is collected exactly when no frame fails and it is within the limit, and then it is the whole body. */
  lemma {:induction false} CollectedIff(limit: Option<nat>, frames: seq<Frame>)
    ensures Collect(limit, frames).Complete?
            <==> Fits(limit, |DataOf(frames)|) && forall i :: 0 <= i < |frames| ==> !frames[i].Failed?
    ensures Collect(limit, frames).Complete? ==> Collect(limit, frames).body == DataOf(frames)
  {
    if exists k: nat :: StopsFirst(limit, frames, k) {
      var k: nat :| StopsFirst(limit, frames, k);
      CollectStops(limit, frames, k);
      FlatMapSplit(DataOfFrame, frames, k + 1);
      assert frames[..k + 1][..k] == frames[..k];
    } else {
      forall k | 0 <= k < |frames| ensures !Stops(limit, frames, k) && !frames[k].Failed? {
        if Stops(limit, frames, k) { FirstStop(limit, frames, k); }
      }
      WithinLimit(limit, frames, |frames|);
      assert frames[..|frames|] == frames;
    }
  }

  /** The data that reach the client. */
  ghost function Delivered(c: Collected): Bytes {
    match c
    case Complete(body) => body
    case Streamed(buffer, rest) => buffer + DataOf(rest)
    case Broken => []
  }

  /**
  On the over-limit path the frame that crosses the limit is gone: a body without failed frames is
  delivered whole exactly when it is within the limit.
  */
  lemma {:induction false} DeliveredWholeIff(limit: Option<nat>, frames: seq<Frame>)
    requires forall i :: 0 <= i < |frames| ==> !frames[i].Failed?
    ensures Delivered(Collect(limit, frames)) == DataOf(frames) <==> Fits(limit, |DataOf(frames)|)
  {
    CollectedIff(limit, frames);
    if exists k: nat :: StopsFirst(limit, frames, k) {
      var k: nat :| StopsFirst(limit, frames, k);
      CollectStops(limit, frames, k);
      WithinLimit(limit, frames, k);
      FlatMapSplit(DataOfFrame, frames, k + 1);
      assert frames[..k + 1][..k] == frames[..k];
      assert |DataOf(frames)| > |DataOf(frames[..k])| + |DataOf(frames[k + 1..])|;
    }
  }

  // ---------------------------------------------------------------------------------------------
  // Lookup and storage

  function MaxAge(control: Option<CacheControl>): nat {
    if control.None? then DEFAULT_MAX_AGE
    else if control.value.sMaxAge.Some? then control.value.sMaxAge.value
    else if control.value.maxAge.Some? then control.value.maxAge.value
    else DEFAULT_MAX_AGE
  }

  predicate Fresh(e: Entry, now: nat) {
    now - e.stored <= MaxAge(e.control)
  }

  predicate ShouldCache(control: Option<CacheControl>, hasAuthorization: bool) {
    match control
    case None => false
    case Some(c) =>
      if c.noStore then false
      else if c.cachability == Some(Private) then false
      else if c.cachability == Some(Public) then true
      else !hasAuthorization && (c.maxAge.Some? || c.sMaxAge.Some?)
  }

  datatype Cache = Cache(vary: map<string, seq<string>>, entries: map<string, Entry>)

  datatype Answer = Bypass | Hit(entry: Entry) | Miss

  /** The entry under the composite key, if it is there and fresh. */
  function LookupWith(entries: map<string, Entry>, names: seq<string>, now: nat, r: Request): Answer {
    var key := VaryKey(BaseKey(r.target), names, r.headers);
    if key in entries && Fresh(entries[key], now) then Hit(entries[key]) else Miss
  }

  function Lookup(c: Cache, now: nat, r: Request): Answer {
    if BypassesCache(r) then Bypass
    else if SkipsLookup(r) || BaseKey(r.target) !in c.vary then Miss
    else LookupWith(c.entries, c.vary[BaseKey(r.target)], now, r)
  }

  /** A response that reached the response handler of a request. */
  datatype Origin = Origin(request: Request, response: Response, settings: Settings, at: nat)

  function VaryList(o: Origin): seq<string> {
    SortDedup(o.settings.vary + o.response.vary)
  }

  ghost predicate Admitted(o: Origin) {
    && !BypassesCache(o.request)
    && ShouldCache(o.response.control, "authorization" in o.request.headers)
    && Collect(o.settings.limit, o.response.frames).Complete?
    && "*" !in VaryList(o)
  }

  function KeyOf(o: Origin): string {
    VaryKey(BaseKey(o.request.target), VaryList(o), o.request.headers)
  }

  function WithoutHeaders(h: Headers, ignored: seq<string>): Headers {
    map k | k in h && forall i :: 0 <= i < |ignored| ==> k != Lower(ignored[i]) :: h[k]
  }

  ghost function EntryOf(o: Origin): Entry
    requires Admitted(o)
  {
    Entry(o.response.status, WithoutHeaders(o.response.headers, o.settings.ignored),
          Collect(o.settings.limit, o.response.frames).body, o.at, o.response.control)
  }

  function CleanedUp(entries: map<string, Entry>, now: nat): map<string, Entry> {
    map k | k in entries && Fresh(entries[k], now) :: entries[k]
  }

  /** The two maps, shared by all handlers. */
  class SharedCache {
    var vary: map<string, seq<string>>
    var entries: map<string, Entry>

    ghost function View(): Cache
      reads this
    {
      Cache(vary, entries)
    }

    constructor ()
      ensures View() == Cache(map[], map[])
    {
      vary, entries := map[], map[];
    }
  }

  datatype Marker = MarkedBypass | MarkedHit | MarkedMiss | Unmarked

  /** The cache after a response has been stored by a handler that nothing interrupts. */
  ghost function AfterStore(c: Cache, o: Origin): Cache
    requires Admitted(o)
  {
    Cache(c.vary[BaseKey(o.request.target) := VaryList(o)], CleanedUp(c.entries, o.at)[KeyOf(o) := EntryOf(o)])
  }

  /** The handlers of one request. */
  class CacheModuleHandlers {
    const cache: SharedCache
    var settings: Settings
    var cacheKey: Option<string>
    var requestHeaders: Headers
    var hasAuthorization: bool
    var cached: bool
    var noStore: bool

    constructor (cache: SharedCache)
      ensures this.cache == cache && !cached && !noStore && cacheKey.None?
    {
      this.cache := cache;
      settings, cacheKey, requestHeaders := Settings([], [], None), None, map[];
      hasAuthorization, cached, noStore := false, false, false;
    }

    /** What the request handler leaves behind for the response handler. */
    ghost predicate Remembers(r: Request, settings: Settings)
      reads this
    {
      && this.settings == settings && !noStore && !cached && !BypassesCache(r)
      && cacheKey == Some(BaseKey(r.target)) && requestHeaders == r.headers
      && hasAuthorization == ("authorization" in r.headers)
    }

    method RequestHandler(r: Request, settings: Settings, now: nat) returns (answer: Option<Entry>)
      requires !cached && !noStore && cacheKey.None?
      modifies this
      ensures answer == (match Lookup(cache.View(), now, r) case Hit(e) => Some(e) case _ => None)
      ensures noStore == BypassesCache(r) && cached == answer.Some?
      ensures answer.None? && !noStore ==> Remembers(r, settings)
    {
      this.settings := settings;
      answer := None;
      var decision := DecideFromRequest(r);
      if decision.NoStore() {
        noStore := true;
        return;
      }
      var key := BuildCacheKey(r.target);
      if !decision.NoCache() {
        if key in cache.vary {
          var full := BuildVaryKey(key, cache.vary[key], r.headers);
          if full in cache.entries && Fresh(cache.entries[full], now) {
            cached := true;
            return Some(cache.entries[full]);
          }
        }
      }
      requestHeaders := r.headers;
      cacheKey := Some(key);
      hasAuthorization := "authorization" in r.headers;
    }

    /** `r` is the request this handler has seen. */
    method ResponseHandler(ghost r: Request, response: Response, now: nat) returns (marker: Marker, served: Collected)
      requires noStore || cached || Remembers(r, settings)
      modifies cache
      ensures noStore ==> marker == MarkedBypass
      ensures !noStore && cached ==> marker == MarkedHit
      ensures !noStore && !cached && !served.Broken? ==> marker == MarkedMiss
      ensures var o := Origin(r, response, settings, now);
              cache.View() == if !noStore && !cached && Admitted(o) then AfterStore(old(cache.View()), o)
                              else old(cache.View())
      ensures served == if !noStore && !cached && ShouldCache(response.control, hasAuthorization)
                        then Collect(settings.limit, response.frames) else Streamed([], response.frames)
    {
      marker, served := Unmarked, Streamed([], response.frames);
      if noStore {
        marker := MarkedBypass;
        return;
      }
      if cached {
        marker := MarkedHit;
        return;
      }
      if ShouldCache(response.control, hasAuthorization) {
        served := CollectBody(settings.limit, response.frames);
        if served.Complete? {
          Store(r, response, served.body, now);
        } else if served.Broken? {
          return;
        }
      }
      marker := MarkedMiss;
    }

    method Store(ghost r: Request, response: Response, body: Bytes, now: nat)
      requires Remembers(r, settings)
      requires ShouldCache(response.control, hasAuthorization)
      requires Collect(settings.limit, response.frames) == Complete(body)
      modifies cache
      ensures var o := Origin(r, response, settings, now);
              cache.View() == if Admitted(o) then AfterStore(old(cache.View()), o) else old(cache.View())
    {
      var names := SortDedup(settings.vary + response.vary);
      if "*" !in names {
        var full := BuildVaryKey(cacheKey.value, names, requestHeaders);
        cache.vary := cache.vary[cacheKey.value := names];
        var written := WithoutHeaders(response.headers, settings.ignored);
        cache.entries := CleanedUp(cache.entries, now);
        cache.entries := cache.entries[full := Entry(response.status, written, body, now, response.control)];
      }
    }
  }

  // ---------------------------------------------------------------------------------------------
  // Runs: map operations of many handlers, evictions and the clock, in any order

  datatype Action =
    | PutVary(o: Origin)          // `vary_cache.insert`
    | PutEntry(o: Origin)         // `cache.insert`
    | CleanUp                     // `cache.retain`
    | EvictVary(key: string)
    | EvictEntry(key: string)
    | Tick(later: nat)

  /** The cache, the clock, and where each entry came from. */
  datatype World = World(cache: Cache, now: nat, origins: map<string, Origin>)

  const Empty := World(Cache(map[], map[]), 0, map[])

  ghost predicate Enabled(w: World, a: Action) {
    match a
    case PutVary(o) => Admitted(o)
    case PutEntry(o) => Admitted(o) && o.at == w.now
    case Tick(later) => w.now <= later
    case _ => true
  }

  ghost function ApplyCache(c: Cache, now: nat, a: Action): Cache
    requires a.PutEntry? ==> Admitted(a.o)
  {
    match a
    case PutVary(o) => c.(vary := c.vary[BaseKey(o.request.target) := VaryList(o)])
    case PutEntry(o) => c.(entries := c.entries[KeyOf(o) := EntryOf(o)])
    case CleanUp => c.(entries := CleanedUp(c.entries, now))
    case EvictVary(key) => c.(vary := c.vary - {key})
    case EvictEntry(key) => c.(entries := c.entries - {key})
    case Tick(_) => c
  }

  ghost function Apply(w: World, a: Action): World
    requires Enabled(w, a)
  {
    World(ApplyCache(w.cache, w.now, a),
          if a.Tick? then a.later else w.now,
          if a.PutEntry? then w.origins[KeyOf(a.o) := a.o] else w.origins)
  }

  ghost predicate Reaches(w: World, run: seq<Action>, w': World)
    decreases |run|
  {
    if run == [] then w == w' else Enabled(w, run[0]) && Reaches(Apply(w, run[0]), run[1..], w')
  }

  /** A store by a handler that nothing interrupts is three steps of a run. */
  lemma {:induction false} StoreIsThreeSteps(w: World, o: Origin)
    requires Admitted(o) && o.at == w.now
    ensures var w' := World(AfterStore(w.cache, o), w.now, w.origins[KeyOf(o) := o]);
            Reaches(w, [PutVary(o), CleanUp, PutEntry(o)], w')
  {
    var run := [PutVary(o), CleanUp, PutEntry(o)];
    var w1 := Apply(w, run[0]);
    var w2 := Apply(w1, run[1]);
    var w3 := Apply(w2, run[2]);
    assert run[1..][1..] == [PutEntry(o)] && [PutEntry(o)][1..] == [];
    assert Reaches(w3, [], w3);
    assert Reaches(w2, [PutEntry(o)], w3);
    assert Reaches(w1, run[1..], w3);
  }

  /** An entry is stored under the key of its origin, with the contents of its origin. */
  ghost predicate Genuine(w: World, key: string)
    requires key in w.cache.entries
  {
    && key in w.origins
    && var o := w.origins[key];
       && Admitted(o) && o.at <= w.now
       && key == KeyOf(o) && w.cache.entries[key] == EntryOf(o)
  }

  ghost predicate Sound(w: World) {
    forall key :: key in w.cache.entries ==> Genuine(w, key)
  }

  lemma {:induction false} SoundStep(w: World, a: Action)
    requires Sound(w) && Enabled(w, a)
    ensures Sound(Apply(w, a))
  {
    var w' := Apply(w, a);
    forall key | key in w'.cache.entries ensures Genuine(w', key) {
      if a.PutEntry? && key == KeyOf(a.o) {
      } else {
        assert Genuine(w, key);
      }
    }
  }

  lemma {:induction false} SoundRun(w: World, run: seq<Action>, w': World)
    requires Sound(w) && Reaches(w, run, w')
    ensures Sound(w') && w.now <= w'.now
    decreases |run|
  {
    if run != [] {
      SoundStep(w, run[0]);
      SoundRun(Apply(w, run[0]), run[1..], w');
    }
  }

  /** Every origin on record was put by a step of the run, or is on record from before it. */
  lemma {:induction false} OriginsWerePut(w: World, run: seq<Action>, w': World)
    requires Reaches(w, run, w')
    ensures forall key :: key in w'.origins ==>
              PutEntry(w'.origins[key]) in run || (key in w.origins && w'.origins[key] == w.origins[key])
    decreases |run|
  {
    if run != [] {
      var w1 := Apply(w, run[0]);
      OriginsWerePut(w1, run[1..], w');
      assert run == [run[0]] + run[1..];
    }
  }

  /** Every Vary list was put by a step of the run for its base key, or is there from before it. */
  lemma {:induction false} ListsWerePut(w: World, run: seq<Action>, w': World, base: string)
    requires Reaches(w, run, w') && base in w'.cache.vary
    ensures || (exists o :: PutVary(o) in run && PutsList(o, base, w'.cache.vary[base]))
            || (base in w.cache.vary && w'.cache.vary[base] == w.cache.vary[base])
    decreases |run|
  {
    if run != [] {
      var w1 := Apply(w, run[0]);
      ListsWerePut(w1, run[1..], w', base);
      assert run == [run[0]] + run[1..];
      if run[0].PutVary? && BaseKey(run[0].o.request.target) == base {
        assert PutsList(run[0].o, base, w1.cache.vary[base]);
      }
    }
  }

  ghost predicate PutsList(o: Origin, base: string, names: seq<string>) {
    Admitted(o) && BaseKey(o.request.target) == base && VaryList(o) == names
  }

  /** The response has not outlived its s-maxage, else its max-age, else 300 seconds. */
  ghost predicate WithinLifetime(control: Option<CacheControl>, age: int) {
    && age >= 0
    && (control.Some? && control.value.sMaxAge.Some? ==> age <= control.value.sMaxAge.value)
    && (control.Some? && control.value.sMaxAge.None? && control.value.maxAge.Some? ==> age <= control.value.maxAge.value)
    && (control.None? || (control.value.sMaxAge.None? && control.value.maxAge.None?) ==> age <= 300)
  }

  /** `e` is what was stored of `o` under `key`, and is not too old. */
  ghost predicate StoredUnder(o: Origin, key: string, now: nat, e: Entry) {
    Admitted(o) && KeyOf(o) == key && e == EntryOf(o) && WithinLifetime(o.response.control, now - o.at)
  }

  /**
  A hit, in whatever run, returns a response that a step of the run stored under the composite key of
  the lookup and that has not outlived its lifetime.
  */
  lemma {:induction false} HitWasStored(run: seq<Action>, w: World, names: seq<string>, r: Request, e: Entry)
    requires Reaches(Empty, run, w) && LookupWith(w.cache.entries, names, w.now, r) == Hit(e)
    ensures exists o :: PutEntry(o) in run && StoredUnder(o, VaryKey(BaseKey(r.target), names, r.headers), w.now, e)
  {
    SoundRun(Empty, run, w);
    OriginsWerePut(Empty, run, w);
    HitHasOrigin(w, VaryKey(BaseKey(r.target), names, r.headers), names, r, e);
  }

  lemma HitHasOrigin(w: World, key: string, names: seq<string>, r: Request, e: Entry)
    requires Sound(w) && LookupWith(w.cache.entries, names, w.now, r) == Hit(e)
    requires key == VaryKey(BaseKey(r.target), names, r.headers)
    ensures key in w.origins && StoredUnder(w.origins[key], key, w.now, e)
  {
    assert Genuine(w, key);
  }

  // ---------------------------------------------------------------------------------------------
  // Which request a hit was stored for

  ghost predicate ValidRequest(r: Request) {
    && ValidTarget(r.target) && ValidHost(r.target) && NoNewline(BaseKey(r.target))
    && ValidHeaders(r.headers)
  }

  ghost predicate GoodList(names: seq<string>) {
    forall x :: x in names ==> ValidName(x)
  }

  /** A request and names from which keys can be told apart. */
  ghost predicate ValidOrigin(o: Origin) {
    && ValidRequest(o.request)
    && forall x :: x in o.settings.vary || x in o.response.vary ==> ValidName(x)
  }

  /** Whatever the run put for the base key or under the composite key of one lookup is valid. */
  ghost predicate ValidFor(run: seq<Action>, base: string, key: string) {
    && (forall o :: PutVary(o) in run && BaseKey(o.request.target) == base ==> ValidOrigin(o))
    && (forall o :: PutEntry(o) in run && KeyOf(o) == key ==> ValidOrigin(o))
  }

  lemma OriginList(o: Origin)
    requires ValidOrigin(o)
    ensures GoodList(VaryList(o))
  {
    SortDedupAscending(o.settings.vary + o.response.vary);
  }

  /** Equal composite keys belong to the same target, Vary list and listed header values. */
  lemma {:induction false} KeyIsFor(o: Origin, names: seq<string>, r: Request)
    requires Admitted(o) && ValidOrigin(o) && ValidRequest(r) && GoodList(names)
    requires KeyOf(o) == VaryKey(BaseKey(r.target), names, r.headers)
    ensures StoredFor(o, r, names)
  {
    OriginList(o);
    VaryKeyInjective(BaseKey(o.request.target), VaryList(o), o.request.headers, BaseKey(r.target), names, r.headers);
    BaseKeyInjective(o.request.target, r.target);
  }

  /**
  A hit returns a response that a step of the run stored for the same method, scheme, host, path and
  query, under the same Vary list and with the same first value of every listed header, and that has
  not outlived its lifetime.  The Vary list may have been read at any earlier moment of the run than
  the entry.  Only what was put under the keys of this lookup has to be valid.
  */
  lemma {:induction false} HitIsSound(before: seq<Action>, w: World, between: seq<Action>, w': World, r: Request, e: Entry)
    requires Reaches(Empty, before, w) && Reaches(w, between, w') && ValidRequest(r)
    requires BaseKey(r.target) in w.cache.vary
    requires var names := w.cache.vary[BaseKey(r.target)];
             && ValidFor(before + between, BaseKey(r.target), VaryKey(BaseKey(r.target), names, r.headers))
             && LookupWith(w'.cache.entries, names, w'.now, r) == Hit(e)
    ensures exists o :: PutEntry(o) in before + between && Answers(o, r, w.cache.vary[BaseKey(r.target)], w'.now, e)
  {
    var base := BaseKey(r.target);
    var names := w.cache.vary[base];
    var key := VaryKey(base, names, r.headers);
    ListIsGood(before, w, between, base, key);
    SoundRun(Empty, before, w);
    SoundRun(w, between, w');
    OriginsWerePut(Empty, before, w);
    OriginsWerePut(w, between, w');
    HitHasOrigin(w', key, names, r, e);
    assert PutEntry(w'.origins[key]) in before + between;
    KeyIsFor(w'.origins[key], names, r);
    assert Answers(w'.origins[key], r, names, w'.now, e);
  }

  lemma {:induction false} ListIsGood(before: seq<Action>, w: World, between: seq<Action>, base: string, key: string)
    requires Reaches(Empty, before, w) && base in w.cache.vary && ValidFor(before + between, base, key)
    ensures GoodList(w.cache.vary[base])
  {
    ListsWerePut(Empty, before, w, base);
    var o :| PutVary(o) in before && PutsList(o, base, w.cache.vary[base]);
    assert PutVary(o) in before + between;
    OriginList(o);
  }

  /** `e` is what was stored of `o`, which answers `r` and is not too old. */
  ghost predicate Answers(o: Origin, r: Request, names: seq<string>, now: nat, e: Entry) {
    StoredFor(o, r, names) && e == EntryOf(o) && WithinLifetime(o.response.control, now - o.at)
  }

  /** `o` was admitted to the cache and answers `r`, given the Vary list `names`. */
  ghost predicate StoredFor(o: Origin, r: Request, names: seq<string>) {
    && Admitted(o)
    && o.request.target == r.target && VaryList(o) == names
    && forall i :: 0 <= i < |names| ==> FirstValue(o.request.headers, names[i]) == FirstValue(r.headers, names[i])
  }

  /** A response that a shared cache may keep, completely received and within the limit, for a request that allows it. */
  ghost predicate Storable(o: Origin, body: Bytes) {
    && o.request.target.method_ in {"GET", "HEAD"} && "upgrade" !in o.request.headers
    && (o.request.control.Some? ==> !o.request.control.value.noStore)
    && "*" !in o.settings.vary + o.response.vary
    && o.response.control.Some?
    && var control := o.response.control.value;
       && !control.noStore && control.cachability != Some(Private)
       && ("authorization" in o.request.headers ==> control.cachability == Some(Public))
       && (control.cachability == Some(Public) || control.maxAge.Some? || control.sMaxAge.Some?)
       && body == DataOf(o.response.frames) && (o.settings.limit.Some? ==> |body| <= o.settings.limit.value)
  }

  /**
  What is in the cache was allowed there, in every reachable state: it is what was stored of a response
  that some step of the run put there, and that response was storable.
  */
  lemma {:induction false} StoredWasStorable(run: seq<Action>, w: World, key: string)
    requires Reaches(Empty, run, w) && key in w.cache.entries
    ensures && key in w.origins
            && var o := w.origins[key];
               && PutEntry(o) in run && Admitted(o)
               && key == KeyOf(o) && w.cache.entries[key] == EntryOf(o)
               && Storable(o, w.cache.entries[key].body)
  {
    SoundRun(Empty, run, w);
    OriginsWerePut(Empty, run, w);
    assert Genuine(w, key);
    AdmittedIsStorable(w.origins[key]);
  }

  lemma {:induction false} AdmittedIsStorable(o: Origin)
    requires Admitted(o)
    ensures Storable(o, EntryOf(o).body)
  {
    AdmittedIff(o);
    CollectedIff(o.settings.limit, o.response.frames);
  }

  /** Exactly what a shared cache may keep is stored, if it has been received completely. */
  lemma {:induction false} AdmittedIff(o: Origin)
    ensures Admitted(o) <==> Storable(o, DataOf(o.response.frames)) && forall f :: f in o.response.frames ==> !f.Failed?
  {
    CollectedIff(o.settings.limit, o.response.frames);
    SortDedupAscending(o.settings.vary + o.response.vary);
    assert (forall f :: f in o.response.frames ==> !f.Failed?)
           <==> forall i :: 0 <= i < |o.response.frames| ==> !o.response.frames[i].Failed?;
  }

  // ---------------------------------------------------------------------------------------------
  // When a lookup hits

  /** Status, body, time and headers of the response, but for the ignored headers. */
  ghost predicate Carries(e: Entry, o: Origin) {
    && e.status == o.response.status && e.body == DataOf(o.response.frames)
    && e.stored == o.at && e.control == o.response.control
    && (forall k :: k in e.headers <==>
                      k in o.response.headers && forall i :: 0 <= i < |o.settings.ignored| ==> Lower(o.settings.ignored[i]) != k)
    && (forall k :: k in e.headers ==> e.headers[k] == o.response.headers[k])
  }

  lemma {:induction false} EntryCarries(o: Origin)
    requires Admitted(o)
    ensures Carries(EntryOf(o), o)
  {
    CollectedIff(o.settings.limit, o.response.frames);
  }

  lemma FreshIff(e: Entry, now: nat)
    requires e.stored <= now
    ensures Fresh(e, now) <==> WithinLifetime(e.control, now - e.stored)
  {
  }

  /** The request may be answered from the cache. */
  ghost predicate MayHit(r: Request) {
    && r.target.method_ in {"GET", "HEAD"} && "upgrade" !in r.headers
    && (r.control.Some? ==> !r.control.value.noStore && r.control.value.cachability != Some(NoCache))
  }

  /** The step neither evicts nor overwrites what is under the two keys. */
  ghost predicate LeavesAlone(a: Action, base: string, key: string) {
    match a
    case PutVary(o) => BaseKey(o.request.target) != base
    case PutEntry(o) => KeyOf(o) != key
    case EvictVary(k) => k != base
    case EvictEntry(k) => k != key
    case _ => true
  }

  ghost predicate AllLeaveAlone(run: seq<Action>, base: string, key: string) {
    forall i :: 0 <= i < |run| ==> LeavesAlone(run[i], base, key)
  }

  /** The response of `o` is in the cache, unless it has outlived its lifetime. */
  ghost predicate Kept(w: World, o: Origin) {
    && Admitted(o) && o.at <= w.now
    && BaseKey(o.request.target) in w.cache.vary && w.cache.vary[BaseKey(o.request.target)] == VaryList(o)
    && (KeyOf(o) in w.cache.entries ==> w.cache.entries[KeyOf(o)] == EntryOf(o))
    && (KeyOf(o) !in w.cache.entries ==> !WithinLifetime(o.response.control, w.now - o.at))
  }

  lemma {:induction false} KeptStep(w: World, a: Action, o: Origin)
    requires Kept(w, o) && Enabled(w, a) && LeavesAlone(a, BaseKey(o.request.target), KeyOf(o))
    ensures Kept(Apply(w, a), o)
  {
    FreshIff(EntryOf(o), w.now);
  }

  lemma {:induction false} KeptRun(w: World, run: seq<Action>, w': World, o: Origin)
    requires Kept(w, o) && Reaches(w, run, w') && AllLeaveAlone(run, BaseKey(o.request.target), KeyOf(o))
    ensures Kept(w', o)
    decreases |run|
  {
    if run != [] {
      KeptStep(w, run[0], o);
      KeptRun(Apply(w, run[0]), run[1..], w', o);
    }
  }

  /** The request is for the same target, and has the same first value of every header of the two Vary lists. */
  ghost predicate SameRequest(r: Request, o: Origin) {
    && r.target == o.request.target
    && forall x :: x in o.settings.vary || x in o.response.vary ==> FirstValue(r.headers, x) == FirstValue(o.request.headers, x)
  }

  lemma {:induction false} SameKey(r: Request, o: Origin, names: seq<string>)
    requires forall i :: 0 <= i < |names| ==> FirstValue(r.headers, names[i]) == FirstValue(o.request.headers, names[i])
    ensures VaryKey(BaseKey(o.request.target), names, r.headers) == VaryKey(BaseKey(o.request.target), names, o.request.headers)
  {
    if names != [] { SameKey(r, o, names[..|names| - 1]); }
  }

  lemma {:induction false} SameFullKey(r: Request, o: Origin)
    requires SameRequest(r, o)
    ensures VaryKey(BaseKey(r.target), VaryList(o), r.headers) == KeyOf(o)
  {
    SortDedupAscending(o.settings.vary + o.response.vary);
    forall i | 0 <= i < |VaryList(o)|
      ensures FirstValue(r.headers, VaryList(o)[i]) == FirstValue(o.request.headers, VaryList(o)[i])
    {
      assert VaryList(o)[i] in VaryList(o);
    }
    SameKey(r, o, VaryList(o));
  }

  /**
  After a store and any steps that neither evict nor overwrite what it put, a request that may hit, for
  the same target and the same listed header values, gets the stored response exactly as long as that
  is within its lifetime: its s-maxage, else its max-age, else 300 seconds.  Other steps may come between
  the two puts of the store, as long as its Vary list is still there.
  */
  lemma {:induction false} HitsIff(w: World, o: Origin, run: seq<Action>, w': World, r: Request)
    requires Enabled(w, PutEntry(o)) && Reaches(Apply(w, PutEntry(o)), run, w')
    requires BaseKey(o.request.target) in w.cache.vary && w.cache.vary[BaseKey(o.request.target)] == VaryList(o)
    requires AllLeaveAlone(run, BaseKey(o.request.target), KeyOf(o))
    requires SameRequest(r, o) && MayHit(r)
    ensures var answer := Lookup(w'.cache, w'.now, r);
            && (answer.Hit? <==> WithinLifetime(o.response.control, w'.now - o.at))
            && (answer.Hit? ==> Carries(answer.entry, o))
            && !answer.Bypass?
  {
    KeptRun(Apply(w, PutEntry(o)), run, w', o);
    SameFullKey(r, o);
    EntryCarries(o);
    FreshIff(EntryOf(o), w'.now);
  }

  /** No other request hits: those that must bypass the cache do so, and those with no-cache miss. */
  lemma {:induction false} OnlyThoseMayHit(c: Cache, now: nat, r: Request)
    ensures Lookup(c, now, r).Hit? ==> MayHit(r)
    ensures Lookup(c, now, r).Bypass? <==>
              r.target.method_ !in {"GET", "HEAD"} || "upgrade" in r.headers || (r.control.Some? && r.control.value.noStore)
  {
  }

  // ---------------------------------------------------------------------------------------------
  // Cleanup and eviction

  /** The entry under `key`, unless it is stale. */
  ghost function FreshEntry(c: Cache, now: nat, key: string): Option<Entry> {
    if key in c.entries && Fresh(c.entries[key], now) then Some(c.entries[key]) else None
  }

  /** `c` answers every lookup that hits as `d` does. */
  ghost predicate Below(c: Cache, d: Cache, now: nat) {
    && (forall key :: key in c.vary ==> key in d.vary && c.vary[key] == d.vary[key])
    && (forall key :: FreshEntry(c, now, key).Some? ==> FreshEntry(d, now, key) == FreshEntry(c, now, key))
  }

  lemma BelowHit(c: Cache, d: Cache, now: nat, r: Request)
    requires Below(c, d, now) && Lookup(c, now, r).Hit?
    ensures Lookup(d, now, r) == Lookup(c, now, r)
  {
    var key := VaryKey(BaseKey(r.target), c.vary[BaseKey(r.target)], r.headers);
    assert FreshEntry(c, now, key).Some?;
  }

  lemma {:induction false} BelowStep(c: Cache, d: Cache, now: nat, a: Action, now': nat)
    requires Below(c, d, now) && now <= now'
    requires a.PutEntry? ==> Admitted(a.o)
    ensures Below(ApplyCache(c, now, a), ApplyCache(d, now, a), now')
  {
    var c', d' := ApplyCache(c, now, a), ApplyCache(d, now, a);
    forall key | FreshEntry(c', now', key).Some? ensures FreshEntry(d', now', key) == FreshEntry(c', now', key) {
      if !(a.PutEntry? && key == KeyOf(a.o)) {
        assert FreshEntry(c, now, key).Some?;
      }
    }
  }

  /** The two runs go on with the same steps. */
  lemma {:induction false} BelowRun(w: World, v: World, run: seq<Action>, w': World)
    requires Below(w.cache, v.cache, w.now) && w.now == v.now
    requires Reaches(w, run, w')
    ensures exists v' :: Reaches(v, run, v') && v'.now == w'.now && Below(w'.cache, v'.cache, w'.now)
    decreases |run|
  {
    if run == [] {
      assert Reaches(v, run, v);
    } else {
      var w1, v1 := Apply(w, run[0]), Apply(v, run[0]);
      BelowStep(w.cache, v.cache, w.now, run[0], w1.now);
      BelowRun(w1, v1, run[1..], w');
      var v' :| Reaches(v1, run[1..], v') && v'.now == w'.now && Below(w'.cache, v'.cache, w'.now);
      assert Reaches(v, run, v');
    }
  }

  /** An eviction can only turn later hits into misses: without it, the same steps give the same hits. */
  lemma {:induction false} EvictionOnlyMisses(w: World, a: Action, run: seq<Action>, w': World)
    requires (a.EvictVary? || a.EvictEntry?) && Reaches(Apply(w, a), run, w')
    ensures exists v' :: && Reaches(w, run, v')
                         && forall r :: Lookup(w'.cache, w'.now, r).Hit? ==> Lookup(v'.cache, v'.now, r) == Lookup(w'.cache, w'.now, r)
  {
    BelowRun(Apply(w, a), w, run, w');
    var v' :| Reaches(w, run, v') && v'.now == w'.now && Below(w'.cache, v'.cache, w'.now);
    forall r | Lookup(w'.cache, w'.now, r).Hit? ensures Lookup(v'.cache, v'.now, r) == Lookup(w'.cache, w'.now, r) {
      BelowHit(w'.cache, v'.cache, w'.now, r);
    }
  }

  /** The caches answer every lookup alike. */
  ghost predicate Agree(c: Cache, d: Cache, now: nat) {
    Below(c, d, now) && Below(d, c, now)
  }

  lemma AgreeLookup(c: Cache, d: Cache, now: nat, r: Request)
    requires Agree(c, d, now)
    ensures Lookup(c, now, r) == Lookup(d, now, r)
  {
    if Lookup(c, now, r).Hit? {
      BelowHit(c, d, now, r);
    } else if Lookup(d, now, r).Hit? {
      BelowHit(d, c, now, r);
    }
  }

  lemma {:induction false} AgreeRun(w: World, v: World, run: seq<Action>, w': World)
    requires Agree(w.cache, v.cache, w.now) && w.now == v.now
    requires Reaches(w, run, w')
    ensures exists v' :: Reaches(v, run, v') && v'.now == w'.now && Agree(w'.cache, v'.cache, w'.now)
    decreases |run|
  {
    if run == [] {
      assert Reaches(v, run, v);
    } else {
      var w1, v1 := Apply(w, run[0]), Apply(v, run[0]);
      BelowStep(w.cache, v.cache, w.now, run[0], w1.now);
      BelowStep(v.cache, w.cache, w.now, run[0], w1.now);
      AgreeRun(w1, v1, run[1..], w');
      var v' :| Reaches(v1, run[1..], v') && v'.now == w'.now && Agree(w'.cache, v'.cache, w'.now);
      assert Reaches(v, run, v');
    }
  }

  /** A cleanup, whenever it happens, changes no lookup then or later. */
  lemma {:induction false} CleanupIsInvisible(w: World, run: seq<Action>, w': World)
    requires Reaches(w, run, w')
    ensures exists v' :: && Reaches(Apply(w, CleanUp), run, v')
                         && forall r :: Lookup(v'.cache, v'.now, r) == Lookup(w'.cache, w'.now, r)
  {
    var v := Apply(w, CleanUp);
    assert forall key :: FreshEntry(v.cache, w.now, key) == FreshEntry(w.cache, w.now, key);
    AgreeRun(w, v, run, w');
    var v' :| Reaches(v, run, v') && v'.now == w'.now && Agree(w'.cache, v'.cache, w'.now);
    forall r ensures Lookup(v'.cache, v'.now, r) == Lookup(w'.cache, w'.now, r) {
      AgreeLookup(w'.cache, v'.cache, w'.now, r);
    }
  }
}
