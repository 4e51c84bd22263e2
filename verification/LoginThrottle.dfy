/**
The TTL cache, and the counter of failed logins kept in it: an attempt first checks the counter under
the read lock, later verifies the password, and on failure counts up under the write lock.  Attempts
of many clients run at once.
*/
module LoginThrottle {
  import opened Wrappers

  // ---------------------------------------------------------------------------------------------
  // The cache

  datatype Slot<+V> = Slot(value: V, at: nat)

  predicate Live<V>(s: Slot<V>, ttl: nat, now: nat) {
    now - s.at < ttl
  }

  function Lookup<K, V>(m: map<K, Slot<V>>, ttl: nat, key: K, now: nat): Option<V> {
    if key in m && Live(m[key], ttl, now) then Some(m[key].value) else None
  }

  function CleanedUp<K, V>(m: map<K, Slot<V>>, ttl: nat, now: nat): map<K, Slot<V>> {
    map k | k in m && Live(m[k], ttl, now) :: m[k]
  }

  class TtlCache<K(==), V> {
    var cache: map<K, Slot<V>>
    const ttl: nat

    constructor (ttl: nat)
      ensures this.ttl == ttl && cache == map[]
    {
      this.ttl, cache := ttl, map[];
    }

    method Insert(key: K, value: V, now: nat)
      modifies this
      ensures cache == old(cache)[key := Slot(value, now)]
    {
      cache := cache[key := Slot(value, now)];
    }

    method Get(key: K, now: nat) returns (r: Option<V>)
      ensures r == Lookup(cache, ttl, key, now)
    {
      if key in cache {
        var slot := cache[key];
        if now - slot.at < ttl {
          return Some(slot.value);
        }
      }
      return None;
    }

    method Cleanup(now: nat)
      modifies this
      ensures forall key, later :: now <= later ==> Lookup(cache, ttl, key, later) == Lookup(old(cache), ttl, key, later)
      ensures forall key :: key in cache ==> Live(cache[key], ttl, now)
      ensures forall key :: key in cache ==> key in old(cache) && cache[key] == old(cache)[key]
    {
      forall key, later | now <= later
        ensures Lookup(CleanedUp(cache, ttl, now), ttl, key, later) == Lookup(cache, ttl, key, later)
      {
        CleanupIsInvisible(cache, ttl, now, key, later);
      }
      cache := CleanedUp(cache, ttl, now);
    }
  }

  /** A cleanup changes no lookup, then or later. */
  lemma CleanupIsInvisible<K, V>(m: map<K, Slot<V>>, ttl: nat, now: nat, key: K, later: nat)
    requires now <= later
    ensures Lookup(CleanedUp(m, ttl, now), ttl, key, later) == Lookup(m, ttl, key, later)
  {
  }

  // ---------------------------------------------------------------------------------------------
  // The counter

  type Client = nat

  const LIMIT: nat := 10
  const U8: nat := 256

  type Db = map<Client, Slot<nat>>

  function Count(db: Db, ttl: nat, client: Client, now: nat): nat {
    var r := Lookup(db, ttl, client, now);
    if r.Some? then r.value else 0
  }

  method CheckAttempt(db: TtlCache<Client, nat>, client: Client, now: nat) returns (rejected: bool)
    ensures rejected <==> Count(db.cache, db.ttl, client, now) >= LIMIT
  {
    var attempts := db.Get(client, now);
    return attempts.Some? && attempts.value >= LIMIT;
  }

  /** Clean up, read, and write back one more, with a clock reading for each. */
  function Recorded(db: Db, ttl: nat, client: Client, t1: nat, t2: nat, t3: nat): Db {
    var clean := CleanedUp(db, ttl, t1);
    clean[client := Slot((Count(clean, ttl, client, t2) + 1) % U8, t3)]
  }

  /**
  From `t3` on, the count of the client is one more than it was at `t2` (in a byte) for exactly one TTL,
  and the counts of the others are what they would have been.
  */
  ghost predicate CountsUp(before: Db, after: Db, ttl: nat, client: Client, t2: nat, t3: nat) {
    && (forall now :: now >= t3 ==>
          Count(after, ttl, client, now) == if now < t3 + ttl then (Count(before, ttl, client, t2) + 1) % 256 else 0)
    && (forall c, now :: c != client && now >= t3 ==> Count(after, ttl, c, now) == Count(before, ttl, c, now))
  }

  lemma {:induction false} RecordCountsUp(db: Db, ttl: nat, client: Client, t1: nat, t2: nat, t3: nat)
    requires t1 <= t2 <= t3
    ensures CountsUp(db, Recorded(db, ttl, client, t1, t2, t3), ttl, client, t2, t3)
  {
    CleanupIsInvisible(db, ttl, t1, client, t2);
    forall c, now | c != client && now >= t3
      ensures Count(Recorded(db, ttl, client, t1, t2, t3), ttl, c, now) == Count(db, ttl, c, now)
    {
      CleanupIsInvisible(db, ttl, t1, c, now);
    }
  }

  method RecordFailure(db: TtlCache<Client, nat>, client: Client, t1: nat, t2: nat, t3: nat)
    modifies db
    ensures db.cache == Recorded(old(db.cache), db.ttl, client, t1, t2, t3)
    ensures t1 <= t2 <= t3 ==> CountsUp(old(db.cache), db.cache, db.ttl, client, t2, t3)
  {
    if t1 <= t2 <= t3 { RecordCountsUp(db.cache, db.ttl, client, t1, t2, t3); }
    db.Cleanup(t1);
    assert db.cache == CleanedUp(old(db.cache), db.ttl, t1) by {
      forall key | key in old(db.cache) && Live(old(db.cache)[key], db.ttl, t1) ensures key in db.cache {
        assert Lookup(db.cache, db.ttl, key, t1).Some?;
      }
    }
    var attempts := db.Get(client, t2);
    var current := if attempts.Some? then attempts.value else 0;
    db.Insert(client, (current + 1) % U8, t3);
  }

  // ---------------------------------------------------------------------------------------------
  // Runs

  /** The counters, the clock, and how many attempts of each client are past the check. */
  datatype State = State(db: Db, now: nat, flying: map<Client, nat>)

  const Initial := State(map[], 0, map[])

  /** The time to live of a counter, and how many attempts one client can have in flight. */
  datatype Bounds = Bounds(ttl: nat, concurrent: nat)

  datatype Action =
    | Check(client: Client)
    | Record(client: Client, t1: nat, t2: nat, t3: nat)   // the password was wrong
    | Abandon(client: Client)                             // no failure to record
    | Tick(later: nat)

  function InFlight(s: State, client: Client): nat {
    if client in s.flying then s.flying[client] else 0
  }

  function Failures(b: Bounds, s: State, client: Client): nat {
    Count(s.db, b.ttl, client, s.now)
  }

  predicate Rejects(b: Bounds, s: State, client: Client) {
    Failures(b, s, client) >= LIMIT
  }

  predicate Enabled(b: Bounds, s: State, a: Action) {
    match a
    case Check(c) => InFlight(s, c) < b.concurrent
    case Record(c, t1, t2, t3) => InFlight(s, c) > 0 && s.now <= t1 <= t2 <= t3
    case Abandon(c) => InFlight(s, c) > 0
    case Tick(later) => s.now <= later
  }

  function Apply(b: Bounds, s: State, a: Action): State
    requires Enabled(b, s, a)
  {
    match a
    case Check(c) => if Rejects(b, s, c) then s else s.(flying := s.flying[c := InFlight(s, c) + 1])
    case Record(c, t1, t2, t3) =>
      State(Recorded(s.db, b.ttl, c, t1, t2, t3), t3, s.flying[c := InFlight(s, c) - 1])
    case Abandon(c) => s.(flying := s.flying[c := InFlight(s, c) - 1])
    case Tick(later) => s.(now := later)
  }

  ghost predicate Reaches(b: Bounds, s: State, run: seq<Action>, s': State)
    decreases |run|
  {
    if run == [] then s == s' else Enabled(b, s, run[0]) && Reaches(b, Apply(b, s, run[0]), run[1..], s')
  }

  ghost predicate Reachable(b: Bounds, s: State) {
    exists run :: Reaches(b, Initial, run, s)
  }

  /** The failure count and the attempts that may still add to it stay together. */
  ghost predicate Bounded(b: Bounds, s: State) {
    forall c :: Failures(b, s, c) + InFlight(s, c) <= LIMIT - 1 + b.concurrent
  }

  lemma LaterCountsLess(db: Db, ttl: nat, c: Client, now: nat, later: nat)
    requires now <= later
    ensures Count(db, ttl, c, later) <= Count(db, ttl, c, now)
  {
  }

  lemma {:induction false} BoundedStep(b: Bounds, s: State, a: Action)
    requires Bounded(b, s) && Enabled(b, s, a)
    ensures Bounded(b, Apply(b, s, a))
  {
    var s' := Apply(b, s, a);
    forall c ensures Failures(b, s', c) + InFlight(s', c) <= LIMIT - 1 + b.concurrent {
      assert Failures(b, s, c) + InFlight(s, c) <= LIMIT - 1 + b.concurrent;
      if a.Record? {
        RecordedCount(s.db, b.ttl, a.client, s.now, a.t1, a.t2, a.t3, c);
      } else if a.Tick? {
        LaterCountsLess(s.db, b.ttl, c, s.now, a.later);
      }
    }
  }

  lemma {:induction false} RecordedCount(db: Db, ttl: nat, client: Client, now: nat, t1: nat, t2: nat, t3: nat, c: Client)
    requires now <= t1 <= t2 <= t3
    ensures Count(Recorded(db, ttl, client, t1, t2, t3), ttl, c, t3) <= Count(db, ttl, c, now) + (if c == client then 1 else 0)
  {
    CleanupIsInvisible(db, ttl, t1, c, t2);
    CleanupIsInvisible(db, ttl, t1, c, t3);
    LaterCountsLess(db, ttl, c, now, t2);
    LaterCountsLess(db, ttl, c, now, t3);
  }

  lemma {:induction false} BoundedRun(b: Bounds, s: State, run: seq<Action>, s': State)
    requires Bounded(b, s) && Reaches(b, s, run, s')
    ensures Bounded(b, s')
    decreases |run|
  {
    if run != [] {
      BoundedStep(b, s, run[0]);
      BoundedRun(b, Apply(b, s, run[0]), run[1..], s');
    }
  }

  /** In every interleaving, failures plus attempts in flight stay within 9 + K. */
  lemma {:induction false} CountStaysBounded(b: Bounds, s: State, c: Client)
    requires Reachable(b, s)
    ensures Failures(b, s, c) + InFlight(s, c) <= LIMIT - 1 + b.concurrent
  {
    var run :| Reaches(b, Initial, run, s);
    BoundedRun(b, Initial, run, s);
  }

  /** The count read by this step is the largest that the byte can hold. */
  ghost predicate Overflows(b: Bounds, s: State, a: Action) {
    && a.Record? && Enabled(b, s, a)
    && Count(CleanedUp(s.db, b.ttl, a.t1), b.ttl, a.client, a.t2) + 1 >= U8
  }

  lemma {:induction false} NoOverflow(b: Bounds, s: State, a: Action)
    requires Reachable(b, s) && b.concurrent <= 246
    ensures !Overflows(b, s, a)
  {
    if a.Record? && Enabled(b, s, a) {
      CountStaysBounded(b, s, a.client);
      CleanupIsInvisible(s.db, b.ttl, a.t1, a.client, a.t2);
      LaterCountsLess(s.db, b.ttl, a.client, s.now, a.t2);
    }
  }

  // With more attempts in flight the byte does overflow.

  lemma {:induction false} ReachableStep(b: Bounds, s: State, a: Action)
    requires Reachable(b, s) && Enabled(b, s, a)
    ensures Reachable(b, Apply(b, s, a))
  {
    var run :| Reaches(b, Initial, run, s);
    ReachesSnoc(b, Initial, run, s, a);
  }

  lemma {:induction false} ReachesSnoc(b: Bounds, s: State, run: seq<Action>, s': State, a: Action)
    requires Reaches(b, s, run, s') && Enabled(b, s', a)
    ensures Reaches(b, s, run + [a], Apply(b, s', a))
    decreases |run|
  {
    if run == [] {
      assert [] + [a] == [a] && [a][1..] == [];
      assert Reaches(b, Apply(b, s, a), [], Apply(b, s, a));
    } else {
      ReachesSnoc(b, Apply(b, s, run[0]), run[1..], s', a);
      assert (run + [a])[1..] == run[1..] + [a];
    }
  }

  /** At time zero, client 0 has `n` failures on record and `f` attempts in flight. */
  ghost predicate At(b: Bounds, s: State, n: nat, f: nat) {
    Reachable(b, s) && s.now == 0 && Failures(b, s, 0) == n && InFlight(s, 0) == f
  }

  lemma {:induction false} CheckedAt(b: Bounds, s: State, n: nat, f: nat) returns (s': State)
    requires At(b, s, n, f) && n < LIMIT && f < b.concurrent
    ensures At(b, s', n, f + 1)
  {
    ReachableStep(b, s, Check(0));
    s' := Apply(b, s, Check(0));
  }

  lemma {:induction false} RecordedAt(b: Bounds, s: State, n: nat, f: nat) returns (s': State)
    requires At(b, s, n, f) && n + 1 < U8 && f > 0 && b.ttl > 0
    ensures At(b, s', n + 1, f - 1)
  {
    var a := Record(0, 0, 0, 0);
    CleanupIsInvisible(s.db, b.ttl, 0, 0 as Client, 0);
    ReachableStep(b, s, a);
    s' := Apply(b, s, a);
  }

  /** One failure after another, up to nine. */
  lemma {:induction false} FailuresAt(b: Bounds, n: nat) returns (s: State)
    requires n < LIMIT && b.ttl > 0 && b.concurrent > 0
    ensures At(b, s, n, 0)
  {
    if n == 0 {
      s := Initial;
      assert Reaches(b, Initial, [], Initial);
    } else {
      s := FailuresAt(b, n - 1);
      s := CheckedAt(b, s, n - 1, 0);
      s := RecordedAt(b, s, n - 1, 1);
    }
  }

  lemma {:induction false} ChecksAt(b: Bounds, f: nat) returns (s: State)
    requires f <= b.concurrent && b.ttl > 0 && b.concurrent > 0
    ensures At(b, s, LIMIT - 1, f)
  {
    if f == 0 {
      s := FailuresAt(b, LIMIT - 1);
    } else {
      s := ChecksAt(b, f - 1);
      s := CheckedAt(b, s, LIMIT - 1, f - 1);
    }
  }

  lemma {:induction false} RecordsAt(b: Bounds, f: nat, m: nat) returns (s: State)
    requires m <= f <= b.concurrent && b.ttl > 0 && b.concurrent > 0 && LIMIT - 1 + m < U8
    ensures At(b, s, LIMIT - 1 + m, f - m)
    decreases m
  {
    if m == 0 {
      s := ChecksAt(b, f);
    } else {
      s := RecordsAt(b, f, m - 1);
      s := RecordedAt(b, s, LIMIT - 1 + m - 1, f - m + 1);
    }
  }

  /** The byte can overflow exactly when a client can have 247 attempts or more in flight. */
  lemma {:induction false} OverflowIff(b: Bounds)
    requires b.ttl > 0
    ensures (exists s, a :: Reachable(b, s) && Overflows(b, s, a)) <==> b.concurrent >= 247
  {
    if b.concurrent >= 247 {
      var s := RecordsAt(b, 247, 246);
      CleanupIsInvisible(s.db, b.ttl, 0, 0 as Client, 0);
      assert Reachable(b, s) && Overflows(b, s, Record(0, 0, 0, 0));
    } else {
      forall s, a | Reachable(b, s) ensures !Overflows(b, s, a) {
        NoOverflow(b, s, a);
      }
    }
  }

  // ---------------------------------------------------------------------------------------------
  // Lock-out

  predicate Records(a: Action, c: Client) {
    a.Record? && a.client == c
  }

  ghost predicate NoRecordOf(run: seq<Action>, c: Client) {
    forall i :: 0 <= i < |run| ==> !Records(run[i], c)
  }

  /** The count of `c` is `n` up to the time `end`, and zero from then on. */
  ghost predicate CountsUntil(db: Db, ttl: nat, c: Client, from: nat, n: nat, end: nat) {
    forall now :: now >= from ==> Count(db, ttl, c, now) == if now < end then n else 0
  }

  lemma {:induction false} CountsUntilStep(b: Bounds, s: State, a: Action, c: Client, n: nat, end: nat)
    requires CountsUntil(s.db, b.ttl, c, s.now, n, end) && Enabled(b, s, a) && !Records(a, c)
    ensures CountsUntil(Apply(b, s, a).db, b.ttl, c, Apply(b, s, a).now, n, end) && s.now <= Apply(b, s, a).now
  {
    if a.Record? { RecordCountsUp(s.db, b.ttl, a.client, a.t1, a.t2, a.t3); }
  }

  lemma {:induction false} CountsUntilRun(b: Bounds, s: State, run: seq<Action>, s': State, c: Client, n: nat, end: nat)
    requires CountsUntil(s.db, b.ttl, c, s.now, n, end) && Reaches(b, s, run, s') && NoRecordOf(run, c)
    ensures CountsUntil(s'.db, b.ttl, c, s'.now, n, end)
    decreases |run|
  {
    if run != [] {
      CountsUntilStep(b, s, run[0], c, n, end);
      CountsUntilRun(b, Apply(b, s, run[0]), run[1..], s', c, n, end);
    }
  }

  /** For every run and its last recorded failure of a client: that failure alone decides the count, for one TTL. */
  lemma {:induction false} LastRecordDecides(b: Bounds, s: State, c: Client, t1: nat, t2: nat, t3: nat, run: seq<Action>, s': State)
    requires Enabled(b, s, Record(c, t1, t2, t3)) && Reaches(b, Apply(b, s, Record(c, t1, t2, t3)), run, s')
    requires NoRecordOf(run, c)
    ensures Failures(b, s', c) == if s'.now < t3 + b.ttl then (Count(s.db, b.ttl, c, t2) + 1) % 256 else 0
  {
    var s1 := Apply(b, s, Record(c, t1, t2, t3));
    RecordCountsUp(s.db, b.ttl, c, t1, t2, t3);
    CountsUntilRun(b, s1, run, s', c, (Count(s.db, b.ttl, c, t2) + 1) % 256, t3 + b.ttl);
  }

  /** A client none of whose failures has been recorded is never rejected. */
  lemma {:induction false} NoRecordNoRejection(b: Bounds, run: seq<Action>, s: State, c: Client)
    requires Reaches(b, Initial, run, s) && NoRecordOf(run, c)
    ensures Failures(b, s, c) == 0 && !Rejects(b, s, c)
  {
    CountsUntilRun(b, Initial, run, s, c, 0, 0);
  }

  /** Nothing of the client is in flight, and its count is at the limit or above until `end`. */
  ghost predicate LockedOut(b: Bounds, s: State, c: Client, n: nat, end: nat) {
    n >= 10 && InFlight(s, c) == 0 && CountsUntil(s.db, b.ttl, c, s.now, n, end)
  }

  lemma {:induction false} LockedOutStep(b: Bounds, s: State, a: Action, c: Client, n: nat, end: nat)
    requires LockedOut(b, s, c, n, end) && Enabled(b, s, a) && s.now < end
    ensures !Records(a, c) && LockedOut(b, Apply(b, s, a), c, n, end)
  {
    CountsUntilStep(b, s, a, c, n, end);
  }

  lemma {:induction false} LockedOutRun(b: Bounds, s: State, run: seq<Action>, s': State, c: Client, n: nat, end: nat)
    requires LockedOut(b, s, c, n, end) && Reaches(b, s, run, s') && s'.now < end
    ensures NoRecordOf(run, c) && LockedOut(b, s', c, n, end)
    decreases |run|
  {
    if run != [] {
      TimeGoesOn(b, s, run, s');
      LockedOutStep(b, s, run[0], c, n, end);
      LockedOutRun(b, Apply(b, s, run[0]), run[1..], s', c, n, end);
    }
  }

  /**
  Once ten failures or more are on record and nothing is in flight, every check is rejected until one
  TTL after the time of the last failure, whatever the other clients do, and no failure is recorded in
  that time; from then on checks are accepted, until a failure is recorded again.
  */
  lemma {:induction false} LockedOutForOneTtl(b: Bounds, s: State, c: Client, t1: nat, t2: nat, t3: nat, run: seq<Action>, s': State)
    requires Enabled(b, s, Record(c, t1, t2, t3)) && Reaches(b, Apply(b, s, Record(c, t1, t2, t3)), run, s')
    requires InFlight(Apply(b, s, Record(c, t1, t2, t3)), c) == 0 && (Count(s.db, b.ttl, c, t2) + 1) % 256 >= 10
    ensures s'.now < t3 + b.ttl ==> Rejects(b, s', c) && NoRecordOf(run, c)
    ensures s'.now >= t3 + b.ttl && NoRecordOf(run, c) ==> !Rejects(b, s', c)
  {
    var n := (Count(s.db, b.ttl, c, t2) + 1) % 256;
    RecordCountsUp(s.db, b.ttl, c, t1, t2, t3);
    if s'.now < t3 + b.ttl {
      LockedOutRun(b, Apply(b, s, Record(c, t1, t2, t3)), run, s', c, n, t3 + b.ttl);
    } else if NoRecordOf(run, c) {
      LastRecordDecides(b, s, c, t1, t2, t3, run, s');
    }
  }

  lemma {:induction false} TimeGoesOn(b: Bounds, s: State, run: seq<Action>, s': State)
    requires Reaches(b, s, run, s')
    ensures s.now <= s'.now
    decreases |run|
  {
    if run != [] { TimeGoesOn(b, Apply(b, s, run[0]), run[1..], s'); }
  }
}
