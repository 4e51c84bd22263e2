/**
The pending-connection guard and the hand-back of idle connections that waits on its token.  Each
request creates a guard, may load the shared cancellation token, drops the guard, and (if it loaded a
token) waits until the pool takes its connection or the token is cancelled.  The steps below are
the atomic operations of the program; any interleaving of them is a run.
*/
module PendingGuards {
  import opened Wrappers

  type TaskId = nat
  /** Tokens are numbered in the order in which they are installed. */
  type Token = nat

  const USIZE_MAX: nat := 0xFFFF_FFFF_FFFF_FFFF

  datatype Phase =
    | Holding                                      // the guard is alive
    | Loaded(token: Token)                         // the guard is alive, the token has been loaded
    | LastOut(wait: Option<Token>)                 // the subtraction saw at most one, swap to come
    | Swapped(taken: Token, wait: Option<Token>)     // the token is swapped out, cancel to come
    | Waiting(token: Token)                        // blocked on a full pool, or on the token
    | Done

  datatype State = State(counter: nat, current: Token, cancelled: set<Token>, tasks: map<TaskId, Phase>)

  const Initial := State(0, 0, {}, map[])

  datatype Action =
    | Create(id: TaskId)      // `PendingConnectionGuard::new`
    | Load(id: TaskId)        // `cancel_token().load()`
    | Subtract(id: TaskId)    // `fetch_sub` in `drop`
    | Swap(id: TaskId)        // `swap` in `drop`
    | Cancel(id: TaskId)      // `cancel` in `drop`
    | Wake(id: TaskId)        // the wait ends because the token is cancelled
    | Leave(id: TaskId)       // the wait ends otherwise: the pool took the connection, or it is closed

  predicate Alive(p: Phase) {
    p.Holding? || p.Loaded?
  }

  predicate Enabled(s: State, a: Action) {
    match a
    case Create(id) => id !in s.tasks
    case Load(id) => id in s.tasks && s.tasks[id].Holding?
    case Subtract(id) => id in s.tasks && Alive(s.tasks[id])
    case Swap(id) => id in s.tasks && s.tasks[id].LastOut?
    case Cancel(id) => id in s.tasks && s.tasks[id].Swapped?
    case Wake(id) => id in s.tasks && s.tasks[id].Waiting? && s.tasks[id].token in s.cancelled
    case Leave(id) => id in s.tasks && s.tasks[id].Waiting?
  }

  /** The token a request in this phase waits for, or will wait for. */
  function WaitToken(p: Phase): Option<Token> {
    match p
    case Loaded(t) => Some(t)
    case LastOut(w) => w
    case Swapped(_, w) => w
    case Waiting(t) => Some(t)
    case _ => None
  }

  /** Where a request goes when its guard is completely dropped. */
  function AfterDrop(wait: Option<Token>): Phase {
    if wait.Some? then Waiting(wait.value) else Done
  }

  /** `usize` subtraction wraps. */
  function Decrement(n: nat): nat {
    if n == 0 then USIZE_MAX else n - 1
  }

  function Apply(s: State, a: Action): State
    requires Enabled(s, a)
  {
    match a
    case Create(id) => s.(counter := s.counter + 1, tasks := s.tasks[id := Holding])
    case Load(id) => s.(tasks := s.tasks[id := Loaded(s.current)])
    case Subtract(id) =>
      var wait := WaitToken(s.tasks[id]);
      s.(counter := Decrement(s.counter),
         tasks := s.tasks[id := if s.counter <= 1 then LastOut(wait) else AfterDrop(wait)])
    case Swap(id) =>
      s.(current := s.current + 1, tasks := s.tasks[id := Swapped(s.current, s.tasks[id].wait)])
    case Cancel(id) =>
      s.(cancelled := s.cancelled + {s.tasks[id].taken}, tasks := s.tasks[id := AfterDrop(s.tasks[id].wait)])
    case Wake(id) => s.(tasks := s.tasks[id := Done])
    case Leave(id) => s.(tasks := s.tasks[id := Done])
  }

  /** The shared objects, with the atomic operations as the requests perform them. */
  class Pool {
    var counter: nat
    var current: Token
    var cancelled: set<Token>
    var tasks: map<TaskId, Phase>

    ghost function View(): State
      reads this
    {
      State(counter, current, cancelled, tasks)
    }

    constructor ()
      ensures View() == Initial
    {
      counter, current, cancelled, tasks := 0, 0, {}, map[];
    }

    method NewGuard(id: TaskId)
      requires Enabled(View(), Create(id)) && Safe(View())
      modifies this
      ensures View() == Apply(old(View()), Create(id)) && Safe(View())
    {
      SafeStep(View(), Create(id));
      counter := counter + 1;
      tasks := tasks[id := Holding];
    }

    method LoadToken(id: TaskId) returns (t: Token)
      requires Enabled(View(), Load(id)) && Safe(View())
      modifies this
      ensures View() == Apply(old(View()), Load(id)) && Safe(View())
      ensures t == old(current) && t !in cancelled
    {
      SafeStep(View(), Load(id));
      t := current;
      tasks := tasks[id := Loaded(t)];
    }

    /** `drop`, up to the decision whether this was the last guard. */
    method FetchSub(id: TaskId) returns (previous: nat)
      requires Enabled(View(), Subtract(id)) && Safe(View())
      modifies this
      ensures View() == Apply(old(View()), Subtract(id)) && Safe(View())
      ensures previous == |Live(old(View()))| > 0
      ensures tasks[id].LastOut? <==> Live(View()) == {}
    {
      SafeStep(View(), Subtract(id));
      LastOutIff(View(), id);
      LiveHas(View(), id);
      previous := counter;
      counter := counter - 1;
      var wait := WaitToken(tasks[id]);
      tasks := tasks[id := if previous <= 1 then LastOut(wait) else AfterDrop(wait)];
    }

    method SwapToken(id: TaskId) returns (taken: Token)
      requires Enabled(View(), Swap(id)) && Safe(View())
      modifies this
      ensures View() == Apply(old(View()), Swap(id)) && Safe(View())
      ensures taken == old(current)
    {
      SafeStep(View(), Swap(id));
      taken := current;
      current := current + 1;
      tasks := tasks[id := Swapped(taken, tasks[id].wait)];
    }

    method CancelToken(id: TaskId)
      requires Enabled(View(), Cancel(id)) && Safe(View())
      modifies this
      ensures View() == Apply(old(View()), Cancel(id)) && Safe(View())
    {
      SafeStep(View(), Cancel(id));
      cancelled := cancelled + {tasks[id].taken};
      tasks := tasks[id := AfterDrop(tasks[id].wait)];
    }
  }

  // ---------------------------------------------------------------------------------------------
  // What every step keeps

  ghost function Live(s: State): set<TaskId> {
    set id | id in s.tasks && Alive(s.tasks[id])
  }

  /** Some drop has seen the last guard go and has not swapped yet. */
  ghost predicate SwapPending(s: State) {
    exists id :: id in s.tasks && s.tasks[id].LastOut?
  }

  /** Some drop has swapped out `t` and has not cancelled it yet. */
  ghost predicate CancelPending(s: State, t: Token) {
    exists id :: id in s.tasks && s.tasks[id].Swapped? && s.tasks[id].taken == t
  }

  /** `t` is cancelled, or steps already begun or guards still alive lead to its cancellation. */
  ghost predicate WillCancel(s: State, t: Token) {
    || t in s.cancelled
    || CancelPending(s, t)
    || (t == s.current && (Live(s) != {} || SwapPending(s)))
  }

  /** The counter counts the guards that are alive. */
  ghost predicate Counted(s: State) {
    s.counter == |Live(s)|
  }

  /** Tokens are cancelled after they are swapped out, each by the one request that holds it. */
  ghost predicate Ordered(s: State) {
    && (forall t :: t in s.cancelled ==> t < s.current)
    && (forall id :: id in s.tasks && s.tasks[id].Swapped? ==>
                       s.tasks[id].taken < s.current && s.tasks[id].taken !in s.cancelled)
    && (forall i, j :: i in s.tasks && j in s.tasks && s.tasks[i].Swapped? && s.tasks[j].Swapped? && i != j ==>
                         s.tasks[i].taken != s.tasks[j].taken)
  }

  /** Every token that some request waits for, or will wait for, is on its way to cancellation. */
  ghost predicate Promised(s: State) {
    forall id :: id in s.tasks && WaitToken(s.tasks[id]).Some? ==> WillCancel(s, WaitToken(s.tasks[id]).value)
  }

  ghost predicate Safe(s: State) {
    Counted(s) && Ordered(s) && Promised(s)
  }

  lemma LiveHas(s: State, id: TaskId)
    requires id in s.tasks && Alive(s.tasks[id])
    ensures |Live(s)| > 0
  {
    assert id in Live(s);
  }

  lemma LiveAfter(s: State, a: Action)
    requires Enabled(s, a)
    ensures Live(Apply(s, a)) == (match a
                                  case Create(id) => Live(s) + {id}
                                  case Subtract(id) => Live(s) - {id}
                                  case _ => Live(s))
  {
  }

  lemma CountedStep(s: State, a: Action)
    requires Counted(s) && Enabled(s, a)
    ensures Counted(Apply(s, a))
  {
    LiveAfter(s, a);
    if a.Subtract? { LiveHas(s, a.id); }
  }

  lemma OrderedStep(s: State, a: Action)
    requires Ordered(s) && Enabled(s, a)
    ensures Ordered(Apply(s, a))
  {
  }

  lemma PromisedStep(s: State, a: Action)
    requires Counted(s) && Promised(s) && Enabled(s, a)
    ensures Promised(Apply(s, a))
  {
    var s' := Apply(s, a);
    forall id | id in s'.tasks && WaitToken(s'.tasks[id]).Some?
      ensures WillCancel(s', WaitToken(s'.tasks[id]).value)
    {
      if a == Load(id) {
        assert id in Live(s');
      } else {
        WillCancelStep(s, a, WaitToken(s.tasks[id]).value);
      }
    }
  }

  lemma SafeStep(s: State, a: Action)
    requires Safe(s) && Enabled(s, a)
    ensures Safe(Apply(s, a))
  {
    CountedStep(s, a);
    OrderedStep(s, a);
    PromisedStep(s, a);
  }

  /** No step breaks the promise of a cancellation. */
  lemma WillCancelStep(s: State, a: Action, t: Token)
    requires Counted(s) && Enabled(s, a) && WillCancel(s, t)
    ensures WillCancel(Apply(s, a), t)
  {
    var s' := Apply(s, a);
    if t in s.cancelled {
    } else if CancelPending(s, t) {
      var other :| other in s.tasks && s.tasks[other].Swapped? && s.tasks[other].taken == t;
      assert a == Cancel(other) || s'.tasks[other] == s.tasks[other];
    } else if a.Swap? {
      assert s'.tasks[a.id] == Swapped(t, s.tasks[a.id].wait);
    } else if SwapPending(s) {
      var other :| other in s.tasks && s.tasks[other].LastOut?;
      assert s'.tasks[other] == s.tasks[other];
    } else {
      LiveAfter(s, a);
      if a.Subtract? && s.counter <= 1 {
        assert s'.tasks[a.id].LastOut?;
      } else if a.Subtract? {
        assert |Live(s')| >= |Live(s)| - 1;
      }
    }
  }

  // ---------------------------------------------------------------------------------------------
  // Whole runs

  /** `run` is a run from `s` that ends in `s'`. */
  ghost predicate Reaches(s: State, run: seq<Action>, s': State)
    decreases |run|
  {
    if run == [] then s == s'
    else Enabled(s, run[0]) && Reaches(Apply(s, run[0]), run[1..], s')
  }

  lemma {:induction false} SafeRun(s: State, run: seq<Action>, s': State)
    requires Safe(s) && Reaches(s, run, s')
    ensures Safe(s')
    decreases |run|
  {
    if run != [] {
      SafeStep(s, run[0]);
      SafeRun(Apply(s, run[0]), run[1..], s');
    }
  }

  /** In every state of every run, the counter is the number of live guards. */
  lemma {:induction false} CounterIsLiveGuards(run: seq<Action>, s: State)
    requires Reaches(Initial, run, s)
    ensures s.counter == |Live(s)|
  {
    assert Live(Initial) == {};
    SafeRun(Initial, run, s);
  }

  /** No guard is alive and no drop is half done. */
  ghost predicate Quiet(s: State) {
    forall id :: id in s.tasks ==> s.tasks[id].Waiting? || s.tasks[id].Done?
  }

  /** Once no guard is alive and no drop is half done, nobody waits for a token that is not cancelled. */
  lemma {:induction false} QuietWaitersAreCancelled(run: seq<Action>, s: State, id: TaskId)
    requires Reaches(Initial, run, s) && Quiet(s)
    requires id in s.tasks && s.tasks[id].Waiting?
    ensures s.tasks[id].token in s.cancelled && Enabled(s, Wake(id))
  {
    assert Live(Initial) == {};
    SafeRun(Initial, run, s);
    assert WillCancel(s, s.tasks[id].token);
    assert Live(s) == {};
  }

  /** A step that neither starts a new request nor relies on room in the pool. */
  predicate Internal(a: Action) {
    !a.Create? && !a.Leave?
  }

  /** The program never gets stuck: with the pool full for ever, some request can always go on. */
  lemma {:induction false} NeverStuck(run: seq<Action>, s: State)
    requires Reaches(Initial, run, s)
    requires exists id :: id in s.tasks && !s.tasks[id].Done?
    ensures exists a :: Enabled(s, a) && Internal(a)
  {
    if Quiet(s) {
      var id :| id in s.tasks && !s.tasks[id].Done?;
      QuietWaitersAreCancelled(run, s, id);
      assert Internal(Wake(id));
    } else {
      var id :| id in s.tasks && !(s.tasks[id].Waiting? || s.tasks[id].Done?);
      var a := if s.tasks[id].LastOut? then Swap(id) else if s.tasks[id].Swapped? then Cancel(id) else Subtract(id);
      assert Enabled(s, a) && Internal(a);
    }
  }

  /** How many steps a request may still take. */
  function StepsLeft(p: Phase): nat {
    match p
    case Holding => 5
    case Loaded(_) => 4
    case LastOut(_) => 3
    case Swapped(_, _) => 2
    case Waiting(_) => 1
    case Done => 0
  }

  ghost function WithAtLeast(s: State, n: nat): set<TaskId> {
    set id | id in s.tasks && StepsLeft(s.tasks[id]) >= n
  }

  /** The sum of `StepsLeft` over all requests. */
  ghost function Work(s: State): nat {
    |WithAtLeast(s, 1)| + |WithAtLeast(s, 2)| + |WithAtLeast(s, 3)| + |WithAtLeast(s, 4)| + |WithAtLeast(s, 5)|
  }

  lemma WithAtLeastStep(s: State, a: Action, n: nat)
    requires Enabled(s, a) && !a.Create?
    ensures WithAtLeast(Apply(s, a), n) <= WithAtLeast(s, n)
    ensures n == StepsLeft(s.tasks[a.id]) ==> WithAtLeast(Apply(s, a), n) <= WithAtLeast(s, n) - {a.id}
    ensures |WithAtLeast(Apply(s, a), n)| <= |WithAtLeast(s, n)|
    ensures n == StepsLeft(s.tasks[a.id]) ==> |WithAtLeast(Apply(s, a), n)| < |WithAtLeast(s, n)|
  {
    var x, y := WithAtLeast(Apply(s, a), n), WithAtLeast(s, n);
    SubsetSize(x, y);
    if n == StepsLeft(s.tasks[a.id]) {
      assert a.id in y;
      SubsetSize(x, y - {a.id});
    }
  }

  lemma {:induction false} SubsetSize(x: set<TaskId>, y: set<TaskId>)
    requires x <= y
    ensures |x| <= |y|
  {
    assert y == x + (y - x);
  }

  lemma {:induction false} WorkDecreases(s: State, a: Action)
    requires Enabled(s, a) && !a.Create?
    ensures Work(Apply(s, a)) < Work(s)
  {
    WithAtLeastStep(s, a, 1);
    WithAtLeastStep(s, a, 2);
    WithAtLeastStep(s, a, 3);
    WithAtLeastStep(s, a, 4);
    WithAtLeastStep(s, a, 5);
  }

  /**
  No hand-back waits for ever.  From any reachable state, a run in which no new request starts is at
  most `Work(s)` steps long, and one that cannot be continued (not even with a full pool) has every
  request done.
  */
  lemma {:induction false} EveryTaskFinishes(before: seq<Action>, s: State, run: seq<Action>, s': State)
    requires Reaches(Initial, before, s) && Reaches(s, run, s')
    requires forall a :: a in run ==> !a.Create?
    ensures |run| <= Work(s)
    ensures (forall a :: Enabled(s', a) ==> !Internal(a)) ==> forall id :: id in s'.tasks ==> s'.tasks[id].Done?
  {
    RunIsBounded(s, run, s');
    ReachesAppend(Initial, before, s, run, s');
    if (forall a :: Enabled(s', a) ==> !Internal(a)) && exists id :: id in s'.tasks && !s'.tasks[id].Done? {
      NeverStuck(before + run, s');
    }
  }

  lemma {:induction false} RunIsBounded(s: State, run: seq<Action>, s': State)
    requires Reaches(s, run, s')
    requires forall a :: a in run ==> !a.Create?
    ensures |run| <= Work(s)
    decreases |run|
  {
    if run != [] {
      assert run[0] in run;
      WorkDecreases(s, run[0]);
      RunIsBounded(Apply(s, run[0]), run[1..], s');
    }
  }

  lemma {:induction false} ReachesAppend(s: State, run: seq<Action>, mid: State, more: seq<Action>, s': State)
    requires Reaches(s, run, mid) && Reaches(mid, more, s')
    ensures Reaches(s, run + more, s')
    decreases |run|
  {
    if run == [] {
      assert run + more == more;
    } else {
      ReachesAppend(Apply(s, run[0]), run[1..], mid, more, s');
      assert (run + more)[1..] == run[1..] + more;
    }
  }

  // ---------------------------------------------------------------------------------------------
  // What is cancelled, and when

  /** A drop goes on to swap and cancel exactly when it leaves no guard alive; otherwise the request waits, or is done. */
  lemma {:induction false} LastOutIff(s: State, id: TaskId)
    requires Safe(s) && Enabled(s, Subtract(id))
    ensures var s' := Apply(s, Subtract(id)); var p := s'.tasks[id];
            && (p.LastOut? <==> Live(s') == {})
            && (Live(s') != {} ==> p == match s.tasks[id] case Loaded(t) => Waiting(t) case _ => Done)
            && (Live(s') == {} ==> p == LastOut(match s.tasks[id] case Loaded(t) => Some(t) case _ => None))
  {
    LiveAfter(s, Subtract(id));
    LiveHas(s, id);
    assert id in Live(s);
    assert |Live(s) - {id}| == |Live(s)| - 1;
  }

  /** The request has loaded `t` and waits for it as soon as its guard is dropped, or is waiting. */
  ghost predicate HeadsFor(p: Phase, t: Token) {
    p == Loaded(t) || p == LastOut(Some(t)) || (p.Swapped? && p.wait == Some(t)) || p == Waiting(t)
  }

  /** A request that has loaded a token waits for that token and no other, until it is woken or leaves. */
  lemma {:induction false} LoadedKeepsToken(s: State, run: seq<Action>, s': State, id: TaskId, t: Token)
    requires Reaches(s, run, s') && id in s.tasks && HeadsFor(s.tasks[id], t)
    requires Wake(id) !in run && Leave(id) !in run
    ensures id in s'.tasks && HeadsFor(s'.tasks[id], t)
    decreases |run|
  {
    if run != [] {
      assert run == [run[0]] + run[1..];
      LoadedKeepsToken(Apply(s, run[0]), run[1..], s', id, t);
    }
  }

  /** How many drops of a run have left no guard alive. */
  ghost function Emptyings(s: State, run: seq<Action>, s': State): nat
    requires Reaches(s, run, s')
    decreases |run|
  {
    if run == [] then 0
    else
      var s1 := Apply(s, run[0]);
      (if run[0].Subtract? && Live(s1) == {} then 1 else 0) + Emptyings(s1, run[1..], s')
  }

  ghost function LastOuts(s: State): set<TaskId> {
    set id | id in s.tasks && s.tasks[id].LastOut?
  }

  ghost function SwappedOut(s: State): set<TaskId> {
    set id | id in s.tasks && s.tasks[id].Swapped?
  }

  lemma LastOutsAfter(s: State, a: Action)
    requires Enabled(s, a)
    ensures LastOuts(Apply(s, a)) == (match a
                                      case Subtract(id) => if Apply(s, a).tasks[id].LastOut? then LastOuts(s) + {id} else LastOuts(s)
                                      case Swap(id) => LastOuts(s) - {id}
                                      case _ => LastOuts(s))
  {
  }

  lemma SwappedOutAfter(s: State, a: Action)
    requires Enabled(s, a)
    ensures SwappedOut(Apply(s, a)) == (match a
                                        case Swap(id) => SwappedOut(s) + {id}
                                        case Cancel(id) => SwappedOut(s) - {id}
                                        case _ => SwappedOut(s))
  {
  }

  lemma {:induction false} EmptyingStep(s: State, a: Action)
    requires Safe(s) && Enabled(s, a)
    ensures var s' := Apply(s, a);
            s'.current + |LastOuts(s')| == s.current + |LastOuts(s)| + (if a.Subtract? && Live(s') == {} then 1 else 0)
  {
    LastOutsAfter(s, a);
    match a
    case Subtract(id) =>
      LastOutIff(s, id);
      assert id !in LastOuts(s);
    case Swap(id) => assert id in LastOuts(s);
    case _ =>
  }

  lemma {:induction false} CancellingStep(s: State, a: Action)
    requires Safe(s) && Enabled(s, a) && s.current == |s.cancelled| + |SwappedOut(s)|
    ensures var s' := Apply(s, a); s'.current == |s'.cancelled| + |SwappedOut(s')|
  {
    SwappedOutAfter(s, a);
    match a
    case Swap(id) => assert id !in SwappedOut(s);
    case Cancel(id) =>
      assert id in SwappedOut(s);
      assert s.tasks[id].taken !in s.cancelled;
    case _ =>
  }

  lemma {:induction false} EmptyingRun(s: State, run: seq<Action>, s': State)
    requires Safe(s) && Reaches(s, run, s') && s.current == |s.cancelled| + |SwappedOut(s)|
    ensures s'.current + |LastOuts(s')| == s.current + |LastOuts(s)| + Emptyings(s, run, s')
    ensures s'.current == |s'.cancelled| + |SwappedOut(s')|
    decreases |run|
  {
    if run != [] {
      SafeStep(s, run[0]);
      EmptyingStep(s, run[0]);
      CancellingStep(s, run[0]);
      EmptyingRun(Apply(s, run[0]), run[1..], s');
    }
  }

  /**
  In every run each drop that leaves no guard alive leads to one cancellation and nothing else does:
  those drops are as many as the tokens cancelled and the cancellations still to come.
  */
  lemma {:induction false} OneCancellationEach(run: seq<Action>, s: State)
    requires Reaches(Initial, run, s)
    ensures Emptyings(Initial, run, s) == |s.cancelled| + |SwappedOut(s)| + |LastOuts(s)|
  {
    assert Live(Initial) == {} && LastOuts(Initial) == {} && SwappedOut(Initial) == {};
    EmptyingRun(Initial, run, s);
  }

  /** A run in every state of which some guard is alive. */
  ghost predicate ReachesAlive(s: State, run: seq<Action>, s': State)
    decreases |run|
  {
    && Live(s) != {}
    && if run == [] then s == s' else Enabled(s, run[0]) && ReachesAlive(Apply(s, run[0]), run[1..], s')
  }

  /** While guards are alive and no drop is about to swap, the installed token stays. */
  lemma {:induction false} TokenStays(s: State, run: seq<Action>, s': State)
    requires Safe(s) && !SwapPending(s) && ReachesAlive(s, run, s')
    ensures Safe(s') && !SwapPending(s') && s'.current == s.current && s'.current !in s'.cancelled
    decreases |run|
  {
    if run != [] {
      var s1 := Apply(s, run[0]);
      SafeStep(s, run[0]);
      if run[0].Subtract? { LastOutIff(s, run[0].id); }
      assert forall id :: id in s1.tasks && s1.tasks[id].LastOut? ==> s.tasks[id].LastOut?;
      TokenStays(s1, run[1..], s');
    }
  }

  /**
  From any reachable state with guards alive: the installed token can be cancelled while guards stay
  alive throughout exactly when some drop that found no other guard has not swapped yet.
  */
  lemma {:induction false} CancelledWhileAliveIff(before: seq<Action>, s: State)
    requires Reaches(Initial, before, s) && Live(s) != {}
    ensures (exists run, s' :: ReachesAlive(s, run, s') && s.current in s'.cancelled) <==> SwapPending(s)
  {
    assert Live(Initial) == {};
    SafeRun(Initial, before, s);
    if SwapPending(s) {
      var id :| id in s.tasks && s.tasks[id].LastOut?;
      SwapAndCancel(s, id);
    }
    forall run, s' | ReachesAlive(s, run, s') && s.current in s'.cancelled ensures SwapPending(s) {
      if !SwapPending(s) { TokenStays(s, run, s'); }
    }
  }

  lemma {:induction false} SwapAndCancel(s: State, id: TaskId)
    requires Live(s) != {} && id in s.tasks && s.tasks[id].LastOut?
    ensures exists run, s' :: ReachesAlive(s, run, s') && s.current in s'.cancelled
  {
    var s1 := Apply(s, Swap(id));
    var s2 := Apply(s1, Cancel(id));
    LiveAfter(s, Swap(id));
    LiveAfter(s1, Cancel(id));
    assert ReachesAlive(s2, [], s2);
    assert [Cancel(id)][1..] == [];
    assert ReachesAlive(s1, [Cancel(id)], s2);
    assert [Swap(id), Cancel(id)][1..] == [Cancel(id)];
    assert ReachesAlive(s, [Swap(id), Cancel(id)], s2);
  }

  /** A request that has loaded the token is then not woken either, for as long as guards stay alive. */
  lemma {:induction false} NotWokenWhileAlive(before: seq<Action>, s: State, id: TaskId, run: seq<Action>, s': State)
    requires Reaches(Initial, before, s) && !SwapPending(s) && ReachesAlive(s, run, s')
    requires id in s.tasks && WaitToken(s.tasks[id]) == Some(s.current)
    ensures Wake(id) !in run && !Enabled(s', Wake(id))
  {
    assert Live(Initial) == {};
    SafeRun(Initial, before, s);
    NotWokenRun(s, id, run, s');
  }

  /** The request waits for this token, will wait for it, or does not wait any more. */
  ghost predicate WaitsForAtMost(s: State, id: TaskId, t: Token) {
    id in s.tasks && (s.tasks[id].Done? || WaitToken(s.tasks[id]) == Some(t))
  }

  lemma {:induction false} NotWokenRun(s: State, id: TaskId, run: seq<Action>, s': State)
    requires Safe(s) && !SwapPending(s) && ReachesAlive(s, run, s') && WaitsForAtMost(s, id, s.current)
    ensures Wake(id) !in run && !Enabled(s', Wake(id))
    decreases |run|
  {
    if run != [] {
      var s1 := Apply(s, run[0]);
      TokenStays(s, [], s);
      assert run[0] != Wake(id);
      SafeStep(s, run[0]);
      assert ReachesAlive(s1, [], s1) && [run[0]][1..] == [];
      TokenStays(s, [run[0]], s1);
      NotWokenRun(s1, id, run[1..], s');
      assert run == [run[0]] + run[1..];
    }
  }

  /**
  The case does occur.  Requests 1 and 2 both leave no guard alive before either has swapped; request 2
  swaps; request 3 loads the new token, and waits while request 4 holds a guard; request 1 swaps and
  cancels that token, and request 3 is woken with a guard alive ever since the token was installed.
  */
  lemma {:induction false} WokenEarly()
    ensures var before := [Create(1), Subtract(1), Create(2), Subtract(2), Create(3), Create(4), Swap(2)];
            var after := [Load(3), Subtract(3), Swap(1), Cancel(1), Wake(3)];
            exists s, s' :: Reaches(Initial, before, s) && s.current == 1 && ReachesAlive(s, after, s')
  {
    InstalledIsReached();
    WokenAfter();
  }

  /** Two guards are alive, the token has just been replaced, and one more drop is about to swap. */
  ghost function Installed(): State {
    State(2, 1, {}, map[1 := LastOut(None), 2 := Swapped(0, None), 3 := Holding, 4 := Holding])
  }

  lemma ReachesCons(s: State, a: Action, s1: State, run: seq<Action>, s': State)
    requires Enabled(s, a) && Apply(s, a) == s1 && Reaches(s1, run, s')
    ensures Reaches(s, [a] + run, s')
  {
    assert ([a] + run)[1..] == run;
  }

  lemma InstalledIsReached()
    ensures Reaches(Initial, [Create(1), Subtract(1), Create(2), Subtract(2), Create(3), Create(4), Swap(2)], Installed())
  {
    var s2 := State(0, 0, {}, map[1 := LastOut(None)]);
    var s4 := State(0, 0, {}, map[1 := LastOut(None), 2 := LastOut(None)]);
    var s5 := State(1, 0, {}, map[1 := LastOut(None), 2 := LastOut(None), 3 := Holding]);
    var s6 := State(2, 0, {}, map[1 := LastOut(None), 2 := LastOut(None), 3 := Holding, 4 := Holding]);
    assert Reaches(Installed(), [], Installed());
    ReachesCons(s6, Swap(2), Installed(), [], Installed());
    ReachesCons(s5, Create(4), s6, [Swap(2)], Installed());
    ReachesCons(s4, Create(3), s5, [Create(4), Swap(2)], Installed());
    EmptiedTwice(s2, s4, [Create(3), Create(4), Swap(2)], Installed());
  }

  lemma EmptiedTwice(s2: State, s4: State, run: seq<Action>, s': State)
    requires s2 == State(0, 0, {}, map[1 := LastOut(None)])
    requires s4 == State(0, 0, {}, map[1 := LastOut(None), 2 := LastOut(None)]) && Reaches(s4, run, s')
    ensures Reaches(Initial, [Create(1), Subtract(1), Create(2), Subtract(2)] + run, s')
  {
    var s1 := State(1, 0, {}, map[1 := Holding]);
    var s3 := State(1, 0, {}, map[1 := LastOut(None), 2 := Holding]);
    ReachesCons(s3, Subtract(2), s4, run, s');
    ReachesCons(s2, Create(2), s3, [Subtract(2)] + run, s');
    ReachesCons(s1, Subtract(1), s2, [Create(2)] + ([Subtract(2)] + run), s');
    ReachesCons(Initial, Create(1), s1, [Subtract(1)] + ([Create(2)] + ([Subtract(2)] + run)), s');
    assert [Create(1)] + ([Subtract(1)] + ([Create(2)] + ([Subtract(2)] + run))) == [Create(1), Subtract(1), Create(2), Subtract(2)] + run;
  }

  lemma AliveCons(s: State, a: Action, s1: State, run: seq<Action>, s': State)
    requires Live(s) != {} && Enabled(s, a) && Apply(s, a) == s1 && ReachesAlive(s1, run, s')
    ensures ReachesAlive(s, [a] + run, s')
  {
    assert ([a] + run)[1..] == run;
  }

  lemma WokenAfter()
    ensures exists s' :: ReachesAlive(Installed(), [Load(3), Subtract(3), Swap(1), Cancel(1), Wake(3)], s')
  {
    var t0 := Installed();
    var t1 := t0.(tasks := t0.tasks[3 := Loaded(1)]);
    var t2 := t1.(counter := 1, tasks := t1.tasks[3 := Waiting(1)]);
    AliveIn(t0, 4);
    AliveIn(t1, 4);
    WokenByOther(t2);
    var s' :| ReachesAlive(t2, [Swap(1), Cancel(1), Wake(3)], s');
    AliveCons(t1, Subtract(3), t2, [Swap(1), Cancel(1), Wake(3)], s');
    AliveCons(t0, Load(3), t1, [Subtract(3), Swap(1), Cancel(1), Wake(3)], s');
    assert [Load(3)] + [Subtract(3), Swap(1), Cancel(1), Wake(3)] == [Load(3), Subtract(3), Swap(1), Cancel(1), Wake(3)];
  }

  lemma AliveIn(s: State, id: TaskId)
    requires id in s.tasks && Alive(s.tasks[id])
    ensures Live(s) != {}
  {
    assert id in Live(s);
  }

  lemma WokenByOther(t2: State)
    requires t2.current == 1 && t2.cancelled == {} && t2.tasks.Keys == {1, 2, 3, 4}
    requires t2.tasks[1] == LastOut(None) && t2.tasks[3] == Waiting(1) && t2.tasks[4] == Holding
    ensures exists s' :: ReachesAlive(t2, [Swap(1), Cancel(1), Wake(3)], s')
  {
    var t3 := t2.(current := 2, tasks := t2.tasks[1 := Swapped(1, None)]);
    var t4 := Apply(t3, Cancel(1));
    var t5 := Apply(t4, Wake(3));
    AliveIn(t2, 4);
    AliveIn(t3, 4);
    AliveIn(t4, 4);
    AliveIn(t5, 4);
    assert ReachesAlive(t5, [], t5);
    AliveCons(t4, Wake(3), t5, [], t5);
    AliveCons(t3, Cancel(1), t4, [Wake(3)], t5);
    AliveCons(t2, Swap(1), t3, [Cancel(1), Wake(3)], t5);
    assert [Swap(1)] + [Cancel(1), Wake(3)] == [Swap(1), Cancel(1), Wake(3)];
  }
}
