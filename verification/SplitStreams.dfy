/**
The stream splitter: two consumers share one source through one-slot buffers and wakers.  An item
that the polling side did not want is parked in the other side's slot, and that side is woken.
*/
module SplitStreams {
  import opened Wrappers

  datatype Either<+L, +R> = Left(left: L) | Right(right: R)

  /** The answer of a stream: `Poll<Option<T>>`. */
  datatype Poll<+T> = Ready(value: T) | Ended | Pending

  type Waker = nat

  datatype State<+L, +R> = State(
    bufLeft: Option<L>,
    bufRight: Option<R>,
    wakerLeft: Option<Waker>,
    wakerRight: Option<Waker>)

  /** What a poll does: the new state, its answer, the waker it wakes, and whether it took from the source. */
  datatype Outcome<+L, +R, +T> = Outcome(state: State<L, R>, answer: Poll<T>, wakes: Option<Waker>, tookItem: bool)

  function PollLeft<I, L, R>(split: I -> Either<L, R>, s: State<L, R>, cx: Waker, source: Poll<I>): Outcome<L, R, L> {
    var s := s.(wakerLeft := Some(cx));
    if s.bufLeft.Some? then Outcome(s.(bufLeft := None), Ready(s.bufLeft.value), None, false)
    else if s.bufRight.Some? then Outcome(s, Pending, s.wakerRight, false)
    else
      match source
      case Ready(item) =>
        (match split(item)
         case Left(l) => Outcome(s, Ready(l), None, true)
         case Right(r) => Outcome(s.(bufRight := Some(r)), Pending, s.wakerRight, true))
      case Ended => Outcome(s, Ended, s.wakerRight, false)
      case Pending => Outcome(s, Pending, None, false)
  }

  function PollRight<I, L, R>(split: I -> Either<L, R>, s: State<L, R>, cx: Waker, source: Poll<I>): Outcome<L, R, R> {
    var s := s.(wakerRight := Some(cx));
    if s.bufRight.Some? then Outcome(s.(bufRight := None), Ready(s.bufRight.value), None, false)
    else if s.bufLeft.Some? then Outcome(s, Pending, s.wakerLeft, false)
    else
      match source
      case Ready(item) =>
        (match split(item)
         case Left(l) => Outcome(s.(bufLeft := Some(l)), Pending, s.wakerLeft, true)
         case Right(r) => Outcome(s, Ready(r), None, true))
      case Ended => Outcome(s, Ended, s.wakerLeft, false)
      case Pending => Outcome(s, Pending, None, false)
  }

  /** The shared object.  `source` is what the source answers if it is polled. */
  class SplitByMap<I, L(0), R(0)> {
    const split: I -> Either<L, R>
    var bufLeft: Option<L>
    var bufRight: Option<R>
    var wakerLeft: Option<Waker>
    var wakerRight: Option<Waker>

    ghost function View(): State<L, R>
      reads this
    {
      State(bufLeft, bufRight, wakerLeft, wakerRight)
    }

    constructor (split: I -> Either<L, R>)
      ensures this.split == split && View() == State(None, None, None, None)
    {
      this.split := split;
      bufLeft, bufRight, wakerLeft, wakerRight := None, None, None, None;
    }

    method PollNextLeft(cx: Waker, source: Poll<I>) returns (answer: Poll<L>, wakes: Option<Waker>, tookItem: bool)
      modifies this
      ensures PollLeft(split, old(View()), cx, source) == Outcome(View(), answer, wakes, tookItem)
    {
      wakes, tookItem := None, false;
      wakerLeft := Some(cx);
      if bufLeft.Some? {
        answer := Ready(bufLeft.value);
        bufLeft := None;
        return;
      }
      if bufRight.Some? {
        wakes := wakerRight;
        return Pending, wakes, tookItem;
      }
      match source {
        case Ready(item) =>
          tookItem := true;
          match split(item) {
            case Left(l) =>
              answer := Ready(l);
            case Right(r) =>
              bufRight := Some(r);
              wakes := wakerRight;
              answer := Pending;
          }
        case Ended =>
          wakes := wakerRight;
          answer := Ended;
        case Pending =>
          answer := Pending;
      }
    }

    method PollNextRight(cx: Waker, source: Poll<I>) returns (answer: Poll<R>, wakes: Option<Waker>, tookItem: bool)
      modifies this
      ensures PollRight(split, old(View()), cx, source) == Outcome(View(), answer, wakes, tookItem)
    {
      wakes, tookItem := None, false;
      wakerRight := Some(cx);
      if bufRight.Some? {
        answer := Ready(bufRight.value);
        bufRight := None;
        return;
      }
      if bufLeft.Some? {
        wakes := wakerLeft;
        return Pending, wakes, tookItem;
      }
      match source {
        case Ready(item) =>
          tookItem := true;
          match split(item) {
            case Left(l) =>
              bufLeft := Some(l);
              wakes := wakerLeft;
              answer := Pending;
            case Right(r) =>
              answer := Ready(r);
          }
        case Ended =>
          wakes := wakerLeft;
          answer := Ended;
        case Pending =>
          answer := Pending;
      }
    }
  }

  // ---------------------------------------------------------------------------------------------
  // Arbitrary schedules over an arbitrary source

  datatype Side = LeftSide | RightSide

  /** A poll of one side; `Busy` polls find the lock taken and wake themselves. */
  datatype Event<+I> =
    | LeftPoll(cx: Waker, source: Poll<I>)
    | RightPoll(cx: Waker, source: Poll<I>)
    | LeftBusy
    | RightBusy

  /**
  The splitter with its history.  A side is asleep when its last poll was answered `Pending` and
  nothing has woken it since.
  */
  datatype World<+I, +L, +R> = World(
    state: State<L, R>,
    taken: seq<I>,
    gotLeft: seq<L>,
    gotRight: seq<R>,
    leftAsleep: bool,
    rightAsleep: bool,
    leftEnded: bool,
    rightEnded: bool)

  ghost function Start<I, L, R>(): World<I, L, R> {
    World(State(None, None, None, None), [], [], [], false, false, false, false)
  }

  ghost function Received<T>(p: Poll<T>): seq<T> {
    if p.Ready? then [p.value] else []
  }

  ghost function Taken<I>(source: Poll<I>, tookItem: bool): seq<I> {
    if tookItem && source.Ready? then [source.value] else []
  }

  ghost function Step<I, L, R>(split: I -> Either<L, R>, w: World<I, L, R>, e: Event<I>): World<I, L, R> {
    match e
    case LeftPoll(cx, source) =>
      var o := PollLeft(split, w.state, cx, source);
      World(o.state, w.taken + Taken(source, o.tookItem), w.gotLeft + Received(o.answer), w.gotRight,
            o.answer.Pending?, w.rightAsleep && !(o.wakes.Some? && o.wakes == o.state.wakerRight),
            w.leftEnded || o.answer.Ended?, w.rightEnded)
    case RightPoll(cx, source) =>
      var o := PollRight(split, w.state, cx, source);
      World(o.state, w.taken + Taken(source, o.tookItem), w.gotLeft, w.gotRight + Received(o.answer),
            w.leftAsleep && !(o.wakes.Some? && o.wakes == o.state.wakerLeft), o.answer.Pending?,
            w.leftEnded, w.rightEnded || o.answer.Ended?)
    case LeftBusy => w.(leftAsleep := false)
    case RightBusy => w.(rightAsleep := false)
  }

  ghost function Run<I, L, R>(split: I -> Either<L, R>, events: seq<Event<I>>): World<I, L, R> {
    if events == [] then Start()
    else Step(split, Run(split, events[..|events| - 1]), events[|events| - 1])
  }

  /** The items of each side, in source order. */
  ghost function Lefts<I, L, R>(split: I -> Either<L, R>, items: seq<I>): seq<L> {
    if items == [] then []
    else
      var rest := Lefts(split, items[..|items| - 1]);
      var x := split(items[|items| - 1]);
      if x.Left? then rest + [x.left] else rest
  }

  ghost function Rights<I, L, R>(split: I -> Either<L, R>, items: seq<I>): seq<R> {
    if items == [] then []
    else
      var rest := Rights(split, items[..|items| - 1]);
      var x := split(items[|items| - 1]);
      if x.Right? then rest + [x.right] else rest
  }

  ghost function Slot<T>(buf: Option<T>): seq<T> {
    if buf.Some? then [buf.value] else []
  }

  /** Nothing is lost, duplicated or reordered, and no side sleeps while its item is parked. */
  ghost predicate Conserving<I, L, R>(split: I -> Either<L, R>, w: World<I, L, R>) {
    && !(w.state.bufLeft.Some? && w.state.bufRight.Some?)
    && w.gotLeft + Slot(w.state.bufLeft) == Lefts(split, w.taken)
    && w.gotRight + Slot(w.state.bufRight) == Rights(split, w.taken)
    && (w.leftAsleep ==> w.state.bufLeft.None? && w.state.wakerLeft.Some?)
    && (w.rightAsleep ==> w.state.bufRight.None? && w.state.wakerRight.Some?)
  }

  lemma SplitSnoc<I, L, R>(split: I -> Either<L, R>, items: seq<I>, x: I)
    ensures Lefts(split, items + [x]) == Lefts(split, items) + (if split(x).Left? then [split(x).left] else [])
    ensures Rights(split, items + [x]) == Rights(split, items) + (if split(x).Right? then [split(x).right] else [])
  {
    assert (items + [x])[..|items|] == items;
  }

  lemma {:induction false} LeftPollConserves<I, L, R>(split: I -> Either<L, R>, w: World<I, L, R>, cx: Waker, source: Poll<I>)
    requires Conserving(split, w)
    ensures Conserving(split, Step(split, w, LeftPoll(cx, source)))
  {
    var o := PollLeft(split, w.state, cx, source);
    if o.tookItem {
      SplitSnoc(split, w.taken, source.value);
    } else {
      assert w.taken + [] == w.taken;
    }
  }

  lemma {:induction false} RightPollConserves<I, L, R>(split: I -> Either<L, R>, w: World<I, L, R>, cx: Waker, source: Poll<I>)
    requires Conserving(split, w)
    ensures Conserving(split, Step(split, w, RightPoll(cx, source)))
  {
    var o := PollRight(split, w.state, cx, source);
    if o.tookItem {
      SplitSnoc(split, w.taken, source.value);
    } else {
      assert w.taken + [] == w.taken;
    }
  }

  /** Every schedule of polls over every source conserves. */
  lemma {:induction false} RunConserves<I, L, R>(split: I -> Either<L, R>, events: seq<Event<I>>)
    ensures Conserving(split, Run(split, events))
  {
    if events != [] {
      var n := |events| - 1;
      var w := Run(split, events[..n]);
      RunConserves(split, events[..n]);
      match events[n] {
        case LeftPoll(cx, source) => LeftPollConserves(split, w, cx, source);
        case RightPoll(cx, source) => RightPollConserves(split, w, cx, source);
        case _ =>
      }
    }
  }

  /** The waker that a side passed with its last poll that got the lock. */
  ghost function LatestWaker<I>(events: seq<Event<I>>, side: Side): Option<Waker> {
    if events == [] then None
    else
      var last := events[|events| - 1];
      if (side.LeftSide? && last.LeftPoll?) || (side.RightSide? && last.RightPoll?) then Some(last.cx)
      else LatestWaker(events[..|events| - 1], side)
  }

  lemma {:induction false} WakersAreLatest<I, L, R>(split: I -> Either<L, R>, events: seq<Event<I>>)
    ensures Run(split, events).state.wakerLeft == LatestWaker(events, LeftSide)
    ensures Run(split, events).state.wakerRight == LatestWaker(events, RightSide)
  {
    if events != [] {
      var n := |events| - 1;
      WakersAreLatest(split, events[..n]);
      StepWakers(split, Run(split, events[..n]), events[n]);
    }
  }

  lemma {:induction false} StepWakers<I, L, R>(split: I -> Either<L, R>, w: World<I, L, R>, e: Event<I>)
    ensures Step(split, w, e).state.wakerLeft == if e.LeftPoll? then Some(e.cx) else w.state.wakerLeft
    ensures Step(split, w, e).state.wakerRight == if e.RightPoll? then Some(e.cx) else w.state.wakerRight
  {
  }

  /**
  A poll wakes the other side, through its waker, exactly when it finds nothing for itself and either an
  item is parked for the other side or the source has ended; so a pending source makes nobody wake.
  */
  lemma {:induction false} WakesIff<I, L, R>(split: I -> Either<L, R>, s: State<L, R>, cx: Waker, source: Poll<I>)
    ensures var o := PollLeft(split, s, cx, source);
            o.wakes == if s.bufLeft.None? && (o.state.bufRight.Some? || o.answer.Ended?) then s.wakerRight else None
    ensures var o := PollRight(split, s, cx, source);
            o.wakes == if s.bufRight.None? && (o.state.bufLeft.Some? || o.answer.Ended?) then s.wakerLeft else None
    ensures source.Pending? && s.bufLeft.None? && s.bufRight.None? ==>
              && PollLeft(split, s, cx, source).wakes == None && PollLeft(split, s, cx, source).answer.Pending?
              && PollRight(split, s, cx, source).wakes == None && PollRight(split, s, cx, source).answer.Pending?
  {
  }

  /** Parking an item for a side that has ever polled wakes that side, through its latest waker. */
  lemma {:induction false} ParkedComesWithWake<I, L, R>(split: I -> Either<L, R>, events: seq<Event<I>>, cx: Waker, source: Poll<I>)
    ensures var s := Run(split, events).state; var o := PollLeft(split, s, cx, source);
            s.bufRight.None? && o.state.bufRight.Some? ==> o.wakes == LatestWaker(events, RightSide)
    ensures var s := Run(split, events).state; var o := PollRight(split, s, cx, source);
            s.bufLeft.None? && o.state.bufLeft.Some? ==> o.wakes == LatestWaker(events, LeftSide)
  {
    WakersAreLatest(split, events);
  }

  /** A poll that is answered with the end finds both sides completely served. */
  lemma {:induction false} EndMeansAllDelivered<I, L, R>(split: I -> Either<L, R>, events: seq<Event<I>>, cx: Waker, source: Poll<I>)
    requires var w := Run(split, events);
             PollLeft(split, w.state, cx, source).answer.Ended? || PollRight(split, w.state, cx, source).answer.Ended?
    ensures var w := Run(split, events);
            && source.Ended?
            && w.gotLeft == Lefts(split, w.taken) && w.gotRight == Rights(split, w.taken)
  {
    RunConserves(split, events);
  }

  /**
  The splitter never puts both sides to sleep by itself: if both sleep, nothing is parked and the
  last event was a poll that the source answered `Pending`, so the source owes a wake.
  */
  lemma {:induction false} BothAsleepOnlyOnSource<I, L, R>(split: I -> Either<L, R>, events: seq<Event<I>>)
    requires Run(split, events).leftAsleep && Run(split, events).rightAsleep
    ensures events != []
    ensures var last := events[|events| - 1];
            (last.LeftPoll? || last.RightPoll?) && last.source.Pending?
    ensures Run(split, events).state.bufLeft.None? && Run(split, events).state.bufRight.None?
  {
    RunConserves(split, events[..|events| - 1]);
    BothAsleepStep(split, Run(split, events[..|events| - 1]), events[|events| - 1]);
  }

  lemma {:induction false} BothAsleepStep<I, L, R>(split: I -> Either<L, R>, w: World<I, L, R>, e: Event<I>)
    requires Conserving(split, w)
    requires Step(split, w, e).leftAsleep && Step(split, w, e).rightAsleep
    ensures (e.LeftPoll? || e.RightPoll?) && e.source.Pending?
    ensures Step(split, w, e).state.bufLeft.None? && Step(split, w, e).state.bufRight.None?
  {
  }

  // ---------------------------------------------------------------------------------------------
  // A source that is always ready, and keeps answering the end after its last item

  ghost function SourceAt<I, L, R>(items: seq<I>, w: World<I, L, R>): Poll<I> {
    if |w.taken| < |items| then Ready(items[|w.taken|]) else Ended
  }

  ghost function Turn<I, L, R>(split: I -> Either<L, R>, items: seq<I>, w: World<I, L, R>, side: Side): World<I, L, R> {
    if side.LeftSide? then Step(split, w, LeftPoll(0, SourceAt(items, w)))
    else Step(split, w, RightPoll(1, SourceAt(items, w)))
  }

  ghost predicate Sound<I, L, R>(split: I -> Either<L, R>, items: seq<I>, w: World<I, L, R>) {
    && Conserving(split, w)
    && w.taken <= items
    && !(w.leftAsleep && w.rightAsleep)
    && (w.leftEnded || w.rightEnded ==>
          w.taken == items && Slot(w.state.bufLeft) == [] && Slot(w.state.bufRight) == []
          && !w.leftAsleep && !w.rightAsleep)
  }

  lemma {:induction false} LeftTurnIsSound<I, L, R>(split: I -> Either<L, R>, items: seq<I>, w: World<I, L, R>)
    requires Sound(split, items, w)
    ensures Sound(split, items, Turn(split, items, w, LeftSide))
  {
    LeftPollConserves(split, w, 0, SourceAt(items, w));
    TakenGrows(items, w);
  }

  lemma {:induction false} RightTurnIsSound<I, L, R>(split: I -> Either<L, R>, items: seq<I>, w: World<I, L, R>)
    requires Sound(split, items, w)
    ensures Sound(split, items, Turn(split, items, w, RightSide))
  {
    RightPollConserves(split, w, 1, SourceAt(items, w));
    TakenGrows(items, w);
  }

  lemma TakenGrows<I, L, R>(items: seq<I>, w: World<I, L, R>)
    requires w.taken <= items
    ensures w.taken + Taken(SourceAt(items, w), true) <= items
    ensures w.taken + Taken(SourceAt(items, w), false) == w.taken
  {
  }

  lemma {:induction false} TurnIsSound<I, L, R>(split: I -> Either<L, R>, items: seq<I>, w: World<I, L, R>, side: Side)
    requires Sound(split, items, w)
    ensures Sound(split, items, Turn(split, items, w, side))
  {
    if side.LeftSide? {
      LeftTurnIsSound(split, items, w);
    } else {
      RightTurnIsSound(split, items, w);
    }
  }

  /** The side is neither asleep nor finished, so an executor would poll it. */
  ghost predicate Runnable<I, L, R>(w: World<I, L, R>, side: Side) {
    if side.LeftSide? then !w.leftAsleep && !w.leftEnded else !w.rightAsleep && !w.rightEnded
  }

  ghost function Bit(b: bool): nat {
    if b then 1 else 0
  }

  /** A bound on the turns that runnable sides can still take. */
  ghost function TurnsLeft<I, L, R>(items: seq<I>, w: World<I, L, R>): nat
    requires |w.taken| <= |items|
  {
    3 * (|items| - |w.taken|) + |Slot(w.state.bufLeft)| + |Slot(w.state.bufRight)|
    + Bit(Runnable(w, LeftSide)) + Bit(Runnable(w, RightSide)) + 2 * Bit(!w.leftEnded) + 2 * Bit(!w.rightEnded)
  }

  lemma {:induction false} TurnMakesProgress<I, L, R>(split: I -> Either<L, R>, items: seq<I>, w: World<I, L, R>, side: Side)
    requires Sound(split, items, w) && Runnable(w, side)
    ensures |Turn(split, items, w, side).taken| <= |items|
    ensures TurnsLeft(items, Turn(split, items, w, side)) < TurnsLeft(items, w)
  {
  }

  /** Turns of runnable sides, in any order. */
  ghost predicate Scheduled<I, L, R>(split: I -> Either<L, R>, items: seq<I>, w: World<I, L, R>, sides: seq<Side>, w': World<I, L, R>)
    decreases |sides|
  {
    if sides == [] then w == w'
    else Runnable(w, sides[0]) && Scheduled(split, items, Turn(split, items, w, sides[0]), sides[1..], w')
  }

  lemma {:induction false} ScheduleIsBounded<I, L, R>(split: I -> Either<L, R>, items: seq<I>, w: World<I, L, R>, sides: seq<Side>, w': World<I, L, R>)
    requires Sound(split, items, w) && Scheduled(split, items, w, sides, w')
    ensures Sound(split, items, w') && |sides| <= TurnsLeft(items, w)
    decreases |sides|
  {
    if sides != [] {
      TurnIsSound(split, items, w, sides[0]);
      TurnMakesProgress(split, items, w, sides[0]);
      ScheduleIsBounded(split, items, Turn(split, items, w, sides[0]), sides[1..], w');
    }
  }

  /**
  However an executor chooses among the runnable sides, after at most 3n + 6 polls nobody is
  runnable, and then both sides have ended with exactly their items.
  */
  lemma {:induction false} EveryScheduleFinishes<I, L, R>(split: I -> Either<L, R>, items: seq<I>, sides: seq<Side>, w: World<I, L, R>)
    requires Scheduled(split, items, Start(), sides, w)
    ensures |sides| <= 3 * |items| + 6
    ensures !Runnable(w, LeftSide) && !Runnable(w, RightSide) ==>
              && w.leftEnded && w.rightEnded
              && w.gotLeft == Lefts(split, items) && w.gotRight == Rights(split, items)
  {
    ScheduleIsBounded(split, items, Start(), sides, w);
  }

  // Repeated turns

  ghost function Iterate<W>(f: W -> W, w: W, n: nat): W {
    if n == 0 then w else f(Iterate(f, w, n - 1))
  }

  /** One step keeps `inv`, and lowers `rank` until it is zero. */
  ghost predicate Descends<W(!new)>(f: W -> W, inv: W -> bool, rank: W -> int) {
    forall v :: inv(v) ==> inv(f(v)) && 0 <= rank(f(v)) && (rank(f(v)) < rank(v) || rank(f(v)) == 0)
  }

  lemma {:induction false} IterateDescends<W(!new)>(f: W -> W, inv: W -> bool, rank: W -> int, w: W, n: nat)
    requires inv(w) && Descends(f, inv, rank)
    ensures inv(Iterate(f, w, n))
    ensures rank(Iterate(f, w, n)) <= if n <= rank(w) then rank(w) - n else if n == 0 then rank(w) else 0
  {
    if n > 0 { IterateDescends(f, inv, rank, w, n - 1); }
  }

  lemma {:induction false} IterateKeeps<W(!new)>(f: W -> W, inv: W -> bool, w: W, n: nat)
    requires inv(w) && forall v :: inv(v) ==> inv(f(v))
    ensures inv(Iterate(f, w, n))
  {
    if n > 0 { IterateKeeps(f, inv, w, n - 1); }
  }

  // Alternating polls

  ghost function Round<I, L, R>(split: I -> Either<L, R>, items: seq<I>, w: World<I, L, R>): World<I, L, R> {
    Turn(split, items, Turn(split, items, w, LeftSide), RightSide)
  }

  ghost function RoundOf<I, L, R>(split: I -> Either<L, R>, items: seq<I>): World<I, L, R> -> World<I, L, R> {
    (w: World<I, L, R>) => Round(split, items, w)
  }

  ghost function Rounds<I, L, R>(split: I -> Either<L, R>, items: seq<I>, n: nat): World<I, L, R> {
    Iterate(RoundOf(split, items), Start(), n)
  }

  /** What alternating polls still have to hand out at the start of a round. */
  ghost function Backlog<I, L, R>(items: seq<I>, w: World<I, L, R>): int {
    |items| - |w.taken| + |Slot(w.state.bufLeft)|
  }

  /** The state at the start of a round. */
  ghost predicate Between<I, L, R>(split: I -> Either<L, R>, items: seq<I>, w: World<I, L, R>) {
    Sound(split, items, w) && w.state.bufRight.None?
  }

  lemma {:induction false} RoundKeeps<I, L, R>(split: I -> Either<L, R>, items: seq<I>, w: World<I, L, R>)
    requires Between(split, items, w)
    ensures Between(split, items, Round(split, items, w))
  {
    LeftTurnIsSound(split, items, w);
    RightTurnIsSound(split, items, Turn(split, items, w, LeftSide));
  }

  lemma {:induction false} RoundShrinksBacklog<I, L, R>(split: I -> Either<L, R>, items: seq<I>, w: World<I, L, R>)
    requires w.taken <= items && w.state.bufRight.None?
    ensures Backlog(items, w) > 0 ==> Backlog(items, Round(split, items, w)) < Backlog(items, w)
    ensures Backlog(items, w) == 0 ==> Backlog(items, Round(split, items, w)) == 0
    ensures Backlog(items, w) == 0 ==> Round(split, items, w).leftEnded && Round(split, items, w).rightEnded
  {
  }

  lemma {:induction false} RoundsDescend<I(!new), L(!new), R(!new)>(split: I -> Either<L, R>, items: seq<I>, inv: World<I, L, R> -> bool, rank: World<I, L, R> -> int)
    requires forall w :: inv(w) <==> Between(split, items, w)
    requires forall w :: rank(w) == Backlog(items, w)
    ensures Descends(RoundOf(split, items), inv, rank)
  {
    forall v | inv(v)
      ensures var w := RoundOf(split, items)(v); inv(w) && 0 <= rank(w) && (rank(w) < rank(v) || rank(w) == 0)
    {
      RoundKeeps(split, items, v);
      RoundShrinksBacklog(split, items, v);
      BacklogIsNat(split, items, Round(split, items, v));
    }
  }

  lemma BacklogIsNat<I, L, R>(split: I -> Either<L, R>, items: seq<I>, w: World<I, L, R>)
    requires Between(split, items, w)
    ensures Backlog(items, w) >= 0
  {
  }

  /** After `n` rounds, at least `n` of the items are handed out, or all of them. */
  lemma {:induction false} RoundsKeep<I(!new), L(!new), R(!new)>(split: I -> Either<L, R>, items: seq<I>, n: nat)
    ensures Between(split, items, Rounds(split, items, n))
    ensures Backlog(items, Rounds(split, items, n)) <= if n <= |items| then |items| - n else 0
  {
    var inv := (w: World<I, L, R>) => Between(split, items, w);
    var rank := (w: World<I, L, R>) => Backlog(items, w);
    StartIsBetween(split, items);
    RoundsDescend(split, items, inv, rank);
    IterateDescends(RoundOf(split, items), inv, rank, Start(), n);
  }

  lemma {:induction false} StartIsBetween<I, L, R>(split: I -> Either<L, R>, items: seq<I>)
    ensures Between(split, items, Start()) && Backlog<I, L, R>(items, Start()) == |items|
  {
  }

  /** Alternating polls bring both sides to their end within n + 1 rounds. */
  lemma {:induction false} AlternatingPollsFinish<I(!new), L(!new), R(!new)>(split: I -> Either<L, R>, items: seq<I>)
    ensures var w := Rounds(split, items, |items| + 1);
            && w.leftEnded && w.rightEnded
            && w.gotLeft == Lefts(split, items) && w.gotRight == Rights(split, items)
  {
    var v := Rounds(split, items, |items|);
    RoundsKeep(split, items, |items|);
    BacklogIsNat(split, items, v);
    LastRound(split, items, v);
  }

  lemma {:induction false} LastRound<I, L, R>(split: I -> Either<L, R>, items: seq<I>, w: World<I, L, R>)
    requires Between(split, items, w) && Backlog(items, w) == 0
    ensures var w' := Round(split, items, w);
            && w'.leftEnded && w'.rightEnded
            && w'.gotLeft == Lefts(split, items) && w'.gotRight == Rights(split, items)
  {
    RoundKeeps(split, items, w);
    RoundShrinksBacklog(split, items, w);
  }

  // One side alone

  /** The number of leading items that belong to the left side. */
  ghost function LeadingLefts<I, L, R>(split: I -> Either<L, R>, items: seq<I>): (n: nat)
    ensures n <= |items|
    ensures forall i :: 0 <= i < n ==> split(items[i]).Left?
    ensures n < |items| ==> split(items[n]).Right?
  {
    if items == [] || split(items[0]).Right? then 0 else 1 + LeadingLefts(split, items[1..])
  }

  ghost function TurnOf<I, L, R>(split: I -> Either<L, R>, items: seq<I>, side: Side): World<I, L, R> -> World<I, L, R> {
    (w: World<I, L, R>) => Turn(split, items, w, side)
  }

  /** `n` turns of one side. */
  ghost function Alone<I, L, R>(split: I -> Either<L, R>, items: seq<I>, w: World<I, L, R>, side: Side, n: nat): World<I, L, R> {
    Iterate(TurnOf(split, items, side), w, n)
  }

  /** Where left polls alone have come after `n` of them. */
  ghost predicate LeftAloneAt<I, L, R>(split: I -> Either<L, R>, items: seq<I>, n: nat, w: World<I, L, R>) {
    var m := LeadingLefts(split, items);
    && Conserving(split, w) && w.state.bufLeft.None?
    && (n <= m ==> w.taken == items[..n] && !w.leftEnded && w.state.bufRight.None?)
    && (n > m && m == |items| ==> w.taken == items && w.leftEnded && w.state.bufRight.None?)
    && (n > m && m < |items| ==> w.taken == items[..m + 1] && w.leftAsleep && !w.leftEnded
                                 && w.state.bufRight == Some(split(items[m]).right))
  }

  /**
  Polling left alone hands out the items before the first right item and then stays pending, with
  that item parked, however often left is polled.
  */
  lemma {:induction false} LeftAloneStops<I, L, R>(split: I -> Either<L, R>, items: seq<I>, n: nat)
    ensures LeftAloneAt(split, items, n, Alone(split, items, Start(), LeftSide, n))
  {
    if n > 0 {
      LeftAloneStops(split, items, n - 1);
      LeftAloneTurn(split, items, n - 1, Alone(split, items, Start(), LeftSide, n - 1));
    }
  }

  lemma {:induction false} LeftAloneTurn<I, L, R>(split: I -> Either<L, R>, items: seq<I>, n: nat, w: World<I, L, R>)
    requires LeftAloneAt(split, items, n, w)
    ensures LeftAloneAt(split, items, n + 1, Turn(split, items, w, LeftSide))
  {
    var source := SourceAt(items, w);
    LeftPollConserves(split, w, 0, source);
    assert w.taken + [] == w.taken;
    var m := LeadingLefts(split, items);
    if n < m || (n == m && m < |items|) {
      assert items[..n] + [items[n]] == items[..n + 1];
    }
  }

  /** In particular left receives exactly the items before the first right item, and no more. */
  lemma {:induction false} LeftAloneReceives<I, L, R>(split: I -> Either<L, R>, items: seq<I>, n: nat)
    ensures var m := LeadingLefts(split, items); var k := if n < m then n else m;
            Alone(split, items, Start(), LeftSide, n).gotLeft == Lefts(split, items[..k])
  {
    LeftAloneStops(split, items, n);
    var m := LeadingLefts(split, items);
    var w := Alone(split, items, Start(), LeftSide, n);
    assert w.gotLeft + [] == w.gotLeft;
    if n > m && m < |items| {
      assert items[..m] + [items[m]] == items[..m + 1];
      SplitSnoc(split, items[..m], items[m]);
    } else if n > m {
      assert items[..m] == items;
    }
  }

  ghost predicate HasEnded<I, L, R>(w: World<I, L, R>, side: Side) {
    if side.LeftSide? then w.leftEnded else w.rightEnded
  }

  ghost predicate IsFor<L, R>(x: Either<L, R>, side: Side) {
    if side.LeftSide? then x.Left? else x.Right?
  }

  /** The other side's slot is empty and no item that is still to come is for the other side. */
  ghost predicate Clear<I, L, R>(split: I -> Either<L, R>, items: seq<I>, w: World<I, L, R>, side: Side) {
    && (if side.LeftSide? then w.state.bufRight.None? else w.state.bufLeft.None?)
    && forall i :: |w.taken| <= i < |items| ==> IsFor(split(items[i]), side)
  }

  /** A bound on the turns until a side that has everything to itself has ended. */
  ghost function AloneLeft<I, L, R>(items: seq<I>, w: World<I, L, R>, side: Side): int {
    |items| - |w.taken| + (if side.LeftSide? then |Slot(w.state.bufLeft)| else |Slot(w.state.bufRight)|)
    + Bit(!HasEnded(w, side))
  }

  lemma {:induction false} TurnKeepsClear<I, L, R>(split: I -> Either<L, R>, items: seq<I>, w: World<I, L, R>, side: Side)
    requires Sound(split, items, w)
    ensures Clear(split, items, Turn(split, items, w, side), side) <==> Clear(split, items, w, side)
  {
    var n := |w.taken|;
    if n < |items| {
      assert Clear(split, items, w, side) ==> IsFor(split(items[n]), side);
    }
  }

  lemma {:induction false} ClearTurnAdvances<I, L, R>(split: I -> Either<L, R>, items: seq<I>, w: World<I, L, R>, side: Side)
    requires Sound(split, items, w) && Clear(split, items, w, side) && !HasEnded(w, side)
    ensures AloneLeft(items, Turn(split, items, w, side), side) < AloneLeft(items, w, side)
  {
    var n := |w.taken|;
    if n < |items| {
      assert IsFor(split(items[n]), side);
    }
  }

  /** Whether a side has everything to itself does not change while it is polled alone. */
  lemma {:induction false} AloneKeeps<I(!new), L(!new), R(!new)>(split: I -> Either<L, R>, items: seq<I>, w: World<I, L, R>, side: Side, n: nat, clear: bool)
    requires Sound(split, items, w) && Clear(split, items, w, side) == clear
    ensures Sound(split, items, Alone(split, items, w, side, n))
    ensures Clear(split, items, Alone(split, items, w, side, n), side) == clear
  {
    var inv := (v: World<I, L, R>) => Sound(split, items, v) && Clear(split, items, v, side) == clear;
    forall v | inv(v) ensures inv(TurnOf(split, items, side)(v)) {
      TurnIsSound(split, items, v, side);
      TurnKeepsClear(split, items, v, side);
    }
    IterateKeeps(TurnOf(split, items, side), inv, w, n);
  }

  lemma {:induction false} TurnDescends<I, L, R>(split: I -> Either<L, R>, items: seq<I>, w: World<I, L, R>, side: Side, w': World<I, L, R>)
    requires Sound(split, items, w) && Clear(split, items, w, side) && w' == Turn(split, items, w, side)
    ensures Sound(split, items, w') && Clear(split, items, w', side)
    ensures 0 <= AloneLeft(items, w', side) && (AloneLeft(items, w', side) < AloneLeft(items, w, side) || AloneLeft(items, w', side) == 0)
  {
    TurnIsSound(split, items, w, side);
    TurnKeepsClear(split, items, w, side);
    if HasEnded(w, side) {
      EndIsKept(split, items, w, side);
      EndedIsClear(split, items, w', side);
    } else {
      ClearTurnAdvances(split, items, w, side);
    }
  }

  lemma {:induction false} AloneDescends<I(!new), L(!new), R(!new)>(split: I -> Either<L, R>, items: seq<I>, side: Side, inv: World<I, L, R> -> bool, rank: World<I, L, R> -> int)
    requires forall w :: inv(w) <==> Sound(split, items, w) && Clear(split, items, w, side)
    requires forall w :: rank(w) == AloneLeft(items, w, side)
    ensures Descends(TurnOf(split, items, side), inv, rank)
  {
    forall v | inv(v)
      ensures var w := TurnOf(split, items, side)(v); inv(w) && 0 <= rank(w) && (rank(w) < rank(v) || rank(w) == 0)
    {
      TurnDescends(split, items, v, side, Turn(split, items, v, side));
    }
  }

  lemma {:induction false} AloneAdvances<I(!new), L(!new), R(!new)>(split: I -> Either<L, R>, items: seq<I>, w: World<I, L, R>, side: Side, n: nat)
    requires Sound(split, items, w) && Clear(split, items, w, side) && n == AloneLeft(items, w, side)
    ensures AloneLeft(items, Alone(split, items, w, side, n), side) <= 0
  {
    var inv := (v: World<I, L, R>) => Sound(split, items, v) && Clear(split, items, v, side);
    var rank := (v: World<I, L, R>) => AloneLeft(items, v, side);
    AloneDescends(split, items, side, inv, rank);
    IterateDescends(TurnOf(split, items, side), inv, rank, w, n);
  }

  lemma {:induction false} EndIsKept<I, L, R>(split: I -> Either<L, R>, items: seq<I>, w: World<I, L, R>, side: Side)
    ensures HasEnded(w, side) ==> HasEnded(Turn(split, items, w, side), side)
  {
  }

  lemma EndedIsClear<I, L, R>(split: I -> Either<L, R>, items: seq<I>, w: World<I, L, R>, side: Side)
    requires Sound(split, items, w) && HasEnded(w, side)
    ensures Clear(split, items, w, side) && AloneLeft(items, w, side) == 0
  {
  }

  /**
  From any state that can be reached, polling one side alone comes to the end exactly when nothing is
  parked for the other side and no item that is still to come is for it.
  */
  lemma {:induction false} AloneEndsIff<I(!new), L(!new), R(!new)>(split: I -> Either<L, R>, items: seq<I>, w: World<I, L, R>, side: Side)
    requires Sound(split, items, w)
    ensures (exists n: nat :: HasEnded(Alone(split, items, w, side, n), side)) <==> Clear(split, items, w, side)
  {
    var clear := Clear(split, items, w, side);
    if clear {
      var n: nat := AloneLeft(items, w, side);
      AloneAdvances(split, items, w, side, n);
      AloneKeeps(split, items, w, side, n, clear);
      NothingLeft(split, items, Alone(split, items, w, side, n), side);
    }
    forall n: nat | HasEnded(Alone(split, items, w, side, n), side) ensures clear {
      AloneKeeps(split, items, w, side, n, clear);
      EndedIsClear(split, items, Alone(split, items, w, side, n), side);
    }
  }

  lemma NothingLeft<I, L, R>(split: I -> Either<L, R>, items: seq<I>, w: World<I, L, R>, side: Side)
    requires Sound(split, items, w) && AloneLeft(items, w, side) <= 0
    ensures HasEnded(w, side)
  {
  }
}
