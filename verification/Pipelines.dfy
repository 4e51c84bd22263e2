/**
The request pipeline: modules handle a request in order, at most once an error configuration takes
over, and the response passes back through the executed handlers in reverse.  Handlers, time-outs
and the lookup of error configurations are arbitrary; what the pipeline does is recorded in a log.
*/
module Pipelines {
  import opened Wrappers
  import opened Sequences

  type Sender = nat

  /** What `request_handler` of a module comes back with.  `called` is false when the time is already up. */
  datatype RequestOutcome =
    | Responded
    | StatusOnly(code: nat, keepsRequest: bool)
    | Passed
    | Consumed
    | Errored
    | TimedOut(called: bool)

  /** What `response_modifying_handler` of a module comes back with. */
  datatype ResponseOutcome = Modified | ModifyErrored | ModifyTimedOut(called: bool)

  datatype Module = Module(onRequest: RequestOutcome, onResponse: ResponseOutcome)

  datatype Config = Config(modules: seq<Module>, metrics: bool, tracers: seq<Sender>)

  /** The configurations, the error configuration for each status, and whether the request can be replayed. */
  datatype Setup = Setup(main: Config, errors: map<nat, Config>, replayable: bool)

  /** The handlers of one module: 0 for the first configuration, 1 for the error configuration. */
  datatype Handler = Handler(stage: nat, index: nat)

  datatype Phase = RequestPhase | ResponsePhase

  datatype Event =
    | Before(h: Handler)                                    // `metric_data_before_handler`
    | After(h: Handler)                                     // `metric_data_after_handler`
    | StartSpan(to: Sender, h: Handler, phase: Phase)
    | EndSpan(to: Sender, h: Handler, phase: Phase, failed: bool)
    | Handle(h: Handler)                                    // `request_handler` is called
    | Modify(h: Handler)                                    // `response_modifying_handler` is called
    | Switch                                                // the error configuration takes over

  /** Which response the response pass starts with. */
  datatype Source = FromModule | FromStatus(code: nat) | InternalError | NotFound

  datatype Ending =
    | Finished(source: Source)
    | ResponseErrored(h: Handler)
    | ResponseTimedOut(h: Handler)
    | RequestTimedOut

  type Log = seq<Event>

  // ---------------------------------------------------------------------------------------------
  // What the pipeline does

  ghost function Starts(tracers: seq<Sender>, h: Handler, phase: Phase): Log {
    if tracers == [] then []
    else Starts(tracers[..|tracers| - 1], h, phase) + [StartSpan(tracers[|tracers| - 1], h, phase)]
  }

  ghost function Ends(tracers: seq<Sender>, h: Handler, phase: Phase, failed: bool): Log {
    if tracers == [] then []
    else Ends(tracers[..|tracers| - 1], h, phase, failed) + [EndSpan(tracers[|tracers| - 1], h, phase, failed)]
  }

  ghost function Span(c: Config, h: Handler, phase: Phase, body: Log, failed: bool): Log {
    Starts(c.tracers, h, phase) + body + Ends(c.tracers, h, phase, failed)
  }

  /** Popping the executed handlers for their metrics. */
  ghost function Afters(c: Config, executed: seq<Handler>): Log {
    if !c.metrics || executed == [] then []
    else [After(executed[|executed| - 1])] + Afters(c, executed[..|executed| - 1])
  }

  predicate RequestFailed(o: RequestOutcome) {
    o.Errored? || o.TimedOut?
  }

  predicate RequestCalled(o: RequestOutcome) {
    o.TimedOut? ==> o.called
  }

  predicate ResponseCalled(o: ResponseOutcome) {
    o.ModifyTimedOut? ==> o.called
  }

  /** The events up to the end of one request handler. */
  ghost function Entering(c: Config, h: Handler, o: RequestOutcome): Log {
    (if c.metrics then [Before(h)] else [])
    + Span(c, h, RequestPhase, if RequestCalled(o) then [Handle(h)] else [], RequestFailed(o))
  }

  ghost function Modifying(c: Config, h: Handler, o: ResponseOutcome): Log {
    Span(c, h, ResponsePhase, if ResponseCalled(o) then [Modify(h)] else [], !o.Modified?)
  }

  ghost predicate Known(c: Config, executed: seq<Handler>) {
    forall i :: 0 <= i < |executed| ==> executed[i].index < |c.modules|
  }

  /** The response pass. */
  ghost function Respond(c: Config, executed: seq<Handler>, source: Source): (Log, Ending)
    requires Known(c, executed)
  {
    if executed == [] then ([], Finished(source))
    else
      var n := |executed| - 1;
      var h := executed[n];
      var o := c.modules[h.index].onResponse;
      match o
      case Modified =>
        var (log, ending) := Respond(c, executed[..n], source);
        (Modifying(c, h, o) + (if c.metrics then [After(h)] else []) + log, ending)
      case ModifyErrored => (Modifying(c, h, o) + Afters(c, executed[..n]), ResponseErrored(h))
      case ModifyTimedOut(_) => (Modifying(c, h, o) + Afters(c, executed[..n]), ResponseTimedOut(h))
  }

  /** The first module from `i` on that does not just pass the request on. */
  function FirstStop(c: Config, i: nat): (k: nat)
    requires i <= |c.modules|
    ensures i <= k <= |c.modules|
    ensures forall j :: i <= j < k ==> c.modules[j].onRequest.Passed?
    ensures k < |c.modules| ==> !c.modules[k].onRequest.Passed?
    decreases |c.modules| - i
  {
    if i < |c.modules| && c.modules[i].onRequest.Passed? then FirstStop(c, i + 1) else i
  }

  /** How many modules of a configuration are entered. */
  function Count(c: Config): (n: nat)
    ensures n <= |c.modules|
  {
    if FirstStop(c, 0) < |c.modules| then FirstStop(c, 0) + 1 else |c.modules|
  }

  /** The outcome that ends the module loop; running out of modules is like a consumed request. */
  function Deciding(c: Config): (o: RequestOutcome)
    ensures !o.Passed?
  {
    if FirstStop(c, 0) < |c.modules| then c.modules[FirstStop(c, 0)].onRequest else Consumed
  }

  /** The error configuration that takes over after this outcome, if one does. */
  function TakesOver(s: Setup, o: RequestOutcome): Option<Config> {
    if o.StatusOnly? && o.code in s.errors && (o.keepsRequest || s.replayable) then Some(s.errors[o.code]) else None
  }

  /** The response that the response pass starts with after this outcome. */
  function SourceOf(o: RequestOutcome): Source {
    match o
    case Responded => FromModule
    case StatusOnly(code, _) => FromStatus(code)
    case Errored => InternalError
    case _ => NotFound
  }

  /** The first `n` handlers of a stage, in the order of their modules. */
  function FirstHandlers(stage: nat, n: nat): (hs: seq<Handler>)
    ensures |hs| == n
    ensures forall i :: 0 <= i < n ==> hs[i] == Handler(stage, i)
  {
    seq(n, i requires 0 <= i < n => Handler(stage, i))
  }

  lemma FirstHandlersSnoc(stage: nat, n: nat)
    ensures FirstHandlers(stage, n) + [Handler(stage, n)] == FirstHandlers(stage, n + 1)
  {
  }

  /** The events of the first `n` request handlers. */
  ghost function Entrances(c: Config, stage: nat, n: nat): Log
    requires n <= |c.modules|
  {
    if n == 0 then [] else Entrances(c, stage, n - 1) + Entering(c, Handler(stage, n - 1), c.modules[n - 1].onRequest)
  }

  /** What follows the module loop, if no error configuration takes over. */
  ghost function Closing(c: Config, stage: nat): (Log, Ending) {
    var done := FirstHandlers(stage, Count(c));
    if Deciding(c).TimedOut? then (Afters(c, done), RequestTimedOut)
    else Respond(c, done, SourceOf(Deciding(c)))
  }

  ghost function Stage(c: Config, stage: nat): (Log, Ending) {
    var (log, ending) := Closing(c, stage);
    (Entrances(c, stage, Count(c)) + log, ending)
  }

  /** The log when the error configuration takes over. */
  ghost function UpToSwitch(c: Config): Log {
    Entrances(c, 0, Count(c)) + Afters(c, FirstHandlers(0, Count(c))) + [Switch]
  }

  /** A whole run: the first module that does not pass the request on decides how it goes on. */
  ghost function Run(s: Setup): (Log, Ending) {
    var next := TakesOver(s, Deciding(s.main));
    if next.None? then Stage(s.main, 0)
    else
      var (log, ending) := Stage(next.value, 1);
      (UpToSwitch(s.main) + log, ending)
  }

  // ---------------------------------------------------------------------------------------------
  // The program

  method SendStarts(tracers: seq<Sender>, h: Handler, phase: Phase) returns (log: Log)
    ensures log == Starts(tracers, h, phase)
  {
    log := [];
    for i := 0 to |tracers|
      invariant log == Starts(tracers[..i], h, phase)
    {
      assert tracers[..i + 1][..i] == tracers[..i];
      log := log + [StartSpan(tracers[i], h, phase)];
    }
    assert tracers[..|tracers|] == tracers;
  }

  method SendEnds(tracers: seq<Sender>, h: Handler, phase: Phase, failed: bool) returns (log: Log)
    ensures log == Ends(tracers, h, phase, failed)
  {
    log := [];
    for i := 0 to |tracers|
      invariant log == Ends(tracers[..i], h, phase, failed)
    {
      assert tracers[..i + 1][..i] == tracers[..i];
      log := log + [EndSpan(tracers[i], h, phase, failed)];
    }
    assert tracers[..|tracers|] == tracers;
  }

  method PopForMetrics(c: Config, executed: seq<Handler>) returns (log: Log)
    ensures log == Afters(c, executed)
  {
    log := [];
    if c.metrics {
      var left := executed;
      assert log + Afters(c, left) == Afters(c, executed);
      while left != []
        invariant log + Afters(c, left) == Afters(c, executed)
        decreases |left|
      {
        var h := left[|left| - 1];
        assert log + [After(h)] + Afters(c, left[..|left| - 1]) == log + ([After(h)] + Afters(c, left[..|left| - 1]));
        left := left[..|left| - 1];
        log := log + [After(h)];
      }
      assert log + [] == log;
    }
  }

  method ExecuteResponseModifyingHandlers(c: Config, executed: seq<Handler>, source: Source)
    returns (log: Log, ending: Ending)
    requires Known(c, executed)
    ensures (log, ending) == Respond(c, executed, source)
  {
    log := [];
    var left := executed;
    assert log + Respond(c, left, source).0 == Respond(c, executed, source).0;
    while left != []
      invariant Known(c, left)
      invariant log + Respond(c, left, source).0 == Respond(c, executed, source).0
      invariant Respond(c, left, source).1 == Respond(c, executed, source).1
      decreases |left|
    {
      var h := left[|left| - 1];
      left := left[..|left| - 1];
      var o := c.modules[h.index].onResponse;
      var starts := SendStarts(c.tracers, h, ResponsePhase);
      var call := if ResponseCalled(o) then [Modify(h)] else [];
      var ends := SendEnds(c.tracers, h, ResponsePhase, !o.Modified?);
      var events := starts + call + ends;
      if !o.Modified? {
        var rest := PopForMetrics(c, left);
        Assoc(log, events, rest);
        log := log + events + rest;
        return log, if o.ModifyErrored? then ResponseErrored(h) else ResponseTimedOut(h);
      }
      var metrics := if c.metrics then [After(h)] else [];
      Assoc(log, events + metrics, Respond(c, left, source).0);
      log := log + (events + metrics);
    }
    assert log + [] == log;
    return log, Finished(source);
  }

  /** Metrics, spans and the call of one request handler. */
  method Enter(c: Config, h: Handler, o: RequestOutcome) returns (log: Log)
    ensures log == Entering(c, h, o)
  {
    log := [];
    if c.metrics {
      log := log + [Before(h)];
    }
    var starts := SendStarts(c.tracers, h, RequestPhase);
    var call := if RequestCalled(o) then [Handle(h)] else [];
    var ends := SendEnds(c.tracers, h, RequestPhase, RequestFailed(o));
    log := log + (starts + call + ends);
  }

  method HandleRequest(s: Setup) returns (log: Log, ending: Ending)
    ensures (log, ending) == Run(s)
  {
    log := [];
    var c, stage, i := s.main, 0, 0;
    var executed: seq<Handler> := [];
    while i < |c.modules|
      invariant InLoop(s, c, stage, i, executed, log)
      decreases 1 - stage, |c.modules| - i
    {
      var o := c.modules[i].onRequest;
      var events := Enter(c, Handler(stage, i), o);
      EnterInLoop(s, c, stage, i, executed, log);
      log := log + events;
      executed := executed + [Handler(stage, i)];
      i := i + 1;
      if o.Passed? {
        continue;
      }
      if stage == 0 && TakesOver(s, o).Some? {
        var rest := PopForMetrics(c, executed);
        SwitchStage(s, c, executed, log, rest);
        log := log + rest + [Switch];
        c, stage, i, executed := TakesOver(s, o).value, 1, 0, [];
      } else {
        log, ending := Conclude(s, c, stage, executed, log, o);
        return;
      }
    }
    NoMoreModules(s, c, stage, executed, log);
    log, ending := Conclude(s, c, stage, executed, log, Consumed);
  }

  /** The end of a run: a time-out, or the response pass. */
  method Conclude(s: Setup, c: Config, stage: nat, executed: seq<Handler>, soFar: Log, o: RequestOutcome)
    returns (log: Log, ending: Ending)
    requires Decided(s, c, stage, executed, soFar) && o == Deciding(c)
    requires stage == 0 ==> TakesOver(s, o).None?
    ensures (log, ending) == Run(s)
  {
    var rest;
    if o.TimedOut? {
      rest := PopForMetrics(c, executed);
      ending := RequestTimedOut;
    } else {
      rest, ending := ExecuteResponseModifyingHandlers(c, executed, SourceOf(o));
    }
    CloseStage(s, c, stage, executed, soFar, rest, ending);
    log := soFar + rest;
  }

  lemma NoMoreModules(s: Setup, c: Config, stage: nat, executed: seq<Handler>, log: Log)
    requires InLoop(s, c, stage, |c.modules|, executed, log)
    ensures Decided(s, c, stage, executed, log) && Deciding(c) == Consumed
  {
  }

  /** What the log holds when a stage begins. */
  ghost function Beginning(s: Setup, stage: nat): Log {
    if stage == 0 then [] else UpToSwitch(s.main)
  }

  /** The configuration is the first one, or the error configuration that took over. */
  ghost predicate InForce(s: Setup, c: Config, stage: nat) {
    (stage == 0 && c == s.main) || (stage == 1 && TakesOver(s, Deciding(s.main)) == Some(c))
  }

  /** `i` modules have been entered, and all of them passed the request on. */
  ghost predicate InLoop(s: Setup, c: Config, stage: nat, i: nat, executed: seq<Handler>, log: Log) {
    && InForce(s, c, stage) && i <= FirstStop(c, 0) <= |c.modules|
    && executed == FirstHandlers(stage, i)
    && log == Beginning(s, stage) + Entrances(c, stage, i)
  }

  /** The module that decides has been entered, or there are no more modules. */
  ghost predicate Decided(s: Setup, c: Config, stage: nat, executed: seq<Handler>, log: Log) {
    && InForce(s, c, stage)
    && executed == FirstHandlers(stage, Count(c))
    && log == Beginning(s, stage) + Entrances(c, stage, Count(c))
  }

  lemma EnterInLoop(s: Setup, c: Config, stage: nat, i: nat, executed: seq<Handler>, log: Log)
    requires InLoop(s, c, stage, i, executed, log) && i < |c.modules|
    ensures var h, o := Handler(stage, i), c.modules[i].onRequest;
            if o.Passed? then InLoop(s, c, stage, i + 1, executed + [h], log + Entering(c, h, o))
            else o == Deciding(c) && Decided(s, c, stage, executed + [h], log + Entering(c, h, o))
  {
    FirstHandlersSnoc(stage, i);
    Assoc(Beginning(s, stage), Entrances(c, stage, i), Entering(c, Handler(stage, i), c.modules[i].onRequest));
  }

  lemma CloseStage(s: Setup, c: Config, stage: nat, executed: seq<Handler>, log: Log, rest: Log, ending: Ending)
    requires Decided(s, c, stage, executed, log)
    requires (rest, ending) == Closing(c, stage)
    requires stage == 0 ==> TakesOver(s, Deciding(c)).None?
    ensures (log + rest, ending) == Run(s)
  {
    Assoc(Beginning(s, stage), Entrances(c, stage, Count(c)), rest);
    assert [] + Stage(c, stage).0 == Stage(c, stage).0;
  }

  lemma SwitchStage(s: Setup, c: Config, executed: seq<Handler>, log: Log, rest: Log)
    requires Decided(s, c, 0, executed, log) && rest == Afters(c, executed) && TakesOver(s, Deciding(c)).Some?
    ensures InLoop(s, TakesOver(s, Deciding(c)).value, 1, 0, [], log + rest + [Switch])
  {
    assert [] + Entrances(c, 0, Count(c)) == Entrances(c, 0, Count(c));
    assert UpToSwitch(c) + [] == UpToSwitch(c);
  }

  // ---------------------------------------------------------------------------------------------
  // At most one switch, and a response pass in exact reverse

  ghost function HandledBy(stage: nat): Event -> seq<Handler> {
    (e: Event) => if e.Handle? && e.h.stage == stage then [e.h] else []
  }

  ghost function ModifiedBy(e: Event): seq<Handler> {
    if e.Modify? then [e.h] else []
  }

  ghost function SwitchOf(e: Event): seq<Event> {
    if e.Switch? then [e] else []
  }

  /** The handlers of a stage whose request handler was called, in order. */
  ghost function Handled(log: Log, stage: nat): seq<Handler> {
    FlatMap(HandledBy(stage), log)
  }

  /** The handlers whose response handler was called, in order. */
  ghost function Modifications(log: Log): seq<Handler> {
    FlatMap(ModifiedBy, log)
  }

  ghost function Switches(log: Log): nat {
    |FlatMap(SwitchOf, log)|
  }

  lemma {:induction false} LogConcat(a: Log, b: Log, stage: nat)
    ensures Handled(a + b, stage) == Handled(a, stage) + Handled(b, stage)
    ensures Modifications(a + b) == Modifications(a) + Modifications(b)
    ensures Switches(a + b) == Switches(a) + Switches(b)
  {
    FlatMapConcat(HandledBy(stage), a, b);
    FlatMapConcat(ModifiedBy, a, b);
    FlatMapConcat(SwitchOf, a, b);
  }

  /** A log in which no handler runs and nothing is switched. */
  ghost predicate Idle(log: Log) {
    forall i :: 0 <= i < |log| ==> !log[i].Handle? && !log[i].Modify? && !log[i].Switch?
  }

  lemma {:induction false} IdleLog(log: Log, stage: nat)
    requires Idle(log)
    ensures Handled(log, stage) == [] && Modifications(log) == [] && Switches(log) == 0
  {
    FlatMapNone(HandledBy(stage), log);
    FlatMapNone(ModifiedBy, log);
    FlatMapNone(SwitchOf, log);
  }

  lemma {:induction false} SpansAreIdle(tracers: seq<Sender>, h: Handler, phase: Phase, failed: bool)
    ensures Idle(Starts(tracers, h, phase)) && Idle(Ends(tracers, h, phase, failed))
  {
    if tracers != [] { SpansAreIdle(tracers[..|tracers| - 1], h, phase, failed); }
  }

  lemma {:induction false} AftersAreIdle(c: Config, executed: seq<Handler>)
    ensures Idle(Afters(c, executed))
  {
    if executed != [] { AftersAreIdle(c, executed[..|executed| - 1]); }
  }

  lemma {:induction false} OneEvent(e: Event, stage: nat)
    ensures Handled([e], stage) == HandledBy(stage)(e)
    ensures Modifications([e]) == ModifiedBy(e)
    ensures Switches([e]) == |SwitchOf(e)|
  {
    FlatMapOne(HandledBy(stage), e);
    FlatMapOne(ModifiedBy, e);
    FlatMapOne(SwitchOf, e);
  }

  lemma {:induction false} SpanCounts(c: Config, h: Handler, phase: Phase, body: Log, failed: bool, stage: nat)
    ensures var log := Span(c, h, phase, body, failed);
            && Handled(log, stage) == Handled(body, stage)
            && Modifications(log) == Modifications(body) && Switches(log) == Switches(body)
  {
    var starts, ends := Starts(c.tracers, h, phase), Ends(c.tracers, h, phase, failed);
    SpansAreIdle(c.tracers, h, phase, failed);
    IdleLog(starts, stage);
    IdleLog(ends, stage);
    LogConcat(starts, body, stage);
    LogConcat(starts + body, ends, stage);
  }

  lemma {:induction false} EnteringCounts(c: Config, h: Handler, o: RequestOutcome, stage: nat)
    ensures var log := Entering(c, h, o);
            && Handled(log, stage) == (if RequestCalled(o) && h.stage == stage then [h] else [])
            && Modifications(log) == [] && Switches(log) == 0
  {
    var before: Log := if c.metrics then [Before(h)] else [];
    var body: Log := if RequestCalled(o) then [Handle(h)] else [];
    CallCounts(h, o, body, stage);
    AroundCounts(c, h, o, before, body, stage);
  }

  lemma {:induction false} AroundCounts(c: Config, h: Handler, o: RequestOutcome, before: Log, body: Log, stage: nat)
    requires Idle(before)
    ensures var log := before + Span(c, h, RequestPhase, body, RequestFailed(o));
            && Handled(log, stage) == Handled(body, stage)
            && Modifications(log) == Modifications(body) && Switches(log) == Switches(body)
  {
    SpanCounts(c, h, RequestPhase, body, RequestFailed(o), stage);
    IdleFirst(before, Span(c, h, RequestPhase, body, RequestFailed(o)), stage);
  }

  lemma {:induction false} CallCounts(h: Handler, o: RequestOutcome, body: Log, stage: nat)
    requires body == if RequestCalled(o) then [Handle(h)] else []
    ensures Handled(body, stage) == (if RequestCalled(o) && h.stage == stage then [h] else [])
    ensures Modifications(body) == [] && Switches(body) == 0
  {
    if RequestCalled(o) { OneEvent(Handle(h), stage); }
  }

  lemma {:induction false} IdleFirst(idle: Log, log: Log, stage: nat)
    requires Idle(idle)
    ensures Handled(idle + log, stage) == Handled(log, stage)
    ensures Modifications(idle + log) == Modifications(log)
    ensures Switches(idle + log) == Switches(log)
  {
    IdleLog(idle, stage);
    LogConcat(idle, log, stage);
  }

  lemma {:induction false} ModifyingCounts(c: Config, h: Handler, o: ResponseOutcome, stage: nat)
    ensures var log := Modifying(c, h, o);
            && Handled(log, stage) == []
            && Modifications(log) == (if ResponseCalled(o) then [h] else []) && Switches(log) == 0
  {
    var body: Log := if ResponseCalled(o) then [Modify(h)] else [];
    OneEvent(Modify(h), stage);
    SpanCounts(c, h, ResponsePhase, body, !o.Modified?, stage);
  }

  /** The log of a response pass through `executed`, from the last to the first. */
  ghost predicate Reversing(log: Log, ending: Ending, executed: seq<Handler>, stage: nat) {
    && Handled(log, stage) == [] && Switches(log) == 0
    && Modifications(log) <= Reverse(executed)
    && (ending.Finished? ==> Modifications(log) == Reverse(executed))
  }

  /** The response pass runs through the executed handlers in reverse, all of them unless one fails. */
  lemma {:induction false} RespondReverses(c: Config, executed: seq<Handler>, source: Source, stage: nat, log: Log, ending: Ending)
    requires Known(c, executed) && (log, ending) == Respond(c, executed, source)
    ensures Reversing(log, ending, executed, stage)
    decreases |executed|
  {
    if executed == [] {
      IdleLog(log, stage);
    } else {
      var n := |executed| - 1;
      var h := executed[n];
      var o := c.modules[h.index].onResponse;
      if o.Modified? {
        var rest := Respond(c, executed[..n], source).0;
        RespondReverses(c, executed[..n], source, stage, rest, ending);
        ModifiedReverses(c, h, rest, ending, executed, stage);
      } else {
        FailedCounts(c, h, o, executed[..n], stage);
      }
    }
  }

  lemma {:induction false} ModifiedReverses(c: Config, h: Handler, rest: Log, ending: Ending, executed: seq<Handler>, stage: nat)
    requires executed != [] && h == executed[|executed| - 1]
    requires Reversing(rest, ending, executed[..|executed| - 1], stage)
    ensures Reversing(Modifying(c, h, Modified) + (if c.metrics then [After(h)] else []) + rest, ending, executed, stage)
  {
    ModifiedCounts(c, h, rest, stage);
  }

  lemma {:induction false} FailedCounts(c: Config, h: Handler, o: ResponseOutcome, left: seq<Handler>, stage: nat)
    ensures var log := Modifying(c, h, o) + Afters(c, left);
            && Handled(log, stage) == [] && Modifications(log) <= [h] && Switches(log) == 0
  {
    ModifyingCounts(c, h, o, stage);
    AftersAreIdle(c, left);
    IdleBetween(Modifying(c, h, o), Afters(c, left), [], stage);
    assert Modifying(c, h, o) + Afters(c, left) + [] == Modifying(c, h, o) + Afters(c, left);
  }

  lemma {:induction false} ModifiedCounts(c: Config, h: Handler, rest: Log, stage: nat)
    ensures var log := Modifying(c, h, Modified) + (if c.metrics then [After(h)] else []) + rest;
            && Handled(log, stage) == Handled(rest, stage)
            && Modifications(log) == [h] + Modifications(rest) && Switches(log) == Switches(rest)
  {
    var after: Log := if c.metrics then [After(h)] else [];
    ModifyingCounts(c, h, Modified, stage);
    IdleBetween(Modifying(c, h, Modified), after, rest, stage);
  }

  lemma {:induction false} IdleBetween(a: Log, idle: Log, b: Log, stage: nat)
    requires Idle(idle)
    ensures Handled(a + idle + b, stage) == Handled(a, stage) + Handled(b, stage)
    ensures Modifications(a + idle + b) == Modifications(a) + Modifications(b)
    ensures Switches(a + idle + b) == Switches(a) + Switches(b)
  {
    IdleBehind(a, idle, stage);
    LogConcat(a + idle, b, stage);
  }

  lemma {:induction false} IdleBehind(log: Log, idle: Log, stage: nat)
    requires Idle(idle)
    ensures Handled(log + idle, stage) == Handled(log, stage)
    ensures Modifications(log + idle) == Modifications(log)
    ensures Switches(log + idle) == Switches(log)
  {
    IdleLog(idle, stage);
    LogConcat(log, idle, stage);
  }

  /** The handlers among the first `n` whose request handler was called: all but one for which the time was up. */
  ghost function CalledCount(c: Config, n: nat): nat
    requires n <= |c.modules|
  {
    if n > 0 && !RequestCalled(c.modules[n - 1].onRequest) then n - 1 else n
  }

  /** The log of entering handlers of `stage`, `k` of which were called; read for stage `other`. */
  ghost predicate EntranceLog(log: Log, stage: nat, other: nat, k: nat) {
    && Handled(log, other) == (if other == stage then FirstHandlers(stage, k) else [])
    && Modifications(log) == [] && Switches(log) == 0
  }

  lemma {:induction false} EntrancesHandle(c: Config, stage: nat, n: nat, other: nat, log: Log)
    requires n <= |c.modules| && log == Entrances(c, stage, n)
    requires forall j :: 0 <= j < n - 1 ==> c.modules[j].onRequest.Passed?
    ensures EntranceLog(log, stage, other, CalledCount(c, n))
    decreases n
  {
    if n == 0 {
      IdleLog(log, other);
    } else {
      var prev := Entrances(c, stage, n - 1);
      EntrancesHandle(c, stage, n - 1, other, prev);
      assert CalledCount(c, n - 1) == n - 1;
      LastEntrance(c, stage, n, other, prev, log);
    }
  }

  lemma {:induction false} LastEntrance(c: Config, stage: nat, n: nat, other: nat, prev: Log, log: Log)
    requires 0 < n <= |c.modules| && EntranceLog(prev, stage, other, n - 1)
    requires log == prev + Entering(c, Handler(stage, n - 1), c.modules[n - 1].onRequest)
    ensures EntranceLog(log, stage, other, CalledCount(c, n))
  {
    var o := c.modules[n - 1].onRequest;
    EnteringCounts(c, Handler(stage, n - 1), o, other);
    EntranceHandles(stage, n - 1, RequestCalled(o), prev, Entering(c, Handler(stage, n - 1), o), other);
  }

  lemma {:induction false} EntranceHandles(stage: nat, k: nat, called: bool, log: Log, entering: Log, other: nat)
    requires EntranceLog(log, stage, other, k)
    requires Handled(entering, other) == (if called && stage == other then [Handler(stage, k)] else [])
    requires Modifications(entering) == [] && Switches(entering) == 0
    ensures EntranceLog(log + entering, stage, other, if called then k + 1 else k)
  {
    LogConcat(log, entering, other);
    FirstHandlersSnoc(stage, k);
  }

  lemma {:induction false} ClosingReverses(c: Config, stage: nat, log: Log, ending: Ending)
    requires (log, ending) == Closing(c, stage)
    ensures Reversing(log, ending, FirstHandlers(stage, CalledCount(c, Count(c))), stage)
  {
    var done := FirstHandlers(stage, Count(c));
    if Deciding(c).TimedOut? {
      AftersAreIdle(c, done);
      IdleLog(Afters(c, done), stage);
    } else {
      assert Count(c) > 0 ==> c.modules[Count(c) - 1].onRequest.Passed? || c.modules[Count(c) - 1].onRequest == Deciding(c);
      RespondReverses(c, done, SourceOf(Deciding(c)), stage, log, ending);
    }
  }

  lemma {:induction false} StageReverses(c: Config, stage: nat)
    ensures var (log, ending) := Stage(c, stage); var called := FirstHandlers(stage, CalledCount(c, Count(c)));
            && Handled(log, stage) == called && Switches(log) == 0
            && Modifications(log) <= Reverse(called)
            && (ending.Finished? ==> Modifications(log) == Reverse(called))
  {
    var entrances := Entrances(c, stage, Count(c));
    var (log, ending) := Closing(c, stage);
    EntrancesHandle(c, stage, Count(c), stage, entrances);
    ClosingReverses(c, stage, log, ending);
    LogConcat(entrances, log, stage);
  }

  lemma {:induction false} UpToSwitchCounts(c: Config)
    ensures var log := UpToSwitch(c);
            Handled(log, 1) == [] && Modifications(log) == [] && Switches(log) == 1
  {
    var entrances, done := Entrances(c, 0, Count(c)), FirstHandlers(0, Count(c));
    EntrancesHandle(c, 0, Count(c), 1, entrances);
    AftersAreIdle(c, done);
    OneEvent(Switch, 1);
    IdleBetween(entrances, Afters(c, done), [Switch], 1);
  }

  /** The configuration in force at the end, and its stage. */
  ghost function FinalConfig(s: Setup): Config {
    var next := TakesOver(s, Deciding(s.main));
    if next.Some? then next.value else s.main
  }

  ghost function FinalStage(s: Setup): nat {
    if TakesOver(s, Deciding(s.main)).Some? then 1 else 0
  }

  /**
  For every list of modules and every outcome of every handler: at most one switch, and the
  response-modifying handlers that run are those of the final configuration, each at most once, in
  exact reverse of the order in which their request handlers ran, and all of them if none fails.
  */
  lemma {:induction false} ResponsePassIsReversed(s: Setup)
    ensures var (log, ending) := Run(s); var final := FinalStage(s);
            && Switches(log) == final <= 1
            && Handled(log, final) == FirstHandlers(final, |Handled(log, final)|)
            && Modifications(log) <= Reverse(Handled(log, final))
            && (ending.Finished? ==> Modifications(log) == Reverse(Handled(log, final)))
  {
    StageReverses(FinalConfig(s), FinalStage(s));
    if FinalStage(s) == 1 {
      UpToSwitchCounts(s.main);
      AfterSwitch(UpToSwitch(s.main), Stage(FinalConfig(s), 1).0);
    }
  }

  lemma {:induction false} AfterSwitch(front: Log, rest: Log)
    requires Handled(front, 1) == [] && Modifications(front) == [] && Switches(front) == 1
    ensures Handled(front + rest, 1) == Handled(rest, 1) && Modifications(front + rest) == Modifications(rest)
    ensures Switches(front + rest) == 1 + Switches(rest)
  {
    LogConcat(front, rest, 1);
  }

  // ---------------------------------------------------------------------------------------------
  // Metrics

  ghost function BeforeOf(x: Handler): Event -> Log {
    (e: Event) => if e == Before(x) then [e] else []
  }

  ghost function AfterOf(x: Handler): Event -> Log {
    (e: Event) => if e == After(x) then [e] else []
  }

  /** How often a handler was asked for metrics before, and after. */
  ghost function Entered(x: Handler, log: Log): nat {
    |FlatMap(BeforeOf(x), log)|
  }

  ghost function Left(x: Handler, log: Log): nat {
    |FlatMap(AfterOf(x), log)|
  }

  lemma {:induction false} MetricsConcat(x: Handler, a: Log, b: Log)
    ensures Entered(x, a + b) == Entered(x, a) + Entered(x, b)
    ensures Left(x, a + b) == Left(x, a) + Left(x, b)
  {
    FlatMapConcat(BeforeOf(x), a, b);
    FlatMapConcat(AfterOf(x), a, b);
  }

  ghost predicate NoMetrics(log: Log) {
    forall i :: 0 <= i < |log| ==> !log[i].Before? && !log[i].After?
  }

  lemma {:induction false} NoMetricsLog(x: Handler, log: Log)
    requires NoMetrics(log)
    ensures Entered(x, log) == 0 && Left(x, log) == 0
  {
    FlatMapNone(BeforeOf(x), log);
    FlatMapNone(AfterOf(x), log);
  }

  lemma {:induction false} SpanHasNoMetrics(c: Config, h: Handler, phase: Phase, body: Log, failed: bool)
    requires NoMetrics(body)
    ensures NoMetrics(Span(c, h, phase, body, failed))
  {
    TracersHaveNoMetrics(c.tracers, h, phase, failed);
  }

  lemma {:induction false} TracersHaveNoMetrics(tracers: seq<Sender>, h: Handler, phase: Phase, failed: bool)
    ensures NoMetrics(Starts(tracers, h, phase)) && NoMetrics(Ends(tracers, h, phase, failed))
  {
    if tracers != [] { TracersHaveNoMetrics(tracers[..|tracers| - 1], h, phase, failed); }
  }

  /** How often a handler is among those executed, if metrics are on. */
  ghost function Owed(x: Handler, c: Config, executed: seq<Handler>): nat {
    if !c.metrics || executed == [] then 0
    else Owed(x, c, executed[..|executed| - 1]) + (if executed[|executed| - 1] == x then 1 else 0)
  }

  lemma {:induction false} OwedSnoc(x: Handler, c: Config, executed: seq<Handler>, h: Handler)
    ensures Owed(x, c, executed + [h]) == Owed(x, c, executed) + (if c.metrics && h == x then 1 else 0)
  {
    assert (executed + [h])[..|executed|] == executed;
  }

  lemma {:induction false} OneMetric(x: Handler, e: Event)
    ensures Entered(x, [e]) == (if e == Before(x) then 1 else 0)
    ensures Left(x, [e]) == (if e == After(x) then 1 else 0)
  {
    FlatMapOne(BeforeOf(x), e);
    FlatMapOne(AfterOf(x), e);
  }

  lemma {:induction false} AftersMetrics(x: Handler, c: Config, executed: seq<Handler>)
    ensures Entered(x, Afters(c, executed)) == 0 && Left(x, Afters(c, executed)) == Owed(x, c, executed)
  {
    if c.metrics && executed != [] {
      var n := |executed| - 1;
      AftersMetrics(x, c, executed[..n]);
      OneMetric(x, After(executed[n]));
      MetricsConcat(x, [After(executed[n])], Afters(c, executed[..n]));
    }
  }

  /** The handler that fails in the response pass is the one whose call is missing. */
  ghost function Missing(x: Handler, c: Config, ending: Ending): nat {
    if c.metrics && (ending == ResponseErrored(x) || ending == ResponseTimedOut(x)) then 1 else 0
  }

  lemma {:induction false} ModifyingMetrics(x: Handler, c: Config, h: Handler, o: ResponseOutcome)
    ensures Entered(x, Modifying(c, h, o)) == 0 && Left(x, Modifying(c, h, o)) == 0
  {
    SpanHasNoMetrics(c, h, ResponsePhase, if ResponseCalled(o) then [Modify(h)] else [], !o.Modified?);
    NoMetricsLog(x, Modifying(c, h, o));
  }

  lemma {:induction false} EnteringMetrics(x: Handler, c: Config, h: Handler, o: RequestOutcome)
    ensures Entered(x, Entering(c, h, o)) == (if c.metrics && h == x then 1 else 0) && Left(x, Entering(c, h, o)) == 0
  {
    var body: Log := if RequestCalled(o) then [Handle(h)] else [];
    var span := Span(c, h, RequestPhase, body, RequestFailed(o));
    SpanHasNoMetrics(c, h, RequestPhase, body, RequestFailed(o));
    NoMetricsLog(x, span);
    if c.metrics {
      OneMetric(x, Before(h));
      MetricsConcat(x, [Before(h)], span);
    } else {
      assert [] + span == span;
    }
  }

  lemma {:induction false} ModifiedMetrics(x: Handler, c: Config, h: Handler, rest: Log)
    ensures var log := Modifying(c, h, Modified) + (if c.metrics then [After(h)] else []) + rest;
            && Entered(x, log) == Entered(x, rest)
            && Left(x, log) == Left(x, rest) + (if c.metrics && h == x then 1 else 0)
  {
    var modifying := Modifying(c, h, Modified);
    ModifyingMetrics(x, c, h, Modified);
    if c.metrics {
      OneMetric(x, After(h));
      MetricsConcat(x, modifying, [After(h)]);
      MetricsConcat(x, modifying + [After(h)], rest);
    } else {
      assert modifying + [] == modifying;
      MetricsConcat(x, modifying, rest);
    }
  }

  /** `log` enters nothing and leaves what is owed for `executed`, but for what `ending` misses. */
  ghost predicate Settles(x: Handler, c: Config, log: Log, ending: Ending, executed: seq<Handler>) {
    Entered(x, log) == 0 && Left(x, log) + Missing(x, c, ending) == Owed(x, c, executed)
  }

  lemma {:induction false} RespondMetrics(x: Handler, c: Config, executed: seq<Handler>, source: Source)
    requires Known(c, executed)
    ensures var (log, ending) := Respond(c, executed, source); Settles(x, c, log, ending, executed)
  {
    if executed != [] {
      var n := |executed| - 1;
      var h := executed[n];
      var o := c.modules[h.index].onResponse;
      assert executed == executed[..n] + [h];
      if o.Modified? {
        RespondMetrics(x, c, executed[..n], source);
        var (log, ending) := Respond(c, executed[..n], source);
        ModifiedSettles(x, c, h, log, ending, executed[..n]);
      } else {
        FailedSettles(x, c, h, o, Respond(c, executed, source).1, executed[..n]);
      }
    }
  }

  lemma {:induction false} ModifiedSettles(x: Handler, c: Config, h: Handler, log: Log, ending: Ending, left: seq<Handler>)
    requires Settles(x, c, log, ending, left)
    ensures Settles(x, c, Modifying(c, h, Modified) + (if c.metrics then [After(h)] else []) + log, ending, left + [h])
  {
    ModifiedMetrics(x, c, h, log);
    OwedSnoc(x, c, left, h);
  }

  lemma {:induction false} FailedSettles(x: Handler, c: Config, h: Handler, o: ResponseOutcome, ending: Ending, left: seq<Handler>)
    requires ending == ResponseErrored(h) || ending == ResponseTimedOut(h)
    ensures Settles(x, c, Modifying(c, h, o) + Afters(c, left), ending, left + [h])
  {
    FailedMetrics(x, c, h, o, left);
    OwedSnoc(x, c, left, h);
  }

  lemma {:induction false} FailedMetrics(x: Handler, c: Config, h: Handler, o: ResponseOutcome, left: seq<Handler>)
    ensures var log := Modifying(c, h, o) + Afters(c, left);
            Entered(x, log) == 0 && Left(x, log) == Owed(x, c, left)
  {
    ModifyingMetrics(x, c, h, o);
    AftersMetrics(x, c, left);
    MetricsConcat(x, Modifying(c, h, o), Afters(c, left));
  }

  lemma {:induction false} EntrancesMetrics(x: Handler, c: Config, stage: nat, n: nat)
    requires n <= |c.modules|
    ensures Entered(x, Entrances(c, stage, n)) == Owed(x, c, FirstHandlers(stage, n)) && Left(x, Entrances(c, stage, n)) == 0
  {
    if n > 0 {
      EntrancesMetrics(x, c, stage, n - 1);
      EntranceMetrics(x, c, Handler(stage, n - 1), c.modules[n - 1].onRequest, Entrances(c, stage, n - 1), FirstHandlers(stage, n - 1));
      FirstHandlersSnoc(stage, n - 1);
    }
  }

  lemma {:induction false} EntranceMetrics(x: Handler, c: Config, h: Handler, o: RequestOutcome, log: Log, hs: seq<Handler>)
    requires Entered(x, log) == Owed(x, c, hs) && Left(x, log) == 0
    ensures Entered(x, log + Entering(c, h, o)) == Owed(x, c, hs + [h]) && Left(x, log + Entering(c, h, o)) == 0
  {
    EnteringMetrics(x, c, h, o);
    MetricsConcat(x, log, Entering(c, h, o));
    OwedSnoc(x, c, hs, h);
  }

  lemma {:induction false} StageMetrics(x: Handler, c: Config, stage: nat)
    ensures var (log, ending) := Stage(c, stage); Left(x, log) + Missing(x, c, ending) == Entered(x, log)
  {
    var done := FirstHandlers(stage, Count(c));
    EntrancesMetrics(x, c, stage, Count(c));
    if Deciding(c).TimedOut? {
      AftersMetrics(x, c, done);
    } else {
      RespondMetrics(x, c, done, SourceOf(Deciding(c)));
    }
    MetricsConcat(x, Entrances(c, stage, Count(c)), Closing(c, stage).0);
  }

  lemma {:induction false} UpToSwitchMetrics(x: Handler, c: Config)
    ensures Left(x, UpToSwitch(c)) == Entered(x, UpToSwitch(c))
  {
    var entrances, done := Entrances(c, 0, Count(c)), FirstHandlers(0, Count(c));
    EntrancesMetrics(x, c, 0, Count(c));
    AftersMetrics(x, c, done);
    OneMetric(x, Switch);
    MetricsConcat(x, entrances, Afters(c, done));
    MetricsConcat(x, entrances + Afters(c, done), [Switch]);
  }

  /**
  On every run each before-metrics call is matched by one after-metrics call, except that when a
  response-modifying handler fails or times out, exactly that handler's call is missing.  Whether
  metrics are on is read from the configuration in force, so the two configurations may differ.
  */
  lemma {:induction false} MetricsAreBracketed(s: Setup, x: Handler)
    ensures var (log, ending) := Run(s);
            Left(x, log) + Missing(x, FinalConfig(s), ending) == Entered(x, log)
  {
    StageMetrics(x, FinalConfig(s), FinalStage(s));
    if FinalStage(s) == 1 {
      UpToSwitchMetrics(x, s.main);
      MetricsConcat(x, UpToSwitch(s.main), Stage(FinalConfig(s), 1).0);
    }
  }

  // ---------------------------------------------------------------------------------------------
  // Traces

  ghost function SpanEvents(to: Sender): Event -> Log {
    (e: Event) => if (e.StartSpan? || e.EndSpan?) && e.to == to then [e] else []
  }

  /** What one trace sender is sent. */
  ghost function Sent(to: Sender, log: Log): Log {
    FlatMap(SpanEvents(to), log)
  }

  /** Adjacent pairs of the start and the end of one span. */
  ghost predicate Paired(log: Log)
    decreases |log|
  {
    if log == [] then true
    else
      && |log| >= 2 && log[0].StartSpan? && log[1].EndSpan?
      && log[0].h == log[1].h && log[0].phase == log[1].phase
      && Paired(log[2..])
  }

  lemma {:induction false} PairedConcat(a: Log, b: Log)
    requires Paired(a) && Paired(b)
    ensures Paired(a + b)
    decreases |a|
  {
    if a == [] {
      assert a + b == b;
    } else {
      PairedConcat(a[2..], b);
      assert (a + b)[2..] == a[2..] + b;
    }
  }

  lemma {:induction false} StartsSent(tracers: seq<Sender>, h: Handler, phase: Phase, to: Sender)
    requires Distinct(tracers)
    ensures Sent(to, Starts(tracers, h, phase)) == if to in tracers then [StartSpan(to, h, phase)] else []
  {
    if tracers != [] {
      var n := |tracers| - 1;
      DistinctSnoc(tracers, to);
      StartsSent(tracers[..n], h, phase, to);
      FlatMapSnoc(SpanEvents(to), Starts(tracers[..n], h, phase), StartSpan(tracers[n], h, phase));
    }
  }

  lemma {:induction false} EndsSent(tracers: seq<Sender>, h: Handler, phase: Phase, failed: bool, to: Sender)
    requires Distinct(tracers)
    ensures Sent(to, Ends(tracers, h, phase, failed)) == if to in tracers then [EndSpan(to, h, phase, failed)] else []
  {
    if tracers != [] {
      var n := |tracers| - 1;
      DistinctSnoc(tracers, to);
      EndsSent(tracers[..n], h, phase, failed, to);
      FlatMapSnoc(SpanEvents(to), Ends(tracers[..n], h, phase, failed), EndSpan(tracers[n], h, phase, failed));
    }
  }

  lemma DistinctSnoc(tracers: seq<Sender>, to: Sender)
    requires tracers != [] && Distinct(tracers)
    ensures var n := |tracers| - 1;
            && Distinct(tracers[..n])
            && (to in tracers <==> to in tracers[..n] || to == tracers[n])
            && (to == tracers[n] ==> to !in tracers[..n])
  {
    var n := |tracers| - 1;
    assert tracers == tracers[..n] + [tracers[n]];
  }

  ghost predicate NoSpans(log: Log) {
    forall i :: 0 <= i < |log| ==> !log[i].StartSpan? && !log[i].EndSpan?
  }

  lemma {:induction false} SpanSent(c: Config, h: Handler, phase: Phase, body: Log, failed: bool, to: Sender)
    requires Distinct(c.tracers) && NoSpans(body)
    ensures Paired(Sent(to, Span(c, h, phase, body, failed)))
  {
    StartsSent(c.tracers, h, phase, to);
    EndsSent(c.tracers, h, phase, failed, to);
    SentAround(to, Starts(c.tracers, h, phase), body, Ends(c.tracers, h, phase, failed));
    if to in c.tracers {
      OnePair(to, h, phase, failed);
    }
  }

  lemma {:induction false} SentAround(to: Sender, a: Log, body: Log, b: Log)
    requires NoSpans(body)
    ensures Sent(to, a + body + b) == Sent(to, a) + Sent(to, b)
  {
    FlatMapNone(SpanEvents(to), body);
    FlatMapConcat(SpanEvents(to), a, body);
    FlatMapConcat(SpanEvents(to), a + body, b);
  }

  lemma OnePair(to: Sender, h: Handler, phase: Phase, failed: bool)
    ensures Paired([StartSpan(to, h, phase)] + [EndSpan(to, h, phase, failed)])
  {
    assert ([StartSpan(to, h, phase)] + [EndSpan(to, h, phase, failed)])[2..] == [];
  }

  lemma {:induction false} PairedJoin(to: Sender, a: Log, b: Log)
    requires Paired(Sent(to, a)) && Paired(Sent(to, b))
    ensures Paired(Sent(to, a + b))
  {
    FlatMapConcat(SpanEvents(to), a, b);
    PairedConcat(Sent(to, a), Sent(to, b));
  }

  lemma {:induction false} NoSpansSent(to: Sender, log: Log)
    requires NoSpans(log)
    ensures Paired(Sent(to, log))
  {
    FlatMapNone(SpanEvents(to), log);
  }

  lemma {:induction false} AftersHaveNoSpans(c: Config, executed: seq<Handler>)
    ensures NoSpans(Afters(c, executed))
  {
    if executed != [] { AftersHaveNoSpans(c, executed[..|executed| - 1]); }
  }

  lemma {:induction false} RespondPaired(c: Config, executed: seq<Handler>, source: Source, to: Sender)
    requires Known(c, executed) && Distinct(c.tracers)
    ensures Paired(Sent(to, Respond(c, executed, source).0))
  {
    if executed != [] {
      var n := |executed| - 1;
      var h := executed[n];
      var o := c.modules[h.index].onResponse;
      SpanSent(c, h, ResponsePhase, if ResponseCalled(o) then [Modify(h)] else [], !o.Modified?, to);
      if o.Modified? {
        var after: Log := if c.metrics then [After(h)] else [];
        RespondPaired(c, executed[..n], source, to);
        NoSpansSent(to, after);
        PairedJoin(to, Modifying(c, h, o), after);
        PairedJoin(to, Modifying(c, h, o) + after, Respond(c, executed[..n], source).0);
      } else {
        AftersHaveNoSpans(c, executed[..n]);
        NoSpansSent(to, Afters(c, executed[..n]));
        PairedJoin(to, Modifying(c, h, o), Afters(c, executed[..n]));
      }
    }
  }

  lemma {:induction false} AftersPaired(c: Config, executed: seq<Handler>, to: Sender)
    ensures Paired(Sent(to, Afters(c, executed))) && Paired(Sent(to, Afters(c, executed) + [Switch]))
  {
    AftersHaveNoSpans(c, executed);
    NoSpansSent(to, Afters(c, executed));
    NoSpansSent(to, Afters(c, executed) + [Switch]);
  }

  ghost predicate DistinctTracers(s: Setup) {
    Distinct(s.main.tracers) && forall code :: code in s.errors ==> Distinct(s.errors[code].tracers)
  }

  lemma {:induction false} EnteringPaired(c: Config, h: Handler, o: RequestOutcome, to: Sender)
    requires Distinct(c.tracers)
    ensures Paired(Sent(to, Entering(c, h, o)))
  {
    var before: Log := if c.metrics then [Before(h)] else [];
    var span := Span(c, h, RequestPhase, if RequestCalled(o) then [Handle(h)] else [], RequestFailed(o));
    SpanSent(c, h, RequestPhase, if RequestCalled(o) then [Handle(h)] else [], RequestFailed(o), to);
    NoSpansSent(to, before);
    PairedJoin(to, before, span);
  }

  lemma {:induction false} EntrancesPaired(c: Config, stage: nat, n: nat, log: Log, to: Sender)
    requires Distinct(c.tracers) && n <= |c.modules| && log == Entrances(c, stage, n)
    ensures Paired(Sent(to, log))
  {
    if n == 0 {
      NoSpansSent(to, log);
    } else {
      var prev := Entrances(c, stage, n - 1);
      EntrancesPaired(c, stage, n - 1, prev, to);
      EntrancePaired(c, Handler(stage, n - 1), c.modules[n - 1].onRequest, prev, to);
    }
  }

  lemma {:induction false} EntrancePaired(c: Config, h: Handler, o: RequestOutcome, log: Log, to: Sender)
    requires Distinct(c.tracers) && Paired(Sent(to, log))
    ensures Paired(Sent(to, log + Entering(c, h, o)))
  {
    EnteringPaired(c, h, o, to);
    PairedJoin(to, log, Entering(c, h, o));
  }

  lemma {:induction false} StagePaired(c: Config, stage: nat, to: Sender)
    requires Distinct(c.tracers)
    ensures Paired(Sent(to, Stage(c, stage).0))
  {
    var done := FirstHandlers(stage, Count(c));
    EntrancesPaired(c, stage, Count(c), Entrances(c, stage, Count(c)), to);
    if Deciding(c).TimedOut? {
      AftersPaired(c, done, to);
    } else {
      RespondPaired(c, done, SourceOf(Deciding(c)), to);
    }
    PairedJoin(to, Entrances(c, stage, Count(c)), Closing(c, stage).0);
  }

  lemma {:induction false} UpToSwitchPaired(c: Config, to: Sender)
    requires Distinct(c.tracers)
    ensures Paired(Sent(to, UpToSwitch(c)))
  {
    var entrances, done := Entrances(c, 0, Count(c)), FirstHandlers(0, Count(c));
    EntrancesPaired(c, 0, Count(c), Entrances(c, 0, Count(c)), to);
    AftersPaired(c, done, to);
    PairedJoin(to, entrances, Afters(c, done) + [Switch]);
    Assoc(entrances, Afters(c, done), [Switch]);
  }

  /** On every run and every path, each trace sender is sent only adjacent matching pairs of start and end. */
  lemma {:induction false} TracesArePaired(s: Setup, to: Sender)
    requires DistinctTracers(s)
    ensures Paired(Sent(to, Run(s).0))
  {
    StagePaired(FinalConfig(s), FinalStage(s), to);
    if FinalStage(s) == 1 {
      UpToSwitchPaired(s.main, to);
      PairedJoin(to, UpToSwitch(s.main), Stage(FinalConfig(s), 1).0);
    }
  }
}
