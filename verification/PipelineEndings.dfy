/**
How a run of the request pipeline ends, read off the outcomes of its modules: which response it ends
with, which handler fails it, when the error configuration takes over, which handlers are called, and
what the spans say.
*/
module PipelineEndings {
  import opened Wrappers
  import opened Sequences
  import opened Pipelines

  // ---------------------------------------------------------------------------------------------
  // Which configuration, and which module

  /** The first `k` modules pass the request on. */
  ghost predicate Pass(c: Config, k: int) {
    0 <= k <= |c.modules| && forall j :: 0 <= j < k ==> c.modules[j].onRequest.Passed?
  }

  /** Module `k` is the first that does not pass the request on. */
  ghost predicate StopsAt(c: Config, k: int) {
    Pass(c, k) && k < |c.modules| && !c.modules[k].onRequest.Passed?
  }

  lemma {:induction false} StopIs(c: Config, k: int)
    ensures StopsAt(c, k) ==> Count(c) == k + 1 && Deciding(c) == c.modules[k].onRequest
    ensures Pass(c, |c.modules|) ==> Count(c) == |c.modules| && Deciding(c) == Consumed
  {
    var n := FirstStop(c, 0);
    assert StopsAt(c, k) ==> n == k;
  }

  /** Either the first modules or all of them have passed the request on. */
  lemma StopOrPass(c: Config)
    ensures Pass(c, |c.modules|) || exists k :: StopsAt(c, k)
  {
    var n := FirstStop(c, 0);
    if n < |c.modules| { assert StopsAt(c, n); }
  }

  /** Module `k` of the first configuration gives only a status, that status has an error configuration, and the request is at hand. */
  ghost predicate SwitchesAt(s: Setup, k: int) {
    && StopsAt(s.main, k)
    && var o := s.main.modules[k].onRequest;
       o.StatusOnly? && o.code in s.errors && (o.keepsRequest || s.replayable)
  }

  /** The configuration whose modules give the response. */
  ghost predicate InCharge(s: Setup, c: Config, stage: nat) {
    || (stage == 0 && c == s.main && forall k :: !SwitchesAt(s, k))
    || (stage == 1 && exists k :: SwitchesAt(s, k) && c == s.errors[s.main.modules[k].onRequest.code])
  }

  lemma {:induction false} SwitchIs(s: Setup)
    ensures forall k :: SwitchesAt(s, k) ==> TakesOver(s, Deciding(s.main)) == Some(s.errors[s.main.modules[k].onRequest.code])
    ensures TakesOver(s, Deciding(s.main)).Some? ==> exists k :: SwitchesAt(s, k)
  {
    forall k | SwitchesAt(s, k)
      ensures TakesOver(s, Deciding(s.main)) == Some(s.errors[s.main.modules[k].onRequest.code])
    {
      StopIs(s.main, k);
    }
    if TakesOver(s, Deciding(s.main)).Some? {
      StopOrPass(s.main);
      StopIs(s.main, 0);
      var k :| StopsAt(s.main, k);
      StopIs(s.main, k);
      assert SwitchesAt(s, k);
    }
  }

  lemma {:induction false} InChargeIs(s: Setup, c: Config, stage: nat)
    requires InCharge(s, c, stage)
    ensures c == FinalConfig(s) && stage == FinalStage(s) && Run(s).1 == Stage(c, stage).1
  {
    SwitchIs(s);
  }

  /** The error configuration takes over, once, exactly when a module of the first one calls for it. */
  lemma {:induction false} SwitchIff(s: Setup)
    ensures Switches(Run(s).0) == 1 <==> exists k :: SwitchesAt(s, k)
    ensures Switches(Run(s).0) <= 1
  {
    SwitchIs(s);
    ResponsePassIsReversed(s);
  }

  // ---------------------------------------------------------------------------------------------
  // The ending

  /** The first `n` response handlers do not fail. */
  ghost predicate Succeed(c: Config, n: int) {
    0 <= n <= |c.modules| && forall i :: 0 <= i < n ==> c.modules[i].onResponse.Modified?
  }

  /** Of the first `n` response handlers, `i` is the last that fails, and so the first to fail in the reverse pass. */
  ghost predicate FailsFirst(c: Config, n: int, i: int) {
    0 <= i < n <= |c.modules| && !c.modules[i].onResponse.Modified? && forall j :: i < j < n ==> c.modules[j].onResponse.Modified?
  }

  ghost predicate FailsWith(c: Config, stage: nat, i: int, ending: Ending)
    requires 0 <= i < |c.modules|
  {
    match c.modules[i].onResponse
    case Modified => false
    case ModifyErrored => ending == ResponseErrored(Handler(stage, i))
    case ModifyTimedOut(_) => ending == ResponseTimedOut(Handler(stage, i))
  }

  lemma FrontHandlers(stage: nat, n: nat)
    requires n > 0
    ensures FirstHandlers(stage, n)[..n - 1] == FirstHandlers(stage, n - 1)
  {
  }

  lemma {:induction false} RespondEnds(c: Config, stage: nat, n: nat, source: Source)
    requires n <= |c.modules|
    ensures var ending := Respond(c, FirstHandlers(stage, n), source).1;
            && (Succeed(c, n) ==> ending == Finished(source))
            && forall i :: FailsFirst(c, n, i) ==> FailsWith(c, stage, i, ending)
    decreases n
  {
    if n > 0 {
      FrontHandlers(stage, n);
      RespondEnds(c, stage, n - 1, source);
      if c.modules[n - 1].onResponse.Modified? {
        forall i | FailsFirst(c, n, i) ensures FailsFirst(c, n - 1, i) {
        }
      }
    }
  }

  /** The response that goes with the outcome of the module that stopped. */
  ghost predicate Expected(o: RequestOutcome, ending: Ending) {
    match o
    case Responded => ending == Finished(FromModule)
    case StatusOnly(code, _) => ending == Finished(FromStatus(code))
    case Errored => ending == Finished(InternalError)
    case Consumed => ending == Finished(NotFound)
    case TimedOut(_) => ending == RequestTimedOut
    case Passed => false
  }

  /**
  The run ends as the module that stops the configuration in charge says: with its response, with its
  status, with an internal error, not found, or with the time-out; and not found if every module passes
  the request on.  A response handler that fails ends it instead, unless the time was up.
  */
  lemma {:induction false} EndsAsModulesSay(s: Setup, c: Config, stage: nat)
    requires InCharge(s, c, stage)
    ensures var ending := Run(s).1; var n := |c.modules|;
            && (forall k :: StopsAt(c, k) && (Succeed(c, k + 1) || c.modules[k].onRequest.TimedOut?) ==>
                  Expected(c.modules[k].onRequest, ending))
            && (forall k, i :: StopsAt(c, k) && !c.modules[k].onRequest.TimedOut? && FailsFirst(c, k + 1, i) ==>
                  FailsWith(c, stage, i, ending))
            && (Pass(c, n) && Succeed(c, n) ==> ending == Finished(NotFound))
            && (forall i :: Pass(c, n) && FailsFirst(c, n, i) ==> FailsWith(c, stage, i, ending))
  {
    InChargeIs(s, c, stage);
    var ending := Run(s).1;
    forall k | StopsAt(c, k)
      ensures Succeed(c, k + 1) || c.modules[k].onRequest.TimedOut? ==> Expected(c.modules[k].onRequest, ending)
      ensures !c.modules[k].onRequest.TimedOut? ==> forall i :: FailsFirst(c, k + 1, i) ==> FailsWith(c, stage, i, ending)
    {
      StopIs(c, k);
      StageEnds(c, stage, k + 1, c.modules[k].onRequest, ending);
    }
    if Pass(c, |c.modules|) {
      StopIs(c, 0);
      StageEnds(c, stage, |c.modules|, Consumed, ending);
    }
  }

  lemma {:induction false} StageEnds(c: Config, stage: nat, n: nat, o: RequestOutcome, ending: Ending)
    requires n == Count(c) && o == Deciding(c) && ending == Stage(c, stage).1
    ensures Succeed(c, n) || o.TimedOut? ==> Expected(o, ending)
    ensures !o.TimedOut? ==> forall i :: FailsFirst(c, n, i) ==> FailsWith(c, stage, i, ending)
  {
    if !o.TimedOut? { RespondEnds(c, stage, n, SourceOf(o)); }
  }

  // ---------------------------------------------------------------------------------------------
  // Which handlers are called

  /** The handlers called in this stage are those of the first `n` modules, in order. */
  ghost predicate Calls(log: Log, stage: nat, n: nat) {
    |Handled(log, stage)| == n && forall i :: 0 <= i < n ==> Handled(log, stage)[i] == Handler(stage, i)
  }

  /** How many modules are called: through the one that stops, but for one whose time is already up. */
  ghost predicate CalledAre(c: Config, stage: nat, log: Log) {
    && (forall k :: StopsAt(c, k) ==>
          Calls(log, stage, if c.modules[k].onRequest == TimedOut(false) then k else k + 1))
    && (Pass(c, |c.modules|) ==> Calls(log, stage, |c.modules|))
  }

  lemma {:induction false} CalledIs(c: Config, stage: nat, log: Log)
    requires Handled(log, stage) == FirstHandlers(stage, CalledCount(c, Count(c)))
    ensures CalledAre(c, stage, log)
  {
    forall k | StopsAt(c, k) ensures Count(c) == k + 1 {
      StopIs(c, k);
    }
    StopIs(c, 0);
  }

  /** In each stage that is reached exactly the modules up to the one that stops are called, in order. */
  lemma {:induction false} CallsModulesInOrder(s: Setup, c: Config, stage: nat)
    requires InCharge(s, c, stage)
    ensures CalledAre(c, stage, Run(s).0) && CalledAre(s.main, 0, Run(s).0)
  {
    InChargeIs(s, c, stage);
    var log := Stage(c, stage).0;
    StageReverses(c, stage);
    if stage == 1 {
      UpToSwitchCounts(s.main);
      AfterSwitch(UpToSwitch(s.main), log);
      UpToSwitchCalls(s.main);
      StageCallsOnly(c, 1, 0);
      LogConcat(UpToSwitch(s.main), log, 0);
      CalledIs(s.main, 0, Run(s).0);
    }
    CalledIs(c, stage, Run(s).0);
  }

  lemma {:induction false} UpToSwitchCalls(c: Config)
    ensures Handled(UpToSwitch(c), 0) == FirstHandlers(0, CalledCount(c, Count(c)))
  {
    var entrances, done := Entrances(c, 0, Count(c)), FirstHandlers(0, Count(c));
    EntrancesHandle(c, 0, Count(c), 0, entrances);
    AftersAreIdle(c, done);
    OneEvent(Switch, 0);
    IdleBetween(entrances, Afters(c, done), [Switch], 0);
  }

  lemma {:induction false} StageCallsOnly(c: Config, stage: nat, other: nat)
    requires other != stage
    ensures Handled(Stage(c, stage).0, other) == []
  {
    var entrances, done := Entrances(c, stage, Count(c)), FirstHandlers(stage, Count(c));
    var (log, ending) := Closing(c, stage);
    EntrancesHandle(c, stage, Count(c), other, entrances);
    if Deciding(c).TimedOut? {
      AftersAreIdle(c, done);
      IdleLog(log, other);
    } else {
      RespondReverses(c, done, SourceOf(Deciding(c)), other, log, ending);
    }
    LogConcat(entrances, log, other);
  }

  /** How many response handlers are called when the one of module `i` fails: all behind it, and itself unless the time was up. */
  ghost function CalledBack(c: Config, n: int, i: int): int
    requires 0 <= i < n <= |c.modules|
  {
    n - i - (if c.modules[i].onResponse == ModifyTimedOut(false) then 1 else 0)
  }

  lemma {:induction false} RespondCallsBack(c: Config, stage: nat, n: nat, source: Source, i: int, log: Log)
    requires FailsFirst(c, n, i) && log == Respond(c, FirstHandlers(stage, n), source).0
    ensures |Modifications(log)| == CalledBack(c, n, i)
    decreases n
  {
    FrontHandlers(stage, n);
    if i < n - 1 {
      var rest := Respond(c, FirstHandlers(stage, n - 1), source).0;
      RespondCallsBack(c, stage, n - 1, source, i, rest);
      ModifiedCounts(c, Handler(stage, n - 1), rest, stage);
    } else {
      FailedCallsBack(c, Handler(stage, i), c.modules[i].onResponse, FirstHandlers(stage, i), log, stage);
    }
  }

  lemma {:induction false} FailedCallsBack(c: Config, h: Handler, o: ResponseOutcome, left: seq<Handler>, log: Log, stage: nat)
    requires log == Modifying(c, h, o) + Afters(c, left)
    ensures |Modifications(log)| == if o == ModifyTimedOut(false) then 0 else 1
  {
    ModifyingCounts(c, h, o, stage);
    AftersAreIdle(c, left);
    IdleBehind(Modifying(c, h, o), Afters(c, left), stage);
  }

  lemma {:induction false} StageCallsBack(c: Config, stage: nat, i: int)
    requires !Deciding(c).TimedOut? && FailsFirst(c, Count(c), i)
    ensures |Modifications(Stage(c, stage).0)| == CalledBack(c, Count(c), i)
  {
    var entrances, log := Entrances(c, stage, Count(c)), Closing(c, stage).0;
    RespondCallsBack(c, stage, Count(c), SourceOf(Deciding(c)), i, log);
    EntrancesHandle(c, stage, Count(c), stage, entrances);
    LogConcat(entrances, log, stage);
  }

  /** When a response handler fails, exactly those behind it, and itself unless the time was up, have been called. */
  lemma {:induction false} CallsBackDownTo(s: Setup, c: Config, stage: nat, i: int)
    requires InCharge(s, c, stage)
    ensures forall k :: StopsAt(c, k) && !c.modules[k].onRequest.TimedOut? && FailsFirst(c, k + 1, i) ==>
              |Modifications(Run(s).0)| == CalledBack(c, k + 1, i)
    ensures Pass(c, |c.modules|) && FailsFirst(c, |c.modules|, i) ==> |Modifications(Run(s).0)| == CalledBack(c, |c.modules|, i)
  {
    InChargeIs(s, c, stage);
    forall k | StopsAt(c, k) ensures Count(c) == k + 1 && Deciding(c) == c.modules[k].onRequest {
      StopIs(c, k);
    }
    StopIs(c, 0);
    if stage == 1 {
      UpToSwitchCounts(s.main);
      AfterSwitch(UpToSwitch(s.main), Stage(c, 1).0);
    }
    if !Deciding(c).TimedOut? && FailsFirst(c, Count(c), i) {
      StageCallsBack(c, stage, i);
    }
  }

  // ---------------------------------------------------------------------------------------------
  // What is reported

  /**
  What an event of this stage says is so: it is about one of the stage's handlers, metrics are on, the
  trace sender is configured, and a span ends as failed exactly if its handler erred or ran out of time.
  */
  ghost predicate Tells(c: Config, stage: nat, e: Event) {
    !e.Switch? ==>
    && e.h.stage == stage && e.h.index < |c.modules|
    && (e.Before? || e.After? ==> c.metrics)
    && (e.StartSpan? || e.EndSpan? ==> e.to in c.tracers)
    && (e.EndSpan? ==>
          var m := c.modules[e.h.index];
          match e.phase
          case RequestPhase => e.failed <==> m.onRequest.Errored? || m.onRequest.TimedOut?
          case ResponsePhase => e.failed <==> m.onResponse.ModifyErrored? || m.onResponse.ModifyTimedOut?)
  }

  ghost predicate AllTell(c: Config, stage: nat, log: Log) {
    forall e :: e in log ==> Tells(c, stage, e)
  }

  lemma {:induction false} SpanEndsAre(tracers: seq<Sender>, h: Handler, phase: Phase, failed: bool)
    ensures forall e :: e in Starts(tracers, h, phase) <==> e.StartSpan? && e.to in tracers && e == StartSpan(e.to, h, phase)
    ensures forall e :: e in Ends(tracers, h, phase, failed) <==> e.EndSpan? && e.to in tracers && e == EndSpan(e.to, h, phase, failed)
  {
    if tracers != [] {
      var n := |tracers| - 1;
      SpanEndsAre(tracers[..n], h, phase, failed);
      assert tracers == tracers[..n] + [tracers[n]];
    }
  }

  lemma {:induction false} AftersTell(c: Config, stage: nat, n: nat)
    requires n <= |c.modules|
    ensures AllTell(c, stage, Afters(c, FirstHandlers(stage, n)))
  {
    if n > 0 {
      FrontHandlers(stage, n);
      AftersTell(c, stage, n - 1);
    }
  }

  lemma {:induction false} EnteringTells(c: Config, stage: nat, i: nat)
    requires i < |c.modules|
    ensures AllTell(c, stage, Entering(c, Handler(stage, i), c.modules[i].onRequest))
  {
    SpanEndsAre(c.tracers, Handler(stage, i), RequestPhase, RequestFailed(c.modules[i].onRequest));
  }

  lemma {:induction false} ModifyingTells(c: Config, stage: nat, i: nat)
    requires i < |c.modules|
    ensures AllTell(c, stage, Modifying(c, Handler(stage, i), c.modules[i].onResponse))
  {
    SpanEndsAre(c.tracers, Handler(stage, i), ResponsePhase, !c.modules[i].onResponse.Modified?);
  }

  lemma {:induction false} EntrancesTell(c: Config, stage: nat, n: nat)
    requires n <= |c.modules|
    ensures AllTell(c, stage, Entrances(c, stage, n))
  {
    if n > 0 {
      EntrancesTell(c, stage, n - 1);
      EnteringTells(c, stage, n - 1);
    }
  }

  lemma TellBoth(c: Config, stage: nat, a: Log, b: Log)
    requires AllTell(c, stage, a) && AllTell(c, stage, b)
    ensures AllTell(c, stage, a + b)
  {
  }

  lemma {:induction false} RespondTells(c: Config, stage: nat, n: nat, source: Source)
    requires n <= |c.modules|
    ensures AllTell(c, stage, Respond(c, FirstHandlers(stage, n), source).0)
    decreases n
  {
    if n > 0 {
      var h, o, left := Handler(stage, n - 1), c.modules[n - 1].onResponse, FirstHandlers(stage, n - 1);
      FrontHandlers(stage, n);
      ModifyingTells(c, stage, n - 1);
      if o.Modified? {
        var after: Log := if c.metrics then [After(h)] else [];
        RespondTells(c, stage, n - 1, source);
        TellBoth(c, stage, Modifying(c, h, o), after);
        TellBoth(c, stage, Modifying(c, h, o) + after, Respond(c, left, source).0);
      } else {
        AftersTell(c, stage, n - 1);
        TellBoth(c, stage, Modifying(c, h, o), Afters(c, left));
      }
    }
  }

  lemma {:induction false} StageTells(c: Config, stage: nat)
    ensures AllTell(c, stage, Stage(c, stage).0)
  {
    EntrancesTell(c, stage, Count(c));
    AftersTell(c, stage, Count(c));
    if !Deciding(c).TimedOut? { RespondTells(c, stage, Count(c), SourceOf(Deciding(c))); }
  }

  /** Everything that is reported in a run is so, of the stage it belongs to. */
  lemma {:induction false} ReportsAreTrue(s: Setup, c: Config, stage: nat, e: Event)
    requires InCharge(s, c, stage) && e in Run(s).0
    ensures Tells(c, stage, e) || (stage == 1 && Tells(s.main, 0, e))
  {
    InChargeIs(s, c, stage);
    StageTells(c, stage);
    if stage == 1 {
      EntrancesTell(s.main, 0, Count(s.main));
      AftersTell(s.main, 0, Count(s.main));
    }
  }

  /** Both ends of the span of a handler are sent to every trace sender. */
  ghost predicate Traced(c: Config, h: Handler, phase: Phase, log: Log) {
    forall to :: to in c.tracers ==> StartSpan(to, h, phase) in log && exists failed :: EndSpan(to, h, phase, failed) in log
  }

  ghost predicate EntryReported(c: Config, stage: nat, i: nat, log: Log) {
    (c.metrics ==> Before(Handler(stage, i)) in log) && Traced(c, Handler(stage, i), RequestPhase, log)
  }

  lemma {:induction false} EnteringReports(c: Config, stage: nat, i: nat, log: Log)
    requires i < |c.modules|
    requires forall e :: e in Entering(c, Handler(stage, i), c.modules[i].onRequest) ==> e in log
    ensures EntryReported(c, stage, i, log)
  {
    var h, failed := Handler(stage, i), RequestFailed(c.modules[i].onRequest);
    SpanEndsAre(c.tracers, h, RequestPhase, failed);
    assert forall to :: to in c.tracers ==> StartSpan(to, h, RequestPhase) in Starts(c.tracers, h, RequestPhase);
    assert forall to :: to in c.tracers ==> EndSpan(to, h, RequestPhase, failed) in Ends(c.tracers, h, RequestPhase, failed);
  }

  lemma {:induction false} EntrancesReport(c: Config, stage: nat, n: nat, i: nat, log: Log)
    requires i < n <= |c.modules| && forall e :: e in Entrances(c, stage, n) ==> e in log
    ensures EntryReported(c, stage, i, log)
  {
    if i == n - 1 {
      EnteringReports(c, stage, i, log);
    } else {
      EntrancesReport(c, stage, n - 1, i, log);
    }
  }

  lemma {:induction false} RespondTraces(c: Config, stage: nat, n: nat, source: Source, j: nat, log: Log)
    requires j < n <= |c.modules| && forall i :: j < i < n ==> c.modules[i].onResponse.Modified?
    requires forall e :: e in Respond(c, FirstHandlers(stage, n), source).0 ==> e in log
    ensures Traced(c, Handler(stage, j), ResponsePhase, log)
    decreases n
  {
    FrontHandlers(stage, n);
    if j == n - 1 {
      ModifyingTraces(c, Handler(stage, j), c.modules[j].onResponse, log);
    } else {
      RespondTraces(c, stage, n - 1, source, j, log);
    }
  }

  lemma {:induction false} ModifyingTraces(c: Config, h: Handler, o: ResponseOutcome, log: Log)
    requires forall e :: e in Modifying(c, h, o) ==> e in log
    ensures Traced(c, h, ResponsePhase, log)
  {
    SpanEndsAre(c.tracers, h, ResponsePhase, !o.Modified?);
    assert forall to :: to in c.tracers ==> StartSpan(to, h, ResponsePhase) in Starts(c.tracers, h, ResponsePhase);
    assert forall to :: to in c.tracers ==> EndSpan(to, h, ResponsePhase, !o.Modified?) in Ends(c.tracers, h, ResponsePhase, !o.Modified?);
  }

  /** Every request handler through the one that stops is reported, to metrics if they are on and to every trace sender. */
  ghost predicate EntriesReported(c: Config, stage: nat, log: Log) {
    && (forall k, i :: StopsAt(c, k) && 0 <= i <= k ==> EntryReported(c, stage, i, log))
    && (forall i :: Pass(c, |c.modules|) && 0 <= i < |c.modules| ==> EntryReported(c, stage, i, log))
  }

  lemma {:induction false} CountReports(c: Config, stage: nat, log: Log)
    requires forall e :: e in Entrances(c, stage, Count(c)) ==> e in log
    ensures EntriesReported(c, stage, log)
  {
    forall i | 0 <= i < Count(c) ensures EntryReported(c, stage, i, log) {
      EntrancesReport(c, stage, Count(c), i, log);
    }
    forall k | StopsAt(c, k) ensures Count(c) == k + 1 {
      StopIs(c, k);
    }
    StopIs(c, 0);
  }

  /** In each stage that is reached. */
  lemma {:induction false} EveryEntryIsReported(s: Setup, c: Config, stage: nat)
    requires InCharge(s, c, stage)
    ensures EntriesReported(c, stage, Run(s).0) && EntriesReported(s.main, 0, Run(s).0)
  {
    InChargeIs(s, c, stage);
    CountReports(c, stage, Run(s).0);
    CountReports(s.main, 0, Run(s).0);
  }

  /** Every response handler that the pass comes to is traced, through the one that fails. */
  lemma {:induction false} EveryResponseIsTraced(s: Setup, c: Config, stage: nat, j: nat)
    requires InCharge(s, c, stage)
    ensures forall k :: StopsAt(c, k) && !c.modules[k].onRequest.TimedOut? && j <= k
                        && (forall i :: j < i <= k ==> c.modules[i].onResponse.Modified?) ==>
              Traced(c, Handler(stage, j), ResponsePhase, Run(s).0)
    ensures Pass(c, |c.modules|) && j < |c.modules| && (forall i :: j < i < |c.modules| ==> c.modules[i].onResponse.Modified?) ==>
              Traced(c, Handler(stage, j), ResponsePhase, Run(s).0)
  {
    InChargeIs(s, c, stage);
    var n, o := Count(c), Deciding(c);
    forall k | StopsAt(c, k) ensures n == k + 1 && o == c.modules[k].onRequest {
      StopIs(c, k);
    }
    StopIs(c, 0);
    if !o.TimedOut? && j < n && forall i :: j < i < n ==> c.modules[i].onResponse.Modified? {
      RespondTraces(c, stage, n, SourceOf(o), j, Run(s).0);
    }
  }
}
