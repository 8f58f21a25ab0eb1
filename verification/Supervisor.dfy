// The supervisor engine (supervisor/runner.rs, supervisor/state.rs, ipc/auth.rs). Every handler is a
// short sequence of steps, one per lock it takes; a run is any interleaving of the steps of any
// number of handlers, so what holds of runs holds of concurrent ones.
module Supervisor {
  import opened MachineInts
  import opened Seqs
  import opened Watchdog

  datatype SupervisorState = Starting | Running | Degraded | Stopping | Stopped | Failed

  predicate CanTransition(from: SupervisorState, target: SupervisorState) {
    from == target ||
    match from
    case Starting => target in {Running, Degraded, Stopping, Failed}
    case Running => target in {Degraded, Stopping, Failed}
    case Degraded => target in {Running, Stopping, Failed}
    case Stopping => target in {Stopped, Failed}
    case Stopped => target == Starting
    case Failed => target in {Stopping, Starting}
  }

  /** The state after a request whose refusal is ignored. */
  function Moved(from: SupervisorState, target: SupervisorState): SupervisorState {
    if CanTransition(from, target) then target else from
  }

  // ----- Tokens -----------------------------------------------------------------

  type Token = seq<bv8>

  lemma FoldByte(result: bv8, a: bv8, b: bv8)
    ensures result | (a ^ b) == 0 <==> result == 0 && a == b
  {
    assert a ^ b == 0 <==> a == b;
  }

  /** Comparison without an early exit: the fold is zero exactly for equal tokens. */
  method VerifyIpcToken(expected: Token, candidate: Token) returns (valid: bool)
    ensures valid <==> expected == candidate
  {
    if |expected| != |candidate| {
      return false;
    }
    var result: bv8 := 0;
    for i := 0 to |expected|
      invariant result == 0 <==> forall k :: 0 <= k < i ==> expected[k] == candidate[k]
    {
      FoldByte(result, expected[i], candidate[i]);
      result := result | (expected[i] ^ candidate[i]);
    }
    valid := result == 0;
  }

  // ----- The engine -------------------------------------------------------------

  datatype Engine = Engine(state: SupervisorState, tracking: Tracking, token: Option<Token>, workerPid: Option<u32>)

  const NEW: Engine := Engine(Starting, FRESH, None, None)

  /** What happens under one lock (the handshake reads the token while it moves the state). */
  datatype Step =
    | SetToken(token: Token)
    | SetPid(pid: Option<u32>)
    | TrackStart(now: i64)
    | TrackHeartbeat(now: i64)
    | TrackCrash(now: i64)
    | Handshake(candidate: Token)
    | Apply(action: CrashAction)
    | Shutdown

  function Next(e: Engine, step: Step, policy: WatchdogPolicy): Engine {
    match step
    case SetToken(token) => e.(token := Some(token))
    case SetPid(pid) => e.(workerPid := pid)
    case TrackStart(now) => e.(tracking := AfterStart(e.tracking, now))
    case TrackHeartbeat(now) => e.(tracking := AfterHeartbeat(e.tracking, now, policy))
    case TrackCrash(now) => e.(tracking := AfterCrash(e.tracking, now, policy))
    case Handshake(candidate) => if e.token == Some(candidate) then e.(state := Moved(e.state, Running)) else e
    case Apply(action) => e.(state := Moved(e.state, if action.Restart? then Degraded else Failed))
    case Shutdown => e.(state := Moved(Moved(e.state, Stopping), Stopped))
  }

  function After(e: Engine, steps: seq<Step>, policy: WatchdogPolicy): Engine {
    if steps == [] then e else Next(After(e, Front(steps), policy), Last(steps), policy)
  }

  datatype Payload =
    | HandshakeRequest(token: Token)
    | Heartbeat
    | CommandRequest(commandId: string, commandName: string)
    | OtherPayload

  datatype Reply =
    | HandshakeResponse(success: bool, sessionId: Option<string>, heartbeatIntervalMs: Option<u64>)
    | HeartbeatAck(timestamp: i64)
    | CommandResponse(commandId: string, state: SupervisorState, workerPid: Option<u32>, consecutiveCrashes: u32)

  lemma AfterOne(e: Engine, a: Step, policy: WatchdogPolicy)
    ensures After(e, [a], policy) == Next(e, a, policy)
  {
    assert Front([a]) == [];
  }

  lemma AfterTwo(e: Engine, a: Step, b: Step, policy: WatchdogPolicy)
    ensures After(e, [a, b], policy) == Next(Next(e, a, policy), b, policy)
  {
    AfterOne(e, a, policy);
    assert Front([a, b]) == [a];
  }

  lemma AfterThree(e: Engine, a: Step, b: Step, c: Step, policy: WatchdogPolicy)
    ensures After(e, [a, b, c], policy) == Next(Next(Next(e, a, policy), b, policy), c, policy)
  {
    AfterTwo(e, a, b, policy);
    assert Front([a, b, c]) == [a, b];
  }

  class SupervisorEngine {
    var state: SupervisorState
    const policy: WatchdogPolicy
    const crashTracker: CrashTracker
    var currentToken: Option<Token>
    var activeWorkerPid: Option<u32>
    var isRunning: bool

    ghost function View(): Engine
      reads this, crashTracker
    {
      Engine(state, crashTracker.State(), currentToken, activeWorkerPid)
    }

    constructor (policy: WatchdogPolicy)
      ensures this.policy == policy && fresh(crashTracker) && View() == NEW && !isRunning
    {
      state, currentToken, activeWorkerPid, isRunning := Starting, None, None, false;
      this.policy := policy;
      crashTracker := new CrashTracker();
    }

    method TransitionTo(target: SupervisorState) returns (legal: bool)
      modifies this`state
      ensures legal == CanTransition(old(state), target)
      ensures state == if legal then target else old(state)
      ensures legal <==>
        match old(state)
        case Starting => target !in {Stopped}
        case Running => target !in {Starting, Stopped}
        case Degraded => target !in {Starting, Stopped}
        case Stopping => target in {Stopping, Stopped, Failed}
        case Stopped => target in {Stopped, Starting}
        case Failed => target in {Failed, Stopping, Starting}
    {
      legal := CanTransition(state, target);
      if legal {
        state := target;
      }
    }

    /** The fresh token comes from the identifier generator, which is not part of this model. */
    method PrepareNextWorkerToken(generated: Token) returns (token: Token)
      modifies this`currentToken
      ensures token == generated && View() == After(old(View()), [SetToken(generated)], policy)
      ensures currentToken == Some(generated)
    {
      currentToken := Some(generated);
      token := generated;
      AfterOne(old(View()), SetToken(generated), policy);
    }

    method RegisterWorkerSpawn(pid: u32, now: i64)
      modifies this`activeWorkerPid, crashTracker
      ensures View() == After(old(View()), [SetPid(Some(pid)), TrackStart(now)], policy)
      ensures activeWorkerPid == Some(pid) && crashTracker.workerStartedSecs == Some(now)
      ensures crashTracker.lastHeartbeatSecs == Some(now)
      ensures crashTracker.consecutiveCrashes == old(crashTracker.consecutiveCrashes)
      ensures crashTracker.crashHistory == old(crashTracker.crashHistory)
    {
      activeWorkerPid := Some(pid);
      crashTracker.RecordWorkerStart(now);
      AfterTwo(old(View()), SetPid(Some(pid)), TrackStart(now), policy);
    }

    method HandleIpcMessage(payload: Payload, now: i64, sessionId: string) returns (reply: Option<Reply>)
      modifies this`state, crashTracker
      ensures View() ==
        match payload
        case HandshakeRequest(token) => After(old(View()), [Handshake(token)], policy)
        case Heartbeat => After(old(View()), [TrackHeartbeat(now)], policy)
        case _ => old(View())
      ensures state ==
        if payload.HandshakeRequest? && old(currentToken) == Some(payload.token)
          && old(state) in {Starting, Running, Degraded}
        then Running
        else old(state)
      ensures payload.Heartbeat? ==> crashTracker.lastHeartbeatSecs == Some(now)
      ensures reply ==
        match payload
        case HandshakeRequest(token) =>
          if old(currentToken) == Some(token)
          then Some(HandshakeResponse(true, Some(sessionId), Some(policy.heartbeatIntervalMs)))
          else Some(HandshakeResponse(false, None, None))
        case Heartbeat => Some(HeartbeatAck(now))
        case CommandRequest(id, name) =>
          if name == "SUPERVISOR_STATUS"
          then Some(CommandResponse(id, state, activeWorkerPid, crashTracker.consecutiveCrashes))
          else None
        case OtherPayload => None
    {
      match payload
      case HandshakeRequest(token) =>
        AfterOne(old(View()), Handshake(token), policy);
        var isValid := false;
        if currentToken.Some? {
          isValid := VerifyIpcToken(currentToken.value, token);
        }
        if isValid {
          var _ := TransitionTo(Running);
          reply := Some(HandshakeResponse(true, Some(sessionId), Some(policy.heartbeatIntervalMs)));
        } else {
          reply := Some(HandshakeResponse(false, None, None));
        }
      case Heartbeat =>
        AfterOne(old(View()), TrackHeartbeat(now), policy);
        crashTracker.RecordHeartbeat(now, policy);
        reply := Some(HeartbeatAck(now));
      case CommandRequest(commandId, commandName) =>
        if commandName == "SUPERVISOR_STATUS" {
          reply := Some(CommandResponse(commandId, state, activeWorkerPid, crashTracker.consecutiveCrashes));
        } else {
          reply := None;
        }
      case OtherPayload =>
        reply := None;
    }

    method HandleWorkerExit(now: i64) returns (action: CrashAction)
      modifies this`activeWorkerPid, this`state, crashTracker
      ensures action == Decision(crashTracker.State(), policy)
      ensures View() == After(old(View()), [SetPid(None), TrackCrash(now), Apply(action)], policy)
      ensures activeWorkerPid == None && crashTracker.workerStartedSecs == None
      ensures action.Restart? ==>
        state == if old(state) in {Starting, Running, Degraded} then Degraded else old(state)
      ensures action.TripCircuitBreaker? ==> state == if old(state) == Stopped then Stopped else Failed
    {
      activeWorkerPid := None;
      action := crashTracker.RecordCrash(now, policy);
      match action {
        case Restart(_) =>
          var _ := TransitionTo(Degraded);
        case TripCircuitBreaker(_) =>
          var _ := TransitionTo(Failed);
      }
      AfterThree(old(View()), SetPid(None), TrackCrash(now), Apply(action), policy);
    }

    method ShutdownEngine()
      modifies this`state, this`isRunning
      ensures View() == After(old(View()), [Shutdown], policy) && !isRunning
      ensures state == Stopped
    {
      AfterOne(old(View()), Shutdown, policy);
      var _ := TransitionTo(Stopping);
      isRunning := false;
      var _ := TransitionTo(Stopped);
    }
  }

  // ----- Every run --------------------------------------------------------------

  /** The engine after a run from its creation. */
  function Reach(steps: seq<Step>, policy: WatchdogPolicy): Engine { After(NEW, steps, policy) }

  /** The token prepared last. */
  function LatestToken(steps: seq<Step>): Option<Token> {
    if steps == [] then None
    else if Last(steps).SetToken? then Some(Last(steps).token)
    else LatestToken(Front(steps))
  }

  lemma {:induction false} TokenIsLatest(steps: seq<Step>, policy: WatchdogPolicy)
    ensures Reach(steps, policy).token == LatestToken(steps)
  {
    if steps != [] {
      TokenIsLatest(Front(steps), policy);
    }
  }

  /** Stopping is never left behind: shutdown passes through it under one lock. */
  lemma {:induction false} NeverStopping(steps: seq<Step>, policy: WatchdogPolicy)
    ensures Reach(steps, policy).state != Stopping
  {
    if steps != [] {
      NeverStopping(Front(steps), policy);
    }
  }

  /** Running is entered only by a handshake that presents the token prepared last. */
  lemma RunningNeedsToken(steps: seq<Step>, step: Step, policy: WatchdogPolicy)
    requires Reach(steps, policy).state != Running && Reach(steps + [step], policy).state == Running
    ensures step.Handshake? && LatestToken(steps) == Some(step.candidate)
    ensures Reach(steps, policy).state in {Starting, Degraded}
  {
    assert Front(steps + [step]) == steps;
    TokenIsLatest(steps, policy);
    NeverStopping(steps, policy);
  }

  /** Conversely that handshake makes a starting or degraded supervisor run, and a wrong one changes nothing. */
  lemma HandshakeDecides(steps: seq<Step>, candidate: Token, policy: WatchdogPolicy)
    ensures
      var before, after := Reach(steps, policy), Reach(steps + [Handshake(candidate)], policy);
      if LatestToken(steps) == Some(candidate) && before.state in {Starting, Degraded}
      then after == before.(state := Running)
      else after == before
  {
    assert Front(steps + [Handshake(candidate)]) == steps;
    TokenIsLatest(steps, policy);
    NeverStopping(steps, policy);
  }

  /**
   * What a decision does to the state in every run: a restart degrades a supervisor that is at work and
   * leaves a failed or stopped one alone; a trip fails every one that is not stopped.
   */
  lemma DecisionsMove(steps: seq<Step>, delay: u64, total: u32, policy: WatchdogPolicy)
    ensures
      var before := Reach(steps, policy);
      var restarted := Reach(steps + [Apply(Restart(delay))], policy);
      var tripped := Reach(steps + [Apply(TripCircuitBreaker(total))], policy);
      && (before.state in {Starting, Running, Degraded} ==> restarted == before.(state := Degraded))
      && (before.state in {Failed, Stopped} ==> restarted == before)
      && (before.state != Stopped ==> tripped == before.(state := Failed))
      && (before.state == Stopped ==> tripped == before)
  {
    NeverStopping(steps, policy);
    assert Front(steps + [Apply(Restart(delay))]) == steps;
    assert Front(steps + [Apply(TripCircuitBreaker(total))]) == steps;
  }

  lemma {:induction false} AfterAppend(e: Engine, a: seq<Step>, b: seq<Step>, policy: WatchdogPolicy)
    ensures After(e, a + b, policy) == After(After(e, a, policy), b, policy)
    decreases |b|
  {
    if b == [] {
      assert a + b == a;
    } else {
      assert Front(a + b) == a + Front(b) && Last(a + b) == Last(b);
      AfterAppend(e, a, Front(b), policy);
    }
  }

  lemma {:induction false} TerminalStays(e: Engine, steps: seq<Step>, policy: WatchdogPolicy)
    ensures e.state == Stopped ==> After(e, steps, policy).state == Stopped
    ensures e.state == Failed ==>
      After(e, steps, policy).state == if exists i :: 0 <= i < |steps| && steps[i].Shutdown? then Stopped else Failed
  {
    if steps != [] {
      var front, last := Front(steps), Last(steps);
      TerminalStays(e, front, policy);
      assert steps[|steps| - 1] == last && forall i :: 0 <= i < |front| ==> front[i] == steps[i];
    }
  }

  /** Once the breaker has tripped only a shutdown moves the supervisor on; it never runs again. */
  lemma FailedIsFinal(steps: seq<Step>, later: seq<Step>, policy: WatchdogPolicy)
    requires Reach(steps, policy).state == Failed
    ensures Reach(steps + later, policy).state
         == if exists i :: 0 <= i < |later| && later[i].Shutdown? then Stopped else Failed
  {
    AfterAppend(NEW, steps, later, policy);
    TerminalStays(Reach(steps, policy), later, policy);
  }

  /** Shutdown stops the supervisor from every reachable state, and nothing leaves that state. */
  lemma ShutdownStops(steps: seq<Step>, later: seq<Step>, policy: WatchdogPolicy)
    ensures Reach(steps + [Shutdown] + later, policy).state == Stopped
  {
    NeverStopping(steps, policy);
    assert Front(steps + [Shutdown]) == steps;
    AfterAppend(NEW, steps + [Shutdown], later, policy);
    TerminalStays(Reach(steps + [Shutdown], policy), later, policy);
  }

  // ----- The breaker over a run -----------------------------------------------------

  /** What the crash tracker sees of a run. */
  function Seen(steps: seq<Step>): seq<Event> {
    if steps == [] then []
    else
      Seen(Front(steps)) +
      match Last(steps)
      case TrackStart(now) => [Started(now)]
      case TrackHeartbeat(now) => [Beat(now)]
      case TrackCrash(now) => [Crashed(now)]
      case _ => []
  }

  /** Decisions taken whose handlers have not moved the state yet. */
  function Pending(steps: seq<Step>, policy: WatchdogPolicy): multiset<CrashAction> {
    if steps == [] then multiset{}
    else
      var before := Pending(Front(steps), policy);
      match Last(steps)
      case TrackCrash(_) => before + multiset{Decision(Reach(steps, policy).tracking, policy)}
      case Apply(action) => before - multiset{action}
      case _ => before
  }

  /** Handlers apply the decisions they were given. */
  ghost predicate Faithful(steps: seq<Step>, policy: WatchdogPolicy) {
    steps == [] ||
    (Faithful(Front(steps), policy) && (Last(steps).Apply? ==> Last(steps).action in Pending(Front(steps), policy)))
  }

  lemma {:induction false} TrackingIsRun(steps: seq<Step>, policy: WatchdogPolicy)
    ensures Reach(steps, policy).tracking == Run(policy, Seen(steps)).tracking
  {
    if steps != [] {
      var before, last := Seen(Front(steps)), Last(steps);
      TrackingIsRun(Front(steps), policy);
      if last.TrackStart? || last.TrackHeartbeat? || last.TrackCrash? {
        assert Front(Seen(steps)) == before;
      } else {
        assert Seen(steps) == before;
      }
    }
  }

  predicate Terminal(state: SupervisorState) { state in {Failed, Stopped} }

  /** Every trip of the breaker has stopped the supervisor, or is about to. */
  lemma {:induction false} TripsApplied(steps: seq<Step>, policy: WatchdogPolicy)
    requires Faithful(steps, policy)
    ensures
      forall i :: 0 <= i < |Run(policy, Seen(steps)).crashes| ==>
        var action := Run(policy, Seen(steps)).crashes[i].action;
        action.Restart? || Terminal(Reach(steps, policy).state) || action in Pending(steps, policy)
  {
    if steps != [] {
      TripsApplied(Front(steps), policy);
      TrackingIsRun(steps, policy);
      NeverStopping(Front(steps), policy);
      var before, last := Seen(Front(steps)), Last(steps);
      if last.TrackStart? || last.TrackHeartbeat? || last.TrackCrash? {
        assert Front(Seen(steps)) == before;
      } else {
        assert Seen(steps) == before;
      }
    }
  }

  /** Only a crash step adds to the crashes answered. */
  lemma CrashesGrow(steps: seq<Step>, policy: WatchdogPolicy)
    requires steps != []
    ensures
      var now, earlier := Run(policy, Seen(steps)).crashes, Run(policy, Seen(Front(steps))).crashes;
      if Last(steps).TrackCrash?
      then now != [] && Front(now) == earlier && Last(now).time == Last(steps).now
      else now == earlier
  {
    var before, last := Seen(Front(steps)), Last(steps);
    if last.TrackStart? || last.TrackHeartbeat? || last.TrackCrash? {
      assert Front(Seen(steps)) == before;
    } else {
      assert Seen(steps) == before;
    }
  }

  /** Worker exits of an interval. */
  function Exits(steps: seq<Step>, from: int, to: int): nat {
    if steps == [] then 0
    else Exits(Front(steps), from, to) + if Last(steps).TrackCrash? && from <= Last(steps).now <= to then 1 else 0
  }

  lemma {:induction false} ExitsRestarted(steps: seq<Step>, policy: WatchdogPolicy, from: int, to: int)
    requires
      forall i :: 0 <= i < |Run(policy, Seen(steps)).crashes| ==> Run(policy, Seen(steps)).crashes[i].action.Restart?
    ensures Exits(steps, from, to) == Restarts(Run(policy, Seen(steps)).crashes, from, to)
  {
    if steps != [] {
      CrashesGrow(steps, policy);
      hide Run, Seen;
      var now, earlier := Run(policy, Seen(steps)).crashes, Run(policy, Seen(Front(steps))).crashes;
      assert forall i :: 0 <= i < |earlier| ==> earlier[i] == now[i];
      ExitsRestarted(Front(steps), policy, from, to);
    }
  }

  /** Trips of the breaker whose handlers have not moved the state yet. */
  function UnappliedTrips(steps: seq<Step>, policy: WatchdogPolicy): nat {
    if steps == [] then 0
    else
      var before := UnappliedTrips(Front(steps), policy);
      match Last(steps)
      case TrackCrash(_) =>
        before + if Decision(Reach(steps, policy).tracking, policy).TripCircuitBreaker? then 1 else 0
      case Apply(action) => if action.TripCircuitBreaker? && before > 0 then before - 1 else before
      case _ => before
  }

  lemma StepStaysTerminal(e: Engine, step: Step, policy: WatchdogPolicy)
    requires Terminal(e.state)
    ensures Terminal(After(e, [step], policy).state)
  {
    TerminalStays(e, [step], policy);
  }

  lemma TripIsTerminal(e: Engine, action: CrashAction, policy: WatchdogPolicy)
    requires action.TripCircuitBreaker? && e.state != Stopping
    ensures Terminal(After(e, [Apply(action)], policy).state)
  {
    assert Front([Apply(action)]) == [];
  }

  lemma LastAnswer(steps: seq<Step>, policy: WatchdogPolicy)
    requires steps != [] && Last(steps).TrackCrash?
    ensures Run(policy, Seen(steps)).crashes != []
    ensures Last(Run(policy, Seen(steps)).crashes).action == Decision(Reach(steps, policy).tracking, policy)
  {
    TrackingIsRun(steps, policy);
    assert Front(Seen(steps)) == Seen(Front(steps));
  }

  /** Every exit of an interval was answered with a restart, or with a trip that is yet to be applied. */
  lemma {:induction false} ExitsAnswered(steps: seq<Step>, policy: WatchdogPolicy, from: int, to: int)
    requires !Terminal(Reach(steps, policy).state)
    ensures Exits(steps, from, to)
         <= Restarts(Run(policy, Seen(steps)).crashes, from, to) + UnappliedTrips(steps, policy)
  {
    if steps != [] {
      var before, last := Reach(Front(steps), policy), Last(steps);
      AfterAppend(NEW, Front(steps), [last], policy);
      FrontLast(steps);
      assert Reach(steps, policy) == After(before, [last], policy);
      if Terminal(before.state) {
        StepStaysTerminal(before, last, policy);
      } else {
        ExitsAnswered(Front(steps), policy, from, to);
        CrashesGrow(steps, policy);
        NeverStopping(Front(steps), policy);
        if last.TrackCrash? {
          LastAnswer(steps, policy);
        }
        if last.Apply? && last.action.TripCircuitBreaker? {
          TripIsTerminal(before, last.action, policy);
        }
      }
      hide Run, Seen, Decision, Reach, After;
    }
  }

  /**
   * A supervisor that has not given up has seen no more worker exits in any window than the policy
   * allows, and beyond that one for each trip yet to be applied, whatever its handlers do concurrently;
   * with no decision pending, the policy's number is the bound.
   */
  lemma ExitsPerWindow(steps: seq<Step>, policy: WatchdogPolicy, from: i64)
    requires Ordered(Seen(steps)) && policy.crashWindowSecs < TWO_63
    requires !Terminal(Reach(steps, policy).state)
    ensures Exits(steps, from, from + policy.crashWindowSecs) <= Allowed(policy) + UnappliedTrips(steps, policy)
    ensures Faithful(steps, policy) && Pending(steps, policy) == multiset{} ==>
      Exits(steps, from, from + policy.crashWindowSecs) <= Allowed(policy)
  {
    ExitsAnswered(steps, policy, from, from + policy.crashWindowSecs);
    RestartsPerWindow(policy, Seen(steps), from);
    if Faithful(steps, policy) && Pending(steps, policy) == multiset{} {
      TripsApplied(steps, policy);
      ExitsRestarted(steps, policy, from, from + policy.crashWindowSecs);
    }
  }
}
