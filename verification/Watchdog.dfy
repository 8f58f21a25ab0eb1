// Crash tracking, exponential backoff and the circuit breaker (supervisor/watchdog.rs), and what
// they guarantee over every run of worker starts, heartbeats and crashes.
module Watchdog {
  import opened MachineInts
  import opened Seqs

  datatype WatchdogPolicy = WatchdogPolicy(
    heartbeatIntervalMs: u64,
    heartbeatTimeoutMs: u64,
    restartDelayMs: u64,
    maxConsecutiveCrashes: u32,
    crashWindowSecs: u64,
    stableResetSecs: u64)

  datatype CrashAction = Restart(delayMs: u64) | TripCircuitBreaker(totalCrashes: u32)

  datatype Tracking = Tracking(
    streak: u32, history: seq<i64>, lastHeartbeat: Option<i64>, workerStarted: Option<i64>)

  const FRESH: Tracking := Tracking(0, [], None, None)

  /** The times not before a cutoff. */
  function Within(times: seq<i64>, cutoff: int): (kept: seq<i64>) {
    if times == [] then []
    else if Last(times) >= cutoff then Within(Front(times), cutoff) + [Last(times)]
    else Within(Front(times), cutoff)
  }

  function Cutoff(policy: WatchdogPolicy, now: i64): i64 {
    SaturatingSub(now, AsI64(policy.crashWindowSecs))
  }

  /** Base delay times two to the number of crashes before this one, at most sixteen times and 32 s. */
  function Backoff(base: u64, streak: u32): u64 {
    var exponent := if streak <= 1 then 0 else if streak - 1 < 4 then streak - 1 else 4;
    var delay := WrappingMul(base, [1, 2, 4, 8, 16][exponent]);
    if delay < 32000 then delay else 32000
  }

  function AfterStart(t: Tracking, now: i64): Tracking {
    t.(workerStarted := Some(now), lastHeartbeat := Some(now))
  }

  predicate Resets(t: Tracking, now: i64, policy: WatchdogPolicy) {
    t.workerStarted.Some? && SaturatingSub(now, t.workerStarted.value) >= AsI64(policy.stableResetSecs)
  }

  function AfterHeartbeat(t: Tracking, now: i64, policy: WatchdogPolicy): Tracking {
    t.(lastHeartbeat := Some(now), streak := if Resets(t, now, policy) then 0 else t.streak)
  }

  function AfterCrash(t: Tracking, now: i64, policy: WatchdogPolicy): Tracking {
    Tracking((t.streak + 1) % 0x1_0000_0000, Within(t.history, Cutoff(policy, now)) + [now], None, None)
  }

  /**
   * Whether so many seconds have passed, read as the source reads them: the difference as far as an i64
   * reaches, the number of seconds negative from 2^63 on.
   */
  predicate LastsAtLeast(start: i64, now: i64, seconds: u64) {
    var passed := if now - start > I64_MAX then I64_MAX else if now - start < I64_MIN then I64_MIN else now - start;
    if seconds < TWO_63 then passed >= seconds else passed >= seconds - TWO_64
  }

  /** The decision taken once a crash is recorded. */
  function Decision(t: Tracking, policy: WatchdogPolicy): CrashAction {
    if t.streak >= policy.maxConsecutiveCrashes || |t.history| >= policy.maxConsecutiveCrashes
    then TripCircuitBreaker(t.streak)
    else Restart(Backoff(policy.restartDelayMs, t.streak))
  }

  /** The elapsed seconds become milliseconds in 64 bits. */
  predicate TimedOut(t: Tracking, now: i64, policy: WatchdogPolicy) {
    match t.lastHeartbeat
    case Some(last) => WrappingMul(AsU64(SaturatingSub(now, last)), 1000) >= policy.heartbeatTimeoutMs
    case None => false
  }

  class CrashTracker {
    var consecutiveCrashes: u32
    var crashHistory: seq<i64>
    var lastHeartbeatSecs: Option<i64>
    var workerStartedSecs: Option<i64>

    ghost function State(): Tracking reads this {
      Tracking(consecutiveCrashes, crashHistory, lastHeartbeatSecs, workerStartedSecs)
    }

    constructor ()
      ensures State() == FRESH
    {
      consecutiveCrashes, crashHistory, lastHeartbeatSecs, workerStartedSecs := 0, [], None, None;
    }

    method RecordWorkerStart(now: i64)
      modifies this
      ensures State() == AfterStart(old(State()), now)
      ensures workerStartedSecs == Some(now) && lastHeartbeatSecs == Some(now)
      ensures consecutiveCrashes == old(consecutiveCrashes) && crashHistory == old(crashHistory)
    {
      workerStartedSecs := Some(now);
      lastHeartbeatSecs := Some(now);
    }

    method RecordHeartbeat(now: i64, policy: WatchdogPolicy)
      modifies this
      ensures State() == AfterHeartbeat(old(State()), now, policy)
      ensures lastHeartbeatSecs == Some(now) && workerStartedSecs == old(workerStartedSecs)
      ensures crashHistory == old(crashHistory)
      ensures consecutiveCrashes ==
        if old(workerStartedSecs).Some? && LastsAtLeast(old(workerStartedSecs).value, now, policy.stableResetSecs)
        then 0
        else old(consecutiveCrashes)
    {
      lastHeartbeatSecs := Some(now);
      if workerStartedSecs.Some? {
        if SaturatingSub(now, workerStartedSecs.value) >= AsI64(policy.stableResetSecs) {
          consecutiveCrashes := 0;
        }
      }
    }

    method IsHeartbeatTimedOut(now: i64, policy: WatchdogPolicy) returns (timedOut: bool)
      ensures timedOut == TimedOut(State(), now, policy)
    {
      match lastHeartbeatSecs
      case Some(last) =>
        var elapsedMs := WrappingMul(AsU64(SaturatingSub(now, last)), 1000);
        timedOut := elapsedMs >= policy.heartbeatTimeoutMs;
      case None =>
        timedOut := false;
    }

    method RecordCrash(now: i64, policy: WatchdogPolicy) returns (action: CrashAction)
      modifies this
      ensures State() == AfterCrash(old(State()), now, policy)
      ensures action == Decision(State(), policy)
      ensures workerStartedSecs == None && lastHeartbeatSecs == None
      ensures consecutiveCrashes ==
        if old(consecutiveCrashes) == 0xffff_ffff then 0 else old(consecutiveCrashes) + 1
      ensures crashHistory != [] && Last(crashHistory) == now
      ensures action ==
        if consecutiveCrashes >= policy.maxConsecutiveCrashes || |crashHistory| >= policy.maxConsecutiveCrashes
        then TripCircuitBreaker(consecutiveCrashes)
        else Restart(Backoff(policy.restartDelayMs, consecutiveCrashes))
    {
      var cutoff := SaturatingSub(now, AsI64(policy.crashWindowSecs));
      crashHistory := Within(crashHistory, cutoff);
      crashHistory := crashHistory + [now];
      consecutiveCrashes := (consecutiveCrashes + 1) % 0x1_0000_0000;
      lastHeartbeatSecs := None;
      workerStartedSecs := None;
      if consecutiveCrashes >= policy.maxConsecutiveCrashes || |crashHistory| >= policy.maxConsecutiveCrashes {
        action := TripCircuitBreaker(consecutiveCrashes);
      } else {
        var previous := if consecutiveCrashes == 0 then 0 else consecutiveCrashes - 1;
        var exponent := if previous < 4 then previous else 4;
        var multiplier := [1, 2, 4, 8, 16][exponent];
        var delay := WrappingMul(policy.restartDelayMs, multiplier);
        action := Restart(if delay < 32000 then delay else 32000);
      }
    }
  }

  // ----- Runs -------------------------------------------------------------------

  datatype Event = Started(time: i64) | Beat(time: i64) | Crashed(time: i64)

  /** A crash as it was answered: the streak it made, and how many resets came before it. */
  datatype Crash = Crash(time: i64, streak: u32, resets: nat, action: CrashAction)

  datatype Outcome = Outcome(tracking: Tracking, resets: nat, crashes: seq<Crash>)

  function Step(o: Outcome, e: Event, policy: WatchdogPolicy): Outcome {
    match e
    case Started(now) => o.(tracking := AfterStart(o.tracking, now))
    case Beat(now) =>
      o.(tracking := AfterHeartbeat(o.tracking, now, policy),
         resets := o.resets + if Resets(o.tracking, now, policy) then 1 else 0)
    case Crashed(now) =>
      var next := AfterCrash(o.tracking, now, policy);
      Outcome(next, o.resets, o.crashes + [Crash(now, next.streak, o.resets, Decision(next, policy))])
  }

  function Run(policy: WatchdogPolicy, events: seq<Event>): Outcome {
    if events == [] then Outcome(FRESH, 0, []) else Step(Run(policy, Front(events)), Last(events), policy)
  }

  /** The clock does not run backwards. */
  predicate Ordered(events: seq<Event>) {
    forall i, j :: 0 <= i < j < |events| ==> events[i].time <= events[j].time
  }

  function Times(crashes: seq<Crash>): seq<i64> {
    if crashes == [] then [] else Times(Front(crashes)) + [Last(crashes).time]
  }

  // ----- The sliding window -------------------------------------------------------

  lemma {:induction false} WithinTwice(times: seq<i64>, early: int, late: int)
    requires early <= late
    ensures Within(Within(times, early), late) == Within(times, late)
  {
    if times != [] {
      var kept := Within(Front(times), early);
      WithinTwice(Front(times), early, late);
      assert Front(kept + [Last(times)]) == kept;
    }
  }

  lemma {:induction false} WithinShrinks(times: seq<i64>, early: int, late: int)
    requires early <= late
    ensures |Within(times, late)| <= |Within(times, early)|
  {
    if times != [] {
      WithinShrinks(Front(times), early, late);
    }
  }

  lemma {:induction false} CrashesPast(policy: WatchdogPolicy, events: seq<Event>)
    requires Ordered(events) && Run(policy, events).crashes != []
    ensures events != [] && Last(Run(policy, events).crashes).time <= Last(events).time
  {
    if Last(events).Crashed? {
    } else {
      CrashesPast(policy, Front(events));
    }
  }

  lemma OneMoreCrash(crashes: seq<Crash>, early: int, late: int)
    requires crashes != [] && early <= late
    ensures Within(Within(Times(Front(crashes)), early) + [Last(crashes).time], late) == Within(Times(crashes), late)
  {
    var times, last := Times(Front(crashes)), Last(crashes).time;
    var kept := Within(times, early);
    WithinTwice(times, early, late);
    assert Front(kept + [last]) == kept && Front(Times(crashes)) == times;
  }

  /**
   * Whatever was pruned on the way, the history after a crash is that crash and every earlier crash
   * of the whole run that its window reaches.
   */
  lemma {:induction false} HistoryIsWindow(policy: WatchdogPolicy, events: seq<Event>)
    requires Ordered(events)
    ensures
      var o := Run(policy, events);
      if o.crashes == [] then o.tracking.history == []
      else
        var now := Last(o.crashes).time;
        o.tracking.history == Within(Times(Front(o.crashes)), Cutoff(policy, now)) + [now]
  {
    if events != [] {
      var before := Run(policy, Front(events));
      HistoryIsWindow(policy, Front(events));
      if Last(events).Crashed? {
        var now := Last(events).time;
        assert Front(Run(policy, events).crashes) == before.crashes;
        if before.crashes != [] {
          CrashesPast(policy, Front(events));
          OneMoreCrash(before.crashes, Cutoff(policy, Last(before.crashes).time), Cutoff(policy, now));
        }
      }
    }
  }

  /** How many crashes of an interval were answered with a restart. */
  function Restarts(crashes: seq<Crash>, from: int, to: int): nat {
    if crashes == [] then 0
    else
      Restarts(Front(crashes), from, to)
        + if Last(crashes).action.Restart? && from <= Last(crashes).time <= to then 1 else 0
  }

  lemma {:induction false} RestartsAreCrashes(crashes: seq<Crash>, from: int, to: int)
    ensures Restarts(crashes, from, to) <= |Within(Times(crashes), from)|
  {
    if crashes != [] {
      RestartsAreCrashes(Front(crashes), from, to);
      assert Front(Times(crashes)) == Times(Front(crashes));
    }
  }

  function Allowed(policy: WatchdogPolicy): nat {
    if policy.maxConsecutiveCrashes <= 1 then 0 else policy.maxConsecutiveCrashes - 1
  }

  lemma RestartLeavesRoom(policy: WatchdogPolicy, events: seq<Event>, from: i64)
    requires Ordered(events) && policy.crashWindowSecs < TWO_63
    requires events != [] && Last(events).Crashed? && Last(Run(policy, events).crashes).action.Restart?
    requires Last(events).time <= from + policy.crashWindowSecs && from <= Last(events).time
    ensures |Within(Times(Run(policy, events).crashes), from)| <= Allowed(policy)
  {
    var o, now := Run(policy, events), Last(events).time;
    var before, crash := Run(policy, Front(events)), Last(o.crashes);
    assert o == Step(before, Crashed(now), policy);
    assert crash.time == now && crash.action == Decision(o.tracking, policy);
    assert |o.tracking.history| <= Allowed(policy);
    hide Run, Step, Decision;
    HistoryIsWindow(policy, events);
    var times, cutoff := Times(Front(o.crashes)), Cutoff(policy, now);
    assert Front(times + [now]) == times;
    assert o.tracking.history == Within(Times(o.crashes), cutoff);
    WithinShrinks(Times(o.crashes), cutoff, from);
  }

  /** Only a crash adds to the crashes of a run. */
  lemma CrashesOn(policy: WatchdogPolicy, events: seq<Event>)
    requires events != []
    ensures
      var o, before := Run(policy, events), Run(policy, Front(events));
      if Last(events).Crashed?
      then o.crashes != [] && Front(o.crashes) == before.crashes && Last(o.crashes).time == Last(events).time
      else o.crashes == before.crashes
  {
    hide AfterCrash, Decision;
  }

  /** No interval as long as the window sees more restarts than the policy allows, whatever the heartbeats do. */
  lemma {:induction false} RestartsPerWindow(policy: WatchdogPolicy, events: seq<Event>, from: i64)
    requires Ordered(events) && policy.crashWindowSecs < TWO_63
    ensures Restarts(Run(policy, events).crashes, from, from + policy.crashWindowSecs) <= Allowed(policy)
  {
    if events != [] {
      var o, before := Run(policy, events), Run(policy, Front(events));
      RestartsPerWindow(policy, Front(events), from);
      hide Run, Within, Cutoff, Decision;
      CrashesOn(policy, events);
      if Last(events).Crashed? {
        var crash := Last(o.crashes);
        if crash.action.Restart? && from <= crash.time <= from + policy.crashWindowSecs {
          RestartLeavesRoom(policy, events, from);
          RestartsAreCrashes(o.crashes, from, from + policy.crashWindowSecs);
        }
      }
    }
  }

  predicate WithinAllowed(policy: WatchdogPolicy, events: seq<Event>, from: i64) {
    Restarts(Run(policy, events).crashes, from, from + policy.crashWindowSecs) <= Allowed(policy)
  }

  ghost predicate BoundedRestarts(policy: WatchdogPolicy) {
    forall events: seq<Event>, from: i64 :: Ordered(events) ==> WithinAllowed(policy, events, from)
  }

  lemma CrashTrips(o: Outcome, now: i64, policy: WatchdogPolicy)
    requires policy.maxConsecutiveCrashes <= 1
    ensures
      var next := Step(o, Crashed(now), policy);
      next.crashes != [] && Front(next.crashes) == o.crashes && Last(next.crashes).action.TripCircuitBreaker?
  {
  }

  lemma {:induction false} NeverRestarts(policy: WatchdogPolicy, events: seq<Event>, from: int, to: int)
    requires policy.maxConsecutiveCrashes <= 1
    ensures Restarts(Run(policy, events).crashes, from, to) == 0
  {
    if events != [] {
      NeverRestarts(policy, Front(events), from, to);
      if Last(events).Crashed? {
        CrashTrips(Run(policy, Front(events)), Last(events).time, policy);
      }
      hide AfterCrash, Decision;
    }
  }

  /** Crashes at the first instant of the clock: with a negative window each one forgets the others. */
  function Burst(k: nat): seq<Event> { if k == 0 then [] else Burst(k - 1) + [Crashed(I64_MIN)] }

  lemma {:induction false} BurstTimes(k: nat)
    ensures forall i :: 0 <= i < |Burst(k)| ==> Burst(k)[i].time == I64_MIN
  {
    if k > 0 {
      BurstTimes(k - 1);
    }
  }

  lemma RunSnoc(policy: WatchdogPolicy, events: seq<Event>, e: Event)
    ensures Run(policy, events + [e]) == Step(Run(policy, events), e, policy)
  {
    assert Front(events + [e]) == events;
  }

  /** A crash after at most one other: with a negative window that one is forgotten. */
  lemma ForgetfulCrash(policy: WatchdogPolicy, o: Outcome, now: i64, to: int)
    requires policy.crashWindowSecs >= TWO_63 && policy.maxConsecutiveCrashes >= 2 && now < 0 && now <= to
    requires o.tracking.streak + 1 < policy.maxConsecutiveCrashes
    requires o.tracking.history == [] || o.tracking.history == [I64_MIN]
    ensures
      var next := Step(o, Crashed(now), policy);
      && next.tracking.streak == o.tracking.streak + 1 && next.tracking.history == [now]
      && Restarts(next.crashes, I64_MIN, to)
         == Restarts(o.crashes, I64_MIN, to) + 1
  {
    var next := Step(o, Crashed(now), policy);
    var cutoff := Cutoff(policy, now);
    assert cutoff > I64_MIN;
    assert Within(o.tracking.history, cutoff) == [];
    hide Within, Cutoff, Backoff;
    assert [] + [now] == [now];
    assert Front(next.crashes) == o.crashes && Last(next.crashes).action.Restart?;
  }

  /** After k crashes at the first instant: all granted, only the last one remembered. */
  predicate Spent(o: Outcome, k: nat, to: int) {
    o.tracking.streak == k && o.tracking.history == (if k == 0 then [] else [I64_MIN])
      && Restarts(o.crashes, I64_MIN, to) == k
  }

  lemma SpendOne(policy: WatchdogPolicy, o: Outcome, k: nat, to: int)
    requires policy.crashWindowSecs >= TWO_63 && k + 1 < policy.maxConsecutiveCrashes && I64_MIN <= to
    requires Spent(o, k, to)
    ensures Spent(Step(o, Crashed(I64_MIN), policy), k + 1, to)
  {
    hide Within, Cutoff, Step, Restarts;
    ForgetfulCrash(policy, o, I64_MIN, to);
  }

  lemma {:induction false} BurstRun(policy: WatchdogPolicy, k: nat, to: int)
    requires policy.crashWindowSecs >= TWO_63 && policy.maxConsecutiveCrashes >= 2
    requires k < policy.maxConsecutiveCrashes && I64_MIN <= to
    ensures Spent(Run(policy, Burst(k)), k, to)
  {
    if k > 0 {
      hide Step, Spent;
      BurstRun(policy, k - 1, to);
      SpendOne(policy, Run(policy, Burst(k - 1)), k - 1, to);
      RunSnoc(policy, Burst(k - 1), Crashed(I64_MIN));
    }
  }

  /** A window of 2^63 seconds or more is negative as an i64: one restart too many is granted. */
  lemma WindowOverflow(policy: WatchdogPolicy) returns (events: seq<Event>)
    requires policy.crashWindowSecs >= TWO_63 && policy.maxConsecutiveCrashes >= 2
    ensures Ordered(events)
    ensures Restarts(Run(policy, events).crashes, I64_MIN, I64_MIN + policy.crashWindowSecs) == Allowed(policy) + 1
  {
    hide Run, Restarts, Within;
    var burst := Burst(policy.maxConsecutiveCrashes - 1);
    BurstRun(policy, policy.maxConsecutiveCrashes - 1, I64_MIN + policy.crashWindowSecs);
    BurstTimes(policy.maxConsecutiveCrashes - 1);
    var started := burst + [Started(I64_MIN)];
    var beat := started + [Beat(-1)];
    RunSnoc(policy, burst, Started(I64_MIN));
    RunSnoc(policy, started, Beat(-1));
    ForgetfulCrash(policy, Run(policy, beat), -1, I64_MIN + policy.crashWindowSecs);
    RunSnoc(policy, beat, Crashed(-1));
    events := beat + [Crashed(-1)];
  }

  /** The restart bound holds of every run exactly when the window fits an i64, or no restart is allowed at all. */
  lemma RestartBoundExact(policy: WatchdogPolicy)
    ensures BoundedRestarts(policy) <==> policy.crashWindowSecs < TWO_63 || policy.maxConsecutiveCrashes <= 1
  {
    if policy.crashWindowSecs < TWO_63 {
      forall events: seq<Event>, from: i64 | Ordered(events)
        ensures WithinAllowed(policy, events, from)
      {
        RestartsPerWindow(policy, events, from);
      }
    } else if policy.maxConsecutiveCrashes <= 1 {
      forall events: seq<Event>, from: i64 | Ordered(events)
        ensures WithinAllowed(policy, events, from)
      {
        NeverRestarts(policy, events, from, from + policy.crashWindowSecs);
      }
    } else {
      var events := WindowOverflow(policy);
      var from: i64 := I64_MIN;
      assert !WithinAllowed(policy, events, from);
    }
  }

  // ----- Backoff ------------------------------------------------------------------

  /** No doubling of the base delay loses a high bit, or what is left is beyond the cap anyway. */
  predicate DoublesSafely(base: u64) {
    || base < 0x1000_0000_0000_0000
    || (base % 0x8000_0000_0000_0000 >= 16000 && base % 0x4000_0000_0000_0000 >= 8000
        && base % 0x2000_0000_0000_0000 >= 4000 && base % 0x1000_0000_0000_0000 >= 2000)
  }

  ghost predicate DelaysGrow(base: u64) {
    forall a: u32, b: u32 :: 1 <= a <= b ==> Backoff(base, a) <= Backoff(base, b)
  }

  lemma LowBits(base: u64, factor: nat, unit: nat)
    requires (factor, unit) in {(2, 0x8000_0000_0000_0000), (4, 0x4000_0000_0000_0000),
                                (8, 0x2000_0000_0000_0000), (16, 0x1000_0000_0000_0000)}
    ensures WrappingMul(base, factor) == factor * (base % unit)
  {
    var q, r := base / unit, base % unit;
    assert base == q * unit + r;
    assert base * factor == q * 0x1_0000_0000_0000_0000 + factor * r;
  }

  /** The delays of the first five crashes of a streak. */
  lemma Delays(base: u64, streak: u32)
    requires streak >= 1
    ensures Backoff(base, streak) ==
      var delay :=
        if streak == 1 then base
        else if streak == 2 then 2 * (base % 0x8000_0000_0000_0000)
        else if streak == 3 then 4 * (base % 0x4000_0000_0000_0000)
        else if streak == 4 then 8 * (base % 0x2000_0000_0000_0000)
        else 16 * (base % 0x1000_0000_0000_0000);
      if delay < 32000 then delay else 32000
  {
    if streak == 1 {
      assert WrappingMul(base, 1) == base;
    } else if streak == 2 {
      LowBits(base, 2, 0x8000_0000_0000_0000);
    } else if streak == 3 {
      LowBits(base, 4, 0x4000_0000_0000_0000);
    } else if streak == 4 {
      LowBits(base, 8, 0x2000_0000_0000_0000);
    } else {
      LowBits(base, 16, 0x1000_0000_0000_0000);
    }
  }

  lemma LargeBase(base: u64, streak: u32)
    requires 0x1000_0000_0000_0000 <= base && DoublesSafely(base) && 1 <= streak
    ensures Backoff(base, streak) == 32000
  {
    hide Backoff;
    Delays(base, streak);
  }

  lemma NoHighBits(base: u64)
    requires base < 0x1000_0000_0000_0000
    ensures base % 0x8000_0000_0000_0000 == base && base % 0x4000_0000_0000_0000 == base
    ensures base % 0x2000_0000_0000_0000 == base && base % 0x1000_0000_0000_0000 == base
  {
  }

  lemma SmallBase(base: u64, streak: u32)
    requires base < 0x1000_0000_0000_0000 && 1 <= streak
    ensures
      var factor := if streak < 5 then [1, 1, 2, 4, 8][streak] else 16;
      var delay := factor * base;
      Backoff(base, streak) == if delay < 32000 then delay else 32000
  {
    hide Backoff;
    NoHighBits(base);
    Delays(base, streak);
  }

  lemma SafeDelays(base: u64, a: u32, b: u32)
    requires DoublesSafely(base) && 1 <= a <= b
    ensures Backoff(base, a) <= Backoff(base, b)
  {
    hide Backoff;
    if base < 0x1000_0000_0000_0000 {
      SmallBase(base, a);
      SmallBase(base, b);
    } else {
      LargeBase(base, a);
      LargeBase(base, b);
    }
  }

  lemma FirstDelays(base: u64)
    requires DelaysGrow(base)
    ensures DoublesSafely(base)
  {
    hide Backoff;
    assert forall k: u32 :: 1 <= k <= 5 ==> Backoff(base, 1) <= Backoff(base, k);
    Delays(base, 1);
    Delays(base, 2);
    Delays(base, 3);
    Delays(base, 4);
    Delays(base, 5);
  }

  /** Delays grow along a streak exactly for the base delays whose doublings are safe. */
  lemma DelaysGrowExactly(base: u64)
    ensures DelaysGrow(base) <==> DoublesSafely(base)
  {
    hide Backoff;
    if DelaysGrow(base) {
      FirstDelays(base);
    } else {
      forall a: u32, b: u32 | DoublesSafely(base) && 1 <= a <= b ensures Backoff(base, a) <= Backoff(base, b) {
        SafeDelays(base, a, b);
      }
    }
  }

  /** The streak counter has 32 bits. */
  function Wrapped(n: int): u32 { n % 0x1_0000_0000 }

  lemma WrappedNext(n: int, d: int)
    ensures Wrapped(Wrapped(n + d) + 1) == Wrapped(n + (d + 1))
  {
  }

  /** Each crash since the last reset leads to the present streak. */
  ghost predicate CountsOn(crashes: seq<Crash>, resets: nat, streak: u32) {
    && (forall i :: 0 <= i < |crashes| ==> crashes[i].resets <= resets)
    && (forall i :: 0 <= i < |crashes| && crashes[i].resets == resets ==>
         streak == Wrapped(crashes[i].streak + (|crashes| - 1 - i)))
  }

  ghost predicate PairsCount(crashes: seq<Crash>) {
    forall i, j :: 0 <= i < j < |crashes| && crashes[i].resets == crashes[j].resets ==>
      crashes[j].streak == Wrapped(crashes[i].streak + (j - i))
  }

  ghost predicate DelaysFit(crashes: seq<Crash>, policy: WatchdogPolicy) {
    forall i :: 0 <= i < |crashes| && crashes[i].action.Restart? ==>
      crashes[i].action.delayMs == Backoff(policy.restartDelayMs, crashes[i].streak)
  }

  /** Every crash is answered by its place in its streak, counted in 32 bits. */
  ghost predicate StreaksCounted(o: Outcome, policy: WatchdogPolicy) {
    CountsOn(o.crashes, o.resets, o.tracking.streak) && PairsCount(o.crashes) && DelaysFit(o.crashes, policy)
  }

  lemma OneMoreCounts(crashes: seq<Crash>, resets: nat, streak: u32, crash: Crash)
    requires CountsOn(crashes, resets, streak) && PairsCount(crashes)
    requires crash.resets == resets && crash.streak == Wrapped(streak + 1)
    ensures CountsOn(crashes + [crash], resets, crash.streak) && PairsCount(crashes + [crash])
  {
    var n := |crashes|;
    assert Wrapped(crash.streak + 0) == crash.streak;
    hide Wrapped;
    forall i | 0 <= i < n && crashes[i].resets == resets
      ensures crash.streak == Wrapped(crashes[i].streak + (n - i))
    {
      WrappedNext(crashes[i].streak, n - 1 - i);
    }
  }

  lemma CrashCounted(o: Outcome, now: i64, policy: WatchdogPolicy)
    requires StreaksCounted(o, policy)
    ensures StreaksCounted(Step(o, Crashed(now), policy), policy)
  {
    hide Backoff, Within, Cutoff, CountsOn, PairsCount;
    var next := Step(o, Crashed(now), policy);
    OneMoreCounts(o.crashes, o.resets, o.tracking.streak, Last(next.crashes));
  }

  /** Within one streak every crash counts one further. */
  lemma {:induction false} StreakCounts(policy: WatchdogPolicy, events: seq<Event>)
    ensures StreaksCounted(Run(policy, events), policy)
  {
    assert PairsCount([]) && DelaysFit([], policy);
    hide Backoff, AfterCrash, Decision, PairsCount, DelaysFit, Wrapped;
    if events != [] {
      var before := Run(policy, Front(events));
      assert Run(policy, events) == Step(before, Last(events), policy);
      hide Run;
      StreakCounts(policy, Front(events));
      if Last(events).Crashed? {
        CrashCounted(before, Last(events).time, policy);
      }
    }
  }

  predicate AnswersStreak(crash: Crash, policy: WatchdogPolicy) {
    match crash.action
    case Restart(delay) => crash.streak < policy.maxConsecutiveCrashes && delay <= 32000
    case TripCircuitBreaker(total) => total == crash.streak
  }

  /** Resets are counted upwards, and every crash is answered by its streak as it stood then. */
  ghost predicate AnsweredInTurn(o: Outcome, policy: WatchdogPolicy) {
    && (forall i, j :: 0 <= i <= j < |o.crashes| ==> o.crashes[i].resets <= o.crashes[j].resets <= o.resets)
    && (forall i :: 0 <= i < |o.crashes| ==> AnswersStreak(o.crashes[i], policy))
  }

  lemma {:induction false} AlwaysInTurn(policy: WatchdogPolicy, events: seq<Event>)
    ensures AnsweredInTurn(Run(policy, events), policy)
  {
    hide Within, Cutoff;
    if events != [] {
      var before, o := Run(policy, Front(events)), Run(policy, events);
      AlwaysInTurn(policy, Front(events));
      assert o == Step(before, Last(events), policy);
      hide Run;
      if Last(events).Crashed? {
        assert AnswersStreak(Last(o.crashes), policy);
        assert o.crashes == before.crashes + [Last(o.crashes)];
      }
    }
  }

  /** No restart of any run is delayed by more than 32 seconds. */
  lemma DelaysCapped(policy: WatchdogPolicy, events: seq<Event>, i: nat)
    requires i < |Run(policy, events).crashes| && Run(policy, events).crashes[i].action.Restart?
    ensures Run(policy, events).crashes[i].action.delayMs <= 32000
  {
    AlwaysInTurn(policy, events);
    assert AnswersStreak(Run(policy, events).crashes[i], policy);
    hide Run;
  }

  const LAST_COUNT: u32 := 0xffff_ffff

  /** None of these crashes was answered as the last one that the 32-bit counter can count. */
  predicate NoneLast(crashes: seq<Crash>, i: nat, j: nat)
    requires j <= |crashes|
  {
    forall k :: i <= k < j ==> crashes[k].action != TripCircuitBreaker(LAST_COUNT)
  }

  /** Up to such an answer the counter does not wrap. */
  lemma {:induction false} CountsUp(policy: WatchdogPolicy, events: seq<Event>, i: nat, j: nat)
    requires i <= j < |Run(policy, events).crashes|
    requires
      var crashes := Run(policy, events).crashes;
      crashes[i].resets == crashes[j].resets && NoneLast(crashes, i, j)
    ensures Run(policy, events).crashes[j].streak == Run(policy, events).crashes[i].streak + (j - i)
    decreases j
  {
    var crashes := Run(policy, events).crashes;
    StreakCounts(policy, events);
    AlwaysInTurn(policy, events);
    hide Run;
    if i < j {
      assert crashes[i].resets <= crashes[j - 1].resets <= crashes[j].resets;
      CountsUp(policy, events, i, j - 1);
      assert AnswersStreak(crashes[j - 1], policy);
      assert crashes[j - 1].streak != LAST_COUNT;
      assert crashes[j].streak == Wrapped(crashes[j - 1].streak + 1);
    }
  }

  lemma FirstDelay(base: u64)
    ensures Backoff(base, 0) == Backoff(base, 1)
  {
  }

  /**
   * Along a streak restart delays never shrink, unless on the way the breaker tripped with the largest
   * number its counter can hold; in particular they do not while every crash is answered with a restart.
   */
  lemma StreakDelaysGrow(policy: WatchdogPolicy, events: seq<Event>, i: nat, j: nat)
    requires DoublesSafely(policy.restartDelayMs)
    requires i < j < |Run(policy, events).crashes|
    requires
      var crashes := Run(policy, events).crashes;
      && crashes[i].resets == crashes[j].resets && NoneLast(crashes, i, j)
      && crashes[i].action.Restart? && crashes[j].action.Restart?
    ensures
      var crashes := Run(policy, events).crashes;
      crashes[i].action.delayMs <= crashes[j].action.delayMs
  {
    hide Run;
    var base, crashes := policy.restartDelayMs, Run(policy, events).crashes;
    var a, b := crashes[i].streak, crashes[j].streak;
    StreakCounts(policy, events);
    CountsUp(policy, events, i, j);
    FirstDelay(base);
    SafeDelays(base, if a == 0 then 1 else a, b);
  }

  /** One crash a second, from the start of the clock. */
  function EverySecond(n: nat): seq<Event>
    requires n <= TWO_63
  {
    if n == 0 then [] else EverySecond(n - 1) + [Crashed(n - 1)]
  }

  const FORGETFUL: WatchdogPolicy := WatchdogPolicy(0, 0, 1000, 10, 0, 0)

  function ForgetfulAnswer(streak: u32): CrashAction {
    if streak < 10 then Restart(Backoff(1000, streak)) else TripCircuitBreaker(streak)
  }

  /** After a crash a second for `n` seconds: all in one streak, only the last one in the window. */
  ghost predicate Ticked(o: Outcome, n: nat) {
    && |o.crashes| == n && o.resets == 0 && o.tracking.streak == Wrapped(n)
    && (if n == 0 then o.tracking.history == [] else |o.tracking.history| == 1 && o.tracking.history[0] == n - 1)
    && forall k :: 0 <= k < n ==> o.crashes[k].resets == 0 && o.crashes[k].action == ForgetfulAnswer(Wrapped(k + 1))
  }

  lemma OneMoreSecond(o: Outcome, n: nat)
    requires n < TWO_63 && Ticked(o, n)
    ensures Ticked(Step(o, Crashed(n), FORGETFUL), n + 1)
  {
    var next := Step(o, Crashed(n), FORGETFUL);
    assert Within(o.tracking.history, n) == [];
    assert next.tracking.history == [n];
    WrappedNext(n, 0);
    hide Backoff, Within, Wrapped;
    assert next.tracking.streak == Wrapped(n + 1);
    assert Last(next.crashes).action == ForgetfulAnswer(Wrapped(n + 1));
    hide ForgetfulAnswer;
  }

  lemma {:induction false} EverySecondOrdered(n: nat)
    requires n <= TWO_63
    ensures Ordered(EverySecond(n)) && |EverySecond(n)| == n && (n > 0 ==> Last(EverySecond(n)).time == n - 1)
  {
    if n > 0 {
      EverySecondOrdered(n - 1);
    }
  }

  lemma {:induction false} EverySecondRun(n: nat)
    requires n <= TWO_63
    ensures Ticked(Run(FORGETFUL, EverySecond(n)), n)
  {
    if n > 0 {
      var before := EverySecond(n - 1);
      EverySecondRun(n - 1);
      RunSnoc(FORGETFUL, before, Crashed(n - 1));
      hide Ticked, Run, Step;
      OneMoreSecond(Run(FORGETFUL, before), n - 1);
    }
  }

  lemma FarApart()
    ensures ForgetfulAnswer(Wrapped(5)) == Restart(16000)
    ensures ForgetfulAnswer(Wrapped(LAST_COUNT + 1)) == Restart(1000)
  {
  }

  /** A streak in which the counter wraps: the delay of its fifth crash is 16 s, that of its 2^32th is 1 s. */
  lemma WrapStartsOver(n: nat)
    requires n == 0x1_0000_0000
    ensures
      var o := Run(FORGETFUL, EverySecond(n));
      && Ordered(EverySecond(n)) && |o.crashes| == n
      && o.crashes[4].resets == o.crashes[LAST_COUNT].resets
      && o.crashes[4].action == Restart(16000) && o.crashes[LAST_COUNT].action == Restart(1000)
  {
    FarApart();
    assert n <= TWO_63;
    hide Run, EverySecond, ForgetfulAnswer, Wrapped;
    EverySecondOrdered(n);
    EverySecondRun(n);
  }

  /** When the worker that is up was started, if one is. */
  function UpSince(events: seq<Event>): Option<i64> {
    if events == [] || Last(events).Crashed? then None
    else if Last(events).Started? then Some(Last(events).time)
    else UpSince(Front(events))
  }

  lemma {:induction false} UpRecorded(policy: WatchdogPolicy, events: seq<Event>)
    ensures Run(policy, events).tracking.workerStarted == UpSince(events)
  {
    if events != [] {
      UpRecorded(policy, Front(events));
      hide Within, Decision;
    }
  }

  /**
   * A streak ends exactly with a heartbeat of a worker that has been up for the stable period; then it
   * starts from zero, and nothing else sets it back.
   */
  lemma ResetsExactly(policy: WatchdogPolicy, events: seq<Event>, now: i64)
    ensures
      var before, after := Run(policy, events), Run(policy, events + [Beat(now)]);
      if UpSince(events).Some? && LastsAtLeast(UpSince(events).value, now, policy.stableResetSecs)
      then after.tracking.streak == 0 && after.resets == before.resets + 1
      else after.tracking.streak == before.tracking.streak && after.resets == before.resets
  {
    UpRecorded(policy, events);
    RunSnoc(policy, events, Beat(now));
    hide Run;
  }

  /** The crashes of a run that a window reaches. */
  function InWindow(crashes: seq<Crash>, from: int): set<nat> {
    set k: nat | k < |crashes| && crashes[k].time >= from
  }

  lemma {:induction false} WithinCounts(crashes: seq<Crash>, from: int)
    ensures |Within(Times(crashes), from)| == |InWindow(crashes, from)|
  {
    if crashes == [] {
      assert InWindow(crashes, from) == {};
    } else {
      var front, last := Front(crashes), |crashes| - 1;
      WithinCounts(front, from);
      assert Front(Times(crashes)) == Times(front);
      if crashes[last].time >= from {
        assert InWindow(crashes, from) == InWindow(front, from) + {last};
      } else {
        assert InWindow(crashes, from) == InWindow(front, from);
      }
    }
  }

  /** How many crashes came since the last reset. */
  function SinceReset(crashes: seq<Crash>, resets: nat): nat {
    if crashes == [] then 0
    else SinceReset(Front(crashes), resets) + if Last(crashes).resets == resets then 1 else 0
  }

  lemma {:induction false} NoneSince(crashes: seq<Crash>, resets: nat)
    requires forall i :: 0 <= i < |crashes| ==> crashes[i].resets < resets
    ensures SinceReset(crashes, resets) == 0
  {
    if crashes != [] {
      NoneSince(Front(crashes), resets);
    }
  }

  lemma {:induction false} StreakIsCount(policy: WatchdogPolicy, events: seq<Event>)
    ensures
      var o := Run(policy, events);
      && o.tracking.streak == Wrapped(SinceReset(o.crashes, o.resets))
      && (forall i :: 0 <= i < |o.crashes| ==> o.crashes[i].resets <= o.resets)
  {
    hide Decision, Within;
    if events != [] {
      var before, o := Run(policy, Front(events)), Run(policy, events);
      assert o == Step(before, Last(events), policy);
      hide Run;
      StreakIsCount(policy, Front(events));
      if Last(events).Crashed? {
        assert Front(o.crashes) == before.crashes;
        WrappedNext(SinceReset(before.crashes, before.resets), 0);
      } else if o.resets != before.resets {
        NoneSince(o.crashes, o.resets);
      }
    }
  }

  /** The beginning of the window that ends now. */
  function WindowStart(policy: WatchdogPolicy, now: i64): int {
    var seconds := if policy.crashWindowSecs < TWO_63 then policy.crashWindowSecs else policy.crashWindowSecs - TWO_64;
    if now - seconds < I64_MIN then I64_MIN else if now - seconds > I64_MAX then I64_MAX else now - seconds
  }

  /**
   * A crash is answered with a restart exactly when the crashes since the last reset, counted in 32 bits,
   * are fewer than the limit, and so are the crashes in the window that ends with it.
   */
  lemma AnsweredExactly(policy: WatchdogPolicy, events: seq<Event>)
    requires Ordered(events) && events != [] && Last(events).Crashed?
    ensures
      var o := Run(policy, events);
      && o.crashes != []
      && (Last(o.crashes).action.Restart? <==>
           && SinceReset(o.crashes, o.resets) % 0x1_0000_0000 < policy.maxConsecutiveCrashes
           && |InWindow(Front(o.crashes), WindowStart(policy, Last(events).time))| + 1 < policy.maxConsecutiveCrashes)
  {
    var o := Run(policy, events);
    assert o == Step(Run(policy, Front(events)), Last(events), policy);
    assert Last(o.crashes).action == Decision(o.tracking, policy) && Last(o.crashes).time == Last(events).time;
    assert Cutoff(policy, Last(events).time) == WindowStart(policy, Last(events).time);
    WithinCounts(Front(o.crashes), WindowStart(policy, Last(events).time));
    hide Run, Step, Cutoff, WindowStart;
    StreakIsCount(policy, events);
    HistoryIsWindow(policy, events);
  }

  /** The last sign of life of the worker that is up, if one is. */
  function LastSign(events: seq<Event>): Option<i64> {
    if events == [] || Last(events).Crashed? then None else Some(Last(events).time)
  }

  lemma SignRecorded(policy: WatchdogPolicy, events: seq<Event>)
    ensures Run(policy, events).tracking.lastHeartbeat == LastSign(events)
  {
  }

  /** The age of a sign of life, as far as an i64 reaches. */
  function Age(last: i64, now: i64): int { SaturatingSub(now, last) }

  const MILLISECONDS: int := 18_446_744_073_709_551

  lemma AgeInMs(last: i64, now: i64)
    ensures WrappingMul(AsU64(SaturatingSub(now, last)), 1000) == (Age(last, now) * 1000) % TWO_64
  {
    var age := Age(last, now);
    if age < 0 {
      assert AsU64(SaturatingSub(now, last)) * 1000 == age * 1000 + 1000 * TWO_64;
    }
  }

  /**
   * When a worker counts as hung, for all readings of the clock: its age in milliseconds, in 64 bits,
   * reaches the timeout. Up to 2^64 ms that is its true age; behind a clock that was set back it is
   * hung unless the timeout is out of all proportion.
   */
  lemma TimedOutExactly(policy: WatchdogPolicy, events: seq<Event>, now: i64)
    ensures
      var timedOut := TimedOut(Run(policy, events).tracking, now, policy);
      match LastSign(events)
      case None => !timedOut
      case Some(last) =>
        var age := Age(last, now);
        && (timedOut <==> (age * 1000) % TWO_64 >= policy.heartbeatTimeoutMs)
        && (0 <= age <= MILLISECONDS ==> (timedOut <==> age * 1000 >= policy.heartbeatTimeoutMs))
        && (-MILLISECONDS <= age < 0 ==> (timedOut <==> TWO_64 + age * 1000 >= policy.heartbeatTimeoutMs))
  {
    SignRecorded(policy, events);
    hide Run;
    if LastSign(events).Some? {
      AgeInMs(LastSign(events).value, now);
    }
  }
}
