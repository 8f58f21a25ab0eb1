// The runtime coordinator (runtime/coordinator.rs, runtime/state.rs): ordered start-up and reverse
// teardown of components whose every call may fail or time out.
//
// How the calls of the components end is an input; every call and every published state is recorded,
// so that the theorems can speak of the order of calls, states and broadcasts over whole runs.
module Coordinator {
  import opened Seqs

  datatype RuntimeState = Created | Initializing | Ready | Running | Degraded | Stopping | Stopped | Failed

  predicate CanTransition(from: RuntimeState, next: RuntimeState) {
    from == next ||
    match from
    case Created => next == Initializing
    case Initializing => next in {Ready, Failed}
    case Ready => next in {Running, RuntimeState.Stopping, Failed}
    case Running => next in {Degraded, RuntimeState.Stopping, Failed}
    case Degraded => next in {Running, RuntimeState.Stopping, Failed}
    case Stopping => next in {Stopped, Failed}
    case Stopped => false
    case Failed => next in {RuntimeState.Stopping, Stopped}
  }

  datatype Component = Component(name: string, critical: bool)

  datatype Kind = Initialize | Start | Stop

  /** One call of one component: what, which (by place of registration), and whether it went well. */
  datatype Invocation = Invocation(kind: Kind, index: nat, ok: bool)

  datatype ComponentHealth = Healthy | Unwell | Broken

  datatype StopOutcome = StopOk | StopError | StopTimeout

  /**
   * The coordinator, every state it has published, every component call it has made, and for every
   * broadcast of the shutdown signal how many calls had been made before it.
   */
  datatype View = View(
    state: RuntimeState, published: seq<RuntimeState>, components: seq<Component>,
    log: seq<Invocation>, signals: seq<nat>)

  const NEW: View := View(Created, [Created], [], [], [])

  function Moved(v: View, next: RuntimeState): View {
    if CanTransition(v.state, next) then v.(state := next, published := v.published + [next]) else v
  }

  /** The calls of a start-up phase from a component on: in order, until a critical one fails. */
  function Calls(kind: Kind, components: seq<Component>, fails: nat -> bool, i: nat): seq<Invocation>
    decreases |components| - i
  {
    if i >= |components| then []
    else
      [Invocation(kind, i, !fails(i))] +
      if components[i].critical && fails(i) then [] else Calls(kind, components, fails, i + 1)
  }

  /** Some critical component fails, from this one on. */
  predicate Aborts(components: seq<Component>, fails: nat -> bool, i: nat)
    decreases |components| - i
  {
    i < |components| && ((components[i].critical && fails(i)) || Aborts(components, fails, i + 1))
  }

  predicate AnyFails(components: seq<Component>, fails: nat -> bool) {
    exists i: nat :: i < |components| && fails(i)
  }

  function Initialized(v: View, fails: nat -> bool): View {
    if !CanTransition(v.state, Initializing) then v
    else
      var begun := Moved(v, Initializing);
      var called := begun.(log := begun.log + Calls(Kind.Initialize, v.components, fails, 0));
      Moved(called, if Aborts(v.components, fails, 0) then Failed else Ready)
  }

  function Started(v: View, fails: nat -> bool): View {
    if v.state != Ready then v
    else
      var begun := Moved(v, Running);
      var called := begun.(log := begun.log + Calls(Kind.Start, v.components, fails, 0));
      if Aborts(v.components, fails, 0) then Moved(called, Failed).(signals := v.signals + [|called.log|])
      else if AnyFails(v.components, fails) then Moved(called, Degraded)
      else called
  }

  function Triggered(v: View): View {
    if v.state in {RuntimeState.Stopping, Stopped} then v
    else
      var moved := if v.state.Failed? then v else Moved(v, RuntimeState.Stopping);
      moved.(signals := v.signals + [|v.log|])
  }

  /** The stops of the first `n` components, the last one first. */
  function Stops(outcomes: nat -> StopOutcome, n: nat): seq<Invocation> {
    if n == 0 then [] else [Invocation(Kind.Stop, n - 1, outcomes(n - 1).StopOk?)] + Stops(outcomes, n - 1)
  }

  function TornDown(v: View, outcomes: nat -> StopOutcome): View {
    var triggered := Triggered(v);
    var called := triggered.(log := triggered.log + Stops(outcomes, |v.components|));
    if v.state.Failed? then called else Moved(called, Stopped)
  }

  /** Broken if a critical component is, else unwell if any component is not healthy: in whatever order they answer. */
  function HealthOf(components: seq<Component>, health: nat -> ComponentHealth): ComponentHealth {
    if exists i: nat :: i < |components| && components[i].critical && health(i).Broken? then Broken
    else if exists i: nat :: i < |components| && !health(i).Healthy? then Unwell
    else Healthy
  }

  lemma CallsStep(log: seq<Invocation>, kind: Kind, components: seq<Component>, fails: nat -> bool, i: nat)
    requires i < |components|
    ensures log + Calls(kind, components, fails, i) ==
      (log + [Invocation(kind, i, !fails(i))]) +
      if components[i].critical && fails(i) then [] else Calls(kind, components, fails, i + 1)
  {
  }

  class RuntimeCoordinator {
    var state: RuntimeState
    var published: seq<RuntimeState>
    var components: seq<Component>
    var log: seq<Invocation>
    var signals: seq<nat>

    ghost function Now(): View reads this { View(state, published, components, log, signals) }

    constructor ()
      ensures Now() == NEW
    {
      state, published, components, log, signals := Created, [Created], [], [], [];
    }

    method TransitionTo(next: RuntimeState) returns (ok: bool)
      modifies this`state, this`published
      ensures ok == CanTransition(old(state), next) && Now() == Moved(old(Now()), next)
      ensures ok ==
        match next
        case Created => old(state) == Created
        case Initializing => old(state) in {Created, Initializing}
        case Ready => old(state) in {Initializing, Ready}
        case Running => old(state) in {Ready, Running, Degraded}
        case Degraded => old(state) in {Running, Degraded}
        case Failed => old(state) !in {Created, Stopped}
        case Stopping => old(state) !in {Created, Initializing, Stopped}
        case Stopped => old(state) in {RuntimeState.Stopping, Stopped, Failed}
      ensures if ok then state == next && published == old(published) + [next]
              else state == old(state) && published == old(published)
    {
      ok := CanTransition(state, next);
      if ok {
        state := next;
        published := published + [next];
      }
    }

    method RegisterComponent(component: Component) returns (ok: bool)
      modifies this`components
      ensures ok == (state == Created)
      ensures components == if ok then old(components) + [component] else old(components)
    {
      ok := state == Created;
      if ok {
        components := components + [component];
      }
    }

    /** `fails` says which component's call will fail. */
    method InitializeAll(fails: nat -> bool) returns (ok: bool)
      modifies this`state, this`published, this`log
      ensures Now() == Initialized(old(Now()), fails)
      ensures ok <==> CanTransition(old(state), Initializing) && !Aborts(components, fails, 0)
    {
      var moved := TransitionTo(Initializing);
      if !moved {
        return false;
      }
      ghost var begun := log;
      for i := 0 to |components|
        invariant state == Initializing && published == old(published) + [Initializing]
        invariant log + Calls(Kind.Initialize, components, fails, i)
          == begun + Calls(Kind.Initialize, components, fails, 0)
        invariant Aborts(components, fails, 0) == Aborts(components, fails, i)
      {
        CallsStep(log, Kind.Initialize, components, fails, i);
        log := log + [Invocation(Kind.Initialize, i, !fails(i))];
        if fails(i) && components[i].critical {
          var _ := TransitionTo(Failed);
          return false;
        }
      }
      var _ := TransitionTo(Ready);
      ok := true;
    }

    method StartAll(fails: nat -> bool) returns (ok: bool)
      modifies this`state, this`published, this`log, this`signals
      ensures Now() == Started(old(Now()), fails)
      ensures ok <==> old(state) == Ready && !Aborts(components, fails, 0)
    {
      if state != Ready {
        return false;
      }
      var _ := TransitionTo(Running);
      ghost var begun := log;
      var hasDegraded := false;
      for i := 0 to |components|
        invariant state == Running && published == old(published) + [Running] && signals == old(signals)
        invariant log + Calls(Kind.Start, components, fails, i) == begun + Calls(Kind.Start, components, fails, 0)
        invariant Aborts(components, fails, 0) == Aborts(components, fails, i)
        invariant hasDegraded <==> exists j: nat :: j < i && fails(j)
      {
        CallsStep(log, Kind.Start, components, fails, i);
        log := log + [Invocation(Kind.Start, i, !fails(i))];
        if fails(i) {
          if components[i].critical {
            var _ := TransitionTo(Failed);
            signals := signals + [|log|];
            return false;
          }
          hasDegraded := true;
        }
      }
      if hasDegraded {
        var _ := TransitionTo(Degraded);
      }
      ok := true;
    }

    method TriggerShutdown()
      modifies this`state, this`published, this`signals
      ensures Now() == Triggered(old(Now()))
      ensures state == if old(state) in {Ready, Running, Degraded} then RuntimeState.Stopping else old(state)
      ensures published == old(published) + if state == old(state) then [] else [state]
      ensures signals == old(signals) + if old(state) in {RuntimeState.Stopping, Stopped} then [] else [|log|]
    {
      if state == RuntimeState.Stopping || state == Stopped {
        return;
      }
      if state != Failed {
        var _ := TransitionTo(RuntimeState.Stopping);
      }
      signals := signals + [|log|];
    }

    method Shutdown(outcomes: nat -> StopOutcome) returns (ok: bool)
      modifies this`state, this`published, this`log, this`signals
      ensures Now() == TornDown(old(Now()), outcomes)
      ensures ok <==> old(state) == Failed || CanTransition(Triggered(old(Now())).state, Stopped)
    {
      var wasFailed := state == Failed;
      TriggerShutdown();
      ghost var begun := log;
      var i := |components|;
      while i > 0
        invariant 0 <= i <= |components|
        invariant state == Triggered(old(Now())).state && published == Triggered(old(Now())).published
        invariant signals == Triggered(old(Now())).signals
        invariant log + Stops(outcomes, i) == begun + Stops(outcomes, |components|)
      {
        i := i - 1;
        var call := Invocation(Kind.Stop, i, outcomes(i).StopOk?);
        Shift(log, call, Stops(outcomes, i));
        log := log + [call];
      }
      assert log + Stops(outcomes, 0) == log;
      hide Stops;
      if wasFailed {
        ok := true;
      } else {
        ok := TransitionTo(Stopped);
      }
    }

    method Health(health: nat -> ComponentHealth) returns (overall: ComponentHealth)
      ensures overall == HealthOf(components, health)
      ensures overall == Broken <==> exists i: nat :: i < |components| && components[i].critical && health(i) == Broken
      ensures overall == Healthy <==> forall i: nat :: i < |components| ==> health(i) == Healthy
    {
      overall := Healthy;
      for i := 0 to |components|
        invariant forall j: nat :: j < i && components[j].critical ==> !health(j).Broken?
        invariant overall == if exists j: nat :: j < i && !health(j).Healthy? then Unwell else Healthy
      {
        match health(i)
        case Healthy =>
        case Unwell =>
          if overall == Healthy {
            overall := Unwell;
          }
        case Broken =>
          if components[i].critical {
            return Broken;
          }
          overall := Unwell;
      }
    }
  }

  // ----- Runs ---------------------------------------------------------------------

  datatype Operation =
    | Register(component: Component)
    | InitializeCall(fails: nat -> bool)
    | StartCall(fails: nat -> bool)
    | TriggerCall
    | ShutdownCall(outcomes: nat -> StopOutcome)

  function Next(v: View, op: Operation): View {
    match op
    case Register(component) => if v.state == Created then v.(components := v.components + [component]) else v
    case InitializeCall(fails) => Initialized(v, fails)
    case StartCall(fails) => Started(v, fails)
    case TriggerCall => Triggered(v)
    case ShutdownCall(outcomes) => TornDown(v, outcomes)
  }

  function After(v: View, ops: seq<Operation>): View {
    if ops == [] then v else Next(After(v, Front(ops)), Last(ops))
  }

  function Run(ops: seq<Operation>): View { After(NEW, ops) }

  /** The calls of one kind, in order. */
  function OfKind(log: seq<Invocation>, kind: Kind): seq<Invocation> {
    if log == [] then []
    else OfKind(Front(log), kind) + if Last(log).kind == kind then [Last(log)] else []
  }

  /** The first components, in order of registration, each once. */
  ghost predicate InOrder(calls: seq<Invocation>, components: seq<Component>) {
    |calls| <= |components| && forall i :: 0 <= i < |calls| ==> calls[i].index == i
  }

  /** Every component was called, and the critical ones without failure. */
  ghost predicate AllCalled(calls: seq<Invocation>, components: seq<Component>) {
    && InOrder(calls, components) && |calls| == |components|
    && forall i :: 0 <= i < |calls| && components[i].critical ==> calls[i].ok
  }

  /** Called up to the first critical component that failed. */
  ghost predicate BrokenOff(calls: seq<Invocation>, components: seq<Component>) {
    && InOrder(calls, components) && calls != []
    && !Last(calls).ok && components[|calls| - 1].critical
    && forall i :: 0 <= i < |calls| - 1 && components[i].critical ==> calls[i].ok
  }

  predicate SomeFailed(calls: seq<Invocation>) { exists i :: 0 <= i < |calls| && !calls[i].ok }

  lemma {:induction false} OfKindAppend(a: seq<Invocation>, b: seq<Invocation>, kind: Kind)
    ensures OfKind(a + b, kind) == OfKind(a, kind) + OfKind(b, kind)
    decreases |b|
  {
    if b == [] {
      assert a + b == a;
    } else {
      assert Front(a + b) == a + Front(b) && Last(a + b) == Last(b);
      OfKindAppend(a, Front(b), kind);
    }
  }

  lemma {:induction false} OfKindUniform(log: seq<Invocation>, kind: Kind)
    requires forall i :: 0 <= i < |log| ==> log[i].kind == kind
    ensures OfKind(log, kind) == log
    ensures forall other :: other != kind ==> OfKind(log, other) == []
  {
    if log != [] {
      OfKindUniform(Front(log), kind);
    }
  }

  /** Calls of one kind only add to that kind. */
  lemma AppendUniform(log: seq<Invocation>, more: seq<Invocation>, kind: Kind, other: Kind)
    requires forall i :: 0 <= i < |more| ==> more[i].kind == kind
    ensures OfKind(log + more, other) == OfKind(log, other) + if other == kind then more else []
  {
    OfKindAppend(log, more, other);
    OfKindUniform(more, kind);
  }

  lemma {:induction false} CallsMembers(kind: Kind, components: seq<Component>, fails: nat -> bool, i: nat)
    requires i <= |components|
    ensures
      var calls := Calls(kind, components, fails, i);
      && |calls| <= |components| - i
      && (forall j :: 0 <= j < |calls| ==> calls[j] == Invocation(kind, i + j, !fails(i + j)))
    decreases |components| - i
  {
    if i < |components| {
      CallsMembers(kind, components, fails, i + 1);
      var later := Calls(kind, components, fails, i + 1);
      var all := [Invocation(kind, i, !fails(i))] + later;
      hide Calls;
      assert forall j :: 0 < j <= |later| ==> all[j] == later[j - 1];
    }
  }

  /** The calls reach the first critical failure, or the end. */
  lemma {:induction false} CallsEnd(kind: Kind, components: seq<Component>, fails: nat -> bool, i: nat)
    requires i <= |components|
    ensures
      var n := |Calls(kind, components, fails, i)|;
      && i + n <= |components|
      && (if Aborts(components, fails, i)
          then
            && n > 0 && components[i + n - 1].critical && fails(i + n - 1)
            && forall j: nat :: i <= j < i + n - 1 && components[j].critical ==> !fails(j)
          else
            n == |components| - i && forall j: nat :: i <= j < |components| && components[j].critical ==> !fails(j))
    decreases |components| - i
  {
    if i < |components| {
      CallsEnd(kind, components, fails, i + 1);
    }
  }

  lemma CallsShape(kind: Kind, components: seq<Component>, fails: nat -> bool, i: nat)
    requires i <= |components|
    ensures
      var calls := Calls(kind, components, fails, i);
      && |calls| <= |components| - i
      && (forall j :: 0 <= j < |calls| ==> calls[j] == Invocation(kind, i + j, !fails(i + j)))
      && (Aborts(components, fails, i) ==>
           && calls != [] && components[i + |calls| - 1].critical && fails(i + |calls| - 1)
           && forall j: nat :: i <= j < i + |calls| - 1 && components[j].critical ==> !fails(j))
      && (!Aborts(components, fails, i) ==>
           && |calls| == |components| - i
           && forall j: nat :: i <= j < |components| && components[j].critical ==> !fails(j))
  {
    CallsMembers(kind, components, fails, i);
    CallsEnd(kind, components, fails, i);
    hide *;
  }

  /** The first `n` components have been called, up to the first critical one that fails or up to the last. */
  predicate CalledInOrder(
    before: seq<Invocation>, after: seq<Invocation>, kind: Kind, components: seq<Component>, fails: nat -> bool, n: nat)
  {
    && n <= |components| && |after| == |before| + n && before <= after
    && (forall j :: 0 <= j < n ==> after[|before| + j] == Invocation(kind, j, !fails(j)))
    && (forall j: nat :: j < n - 1 ==> !(components[j].critical && fails(j)))
    && (n < |components| ==> n > 0 && components[n - 1].critical && fails(n - 1))
  }

  predicate CriticalFails(components: seq<Component>, fails: nat -> bool) {
    exists i: nat :: i < |components| && components[i].critical && fails(i)
  }

  lemma CalledExactly(log: seq<Invocation>, kind: Kind, components: seq<Component>, fails: nat -> bool)
    ensures
      var calls := Calls(kind, components, fails, 0);
      CalledInOrder(log, log + calls, kind, components, fails, |calls|)
    ensures Aborts(components, fails, 0) <==> CriticalFails(components, fails)
  {
    CallsShape(kind, components, fails, 0);
  }

  /**
   * What a start-up phase does to a coordinator. Initialising and starting call the components in order; a
   * critical failure ends in Failed, a start in which only others failed in Degraded. A broken-off start
   * signals the shutdown behind its last call. In any other state nothing happens.
   */
  lemma StartUpExactly(v: View, fails: nat -> bool)
    ensures
      var after := Initialized(v, fails);
      if v.state !in {Created, Initializing} then after == v
      else
        && after.state == (if CriticalFails(v.components, fails) then Failed else Ready)
        && after.published == v.published + [Initializing, after.state]
        && after.components == v.components && after.signals == v.signals
        && exists n :: CalledInOrder(v.log, after.log, Kind.Initialize, v.components, fails, n)
    ensures
      var after, broken := Started(v, fails), CriticalFails(v.components, fails);
      if v.state != Ready then after == v
      else
        && after.state == (if broken then Failed
                           else if exists i: nat :: i < |v.components| && fails(i) then Degraded
                           else Running)
        && after.published == v.published + [Running] + (if after.state == Running then [] else [after.state])
        && after.components == v.components
        && after.signals == v.signals + (if broken then [|after.log|] else [])
        && exists n :: CalledInOrder(v.log, after.log, Kind.Start, v.components, fails, n)
  {
    CalledExactly(v.log, Kind.Initialize, v.components, fails);
    CalledExactly(v.log, Kind.Start, v.components, fails);
    hide Calls, Aborts, CriticalFails, CalledInOrder;
  }

  lemma {:induction false} StopsShape(outcomes: nat -> StopOutcome, n: nat)
    ensures |Stops(outcomes, n)| == n
    ensures forall j :: 0 <= j < n ==>
      Stops(outcomes, n)[j] == Invocation(Kind.Stop, n - 1 - j, outcomes(n - 1 - j).StopOk?)
  {
    if n > 0 {
      StopsShape(outcomes, n - 1);
    }
  }

  /** Which state may be published right after which one. */
  predicate Follows(from: RuntimeState, next: RuntimeState) {
    match next
    case Created => false
    case Initializing => from == Created
    case Ready => from == Initializing
    case Running => from == Ready
    case Degraded => from == Running
    case Failed => from in {Initializing, Running}
    case Stopping => from in {Ready, Running, Degraded}
    case Stopped => from in {RuntimeState.Stopping, Stopped}
  }

  /** The published states follow each other and end in the current one, at which no start-up is under way. */
  ghost predicate IsPath(v: View) {
    && v.published != [] && v.published[0] == Created && Last(v.published) == v.state
    && forall i :: 0 < i < |v.published| ==>
         CanTransition(v.published[i - 1], v.published[i]) && Follows(v.published[i - 1], v.published[i])
  }

  lemma MovedPath(v: View, next: RuntimeState)
    requires IsPath(v) && (CanTransition(v.state, next) ==> Follows(v.state, next))
    ensures IsPath(Moved(v, next))
  {
  }

  lemma SamePath(a: View, b: View)
    requires IsPath(a) && a.published == b.published && a.state == b.state
    ensures IsPath(b)
  {
  }

  lemma TriggeredPath(v: View)
    requires IsPath(v) && v.state != Initializing
    ensures IsPath(Triggered(v))
  {
    if !(v.state in {RuntimeState.Stopping, Stopped, Failed}) {
      MovedPath(v, RuntimeState.Stopping);
      SamePath(Moved(v, RuntimeState.Stopping), Triggered(v));
    } else {
      SamePath(v, Triggered(v));
    }
    hide IsPath, Moved;
  }

  lemma StepPath(v: View, op: Operation)
    requires IsPath(v) && v.state != Initializing
    ensures IsPath(Next(v, op)) && Next(v, op).state != Initializing
  {
    hide IsPath, Calls, Stops, Aborts, AnyFails;
    match op
    case Register(_) => SamePath(v, Next(v, op));
    case InitializeCall(fails) =>
      if v.state == Created {
        var begun := Moved(v, Initializing);
        MovedPath(v, Initializing);
        var called := begun.(log := begun.log + Calls(Kind.Initialize, v.components, fails, 0));
        SamePath(begun, called);
        MovedPath(called, if Aborts(v.components, fails, 0) then Failed else Ready);
      }
    case StartCall(fails) =>
      if v.state == Ready {
        var begun := Moved(v, Running);
        MovedPath(v, Running);
        var called := begun.(log := begun.log + Calls(Kind.Start, v.components, fails, 0));
        SamePath(begun, called);
        MovedPath(called, Failed);
        MovedPath(called, Degraded);
        SamePath(Moved(called, Failed), Moved(called, Failed).(signals := v.signals + [|called.log|]));
      }
    case TriggerCall => TriggeredPath(v);
    case ShutdownCall(outcomes) =>
      var triggered := Triggered(v);
      TriggeredPath(v);
      var called := triggered.(log := triggered.log + Stops(outcomes, |v.components|));
      SamePath(triggered, called);
      if !v.state.Failed? {
        MovedPath(called, Stopped);
      }
  }

  lemma {:induction false} PublishedIsPath(ops: seq<Operation>)
    ensures IsPath(Run(ops)) && Run(ops).state != Initializing
  {
    if ops != [] {
      PublishedIsPath(Front(ops));
      StepPath(Run(Front(ops)), Last(ops));
    }
  }

  // ----- Order and completeness of the calls --------------------------------------------

  function Inits(v: View): seq<Invocation> { OfKind(v.log, Kind.Initialize) }
  function Starts(v: View): seq<Invocation> { OfKind(v.log, Kind.Start) }

  /** What each state says about the start-up calls made so far. */
  ghost predicate Justified(v: View) {
    match v.state
    case Created => Inits(v) == [] && Starts(v) == []
    case Initializing => false
    case Ready => AllCalled(Inits(v), v.components) && Starts(v) == []
    case Running =>
      AllCalled(Inits(v), v.components) && AllCalled(Starts(v), v.components)
      && !SomeFailed(Starts(v))
    case Degraded =>
      AllCalled(Inits(v), v.components) && AllCalled(Starts(v), v.components)
      && SomeFailed(Starts(v))
    case Failed =>
      || (BrokenOff(Inits(v), v.components) && Starts(v) == [])
      || (AllCalled(Inits(v), v.components) && BrokenOff(Starts(v), v.components))
    case _ =>
      AllCalled(Inits(v), v.components) && (Starts(v) == [] || AllCalled(Starts(v), v.components))
  }

  lemma InitializedCalls(v: View, fails: nat -> bool)
    requires v.state == Created
    ensures
      var after := Initialized(v, fails);
      && after.components == v.components
      && after.state == (if Aborts(v.components, fails, 0) then Failed else Ready)
      && Inits(after) == Inits(v) + Calls(Kind.Initialize, v.components, fails, 0)
      && Starts(after) == Starts(v)
  {
    var after, calls := Initialized(v, fails), Calls(Kind.Initialize, v.components, fails, 0);
    CallsShape(Kind.Initialize, v.components, fails, 0);
    hide OfKind, Calls, Aborts, AnyFails;
    assert after.log == v.log + calls;
    hide Initialized, Moved, CanTransition;
    AppendUniform(v.log, calls, Kind.Initialize, Kind.Initialize);
    AppendUniform(v.log, calls, Kind.Initialize, Kind.Start);
  }

  lemma StartedCalls(v: View, fails: nat -> bool)
    requires v.state == Ready
    ensures
      var after := Started(v, fails);
      && after.components == v.components
      && after.state ==
           (if Aborts(v.components, fails, 0) then Failed
            else if AnyFails(v.components, fails) then Degraded else Running)
      && Starts(after) == Starts(v) + Calls(Kind.Start, v.components, fails, 0)
      && Inits(after) == Inits(v)
  {
    var after, calls := Started(v, fails), Calls(Kind.Start, v.components, fails, 0);
    CallsShape(Kind.Start, v.components, fails, 0);
    hide OfKind, Calls, Aborts, AnyFails;
    assert after.log == v.log + calls;
    hide Started, Moved, CanTransition;
    AppendUniform(v.log, calls, Kind.Start, Kind.Start);
    AppendUniform(v.log, calls, Kind.Start, Kind.Initialize);
  }

  lemma TornDownParts(v: View, outcomes: nat -> StopOutcome)
    ensures
      var after := TornDown(v, outcomes);
      && after.components == v.components && after.log == v.log + Stops(outcomes, |v.components|)
      && (v.state != Initializing ==> after.state == if v.state in {Created, Failed} then v.state else Stopped)
  {
    hide Stops;
  }

  lemma TornDownCalls(v: View, outcomes: nat -> StopOutcome)
    ensures
      var after := TornDown(v, outcomes);
      && after.components == v.components && after.log == v.log + Stops(outcomes, |v.components|)
      && Inits(after) == Inits(v) && Starts(after) == Starts(v)
      && (v.state != Initializing ==> after.state == if v.state in {Created, Failed} then v.state else Stopped)
  {
    var stops := Stops(outcomes, |v.components|);
    TornDownParts(v, outcomes);
    StopsShape(outcomes, |v.components|);
    hide OfKind, Stops, TornDown;
    AppendUniform(v.log, stops, Kind.Stop, Kind.Initialize);
    AppendUniform(v.log, stops, Kind.Stop, Kind.Start);
  }

  lemma CallsJustify(kind: Kind, components: seq<Component>, fails: nat -> bool)
    ensures
      var calls := Calls(kind, components, fails, 0);
      && (if Aborts(components, fails, 0) then BrokenOff(calls, components) else AllCalled(calls, components))
      && (!Aborts(components, fails, 0) ==>
           (AnyFails(components, fails) <==> SomeFailed(calls)))
  {
    CallsShape(kind, components, fails, 0);
    var calls := Calls(kind, components, fails, 0);
    if !Aborts(components, fails, 0) && AnyFails(components, fails) {
      var i: nat :| i < |components| && fails(i);
      assert !calls[i].ok;
    }
  }

  lemma StepJustified(v: View, op: Operation)
    requires Justified(v)
    ensures Justified(Next(v, op))
  {
    hide OfKind, Calls, Stops, Aborts, AllCalled, BrokenOff, SomeFailed, AnyFails;
    match op
    case Register(_) =>
    case InitializeCall(fails) =>
      if v.state == Created {
        InitializedCalls(v, fails);
        assert [] + Calls(Kind.Initialize, v.components, fails, 0) == Calls(Kind.Initialize, v.components, fails, 0);
        CallsJustify(Kind.Initialize, v.components, fails);
      }
    case StartCall(fails) =>
      if v.state == Ready {
        StartedCalls(v, fails);
        assert [] + Calls(Kind.Start, v.components, fails, 0) == Calls(Kind.Start, v.components, fails, 0);
        CallsJustify(Kind.Start, v.components, fails);
      }
    case TriggerCall =>
    case ShutdownCall(outcomes) => TornDownCalls(v, outcomes);
  }

  /**
   * In every run the state of the coordinator tells which components were initialised and started, and
   * how that went.
   */
  lemma {:induction false} AlwaysJustified(ops: seq<Operation>)
    ensures Justified(Run(ops))
  {
    if ops != [] {
      AlwaysJustified(Front(ops));
      StepJustified(Run(Front(ops)), Last(ops));
    }
  }

  /** Components are initialised at most once, in order of registration, and likewise started. */
  lemma OnceInOrder(ops: seq<Operation>)
    ensures InOrder(Inits(Run(ops)), Run(ops).components) && InOrder(Starts(Run(ops)), Run(ops).components)
  {
    AlwaysJustified(ops);
  }

  /** Before any start call, every component has been initialised, the critical ones successfully. */
  ghost predicate StartsLast(v: View) {
    forall p :: 0 <= p < |v.log| && v.log[p].kind == Kind.Start ==>
      AllCalled(OfKind(v.log[..p], Kind.Initialize), v.components)
  }

  lemma AppendedStarts(v: View, after: View, more: seq<Invocation>)
    requires StartsLast(v) && after.log == v.log + more && after.components == v.components
    requires
      (forall j :: 0 <= j < |more| ==> more[j].kind != Kind.Start)
      || (AllCalled(Inits(v), v.components) && forall j :: 0 <= j < |more| ==> more[j].kind == Kind.Start)
    ensures StartsLast(after)
  {
    forall p | 0 <= p < |after.log| && after.log[p].kind == Kind.Start
      ensures AllCalled(OfKind(after.log[..p], Kind.Initialize), after.components)
    {
      if p < |v.log| {
        assert after.log[..p] == v.log[..p];
      } else {
        var part := more[..p - |v.log|];
        assert after.log[..p] == v.log + part && after.log[p] == more[p - |v.log|];
        AppendUniform(v.log, part, Kind.Start, Kind.Initialize);
      }
    }
  }

  lemma {:induction false} NoneOfKind(log: seq<Invocation>, kind: Kind)
    requires OfKind(log, kind) == []
    ensures forall p :: 0 <= p < |log| ==> log[p].kind != kind
  {
    if log != [] {
      NoneOfKind(Front(log), kind);
      assert forall p :: 0 <= p < |log| - 1 ==> log[p] == Front(log)[p];
    }
  }

  lemma NoStartsYet(v: View)
    requires Justified(v)
    ensures v.state == Created ==> forall p :: 0 <= p < |v.log| ==> v.log[p].kind != Kind.Start
  {
    if v.state == Created {
      NoneOfKind(v.log, Kind.Start);
    }
  }

  lemma StepStartsLast(v: View, op: Operation)
    requires Justified(v) && StartsLast(v)
    ensures StartsLast(Next(v, op))
  {
    hide Calls, Aborts, AnyFails, Stops, TornDown;
    match op
    case Register(_) => NoStartsYet(v);
    case InitializeCall(fails) =>
      if v.state == Created {
        CallsShape(Kind.Initialize, v.components, fails, 0);
        AppendedStarts(v, Next(v, op), Calls(Kind.Initialize, v.components, fails, 0));
      }
    case StartCall(fails) =>
      if v.state == Ready {
        CallsShape(Kind.Start, v.components, fails, 0);
        AppendedStarts(v, Next(v, op), Calls(Kind.Start, v.components, fails, 0));
      }
    case TriggerCall =>
    case ShutdownCall(outcomes) =>
      StopsShape(outcomes, |v.components|);
      TornDownParts(v, outcomes);
      AppendedStarts(v, Next(v, op), Stops(outcomes, |v.components|));
  }

  lemma {:induction false} InitialisedBeforeStart(ops: seq<Operation>)
    ensures StartsLast(Run(ops))
  {
    if ops != [] {
      InitialisedBeforeStart(Front(ops));
      AlwaysJustified(Front(ops));
      var v, op := Run(Front(ops)), Last(ops);
      StepStartsLast(v, op);
    }
  }

  // ----- Teardown -------------------------------------------------------------------------

  /** One stop of each of `n` components, the last one first. */
  ghost predicate Reversed(stops: seq<Invocation>, n: nat) {
    |stops| == n && forall j :: 0 <= j < n ==> stops[j].kind == Kind.Stop && stops[j].index == n - 1 - j
  }

  /**
   * Every shutdown stops every component once, in exact reverse order, whatever the stops answer;
   * it reports an error only before initialisation, where the state stays as it was.
   */
  lemma ShutdownStopsAll(ops: seq<Operation>, outcomes: nat -> StopOutcome)
    ensures
      var v, after := Run(ops), Run(ops + [ShutdownCall(outcomes)]);
      && after.components == v.components && |after.log| == |v.log| + |v.components| && v.log <= after.log
      && Reversed(after.log[|v.log|..], |v.components|)
      && after.state == (if v.state in {Created, Failed} then v.state else Stopped)
      && (v.state == Failed || CanTransition(Triggered(v).state, Stopped) <==> v.state != Created)
  {
    var v := Run(ops);
    assert Front(ops + [ShutdownCall(outcomes)]) == ops;
    AlwaysJustified(ops);
    TornDownCalls(v, outcomes);
    StopsShape(outcomes, |v.components|);
    var stops := Stops(outcomes, |v.components|);
    assert (v.log + stops)[|v.log|..] == stops;
  }

  predicate AsksToStop(op: Operation) { op.TriggerCall? || op.ShutdownCall? }

  predicate AskedToStop(ops: seq<Operation>) { exists i :: 0 <= i < |ops| && AsksToStop(ops[i]) }

  lemma AskedLast(ops: seq<Operation>)
    requires ops != []
    ensures AskedToStop(ops) <==> AskedToStop(Front(ops)) || AsksToStop(Last(ops))
  {
    assert forall i :: 0 <= i < |ops| - 1 ==> ops[i] == Front(ops)[i];
  }

  /** Some broadcast came before the call at this place. */
  predicate SignalledBefore(v: View, p: nat) { v.signals != [] && v.signals[0] <= p }

  /** A start call that broke off the start-up. */
  predicate BreaksOff(call: Invocation, components: seq<Component>) {
    call.kind == Kind.Start && !call.ok && call.index < |components| && components[call.index].critical
  }

  /** Some start call has broken off the start-up. */
  predicate BrokeOff(v: View) { exists p :: 0 <= p < |v.log| && BreaksOff(v.log[p], v.components) }

  /** No stop without a broadcast before it, no start-up broken off without one right after it. */
  ghost predicate Signalled(v: View) {
    && (v.state in {RuntimeState.Stopping, Stopped} ==> v.signals != [])
    && (v.signals != [] ==> v.signals[0] <= |v.log|)
    && (forall p :: 0 <= p < |v.log| && v.log[p].kind == Kind.Stop ==> SignalledBefore(v, p))
    && (forall p :: 0 <= p < |v.log| && BreaksOff(v.log[p], v.components) ==> p + 1 in v.signals)
  }

  lemma MoreCalls(v: View, after: View, more: seq<Invocation>)
    requires Signalled(v) && after.log == v.log + more && after.components == v.components
    requires v.signals <= after.signals
    requires after.state in {RuntimeState.Stopping, Stopped} ==> v.state == after.state || after.signals != []
    requires v.signals == [] && after.signals != [] ==> after.signals[0] <= |after.log|
    requires forall p :: 0 <= p < |more| && more[p].kind == Kind.Stop ==> v.signals != []
    requires forall p :: 0 <= p < |more| && BreaksOff(more[p], v.components) ==> |v.log| + p + 1 in after.signals
    ensures Signalled(after)
    ensures BrokeOff(v) ==> BrokeOff(after)
  {
    assert forall s :: s in v.signals ==> s in after.signals;
    hide BreaksOff;
    forall p | 0 <= p < |after.log|
      ensures after.log[p].kind == Kind.Stop ==> SignalledBefore(after, p)
      ensures BreaksOff(after.log[p], after.components) ==> p + 1 in after.signals
    {
      if p < |v.log| {
        assert after.log[p] == v.log[p];
        assert v.log[p].kind == Kind.Stop ==> SignalledBefore(v, p);
      } else {
        assert after.log[p] == more[p - |v.log|];
      }
    }
    if BrokeOff(v) {
      var p :| 0 <= p < |v.log| && BreaksOff(v.log[p], v.components);
      assert after.log[p] == v.log[p];
    }
  }

  lemma TriggeredSignals(v: View)
    requires Signalled(v)
    ensures Signalled(Triggered(v)) && Triggered(v).signals != []
    ensures BrokeOff(v) ==> BrokeOff(Triggered(v))
  {
    assert v.log == v.log + [];
    MoreCalls(v, Triggered(v), []);
    hide BrokeOff;
  }

  lemma InitializedSignals(v: View, fails: nat -> bool)
    requires Signalled(v)
    ensures Signalled(Initialized(v, fails)) && Initialized(v, fails).signals == v.signals
    ensures BrokeOff(v) ==> BrokeOff(Initialized(v, fails))
  {
    CallsShape(Kind.Initialize, v.components, fails, 0);
    var calls := Calls(Kind.Initialize, v.components, fails, 0);
    hide Calls, Aborts, Signalled, BrokeOff;
    if CanTransition(v.state, Initializing) {
      MoreCalls(v, Initialized(v, fails), calls);
    }
  }

  lemma BreaksOffLast(v: View, after: View, calls: seq<Invocation>)
    requires calls != [] && after.log == v.log + calls && BreaksOff(Last(calls), after.components)
    ensures BrokeOff(after)
  {
    assert after.log[|v.log| + |calls| - 1] == Last(calls);
  }

  lemma SignalledBroke(v: View)
    ensures Signalled(v) && BrokeOff(v) ==> v.signals != []
  {
  }

  /** The broadcast that follows a start-up broken off is the only one that comes with starting. */
  lemma StartedSignals(v: View, fails: nat -> bool)
    requires Signalled(v)
    ensures Signalled(Started(v, fails))
    ensures Started(v, fails).signals != [] <==> v.signals != [] || BrokeOff(Started(v, fails))
    ensures BrokeOff(v) ==> BrokeOff(Started(v, fails))
  {
    if v.state == Ready {
      var after, calls := Started(v, fails), Calls(Kind.Start, v.components, fails, 0);
      CallsShape(Kind.Start, v.components, fails, 0);
      hide Calls, Signalled, BrokeOff;
      if Aborts(v.components, fails, 0) {
        assert after.signals == v.signals + [|v.log| + |calls|];
        assert after.signals[|v.signals|] == |v.log| + |calls|;
        BreaksOffLast(v, after, calls);
      }
      hide Aborts;
      MoreCalls(v, after, calls);
    }
    SignalledBroke(v);
    SignalledBroke(Started(v, fails));
  }

  lemma RegisteredSignals(v: View, component: Component)
    requires Signalled(v) && Justified(v)
    ensures
      var after := Next(v, Register(component));
      Signalled(after) && after.signals == v.signals && (BrokeOff(v) ==> BrokeOff(after))
  {
    NoStartsYet(v);
    hide Justified;
  }

  lemma StepSignalled(v: View, op: Operation)
    requires Signalled(v) && Justified(v)
    ensures Signalled(Next(v, op))
    ensures Next(v, op).signals != [] <==> v.signals != [] || AsksToStop(op) || BrokeOff(Next(v, op))
    ensures BrokeOff(v) ==> BrokeOff(Next(v, op))
  {
    SignalledBroke(v);
    SignalledBroke(Next(v, op));
    match op
    case Register(component) => RegisteredSignals(v, component);
    case InitializeCall(fails) => InitializedSignals(v, fails);
    case StartCall(fails) => StartedSignals(v, fails);
    case TriggerCall => TriggeredSignals(v);
    case ShutdownCall(outcomes) =>
      TriggeredSignals(v);
      StopsShape(outcomes, |v.components|);
      hide Triggered, Stops;
      MoreCalls(Triggered(v), TornDown(v, outcomes), Stops(outcomes, |v.components|));
  }

  /**
   * The shutdown signal is broadcast exactly if a shutdown was asked for, in whatever state, or a critical
   * component failed to start; it follows such a failure at once, and no component is stopped before it.
   */
  lemma {:induction false} SignalBeforeStops(ops: seq<Operation>)
    ensures Signalled(Run(ops))
    ensures Run(ops).signals != [] <==> AskedToStop(ops) || BrokeOff(Run(ops))
  {
    if ops != [] {
      SignalBeforeStops(Front(ops));
      AlwaysJustified(Front(ops));
      StepSignalled(Run(Front(ops)), Last(ops));
      AskedLast(ops);
      hide Signalled, BrokeOff, Justified, AskedToStop, AsksToStop, Next;
    }
  }

  /** A failed or stopped coordinator stays what it is. */
  lemma {:induction false} TerminalStays(v: View, ops: seq<Operation>)
    requires v.state in {Failed, Stopped}
    ensures After(v, ops).state == v.state
  {
    if ops != [] {
      TerminalStays(v, Front(ops));
    }
  }
}
