// The confidence guardrail of the network rules (rules/network/common.rs): which observations a
// rule is allowed to judge, and how seriously.
module Guardrail {
  import opened Observations
  import opened Seqs

  datatype Severity = Critical | High | Medium | Low | Informational

  datatype Action = Allow | Suppress | Downgrade(severity: Severity)

  datatype Decision = Proceed(severity: Severity) | Suppressed

  datatype Policy = Policy(
    minConfidence: Confidence, minPrivilege: Privilege, required: seq<ScannerId>,
    onLowConfidence: Action, onMissingSource: Action, onPartialSource: Action)

  function Strict(required: seq<ScannerId>): Policy {
    Policy(KernelAuthoritative, Available, required, Suppress, Suppress, Suppress)
  }

  function Standard(required: seq<ScannerId>, downgraded: Severity): Policy {
    Policy(UnprivilegedPartial, Available, required, Downgrade(downgraded), Suppress, Downgrade(downgraded))
  }

  function Permissive(required: seq<ScannerId>): Policy {
    Policy(Heuristic, Partial, required, Allow, Suppress, Allow)
  }

  function Outcome(action: Action, severity: Severity): Decision {
    match action
    case Allow => Proceed(severity)
    case Suppress => Suppressed
    case Downgrade(lower) => Proceed(lower)
  }

  /** The first required source that is missing or degraded decides. */
  function SourceDecision(
      p: Policy, required: seq<ScannerId>, missing: seq<ScannerId>, partial: seq<ScannerId>, severity: Severity):
    Option<Decision>
  {
    if required == [] then None
    else if required[0] in missing then Some(Outcome(p.onMissingSource, severity))
    else if required[0] in partial then Some(Outcome(p.onPartialSource, severity))
    else SourceDecision(p, required[1..], missing, partial, severity)
  }

  function ConfidenceDecision(p: Policy, confidence: Confidence, severity: Severity): Decision {
    if confidence.Value() < p.minConfidence.Value() then Outcome(p.onLowConfidence, severity) else Proceed(severity)
  }

  function PrivilegeDecision(p: Policy, privilege: Privilege, severity: Severity): Option<Decision> {
    match privilege
    case PermissionDenied => Some(Suppressed)
    case Error => Some(Suppressed)
    case Unsupported => if p.onMissingSource.Allow? then None else Some(Outcome(p.onMissingSource, severity))
    case Partial =>
      if p.minPrivilege.Available? && !p.onPartialSource.Allow?
      then Some(Outcome(p.onPartialSource, severity))
      else None
    case Available => None
  }

  function Evaluate(p: Policy, o: Observation, severity: Severity): Decision {
    var sources :=
      if o.domain == Topology && o.payload.TopologyPayload?
      then SourceDecision(p, p.required, o.payload.missing, o.payload.partial, severity) else None;
    if sources.Some? then sources.value
    else
      var privileges := PrivilegeDecision(p, o.privilege, severity);
      if privileges.Some? then privileges.value else ConfidenceDecision(p, o.confidence, severity)
  }

  /** Privileges under which an observation counts as evidence. */
  predicate Readable(privilege: Privilege) { privilege.Available? || privilege.Partial? }

  // ----- What the policies let through --------------------------------------------------

  /** Where the first degraded required source stands, if any is. */
  predicate FirstDegraded(required: seq<ScannerId>, missing: seq<ScannerId>, partial: seq<ScannerId>, k: nat) {
    k < |required| && (required[k] in missing || required[k] in partial)
      && forall j :: 0 <= j < k ==> required[j] !in missing && required[j] !in partial
  }

  lemma {:induction false} SourceExactly(
      p: Policy, required: seq<ScannerId>, missing: seq<ScannerId>, partial: seq<ScannerId>, severity: Severity)
    returns (k: nat)
    ensures
      var d := SourceDecision(p, required, missing, partial, severity);
      if d.Some?
      then FirstDegraded(required, missing, partial, k)
        && d.value == Outcome(if required[k] in missing then p.onMissingSource else p.onPartialSource, severity)
      else forall j :: 0 <= j < |required| ==> required[j] !in missing && required[j] !in partial
  {
    if required == [] || required[0] in missing || required[0] in partial {
      k := 0;
    } else {
      var rest := SourceExactly(p, required[1..], missing, partial, severity);
      k := rest + 1;
      assert forall j :: 0 < j < |required| ==> required[j] == required[1..][j - 1];
    }
  }

  /** Low confidence and partial privilege never make the policy suppress. */
  predicate Tolerant(p: Policy) {
    && (p.onLowConfidence.Suppress? ==> p.minConfidence.Heuristic?)
    && (p.onPartialSource.Suppress? ==> !p.minPrivilege.Available?)
  }

  ghost predicate ProceedsOnReadable(p: Policy, severity: Severity) {
    forall o: Observation :: o.domain != Topology && Readable(o.privilege) ==> Evaluate(p, o, severity).Proceed?
  }

  lemma ReadableProceeds(p: Policy, o: Observation, severity: Severity)
    requires Tolerant(p) && o.domain != Topology && Readable(o.privilege)
    ensures Evaluate(p, o, severity).Proceed?
  {
  }

  /** A policy lets through every readable observation of a scanner exactly if it is tolerant. */
  lemma TolerantExactly(p: Policy, severity: Severity)
    ensures ProceedsOnReadable(p, severity) <==> Tolerant(p)
  {
    if Tolerant(p) {
      forall o: Observation | o.domain != Topology && Readable(o.privilege) ensures Evaluate(p, o, severity).Proceed? {
        ReadableProceeds(p, o, severity);
      }
    } else {
      var low := Observation(RoutesV1, Routes, Host(""), Available, Heuristic, RoutesPayload([]));
      var partial := low.(privilege := Partial, confidence := KernelAuthoritative);
      assert Evaluate(p, low, severity).Suppressed? || Evaluate(p, partial, severity).Suppressed?;
    }
  }

  ghost predicate ProceedsOnComplete(p: Policy, severity: Severity) {
    forall o: Observation ::
      o.domain == Topology && o.payload.TopologyPayload? && Readable(o.privilege)
      && (forall id :: id in p.required ==> id !in o.payload.missing)
      ==> Evaluate(p, o, severity).Proceed?
  }

  lemma CompleteProceeds(p: Policy, o: Observation, severity: Severity)
    requires Tolerant(p) && (p.required == [] || !p.onPartialSource.Suppress?)
    requires o.domain == Topology && o.payload.TopologyPayload? && Readable(o.privilege)
    requires forall id :: id in p.required ==> id !in o.payload.missing
    ensures Evaluate(p, o, severity).Proceed?
  {
    var k := SourceExactly(p, p.required, o.payload.missing, o.payload.partial, severity);
  }

  /** For a topology with no required source missing, degraded required sources have to be tolerated too. */
  lemma CompleteExactly(p: Policy, severity: Severity)
    ensures ProceedsOnComplete(p, severity) <==> Tolerant(p) && (p.required == [] || !p.onPartialSource.Suppress?)
  {
    if Tolerant(p) && (p.required == [] || !p.onPartialSource.Suppress?) {
      forall o: Observation |
        o.domain == Topology && o.payload.TopologyPayload? && Readable(o.privilege)
        && (forall id :: id in p.required ==> id !in o.payload.missing)
        ensures Evaluate(p, o, severity).Proceed?
      {
        CompleteProceeds(p, o, severity);
      }
    } else {
      var snapshot := Snapshot([], [], [], [], [], false, Heuristic, []);
      var low := Observation(
        TopologyV1, Topology, Host(""), Available, Heuristic, TopologyPayload(snapshot, [], [], []));
      var partial := low.(privilege := Partial, confidence := KernelAuthoritative);
      var degraded := low.(payload := TopologyPayload(snapshot, [], [], p.required));
      var _ := SourceExactly(p, p.required, [], [], severity);
      assert p.required != [] && p.onPartialSource.Suppress? ==> Evaluate(p, degraded, severity).Suppressed?;
      assert !Tolerant(p) ==> Evaluate(p, low, severity).Suppressed? || Evaluate(p, partial, severity).Suppressed?;
    }
  }

  /** A strict rule judges only complete, fully privileged evidence of the highest confidence. */
  lemma StrictExactly(required: seq<ScannerId>, o: Observation, severity: Severity)
    ensures Evaluate(Strict(required), o, severity) ==
      if o.privilege.Available? && o.confidence.KernelAuthoritative?
         && (o.domain == Topology && o.payload.TopologyPayload? ==>
              forall j :: 0 <= j < |required| ==>
                required[j] !in o.payload.missing && required[j] !in o.payload.partial)
      then Proceed(severity) else Suppressed
  {
    if o.domain == Topology && o.payload.TopologyPayload? {
      var k := SourceExactly(Strict(required), required, o.payload.missing, o.payload.partial, severity);
    }
  }

  /** The sources of an observation that matter: none unless it is a topology. */
  predicate Hits(p: Policy, o: Observation, k: nat) {
    && o.domain == Topology && o.payload.TopologyPayload?
    && FirstDegraded(p.required, o.payload.missing, o.payload.partial, k)
  }

  /** What an action of a policy means for a finding of some severity. */
  predicate Obeys(d: Decision, action: Action, severity: Severity) {
    if action.Suppress? then d.Suppressed?
    else d == Proceed(if action.Downgrade? then action.severity else severity)
  }

  /** One confidence ranks below another: 0.5, 0.7, 0.9, 1.0. */
  predicate Below(a: Confidence, b: Confidence) {
    match a
    case Heuristic => !b.Heuristic?
    case UnprivilegedPartial => b.SystemTable? || b.KernelAuthoritative?
    case SystemTable => b.KernelAuthoritative?
    case KernelAuthoritative => false
  }

  /**
   * The whole decision: the first required source that is not intact decides before anything else, then
   * the privilege, and only then the confidence.
   */
  lemma EvaluateExactly(p: Policy, o: Observation, severity: Severity)
    ensures
      var d := Evaluate(p, o, severity);
      && (forall k: nat :: Hits(p, o, k) ==>
           Obeys(d, if p.required[k] in o.payload.missing then p.onMissingSource else p.onPartialSource, severity))
      && ((forall k: nat :: !Hits(p, o, k)) ==>
           if o.privilege.PermissionDenied? || o.privilege.Error? then d == Suppressed
           else if o.privilege.Unsupported? && p.onMissingSource != Allow then Obeys(d, p.onMissingSource, severity)
           else if o.privilege.Partial? && p.minPrivilege.Available? && p.onPartialSource != Allow
             then Obeys(d, p.onPartialSource, severity)
           else if Below(o.confidence, p.minConfidence) then Obeys(d, p.onLowConfidence, severity)
           else d == Proceed(severity))
  {
    if o.domain == Topology && o.payload.TopologyPayload? {
      var k := SourceExactly(p, p.required, o.payload.missing, o.payload.partial, severity);
      if SourceDecision(p, p.required, o.payload.missing, o.payload.partial, severity).Some? {
        assert Hits(p, o, k);
        assert forall j: nat :: Hits(p, o, j) ==> j == k;
      } else {
        assert forall j: nat :: !Hits(p, o, j);
      }
      hide SourceDecision;
    } else {
      assert forall j: nat :: !Hits(p, o, j);
    }
  }

  /**
   * A standard or permissive rule is suppressed exactly if the first required source that is not intact
   * is missing, or all are intact and the observation is not readable.
   */
  lemma LenientExactly(required: seq<ScannerId>, downgraded: Severity, p: Policy, o: Observation, severity: Severity)
    requires p == Standard(required, downgraded) || p == Permissive(required)
    ensures Evaluate(p, o, severity).Suppressed? <==>
      || (exists k: nat :: Hits(p, o, k) && required[k] in o.payload.missing)
      || (!(exists k: nat :: Hits(p, o, k)) && !Readable(o.privilege))
  {
    EvaluateExactly(p, o, severity);
    hide Evaluate;
    if k: nat :| Hits(p, o, k) {
      assert forall j: nat :: Hits(p, o, j) ==> j == k;
    }
  }

  /**
   * What severity a rule reports with once it is let through: under the permissive policy its own, under
   * the standard one the downgraded one as soon as a required source is degraded, the privilege is partial,
   * or the confidence is heuristic.
   */
  lemma SeverityExactly(required: seq<ScannerId>, downgraded: Severity, o: Observation, severity: Severity)
    ensures Evaluate(Permissive(required), o, severity) in {Proceed(severity), Suppressed}
    ensures
      var d := Evaluate(Standard(required, downgraded), o, severity);
      d.Suppressed? || d == Proceed(
        if (exists k: nat :: Hits(Standard(required, downgraded), o, k))
           || o.privilege.Partial? || o.confidence.Heuristic?
        then downgraded else severity)
  {
    EvaluateExactly(Permissive(required), o, severity);
    EvaluateExactly(Standard(required, downgraded), o, severity);
    hide Evaluate;
    if k: nat :| Hits(Permissive(required), o, k) {
      assert Hits(Standard(required, downgraded), o, k);
    }
  }

  /** The order of the required sources counts: a degraded one in front hides a missing one behind it. */
  lemma RequiredOrderCounts(a: ScannerId, b: ScannerId, o: Observation, severity: Severity)
    requires a != b && o.domain == Topology && o.payload.TopologyPayload?
    requires o.payload.partial == [a] && o.payload.missing == [b]
    ensures Evaluate(Standard([a, b], Low), o, severity) == Proceed(Low)
    ensures Evaluate(Standard([b, a], Low), o, severity) == Suppressed
  {
  }

  /** Every order of the required sources leads to the same decision. */
  ghost predicate RequiredOrderBlind(
    p: Policy, required: seq<ScannerId>, missing: seq<ScannerId>, partial: seq<ScannerId>, severity: Severity)
  {
    forall other :: multiset(other) == multiset(required) ==>
      SourceDecision(p, other, missing, partial, severity) == SourceDecision(p, required, missing, partial, severity)
  }

  /** One required source is missing and another one merely degraded. */
  predicate Mixed(required: seq<ScannerId>, missing: seq<ScannerId>, partial: seq<ScannerId>) {
    (exists a :: a in required && a in missing) && (exists b :: b in required && b in partial && b !in missing)
  }

  lemma DegradedInFront(
      p: Policy, required: seq<ScannerId>, missing: seq<ScannerId>, partial: seq<ScannerId>,
      severity: Severity, a: ScannerId)
    returns (other: seq<ScannerId>)
    requires a in required && (a in missing || a in partial)
    ensures multiset(other) == multiset(required)
    ensures SourceDecision(p, other, missing, partial, severity)
         == Some(Outcome(if a in missing then p.onMissingSource else p.onPartialSource, severity))
  {
    var j := Extract(required, a);
    other := [a] + (required[..j] + required[j + 1..]);
  }

  lemma DecidedBy(
      p: Policy, required: seq<ScannerId>, missing: seq<ScannerId>, partial: seq<ScannerId>, severity: Severity)
    requires !Mixed(required, missing, partial)
      || Outcome(p.onMissingSource, severity) == Outcome(p.onPartialSource, severity)
    ensures SourceDecision(p, required, missing, partial, severity) ==
      if exists a :: a in required && a in missing then Some(Outcome(p.onMissingSource, severity))
      else if exists b :: b in required && b in partial then Some(Outcome(p.onPartialSource, severity))
      else None
  {
    var k := SourceExactly(p, required, missing, partial, severity);
    var d := SourceDecision(p, required, missing, partial, severity);
    hide SourceDecision;
    if d.Some? {
      assert required[k] in required;
    }
  }

  /**
   * The order of the required sources does not matter exactly if they are not a mixture of missing and
   * merely degraded ones, or the policy acts alike on both.
   */
  lemma RequiredOrderExactly(
      p: Policy, required: seq<ScannerId>, missing: seq<ScannerId>, partial: seq<ScannerId>, severity: Severity)
    ensures RequiredOrderBlind(p, required, missing, partial, severity) <==>
      !Mixed(required, missing, partial) || Outcome(p.onMissingSource, severity) == Outcome(p.onPartialSource, severity)
  {
    if !Mixed(required, missing, partial)
      || Outcome(p.onMissingSource, severity) == Outcome(p.onPartialSource, severity)
    {
      DecidedBy(p, required, missing, partial, severity);
      forall other | multiset(other) == multiset(required)
        ensures SourceDecision(p, other, missing, partial, severity)
          == SourceDecision(p, required, missing, partial, severity)
      {
        SameMembers(required, other);
        DecidedBy(p, other, missing, partial, severity);
      }
    } else {
      var a :| a in required && a in missing;
      var b :| b in required && b in partial && b !in missing;
      var first := DegradedInFront(p, required, missing, partial, severity, a);
      var second := DegradedInFront(p, required, missing, partial, severity, b);
    }
  }

  /** Only membership in the source lists is looked at. */
  lemma {:induction false} SourceOrderIrrelevant(
      p: Policy, required: seq<ScannerId>, missingA: seq<ScannerId>, missingB: seq<ScannerId>,
      partialA: seq<ScannerId>, partialB: seq<ScannerId>, severity: Severity)
    requires forall id :: id in missingA <==> id in missingB
    requires forall id :: id in partialA <==> id in partialB
    ensures SourceDecision(p, required, missingA, partialA, severity)
      == SourceDecision(p, required, missingB, partialB, severity)
  {
    if required != [] {
      SourceOrderIrrelevant(p, required[1..], missingA, missingB, partialA, partialB, severity);
    }
  }
}
