// The pieces of a scan cycle that have to agree: guardrail, evaluated rules, upsert and
// reconciliation (observation/supervisor.rs, rules/network/common.rs, repositories/findings.rs).
module Agreement {
  import opened Findings
  import opened Guardrail
  import opened Observations
  import opened Rules
  import opened ScanCycle
  import opened Seqs
  import opened Topology

  /**
   * A network rule whose guardrail lets through whatever makes it count as evaluated, when a topology with
   * all its required sources has at least the assured confidence. For the topology: lower confidence is
   * tolerated; degraded sources are, unless the rule requires none and asks for no privilege; and a missing
   * source is, unless its absence keeps the rule from being evaluated.
   */
  predicate DependableAt(rule: Rule, assured: Confidence)
    requires rule.Network?
  {
    var p := rule.policy;
    if rule.domain != Topology then Tolerant(p)
    else
      && (p.onLowConfidence.Suppress? ==> p.minConfidence.Value() <= assured.Value())
      && (p.onPartialSource.Suppress? ==>
           !p.minPrivilege.Available? && forall k :: 0 <= k < |p.required| ==> !IsNetwork(p.required[k]))
      && (p.onMissingSource.Suppress? ==>
           forall k :: 0 <= k < |p.required| ==> IsNetwork(p.required[k]) ==> Disqualified(rule.id, [p.required[k]]))
  }

  /** Dependable in every cycle; scanners that report twice can bring the confidence down to the lowest. */
  predicate Dependable(rule: Rule)
    requires rule.Network?
  {
    DependableAt(rule, Heuristic)
  }

  /** The network scanners that a rule requires. */
  function RequiredScanners(required: seq<ScannerId>): set<ScannerId> {
    set id | id in required && IsNetwork(id)
  }

  /** Dependable in every cycle in which no scanner reports twice. */
  predicate DependableOnce(rule: Rule)
    requires rule.Network?
  {
    DependableAt(rule, ConfidenceOf(|RequiredScanners(rule.policy.required)|))
  }

  /** Dependable in this cycle. */
  predicate DependableIn(rule: Rule, raw: seq<Observation>)
    requires rule.Network?
  {
    Dependable(rule) || (DistinctScanners(raw) && DependableOnce(rule))
  }

  predicate ProceedsOn(rule: Rule, o: Observation)
    requires rule.Network?
  {
    o.domain == rule.domain && Evaluate(rule.policy, o, rule.severity).Proceed?
  }

  lemma MissingMembers(raw: seq<Observation>, id: ScannerId)
    ensures id in Missing(raw) <==> IsNetwork(id) && !Reported(raw, id)
  {
    FlatMapMembers(NETWORK_SCANNERS, IfUnreported(raw), id);
    hide FlatMap, Reported;
    assert id in NETWORK_SCANNERS <==> IsNetwork(id);
    if IsNetwork(id) && !Reported(raw, id) {
      assert id in IfUnreported(raw)(id);
    }
  }

  lemma DegradedMembers(raw: seq<Observation>, id: ScannerId)
    ensures id in Degraded(raw)
       <==> IsNetwork(id) && exists o :: o in raw && o.scannerId == id && !o.privilege.Available?
  {
    FlatMapMembers(raw, IfDegraded, id);
    hide FlatMap;
    if o :| o in raw && o.scannerId == id && !o.privilege.Available? && IsNetwork(id) {
      assert id in IfDegraded(o);
    }
  }

  lemma DisqualifiedByOne(ruleId: string, missing: seq<ScannerId>)
    ensures Disqualified(ruleId, missing) <==> exists id :: id in missing && Disqualified(ruleId, [id])
  {
    if missing != [] {
      assert missing[0] in missing;
    }
  }

  lemma RequiredIsNetwork(required: seq<ScannerId>)
    ensures |RequiredScanners(required)| <= 4
  {
    var four := {InterfacesV1, RoutesV1, DnsV1, NeighborsV1};
    assert RequiredScanners(required) <= four;
    SubsetSize(RequiredScanners(required), four);
  }

  lemma UsableMembers(raw: seq<Observation>, id: ScannerId)
    requires IsNetwork(id) && id !in Missing(raw) && id !in Degraded(raw)
    ensures Usable(raw, id)
  {
    MissingMembers(raw, id);
    DegradedMembers(raw, id);
    hide Missing, Degraded;
    var i :| 0 <= i < |raw| && raw[i].scannerId == id;
    assert raw[i] in raw;
  }

  /** Without scanners that report twice, the sources a rule requires assure it of a confidence. */
  lemma AssuredConfidence(raw: seq<Observation>, required: seq<ScannerId>)
    requires DistinctScanners(raw)
    requires forall id :: id in required ==> id !in Missing(raw) && id !in Degraded(raw)
    ensures ComputedConfidence(raw).Value() >= ConfidenceOf(|RequiredScanners(required)|).Value()
  {
    UsableIds(raw);
    ConfidenceExactly(raw);
    RequiredIsNetwork(required);
    var ids, needed := FlatMap(raw, IfUsable), RequiredScanners(required);
    forall id | id in needed ensures id in ids {
      UsableMembers(raw, id);
    }
    DistinctSize(ids);
    hide FlatMap, Usable, Missing, Degraded, DistinctScanners;
    assert needed <= Elements(ids);
    SubsetSize(needed, Elements(ids));
  }

  /** The topology that makes a dependable rule count as evaluated is let through. */
  lemma TopologyProceeds(setup: Setup, raw: seq<Observation>, rule: Rule)
    requires rule.Network? && rule.domain == Topology && DependableIn(rule, raw) && IsEvaluated(setup, raw, rule)
    ensures Evaluate(rule.policy, Synthesized(setup, raw), rule.severity).Proceed?
  {
    SynthesizedParts(setup, raw);
    DisqualifiedByOne(rule.id, Missing(raw));
    hide Missing, Degraded, DerivedPrivilege, Synthesized, Disqualified;
    hide ComputedConfidence, ConfidenceOf, RequiredScanners;
    var p := rule.policy;
    var k := SourceExactly(p, p.required, Missing(raw), Degraded(raw), rule.severity);
    if k < |p.required| {
      MissingMembers(raw, p.required[k]);
      DegradedMembers(raw, p.required[k]);
    }
    if DistinctScanners(raw) && forall id :: id in p.required ==> id !in Missing(raw) && id !in Degraded(raw) {
      AssuredConfidence(raw, p.required);
    }
    hide SourceDecision, Reported, DistinctScanners;
  }

  /** A rule that counts as evaluated was let through by its guardrail on some observation of its domain. */
  lemma EvaluatedMeansJudged(setup: Setup, raw: seq<Observation>, rule: Rule)
    requires rule.Network? && DependableIn(rule, raw) && IsEvaluated(setup, raw, rule)
    ensures exists k :: 0 <= k < |All(setup, raw)| && ProceedsOn(rule, All(setup, raw)[k])
  {
    var all := All(setup, raw);
    if rule.domain == Topology {
      TopologyProceeds(setup, raw, rule);
      SynthesizedParts(setup, raw);
      hide Synthesized, Evaluate, DependableIn, Disqualified, DerivedPrivilege, Missing;
      assert ProceedsOn(rule, all[|raw|]);
    } else {
      var i :| 0 <= i < |raw| && raw[i].domain == rule.domain && Readable(raw[i].privilege);
      hide Synthesized, Topologies;
      assert all[i] == raw[i];
      ReadableProceeds(rule.policy, raw[i], rule.severity);
      assert ProceedsOn(rule, all[i]);
    }
  }

  /** All registered network rules are dependable. */
  lemma RegisteredDependable(j: Judges, k: nat)
    requires k < |Registered(j)| && Registered(j)[k].Network?
    ensures Dependable(Registered(j)[k])
  {
    var rule := Registered(j)[k];
    assert k == 6 || k == 7 || k == 8 || k == 9 || k == 10 || k == 11;
  }

  /**
   * After a cycle a row of an evaluated rule is open exactly if it was reported and is not suppressed;
   * no other row is closed.
   */
  lemma CycleExactly(setup: Setup, raw: seq<Observation>, rows: Table, clock: nat -> int, fp: string)
    ensures
      var after := AfterCycle(setup, raw, rows, clock);
      var reported := fp in Active(Reports(setup, raw));
      var suppressed := fp in rows && rows[fp].status.Suppressed?;
      && (fp in after <==> fp in rows || reported)
      && (fp in after ==>
           && (after[fp].status.Suppressed? <==> suppressed)
           && (after[fp].ruleId in EvaluatedIds(setup, raw) ==> (after[fp].status.Open? <==> reported && !suppressed))
           && (after[fp].ruleId !in EvaluatedIds(setup, raw) && fp in rows && rows[fp].status.Open? ==>
               after[fp].status.Open?))
  {
    hide Reports, EvaluatedIds;
    WritesExactly(rows, Reports(setup, raw), EvaluatedIds(setup, raw), clock, fp);
  }

  lemma EvaluatedMembers(setup: Setup, raw: seq<Observation>, id: string)
    ensures id in EvaluatedIds(setup, raw)
      <==> exists rule :: rule in setup.rules && rule.id == id && IsEvaluated(setup, raw, rule)
  {
    FlatMapMembers(setup.rules, IfEvaluated(setup, raw), id);
    hide FlatMap, IsEvaluated;
    if rule :| rule in setup.rules && rule.id == id && IsEvaluated(setup, raw, rule) {
      assert id in IfEvaluated(setup, raw)(rule);
    }
  }

  /** A rule that its guardrail suppressed on every observation closes none of its open findings. */
  lemma SuppressedClosesNothing(
      setup: Setup, raw: seq<Observation>, rows: Table, clock: nat -> int, id: string, fp: string)
    requires forall rule :: rule in setup.rules && rule.id == id ==> rule.Network? && DependableIn(rule, raw)
    requires forall rule, k ::
      rule in setup.rules && rule.id == id && rule.Network? && 0 <= k < |All(setup, raw)| ==>
        !ProceedsOn(rule, All(setup, raw)[k])
    requires fp in rows && rows[fp].ruleId == id && rows[fp].status.Open?
    ensures fp in AfterCycle(setup, raw, rows, clock) && AfterCycle(setup, raw, rows, clock)[fp].status.Open?
  {
    hide All, IsEvaluated, DependableIn, ProceedsOn;
    EvaluatedMembers(setup, raw, id);
    if id in EvaluatedIds(setup, raw) {
      var rule :| rule in setup.rules && rule.id == id && IsEvaluated(setup, raw, rule);
      EvaluatedMeansJudged(setup, raw, rule);
    }
    hide EvaluatedIds, Reports;
    WritesExactly(rows, Reports(setup, raw), EvaluatedIds(setup, raw), clock, fp);
    UpsertsOnly(rows, Reports(setup, raw), clock, fp);
  }

  lemma AllOfOne(setup: Setup, o: Observation)
    ensures All(setup, [o]) == [o] || All(setup, [o]) == [o, Synthesized(setup, [o])]
    ensures Synthesized(setup, [o]).domain == Topology
  {
    SynthesizedParts(setup, [o]);
    hide Synthesized;
    assert [o] + [] == [o];
  }

  /** If the rule counts as evaluated, its guardrail let through some observation. */
  ghost predicate JudgedIn(setup: Setup, raw: seq<Observation>, rule: Rule)
    requires rule.Network?
  {
    IsEvaluated(setup, raw, rule) ==> exists k :: 0 <= k < |All(setup, raw)| && ProceedsOn(rule, All(setup, raw)[k])
  }

  ghost predicate JudgedWheneverEvaluated(setup: Setup, rule: Rule)
    requires rule.Network?
  {
    forall raw: seq<Observation> :: JudgedIn(setup, raw, rule)
  }

  /** The same for cycles in which no scanner reports twice. */
  ghost predicate JudgedWithoutRepeats(setup: Setup, rule: Rule)
    requires rule.Network?
  {
    forall raw: seq<Observation> :: DistinctScanners(raw) ==> JudgedIn(setup, raw, rule)
  }

  /** The domain that a network scanner reports on. */
  function DomainOf(id: ScannerId): Domain {
    match id
    case InterfacesV1 => Interfaces
    case DnsV1 => Dns
    case NeighborsV1 => Neighbors
    case _ => Routes
  }

  /** An observation of a scanner with some privilege and nothing in it. */
  function Plain(id: ScannerId, privilege: Privilege): Observation {
    Observation(id, DomainOf(id), Host(""), privilege, KernelAuthoritative, OtherPayload(""))
  }

  const NETWORK: set<ScannerId> := {InterfacesV1, RoutesV1, DnsV1, NeighborsV1}

  /** All four network scanners, usable or with partial privilege. */
  function Only(usable: set<ScannerId>): seq<Observation> {
    [Plain(InterfacesV1, if InterfacesV1 in usable then Available else Partial),
     Plain(RoutesV1, if RoutesV1 in usable then Available else Partial),
     Plain(DnsV1, if DnsV1 in usable then Available else Partial),
     Plain(NeighborsV1, if NeighborsV1 in usable then Available else Partial)]
  }

  /** The other network scanners, all usable. */
  function Without(id: ScannerId): seq<Observation> {
    (if id.InterfacesV1? then [] else [Plain(InterfacesV1, Available)])
      + (if id.RoutesV1? then [] else [Plain(RoutesV1, Available)])
      + (if id.DnsV1? then [] else [Plain(DnsV1, Available)])
      + (if id.NeighborsV1? then [] else [Plain(NeighborsV1, Available)])
  }

  predicate FromScanners(raw: seq<Observation>) { forall o :: o in raw ==> o.domain != Topology }

  lemma Refuted(setup: Setup, rule: Rule, raw: seq<Observation>)
    requires rule.Network? && rule.domain == Topology && IsEvaluated(setup, raw, rule) && FromScanners(raw)
    requires Evaluate(rule.policy, Synthesized(setup, raw), rule.severity).Suppressed?
    ensures !JudgedIn(setup, raw, rule)
  {
    hide Synthesized, Evaluate, IsEvaluated;
    forall k | 0 <= k < |All(setup, raw)| ensures !ProceedsOn(rule, All(setup, raw)[k]) {
      if k < |raw| {
        assert All(setup, raw)[k] in raw;
      }
    }
  }

  /** A topology with one required source missing, and that one not disqualifying the rule. */
  lemma RefusedMissing(setup: Setup, rule: Rule, raw: seq<Observation>, id: ScannerId)
    requires rule.Network? && rule.domain == Topology && Topologies(setup, raw) != [] && FromScanners(raw)
    requires DerivedPrivilege(raw).Available? && forall x :: x !in Degraded(raw)
    requires forall x :: x in Missing(raw) <==> x == id
    requires id in rule.policy.required && rule.policy.onMissingSource.Suppress? && !Disqualified(rule.id, [id])
    ensures !JudgedIn(setup, raw, rule)
  {
    SynthesizedParts(setup, raw);
    DisqualifiedByOne(rule.id, Missing(raw));
    hide Missing, Degraded, DerivedPrivilege, ComputedConfidence, Synthesized, Disqualified;
    var p := rule.policy;
    var k := SourceExactly(p, p.required, Missing(raw), Degraded(raw), rule.severity);
    hide SourceDecision;
    Refuted(setup, rule, raw);
  }

  /** A topology with one required source degraded and none missing. */
  lemma RefusedDegraded(setup: Setup, rule: Rule, raw: seq<Observation>, id: ScannerId)
    requires rule.Network? && rule.domain == Topology && Topologies(setup, raw) != [] && FromScanners(raw)
    requires DerivedPrivilege(raw).Available? && forall x :: x !in Missing(raw)
    requires id in Degraded(raw) && id in rule.policy.required && rule.policy.onPartialSource.Suppress?
    ensures !JudgedIn(setup, raw, rule)
  {
    SynthesizedParts(setup, raw);
    DisqualifiedByOne(rule.id, Missing(raw));
    hide Missing, Degraded, DerivedPrivilege, ComputedConfidence, Synthesized, Disqualified;
    var p := rule.policy;
    var k := SourceExactly(p, p.required, Missing(raw), Degraded(raw), rule.severity);
    hide SourceDecision;
    Refuted(setup, rule, raw);
  }

  /** A topology with every required source intact that is refused for its privilege or its confidence. */
  lemma RefusedIntact(setup: Setup, rule: Rule, raw: seq<Observation>)
    requires rule.Network? && rule.domain == Topology && Topologies(setup, raw) != [] && FromScanners(raw)
    requires (forall x :: x !in Missing(raw)) && forall id :: id in rule.policy.required ==> id !in Degraded(raw)
    requires
      var p := rule.policy;
      || (p.onPartialSource.Suppress? && p.minPrivilege.Available? && DerivedPrivilege(raw).Partial?)
      || (p.onLowConfidence.Suppress? && ComputedConfidence(raw).Value() < p.minConfidence.Value()
          && DerivedPrivilege(raw).Available?)
    ensures !JudgedIn(setup, raw, rule)
  {
    SynthesizedParts(setup, raw);
    DisqualifiedByOne(rule.id, Missing(raw));
    hide Missing, Degraded, DerivedPrivilege, ComputedConfidence, Synthesized, Disqualified;
    var p := rule.policy;
    var k := SourceExactly(p, p.required, Missing(raw), Degraded(raw), rule.severity);
    hide SourceDecision;
    Refuted(setup, rule, raw);
  }

  lemma MembersOf(raw: seq<Observation>)
    ensures forall id :: id in Missing(raw) <==> IsNetwork(id) && !Reported(raw, id)
    ensures forall id ::
      id in Degraded(raw) <==> IsNetwork(id) && exists o :: o in raw && o.scannerId == id && !o.privilege.Available?
  {
    forall id ensures id in Missing(raw) <==> IsNetwork(id) && !Reported(raw, id) {
      MissingMembers(raw, id);
    }
    forall id
      ensures id in Degraded(raw)
         <==> IsNetwork(id) && exists o :: o in raw && o.scannerId == id && !o.privilege.Available?
    {
      DegradedMembers(raw, id);
    }
    hide Missing, Degraded, Reported;
  }

  lemma OnlyPlaces(usable: set<ScannerId>)
    ensures
      var raw := Only(usable);
      && |raw| == 4 && DistinctScanners(raw) && FromScanners(raw)
      && (forall id :: IsNetwork(id) ==> exists i :: 0 <= i < 4 && raw[i].scannerId == id)
      && forall i :: 0 <= i < 4 ==>
           IsNetwork(raw[i].scannerId) && raw[i].privilege == if raw[i].scannerId in usable then Available else Partial
  {
    var raw := Only(usable);
    assert raw[0].scannerId.InterfacesV1? && raw[1].scannerId.RoutesV1?;
    assert raw[2].scannerId.DnsV1? && raw[3].scannerId.NeighborsV1?;
  }

  lemma OnlyMembers(usable: set<ScannerId>)
    requires usable <= NETWORK
    ensures
      var raw := Only(usable);
      && DistinctScanners(raw) && FromScanners(raw)
      && (forall x :: x !in Missing(raw)) && (forall x :: x in Degraded(raw) <==> IsNetwork(x) && x !in usable)
      && DerivedPrivilege(raw) == if usable == {} then Partial else Available
  {
    var raw := Only(usable);
    OnlyPlaces(usable);
    MembersOf(raw);
    hide Missing, Degraded, Only;
    forall x | IsNetwork(x) ensures Reported(raw, x) && (x in Degraded(raw) <==> x !in usable) {
      var i :| 0 <= i < 4 && raw[i].scannerId == x;
      assert raw[i] in raw;
    }
    if usable != {} {
      var x :| x in usable;
      var i :| 0 <= i < 4 && raw[i].scannerId == x;
      assert raw[i].privilege.Available?;
    }
    assert IsNetwork(raw[0].scannerId);
  }

  /** Its confidence is that of the number of usable scanners. */
  lemma OnlyConfidence(usable: set<ScannerId>)
    requires usable <= NETWORK
    ensures ComputedConfidence(Only(usable)) == ConfidenceOf(|usable|)
  {
    var raw := Only(usable);
    var ids := FlatMap(raw, IfUsable);
    OnlyPlaces(usable);
    UsableIds(raw);
    DistinctSize(ids);
    hide FlatMap, Only, DistinctScanners;
    forall id ensures id in ids <==> id in usable {
      if id in usable {
        assert IsNetwork(id);
        var i :| 0 <= i < 4 && raw[i].scannerId == id;
        assert raw[i].privilege.Available?;
      }
    }
    assert Elements(ids) == usable;
  }

  lemma WithoutPlaces(id: ScannerId)
    requires IsNetwork(id)
    ensures
      var raw := Without(id);
      && |raw| == 3 && DistinctScanners(raw) && FromScanners(raw)
      && (forall i :: 0 <= i < 3 ==>
           IsNetwork(raw[i].scannerId) && raw[i].scannerId != id && raw[i].privilege.Available?)
      && forall x :: IsNetwork(x) && x != id ==> exists i :: 0 <= i < 3 && raw[i].scannerId == x
  {
    var raw := Without(id);
    assert |raw| == 3;
    var x, y, z := raw[0].scannerId, raw[1].scannerId, raw[2].scannerId;
    assert raw == [raw[0], raw[1], raw[2]];
    assert forall w :: IsNetwork(w) && w != id ==> w == x || w == y || w == z;
  }

  lemma WithoutMembers(id: ScannerId)
    requires IsNetwork(id)
    ensures
      var raw := Without(id);
      && DistinctScanners(raw) && FromScanners(raw)
      && (forall x :: x in Missing(raw) <==> x == id) && (forall x :: x !in Degraded(raw))
      && DerivedPrivilege(raw).Available?
  {
    var raw := Without(id);
    WithoutPlaces(id);
    MembersOf(raw);
    hide Missing, Degraded, Without;
    assert IsNetwork(raw[0].scannerId) && raw[0].privilege.Available?;
  }

  /** Every topology can be serialised. */
  ghost predicate Serializes(setup: Setup) {
    forall raw: seq<Observation> :: Topologies(setup, raw) != []
  }

  const ONE_TWICE: seq<Observation> := Only(NETWORK) + [Plain(NeighborsV1, Available)]

  lemma OneTwiceMembers()
    ensures forall x :: x !in Missing(ONE_TWICE) && x !in Degraded(ONE_TWICE)
    ensures DerivedPrivilege(ONE_TWICE).Available? && FromScanners(ONE_TWICE)
    ensures |ONE_TWICE| == 5 && forall o :: o in ONE_TWICE ==> IsNetwork(o.scannerId) && o.privilege.Available?
  {
    var raw := ONE_TWICE;
    OnlyPlaces(NETWORK);
    MembersOf(raw);
    hide Missing, Degraded, Only;
    var four := Only(NETWORK);
    assert forall i :: 0 <= i < 4 ==> raw[i] == four[i];
    forall x | IsNetwork(x) ensures Reported(raw, x) {
      var i :| 0 <= i < 4 && four[i].scannerId == x;
      assert raw[i].scannerId == x;
    }
    assert raw[0] in raw;
  }

  lemma {:induction false} AllUsable(raw: seq<Observation>)
    requires forall o :: o in raw ==> IsNetwork(o.scannerId) && o.privilege.Available?
    ensures |FlatMap(raw, IfUsable)| == |raw|
  {
    if raw != [] {
      FrontLast(raw);
      AllUsable(Front(raw));
    }
  }

  /** Five usable observations are one too many for the table of confidences. */
  lemma OneTwiceConfidence()
    ensures ComputedConfidence(ONE_TWICE).Heuristic?
  {
    OneTwiceMembers();
    AllUsable(ONE_TWICE);
    hide FlatMap;
  }

  lemma RefusesLowConfidence(setup: Setup, rule: Rule)
    requires rule.Network? && rule.domain == Topology && Serializes(setup)
    requires rule.policy.onLowConfidence.Suppress? && rule.policy.minConfidence.Value() > Heuristic.Value()
    ensures !JudgedWheneverEvaluated(setup, rule)
  {
    OneTwiceMembers();
    OneTwiceConfidence();
    hide Missing, Degraded, DerivedPrivilege, ComputedConfidence, Synthesized;
    hide Topologies, JudgedIn, Disqualified, FromScanners;
    RefusedIntact(setup, rule, ONE_TWICE);
  }

  /** The required sources usable and the others degraded; one usable scanner if none is required. */
  lemma RefusesAssured(setup: Setup, rule: Rule)
    requires rule.Network? && rule.domain == Topology && Serializes(setup)
    requires rule.policy.onLowConfidence.Suppress?
    requires
      rule.policy.minConfidence.Value() > ConfidenceOf(|RequiredScanners(rule.policy.required)|).Value()
    ensures !JudgedWithoutRepeats(setup, rule)
  {
    var needed := RequiredScanners(rule.policy.required);
    var usable := if needed == {} then {InterfacesV1} else needed;
    assert ConfidenceOf(|usable|) == ConfidenceOf(|needed|);
    OnlyMembers(usable);
    OnlyConfidence(usable);
    hide Missing, Degraded, DerivedPrivilege, ComputedConfidence, Synthesized, ConfidenceOf;
    hide Topologies, JudgedIn, Disqualified, FromScanners, DistinctScanners, Only;
    RefusedIntact(setup, rule, Only(usable));
  }

  lemma RefusesDegraded(setup: Setup, rule: Rule, id: ScannerId)
    requires rule.Network? && rule.domain == Topology && Serializes(setup)
    requires rule.policy.onPartialSource.Suppress? && id in rule.policy.required && IsNetwork(id)
    ensures !JudgedWithoutRepeats(setup, rule)
  {
    OnlyMembers(NETWORK - {id});
    assert NETWORK - {id} != {} by {
      assert (if id.DnsV1? then RoutesV1 else DnsV1) in NETWORK - {id};
    }
    hide Missing, Degraded, DerivedPrivilege, ComputedConfidence, Synthesized;
    hide Topologies, JudgedIn, Disqualified, FromScanners, DistinctScanners, Only;
    RefusedDegraded(setup, rule, Only(NETWORK - {id}), id);
  }

  lemma RefusesPartial(setup: Setup, rule: Rule)
    requires rule.Network? && rule.domain == Topology && Serializes(setup)
    requires rule.policy.onPartialSource.Suppress? && rule.policy.minPrivilege.Available?
    requires forall id :: id in rule.policy.required ==> !IsNetwork(id)
    ensures !JudgedWithoutRepeats(setup, rule)
  {
    OnlyMembers({});
    hide Missing, Degraded, DerivedPrivilege, ComputedConfidence, Synthesized;
    hide Topologies, JudgedIn, Disqualified, FromScanners, DistinctScanners, Only;
    RefusedIntact(setup, rule, Only({}));
  }

  lemma RefusesMissing(setup: Setup, rule: Rule, id: ScannerId)
    requires rule.Network? && rule.domain == Topology && Serializes(setup)
    requires rule.policy.onMissingSource.Suppress? && id in rule.policy.required && IsNetwork(id)
    requires !Disqualified(rule.id, [id])
    ensures !JudgedWithoutRepeats(setup, rule)
  {
    WithoutMembers(id);
    hide Missing, Degraded, DerivedPrivilege, ComputedConfidence, Synthesized;
    hide Topologies, JudgedIn, Disqualified, FromScanners, DistinctScanners, Without;
    RefusedMissing(setup, rule, Without(id), id);
  }

  /** What a topology rule that is not dependable can be made to refuse, no scanner reporting twice. */
  lemma Undependable(setup: Setup, rule: Rule)
    requires rule.Network? && rule.domain == Topology && Serializes(setup) && !DependableOnce(rule)
    ensures !JudgedWithoutRepeats(setup, rule)
  {
    var p := rule.policy;
    hide JudgedWithoutRepeats, Disqualified, Serializes, ConfidenceOf, RequiredScanners;
    if p.onLowConfidence.Suppress?
      && p.minConfidence.Value() > ConfidenceOf(|RequiredScanners(p.required)|).Value()
    {
      RefusesAssured(setup, rule);
    } else if k :| p.onPartialSource.Suppress? && 0 <= k < |p.required| && IsNetwork(p.required[k]) {
      assert p.required[k] in p.required;
      RefusesDegraded(setup, rule, p.required[k]);
    } else if p.onPartialSource.Suppress? && p.minPrivilege.Available? {
      RefusesPartial(setup, rule);
    } else {
      var k :| p.onMissingSource.Suppress? && 0 <= k < |p.required| && IsNetwork(p.required[k])
        && !Disqualified(rule.id, [p.required[k]]);
      assert p.required[k] in p.required;
      RefusesMissing(setup, rule, p.required[k]);
    }
  }

  lemma RefusedYetEvaluated(setup: Setup, rule: Rule, o: Observation)
    requires rule.Network? && rule.domain != Topology && o.domain == rule.domain && Readable(o.privilege)
    requires Evaluate(rule.policy, o, rule.severity).Suppressed?
    ensures !JudgedIn(setup, [o], rule)
  {
    hide All, Synthesized, Topologies, Evaluate;
    var raw := [o];
    assert raw[0] == o && IsEvaluated(setup, raw, rule);
    AllOfOne(setup, o);
  }

  /** A readable observation that an intolerant rule of its domain refuses. */
  lemma Intolerant(setup: Setup, rule: Rule)
    requires rule.Network? && rule.domain != Topology && !Tolerant(rule.policy)
    ensures !JudgedWithoutRepeats(setup, rule)
  {
    var low := Observation(RoutesV1, rule.domain, Host(""), Available, Heuristic, RoutesPayload([]));
    var partial := low.(privilege := Partial, confidence := KernelAuthoritative);
    var o := if Evaluate(rule.policy, low, rule.severity).Suppressed? then low else partial;
    assert Evaluate(rule.policy, o, rule.severity).Suppressed?;
    RefusedYetEvaluated(setup, rule, o);
    hide JudgedIn, Evaluate;
    assert DistinctScanners([o]);
  }

  /** Without repeated scanners, guardrail and evaluated list agree exactly if the rule is dependable there. */
  lemma JudgedOnceExactly(setup: Setup, rule: Rule)
    requires rule.Network? && (rule.domain == Topology ==> Serializes(setup))
    ensures JudgedWithoutRepeats(setup, rule) <==> DependableOnce(rule)
  {
    if DependableOnce(rule) {
      forall raw: seq<Observation> | DistinctScanners(raw) ensures JudgedIn(setup, raw, rule) {
        if IsEvaluated(setup, raw, rule) {
          EvaluatedMeansJudged(setup, raw, rule);
        }
      }
    } else if rule.domain == Topology {
      Undependable(setup, rule);
    } else {
      Intolerant(setup, rule);
    }
  }

  /** Guardrail and evaluated list agree in every cycle exactly if the rule is dependable. */
  lemma JudgedExactly(setup: Setup, rule: Rule)
    requires rule.Network? && (rule.domain == Topology ==> Serializes(setup))
    ensures JudgedWheneverEvaluated(setup, rule) <==> Dependable(rule)
  {
    if Dependable(rule) {
      forall raw: seq<Observation> ensures JudgedIn(setup, raw, rule) {
        if IsEvaluated(setup, raw, rule) {
          EvaluatedMeansJudged(setup, raw, rule);
        }
      }
    } else {
      JudgedOnceExactly(setup, rule);
      hide JudgedIn, DistinctScanners, Disqualified, IsEvaluated;
      if DependableOnce(rule) {
        RefusesLowConfidence(setup, rule);
      }
    }
  }

  predicate IsClosed(rows: Table, fp: string) { fp in rows && rows[fp].status.Resolved? }

  lemma StrictUnjudged(setup: Setup, rule: Rule, o: Observation)
    requires rule.Network? && rule.domain == Routes && rule.policy == Strict([RoutesV1])
    requires o.domain == Routes && o.privilege.Partial? && !o.payload.TopologyPayload?
    ensures Evaluate(rule.policy, o, rule.severity).Suppressed?
    ensures forall k :: 0 <= k < |All(setup, [o])| ==> !ProceedsOn(rule, All(setup, [o])[k])
  {
    AllOfOne(setup, o);
    hide All, Synthesized;
  }

  /** A row of an evaluated rule is closed when nothing is reported. */
  lemma CloseUnreported(ruleIds: seq<string>, row: Row, fp: string, clock: nat -> int)
    requires row.status.Open? && row.ruleId in ruleIds
    ensures IsClosed(AfterWrites(map[fp := row], [], ruleIds, clock), fp)
  {
    WritesExactly(map[fp := row], [], ruleIds, clock, fp);
    UpsertsOnly(map[fp := row], [], clock, fp);
  }

  lemma NoFindings(setup: Setup, rule: Rule, o: Observation)
    requires setup.rules == [rule] && rule.Network?
    requires rule.domain == o.domain ==> Evaluate(rule.policy, o, rule.severity).Suppressed?
    ensures Rules.Findings(setup.forms, setup.rules, o) == []
  {
    var f := EntriesOf(setup.forms, o);
    assert Front([rule]) == [];
    assert FlatMap([], f) == [] && f(rule) == [];
  }

  lemma NoReports(setup: Setup, raw: seq<Observation>, rule: Rule, o: Observation)
    requires setup.rules == [rule] && raw == [o] && rule.Network? && rule.domain == Routes
    requires Evaluate(rule.policy, o, rule.severity).Suppressed?
    ensures Reports(setup, raw) == []
  {
    var topology, all := Synthesized(setup, raw), All(setup, raw);
    AllOfOne(setup, o);
    NoFindings(setup, rule, o);
    NoFindings(setup, rule, topology);
    hide Rules.Findings, Synthesized, All, Evaluate;
    assert Front([o]) == [] && (all == [o] || Front(all) == [o]);
    assert FlatMap([], FindingsIn(setup)) == [];
    assert FlatMap([o], FindingsIn(setup)) == FlatMap([], FindingsIn(setup)) + FindingsIn(setup)(o);
    assert all != [o] ==>
      FlatMap(all, FindingsIn(setup)) == FlatMap([o], FindingsIn(setup)) + FindingsIn(setup)(topology);
  }

  /** The findings a strict rule leaves open are closed by a partial observation that it refused to judge. */
  lemma StrictClosesUnjudged(setup: Setup, o: Observation, id: string, severity: Severity,
      weigh: (Target, Payload, Severity) -> seq<RawFinding>, row: Row, fp: string, clock: nat -> int)
    requires o.domain == Routes && o.privilege.Partial? && !o.payload.TopologyPayload?
    requires setup.rules == [Network(id, Routes, Strict([RoutesV1]), severity, weigh)]
    requires row.status.Open? && row.ruleId == id
    ensures forall k :: 0 <= k < |All(setup, [o])| ==> !ProceedsOn(setup.rules[0], All(setup, [o])[k])
    ensures IsClosed(AfterCycle(setup, [o], map[fp := row], clock), fp)
  {
    var rule, raw := setup.rules[0], [o];
    StrictUnjudged(setup, rule, o);
    assert raw[0] == o && IsEvaluated(setup, raw, rule);
    NoReports(setup, raw, rule, o);
    EvaluatedMembers(setup, raw, id);
    assert rule in setup.rules;
    hide EvaluatedIds, Reports, All, IsEvaluated, AfterWrites;
    CloseUnreported(EvaluatedIds(setup, raw), row, fp, clock);
  }
}
