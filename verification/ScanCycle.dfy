// The scan cycle (observation/supervisor.rs): what the scanners delivered becomes a topology, the
// rules judge everything, the reports are written, and stale findings of evaluated rules are closed.
module ScanCycle {
  import opened Correlation
  import opened Findings
  import opened Guardrail
  import opened Observations
  import opened Rules
  import Queue
  import opened Seqs
  import opened Topology

  /** `json` fails where serialisation does; `domainName` is the lower-case name of a domain. */
  datatype Setup = Setup(
    texts: Texts, forms: Forms, rules: seq<Rule>, fallbackHost: string,
    json: Payload -> Option<string>, domainName: Domain -> string)

  /** How a scanner task ended; endings arrive in the order in which the tasks finish. */
  datatype Ending = Delivered(observation: Observation) | Errored | TimedOut | Panicked

  function DeliveryOf(): Ending -> seq<Observation> { (e: Ending) => if e.Delivered? then [e.observation] else [] }

  function Collected(endings: seq<Ending>): seq<Observation> { FlatMap(endings, DeliveryOf()) }

  function FirstHost(raw: seq<Observation>): Option<string> {
    if raw == [] then None
    else if raw[0].target.Host? then Some(raw[0].target.hostname)
    else FirstHost(raw[1..])
  }

  function Hostname(setup: Setup, raw: seq<Observation>): string {
    if FirstHost(raw).Some? then FirstHost(raw).value else setup.fallbackHost
  }

  function SynthesizedSnapshot(raw: seq<Observation>): Snapshot {
    Built(SourcesIn(raw)).(confidence := ComputedConfidence(raw))
  }

  function Synthesized(setup: Setup, raw: seq<Observation>): Observation {
    var snapshot := SynthesizedSnapshot(raw);
    Observation(
      TopologyV1, Topology, Host(Hostname(setup, raw)), DerivedPrivilege(raw), ComputedConfidence(raw),
      TopologyPayload(snapshot, Edges(setup.texts, snapshot), Missing(raw), Degraded(raw)))
  }

  /** An observation that cannot be serialised is not created. */
  function Topologies(setup: Setup, raw: seq<Observation>): seq<Observation> {
    if setup.json(Synthesized(setup, raw).payload).Some? then [Synthesized(setup, raw)] else []
  }

  function All(setup: Setup, raw: seq<Observation>): seq<Observation> { raw + Topologies(setup, raw) }

  function FindingsIn(setup: Setup): Observation -> seq<Finding> {
    (o: Observation) => Rules.Findings(setup.forms, setup.rules, o)
  }

  function Reports(setup: Setup, raw: seq<Observation>): seq<Finding> { FlatMap(All(setup, raw), FindingsIn(setup)) }

  /** The missing sources that keep a topology rule from counting as evaluated. */
  predicate Disqualified(ruleId: string, missing: seq<ScannerId>) {
    if ruleId == NET_003 || ruleId == NET_008 then InterfacesV1 in missing || RoutesV1 in missing
    else if ruleId == NET_004 then RoutesV1 in missing
    else missing != []
  }

  predicate IsEvaluated(setup: Setup, raw: seq<Observation>, rule: Rule) {
    if rule.domain == Topology
    then Topologies(setup, raw) != [] && Readable(DerivedPrivilege(raw)) && !Disqualified(rule.id, Missing(raw))
    else exists i :: 0 <= i < |raw| && raw[i].domain == rule.domain && Readable(raw[i].privilege)
  }

  function IfEvaluated(setup: Setup, raw: seq<Observation>): Rule -> seq<string> {
    (rule: Rule) => if IsEvaluated(setup, raw, rule) then [rule.id] else []
  }

  function EvaluatedIds(setup: Setup, raw: seq<Observation>): seq<string> {
    FlatMap(setup.rules, IfEvaluated(setup, raw))
  }

  /** The findings table after a cycle. */
  function AfterCycle(setup: Setup, raw: seq<Observation>, rows: Table, clock: nat -> int): Table {
    AfterWrites(rows, Reports(setup, raw), EvaluatedIds(setup, raw), clock)
  }

  datatype CycleResult = CycleResult(
    totalScanners: nat, successfulScanners: nat, findingsEvaluated: nat, activeOpen: nat, topologySynthesized: bool)

  // ----- The cycle ------------------------------------------------------------------------

  method CollectEndings(endings: seq<Ending>) returns (raw: seq<Observation>)
    ensures raw == Collected(endings)
  {
    raw := [];
    for i := 0 to |endings|
      invariant raw == FlatMap(endings[..i], DeliveryOf())
    {
      FlatMapStep(endings, i, DeliveryOf());
      match endings[i]
      case Delivered(o) => raw := raw + [o];
      case _ =>
    }
    AllTaken(endings);
  }

  lemma SynthesizedParts(setup: Setup, raw: seq<Observation>)
    ensures
      var o := Synthesized(setup, raw);
      && o.domain == Topology && o.scannerId == TopologyV1 && o.payload.TopologyPayload?
      && o.privilege == DerivedPrivilege(raw) && o.confidence == ComputedConfidence(raw)
      && o.payload.missing == Missing(raw) && o.payload.partial == Degraded(raw)
  {
    hide Built, Edges, ComputedConfidence, DerivedPrivilege, Missing, Degraded, SourcesIn, FirstHost;
  }

  method Synthesize(setup: Setup, raw: seq<Observation>) returns (topology: Observation)
    ensures topology == Synthesized(setup, raw)
  {
    hide Built, Edges, ComputedConfidence, DerivedPrivilege, Missing, Degraded, SourcesIn;
    var sources, missing, partial := ExtractFromObservations(raw);
    var snapshot := BuildSnapshot(sources);
    snapshot := snapshot.(confidence := ComputedConfidence(raw));
    var edges := Correlate(setup.texts, snapshot);
    topology := Observation(
      TopologyV1, Topology, Host(Hostname(setup, raw)), DerivedPrivilege(raw), ComputedConfidence(raw),
      TopologyPayload(snapshot, edges, missing, partial));
  }

  method SelectEvaluated(setup: Setup, raw: seq<Observation>, topologies: seq<Observation>) returns (ids: seq<string>)
    requires topologies == Topologies(setup, raw)
    ensures ids == EvaluatedIds(setup, raw)
  {
    SynthesizedParts(setup, raw);
    hide FlatMap, Missing, DerivedPrivilege, Disqualified, Synthesized;
    ids := [];
    NothingMapped(setup.rules, IfEvaluated(setup, raw));
    for i := 0 to |setup.rules|
      invariant ids == FlatMap(setup.rules[..i], IfEvaluated(setup, raw))
    {
      var rule := setup.rules[i];
      FlatMapStep(setup.rules, i, IfEvaluated(setup, raw));
      if rule.domain == Topology {
        if topologies != [] && Readable(topologies[0].privilege) {
          if !Disqualified(rule.id, topologies[0].payload.missing) {
            ids := ids + [rule.id];
          }
        }
      } else {
        if exists k :: 0 <= k < |raw| && raw[k].domain == rule.domain && Readable(raw[k].privilege) {
          ids := ids + [rule.id];
        }
      }
    }
    AllTaken(setup.rules);
  }

  /** Write the reports one by one, then reconcile. */
  method WriteFindings(table: FindingsTable, reports: seq<Finding>, ids: seq<string>, clock: nat -> int)
    modifies table
    ensures table.rows == AfterWrites(old(table.rows), reports, ids, clock)
  {
    hide Upserted, Reconciled;
    for i := 0 to |reports|
      invariant table.rows == UpsertedAll(old(table.rows), reports[..i], clock)
    {
      assert Front(reports[..i + 1]) == reports[..i];
      var _ := table.UpsertEntry(reports[i], clock(i));
    }
    AllTaken(reports);
    var active := Active(reports);
    var _ := table.ReconcileEvaluatedRules(ids, active, clock(|reports|));
  }

  method EvaluateAll(setup: Setup, engine: RuleEngine, observations: seq<Observation>) returns (reports: seq<Finding>)
    requires engine.rules == setup.rules
    ensures reports == FlatMap(observations, FindingsIn(setup))
  {
    hide FlatMap, Rules.Findings;
    reports := [];
    NothingMapped(observations, FindingsIn(setup));
    for i := 0 to |observations|
      invariant reports == FlatMap(observations[..i], FindingsIn(setup))
    {
      FlatMapStep(observations, i, FindingsIn(setup));
      var found := engine.EvaluateObservation(setup.forms, observations[i]);
      reports := reports + found;
    }
    AllTaken(observations);
  }

  // ----- The queue ------------------------------------------------------------------------

  function Kind(setup: Setup, o: Observation): string { setup.domainName(o.domain) }
  function Json(setup: Setup, o: Observation): string {
    if setup.json(o.payload).Some? then setup.json(o.payload).value else "{}"
  }

  predicate Enqueues(
    setup: Setup, hash: (string, string) -> string, rows: Queue.Table, o: Observation,
    id: Queue.Id, now: int, e: Queue.Event)
  {
    Queue.IsEnqueue(rows, e, hash, Kind(setup, o), Json(setup, o), None, now, id)
  }

  /** One enqueueing per observation, under its domain name and its serialised payload. */
  ghost predicate EnqueuesAll(
    setup: Setup, hash: (string, string) -> string, rows: Queue.Table, observations: seq<Observation>,
    ids: seq<Queue.Id>, clock: nat -> int, events: seq<Queue.Event>)
  {
    && |events| == |observations| <= |ids|
    && forall i :: 0 <= i < |events| ==>
         Enqueues(setup, hash, Queue.After(rows, events[..i]), observations[i], ids[i], clock(i), events[i])
  }

  lemma EnqueuesOne(
      setup: Setup, hash: (string, string) -> string, rows: Queue.Table, observations: seq<Observation>, i: nat,
      ids: seq<Queue.Id>, clock: nat -> int, events: seq<Queue.Event>, e: Queue.Event)
    requires i < |observations| && i < |ids|
    requires EnqueuesAll(setup, hash, rows, observations[..i], ids, clock, events)
    requires Enqueues(setup, hash, Queue.After(rows, events), observations[i], ids[i], clock(i), e)
    ensures EnqueuesAll(setup, hash, rows, observations[..i + 1], ids, clock, events + [e])
    ensures Queue.After(rows, events + [e]) == Queue.Apply(Queue.After(rows, events), e)
  {
    Queue.AfterSnoc(rows, events, e);
    hide Enqueues, Queue.After, Queue.Apply;
    var more := events + [e];
    assert more[..i] == events;
    forall k | 0 <= k < |more|
      ensures Enqueues(setup, hash, Queue.After(rows, more[..k]), observations[..i + 1][k], ids[k], clock(k), more[k])
    {
      if k < i {
        assert more[..k] == events[..k];
      }
    }
  }

  lemma NothingEnqueued(
      setup: Setup, hash: (string, string) -> string, rows: Queue.Table, observations: seq<Observation>,
      ids: seq<Queue.Id>, clock: nat -> int)
    ensures EnqueuesAll(setup, hash, rows, observations[..0], ids, clock, []) && Queue.After(rows, []) == rows
  {
  }

  method EnqueueAll(
      setup: Setup, queue: Queue.ObservationQueue, observations: seq<Observation>,
      ids: seq<Queue.Id>, clock: nat -> int)
    returns (ghost events: seq<Queue.Event>)
    requires |observations| <= |ids| && Distinct(ids) && forall id :: id in ids ==> id !in queue.rows
    modifies queue
    ensures EnqueuesAll(setup, queue.computeHash, old(queue.rows), observations, ids, clock, events)
    ensures queue.rows == Queue.After(old(queue.rows), events)
    ensures forall id :: id in queue.rows ==> id in old(queue.rows) || id in ids[..|observations|]
  {
    hide Queue.Apply, Queue.IsEnqueue, Queue.QueuedWith, Queue.After, EnqueuesAll, Kind, Json;
    events := [];
    ghost var before := queue.rows;
    NothingEnqueued(setup, queue.computeHash, before, observations, ids, clock);
    for i := 0 to |observations|
      invariant queue.rows == Queue.After(before, events)
      invariant EnqueuesAll(setup, queue.computeHash, before, observations[..i], ids, clock, events)
      invariant forall id :: id in queue.rows ==> id in before || id in ids[..i]
    {
      var o := observations[i];
      assert ids[i] !in ids[..i] && ids[i] in ids;
      ghost var e := queue.EnqueueEvent(Kind(setup, o), Json(setup, o), None, clock(i), ids[i]);
      EnqueuesOne(setup, queue.computeHash, before, observations, i, ids, clock, events, e);
      events := events + [e];
    }
    AllTaken(observations);
  }

  /** The clock once `n` readings have been taken. */
  function Later(clock: nat -> int, n: nat): nat -> int { (i: nat) => clock(n + i) }

  /** Fresh identifiers, one for every observation that may be queued. */
  ghost predicate Fresh(ids: seq<Queue.Id>, n: nat, rows: Queue.Table) {
    n <= |ids| && Distinct(ids) && forall id :: id in ids ==> id !in rows
  }

  lemma {:induction false} CollectedSize(endings: seq<Ending>)
    ensures |Collected(endings)| <= |endings|
  {
    if endings != [] {
      CollectedSize(Front(endings));
    }
  }

  lemma FreshRest(ids: seq<Queue.Id>, n: nat, before: Queue.Table, after: Queue.Table)
    requires n <= |ids| && Distinct(ids) && forall id :: id in ids ==> id !in before
    requires forall id :: id in after ==> id in before || id in ids[..n]
    ensures Distinct(ids[n..]) && forall id :: id in ids[n..] ==> id !in after
  {
    forall id | id in ids[n..] ensures id !in ids[..n] && id in ids {
      var j :| 0 <= j < |ids| - n && ids[n..][j] == id;
      assert ids[n + j] == id;
      assert forall i :: 0 <= i < n ==> ids[..n][i] == ids[i];
    }
  }

  lemma EnqueuesAt(
      setup: Setup, hash: (string, string) -> string, rows: Queue.Table, observations: seq<Observation>,
      ids: seq<Queue.Id>, clock: nat -> int, events: seq<Queue.Event>, k: nat)
    requires k < |events| && EnqueuesAll(setup, hash, rows, observations, ids, clock, events)
    ensures k < |observations| && k < |ids|
    ensures Enqueues(setup, hash, Queue.After(rows, events[..k]), observations[k], ids[k], clock(k), events[k])
  {
    hide Enqueues, Queue.After;
  }

  lemma EnqueuedSecond(
      setup: Setup, hash: (string, string) -> string, rows: Queue.Table, first: seq<Queue.Event>,
      observations: seq<Observation>, ids: seq<Queue.Id>, clock: nat -> int, second: seq<Queue.Event>, k: nat)
    requires k < |second| && EnqueuesAll(setup, hash, Queue.After(rows, first), observations, ids, clock, second)
    ensures Enqueues(
      setup, hash, Queue.After(rows, first + second[..k]), observations[k], ids[k], clock(k), second[k])
  {
    EnqueuesAt(setup, hash, Queue.After(rows, first), observations, ids, clock, second, k);
    Queue.AfterAppend(rows, first, second[..k]);
    hide Enqueues, EnqueuesAll, Queue.After;
  }

  lemma EnqueuesJoined(
      setup: Setup, hash: (string, string) -> string, rows: Queue.Table, a: seq<Observation>, b: seq<Observation>,
      ids: seq<Queue.Id>, clock: nat -> int, first: seq<Queue.Event>, second: seq<Queue.Event>)
    requires |a| + |b| <= |ids| && EnqueuesAll(setup, hash, rows, a, ids, clock, first)
    requires EnqueuesAll(setup, hash, Queue.After(rows, first), b, ids[|a|..], Later(clock, |a|), second)
    ensures EnqueuesAll(setup, hash, rows, a + b, ids, clock, first + second)
    ensures Queue.After(rows, first + second) == Queue.After(Queue.After(rows, first), second)
  {
    var all := first + second;
    Queue.AfterAppend(rows, first, second);
    hide Enqueues, Queue.After;
    forall i | 0 <= i < |all|
      ensures Enqueues(setup, hash, Queue.After(rows, all[..i]), (a + b)[i], ids[i], clock(i), all[i])
    {
      if i < |a| {
        assert all[..i] == first[..i];
      } else {
        var k := i - |a|;
        EnqueuedSecond(setup, hash, rows, first, b, ids[|a|..], Later(clock, |a|), second, k);
        assert all[..i] == first + second[..k];
        assert all[i] == second[k] && (a + b)[i] == b[k] && ids[i] == ids[|a|..][k];
        assert clock(i) == Later(clock, |a|)(k);
      }
    }
  }

  /**
   * One cycle: the raw observations are queued, the findings written, and then the topology, if there
   * is one, is queued as well.
   */
  method RunScanCycle(
      setup: Setup, engine: RuleEngine, endings: seq<Ending>, queue: Queue.ObservationQueue, table: FindingsTable,
      ids: seq<Queue.Id>, clock: nat -> int)
    returns (result: CycleResult, ghost events: seq<Queue.Event>)
    requires engine.rules == setup.rules && Fresh(ids, |endings| + 1, queue.rows)
    modifies table, queue
    ensures table.rows == AfterCycle(setup, Collected(endings), old(table.rows), clock)
    ensures queue.rows == Queue.After(old(queue.rows), events)
    ensures EnqueuesAll(setup, queue.computeHash, old(queue.rows), All(setup, Collected(endings)), ids, clock, events)
    ensures
      var raw := Collected(endings);
      var open := set fp | fp in table.rows && table.rows[fp].status == Open;
      result == CycleResult(
        |endings|, |raw|, |Reports(setup, raw)|, |open|, setup.json(Synthesized(setup, raw).payload).Some?)
  {
    hide FlatMap, AfterWrites, EvaluatedIds, Synthesized, EnqueuesAll, Queue.After;
    var raw := CollectEndings(endings);
    CollectedSize(endings);
    var topology := Synthesize(setup, raw);
    var topologies := if setup.json(topology.payload).Some? then [topology] else [];
    var all := raw + topologies;
    var reports := EvaluateAll(setup, engine, all);
    var ruleIds := SelectEvaluated(setup, raw, topologies);
    ghost var first := EnqueueAll(setup, queue, raw, ids, clock);
    WriteFindings(table, reports, ruleIds, clock);
    FreshRest(ids, |raw|, old(queue.rows), queue.rows);
    ghost var second := EnqueueAll(setup, queue, topologies, ids[|raw|..], Later(clock, |raw|));
    events := first + second;
    EnqueuesJoined(setup, queue.computeHash, old(queue.rows), raw, topologies, ids, clock, first, second);
    var open := set fp | fp in table.rows && table.rows[fp].status == Open;
    result := CycleResult(|endings|, |raw|, |reports|, |open|, topologies != []);
  }

  function InDomain(domain: Domain): Rule -> seq<string> {
    (rule: Rule) => if rule.domain == domain then [rule.id] else []
  }

  /** A scan of one domain: every rule of the domain counts as evaluated if the observation is readable. */
  method RunSingleDomainScan(
      setup: Setup, engine: RuleEngine, domain: Domain, scan: Option<Observation>, queue: Queue.ObservationQueue,
      table: FindingsTable, ids: seq<Queue.Id>, clock: nat -> int)
    returns (result: Option<CycleResult>, ghost events: seq<Queue.Event>)
    requires engine.rules == setup.rules && Fresh(ids, 1, queue.rows)
    modifies table, queue
    ensures scan.None? ==> result.None? && table.rows == old(table.rows) && queue.rows == old(queue.rows)
    ensures scan.Some? ==>
      var reports := Rules.Findings(setup.forms, setup.rules, scan.value);
      && queue.rows == Queue.After(old(queue.rows), events)
      && EnqueuesAll(setup, queue.computeHash, old(queue.rows), [scan.value], ids, clock, events)
      && table.rows == AfterWrites(
           old(table.rows), reports,
           if Readable(scan.value.privilege) then FlatMap(setup.rules, InDomain(domain)) else [], clock)
      && var open := set fp | fp in table.rows && table.rows[fp].status == Open;
      result == Some(CycleResult(1, 1, |reports|, |open|, false))
  {
    hide FlatMap, AfterWrites, Rules.Findings, EnqueuesAll, Queue.After;
    events := [];
    if scan.None? {
      return None, [];
    }
    var o := scan.value;
    var reports := engine.EvaluateObservation(setup.forms, o);
    var ruleIds := [];
    NothingMapped(setup.rules, InDomain(domain));
    if Readable(o.privilege) {
      for i := 0 to |setup.rules|
        invariant ruleIds == FlatMap(setup.rules[..i], InDomain(domain))
        invariant table.rows == old(table.rows) && queue.rows == old(queue.rows)
      {
        FlatMapStep(setup.rules, i, InDomain(domain));
        if setup.rules[i].domain == domain {
          ruleIds := ruleIds + [setup.rules[i].id];
        }
      }
      AllTaken(setup.rules);
    }
    events := EnqueueAll(setup, queue, [o], ids, clock);
    WriteFindings(table, reports, ruleIds, clock);
    var open := set fp | fp in table.rows && table.rows[fp].status == Open;
    result := Some(CycleResult(1, 1, |reports|, |open|, false));
  }
}
