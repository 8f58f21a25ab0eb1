// What a scan cycle collects, synthesizes, queues and reports (observation/supervisor.rs), in terms of
// the endings of its scanner tasks and of single observations and rules.
module CycleContents {
  import opened Correlation
  import opened Findings
  import opened Observations
  import Queue
  import opened Rules
  import opened ScanCycle
  import opened Seqs
  import opened Topology

  /** Collected is what was delivered, in the order in which scanner tasks ended; failures are left out. */
  lemma CollectedExactly(endings: seq<Ending>) returns (places: seq<nat>)
    ensures
      var raw := Collected(endings);
      && Upwards(places, |endings|) && |places| == |raw|
      && (forall i :: 0 <= i < |raw| ==> endings[places[i]] == Ending.Delivered(raw[i]))
      && forall k :: 0 <= k < |endings| ==> (k in places <==> endings[k].Delivered?)
  {
    places := FlatMapPlaces(endings, DeliveryOf());
    hide FlatMap;
    var raw := Collected(endings);
    forall i | 0 <= i < |raw| ensures endings[places[i]] == Ending.Delivered(raw[i]) {
      assert DeliveryOf()(endings[places[i]]) == [raw[i]];
    }
  }

  /** The first observation of a host. */
  predicate FirstOfHost(raw: seq<Observation>, hostname: string, i: int) {
    0 <= i < |raw| && raw[i].target == Host(hostname) && forall k :: 0 <= k < i ==> !raw[k].target.Host?
  }

  /** The host the topology is of: that of the first observation of a host, or the one to fall back to. */
  ghost predicate IsHostname(setup: Setup, raw: seq<Observation>, hostname: string) {
    || (hostname == setup.fallbackHost && forall k :: 0 <= k < |raw| ==> !raw[k].target.Host?)
    || exists i :: FirstOfHost(raw, hostname, i)
  }

  lemma {:induction false} FirstHostExactly(setup: Setup, raw: seq<Observation>)
    ensures IsHostname(setup, raw, Hostname(setup, raw))
  {
    if raw != [] && !raw[0].target.Host? {
      FirstHostExactly(setup, raw[1..]);
      var h := Hostname(setup, raw[1..]);
      assert forall k :: 0 < k < |raw| ==> raw[k] == raw[1..][k - 1];
      if i :| FirstOfHost(raw[1..], h, i) {
        assert FirstOfHost(raw, h, i + 1);
      }
    } else if raw != [] {
      assert FirstOfHost(raw, raw[0].target.hostname, 0);
    }
  }

  /**
   * The topology observation: made of what the extraction takes from the observations, with the computed
   * confidence in both places.
   */
  lemma SynthesizedExactly(setup: Setup, raw: seq<Observation>)
    ensures
      var o, built := Synthesized(setup, raw), Built(SourcesIn(raw));
      && o.scannerId == TopologyV1 && o.domain == Topology
      && o.target.Host? && IsHostname(setup, raw, o.target.hostname)
      && o.privilege == DerivedPrivilege(raw) && o.confidence == ComputedConfidence(raw)
      && o.payload.TopologyPayload? && o.payload.missing == Missing(raw) && o.payload.partial == Degraded(raw)
      && o.payload.snapshot == Snapshot(
           built.interfaces, built.gateways, built.resolvers, built.neighbors, built.subnets, built.isMultiHomed,
           ComputedConfidence(raw), built.provenance)
      && o.payload.edges == Edges(setup.texts, o.payload.snapshot)
  {
    FirstHostExactly(setup, raw);
    hide Built, Edges, ComputedConfidence, DerivedPrivilege, Missing, Degraded, SourcesIn, Hostname, IsHostname;
  }

  lemma {:induction false} PartsOf(setup: Setup, raw: seq<Observation>) returns (parts: seq<seq<Finding>>)
    ensures |parts| == |raw| && FlatMap(raw, FindingsIn(setup)) == Concat(parts)
    ensures forall i :: 0 <= i < |raw| ==> parts[i] == Rules.Findings(setup.forms, setup.rules, raw[i])
  {
    parts := [];
    if raw != [] {
      hide Rules.Findings;
      var before := PartsOf(setup, Front(raw));
      parts := before + [FindingsIn(setup)(Last(raw))];
      assert Front(parts) == before;
    }
  }

  /**
   * The reports of a cycle: the findings of the observations, one observation after the other, and those
   * of the topology at the end unless it could not be serialised.
   */
  lemma ReportsExactly(setup: Setup, raw: seq<Observation>) returns (parts: seq<seq<Finding>>)
    ensures
      var topology := Synthesized(setup, raw);
      && |parts| == |raw| + 1 && Reports(setup, raw) == Concat(parts)
      && (forall i :: 0 <= i < |raw| ==> parts[i] == Rules.Findings(setup.forms, setup.rules, raw[i]))
      && Last(parts) == if setup.json(topology.payload).Some?
                        then Rules.Findings(setup.forms, setup.rules, topology) else []
  {
    var topology := Synthesized(setup, raw);
    parts := PartsOf(setup, raw);
    hide Synthesized, Rules.Findings;
    var last := if setup.json(topology.payload).Some? then FindingsIn(setup)(topology) else [];
    if setup.json(topology.payload).Some? {
      Shift(raw, topology, []);
    } else {
      assert raw + [] == raw;
    }
    assert Front(parts + [last]) == parts;
    parts := parts + [last];
  }

  /** Privileges under which an observation counts as evidence. */
  predicate Telling(o: Observation) { o.privilege == Available || o.privilege == Partial }

  /** What has to be there for a rule to count as evaluated. */
  predicate Conditions(setup: Setup, raw: seq<Observation>, rule: Rule) {
    if rule.domain == Topology then
      var topology := Synthesized(setup, raw);
      && setup.json(topology.payload).Some? && Telling(topology)
      && match rule.id
         case "NET-003-GATEWAY-OFF-SUBNET" => RoutesV1 !in Missing(raw) && InterfacesV1 !in Missing(raw)
         case "NET-008-MULTI-HOMED-PUBLIC-PRIVATE" => RoutesV1 !in Missing(raw) && InterfacesV1 !in Missing(raw)
         case "NET-004-COMPETING-DEFAULT-GATEWAYS" => RoutesV1 !in Missing(raw)
         case _ => Missing(raw) == []
    else exists o :: o in raw && o.domain == rule.domain && Telling(o)
  }

  lemma ConditionsMeet(setup: Setup, raw: seq<Observation>, rule: Rule)
    ensures IsEvaluated(setup, raw, rule) <==> Conditions(setup, raw, rule)
  {
    SynthesizedParts(setup, raw);
    hide Synthesized, Missing, DerivedPrivilege;
    if rule.domain != Topology {
      if i :| 0 <= i < |raw| && raw[i].domain == rule.domain && Telling(raw[i]) {
        assert raw[i] in raw;
      }
    }
  }

  /** The evaluated rules are those of the setup that meet the conditions, in order of registration. */
  lemma EvaluatedExactly(setup: Setup, raw: seq<Observation>) returns (places: seq<nat>)
    ensures
      var ids := EvaluatedIds(setup, raw);
      && Upwards(places, |setup.rules|) && |places| == |ids|
      && (forall i :: 0 <= i < |ids| ==> ids[i] == setup.rules[places[i]].id)
      && forall k :: 0 <= k < |setup.rules| ==> (k in places <==> Conditions(setup, raw, setup.rules[k]))
  {
    places := FlatMapPlaces(setup.rules, IfEvaluated(setup, raw));
    var ids := EvaluatedIds(setup, raw);
    hide FlatMap, IsEvaluated, Conditions;
    forall i | 0 <= i < |ids| ensures ids[i] == setup.rules[places[i]].id {
      assert IfEvaluated(setup, raw)(setup.rules[places[i]]) == [ids[i]];
    }
    forall rule ensures IsEvaluated(setup, raw, rule) <==> Conditions(setup, raw, rule) {
      ConditionsMeet(setup, raw, rule);
    }
  }

  /**
   * What queueing an observation amounts to: a queued row with the digest of its domain name and payload text
   * is touched, and if there is none a new one is queued, without a source and not yet tried.
   */
  lemma EnqueuesExactly(
      setup: Setup, hash: (string, string) -> string, rows: Queue.Table, o: Observation,
      id: Queue.Id, now: int, e: Queue.Event, json: string)
    requires setup.json(o.payload) == Some(json) || (setup.json(o.payload) == None && json == "{}")
    ensures
      var kind := setup.domainName(o.domain);
      Enqueues(setup, hash, rows, o, id, now, e) <==>
        || (e == Queue.Insert(
              id, Queue.Row(kind, json, hash(kind, json), Queue.Queued, 0, None, now, now))
            && forall i :: i in rows ==> !(rows[i].status == Queue.Queued && rows[i].hash == hash(kind, json)))
        || exists i :: i in rows && rows[i].status == Queue.Queued && rows[i].hash == hash(kind, json)
             && e == Queue.Touch(i, now)
  {
    var kind := setup.domainName(o.domain);
    var queued := Queue.QueuedWith(rows, hash(kind, json));
    assert forall i :: i in queued <==> i in rows && rows[i].status == Queue.Queued && rows[i].hash == hash(kind, json);
  }

  /** A scan of one domain evaluates the rules of that domain, in order of registration. */
  lemma InDomainExactly(rules: seq<Rule>, domain: Domain) returns (places: seq<nat>)
    ensures
      var ids := FlatMap(rules, InDomain(domain));
      && Upwards(places, |rules|) && |places| == |ids|
      && (forall i :: 0 <= i < |ids| ==> ids[i] == rules[places[i]].id)
      && forall k :: 0 <= k < |rules| ==> (k in places <==> rules[k].domain == domain)
  {
    places := FlatMapPlaces(rules, InDomain(domain));
    hide FlatMap;
    var ids := FlatMap(rules, InDomain(domain));
    forall i | 0 <= i < |ids| ensures ids[i] == rules[places[i]].id {
      assert InDomain(domain)(rules[places[i]]) == [ids[i]];
    }
  }
}
