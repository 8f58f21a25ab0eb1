// The order in which concurrent scanners finish leaves no trace in the findings table
// (observation/supervisor.rs). First the topologies of two orders are compared, then the reports
// for one fingerprint, which come from the rules of one id and so from one domain, and last the
// tables, leaving times aside.
module FinishingOrder {
  import opened Correlation
  import opened Findings
  import opened Guardrail
  import opened Observations
  import opened Rules
  import opened ScanCycle
  import opened Seqs
  import opened Topology

  /** One observation per scanner and per domain, none of them a topology, and one host name. */
  ghost predicate Orderly(raw: seq<Observation>) {
    && (forall i, j :: 0 <= i < j < |raw| ==> raw[i].scannerId != raw[j].scannerId && raw[i].domain != raw[j].domain)
    && (forall o :: o in raw ==> o.domain != Topology)
    && (forall o, p :: o in raw && p in raw && o.target.Host? && p.target.Host? ==>
        o.target.hostname == p.target.hostname)
  }

  /** Payloads that differ at most in the order of their degraded sources. */
  ghost predicate SameButOrder(p: Payload, q: Payload) {
    && p.TopologyPayload? && q.TopologyPayload? && p.(partial := []) == q.(partial := [])
    && forall id :: id in p.partial <==> id in q.partial
  }

  ghost predicate OrderBlindJson(setup: Setup) {
    forall p, q :: SameButOrder(p, q) ==> setup.json(p).Some? == setup.json(q).Some?
  }

  /**
   * Fingerprints tell rules apart, rules of one id are for one domain, and whether a payload can be
   * serialised does not hang on the order of its degraded sources.
   */
  ghost predicate WellFormed(setup: Setup) {
    && Injective(setup.forms.digest) && ColonFree(setup.rules)
    && (forall r, s :: r in setup.rules && s in setup.rules && r.id == s.id ==> r.domain == s.domain)
    && OrderBlindJson(setup)
  }

  lemma {:induction false} FirstHostIs(raw: seq<Observation>)
    ensures FirstHost(raw).None? ==> forall o :: o in raw ==> !o.target.Host?
    ensures FirstHost(raw).Some? ==> exists o :: o in raw && o.target.Host? && o.target.hostname == FirstHost(raw).value
  {
    if raw != [] {
      FirstHostIs(raw[1..]);
      assert raw == [raw[0]] + raw[1..];
      if FirstHost(raw).Some? && !raw[0].target.Host? {
        var o :| o in raw[1..] && o.target.Host? && o.target.hostname == FirstHost(raw).value;
        assert o in raw;
      }
    }
  }

  lemma SameHost(a: seq<Observation>, b: seq<Observation>)
    requires multiset(a) == multiset(b) && Orderly(a)
    ensures FirstHost(a) == FirstHost(b)
  {
    SameMembers(a, b);
    FirstHostIs(a);
    FirstHostIs(b);
    hide FirstHost;
  }

  lemma OnePerPosition(raw: seq<Observation>)
    requires Orderly(raw)
    ensures OnePerScanner(raw)
  {
    forall x, y | x in raw && y in raw && x.scannerId == y.scannerId ensures x == y {
      var i :| 0 <= i < |raw| && raw[i] == x;
      var j :| 0 <= j < |raw| && raw[j] == y;
      assert !(i < j) && !(j < i);
    }
  }

  /** Everything that goes into the topology but the order of its degraded sources. */
  lemma SameIngredients(setup: Setup, a: seq<Observation>, b: seq<Observation>)
    requires multiset(a) == multiset(b) && Orderly(a)
    ensures SynthesizedSnapshot(a) == SynthesizedSnapshot(b) && Hostname(setup, a) == Hostname(setup, b)
    ensures DerivedPrivilege(a) == DerivedPrivilege(b) && ComputedConfidence(a) == ComputedConfidence(b)
    ensures Missing(a) == Missing(b) && forall id :: id in Degraded(a) <==> id in Degraded(b)
  {
    OnePerPosition(a);
    ExtractionOrderIrrelevant(a, b);
    SameHost(a, b);
    SameMembers(Degraded(a), Degraded(b));
    hide Missing, Degraded, SourcesIn, Built, ComputedConfidence, DerivedPrivilege, FirstHost, Orderly;
  }

  lemma SameShape(
      target: Target, privilege: Privilege, confidence: Confidence, snapshot: Snapshot, edges: seq<Edge>,
      missing: seq<ScannerId>, a: seq<ScannerId>, b: seq<ScannerId>)
    requires forall id :: id in a <==> id in b
    ensures
      var p, q := TopologyPayload(snapshot, edges, missing, a), TopologyPayload(snapshot, edges, missing, b);
      var x := Observation(TopologyV1, Topology, target, privilege, confidence, p);
      && SameButOrder(p, q)
      && x.(payload := q) == Observation(TopologyV1, Topology, target, privilege, confidence, q)
  {
  }

  /** The topology differs between two orders at most in the order of its degraded sources. */
  lemma SynthesizedAgrees(setup: Setup, a: seq<Observation>, b: seq<Observation>)
    requires multiset(a) == multiset(b) && Orderly(a)
    ensures
      var x, y := Synthesized(setup, a), Synthesized(setup, b);
      SameButOrder(x.payload, y.payload) && x.(payload := y.payload) == y
  {
    SameIngredients(setup, a, b);
    hide SynthesizedSnapshot, Hostname, Edges, ComputedConfidence, DerivedPrivilege, Missing, Degraded, Orderly;
    hide SameButOrder;
    var snapshot := SynthesizedSnapshot(a);
    SameShape(
      Host(Hostname(setup, a)), DerivedPrivilege(a), ComputedConfidence(a),
      snapshot, Edges(setup.texts, snapshot), Missing(a), Degraded(a), Degraded(b));
  }

  /** Rules see no difference between two such topologies. */
  lemma SameJudgement(setup: Setup, x: Observation, y: Observation)
    requires SameButOrder(x.payload, y.payload) && x.(payload := y.payload) == y
    ensures Rules.Findings(setup.forms, setup.rules, x) == Rules.Findings(setup.forms, setup.rules, y)
  {
    forall rule | rule in setup.rules ensures EntriesOf(setup.forms, x)(rule) == EntriesOf(setup.forms, y)(rule) {
      if rule.Network? {
        SourceOrderIrrelevant(
          rule.policy, rule.policy.required, x.payload.missing, y.payload.missing,
          x.payload.partial, y.payload.partial, rule.severity);
      }
      assert Visible(x.payload) == Visible(y.payload);
      assert Raw(rule, x) == Raw(rule, y);
    }
    hide EntriesOf, Raw;
    FlatMapSame(setup.rules, EntriesOf(setup.forms, x), EntriesOf(setup.forms, y));
  }

  /** The reports for one fingerprint out of one observation. */
  function Share(setup: Setup, fp: string): Observation -> seq<Finding> {
    (o: Observation) => FlatMap(FindingsIn(setup)(o), For(fp))
  }

  lemma {:induction false} ReportsByShare(setup: Setup, observations: seq<Observation>, fp: string)
    ensures FlatMap(FlatMap(observations, FindingsIn(setup)), For(fp)) == FlatMap(observations, Share(setup, fp))
  {
    hide Rules.Findings;
    if observations != [] {
      ReportsByShare(setup, Front(observations), fp);
      FlatMapAppend(FlatMap(Front(observations), FindingsIn(setup)), FindingsIn(setup)(Last(observations)), For(fp));
    }
  }

  lemma {:induction false} NobodyShares(observations: seq<Observation>, share: Observation -> seq<Finding>)
    requires forall o :: o in observations ==> share(o) == []
    ensures FlatMap(observations, share) == []
  {
    if observations != [] {
      FrontLast(observations);
      NobodyShares(Front(observations), share);
    }
  }

  lemma {:induction false} OneShares(observations: seq<Observation>, share: Observation -> seq<Finding>, x: Observation)
    requires multiset(observations)[x] == 1
    requires forall o :: o in observations && o != x ==> share(o) == []
    ensures FlatMap(observations, share) == share(x)
  {
    var front, last := Front(observations), Last(observations);
    FrontLast(observations);
    assert multiset(observations) == multiset(front) + multiset{last};
    if last == x {
      assert x !in multiset(front);
      NobodyShares(front, share);
    } else {
      OneShares(front, share, x);
    }
  }

  lemma Sharer(setup: Setup, o: Observation, fp: string) returns (r: (Rule, RawFinding))
    requires WellFormed(setup) && Share(setup, fp)(o) != []
    ensures r.0 in setup.rules && r.0.domain == o.domain && ':' !in r.0.id
    ensures fp == Fingerprint(setup.forms, r.0.id, setup.forms.targetKey(r.1.target), r.1.discriminator)
  {
    var f := Share(setup, fp)(o)[0];
    FlatMapMembers(FindingsIn(setup)(o), For(fp), f);
    hide FlatMap, Fingerprint;
    var g :| g in FindingsIn(setup)(o) && f in For(fp)(g);
    assert g == f && f.fingerprint == fp;
    var rule, raw := FindingOrigin(setup.forms, setup.rules, o, g);
    var i :| 0 <= i < |setup.rules| && setup.rules[i] == rule;
    r := (rule, raw);
  }

  lemma SharersShareDomain(setup: Setup, x: Observation, y: Observation, fp: string)
    requires WellFormed(setup) && Share(setup, fp)(x) != [] && Share(setup, fp)(y) != []
    ensures x.domain == y.domain
  {
    var r := Sharer(setup, x, fp);
    var s := Sharer(setup, y, fp);
    hide Rules.Findings, Fingerprint;
    FingerprintTellsRule(
      setup.forms, r.0.id, setup.forms.targetKey(r.1.target), r.1.discriminator,
      s.0.id, setup.forms.targetKey(s.1.target), s.1.discriminator);
  }

  lemma OnePerDomain(raw: seq<Observation>, x: Observation, y: Observation)
    requires Orderly(raw) && x in raw && y in raw && x.domain == y.domain
    ensures x == y
  {
    var i :| 0 <= i < |raw| && raw[i] == x;
    var j :| 0 <= j < |raw| && raw[j] == y;
    assert !(i < j) && !(j < i);
  }

  lemma OnceAmong(raw: seq<Observation>, x: Observation)
    requires Orderly(raw) && x in raw
    ensures multiset(raw)[x] == 1
  {
    OnceInBag(raw, x);
    assert x in multiset(raw);
  }

  lemma SameShares(setup: Setup, a: seq<Observation>, b: seq<Observation>, fp: string)
    requires WellFormed(setup) && multiset(a) == multiset(b) && Orderly(a)
    ensures FlatMap(a, Share(setup, fp)) == FlatMap(b, Share(setup, fp))
  {
    SameMembers(a, b);
    var share := Share(setup, fp);
    if x :| x in a && share(x) != [] {
      forall o | o in a && o != x ensures share(o) == [] {
        if share(o) != [] {
          SharersShareDomain(setup, x, o, fp);
          OnePerDomain(a, x, o);
        }
      }
      hide Share, WellFormed;
      OnceAmong(a, x);
      OneShares(a, share, x);
      OneShares(b, share, x);
    } else {
      NobodyShares(a, share);
      NobodyShares(b, share);
    }
  }

  lemma SameSerialised(setup: Setup, p: Payload, q: Payload)
    requires WellFormed(setup) && SameButOrder(p, q)
    ensures setup.json(p).Some? == setup.json(q).Some?
  {
    hide Injective, ColonFree;
  }

  lemma SameShare(setup: Setup, x: Observation, y: Observation, fp: string)
    requires SameButOrder(x.payload, y.payload) && x.(payload := y.payload) == y
    ensures Share(setup, fp)(x) == Share(setup, fp)(y)
  {
    SameJudgement(setup, x, y);
    hide Rules.Findings, SameButOrder;
    assert FindingsIn(setup)(x) == FindingsIn(setup)(y);
  }

  lemma FlatMapOne<T, U>(x: T, f: T -> seq<U>)
    ensures FlatMap([x], f) == f(x)
  {
    assert Front([x]) == [];
  }

  /** Both orders lead to a topology or neither does, and rules say the same about it. */
  lemma SameTopologies(setup: Setup, a: seq<Observation>, b: seq<Observation>, fp: string)
    requires WellFormed(setup) && multiset(a) == multiset(b) && Orderly(a)
    ensures Topologies(setup, a) == [] <==> Topologies(setup, b) == []
    ensures FlatMap(Topologies(setup, a), Share(setup, fp)) == FlatMap(Topologies(setup, b), Share(setup, fp))
  {
    var x, y := Synthesized(setup, a), Synthesized(setup, b);
    SynthesizedAgrees(setup, a, b);
    hide Synthesized;
    SameSerialised(setup, x.payload, y.payload);
    SameShare(setup, x, y, fp);
    FlatMapOne(x, Share(setup, fp));
    FlatMapOne(y, Share(setup, fp));
    hide Share, FlatMap, WellFormed, Orderly, SameButOrder;
  }

  lemma SameReports(setup: Setup, a: seq<Observation>, b: seq<Observation>, fp: string)
    requires WellFormed(setup) && multiset(a) == multiset(b) && Orderly(a)
    ensures FlatMap(Reports(setup, a), For(fp)) == FlatMap(Reports(setup, b), For(fp))
  {
    SameShares(setup, a, b, fp);
    SameTopologies(setup, a, b, fp);
    ReportsByShare(setup, All(setup, a), fp);
    ReportsByShare(setup, All(setup, b), fp);
    FlatMapAppend(a, Topologies(setup, a), Share(setup, fp));
    FlatMapAppend(b, Topologies(setup, b), Share(setup, fp));
    hide Topologies, Share, Rules.Findings, FlatMap, WellFormed, Orderly;
  }

  lemma ReadableMembers(raw: seq<Observation>, domain: Domain)
    ensures (exists i :: 0 <= i < |raw| && raw[i].domain == domain && Readable(raw[i].privilege))
       <==> exists o :: o in raw && o.domain == domain && Readable(o.privilege)
  {
  }

  lemma SameForRule(setup: Setup, a: seq<Observation>, b: seq<Observation>, rule: Rule)
    requires forall o :: o in a <==> o in b
    requires Missing(a) == Missing(b) && DerivedPrivilege(a) == DerivedPrivilege(b)
    requires Topologies(setup, a) == [] <==> Topologies(setup, b) == []
    ensures IfEvaluated(setup, a)(rule) == IfEvaluated(setup, b)(rule)
  {
    hide Missing, DerivedPrivilege, Topologies, Disqualified;
    ReadableMembers(a, rule.domain);
    ReadableMembers(b, rule.domain);
  }

  lemma SameEvaluated(setup: Setup, a: seq<Observation>, b: seq<Observation>)
    requires WellFormed(setup) && multiset(a) == multiset(b) && Orderly(a)
    ensures EvaluatedIds(setup, a) == EvaluatedIds(setup, b)
  {
    SameIngredients(setup, a, b);
    SameTopologies(setup, a, b, "");
    SameMembers(a, b);
    hide WellFormed, Orderly, Share, FlatMap, IfEvaluated, Missing, DerivedPrivilege, Topologies, SynthesizedSnapshot;
    hide Hostname, ComputedConfidence, Degraded;
    forall rule ensures IfEvaluated(setup, a)(rule) == IfEvaluated(setup, b)(rule) {
      SameForRule(setup, a, b, rule);
    }
    FlatMapSame(setup.rules, IfEvaluated(setup, a), IfEvaluated(setup, b));
  }

  /**
   * The order in which the scanners finish leaves no trace in the findings table: status, counts,
   * severity, title and evidence of every row are the same; only times can differ.
   */
  lemma FinishingOrderIrrelevant(
      setup: Setup, a: seq<Observation>, b: seq<Observation>, rows: Table, clockA: nat -> int, clockB: nat -> int)
    requires WellFormed(setup) && multiset(a) == multiset(b) && Orderly(a)
    ensures Agree(AfterCycle(setup, a, rows, clockA), AfterCycle(setup, b, rows, clockB))
  {
    forall fp ensures FlatMap(Reports(setup, a), For(fp)) == FlatMap(Reports(setup, b), For(fp)) {
      SameReports(setup, a, b, fp);
    }
    SameEvaluated(setup, a, b);
    hide *;
    WritesAgree(rows, Reports(setup, a), Reports(setup, b), EvaluatedIds(setup, a), clockA, clockB);
  }

  /** The same for the endings a cycle starts from: failures, timeouts and deliveries in any order. */
  lemma EndingOrderIrrelevant(
      setup: Setup, a: seq<Ending>, b: seq<Ending>, rows: Table, clockA: nat -> int, clockB: nat -> int)
    requires WellFormed(setup) && multiset(a) == multiset(b) && Orderly(Collected(a))
    ensures Agree(AfterCycle(setup, Collected(a), rows, clockA), AfterCycle(setup, Collected(b), rows, clockB))
  {
    FlatMapPermutation(a, b, DeliveryOf());
    hide WellFormed, Orderly, AfterCycle, FlatMap;
    FinishingOrderIrrelevant(setup, Collected(a), Collected(b), rows, clockA, clockB);
  }

  /** The registered rules are well formed for any injective digest. */
  lemma RegisteredWellFormed(setup: Setup, j: Judges)
    requires setup.rules == Registered(j) && Injective(setup.forms.digest) && OrderBlindJson(setup)
    ensures WellFormed(setup)
  {
    RegisteredIds(j);
    hide Registered;
    forall r, s | r in setup.rules && s in setup.rules && r.id == s.id ensures r.domain == s.domain {
      var i :| 0 <= i < |setup.rules| && setup.rules[i] == r;
      var k :| 0 <= k < |setup.rules| && setup.rules[k] == s;
      assert !(i < k) && !(k < i);
    }
  }
}
