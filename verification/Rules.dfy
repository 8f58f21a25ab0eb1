// The rule engine (rules/engine.rs, rules/network/registry.rs): guarded rules, the findings they
// make of an observation, and their fingerprints. What most rules look for is a function value;
// NET-004 is spelled out in module Net004.
module Rules {
  import Canonical
  import opened Guardrail
  import Net004
  import opened Observations
  import opened Seqs
  import opened Text

  datatype RawFinding = RawFinding(
    target: Target, discriminator: string, severity: Severity, title: string, evidence: string)

  /** A rule sees target and data; only the guardrail of a network rule sees privileges and sources. */
  datatype Rule =
    | Baseline(id: string, domain: Domain, judge: (Target, Payload) -> seq<RawFinding>)
    | Network(
        id: string, domain: Domain, policy: Policy, severity: Severity,
        weigh: (Target, Payload, Severity) -> seq<RawFinding>)

  function Visible(p: Payload): Payload {
    if p.TopologyPayload? then p.(missing := [], partial := []) else p
  }

  function Raw(rule: Rule, o: Observation): seq<RawFinding> {
    match rule
    case Baseline(_, _, judge) => judge(o.target, Visible(o.payload))
    case Network(_, _, policy, severity, weigh) =>
      match Evaluate(policy, o, severity)
      case Proceed(effective) => weigh(o.target, Visible(o.payload), effective)
      case Suppressed => []
  }

  /** How findings are written down: target keys, the digest, and the evidence summary. */
  datatype Forms = Forms(targetKey: Target -> string, digest: string -> string, summary: RawFinding -> string)

  datatype Finding = Finding(fingerprint: string, ruleId: string, severity: Severity, title: string, evidence: string)

  function Fingerprint(forms: Forms, ruleId: string, targetKey: string, discriminator: string): string {
    forms.digest(ruleId + ":" + (targetKey + ":" + discriminator))
  }

  function EntryOf(forms: Forms, ruleId: string): RawFinding -> seq<Finding> {
    (raw: RawFinding) =>
      [Finding(Fingerprint(forms, ruleId, forms.targetKey(raw.target), raw.discriminator),
               ruleId, raw.severity, raw.title, forms.summary(raw))]
  }

  function EntriesOf(forms: Forms, o: Observation): Rule -> seq<Finding> {
    (rule: Rule) => if rule.domain == o.domain then FlatMap(Raw(rule, o), EntryOf(forms, rule.id)) else []
  }

  function Findings(forms: Forms, rules: seq<Rule>, o: Observation): seq<Finding> {
    FlatMap(rules, EntriesOf(forms, o))
  }

  class RuleEngine {
    var rules: seq<Rule>

    constructor ()
      ensures rules == []
    {
      rules := [];
    }

    method RegisterRule(rule: Rule)
      modifies this
      ensures rules == old(rules) + [rule]
    {
      rules := rules + [rule];
    }

    method EvaluateObservation(forms: Forms, o: Observation) returns (entries: seq<Finding>)
      ensures entries == Findings(forms, rules, o)
    {
      hide FlatMap, Raw, Fingerprint;
      entries := [];
      NothingMapped(rules, EntriesOf(forms, o));
      for i := 0 to |rules|
        invariant entries == FlatMap(rules[..i], EntriesOf(forms, o))
      {
        var rule := rules[i];
        FlatMapStep(rules, i, EntriesOf(forms, o));
        if rule.domain == o.domain {
          var raw := Raw(rule, o);
          ghost var before := entries;
          NothingMapped(raw, EntryOf(forms, rule.id));
          for j := 0 to |raw|
            invariant entries == before + FlatMap(raw[..j], EntryOf(forms, rule.id))
          {
            FlatMapStep(raw, j, EntryOf(forms, rule.id));
            Associative(before, FlatMap(raw[..j], EntryOf(forms, rule.id)), EntryOf(forms, rule.id)(raw[j]));
            entries := entries + EntryOf(forms, rule.id)(raw[j]);
          }
          AllTaken(raw);
        }
      }
      AllTaken(rules);
    }
  }

  // ----- Which rule a fingerprint belongs to --------------------------------------------

  ghost predicate Injective(digest: string -> string) {
    forall a, b :: digest(a) == digest(b) ==> a == b
  }

  predicate ColonFree(rules: seq<Rule>) {
    forall i :: 0 <= i < |rules| ==> ':' !in rules[i].id
  }

  /** Without colons in rule ids, fingerprints of different rules differ. */
  lemma FingerprintTellsRule(
      forms: Forms, a: string, keyA: string, discA: string, b: string, keyB: string, discB: string)
    requires Injective(forms.digest) && ':' !in a && ':' !in b
    requires Fingerprint(forms, a, keyA, discA) == Fingerprint(forms, b, keyB, discB)
    ensures a == b
  {
    BeforeColon(a, keyA + ":" + discA, b, keyB + ":" + discB);
  }

  /** What a rule gets to see of a payload: everything but the source lists of a topology. */
  predicate SeenAs(p: Payload, seen: Payload) {
    if p.TopologyPayload? then seen == TopologyPayload(p.snapshot, p.edges, [], []) else seen == p
  }

  /** A raw finding of a rule: of its judgement, with the severity the guardrail lets a network rule report. */
  ghost predicate Makes(rule: Rule, o: Observation, seen: Payload, raw: seq<RawFinding>) {
    match rule
    case Baseline(_, _, judge) => raw == judge(o.target, seen)
    case Network(_, _, policy, severity, weigh) =>
      if Evaluate(policy, o, severity) == Suppressed then raw == []
      else
        exists effective ::
          Evaluate(policy, o, severity) == Proceed(effective) && raw == weigh(o.target, seen, effective)
  }

  /** An entry repeats what the raw finding says; its fingerprint is that of rule, target and discriminator. */
  predicate Records(forms: Forms, ruleId: string, raw: RawFinding, f: Finding) {
    && f.fingerprint == forms.digest(ruleId + ":" + (forms.targetKey(raw.target) + ":" + raw.discriminator))
    && f.ruleId == ruleId && f.severity == raw.severity && f.title == raw.title && f.evidence == forms.summary(raw)
  }

  lemma {:induction false} EntriesInOrder(forms: Forms, ruleId: string, raw: seq<RawFinding>)
    ensures
      var entries := FlatMap(raw, EntryOf(forms, ruleId));
      |entries| == |raw| && forall i :: 0 <= i < |raw| ==> Records(forms, ruleId, raw[i], entries[i])
  {
    if raw != [] {
      EntriesInOrder(forms, ruleId, Front(raw));
    }
  }

  /**
   * What one more rule adds to the findings of an observation: nothing if it is for another domain,
   * otherwise one entry per raw finding of its judgement, in order, behind those of the rules before it.
   */
  lemma FindingsGrow(
      forms: Forms, rules: seq<Rule>, rule: Rule, o: Observation, seen: Payload, raw: seq<RawFinding>)
    requires SeenAs(o.payload, seen) && Makes(rule, o, seen, raw)
    ensures Findings(forms, [], o) == []
    ensures
      var before, after := Findings(forms, rules, o), Findings(forms, rules + [rule], o);
      && before <= after && |after| == |before| + (if rule.domain == o.domain then |raw| else 0)
      && forall i :: 0 <= i < |after| - |before| ==> Records(forms, rule.id, raw[i], after[|before| + i])
  {
    Shift(rules, rule, []);
    EntriesInOrder(forms, rule.id, raw);
    assert Front(rules + [rule]) == rules;
    assert Raw(rule, o) == raw;
    hide Raw, Records, Evaluate;
  }

  /**
   * A finding comes from a rule for the domain of its observation, says what its raw finding says, and its
   * fingerprint names that rule.
   */
  lemma FindingOrigin(forms: Forms, rules: seq<Rule>, o: Observation, f: Finding)
    returns (rule: Rule, raw: RawFinding)
    requires f in Findings(forms, rules, o)
    ensures rule in rules && rule.domain == o.domain && raw in Raw(rule, o) && Records(forms, rule.id, raw, f)
    ensures f.fingerprint == Fingerprint(forms, rule.id, forms.targetKey(raw.target), raw.discriminator)
  {
    FlatMapMembers(rules, EntriesOf(forms, o), f);
    hide Raw;
    rule :| rule in rules && f in EntriesOf(forms, o)(rule);
    FlatMapMembers(Raw(rule, o), EntryOf(forms, rule.id), f);
    hide FlatMap;
    raw :| raw in Raw(rule, o) && f in EntryOf(forms, rule.id)(raw);
  }

  // ----- The registered rules -----------------------------------------------------------

  const NET_003: string := "NET-003-GATEWAY-OFF-SUBNET"
  const NET_004: string := "NET-004-COMPETING-DEFAULT-GATEWAYS"
  const NET_008: string := "NET-008-MULTI-HOMED-PUBLIC-PRIVATE"

  /** What the rules look for, apart from NET-004, and how NET-004 words its evidence. */
  datatype Judges = Judges(
    net001: (Target, Payload) -> seq<RawFinding>,
    net002: (Target, Payload) -> seq<RawFinding>,
    fw001: (Target, Payload) -> seq<RawFinding>,
    usr001: (Target, Payload) -> seq<RawFinding>,
    svc001: (Target, Payload) -> seq<RawFinding>,
    os001: (Target, Payload) -> seq<RawFinding>,
    net003: (Target, Payload, Severity) -> seq<RawFinding>,
    net005: (Target, Payload, Severity) -> seq<RawFinding>,
    net006: (Target, Payload, Severity) -> seq<RawFinding>,
    net007: (Target, Payload, Severity) -> seq<RawFinding>,
    net008: (Target, Payload, Severity) -> seq<RawFinding>,
    describe: Net004.Competition -> string)

  function Competing(target: Target, severity: Severity, describe: Net004.Competition -> string):
    Net004.Competition -> seq<RawFinding>
  {
    (c: Net004.Competition) =>
      [RawFinding(Host(if target.Host? then target.hostname else "host"), Net004.Discriminator(c), severity,
                  "Equal-Metric Competing Default Gateways Detected", describe(c))]
  }

  function WeighGateways(describe: Net004.Competition -> string): (Target, Payload, Severity) -> seq<RawFinding> {
    (target: Target, payload: Payload, severity: Severity) =>
      if payload.TopologyPayload?
      then FlatMap(Net004.Competitions(payload.snapshot.gateways), Competing(target, severity, describe))
      else []
  }

  /** The rules of `with_all_rules`, in order of registration. */
  function Registered(j: Judges): seq<Rule> {
    [Baseline("NET-001-PLAINTEXT-PORT", Sockets, j.net001),
     Baseline("NET-002-UNRESTRICTED-DB", Sockets, j.net002),
     Baseline("FW-001-PROFILE-DISABLED", Firewall, j.fw001),
     Baseline("USR-001-GUEST-ENABLED", Users, j.usr001),
     Baseline("SVC-001-UNQUOTED-PATH", Services, j.svc001),
     Baseline("OS-001-SECUREBOOT-OFF", OsConfig, j.os001),
     Network(NET_003, Topology, Standard([RoutesV1, InterfacesV1], Low), Medium, j.net003),
     Network(NET_004, Topology, Standard([RoutesV1], Low), Low, WeighGateways(j.describe)),
     Network("NET-005-INVALID-DNS-RESOLVER", Dns, Standard([DnsV1], Low), Low, j.net005),
     Network("NET-006-LOOPBACK-ROUTE-LEAK", Routes, Standard([RoutesV1], Low), Medium, j.net006),
     Network("NET-007-INVALID-NEIGHBOR-ENTRY", Neighbors, Standard([NeighborsV1], Low), Low, j.net007),
     Network(NET_008, Topology, Standard([InterfacesV1, RoutesV1], Low), Low, j.net008)]
  }

  /** No two of the registered ids begin and go on with the same two characters. */
  function Mark(id: string): (char, char)
    requires |id| > 6
  {
    (id[0], id[6])
  }

  const MARKS: seq<(char, char)> := [
    ('N', '1'), ('N', '2'), ('F', '-'), ('U', '1'), ('S', '1'), ('O', '-'),
    ('N', '3'), ('N', '4'), ('N', '5'), ('N', '6'), ('N', '7'), ('N', '8')]

  lemma MarksDiffer(i: nat, k: nat)
    requires i < |MARKS| && k < |MARKS|
    ensures MARKS[i] == MARKS[k] ==> i == k
  {
  }

  predicate Marked(id: string, k: nat)
    requires k < |MARKS|
  {
    |id| > 6 && Mark(id) == MARKS[k]
  }

  lemma BaselineMarks(j: Judges)
    ensures var rules := Registered(j);
      Marked(rules[0].id, 0) && Marked(rules[1].id, 1) && Marked(rules[2].id, 2)
      && Marked(rules[3].id, 3) && Marked(rules[4].id, 4) && Marked(rules[5].id, 5)
  {
  }

  lemma NetworkMarks(j: Judges)
    ensures var rules := Registered(j);
      Marked(rules[6].id, 6) && Marked(rules[7].id, 7) && Marked(rules[8].id, 8)
      && Marked(rules[9].id, 9) && Marked(rules[10].id, 10) && Marked(rules[11].id, 11)
  {
  }

  lemma RegisteredMarks(j: Judges)
    ensures |Registered(j)| == 12 && forall k :: 0 <= k < 12 ==> Marked(Registered(j)[k].id, k)
  {
    BaselineMarks(j);
    NetworkMarks(j);
    assert |Registered(j)| == 12;
    hide Registered, Marked;
  }

  lemma PlainSocketIds()
    ensures ':' !in "NET-001-PLAINTEXT-PORT" && ':' !in "NET-002-UNRESTRICTED-DB"
  {
  }

  lemma PlainHostIds()
    ensures ':' !in "FW-001-PROFILE-DISABLED" && ':' !in "USR-001-GUEST-ENABLED"
  {
  }

  lemma PlainSystemIds()
    ensures ':' !in "SVC-001-UNQUOTED-PATH" && ':' !in "OS-001-SECUREBOOT-OFF"
  {
  }

  lemma PlainGatewayIds()
    ensures ':' !in NET_003 && ':' !in NET_004
  {
  }

  lemma PlainHomingIds()
    ensures ':' !in NET_008 && ':' !in "NET-005-INVALID-DNS-RESOLVER"
  {
  }

  lemma PlainTableIds()
    ensures ':' !in "NET-006-LOOPBACK-ROUTE-LEAK" && ':' !in "NET-007-INVALID-NEIGHBOR-ENTRY"
  {
  }

  lemma RegisteredPlain(j: Judges)
    ensures ColonFree(Registered(j))
  {
    PlainSocketIds();
    PlainHostIds();
    PlainSystemIds();
    PlainGatewayIds();
    PlainHomingIds();
    PlainTableIds();
    var rules := Registered(j);
    assert rules == [rules[0], rules[1], rules[2], rules[3], rules[4], rules[5],
                     rules[6], rules[7], rules[8], rules[9], rules[10], rules[11]];
  }

  /** Rule ids are distinct and free of colons. */
  lemma RegisteredIds(j: Judges)
    ensures ColonFree(Registered(j))
    ensures forall i, k :: 0 <= i < k < |Registered(j)| ==> Registered(j)[i].id != Registered(j)[k].id
  {
    RegisteredMarks(j);
    RegisteredPlain(j);
    hide Registered;
    var rules := Registered(j);
    forall i, k | 0 <= i < k < 12 ensures rules[i].id != rules[k].id {
      MarksDiffer(i, k);
      assert Marked(rules[i].id, i) && Marked(rules[k].id, k);
    }
  }

  /** The domains of the registered rules, and which judgement each of them makes. */
  lemma RegisteredJudges(j: Judges)
    ensures
      var rules := Registered(j);
      && |rules| == 12 && (forall k :: 0 <= k < 12 ==> (rules[k].Baseline? <==> k < 6))
      && rules[0].domain == rules[1].domain == Sockets && rules[2].domain == Firewall && rules[3].domain == Users
      && rules[4].domain == Services && rules[5].domain == OsConfig
      && rules[0].judge == j.net001 && rules[1].judge == j.net002 && rules[2].judge == j.fw001
      && rules[3].judge == j.usr001 && rules[4].judge == j.svc001 && rules[5].judge == j.os001
      && rules[6].weigh == j.net003 && rules[7].weigh == WeighGateways(j.describe) && rules[8].weigh == j.net005
      && rules[9].weigh == j.net006 && rules[10].weigh == j.net007 && rules[11].weigh == j.net008
  {
  }

  /** What a registered rule does with an observation whose sources are intact for it. */
  predicate Judged(d: Decision, o: Observation, severity: Severity) {
    if o.privilege.Available? then d == Proceed(if o.confidence.Heuristic? then Low else severity)
    else if o.privilege.Partial? then d == Proceed(Low)
    else d == Suppressed
  }

  /** What it does with a topology of which it asks for two sources, one before the other. */
  predicate JudgedAfter(d: Decision, o: Observation, severity: Severity, first: ScannerId, second: ScannerId)
    requires o.payload.TopologyPayload?
  {
    var missing, partial := o.payload.missing, o.payload.partial;
    if first in missing then d == Suppressed
    else if first in partial then d == Proceed(Low)
    else if second in missing then d == Suppressed
    else if second in partial then d == Proceed(Low)
    else Judged(d, o, severity)
  }

  lemma StandardJudges(required: seq<ScannerId>, o: Observation, severity: Severity)
    requires o.domain != Topology
    ensures Judged(Evaluate(Standard(required, Low), o, severity), o, severity)
  {
  }

  /** The first source of one or two that is not intact. */
  lemma HitsOneOfTwo(p: Policy, o: Observation, first: ScannerId, second: ScannerId)
    requires o.domain == Topology && o.payload.TopologyPayload?
    requires p.required == [first, second] || (first == second && p.required == [first])
    ensures
      var hit := (id: ScannerId) => id in o.payload.missing || id in o.payload.partial;
      forall k: nat :: Hits(p, o, k) <==> if hit(first) then k == 0 else k == 1 && hit(second)
  {
    assert p.required[0] == first && (|p.required| > 1 ==> p.required[1] == second);
  }

  lemma StandardJudgesTopology(
      required: seq<ScannerId>, first: ScannerId, second: ScannerId, o: Observation, severity: Severity)
    requires o.domain == Topology && o.payload.TopologyPayload?
    requires required == [first, second] || (first == second && required == [first])
    ensures JudgedAfter(Evaluate(Standard(required, Low), o, severity), o, severity, first, second)
  {
    var p := Standard(required, Low);
    EvaluateExactly(p, o, severity);
    HitsOneOfTwo(p, o, first, second);
    hide Evaluate;
    assert Hits(p, o, 0) || Hits(p, o, 1) || forall k: nat :: !Hits(p, o, k);
  }

  /**
   * The decisions of the six network rules on every observation of their domains: NET-003 asks for routes,
   * then interfaces, NET-008 the other way round, NET-004 for routes; the others look at privilege and
   * confidence alone.
   */
  lemma RegisteredDecisions(j: Judges, k: nat, o: Observation)
    requires 6 <= k < 12 && o.domain == Registered(j)[k].domain
    requires o.domain == Topology ==> o.payload.TopologyPayload?
    ensures
      var rule := Registered(j)[k];
      && rule.Network?
      && var d := Evaluate(rule.policy, o, rule.severity);
      match k
      case 6 => o.domain == Topology && JudgedAfter(d, o, Medium, RoutesV1, InterfacesV1)
      case 7 => o.domain == Topology && JudgedAfter(d, o, Low, RoutesV1, RoutesV1)
      case 8 => o.domain == Dns && Judged(d, o, Low)
      case 9 => o.domain == Routes && Judged(d, o, Medium)
      case 10 => o.domain == Neighbors && Judged(d, o, Low)
      case _ => o.domain == Topology && JudgedAfter(d, o, Low, InterfacesV1, RoutesV1)
  {
    hide Evaluate, Judged, JudgedAfter, Standard;
    match k
    case 6 => StandardJudgesTopology([RoutesV1, InterfacesV1], RoutesV1, InterfacesV1, o, Medium);
    case 7 => StandardJudgesTopology([RoutesV1], RoutesV1, RoutesV1, o, Low);
    case 8 => StandardJudges([DnsV1], o, Low);
    case 9 => StandardJudges([RoutesV1], o, Medium);
    case 10 => StandardJudges([NeighborsV1], o, Low);
    case _ => StandardJudgesTopology([InterfacesV1, RoutesV1], InterfacesV1, RoutesV1, o, Low);
  }

  /** With low as both the default and the downgraded severity there is only one severity to proceed with. */
  lemma AlwaysLow(o: Observation, required: seq<ScannerId>)
    requires Evaluate(Standard(required, Low), o, Low).Proceed?
    ensures Evaluate(Standard(required, Low), o, Low) == Proceed(Low)
  {
    if o.domain == Topology && o.payload.TopologyPayload? {
      var k := SourceExactly(Standard(required, Low), required, o.payload.missing, o.payload.partial, Low);
      hide SourceDecision;
    }
  }

  lemma {:induction false} OneEach(
      found: seq<Net004.Competition>, target: Target, severity: Severity, describe: Net004.Competition -> string)
    ensures
      var raw := FlatMap(found, Competing(target, severity, describe));
      && |raw| == |found|
      && forall i :: 0 <= i < |raw| ==>
          raw[i] == RawFinding(
            if target.Host? then target else Host("host"), Net004.Discriminator(found[i]), severity,
            "Equal-Metric Competing Default Gateways Detected", describe(found[i]))
  {
    hide Net004.Discriminator;
    if found != [] {
      OneEach(Front(found), target, severity, describe);
    }
  }

  /**
   * NET-004, let through by its guardrail, reports every competition once, under its canonical discriminator,
   * for the host it was seen on.
   */
  lemma Net004Reports(j: Judges, o: Observation)
    requires o.payload.TopologyPayload? && Evaluate(Standard([RoutesV1], Low), o, Low).Proceed?
    ensures
      var raw, found := Raw(Registered(j)[7], o), Net004.Competitions(o.payload.snapshot.gateways);
      && |raw| == |found|
      && forall i :: 0 <= i < |raw| ==>
          raw[i] == RawFinding(
            if o.target.Host? then o.target else Host("host"), Net004.Discriminator(found[i]), Low,
            "Equal-Metric Competing Default Gateways Detected", j.describe(found[i]))
  {
    var found := Net004.Competitions(o.payload.snapshot.gateways);
    AlwaysLow(o, [RoutesV1]);
    OneEach(found, o.target, Low, j.describe);
    hide Net004.Competitions, Net004.Discriminator, FlatMap, Evaluate;
  }

  // ----- Short rule ids -------------------------------------------------------------------

  predicate IsAlphabetic(c: char) { 'A' <= c <= 'Z' || 'a' <= c <= 'z' }
  predicate IsDigit(c: char) { '0' <= c <= '9' }

  predicate ShortAt(s: string, k: nat) {
    |s| == k + 4 && s[k] == '-'
      && (forall i :: 0 <= i < k ==> IsAlphabetic(s[i])) && (forall i :: k < i < k + 4 ==> IsDigit(s[i]))
  }

  /** Two to four letters, a dash, three digits. */
  predicate IsShort(s: string) {
    exists k :: 2 <= k <= 4 && ShortAt(s, k)
  }

  /** Short forms from their end: six to eight characters, three digits behind a dash, only letters before it. */
  lemma ShortExactly(s: string)
    ensures IsShort(s) <==>
      && 6 <= |s| <= 8 && s[|s| - 4] as int == 45
      && (forall i :: |s| - 3 <= i < |s| ==> 48 <= s[i] as int <= 57)
      && (forall i :: 0 <= i < |s| - 4 ==> 65 <= s[i] as int <= 90 || 97 <= s[i] as int <= 122)
  {
    if 6 <= |s| <= 8 {
      var k := |s| - 4;
      assert IsShort(s) <==> ShortAt(s, k);
    }
  }

  /** The place of the first id that begins like this. */
  predicate FirstWith(ids: seq<string>, prefix: string, i: nat) {
    i < |ids| && prefix <= ids[i] && forall k :: 0 <= k < i ==> !(prefix <= ids[k])
  }

  /** A full id, or failing that the first id of which it is the short form. */
  method ResolveRuleId(ids: seq<string>, input: string) returns (resolved: Option<string>)
    ensures
      var upper := Canonical.ToAsciiUppercase(Canonical.Trim(input));
      match resolved
      case Some(id) =>
        if upper in ids then id == upper
        else IsShort(upper) && exists i: nat :: FirstWith(ids, upper + "-", i) && id == ids[i]
      case None =>
        && (upper == "" || upper !in ids)
        && (IsShort(upper) ==> forall i :: 0 <= i < |ids| ==> !(upper + "-" <= ids[i]))
  {
    hide Canonical.Trim, Canonical.ToAsciiUppercase;
    var upper := Canonical.ToAsciiUppercase(Canonical.Trim(input));
    if upper == "" {
      return None;
    }
    for i := 0 to |ids|
      invariant forall k :: 0 <= k < i ==> ids[k] != upper
    {
      if upper == ids[i] {
        return Some(ids[i]);
      }
    }
    if IsShort(upper) {
      for i := 0 to |ids|
        invariant forall k :: 0 <= k < i ==> !(upper + "-" <= ids[k])
      {
        if upper + "-" <= ids[i] {
          assert FirstWith(ids, upper + "-", i);
          return Some(ids[i]);
        }
      }
    }
    resolved := None;
  }

  /** No two registered rules share a short form: what is typed names one of them at most. */
  lemma ShortFormUnique(j: Judges, upper: string, i: nat, k: nat)
    requires i < |Registered(j)| && k < |Registered(j)| && IsShort(upper)
    requires upper + "-" <= Registered(j)[i].id && upper + "-" <= Registered(j)[k].id
    ensures i == k
  {
    RegisteredMarks(j);
    var a, b, s := Registered(j)[i].id, Registered(j)[k].id, upper + "-";
    assert |upper| >= 6;
    hide Registered, IsShort;
    assert Marked(a, i) && Marked(b, k);
    assert a[0] == s[0] == b[0] && a[6] == s[6] == b[6];
    MarksDiffer(i, k);
  }
}
