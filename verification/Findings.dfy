// The findings table (storage/repositories/findings.rs): a map from fingerprint to row, and its
// statements as methods.
module Findings {
  import opened Guardrail
  import opened Rules
  import opened Seqs

  datatype Status = Open | Resolved | Suppressed

  datatype Row = Row(
    ruleId: string, severity: Severity, status: Status, title: string, evidence: string,
    count: nat, firstSeen: int, lastSeen: int)

  type Table = map<string, Row>

  /**
   * A row after a finding with its fingerprint is reported: new, or seen once more and open again if it
   * was resolved.
   */
  function RowAfter(row: Option<Row>, f: Finding, now: int): Row {
    match row
    case None => Row(f.ruleId, f.severity, Open, f.title, f.evidence, 1, now, now)
    case Some(r) =>
      r.(lastSeen := now, count := r.count + 1, evidence := f.evidence,
         status := if r.status.Resolved? then Open else r.status)
  }

  function Lookup(rows: Table, fingerprint: string): Option<Row> {
    if fingerprint in rows then Some(rows[fingerprint]) else None
  }

  function Upserted(rows: Table, f: Finding, now: int): Table {
    rows[f.fingerprint := RowAfter(Lookup(rows, f.fingerprint), f, now)]
  }

  /** All reports of a cycle, one statement each, at the times of the clock. */
  function UpsertedAll(rows: Table, reports: seq<Finding>, clock: nat -> int): Table {
    if reports == [] then rows
    else Upserted(UpsertedAll(rows, Front(reports), clock), Last(reports), clock(|reports| - 1))
  }

  /** An open row of one of the rules that was not reported. */
  predicate IsStale(row: Row, fingerprint: string, ruleIds: seq<string>, active: set<string>) {
    row.status.Open? && row.ruleId in ruleIds && fingerprint !in active
  }

  function Closed(row: Row, now: int): Row { row.(status := Resolved, lastSeen := now) }

  /** The row of a fingerprint, if there is one, gets a status from outside. */
  function SetStatus(rows: Table, fingerprint: string, status: Status, now: int): Table {
    if fingerprint in rows then rows[fingerprint := rows[fingerprint].(status := status, lastSeen := now)] else rows
  }

  function Reconciled(rows: Table, ruleIds: seq<string>, active: set<string>, now: int): Table {
    map fp | fp in rows :: if IsStale(rows[fp], fp, ruleIds, active) then Closed(rows[fp], now) else rows[fp]
  }

  /** The stale rows of one rule. */
  function StaleOf(rows: Table, ruleId: string, active: set<string>): set<string> {
    set fp | fp in rows && rows[fp].status.Open? && rows[fp].ruleId == ruleId && fp !in active
  }

  /** Rows resolved, counted once for every time their rule is listed. */
  function StaleCount(rows: Table, ruleIds: seq<string>, active: set<string>): nat {
    if ruleIds == [] then 0 else StaleCount(rows, Front(ruleIds), active) + |StaleOf(rows, Last(ruleIds), active)|
  }

  function ClosedAll(rows: Table, fingerprints: seq<string>, now: int): Table {
    map fp | fp in rows :: if fp in fingerprints then Closed(rows[fp], now) else rows[fp]
  }

  datatype CountFilter = CountFilter(status: Option<Status>, severity: Option<Severity>, ruleId: Option<string>)

  datatype Stats = Stats(total: nat, byStatus: map<Status, nat>, bySeverity: map<Severity, nat>)

  predicate Matches(filter: CountFilter, row: Row) {
    && (filter.status.Some? ==> row.status == filter.status.value)
    && (filter.severity.Some? ==> row.severity == filter.severity.value)
    && (filter.ruleId.Some? ==> row.ruleId == filter.ruleId.value)
  }

  function Matching(rows: Table, filter: CountFilter): set<string> {
    set fp | fp in rows && Matches(filter, rows[fp])
  }

  function Alike(rows: Table, s: set<string>, row: Row): set<string> {
    set fp | fp in s && fp in rows && rows[fp].status == row.status && rows[fp].severity == row.severity
  }

  function HasStatus(status: Status): Row -> bool { (row: Row) => row.status == status }
  function HasSeverity(severity: Severity): Row -> bool { (row: Row) => row.severity == severity }

  /** The rows of a set with some property. */
  function Chosen(rows: Table, s: set<string>, p: Row -> bool): set<string> {
    set fp | fp in s && fp in rows && p(rows[fp])
  }

  /** Elements of a sequence without repetition, in any order. */
  method Enumerate(s: set<string>) returns (elements: seq<string>)
    ensures |elements| == |s| && forall x :: x in elements <==> x in s
  {
    elements := [];
    var rest := s;
    while rest != {}
      invariant rest <= s && |elements| + |rest| == |s|
      invariant forall x :: x in elements <==> x in s && x !in rest
      decreases |rest|
    {
      var x :| x in rest;
      elements, rest := elements + [x], rest - {x};
    }
  }

  const ZERO: Stats := Stats(
    0, map[Open := 0, Resolved := 0, Status.Suppressed := 0],
    map[Critical := 0, High := 0, Medium := 0, Low := 0, Informational := 0])

  predicate Complete(stats: Stats) {
    && stats.byStatus.Keys == {Open, Resolved, Status.Suppressed}
    && stats.bySeverity.Keys == {Critical, High, Medium, Low, Informational}
  }

  function Added(stats: Stats, row: Row, n: nat): (more: Stats)
    requires Complete(stats)
    ensures Complete(more)
  {
    assert row.status.Open? || row.status.Resolved? || row.status.Suppressed?;
    var v := row.severity;
    assert v.Critical? || v.High? || v.Medium? || v.Low? || v.Informational?;
    Stats(stats.total + n,
          stats.byStatus[row.status := stats.byStatus[row.status] + n],
          stats.bySeverity[row.severity := stats.bySeverity[row.severity] + n])
  }

  ghost predicate CountsStatus(rows: Table, s: set<string>, counts: map<Status, nat>) {
    forall x :: x in counts ==> counts[x] == |Chosen(rows, s, HasStatus(x))|
  }

  ghost predicate CountsSeverity(rows: Table, s: set<string>, counts: map<Severity, nat>) {
    forall v :: v in counts ==> counts[v] == |Chosen(rows, s, HasSeverity(v))|
  }

  /** The counts are those of a set of rows. */
  ghost predicate Summarizes(rows: Table, s: set<string>, stats: Stats) {
    stats.total == |s| && CountsStatus(rows, s, stats.byStatus) && CountsSeverity(rows, s, stats.bySeverity)
  }

  lemma SummarizesNone(rows: Table)
    ensures Summarizes(rows, {}, ZERO) && Complete(ZERO)
  {
    forall x ensures Chosen(rows, {}, HasStatus(x)) == {} {
    }
    forall v ensures Chosen(rows, {}, HasSeverity(v)) == {} {
    }
  }

  lemma OfStatus(rows: Table, group: set<string>, status: Status, x: Status)
    requires group <= rows.Keys && forall fp :: fp in group ==> rows[fp].status == status
    ensures forall fp :: fp in group ==> HasStatus(x)(rows[fp]) == (status == x)
  {
  }

  lemma AddGroup(rows: Table, seen: set<string>, group: set<string>, p: Row -> bool, all: bool)
    requires seen !! group && group <= rows.Keys && forall fp :: fp in group ==> p(rows[fp]) == all
    ensures |Chosen(rows, seen + group, p)| == |Chosen(rows, seen, p)| + if all then |group| else 0
  {
    var before, after := Chosen(rows, seen, p), Chosen(rows, seen + group, p);
    if all {
      assert after == before + group && before !! group;
    } else {
      assert after == before;
    }
  }

  lemma StatusMore(rows: Table, seen: set<string>, group: set<string>, status: Status, counts: map<Status, nat>)
    requires CountsStatus(rows, seen, counts) && status in counts
    requires seen !! group && group <= rows.Keys && forall fp :: fp in group ==> rows[fp].status == status
    ensures CountsStatus(rows, seen + group, counts[status := counts[status] + |group|])
  {
    hide Chosen, HasStatus;
    forall x | x in counts ensures |Chosen(rows, seen + group, HasStatus(x))|
      == |Chosen(rows, seen, HasStatus(x))| + if status == x then |group| else 0
    {
      OfStatus(rows, group, status, x);
      AddGroup(rows, seen, group, HasStatus(x), status == x);
    }
  }

  lemma OfSeverity(rows: Table, group: set<string>, severity: Severity, v: Severity)
    requires group <= rows.Keys && forall fp :: fp in group ==> rows[fp].severity == severity
    ensures forall fp :: fp in group ==> HasSeverity(v)(rows[fp]) == (severity == v)
  {
  }

  lemma SeverityMore(rows: Table, seen: set<string>, group: set<string>, severity: Severity, counts: map<Severity, nat>)
    requires CountsSeverity(rows, seen, counts) && severity in counts
    requires seen !! group && group <= rows.Keys && forall fp :: fp in group ==> rows[fp].severity == severity
    ensures CountsSeverity(rows, seen + group, counts[severity := counts[severity] + |group|])
  {
    hide Chosen, HasSeverity;
    forall v | v in counts ensures |Chosen(rows, seen + group, HasSeverity(v))|
      == |Chosen(rows, seen, HasSeverity(v))| + if severity == v then |group| else 0
    {
      OfSeverity(rows, group, severity, v);
      AddGroup(rows, seen, group, HasSeverity(v), severity == v);
    }
  }

  lemma SummarizesMore(rows: Table, seen: set<string>, group: set<string>, row: Row, stats: Stats)
    requires Complete(stats) && Summarizes(rows, seen, stats)
    requires seen !! group && group <= rows.Keys
    requires forall fp :: fp in group ==> rows[fp].status == row.status && rows[fp].severity == row.severity
    ensures Summarizes(rows, seen + group, Added(stats, row, |group|))
  {
    hide CountsStatus, CountsSeverity;
    var more := Added(stats, row, |group|);
    StatusMore(rows, seen, group, row.status, stats.byStatus);
    SeverityMore(rows, seen, group, row.severity, stats.bySeverity);
  }

  lemma StaleStep(rows: Table, ruleIds: seq<string>, i: nat, active: set<string>)
    requires i < |ruleIds|
    ensures StaleCount(rows, ruleIds[..i + 1], active)
         == StaleCount(rows, ruleIds[..i], active) + |StaleOf(rows, ruleIds[i], active)|
    ensures forall fp :: fp in rows ==>
      (IsStale(rows[fp], fp, ruleIds[..i + 1], active)
       <==> IsStale(rows[fp], fp, ruleIds[..i], active) || fp in StaleOf(rows, ruleIds[i], active))
  {
    assert Front(ruleIds[..i + 1]) == ruleIds[..i];
    assert forall id :: id in ruleIds[..i + 1] <==> id in ruleIds[..i] || id == ruleIds[i];
  }

  lemma CloseOne(rows: Table, fingerprints: seq<string>, k: nat, now: int)
    requires k < |fingerprints| && fingerprints[k] in rows
    ensures
      var before, fp := ClosedAll(rows, fingerprints[..k], now), fingerprints[k];
      fp in before && ClosedAll(rows, fingerprints[..k + 1], now) == before[fp := Closed(before[fp], now)]
  {
    assert forall fp :: fp in fingerprints[..k + 1] <==> fp in fingerprints[..k] || fp == fingerprints[k];
  }

  class FindingsTable {
    var rows: Table

    constructor ()
      ensures rows == map[]
    {
      rows := map[];
    }

    method UpsertEntry(f: Finding, now: int) returns (row: Row)
      modifies this
      ensures rows == old(rows)[f.fingerprint := row] == Upserted(old(rows), f, now)
      ensures f.fingerprint !in old(rows) ==>
        row == Row(f.ruleId, f.severity, Open, f.title, f.evidence, 1, now, now)
      ensures f.fingerprint in old(rows) ==>
        var was := old(rows)[f.fingerprint];
        row == Row(
          was.ruleId, was.severity, if was.status == Resolved then Open else was.status, was.title,
          f.evidence, was.count + 1, was.firstSeen, now)
    {
      if f.fingerprint in rows {
        var r := rows[f.fingerprint];
        row := r.(lastSeen := now, count := r.count + 1, evidence := f.evidence,
                  status := if r.status.Resolved? then Open else r.status);
      } else {
        row := Row(f.ruleId, f.severity, Open, f.title, f.evidence, 1, now, now);
      }
      rows := rows[f.fingerprint := row];
    }

    method Resolve(fingerprint: string, now: int) returns (found: bool)
      modifies this
      ensures found == (fingerprint in old(rows))
      ensures rows == SetStatus(old(rows), fingerprint, Resolved, now)
      ensures rows.Keys == old(rows).Keys
      ensures forall fp :: fp in rows ==>
        rows[fp] ==
          if fp == fingerprint then old(rows)[fp].(status := Resolved, lastSeen := now) else old(rows)[fp]
    {
      found := fingerprint in rows;
      if found {
        rows := rows[fingerprint := rows[fingerprint].(status := Resolved, lastSeen := now)];
      }
    }

    method Suppress(fingerprint: string, now: int) returns (found: bool)
      modifies this
      ensures found == (fingerprint in old(rows))
      ensures rows == SetStatus(old(rows), fingerprint, Status.Suppressed, now)
      ensures rows.Keys == old(rows).Keys
      ensures forall fp :: fp in rows ==>
        rows[fp] ==
          if fp == fingerprint then old(rows)[fp].(status := Status.Suppressed, lastSeen := now) else old(rows)[fp]
    {
      found := fingerprint in rows;
      if found {
        rows := rows[fingerprint := rows[fingerprint].(status := Status.Suppressed, lastSeen := now)];
      }
    }

    /** First collect the stale fingerprints, rule by rule, then close them one by one. */
    method ReconcileEvaluatedRules(ruleIds: seq<string>, active: set<string>, now: int) returns (resolved: nat)
      modifies this
      ensures rows == Reconciled(old(rows), ruleIds, active, now)
      ensures rows.Keys == old(rows).Keys
      ensures forall fp :: fp in rows ==>
        rows[fp] ==
          if old(rows)[fp].status == Open && old(rows)[fp].ruleId in ruleIds && fp !in active
          then old(rows)[fp].(status := Resolved, lastSeen := now)
          else old(rows)[fp]
      ensures resolved == StaleCount(old(rows), ruleIds, active)
    {
      var toResolve := [];
      for i := 0 to |ruleIds|
        invariant rows == old(rows) && |toResolve| == StaleCount(rows, ruleIds[..i], active)
        invariant forall fp :: fp in toResolve <==> fp in rows && IsStale(rows[fp], fp, ruleIds[..i], active)
      {
        var stale := StaleOf(rows, ruleIds[i], active);
        var elements := Enumerate(stale);
        StaleStep(rows, ruleIds, i, active);
        toResolve := toResolve + elements;
      }
      AllTaken(ruleIds);
      resolved := 0;
      for k := 0 to |toResolve|
        invariant rows == ClosedAll(old(rows), toResolve[..k], now) && resolved == k
      {
        var fp := toResolve[k];
        CloseOne(old(rows), toResolve, k, now);
        rows := rows[fp := Closed(rows[fp], now)];
        resolved := resolved + 1;
      }
      AllTaken(toResolve);
    }

    /** Group by status and severity, then add up the groups. */
    method CountSummary(filter: CountFilter) returns (stats: Stats)
      ensures Complete(stats)
      ensures Summarizes(rows, Matching(rows, filter), stats)
    {
      hide Summarizes;
      var rest := Matching(rows, filter);
      ghost var seen: set<string> := {};
      stats := ZERO;
      SummarizesNone(rows);
      while rest != {}
        invariant rest <= rows.Keys && seen !! rest && seen + rest == Matching(rows, filter)
        invariant Summarizes(rows, seen, stats) && Complete(stats)
        decreases |rest|
      {
        var some :| some in rest;
        var row := rows[some];
        var group := Alike(rows, rest, row);
        assert some in group;
        SummarizesMore(rows, seen, group, row, stats);
        stats := Added(stats, row, |group|);
        seen, rest := seen + group, rest - group;
      }
    }
  }

  /** A filter leaves the rows that have every value it names. */
  lemma MatchingExactly(rows: Table, filter: CountFilter, fp: string)
    ensures fp in Matching(rows, filter) <==>
      && fp in rows
      && (filter.status == None || filter.status == Some(rows[fp].status))
      && (filter.severity == None || filter.severity == Some(rows[fp].severity))
      && (filter.ruleId == None || filter.ruleId == Some(rows[fp].ruleId))
  {
  }

  /** Every row counted is counted under one status and one severity. */
  lemma SummaryAddsUp(rows: Table, s: set<string>)
    requires s <= rows.Keys
    ensures |s| == |Chosen(rows, s, HasStatus(Open))| + |Chosen(rows, s, HasStatus(Resolved))|
                 + |Chosen(rows, s, HasStatus(Status.Suppressed))|
  {
    var a, b := Chosen(rows, s, HasStatus(Open)), Chosen(rows, s, HasStatus(Resolved));
    var c := Chosen(rows, s, HasStatus(Status.Suppressed));
    assert s == a + b + c && a !! b && a + b !! c;
  }

  /** With distinct rule ids the count is the number of rows closed. */
  lemma {:induction false} StaleCountsRows(rows: Table, ruleIds: seq<string>, active: set<string>)
    requires forall i, j :: 0 <= i < j < |ruleIds| ==> ruleIds[i] != ruleIds[j]
    ensures StaleCount(rows, ruleIds, active) == |set fp | fp in rows && IsStale(rows[fp], fp, ruleIds, active)|
  {
    var all := set fp | fp in rows && IsStale(rows[fp], fp, ruleIds, active);
    if ruleIds != [] {
      var front, last := Front(ruleIds), Last(ruleIds);
      StaleCountsRows(rows, front, active);
      var before := set fp | fp in rows && IsStale(rows[fp], fp, front, active);
      FrontLast(ruleIds);
      assert forall id :: id in ruleIds <==> id in front || id == last;
      assert all == before + StaleOf(rows, last, active) && before !! StaleOf(rows, last, active);
    } else {
      assert all == {};
    }
  }

  // ----- What reports leave behind --------------------------------------------------------

  function Active(reports: seq<Finding>): set<string> {
    set i | 0 <= i < |reports| :: reports[i].fingerprint
  }

  lemma ActiveSnoc(front: seq<Finding>, last: Finding)
    ensures Active(front + [last]) == Active(front) + {last.fingerprint}
  {
    var all := front + [last];
    assert all[|front|] == last && forall i :: 0 <= i < |front| ==> all[i] == front[i];
    forall fp | fp in Active(front) + {last.fingerprint} ensures fp in Active(all) {
      if fp in Active(front) {
        var i :| 0 <= i < |front| && front[i].fingerprint == fp;
        assert all[i].fingerprint == fp;
      } else {
        assert all[|front|].fingerprint == fp;
      }
    }
  }

  /** Only reported fingerprints change, and they are in the table afterwards; muted rows stay muted. */
  lemma {:induction false} UpsertsOnly(rows: Table, reports: seq<Finding>, clock: nat -> int, fp: string)
    ensures
      var after := UpsertedAll(rows, reports, clock);
      && (fp !in Active(reports) ==> Lookup(after, fp) == Lookup(rows, fp))
      && (fp in Active(reports) ==>
           && fp in after
           && (after[fp].status.Suppressed? <==> fp in rows && rows[fp].status.Suppressed?)
           && (after[fp].status.Open? <==> !(fp in rows && rows[fp].status.Suppressed?))
           && (fp in rows ==> after[fp].ruleId == rows[fp].ruleId))
  {
    if reports != [] {
      var front, last := Front(reports), Last(reports);
      UpsertsOnly(rows, front, clock, fp);
      ActiveSnoc(front, last);
      FrontLast(reports);
      hide Active;
    }
  }

  /** The table after a cycle: every report written, then the evaluated rules reconciled. */
  function AfterWrites(rows: Table, reports: seq<Finding>, ruleIds: seq<string>, clock: nat -> int): Table {
    Reconciled(UpsertedAll(rows, reports, clock), ruleIds, Active(reports), clock(|reports|))
  }

  /**
   * After the writes of a cycle a row of an evaluated rule is open exactly if it was reported and is
   * not muted; rows of other rules are never closed; what was reported is there.
   */
  lemma WritesExactly(rows: Table, reports: seq<Finding>, ruleIds: seq<string>, clock: nat -> int, fp: string)
    ensures
      var after := AfterWrites(rows, reports, ruleIds, clock);
      var muted := fp in rows && rows[fp].status.Suppressed?;
      && (fp in after <==> fp in rows || fp in Active(reports))
      && (fp in after ==>
           && (after[fp].status.Suppressed? <==> muted)
           && (after[fp].ruleId in ruleIds ==> (after[fp].status.Open? <==> fp in Active(reports) && !muted))
           && (after[fp].ruleId !in ruleIds && fp in rows && rows[fp].status.Open? ==> after[fp].status.Open?)
           && (after[fp].ruleId !in ruleIds && fp !in Active(reports) ==> after[fp] == rows[fp]))
  {
    UpsertsOnly(rows, reports, clock, fp);
    hide UpsertedAll, Active;
  }

  /** How often a fingerprint is among the reports. */
  function Mentions(reports: seq<Finding>, fp: string): nat {
    if reports == [] then 0 else Mentions(Front(reports), fp) + if Last(reports).fingerprint == fp then 1 else 0
  }

  lemma {:induction false} MentionsActive(reports: seq<Finding>, fp: string)
    ensures fp in Active(reports) <==> Mentions(reports, fp) > 0
  {
    if reports != [] {
      MentionsActive(Front(reports), fp);
      ActiveSnoc(Front(reports), Last(reports));
      FrontLast(reports);
      hide Active;
    }
  }

  /** A row counts the reports for it. */
  lemma {:induction false} UpsertsCount(rows: Table, reports: seq<Finding>, clock: nat -> int, fp: string)
    ensures
      var after := UpsertedAll(rows, reports, clock);
      && (fp in after <==> fp in rows || Mentions(reports, fp) > 0)
      && (fp in after ==> after[fp].count == (if fp in rows then rows[fp].count else 0) + Mentions(reports, fp))
  {
    if reports != [] {
      UpsertsCount(rows, Front(reports), clock, fp);
    }
  }

  /** Place of the first report for a fingerprint. */
  function FirstPlace(reports: seq<Finding>, fp: string): (p: Option<nat>)
    ensures p.Some? ==>
      && p.value < |reports| && reports[p.value].fingerprint == fp
      && forall k :: 0 <= k < p.value ==> reports[k].fingerprint != fp
    ensures p.None? ==> forall k :: 0 <= k < |reports| ==> reports[k].fingerprint != fp
  {
    if reports == [] then None
    else
      var earlier := FirstPlace(Front(reports), fp);
      if earlier.Some? then earlier else if Last(reports).fingerprint == fp then Some(|reports| - 1) else None
  }

  /** Place of the last report for a fingerprint. */
  function LastPlace(reports: seq<Finding>, fp: string): (p: Option<nat>)
    ensures p.Some? ==>
      && p.value < |reports| && reports[p.value].fingerprint == fp
      && forall k :: p.value < k < |reports| ==> reports[k].fingerprint != fp
    ensures p.None? ==> forall k :: 0 <= k < |reports| ==> reports[k].fingerprint != fp
  {
    if reports == [] then None
    else if Last(reports).fingerprint == fp then Some(|reports| - 1)
    else LastPlace(Front(reports), fp)
  }

  lemma {:induction false} PlacesMention(reports: seq<Finding>, fp: string)
    ensures FirstPlace(reports, fp).Some? <==> Mentions(reports, fp) > 0
    ensures LastPlace(reports, fp).Some? <==> Mentions(reports, fp) > 0
  {
    if reports != [] {
      PlacesMention(Front(reports), fp);
    }
  }

  lemma UpsertLookup(rows: Table, f: Finding, now: int, fp: string)
    ensures Lookup(Upserted(rows, f, now), fp)
         == if fp == f.fingerprint then Some(RowAfter(Lookup(rows, fp), f, now)) else Lookup(rows, fp)
  {
  }

  /**
   * What a row carries after any reports: the evidence and the time of the last report for it; rule,
   * severity, title and first time of the row as it was, or of the first report if there was none.
   */
  lemma {:induction false} UpsertsCarry(rows: Table, reports: seq<Finding>, clock: nat -> int, fp: string)
    ensures
      var after, first, last := UpsertedAll(rows, reports, clock), FirstPlace(reports, fp), LastPlace(reports, fp);
      if last.None? then Lookup(after, fp) == Lookup(rows, fp)
      else
        && first.Some? && fp in after && after[fp].evidence == reports[last.value].evidence
        && after[fp].lastSeen == clock(last.value)
        && (if fp in rows
            then
              && after[fp].ruleId == rows[fp].ruleId && after[fp].severity == rows[fp].severity
              && after[fp].title == rows[fp].title && after[fp].firstSeen == rows[fp].firstSeen
            else
              && after[fp].ruleId == reports[first.value].ruleId
              && after[fp].severity == reports[first.value].severity
              && after[fp].title == reports[first.value].title && after[fp].firstSeen == clock(first.value))
  {
    PlacesMention(reports, fp);
    if reports != [] {
      var front, last := Front(reports), Last(reports);
      UpsertsCarry(rows, front, clock, fp);
      PlacesMention(front, fp);
      UpsertLookup(UpsertedAll(rows, front, clock), last, clock(|front|), fp);
      assert forall k :: 0 <= k < |front| ==> reports[k] == front[k];
      hide Mentions;
    }
  }

  /** What the writes of one cycle make of one row. */
  lemma WritesRow(rows: Table, reports: seq<Finding>, ruleIds: seq<string>, clock: nat -> int, fp: string)
    ensures
      var after := AfterWrites(rows, reports, ruleIds, clock);
      && (fp in after <==> fp in rows || Mentions(reports, fp) > 0)
      && (fp in after ==>
           && after[fp].count == (if fp in rows then rows[fp].count else 0) + Mentions(reports, fp)
           && (fp in rows ==> after[fp].ruleId == rows[fp].ruleId)
           && (after[fp].status.Suppressed? <==> fp in rows && rows[fp].status.Suppressed?)
           && (!after[fp].status.Suppressed? ==>
                (after[fp].status.Open? <==>
                   if Mentions(reports, fp) > 0 then true
                   else after[fp].ruleId !in ruleIds && fp in rows && rows[fp].status.Open?)))
  {
    WritesExactly(rows, reports, ruleIds, clock, fp);
    UpsertsOnly(rows, reports, clock, fp);
    UpsertsCount(rows, reports, clock, fp);
    MentionsActive(reports, fp);
    hide UpsertedAll, Active, Mentions;
  }

  /** What a row carries after the writes of one cycle; closing it only moves its last time. */
  lemma WritesCarry(rows: Table, reports: seq<Finding>, ruleIds: seq<string>, clock: nat -> int, fp: string)
    requires fp in rows || Mentions(reports, fp) > 0
    ensures
      var after := AfterWrites(rows, reports, ruleIds, clock);
      var first, last := FirstPlace(reports, fp), LastPlace(reports, fp);
      && fp in after && (Mentions(reports, fp) > 0 <==> last.Some? && first.Some?)
      && after[fp].evidence == (if last.Some? then reports[last.value].evidence else rows[fp].evidence)
      && after[fp].lastSeen == (
           if last.Some? then clock(last.value)
           else if rows[fp].status.Open? && rows[fp].ruleId in ruleIds then clock(|reports|)
           else rows[fp].lastSeen)
      && (if fp in rows
          then
            && after[fp].ruleId == rows[fp].ruleId && after[fp].severity == rows[fp].severity
            && after[fp].title == rows[fp].title && after[fp].firstSeen == rows[fp].firstSeen
          else
            && after[fp].ruleId == reports[first.value].ruleId
            && after[fp].severity == reports[first.value].severity
            && after[fp].title == reports[first.value].title && after[fp].firstSeen == clock(first.value))
  {
    UpsertsCarry(rows, reports, clock, fp);
    UpsertsCount(rows, reports, clock, fp);
    MentionsActive(reports, fp);
    PlacesMention(reports, fp);
    hide UpsertedAll, Active, Mentions, FirstPlace, LastPlace;
  }

  // ----- Leaving times aside --------------------------------------------------------------

  /** A row without its times. */
  function Essence(row: Row): Row { row.(firstSeen := 0, lastSeen := 0) }

  /** The same rows up to the times at which they were written. */
  ghost predicate Agree(a: Table, b: Table) {
    a.Keys == b.Keys && forall fp :: fp in a ==> Essence(a[fp]) == Essence(b[fp])
  }

  function For(fp: string): Finding -> seq<Finding> { (f: Finding) => if f.fingerprint == fp then [f] else [] }

  /** What a row becomes through the reports for it, leaving times aside. */
  function Told(row: Option<Row>, reports: seq<Finding>): Option<Row> {
    if reports == [] then row
    else Some(Essence(RowAfter(Told(row, Front(reports)), Last(reports), 0)))
  }

  function EssenceOf(row: Option<Row>): Option<Row> { if row.Some? then Some(Essence(row.value)) else None }

  lemma EssenceCommutes(row: Option<Row>, f: Finding, now: int)
    ensures Essence(RowAfter(row, f, now)) == Essence(RowAfter(EssenceOf(row), f, 0))
  {
  }

  /** Each row depends on the reports for it alone, in their order. */
  lemma {:induction false} RowsAreTold(rows: Table, reports: seq<Finding>, clock: nat -> int, fp: string)
    ensures EssenceOf(Lookup(UpsertedAll(rows, reports, clock), fp))
         == Told(EssenceOf(Lookup(rows, fp)), FlatMap(reports, For(fp)))
  {
    if reports != [] {
      var front, last := Front(reports), Last(reports);
      RowsAreTold(rows, front, clock, fp);
      var before, earlier := UpsertedAll(rows, front, clock), FlatMap(front, For(fp));
      UpsertLookup(before, last, clock(|front|), fp);
      EssenceCommutes(Lookup(before, fp), last, clock(|front|));
      if last.fingerprint == fp {
        Shift(earlier, last, []);
      } else {
        assert earlier + [] == earlier;
      }
      hide RowAfter, Essence, Upserted, Lookup;
    }
  }

  lemma ReconcileAgrees(a: Table, b: Table, ruleIds: seq<string>, active: set<string>, now: int, later: int)
    requires Agree(a, b)
    ensures Agree(Reconciled(a, ruleIds, active, now), Reconciled(b, ruleIds, active, later))
  {
    forall fp | fp in a
      ensures Essence(Reconciled(a, ruleIds, active, now)[fp]) == Essence(Reconciled(b, ruleIds, active, later)[fp])
    {
      assert Essence(a[fp]) == Essence(b[fp]);
      assert a[fp].status == b[fp].status && a[fp].ruleId == b[fp].ruleId;
    }
  }

  lemma {:induction false} ActiveIffFor(reports: seq<Finding>, fp: string)
    ensures fp in Active(reports) <==> FlatMap(reports, For(fp)) != []
  {
    if reports != [] {
      ActiveIffFor(Front(reports), fp);
      ActiveSnoc(Front(reports), Last(reports));
      FrontLast(reports);
      hide Active;
    }
  }

  lemma SameActive(a: seq<Finding>, b: seq<Finding>)
    requires forall fp :: FlatMap(a, For(fp)) == FlatMap(b, For(fp))
    ensures Active(a) == Active(b)
  {
    forall fp ensures fp in Active(a) <==> fp in Active(b) {
      ActiveIffFor(a, fp);
      ActiveIffFor(b, fp);
      assert FlatMap(a, For(fp)) == FlatMap(b, For(fp));
    }
  }

  /** Two cycles that report the same to every row leave tables that agree. */
  lemma WritesAgree(
      rows: Table, a: seq<Finding>, b: seq<Finding>, ruleIds: seq<string>, clockA: nat -> int,
      clockB: nat -> int)
    requires forall fp :: FlatMap(a, For(fp)) == FlatMap(b, For(fp))
    ensures Agree(AfterWrites(rows, a, ruleIds, clockA), AfterWrites(rows, b, ruleIds, clockB))
  {
    var x, y := UpsertedAll(rows, a, clockA), UpsertedAll(rows, b, clockB);
    forall fp ensures EssenceOf(Lookup(x, fp)) == EssenceOf(Lookup(y, fp)) {
      RowsAreTold(rows, a, clockA, fp);
      RowsAreTold(rows, b, clockB, fp);
    }
    hide UpsertedAll, Told, FlatMap, For;
    forall fp ensures (fp in x <==> fp in y) && (fp in x ==> Essence(x[fp]) == Essence(y[fp])) {
      assert EssenceOf(Lookup(x, fp)) == EssenceOf(Lookup(y, fp));
    }
    assert Agree(x, y);
    SameActive(a, b);
    ReconcileAgrees(x, y, ruleIds, Active(a), clockA(|a|), clockB(|b|));
  }

  // ----- Pruning ------------------------------------------------------------------------------

  predicate Prunable(row: Row, cutoff: int) { !row.status.Open? && row.lastSeen < cutoff }

  function PrunedRows(rows: Table, cutoff: int): Table {
    map fp | fp in rows && !Prunable(rows[fp], cutoff) :: rows[fp]
  }
}
