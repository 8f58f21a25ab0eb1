// The life of a finding over any run of scan cycles, single scans, decisions of an operator and
// prunings (observation/supervisor.rs, repositories/findings.rs, storage/pruner.rs).
module Lifetimes {
  import opened Findings
  import opened Guardrail
  import opened Observations
  import opened Rules
  import opened ScanCycle
  import opened Seqs

  /** What happens to the findings table; a single scan is one that delivered. */
  datatype Action =
    | FullCycle(raw: seq<Observation>, clock: nat -> int)
    | SingleScan(domain: Domain, observation: Observation, clock: nat -> int)
    | Mark(fingerprint: string, status: Status, now: int)
    | Prune(cutoff: int)

  function ReportsOf(setup: Setup, a: Action): seq<Finding> {
    match a
    case FullCycle(raw, _) => Reports(setup, raw)
    case SingleScan(_, o, _) => Rules.Findings(setup.forms, setup.rules, o)
    case _ => []
  }

  /** The rules that an action counts as evaluated. */
  function RulesOf(setup: Setup, a: Action): seq<string> {
    match a
    case FullCycle(raw, _) => EvaluatedIds(setup, raw)
    case SingleScan(domain, o, _) => if Readable(o.privilege) then FlatMap(setup.rules, InDomain(domain)) else []
    case _ => []
  }

  function AfterAction(setup: Setup, rows: Table, a: Action): Table {
    match a
    case FullCycle(raw, clock) => AfterCycle(setup, raw, rows, clock)
    case SingleScan(_, _, clock) => AfterWrites(rows, ReportsOf(setup, a), RulesOf(setup, a), clock)
    case Mark(fingerprint, status, now) => SetStatus(rows, fingerprint, status, now)
    case Prune(cutoff) => PrunedRows(rows, cutoff)
  }

  function AfterActions(setup: Setup, rows: Table, actions: seq<Action>): Table {
    if actions == [] then rows else AfterAction(setup, AfterActions(setup, rows, Front(actions)), Last(actions))
  }

  // ----- What a run said about one finding --------------------------------------------------

  /** How often a fingerprint was reported. */
  function TimesReported(setup: Setup, actions: seq<Action>, fp: string): nat {
    if actions == [] then 0
    else TimesReported(setup, Front(actions), fp) + Mentions(ReportsOf(setup, Last(actions)), fp)
  }

  /** It was there to begin with, or has been reported. */
  predicate Known(setup: Setup, born: Option<Row>, actions: seq<Action>, fp: string) {
    born.Some? || TimesReported(setup, actions, fp) > 0
  }

  predicate MarksIt(a: Action, fp: string) { a.Mark? && a.fingerprint == fp }

  /** Whether it is suppressed: as it was marked last since it is known. */
  predicate Silenced(setup: Setup, born: Option<Row>, actions: seq<Action>, fp: string) {
    if actions == [] then born.Some? && born.value.status.Suppressed?
    else if MarksIt(Last(actions), fp) && Known(setup, born, Front(actions), fp) then Last(actions).status.Suppressed?
    else Silenced(setup, born, Front(actions), fp)
  }

  /**
   * What the last action that judged it said: true for a report and for being marked as open, false for
   * an evaluation of its rule without a report and for being marked otherwise.
   */
  function LastSaid(setup: Setup, actions: seq<Action>, fp: string, ruleId: string): Option<bool> {
    if actions == [] then None
    else
      var last := Last(actions);
      if Mentions(ReportsOf(setup, last), fp) > 0 then Some(true)
      else if ruleId in RulesOf(setup, last) then Some(false)
      else if MarksIt(last, fp) then Some(last.status.Open?)
      else LastSaid(setup, Front(actions), fp, ruleId)
  }

  function ClockOf(a: Action): nat -> int {
    match a
    case FullCycle(_, clock) => clock
    case SingleScan(_, _, clock) => clock
    case _ => (i: nat) => 0
  }

  /** The first report for it, with its time. */
  function FirstReport(setup: Setup, actions: seq<Action>, fp: string): Option<(Finding, int)> {
    if actions == [] then None
    else
      var earlier, reports := FirstReport(setup, Front(actions), fp), ReportsOf(setup, Last(actions));
      var place := FirstPlace(reports, fp);
      if earlier.Some? then earlier
      else if place.Some? then Some((reports[place.value], ClockOf(Last(actions))(place.value)))
      else None
  }

  /** The last report for it. */
  function LastReport(setup: Setup, actions: seq<Action>, fp: string): Option<Finding> {
    if actions == [] then None
    else
      var reports := ReportsOf(setup, Last(actions));
      var place := LastPlace(reports, fp);
      if place.Some? then Some(reports[place.value]) else LastReport(setup, Front(actions), fp)
  }

  /** Whether it is open after the actions of its life. */
  predicate Stands(setup: Setup, born: Option<Row>, actions: seq<Action>, fp: string, ruleId: string) {
    && !Silenced(setup, born, actions, fp)
    && match LastSaid(setup, actions, fp, ruleId)
       case Some(said) => said
       case None => born.Some? && born.value.status.Open?
  }

  /** When it was last reported, marked, or closed for not being reported. */
  function LastTime(setup: Setup, born: Option<Row>, actions: seq<Action>, fp: string, ruleId: string): Option<int> {
    if actions == [] then (if born.Some? then Some(born.value.lastSeen) else None)
    else
      var front, last := Front(actions), Last(actions);
      var reports := ReportsOf(setup, last);
      var place := LastPlace(reports, fp);
      if place.Some? then Some(ClockOf(last)(place.value))
      else if ruleId in RulesOf(setup, last) && Stands(setup, born, front, fp, ruleId)
      then Some(ClockOf(last)(|reports|))
      else if MarksIt(last, fp) && Known(setup, born, front, fp) then Some(last.now)
      else LastTime(setup, born, front, fp, ruleId)
  }

  /** A pruning that takes the row: neither open nor written since the cutoff. */
  predicate Takes(rows: Table, a: Action, fp: string) {
    a.Prune? && fp in rows && rows[fp].status != Open && rows[fp].lastSeen < a.cutoff
  }

  /** How many actions it took until a pruning last took the row; none if none did. */
  function Birth(setup: Setup, rows: Table, actions: seq<Action>, fp: string): (n: nat)
    ensures n <= |actions|
  {
    if actions == [] then 0
    else if Takes(AfterActions(setup, rows, Front(actions)), Last(actions), fp) then |actions|
    else Birth(setup, rows, Front(actions), fp)
  }

  /** The row a life begins with: the one there at the start, or none after a pruning took it. */
  function Born(setup: Setup, rows: Table, actions: seq<Action>, fp: string): Option<Row> {
    if Birth(setup, rows, actions, fp) == 0 then Lookup(rows, fp) else None
  }

  function Life(setup: Setup, rows: Table, actions: seq<Action>, fp: string): seq<Action> {
    actions[Birth(setup, rows, actions, fp)..]
  }

  // ----- One action -------------------------------------------------------------------------

  /** Presence, count and status of a row are told by the actions of its life. */
  ghost predicate ToldBy(setup: Setup, born: Option<Row>, life: seq<Action>, fp: string, row: Option<Row>) {
    && (row.Some? <==> Known(setup, born, life, fp))
    && (Silenced(setup, born, life, fp) <==> row.Some? && row.value.status.Suppressed?)
    && (row.Some? ==>
         && row.value.count == (if born.Some? then born.value.count else 0) + TimesReported(setup, life, fp)
         && (born.Some? ==> row.value.ruleId == born.value.ruleId)
         && (!row.value.status.Suppressed? ==>
              (row.value.status.Open? <==>
                match LastSaid(setup, life, fp, row.value.ruleId)
                case Some(said) => said
                case None => born.Some? && born.value.status.Open?)))
  }

  /**
   * So are its contents: the evidence is that of the last report, the last time that of the last writing;
   * rule, severity, title and first time are those it was born with, or those of the first report.
   */
  ghost predicate CarriedBy(setup: Setup, born: Option<Row>, life: seq<Action>, fp: string, row: Option<Row>) {
    var first, last := FirstReport(setup, life, fp), LastReport(setup, life, fp);
    && (first.Some? <==> last.Some?) && (row.Some? <==> born.Some? || first.Some?)
    && (row.Some? ==>
         && (last.Some? ==> row.value.evidence == last.value.evidence)
         && (last.None? ==> row.value.evidence == born.value.evidence)
         && LastTime(setup, born, life, fp, row.value.ruleId) == Some(row.value.lastSeen)
         && (if born.Some?
             then
               && row.value.ruleId == born.value.ruleId && row.value.severity == born.value.severity
               && row.value.title == born.value.title && row.value.firstSeen == born.value.firstSeen
             else
               && row.value.ruleId == first.value.0.ruleId && row.value.severity == first.value.0.severity
               && row.value.title == first.value.0.title && row.value.firstSeen == first.value.1))
  }

  ghost predicate Tells(setup: Setup, born: Option<Row>, life: seq<Action>, fp: string, row: Option<Row>) {
    ToldBy(setup, born, life, fp, row) && CarriedBy(setup, born, life, fp, row)
  }

  lemma WritesTell(setup: Setup, born: Option<Row>, life: seq<Action>, rows: Table, a: Action, fp: string)
    requires (a.FullCycle? || a.SingleScan?) && ToldBy(setup, born, life, fp, Lookup(rows, fp))
    ensures ToldBy(setup, born, life + [a], fp, Lookup(AfterAction(setup, rows, a), fp))
  {
    hide Mentions, Reports, EvaluatedIds, AfterWrites, Rules.Findings, FlatMap;
    var more, reports, ids := life + [a], ReportsOf(setup, a), RulesOf(setup, a);
    assert Front(more) == life && Last(more) == a;
    var after := AfterAction(setup, rows, a);
    assert after == AfterWrites(rows, reports, ids, a.clock);
    WritesRow(rows, reports, ids, a.clock, fp);
    hide AfterAction, ReportsOf, RulesOf;
    assert TimesReported(setup, more, fp) == TimesReported(setup, life, fp) + Mentions(reports, fp);
    assert Silenced(setup, born, more, fp) == Silenced(setup, born, life, fp);
    if fp in after {
      assert LastSaid(setup, more, fp, after[fp].ruleId) ==
        if Mentions(reports, fp) > 0 then Some(true)
        else if after[fp].ruleId in ids then Some(false)
        else LastSaid(setup, life, fp, after[fp].ruleId);
    }
  }

  /** Open rows stand, and only they do. */
  lemma StandsOpen(setup: Setup, born: Option<Row>, life: seq<Action>, rows: Table, fp: string)
    requires ToldBy(setup, born, life, fp, Lookup(rows, fp)) && fp in rows
    ensures Stands(setup, born, life, fp, rows[fp].ruleId) <==> rows[fp].status.Open?
  {
  }

  lemma WritesCarried(setup: Setup, born: Option<Row>, life: seq<Action>, rows: Table, a: Action, fp: string)
    requires (a.FullCycle? || a.SingleScan?) && Tells(setup, born, life, fp, Lookup(rows, fp))
    ensures CarriedBy(setup, born, life + [a], fp, Lookup(AfterAction(setup, rows, a), fp))
  {
    hide Mentions, Reports, EvaluatedIds, AfterWrites, Rules.Findings, FlatMap, FirstPlace, LastPlace;
    var more, reports, ids := life + [a], ReportsOf(setup, a), RulesOf(setup, a);
    assert Front(more) == life && Last(more) == a;
    var after := AfterAction(setup, rows, a);
    assert after == AfterWrites(rows, reports, ids, a.clock) && ClockOf(a) == a.clock;
    PlacesMention(reports, fp);
    WritesRow(rows, reports, ids, a.clock, fp);
    if fp in rows {
      StandsOpen(setup, born, life, rows, fp);
    }
    hide AfterAction, ReportsOf, RulesOf, Stands, ToldBy;
    if fp in after {
      WritesCarry(rows, reports, ids, a.clock, fp);
    }
  }

  lemma MarkTells(setup: Setup, born: Option<Row>, life: seq<Action>, rows: Table, a: Action, fp: string)
    requires a.Mark? && ToldBy(setup, born, life, fp, Lookup(rows, fp))
    ensures ToldBy(setup, born, life + [a], fp, Lookup(AfterAction(setup, rows, a), fp))
  {
    assert Front(life + [a]) == life;
    assert Mentions([], fp) == 0;
  }

  lemma PruneTells(setup: Setup, born: Option<Row>, life: seq<Action>, rows: Table, a: Action, fp: string)
    requires a.Prune? && !Takes(rows, a, fp) && ToldBy(setup, born, life, fp, Lookup(rows, fp))
    ensures ToldBy(setup, born, life + [a], fp, Lookup(AfterAction(setup, rows, a), fp))
  {
    assert Front(life + [a]) == life;
    assert Mentions([], fp) == 0;
  }

  /** Marking and pruning bring no reports. */
  lemma NoReportsCarried(setup: Setup, born: Option<Row>, life: seq<Action>, rows: Table, a: Action, fp: string)
    requires (a.Mark? || a.Prune?) && !Takes(rows, a, fp) && Tells(setup, born, life, fp, Lookup(rows, fp))
    ensures CarriedBy(setup, born, life + [a], fp, Lookup(AfterAction(setup, rows, a), fp))
  {
    var more := life + [a];
    assert Front(more) == life && Last(more) == a;
    assert ReportsOf(setup, a) == [] && RulesOf(setup, a) == [];
    assert FirstReport(setup, more, fp) == FirstReport(setup, life, fp);
    assert LastReport(setup, more, fp) == LastReport(setup, life, fp);
    hide FirstReport, LastReport, Stands;
  }

  lemma TakenAway(setup: Setup, rows: Table, a: Action, fp: string)
    requires Takes(rows, a, fp)
    ensures Tells(setup, None, [], fp, Lookup(AfterAction(setup, rows, a), fp))
  {
  }

  lemma OneMore(setup: Setup, born: Option<Row>, life: seq<Action>, rows: Table, a: Action, fp: string)
    requires !Takes(rows, a, fp) && Tells(setup, born, life, fp, Lookup(rows, fp))
    ensures Tells(setup, born, life + [a], fp, Lookup(AfterAction(setup, rows, a), fp))
  {
    hide ToldBy, CarriedBy, AfterAction, Takes;
    if a.FullCycle? || a.SingleScan? {
      WritesTell(setup, born, life, rows, a, fp);
      WritesCarried(setup, born, life, rows, a, fp);
    } else {
      if a.Mark? {
        MarkTells(setup, born, life, rows, a, fp);
      } else {
        PruneTells(setup, born, life, rows, a, fp);
      }
      NoReportsCarried(setup, born, life, rows, a, fp);
    }
  }

  lemma LifeGoesOn(setup: Setup, rows: Table, actions: seq<Action>, fp: string)
    requires actions != []
    ensures
      if Takes(AfterActions(setup, rows, Front(actions)), Last(actions), fp)
      then Born(setup, rows, actions, fp) == None && Life(setup, rows, actions, fp) == []
      else
        && Born(setup, rows, actions, fp) == Born(setup, rows, Front(actions), fp)
        && Life(setup, rows, actions, fp) == Life(setup, rows, Front(actions), fp) + [Last(actions)]
  {
    hide AfterActions, Takes, Lookup;
    var n := Birth(setup, rows, Front(actions), fp);
    assert actions[n..] == Front(actions)[n..] + [Last(actions)];
  }

  lemma LifeBegins(setup: Setup, rows: Table, fp: string)
    ensures Tells(setup, Lookup(rows, fp), [], fp, Lookup(rows, fp))
  {
  }

  /**
   * The life of a finding over any run: it appears with its first report and stays until a pruning takes
   * it; it counts its reports and keeps its rule; it is suppressed as it was marked last, and otherwise
   * open exactly as the last action that judged it said; and it carries the evidence of its last report.
   */
  lemma {:induction false} Lifecycle(setup: Setup, rows: Table, actions: seq<Action>, fp: string)
    ensures Tells(
      setup, Born(setup, rows, actions, fp), Life(setup, rows, actions, fp), fp,
      Lookup(AfterActions(setup, rows, actions), fp))
  {
    hide Tells, AfterAction, Takes, Lookup;
    if actions == [] {
      LifeBegins(setup, rows, fp);
    } else {
      var before, last := AfterActions(setup, rows, Front(actions)), Last(actions);
      Lifecycle(setup, rows, Front(actions), fp);
      LifeGoesOn(setup, rows, actions, fp);
      hide Born, Life;
      if Takes(before, last, fp) {
        TakenAway(setup, before, last, fp);
      } else {
        OneMore(setup, Born(setup, rows, Front(actions), fp), Life(setup, rows, Front(actions), fp), before, last, fp);
      }
    }
  }
}
