// The storage quota and pruning under it (storage/pruner.rs): only settled observations and findings
// that are no longer open may go. File sizes are inputs, shares of the quota are taken over the reals.
module Pruner {
  import Findings
  import opened MachineInts
  import Queue
  import opened Seqs

  const DAY: int := 86_400
  const EMERGENCY_LIMIT: nat := 500

  const HIGH_WATER_RATIO: real := 0.85
  const CRITICAL_RATIO: real := 0.95

  datatype Report = Report(
    initialBytes: u64, finalBytes: u64, acknowledged: nat, deadLetters: nat, findings: nat, emergency: nat)

  // ----- The quota ------------------------------------------------------------------------

  datatype Quota = Normal | HighWater | Exceeded | Saturated

  /** A share of the limit in whole bytes. */
  function Share(maxBytes: u64, ratio: real): int { (maxBytes as real * ratio).Floor }

  predicate IsCritical(bytes: u64, maxBytes: u64) { bytes >= Share(maxBytes, CRITICAL_RATIO) }

  function CheckQuota(bytes: u64, maxBytes: u64, isCriticalWrite: bool): Quota {
    if bytes >= maxBytes then Saturated
    else if IsCritical(bytes, maxBytes) && !isCriticalWrite then Exceeded
    else if bytes >= Share(maxBytes, HIGH_WATER_RATIO) then HighWater
    else Normal
  }

  predicate Admits(q: Quota) { q.Normal? || q.HighWater? }

  lemma SharesInOrder(maxBytes: u64)
    ensures 0 <= Share(maxBytes, HIGH_WATER_RATIO) <= Share(maxBytes, CRITICAL_RATIO) <= maxBytes
  {
    var size := maxBytes as real;
    assert size * HIGH_WATER_RATIO <= size * CRITICAL_RATIO <= size;
  }

  lemma ShareInPercent(maxBytes: u64, percent: nat)
    ensures Share(maxBytes, percent as real / 100.0) == maxBytes * percent / 100
  {
    var n := maxBytes * percent;
    assert maxBytes as real * (percent as real / 100.0) == n as real / 100.0;
    assert n == (n / 100) * 100 + n % 100;
    assert n as real / 100.0 == (n / 100) as real + (n % 100) as real / 100.0;
  }

  /** The four answers in whole percent of the limit: full, from 95 on and not critical, from 85 on, below. */
  lemma QuotaExactly(bytes: u64, maxBytes: u64, isCriticalWrite: bool)
    ensures CheckQuota(bytes, maxBytes, isCriticalWrite) ==
      if bytes >= maxBytes then Saturated
      else if bytes >= maxBytes * 95 / 100 && !isCriticalWrite then Exceeded
      else if bytes >= maxBytes * 85 / 100 then HighWater
      else Normal
    ensures IsCritical(bytes, maxBytes) <==> bytes >= maxBytes * 95 / 100
  {
    ShareInPercent(maxBytes, 95);
    ShareInPercent(maxBytes, 85);
    hide Share;
    assert HIGH_WATER_RATIO == 85 as real / 100.0 && CRITICAL_RATIO == 95 as real / 100.0;
  }

  /**
   * Ordinary writes are refused exactly at the sizes at which a pruning takes its emergency step; critical
   * ones only when the store is full, and short of that they are told of high water.
   */
  lemma RefusedExactly(bytes: u64, maxBytes: u64)
    ensures !Admits(CheckQuota(bytes, maxBytes, false)) <==> IsCritical(bytes, maxBytes)
    ensures !Admits(CheckQuota(bytes, maxBytes, true)) <==> bytes >= maxBytes
    ensures IsCritical(bytes, maxBytes) && bytes < maxBytes ==> CheckQuota(bytes, maxBytes, true) == HighWater
  {
    SharesInOrder(maxBytes);
    hide Share;
  }

  // ----- Pruning --------------------------------------------------------------------------

  function AcknowledgedBefore(rows: Queue.Table, cutoff: int): set<Queue.Id> {
    set id | id in rows && rows[id].status.Acknowledged? && rows[id].updatedAt < cutoff
  }

  function DeadBefore(rows: Queue.Table, cutoff: int): set<Queue.Id> {
    set id | id in rows && rows[id].status.DeadLetter? && rows[id].updatedAt < cutoff
  }

  function PrunableFindings(rows: Findings.Table, cutoff: int): set<string> {
    set fp | fp in rows && Findings.Prunable(rows[fp], cutoff)
  }

  /** The queue statements of a pruning, in order; the last one only under pressure. */
  function Events(now: int, critical: bool, victims: set<Queue.Id>): seq<Queue.Event> {
    [Queue.PruneAcknowledged(now - 7 * DAY), Queue.PruneDeadLetters(now - 30 * DAY)]
      + if critical then [Queue.Purge(victims)] else []
  }

  method DeleteAcknowledged(queue: Queue.ObservationQueue, cutoff: int) returns (deleted: nat)
    modifies queue
    ensures queue.rows == Queue.Apply(old(queue.rows), Queue.PruneAcknowledged(cutoff))
    ensures deleted == |AcknowledgedBefore(old(queue.rows), cutoff)|
  {
    var gone := AcknowledgedBefore(queue.rows, cutoff);
    queue.rows := queue.rows - gone;
    deleted := |gone|;
  }

  method DeleteDeadLetters(queue: Queue.ObservationQueue, cutoff: int) returns (deleted: nat)
    modifies queue
    ensures queue.rows == Queue.Apply(old(queue.rows), Queue.PruneDeadLetters(cutoff))
    ensures deleted == |DeadBefore(old(queue.rows), cutoff)|
  {
    var gone := DeadBefore(queue.rows, cutoff);
    queue.rows := queue.rows - gone;
    deleted := |gone|;
  }

  lemma RowsLess<K, V>(rows: map<K, V>, gone: set<K>)
    requires gone <= rows.Keys
    ensures |rows - gone| + |gone| == |rows|
  {
    assert (rows - gone).Keys + gone == rows.Keys;
    assert |(rows - gone).Keys| == |rows - gone| && |rows.Keys| == |rows|;
  }

  method DeleteFindings(findings: Findings.FindingsTable, cutoff: int) returns (deleted: nat)
    modifies findings
    ensures findings.rows == Findings.PrunedRows(old(findings.rows), cutoff)
    ensures deleted == |PrunableFindings(old(findings.rows), cutoff)| == |old(findings.rows)| - |findings.rows|
  {
    var gone := PrunableFindings(findings.rows, cutoff);
    findings.rows := findings.rows - gone;
    deleted := |gone|;
    RowsLess(old(findings.rows), gone);
  }

  lemma AfterEvents(rows: Queue.Table, now: int, critical: bool, victims: set<Queue.Id>)
    ensures
      var first := Queue.Apply(rows, Queue.PruneAcknowledged(now - 7 * DAY));
      var second := Queue.Apply(first, Queue.PruneDeadLetters(now - 30 * DAY));
      Queue.After(rows, Events(now, critical, victims))
        == if critical then Queue.Apply(second, Queue.Purge(victims)) else second
  {
    var a, b, c := Queue.PruneAcknowledged(now - 7 * DAY), Queue.PruneDeadLetters(now - 30 * DAY), Queue.Purge(victims);
    Queue.AfterSnoc(rows, [], a);
    Queue.AfterSnoc(rows, [a], b);
    Queue.AfterSnoc(rows, [a, b], c);
    assert [] + [a] == [a] && [a] + [b] == [a, b] && [a, b] + [c] == [a, b, c];
    hide Queue.Apply;
    assert Queue.After(rows, []) == rows;
    assert Events(now, critical, victims) == if critical then [a, b, c] else [a, b];
  }

  /** What the queue keeps: everything but acknowledged rows of a week, dead letters of a month, and the victims. */
  lemma PruneExactly(rows: Queue.Table, now: int, critical: bool, victims: set<Queue.Id>)
    ensures
      var after := Queue.After(rows, Events(now, critical, victims));
      && (forall id :: id in after <==>
           && id in rows && !(critical && id in victims)
           && (rows[id].status == Queue.Acknowledged ==> rows[id].updatedAt >= now - 604_800)
           && (rows[id].status == Queue.DeadLetter ==> rows[id].updatedAt >= now - 2_592_000))
      && forall id :: id in after ==> after[id] == rows[id]
  {
    AfterEvents(rows, now, critical, victims);
    hide Queue.After;
  }

  lemma OldestDistinct(rows: Queue.Table, ids: seq<Queue.Id>)
    requires Queue.AreOldest(rows, Queue.Acknowledged, EMERGENCY_LIMIT, ids)
    ensures |Elements(ids)| == |ids|
  {
    DistinctSize(ids);
  }

  /** The emergency step: the oldest acknowledged rows, whatever their age. */
  method DeleteOldest(queue: Queue.ObservationQueue) returns (deleted: nat, ghost victims: set<Queue.Id>)
    modifies queue
    ensures queue.rows == Queue.Apply(old(queue.rows), Queue.Purge(victims)) && deleted == |victims|
    ensures exists ids ::
      Queue.AreOldest(old(queue.rows), Queue.Acknowledged, EMERGENCY_LIMIT, ids) && victims == Elements(ids)
  {
    var ids := Queue.SelectOldest(queue.rows, Queue.Acknowledged, EMERGENCY_LIMIT);
    victims := Elements(ids);
    OldestDistinct(queue.rows, ids);
    hide Queue.AreOldest;
    queue.rows := map id | id in queue.rows && id !in ids :: queue.rows[id];
    deleted := |ids|;
  }

  function OfAge(rows: Queue.Table, status: Queue.Status, before: int): set<Queue.Id> {
    set id | id in rows && rows[id].status == status && rows[id].updatedAt < before
  }

  /** What the statements look at: a week for acknowledged rows, a month for dead letters. */
  lemma RowAges(rows: Queue.Table, now: int)
    ensures
      var first := Queue.Apply(rows, Queue.PruneAcknowledged(now - 7 * DAY));
      var second := Queue.Apply(first, Queue.PruneDeadLetters(now - 30 * DAY));
      var week, month := OfAge(rows, Queue.Acknowledged, now - 604_800), OfAge(rows, Queue.DeadLetter, now - 2_592_000);
      && AcknowledgedBefore(rows, now - 7 * DAY) == week && DeadBefore(first, now - 30 * DAY) == month
      && second == rows - (week + month)
  {
  }

  /** Findings go after three months without being seen, unless they are open. */
  lemma FindingAges(findings: Findings.Table, now: int)
    ensures
      var after := Findings.PrunedRows(findings, now - 90 * DAY);
      && (forall fp :: fp in after <==>
           fp in findings && (findings[fp].status == Findings.Open || findings[fp].lastSeen >= now - 7_776_000))
      && (forall fp :: fp in after ==> after[fp] == findings[fp])
      && PrunableFindings(findings, now - 90 * DAY) == findings.Keys - after.Keys
  {
  }

  /** The statements in order, the last one only if the store is critical after the others. */
  method ExecutePrune(
      queue: Queue.ObservationQueue, findings: Findings.FindingsTable, now: int,
      maxBytes: u64, initialBytes: u64, currentBytes: u64, finalBytes: u64)
    returns (report: Report, ghost victims: set<Queue.Id>)
    modifies queue, findings
    ensures queue.rows == Queue.After(old(queue.rows), Events(now, IsCritical(currentBytes, maxBytes), victims))
    ensures findings.rows == Findings.PrunedRows(old(findings.rows), now - 90 * DAY)
    ensures
      var first := Queue.Apply(old(queue.rows), Queue.PruneAcknowledged(now - 7 * DAY));
      var second := Queue.Apply(first, Queue.PruneDeadLetters(now - 30 * DAY));
      && report.acknowledged == |AcknowledgedBefore(old(queue.rows), now - 7 * DAY)|
      && report.deadLetters == |DeadBefore(first, now - 30 * DAY)|
      && report.findings == |PrunableFindings(old(findings.rows), now - 90 * DAY)|
      && report.emergency == |victims|
      && report.initialBytes == initialBytes && report.finalBytes == finalBytes
      && (if IsCritical(currentBytes, maxBytes)
          then
            exists ids ::
              Queue.AreOldest(second, Queue.Acknowledged, 500, ids) && victims == Elements(ids)
          else victims == {})
  {
    assert EMERGENCY_LIMIT == 500;
    hide *;
    ghost var before := queue.rows;
    var acknowledged := DeleteAcknowledged(queue, now - 7 * DAY);
    var deadLetters := DeleteDeadLetters(queue, now - 30 * DAY);
    var expired := DeleteFindings(findings, now - 90 * DAY);
    victims := {};
    var emergency := 0;
    var critical := IsCritical(currentBytes, maxBytes);
    if critical {
      emergency, victims := DeleteOldest(queue);
    }
    AfterEvents(before, now, critical, victims);
    report := Report(initialBytes, finalBytes, acknowledged, deadLetters, expired, emergency);
  }

  /** The statements of a pruning are legal in every run: victims are acknowledged when they go. */
  lemma PruneIsLegal(events: seq<Queue.Event>, now: int, critical: bool, ids: seq<Queue.Id>, max: int)
    requires Queue.Legal(events, max)
    requires
      var second := Queue.Apply(
        Queue.Apply(Queue.Run(events), Queue.PruneAcknowledged(now - 7 * DAY)), Queue.PruneDeadLetters(now - 30 * DAY));
      Queue.AreOldest(second, Queue.Acknowledged, EMERGENCY_LIMIT, ids)
    ensures Queue.Legal(events + Events(now, critical, Elements(ids)), max)
  {
    var a, b := Queue.PruneAcknowledged(now - 7 * DAY), Queue.PruneDeadLetters(now - 30 * DAY);
    var c := Queue.Purge(Elements(ids));
    var one, two := events + [a], events + [a, b];
    assert two == one + [b] && events + [a, b, c] == two + [c];
    Queue.AfterSnoc(map[], events, a);
    Queue.AfterSnoc(map[], one, b);
    assert Front(one) == events && Front(two) == one && Front(two + [c]) == two;
    hide Queue.Apply, Queue.After;
    assert Queue.Legal(one, max);
    assert Queue.Legal(two, max);
    assert critical ==> Queue.Legal(two + [c], max);
    assert events + Events(now, critical, Elements(ids)) == if critical then two + [c] else two;
  }

  /** Whatever is waiting, under way or open survives a pruning untouched. */
  lemma PruneKeepsLive(rows: Queue.Table, findings: Findings.Table, now: int, critical: bool, victims: set<Queue.Id>)
    requires forall id :: id in victims ==> id in rows && rows[id].status.Acknowledged?
    ensures forall id :: id in rows && !Queue.Settled(rows[id]) ==>
      id in Queue.After(rows, Events(now, critical, victims))
        && Queue.After(rows, Events(now, critical, victims))[id] == rows[id]
    ensures forall fp :: fp in findings && findings[fp].status.Open? ==>
      fp in Findings.PrunedRows(findings, now - 90 * DAY)
        && Findings.PrunedRows(findings, now - 90 * DAY)[fp] == findings[fp]
  {
    AfterEvents(rows, now, critical, victims);
    hide Queue.After;
    var first := Queue.Apply(rows, Queue.PruneAcknowledged(now - 7 * DAY));
    var second := Queue.Apply(first, Queue.PruneDeadLetters(now - 30 * DAY));
    forall id | id in rows && !Queue.Settled(rows[id])
      ensures id in second && second[id] == rows[id] && id !in victims
    {
      assert id in first && first[id] == rows[id];
    }
  }
}
