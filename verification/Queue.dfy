// The durable observation queue (storage/repositories/queue.rs). Each SQL statement is one event on
// the table; a run is any sequence of events that the statements allow.
module Queue {
  import opened Seqs

  type Id = string

  datatype Status = Queued | InFlight | Acknowledged | DeadLetter

  datatype Row = Row(
    kind: string, payload: string, hash: string, status: Status, retryCount: nat,
    source: Option<string>, createdAt: int, updatedAt: int)

  type Table = map<Id, Row>

  predicate Settled(row: Row) { row.status in {Acknowledged, DeadLetter} }

  datatype Event =
    | Insert(id: Id, row: Row)
    | Touch(id: Id, now: int)
    | Deliver(id: Id, now: int)
    | Acknowledge(id: Id, now: int)
    | GiveUp(id: Id, now: int)
    | Exhaust(now: int, cutoff: int, max: int)
    | Requeue(now: int, cutoff: int, max: int)
    | PruneAcknowledged(cutoff: int)
    | PruneDeadLetters(cutoff: int)
    | Purge(victims: set<Id>)

  predicate Stale(row: Row, cutoff: int) { row.status.InFlight? && row.updatedAt < cutoff }

  /** What an event makes of one row. */
  function RowAfter(id: Id, row: Row, e: Event): Row {
    match e
    case Touch(i, now) => if i == id then row.(updatedAt := now) else row
    case Deliver(i, now) =>
      if i == id && row.status.Queued?
      then row.(status := InFlight, retryCount := row.retryCount + 1, updatedAt := now)
      else row
    case Acknowledge(i, now) => if i == id then row.(status := Acknowledged, updatedAt := now) else row
    case GiveUp(i, now) => if i == id then row.(status := DeadLetter, updatedAt := now) else row
    case Exhaust(now, cutoff, max) =>
      if Stale(row, cutoff) && row.retryCount >= max then row.(status := DeadLetter, updatedAt := now) else row
    case Requeue(now, cutoff, max) =>
      if Stale(row, cutoff) && row.retryCount < max then row.(status := Queued, updatedAt := now) else row
    case _ => row
  }

  predicate Removes(id: Id, row: Row, e: Event) {
    match e
    case PruneAcknowledged(cutoff) => row.status.Acknowledged? && row.updatedAt < cutoff
    case PruneDeadLetters(cutoff) => row.status.DeadLetter? && row.updatedAt < cutoff
    case Purge(victims) => id in victims
    case _ => false
  }

  function Apply(rows: Table, e: Event): Table {
    var kept := map id | id in rows && !Removes(id, rows[id], e) :: RowAfter(id, rows[id], e);
    if e.Insert? then kept[e.id := e.row] else kept
  }

  function After(rows: Table, events: seq<Event>): Table {
    if events == [] then rows else Apply(After(rows, Front(events)), Last(events))
  }

  function QueuedWith(rows: Table, hash: string): set<Id> {
    set id | id in rows && rows[id].status.Queued? && rows[id].hash == hash
  }

  function WithStatus(rows: Table, status: Status): set<Id> {
    set id | id in rows && rows[id].status == status
  }

  /** The rows a requeueing puts back in the queue. */
  function Requeueable(rows: Table, cutoff: int, max: int): set<Id> {
    set id | id in rows && Stale(rows[id], cutoff) && rows[id].retryCount < max
  }

  lemma AfterSnoc(rows: Table, events: seq<Event>, e: Event)
    ensures After(rows, events + [e]) == Apply(After(rows, events), e)
  {
    assert Front(events + [e]) == events;
  }

  lemma {:induction false} AfterAppend(rows: Table, a: seq<Event>, b: seq<Event>)
    ensures After(rows, a + b) == After(After(rows, a), b)
    decreases |b|
  {
    if b == [] {
      assert a + b == a;
    } else {
      assert Front(a + b) == a + Front(b) && Last(a + b) == Last(b);
      AfterAppend(rows, a, Front(b));
      hide Apply;
    }
  }

  /** What an enqueueing does: it touches a queued row of the same hash, or else inserts a new row. */
  predicate IsEnqueue(
    rows: Table, e: Event, computeHash: (string, string) -> string, kind: string, payload: string,
    source: Option<string>, now: int, newId: Id)
  {
    var hash := computeHash(kind, payload);
    if QueuedWith(rows, hash) == {} then e == Insert(newId, Row(kind, payload, hash, Queued, 0, source, now, now))
    else e.Touch? && e.id in QueuedWith(rows, hash) && e.now == now
  }

  // ----- The repository -----------------------------------------------------------

  function Delivers(now: int): Id -> Event { id => Deliver(id, now) }
  function Acknowledges(now: int): Id -> Event { id => Acknowledge(id, now) }
  function GiveUps(now: int): Id -> Event { id => GiveUp(id, now) }

  /** One update per id, in order. */
  function Marks(ids: seq<Id>, mark: Id -> Event): seq<Event> {
    if ids == [] then [] else Marks(Front(ids), mark) + [mark(Last(ids))]
  }

  /** The ids of the oldest rows of a status, at most `limit` of them, oldest first. */
  ghost predicate AreOldest(rows: Table, status: Status, limit: nat, ids: seq<Id>) {
    var all := WithStatus(rows, status);
    && (forall i :: 0 <= i < |ids| ==> ids[i] in all)
    && (forall i, j :: 0 <= i < j < |ids| ==> ids[i] != ids[j] && rows[ids[i]].createdAt <= rows[ids[j]].createdAt)
    && (forall i, id :: 0 <= i < |ids| && id in all && id !in ids ==> rows[ids[i]].createdAt <= rows[id].createdAt)
    && |ids| == if |all| < limit then |all| else limit
  }

  ghost predicate Oldest(rows: Table, pool: set<Id>, id: Id)
    requires pool <= rows.Keys
  {
    id in pool && forall other :: other in pool ==> rows[id].createdAt <= rows[other].createdAt
  }

  lemma {:induction false} OldestExists(rows: Table, pool: set<Id>) returns (oldest: Id)
    requires pool != {} && pool <= rows.Keys
    ensures Oldest(rows, pool, oldest)
    decreases |pool|
  {
    var first :| first in pool;
    oldest := first;
    var rest := pool - {first};
    assert forall other :: other in pool ==> other == first || other in rest;
    if rest != {} {
      var other := OldestExists(rows, rest);
      if rows[other].createdAt < rows[oldest].createdAt {
        oldest := other;
      }
    }
  }

  /** What is taken so far, oldest first, and what is left, none of it older. */
  ghost predicate Taken(rows: Table, all: set<Id>, pool: set<Id>, ids: seq<Id>)
    requires all <= rows.Keys
  {
    && pool <= all && |ids| + |pool| == |all|
    && (forall id :: id in all <==> id in pool || id in ids)
    && (forall i :: 0 <= i < |ids| ==> ids[i] in all && ids[i] !in pool)
    && (forall i, j :: 0 <= i < j < |ids| ==> ids[i] != ids[j] && rows[ids[i]].createdAt <= rows[ids[j]].createdAt)
    && (forall i, id :: 0 <= i < |ids| && id in pool ==> rows[ids[i]].createdAt <= rows[id].createdAt)
  }

  lemma TakeOldest(rows: Table, all: set<Id>, pool: set<Id>, ids: seq<Id>, oldest: Id)
    requires all <= rows.Keys && Taken(rows, all, pool, ids) && Oldest(rows, pool, oldest)
    ensures Taken(rows, all, pool - {oldest}, ids + [oldest])
  {
    var more := ids + [oldest];
    assert forall i :: 0 <= i < |ids| ==> more[i] == ids[i];
    assert forall id :: id in more <==> id in ids || id == oldest;
  }

  /** ORDER BY created_at ASC LIMIT n, with ties in any order. */
  method SelectOldest(rows: Table, status: Status, limit: nat) returns (ids: seq<Id>)
    ensures AreOldest(rows, status, limit, ids)
  {
    ghost var all := WithStatus(rows, status);
    var pool := WithStatus(rows, status);
    ids := [];
    assert Taken(rows, all, pool, ids);
    while pool != {} && |ids| < limit
      invariant pool <= all && Taken(rows, all, pool, ids) && |ids| <= limit
      decreases |pool|
    {
      hide Taken;
      ghost var witnessed := OldestExists(rows, pool);
      var oldest :| oldest in pool && forall other :: other in pool ==> rows[oldest].createdAt <= rows[other].createdAt;
      TakeOldest(rows, all, pool, ids, oldest);
      ids := ids + [oldest];
      pool := pool - {oldest};
    }
  }

  /** The rows an update by id matches. */
  function Matched(rows: Table, e: Event): nat {
    match e
    case Deliver(id, _) => if id in rows && rows[id].status.Queued? then 1 else 0
    case Acknowledge(id, _) => if id in rows then 1 else 0
    case GiveUp(id, _) => if id in rows then 1 else 0
    case _ => 0
  }

  /** How many of the events found a row to change. */
  function Effective(rows: Table, events: seq<Event>): nat {
    if events == [] then 0
    else Effective(rows, Front(events)) + Matched(After(rows, Front(events)), Last(events))
  }

  lemma NoneDone(rows: Table)
    ensures After(rows, []) == rows && Effective(rows, []) == 0
  {
  }

  /** An update by id touches that row or none. */
  lemma UpdateOne(rows: Table, id: Id, e: Event)
    requires (e.Deliver? || e.Acknowledge? || e.GiveUp?) && e.id == id
    ensures Apply(rows, e) == if id in rows then rows[id := RowAfter(id, rows[id], e)] else rows
    ensures Matched(rows, e) == if id in rows && (e.Deliver? ==> rows[id].status.Queued?) then 1 else 0
  {
  }

  lemma MarkOne(rows: Table, ids: seq<Id>, i: nat, mark: Id -> Event)
    requires i < |ids|
    ensures
      var done, more := Marks(ids[..i], mark), Marks(ids[..i + 1], mark);
      && After(rows, more) == Apply(After(rows, done), mark(ids[i]))
      && Effective(rows, more) == Effective(rows, done) + Matched(After(rows, done), mark(ids[i]))
  {
    hide Apply, Matched;
    assert Front(ids[..i + 1]) == ids[..i];
    var done := Marks(ids[..i], mark);
    assert Front(done + [mark(ids[i])]) == done;
  }

  lemma OneMarked(rows: Table, ids: seq<Id>, mark: Id -> Event)
    requires ids != []
    ensures
      var before := After(rows, Marks(Front(ids), mark));
      && After(rows, Marks(ids, mark)) == Apply(before, mark(Last(ids)))
      && Effective(rows, Marks(ids, mark))
          == Effective(rows, Marks(Front(ids), mark)) + Matched(before, mark(Last(ids)))
  {
    hide Apply, Matched;
    FrontLast(ids);
    var done := Marks(Front(ids), mark);
    assert Front(done + [mark(Last(ids))]) == done;
  }

  /**
   * Rows after a marking: the named ones have the new status and time, for a delivery only those that were
   * queued, which have been tried once more; no other has changed.
   */
  predicate Changed(rows: Table, after: Table, ids: seq<Id>, status: Status, now: int) {
    && after.Keys == rows.Keys
    && forall id :: id in rows ==>
         var was := rows[id];
         after[id] ==
           if id !in ids then was
           else if status != InFlight then was.(status := status, updatedAt := now)
           else if was.status != Queued then was
           else was.(status := InFlight, retryCount := was.retryCount + 1, updatedAt := now)
  }

  lemma ChangedMore(rows: Table, middle: Table, front: seq<Id>, last: Id, e: Event, status: Status, now: int)
    requires Changed(rows, middle, front, status, now)
    requires || (status == InFlight && e == Deliver(last, now))
             || (status == Acknowledged && e == Acknowledge(last, now))
             || (status == DeadLetter && e == GiveUp(last, now))
    ensures Changed(rows, Apply(middle, e), front + [last], status, now)
    ensures Matched(middle, e) ==
      if last in rows && (status == InFlight ==> last !in front && rows[last].status == Queued) then 1 else 0
  {
    UpdateOne(middle, last, e);
    assert forall id :: id in front + [last] <==> id in front || id == last;
    hide Apply;
  }

  /** Acknowledging and giving up count every mention of an id that has a row. */
  lemma {:induction false} MarksSettle(rows: Table, ids: seq<Id>, status: Status, mark: Id -> Event, now: int)
    requires (status == Acknowledged && mark == Acknowledges(now)) || (status == DeadLetter && mark == GiveUps(now))
    ensures Changed(rows, After(rows, Marks(ids, mark)), ids, status, now)
    ensures Effective(rows, Marks(ids, mark)) == |Places(ids, (id: Id) => id in rows)|
  {
    if ids == [] {
      assert Places(ids, (id: Id) => id in rows) == {};
    } else {
      var front, last := Front(ids), Last(ids);
      MarksSettle(rows, front, status, mark, now);
      OneMarked(rows, ids, mark);
      FrontLast(ids);
      PlacesSnoc(ids, (id: Id) => id in rows);
      ChangedMore(rows, After(rows, Marks(front, mark)), front, last, mark(last), status, now);
      hide After, Apply, Marks, Effective, Matched, Changed, Places;
    }
  }

  function Waiting(rows: Table, ids: seq<Id>): set<Id> {
    set id | id in ids && id in rows && rows[id].status == Queued
  }

  lemma WaitingSnoc(rows: Table, front: seq<Id>, last: Id)
    ensures |Waiting(rows, front + [last])| == |Waiting(rows, front)| +
      if last in rows && last !in front && rows[last].status == Queued then 1 else 0
  {
    assert forall id :: id in front + [last] <==> id in front || id == last;
    if last in rows && last !in front && rows[last].status == Queued {
      assert Waiting(rows, front + [last]) == Waiting(rows, front) + {last};
    } else {
      assert Waiting(rows, front + [last]) == Waiting(rows, front);
    }
  }

  /** A delivery counts every queued row once, however often its id is named. */
  lemma {:induction false} MarksDeliver(rows: Table, ids: seq<Id>, now: int)
    ensures Changed(rows, After(rows, Marks(ids, Delivers(now))), ids, InFlight, now)
    ensures Effective(rows, Marks(ids, Delivers(now))) == |Waiting(rows, ids)|
  {
    if ids == [] {
      assert Waiting(rows, ids) == {};
    } else {
      var front, last := Front(ids), Last(ids);
      MarksDeliver(rows, front, now);
      OneMarked(rows, ids, Delivers(now));
      FrontLast(ids);
      WaitingSnoc(rows, front, last);
      ChangedMore(rows, After(rows, Marks(front, Delivers(now))), front, last, Deliver(last, now), InFlight, now);
      hide After, Apply, Marks, Effective, Matched, Changed, Waiting;
    }
  }

  lemma ExhaustRows(rows: Table, now: int, cutoff: int, max: int)
    ensures Apply(rows, Exhaust(now, cutoff, max)) == map id | id in rows ::
      if Stale(rows[id], cutoff) && rows[id].retryCount >= max
      then rows[id].(status := DeadLetter, updatedAt := now) else rows[id]
  {
  }

  lemma RequeueRows(rows: Table, now: int, cutoff: int, max: int)
    ensures Apply(rows, Requeue(now, cutoff, max)) == map id | id in rows ::
      if id in Requeueable(rows, cutoff, max) then rows[id].(status := Queued, updatedAt := now) else rows[id]
  {
  }

  class ObservationQueue {
    var rows: Table
    const computeHash: (string, string) -> string

    constructor (computeHash: (string, string) -> string)
      ensures rows == map[] && this.computeHash == computeHash
    {
      rows := map[];
      this.computeHash := computeHash;
    }

    /** The new identifier comes from the generator, which is not part of this model. */
    method Enqueue(kind: string, payload: string, source: Option<string>, now: int, newId: Id)
      returns (id: Id, entry: Row)
      requires newId !in rows
      modifies this
      ensures
        var hash := computeHash(kind, payload);
        if QueuedWith(old(rows), hash) == {}
        then
          && id == newId && entry == Row(kind, payload, hash, Queued, 0, source, now, now)
          && rows == Apply(old(rows), Insert(id, entry))
        else
          && id in QueuedWith(old(rows), hash) && entry == old(rows)[id].(updatedAt := now)
          && rows == Apply(old(rows), Touch(id, now))
      ensures id in QueuedWith(rows, computeHash(kind, payload)) && rows == old(rows)[id := entry]
      ensures
        var hash := computeHash(kind, payload);
        if exists other :: other in old(rows) && old(rows)[other].status == Queued && old(rows)[other].hash == hash
        then
          && id in old(rows) && old(rows)[id].status == Queued && old(rows)[id].hash == hash
          && entry == old(rows)[id].(updatedAt := now)
        else id == newId && entry == Row(kind, payload, hash, Queued, 0, source, now, now)
    {
      var hash := computeHash(kind, payload);
      var existing := QueuedWith(rows, hash);
      if existing != {} {
        id :| id in existing;
        entry := rows[id].(updatedAt := now);
      } else {
        id := newId;
        entry := Row(kind, payload, hash, Queued, 0, source, now, now);
      }
      rows := rows[id := entry];
      assert forall other :: other in existing <==>
        other in old(rows) && old(rows)[other].status == Queued && old(rows)[other].hash == hash;
      assert rows == Apply(old(rows), if existing != {} then Touch(id, now) else Insert(id, entry));
    }

    /** The same call, with the event it amounts to. */
    method EnqueueEvent(kind: string, payload: string, source: Option<string>, now: int, newId: Id)
      returns (ghost e: Event)
      requires newId !in rows
      modifies this
      ensures IsEnqueue(old(rows), e, computeHash, kind, payload, source, now, newId) && rows == Apply(old(rows), e)
      ensures forall id :: id in rows ==> id in old(rows) || id == newId
    {
      var id, entry := Enqueue(kind, payload, source, now, newId);
      e := if QueuedWith(old(rows), computeHash(kind, payload)) == {} then Insert(id, entry) else Touch(id, now);
    }

    method FetchQueuedBatch(limit: nat) returns (ids: seq<Id>, entries: seq<Row>)
      ensures AreOldest(rows, Queued, limit, ids)
      ensures |entries| == |ids| && forall i :: 0 <= i < |ids| ==> entries[i] == rows[ids[i]]
    {
      ids := SelectOldest(rows, Queued, limit);
      entries := [];
      for i := 0 to |ids|
        invariant |entries| == i && forall k :: 0 <= k < i ==> entries[k] == rows[ids[k]]
      {
        entries := entries + [rows[ids[i]]];
      }
    }

    method MarkInFlight(ids: seq<Id>, now: int) returns (updated: nat)
      modifies this
      ensures rows == After(old(rows), Marks(ids, Delivers(now)))
      ensures updated == Effective(old(rows), Marks(ids, Delivers(now)))
      ensures Changed(old(rows), rows, ids, InFlight, now)
    {
      hide Apply, Matched, After, Effective;
      assert rows == After(old(rows), []) && Effective(old(rows), []) == 0 by {
        NoneDone(old(rows));
      }
      updated := 0;
      for i := 0 to |ids|
        invariant rows == After(old(rows), Marks(ids[..i], Delivers(now)))
        invariant updated == Effective(old(rows), Marks(ids[..i], Delivers(now)))
      {
        var id := ids[i];
        ghost var before := rows;
        if id in rows && rows[id].status.Queued? {
          rows := rows[id := rows[id].(status := InFlight, retryCount := rows[id].retryCount + 1, updatedAt := now)];
          updated := updated + 1;
        }
        UpdateOne(before, id, Deliver(id, now));
        MarkOne(old(rows), ids, i, Delivers(now));
      }
      assert ids[..|ids|] == ids;
      MarksDeliver(old(rows), ids, now);
    }

    method MarkAcknowledged(ids: seq<Id>, now: int) returns (updated: nat)
      modifies this
      ensures rows == After(old(rows), Marks(ids, Acknowledges(now)))
      ensures updated == Effective(old(rows), Marks(ids, Acknowledges(now)))
      ensures Changed(old(rows), rows, ids, Acknowledged, now)
    {
      hide Apply, Matched, After, Effective;
      assert rows == After(old(rows), []) && Effective(old(rows), []) == 0 by {
        NoneDone(old(rows));
      }
      updated := 0;
      for i := 0 to |ids|
        invariant rows == After(old(rows), Marks(ids[..i], Acknowledges(now)))
        invariant updated == Effective(old(rows), Marks(ids[..i], Acknowledges(now)))
      {
        var id := ids[i];
        ghost var before := rows;
        if id in rows {
          rows := rows[id := rows[id].(status := Acknowledged, updatedAt := now)];
          updated := updated + 1;
        }
        UpdateOne(before, id, Acknowledge(id, now));
        MarkOne(old(rows), ids, i, Acknowledges(now));
      }
      assert ids[..|ids|] == ids;
      MarksSettle(old(rows), ids, Acknowledged, Acknowledges(now), now);
    }

    method MarkDeadLetter(ids: seq<Id>, now: int) returns (updated: nat)
      modifies this
      ensures rows == After(old(rows), Marks(ids, GiveUps(now)))
      ensures updated == Effective(old(rows), Marks(ids, GiveUps(now)))
      ensures Changed(old(rows), rows, ids, DeadLetter, now)
    {
      hide Apply, Matched, After, Effective;
      assert rows == After(old(rows), []) && Effective(old(rows), []) == 0 by {
        NoneDone(old(rows));
      }
      updated := 0;
      for i := 0 to |ids|
        invariant rows == After(old(rows), Marks(ids[..i], GiveUps(now)))
        invariant updated == Effective(old(rows), Marks(ids[..i], GiveUps(now)))
      {
        var id := ids[i];
        ghost var before := rows;
        if id in rows {
          rows := rows[id := rows[id].(status := DeadLetter, updatedAt := now)];
          updated := updated + 1;
        }
        UpdateOne(before, id, GiveUp(id, now));
        MarkOne(old(rows), ids, i, GiveUps(now));
      }
      assert ids[..|ids|] == ids;
      MarksSettle(old(rows), ids, DeadLetter, GiveUps(now), now);
    }

    /** The cutoff is taken from the clock first, the new update time from a later reading. */
    method RequeueStaleInFlight(timeoutSeconds: nat, maxRetries: int, now: int, later: int) returns (requeued: nat)
      modifies this
      ensures
        var cutoff := now - timeoutSeconds;
        && rows == Apply(Apply(old(rows), Exhaust(later, cutoff, maxRetries)), Requeue(later, cutoff, maxRetries))
        && requeued == |Requeueable(old(rows), cutoff, maxRetries)|
      ensures rows.Keys == old(rows).Keys
      ensures forall id :: id in rows ==>
        var was := old(rows)[id];
        rows[id] ==
          if was.status != InFlight || was.updatedAt >= now - timeoutSeconds then was
          else was.(status := if was.retryCount >= maxRetries then DeadLetter else Queued, updatedAt := later)
    {
      hide Apply;
      var cutoff := now - timeoutSeconds;
      rows := map id | id in rows ::
        if Stale(rows[id], cutoff) && rows[id].retryCount >= maxRetries
        then rows[id].(status := DeadLetter, updatedAt := later) else rows[id];
      assert rows == Apply(old(rows), Exhaust(later, cutoff, maxRetries)) by {
        ExhaustRows(old(rows), later, cutoff, maxRetries);
      }
      ghost var between := rows;
      var moved := Requeueable(rows, cutoff, maxRetries);
      assert moved == Requeueable(old(rows), cutoff, maxRetries);
      RequeueRows(rows, later, cutoff, maxRetries);
      requeued := |moved|;
      rows := map id | id in rows :: if id in moved then rows[id].(status := Queued, updatedAt := later) else rows[id];
      assert rows == Apply(between, Requeue(later, cutoff, maxRetries));
    }
  }

  // ----- Requeueing ---------------------------------------------------------------

  /**
   * Afterwards nothing stale is in flight: each such row is a dead letter or queued, by its retries,
   * and no other moved.
   */
  lemma RequeueSettlesStale(rows: Table, now: int, cutoff: int, max: int)
    ensures
      var after := Apply(Apply(rows, Exhaust(now, cutoff, max)), Requeue(now, cutoff, max));
      && after.Keys == rows.Keys
      && (forall id :: id in rows ==>
           if !(rows[id].status == InFlight && rows[id].updatedAt < cutoff) then after[id] == rows[id]
           else
             after[id] == rows[id].(
               status := if rows[id].retryCount >= max then DeadLetter else Queued, updatedAt := now))
      && (forall id :: id in after ==> !(after[id].status == InFlight && after[id].updatedAt < cutoff))
      && (forall id :: id in Requeueable(rows, cutoff, max) <==>
           id in rows && after[id].status == Queued && rows[id].status == InFlight)
  {
  }

  // ----- Every run ------------------------------------------------------------------

  function Run(events: seq<Event>): Table { After(map[], events) }

  /** Every id a run has put in the table. */
  function Inserted(events: seq<Event>): set<Id> {
    if events == [] then {} else Inserted(Front(events)) + if Last(events).Insert? then {Last(events).id} else {}
  }

  predicate StepLegal(rows: Table, used: set<Id>, e: Event, max: int) {
    match e
    case Insert(id, row) =>
      id !in used && row.status.Queued? && row.retryCount == 0 && QueuedWith(rows, row.hash) == {}
    case Touch(id, _) => id in rows && rows[id].status.Queued?
    case Requeue(_, _, limit) => limit <= max
    case Purge(victims) => forall id :: id in victims ==> id in rows && rows[id].status.Acknowledged?
    case _ => true
  }

  /** The statements run as the repository issues them, with fresh ids and no retry limit above `max`. */
  predicate Legal(events: seq<Event>, max: int) {
    || events == []
    || (Legal(Front(events), max) && StepLegal(Run(Front(events)), Inserted(Front(events)), Last(events), max))
  }

  /** Enqueueing with a fresh identifier is always legal, so runs may contain any number of scan cycles. */
  lemma EnqueueIsLegal(
      events: seq<Event>, e: Event, computeHash: (string, string) -> string, kind: string, payload: string,
      source: Option<string>, now: int, newId: Id, max: int)
    requires Legal(events, max) && newId !in Inserted(events)
    requires IsEnqueue(Run(events), e, computeHash, kind, payload, source, now, newId)
    ensures Legal(events + [e], max)
  {
    assert Front(events + [e]) == events;
    hide Apply;
  }

  /** How often an observation went in flight. */
  function Deliveries(events: seq<Event>, id: Id): nat {
    if events == [] then 0
    else
      var before, e := Run(Front(events)), Last(events);
      Deliveries(Front(events), id)
        + if e.Deliver? && e.id == id && id in before && before[id].status.Queued? then 1 else 0
  }

  function Most(max: int): nat { if max < 1 then 1 else max }

  ghost predicate Counted(events: seq<Event>, id: Id, max: int) {
    var rows := Run(events);
    && Deliveries(events, id) <= Most(max)
    && (id in rows ==> Deliveries(events, id) == rows[id].retryCount)
    && (id in rows && rows[id].status.Queued? ==> rows[id].retryCount < Most(max))
    && (id !in Inserted(events) ==> id !in rows && Deliveries(events, id) == 0)
  }

  lemma {:induction false} DeliveriesCounted(events: seq<Event>, id: Id, max: int)
    requires Legal(events, max)
    ensures Counted(events, id, max)
  {
    if events != [] {
      DeliveriesCounted(Front(events), id, max);
    }
  }

  /** No observation is delivered more often than the largest retry limit (or once, if that is below one). */
  lemma AtMostMaxDeliveries(events: seq<Event>, id: Id, max: int)
    requires Legal(events, max)
    ensures Deliveries(events, id) <= Most(max)
  {
    DeliveriesCounted(events, id, max);
  }

  /** One observation, delivered and put back again and again. */
  function Retried(id: Id, row: Row, n: nat, max: int): seq<Event> {
    if n == 0 then [Insert(id, row)]
    else if n == 1 then [Insert(id, row), Deliver(id, 0)]
    else Retried(id, row, n - 1, max) + [Requeue(0, 1, max), Deliver(id, 0)]
  }

  lemma OneMore(events: seq<Event>, e: Event, id: Id, max: int)
    requires Legal(events, max) && StepLegal(Run(events), Inserted(events), e, max)
    ensures Legal(events + [e], max) && Run(events + [e]) == Apply(Run(events), e)
    ensures Deliveries(events + [e], id) == Deliveries(events, id) +
      if e.Deliver? && e.id == id && id in Run(events) && Run(events)[id].status.Queued? then 1 else 0
  {
    assert Front(events + [e]) == events;
  }

  /** The only row of the table, after an update. */
  lemma ApplyToOne(id: Id, row: Row, e: Event)
    requires !e.Insert? && !Removes(id, row, e)
    ensures Apply(map[id := row], e) == map[id := RowAfter(id, row, e)]
  {
  }

  /** Under way for the n-th time since its only insertion. */
  ghost predicate OutFor(events: seq<Event>, id: Id, row: Row, n: nat, max: int) {
    && Legal(events, max) && Deliveries(events, id) == n
    && Run(events) == map[id := row.(status := InFlight, retryCount := n, updatedAt := 0)]
  }

  lemma FirstOut(id: Id, row: Row, max: int)
    requires row.status.Queued? && row.retryCount == 0
    ensures OutFor([Insert(id, row), Deliver(id, 0)], id, row, 1, max)
  {
    assert [Insert(id, row), Deliver(id, 0)] == ([] + [Insert(id, row)]) + [Deliver(id, 0)];
    OneMore([], Insert(id, row), id, max);
    assert Run([] + [Insert(id, row)]) == map[id := row];
    OneMore([] + [Insert(id, row)], Deliver(id, 0), id, max);
    ApplyToOne(id, row, Deliver(id, 0));
    hide Apply, Legal, Deliveries, After;
  }

  lemma OutAgain(events: seq<Event>, id: Id, row: Row, n: nat, max: int)
    requires OutFor(events, id, row, n, max) && 1 <= n < max
    ensures OutFor((events + [Requeue(0, 1, max)]) + [Deliver(id, 0)], id, row, n + 1, max)
  {
    var out := row.(status := InFlight, retryCount := n, updatedAt := 0);
    OneMore(events, Requeue(0, 1, max), id, max);
    ApplyToOne(id, out, Requeue(0, 1, max));
    var back := RowAfter(id, out, Requeue(0, 1, max));
    hide Apply, Legal, Deliveries, After;
    OneMore(events + [Requeue(0, 1, max)], Deliver(id, 0), id, max);
    ApplyToOne(id, back, Deliver(id, 0));
  }

  lemma {:induction false} RetriedRun(id: Id, row: Row, n: nat, max: int)
    requires row.status.Queued? && row.retryCount == 0 && 1 <= n <= Most(max)
    ensures OutFor(Retried(id, row, n, max), id, row, n, max)
  {
    hide OutFor;
    if n == 1 {
      FirstOut(id, row, max);
    } else {
      var events := Retried(id, row, n - 1, max);
      RetriedRun(id, row, n - 1, max);
      OutAgain(events, id, row, n - 1, max);
      assert Retried(id, row, n, max) == (events + [Requeue(0, 1, max)]) + [Deliver(id, 0)];
    }
  }

  /** The bound is exact: some legal run delivers one observation that often. */
  lemma BoundReached(id: Id, row: Row, max: int) returns (events: seq<Event>)
    requires row.status.Queued? && row.retryCount == 0
    ensures Legal(events, max) && Deliveries(events, id) == Most(max)
  {
    events := Retried(id, row, Most(max), max);
    RetriedRun(id, row, Most(max), max);
  }

  /** Settled for good: acknowledged, given up, or already pruned. */
  ghost predicate Finished(events: seq<Event>, id: Id) {
    id in Inserted(events) && (id in Run(events) ==> Settled(Run(events)[id]))
  }

  lemma LegalPrefix(events: seq<Event>, e: Event, max: int)
    requires Legal(events + [e], max)
    ensures Legal(events, max) && StepLegal(Run(events), Inserted(events), e, max)
  {
    assert Front(events + [e]) == events;
  }

  /** A settled observation is never delivered again, nor is one that has left the table. */
  lemma {:induction false} FinishedNeverDelivered(events: seq<Event>, later: seq<Event>, id: Id, max: int)
    requires Legal(events + later, max) && Finished(events, id)
    ensures Finished(events + later, id)
    ensures Deliveries(events + later, id) == Deliveries(events, id)
    decreases |later|
  {
    if later == [] {
      assert events + later == events;
    } else {
      assert Front(events + later) == events + Front(later) && Last(events + later) == Last(later);
      FinishedNeverDelivered(events, Front(later), id, max);
    }
  }

  function Removed(rows: Table, e: Event): set<Id> {
    set id | id in rows && Removes(id, rows[id], e)
  }

  /** The ids a run has removed from the table. */
  function Pruned(events: seq<Event>): set<Id> {
    if events == [] then {}
    else Pruned(Front(events)) + Removed(Run(Front(events)), Last(events))
  }

  lemma KeysStep(rows: Table, e: Event)
    ensures Apply(rows, e).Keys == (rows.Keys - Removed(rows, e)) + if e.Insert? then {e.id} else {}
    ensures Removed(rows, e) <= rows.Keys
  {
  }

  lemma StillApart(live: set<Id>, pruned: set<Id>, removed: set<Id>, added: set<Id>)
    requires live !! pruned && removed <= live && added !! (live + pruned)
    ensures (live + pruned) + added == ((live - removed) + added) + (pruned + removed)
    ensures (live - removed) + added !! pruned + removed
  {
  }

  lemma LiveCount(rows: Table, inserted: set<Id>, pruned: set<Id>)
    requires inserted == rows.Keys + pruned && rows.Keys !! pruned
    ensures |inserted| == |rows| + |pruned|
  {
    assert |rows.Keys| == |rows|;
  }

  /** Whatever was inserted is either live or pruned, never both. */
  lemma {:induction false} InsertedIsLiveOrPruned(events: seq<Event>, max: int)
    requires Legal(events, max)
    ensures Inserted(events) == Run(events).Keys + Pruned(events) && Run(events).Keys !! Pruned(events)
    ensures |Inserted(events)| == |Run(events)| + |Pruned(events)|
  {
    if events != [] {
      var front, e := Front(events), Last(events);
      InsertedIsLiveOrPruned(front, max);
      KeysStep(Run(front), e);
      assert e.Insert? ==> e.id !in Inserted(front);
      StillApart(Run(front).Keys, Pruned(front), Removed(Run(front), e), if e.Insert? then {e.id} else {});
      assert Run(events) == Apply(Run(front), e);
      hide *;
    }
    LiveCount(Run(events), Inserted(events), Pruned(events));
  }

  /** A statement takes only settled rows out of the table. */
  lemma OnlySettledLeave(events: seq<Event>, e: Event, id: Id, max: int)
    requires Legal(events + [e], max)
    requires id in Run(events) && id !in Run(events + [e])
    ensures Settled(Run(events)[id])
  {
    LegalPrefix(events, e, max);
    AfterSnoc(map[], events, e);
  }

  // ----- Duplicates -----------------------------------------------------------------

  /** The rows of a hash that a requeueing puts back. */
  function PutBack(rows: Table, e: Event, hash: string): set<Id> {
    if e.Requeue? then set id | id in Requeueable(rows, e.cutoff, e.max) && rows[id].hash == hash else {}
  }

  function Requeues(events: seq<Event>, hash: string): nat {
    if events == [] then 0
    else Requeues(Front(events), hash) + |PutBack(Run(Front(events)), Last(events), hash)|
  }

  lemma QueuedMember(rows: Table, id: Id, hash: string)
    requires id in rows && rows[id].status.Queued? && rows[id].hash == hash
    ensures QueuedWith(rows, hash) != {}
  {
    assert id in QueuedWith(rows, hash);
  }

  /** Only an insertion or a requeueing makes a row queued. */
  lemma QueuedComesFrom(rows: Table, used: set<Id>, e: Event, max: int, hash: string)
    requires StepLegal(rows, used, e, max)
    ensures
      if e.Insert? && e.row.hash == hash then QueuedWith(Apply(rows, e), hash) <= {e.id}
      else QueuedWith(Apply(rows, e), hash) <= QueuedWith(rows, hash) + PutBack(rows, e, hash)
  {
    forall id | id in QueuedWith(Apply(rows, e), hash)
      ensures
        if e.Insert? && e.row.hash == hash then id == e.id
        else id in QueuedWith(rows, hash) || id in PutBack(rows, e, hash)
    {
      if !(e.Insert? && e.id == id) {
        assert Apply(rows, e)[id] == RowAfter(id, rows[id], e);
        if e.Insert? && e.row.hash == hash {
          QueuedMember(rows, id, hash);
        }
      }
    }
  }

  lemma QueuedStep(rows: Table, used: set<Id>, e: Event, max: int, hash: string)
    requires StepLegal(rows, used, e, max)
    ensures
      if e.Insert? && e.row.hash == hash then |QueuedWith(Apply(rows, e), hash)| <= 1
      else |QueuedWith(Apply(rows, e), hash)| <= |QueuedWith(rows, hash)| + |PutBack(rows, e, hash)|
  {
    hide Apply, PutBack, QueuedWith, StepLegal;
    QueuedComesFrom(rows, used, e, max, hash);
    var before, after, back := QueuedWith(rows, hash), QueuedWith(Apply(rows, e), hash), PutBack(rows, e, hash);
    if e.Insert? && e.row.hash == hash {
      SubsetSize(after, {e.id});
    } else {
      SubsetSize(after, before + back);
    }
  }

  /** Two queued rows of one hash need a requeueing of that hash. */
  lemma {:induction false} DuplicatesAreRequeued(events: seq<Event>, hash: string, max: int)
    requires Legal(events, max)
    ensures |QueuedWith(Run(events), hash)| <= 1 + Requeues(events, hash)
  {
    if events != [] {
      DuplicatesAreRequeued(Front(events), hash, max);
      QueuedStep(Run(Front(events)), Inserted(Front(events)), Last(events), max, hash);
    }
  }
}
