// The clean-shutdown protocol (storage/marker.rs) as single filesystem steps, with a crash of the
// process possible between any two. Filesystem operations that run succeed.
module SessionMarker {
  import opened Seqs

  datatype Session = Session(pid: nat, id: string)

  /** The active file: missing, not (yet) readable as a session, or naming one. */
  datatype Active = Absent | Garbage | Holds(session: Session)

  datatype Disk = Disk(active: Active, clean: bool, tmp: bool)

  /** What reading the active file tells an acquiring process. */
  datatype Inspection = Locked(pid: nat) | Free(unclean: bool, previous: Option<Session>)

  function Inspect(active: Active, pid: nat, alive: bool): Inspection {
    match active
    case Holds(session) => if session.pid != pid && alive then Locked(session.pid) else Free(true, Some(session))
    case _ => Free(false, None)
  }

  datatype Acquisition = Refused(pid: nat) | Acquired(unclean: bool, id: string, previous: Option<Session>)

  /** A process between two filesystem steps of an acquisition or a release. */
  datatype Process =
    | Down
    | Inspecting(session: Session)
    | Checking(session: Session, unclean: bool, previous: Option<Session>)
    | Removing(session: Session, unclean: bool, previous: Option<Session>)
    | Truncating(session: Session, unclean: bool, previous: Option<Session>)
    | Writing(session: Session, unclean: bool, previous: Option<Session>)
    | Open(session: Session, unclean: bool, previous: Option<Session>)
    | Leaving(session: Session)
    | Creating(session: Session)
    | Renaming(session: Session)

  /** One filesystem step; `alive` is whether the process named in the active file is running. */
  function DiskAfter(disk: Disk, p: Process): Disk {
    match p
    case Removing(_, _, _) => disk.(clean := false)
    case Truncating(_, _, _) => disk.(active := Garbage)
    case Writing(session, _, _) => disk.(active := Holds(session))
    case Leaving(_) => disk.(active := Absent)
    case Creating(_) => disk.(tmp := true)
    case Renaming(_) => disk.(tmp := false, clean := true)
    case _ => disk
  }

  function ProcessAfter(disk: Disk, p: Process, alive: bool): Process {
    match p
    case Inspecting(session) =>
      (match Inspect(disk.active, session.pid, alive)
       case Locked(_) => Down
       case Free(unclean, previous) => Checking(session, unclean, previous))
    case Checking(session, unclean, previous) => Removing(session, unclean || !disk.clean, previous)
    case Removing(session, unclean, previous) => Truncating(session, unclean, previous)
    case Truncating(session, unclean, previous) => Writing(session, unclean, previous)
    case Writing(session, unclean, previous) => Open(session, unclean, previous)
    case Leaving(session) => Creating(session)
    case Creating(session) => Renaming(session)
    case Renaming(_) => Down
    case Down => Down
    case Open(_, _, _) => p
  }

  // ----- The two operations ---------------------------------------------------------

  /** Undisturbed steps of one process. */
  function Alone(disk: Disk, p: Process, alive: bool, steps: nat): (Disk, Process)
    decreases steps
  {
    if steps == 0 then (disk, p) else Alone(DiskAfter(disk, p), ProcessAfter(disk, p, alive), alive, steps - 1)
  }

  lemma {:induction false} DownStays(disk: Disk, alive: bool, steps: nat)
    ensures Alone(disk, Down, alive, steps) == (disk, Down)
  {
    if steps > 0 {
      DownStays(disk, alive, steps - 1);
    }
  }

  lemma AcquireAlone(disk: Disk, session: Session, alive: bool)
    ensures Alone(disk, Inspecting(session), alive, 5) ==
      match Inspect(disk.active, session.pid, alive)
      case Locked(_) => (disk, Down)
      case Free(stale, previous) =>
        (Disk(Holds(session), false, disk.tmp), Open(session, stale || !disk.clean, previous))
  {
    var p1 := ProcessAfter(disk, Inspecting(session), alive);
    if p1.Down? {
      DownStays(disk, alive, 4);
    } else {
      var unclean := p1.unclean || !disk.clean;
      var d3 := disk.(clean := false);
      var d4 := d3.(active := Garbage);
      assert Alone(disk, p1, alive, 4) == Alone(disk, Removing(session, unclean, p1.previous), alive, 3);
      assert Alone(disk, Removing(session, unclean, p1.previous), alive, 3)
          == Alone(d3, Truncating(session, unclean, p1.previous), alive, 2);
      assert Alone(d3, Truncating(session, unclean, p1.previous), alive, 2)
          == Alone(d4, Writing(session, unclean, p1.previous), alive, 1);
      assert Alone(d4, Writing(session, unclean, p1.previous), alive, 1)
          == Alone(d4.(active := Holds(session)), Open(session, unclean, p1.previous), alive, 0);
    }
  }

  lemma ReleaseAlone(disk: Disk, session: Session)
    ensures Alone(disk, Leaving(session), true, 3) == (Disk(Absent, true, false), Down)
  {
    var d1 := disk.(active := Absent);
    assert Alone(disk, Leaving(session), true, 3) == Alone(d1, Creating(session), true, 2);
    assert Alone(d1, Creating(session), true, 2) == Alone(d1.(tmp := true), Renaming(session), true, 1);
    assert Alone(d1.(tmp := true), Renaming(session), true, 1) == Alone(Disk(Absent, true, false), Down, true, 0);
  }

  class StorageDirectory {
    var active: Active
    var clean: bool
    var tmp: bool

    function View(): Disk reads this { Disk(active, clean, tmp) }

    method AcquireSession(pid: nat, id: string, alive: bool) returns (result: Acquisition)
      modifies this
      ensures
        if old(active).Holds? && old(active).session.pid != pid && alive
        then result == Refused(old(active).session.pid) && View() == old(View())
        else
          && result.Acquired? && result.id == id
          && (result.unclean <==> old(active).Holds? || !old(clean))
          && result.previous == (if old(active).Holds? then Some(old(active).session) else None)
          && View() == Disk(Holds(Session(pid, id)), false, old(tmp))
      ensures
        var p := Alone(old(View()), Inspecting(Session(pid, id)), alive, 5);
        && View() == p.0
        && p.1 == if result.Refused? then Down else Open(Session(pid, id), result.unclean, result.previous)
    {
      AcquireAlone(old(View()), Session(pid, id), alive);
      var previousSession, isUnclean := None, false;
      if active.Holds? {
        var session := active.session;
        if session.pid != pid && alive {
          return Refused(session.pid);
        }
        previousSession := Some(session);
        isUnclean := true;
      }
      if !clean {
        isUnclean := true;
      }
      if clean {
        clean := false;
      }
      active := Garbage;
      active := Holds(Session(pid, id));
      result := Acquired(isUnclean, id, previousSession);
    }

    method ReleaseSession(ghost holder: Session)
      modifies this
      ensures View() == Alone(old(View()), Leaving(holder), true, 3).0 == Disk(Absent, true, false)
    {
      ReleaseAlone(old(View()), holder);
      if !active.Absent? {
        active := Absent;
      }
      tmp := true;
      tmp, clean := false, true;
    }
  }

  // ----- Runs with crashes ------------------------------------------------------------

  datatype Event =
    | Acquire(session: Session)
    | Release
    | Advance(alive: bool)
    | Crash

  /** The session opened last, and whether its release got to the final rename. */
  datatype Opened = Opened(session: Session, released: bool)

  /**
   * The directory, the process, and two facts about the past: the last session, and whether an
   * acquisition died after it had taken the clean marker away.
   */
  datatype World = World(disk: Disk, process: Process, last: Option<Opened>, spoiled: bool)

  const START: World := World(Disk(Absent, false, false), Down, None, false)

  function Next(w: World, e: Event): World {
    match e
    case Acquire(session) => if w.process.Down? then w.(process := Inspecting(session)) else w
    case Release => if w.process.Open? then w.(process := Leaving(w.process.session)) else w
    case Crash => w.(process := Down, spoiled := w.spoiled || w.process.Truncating? || w.process.Writing?)
    case Advance(alive) =>
      World(
        DiskAfter(w.disk, w.process),
        ProcessAfter(w.disk, w.process, alive),
        if w.process.Writing? then Some(Opened(w.process.session, false))
        else if w.process.Renaming? && w.last.Some? then Some(w.last.value.(released := true))
        else w.last,
        if w.process.Renaming? then false else w.spoiled)
  }

  function Reach(events: seq<Event>): World {
    if events == [] then START else Next(Reach(Front(events)), Last(events))
  }

  /** The last session was shut down cleanly, and no later acquisition died half-way. */
  predicate CleanlyClosed(w: World) {
    w.last.Some? && w.last.value.released && !w.spoiled
  }

  ghost predicate Consistent(w: World) {
    && (w.disk.clean ==> w.disk.active.Absent?)
    && match w.process
       case Down => w.disk.clean <==> CleanlyClosed(w)
       case Inspecting(_) => w.disk.clean <==> CleanlyClosed(w)
       case Checking(_, unclean, _) => (w.disk.clean <==> CleanlyClosed(w)) && (unclean ==> !w.disk.clean)
       case Removing(_, unclean, _) => (w.disk.clean <==> CleanlyClosed(w)) && (unclean <==> !w.disk.clean)
       case Truncating(_, unclean, _) => !w.disk.clean && (unclean <==> !CleanlyClosed(w))
       case Writing(_, unclean, _) => !w.disk.clean && (unclean <==> !CleanlyClosed(w))
       case Open(session, _, _) =>
         !w.disk.clean && w.disk.active == Holds(session) && w.last == Some(Opened(session, false))
       case Leaving(session) =>
         !w.disk.clean && w.disk.active == Holds(session) && w.last == Some(Opened(session, false))
       case Creating(session) => !w.disk.clean && w.disk.active.Absent? && w.last == Some(Opened(session, false))
       case Renaming(session) =>
         !w.disk.clean && w.disk.active.Absent? && w.disk.tmp && w.last == Some(Opened(session, false))
  }

  lemma {:induction false} AlwaysConsistent(events: seq<Event>)
    ensures Consistent(Reach(events))
  {
    if events != [] {
      AlwaysConsistent(Front(events));
    }
  }

  /** A session is about to be opened. */
  predicate Opens(w: World, e: Event) { w.process.Writing? && e.Advance? }

  /**
   * In every run, an acquisition reports a clean restart exactly if the session opened last was
   * released through the final rename, and no acquisition since then died after taking the marker.
   */
  lemma UncleanExactly(events: seq<Event>, e: Event)
    requires Opens(Reach(events), e)
    ensures
      var w := Reach(events);
      var p := Reach(events + [e]).process;
      && p.Open? && p.session == w.process.session
      && (!p.unclean <==> CleanlyClosed(w))
  {
    AlwaysConsistent(events);
    assert Front(events + [e]) == events;
  }

  /** A release that completes leaves a directory from which the next undisturbed acquisition restarts cleanly. */
  lemma ReleaseThenAcquire(events: seq<Event>, e: Event, next: Session, alive: bool)
    requires Reach(events).process.Renaming? && e.Advance?
    ensures
      var w := Reach(events + [e]);
      && w.process.Down? && CleanlyClosed(w)
      && Alone(w.disk, Inspecting(next), alive, 5).1 == Open(next, false, None)
  {
    AlwaysConsistent(events);
    AlwaysConsistent(events + [e]);
    assert Front(events + [e]) == events;
    AcquireAlone(Reach(events + [e]).disk, next, alive);
  }

  /** While a session is open the live holder shuts every other process out, and refusal writes nothing. */
  lemma ContenderRefused(events: seq<Event>, contender: Session)
    requires Reach(events).process.Open? && contender.pid != Reach(events).process.session.pid
    ensures
      var w := Reach(events);
      && Inspect(w.disk.active, contender.pid, true) == Locked(w.process.session.pid)
      && Alone(w.disk, Inspecting(contender), true, 5) == (w.disk, Down)
  {
    AlwaysConsistent(events);
    AcquireAlone(Reach(events).disk, contender, true);
  }

  /** A process that is opening, holding or releasing a session. */
  function Owner(p: Process): Option<Session> {
    match p
    case Down => None
    case Inspecting(s) => Some(s)
    case Checking(s, _, _) => Some(s)
    case Removing(s, _, _) => Some(s)
    case Truncating(s, _, _) => Some(s)
    case Writing(s, _, _) => Some(s)
    case Open(s, _, _) => Some(s)
    case Leaving(s) => Some(s)
    case Creating(s) => Some(s)
    case Renaming(s) => Some(s)
  }

  /** The file names the process of the owner, and only that process is running. */
  predicate NamesOwner(w: World) {
    Owner(w.process).Some? && w.disk.active.Holds? && w.disk.active.session.pid == Owner(w.process).value.pid
  }

  /** Before its session is written, a process has emptied the file. */
  lemma {:induction false} AlwaysTruncated(events: seq<Event>)
    ensures Reach(events).process.Writing? ==> Reach(events).disk.active.Garbage?
  {
    if events != [] {
      AlwaysTruncated(Front(events));
    }
  }

  /**
   * A contender is shut out exactly while a session is open and until its release has removed the file.
   * While the owner is still acquiring, the contender gets in, unless the owner has the process id of a
   * session that was left behind.
   */
  lemma ContenderExactly(events: seq<Event>, contender: Session)
    requires Owner(Reach(events).process).Some? && contender.pid != Owner(Reach(events).process).value.pid
    ensures
      var w := Reach(events);
      Inspect(w.disk.active, contender.pid, NamesOwner(w)).Locked? <==>
        || w.process.Open? || w.process.Leaving?
        || ((w.process.Inspecting? || w.process.Checking? || w.process.Removing? || w.process.Truncating?)
            && NamesOwner(w))
  {
    AlwaysConsistent(events);
    AlwaysTruncated(events);
  }

  /** A crash while a session is open is reported, with that session, by the next acquisition. */
  lemma CrashWhileOpen(events: seq<Event>, next: Session, alive: bool)
    requires Reach(events).process.Open?
    requires alive ==> next.pid == Reach(events).process.session.pid
    ensures
      var w := Reach(events + [Crash]);
      Alone(w.disk, Inspecting(next), alive, 5).1 == Open(next, true, Some(Reach(events).process.session))
  {
    AlwaysConsistent(events);
    assert Front(events + [Crash]) == events;
    AcquireAlone(Reach(events + [Crash]).disk, next, alive);
  }

  // ----- Two processes ----------------------------------------------------------------

  /** Two running processes that both acquire a session in one directory. */
  datatype Race = Race(disk: Disk, first: Process, second: Process)

  datatype Contest = Contest(disk: Disk, a: Session, b: Session, foreignAlive: bool)

  /** Whether the process that the file names is running: one of the two, or a foreign one. */
  predicate Alive(c: Contest, active: Active) {
    active.Holds? && (active.session.pid in {c.a.pid, c.b.pid} || c.foreignAlive)
  }

  datatype Turn = First | Second

  function Other(t: Turn): Turn { if t.First? then Second else First }

  function Moved(c: Contest, r: Race, t: Turn): Race {
    var alive := Alive(c, r.disk.active);
    if t.First?
    then Race(DiskAfter(r.disk, r.first), ProcessAfter(r.disk, r.first, alive), r.second)
    else Race(DiskAfter(r.disk, r.second), r.first, ProcessAfter(r.disk, r.second, alive))
  }

  function Raced(c: Contest, schedule: seq<Turn>): Race {
    if schedule == [] then Race(c.disk, Inspecting(c.a), Inspecting(c.b))
    else Moved(c, Raced(c, Front(schedule)), Last(schedule))
  }

  /** How many steps a process has had. */
  function Took(schedule: seq<Turn>, t: Turn): nat {
    if schedule == [] then 0 else Took(Front(schedule), t) + if Last(schedule) == t then 1 else 0
  }

  /** How many steps the other process had when this one made its first, or has had if it made none. */
  function Ahead(schedule: seq<Turn>, t: Turn): nat {
    if schedule == [] then 0
    else if Took(Front(schedule), t) == 0 && Last(schedule) != t then Ahead(Front(schedule), t) + 1
    else Ahead(Front(schedule), t)
  }

  function Mine(c: Contest, t: Turn): Session { if t.First? then c.a else c.b }

  /** The file left behind names a running process other than this one. */
  predicate ShutOut(c: Contest, t: Turn) {
    Inspect(c.disk.active, Mine(c, t).pid, Alive(c, c.disk.active)).Locked?
  }

  /**
   * When a process gets in. The file left behind may shut it out; then its only chance is the moment at
   * which the other one has emptied the file. Otherwise it has to look before the other one has written it.
   */
  predicate GetsIn(c: Contest, schedule: seq<Turn>, t: Turn) {
    if ShutOut(c, t) then !ShutOut(c, Other(t)) && Ahead(schedule, t) == 4
    else ShutOut(c, Other(t)) || Ahead(schedule, t) < 5
  }

  /** How far an acquisition has come after a number of steps. */
  predicate StageAt(p: Process, session: Session, steps: nat) {
    match steps
    case 0 => p == Inspecting(session)
    case 1 => p.Checking? && p.session == session
    case 2 => p.Removing? && p.session == session
    case 3 => p.Truncating? && p.session == session
    case 4 => p.Writing? && p.session == session
    case _ => p.Open? && p.session == session
  }

  predicate Placed(c: Contest, schedule: seq<Turn>, t: Turn, p: Process) {
    if Took(schedule, t) == 0 || GetsIn(c, schedule, t) then StageAt(p, Mine(c, t), Took(schedule, t)) else p.Down?
  }

  /** What a process finds in the file as long as it has not moved itself. */
  function Found(c: Contest, t: Turn, steps: nat): Active {
    if ShutOut(c, t) || steps < 4 then c.disk.active
    else if steps == 4 then Garbage
    else Holds(Mine(c, t))
  }

  predicate Tracked(c: Contest, schedule: seq<Turn>) {
    var r := Raced(c, schedule);
    && Placed(c, schedule, First, r.first) && Placed(c, schedule, Second, r.second)
    && (Took(schedule, First) == 0 ==> r.disk.active == Found(c, Second, Took(schedule, Second)))
    && (Took(schedule, Second) == 0 ==> r.disk.active == Found(c, First, Took(schedule, First)))
  }

  lemma {:induction false} AheadBeforeFirst(schedule: seq<Turn>, t: Turn)
    ensures Took(schedule, t) == 0 ==> Ahead(schedule, t) == Took(schedule, Other(t))
    ensures Took(schedule, Other(t)) == 0 ==> Ahead(schedule, t) == 0
  {
    if schedule != [] {
      AheadBeforeFirst(Front(schedule), t);
    }
  }

  lemma {:induction false} AlwaysTracked(c: Contest, schedule: seq<Turn>)
    requires c.a.pid != c.b.pid
    ensures Tracked(c, schedule)
  {
    AheadBeforeFirst(schedule, First);
    AheadBeforeFirst(schedule, Second);
    if schedule != [] {
      AlwaysTracked(c, Front(schedule));
      AheadBeforeFirst(Front(schedule), First);
      AheadBeforeFirst(Front(schedule), Second);
    }
  }

  /**
   * Which of two racing processes get in, for every schedule in which both come to an end and whatever
   * was left behind: those and no others for which `GetsIn` holds.
   */
  lemma RaceExactly(c: Contest, schedule: seq<Turn>)
    requires c.a.pid != c.b.pid && Took(schedule, First) >= 5 && Took(schedule, Second) >= 5
    ensures
      var r := Raced(c, schedule);
      && (if GetsIn(c, schedule, First) then r.first.Open? && r.first.session == c.a else r.first.Down?)
      && (if GetsIn(c, schedule, Second) then r.second.Open? && r.second.session == c.b else r.second.Down?)
  {
    AlwaysTracked(c, schedule);
  }

  lemma {:induction false} SomeoneMoved(schedule: seq<Turn>)
    ensures Took(schedule, First) + Took(schedule, Second) == |schedule|
  {
    if schedule != [] {
      SomeoneMoved(Front(schedule));
    }
  }

  /** The first to move has nobody ahead of it, so one of the two gets in unless both are shut out. */
  lemma {:induction false} OneGetsIn(c: Contest, schedule: seq<Turn>)
    requires schedule != []
    ensures Ahead(schedule, First) == 0 || Ahead(schedule, Second) == 0
    ensures !(ShutOut(c, First) && ShutOut(c, Second)) ==> GetsIn(c, schedule, First) || GetsIn(c, schedule, Second)
  {
    if |schedule| > 1 {
      OneGetsIn(c, Front(schedule));
      if Took(Front(schedule), First) == 0 && Took(Front(schedule), Second) == 0 {
        SomeoneMoved(Front(schedule));
      }
    }
  }

  function Turns(t: Turn, n: nat): seq<Turn> { if n == 0 then [] else Turns(t, n - 1) + [t] }

  lemma {:induction false} MoreTurns(schedule: seq<Turn>, t: Turn, n: nat)
    ensures
      var more := schedule + Turns(t, n);
      && Took(more, t) == Took(schedule, t) + n && Took(more, Other(t)) == Took(schedule, Other(t))
      && Ahead(more, t) == Ahead(schedule, t)
      && Ahead(more, Other(t)) == Ahead(schedule, Other(t)) + if Took(schedule, Other(t)) == 0 then n else 0
  {
    if n == 0 {
      assert schedule + Turns(t, 0) == schedule;
    } else {
      MoreTurns(schedule, t, n - 1);
      assert schedule + Turns(t, n) == (schedule + Turns(t, n - 1)) + [t];
      assert Front(schedule + Turns(t, n)) == schedule + Turns(t, n - 1);
    }
  }

  predicate BothIn(c: Contest, schedule: seq<Turn>) {
    Raced(c, schedule).first.Open? && Raced(c, schedule).second.Open?
  }

  /** In no schedule do both processes hold the session. */
  ghost predicate Exclusive(c: Contest) { forall schedule: seq<Turn> :: !BothIn(c, schedule) }

  /** One process stops just before it writes the file, the other one acquires, the first one goes on. */
  lemma BothGetIn(c: Contest, t: Turn) returns (schedule: seq<Turn>)
    requires c.a.pid != c.b.pid && !ShutOut(c, t)
    ensures BothIn(c, schedule)
  {
    var begun := [] + Turns(t, 4);
    var overtaken := begun + Turns(Other(t), 5);
    schedule := overtaken + Turns(t, 1);
    MoreTurns([], t, 4);
    MoreTurns(begun, Other(t), 5);
    MoreTurns(overtaken, t, 1);
    hide Turns, Raced, ShutOut;
    RaceExactly(c, schedule);
  }

  /** The session is exclusive exactly if a running process that is neither of the two holds it already. */
  lemma ExclusiveExactly(c: Contest)
    requires c.a.pid != c.b.pid
    ensures Exclusive(c) <==> ShutOut(c, First) && ShutOut(c, Second)
  {
    if ShutOut(c, First) && ShutOut(c, Second) {
      forall schedule ensures !BothIn(c, schedule) {
        AlwaysTracked(c, schedule);
        hide Raced;
      }
    } else {
      var schedule := BothGetIn(c, if ShutOut(c, First) then Second else First);
    }
  }
}
