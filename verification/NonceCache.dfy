// The replay cache and the freshness checks of a signed request (netra-api/src/middleware/auth.rs).
// Instants are nanoseconds. The skew check reads whole seconds off the wall clock, the cache the monotonic
// clock; how far the one falls behind the other is bounded by a lag.
module NonceCache {
  import opened MachineInts
  import opened Seqs

  const SECOND: int := 1_000_000_000

  // ----- The cache ----------------------------------------------------------------

  type Entries = map<string, int>

  function Live(entries: Entries, now: int, ttl: nat): Entries {
    map nonce | nonce in entries && now - entries[nonce] < ttl :: entries[nonce]
  }

  datatype Call = Call(nonce: string, now: int)

  predicate Accepts(entries: Entries, ttl: nat, call: Call) {
    call.nonce !in Live(entries, call.now, ttl)
  }

  function Recorded(entries: Entries, ttl: nat, call: Call): Entries {
    var live := Live(entries, call.now, ttl);
    if call.nonce in live then live else live[call.nonce := call.now]
  }

  class Cache {
    var entries: Entries
    const ttl: nat

    constructor (ttlSecs: nat)
      ensures entries == map[] && ttl == ttlSecs * 1_000_000_000
    {
      entries := map[];
      ttl := ttlSecs * SECOND;
    }

    method CheckAndRecord(nonce: string, now: int) returns (isFresh: bool)
      modifies this
      ensures isFresh == Accepts(old(entries), ttl, Call(nonce, now))
      ensures entries == Recorded(old(entries), ttl, Call(nonce, now))
      ensures isFresh <==> nonce in old(entries) ==> now - old(entries)[nonce] >= ttl
      ensures forall n ::
        if n in old(entries) && now - old(entries)[n] < ttl then n in entries && entries[n] == old(entries)[n]
        else (n in entries <==> n == nonce) && (n == nonce ==> entries[n] == now)
    {
      entries := map n | n in entries && now - entries[n] < ttl :: entries[n];
      if nonce in entries {
        isFresh := false;
      } else {
        entries := entries[nonce := now];
        isFresh := true;
      }
    }
  }

  /** The cache after a sequence of requests; None is a request turned away before it got to the cache. */
  function After(ttl: nat, calls: seq<Option<Call>>): Entries {
    if calls == [] then map[]
    else
      match Last(calls)
      case None => After(ttl, Front(calls))
      case Some(call) => Recorded(After(ttl, Front(calls)), ttl, call)
  }

  predicate AcceptedAt(ttl: nat, calls: seq<Option<Call>>, i: nat)
    requires i < |calls|
  {
    calls[i].Some? && Accepts(After(ttl, calls[..i]), ttl, calls[i].value)
  }

  /** The lock hands the cache out in the order of the monotonic clock. */
  predicate Ordered(calls: seq<Option<Call>>) {
    forall i, j :: 0 <= i < j < |calls| && calls[i].Some? && calls[j].Some? ==> calls[i].value.now <= calls[j].value.now
  }

  /** An accepted call for a nonce that is not yet a TTL old at some instant. */
  predicate Recent(ttl: nat, calls: seq<Option<Call>>, j: nat, nonce: string, now: int)
    requires j < |calls|
  {
    AcceptedAt(ttl, calls, j) && calls[j].value.nonce == nonce && now - calls[j].value.now < ttl
  }

  predicate Holds(ttl: nat, calls: seq<Option<Call>>, j: nat, nonce: string, time: int) {
    j < |calls| && AcceptedAt(ttl, calls, j) && calls[j].value == Call(nonce, time)
  }

  /** Every entry is an acceptance. */
  ghost predicate Sound(ttl: nat, calls: seq<Option<Call>>, entries: Entries) {
    forall nonce :: nonce in entries ==> exists j: nat :: Holds(ttl, calls, j, nonce, entries[nonce])
  }

  /** Every acceptance that is not yet a TTL old is an entry. */
  ghost predicate Complete(ttl: nat, calls: seq<Option<Call>>, entries: Entries, now: int) {
    forall j: nat, nonce, time :: Holds(ttl, calls, j, nonce, time) && now - time < ttl ==>
      nonce in entries && entries[nonce] == time
  }

  lemma HeldInFront(ttl: nat, calls: seq<Option<Call>>, j: nat, nonce: string, time: int)
    requires j + 1 < |calls|
    ensures Holds(ttl, calls, j, nonce, time) <==> Holds(ttl, Front(calls), j, nonce, time)
  {
    assert Front(calls)[..j] == calls[..j];
  }

  /** The last call is held exactly if the cache before it let it through. */
  lemma HeldLast(ttl: nat, calls: seq<Option<Call>>, nonce: string, time: int)
    requires calls != []
    ensures Holds(ttl, calls, |calls| - 1, nonce, time)
       <==> Last(calls) == Some(Call(nonce, time)) && Accepts(After(ttl, Front(calls)), ttl, Call(nonce, time))
  {
    assert calls[..|calls| - 1] == Front(calls);
  }

  lemma HeldBound(ttl: nat, calls: seq<Option<Call>>, j: nat, nonce: string, time: int)
    requires Holds(ttl, calls, j, nonce, time)
    ensures j < |calls| && calls[j] == Some(Call(nonce, time))
  {
  }

  lemma SoundStep(ttl: nat, calls: seq<Option<Call>>)
    requires calls != [] && Sound(ttl, Front(calls), After(ttl, Front(calls)))
    ensures Sound(ttl, calls, After(ttl, calls))
  {
    var before, entries := After(ttl, Front(calls)), After(ttl, calls);
    assert Last(calls).Some? ==> entries == Recorded(before, ttl, Last(calls).value);
    assert Last(calls).None? ==> entries == before;
    hide After, Holds;
    forall nonce | nonce in entries ensures exists j: nat :: Holds(ttl, calls, j, nonce, entries[nonce]) {
      if nonce in before && entries[nonce] == before[nonce] {
        var j: nat :| Holds(ttl, Front(calls), j, nonce, before[nonce]);
        HeldBound(ttl, Front(calls), j, nonce, before[nonce]);
        HeldInFront(ttl, calls, j, nonce, before[nonce]);
      } else {
        HeldLast(ttl, calls, nonce, entries[nonce]);
      }
    }
  }

  lemma CompleteStep(ttl: nat, calls: seq<Option<Call>>, now: int)
    requires calls != [] && Complete(ttl, Front(calls), After(ttl, Front(calls)), now)
    requires Last(calls).Some? ==> Last(calls).value.now == now
    ensures Complete(ttl, calls, After(ttl, calls), now)
  {
    var before, entries := After(ttl, Front(calls)), After(ttl, calls);
    assert Last(calls).Some? ==> entries == Recorded(before, ttl, Last(calls).value);
    assert Last(calls).None? ==> entries == before;
    hide After, Holds;
    forall j: nat, nonce, time | Holds(ttl, calls, j, nonce, time) && now - time < ttl
      ensures nonce in entries && entries[nonce] == time
    {
      HeldBound(ttl, calls, j, nonce, time);
      if j + 1 < |calls| {
        HeldInFront(ttl, calls, j, nonce, time);
      } else {
        HeldLast(ttl, calls, nonce, time);
      }
    }
  }

  /** Up to the time of its last call, the cache agrees with the whole history. */
  lemma {:induction false} AlwaysFaithful(ttl: nat, calls: seq<Option<Call>>, now: int)
    requires Ordered(calls)
    requires forall i :: 0 <= i < |calls| && calls[i].Some? ==> calls[i].value.now <= now
    ensures Sound(ttl, calls, After(ttl, calls)) && Complete(ttl, calls, After(ttl, calls), now)
  {
    if calls == [] {
    } else {
      hide After, Holds;
      var instant := if Last(calls).Some? then Last(calls).value.now else now;
      AlwaysFaithful(ttl, Front(calls), instant);
      SoundStep(ttl, calls);
      CompleteStep(ttl, calls, instant);
    }
  }

  /**
   * Despite the pruning, a call is accepted exactly if no earlier accepted call for its nonce is less
   * than a TTL old.
   */
  lemma AgreesWithHistory(ttl: nat, calls: seq<Option<Call>>, i: nat)
    requires Ordered(calls) && i < |calls| && calls[i].Some?
    ensures AcceptedAt(ttl, calls, i)
       <==> forall j: nat :: j < i ==> !Recent(ttl, calls, j, calls[i].value.nonce, calls[i].value.now)
  {
    var call, before := calls[i].value, calls[..i];
    var entries := After(ttl, before);
    AlwaysFaithful(ttl, before, call.now);
    forall j: nat, time | j < i ensures Holds(ttl, before, j, call.nonce, time)
      <==> AcceptedAt(ttl, calls, j) && calls[j].value == Call(call.nonce, time)
    {
      assert before[..j] == calls[..j];
    }
    hide After;
    if call.nonce in Live(entries, call.now, ttl) {
      var j: nat :| Holds(ttl, before, j, call.nonce, entries[call.nonce]);
      assert Recent(ttl, calls, j, call.nonce, call.now);
    } else {
      forall j: nat | j < i ensures !Recent(ttl, calls, j, call.nonce, call.now) {
        assert calls[j].Some? ==>
          !Holds(ttl, before, j, call.nonce, calls[j].value.now) || call.now - calls[j].value.now >= ttl;
      }
    }
  }

  /** Two accepted calls for one nonce lie at least a TTL apart. */
  lemma Spaced(ttl: nat, calls: seq<Option<Call>>, i: nat, j: nat)
    requires Ordered(calls) && i < j < |calls| && AcceptedAt(ttl, calls, i) && AcceptedAt(ttl, calls, j)
    requires calls[i].value.nonce == calls[j].value.nonce
    ensures calls[j].value.now - calls[i].value.now >= ttl
  {
    AgreesWithHistory(ttl, calls, j);
    assert !Recent(ttl, calls, i, calls[j].value.nonce, calls[j].value.now);
  }

  // ----- Requests -------------------------------------------------------------------

  /** The wall clock is read first, the cache is reached at some later instant. */
  datatype Request = Request(nonce: string, timestamp: i64, checked: int, recorded: int)

  /** Whole seconds shown by the wall clock. */
  function Wall(instant: int): int { instant / SECOND }

  function WrapI64(n: int): i64 {
    (n + 0x8000_0000_0000_0000) % 0x1_0000_0000_0000_0000 - 0x8000_0000_0000_0000
  }

  /** `(now_ts - req_timestamp).abs() <= skew`, on i64 without overflow checks. */
  predicate Timely(now: i64, timestamp: i64, skew: nat) {
    var difference: int := WrapI64(now - timestamp);
    WrapI64(if difference < 0 then -difference else difference) <= skew
  }

  /**
   * Which timestamps are let through, for all readings and all skews: the nearby ones, and by wrap-around
   * those 2^64 seconds further on and the one exactly 2^63 seconds away.
   */
  lemma TimelyExactly(now: i64, timestamp: i64, skew: nat)
    ensures
      var distance := if now < timestamp then timestamp - now else now - timestamp;
      Timely(now, timestamp, skew) <==> distance <= skew || distance >= TWO_64 - skew || distance == TWO_63
  {
  }

  /**
   * Requests on a sane clock, handed to the cache in order, each at most `lag` after its skew check: the
   * time that passed in between, and whatever the wall clock has been set back by meanwhile or before.
   */
  ghost predicate Plausible(requests: seq<Request>, lag: nat) {
    && (forall i :: 0 <= i < |requests| ==>
         && 0 <= Wall(requests[i].checked) < 0x4000_0000_0000_0000
         && requests[i].checked <= requests[i].recorded <= requests[i].checked + lag)
    && (forall i, j :: 0 <= i < j < |requests| ==> requests[i].recorded <= requests[j].recorded)
  }

  /** What the cache is asked. */
  function Asked(requests: seq<Request>, skew: nat): (calls: seq<Option<Call>>)
    requires forall i :: 0 <= i < |requests| ==> 0 <= Wall(requests[i].checked) < 0x4000_0000_0000_0000
  {
    seq(|requests|, i requires 0 <= i < |requests| =>
      if Timely(Wall(requests[i].checked), requests[i].timestamp, skew)
      then Some(Call(requests[i].nonce, requests[i].recorded)) else None)
  }

  ghost predicate Passes(requests: seq<Request>, ttlSecs: nat, skew: nat, i: nat) {
    && i < |requests|
    && (forall i :: 0 <= i < |requests| ==> 0 <= Wall(requests[i].checked) < 0x4000_0000_0000_0000)
    && AcceptedAt(ttlSecs * SECOND, Asked(requests, skew), i)
  }

  /** The same nonce and timestamp pass both checks twice. */
  ghost predicate PassesTwice(requests: seq<Request>, ttlSecs: nat, skew: nat, i: nat, j: nat) {
    && i < j < |requests|
    && requests[i].nonce == requests[j].nonce && requests[i].timestamp == requests[j].timestamp
    && Passes(requests, ttlSecs, skew, i) && Passes(requests, ttlSecs, skew, j)
  }

  /** The TTL outlasts every pair of instants at which one timestamp is timely. */
  predicate Outlasts(ttlSecs: nat, skew: nat, lag: nat) {
    ttlSecs * SECOND >= (2 * skew + 1) * SECOND + lag
  }

  /** Two calls in a row are both accepted if their nonces differ or the first has expired. */
  lemma BothAccepted(ttl: nat, calls: seq<Option<Call>>, a: Call, b: Call)
    requires calls == [Some(a), Some(b)] && (a.nonce != b.nonce || b.now - a.now >= ttl)
    ensures AcceptedAt(ttl, calls, 0) && AcceptedAt(ttl, calls, 1)
  {
    assert calls[..0] == [] && calls[..1] == [Some(a)];
    assert Front(calls[..1]) == [];
    assert After(ttl, calls[..1]) == map[a.nonce := a.now];
  }

  lemma AcceptedAsked(ttl: nat, calls: seq<Option<Call>>, i: nat)
    requires i < |calls| && AcceptedAt(ttl, calls, i)
    ensures calls[i].Some?
  {
  }

  lemma TimelySpan(a: Request, b: Request, skew: nat, lag: nat)
    requires skew < 0x4000_0000_0000_0000 && a.timestamp == b.timestamp
    requires 0 <= Wall(a.checked) < 0x4000_0000_0000_0000 && 0 <= Wall(b.checked) < 0x4000_0000_0000_0000
    requires a.checked <= a.recorded <= a.checked + lag && b.checked <= b.recorded <= b.checked + lag
    requires Timely(Wall(a.checked), a.timestamp, skew) && Timely(Wall(b.checked), b.timestamp, skew)
    ensures b.recorded - a.recorded < (2 * skew + 1) * SECOND + lag
  {
    hide Timely;
    TimelyExactly(Wall(a.checked), a.timestamp, skew);
    TimelyExactly(Wall(b.checked), b.timestamp, skew);
    assert Wall(b.checked) - Wall(a.checked) <= 2 * skew;
  }

  lemma PassesOnce(requests: seq<Request>, ttlSecs: nat, skew: nat, lag: nat, i: nat, j: nat)
    requires Plausible(requests, lag) && skew < 0x4000_0000_0000_0000 && Outlasts(ttlSecs, skew, lag)
    ensures !PassesTwice(requests, ttlSecs, skew, i, j)
  {
    if PassesTwice(requests, ttlSecs, skew, i, j) {
      TimelySpan(requests[i], requests[j], skew, lag);
      Spaced(ttlSecs * SECOND, Asked(requests, skew), i, j);
    }
  }

  ghost predicate AtMostOnce(ttlSecs: nat, skew: nat, lag: nat) {
    forall requests, i: nat, j: nat :: Plausible(requests, lag) ==> !PassesTwice(requests, ttlSecs, skew, i, j)
  }

  /** A request at the two ends of the span in which its timestamp is timely. */
  lemma ReplayAfterTtl(ttlSecs: nat, skew: nat, lag: nat) returns (requests: seq<Request>)
    requires skew < 0x1000_0000_0000_0000 && !Outlasts(ttlSecs, skew, lag)
    ensures Plausible(requests, lag) && PassesTwice(requests, ttlSecs, skew, 0, 1)
  {
    var last := (2 * skew + 1) * SECOND - 1;
    var first, second := Request("", skew, 0, 0), Request("", skew, last, last + lag);
    requests := [first, second];
    assert Wall(last) == 2 * skew;
    TimelyExactly(0, skew, skew);
    TimelyExactly(2 * skew, skew, skew);
    var calls := Asked(requests, skew);
    BothAccepted(ttlSecs * SECOND, calls, Call("", 0), Call("", last + lag));
  }

  /**
   * One (nonce, timestamp) passes at most once in every run exactly if the TTL outlasts the skew window
   * and the lag.
   */
  lemma AtMostOnceExactly(ttlSecs: nat, skew: nat, lag: nat)
    requires skew < 0x1000_0000_0000_0000
    ensures AtMostOnce(ttlSecs, skew, lag) <==> Outlasts(ttlSecs, skew, lag)
  {
    if Outlasts(ttlSecs, skew, lag) {
      forall requests, i: nat, j: nat | Plausible(requests, lag)
        ensures !PassesTwice(requests, ttlSecs, skew, i, j)
      {
        PassesOnce(requests, ttlSecs, skew, lag, i, j);
      }
    } else {
      var requests := ReplayAfterTtl(ttlSecs, skew, lag);
    }
  }

  /** Without lag the TTL has to exceed twice the skew: the defaults, 600 s and 300 s, are just short of it. */
  lemma DefaultsAreShort()
    ensures forall ttlSecs: nat, skew: nat :: Outlasts(ttlSecs, skew, 0) <==> ttlSecs > 2 * skew
    ensures !AtMostOnce(600, 300, 0) && AtMostOnce(601, 300, 0)
  {
    AtMostOnceExactly(600, 300, 0);
    AtMostOnceExactly(601, 300, 0);
  }
}
