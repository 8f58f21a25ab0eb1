// Sequence vocabulary shared by the models: flat mapping, stable sorting and the
// order of strings, each with the permutation laws the determinism results rest on.
//
// The loops of the models extend a sequence at its end, so functions over sequences recurse on all
// but the last element. A flat map is described by members, by length and by the places it takes its
// elements from; a sort by order, contents and stability.
module Seqs {

  datatype Option<+T> = None | Some(value: T)

  /** Last element excluded; the loops of the models extend a sequence at its end. */
  function Front<T>(xs: seq<T>): seq<T>
    requires xs != []
  {
    xs[..|xs| - 1]
  }

  function Last<T>(xs: seq<T>): T
    requires xs != []
  {
    xs[|xs| - 1]
  }

  lemma Associative<T>(a: seq<T>, b: seq<T>, c: seq<T>)
    ensures (a + b) + c == a + (b + c)
  {
  }

  /** Moving the head of what is left to the end of what is done. */
  lemma Shift<T>(done: seq<T>, x: T, rest: seq<T>)
    ensures done + ([x] + rest) == (done + [x]) + rest
    ensures Front(done + [x]) == done && Last(done + [x]) == x
  {
  }

  lemma FrontLast<T>(xs: seq<T>)
    requires xs != []
    ensures Front(xs) + [Last(xs)] == xs
  {
  }

  lemma Slice<T>(xs: seq<T>, a: nat, b: nat, i: nat, j: nat)
    requires a <= b <= |xs| && i <= j <= b - a
    ensures xs[a..b][i..j] == xs[a + i..a + j]
  {
    var inner, direct := xs[a..b][i..j], xs[a + i..a + j];
    assert forall k :: 0 <= k < j - i ==> inner[k] == xs[a..b][i + k] == direct[k];
  }

  /** The concatenation of the images of the elements, in order. */
  function FlatMap<T, U>(xs: seq<T>, f: T -> seq<U>): seq<U> {
    if xs == [] then [] else FlatMap(Front(xs), f) + f(Last(xs))
  }

  lemma {:induction false} FlatMapAppend<T, U>(a: seq<T>, b: seq<T>, f: T -> seq<U>)
    ensures FlatMap(a + b, f) == FlatMap(a, f) + FlatMap(b, f)
  {
    if b == [] {
      assert a + b == a;
    } else {
      assert Front(a + b) == a + Front(b) && Last(a + b) == Last(b);
      FlatMapAppend(a, Front(b), f);
      Associative(FlatMap(a, f), FlatMap(Front(b), f), f(Last(b)));
    }
  }

  lemma NothingMapped<T, U>(xs: seq<T>, f: T -> seq<U>)
    ensures FlatMap(xs[..0], f) == []
  {
  }

  lemma AllTaken<T>(xs: seq<T>)
    ensures xs[..|xs|] == xs
  {
  }

  lemma {:induction false} FlatMapStep<T, U>(xs: seq<T>, i: nat, f: T -> seq<U>)
    requires i < |xs|
    ensures FlatMap(xs[..i + 1], f) == FlatMap(xs[..i], f) + f(xs[i])
  {
    assert Front(xs[..i + 1]) == xs[..i];
  }

  lemma {:induction false} FlatMapMembers<T, U>(xs: seq<T>, f: T -> seq<U>, u: U)
    ensures u in FlatMap(xs, f) <==> exists x :: x in xs && u in f(x)
  {
    if xs != [] {
      FlatMapMembers(Front(xs), f, u);
      assert xs == Front(xs) + [Last(xs)];
    }
  }

  /** Places of the elements with a property. */
  function Places<T>(xs: seq<T>, p: T -> bool): set<nat> { set i: nat | i < |xs| && p(xs[i]) }

  lemma PlacesSnoc<T>(xs: seq<T>, p: T -> bool)
    requires xs != []
    ensures |Places(xs, p)| == |Places(Front(xs), p)| + if p(Last(xs)) then 1 else 0
  {
    var before := Places(Front(xs), p);
    if p(Last(xs)) {
      assert Places(xs, p) == before + {|xs| - 1};
    } else {
      assert Places(xs, p) == before;
    }
  }

  /** A flat map of single elements is as long as there are elements that yield one. */
  lemma {:induction false} FlatMapLength<T, U>(xs: seq<T>, f: T -> seq<U>, p: T -> bool)
    requires forall x :: x in xs ==> |f(x)| == if p(x) then 1 else 0
    ensures |FlatMap(xs, f)| == |Places(xs, p)|
  {
    if xs == [] {
      assert Places(xs, p) == {};
    } else {
      FlatMapLength(Front(xs), f, p);
      PlacesSnoc(xs, p);
    }
  }

  /** Places in ascending order, the last one before `n`. */
  predicate Upwards(places: seq<nat>, n: nat) {
    && (forall i, j :: 0 <= i < j < |places| ==> places[i] < places[j])
    && forall i :: 0 <= i < |places| ==> places[i] < n
  }

  /** What is taken comes in order from the places that yield something. */
  ghost predicate TakenAt<T, U>(xs: seq<T>, f: T -> seq<U>, taken: seq<U>, places: seq<nat>) {
    && Upwards(places, |xs|) && |places| == |taken|
    && (forall i :: 0 <= i < |places| ==> f(xs[places[i]]) == [taken[i]])
    && forall k :: 0 <= k < |xs| ==> (k in places <==> f(xs[k]) != [])
  }

  lemma TakeNothing<T, U>(front: seq<T>, x: T, f: T -> seq<U>, taken: seq<U>, places: seq<nat>)
    requires TakenAt(front, f, taken, places) && f(x) == []
    ensures TakenAt(front + [x], f, taken, places)
  {
    assert |front| !in places;
  }

  lemma TakeOne<T, U>(front: seq<T>, x: T, f: T -> seq<U>, taken: seq<U>, places: seq<nat>, u: U)
    requires TakenAt(front, f, taken, places) && f(x) == [u]
    ensures TakenAt(front + [x], f, taken + [u], places + [|front|])
  {
    var all, more := front + [x], places + [|front|];
    assert all[|front|] == x;
    forall k | 0 <= k < |all| ensures k in more <==> f(all[k]) != [] {
      assert k in more <==> k in places || k == |front|;
    }
  }

  /** A flat map that yields at most one element each takes them in order from the places that yield one. */
  lemma {:induction false} FlatMapPlaces<T, U>(xs: seq<T>, f: T -> seq<U>) returns (places: seq<nat>)
    requires forall x :: x in xs ==> |f(x)| <= 1
    ensures TakenAt(xs, f, FlatMap(xs, f), places)
  {
    places := [];
    if xs != [] {
      places := FlatMapPlaces(Front(xs), f);
      var taken := FlatMap(Front(xs), f);
      FrontLast(xs);
      if f(Last(xs)) == [] {
        assert FlatMap(xs, f) == taken;
        TakeNothing(Front(xs), Last(xs), f, taken, places);
      } else {
        assert f(Last(xs)) == [f(Last(xs))[0]];
        TakeOne(Front(xs), Last(xs), f, taken, places, f(Last(xs))[0]);
        places := places + [|xs| - 1];
      }
      hide TakenAt;
    }
  }

  lemma {:induction false} FlatMapSame<T, U>(xs: seq<T>, f: T -> seq<U>, g: T -> seq<U>)
    requires forall x :: x in xs ==> f(x) == g(x)
    ensures FlatMap(xs, f) == FlatMap(xs, g)
  {
    if xs != [] {
      FlatMapSame(Front(xs), f, g);
    }
  }

  lemma {:induction false} FlatMapSameBag<T, U>(xs: seq<T>, f: T -> seq<U>, g: T -> seq<U>)
    requires forall x :: x in xs ==> multiset(f(x)) == multiset(g(x))
    ensures multiset(FlatMap(xs, f)) == multiset(FlatMap(xs, g))
  {
    if xs != [] {
      FlatMapSameBag(Front(xs), f, g);
    }
  }

  /** An element of a sequence, taken out of it. */
  lemma Extract<T>(xs: seq<T>, x: T) returns (j: nat)
    requires x in xs
    ensures j < |xs| && xs[j] == x
    ensures xs == xs[..j] + [x] + xs[j + 1..]
    ensures multiset(xs) == multiset(xs[..j] + xs[j + 1..]) + multiset{x}
  {
    j :| 0 <= j < |xs| && xs[j] == x;
    assert xs == xs[..j] + [x] + xs[j + 1..];
  }

  lemma FlatMapAround<T, U>(left: seq<T>, x: T, right: seq<T>, f: T -> seq<U>)
    ensures multiset(FlatMap(left + [x] + right, f)) == multiset(FlatMap(left + right, f)) + multiset(f(x))
  {
    FlatMapAppend(left, right, f);
    FlatMapAppend(left + [x], right, f);
    assert Front(left + [x]) == left;
  }

  /** Permuting the input of a flat map permutes its output. */
  lemma {:induction false} FlatMapPermutation<T, U>(a: seq<T>, b: seq<T>, f: T -> seq<U>)
    requires multiset(a) == multiset(b)
    ensures multiset(FlatMap(a, f)) == multiset(FlatMap(b, f))
    decreases |a|
  {
    if a == [] {
      assert |b| == |multiset(b)| == 0;
    } else {
      var x := Last(a);
      assert a == Front(a) + [x];
      assert x in multiset(b);
      var j := Extract(b, x);
      var rest := b[..j] + b[j + 1..];
      assert multiset(a) == multiset(Front(a)) + multiset{x};
      assert multiset(Front(a)) == multiset(a) - multiset{x} == multiset(rest);
      FlatMapPermutation(Front(a), rest, f);
      FlatMapAround(b[..j], x, b[j + 1..], f);
    }
  }

  /** The concatenation of a list of pieces. */
  function Concat<T>(pieces: seq<seq<T>>): seq<T> {
    if pieces == [] then [] else Concat(Front(pieces)) + Last(pieces)
  }

  ghost predicate Distinct<T>(xs: seq<T>) {
    forall i, j :: 0 <= i < j < |xs| ==> xs[i] != xs[j]
  }

  lemma TwiceInBag<T>(xs: seq<T>, i: nat, j: nat)
    requires i < j < |xs| && xs[i] == xs[j]
    ensures multiset(xs)[xs[i]] >= 2
  {
    var left, right := xs[..j], xs[j..];
    assert xs == left + right;
    assert left[i] in multiset(left) && right[0] in multiset(right);
  }

  lemma {:induction false} OnceInBag<T>(xs: seq<T>, x: T)
    requires Distinct(xs)
    ensures multiset(xs)[x] <= 1
  {
    if xs != [] {
      OnceInBag(Front(xs), x);
      assert xs == Front(xs) + [Last(xs)];
      assert Last(xs) !in Front(xs);
    }
  }

  function Elements<T>(xs: seq<T>): set<T> { set x | x in xs }

  lemma {:induction false} DistinctSize<T>(xs: seq<T>)
    requires Distinct(xs)
    ensures |Elements(xs)| == |xs|
  {
    if xs != [] {
      DistinctSize(Front(xs));
      FrontLast(xs);
      assert Elements(xs) == Elements(Front(xs)) + {Last(xs)};
      forall k | 0 <= k < |xs| - 1 ensures Front(xs)[k] != Last(xs) {
      }
    }
  }

  lemma {:induction false} SubsetSize<T>(a: set<T>, b: set<T>)
    requires a <= b
    ensures |a| <= |b| && (|a| == |b| ==> a == b)
    decreases |a|
  {
    if a == {} {
      assert |b| == 0 ==> b == {};
    } else {
      var x :| x in a;
      SubsetSize(a - {x}, b - {x});
      assert a == (a - {x}) + {x} && b == (b - {x}) + {x};
    }
  }

  lemma DistinctPermutation<T>(a: seq<T>, b: seq<T>)
    requires Distinct(a) && multiset(a) == multiset(b)
    ensures Distinct(b)
  {
    forall i, j | 0 <= i < j < |b| ensures b[i] != b[j] {
      OnceInBag(a, b[i]);
      if b[i] == b[j] { TwiceInBag(b, i, j); }
    }
  }

  // ----- Stable sorting -------------------------------------------------------

  ghost predicate TotalPreorder<T(!new)>(leq: (T, T) -> bool) {
    && (forall x, y :: leq(x, y) || leq(y, x))
    && (forall x, y, z :: leq(x, y) && leq(y, z) ==> leq(x, z))
  }

  ghost predicate Antisymmetric<T(!new)>(leq: (T, T) -> bool) {
    forall x, y :: leq(x, y) && leq(y, x) ==> x == y
  }

  /** No two different elements of the list tie. */
  ghost predicate NoTies<T>(xs: seq<T>, leq: (T, T) -> bool) {
    forall x, y :: x in xs && y in xs && leq(x, y) && leq(y, x) ==> x == y
  }

  ghost predicate Sorted<T>(xs: seq<T>, leq: (T, T) -> bool) {
    forall i, j :: 0 <= i < j < |xs| ==> leq(xs[i], xs[j])
  }

  /** Places `x` before the first element that is not smaller, so equals keep their order. */
  function Insert<T>(x: T, xs: seq<T>, leq: (T, T) -> bool): seq<T> {
    if xs == [] || leq(x, xs[0]) then [x] + xs
    else [xs[0]] + Insert(x, xs[1..], leq)
  }

  function SortBy<T>(xs: seq<T>, leq: (T, T) -> bool): seq<T> {
    if xs == [] then [] else Insert(xs[0], SortBy(xs[1..], leq), leq)
  }

  lemma TailBag<T>(xs: seq<T>)
    requires xs != []
    ensures multiset(xs[1..]) == multiset(xs) - multiset{xs[0]}
  {
    assert xs == [xs[0]] + xs[1..];
  }

  lemma {:induction false} InsertBag<T>(x: T, xs: seq<T>, leq: (T, T) -> bool)
    ensures multiset(Insert(x, xs, leq)) == multiset(xs) + multiset{x}
  {
    if xs != [] && !leq(x, xs[0]) {
      InsertBag(x, xs[1..], leq);
      TailBag(xs);
    }
  }

  lemma {:induction false} InsertSorted<T(!new)>(x: T, xs: seq<T>, leq: (T, T) -> bool)
    requires TotalPreorder(leq) && Sorted(xs, leq)
    ensures Sorted(Insert(x, xs, leq), leq)
  {
    if xs != [] && !leq(x, xs[0]) {
      InsertSorted(x, xs[1..], leq);
      InsertBag(x, xs[1..], leq);
      var tail := Insert(x, xs[1..], leq);
      forall k | 0 <= k < |tail| ensures leq(xs[0], tail[k]) {
        assert tail[k] in multiset(tail);
      }
    } else if xs != [] {
      forall k | 0 <= k < |xs| ensures leq(x, xs[k]) {
        assert leq(xs[0], xs[k]);
      }
    }
  }

  /** A sort returns its input in order, with nothing lost or invented. */
  lemma {:induction false} SortBySorts<T(!new)>(xs: seq<T>, leq: (T, T) -> bool)
    requires TotalPreorder(leq)
    ensures Sorted(SortBy(xs, leq), leq)
    ensures multiset(SortBy(xs, leq)) == multiset(xs)
  {
    if xs != [] {
      SortBySorts(xs[1..], leq);
      InsertSorted(xs[0], SortBy(xs[1..], leq), leq);
      InsertBag(xs[0], SortBy(xs[1..], leq), leq);
      TailBag(xs);
    }
  }

  /** Keeps the elements that tie with this one. */
  function Ties<T>(x: T, leq: (T, T) -> bool): T -> seq<T> { (y: T) => if leq(x, y) && leq(y, x) then [y] else [] }

  lemma {:induction false} FlatMapHead<T, U>(x: T, xs: seq<T>, f: T -> seq<U>)
    ensures FlatMap([x] + xs, f) == f(x) + FlatMap(xs, f)
  {
    FlatMapAppend([x], xs, f);
    assert Front([x]) == [];
  }

  lemma SwapEmpty<T>(a: seq<T>, b: seq<T>, c: seq<T>)
    requires a == [] || b == []
    ensures a + (b + c) == b + (a + c)
  {
  }

  /** Elements of which one is greater do not tie with the same. */
  lemma NotBothTie<T(!new)>(x: T, z: T, leq: (T, T) -> bool, y: T)
    requires TotalPreorder(leq) && !leq(x, z)
    ensures Ties(y, leq)(x) == [] || Ties(y, leq)(z) == []
  {
  }

  lemma {:induction false} InsertKeepsTies<T(!new)>(x: T, xs: seq<T>, leq: (T, T) -> bool, y: T)
    requires TotalPreorder(leq)
    ensures FlatMap(Insert(x, xs, leq), Ties(y, leq)) == Ties(y, leq)(x) + FlatMap(xs, Ties(y, leq))
  {
    var f := Ties(y, leq);
    if xs == [] || leq(x, xs[0]) {
      FlatMapHead(x, xs, f);
    } else {
      InsertKeepsTies(x, xs[1..], leq, y);
      NotBothTie(x, xs[0], leq, y);
      FlatMapHead(xs[0], Insert(x, xs[1..], leq), f);
      FlatMapHead(xs[0], xs[1..], f);
      assert [xs[0]] + xs[1..] == xs;
      hide FlatMap, TotalPreorder, Ties;
      SwapEmpty(f(xs[0]), f(x), FlatMap(xs[1..], f));
    }
  }

  /** Sorting is stable: elements that tie keep their order. */
  lemma {:induction false} SortKeepsTies<T(!new)>(xs: seq<T>, leq: (T, T) -> bool, y: T)
    requires TotalPreorder(leq)
    ensures FlatMap(SortBy(xs, leq), Ties(y, leq)) == FlatMap(xs, Ties(y, leq))
  {
    if xs != [] {
      SortKeepsTies(xs[1..], leq, y);
      InsertKeepsTies(xs[0], SortBy(xs[1..], leq), leq, y);
      FlatMapHead(xs[0], xs[1..], Ties(y, leq));
      assert [xs[0]] + xs[1..] == xs;
    }
  }

  lemma SortedHeadLeast<T(!new)>(xs: seq<T>, x: T, leq: (T, T) -> bool)
    requires TotalPreorder(leq) && Sorted(xs, leq)
    requires x in multiset(xs)
    ensures leq(xs[0], x)
  {
    var i :| 0 <= i < |xs| && xs[i] == x;
  }

  /** Without ties a bag of values has only one sorted arrangement. */
  lemma {:induction false} SortedUnique<T(!new)>(a: seq<T>, b: seq<T>, leq: (T, T) -> bool)
    requires TotalPreorder(leq) && NoTies(a, leq)
    requires Sorted(a, leq) && Sorted(b, leq)
    requires multiset(a) == multiset(b)
    ensures a == b
  {
    if a == [] {
      assert |b| == |multiset(b)| == 0;
    } else {
      assert a[0] in multiset(b);
      assert b[0] in multiset(a);
      SortedHeadLeast(b, a[0], leq);
      SortedHeadLeast(a, b[0], leq);
      TailBag(a);
      TailBag(b);
      SortedUnique(a[1..], b[1..], leq);
      assert a == [a[0]] + a[1..] && b == [b[0]] + b[1..];
    }
  }

  lemma SortByPermutation<T(!new)>(a: seq<T>, b: seq<T>, leq: (T, T) -> bool)
    requires TotalPreorder(leq) && NoTies(a, leq)
    requires multiset(a) == multiset(b)
    ensures SortBy(a, leq) == SortBy(b, leq)
  {
    SortBySorts(a, leq);
    SortBySorts(b, leq);
    var sorted := SortBy(a, leq);
    forall x | x in sorted ensures x in a { assert x in multiset(sorted); }
    SortedUnique(sorted, SortBy(b, leq), leq);
  }

  // ----- Distinct values in order -----------------------------------------------

  /** Removes repetitions of neighbors. */
  function DropRepeats<T(==)>(xs: seq<T>): seq<T> {
    if |xs| <= 1 then xs
    else if xs[0] == xs[1] then DropRepeats(xs[1..])
    else [xs[0]] + DropRepeats(xs[1..])
  }

  ghost predicate Ascending<T>(xs: seq<T>, leq: (T, T) -> bool) {
    forall i, j :: 0 <= i < j < |xs| ==> leq(xs[i], xs[j]) && xs[i] != xs[j]
  }

  lemma {:induction false} DropRepeatsMembers<T>(xs: seq<T>)
    ensures forall x :: x in DropRepeats(xs) <==> x in xs
  {
    if |xs| > 1 {
      DropRepeatsMembers(xs[1..]);
      assert forall x :: x in xs <==> x == xs[0] || x in xs[1..];
    }
  }

  lemma {:induction false} DropRepeatsAscends<T(!new)>(xs: seq<T>, leq: (T, T) -> bool)
    requires TotalPreorder(leq) && Antisymmetric(leq) && Sorted(xs, leq)
    ensures Ascending(DropRepeats(xs), leq)
  {
    if |xs| > 1 {
      DropRepeatsAscends(xs[1..], leq);
      DropRepeatsMembers(xs[1..]);
      if xs[0] != xs[1] {
        var tail := DropRepeats(xs[1..]);
        forall k | 0 <= k < |tail| ensures leq(xs[0], tail[k]) && xs[0] != tail[k] {
          assert tail[k] in tail;
          var j :| 0 <= j < |xs[1..]| && xs[1..][j] == tail[k];
          assert leq(xs[0], xs[1]) && leq(xs[1], xs[1 + j]);
        }
      }
    }
  }

  /** The distinct values of a list, ascending. */
  function Canonical<T(==)>(xs: seq<T>, leq: (T, T) -> bool): seq<T> { DropRepeats(SortBy(xs, leq)) }

  lemma SameMembers<T>(a: seq<T>, b: seq<T>)
    requires multiset(a) == multiset(b)
    ensures forall x :: x in a <==> x in b
  {
    forall x ensures x in a <==> x in b {
      assert x in multiset(a) <==> x in multiset(b);
    }
  }

  lemma CanonicalAscends<T(!new)>(xs: seq<T>, leq: (T, T) -> bool)
    requires TotalPreorder(leq) && Antisymmetric(leq)
    ensures Ascending(Canonical(xs, leq), leq)
    ensures forall x :: x in Canonical(xs, leq) <==> x in xs
  {
    SortBySorts(xs, leq);
    DropRepeatsAscends(SortBy(xs, leq), leq);
    DropRepeatsMembers(SortBy(xs, leq));
    SameMembers(SortBy(xs, leq), xs);
  }

  lemma AscendingTail<T>(xs: seq<T>, leq: (T, T) -> bool)
    requires xs != [] && Ascending(xs, leq)
    ensures Ascending(xs[1..], leq)
    ensures forall x :: x in xs[1..] <==> x in xs && x != xs[0]
  {
    var tail := xs[1..];
    forall x ensures x in tail <==> x in xs && x != xs[0] {
      if x in xs && x != xs[0] {
        var i :| 0 <= i < |xs| && xs[i] == x;
        assert tail[i - 1] == x;
      }
      if x in tail {
        var i :| 0 <= i < |tail| && tail[i] == x;
        assert xs[i + 1] == x;
      }
    }
  }

  lemma SameHead<T(!new)>(a: seq<T>, b: seq<T>, leq: (T, T) -> bool)
    requires Antisymmetric(leq) && Ascending(a, leq) && Ascending(b, leq)
    requires a != [] && forall x :: x in a <==> x in b
    ensures b != [] && a[0] == b[0]
  {
    assert a[0] in b;
    assert b[0] in a;
    var i :| 0 <= i < |b| && b[i] == a[0];
    var j :| 0 <= j < |a| && a[j] == b[0];
    assert forall k :: 0 < k < |b| ==> leq(b[0], b[k]);
    assert forall k :: 0 < k < |a| ==> leq(a[0], a[k]);
  }

  /** A set of values has only one ascending list. */
  lemma {:induction false} AscendingUnique<T(!new)>(a: seq<T>, b: seq<T>, leq: (T, T) -> bool)
    requires Antisymmetric(leq) && Ascending(a, leq) && Ascending(b, leq)
    requires forall x :: x in a <==> x in b
    ensures a == b
  {
    if a == [] {
      assert forall k :: 0 <= k < |b| ==> b[k] in b;
    } else {
      SameHead(a, b, leq);
      AscendingTail(a, leq);
      AscendingTail(b, leq);
      AscendingUnique(a[1..], b[1..], leq);
      assert a == [a[0]] + a[1..] && b == [b[0]] + b[1..];
    }
  }

  // ----- The last one that says something ---------------------------------------

  function Latest<T, U>(xs: seq<T>, says: T -> Option<U>): Option<U> {
    if xs == [] then None
    else if says(Last(xs)).Some? then says(Last(xs))
    else Latest(Front(xs), says)
  }

  lemma LatestSnoc<T, U>(done: seq<T>, x: T, says: T -> Option<U>)
    ensures Latest(done + [x], says) == if says(x).Some? then says(x) else Latest(done, says)
  {
    Shift(done, x, []);
  }

  lemma {:induction false} LatestIsSaid<T, U>(xs: seq<T>, says: T -> Option<U>)
    ensures Latest(xs, says).None? ==> forall x :: x in xs ==> says(x).None?
    ensures Latest(xs, says).Some? ==> exists x :: x in xs && says(x) == Latest(xs, says)
  {
    if xs != [] {
      LatestIsSaid(Front(xs), says);
      FrontLast(xs);
      if Latest(xs, says).Some? && says(Last(xs)).None? {
        var x :| x in Front(xs) && says(x) == Latest(xs, says);
        assert x in xs;
      }
    }
  }

  lemma {:induction false} LatestAt<T, U>(xs: seq<T>, says: T -> Option<U>, i: nat)
    requires i < |xs| && says(xs[i]).Some? && forall j :: i < j < |xs| ==> says(xs[j]).None?
    ensures Latest(xs, says) == says(xs[i])
  {
    if i < |xs| - 1 {
      LatestAt(Front(xs), says, i);
    }
  }

  /** At most one element says something. */
  ghost predicate OneSays<T, U>(xs: seq<T>, says: T -> Option<U>) {
    forall x, y :: x in xs && y in xs && says(x).Some? && says(y).Some? ==> x == y
  }

  /** If at most one element speaks, it does not matter where it stands. */
  lemma LatestPermutation<T, U>(a: seq<T>, b: seq<T>, says: T -> Option<U>)
    requires multiset(a) == multiset(b) && OneSays(a, says)
    ensures Latest(a, says) == Latest(b, says)
  {
    LatestIsSaid(a, says);
    LatestIsSaid(b, says);
    forall x ensures x in a <==> x in b {
      assert x in multiset(a) <==> x in multiset(b);
    }
  }

  // ----- Strings --------------------------------------------------------------

  /** Code point order, which is the byte order of the UTF-8 encodings. */
  predicate StringLeq(a: string, b: string) {
    a == [] || (b != [] && (a[0] < b[0] || (a[0] == b[0] && StringLeq(a[1..], b[1..]))))
  }

  /** The first place at which two texts differ. */
  predicate DifferAt(a: string, b: string, k: int) {
    0 <= k < |a| && k < |b| && a[k] != b[k] && forall i :: 0 <= i < k ==> a[i] == b[i]
  }

  /** One text comes before another if it is its beginning, or has the smaller character where they first differ. */
  lemma {:induction false} StringLeqExactly(a: string, b: string)
    ensures StringLeq(a, b) <==> a <= b || exists k :: DifferAt(a, b, k) && a[k] < b[k]
  {
    if a != [] && b != [] && a[0] == b[0] {
      StringLeqExactly(a[1..], b[1..]);
      if k :| DifferAt(a[1..], b[1..], k) && a[1..][k] < b[1..][k] {
        assert a[k + 1] == a[1..][k] && b[k + 1] == b[1..][k];
        assert forall i :: 0 < i <= k ==> a[i] == a[1..][i - 1] && b[i] == b[1..][i - 1];
        assert DifferAt(a, b, k + 1);
      }
      if k :| DifferAt(a, b, k) && a[k] < b[k] {
        assert DifferAt(a[1..], b[1..], k - 1);
      }
      assert a <= b <==> a[1..] <= b[1..];
    } else if a != [] && b != [] {
      assert DifferAt(a, b, 0);
    }
  }

  lemma {:induction false} StringTotal(a: string, b: string)
    ensures StringLeq(a, b) || StringLeq(b, a)
    ensures StringLeq(a, b) && StringLeq(b, a) ==> a == b
  {
    if a != [] && b != [] && a[0] == b[0] {
      StringTotal(a[1..], b[1..]);
      assert a == [a[0]] + a[1..] && b == [b[0]] + b[1..];
    }
  }

  lemma {:induction false} StringTransitive(a: string, b: string, c: string)
    requires StringLeq(a, b) && StringLeq(b, c)
    ensures StringLeq(a, c)
  {
    if a != [] && a[0] == b[0] == c[0] {
      StringTransitive(a[1..], b[1..], c[1..]);
    }
  }

  lemma StringOrder()
    ensures TotalPreorder(StringLeq) && Antisymmetric(StringLeq)
  {
    forall a, b ensures StringLeq(a, b) || StringLeq(b, a) { StringTotal(a, b); }
    forall a, b | StringLeq(a, b) && StringLeq(b, a) ensures a == b { StringTotal(a, b); }
    forall a, b, c | StringLeq(a, b) && StringLeq(b, c) ensures StringLeq(a, c) {
      StringTransitive(a, b, c);
    }
  }
}
