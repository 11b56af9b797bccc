/**
 * The state of `get_next_payback_values` between two yields, and the facts
 * about one yield that the merge theorems are built from.
 */
module Merging {
  import opened Wrappers
  import opened Prices
  import opened Progression
  import opened Ranking

  /** One research as the merge sees it: its record and its current level. */
  datatype Track = Track(elem: ElemData, level: nat)

  /** The value each research's stream starts with, if any, by position. */
  ghost function Firsts(tracks: seq<Track>, d: int): (f: seq<Option<PaybackValue>>)
    ensures |f| == |tracks|
    ensures forall i :: 0 <= i < |tracks| ==> f[i] == Entries(tracks[i].elem, d)(tracks[i].level)
  {
    seq(|tracks|, i requires 0 <= i < |tracks| => Entries(tracks[i].elem, d)(tracks[i].level))
  }

  /** The first values present from position `i` on, tagged with their positions. */
  function SeedsOf(firsts: seq<Option<PaybackValue>>, i: nat): seq<Ranked>
    requires i <= |firsts|
    decreases |firsts| - i
  {
    if i == |firsts| then []
    else (if firsts[i].Some? then [Ranked(i, firsts[i].value)] else []) + SeedsOf(firsts, i + 1)
  }

  /** The first value of each research's stream from position `i` on, in research order. */
  ghost function SeedsFrom(tracks: seq<Track>, d: int, i: nat): seq<Ranked>
    requires i <= |tracks|
  {
    SeedsOf(Firsts(tracks, d), i)
  }

  /**
   * After yielding `v`: its research's next value, from `v.level + 1`, is
   * appended and the list sorted again; without one the list is left as is.
   */
  ghost function Refill(tracks: seq<Track>, d: int, rest: seq<Ranked>, v: Ranked): seq<Ranked>
  {
    match NextOf(tracks, d, v)
      case None => rest
      case Some(w) => SortByKey(rest + [Ranked(v.research, w)])
  }

  /** The value of `v`'s research at the level after `v`'s, if there is one. */
  ghost function NextOf(tracks: seq<Track>, d: int, v: Ranked): Option<PaybackValue>
  {
    if v.research >= |tracks| then None
    else Entries(tracks[v.research].elem, d)(v.value.level + 1)
  }

  /** The merge between two yields: what has been yielded and what is pending. */
  datatype State = State(emitted: seq<Ranked>, pending: seq<Ranked>)

  /** One yield: the head of the pending list is yielded and its research refilled. */
  ghost function Step(tracks: seq<Track>, d: int, s: State): State
    requires s.pending != []
  {
    State(s.emitted + [s.pending[0]], Refill(tracks, d, s.pending[1..], s.pending[0]))
  }

  /** One yield, or nothing when no value is pending. */
  ghost function Advance(tracks: seq<Track>, d: int): State -> State
  {
    (t: State) => if t.pending == [] then t else Step(tracks, d, t)
  }

  /** Up to `n` applications of `step`, stopping early when nothing is pending. */
  ghost function Iterate(step: State -> State, s: State, n: nat): State
    decreases n
  {
    if n == 0 || s.pending == [] then s
    else Iterate(step, step(s), n - 1)
  }

  /** Up to `n` further yields, stopping early when nothing is pending. */
  ghost function Run(tracks: seq<Track>, d: int, s: State, n: nat): State
  {
    Iterate(Advance(tracks, d), s, n)
  }

  /** A run of `k' + 1` yields is one step followed by a run of `k'`. */
  lemma RunUnfold(tracks: seq<Track>, d: int, s: State, k: nat, k': nat)
    requires s.pending != [] && k == k' + 1
    ensures Run(tracks, d, s, k) == Run(tracks, d, Step(tracks, d, s), k')
  {
    assert Advance(tracks, d)(s) == Step(tracks, d, s);
  }

  /** A run that stops, or has no steps left, is where it started. */
  lemma RunStopped(tracks: seq<Track>, d: int, s: State, k: nat)
    requires s.pending == [] || k == 0
    ensures Run(tracks, d, s, k) == s
  {
  }

  lemma {:induction false} IteratePreserves(step: State -> State, s: State, n: nat, inv: State -> bool)
    requires inv(s)
    requires forall t :: inv(t) && t.pending != [] ==> inv(step(t))
    ensures inv(Iterate(step, s, n))
    decreases n
  {
    if n > 0 && s.pending != [] {
      IteratePreserves(step, step(s), n - 1, inv);
    }
  }

  /** A property every step keeps holds after any run. */
  lemma RunPreserves(tracks: seq<Track>, d: int, s: State, n: nat, inv: State -> bool)
    requires inv(s)
    requires forall t :: inv(t) && t.pending != [] ==> inv(Step(tracks, d, t))
    ensures inv(Run(tracks, d, s, n))
  {
    var step := Advance(tracks, d);
    forall t | inv(t) && t.pending != [] ensures inv(step(t)) {
      assert step(t) == Step(tracks, d, t);
    }
    IteratePreserves(step, s, n, inv);
  }

  lemma {:induction false} IterateMeasure(step: State -> State, s: State, n: nat, size: State -> nat)
    requires forall t: State :: t.pending != [] ==> size(step(t)) == size(t) + 1
    ensures size(s) <= size(Iterate(step, s, n)) <= size(s) + n
    ensures size(Iterate(step, s, n)) < size(s) + n ==> Iterate(step, s, n).pending == []
    decreases n
  {
    if n > 0 && s.pending != [] {
      IterateMeasure(step, step(s), n - 1, size);
    }
  }

  /**
   * A measure every step raises by one grows by at most `n` over a run of
   * `n` steps, and by less only when the run stopped with nothing pending.
   */
  lemma RunMeasure(tracks: seq<Track>, d: int, s: State, n: nat, size: State -> nat)
    requires forall t: State :: t.pending != [] ==> size(Step(tracks, d, t)) == size(t) + 1
    ensures size(s) <= size(Run(tracks, d, s, n)) <= size(s) + n
    ensures size(Run(tracks, d, s, n)) < size(s) + n ==> Run(tracks, d, s, n).pending == []
  {
    var step := Advance(tracks, d);
    forall t: State | t.pending != [] ensures size(step(t)) == size(t) + 1 {
      assert step(t) == Step(tracks, d, t);
    }
    IterateMeasure(step, s, n, size);
  }

  /** The merge before its first yield: every research's first value, sorted. */
  ghost function Start(tracks: seq<Track>, d: int): State
  {
    State([], SortByKey(SeedsFrom(tracks, d, 0)))
  }

  /** The first `n` values of `get_next_payback_values(researches, d)`. */
  ghost function Merge(tracks: seq<Track>, d: int, n: nat): seq<Ranked>
  {
    Run(tracks, d, Start(tracks, d), n).emitted
  }

  /** The values of research `r`, in the order they were yielded. */
  function Project(s: seq<Ranked>, r: nat): seq<PaybackValue>
  {
    if s == [] then []
    else Project(s[..|s| - 1], r) + (if s[|s| - 1].research == r then [s[|s| - 1].value] else [])
  }

  lemma ProjectSnoc(s: seq<Ranked>, x: Ranked, r: nat)
    ensures Project(s + [x], r) == Project(s, r) + (if x.research == r then [x.value] else [])
  {
    assert (s + [x])[..|s|] == s;
  }

  /** The level of research `r` whose value comes next, once `emitted` has been yielded. */
  function Pos(tracks: seq<Track>, emitted: seq<Ranked>, r: nat): nat
    requires r < |tracks|
  {
    tracks[r].level + |Project(emitted, r)|
  }

  /** Every pending value is the next value of its research's stream. */
  ghost predicate PendingAreNext(tracks: seq<Track>, d: int, emitted: seq<Ranked>, pending: seq<Ranked>)
  {
    forall y :: y in pending ==>
      (y.research < |tracks| &&
       Entries(tracks[y.research].elem, d)(Pos(tracks, emitted, y.research)) == Some(y.value))
  }

  /** A research with no pending value has no next value. */
  ghost predicate AbsentAreExhausted(tracks: seq<Track>, d: int, emitted: seq<Ranked>, pending: seq<Ranked>)
  {
    forall r :: 0 <= r < |tracks| && !Pending(pending, r) ==>
      Entries(tracks[r].elem, d)(Pos(tracks, emitted, r)).None?
  }

  /** What has been yielded for each research is a prefix of that research's own stream. */
  ghost predicate EmittedAreStreams(tracks: seq<Track>, d: int, emitted: seq<Ranked>)
  {
    forall r :: 0 <= r < |tracks| ==>
      Project(emitted, r) == Walk(Entries(tracks[r].elem, d), tracks[r].level, |Project(emitted, r)|)
  }

  /** No research has a value left at its current position. */
  ghost predicate Exhausted(tracks: seq<Track>, d: int, emitted: seq<Ranked>)
  {
    forall r :: 0 <= r < |tracks| ==> Entries(tracks[r].elem, d)(Pos(tracks, emitted, r)).None?
  }

  /** The merge's invariant between two yields. */
  ghost predicate Inv(tracks: seq<Track>, d: int, emitted: seq<Ranked>, pending: seq<Ranked>)
  {
    && Sorted(pending)
    && DistinctResearch(pending)
    && PendingAreNext(tracks, d, emitted, pending)
    && AbsentAreExhausted(tracks, d, emitted, pending)
    && EmittedAreStreams(tracks, d, emitted)
  }

  /** The seeds from position `i`: the first value of research `i`, if any, then the rest. */
  lemma SeedsFromUnfold(tracks: seq<Track>, d: int, i: nat)
    requires i < |tracks|
    ensures var first := Entries(tracks[i].elem, d)(tracks[i].level);
      SeedsFrom(tracks, d, i) ==
        if first.Some? then [Ranked(i, first.value)] + SeedsFrom(tracks, d, i + 1)
        else SeedsFrom(tracks, d, i + 1)
  {
    var f := Firsts(tracks, d);
    if f[i].Some? {
      assert SeedsOf(f, i) == [Ranked(i, f[i].value)] + SeedsOf(f, i + 1);
    } else {
      assert SeedsOf(f, i) == [] + SeedsOf(f, i + 1);
    }
  }

  /** Each seed is a present first value, at a position from `i` on. */
  lemma {:induction false} SeedsOfAreFirst(firsts: seq<Option<PaybackValue>>, i: nat)
    requires i <= |firsts|
    ensures forall y :: y in SeedsOf(firsts, i) ==>
      i <= y.research < |firsts| && firsts[y.research] == Some(y.value)
    decreases |firsts| - i
  {
    if i < |firsts| {
      SeedsOfAreFirst(firsts, i + 1);
    }
  }

  /** Each seed is the first value of a research from position `i` on. */
  lemma SeedsAreFirst(tracks: seq<Track>, d: int, i: nat)
    requires i <= |tracks|
    ensures forall y :: y in SeedsFrom(tracks, d, i) ==>
      (i <= y.research < |tracks| &&
       Entries(tracks[y.research].elem, d)(tracks[y.research].level) == Some(y.value))
  {
    SeedsOfAreFirst(Firsts(tracks, d), i);
  }

  /** No position has two seeds. */
  lemma {:induction false} SeedsOfDistinct(firsts: seq<Option<PaybackValue>>, i: nat)
    requires i <= |firsts|
    ensures DistinctResearch(SeedsOf(firsts, i))
    decreases |firsts| - i
  {
    if i < |firsts| {
      var rest := SeedsOf(firsts, i + 1);
      SeedsOfDistinct(firsts, i + 1);
      SeedsOfAreFirst(firsts, i + 1);
      if firsts[i].Some? {
        ConsDistinct(Ranked(i, firsts[i].value), rest);
      } else {
        assert SeedsOf(firsts, i) == rest;
      }
    }
  }

  /** No research has two seeds. */
  lemma SeedsDistinct(tracks: seq<Track>, d: int, i: nat)
    requires i <= |tracks|
    ensures DistinctResearch(SeedsFrom(tracks, d, i))
  {
    SeedsOfDistinct(Firsts(tracks, d), i);
  }

  /** A position from `i` on without a seed has no first value. */
  lemma {:induction false} SeedsOfCover(firsts: seq<Option<PaybackValue>>, i: nat)
    requires i <= |firsts|
    ensures forall r :: i <= r < |firsts| && !Pending(SeedsOf(firsts, i), r) ==> firsts[r].None?
    decreases |firsts| - i
  {
    if i < |firsts| {
      SeedsOfCover(firsts, i + 1);
      var rest := SeedsOf(firsts, i + 1);
      if firsts[i].Some? {
        var x := Ranked(i, firsts[i].value);
        assert SeedsOf(firsts, i) == [x] + rest;
        forall r | i <= r < |firsts| && !Pending([x] + rest, r) ensures firsts[r].None? {
          PendingCons(x, rest, r);
        }
      } else {
        assert SeedsOf(firsts, i) == rest;
      }
    }
  }

  /** A research from position `i` without a seed has no value at its current level. */
  lemma SeedsCover(tracks: seq<Track>, d: int, i: nat)
    requires i <= |tracks|
    ensures forall r :: i <= r < |tracks| && !Pending(SeedsFrom(tracks, d, i), r) ==>
      Entries(tracks[r].elem, d)(tracks[r].level).None?
  {
    SeedsOfCover(Firsts(tracks, d), i);
  }

  /** A research not pending in `[x] + rest` is neither `x`'s nor pending in `rest`. */
  lemma PendingCons(x: Ranked, rest: seq<Ranked>, r: nat)
    requires !Pending([x] + rest, r)
    ensures x.research != r && !Pending(rest, r)
  {
    assert x in [x] + rest;
    forall y | y in rest ensures y.research != r {
      assert y in [x] + rest;
    }
  }

  lemma SeedsFromProps(tracks: seq<Track>, d: int, i: nat)
    requires i <= |tracks|
    ensures DistinctResearch(SeedsFrom(tracks, d, i))
    ensures forall y :: y in SeedsFrom(tracks, d, i) ==>
      (i <= y.research < |tracks| &&
       Entries(tracks[y.research].elem, d)(tracks[y.research].level) == Some(y.value))
    ensures forall r :: i <= r < |tracks| && !Pending(SeedsFrom(tracks, d, i), r) ==>
      Entries(tracks[r].elem, d)(tracks[r].level).None?
  {
    SeedsDistinct(tracks, d, i);
    SeedsAreFirst(tracks, d, i);
    SeedsCover(tracks, d, i);
  }

  /** The merge starts in a state satisfying its invariant. */
  lemma InitialInv(tracks: seq<Track>, d: int)
    ensures Inv(tracks, d, [], SortByKey(SeedsFrom(tracks, d, 0)))
  {
    var seeds := SeedsFrom(tracks, d, 0);
    var p := SortByKey(seeds);
    SeedsFromProps(tracks, d, 0);
    SortByKeySorted(seeds);
    SortByKeyDistinct(seeds);
    forall r, y | 0 <= r < |tracks| && !Pending(p, r) && y in seeds
      ensures y.research != r
    {
      assert y in p;
    }
  }

  /** The tail of a sorted pending list: sorted, distinct, and without the head's research. */
  lemma TailOf(pending: seq<Ranked>)
    requires Sorted(pending) && DistinctResearch(pending) && pending != []
    ensures pending == [pending[0]] + pending[1..]
    ensures Sorted(pending[1..]) && DistinctResearch(pending[1..])
    ensures forall y :: y in pending[1..] ==>
      (y.research != pending[0].research && Key(pending[0]) <= Key(y))
  {
    forall y | y in pending[1..]
      ensures y.research != pending[0].research && Key(pending[0]) <= Key(y)
    {
      var k :| 0 <= k < |pending[1..]| && pending[1..][k] == y;
      assert pending[k + 1] == y;
    }
  }

  /** Adding a value of a research not yet pending keeps the list sorted and distinct. */
  lemma InsertFresh(rest: seq<Ranked>, x: Ranked)
    requires Sorted(rest) && DistinctResearch(rest)
    requires forall y :: y in rest ==> y.research != x.research
    ensures SortByKey(rest + [x]) == Insert(rest, x)
    ensures Sorted(Insert(rest, x)) && DistinctResearch(Insert(rest, x))
    ensures forall y :: y in Insert(rest, x) <==> y in rest || y == x
  {
    SortAfterAppend(rest, x);
    InsertSorted(rest, x);
    InsertDistinct(rest, x);
    InsertMembers(rest, x);
  }

  /** Yielding `v` moves its research one level up and leaves the others where they are. */
  lemma PosStep(tracks: seq<Track>, emitted: seq<Ranked>, v: Ranked)
    ensures forall r :: 0 <= r < |tracks| ==>
      Pos(tracks, emitted + [v], r) == Pos(tracks, emitted, r) + (if r == v.research then 1 else 0)
  {
    forall r | 0 <= r < |tracks|
      ensures Pos(tracks, emitted + [v], r) == Pos(tracks, emitted, r) + (if r == v.research then 1 else 0)
    {
      ProjectSnoc(emitted, v, r);
    }
  }

  /** The refilled list is the tail with the next value of the head's research inserted, if there is one. */
  lemma RefillShape(tracks: seq<Track>, d: int, pending: seq<Ranked>)
    requires Sorted(pending) && DistinctResearch(pending) && pending != []
    ensures Sorted(Refill(tracks, d, pending[1..], pending[0]))
    ensures DistinctResearch(Refill(tracks, d, pending[1..], pending[0]))
    ensures forall y :: y in Refill(tracks, d, pending[1..], pending[0]) <==>
      y in pending[1..] ||
      (NextOf(tracks, d, pending[0]).Some? && y == Ranked(pending[0].research, NextOf(tracks, d, pending[0]).value))
    ensures NextOf(tracks, d, pending[0]).Some? ==>
      Ranked(pending[0].research, NextOf(tracks, d, pending[0]).value) in Refill(tracks, d, pending[1..], pending[0])
  {
    TailOf(pending);
    var next := NextOf(tracks, d, pending[0]);
    if next.Some? {
      InsertFresh(pending[1..], Ranked(pending[0].research, next.value));
    }
  }

  /**
   * Yielding the head moves its research one level up, leaves the others
   * where they are, and the refill looks at the research's new position.
   */
  lemma HeadStep(tracks: seq<Track>, d: int, emitted: seq<Ranked>, pending: seq<Ranked>)
    requires PendingAreNext(tracks, d, emitted, pending) && pending != []
    ensures pending[0].research < |tracks|
    ensures forall r :: 0 <= r < |tracks| ==>
      Pos(tracks, emitted + [pending[0]], r) == Pos(tracks, emitted, r) + (if r == pending[0].research then 1 else 0)
    ensures NextOf(tracks, d, pending[0]) ==
      Entries(tracks[pending[0].research].elem, d)(Pos(tracks, emitted + [pending[0]], pending[0].research))
  {
    var v := pending[0];
    assert v in pending;
    EntryLevel(tracks[v.research].elem, d, Pos(tracks, emitted, v.research));
    PosStep(tracks, emitted, v);
  }

  /** After a yield every pending value is still the next value of its research. */
  lemma StepNext(tracks: seq<Track>, d: int, emitted: seq<Ranked>, pending: seq<Ranked>)
    requires PendingAreNext(tracks, d, emitted, pending) && pending != []
    requires Sorted(pending) && DistinctResearch(pending)
    ensures PendingAreNext(tracks, d, emitted + [pending[0]], Refill(tracks, d, pending[1..], pending[0]))
  {
    forall y | y in Refill(tracks, d, pending[1..], pending[0])
      ensures y.research < |tracks|
      ensures Entries(tracks[y.research].elem, d)(Pos(tracks, emitted + [pending[0]], y.research)) == Some(y.value)
    {
      RefilledNext(tracks, d, emitted, pending, y);
    }
  }

  /** One value pending after a yield is the next value of its research. */
  lemma RefilledNext(tracks: seq<Track>, d: int, emitted: seq<Ranked>, pending: seq<Ranked>, y: Ranked)
    requires PendingAreNext(tracks, d, emitted, pending) && pending != []
    requires Sorted(pending) && DistinctResearch(pending)
    requires y in Refill(tracks, d, pending[1..], pending[0])
    ensures y.research < |tracks|
    ensures Entries(tracks[y.research].elem, d)(Pos(tracks, emitted + [pending[0]], y.research)) == Some(y.value)
  {
    HeadStep(tracks, d, emitted, pending);
    RefillShape(tracks, d, pending);
    TailOf(pending);
    if y in pending[1..] {
      assert y in pending;
    }
  }

  /** After a yield a research without a pending value still has no next value. */
  lemma StepAbsent(tracks: seq<Track>, d: int, emitted: seq<Ranked>, pending: seq<Ranked>)
    requires AbsentAreExhausted(tracks, d, emitted, pending)
    requires PendingAreNext(tracks, d, emitted, pending) && pending != []
    requires Sorted(pending) && DistinctResearch(pending)
    ensures AbsentAreExhausted(tracks, d, emitted + [pending[0]], Refill(tracks, d, pending[1..], pending[0]))
  {
    HeadStep(tracks, d, emitted, pending);
    RefillShape(tracks, d, pending);
    TailOf(pending);
    var pending' := Refill(tracks, d, pending[1..], pending[0]);
    forall r, y | 0 <= r < |tracks| && r != pending[0].research && !Pending(pending', r) && y in pending
      ensures y.research != r
    {
      if y != pending[0] {
        assert y in pending[1..];
      }
    }
  }

  /** After a yield what was yielded for each research is still a prefix of its stream. */
  lemma StepStreams(tracks: seq<Track>, d: int, emitted: seq<Ranked>, pending: seq<Ranked>)
    requires EmittedAreStreams(tracks, d, emitted)
    requires PendingAreNext(tracks, d, emitted, pending) && pending != []
    ensures EmittedAreStreams(tracks, d, emitted + [pending[0]])
  {
    assert pending[0] in pending;
    ProjectionStep(tracks, d, emitted, pending[0]);
  }

  /** Yielding a research's next value extends what was yielded for it by that value. */
  lemma ProjectionStep(tracks: seq<Track>, d: int, emitted: seq<Ranked>, v: Ranked)
    requires EmittedAreStreams(tracks, d, emitted)
    requires v.research < |tracks|
    requires Entries(tracks[v.research].elem, d)(Pos(tracks, emitted, v.research)) == Some(v.value)
    ensures EmittedAreStreams(tracks, d, emitted + [v])
  {
    forall r | 0 <= r < |tracks|
      ensures Project(emitted + [v], r) ==
        Walk(Entries(tracks[r].elem, d), tracks[r].level, |Project(emitted + [v], r)|)
    {
      ProjectSnoc(emitted, v, r);
      if r == v.research {
        var c := |Project(emitted, r)|;
        WalkSnoc(Entries(tracks[r].elem, d), tracks[r].level, c);
      }
    }
  }

  /** Each research's paybacks do not decrease from one level to the next. */
  ghost predicate Monotone(tracks: seq<Track>, d: int)
  {
    forall r :: 0 <= r < |tracks| ==> Rising(Entries(tracks[r].elem, d))
  }

  /** A stream whose consecutive paybacks never decrease. */
  ghost predicate Rising(entry: nat -> Option<PaybackValue>)
  {
    forall l: nat :: entry(l).Some? && entry(l + 1).Some? ==>
      PKey(entry(l).value) <= PKey(entry(l + 1).value)
  }

  /** Nothing pending sorts before the last value yielded. */
  ghost predicate AfterLast(emitted: seq<Ranked>, pending: seq<Ranked>)
  {
    Sorted(emitted) &&
    (emitted != [] ==> forall y :: y in pending ==> Key(emitted[|emitted| - 1]) <= Key(y))
  }

  /** Appending a value whose key is not below the last one keeps a list sorted. */
  lemma SortedSnoc(s: seq<Ranked>, x: Ranked)
    requires Sorted(s) && (s != [] ==> Key(s[|s| - 1]) <= Key(x))
    ensures Sorted(s + [x])
  {
    forall i, j | 0 <= i < j < |s| + 1 ensures Key((s + [x])[i]) <= Key((s + [x])[j]) {
      if j == |s| {
        assert Key(s[i]) <= Key(s[|s| - 1]);
      }
    }
  }

  /** When paybacks grow with level, nothing in the refilled list sorts before the yielded head. */
  lemma RefillAbove(tracks: seq<Track>, d: int, emitted: seq<Ranked>, pending: seq<Ranked>)
    requires PendingAreNext(tracks, d, emitted, pending) && pending != []
    requires Sorted(pending) && DistinctResearch(pending) && Monotone(tracks, d)
    ensures forall y :: y in Refill(tracks, d, pending[1..], pending[0]) ==> Key(pending[0]) <= Key(y)
  {
    var v := pending[0];
    assert v in pending;
    RefillShape(tracks, d, pending);
    TailOf(pending);
    var e := tracks[v.research].elem;
    EntryLevel(e, d, Pos(tracks, emitted, v.research));
    assert Rising(Entries(e, d));
  }

  /** Every research index in the refilled list was already in the list. */
  lemma RefillResearch(tracks: seq<Track>, d: int, pending: seq<Ranked>, count: nat)
    requires pending != [] && forall y :: y in pending ==> y.research < count
    ensures forall y :: y in Refill(tracks, d, pending[1..], pending[0]) ==> y.research < count
  {
    var next := NextOf(tracks, d, pending[0]);
    assert forall y :: y in pending[1..] ==> y in pending;
    if next.Some? {
      SortByKeySorted(pending[1..] + [Ranked(pending[0].research, next.value)]);
    }
  }
}
