/**
 * `get_next_payback_values`: the merged stream yields each research's own
 * values in level order, stops only when every research is exhausted, and
 * comes out in payback order when each research's paybacks grow with level.
 */
module NextPayback {
  import opened Wrappers
  import opened Prices
  import opened Progression
  import opened Ranking
  import opened Merging

  /** Yielding the head of the pending list and refilling keeps the invariant. */
  lemma StepInv(tracks: seq<Track>, d: int, s: State)
    requires Inv(tracks, d, s.emitted, s.pending) && s.pending != []
    ensures Inv(tracks, d, Step(tracks, d, s).emitted, Step(tracks, d, s).pending)
  {
    RefillShape(tracks, d, s.pending);
    StepNext(tracks, d, s.emitted, s.pending);
    StepAbsent(tracks, d, s.emitted, s.pending);
    StepStreams(tracks, d, s.emitted, s.pending);
  }

  /** Every state the merge passes through satisfies the invariant. */
  lemma RunInv(tracks: seq<Track>, d: int, s: State, n: nat)
    requires Inv(tracks, d, s.emitted, s.pending)
    ensures Inv(tracks, d, Run(tracks, d, s, n).emitted, Run(tracks, d, s, n).pending)
  {
    var inv := (t: State) => Inv(tracks, d, t.emitted, t.pending);
    forall t | inv(t) && t.pending != [] ensures inv(Step(tracks, d, t)) {
      StepInv(tracks, d, t);
    }
    RunPreserves(tracks, d, s, n, inv);
  }

  /** Every value yielded or pending names one of the `count` researches. */
  ghost predicate InRange(count: nat, s: State)
  {
    && (forall y :: y in s.emitted ==> y.research < count)
    && (forall y :: y in s.pending ==> y.research < count)
  }

  /** A run only ever yields values of existing researches. */
  lemma RunInRange(tracks: seq<Track>, d: int, s: State, n: nat)
    requires InRange(|tracks|, s)
    ensures InRange(|tracks|, Run(tracks, d, s, n))
  {
    var inv := (t: State) => InRange(|tracks|, t);
    forall t | inv(t) && t.pending != [] ensures inv(Step(tracks, d, t)) {
      RefillResearch(tracks, d, t.pending, |tracks|);
      assert t.pending[0] in t.pending;
    }
    RunPreserves(tracks, d, s, n, inv);
  }

  /**
   * A run extends what was yielded by at most `n` values, and by fewer only
   * when nothing is left pending.
   */
  lemma RunLength(tracks: seq<Track>, d: int, s: State, n: nat)
    ensures |s.emitted| <= |Run(tracks, d, s, n).emitted| <= |s.emitted| + n
    ensures |Run(tracks, d, s, n).emitted| < |s.emitted| + n ==> Run(tracks, d, s, n).pending == []
  {
    var size := (t: State) => |t.emitted|;
    forall t: State | t.pending != [] ensures size(Step(tracks, d, t)) == size(t) + 1 {
    }
    RunMeasure(tracks, d, s, n, size);
  }

  /**
   * The merge is faithful and complete: for every research, the values it
   * yields are that research's own stream from its current level, in order
   * and without gaps; at most `n` values are yielded, and fewer only when
   * every research's stream is exhausted.
   */
  lemma MergeCorrect(tracks: seq<Track>, d: int, n: nat)
    ensures |Merge(tracks, d, n)| <= n
    ensures forall r :: 0 <= r < |tracks| ==>
      Project(Merge(tracks, d, n), r) ==
      Walk(Entries(tracks[r].elem, d), tracks[r].level, |Project(Merge(tracks, d, n), r)|)
    ensures |Merge(tracks, d, n)| < n ==> Exhausted(tracks, d, Merge(tracks, d, n))
    ensures forall x :: x in Merge(tracks, d, n) ==> x.research < |tracks|
  {
    var s := Start(tracks, d);
    InitialInv(tracks, d);
    RunInv(tracks, d, s, n);
    RunLength(tracks, d, s, n);
    SeedsFromProps(tracks, d, 0);
    SortByKeySorted(SeedsFrom(tracks, d, 0));
    RunInRange(tracks, d, s, n);
  }

  /** Yielding the head keeps the output sorted and everything pending above it. */
  lemma StepAfterLast(tracks: seq<Track>, d: int, s: State)
    requires Inv(tracks, d, s.emitted, s.pending) && s.pending != []
    requires Monotone(tracks, d) && AfterLast(s.emitted, s.pending)
    ensures AfterLast(Step(tracks, d, s).emitted, Step(tracks, d, s).pending)
  {
    assert s.pending[0] in s.pending;
    SortedSnoc(s.emitted, s.pending[0]);
    RefillAbove(tracks, d, s.emitted, s.pending);
  }

  lemma RunSorted(tracks: seq<Track>, d: int, s: State, n: nat)
    requires Inv(tracks, d, s.emitted, s.pending) && Monotone(tracks, d) && AfterLast(s.emitted, s.pending)
    ensures AfterLast(Run(tracks, d, s, n).emitted, Run(tracks, d, s, n).pending)
  {
    var inv := (t: State) => Inv(tracks, d, t.emitted, t.pending) && AfterLast(t.emitted, t.pending);
    forall t | inv(t) && t.pending != [] ensures inv(Step(tracks, d, t)) {
      StepInv(tracks, d, t);
      StepAfterLast(tracks, d, t);
    }
    RunPreserves(tracks, d, s, n, inv);
  }

  /**
   * When every research's paybacks grow with its level, the merged stream
   * comes out in payback order.
   */
  lemma MergeSorted(tracks: seq<Track>, d: int, n: nat)
    requires Monotone(tracks, d)
    ensures Sorted(Merge(tracks, d, n))
  {
    InitialInv(tracks, d);
    RunSorted(tracks, d, Start(tracks, d), n);
  }

  /** One pass of the seeding loop: a research's first value, if any, joins the seeds. */
  lemma SeedStep(tracks: seq<Track>, d: int, i: nat, seeds: seq<Ranked>,
                 e: ElemData, level: nat, first: seq<PaybackValue>)
    requires i < |tracks| && seeds + SeedsFrom(tracks, d, i) == SeedsFrom(tracks, d, 0)
    requires tracks[i] == Track(e, level) && first == PaybackValues(e, d, level, 1)
    ensures (if first != [] then seeds + [Ranked(i, first[0])] else seeds) + SeedsFrom(tracks, d, i + 1)
      == SeedsFrom(tracks, d, 0)
  {
    var rest := SeedsFrom(tracks, d, i + 1);
    if first != [] {
      assert (seeds + [Ranked(i, first[0])]) + rest == seeds + ([Ranked(i, first[0])] + rest);
    } else {
      assert [] + rest == rest;
    }
  }

  /** Once every research is seeded, the seeds are the merge's starting list. */
  lemma SeedsDone(tracks: seq<Track>, d: int, seeds: seq<Ranked>)
    requires seeds + SeedsFrom(tracks, d, |tracks|) == SeedsFrom(tracks, d, 0)
    ensures State([], SortByKey(seeds)) == Start(tracks, d)
    ensures forall y :: y in SortByKey(seeds) ==> y.research < |tracks|
  {
    assert seeds + [] == seeds;
    SeedsFromProps(tracks, d, 0);
    SortByKeySorted(seeds);
  }

  /**
   * One pass of the main loop: yielding the head and pushing its research's
   * value at the next level, if any, is one step of the merge.
   */
  lemma YieldNext(tracks: seq<Track>, d: int, out: seq<Ranked>, values: seq<Ranked>,
                  v: Ranked, e: ElemData, more: seq<PaybackValue>, next: seq<Ranked>, count: nat)
    requires values != [] && v == values[0] && v.research < |tracks|
    requires tracks[v.research].elem == e
    requires more == PaybackValues(e, d, v.value.level + 1, 1)
    requires next == if more != [] then SortByKey(values[1..] + [Ranked(v.research, more[0])]) else values[1..]
    requires forall y :: y in values ==> y.research < count
    ensures State(out + [v], next) == Step(tracks, d, State(out, values))
    ensures forall y :: y in next ==> y.research < count
  {
    NextValue(tracks, d, v, e, more);
    assert next == Refill(tracks, d, values[1..], v);
    RefillResearch(tracks, d, values, count);
  }

  /** The one value `get_payback_values(d, level + 1)` is asked for is the research's next value. */
  lemma NextValue(tracks: seq<Track>, d: int, v: Ranked, e: ElemData, more: seq<PaybackValue>)
    requires v.research < |tracks| && tracks[v.research].elem == e
    requires more == PaybackValues(e, d, v.value.level + 1, 1)
    ensures more == if NextOf(tracks, d, v).Some? then [NextOf(tracks, d, v).value] else []
  {
    assert NextOf(tracks, d, v) == Entries(e, d)(v.value.level + 1);
    assert Walk(Entries(e, d), v.value.level + 2, 0) == [];
  }

  /** The main loop's invariant carries over one pass. */
  lemma YieldStep(tracks: seq<Track>, d: int, out: seq<Ranked>, values: seq<Ranked>, k: nat, k': nat,
                  v: Ranked, e: ElemData, more: seq<PaybackValue>, next: seq<Ranked>, count: nat)
    requires values != [] && v == values[0] && k == k' + 1 && v.research < |tracks|
    requires tracks[v.research].elem == e
    requires more == PaybackValues(e, d, v.value.level + 1, 1)
    requires next == if more != [] then SortByKey(values[1..] + [Ranked(v.research, more[0])]) else values[1..]
    requires forall y :: y in values ==> y.research < count
    ensures Run(tracks, d, State(out + [v], next), k') == Run(tracks, d, State(out, values), k)
    ensures forall y :: y in next ==> y.research < count
  {
    YieldNext(tracks, d, out, values, v, e, more, next, count);
    RunUnfold(tracks, d, State(out, values), k, k');
  }

  /** The record and current level of each research, as the merge sees them. */
  ghost function Tracks(rs: seq<Research>): (t: seq<Track>)
    reads set r | r in rs, set r | r in rs :: r.elem
    ensures |t| == |rs|
    ensures forall i :: 0 <= i < |rs| ==> t[i] == Track(rs[i].elem.Data(), rs[i].level)
  {
    if rs == [] then []
    else
      var last := rs[|rs| - 1];
      Tracks(rs[..|rs| - 1]) + [Track(last.elem.Data(), last.level)]
  }

  /**
   * The first loop of `get_next_payback_values`: the first value of every
   * research that has one, sorted by payback.
   */
  method StartValues(researches: seq<Research>, d: int) returns (values: seq<Ranked>)
    requires forall i :: 0 <= i < |researches| ==>
      Sane(researches[i].elem.Data()) && Growing(researches[i].elem.Data())
    ensures State([], values) == Start(Tracks(researches), d)
    ensures forall y :: y in values ==> y.research < |researches|
  {
    ghost var tracks := Tracks(researches);
    var seeds: seq<Ranked> := [];
    var i := 0;
    while i < |researches|
      invariant 0 <= i <= |researches|
      invariant seeds + SeedsFrom(tracks, d, i) == SeedsFrom(tracks, d, 0)
      invariant Tracks(researches) == tracks
    {
      var first := researches[i].GetPaybackValues(d, None, 1);
      ghost var e, level := researches[i].elem.Data(), researches[i].level;
      assert tracks[i] == Track(e, level);
      SeedStep(tracks, d, i, seeds, e, level, first);
      if first != [] {
        seeds := seeds + [Ranked(i, first[0])];
      }
      i := i + 1;
    }
    SeedsDone(tracks, d, seeds);
    values := SortByKey(seeds);
  }

  /**
   * `get_next_payback_values(researches, discount_level)`, consumed for at
   * most `n` values: the first value of every research, sorted by payback;
   * then, repeatedly, the smallest is yielded and its research's value at
   * the next level takes its place.
   */
  method NextPaybackValues(researches: seq<Research>, d: int, n: nat) returns (out: seq<Ranked>)
    requires forall i :: 0 <= i < |researches| ==>
      Sane(researches[i].elem.Data()) && Growing(researches[i].elem.Data())
    ensures out == Merge(Tracks(researches), d, n)
  {
    ghost var tracks := Tracks(researches);
    var values := StartValues(researches, d);
    assert Tracks(researches) == tracks;
    out := [];
    ghost var total := Run(tracks, d, Start(tracks, d), n);
    var k := n;
    while values != [] && k > 0
      invariant |out| + k == n
      invariant forall y :: y in values ==> y.research < |researches|
      invariant Run(tracks, d, State(out, values), k) == total
      decreases k
    {
      var v := values[0];
      assert v in values;
      var more := researches[v.research].GetPaybackValues(d, Some(v.value.level + 1), 1);
      var next := if more != [] then SortByKey(values[1..] + [Ranked(v.research, more[0])]) else values[1..];
      ghost var e := researches[v.research].elem.Data();
      assert tracks[v.research].elem == e;
      ghost var k0, out0, values0 := k, out, values;
      values := next;
      out := out + [v];
      k := k - 1;
      YieldStep(tracks, d, out0, values0, k0, k, v, e, more, next, |researches|);
    }
    RunStopped(tracks, d, State(out, values), k);
    assert Tracks(researches) == tracks;
  }
}
