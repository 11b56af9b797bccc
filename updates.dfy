/**
 * The start-up questions of `IdleAirport.ask_for_database_updates`: for each
 * research, whether the player is asked for the price at its current level,
 * and in which form.
 */
module Updates {
  import opened Wrappers
  import opened Units
  import opened Prices
  import opened Estimation
  import opened Database
  import opened Merging

  /**
   * The form the question takes: confirm a price known only at another
   * discount, or give the price of a level nobody has recorded, with or
   * without a known completion level.
   */
  datatype Mode = Discount | Level | LevelLastKnown

  /** A question and the price proposed to the player, if any. */
  datatype Query = Query(mode: Mode, estimate: Option<real>)

  /**
   * The question for a research at `level` under discount `d`: a discount
   * question with the looked-up estimate when the lookup only estimates the
   * price; a level question with the extrapolated price when there is no
   * price and the research is not known to be complete at this level; none
   * otherwise. A level question becomes `level_last_known` when the
   * research's completion level is known.
   */
  function UpdateQuery(e: ElemData, level: int, d: int): (r: Option<Query>)
    requires Sane(e)
    ensures r.Some? && r.value.mode.Discount? ==> r.value.estimate == GetPrice(e, level, d).price
    ensures r.Some? && !r.value.mode.Discount? ==> r.value.estimate == Extrapolate(e, level, d)
  {
    var q := GetPrice(e, level, d);
    if q.price.Some? && q.isEstimate then Some(Query(Discount, q.price))
    else if q.price.None? &&
      (e.lastLevel.None? || (level < e.lastLevel.value && !HasLevel(e, level)))
    then
      var mode := if e.lastLevel.Some? then LevelLastKnown else Level;
      Some(Query(mode, Extrapolate(e, level, d)))
    else None
  }

  /**
   * No question is asked exactly when the research is complete at this level
   * or the price at (level, d) is already recorded.
   */
  lemma UpdateQueryNone(e: ElemData, level: int, d: int)
    requires Sane(e)
    ensures UpdateQuery(e, level, d).None? <==> Completed(e, level) || Recorded(e, level, d).Some?
  {
  }

  /**
   * A discount question is asked exactly when the level has prices, but none
   * at this discount; a level question exactly when the level has none and
   * the research is not complete there, so the source's extra
   * `level not in prices` test never changes the outcome; the level question
   * names the completion level exactly when one is known.
   */
  lemma UpdateQueryModes(e: ElemData, level: int, d: int)
    requires Sane(e)
    ensures var r := UpdateQuery(e, level, d);
      (r.Some? && r.value.mode.Discount? <==>
        !Completed(e, level) && HasLevel(e, level) && Recorded(e, level, d).None?) &&
      (r.Some? && !r.value.mode.Discount? <==> !Completed(e, level) && !HasLevel(e, level)) &&
      (r.Some? && r.value.mode.LevelLastKnown? <==>
        e.lastLevel.Some? && !Completed(e, level) && !HasLevel(e, level))
  {
  }

  /** A discount question always proposes a price; it is flagged as an estimate by the lookup. */
  lemma DiscountProposesPrice(e: ElemData, level: int, d: int)
    requires Sane(e) && UpdateQuery(e, level, d).Some? && UpdateQuery(e, level, d).value.mode.Discount?
    ensures UpdateQuery(e, level, d).value.estimate.Some?
    ensures GetPrice(e, level, d).isEstimate
  {
  }

  /**
   * Answering a question with `add_cost(level, d, ...)` settles it: the
   * table stays sane and the research is not asked about (level, d) again.
   */
  lemma AnswerSettles(e: ElemData, level: int, d: int, amount: real, u: Unit)
    requires Sane(e) && Recorded(e, level, d).None? && amount > 0.0 && d != 100
    ensures Sane(e.(prices := AddPrice(e.prices, Price(level, amount, u, d))))
    ensures UpdateQuery(e.(prices := AddPrice(e.prices, Price(level, amount, u, d))), level, d).None?
  {
    var p := Price(level, amount, u, d);
    AddPriceWellFormed(e, p);
    AddPriceNumeric(e, p);
    RecordedAfterAdd(e, p, level, d);
    UpdateQueryNone(e.(prices := AddPrice(e.prices, p)), level, d);
  }

  /** After `mark_completed(L)` no question is asked about a level at or above L. */
  lemma CompletionSettles(e: ElemData, last: int, level: int, d: int)
    requires Sane(e) && level >= last
    ensures Sane(e.(lastLevel := Some(last)))
    ensures UpdateQuery(e.(lastLevel := Some(last)), level, d).None?
  {
    UpdateQueryNone(e.(lastLevel := Some(last)), level, d);
  }

  // ----- the generator over all researches -----

  /** A question about the research at position `research`. */
  datatype Request = Request(research: nat, query: Query)

  ghost predicate AllSane(tracks: seq<Track>)
  {
    forall k :: 0 <= k < |tracks| ==> Sane(tracks[k].elem)
  }

  /** The question for each research, in the database's order. */
  function Questions(tracks: seq<Track>, d: int): (qs: seq<Option<Query>>)
    requires AllSane(tracks)
    ensures |qs| == |tracks|
    ensures forall k :: 0 <= k < |tracks| ==> qs[k] == UpdateQuery(tracks[k].elem, tracks[k].level, d)
  {
    if tracks == [] then []
    else
      var last := tracks[|tracks| - 1];
      Questions(tracks[..|tracks| - 1], d) + [UpdateQuery(last.elem, last.level, d)]
  }

  /** The questions actually asked from position `i` on, each tagged with its research. */
  function Asked(qs: seq<Option<Query>>, i: nat): seq<Request>
    requires i <= |qs|
    decreases |qs| - i
  {
    if i == |qs| then []
    else
      var here := if qs[i].Some? then [Request(i, qs[i].value)] else [];
      here + Asked(qs, i + 1)
  }

  /** Every question from position `i` on is asked exactly once, in order. */
  lemma {:induction false} AskedComplete(qs: seq<Option<Query>>, i: nat)
    requires i <= |qs|
    ensures forall x :: x in Asked(qs, i) <==> i <= x.research < |qs| && qs[x.research] == Some(x.query)
    ensures forall a, b :: 0 <= a < b < |Asked(qs, i)| ==> Asked(qs, i)[a].research < Asked(qs, i)[b].research
    decreases |qs| - i
  {
    if i < |qs| {
      AskedComplete(qs, i + 1);
      var rest := Asked(qs, i + 1);
      var r := Asked(qs, i);
      if qs[i].Some? {
        assert r == [Request(i, qs[i].value)] + rest;
        forall a, b | 0 <= a < b < |r| ensures r[a].research < r[b].research {
          assert r[b] == rest[b - 1];
          if a > 0 {
            assert r[a] == rest[a - 1];
          } else {
            assert rest[b - 1] in rest;
          }
        }
      } else {
        assert r == rest;
      }
    }
  }

  /**
   * `get_researches_needing_update()`: the questions for each research at
   * its current level, in the database's order.
   */
  function Requests(tracks: seq<Track>, d: int): seq<Request>
    requires AllSane(tracks)
  {
    Asked(Questions(tracks, d), 0)
  }

  /**
   * Every research whose record calls for a question is asked exactly that
   * question, once, and in the database's order.
   */
  lemma RequestsComplete(tracks: seq<Track>, d: int)
    requires AllSane(tracks)
    ensures forall x :: x in Requests(tracks, d) <==>
      0 <= x.research < |tracks| &&
      UpdateQuery(tracks[x.research].elem, tracks[x.research].level, d) == Some(x.query)
    ensures forall a, b :: 0 <= a < b < |Requests(tracks, d)| ==>
      Requests(tracks, d)[a].research < Requests(tracks, d)[b].research
  {
    AskedComplete(Questions(tracks, d), 0);
  }
}
