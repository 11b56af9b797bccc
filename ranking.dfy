/**
 * The pending list of `get_next_payback_values`: values tagged with their
 * research, kept in payback order by Python's stable `sorted`.
 */
module Ranking {
  import opened Wrappers
  import opened Prices
  import opened Progression
  import opened Sequences

  /** A yielded value and the research (by position) it belongs to. */
  datatype Ranked = Ranked(research: nat, value: PaybackValue)

  /** The sort key: the payback, a missing payback counting as 0. */
  function PKey(v: PaybackValue): real
  {
    if v.payback.Some? then v.payback.value else 0.0
  }

  function Key(x: Ranked): real
  {
    PKey(x.value)
  }

  predicate Sorted(s: seq<Ranked>)
  {
    forall i, j :: 0 <= i < j < |s| ==> Key(s[i]) <= Key(s[j])
  }

  // ----- the stable sort -----

  /** Stable insertion: `x` goes after every element whose key is not above its own. */
  function Insert(s: seq<Ranked>, x: Ranked): (r: seq<Ranked>)
    ensures |r| == |s| + 1
    ensures multiset(r) == multiset(s) + multiset{x}
  {
    if s == [] then [x]
    else if Key(x) < Key(s[0]) then [x] + s
    else
      assert s == [s[0]] + s[1..];
      [s[0]] + Insert(s[1..], x)
  }

  /**
   * Where the insertion puts `x`: after the leading run of elements whose
   * keys are not above its own, in front of the first element with a
   * greater key; in a sorted list, after every element with an equal key.
   */
  function InsertionPoint(s: seq<Ranked>, x: Ranked): (i: nat)
    ensures i <= |s|
    ensures forall j :: 0 <= j < i ==> Key(s[j]) <= Key(x)
    ensures i < |s| ==> Key(x) < Key(s[i])
    ensures Sorted(s) ==> forall j :: i <= j < |s| ==> Key(x) < Key(s[j])
  {
    if s == [] || Key(x) < Key(s[0]) then 0 else 1 + InsertionPoint(s[1..], x)
  }

  /** The insertion puts `x` at its insertion point; the other elements keep their order. */
  lemma {:induction false} InsertPosition(s: seq<Ranked>, x: Ranked)
    ensures Insert(s, x) == s[..InsertionPoint(s, x)] + [x] + s[InsertionPoint(s, x)..]
  {
    if s == [] || Key(x) < Key(s[0]) {
      assert s[..0] == [] && s[0..] == s;
    } else {
      var tail := s[1..];
      InsertPosition(tail, x);
      var i := InsertionPoint(tail, x);
      assert InsertionPoint(s, x) == i + 1;
      assert Insert(s, x) == [s[0]] + Insert(tail, x);
      assert [s[0]] + tail == s;
      ConsSplit(s[0], tail, i, x);
    }
  }

  lemma ConsSplit<T>(h: T, t: seq<T>, i: nat, x: T)
    requires i <= |t|
    ensures [h] + (t[..i] + [x] + t[i..]) == ([h] + t)[..i + 1] + [x] + ([h] + t)[i + 1..]
  {
    assert ([h] + t)[..i + 1] == [h] + t[..i];
    assert ([h] + t)[i + 1..] == t[i..];
  }

  lemma InsertMembers(s: seq<Ranked>, x: Ranked)
    ensures forall y :: y in Insert(s, x) <==> y in s || y == x
  {
    assert forall y :: y in Insert(s, x) <==> y in multiset(Insert(s, x));
  }

  lemma {:induction false} InsertSorted(s: seq<Ranked>, x: Ranked)
    requires Sorted(s)
    ensures Sorted(Insert(s, x))
  {
    if s != [] && Key(x) >= Key(s[0]) {
      InsertSorted(s[1..], x);
      InsertMembers(s[1..], x);
      var t := Insert(s[1..], x);
      assert forall j :: 0 <= j < |t| ==> Key(s[0]) <= Key(t[j]) by {
        forall j | 0 <= j < |t| ensures Key(s[0]) <= Key(t[j]) {
          assert t[j] in t;
          if t[j] != x {
            var k :| 0 <= k < |s[1..]| && s[1..][k] == t[j];
            assert s[k + 1] == t[j];
          }
        }
      }
    }
  }

  /** An element whose key is not below any other's is placed last. */
  lemma {:induction false} InsertLast(s: seq<Ranked>, x: Ranked)
    requires forall j :: 0 <= j < |s| ==> Key(s[j]) <= Key(x)
    ensures Insert(s, x) == s + [x]
  {
    if s != [] {
      InsertLast(s[1..], x);
      assert s == [s[0]] + s[1..];
    }
  }

  /** `sorted(l, key=...)`: a stable insertion sort by key. */
  function SortByKey(s: seq<Ranked>): (r: seq<Ranked>)
    ensures |r| == |s|
    ensures multiset(r) == multiset(s)
  {
    if s == [] then []
    else
      assert s == s[..|s| - 1] + [s[|s| - 1]];
      Insert(SortByKey(s[..|s| - 1]), s[|s| - 1])
  }

  /** The sort orders by key and is a permutation of its input. */
  lemma {:induction false} SortByKeySorted(s: seq<Ranked>)
    ensures Sorted(SortByKey(s))
    ensures forall y :: y in SortByKey(s) <==> y in s
    decreases |s|
  {
    assert forall y :: y in SortByKey(s) <==> y in multiset(SortByKey(s));
    if s != [] {
      SortByKeySorted(s[..|s| - 1]);
      InsertSorted(SortByKey(s[..|s| - 1]), s[|s| - 1]);
    }
  }

  /** An already sorted list is left as it is. */
  lemma {:induction false} SortedUnchanged(s: seq<Ranked>)
    requires Sorted(s)
    ensures SortByKey(s) == s
    decreases |s|
  {
    if s != [] {
      var n := |s| - 1;
      SortedUnchanged(s[..n]);
      InsertLast(s[..n], s[n]);
      assert s[..n] + [s[n]] == s;
    }
  }

  /** Appending to a sorted list and sorting again inserts the new element stably. */
  lemma SortAfterAppend(s: seq<Ranked>, x: Ranked)
    requires Sorted(s)
    ensures SortByKey(s + [x]) == Insert(s, x)
  {
    assert (s + [x])[..|s|] == s;
    SortedUnchanged(s);
  }

  // ----- stability -----

  /** The elements of `s` with key `c`, in their order in `s`. */
  function WithKey(s: seq<Ranked>, c: real): (r: seq<Ranked>)
    ensures |r| <= |s|
  {
    if s == [] then []
    else (if Key(s[0]) == c then [s[0]] else []) + WithKey(s[1..], c)
  }

  lemma {:induction false} WithKeyAppend(a: seq<Ranked>, b: seq<Ranked>, c: real)
    ensures WithKey(a + b, c) == WithKey(a, c) + WithKey(b, c)
  {
    if a == [] {
      assert a + b == b;
    } else {
      WithKeyAppend(a[1..], b, c);
      assert (a + b)[1..] == a[1..] + b;
      var h := if Key(a[0]) == c then [a[0]] else [];
      AppendAssoc(h, WithKey(a[1..], c), WithKey(b, c));
    }
  }

  /** No element has key `c` when all keys are above it. */
  lemma {:induction false} WithKeyAbove(s: seq<Ranked>, c: real)
    requires forall j :: 0 <= j < |s| ==> c < Key(s[j])
    ensures WithKey(s, c) == []
  {
    if s != [] {
      WithKeyAbove(s[1..], c);
    }
  }

  /** Inserting into a sorted list puts `x` after every element with the same key. */
  lemma {:induction false} InsertWithKey(s: seq<Ranked>, x: Ranked, c: real)
    requires Sorted(s)
    ensures WithKey(Insert(s, x), c) == WithKey(s, c) + WithKey([x], c)
  {
    var hx := WithKey([x], c);
    assert hx == if Key(x) == c then [x] else [];
    if s == [] {
    } else if Key(x) < Key(s[0]) {
      assert Insert(s, x) == [x] + s;
      WithKeyAppend([x], s, c);
      if Key(x) == c {
        WithKeyAbove(s, c);
      }
    } else {
      var tail := s[1..];
      InsertWithKey(tail, x, c);
      var h := if Key(s[0]) == c then [s[0]] else [];
      assert Insert(s, x) == [s[0]] + Insert(tail, x);
      assert WithKey(Insert(s, x), c) == h + WithKey(Insert(tail, x), c);
      AppendAssoc(h, WithKey(tail, c), hx);
    }
  }

  /**
   * The sort is stable: the elements with any one key come out in the order
   * they went in.
   */
  lemma {:induction false} SortByKeyKeepsOrder(s: seq<Ranked>, c: real)
    ensures WithKey(SortByKey(s), c) == WithKey(s, c)
    decreases |s|
  {
    if s != [] {
      var n := |s| - 1;
      SortByKeyKeepsOrder(s[..n], c);
      SortByKeySorted(s[..n]);
      InsertWithKey(SortByKey(s[..n]), s[n], c);
      WithKeyAppend(s[..n], [s[n]], c);
      assert s[..n] + [s[n]] == s;
    }
  }

  // ----- researches in the pending list -----

  predicate DistinctResearch(s: seq<Ranked>)
  {
    forall i, j :: 0 <= i < j < |s| ==> s[i].research != s[j].research
  }

  /** Research `r` has a value in the pending list. */
  predicate Pending(s: seq<Ranked>, r: nat)
  {
    exists y :: y in s && y.research == r
  }

  /** A value of a research not in the list can go in front of it. */
  lemma ConsDistinct(x: Ranked, rest: seq<Ranked>)
    requires DistinctResearch(rest)
    requires forall y :: y in rest ==> y.research != x.research
    ensures DistinctResearch([x] + rest)
  {
    var s := [x] + rest;
    forall a, b | 0 <= a < b < |s| ensures s[a].research != s[b].research {
      assert s[b] == rest[b - 1];
      if a > 0 {
        assert s[a] == rest[a - 1];
      } else {
        assert rest[b - 1] in rest;
      }
    }
  }

  lemma {:induction false} InsertDistinct(s: seq<Ranked>, x: Ranked)
    requires DistinctResearch(s) && !Pending(s, x.research)
    ensures DistinctResearch(Insert(s, x))
  {
    if s != [] && Key(x) >= Key(s[0]) {
      forall y | y in s[1..] ensures y.research != x.research {
        assert y in s;
      }
      InsertDistinct(s[1..], x);
      InsertMembers(s[1..], x);
      var t := Insert(s[1..], x);
      assert s[0] in s;
      forall j | 0 <= j < |t| ensures t[j].research != s[0].research {
        assert t[j] in t;
        if t[j] != x {
          var k :| 0 <= k < |s[1..]| && s[1..][k] == t[j];
          assert s[k + 1] == t[j];
        }
      }
    } else if s != [] {
      forall j | 0 <= j < |s| ensures s[j].research != x.research {
        assert s[j] in s;
      }
    }
  }

  lemma {:induction false} SortByKeyDistinct(s: seq<Ranked>)
    requires DistinctResearch(s)
    ensures DistinctResearch(SortByKey(s))
    decreases |s|
  {
    if s != [] {
      var n := |s| - 1;
      SortByKeyDistinct(s[..n]);
      SortByKeySorted(s[..n]);
      forall y | y in SortByKey(s[..n]) ensures y.research != s[n].research {
        var k :| 0 <= k < n && s[..n][k] == y;
        assert s[k] == y;
      }
      InsertDistinct(SortByKey(s[..n]), s[n]);
    }
  }
}
