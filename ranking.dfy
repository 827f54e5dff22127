/** The per-variable result records of the descriptive statistics and the
    ranking policy applied to a group of them: Python's stable
    `list.sort(key=percentage, reverse=True)` followed by writing
    `rank = position + 1` (and, for indicator set 1, `is_top_ranked`) into
    each record. */
module Ranking {
  import opened SurveyData
  import opened Classifiers

  /** The `category` field of a result. */
  datatype Category = ServiceDisruptions | PopulationsMostAffected | Outcome

  /** The `positive` field of a binary result, or the `categories` map
      (label to count) of a categorical one. */
  datatype Breakdown = Positive(positive: int) | Categories(counts: map<Value, nat>)

  datatype DescriptiveResult = DescriptiveResult(
    variable: string,
    name: string,
    category: Category,
    kind: Kind,
    total: nat,
    breakdown: Breakdown,
    percentage: real,
    concern: Level,
    rank: nat,
    /** Absent outside indicator set 1, where the source never sets it. */
    isTopRanked: Option<bool>)

  /** A result as it is built, before the ranking writes into it. */
  predicate IsUnranked(r: DescriptiveResult)
  {
    r.rank == 0 && r.isTopRanked == None
  }

  function Unrank(r: DescriptiveResult): DescriptiveResult
  {
    r.(rank := 0, isTopRanked := None)
  }

  function UnrankAll(s: seq<DescriptiveResult>): (u: seq<DescriptiveResult>)
    ensures |u| == |s|
    ensures forall i :: 0 <= i < |s| ==> u[i] == Unrank(s[i])
  {
    seq(|s|, i requires 0 <= i < |s| => Unrank(s[i]))
  }

  /** Non-increasing percentages. */
  ghost predicate Descending(s: seq<DescriptiveResult>)
  {
    forall i, j :: 0 <= i < j < |s| ==> s[i].percentage >= s[j].percentage
  }

  /** The results whose percentage is `p`, in their order in `s`. */
  function WithPercentage(s: seq<DescriptiveResult>, p: real): seq<DescriptiveResult>
  {
    if s == [] then []
    else WithPercentage(s[..|s| - 1], p) + (if s[|s| - 1].percentage == p then [s[|s| - 1]] else [])
  }

  /** Inserts `x` into a descending sequence after every element whose
      percentage is at least x's: the step of a stable insertion sort. */
  function InsertDescending(x: DescriptiveResult, s: seq<DescriptiveResult>): (r: seq<DescriptiveResult>)
    ensures |r| == |s| + 1
    ensures multiset(r) == multiset(s) + multiset{x}
  {
    if s == [] || s[|s| - 1].percentage >= x.percentage then s + [x]
    else
      assert s == s[..|s| - 1] + [s[|s| - 1]];
      InsertDescending(x, s[..|s| - 1]) + [s[|s| - 1]]
  }

  /** The stable sort by percentage, descending: the order Python's
      `sort(key=..., reverse=True)` produces. */
  function SortDescending(s: seq<DescriptiveResult>): (r: seq<DescriptiveResult>)
    ensures |r| == |s|
    ensures multiset(r) == multiset(s)
  {
    if s == [] then []
    else
      assert s == s[..|s| - 1] + [s[|s| - 1]];
      InsertDescending(s[|s| - 1], SortDescending(s[..|s| - 1]))
  }

  lemma {:induction false} WithPercentageAppend(a: seq<DescriptiveResult>, b: seq<DescriptiveResult>, p: real)
    ensures WithPercentage(a + b, p) == WithPercentage(a, p) + WithPercentage(b, p)
    decreases |b|
  {
    if b == [] {
      assert a + b == a;
    } else {
      var init := b[..|b| - 1];
      assert (a + b)[..|a + b| - 1] == a + init;
      WithPercentageAppend(a, init, p);
    }
  }

  lemma {:induction false} InsertDescendingSorted(x: DescriptiveResult, s: seq<DescriptiveResult>)
    requires Descending(s)
    ensures Descending(InsertDescending(x, s))
    decreases |s|
  {
    if s == [] || s[|s| - 1].percentage >= x.percentage {
    } else {
      var init, last := s[..|s| - 1], s[|s| - 1];
      InsertDescendingSorted(x, init);
      var r := InsertDescending(x, init);
      forall i | 0 <= i < |r|
        ensures r[i].percentage >= last.percentage
      {
        assert r[i] in multiset(r);
        if r[i] != x {
          assert r[i] in multiset(init);
          var k :| 0 <= k < |init| && init[k] == r[i];
          assert s[k] == r[i];
        }
      }
    }
  }

  /** Inserting `x` puts it after every result of equal percentage. */
  lemma {:induction false} InsertDescendingStable(x: DescriptiveResult, s: seq<DescriptiveResult>, p: real)
    ensures WithPercentage(InsertDescending(x, s), p) == WithPercentage(s + [x], p)
    decreases |s|
  {
    if s == [] || s[|s| - 1].percentage >= x.percentage {
    } else {
      var init, last := s[..|s| - 1], s[|s| - 1];
      InsertDescendingStable(x, init, p);
      var r := InsertDescending(x, init);
      calc {
        WithPercentage(r + [last], p);
        { WithPercentageAppend(r, [last], p); }
        WithPercentage(r, p) + WithPercentage([last], p);
        WithPercentage(init + [x], p) + WithPercentage([last], p);
        { WithPercentageAppend(init, [x], p); }
        WithPercentage(init, p) + WithPercentage([x], p) + WithPercentage([last], p);
        // x and last differ in percentage, so at most one of them is kept
        WithPercentage(init, p) + WithPercentage([last], p) + WithPercentage([x], p);
        { WithPercentageAppend(init, [last], p); assert init + [last] == s; }
        WithPercentage(s, p) + WithPercentage([x], p);
        { WithPercentageAppend(s, [x], p); }
        WithPercentage(s + [x], p);
      }
    }
  }

  /** The sort orders by percentage, descending. */
  lemma {:induction false} SortDescendingSorted(s: seq<DescriptiveResult>)
    ensures Descending(SortDescending(s))
  {
    if s != [] {
      SortDescendingSorted(s[..|s| - 1]);
      InsertDescendingSorted(s[|s| - 1], SortDescending(s[..|s| - 1]));
    }
  }

  /** The sort is stable: the results of any one percentage keep their
      original relative order. */
  lemma {:induction false} SortDescendingStable(s: seq<DescriptiveResult>, p: real)
    ensures WithPercentage(SortDescending(s), p) == WithPercentage(s, p)
  {
    if s != [] {
      var init, last := s[..|s| - 1], s[|s| - 1];
      SortDescendingStable(init, p);
      InsertDescendingStable(last, SortDescending(init), p);
      WithPercentageAppend(SortDescending(init), [last], p);
      WithPercentageAppend(init, [last], p);
      assert init + [last] == s;
    }
  }

  /** `ranked` is `group` stable-sorted by percentage, descending, with
      ranks 1..n written in sorted order and, when `markTop`, the
      `is_top_ranked` flag set exactly on rank 1. */
  ghost predicate IsRankingOf(ranked: seq<DescriptiveResult>, group: seq<DescriptiveResult>, markTop: bool)
  {
    && |ranked| == |group|
    && (forall i :: 0 <= i < |ranked| ==> ranked[i].rank == i + 1)
    && (forall i :: 0 <= i < |ranked| ==>
          ranked[i].isTopRanked == (if markTop then Some(ranked[i].rank == 1) else None))
    && (forall i, j :: 0 <= i < |ranked| && 0 <= j < |ranked| && ranked[i].percentage > ranked[j].percentage ==>
          ranked[i].rank < ranked[j].rank)
    && multiset(UnrankAll(ranked)) == multiset(group)
    && (forall p :: WithPercentage(UnrankAll(ranked), p) == WithPercentage(group, p))
  }

  /** In-place stable sort of a group of results, as an insertion sort over
      the list. */
  method SortByPercentage(results: seq<DescriptiveResult>) returns (sorted: seq<DescriptiveResult>)
    ensures sorted == SortDescending(results)
    ensures Descending(sorted)
    ensures multiset(sorted) == multiset(results)
    ensures forall p :: WithPercentage(sorted, p) == WithPercentage(results, p)
  {
    sorted := [];
    for i := 0 to |results|
      invariant sorted == SortDescending(results[..i])
    {
      assert results[..i + 1][..i] == results[..i];
      assert SortDescending(results[..i + 1]) == InsertDescending(results[i], SortDescending(results[..i]));
      sorted := InsertSorted(sorted, results[i]);
    }
    assert results[..|results|] == results;
    SortDescendingSorted(results);
    forall p ensures WithPercentage(sorted, p) == WithPercentage(results, p) {
      SortDescendingStable(results, p);
    }
  }

  /** One insertion step: shifts left past every result of strictly lower
      percentage, then inserts. */
  method InsertSorted(sorted: seq<DescriptiveResult>, x: DescriptiveResult) returns (r: seq<DescriptiveResult>)
    ensures r == InsertDescending(x, sorted)
  {
    var j := |sorted|;
    assert sorted[..j] == sorted && sorted[j..] == [];
    while j > 0 && sorted[j - 1].percentage < x.percentage
      invariant 0 <= j <= |sorted|
      invariant InsertDescending(x, sorted) == InsertDescending(x, sorted[..j]) + sorted[j..]
    {
      assert sorted[..j][..j - 1] == sorted[..j - 1];
      assert sorted[j - 1..] == [sorted[j - 1]] + sorted[j..];
      j := j - 1;
    }
    r := sorted[..j] + [x] + sorted[j..];
  }

  /** Writes `rank = i + 1` (and the top-ranked flag when `markTop`) into
      each result of a sorted group. */
  method AssignRanks(sorted: seq<DescriptiveResult>, markTop: bool) returns (ranked: seq<DescriptiveResult>)
    ensures RanksWritten(sorted, ranked, markTop)
  {
    ranked := sorted;
    for i := 0 to |ranked|
      invariant |ranked| == |sorted|
      invariant forall k :: 0 <= k < i ==>
        ranked[k] == sorted[k].(rank := k + 1, isTopRanked := if markTop then Some(k == 0) else sorted[k].isTopRanked)
      invariant forall k :: i <= k < |ranked| ==> ranked[k] == sorted[k]
    {
      var result := ranked[i].(rank := i + 1);
      if markTop {
        result := result.(isTopRanked := Some(i == 0));
      }
      ranked := ranked[i := result];
    }
  }

  /** Sorting keeps every result of an unranked group unranked. */
  lemma SortedStaysUnranked(group: seq<DescriptiveResult>)
    requires forall i :: 0 <= i < |group| ==> IsUnranked(group[i])
    ensures forall i :: 0 <= i < |group| ==> IsUnranked(SortDescending(group)[i])
  {
    var sorted := SortDescending(group);
    forall i | 0 <= i < |sorted| ensures IsUnranked(sorted[i]) {
      assert sorted[i] in multiset(group);
      var k :| 0 <= k < |group| && group[k] == sorted[i];
    }
  }

  /** `ranked` is `sorted` with `rank = i + 1` written at each position i
      and, when `markTop`, `is_top_ranked = (i == 0)`. */
  ghost predicate RanksWritten(sorted: seq<DescriptiveResult>, ranked: seq<DescriptiveResult>, markTop: bool)
  {
    && |ranked| == |sorted|
    && forall i :: 0 <= i < |sorted| ==>
         ranked[i] == sorted[i].(rank := i + 1, isTopRanked := if markTop then Some(i == 0) else sorted[i].isTopRanked)
  }

  lemma RanksWrittenFields(sorted: seq<DescriptiveResult>, ranked: seq<DescriptiveResult>, markTop: bool)
    requires RanksWritten(sorted, ranked, markTop)
    requires forall i :: 0 <= i < |sorted| ==> IsUnranked(sorted[i])
    ensures UnrankAll(ranked) == sorted
    ensures forall i :: 0 <= i < |ranked| ==> ranked[i].rank == i + 1
    ensures forall i :: 0 <= i < |ranked| ==> ranked[i].percentage == sorted[i].percentage
    ensures forall i :: 0 <= i < |ranked| ==>
      ranked[i].isTopRanked == (if markTop then Some(ranked[i].rank == 1) else None)
  {
    forall i | 0 <= i < |ranked| ensures UnrankAll(ranked)[i] == sorted[i] { }
  }

  lemma RanksFollowPercentages(ranked: seq<DescriptiveResult>)
    requires Descending(ranked)
    requires forall i :: 0 <= i < |ranked| ==> ranked[i].rank == i + 1
    ensures forall i, j :: 0 <= i < |ranked| && 0 <= j < |ranked| && ranked[i].percentage > ranked[j].percentage ==>
          ranked[i].rank < ranked[j].rank
  {
  }

  /** Sorting an unranked group and writing ranks into it yields a ranking
      of the group. */
  lemma RankedSortIsRanking(group: seq<DescriptiveResult>, markTop: bool, ranked: seq<DescriptiveResult>)
    requires forall i :: 0 <= i < |group| ==> IsUnranked(group[i])
    requires RanksWritten(SortDescending(group), ranked, markTop)
    ensures IsRankingOf(ranked, group, markTop)
  {
    var sorted := SortDescending(group);
    SortDescendingSorted(group);
    SortedStaysUnranked(group);
    RanksWrittenFields(sorted, ranked, markTop);
    assert Descending(ranked) by {
      forall i, j | 0 <= i < j < |ranked| ensures ranked[i].percentage >= ranked[j].percentage {
        assert sorted[i].percentage >= sorted[j].percentage;
      }
    }
    RanksFollowPercentages(ranked);
    forall p ensures WithPercentage(UnrankAll(ranked), p) == WithPercentage(group, p) {
      SortDescendingStable(group, p);
    }
  }
}
