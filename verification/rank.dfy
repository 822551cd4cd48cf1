/**
 The last phase of main.cpp: every merged station gets its average, and the
 stations are listed by descending maximum temperature. The comparison sort is
 modelled by insertion; only the order of maxima and the permutation are
 specified, not where stations with equal maxima end up.
 */
module Rank {
  import opened Summary
  import opened Fold

  /** A station's final statistics with the derived average. */
  datatype Report = Report(stats: Stats, average: real)

  function ReportOf(s: Stats): (r: Report)
    requires s.count >= 1
    ensures r.stats == s
    ensures r.average * (s.count as real) == s.sum as real
  {
    Report(s, Average(s))
  }

  /** Maxima never increase along the sequence. */
  predicate SortedByMaxDesc(reports: seq<Report>) {
    forall i, j :: 0 <= i < j < |reports| ==> reports[i].stats.max >= reports[j].stats.max
  }

  function InsertByMax(x: Report, sorted: seq<Report>): (r: seq<Report>)
    requires SortedByMaxDesc(sorted)
    ensures SortedByMaxDesc(r)
    ensures multiset(r) == multiset(sorted) + multiset{x}
    ensures r[0] == x || (sorted != [] && r[0] == sorted[0])
  {
    if sorted == [] then [x]
    else if x.stats.max >= sorted[0].stats.max then
      SortedCons(x, sorted);
      [x] + sorted
    else
      var rest := InsertByMax(x, sorted[1..]);
      assert sorted == [sorted[0]] + sorted[1..];
      assert multiset(sorted) == multiset{sorted[0]} + multiset(sorted[1..]);
      SortedCons(sorted[0], rest);
      [sorted[0]] + rest
  }

  /** A head whose max is at least that of a sorted tail's first element keeps the
      sequence sorted. */
  lemma SortedCons(head: Report, tail: seq<Report>)
    requires SortedByMaxDesc(tail)
    requires tail != [] ==> head.stats.max >= tail[0].stats.max
    ensures SortedByMaxDesc([head] + tail)
  {
    var s := [head] + tail;
    forall i, j | 0 <= i < j < |s|
      ensures s[i].stats.max >= s[j].stats.max
    {
      if i == 0 {
        assert s[j] == tail[j - 1];
        if j > 1 {
          assert tail[0].stats.max >= tail[j - 1].stats.max;
        }
      } else {
        assert s[i] == tail[i - 1] && s[j] == tail[j - 1];
      }
    }
  }

  /** The `std::sort` call with the `a.max > b.max` comparator. */
  function SortByMaxDesc(reports: seq<Report>): (r: seq<Report>)
    ensures SortedByMaxDesc(r)
    ensures multiset(r) == multiset(reports)
  {
    if reports == [] then []
    else
      assert reports == [reports[0]] + reports[1..];
      InsertByMax(reports[0], SortByMaxDesc(reports[1..]))
  }

  /** No station is listed twice. */
  predicate DistinctNames(reports: seq<Report>) {
    forall i, j :: 0 <= i < j < |reports| ==> reports[i].stats.name != reports[j].stats.name
  }

  /** One report per station of the map, in some order: each carries its own
      station's statistics and average, and no station appears twice. */
  predicate ListsEach(stations: Accumulator, reports: seq<Report>)
    requires WellFormed(stations)
  {
    && |reports| == |stations|
    && (forall i :: 0 <= i < |reports| ==>
          reports[i].stats.name in stations && reports[i] == ReportOf(stations[reports[i].stats.name]))
    && (forall k :: k in stations ==> exists i :: 0 <= i < |reports| && reports[i].stats.name == k)
    && DistinctNames(reports)
  }

  /** Computes the averages, lists the stations and sorts them by descending
      maximum: each station appears once, with its own statistics and average. */
  method RankStations(stations: Accumulator) returns (out: seq<Report>)
    requires WellFormed(stations)
    ensures |out| == |stations|
    ensures SortedByMaxDesc(out)
    ensures forall i :: 0 <= i < |out| ==>
              out[i].stats.name in stations && out[i] == ReportOf(stations[out[i].stats.name])
    ensures forall k :: k in stations ==> exists i :: 0 <= i < |out| && out[i].stats.name == k
    ensures DistinctNames(out)
  {
    var listed := ListStations(stations);
    out := SortByMaxDesc(listed);
    PermutationListsEach(stations, listed, out);
  }

  /** The averaging loop and the copy of the map's values into a vector. */
  method ListStations(stations: Accumulator) returns (listed: seq<Report>)
    requires WellFormed(stations)
    ensures ListsEach(stations, listed)
  {
    var remaining := stations.Keys;
    listed := [];
    while remaining != {}
      invariant remaining <= stations.Keys
      invariant |listed| + |remaining| == |stations|
      invariant forall i :: 0 <= i < |listed| ==>
                  listed[i].stats.name in stations && listed[i].stats.name !in remaining
                  && listed[i] == ReportOf(stations[listed[i].stats.name])
      invariant forall k :: k in stations && k !in remaining ==>
                  exists i :: 0 <= i < |listed| && listed[i].stats.name == k
      invariant DistinctNames(listed)
      decreases remaining
    {
      var k :| k in remaining;
      var listed' := listed + [ReportOf(stations[k])];
      assert forall i :: 0 <= i < |listed| ==> listed'[i] == listed[i];
      assert listed'[|listed|].stats.name == k;
      assert DistinctNames(listed');
      listed, remaining := listed', remaining - {k};
    }
  }

  /** Reordering a listing keeps it a listing. */
  lemma PermutationListsEach(stations: Accumulator, a: seq<Report>, b: seq<Report>)
    requires WellFormed(stations) && ListsEach(stations, a)
    requires multiset(a) == multiset(b)
    ensures ListsEach(stations, b)
  {
    forall i | 0 <= i < |b|
      ensures b[i] in a
    {
      assert b[i] in multiset(a);
    }
    forall k | k in stations
      ensures exists i :: 0 <= i < |b| && b[i].stats.name == k
    {
      var j :| 0 <= j < |a| && a[j].stats.name == k;
      assert a[j] in multiset(b);
      var i :| 0 <= i < |b| && b[i] == a[j];
    }
    assert |b| == |multiset(b)| == |multiset(a)| == |a|;
    forall i, j | 0 <= i < j < |b|
      ensures b[i].stats.name != b[j].stats.name
    {
      DistinctOnce(a, b[i]);
      if b[i] == b[j] {
        RepeatedTwice(b, i, j);
      }
    }
  }

  /** In a listing without repeated names, no report occurs twice. */
  lemma {:induction false} DistinctOnce(reports: seq<Report>, x: Report)
    requires DistinctNames(reports)
    ensures multiset(reports)[x] <= 1
  {
    if reports != [] {
      var n := |reports| - 1;
      var init := reports[..n];
      assert reports == init + [reports[n]];
      assert forall i :: 0 <= i < n ==> init[i] == reports[i];
      DistinctOnce(init, x);
      if x == reports[n] {
        assert x !in init;
      }
    }
  }

  /** A report at two positions occurs at least twice. */
  lemma RepeatedTwice(reports: seq<Report>, i: nat, j: nat)
    requires i < j < |reports| && reports[i] == reports[j]
    ensures multiset(reports)[reports[i]] >= 2
  {
    assert reports == reports[..j] + [reports[j]] + reports[j + 1..];
    assert reports[..j][i] == reports[i];
  }
}
