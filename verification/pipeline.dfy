/**
 The whole sequential-equivalent pipeline of main.cpp between mapping the file
 and printing: split the contents into lines, plan one line range per task, run
 the worker on every range into its own map, merge the maps, compute averages
 and sort by descending maximum.
 */
module Pipeline {
  import opened Wrappers
  import opened Lines
  import opened Chunks
  import opened Summary
  import opened Fold
  import opened Merge
  import opened Rank

  /** Aggregates `content` with `numThreads` tasks. The result is None exactly
      when some record's temperature fails to convert (the run aborts);
      otherwise it lists every station that has a record exactly once, with the
      count, sum, least and greatest of all its temperatures over the whole file
      and its average, sorted by descending maximum. Each station's entry is the
      same as a single pass gives, whatever `numThreads`; only the relative order
      of stations with equal maxima may differ. */
  method Aggregate(content: string, numThreads: nat, parse: string -> Option<int>)
    returns (result: Option<seq<Report>>)
    requires numThreads >= 1
    ensures result.None? <==> !Converts(SplitLines(content), parse)
    ensures result.Some? ==> SortedByMaxDesc(result.value)
    ensures result.Some? ==>
              forall i :: 0 <= i < |result.value| ==>
                var station := result.value[i].stats.name;
                && Readings(SplitLines(content), station, parse) != []
                && result.value[i] == ReportOf(Summarize(station, Readings(SplitLines(content), station, parse)))
                && result.value[i].stats.min as real <= result.value[i].average <= result.value[i].stats.max as real
    ensures result.Some? ==>
              forall station :: Readings(SplitLines(content), station, parse) != [] ==>
                exists i :: 0 <= i < |result.value| && result.value[i].stats.name == station
    ensures result.Some? ==> DistinctNames(result.value)
  {
    var lines := SplitLines(content);
    var ranges := PlanChunks(|lines|, numThreads);
    PartitionWithin(ranges, |lines|);
    var locals := RunChunks(lines, ranges, parse);
    if locals.None? {
      return None;
    }
    ChunkedEqualsSequential(lines, ranges, parse);
    var merged := MergeAll(locals.value);
    FoldSpec(lines, parse);
    assert Describes(lines, parse, merged);
    var out := RankStations(merged);
    AveragesBounded(lines, parse, merged, out);
    return Some(out);
  }

  /** The parallel phase: one worker per range, each into its own map, in
      range order. A worker that fails aborts the run. */
  method RunChunks(lines: seq<string>, ranges: seq<Range>, parse: string -> Option<int>)
    returns (locals: Option<seq<Accumulator>>)
    requires Within(ranges, |lines|)
    ensures locals == FoldChunks(lines, ranges, parse)
    ensures locals.None? ==> !Converts(lines, parse)
  {
    var done: seq<Accumulator> := [];
    var tid := 0;
    while tid < |ranges|
      invariant 0 <= tid <= |ranges|
      invariant Within(ranges[..tid], |lines|)
      invariant FoldChunks(lines, ranges[..tid], parse) == Some(done)
    {
      var range := ranges[tid];
      var local := Worker(lines, range.start, range.end, parse);
      WithinPrefix(ranges, |lines|, tid + 1);
      assert ranges[..tid + 1][..tid] == ranges[..tid];
      assert ranges[..tid + 1][tid] == range;
      if local.None? {
        ChunkFailureAborts(lines, range.start, range.end, parse);
        assert FoldLines(Chunk(lines, ranges[tid]), parse).None?;
        return None;
      }
      done := done + [local.value];
      tid := tid + 1;
    }
    assert ranges[..tid] == ranges;
    return Some(done);
  }

  lemma AveragesBounded(lines: seq<string>, parse: string -> Option<int>, merged: Accumulator, out: seq<Report>)
    requires Describes(lines, parse, merged)
    requires forall i :: 0 <= i < |out| ==>
               out[i].stats.name in merged && out[i] == ReportOf(merged[out[i].stats.name])
    ensures forall i :: 0 <= i < |out| ==>
              out[i].stats.min as real <= out[i].average <= out[i].stats.max as real
  {
    forall i | 0 <= i < |out|
      ensures out[i].stats.min as real <= out[i].average <= out[i].stats.max as real
    {
      var station := out[i].stats.name;
      SummarizeSound(station, Readings(lines, station, parse));
    }
  }

  /** A chunk whose worker fails contains a record that does not convert. */
  lemma ChunkFailureAborts(lines: seq<string>, start: nat, end: nat, parse: string -> Option<int>)
    requires start <= end <= |lines|
    requires FoldLines(lines[start..end], parse).None?
    ensures !Converts(lines, parse)
  {
    FoldSpec(lines[start..end], parse);
    var j :| 0 <= j < end - start && ParseLine(lines[start..end][j], parse).Unparsable?;
    assert lines[start + j] == lines[start..end][j];
  }
}
