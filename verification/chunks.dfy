/**
 The chunk planner of main.cpp: it divides the line indices `[0, totalLines)` into
 exactly `numThreads` contiguous half-open ranges, the first
 `totalLines % numThreads` of which hold one extra line.
 */
module Chunks {
  import opened Ordering

  /** A half-open range `[start, end)` of line indices handed to one task. */
  datatype Range = Range(start: nat, end: nat)

  /** Where task `tid` starts, given the planner's `chunkSize` (the quotient of
      the line count by the task count) and `remainder`: after the lengths of
      all earlier tasks, each `chunkSize` plus one below the remainder. In
      closed form, `tid` full chunks plus one extra line for each earlier task
      below the remainder. */
  function ChunkStart(chunkSize: nat, remainder: nat, tid: nat): (start: nat)
    ensures start == tid * chunkSize + Min(tid, remainder)
  {
    if tid == 0 then 0
    else
      var prev := ChunkStart(chunkSize, remainder, tid - 1);
      assert (tid - 1) * chunkSize + chunkSize == tid * chunkSize;
      prev + chunkSize + (if tid - 1 < remainder then 1 else 0)
  }

  /** `ranges` tile `[0, total)`: non-empty, starting at 0, each range well
      ordered, each one starting where the previous one ends, the last ending at
      `total`. */
  predicate Partition(ranges: seq<Range>, total: nat) {
    && |ranges| >= 1
    && ranges[0].start == 0
    && ranges[|ranges| - 1].end == total
    && (forall i :: 0 <= i < |ranges| ==> ranges[i].start <= ranges[i].end)
    && (forall i :: 0 <= i < |ranges| - 1 ==> ranges[i].end == ranges[i + 1].start)
  }

  /** The last task ends at `totalLines`. */
  lemma ChunkStartLast(totalLines: nat, numThreads: nat)
    requires numThreads >= 1
    ensures ChunkStart(totalLines / numThreads, totalLines % numThreads, numThreads) == totalLines
  {
    assert numThreads * (totalLines / numThreads) + totalLines % numThreads == totalLines;
  }

  /** The planning loop. */
  method PlanChunks(totalLines: nat, numThreads: nat) returns (ranges: seq<Range>)
    requires numThreads >= 1
    ensures |ranges| == numThreads
    ensures Partition(ranges, totalLines)
    ensures forall tid :: 0 <= tid < numThreads ==>
              ranges[tid].end - ranges[tid].start
              == totalLines / numThreads + (if tid < totalLines % numThreads then 1 else 0)
    ensures forall t1, t2 :: 0 <= t1 < numThreads && 0 <= t2 < numThreads ==>
              -1 <= (ranges[t1].end - ranges[t1].start) - (ranges[t2].end - ranges[t2].start) <= 1
    ensures forall tid {:trigger ranges[tid]} :: 0 <= tid < numThreads ==>
              ranges[tid] == Range(ChunkStart(totalLines / numThreads, totalLines % numThreads, tid),
                                   ChunkStart(totalLines / numThreads, totalLines % numThreads, tid + 1))
  {
    var chunkSize := totalLines / numThreads;
    var remainder := totalLines % numThreads;
    var startIdx := 0;
    ranges := [];
    var tid := 0;
    while tid < numThreads
      invariant 0 <= tid <= numThreads
      invariant |ranges| == tid
      invariant startIdx == ChunkStart(totalLines / numThreads, totalLines % numThreads, tid)
      invariant forall j {:trigger ranges[j]} :: 0 <= j < tid ==>
                  ranges[j] == Range(ChunkStart(totalLines / numThreads, totalLines % numThreads, j),
                                     ChunkStart(totalLines / numThreads, totalLines % numThreads, j + 1))
    {
      var extra := if tid < remainder then 1 else 0;
      var endIdx := startIdx + chunkSize + extra;
      assert endIdx == ChunkStart(totalLines / numThreads, totalLines % numThreads, tid + 1);
      ranges := ranges + [Range(startIdx, endIdx)];
      startIdx := endIdx;
      tid := tid + 1;
    }
    PlannedRanges(ranges, totalLines, numThreads);
  }

  /** What the closed-form starts give: a tiling with the stated lengths. */
  lemma PlannedRanges(ranges: seq<Range>, totalLines: nat, numThreads: nat)
    requires numThreads >= 1 && |ranges| == numThreads
    requires forall tid {:trigger ranges[tid]} :: 0 <= tid < numThreads ==>
               ranges[tid] == Range(ChunkStart(totalLines / numThreads, totalLines % numThreads, tid),
                                    ChunkStart(totalLines / numThreads, totalLines % numThreads, tid + 1))
    ensures Partition(ranges, totalLines)
    ensures forall tid :: 0 <= tid < numThreads ==>
              ranges[tid].end - ranges[tid].start
              == totalLines / numThreads + (if tid < totalLines % numThreads then 1 else 0)
    ensures forall t1, t2 :: 0 <= t1 < numThreads && 0 <= t2 < numThreads ==>
              -1 <= (ranges[t1].end - ranges[t1].start) - (ranges[t2].end - ranges[t2].start) <= 1
  {
    ChunkStartLast(totalLines, numThreads);
    assert ranges[0].start == ChunkStart(totalLines / numThreads, totalLines % numThreads, 0) == 0;
    forall i | 0 <= i < numThreads - 1
      ensures ranges[i].end == ranges[i + 1].start
    {
      assert ranges[i + 1].start == ChunkStart(totalLines / numThreads, totalLines % numThreads, i + 1);
    }
    forall tid | 0 <= tid < numThreads
      ensures ranges[tid].end - ranges[tid].start
              == totalLines / numThreads + (if tid < totalLines % numThreads then 1 else 0)
    {
      ChunkLength(totalLines, numThreads, tid);
    }
  }

  lemma ChunkLength(totalLines: nat, numThreads: nat, tid: nat)
    requires numThreads >= 1
    ensures ChunkStart(totalLines / numThreads, totalLines % numThreads, tid + 1) - ChunkStart(totalLines / numThreads, totalLines % numThreads, tid)
         == totalLines / numThreads + (if tid < totalLines % numThreads then 1 else 0)
  {
  }

  /** Consecutive ranges of a partition: every earlier range ends no later than
      any later one starts, so the ranges never overlap. */
  lemma {:induction false} PartitionOrdered(ranges: seq<Range>, total: nat, i: nat, j: nat)
    requires Partition(ranges, total)
    requires i < j < |ranges|
    ensures ranges[i].end <= ranges[j].start
    decreases j - i
  {
    if i + 1 < j {
      PartitionOrdered(ranges, total, i + 1, j);
    }
  }

  /** Every line index below `total` falls in exactly one range. */
  lemma {:induction false} PartitionCovers(ranges: seq<Range>, total: nat, line: nat)
    requires Partition(ranges, total)
    requires line < total
    ensures exists tid :: 0 <= tid < |ranges| && ranges[tid].start <= line < ranges[tid].end
    ensures forall t1, t2 ::
              (0 <= t1 < |ranges| && 0 <= t2 < |ranges| &&
               ranges[t1].start <= line < ranges[t1].end &&
               ranges[t2].start <= line < ranges[t2].end) ==> t1 == t2
  {
    var k := 0;
    while ranges[k].end <= line
      invariant 0 <= k < |ranges|
      invariant ranges[k].start <= line
      decreases |ranges| - k
    {
      k := k + 1;
    }
    forall t1, t2 |
      0 <= t1 < |ranges| && 0 <= t2 < |ranges| &&
      ranges[t1].start <= line < ranges[t1].end &&
      ranges[t2].start <= line < ranges[t2].end
      ensures t1 == t2
    {
      if t1 < t2 {
        PartitionOrdered(ranges, total, t1, t2);
      } else if t2 < t1 {
        PartitionOrdered(ranges, total, t2, t1);
      }
    }
  }
}
