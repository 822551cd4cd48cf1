/**
 The merge phase of main.cpp: the per-chunk maps are folded, in chunk order, into
 one global map. A station met for the first time is copied; a known one gets
 the counts and sums added and the min/max of the two entries. The main result
 here is that running the worker on each planned chunk and merging gives the
 same map as one worker over all lines, whatever the chunking.
 */
module Merge {
  import opened Wrappers
  import opened Summary
  import opened Chunks
  import opened Fold

  /** Folding one chunk's map into the global one. */
  function MergeInto(global: Accumulator, local: Accumulator): (r: Accumulator)
    ensures r.Keys == global.Keys + local.Keys
    ensures forall k :: k in global && k in local ==> r[k] == Combine(global[k], local[k])
    ensures forall k :: k in global && k !in local ==> r[k] == global[k]
    ensures forall k :: k !in global && k in local ==> r[k] == local[k]
  {
    map k | k in global.Keys + local.Keys ::
      if k in global && k in local then Combine(global[k], local[k])
      else if k in global then global[k]
      else local[k]
  }

  /** The global map after merging all chunk maps in order, from an empty one. */
  function MergeAll(locals: seq<Accumulator>): (r: Accumulator)
    ensures forall k :: k in r <==> exists i :: 0 <= i < |locals| && k in locals[i]
  {
    if locals == [] then map[]
    else
      var init := locals[..|locals| - 1];
      var last := locals[|locals| - 1];
      var r := MergeInto(MergeAll(init), last);
      KeysSnoc(locals, MergeAll(init), r);
      r
  }

  /** Adding the keys of one more map to the keys of the maps before it. */
  lemma KeysSnoc(locals: seq<Accumulator>, prev: Accumulator, r: Accumulator)
    requires |locals| >= 1
    requires forall k :: k in prev <==> exists i :: 0 <= i < |locals| - 1 && k in locals[i]
    requires r.Keys == prev.Keys + locals[|locals| - 1].Keys
    ensures forall k :: k in r <==> exists i :: 0 <= i < |locals| && k in locals[i]
  {
    forall k | k in r
      ensures exists i :: 0 <= i < |locals| && k in locals[i]
    {
      if k !in locals[|locals| - 1] {
        var i :| 0 <= i < |locals| - 1 && k in locals[i];
      }
    }
  }

  /** Folding one well-formed map into another keeps the result well formed. */
  lemma MergeIntoWellFormed(global: Accumulator, local: Accumulator)
    requires WellFormed(global) && WellFormed(local)
    ensures WellFormed(MergeInto(global, local))
  {
    var r := MergeInto(global, local);
    forall k | k in r
      ensures r[k].name == k && r[k].count >= 1 && r[k].min <= r[k].max
    {
      if k in global && k in local {
        assert r[k] == Combine(global[k], local[k]);
      }
    }
  }

  /** Merging keeps every entry named by its key, with `count >= 1` and
      `min <= max`. */
  lemma {:induction false} MergeAllWellFormed(locals: seq<Accumulator>)
    requires forall i :: 0 <= i < |locals| ==> WellFormed(locals[i])
    ensures WellFormed(MergeAll(locals))
  {
    if locals != [] {
      var init := locals[..|locals| - 1];
      assert forall i :: 0 <= i < |init| ==> init[i] == locals[i];
      MergeAllWellFormed(init);
      MergeIntoWellFormed(MergeAll(init), locals[|locals| - 1]);
    }
  }

  /** The order in which two chunk maps are merged does not matter. */
  lemma MergeCommutes(x: Accumulator, y: Accumulator)
    requires WellNamed(x) && WellNamed(y)
    ensures MergeInto(x, y) == MergeInto(y, x)
  {
    forall k | k in x && k in y
      ensures Combine(x[k], y[k]) == Combine(y[k], x[k])
    {
      CombineCommutes(x[k], y[k]);
    }
  }

  lemma {:induction false} ReadingsConcat(a: seq<string>, b: seq<string>, station: string, parse: string -> Option<int>)
    ensures Readings(a + b, station, parse) == Readings(a, station, parse) + Readings(b, station, parse)
    decreases |b|
  {
    if b == [] {
      assert a + b == a;
    } else {
      var b' := b[..|b| - 1];
      assert (a + b)[..|a + b| - 1] == a + b';
      assert (a + b)[|a + b| - 1] == b[|b| - 1];
      ReadingsConcat(a, b', station, parse);
    }
  }

  /** Only one map describes the readings of a run of lines. */
  lemma DescribesUnique(lines: seq<string>, parse: string -> Option<int>, x: Accumulator, y: Accumulator)
    requires Describes(lines, parse, x) && Describes(lines, parse, y)
    ensures x == y
  {
    assert x.Keys == y.Keys;
  }

  /** Merging maps that describe two runs of lines describes the run of both. */
  lemma MergeDescribes(a: seq<string>, b: seq<string>, parse: string -> Option<int>, x: Accumulator, y: Accumulator)
    requires Describes(a, parse, x) && Describes(b, parse, y)
    ensures Describes(a + b, parse, MergeInto(x, y))
  {
    var r := MergeInto(x, y);
    forall station
      ensures station in r <==> Readings(a + b, station, parse) != []
      ensures station in r ==> r[station] == Summarize(station, Readings(a + b, station, parse))
    {
      ReadingsConcat(a, b, station, parse);
      var ra, rb := Readings(a, station, parse), Readings(b, station, parse);
      if ra != [] && rb != [] {
        SummarizeConcat(station, ra, rb);
      } else if ra != [] {
        assert ra + rb == ra;
      } else if rb != [] {
        assert ra + rb == rb;
      }
    }
  }

  /** Folding two runs of lines one after the other is folding each run from an
      empty map and merging the two maps; it fails when either run fails. */
  lemma FoldConcat(a: seq<string>, b: seq<string>, parse: string -> Option<int>)
    ensures FoldLines(a + b, parse)
         == if FoldLines(a, parse).Some? && FoldLines(b, parse).Some?
            then Some(MergeInto(FoldLines(a, parse).value, FoldLines(b, parse).value))
            else None
  {
    FoldSpec(a, parse);
    FoldSpec(b, parse);
    FoldSpec(a + b, parse);
    assert Converts(a + b, parse) <==> Converts(a, parse) && Converts(b, parse) by {
      assert forall i :: 0 <= i < |a| ==> (a + b)[i] == a[i];
      assert forall i :: 0 <= i < |b| ==> (a + b)[|a| + i] == b[i];
    }
    if FoldLines(a, parse).Some? && FoldLines(b, parse).Some? {
      MergeDescribes(a, b, parse, FoldLines(a, parse).value, FoldLines(b, parse).value);
      DescribesUnique(a + b, parse, FoldLines(a + b, parse).value,
                      MergeInto(FoldLines(a, parse).value, FoldLines(b, parse).value));
    }
  }

  /** Every range lies within `[0, n)`. */
  predicate Within(ranges: seq<Range>, n: nat) {
    forall i :: 0 <= i < |ranges| ==> ranges[i].start <= ranges[i].end <= n
  }

  lemma PartitionWithin(ranges: seq<Range>, total: nat)
    requires Partition(ranges, total)
    ensures Within(ranges, total)
  {
    forall i | 0 <= i < |ranges| - 1
      ensures ranges[i].end <= total
    {
      PartitionOrdered(ranges, total, i, |ranges| - 1);
    }
  }

  /** The lines of range `r`. */
  function Chunk(lines: seq<string>, r: Range): seq<string>
    requires r.start <= r.end <= |lines|
  {
    lines[r.start..r.end]
  }

  /** The worker's result on each chunk, in chunk order; None when any fails. */
  function FoldChunks(lines: seq<string>, ranges: seq<Range>, parse: string -> Option<int>): (r: Option<seq<Accumulator>>)
    requires Within(ranges, |lines|)
    ensures r.None? <==> exists i :: 0 <= i < |ranges| && FoldLines(Chunk(lines, ranges[i]), parse).None?
    ensures r.Some? ==> |r.value| == |ranges|
    ensures r.Some? ==> forall i :: 0 <= i < |ranges| ==> FoldLines(Chunk(lines, ranges[i]), parse) == Some(r.value[i])
  {
    if ranges == [] then Some([])
    else
      var n := |ranges| - 1;
      var init, last := ranges[..n], ranges[n];
      WithinPrefix(ranges, |lines|, n);
      match FoldChunks(lines, init, parse)
      case None =>
        assert exists i :: 0 <= i < |ranges| && FoldLines(Chunk(lines, ranges[i]), parse).None? by {
          var i :| 0 <= i < n && FoldLines(Chunk(lines, init[i]), parse).None?;
          assert init[i] == ranges[i];
        }
        None
      case Some(locals) =>
        match FoldLines(Chunk(lines, last), parse)
        case None => None
        case Some(local) =>
          var all := locals + [local];
          assert forall i :: 0 <= i < |ranges| ==> FoldLines(Chunk(lines, ranges[i]), parse) == Some(all[i]) by {
            forall i | 0 <= i < |ranges|
              ensures FoldLines(Chunk(lines, ranges[i]), parse) == Some(all[i])
            {
              if i < n {
                assert init[i] == ranges[i];
              }
            }
          }
          Some(all)
  }

  /** The parallel phase followed by the merge: it fails exactly when some
      chunk's worker fails; otherwise a station is present exactly when some
      chunk's map has it, and every merged entry is named by its key, has
      `count >= 1` (so its average is defined) and `min <= max`. */
  function ChunkedAggregate(lines: seq<string>, ranges: seq<Range>, parse: string -> Option<int>): (r: Option<Accumulator>)
    requires Within(ranges, |lines|)
    ensures r.None? <==> exists i :: 0 <= i < |ranges| && FoldLines(Chunk(lines, ranges[i]), parse).None?
    ensures r.Some? ==> forall k :: k in r.value <==>
              exists i :: 0 <= i < |ranges| && FoldLines(Chunk(lines, ranges[i]), parse).Some?
                          && k in FoldLines(Chunk(lines, ranges[i]), parse).value
    ensures r.Some? ==> WellFormed(r.value)
  {
    match FoldChunks(lines, ranges, parse)
    case None => None
    case Some(locals) =>
      var merged := MergeAll(locals);
      MergeAllWellFormed(locals);
      assert forall k :: k in merged <==>
               exists i :: 0 <= i < |ranges| && FoldLines(Chunk(lines, ranges[i]), parse).Some?
                           && k in FoldLines(Chunk(lines, ranges[i]), parse).value;
      Some(merged)
  }

  function Boundary(ranges: seq<Range>, k: nat): nat
    requires k <= |ranges|
  {
    if k == 0 then 0 else ranges[k - 1].end
  }

  lemma WithinPrefix(ranges: seq<Range>, n: nat, k: nat)
    requires Within(ranges, n) && k <= |ranges|
    ensures Within(ranges[..k], n)
  {
    assert forall i :: 0 <= i < k ==> ranges[..k][i] == ranges[i];
  }

  /** One more range appends its worker's result to those of the ranges before. */
  lemma FoldChunksSnoc(lines: seq<string>, ranges: seq<Range>, parse: string -> Option<int>, k: nat)
    requires 0 < k <= |ranges|
    requires Within(ranges[..k - 1], |lines|) && Within(ranges[..k], |lines|)
    ensures FoldChunks(lines, ranges[..k], parse)
         == if FoldChunks(lines, ranges[..k - 1], parse).Some? && FoldLines(Chunk(lines, ranges[k - 1]), parse).Some?
            then Some(FoldChunks(lines, ranges[..k - 1], parse).value + [FoldLines(Chunk(lines, ranges[k - 1]), parse).value])
            else None
  {
    var prefix := ranges[..k];
    assert prefix[..|prefix| - 1] == ranges[..k - 1];
    assert prefix[|prefix| - 1] == ranges[k - 1];
  }

  /** Merging one more map after the others. */
  lemma MergeAllSnoc(locals: seq<Accumulator>, local: Accumulator)
    ensures MergeAll(locals + [local]) == MergeInto(MergeAll(locals), local)
  {
    assert (locals + [local])[..|locals|] == locals;
  }

  /** Adding the next chunk's map to the merge extends the single pass by that
      chunk's lines. */
  lemma ChunkedStep(lines: seq<string>, ranges: seq<Range>, parse: string -> Option<int>, k: nat)
    requires Within(ranges, |lines|) && 0 < k <= |ranges|
    requires Within(ranges[..k - 1], |lines|) && Within(ranges[..k], |lines|)
    requires ChunkedAggregate(lines, ranges[..k - 1], parse) == FoldLines(lines[..ranges[k - 1].start], parse)
    ensures ChunkedAggregate(lines, ranges[..k], parse) == FoldLines(lines[..ranges[k - 1].end], parse)
  {
    var s, e := ranges[k - 1].start, ranges[k - 1].end;
    assert lines[..e] == lines[..s] + lines[s..e];
    FoldConcat(lines[..s], lines[s..e], parse);
    FoldChunksSnoc(lines, ranges, parse, k);
    var before := FoldChunks(lines, ranges[..k - 1], parse);
    var next := FoldLines(lines[s..e], parse);
    if before.Some? && next.Some? {
      MergeAllSnoc(before.value, next.value);
    }
  }

  lemma {:induction false} ChunkedPrefix(lines: seq<string>, ranges: seq<Range>, parse: string -> Option<int>, k: nat)
    requires Partition(ranges, |lines|) && k <= |ranges|
    ensures Within(ranges[..k], |lines|)
    ensures ChunkedAggregate(lines, ranges[..k], parse) == FoldLines(lines[..Boundary(ranges, k)], parse)
  {
    PartitionWithin(ranges, |lines|);
    WithinPrefix(ranges, |lines|, k);
    if k > 0 {
      ChunkedPrefix(lines, ranges, parse, k - 1);
      assert ranges[k - 1].start == Boundary(ranges, k - 1);
      ChunkedStep(lines, ranges, parse, k);
    }
  }

  /** Chunked aggregation followed by the merge gives exactly the map of a single
      pass over all lines, for any partition of the line indices. */
  lemma ChunkedEqualsSequential(lines: seq<string>, ranges: seq<Range>, parse: string -> Option<int>)
    requires Partition(ranges, |lines|)
    ensures Within(ranges, |lines|)
    ensures ChunkedAggregate(lines, ranges, parse) == FoldLines(lines, parse)
  {
    ChunkedPrefix(lines, ranges, parse, |ranges|);
    assert ranges[..|ranges|] == ranges;
    assert lines[..|lines|] == lines;
  }

  /** Hence the result does not depend on how the lines were chunked. */
  lemma ChunkingIrrelevant(lines: seq<string>, r1: seq<Range>, r2: seq<Range>, parse: string -> Option<int>)
    requires Partition(r1, |lines|) && Partition(r2, |lines|)
    ensures Within(r1, |lines|) && Within(r2, |lines|)
    ensures ChunkedAggregate(lines, r1, parse) == ChunkedAggregate(lines, r2, parse)
  {
    ChunkedEqualsSequential(lines, r1, parse);
    ChunkedEqualsSequential(lines, r2, parse);
  }
}
