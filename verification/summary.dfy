/**
 Per-station statistics (the `WSData` record of Threadpool.hpp) and the reference
 meaning of a station's entry: the count, sum, minimum and maximum of the
 temperatures read for it. Temperatures are exact integers (tenths of a degree,
 say), so sums do not depend on the order of addition.
 */
module Summary {
  import opened Ordering

  /** The running statistics of one station; `average` is computed separately. */
  datatype Stats = Stats(name: string, count: nat, sum: int, min: int, max: int)

  function Sum(temps: seq<int>): int {
    if temps == [] then 0 else Sum(temps[..|temps| - 1]) + temps[|temps| - 1]
  }

  /** The least reading. */
  function SeqMin(temps: seq<int>): (m: int)
    requires temps != []
    ensures m in temps
    ensures forall i :: 0 <= i < |temps| ==> m <= temps[i]
  {
    if |temps| == 1 then temps[0]
    else Min(SeqMin(temps[..|temps| - 1]), temps[|temps| - 1])
  }

  /** The greatest reading. */
  function SeqMax(temps: seq<int>): (m: int)
    requires temps != []
    ensures m in temps
    ensures forall i :: 0 <= i < |temps| ==> temps[i] <= m
  {
    if |temps| == 1 then temps[0]
    else Max(SeqMax(temps[..|temps| - 1]), temps[|temps| - 1])
  }

  lemma {:induction false} SumBounds(temps: seq<int>)
    requires temps != []
    ensures |temps| * SeqMin(temps) <= Sum(temps) <= |temps| * SeqMax(temps)
  {
    if |temps| > 1 {
      var init := temps[..|temps| - 1];
      var last := temps[|temps| - 1];
      SumBounds(init);
      assert Sum(temps) == Sum(init) + last;
      LowerStep(|init|, SeqMin(temps), SeqMin(init), last, Sum(init));
      UpperStep(|init|, SeqMax(temps), SeqMax(init), last, Sum(init));
    }
  }

  lemma LowerStep(n: nat, lo: int, initLo: int, last: int, initSum: int)
    requires n * initLo <= initSum && lo <= initLo && lo <= last
    ensures (n + 1) * lo <= initSum + last
  {
    MulMonotone(n, lo, initLo);
  }

  lemma UpperStep(n: nat, hi: int, initHi: int, last: int, initSum: int)
    requires initSum <= n * initHi && initHi <= hi && last <= hi
    ensures initSum + last <= (n + 1) * hi
  {
    MulMonotone(n, initHi, hi);
  }

  lemma MulMonotone(n: nat, a: int, b: int)
    requires a <= b
    ensures n * a <= n * b
  {
  }

  /** What a station's entry should hold after reading the temperatures `temps`. */
  function Summarize(name: string, temps: seq<int>): (s: Stats)
    requires temps != []
    ensures s.name == name && s.count == |temps| >= 1
    ensures s.sum == Sum(temps)
    ensures s.min in temps && s.max in temps
    ensures forall i :: 0 <= i < |temps| ==> s.min <= temps[i] <= s.max
    ensures s.min <= s.max
  {
    Stats(name, |temps|, Sum(temps), SeqMin(temps), SeqMax(temps))
  }

  /** Reading one more temperature: the first reading starts the summary, a
      later one extends it. */
  lemma SummarizeSnoc(name: string, before: seq<int>, temp: int)
    ensures Summarize(name, before + [temp])
         == if before == [] then Stats(name, 1, temp, temp, temp)
            else var s := Summarize(name, before);
                 Stats(name, s.count + 1, s.sum + temp, Min(s.min, temp), Max(s.max, temp))
  {
    var temps := before + [temp];
    assert temps[..|temps| - 1] == before;
    if before == [] {
      assert temps == [temp];
      assert Sum(temps) == Sum([]) + temp;
    } else {
      assert Sum(temps) == Sum(before) + temp;
      assert SeqMin(temps) == Min(SeqMin(before), temp);
      assert SeqMax(temps) == Max(SeqMax(before), temp);
    }
  }

  /** True when `s` is the summary of some non-empty sequence of readings for
      `name`; the consequences the merge and the average rely on. */
  predicate Sound(name: string, s: Stats) {
    && s.name == name
    && s.count >= 1
    && s.min <= s.max
    && s.count * s.min <= s.sum <= s.count * s.max
  }

  lemma SummarizeSound(name: string, temps: seq<int>)
    requires temps != []
    ensures Sound(name, Summarize(name, temps))
  {
    SumBounds(temps);
  }

  /** Folding another station entry into the global one (the merge loop body). */
  function Combine(global: Stats, local: Stats): (r: Stats)
    ensures r.name == global.name
    ensures r.count == global.count + local.count && r.sum == global.sum + local.sum
    ensures r.min == Min(global.min, local.min) && r.max == Max(global.max, local.max)
  {
    Stats(global.name,
          global.count + local.count,
          global.sum + local.sum,
          if local.min < global.min then local.min else global.min,
          if local.max > global.max then local.max else global.max)
  }

  lemma {:induction false} SumConcat(a: seq<int>, b: seq<int>)
    ensures Sum(a + b) == Sum(a) + Sum(b)
    decreases |b|
  {
    if b != [] {
      var b' := b[..|b| - 1];
      assert (a + b)[..|a + b| - 1] == a + b';
      SumConcat(a, b');
    } else {
      assert a + b == a;
    }
  }

  lemma {:induction false} MinMaxConcat(a: seq<int>, b: seq<int>)
    requires a != [] && b != []
    ensures SeqMin(a + b) == Min(SeqMin(a), SeqMin(b))
    ensures SeqMax(a + b) == Max(SeqMax(a), SeqMax(b))
    decreases |b|
  {
    var b' := b[..|b| - 1];
    assert (a + b)[..|a + b| - 1] == a + b';
    if b' != [] {
      MinMaxConcat(a, b');
    }
  }

  /** Merging the summaries of two runs of readings gives the summary of the
      run that reads both: the combination the merge performs is exact. */
  lemma SummarizeConcat(name: string, a: seq<int>, b: seq<int>)
    requires a != [] && b != []
    ensures Combine(Summarize(name, a), Summarize(name, b)) == Summarize(name, a + b)
  {
    SumConcat(a, b);
    MinMaxConcat(a, b);
  }

  /** Combining two entries of the same station does not depend on their order. */
  lemma CombineCommutes(x: Stats, y: Stats)
    requires x.name == y.name
    ensures Combine(x, y) == Combine(y, x)
  {
  }

  /** `data.sum / data.count`, computed once when all merging is done. */
  function Average(s: Stats): (avg: real)
    requires s.count >= 1
    ensures avg * (s.count as real) == s.sum as real
    ensures Sound(s.name, s) ==> s.min as real <= avg <= s.max as real
  {
    var avg := (s.sum as real) / (s.count as real);
    AverageBounds(s, avg);
    avg
  }

  lemma AverageBounds(s: Stats, avg: real)
    requires s.count >= 1
    requires avg == (s.sum as real) / (s.count as real)
    ensures Sound(s.name, s) ==> s.min as real <= avg <= s.max as real
  {
    if Sound(s.name, s) {
      var c := s.count as real;
      assert (s.count * s.min) as real == c * (s.min as real);
      assert (s.count * s.max) as real == c * (s.max as real);
      assert c * (s.min as real) <= s.sum as real;
      assert s.sum as real == c * avg;
    }
  }
}
