/**
 The per-chunk worker of main.cpp: every line of its range is split on the first
 ';' into a station name and a temperature text, lines without ';' are skipped,
 and each record is folded into the chunk's own map from station name to
 statistics. The text-to-number conversion (`std::stof`) is a parameter `parse`;
 `None` stands for the conversion throwing, which ends the whole run.
 */
module Fold {
  import opened Wrappers
  import Lines
  import opened Ordering
  import opened Summary

  /** A chunk's private map; a station is present once it has a record. */
  type Accumulator = map<string, Stats>

  /** What one line contributes. */
  datatype Parsed =
    | NoDelimiter                            // no ';': skipped
    | Unparsable                             // the conversion throws
    | Record(station: string, temp: int)

  /** Cuts a line at its first ';' into the station name and the temperature text. */
  function SplitRecord(line: string): (r: Option<(string, string)>)
    ensures r.None? <==> ';' !in line
    ensures r.Some? ==> ';' !in r.value.0 && line == r.value.0 + ";" + r.value.1
  {
    match Lines.IndexOf(line, ';', 0)
    case None => None
    case Some(delim) =>
      assert line == line[..delim] + ";" + line[delim + 1..];
      Some((line[..delim], line[delim + 1..]))
  }

  /** The name/temperature decomposition at the first ';' is the only one whose
      name is free of ';'. */
  lemma SplitRecordUnique(name: string, text: string)
    requires ';' !in name
    ensures SplitRecord(name + ";" + text) == Some((name, text))
  {
    var line := name + ";" + text;
    assert line[|name|] == ';';
    assert forall i :: 0 <= i < |name| ==> line[i] == name[i];
    assert Lines.IndexOf(line, ';', 0) == Some(|name|);
    assert line[..|name|] == name;
    assert line[|name| + 1..] == text;
  }

  /** What one line contributes: nothing when it has no `;`, a failed
      conversion (the `std::stof` throw) when the text after the first `;`
      does not convert, and otherwise a record of its station and temperature. */
  function ParseLine(line: string, parse: string -> Option<int>): (p: Parsed)
    ensures p.NoDelimiter? <==> ';' !in line
    ensures p.Unparsable? <==> ';' in line && parse(SplitRecord(line).value.1).None?
    ensures p.Record? ==> ';' !in p.station && exists text :: line == p.station + ";" + text && parse(text) == Some(p.temp)
  {
    match SplitRecord(line)
    case None => NoDelimiter
    case Some((station, text)) =>
      match parse(text)
      case None => Unparsable
      case Some(temp) => Record(station, temp)
  }

  /** One record folded into the map: a new station starts at count 1 with the
      temperature as sum, min and max; a known one has its count and sum
      advanced and its min and max moved only by a strictly smaller or larger
      temperature. */
  function Observe(acc: Accumulator, station: string, temp: int): (r: Accumulator)
    ensures r.Keys == acc.Keys + {station}
    ensures forall k :: k in acc && k != station ==> r[k] == acc[k]
    ensures station !in acc ==> r[station] == Stats(station, 1, temp, temp, temp)
    ensures station in acc ==>
              && r[station].name == acc[station].name
              && r[station].count == acc[station].count + 1
              && r[station].sum == acc[station].sum + temp
              && r[station].min == Min(acc[station].min, temp)
              && r[station].max == Max(acc[station].max, temp)
  {
    if station !in acc then
      acc[station := Stats(station, 1, temp, temp, temp)]
    else
      var data := acc[station];
      acc[station := Stats(data.name, data.count + 1, data.sum + temp,
                           if temp < data.min then temp else data.min,
                           if temp > data.max then temp else data.max)]
  }

  /** One iteration of the worker loop. */
  function ApplyLine(acc: Accumulator, line: string, parse: string -> Option<int>): (r: Option<Accumulator>)
    ensures ';' !in line ==> r == Some(acc)
    ensures r.None? <==> ParseLine(line, parse).Unparsable?
    ensures ParseLine(line, parse).Record? ==>
              r == Some(Observe(acc, ParseLine(line, parse).station, ParseLine(line, parse).temp))
  {
    match ParseLine(line, parse)
    case NoDelimiter => Some(acc)
    case Unparsable => None
    case Record(station, temp) => Some(Observe(acc, station, temp))
  }

  /** Every entry is named by its key (the worker sets `data.name` from the key). */
  predicate WellNamed(acc: Accumulator) {
    forall k :: k in acc ==> acc[k].name == k
  }

  /** Every entry is named by its key, has at least one reading and has
      `min <= max`; so a well-formed map is also well named. */
  predicate WellFormed(acc: Accumulator) {
    forall k :: k in acc ==> acc[k].name == k && acc[k].count >= 1 && acc[k].min <= acc[k].max
  }

  /** The map a worker builds from `lines`, reading them in order from an
      empty map; None when a temperature fails to convert. Each record keeps
      every entry named by its key, with at least one reading and `min <= max`. */
  function FoldLines(lines: seq<string>, parse: string -> Option<int>): (r: Option<Accumulator>)
    ensures lines == [] ==> r == Some(map[])
    ensures r.Some? ==> WellFormed(r.value)
  {
    if lines == [] then Some(map[])
    else match FoldLines(lines[..|lines| - 1], parse)
      case None => None
      case Some(acc) => ApplyLine(acc, lines[|lines| - 1], parse)
  }

  /** A range holding a record that does not convert makes the worker fail. */
  lemma WorkerFails(lines: seq<string>, start: nat, end: nat, i: nat, parse: string -> Option<int>)
    requires start <= i < end <= |lines|
    requires ParseLine(lines[i], parse).Unparsable?
    ensures FoldLines(lines[start..end], parse).None?
  {
    assert lines[start..end][i - start] == lines[i];
    FoldLinesFails(lines[start..end], i - start, parse);
  }

  /** Reading one more line of a range applies it to the map so far. */
  lemma FoldNext(lines: seq<string>, start: nat, i: nat, parse: string -> Option<int>)
    requires start <= i < |lines|
    requires FoldLines(lines[start..i], parse).Some?
    ensures FoldLines(lines[start..i + 1], parse) == ApplyLine(FoldLines(lines[start..i], parse).value, lines[i], parse)
  {
    var read := lines[start..i + 1];
    assert read[..|read| - 1] == lines[start..i];
    assert read[|read| - 1] == lines[i];
  }

  /** The worker lambda over the index range `[start, end)` of `lines`. */
  method Worker(lines: seq<string>, start: nat, end: nat, parse: string -> Option<int>)
    returns (r: Option<Accumulator>)
    requires start <= end <= |lines|
    ensures r == FoldLines(lines[start..end], parse)
    ensures start == end ==> r == Some(map[])
  {
    var acc: Accumulator := map[];
    var i := start;
    assert lines[start..start] == [];
    while i < end
      invariant start <= i <= end
      invariant FoldLines(lines[start..i], parse) == Some(acc)
    {
      FoldNext(lines, start, i, parse);
      var next := ApplyLine(acc, lines[i], parse);
      if next.None? {
        WorkerFails(lines, start, end, i, parse);
        return None;
      }
      acc := next.value;
      i := i + 1;
    }
    return Some(acc);
  }

  /** Every record line in `lines` converts. */
  predicate Converts(lines: seq<string>, parse: string -> Option<int>) {
    forall i :: 0 <= i < |lines| ==> !ParseLine(lines[i], parse).Unparsable?
  }

  /** The temperatures read for `station` from `lines`, in line order. */
  function Readings(lines: seq<string>, station: string, parse: string -> Option<int>): seq<int> {
    if lines == [] then []
    else
      var p := ParseLine(lines[|lines| - 1], parse);
      Readings(lines[..|lines| - 1], station, parse)
        + (if p.Record? && p.station == station then [p.temp] else [])
  }

  lemma FoldLinesFails(lines: seq<string>, i: nat, parse: string -> Option<int>)
    requires i < |lines| && ParseLine(lines[i], parse).Unparsable?
    ensures FoldLines(lines, parse).None?
  {
    FoldSpec(lines, parse);
  }

  /** `acc` holds, for every station with readings in `lines`, the summary of
      those readings, and nothing else. */
  ghost predicate Describes(lines: seq<string>, parse: string -> Option<int>, acc: Accumulator) {
    && (forall station :: station in acc <==> Readings(lines, station, parse) != [])
    && (forall station :: station in acc ==> acc[station] == Summarize(station, Readings(lines, station, parse)))
  }

  /** What a worker's map holds: the fold fails exactly when some record's
      temperature does not convert; otherwise a station is present exactly when
      some line records it, and its entry is the summary of its readings —
      count, sum, least and greatest temperature, name equal to its key. */
  lemma {:induction false} FoldSpec(lines: seq<string>, parse: string -> Option<int>)
    ensures FoldLines(lines, parse).Some? <==> Converts(lines, parse)
    ensures FoldLines(lines, parse).Some? ==> Describes(lines, parse, FoldLines(lines, parse).value)
  {
    if lines != [] {
      var init := lines[..|lines| - 1];
      var line := lines[|lines| - 1];
      FoldSpec(init, parse);
      assert forall i :: 0 <= i < |init| ==> init[i] == lines[i];
      assert Converts(lines, parse) <==> Converts(init, parse) && !ParseLine(line, parse).Unparsable?;
      if FoldLines(init, parse).Some? {
        var acc := FoldLines(init, parse).value;
        match ParseLine(line, parse)
        case NoDelimiter =>
          SkipStep(lines, parse, acc);
        case Unparsable =>
        case Record(name, temp) =>
          RecordStep(lines, parse, acc, name, temp);
      }
    }
  }

  lemma SkipStep(lines: seq<string>, parse: string -> Option<int>, acc: Accumulator)
    requires lines != [] && ParseLine(lines[|lines| - 1], parse).NoDelimiter?
    requires Describes(lines[..|lines| - 1], parse, acc)
    ensures Describes(lines, parse, acc)
  {
    forall station
      ensures Readings(lines, station, parse) == Readings(lines[..|lines| - 1], station, parse)
    {}
  }

  lemma RecordStep(lines: seq<string>, parse: string -> Option<int>, acc: Accumulator, name: string, temp: int)
    requires lines != [] && ParseLine(lines[|lines| - 1], parse) == Record(name, temp)
    requires Describes(lines[..|lines| - 1], parse, acc)
    ensures Describes(lines, parse, Observe(acc, name, temp))
  {
    var init := lines[..|lines| - 1];
    var r := Observe(acc, name, temp);
    forall station
      ensures station in r <==> Readings(lines, station, parse) != []
      ensures station in r ==> r[station] == Summarize(station, Readings(lines, station, parse))
    {
      if station == name {
        RecordStepSame(lines, parse, acc, name, temp);
      } else {
        assert Readings(lines, station, parse) == Readings(init, station, parse);
      }
    }
  }

  lemma RecordStepSame(lines: seq<string>, parse: string -> Option<int>, acc: Accumulator, name: string, temp: int)
    requires lines != [] && ParseLine(lines[|lines| - 1], parse) == Record(name, temp)
    requires name in acc <==> Readings(lines[..|lines| - 1], name, parse) != []
    requires name in acc ==> acc[name] == Summarize(name, Readings(lines[..|lines| - 1], name, parse))
    ensures Readings(lines, name, parse) != []
    ensures Observe(acc, name, temp)[name] == Summarize(name, Readings(lines, name, parse))
  {
    var before := Readings(lines[..|lines| - 1], name, parse);
    ReadingsRecord(lines, parse, name, temp);
    SummarizeSnoc(name, before, temp);
  }

  /** A final record of `name` appends its temperature to `name`'s readings. */
  lemma ReadingsRecord(lines: seq<string>, parse: string -> Option<int>, name: string, temp: int)
    requires lines != [] && ParseLine(lines[|lines| - 1], parse) == Record(name, temp)
    ensures Readings(lines, name, parse) == Readings(lines[..|lines| - 1], name, parse) + [temp]
  {
  }
}
