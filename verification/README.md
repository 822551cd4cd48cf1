# Weather-station aggregation, modelled in Dafny

This project models the aggregation core of the `weather-stations` program. The program
reads a file of `<station>;<temperature>` lines and reports, for each station, the
average, minimum and maximum temperature, sorted by descending maximum. The core runs
between mapping the file and printing the report:

1. the contents are cut into lines at `'\n'` (module `Lines`);
2. the line *indices* `[0, totalLines)` are divided into `numThreads` contiguous ranges,
   and the first `totalLines % numThreads` ranges get one extra line (`Chunks`);
3. each range is folded by a worker into its own map from station name to statistics
   (`WSData`). The worker cuts every line at its first `;` and skips lines without one
   (`Fold`, statistics in `Summary`);
4. the per-range maps are merged into one map, adding counts and sums and taking the
   min of the mins and the max of the maxes (`Merge`);
5. averages are computed as `sum / count`, and the stations are sorted by descending
   `max` (`Rank`).

`Pipeline.Aggregate` runs all five steps. `Scenarios` holds a small worked example.

Temperatures are integers (tenths of a degree, say), so sums are exact. The
text-to-temperature conversion (`std::stof`) is a parameter
`parse: string -> Option<int>`. `None` stands for the conversion throwing, which
aborts the whole run.

The main theorem is `Merge.ChunkedEqualsSequential`. For any partition of the line
indices, running a worker per range and merging the maps gives exactly the map of a
single worker over all lines. This is why the parallel run is correct.
`Fold.FoldSpec` says what that map holds: a station is present exactly when some line
records it. Its entry has the count, sum, least and greatest of that station's
temperatures, and its name equals its key.

## Model

| member | source | states |
|---|---|---|
| `Lines.IndexOf` | weather-stations/src/main.cpp:51-52 | `find('\n', pos)`: the result is an occurrence of the character at or after `pos` with none before it; None means there is none from `pos` on |
| `Lines.SplitFrom` | weather-stations/src/main.cpp:49-59 | the splitting loop from offset `pos`: no produced line contains `'\n'`, and the result is empty exactly when `pos` is at or past the end |
| `Lines.SplitLines` | weather-stations/src/main.cpp:47-59 | no line contains `'\n'`; empty contents, and only empty contents, give zero lines |
| `Lines.SplitThenUnsplit` | weather-stations/src/main.cpp:49-59 | writing each line followed by `'\n'` reproduces the contents, with one extra terminator exactly when the contents were non-empty and did not end in `'\n'` (the final unterminated segment is kept) |
| `Lines.SplitThenJoin` | weather-stations/src/main.cpp:49-59 | joining the lines with `'\n'` reproduces the contents, less one trailing `'\n'` exactly when the contents ended with one (no empty line is added after a trailing terminator) |
| `Lines.UnsplitThenSplit` | weather-stations/src/main.cpp:49-59 | conversely, lines free of `'\n'` written with terminators split back into exactly those lines, empty lines included |
| `Chunks.PlannedRanges` | weather-stations/src/main.cpp:104-111 | ranges at the planned starts tile `[0, totalLines)`, with lengths `totalLines / numThreads` plus one below the remainder |
| `Chunks.PlanChunks` | weather-stations/src/main.cpp:101-112 | exactly `numThreads` ranges that tile `[0, totalLines)`: the first starts at 0, each starts where the previous ends, and the last ends at `totalLines`. Range `tid` has length `totalLines / numThreads`, plus 1 when `tid < totalLines % numThreads`, so any two lengths differ by at most one. Range `tid` is `ChunkStart(tid)..ChunkStart(tid+1)` |
| `Chunks.ChunkStart` | weather-stations/src/main.cpp:102-111 | with `chunkSize = totalLines / numThreads` and `remainder = totalLines % numThreads`, the loop's `startIdx` for task `tid` is `tid * chunkSize + min(tid, remainder)`: `tid` full chunks plus one extra line per earlier task below the remainder |
| `Chunks.ChunkStartLast` | weather-stations/src/main.cpp:102-111 | after all `numThreads` tasks the start index has reached `totalLines`, so no line is left unassigned |
| `Chunks.PartitionOrdered` | weather-stations/src/main.cpp:104-111 | in a tiling, an earlier range ends no later than any later range starts |
| `Chunks.PartitionCovers` | weather-stations/src/main.cpp:104-111 | every line index below the total lies in one range of a tiling, and in only one |
| `Fold.SplitRecord` | weather-stations/src/main.cpp:74-78 | None exactly when the line has no `;`; otherwise the name has no `;` and the line is `name + ";" + text` (the cut is at the first `;`) |
| `Fold.SplitRecordUnique` | weather-stations/src/main.cpp:74-78 | for any `;`-free name, `name;text` splits back into exactly that name and that text |
| `Fold.ParseLine` | weather-stations/src/main.cpp:74-79 | a line is skipped exactly when it has no `;`; it is unparsable exactly when it has a `;` and the text after the first `;` does not convert; a record's station has no `;`, and its temperature is the conversion of the text after the first `;` |
| `Fold.Observe` | weather-stations/src/main.cpp:80-94 | the station becomes present and no other entry changes. A new station starts at count 1 with the temperature as sum, min and max. A known station gets count+1, the temperature added to its sum, and min/max moved to the smaller/larger value |
| `Fold.ApplyLine` | weather-stations/src/main.cpp:72-95 | a line without `;` leaves the map unchanged; the step fails exactly when the line is a record whose temperature does not convert; a record is observed into the map under its station with its temperature |
| `Fold.FoldLines` | weather-stations/src/main.cpp:71-97 | no lines give an empty map; every entry of a successful fold is named by its key, has `count >= 1` and `min <= max` |
| `Fold.Worker` | weather-stations/src/main.cpp:71-97 | the loop over `[start, end)` computes the fold of exactly those lines, read in order from an empty map; an empty range gives an empty map |
| `Fold.FoldSpec` | weather-stations/src/main.cpp:71-97 | the fold fails exactly when some record does not convert. Otherwise a station is present exactly when some line records it, and its entry is the summary of its readings in file order: count, sum, min, max, and name equal to the key |
| `Fold.FoldLinesFails` | weather-stations/src/main.cpp:79 | one record whose temperature does not convert makes the whole fold fail |
| `Summary.Summarize` | weather-stations/src/Threadpool.hpp:12-19 | a station's entry after readings `temps`: count = number of readings ≥ 1, sum = their sum, min and max are readings bounding all of them, `min <= max`, name as given |
| `Summary.SummarizeSnoc` | weather-stations/src/main.cpp:81-93 | one more reading: the first one gives count 1 with sum = min = max = t; a later one adds 1 to count and t to sum, and takes the min/max with t |
| `Summary.SummarizeSound` | weather-stations/src/main.cpp:80-94 | every summary has `count >= 1`, `min <= max` and `count*min <= sum <= count*max` |
| `Summary.Combine` | weather-stations/src/main.cpp:127-132 | the merged entry keeps the global entry's name, adds the counts and the sums, and has the smaller of the two mins and the larger of the two maxes (the strict comparisons keep the global value on a tie, which is the same number) |
| `Summary.SummarizeConcat` | weather-stations/src/main.cpp:127-132 | combining the summaries of two runs of readings, as the merge does, gives the summary of both runs together |
| `Summary.CombineCommutes` | weather-stations/src/main.cpp:127-132 | combining two entries of the same station does not depend on their order |
| `Summary.Average` | weather-stations/src/main.cpp:138-141 | `average * count == sum`, and for a sound entry `min <= average <= max` |
| `Merge.MergeInto` | weather-stations/src/main.cpp:119-135 | the keys are the union of both maps' keys. A key in one map only keeps that entry; a key in both gets the summed count and sum, the min of the mins and the max of the maxes |
| `Merge.MergeAll` | weather-stations/src/main.cpp:118-135 | a station is in the merged map exactly when it is in some chunk's map |
| `Merge.MergeAllWellFormed` | weather-stations/src/main.cpp:118-135 | merging maps whose entries are named by their keys, with `count >= 1` and `min <= max`, keeps all three; so a merged station's `count` is never 0, the average is defined, and the source's `count == 0` test for a new key agrees with "key not yet present" |
| `Merge.MergeCommutes` | weather-stations/src/main.cpp:119-135 | merging two maps whose entries are named by their keys does not depend on the order of the two maps |
| `Merge.MergeDescribes` | weather-stations/src/main.cpp:118-135 | merging a map that describes one run of lines with a map that describes the next run gives the map that describes both runs |
| `Merge.FoldConcat` | weather-stations/src/main.cpp:71-135 | folding two runs of lines in sequence equals folding each run from empty and merging. It fails exactly when either run fails |
| `Merge.FoldChunks` | weather-stations/src/main.cpp:99-115 | the per-range maps, one per range in range order, each the worker's fold of exactly its range's lines; None exactly when some range's fold fails |
| `Merge.ChunkedAggregate` | weather-stations/src/main.cpp:99-135 | fails exactly when some range's fold fails. Otherwise a station is in the merged map exactly when it is in some range's map, and every merged entry is named by its key, has `count >= 1` and `min <= max` |
| `Merge.PartitionWithin` | weather-stations/src/main.cpp:104-111 | every range of a tiling of `[0, total)` lies within `[0, total)` |
| `Merge.ChunkedEqualsSequential` | weather-stations/src/main.cpp:99-135 | for any tiling of the line indices, one worker per range plus the merge gives exactly the map of a single worker over all lines, including the failing case |
| `Merge.ChunkingIrrelevant` | weather-stations/src/main.cpp:101-135 | two different tilings give the same merged result |
| `Rank.ReportOf` | weather-stations/src/main.cpp:138-141 | the report keeps the station's statistics and its average satisfies `average * count == sum` |
| `Rank.InsertByMax` | weather-stations/src/main.cpp:148-151 | inserting into a list sorted by descending max keeps it sorted and adds exactly that element |
| `Rank.SortByMaxDesc` | weather-stations/src/main.cpp:148-151 | the result has non-increasing `max` and is a permutation of the input |
| `Rank.RankStations` | weather-stations/src/main.cpp:137-151 | the output is sorted by descending max and has exactly one report per station of the map: every station appears, and no station appears twice. Each report carries its station's own statistics and average |
| `Rank.ListStations` | weather-stations/src/main.cpp:138-147 | the averaging loop and the copy into a vector give one report per station of the map, each with that station's statistics and average, and no station listed twice |
| `Rank.PermutationListsEach` | weather-stations/src/main.cpp:148-151 | reordering such a listing, as the sort does, keeps one report per station with the same contents, still without a repeated station |
| `Pipeline.RunChunks` | weather-stations/src/main.cpp:99-115 | one worker per range, in range order: the result is exactly the per-range folds, and it is None exactly when some range's fold fails (a worker's conversion throws), which means some record in the file does not convert |
| `Pipeline.ChunkFailureAborts` | weather-stations/src/main.cpp:79 | a range whose fold fails holds a record that does not convert |
| `Pipeline.AveragesBounded` | weather-stations/src/main.cpp:138-141 | every reported average lies between that station's min and max |
| `Pipeline.Aggregate` | weather-stations/src/main.cpp:47-151 | the run fails exactly when some record does not convert. Otherwise the output lists each station that has a record exactly once (no station twice), with the count, sum, min and max of all its temperatures over the whole file and an average between min and max, sorted by descending max. Each station's entry is the same for every `numThreads`; only the relative order of stations with equal maxima is left open |
| `Scenarios.MalformedFileLines` | weather-stations/src/main.cpp:49-59 | `"A;10.0\nNODELIM\nA;5.0\n"` splits into its three lines |
| `Scenarios.MalformedLineSkipped` | weather-stations/src/main.cpp:71-97 | folding those lines skips `NODELIM` and gives A count 2, sum 15.0, min 5.0 and max 10.0 (in tenths) |

## Left out

- File access: `open`, `fstat`, `mmap`, `munmap` and their error exits (main.cpp:19-44, 160) are OS input/output. The model starts from the contents as a `string`.
- Command line and output: `std::stoi` of the thread count (main.cpp:64) and all printing with one fractional digit (main.cpp:63-65, 153-157) are presentation.
- `Threadpool` (Threadpool.cpp, Threadpool.hpp:21-38) exists only for concurrency: the queue, the mutex, the condition variables and the joins. Each task reads the shared lines and writes only its own map, so the parallel phase is modelled as running the workers one after another (`Pipeline.RunChunks`). The merge still reads the maps in chunk order, as the source does.
- `std::stof` is the abstract parameter `parse`. Its grammar is not modelled: leading blanks, a trailing unparsed suffix, exponents, `inf`/`nan`, and 32-bit float range. A text it rejects throws, and the uncaught exception ends the process. So a failed conversion makes the whole run fail (`None`); there is no 0.0 fallback.
- Floating point: temperatures and sums are exact integers, and the average is exact real division. Rounding in the `float` running `sum`, and its dependence on addition order, is not modelled. With floats the merged sum could differ from the single-pass sum in the last bits.
- `Summary.Stats`: `count` is a `nat`. The 32-bit `int` of `WSData.count` would overflow beyond 2^31-1 records of one station; that is not modelled.
- `Chunks.PlanChunks`: requires `numThreads >= 1`. The source divides by `numThreads` at main.cpp:102 without checking it, so 0 is undefined behaviour there. A negative argument wrapping through `unsigned int` is not modelled either.
- `Rank.SortByMaxDesc`: `std::sort` is introsort and is not stable. The model sorts by insertion and promises only a non-increasing `max` and a permutation. The order among stations with equal maxima is left unspecified, as in the source.
