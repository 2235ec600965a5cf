# Counting integer frequencies with MapReduce — a Dafny model

The repository holds three small MapReduce jobs. Each counts how often every
integer occurs across a directory of text files and reports the most frequent
ones. This project models their map, reduce and report logic as pure Dafny
functions and proves what each phase computes.

- **Line-oriented count** (`mapreduce_count.py`, and `mapreduce_counter.py`,
  which has the same map, reduce and report code and differs only in its
  directories and in writing the report to `output.txt`). Module
  `MapReduceCount`.
  - Mapper `id` of `NUM_MAPPERS` takes a contiguous block of the sorted file
    list.
  - It counts the lines whose stripped text `int()` accepts, and writes one
    `"number count"` line per distinct integer.
  - Reducer `id` of `NUM_REDUCERS` reads every mapper file and keeps the
    integers with `number % NUM_REDUCERS == id`, summing their counts.
  - The report stores every reducer line into one dictionary, where a later
    line overwrites an earlier one. It then prints the first six items of a
    stable sort by count, descending.
- **Per-file count** (`count_integers.py`). Module `CountIntegers`.
  - One mapper task per input file builds a `Counter` of the file's tokens
    that `str.isdigit()` accepts. A missing file yields no output.
  - The reducer fails with exit status 1 when there are no mapper outputs.
  - Otherwise it merges all outputs with `Counter.update` and ranks
    `most_common(6)` from 1. It reports how many outputs it read and the sum
    of all counts.
- **Bucket pipeline over 0..100** (`map_reduce_pipeline.py`). Module
  `BucketPipeline`.
  - Map task `t` of `n` reads the files whose index `i` has `i % n == t`.
    It parses every token with `int()` and counts the values in 0..100 into
    a 101-cell array.
  - Reduce task `t` sums, over all mapper arrays, the cells whose index it
    owns by `index % n`.
  - The report adds the reducer arrays cell by cell. It sorts the 101 pairs
    by (count descending, integer ascending) and keeps `pairs[:top_k]`.
  - An exception the script would raise is a `Failure` carrying
    `ValueError`, `ZeroDivisionError` or `IndexError`.

Shared modules model the Python the scripts rely on:
- `PyText`: iterating a text file by lines, `strip`, `split`, `isdigit`,
  `int()` and `str()`.
- `Partition`: floor `%`, slices, the contiguous block split and the
  round-robin split.
- `Tables`: insertion-ordered dictionaries with `+=`, overwrite and
  `update`.
- `Codec`: the `"number count"` intermediate format.
- `Ranking`: stable insertion sort, the top-k prefix and the two orders.

File contents are strings. The artifacts a phase reads are a sequence in the
order the directory listing returns them. Three listings are unsorted
`glob` results whose order is not fixed:
- the intermediate files each reducer of `mapreduce_count.py` reads;
- the reducer files its report reads;
- the mapper outputs the reducer of `count_integers.py` reads.

For each of them a lemma shows that the result does not depend on the order:
- `ReduceAnyOrder`, `ReportInput` and `EndToEnd` of `MapReduceCount` take
  the listings as inputs that need only hold the right files;
- `OrderIndependent` of `CountIntegers` does the same for its reducer.

`map_reduce_pipeline.py` sorts its listings; `ColumnSumPermutation` and
`ReportOrderIndependent` show that its sums do not depend on that order
either.

## Model

| member | source | states |
|---|---|---|
| Partition.PyMod | project1/mapreduce_count.py:132 | Python's `%` with a positive modulus lands in 0..r-1 for every key, negative keys included (and in r+1..0 for a negative modulus) |
| Partition.PyDivMod | project1/mapreduce_count.py:132 | floor division and `%` fit together: k == r * (k // r) + k % r |
| Partition.OwnerIsResidue | project1/mapreduce_count.py:132 | reducer id owns key k exactly when k = r*q + id for some integer q |
| Partition.ResidueUnique | project1/mapreduce_count.py:132 | two residues in 0..r-1 of the same key are equal, so no key has two owning reducers |
| Partition.PySlice | project1/mapreduce_count.py:76 | a slice whose bounds are inside the list is exactly the elements between them |
| Partition.SliceBound | project1/map_reduce_pipeline.py:57 | a slice bound in 0..n is itself; one past n is n; a negative bound counts from the end, and one before -n is 0 |
| Partition.PrefixSlice | project1/map_reduce_pipeline.py:57 | `s[:k]` is the whole of s when k reaches past its end, the first k elements when k is in range, s without its last -k elements for negative k, and nothing when -k exceeds the length |
| Partition.InnerBlock | project1/mapreduce_count.py:68-70 | every mapper but the last reads exactly floor(n/m) files, the block starting at id*floor(n/m) |
| Partition.LastBlock | project1/mapreduce_count.py:72-76 | the last mapper reads floor(n/m) + n%m files, everything from (m-1)*floor(n/m) to the end |
| Partition.BlocksCoverFiles | project1/mapreduce_count.py:64-76 | the blocks of mappers 0..m-1, joined in order, are exactly the sorted file list: every file is read by exactly one mapper |
| Partition.FewFilesAllOnLast | project1/mapreduce_counter.py:43-50 | with fewer files than mappers, the last mapper reads every file and the others read none |
| Partition.RoundRobinOwner | project1/map_reduce_pipeline.py:16-18 | file i is read by task i % n |
| Partition.RoundRobinListed | project1/map_reduce_pipeline.py:16-18 | a task reads only files of the list |
| Partition.RoundRobinConserves | project1/map_reduce_pipeline.py:16-18 | any per-file quantity summed over tasks 0..n-1 equals its sum over all files |
| Partition.RoundRobinCoversFiles | project1/map_reduce_pipeline.py:16-18 | the files of tasks 0..n-1 together are the file list as a multiset: none is missed or read twice |
| PyText.Lines | project1/mapreduce_count.py:85 | the lines of a file are non-empty and concatenate back to its whole text |
| PyText.LinesOfWrittenLines | project1/mapreduce_count.py:123-124 | text written as newline-terminated lines is read back as exactly those lines |
| PyText.StripSpec | project1/mapreduce_count.py:88 | strip() keeps the piece from the first to the last non-whitespace character, and everything removed is whitespace |
| PyText.SplitWordThen | project1/mapreduce_count.py:126 | a whitespace-free word followed by whitespace or the end splits into that word and the split of the rest |
| PyText.SplitTwoWords | project1/mapreduce_count.py:126 | two whitespace-free words joined by a space split into exactly those two fields |
| PyText.ParseInt | project1/mapreduce_count.py:128 | int() of a non-empty digit string is its decimal value, and int() accepts nothing empty |
| PyText.IntToString | project1/mapreduce_count.py:99 | f"{number}" is non-empty and has no whitespace or newline, and int() reads back exactly the number |
| PyText.LeadingZeroIgnored | project1/count_integers.py:46 | a leading zero does not change the value of a digit string |
| Tables.Bump | project1/mapreduce_count.py:89 | `d[k] += c` adds c to k's count only, appends a new key at the end, keeps keys distinct and grows the sum by c |
| Tables.AddAll | project1/count_integers.py:71 | Counter.update adds each key's total over the items to its count, with key set the union and sums added |
| Tables.Put | project1/mapreduce_count.py:170 | `d[k] = c` sets k's count to c and leaves every other key alone; a new key is appended |
| Tables.PutAll | project1/mapreduce_count.py:163-170 | after storing items one by one, each key read holds the last count read for it, and the other keys are unchanged |
| Tables.PutAllFresh | project1/mapreduce_count.py:163-170 | storing items with distinct new keys yields the items appended in reading order |
| Tables.Tally | project1/mapreduce_count.py:80-89 | counting values gives each integer its number of occurrences, with distinct positive entries summing to the number of values |
| Tables.FlattenTables | project1/count_integers.py:68-71 | the items of several tables read one after another have the tables' combined keys, per-key totals and sum |
| Tables.TotalsPermutation | project1/count_integers.py:62-71 | per-key totals and the grand total over a list of tables do not depend on the list's order |
| Tables.EntriesPermutation | project1/mapreduce_count.py:122-133 | the items read, taken in any order, have the same key set, the same per-key totals and the same sum |
| Codec.FormatLine | project1/mapreduce_count.py:99 | each written item is one complete newline-terminated line |
| Codec.MalformedLineSkipped | project1/mapreduce_count.py:125-135 | a line that is not exactly two integer fields adds nothing, and the lines after it are still read |
| Codec.ParseFormattedLine | project1/mapreduce_count.py:126-128 | every written "number count" line reads back as the item written |
| Codec.RoundTrip | project1/mapreduce_count.py:122-128 | reading back a file written by lines 97-99 yields exactly the items written, in order |
| Ranking.Sort | project1/mapreduce_count.py:176 | the sorted list is a permutation of its input, in the given order |
| Ranking.SortStable | project1/mapreduce_counter.py:132 | sorting by count keeps the items of each count in their input order, as Python's stable sort does |
| Ranking.Top | project1/mapreduce_count.py:184-186 | the first min(k, n) items are sorted, a sub-multiset of the input, and nothing left out ranks before an item kept |
| Ranking.TopStable | project1/count_integers.py:73 | most_common keeps tied items in their insertion order |
| Ranking.TopOfTable | project1/count_integers.py:73 | the top items of a dictionary carry their keys' counts, hold no key twice, and a key left out has no better rank than one kept |
| Ranking.SortedUnique | project1/map_reduce_pipeline.py:51 | on items with distinct keys, the order (count descending, key ascending) admits exactly one sorted arrangement |
| MapReduceCount.UnparsableLineSkipped | project1/mapreduce_count.py:86-92 | a line int() rejects is skipped without disturbing the values of the lines around it |
| MapReduceCount.MapperTable | project1/mapreduce_count.py:80-92 | a mapper's count of k is the number of its lines whose stripped text int() reads as k; entries are distinct and positive and sum to the number of parsed lines |
| MapReduceCount.OwnedKeyTotal | project1/mapreduce_count.py:132-133 | a reducer keeps a key's whole total when it owns the key and nothing of it otherwise |
| MapReduceCount.OwnedKeys | project1/mapreduce_count.py:132-133 | the keys a reducer keeps are exactly the keys read that it owns |
| MapReduceCount.ReduceSpec | project1/mapreduce_count.py:117-135 | a reducer's table holds exactly its owned keys that occur, each with the sum of its counts over every mapper file |
| MapReduceCount.ReduceKeyTotal | project1/mapreduce_count.py:127-135 | for one key, a reducer's output holds the key's total over every mapper file when it owns the key, and nothing otherwise |
| MapReduceCount.ReducerRunReadBack | project1/mapreduce_count.py:137-141 | the file reducer i writes reads back as exactly its table over the intermediate files in the order its own listing returned them |
| MapReduceCount.ReducePermuted | project1/mapreduce_count.py:122-135 | a reducer that reads the same items in another order stores the same keys with the same counts: its dictionary is a rearrangement of the other |
| MapReduceCount.ReduceAnyOrder | project1/mapreduce_count.py:120-135 | a reducer's counts, their sum and its items do not depend on the order its directory listing returns the intermediate files in |
| MapReduceCount.ReducerRunItems | project1/mapreduce_count.py:120-141 | the file each reducer writes, read back, holds the items of its table over the intermediate files, whatever order its listing returned them in |
| MapReduceCount.ReducerFilesEntries | project1/mapreduce_count.py:137-141 | files 0..n-1 that each read back as a rearrangement of their reducer's table together hold a rearrangement of all the reducers' tables |
| MapReduceCount.ReducerOutputItems | project1/mapreduce_count.py:104-141 | whatever order each reducer listed the intermediate files in, the files reducers 0..r-1 write hold together a rearrangement of the reducers' tables |
| MapReduceCount.ReducerTablesUnion | project1/mapreduce_count.py:132-141 | the tables of reducers 0..r-1 together hold every key at most once, each with its whole total, and all the counts read |
| MapReduceCount.MergeOfPermuted | project1/mapreduce_count.py:157-170 | read in any order, files that together are a rearrangement of items with distinct keys give a dictionary holding each key's total once, and the same sum |
| MapReduceCount.OwnedTotalAll | project1/mapreduce_counter.py:90-91 | the counts reducers 0..r-1 keep add up to all counts read: ownership is total and disjoint |
| MapReduceCount.Merge | project1/mapreduce_count.py:154-172 | the report's dictionary holds every key read, each with the last count read for it |
| MapReduceCount.MergeOverwrites | project1/mapreduce_count.py:170 | a key read twice, with counts a then b, ends with count b: counts are overwritten, not summed |
| MapReduceCount.TwoFilesSameKey | project1/mapreduce_count.py:163-170 | two files that hold the same key yield two items for it, in file order |
| MapReduceCount.MergeOfDisjoint | project1/mapreduce_counter.py:121-128 | over files whose keys never repeat, the dictionary is just their items in reading order |
| MapReduceCount.RunReport | project1/mapreduce_count.py:157-186 | no report without reducer files; otherwise min(6, distinct keys) items, sorted by count, drawn from the dictionary, and none left out has a larger count |
| MapReduceCount.ReportTieOrder | project1/mapreduce_count.py:176 | items of equal count are printed in the order the dictionary first stored their keys |
| MapReduceCount.MapperArtifactsReadBack | project1/mapreduce_count.py:94-99 | each intermediate file reads back as exactly the table of the mapper that wrote it |
| MapReduceCount.MapperArtifactsCount | project1/mapreduce_count.py:52-99 | across all mapper files each integer's counts sum to its number of parsed lines in the input, and all counts sum to the number of parsed lines |
| MapReduceCount.ReducersDisjoint | project1/mapreduce_count.py:132-141 | the reducers' outputs together hold no key twice, and every key is owned by a reducer in 0..r-1 |
| MapReduceCount.ReducersKeyTotal | project1/mapreduce_counter.py:88-99 | reducers 0..n-1 together hold a key's full total when one of them owns it, and nothing otherwise |
| MapReduceCount.ReduceConserves | project1/mapreduce_count.py:117-141 | the reducers' tables hold in total exactly the sum of all counts read |
| MapReduceCount.ReportInput | project1/mapreduce_count.py:157-170 | whatever order the report lists the reducer files in, and whatever order each reducer listed the intermediate files in, the dictionary is the reducers' union: every key once, with its total over the mapper files |
| MapReduceCount.EndToEnd | project1/mapreduce_count.py:191-217 | map, reduce and merge with any m, r >= 1 and any listing orders of the intermediate and reducer files: every integer's merged count is its number of input lines, and the counts sum to the number of parsed lines |
| CountIntegers.ParsePhase | project1/count_integers.py:112-117 | exactly "mapper" or "reducer" as the single argument selects that phase; any other command line exits with status 1 |
| CountIntegers.DigitValue | project1/count_integers.py:46 | a token is counted exactly when isdigit() holds, and its value is then the non-negative integer int() reads from it |
| CountIntegers.CountTokens | project1/count_integers.py:41-46 | the Counter gives each integer its number of digit tokens and no negative key; entries are distinct and positive and sum to the number of digit tokens |
| CountIntegers.MapperTask | project1/count_integers.py:37-56 | a missing file yields no output; an existing one yields a Counter giving each integer its number of digit tokens in the file, with distinct positive entries summing to the number of digit tokens |
| CountIntegers.NonDigitTokenIgnored | project1/count_integers.py:46 | a token isdigit() rejects does not change the counts |
| CountIntegers.LeadingZerosSameKey | project1/count_integers.py:46 | "0" followed by a digit token counts under the same integer as the token |
| CountIntegers.MissingFileSkipped | project1/count_integers.py:39-44 | a missing file drops out and the other files are still counted |
| CountIntegers.Merged | project1/count_integers.py:67-71 | after update over all outputs each key holds its summed count, the key set is the union, and the sum is the total of all outputs |
| CountIntegers.RankedEntries | project1/count_integers.py:73 | most_common(6) has min(6, distinct keys) entries with their summed counts, non-increasing, distinct, and none left out has a larger count |
| CountIntegers.RankedRows | project1/count_integers.py:99-100 | the report rows carry ranks 1, 2, ... with each integer's summed count, non-increasing and distinct, and no unranked integer has a larger count |
| CountIntegers.ReducerTask | project1/count_integers.py:60-80 | exit status 1 exactly when there are no outputs; otherwise the number of outputs, the sum of all counts and the ranked rows |
| CountIntegers.OrderIndependent | project1/count_integers.py:62-71 | the merged counts, total and file count do not depend on the order the outputs are listed in |
| CountIntegers.TieOrder | project1/count_integers.py:73 | tied counts are ranked in the order their integers were first merged |
| CountIntegers.OutputsCount | project1/count_integers.py:117-120 | summed over the mapper outputs, each integer's count is its number of digit tokens in all existing files |
| CountIntegers.EndToEnd | project1/count_integers.py:111-124 | the reducer fails exactly when none of the input files exists; otherwise each integer's merged count is its number of digit tokens, and the reported total is the number of digit tokens |
| BucketPipeline.Histogram | project1/map_reduce_pipeline.py:15-24 | cell v is the number of occurrences of v, for every v in 0..100 |
| BucketPipeline.Mapper | project1/map_reduce_pipeline.py:12-26 | ZeroDivisionError with n = 0 and any file; ValueError exactly when an owned file has a token int() rejects; otherwise cell v counts v in the owned files |
| BucketPipeline.MalformedTokenFails | project1/map_reduce_pipeline.py:21-22 | a token int() rejects in file i fails task i % n with ValueError |
| BucketPipeline.AddRow | project1/map_reduce_pipeline.py:35-37 | one array adds its owned cells into the partial sums; IndexError exactly when an owned cell lies past 100; ZeroDivisionError with n = 0 |
| BucketPipeline.AddRows | project1/map_reduce_pipeline.py:32-37 | over all arrays, an owned cell gains its column sum; the errors are those of the first failing array |
| BucketPipeline.Reducer | project1/map_reduce_pipeline.py:28-39 | cell v is the sum of cell v over all mapper arrays when the task owns v, and 0 otherwise; error cases as for one array |
| BucketPipeline.ColumnSumPermutation | project1/map_reduce_pipeline.py:30-37 | cell sums do not depend on the order the arrays are listed in |
| BucketPipeline.Totals | project1/map_reduce_pipeline.py:44-49 | the report's final cell v is cell v summed over the reducer arrays; IndexError exactly when an array is longer than 101 |
| BucketPipeline.Report | project1/map_reduce_pipeline.py:41-58 | min(top_k, 101) rows (slice rules for a negative top_k), sorted by (count desc, integer asc), distinct integers of 0..100 with their summed counts, none left out ranking earlier |
| BucketPipeline.ReportIsTheRanking | project1/map_reduce_pipeline.py:50-51 | any sorted arrangement of the 101 pairs begins with the report's rows: the ranking is fixed by the counts |
| BucketPipeline.NoReducerFiles | project1/map_reduce_pipeline.py:43-57 | with no reducer files the report lists 0, 1, 2, ... with count 0 |
| BucketPipeline.ReportOrderIndependent | project1/map_reduce_pipeline.py:43-49 | the report does not depend on the order the reducer files are read in |
| BucketPipeline.ReducersConserve | project1/map_reduce_pipeline.py:36-37 | reduce tasks 0..k-1 together hold cell v's full sum exactly when one of them owns v |
| BucketPipeline.MappersColumn | project1/map_reduce_pipeline.py:16-24 | cell v summed over map tasks 0..k-1 is v's number of occurrences in those tasks' files |
| BucketPipeline.ReducedCounts | project1/map_reduce_pipeline.py:28-39 | after map then reduce, cell v summed over the reduce tasks is v's number of occurrences in all files |
| BucketPipeline.EndToEnd | project1/map_reduce_pipeline.py:60-73 | with n >= 1 tasks and every token parsing, the report succeeds and each row's count is its integer's number of occurrences; no integer left out occurs more often |

## Left out

- File system access is not modelled: the glob listings, opening, reading and writing files, and creating directories. Files are their text, and a listing is the sequence it returns.
- `setup_directories` and `main` of `mapreduce_count.py` and `mapreduce_counter.py` are left out. Their argparse handling and the missing-`--id` and missing-input-directory exits happen before any phase runs.
- `main` of `map_reduce_pipeline.py` is left out: argparse only, with the defaults passed on to the modelled phases.
- Console and stderr messages are left out. So is the report text layout (headers, tabs, `{i:<9}` padding), which carries the same rows the model computes.
- The report date in `count_integers.py` is left out (`datetime.now()`, a clock). So are the SHA-1 output names, the `Pool` of four workers and the JSON encoding. Each mapper output is the table it holds; `pool.map` keeps input order.
- The JSON round trip of `count_integers.py` is left out. It writes keys as strings and reads them back with `int(k)`, so a mapper output keeps its integers and counts.
- Text is ASCII-only: Unicode whitespace, non-ASCII digits and `int()`'s underscore separators are not modelled. `int()` reads Unicode decimal digits such as `'٣'` or `'３'`, so the source counts such tokens under their values. Characters such as `'²'` pass `isdigit()` but make `int()` raise, and in `count_integers.py` that ValueError escapes the mapper task. The model's digits are `'0'`..`'9'` only, so it neither counts the first kind nor fails on the second.
- Integers are unbounded. Recent CPython refuses to convert a string of more than 4300 digits with `int()` and raises ValueError, and the scripts react to that differently. `mapreduce_count.py` skips the line (lines 86-92), `count_integers.py` lets the error escape the mapper task (line 46), and `map_reduce_pipeline.py` fails the map task (line 22). The model parses and counts such a token like any other.
- CountIntegers.MapperTask: only a missing file (the `FileNotFoundError` caught at `count_integers.py` line 42) is modelled, as no output. A `PermissionError`, `IsADirectoryError` or `UnicodeDecodeError` while opening or reading propagates out of the task in the source; the model has no such files.
- Text-mode newline translation is not modelled: file text is taken after it.
- `NUM_MAPPERS` and `NUM_REDUCERS` are 4 in the source. The properties are proved for any m, r >= 1. The mapper and reducer ids the scripts are launched with are taken to be in 0..m-1 and 0..r-1, and each phase is taken to run once per id over the previous phase's complete outputs.
- Stale files from earlier runs that the glob patterns would also pick up are not modelled. The phases read exactly the outputs of the previous phase.
- BucketPipeline.EndToEnd: stated for the same number n of map and reduce tasks and for inputs whose tokens all parse. The error paths are stated per phase by Mapper, Reducer and Report.
- PyText.ParseInt: the contract states only the unsigned digit case and that nothing empty parses. Signed forms are covered through IntToString's round trip, not by an ensures of their own.
- PyText.Lines: a trailing text without a newline is read as a last line, as Python does. The contract states the concatenation and non-emptiness, not where each line ends.
