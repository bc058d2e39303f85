# Keyword scanner, modelled in Dafny

The repository scans every file of a directory for a list of keywords and
returns a dictionary from each keyword to the paths of the files that hold it
as a whole whitespace-delimited token. It has two variants:

- `task_1.py` scans the files on a thread pool and merges the per-file
  dictionaries into a dictionary that starts empty.
- `task_2.py` seeds a queue with every path and one `None` sentinel per
  worker. Worker processes take paths until they take a sentinel and put one
  per-file dictionary per path on a result queue. The result queue is then
  merged into a dictionary pre-seeded with every keyword.

Both parse the keyword list from one comma-separated input line.

The model has seven modules, one file each:

- `Text` (`text.dfy`) gives Python's `str.split()`, `str.strip()` and
  `str.split(',')` on `seq<char>`.
- `Keywords` (`keywords.dfy`) is the keyword-parsing comprehension.
- `Matcher` (`matcher.dfy`) is the per-file matcher. It is written as a
  loop method, proved equal to the function `ScanFile`.
- `Aggregation` (`aggregation.dfy`) states the merge once, as a left fold
  `Aggregate` over the per-file results in arrival order. It proves what the
  fold keeps: keys, per-keyword lists, pair counts, and indifference to
  arrival order.
- `ThreadScan` (`thread_scan.dfy`) is the `task_1.py` driver and its
  key-inserting merge loop.
- `WorkQueue` (`work_queue.dfy`) is a FIFO queue class over an array with
  head and tail indices.
- `ProcessScan` (`process_scan.dfy`) is the `task_2.py` worker loop, the
  queue seeding, the workers run one after another, and the seeded merge
  loop.

A file system is a map from path to text. A path that is not a key stands
for a file whose open, read or UTF-8 decode raises. Reading gives
`Option<string>`.

The model follows the code as written. Three consequences a reader may not
expect:

- Keywords are not deduplicated. A keyword given twice is parsed twice, and
  the matcher appends the path once per repetition. `ScanFile` therefore
  lists the path `multiset(keywords)[k]` times.
- The thread-pool variant returns `{}` when there are no files, not every
  keyword mapped to `[]`. Only the process-pool variant seeds every keyword.
- A path appears twice under a keyword when the file list or the keyword
  list has a repeat. With distinct files and distinct keywords it does not
  (`ThreadScan.ThreadScanDistinct`, and `ProcessScan.ProcessScanDistinct` for
  any arrival order).

## Model

| member | source | states |
|---|---|---|
| Text.Tokens | task_1.py:17 | `content.split()`: every token is non-empty and holds no whitespace. `TokensExact` pins down which strings are tokens. |
| Text.TokensExact | task_1.py:17-20 | `k in content.split()` holds exactly when `k` stands in the content as a whole token: non-empty, no whitespace, bounded by whitespace or the ends of the text. A substring of a longer token is not found. |
| Text.Strip | task_1.py:50 | `strip()` gives empty exactly when the piece is all whitespace; otherwise the result starts and ends with non-whitespace. |
| Text.StripSlice | task_1.py:50 | `strip()` removes a whitespace prefix and a whitespace suffix and nothing else; the result is the slice of the input between them. |
| Text.Split | task_1.py:50 | `user_input.split(',')` always gives at least one piece. `JoinSplit`, `SplitPieces` and `SplitCount` pin the pieces down. |
| Text.SplitCount | task_1.py:50 | `s.split(',')` has one piece more than `s` has commas, empty pieces included. |
| Text.JoinSplit | task_1.py:50 | `','.join(s.split(','))` gives back `s`, so splitting loses no character. |
| Text.SplitConcat | task_1.py:50 | Splitting `a + ',' + b` gives the pieces of `a` followed by the pieces of `b`. |
| Text.SplitPieces | task_1.py:50 | No piece of `s.split(',')` contains a comma. |
| Text.SplitWithoutSeparator | task_1.py:50 | A string without a comma splits into itself alone. |
| Keywords.KeepStripped | task_1.py:50 | The `if keyword.strip()` filter: no more keywords than pieces, and no empty keyword. `KeepStrippedConcat` shows the order is kept. |
| Keywords.ParseKeywords | task_1.py:50 | Every parsed keyword is non-empty, has no leading or trailing whitespace, and holds no comma. |
| Keywords.ParseKeywordsConcat | task_2.py:71 | Parsing keeps input order: the keywords of `a,b` are those of `a` followed by those of `b`. |
| Keywords.ParseKeywordsPiece | task_2.py:71 | One comma-free piece gives nothing when it is blank and its stripped text otherwise. |
| Keywords.ParseKeywordsKeepsRepeats | task_2.py:71 | A keyword given twice is returned twice; duplicates are not removed. |
| Matcher.ScanFile | task_1.py:12-21 | One file's dictionary has a key exactly for each keyword, and every listed path is the scanned path. `ScanFileEntry` pins down each list. |
| Matcher.ScannedStep | task_1.py:19-21 | One loop iteration appends the path to the keyword's list when the keyword is a token, and changes nothing else. |
| Matcher.FindKeywordsInFile | task_1.py:6-27 | The loop's dictionary is `ScanFile` of the path, the keywords and the file's content. An unreadable file gives the initial all-`[]` dictionary and raises nothing. |
| Matcher.ScanFileEntry | task_2.py:19-34 | Every keyword has a key. Its list is non-empty exactly when the file was readable and the keyword stands in it as a whole token. Every entry is the scanned path. An unreadable file gives `[]`. |
| Matcher.ScanFileShape | task_1.py:12-21 | The keys are exactly the keywords. With a duplicate-free keyword list every list is `[]` or `[path]`. |
| Aggregation.Merge | task_1.py:41-44 | Merging one per-file result keeps every key of either side and only extends existing lists: each old list is a prefix of the new one. `MergeGet` gives the exact list. |
| Aggregation.Aggregate | task_1.py:40-44 | Folding the per-file results in arrival order never drops a starting key and only extends the starting lists. `AggregateKeys` and `AggregateColumn` pin down the keys and lists. |
| Aggregation.Seed | task_2.py:60 | `{keyword: [] for keyword in keywords}` has a key exactly for each keyword, and it is the dictionary the matcher returns for an unreadable file (task_2.py:19). |
| Aggregation.ScanAll | task_1.py:40 | `executor.map` gives one per-file result per file. `ScanAllAt` says which one. |
| Aggregation.ScanAllAt | task_1.py:40 | The `i`-th result `executor.map` yields is the matcher's dictionary for the `i`-th file. |
| Aggregation.AggregateKeys | task_1.py:39-44 | The merged dictionary has a key exactly when the starting dictionary or some per-file result has it. |
| Aggregation.AggregateColumn | task_1.py:40-44 | A keyword's merged list is the starting list followed by its per-file lists, in arrival order. |
| Aggregation.AggregatePairCount | task_1.py:40-44 | Merging neither loses nor duplicates: each (keyword, path) pair occurs as often as in the starting dictionary and all per-file results together. |
| Aggregation.ColumnPermutation | task_2.py:61-64 | Reordering the per-file results leaves each keyword's concatenated list the same multiset. |
| Aggregation.AggregateArrivalOrder | task_2.py:61-64 | Any arrival order of the same per-file results gives the same keys and, per keyword, the same multiset of paths. |
| Aggregation.ColumnOfScans | task_1.py:36-44 | Over the scans of a file list, a keyword is carried exactly when some file was scanned and it is a keyword. Its concatenated list holds the files with the keyword as a token, in listing order, once per occurrence in the keyword list. |
| Aggregation.HitsOfDistinct | task_1.py:36-44 | With distinct files, the hit list has no repeated path, and it holds a file exactly when the file is listed and has the keyword as a token. |
| Aggregation.MergedExceptStep | task_1.py:41-44 | Merging one key of a partial result creates that keyword's list when it is missing and extends it with the partial's list. Every other key is left alone. |
| Aggregation.MergedExceptNone | task_1.py:41-44 | Once every key of the partial result has been merged, the dictionary is one `Merge` step of the fold. |
| Aggregation.ScanAllConcat | task_1.py:40 | The per-file results of two file lists, one after the other, are the results of the concatenated list. |
| ThreadScan.MergeInserting | task_1.py:41-44 | The inner loop, run over the keys in any order, creates missing keys and extends lists; the result is one `Merge` step of the fold. |
| ThreadScan.ThreadScanResult | task_1.py:39-44 | The result has a key exactly when at least one file was scanned and it is a keyword, so no files give `{}`. Each list holds the matching files in listing order. |
| ThreadScan.FindKeywordsInFiles | task_1.py:30-46 | The driver returns the fold of the per-file results in listing order from `{}`. Keys and lists are as in `ThreadScanResult`. |
| ThreadScan.ThreadScanDistinct | task_1.py:36-44 | With distinct files and keywords, a keyword's list holds each matching file exactly once and nothing else. |
| WorkQueue.Queue.constructor | task_2.py:44-45 | A new queue is empty. |
| WorkQueue.Queue.IsEmpty | task_2.py:61 | `empty()` holds exactly when no item is waiting. |
| WorkQueue.Queue.Put | task_2.py:49 | `put(x)` appends `x` behind the waiting items and changes nothing else. |
| WorkQueue.Queue.Get | task_2.py:15 | `get()` on a non-empty queue removes and returns the oldest item. |
| ProcessScan.WorkerRun | task_2.py:14-17 | One worker's run over the queue contents takes no more items than the queue holds. `WorkerRunSplits` pins the run down. |
| ProcessScan.WorkerRunSplits | task_2.py:14-17 | A worker stops at the first sentinel: the queue held the paths it scanned, in order, then one `None`, then what it leaves in the queue. Nothing after that sentinel is consumed. |
| ProcessScan.WorkerRunCount | task_2.py:14-17 | One worker's run removes exactly one sentinel from the queue. |
| ProcessScan.Drain | task_2.py:56-58 | Workers run one after another take no more items than the queue holds. `DrainSeeded` and `TwoWorkersDrainAll` pin the drain down. |
| ProcessScan.DrainCount | task_2.py:56-58 | `w` workers run one after another remove exactly `w` sentinels. |
| ProcessScan.DrainLast | task_2.py:56-58 | With at least as many sentinels as workers, the last worker still finds a sentinel, and its run completes the drain. |
| ProcessScan.WorkerRunSeeded | task_2.py:14-17 | A worker on a queue of paths followed by sentinels takes every path and one sentinel. |
| ProcessScan.WorkerRunSentinels | task_2.py:14-17 | A worker on a queue of sentinels only takes one and scans nothing. |
| ProcessScan.WorkerStep | task_2.py:15-34 | One pass of the loop takes the oldest item. For a path it puts exactly one per-file result, the matcher's result for that path, an unreadable file included. For `None` it puts nothing. |
| ProcessScan.Worker | task_2.py:14-34 | The `while True` loop stops at the first `None`, consumes nothing after it, and puts one per-file result per path taken, in order, unreadable files included. |
| ProcessScan.RunWorkers | task_2.py:56-58 | `workers` workers run one after another (the first `workers - 1`, then the last) leave the input queue and the result queue as `Drain` says: one result per path taken, in the order taken. |
| ProcessScan.SeededCount | task_2.py:48-54 | The seeded queue holds exactly one sentinel per worker. |
| ProcessScan.DrainSeededFirst | task_2.py:48-58 | The first worker over the seeded queue scans every path, in order. |
| ProcessScan.DrainSeeded | task_2.py:48-58 | `w` of `n` workers over paths and `n` sentinels scan every path exactly once, in queue order, and leave `n - w` sentinels. |
| ProcessScan.TwoWorkersDrainAll | task_2.py:52-58 | With the two workers, the input queue ends empty and the scanned paths are the listed paths, in listing order. |
| ProcessScan.SeedInputQueue | task_2.py:48-54 | The input queue holds every path in listing order, then `num_workers` sentinels. |
| ProcessScan.MergeSeeded | task_2.py:63-64 | The inner loop, over the keys in any order, extends the pre-seeded lists; the result is one `Merge` step and keeps the keys. |
| ProcessScan.MergeResults | task_2.py:60-64 | The `while not empty()` loop empties the result queue. Its result is the fold of the queued results, in order, from the all-`[]` dictionary. |
| ProcessScan.ProcessScanResult | task_2.py:60-64 | Every keyword has a key, even with no files. Each list holds the matching files, once per occurrence of the keyword in the keyword list. |
| ProcessScan.ProcessScanAnyArrivalOrder | task_2.py:61-64 | Whatever order the per-file results arrive in, every keyword has a key and its list is the same multiset of paths. |
| ProcessScan.ProcessScanDistinct | task_2.py:60-64 | With distinct files and keywords, in any arrival order, a keyword's list holds each matching file exactly once and nothing else. |
| ProcessScan.FindKeywordsInFiles | task_2.py:37-66 | The driver returns the fold of the per-file results in file order from the all-`[]` dictionary, with a key for every keyword. |

## Left out

- Concurrency: `ThreadPoolExecutor`, `Manager`, `Pool` and `starmap` are not modelled. The thread variant's results arrive in input order, as `executor.map` yields them. The process variant's workers run one after another. `ProcessScan.ProcessScanAnyArrivalOrder` covers any order in which results could reach the result queue.
- Key order: Python dictionaries keep insertion order, so the result lists its keys in first-seen keyword order. A Dafny `map` has no order, and `MergeInserting` and `MergeSeeded` take the keys in any order. The model keeps the key set and every list, not the order of the keys.
- `os.listdir` and `os.path.join`: the file list is an input sequence, because the listing order is up to the operating system.
- `open`, `read` and UTF-8 decoding are a map from path to text; every kind of exception becomes "unreadable".
- The `print` diagnostics, `time.time()` with the elapsed-time output, and `input()` are I/O. Only the parsing of the input line is modelled.
- WorkQueue.Queue.Get: requires a non-empty queue. A real `get()` on an empty queue blocks forever, so callers must not reach that state.
- ProcessScan.Worker: requires a sentinel somewhere in the input queue, since otherwise the real worker blocks forever in `get()`.
- ProcessScan.WorkerStep: requires a non-empty input queue, for the same reason as `Queue.Get`.
- ProcessScan.RunWorkers: requires at least one sentinel per worker, since otherwise a worker blocks forever in `get()`.
- ProcessScan.MergeResults: requires every queued result's keys to be keywords, since `extend` on a missing key raises `KeyError`. The per-file results always meet this (`Matcher.ScanFileShape`).
- ProcessScan.MergeSeeded: requires the result's keys to be pre-seeded keywords. The source would raise `KeyError` otherwise, which the per-file results never cause (`Matcher.ScanFileShape`).
- WorkQueue.Queue: a Manager queue is a proxy to another process. The model is a local array that grows when full, with no bound and no pickling.
- Whitespace is Python's `str.isspace()` code-point list. No proof depends on which characters are in it.
