/** The process-pool variant of task_2.py: an input queue seeded with every
    path and one `None` sentinel per worker, workers that scan paths until
    they dequeue a sentinel, and a merge of the result queue into a
    dictionary pre-seeded with every keyword. The workers are run one after
    another; `ProcessScanAnyArrivalOrder` covers every order in which their
    results can reach the result queue. */
module ProcessScan {
  import opened Matcher
  import opened Aggregation
  import opened WorkQueue

  /** `num_workers` (line 52). */
  const NumWorkers: nat := 2

  /** An input-queue item: a path, or the `None` sentinel. */
  type Task = Option<Path>

  /** The paths as queue items, in order. */
  function Tagged(files: seq<Path>): (items: seq<Task>)
    ensures |items| == |files|
  {
    seq(|files|, i requires 0 <= i < |files| => Some(files[i]))
  }

  /** `n` sentinels. */
  function Sentinels(n: nat): (items: seq<Task>)
    ensures |items| == n
    ensures None in items <==> n > 0
  {
    var items := seq(n, _ => None);
    assert n > 0 ==> items[0] == None;
    items
  }

  /** How many sentinels `items` holds. */
  function SentinelCount(items: seq<Task>): nat {
    multiset(items)[None]
  }

  /** One worker's run over the queue contents `items`: it dequeues items
      one at a time up to and including the first sentinel, and scans every
      path it dequeued before that. The result is what is left in the queue
      and the paths scanned, in order. A queue without a sentinel would keep
      the worker waiting in `get()`; no caller reaches that case. */
  function WorkerRun(items: seq<Task>): (run: (seq<Task>, seq<Path>))
    ensures |run.1| + |run.0| <= |items|
    decreases |items|
  {
    if items == [] then ([], [])
    else if items[0] == None then (items[1..], [])
    else
      var rest := WorkerRun(items[1..]);
      (rest.0, [items[0].value] + rest.1)
  }

  /** A worker stops at the first sentinel: the queue contents were the
      scanned paths, one sentinel, and what the worker left in the queue. */
  lemma {:induction false} WorkerRunSplits(items: seq<Task>)
    requires None in items
    ensures Tagged(WorkerRun(items).1) + [None] + WorkerRun(items).0 == items
    decreases |items|
  {
    if items[0] != None {
      var rest := WorkerRun(items[1..]);
      assert None in items[1..];
      WorkerRunSplits(items[1..]);
      assert Tagged([items[0].value] + rest.1) == [items[0]] + Tagged(rest.1);
    }
  }

  /** A worker behind paths already taken: their scans come first. */
  lemma {:induction false} WorkerRunTagged(done: seq<Path>, rest: seq<Task>)
    ensures WorkerRun(Tagged(done) + rest) == (WorkerRun(rest).0, done + WorkerRun(rest).1)
    decreases |done|
  {
    if done != [] {
      var items := Tagged(done) + rest;
      assert items[0] == Some(done[0]);
      assert items[1..] == Tagged(done[1..]) + rest;
      WorkerRunTagged(done[1..], rest);
      assert [done[0]] + (done[1..] + WorkerRun(rest).1) == done + WorkerRun(rest).1;
    } else {
      assert Tagged(done) + rest == rest;
      assert done + WorkerRun(rest).1 == WorkerRun(rest).1;
    }
  }

  /** Moving the path at the head of the queue to the paths taken. */
  lemma TaggedSnoc(done: seq<Path>, waiting: seq<Task>)
    requires waiting != [] && waiting[0] != None
    ensures Tagged(done) + waiting == Tagged(done + [waiting[0].value]) + waiting[1..]
  {
    assert Tagged(done + [waiting[0].value]) == Tagged(done) + [waiting[0]];
    assert waiting == [waiting[0]] + waiting[1..];
  }

  /** A worker takes exactly one sentinel out of the queue. */
  lemma {:induction false} WorkerRunCount(items: seq<Task>)
    requires None in items
    ensures SentinelCount(WorkerRun(items).0) == SentinelCount(items) - 1
    decreases |items|
  {
    assert items == [items[0]] + items[1..];
    if items[0] != None {
      assert None in items[1..];
      WorkerRunCount(items[1..]);
    }
  }

  /** A queue whose contents count a sentinel holds one. */
  lemma SentinelIn(items: seq<Task>)
    requires SentinelCount(items) > 0
    ensures None in items
  {
    assert None in multiset(items);
  }

  /** The sentinel behind a path is still in the queue once the path is
      taken. */
  lemma SentinelLater(items: seq<Task>)
    requires None in items && items[0] != None
    ensures None in items[1..]
  {
    var i :| 0 <= i < |items| && items[i] == None;
    assert items[1..][i - 1] == None;
  }

  /** `workers` workers run one after another over the queue contents
      `items`: what is left in the queue and the paths scanned, in order. */
  function Drain(items: seq<Task>, workers: nat): (run: (seq<Task>, seq<Path>))
    ensures |run.1| + |run.0| <= |items|
  {
    if workers == 0 then (items, [])
    else
      var before := Drain(items, workers - 1);
      var after := WorkerRun(before.0);
      (after.0, before.1 + after.1)
  }

  /** Each worker of a run takes one sentinel. */
  lemma {:induction false} DrainCount(items: seq<Task>, workers: nat)
    requires SentinelCount(items) >= workers
    ensures SentinelCount(Drain(items, workers).0) == SentinelCount(items) - workers
  {
    if workers > 0 {
      var before := Drain(items, workers - 1);
      DrainCount(items, workers - 1);
      assert None in multiset(before.0);
      WorkerRunCount(before.0);
    }
  }

  /** The last of `workers` workers still finds a sentinel, and its run
      completes the drain. */
  lemma DrainLast(items: seq<Task>, workers: nat)
    requires 0 < workers <= SentinelCount(items)
    ensures None in Drain(items, workers - 1).0
    ensures Drain(items, workers)
      == (WorkerRun(Drain(items, workers - 1).0).0,
          Drain(items, workers - 1).1 + WorkerRun(Drain(items, workers - 1).0).1)
  {
    DrainCount(items, workers - 1);
    SentinelIn(Drain(items, workers - 1).0);
  }

  /** `n` sentinels count as `n`, and paths count as none. */
  lemma {:induction false} SeededCount(files: seq<Path>, n: nat)
    ensures SentinelCount(Tagged(files) + Sentinels(n)) == n
  {
    assert None !in Tagged(files);
    if n > 0 {
      SeededCount(files, n - 1);
      assert Tagged(files) + Sentinels(n) == (Tagged(files) + Sentinels(n - 1)) + [None];
    } else {
      assert Tagged(files) + Sentinels(n) == Tagged(files);
    }
  }

  /** A worker that finds only sentinels takes one and scans nothing. */
  lemma WorkerRunSentinels(n: nat)
    requires n >= 1
    ensures WorkerRun(Sentinels(n)) == (Sentinels(n - 1), [])
  {
    assert Sentinels(n)[0] == None;
    assert Sentinels(n)[1..] == Sentinels(n - 1);
  }

  /** A worker that finds the paths followed by sentinels scans every path
      and takes one sentinel. */
  lemma {:induction false} WorkerRunSeeded(files: seq<Path>, n: nat)
    requires n >= 1
    ensures WorkerRun(Tagged(files) + Sentinels(n)) == (Sentinels(n - 1), files)
    decreases |files|
  {
    var items := Tagged(files) + Sentinels(n);
    if files == [] {
      assert items == Sentinels(n);
      WorkerRunSentinels(n);
    } else {
      assert items[0] == Some(files[0]);
      assert items[1..] == Tagged(files[1..]) + Sentinels(n);
      WorkerRunSeeded(files[1..], n);
      assert [files[0]] + files[1..] == files;
    }
  }

  /** The first worker over the seeded input queue scans every path. */
  lemma DrainSeededFirst(files: seq<Path>, n: nat)
    requires 1 <= n
    ensures Drain(Tagged(files) + Sentinels(n), 1) == (Sentinels(n - 1), files)
  {
    var items := Tagged(files) + Sentinels(n);
    assert Drain(items, 0) == (items, []);
    WorkerRunSeeded(files, n);
    assert [] + files == files;
  }

  /** The input queue as seeded (every path, then `n` sentinels) and drained by
      `w` of the `n` workers: every path has been dequeued and scanned exactly
      once, in queue order, and `n - w` sentinels remain, so `n` workers
      leave the queue empty. */
  lemma {:induction false} DrainSeeded(files: seq<Path>, n: nat, w: nat)
    requires 1 <= w <= n
    ensures Drain(Tagged(files) + Sentinels(n), w) == (Sentinels(n - w), files)
  {
    if w == 1 {
      DrainSeededFirst(files, n);
    } else {
      var items := Tagged(files) + Sentinels(n);
      DrainSeeded(files, n, w - 1);
      WorkerRunSentinels(n - w + 1);
      assert files + [] == files;
    }
  }

  /** With the source's two workers, the input queue seeded with the paths
      and two sentinels is drained completely, and the paths the workers
      scan are the listed paths, in listing order. */
  lemma TwoWorkersDrainAll(files: seq<Path>)
    ensures SentinelCount(Tagged(files) + Sentinels(NumWorkers)) == NumWorkers
    ensures Drain(Tagged(files) + Sentinels(NumWorkers), NumWorkers) == ([], files)
  {
    SeededCount(files, NumWorkers);
    DrainSeeded(files, NumWorkers, NumWorkers);
  }

  /** Results put for `xs` and then for `ys` are the results for `xs + ys`. */
  lemma ScansAppend(results: seq<Partial>, xs: seq<Path>, ys: seq<Path>, keywords: seq<Keyword>, fs: FileSystem)
    ensures (results + ScanAll(xs, keywords, fs)) + ScanAll(ys, keywords, fs)
      == results + ScanAll(xs + ys, keywords, fs)
  {
    ScanAllConcat(xs, ys, keywords, fs);
  }

  /** Putting the result for one more path. */
  lemma ScansPush(results: seq<Partial>, done: seq<Path>, path: Path, keywords: seq<Keyword>, fs: FileSystem)
    ensures (results + ScanAll(done, keywords, fs)) + [ScanFile(path, keywords, Read(fs, path))]
      == results + ScanAll(done + [path], keywords, fs)
  {
    assert (done + [path])[..|done|] == done;
  }

  /** Both queues are well formed and share no object. */
  ghost predicate Separate(filesQueue: Queue<Task>, resultQueue: Queue<Partial>)
    reads filesQueue, resultQueue
  {
    && filesQueue.Valid() && resultQueue.Valid()
    && filesQueue as object != resultQueue
  }

  /** One pass of the worker loop (lines 15-34): take the next item off the
      input queue; for a path, scan the file and put the result on the
      result queue, whether or not the file could be read. */
  method WorkerStep(filesQueue: Queue<Task>, resultQueue: Queue<Partial>, keywords: seq<Keyword>, fs: FileSystem)
    returns (filePath: Task)
    requires Separate(filesQueue, resultQueue) && filesQueue.Contents() != []
    modifies filesQueue, resultQueue, resultQueue.buf
    ensures Separate(filesQueue, resultQueue)
    ensures filesQueue.buf == old(filesQueue.buf)
    ensures resultQueue.buf == old(resultQueue.buf) || fresh(resultQueue.buf)
    ensures filePath == old(filesQueue.Contents())[0]
    ensures filesQueue.Contents() == old(filesQueue.Contents())[1..]
    ensures filePath.None? ==> resultQueue.Contents() == old(resultQueue.Contents())
    ensures filePath.Some? ==>
      resultQueue.Contents()
        == old(resultQueue.Contents()) + [ScanFile(filePath.value, keywords, Read(fs, filePath.value))]
  {
    filePath := filesQueue.Get();
    if filePath.Some? {
      var keywordFiles := FindKeywordsInFile(filePath.value, keywords, fs);
      resultQueue.Put(keywordFiles);
    }
  }

  /** The worker, `find_keywords_in_file` (lines 7-34): dequeue until the
      first sentinel, and for each path put the matcher's result for it on
      the result queue, an unreadable file included. */
  method Worker(filesQueue: Queue<Task>, resultQueue: Queue<Partial>, keywords: seq<Keyword>, fs: FileSystem)
    requires Separate(filesQueue, resultQueue)
    requires None in filesQueue.Contents()
    modifies filesQueue, resultQueue, resultQueue.buf
    ensures Separate(filesQueue, resultQueue)
    ensures filesQueue.buf == old(filesQueue.buf)
    ensures resultQueue.buf == old(resultQueue.buf) || fresh(resultQueue.buf)
    ensures filesQueue.Contents() == WorkerRun(old(filesQueue.Contents())).0
    ensures resultQueue.Contents()
      == old(resultQueue.Contents()) + ScanAll(WorkerRun(old(filesQueue.Contents())).1, keywords, fs)
  {
    ghost var items, results := filesQueue.Contents(), resultQueue.Contents();
    ghost var done: seq<Path> := [];
    while true
      invariant Separate(filesQueue, resultQueue)
      invariant filesQueue.buf == old(filesQueue.buf)
      invariant resultQueue.buf == old(resultQueue.buf) || fresh(resultQueue.buf)
      invariant None in filesQueue.Contents()
      invariant items == Tagged(done) + filesQueue.Contents()
      invariant resultQueue.Contents() == results + ScanAll(done, keywords, fs)
      decreases |filesQueue.Contents()|
    {
      ghost var waiting := filesQueue.Contents();
      var filePath := WorkerStep(filesQueue, resultQueue, keywords, fs);
      if filePath.None? {
        WorkerRunTagged(done, waiting);
        assert WorkerRun(waiting) == (waiting[1..], []);
        assert WorkerRun(items) == (filesQueue.Contents(), done) by {
          assert done + [] == done;
        }
        break;
      }
      SentinelLater(waiting);
      TaggedSnoc(done, waiting);
      ScansPush(results, done, filePath.value, keywords, fs);
      done := done + [filePath.value];
    }
  }

  /** `pool.starmap` over `workers` copies of the worker, run one after
      another: the first `workers - 1`, then the last. */
  method RunWorkers(filesQueue: Queue<Task>, resultQueue: Queue<Partial>, keywords: seq<Keyword>, fs: FileSystem, workers: nat)
    requires Separate(filesQueue, resultQueue)
    requires SentinelCount(filesQueue.Contents()) >= workers
    modifies filesQueue, resultQueue, resultQueue.buf
    ensures Separate(filesQueue, resultQueue)
    ensures filesQueue.buf == old(filesQueue.buf)
    ensures resultQueue.buf == old(resultQueue.buf) || fresh(resultQueue.buf)
    ensures filesQueue.Contents() == Drain(old(filesQueue.Contents()), workers).0
    ensures resultQueue.Contents()
      == old(resultQueue.Contents()) + ScanAll(Drain(old(filesQueue.Contents()), workers).1, keywords, fs)
    decreases workers
  {
    if workers > 0 {
      ghost var items, results := filesQueue.Contents(), resultQueue.Contents();
      ghost var before := Drain(items, workers - 1);
      ghost var run := WorkerRun(before.0);
      DrainLast(items, workers);
      RunWorkers(filesQueue, resultQueue, keywords, fs, workers - 1);
      Worker(filesQueue, resultQueue, keywords, fs);
      assert resultQueue.Contents() == (results + ScanAll(before.1, keywords, fs)) + ScanAll(run.1, keywords, fs);
      ScansAppend(results, before.1, run.1, keywords, fs);
    }
  }

  /** The seeded merge (lines 60-64): for each key of the partial result, in
      any order, extend that keyword's list, which the pre-seeding guarantees
      exists. */
  method MergeSeeded(acc: Partial, partial: Partial) returns (merged: Partial)
    requires partial.Keys <= acc.Keys
    ensures merged == Merge(acc, partial)
    ensures merged.Keys == acc.Keys
  {
    merged := acc;
    var todo := partial.Keys;
    MergedExceptAll(acc, partial);
    while todo != {}
      invariant todo <= partial.Keys
      invariant merged == MergedExcept(acc, partial, todo)
      decreases todo
    {
      var keyword :| keyword in todo;
      MergedExceptStep(acc, partial, todo, keyword);
      merged := merged[keyword := merged[keyword] + partial[keyword]];
      todo := todo - {keyword};
    }
    MergedExceptNone(acc, partial);
  }

  /** What the process-pool variant returns when results arrive in file
      order: a key for every keyword, even with no files, and under it the
      files whose content has the keyword as a token, once per occurrence of
      the keyword in the keyword list. */
  lemma ProcessScanResult(files: seq<Path>, keywords: seq<Keyword>, fs: FileSystem, k: Keyword)
    ensures k in Aggregate(Seed(keywords), ScanAll(files, keywords, fs)) <==> k in keywords
    ensures Get(Aggregate(Seed(keywords), ScanAll(files, keywords, fs)), k)
      == if k in keywords then Hits(files, fs, k, multiset(keywords)[k]) else []
  {
    AggregateKeys(Seed(keywords), ScanAll(files, keywords, fs), k);
    AggregateColumn(Seed(keywords), ScanAll(files, keywords, fs), k);
    ColumnOfScans(files, keywords, fs, k);
  }

  /** Whatever order the workers' results reach the result queue in, every
      keyword has a key and its list holds the same paths, counted with
      multiplicity, as in file order. */
  lemma ProcessScanAnyArrivalOrder(files: seq<Path>, keywords: seq<Keyword>, fs: FileSystem,
                                   arrived: seq<Partial>, k: Keyword)
    requires multiset(arrived) == multiset(ScanAll(files, keywords, fs))
    ensures k in Aggregate(Seed(keywords), arrived) <==> k in keywords
    ensures multiset(Get(Aggregate(Seed(keywords), arrived), k))
      == multiset(if k in keywords then Hits(files, fs, k, multiset(keywords)[k]) else [])
  {
    AggregateArrivalOrder(Seed(keywords), arrived, ScanAll(files, keywords, fs), k);
    ProcessScanResult(files, keywords, fs, k);
  }

  /** With distinct file paths and distinct keywords, whatever order the
      results arrive in, each keyword's list holds exactly the files whose
      content has it as a token, and no path twice. */
  lemma ProcessScanDistinct(files: seq<Path>, keywords: seq<Keyword>, fs: FileSystem,
                            arrived: seq<Partial>, k: Keyword)
    requires Distinct(files) && Distinct(keywords) && k in keywords
    requires multiset(arrived) == multiset(ScanAll(files, keywords, fs))
    ensures k in Aggregate(Seed(keywords), arrived)
    ensures Distinct(Aggregate(Seed(keywords), arrived)[k])
    ensures forall f :: f in Aggregate(Seed(keywords), arrived)[k] <==>
      f in files && Occurs(Read(fs, f), k)
  {
    ProcessScanAnyArrivalOrder(files, keywords, fs, arrived, k);
    DistinctCount(keywords, k);
    HitsOfDistinct(files, fs, k);
    var list := Aggregate(Seed(keywords), arrived)[k];
    assert Get(Aggregate(Seed(keywords), arrived), k) == list;
    SameMultisetDistinct(list, Hits(files, fs, k, 1));
    forall f ensures f in list <==> f in Hits(files, fs, k, 1) {
      assert f in list <==> f in multiset(list);
    }
  }

  /** Lines 48-54: every path, in listing order, then one sentinel per
      worker. */
  method SeedInputQueue(files: seq<Path>) returns (inputQueue: Queue<Task>)
    ensures inputQueue.Valid() && fresh(inputQueue) && fresh(inputQueue.buf)
    ensures inputQueue.Contents() == Tagged(files) + Sentinels(NumWorkers)
  {
    inputQueue := new Queue<Task>();
    for i := 0 to |files|
      invariant inputQueue.Valid() && fresh(inputQueue) && fresh(inputQueue.buf)
      invariant inputQueue.Contents() == Tagged(files[..i])
    {
      assert Tagged(files[..i + 1]) == Tagged(files[..i]) + [Some(files[i])];
      inputQueue.Put(Some(files[i]));
    }
    assert files[..|files|] == files;
    for w := 0 to NumWorkers
      invariant inputQueue.Valid() && fresh(inputQueue) && fresh(inputQueue.buf)
      invariant inputQueue.Contents() == Tagged(files) + Sentinels(w)
    {
      assert Sentinels(w + 1) == Sentinels(w) + [None];
      inputQueue.Put(None);
    }
  }

  /** Every partial result in `partials` has only keys from `keys`. */
  ghost predicate KeysWithin(partials: seq<Partial>, keys: set<Keyword>) {
    forall j :: 0 <= j < |partials| ==> partials[j].Keys <= keys
  }

  /** Moving the head of the waiting items to the items taken. */
  lemma Shift(taken: seq<Partial>, waiting: seq<Partial>)
    requires waiting != []
    ensures taken + waiting == (taken + [waiting[0]]) + waiting[1..]
  {
    assert waiting == [waiting[0]] + waiting[1..];
  }

  /** Lines 60-64: drain the result queue into a dictionary that starts with
      `[]` for every keyword. Every result's keys must be keywords, since
      extending a missing key raises. */
  method MergeResults(resultQueue: Queue<Partial>, keywords: seq<Keyword>) returns (keywordFiles: Partial)
    requires resultQueue.Valid()
    requires KeysWithin(resultQueue.Contents(), Seed(keywords).Keys)
    modifies resultQueue
    ensures resultQueue.Valid() && resultQueue.Contents() == []
    ensures keywordFiles == Aggregate(Seed(keywords), old(resultQueue.Contents()))
  {
    ghost var arrived := resultQueue.Contents();
    ghost var taken: seq<Partial> := [];
    keywordFiles := Seed(keywords);
    while !resultQueue.IsEmpty()
      invariant resultQueue.Valid() && resultQueue.buf == old(resultQueue.buf)
      invariant arrived == taken + resultQueue.Contents()
      invariant KeysWithin(resultQueue.Contents(), Seed(keywords).Keys)
      invariant keywordFiles == Aggregate(Seed(keywords), taken)
      invariant keywordFiles.Keys == Seed(keywords).Keys
      decreases |resultQueue.Contents()|
    {
      ghost var waiting := resultQueue.Contents();
      var result := resultQueue.Get();
      assert result == waiting[0] && resultQueue.Contents() == waiting[1..];
      Shift(taken, waiting);
      AggregateStep(Seed(keywords), taken, result);
      keywordFiles := MergeSeeded(keywordFiles, result);
      taken := taken + [result];
    }
    assert arrived == taken;
  }

  /** `find_keywords_in_files` (lines 37-66) over a given file list: seed the
      input queue with every path and `NumWorkers` sentinels, run the workers,
      then merge the result queue into a dictionary pre-seeded with `[]` for
      every keyword. The input queue ends empty. */
  method FindKeywordsInFiles(files: seq<Path>, keywords: seq<Keyword>, fs: FileSystem)
    returns (keywordFiles: Partial)
    ensures keywordFiles == Aggregate(Seed(keywords), ScanAll(files, keywords, fs))
    ensures forall k :: k in keywordFiles <==> k in keywords
    ensures forall k :: k in keywordFiles ==>
      keywordFiles[k] == Hits(files, fs, k, multiset(keywords)[k])
  {
    var inputQueue := SeedInputQueue(files);
    var resultQueue := new Queue<Partial>();
    TwoWorkersDrainAll(files);
    RunWorkers(inputQueue, resultQueue, keywords, fs, NumWorkers);
    assert inputQueue.Contents() == [];
    assert resultQueue.Contents() == ScanAll(files, keywords, fs);
    forall j | 0 <= j < |files|
      ensures ScanAll(files, keywords, fs)[j].Keys <= Seed(keywords).Keys
    {
      ScanAllAt(files, j, keywords, fs);
      ScanFileShape(files[j], keywords, Read(fs, files[j]));
    }
    keywordFiles := MergeResults(resultQueue, keywords);
    forall k {
      ProcessScanResult(files, keywords, fs, k);
    }
  }
}
