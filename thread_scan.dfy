/** The thread-pool variant, `find_keywords_in_files` of task_1.py: the
    matcher's results arrive in file-listing order (as `executor.map` yields
    them) and are merged into a dictionary that starts empty. */
module ThreadScan {
  import opened Matcher
  import opened Aggregation

  /** The inner merge loop (lines 41-44): for each key of the partial result,
      in any order, create the keyword's list if it is missing and extend it
      with the partial's list. */
  method MergeInserting(acc: Partial, partial: Partial) returns (merged: Partial)
    ensures merged == Merge(acc, partial)
  {
    merged := acc;
    var todo := partial.Keys;
    MergedExceptAll(acc, partial);
    while todo != {}
      invariant todo <= partial.Keys
      invariant merged == MergedExcept(acc, partial, todo)
      decreases todo
    {
      var keyword :| keyword in todo;
      MergedExceptStep(acc, partial, todo, keyword);
      if keyword !in merged {
        merged := merged[keyword := []];
      }
      merged := merged[keyword := merged[keyword] + partial[keyword]];
      todo := todo - {keyword};
    }
    MergedExceptNone(acc, partial);
  }

  /** What the thread-pool variant returns for a file list: a key for a
      keyword exactly when at least one file was scanned (no files give `{}`),
      and under it the files whose content has the keyword as a token, in
      listing order, once per occurrence of the keyword in the keyword list. */
  lemma ThreadScanResult(files: seq<Path>, keywords: seq<Keyword>, fs: FileSystem, k: Keyword)
    ensures k in Aggregate(map[], ScanAll(files, keywords, fs)) <==> files != [] && k in keywords
    ensures Get(Aggregate(map[], ScanAll(files, keywords, fs)), k)
      == if k in keywords then Hits(files, fs, k, multiset(keywords)[k]) else []
  {
    AggregateKeys(map[], ScanAll(files, keywords, fs), k);
    AggregateColumn(map[], ScanAll(files, keywords, fs), k);
    ColumnOfScans(files, keywords, fs, k);
  }

  /** `find_keywords_in_files` (lines 30-46) over a given file list. */
  method FindKeywordsInFiles(files: seq<Path>, keywords: seq<Keyword>, fs: FileSystem)
    returns (keywordFiles: Partial)
    ensures keywordFiles == Aggregate(map[], ScanAll(files, keywords, fs))
    ensures forall k :: k in keywordFiles <==> files != [] && k in keywords
    ensures forall k :: k in keywordFiles ==>
      keywordFiles[k] == Hits(files, fs, k, multiset(keywords)[k])
  {
    keywordFiles := map[];
    for i := 0 to |files|
      invariant keywordFiles == Aggregate(map[], ScanAll(files[..i], keywords, fs))
    {
      var result := FindKeywordsInFile(files[i], keywords, fs);
      ScanAllStep(files, i, keywords, fs);
      AggregateStep(map[], ScanAll(files[..i], keywords, fs), result);
      keywordFiles := MergeInserting(keywordFiles, result);
    }
    assert files[..|files|] == files;
    forall k {
      ThreadScanResult(files, keywords, fs, k);
    }
  }

  /** With distinct file paths and distinct keywords, each keyword's list in
      the result holds exactly the files whose content has it as a token, and
      no path twice. */
  lemma ThreadScanDistinct(files: seq<Path>, keywords: seq<Keyword>, fs: FileSystem, k: Keyword)
    requires Distinct(files) && Distinct(keywords) && files != [] && k in keywords
    ensures k in Aggregate(map[], ScanAll(files, keywords, fs))
    ensures Distinct(Aggregate(map[], ScanAll(files, keywords, fs))[k])
    ensures forall f :: f in Aggregate(map[], ScanAll(files, keywords, fs))[k] <==>
      f in files && Occurs(Read(fs, f), k)
  {
    ThreadScanResult(files, keywords, fs, k);
    DistinctCount(keywords, k);
    HitsOfDistinct(files, fs, k);
  }
}
