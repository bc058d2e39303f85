/** Merging per-file dictionaries into the keyword -> paths result
    (task_1.py lines 39-44, task_2.py lines 60-64), stated once as a fold
    over the partial results in the order they arrive. */
module Aggregation {
  import opened Matcher

  /** A keyword's list in `m`, or `[]` when `m` has no such key. */
  function Get(m: Partial, k: Keyword): seq<Path> {
    if k in m then m[k] else []
  }

  /** Folding one partial result into the accumulator: every key of either
      side is kept, and a keyword's list is the accumulator's list extended by
      the partial's list. */
  function Merge(acc: Partial, partial: Partial): (merged: Partial)
    ensures forall k :: k in merged <==> k in acc || k in partial
    ensures forall k :: k in acc ==> acc[k] <= merged[k]
  {
    map k | k in acc.Keys + partial.Keys :: Get(acc, k) + Get(partial, k)
  }

  /** One merge step, keyword by keyword. */
  lemma MergeGet(acc: Partial, partial: Partial, k: Keyword)
    ensures k in Merge(acc, partial) <==> k in acc || k in partial
    ensures Get(Merge(acc, partial), k) == Get(acc, k) + Get(partial, k)
  {
  }

  /** A merge step part-way through the keys of `partial`: the keys in
      `todo` have not been merged yet. */
  ghost function MergedExcept(acc: Partial, partial: Partial, todo: set<Keyword>): Partial {
    map k | k in acc.Keys + (partial.Keys - todo)
      :: Get(acc, k) + (if k in partial && k !in todo then partial[k] else [])
  }

  /** Before any key is merged, the accumulator is unchanged. */
  lemma MergedExceptAll(acc: Partial, partial: Partial)
    ensures MergedExcept(acc, partial, partial.Keys) == acc
  {
    var m := MergedExcept(acc, partial, partial.Keys);
    assert m.Keys == acc.Keys;
    forall k | k in m ensures m[k] == acc[k] {
      assert Get(acc, k) == acc[k];
    }
  }

  /** Once every key is merged, the step is complete. */
  lemma MergedExceptNone(acc: Partial, partial: Partial)
    ensures MergedExcept(acc, partial, {}) == Merge(acc, partial)
  {
    var m := MergedExcept(acc, partial, {});
    assert m.Keys == Merge(acc, partial).Keys;
    forall k | k in m ensures m[k] == Merge(acc, partial)[k] {
      assert Get(partial, k) == if k in partial then partial[k] else [];
    }
  }

  /** Merging key `k` creates its list when missing and extends it with the
      partial's list, and leaves every other key alone. */
  lemma MergedExceptStep(acc: Partial, partial: Partial, todo: set<Keyword>, k: Keyword)
    requires k in todo && k in partial
    ensures MergedExcept(acc, partial, todo - {k})
      == MergedExcept(acc, partial, todo)[k := Get(MergedExcept(acc, partial, todo), k) + partial[k]]
  {
    var before := MergedExcept(acc, partial, todo);
    var after := MergedExcept(acc, partial, todo - {k});
    var expected := before[k := Get(before, k) + partial[k]];
    assert Get(before, k) == Get(acc, k);
    forall j | j in after ensures after[j] == expected[j] {
      if j != k {
        assert j in before;
      }
    }
    assert after.Keys == expected.Keys;
  }

  /** The accumulator after merging `partials`, in order, into `seed`. */
  function Aggregate(seed: Partial, partials: seq<Partial>): (merged: Partial)
    ensures forall k :: k in seed ==> k in merged && seed[k] <= merged[k]
    decreases |partials|
  {
    if partials == [] then seed
    else Merge(Aggregate(seed, partials[..|partials| - 1]), partials[|partials| - 1])
  }

  /** A keyword's lists across `partials`, concatenated in order. */
  function Column(partials: seq<Partial>, k: Keyword): seq<Path>
    decreases |partials|
  {
    if partials == [] then [] else Get(partials[0], k) + Column(partials[1..], k)
  }

  /** Some partial result has a key for `k`. */
  predicate Carries(partials: seq<Partial>, k: Keyword) {
    exists i :: 0 <= i < |partials| && k in partials[i]
  }

  lemma {:induction false} ColumnAppend(ps: seq<Partial>, qs: seq<Partial>, k: Keyword)
    ensures Column(ps + qs, k) == Column(ps, k) + Column(qs, k)
    decreases |ps|
  {
    if ps == [] {
      assert ps + qs == qs;
    } else {
      assert (ps + qs)[0] == ps[0];
      assert (ps + qs)[1..] == ps[1..] + qs;
      ColumnAppend(ps[1..], qs, k);
    }
  }

  /** The fold's keys: the result has a key for `k` exactly when the seed or
      some partial result has one. */
  lemma {:induction false} AggregateKeys(seed: Partial, partials: seq<Partial>, k: Keyword)
    ensures k in Aggregate(seed, partials) <==> k in seed || Carries(partials, k)
    decreases |partials|
  {
    if partials != [] {
      var n := |partials| - 1;
      var init := partials[..n];
      AggregateKeys(seed, init, k);
      MergeGet(Aggregate(seed, init), partials[n], k);
      CarriesSnoc(partials, k);
    }
  }

  /** Associativity of concatenation, stated apart so that the step in
      `AggregateColumn` that uses it is proved in a small context. */
  lemma ConcatAssoc(a: seq<Path>, b: seq<Path>, c: seq<Path>)
    ensures (a + b) + c == a + (b + c)
  { }

  /** The last partial result carries `k`, or an earlier one does. */
  lemma CarriesSnoc(partials: seq<Partial>, k: Keyword)
    requires partials != []
    ensures Carries(partials, k)
      <==> Carries(partials[..|partials| - 1], k) || k in partials[|partials| - 1]
  {
    var n := |partials| - 1;
    if Carries(partials, k) && !Carries(partials[..n], k) {
      var i :| 0 <= i < |partials| && k in partials[i];
      assert i == n;
    }
    if Carries(partials[..n], k) {
      var i :| 0 <= i < n && k in partials[..n][i];
      assert k in partials[i];
    }
  }

  /** The fold's lists: a keyword's list in the result is the seed's list
      followed by the partial results' lists for it, in arrival order. */
  lemma {:induction false} AggregateColumn(seed: Partial, partials: seq<Partial>, k: Keyword)
    ensures Get(Aggregate(seed, partials), k) == Get(seed, k) + Column(partials, k)
    decreases |partials|
  {
    if partials != [] {
      var n := |partials| - 1;
      var init, last := partials[..n], partials[n];
      assert partials == init + [last];
      var acc := Aggregate(seed, init);
      assert Aggregate(seed, partials) == Merge(acc, last);
      AggregateColumn(seed, init, k);
      ColumnAppend(init, [last], k);
      assert Column([last], k) == Get(last, k);
      MergeGet(acc, last, k);
      calc {
        Get(Aggregate(seed, partials), k);
        Get(acc, k) + Get(last, k);
        (Get(seed, k) + Column(init, k)) + Get(last, k);
        { ConcatAssoc(Get(seed, k), Column(init, k), Get(last, k)); }
        Get(seed, k) + (Column(init, k) + Get(last, k));
        Get(seed, k) + Column(partials, k);
      }
    }
  }

  // ---------------------------------------------------------------------------
  // Neither losing nor duplicating (keyword, path) pairs
  // ---------------------------------------------------------------------------

  /** How many times `path` is listed under `k` in `m`. */
  function PairCount(m: Partial, k: Keyword, path: Path): nat {
    multiset(Get(m, k))[path]
  }

  /** The same count summed over a sequence of partial results. */
  function SumPairCount(partials: seq<Partial>, k: Keyword, path: Path): nat
    decreases |partials|
  {
    if partials == [] then 0 else PairCount(partials[0], k, path) + SumPairCount(partials[1..], k, path)
  }

  lemma {:induction false} ColumnPairCount(partials: seq<Partial>, k: Keyword, path: Path)
    ensures multiset(Column(partials, k))[path] == SumPairCount(partials, k, path)
    decreases |partials|
  {
    if partials != [] {
      ColumnPairCount(partials[1..], k, path);
      assert multiset(Column(partials, k))
          == multiset(Get(partials[0], k)) + multiset(Column(partials[1..], k));
    }
  }

  /** Merging loses and duplicates nothing: every (keyword, path) pair occurs
      in the result as often as in the seed and all partial results together. */
  lemma AggregatePairCount(seed: Partial, partials: seq<Partial>, k: Keyword, path: Path)
    ensures PairCount(Aggregate(seed, partials), k, path)
      == PairCount(seed, k, path) + SumPairCount(partials, k, path)
  {
    AggregateColumn(seed, partials, k);
    ColumnPairCount(partials, k, path);
    assert multiset(Get(Aggregate(seed, partials), k))
        == multiset(Get(seed, k)) + multiset(Column(partials, k));
  }

  // ---------------------------------------------------------------------------
  // Arrival order
  // ---------------------------------------------------------------------------

  /** Taking out the partial result at index `j`. */
  lemma RemoveAt(qs: seq<Partial>, j: nat, k: Keyword)
    requires j < |qs|
    ensures multiset(qs[..j] + qs[j + 1..]) == multiset(qs) - multiset{qs[j]}
    ensures multiset(Column(qs, k))
      == multiset(Get(qs[j], k)) + multiset(Column(qs[..j] + qs[j + 1..], k))
  {
    var x := qs[j];
    assert qs == qs[..j] + ([x] + qs[j + 1..]);
    assert multiset(qs) == multiset(qs[..j]) + multiset{x} + multiset(qs[j + 1..]);
    ColumnAppend(qs[..j], [x] + qs[j + 1..], k);
    ColumnAppend(qs[..j], qs[j + 1..], k);
    assert ([x] + qs[j + 1..])[1..] == qs[j + 1..];
    assert Column([x] + qs[j + 1..], k) == Get(x, k) + Column(qs[j + 1..], k);
  }

  /** Taking the same partial result out of two reorderings of each other. */
  lemma DropMatching(ps: seq<Partial>, qs: seq<Partial>, j: nat)
    requires ps != [] && j < |qs| && qs[j] == ps[0]
    requires multiset(ps) == multiset(qs)
    ensures multiset(ps[1..]) == multiset(qs[..j] + qs[j + 1..])
  {
    assert ps == [ps[0]] + ps[1..];
    assert multiset(ps) == multiset{ps[0]} + multiset(ps[1..]);
    assert qs == qs[..j] + ([qs[j]] + qs[j + 1..]);
    assert multiset(qs) == multiset(qs[..j]) + multiset{qs[j]} + multiset(qs[j + 1..]);
    assert multiset(qs[..j] + qs[j + 1..]) == multiset(qs[..j]) + multiset(qs[j + 1..]);
    assert multiset(ps[1..]) == multiset(ps) - multiset{ps[0]};
    assert multiset(qs[..j] + qs[j + 1..]) == multiset(qs) - multiset{qs[j]};
  }

  /** Reordering the partial results reorders each keyword's column only. */
  lemma {:induction false} ColumnPermutation(ps: seq<Partial>, qs: seq<Partial>, k: Keyword)
    requires multiset(ps) == multiset(qs)
    ensures multiset(Column(ps, k)) == multiset(Column(qs, k))
    decreases |ps|
  {
    if ps == [] {
      assert |qs| == |multiset(qs)| == 0;
    } else {
      var x := ps[0];
      assert x in multiset(qs);
      var j :| 0 <= j < |qs| && qs[j] == x;
      var rest := qs[..j] + qs[j + 1..];
      DropMatching(ps, qs, j);
      ColumnPermutation(ps[1..], rest, k);
      RemoveAt(qs, j, k);
      assert multiset(Column(ps, k)) == multiset(Get(x, k)) + multiset(Column(ps[1..], k));
    }
  }

  /** Some partial result carries `k` whatever the order of the partials. */
  lemma CarriesPermutation(ps: seq<Partial>, qs: seq<Partial>, k: Keyword)
    requires multiset(ps) == multiset(qs)
    ensures Carries(ps, k) ==> Carries(qs, k)
  {
    if Carries(ps, k) {
      var i :| 0 <= i < |ps| && k in ps[i];
      assert ps[i] in multiset(qs);
      var j :| 0 <= j < |qs| && qs[j] == ps[i];
    }
  }

  /** The arrival order of the partial results changes neither the keys of the
      aggregate nor, for any keyword, the multiset of its paths. */
  lemma AggregateArrivalOrder(seed: Partial, ps: seq<Partial>, qs: seq<Partial>, k: Keyword)
    requires multiset(ps) == multiset(qs)
    ensures k in Aggregate(seed, ps) <==> k in Aggregate(seed, qs)
    ensures multiset(Get(Aggregate(seed, ps), k)) == multiset(Get(Aggregate(seed, qs), k))
  {
    AggregateKeys(seed, ps, k);
    AggregateKeys(seed, qs, k);
    AggregateColumn(seed, ps, k);
    AggregateColumn(seed, qs, k);
    CarriesPermutation(ps, qs, k);
    CarriesPermutation(qs, ps, k);
    ColumnPermutation(ps, qs, k);
  }

  // ---------------------------------------------------------------------------
  // Aggregating the scans of a file list
  // ---------------------------------------------------------------------------

  /** Every keyword mapped to `[]`, as `{keyword: [] for keyword in keywords}`. */
  function Seed(keywords: seq<Keyword>): (seeded: Partial)
    ensures forall k :: k in seeded <==> k in keywords
    ensures forall path :: ScanFile(path, keywords, None) == seeded
  {
    map k | k in keywords :: []
  }

  /** The matcher's results for `files`, in listing order. */
  function ScanAll(files: seq<Path>, keywords: seq<Keyword>, fs: FileSystem): (partials: seq<Partial>)
    ensures |partials| == |files|
    decreases |files|
  {
    if files == [] then []
    else
      var last := files[|files| - 1];
      ScanAll(files[..|files| - 1], keywords, fs) + [ScanFile(last, keywords, Read(fs, last))]
  }

  /** Scanning one more file appends its result. */
  lemma ScanAllStep(files: seq<Path>, i: nat, keywords: seq<Keyword>, fs: FileSystem)
    requires i < |files|
    ensures ScanAll(files[..i + 1], keywords, fs)
      == ScanAll(files[..i], keywords, fs) + [ScanFile(files[i], keywords, Read(fs, files[i]))]
  {
    assert files[..i + 1][..i] == files[..i];
  }

  /** Scanning a concatenation of file lists. */
  lemma {:induction false} ScanAllConcat(xs: seq<Path>, ys: seq<Path>, keywords: seq<Keyword>, fs: FileSystem)
    ensures ScanAll(xs + ys, keywords, fs) == ScanAll(xs, keywords, fs) + ScanAll(ys, keywords, fs)
    decreases |ys|
  {
    if ys == [] {
      assert xs + ys == xs;
    } else {
      var n := |ys| - 1;
      assert (xs + ys)[..|xs + ys| - 1] == xs + ys[..n];
      ScanAllConcat(xs, ys[..n], keywords, fs);
    }
  }

  /** The `i`-th result is the scan of the `i`-th file. */
  lemma {:induction false} ScanAllAt(files: seq<Path>, i: nat, keywords: seq<Keyword>, fs: FileSystem)
    requires i < |files|
    ensures ScanAll(files, keywords, fs)[i] == ScanFile(files[i], keywords, Read(fs, files[i]))
    decreases |files|
  {
    if i < |files| - 1 {
      ScanAllAt(files[..|files| - 1], i, keywords, fs);
    }
  }

  /** Merging one more partial result into the fold. */
  lemma AggregateStep(seed: Partial, partials: seq<Partial>, partial: Partial)
    ensures Aggregate(seed, partials + [partial]) == Merge(Aggregate(seed, partials), partial)
  {
    assert (partials + [partial])[..|partials|] == partials;
  }

  /** The files, in order, whose content has `k` as a token, each listed
      `copies` times. */
  function Hits(files: seq<Path>, fs: FileSystem, k: Keyword, copies: nat): seq<Path>
    decreases |files|
  {
    if files == [] then []
    else
      var here := if Occurs(Read(fs, files[0]), k) then Replicate(files[0], copies) else [];
      here + Hits(files[1..], fs, k, copies)
  }

  /** The scans of `files` carry `k` exactly when some file was scanned and
      `k` is a keyword, and their column for `k` is `Hits`, with one copy per
      occurrence of `k` in the keyword list. */
  lemma {:induction false} ColumnOfScans(files: seq<Path>, keywords: seq<Keyword>, fs: FileSystem, k: Keyword)
    ensures Carries(ScanAll(files, keywords, fs), k) <==> files != [] && k in keywords
    ensures Column(ScanAll(files, keywords, fs), k)
      == if k in keywords then Hits(files, fs, k, multiset(keywords)[k]) else []
    decreases |files|
  {
    var scans := ScanAll(files, keywords, fs);
    if files != [] {
      assert files == [files[0]] + files[1..];
      ScanAllConcat([files[0]], files[1..], keywords, fs);
      assert ScanAll([files[0]], keywords, fs) == [scans[0]];
      ColumnOfScans(files[1..], keywords, fs, k);
      if k in keywords {
        ScanAllAt(files, 0, keywords, fs);
        assert k in scans[0];
      }
      if Carries(scans, k) {
        var i :| 0 <= i < |scans| && k in scans[i];
        ScanAllAt(files, i, keywords, fs);
        assert k in keywords;
      }
    }
  }

  /** With distinct files and a keyword listed once, the result for that
      keyword lists each file whose content has it as a token, and no path
      twice. */
  lemma {:induction false} HitsOfDistinct(files: seq<Path>, fs: FileSystem, k: Keyword)
    requires Distinct(files)
    ensures Distinct(Hits(files, fs, k, 1))
    ensures forall f :: f in Hits(files, fs, k, 1) <==> f in files && Occurs(Read(fs, f), k)
    decreases |files|
  {
    if files != [] {
      var f0 := files[0];
      var tail := Hits(files[1..], fs, k, 1);
      HitsOfDistinct(files[1..], fs, k);
      assert Replicate(f0, 1) == [f0];
      assert f0 !in files[1..];
      assert files == [f0] + files[1..];
      assert f0 !in tail;
    }
  }
}
