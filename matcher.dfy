/** The per-file matcher, `find_keywords_in_file` (task_1.py lines 6-27; the
    body of the worker loop in task_2.py lines 19-34). */
module Matcher {
  import opened Text

  datatype Option<T> = None | Some(value: T)

  type Path = string
  type Keyword = string

  /** A keyword -> file-path-list dictionary, as one file's scan or the
      aggregate produces it. */
  type Partial = map<Keyword, seq<Path>>

  /** The files that can be opened and decoded as UTF-8, with their text. A
      path that is not a key stands for a file whose open, read or decode
      raises. */
  type FileSystem = map<Path, string>

  predicate Distinct<T(==)>(s: seq<T>) {
    forall i, j :: 0 <= i < j < |s| ==> s[i] != s[j]
  }

  /** Opening and reading `path`: its text, or None when that raises. */
  function Read(fs: FileSystem, path: Path): Option<string> {
    if path in fs then Some(fs[path]) else None
  }

  /** `keyword in content.split()` for a file that could be read. */
  predicate Occurs(content: Option<string>, keyword: Keyword) {
    content.Some? && keyword in Tokens(content.value)
  }

  function Replicate(path: Path, n: nat): (paths: seq<Path>)
    ensures |paths| == n
  {
    seq(n, _ => path)
  }

  /** What the matcher returns for one file: one key per keyword; the list of
      a keyword that is a token of the content holds the path once per
      occurrence of the keyword in `keywords`, every other list is empty. */
  function ScanFile(path: Path, keywords: seq<Keyword>, content: Option<string>): (scan: Partial)
    ensures forall k :: k in scan <==> k in keywords
    ensures forall k, p :: k in scan && p in scan[k] ==> p == path
  {
    map k | k in keywords :: if Occurs(content, k) then Replicate(path, multiset(keywords)[k]) else []
  }

  /** The dictionary of a readable file once the keywords of `done` have been
      looked up among its tokens `words`. */
  function ScannedSoFar(path: Path, keywords: seq<Keyword>, words: seq<string>, done: seq<Keyword>): Partial {
    map k | k in keywords :: if k in words then Replicate(path, multiset(done)[k]) else []
  }

  /** One iteration of the matcher's loop: looking up keyword `next` appends
      the path to its list when it is a token, and changes nothing else. */
  lemma ScannedStep(path: Path, keywords: seq<Keyword>, words: seq<string>, done: seq<Keyword>, next: Keyword)
    requires next in keywords
    ensures var before := ScannedSoFar(path, keywords, words, done);
      ScannedSoFar(path, keywords, words, done + [next])
      == if next in words then before[next := before[next] + [path]] else before
  {
    if next in words {
      ScannedFound(path, keywords, words, done, next);
    } else {
      ScannedMissed(path, keywords, words, done, next);
    }
  }

  /** Looking up a keyword that is a token appends the path to its list. */
  lemma ScannedFound(path: Path, keywords: seq<Keyword>, words: seq<string>, done: seq<Keyword>, next: Keyword)
    requires next in keywords && next in words
    ensures ScannedSoFar(path, keywords, words, done + [next])
      == ScannedSoFar(path, keywords, words, done)[next := ScannedSoFar(path, keywords, words, done)[next] + [path]]
  {
    var before := ScannedSoFar(path, keywords, words, done);
    var after := ScannedSoFar(path, keywords, words, done + [next]);
    var expected := before[next := before[next] + [path]];
    forall k | k in after ensures after[k] == expected[k] {
      ScannedKey(path, keywords, words, done, next, k);
    }
    assert after.Keys == expected.Keys;
  }

  /** Looking up a keyword that is not a token changes nothing. */
  lemma ScannedMissed(path: Path, keywords: seq<Keyword>, words: seq<string>, done: seq<Keyword>, next: Keyword)
    requires next !in words
    ensures ScannedSoFar(path, keywords, words, done + [next]) == ScannedSoFar(path, keywords, words, done)
  {
    var before := ScannedSoFar(path, keywords, words, done);
    var after := ScannedSoFar(path, keywords, words, done + [next]);
    forall k | k in after ensures after[k] == before[k] {
      ScannedKey(path, keywords, words, done, next, k);
    }
    assert after.Keys == before.Keys;
  }

  /** One iteration of the matcher's loop, for the list of keyword `k`. */
  lemma ScannedKey(path: Path, keywords: seq<Keyword>, words: seq<string>, done: seq<Keyword>, next: Keyword, k: Keyword)
    requires k in keywords
    ensures ScannedSoFar(path, keywords, words, done + [next])[k]
      == if k == next && k in words then ScannedSoFar(path, keywords, words, done)[k] + [path]
         else ScannedSoFar(path, keywords, words, done)[k]
  {
    assert multiset(done + [next])[k] == multiset(done)[k] + if k == next then 1 else 0;
    if k == next && k in words {
      ReplicateSnoc(path, multiset(done)[k]);
    }
  }

  lemma ReplicateSnoc(path: Path, n: nat)
    ensures Replicate(path, n) + [path] == Replicate(path, n + 1)
  {
  }

  /** `find_keywords_in_file`: the dictionary starts with `[]` for every
      keyword; if the file can be read, the loop over `keywords` appends the
      path for each keyword found among the content's tokens. A file that
      cannot be read leaves every list empty and raises nothing. */
  method FindKeywordsInFile(filePath: Path, keywords: seq<Keyword>, fs: FileSystem)
    returns (keywordFiles: Partial)
    ensures keywordFiles == ScanFile(filePath, keywords, Read(fs, filePath))
  {
    keywordFiles := map k | k in keywords :: [];
    var content := Read(fs, filePath);
    if content.Some? {
      var words := Tokens(content.value);
      ScannedNothing(filePath, keywords, words);
      for i := 0 to |keywords|
        invariant keywordFiles == ScannedSoFar(filePath, keywords, words, keywords[..i])
      {
        var keyword := keywords[i];
        assert keywords[..i + 1] == keywords[..i] + [keyword];
        ScannedStep(filePath, keywords, words, keywords[..i], keyword);
        if keyword in words {
          keywordFiles := keywordFiles[keyword := keywordFiles[keyword] + [filePath]];
        }
      }
      assert keywords[..|keywords|] == keywords;
      ScannedEverything(filePath, keywords, content.value);
    } else {
      UnreadableScan(filePath, keywords);
    }
  }

  /** Before the loop, every keyword's list is empty. */
  lemma ScannedNothing(path: Path, keywords: seq<Keyword>, words: seq<string>)
    ensures ScannedSoFar(path, keywords, words, []) == map k | k in keywords :: []
  {
  }

  /** After the loop over every keyword, the dictionary is the matcher's
      result for the file. */
  lemma ScannedEverything(path: Path, keywords: seq<Keyword>, content: string)
    ensures ScannedSoFar(path, keywords, Tokens(content), keywords) == ScanFile(path, keywords, Some(content))
  {
  }

  /** A file that cannot be read leaves every keyword's list empty. */
  lemma UnreadableScan(path: Path, keywords: seq<Keyword>)
    ensures ScanFile(path, keywords, None) == map k | k in keywords :: []
  {
  }

  /** The matcher's result, keyword by keyword: every keyword has a key; its
      list is non-empty exactly when the file could be read and the keyword
      stands in it as a whole whitespace-delimited token; every entry is the
      scanned path, once per occurrence of the keyword in the keyword list;
      an unreadable file gives an empty list. */
  lemma ScanFileEntry(path: Path, keywords: seq<Keyword>, content: Option<string>, k: Keyword)
    requires k in keywords
    ensures k in ScanFile(path, keywords, content)
    ensures ScanFile(path, keywords, content)[k] != []
      <==> content.Some? && exists i: nat :: TokenAt(content.value, i, k)
    ensures forall j :: 0 <= j < |ScanFile(path, keywords, content)[k]| ==>
      ScanFile(path, keywords, content)[k][j] == path
    ensures content.None? ==> ScanFile(path, keywords, content)[k] == []
  {
    if content.Some? {
      TokensExact(content.value, k);
    }
  }

  /** A keyword listed once occurs once in the multiset of the list. */
  lemma {:induction false} DistinctCount<T>(s: seq<T>, x: T)
    requires Distinct(s) && x in s
    ensures multiset(s)[x] == 1
  {
    if s[0] == x {
      assert x !in s[1..];
      assert s == [s[0]] + s[1..];
    } else {
      DistinctCount(s[1..], x);
      assert s == [s[0]] + s[1..];
    }
  }

  /** A sequence with the same elements, counted with multiplicity, as a
      duplicate-free one has no repeat either. */
  lemma SameMultisetDistinct<T>(a: seq<T>, b: seq<T>)
    requires Distinct(b) && multiset(a) == multiset(b)
    ensures Distinct(a)
  {
    forall i, j | 0 <= i < j < |a| ensures a[i] != a[j] {
      if a[i] == a[j] {
        assert a == a[..j] + a[j..];
        assert a[i] in multiset(a[..j]) && a[j] in multiset(a[j..]);
        assert multiset(a)[a[i]] >= 2;
        assert a[i] in b;
        DistinctCount(b, a[i]);
        assert false;
      }
    }
  }

  /** The matcher's keys are exactly the keywords, and with a duplicate-free
      keyword list every list is `[]` or `[path]`. */
  lemma ScanFileShape(path: Path, keywords: seq<Keyword>, content: Option<string>)
    ensures forall k :: k in ScanFile(path, keywords, content) <==> k in keywords
    ensures Distinct(keywords) ==> forall k :: k in keywords ==>
      ScanFile(path, keywords, content)[k] in {[], [path]}
  {
    if Distinct(keywords) {
      forall k | k in keywords ensures ScanFile(path, keywords, content)[k] in {[], [path]} {
        DistinctCount(keywords, k);
        assert Replicate(path, 1) == [path];
      }
    }
  }
}
