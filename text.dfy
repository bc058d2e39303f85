/** The three string operations the scanner relies on, with Python's semantics:
    `s.split()` (whitespace tokenisation), `s.strip()` and `s.split(sep)`. */
module Text {

  /** Python's `str.isspace()` for one code point: the characters that
      `split()` and `strip()` treat as whitespace. */
  predicate IsWhitespace(c: char) {
    var n := c as int;
    (9 <= n <= 13) || (28 <= n <= 32) || n == 0x85 || n == 0xA0 || n == 0x1680
    || (0x2000 <= n <= 0x200A) || n == 0x2028 || n == 0x2029 || n == 0x202F
    || n == 0x205F || n == 0x3000
  }

  predicate NoWhitespace(s: string) {
    forall i :: 0 <= i < |s| ==> !IsWhitespace(s[i])
  }

  predicate AllWhitespace(s: string) {
    forall i :: 0 <= i < |s| ==> IsWhitespace(s[i])
  }

  // ---------------------------------------------------------------------------
  // s.split(): maximal runs of non-whitespace characters
  // ---------------------------------------------------------------------------

  /** Length of the run of non-whitespace characters at the start of `s`. */
  function WordLength(s: string): (n: nat)
    ensures n <= |s|
    ensures NoWhitespace(s[..n])
    ensures n == |s| || IsWhitespace(s[n])
  {
    if s == [] || IsWhitespace(s[0]) then 0 else 1 + WordLength(s[1..])
  }

  /** The tokens of `s`, in order, as Python's `s.split()` returns them. */
  function Tokens(s: string): (tokens: seq<string>)
    ensures forall t :: t in tokens ==> t != [] && NoWhitespace(t)
    decreases |s|
  {
    if s == [] then []
    else if IsWhitespace(s[0]) then Tokens(s[1..])
    else
      var n := WordLength(s);
      [s[..n]] + Tokens(s[n..])
  }

  /** `k` occurs in `s` at position `i` as a whole token: it is non-empty, holds
      no whitespace, and is bounded on both sides by whitespace or the ends of `s`. */
  predicate TokenAt(s: string, i: nat, k: string) {
    && k != []
    && NoWhitespace(k)
    && i + |k| <= |s|
    && s[i..i + |k|] == k
    && (i == 0 || IsWhitespace(s[i - 1]))
    && (i + |k| == |s| || IsWhitespace(s[i + |k|]))
  }

  /** Occurrences as a token are preserved by dropping a prefix that ends on a
      token boundary. */
  lemma TokenAtShift(s: string, m: nat, j: nat, k: string)
    requires m <= |s|
    requires j >= 1 || m == 0 || IsWhitespace(s[m - 1])
    ensures TokenAt(s[m..], j, k) <==> TokenAt(s, m + j, k)
  {
    if TokenAt(s, m + j, k) {
      assert s[m..][j..j + |k|] == s[m + j..m + j + |k|];
    }
    if TokenAt(s[m..], j, k) {
      assert s[m..][j..j + |k|] == s[m + j..m + j + |k|];
    }
  }

  /** A token begins with a non-whitespace character. */
  lemma TokenAtFirst(s: string, i: nat, k: string)
    requires TokenAt(s, i, k)
    ensures s[i] == k[0] && !IsWhitespace(s[i])
  {
    assert s[i..i + |k|][0] == s[i];
  }

  /** A token that starts at the beginning of a word is that whole word. */
  lemma TokenAtWordStart(s: string, k: string)
    requires s != [] && !IsWhitespace(s[0])
    requires TokenAt(s, 0, k)
    ensures k == s[..WordLength(s)]
  {
  }

  /** No token starts strictly inside the first word. */
  lemma TokenOutsideWord(s: string, i: nat, k: string)
    requires s != [] && !IsWhitespace(s[0])
    requires TokenAt(s, i, k)
    ensures i == 0 || i > WordLength(s)
  {
  }

  /** The first word of `s` stands in `s` as a token. */
  lemma WordIsToken(s: string)
    requires s != [] && !IsWhitespace(s[0])
    ensures TokenAt(s, 0, s[..WordLength(s)])
  {
    var n := WordLength(s);
    assert s[0..n] == s[..n];
  }

  /** Inductive step of `TokensExact` when `s` starts with whitespace. */
  lemma TokensExactSpace(s: string, k: string)
    requires s != [] && IsWhitespace(s[0])
    requires k in Tokens(s[1..]) <==> exists j: nat :: TokenAt(s[1..], j, k)
    ensures k in Tokens(s) <==> exists i: nat :: TokenAt(s, i, k)
  {
    assert Tokens(s) == Tokens(s[1..]);
    if k in Tokens(s) {
      var j: nat :| TokenAt(s[1..], j, k);
      TokenAtShift(s, 1, j, k);
    }
    forall i: nat | TokenAt(s, i, k) ensures k in Tokens(s) {
      SpaceTokenBack(s, i, k);
    }
  }

  /** A token of `s` behind leading whitespace is a token of `s[1..]`. */
  lemma SpaceTokenBack(s: string, i: nat, k: string)
    requires s != [] && IsWhitespace(s[0])
    requires TokenAt(s, i, k)
    ensures i >= 1 && TokenAt(s[1..], i - 1, k)
  {
    TokenAtFirst(s, i, k);
    TokenAtShift(s, 1, i - 1, k);
  }

  /** Inductive step of `TokensExact` when `s` starts with a word. */
  lemma TokensExactWord(s: string, k: string)
    requires s != [] && !IsWhitespace(s[0])
    requires var n := WordLength(s);
      k in Tokens(s[n..]) <==> exists j: nat :: TokenAt(s[n..], j, k)
    ensures k in Tokens(s) <==> exists i: nat :: TokenAt(s, i, k)
  {
    var n := WordLength(s);
    assert Tokens(s) == [s[..n]] + Tokens(s[n..]);
    if k == s[..n] {
      WordIsToken(s);
    } else if k in Tokens(s) {
      var j: nat :| TokenAt(s[n..], j, k);
      WordTokenFound(s, j, k);
    }
    forall i: nat | TokenAt(s, i, k) ensures k in Tokens(s) {
      WordTokenBack(s, i, k);
    }
  }

  /** A token of what follows the first word is a token of `s`. */
  lemma WordTokenFound(s: string, j: nat, k: string)
    requires s != [] && !IsWhitespace(s[0])
    requires TokenAt(s[WordLength(s)..], j, k)
    ensures TokenAt(s, WordLength(s) + j, k)
  {
    var n := WordLength(s);
    TokenAtFirst(s[n..], j, k);
    TokenAtShift(s, n, j, k);
  }

  /** A token of `s` is its first word or a token of what follows it. */
  lemma WordTokenBack(s: string, i: nat, k: string)
    requires s != [] && !IsWhitespace(s[0])
    requires TokenAt(s, i, k)
    ensures k == s[..WordLength(s)]
      || (i > WordLength(s) && TokenAt(s[WordLength(s)..], i - WordLength(s), k))
  {
    var n := WordLength(s);
    TokenOutsideWord(s, i, k);
    if i == 0 {
      TokenAtWordStart(s, k);
    } else {
      TokenAtShift(s, n, i - n, k);
    }
  }

  /** Membership in `Tokens(s)` is exact token equality: `k` is one of the
      tokens of `s` if and only if it stands in `s` as a whole token somewhere
      (a keyword that is only a substring of a token is not found). */
  lemma {:induction false} TokensExact(s: string, k: string)
    ensures k in Tokens(s) <==> exists i: nat :: TokenAt(s, i, k)
    decreases |s|
  {
    if s == [] {
      assert forall i: nat :: !TokenAt(s, i, k);
    } else if IsWhitespace(s[0]) {
      TokensExact(s[1..], k);
      TokensExactSpace(s, k);
    } else {
      TokensExact(s[WordLength(s)..], k);
      TokensExactWord(s, k);
    }
  }

  // ---------------------------------------------------------------------------
  // s.strip()
  // ---------------------------------------------------------------------------

  /** `s` without its leading whitespace (`s.lstrip()`). */
  function StripLeft(s: string): (r: string)
    ensures |r| <= |s|
    ensures r == [] || !IsWhitespace(r[0])
  {
    if s != [] && IsWhitespace(s[0]) then StripLeft(s[1..]) else s
  }

  /** `s` without its trailing whitespace (`s.rstrip()`). */
  function StripRight(s: string): (r: string)
    ensures |r| <= |s|
    ensures r == [] || !IsWhitespace(r[|r| - 1])
  {
    if s != [] && IsWhitespace(s[|s| - 1]) then StripRight(s[..|s| - 1]) else s
  }

  /** `lstrip()` removes a whitespace prefix and nothing else. */
  lemma {:induction false} StripLeftSlice(s: string)
    ensures StripLeft(s) == s[|s| - |StripLeft(s)|..]
    ensures AllWhitespace(s[..|s| - |StripLeft(s)|])
    decreases |s|
  {
    if s != [] && IsWhitespace(s[0]) {
      StripLeftSlice(s[1..]);
      var n := |s| - |StripLeft(s)|;
      assert s[1..][..n - 1] == s[1..n];
      assert s[1..][n - 1..] == s[n..];
    }
  }

  /** `rstrip()` removes a whitespace suffix and nothing else. */
  lemma {:induction false} StripRightSlice(s: string)
    ensures StripRight(s) == s[..|StripRight(s)|]
    ensures AllWhitespace(s[|StripRight(s)|..])
    decreases |s|
  {
    if s != [] && IsWhitespace(s[|s| - 1]) {
      StripRightSlice(s[..|s| - 1]);
      var n := |StripRight(s)|;
      assert s[..|s| - 1][..n] == s[..n];
      assert s[..|s| - 1][n..] == s[n..|s| - 1];
    }
  }

  /** `s.strip()`: empty exactly when `s` is all whitespace, and otherwise
      starting and ending with a non-whitespace character. */
  function Strip(s: string): (r: string)
    ensures r == [] <==> AllWhitespace(s)
    ensures r != [] ==> !IsWhitespace(r[0]) && !IsWhitespace(r[|r| - 1])
  {
    var left := StripLeft(s);
    StripLeftSlice(s);
    StripRightSlice(left);
    assert left == [] <==> AllWhitespace(s) by {
      if left != [] {
        assert !IsWhitespace(s[|s| - |left|]);
      } else {
        assert s[..|s|] == s;
      }
    }
    assert StripRight(left) == [] <==> left == [] by {
      if left != [] {
        assert !IsWhitespace(left[0]);
      }
    }
    StripRight(left)
  }

  /** What `strip()` removes is whitespace, and only from the two ends: the
      result is the slice of `s` between a whitespace prefix and a whitespace
      suffix. */
  lemma StripSlice(s: string)
    ensures |s| - |StripLeft(s)| + |Strip(s)| <= |s|
    ensures Strip(s) == s[|s| - |StripLeft(s)|..|s| - |StripLeft(s)| + |Strip(s)|]
    ensures AllWhitespace(s[..|s| - |StripLeft(s)|])
    ensures AllWhitespace(s[|s| - |StripLeft(s)| + |Strip(s)|..])
  {
    StripLeftSlice(s);
    StripRightSlice(StripLeft(s));
    SliceBetween(s, StripLeft(s), Strip(s));
  }

  /** A whitespace prefix cut from `s`, then a whitespace suffix cut from
      what is left: the rest is a slice of `s` between the two. */
  lemma SliceBetween(s: string, left: string, r: string)
    requires |left| <= |s| && left == s[|s| - |left|..]
    requires |r| <= |left| && r == left[..|r|]
    requires AllWhitespace(left[|r|..])
    ensures r == s[|s| - |left|..|s| - |left| + |r|]
    ensures AllWhitespace(s[|s| - |left| + |r|..])
  {
    var lo := |s| - |left|;
    assert s[lo + |r|..] == left[|r|..];
  }

  // ---------------------------------------------------------------------------
  // s.split(sep) and its inverse, sep.join(pieces)
  // ---------------------------------------------------------------------------

  /** Python's `s.split(sep)` for a one-character separator: the pieces
      between separators, empty ones included (so `"".split(",") == [""]`). */
  function Split(s: string, sep: char): (pieces: seq<string>)
    ensures |pieces| >= 1
    decreases |s|
  {
    if s == [] then [[]]
    else
      var rest := Split(s[1..], sep);
      if s[0] == sep then [[]] + rest
      else [[s[0]] + rest[0]] + rest[1..]
  }

  /** There is one piece more than there are separators. */
  lemma {:induction false} SplitCount(s: string, sep: char)
    ensures |Split(s, sep)| == multiset(s)[sep] + 1
    decreases |s|
  {
    if s != [] {
      SplitCount(s[1..], sep);
      assert s == [s[0]] + s[1..];
    }
  }

  /** Python's `sep.join(pieces)`. */
  function Join(pieces: seq<string>, sep: char): string
  {
    if |pieces| == 0 then []
    else if |pieces| == 1 then pieces[0]
    else pieces[0] + [sep] + Join(pieces[1..], sep)
  }

  /** Joining the pieces back with the separator gives the original string. */
  lemma {:induction false} JoinSplit(s: string, sep: char)
    ensures Join(Split(s, sep), sep) == s
    decreases |s|
  {
    if s != [] {
      var rest := Split(s[1..], sep);
      JoinSplit(s[1..], sep);
      if s[0] == sep {
        assert Split(s, sep) == [[]] + rest;
        assert ([[]] + rest)[1..] == rest;
      } else {
        var first := [s[0]] + rest[0];
        assert Split(s, sep) == [first] + rest[1..];
        if |rest| > 1 {
          assert ([first] + rest[1..])[1..] == rest[1..];
          assert Join(rest, sep) == rest[0] + [sep] + Join(rest[1..], sep);
        }
      }
    }
  }

  /** `str.split` on a string with a known first character. */
  lemma SplitCons(c: char, t: string, sep: char)
    ensures Split([c] + t, sep)
      == if c == sep then [[]] + Split(t, sep)
         else [[c] + Split(t, sep)[0]] + Split(t, sep)[1..]
  {
    assert ([c] + t)[1..] == t;
  }

  /** Extending the first piece of a concatenation of pieces. */
  lemma ExtendFirstPiece(c: char, xs: seq<string>, ys: seq<string>)
    requires xs != []
    ensures [[c] + (xs + ys)[0]] + (xs + ys)[1..] == ([[c] + xs[0]] + xs[1..]) + ys
  {
    assert (xs + ys)[1..] == xs[1..] + ys;
  }

  /** Splitting at a separator placed between `a` and `b` splits each side. */
  lemma {:induction false} SplitConcat(a: string, b: string, sep: char)
    ensures Split(a + [sep] + b, sep) == Split(a, sep) + Split(b, sep)
    decreases |a|
  {
    if a == [] {
      assert a + [sep] + b == [sep] + b;
      SplitCons(sep, b, sep);
    } else {
      SplitConcat(a[1..], b, sep);
      SplitConcatCons(a, b, sep);
    }
  }

  /** The inductive step of `SplitConcat`: one more character in front. */
  lemma SplitConcatCons(a: string, b: string, sep: char)
    requires a != []
    requires Split(a[1..] + [sep] + b, sep) == Split(a[1..], sep) + Split(b, sep)
    ensures Split(a + [sep] + b, sep) == Split(a, sep) + Split(b, sep)
  {
    assert a + [sep] + b == [a[0]] + (a[1..] + [sep] + b);
    assert a == [a[0]] + a[1..];
    if a[0] != sep {
      SplitConcatChar(a[0], a[1..], b, sep);
    } else {
      SplitConcatSep(a[1..], b, sep);
    }
  }

  /** `SplitConcat`'s step for a character that is not the separator. */
  lemma SplitConcatChar(c: char, a: string, b: string, sep: char)
    requires c != sep
    requires Split(a + [sep] + b, sep) == Split(a, sep) + Split(b, sep)
    ensures Split([c] + (a + [sep] + b), sep) == Split([c] + a, sep) + Split(b, sep)
  {
    SplitCons(c, a + [sep] + b, sep);
    SplitCons(c, a, sep);
    ExtendFirstPiece(c, Split(a, sep), Split(b, sep));
  }

  /** `SplitConcat`'s step for a separator. */
  lemma SplitConcatSep(a: string, b: string, sep: char)
    requires Split(a + [sep] + b, sep) == Split(a, sep) + Split(b, sep)
    ensures Split([sep] + (a + [sep] + b), sep) == Split([sep] + a, sep) + Split(b, sep)
  {
    SplitCons(sep, a + [sep] + b, sep);
    SplitCons(sep, a, sep);
    assert [[]] + (Split(a, sep) + Split(b, sep)) == ([[]] + Split(a, sep)) + Split(b, sep);
  }

  /** No piece contains the separator. */
  lemma {:induction false} SplitPieces(s: string, sep: char)
    ensures forall i :: 0 <= i < |Split(s, sep)| ==> sep !in Split(s, sep)[i]
    decreases |s|
  {
    if s != [] {
      SplitPieces(s[1..], sep);
    }
  }

  /** A string without the separator is a single piece. */
  lemma {:induction false} SplitWithoutSeparator(s: string, sep: char)
    requires sep !in s
    ensures Split(s, sep) == [s]
    decreases |s|
  {
    if s != [] {
      assert sep !in s[1..];
      SplitWithoutSeparator(s[1..], sep);
      assert [s[0]] + s[1..] == s;
    }
  }
}
