/** Parsing the user's comma-separated keyword line:
    `[k.strip() for k in user_input.split(',') if k.strip()]`. */
module Keywords {
  import opened Text

  /** A keyword as the parser yields it: non-empty, stripped, comma-free. */
  predicate IsParsedKeyword(k: string) {
    && k != []
    && !IsWhitespace(k[0])
    && !IsWhitespace(k[|k| - 1])
    && ',' !in k
  }

  /** The comprehension over the pieces: strip each one and keep the
      non-empty results, in order. */
  function KeepStripped(pieces: seq<string>): (kept: seq<string>)
    ensures |kept| <= |pieces|
    ensures forall k :: k in kept ==> k != []
  {
    if pieces == [] then []
    else
      var k := Strip(pieces[0]);
      (if k == [] then [] else [k]) + KeepStripped(pieces[1..])
  }

  /** Stripping a comma-free piece leaves it comma-free. */
  lemma StripKeepsCommaFree(p: string)
    requires ',' !in p
    ensures ',' !in Strip(p)
  {
    StripSlice(p);
  }

  /** Every kept piece is a well-formed keyword when no piece holds a comma. */
  lemma {:induction false} KeepStrippedWellFormed(pieces: seq<string>)
    requires forall i :: 0 <= i < |pieces| ==> ',' !in pieces[i]
    ensures forall i :: 0 <= i < |KeepStripped(pieces)| ==> IsParsedKeyword(KeepStripped(pieces)[i])
  {
    if pieces != [] {
      StripKeepsCommaFree(pieces[0]);
      KeepStrippedWellFormed(pieces[1..]);
    }
  }

  /** The keyword list parsed from the user's input line (lines 50 and 71). */
  function ParseKeywords(userInput: string): (keywords: seq<string>)
    ensures forall i :: 0 <= i < |keywords| ==> IsParsedKeyword(keywords[i])
  {
    var pieces := Split(userInput, ',');
    SplitPieces(userInput, ',');
    KeepStrippedWellFormed(pieces);
    KeepStripped(pieces)
  }

  /** The comprehension distributes over concatenation of piece lists. */
  lemma {:induction false} KeepStrippedConcat(xs: seq<string>, ys: seq<string>)
    ensures KeepStripped(xs + ys) == KeepStripped(xs) + KeepStripped(ys)
  {
    if xs == [] {
      assert xs + ys == ys;
    } else {
      var k := Strip(xs[0]);
      var head := if k == [] then [] else [k];
      assert (xs + ys)[0] == xs[0];
      assert (xs + ys)[1..] == xs[1..] + ys;
      KeepStrippedConcat(xs[1..], ys);
      calc {
        KeepStripped(xs + ys);
        head + KeepStripped(xs[1..] + ys);
        head + (KeepStripped(xs[1..]) + KeepStripped(ys));
        (head + KeepStripped(xs[1..])) + KeepStripped(ys);
      }
    }
  }

  /** Parsing is order-preserving and does not deduplicate: the keywords of
      `a,b` are the keywords of `a` followed by those of `b`. */
  lemma ParseKeywordsConcat(a: string, b: string)
    ensures ParseKeywords(a + [','] + b) == ParseKeywords(a) + ParseKeywords(b)
  {
    SplitConcat(a, b, ',');
    KeepStrippedConcat(Split(a, ','), Split(b, ','));
  }

  /** A single comma-free piece yields its stripped text, or nothing when it
      is blank. */
  lemma ParseKeywordsPiece(piece: string)
    requires ',' !in piece
    ensures ParseKeywords(piece) == if AllWhitespace(piece) then [] else [Strip(piece)]
  {
    SplitWithoutSeparator(piece, ',');
    assert KeepStripped([piece]) == (if Strip(piece) == [] then [] else [Strip(piece)]) + KeepStripped([]);
  }

  /** Parsing does not deduplicate: a keyword given twice is returned twice. */
  lemma ParseKeywordsKeepsRepeats(piece: string)
    requires ',' !in piece && !AllWhitespace(piece)
    ensures ParseKeywords(piece + [','] + piece) == [Strip(piece), Strip(piece)]
  {
    ParseKeywordsConcat(piece, piece);
    ParseKeywordsPiece(piece);
  }
}
