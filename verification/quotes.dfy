/**
 The quote store built at startup: the raw source text (a file body or an
 HTTP response body) split on the delimiter line "\n%\n".
 */
module Quotes {
  import opened Strings

  /** The bytes "\n%\n": a line holding only "%", with a line break on each side. */
  const QuoteDelimiter: seq<byte> := [10, 37, 10]

  /** The ordered quote list of a source text. */
  function ParseQuotes(text: seq<byte>): (quotes: seq<seq<byte>>)
    ensures |quotes| >= 1
    ensures Canonical(quotes, QuoteDelimiter)
    ensures forall k :: 0 <= k < |quotes| ==> !Contains(quotes[k], QuoteDelimiter)
    ensures Join(quotes, QuoteDelimiter) == text
  {
    JoinSplit(text, QuoteDelimiter);
    SplitPiecesFree(text, QuoteDelimiter);
    Split(text, QuoteDelimiter)
  }

  /** The quote ends with "\n%", the first two bytes of the delimiter. */
  predicate EndsWithMarkerStart(p: seq<byte>) {
    |p| >= 2 && p[|p| - 2] == 10 && p[|p| - 1] == 37
  }

  /**
   A quote can be followed by the delimiter and still be read back as itself
   exactly when it holds no delimiter and does not end with "\n%" (whose
   two bytes would pair with the delimiter's leading line break).
   */
  lemma DelimiterBoundary(p: seq<byte>)
    ensures EndsBeforeSeparator(p, QuoteDelimiter) <==> !Contains(p, QuoteDelimiter) && !EndsWithMarkerStart(p)
  {
    var d := QuoteDelimiter;
    if Contains(p, d) {
      var j :| 0 <= j <= |p| && OccursAt(p, d, j);
      InnerOccurrenceRemains(p, j);
    }
    if EndsWithMarkerStart(p) {
      MarkerStartCompletes(p);
    }
    if !EndsBeforeSeparator(p, d) {
      assert OccursAt(p + d, d, |p|) by {
        assert (p + d)[|p|..|p| + 3] == d;
      }
      OccurrenceBeforeDelimiter(p, Index(p + d, d));
    }
  }

  /** A delimiter inside a quote is still there once the delimiter is appended. */
  lemma InnerOccurrenceRemains(p: seq<byte>, j: int)
    requires OccursAt(p, QuoteDelimiter, j)
    ensures j < |p| && OccursAt(p + QuoteDelimiter, QuoteDelimiter, j)
  {
  }

  /** A quote ending in "\n%" forms a delimiter with the line break that follows it. */
  lemma MarkerStartCompletes(p: seq<byte>)
    requires EndsWithMarkerStart(p)
    ensures OccursAt(p + QuoteDelimiter, QuoteDelimiter, |p| - 2)
  {
  }

  /** A delimiter starting inside a quote that is followed by the delimiter has one of two causes. */
  lemma OccurrenceBeforeDelimiter(p: seq<byte>, j: int)
    requires 0 <= j < |p| && OccursAt(p + QuoteDelimiter, QuoteDelimiter, j)
    ensures OccursAt(p, QuoteDelimiter, j) || EndsWithMarkerStart(p)
  {
    NoOccurrenceAtLastByte(p);
    var w := (p + QuoteDelimiter)[j..j + 3];
    if j + 3 <= |p| {
      assert w == p[j..j + 3];
    } else {
      assert w[0] == p[j] && w[1] == p[j + 1];
    }
  }

  /** The delimiter never starts at a quote's last byte when the delimiter follows the quote. */
  lemma NoOccurrenceAtLastByte(p: seq<byte>)
    requires |p| >= 1
    ensures !OccursAt(p + QuoteDelimiter, QuoteDelimiter, |p| - 1)
  {
    var w := (p + QuoteDelimiter)[|p| - 1..|p| + 2];
    assert w[1] == QuoteDelimiter[0];
  }

  /** A canonical quote list survives being written out with delimiters and parsed again. */
  lemma ParseJoin(quotes: seq<seq<byte>>)
    requires Canonical(quotes, QuoteDelimiter)
    ensures ParseQuotes(Join(quotes, QuoteDelimiter)) == quotes
  {
    SplitJoin(quotes, QuoteDelimiter);
  }

  /** Every parsed quote is a verbatim slice of the source text; `off` is where it starts. */
  lemma QuoteInSource(text: seq<byte>, k: nat) returns (off: nat)
    requires k < |ParseQuotes(text)|
    ensures off + |ParseQuotes(text)[k]| <= |text|
    ensures text[off..off + |ParseQuotes(text)[k]|] == ParseQuotes(text)[k]
  {
    off := PieceInJoin(ParseQuotes(text), QuoteDelimiter, k);
  }

  /** "A\n%\nB\n%\nC" parses to the three one-letter quotes A, B, C, in order. */
  lemma ParseExample()
    ensures ParseQuotes([65, 10, 37, 10, 66, 10, 37, 10, 67]) == [[65], [66], [67]]
  {
    var d := QuoteDelimiter;
    var second: seq<byte> := [66] + d + [67];
    var text: seq<byte> := [65] + d + second;
    SplitExample([65], [66], [67]);
    assert text == [65, 10, 37, 10, 66, 10, 37, 10, 67];
  }

  /** Three single-byte quotes come back from a split in order. */
  lemma SplitExample(a: seq<byte>, b: seq<byte>, c: seq<byte>)
    requires |a| == 1 && |b| == 1 && |c| == 1
    ensures Split(a + QuoteDelimiter + (b + QuoteDelimiter + c), QuoteDelimiter) == [a, b, c]
  {
    var d := QuoteDelimiter;
    SingleByteEndsBeforeDelimiter(a);
    SingleByteEndsBeforeDelimiter(b);
    SplitCons(a, b + d + c, d);
    SplitCons(b, c, d);
    assert Index(c, d) == -1;
  }

  /**
   A one-byte quote ends right before a following delimiter: the delimiter
   cannot start at the quote's byte, since the next byte is a line break, not '%'.
   */
  lemma SingleByteEndsBeforeDelimiter(p: seq<byte>)
    requires |p| == 1
    ensures EndsBeforeSeparator(p, QuoteDelimiter)
  {
    var s := p + QuoteDelimiter;
    assert OccursAt(s, QuoteDelimiter, 1) by {
      assert s[1..4] == QuoteDelimiter;
    }
    assert !OccursAt(s, QuoteDelimiter, 0) by {
      assert s[0..3][1] == 10;
    }
    IndexIsFirst(s, QuoteDelimiter, 1);
  }

  /** An empty source is not an empty store: it holds one empty quote. */
  lemma EmptySourceHoldsOneEmptyQuote()
    ensures ParseQuotes([]) == [[]]
  {
  }
}
