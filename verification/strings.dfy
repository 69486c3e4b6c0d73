/**
 The byte-string operations of Go's `strings` package that the quote loader
 relies on: `Index`, `Split` (with a non-empty separator) and `Join`.
 A Go string is an immutable sequence of bytes, so strings are `seq<byte>`.
 */
module Strings {

  newtype byte = b: int | 0 <= b < 256

  /** `sep` occurs in `s` starting at position `i`. */
  predicate OccursAt(s: seq<byte>, sep: seq<byte>, i: int) {
    0 <= i && i + |sep| <= |s| && s[i..i + |sep|] == sep
  }

  /** `sep` occurs somewhere in `s`. */
  predicate Contains(s: seq<byte>, sep: seq<byte>) {
    exists i | 0 <= i <= |s| :: OccursAt(s, sep, i)
  }

  /** Position of the first occurrence of `sep` in `s` at or after `from`, or -1. */
  function IndexFrom(s: seq<byte>, sep: seq<byte>, from: nat): (r: int)
    requires from <= |s|
    ensures r == -1 || (from <= r && OccursAt(s, sep, r))
    ensures r == -1 ==> forall j :: from <= j ==> !OccursAt(s, sep, j)
    ensures r != -1 ==> forall j :: from <= j < r ==> !OccursAt(s, sep, j)
    decreases |s| - from
  {
    if from + |sep| > |s| then -1
    else if s[from..from + |sep|] == sep then from
    else IndexFrom(s, sep, from + 1)
  }

  /** Go's `strings.Index`: the first occurrence of `sep` in `s`, or -1 when there is none. */
  function Index(s: seq<byte>, sep: seq<byte>): (r: int)
    ensures r == -1 <==> !Contains(s, sep)
    ensures r != -1 ==> OccursAt(s, sep, r)
    ensures forall j :: 0 <= j < r ==> !OccursAt(s, sep, j)
  {
    IndexFrom(s, sep, 0)
  }

  /** The first occurrence is the only position with an occurrence and none before it. */
  lemma IndexIsFirst(s: seq<byte>, sep: seq<byte>, i: int)
    requires OccursAt(s, sep, i)
    requires forall j :: 0 <= j < i ==> !OccursAt(s, sep, j)
    ensures Index(s, sep) == i
  {
  }

  /**
   Go's `strings.Split` for a non-empty separator: the pieces of `s` between
   successive leftmost, non-overlapping occurrences of `sep`. The result is
   never empty, and it is canonical (see `Canonical` below).
   */
  function Split(s: seq<byte>, sep: seq<byte>): (pieces: seq<seq<byte>>)
    requires |sep| > 0
    ensures |pieces| >= 1
    ensures Canonical(pieces, sep)
    decreases |s|
  {
    var i := Index(s, sep);
    if i < 0 then
      [s]
    else
      var tail := Split(s[i + |sep|..], sep);
      FirstPieceEndsBeforeSeparator(s, sep, i);
      ConsCanonical(s[..i], tail, sep);
      [s[..i]] + tail
  }

  /** Go's `strings.Join`: the pieces with `sep` between consecutive ones. */
  function Join(pieces: seq<seq<byte>>, sep: seq<byte>): seq<byte>
  {
    if |pieces| == 0 then []
    else if |pieces| == 1 then pieces[0]
    else pieces[0] + sep + Join(pieces[1..], sep)
  }

  /**
   Piece `p` can stand before a separator: in `p + sep` the first occurrence of
   `sep` is the appended one, so no occurrence starts inside `p`.
   */
  predicate EndsBeforeSeparator(p: seq<byte>, sep: seq<byte>) {
    Index(p + sep, sep) == |p|
  }

  /**
   A list of pieces `Split` can produce: non-empty, every piece but the last
   ends right before the separator that follows it, and the last piece holds
   no separator at all.
   */
  predicate Canonical(pieces: seq<seq<byte>>, sep: seq<byte>) {
    && |pieces| >= 1
    && (forall k :: 0 <= k < |pieces| - 1 ==> EndsBeforeSeparator(pieces[k], sep))
    && !Contains(pieces[|pieces| - 1], sep)
  }

  /** Re-joining the pieces of a split gives back the text. */
  lemma {:induction false} JoinSplit(s: seq<byte>, sep: seq<byte>)
    requires |sep| > 0
    ensures Join(Split(s, sep), sep) == s
    decreases |s|
  {
    var i := Index(s, sep);
    if i >= 0 {
      var rest := s[i + |sep|..];
      var tail := Split(rest, sep);
      SplitStep(s, sep);
      JoinSplit(rest, sep);
      JoinCons(s[..i], tail, sep);
      SplitAround(s, sep, i);
    }
  }

  /** One step of `Split` when the separator occurs. */
  lemma SplitStep(s: seq<byte>, sep: seq<byte>)
    requires |sep| > 0
    requires Index(s, sep) >= 0
    ensures Split(s, sep) == [s[..Index(s, sep)]] + Split(s[Index(s, sep) + |sep|..], sep)
  {
  }

  /** A text is the bytes before an occurrence, the occurrence, and the bytes after it. */
  lemma SplitAround(s: seq<byte>, sep: seq<byte>, i: int)
    requires OccursAt(s, sep, i)
    ensures s == s[..i] + sep + s[i + |sep|..]
  {
  }

  /** Joining a piece in front of a non-empty list puts one separator between them. */
  lemma JoinCons(p: seq<byte>, tail: seq<seq<byte>>, sep: seq<byte>)
    requires |tail| >= 1
    ensures Join([p] + tail, sep) == p + sep + Join(tail, sep)
  {
  }

  /** No piece of a split contains the separator. */
  lemma {:induction false} SplitPiecesFree(s: seq<byte>, sep: seq<byte>)
    requires |sep| > 0
    ensures forall k :: 0 <= k < |Split(s, sep)| ==> !Contains(Split(s, sep)[k], sep)
    decreases |s|
  {
    var i := Index(s, sep);
    if i >= 0 {
      var rest := s[i + |sep|..];
      var tail := Split(rest, sep);
      SplitPiecesFree(rest, sep);
      SplitStep(s, sep);
      PrefixBeforeFirstFree(s, sep, i);
      var pieces := [s[..i]] + tail;
      forall k | 0 <= k < |pieces|
        ensures !Contains(pieces[k], sep)
      {
        if k > 0 {
          assert pieces[k] == tail[k - 1];
        }
      }
    }
  }

  /** The bytes before the first occurrence of `sep` hold no occurrence of it. */
  lemma PrefixBeforeFirstFree(s: seq<byte>, sep: seq<byte>, i: int)
    requires |sep| > 0
    requires 0 <= i <= |s|
    requires forall j :: 0 <= j < i ==> !OccursAt(s, sep, j)
    ensures !Contains(s[..i], sep)
  {
    forall j | 0 <= j <= i
      ensures !OccursAt(s[..i], sep, j)
    {
      if j + |sep| <= i {
        assert !OccursAt(s, sep, j);
        assert s[..i][j..j + |sep|] == s[j..j + |sep|];
      }
    }
  }

  /** The bytes before the first occurrence of `sep` end right where that occurrence begins. */
  lemma FirstPieceEndsBeforeSeparator(s: seq<byte>, sep: seq<byte>, i: int)
    requires OccursAt(s, sep, i)
    requires forall j :: 0 <= j < i ==> !OccursAt(s, sep, j)
    ensures EndsBeforeSeparator(s[..i], sep)
  {
    var upTo := s[..i + |sep|];
    assert s[..i] + sep == upTo by {
      assert s[..i] + s[i..i + |sep|] == upTo;
    }
    forall j | 0 <= j < i
      ensures !OccursAt(upTo, sep, j)
    {
      assert upTo[j..j + |sep|] == s[j..j + |sep|];
      assert !OccursAt(s, sep, j);
    }
    assert OccursAt(upTo, sep, i);
    IndexIsFirst(upTo, sep, i);
  }

  /** A piece that ends before the separator, put in front of a canonical list, keeps it canonical. */
  lemma ConsCanonical(p: seq<byte>, tail: seq<seq<byte>>, sep: seq<byte>)
    requires EndsBeforeSeparator(p, sep)
    requires Canonical(tail, sep)
    ensures Canonical([p] + tail, sep)
  {
  }

  /** Splitting the join of a canonical list gives back the list. */
  lemma {:induction false} SplitJoin(pieces: seq<seq<byte>>, sep: seq<byte>)
    requires |sep| > 0
    requires Canonical(pieces, sep)
    ensures Split(Join(pieces, sep), sep) == pieces
    decreases |pieces|
  {
    var s := Join(pieces, sep);
    if |pieces| == 1 {
      assert Index(s, sep) == -1;
    } else {
      var p := pieces[0];
      var rest := pieces[1..];
      var after := Join(rest, sep);
      CanonicalTail(pieces, sep);
      assert pieces == [p] + rest;
      JoinCons(p, rest, sep);
      SplitCons(p, after, sep);
      SplitJoin(rest, sep);
    }
  }

  /** A piece that ends before the separator comes out of a split as the first piece. */
  lemma SplitCons(p: seq<byte>, after: seq<byte>, sep: seq<byte>)
    requires |sep| > 0
    requires EndsBeforeSeparator(p, sep)
    ensures Split(p + sep + after, sep) == [p] + Split(after, sep)
  {
    var s := p + sep + after;
    FirstOccurrenceAfterPiece(p, after, sep);
    SplitStep(s, sep);
    assert s[..|p|] == p;
    assert s[|p| + |sep|..] == after;
  }

  /** Dropping the first piece of a canonical list of two or more pieces leaves it canonical. */
  lemma CanonicalTail(pieces: seq<seq<byte>>, sep: seq<byte>)
    requires Canonical(pieces, sep) && |pieces| >= 2
    ensures Canonical(pieces[1..], sep)
  {
  }

  /** After a piece that ends before the separator, the first occurrence is the separator that follows. */
  lemma FirstOccurrenceAfterPiece(p: seq<byte>, after: seq<byte>, sep: seq<byte>)
    requires EndsBeforeSeparator(p, sep)
    ensures Index(p + sep + after, sep) == |p|
  {
    var s := p + sep + after;
    assert OccursAt(s, sep, |p|) by {
      assert s[|p|..|p| + |sep|] == sep;
    }
    forall j | 0 <= j < |p|
      ensures !OccursAt(s, sep, j)
    {
      assert !OccursAt(p + sep, sep, j);
      assert j + |sep| <= |p + sep|;
      assert s[j..j + |sep|] == (p + sep)[j..j + |sep|];
    }
    IndexIsFirst(s, sep, |p|);
  }

  /** Piece `k` of a list occurs verbatim in the joined text, starting at `off`. */
  lemma {:induction false} PieceInJoin(pieces: seq<seq<byte>>, sep: seq<byte>, k: nat) returns (off: nat)
    requires k < |pieces|
    ensures off + |pieces[k]| <= |Join(pieces, sep)|
    ensures Join(pieces, sep)[off..off + |pieces[k]|] == pieces[k]
    decreases k
  {
    if k == 0 {
      off := 0;
    } else {
      var rest := pieces[1..];
      var inner := PieceInJoin(rest, sep, k - 1);
      var head := pieces[0] + sep;
      assert rest[k - 1] == pieces[k];
      assert Join(pieces, sep) == head + Join(rest, sep);
      off := |head| + inner;
      assert (head + Join(rest, sep))[off..off + |pieces[k]|] == Join(rest, sep)[inner..inner + |pieces[k]|];
    }
  }
}
