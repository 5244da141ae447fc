/** Splitting and joining sequences at a separator, as the string methods of the same names do. */
module Text {

  /** The maximal separator-free pieces, in order; there is always at least one. */
  function Split<T(==)>(s: seq<T>, sep: T): (pieces: seq<seq<T>>)
    ensures |pieces| >= 1
    ensures forall i | 0 <= i < |pieces| :: sep !in pieces[i]
  {
    if s == [] then
      [[]]
    else
      var rest := Split(s[1..], sep);
      if s[0] == sep then [[]] + rest else [[s[0]] + rest[0]] + rest[1..]
  }

  function Join<T>(pieces: seq<seq<T>>, sep: T): seq<T> {
    if pieces == [] then
      []
    else if |pieces| == 1 then
      pieces[0]
    else
      pieces[0] + [sep] + Join(pieces[1..], sep)
  }

  lemma {:induction false} SplitOfPrefixed<T>(piece: seq<T>, sep: T, rest: seq<T>)
    requires sep !in piece
    ensures Split(piece + [sep] + rest, sep) == [piece] + Split(rest, sep)
  {
    var s := piece + [sep] + rest;
    if piece == [] {
      assert s[1..] == rest;
    } else {
      SplitOfPrefixed(piece[1..], sep, rest);
      assert s[1..] == piece[1..] + [sep] + rest;
      assert [s[0]] + piece[1..] == piece;
    }
  }

  lemma {:induction false} SplitOfPiece<T>(piece: seq<T>, sep: T)
    requires sep !in piece
    ensures Split(piece, sep) == [piece]
  {
    if piece != [] {
      SplitOfPiece(piece[1..], sep);
      assert [piece[0]] + piece[1..] == piece;
    }
  }

  /** Splitting undoes joining. */
  lemma {:induction false} SplitOfJoin<T>(pieces: seq<seq<T>>, sep: T)
    requires pieces != [] && forall i | 0 <= i < |pieces| :: sep !in pieces[i]
    ensures Split(Join(pieces, sep), sep) == pieces
  {
    if |pieces| == 1 {
      SplitOfPiece(pieces[0], sep);
    } else {
      SplitOfJoin(pieces[1..], sep);
      SplitOfPrefixed(pieces[0], sep, Join(pieces[1..], sep));
    }
  }
}
