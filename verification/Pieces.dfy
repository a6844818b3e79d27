/** Where one run of bytes lies inside another. */
module Pieces {
  import opened ByteIO

  ghost predicate PieceAt(s: Bytes, at: nat, piece: Bytes) {
    at + |piece| <= |s| && s[at..at + |piece|] == piece
  }

  lemma Cut(s: Bytes, at: nat, n: nat)
    requires at + n <= |s|
    ensures PieceAt(s, at, s[at..at + n])
  {
  }

  /** Containment is transitive, offsets adding up. */
  lemma PieceOfPiece(s: Bytes, at: nat, piece: Bytes, k: nat, inner: Bytes)
    requires PieceAt(s, at, piece) && PieceAt(piece, k, inner)
    ensures PieceAt(s, at + k, inner)
  {
    var cut := s[at + k..at + k + |inner|];
    forall i | 0 <= i < |inner|
      ensures cut[i] == inner[i]
    {
      assert piece[k..k + |inner|][i] == piece[k + i];
      assert s[at..at + |piece|][k + i] == s[at + k + i];
    }
  }

  lemma PiecesOfSum(a: Bytes, b: Bytes)
    ensures PieceAt(a + b, 0, a) && PieceAt(a + b, |a|, b)
  {
  }

  /** Pieces lying next to each other are one piece. */
  lemma PiecesJoin(s: Bytes, at: nat, a: Bytes, b: Bytes)
    ensures PieceAt(s, at, a + b) <==> PieceAt(s, at, a) && PieceAt(s, at + |a|, b)
  {
    if PieceAt(s, at, a + b) {
      PiecesOfSum(a, b);
      PieceOfPiece(s, at, a + b, 0, a);
      PieceOfPiece(s, at, a + b, |a|, b);
    }
    if PieceAt(s, at, a) && PieceAt(s, at + |a|, b) {
      assert s[at..at + |a + b|] == s[at..at + |a|] + s[at + |a|..at + |a| + |b|];
    }
  }

  lemma SevenPieces(s: Bytes, a: Bytes, b: Bytes, c: Bytes, d: Bytes, e: Bytes, f: Bytes, g: Bytes)
    ensures PieceAt(s, 0, a + (b + (c + (d + (e + (f + g)))))) <==>
              && PieceAt(s, 0, a) && PieceAt(s, |a|, b) && PieceAt(s, |a| + |b|, c) && PieceAt(s, |a| + |b| + |c|, d)
              && PieceAt(s, |a| + |b| + |c| + |d|, e) && PieceAt(s, |a| + |b| + |c| + |d| + |e|, f)
              && PieceAt(s, |a| + |b| + |c| + |d| + |e| + |f|, g)
  {
    hide PieceAt;
    PiecesJoin(s, 0, a, b + (c + (d + (e + (f + g)))));
    PiecesJoin(s, |a|, b, c + (d + (e + (f + g))));
    PiecesJoin(s, |a| + |b|, c, d + (e + (f + g)));
    PiecesJoin(s, |a| + |b| + |c|, d, e + (f + g));
    PiecesJoin(s, |a| + |b| + |c| + |d|, e, f + g);
    PiecesJoin(s, |a| + |b| + |c| + |d| + |e|, f, g);
  }

  lemma PieceIs(s: Bytes, at: nat, piece: Bytes, n: nat)
    requires PieceAt(s, at, piece) && |piece| == n
    ensures at + n <= |s| && s[at..at + n] == piece
  {
  }

  lemma PieceOfFront(s: Bytes, n: nat, at: nat, piece: Bytes)
    requires n <= |s|
    ensures PieceAt(s[..n], at, piece) <==> at + |piece| <= n && PieceAt(s, at, piece)
  {
    if at + |piece| <= n {
      assert s[..n][at..at + |piece|] == s[at..at + |piece|];
    }
  }

  /** The pieces at one place, of one length, are the same. */
  lemma OnePiece(s: Bytes, at: nat, a: Bytes, b: Bytes)
    requires PieceAt(s, at, a) && PieceAt(s, at, b) && |a| == |b|
    ensures a == b
  {
  }
}
