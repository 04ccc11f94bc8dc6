/** Sending a large archive file in pieces that end at line ends where they can
    (the subpart loop of commands/get.c). */
module Splitter {
  import opened Text

  datatype Piece = Piece(offset: nat, nbytes: nat)

  // ---------------------------------------------------------------- the size of one piece

  /** How far the backward scan gets: bytes left when it meets a newline, or 1. */
  function ScanBack(data: string, pos: int, nbytes: nat): (n: nat)
    requires 1 <= nbytes && nbytes - 1 <= pos < |data|
    ensures 1 <= n <= nbytes
  {
    if data[pos] == LF || nbytes == 1 then nbytes else ScanBack(data, pos - 1, nbytes - 1)
  }

  function WindowEnd(size: nat, offset: nat, limit: nat): int
  {
    if offset + limit - 1 < size then offset + limit - 1 else size - 1
  }

  function PieceSize(data: string, offset: nat, limit: nat): (n: nat)
    requires 1 <= limit < |data|
    ensures 1 <= n <= limit
  {
    var n := ScanBack(data, WindowEnd(|data|, offset, limit), limit);
    if n == 1 then limit else n
  }

  function PiecesFrom(data: string, offset: nat, limit: nat): (ps: seq<Piece>)
    requires 1 <= limit < |data|
    decreases |data| - offset
  {
    if offset >= |data| then []
    else
      var n := PieceSize(data, offset, limit);
      [Piece(offset, n)] + PiecesFrom(data, offset + n, limit)
  }

  // ---------------------------------------------------------------- the loop

  /** One window: seek to its last byte, read backwards to a newline. */
  method NextPiece(data: array<char>, offset: nat, limit: nat) returns (nbytes: nat)
    requires 1 <= limit < data.Length
    ensures nbytes == PieceSize(data[..], offset, limit)
  {
    ghost var s := data[..];
    ghost var last := WindowEnd(|s|, offset, limit);
    nbytes := limit;
    var pos := if offset + nbytes - 1 < data.Length then offset + nbytes - 1 else data.Length - 1;
    var c := data[pos];
    pos := pos + 1;
    while c != LF && nbytes > 1
      invariant 1 <= nbytes <= limit
      invariant nbytes - 1 <= pos - 1 < data.Length && c == data[pos - 1]
      invariant ScanBack(s, pos - 1, nbytes) == ScanBack(s, last, limit)
      decreases nbytes
    {
      nbytes := nbytes - 1;
      pos := pos - 2;
      assert pos >= 0;
      c := data[pos];
      pos := pos + 1;
    }
    if nbytes == 1 {
      nbytes := limit;
    }
  }

  /** The pieces sent of a file: with a limit smaller than the file, one after
      another until the whole file is sent; else the file at once. */
  method Send(data: array<char>, limited: bool, limit: nat) returns (pieces: seq<Piece>)
    requires limit >= 1
    ensures pieces == if limited && data.Length > limit then PiecesFrom(data[..], 0, limit)
                      else if data.Length > 0 then [Piece(0, data.Length)] else []
  {
    var offset := 0;
    pieces := [];
    while offset < data.Length
      invariant limited && data.Length > limit ==>
                  pieces + PiecesFrom(data[..], offset, limit) == PiecesFrom(data[..], 0, limit)
      invariant !(limited && data.Length > limit) ==>
                  (offset == 0 && pieces == []) || (offset == data.Length > 0 && pieces == [Piece(0, data.Length)])
      decreases data.Length - offset
    {
      var nbytes := data.Length;
      if limited && data.Length > limit {
        nbytes := NextPiece(data, offset, limit);
        OnePiece(pieces, data[..], offset, limit);
      }
      pieces := pieces + [Piece(offset, nbytes)];
      offset := offset + nbytes;
    }
    if limited && data.Length > limit {
      assert PiecesFrom(data[..], offset, limit) == [];
      assert pieces + [] == pieces;
    }
  }

  lemma OnePiece(done: seq<Piece>, data: string, offset: nat, limit: nat)
    requires 1 <= limit < |data| && offset < |data|
    ensures var n := PieceSize(data, offset, limit);
            done + PiecesFrom(data, offset, limit) ==
            done + [Piece(offset, n)] + PiecesFrom(data, offset + n, limit)
  {
  }

  // ---------------------------------------------------------------- what the pieces are

  /** The bytes a piece carries; the window stops at the end of the file. */
  function Carried(data: string, p: Piece): string
  {
    if p.offset > |data| then ""
    else if p.offset + p.nbytes <= |data| then data[p.offset..p.offset + p.nbytes]
    else data[p.offset..]
  }

  function CarriedAll(data: string, ps: seq<Piece>): string
  {
    if ps == [] then "" else Carried(data, ps[0]) + CarriedAll(data, ps[1..])
  }

  /** Each piece starts where the one before ends, inside the file, is not empty
      and within the limit. */
  predicate Contiguous(ps: seq<Piece>, offset: nat, size: nat, limit: nat)
  {
    if ps == [] then offset >= size
    else
      && ps[0].offset == offset < size
      && 1 <= ps[0].nbytes <= limit
      && Contiguous(ps[1..], offset + ps[0].nbytes, size, limit)
  }

  /** The pieces partition the file. */
  lemma {:induction false} PiecesPartition(data: string, offset: nat, limit: nat)
    requires 1 <= limit < |data| && offset <= |data|
    ensures var ps := PiecesFrom(data, offset, limit);
            && Contiguous(ps, offset, |data|, limit)
            && CarriedAll(data, ps) == data[offset..]
            && |ps| * limit >= |data| - offset
  {
    hide PieceSize, PiecesFrom;
    PiecesCarry(data, offset, limit);
    PiecesEnough(data, offset, limit);
  }

  lemma {:induction false} PiecesEnough(data: string, offset: nat, limit: nat)
    requires 1 <= limit < |data|
    ensures |PiecesFrom(data, offset, limit)| * limit >= |data| - offset
    decreases |data| - offset
  {
    hide PieceSize;
    if offset < |data| {
      var n := PieceSize(data, offset, limit);
      PiecesEnough(data, offset + n, limit);
      CountStep(|PiecesFrom(data, offset + n, limit)|, limit, n, |data| - offset);
    }
  }

  lemma {:induction false} PiecesCarry(data: string, offset: nat, limit: nat)
    requires 1 <= limit < |data| && offset <= |data|
    ensures var ps := PiecesFrom(data, offset, limit);
            && Contiguous(ps, offset, |data|, limit)
            && CarriedAll(data, ps) == data[offset..]
    decreases |data| - offset
  {
    hide PieceSize, PiecesFrom, Carried, CarriedAll;
    PiecesStep(data, offset, limit);
    if offset < |data| {
      var n := PieceSize(data, offset, limit);
      if offset + n <= |data| {
        PiecesCarry(data, offset + n, limit);
        assert data[offset..] == data[offset..offset + n] + data[offset + n..];
      } else {
        PiecesStep(data, offset + n, limit);
        assert data[offset..] + "" == data[offset..];
      }
    }
  }

  lemma PiecesStep(data: string, offset: nat, limit: nat)
    requires 1 <= limit < |data|
    ensures var ps := PiecesFrom(data, offset, limit);
            if offset >= |data| then ps == [] && CarriedAll(data, ps) == ""
            else
              var n := PieceSize(data, offset, limit); var rest := PiecesFrom(data, offset + n, limit);
              && ps == [Piece(offset, n)] + rest
              && CarriedAll(data, ps) ==
                 (if offset + n <= |data| then data[offset..offset + n] else data[offset..]) + CarriedAll(data, rest)
  {
    hide PieceSize;
    if offset < |data| {
      var n := PieceSize(data, offset, limit);
      var rest := PiecesFrom(data, offset + n, limit);
      assert ([Piece(offset, n)] + rest)[1..] == rest;
    }
  }

  lemma CountStep(k: nat, limit: nat, n: nat, left: int)
    requires n <= limit && k * limit >= left - n
    ensures (k + 1) * limit >= left
  {
    assert (k + 1) * limit == k * limit + limit;
  }

  lemma {:induction false} ScanFinds(data: string, pos: int, nbytes: nat)
    requires 1 <= nbytes && nbytes - 1 <= pos < |data|
    ensures var n := ScanBack(data, pos, nbytes); var p := pos - (nbytes - n);
            && (n > 1 ==> data[p] == LF)
            && (forall k :: p < k <= pos ==> data[k] != LF)
    decreases nbytes
  {
    if data[pos] != LF && nbytes > 1 {
      ScanFinds(data, pos - 1, nbytes - 1);
    }
  }

  /** A piece from a full window ends at the last newline of the window, unless
      the window has no newline after its first byte; then it is the window. */
  lemma FullWindowPiece(data: string, offset: nat, limit: nat)
    requires 1 <= limit < |data| && offset + limit <= |data|
    ensures var n := PieceSize(data, offset, limit);
            && (LF in data[offset + 1..offset + limit] ==>
                  n > 1 && data[offset + n - 1] == LF && LF !in data[offset + n..offset + limit])
            && (LF !in data[offset + 1..offset + limit] ==> n == limit)
  {
    var last := offset + limit - 1;
    ScanFinds(data, last, limit);
    var m := ScanBack(data, last, limit);
    var inside := data[offset + 1..offset + limit];
    assert forall k :: 0 <= k < |inside| ==> inside[k] == data[offset + 1 + k];
    if LF in inside {
      var k :| 0 <= k < |inside| && inside[k] == LF;
      assert data[offset + 1 + k] == LF;
    }
  }

  /** The bytes behind the last newline. */
  function BehindLast(data: string): (k: nat)
    ensures k <= |data| && forall j :: |data| - k <= j < |data| ==> data[j] != LF
    ensures k < |data| ==> data[|data| - 1 - k] == LF
  {
    if data == "" || data[|data| - 1] == LF then 0 else 1 + BehindLast(data[..|data| - 1])
  }

  /** The scan finds the last newline, but further from the end of the file than the
      part of the window that is behind the end. */
  predicate CutShort(data: string, offset: nat, limit: nat)
  {
    offset + limit - |data| < BehindLast(data) < limit - 1
  }

  /** In the last, shorter window the scan starts at the end of the file but the
      count starts at the limit, so the piece overshoots the newline found by the
      missing bytes. The piece ends in front of the end of the file if and only if it
      is cut short, and then it ends inside the last line. */
  lemma LastWindowPiece(data: string, offset: nat, limit: nat)
    requires 1 <= limit < |data| && offset < |data| < offset + limit
    ensures var n := PieceSize(data, offset, limit);
            && (offset + n < |data| <==> CutShort(data, offset, limit))
            && (CutShort(data, offset, limit) ==> n == limit - BehindLast(data) && data[offset + n - 1] != LF)
  {
    hide BehindLast;
    ScanFinds(data, |data| - 1, limit);
    var k, m := BehindLast(data), ScanBack(data, |data| - 1, limit);
    if k < limit - 1 {
      assert data[|data| - 1 - k] == LF;
      assert limit - m == k;
    } else {
      assert m == 1 || limit - m >= k;
    }
  }

  /** Where a piece may end: at the end of the file, or behind a newline. */
  predicate EndsWell(data: string, offset: nat, n: nat)
    requires n > 0
  {
    offset + n >= |data| || data[offset + n - 1] == LF
  }

  /** A piece does not cut a line if and only if its window, when full, has a newline
      behind its first byte or ends at a line's end or the file's, and, when it is the
      last one, is not cut short. */
  lemma EndsWellIff(data: string, offset: nat, limit: nat)
    requires 1 <= limit < |data| && offset < |data|
    ensures EndsWell(data, offset, PieceSize(data, offset, limit)) <==>
            if offset + limit <= |data|
            then LF in data[offset + 1..offset + limit] || data[offset + limit - 1] == LF || offset + limit == |data|
            else !CutShort(data, offset, limit)
  {
    hide PieceSize, CutShort;
    if offset + limit <= |data| {
      FullWindowPiece(data, offset, limit);
    } else {
      LastWindowPiece(data, offset, limit);
    }
  }

  /** A file whose last piece but one ends in the middle of a line. */
  lemma LastWindowCutsLine()
    ensures var data := "abcd\nx\nyz";
            var ps := PiecesFrom(data, 0, 5);
            && ps == [Piece(0, 5), Piece(5, 3), Piece(8, 3)]
            && data[7] != LF
  {
    var data := "abcd\nx\nyz";
    assert ScanBack(data, 4, 5) == 5;
    assert ScanBack(data, 8, 5) == 3;
  }
}
