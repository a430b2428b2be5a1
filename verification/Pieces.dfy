/** How a torrent's content is cut into pieces (internal/torrent/metadata.go,
    internal/download/manager.go, internal/download/piece.go). */
module Pieces {
  import opened ByteStrings

  datatype PieceState = Missing | Downloading | Verifying | Complete

  datatype Piece = Piece(index: nat, hash: Bytes, length: int)

  function PieceCount(length: nat, pieceLength: nat): nat
    requires pieceLength > 0
  {
    if length == 0 then 0
    else length / pieceLength + (if length % pieceLength != 0 then 1 else 0)
  }

  /** The length NewPieceManager gives piece i: only the last one may be short. */
  function LengthOf(length: nat, pieceLength: nat, count: nat, i: nat): int {
    if i + 1 == count then length - i * pieceLength else pieceLength
  }

  function OffsetOf(pieceLength: nat, i: nat): nat {
    i * pieceLength
  }

  /** Every piece is non-empty and no longer than the standard length, and each
      begins where the one before it ends, up to the end of the content. */
  lemma PieceExtent(length: nat, pieceLength: nat, i: nat)
    requires pieceLength > 0 && i < PieceCount(length, pieceLength)
    ensures var count := PieceCount(length, pieceLength);
      var size := LengthOf(length, pieceLength, count, i);
      && 0 < size <= pieceLength
      && OffsetOf(pieceLength, i) + size == (if i + 1 == count then length else OffsetOf(pieceLength, i + 1))
      && OffsetOf(pieceLength, i) + size <= length
  {
    var count := PieceCount(length, pieceLength);
    DivideLow(length, pieceLength);
    var whole := length / pieceLength;
    assert length == whole * pieceLength + length % pieceLength;
    if i + 1 < count {
      assert i + 1 <= whole;
      MulMonotone(pieceLength, i + 1, whole);
    } else if length % pieceLength == 0 {
      assert i == whole - 1;
      assert (whole - 1) * pieceLength == whole * pieceLength - pieceLength;
    }
  }

  lemma PiecesAreOrdered(length: nat, pieceLength: nat, i: nat, j: nat)
    requires pieceLength > 0 && i < j < PieceCount(length, pieceLength)
    ensures var count := PieceCount(length, pieceLength);
      OffsetOf(pieceLength, i) + LengthOf(length, pieceLength, count, i) <= OffsetOf(pieceLength, j)
  {
    PieceExtent(length, pieceLength, i);
    MulMonotone(pieceLength, i + 1, j);
  }

  predicate InPiece(length: nat, pieceLength: nat, i: nat, position: nat)
    requires pieceLength > 0
  {
    var from, count := OffsetOf(pieceLength, i), PieceCount(length, pieceLength);
    from <= position < from + LengthOf(length, pieceLength, count, i)
  }

  lemma OnlyOnePiece(length: nat, pieceLength: nat, position: nat, i: nat, j: nat)
    requires pieceLength > 0 && i < PieceCount(length, pieceLength) && j < PieceCount(length, pieceLength)
    requires InPiece(length, pieceLength, i, position) && InPiece(length, pieceLength, j, position)
    ensures i == j
  {
    if i < j {
      PiecesAreOrdered(length, pieceLength, i, j);
    } else if j < i {
      PiecesAreOrdered(length, pieceLength, j, i);
    }
  }

  lemma PieceOfByte(length: nat, pieceLength: nat, position: nat)
    requires pieceLength > 0 && position < length
    ensures 0 <= position / pieceLength < PieceCount(length, pieceLength)
    ensures InPiece(length, pieceLength, position / pieceLength, position)
  {
    var count, i := PieceCount(length, pieceLength), position / pieceLength;
    DivideLow(position, pieceLength);
    DivideLow(length, pieceLength);
    MulMonotone(pieceLength, length / pieceLength + 1, i);
    MulMonotone(pieceLength, count, i);
    PieceExtent(length, pieceLength, i);
  }

  /** The pieces partition the content: each byte lies in exactly one of them. */
  lemma EveryByteHasOnePiece(length: nat, pieceLength: nat, position: nat)
    requires pieceLength > 0 && position < length
    ensures exists i: nat :: i < PieceCount(length, pieceLength) && InPiece(length, pieceLength, i, position)
    ensures forall i: nat, j: nat | i < PieceCount(length, pieceLength) && j < PieceCount(length, pieceLength)
      && InPiece(length, pieceLength, i, position) && InPiece(length, pieceLength, j, position) :: i == j
  {
    PieceOfByte(length, pieceLength, position);
    forall i: nat, j: nat | i < PieceCount(length, pieceLength) && j < PieceCount(length, pieceLength)
      && InPiece(length, pieceLength, i, position) && InPiece(length, pieceLength, j, position)
      ensures i == j
    {
      OnlyOnePiece(length, pieceLength, position, i, j);
    }
  }

  /** The bytes of the pieces in state Complete among the first n. */
  function CompletedLength(states: seq<PieceState>, length: nat, pieceLength: nat, n: nat): int
    requires n <= |states|
  {
    if n == 0 then 0
    else CompletedLength(states, length, pieceLength, n - 1)
         + if states[n - 1] == Complete then LengthOf(length, pieceLength, |states|, n - 1) else 0
  }

  predicate AllComplete(states: seq<PieceState>) {
    forall i :: 0 <= i < |states| ==> states[i] == Complete
  }

  lemma {:induction false} CompletedLengthBound(states: seq<PieceState>, length: nat, pieceLength: nat, n: nat)
    requires pieceLength > 0 && |states| == PieceCount(length, pieceLength) && n <= |states|
    ensures var end := if n == |states| then length else OffsetOf(pieceLength, n);
      && 0 <= CompletedLength(states, length, pieceLength, n) <= end
      && (CompletedLength(states, length, pieceLength, n) == end <==> forall i :: 0 <= i < n ==> states[i] == Complete)
  {
    if n > 0 {
      CompletedLengthBound(states, length, pieceLength, n - 1);
      PieceExtent(length, pieceLength, n - 1);
      assert (forall i :: 0 <= i < n ==> states[i] == Complete)
        <==> states[n - 1] == Complete && forall i :: 0 <= i < n - 1 ==> states[i] == Complete;
    }
  }

  /** What is reported to the tracker as left is never negative, and zero exactly
      when the torrent is complete. */
  lemma LeftIsExact(states: seq<PieceState>, length: nat, pieceLength: nat)
    requires pieceLength > 0 && |states| == PieceCount(length, pieceLength)
    ensures var left := length - CompletedLength(states, length, pieceLength, |states|);
      0 <= left <= length && (left == 0 <==> AllComplete(states))
  {
    CompletedLengthBound(states, length, pieceLength, |states|);
  }
}
