/** The piece manager object (internal/download/manager.go). Each lock-protected
    section is one method, specified by the critical-section functions of Protocol. */
module Manager {
  import opened ByteStrings
  import opened Storage
  import opened Pieces
  import Protocol

  /** A broadcast channel: waiters are woken by closing it, and closing it twice panics.
      The channels of a manager are numbered in the order of their use. */
  class Channel {
    ghost const number: nat
    var closed: bool

    constructor (ghost number: nat)
      ensures !closed && this.number == number
    {
      this.number, closed := number, false;
    }

    method Close()
      requires !closed
      modifies this
      ensures closed
    {
      closed := true;
    }
  }

  /** Everybody who waited has been woken once, and new waiters get the next channel. */
  ghost predicate Notified(was: Channel, now: Channel)
    reads was
  {
    was.closed && now.number == was.number + 1
  }

  datatype ManagedPiece = ManagedPiece(piece: Piece, state: PieceState)

  function States(pieces: seq<ManagedPiece>): (r: seq<PieceState>)
    ensures |r| == |pieces|
    ensures forall i :: 0 <= i < |r| ==> r[i] == pieces[i].state
  {
    seq(|pieces|, i requires 0 <= i < |pieces| => pieces[i].state)
  }

  function Hashes(pieces: seq<ManagedPiece>): (r: seq<Bytes>)
    ensures |r| == |pieces|
    ensures forall i :: 0 <= i < |r| ==> r[i] == pieces[i].piece.hash
  {
    seq(|pieces|, i requires 0 <= i < |pieces| => pieces[i].piece.hash)
  }

  predicate WellCut(pieces: seq<ManagedPiece>, total: nat, pieceLength: nat) {
    && pieceLength > 0 && |pieces| == PieceCount(total, pieceLength)
    && forall i :: 0 <= i < |pieces| ==>
         pieces[i].piece.index == i && pieces[i].piece.length == LengthOf(total, pieceLength, |pieces|, i)
  }

  ghost predicate ReadsServed(c: Protocol.Config, closed: bool, io: seq<seq<IoOutcome>>, n: nat)
    requires n <= |io|
  {
    forall i :: 0 <= i < n ==> !closed && Protocol.ReadServed(c, i, io[i])
  }

  /** The first n pieces are Complete exactly if they verify; the others are Missing. */
  ghost predicate RestoredUpTo(c: Protocol.Config, disk: Disk, states: seq<PieceState>, n: nat)
    requires c.Valid() && Laid(c.spans, disk)
  {
    && |states| == |c.hashes|
    && forall i :: 0 <= i < |states| ==>
         states[i] == if i < n && Protocol.Verified(c, disk, i) then Complete else Missing
  }

  lemma RestoredOneMore(c: Protocol.Config, disk: Disk, states: seq<PieceState>, n: nat)
    requires c.Valid() && Laid(c.spans, disk) && n < |states| && RestoredUpTo(c, disk, states, n)
    ensures RestoredUpTo(c, disk, if Protocol.Verified(c, disk, n) then states[n := Complete] else states, n + 1)
  {
  }

  lemma RestoredAll(c: Protocol.Config, disk: Disk, states: seq<PieceState>)
    requires c.Valid() && Laid(c.spans, disk) && RestoredUpTo(c, disk, states, |states|)
    ensures states == Protocol.Restored(c, disk)
  {
  }

  lemma IndexFits(i: nat, pieceLength: nat, total: nat)
    requires pieceLength > 0 && i * pieceLength <= total
    ensures i <= total
  {
    MulMonotone(i + 1, 1, pieceLength);
  }

  class PieceManager {
    var pieces: seq<ManagedPiece>
    var updates: Channel
    const storage: Store
    const standardPieceLength: nat
    const sha1: Bytes -> Bytes

    ghost predicate Valid()
      reads this, storage, updates
    {
      && storage.Valid() && WellCut(pieces, storage.total, standardPieceLength) && !updates.closed
      && storage.total <= MAX_INT64 && standardPieceLength <= MAX_INT64
    }

    /** The fixed part of the protocol state this manager takes part in. */
    ghost function Config(): Protocol.Config
      reads this, storage
    {
      Protocol.Config(storage.files, storage.total, standardPieceLength, Hashes(pieces), sha1)
    }

    constructor (hashes: seq<Bytes>, pieceLength: nat, storage: Store, sha1: Bytes -> Bytes)
      requires storage.Valid() && storage.total <= MAX_INT64 && 0 < pieceLength <= MAX_INT64
      requires |hashes| == PieceCount(storage.total, pieceLength)
      ensures Valid() && fresh(updates) && updates.number == 0 && this.storage == storage
      ensures standardPieceLength == pieceLength && this.sha1 == sha1
      ensures Hashes(pieces) == hashes
      ensures States(pieces) == seq(|hashes|, _ => Missing)
    {
      var cut: seq<ManagedPiece> := [];
      for i := 0 to |hashes|
        invariant |cut| == i
        invariant forall j :: 0 <= j < i ==>
          cut[j] == ManagedPiece(Piece(j, hashes[j], LengthOf(storage.total, pieceLength, |hashes|, j)), Missing)
      {
        var length := pieceLength;
        if i == |hashes| - 1 {
          length := storage.total - i * pieceLength;
          PieceExtent(storage.total, pieceLength, i);
        }
        cut := cut + [ManagedPiece(Piece(i, hashes[i], length), Missing)];
      }
      pieces := cut;
      this.storage, standardPieceLength, this.sha1 := storage, pieceLength, sha1;
      updates := new Channel(0);
    }

    method NotifyLocked()
      requires !updates.closed
      modifies this`updates, updates
      ensures Notified(old(updates), updates) && fresh(updates) && !updates.closed
    {
      updates.Close();
      updates := new Channel(updates.number + 1);
    }

    /** Sets one state; used inside the critical sections. */
    method SetState(i: nat, state: PieceState)
      requires Valid() && i < |pieces|
      modifies this`pieces
      ensures Valid() && Config() == old(Config()) && States(pieces) == old(States(pieces))[i := state]
    {
      pieces := pieces[i := pieces[i].(state := state)];
      assert Hashes(pieces) == old(Hashes(pieces));
    }

    /** Re-reads one piece and marks it complete if its bytes hash to the expected value. */
    method RestorePiece(i: nat, io: seq<IoOutcome>) returns (ok: bool)
      requires Valid() && Config().Valid() && i < |pieces| && |io| == |storage.files|
      modifies this`pieces, this`updates, updates
      ensures Valid() && Config() == old(Config())
      ensures ok <==> !storage.closed && Protocol.ReadServed(Config(), i, io)
      ensures if ok && Protocol.Verified(Config(), storage.disk, i)
              then Notified(old(updates), updates) && fresh(updates) else updates == old(updates)
      ensures States(pieces) == if ok && Protocol.Verified(Config(), storage.disk, i)
                                then old(States(pieces))[i := Complete] else old(States(pieces))
    {
      var piece := pieces[i].piece;
      PieceExtent(storage.total, standardPieceLength, i);
      var data := new Byte[piece.length];
      var error := storage.ReadAt(data, piece.index * standardPieceLength, io);
      if error.Some? {
        return false;
      }
      assert data[..] == Protocol.Slice(Config(), storage.disk, i);
      if sha1(data[..]) == piece.hash {
        SetState(i, Complete);
        NotifyLocked();
      }
      ok := true;
    }

    /** Marks complete exactly the pieces whose bytes on the disk verify. Called on a
        fresh manager; io[i] is what the system does for the read of piece i. */
    method RestoreExisting(io: seq<seq<IoOutcome>>) returns (ok: bool)
      requires Valid() && Config().Valid() && States(pieces) == seq(|pieces|, _ => Missing)
      requires |io| == |pieces| && forall i :: 0 <= i < |io| ==> |io[i]| == |storage.files|
      modifies this`pieces, this`updates, updates
      ensures Valid() && Config() == old(Config())
      ensures ok <==> ReadsServed(Config(), storage.closed, io, |io|)
      ensures ok ==> States(pieces) == Protocol.Restored(Config(), storage.disk)
    {
      ghost var c := Config();
      for i := 0 to |pieces|
        invariant Valid() && Config() == c && |pieces| == |io|
        invariant updates == old(updates) || fresh(updates)
        invariant ReadsServed(c, storage.closed, io, i)
        invariant RestoredUpTo(c, storage.disk, States(pieces), i)
      {
        RestoredOneMore(c, storage.disk, States(pieces), i);
        var read := RestorePiece(i, io[i]);
        if !read {
          return false;
        }
      }
      RestoredAll(c, storage.disk, States(pieces));
      ok := true;
    }

    /** Reserves the first missing piece the peer advertises. */
    method NextPieceForPeer(bitfield: seq<bool>) returns (r: Option<Piece>)
      requires Valid()
      modifies this`pieces
      ensures Valid() && Config() == old(Config())
      ensures States(pieces) == Protocol.Reserved(old(States(pieces)), bitfield)
      ensures var pick := Protocol.FirstAvailable(old(States(pieces)), bitfield, 0);
        r == if pick.Some? then Some(pieces[pick.value].piece) else None
    {
      var i := 0;
      while i < |pieces|
        invariant i <= |pieces| && pieces == old(pieces)
        invariant Protocol.FirstAvailable(States(pieces), bitfield, 0)
             == Protocol.FirstAvailable(States(pieces), bitfield, i)
      {
        var piece := pieces[i];
        if piece.state != Missing || piece.piece.index >= |bitfield| || !bitfield[piece.piece.index] {
          i := i + 1;
          continue;
        }
        SetState(i, Downloading);
        return Some(piece.piece);
      }
      r := None;
    }

    /** The first critical section of CompletePiece. */
    method BeginComplete(index: int) returns (ok: bool)
      requires Valid()
      modifies this`pieces
      ensures Valid() && Config() == old(Config())
      ensures ok <==> Protocol.IsState(old(States(pieces)), index, Downloading)
      ensures States(pieces) == if ok then old(States(pieces))[index := Verifying] else old(States(pieces))
    {
      if index < 0 || index >= |pieces| {
        return false;
      }
      if pieces[index].state != Downloading {
        return false;
      }
      SetState(index, Verifying);
      ok := true;
    }

    /** The last critical section of a successful CompletePiece. */
    method Publish(index: nat)
      requires Valid() && index < |pieces|
      modifies this`pieces, this`updates, updates
      ensures Valid() && Config() == old(Config())
      ensures States(pieces) == old(States(pieces))[index := Complete]
      ensures Notified(old(updates), updates) && fresh(updates)
    {
      SetState(index, Complete);
      NotifyLocked();
    }

    method ResetAfterFailure(index: int)
      requires Valid()
      modifies this`pieces, this`updates, updates
      ensures Valid() && Config() == old(Config())
      ensures var reset := 0 <= index < |old(pieces)| && old(States(pieces))[index] != Complete;
        && States(pieces) == (if reset then old(States(pieces))[index := Missing] else old(States(pieces)))
        && (if reset then Notified(old(updates), updates) && fresh(updates) else updates == old(updates))
    {
      if index >= 0 && index < |pieces| && pieces[index].state != Complete {
        SetState(index, Missing);
        NotifyLocked();
      }
    }

    /** What a call does between its critical sections, holding no lock: length, hash, write. */
    method VerifyAndWrite(index: nat, data: Bytes, io: seq<IoOutcome>) returns (ghost written: nat, ok: bool)
      requires Valid() && Config().Valid() && index < |pieces| && |io| == |storage.files|
      modifies storage`disk
      ensures Valid()
      ensures ok == Protocol.Storable(Config(), storage.closed, index, data, io)
      ensures storage.disk == Protocol.DiskAfter(Config(), storage.closed, old(storage.disk), index, data, io)
      ensures if !Protocol.Matches(Config(), index, data) || storage.closed then storage.disk == old(storage.disk)
              else WrittenSoFar(storage.files, storage.total, old(storage.disk), storage.disk,
                                data, Config().Offset(index), written)
      ensures ok ==> written == |data|
    {
      written := 0;
      var expected := pieces[index].piece;
      PieceExtent(storage.total, standardPieceLength, index);
      if |data| != expected.length {
        return written, false;
      }
      if sha1(data) != expected.hash {
        return written, false;
      }
      IndexFits(index, standardPieceLength, storage.total);
      var error;
      written, error := storage.WritePiece(index, standardPieceLength, data, io);
      ok := error.None?;
    }

    /** One undisturbed call: its critical sections, and the check and the write between
        them. Interleavings of many calls are the subject of Protocol. */
    method CompletePiece(index: int, data: Bytes, io: seq<IoOutcome>) returns (ghost written: nat, ok: bool)
      requires Valid() && Config().Valid() && |io| == |storage.files|
      modifies this`pieces, this`updates, updates, storage`disk
      ensures Valid() && Config() == old(Config())
      ensures if Protocol.IsState(old(States(pieces)), index, Downloading)
              then Notified(old(updates), updates) && fresh(updates) else updates == old(updates)
      ensures var reserved := Protocol.IsState(old(States(pieces)), index, Downloading);
        && (!reserved ==> !ok && States(pieces) == old(States(pieces)) && storage.disk == old(storage.disk))
        && (reserved ==>
              && States(pieces) == old(States(pieces))[index := if ok then Complete else Missing]
              && ok == Protocol.Storable(Config(), storage.closed, index, data, io)
              && storage.disk == Protocol.DiskAfter(Config(), storage.closed, old(storage.disk), index, data, io)
              && (if !Protocol.Matches(Config(), index, data) || storage.closed then storage.disk == old(storage.disk)
                  else WrittenSoFar(storage.files, storage.total, old(storage.disk), storage.disk,
                                    data, Config().Offset(index), written))
              && (ok ==> written == |data|))
    {
      written := 0;
      var reserved := BeginComplete(index);
      if !reserved {
        return written, false;
      }
      written, ok := VerifyAndWrite(index, data, io);
      if ok {
        Publish(index);
      } else {
        ResetAfterFailure(index);
      }
    }

    /** Releases a reserved piece; complete or persisting pieces are not touched by a stale worker. */
    method MarkFailed(index: int)
      requires Valid()
      modifies this`pieces, this`updates, updates
      ensures Valid() && Config() == old(Config())
      ensures var held := Protocol.IsState(old(States(pieces)), index, Downloading);
        && States(pieces) == (if held then old(States(pieces))[index := Missing] else old(States(pieces)))
        && (if held then Notified(old(updates), updates) && fresh(updates) else updates == old(updates))
    {
      if index < 0 || index >= |pieces| || pieces[index].state != Downloading {
        return;
      }
      SetState(index, Missing);
      NotifyLocked();
    }

    method IsComplete() returns (r: bool)
      ensures r <==> AllComplete(States(pieces))
    {
      for i := 0 to |pieces|
        invariant forall j :: 0 <= j < i ==> pieces[j].state == Complete
      {
        if pieces[i].state != Complete {
          assert States(pieces)[i] != Complete;
          return false;
        }
      }
      r := true;
    }

    /** Never more than the torrent's length, and equal to it exactly when every piece is complete. */
    method CompletedBytes() returns (bytes: int)
      requires Valid()
      ensures bytes == CompletedLength(States(pieces), storage.total, standardPieceLength, |pieces|)
      ensures 0 <= bytes <= storage.total && (bytes == storage.total <==> AllComplete(States(pieces)))
    {
      bytes := 0;
      for i := 0 to |pieces|
        invariant bytes == CompletedLength(States(pieces), storage.total, standardPieceLength, i)
      {
        if pieces[i].state == Complete {
          bytes := bytes + pieces[i].piece.length;
        }
      }
      LeftIsExact(States(pieces), storage.total, standardPieceLength);
    }

    method Finalize(destination: Lookup, io: seq<SyncOutcome>, renamed: bool) returns (ok: bool)
      requires Valid() && |io| == |storage.files|
      modifies storage`closed, storage`completed
      ensures Valid()
      ensures ok <==>
        AllComplete(States(pieces)) && !old(storage.closed) && destination.Absent? && AllSynced(io, |io|) && renamed
      ensures ok ==> storage.completed && storage.closed
      ensures !ok ==> storage.completed == old(storage.completed) && storage.closed == old(storage.closed)
    {
      var complete := IsComplete();
      if !complete {
        return false;
      }
      ok := storage.Complete(destination, io, renamed);
    }
  }
}
