/** The piece ownership protocol: any number of callers of the piece manager,
    interleaved at every lock-protected section and every single-file write
    (internal/download/manager.go, internal/storage/storage.go). */
module Protocol {
  import opened ByteStrings
  import opened Storage
  import opened Pieces

  /** What is fixed for one download. SHA-1 is an arbitrary function of byte strings. */
  datatype Config = Config(spans: seq<Span>, total: nat, pieceLength: nat, hashes: seq<Bytes>, sha1: Bytes -> Bytes) {
    predicate Valid() {
      && Tiled(spans, 0, total) && DistinctPaths(spans)
      && pieceLength > 0 && |hashes| == PieceCount(total, pieceLength)
    }

    function Offset(i: nat): nat {
      OffsetOf(pieceLength, i)
    }

    function Size(i: nat): int {
      LengthOf(total, pieceLength, |hashes|, i)
    }
  }

  /** Where a CompletePiece call is after its first critical section. */
  datatype Phase =
    | Checking                              // about to check length and hash
    | Opening                               // in WritePiece, before the storage lock
    | Writing(next: nat, written: nat)      // holding the storage read lock, about to visit file `next`
    | Written                               // about to publish
    | Failed                                // about to reset the piece

  datatype Call = Call(index: nat, data: Bytes, phase: Phase)

  datatype State = State(
    pieces: seq<PieceState>,
    calls: map<nat, Call>,        // CompletePiece calls in flight, by caller
    disk: Disk,
    updates: nat,                 // the current broadcast channel
    closedUpdates: set<nat>,
    observed: bool,               // some Finalize call has seen IsComplete
    closed: bool,
    completed: bool               // the storage has been renamed to its completed path
  )

  datatype Step =
    | Reserve(bitfield: seq<bool>)
    | Begin(caller: nat, index: int, data: Bytes)
    | Check(caller: nat)
    | StartWrite(caller: nat)
    | WriteOneFile(caller: nat, io: IoOutcome)
    | EndWrite(caller: nat)
    | Publish(caller: nat)
    | Reset(caller: nat)
    | MarkFailed(index: int)
    | ObserveComplete
    | CompleteStorage(renamed: bool)
    | CloseStorage

  // ----- The critical sections of the manager -----

  predicate Available(pieces: seq<PieceState>, bitfield: seq<bool>, i: nat) {
    i < |pieces| && pieces[i] == Missing && i < |bitfield| && bitfield[i]
  }

  function FirstAvailable(pieces: seq<PieceState>, bitfield: seq<bool>, from: nat): (r: Option<nat>)
    requires from <= |pieces|
    ensures r.Some? ==> from <= r.value && Available(pieces, bitfield, r.value)
    ensures forall i :: from <= i < (if r.Some? then r.value else |pieces|) ==> !Available(pieces, bitfield, i)
    decreases |pieces| - from
  {
    if from == |pieces| then None
    else if Available(pieces, bitfield, from) then Some(from)
    else FirstAvailable(pieces, bitfield, from + 1)
  }

  function Reserved(pieces: seq<PieceState>, bitfield: seq<bool>): seq<PieceState> {
    var pick := FirstAvailable(pieces, bitfield, 0);
    if pick.Some? then pieces[pick.value := Downloading] else pieces
  }

  /** The piece the manager hands out. */
  function PieceAt(c: Config, i: nat): Piece
    requires i < |c.hashes|
  {
    Piece(i, c.hashes[i], c.Size(i))
  }

  predicate IsState(pieces: seq<PieceState>, index: int, state: PieceState) {
    0 <= index < |pieces| && pieces[index] == state
  }

  function Notify(s: State): State {
    s.(closedUpdates := s.closedUpdates + {s.updates}, updates := s.updates + 1)
  }

  // ----- The transition function: a step that is not enabled changes nothing -----

  predicate InPhase(s: State, caller: nat, phase: Phase) {
    caller in s.calls && s.calls[caller].phase == phase
  }

  predicate IsWriting(s: State, caller: nat) {
    caller in s.calls && s.calls[caller].phase.Writing?
  }

  predicate NoWriter(s: State) {
    forall caller :: caller in s.calls ==> !s.calls[caller].phase.Writing?
  }

  function MoveTo(s: State, caller: nat, phase: Phase): State
    requires caller in s.calls
  {
    s.(calls := s.calls[caller := s.calls[caller].(phase := phase)])
  }

  function Leave(s: State, caller: nat, state: PieceState): State
    requires caller in s.calls && s.calls[caller].index < |s.pieces|
  {
    Notify(s.(pieces := s.pieces[s.calls[caller].index := state], calls := s.calls - {caller}))
  }

  /** The data has the length and the hash of piece i. */
  predicate Matches(c: Config, i: nat, data: Bytes) {
    |data| == c.Size(i) && i < |c.hashes| && c.sha1(data) == c.hashes[i]
  }

  function Checked(c: Config, call: Call): Phase {
    if Matches(c, call.index, call.data) then Opening else Failed
  }

  function Apply(c: Config, s: State, step: Step): State
    requires Laid(c.spans, s.disk)
  {
    match step
    case Reserve(bitfield) => s.(pieces := Reserved(s.pieces, bitfield))
    case Begin(caller, index, data) =>
      if caller !in s.calls && IsState(s.pieces, index, Downloading)
      then s.(pieces := s.pieces[index := Verifying], calls := s.calls[caller := Call(index, data, Checking)])
      else s
    case Check(caller) =>
      if InPhase(s, caller, Checking) then MoveTo(s, caller, Checked(c, s.calls[caller])) else s
    case StartWrite(caller) =>
      if !InPhase(s, caller, Opening) then s
      else if s.closed || !InRange(c.Offset(s.calls[caller].index), |s.calls[caller].data|, c.total)
      then MoveTo(s, caller, Failed)
      else MoveTo(s, caller, Writing(0, 0))
    case WriteOneFile(caller, io) =>
      if IsWriting(s, caller) && s.calls[caller].phase.next < |c.spans|
         && s.calls[caller].phase.written <= |s.calls[caller].data|
      then WriteFileStep(c, s, caller, io) else s
    case EndWrite(caller) =>
      if IsWriting(s, caller) && s.calls[caller].phase.next == |c.spans|
      then MoveTo(s, caller, if s.calls[caller].phase.written == |s.calls[caller].data| then Written else Failed)
      else s
    case Publish(caller) =>
      if InPhase(s, caller, Written) && s.calls[caller].index < |s.pieces| then Leave(s, caller, Complete) else s
    case Reset(caller) =>
      if !InPhase(s, caller, Failed) then s
      else if s.calls[caller].index < |s.pieces| && s.pieces[s.calls[caller].index] != Complete
      then Leave(s, caller, Missing)
      else s.(calls := s.calls - {caller})
    case MarkFailed(index) =>
      if IsState(s.pieces, index, Downloading) then Notify(s.(pieces := s.pieces[index := Missing])) else s
    case ObserveComplete => s.(observed := s.observed || AllComplete(s.pieces))
    case CompleteStorage(renamed) =>
      if s.observed && NoWriter(s) && !s.closed && renamed then s.(closed := true, completed := true) else s
    case CloseStorage =>
      if NoWriter(s) then s.(closed := true) else s
  }

  function WriteFileStep(c: Config, s: State, caller: nat, io: IoOutcome): State
    requires Laid(c.spans, s.disk) && IsWriting(s, caller)
    requires s.calls[caller].phase.next < |c.spans| && s.calls[caller].phase.written <= |s.calls[caller].data|
  {
    var call := s.calls[caller];
    var k := call.phase.next;
    var p := WriteSpan(c.spans[k], s.disk, call.data, c.Offset(call.index), call.phase.written, io);
    MoveTo(s.(disk := p.disk), caller, AfterVisit(p, k))
  }

  /** The phase of a call that has visited file k. */
  function AfterVisit(p: Progress, k: nat): Phase {
    if p.error.Some? then Failed else Writing(k + 1, p.written)
  }

  // ----- The invariant -----

  function Slice(c: Config, disk: Disk, i: nat): (r: Bytes)
    requires c.Valid() && Laid(c.spans, disk) && i < |c.hashes|
    ensures |r| == c.Size(i) > 0
  {
    FlatLength(c.spans, 0, c.total, disk);
    PieceExtent(c.total, c.pieceLength, i);
    Flat(c.spans, disk)[c.Offset(i)..c.Offset(i) + c.Size(i)]
  }

  predicate Verified(c: Config, disk: Disk, i: nat)
    requires c.Valid() && Laid(c.spans, disk) && i < |c.hashes|
  {
    c.sha1(Slice(c, disk, i)) == c.hashes[i]
  }

  ghost predicate Shape(c: Config, s: State) {
    c.Valid() && Laid(c.spans, s.disk) && |s.pieces| == |c.hashes|
  }

  /** Verifying pieces and calls in flight are in bijection. */
  ghost predicate Ownership(s: State) {
    && (forall a :: a in s.calls ==> IsState(s.pieces, s.calls[a].index, Verifying))
    && (forall a, b :: a in s.calls && b in s.calls && s.calls[a].index == s.calls[b].index ==> a == b)
    && (forall i :: IsState(s.pieces, i, Verifying) ==> exists a :: a in s.calls && s.calls[a].index == i)
  }

  /** A call past its hash check carries verified data, of which the disk holds what has been written. */
  ghost predicate CallOk(c: Config, disk: Disk, call: Call)
    requires c.Valid() && Laid(c.spans, disk)
  {
    (!call.phase.Checking? && !call.phase.Failed?) ==>
      && call.index < |c.hashes|
      && |call.data| == c.Size(call.index) && c.sha1(call.data) == c.hashes[call.index]
      && (call.phase.Written? ==> Slice(c, disk, call.index) == call.data)
      && (call.phase.Writing? ==>
            && call.phase.next <= |c.spans|
            && call.phase.written == Before(c.spans, c.total, call.phase.next, c.Offset(call.index), |call.data|)
            && Slice(c, disk, call.index)[..call.phase.written] == call.data[..call.phase.written])
  }

  ghost predicate Data(c: Config, s: State)
    requires Shape(c, s)
  {
    && (forall a :: a in s.calls ==> CallOk(c, s.disk, s.calls[a]))
    && (forall i :: 0 <= i < |s.pieces| && s.pieces[i] == Complete ==> Verified(c, s.disk, i))
  }

  /** Exactly the channels before the current one have been closed, each once. */
  ghost predicate Channels(s: State) {
    forall n :: n in s.closedUpdates <==> 0 <= n < s.updates
  }

  ghost predicate Closing(s: State) {
    && (s.closed ==> NoWriter(s))
    && (s.observed ==> AllComplete(s.pieces))
    && (s.completed ==> s.closed && s.observed)
  }

  ghost predicate Inv(c: Config, s: State) {
    Shape(c, s) && Ownership(s) && Data(c, s) && Channels(s) && Closing(s)
  }

  // ----- Every step keeps the invariant -----

  /** Writing one file for piece i leaves every other piece's bytes alone and
      extends the written prefix of piece i. */
  lemma WriteStaysInItsPiece(c: Config, disk: Disk, i: nat, data: Bytes, k: nat, written: nat, io: IoOutcome)
    requires c.Valid() && Laid(c.spans, disk) && i < |c.hashes| && k < |c.spans|
    requires |data| == c.Size(i) && written == Before(c.spans, c.total, k, c.Offset(i), |data|)
    requires Slice(c, disk, i)[..written] == data[..written]
    ensures var p := WriteSpan(c.spans[k], disk, data, c.Offset(i), written, io);
      && Laid(c.spans, p.disk)
      && written <= p.written <= |data|
      && Slice(c, p.disk, i)[..p.written] == data[..p.written]
      && (p.error.None? ==> p.written == Before(c.spans, c.total, k + 1, c.Offset(i), |data|))
  {
    var p := WriteSpan(c.spans[k], disk, data, c.Offset(i), written, io);
    PieceExtent(c.total, c.pieceLength, i);
    WriteSpanAdvances(c.spans, c.total, disk, k, data, c.Offset(i), written, io);
    WriteSpanOutcome(c.spans, c.total, disk, k, data, c.Offset(i), written, io);
    var now := Slice(c, p.disk, i);
    forall x | 0 <= x < p.written ensures now[x] == data[x] {
      if x < written {
        assert now[x] == Slice(c, disk, i)[x] == Slice(c, disk, i)[..written][x] == data[..written][x];
      } else {
        assert now[x] == data[written..p.written][x - written];
      }
    }
  }

  lemma WriteSparesOtherPieces(c: Config, disk: Disk, i: nat, data: Bytes, k: nat, written: nat, io: IoOutcome, j: nat)
    requires c.Valid() && Laid(c.spans, disk) && i < |c.hashes| && k < |c.spans|
    requires |data| == c.Size(i) && written == Before(c.spans, c.total, k, c.Offset(i), |data|)
    requires j < |c.hashes| && j != i
    ensures var p := WriteSpan(c.spans[k], disk, data, c.Offset(i), written, io);
      Laid(c.spans, p.disk) && Slice(c, p.disk, j) == Slice(c, disk, j)
  {
    var p := WriteSpan(c.spans[k], disk, data, c.Offset(i), written, io);
    PieceExtent(c.total, c.pieceLength, i);
    PieceExtent(c.total, c.pieceLength, j);
    WriteSpanAdvances(c.spans, c.total, disk, k, data, c.Offset(i), written, io);
    if j < i {
      PiecesAreOrdered(c.total, c.pieceLength, j, i);
    } else {
      PiecesAreOrdered(c.total, c.pieceLength, i, j);
    }
    OverlaySlice(Flat(c.spans, disk), c.Offset(i) + written, data[written..p.written],
                 c.Offset(j), c.Offset(j) + c.Size(j));
  }

  lemma ReserveKeepsInv(c: Config, s: State, bitfield: seq<bool>)
    requires Inv(c, s)
    ensures Inv(c, Apply(c, s, Reserve(bitfield)))
  {
    var pick := FirstAvailable(s.pieces, bitfield, 0);
    if pick.Some? {
      var t := Apply(c, s, Reserve(bitfield));
      forall i | IsState(t.pieces, i, Verifying) ensures exists a :: a in t.calls && t.calls[a].index == i {
        assert IsState(s.pieces, i, Verifying);
      }
    }
  }

  lemma BeginKeepsOwnership(s: State, caller: nat, index: nat, data: Bytes)
    requires Ownership(s) && caller !in s.calls && IsState(s.pieces, index, Downloading)
    ensures Ownership(s.(pieces := s.pieces[index := Verifying],
                         calls := s.calls[caller := Call(index, data, Checking)]))
  {
    var t := s.(pieces := s.pieces[index := Verifying], calls := s.calls[caller := Call(index, data, Checking)]);
    forall i | IsState(t.pieces, i, Verifying) ensures exists a :: a in t.calls && t.calls[a].index == i {
      if i == index {
        assert t.calls[caller].index == i;
      } else {
        assert IsState(s.pieces, i, Verifying);
        var a :| a in s.calls && s.calls[a].index == i;
        assert t.calls[a].index == i;
      }
    }
  }

  lemma BeginKeepsInv(c: Config, s: State, caller: nat, index: int, data: Bytes)
    requires Inv(c, s)
    ensures Inv(c, Apply(c, s, Begin(caller, index, data)))
  {
    if caller !in s.calls && IsState(s.pieces, index, Downloading) {
      BeginKeepsOwnership(s, caller, index, data);
    }
  }

  /** A step that only moves one call to another phase. */
  lemma MoveKeepsInv(c: Config, s: State, caller: nat, phase: Phase)
    requires Inv(c, s) && caller in s.calls
    requires CallOk(c, s.disk, s.calls[caller].(phase := phase))
    requires phase.Writing? ==> !s.closed
    ensures Inv(c, MoveTo(s, caller, phase))
  {
    var t := MoveTo(s, caller, phase);
    forall i | IsState(t.pieces, i, Verifying) ensures exists a :: a in t.calls && t.calls[a].index == i {
      var a :| a in s.calls && s.calls[a].index == i;
      assert t.calls[a].index == i;
    }
  }

  lemma WriteSparesOtherCalls(c: Config, s: State, caller: nat, p: Progress, a: nat)
    requires Inv(c, s) && caller in s.calls && a in s.calls && a != caller && Laid(c.spans, p.disk)
    requires forall j :: 0 <= j < |c.hashes| && j != s.calls[caller].index ==>
      Slice(c, p.disk, j) == Slice(c, s.disk, j)
    ensures CallOk(c, p.disk, s.calls[a])
  {
    assert CallOk(c, s.disk, s.calls[a]) && s.calls[a].index != s.calls[caller].index;
  }

  lemma WriteFileKeepsInv(c: Config, s: State, caller: nat, io: IoOutcome)
    requires Inv(c, s) && IsWriting(s, caller) && s.calls[caller].phase.next < |c.spans|
    ensures s.calls[caller].phase.written <= |s.calls[caller].data|
    ensures Inv(c, WriteFileStep(c, s, caller, io))
  {
    assert CallOk(c, s.disk, s.calls[caller]);
    var call := s.calls[caller];
    var k, w := call.phase.next, call.phase.written;
    var p := WriteSpan(c.spans[k], s.disk, call.data, c.Offset(call.index), w, io);
    WriteStaysInItsPiece(c, s.disk, call.index, call.data, k, w, io);
    forall j | 0 <= j < |c.hashes| && j != call.index ensures Slice(c, p.disk, j) == Slice(c, s.disk, j) {
      WriteSparesOtherPieces(c, s.disk, call.index, call.data, k, w, io, j);
    }
    forall a | a in s.calls && a != caller ensures CallOk(c, p.disk, s.calls[a]) {
      WriteSparesOtherCalls(c, s, caller, p, a);
    }
    var phase := if p.error.Some? then Failed else Writing(k + 1, p.written);
    AfterWrite(c, s, p.disk, caller, phase);
    assert WriteFileStep(c, s, caller, io) == MoveTo(s.(disk := p.disk), caller, phase);
  }

  lemma AfterWrite(c: Config, s: State, disk: Disk, caller: nat, phase: Phase)
    requires Inv(c, s) && IsWriting(s, caller) && Laid(c.spans, disk)
    requires forall a :: a in s.calls && a != caller ==> CallOk(c, disk, s.calls[a])
    requires CallOk(c, disk, s.calls[caller].(phase := phase))
    requires forall j :: 0 <= j < |c.hashes| && j != s.calls[caller].index ==> Slice(c, disk, j) == Slice(c, s.disk, j)
    ensures Inv(c, MoveTo(s.(disk := disk), caller, phase))
  {
    var t := MoveTo(s.(disk := disk), caller, phase);
    forall i | IsState(t.pieces, i, Verifying) ensures exists a :: a in t.calls && t.calls[a].index == i {
      var a :| a in s.calls && s.calls[a].index == i;
      assert t.calls[a].index == i;
    }
    forall i | 0 <= i < |t.pieces| && t.pieces[i] == Complete ensures Verified(c, disk, i) {
      assert Verified(c, s.disk, i);
    }
  }

  /** A call ends: its piece is published or reset, and waiters are woken. */
  lemma LeaveKeepsInv(c: Config, s: State, caller: nat, state: PieceState)
    requires Inv(c, s) && caller in s.calls && state in {Missing, Complete}
    requires state == Complete ==> s.calls[caller].phase == Written
    ensures s.calls[caller].index < |s.pieces|
    ensures Inv(c, Leave(s, caller, state))
  {
    var t, index := Leave(s, caller, state), s.calls[caller].index;
    assert CallOk(c, s.disk, s.calls[caller]);
    forall i | IsState(t.pieces, i, Verifying) ensures exists a :: a in t.calls && t.calls[a].index == i {
      assert IsState(s.pieces, i, Verifying);
      var a :| a in s.calls && s.calls[a].index == i;
      assert a != caller && a in t.calls && t.calls[a].index == i;
    }
    assert t.updates == s.updates + 1;
  }

  lemma CheckKeepsInv(c: Config, s: State, caller: nat)
    requires Inv(c, s)
    ensures Inv(c, Apply(c, s, Check(caller)))
  {
    if InPhase(s, caller, Checking) {
      MoveKeepsInv(c, s, caller, Checked(c, s.calls[caller]));
    }
  }

  lemma StartWriteKeepsInv(c: Config, s: State, caller: nat)
    requires Inv(c, s)
    ensures Inv(c, Apply(c, s, StartWrite(caller)))
  {
    if InPhase(s, caller, Opening) {
      assert CallOk(c, s.disk, s.calls[caller]);
      ReachesFirstFile(c, s.calls[caller].index);
      MoveKeepsInv(c, s, caller, if s.closed then Failed else Writing(0, 0));
    }
  }

  /** A pass that reaches the end of the file list has written the whole piece. */
  lemma EndWriteKeepsInv(c: Config, s: State, caller: nat)
    requires Inv(c, s)
    ensures Inv(c, Apply(c, s, EndWrite(caller)))
  {
    if IsWriting(s, caller) && s.calls[caller].phase.next == |c.spans| {
      assert CallOk(c, s.disk, s.calls[caller]);
      PieceExtent(c.total, c.pieceLength, s.calls[caller].index);
      MoveKeepsInv(c, s, caller, Written);
    }
  }

  lemma CloseKeepsInv(c: Config, s: State, step: Step)
    requires Inv(c, s) && (step.ObserveComplete? || step.CompleteStorage? || step.CloseStorage?)
    ensures Inv(c, Apply(c, s, step))
  {
  }

  lemma StepKeepsInv(c: Config, s: State, step: Step)
    requires Inv(c, s)
    ensures Inv(c, Apply(c, s, step))
  {
    match step
    case Reserve(bitfield) => ReserveKeepsInv(c, s, bitfield);
    case Begin(caller, index, data) => BeginKeepsInv(c, s, caller, index, data);
    case Check(caller) => CheckKeepsInv(c, s, caller);
    case StartWrite(caller) => StartWriteKeepsInv(c, s, caller);
    case WriteOneFile(caller, io) =>
      if IsWriting(s, caller) && s.calls[caller].phase.next < |c.spans| {
        WriteFileKeepsInv(c, s, caller, io);
      }
    case EndWrite(caller) => EndWriteKeepsInv(c, s, caller);
    case Publish(caller) =>
      if InPhase(s, caller, Written) {
        LeaveKeepsInv(c, s, caller, Complete);
      }
    case Reset(caller) =>
      if InPhase(s, caller, Failed) {
        LeaveKeepsInv(c, s, caller, Missing);
      }
    case MarkFailed(index) => MarkFailedKeepsInv(c, s, index);
    case _ => CloseKeepsInv(c, s, step);
  }

  lemma ReachesFirstFile(c: Config, i: nat)
    requires c.Valid() && i < |c.hashes|
    ensures Before(c.spans, c.total, 0, c.Offset(i), c.Size(i)) == 0
    ensures InRange(c.Offset(i), c.Size(i), c.total)
  {
    PieceExtent(c.total, c.pieceLength, i);
  }

  lemma MarkFailedKeepsInv(c: Config, s: State, index: int)
    requires Inv(c, s)
    ensures Inv(c, Apply(c, s, MarkFailed(index)))
  {
    var t := Apply(c, s, MarkFailed(index));
    if t != s {
      assert t.updates == s.updates + 1;
      forall i | IsState(t.pieces, i, Verifying) ensures exists a :: a in t.calls && t.calls[a].index == i {
        assert IsState(s.pieces, i, Verifying);
      }
    }
  }

  // ----- One whole call -----

  /** The system serves every file that the bytes of piece i lie in. */
  predicate ReadServed(c: Config, i: nat, io: seq<IoOutcome>) {
    c.Size(i) >= 0 && |io| == |c.spans| && AllServed(c.spans, |c.spans|, c.Offset(i), c.Size(i), io)
  }

  /** An undisturbed CompletePiece for reserved piece i succeeds. */
  predicate Storable(c: Config, closed: bool, i: nat, data: Bytes, io: seq<IoOutcome>) {
    Matches(c, i, data) && !closed && ReadServed(c, i, io)
  }

  /** The disk after it, whether it succeeds or not. */
  function DiskAfter(c: Config, closed: bool, disk: Disk, i: nat, data: Bytes, io: seq<IoOutcome>): Disk
    requires c.Valid() && Laid(c.spans, disk) && |io| == |c.spans|
  {
    if Matches(c, i, data) && !closed then Pass(c.spans, c.total, disk, data, c.Offset(i), 0, 0, io).disk else disk
  }

  /** What the pass makes of the content, for data that fits piece i. */
  lemma DiskAfterIsOverlay(c: Config, closed: bool, disk: Disk, i: nat, data: Bytes, io: seq<IoOutcome>)
    returns (n: nat)
    requires c.Valid() && Laid(c.spans, disk) && |io| == |c.spans| && Matches(c, i, data) && !closed
    ensures var now := DiskAfter(c, closed, disk, i, data, io);
      && n <= |data| && (ReadServed(c, i, io) ==> n == |data|)
      && WrittenSoFar(c.spans, c.total, disk, now, data, c.Offset(i), n)
  {
    PieceExtent(c.total, c.pieceLength, i);
    NothingWritten(c.spans, c.total, disk, data, c.Offset(i));
    PassWrites(c.spans, c.total, disk, disk, data, c.Offset(i), 0, 0, io);
    n := Pass(c.spans, c.total, disk, data, c.Offset(i), 0, 0, io).written;
  }

  /** It holds the data of a stored piece. */
  lemma DiskAfterHoldsData(c: Config, disk: Disk, i: nat, data: Bytes, io: seq<IoOutcome>)
    requires c.Valid() && Laid(c.spans, disk) && |io| == |c.spans| && Storable(c, false, i, data, io)
    ensures Laid(c.spans, DiskAfter(c, false, disk, i, data, io))
    ensures Slice(c, DiskAfter(c, false, disk, i, data, io), i) == data
  {
    var n := DiskAfterIsOverlay(c, false, disk, i, data, io);
    PieceExtent(c.total, c.pieceLength, i);
    OverlayParts(Flat(c.spans, disk), c.Offset(i), data, c.Offset(i), c.Offset(i) + c.Size(i));
    assert data[..|data|] == data;
  }

  /** The bytes of every other piece are the old ones. */
  lemma DiskAfterSparesOthers(c: Config, closed: bool, disk: Disk, i: nat, data: Bytes, io: seq<IoOutcome>, j: nat)
    requires c.Valid() && Laid(c.spans, disk) && |io| == |c.spans| && i < |c.hashes| && j < |c.hashes| && j != i
    ensures Laid(c.spans, DiskAfter(c, closed, disk, i, data, io))
    ensures Slice(c, DiskAfter(c, closed, disk, i, data, io), j) == Slice(c, disk, j)
  {
    if Matches(c, i, data) && !closed {
      var n := DiskAfterIsOverlay(c, closed, disk, i, data, io);
      Apart(c, i, j);
      PieceExtent(c.total, c.pieceLength, j);
      OverlayParts(Flat(c.spans, disk), c.Offset(i), data[..n], c.Offset(j), c.Offset(j) + c.Size(j));
    }
  }

  lemma Apart(c: Config, i: nat, j: nat)
    requires c.Valid() && i < |c.hashes| && j < |c.hashes| && i != j
    ensures c.Offset(i) + c.Size(i) <= c.Offset(j) || c.Offset(j) + c.Size(j) <= c.Offset(i)
  {
    if i < j {
      PiecesAreOrdered(c.total, c.pieceLength, i, j);
    } else {
      PiecesAreOrdered(c.total, c.pieceLength, j, i);
    }
  }

  /** Both at once. */
  lemma DiskAfterIsLocal(c: Config, closed: bool, disk: Disk, i: nat, data: Bytes, io: seq<IoOutcome>, j: nat)
    requires c.Valid() && Laid(c.spans, disk) && |io| == |c.spans| && i < |c.hashes| && j < |c.hashes|
    ensures Laid(c.spans, DiskAfter(c, closed, disk, i, data, io))
    ensures Storable(c, closed, i, data, io) ==> Slice(c, DiskAfter(c, closed, disk, i, data, io), i) == data
    ensures j != i ==> Slice(c, DiskAfter(c, closed, disk, i, data, io), j) == Slice(c, disk, j)
  {
    if Matches(c, i, data) && !closed {
      var n := DiskAfterIsOverlay(c, closed, disk, i, data, io);
    }
    if Storable(c, closed, i, data, io) {
      DiskAfterHoldsData(c, disk, i, data, io);
    }
    if j != i {
      DiskAfterSparesOthers(c, closed, disk, i, data, io, j);
    }
  }

  // ----- Runs -----

  /** A fresh manager after RestoreExisting has read the disk: exactly the pieces whose bytes verify are Complete. */
  function Restored(c: Config, disk: Disk): seq<PieceState>
    requires c.Valid() && Laid(c.spans, disk)
  {
    seq(|c.hashes|, i requires 0 <= i < |c.hashes| => if Verified(c, disk, i) then Complete else Missing)
  }

  function Start(c: Config, disk: Disk): State
    requires c.Valid() && Laid(c.spans, disk)
  {
    State(Restored(c, disk), map[], disk, 0, {}, false, false, false)
  }

  lemma StartSatisfiesInv(c: Config, disk: Disk)
    requires c.Valid() && Laid(c.spans, disk)
    ensures Inv(c, Start(c, disk))
  {
  }

  /** Every interleaving of every caller is some sequence of steps. */
  function Run(c: Config, s: State, steps: seq<Step>): (r: State)
    requires Inv(c, s)
    ensures Inv(c, r)
    decreases |steps|
  {
    if steps == [] then s
    else
      StepKeepsInv(c, s, steps[0]);
      Run(c, Apply(c, s, steps[0]), steps[1..])
  }

  lemma {:induction false} RunConcat(c: Config, s: State, first: seq<Step>, more: seq<Step>)
    requires Inv(c, s)
    ensures Run(c, s, first + more) == Run(c, Run(c, s, first), more)
    decreases |first|
  {
    if first == [] {
      assert first + more == more;
    } else {
      StepKeepsInv(c, s, first[0]);
      assert (first + more)[1..] == first[1..] + more;
      RunConcat(c, Apply(c, s, first[0]), first[1..], more);
    }
  }

  lemma WriteFileSparesComplete(c: Config, s: State, caller: nat, io: IoOutcome, i: nat)
    requires Inv(c, s) && IsState(s.pieces, i, Complete)
    requires IsWriting(s, caller) && s.calls[caller].phase.next < |c.spans|
    ensures s.calls[caller].phase.written <= |s.calls[caller].data|
    ensures var t := WriteFileStep(c, s, caller, io);
      t.pieces == s.pieces && Laid(c.spans, t.disk) && Slice(c, t.disk, i) == Slice(c, s.disk, i)
  {
    var call := s.calls[caller];
    assert CallOk(c, s.disk, call) && IsState(s.pieces, call.index, Verifying);
    WriteSparesOtherPieces(c, s.disk, call.index, call.data, call.phase.next, call.phase.written, io, i);
  }

  /** Every call in flight is for a piece that is Verifying. */
  ghost predicate CallsVerify(s: State) {
    forall a :: a in s.calls ==> IsState(s.pieces, s.calls[a].index, Verifying)
  }

  lemma ReserveSparesComplete(pieces: seq<PieceState>, bitfield: seq<bool>, i: nat)
    requires IsState(pieces, i, Complete)
    ensures IsState(Reserved(pieces, bitfield), i, Complete)
  {
    var pick := FirstAvailable(pieces, bitfield, 0);
    assert pick.Some? ==> pieces[pick.value] == Missing;
  }

  lemma LeaveSparesComplete(s: State, caller: nat, state: PieceState, i: nat)
    requires CallsVerify(s) && caller in s.calls && IsState(s.pieces, i, Complete)
    ensures s.calls[caller].index < |s.pieces| && IsState(Leave(s, caller, state).pieces, i, Complete)
  {
    assert IsState(s.pieces, s.calls[caller].index, Verifying);
  }

  /** These steps leave all piece states and the disk as they are. */
  lemma StillSteps(c: Config, s: State, step: Step)
    requires Laid(c.spans, s.disk)
    requires step.Check? || step.StartWrite? || step.EndWrite?
          || step.ObserveComplete? || step.CompleteStorage? || step.CloseStorage?
    ensures Apply(c, s, step).disk == s.disk && Apply(c, s, step).pieces == s.pieces
  {
  }

  /** Steps other than a file write leave the disk and every Complete piece as they are. */
  lemma OtherStepsSpareComplete(c: Config, s: State, step: Step, i: nat)
    requires Laid(c.spans, s.disk) && CallsVerify(s) && IsState(s.pieces, i, Complete) && !step.WriteOneFile?
    ensures Apply(c, s, step).disk == s.disk && IsState(Apply(c, s, step).pieces, i, Complete)
  {
    match step
    case Reserve(bitfield) => ReserveSparesComplete(s.pieces, bitfield, i);
    case Begin(_, _, _) =>
    case Publish(caller) =>
      if caller in s.calls {
        LeaveSparesComplete(s, caller, Complete, i);
      }
    case Reset(caller) =>
      if caller in s.calls {
        LeaveSparesComplete(s, caller, Missing, i);
      }
    case MarkFailed(_) =>
    case _ => StillSteps(c, s, step);
  }

  lemma RunSnoc(c: Config, s: State, steps: seq<Step>, step: Step)
    requires Inv(c, s)
    ensures Run(c, s, steps + [step]) == Apply(c, Run(c, s, steps), step)
  {
    RunConcat(c, s, steps, [step]);
    StepKeepsInv(c, Run(c, s, steps), step);
    assert [step][1..] == [];
  }

  /** One step neither leaves Complete nor touches the bytes of a Complete piece. */
  lemma StepKeepsComplete(c: Config, s: State, step: Step, i: nat)
    requires Inv(c, s) && IsState(s.pieces, i, Complete)
    ensures Inv(c, Apply(c, s, step))
    ensures IsState(Apply(c, s, step).pieces, i, Complete)
    ensures Slice(c, Apply(c, s, step).disk, i) == Slice(c, s.disk, i)
  {
    StepKeepsInv(c, s, step);
    if step.WriteOneFile? {
      if IsWriting(s, step.caller) && s.calls[step.caller].phase.next < |c.spans| {
        WriteFileSparesComplete(c, s, step.caller, step.io, i);
      }
    } else {
      OtherStepsSpareComplete(c, s, step, i);
    }
  }

  /** Safety of the download: once a piece is Complete it stays Complete through
      every later run, its bytes on the disk never change again, and they hash to
      the expected value. */
  lemma {:induction false} CompleteIsForever(c: Config, s: State, steps: seq<Step>, i: nat)
    requires Inv(c, s) && IsState(s.pieces, i, Complete)
    ensures var t := Run(c, s, steps);
      && IsState(t.pieces, i, Complete)
      && Slice(c, t.disk, i) == Slice(c, s.disk, i)
      && c.sha1(Slice(c, t.disk, i)) == c.hashes[i]
    decreases |steps|
  {
    if steps == [] {
      assert Verified(c, s.disk, i);
    } else {
      StepKeepsComplete(c, s, steps[0], i);
      CompleteIsForever(c, Apply(c, s, steps[0]), steps[1..], i);
    }
  }

  /** Once every piece is Complete there is no write in flight, and no run changes the content any more. */
  lemma {:induction false} CompleteContentIsFixed(c: Config, s: State, steps: seq<Step>)
    requires Inv(c, s) && AllComplete(s.pieces)
    ensures s.calls == map[]
    ensures Run(c, s, steps).disk == s.disk && AllComplete(Run(c, s, steps).pieces)
    ensures forall i :: 0 <= i < |c.hashes| ==> Verified(c, s.disk, i)
    decreases |steps|
  {
    NoCallsWhenComplete(s);
    if steps != [] {
      StepKeepsInv(c, s, steps[0]);
      StepWhenComplete(c, s, steps[0]);
      CompleteContentIsFixed(c, Apply(c, s, steps[0]), steps[1..]);
    }
  }

  lemma NoCallsWhenComplete(s: State)
    requires CallsVerify(s) && AllComplete(s.pieces)
    ensures s.calls == map[]
  {
    assert s.calls.Keys == {};
  }

  lemma StepWhenComplete(c: Config, s: State, step: Step)
    requires Laid(c.spans, s.disk) && s.calls == map[] && AllComplete(s.pieces)
    ensures Apply(c, s, step).disk == s.disk && AllComplete(Apply(c, s, step).pieces)
  {
    assert step.Reserve? ==> FirstAvailable(s.pieces, step.bitfield, 0).None?;
  }

  /** From a restored manager (StartSatisfiesInv) run anything; if a Finalize has
      succeeded, every piece slice of the concatenated files verifies, no call is
      in flight, the storage is closed, and no later run changes a byte. */
  lemma FinalizeMeansVerified(c: Config, s: State, steps: seq<Step>, more: seq<Step>)
    requires Inv(c, s) && Run(c, s, steps).completed
    ensures var t := Run(c, s, steps);
      && t.closed && t.calls == map[] && AllComplete(t.pieces)
      && (forall i :: 0 <= i < |c.hashes| ==> Verified(c, t.disk, i))
      && Run(c, t, more).disk == t.disk
  {
    CompleteContentIsFixed(c, Run(c, s, steps), more);
  }

  // ----- Concurrent writes -----

  lemma ApartAndSized(c: Config, s: State, a: nat, b: nat)
    requires Inv(c, s) && a != b && IsWriting(s, a) && IsWriting(s, b)
    ensures var x, y := s.calls[a], s.calls[b];
      && x.phase.written <= |x.data| && y.phase.written <= |y.data|
      && (c.Offset(x.index) + |x.data| <= c.Offset(y.index) || c.Offset(y.index) + |y.data| <= c.Offset(x.index))
  {
    var x, y := s.calls[a], s.calls[b];
    assert CallOk(c, s.disk, x) && CallOk(c, s.disk, y) && x.index != y.index;
    if x.index < y.index {
      PiecesAreOrdered(c.total, c.pieceLength, x.index, y.index);
    } else {
      PiecesAreOrdered(c.total, c.pieceLength, y.index, x.index);
    }
  }

  predicate CanWrite(c: Config, s: State, caller: nat) {
    IsWriting(s, caller) && s.calls[caller].phase.next < |c.spans|
  }

  lemma IdleDoesNothing(c: Config, s: State, a: nat, x: IoOutcome)
    requires Laid(c.spans, s.disk) && !CanWrite(c, s, a)
    ensures Apply(c, s, WriteOneFile(a, x)) == s
  {
  }

  lemma StaysAsItIs(c: Config, s: State, a: nat, b: nat, y: IoOutcome)
    requires Laid(c.spans, s.disk) && a != b
    ensures CanWrite(c, Apply(c, s, WriteOneFile(b, y)), a) <==> CanWrite(c, s, a)
  {
  }

  lemma WriteKeepsLaid(c: Config, s: State, a: nat, x: IoOutcome)
    requires c.Valid() && Laid(c.spans, s.disk)
    ensures Laid(c.spans, Apply(c, s, WriteOneFile(a, x)).disk)
  {
    if CanWrite(c, s, a) && s.calls[a].phase.written <= |s.calls[a].data| {
      var call := s.calls[a];
      WriteSpanKeepsLayout(c.spans, c.total, s.disk, call.phase.next,
                           call.data, c.Offset(call.index), call.phase.written, x);
    }
  }

  /** The visit a writing call makes when the disk is as given. */
  function Visit(c: Config, call: Call, disk: Disk, io: IoOutcome): Progress
    requires call.phase.Writing? && call.phase.next < |c.spans| && call.phase.written <= |call.data|
    requires Fits(c.spans[call.phase.next], disk)
  {
    WriteSpan(c.spans[call.phase.next], disk, call.data, c.Offset(call.index), call.phase.written, io)
  }

  lemma FirstVisit(c: Config, s: State, a: nat, x: IoOutcome)
    requires Laid(c.spans, s.disk) && CanWrite(c, s, a) && s.calls[a].phase.written <= |s.calls[a].data|
    ensures var p := Visit(c, s.calls[a], s.disk, x);
      Apply(c, s, WriteOneFile(a, x)) == MoveTo(s.(disk := p.disk), a, AfterVisit(p, s.calls[a].phase.next))
  {
  }

  /** The visit of b after a has moved on. */
  lemma SecondVisit(c: Config, s: State, a: nat, phase: Phase, disk: Disk, b: nat, y: IoOutcome)
    requires a in s.calls && a != b && CanWrite(c, s, b)
    requires s.calls[b].phase.written <= |s.calls[b].data| && Laid(c.spans, disk)
    ensures var p := Visit(c, s.calls[b], disk, y);
      Apply(c, MoveTo(s.(disk := disk), a, phase), WriteOneFile(b, y))
        == MoveTo(MoveTo(s.(disk := p.disk), a, phase), b, AfterVisit(p, s.calls[b].phase.next))
  {
  }

  lemma MovesCommute(s: State, a: nat, b: nat, p: Phase, q: Phase)
    requires a in s.calls && b in s.calls && a != b
    ensures MoveTo(MoveTo(s, a, p), b, q) == MoveTo(MoveTo(s, b, q), a, p)
  {
    assert MoveTo(MoveTo(s, a, p), b, q).calls == MoveTo(MoveTo(s, b, q), a, p).calls;
  }

  lemma VisitsCommute(c: Config, s: State, a: nat, x: IoOutcome, b: nat, y: IoOutcome)
    requires Inv(c, s) && a != b && CanWrite(c, s, a) && CanWrite(c, s, b)
    requires s.calls[a].phase.written <= |s.calls[a].data| && s.calls[b].phase.written <= |s.calls[b].data|
    ensures var m, n := s.calls[a], s.calls[b];
      var p, q := Visit(c, m, s.disk, x), Visit(c, n, s.disk, y);
      && Laid(c.spans, p.disk) && Laid(c.spans, q.disk)
      && Visit(c, n, p.disk, y).disk == Visit(c, m, q.disk, x).disk
      && AfterVisit(Visit(c, n, p.disk, y), n.phase.next) == AfterVisit(q, n.phase.next)
      && AfterVisit(Visit(c, m, q.disk, x), m.phase.next) == AfterVisit(p, m.phase.next)
  {
    ApartAndSized(c, s, a, b);
    var m, n := s.calls[a], s.calls[b];
    var i, j := m.phase.next, n.phase.next;
    WriteSpanKeepsLayout(c.spans, c.total, s.disk, i, m.data, c.Offset(m.index), m.phase.written, x);
    WriteSpanKeepsLayout(c.spans, c.total, s.disk, j, n.data, c.Offset(n.index), n.phase.written, y);
    WriteSpansCommute(c.spans, c.total, s.disk, i, m.data, c.Offset(m.index), m.phase.written, x,
                      j, n.data, c.Offset(n.index), n.phase.written, y);
  }

  /** Two calls that are both writing: who visits its next file first makes no difference. */
  lemma BothWriting(c: Config, s: State, a: nat, x: IoOutcome, b: nat, y: IoOutcome)
    requires Inv(c, s) && a != b && CanWrite(c, s, a) && CanWrite(c, s, b)
    ensures var sa, sb := Apply(c, s, WriteOneFile(a, x)), Apply(c, s, WriteOneFile(b, y));
      && Laid(c.spans, sa.disk) && Laid(c.spans, sb.disk)
      && Apply(c, sa, WriteOneFile(b, y)) == Apply(c, sb, WriteOneFile(a, x))
  {
    ApartAndSized(c, s, a, b);
    VisitsCommute(c, s, a, x, b, y);
    var m, n := s.calls[a], s.calls[b];
    var p, q := Visit(c, m, s.disk, x), Visit(c, n, s.disk, y);
    var pa, pb := AfterVisit(p, m.phase.next), AfterVisit(q, n.phase.next);
    FirstVisit(c, s, a, x);
    FirstVisit(c, s, b, y);
    SecondVisit(c, s, a, pa, p.disk, b, y);
    SecondVisit(c, s, b, pb, q.disk, a, x);
    MovesCommute(s.(disk := Visit(c, n, p.disk, y).disk), a, b, pa, pb);
  }

  /** File visits of different calls commute in every reachable state, enabled or not. */
  lemma WriteStepsCommute(c: Config, s: State, a: nat, x: IoOutcome, b: nat, y: IoOutcome)
    requires Inv(c, s) && a != b
    ensures var sa, sb := Apply(c, s, WriteOneFile(a, x)), Apply(c, s, WriteOneFile(b, y));
      && Laid(c.spans, sa.disk) && Laid(c.spans, sb.disk)
      && Apply(c, sa, WriteOneFile(b, y)) == Apply(c, sb, WriteOneFile(a, x))
  {
    WriteKeepsLaid(c, s, a, x);
    WriteKeepsLaid(c, s, b, y);
    if CanWrite(c, s, a) && CanWrite(c, s, b) {
      BothWriting(c, s, a, x, b, y);
    } else if !CanWrite(c, s, a) {
      IdleDoesNothing(c, s, a, x);
      StaysAsItIs(c, s, a, b, y);
      IdleDoesNothing(c, Apply(c, s, WriteOneFile(b, y)), a, x);
    } else {
      IdleDoesNothing(c, s, b, y);
      StaysAsItIs(c, s, b, a, x);
      IdleDoesNothing(c, Apply(c, s, WriteOneFile(a, x)), b, y);
    }
  }

  // ----- Concurrent calls -----

  /** The steps a call takes after its first critical section. */
  predicate IsCallStep(step: Step) {
    step.Check? || step.StartWrite? || step.WriteOneFile? || step.EndWrite? || step.Publish? || step.Reset?
  }

  /** What such a step does to its call: nothing, on to another phase, or out of the
      manager, its piece left in a state. */
  datatype Advance = Stay | To(phase: Phase) | Out(state: PieceState)

  /** All but the file visits depend only on the call and on whether the storage is closed. */
  function AdvanceOf(c: Config, closed: bool, call: Call, step: Step): Advance {
    match step
    case Check(_) => if call.phase.Checking? then To(Checked(c, call)) else Stay
    case StartWrite(_) =>
      if !call.phase.Opening? then Stay
      else if closed || !InRange(c.Offset(call.index), |call.data|, c.total) then To(Failed)
      else To(Writing(0, 0))
    case EndWrite(_) =>
      if call.phase.Writing? && call.phase.next == |c.spans|
      then To(if call.phase.written == |call.data| then Written else Failed)
      else Stay
    case Publish(_) => if call.phase.Written? then Out(Complete) else Stay
    case Reset(_) => if call.phase.Failed? then Out(Missing) else Stay
    case _ => Stay
  }

  function Advanced(s: State, caller: nat, advance: Advance): State
    requires caller in s.calls && s.calls[caller].index < |s.pieces|
  {
    match advance
    case Stay => s
    case To(phase) => MoveTo(s, caller, phase)
    case Out(state) => Leave(s, caller, state)
  }

  lemma StepAdvances(c: Config, s: State, step: Step)
    requires Laid(c.spans, s.disk) && IsCallStep(step) && !step.WriteOneFile? && step.caller in s.calls
    requires IsState(s.pieces, s.calls[step.caller].index, Verifying)
    ensures Apply(c, s, step) == Advanced(s, step.caller, AdvanceOf(c, s.closed, s.calls[step.caller], step))
  {
  }

  /** What one call does leaves another's call and piece alone. */
  lemma AdvanceSpares(s: State, a: nat, x: Advance, b: nat)
    requires a in s.calls && b in s.calls && a != b
    requires s.calls[a].index < |s.pieces| && s.calls[b].index < |s.pieces| && s.calls[a].index != s.calls[b].index
    ensures var t := Advanced(s, a, x);
      && b in t.calls && t.calls[b] == s.calls[b] && |t.pieces| == |s.pieces| && t.closed == s.closed
      && t.disk == s.disk && t.pieces[s.calls[b].index] == s.pieces[s.calls[b].index]
  {
  }

  lemma MoveAndLeaveCommute(s: State, a: nat, phase: Phase, b: nat, state: PieceState)
    requires a in s.calls && b in s.calls && a != b && s.calls[b].index < |s.pieces|
    ensures Leave(MoveTo(s, a, phase), b, state) == MoveTo(Leave(s, b, state), a, phase)
  {
    assert Leave(MoveTo(s, a, phase), b, state).calls == MoveTo(Leave(s, b, state), a, phase).calls;
  }

  lemma LeavesCommute(s: State, a: nat, one: PieceState, b: nat, two: PieceState)
    requires a in s.calls && b in s.calls && a != b
    requires s.calls[a].index < |s.pieces| && s.calls[b].index < |s.pieces| && s.calls[a].index != s.calls[b].index
    ensures Leave(Leave(s, a, one), b, two) == Leave(Leave(s, b, two), a, one)
  {
    var u, v := Leave(Leave(s, a, one), b, two), Leave(Leave(s, b, two), a, one);
    assert u.calls == v.calls;
    assert u.pieces == v.pieces;
  }

  lemma AdvancesCommute(s: State, a: nat, x: Advance, b: nat, y: Advance)
    requires a in s.calls && b in s.calls && a != b
    requires s.calls[a].index < |s.pieces| && s.calls[b].index < |s.pieces| && s.calls[a].index != s.calls[b].index
    ensures b in Advanced(s, a, x).calls && a in Advanced(s, b, y).calls
    ensures |Advanced(s, a, x).pieces| == |Advanced(s, b, y).pieces| == |s.pieces|
    ensures Advanced(s, a, x).calls[b] == s.calls[b] && Advanced(s, b, y).calls[a] == s.calls[a]
    ensures Advanced(Advanced(s, a, x), b, y) == Advanced(Advanced(s, b, y), a, x)
  {
    AdvanceSpares(s, a, x, b);
    AdvanceSpares(s, b, y, a);
    match (x, y) {
      case (To(p), To(q)) => MovesCommute(s, a, b, p, q);
      case (To(p), Out(left)) => MoveAndLeaveCommute(s, a, p, b, left);
      case (Out(left), To(q)) => MoveAndLeaveCommute(s, b, q, a, left);
      case (Out(one), Out(two)) => LeavesCommute(s, a, one, b, two);
      case (_, _) =>
    }
  }

  /** Two calls in flight, neither about to visit a file. */
  lemma NeitherWrites(c: Config, s: State, x: Step, y: Step)
    requires Inv(c, s) && IsCallStep(x) && IsCallStep(y) && !x.WriteOneFile? && !y.WriteOneFile?
    requires x.caller != y.caller && x.caller in s.calls && y.caller in s.calls
    ensures Laid(c.spans, Apply(c, s, x).disk) && Laid(c.spans, Apply(c, s, y).disk)
    ensures Apply(c, Apply(c, s, x), y) == Apply(c, Apply(c, s, y), x)
  {
    var a, b := x.caller, y.caller;
    assert s.calls[a].index != s.calls[b].index;
    var m, n := AdvanceOf(c, s.closed, s.calls[a], x), AdvanceOf(c, s.closed, s.calls[b], y);
    StepAdvances(c, s, x);
    StepAdvances(c, s, y);
    AdvanceSpares(s, a, m, b);
    AdvanceSpares(s, b, n, a);
    StepAdvances(c, Advanced(s, a, m), y);
    StepAdvances(c, Advanced(s, b, n), x);
    AdvancesCommute(s, a, m, b, n);
  }

  lemma OtherDisk(s: State, disk: Disk, b: nat, y: Advance)
    requires b in s.calls && s.calls[b].index < |s.pieces|
    ensures Advanced(s.(disk := disk), b, y) == Advanced(s, b, y).(disk := disk)
  {
  }

  /** One call visits a file while another does something else. */
  lemma OneWrites(c: Config, s: State, a: nat, x: IoOutcome, y: Step)
    requires Inv(c, s) && IsCallStep(y) && !y.WriteOneFile?
    requires a != y.caller && CanWrite(c, s, a) && y.caller in s.calls
    ensures var w := WriteOneFile(a, x);
      && Laid(c.spans, Apply(c, s, w).disk) && Laid(c.spans, Apply(c, s, y).disk)
      && Apply(c, Apply(c, s, w), y) == Apply(c, Apply(c, s, y), w)
  {
    var b, call := y.caller, s.calls[a];
    assert CallOk(c, s.disk, call) && call.index != s.calls[b].index;
    var p := Visit(c, call, s.disk, x);
    var to := To(AfterVisit(p, call.phase.next));
    var n := AdvanceOf(c, s.closed, s.calls[b], y);
    WriteKeepsLaid(c, s, a, x);
    FirstVisit(c, s, a, x);
    StepAdvances(c, s, y);
    AdvanceSpares(s, b, n, a);
    FirstVisit(c, Advanced(s, b, n), a, x);
    AdvanceSpares(s.(disk := p.disk), a, to, b);
    StepAdvances(c, Advanced(s.(disk := p.disk), a, to), y);
    AdvancesCommute(s.(disk := p.disk), a, to, b, n);
    OtherDisk(s, p.disk, b, n);
  }

  /** Steps of different calls commute in every reachable state, whatever they are,
      whatever the system does, and enabled or not. */
  lemma CallStepsCommute(c: Config, s: State, x: Step, y: Step)
    requires Inv(c, s) && IsCallStep(x) && IsCallStep(y) && x.caller != y.caller
    ensures Laid(c.spans, Apply(c, s, x).disk) && Laid(c.spans, Apply(c, s, y).disk)
    ensures Apply(c, Apply(c, s, x), y) == Apply(c, Apply(c, s, y), x)
  {
    StepKeepsInv(c, s, x);
    StepKeepsInv(c, s, y);
    if Idle(c, s, x) {
      StaysIdle(c, s, y, x);
    } else if Idle(c, s, y) {
      StaysIdle(c, s, x, y);
    } else if x.WriteOneFile? && y.WriteOneFile? {
      WriteStepsCommute(c, s, x.caller, x.io, y.caller, y.io);
    } else if x.WriteOneFile? {
      OneWrites(c, s, x.caller, x.io, y);
    } else if y.WriteOneFile? {
      OneWrites(c, s, y.caller, y.io, x);
    } else {
      NeitherWrites(c, s, x, y);
    }
  }

  /** There is no such call, or it has no file left to visit. */
  predicate Idle(c: Config, s: State, step: Step)
    requires IsCallStep(step)
  {
    step.caller !in s.calls || (step.WriteOneFile? && !CanWrite(c, s, step.caller))
  }

  /** What another call does makes no difference to that. */
  lemma StaysIdle(c: Config, s: State, other: Step, step: Step)
    requires Laid(c.spans, s.disk) && Laid(c.spans, Apply(c, s, other).disk)
    requires IsCallStep(other) && IsCallStep(step) && other.caller != step.caller && Idle(c, s, step)
    ensures Apply(c, s, step) == s && Apply(c, Apply(c, s, other), step) == Apply(c, s, other)
  {
  }

  predicate OnlyCalls(steps: seq<Step>) {
    forall i :: 0 <= i < |steps| ==> IsCallStep(steps[i])
  }

  /** The steps of one caller, in order. */
  function Own(steps: seq<Step>, caller: nat): seq<Step>
    requires OnlyCalls(steps)
  {
    if steps == [] then [] else (if steps[0].caller == caller then [steps[0]] else []) + Own(steps[1..], caller)
  }

  lemma {:induction false} OwnConcat(first: seq<Step>, more: seq<Step>, caller: nat)
    requires OnlyCalls(first) && OnlyCalls(more)
    ensures OnlyCalls(first + more) && Own(first + more, caller) == Own(first, caller) + Own(more, caller)
  {
    if first == [] {
      assert first + more == more;
    } else {
      var rest, mine := first[1..], if first[0].caller == caller then [first[0]] else [];
      assert (first + more)[0] == first[0] && (first + more)[1..] == rest + more;
      OwnConcat(rest, more, caller);
      assert Own(first, caller) == mine + Own(rest, caller);
      assert mine + (Own(rest, caller) + Own(more, caller)) == (mine + Own(rest, caller)) + Own(more, caller);
    }
  }

  /** Where the caller's first step is. */
  lemma {:induction false} FirstOwn(steps: seq<Step>, caller: nat) returns (k: nat)
    requires OnlyCalls(steps) && Own(steps, caller) != []
    ensures k < |steps| && steps[k] == Own(steps, caller)[0]
    ensures steps[k].caller == caller && Own(steps[..k], caller) == []
  {
    if steps[0].caller == caller {
      k := 0;
    } else {
      var rest := FirstOwn(steps[1..], caller);
      k := rest + 1;
      assert steps[..k][1..] == steps[1..][..rest];
    }
  }

  /** A step may be moved before the steps of others. */
  lemma {:induction false} MoveToFront(c: Config, s: State, before: seq<Step>, step: Step)
    requires Inv(c, s) && OnlyCalls(before) && IsCallStep(step) && Own(before, step.caller) == []
    ensures Run(c, s, before + [step]) == Run(c, s, [step] + before)
    decreases |before|
  {
    if before == [] {
      assert before + [step] == [step] + before;
    } else {
      var other, rest := before[0], before[1..];
      StepKeepsInv(c, s, other);
      StepKeepsInv(c, s, step);
      CallStepsCommute(c, s, other, step);
      assert (before + [step])[1..] == rest + [step];
      MoveToFront(c, Apply(c, s, other), rest, step);
      assert ([step] + before)[1..] == before && ([step] + rest)[1..] == rest;
    }
  }

  /** Every caller takes the same steps in the same order. */
  ghost predicate SameOrders(first: seq<Step>, second: seq<Step>) {
    OnlyCalls(first) && OnlyCalls(second) && forall caller :: Own(first, caller) == Own(second, caller)
  }

  /** Where the first step of `second` is in `first`, and that it can be taken out of both. */
  lemma TakeOut(first: seq<Step>, second: seq<Step>) returns (before: seq<Step>, after: seq<Step>)
    requires SameOrders(first, second) && second != []
    ensures first == before + [second[0]] + after && OnlyCalls(before) && OnlyCalls(after)
    ensures Own(before, second[0].caller) == [] && SameOrders(before + after, second[1..])
  {
    var step := second[0];
    assert Own(first, step.caller) == Own(second, step.caller);
    assert Own(second, step.caller)[0] == step;
    var k := FirstOwn(first, step.caller);
    before, after := first[..k], first[k + 1..];
    assert first == before + [step] + after;
    RestsAgree(before, step, after, second);
  }

  /** The steps of any number of calls in flight, from their hash checks to their last
      critical sections, interleaved in two ways that keep each call's own order: pieces,
      calls, disk and broadcast channel come out the same. */
  lemma {:induction false} InterleavingsAgree(c: Config, s: State, first: seq<Step>, second: seq<Step>)
    requires Inv(c, s) && SameOrders(first, second)
    ensures Run(c, s, first) == Run(c, s, second)
    decreases |second|
  {
    if second == [] {
      NothingLeft(first);
    } else {
      var before, after := TakeOut(first, second);
      MoveFirst(c, s, before, second[0], after);
      InterleavingsAgree(c, Apply(c, s, second[0]), before + after, second[1..]);
    }
  }

  lemma NothingLeft(steps: seq<Step>)
    requires SameOrders(steps, [])
    ensures steps == []
  {
    SomebodyOwnsTheFirst(steps);
  }

  lemma RestsAgree(before: seq<Step>, step: Step, after: seq<Step>, second: seq<Step>)
    requires OnlyCalls(before) && OnlyCalls(after) && OnlyCalls(second)
    requires IsCallStep(step) && Own(before, step.caller) == [] && second != [] && second[0] == step
    requires OnlyCalls(before + [step] + after)
    requires forall caller :: Own(before + [step] + after, caller) == Own(second, caller)
    ensures SameOrders(before + after, second[1..])
  {
    forall caller ensures Own(before + after, caller) == Own(second[1..], caller) {
      SkipOne(before, step, after, caller);
      assert Own(before + [step] + after, caller) == Own(second, caller);
      SameRest(if caller == step.caller then [step] else [], Own(before + after, caller), Own(second[1..], caller));
    }
  }

  lemma MoveFirst(c: Config, s: State, before: seq<Step>, step: Step, after: seq<Step>)
    requires Inv(c, s) && OnlyCalls(before) && IsCallStep(step) && Own(before, step.caller) == []
    ensures Inv(c, Apply(c, s, step))
    ensures Run(c, s, before + [step] + after) == Run(c, Apply(c, s, step), before + after)
  {
    StepKeepsInv(c, s, step);
    MoveToFront(c, s, before, step);
    RunConcat(c, s, before + [step], after);
    RunConcat(c, Apply(c, s, step), before, after);
    assert ([step] + before)[1..] == before;
  }

  lemma SkipOne(before: seq<Step>, step: Step, after: seq<Step>, caller: nat)
    requires OnlyCalls(before) && OnlyCalls(after) && IsCallStep(step) && Own(before, step.caller) == []
    ensures OnlyCalls(before + after) && OnlyCalls(before + [step] + after)
    ensures Own(before + [step] + after, caller)
         == (if caller == step.caller then [step] else []) + Own(before + after, caller)
  {
    OwnConcat(before, after, caller);
    OwnConcat(before, [step], caller);
    OwnConcat(before + [step], after, caller);
    assert [step][1..] == [];
  }

  /** Taking away the same beginning. */
  lemma SameRest(start: seq<Step>, a: seq<Step>, b: seq<Step>)
    ensures start + a == start + b ==> a == b
  {
    assert (start + a)[|start|..] == a && (start + b)[|start|..] == b;
  }

  lemma SomebodyOwnsTheFirst(steps: seq<Step>)
    requires OnlyCalls(steps)
    ensures steps != [] ==> Own(steps, steps[0].caller) != []
  {
  }

  // ----- Broadcast epochs -----

  predicate Announces(before: State, after: State)
    requires |before.pieces| == |after.pieces|
  {
    exists i :: 0 <= i < |before.pieces|
      && before.pieces[i] != after.pieces[i] && after.pieces[i] in {Missing, Complete}
  }

  /** Some step of the run makes a piece Missing or Complete that was not so before the step. */
  predicate AnnouncedDuring(c: Config, s: State, steps: seq<Step>)
    requires Inv(c, s)
    decreases |steps|
  {
    steps != [] &&
      (StepKeepsInv(c, s, steps[0]);
       var t := Apply(c, s, steps[0]);
       Announces(s, t) || AnnouncedDuring(c, t, steps[1..]))
  }

  /** A step closes the current channel, which was open, exactly when it announces a change. */
  lemma StepClosesOnAnnounce(c: Config, s: State, step: Step)
    requires Inv(c, s)
    ensures Inv(c, Apply(c, s, step)) && s.updates !in s.closedUpdates
    ensures Apply(c, s, step).updates == s.updates + (if Announces(s, Apply(c, s, step)) then 1 else 0)
  {
    StepKeepsInv(c, s, step);
    StepAnnounces(c, s, step);
  }

  predicate MayAnnounce(step: Step) {
    step.Publish? || step.Reset? || step.MarkFailed?
  }

  /** All other steps keep the channel and make no piece Missing or Complete. */
  lemma OthersAnnounceNothing(c: Config, s: State, step: Step)
    requires Laid(c.spans, s.disk) && !MayAnnounce(step)
    ensures var t := Apply(c, s, step);
      |t.pieces| == |s.pieces| && t.updates == s.updates && !Announces(s, t)
  {
  }

  lemma StepAnnounces(c: Config, s: State, step: Step)
    requires Laid(c.spans, s.disk) && CallsVerify(s)
    ensures |Apply(c, s, step).pieces| == |s.pieces|
    ensures Apply(c, s, step).updates == s.updates + (if Announces(s, Apply(c, s, step)) then 1 else 0)
  {
    if !MayAnnounce(step) {
      OthersAnnounceNothing(c, s, step);
    } else {
      match step
      case Publish(caller) =>
        if caller in s.calls {
          LeaveAnnounces(s, caller, Complete);
        }
      case Reset(caller) =>
        if caller in s.calls {
          assert IsState(s.pieces, s.calls[caller].index, Verifying);
          LeaveAnnounces(s, caller, Missing);
        }
      case MarkFailed(index) =>
        assert IsState(s.pieces, index, Downloading) ==> Apply(c, s, step).pieces[index] == Missing;
    }
  }

  lemma LeaveAnnounces(s: State, caller: nat, state: PieceState)
    requires CallsVerify(s) && caller in s.calls && state in {Missing, Complete}
    ensures s.calls[caller].index < |s.pieces| && Announces(s, Leave(s, caller, state))
  {
    var i := s.calls[caller].index;
    assert IsState(s.pieces, i, Verifying) && Leave(s, caller, state).pieces[i] == state;
  }

  /** A channel fetched in s is closed after a run exactly when some piece has
      become Missing or Complete since the fetch. */
  lemma {:induction false} ChannelClosesOnChange(c: Config, s: State, steps: seq<Step>)
    requires Inv(c, s)
    ensures s.updates <= Run(c, s, steps).updates
    ensures s.updates in Run(c, s, steps).closedUpdates <==> AnnouncedDuring(c, s, steps)
    ensures Run(c, s, steps).updates !in Run(c, s, steps).closedUpdates
    decreases |steps|
  {
    if steps != [] {
      StepClosesOnAnnounce(c, s, steps[0]);
      ChannelClosesOnChange(c, Apply(c, s, steps[0]), steps[1..]);
    }
  }

  /** A change before the fetch is missed. When piece i is the only one left for a
      bitfield: one worker reserves it, a second is told there is nothing, the first gives
      the piece up, and only then does the second fetch a channel. The piece is there
      for it, but its channel is open; the one it would have fetched before is closed. */
  lemma ReleaseBeforeFetchIsMissed(c: Config, s: State, bitfield: seq<bool>, i: nat)
    requires Inv(c, s) && forall j: nat :: Available(s.pieces, bitfield, j) <==> j == i
    ensures var held := Apply(c, s, Reserve(bitfield));
      && Inv(c, held) && IsState(held.pieces, i, Downloading) && Apply(c, held, Reserve(bitfield)) == held
      && var freed := Apply(c, held, MarkFailed(i));
         && Inv(c, freed) && Available(freed.pieces, bitfield, i)
         && held.updates in freed.closedUpdates && freed.updates !in freed.closedUpdates
  {
    var held := Apply(c, s, Reserve(bitfield));
    ReserveKeepsInv(c, s, bitfield);
    assert Available(s.pieces, bitfield, i);
    assert FirstAvailable(s.pieces, bitfield, 0) == Some(i);
    var again := FirstAvailable(held.pieces, bitfield, 0);
    if again.Some? {
      assert again.value != i && Available(s.pieces, bitfield, again.value);
    }
    MarkFailedKeepsInv(c, held, i);
  }
}
