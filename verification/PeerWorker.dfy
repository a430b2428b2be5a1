/** RunClient as an object whose fields are the function's local variables
    (internal/download/worker.go). Its methods are specified by the functions of
    PeerLoop; here one worker runs undisturbed, Swarm interleaves many. */
module PeerWorker {
  import opened ByteStrings
  import opened Storage
  import opened Pieces
  import opened Workers
  import opened Manager
  import Bitfields
  import PeerLoop
  import Protocol
  import Swarm
  import Wire

  lemma ManagedPieceIs(c: Protocol.Config, pieces: seq<ManagedPiece>, i: nat)
    requires WellCut(pieces, c.total, c.pieceLength) && Hashes(pieces) == c.hashes && i < |pieces|
    ensures pieces[i].piece == Protocol.PieceAt(c, i)
  {
  }

  class Client {
    var unchoked: bool
    var currentPiece: Option<Piece>
    var received: Bytes
    var expectedBegin: int
    var expectedLength: int
    var peerBitfield: seq<bool>
    var deadlineArmed: bool
    var outgoing: seq<Wire.Message> // what has been written to the peer
    ghost var asked: seq<Request>
    const manager: PieceManager

    ghost function State(): Worker
      reads this
    {
      Worker(unchoked, currentPiece, received, expectedBegin, expectedLength, peerBitfield, deadlineArmed, asked)
    }

    ghost function View(): PeerLoop.View
      reads this, manager, manager.storage
    {
      PeerLoop.View(State(), States(manager.pieces), manager.updates.number, manager.storage.disk, outgoing)
    }

    ghost predicate Valid()
      reads this, manager, manager.storage, manager.updates
    {
      manager.Valid() && manager.Config().Valid() && PeerLoop.ViewOk(manager.Config(), View())
    }

    constructor (manager: PieceManager)
      requires manager.Valid() && manager.Config().Valid()
      ensures Valid() && this.manager == manager && State() == Fresh(|manager.pieces|) && outgoing == []
    {
      this.manager := manager;
      unchoked, currentPiece, received, expectedBegin, expectedLength := false, None, [], 0, 0;
      peerBitfield := seq(|manager.pieces|, _ => false);
      deadlineArmed, asked, outgoing := false, [], [];
    }

    method RequestBlock(sent: bool) returns (ok: bool)
      requires currentPiece.Some? && !deadlineArmed
      modifies this`expectedBegin, this`expectedLength, this`asked, this`deadlineArmed, this`outgoing
      ensures ok <==> sent && |received| < currentPiece.value.length
      ensures |received| < currentPiece.value.length ==> State() == Asking(old(State()), sent)
      ensures outgoing == if ok then old(outgoing) + [PeerLoop.RequestFor(State())] else old(outgoing)
    {
      expectedBegin := |received|;
      var remaining := currentPiece.value.length - expectedBegin;
      if remaining <= 0 {
        return false;
      }
      expectedLength := Min(BLOCK_SIZE, remaining);
      asked := asked + [Request(expectedBegin, expectedLength)];
      if !sent {
        return false;
      }
      outgoing := outgoing + [Wire.NewRequest(currentPiece.value.index, expectedBegin, expectedLength)];
      deadlineArmed := true;
      ok := true;
    }

    method ReleaseCurrent()
      requires manager.Valid()
      modifies this`currentPiece, this`received, this`expectedBegin, this`expectedLength, this`asked, this`deadlineArmed
      modifies manager`pieces, manager`updates, manager.updates
      ensures manager.Valid() && manager.Config() == old(manager.Config())
      ensures manager.updates == old(manager.updates) || fresh(manager.updates)
      ensures View() == PeerLoop.LetGo(old(View()))
    {
      if currentPiece.Some? {
        manager.MarkFailed(currentPiece.value.index);
      }
      currentPiece, received, expectedBegin, expectedLength := None, [], 0, 0;
      deadlineArmed, asked := false, [];
    }

    /** Asks for the next block of the piece held; if that cannot be sent the piece is given back. */
    method RequestOrRelease(sent: bool) returns (exit: Option<PeerLoop.Exit>)
      requires manager.Valid() && currentPiece.Some? && !deadlineArmed && |received| < currentPiece.value.length
      modifies this`currentPiece, this`received, this`expectedBegin, this`expectedLength, this`asked, this`deadlineArmed
      modifies this`outgoing, manager`pieces, manager`updates, manager.updates
      ensures manager.Valid() && manager.Config() == old(manager.Config())
      ensures manager.updates == old(manager.updates) || fresh(manager.updates)
      ensures PeerLoop.Outcome(View(), exit) == PeerLoop.Request(old(View()), sent)
    {
      var ok := RequestBlock(sent);
      if !ok {
        ReleaseCurrent();
        return Some(PeerLoop.Failed);
      }
      exit := None;
    }

    /** Reserves the next piece, if there is one to take. */
    method Reserve() returns (taken: bool)
      requires Valid()
      modifies this`currentPiece, this`received, this`asked, manager`pieces
      ensures manager.Valid() && manager.Config() == old(manager.Config())
      ensures taken == old(PeerLoop.Takes(View()))
      ensures View() == if taken then PeerLoop.Holding(manager.Config(), old(View())) else old(View())
    {
      if !unchoked || currentPiece.Some? {
        return false;
      }
      var next := manager.NextPieceForPeer(peerBitfield);
      if next.None? {
        return false;
      }
      ManagedPieceIs(manager.Config(), manager.pieces, next.value.index);
      currentPiece, received, asked := next, [], [];
      taken := true;
    }

    /** Reserves the next piece and asks for its first block. */
    method RequestNextPiece(sent: bool) returns (exit: Option<PeerLoop.Exit>)
      requires Valid()
      modifies this`currentPiece, this`received, this`expectedBegin, this`expectedLength, this`asked, this`deadlineArmed
      modifies this`outgoing, manager`pieces, manager`updates, manager.updates
      ensures Valid() && manager.Config() == old(manager.Config())
      ensures manager.updates == old(manager.updates) || fresh(manager.updates)
      ensures PeerLoop.Outcome(View(), exit) == PeerLoop.Next(manager.Config(), old(View()), sent)
    {
      PeerLoop.NextKeeps(manager.Config(), View(), sent);
      if PeerLoop.Takes(View()) {
        PeerLoop.HoldingMayRequest(manager.Config(), View());
      }
      var taken := Reserve();
      if !taken {
        return None;
      }
      exit := RequestOrRelease(sent);
    }

    /** Done if the torrent is, else on to the next piece. */
    method GoOn(sent: bool) returns (exit: Option<PeerLoop.Exit>)
      requires Valid()
      modifies this`currentPiece, this`received, this`expectedBegin, this`expectedLength, this`asked, this`deadlineArmed
      modifies this`outgoing, manager`pieces, manager`updates, manager.updates
      ensures Valid() && manager.Config() == old(manager.Config())
      ensures manager.updates == old(manager.updates) || fresh(manager.updates)
      ensures PeerLoop.Outcome(View(), exit) == PeerLoop.GoOn(manager.Config(), old(View()), sent)
    {
      var complete := manager.IsComplete();
      if complete {
        return Some(PeerLoop.Finished);
      }
      exit := RequestNextPiece(sent);
    }

    /** Hands the piece over to the manager. */
    method Store(input: PeerLoop.Input) returns (ok: bool)
      requires manager.Valid() && PeerLoop.Whole(manager.Config(), View()) && |input.io| == |manager.storage.files|
      modifies this`currentPiece, this`received
      modifies manager`pieces, manager`updates, manager.updates, manager.storage`disk
      ensures manager.Valid() && manager.Config() == old(manager.Config())
      ensures manager.updates == old(manager.updates) || fresh(manager.updates)
      ensures View() == PeerLoop.Stored(manager.Config(), manager.storage.closed, old(View()), input.io)
      ensures ok == Protocol.Storable(manager.Config(), manager.storage.closed, old(State()).current.value.index,
                                      old(received), input.io)
    {
      var pieceIndex, data := currentPiece.value.index, received;
      currentPiece, received := None, [];
      ghost var written;
      written, ok := manager.CompletePiece(pieceIndex, data, input.io);
    }

    /** The piece is complete in memory: store it, then go on. */
    method OnWholePiece(input: PeerLoop.Input) returns (exit: Option<PeerLoop.Exit>)
      requires manager.Valid() && PeerLoop.Whole(manager.Config(), View()) && |input.io| == |manager.storage.files|
      modifies this`currentPiece, this`received, this`expectedBegin, this`expectedLength, this`asked, this`deadlineArmed
      modifies this`outgoing, manager`pieces, manager`updates, manager.updates, manager.storage`disk
      ensures Valid() && manager.Config() == old(manager.Config())
      ensures manager.updates == old(manager.updates) || fresh(manager.updates)
      ensures PeerLoop.Outcome(View(), exit)
           == PeerLoop.WholePiece(manager.Config(), manager.storage.closed, old(View()), input)
    {
      PeerLoop.StoredKeeps(manager.Config(), manager.storage.closed, View(), input.io);
      var ok := Store(input);
      if !ok {
        return Some(PeerLoop.Failed);
      }
      exit := GoOn(input.sentNext);
    }

    /** A piece message for any piece. */
    method OnBlock(index: int, begin: int, block: Bytes, input: PeerLoop.Input) returns (exit: Option<PeerLoop.Exit>)
      requires Valid() && |input.io| == |manager.storage.files|
      modifies this`currentPiece, this`received, this`expectedBegin, this`expectedLength, this`asked, this`deadlineArmed
      modifies this`outgoing, manager`pieces, manager`updates, manager.updates, manager.storage`disk
      ensures Valid() && manager.Config() == old(manager.Config())
      ensures manager.updates == old(manager.updates) || fresh(manager.updates)
      ensures PeerLoop.Outcome(View(), exit)
           == PeerLoop.OnBlock(manager.Config(), manager.storage.closed, old(View()),
                               Wire.Block(index, begin, block), input)
    {
      PeerLoop.OnBlockKeeps(manager.Config(), manager.storage.closed, View(), Wire.Block(index, begin, block), input);
      if currentPiece.None? || index != currentPiece.value.index {
        return None;
      }
      if begin != expectedBegin || |block| != expectedLength || |received| + |block| > currentPiece.value.length {
        ReleaseCurrent();
        return Some(PeerLoop.Failed);
      }
      exit := OnExpectedBlock(Wire.Block(index, begin, block), input);
    }

    /** The block that was asked for: on to the next one, or the piece is whole. */
    method OnExpectedBlock(block: Wire.Block, input: PeerLoop.Input) returns (exit: Option<PeerLoop.Exit>)
      requires Valid() && |input.io| == |manager.storage.files|
      requires ForCurrent(State(), block.index) && Expected(State(), block.begin, block.data)
      modifies this`currentPiece, this`received, this`expectedBegin, this`expectedLength, this`asked, this`deadlineArmed
      modifies this`outgoing, manager`pieces, manager`updates, manager.updates, manager.storage`disk
      ensures manager.Valid() && manager.Config() == old(manager.Config())
      ensures manager.updates == old(manager.updates) || fresh(manager.updates)
      ensures PeerLoop.Outcome(View(), exit)
           == PeerLoop.OnBlock(manager.Config(), manager.storage.closed, old(View()), block, input)
    {
      PeerLoop.AfterExpected(manager.Config(), View(), block);
      deadlineArmed := false;
      received := received + block.data;
      if |received| < currentPiece.value.length {
        exit := RequestOrRelease(input.sent);
      } else {
        exit := OnWholePiece(input);
      }
    }

    method OnBitfield(payload: Bytes, sent: bool) returns (exit: Option<PeerLoop.Exit>)
      requires Valid()
      modifies this, manager`pieces, manager`updates, manager.updates
      ensures Valid() && manager.Config() == old(manager.Config())
      ensures manager.updates == old(manager.updates) || fresh(manager.updates)
      ensures PeerLoop.Outcome(View(), exit)
           == if !Bitfields.Accepted(payload, |manager.pieces|)
              then PeerLoop.Outcome(old(View()), Some(PeerLoop.Failed))
              else PeerLoop.Asked(manager.Config(), old(View()),
                                  Swarm.HasPieces(Bitfields.Bits(payload, |manager.pieces|)), sent)
    {
      var parsed := Bitfields.ParseBitfield(payload, |manager.pieces|);
      if parsed.Failure? {
        return Some(PeerLoop.Failed);
      }
      peerBitfield := parsed.value;
      exit := RequestNextPiece(sent);
    }

    method OnHave(payload: Bytes, sent: bool) returns (exit: Option<PeerLoop.Exit>)
      requires Valid()
      modifies this, manager`pieces, manager`updates, manager.updates
      ensures Valid() && manager.Config() == old(manager.Config())
      ensures manager.updates == old(manager.updates) || fresh(manager.updates)
      ensures PeerLoop.Outcome(View(), exit)
           == match Wire.ParseHave(payload)
              case Failure => PeerLoop.Outcome(old(View()), Some(PeerLoop.Failed))
              case Success(index) =>
                if index >= |old(peerBitfield)| then PeerLoop.Outcome(old(View()), Some(PeerLoop.Failed))
                else PeerLoop.Asked(manager.Config(), old(View()), Swarm.HasPiece(index), sent)
    {
      var index := Wire.ParseHave(payload);
      if index.Failure? {
        return Some(PeerLoop.Failed);
      }
      var updated := Bitfields.SetPiece(peerBitfield, index.value);
      if updated.Failure? {
        return Some(PeerLoop.Failed);
      }
      peerBitfield := updated.value;
      exit := RequestNextPiece(sent);
    }

    method Unchoke(sent: bool) returns (exit: Option<PeerLoop.Exit>)
      requires Valid()
      modifies this, manager`pieces, manager`updates, manager.updates
      ensures Valid() && manager.Config() == old(manager.Config())
      ensures manager.updates == old(manager.updates) || fresh(manager.updates)
      ensures PeerLoop.Outcome(View(), exit) == PeerLoop.Asked(manager.Config(), old(View()), Swarm.Unchoked, sent)
    {
      unchoked := true;
      exit := RequestNextPiece(sent);
    }

    method Choke()
      requires Valid()
      modifies this, manager`pieces, manager`updates, manager.updates
      ensures Valid() && manager.Config() == old(manager.Config())
      ensures manager.updates == old(manager.updates) || fresh(manager.updates)
      ensures View() == PeerLoop.LetGo(old(View().(worker := State().(unchoked := false))))
    {
      unchoked := false;
      PeerLoop.LetGoKeeps(manager.Config(), View());
      ReleaseCurrent();
    }

    method HandleMessage(message: Wire.Message, input: PeerLoop.Input) returns (exit: Option<PeerLoop.Exit>)
      requires Valid() && |input.io| == |manager.storage.files|
      modifies this, manager`pieces, manager`updates, manager.updates, manager.storage`disk
      ensures Valid() && manager.Config() == old(manager.Config())
      ensures manager.updates == old(manager.updates) || fresh(manager.updates)
      ensures PeerLoop.Outcome(View(), exit)
           == PeerLoop.OnMessage(manager.Config(), manager.storage.closed, old(View()), message, input)
    {
      exit := None;
      if message.KeepAlive? {
        return;
      }
      if message.id == Wire.MSG_BITFIELD {
        exit := OnBitfield(message.payload, input.sent);
      } else if message.id == Wire.MSG_HAVE {
        exit := OnHave(message.payload, input.sent);
      } else if message.id == Wire.MSG_CHOKE {
        Choke();
      } else if message.id == Wire.MSG_UNCHOKE {
        exit := Unchoke(input.sent);
      } else if message.id == Wire.MSG_PIECE {
        var piece := Wire.ParsePiece(message.payload);
        if piece.Failure? {
          return Some(PeerLoop.Failed);
        }
        exit := OnBlock(piece.value.index, piece.value.begin, piece.value.data, input);
      }
    }

    method HandleEvent(input: PeerLoop.Input) returns (exit: Option<PeerLoop.Exit>)
      requires Valid() && |input.io| == |manager.storage.files|
      modifies this, manager`pieces, manager`updates, manager.updates, manager.storage`disk
      ensures Valid() && manager.Config() == old(manager.Config())
      ensures manager.updates == old(manager.updates) || fresh(manager.updates)
      ensures PeerLoop.Outcome(View(), exit)
           == PeerLoop.Handle(manager.Config(), manager.storage.closed, old(View()), input)
    {
      exit := None;
      match input.event
      case Cancelled => exit := Some(PeerLoop.Failed);
      case DeadlineFired =>
        // only an armed deadline can fire
        if deadlineArmed {
          PeerLoop.LetGoKeeps(manager.Config(), View());
          ReleaseCurrent();
          exit := Some(PeerLoop.Failed);
        }
      case Updated => exit := GoOn(input.sent);
      case ReadFailed => exit := Some(PeerLoop.Failed);
      case ErrorsClosed =>
      case MessagesClosed =>
      case Received(message) => exit := HandleMessage(message, input);
    }

    /** The event loop; when the inputs end the context is cancelled. */
    method EventLoop(inputs: seq<PeerLoop.Input>) returns (exit: PeerLoop.Exit)
      requires Valid() && PeerLoop.InputsFit(manager.Config(), inputs)
      modifies this, manager`pieces, manager`updates, manager.updates, manager.storage`disk
      ensures Valid() && manager.Config() == old(manager.Config())
      ensures manager.updates == old(manager.updates) || fresh(manager.updates)
      ensures PeerLoop.Outcome(View(), Some(exit))
           == PeerLoop.Loop(manager.Config(), manager.storage.closed, old(View()), inputs, true, true)
    {
      var k, messagesOpen, errorsOpen := 0, true, true;
      while messagesOpen || errorsOpen
        invariant k <= |inputs| && Valid() && manager.Config() == old(manager.Config())
        invariant manager.updates == old(manager.updates) || fresh(manager.updates)
        invariant PeerLoop.Loop(manager.Config(), manager.storage.closed, old(View()), inputs, true, true)
               == PeerLoop.Loop(manager.Config(), manager.storage.closed, View(), inputs[k..], messagesOpen, errorsOpen)
        decreases |inputs| - k
      {
        if k == |inputs| {
          return PeerLoop.Failed;
        }
        var result := HandleEvent(inputs[k]);
        if result.Some? {
          return result.value;
        }
        messagesOpen := messagesOpen && !inputs[k].event.MessagesClosed?;
        errorsOpen := errorsOpen && !inputs[k].event.ErrorsClosed?;
        assert inputs[k..][1..] == inputs[k + 1..];
        k := k + 1;
      }
      var complete := manager.IsComplete();
      exit := if complete then PeerLoop.Finished else PeerLoop.Failed;
    }

    /** The whole function: nothing happens unless the interested message can be sent;
        after it the loop, and at the end whatever is still held is released. */
    method RunClient(interested: bool, inputs: seq<PeerLoop.Input>) returns (exit: PeerLoop.Exit)
      requires Valid() && currentPiece.None? && PeerLoop.InputsFit(manager.Config(), inputs)
      modifies this, manager`pieces, manager`updates, manager.updates, manager.storage`disk
      ensures Valid() && manager.Config() == old(manager.Config()) && currentPiece.None?
      ensures !interested ==> exit == PeerLoop.Failed && View() == old(View())
      ensures interested ==>
        PeerLoop.Outcome(View(), Some(exit))
          == PeerLoop.Client(manager.Config(), manager.storage.closed, PeerLoop.Interested(old(View())), inputs)
      ensures forall i :: 0 <= i < |manager.pieces| && old(States(manager.pieces))[i] != Missing ==>
        && States(manager.pieces)[i] == old(States(manager.pieces))[i]
        && Protocol.Slice(manager.Config(), manager.storage.disk, i)
           == Protocol.Slice(manager.Config(), old(manager.storage.disk), i)
      ensures forall i :: 0 <= i < |manager.pieces| && old(States(manager.pieces))[i] == Missing ==>
        || States(manager.pieces)[i] == Missing
        || (States(manager.pieces)[i] == Complete && Protocol.Verified(manager.Config(), manager.storage.disk, i))
      ensures exit.Finished? ==> AllComplete(States(manager.pieces))
    {
      if !interested {
        return PeerLoop.Failed;
      }
      outgoing := outgoing + [Wire.Message(Wire.MSG_INTERESTED, [])];
      PeerLoop.ClientKeeps(manager.Config(), manager.storage.closed, View(), inputs);
      exit := EventLoop(inputs);
      PeerLoop.LetGoKeeps(manager.Config(), View());
      ReleaseCurrent();
    }
  }
}
