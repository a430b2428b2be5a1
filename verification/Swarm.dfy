/** Any number of workers downloading through one piece manager. The manager and the
    disk are a Protocol state, changed only by Protocol steps; each step below is one
    worker's local work around at most one lock-protected section. */
module Swarm {
  import opened ByteStrings
  import opened Storage
  import opened Pieces
  import opened Workers
  import Protocol

  datatype Mode =
    | Running       // in the event loop
    | Completing    // inside CompletePiece
    | Stopping      // returning; the deferred release has not run yet
    | Stopped

  datatype Peer = Peer(worker: Worker, mode: Mode)

  datatype System = System(core: Protocol.State, peers: map<nat, Peer>)

  /** What an event changes before the worker tries to reserve a piece. */
  datatype Change = Unchoked | HasPieces(bitfield: seq<bool>) | HasPiece(index: nat) | Nothing

  datatype Event =
    | Join(id: nat)
    | Ask(id: nat, change: Change, sent: bool)      // unchoke, bitfield, have, wake-up, or after a finished piece
    | Choke(id: nat)
    | BlockArrived(id: nat, index: int, begin: int, block: Bytes, sent: bool)
    | Check(id: nat)
    | StartWrite(id: nat)
    | WriteOneFile(id: nat, io: IoOutcome)
    | EndWrite(id: nat)
    | Return(id: nat)                                   // CompletePiece publishes or resets, and returns
    | Stop(id: nat)                                     // timeout, cancellation, read error, refused message, end
    | Release(id: nat)                                  // the deferred releaseCurrent
    | ObserveComplete
    | CompleteStorage(renamed: bool)
    | CloseStorage

  function Changed(w: Worker, change: Change): Worker {
    match change
    case Unchoked => w.(unchoked := true)
    case HasPieces(bitfield) => w.(bitfield := bitfield)
    case HasPiece(index) => if index < |w.bitfield| then w.(bitfield := w.bitfield[index := true]) else w
    case Nothing => w
  }

  predicate InMode(sys: System, id: nat, mode: Mode) {
    id in sys.peers && sys.peers[id].mode == mode
  }

  /** The protocol step inside an event, if it has one. */
  function CoreStep(sys: System, event: Event): Option<Protocol.Step> {
    match event
    case Join(_) => None
    case Ask(id, change, sent) =>
      if InMode(sys, id, Running) && WantsPiece(Changed(sys.peers[id].worker, change))
      then Some(Protocol.Reserve(Changed(sys.peers[id].worker, change).bitfield)) else None
    case Choke(id) =>
      if InMode(sys, id, Running) && sys.peers[id].worker.current.Some?
      then Some(Protocol.MarkFailed(sys.peers[id].worker.current.value.index)) else None
    case BlockArrived(id, index, begin, block, sent) =>
      if InMode(sys, id, Running) && Finishes(sys.peers[id].worker, index, begin, block)
      then Some(Protocol.Begin(id, index, sys.peers[id].worker.received + block)) else None
    case Check(id) => if InMode(sys, id, Completing) then Some(Protocol.Check(id)) else None
    case StartWrite(id) => if InMode(sys, id, Completing) then Some(Protocol.StartWrite(id)) else None
    case WriteOneFile(id, io) => if InMode(sys, id, Completing) then Some(Protocol.WriteOneFile(id, io)) else None
    case EndWrite(id) => if InMode(sys, id, Completing) then Some(Protocol.EndWrite(id)) else None
    case Return(id) =>
      if !InMode(sys, id, Completing) then None
      else if Protocol.InPhase(sys.core, id, Protocol.Written) then Some(Protocol.Publish(id))
      else if Protocol.InPhase(sys.core, id, Protocol.Failed) then Some(Protocol.Reset(id))
      else None
    case Stop(_) => None
    case Release(id) =>
      if InMode(sys, id, Stopping) && sys.peers[id].worker.current.Some?
      then Some(Protocol.MarkFailed(sys.peers[id].worker.current.value.index)) else None
    case ObserveComplete => Some(Protocol.ObserveComplete)
    case CompleteStorage(renamed) => Some(Protocol.CompleteStorage(renamed))
    case CloseStorage => Some(Protocol.CloseStorage)
  }

  predicate Finishes(w: Worker, index: int, begin: int, block: Bytes) {
    ForCurrent(w, index) && Expected(w, begin, block) && |w.received| + |block| >= w.current.value.length
  }

  /** What the event does to the worker that handles it. */
  function LocalStep(c: Protocol.Config, sys: System, event: Event): map<nat, Peer> {
    match event
    case Join(id) => if id in sys.peers then sys.peers else sys.peers[id := Peer(Fresh(|c.hashes|), Running)]
    case Ask(id, change, sent) =>
      if !InMode(sys, id, Running) then sys.peers
      else sys.peers[id := Requested(c, sys.core.pieces, Changed(sys.peers[id].worker, change), sent)]
    case Choke(id) =>
      if !InMode(sys, id, Running) then sys.peers
      else sys.peers[id := Peer(Released(sys.peers[id].worker.(unchoked := false)), Running)]
    case BlockArrived(id, index, begin, block, sent) =>
      if !InMode(sys, id, Running) then sys.peers
      else sys.peers[id := WithBlock(sys.peers[id].worker, index, begin, block, sent)]
    case Return(id) =>
      if !InMode(sys, id, Completing) then sys.peers
      else if Protocol.InPhase(sys.core, id, Protocol.Written) then sys.peers[id := sys.peers[id].(mode := Running)]
      else if Protocol.InPhase(sys.core, id, Protocol.Failed) then sys.peers[id := sys.peers[id].(mode := Stopping)]
      else sys.peers
    case Stop(id) => if InMode(sys, id, Running) then sys.peers[id := sys.peers[id].(mode := Stopping)] else sys.peers
    case Release(id) =>
      if InMode(sys, id, Stopping) then sys.peers[id := Peer(Released(sys.peers[id].worker), Stopped)] else sys.peers
    case _ => sys.peers
  }

  /** requestNextPiece: a request that cannot be sent ends the worker, which still holds the piece. */
  function Requested(c: Protocol.Config, pieces: seq<PieceState>, w: Worker, sent: bool): Peer {
    var pick := Protocol.FirstAvailable(pieces, w.bitfield, 0);
    if !WantsPiece(w) || pick.None? || pick.value >= |c.hashes| then Peer(w, Running)
    else Peer(Taking(w, Protocol.PieceAt(c, pick.value), sent), if sent then Running else Stopping)
  }

  /** The handling of a piece message: late blocks are ignored, wrong ones end the worker. */
  function WithBlock(w: Worker, index: int, begin: int, block: Bytes, sent: bool): Peer {
    if !ForCurrent(w, index) then Peer(w, Running)
    else if !Expected(w, begin, block) then Peer(w, Stopping)
    else
      var t := Receiving(w, block);
      if |t.received| < w.current.value.length then Peer(Asking(t, sent), if sent then Running else Stopping)
      else Peer(HandingOver(t), Completing)
  }

  function Apply(c: Protocol.Config, sys: System, event: Event): System
    requires Laid(c.spans, sys.core.disk)
  {
    var step := CoreStep(sys, event);
    System(if step.Some? then Protocol.Apply(c, sys.core, step.value) else sys.core, LocalStep(c, sys, event))
  }

  // ----- The invariant -----

  predicate Holds(peers: map<nat, Peer>, id: nat, i: int) {
    id in peers && peers[id].worker.current.Some? && peers[id].worker.current.value.index == i
  }

  /** Downloading pieces and the workers' current pieces are in bijection. */
  ghost predicate Owned(c: Protocol.Config, pieces: seq<PieceState>, peers: map<nat, Peer>) {
    && (forall id, i :: Holds(peers, id, i) ==>
          && Protocol.IsState(pieces, i, Downloading) && i < |c.hashes|
          && peers[id].worker.current.value == Protocol.PieceAt(c, i))
    && (forall a, b, i :: Holds(peers, a, i) && Holds(peers, b, i) ==> a == b)
    && (forall i :: Protocol.IsState(pieces, i, Downloading) ==> exists id :: Holds(peers, id, i))
  }

  /** What one worker looks like in each mode. */
  predicate PeerOk(c: Protocol.Config, calls: map<nat, Protocol.Call>, id: nat, peer: Peer) {
    && (peer.worker.current.Some? ==> peer.mode.Running? || peer.mode.Stopping?)
    && (peer.mode.Running? ==> LocalOk(peer.worker))
    && (peer.mode.Completing? <==> id in calls)
    && (peer.mode.Completing? ==> Idle(peer.worker) && |calls[id].data| == c.Size(calls[id].index))
  }

  ghost predicate PeersOk(c: Protocol.Config, calls: map<nat, Protocol.Call>, peers: map<nat, Peer>) {
    (forall id :: id in peers ==> PeerOk(c, calls, id, peers[id])) && calls.Keys <= peers.Keys
  }

  ghost predicate Inv(c: Protocol.Config, sys: System) {
    Protocol.Inv(c, sys.core) && Owned(c, sys.core.pieces, sys.peers) && PeersOk(c, sys.core.calls, sys.peers)
  }
}
