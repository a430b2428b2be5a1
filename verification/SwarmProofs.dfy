/** Ownership of pieces by workers, over every run of the swarm. */
module SwarmProofs {
  import opened ByteStrings
  import opened Storage
  import opened Pieces
  import opened Workers
  import opened Swarm
  import Protocol

  // ----- One peer changes, and with it at most the state of one piece -----

  lemma OwnedUnlessTouched(c: Protocol.Config, pieces: seq<PieceState>, now: seq<PieceState>, peers: map<nat, Peer>,
                           id: nat, peer: Peer)
    requires Owned(c, pieces, peers)
    requires id in peers ==> peer.worker.current == peers[id].worker.current
    requires id !in peers ==> peer.worker.current.None?
    requires forall i :: Protocol.IsState(pieces, i, Downloading) <==> Protocol.IsState(now, i, Downloading)
    ensures Owned(c, now, peers[id := peer])
  {
    var after := peers[id := peer];
    assert forall a, i :: Holds(after, a, i) <==> Holds(peers, a, i);
    forall i | Protocol.IsState(now, i, Downloading) ensures exists a :: Holds(after, a, i) {
      var a :| Holds(peers, a, i);
      assert Holds(after, a, i);
    }
  }

  lemma OwnedAfterTaking(c: Protocol.Config, pieces: seq<PieceState>, peers: map<nat, Peer>, id: nat, i: nat,
                         peer: Peer)
    requires Owned(c, pieces, peers) && id in peers && peers[id].worker.current.None?
    requires i < |pieces| == |c.hashes| && pieces[i] != Downloading
    requires peer.worker.current == Some(Protocol.PieceAt(c, i))
    ensures Owned(c, pieces[i := Downloading], peers[id := peer])
  {
    var after, now := peers[id := peer], pieces[i := Downloading];
    assert Holds(after, id, i);
    forall a, k | Holds(after, a, k)
      ensures Protocol.IsState(now, k, Downloading) && (a == id <==> k == i)
      ensures k < |c.hashes| && after[a].worker.current.value == Protocol.PieceAt(c, k)
    {
      if a != id {
        assert Holds(peers, a, k);
      }
    }
    forall a, b, k | Holds(after, a, k) && Holds(after, b, k) ensures a == b {
      if k != i {
        assert Holds(peers, a, k) && Holds(peers, b, k);
      }
    }
    forall k | Protocol.IsState(now, k, Downloading) ensures exists a :: Holds(after, a, k) {
      if k != i {
        assert Protocol.IsState(pieces, k, Downloading);
        var a :| Holds(peers, a, k);
        assert Holds(after, a, k);
      }
    }
  }

  lemma OwnedAfterLettingGo(c: Protocol.Config, pieces: seq<PieceState>, peers: map<nat, Peer>, id: nat, i: nat,
                            state: PieceState, peer: Peer)
    requires Owned(c, pieces, peers) && Holds(peers, id, i) && i < |pieces|
    requires state != Downloading && peer.worker.current.None?
    ensures Owned(c, pieces[i := state], peers[id := peer])
  {
    var after, now := peers[id := peer], pieces[i := state];
    forall a, k | Holds(after, a, k)
      ensures Holds(peers, a, k) && k != i && Protocol.IsState(now, k, Downloading)
    {
      assert a != id && Holds(peers, a, k);
    }
    forall k | Protocol.IsState(now, k, Downloading) ensures exists a :: Holds(after, a, k) {
      assert Protocol.IsState(pieces, k, Downloading);
      var a :| Holds(peers, a, k);
      assert Holds(after, a, k);
    }
  }

  lemma PeersOkAfter(c: Protocol.Config, calls: map<nat, Protocol.Call>, now: map<nat, Protocol.Call>,
                     peers: map<nat, Peer>, id: nat, peer: Peer)
    requires PeersOk(c, calls, peers) && PeerOk(c, now, id, peer)
    requires now.Keys <= calls.Keys + {id}
    requires forall a :: a in peers && a != id ==>
      (a in calls <==> a in now) && (a in now ==> now[a].data == calls[a].data && now[a].index == calls[a].index)
    ensures PeersOk(c, now, peers[id := peer])
  {
    var after := peers[id := peer];
    forall a | a in after ensures PeerOk(c, now, a, after[a]) {
      if a != id {
        assert PeerOk(c, calls, a, peers[a]);
      }
    }
  }

  // ----- Every event keeps the invariant -----

  lemma JoinKeepsInv(c: Protocol.Config, sys: System, id: nat)
    requires Inv(c, sys)
    ensures Inv(c, Apply(c, sys, Join(id)))
  {
    if id !in sys.peers {
      var peer := Peer(Fresh(|c.hashes|), Running);
      OwnedUnlessTouched(c, sys.core.pieces, sys.core.pieces, sys.peers, id, peer);
      PeersOkAfter(c, sys.core.calls, sys.core.calls, sys.peers, id, peer);
    }
  }

  lemma AskKeepsInv(c: Protocol.Config, sys: System, id: nat, change: Change, sent: bool)
    requires Inv(c, sys) && InMode(sys, id, Running)
    ensures Inv(c, Apply(c, sys, Ask(id, change, sent)))
  {
    var was := sys.peers[id];
    assert PeerOk(c, sys.core.calls, id, was);
    var w := Changed(was.worker, change);
    var peer := Requested(c, sys.core.pieces, w, sent);
    var pick := Protocol.FirstAvailable(sys.core.pieces, w.bitfield, 0);
    if WantsPiece(w) {
      Protocol.StepKeepsInv(c, sys.core, Protocol.Reserve(w.bitfield));
    }
    if WantsPiece(w) && pick.Some? {
      TakingPiece(c, w, pick.value, sent);
      OwnedAfterTaking(c, sys.core.pieces, sys.peers, id, pick.value, peer);
    } else {
      OwnedUnlessTouched(c, sys.core.pieces, sys.core.pieces, sys.peers, id, peer);
    }
    PeersOkAfter(c, sys.core.calls, sys.core.calls, sys.peers, id, peer);
  }

  lemma TakingPiece(c: Protocol.Config, w: Worker, i: nat, sent: bool)
    requires c.Valid() && w.unchoked && i < |c.hashes|
    ensures Outstanding(Taking(w, Protocol.PieceAt(c, i), sent))
  {
    PieceExtent(c.total, c.pieceLength, i);
    TakingIsOutstanding(w, Protocol.PieceAt(c, i), sent);
  }

  /** Choking, and the deferred release of a worker that stops. */
  lemma LettingGoKeepsInv(c: Protocol.Config, sys: System, id: nat, peer: Peer)
    requires Inv(c, sys) && id in sys.peers && !sys.peers[id].mode.Completing? && !peer.mode.Completing?
    requires Idle(peer.worker)
    ensures var i := sys.peers[id].worker.current;
      var core := if i.Some? then Protocol.Apply(c, sys.core, Protocol.MarkFailed(i.value.index)) else sys.core;
      Inv(c, System(core, sys.peers[id := peer]))
  {
    var was := sys.peers[id];
    assert PeerOk(c, sys.core.calls, id, was);
    if was.worker.current.Some? {
      var i := was.worker.current.value.index;
      assert Holds(sys.peers, id, i);
      Protocol.StepKeepsInv(c, sys.core, Protocol.MarkFailed(i));
      OwnedAfterLettingGo(c, sys.core.pieces, sys.peers, id, i, Missing, peer);
    } else {
      OwnedUnlessTouched(c, sys.core.pieces, sys.core.pieces, sys.peers, id, peer);
    }
    PeersOkAfter(c, sys.core.calls, sys.core.calls, sys.peers, id, peer);
  }

  lemma BlockKeepsInv(c: Protocol.Config, sys: System, id: nat, index: int, begin: int, block: Bytes, sent: bool)
    requires Inv(c, sys) && InMode(sys, id, Running)
    ensures Inv(c, Apply(c, sys, BlockArrived(id, index, begin, block, sent)))
  {
    var w := sys.peers[id].worker;
    assert PeerOk(c, sys.core.calls, id, sys.peers[id]);
    var peer := WithBlock(w, index, begin, block, sent);
    if ForCurrent(w, index) && Expected(w, begin, block) {
      BlockAdvances(w, begin, block, sent);
    }
    if Finishes(w, index, begin, block) {
      LastBlockKeepsInv(c, sys, id, index, begin, block, peer);
    } else {
      OwnedUnlessTouched(c, sys.core.pieces, sys.core.pieces, sys.peers, id, peer);
      PeersOkAfter(c, sys.core.calls, sys.core.calls, sys.peers, id, peer);
    }
  }

  /** The last block: CompletePiece finds the piece still reserved and gets exactly its length. */
  lemma LastBlockKeepsInv(c: Protocol.Config, sys: System, id: nat, index: int, begin: int, block: Bytes, peer: Peer)
    requires Inv(c, sys) && InMode(sys, id, Running)
    requires Finishes(sys.peers[id].worker, index, begin, block)
    requires peer == Peer(HandingOver(Receiving(sys.peers[id].worker, block)), Completing)
    ensures var w := sys.peers[id].worker;
      var core := Protocol.Apply(c, sys.core, Protocol.Begin(id, index, w.received + block));
      && Inv(c, System(core, sys.peers[id := peer]))
      && id in core.calls && core.calls[id].index == index && |core.calls[id].data| == c.Size(index)
  {
    var w := sys.peers[id].worker;
    assert PeerOk(c, sys.core.calls, id, sys.peers[id]) && Holds(sys.peers, id, index);
    var step := Protocol.Begin(id, index, w.received + block);
    Protocol.StepKeepsInv(c, sys.core, step);
    BlockAdvances(w, begin, block, true);
    OwnedAfterLettingGo(c, sys.core.pieces, sys.peers, id, index, Verifying, peer);
    PeersOkAfter(c, sys.core.calls, Protocol.Apply(c, sys.core, step).calls, sys.peers, id, peer);
  }

  predicate Quiet(step: Protocol.Step) {
    step.Check? || step.StartWrite? || step.WriteOneFile? || step.EndWrite?
    || step.ObserveComplete? || step.CompleteStorage? || step.CloseStorage?
  }

  /** The same calls for the same data. */
  ghost predicate SameCalls(core: Protocol.State, now: Protocol.State) {
    && now.pieces == core.pieces && now.calls.Keys == core.calls.Keys
    && forall id :: id in core.calls ==>
         now.calls[id].data == core.calls[id].data && now.calls[id].index == core.calls[id].index
  }

  lemma MoveKeepsCalls(core: Protocol.State, id: nat, phase: Protocol.Phase, disk: Disk)
    requires id in core.calls
    ensures SameCalls(core, Protocol.MoveTo(core.(disk := disk), id, phase))
  {
  }

  lemma QuietKeepsCalls(c: Protocol.Config, core: Protocol.State, step: Protocol.Step)
    requires Laid(c.spans, core.disk) && Quiet(step)
    ensures SameCalls(core, Protocol.Apply(c, core, step))
  {
    var now := Protocol.Apply(c, core, step);
    if (step.Check? || step.StartWrite? || step.WriteOneFile? || step.EndWrite?) && step.caller in core.calls {
      if now != core {
        MoveKeepsCalls(core, step.caller, now.calls[step.caller].phase, now.disk);
      }
    }
  }

  /** Steps inside CompletePiece and steps of Finalize and Close leave pieces and ownership alone. */
  lemma QuietKeepsInv(c: Protocol.Config, sys: System, step: Protocol.Step)
    requires Inv(c, sys) && Quiet(step)
    ensures Inv(c, System(Protocol.Apply(c, sys.core, step), sys.peers))
  {
    Protocol.StepKeepsInv(c, sys.core, step);
    QuietKeepsCalls(c, sys.core, step);
    QuietKeepsPeers(c, sys.core.calls, Protocol.Apply(c, sys.core, step).calls, sys.peers);
  }

  lemma QuietKeepsPeers(c: Protocol.Config, calls: map<nat, Protocol.Call>, now: map<nat, Protocol.Call>,
                        peers: map<nat, Peer>)
    requires PeersOk(c, calls, peers) && now.Keys == calls.Keys
    requires forall id :: id in calls ==> now[id].data == calls[id].data && now[id].index == calls[id].index
    ensures PeersOk(c, now, peers)
  {
    forall id | id in peers ensures PeerOk(c, now, id, peers[id]) {
      assert PeerOk(c, calls, id, peers[id]);
    }
  }

  /** Publish and Reset end one call and set its piece, which was Verifying. */
  lemma ReturnEffect(c: Protocol.Config, core: Protocol.State, id: nat, step: Protocol.Step)
    requires Laid(c.spans, core.disk) && id in core.calls
    requires Protocol.IsState(core.pieces, core.calls[id].index, Verifying)
    requires (step == Protocol.Publish(id) && Protocol.InPhase(core, id, Protocol.Written))
          || (step == Protocol.Reset(id) && Protocol.InPhase(core, id, Protocol.Failed))
    ensures var now := Protocol.Apply(c, core, step);
      && now.calls == core.calls - {id}
      && forall i :: Protocol.IsState(core.pieces, i, Downloading) <==> Protocol.IsState(now.pieces, i, Downloading)
  {
  }

  /** What the last section of a call does, given that its owner returns with it. */
  lemma ReturnedInv(c: Protocol.Config, sys: System, id: nat, step: Protocol.Step, mode: Mode)
    requires Inv(c, sys) && InMode(sys, id, Completing) && mode in {Running, Stopping}
    requires (step == Protocol.Publish(id) && Protocol.InPhase(sys.core, id, Protocol.Written))
          || (step == Protocol.Reset(id) && Protocol.InPhase(sys.core, id, Protocol.Failed))
    ensures Inv(c, System(Protocol.Apply(c, sys.core, step), sys.peers[id := sys.peers[id].(mode := mode)]))
  {
    assert PeerOk(c, sys.core.calls, id, sys.peers[id]);
    assert Protocol.IsState(sys.core.pieces, sys.core.calls[id].index, Verifying);
    var core, peer := Protocol.Apply(c, sys.core, step), sys.peers[id].(mode := mode);
    Protocol.StepKeepsInv(c, sys.core, step);
    ReturnEffect(c, sys.core, id, step);
    OwnedUnlessTouched(c, sys.core.pieces, core.pieces, sys.peers, id, peer);
    PeersOkAfter(c, sys.core.calls, core.calls, sys.peers, id, peer);
  }

  lemma ReturnKeepsInv(c: Protocol.Config, sys: System, id: nat)
    requires Inv(c, sys) && InMode(sys, id, Completing)
    ensures Inv(c, Apply(c, sys, Return(id)))
  {
    if Protocol.InPhase(sys.core, id, Protocol.Written) {
      ReturnedInv(c, sys, id, Protocol.Publish(id), Running);
    } else if Protocol.InPhase(sys.core, id, Protocol.Failed) {
      ReturnedInv(c, sys, id, Protocol.Reset(id), Stopping);
    }
  }

  lemma StopKeepsInv(c: Protocol.Config, sys: System, id: nat)
    requires Inv(c, sys) && InMode(sys, id, Running)
    ensures Inv(c, Apply(c, sys, Stop(id)))
  {
    assert PeerOk(c, sys.core.calls, id, sys.peers[id]);
    var peer := sys.peers[id].(mode := Stopping);
    OwnedUnlessTouched(c, sys.core.pieces, sys.core.pieces, sys.peers, id, peer);
    PeersOkAfter(c, sys.core.calls, sys.core.calls, sys.peers, id, peer);
  }

  lemma EventKeepsInv(c: Protocol.Config, sys: System, event: Event)
    requires Inv(c, sys)
    ensures Inv(c, Apply(c, sys, event))
  {
    match event
    case Join(id) => JoinKeepsInv(c, sys, id);
    case Ask(id, change, sent) =>
      if InMode(sys, id, Running) {
        AskKeepsInv(c, sys, id, change, sent);
      }
    case Choke(id) =>
      if InMode(sys, id, Running) {
        LettingGoKeepsInv(c, sys, id, Peer(Released(sys.peers[id].worker.(unchoked := false)), Running));
      }
    case BlockArrived(id, index, begin, block, sent) =>
      if InMode(sys, id, Running) {
        BlockKeepsInv(c, sys, id, index, begin, block, sent);
      }
    case Return(id) =>
      if InMode(sys, id, Completing) {
        ReturnKeepsInv(c, sys, id);
      }
    case Stop(id) =>
      if InMode(sys, id, Running) {
        StopKeepsInv(c, sys, id);
      }
    case Release(id) =>
      if InMode(sys, id, Stopping) {
        LettingGoKeepsInv(c, sys, id, Peer(Released(sys.peers[id].worker), Stopped));
      }
    case _ =>
      if CoreStep(sys, event).Some? {
        QuietKeepsInv(c, sys, CoreStep(sys, event).value);
      }
  }

  // ----- Runs -----

  function Run(c: Protocol.Config, sys: System, events: seq<Event>): (r: System)
    requires Inv(c, sys)
    ensures Inv(c, r)
    decreases |events|
  {
    if events == [] then sys
    else
      EventKeepsInv(c, sys, events[0]);
      Run(c, Apply(c, sys, events[0]), events[1..])
  }

  lemma StartSatisfiesInv(c: Protocol.Config, disk: Disk)
    requires c.Valid() && Laid(c.spans, disk)
    ensures Inv(c, System(Protocol.Start(c, disk), map[]))
  {
    Protocol.StartSatisfiesInv(c, disk);
  }

  /** The protocol steps a run of the swarm performs. */
  function CoreSteps(c: Protocol.Config, sys: System, events: seq<Event>): seq<Protocol.Step>
    requires Inv(c, sys)
    decreases |events|
  {
    if events == [] then []
    else
      EventKeepsInv(c, sys, events[0]);
      var step, rest := CoreStep(sys, events[0]), CoreSteps(c, Apply(c, sys, events[0]), events[1..]);
      if step.Some? then [step.value] + rest else rest
  }

  /** Refinement: what a swarm does to the pieces and the disk is a run of the protocol. */
  lemma {:induction false} SwarmRefinesProtocol(c: Protocol.Config, sys: System, events: seq<Event>)
    requires Inv(c, sys)
    ensures Run(c, sys, events).core == Protocol.Run(c, sys.core, CoreSteps(c, sys, events))
    decreases |events|
  {
    if events != [] {
      EventKeepsInv(c, sys, events[0]);
      SwarmRefinesProtocol(c, Apply(c, sys, events[0]), events[1..]);
      var step, rest := CoreStep(sys, events[0]), CoreSteps(c, Apply(c, sys, events[0]), events[1..]);
      if step.Some? {
        assert ([step.value] + rest)[1..] == rest;
      }
    }
  }

  /** A piece is reserved by a worker that holds it, or by its CompletePiece call. */
  ghost predicate Reserves(sys: System, id: nat, i: nat) {
    Holds(sys.peers, id, i) || (id in sys.core.calls && sys.core.calls[id].index == i)
  }

  /** At every point of every run the reserved pieces and the workers reserving them
      are in bijection: a piece is Downloading or Verifying exactly when some worker
      holds or is completing it, that worker is unique, and it has no other piece. */
  lemma ReservationsAreOwned(c: Protocol.Config, sys: System, events: seq<Event>, i: nat)
    requires Inv(c, sys) && i < |c.hashes|
    ensures var now := Run(c, sys, events);
      && |now.core.pieces| == |c.hashes|
      && (now.core.pieces[i] in {Downloading, Verifying} <==> exists id :: Reserves(now, id, i))
      && (forall a, b :: Reserves(now, a, i) && Reserves(now, b, i) ==> a == b)
      && (forall id, k :: Reserves(now, id, i) && Reserves(now, id, k) ==> i == k)
  {
    var now := Run(c, sys, events);
    if Protocol.IsState(now.core.pieces, i, Verifying) {
      var id :| id in now.core.calls && now.core.calls[id].index == i;
      assert Reserves(now, id, i);
    }
    if Protocol.IsState(now.core.pieces, i, Downloading) {
      var id :| Holds(now.peers, id, i);
      assert Reserves(now, id, i);
    }
    forall id, k | Reserves(now, id, i) && Reserves(now, id, k) ensures i == k {
      assert id in now.core.calls ==> PeerOk(c, now.core.calls, id, now.peers[id]);
    }
  }

  /** No reservation leaks: a worker that has stopped reserves nothing, and once all
      workers have stopped every piece is Missing or Complete. */
  lemma StoppedWorkersHoldNothing(c: Protocol.Config, sys: System, events: seq<Event>)
    requires Inv(c, sys)
    ensures var now := Run(c, sys, events);
      && (forall id, i :: InMode(now, id, Stopped) ==> !Reserves(now, id, i))
      && ((forall id :: id in now.peers ==> now.peers[id].mode.Stopped?) ==>
            forall i :: 0 <= i < |now.core.pieces| ==> now.core.pieces[i] in {Missing, Complete})
  {
    var now := Run(c, sys, events);
    forall id, i | InMode(now, id, Stopped) ensures !Reserves(now, id, i) {
      assert PeerOk(c, now.core.calls, id, now.peers[id]);
    }
    if forall id :: id in now.peers ==> now.peers[id].mode.Stopped? {
      forall i | 0 <= i < |now.core.pieces| ensures now.core.pieces[i] in {Missing, Complete} {
        ReservationsAreOwned(c, sys, events, i);
      }
    }
  }

  /** While a worker waits for a block the peer is unchoked, the deadline is armed, and
      exactly the next non-empty tile of a piece reserved for it is expected; a worker
      in its loop without a piece waits for nothing. */
  lemma WaitingWorkers(c: Protocol.Config, sys: System, events: seq<Event>, id: nat)
    requires Inv(c, sys) && InMode(Run(c, sys, events), id, Running)
    ensures var now := Run(c, sys, events);
      var w := now.peers[id].worker;
      && (w.armed <==> w.current.Some?)
      && (w.armed ==>
            && w.unchoked && w.expectedBegin == |w.received|
            && 0 < w.expectedLength == Min(BLOCK_SIZE, w.current.value.length - |w.received|)
            && w.asked != [] && w.asked[|w.asked| - 1] == Request(w.expectedBegin, w.expectedLength)
            && Protocol.IsState(now.core.pieces, w.current.value.index, Downloading))
  {
    RunningWorker(c, Run(c, sys, events), id);
  }

  lemma RunningWorker(c: Protocol.Config, now: System, id: nat)
    requires Inv(c, now) && InMode(now, id, Running)
    ensures var w := now.peers[id].worker;
      && LocalOk(w)
      && (w.current.Some? ==> Protocol.IsState(now.core.pieces, w.current.value.index, Downloading))
  {
    assert PeerOk(c, now.core.calls, id, now.peers[id]);
    if now.peers[id].worker.current.Some? {
      assert Holds(now.peers, id, now.peers[id].worker.current.value.index);
    }
  }

  /** A worker's CompletePiece is never refused for a missing reservation or a wrong
      length: it fails only on the hash, on the storage being closed or on I/O. */
  lemma OnlyHashDecidesTheCheck(c: Protocol.Config, sys: System, events: seq<Event>, id: nat)
    requires Inv(c, sys) && InMode(Run(c, sys, events), id, Completing)
    ensures var core := Run(c, sys, events).core;
      && id in core.calls && core.calls[id].index < |c.hashes| && |core.calls[id].data| == c.Size(core.calls[id].index)
      && (Protocol.Checked(c, core.calls[id]) == Protocol.Opening <==>
            c.sha1(core.calls[id].data) == c.hashes[core.calls[id].index])
  {
    var now := Run(c, sys, events);
    assert PeerOk(c, now.core.calls, id, now.peers[id]);
    assert Protocol.IsState(now.core.pieces, now.core.calls[id].index, Verifying);
  }

  /** Safety of the swarm: a piece once Complete stays Complete with the same, verified bytes. */
  lemma SwarmSafety(c: Protocol.Config, sys: System, events: seq<Event>, i: nat)
    requires Inv(c, sys) && Protocol.IsState(sys.core.pieces, i, Complete)
    ensures var now := Run(c, sys, events);
      && Protocol.IsState(now.core.pieces, i, Complete)
      && Protocol.Slice(c, now.core.disk, i) == Protocol.Slice(c, sys.core.disk, i)
      && Protocol.Verified(c, now.core.disk, i)
  {
    SwarmRefinesProtocol(c, sys, events);
    Protocol.CompleteIsForever(c, sys.core, CoreSteps(c, sys, events), i);
  }
}
