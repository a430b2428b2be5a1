/** RunClient is a run of the swarm: whatever the worker object does with its local
    variables, the piece states and the disk in one turn of its loop, and in the whole
    loop, some events of the swarm do to the corresponding system. */
module WorkerRefinement {
  import opened ByteStrings
  import opened Storage
  import opened Pieces
  import opened Workers
  import opened Swarm
  import opened SwarmProofs
  import PeerLoop
  import Protocol
  import Refinement
  import Wire

  // ----- What the worker sees of a system -----

  /** Worker id of the system is in the given mode and sees what is in the view. */
  ghost predicate Shows(sys: System, id: nat, v: PeerLoop.View, mode: Mode) {
    && sys.core.pieces == v.states && sys.core.updates == v.channel && sys.core.disk == v.disk
    && id in sys.peers && sys.peers[id] == Peer(v.worker, mode)
  }

  /** Nothing but worker id, the states, the disk and the broadcast channel has changed,
      and the channels used in between have been closed. */
  ghost predicate OnlyWorker(sys: System, now: System, id: nat) {
    && id in now.peers && now.peers == sys.peers[id := now.peers[id]]
    && now.core == sys.core.(pieces := now.core.pieces, disk := now.core.disk,
                             updates := now.core.updates, closedUpdates := now.core.closedUpdates)
    && ClosedBetween(sys.core, now.core)
  }

  ghost predicate ClosedBetween(s: Protocol.State, t: Protocol.State) {
    && s.updates <= t.updates
    && forall n :: n in t.closedUpdates <==> n in s.closedUpdates || s.updates <= n < t.updates
  }

  /** From sys the events lead worker id to the view, in the given mode. */
  ghost predicate Leads(c: Protocol.Config, sys: System, id: nat, events: seq<Event>, v: PeerLoop.View, mode: Mode)
    requires Inv(c, sys)
  {
    Shows(Run(c, sys, events), id, v, mode) && OnlyWorker(sys, Run(c, sys, events), id)
  }

  lemma RunOne(c: Protocol.Config, sys: System, event: Event)
    requires Inv(c, sys)
    ensures Inv(c, Apply(c, sys, event)) && Run(c, sys, [event]) == Apply(c, sys, event)
  {
    EventKeepsInv(c, sys, event);
    assert [event][1..] == [];
  }

  lemma {:induction false} RunConcat(c: Protocol.Config, sys: System, first: seq<Event>, more: seq<Event>)
    requires Inv(c, sys)
    ensures Run(c, sys, first + more) == Run(c, Run(c, sys, first), more)
    decreases |first|
  {
    if first == [] {
      assert first + more == more;
    } else {
      EventKeepsInv(c, sys, first[0]);
      assert (first + more)[1..] == first[1..] + more;
      RunConcat(c, Apply(c, sys, first[0]), first[1..], more);
    }
  }

  lemma OnlyWorkerTwice(sys: System, mid: System, now: System, id: nat)
    requires OnlyWorker(sys, mid, id) && OnlyWorker(mid, now, id)
    ensures OnlyWorker(sys, now, id)
  {
    assert sys.peers[id := mid.peers[id]][id := now.peers[id]] == sys.peers[id := now.peers[id]];
  }

  /** One thing after another. */
  lemma LeadsOn(c: Protocol.Config, sys: System, id: nat, first: seq<Event>, v: PeerLoop.View, mode: Mode,
                more: seq<Event>, u: PeerLoop.View, end: Mode)
    requires Inv(c, sys) && Leads(c, sys, id, first, v, mode) && Leads(c, Run(c, sys, first), id, more, u, end)
    ensures Leads(c, sys, id, first + more, u, end)
  {
    RunConcat(c, sys, first, more);
    OnlyWorkerTwice(sys, Run(c, sys, first), Run(c, sys, first + more), id);
  }

  lemma StaysPut(c: Protocol.Config, sys: System, id: nat, v: PeerLoop.View, mode: Mode)
    requires Inv(c, sys) && Shows(sys, id, v, mode)
    ensures Leads(c, sys, id, [], v, mode)
  {
    assert sys.peers[id := sys.peers[id]] == sys.peers;
  }

  /** A system in order shows a view that fits. */
  lemma ShownFits(c: Protocol.Config, sys: System, id: nat, v: PeerLoop.View, mode: Mode)
    requires Inv(c, sys) && Shows(sys, id, v, mode)
    ensures PeerLoop.Fits(c, v)
    ensures v.worker.current.Some? ==> Protocol.IsState(v.states, v.worker.current.value.index, Downloading)
  {
    if v.worker.current.Some? {
      assert Holds(sys.peers, id, v.worker.current.value.index);
    }
  }

  // ----- Leaving -----

  lemma ReleaseStep(c: Protocol.Config, sys: System, id: nat, v: PeerLoop.View)
    requires Laid(c.spans, sys.core.disk) && Shows(sys, id, v, Stopping)
    ensures var now := Apply(c, sys, Release(id));
      Shows(now, id, PeerLoop.LetGo(v), Stopped) && OnlyWorker(sys, now, id)
  {
  }

  lemma Releases(c: Protocol.Config, sys: System, id: nat, v: PeerLoop.View)
    requires Inv(c, sys) && Shows(sys, id, v, Stopping)
    ensures Leads(c, sys, id, [Release(id)], PeerLoop.LetGo(v), Stopped)
  {
    RunOne(c, sys, Release(id));
    ReleaseStep(c, sys, id, v);
  }

  lemma Stops(c: Protocol.Config, sys: System, id: nat, v: PeerLoop.View)
    requires Inv(c, sys) && Shows(sys, id, v, Running)
    ensures Leads(c, sys, id, [Stop(id)], v, Stopping)
  {
    RunOne(c, sys, Stop(id));
  }

  function Leaving(id: nat): seq<Event> {
    [Stop(id)] + [Release(id)]
  }

  lemma Leaves(c: Protocol.Config, sys: System, id: nat, v: PeerLoop.View)
    requires Inv(c, sys) && Shows(sys, id, v, Running)
    ensures Leads(c, sys, id, Leaving(id), PeerLoop.LetGo(v), Stopped)
  {
    Stops(c, sys, id, v);
    Releases(c, Run(c, sys, [Stop(id)]), id, v);
    LeadsOn(c, sys, id, [Stop(id)], v, Stopping, [Release(id)], PeerLoop.LetGo(v), Stopped);
  }

  // ----- Outcomes -----

  /** From sys the events lead worker id to the outcome: on in its loop, or stopped with
      everything released. */
  ghost predicate LeadsTo(c: Protocol.Config, sys: System, id: nat, events: seq<Event>, o: PeerLoop.Outcome)
    requires Inv(c, sys)
  {
    if o.exit.None? then Leads(c, sys, id, events, o.view, Running)
    else Leads(c, sys, id, events, PeerLoop.LetGo(o.view), Stopped)
  }

  /** The release that follows when the worker has been told to stop. */
  function IfStopping(id: nat, stopping: bool): seq<Event> {
    if stopping then [Release(id)] else []
  }

  /** What has been written to the peer is no part of the system. */
  predicate SameButSent(v: PeerLoop.View, u: PeerLoop.View) {
    v.(outgoing := u.outgoing) == u
  }

  /** After a step that leaves the worker running, or stopping still with its piece. */
  lemma ThenRelease(c: Protocol.Config, sys: System, id: nat, event: Event, v: PeerLoop.View, o: PeerLoop.Outcome)
    requires Inv(c, sys) && Leads(c, sys, id, [event], v, if o.exit.None? then Running else Stopping)
    requires SameButSent(if o.exit.None? then o.view else PeerLoop.LetGo(o.view),
                         if o.exit.None? then v else PeerLoop.LetGo(v))
    ensures LeadsTo(c, sys, id, [event] + IfStopping(id, o.exit.Some?), o)
  {
    if o.exit.Some? {
      Releases(c, Run(c, sys, [event]), id, v);
      LeadsOn(c, sys, id, [event], v, Stopping, [Release(id)], PeerLoop.LetGo(v), Stopped);
    } else {
      assert [event] + [] == [event];
    }
  }

  lemma LeadsOnTo(c: Protocol.Config, sys: System, id: nat, first: seq<Event>, v: PeerLoop.View, mode: Mode,
                  more: seq<Event>, o: PeerLoop.Outcome)
    requires Inv(c, sys) && Leads(c, sys, id, first, v, mode) && LeadsTo(c, Run(c, sys, first), id, more, o)
    ensures LeadsTo(c, sys, id, first + more, o)
  {
    if o.exit.None? {
      LeadsOn(c, sys, id, first, v, mode, more, o.view, Running);
    } else {
      LeadsOn(c, sys, id, first, v, mode, more, PeerLoop.LetGo(o.view), Stopped);
    }
  }

  /** Leaving the loop with whatever is held, or with that already given up. */
  lemma LeavesWith(c: Protocol.Config, sys: System, id: nat, v: PeerLoop.View, exit: PeerLoop.Exit)
    requires Inv(c, sys) && Shows(sys, id, v, Running)
    ensures LeadsTo(c, sys, id, Leaving(id), PeerLoop.Outcome(v, Some(exit)))
    ensures LeadsTo(c, sys, id, Leaving(id), PeerLoop.Outcome(PeerLoop.LetGo(v), Some(exit)))
  {
    Leaves(c, sys, id, v);
    assert PeerLoop.LetGo(PeerLoop.LetGo(v)) == PeerLoop.LetGo(v);
  }

  // ----- Asking for a piece -----

  /** The view after the step but before a release, if one has to follow. */
  function AfterAsk(c: Protocol.Config, v: PeerLoop.View, sent: bool): PeerLoop.View
    requires |v.states| == |c.hashes|
  {
    if !PeerLoop.Takes(v) then v
    else
      var holding := PeerLoop.Holding(c, v);
      holding.(worker := Asking(holding.worker, sent))
  }

  lemma AskStep(c: Protocol.Config, sys: System, id: nat, v: PeerLoop.View, change: Change, sent: bool)
    requires Inv(c, sys) && Shows(sys, id, v, Running) && PeerLoop.Fits(c, v)
    ensures var w := v.(worker := Changed(v.worker, change));
      Leads(c, sys, id, [Ask(id, change, sent)], AfterAsk(c, w, sent),
            if PeerLoop.Takes(w) && !sent then Stopping else Running)
  {
    RunOne(c, sys, Ask(id, change, sent));
  }

  function AskEvents(c: Protocol.Config, id: nat, v: PeerLoop.View, change: Change, sent: bool): seq<Event>
    requires |v.states| == |c.hashes|
  {
    [Ask(id, change, sent)] + IfStopping(id, PeerLoop.Asked(c, v, change, sent).exit.Some?)
  }

  lemma Asks(c: Protocol.Config, sys: System, id: nat, v: PeerLoop.View, change: Change, sent: bool)
    requires Inv(c, sys) && Shows(sys, id, v, Running) && PeerLoop.Fits(c, v)
    ensures LeadsTo(c, sys, id, AskEvents(c, id, v, change, sent), PeerLoop.Asked(c, v, change, sent))
  {
    AskStep(c, sys, id, v, change, sent);
    var w := v.(worker := Changed(v.worker, change));
    ThenRelease(c, sys, id, Ask(id, change, sent), AfterAsk(c, w, sent), PeerLoop.Asked(c, v, change, sent));
  }

  function GoOnEvents(c: Protocol.Config, id: nat, v: PeerLoop.View, sent: bool): seq<Event>
    requires |v.states| == |c.hashes|
  {
    if AllComplete(v.states) then Leaving(id) else AskEvents(c, id, v, Nothing, sent)
  }

  lemma GoesOn(c: Protocol.Config, sys: System, id: nat, v: PeerLoop.View, sent: bool)
    requires Inv(c, sys) && Shows(sys, id, v, Running) && PeerLoop.Fits(c, v)
    ensures LeadsTo(c, sys, id, GoOnEvents(c, id, v, sent), PeerLoop.GoOn(c, v, sent))
  {
    if AllComplete(v.states) {
      Leaves(c, sys, id, v);
    } else {
      NothingChanges(c, v, sent);
      Asks(c, sys, id, v, Nothing, sent);
    }
  }

  lemma NothingChanges(c: Protocol.Config, v: PeerLoop.View, sent: bool)
    requires |v.states| == |c.hashes|
    ensures PeerLoop.Asked(c, v, Nothing, sent) == PeerLoop.Next(c, v, sent)
  {
    assert v.(worker := Changed(v.worker, Nothing)) == v;
  }

  // ----- Blocks before the last -----

  function BlockEvent(id: nat, block: Wire.Block, sent: bool): Event {
    BlockArrived(id, block.index, block.begin, block.data, sent)
  }

  /** The view after a block that is not the last, before a release if one has to follow. */
  function AfterBlock(v: PeerLoop.View, block: Wire.Block, sent: bool): PeerLoop.View {
    if !ForCurrent(v.worker, block.index) || !Expected(v.worker, block.begin, block.data) then v
    else v.(worker := Asking(Receiving(v.worker, block.data), sent))
  }

  lemma EarlyBlock(c: Protocol.Config, sys: System, id: nat, v: PeerLoop.View, block: Wire.Block, closed: bool,
                   input: PeerLoop.Input)
    requires Inv(c, sys) && Shows(sys, id, v, Running) && PeerLoop.Fits(c, v) && |input.io| == |c.spans|
    requires !Finishes(v.worker, block.index, block.begin, block.data)
    ensures var o := PeerLoop.OnBlock(c, closed, v, block, input);
      LeadsTo(c, sys, id, [BlockEvent(id, block, input.sent)] + IfStopping(id, o.exit.Some?), o)
  {
    var event := BlockEvent(id, block, input.sent);
    RunOne(c, sys, event);
    ThenRelease(c, sys, id, event, AfterBlock(v, block, input.sent), PeerLoop.OnBlock(c, closed, v, block, input));
  }

  // ----- The last block -----

  predicate IsMiddle(step: Protocol.Step) {
    step.Check? || step.StartWrite? || step.WriteOneFile? || step.EndWrite?
  }

  predicate MiddleOf(step: Protocol.Step, id: nat) {
    IsMiddle(step) && step.caller == id
  }

  function EventFor(step: Protocol.Step): Event
    requires IsMiddle(step)
  {
    match step
    case Check(id) => Check(id)
    case StartWrite(id) => StartWrite(id)
    case WriteOneFile(id, io) => WriteOneFile(id, io)
    case EndWrite(id) => EndWrite(id)
  }

  predicate AllMiddleOf(steps: seq<Protocol.Step>, id: nat) {
    forall i :: 0 <= i < |steps| ==> MiddleOf(steps[i], id)
  }

  function EventsFor(steps: seq<Protocol.Step>, id: nat): seq<Event>
    requires AllMiddleOf(steps, id)
  {
    seq(|steps|, i requires 0 <= i < |steps| => EventFor(steps[i]))
  }

  lemma MiddleStep(c: Protocol.Config, sys: System, id: nat, step: Protocol.Step)
    requires Laid(c.spans, sys.core.disk) && InMode(sys, id, Completing) && MiddleOf(step, id)
    ensures Apply(c, sys, EventFor(step)) == System(Protocol.Apply(c, sys.core, step), sys.peers)
  {
  }

  /** Inside CompletePiece a worker does nothing but the protocol's steps. */
  lemma {:induction false} MiddleRun(c: Protocol.Config, sys: System, id: nat, steps: seq<Protocol.Step>)
    requires Inv(c, sys) && InMode(sys, id, Completing) && AllMiddleOf(steps, id)
    ensures Run(c, sys, EventsFor(steps, id)) == System(Protocol.Run(c, sys.core, steps), sys.peers)
    decreases |steps|
  {
    if steps != [] {
      var first, rest := steps[0], steps[1..];
      assert steps == [first] + rest;
      assert EventsFor(steps, id) == [EventFor(first)] + EventsFor(rest, id);
      MiddleStep(c, sys, id, first);
      RunOne(c, sys, EventFor(first));
      RunConcat(c, sys, [EventFor(first)], EventsFor(rest, id));
      Refinement.RunCons(c, sys.core, first, rest);
      MiddleRun(c, Apply(c, sys, EventFor(first)), id, rest);
    }
  }

  lemma {:induction false} WriteStepsAreMiddle(id: nat, io: seq<IoOutcome>)
    ensures AllMiddleOf(Refinement.WriteSteps(id, io), id)
  {
    if io != [] {
      WriteStepsAreMiddle(id, io[1..]);
    }
  }

  lemma MiddleStepsAreMiddle(id: nat, io: seq<IoOutcome>)
    ensures AllMiddleOf(Refinement.MiddleSteps(id, io), id)
  {
    WriteStepsAreMiddle(id, io);
  }

  function MiddleEvents(id: nat, io: seq<IoOutcome>): seq<Event> {
    MiddleStepsAreMiddle(id, io);
    EventsFor(Refinement.MiddleSteps(id, io), id)
  }

  /** The view once all of the piece has been received. */
  function Received(v: PeerLoop.View, block: Wire.Block): PeerLoop.View {
    v.(worker := Receiving(v.worker, block.data))
  }

  /** The system while the worker is inside CompletePiece. */
  function Inside(sys: System, id: nat, v: PeerLoop.View, phase: Protocol.Phase, disk: Disk): System
    requires v.worker.current.Some? && v.worker.current.value.index < |sys.core.pieces|
  {
    System(Refinement.During(sys.core, id, v.worker.current.value.index, v.worker.received, phase, disk),
           sys.peers[id := Peer(HandingOver(v.worker), Completing)])
  }

  lemma Begins(c: Protocol.Config, sys: System, id: nat, v: PeerLoop.View, block: Wire.Block, sent: bool)
    requires Inv(c, sys) && Shows(sys, id, v, Running) && PeerLoop.Fits(c, v)
    requires Finishes(v.worker, block.index, block.begin, block.data)
    ensures id !in sys.core.calls
    ensures Run(c, sys, [BlockEvent(id, block, sent)])
         == Inside(sys, id, Received(v, block), Protocol.Checking, sys.core.disk)
  {
    ShownFits(c, sys, id, v, Running);
    RunOne(c, sys, BlockEvent(id, block, sent));
    assert PeerOk(c, sys.core.calls, id, sys.peers[id]);
  }

  function PhaseAfter(stored: bool): Protocol.Phase {
    if stored then Protocol.Written else Protocol.Failed
  }

  lemma GoesThrough(c: Protocol.Config, sys: System, id: nat, v: PeerLoop.View, io: seq<IoOutcome>)
    requires v.worker.current.Some? && v.worker.current.value.index < |sys.core.pieces| && |io| == |c.spans|
    requires id !in sys.core.calls && Inv(c, Inside(sys, id, v, Protocol.Checking, sys.core.disk))
    ensures var i, data := v.worker.current.value.index, v.worker.received;
      Run(c, Inside(sys, id, v, Protocol.Checking, sys.core.disk), MiddleEvents(id, io))
        == Inside(sys, id, v, PhaseAfter(Protocol.Storable(c, sys.core.closed, i, data, io)),
                  Protocol.DiskAfter(c, sys.core.closed, sys.core.disk, i, data, io))
  {
    MiddleStepsAreMiddle(id, io);
    MiddleRun(c, Inside(sys, id, v, Protocol.Checking, sys.core.disk), id, Refinement.MiddleSteps(id, io));
    Refinement.Middle(c, sys.core, id, v.worker.current.value.index, v.worker.received, io);
  }

  lemma ReturnStep(c: Protocol.Config, sys: System, id: nat, stored: bool)
    requires Laid(c.spans, sys.core.disk) && InMode(sys, id, Completing)
    requires Protocol.InPhase(sys.core, id, PhaseAfter(stored))
    requires Protocol.IsState(sys.core.pieces, sys.core.calls[id].index, Verifying)
    ensures Apply(c, sys, Return(id))
         == System(Protocol.Leave(sys.core, id, if stored then Complete else Missing),
                   sys.peers[id := sys.peers[id].(mode := if stored then Running else Stopping)])
  {
  }

  lemma Returns(c: Protocol.Config, sys: System, id: nat, v: PeerLoop.View, stored: bool, disk: Disk)
    requires v.worker.current.Some? && v.worker.current.value.index < |sys.core.pieces| && id !in sys.core.calls
    requires Inv(c, Inside(sys, id, v, PhaseAfter(stored), disk))
    ensures Run(c, Inside(sys, id, v, PhaseAfter(stored), disk), [Return(id)])
         == System(Refinement.Left(sys.core, v.worker.current.value.index, if stored then Complete else Missing, disk),
                   sys.peers[id := Peer(HandingOver(v.worker), if stored then Running else Stopping)])
  {
    var inside := Inside(sys, id, v, PhaseAfter(stored), disk);
    RunOne(c, inside, Return(id));
    ReturnStep(c, inside, id, stored);
    Refinement.LeaveDuring(sys.core, id, v.worker.current.value.index, v.worker.received, PhaseAfter(stored), disk,
                           if stored then Complete else Missing);
    var peer := Peer(HandingOver(v.worker), Completing);
    assert sys.peers[id := peer][id := peer.(mode := if stored then Running else Stopping)]
        == sys.peers[id := peer.(mode := if stored then Running else Stopping)];
  }

  function CallEvents(id: nat, block: Wire.Block, sent: bool, io: seq<IoOutcome>): seq<Event> {
    [BlockEvent(id, block, sent)] + (MiddleEvents(id, io) + [Return(id)])
  }

  /** The system once the call has returned. */
  ghost function AfterCall(c: Protocol.Config, sys: System, id: nat, v: PeerLoop.View, io: seq<IoOutcome>): System
    requires c.Valid() && Laid(c.spans, sys.core.disk) && |io| == |c.spans|
    requires v.worker.current.Some? && v.worker.current.value.index < |sys.core.pieces| == |c.hashes|
  {
    var i, data := v.worker.current.value.index, v.worker.received;
    var stored := Protocol.Storable(c, sys.core.closed, i, data, io);
    System(Refinement.Left(sys.core, i, if stored then Complete else Missing,
                           Protocol.DiskAfter(c, sys.core.closed, sys.core.disk, i, data, io)),
           sys.peers[id := Peer(HandingOver(v.worker), if stored then Running else Stopping)])
  }

  lemma CallRun(c: Protocol.Config, sys: System, id: nat, v: PeerLoop.View, block: Wire.Block, sent: bool,
                io: seq<IoOutcome>)
    requires Inv(c, sys) && Shows(sys, id, v, Running) && PeerLoop.Fits(c, v) && |io| == |c.spans|
    requires Finishes(v.worker, block.index, block.begin, block.data)
    ensures Run(c, sys, CallEvents(id, block, sent, io)) == AfterCall(c, sys, id, Received(v, block), io)
  {
    var t := Received(v, block);
    var first := [BlockEvent(id, block, sent)];
    Begins(c, sys, id, v, block, sent);
    RunConcat(c, sys, first, MiddleEvents(id, io) + [Return(id)]);
    var begun := Run(c, sys, first);
    RunConcat(c, begun, MiddleEvents(id, io), [Return(id)]);
    GoesThrough(c, sys, id, t, io);
    Returns(c, sys, id, t, Protocol.Storable(c, sys.core.closed, block.index, t.worker.received, io),
            Protocol.DiskAfter(c, sys.core.closed, sys.core.disk, block.index, t.worker.received, io));
  }

  /** The last block and the whole CompletePiece. */
  lemma Completes(c: Protocol.Config, sys: System, id: nat, v: PeerLoop.View, block: Wire.Block, sent: bool,
                  io: seq<IoOutcome>)
    requires Inv(c, sys) && Shows(sys, id, v, Running) && PeerLoop.Fits(c, v) && |io| == |c.spans|
    requires Finishes(v.worker, block.index, block.begin, block.data)
    ensures var t := Received(v, block);
      Leads(c, sys, id, CallEvents(id, block, sent, io), PeerLoop.Stored(c, sys.core.closed, t, io),
            if Protocol.Storable(c, sys.core.closed, block.index, t.worker.received, io) then Running else Stopping)
  {
    CallRun(c, sys, id, v, block, sent, io);
  }

  ghost function LastBlockEvents(c: Protocol.Config, closed: bool, id: nat, v: PeerLoop.View, block: Wire.Block,
                                 input: PeerLoop.Input): seq<Event>
    requires PeerLoop.Fits(c, v) && v.worker.current.Some? && |input.io| == |c.spans|
  {
    var t := Received(v, block);
    CallEvents(id, block, input.sent, input.io) +
    (if Protocol.Storable(c, closed, v.worker.current.value.index, t.worker.received, input.io)
     then GoOnEvents(c, id, PeerLoop.Stored(c, closed, t, input.io), input.sentNext)
     else [Release(id)])
  }

  lemma LastBlock(c: Protocol.Config, sys: System, id: nat, v: PeerLoop.View, block: Wire.Block, input: PeerLoop.Input)
    requires Inv(c, sys) && Shows(sys, id, v, Running) && PeerLoop.Fits(c, v) && |input.io| == |c.spans|
    requires Finishes(v.worker, block.index, block.begin, block.data)
    ensures LeadsTo(c, sys, id, LastBlockEvents(c, sys.core.closed, id, v, block, input),
                    PeerLoop.OnBlock(c, sys.core.closed, v, block, input))
  {
    var t := Received(v, block);
    var stored := PeerLoop.Stored(c, sys.core.closed, t, input.io);
    var first := CallEvents(id, block, input.sent, input.io);
    Completes(c, sys, id, v, block, input.sent, input.io);
    var mid := Run(c, sys, first);
    if Protocol.Storable(c, sys.core.closed, block.index, t.worker.received, input.io) {
      ShownFits(c, mid, id, stored, Running);
      GoesOn(c, mid, id, stored, input.sentNext);
      LeadsOnTo(c, sys, id, first, stored, Running, GoOnEvents(c, id, stored, input.sentNext),
                PeerLoop.GoOn(c, stored, input.sentNext));
    } else {
      Releases(c, mid, id, stored);
      LeadsOn(c, sys, id, first, stored, Stopping, [Release(id)], PeerLoop.LetGo(stored), Stopped);
    }
  }

  // ----- One turn of the loop -----

  ghost function BlockEvents(c: Protocol.Config, closed: bool, id: nat, v: PeerLoop.View, block: Wire.Block,
                             input: PeerLoop.Input): seq<Event>
    requires PeerLoop.Fits(c, v) && |input.io| == |c.spans|
  {
    if Finishes(v.worker, block.index, block.begin, block.data) then LastBlockEvents(c, closed, id, v, block, input)
    else [BlockEvent(id, block, input.sent)] + IfStopping(id, PeerLoop.OnBlock(c, closed, v, block, input).exit.Some?)
  }

  lemma TakesBlock(c: Protocol.Config, sys: System, id: nat, v: PeerLoop.View, block: Wire.Block, input: PeerLoop.Input)
    requires Inv(c, sys) && Shows(sys, id, v, Running) && PeerLoop.Fits(c, v) && |input.io| == |c.spans|
    ensures LeadsTo(c, sys, id, BlockEvents(c, sys.core.closed, id, v, block, input),
                    PeerLoop.OnBlock(c, sys.core.closed, v, block, input))
  {
    if Finishes(v.worker, block.index, block.begin, block.data) {
      LastBlock(c, sys, id, v, block, input);
    } else {
      EarlyBlock(c, sys, id, v, block, sys.core.closed, input);
    }
  }

  ghost function MessageEvents(c: Protocol.Config, closed: bool, id: nat, v: PeerLoop.View, message: Wire.Message,
                               input: PeerLoop.Input): seq<Event>
    requires PeerLoop.Fits(c, v) && |input.io| == |c.spans|
  {
    if message.KeepAlive? then []
    else if message.id in {Wire.MSG_BITFIELD, Wire.MSG_HAVE, Wire.MSG_UNCHOKE} then
      match PeerLoop.ChangeOf(message, v.worker, |c.hashes|)
      case None => Leaving(id)
      case Some(change) => AskEvents(c, id, v, change, input.sent)
    else if message.id == Wire.MSG_CHOKE then [Choke(id)]
    else if message.id == Wire.MSG_PIECE then
      match Wire.ParsePiece(message.payload)
      case Failure => Leaving(id)
      case Success(block) => BlockEvents(c, closed, id, v, block, input)
    else []
  }

  lemma Chokes(c: Protocol.Config, sys: System, id: nat, v: PeerLoop.View)
    requires Inv(c, sys) && Shows(sys, id, v, Running) && PeerLoop.Fits(c, v)
    ensures Leads(c, sys, id, [Choke(id)], PeerLoop.LetGo(v.(worker := v.worker.(unchoked := false))), Running)
  {
    ShownFits(c, sys, id, v, Running);
    RunOne(c, sys, Choke(id));
  }

  lemma TakesMessage(c: Protocol.Config, sys: System, id: nat, v: PeerLoop.View, message: Wire.Message,
                     input: PeerLoop.Input)
    requires Inv(c, sys) && Shows(sys, id, v, Running) && PeerLoop.Fits(c, v) && |input.io| == |c.spans|
    ensures LeadsTo(c, sys, id, MessageEvents(c, sys.core.closed, id, v, message, input),
                    PeerLoop.OnMessage(c, sys.core.closed, v, message, input))
  {
    if message.KeepAlive? {
      StaysPut(c, sys, id, v, Running);
    } else if message.id in {Wire.MSG_BITFIELD, Wire.MSG_HAVE, Wire.MSG_UNCHOKE} {
      TakesNews(c, sys, id, v, message, input);
    } else if message.id == Wire.MSG_CHOKE {
      Chokes(c, sys, id, v);
    } else if message.id == Wire.MSG_PIECE {
      match Wire.ParsePiece(message.payload)
      case Failure => LeavesWith(c, sys, id, v, PeerLoop.Failed);
      case Success(block) => TakesBlock(c, sys, id, v, block, input);
    } else {
      StaysPut(c, sys, id, v, Running);
    }
  }

  lemma TakesNews(c: Protocol.Config, sys: System, id: nat, v: PeerLoop.View, message: Wire.Message,
                  input: PeerLoop.Input)
    requires Inv(c, sys) && Shows(sys, id, v, Running) && PeerLoop.Fits(c, v) && |input.io| == |c.spans|
    requires message.Message? && message.id in {Wire.MSG_BITFIELD, Wire.MSG_HAVE, Wire.MSG_UNCHOKE}
    ensures LeadsTo(c, sys, id, MessageEvents(c, sys.core.closed, id, v, message, input),
                    PeerLoop.OnMessage(c, sys.core.closed, v, message, input))
  {
    match PeerLoop.ChangeOf(message, v.worker, |c.hashes|)
    case None => LeavesWith(c, sys, id, v, PeerLoop.Failed);
    case Some(change) => Asks(c, sys, id, v, change, input.sent);
  }

  /** The events of the swarm that one turn of the loop performs. */
  ghost function TurnEvents(c: Protocol.Config, closed: bool, id: nat, v: PeerLoop.View,
                            input: PeerLoop.Input): seq<Event>
    requires PeerLoop.Fits(c, v) && |input.io| == |c.spans|
  {
    match input.event
    case Cancelled => Leaving(id)
    case DeadlineFired => if v.worker.armed then Leaving(id) else []
    case Updated => GoOnEvents(c, id, v, input.sent)
    case ReadFailed => Leaving(id)
    case Received(message) => MessageEvents(c, closed, id, v, message, input)
    case _ => []
  }

  /** The events that neither bring a message nor make the worker ask for a piece. */
  lemma PlainTurn(c: Protocol.Config, sys: System, id: nat, v: PeerLoop.View, input: PeerLoop.Input)
    requires Inv(c, sys) && Shows(sys, id, v, Running) && PeerLoop.Fits(c, v) && |input.io| == |c.spans|
    requires !input.event.Updated? && !input.event.Received?
    ensures LeadsTo(c, sys, id, TurnEvents(c, sys.core.closed, id, v, input),
                    PeerLoop.Handle(c, sys.core.closed, v, input))
  {
    if input.event.Cancelled? || input.event.ReadFailed? || (input.event.DeadlineFired? && v.worker.armed) {
      LeavesWith(c, sys, id, v, PeerLoop.Failed);
    } else {
      StaysPut(c, sys, id, v, Running);
    }
  }

  /** One turn of the loop, whatever the event, is a run of the swarm: the last block
      with its whole CompletePiece, deadlines, chokes and read errors included. */
  lemma TurnIsASwarmRun(c: Protocol.Config, sys: System, id: nat, v: PeerLoop.View, input: PeerLoop.Input)
    requires Inv(c, sys) && Shows(sys, id, v, Running) && |input.io| == |c.spans|
    ensures PeerLoop.Fits(c, v)
    ensures LeadsTo(c, sys, id, TurnEvents(c, sys.core.closed, id, v, input),
                    PeerLoop.Handle(c, sys.core.closed, v, input))
  {
    ShownFits(c, sys, id, v, Running);
    match input.event
    case Updated => GoesOn(c, sys, id, v, input.sent);
    case Received(message) => TakesMessage(c, sys, id, v, message, input);
    case _ => PlainTurn(c, sys, id, v, input);
  }

  // ----- The whole loop -----

  ghost function LoopEvents(c: Protocol.Config, closed: bool, id: nat, v: PeerLoop.View, inputs: seq<PeerLoop.Input>,
                            messagesOpen: bool, errorsOpen: bool): seq<Event>
    requires PeerLoop.ViewOk(c, v) && PeerLoop.InputsFit(c, inputs)
    decreases |inputs|, 1
  {
    if Ended(inputs, messagesOpen, errorsOpen) then Leaving(id)
    else
      PeerLoop.HandleKeeps(c, closed, v, inputs[0]);
      TurnEvents(c, closed, id, v, inputs[0])
      + OnwardEvents(c, closed, id, PeerLoop.Handle(c, closed, v, inputs[0]), inputs, messagesOpen, errorsOpen)
  }

  ghost function OnwardEvents(c: Protocol.Config, closed: bool, id: nat, o: PeerLoop.Outcome,
                              inputs: seq<PeerLoop.Input>, messagesOpen: bool, errorsOpen: bool): seq<Event>
    requires PeerLoop.ViewOk(c, o.view) && PeerLoop.InputsFit(c, inputs) && inputs != []
    decreases |inputs|, 0
  {
    if o.exit.Some? then []
    else LoopEvents(c, closed, id, o.view, inputs[1..],
                    PeerLoop.StillOpen(messagesOpen, inputs[0].event.MessagesClosed?),
                    PeerLoop.StillOpen(errorsOpen, inputs[0].event.ErrorsClosed?))
  }

  predicate Ended(inputs: seq<PeerLoop.Input>, messagesOpen: bool, errorsOpen: bool) {
    (!messagesOpen && !errorsOpen) || inputs == []
  }

  /** One turn and the rest of the loop, for the loop and for its events. */
  lemma OneTurn(c: Protocol.Config, closed: bool, id: nat, v: PeerLoop.View, inputs: seq<PeerLoop.Input>,
                messagesOpen: bool, errorsOpen: bool)
    requires PeerLoop.ViewOk(c, v) && PeerLoop.InputsFit(c, inputs) && !Ended(inputs, messagesOpen, errorsOpen)
    ensures var o := PeerLoop.Handle(c, closed, v, inputs[0]);
      && PeerLoop.ViewOk(c, o.view)
      && PeerLoop.Loop(c, closed, v, inputs, messagesOpen, errorsOpen)
         == PeerLoop.Onward(c, closed, o, inputs, messagesOpen, errorsOpen)
      && LoopEvents(c, closed, id, v, inputs, messagesOpen, errorsOpen)
         == TurnEvents(c, closed, id, v, inputs[0]) + OnwardEvents(c, closed, id, o, inputs, messagesOpen, errorsOpen)
  {
    PeerLoop.HandleKeeps(c, closed, v, inputs[0]);
  }

  lemma {:induction false} LoopIsASwarmRun(c: Protocol.Config, sys: System, id: nat, v: PeerLoop.View,
                                           inputs: seq<PeerLoop.Input>, messagesOpen: bool, errorsOpen: bool)
    requires Inv(c, sys) && Shows(sys, id, v, Running) && PeerLoop.ViewOk(c, v) && PeerLoop.InputsFit(c, inputs)
    ensures LeadsTo(c, sys, id, LoopEvents(c, sys.core.closed, id, v, inputs, messagesOpen, errorsOpen),
                    PeerLoop.Loop(c, sys.core.closed, v, inputs, messagesOpen, errorsOpen))
    decreases |inputs|, 1
  {
    if Ended(inputs, messagesOpen, errorsOpen) {
      Leaves(c, sys, id, v);
    } else {
      OneTurn(c, sys.core.closed, id, v, inputs, messagesOpen, errorsOpen);
      TurnIsASwarmRun(c, sys, id, v, inputs[0]);
      OnwardIsASwarmRun(c, sys, id, TurnEvents(c, sys.core.closed, id, v, inputs[0]),
                        PeerLoop.Handle(c, sys.core.closed, v, inputs[0]), inputs, messagesOpen, errorsOpen);
    }
  }

  /** After the first turn. */
  lemma {:induction false} OnwardIsASwarmRun(c: Protocol.Config, sys: System, id: nat, events: seq<Event>,
                                             o: PeerLoop.Outcome, inputs: seq<PeerLoop.Input>,
                                             messagesOpen: bool, errorsOpen: bool)
    requires Inv(c, sys) && LeadsTo(c, sys, id, events, o)
    requires PeerLoop.ViewOk(c, o.view) && PeerLoop.InputsFit(c, inputs) && inputs != []
    ensures LeadsTo(c, sys, id, events + OnwardEvents(c, sys.core.closed, id, o, inputs, messagesOpen, errorsOpen),
                    PeerLoop.Onward(c, sys.core.closed, o, inputs, messagesOpen, errorsOpen))
    decreases |inputs|, 0
  {
    if o.exit.Some? {
      assert events + [] == events;
    } else {
      var messages := PeerLoop.StillOpen(messagesOpen, inputs[0].event.MessagesClosed?);
      var errors := PeerLoop.StillOpen(errorsOpen, inputs[0].event.ErrorsClosed?);
      LoopIsASwarmRun(c, Run(c, sys, events), id, o.view, inputs[1..], messages, errors);
      LeadsOnTo(c, sys, id, events, o.view, Running,
                LoopEvents(c, sys.core.closed, id, o.view, inputs[1..], messages, errors),
                PeerLoop.Loop(c, sys.core.closed, o.view, inputs[1..], messages, errors));
    }
  }

  /** The whole of RunClient, from joining to its deferred release, is a run of the swarm
      among any other workers: it leads the worker from nothing to stopped, and the
      piece states and the disk to what PeerWorker.Client.RunClient leaves. */
  lemma RunClientIsASwarmRun(c: Protocol.Config, sys: System, id: nat, v: PeerLoop.View, inputs: seq<PeerLoop.Input>)
    requires Inv(c, sys) && id !in sys.peers && PeerLoop.InputsFit(c, inputs)
    requires v.worker == Fresh(|c.hashes|)
    requires v.states == sys.core.pieces && v.channel == sys.core.updates && v.disk == sys.core.disk
    ensures PeerLoop.ViewOk(c, v)
    ensures var events := [Join(id)] + LoopEvents(c, sys.core.closed, id, v, inputs, true, true);
      Leads(c, sys, id, events, PeerLoop.Client(c, sys.core.closed, v, inputs).view, Stopped)
  {
    RunOne(c, sys, Join(id));
    LoopIsASwarmRun(c, Run(c, sys, [Join(id)]), id, v, inputs, true, true);
    LeadsOnTo(c, sys, id, [Join(id)], v, Running, LoopEvents(c, sys.core.closed, id, v, inputs, true, true),
              PeerLoop.Loop(c, sys.core.closed, v, inputs, true, true));
  }
}
