/** downloadTorrent and the workers it starts, together (main.go,
    internal/download/worker.go): the control flow of DownloadLoop beside the swarm. The
    world that DownloadLoop takes as an input is what the workers do here: IsComplete
    answers with the states of the pieces, workers join only when launched, and a
    worker's result is sent only when it has stopped. */
module Program {
  import opened ByteStrings
  import opened DownloadLoop
  import opened Pieces
  import opened Scheduler
  import opened Storage
  import Download
  import Protocol
  import Refinement
  import Swarm
  import SwarmProofs
  import WorkerRefinement

  /** `worker` gives the swarm's number for each peer whose goroutine is running. */
  datatype Joint = Joint(proc: Proc, sys: Swarm.System, worker: map<Key, nat>, next: nat)

  /** What happens elsewhere: a step of a worker, or of Finalize and Close; or the
      goroutine for a peer sends its result. */
  datatype Work = Working(event: Swarm.Event) | Ending(key: Key)

  /** As for the loop alone: the limit, what select delivers, and what happens elsewhere
      right before downloadTorrent looks at something shared for the k-th time. */
  datatype Plan = Plan(maxWorkers: nat, events: seq<Event>, work: nat -> seq<Work>)

  predicate Assigned(worker: map<Key, nat>, id: nat) {
    exists key :: key in worker && worker[key] == id
  }

  predicate Stopped(j: Joint, id: nat) {
    id in j.sys.peers ==> j.sys.peers[id].mode.Stopped?
  }

  // ----- What happens elsewhere -----

  predicate MayEnd(j: Joint, key: Key) {
    key in j.worker ==> Stopped(j, j.worker[key])
  }

  /** What the scheduler can see of it. */
  function WorkSteps(j: Joint, work: Work): seq<Elsewhere> {
    if work.Ending? && MayEnd(j, work.key) then [Finish(work.key)] else []
  }

  /** The swarm's event in it, if it has one. */
  function SwarmEvent(j: Joint, work: Work): (event: seq<Swarm.Event>)
    ensures |event| <= 1
  {
    if work.Working? && (work.event.Join? ==> Assigned(j.worker, work.event.id)) then [work.event] else []
  }

  function SysAfter(c: Protocol.Config, j: Joint, work: Work): Swarm.System
    requires Swarm.Inv(c, j.sys)
  {
    var event := SwarmEvent(j, work);
    if event == [] then j.sys else Swarm.Apply(c, j.sys, event[0])
  }

  function Do(c: Protocol.Config, j: Joint, work: Work, maxWorkers: nat): Joint
    requires Swarm.Inv(c, j.sys)
  {
    if work.Working? then j.(sys := SysAfter(c, j, work))
    else if MayEnd(j, work.key)
    then j.(proc := j.proc.(sched := Scheduler.Apply(j.proc.sched, Finish(work.key), maxWorkers)),
            worker := j.worker - {work.key})
    else j
  }

  /** Running goroutines and workers that have not stopped: each of the latter belongs to one of the former. */
  ghost predicate Bound(running: set<Key>, worker: map<Key, nat>, next: nat, peers: map<nat, Swarm.Peer>) {
    && worker.Keys == running
    && (forall key :: key in worker ==> worker[key] < next)
    && (forall id :: id in peers ==> id < next && (peers[id].mode.Stopped? || Assigned(worker, id)))
  }

  /** What the scheduler has seen, and what holds of everything it has started. */
  ghost predicate Inv(c: Protocol.Config, j: Joint, maxWorkers: nat) {
    && Ok(j.proc.sched, maxWorkers) && Swarm.Inv(c, j.sys)
    && Bound(j.proc.sched.running, j.worker, j.next, j.sys.peers)
    && (j.proc.sched.complete ==> AllComplete(j.sys.core.pieces))
  }

  // ----- Everything keeps the invariant -----

  lemma EventKeepsPeers(c: Protocol.Config, sys: Swarm.System, event: Swarm.Event)
    ensures var now := Swarm.LocalStep(c, sys, event);
      forall id :: id in now ==>
        if id in sys.peers then sys.peers[id].mode.Stopped? ==> now[id].mode.Stopped?
        else event == Swarm.Join(id)
  {
    match event
    case Join(_) =>
    case Ask(_, _, _) =>
    case BlockArrived(_, _, _, _, _) =>
    case _ =>
  }

  lemma EventKeepsComplete(c: Protocol.Config, sys: Swarm.System, event: Swarm.Event)
    requires Swarm.Inv(c, sys) && AllComplete(sys.core.pieces)
    ensures Swarm.Inv(c, Swarm.Apply(c, sys, event)) && AllComplete(Swarm.Apply(c, sys, event).core.pieces)
  {
    SwarmProofs.EventKeepsInv(c, sys, event);
    var step := Swarm.CoreStep(sys, event);
    if step.Some? {
      Protocol.CompleteContentIsFixed(c, sys.core, [step.value]);
      assert [step.value][1..] == [];
    }
  }

  lemma WorkKeepsBound(c: Protocol.Config, j: Joint, event: Swarm.Event, maxWorkers: nat)
    requires Inv(c, j, maxWorkers) && (event.Join? ==> Assigned(j.worker, event.id))
    ensures Bound(j.proc.sched.running, j.worker, j.next, Swarm.Apply(c, j.sys, event).peers)
  {
    EventKeepsPeers(c, j.sys, event);
    var now := Swarm.Apply(c, j.sys, event).peers;
    forall id | id in now ensures id < j.next && (now[id].mode.Stopped? || Assigned(j.worker, id)) {
      if id !in j.sys.peers {
        var key :| key in j.worker && j.worker[key] == id;
      }
    }
  }

  lemma EndKeepsBound(running: set<Key>, worker: map<Key, nat>, next: nat, peers: map<nat, Swarm.Peer>, key: Key)
    requires Bound(running, worker, next, peers)
    requires key in worker && worker[key] in peers ==> peers[worker[key]].mode.Stopped?
    ensures Bound(running - {key}, worker - {key}, next, peers)
  {
    forall id | id in peers && !peers[id].mode.Stopped? ensures Assigned(worker - {key}, id) {
      var k :| k in worker && worker[k] == id;
      assert k != key && (worker - {key})[k] == id;
    }
  }

  /** Whatever happens elsewhere keeps the invariant. */
  lemma WorkKeepsInv(c: Protocol.Config, j: Joint, work: Work, maxWorkers: nat)
    requires Inv(c, j, maxWorkers)
    ensures Inv(c, Do(c, j, work, maxWorkers), maxWorkers)
  {
    match work
    case Working(event) =>
      if SwarmEvent(j, work) != [] {
        SwarmProofs.EventKeepsInv(c, j.sys, event);
        WorkKeepsBound(c, j, event, maxWorkers);
        if j.proc.sched.complete {
          EventKeepsComplete(c, j.sys, event);
        }
      }
    case Ending(key) =>
      if MayEnd(j, key) {
        StepKeepsOk(j.proc.sched, Finish(key), maxWorkers);
        EndKeepsBound(j.proc.sched.running, j.worker, j.next, j.sys.peers, key);
      }
  }

  function DoAll(c: Protocol.Config, j: Joint, works: seq<Work>, maxWorkers: nat): (r: Joint)
    requires Inv(c, j, maxWorkers)
    ensures Inv(c, r, maxWorkers)
    decreases |works|
  {
    if works == [] then j
    else
      WorkKeepsInv(c, j, works[0], maxWorkers);
      DoAll(c, Do(c, j, works[0], maxWorkers), works[1..], maxWorkers)
  }

  // ----- The control -----

  /** What IsComplete answers. */
  function Seen(j: Joint): Proc {
    j.proc.(sched := j.proc.sched.(complete := AllComplete(j.sys.core.pieces)))
  }

  /** One step of downloadTorrent. A goroutine that it starts gets the next number. */
  function Move(plan: Plan, j: Joint): Joint {
    var o := Seen(j);
    var launches := Launches(o, plan.maxWorkers);
    Joint(OwnStep(plan.events, plan.maxWorkers, o), j.sys,
          if launches then j.worker[o.sched.pending[0] := j.next] else j.worker,
          if launches then j.next + 1 else j.next)
  }

  lemma LaunchKeepsBound(running: set<Key>, worker: map<Key, nat>, next: nat, peers: map<nat, Swarm.Peer>, key: Key)
    requires Bound(running, worker, next, peers) && key !in running
    ensures Bound(running + {key}, worker[key := next], next + 1, peers)
  {
    forall id | id in peers && Assigned(worker, id) ensures Assigned(worker[key := next], id) {
      var k :| k in worker && worker[k] == id;
      assert k != key && worker[key := next][k] == id;
    }
  }

  lemma FirstIsNotRunning(s: State, maxWorkers: nat)
    requires Ok(s, maxWorkers) && s.pending != []
    ensures s.pending[0] !in s.running
  {
    assert s.pending[0] in s.queued;
  }

  /** Only a launch changes which goroutines run, and none of the steps makes the torrent complete. */
  lemma NextTouches(events: seq<Event>, maxWorkers: nat, p: Proc)
    ensures var s := NextSched(events, maxWorkers, p);
      && s.complete == p.sched.complete
      && s.running == if Launches(p, maxWorkers) then p.sched.running + {p.sched.pending[0]} else p.sched.running
  {
    if p.control.Selecting? && EventAt(events, p.handled).Reannounced? && EventAt(events, p.handled).peers.Success? {
      OffersAreExact(p.sched, EventAt(events, p.handled).peers.value, maxWorkers);
    }
  }

  /** Every step of downloadTorrent keeps the invariant. */
  lemma MoveKeepsInv(c: Protocol.Config, plan: Plan, j: Joint)
    requires Inv(c, j, plan.maxWorkers)
    ensures Inv(c, Move(plan, j), plan.maxWorkers)
  {
    var o := Seen(j);
    NextKeepsOk(plan.events, plan.maxWorkers, o);
    NextTouches(plan.events, plan.maxWorkers, o);
    if Launches(o, plan.maxWorkers) {
      FirstIsNotRunning(o.sched, plan.maxWorkers);
      LaunchKeepsBound(o.sched.running, j.worker, j.next, j.sys.peers, o.sched.pending[0]);
    }
  }

  function Tick(c: Protocol.Config, plan: Plan, j: Joint, k: nat): (r: Joint)
    requires Inv(c, j, plan.maxWorkers)
    ensures Inv(c, r, plan.maxWorkers)
  {
    if j.proc.control.Ended? then j
    else
      var seen := DoAll(c, j, plan.work(k), plan.maxWorkers);
      MoveKeepsInv(c, plan, seen);
      Move(plan, seen)
  }

  /** The first n steps of downloadTorrent with all that happens meanwhile. */
  function Play(c: Protocol.Config, plan: Plan, j: Joint, n: nat): (r: Joint)
    requires Inv(c, j, plan.maxWorkers)
    ensures Inv(c, r, plan.maxWorkers)
  {
    if n == 0 then j else Tick(c, plan, Play(c, plan, j, n - 1), n - 1)
  }

  /** The first announce has been answered; nobody has been launched. */
  function Start(c: Protocol.Config, disk: Disk, first: Result<seq<Key>>, maxWorkers: nat): Joint
    requires c.Valid() && Laid(c.spans, disk)
  {
    var core := Protocol.Start(c, disk);
    Joint(Begin(Scheduler.Start(AllComplete(core.pieces)), first, maxWorkers), Swarm.System(core, map[]), map[], 0)
  }

  lemma StartSatisfiesInv(c: Protocol.Config, disk: Disk, first: Result<seq<Key>>, maxWorkers: nat)
    requires c.Valid() && Laid(c.spans, disk)
    ensures Inv(c, Start(c, disk, first, maxWorkers), maxWorkers)
  {
    SwarmProofs.StartSatisfiesInv(c, disk);
    var s := Scheduler.Start(AllComplete(Protocol.Start(c, disk).pieces));
    StartIsOk(s.complete, maxWorkers);
    if first.Success? {
      RunKeepsOk(s, Offers(first.value), maxWorkers);
      OffersAreExact(s, first.value, maxWorkers);
    }
  }

  // ----- A joint run is a run of the loop, with a world made of what the workers do -----

  function AllSteps(c: Protocol.Config, j: Joint, works: seq<Work>, maxWorkers: nat): seq<Elsewhere>
    requires Inv(c, j, maxWorkers)
    decreases |works|
  {
    if works == [] then []
    else
      WorkKeepsInv(c, j, works[0], maxWorkers);
      WorkSteps(j, works[0]) + AllSteps(c, Do(c, j, works[0], maxWorkers), works[1..], maxWorkers)
  }

  function Completion(j: Joint): seq<Elsewhere> {
    if AllComplete(j.sys.core.pieces) then [Completes] else []
  }

  /** What downloadTorrent can notice when it looks for the k-th time. */
  function Noticed(c: Protocol.Config, plan: Plan, j: Joint, k: nat): seq<Elsewhere>
    requires Inv(c, j, plan.maxWorkers)
  {
    AllSteps(c, j, plan.work(k), plan.maxWorkers) + Completion(DoAll(c, j, plan.work(k), plan.maxWorkers))
  }

  function World(c: Protocol.Config, plan: Plan, j: Joint): nat -> seq<Elsewhere>
    requires Inv(c, j, plan.maxWorkers)
  {
    (k: nat) => Noticed(c, plan, Play(c, plan, j, k), k)
  }

  /** The loop alone, in the world that the workers make. */
  function LoopSetting(c: Protocol.Config, plan: Plan, j: Joint): Setting
    requires Inv(c, j, plan.maxWorkers)
  {
    Setting(plan.maxWorkers, plan.events, World(c, plan, j))
  }

  lemma OneWork(c: Protocol.Config, j: Joint, work: Work, maxWorkers: nat)
    requires Inv(c, j, maxWorkers)
    ensures Do(c, j, work, maxWorkers).proc
         == j.proc.(sched := Scheduler.Run(j.proc.sched, WorkSteps(j, work), maxWorkers))
  {
    if work.Ending? {
      OneStep(j.proc.sched, Finish(work.key), maxWorkers);
    }
  }

  lemma {:induction false} AllStepsAreTaken(c: Protocol.Config, j: Joint, works: seq<Work>, maxWorkers: nat)
    requires Inv(c, j, maxWorkers)
    ensures DoAll(c, j, works, maxWorkers).proc
         == j.proc.(sched := Scheduler.Run(j.proc.sched, AllSteps(c, j, works, maxWorkers), maxWorkers))
    decreases |works|
  {
    if works != [] {
      WorkKeepsInv(c, j, works[0], maxWorkers);
      OneWork(c, j, works[0], maxWorkers);
      var t := Do(c, j, works[0], maxWorkers);
      AllStepsAreTaken(c, t, works[1..], maxWorkers);
      RunConcat(j.proc.sched, WorkSteps(j, works[0]), AllSteps(c, t, works[1..], maxWorkers), maxWorkers);
    }
  }

  lemma SeenAfter(j: Joint, p: Proc, steps: seq<Elsewhere>, maxWorkers: nat)
    requires j.proc == p.(sched := Scheduler.Run(p.sched, steps, maxWorkers))
    requires j.proc.sched.complete ==> AllComplete(j.sys.core.pieces)
    ensures Seen(j) == p.(sched := Scheduler.Run(p.sched, steps + Completion(j), maxWorkers))
  {
    if AllComplete(j.sys.core.pieces) {
      RunSnoc(p.sched, steps, Completes, maxWorkers);
    } else {
      assert steps + [] == steps;
    }
  }

  /** With what has been noticed the scheduler knows of completion exactly what IsComplete answers. */
  lemma NoticedIsSeen(c: Protocol.Config, plan: Plan, j: Joint, k: nat)
    requires Inv(c, j, plan.maxWorkers)
    ensures Seen(DoAll(c, j, plan.work(k), plan.maxWorkers))
         == j.proc.(sched := Scheduler.Run(j.proc.sched, Noticed(c, plan, j, k), plan.maxWorkers))
  {
    AllStepsAreTaken(c, j, plan.work(k), plan.maxWorkers);
    SeenAfter(DoAll(c, j, plan.work(k), plan.maxWorkers), j.proc, AllSteps(c, j, plan.work(k), plan.maxWorkers),
              plan.maxWorkers);
  }

  lemma TickIsTheLoops(c: Protocol.Config, plan: Plan, j: Joint, k: nat, g: Setting)
    requires Inv(c, j, plan.maxWorkers)
    requires g.maxWorkers == plan.maxWorkers && g.events == plan.events && g.world(k) == Noticed(c, plan, j, k)
    ensures Tick(c, plan, j, k).proc == DownloadLoop.Tick(g, j.proc, k)
  {
    NoticedIsSeen(c, plan, j, k);
  }

  lemma WorldAt(c: Protocol.Config, plan: Plan, j: Joint, n: nat)
    requires Inv(c, j, plan.maxWorkers)
    ensures World(c, plan, j)(n) == Noticed(c, plan, Play(c, plan, j, n), n)
  {
  }

  function ProcAt(c: Protocol.Config, plan: Plan, j: Joint): nat -> Proc
    requires Inv(c, j, plan.maxWorkers)
  {
    (n: nat) => Play(c, plan, j, n).proc
  }

  lemma NextTick(c: Protocol.Config, plan: Plan, j: Joint, n: nat)
    requires Inv(c, j, plan.maxWorkers)
    ensures StepsAt(LoopSetting(c, plan, j), ProcAt(c, plan, j), n)
  {
    WorldAt(c, plan, j, n);
    TickIsTheLoops(c, plan, Play(c, plan, j, n), n, LoopSetting(c, plan, j));
  }

  lemma ProcIsRun(c: Protocol.Config, plan: Plan, j: Joint)
    requires Inv(c, j, plan.maxWorkers)
    ensures IsRun(LoopSetting(c, plan, j), ProcAt(c, plan, j))
  {
    forall n: nat ensures StepsAt(LoopSetting(c, plan, j), ProcAt(c, plan, j), n) {
      NextTick(c, plan, j, n);
    }
  }

  /** The control in a joint run is a run of the loop, in the world that the workers make. */
  lemma PlayIsTheLoop(c: Protocol.Config, plan: Plan, j: Joint, n: nat)
    requires Inv(c, j, plan.maxWorkers)
    ensures Play(c, plan, j, n).proc == DownloadLoop.Play(LoopSetting(c, plan, j), j.proc, 0, n)
  {
    ProcIsRun(c, plan, j);
    RunIsPlay(LoopSetting(c, plan, j), ProcAt(c, plan, j), n);
  }

  // ----- A joint run is a run of the swarm -----

  function AllEvents(c: Protocol.Config, j: Joint, works: seq<Work>, maxWorkers: nat): seq<Swarm.Event>
    requires Inv(c, j, maxWorkers)
    decreases |works|
  {
    if works == [] then []
    else
      WorkKeepsInv(c, j, works[0], maxWorkers);
      SwarmEvent(j, works[0]) + AllEvents(c, Do(c, j, works[0], maxWorkers), works[1..], maxWorkers)
  }

  function TickEvents(c: Protocol.Config, plan: Plan, j: Joint, k: nat): seq<Swarm.Event>
    requires Inv(c, j, plan.maxWorkers)
  {
    if j.proc.control.Ended? then [] else AllEvents(c, j, plan.work(k), plan.maxWorkers)
  }

  function SwarmEvents(c: Protocol.Config, plan: Plan, j: Joint, n: nat): seq<Swarm.Event>
    requires Inv(c, j, plan.maxWorkers)
  {
    if n == 0 then []
    else SwarmEvents(c, plan, j, n - 1) + TickEvents(c, plan, Play(c, plan, j, n - 1), n - 1)
  }

  lemma SwarmCons(c: Protocol.Config, sys: Swarm.System, event: seq<Swarm.Event>, rest: seq<Swarm.Event>)
    requires Swarm.Inv(c, sys) && |event| <= 1
    ensures event != [] ==> Swarm.Inv(c, Swarm.Apply(c, sys, event[0]))
    ensures SwarmProofs.Run(c, sys, event + rest)
         == SwarmProofs.Run(c, if event == [] then sys else Swarm.Apply(c, sys, event[0]), rest)
  {
    if event == [] {
      assert event + rest == rest;
    } else {
      SwarmProofs.EventKeepsInv(c, sys, event[0]);
      assert (event + rest)[1..] == rest;
    }
  }

  lemma FirstEvent(c: Protocol.Config, j: Joint, works: seq<Work>, maxWorkers: nat, t: Joint)
    requires Inv(c, j, maxWorkers) && works != [] && t == Do(c, j, works[0], maxWorkers) && Inv(c, t, maxWorkers)
    requires DoAll(c, t, works[1..], maxWorkers).sys
          == SwarmProofs.Run(c, t.sys, AllEvents(c, t, works[1..], maxWorkers))
    ensures DoAll(c, j, works, maxWorkers).sys == SwarmProofs.Run(c, j.sys, AllEvents(c, j, works, maxWorkers))
  {
    SwarmCons(c, j.sys, SwarmEvent(j, works[0]), AllEvents(c, t, works[1..], maxWorkers));
  }

  lemma {:induction false} AllEventsAreTaken(c: Protocol.Config, j: Joint, works: seq<Work>, maxWorkers: nat)
    requires Inv(c, j, maxWorkers)
    ensures DoAll(c, j, works, maxWorkers).sys == SwarmProofs.Run(c, j.sys, AllEvents(c, j, works, maxWorkers))
    decreases |works|
  {
    if works == [] {
      return;
    }
    WorkKeepsInv(c, j, works[0], maxWorkers);
    var t := Do(c, j, works[0], maxWorkers);
    AllEventsAreTaken(c, t, works[1..], maxWorkers);
    FirstEvent(c, j, works, maxWorkers, t);
  }

  lemma TickIsASwarmRun(c: Protocol.Config, plan: Plan, j: Joint, k: nat)
    requires Inv(c, j, plan.maxWorkers)
    ensures Tick(c, plan, j, k).sys == SwarmProofs.Run(c, j.sys, TickEvents(c, plan, j, k))
  {
    if !j.proc.control.Ended? {
      AllEventsAreTaken(c, j, plan.work(k), plan.maxWorkers);
    }
  }

  /** The system has become what the events of the first n steps make of it. */
  ghost predicate AsEvents(c: Protocol.Config, plan: Plan, j: Joint, n: nat, sys: Swarm.System)
    requires Inv(c, j, plan.maxWorkers)
  {
    sys == SwarmProofs.Run(c, j.sys, SwarmEvents(c, plan, j, n))
  }

  lemma SwarmTick(c: Protocol.Config, plan: Plan, j: Joint, n: nat, t: Joint)
    requires Inv(c, j, plan.maxWorkers) && t == Play(c, plan, j, n) && AsEvents(c, plan, j, n, t.sys)
    ensures AsEvents(c, plan, j, n + 1, Play(c, plan, j, n + 1).sys)
  {
    TickIsASwarmRun(c, plan, t, n);
    WorkerRefinement.RunConcat(c, j.sys, SwarmEvents(c, plan, j, n), TickEvents(c, plan, t, n));
  }

  /** What the workers do in a joint run is a run of the swarm. */
  lemma PlayIsASwarmRun(c: Protocol.Config, plan: Plan, j: Joint, n: nat)
    requires Inv(c, j, plan.maxWorkers)
    ensures Play(c, plan, j, n).sys == SwarmProofs.Run(c, j.sys, SwarmEvents(c, plan, j, n))
  {
    for i := 0 to n
      invariant AsEvents(c, plan, j, i, Play(c, plan, j, i).sys)
    {
      SwarmTick(c, plan, j, i, Play(c, plan, j, i));
    }
  }

  // ----- What a return of downloadTorrent means -----

  /** Every return leaves nobody active (ReturnMeans). Then every worker
      has stopped, nothing is being written, and no piece is reserved. */
  lemma NobodyActive(c: Protocol.Config, j: Joint, maxWorkers: nat)
    requires Inv(c, j, maxWorkers) && j.proc.sched.active == {}
    ensures forall id :: id in j.sys.peers ==> j.sys.peers[id].mode.Stopped?
    ensures forall i :: 0 <= i < |j.sys.core.pieces| ==> j.sys.core.pieces[i] in {Missing, Complete}
    ensures j.sys.core.calls == map[]
  {
    NobodyLeft(j.proc.sched);
    NobodyBound(j.worker, j.next, j.sys.peers);
    SwarmProofs.StoppedWorkersHoldNothing(c, j.sys, []);
    assert SwarmProofs.Run(c, j.sys, []) == j.sys;
    NoCalls(c, j.sys);
  }

  lemma NobodyBound(worker: map<Key, nat>, next: nat, peers: map<nat, Swarm.Peer>)
    requires Bound({}, worker, next, peers)
    ensures forall id :: id in peers ==> peers[id].mode.Stopped?
  {
    assert forall id :: !Assigned(worker, id);
  }

  lemma NoCalls(c: Protocol.Config, sys: Swarm.System)
    requires Swarm.Inv(c, sys) && forall id :: id in sys.peers ==> sys.peers[id].mode.Stopped?
    ensures sys.core.calls == map[]
  {
    assert forall id :: id in sys.core.calls ==> Swarm.PeerOk(c, sys.core.calls, id, sys.peers[id]);
    assert sys.core.calls.Keys == {};
  }

  /** The steps of Finalize. */
  function FinalizeSteps(renamed: bool): seq<Protocol.Step> {
    [Protocol.ObserveComplete] + [Protocol.CompleteStorage(renamed)]
  }

  lemma FinalizeRun(c: Protocol.Config, core: Protocol.State, renamed: bool)
    requires Protocol.Inv(c, core)
    ensures Protocol.Run(c, core, FinalizeSteps(renamed))
         == Protocol.Apply(c, Protocol.Apply(c, core, Protocol.ObserveComplete), Protocol.CompleteStorage(renamed))
  {
    Refinement.RunCons(c, core, Protocol.ObserveComplete, [Protocol.CompleteStorage(renamed)]);
    Refinement.RunCons(c, Protocol.Apply(c, core, Protocol.ObserveComplete), Protocol.CompleteStorage(renamed), []);
    assert [Protocol.CompleteStorage(renamed)] + [] == [Protocol.CompleteStorage(renamed)];
  }

  /** A nil return happens only with the torrent complete. Then the whole content on the
      disk verifies, and Finalize succeeds unless the storage has been closed or refuses. */
  lemma NilReturnCanFinalize(c: Protocol.Config, j: Joint, maxWorkers: nat, renamed: bool)
    requires Inv(c, j, maxWorkers) && j.proc.sched.complete
    ensures AllComplete(j.sys.core.pieces)
    ensures forall i :: 0 <= i < |c.hashes| ==> Protocol.Verified(c, j.sys.core.disk, i)
    ensures var t := Protocol.Run(c, j.sys.core, FinalizeSteps(renamed));
      t.disk == j.sys.core.disk && (t.completed <==> j.sys.core.completed || (!j.sys.core.closed && renamed))
  {
    Protocol.CompleteContentIsFixed(c, j.sys.core, FinalizeSteps(renamed));
    FinalizeRun(c, j.sys.core, renamed);
  }

  /** Every return, whatever it says, is one with nobody active, and Done says that the
      scheduler has seen the torrent complete. */
  lemma ReturnMeans(c: Protocol.Config, disk: Disk, first: Result<seq<Key>>, plan: Plan, n: nat)
    requires c.Valid() && Laid(c.spans, disk) && plan.maxWorkers > 0
    ensures var start := Start(c, disk, first, plan.maxWorkers);
      && Inv(c, start, plan.maxWorkers)
      && var j := Play(c, plan, start, n);
         j.proc.control.Ended? ==>
           j.proc.sched.active == {} && (j.proc.control.outcome.Done? ==> j.proc.sched.complete)
  {
    StartSatisfiesInv(c, disk, first, plan.maxWorkers);
    var start := Start(c, disk, first, plan.maxWorkers);
    PlayIsTheLoop(c, plan, start, n);
    EndMeans(AllComplete(Protocol.Start(c, disk).pieces), first, LoopSetting(c, plan, start), 0, n);
  }

  /** The program from the restored disk on: the downloader object in the world that its
      workers make. Whatever they and their peers do, if it returns Done then every piece
      on the disk verifies; and every return leaves no worker and no reservation. */
  method Execute(c: Protocol.Config, disk: Disk, first: Result<seq<Key>>, plan: Plan, ghost last: nat)
    returns (outcome: Outcome)
    requires c.Valid() && Laid(c.spans, disk) && plan.maxWorkers > 0
    requires Inv(c, Start(c, disk, first, plan.maxWorkers), plan.maxWorkers)
    requires Play(c, plan, Start(c, disk, first, plan.maxWorkers), last).proc.control.Ended?
    ensures var j := Play(c, plan, Start(c, disk, first, plan.maxWorkers), last);
      && outcome == j.proc.control.outcome && j.sys.core.calls == map[]
      && (forall i :: 0 <= i < |j.sys.core.pieces| ==> j.sys.core.pieces[i] in {Missing, Complete})
      && (outcome.Done? ==> forall i :: 0 <= i < |c.hashes| ==> Protocol.Verified(c, j.sys.core.disk, i))
  {
    var start := Start(c, disk, first, plan.maxWorkers);
    ghost var j := Play(c, plan, start, last);
    PlayIsTheLoop(c, plan, start, last);
    ReturnMeans(c, disk, first, plan, last);
    NobodyActive(c, j, plan.maxWorkers);
    var downloader := new Download.Downloader(plan.maxWorkers, AllComplete(start.sys.core.pieces), plan.events,
                                              World(c, plan, start));
    outcome := downloader.DownloadTorrent(first, last);
    if outcome.Done? {
      NilReturnCanFinalize(c, j, plan.maxWorkers, true);
    }
  }

  /** It does return if, in the world that the workers make, every goroutine ends at some time. */
  lemma ProgramEnds(c: Protocol.Config, disk: Disk, first: Result<seq<Key>>, plan: Plan) returns (last: nat)
    requires c.Valid() && Laid(c.spans, disk) && plan.maxWorkers > 0
    requires Inv(c, Start(c, disk, first, plan.maxWorkers), plan.maxWorkers)
    requires Fair(World(c, plan, Start(c, disk, first, plan.maxWorkers)))
    ensures Play(c, plan, Start(c, disk, first, plan.maxWorkers), last).proc.control.Ended?
  {
    var start := Start(c, disk, first, plan.maxWorkers);
    var g := LoopSetting(c, plan, start);
    DownloadEnds(AllComplete(Protocol.Start(c, disk).pieces), first, g, 0);
    last :| DownloadLoop.Play(g, start.proc, 0, last).control.Ended?;
    PlayIsTheLoop(c, plan, start, last);
  }
}
