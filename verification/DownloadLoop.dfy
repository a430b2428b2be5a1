/** The control flow of downloadTorrent (main.go) as a function. What the worker goroutines
    and the piece manager do meanwhile is an input: `world(k)` is what happens elsewhere
    right before the k-th time that downloadTorrent looks at something shared. */
module DownloadLoop {
  import opened ByteStrings
  import opened Scheduler

  /** What the select statement delivers. */
  datatype Event =
    | Cancelled
    | IdleFired
    | Updated
    | ResultReady
    | Reannounced(peers: Result<seq<Key>>)

  datatype Outcome = Done | AnnounceFailed | NoPeers | Exhausted | Aborted | Stalled

  /** Why finishWorkers has been called. */
  datatype Reason = TorrentComplete | ContextDone | IdleTooLong

  datatype Control =
    | Launching                   // at the condition of the loop in launchWorkers
    | Head                        // at the checks of the event loop
    | Selecting                   // at the select statement
    | Finishing(reason: Reason)   // at the condition of the loop in finishWorkers
    | Ended(outcome: Outcome)

  datatype Proc = Proc(control: Control, sched: State, handled: nat)

  /** What others can do: a worker sends its result, or the last piece is published. */
  type Elsewhere = s: Step | s.Finish? || s.Completes? witness Completes

  /** The events that select delivers, after which the context is cancelled, and the world. */
  datatype Setting = Setting(maxWorkers: nat, events: seq<Event>, world: nat -> seq<Elsewhere>)

  function EventAt(events: seq<Event>, k: nat): Event {
    if k < |events| then events[k] else Cancelled
  }

  // ----- One step -----

  predicate Launches(p: Proc, maxWorkers: nat) {
    p.control.Launching? && |p.sched.active| < maxWorkers && p.sched.pending != [] && !p.sched.complete
  }

  /** The state machine's steps that one step of the control takes. */
  function OwnSteps(events: seq<Event>, maxWorkers: nat, p: Proc): seq<Step> {
    match p.control
    case Launching => if Launches(p, maxWorkers) then [Launch] else []
    case Selecting =>
      (match EventAt(events, p.handled)
       case ResultReady => [Take]
       case Reannounced(peers) => if peers.Success? then Offers(peers.value) else []
       case _ => [])
    case Finishing(_) => if p.sched.active == {} then [] else [Take]
    case _ => []
  }

  /** What they do to the scheduler's variables. */
  function NextSched(events: seq<Event>, maxWorkers: nat, p: Proc): State {
    match p.control
    case Launching => if Launches(p, maxWorkers) then Launched(p.sched) else p.sched
    case Selecting =>
      (match EventAt(events, p.handled)
       case ResultReady => Taken(p.sched)
       case Reannounced(peers) => if peers.Success? then Run(p.sched, Offers(peers.value), maxWorkers) else p.sched
       case _ => p.sched)
    case Finishing(_) => if p.sched.active == {} then p.sched else Taken(p.sched)
    case _ => p.sched
  }

  function Verdict(reason: Reason, complete: bool): Outcome {
    match reason
    case TorrentComplete => Done
    case ContextDone => Aborted
    case IdleTooLong => if complete then Done else Stalled
  }

  function NextControl(events: seq<Event>, maxWorkers: nat, p: Proc): Control {
    match p.control
    case Launching => if Launches(p, maxWorkers) then Launching else Head
    case Head =>
      if p.sched.complete then Finishing(TorrentComplete)
      else if p.sched.active == {} && p.sched.pending == [] then Ended(Exhausted)
      else Selecting
    case Selecting =>
      (match EventAt(events, p.handled)
       case Cancelled => Finishing(ContextDone)
       case IdleFired => Finishing(IdleTooLong)
       case Updated => Launching
       case ResultReady => if p.sched.results == [] then Selecting else Launching
       case Reannounced(peers) => if peers.Success? then Launching else Head)
    case Finishing(reason) =>
      if p.sched.active == {} then Ended(Verdict(reason, p.sched.complete)) else p.control
    case Ended(_) => p.control
  }

  function OwnStep(events: seq<Event>, maxWorkers: nat, p: Proc): Proc {
    var next := NextControl(events, maxWorkers, p);
    Proc(next, NextSched(events, maxWorkers, p),
         if p.control.Selecting? && (next.Launching? || next.Head?) then p.handled + 1 else p.handled)
  }

  function Others(g: Setting, p: Proc, k: nat): Proc {
    p.(sched := Run(p.sched, g.world(k), g.maxWorkers))
  }

  function Tick(g: Setting, p: Proc, k: nat): Proc {
    if p.control.Ended? then p else OwnStep(g.events, g.maxWorkers, Others(g, p, k))
  }

  /** n steps, the first of them at time k. */
  function Play(g: Setting, p: Proc, k: nat, n: nat): Proc
    decreases n
  {
    if n == 0 then p else Play(g, Tick(g, p, k), k + 1, n - 1)
  }

  /** After the first announce. */
  function Begin(s: State, first: Result<seq<Key>>, maxWorkers: nat): Proc {
    if first.Failure? then Proc(Ended(AnnounceFailed), s, 0)
    else if first.value == [] then Proc(Ended(NoPeers), s, 0)
    else Proc(Launching, Run(s, Offers(first.value), maxWorkers), 0)
  }

  lemma OneStep(s: State, step: Step, maxWorkers: nat)
    ensures Run(s, [], maxWorkers) == s && Run(s, [step], maxWorkers) == Scheduler.Apply(s, step, maxWorkers)
  {
    assert [step] == [] + [step];
    RunSnoc(s, [], step, maxWorkers);
  }

  lemma NextIsScheduled(events: seq<Event>, maxWorkers: nat, p: Proc)
    ensures NextSched(events, maxWorkers, p) == Run(p.sched, OwnSteps(events, maxWorkers, p), maxWorkers)
  {
    OneStep(p.sched, Launch, maxWorkers);
    OneStep(p.sched, Take, maxWorkers);
  }

  // ----- Playing on -----

  lemma {:induction false} PlayConcat(g: Setting, p: Proc, k: nat, m: nat, n: nat)
    ensures Play(g, p, k, m + n) == Play(g, Play(g, p, k, m), k + m, n)
    decreases m
  {
    if m > 0 {
      PlayConcat(g, Tick(g, p, k), k + 1, m - 1, n);
    }
  }

  lemma PlayOne(g: Setting, p: Proc, k: nat)
    ensures Play(g, p, k, 1) == Tick(g, p, k)
  {
    assert Play(g, Tick(g, p, k), k + 1, 0) == Tick(g, p, k);
  }

  lemma PlaySnoc(g: Setting, p: Proc, k: nat, n: nat)
    ensures Play(g, p, k, n + 1) == Tick(g, Play(g, p, k, n), k + n)
  {
    PlayConcat(g, p, k, n, 1);
    PlayOne(g, Play(g, p, k, n), k + n);
  }

  lemma {:induction false} EndStays(g: Setting, p: Proc, k: nat, n: nat)
    requires p.control.Ended?
    ensures Play(g, p, k, n) == p
    decreases n
  {
    if n > 0 {
      EndStays(g, p, k + 1, n - 1);
    }
  }

  /** The end does not depend on how long one plays on. */
  lemma EndIsUnique(g: Setting, p: Proc, k: nat, m: nat, n: nat)
    requires Play(g, p, k, m).control.Ended? && Play(g, p, k, n).control.Ended?
    ensures Play(g, p, k, m) == Play(g, p, k, n)
  {
    if m <= n {
      PlayConcat(g, p, k, m, n - m);
      EndStays(g, Play(g, p, k, m), k + m, n - m);
    } else {
      EndIsUnique(g, p, k, n, m);
    }
  }

  // ----- Runs as functions of time -----

  predicate StepsAt(g: Setting, run: nat -> Proc, i: nat) {
    run(i + 1) == Tick(g, run(i), i)
  }

  /** run(i) is where the control is at time i. */
  ghost predicate IsRun(g: Setting, run: nat -> Proc) {
    forall i :: StepsAt(g, run, i)
  }

  function RunOf(g: Setting, p: Proc): nat -> Proc {
    (i: nat) => Play(g, p, 0, i)
  }

  lemma PlayIsRun(g: Setting, p: Proc)
    ensures IsRun(g, RunOf(g, p))
  {
    forall i: nat ensures StepsAt(g, RunOf(g, p), i) {
      PlaySnoc(g, p, 0, i);
    }
  }

  lemma {:induction false} RunIsPlay(g: Setting, run: nat -> Proc, n: nat)
    requires IsRun(g, run)
    ensures run(n) == Play(g, run(0), 0, n)
  {
    if n > 0 {
      RunIsPlay(g, run, n - 1);
      assert StepsAt(g, run, n - 1);
      PlaySnoc(g, run(0), 0, n - 1);
    }
  }

  lemma {:induction false} RunStays(g: Setting, run: nat -> Proc, i: nat, j: nat)
    requires IsRun(g, run) && i <= j && run(i).control.Ended?
    ensures run(j) == run(i)
    decreases j - i
  {
    if i < j {
      assert StepsAt(g, run, i);
      RunStays(g, run, i + 1, j);
    }
  }

  /** A run that has ended by time `last` has that much time left. */
  lemma NotEndedYet(g: Setting, run: nat -> Proc, i: nat, last: nat)
    requires IsRun(g, run) && run(last).control.Ended? && !run(i).control.Ended?
    ensures i < last
  {
    if last <= i {
      RunStays(g, run, last, i);
    }
  }

  // The next step of a run: o is the process once the others have run.

  lemma LaunchTick(g: Setting, run: nat -> Proc, i: nat, o: Proc)
    requires IsRun(g, run) && o == Others(g, run(i), i) && o.control.Launching?
    ensures run(i + 1) == if Launches(o, g.maxWorkers) then o.(sched := Launched(o.sched)) else o.(control := Head)
  {
    assert StepsAt(g, run, i);
  }

  lemma FinishTick(g: Setting, run: nat -> Proc, i: nat, o: Proc)
    requires IsRun(g, run) && o == Others(g, run(i), i) && o.control.Finishing?
    ensures run(i + 1)
         == if o.sched.active == {} then o.(control := Ended(Verdict(o.control.reason, o.sched.complete)))
            else o.(sched := Taken(o.sched))
  {
    assert StepsAt(g, run, i);
  }

  lemma HeadTick(g: Setting, run: nat -> Proc, i: nat, o: Proc)
    requires IsRun(g, run) && o == Others(g, run(i), i) && o.control.Head?
    ensures run(i + 1)
         == o.(control := if o.sched.complete then Finishing(TorrentComplete)
                          else if o.sched.active == {} && o.sched.pending == [] then Ended(Exhausted)
                          else Selecting)
  {
    assert StepsAt(g, run, i);
  }

  lemma SelectTick(g: Setting, run: nat -> Proc, i: nat, o: Proc)
    requires IsRun(g, run) && o == Others(g, run(i), i) && o.control.Selecting?
    ensures run(i + 1) == match EventAt(g.events, o.handled)
      case Cancelled => o.(control := Finishing(ContextDone))
      case IdleFired => o.(control := Finishing(IdleTooLong))
      case Updated => Proc(Launching, o.sched, o.handled + 1)
      case ResultReady => if o.sched.results == [] then o else Proc(Launching, Taken(o.sched), o.handled + 1)
      case Reannounced(peers) =>
        if peers.Success? then Proc(Launching, Run(o.sched, Offers(peers.value), g.maxWorkers), o.handled + 1)
        else Proc(Head, o.sched, o.handled + 1)
  {
    assert StepsAt(g, run, i);
  }

  // ----- The invariant -----

  /** Every re-announce handled so far has made its addresses known. */
  ghost predicate KnowsHandled(s: State, events: seq<Event>, n: nat)
    requires n <= |events|
  {
    forall i :: 0 <= i < n && events[i].Reannounced? && events[i].peers.Success? ==> Knows(s, events[i].peers.value)
  }

  /** What has made finishWorkers necessary. */
  predicate Because(reason: Reason, event: Event, complete: bool) {
    match reason
    case TorrentComplete => complete
    case ContextDone => event.Cancelled?
    case IdleTooLong => event.IdleFired?
  }

  /** Why the loop has ended, `handled` events having been handled before. */
  predicate EndedFor(outcome: Outcome, events: seq<Event>, handled: nat, s: State) {
    match outcome
    case Done => s.complete
    case Exhausted => !s.complete && s.pending == [] && AllTried(s)
    case Aborted => EventAt(events, handled).Cancelled?
    case Stalled => !s.complete && EventAt(events, handled).IdleFired?
    case _ => false
  }

  predicate ControlOk(events: seq<Event>, maxWorkers: nat, p: Proc) {
    match p.control
    case Launching => true
    case Head => Saturated(p.sched, maxWorkers)
    case Selecting => Saturated(p.sched, maxWorkers) && p.sched.active != {}
    case Finishing(reason) => Because(reason, EventAt(events, p.handled), p.sched.complete)
    case Ended(outcome) =>
      && p.sched.active == {} && p.sched.running == {} && p.sched.results == []
      && EndedFor(outcome, events, p.handled, p.sched)
  }

  ghost predicate ProcOk(events: seq<Event>, maxWorkers: nat, p: Proc) {
    && maxWorkers > 0 && Ok(p.sched, maxWorkers) && p.handled <= |events|
    && KnowsHandled(p.sched, events, p.handled) && ControlOk(events, maxWorkers, p)
  }

  /** Others end workers and complete the torrent; the scheduler's own variables they leave alone. */
  lemma {:induction false} OthersLeaveAlone(s: State, steps: seq<Elsewhere>, maxWorkers: nat)
    ensures var t := Run(s, steps, maxWorkers);
      && t == s.(running := t.running, results := t.results, complete := t.complete)
      && (s.complete ==> t.complete) && s.results <= t.results
    decreases |steps|
  {
    if steps != [] {
      OthersLeaveAlone(s, steps[..|steps| - 1], maxWorkers);
    }
  }

  lemma OthersKeepOk(g: Setting, p: Proc, k: nat)
    requires ProcOk(g.events, g.maxWorkers, p) && !p.control.Ended?
    ensures ProcOk(g.events, g.maxWorkers, Others(g, p, k))
  {
    OthersLeaveAlone(p.sched, g.world(k), g.maxWorkers);
    RunKeepsOk(p.sched, g.world(k), g.maxWorkers);
  }

  lemma KnowsOneMore(events: seq<Event>, maxWorkers: nat, p: Proc)
    requires p.handled <= |events| && KnowsHandled(p.sched, events, p.handled)
    ensures var q := OwnStep(events, maxWorkers, p);
      q.handled <= |events| && KnowsHandled(q.sched, events, q.handled)
  {
    NextIsScheduled(events, maxWorkers, p);
    RunOnlyGrows(p.sched, OwnSteps(events, maxWorkers, p), maxWorkers);
    if p.control.Selecting? && p.handled < |events| && events[p.handled].Reannounced? {
      var peers := events[p.handled].peers;
      if peers.Success? {
        OffersAreExact(p.sched, peers.value, maxWorkers);
      }
    }
  }

  /** The control after a step that does not end the loop. */
  lemma OwnStepGoesOn(events: seq<Event>, maxWorkers: nat, p: Proc)
    requires maxWorkers > 0 && ControlOk(events, maxWorkers, p) && !NextControl(events, maxWorkers, p).Ended?
    ensures ControlOk(events, maxWorkers, OwnStep(events, maxWorkers, p))
  {
    if p.control.Selecting? {
      SelectGoesOn(events, maxWorkers, p);
    }
  }

  lemma SelectGoesOn(events: seq<Event>, maxWorkers: nat, p: Proc)
    requires ControlOk(events, maxWorkers, p) && p.control.Selecting?
    ensures ControlOk(events, maxWorkers, OwnStep(events, maxWorkers, p))
  {
    match EventAt(events, p.handled)
    case Cancelled =>
    case IdleFired =>
    case Updated =>
    case ResultReady =>
    case Reannounced(_) =>
  }

  /** finishWorkers has seen the last result, or nobody is left to try. */
  lemma OwnStepEnds(events: seq<Event>, maxWorkers: nat, p: Proc)
    requires ControlOk(events, maxWorkers, p) && NextControl(events, maxWorkers, p).Ended?
    requires p.sched.running == {} && p.sched.results == [] && (p.control.Head? ==> AllTried(p.sched))
    ensures ControlOk(events, maxWorkers, OwnStep(events, maxWorkers, p))
  {
  }

  lemma NextKeepsOk(events: seq<Event>, maxWorkers: nat, p: Proc)
    requires Ok(p.sched, maxWorkers)
    ensures Ok(NextSched(events, maxWorkers, p), maxWorkers)
  {
    NextIsScheduled(events, maxWorkers, p);
    RunKeepsOk(p.sched, OwnSteps(events, maxWorkers, p), maxWorkers);
  }

  lemma OwnStepKeepsOk(events: seq<Event>, maxWorkers: nat, p: Proc)
    requires ProcOk(events, maxWorkers, p)
    ensures ProcOk(events, maxWorkers, OwnStep(events, maxWorkers, p))
  {
    NextKeepsOk(events, maxWorkers, p);
    KnowsOneMore(events, maxWorkers, p);
    if NextControl(events, maxWorkers, p).Ended? {
      NobodyLeft(p.sched);
      OwnStepEnds(events, maxWorkers, p);
    } else {
      OwnStepGoesOn(events, maxWorkers, p);
    }
  }

  lemma TickKeepsOk(g: Setting, p: Proc, k: nat)
    requires ProcOk(g.events, g.maxWorkers, p)
    ensures ProcOk(g.events, g.maxWorkers, Tick(g, p, k))
  {
    if !p.control.Ended? {
      OthersKeepOk(g, p, k);
      OwnStepKeepsOk(g.events, g.maxWorkers, Others(g, p, k));
    }
  }

  lemma NothingThenOk(g: Setting, p: Proc, k: nat)
    requires ProcOk(g.events, g.maxWorkers, p)
    ensures ProcOk(g.events, g.maxWorkers, Play(g, p, k, 0))
  {
  }

  lemma TickThenOk(g: Setting, p: Proc, k: nat, n: nat)
    requires n > 0 && ProcOk(g.events, g.maxWorkers, Play(g, Tick(g, p, k), k + 1, n - 1))
    ensures ProcOk(g.events, g.maxWorkers, Play(g, p, k, n))
  {
  }

  /** At every point of every run, whatever the world does: nothing more can be started
      at a loop head; when the loop has ended no worker is active, running or reporting
      and the outcome is justified; every re-announce handled is known. */
  lemma {:induction false} PlayKeepsOk(g: Setting, p: Proc, k: nat, n: nat)
    requires ProcOk(g.events, g.maxWorkers, p)
    ensures ProcOk(g.events, g.maxWorkers, Play(g, p, k, n))
    decreases n
  {
    if n == 0 {
      NothingThenOk(g, p, k);
    } else {
      TickKeepsOk(g, p, k);
      PlayKeepsOk(g, Tick(g, p, k), k + 1, n - 1);
      TickThenOk(g, p, k, n);
    }
  }

  // ----- The state machine's steps in a run -----

  function TickSteps(g: Setting, p: Proc, k: nat): seq<Step> {
    if p.control.Ended? then [] else g.world(k) + OwnSteps(g.events, g.maxWorkers, Others(g, p, k))
  }

  function PlaySteps(g: Setting, p: Proc, k: nat, n: nat): seq<Step>
    decreases n
  {
    if n == 0 then [] else TickSteps(g, p, k) + PlaySteps(g, Tick(g, p, k), k + 1, n - 1)
  }

  lemma TickIsScheduled(g: Setting, p: Proc, k: nat)
    ensures Tick(g, p, k).sched == Run(p.sched, TickSteps(g, p, k), g.maxWorkers)
  {
    if !p.control.Ended? {
      NextIsScheduled(g.events, g.maxWorkers, Others(g, p, k));
      RunConcat(p.sched, g.world(k), OwnSteps(g.events, g.maxWorkers, Others(g, p, k)), g.maxWorkers);
    }
  }

  /** What a run does to the scheduler's variables is a run of the state machine. */
  lemma {:induction false} PlayIsScheduled(g: Setting, p: Proc, k: nat, n: nat)
    ensures Play(g, p, k, n).sched == Run(p.sched, PlaySteps(g, p, k, n), g.maxWorkers)
    decreases n
  {
    if n > 0 {
      TickIsScheduled(g, p, k);
      PlayIsScheduled(g, Tick(g, p, k), k + 1, n - 1);
      RunConcat(p.sched, TickSteps(g, p, k), PlaySteps(g, Tick(g, p, k), k + 1, n - 1), g.maxWorkers);
    }
  }

  lemma BeginIsOk(complete: bool, first: Result<seq<Key>>, events: seq<Event>, maxWorkers: nat)
    requires maxWorkers > 0 && first.Success? && first.value != []
    ensures ProcOk(events, maxWorkers, Begin(Start(complete), first, maxWorkers))
    ensures Knows(Begin(Start(complete), first, maxWorkers).sched, first.value)
  {
    StartIsOk(complete, maxWorkers);
    RunKeepsOk(Start(complete), Offers(first.value), maxWorkers);
    OffersAreExact(Start(complete), first.value, maxWorkers);
  }

  /** From the first announce on, at every point of every run: the invariant; the first
      addresses are known; and at most two workers have been launched per address discovered. */
  lemma DownloadKeepsOk(complete: bool, first: Result<seq<Key>>, g: Setting, k: nat, n: nat)
    requires g.maxWorkers > 0 && first.Success? && first.value != []
    ensures var p := Play(g, Begin(Start(complete), first, g.maxWorkers), k, n);
      && ProcOk(g.events, g.maxWorkers, p) && Knows(p.sched, first.value)
      && p.sched.launches <= 2 * |p.sched.discovered|
  {
    var p := Begin(Start(complete), first, g.maxWorkers);
    BeginIsOk(complete, first, g.events, g.maxWorkers);
    PlayKeepsOk(g, p, k, n);
    PlayIsScheduled(g, p, k, n);
    RunOnlyGrows(p.sched, PlaySteps(g, p, k, n), g.maxWorkers);
    RunConcat(Start(complete), Offers(first.value), PlaySteps(g, p, k, n), g.maxWorkers);
    LaunchesAreBounded(complete, Offers(first.value) + PlaySteps(g, p, k, n), g.maxWorkers);
  }

  /** Whatever it returns, nobody is active, and Done is returned only of a complete torrent. */
  lemma EndMeans(complete: bool, first: Result<seq<Key>>, g: Setting, k: nat, n: nat)
    requires g.maxWorkers > 0
    ensures var p := Play(g, Begin(Start(complete), first, g.maxWorkers), k, n);
      p.control.Ended? ==> p.sched.active == {} && (p.control.outcome.Done? ==> p.sched.complete)
  {
    if first.Success? && first.value != [] {
      DownloadKeepsOk(complete, first, g, k, n);
    } else {
      EndStays(g, Begin(Start(complete), first, g.maxWorkers), k, n);
    }
  }

  // ----- The loop ends if every worker does -----

  ghost predicate EndsLater(world: nat -> seq<Elsewhere>, key: Key, k: nat) {
    exists m: nat :: k <= m && Finish(key) in world(m)
  }

  /** Whatever peer is running, it ends at some later time. */
  ghost predicate Fair(world: nat -> seq<Elsewhere>) {
    forall key, k :: EndsLater(world, key, k)
  }

  ghost predicate Ends(g: Setting, p: Proc, k: nat) {
    exists n: nat :: Play(g, p, k, n).control.Ended?
  }

  lemma HasEnded(g: Setting, p: Proc, k: nat)
    requires p.control.Ended?
    ensures Ends(g, p, k)
  {
    EndStays(g, p, k, 0);
  }

  lemma TickEnds(g: Setting, p: Proc, k: nat)
    ensures Ends(g, Tick(g, p, k), k + 1) ==> Ends(g, p, k)
  {
    if Ends(g, Tick(g, p, k), k + 1) {
      var n: nat :| Play(g, Tick(g, p, k), k + 1, n).control.Ended?;
      assert Play(g, p, k, n + 1) == Play(g, Tick(g, p, k), k + 1, n);
    }
  }

  /** Waiting for a result: in finishWorkers, or at a select that will deliver one. */
  predicate Waiting(events: seq<Event>, p: Proc) {
    || (p.control.Finishing? && p.sched.active != {})
    || (p.control.Selecting? && EventAt(events, p.handled).ResultReady?)
  }

  /** A running worker is still running, or some result has come. */
  lemma {:induction false} StillRunning(s: State, steps: seq<Elsewhere>, key: Key, maxWorkers: nat)
    requires key in s.running || s.results != []
    ensures var t := Run(s, steps, maxWorkers);
      t.results != [] || (key in t.running && Finish(key) !in steps)
    decreases |steps|
  {
    if steps != [] {
      StillRunning(s, steps[..|steps| - 1], key, maxWorkers);
      assert steps == steps[..|steps| - 1] + [steps[|steps| - 1]];
    }
  }

  /** The result has been taken. */
  predicate Took(p: Proc, q: Proc) {
    if p.control.Finishing? then q.control == p.control && q.handled == p.handled && |q.sched.active| < |p.sched.active|
    else q.control.Launching? && q.handled == p.handled + 1
  }

  lemma TakesOne(events: seq<Event>, maxWorkers: nat, p: Proc)
    requires Waiting(events, p) && p.sched.results != [] && p.sched.results[0] in p.sched.active
    ensures Took(p, OwnStep(events, maxWorkers, p))
  {
  }

  lemma StaysBlocked(events: seq<Event>, maxWorkers: nat, p: Proc)
    requires Waiting(events, p) && p.sched.results == []
    ensures OwnStep(events, maxWorkers, p) == p
  {
  }

  lemma NothingYet(g: Setting, p: Proc, k: nat, key: Key, m: nat)
    requires k <= m && Finish(key) in g.world(m) && (key in p.sched.running || p.sched.results != [])
    requires Others(g, p, k).sched.results == []
    ensures k < m && key in Others(g, p, k).sched.running && Others(g, p, k).sched.active == p.sched.active
  {
    StillRunning(p.sched, g.world(k), key, g.maxWorkers);
    OthersLeaveAlone(p.sched, g.world(k), g.maxWorkers);
  }

  lemma SomeResult(g: Setting, p: Proc, k: nat)
    requires ProcOk(g.events, g.maxWorkers, p) && Waiting(g.events, p) && Others(g, p, k).sched.results != []
    ensures Took(p, Tick(g, p, k))
  {
    OthersLeaveAlone(p.sched, g.world(k), g.maxWorkers);
    OthersKeepOk(g, p, k);
    TakeKeepsOk(Others(g, p, k).sched, g.maxWorkers);
    TakesOne(g.events, g.maxWorkers, Others(g, p, k));
  }

  /** One step of waiting for a worker that will have ended by time m. */
  lemma OneWait(g: Setting, p: Proc, k: nat, key: Key, m: nat) returns (q: Proc, taken: bool)
    requires ProcOk(g.events, g.maxWorkers, p) && Waiting(g.events, p) && k <= m && Finish(key) in g.world(m)
    requires key in p.sched.running || p.sched.results != []
    ensures ProcOk(g.events, g.maxWorkers, q) && (Ends(g, q, k + 1) ==> Ends(g, p, k))
    ensures taken ==> Took(p, q)
    ensures !taken ==> k < m && key in q.sched.running
    ensures !taken ==> q.control == p.control && q.handled == p.handled && q.sched.active == p.sched.active
  {
    q, taken := Tick(g, p, k), Others(g, p, k).sched.results != [];
    TickKeepsOk(g, p, k);
    TickEnds(g, p, k);
    if taken {
      SomeResult(g, p, k);
    } else {
      NothingYet(g, p, k, key, m);
      StaysBlocked(g.events, g.maxWorkers, Others(g, p, k));
    }
  }

  /** Some time later the result has been taken; what ends from there ends from here. */
  lemma {:induction false} WaitsFor(g: Setting, p: Proc, k: nat, key: Key, m: nat) returns (later: nat, q: Proc)
    requires ProcOk(g.events, g.maxWorkers, p) && Waiting(g.events, p) && k <= m && Finish(key) in g.world(m)
    requires key in p.sched.running || p.sched.results != []
    ensures Took(p, q) && ProcOk(g.events, g.maxWorkers, q)
    ensures Ends(g, q, later) ==> Ends(g, p, k)
    decreases m - k
  {
    var next, taken := OneWait(g, p, k, key, m);
    if taken {
      return k + 1, next;
    }
    later, q := WaitsFor(g, next, k + 1, key, m);
  }

  lemma Waits(g: Setting, p: Proc, k: nat) returns (later: nat, q: Proc)
    requires ProcOk(g.events, g.maxWorkers, p) && Waiting(g.events, p) && Fair(g.world)
    ensures Took(p, q) && ProcOk(g.events, g.maxWorkers, q)
    ensures Ends(g, q, later) ==> Ends(g, p, k)
  {
    var key := NO_KEY;
    if p.sched.results == [] {
      SomebodyLeft(p.sched);
      key :| key in p.sched.running;
    }
    assert EndsLater(g.world, key, k);
    var m: nat :| k <= m && Finish(key) in g.world(m);
    later, q := WaitsFor(g, p, k, key, m);
  }

  function Rank(control: Control): nat {
    match control
    case Launching => 3
    case Head => 2
    case Selecting => 1
    case _ => 0
  }

  function Left(p: Proc): nat {
    if p.control.Launching? then |p.sched.pending| else if p.control.Finishing? then |p.sched.active| else 0
  }

  /** Closer to the end. */
  predicate Closer(p: Proc, q: Proc) {
    || q.handled > p.handled
    || (q.handled == p.handled && Rank(q.control) < Rank(p.control))
    || (q.handled == p.handled && Rank(q.control) == Rank(p.control) && Left(q) < Left(p))
  }

  lemma TickIsCloser(g: Setting, p: Proc, k: nat)
    requires !Waiting(g.events, p) && !p.control.Ended?
    ensures Tick(g, p, k).control.Ended? || Closer(p, Tick(g, p, k))
  {
    OthersLeaveAlone(p.sched, g.world(k), g.maxWorkers);
  }

  /** If every worker ends at some time after any time, then downloadTorrent returns,
      for every sequence of events. */
  lemma {:induction false} FairRunsEnd(g: Setting, p: Proc, k: nat)
    requires ProcOk(g.events, g.maxWorkers, p) && Fair(g.world)
    ensures Ends(g, p, k)
    decreases |g.events| - p.handled, Rank(p.control), Left(p)
  {
    if p.control.Ended? {
      HasEnded(g, p, k);
    } else if Waiting(g.events, p) {
      var later, q := Waits(g, p, k);
      FairRunsEnd(g, q, later);
    } else {
      TickKeepsOk(g, p, k);
      TickIsCloser(g, p, k);
      if Tick(g, p, k).control.Ended? {
        HasEnded(g, Tick(g, p, k), k + 1);
      } else {
        FairRunsEnd(g, Tick(g, p, k), k + 1);
      }
      TickEnds(g, p, k);
    }
  }

  lemma DownloadEnds(complete: bool, first: Result<seq<Key>>, g: Setting, k: nat)
    requires g.maxWorkers > 0 && Fair(g.world)
    ensures Ends(g, Begin(Start(complete), first, g.maxWorkers), k)
  {
    if first.Success? && first.value != [] {
      BeginIsOk(complete, first, g.events, g.maxWorkers);
      FairRunsEnd(g, Begin(Start(complete), first, g.maxWorkers), k);
    } else {
      HasEnded(g, Begin(Start(complete), first, g.maxWorkers), k);
    }
  }
}
