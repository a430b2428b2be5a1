/** downloadTorrent as an object (main.go). Every method is specified by the functions of
    DownloadLoop: whenever it looks at the results channel or asks the manager, first
    the others run, as the world given to the constructor says. */
module Download {
  import opened ByteStrings
  import opened Scheduler
  import opened DownloadLoop

  class Downloader {
    const maxWorkers: nat
    const events: seq<Event>                  // what select delivers, in order
    const world: nat -> seq<Elsewhere>        // what the others do each time before they are looked at
    var active: set<Key>
    var queued: set<Key>
    var attempts: map<Key, nat>
    var pending: seq<Key>
    var running: set<Key>
    var results: seq<Key>
    var complete: bool
    var handled: nat
    var clock: nat                            // how often the others have been looked at
    ghost var control: Control
    ghost var discovered: set<Key>
    ghost var launches: nat

    ghost function View(): State
      reads this
    {
      State(active, queued, attempts, pending, running, results, complete, discovered, launches)
    }

    ghost function Process(): Proc
      reads this
    {
      Proc(control, View(), handled)
    }

    ghost function Given(): Setting {
      Setting(maxWorkers, events, world)
    }

    /** The process is where the run is at this time. */
    ghost predicate At(run: nat -> Proc)
      reads this
    {
      IsRun(Given(), run) && Process() == run(clock)
    }

    /** The same once the others have run. */
    ghost predicate Looking(run: nat -> Proc)
      reads this
    {
      IsRun(Given(), run) && Process() == Others(Given(), run(clock), clock)
    }

    constructor (maxWorkers: nat, complete: bool, events: seq<Event>, world: nat -> seq<Elsewhere>)
      ensures this.maxWorkers == maxWorkers && this.events == events && this.world == world
      ensures View() == Start(complete) && handled == 0 && clock == 0
    {
      this.maxWorkers, this.complete, this.events, this.world := maxWorkers, complete, events, world;
      active, queued, attempts, pending := {}, {}, map[], [];
      running, results, discovered, launches := {}, [], {}, 0;
      handled, clock, control := 0, 0, Head;
    }

    /** Workers end and send their results, and the torrent may become complete. */
    method OthersRun()
      modifies this`running, this`results, this`complete
      ensures View() == Run(old(View()), world(clock), maxWorkers)
    {
      var steps := world(clock);
      for i := 0 to |steps|
        invariant View() == Run(old(View()), steps[..i], maxWorkers)
      {
        RunSnoc(old(View()), steps[..i], steps[i], maxWorkers);
        assert steps[..i + 1] == steps[..i] + [steps[i]];
        match steps[i]
        case Finish(key) =>
          if key in running {
            running, results := running - {key}, results + [key];
          }
        case Completes => complete := true;
      }
      assert steps[..|steps|] == steps;
    }

    method AddPeers(peers: seq<Key>)
      modifies this`queued, this`pending, this`discovered
      ensures View() == Run(old(View()), Offers(peers), maxWorkers)
    {
      assert Offers(peers[..0]) == [];
      for i := 0 to |peers|
        invariant View() == Run(old(View()), Offers(peers[..i]), maxWorkers)
      {
        var key := peers[i];
        OffersSnoc(peers[..i], key);
        assert peers[..i + 1] == peers[..i] + [key];
        RunSnoc(old(View()), Offers(peers[..i]), Offer(key), maxWorkers);
        discovered := if key == NO_KEY then discovered else discovered + {key};
        if key == NO_KEY || Tries(attempts, key) >= MAX_ATTEMPTS {
          continue;
        }
        if key in active {
          continue;
        }
        if key in queued {
          continue;
        }
        queued := queued + {key};
        pending := pending + [key];
      }
      assert peers[..|peers|] == peers;
    }

    method LaunchOne()
      requires |active| < maxWorkers && |pending| > 0
      modifies this`active, this`queued, this`attempts, this`pending, this`running, this`launches
      ensures View() == Launched(old(View())) && |pending| < |old(pending)|
    {
      var key := pending[0];
      pending := pending[1..];
      queued := queued - {key};
      active := active + {key};
      attempts := attempts[key := Tries(attempts, key) + 1];
      running := running + {key};
      launches := launches + 1;
    }

    /** One turn of the loop in launchWorkers. */
    method LaunchNext(ghost run: nat -> Proc)
      requires Looking(run) && Launches(Process(), maxWorkers)
      modifies this
      ensures Looking(run) && control.Launching? && handled == old(handled) && clock == old(clock) + 1
      ensures |pending| < |old(pending)|
    {
      LaunchTick(Given(), run, clock, Process());
      LaunchOne();
      clock := clock + 1;
      OthersRun();
    }

    /** Launches until the torrent is complete, no peer waits, or every slot is taken. */
    method LaunchWorkers(ghost run: nat -> Proc)
      requires At(run) && control.Launching?
      modifies this
      ensures At(run) && control.Head? && handled == old(handled) && old(clock) < clock
    {
      OthersRun();
      while |active| < maxWorkers && |pending| > 0 && !complete
        invariant Looking(run) && control.Launching? && handled == old(handled) && old(clock) <= clock
        decreases |pending|
      {
        LaunchNext(run);
      }
      LaunchTick(Given(), run, clock, Process());
      control, clock := Head, clock + 1;
    }

    /** Receives one result if there is one. */
    method TakeResult()
      modifies this`active, this`results
      ensures View() == Taken(old(View()))
    {
      if results != [] {
        active, results := active - {results[0]}, results[1..];
      }
    }

    /** One turn of the loop in finishWorkers. */
    method ReceiveNext(ghost run: nat -> Proc)
      requires Looking(run) && control.Finishing? && active != {}
      modifies this`active, this`running, this`results, this`complete, this`clock
      ensures Looking(run) && clock == old(clock) + 1
    {
      FinishTick(Given(), run, clock, Process());
      TakeResult();
      clock := clock + 1;
      OthersRun();
    }

    /** The rest of finishWorkers, the workers having been told to stop, and what is
        returned then. By time `last` all of them have ended. */
    method FinishWorkers(reason: Reason, ghost run: nat -> Proc, ghost last: nat) returns (outcome: Outcome)
      requires At(run) && control == Finishing(reason) && run(last).control.Ended?
      modifies this`active, this`running, this`results, this`complete, this`control, this`clock
      ensures At(run) && control == Ended(outcome) && old(clock) < clock
    {
      OthersRun();
      while active != {}
        invariant Looking(run) && control == Finishing(reason) && old(clock) <= clock
        decreases last - clock
      {
        NotEndedYet(Given(), run, clock, last);
        ReceiveNext(run);
      }
      FinishTick(Given(), run, clock, Process());
      match reason {
        case TorrentComplete => outcome := Done;
        case ContextDone => outcome := Aborted;
        case IdleTooLong => outcome := if complete then Done else Stalled;
      }
      control, clock := Ended(outcome), clock + 1;
    }

    /** Nobody has sent a result yet. */
    method WaitOn(ghost run: nat -> Proc)
      requires Looking(run) && control.Selecting? && EventAt(events, handled).ResultReady? && results == []
      modifies this`running, this`results, this`complete, this`clock
      ensures Looking(run) && clock == old(clock) + 1
    {
      SelectTick(Given(), run, clock, Process());
      clock := clock + 1;
      OthersRun();
    }

    /** select blocks until some worker has sent its result. */
    method AwaitResult(ghost run: nat -> Proc, ghost last: nat)
      requires At(run) && control.Selecting? && EventAt(events, handled).ResultReady? && run(last).control.Ended?
      modifies this`running, this`results, this`complete, this`clock
      ensures Looking(run) && results != [] && old(clock) <= clock
    {
      OthersRun();
      while results == []
        invariant Looking(run) && old(clock) <= clock
        decreases last - clock
      {
        NotEndedYet(Given(), run, clock, last);
        WaitOn(run);
      }
    }

    method ReceiveResult(ghost run: nat -> Proc, ghost last: nat)
      requires At(run) && control.Selecting? && EventAt(events, handled).ResultReady? && run(last).control.Ended?
      modifies this
      ensures At(run) && control.Launching? && handled == old(handled) + 1 && old(clock) < clock
    {
      AwaitResult(run, last);
      SelectTick(Given(), run, clock, Process());
      TakeResult();
      control, handled, clock := Launching, handled + 1, clock + 1;
    }

    /** The select statement. */
    method Select(ghost run: nat -> Proc, ghost last: nat) returns (event: Event)
      requires At(run) && control.Selecting? && run(last).control.Ended?
      modifies this
      ensures At(run) && event == EventAt(events, old(handled)) && old(clock) < clock
      ensures control == match event
        case Cancelled => Finishing(ContextDone)
        case IdleFired => Finishing(IdleTooLong)
        case Reannounced(peers) => if peers.Success? then Launching else Head
        case _ => Launching
      ensures handled == if control.Finishing? then old(handled) else old(handled) + 1
    {
      event := if handled < |events| then events[handled] else Cancelled;
      if event.ResultReady? {
        ReceiveResult(run, last);
        return;
      }
      OthersRun();
      SelectTick(Given(), run, clock, Process());
      match event {
        case Cancelled => control := Finishing(ContextDone);
        case IdleFired => control := Finishing(IdleTooLong);
        case Updated => control, handled := Launching, handled + 1;
        case Reannounced(peers) =>
          if peers.Success? {
            AddPeers(peers.value);
            control := Launching;
          } else {
            control := Head;
          }
          handled := handled + 1;
      }
      clock := clock + 1;
    }

    /** The select statement and what is done with the event. */
    method HandleEvent(ghost run: nat -> Proc, ghost last: nat) returns (outcome: Option<Outcome>)
      requires At(run) && control.Selecting? && run(last).control.Ended?
      modifies this
      ensures At(run) && old(clock) < clock
      ensures if outcome.Some? then control == Ended(outcome.value) else control.Head? && handled == old(handled) + 1
    {
      var event := Select(run, last);
      outcome := None;
      match event {
        case Cancelled =>
          var stopped := FinishWorkers(ContextDone, run, last);
          outcome := Some(stopped);
        case IdleFired =>
          var stopped := FinishWorkers(IdleTooLong, run, last);
          outcome := Some(stopped);
        case Updated => LaunchWorkers(run);
        case ResultReady => LaunchWorkers(run);
        case Reannounced(peers) =>
          if peers.Success? {
            LaunchWorkers(run);
          }
      }
    }

    /** One turn of the event loop. */
    method Turn(ghost run: nat -> Proc, ghost last: nat) returns (outcome: Option<Outcome>)
      requires At(run) && control.Head? && run(last).control.Ended?
      modifies this
      ensures At(run) && old(clock) < clock
      ensures if outcome.Some? then control == Ended(outcome.value) else control.Head? && handled == old(handled) + 1
    {
      OthersRun();
      HeadTick(Given(), run, clock, Process());
      if complete {
        control, clock := Finishing(TorrentComplete), clock + 1;
        var stopped := FinishWorkers(TorrentComplete, run, last);
        return Some(stopped);
      }
      if |active| == 0 && |pending| == 0 {
        control, clock := Ended(Exhausted), clock + 1;
        return Some(Exhausted);
      }
      control, clock := Selecting, clock + 1;
      outcome := HandleEvent(run, last);
    }

    /** The event loop. */
    method EventLoop(ghost run: nat -> Proc, ghost last: nat) returns (outcome: Outcome)
      requires At(run) && control.Head? && run(last).control.Ended?
      modifies this
      ensures At(run) && control == Ended(outcome)
    {
      while true
        invariant At(run) && control.Head?
        decreases last - clock
      {
        NotEndedYet(Given(), run, clock, last);
        var stop := Turn(run, last);
        if stop.Some? {
          return stop.value;
        }
      }
    }

    /** The whole download, for any tracker answer, any events and any world. It returns
        if the run ends at all, by some time `last` (DownloadLoop.DownloadEnds says when). */
    method DownloadTorrent(first: Result<seq<Key>>, ghost last: nat) returns (outcome: Outcome)
      requires View() == Start(complete) && handled == 0 && clock == 0
      requires Play(Given(), Begin(View(), first, maxWorkers), 0, last).control.Ended?
      modifies this
      ensures Process() == Play(Given(), Begin(old(View()), first, maxWorkers), 0, last)
      ensures control == Ended(outcome)
      ensures maxWorkers > 0 && first.Success? && first.value != [] ==>
        ProcOk(events, maxWorkers, Process()) && Knows(View(), first.value)
    {
      ghost var p := Begin(View(), first, maxWorkers);
      if maxWorkers > 0 && first.Success? && first.value != [] {
        DownloadKeepsOk(complete, first, Given(), 0, last);
      }
      ghost var run := RunOf(Given(), p);
      PlayIsRun(Given(), p);
      if first.Failure? {
        control := Ended(AnnounceFailed);
        EndStays(Given(), p, 0, last);
        return AnnounceFailed;
      }
      if |first.value| == 0 {
        control := Ended(NoPeers);
        EndStays(Given(), p, 0, last);
        return NoPeers;
      }
      AddPeers(first.value);
      control := Launching;
      LaunchWorkers(run);
      outcome := EventLoop(run, last);
      EndIsUnique(Given(), p, 0, clock, last);
    }
  }
}
