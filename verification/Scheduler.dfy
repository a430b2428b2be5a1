/** The bounded peer scheduler as a state machine (main.go, downloadTorrent). */
module Scheduler {
  import opened ByteStrings

  /** The text of a peer address, by which the source identifies peers. */
  datatype Key = Key(text: string)

  const NO_KEY: Key := Key("")
  const MAX_ATTEMPTS: nat := 2

  /** The scheduler's variables, and the world beside it: worker goroutines that have
      not sent their result, the results channel, and whether the torrent is complete. */
  datatype State = State(
    active: set<Key>,
    queued: set<Key>,
    attempts: map<Key, nat>,
    pending: seq<Key>,
    running: set<Key>,
    results: seq<Key>,
    complete: bool,
    discovered: set<Key>,   // every non-empty address a tracker has returned
    launches: nat
  )

  datatype Step =
    | Finish(key: Key)      // a worker ends and sends its result
    | Completes             // the last piece is published
    | Offer(key: Key)       // addPeers looks at one address
    | Launch                // launchWorkers starts the first waiting peer
    | Take                  // one result is received

  function Start(complete: bool): State {
    State({}, {}, map[], [], {}, [], complete, {}, 0)
  }

  function Tries(attempts: map<Key, nat>, key: Key): nat {
    if key in attempts then attempts[key] else 0
  }

  function Apply(s: State, step: Step, maxWorkers: nat): State {
    match step
    case Finish(key) =>
      if key in s.running then s.(running := s.running - {key}, results := s.results + [key]) else s
    case Completes => s.(complete := true)
    case Offer(key) =>
      var t := if key == NO_KEY then s else s.(discovered := s.discovered + {key});
      if key == NO_KEY || Tries(s.attempts, key) >= MAX_ATTEMPTS || key in s.active || key in s.queued then t
      else t.(queued := s.queued + {key}, pending := s.pending + [key])
    case Launch =>
      if |s.active| < maxWorkers && s.pending != [] then Launched(s) else s
    case Take => Taken(s)
  }

  function Taken(s: State): State {
    if s.results != [] then s.(active := s.active - {s.results[0]}, results := s.results[1..]) else s
  }

  function Launched(s: State): State
    requires s.pending != []
  {
    var key := s.pending[0];
    s.(pending := s.pending[1..], queued := s.queued - {key}, active := s.active + {key},
       attempts := s.attempts[key := Tries(s.attempts, key) + 1], running := s.running + {key},
       launches := s.launches + 1)
  }

  function Run(s: State, steps: seq<Step>, maxWorkers: nat): State
    decreases |steps|
  {
    if steps == [] then s
    else Apply(Run(s, steps[..|steps| - 1], maxWorkers), steps[|steps| - 1], maxWorkers)
  }

  lemma RunSnoc(s: State, steps: seq<Step>, step: Step, maxWorkers: nat)
    ensures Run(s, steps + [step], maxWorkers) == Apply(Run(s, steps, maxWorkers), step, maxWorkers)
  {
    assert (steps + [step])[..|steps|] == steps;
  }

  lemma {:induction false} RunConcat(s: State, first: seq<Step>, more: seq<Step>, maxWorkers: nat)
    ensures Run(s, first + more, maxWorkers) == Run(Run(s, first, maxWorkers), more, maxWorkers)
    decreases |more|
  {
    if more == [] {
      assert first + more == first;
    } else {
      var front, last := more[..|more| - 1], more[|more| - 1];
      RunConcat(s, first, front, maxWorkers);
      RunSnoc(s, first + front, last, maxWorkers);
      assert first + more == (first + front) + [last];
    }
  }

  // ----- Queues as sets -----

  function Elements(s: seq<Key>): set<Key> {
    if s == [] then {} else {s[0]} + Elements(s[1..])
  }

  predicate Distinct(s: seq<Key>) {
    s != [] ==> s[0] !in Elements(s[1..]) && Distinct(s[1..])
  }

  lemma {:induction false} ElementsAreMembers(s: seq<Key>, key: Key)
    ensures key in Elements(s) <==> key in s
  {
    if s != [] {
      ElementsAreMembers(s[1..], key);
    }
  }

  lemma {:induction false} DistinctMeansNoRepeat(s: seq<Key>, i: nat, j: nat)
    requires Distinct(s) && i < j < |s|
    ensures s[i] != s[j]
    decreases |s|
  {
    if i == 0 {
      ElementsAreMembers(s[1..], s[0]);
      assert s[j] == s[1..][j - 1];
    } else {
      DistinctMeansNoRepeat(s[1..], i - 1, j - 1);
    }
  }

  lemma {:induction false} DistinctCount(s: seq<Key>)
    requires Distinct(s)
    ensures |Elements(s)| == |s|
  {
    if s != [] {
      DistinctCount(s[1..]);
    }
  }

  lemma {:induction false} Snoc(s: seq<Key>, key: Key)
    ensures Elements(s + [key]) == Elements(s) + {key}
    ensures Distinct(s) && key !in Elements(s) ==> Distinct(s + [key])
  {
    if s == [] {
      assert s + [key] == [key];
    } else {
      Snoc(s[1..], key);
      assert (s + [key])[1..] == s[1..] + [key];
    }
  }

  // ----- The invariant -----

  /** The waiting peers are distinct, not active, and may still be tried. */
  predicate QueuesOk(s: State) {
    && Distinct(s.pending) && s.queued == Elements(s.pending)
    && s.active !! s.queued && s.active <= s.attempts.Keys
    && (forall key :: key in s.queued ==> key != NO_KEY && Tries(s.attempts, key) < MAX_ATTEMPTS)
    && (forall key :: key in s.attempts ==> 1 <= s.attempts[key] <= MAX_ATTEMPTS)
  }

  /** Every active worker is either still running or has its result in the channel. */
  ghost predicate WorkersOk(s: State) {
    && Distinct(s.results)
    && (forall key :: key in s.running ==> key !in Elements(s.results))
    && (forall key :: key in s.active <==> key in s.running || key in Elements(s.results))
  }

  function Twice(attempts: map<Key, nat>): set<Key> {
    set key | key in attempts && attempts[key] >= 2
  }

  function TryCount(attempts: map<Key, nat>): nat {
    |attempts.Keys| + |Twice(attempts)|
  }

  /** Every discovered address waits or has been tried, and every launch is one try. */
  ghost predicate Accounted(s: State) {
    && (forall key :: key in s.discovered <==> key in s.queued || key in s.attempts)
    && s.launches == TryCount(s.attempts)
  }

  ghost predicate Ok(s: State, maxWorkers: nat) {
    |s.active| <= maxWorkers && QueuesOk(s) && WorkersOk(s) && Accounted(s)
  }

  lemma FinishKeepsOk(s: State, key: Key, maxWorkers: nat)
    requires Ok(s, maxWorkers) && key in s.running
    ensures Ok(Apply(s, Finish(key), maxWorkers), maxWorkers)
  {
    Snoc(s.results, key);
  }

  lemma OfferKeepsQueues(s: State, key: Key, maxWorkers: nat)
    requires QueuesOk(s)
    ensures QueuesOk(Apply(s, Offer(key), maxWorkers))
  {
    Snoc(s.pending, key);
  }

  lemma OfferKeepsAccounts(s: State, key: Key, maxWorkers: nat)
    requires Accounted(s) && QueuesOk(s)
    ensures Accounted(Apply(s, Offer(key), maxWorkers))
  {
  }

  lemma OfferKeepsOk(s: State, key: Key, maxWorkers: nat)
    requires Ok(s, maxWorkers)
    ensures Ok(Apply(s, Offer(key), maxWorkers), maxWorkers)
  {
    OfferKeepsQueues(s, key, maxWorkers);
    OfferKeepsAccounts(s, key, maxWorkers);
  }

  lemma SecondTry(attempts: map<Key, nat>, key: Key)
    requires key in attempts && attempts[key] == 1
    ensures TryCount(attempts[key := 2]) == TryCount(attempts) + 1
  {
    var now := attempts[key := 2];
    assert now.Keys == attempts.Keys;
    assert key !in Twice(attempts) && Twice(now) == Twice(attempts) + {key};
  }

  lemma FirstTry(attempts: map<Key, nat>, key: Key)
    requires key !in attempts
    ensures TryCount(attempts[key := 1]) == TryCount(attempts) + 1
  {
    var now := attempts[key := 1];
    assert now.Keys == attempts.Keys + {key};
    assert Twice(now) == Twice(attempts);
  }

  lemma TwiceAfter(attempts: map<Key, nat>, key: Key)
    requires Tries(attempts, key) < MAX_ATTEMPTS && forall k :: k in attempts ==> attempts[k] >= 1
    ensures TryCount(attempts[key := Tries(attempts, key) + 1]) == TryCount(attempts) + 1
  {
    if key in attempts {
      SecondTry(attempts, key);
    } else {
      FirstTry(attempts, key);
    }
  }

  lemma LaunchKeepsQueues(s: State)
    requires QueuesOk(s) && s.pending != []
    ensures QueuesOk(Launched(s))
  {
    assert s.queued - {s.pending[0]} == Elements(s.pending[1..]);
  }

  lemma LaunchKeepsWorkers(s: State)
    requires WorkersOk(s) && s.pending != [] && s.pending[0] !in s.active
    ensures WorkersOk(Launched(s)) && |Launched(s).active| == |s.active| + 1
  {
  }

  lemma LaunchKeepsAccounts(s: State)
    requires Accounted(s) && s.pending != [] && s.pending[0] in s.queued
    requires Tries(s.attempts, s.pending[0]) < MAX_ATTEMPTS && forall key :: key in s.attempts ==> s.attempts[key] >= 1
    ensures Accounted(Launched(s))
  {
    TwiceAfter(s.attempts, s.pending[0]);
  }

  lemma TakeKeepsWorkers(s: State, maxWorkers: nat)
    requires WorkersOk(s) && s.results != []
    ensures WorkersOk(Apply(s, Take, maxWorkers)) && s.results[0] in s.active
  {
    assert Elements(s.results) == Elements(s.results[1..]) + {s.results[0]};
  }

  lemma TakeKeepsOk(s: State, maxWorkers: nat)
    requires Ok(s, maxWorkers) && s.results != []
    ensures Ok(Apply(s, Take, maxWorkers), maxWorkers)
    ensures s.results[0] in s.active && |Apply(s, Take, maxWorkers).active| == |s.active| - 1
  {
    TakeKeepsWorkers(s, maxWorkers);
  }

  lemma StepKeepsOk(s: State, step: Step, maxWorkers: nat)
    requires Ok(s, maxWorkers)
    ensures Ok(Apply(s, step, maxWorkers), maxWorkers)
  {
    match step
    case Finish(key) =>
      if key in s.running {
        FinishKeepsOk(s, key, maxWorkers);
      }
    case Completes =>
    case Offer(key) => OfferKeepsOk(s, key, maxWorkers);
    case Launch =>
      if |s.active| < maxWorkers && s.pending != [] {
        LaunchKeepsQueues(s);
        LaunchKeepsWorkers(s);
        LaunchKeepsAccounts(s);
      }
    case Take =>
      if s.results != [] {
        TakeKeepsOk(s, maxWorkers);
      }
  }

  /** Over every sequence of steps: the waiting peers are distinct, equal `queued` and
      are not active; at most two attempts per peer; at most maxWorkers active; running
      workers and buffered results partition the active ones. */
  lemma {:induction false} RunKeepsOk(s: State, steps: seq<Step>, maxWorkers: nat)
    requires Ok(s, maxWorkers)
    ensures Ok(Run(s, steps, maxWorkers), maxWorkers)
    decreases |steps|
  {
    if steps != [] {
      RunKeepsOk(s, steps[..|steps| - 1], maxWorkers);
      StepKeepsOk(Run(s, steps[..|steps| - 1], maxWorkers), steps[|steps| - 1], maxWorkers);
    }
  }

  // ----- What it means -----

  lemma StartIsOk(complete: bool, maxWorkers: nat)
    ensures Ok(Start(complete), maxWorkers)
  {
  }

  /** A worker that ends finds room in the results channel: the send never blocks. */
  lemma SendNeverBlocks(complete: bool, steps: seq<Step>, maxWorkers: nat, key: Key)
    requires key in Run(Start(complete), steps, maxWorkers).running
    ensures |Run(Start(complete), steps, maxWorkers).results| < maxWorkers
  {
    StartIsOk(complete, maxWorkers);
    RunKeepsOk(Start(complete), steps, maxWorkers);
    RoomForResult(Run(Start(complete), steps, maxWorkers), key);
  }

  lemma RoomForResult(s: State, key: Key)
    requires WorkersOk(s) && key in s.running
    ensures |s.results| < |s.active|
  {
    DistinctCount(s.results);
    SubsetSize(Elements(s.results), s.active - {key});
  }

  lemma {:induction false} SubsetSize(a: set<Key>, b: set<Key>)
    requires a <= b
    ensures |a| <= |b|
  {
    if a != {} {
      var x :| x in a;
      SubsetSize(a - {x}, b - {x});
    }
  }

  /** In all at most twice as many workers are launched as addresses were discovered. */
  lemma LaunchesAreBounded(complete: bool, steps: seq<Step>, maxWorkers: nat)
    ensures var s := Run(Start(complete), steps, maxWorkers);
      s.launches <= 2 * |s.discovered|
  {
    StartIsOk(complete, maxWorkers);
    RunKeepsOk(Start(complete), steps, maxWorkers);
    var s := Run(Start(complete), steps, maxWorkers);
    SubsetSize(s.attempts.Keys, s.discovered);
    SubsetSize(Twice(s.attempts), s.attempts.Keys);
  }

  /** When nobody is active and nobody waits, no worker is left and every discovered
      address has been tried and has finished. */
  lemma ExhaustedMeansAllTried(s: State, maxWorkers: nat)
    requires Ok(s, maxWorkers) && s.active == {} && s.pending == []
    ensures s.running == {} && s.results == [] && AllTried(s)
  {
    NobodyLeft(s);
  }

  lemma NobodyLeft(s: State)
    requires WorkersOk(s) && s.active == {}
    ensures s.running == {} && s.results == []
  {
    DistinctCount(s.results);
  }

  /** With somebody active, somebody runs or has a result waiting. */
  lemma SomebodyLeft(s: State)
    requires WorkersOk(s) && s.active != {} && s.results == []
    ensures s.running != {}
  {
  }

  // ----- addPeers -----

  function Offers(peers: seq<Key>): seq<Step> {
    seq(|peers|, i requires 0 <= i < |peers| => Offer(peers[i]))
  }

  predicate Eligible(s: State, key: Key) {
    key != NO_KEY && Tries(s.attempts, key) < MAX_ATTEMPTS && key !in s.active
  }

  lemma OffersSnoc(peers: seq<Key>, key: Key)
    ensures Offers(peers + [key]) == Offers(peers) + [Offer(key)]
  {
  }

  ghost predicate Offered(s: State, t: State, peers: seq<Key>) {
    && s.pending <= t.pending
    && t == s.(pending := t.pending, queued := t.queued, discovered := t.discovered)
    && (forall key :: key in t.queued <==> key in s.queued || (key in peers && Eligible(s, key)))
    && (forall key :: key in t.discovered <==> key in s.discovered || (key in peers && key != NO_KEY))
  }

  lemma OfferedOneMore(s: State, t: State, peers: seq<Key>, key: Key, maxWorkers: nat)
    requires Offered(s, t, peers)
    ensures Offered(s, Apply(t, Offer(key), maxWorkers), peers + [key])
  {
    assert Eligible(t, key) == Eligible(s, key);
    assert forall k :: k in peers + [key] <==> k in peers || k == key;
  }

  /** Offering addresses keeps the waiting peers in order and adds exactly the eligible
      ones; nothing else changes but what has been discovered. */
  lemma {:induction false} OffersAreExact(s: State, peers: seq<Key>, maxWorkers: nat)
    ensures Offered(s, Run(s, Offers(peers), maxWorkers), peers)
    decreases |peers|
  {
    if peers == [] {
      assert Offers(peers) == [];
    } else {
      var front, last := peers[..|peers| - 1], peers[|peers| - 1];
      OffersAreExact(s, front, maxWorkers);
      OffersSnoc(front, last);
      assert peers == front + [last];
      RunSnoc(s, Offers(front), Offer(last), maxWorkers);
      OfferedOneMore(s, Run(s, Offers(front), maxWorkers), front, last, maxWorkers);
    }
  }

  /** Addresses once discovered, and a complete torrent, stay so. */
  lemma {:induction false} RunOnlyGrows(s: State, steps: seq<Step>, maxWorkers: nat)
    ensures s.discovered <= Run(s, steps, maxWorkers).discovered
    ensures s.complete ==> Run(s, steps, maxWorkers).complete
    decreases |steps|
  {
    if steps != [] {
      RunOnlyGrows(s, steps[..|steps| - 1], maxWorkers);
    }
  }

  /** Nothing more can be started: the torrent is complete, no peer waits, or every slot is taken. */
  predicate Saturated(s: State, maxWorkers: nat) {
    s.complete || s.pending == [] || |s.active| >= maxWorkers
  }

  /** All non-empty addresses of a list have been discovered. */
  predicate Knows(s: State, peers: seq<Key>) {
    forall i :: 0 <= i < |peers| ==> peers[i] != NO_KEY ==> peers[i] in s.discovered
  }

  predicate AllTried(s: State) {
    forall key :: key in s.discovered ==> 1 <= Tries(s.attempts, key) <= MAX_ATTEMPTS
  }
}
