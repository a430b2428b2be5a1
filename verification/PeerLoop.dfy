/** What one turn of RunClient's event loop does, as functions of everything the worker
    sees (internal/download/worker.go). The object in PeerWorker is specified by them. */
module PeerLoop {
  import opened ByteStrings
  import opened Storage
  import opened Pieces
  import opened Workers
  import Bitfields
  import Protocol
  import Swarm
  import Wire

  /** What the select statement of the event loop can deliver. */
  datatype Event =
    | Cancelled
    | DeadlineFired
    | Updated
    | ReadFailed
    | ErrorsClosed
    | MessagesClosed
    | Received(message: Wire.Message)

  /** An event with what the network and the disk do while it is handled: whether the
      next two requests can be sent, and the outcome of the writes of a piece. */
  datatype Input = Input(event: Event, sent: bool, sentNext: bool, io: seq<IoOutcome>)

  datatype Exit = Finished | Failed

  /** The local variables, the manager's states and the number of its current broadcast
      channel, the disk, and what has been written to the peer. */
  datatype View = View(
    worker: Worker,
    states: seq<PieceState>,
    channel: nat,
    disk: Disk,
    outgoing: seq<Wire.Message>
  )

  datatype Outcome = Outcome(view: View, exit: Option<Exit>)

  // ----- releaseCurrent, requestBlock, requestNextPiece -----

  /** The piece held is released, and then everybody who waits for an update is woken. */
  function LetGo(v: View): View {
    if v.worker.current.Some? && Protocol.IsState(v.states, v.worker.current.value.index, Downloading)
    then v.(worker := Released(v.worker), states := v.states[v.worker.current.value.index := Missing],
            channel := v.channel + 1)
    else v.(worker := Released(v.worker))
  }

  function RequestFor(w: Worker): Wire.Message
    requires w.current.Some?
  {
    Wire.NewRequest(w.current.value.index, w.expectedBegin, w.expectedLength)
  }

  /** Asks for the next block of the piece held, or gives the piece up if that cannot be sent. */
  function Request(v: View, sent: bool): Outcome
    requires v.worker.current.Some?
  {
    var w := Asking(v.worker, sent);
    if sent then Outcome(v.(worker := w, outgoing := v.outgoing + [RequestFor(w)]), None)
    else Outcome(LetGo(v.(worker := w)), Some(Failed))
  }

  predicate Takes(v: View) {
    WantsPiece(v.worker) && Protocol.FirstAvailable(v.states, v.worker.bitfield, 0).Some?
  }

  /** Holding the first available piece, nothing of it asked for yet. */
  function Holding(c: Protocol.Config, v: View): View
    requires |v.states| == |c.hashes| && Takes(v)
  {
    var i := Protocol.FirstAvailable(v.states, v.worker.bitfield, 0).value;
    v.(worker := v.worker.(current := Some(Protocol.PieceAt(c, i)), received := [], asked := []),
       states := v.states[i := Downloading])
  }

  function Next(c: Protocol.Config, v: View, sent: bool): Outcome
    requires |v.states| == |c.hashes|
  {
    if Takes(v) then Request(Holding(c, v), sent) else Outcome(v, None)
  }

  // ----- Messages -----

  function GoOn(c: Protocol.Config, v: View, sent: bool): Outcome
    requires |v.states| == |c.hashes|
  {
    if AllComplete(v.states) then Outcome(v, Some(Finished)) else Next(c, v, sent)
  }

  /** The view fits the torrent. */
  ghost predicate Fits(c: Protocol.Config, v: View) {
    && c.Valid() && |v.states| == |c.hashes| && Laid(c.spans, v.disk)
    && (v.worker.current.Some? ==> v.worker.current.value.index < |c.hashes|)
  }

  /** After CompletePiece for the piece received, stored or not. */
  ghost function Stored(c: Protocol.Config, closed: bool, v: View, io: seq<IoOutcome>): View
    requires Fits(c, v) && v.worker.current.Some? && |io| == |c.spans|
  {
    var i, data := v.worker.current.value.index, v.worker.received;
    v.(worker := HandingOver(v.worker),
       states := v.states[i := if Protocol.Storable(c, closed, i, data, io) then Complete else Missing],
       channel := v.channel + 1, disk := Protocol.DiskAfter(c, closed, v.disk, i, data, io))
  }

  ghost function WholePiece(c: Protocol.Config, closed: bool, v: View, input: Input): Outcome
    requires Fits(c, v) && v.worker.current.Some? && |input.io| == |c.spans|
  {
    var stored := Stored(c, closed, v, input.io);
    if Protocol.Storable(c, closed, v.worker.current.value.index, v.worker.received, input.io)
    then GoOn(c, stored, input.sentNext) else Outcome(stored, Some(Failed))
  }

  /** Late blocks are ignored, wrong ones end the worker, the last one hands the piece over. */
  ghost function OnBlock(c: Protocol.Config, closed: bool, v: View, block: Wire.Block, input: Input): Outcome
    requires Fits(c, v) && |input.io| == |c.spans|
  {
    var w := v.worker;
    if !ForCurrent(w, block.index) then Outcome(v, None)
    else if !Expected(w, block.begin, block.data) then Outcome(LetGo(v), Some(Failed))
    else
      var next := v.(worker := Receiving(w, block.data));
      if |next.worker.received| < w.current.value.length then Request(next, input.sent)
      else WholePiece(c, closed, next, input)
  }

  function Asked(c: Protocol.Config, v: View, change: Swarm.Change, sent: bool): Outcome
    requires |v.states| == |c.hashes|
  {
    Next(c, v.(worker := Swarm.Changed(v.worker, change)), sent)
  }

  /** The change that a bitfield, have or unchoke message makes before the worker asks for a piece. */
  function ChangeOf(message: Wire.Message, w: Worker, pieces: nat): Option<Swarm.Change>
    requires message.Message?
  {
    var payload := message.payload;
    if message.id == Wire.MSG_BITFIELD then
      if Bitfields.Accepted(payload, pieces) then Some(Swarm.HasPieces(Bitfields.Bits(payload, pieces))) else None
    else if message.id == Wire.MSG_HAVE then
      match Wire.ParseHave(payload)
      case Failure => None
      case Success(index) => if index < |w.bitfield| then Some(Swarm.HasPiece(index)) else None
    else Some(Swarm.Unchoked)
  }

  ghost function OnMessage(c: Protocol.Config, closed: bool, v: View, message: Wire.Message, input: Input): Outcome
    requires Fits(c, v) && |input.io| == |c.spans|
  {
    if message.KeepAlive? then Outcome(v, None)
    else if message.id in {Wire.MSG_BITFIELD, Wire.MSG_HAVE, Wire.MSG_UNCHOKE} then
      match ChangeOf(message, v.worker, |c.hashes|)
      case None => Outcome(v, Some(Failed))
      case Some(change) => Asked(c, v, change, input.sent)
    else if message.id == Wire.MSG_CHOKE then Outcome(LetGo(v.(worker := v.worker.(unchoked := false))), None)
    else if message.id == Wire.MSG_PIECE then
      match Wire.ParsePiece(message.payload)
      case Failure => Outcome(v, Some(Failed))
      case Success(block) => OnBlock(c, closed, v, block, input)
    else Outcome(v, None)
  }

  // ----- The loop -----

  ghost function Handle(c: Protocol.Config, closed: bool, v: View, input: Input): Outcome
    requires Fits(c, v) && |input.io| == |c.spans|
  {
    match input.event
    case Cancelled => Outcome(v, Some(Failed))
    case DeadlineFired => if v.worker.armed then Outcome(LetGo(v), Some(Failed)) else Outcome(v, None)
    case Updated => GoOn(c, v, input.sent)
    case ReadFailed => Outcome(v, Some(Failed))
    case Received(message) => OnMessage(c, closed, v, message, input)
    case _ => Outcome(v, None)
  }

  predicate InputsFit(c: Protocol.Config, inputs: seq<Input>) {
    forall i :: 0 <= i < |inputs| ==> |inputs[i].io| == |c.spans|
  }

  // ----- What every turn keeps -----

  /** While a piece is held, the last messages written are the requests made for it. */
  predicate RequestsSent(v: View) {
    var w := v.worker;
    w.current.Some? ==>
      && |w.asked| <= |v.outgoing|
      && forall j :: 0 <= j < |w.asked| ==>
           v.outgoing[|v.outgoing| - |w.asked| + j]
             == Wire.NewRequest(w.current.value.index, w.asked[j].begin, w.asked[j].length)
  }

  /** The piece held is reserved, the local variables are in order, and the requests for it have been written. */
  ghost predicate ViewOk(c: Protocol.Config, v: View) {
    && Fits(c, v) && LocalOk(v.worker) && RequestsSent(v)
    && (v.worker.current.Some? ==>
          var i := v.worker.current.value.index;
          v.worker.current.value == Protocol.PieceAt(c, i) && v.states[i] == Downloading)
  }

  /** Reservations: those of others stay; a piece newly reserved was Missing and is the one
      now held; one no longer held is no longer reserved. */
  predicate KeptStates(v: View, t: View) {
    && |v.states| == |t.states|
    && (forall i :: 0 <= i < |v.states| && v.states[i] != Missing && !Held(v, i) ==> t.states[i] == v.states[i])
    && (forall i :: 0 <= i < |t.states| && t.states[i] in {Downloading, Verifying} && t.states[i] != v.states[i] ==>
          Held(t, i))
    && (forall i: nat :: Held(v, i) && i < |t.states| && !Held(t, i) ==> t.states[i] !in {Downloading, Verifying})
    && (forall i: nat :: Held(t, i) && i < |v.states| ==> Held(v, i) || v.states[i] == Missing)
  }

  /** Content: only the bytes of the piece held change, and a piece newly Complete verifies. */
  ghost predicate KeptContent(c: Protocol.Config, v: View, t: View)
    requires Fits(c, v) && Fits(c, t)
  {
    && (forall j :: 0 <= j < |c.hashes| && !Held(v, j) ==> Protocol.Slice(c, t.disk, j) == Protocol.Slice(c, v.disk, j))
    && (forall i :: 0 <= i < |v.states| && t.states[i] == Complete && v.states[i] != Complete ==>
          Protocol.Verified(c, t.disk, i))
  }

  /** What one turn may change besides the local variables. At most one message is
      written, the request for the next block of the piece now held. */
  ghost predicate Kept(c: Protocol.Config, v: View, t: View)
    requires Fits(c, v) && Fits(c, t)
  {
    && KeptStates(v, t) && KeptContent(c, v, t) && Wakes(v, t)
    && (t.outgoing == v.outgoing
        || (t.worker.current.Some? && t.outgoing == v.outgoing + [RequestFor(t.worker)]))
  }

  /** Waiters are woken whenever a reservation has ended. */
  predicate Wakes(v: View, t: View) {
    && v.channel <= t.channel
    && (v.worker.current.Some? && t.worker.current != v.worker.current ==> v.channel < t.channel)
  }

  predicate Held(v: View, i: nat) {
    v.worker.current.Some? && v.worker.current.value.index == i
  }

  lemma LetGoKeeps(c: Protocol.Config, v: View)
    requires Fits(c, v)
    requires v.worker.current.Some? ==> v.states[v.worker.current.value.index] == Downloading
    ensures ViewOk(c, LetGo(v)) && Kept(c, v, LetGo(v))
  {
  }

  /** Appending the request just made. */
  lemma OneMoreRequest(v: View, w: Worker)
    requires w.current.Some? && w.asked != []
    requires RequestsSent(v.(worker := w.(asked := w.asked[..|w.asked| - 1])))
    requires w.asked[|w.asked| - 1] == Workers.Request(w.expectedBegin, w.expectedLength)
    ensures RequestsSent(v.(worker := w, outgoing := v.outgoing + [RequestFor(w)]))
  {
    var t := v.(worker := w, outgoing := v.outgoing + [RequestFor(w)]);
    forall j | 0 <= j < |w.asked|
      ensures |w.asked| <= |t.outgoing|
      ensures t.outgoing[|t.outgoing| - |w.asked| + j]
           == Wire.NewRequest(w.current.value.index, w.asked[j].begin, w.asked[j].length)
    {
      if j < |w.asked| - 1 {
        assert w.asked[..|w.asked| - 1][j] == w.asked[j];
      }
    }
  }

  /** The piece held is reserved, and the next block to ask for is a tile of it. */
  ghost predicate MayRequest(c: Protocol.Config, v: View) {
    && Fits(c, v) && RequestsSent(v) && v.worker.current.Some? && Outstanding(Asking(v.worker, true))
    && var i := v.worker.current.value.index;
       v.worker.current.value == Protocol.PieceAt(c, i) && v.states[i] == Downloading
  }

  lemma RequestKeeps(c: Protocol.Config, v: View, sent: bool)
    requires MayRequest(c, v)
    ensures ViewOk(c, Request(v, sent).view) && Kept(c, v, Request(v, sent).view)
  {
    if sent {
      var w := Asking(v.worker, true);
      assert w.asked[..|w.asked| - 1] == v.worker.asked;
      OneMoreRequest(v, w);
    } else {
      LetGoKeeps(c, v.(worker := Asking(v.worker, false)));
    }
  }

  lemma HoldingMayRequest(c: Protocol.Config, v: View)
    requires Fits(c, v) && Takes(v)
    ensures MayRequest(c, Holding(c, v))
  {
    var i := Protocol.FirstAvailable(v.states, v.worker.bitfield, 0).value;
    PieceExtent(c.total, c.pieceLength, i);
    TakingIsOutstanding(v.worker, Protocol.PieceAt(c, i), true);
  }

  lemma NextKeeps(c: Protocol.Config, v: View, sent: bool)
    requires ViewOk(c, v)
    ensures ViewOk(c, Next(c, v, sent).view) && Kept(c, v, Next(c, v, sent).view)
  {
    if Takes(v) {
      HoldingMayRequest(c, v);
      RequestKeeps(c, Holding(c, v), sent);
    }
  }

  /** First a change that writes nothing to the peer and leaves no piece held, then another. */
  lemma KeptTwice(c: Protocol.Config, v: View, t: View, u: View)
    requires Fits(c, v) && Fits(c, t) && Fits(c, u) && Kept(c, v, t) && Kept(c, t, u)
    requires t.outgoing == v.outgoing && t.worker.current.None?
    ensures Kept(c, v, u)
  {
  }

  lemma GoOnKeeps(c: Protocol.Config, v: View, sent: bool)
    requires ViewOk(c, v)
    ensures ViewOk(c, GoOn(c, v, sent).view) && Kept(c, v, GoOn(c, v, sent).view)
    ensures GoOn(c, v, sent).exit == Some(Finished) ==> AllComplete(GoOn(c, v, sent).view.states)
  {
    if !AllComplete(v.states) {
      NextKeeps(c, v, sent);
    }
  }

  /** Everything of the reserved piece has been received. */
  ghost predicate Whole(c: Protocol.Config, v: View) {
    Fits(c, v) && v.worker.current.Some? && !v.worker.armed && v.states[v.worker.current.value.index] == Downloading
  }

  lemma StoredKeepsContent(c: Protocol.Config, closed: bool, v: View, io: seq<IoOutcome>)
    requires Whole(c, v) && |io| == |c.spans|
    ensures Fits(c, Stored(c, closed, v, io)) && KeptContent(c, v, Stored(c, closed, v, io))
  {
    var i, data := v.worker.current.value.index, v.worker.received;
    var t := Stored(c, closed, v, io);
    DiskAfterIsLaid(c, closed, v.disk, i, data, io);
    forall j | 0 <= j < |c.hashes|
      ensures !Held(v, j) ==> Protocol.Slice(c, t.disk, j) == Protocol.Slice(c, v.disk, j)
      ensures t.states[j] == Complete && v.states[j] != Complete ==> Protocol.Verified(c, t.disk, j)
    {
      Protocol.DiskAfterIsLocal(c, closed, v.disk, i, data, io, j);
    }
  }

  lemma StoredKeeps(c: Protocol.Config, closed: bool, v: View, io: seq<IoOutcome>)
    requires Whole(c, v) && |io| == |c.spans|
    ensures ViewOk(c, Stored(c, closed, v, io)) && Kept(c, v, Stored(c, closed, v, io))
  {
    StoredKeepsContent(c, closed, v, io);
  }

  lemma DiskAfterIsLaid(c: Protocol.Config, closed: bool, disk: Disk, i: nat, data: Bytes, io: seq<IoOutcome>)
    requires c.Valid() && Laid(c.spans, disk) && |io| == |c.spans| && i < |c.hashes|
    ensures Laid(c.spans, Protocol.DiskAfter(c, closed, disk, i, data, io))
  {
    Protocol.DiskAfterIsLocal(c, closed, disk, i, data, io, i);
  }

  lemma WholePieceKeeps(c: Protocol.Config, closed: bool, v: View, input: Input)
    requires Whole(c, v) && |input.io| == |c.spans|
    ensures var o := WholePiece(c, closed, v, input);
      && ViewOk(c, o.view) && Kept(c, v, o.view) && (o.exit == Some(Finished) ==> AllComplete(o.view.states))
  {
    var stored := Stored(c, closed, v, input.io);
    StoredKeeps(c, closed, v, input.io);
    if Protocol.Storable(c, closed, v.worker.current.value.index, v.worker.received, input.io) {
      GoOnKeeps(c, stored, input.sentNext);
      KeptTwice(c, v, stored, GoOn(c, stored, input.sentNext).view);
    }
  }

  /** After an expected block either the next one may be asked for or the piece is whole. */
  lemma AfterExpected(c: Protocol.Config, v: View, block: Wire.Block)
    requires ViewOk(c, v) && v.worker.current.Some? && Expected(v.worker, block.begin, block.data)
    ensures var next := v.(worker := Receiving(v.worker, block.data));
      if |next.worker.received| < v.worker.current.value.length then MayRequest(c, next) else Whole(c, next)
  {
    BlockAdvances(v.worker, block.begin, block.data, true);
  }

  lemma OnBlockKeeps(c: Protocol.Config, closed: bool, v: View, block: Wire.Block, input: Input)
    requires ViewOk(c, v) && |input.io| == |c.spans|
    ensures var o := OnBlock(c, closed, v, block, input);
      && ViewOk(c, o.view) && Kept(c, v, o.view) && (o.exit == Some(Finished) ==> AllComplete(o.view.states))
  {
    var w := v.worker;
    if ForCurrent(w, block.index) {
      if !Expected(w, block.begin, block.data) {
        LetGoKeeps(c, v);
      } else {
        AfterExpected(c, v, block);
        var next := v.(worker := Receiving(w, block.data));
        if |next.worker.received| < w.current.value.length {
          RequestKeeps(c, next, input.sent);
        } else {
          WholePieceKeeps(c, closed, next, input);
        }
      }
    }
  }

  lemma AskedKeeps(c: Protocol.Config, v: View, change: Swarm.Change, sent: bool)
    requires ViewOk(c, v)
    ensures ViewOk(c, Asked(c, v, change, sent).view) && Kept(c, v, Asked(c, v, change, sent).view)
  {
    NextKeeps(c, v.(worker := Swarm.Changed(v.worker, change)), sent);
  }

  lemma OnMessageKeeps(c: Protocol.Config, closed: bool, v: View, message: Wire.Message, input: Input)
    requires ViewOk(c, v) && |input.io| == |c.spans|
    ensures var o := OnMessage(c, closed, v, message, input);
      && ViewOk(c, o.view) && Kept(c, v, o.view) && (o.exit == Some(Finished) ==> AllComplete(o.view.states))
  {
    if message.Message? {
      if message.id in {Wire.MSG_BITFIELD, Wire.MSG_HAVE, Wire.MSG_UNCHOKE} {
        if ChangeOf(message, v.worker, |c.hashes|).Some? {
          AskedKeeps(c, v, ChangeOf(message, v.worker, |c.hashes|).value, input.sent);
        }
      } else if message.id == Wire.MSG_CHOKE {
        LetGoKeeps(c, v.(worker := v.worker.(unchoked := false)));
      } else if message.id == Wire.MSG_PIECE && Wire.ParsePiece(message.payload).Success? {
        OnBlockKeeps(c, closed, v, Wire.ParsePiece(message.payload).value, input);
      }
    }
  }

  /** Every turn, whatever the event: the view stays in order; Complete pieces stay
      Complete; the bytes of every piece but the one held are untouched; a piece newly
      reserved is the one now held and one no longer held is no longer reserved; and at
      most one message is written, the request for the next block of the piece held. */
  lemma HandleKeeps(c: Protocol.Config, closed: bool, v: View, input: Input)
    requires ViewOk(c, v) && |input.io| == |c.spans|
    ensures var o := Handle(c, closed, v, input);
      && ViewOk(c, o.view) && Kept(c, v, o.view) && (o.exit == Some(Finished) ==> AllComplete(o.view.states))
  {
    match input.event
    case DeadlineFired => LetGoKeeps(c, v);
    case Updated => GoOnKeeps(c, v, input.sent);
    case Received(message) => OnMessageKeeps(c, closed, v, message, input);
    case _ =>
  }

  /** When the last block of a piece arrives, the messages written for the piece are the
      requests for its tiles, in order and from its first byte to its last. */
  lemma PieceWasRequested(c: Protocol.Config, v: View, begin: int, block: Bytes)
    requires ViewOk(c, v) && v.worker.current.Some? && Expected(v.worker, begin, block)
    requires |v.worker.received| + |block| >= v.worker.current.value.length
    ensures var w := v.worker;
      && TilesAll(w.asked, w.current.value.length) && |w.asked| <= |v.outgoing|
      && forall j :: 0 <= j < |w.asked| ==>
           var tile := Tile(w.current.value.length, j);
           v.outgoing[|v.outgoing| - |w.asked| + j] == Wire.NewRequest(w.current.value.index, tile.begin, tile.length)
  {
    BlockAdvances(v.worker, begin, block, true);
  }

  // ----- The whole loop -----

  /** A channel stays open until it is closed. */
  predicate StillOpen(open: bool, closes: bool) {
    open && !closes
  }

  /** The event loop until it is left; when the inputs end the context is cancelled. */
  ghost function Loop(c: Protocol.Config, closed: bool, v: View, inputs: seq<Input>,
                      messagesOpen: bool, errorsOpen: bool): (o: Outcome)
    requires ViewOk(c, v) && InputsFit(c, inputs)
    ensures ViewOk(c, o.view) && o.exit.Some?
    decreases |inputs|, 1
  {
    if !messagesOpen && !errorsOpen then Outcome(v, Some(if AllComplete(v.states) then Finished else Failed))
    else if inputs == [] then Outcome(v, Some(Failed))
    else
      HandleKeeps(c, closed, v, inputs[0]);
      Onward(c, closed, Handle(c, closed, v, inputs[0]), inputs, messagesOpen, errorsOpen)
  }

  /** The loop after its first turn. */
  ghost function Onward(c: Protocol.Config, closed: bool, o: Outcome, inputs: seq<Input>,
                        messagesOpen: bool, errorsOpen: bool): (r: Outcome)
    requires ViewOk(c, o.view) && InputsFit(c, inputs) && inputs != []
    ensures ViewOk(c, r.view) && r.exit.Some?
    decreases |inputs|, 0
  {
    if o.exit.Some? then o
    else
      Loop(c, closed, o.view, inputs[1..],
           StillOpen(messagesOpen, inputs[0].event.MessagesClosed?),
           StillOpen(errorsOpen, inputs[0].event.ErrorsClosed?))
  }

  function Interested(v: View): View {
    v.(outgoing := v.outgoing + [Wire.Message(Wire.MSG_INTERESTED, [])])
  }

  /** RunClient after the interested message has been sent, with its deferred release. */
  ghost function Client(c: Protocol.Config, closed: bool, v: View, inputs: seq<Input>): Outcome
    requires ViewOk(c, v) && InputsFit(c, inputs)
  {
    var o := Loop(c, closed, v, inputs, true, true);
    Outcome(LetGo(o.view), o.exit)
  }

  /** What any number of turns keep. */
  ghost predicate KeptAll(c: Protocol.Config, v: View, t: View)
    requires Fits(c, v) && Fits(c, t)
  {
    KeptStates(v, t) && KeptVerified(c, v, t) && v.outgoing <= t.outgoing
  }

  /** Pieces that were not Missing and not held keep their bytes, and newly Complete ones verify. */
  ghost predicate KeptVerified(c: Protocol.Config, v: View, t: View)
    requires Fits(c, v) && Fits(c, t)
  {
    && (forall i :: 0 <= i < |v.states| && v.states[i] != Missing && !Held(v, i) ==>
          Protocol.Slice(c, t.disk, i) == Protocol.Slice(c, v.disk, i))
    && (forall i :: 0 <= i < |v.states| && t.states[i] == Complete && v.states[i] != Complete ==>
          Protocol.Verified(c, t.disk, i))
  }

  lemma StatesThenAll(v: View, t: View, u: View)
    requires KeptStates(v, t) && KeptStates(t, u)
    ensures KeptStates(v, u)
  {
  }

  lemma ContentThenAll(c: Protocol.Config, v: View, t: View, u: View)
    requires ViewOk(c, v) && ViewOk(c, t) && Fits(c, u)
    requires KeptStates(v, t) && KeptContent(c, v, t) && KeptVerified(c, t, u)
    ensures KeptVerified(c, v, u)
  {
    forall i | 0 <= i < |v.states| && u.states[i] == Complete && v.states[i] != Complete
      ensures Protocol.Verified(c, u.disk, i)
    {
      if t.states[i] == Complete {
        assert !Held(t, i) && Protocol.Verified(c, t.disk, i);
      }
    }
  }

  lemma KeptThenAll(c: Protocol.Config, v: View, t: View, u: View)
    requires ViewOk(c, v) && ViewOk(c, t) && Fits(c, u) && Kept(c, v, t) && KeptAll(c, t, u)
    ensures KeptAll(c, v, u)
  {
    StatesThenAll(v, t, u);
    ContentThenAll(c, v, t, u);
  }

  lemma {:induction false} LoopKeeps(c: Protocol.Config, closed: bool, v: View, inputs: seq<Input>, messagesOpen: bool,
                                     errorsOpen: bool)
    requires ViewOk(c, v) && InputsFit(c, inputs)
    ensures var o := Loop(c, closed, v, inputs, messagesOpen, errorsOpen);
      KeptAll(c, v, o.view) && (o.exit == Some(Finished) ==> AllComplete(o.view.states))
    decreases |inputs|
  {
    if inputs != [] {
      HandleKeeps(c, closed, v, inputs[0]);
      var o := Handle(c, closed, v, inputs[0]);
      if o.exit.None? {
        var messages := StillOpen(messagesOpen, inputs[0].event.MessagesClosed?);
        var errors := StillOpen(errorsOpen, inputs[0].event.ErrorsClosed?);
        LoopKeeps(c, closed, o.view, inputs[1..], messages, errors);
        KeptThenAll(c, v, o.view, Loop(c, closed, o.view, inputs[1..], messages, errors).view);
      } else {
        KeptThenAll(c, v, o.view, o.view);
      }
    }
  }

  /** Giving up the piece held changes no bytes. */
  lemma LetGoAfterAll(c: Protocol.Config, v: View, t: View)
    requires ViewOk(c, v) && ViewOk(c, t) && KeptAll(c, v, t)
    ensures ViewOk(c, LetGo(t)) && KeptAll(c, v, LetGo(t))
    ensures AllComplete(t.states) ==> AllComplete(LetGo(t).states)
  {
    LetGoKeeps(c, t);
    StatesThenAll(v, t, LetGo(t));
  }

  /** A whole run of the loop: at its end nothing is held; a piece that was not Missing
      before keeps its state and its bytes; every other piece is Missing, or Complete with
      verified bytes; and success means that all pieces are Complete. */
  lemma ClientKeeps(c: Protocol.Config, closed: bool, v: View, inputs: seq<Input>)
    requires ViewOk(c, v) && InputsFit(c, inputs) && v.worker.current.None?
    ensures var o := Client(c, closed, v, inputs);
      && ViewOk(c, o.view) && o.view.worker.current.None? && v.outgoing <= o.view.outgoing
      && (forall i :: 0 <= i < |v.states| && v.states[i] != Missing ==>
            o.view.states[i] == v.states[i] && Protocol.Slice(c, o.view.disk, i) == Protocol.Slice(c, v.disk, i))
      && (forall i :: 0 <= i < |v.states| && v.states[i] == Missing ==>
            o.view.states[i] == Missing || (o.view.states[i] == Complete && Protocol.Verified(c, o.view.disk, i)))
      && (o.exit == Some(Finished) ==> AllComplete(o.view.states))
  {
    LoopKeeps(c, closed, v, inputs, true, true);
    LetGoAfterAll(c, v, Loop(c, closed, v, inputs, true, true).view);
  }
}
