/** The per-peer download state machine (internal/download/worker.go, RunClient). */
module Workers {
  import opened ByteStrings
  import opened Pieces

  const BLOCK_SIZE: int := 16384

  datatype Request = Request(begin: int, length: int)

  /** The local variables of RunClient; `asked` lists the requests made for the current piece. */
  datatype Worker = Worker(
    unchoked: bool,
    current: Option<Piece>,
    received: Bytes,
    expectedBegin: int,
    expectedLength: int,
    bitfield: seq<bool>,
    armed: bool,            // the block deadline is set
    asked: seq<Request>
  )

  function Fresh(pieces: nat): Worker {
    Worker(false, None, [], 0, 0, seq(pieces, _ => false), false, [])
  }

  /** releaseCurrent, apart from telling the manager. */
  function Released(w: Worker): Worker {
    w.(current := None, received := [], expectedBegin := 0, expectedLength := 0, armed := false, asked := [])
  }

  /** requestBlock: the deadline is armed only once the request has been sent. */
  function Asking(w: Worker, sent: bool): Worker
    requires w.current.Some?
  {
    var begin := |w.received|;
    var length := Min(BLOCK_SIZE, w.current.value.length - begin);
    w.(expectedBegin := begin, expectedLength := length, asked := w.asked + [Request(begin, length)], armed := sent)
  }

  /** The rest of requestNextPiece after a reservation. */
  function Taking(w: Worker, piece: Piece, sent: bool): Worker {
    Asking(w.(current := Some(piece), received := [], asked := []), sent)
  }

  function Receiving(w: Worker, block: Bytes): Worker {
    w.(received := w.received + block, armed := false)
  }

  /** currentPiece = nil; received = nil, before the data goes to CompletePiece. */
  function HandingOver(w: Worker): Worker {
    w.(current := None, received := [])
  }

  predicate WantsPiece(w: Worker) {
    w.unchoked && w.current.None?
  }

  predicate ForCurrent(w: Worker, index: int) {
    w.current.Some? && index == w.current.value.index
  }

  predicate Expected(w: Worker, begin: int, block: Bytes)
    requires w.current.Some?
  {
    begin == w.expectedBegin && |block| == w.expectedLength && |w.received| + |block| <= w.current.value.length
  }

  // ----- The local invariant -----

  /** Request j of a piece of the given length. */
  function Tile(length: int, j: nat): Request {
    Request(j * BLOCK_SIZE, Min(BLOCK_SIZE, length - j * BLOCK_SIZE))
  }

  /** The requests made so far are the first ones of the tiling, in order. */
  predicate Tiling(asked: seq<Request>, length: int) {
    forall j :: 0 <= j < |asked| ==> asked[j] == Tile(length, j)
  }

  predicate Idle(w: Worker) {
    w.current.None? && w.received == [] && !w.armed
  }

  /** A request is outstanding: it is the next tile, nothing of it has arrived, and it is not empty. */
  predicate Outstanding(w: Worker) {
    && w.current.Some? && w.unchoked && |w.asked| > 0
    && Tiling(w.asked, w.current.value.length)
    && |w.received| == (|w.asked| - 1) * BLOCK_SIZE < w.current.value.length
    && w.expectedBegin == |w.received|
    && w.expectedLength == Min(BLOCK_SIZE, w.current.value.length - |w.received|)
  }

  predicate LocalOk(w: Worker) {
    Idle(w) || (Outstanding(w) && w.armed)
  }

  lemma TakingIsOutstanding(w: Worker, piece: Piece, sent: bool)
    requires w.unchoked && piece.length > 0
    ensures Outstanding(Taking(w, piece, sent))
  {
  }

  /** An expected block either leaves the next tile to ask for or completes the piece,
      and then the requests made tile the whole piece. */
  lemma BlockAdvances(w: Worker, begin: int, block: Bytes, sent: bool)
    requires Outstanding(w) && Expected(w, begin, block)
    ensures var t, length := Receiving(w, block), w.current.value.length;
      if |t.received| < length then Outstanding(Asking(t, sent))
      else |t.received| == length && TilesAll(w.asked, length)
  {
  }

  predicate TilesAll(asked: seq<Request>, length: int) {
    && Tiling(asked, length) && |asked| > 0
    && (forall j :: 0 <= j < |asked| ==> 0 < asked[j].length <= BLOCK_SIZE)
    && asked[0].begin == 0
    && (forall j :: 0 <= j < |asked| - 1 ==> asked[j].begin + asked[j].length == asked[j + 1].begin)
    && asked[|asked| - 1].begin + asked[|asked| - 1].length == length
  }

  /** A block of any other shape than the expected one is refused. */
  lemma OnlyTheExpectedBlock(w: Worker, begin: int, block: Bytes)
    requires Outstanding(w)
    ensures Expected(w, begin, block) <==> Request(begin, |block|) == w.asked[|w.asked| - 1]
  {
  }
}
