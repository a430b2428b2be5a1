/** Peer wire messages (internal/peer/message.go). */
module Wire {
  import opened ByteStrings

  const TWO_32: int := 0x1_0000_0000
  const DEFAULT_MAX_MESSAGE_SIZE: int := 0x40_0000 // 4 MiB

  const MSG_CHOKE: Byte := 0
  const MSG_UNCHOKE: Byte := 1
  const MSG_INTERESTED: Byte := 2
  const MSG_HAVE: Byte := 4
  const MSG_BITFIELD: Byte := 5
  const MSG_REQUEST: Byte := 6
  const MSG_PIECE: Byte := 7

  /** A nil message and one without an ID are both the keep-alive. */
  datatype Message = KeepAlive | Message(id: Byte, payload: Bytes)

  // ----- Big-endian 32-bit integers -----

  /** The conversion uint32(x). */
  function ToUint32(x: int): int {
    x % TWO_32
  }

  function PutUint32(v: int): (b: Bytes)
    requires 0 <= v < TWO_32
    ensures |b| == 4
  {
    [v / 256 / 256 / 256, v / 256 / 256 % 256, v / 256 % 256, v % 256]
  }

  function GetUint32(b: Bytes): (v: int)
    requires |b| == 4
    ensures 0 <= v < TWO_32
  {
    var b0: int, b1: int, b2: int, b3: int := b[0], b[1], b[2], b[3];
    ((b0 * 256 + b1) * 256 + b2) * 256 + b3
  }

  lemma PutGet(v: int)
    requires 0 <= v < TWO_32
    ensures GetUint32(PutUint32(v)) == v
  {
  }

  lemma GetPut(b: Bytes)
    requires |b| == 4
    ensures PutUint32(GetUint32(b)) == b
  {
    var b0: int, b1: int, b2: int := b[0], b[1], b[2];
    assert GetUint32(b) / 256 == (b0 * 256 + b1) * 256 + b2;
    assert GetUint32(b) / 256 / 256 == b0 * 256 + b1;
  }

  // ----- Framing -----

  /** A message whose ID and payload fit a frame of at most max bytes. */
  predicate Fits(m: Message, max: int) {
    m.KeepAlive? || |m.payload| + 1 <= max
  }

  function Frame(m: Message): Bytes
    requires Fits(m, TWO_32 - 1)
  {
    if m.KeepAlive? then [0, 0, 0, 0] else PutUint32(|m.payload| + 1) + [m.id] + m.payload
  }

  /** What Serialize produces, if it does not panic: the length field is a uint32, so
      it wraps around and then cuts the payload off. */
  function Serialized(m: Message): Option<Bytes> {
    if m.KeepAlive? then Some([0, 0, 0, 0])
    else
      var length := ToUint32(|m.payload| + 1);
      if length == 0 then None else Some(PutUint32(length) + [m.id] + m.payload[..length - 1])
  }

  /** Fills a fresh buffer; null stands for the panic when the length wraps to zero. */
  method Serialize(m: Message) returns (buffer: array?<Byte>)
    ensures buffer == null <==> Serialized(m).None?
    ensures buffer != null ==> fresh(buffer) && Serialized(m) == Some(buffer[..])
  {
    if m.KeepAlive? {
      buffer := new Byte[4](_ => 0);
      assert buffer[..] == [0, 0, 0, 0];
      return;
    }
    var length := ToUint32(|m.payload| + 1);
    if length == 0 {
      return null;
    }
    buffer := new Byte[4 + length];
    var field := PutUint32(length);
    forall i | 0 <= i < 4 {
      buffer[i] := field[i];
    }
    buffer[4] := m.id;
    forall i | 0 <= i < length - 1 {
      buffer[5 + i] := m.payload[i];
    }
    assert buffer[..] == field + [m.id] + m.payload[..length - 1];
  }

  /** The first message of a byte stream and how many bytes it takes. */
  function Decode(b: Bytes, max: int): Result<(Message, nat)> {
    if max == 0 || |b| < 4 then Failure
    else
      var length := GetUint32(b[..4]);
      if length == 0 then Success((KeepAlive, 4))
      else if length > max || |b| < 4 + length then Failure
      else Success((Message(b[4], b[5..4 + length]), 4 + length))
  }

  /** What is left of the stream after a failed read: nothing has been read if the limit
      is zero, only the header if the length is refused, and all there was otherwise. */
  function Unread(b: Bytes, max: int): Bytes {
    if max == 0 then b
    else if |b| >= 4 && GetUint32(b[..4]) > max then b[4..]
    else []
  }

  /** The bytes a connection delivers before it fails. */
  class Reader {
    var data: Bytes

    constructor (data: Bytes)
      ensures this.data == data
    {
      this.data := data;
    }

    /** io.ReadFull: all n bytes, or an error after consuming what there was. */
    method ReadFull(n: nat) returns (r: Result<Bytes>)
      modifies this
      ensures if n <= |old(data)| then r == Success(old(data)[..n]) && data == old(data)[n..]
              else r == Failure && data == []
    {
      if n <= |data| {
        r := Success(data[..n]);
        data := data[n..];
      } else {
        r := Failure;
        data := [];
      }
    }

    method ReadMessageWithLimit(max: int) returns (r: Result<Message>)
      requires 0 <= max < TWO_32
      modifies this
      ensures match Decode(old(data), max)
        case Success((m, n)) => n <= |old(data)| && r == Success(m) && data == old(data)[n..]
        case Failure => r == Failure && data == Unread(old(data), max)
    {
      if max == 0 {
        return Failure;
      }
      var header := ReadFull(4);
      if header.Failure? {
        return Failure;
      }
      var length := GetUint32(header.value);
      if length == 0 {
        return Success(KeepAlive);
      }
      if length > max {
        return Failure;
      }
      ghost var rest := data;
      var body := ReadFull(length);
      if body.Failure? {
        return Failure;
      }
      assert body.value[1..] == old(data)[5..4 + length] && rest[length..] == old(data)[4 + length..];
      r := Success(Message(body.value[0], body.value[1..]));
    }
  }

  /** What is read back is what was sent, and the reader stops exactly at its end. */
  lemma FrameDecodes(m: Message, rest: Bytes, max: int)
    requires 0 < max < TWO_32 && Fits(m, max)
    ensures Decode(Frame(m) + rest, max) == Success((m, |Frame(m)|))
  {
    var b := Frame(m) + rest;
    if m.KeepAlive? {
      assert b[..4] == [0, 0, 0, 0];
    } else {
      PutGet(|m.payload| + 1);
      assert b[..4] == PutUint32(|m.payload| + 1);
      assert b[5..5 + |m.payload|] == m.payload;
    }
  }

  /** Whatever is serialized is the frame of the message with its payload cut to the wrapped length. */
  lemma SerializedIsAFrame(m: Message)
    requires m.Message? && Serialized(m).Some?
    ensures var cut := Message(m.id, m.payload[..ToUint32(|m.payload| + 1) - 1]);
      && Serialized(m) == Some(Frame(cut))
      && Decode(Serialized(m).value, TWO_32 - 1) == Success((cut, |Serialized(m).value|))
      && (cut == m <==> Fits(m, TWO_32 - 1))
  {
    var cut := Message(m.id, m.payload[..ToUint32(|m.payload| + 1) - 1]);
    FrameDecodes(cut, [], TWO_32 - 1);
    assert Frame(cut) + [] == Frame(cut);
    assert Fits(m, TWO_32 - 1) ==> cut.payload == m.payload;
  }

  /** Serialize gives the frame, and a reader without a tighter limit gets the
      message back, exactly when the length field does not wrap around. */
  lemma SerializeIsFaithful(m: Message)
    ensures Fits(m, TWO_32 - 1) ==> Serialized(m) == Some(Frame(m))
    ensures Serialized(m).Some? && Decode(Serialized(m).value, TWO_32 - 1) == Success((m, |Serialized(m).value|))
       <==> Fits(m, TWO_32 - 1)
  {
    if m.KeepAlive? {
      FrameDecodes(m, [], TWO_32 - 1);
      assert Frame(m) + [] == Frame(m);
    } else if Serialized(m).Some? {
      SerializedIsAFrame(m);
    }
  }

  /** Whatever the reader accepts is the frame of the message it returns. */
  lemma DecodedIsFrame(b: Bytes, max: int)
    requires 0 < max < TWO_32 && Decode(b, max).Success?
    ensures var (m, n) := Decode(b, max).value;
      Fits(m, max) && n <= |b| && n > 0 && Frame(m) == b[..n]
  {
    GetPut(b[..4]);
    var length := GetUint32(b[..4]);
    if length == 0 {
      assert b[..4] == PutUint32(0);
    } else {
      assert b[..4 + length] == b[..4] + [b[4]] + b[5..4 + length];
    }
  }

  predicate AllFit(ms: seq<Message>, max: int) {
    forall i :: 0 <= i < |ms| ==> Fits(ms[i], max)
  }

  function Stream(ms: seq<Message>): Bytes
    requires AllFit(ms, TWO_32 - 1)
  {
    if ms == [] then [] else Frame(ms[0]) + Stream(ms[1..])
  }

  /** Reading message after message until the stream is empty. */
  function DecodeAll(b: Bytes, max: int): Result<seq<Message>>
    requires 0 < max < TWO_32
    decreases |b|
  {
    if b == [] then Success([])
    else if Decode(b, max).Failure? then Failure
    else
      DecodedIsFrame(b, max);
      var (m, n) := Decode(b, max).value;
      match DecodeAll(b[n..], max)
      case Failure => Failure
      case Success(rest) => Success([m] + rest)
  }

  /** Any list of messages that fit the limit survives the wire. */
  lemma {:induction false} StreamRoundTrip(ms: seq<Message>, max: int)
    requires 0 < max < TWO_32 && AllFit(ms, max)
    ensures DecodeAll(Stream(ms), max) == Success(ms)
  {
    if ms != [] {
      FrameDecodes(ms[0], Stream(ms[1..]), max);
      StreamRoundTrip(ms[1..], max);
      assert Stream(ms)[|Frame(ms[0])|..] == Stream(ms[1..]);
      assert ms == [ms[0]] + ms[1..];
    }
  }

  lemma StreamCons(m: Message, rest: seq<Message>, max: int)
    requires max < TWO_32 && Fits(m, max) && AllFit(rest, max)
    ensures AllFit([m] + rest, max) && Stream([m] + rest) == Frame(m) + Stream(rest)
  {
    assert ([m] + rest)[1..] == rest;
  }

  /** A byte stream is accepted only if it is the frames of the messages read from it. */
  lemma {:induction false} StreamIsUnique(b: Bytes, max: int)
    requires 0 < max < TWO_32 && DecodeAll(b, max).Success?
    ensures AllFit(DecodeAll(b, max).value, max)
    ensures Stream(DecodeAll(b, max).value) == b
    decreases |b|
  {
    if b != [] {
      DecodedIsFrame(b, max);
      var (m, n) := Decode(b, max).value;
      var rest := DecodeAll(b[n..], max).value;
      StreamIsUnique(b[n..], max);
      StreamCons(m, rest, max);
      assert DecodeAll(b, max).value == [m] + rest;
      assert b == b[..n] + b[n..];
    }
  }

  // ----- Payloads -----

  function NewRequest(index: int, begin: int, length: int): Message {
    Message(MSG_REQUEST, PutUint32(ToUint32(index)) + PutUint32(ToUint32(begin)) + PutUint32(ToUint32(length)))
  }

  function NewHave(index: int): Message {
    Message(MSG_HAVE, PutUint32(ToUint32(index)))
  }

  function ParseHave(payload: Bytes): Result<int> {
    if |payload| != 4 then Failure else Success(GetUint32(payload))
  }

  datatype Block = Block(index: int, begin: int, data: Bytes)

  function ParsePiece(payload: Bytes): Result<Block> {
    if |payload| < 8 then Failure
    else Success(Block(GetUint32(payload[..4]), GetUint32(payload[4..8]), payload[8..]))
  }

  /** A request says on the wire what it was built from exactly when no field is truncated. */
  lemma RequestFieldsSurvive(index: int, begin: int, length: int)
    ensures var payload := NewRequest(index, begin, length).payload;
      && |payload| == 12
      && (GetUint32(payload[..4]) == index && GetUint32(payload[4..8]) == begin && GetUint32(payload[8..]) == length
          <==> 0 <= index < TWO_32 && 0 <= begin < TWO_32 && 0 <= length < TWO_32)
  {
    var payload := NewRequest(index, begin, length).payload;
    assert payload[..4] == PutUint32(ToUint32(index));
    assert payload[4..8] == PutUint32(ToUint32(begin));
    assert payload[8..] == PutUint32(ToUint32(length));
    PutGet(ToUint32(index));
    PutGet(ToUint32(begin));
    PutGet(ToUint32(length));
  }

  lemma HaveRoundTrip(index: int)
    ensures ParseHave(NewHave(index).payload) == Success(index) <==> 0 <= index < TWO_32
  {
    PutGet(ToUint32(index));
  }

  /** ParsePiece undoes the layout of a piece message: two integers and the block. */
  lemma PieceRoundTrip(payload: Bytes, block: Block)
    requires 0 <= block.index < TWO_32 && 0 <= block.begin < TWO_32
    ensures ParsePiece(payload) == Success(block) <==>
      payload == PutUint32(block.index) + PutUint32(block.begin) + block.data
  {
    PutGet(block.index);
    PutGet(block.begin);
    var laid := PutUint32(block.index) + PutUint32(block.begin) + block.data;
    assert laid[..4] == PutUint32(block.index) && laid[4..8] == PutUint32(block.begin) && laid[8..] == block.data;
    if |payload| >= 8 {
      GetPut(payload[..4]);
      GetPut(payload[4..8]);
      assert payload == payload[..4] + payload[4..8] + payload[8..];
    }
  }
}
