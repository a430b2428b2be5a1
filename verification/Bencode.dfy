/** Bencoded values, their encoding, and the strict parser as a function
    (internal/bencode/parser.go; BEP 3, "bencoding"). */
module Bencode {
  import opened ByteStrings

  const DEFAULT_MAX_STRING_LENGTH: nat := 0x400_0000 // 64 MiB
  const DEFAULT_MAX_DEPTH: nat := 512

  /** Both limits are Go ints. */
  type Limits = l: RawLimits | l.maxStringLength <= MAX_INT64 && l.maxDepth <= MAX_INT64
    witness RawLimits(DEFAULT_MAX_STRING_LENGTH, DEFAULT_MAX_DEPTH)
  datatype RawLimits = RawLimits(maxStringLength: nat, maxDepth: nat)

  /** A parsed value and the byte span [start, end) it was read from. A dictionary
      keeps its members in input order; AsMap is the map the source builds from them. */
  datatype Node = Node(value: Value, start: nat, end: nat)
  datatype Value = Str(bytes: Bytes) | Int(n: int) | List(items: seq<Node>) | Dict(members: seq<Member>)
  datatype Member = Member(key: Bytes, node: Node)

  function AsMap(members: seq<Member>): map<Bytes, Node> {
    if members == [] then map[]
    else
      var last := members[|members| - 1];
      AsMap(members[..|members| - 1])[last.key := last.node]
  }

  // ----- Decimal numbers -----

  const DIGIT_0: Byte := 48
  const DIGIT_9: Byte := 57
  const MINUS: Byte := 45
  const COLON: Byte := 58
  const INTEGER: Byte := 105
  const LIST: Byte := 108
  const DICT: Byte := 100
  const END: Byte := 101

  predicate IsDigit(b: Byte) {
    DIGIT_0 <= b <= DIGIT_9
  }

  function Digits(n: nat): Bytes {
    if n < 10 then [48 + n] else Digits(n / 10) + [48 + n % 10]
  }

  predicate AllDigits(text: Bytes) {
    forall i :: 0 <= i < |text| ==> IsDigit(text[i])
  }

  function DigitsValue(text: Bytes): nat
    requires AllDigits(text)
  {
    if text == [] then 0
    else
      var last: int := text[|text| - 1];
      DigitsValue(text[..|text| - 1]) * 10 + (last - 48)
  }

  predicate CanonicalDigits(text: Bytes) {
    |text| > 0 && AllDigits(text) && (|text| > 1 ==> text[0] != DIGIT_0)
  }

  lemma {:induction false} DigitsAreCanonical(n: nat)
    ensures CanonicalDigits(Digits(n)) && DigitsValue(Digits(n)) == n
    ensures n > 0 ==> Digits(n)[0] != DIGIT_0
  {
    if n >= 10 {
      DigitsAreCanonical(n / 10);
      var text := Digits(n);
      assert text[..|text| - 1] == Digits(n / 10);
    }
  }

  lemma {:induction false} CanonicalDigitsAreDigits(text: Bytes)
    requires CanonicalDigits(text)
    ensures Digits(DigitsValue(text)) == text
    ensures text[0] != DIGIT_0 ==> DigitsValue(text) > 0
  {
    var front, last: int := text[..|text| - 1], text[|text| - 1];
    if front == [] {
      assert text == [last];
    } else {
      CanonicalDigitsAreDigits(front);
      assert text == front + [last];
    }
  }

  function IntText(n: int): Bytes {
    if n < 0 then [MINUS] + Digits(-n) else Digits(n)
  }

  /** The texts between `i` and `e` that the parser does not reject for their form. */
  predicate CanonicalInt(text: Bytes) {
    |text| > 0 &&
    if text[0] == MINUS then |text| > 1 && text[1] != DIGIT_0 && AllDigits(text[1..])
    else CanonicalDigits(text)
  }

  function IntValue(text: Bytes): int
    requires CanonicalInt(text)
  {
    if text[0] == MINUS then 0 - DigitsValue(text[1..]) else DigitsValue(text)
  }

  predicate IsInt64(n: int) {
    -MAX_INT64 - 1 <= n <= MAX_INT64
  }

  /** Printing and reading are inverse: every integer has exactly one canonical text. */
  lemma IntTextRoundTrip(n: int)
    ensures CanonicalInt(IntText(n)) && IntValue(IntText(n)) == n
  {
    if n < 0 {
      DigitsAreCanonical(-n);
      assert IntText(n)[1..] == Digits(-n);
    } else {
      DigitsAreCanonical(n);
    }
  }

  lemma CanonicalIntIsItsText(text: Bytes)
    requires CanonicalInt(text)
    ensures IntText(IntValue(text)) == text
  {
    if text[0] == MINUS {
      CanonicalDigitsAreDigits(text[1..]);
      assert text == [MINUS] + text[1..];
    } else {
      CanonicalDigitsAreDigits(text);
    }
  }

  // ----- The encoding -----

  function EncodeString(s: Bytes): Bytes {
    Digits(|s|) + [COLON] + s
  }

  function Encode(node: Node): Bytes
    decreases node, 0
  {
    match node.value
    case Str(bytes) => EncodeString(bytes)
    case Int(n) => [INTEGER] + IntText(n) + [END]
    case List(items) => [LIST] + EncodeItems(items) + [END]
    case Dict(members) => [DICT] + EncodeMembers(members) + [END]
  }

  function EncodeItems(items: seq<Node>): Bytes
    decreases items, 1
  {
    if items == [] then [] else Encode(items[0]) + EncodeItems(items[1..])
  }

  function EncodeMembers(members: seq<Member>): Bytes
    decreases members, 1
  {
    if members == [] then []
    else EncodeString(members[0].key) + Encode(members[0].node) + EncodeMembers(members[1..])
  }

  // ----- Spans -----

  /** Every span below the node is where that part of the encoding lies when the node's encoding begins at `at`. */
  predicate Placed(node: Node, at: nat)
    decreases node, 0
  {
    && node.start == at && node.end == at + |Encode(node)|
    && match node.value
       case List(items) => PlacedItems(items, at + 1)
       case Dict(members) => PlacedMembers(members, at + 1)
       case _ => true
  }

  predicate PlacedItems(items: seq<Node>, at: nat)
    decreases items, 1
  {
    items != [] ==> Placed(items[0], at) && PlacedItems(items[1..], items[0].end)
  }

  predicate PlacedMembers(members: seq<Member>, at: nat)
    decreases members, 1
  {
    members != [] ==>
      && Placed(members[0].node, at + |EncodeString(members[0].key)|)
      && PlacedMembers(members[1..], members[0].node.end)
  }

  // ----- What the parser accepts -----

  /** The source's `previous` after a key: appending an empty key to a nil slice leaves it nil. */
  function NextPrevious(previous: Option<Bytes>, key: Bytes): Option<Bytes> {
    if previous.None? && key == [] then None else Some(key)
  }

  predicate KeyFollows(previous: Option<Bytes>, key: Bytes) {
    previous.None? || Less(previous.value, key)
  }

  predicate KeysFollow(previous: Option<Bytes>, members: seq<Member>)
    decreases |members|
  {
    members != [] ==>
      KeyFollows(previous, members[0].key) && KeysFollow(NextPrevious(previous, members[0].key), members[1..])
  }

  predicate Accepts(node: Node, depth: nat, limits: Limits)
    decreases node, 0
  {
    && depth <= limits.maxDepth
    && match node.value
       case Str(bytes) => |bytes| <= limits.maxStringLength
       case Int(n) => IsInt64(n)
       case List(items) => AcceptsItems(items, depth + 1, limits)
       case Dict(members) => KeysFollow(None, members) && AcceptsMembers(members, depth + 1, limits)
  }

  predicate AcceptsItems(items: seq<Node>, depth: nat, limits: Limits)
    decreases items, 1
  {
    items != [] ==> Accepts(items[0], depth, limits) && AcceptsItems(items[1..], depth, limits)
  }

  predicate AcceptsMembers(members: seq<Member>, depth: nat, limits: Limits)
    decreases members, 1
  {
    members != [] ==>
      && |members[0].key| <= limits.maxStringLength
      && Accepts(members[0].node, depth, limits) && AcceptsMembers(members[1..], depth, limits)
  }

  // ----- The parser -----

  function IndexOf(data: Bytes, i: nat, b: Byte): (r: nat)
    requires i <= |data|
    ensures i <= r <= |data| && (r < |data| ==> data[r] == b)
    ensures forall k :: i <= k < r ==> data[k] != b
    decreases |data| - i
  {
    if i == |data| || data[i] == b then i else IndexOf(data, i + 1, b)
  }

  function DigitsEnd(data: Bytes, i: nat): (r: nat)
    requires i <= |data|
    ensures i <= r <= |data| && (r < |data| ==> !IsDigit(data[r]))
    ensures AllDigits(data[i..r])
    decreases |data| - i
  {
    if i == |data| || !IsDigit(data[i]) then i else DigitsEnd(data, i + 1)
  }

  function ParseInteger(data: Bytes, i: nat): (r: Result<(int, nat)>)
    requires i < |data|
    ensures r.Success? ==> i < r.value.1 <= |data|
  {
    var stop := IndexOf(data, i + 1, END);
    if stop == |data| || !CanonicalInt(data[i + 1..stop]) || !IsInt64(IntValue(data[i + 1..stop])) then Failure
    else Success((IntValue(data[i + 1..stop]), stop + 1))
  }

  function ParseString(data: Bytes, i: nat, limits: Limits): (r: Result<(Bytes, nat)>)
    requires i < |data|
    ensures r.Success? ==> i < r.value.1 <= |data|
  {
    var stop := DigitsEnd(data, i);
    if stop == |data| || data[stop] != COLON || !CanonicalDigits(data[i..stop]) then Failure
    else
      var length, from := DigitsValue(data[i..stop]), stop + 1;
      if length > MAX_INT64 || length > limits.maxStringLength || length > |data| - from then Failure
      else Success((data[from..from + length], from + length))
  }

  function ParseValue(data: Bytes, i: nat, depth: nat, limits: Limits): (r: Result<Node>)
    requires i <= |data|
    ensures r.Success? ==> r.value.start == i < r.value.end <= |data|
    decreases |data| - i, 0
  {
    if depth > limits.maxDepth || i >= |data| then Failure
    else if data[i] == INTEGER then
      match ParseInteger(data, i)
      case Failure => Failure
      case Success((n, end)) => Success(Node(Int(n), i, end))
    else if data[i] == LIST then
      match ParseItems(data, i + 1, depth + 1, limits)
      case Failure => Failure
      case Success((items, end)) => Success(Node(List(items), i, end))
    else if data[i] == DICT then
      match ParseMembers(data, i + 1, None, depth + 1, limits)
      case Failure => Failure
      case Success((members, end)) => Success(Node(Dict(members), i, end))
    else if IsDigit(data[i]) then
      match ParseString(data, i, limits)
      case Failure => Failure
      case Success((bytes, end)) => Success(Node(Str(bytes), i, end))
    else Failure
  }

  function ParseItems(data: Bytes, i: nat, depth: nat, limits: Limits): (r: Result<(seq<Node>, nat)>)
    requires i <= |data|
    ensures r.Success? ==> i < r.value.1 <= |data|
    decreases |data| - i, 1
  {
    if i == |data| then Failure
    else if data[i] == END then Success(([], i + 1))
    else
      match ParseValue(data, i, depth, limits)
      case Failure => Failure
      case Success(item) =>
        match ParseItems(data, item.end, depth, limits)
        case Failure => Failure
        case Success((rest, end)) => Success(([item] + rest, end))
  }

  function ParseMembers(data: Bytes, i: nat, previous: Option<Bytes>, depth: nat,
                        limits: Limits): (r: Result<(seq<Member>, nat)>)
    requires i <= |data|
    ensures r.Success? ==> i < r.value.1 <= |data|
    decreases |data| - i, 1
  {
    if i == |data| then Failure
    else if data[i] == END then Success(([], i + 1))
    else if !IsDigit(data[i]) then Failure
    else
      match ParseString(data, i, limits)
      case Failure => Failure
      case Success((key, at)) =>
        if !KeyFollows(previous, key) then Failure
        else
          match ParseValue(data, at, depth, limits)
          case Failure => Failure
          case Success(node) =>
            match ParseMembers(data, node.end, NextPrevious(previous, key), depth, limits)
            case Failure => Failure
            case Success((rest, end)) => Success(([Member(key, node)] + rest, end))
  }

  /** Exactly one value and no trailing input. */
  function Parse(data: Bytes, limits: Limits): Result<Node> {
    match ParseValue(data, 0, 0, limits)
    case Failure => Failure
    case Success(node) => if node.end == |data| then Success(node) else Failure
  }
}
