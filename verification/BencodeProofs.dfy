/** The parser accepts exactly the canonical encodings within its limits, and its
    spans are exact. */
module BencodeProofs {
  import opened ByteStrings
  import opened Bencode

  /** The bytes of data from i on begin with text. */
  predicate ReadsAt(data: Bytes, i: nat, text: Bytes) {
    i + |text| <= |data| && data[i..i + |text|] == text
  }

  lemma ConcatParts(a: Bytes, b: Bytes, x: Bytes, y: Bytes)
    requires |a| == |x| && |b| == |y|
    ensures a + b == x + y <==> a == x && b == y
  {
    assert (a + b)[..|a|] == a && (a + b)[|a|..] == b;
    assert (x + y)[..|x|] == x && (x + y)[|x|..] == y;
  }

  lemma ReadsParts(data: Bytes, i: nat, first: Bytes, second: Bytes)
    ensures ReadsAt(data, i, first + second) <==> ReadsAt(data, i, first) && ReadsAt(data, i + |first|, second)
  {
    var k, end := i + |first|, i + |first| + |second|;
    if end <= |data| {
      assert data[i..end] == data[i..k] + data[k..end];
      ConcatParts(data[i..k], data[k..end], first, second);
    }
  }

  lemma ReadsContainer(data: Bytes, i: nat, tag: Byte, body: Bytes)
    ensures ReadsAt(data, i, [tag] + body + [END]) <==>
      i < |data| && data[i] == tag && ReadsAt(data, i + 1, body + [END])
  {
    assert [tag] + body + [END] == [tag] + (body + [END]);
    ReadsParts(data, i, [tag], body + [END]);
    if i < |data| {
      assert data[i..i + 1] == [data[i]];
    }
  }

  lemma ReadsItem(data: Bytes, i: nat, first: Bytes, rest: Bytes)
    ensures ReadsAt(data, i, (first + rest) + [END]) <==>
      ReadsAt(data, i, first) && ReadsAt(data, i + |first|, rest + [END])
  {
    assert (first + rest) + [END] == first + (rest + [END]);
    ReadsParts(data, i, first, rest + [END]);
  }

  lemma ReadsMember(data: Bytes, i: nat, key: Bytes, first: Bytes, rest: Bytes)
    ensures ReadsAt(data, i, (key + first + rest) + [END]) <==>
      ReadsAt(data, i, key) && ReadsAt(data, i + |key|, first) && ReadsAt(data, i + |key| + |first|, rest + [END])
  {
    ReadsItem(data, i, key + first, rest);
    ReadsParts(data, i, key, first);
  }

  predicate Yields<T(==)>(r: Result<(T, nat)>, value: T, end: nat) {
    r.Success? && r.value.0 == value && r.value.1 == end
  }

  // ----- Scalars -----

  lemma SoundInteger(data: Bytes, i: nat)
    requires i < |data| && data[i] == INTEGER && ParseInteger(data, i).Success?
    ensures var (n, end) := ParseInteger(data, i).value;
      IsInt64(n) && ReadsAt(data, i, [INTEGER] + IntText(n) + [END]) && end == i + |[INTEGER] + IntText(n) + [END]|
  {
    var (n, end) := ParseInteger(data, i).value;
    var text := data[i + 1..IndexOf(data, i + 1, END)];
    CanonicalIntIsItsText(text);
    assert n == IntValue(text) && text == IntText(n);
    assert data[i..end] == [INTEGER] + text + [END];
  }

  lemma {:induction false} IndexOfIs(data: Bytes, i: nat, b: Byte, stop: nat)
    requires i <= stop < |data| && data[stop] == b && forall k :: i <= k < stop ==> data[k] != b
    ensures IndexOf(data, i, b) == stop
    decreases stop - i
  {
    if i < stop {
      IndexOfIs(data, i + 1, b, stop);
    }
  }

  lemma {:induction false} DigitsEndIs(data: Bytes, i: nat, stop: nat)
    requires i <= stop < |data| && !IsDigit(data[stop]) && AllDigits(data[i..stop])
    ensures DigitsEnd(data, i) == stop
    decreases stop - i
  {
    if i < stop {
      assert IsDigit(data[i..stop][0]);
      assert data[i + 1..stop] == data[i..stop][1..];
      DigitsEndIs(data, i + 1, stop);
    }
  }

  lemma CompleteInteger(data: Bytes, i: nat, n: int)
    requires IsInt64(n) && ReadsAt(data, i, [INTEGER] + IntText(n) + [END])
    ensures Yields(ParseInteger(data, i), n, i + |IntText(n)| + 2)
  {
    var text := IntText(n);
    var stop := i + 1 + |text|;
    IntTextRoundTrip(n);
    ReadsParts(data, i, [INTEGER] + text, [END]);
    ReadsParts(data, i, [INTEGER], text);
    assert data[stop..stop + 1][0] == END;
    forall k | i + 1 <= k < stop ensures data[k] != END {
      assert data[k] == data[i + 1..stop][k - i - 1] == text[k - i - 1];
      NoEnd(text, k - i - 1);
    }
    IndexOfIs(data, i + 1, END, stop);
  }

  lemma NoEnd(text: Bytes, k: nat)
    requires CanonicalInt(text) && k < |text|
    ensures text[k] != END
  {
    if text[0] == MINUS && k > 0 {
      assert IsDigit(text[1..][k - 1]);
    }
  }

  lemma SoundString(data: Bytes, i: nat, limits: Limits)
    requires i < |data| && ParseString(data, i, limits).Success?
    ensures var (bytes, end) := ParseString(data, i, limits).value;
      && |bytes| <= limits.maxStringLength
      && ReadsAt(data, i, EncodeString(bytes)) && end == i + |EncodeString(bytes)|
  {
    var stop := DigitsEnd(data, i);
    var (bytes, end) := ParseString(data, i, limits).value;
    CanonicalDigitsAreDigits(data[i..stop]);
    assert data[i..end] == data[i..stop] + [COLON] + data[stop + 1..end];
  }

  lemma CompleteString(data: Bytes, i: nat, bytes: Bytes, limits: Limits)
    requires |bytes| <= limits.maxStringLength && ReadsAt(data, i, EncodeString(bytes))
    ensures i < |data| && IsDigit(data[i])
    ensures Yields(ParseString(data, i, limits), bytes, i + |EncodeString(bytes)|)
  {
    var text := Digits(|bytes|);
    var stop := i + |text|;
    DigitsAreCanonical(|bytes|);
    ReadsParts(data, i, text + [COLON], bytes);
    ReadsParts(data, i, text, [COLON]);
    assert data[stop..stop + 1][0] == COLON;
    assert data[i..stop][0] == text[0];
    DigitsEndIs(data, i, stop);
  }

  /** The first byte of an encoding tells its kind, and is never `e`. */
  lemma FirstByte(node: Node)
    ensures var text := Encode(node);
      |text| > 0 && text[0] != END && match node.value
        case Str(_) => IsDigit(text[0])
        case Int(_) => text[0] == INTEGER
        case List(_) => text[0] == LIST
        case Dict(_) => text[0] == DICT
  {
    match node.value
    case Str(bytes) => DigitsAreCanonical(|bytes|);
    case _ =>
  }

  // ----- Soundness: what is accepted is the encoding of the result -----

  ghost predicate SoundAt(data: Bytes, i: nat, node: Node, depth: nat, limits: Limits) {
    Placed(node, i) && Accepts(node, depth, limits) && ReadsAt(data, i, Encode(node))
  }

  ghost predicate SoundItemsAt(data: Bytes, i: nat, items: seq<Node>, depth: nat, limits: Limits) {
    PlacedItems(items, i) && AcceptsItems(items, depth, limits) && ReadsAt(data, i, EncodeItems(items) + [END])
  }

  ghost predicate SoundMembersAt(data: Bytes, i: nat, previous: Option<Bytes>, members: seq<Member>, depth: nat,
                                 limits: Limits) {
    && PlacedMembers(members, i) && KeysFollow(previous, members) && AcceptsMembers(members, depth, limits)
    && ReadsAt(data, i, EncodeMembers(members) + [END])
  }

  lemma ListSound(data: Bytes, i: nat, items: seq<Node>, end: nat, depth: nat, limits: Limits)
    requires i < |data| && data[i] == LIST && depth <= limits.maxDepth
    requires SoundItemsAt(data, i + 1, items, depth + 1, limits) && end == i + 1 + |EncodeItems(items)| + 1
    ensures SoundAt(data, i, Node(List(items), i, end), depth, limits)
  {
    ReadsContainer(data, i, LIST, EncodeItems(items));
  }

  lemma DictSound(data: Bytes, i: nat, members: seq<Member>, end: nat, depth: nat, limits: Limits)
    requires i < |data| && data[i] == DICT && depth <= limits.maxDepth
    requires SoundMembersAt(data, i + 1, None, members, depth + 1, limits)
    requires end == i + 1 + |EncodeMembers(members)| + 1
    ensures SoundAt(data, i, Node(Dict(members), i, end), depth, limits)
  {
    ReadsContainer(data, i, DICT, EncodeMembers(members));
  }

  lemma ScalarSound(data: Bytes, i: nat, depth: nat, limits: Limits)
    requires i < |data| && data[i] != LIST && data[i] != DICT && ParseValue(data, i, depth, limits).Success?
    ensures SoundAt(data, i, ParseValue(data, i, depth, limits).value, depth, limits)
  {
    if data[i] == INTEGER {
      SoundInteger(data, i);
    } else {
      SoundString(data, i, limits);
    }
  }

  /** What has been read when the parse of a list or of a dictionary succeeds. */
  lemma ListRead(data: Bytes, i: nat, depth: nat, limits: Limits)
    requires i < |data| && data[i] == LIST && ParseValue(data, i, depth, limits).Success?
    ensures depth <= limits.maxDepth && ParseItems(data, i + 1, depth + 1, limits).Success?
    ensures var (items, end) := ParseItems(data, i + 1, depth + 1, limits).value;
      ParseValue(data, i, depth, limits) == Success(Node(List(items), i, end))
  {
  }

  lemma DictRead(data: Bytes, i: nat, depth: nat, limits: Limits)
    requires i < |data| && data[i] == DICT && ParseValue(data, i, depth, limits).Success?
    ensures depth <= limits.maxDepth && ParseMembers(data, i + 1, None, depth + 1, limits).Success?
    ensures var (members, end) := ParseMembers(data, i + 1, None, depth + 1, limits).value;
      ParseValue(data, i, depth, limits) == Success(Node(Dict(members), i, end))
  {
  }

  lemma {:induction false} SoundValue(data: Bytes, i: nat, depth: nat, limits: Limits)
    requires i <= |data| && ParseValue(data, i, depth, limits).Success?
    ensures SoundAt(data, i, ParseValue(data, i, depth, limits).value, depth, limits)
    decreases |data| - i, 0
  {
    if data[i] == LIST {
      ListRead(data, i, depth, limits);
      SoundItems(data, i + 1, depth + 1, limits);
      var (items, end) := ParseItems(data, i + 1, depth + 1, limits).value;
      ListSound(data, i, items, end, depth, limits);
    } else if data[i] == DICT {
      DictRead(data, i, depth, limits);
      SoundMembers(data, i + 1, None, depth + 1, limits);
      var (members, end) := ParseMembers(data, i + 1, None, depth + 1, limits).value;
      DictSound(data, i, members, end, depth, limits);
    } else {
      ScalarSound(data, i, depth, limits);
    }
  }

  lemma {:induction false} SoundItems(data: Bytes, i: nat, depth: nat, limits: Limits)
    requires i <= |data| && ParseItems(data, i, depth, limits).Success?
    ensures var (items, end) := ParseItems(data, i, depth, limits).value;
      SoundItemsAt(data, i, items, depth, limits) && end == i + |EncodeItems(items)| + 1
    decreases |data| - i, 1
  {
    if data[i] == END {
      assert data[i..i + 1] == [END];
    } else {
      var item := ParseValue(data, i, depth, limits).value;
      var rest := ParseItems(data, item.end, depth, limits).value.0;
      SoundValue(data, i, depth, limits);
      SoundItems(data, item.end, depth, limits);
      assert ([item] + rest)[1..] == rest;
      ReadsItem(data, i, Encode(item), EncodeItems(rest));
    }
  }

  /** Putting one more member in front. */
  lemma MembersCons(data: Bytes, i: nat, previous: Option<Bytes>, key: Bytes, node: Node, rest: seq<Member>, depth: nat,
                    limits: Limits)
    requires |key| <= limits.maxStringLength && KeyFollows(previous, key) && ReadsAt(data, i, EncodeString(key))
    requires SoundAt(data, i + |EncodeString(key)|, node, depth, limits)
    requires SoundMembersAt(data, node.end, NextPrevious(previous, key), rest, depth, limits)
    ensures var members := [Member(key, node)] + rest;
      && SoundMembersAt(data, i, previous, members, depth, limits)
      && i + |EncodeMembers(members)| == node.end + |EncodeMembers(rest)|
  {
    var members := [Member(key, node)] + rest;
    assert members[1..] == rest;
    ReadsMember(data, i, EncodeString(key), Encode(node), EncodeMembers(rest));
  }

  /** What one turn of the dictionary loop has read when the whole parse succeeds. */
  lemma MembersRead(data: Bytes, i: nat, previous: Option<Bytes>, depth: nat, limits: Limits)
    requires i < |data| && data[i] != END && ParseMembers(data, i, previous, depth, limits).Success?
    ensures ParseString(data, i, limits).Success?
    ensures var (key, at) := ParseString(data, i, limits).value;
      && KeyFollows(previous, key) && ParseValue(data, at, depth, limits).Success?
      && var node := ParseValue(data, at, depth, limits).value;
         var rest := ParseMembers(data, node.end, NextPrevious(previous, key), depth, limits);
         && rest.Success?
         && ParseMembers(data, i, previous, depth, limits)
            == Success(([Member(key, node)] + rest.value.0, rest.value.1))
  {
  }

  /** The result of the dictionary loop is sound. */
  ghost predicate MembersSound(data: Bytes, i: nat, previous: Option<Bytes>, r: Result<(seq<Member>, nat)>, depth: nat,
                               limits: Limits) {
    r.Success? ==>
      SoundMembersAt(data, i, previous, r.value.0, depth, limits) && r.value.1 == i + |EncodeMembers(r.value.0)| + 1
  }

  lemma NoMembersSound(data: Bytes, i: nat, previous: Option<Bytes>, depth: nat, limits: Limits)
    requires i < |data| && data[i] == END
    ensures MembersSound(data, i, previous, Success(([], i + 1)), depth, limits)
  {
    assert data[i..i + 1] == [END];
  }

  lemma {:induction false} SoundMembers(data: Bytes, i: nat, previous: Option<Bytes>, depth: nat, limits: Limits)
    requires i <= |data| && ParseMembers(data, i, previous, depth, limits).Success?
    ensures MembersSound(data, i, previous, ParseMembers(data, i, previous, depth, limits), depth, limits)
    decreases |data| - i, 1
  {
    if data[i] == END {
      NoMembersSound(data, i, previous, depth, limits);
    } else {
      MembersRead(data, i, previous, depth, limits);
      var (key, at) := ParseString(data, i, limits).value;
      var node := ParseValue(data, at, depth, limits).value;
      var rest := ParseMembers(data, node.end, NextPrevious(previous, key), depth, limits).value.0;
      SoundString(data, i, limits);
      SoundValue(data, at, depth, limits);
      SoundMembers(data, node.end, NextPrevious(previous, key), depth, limits);
      MembersCons(data, i, previous, key, node, rest, depth, limits);
    }
  }

  // ----- Completeness: every accepted encoding is parsed back -----

  lemma ScalarParsed(data: Bytes, i: nat, node: Node, depth: nat, limits: Limits)
    requires node.start == i < |data| && depth <= limits.maxDepth
    requires match node.value
      case Str(bytes) => IsDigit(data[i]) && Yields(ParseString(data, i, limits), bytes, node.end)
      case Int(n) => data[i] == INTEGER && Yields(ParseInteger(data, i), n, node.end)
      case _ => false
    ensures ParseValue(data, i, depth, limits) == Success(node)
  {
  }

  lemma ListParsed(data: Bytes, i: nat, node: Node, depth: nat, limits: Limits)
    requires node.value.List? && node.start == i < |data| && data[i] == LIST && depth <= limits.maxDepth
    requires Yields(ParseItems(data, i + 1, depth + 1, limits), node.value.items, node.end)
    ensures ParseValue(data, i, depth, limits) == Success(node)
  {
  }

  lemma DictParsed(data: Bytes, i: nat, node: Node, depth: nat, limits: Limits)
    requires node.value.Dict? && node.start == i < |data| && data[i] == DICT && depth <= limits.maxDepth
    requires Yields(ParseMembers(data, i + 1, None, depth + 1, limits), node.value.members, node.end)
    ensures ParseValue(data, i, depth, limits) == Success(node)
  {
  }

  lemma {:induction false} CompleteValue(data: Bytes, i: nat, node: Node, depth: nat, limits: Limits)
    requires SoundAt(data, i, node, depth, limits)
    ensures i <= |data| && ParseValue(data, i, depth, limits) == Success(node)
    decreases node, 0
  {
    match node.value
    case Str(bytes) =>
      CompleteString(data, i, bytes, limits);
      ScalarParsed(data, i, node, depth, limits);
    case Int(n) =>
      ReadsContainer(data, i, INTEGER, IntText(n));
      CompleteInteger(data, i, n);
      ScalarParsed(data, i, node, depth, limits);
    case List(items) =>
      ReadsContainer(data, i, LIST, EncodeItems(items));
      CompleteItems(data, i + 1, items, depth + 1, limits);
      ListParsed(data, i, node, depth, limits);
    case Dict(members) =>
      ReadsContainer(data, i, DICT, EncodeMembers(members));
      CompleteMembers(data, i + 1, None, members, depth + 1, limits);
      DictParsed(data, i, node, depth, limits);
  }

  lemma ReadsFirstByte(data: Bytes, i: nat, node: Node)
    requires ReadsAt(data, i, Encode(node))
    ensures i < |data| && data[i] != END
  {
    FirstByte(node);
    var text := Encode(node);
    assert data[i] == data[i..i + |text|][0] == text[0];
  }

  lemma ItemsUncons(data: Bytes, i: nat, items: seq<Node>, depth: nat, limits: Limits)
    requires SoundItemsAt(data, i, items, depth, limits) && items != []
    ensures SoundAt(data, i, items[0], depth, limits) && i < |data| && data[i] != END
    ensures items[0].end == i + |Encode(items[0])| && SoundItemsAt(data, items[0].end, items[1..], depth, limits)
    ensures |EncodeItems(items)| == |Encode(items[0])| + |EncodeItems(items[1..])|
  {
    ReadsItem(data, i, Encode(items[0]), EncodeItems(items[1..]));
    ReadsFirstByte(data, i, items[0]);
  }

  lemma {:induction false} CompleteItems(data: Bytes, i: nat, items: seq<Node>, depth: nat, limits: Limits)
    requires SoundItemsAt(data, i, items, depth, limits)
    ensures i <= |data| && Yields(ParseItems(data, i, depth, limits), items, i + |EncodeItems(items)| + 1)
    decreases items, 1
  {
    if items == [] {
      assert data[i..i + 1][0] == END;
    } else {
      ItemsUncons(data, i, items, depth, limits);
      CompleteValue(data, i, items[0], depth, limits);
      CompleteItems(data, items[0].end, items[1..], depth, limits);
      assert [items[0]] + items[1..] == items;
    }
  }

  lemma FirstKeyReads(data: Bytes, i: nat, previous: Option<Bytes>, members: seq<Member>, depth: nat, limits: Limits)
    requires SoundMembersAt(data, i, previous, members, depth, limits) && members != []
    ensures i < |data| && IsDigit(data[i])
    ensures Yields(ParseString(data, i, limits), members[0].key, i + |EncodeString(members[0].key)|)
  {
    var key, node, rest := members[0].key, members[0].node, members[1..];
    FirstMember(members, i, previous, depth, limits);
    ReadsMember(data, i, EncodeString(key), Encode(node), EncodeMembers(rest));
    CompleteString(data, i, key, limits);
  }

  lemma MembersUncons(data: Bytes, i: nat, previous: Option<Bytes>, members: seq<Member>, depth: nat, limits: Limits)
    requires SoundMembersAt(data, i, previous, members, depth, limits) && members != []
    ensures var key, node, rest := members[0].key, members[0].node, members[1..];
      var at := i + |EncodeString(key)|;
      && i < |data| && IsDigit(data[i]) && Yields(ParseString(data, i, limits), key, at) && KeyFollows(previous, key)
      && SoundAt(data, at, node, depth, limits) && node.end == at + |Encode(node)|
      && SoundMembersAt(data, node.end, NextPrevious(previous, key), rest, depth, limits)
      && i + |EncodeMembers(members)| == node.end + |EncodeMembers(rest)|
  {
    var key, node, rest := members[0].key, members[0].node, members[1..];
    FirstMember(members, i, previous, depth, limits);
    ReadsMember(data, i, EncodeString(key), Encode(node), EncodeMembers(rest));
    assert ReadsAt(data, node.end, EncodeMembers(rest) + [END]);
    FirstKeyReads(data, i, previous, members, depth, limits);
  }

  /** What placing, ordering and accepting members says of the first and of the rest. */
  lemma FirstMember(members: seq<Member>, at: nat, previous: Option<Bytes>, depth: nat, limits: Limits)
    requires members != [] && PlacedMembers(members, at)
    requires KeysFollow(previous, members) && AcceptsMembers(members, depth, limits)
    ensures var key, node, rest := members[0].key, members[0].node, members[1..];
      && Placed(node, at + |EncodeString(key)|) && PlacedMembers(rest, node.end)
      && node.end == at + |EncodeString(key)| + |Encode(node)|
      && KeyFollows(previous, key) && KeysFollow(NextPrevious(previous, key), rest)
      && |key| <= limits.maxStringLength && Accepts(node, depth, limits) && AcceptsMembers(rest, depth, limits)
      && EncodeMembers(members) == EncodeString(key) + Encode(node) + EncodeMembers(rest)
  {
  }

  lemma {:induction false} CompleteMembers(data: Bytes, i: nat, previous: Option<Bytes>, members: seq<Member>,
                                           depth: nat, limits: Limits)
    requires SoundMembersAt(data, i, previous, members, depth, limits)
    ensures i <= |data|
    ensures Yields(ParseMembers(data, i, previous, depth, limits), members, i + |EncodeMembers(members)| + 1)
    decreases members, 1
  {
    if members == [] {
      assert data[i..i + 1][0] == END;
    } else {
      var key, node, rest := members[0].key, members[0].node, members[1..];
      MembersUncons(data, i, previous, members, depth, limits);
      CompleteValue(data, i + |EncodeString(key)|, node, depth, limits);
      CompleteMembers(data, node.end, NextPrevious(previous, key), rest, depth, limits);
      MembersParsed(data, i, previous, members, i + |EncodeString(key)|, node.end + |EncodeMembers(rest)| + 1,
                    depth, limits);
    }
  }

  /** One turn of the dictionary loop, given what its calls return. */
  lemma MembersParsed(data: Bytes, i: nat, previous: Option<Bytes>, members: seq<Member>, at: nat, end: nat, depth: nat,
                      limits: Limits)
    requires members != [] && i < |data| && IsDigit(data[i]) && at <= |data| && members[0].node.end <= |data|
    requires Yields(ParseString(data, i, limits), members[0].key, at) && KeyFollows(previous, members[0].key)
    requires ParseValue(data, at, depth, limits) == Success(members[0].node)
    requires Yields(ParseMembers(data, members[0].node.end, NextPrevious(previous, members[0].key), depth, limits),
                    members[1..], end)
    ensures Yields(ParseMembers(data, i, previous, depth, limits), members, end)
  {
    assert [members[0]] + members[1..] == members;
  }

  // ----- The main statements -----

  /** Parsing succeeds with a node exactly when the node's encoding is the whole
      input, its spans are exact and it is canonical within the limits. */
  lemma ParseIsInverse(data: Bytes, node: Node, limits: Limits)
    ensures Parse(data, limits) == Success(node) <==>
      Placed(node, 0) && Accepts(node, 0, limits) && Encode(node) == data
  {
    if Parse(data, limits) == Success(node) {
      SoundValue(data, 0, 0, limits);
      assert data[0..|data|] == data;
    }
    if Placed(node, 0) && Accepts(node, 0, limits) && Encode(node) == data {
      assert data[0..|data|] == data;
      CompleteValue(data, 0, node, 0, limits);
    }
  }

  /** No accepted encoding is a proper prefix of another: an input has at most one reading. */
  lemma EncodingsArePrefixFree(a: Node, b: Node, limits: Limits)
    requires Placed(a, 0) && Accepts(a, 0, limits) && Placed(b, 0) && Accepts(b, 0, limits)
    requires Encode(a) <= Encode(b)
    ensures a == b
  {
    CompleteValue(Encode(b), 0, a, 0, limits);
    CompleteValue(Encode(b), 0, b, 0, limits);
  }
}
