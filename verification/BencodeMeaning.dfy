/** Consequences of the parser's exactness: its limits, its key order, what its
    values and its spans mean, and the info hash. */
module BencodeMeaning {
  import opened ByteStrings
  import opened Bencode
  import opened BencodeProofs

  // ----- Limits -----

  function Max(a: nat, b: nat): nat {
    if a < b then b else a
  }

  /** Scalars and empty containers have height 0. */
  function Height(node: Node): nat
    decreases node, 0
  {
    match node.value
    case List(items) => if items == [] then 0 else 1 + ItemsHeight(items)
    case Dict(members) => if members == [] then 0 else 1 + MembersHeight(members)
    case _ => 0
  }

  function ItemsHeight(items: seq<Node>): nat
    decreases items, 1
  {
    if items == [] then 0 else Max(Height(items[0]), ItemsHeight(items[1..]))
  }

  function MembersHeight(members: seq<Member>): nat
    decreases members, 1
  {
    if members == [] then 0 else Max(Height(members[0].node), MembersHeight(members[1..]))
  }

  function LongestString(node: Node): nat
    decreases node, 0
  {
    match node.value
    case Str(bytes) => |bytes|
    case Int(_) => 0
    case List(items) => LongestInItems(items)
    case Dict(members) => LongestInMembers(members)
  }

  function LongestInItems(items: seq<Node>): nat
    decreases items, 1
  {
    if items == [] then 0 else Max(LongestString(items[0]), LongestInItems(items[1..]))
  }

  function LongestInMembers(members: seq<Member>): nat
    decreases members, 1
  {
    if members == [] then 0
    else Max(Max(|members[0].key|, LongestString(members[0].node)), LongestInMembers(members[1..]))
  }

  /** Canonical form without any limit: 64-bit integers and keys in the accepted order. */
  predicate WellFormed(node: Node)
    decreases node, 0
  {
    match node.value
    case Str(_) => true
    case Int(n) => IsInt64(n)
    case List(items) => WellFormedItems(items)
    case Dict(members) => KeysFollow(None, members) && WellFormedMembers(members)
  }

  predicate WellFormedItems(items: seq<Node>)
    decreases items, 1
  {
    items != [] ==> WellFormed(items[0]) && WellFormedItems(items[1..])
  }

  predicate WellFormedMembers(members: seq<Member>)
    decreases members, 1
  {
    members != [] ==> WellFormed(members[0].node) && WellFormedMembers(members[1..])
  }

  lemma {:induction false} AcceptsIsBounded(node: Node, depth: nat, limits: Limits)
    ensures Accepts(node, depth, limits) <==>
      WellFormed(node) && LongestString(node) <= limits.maxStringLength && depth + Height(node) <= limits.maxDepth
    decreases node, 0
  {
    match node.value
    case Str(_) =>
    case Int(_) =>
    case List(items) => ItemsAcceptsIsBounded(items, depth + 1, limits);
    case Dict(members) => MembersAcceptsIsBounded(members, depth + 1, limits);
  }

  lemma {:induction false} ItemsAcceptsIsBounded(items: seq<Node>, depth: nat, limits: Limits)
    ensures AcceptsItems(items, depth, limits) <==>
      && WellFormedItems(items) && LongestInItems(items) <= limits.maxStringLength
      && (items != [] ==> depth + ItemsHeight(items) <= limits.maxDepth)
    decreases items, 1
  {
    if items != [] {
      AcceptsIsBounded(items[0], depth, limits);
      ItemsAcceptsIsBounded(items[1..], depth, limits);
    }
  }

  lemma {:induction false} MembersAcceptsIsBounded(members: seq<Member>, depth: nat, limits: Limits)
    ensures AcceptsMembers(members, depth, limits) <==>
      && WellFormedMembers(members) && LongestInMembers(members) <= limits.maxStringLength
      && (members != [] ==> depth + MembersHeight(members) <= limits.maxDepth)
    decreases members, 1
  {
    if members != [] {
      AcceptsIsBounded(members[0].node, depth, limits);
      MembersAcceptsIsBounded(members[1..], depth, limits);
    }
  }

  /** The limits are exact: the encoding of a well-formed value is accepted if and only
      if its height and every string in it are within them, and then it is returned. */
  lemma LimitsAreExact(node: Node, limits: Limits)
    requires Placed(node, 0) && WellFormed(node) && LongestString(node) <= MAX_INT64 && Height(node) <= MAX_INT64
    ensures Parse(Encode(node), limits) ==
      if LongestString(node) <= limits.maxStringLength && Height(node) <= limits.maxDepth
      then Success(node) else Failure
  {
    var data := Encode(node);
    var generous: Limits := RawLimits(MAX_INT64, MAX_INT64);
    AcceptsIsBounded(node, 0, limits);
    AcceptsIsBounded(node, 0, generous);
    ParseIsInverse(data, node, limits);
    var r := Parse(data, limits);
    if r.Success? {
      var other := r.value;
      ParseIsInverse(data, other, limits);
      AcceptsIsBounded(other, 0, limits);
      AcceptsIsBounded(other, 0, generous);
      EncodingsArePrefixFree(node, other, generous);
    }
  }

  // ----- Key order -----

  /** Adjacent keys increase, except that anything may follow an empty key. */
  predicate AdjacentKeysFollow(members: seq<Member>) {
    forall i :: 0 < i < |members| ==> members[i - 1].key == [] || Less(members[i - 1].key, members[i].key)
  }

  predicate StrictlySorted(members: seq<Member>) {
    forall i, j :: 0 <= i < j < |members| ==> Less(members[i].key, members[j].key)
  }

  /** What the order check with its nil-able `previous` accepts. */
  lemma {:induction false} KeyOrderIsExact(previous: Option<Bytes>, members: seq<Member>)
    requires previous != Some([])
    ensures KeysFollow(previous, members) <==>
      (members != [] ==> KeyFollows(previous, members[0].key)) && AdjacentKeysFollow(members)
    decreases |members|
  {
    if members != [] {
      var rest, next := members[1..], NextPrevious(previous, members[0].key);
      if KeyFollows(previous, members[0].key) {
        KeyOrderIsExact(next, rest);
      }
      if AdjacentKeysFollow(members) {
        forall i | 0 < i < |rest| ensures rest[i - 1].key == [] || Less(rest[i - 1].key, rest[i].key) {
          assert members[i].key == [] || Less(members[i].key, members[i + 1].key);
        }
        assert rest != [] ==> members[1] == rest[0];
      }
      if AdjacentKeysFollow(rest) && (rest != [] ==> KeyFollows(next, rest[0].key)) {
        forall i | 0 < i < |members| ensures members[i - 1].key == [] || Less(members[i - 1].key, members[i].key) {
          if i > 1 {
            assert rest[i - 2].key == [] || Less(rest[i - 2].key, rest[i - 1].key);
          }
        }
      }
    }
  }

  /** Once a non-empty key has been read, all later keys are larger: only a leading
      run of empty keys can repeat. */
  lemma {:induction false} SortedAfterEmptyRun(members: seq<Member>, i: nat, j: nat)
    requires AdjacentKeysFollow(members) && i < j < |members| && members[i].key != []
    ensures Less(members[i].key, members[j].key)
    decreases j
  {
    assert members[j - 1].key == [] || Less(members[j - 1].key, members[j].key);
    if i < j - 1 {
      SortedAfterEmptyRun(members, i, j - 1);
      LessIsTransitive(members[i].key, members[j - 1].key, members[j].key);
    }
  }

  /** Accepted keys are strictly sorted, as the error text promises, exactly when the
      second one is not empty. */
  lemma StrictUnlessEmptyKeyRepeats(members: seq<Member>)
    requires KeysFollow(None, members)
    ensures StrictlySorted(members) <==> !(|members| >= 2 && members[1].key == [])
  {
    KeyOrderIsExact(None, members);
    if |members| >= 2 && members[1].key == [] {
      assert !Less(members[0].key, members[1].key);
    } else {
      forall i, j | 0 <= i < j < |members| ensures Less(members[i].key, members[j].key) {
        if members[i].key != [] {
          SortedAfterEmptyRun(members, i, j);
        } else if i > 0 {
          EmptyKeysLead(members, i);
        } else if members[j].key == [] {
          EmptyKeysLead(members, j);
        }
      }
    }
  }

  lemma {:induction false} EmptyKeysLead(members: seq<Member>, i: nat)
    requires AdjacentKeysFollow(members) && 0 < i < |members| && members[i].key == []
    ensures |members| >= 2 && members[1].key == []
    decreases i
  {
    assert !Less(members[i - 1].key, members[i].key);
    if i > 1 {
      EmptyKeysLead(members, i - 1);
    }
  }

  lemma MembersUnfold(first: Member, rest: seq<Member>, at: nat, previous: Option<Bytes>, depth: nat, limits: Limits)
    ensures var all := [first] + rest;
      && EncodeMembers(all) == EncodeString(first.key) + Encode(first.node) + EncodeMembers(rest)
      && (PlacedMembers(all, at) <==>
            Placed(first.node, at + |EncodeString(first.key)|) && PlacedMembers(rest, first.node.end))
      && (KeysFollow(previous, all) <==>
            KeyFollows(previous, first.key) && KeysFollow(NextPrevious(previous, first.key), rest))
      && (AcceptsMembers(all, depth, limits) <==>
            && |first.key| <= limits.maxStringLength && Accepts(first.node, depth, limits)
            && AcceptsMembers(rest, depth, limits))
  {
    var all := [first] + rest;
    assert all[0] == first && all[1..] == rest;
  }

  const REPEATED: Node := Node(Dict([Member([], Node(Int(1), 3, 6)), Member([], Node(Int(2), 8, 11))]), 0, 12)
  const REPEATED_TEXT: Bytes := [DICT, 48, COLON, INTEGER, 49, END, 48, COLON, INTEGER, 50, END, END]

  lemma RepeatedIsEncoded(limits: Limits)
    requires limits.maxDepth >= 1
    ensures Encode(REPEATED) == REPEATED_TEXT && Placed(REPEATED, 0) && Accepts(REPEATED, 0, limits)
  {
    var one, two := Node(Int(1), 3, 6), Node(Int(2), 8, 11);
    var first, second := Member([], one), Member([], two);
    assert Encode(one) == [INTEGER, 49, END] && Encode(two) == [INTEGER, 50, END] && EncodeString([]) == [48, COLON];
    assert [second] == [second] + [];
    MembersUnfold(second, [], 6, None, 1, limits);
    MembersUnfold(first, [second], 1, None, 1, limits);
    assert REPEATED.value.members == [first] + [second];
    assert EncodeMembers([first] + [second]) == REPEATED_TEXT[1..11];
  }

  /** The input d0:i1e0:i2ee repeats the empty key, and the parser accepts it. */
  lemma RepeatedEmptyKeyIsAccepted(limits: Limits)
    requires limits.maxDepth >= 1
    ensures Parse(REPEATED_TEXT, limits) == Success(REPEATED)
    ensures !StrictlySorted(REPEATED.value.members)
    ensures AsMap(REPEATED.value.members) == map[[] := Node(Int(2), 8, 11)]
  {
    RepeatedIsEncoded(limits);
    ParseIsInverse(REPEATED_TEXT, REPEATED, limits);
    var members := REPEATED.value.members;
    assert !Less(members[0].key, members[1].key);
    assert members[..1][..0] == [] && AsMap(members[..1]) == map[[] := members[0].node];
  }

  // ----- Values -----

  /** What the source's parse result means to its users: dictionaries are maps, spans are forgotten. */
  datatype Meaning =
    | Text(bytes: Bytes)
    | Number(n: int)
    | Sequence(items: seq<Meaning>)
    | Mapping(entries: map<Bytes, Meaning>)

  function MeaningOf(node: Node): Meaning
    decreases node, 0
  {
    match node.value
    case Str(bytes) => Text(bytes)
    case Int(n) => Number(n)
    case List(items) => Sequence(ItemMeanings(items))
    case Dict(members) => Mapping(MemberMeanings(members))
  }

  function ItemMeanings(items: seq<Node>): seq<Meaning>
    decreases items, 1
  {
    if items == [] then [] else [MeaningOf(items[0])] + ItemMeanings(items[1..])
  }

  function MemberMeanings(members: seq<Member>): map<Bytes, Meaning>
    decreases members, 1
  {
    if members == [] then map[]
    else
      var rest := MemberMeanings(members[1..]);
      rest + (if members[0].key in rest then map[] else map[members[0].key := MeaningOf(members[0].node)])
  }

  /** No dictionary at any depth repeats the empty key. */
  predicate NoEmptyRepeat(node: Node)
    decreases node, 0
  {
    match node.value
    case List(items) => NoEmptyRepeatInItems(items)
    case Dict(members) => !(|members| >= 2 && members[1].key == []) && NoEmptyRepeatInMembers(members)
    case _ => true
  }

  predicate NoEmptyRepeatInItems(items: seq<Node>)
    decreases items, 1
  {
    items != [] ==> NoEmptyRepeat(items[0]) && NoEmptyRepeatInItems(items[1..])
  }

  predicate NoEmptyRepeatInMembers(members: seq<Member>)
    decreases members, 1
  {
    members != [] ==> NoEmptyRepeat(members[0].node) && NoEmptyRepeatInMembers(members[1..])
  }

  lemma {:induction false} MeaningKeys(members: seq<Member>, key: Bytes)
    ensures key in MemberMeanings(members) <==> exists i :: 0 <= i < |members| && members[i].key == key
    decreases |members|
  {
    if members != [] {
      MeaningKeys(members[1..], key);
      if key in MemberMeanings(members[1..]) {
        var i :| 0 <= i < |members[1..]| && members[1..][i].key == key;
        assert members[i + 1].key == key;
      } else if members[0].key != key {
        forall i | 0 <= i < |members| ensures members[i].key != key {
          assert i > 0 ==> members[1..][i - 1] == members[i];
        }
      }
    }
  }

  lemma FirstIsLeast(members: seq<Member>, key: Bytes)
    requires members != [] && StrictlySorted(members) && key in MemberMeanings(members) && key != members[0].key
    ensures Less(members[0].key, key)
  {
    MeaningKeys(members, key);
    var i :| 0 <= i < |members| && members[i].key == key;
  }

  /** In a strictly sorted list the first key is in no later place. */
  lemma FirstNotLater(members: seq<Member>)
    requires members != [] && StrictlySorted(members)
    ensures StrictlySorted(members[1..]) && members[0].key !in MemberMeanings(members[1..])
  {
    var rest := members[1..];
    assert forall i :: 0 <= i < |rest| ==> rest[i] == members[i + 1];
    MeaningKeys(rest, members[0].key);
    LessIsIrreflexive(members[0].key);
  }

  lemma SortedHead(members: seq<Member>)
    requires members != [] && StrictlySorted(members)
    ensures StrictlySorted(members[1..]) && members[0].key !in MemberMeanings(members[1..])
    ensures forall key :: key in MemberMeanings(members) && key != members[0].key ==> Less(members[0].key, key)
    ensures MemberMeanings(members[1..]) == MemberMeanings(members) - {members[0].key}
    ensures members[0].key in MemberMeanings(members)
    ensures MemberMeanings(members)[members[0].key] == MeaningOf(members[0].node)
  {
    FirstNotLater(members);
    forall key | key in MemberMeanings(members) && key != members[0].key ensures Less(members[0].key, key) {
      FirstIsLeast(members, key);
    }
  }

  /** Without a repeated empty key the meaning determines the encoding: two inputs
      that mean the same are the same bytes. */
  lemma {:induction false} MeaningDeterminesEncoding(a: Node, b: Node)
    requires WellFormed(a) && WellFormed(b) && NoEmptyRepeat(a) && NoEmptyRepeat(b) && MeaningOf(a) == MeaningOf(b)
    ensures Encode(a) == Encode(b)
    decreases a, 0
  {
    match a.value
    case Str(_) =>
    case Int(_) =>
    case List(items) => ItemMeaningsDetermineEncoding(items, b.value.items);
    case Dict(members) =>
      StrictUnlessEmptyKeyRepeats(members);
      StrictUnlessEmptyKeyRepeats(b.value.members);
      MemberMeaningsDetermineEncoding(members, b.value.members);
  }

  lemma {:induction false} ItemMeaningsDetermineEncoding(a: seq<Node>, b: seq<Node>)
    requires WellFormedItems(a) && WellFormedItems(b) && NoEmptyRepeatInItems(a) && NoEmptyRepeatInItems(b)
    requires ItemMeanings(a) == ItemMeanings(b)
    ensures EncodeItems(a) == EncodeItems(b)
    decreases a, 1
  {
    if a != [] {
      assert ItemMeanings(a)[0] == ItemMeanings(b)[0] && ItemMeanings(a)[1..] == ItemMeanings(b)[1..];
      MeaningDeterminesEncoding(a[0], b[0]);
      ItemMeaningsDetermineEncoding(a[1..], b[1..]);
    }
  }

  lemma {:induction false} MemberMeaningsDetermineEncoding(a: seq<Member>, b: seq<Member>)
    requires WellFormedMembers(a) && WellFormedMembers(b) && NoEmptyRepeatInMembers(a) && NoEmptyRepeatInMembers(b)
    requires StrictlySorted(a) && StrictlySorted(b) && MemberMeanings(a) == MemberMeanings(b)
    ensures EncodeMembers(a) == EncodeMembers(b)
    decreases a, 1
  {
    if a != [] && b != [] {
      SortedHead(a);
      SortedHead(b);
      if a[0].key != b[0].key {
        LessIsTransitive(a[0].key, b[0].key, a[0].key);
        LessIsIrreflexive(a[0].key);
      }
      MeaningDeterminesEncoding(a[0].node, b[0].node);
      MemberMeaningsDetermineEncoding(a[1..], b[1..]);
    } else if a != [] {
      SortedHead(a);
    } else if b != [] {
      SortedHead(b);
    }
  }

  /** Two accepted inputs without a repeated empty key that parse to the same value are equal. */
  lemma SameMeaningSameInput(d1: Bytes, d2: Bytes, limits: Limits)
    requires Parse(d1, limits).Success? && Parse(d2, limits).Success?
    requires NoEmptyRepeat(Parse(d1, limits).value) && NoEmptyRepeat(Parse(d2, limits).value)
    requires MeaningOf(Parse(d1, limits).value) == MeaningOf(Parse(d2, limits).value)
    ensures d1 == d2
  {
    var a, b := Parse(d1, limits).value, Parse(d2, limits).value;
    ParseIsInverse(d1, a, limits);
    ParseIsInverse(d2, b, limits);
    AcceptsIsBounded(a, 0, limits);
    AcceptsIsBounded(b, 0, limits);
    MeaningDeterminesEncoding(a, b);
  }

  lemma {:induction false} AsMapCons(first: Member, rest: seq<Member>)
    ensures AsMap([first] + rest) == map[first.key := first.node] + AsMap(rest)
    decreases |rest|
  {
    var all := [first] + rest;
    if rest == [] {
      assert all[..0] == [];
    } else {
      AsMapCons(first, rest[..|rest| - 1]);
      assert all[..|all| - 1] == [first] + rest[..|rest| - 1];
    }
  }

  /** The meaning of a dictionary is the meaning of the map the source builds, where the last value wins. */
  lemma {:induction false} MeaningOfTheMap(members: seq<Member>)
    ensures MemberMeanings(members).Keys == AsMap(members).Keys
    ensures forall key :: key in AsMap(members) ==> MemberMeanings(members)[key] == MeaningOf(AsMap(members)[key])
    decreases |members|
  {
    if members != [] {
      MeaningOfTheMap(members[1..]);
      AsMapCons(members[0], members[1..]);
      assert members == [members[0]] + members[1..];
    }
  }

  // ----- Spans -----

  function Children(node: Node): seq<Node> {
    match node.value
    case List(items) => items
    case Dict(members) => seq(|members|, i requires 0 <= i < |members| => members[i].node)
    case _ => []
  }

  lemma {:induction false} ItemSpans(data: Bytes, items: seq<Node>, at: nat, k: nat)
    requires PlacedItems(items, at) && ReadsAt(data, at, EncodeItems(items)) && k < |items|
    ensures Placed(items[k], items[k].start) && ReadsAt(data, items[k].start, Encode(items[k]))
    ensures at <= items[k].start < items[k].end <= at + |EncodeItems(items)|
    ensures k + 1 < |items| ==> items[k].end <= items[k + 1].start
    decreases |items|
  {
    ReadsParts(data, at, Encode(items[0]), EncodeItems(items[1..]));
    FirstByte(items[0]);
    if k > 0 {
      ItemSpans(data, items[1..], items[0].end, k - 1);
    } else if |items| > 1 {
      assert PlacedItems(items[1..], items[0].end) && Placed(items[1..][0], items[0].end);
    }
  }

  lemma {:induction false} MemberSpans(data: Bytes, members: seq<Member>, at: nat, k: nat)
    requires PlacedMembers(members, at) && ReadsAt(data, at, EncodeMembers(members)) && k < |members|
    ensures Placed(members[k].node, members[k].node.start)
    ensures ReadsAt(data, members[k].node.start, Encode(members[k].node))
    ensures at <= members[k].node.start < members[k].node.end <= at + |EncodeMembers(members)|
    ensures k + 1 < |members| ==> members[k].node.end <= members[k + 1].node.start
    decreases |members|
  {
    var key := EncodeString(members[0].key);
    ReadsParts(data, at, key + Encode(members[0].node), EncodeMembers(members[1..]));
    ReadsParts(data, at, key, Encode(members[0].node));
    FirstByte(members[0].node);
    if k > 0 {
      MemberSpans(data, members[1..], members[0].node.end, k - 1);
    } else if |members| > 1 {
      assert Placed(members[1..][0].node, members[0].node.end + |EncodeString(members[1..][0].key)|);
    }
  }

  /** Children lie strictly inside their parent, in order and disjoint, and each span
      is its own encoding. */
  lemma ChildSpans(data: Bytes, node: Node, k: nat)
    requires Placed(node, node.start) && ReadsAt(data, node.start, Encode(node)) && k < |Children(node)|
    ensures var child := Children(node)[k];
      && Placed(child, child.start) && ReadsAt(data, child.start, Encode(child))
      && node.start < child.start < child.end < node.end
      && (k + 1 < |Children(node)| ==> child.end <= Children(node)[k + 1].start)
  {
    match node.value
    case List(items) =>
      ReadsContainer(data, node.start, LIST, EncodeItems(items));
      ReadsParts(data, node.start + 1, EncodeItems(items), [END]);
      ItemSpans(data, items, node.start + 1, k);
    case Dict(members) =>
      ReadsContainer(data, node.start, DICT, EncodeMembers(members));
      ReadsParts(data, node.start + 1, EncodeMembers(members), [END]);
      MemberSpans(data, members, node.start + 1, k);
  }

  /** A node reached by a path of child indices. */
  function At(node: Node, path: seq<nat>): Option<Node>
    decreases |path|
  {
    if path == [] then Some(node)
    else if path[0] < |Children(node)| then At(Children(node)[path[0]], path[1..])
    else None
  }

  lemma {:induction false} SpansBelow(data: Bytes, node: Node, path: seq<nat>)
    requires Placed(node, node.start) && ReadsAt(data, node.start, Encode(node)) && At(node, path).Some?
    ensures var n := At(node, path).value;
      && Placed(n, n.start) && ReadsAt(data, n.start, Encode(n))
      && node.start <= n.start < n.end <= node.end
      && (path != [] ==> node.start < n.start && n.end < node.end)
    decreases |path|
  {
    FirstByte(node);
    if path != [] {
      ChildSpans(data, node, path[0]);
      SpansBelow(data, Children(node)[path[0]], path[1..]);
    }
  }

  /** In a successful parse the span of every node, at every depth, is exactly its encoding. */
  lemma EverySpanIsExact(data: Bytes, limits: Limits, path: seq<nat>)
    requires Parse(data, limits).Success? && At(Parse(data, limits).value, path).Some?
    ensures var n := At(Parse(data, limits).value, path).value;
      n.start < n.end <= |data| && data[n.start..n.end] == Encode(n)
  {
    var root := Parse(data, limits).value;
    ParseIsInverse(data, root, limits);
    assert data[0..|data|] == data;
    SpansBelow(data, root, path);
  }

  // ----- The info hash -----

  const INFO: Bytes := [105, 110, 102, 111] // "info"

  function ExtractInfoHash(root: Node, rawData: Bytes, sha1: Bytes -> Bytes): Result<Bytes> {
    if !root.value.Dict? then Failure
    else
      var dict := AsMap(root.value.members);
      if INFO !in dict then Failure
      else
        var info := dict[INFO];
        if info.end < info.start || info.end > |rawData| then Failure
        else Success(sha1(rawData[info.start..info.end]))
  }

  lemma {:induction false} MapValueIsAMember(members: seq<Member>, key: Bytes)
    requires key in AsMap(members)
    ensures exists k :: 0 <= k < |members| && members[k].key == key && members[k].node == AsMap(members)[key]
  {
    var last := |members| - 1;
    if members[last].key != key {
      MapValueIsAMember(members[..last], key);
      var k :| 0 <= k < last && members[..last][k].key == key && members[..last][k].node == AsMap(members[..last])[key];
      assert members[k].key == key;
    }
  }

  /** For a parsed torrent the info hash exists exactly when there is an "info" entry,
      and is the hash of the encoding of that entry, byte for byte as in the input. */
  lemma InfoHashIsOfTheEncoding(data: Bytes, limits: Limits, sha1: Bytes -> Bytes)
    requires Parse(data, limits).Success?
    ensures var root := Parse(data, limits).value;
      ExtractInfoHash(root, data, sha1) ==
        if root.value.Dict? && INFO in AsMap(root.value.members)
        then Success(sha1(Encode(AsMap(root.value.members)[INFO]))) else Failure
  {
    var root := Parse(data, limits).value;
    if root.value.Dict? && INFO in AsMap(root.value.members) {
      MapValueIsAMember(root.value.members, INFO);
      var k :| 0 <= k < |root.value.members| && root.value.members[k].node == AsMap(root.value.members)[INFO];
      assert Children(root)[k] == AsMap(root.value.members)[INFO];
      assert At(root, [k]) == Some(Children(root)[k]) by {
        assert [k][1..] == [];
      }
      EverySpanIsExact(data, limits, [k]);
    }
  }
}
