/** Validation of metainfo (internal/torrent/metadata.go): which parsed torrents
    are accepted and what they are taken to describe. */
module Metainfo {
  import opened ByteStrings
  import opened Bencode
  import opened BencodeMeaning
  import opened Pieces
  import Paths
  import Storage

  type FileInfo = Storage.FileInfo

  const ANNOUNCE: Bytes := [97, 110, 110, 111, 117, 110, 99, 101]
  const ANNOUNCE_LIST: Bytes := [97, 110, 110, 111, 117, 110, 99, 101, 45, 108, 105, 115, 116]
  const NAME: Bytes := [110, 97, 109, 101]
  const PIECE_LENGTH: Bytes := [112, 105, 101, 99, 101, 32, 108, 101, 110, 103, 116, 104]
  const PIECES: Bytes := [112, 105, 101, 99, 101, 115]
  const FILES: Bytes := [102, 105, 108, 101, 115]
  const LENGTH: Bytes := [108, 101, 110, 103, 116, 104]
  const PATH: Bytes := [112, 97, 116, 104]

  const MAX_PIECE_LENGTH: int := 0x400_0000 // 64 MiB
  const SHA1_SIZE: nat := 20

  /** What the model does not look inside: ValidatePathComponent, lower-casing (which
      works character by character, hence component by component) and SHA-1. */
  datatype Platform = Platform(valid: Bytes -> bool, fold: Bytes -> Bytes, sha1: Bytes -> Bytes) {
    /** Valid components are neither empty nor hold a NUL, and stay so in lower case. */
    ghost predicate Sound() {
      forall c: Bytes :: valid(c) ==> Paths.Plain(c) && Paths.Plain(fold(c))
    }
  }

  datatype TorrentMeta = TorrentMeta(
    announce: Bytes, announceList: seq<seq<Bytes>>, name: Bytes, length: int, pieceLength: int,
    pieces: seq<Bytes>, infoHash: Bytes, files: seq<FileInfo>, multiFile: bool)

  // ----- What a "files" list describes -----

  predicate HasInt(dict: map<Bytes, Node>, key: Bytes, n: int) {
    key in dict && dict[key].value == Int(n)
  }

  predicate HasString(dict: map<Bytes, Node>, key: Bytes, s: Bytes) {
    key in dict && dict[key].value == Str(s)
  }

  predicate IsComponents(items: seq<Node>, path: Paths.Components, platform: Platform) {
    |path| == |items| && forall j :: 0 <= j < |path| ==> items[j].value == Str(path[j]) && platform.valid(path[j])
  }

  predicate IsFile(node: Node, info: FileInfo, platform: Platform) {
    node.value.Dict? && info.length >= 0 && info.path != []
    && var dict := AsMap(node.value.members);
       && HasInt(dict, LENGTH, info.length)
       && PATH in dict && dict[PATH].value.List? && IsComponents(dict[PATH].value.items, info.path, platform)
  }

  predicate AreFiles(items: seq<Node>, files: seq<FileInfo>, platform: Platform) {
    |files| == |items| && forall i :: 0 <= i < |files| ==> IsFile(items[i], files[i], platform)
  }

  predicate DescribesFiles(node: Node, files: seq<FileInfo>, platform: Platform) {
    node.value.List? && AreFiles(node.value.items, files, platform)
  }

  function Folded(path: Paths.Components, platform: Platform): (r: Paths.Components)
    ensures |r| == |path|
  {
    seq(|path|, i requires 0 <= i < |path| => platform.fold(path[i]))
  }

  /** In lower case, path i is path j or one of its parent directories. */
  predicate Covers(files: seq<FileInfo>, i: nat, j: nat, platform: Platform)
    requires i < |files| && j < |files|
  {
    Folded(files[i].path, platform) <= Folded(files[j].path, platform)
  }

  predicate NoConflict(files: seq<FileInfo>, platform: Platform) {
    forall i, j :: 0 <= i < |files| && 0 <= j < |files| && i != j ==> !Covers(files, i, j, platform)
  }

  predicate AcceptableFiles(files: seq<FileInfo>, platform: Platform) {
    files != [] && Storage.TotalLength(files) <= MAX_INT64 && NoConflict(files, platform)
  }

  // ----- A parsed value describes at most one file list -----

  lemma OnlyOneFile(node: Node, a: FileInfo, b: FileInfo, platform: Platform)
    requires IsFile(node, a, platform) && IsFile(node, b, platform)
    ensures a == b
  {
    var items := AsMap(node.value.members)[PATH].value.items;
    assert forall j :: 0 <= j < |items| ==> a.path[j] == items[j].value.bytes == b.path[j];
    assert a.path == b.path;
  }

  lemma OnlyOneFileList(items: seq<Node>, n: nat, a: seq<FileInfo>, b: seq<FileInfo>, platform: Platform)
    requires n <= |items| && AreFiles(items[..n], a, platform) && AreFiles(items, b, platform)
    ensures a == b[..n]
  {
    forall i | 0 <= i < n ensures a[i] == b[i] {
      OnlyOneFile(items[i], a[i], b[i], platform);
    }
  }

  // ----- Path keys -----

  /** strings.ToLower(strings.Join(components, "\x00")) */
  function KeyOf(path: Paths.Components, platform: Platform): Bytes {
    Paths.Join(Folded(path, platform))
  }

  predicate KeysOf(files: seq<FileInfo>, keys: seq<Bytes>, platform: Platform) {
    |keys| == |files| && forall i :: 0 <= i < |files| ==> keys[i] == KeyOf(files[i].path, platform)
  }

  predicate ValidPath(path: Paths.Components, platform: Platform) {
    path != [] && forall j :: 0 <= j < |path| ==> platform.valid(path[j])
  }

  predicate ValidPaths(files: seq<FileInfo>, platform: Platform) {
    forall i :: 0 <= i < |files| ==> ValidPath(files[i].path, platform)
  }

  lemma FoldedIsPlain(path: Paths.Components, platform: Platform)
    requires platform.Sound() && ValidPath(path, platform)
    ensures Paths.PlainPath(Folded(path, platform))
  {
  }

  /** One path covers another exactly when their keys are equal or nested. */
  lemma CoversIsOfKeys(files: seq<FileInfo>, keys: seq<Bytes>, i: nat, j: nat, platform: Platform)
    requires platform.Sound() && KeysOf(files, keys, platform)
    requires ValidPaths(files, platform) && i < |files| && j < |files|
    ensures Covers(files, i, j, platform) <==> keys[i] == keys[j] || Paths.Nested(keys[i], keys[j])
  {
    var p, q := Folded(files[i].path, platform), Folded(files[j].path, platform);
    FoldedIsPlain(files[i].path, platform);
    FoldedIsPlain(files[j].path, platform);
    Paths.NestedMeansPrefix(p, q);
    if keys[i] == keys[j] {
      Paths.JoinIsInjective(p, q);
    }
    assert p <= q <==> p == q || p < q;
  }

  lemma NothingIsNestedInItself(key: Bytes)
    ensures !Paths.Nested(key, key)
  {
  }

  /** Distinct keys, none nested in another, are exactly the absence of conflicts. */
  lemma NoConflictIsOfKeys(files: seq<FileInfo>, keys: seq<Bytes>, platform: Platform)
    requires platform.Sound() && KeysOf(files, keys, platform) && ValidPaths(files, platform)
    ensures NoConflict(files, platform) <==> Paths.NoRepeat(keys) && !Paths.SomePairNested(keys)
  {
    forall i, j | 0 <= i < |files| && 0 <= j < |files|
      ensures Covers(files, i, j, platform) <==> keys[i] == keys[j] || Paths.Nested(keys[i], keys[j]) {
      CoversIsOfKeys(files, keys, i, j, platform);
    }
    if NoConflict(files, platform) {
      ConflictFree(files, keys, platform);
    } else {
      var i, j :| 0 <= i < |files| && 0 <= j < |files| && i != j && Covers(files, i, j, platform);
      assert keys[i] == keys[j] || Paths.Nested(keys[i], keys[j]);
    }
  }

  lemma ConflictFree(files: seq<FileInfo>, keys: seq<Bytes>, platform: Platform)
    requires |keys| == |files| && NoConflict(files, platform)
    requires forall i, j :: 0 <= i < |files| && 0 <= j < |files| ==>
      (Covers(files, i, j, platform) <==> keys[i] == keys[j] || Paths.Nested(keys[i], keys[j]))
    ensures Paths.NoRepeat(keys) && !Paths.SomePairNested(keys)
  {
    forall i, j | 0 <= i < j < |keys| ensures keys[i] != keys[j] {
      assert !Covers(files, i, j, platform);
    }
    forall i, j | 0 <= i < |keys| && 0 <= j < |keys| ensures !Paths.Nested(keys[i], keys[j]) {
      if i == j {
        NothingIsNestedInItself(keys[i]);
      } else {
        assert !Covers(files, i, j, platform);
      }
    }
  }

  lemma AreFilesHaveValidPaths(items: seq<Node>, files: seq<FileInfo>, platform: Platform)
    requires AreFiles(items, files, platform)
    ensures ValidPaths(files, platform) && Storage.NonNegative(files)
  {
    forall i | 0 <= i < |files| ensures ValidPath(files[i].path, platform) && files[i].length >= 0 {
      assert IsFile(items[i], files[i], platform);
    }
  }

  lemma FoldKeepsPrefix(p: Paths.Components, q: Paths.Components, platform: Platform)
    requires p <= q
    ensures Folded(p, platform) <= Folded(q, platform)
  {
  }

  /** Accepted files have pairwise different paths, none of which is a directory of another, in any case. */
  lemma AcceptedPathsAreApart(files: seq<FileInfo>, platform: Platform)
    requires NoConflict(files, platform)
    ensures Storage.DistinctFiles(files)
    ensures forall i, j :: 0 <= i < |files| && 0 <= j < |files| && i != j ==> !(files[i].path <= files[j].path)
  {
    forall i, j | 0 <= i < |files| && 0 <= j < |files| && i != j ensures !(files[i].path <= files[j].path) {
      if files[i].path <= files[j].path {
        FoldKeepsPrefix(files[i].path, files[j].path, platform);
      }
      assert !Covers(files, i, j, platform);
    }
  }

  // ----- extractFiles -----

  method ExtractComponents(items: seq<Node>, platform: Platform) returns (r: Result<Paths.Components>)
    ensures r.Success? ==> IsComponents(items, r.value, platform)
    ensures r.Failure? ==> forall path :: !IsComponents(items, path, platform)
  {
    var components: Paths.Components := [];
    for j := 0 to |items|
      invariant IsComponents(items[..j], components, platform)
    {
      if !items[j].value.Str? || !platform.valid(items[j].value.bytes) {
        return Failure;
      }
      components := components + [items[j].value.bytes];
    }
    assert items[..|items|] == items;
    r := Success(components);
  }

  method ExtractFile(node: Node, platform: Platform) returns (r: Result<FileInfo>)
    ensures r.Success? ==> IsFile(node, r.value, platform)
    ensures r.Failure? ==> forall info :: !IsFile(node, info, platform)
  {
    if !node.value.Dict? {
      return Failure;
    }
    var dict := AsMap(node.value.members);
    if LENGTH !in dict || !dict[LENGTH].value.Int? || dict[LENGTH].value.n < 0 {
      return Failure;
    }
    if PATH !in dict || !dict[PATH].value.List? || |dict[PATH].value.items| == 0 {
      return Failure;
    }
    var components := ExtractComponents(dict[PATH].value.items, platform);
    if components.Failure? {
      return Failure;
    }
    r := Success(Storage.FileInfo(components.value, dict[LENGTH].value.n));
  }

  /** The state of the loop after the first n entries. */
  ghost predicate Extracted(items: seq<Node>, n: nat, files: seq<FileInfo>, keys: seq<Bytes>, seen: set<Bytes>,
                            total: int, platform: Platform)
    requires n <= |items|
  {
    && AreFiles(items[..n], files, platform) && KeysOf(files, keys, platform)
    && Paths.NoRepeat(keys) && (forall k :: k in seen <==> k in keys)
    && 0 <= total == Storage.TotalLength(files) <= MAX_INT64
  }

  lemma ExtractedOneMore(items: seq<Node>, n: nat, files: seq<FileInfo>, keys: seq<Bytes>, seen: set<Bytes>, total: int,
                         info: FileInfo, platform: Platform)
    requires n < |items| && Extracted(items, n, files, keys, seen, total, platform) && IsFile(items[n], info, platform)
    requires KeyOf(info.path, platform) !in seen && info.length <= MAX_INT64 - total
    ensures var key := KeyOf(info.path, platform);
      Extracted(items, n + 1, files + [info], keys + [key], seen + {key}, total + info.length, platform)
  {
    var key := KeyOf(info.path, platform);
    AreFilesHaveValidPaths(items[..n], files, platform);
    Storage.SpansOfSnoc(files, info, 0);
    assert items[..n + 1] == items[..n] + [items[n]];
  }

  lemma AllExtracted(items: seq<Node>, files: seq<FileInfo>, keys: seq<Bytes>, seen: set<Bytes>, total: int,
                     platform: Platform)
    requires platform.Sound() && Extracted(items, |items|, files, keys, seen, total, platform)
    ensures AreFiles(items, files, platform)
    ensures NoConflict(files, platform) <==> !Paths.SomePairNested(keys)
  {
    assert items[..|items|] == items;
    AreFilesHaveValidPaths(items, files, platform);
    NoConflictIsOfKeys(files, keys, platform);
  }

  /** A duplicate or an overflow at entry n refuses every file list with that beginning. */
  lemma NotAcceptable(items: seq<Node>, n: nat, files: seq<FileInfo>, keys: seq<Bytes>, seen: set<Bytes>, total: int,
                      info: FileInfo, all: seq<FileInfo>, platform: Platform)
    requires platform.Sound() && n < |items|
    requires Extracted(items, n, files, keys, seen, total, platform) && IsFile(items[n], info, platform)
    requires KeyOf(info.path, platform) in seen || info.length > MAX_INT64 - total
    requires AreFiles(items, all, platform)
    ensures !AcceptableFiles(all, platform)
  {
    OnlyOneFileList(items, n, files, all, platform);
    OnlyOneFile(items[n], info, all[n], platform);
    AreFilesHaveValidPaths(items, all, platform);
    if KeyOf(info.path, platform) in seen {
      var i :| 0 <= i < |keys| && keys[i] == KeyOf(info.path, platform);
      var allKeys := seq(|all|, k requires 0 <= k < |all| => KeyOf(all[k].path, platform));
      CoversIsOfKeys(all, allKeys, i, n, platform);
      assert Covers(all, i, n, platform);
    } else {
      TotalsGrow(all, n + 1);
      Storage.SpansOfSnoc(files, info, 0);
      assert all[..n + 1] == files + [info];
    }
  }

  lemma TotalsGrow(files: seq<FileInfo>, n: nat)
    requires Storage.NonNegative(files) && n <= |files|
    ensures Storage.TotalLength(files[..n]) <= Storage.TotalLength(files)
  {
    if Storage.TotalLength(files[..n]) > Storage.TotalLength(files) {
      Storage.LongerThan(files, n, Storage.TotalLength(files));
    }
  }

  /** No acceptable file list is described by the entries. */
  ghost predicate Refused(items: seq<Node>, platform: Platform) {
    forall all :: AreFiles(items, all, platform) ==> !AcceptableFiles(all, platform)
  }

  lemma EntryRefused(items: seq<Node>, n: nat, platform: Platform)
    requires n < |items| && forall info :: !IsFile(items[n], info, platform)
    ensures Refused(items, platform)
  {
    assert forall all :: AreFiles(items, all, platform) ==> IsFile(items[n], all[n], platform);
  }

  lemma AdditionRefused(items: seq<Node>, n: nat, files: seq<FileInfo>, keys: seq<Bytes>, seen: set<Bytes>, total: int,
                        info: FileInfo, platform: Platform)
    requires platform.Sound() && n < |items|
    requires Extracted(items, n, files, keys, seen, total, platform) && IsFile(items[n], info, platform)
    requires KeyOf(info.path, platform) in seen || info.length > MAX_INT64 - total
    ensures Refused(items, platform)
  {
    forall all | AreFiles(items, all, platform) ensures !AcceptableFiles(all, platform) {
      NotAcceptable(items, n, files, keys, seen, total, info, all, platform);
    }
  }

  lemma ConflictRefused(items: seq<Node>, files: seq<FileInfo>, platform: Platform)
    requires AreFiles(items, files, platform) && !NoConflict(files, platform)
    ensures Refused(items, platform)
  {
    assert items[..|items|] == items;
    forall all | AreFiles(items, all, platform) ensures !AcceptableFiles(all, platform) {
      OnlyOneFileList(items, |items|, files, all, platform);
      assert all[..|items|] == all;
    }
  }

  /** Accepts exactly the lists of files whose lengths fit and whose paths, in lower
      case, are all-pairs distinct and not nested, and returns those files. */
  method ExtractFiles(node: Node, platform: Platform) returns (r: Result<(seq<FileInfo>, int)>)
    requires platform.Sound()
    ensures r.Success? ==>
      && DescribesFiles(node, r.value.0, platform) && AcceptableFiles(r.value.0, platform)
      && r.value.1 == Storage.TotalLength(r.value.0) >= 0
    ensures r.Failure? ==> node.value.List? ==> Refused(node.value.items, platform)
  {
    if !node.value.List? {
      return Failure;
    }
    var list := node.value.items;
    if |list| == 0 {
      return Failure;
    }
    var files: seq<FileInfo>, pathKeys: seq<Bytes>, seen: set<Bytes>, total := [], [], {}, 0;
    for i := 0 to |list|
      invariant Extracted(list, i, files, pathKeys, seen, total, platform)
    {
      var info := ExtractFile(list[i], platform);
      if info.Failure? {
        EntryRefused(list, i, platform);
        return Failure;
      }
      var key := KeyOf(info.value.path, platform);
      if key in seen || info.value.length > MAX_INT64 - total {
        AdditionRefused(list, i, files, pathKeys, seen, total, info.value, platform);
        return Failure;
      }
      ExtractedOneMore(list, i, files, pathKeys, seen, total, info.value, platform);
      files, pathKeys, seen := files + [info.value], pathKeys + [key], seen + {key};
      total := total + info.value.length;
    }
    AllExtracted(list, files, pathKeys, seen, total, platform);
    var conflict := Paths.PathConflict(pathKeys);
    if conflict {
      ConflictRefused(list, files, platform);
      return Failure;
    }
    r := Success((files, total));
  }

  // ----- Trackers -----

  /** The non-empty ones, in order. */
  function WithoutEmpty<T(==)>(all: seq<seq<T>>): seq<seq<T>> {
    if all == [] then []
    else
      var front, last := WithoutEmpty(all[..|all| - 1]), all[|all| - 1];
      if last == [] then front else front + [last]
  }

  /** Nothing else is dropped, nothing is added, and what is kept keeps its order. */
  lemma {:induction false} WithoutEmptyIsExact<T>(all: seq<seq<T>>, more: seq<seq<T>>)
    ensures forall x :: x in WithoutEmpty(all) <==> x in all && x != []
    ensures WithoutEmpty(all + more) == WithoutEmpty(all) + WithoutEmpty(more)
    decreases |all|, |more|
  {
    if more != [] {
      WithoutEmptyIsExact(all, more[..|more| - 1]);
      assert (all + more)[..|all + more| - 1] == all + more[..|more| - 1];
    } else {
      assert all + more == all;
      if all != [] {
        WithoutEmptyIsExact(all[..|all| - 1], []);
      }
    }
  }

  predicate AreStrings(items: seq<Node>) {
    forall i :: 0 <= i < |items| ==> items[i].value.Str?
  }

  function Strings(items: seq<Node>): seq<Bytes>
    requires AreStrings(items)
  {
    seq(|items|, i requires 0 <= i < |items| => items[i].value.bytes)
  }

  predicate AreTiers(items: seq<Node>) {
    forall i :: 0 <= i < |items| ==> items[i].value.List? && AreStrings(items[i].value.items)
  }

  /** The tiers as listed, with empty addresses but not yet empty tiers left out. */
  function Tiers(items: seq<Node>): seq<seq<Bytes>>
    requires AreTiers(items)
  {
    seq(|items|, i requires 0 <= i < |items| => WithoutEmpty(Strings(items[i].value.items)))
  }

  predicate IsAnnounce(dict: map<Bytes, Node>, announce: Bytes) {
    if ANNOUNCE in dict then dict[ANNOUNCE].value == Str(announce) else announce == []
  }

  predicate IsAnnounceList(dict: map<Bytes, Node>, tiers: seq<seq<Bytes>>) {
    if ANNOUNCE_LIST !in dict then tiers == []
    else
      && dict[ANNOUNCE_LIST].value.List? && AreTiers(dict[ANNOUNCE_LIST].value.items)
      && tiers == WithoutEmpty(Tiers(dict[ANNOUNCE_LIST].value.items))
  }

  /** The announce entries are well-formed and name at least one tracker. */
  predicate NamesTracker(dict: map<Bytes, Node>, meta: TorrentMeta) {
    && IsAnnounce(dict, meta.announce) && IsAnnounceList(dict, meta.announceList)
    && (meta.announce != [] || meta.announceList != [])
  }

  method ExtractTier(items: seq<Node>) returns (r: Result<seq<Bytes>>)
    ensures r.Success? <==> AreStrings(items)
    ensures r.Success? ==> r.value == WithoutEmpty(Strings(items))
  {
    var tier: seq<Bytes> := [];
    for j := 0 to |items|
      invariant AreStrings(items[..j]) && tier == WithoutEmpty(Strings(items[..j]))
    {
      if !items[j].value.Str? {
        return Failure;
      }
      assert items[..j + 1] == items[..j] + [items[j]];
      assert Strings(items[..j + 1]) == Strings(items[..j]) + [items[j].value.bytes];
      if items[j].value.bytes != [] {
        tier := tier + [items[j].value.bytes];
      }
    }
    assert items[..|items|] == items;
    r := Success(tier);
  }

  method ExtractAnnounceList(root: map<Bytes, Node>) returns (r: Result<seq<seq<Bytes>>>)
    ensures r.Success? ==> IsAnnounceList(root, r.value)
    ensures r.Failure? ==> forall tiers :: !IsAnnounceList(root, tiers)
  {
    if ANNOUNCE_LIST !in root {
      return Success([]);
    }
    if !root[ANNOUNCE_LIST].value.List? {
      return Failure;
    }
    var tiers := root[ANNOUNCE_LIST].value.items;
    var result: seq<seq<Bytes>> := [];
    for i := 0 to |tiers|
      invariant AreTiers(tiers[..i]) && result == WithoutEmpty(Tiers(tiers[..i]))
    {
      if !tiers[i].value.List? {
        return Failure;
      }
      var tier := ExtractTier(tiers[i].value.items);
      if tier.Failure? {
        return Failure;
      }
      assert tiers[..i + 1] == tiers[..i] + [tiers[i]];
      assert Tiers(tiers[..i + 1]) == Tiers(tiers[..i]) + [tier.value];
      if |tier.value| > 0 {
        result := result + [tier.value];
      }
    }
    assert tiers[..|tiers|] == tiers;
    r := Success(result);
  }

  // ----- ExtractMeta -----

  predicate AllSha1Size(pieces: seq<Bytes>) {
    forall i :: 0 <= i < |pieces| ==> |pieces[i]| == SHA1_SIZE
  }

  function Concatenated(pieces: seq<Bytes>): Bytes {
    if pieces == [] then [] else Concatenated(pieces[..|pieces| - 1]) + pieces[|pieces| - 1]
  }

  lemma {:induction false} ConcatenatedLength(pieces: seq<Bytes>)
    requires AllSha1Size(pieces)
    ensures |Concatenated(pieces)| == |pieces| * SHA1_SIZE
  {
    if pieces != [] {
      ConcatenatedLength(pieces[..|pieces| - 1]);
    }
  }

  /** The hashes can be read off their concatenation in only one way. */
  lemma {:induction false} OnlyOneCut(a: seq<Bytes>, b: seq<Bytes>)
    requires AllSha1Size(a) && AllSha1Size(b) && Concatenated(a) == Concatenated(b)
    ensures a == b
  {
    ConcatenatedLength(a);
    ConcatenatedLength(b);
    if a != [] {
      var n := |a| - 1;
      ConcatenatedLength(a[..n]);
      ConcatenatedLength(b[..n]);
      var text := Concatenated(a);
      assert text[..n * SHA1_SIZE] == Concatenated(a[..n]) == Concatenated(b[..n]);
      assert text[n * SHA1_SIZE..] == a[n] == b[n];
      OnlyOneCut(a[..n], b[..n]);
      assert a == a[..n] + [a[n]] && b == b[..n] + [b[n]];
    }
  }

  method CutPieces(pieceBytes: Bytes) returns (pieces: seq<Bytes>)
    requires |pieceBytes| % SHA1_SIZE == 0
    ensures AllSha1Size(pieces) && Concatenated(pieces) == pieceBytes && |pieces| == |pieceBytes| / SHA1_SIZE
  {
    var count := |pieceBytes| / SHA1_SIZE;
    pieces := [];
    for i := 0 to count
      invariant |pieces| == i && AllSha1Size(pieces) && Concatenated(pieces) == pieceBytes[..i * SHA1_SIZE]
    {
      var next := pieceBytes[i * SHA1_SIZE..(i + 1) * SHA1_SIZE];
      assert (pieces + [next])[..i] == pieces;
      assert pieceBytes[..(i + 1) * SHA1_SIZE] == pieceBytes[..i * SHA1_SIZE] + next;
      pieces := pieces + [next];
    }
    assert pieceBytes[..count * SHA1_SIZE] == pieceBytes;
  }

  predicate HasLength(info: map<Bytes, Node>, meta: TorrentMeta, platform: Platform) {
    if FILES in info then
      && meta.multiFile && LENGTH !in info
      && DescribesFiles(info[FILES], meta.files, platform) && AcceptableFiles(meta.files, platform)
      && meta.length == Storage.TotalLength(meta.files)
    else
      !meta.multiFile && meta.files == [] && HasInt(info, LENGTH, meta.length) && meta.length >= 0
  }

  predicate IsInfo(info: map<Bytes, Node>, meta: TorrentMeta, platform: Platform) {
    && HasString(info, NAME, meta.name) && platform.valid(meta.name)
    && HasInt(info, PIECE_LENGTH, meta.pieceLength) && 0 < meta.pieceLength <= MAX_PIECE_LENGTH
    && AllSha1Size(meta.pieces) && HasString(info, PIECES, Concatenated(meta.pieces))
    && HasLength(info, meta, platform)
    && meta.length >= 0 && |meta.pieces| == PieceCount(meta.length, meta.pieceLength)
  }

  /** Everything the torrent says about its content, and the conditions for accepting it. */
  predicate IsMeta(root: Node, rawData: Bytes, meta: TorrentMeta, platform: Platform) {
    root.value.Dict?
    && var dict := AsMap(root.value.members);
       && NamesTracker(dict, meta)
       && INFO in dict && dict[INFO].value.Dict?
       && IsInfo(AsMap(dict[INFO].value.members), meta, platform)
       && ExtractInfoHash(root, rawData, platform.sha1) == Success(meta.infoHash)
  }

  lemma SameLength(info: map<Bytes, Node>, a: TorrentMeta, b: TorrentMeta, platform: Platform)
    requires HasLength(info, a, platform) && HasLength(info, b, platform)
    ensures a.length == b.length && a.files == b.files && a.multiFile == b.multiFile
  {
    if FILES in info {
      var items := info[FILES].value.items;
      assert items[..|items|] == items && b.files[..|items|] == b.files;
      OnlyOneFileList(items, |items|, a.files, b.files, platform);
    }
  }

  /** At most one description fits, so accepting is deterministic. */
  lemma OnlyOneMeta(root: Node, rawData: Bytes, a: TorrentMeta, b: TorrentMeta, platform: Platform)
    requires IsMeta(root, rawData, a, platform) && IsMeta(root, rawData, b, platform)
    ensures a == b
  {
    var info := AsMap(AsMap(root.value.members)[INFO].value.members);
    OnlyOneCut(a.pieces, b.pieces);
    SameLength(info, a, b, platform);
  }

  method ExtractLength(info: map<Bytes, Node>, platform: Platform) returns (r: Result<(seq<FileInfo>, int, bool)>)
    requires platform.Sound()
    ensures r.Success? ==> r.value.1 >= 0 && forall meta: TorrentMeta ::
      meta.files == r.value.0 && meta.length == r.value.1 && meta.multiFile == r.value.2 ==>
        HasLength(info, meta, platform)
    ensures r.Failure? ==> forall meta :: !HasLength(info, meta, platform)
  {
    if FILES in info {
      if LENGTH in info {
        return Failure;
      }
      var files := ExtractFiles(info[FILES], platform);
      if files.Failure? {
        return Failure;
      }
      return Success((files.value.0, files.value.1, true));
    }
    if LENGTH !in info || !info[LENGTH].value.Int? || info[LENGTH].value.n < 0 {
      return Failure;
    }
    r := Success(([], info[LENGTH].value.n, false));
  }

  /** Everything but the fields that do not come from the info dictionary. */
  method ExtractInfo(info: map<Bytes, Node>, platform: Platform) returns (r: Result<TorrentMeta>)
    requires platform.Sound()
    ensures r.Success? ==> IsInfo(info, r.value, platform)
    ensures r.Failure? ==> forall meta :: !IsInfo(info, meta, platform)
  {
    if NAME !in info || !info[NAME].value.Str? || !platform.valid(info[NAME].value.bytes) {
      return Failure;
    }
    if PIECE_LENGTH !in info || !info[PIECE_LENGTH].value.Int? {
      return Failure;
    }
    var pieceLength := info[PIECE_LENGTH].value.n;
    if pieceLength <= 0 || pieceLength > MAX_PIECE_LENGTH {
      return Failure;
    }
    if PIECES !in info || !info[PIECES].value.Str? {
      return Failure;
    }
    var pieceBytes := info[PIECES].value.bytes;
    forall meta: TorrentMeta | IsInfo(info, meta, platform) ensures |pieceBytes| == |meta.pieces| * SHA1_SIZE {
      ConcatenatedLength(meta.pieces);
    }
    if |pieceBytes| % SHA1_SIZE != 0 {
      return Failure;
    }
    var lengths := ExtractLength(info, platform);
    if lengths.Failure? {
      return Failure;
    }
    var (files, length, multiFile) := lengths.value;
    var pieces := CutPieces(pieceBytes);
    var meta := TorrentMeta([], [], info[NAME].value.bytes, length, pieceLength, pieces, [], files, multiFile);
    assert HasLength(info, meta, platform);
    if |pieceBytes| / SHA1_SIZE != PieceCount(length, pieceLength) {
      forall other | IsInfo(info, other, platform) ensures false {
        SameLength(info, meta, other, platform);
      }
      return Failure;
    }
    r := Success(meta);
  }

  /** Accepts a parsed torrent exactly when some description fits it, and returns that one. */
  method ExtractMeta(root: Node, rawData: Bytes, platform: Platform) returns (r: Result<TorrentMeta>)
    requires platform.Sound()
    ensures r.Success? ==> IsMeta(root, rawData, r.value, platform)
    ensures r.Failure? ==> forall meta :: !IsMeta(root, rawData, meta, platform)
  {
    if !root.value.Dict? {
      return Failure;
    }
    var rootDict := AsMap(root.value.members);
    var announce: Bytes := [];
    if ANNOUNCE in rootDict {
      if !rootDict[ANNOUNCE].value.Str? {
        return Failure;
      }
      announce := rootDict[ANNOUNCE].value.bytes;
    }
    var announceList := ExtractAnnounceList(rootDict);
    if announceList.Failure? {
      return Failure;
    }
    if announce == [] && |announceList.value| == 0 {
      return Failure;
    }
    if INFO !in rootDict || !rootDict[INFO].value.Dict? {
      return Failure;
    }
    var meta := ExtractInfo(AsMap(rootDict[INFO].value.members), platform);
    if meta.Failure? {
      return Failure;
    }
    var infoHash := ExtractInfoHash(root, rawData, platform.sha1);
    if infoHash.Failure? {
      return Failure;
    }
    r := Success(meta.value.(announce := announce, announceList := announceList.value, infoHash := infoHash.value));
  }
}
