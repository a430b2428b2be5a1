/** From the bytes of a .torrent file to a finished download: what acceptance by the
    parser and the metainfo checks gives every layer below (main.go, run). */
module EndToEnd {
  import opened ByteStrings
  import opened Bencode
  import opened BencodeMeaning
  import opened BencodeProofs
  import opened Metainfo
  import opened Pieces
  import opened Storage
  import BencodeParser
  import Bitfields
  import DownloadLoop
  import Manager
  import Program
  import Protocol
  import Scheduler
  import Swarm
  import SwarmProofs
  import Wire
  import Workers

  /** The parser's default limits, which the program uses. */
  const DEFAULTS: Limits := RawLimits(DEFAULT_MAX_STRING_LENGTH, DEFAULT_MAX_DEPTH)

  /** Both accepted: the bytes as a value, and the value as a torrent. */
  predicate Accepted(rawData: Bytes, meta: TorrentMeta, platform: Platform) {
    Parse(rawData, DEFAULTS).Success? && IsMeta(Parse(rawData, DEFAULTS).value, rawData, meta, platform)
  }

  /** The files of the content in order; a single-file torrent is one file named after it. */
  function ContentFiles(meta: TorrentMeta): seq<Storage.FileInfo> {
    if meta.multiFile then meta.files else [Storage.FileInfo([meta.name], meta.length)]
  }

  // ----- Limits carry over to the values inside -----

  lemma {:induction false} MemberIsAccepted(members: seq<Member>, depth: nat, limits: Limits, k: nat)
    requires AcceptsMembers(members, depth, limits) && k < |members|
    ensures Accepts(members[k].node, depth, limits)
  {
    if k > 0 {
      MemberIsAccepted(members[1..], depth, limits, k - 1);
    }
  }

  lemma MapValueIsAccepted(members: seq<Member>, depth: nat, limits: Limits, key: Bytes)
    requires AcceptsMembers(members, depth, limits) && key in AsMap(members)
    ensures Accepts(AsMap(members)[key], depth, limits)
  {
    MapValueIsAMember(members, key);
    var k :| 0 <= k < |members| && members[k].key == key && members[k].node == AsMap(members)[key];
    MemberIsAccepted(members, depth, limits, k);
  }

  /** Accepted torrents have 64-bit lengths and at most 64 MiB of hashes. */
  lemma AcceptedIsBounded(rawData: Bytes, meta: TorrentMeta, platform: Platform)
    requires Accepted(rawData, meta, platform)
    ensures 0 <= meta.length <= MAX_INT64 && |meta.pieces| * SHA1_SIZE <= DEFAULT_MAX_STRING_LENGTH
  {
    var root := Parse(rawData, DEFAULTS).value;
    ParseIsInverse(rawData, root, DEFAULTS);
    var members := root.value.members;
    MapValueIsAccepted(members, 1, DEFAULTS, INFO);
    var infoMembers := AsMap(members)[INFO].value.members;
    MapValueIsAccepted(infoMembers, 2, DEFAULTS, PIECES);
    ConcatenatedLength(meta.pieces);
    if !meta.multiFile {
      MapValueIsAccepted(infoMembers, 2, DEFAULTS, LENGTH);
    }
  }

  // ----- What the layers below need -----

  lemma ContentFilesAreSound(rawData: Bytes, meta: TorrentMeta, platform: Platform)
    requires Accepted(rawData, meta, platform)
    ensures SoundFiles(ContentFiles(meta), meta.length)
  {
    AcceptedIsBounded(rawData, meta, platform);
    var info := AsMap(AsMap(Parse(rawData, DEFAULTS).value.value.members)[INFO].value.members);
    if meta.multiFile {
      var items := info[FILES].value.items;
      AreFilesHaveValidPaths(items, meta.files, platform);
      AcceptedPathsAreApart(meta.files, platform);
    }
  }

  function ConfigOf(meta: TorrentMeta, sha1: Bytes -> Bytes): Protocol.Config
    requires NonNegative(ContentFiles(meta)) && meta.length >= 0 && meta.pieceLength >= 0
  {
    Protocol.Config(SpansOf(ContentFiles(meta), 0), meta.length, meta.pieceLength, meta.pieces, sha1)
  }

  /** Every accepted torrent meets all the assumptions of the storage layout and of
      the piece protocol, whatever was on the disk; no offset or length exceeds int64. */
  lemma AcceptedIsRunnable(rawData: Bytes, meta: TorrentMeta, platform: Platform, disk: Disk)
    requires Accepted(rawData, meta, platform)
    ensures NonNegative(ContentFiles(meta)) && meta.length >= 0 && meta.pieceLength >= 0
    ensures var c := ConfigOf(meta, platform.sha1);
      && c.Valid() && WellLaid(c.spans, c.total, Sized(disk, ContentFiles(meta)))
      && forall i: nat :: i < |meta.pieces| ==>
           0 < c.Size(i) <= c.pieceLength && c.Offset(i) + c.Size(i) <= meta.length <= MAX_INT64
  {
    var files := ContentFiles(meta);
    AcceptedIsBounded(rawData, meta, platform);
    ContentFilesAreSound(rawData, meta, platform);
    OpenedAll(files, disk);
    forall i: nat | i < |meta.pieces|
      ensures var c := ConfigOf(meta, platform.sha1);
        0 < c.Size(i) <= c.pieceLength && c.Offset(i) + c.Size(i) <= meta.length {
      PieceExtent(meta.length, meta.pieceLength, i);
    }
  }

  /** For every accepted torrent, no field of a request or have message for a block
      of it is truncated, and every bitfield and every block reply fits the default
      message limit. */
  lemma WireIsWideEnough(rawData: Bytes, meta: TorrentMeta, platform: Platform, index: nat, begin: nat, length: nat,
                         bits: seq<bool>, block: Bytes)
    requires Accepted(rawData, meta, platform) && index < |meta.pieces|
    requires begin + length <= LengthOf(meta.length, meta.pieceLength, |meta.pieces|, index)
    requires |bits| == |meta.pieces| && |block| <= Workers.BLOCK_SIZE
    ensures var request := Wire.NewRequest(index, begin, length).payload;
      && Wire.GetUint32(request[..4]) == index && Wire.GetUint32(request[4..8]) == begin
      && Wire.GetUint32(request[8..]) == length
    ensures Wire.ParseHave(Wire.NewHave(index).payload) == Success(index)
    ensures Wire.Fits(Wire.Message(Wire.MSG_BITFIELD, Bitfields.Pack(bits)), Wire.DEFAULT_MAX_MESSAGE_SIZE)
    ensures Wire.Fits(Wire.Message(Wire.MSG_PIECE, Wire.PutUint32(index) + Wire.PutUint32(begin) + block),
                      Wire.DEFAULT_MAX_MESSAGE_SIZE)
  {
    AcceptedIsBounded(rawData, meta, platform);
    PieceExtent(meta.length, meta.pieceLength, index);
    Wire.RequestFieldsSurvive(index, begin, length);
    Wire.HaveRoundTrip(index);
  }

  // ----- The whole download -----

  /** Piece i of the files' concatenation in list order. */
  function PieceOnDisk(meta: TorrentMeta, disk: Disk, i: nat): Bytes
    requires NonNegative(ContentFiles(meta)) && meta.pieceLength >= 0
  {
    var spans := SpansOf(ContentFiles(meta), 0);
    if !Laid(spans, disk) then []
    else
      var content := Flat(spans, disk);
      var from := i * meta.pieceLength;
      if from <= |content| then content[from..Min(from + meta.pieceLength, |content|)] else []
  }

  /** The content on the disk consists of pieces with exactly the hashes the torrent lists. */
  predicate IsTheTorrent(meta: TorrentMeta, platform: Platform, disk: Disk)
    requires NonNegative(ContentFiles(meta)) && meta.pieceLength >= 0
  {
    forall i: nat :: i < |meta.pieces| ==> platform.sha1(PieceOnDisk(meta, disk, i)) == meta.pieces[i]
  }

  lemma SliceIsPieceOnDisk(meta: TorrentMeta, sha1: Bytes -> Bytes, disk: Disk, i: nat)
    requires NonNegative(ContentFiles(meta)) && meta.length >= 0 && meta.pieceLength >= 0
    requires var c := ConfigOf(meta, sha1); c.Valid() && Laid(c.spans, disk) && i < |c.hashes|
    ensures Protocol.Slice(ConfigOf(meta, sha1), disk, i) == PieceOnDisk(meta, disk, i)
  {
    var c := ConfigOf(meta, sha1);
    FlatLength(c.spans, 0, c.total, disk);
    PieceExtent(c.total, c.pieceLength, i);
    if i + 1 < |c.hashes| {
      PieceExtent(c.total, c.pieceLength, i + 1);
    }
  }

  /** From any accepted torrent and any disk: open, restore, then let any number of
      callers of the manager interleave with any I/O failures. If a Finalize ever
      succeeds, the files' concatenation consists of pieces with exactly the hashes
      the torrent lists, and stays so. */
  lemma FinalizedDownloadIsTheTorrent(rawData: Bytes, meta: TorrentMeta, platform: Platform, disk: Disk,
                                      steps: seq<Protocol.Step>, more: seq<Protocol.Step>)
    requires Accepted(rawData, meta, platform)
    ensures NonNegative(ContentFiles(meta)) && meta.length >= 0 && meta.pieceLength >= 0
    ensures var c, initial := ConfigOf(meta, platform.sha1), Sized(disk, ContentFiles(meta));
      && c.Valid() && Laid(c.spans, initial) && Protocol.Inv(c, Protocol.Start(c, initial))
      && var s := Protocol.Run(c, Protocol.Start(c, initial), steps);
         s.completed ==>
           && Protocol.Run(c, s, more).disk == s.disk
           && IsTheTorrent(meta, platform, s.disk)
  {
    AcceptedIsRunnable(rawData, meta, platform, disk);
    var c, initial := ConfigOf(meta, platform.sha1), Sized(disk, ContentFiles(meta));
    Protocol.StartSatisfiesInv(c, initial);
    var s := Protocol.Run(c, Protocol.Start(c, initial), steps);
    if s.completed {
      Protocol.FinalizeMeansVerified(c, Protocol.Start(c, initial), steps, more);
      VerifiedIsTheTorrent(meta, platform, s.disk);
    }
  }

  /** The same for any number of workers following the per-peer loop, with any peers
      behind them: when the storage has been finalized the content is the torrent's,
      and no worker has a piece reserved. */
  lemma SwarmDownloadIsTheTorrent(rawData: Bytes, meta: TorrentMeta, platform: Platform, disk: Disk,
                                  events: seq<Swarm.Event>)
    requires Accepted(rawData, meta, platform)
    ensures NonNegative(ContentFiles(meta)) && meta.length >= 0 && meta.pieceLength >= 0
    ensures var c, initial := ConfigOf(meta, platform.sha1), Sized(disk, ContentFiles(meta));
      && c.Valid() && Laid(c.spans, initial)
      && var sys := Swarm.System(Protocol.Start(c, initial), map[]);
         && Swarm.Inv(c, sys)
         && var now := SwarmProofs.Run(c, sys, events);
            now.core.completed ==>
              && (forall id, i :: !SwarmProofs.Reserves(now, id, i))
              && IsTheTorrent(meta, platform, now.core.disk)
  {
    AcceptedIsRunnable(rawData, meta, platform, disk);
    var c, initial := ConfigOf(meta, platform.sha1), Sized(disk, ContentFiles(meta));
    SwarmProofs.StartSatisfiesInv(c, initial);
    var sys := Swarm.System(Protocol.Start(c, initial), map[]);
    var now := SwarmProofs.Run(c, sys, events);
    var steps := SwarmProofs.CoreSteps(c, sys, events);
    SwarmProofs.SwarmRefinesProtocol(c, sys, events);
    FinalizedDownloadIsTheTorrent(rawData, meta, platform, disk, steps, []);
    if now.core.completed {
      forall id, i ensures !SwarmProofs.Reserves(now, id, i) {
        NothingReservedWhenComplete(c, now, id, i);
      }
    }
  }

  /** downloadTorrent and its workers together, from the restored disk on, for any first
      announce, any events and anything the workers and their peers do: whenever it has
      returned nil, the content on the disk is the torrent's, and the Finalize that
      follows succeeds unless the storage has been closed or refuses. */
  lemma NilReturnIsTheTorrent(rawData: Bytes, meta: TorrentMeta, platform: Platform, disk: Disk,
                              first: Result<seq<Scheduler.Key>>, plan: Program.Plan, n: nat, renamed: bool)
    requires Accepted(rawData, meta, platform) && plan.maxWorkers > 0
    ensures NonNegative(ContentFiles(meta)) && meta.length >= 0 && meta.pieceLength >= 0
    ensures var c, initial := ConfigOf(meta, platform.sha1), Sized(disk, ContentFiles(meta));
      && c.Valid() && Laid(c.spans, initial)
      && var start := Program.Start(c, initial, first, plan.maxWorkers);
         && Program.Inv(c, start, plan.maxWorkers)
         && var j := Program.Play(c, plan, start, n);
            && j.proc == DownloadLoop.Play(Program.LoopSetting(c, plan, start), start.proc, 0, n)
            && (j.proc.control == DownloadLoop.Ended(DownloadLoop.Done) ==>
                  && IsTheTorrent(meta, platform, j.sys.core.disk)
                  && var t := Protocol.Run(c, j.sys.core, Program.FinalizeSteps(renamed));
                     && t.disk == j.sys.core.disk
                     && (t.completed <==> j.sys.core.completed || (!j.sys.core.closed && renamed)))
  {
    AcceptedIsRunnable(rawData, meta, platform, disk);
    var c, initial := ConfigOf(meta, platform.sha1), Sized(disk, ContentFiles(meta));
    Program.ReturnMeans(c, initial, first, plan, n);
    var start := Program.Start(c, initial, first, plan.maxWorkers);
    Program.PlayIsTheLoop(c, plan, start, n);
    var j := Program.Play(c, plan, start, n);
    if j.proc.control == DownloadLoop.Ended(DownloadLoop.Done) {
      Program.NilReturnCanFinalize(c, j, plan.maxWorkers, renamed);
      VerifiedIsTheTorrent(meta, platform, j.sys.core.disk);
    }
  }

  lemma VerifiedIsTheTorrent(meta: TorrentMeta, platform: Platform, disk: Disk)
    requires NonNegative(ContentFiles(meta)) && meta.length >= 0 && meta.pieceLength >= 0
    requires var c := ConfigOf(meta, platform.sha1);
      && c.Valid() && Laid(c.spans, disk) && forall i :: 0 <= i < |c.hashes| ==> Protocol.Verified(c, disk, i)
    ensures IsTheTorrent(meta, platform, disk)
  {
    forall i: nat | i < |meta.pieces| ensures platform.sha1(PieceOnDisk(meta, disk, i)) == meta.pieces[i] {
      assert Protocol.Verified(ConfigOf(meta, platform.sha1), disk, i);
      SliceIsPieceOnDisk(meta, platform.sha1, disk, i);
    }
  }

  lemma NothingReservedWhenComplete(c: Protocol.Config, now: Swarm.System, id: nat, i: nat)
    requires Swarm.Inv(c, now) && now.core.completed
    ensures !SwarmProofs.Reserves(now, id, i)
  {
    Protocol.CompleteContentIsFixed(c, now.core, []);
    assert Swarm.Holds(now.peers, id, i) ==> Protocol.IsState(now.core.pieces, i, Downloading);
  }

  // ----- The start of the program -----

  predicate AllOpen(files: seq<Storage.FileInfo>, openable: nat -> bool) {
    forall i :: 0 <= i < |files| ==> openable(i)
  }

  /** What the layout needs of the files, and every accepted torrent has (ContentFilesAreSound). */
  predicate SoundFiles(files: seq<Storage.FileInfo>, length: int) {
    && files != [] && NonNegative(files) && DistinctFiles(files) && TotalLength(files) == length <= MAX_INT64
    && forall i :: 0 <= i < |files| ==> files[i].path != []
  }

  lemma OneFile(path: Path, length: nat, disk: Disk)
    ensures var files := [Storage.FileInfo(path, length)];
      && SpansOf(files, 0) == [Span(path, 0, length)]
      && Sized(disk, files) == disk[path := Resize(Existing(disk, path), length)]
  {
    var files := [Storage.FileInfo(path, length)];
    assert files[..0] == [] && files[1..] == [];
  }

  lemma OpenableIsAllOpen(files: seq<Storage.FileInfo>, length: int, openable: nat -> bool, opens: seq<bool>)
    requires SoundFiles(files, length) && |opens| == |files| && forall i :: 0 <= i < |files| ==> opens[i] == openable(i)
    ensures Openable(files, opens, |files|) <==> AllOpen(files, openable)
  {
  }

  /** Opens the partial files of a torrent. openable says which files the system lets us open. */
  method NewStorage(meta: TorrentMeta, disk: Disk, openable: nat -> bool) returns (store: Store, ok: bool)
    requires SoundFiles(ContentFiles(meta), meta.length)
    ensures fresh(store) && (ok <==> AllOpen(ContentFiles(meta), openable))
    ensures ok ==> store.Valid() && !store.closed && store.total == meta.length
    ensures ok ==> store.files == SpansOf(ContentFiles(meta), 0) && store.disk == Sized(disk, ContentFiles(meta))
  {
    store := new Store(disk);
    SpansOfTile(ContentFiles(meta), 0);
    if meta.multiFile {
      var opens := seq(|meta.files|, i requires 0 <= i < |meta.files| => openable(i));
      OpenableIsAllOpen(meta.files, meta.length, openable, opens);
      ok := store.OpenMultiFile(meta.files, meta.length, opens);
    } else {
      OneFile([meta.name], meta.length, disk);
      ok := store.OpenSingleFile([meta.name], meta.length, openable(0));
    }
  }

  /** What the system does for file k in the read of piece i, as one sequence per piece. */
  function Outcomes(io: (nat, nat) -> IoOutcome, pieces: nat, files: nat): (r: seq<seq<IoOutcome>>)
    ensures |r| == pieces && forall i :: 0 <= i < pieces ==> |r[i]| == files
  {
    seq(pieces, i requires 0 <= i < pieces => seq(files, k requires 0 <= k < files => io(i, k)))
  }

  /** The system lets every file be opened and serves every read of the restore. */
  ghost predicate SystemServes(meta: TorrentMeta, sha1: Bytes -> Bytes, openable: nat -> bool,
                               io: (nat, nat) -> IoOutcome)
    requires NonNegative(ContentFiles(meta)) && meta.length >= 0 && meta.pieceLength >= 0
  {
    && AllOpen(ContentFiles(meta), openable)
    && Manager.ReadsServed(ConfigOf(meta, sha1), false, Outcomes(io, |meta.pieces|, |ContentFiles(meta)|),
                           |meta.pieces|)
  }

  /** The manager of a torrent right after restoring: the starting state of the protocol. */
  ghost predicate Prepared(manager: Manager.PieceManager, meta: TorrentMeta, sha1: Bytes -> Bytes, disk: Disk)
    requires NonNegative(ContentFiles(meta)) && meta.length >= 0 && meta.pieceLength >= 0
    reads manager, manager.storage, manager.updates
  {
    var c := ConfigOf(meta, sha1);
    && manager.Valid() && manager.Config() == c && !manager.storage.closed
    && manager.storage.disk == Sized(disk, ContentFiles(meta))
    && c.Valid() && Laid(c.spans, manager.storage.disk)
    && Manager.States(manager.pieces) == Protocol.Start(c, manager.storage.disk).pieces
  }

  /** The facts about a torrent that opening and restoring it rely on. */
  predicate Runnable(meta: TorrentMeta) {
    && SoundFiles(ContentFiles(meta), meta.length) && meta.length >= 0
    && 0 < meta.pieceLength <= MAX_INT64 && |meta.pieces| == PieceCount(meta.length, meta.pieceLength)
  }

  lemma RunnableConfig(meta: TorrentMeta, sha1: Bytes -> Bytes, disk: Disk)
    requires Runnable(meta)
    ensures var c := ConfigOf(meta, sha1);
      c.Valid() && Laid(c.spans, Sized(disk, ContentFiles(meta))) && |c.spans| == |ContentFiles(meta)|
  {
    SpansOfTile(ContentFiles(meta), 0);
    SizedIsLaid(disk, ContentFiles(meta));
  }

  method OpenAndRestore(meta: TorrentMeta, sha1: Bytes -> Bytes, disk: Disk, openable: nat -> bool,
                        io: (nat, nat) -> IoOutcome)
    returns (manager: Manager.PieceManager?)
    requires Runnable(meta)
    ensures manager != null <==> SystemServes(meta, sha1, openable, io)
    ensures manager != null ==> fresh(manager) && Prepared(manager, meta, sha1, disk)
  {
    RunnableConfig(meta, sha1, disk);
    manager := null;
    var store, ok := NewStorage(meta, disk, openable);
    if !ok {
      return;
    }
    var created := new Manager.PieceManager(meta.pieces, meta.pieceLength, store, sha1);
    assert created.Config() == ConfigOf(meta, sha1);
    var restored := created.RestoreExisting(Outcomes(io, |meta.pieces|, |store.files|));
    if !restored {
      return;
    }
    manager := created;
  }

  /** The settings run checks first. */
  datatype AppConfig = AppConfig(outputDirectory: Bytes, maxWorkers: int, noProgressLimit: int)

  predicate Usable(configuration: AppConfig) {
    configuration.outputDirectory != [] && configuration.maxWorkers > 0 && configuration.noProgressLimit > 0
  }

  /** main.run up to the start of the workers: read, parse, extract, open, restore. It
      gives up exactly when a setting is unusable, the file cannot be read, no description
      fits the torrent or the system fails; otherwise the manager is in the starting
      state of the protocol for that torrent. */
  method Prepare(configuration: AppConfig, file: Result<Bytes>, platform: Platform, disk: Disk,
                 openable: nat -> bool, io: (nat, nat) -> IoOutcome)
    returns (manager: Manager.PieceManager?, ghost accepted: Option<TorrentMeta>)
    requires platform.Sound()
    ensures accepted.None? ==>
      && manager == null
      && (!Usable(configuration) || file.Failure? || forall meta :: !Accepted(file.value, meta, platform))
    ensures accepted.Some? ==>
      var meta := accepted.value;
      && Usable(configuration) && file.Success? && Accepted(file.value, meta, platform) && Runnable(meta)
      && (manager != null <==> SystemServes(meta, platform.sha1, openable, io))
      && (manager != null ==> fresh(manager) && Prepared(manager, meta, platform.sha1, disk))
  {
    accepted, manager := None, null;
    if |configuration.outputDirectory| == 0 {
      return;
    }
    if configuration.maxWorkers <= 0 {
      return;
    }
    if configuration.noProgressLimit <= 0 {
      return;
    }
    if file.Failure? {
      return;
    }
    var parser := new BencodeParser.Parser(file.value);
    var root := parser.Parse();
    if root.Failure? {
      return;
    }
    var meta := ExtractMeta(root.value, file.value, platform);
    if meta.Failure? {
      return;
    }
    accepted := Some(meta.value);
    ContentFilesAreSound(file.value, meta.value, platform);
    manager := OpenAndRestore(meta.value, platform.sha1, disk, openable, io);
  }
}
