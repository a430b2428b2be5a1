# Verified model of the BitTorrent downloader

A Dafny model of a small BitTorrent v1 client: from the bytes of a `.torrent` file to a
finished set of files. It models the code as it is, in layers that are proved against
each other, and ends in one statement about the whole program: whatever the disk held,
whatever peers, trackers and the file system do, and however workers interleave, a
download that is finalized consists of exactly the pieces whose hashes the torrent lists.

## Layers

| file | models |
|---|---|
| `ByteStrings.dfy` | bytes, the byte-wise string order, 64-bit wrap-around, overlaying a byte string |
| `Storage.dfy` | `internal/storage/storage.go`: the flat content over many files; class `Store` |
| `Pieces.dfy` | the partition of the content into pieces and the arithmetic on it |
| `Protocol.dfy` | the piece ownership protocol as a transition system: each lock-protected section of the manager and each single-file write is one step, for any number of callers with any arguments and any I/O outcome |
| `Manager.dfy` | `internal/download/manager.go`: class `PieceManager`, every method specified by the protocol's critical sections |
| `Workers.dfy`, `Swarm.dfy`, `SwarmProofs.dfy` | the per-peer loop as local steps; any number of workers over one protocol state |
| `PeerLoop.dfy`, `PeerWorker.dfy` | `internal/download/worker.go`: one turn of `RunClient` and the whole loop as functions of everything the worker sees, and class `Client` with the local variables, which performs them |
| `Refinement.dfy`, `WorkerRefinement.dfy` | the objects against the transition systems: one undisturbed `CompletePiece` is a run of the protocol, and all of `RunClient` is a run of the swarm |
| `Scheduler.dfy`, `DownloadLoop.dfy`, `Download.dfy` | `downloadTorrent` in `main.go`: the state machine of peers and workers, the control flow as a function of the events and of what happens elsewhere, and class `Downloader` that performs it |
| `Program.dfy` | `downloadTorrent` beside the swarm of the workers it starts, which make its world |
| `Bencode.dfy`, `BencodeProofs.dfy`, `BencodeMeaning.dfy`, `BencodeParser.dfy` | `internal/bencode/parser.go`: encoder, parser as a function, their inverse relation and its consequences; class `Parser` with the moving index |
| `Paths.dfy`, `Metainfo.dfy` | `internal/torrent/metadata.go`: the sorted-neighbour path check, file lists, metainfo |
| `Wire.dfy`, `Bitfields.dfy` | `internal/peer/message.go` and `bitfield.go` |
| `EndToEnd.dfy` | `run` in `main.go`: what acceptance gives the layers below, and the whole download |

Concurrent calls of `CompletePiece` commute step by step (`Protocol.InterleavingsAgree`), so the
order in which they are scheduled, and their files served, does not matter.

SHA-1, case folding and component validation are arbitrary functions passed as
parameters. What the operating system, the network and the clock do is a parameter too:
every statement is for all of their behaviours. For `downloadTorrent` the world is a function
of time: what workers and manager have done each time before it looks at something shared.
A timer is an event that may come at any moment while armed. Bencode values keep a dictionary's members in input order together with
their byte spans; `AsMap` is the map the program builds from them.

## Findings

- The parser says that dictionary keys must be strictly sorted, but `previous` stays nil
  after an empty first key (`internal/bencode/parser.go:202`, `:218-221`), so an empty key may be
  repeated at the start of a dictionary and the last value wins
  (`BencodeMeaning.RepeatedEmptyKeyIsAccepted`). The exact accepted order is
  `BencodeMeaning.KeyOrderIsExact`; the keys are strictly sorted if and only if no second empty
  key follows the first (`BencodeMeaning.StrictUnlessEmptyKeyRepeats`). Inputs without such a
  repeat are determined by their value (`BencodeMeaning.SameMeaningSameInput`).
- A worker fetches the update channel after a failed reservation, in a separate critical
  section, so a release in between does not wake it (`Protocol.ReleaseBeforeFetchIsMissed`). What
  does hold is that a fetched channel is closed exactly if a piece has become Missing or
  Complete since the fetch (`Protocol.ChannelClosesOnChange`).
- `Serialize` wraps its length field: it yields the frame of the message exactly when the
  payload has fewer than 2^32 - 1 bytes (`Wire.SerializeIsFaithful`). No message of an
  accepted torrent comes near that (`EndToEnd.WireIsWideEnough`).

## Model

| member | source | states |
|---|---|---|
| EndToEnd.SwarmDownloadIsTheTorrent | internal/download/manager.go:204-209 | For every accepted torrent, any initial disk and any events of any number of workers: once the storage has been finalized, every piece of the files' concatenation hashes to what the torrent lists, and no worker has a piece reserved. |
| EndToEnd.FinalizedDownloadIsTheTorrent | internal/download/manager.go:89-145 | The same for arbitrary callers of the manager, stale indices and wrong data included; and no later run changes a byte. |
| EndToEnd.NilReturnIsTheTorrent | main.go:143-286 | downloadTorrent and its workers from any accepted torrent and any disk, for any first announce, events and behaviour of the workers: whenever its control has returned nil the content on disk is the torrent's, and the Finalize that follows fails only if the storage is closed or refuses. |
| EndToEnd.Prepare | main.go:64-109 | Check the settings, read, parse, extract, open, restore: gives up exactly when a setting is unusable, the file cannot be read, no description fits the input, a content file cannot be opened or a read fails; otherwise the manager is in the protocol's starting state for that torrent. |
| EndToEnd.AcceptedIsRunnable | internal/torrent/metadata.go:59-156 | Every accepted torrent satisfies all assumptions of the storage layout and the protocol; pieces are non-empty and every offset fits int64. |
| EndToEnd.WireIsWideEnough | internal/peer/message.go:74-88 | For every accepted torrent request and have fields are not truncated to uint32, and every bitfield and block reply fits the 4 MiB limit. |
| EndToEnd.AcceptedIsBounded | internal/bencode/parser.go:13-19 | Lengths of an accepted torrent are int64 and its hashes take at most 64 MiB, carried over from the parser's limits to values two dictionaries deep. |
| Protocol.StepKeepsInv | internal/download/manager.go:71-145 | Every critical section and every single-file write keeps the invariant: Verifying pieces and CompletePiece calls in bijection, calls past the hash check carry verified data whose written prefix is on disk, Complete pieces verify, channels closed once. |
| Protocol.CompleteIsForever | internal/download/manager.go:89-124 | In every run a Complete piece stays Complete, its bytes on disk never change again and hash to the expected value. |
| Protocol.WriteStaysInItsPiece | internal/storage/storage.go:227-259 | Writing one file for a piece, whatever the system does, extends exactly the written prefix of that piece. |
| Protocol.WriteSparesOtherPieces | internal/storage/storage.go:227-259 | It leaves the bytes of every other piece as they are. |
| Protocol.WriteStepsCommute | internal/storage/storage.go:215-225 | In every reachable state the next file visits of two different calls, with any I/O outcome of each and whether enabled or not, may be done in either order: pieces, calls and disk come out the same. |
| Protocol.CallStepsCommute | internal/download/manager.go:105-133 | In every reachable state any steps of two different calls in flight (check, opening, file visit, end of write, publishing, reset), enabled or not, may be done in either order: pieces, calls, disk and broadcast channel come out the same. |
| Protocol.InterleavingsAgree | internal/download/manager.go:105-133 | Any two interleavings of the remaining steps of any number of calls in flight that keep each call's own order lead to the same state, so concurrent calls have one outcome. |
| Protocol.DiskAfterIsLocal | internal/download/manager.go:105-117 | An undisturbed call that stores its piece leaves exactly the data in it, and whatever happens the bytes of every other piece are the old ones. |
| Protocol.FinalizeMeansVerified | internal/download/manager.go:204-209 | After any run in which a Finalize has succeeded: closed, no call in flight, all pieces Complete and verified, and no later run changes the content. |
| Protocol.CompleteContentIsFixed | internal/download/manager.go:147-156 | When all pieces are Complete no write is in flight and no step can change the disk. |
| Protocol.StartSatisfiesInv | internal/download/manager.go:50-68 | A manager restored from any disk, with exactly the verifying pieces Complete, satisfies the invariant. |
| Protocol.ChannelClosesOnChange | internal/download/manager.go:193-202 | Over any run the channel fetched at its start is closed exactly if some piece has become Missing or Complete since; the current one is open. |
| Protocol.StepClosesOnAnnounce | internal/download/manager.go:119-145 | A step replaces the open current channel exactly when it makes a piece Missing or Complete, so none is closed twice. |
| Protocol.ReleaseBeforeFetchIsMissed | internal/download/worker.go:125-142 | Whenever one piece is left for a bitfield: reserved by one worker, refused to a second, released, and only then the second's fetch: the piece is available, the fetched channel open. |
| Manager.PieceManager.constructor | internal/download/manager.go:23-45 | Pieces in order with the right length each (only the last may be short), all Missing, an open channel. |
| Manager.PieceManager.RestoreExisting | internal/download/manager.go:50-68 | On a fresh manager succeeds exactly when every piece can be read, and then exactly the pieces whose bytes verify are Complete. |
| Manager.PieceManager.NextPieceForPeer | internal/download/manager.go:71-85 | Reserves and returns the first Missing piece the peer has, or changes nothing. |
| Manager.PieceManager.CompletePiece | internal/download/manager.go:89-124 | Refuses unreserved pieces unchanged; otherwise Complete with the data written exactly when length and hash match and the storage serves the write, else Missing; nothing is written on a mismatch; waiters are woken exactly once if the piece was reserved, else not at all. |
| Manager.PieceManager.ResetAfterFailure | internal/download/manager.go:126-133 | Makes the piece Missing and wakes waiters unless the index is bad or the piece Complete. |
| Manager.PieceManager.MarkFailed | internal/download/manager.go:137-145 | Releases and announces a Downloading piece; every other call changes nothing. |
| Manager.PieceManager.IsComplete | internal/download/manager.go:147-156 | True exactly when all pieces are Complete. |
| Manager.PieceManager.CompletedBytes | internal/download/manager.go:170-180 | The total length of Complete pieces; at most the torrent's length, equal exactly when all are Complete. |
| Manager.PieceManager.Finalize | internal/download/manager.go:204-209 | Succeeds exactly when all pieces are Complete, the storage was open and the system served the completion; otherwise the storage is unchanged. |
| Refinement.UndisturbedCall | internal/download/manager.go:89-124 | The protocol run of one uninterrupted call, for any arguments, storage state and I/O, ends in exactly the state that the manager object's CompletePiece promises: piece states, disk, one broadcast. |
| Program.MoveKeepsInv | main.go:201-286 | Every step of downloadTorrent's control keeps: the scheduler's and the swarm's invariants; every worker that has not stopped belongs to a running goroutine; it has seen the torrent complete only if every piece is. |
| Program.WorkKeepsInv | internal/download/worker.go:141-261 | So does everything that happens elsewhere: any event of any worker, and any goroutine that sends its result. |
| Program.PlayIsTheLoop | main.go:231-286 | The control in a joint run is the run of DownloadLoop in the world that the workers make, where IsComplete answers with the states of the pieces. |
| Program.PlayIsASwarmRun | internal/download/worker.go:141-261 | The workers' part of a joint run is a run of the swarm. |
| Program.NobodyActive | main.go:223-229 | When nobody is active, as at every return of downloadTorrent, every worker has stopped, no write is in flight and no piece is reserved. |
| Program.NilReturnCanFinalize | main.go:112-118 | When the scheduler has seen the torrent complete all pieces verify on disk, and Finalize succeeds unless the storage has been closed or refuses; it changes no byte. |
| Program.Execute | main.go:112-116 | The downloader object in the world that its workers make: if it returns Done every piece on disk verifies; every return leaves no call in flight and no piece reserved. |
| Program.ProgramEnds | main.go:143-286 | It does return if every goroutine ends at some time. |
| Pieces.EveryByteHasOnePiece | internal/torrent/metadata.go:324-329 | The pieces partition the content: every byte is in exactly one. |
| Pieces.PieceExtent | internal/download/manager.go:25-31 | Each piece is non-empty, at most the standard length, and begins where the one before ends, up to the end of the content. |
| Pieces.LeftIsExact | main.go:155-162 | What is reported as left is between 0 and the length, and 0 exactly when every piece is Complete. |
| SwarmProofs.EventKeepsInv | internal/download/worker.go:97-261 | Every event of every worker keeps: Downloading pieces and workers' current pieces in bijection, every waiting worker well-formed. |
| SwarmProofs.SwarmRefinesProtocol | internal/download/worker.go:141-261 | What any run of any number of workers does to pieces and disk is a run of the protocol. |
| SwarmProofs.ReservationsAreOwned | internal/download/worker.go:125-139 | At every point of every run a piece is Downloading or Verifying exactly when some worker holds or completes it; that worker is unique and has no other piece. |
| SwarmProofs.StoppedWorkersHoldNothing | internal/download/worker.go:97-107 | A stopped worker reserves nothing; once all have stopped every piece is Missing or Complete. |
| SwarmProofs.WaitingWorkers | internal/download/worker.go:109-124 | Deadline armed exactly when a piece is held, and then: unchoked, expected offset is what has been received, expected length min(16384, remaining) and positive, piece Downloading. |
| SwarmProofs.OnlyHashDecidesTheCheck | internal/download/worker.go:235-241 | A worker's CompletePiece always has a reserved piece and data of exactly its length: only the hash decides the check. |
| SwarmProofs.SwarmSafety | internal/download/manager.go:89-124 | Under any swarm a Complete piece stays Complete with the same verified bytes. |
| Workers.BlockAdvances | internal/download/worker.go:225-238 | After an expected block either the next tile is outstanding or the requests recorded tile the whole piece in order, each non-empty and at most 16384 bytes; PeerLoop.PieceWasRequested says that these are the messages written. |
| Workers.OnlyTheExpectedBlock | internal/download/worker.go:215-224 | Exactly the block last asked for is accepted. |
| PeerLoop.HandleKeeps | internal/download/worker.go:141-254 | Every turn of the loop, for every event: reservations and bytes of others are untouched, Complete stays Complete, a newly Complete piece verifies, a piece newly reserved was Missing and is the one now held, one no longer held is released and waiters have been woken, and at most one message is written, the request for the next block of the piece held. |
| PeerLoop.PieceWasRequested | internal/download/worker.go:109-124 | When the last block of a piece arrives, the last messages written to the peer are the requests for its tiles, in order from its first byte to its last. |
| PeerLoop.ClientKeeps | internal/download/worker.go:97-107 | Over a whole run of the loop, for any events: nothing is held at the end; pieces that were not Missing keep state and bytes; all others are Missing, or Complete with verified bytes; success means all are Complete. |
| PeerWorker.Client.RequestBlock | internal/download/worker.go:109-124 | Asks for the next block at the received length; the request is written and the deadline armed exactly if it can be sent. |
| PeerWorker.Client.RequestNextPiece | internal/download/worker.go:125-139 | Reserves the first available piece only when unchoked and idle and writes exactly the request for its first block, or gives it back. |
| PeerWorker.Client.OnBlock | internal/download/worker.go:210-251 | Late blocks are ignored, unexpected ones end the worker, early ones are followed by the next request; the last hands the piece over: Complete with its bytes on disk exactly when they hash and the storage serves the write, and then finished or on to the next piece, else Missing and failed. |
| PeerWorker.Client.HandleEvent | internal/download/worker.go:141-254 | For every event and message the exact outcome: local variables, piece states, disk, messages written, how often waiters are woken, exit. |
| PeerWorker.Client.RunClient | internal/download/worker.go:71-261 | For every sequence of events the exact final state, number of broadcasts and result, with what PeerLoop.ClientKeeps says of them. |
| WorkerRefinement.TurnIsASwarmRun | internal/download/worker.go:141-254 | Whatever one turn of the worker object does, the last block with its whole CompletePiece, deadlines, chokes and read errors included, is a run of the swarm among any other workers. |
| WorkerRefinement.RunClientIsASwarmRun | internal/download/worker.go:43-261 | All of RunClient, from joining to the deferred release, is a run of the swarm that leads to the state the object leaves. |
| Storage.Store.OpenMultiFile | internal/storage/storage.go:96-141 | Opens exactly when files exist, every one is acceptable and openable, and lengths sum to the total; then spans are consecutive from 0 in list order and every file has its size. |
| Storage.SizedKeepsContents | internal/storage/storage.go:149-156 | With distinct paths opening keeps every file's bytes, cut or zero-extended to its size. |
| Storage.SpansOfTile | internal/storage/storage.go:134-135 | The spans tile the range from 0 to the sum of the lengths, zero-length files included. |
| Storage.PutChunkIsOverlay | internal/storage/storage.go:242-244 | A chunk written inside one file overlays exactly that range of the concatenation of all files. |
| Storage.WriteSpanAdvances | internal/storage/storage.go:229-254 | One pass iteration, with any short write or error, overlays exactly the next part of the data. |
| Storage.PassWrites | internal/storage/storage.go:227-259 | From any file on, whatever the system does, the rest of the pass overlays exactly a prefix of the data, the whole of it and without error exactly when every file it meets is served. |
| Storage.Store.WriteAtLocked | internal/storage/storage.go:227-259 | The single forward pass: the content becomes the old one overlaid with a prefix of the data, all of it and without error exactly when the system serves every file the range meets; other files and other bytes unchanged. |
| Storage.Store.WriteAt | internal/storage/storage.go:215-225 | Closed and out-of-range writes are refused and change nothing; all others are the pass. |
| Storage.Store.WritePiece | internal/storage/storage.go:204-213 | Writes at index times length, and rejects exactly negative, overflowing and out-of-range positions. |
| ByteStrings.OverflowCheckIsExact | internal/storage/storage.go:208-209 | Dividing the wrapped product back detects exactly the products that do not fit int64. |
| Storage.WriteSpansCommute | internal/storage/storage.go:229-254 | Visiting one file for one range and another, or the same, for a range apart from it commutes in disk, progress and error, with any I/O outcome of each. |
| Storage.Store.ReadAt | internal/storage/storage.go:261-301 | Fills the buffer with exactly the slice of the concatenation, across any boundaries and empty files; fails exactly when closed, out of range or not served. |
| Storage.Store.Complete | internal/storage/storage.go:306-336 | Succeeds exactly when the storage is open, the destination is known to be absent, every file opens, syncs and closes, and the rename works; then, and only then, it becomes completed and closed. |
| BencodeProofs.ParseIsInverse | internal/bencode/parser.go:59-229 | Parsing returns a value exactly if the input is its encoding, spans are where its parts lie and it is within limits: soundness, completeness and rejection in one equivalence. |
| BencodeProofs.EncodingsArePrefixFree | internal/bencode/parser.go:59-68 | No encoding is a proper prefix of another, so one input has one value. |
| Bencode.IntTextRoundTrip | internal/bencode/parser.go:103-140 | Every integer prints to a canonical text that reads back as it. |
| Bencode.CanonicalIntIsItsText | internal/bencode/parser.go:103-140 | Every text that is not rejected for its form is the printed form of its value: no leading zeros, no -0. |
| BencodeMeaning.LimitsAreExact | internal/bencode/parser.go:70-76 | The encoding of a well-formed value is accepted if and only if its height and every string are within the limits. |
| BencodeMeaning.KeyOrderIsExact | internal/bencode/parser.go:199-229 | Accepted dictionaries are exactly those whose adjacent keys increase, except after an empty key in the leading run. |
| BencodeMeaning.SortedAfterEmptyRun | internal/bencode/parser.go:212-221 | In an accepted dictionary any later key is greater than any earlier one, or the earlier ones are all empty. |
| BencodeMeaning.StrictUnlessEmptyKeyRepeats | internal/bencode/parser.go:212-221 | Accepted keys are strictly sorted if and only if the empty key is not repeated. |
| BencodeMeaning.RepeatedEmptyKeyIsAccepted | internal/bencode/parser.go:202-221 | A concrete dictionary with a repeated empty key that is accepted; its last value wins. |
| BencodeMeaning.SameMeaningSameInput | internal/bencode/parser.go:59-68 | Two accepted inputs without a repeated empty key that give the same value are equal. |
| BencodeMeaning.MeaningOfTheMap | internal/bencode/parser.go:222-227 | A dictionary means the map built from it in order, where the last value wins. |
| BencodeMeaning.EverySpanIsExact | internal/bencode/parser.go:78-100 | At every depth a node's span holds exactly its own encoding. |
| BencodeMeaning.ChildSpans | internal/bencode/parser.go:180-229 | Children lie strictly inside their parent, in order and disjoint. |
| BencodeMeaning.InfoHashIsOfTheEncoding | internal/bencode/parser.go:232-248 | The info hash exists exactly when there is an "info" entry, and is the hash of exactly that entry's encoding. |
| BencodeParser.Parser.SetLimits | internal/bencode/parser.go:47-56 | Positive values replace the limits, others keep the current ones. |
| BencodeParser.Parser.Parse | internal/bencode/parser.go:59-68 | The object with the moving index computes the parsing function. |
| BencodeParser.Parser.ParseValue | internal/bencode/parser.go:70-101 | From any index and depth, value and new index are those of the parsing function. |
| BencodeParser.Parser.ParseInteger | internal/bencode/parser.go:103-140 | The character loops accept exactly canonical texts of int64 values, with their value and end. |
| BencodeParser.Parser.ParseString | internal/bencode/parser.go:142-178 | Exactly canonical lengths within the limit and the data are accepted, with those bytes. |
| BencodeParser.Parser.ParseDictionary | internal/bencode/parser.go:199-229 | The member loop with its `previous` key equals the recursive specification. |
| Paths.NeighbourCheckIsExact | internal/torrent/metadata.go:248-253 | In sorted order an adjacent pair is nested if and only if any pair is. |
| Paths.BetweenIsNested | internal/torrent/metadata.go:248-253 | What lies between a key and one nested in it is nested too, because NUL is the least byte. |
| Paths.NestedMeansPrefix | internal/torrent/metadata.go:236-250 | One joined key with a NUL begins another exactly when its component list is a proper prefix. |
| Paths.JoinIsInjective | internal/torrent/metadata.go:236-240 | Equal keys come from equal component lists. |
| Paths.PathConflict | internal/torrent/metadata.go:248-253 | Sort and compare neighbours: reports a conflict exactly when some key is nested in some other, in any positions. |
| Metainfo.ExtractFiles | internal/torrent/metadata.go:192-255 | Accepts exactly the lists whose lengths fit int64 and whose case-folded paths are all-pairs distinct and not nested, and returns those files and their total. |
| Metainfo.AcceptedPathsAreApart | internal/torrent/metadata.go:236-253 | Accepted files have pairwise different paths and none is a directory of another. |
| Metainfo.NoConflictIsOfKeys | internal/torrent/metadata.go:236-253 | The absence of conflicts among component lists is exactly distinct, non-nested keys. |
| Metainfo.ExtractMeta | internal/torrent/metadata.go:59-156 | Accepts exactly when some description fits all conditions, and returns it: trackers, name, lengths, hashes whose concatenation is the input's, piece count, info hash. |
| Metainfo.ExtractAnnounceList | internal/torrent/metadata.go:160-190 | Accepts exactly lists of lists of strings and returns their non-empty tiers of non-empty addresses, in order. |
| Metainfo.WithoutEmptyIsExact | internal/torrent/metadata.go:181-187 | Dropping empty entries drops nothing else, adds nothing and keeps the order. |
| Metainfo.OnlyOneMeta | internal/torrent/metadata.go:116-156 | At most one description fits an input. |
| Metainfo.CutPieces | internal/torrent/metadata.go:146-149 | The hashes are 20 bytes each and their concatenation is the input. |
| Wire.Reader.ReadMessageWithLimit | internal/peer/message.go:33-55 | Returns the first message of the stream and consumes exactly its frame, or fails; and what is left unread after each kind of failure. |
| Wire.Serialize | internal/peer/message.go:57-67 | Fills a fresh buffer with the frame, length wrap-around included. |
| Wire.SerializeIsFaithful | internal/peer/message.go:57-67 | Serializing then reading returns the message if and only if its length does not wrap. |
| Wire.StreamRoundTrip | internal/peer/message.go:33-67 | Any list of messages that fit, serialized and concatenated, is read back as the same list. |
| Wire.StreamIsUnique | internal/peer/message.go:33-67 | A stream is accepted only if it is the frames of the messages read from it. |
| Wire.RequestFieldsSurvive | internal/peer/message.go:74-81 | A request says what it was built from exactly when no field is truncated. |
| Wire.HaveRoundTrip | internal/peer/message.go:83-99 | A have message parses back exactly when its index fits uint32. |
| Wire.PieceRoundTrip | internal/peer/message.go:101-111 | Parsing a piece message gives a block exactly if the payload is its layout. |
| Bitfields.ParseBitfield | internal/peer/bitfield.go:19-39 | Accepts exactly payloads of the right length with zero spare bits, and returns their bits. |
| Bitfields.PackIsAccepted | internal/peer/bitfield.go:19-39 | Parsing undoes high-bit-first packing of every bit sequence. |
| Bitfields.RepackIsIdentity | internal/peer/bitfield.go:27-37 | Packing undoes parsing: the spare-bit check makes payloads and bit sequences one to one. |
| Scheduler.RunKeepsOk | main.go:172-229 | Over every event sequence: waiting peers distinct and equal to `queued`, disjoint from `active`, at most two attempts each, at most MaxWorkers active, running workers plus buffered results equal to `active`. |
| Scheduler.SendNeverBlocks | main.go:209-212 | A worker that ends always finds room in the results channel. |
| Scheduler.LaunchesAreBounded | main.go:201-214 | At most twice as many workers are launched as addresses were discovered. |
| Scheduler.ExhaustedMeansAllTried | main.go:236-238 | With nobody active or waiting, no worker is left and every discovered address has been tried. |
| Scheduler.OffersAreExact | main.go:177-192 | addPeers appends exactly the eligible addresses and keeps the order of those waiting. |
| DownloadLoop.PlayKeepsOk | main.go:143-286 | At every point of every run of the loop, for any events and any world: at a loop head nothing more can be started; a select has an active worker; once ended no worker is active, running or reporting and the outcome is justified (Done only when complete, "exhausted" only when incomplete with every discovered address tried, aborted and stalled only by those events); every re-announce handled is known. |
| DownloadLoop.DownloadKeepsOk | main.go:143-286 | From the first announce on: the same, the first addresses stay known, and at most two workers are launched per address discovered. |
| DownloadLoop.PlayIsScheduled | main.go:172-286 | What the loop does to the scheduler's variables is a run of the state machine. |
| DownloadLoop.EndIsUnique | main.go:231-286 | For given events and world a run of the loop has at most one end. |
| DownloadLoop.FairRunsEnd | main.go:223-286 | If after any time every worker ends at some time, the loop ends, for every sequence of events. |
| Download.Downloader.LaunchWorkers | main.go:201-214 | Is the part of the run from there to the loop head: launches in the order of the queue until it sees the torrent complete, out of peers or full. |
| Download.Downloader.FinishWorkers | main.go:223-229 | Is the rest of the run: receives results until no worker is active, and what is returned then. |
| Download.Downloader.Select | main.go:240-284 | Is one step of the run, after waiting if what it delivers is a result: the event, and what it does to the peers. |
| Download.Downloader.Turn | main.go:231-284 | Is the part of the run from one loop head to the next or to the end, with one event handled. |
| Download.Downloader.DownloadTorrent | main.go:143-286 | For every tracker answer, event sequence and world the exact final state and outcome: those of the run, with what DownloadLoop.DownloadKeepsOk says of them. |

## Left out

- Sockets, dialling, handshakes, `ReadLoop` goroutines, TLS, tracker announces and compact peer lists: peers are arbitrary message sequences, trackers arbitrary address lists.
- `TrackerURLs`, which lists the extracted addresses without repeats.
- The rules of `ValidatePathComponent` and Unicode lower-casing: arbitrary functions; assumed only that a valid component is non-empty and free of NUL and stays so in lower case, and that lower-casing a joined path lower-cases each component.
- Real file systems: symlink checks, path joining below the download root, directories, `Sync` and `Rename` are outcomes that succeed or fail; different paths are different files.
- SHA-1 internals, real time, flags, printing and error texts; where the source has several errors the model often has one.
- Liveness of workers: nothing is claimed about a peer answering or an idle worker noticing a released piece.
- `RestoreExisting` after workers have started, which its comment excludes: a fresh manager is a precondition.
- The accessors `State`, `Progress`, `HasPiece` and `AsInt`, which only read one field.
- Integers are 64 bits wide as on a 64-bit platform; the conversions that fail only on 32-bit platforms are not modelled.
- Bitfields.SetPiece: returns the updated sequence instead of changing it in place, because the owner replaces its sequence.
- PeerWorker.Client.RunClient: one worker with the manager to itself; WorkerRefinement places it among others.
- Manager.PieceManager.CompletePiece: one undisturbed call; Refinement places it among others.
- Download.Downloader.DownloadTorrent: that the run ends is a precondition; DownloadLoop.FairRunsEnd says when it does. Timers, the idle limit and which of several ready events select picks are the event sequence.
- EndToEnd.NewStorage: the disk holds only the in-progress files of this torrent.
