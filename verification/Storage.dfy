/** The flat torrent content laid over a list of files (internal/storage/storage.go). */
module Storage {
  import opened ByteStrings

  type Path = seq<Bytes>
  type Disk = map<Path, Bytes>

  datatype Span = Span(path: Path, start: nat, end: nat)
  datatype FileInfo = FileInfo(path: Path, length: int)
  datatype StorageError = Closed | OutOfRange | IoFailed | ShortTransfer | BadLayout

  /** What the operating system does with one open-transfer-close of a file:
      whether it opens, how many bytes move at most, and which calls report an
      error (an end-of-file report on a read counts as no error). */
  datatype IoOutcome = IoOutcome(opens: bool, moved: nat, failed: bool, closeFailed: bool)

  /** What the operating system does with one open-sync-close of a file, and with a look-up. */
  datatype SyncOutcome = SyncOutcome(opens: bool, syncs: bool, closes: bool)
  datatype Lookup = Exists | Absent | Unknown

  predicate AllSynced(io: seq<SyncOutcome>, n: nat)
    requires n <= |io|
  {
    forall i :: 0 <= i < n ==> io[i].opens && io[i].syncs && io[i].closes
  }

  // ----- The layout -----

  predicate Tiled(spans: seq<Span>, from: nat, total: nat) {
    if spans == [] then from == total
    else spans[0].start == from && from <= spans[0].end && Tiled(spans[1..], spans[0].end, total)
  }

  predicate DistinctPaths(spans: seq<Span>) {
    forall i, j :: 0 <= i < j < |spans| ==> spans[i].path != spans[j].path
  }

  predicate Fits(span: Span, disk: Disk) {
    span.start <= span.end && span.path in disk && |disk[span.path]| == span.end - span.start
  }

  predicate Laid(spans: seq<Span>, disk: Disk) {
    forall i :: 0 <= i < |spans| ==> Fits(spans[i], disk)
  }

  predicate WellLaid(spans: seq<Span>, total: nat, disk: Disk) {
    Tiled(spans, 0, total) && DistinctPaths(spans) && Laid(spans, disk)
  }

  /** BEP 3, "info dictionary": the content is the concatenation of the files in list order. */
  function Flat(spans: seq<Span>, disk: Disk): Bytes
    requires Laid(spans, disk)
  {
    if spans == [] then [] else disk[spans[0].path] + Flat(spans[1..], disk)
  }

  lemma {:induction false} FlatLength(spans: seq<Span>, from: nat, total: nat, disk: Disk)
    requires Tiled(spans, from, total) && Laid(spans, disk)
    ensures from <= total && |Flat(spans, disk)| == total - from
  {
    if spans != [] {
      FlatLength(spans[1..], spans[0].end, total, disk);
    }
  }

  /** Each span starts at or after the first, ends before the last, and spans do not overlap. */
  lemma {:induction false} SpanBounds(spans: seq<Span>, from: nat, total: nat, k: nat)
    requires Tiled(spans, from, total) && k < |spans|
    ensures from <= spans[k].start <= spans[k].end <= total
    ensures k + 1 < |spans| ==> spans[k].end == spans[k + 1].start
    ensures k + 1 == |spans| ==> spans[k].end == total
    decreases |spans|
  {
    var rest := spans[1..];
    if rest != [] {
      SpanBounds(rest, spans[0].end, total, if k == 0 then 0 else k - 1);
    }
  }

  lemma SliceOfHead(head: Bytes, tail: Bytes)
    ensures (head + tail)[0..|head|] == head
  {
  }

  lemma SliceOfTail(head: Bytes, tail: Bytes, from: nat, to: nat)
    requires |head| <= from <= to <= |head| + |tail|
    ensures (head + tail)[from..to] == tail[from - |head|..to - |head|]
  {
  }

  /** What follows the first file. */
  lemma FlatTail(spans: seq<Span>, from: nat, total: nat, disk: Disk, lo: nat, hi: nat)
    requires Tiled(spans, from, total) && Laid(spans, disk) && spans != [] && spans[0].end <= lo <= hi <= total
    ensures |Flat(spans, disk)| == total - from && |Flat(spans[1..], disk)| == total - spans[0].end
    ensures Flat(spans, disk)[lo - from..hi - from]
         == Flat(spans[1..], disk)[lo - spans[0].end..hi - spans[0].end]
  {
    FlatLength(spans, from, total, disk);
    FlatLength(spans[1..], spans[0].end, total, disk);
    SliceOfTail(disk[spans[0].path], Flat(spans[1..], disk), lo - from, hi - from);
  }

  /** The bytes of the flat content that lie in span k are the bytes of its file. */
  lemma {:induction false} FlatAt(spans: seq<Span>, from: nat, total: nat, disk: Disk, k: nat)
    requires Tiled(spans, from, total) && Laid(spans, disk) && k < |spans|
    ensures from <= spans[k].start <= spans[k].end <= total
    ensures |Flat(spans, disk)| == total - from
    ensures Flat(spans, disk)[spans[k].start - from..spans[k].end - from] == disk[spans[k].path]
    decreases |spans|
  {
    FlatLength(spans, from, total, disk);
    SpanBounds(spans, from, total, k);
    if k == 0 {
      SliceOfHead(disk[spans[0].path], Flat(spans[1..], disk));
    } else {
      FlatAtLater(spans, from, total, disk, k - 1, spans[k]);
    }
  }

  lemma {:induction false} FlatAtLater(spans: seq<Span>, from: nat, total: nat, disk: Disk, k: nat, span: Span)
    requires Tiled(spans, from, total) && Laid(spans, disk) && k + 1 < |spans| && span == spans[k + 1]
    ensures from <= span.start <= span.end <= total && |Flat(spans, disk)| == total - from
    ensures Flat(spans, disk)[span.start - from..span.end - from] == disk[span.path]
    decreases |spans|, 0
  {
    FlatAt(spans[1..], spans[0].end, total, disk, k);
    FlatTail(spans, from, total, disk, span.start, span.end);
  }

  lemma {:induction false} FlatDependsOnItsFiles(spans: seq<Span>, d1: Disk, d2: Disk)
    requires Laid(spans, d1) && Laid(spans, d2)
    requires forall i :: 0 <= i < |spans| ==> d1[spans[i].path] == d2[spans[i].path]
    ensures Flat(spans, d1) == Flat(spans, d2)
  {
    if spans != [] {
      assert d1[spans[0].path] == d2[spans[0].path];
      FlatDependsOnItsFiles(spans[1..], d1, d2);
    }
  }

  lemma TailIsLaid(spans: seq<Span>, disk: Disk)
    requires Laid(spans, disk) && DistinctPaths(spans) && spans != []
    ensures Laid(spans[1..], disk) && DistinctPaths(spans[1..])
    ensures forall k :: 0 < k < |spans| ==> spans[k].path != spans[0].path && spans[1..][k - 1] == spans[k]
  {
  }

  // ----- One write into one file -----

  function PutChunk(disk: Disk, span: Span, position: nat, chunk: Bytes): Disk
    requires Fits(span, disk) && span.start <= position && position + |chunk| <= span.end
  {
    disk[span.path := Overlay(disk[span.path], position - span.start, chunk)]
  }

  lemma PutChunkKeepsLayout(spans: seq<Span>, disk: Disk, span: Span, position: nat, chunk: Bytes)
    requires Laid(spans, disk) && Fits(span, disk)
    requires span.start <= position && position + |chunk| <= span.end
    ensures Laid(spans, PutChunk(disk, span, position, chunk))
  {
    var disk' := PutChunk(disk, span, position, chunk);
    forall i | 0 <= i < |spans| ensures Fits(spans[i], disk') {
      assert Fits(spans[i], disk);
    }
  }

  lemma PutChunkInHead(spans: seq<Span>, total: nat, disk: Disk, position: nat, chunk: Bytes)
    requires spans != [] && Tiled(spans, spans[0].start, total) && DistinctPaths(spans) && Laid(spans, disk)
    requires spans[0].start <= position && position + |chunk| <= spans[0].end
    requires Laid(spans, PutChunk(disk, spans[0], position, chunk))
    ensures position - spans[0].start + |chunk| <= |Flat(spans, disk)|
    ensures Flat(spans, PutChunk(disk, spans[0], position, chunk))
         == Overlay(Flat(spans, disk), position - spans[0].start, chunk)
  {
    var disk' := PutChunk(disk, spans[0], position, chunk);
    TailIsLaid(spans, disk);
    TailIsLaid(spans, disk');
    OverlayOfConcat(disk[spans[0].path], Flat(spans[1..], disk), position - spans[0].start, chunk);
    FlatDependsOnItsFiles(spans[1..], disk, disk');
  }

  lemma PutChunkInTail(spans: seq<Span>, disk: Disk, now: Disk, position: nat, chunk: Bytes)
    requires spans != [] && Laid(spans, disk) && Laid(spans, now) && Laid(spans[1..], disk) && Laid(spans[1..], now)
    requires now[spans[0].path] == disk[spans[0].path]
    requires spans[0].end <= position && position - spans[0].end + |chunk| <= |Flat(spans[1..], disk)|
    requires Flat(spans[1..], now) == Overlay(Flat(spans[1..], disk), position - spans[0].end, chunk)
    ensures position - spans[0].start + |chunk| <= |Flat(spans, disk)|
    ensures Flat(spans, now) == Overlay(Flat(spans, disk), position - spans[0].start, chunk)
  {
    assert Fits(spans[0], disk);
    OverlayOfConcat(disk[spans[0].path], Flat(spans[1..], disk), position - spans[0].start, chunk);
  }

  /** Writing into one file of the layout is an overlay of the flat content. */
  lemma {:induction false} PutChunkIsOverlay(spans: seq<Span>, from: nat, total: nat, disk: Disk, k: nat, position: nat,
                                             chunk: Bytes)
    requires Tiled(spans, from, total) && DistinctPaths(spans) && Laid(spans, disk)
    requires k < |spans| && spans[k].start <= position && position + |chunk| <= spans[k].end
    ensures Laid(spans, PutChunk(disk, spans[k], position, chunk))
    ensures from <= position && position - from + |chunk| <= |Flat(spans, disk)|
    ensures Flat(spans, PutChunk(disk, spans[k], position, chunk)) == Overlay(Flat(spans, disk), position - from, chunk)
    decreases |spans|
  {
    var disk' := PutChunk(disk, spans[k], position, chunk);
    PutChunkKeepsLayout(spans, disk, spans[k], position, chunk);
    if k == 0 {
      PutChunkInHead(spans, total, disk, position, chunk);
    } else {
      var rest := spans[1..];
      TailIsLaid(spans, disk);
      TailIsLaid(spans, disk');
      PutChunkIsOverlay(rest, spans[0].end, total, disk, k - 1, position, chunk);
      PutChunkInTail(spans, disk, disk', position, chunk);
    }
  }

  /** Two writes into the layout that touch different torrent bytes may be done in either order. */
  lemma ChunksCommute(spans: seq<Span>, total: nat, disk: Disk, i: nat, p: nat, c: Bytes, j: nat, q: nat, d: Bytes)
    requires WellLaid(spans, total, disk) && i < |spans| && j < |spans|
    requires spans[i].start <= p && p + |c| <= spans[i].end
    requires spans[j].start <= q && q + |d| <= spans[j].end
    requires p + |c| <= q || q + |d| <= p
    ensures Laid(spans, PutChunk(disk, spans[i], p, c)) && Laid(spans, PutChunk(disk, spans[j], q, d))
    ensures PutChunk(PutChunk(disk, spans[i], p, c), spans[j], q, d)
         == PutChunk(PutChunk(disk, spans[j], q, d), spans[i], p, c)
  {
    PutChunkKeepsLayout(spans, disk, spans[i], p, c);
    PutChunkKeepsLayout(spans, disk, spans[j], q, d);
    if i == j {
      var s, file := spans[i].start, disk[spans[i].path];
      assert Overlay(Overlay(file, p - s, c), q - s, d) == Overlay(Overlay(file, q - s, d), p - s, c);
    }
  }

  datatype Progress = Progress(disk: Disk, written: nat, error: Option<StorageError>)

  /** One iteration of the write loop: what happens to the disk and to the write position at one span. */
  function WriteSpan(span: Span, disk: Disk, data: Bytes, offset: nat, written: nat, io: IoOutcome): Progress
    requires Fits(span, disk) && written <= |data|
  {
    var position := offset + written;
    if written == |data| || position < span.start || position >= span.end then
      Progress(disk, written, None)
    else
      var length := Min(|data| - written, span.end - position);
      if !io.opens then
        Progress(disk, written, Some(IoFailed))
      else
        var n := Min(io.moved, length);
        Progress(PutChunk(disk, span, position, data[written..written + n]), written + n,
                 if io.failed || io.closeFailed then Some(IoFailed)
                 else if n != length then Some(ShortTransfer)
                 else None)
  }

  /** Whether the visit moves bytes at all; that, and how many, does not depend on the disk. */
  predicate Visits(span: Span, data: Bytes, offset: nat, written: nat, io: IoOutcome) {
    written < |data| && span.start <= offset + written < span.end && io.opens
  }

  lemma WriteSpanByCases(span: Span, disk: Disk, other: Disk, data: Bytes, offset: nat, written: nat, io: IoOutcome)
    requires Fits(span, disk) && Fits(span, other) && written <= |data|
    ensures var p := WriteSpan(span, disk, data, offset, written, io);
      var o := WriteSpan(span, other, data, offset, written, io);
      && p.written == o.written && p.error == o.error && written <= p.written <= |data|
      && (if Visits(span, data, offset, written, io)
          then span.start <= offset + written && offset + p.written <= span.end
               && o.disk == PutChunk(other, span, offset + written, data[written..p.written])
          else o.disk == other)
  {
  }

  /** Visiting one file for one range and another for a range apart from it may be done in
      either order: disk, progress and error of both come out the same. */
  lemma WriteSpansCommute(spans: seq<Span>, total: nat, disk: Disk,
                          i: nat, a: Bytes, from: nat, m: nat, x: IoOutcome,
                          j: nat, b: Bytes, at: nat, n: nat, y: IoOutcome)
    requires WellLaid(spans, total, disk) && i < |spans| && j < |spans| && m <= |a| && n <= |b|
    requires from + |a| <= at || at + |b| <= from
    ensures Fits(spans[i], disk) && Fits(spans[j], disk)
    ensures var p, q := WriteSpan(spans[i], disk, a, from, m, x), WriteSpan(spans[j], disk, b, at, n, y);
      && Fits(spans[i], q.disk) && Fits(spans[j], p.disk)
      && var p', q' := WriteSpan(spans[i], q.disk, a, from, m, x), WriteSpan(spans[j], p.disk, b, at, n, y);
         p'.disk == q'.disk && p'.written == p.written && p'.error == p.error
         && q'.written == q.written && q'.error == q.error
  {
    WriteSpanKeepsLayout(spans, total, disk, i, a, from, m, x);
    WriteSpanKeepsLayout(spans, total, disk, j, b, at, n, y);
    var p, q := WriteSpan(spans[i], disk, a, from, m, x), WriteSpan(spans[j], disk, b, at, n, y);
    assert Fits(spans[i], q.disk) && Fits(spans[j], p.disk);
    WriteSpanByCases(spans[i], disk, disk, a, from, m, x);
    WriteSpanByCases(spans[i], disk, q.disk, a, from, m, x);
    WriteSpanByCases(spans[j], disk, disk, b, at, n, y);
    WriteSpanByCases(spans[j], disk, p.disk, b, at, n, y);
    if Visits(spans[i], a, from, m, x) && Visits(spans[j], b, at, n, y) {
      ChunksCommute(spans, total, disk, i, from + m, a[m..p.written], j, at + n, b[n..q.written]);
    }
  }

  // ----- When a transfer succeeds -----

  /** The number of bytes of the range [offset, offset + length) that lie in the span. */
  function Overlap(span: Span, offset: nat, length: nat): int {
    Min(span.end, offset + length) - (if span.start < offset then offset else span.start)
  }

  /** The file of the span is not needed for the range, or opens, moves every byte asked for and closes. */
  predicate Served(span: Span, offset: nat, length: nat, io: IoOutcome) {
    Overlap(span, offset, length) > 0 ==>
      io.opens && !io.failed && !io.closeFailed && io.moved >= Overlap(span, offset, length)
  }

  predicate AllServed(spans: seq<Span>, upto: nat, offset: nat, length: nat, io: seq<IoOutcome>)
    requires upto <= |spans| == |io|
  {
    forall i :: 0 <= i < upto ==> Served(spans[i], offset, length, io[i])
  }

  function Bound(spans: seq<Span>, total: nat, k: nat): nat {
    if k < |spans| then spans[k].start else total
  }

  /** How much of a length-byte range at offset lies before span k. A pass that has
      met no error has moved exactly that much when it arrives at span k. */
  function Before(spans: seq<Span>, total: nat, k: nat, offset: nat, length: nat): nat {
    if Bound(spans, total, k) <= offset then 0 else Min(length, Bound(spans, total, k) - offset)
  }

  /** One iteration keeps the layout and touches no other file. */
  lemma WriteSpanKeepsLayout(spans: seq<Span>, total: nat, disk: Disk, k: nat, data: Bytes, offset: nat, written: nat,
                             io: IoOutcome)
    requires WellLaid(spans, total, disk) && k < |spans| && written <= |data|
    ensures Fits(spans[k], disk)
    ensures var p := WriteSpan(spans[k], disk, data, offset, written, io);
      && WellLaid(spans, total, p.disk) && p.disk.Keys == disk.Keys
      && (forall path :: path in disk && path != spans[k].path ==> p.disk[path] == disk[path])
  {
    assert Fits(spans[k], disk);
    var p := WriteSpan(spans[k], disk, data, offset, written, io);
    if p.disk != disk {
      PutChunkKeepsLayout(spans, disk, spans[k], offset + written, data[written..p.written]);
    }
  }

  /** One iteration either changes nothing or puts the next part of the data into its file. */
  lemma WriteSpanPutsChunk(span: Span, disk: Disk, data: Bytes, offset: nat, written: nat, io: IoOutcome)
    requires Fits(span, disk) && written <= |data|
    ensures var p, position := WriteSpan(span, disk, data, offset, written, io), offset + written;
      && written <= p.written <= |data|
      && if p.written == written && p.disk == disk then true
         else
           && span.start <= position && offset + p.written <= span.end
           && p.disk == PutChunk(disk, span, position, data[written..p.written])
  {
  }

  /** One iteration writes exactly the next part of the data to the flat content. */
  lemma WriteSpanAdvances(spans: seq<Span>, total: nat, disk: Disk, k: nat, data: Bytes, offset: nat, written: nat,
                          io: IoOutcome)
    requires WellLaid(spans, total, disk) && k < |spans| && written <= |data| && offset + |data| <= total
    requires written == Before(spans, total, k, offset, |data|)
    ensures Fits(spans[k], disk) && |Flat(spans, disk)| == total
    ensures var p := WriteSpan(spans[k], disk, data, offset, written, io);
      && Laid(spans, p.disk)
      && written <= p.written <= |data|
      && Flat(spans, p.disk) == Overlay(Flat(spans, disk), offset + written, data[written..p.written])
  {
    WriteSpanKeepsLayout(spans, total, disk, k, data, offset, written, io);
    FlatLength(spans, 0, total, disk);
    WriteSpanPutsChunk(spans[k], disk, data, offset, written, io);
    var p := WriteSpan(spans[k], disk, data, offset, written, io);
    if p.written == written && p.disk == disk {
      OverlayNothing(Flat(spans, disk), offset + written);
    } else {
      PutChunkIsOverlay(spans, 0, total, disk, k, offset + written, data[written..p.written]);
    }
  }

  /** The flat content is the old one with the first `written` bytes of data at offset,
      and the layout and every file outside it are untouched. */
  ghost predicate WrittenSoFar(spans: seq<Span>, total: nat, before: Disk, now: Disk, data: Bytes, offset: nat,
                               written: nat)
  {
    && WellLaid(spans, total, before) && WellLaid(spans, total, now)
    && SameElsewhere(spans, before, now)
    && written <= |data| && |Flat(spans, before)| == total && offset + |data| <= total
    && Flat(spans, now) == Overlay(Flat(spans, before), offset, data[..written])
  }

  ghost predicate SameElsewhere(spans: seq<Span>, before: Disk, now: Disk) {
    && before.Keys == now.Keys
    && forall path :: path in before && (forall i :: 0 <= i < |spans| ==> spans[i].path != path) ==>
         now[path] == before[path]
  }

  lemma NothingWritten(spans: seq<Span>, total: nat, disk: Disk, data: Bytes, offset: nat)
    requires WellLaid(spans, total, disk) && offset + |data| <= total
    ensures WrittenSoFar(spans, total, disk, disk, data, offset, 0)
    ensures Before(spans, total, 0, offset, |data|) == 0
  {
    FlatLength(spans, 0, total, disk);
    OverlayNothing(Flat(spans, disk), offset);
  }

  lemma WriteStep(spans: seq<Span>, total: nat, before: Disk, disk: Disk, k: nat, data: Bytes, offset: nat,
                  written: nat, io: seq<IoOutcome>)
    requires WrittenSoFar(spans, total, before, disk, data, offset, written) && k < |spans| == |io|
    requires written == Before(spans, total, k, offset, |data|) && AllServed(spans, k, offset, |data|, io)
    ensures Fits(spans[k], disk)
    ensures var p := WriteSpan(spans[k], disk, data, offset, written, io[k]);
      && WrittenSoFar(spans, total, before, p.disk, data, offset, p.written)
      && (p.error.None? ==>
            && AllServed(spans, k + 1, offset, |data|, io)
            && p.written == Before(spans, total, k + 1, offset, |data|))
      && (p.error.Some? ==> !AllServed(spans, |spans|, offset, |data|, io))
  {
    WriteSpanKeepsLayout(spans, total, disk, k, data, offset, written, io[k]);
    WriteSpanAdvances(spans, total, disk, k, data, offset, written, io[k]);
    WriteSpanOutcome(spans, total, disk, k, data, offset, written, io[k]);
    var p := WriteSpan(spans[k], disk, data, offset, written, io[k]);
    OverlayExtend(Flat(spans, before), offset, data, written, p.written - written);
  }

  // ----- The whole pass -----

  /** The write loop from file k on, one WriteSpan after the other. */
  function Pass(spans: seq<Span>, total: nat, disk: Disk, data: Bytes, offset: nat, k: nat, written: nat,
                io: seq<IoOutcome>): Progress
    requires WellLaid(spans, total, disk) && k <= |spans| == |io| && written <= |data|
    decreases |spans| - k
  {
    if k == |spans| then Progress(disk, written, None)
    else
      WriteSpanKeepsLayout(spans, total, disk, k, data, offset, written, io[k]);
      WriteSpanPutsChunk(spans[k], disk, data, offset, written, io[k]);
      var p := WriteSpan(spans[k], disk, data, offset, written, io[k]);
      if p.error.Some? then p else Pass(spans, total, p.disk, data, offset, k + 1, p.written, io)
  }

  /** It overlays a prefix of the data, all of it exactly when every file it meets is served. */
  lemma {:induction false} PassWrites(spans: seq<Span>, total: nat, before: Disk, disk: Disk, data: Bytes, offset: nat,
                                      k: nat, written: nat, io: seq<IoOutcome>)
    requires WrittenSoFar(spans, total, before, disk, data, offset, written) && k <= |spans| == |io|
    requires written == Before(spans, total, k, offset, |data|) && AllServed(spans, k, offset, |data|, io)
    ensures var p := Pass(spans, total, disk, data, offset, k, written, io);
      && WrittenSoFar(spans, total, before, p.disk, data, offset, p.written)
      && (p.error.None? <==> AllServed(spans, |spans|, offset, |data|, io))
      && (p.error.None? ==> p.written == |data|)
    decreases |spans| - k
  {
    if k < |spans| {
      WriteStep(spans, total, before, disk, k, data, offset, written, io);
      var p := WriteSpan(spans[k], disk, data, offset, written, io[k]);
      if p.error.None? {
        PassWrites(spans, total, before, p.disk, data, offset, k + 1, p.written, io);
      }
    }
  }

  /** Once everything has moved, the files still ahead are left alone. */
  lemma {:induction false} PassStops(spans: seq<Span>, total: nat, disk: Disk, data: Bytes, offset: nat, k: nat,
                                     io: seq<IoOutcome>)
    requires WellLaid(spans, total, disk) && k <= |spans| == |io|
    ensures Pass(spans, total, disk, data, offset, k, |data|, io) == Progress(disk, |data|, None)
    decreases |spans| - k
  {
    if k < |spans| {
      PassStops(spans, total, disk, data, offset, k + 1, io);
    }
  }

  /** The write loop before file k, having begun with the given disk. */
  ghost predicate Passing(spans: seq<Span>, total: nat, start: Disk, disk: Disk, data: Bytes, offset: nat,
                          k: nat, written: nat, io: seq<IoOutcome>)
    requires k <= |spans| == |io| && WellLaid(spans, total, start)
  {
    && WellLaid(spans, total, disk) && written <= |data|
    && Pass(spans, total, start, data, offset, 0, 0, io) == Pass(spans, total, disk, data, offset, k, written, io)
  }

  /** One turn of it. */
  lemma PassTurn(spans: seq<Span>, total: nat, start: Disk, disk: Disk, data: Bytes, offset: nat,
                 k: nat, written: nat, io: seq<IoOutcome>)
    requires k < |spans| == |io| && WellLaid(spans, total, start)
    requires Passing(spans, total, start, disk, data, offset, k, written, io)
    ensures Fits(spans[k], disk)
    ensures var p := WriteSpan(spans[k], disk, data, offset, written, io[k]);
      if p.error.Some? then Pass(spans, total, start, data, offset, 0, 0, io) == p
      else Passing(spans, total, start, p.disk, data, offset, k + 1, p.written, io)
  {
    WriteSpanKeepsLayout(spans, total, disk, k, data, offset, written, io[k]);
    WriteSpanPutsChunk(spans[k], disk, data, offset, written, io[k]);
  }

  /** The loop may be left once everything has been written, and ends at the last file. */
  lemma PassEnds(spans: seq<Span>, total: nat, start: Disk, disk: Disk, data: Bytes, offset: nat,
                 k: nat, written: nat, io: seq<IoOutcome>)
    requires k <= |spans| == |io| && WellLaid(spans, total, start)
    requires Passing(spans, total, start, disk, data, offset, k, written, io)
    requires k == |spans| || written == |data|
    ensures Pass(spans, total, start, data, offset, 0, 0, io) == Progress(disk, written, None)
  {
    if written == |data| {
      PassStops(spans, total, disk, data, offset, k, io);
    }
  }

  /** Once everything has moved, no later file is needed. */
  lemma RestIsServed(spans: seq<Span>, total: nat, k: nat, offset: nat, length: nat, io: seq<IoOutcome>)
    requires Tiled(spans, 0, total) && k < |spans| == |io| && Before(spans, total, k, offset, length) == length
    requires AllServed(spans, k, offset, length, io)
    ensures AllServed(spans, |spans|, offset, length, io)
  {
    forall i | k <= i < |spans| ensures Served(spans[i], offset, length, io[i]) {
      SpanOrder(spans, 0, total, k, i);
    }
  }

  lemma {:induction false} SpanOrder(spans: seq<Span>, from: nat, total: nat, i: nat, j: nat)
    requires Tiled(spans, from, total) && i <= j < |spans|
    ensures spans[i].start <= spans[j].start
    ensures i < j ==> spans[i].end <= spans[j].start
    decreases j
  {
    if i < j {
      SpanBounds(spans, from, total, j - 1);
      SpanOrder(spans, from, total, i, j - 1);
    }
  }

  /** The iteration succeeds exactly when the file serves its part of the range,
      and then the next span finds the right amount moved. */
  lemma WriteSpanOutcome(spans: seq<Span>, total: nat, disk: Disk, k: nat, data: Bytes, offset: nat, written: nat,
                         io: IoOutcome)
    requires WellLaid(spans, total, disk) && k < |spans| && written <= |data| && offset + |data| <= total
    requires written == Before(spans, total, k, offset, |data|)
    ensures Fits(spans[k], disk)
    ensures var p := WriteSpan(spans[k], disk, data, offset, written, io);
      && (p.error.None? <==> Served(spans[k], offset, |data|, io))
      && (p.error.None? ==> p.written == Before(spans, total, k + 1, offset, |data|))
  {
    assert Fits(spans[k], disk);
    SpanBounds(spans, 0, total, k);
  }

  /** A stretch of the file of span k is the same stretch of the flat content. */
  lemma ReadsFlat(spans: seq<Span>, total: nat, disk: Disk, k: nat, position: nat, n: nat)
    requires Tiled(spans, 0, total) && Laid(spans, disk) && k < |spans| && Fits(spans[k], disk)
    requires spans[k].start <= position && position + n <= spans[k].end
    ensures spans[k].end <= total == |Flat(spans, disk)|
    ensures var at := position - spans[k].start;
      Flat(spans, disk)[position..position + n] == disk[spans[k].path][at..at + n]
  {
    FlatAt(spans, 0, total, disk, k);
    var at := position - spans[k].start;
    SliceOfSlice(Flat(spans, disk), spans[k].start, spans[k].end, at, at + n);
  }

  /** The read loop before file k, with what is in the buffer so far. */
  ghost predicate ReadingUpTo(spans: seq<Span>, total: nat, disk: Disk, k: nat, offset: nat, length: nat,
                              filled: Bytes, io: seq<IoOutcome>)
    requires WellLaid(spans, total, disk) && k <= |spans| == |io|
  {
    && offset + length <= total == |Flat(spans, disk)| && |filled| <= length
    && |filled| == Before(spans, total, k, offset, length) && AllServed(spans, k, offset, length, io)
    && filled == Flat(spans, disk)[offset..offset + |filled|]
  }

  /** One turn of it. */
  lemma ReadTurn(spans: seq<Span>, total: nat, disk: Disk, k: nat, offset: nat, length: nat,
                 filled: Bytes, io: seq<IoOutcome>)
    requires WellLaid(spans, total, disk) && k < |spans| == |io|
    requires ReadingUpTo(spans, total, disk, k, offset, length, filled, io)
    ensures Fits(spans[k], disk)
    ensures var r := ReadSpan(spans[k], disk, offset, length, |filled|, io[k]);
      if r.error.None? then ReadingUpTo(spans, total, disk, k + 1, offset, length, filled + r.chunk, io)
      else !AllServed(spans, |spans|, offset, length, io)
  {
    ReadTurnFills(spans, total, disk, k, offset, length, |filled|, io[k]);
    ReadTurnServes(spans, total, disk, k, offset, length, |filled|, io);
  }

  /** The loop may be left once the buffer is full, and it is full at the last file. */
  lemma ReadEnds(spans: seq<Span>, total: nat, disk: Disk, k: nat, offset: nat, length: nat,
                 filled: Bytes, io: seq<IoOutcome>)
    requires WellLaid(spans, total, disk) && k <= |spans| == |io|
    requires ReadingUpTo(spans, total, disk, k, offset, length, filled, io)
    requires k == |spans| || |filled| == length
    ensures |filled| == length && AllServed(spans, |spans|, offset, length, io)
  {
    if k < |spans| {
      RestIsServed(spans, total, k, offset, length, io);
    }
  }

  datatype Reading = Reading(chunk: Bytes, error: Option<StorageError>)

  /** One iteration of the read loop, for a buffer of the given length of which `read` bytes are filled. */
  function ReadSpan(span: Span, disk: Disk, offset: nat, length: nat, read: nat, io: IoOutcome): (r: Reading)
    requires Fits(span, disk) && read <= length
    ensures read + |r.chunk| <= length
  {
    var position := offset + read;
    if read == length || position < span.start || position >= span.end then Reading([], None)
    else
      var wanted := Min(length - read, span.end - position);
      if !io.opens then Reading([], Some(IoFailed))
      else
        var n, at := Min(io.moved, wanted), position - span.start;
        Reading(disk[span.path][at..at + n],
                if io.failed || io.closeFailed then Some(IoFailed)
                else if n != wanted then Some(ShortTransfer)
                else None)
  }

  lemma ReadSpanOutcome(spans: seq<Span>, total: nat, disk: Disk, k: nat, offset: nat, length: nat, read: nat,
                        io: IoOutcome)
    requires WellLaid(spans, total, disk) && k < |spans| && offset + length <= total
    requires read == Before(spans, total, k, offset, length)
    ensures Fits(spans[k], disk)
    ensures var r := ReadSpan(spans[k], disk, offset, length, read, io);
      && (r.error.None? <==> Served(spans[k], offset, length, io))
      && (r.error.None? ==> read + |r.chunk| == Before(spans, total, k + 1, offset, length))
  {
    SpanBounds(spans, 0, total, k);
  }

  /** It delivers exactly the next part of the flat content. */
  lemma ReadSpanAdvances(spans: seq<Span>, total: nat, disk: Disk, k: nat, offset: nat, length: nat, read: nat,
                         io: IoOutcome)
    requires WellLaid(spans, total, disk) && k < |spans| && read <= length && offset + length <= total
    ensures Fits(spans[k], disk) && |Flat(spans, disk)| == total
    ensures var r := ReadSpan(spans[k], disk, offset, length, read, io);
      r.chunk == Flat(spans, disk)[offset + read..offset + read + |r.chunk|]
  {
    FlatLength(spans, 0, total, disk);
    var r := ReadSpan(spans[k], disk, offset, length, read, io);
    if r.chunk != [] {
      ReadsFlat(spans, total, disk, k, offset + read, |r.chunk|);
    }
  }

  lemma SplitSlice(s: Bytes, a: nat, b: nat, c: nat)
    requires a <= b <= c <= |s|
    ensures s[a..b] + s[b..c] == s[a..c]
  {
  }

  /** One turn of the read loop: what is filled, and what has been served. */
  lemma ReadTurnFills(spans: seq<Span>, total: nat, disk: Disk, k: nat,
                      offset: nat, length: nat, read: nat, io: IoOutcome)
    requires WellLaid(spans, total, disk) && k < |spans| && read <= length && offset + length <= total
    ensures Fits(spans[k], disk) && |Flat(spans, disk)| == total
    ensures var r := ReadSpan(spans[k], disk, offset, length, read, io);
      Flat(spans, disk)[offset..offset + read] + r.chunk == Flat(spans, disk)[offset..offset + read + |r.chunk|]
  {
    ReadSpanAdvances(spans, total, disk, k, offset, length, read, io);
    var r := ReadSpan(spans[k], disk, offset, length, read, io);
    SplitSlice(Flat(spans, disk), offset, offset + read, offset + read + |r.chunk|);
  }

  lemma ReadTurnServes(spans: seq<Span>, total: nat, disk: Disk, k: nat,
                       offset: nat, length: nat, read: nat, io: seq<IoOutcome>)
    requires WellLaid(spans, total, disk) && k < |spans| == |io| && offset + length <= total
    requires read == Before(spans, total, k, offset, length) && AllServed(spans, k, offset, length, io)
    ensures Fits(spans[k], disk)
    ensures var r := ReadSpan(spans[k], disk, offset, length, read, io[k]);
      if r.error.None?
      then
        && AllServed(spans, k + 1, offset, length, io)
        && read + |r.chunk| == Before(spans, total, k + 1, offset, length)
      else !AllServed(spans, |spans|, offset, length, io)
  {
    ReadSpanOutcome(spans, total, disk, k, offset, length, read, io[k]);
    var r := ReadSpan(spans[k], disk, offset, length, read, io[k]);
    if r.error.Some? {
      assert !Served(spans[k], offset, length, io[k]);
    }
  }

  // ----- Opening -----

  predicate NonNegative(infos: seq<FileInfo>) {
    forall i :: 0 <= i < |infos| ==> infos[i].length >= 0
  }

  function SpansOf(infos: seq<FileInfo>, from: nat): seq<Span>
    requires NonNegative(infos)
  {
    if infos == [] then []
    else [Span(infos[0].path, from, from + infos[0].length)] + SpansOf(infos[1..], from + infos[0].length)
  }

  function TotalLength(infos: seq<FileInfo>): int {
    if infos == [] then 0 else infos[0].length + TotalLength(infos[1..])
  }

  predicate DistinctFiles(infos: seq<FileInfo>) {
    forall i, j :: 0 <= i < j < |infos| ==> infos[i].path != infos[j].path
  }

  /** Consecutive spans tile [from, from + the sum of the lengths), in list order. */
  lemma {:induction false} SpansOfTile(infos: seq<FileInfo>, from: nat)
    requires NonNegative(infos)
    ensures TotalLength(infos) >= 0
    ensures Tiled(SpansOf(infos, from), from, from + TotalLength(infos))
    ensures |SpansOf(infos, from)| == |infos|
    ensures forall i :: 0 <= i < |infos| ==>
      var span := SpansOf(infos, from)[i]; span.path == infos[i].path && span.end == span.start + infos[i].length
  {
    if infos != [] {
      SpansOfTile(infos[1..], from + infos[0].length);
    }
  }

  lemma {:induction false} SpansOfSnoc(infos: seq<FileInfo>, last: FileInfo, from: nat)
    requires NonNegative(infos)
    requires last.length >= 0
    ensures TotalLength(infos) >= 0
    ensures NonNegative(infos + [last]) && TotalLength(infos + [last]) == TotalLength(infos) + last.length
    ensures var start := from + TotalLength(infos);
      SpansOf(infos + [last], from) == SpansOf(infos, from) + [Span(last.path, start, start + last.length)]
  {
    if infos == [] {
      assert infos + [last] == [last];
    } else {
      var all, rest := infos + [last], infos[1..];
      assert all[0] == infos[0] && all[1..] == rest + [last];
      SpansOfSnoc(rest, last, from + infos[0].length);
      var first := Span(infos[0].path, from, from + infos[0].length);
      assert SpansOf(all, from) == [first] + SpansOf(rest + [last], first.end);
    }
  }

  lemma {:induction false} LongerThan(infos: seq<FileInfo>, k: nat, length: int)
    requires k <= |infos| && TotalLength(infos[..k]) > length
    ensures TotalLength(infos) == length ==> exists i :: 0 <= i < |infos| && infos[i].length < 0
    decreases |infos| - k
  {
    if k == |infos| {
      assert infos[..k] == infos;
    } else if infos[k].length >= 0 && (forall i :: 0 <= i < k ==> infos[i].length >= 0) {
      assert infos[..k + 1] == infos[..k] + [infos[k]];
      SpansOfSnoc(infos[..k], infos[k], 0);
      LongerThan(infos, k + 1, length);
    }
  }

  /** What truncating to a size does: cut, or extend with zero bytes. */
  function Resize(content: Bytes, size: nat): (r: Bytes)
    ensures |r| == size
  {
    if size <= |content| then content[..size] else content + seq(size - |content|, _ => 0)
  }

  function Existing(disk: Disk, path: Path): Bytes {
    if path in disk then disk[path] else []
  }

  /** The files after sizing each of them in list order. */
  function Sized(disk: Disk, infos: seq<FileInfo>): Disk
    requires NonNegative(infos)
  {
    if infos == [] then disk
    else
      var earlier, last := Sized(disk, infos[..|infos| - 1]), infos[|infos| - 1];
      earlier[last.path := Resize(Existing(earlier, last.path), last.length)]
  }

  lemma {:induction false} SizedLeavesOthers(disk: Disk, infos: seq<FileInfo>, path: Path)
    requires NonNegative(infos) && (forall i :: 0 <= i < |infos| ==> infos[i].path != path)
    ensures Existing(Sized(disk, infos), path) == Existing(disk, path)
  {
    if infos != [] {
      assert infos[|infos| - 1].path != path;
      SizedLeavesOthers(disk, infos[..|infos| - 1], path);
    }
  }

  /** With distinct paths every file keeps what it held, up to its new size:
      partial data survives reopening. */
  lemma {:induction false} SizedKeepsContents(disk: Disk, infos: seq<FileInfo>, k: nat)
    requires NonNegative(infos) && DistinctFiles(infos) && k < |infos|
    ensures infos[k].path in Sized(disk, infos)
    ensures Sized(disk, infos)[infos[k].path] == Resize(Existing(disk, infos[k].path), infos[k].length)
    decreases |infos|
  {
    var front := infos[..|infos| - 1];
    if k == |front| {
      SizedLeavesOthers(disk, front, infos[k].path);
    } else {
      SizedKeepsContents(disk, front, k);
      assert infos[|front|].path != infos[k].path;
    }
  }

  lemma SizedIsLaid(disk: Disk, infos: seq<FileInfo>)
    requires NonNegative(infos) && DistinctFiles(infos)
    ensures Laid(SpansOf(infos, 0), Sized(disk, infos)) && DistinctPaths(SpansOf(infos, 0))
  {
    SpansOfTile(infos, 0);
    var spans := SpansOf(infos, 0);
    forall i | 0 <= i < |spans| ensures Fits(spans[i], Sized(disk, infos)) {
      SizedKeepsContents(disk, infos, i);
      assert spans[i].path == infos[i].path;
    }
  }

  predicate InRange(offset: int, length: nat, total: nat) {
    0 <= offset <= total && length <= total - offset
  }

  predicate Openable(infos: seq<FileInfo>, openable: seq<bool>, upto: nat)
    requires upto <= |infos| == |openable|
  {
    forall i :: 0 <= i < upto ==> infos[i].length >= 0 && infos[i].path != [] && openable[i]
  }

  lemma OpenableOneMore(infos: seq<FileInfo>, openable: seq<bool>, i: nat)
    requires i < |infos| == |openable| && Openable(infos, openable, i)
    ensures NonNegative(infos[..i])
    ensures if infos[i].length >= 0 && infos[i].path != [] && openable[i] then Openable(infos, openable, i + 1)
            else !Openable(infos, openable, |infos|)
  {
  }

  /** The files have been sized and laid out one after the other. */
  ghost predicate Opened(infos: seq<FileInfo>, before: Disk, files: seq<Span>, disk: Disk, offset: int) {
    && NonNegative(infos) && 0 <= offset == TotalLength(infos) <= MAX_INT64
    && files == SpansOf(infos, 0) && disk == Sized(before, infos)
  }

  lemma OpenedOneMore(infos: seq<FileInfo>, info: FileInfo, before: Disk, files: seq<Span>, disk: Disk, offset: int)
    requires Opened(infos, before, files, disk, offset) && 0 <= info.length <= MAX_INT64 - offset
    ensures Opened(infos + [info], before, files + [Span(info.path, offset, offset + info.length)],
                   disk[info.path := Resize(Existing(disk, info.path), info.length)], offset + info.length)
  {
    var more := infos + [info];
    assert more[..|more| - 1] == infos && more[|more| - 1] == info;
    SpansOfSnoc(infos, info, 0);
  }

  lemma OpenedStep(infos: seq<FileInfo>, i: nat, before: Disk, files: seq<Span>, disk: Disk, offset: int,
                   newFiles: seq<Span>, newDisk: Disk)
    requires i < |infos| && Opened(infos[..i], before, files, disk, offset)
    requires 0 <= infos[i].length <= MAX_INT64 - offset
    requires newFiles == files + [Span(infos[i].path, offset, offset + infos[i].length)]
    requires newDisk == disk[infos[i].path := Resize(Existing(disk, infos[i].path), infos[i].length)]
    ensures Opened(infos[..i + 1], before, newFiles, newDisk, offset + infos[i].length)
  {
    assert infos[..i + 1] == infos[..i] + [infos[i]];
    OpenedOneMore(infos[..i], infos[i], before, files, disk, offset);
  }

  /** A file that is refused, or that would overflow, refuses the whole torrent. */
  lemma NotOpened(infos: seq<FileInfo>, openable: seq<bool>, i: nat, length: int)
    requires i < |infos| == |openable| && NonNegative(infos[..i]) && length <= MAX_INT64
    requires infos[i].length < 0 || infos[i].path == [] || !openable[i]
             || infos[i].length > MAX_INT64 - TotalLength(infos[..i])
    ensures !(TotalLength(infos) == length && Openable(infos, openable, |infos|))
  {
    if infos[i].length >= 0 && infos[i].path != [] && openable[i] {
      assert infos[..i + 1] == infos[..i] + [infos[i]];
      SpansOfSnoc(infos[..i], infos[i], 0);
      LongerThan(infos, i + 1, length);
    }
  }

  lemma OpenedAll(infos: seq<FileInfo>, disk: Disk)
    requires NonNegative(infos)
    ensures TotalLength(infos) >= 0 && Tiled(SpansOf(infos, 0), 0, TotalLength(infos))
    ensures DistinctFiles(infos) ==> WellLaid(SpansOf(infos, 0), TotalLength(infos), Sized(disk, infos))
  {
    SpansOfTile(infos, 0);
    if DistinctFiles(infos) {
      SizedIsLaid(disk, infos);
    }
  }

  lemma OpenedToTheEnd(infos: seq<FileInfo>, before: Disk, files: seq<Span>, disk: Disk, offset: int)
    requires Opened(infos, before, files, disk, offset)
    ensures NonNegative(infos) && 0 <= offset == TotalLength(infos)
    ensures files == SpansOf(infos, 0) && Tiled(files, 0, offset) && disk == Sized(before, infos)
    ensures DistinctFiles(infos) ==> WellLaid(files, offset, disk)
  {
    OpenedAll(infos, before);
  }

  /** The file can be opened and fits behind the ones before it. */
  predicate Opens(info: FileInfo, offset: int, openable: bool) {
    0 <= info.length <= MAX_INT64 - offset && info.path != [] && openable
  }

  /** The loop of the opening before file i. */
  ghost predicate Opening(infos: seq<FileInfo>, openable: seq<bool>, i: nat, before: Disk, files: seq<Span>, disk: Disk,
                          offset: int)
    requires i <= |infos| == |openable|
  {
    Opened(infos[..i], before, files, disk, offset) && Openable(infos, openable, i)
  }

  /** One turn of it. */
  lemma OpeningTurn(infos: seq<FileInfo>, openable: seq<bool>, i: nat, before: Disk, files: seq<Span>, disk: Disk,
                    offset: int, newFiles: seq<Span>, newDisk: Disk, length: int)
    requires i < |infos| == |openable| && length <= MAX_INT64
    requires Opening(infos, openable, i, before, files, disk, offset)
    requires Opens(infos[i], offset, openable[i]) ==>
      && newFiles == files + [Span(infos[i].path, offset, offset + infos[i].length)]
      && newDisk == disk[infos[i].path := Resize(Existing(disk, infos[i].path), infos[i].length)]
    ensures if Opens(infos[i], offset, openable[i])
            then Opening(infos, openable, i + 1, before, newFiles, newDisk, offset + infos[i].length)
            else !(TotalLength(infos) == length && Openable(infos, openable, |infos|))
  {
    OpenableOneMore(infos, openable, i);
    if Opens(infos[i], offset, openable[i]) {
      OpenedStep(infos, i, before, files, disk, offset, newFiles, newDisk);
    } else {
      NotOpened(infos, openable, i, length);
    }
  }

  method CopyInto(buffer: array<Byte>, at: nat, chunk: Bytes)
    requires at + |chunk| <= buffer.Length
    modifies buffer
    ensures buffer[..at + |chunk|] == old(buffer[..at]) + chunk
  {
    forall j | 0 <= j < |chunk| {
      buffer[at + j] := chunk[j];
    }
  }

  /** WritePiece rejects a wrapped offset exactly when the offset does not fit int64. */
  lemma PieceOffsetCheck(index: int, length: int)
    requires 0 <= index <= MAX_INT64 && 0 < length <= MAX_INT64
    ensures (index != 0 && TruncDiv(Wrap64(index * length), index) != length) <==> index * length > MAX_INT64
    ensures 0 <= index * length <= MAX_INT64 ==> Wrap64(index * length) == index * length
    ensures index * length >= 0
  {
    if index != 0 {
      OverflowCheckIsExact(index, length);
    }
  }

  /** The source's storage object, with the part of the file system it writes to. */
  class Store {
    var files: seq<Span>
    var total: nat
    var closed: bool
    var completed: bool // the partial tree has been renamed to the completed path
    var disk: Disk

    ghost predicate Valid()
      reads this
    {
      WellLaid(files, total, disk)
    }

    ghost function Content(): Bytes
      requires Valid()
      reads this
    {
      Flat(files, disk)
    }

    constructor (disk: Disk)
      ensures Valid() && this.disk == disk && files == [] && total == 0 && !closed && !completed
    {
      this.disk, files, total, closed, completed := disk, [], 0, false, false;
    }

    /** Checks, sizes and appends one file at the given torrent offset. */
    method OpenFile(info: FileInfo, offset: nat, openable: bool) returns (ok: bool)
      requires offset <= MAX_INT64
      modifies this`files, this`disk
      ensures ok == Opens(info, offset, openable)
      ensures ok ==> files == old(files) + [Span(info.path, offset, offset + info.length)]
      ensures ok ==> disk == old(disk)[info.path := Resize(Existing(old(disk), info.path), info.length)]
    {
      if info.length < 0 || |info.path| == 0 {
        return false;
      }
      if info.length > MAX_INT64 - offset {
        return false;
      }
      if !openable {
        return false;
      }
      disk := disk[info.path := Resize(Existing(disk, info.path), info.length)];
      files := files + [Span(info.path, offset, offset + info.length)];
      ok := true;
    }

    /** The loop over the files, whose lengths are added up. */
    method OpenFiles(infos: seq<FileInfo>, length: nat, openable: seq<bool>) returns (ok: bool, offset: nat)
      requires files == [] && length <= MAX_INT64 && |openable| == |infos|
      modifies this`files, this`disk
      ensures ok ==> Opening(infos, openable, |infos|, old(disk), files, disk, offset)
      ensures !ok ==> !(TotalLength(infos) == length && Openable(infos, openable, |infos|))
    {
      offset := 0;
      for i := 0 to |infos|
        invariant offset <= MAX_INT64 && Opening(infos, openable, i, old(disk), files, disk, offset)
      {
        ghost var wasFiles, wasDisk := files, disk;
        ok := OpenFile(infos[i], offset, openable[i]);
        OpeningTurn(infos, openable, i, old(disk), wasFiles, wasDisk, offset, files, disk, length);
        if !ok {
          return;
        }
        offset := offset + infos[i].length;
      }
      ok := true;
    }

    /** Sizes every file and lays them end to end. openable says which files the system lets us open. */
    method OpenMultiFile(infos: seq<FileInfo>, length: nat, openable: seq<bool>) returns (ok: bool)
      requires files == [] && length <= MAX_INT64 && |openable| == |infos|
      modifies this`files, this`disk, this`total
      ensures ok <==> infos != [] && TotalLength(infos) == length && Openable(infos, openable, |infos|)
      ensures ok ==> files == SpansOf(infos, 0) && total == length && Tiled(files, 0, total)
      ensures ok ==> disk == Sized(old(disk), infos)
      ensures ok && DistinctFiles(infos) ==> Valid()
    {
      total := length;
      if |infos| == 0 {
        return false;
      }
      var accepted, offset := OpenFiles(infos, length, openable);
      if !accepted {
        return false;
      }
      assert infos[..|infos|] == infos;
      OpenedToTheEnd(infos, old(disk), files, disk, offset);
      ok := offset == length;
    }

    method OpenSingleFile(path: Path, length: nat, openable: bool) returns (ok: bool)
      requires files == []
      modifies this
      ensures ok == openable && closed == old(closed) && completed == old(completed)
      ensures ok ==> Valid() && files == [Span(path, 0, length)] && total == length
      ensures ok ==> disk == old(disk)[path := Resize(Existing(old(disk), path), length)]
      ensures !ok ==> disk == old(disk)
    {
      total := length;
      if !openable {
        return false;
      }
      disk := disk[path := Resize(Existing(disk, path), length)];
      files := [Span(path, 0, length)];
      ok := true;
    }

    /** One file of the pass: skipped if the write position is not in it; otherwise
        opened, written up to its end or the end of the data, and closed. */
    method WriteFile(i: nat, data: Bytes, offset: nat, written: nat, io: IoOutcome)
      returns (now: nat, error: Option<StorageError>)
      requires i < |files| && Fits(files[i], disk) && written <= |data|
      modifies this`disk
      ensures Progress(disk, now, error) == WriteSpan(files[i], old(disk), data, offset, written, io)
    {
      var span, position := files[i], offset + written;
      now, error := written, None;
      if written == |data| || position < span.start || position >= span.end {
        return;
      }
      var length := Min(|data| - written, span.end - position);
      if !io.opens {
        return now, Some(IoFailed);
      }
      var n := Min(io.moved, length);
      disk := PutChunk(disk, span, position, data[written..written + n]);
      now := written + n;
      if io.failed || io.closeFailed {
        error := Some(IoFailed);
      } else if n != length {
        error := Some(ShortTransfer);
      }
    }

    /** The single forward pass over the files. */
    method WriteFiles(data: Bytes, offset: nat, io: seq<IoOutcome>)
      returns (written: nat, error: Option<StorageError>)
      requires Valid() && offset + |data| <= total && |io| == |files|
      modifies this`disk
      ensures Progress(disk, written, error) == Pass(files, total, old(disk), data, offset, 0, 0, io)
    {
      written, error := 0, None;
      ghost var start := disk;
      for i := 0 to |files|
        invariant error.None? && Passing(files, total, start, disk, data, offset, i, written, io)
      {
        if written == |data| {
          PassEnds(files, total, start, disk, data, offset, i, written, io);
          break;
        }
        PassTurn(files, total, start, disk, data, offset, i, written, io);
        written, error := WriteFile(i, data, offset, written, io[i]);
        if error.Some? {
          return;
        }
        if i + 1 == |files| {
          PassEnds(files, total, start, disk, data, offset, i + 1, written, io);
        }
      }
    }

    method WriteAtLocked(data: Bytes, offset: nat, io: seq<IoOutcome>)
      returns (written: nat, error: Option<StorageError>)
      requires Valid() && offset + |data| <= total && |io| == |files|
      modifies this`disk
      ensures Progress(disk, written, error) == Pass(files, total, old(disk), data, offset, 0, 0, io)
      ensures WrittenSoFar(files, total, old(disk), disk, data, offset, written)
      ensures error.None? <==> AllServed(files, |files|, offset, |data|, io)
      ensures error.None? ==> written == |data|
    {
      NothingWritten(files, total, disk, data, offset);
      PassWrites(files, total, disk, disk, data, offset, 0, 0, io);
      written, error := WriteFiles(data, offset, io);
      if error.None? && written != |data| {
        error := Some(ShortTransfer);
      }
    }

    method WriteAt(data: Bytes, offset: int, io: seq<IoOutcome>)
      returns (ghost written: nat, error: Option<StorageError>)
      requires Valid() && |io| == |files|
      modifies this`disk
      ensures Valid()
      ensures closed ==> error == Some(Closed)
      ensures !closed && !InRange(offset, |data|, total) ==> error == Some(OutOfRange)
      ensures closed || !InRange(offset, |data|, total) ==> disk == old(disk)
      ensures !closed && InRange(offset, |data|, total) ==>
        && Progress(disk, written, error) == Pass(files, total, old(disk), data, offset, 0, 0, io)
        && WrittenSoFar(files, total, old(disk), disk, data, offset, written)
        && (error.None? <==> AllServed(files, |files|, offset, |data|, io))
        && (error.None? ==> written == |data|)
    {
      written := 0;
      if closed {
        return 0, Some(Closed);
      }
      if offset < 0 || offset > total || |data| > total - offset {
        return 0, Some(OutOfRange);
      }
      written, error := WriteAtLocked(data, offset, io);
    }

    /** Writes a verified piece at its torrent offset. */
    method WritePiece(index: int, standardPieceLength: int, data: Bytes, io: seq<IoOutcome>)
      returns (ghost written: nat, error: Option<StorageError>)
      requires Valid() && |io| == |files| && index <= MAX_INT64 && standardPieceLength <= MAX_INT64
      modifies this`disk
      ensures Valid()
      ensures var offset := index * standardPieceLength;
        if index < 0 || standardPieceLength <= 0 || offset > MAX_INT64 || closed || !InRange(offset, |data|, total) then
          error.Some? && disk == old(disk)
        else
          && Progress(disk, written, error) == Pass(files, total, old(disk), data, offset, 0, 0, io)
          && WrittenSoFar(files, total, old(disk), disk, data, offset, written)
          && (error.None? <==> AllServed(files, |files|, offset, |data|, io))
          && (error.None? ==> written == |data|)
    {
      written := 0;
      if index < 0 || standardPieceLength <= 0 {
        return 0, Some(OutOfRange);
      }
      var offset := Wrap64(index * standardPieceLength);
      PieceOffsetCheck(index, standardPieceLength);
      if index != 0 && TruncDiv(offset, index) != standardPieceLength {
        return 0, Some(OutOfRange);
      }
      written, error := WriteAt(data, offset, io);
    }

    /** One file of a read: skipped if the read position is not in it; otherwise
        opened, read up to its end or the end of the buffer, and closed. */
    method ReadFile(i: nat, buffer: array<Byte>, offset: nat, read: nat, io: IoOutcome)
      returns (now: nat, error: Option<StorageError>)
      requires i < |files| && Fits(files[i], disk) && read <= buffer.Length
      modifies buffer
      ensures var r := ReadSpan(files[i], disk, offset, buffer.Length, read, io);
        && now == read + |r.chunk| <= buffer.Length && error == r.error
        && buffer[..now] == old(buffer[..read]) + r.chunk
    {
      var span, position := files[i], offset + read;
      now, error := read, None;
      if read == buffer.Length || position < span.start || position >= span.end {
        return;
      }
      var length := Min(buffer.Length - read, span.end - position);
      if !io.opens {
        return now, Some(IoFailed);
      }
      var n := Min(io.moved, length);
      CopyInto(buffer, read, disk[span.path][position - span.start..position - span.start + n]);
      now := read + n;
      if io.failed || io.closeFailed {
        error := Some(IoFailed);
      } else if n != length {
        error := Some(ShortTransfer);
      }
    }

    /** Fills the buffer with the torrent bytes from offset on. */
    method ReadAt(buffer: array<Byte>, offset: int, io: seq<IoOutcome>) returns (error: Option<StorageError>)
      requires Valid() && |io| == |files|
      modifies buffer
      ensures |Content()| == total
      ensures error.None? <==> !closed && InRange(offset, buffer.Length, total)
                               && AllServed(files, |files|, offset, buffer.Length, io)
      ensures error.None? ==> buffer[..] == Content()[offset..offset + buffer.Length]
    {
      FlatLength(files, 0, total, disk);
      if closed {
        return Some(Closed);
      }
      if offset < 0 || offset > total || buffer.Length > total - offset {
        return Some(OutOfRange);
      }
      var read: nat := 0;
      error := None;
      for i := 0 to |files|
        invariant error.None? && read <= buffer.Length
        invariant ReadingUpTo(files, total, disk, i, offset, buffer.Length, buffer[..read], io)
      {
        if read == buffer.Length {
          ReadEnds(files, total, disk, i, offset, buffer.Length, buffer[..read], io);
          break;
        }
        ReadTurn(files, total, disk, i, offset, buffer.Length, buffer[..read], io);
        read, error := ReadFile(i, buffer, offset, read, io[i]);
        if error.Some? {
          return;
        }
        if i + 1 == |files| {
          ReadEnds(files, total, disk, i + 1, offset, buffer.Length, buffer[..read], io);
        }
      }
      if read != buffer.Length {
        error := Some(ShortTransfer);
      }
    }

    /** Syncs file after file and renames the partial tree; afterwards the storage is
        closed. An existing destination, or one that cannot be looked up, is never replaced. */
    method Complete(destination: Lookup, io: seq<SyncOutcome>, renamed: bool) returns (ok: bool)
      requires Valid() && |io| == |files|
      modifies this`closed, this`completed
      ensures ok <==> !old(closed) && destination.Absent? && AllSynced(io, |io|) && renamed
      ensures closed == (old(closed) || ok) && completed == (old(completed) || ok)
    {
      if closed {
        return false;
      }
      if !destination.Absent? {
        return false;
      }
      for i := 0 to |files|
        invariant AllSynced(io, i) && closed == old(closed) && completed == old(completed)
      {
        if !io[i].opens || !io[i].syncs || !io[i].closes {
          return false;
        }
      }
      if !renamed {
        return false;
      }
      closed, completed := true, true;
      return true;
    }

    method Close()
      modifies this`closed
      ensures closed
    {
      if closed {
        return;
      }
      closed := true;
    }
  }
}
