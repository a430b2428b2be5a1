/** The piece manager object and the protocol describe the same behaviour: one
    undisturbed CompletePiece call is a run of the protocol. */
module Refinement {
  import opened ByteStrings
  import opened Storage
  import opened Pieces
  import opened Protocol

  // ----- CompletePiece -----

  function WriteSteps(caller: nat, io: seq<IoOutcome>): seq<Step> {
    if io == [] then [] else [WriteOneFile(caller, io[0])] + WriteSteps(caller, io[1..])
  }

  /** The steps of one call between its first critical section and its last. */
  function MiddleSteps(caller: nat, io: seq<IoOutcome>): seq<Step> {
    [Check(caller)] + ([StartWrite(caller)] + (WriteSteps(caller, io) + [EndWrite(caller)]))
  }

  /** The steps of one call that nobody interrupts. Of the last two one has no effect. */
  function CallSteps(caller: nat, index: int, data: Bytes, io: seq<IoOutcome>): seq<Step> {
    [Begin(caller, index, data)] + (MiddleSteps(caller, io) + ([Publish(caller)] + [Reset(caller)]))
  }

  lemma RunCons(c: Config, s: State, step: Step, rest: seq<Step>)
    requires Inv(c, s)
    ensures Inv(c, Apply(c, s, step)) && Run(c, s, [step] + rest) == Run(c, Apply(c, s, step), rest)
  {
    StepKeepsInv(c, s, step);
    assert ([step] + rest)[1..] == rest;
  }

  /** Steps of a call in another phase do nothing. */
  lemma {:induction false} WritesDoNothing(c: Config, s: State, caller: nat, io: seq<IoOutcome>)
    requires Inv(c, s) && !IsWriting(s, caller)
    ensures Run(c, s, WriteSteps(caller, io)) == s
    decreases |io|
  {
    if io != [] {
      RunCons(c, s, WriteOneFile(caller, io[0]), WriteSteps(caller, io[1..]));
      WritesDoNothing(c, s, caller, io[1..]);
    }
  }

  function Moved(s: State, caller: nat, p: Progress, end: nat): State
    requires caller in s.calls
  {
    MoveTo(s.(disk := p.disk), caller, if p.error.Some? then Failed else Writing(end, p.written))
  }

  /** The rest of a writing call's pass, from file k on. */
  function PassFrom(c: Config, disk: Disk, call: Call, k: nat, io: seq<IoOutcome>): Progress
    requires WellLaid(c.spans, c.total, disk) && k <= |c.spans| == |io|
    requires call.phase.Writing? && call.phase.written <= |call.data|
  {
    Pass(c.spans, c.total, disk, call.data, c.Offset(call.index), k, call.phase.written, io)
  }

  lemma OneFile(c: Config, s: State, caller: nat, k: nat, io: IoOutcome)
    requires Inv(c, s) && IsWriting(s, caller) && k < |c.spans| && s.calls[caller].phase.next == k
    ensures var call := s.calls[caller];
      && call.phase.written <= |call.data|
      && Apply(c, s, WriteOneFile(caller, io))
         == Moved(s, caller,
                  WriteSpan(c.spans[k], s.disk, call.data, c.Offset(call.index), call.phase.written, io), k + 1)
  {
    assert CallOk(c, s.disk, s.calls[caller]);
  }

  lemma MovedTwice(s: State, caller: nat, p: Progress, k: nat, q: Progress, end: nat)
    requires caller in s.calls
    ensures Moved(Moved(s, caller, p, k), caller, q, end) == Moved(s, caller, q, end)
  {
    var a, b := Moved(Moved(s, caller, p, k), caller, q, end), Moved(s, caller, q, end);
    assert a.calls == b.calls;
  }

  lemma {:induction false} WholePass(c: Config, s: State, caller: nat, k: nat, io: seq<IoOutcome>)
    requires Inv(c, s) && IsWriting(s, caller) && k <= |c.spans| == |io| && s.calls[caller].phase.next == k
    ensures var call := s.calls[caller];
      && call.phase.written <= |call.data|
      && Run(c, s, WriteSteps(caller, io[k..]))
         == Moved(s, caller, PassFrom(c, s.disk, call, k, io), |c.spans|)
    decreases |io| - k
  {
    var call := s.calls[caller];
    assert CallOk(c, s.disk, call);
    if k == |io| {
      assert s.calls[caller := call.(phase := call.phase)] == s.calls;
    } else {
      assert io[k..][0] == io[k] && io[k..][1..] == io[k + 1..];
      RunCons(c, s, WriteOneFile(caller, io[k]), WriteSteps(caller, io[k + 1..]));
      OneFile(c, s, caller, k, io[k]);
      AfterOneFile(c, s, caller, k, io);
    }
  }

  lemma {:induction false} AfterOneFile(c: Config, s: State, caller: nat, k: nat, io: seq<IoOutcome>)
    requires Inv(c, s) && IsWriting(s, caller) && k < |c.spans| == |io| && s.calls[caller].phase.next == k
    requires s.calls[caller].phase.written <= |s.calls[caller].data|
    requires var call := s.calls[caller];
      var p := WriteSpan(c.spans[k], s.disk, call.data, c.Offset(call.index), call.phase.written, io[k]);
      Inv(c, Moved(s, caller, p, k + 1))
    ensures var call := s.calls[caller];
      var p := WriteSpan(c.spans[k], s.disk, call.data, c.Offset(call.index), call.phase.written, io[k]);
      Run(c, Moved(s, caller, p, k + 1), WriteSteps(caller, io[k + 1..]))
        == Moved(s, caller, PassFrom(c, s.disk, call, k, io), |c.spans|)
    decreases |io| - k, 0
  {
    var call := s.calls[caller];
    var p := WriteSpan(c.spans[k], s.disk, call.data, c.Offset(call.index), call.phase.written, io[k]);
    var t := Moved(s, caller, p, k + 1);
    if p.error.Some? {
      WritesDoNothing(c, t, caller, io[k + 1..]);
    } else {
      WholePass(c, t, caller, k + 1, io);
      MovedTwice(s, caller, p, k + 1, PassFrom(c, p.disk, t.calls[caller], k + 1, io), |c.spans|);
    }
  }

  /** s while the call for piece `index` is in the given phase. */
  function During(s: State, caller: nat, index: nat, data: Bytes, phase: Phase, disk: Disk): State
    requires index < |s.pieces|
  {
    s.(pieces := s.pieces[index := Verifying], calls := s.calls[caller := Call(index, data, phase)], disk := disk)
  }

  /** s after the call has left its piece in the given state. */
  function Left(s: State, index: nat, state: PieceState, disk: Disk): State
    requires index < |s.pieces|
  {
    Notify(s.(pieces := s.pieces[index := state], disk := disk))
  }

  lemma MoveDuring(s: State, caller: nat, index: nat, data: Bytes, phase: Phase, disk: Disk, next: Phase, now: Disk)
    requires index < |s.pieces|
    ensures MoveTo(During(s, caller, index, data, phase, disk).(disk := now), caller, next)
         == During(s, caller, index, data, next, now)
  {
    var a := MoveTo(During(s, caller, index, data, phase, disk).(disk := now), caller, next);
    var b := During(s, caller, index, data, next, now);
    assert a.calls == b.calls;
  }

  lemma LeaveDuring(s: State, caller: nat, index: nat, data: Bytes, phase: Phase, disk: Disk, state: PieceState)
    requires index < |s.pieces| && caller !in s.calls
    ensures Leave(During(s, caller, index, data, phase, disk), caller, state) == Left(s, index, state, disk)
  {
    var t := During(s, caller, index, data, phase, disk);
    assert t.calls - {caller} == s.calls;
    assert t.pieces[index := state] == s.pieces[index := state];
  }

  /** The phase of a call after its length and hash check, and after opening the storage. */
  function AfterCheck(c: Config, index: nat, data: Bytes): Phase {
    if Matches(c, index, data) then Opening else Failed
  }

  function AfterStart(c: Config, s: State, index: nat, data: Bytes): Phase {
    if Matches(c, index, data) && !s.closed then Writing(0, 0) else Failed
  }

  lemma CheckStep(c: Config, s: State, caller: nat, index: nat, data: Bytes)
    requires Laid(c.spans, s.disk) && index < |s.pieces|
    ensures Apply(c, During(s, caller, index, data, Checking, s.disk), Check(caller))
         == During(s, caller, index, data, AfterCheck(c, index, data), s.disk)
  {
    var t := During(s, caller, index, data, Checking, s.disk);
    MoveDuring(s, caller, index, data, Checking, s.disk, AfterCheck(c, index, data), s.disk);
    assert t.(disk := s.disk) == t;
  }

  lemma StartStep(c: Config, s: State, caller: nat, index: nat, data: Bytes)
    requires c.Valid() && Laid(c.spans, s.disk) && index < |s.pieces| == |c.hashes|
    ensures Apply(c, During(s, caller, index, data, AfterCheck(c, index, data), s.disk), StartWrite(caller))
         == During(s, caller, index, data, AfterStart(c, s, index, data), s.disk)
  {
    var checked := AfterCheck(c, index, data);
    var t := During(s, caller, index, data, checked, s.disk);
    PieceExtent(c.total, c.pieceLength, index);
    MoveDuring(s, caller, index, data, checked, s.disk, AfterStart(c, s, index, data), s.disk);
    assert t.(disk := s.disk) == t;
  }

  /** The end of the write, of a call that has been through all files or has failed. */
  lemma EndStep(c: Config, s: State, caller: nat, index: nat, data: Bytes, phase: Phase, disk: Disk)
    requires Laid(c.spans, disk) && index < |s.pieces| && (phase == Failed || phase == Writing(|c.spans|, |data|))
    ensures Apply(c, During(s, caller, index, data, phase, disk), EndWrite(caller))
         == During(s, caller, index, data, if phase == Failed then Failed else Written, disk)
  {
    MoveDuring(s, caller, index, data, phase, disk, Written, disk);
  }

  /** A call in the state after StartWrite goes through the files and ends its write. */
  lemma WritesAndEnd(c: Config, s: State, caller: nat, index: nat, data: Bytes, io: seq<IoOutcome>)
    requires index < |s.pieces| && caller !in s.calls && |io| == |c.spans|
    requires Inv(c, During(s, caller, index, data, AfterStart(c, s, index, data), s.disk))
    ensures Run(c, During(s, caller, index, data, AfterStart(c, s, index, data), s.disk),
                WriteSteps(caller, io) + [EndWrite(caller)])
         == During(s, caller, index, data, if Storable(c, s.closed, index, data, io) then Written else Failed,
                   DiskAfter(c, s.closed, s.disk, index, data, io))
  {
    AllWrites(c, s, caller, index, data, io);
    var t := During(s, caller, index, data, AfterStart(c, s, index, data), s.disk);
    RunSnoc(c, t, WriteSteps(caller, io), EndWrite(caller));
    EndStep(c, s, caller, index, data,
            if Storable(c, s.closed, index, data, io) then Writing(|c.spans|, |data|) else Failed,
            DiskAfter(c, s.closed, s.disk, index, data, io));
  }

  lemma AllWrites(c: Config, s: State, caller: nat, index: nat, data: Bytes, io: seq<IoOutcome>)
    requires index < |s.pieces| && caller !in s.calls && |io| == |c.spans|
    requires Inv(c, During(s, caller, index, data, AfterStart(c, s, index, data), s.disk))
    ensures Run(c, During(s, caller, index, data, AfterStart(c, s, index, data), s.disk), WriteSteps(caller, io))
         == During(s, caller, index, data,
                   if Storable(c, s.closed, index, data, io) then Writing(|c.spans|, |data|) else Failed,
                   DiskAfter(c, s.closed, s.disk, index, data, io))
  {
    var t := During(s, caller, index, data, AfterStart(c, s, index, data), s.disk);
    if Matches(c, index, data) && !s.closed {
      var p := Pass(c.spans, c.total, s.disk, data, c.Offset(index), 0, 0, io);
      PieceExtent(c.total, c.pieceLength, index);
      NothingWritten(c.spans, c.total, s.disk, data, c.Offset(index));
      PassWrites(c.spans, c.total, s.disk, s.disk, data, c.Offset(index), 0, 0, io);
      assert io[0..] == io;
      WholePass(c, t, caller, 0, io);
      var phase := if p.error.Some? then Failed else Writing(|c.spans|, p.written);
      MoveDuring(s, caller, index, data, Writing(0, 0), s.disk, phase, p.disk);
    } else {
      WritesDoNothing(c, t, caller, io);
    }
  }

  /** Everything between the two critical sections of a call, undisturbed. */
  lemma Middle(c: Config, s: State, caller: nat, index: nat, data: Bytes, io: seq<IoOutcome>)
    requires index < |s.pieces| && caller !in s.calls && |io| == |c.spans|
    requires Inv(c, During(s, caller, index, data, Checking, s.disk))
    ensures Run(c, During(s, caller, index, data, Checking, s.disk), MiddleSteps(caller, io))
         == During(s, caller, index, data, if Storable(c, s.closed, index, data, io) then Written else Failed,
                   DiskAfter(c, s.closed, s.disk, index, data, io))
  {
    var t := During(s, caller, index, data, Checking, s.disk);
    var rest := WriteSteps(caller, io) + [EndWrite(caller)];
    RunCons(c, t, Check(caller), [StartWrite(caller)] + rest);
    CheckStep(c, s, caller, index, data);
    var t1 := During(s, caller, index, data, AfterCheck(c, index, data), s.disk);
    RunCons(c, t1, StartWrite(caller), rest);
    StartStep(c, s, caller, index, data);
    WritesAndEnd(c, s, caller, index, data, io);
  }

  /** The last critical section, whichever of the two it is. */
  lemma LastSection(c: Config, s: State, caller: nat, index: nat, data: Bytes, phase: Phase, disk: Disk)
    requires index < |s.pieces| && caller !in s.calls && (phase == Written || phase == Failed)
    requires Inv(c, During(s, caller, index, data, phase, disk))
    ensures Run(c, During(s, caller, index, data, phase, disk), [Publish(caller)] + [Reset(caller)])
         == Left(s, index, if phase == Written then Complete else Missing, disk)
  {
    var t := During(s, caller, index, data, phase, disk);
    LeaveDuring(s, caller, index, data, phase, disk, Complete);
    LeaveDuring(s, caller, index, data, phase, disk, Missing);
    RunCons(c, t, Publish(caller), [Reset(caller)]);
    RunCons(c, Apply(c, t, Publish(caller)), Reset(caller), []);
    assert [Reset(caller)] + [] == [Reset(caller)];
  }

  lemma NoLastSection(c: Config, s: State, caller: nat)
    requires Inv(c, s) && caller !in s.calls
    ensures Run(c, s, [Publish(caller)] + [Reset(caller)]) == s
  {
    RunCons(c, s, Publish(caller), [Reset(caller)]);
    RunCons(c, s, Reset(caller), []);
    assert [Reset(caller)] + [] == [Reset(caller)];
  }

  lemma NoMiddle(c: Config, s: State, caller: nat, io: seq<IoOutcome>)
    requires Inv(c, s) && caller !in s.calls
    ensures Run(c, s, MiddleSteps(caller, io)) == s
  {
    var rest := WriteSteps(caller, io) + [EndWrite(caller)];
    RunCons(c, s, Check(caller), [StartWrite(caller)] + rest);
    RunCons(c, s, StartWrite(caller), rest);
    RunConcat(c, s, WriteSteps(caller, io), [EndWrite(caller)]);
    WritesDoNothing(c, s, caller, io);
    RunCons(c, s, EndWrite(caller), []);
    assert [EndWrite(caller)] + [] == [EndWrite(caller)];
  }

  /** One call of CompletePiece that nobody interrupts is a run of the protocol, and
      the run has the outcome that Manager.PieceManager.CompletePiece promises. */
  lemma UndisturbedCall(c: Config, s: State, caller: nat, index: int, data: Bytes, io: seq<IoOutcome>)
    requires Inv(c, s) && caller !in s.calls && |io| == |c.spans|
    ensures Run(c, s, CallSteps(caller, index, data, io))
         == if !IsState(s.pieces, index, Downloading) then s
            else Left(s, index, if Storable(c, s.closed, index, data, io) then Complete else Missing,
                      DiskAfter(c, s.closed, s.disk, index, data, io))
  {
    var last := [Publish(caller)] + [Reset(caller)];
    RunCons(c, s, Begin(caller, index, data), MiddleSteps(caller, io) + last);
    var begun := Apply(c, s, Begin(caller, index, data));
    RunConcat(c, begun, MiddleSteps(caller, io), last);
    if IsState(s.pieces, index, Downloading) {
      assert begun == During(s, caller, index, data, Checking, s.disk);
      Middle(c, s, caller, index, data, io);
      LastSection(c, s, caller, index, data, if Storable(c, s.closed, index, data, io) then Written else Failed,
                  DiskAfter(c, s.closed, s.disk, index, data, io));
    } else {
      NoMiddle(c, s, caller, io);
      NoLastSection(c, s, caller);
    }
  }
}
