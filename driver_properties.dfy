/** What main's loop guarantees across cycles. */
module DriverProperties {
  import opened Wrappers
  import opened Registers
  import opened Events
  import opened StateDiff
  import opened Driver

  /** Cycles whose read is rejected do nothing at all: the stored snapshot
      stays and no event, halt or volume change happens. */
  lemma {:induction false} RejectedReadsChangeNothing(s: Status, polls: seq<BusRead>)
    requires forall i :: 0 <= i < |polls| ==> !Accepted(polls[i])
    decreases |polls|
    ensures Replay(s, polls) == s
    ensures Trace(s, polls) == []
  {
    if polls != [] {
      RejectedReadsChangeNothing(s, polls[..|polls| - 1]);
    }
  }

  /** After a run, the stored snapshot is, in every field, the buffer of the
      last accepted read. */
  lemma {:induction false} ReplayIsLastAccepted(s: Status, polls: seq<BusRead>, k: nat)
    requires k < |polls| && Accepted(polls[k])
    requires forall j :: k < j < |polls| ==> !Accepted(polls[j])
    decreases |polls|
    ensures Replay(s, polls) == polls[k].buffer
  {
    var last := |polls| - 1;
    if k < last {
      ReplayIsLastAccepted(s, polls[..last], k);
    }
  }

  /** The effects of the first k cycles are a prefix of the whole trace. */
  lemma {:induction false} TracePrefix(s: Status, polls: seq<BusRead>, k: nat)
    requires k <= |polls|
    decreases |polls|
    ensures Trace(s, polls[..k]) <= Trace(s, polls)
  {
    if k < |polls| {
      var before := polls[..|polls| - 1];
      assert before[..k] == polls[..k];
      TracePrefix(s, before, k);
    } else {
      assert polls[..k] == polls;
    }
  }

  /** The trace of the first k + 1 cycles extends that of the first k by the
      effects of cycle k. */
  lemma TraceStep(s: Status, polls: seq<BusRead>, k: nat)
    requires k < |polls|
    ensures Trace(s, polls[..k + 1]) == Trace(s, polls[..k]) + Effects(Replay(s, polls[..k]), polls[k])
  {
    var pre := polls[..k + 1];
    assert pre[..|pre| - 1] == polls[..k];
    assert pre[|pre| - 1] == polls[k];
  }

  lemma VolumeForwarded(p: Status, c: Status)
    requires c.audioVolume != p.audioVolume
    ensures SetVolume(c.audioVolume) in CycleActions(p, c)
  {
    DispatchOrder(Diff(p, c), p, c);
  }

  /** From a stored volume outside what the hardware reports, the first
      accepted read forwards its volume whatever it is, as long as it lies in
      0..100. */
  lemma FirstVolumeForcedFrom(s: Status, polls: seq<BusRead>, k: nat)
    requires s.audioVolume > MaxReportedVolume
    requires k < |polls| && Accepted(polls[k])
    requires forall j :: 0 <= j < k ==> !Accepted(polls[j])
    requires polls[k].buffer.audioVolume <= MaxReportedVolume
    ensures SetVolume(polls[k].buffer.audioVolume) in Trace(s, polls[..k + 1])
    ensures SetVolume(polls[k].buffer.audioVolume) in Trace(s, polls)
  {
    var v := SetVolume(polls[k].buffer.audioVolume);
    assert v in Trace(s, polls[..k + 1]) by {
      FirstAcceptedCycle(s, polls, k);
      VolumeForwarded(s, polls[k].buffer);
    }
    InLaterTrace(s, polls, k + 1, v);
  }

  /** An action done within the first k cycles is done in the whole run. */
  lemma InLaterTrace(s: Status, polls: seq<BusRead>, k: nat, x: Action)
    requires k <= |polls| && x in Trace(s, polls[..k])
    ensures x in Trace(s, polls)
  {
    TracePrefix(s, polls, k);
    var a := Trace(s, polls[..k]);
    var i :| 0 <= i < |a| && a[i] == x;
    assert Trace(s, polls)[i] == x;
  }

  /** Up to and including the first accepted read, the trace is that read's
      cycle against the starting snapshot. */
  lemma FirstAcceptedCycle(s: Status, polls: seq<BusRead>, k: nat)
    requires k < |polls| && Accepted(polls[k])
    requires forall j :: 0 <= j < k ==> !Accepted(polls[j])
    ensures Trace(s, polls[..k + 1]) == CycleActions(s, polls[k].buffer)
  {
    RejectedReadsChangeNothing(s, polls[..k]);
    TraceStep(s, polls, k);
  }

  /** The driver starts from volume 255, so its first accepted read forwards
      the reported volume. */
  lemma FirstVolumeForced(polls: seq<BusRead>, k: nat)
    requires k < |polls| && Accepted(polls[k])
    requires forall j :: 0 <= j < k ==> !Accepted(polls[j])
    requires polls[k].buffer.audioVolume <= MaxReportedVolume
    ensures SetVolume(polls[k].buffer.audioVolume) in Trace(InitialStatus(), polls)
  {
    InitialVolumeIsSentinel();
    FirstVolumeForcedFrom(InitialStatus(), polls, k);
  }

  /** Accepted reads whose shutdown flag is set. */
  function AcceptedShutdowns(polls: seq<BusRead>): (n: nat)
    decreases |polls|
    ensures n <= |polls|
  {
    if polls == [] then 0
    else
      var r := polls[|polls| - 1];
      AcceptedShutdowns(polls[..|polls| - 1]) + (if Accepted(r) && ShutdownRequested(r.buffer) then 1 else 0)
  }

  lemma CycleHalts(p: Status, c: Status)
    ensures multiset(CycleActions(p, c))[Halt] == if ShutdownRequested(c) then 1 else 0
  {
    DispatchHalts(Diff(p, c), p, c);
  }

  lemma DispatchHalts(es: seq<Event>, p: Status, c: Status)
    ensures multiset(Dispatch(es, p, c))[Halt] == if ShutdownRequested(c) then 1 else 0
  {
    assert Halt !in EmitAll(es);
    assert Halt !in VolumeAction(p, c);
  }

  /** Shutdown is a level, not an edge: a halt is requested once in every
      accepted cycle whose flag is set, even when the flag was already set in
      the previous cycle, and never otherwise. */
  lemma {:induction false} HaltPerAcceptedFlag(s: Status, polls: seq<BusRead>)
    decreases |polls|
    ensures multiset(Trace(s, polls))[Halt] == AcceptedShutdowns(polls)
  {
    if polls != [] {
      var before := polls[..|polls| - 1];
      HaltPerAcceptedFlag(s, before);
      var r := polls[|polls| - 1];
      if Accepted(r) {
        CycleHalts(Replay(s, before), r.buffer);
      }
    }
  }

  /** One accepted cycle from a stored snapshot with both sticks centred at
      128 and volume 255: button A pressed and the first stick moved to 64,
      with the volume reported as 37. */
  lemma PressAndMoveScenario()
    ensures CycleActions(Status(0, 128, 128, 0, 255), Status(1, 64, 128, 0, 37)) ==
      [Emit(Key(BtnA, 1)), Emit(Abs(AbsX, -256)), SetVolume(37)]
  {
    var p := Status(0, 128, 128, 0, 255);
    var c := Status(1, 64, 128, 0, 37);
    var es := [Key(BtnA, 1), Abs(AbsX, -256)];
    assert Diff(p, c) == es by {
      assert KeyEvents(p, c, 0, 8) == [Key(BtnA, 1)];
      assert DpadEvents(false, p, c) == [];
      assert AxisEvents(p, c) == [Abs(AbsX, -256)];
    }
    assert EmitAll(es) == [Emit(Key(BtnA, 1)), Emit(Abs(AbsX, -256))];
  }
}
