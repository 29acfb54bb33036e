/** The poll loop of main: read the registers, reject a read of the wrong
    length, otherwise dispatch the diff, the shutdown request and the volume
    change, then store the new snapshot. */
module Driver {
  import opened Wrappers
  import opened Registers
  import opened Events
  import opened StateDiff

  /** What one readI2CSlave call leaves behind: the byte count it returned
      (0 when the slave could not be addressed, negative on a read error) and
      the struct it read into. The buffer only has meaning on a full read. */
  datatype BusRead = BusRead(count: int, buffer: Status)

  /** The length test of readI2CJoystick: exactly sizeof(I2CJoystickStatus)
      bytes were read. */
  predicate Accepted(r: BusRead) {
    r.count == StatusSize
  }

  /** readI2CJoystick: a read of exactly sizeof(I2CJoystickStatus) bytes
      yields the snapshot; every other count is an error. */
  function ReadJoystick(r: BusRead): (res: Option<Status>)
    ensures res.Some? <==> r.count == StatusSize
    ensures res.Some? ==> res.value == r.buffer
  {
    if !Accepted(r) then None else Some(r.buffer)
  }

  /** One externally visible effect of a cycle: an event written to the
      virtual device, a call of system("halt"), or SetAlsaMasterVolume. */
  datatype Action = Emit(event: Event) | Halt | SetVolume(level: U8)

  /** The shutdown request is read as a level: any nonzero flag asks for it. */
  predicate ShutdownRequested(c: Status) {
    c.powerDownRequest != 0
  }

  /** The volume is forwarded exactly when it differs from the stored one. */
  function VolumeChange(p: Status, c: Status): (v: Option<U8>)
    ensures v.Some? <==> c.audioVolume != p.audioVolume
    ensures v.Some? ==> v.value == c.audioVolume
  {
    if c.audioVolume != p.audioVolume then Some(c.audioVolume) else None
  }

  function EmitAll(es: seq<Event>): (r: seq<Action>)
    ensures |r| == |es|
    ensures forall i :: 0 <= i < |es| ==> r[i] == Emit(es[i])
  {
    seq(|es|, i requires 0 <= i < |es| => Emit(es[i]))
  }

  /** The effects of an accepted cycle against stored snapshot p, in the
      order main performs them: the diff's events, then the halt, then the
      volume. */
  function CycleActions(p: Status, c: Status): seq<Action> {
    Dispatch(Diff(p, c), p, c)
  }

  /** main's dispatch of the events es of a cycle from p to c. */
  function Dispatch(es: seq<Event>, p: Status, c: Status): seq<Action> {
    EmitAll(es) + HaltAction(c) + VolumeAction(p, c)
  }

  function HaltAction(c: Status): seq<Action> {
    if ShutdownRequested(c) then [Halt] else []
  }

  function VolumeAction(p: Status, c: Status): seq<Action> {
    match VolumeChange(p, c)
    case Some(v) => [SetVolume(v)]
    case None => []
  }

  /** The events come first, each written once in order; then a halt, exactly
      when the new flag is nonzero, whatever the stored snapshot; last a
      volume change, exactly when it changed, to the new value. Nothing else
      is done. */
  lemma DispatchOrder(es: seq<Event>, p: Status, c: Status)
    ensures forall i :: 0 <= i < |Dispatch(es, p, c)| ==>
      (Dispatch(es, p, c)[i].Emit? <==> i < |es|)
    ensures forall i :: 0 <= i < |es| ==> Dispatch(es, p, c)[i] == Emit(es[i])
    ensures Halt in Dispatch(es, p, c) <==> ShutdownRequested(c)
    ensures forall v: U8 :: SetVolume(v) in Dispatch(es, p, c) <==> VolumeChange(p, c) == Some(v)
    ensures |Dispatch(es, p, c)| ==
      |es| + (if ShutdownRequested(c) then 1 else 0) + (if VolumeChange(p, c).Some? then 1 else 0)
    ensures ShutdownRequested(c) ==> Dispatch(es, p, c)[|es|] == Halt
    ensures VolumeChange(p, c).Some? ==>
      Dispatch(es, p, c)[|Dispatch(es, p, c)| - 1] == SetVolume(VolumeChange(p, c).value)
  {
    var e := EmitAll(es);
    var h := HaltAction(c);
    var v := VolumeAction(p, c);
    var r := Dispatch(es, p, c);
    assert r == e + h + v;
    assert Halt !in e && Halt !in v;
    assert forall x: U8 :: SetVolume(x) !in e + h;
    forall i | 0 <= i < |r| ensures r[i].Emit? <==> i < |e| {
      if i >= |e| {
        assert r[i] in h + v;
      }
    }
  }

  /** DispatchOrder for the cycle's own diff. */
  lemma CycleDispatch(p: Status, c: Status)
    ensures forall i :: 0 <= i < |CycleActions(p, c)| ==>
      (CycleActions(p, c)[i].Emit? <==> i < |Diff(p, c)|)
    ensures forall i :: 0 <= i < |Diff(p, c)| ==> CycleActions(p, c)[i] == Emit(Diff(p, c)[i])
    ensures Halt in CycleActions(p, c) <==> ShutdownRequested(c)
    ensures forall v: U8 :: SetVolume(v) in CycleActions(p, c) <==> VolumeChange(p, c) == Some(v)
    ensures |CycleActions(p, c)| ==
      |Diff(p, c)| + (if ShutdownRequested(c) then 1 else 0) + (if VolumeChange(p, c).Some? then 1 else 0)
    ensures ShutdownRequested(c) ==> CycleActions(p, c)[|Diff(p, c)|] == Halt
    ensures VolumeChange(p, c).Some? ==>
      CycleActions(p, c)[|CycleActions(p, c)| - 1] == SetVolume(VolumeChange(p, c).value)
  {
    DispatchOrder(Diff(p, c), p, c);
  }

  /** The stored snapshot after one cycle on read r. */
  function Next(s: Status, r: BusRead): Status {
    match ReadJoystick(r)
    case Some(c) => c
    case None => s
  }

  /** The effects of one cycle on read r from stored snapshot s. */
  function Effects(s: Status, r: BusRead): seq<Action> {
    match ReadJoystick(r)
    case Some(c) => CycleActions(s, c)
    case None => []
  }

  /** The stored snapshot after the cycles on polls, from s. */
  function Replay(s: Status, polls: seq<BusRead>): Status
    decreases |polls|
  {
    if polls == [] then s
    else Next(Replay(s, polls[..|polls| - 1]), polls[|polls| - 1])
  }

  /** Everything the cycles on polls do, from s, in order. */
  function Trace(s: Status, polls: seq<BusRead>): seq<Action>
    decreases |polls|
  {
    if polls == [] then []
    else
      var before := polls[..|polls| - 1];
      Trace(s, before) + Effects(Replay(s, before), polls[|polls| - 1])
  }

  /** The driver's state: the last snapshot it applied. */
  class JoystickDriver {
    var status: Status

    constructor ()
      ensures status == InitialStatus()
    {
      status := InitialStatus();
    }

    /** One iteration of main's loop (the sleep aside). A rejected read does
        nothing and leaves the stored snapshot alone; an accepted one performs
        the cycle's effects and then stores the new snapshot in every field. */
    method Step(r: BusRead) returns (accepted: bool, actions: seq<Action>)
      modifies this
      ensures accepted <==> r.count == StatusSize
      ensures accepted ==> status == r.buffer && actions == CycleActions(old(status), r.buffer)
      ensures !accepted ==> status == old(status) && actions == []
    {
      var read := ReadJoystick(r);
      if read.None? {
        accepted, actions := false, [];
      } else {
        var newStatus := read.value;
        actions := EmitAll(Diff(status, newStatus));
        if ShutdownRequested(newStatus) {
          actions := actions + [Halt];
        }
        if newStatus.audioVolume != status.audioVolume {
          actions := actions + [SetVolume(newStatus.audioVolume)];
        }
        status := newStatus;
        accepted := true;
      }
    }

    /** main's loop over a finite sequence of bus polls. */
    method Run(polls: seq<BusRead>) returns (trace: seq<Action>)
      modifies this
      ensures status == Replay(old(status), polls)
      ensures trace == Trace(old(status), polls)
    {
      ghost var start := status;
      trace := [];
      var i := 0;
      while i < |polls|
        invariant 0 <= i <= |polls|
        invariant status == Replay(start, polls[..i])
        invariant trace == Trace(start, polls[..i])
      {
        assert polls[..i + 1][..i] == polls[..i];
        var _, actions := Step(polls[i]);
        trace := trace + actions;
        i := i + 1;
      }
      assert polls[..|polls|] == polls;
    }
  }
}
