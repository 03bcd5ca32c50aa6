/** What a connection echoes from the device while others, unlocked as well, write to it. */
module DeviceEchoes {
  import opened Prelude
  import opened Framing
  import opened Connection
  import opened CircularBuffer
  import opened DeviceConcurrency
  import opened EndToEnd
  import Spec = DeviceSpec

  /** The latest echo of a connection: `start` counts the calls up to its own write, `got` is what its
      reads have returned since, and `end` counts the calls up to the empty read that ended it. */
  datatype EchoRun = EchoRun(start: nat, got: seq<byte>, end: Option<nat>)

  function EchoOf(events: seq<Event>, id: Tid): EchoRun {
    if events == [] then EchoRun(0, [], None)
    else
      var (earlier, e) := (events[..|events| - 1], events[|events| - 1]);
      EchoWith(EchoOf(earlier, id), |events|, e, id)
  }

  function EchoWith(r: EchoRun, count: nat, e: Event, id: Tid): EchoRun {
    if e.tid != id then r
    else if IsWritten(e) then EchoRun(count, [], None)
    else if e.result.Copied? then
      EchoRun(r.start, r.got + e.result.bytes, if e.result.bytes == [] then Some(count) else None)
    else r
  }

  lemma EchoOfSnoc(events: seq<Event>, e: Event, id: Tid)
    ensures EchoOf(events + [e], id) == EchoWith(EchoOf(events, id), |events| + 1, e, id)
  {
    assert (events + [e])[..|events|] == events;
  }

  /** The connection's reads follow each other from position 0, for a send buffer less one byte each. */
  ghost predicate InTurn(events: seq<Event>, id: Tid) {
    forall i :: 0 <= i < |events| && events[i].tid == id && events[i].result.Copied? ==>
      events[i].call == ReadCall(|EchoOf(events[..i], id).got|, 1023)
  }

  lemma InTurnSnoc(events: seq<Event>, e: Event, id: Tid)
    requires InTurn(events, id)
    requires e.tid == id && e.result.Copied? ==> e.call == ReadCall(|EchoOf(events, id).got|, 1023)
    ensures InTurn(events + [e], id)
  {
    var all := events + [e];
    forall i | 0 <= i < |all| && all[i].tid == id && all[i].result.Copied?
      ensures all[i].call == ReadCall(|EchoOf(all[..i], id).got|, 1023)
    {
      if i < |events| {
        assert all[..i] == events[..i] && all[i] == events[i];
      } else {
        assert all[..i] == events;
      }
    }
  }

  lemma {:induction false} InTurnBefore(events: seq<Event>, id: Tid, n: nat)
    requires InTurn(events, id) && n <= |events|
    ensures InTurn(events[..n], id)
  {
    forall i | 0 <= i < n
      ensures events[..n][..i] == events[..i]
    {
      PrefixOfPrefix(events, n, i);
    }
  }

  /** Where the thread stands in its echo agrees with what its reads have returned. It is back outside
      only when the echo has come to its end, or when it has closed. */
  ghost predicate EchoAt(c: Client, pc: Pc, r: EchoRun) {
    match c.phase
    case Outside => c.conn.state.ClosedConnection? || Answered(r)
    case Writing => Answered(r)
    case InWrite => pc.Releasing? && pc.result.Written? ==> r.start > 0 && r.got == [] && r.end.None?
    case Echoing(pos) => r.start > 0 && pos == |r.got| && r.end.None?
    case InRead(pos) =>
      && r.start > 0
      && (pc.Reading? ==> pc.fPos == pos == |r.got| && pc.count == 1023 && r.end.None?)
      && (pc.Releasing? && pc.result.Copied? ==>
            |r.got| == pos + |pc.result.bytes| && (r.end.None? <==> pc.result.bytes != []))
  }

  /** There has been no write yet, or its echo has come to the empty read. */
  predicate Answered(r: EchoRun) {
    r.start > 0 ==> r.end.Some?
  }

  ghost predicate ClientEchoes(s: State, id: Tid, c: Client) {
    EchoAt(c, s.At(id), EchoOf(s.events, id)) && InTurn(s.events, id)
  }

  ghost predicate EchoInv(s: Server) {
    forall id :: id in s.clients ==> ClientEchoes(s.dev, id, s.clients[id])
  }

  lemma MovingOnEchoes(c: Client, pc: Pc, pc': Pc, step: Step, r: EchoRun)
    requires EchoAt(c, pc, r) && MovesOn(pc, pc', step) && Continue(c, pc, step).Some?
    ensures EchoAt(Continue(c, pc, step).value, pc', r)
  {
  }

  lemma DecidingEchoes(c: Client, pc: Pc, pc': Pc, step: Step, e: Event, events: seq<Event>)
    requires CallOk(c, pc) && EchoAt(c, pc, EchoOf(events, e.tid)) && Decides(pc, pc', step, e.call, e.result)
    ensures EchoAt(c, pc', EchoWith(EchoOf(events, e.tid), |events| + 1, e, e.tid))
    ensures e.result.Copied? ==> e.call == ReadCall(|EchoOf(events, e.tid).got|, 1023)
  {
  }

  lemma OwnEchoStep(s: Server, dev: State, step: Step)
    requires step.t in s.clients && ClientOk(s.dev, step.t, s.clients[step.t])
    requires ClientEchoes(s.dev, step.t, s.clients[step.t])
    requires Shape(s.dev, dev, step) && Continue(s.clients[step.t], s.dev.At(step.t), step).Some?
    ensures ClientEchoes(dev, step.t, Continue(s.clients[step.t], s.dev.At(step.t), step).value)
  {
    var (id, c, pc, pc') := (step.t, s.clients[step.t], s.dev.At(step.t), dev.At(step.t));
    if dev.events == s.dev.events && MovesOn(pc, pc', step) {
      MovingOnEchoes(c, pc, pc', step, EchoOf(s.dev.events, id));
    } else {
      var call, result :| && dev.events == s.dev.events + [Event(id, call, result)]
                          && Decides(pc, pc', step, call, result);
      var e := Event(id, call, result);
      DecidingEchoes(c, pc, pc', step, e, s.dev.events);
      EchoOfSnoc(s.dev.events, e, id);
      InTurnSnoc(s.dev.events, e, id);
    }
  }

  lemma OthersEcho(s: State, s': State, t: Tid, u: Tid, c: Client)
    requires s'.At(u) == s.At(u) && u != t && ClientEchoes(s, u, c)
    requires s'.events == s.events || exists e :: s'.events == s.events + [e] && e.tid == t
    ensures ClientEchoes(s', u, c)
  {
    if s'.events != s.events {
      var e :| s'.events == s.events + [e] && e.tid == t;
      EchoOfSnoc(s.events, e, u);
      InTurnSnoc(s.events, e, u);
    }
  }

  lemma DeviceMoveEchoes(s: Server, step: Step)
    requires ServerInv(s) && EchoInv(s) && MoveTo(s, EndToEnd.Device(step)).Some?
    ensures EchoInv(MoveTo(s, EndToEnd.Device(step)).value)
  {
    var s' := MoveTo(s, EndToEnd.Device(step)).value;
    NextShape(s.dev, step);
    OwnEchoStep(s, s'.dev, step);
    OwnDeviceStep(s, s'.dev, step);
    forall u | u in s'.clients
      ensures ClientEchoes(s'.dev, u, s'.clients[u])
    {
      if u != step.t {
        NextLeavesOthers(s.dev, step, u);
        OthersEcho(s.dev, s'.dev, step.t, u, s.clients[u]);
      }
    }
  }

  lemma {:induction false} NoEchoYet(events: seq<Event>, id: Tid)
    requires forall i :: 0 <= i < |events| ==> events[i].tid != id
    ensures EchoOf(events, id) == EchoRun(0, [], None)
  {
    if events != [] {
      NoEchoYet(events[..|events| - 1], id);
    }
  }

  lemma ClientMoveEchoes(s: Server, move: Move)
    requires ServerInv(s) && EchoInv(s) && !move.Device? && MoveTo(s, move).Some?
    ensures EchoInv(MoveTo(s, move).value)
  {
    var s' := MoveTo(s, move).value;
    assert s'.dev == s.dev && s'.clients == s.clients[move.id := s'.clients[move.id]];
    if move.Connect? {
      NoEchoYet(s.dev.events, move.id);
    }
    forall u | u in s'.clients
      ensures ClientEchoes(s'.dev, u, s'.clients[u])
    {
      assert u != move.id ==> ClientEchoes(s.dev, u, s.clients[u]);
    }
  }

  lemma {:induction false} RunEchoes(n: nat, moves: seq<Move>)
    requires RunServer(n, moves).Some?
    ensures EchoInv(RunServer(n, moves).value)
  {
    if moves != [] {
      var (earlier, move) := (moves[..|moves| - 1], moves[|moves| - 1]);
      var steps := ServerRuns(n, earlier);
      RunEchoes(n, earlier);
      if move.Device? {
        DeviceMoveEchoes(RunServer(n, earlier).value, move.step);
      } else {
        ClientMoveEchoes(RunServer(n, earlier).value, move);
      }
    }
  }

  /** What the device shows after these calls. */
  function Shown(n: nat, events: seq<Event>): seq<byte> {
    Flatten(LastN(n, AllWritten(events)))
  }

  ghost predicate WritesPackets(events: seq<Event>) {
    forall i :: 0 <= i < |events| && events[i].call.WriteCall? ==> IsPacket(events[i].call.data)
  }

  /** No commit after the first `start` calls has pushed a packet out. */
  ghost predicate NoEviction(n: nat, events: seq<Event>, start: nat)
    requires start <= |events|
  {
    |AllWritten(events)| <= n || |AllWritten(events)| == |AllWritten(events[..start])|
  }

  lemma ReplayShows(n: nat, events: seq<Event>)
    requires Replay(n, events).Some? && WritesPackets(events)
    ensures Replay(n, events).value == Spec.DevState([], LastN(n, AllWritten(events)))
  {
    ReplayIsRun(n, events);
    AcceptedIsWritten(events);
    Spec.WholeLinesAreEntries(n, Attempts(events));
  }

  lemma {:induction false} AllWrittenBefore(events: seq<Event>, i: nat)
    requires i <= |events|
    ensures AllWritten(events[..i]) <= AllWritten(events)
  {
    if i < |events| {
      AllWrittenBefore(events[..|events| - 1], i);
      PrefixOfPrefix(events, |events| - 1, i);
    } else {
      assert events[..i] == events;
    }
  }

  /** An echo starts right after a write of its own, and it ends with an empty read after which the
      connection has done nothing that counts. */
  ghost predicate Bounded(events: seq<Event>, id: Tid, r: EchoRun) {
    && r.start <= |events|
    && (r.start > 0 ==> events[r.start - 1].tid == id && IsWritten(events[r.start - 1]))
    && (r.end.Some? ==> r.start <= r.end.value <= |events| && EchoOf(events[..r.end.value], id) == r)
  }

  lemma {:induction false} EchoBounded(events: seq<Event>, id: Tid)
    ensures Bounded(events, id, EchoOf(events, id))
  {
    if events != [] {
      var earlier, r := events[..|events| - 1], EchoOf(events, id);
      EchoBounded(earlier, id);
      assert events[..|events|] == events;
      if r.end.Some? && r.end.value < |events| {
        PrefixOfPrefix(events, |events| - 1, r.end.value);
      }
    }
  }

  lemma ShownGrows(n: nat, packets: seq<seq<byte>>, p: seq<byte>)
    requires |packets| < n
    ensures Flatten(LastN(n, packets)) <= Flatten(LastN(n, packets + [p]))
  {
    FlattenPrefix(packets, packets + [p]);
  }

  /** One read further. */
  lemma ReadOn(flat: seq<byte>, got: seq<byte>, bytes: seq<byte>, count: nat)
    requires got <= flat && count > 0 && bytes == Slice(flat, |got|, count)
    ensures got + bytes <= flat && (bytes == [] ==> got == flat)
  {
  }

  /** While nothing is evicted, what an echo has read is a prefix of what the device shows, and at its
      empty read it is all of it. */
  lemma {:induction false} EchoFollows(n: nat, events: seq<Event>, id: Tid)
    requires Replay(n, events).Some? && WritesPackets(events) && InTurn(events, id)
    requires EchoOf(events, id).start <= |events| && NoEviction(n, events, EchoOf(events, id).start)
    ensures EchoOf(events, id).got <= Shown(n, events)
    ensures EchoOf(events, id).end == Some(|events|) ==> EchoOf(events, id).got == Shown(n, events)
  {
    if events != [] {
      var (earlier, e) := (events[..|events| - 1], events[|events| - 1]);
      var (r, r') := (EchoOf(earlier, id), EchoOf(events, id));
      EchoBounded(earlier, id);
      if !(e.tid == id && IsWritten(e)) {
        PrefixOfPrefix(events, |events| - 1, r.start);
        AllWrittenBefore(earlier, r.start);
        InTurnBefore(events, id, |events| - 1);
        EchoFollows(n, earlier, id);
        if IsWritten(e) {
          ShownGrows(n, AllWritten(earlier), e.call.data);
        } else if e.tid == id && e.result.Copied? {
          ReplayShows(n, earlier);
          ReadOn(Shown(n, earlier), r.got, e.result.bytes, 1023);
        }
      }
    }
  }

  /** The packet is somewhere in the bytes. */
  ghost predicate Contains(s: seq<byte>, packet: seq<byte>) {
    exists before, after :: s == before + packet + after
  }

  lemma OwnPacketShown(n: nat, events: seq<Event>, start: nat)
    requires 0 < start <= |events| && IsWritten(events[start - 1]) && 1 <= n && NoEviction(n, events, start)
    ensures Contains(Shown(n, events), events[start - 1].call.data)
  {
    var (before, all) := (AllWritten(events[..start]), AllWritten(events));
    AllWrittenBefore(events, start);
    PrefixOfPrefix(events, start, start - 1);
    assert before == AllWritten(events[..start - 1]) + [events[start - 1].call.data];
    var shown := LastN(n, all);
    var k := |before| - 1 - (|all| - |shown|);
    assert shown[k] == all[|before| - 1] == before[|before| - 1];
    FlattenAt(shown, k);
  }

  /** What the theorem needs of a run's calls. */
  lemma RunCalls(n: nat, moves: seq<Move>, id: Tid)
    requires 1 <= n <= MAX_CAPACITY && RunServer(n, moves).Some? && id in RunServer(n, moves).value.clients
    ensures var dev := RunServer(n, moves).value.dev;
            && Replay(n, dev.events).Some? && WritesPackets(dev.events) && InTurn(dev.events, id)
            && dev.dev.Owned(dev.inFlight.Keys) && dev.dev.Abs().Flat() == Shown(n, dev.events)
  {
    var steps := ServerRuns(n, moves);
    Linearizable(n, steps);
    RingHoldsNewestPackets(n, moves);
    RunEchoes(n, moves);
    assert ClientEchoes(RunServer(n, moves).value.dev, id, RunServer(n, moves).value.clients[id]);
  }

  /** An echo that got to its end has read all there was, its own packet included. */
  ghost predicate Complete(n: nat, events: seq<Event>, id: Tid, r: EchoRun) {
    r.end.Some? && 0 < r.start <= r.end.value <= |events| && NoEviction(n, events[..r.end.value], r.start) ==>
      && r.got == Shown(n, events[..r.end.value])
      && events[r.start - 1].tid == id && IsWritten(events[r.start - 1])
      && Contains(r.got, events[r.start - 1].call.data)
  }

  /** Several connections on the device, at every point of every run. What a connection's latest echo
      has read is, as long as no commit since its own write evicted anything, a prefix of the device's
      contents; and an echo that got to its end without an eviction has read exactly the contents as
      they stood at its last read, with its own packet among them. */
  lemma {:induction false} EchoWithoutEviction(n: nat, moves: seq<Move>, id: Tid)
    requires 1 <= n <= MAX_CAPACITY && RunServer(n, moves).Some? && id in RunServer(n, moves).value.clients
    ensures var s := RunServer(n, moves).value;
            var (c, events, r) := (s.clients[id], s.dev.events, EchoOf(s.dev.events, id));
            && Bounded(events, id, r) && (c.phase.Echoing? ==> r.start > 0 && c.phase.pos == |r.got|)
            && s.dev.dev.Owned(s.dev.inFlight.Keys)
            && (NoEviction(n, events, r.start) ==> r.got <= s.dev.dev.Abs().Flat())
            && Complete(n, events, id, r)
  {
    RunCalls(n, moves, id);
    EchoHistory(n, RunServer(n, moves).value.dev.events, id);
    PhaseFits(n, moves, id);
  }

  lemma PhaseFits(n: nat, moves: seq<Move>, id: Tid)
    requires RunServer(n, moves).Some? && id in RunServer(n, moves).value.clients
    ensures var (c, r) := (RunServer(n, moves).value.clients[id], EchoOf(RunServer(n, moves).value.dev.events, id));
            c.phase.Echoing? ==> r.start > 0 && c.phase.pos == |r.got|
  {
    RunEchoes(n, moves);
    assert ClientEchoes(RunServer(n, moves).value.dev, id, RunServer(n, moves).value.clients[id]);
  }

  lemma EchoHistory(n: nat, events: seq<Event>, id: Tid)
    requires 1 <= n && Replay(n, events).Some? && WritesPackets(events) && InTurn(events, id)
    ensures var r := EchoOf(events, id);
            && Bounded(events, id, r)
            && (NoEviction(n, events, r.start) ==> r.got <= Shown(n, events))
            && Complete(n, events, id, r)
  {
    var r := EchoOf(events, id);
    EchoBounded(events, id);
    if NoEviction(n, events, r.start) {
      EchoFollows(n, events, id);
    }
    if r.end.Some? && r.start > 0 && NoEviction(n, events[..r.end.value], r.start) {
      CompleteEcho(n, events, id);
    }
  }

  lemma {:induction false} CompleteEcho(n: nat, events: seq<Event>, id: Tid)
    requires 1 <= n && Replay(n, events).Some? && WritesPackets(events) && InTurn(events, id)
    requires var r := EchoOf(events, id);
             Bounded(events, id, r) && r.end.Some? && r.start > 0 && NoEviction(n, events[..r.end.value], r.start)
    ensures var r := EchoOf(events, id);
            r.got == Shown(n, events[..r.end.value]) && Contains(r.got, events[r.start - 1].call.data)
  {
    var r := EchoOf(events, id);
    var ended := events[..r.end.value];
    InTurnBefore(events, id, r.end.value);
    ReplayBefore(n, events, r.end.value);
    EchoFollows(n, ended, id);
    OwnPacketShown(n, ended, r.start);
  }

  lemma {:induction false} ReplayBefore(n: nat, events: seq<Event>, i: nat)
    requires Replay(n, events).Some? && i <= |events|
    ensures Replay(n, events[..i]).Some?
  {
    if i < |events| {
      ReplayBefore(n, events[..|events| - 1], i);
      PrefixOfPrefix(events, |events| - 1, i);
    } else {
      assert events[..i] == events;
    }
  }

  lemma {:induction false} StartMeansWritten(events: seq<Event>, id: Tid)
    ensures EchoOf(events, id).start > 0 <==> EndToEnd.Written(events, id) != []
  {
    if events != [] {
      StartMeansWritten(events[..|events| - 1], id);
    }
  }

  /** No echo is left off: at every point of every run, a connection that is back outside and has not
      closed has had the empty read that ends the echo of its latest packet; and while it is between
      two reads, it has not. */
  lemma {:induction false} EchoRunsToItsEnd(n: nat, moves: seq<Move>, id: Tid)
    requires RunServer(n, moves).Some? && id in RunServer(n, moves).value.clients
    ensures var (c, events) := (RunServer(n, moves).value.clients[id], RunServer(n, moves).value.dev.events);
            && (c.phase.Outside? && !c.conn.state.ClosedConnection? && EndToEnd.Written(events, id) != [] ==>
                  EchoOf(events, id).end.Some?)
            && (c.phase.Echoing? ==> EchoOf(events, id).end.None?)
  {
    var s := RunServer(n, moves).value;
    RunEchoes(n, moves);
    assert ClientEchoes(s.dev, id, s.clients[id]);
    StartMeansWritten(s.dev.events, id);
  }
}
