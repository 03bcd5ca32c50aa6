/** The server built with USE_AESD_CHAR_DEVICE: its file is the driver and its own locking is off. */
module EndToEnd {
  import opened Prelude
  import opened Framing
  import opened Connection
  import CharDevice
  import DataFile
  import ServerThread
  import Spec = DeviceSpec
  import opened DeviceConcurrency
  import CircularBuffer

  /** One connection on a fresh device: the i-th echo is the newest of the packets so far, as many as
      the device has slots, end to end. */
  lemma DeviceEcho(slots: nat, packets: seq<seq<byte>>, i: nat)
    requires AllPackets(packets) && i < |packets|
    ensures ServerThread.Echoes(DataFile.Device(slots, Spec.FRESH), packets)[i]
         == Flatten(LastN(slots, packets[..i + 1]))
  {
    forall p | p in packets[..i + 1]
      ensures Spec.EndsLine(p)
    {
      var j :| 0 <= j < |packets| && packets[j] == p;
    }
    DataFile.DeviceKeepsNewest(slots, packets[..i + 1]);
  }

  /** One connection on a regular file: the i-th echo is everything so far. */
  lemma RegularEcho(content: seq<byte>, packets: seq<seq<byte>>, i: nat)
    requires i < |packets|
    ensures ServerThread.Echoes(DataFile.Regular(content), packets)[i] == content + Flatten(packets[..i + 1])
  {
    DataFile.RegularKeepsAll(content, packets[..i + 1]);
  }

  /** The newest `slots` packets as of each packet. */
  function NewestEchoes(slots: nat, packets: seq<seq<byte>>): (echoes: seq<seq<byte>>)
    ensures |echoes| == |packets|
  {
    seq(|packets|, i requires 0 <= i < |packets| => Flatten(LastN(slots, packets[..i + 1])))
  }

  /** From the module's initialisation to the end of a connection: whatever the chunks in which the
      client's bytes arrived, a run without failures has sent it, for each packet of the newline
      split, the newest ten packets so far, and leaves the newest ten in the device. */
  method ServeOneClient(incoming: seq<Recv>) returns (os: DataFile.Os)
    requires forall r :: r in incoming ==> r.Possible()
    ensures fresh(os) && os.Valid()
    ensures var packets := Split(ServerThread.Stream(incoming)).packets;
            os.failures == 0 ==>
              && os.sent == Flatten(NewestEchoes(10, packets))
              && os.Value() == DataFile.Device(10, Spec.DevState([], LastN(10, packets)))
  {
    assert SLOTS == 10;
    var device := new CharDevice.AesdDev(SLOTS);
    os := new DataFile.Os(device);
    ghost var log := ServerThread.MainLoopThread(os, incoming, _ => true, None);
    if os.failures == 0 {
      SplitSound(ServerThread.Stream(incoming));
      NewestIsEchoed(log.packets);
    }
  }

  const SLOTS := CircularBuffer.AESDCHAR_MAX_WRITE_OPERATIONS_SUPPORTED

  lemma NewestIsEchoed(packets: seq<seq<byte>>)
    requires AllPackets(packets)
    ensures ServerThread.Echoes(DataFile.Device(SLOTS, Spec.FRESH), packets) == NewestEchoes(SLOTS, packets)
    ensures DataFile.Device(SLOTS, Spec.FRESH).AppendedAll(packets)
         == DataFile.Device(SLOTS, Spec.DevState([], LastN(SLOTS, packets)))
  {
    forall i | 0 <= i < |packets|
      ensures ServerThread.Echoes(DataFile.Device(SLOTS, Spec.FRESH), packets)[i] == NewestEchoes(SLOTS, packets)[i]
    {
      DeviceEcho(SLOTS, packets, i);
    }
    forall p | p in packets
      ensures Spec.EndsLine(p)
    {
      var j :| 0 <= j < |packets| && packets[j] == p;
    }
    DataFile.DeviceKeepsNewest(SLOTS, packets);
  }

  /** What a connection thread is doing: receiving, about to write, in write, about to read at its
      position, or in read. */
  datatype Phase = Outside | Writing | InWrite | Echoing(pos: nat) | InRead(pos: nat)

  datatype Client = Client(conn: Conn, phase: Phase, received: seq<byte>) {
    function Closed(): Client {
      this.(conn := conn.Closed(), phase := Outside)
    }
  }

  datatype Server = Server(dev: State, clients: map<Tid, Client>) {
    function Set(id: Tid, c: Client): Server {
      this.(clients := clients[id := c])
    }
  }

  /** `Fail` is a failed open, send or close, `Leave` a signal; `Device` a step inside the driver. */
  datatype Move =
    | Connect(id: Tid)
    | Receive(id: Tid, answer: Recv, reallocOk: bool)
    | Process(id: Tid)
    | Leave(id: Tid)
    | Begin(id: Tid)
    | Fail(id: Tid)
    | Device(step: Step)

  function StartServer(n: nat): Server {
    Server(Start(n), map[])
  }

  ghost function MoveTo(s: Server, move: Move): Option<Server> {
    match move
    case Connect(id) =>
      if id in s.clients || !s.dev.At(id).Idle? then None else Some(s.Set(id, Client(START, Outside, [])))
    case Receive(id, answer, reallocOk) =>
      if && id in s.clients && s.clients[id].phase.Outside? && s.clients[id].conn.state.WaitingForData?
         && answer.Possible()
      then
        var c := s.clients[id];
        Some(s.Set(id, c.(conn := c.conn.Received(answer, reallocOk),
                          received := c.received + if answer.Data? then answer.bytes else [])))
      else None
    case Process(id) =>
      if id in s.clients && s.clients[id].phase.Outside? && s.clients[id].conn.state.ProcessingData? then
        Some(s.Set(id, s.clients[id].(conn := s.clients[id].conn.Processed())))
      else None
    case Leave(id) =>
      if id in s.clients && s.clients[id].phase.Outside? then Some(s.Set(id, s.clients[id].Closed())) else None
    case Begin(id) =>
      if id in s.clients && s.clients[id].phase.Outside? && s.clients[id].conn.state.SendingData? then
        Some(s.Set(id, s.clients[id].(phase := Writing)))
      else None
    case Fail(id) =>
      if id in s.clients && (s.clients[id].phase.Writing? || s.clients[id].phase.Echoing?) then
        Some(s.Set(id, s.clients[id].Closed()))
      else None
    case Device(step) =>
      if step.t !in s.clients then None
      else
        match (Next(s.dev, step), Continue(s.clients[step.t], s.dev.At(step.t), step))
        case (Some(dev), Some(c)) => Some(Server(dev, s.clients[step.t := c]))
        case _ => None
  }

  /** The client side of a driver step: which calls it makes, and what it does with what they
      return. */
  function Continue(c: Client, pc: Pc, step: Step): Option<Client> {
    match step
    case Lock(_, call) =>
      if c.phase.Writing? && call == WriteCall(c.conn.main) then Some(c.(phase := InWrite))
      else if c.phase.Echoing? && call == ReadCall(c.phase.pos, SEND_BUFFER_SIZE - 1) then
        Some(c.(phase := InRead(c.phase.pos)))
      else None
    case LockInterrupted(_) =>
      if c.phase.Writing? || c.phase.Echoing? then Some(c.Closed()) else None
    case Unlock(_) =>
      if !pc.Releasing? then Some(c)
      else if c.phase.InWrite? && pc.result.Written? then
        Some(c.(conn := c.conn.(main := []), phase := Echoing(0)))
      else if c.phase.InRead? && pc.result.Copied? then
        Some(if pc.result.bytes == [] then c.(conn := c.conn.Replied(), phase := Outside)
             else c.(phase := Echoing(c.phase.pos + |pc.result.bytes|)))
      else Some(c.Closed())
    case LateFree(_) => Some(c.Closed())
    case _ => Some(c)
  }

  ghost function RunServer(n: nat, moves: seq<Move>): Option<Server> {
    if moves == [] then Some(StartServer(n))
    else
      match RunServer(n, moves[..|moves| - 1])
      case None => None
      case Some(s) => MoveTo(s, moves[|moves| - 1])
  }

  predicate IsWritten(e: Event) {
    e.call.WriteCall? && e.result.Written?
  }

  /** The packets a connection got into the device, in lock order. */
  function Written(events: seq<Event>, id: Tid): seq<seq<byte>> {
    if events == [] then []
    else
      var (earlier, e) := (events[..|events| - 1], events[|events| - 1]);
      if e.tid == id && IsWritten(e) then Written(earlier, id) + [e.call.data] else Written(earlier, id)
  }

  /** The packets of all connections, in lock order. */
  function AllWritten(events: seq<Event>): seq<seq<byte>> {
    if events == [] then []
    else
      var (earlier, e) := (events[..|events| - 1], events[|events| - 1]);
      if IsWritten(e) then AllWritten(earlier) + [e.call.data] else AllWritten(earlier)
  }

  /** A driver step that is not yet the effect of the thread's call. */
  predicate MovesOn(pc: Pc, pc': Pc, step: Step) {
    match step
    case Lock(_, call) =>
      pc.Idle? && pc' == if call.WriteCall? then Allocating(call.data) else Reading(call.fPos, call.count, [])
    case LockInterrupted(_) => pc.Idle? && pc' == pc
    case Alloc(_, _, _) => pc.Allocating? && pc'.Filling? && pc'.data == pc.data
    case CopyIn(_, _) => pc.Filling? && (pc' == pc || (pc'.Installing? && pc'.data == pc.data))
    case Install(_) => pc.Installing? && pc' == pc
    case CopyOut(_, _) => pc.Reading? && pc'.Reading? && pc'.fPos == pc.fPos && pc'.count == pc.count
    case Unlock(_) => (pc.Releasing? && pc'.Idle?) || (pc.FaultReleasing? && pc'.FaultFreeing?)
    case LateFree(_) => pc.FaultFreeing? && pc'.Idle?
  }

  /** A driver step by which the thread's call takes effect. */
  predicate Decides(pc: Pc, pc': Pc, step: Step, call: Call, result: Result) {
    match step
    case Alloc(_, _, _) =>
      pc.Allocating? && call == WriteCall(pc.data) && result == NoMemory && pc'.Releasing? && pc'.result == result
    case CopyIn(_, _) =>
      pc.Filling? && call == WriteCall(pc.data) && result == Fault && pc'.FaultReleasing?
    case Install(_) =>
      pc.Installing? && call == WriteCall(pc.data) && result.Written? && pc'.Releasing? && pc'.result == result
    case CopyOut(_, _) =>
      && pc.Reading? && call == ReadCall(pc.fPos, pc.count) && !result.Written? && result != NoMemory
      && pc'.Releasing? && pc'.result == result
    case _ => false
  }

  /** What a driver step may do to the record of the thread that takes it. */
  ghost predicate Shape(s: State, s': State, step: Step) {
    || (s'.events == s.events && MovesOn(s.At(step.t), s'.At(step.t), step))
    || (exists call, result ::
          && s'.events == s.events + [Event(step.t, call, result)]
          && Decides(s.At(step.t), s'.At(step.t), step, call, result))
  }

  lemma NextMovesOn(s: State, step: Step)
    requires Next(s, step).Some? && |Next(s, step).value.events| <= |s.events|
    ensures var s' := Next(s, step).value;
            s'.events == s.events && MovesOn(s.At(step.t), s'.At(step.t), step)
  {
  }

  lemma NextDecides(s: State, step: Step) returns (call: Call, result: Result)
    requires Next(s, step).Some? && |Next(s, step).value.events| > |s.events|
    ensures var s' := Next(s, step).value;
            && s'.events == s.events + [Event(step.t, call, result)]
            && Decides(s.At(step.t), s'.At(step.t), step, call, result)
  {
    var e := Next(s, step).value.events[|s.events|];
    call, result := e.call, e.result;
  }

  lemma NextShape(s: State, step: Step)
    requires Next(s, step).Some?
    ensures Shape(s, Next(s, step).value, step)
  {
    if |Next(s, step).value.events| <= |s.events| {
      NextMovesOn(s, step);
    } else {
      var call, result := NextDecides(s, step);
    }
  }

  /** The packet that has gone into the device but whose write has not returned yet is counted as
      written; everything else received is still in the buffers. */
  function Unwritten(c: Client, pc: Pc): seq<byte> {
    if c.phase.InWrite? && pc.Releasing? && pc.result.Written? then c.conn.temp else c.conn.Held()
  }

  /** Where the thread stands in the driver agrees with the call it is making, and its buffers are in
      order: a write always hands over exactly one packet. */
  ghost predicate CallOk(c: Client, pc: Pc) {
    match c.phase
    case Outside => pc.Idle? && (c.conn.state.ClosedConnection? || c.conn.Good())
    case Writing => pc.Idle? && c.conn.state.SendingData? && c.conn.Good()
    case InWrite =>
      && c.conn.state.SendingData? && c.conn.Good()
      && (match pc
          case Allocating(data) => data == c.conn.main
          case Filling(data, _) => data == c.conn.main
          case Installing(data, _) => data == c.conn.main
          case Releasing(_, result) => !result.Copied?
          case FaultReleasing(_, _) => true
          case FaultFreeing(_, _) => true
          case _ => false)
    case Echoing(_) => pc.Idle? && c.conn.state.SendingData? && c.conn.main == [] && c.conn.Replied().Good()
    case InRead(_) =>
      && c.conn.state.SendingData? && c.conn.main == [] && c.conn.Replied().Good()
      && (pc.Reading? || (pc.Releasing? && !pc.result.Written? && pc.result != NoMemory))
  }

  ghost predicate Accounts(written: seq<seq<byte>>, c: Client, pc: Pc) {
    && CallOk(c, pc)
    && AllPackets(written)
    && Flatten(written) + Unwritten(c, pc) == c.received
  }

  ghost predicate ClientOk(s: State, id: Tid, c: Client) {
    Accounts(Written(s.events, id), c, s.At(id))
  }

  ghost predicate ServerInv(s: Server) {
    && (forall i :: 0 <= i < |s.dev.events| && s.dev.events[i].call.WriteCall? ==> IsPacket(s.dev.events[i].call.data))
    && (forall i :: 0 <= i < |s.dev.events| ==> s.dev.events[i].tid in s.clients)
    && (forall id :: id in s.clients ==> ClientOk(s.dev, id, s.clients[id]))
  }

  lemma WrittenGrows(events: seq<Event>, e: Event, id: Tid)
    ensures Written(events + [e], id)
         == if e.tid == id && IsWritten(e) then Written(events, id) + [e.call.data] else Written(events, id)
  {
    assert (events + [e])[..|events|] == events;
  }

  lemma {:induction false} NothingWritten(events: seq<Event>, id: Tid)
    requires forall i :: 0 <= i < |events| ==> events[i].tid != id
    ensures Written(events, id) == []
  {
    if events != [] {
      NothingWritten(events[..|events| - 1], id);
    }
  }

  /** The thread moves on inside the driver, or its call returns and it acts on the result. */
  lemma MovingOnAccounts(written: seq<seq<byte>>, c: Client, pc: Pc, pc': Pc, step: Step)
    requires Accounts(written, c, pc) && MovesOn(pc, pc', step) && Continue(c, pc, step).Some?
    ensures Accounts(written, Continue(c, pc, step).value, pc')
  {
    if c.phase.InRead? && step.Unlock? {
      assert c.conn.Replied().Held() == c.conn.Held();
    } else if c.phase.InWrite? && step.Unlock? {
      assert [] + c.conn.temp == c.conn.temp;
    }
  }

  /** The thread's call takes effect; a write's data is exactly one packet. */
  lemma DecidingAccounts(written: seq<seq<byte>>, c: Client, pc: Pc, pc': Pc, step: Step, call: Call, result: Result)
    requires Accounts(written, c, pc) && Decides(pc, pc', step, call, result)
    ensures Continue(c, pc, step) == Some(c)
    ensures call.WriteCall? ==> call.data == c.conn.main && IsPacket(c.conn.main)
    ensures Accounts(if call.WriteCall? && result.Written? then written + [call.data] else written, c, pc')
  {
    if step.Install? {
      FlattenSnoc(written, c.conn.main);
      Assoc(Flatten(written), c.conn.main, c.conn.temp);
    }
  }

  /** A step of the thread inside the driver, and what the thread does with its result. */
  lemma OwnDeviceStep(s: Server, dev: State, step: Step)
    requires step.t in s.clients && ClientOk(s.dev, step.t, s.clients[step.t])
    requires Shape(s.dev, dev, step) && Continue(s.clients[step.t], s.dev.At(step.t), step).Some?
    ensures ClientOk(dev, step.t, Continue(s.clients[step.t], s.dev.At(step.t), step).value)
    ensures || dev.events == s.dev.events
            || (exists e ::
                  && dev.events == s.dev.events + [e] && e.tid == step.t
                  && (e.call.WriteCall? ==> IsPacket(e.call.data)))
  {
    var (id, c, pc, pc') := (step.t, s.clients[step.t], s.dev.At(step.t), dev.At(step.t));
    if dev.events == s.dev.events && MovesOn(pc, pc', step) {
      MovingOnAccounts(Written(s.dev.events, id), c, pc, pc', step);
    } else {
      var call, result :| && dev.events == s.dev.events + [Event(id, call, result)]
                          && Decides(pc, pc', step, call, result);
      WrittenGrows(s.dev.events, Event(id, call, result), id);
      DecidingAccounts(Written(s.dev.events, id), c, pc, pc', step, call, result);
    }
  }

  lemma OthersUnaffected(s: State, s': State, t: Tid, u: Tid, c: Client)
    requires s'.At(u) == s.At(u) && u != t && ClientOk(s, u, c)
    requires s'.events == s.events || exists e :: s'.events == s.events + [e] && e.tid == t
    ensures ClientOk(s', u, c)
  {
    if s'.events != s.events {
      var e :| s'.events == s.events + [e] && e.tid == t;
      WrittenGrows(s.events, e, u);
    }
  }

  lemma DeviceMove(s: Server, step: Step)
    requires ServerInv(s) && MoveTo(s, Device(step)).Some?
    ensures ServerInv(MoveTo(s, Device(step)).value)
  {
    var s' := MoveTo(s, Device(step)).value;
    NextShape(s.dev, step);
    OwnDeviceStep(s, s'.dev, step);
    forall u | u in s'.clients
      ensures ClientOk(s'.dev, u, s'.clients[u])
    {
      if u != step.t {
        NextLeavesOthers(s.dev, step, u);
        OthersUnaffected(s.dev, s'.dev, step.t, u, s.clients[u]);
      }
    }
  }

  /** A move of the client outside the driver. */
  lemma OwnClientMove(s: Server, move: Move)
    requires !move.Device? && !move.Connect? && move.id in s.clients && ClientOk(s.dev, move.id, s.clients[move.id])
    requires MoveTo(s, move).Some?
    ensures var s' := MoveTo(s, move).value;
            s' == s.Set(move.id, s'.clients[move.id]) && ClientOk(s'.dev, move.id, s'.clients[move.id])
  {
    var c := s.clients[move.id];
    if move.Receive? {
      ReceivedKeeps(c.conn, move.answer, move.reallocOk);
      Assoc(Flatten(Written(s.dev.events, move.id)), c.conn.Held(),
            if move.answer.Data? then move.answer.bytes else []);
    } else if move.Process? {
      ProcessedKeeps(c.conn);
    }
  }

  lemma {:induction false} ClientMove(s: Server, move: Move)
    requires ServerInv(s) && !move.Device? && MoveTo(s, move).Some?
    ensures ServerInv(MoveTo(s, move).value)
  {
    var s' := MoveTo(s, move).value;
    if move.Connect? {
      NothingWritten(s.dev.events, move.id);
      assert ClientOk(s'.dev, move.id, s'.clients[move.id]);
    } else {
      OwnClientMove(s, move);
    }
    assert s'.dev == s.dev && s'.clients == s.clients[move.id := s'.clients[move.id]];
    forall u | u in s'.clients
      ensures ClientOk(s'.dev, u, s'.clients[u])
    {
      assert u != move.id ==> ClientOk(s.dev, u, s.clients[u]);
    }
  }

  lemma StartServerInv(n: nat)
    ensures ServerInv(StartServer(n)) && Run(n, []) == Some(StartServer(n).dev)
  {
  }

  lemma MoveInv(s: Server, move: Move)
    requires ServerInv(s) && MoveTo(s, move).Some?
    ensures ServerInv(MoveTo(s, move).value)
  {
    if move.Device? {
      DeviceMove(s, move.step);
    } else {
      ClientMove(s, move);
    }
  }

  /** Only a step inside the driver changes the driver, as the driver does. */
  lemma MoveOnDevice(s: Server, move: Move)
    requires MoveTo(s, move).Some?
    ensures if move.Device? then Next(s.dev, move.step) == Some(MoveTo(s, move).value.dev)
            else MoveTo(s, move).value.dev == s.dev
  {
  }

  /** A run of the server is, inside the driver, one of the driver's runs. */
  lemma {:induction false} ServerRuns(n: nat, moves: seq<Move>) returns (steps: seq<Step>)
    requires RunServer(n, moves).Some?
    ensures ServerInv(RunServer(n, moves).value)
    ensures Run(n, steps) == Some(RunServer(n, moves).value.dev)
  {
    steps := [];
    if moves == [] {
      StartServerInv(n);
    } else {
      var (earlier, move) := (moves[..|moves| - 1], moves[|moves| - 1]);
      var s := RunServer(n, earlier).value;
      steps := ServerRuns(n, earlier);
      MoveInv(s, move);
      MoveOnDevice(s, move);
      if move.Device? {
        RunSnoc(n, steps, move.step);
        steps := steps + [move.step];
      }
    }
  }

  lemma {:induction false} AcceptedIsWritten(events: seq<Event>)
    requires forall i :: 0 <= i < |events| && events[i].call.WriteCall? ==> IsPacket(events[i].call.data)
    ensures Spec.Accepted(Attempts(events)) == AllWritten(events)
    ensures forall a :: a in Attempts(events) ==> Spec.EndsLine(a.data)
  {
    if events != [] {
      var (earlier, e) := (events[..|events| - 1], events[|events| - 1]);
      AcceptedIsWritten(earlier);
      if e.call.WriteCall? {
        assert Attempts(events)[..|Attempts(events)| - 1] == Attempts(earlier);
      }
    }
  }

  /** The ring at every step, with any number of unlocked connections: nothing is pending, and the
      entries are the newest packets in the order in which their writes got the device's lock, one
      whole packet to an entry. */
  lemma {:induction false} RingHoldsNewestPackets(n: nat, moves: seq<Move>)
    requires 1 <= n <= CircularBuffer.MAX_CAPACITY && RunServer(n, moves).Some?
    ensures var dev := RunServer(n, moves).value.dev;
            && dev.dev.Owned(dev.inFlight.Keys)
            && dev.dev.Abs() == Spec.DevState([], LastN(n, AllWritten(dev.events)))
  {
    var steps := ServerRuns(n, moves);
    var events := RunServer(n, moves).value.dev.events;
    HeapIsOwned(n, steps);
    Linearizable(n, steps);
    ReplayIsRun(n, events);
    AcceptedIsWritten(events);
    Spec.WholeLinesAreEntries(n, Attempts(events));
  }

  /** Each connection's packets get in whole, in order, and are the first of its stream's split. */
  lemma {:induction false} PacketsPerConnection(n: nat, moves: seq<Move>, id: Tid)
    requires 1 <= n <= CircularBuffer.MAX_CAPACITY && RunServer(n, moves).Some?
    requires id in RunServer(n, moves).value.clients
    ensures var s := RunServer(n, moves).value;
            AllPackets(Written(s.dev.events, id)) && Written(s.dev.events, id) <= Split(s.clients[id].received).packets
  {
    var steps := ServerRuns(n, moves);
    var s := RunServer(n, moves).value;
    var c := s.clients[id];
    SplitAfter(Written(s.dev.events, id), Unwritten(c, s.dev.At(id)));
  }
}
