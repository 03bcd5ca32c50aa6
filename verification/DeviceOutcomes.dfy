/** What becomes of each connection of the unlocked server on the device: its own moves and their
    answers decide it, and nothing but the driver's lock keeps it from going on. */
module DeviceOutcomes {
  import opened Prelude
  import opened Framing
  import opened Connection
  import opened CircularBuffer
  import opened CharDevice
  import opened DeviceConcurrency
  import DeviceAnswers
  import opened EndToEnd

  /** The connection is closed, or on its way there from a failed call. */
  predicate Doomed(c: Client, pc: Pc) {
    || c.conn.state.ClosedConnection?
    || (pc.Releasing? && (pc.result == NoMemory || pc.result == Fault))
    || pc.FaultReleasing? || pc.FaultFreeing?
  }

  /** The step decides its call, and as a failure. */
  ghost predicate CallFails(dev: State, step: Step) {
    && Next(dev, step).Some?
    && |Next(dev, step).value.events| > |dev.events|
    && var result := Next(dev, step).value.events[|dev.events|].result;
       result == NoMemory || result == Fault
  }

  /** The move is the connection's own, and something in it fails or the thread leaves on a signal. */
  ghost predicate MoveFails(s: Server, move: Move, id: Tid)
    requires id in s.clients
  {
    var conn := s.clients[id].conn;
    match move
    case Receive(u, answer, reallocOk) =>
      u == id && (!answer.Data? || (!reallocOk && conn.capacity < |conn.main| + |answer.bytes|))
    case Leave(u) => u == id
    case Fail(u) => u == id
    case Device(step) => step.t == id && (step.LockInterrupted? || CallFails(s.dev, step))
    case _ => false
  }

  ghost predicate HasFailed(n: nat, moves: seq<Move>, id: Tid) {
    if moves == [] then false
    else
      var (earlier, move) := (moves[..|moves| - 1], moves[|moves| - 1]);
      || HasFailed(n, earlier, id)
      || (RunServer(n, earlier).Some? && id in RunServer(n, earlier).value.clients
          && MoveFails(RunServer(n, earlier).value, move, id))
  }

  /** What recv has delivered to the connection. */
  function Delivered(moves: seq<Move>, id: Tid): seq<byte> {
    if moves == [] then []
    else
      var (earlier, move) := (Delivered(moves[..|moves| - 1], id), moves[|moves| - 1]);
      if move.Receive? && move.id == id && move.answer.Data? then earlier + move.answer.bytes else earlier
  }

  /** A step inside the driver that does not decide the call. */
  lemma MovingOnDooms(c: Client, pc: Pc, pc': Pc, step: Step)
    requires CallOk(c, pc) && MovesOn(pc, pc', step) && Continue(c, pc, step).Some?
    ensures Doomed(Continue(c, pc, step).value, pc') <==> Doomed(c, pc) || step.LockInterrupted?
  {
  }

  /** One that does. */
  lemma DecidingDooms(c: Client, pc: Pc, pc': Pc, step: Step, call: Call, result: Result)
    requires CallOk(c, pc) && Decides(pc, pc', step, call, result)
    ensures Continue(c, pc, step) == Some(c) && !Doomed(c, pc)
    ensures Doomed(c, pc') <==> result == NoMemory || result == Fault
  {
  }

  lemma OwnDeviceDooms(s: Server, step: Step)
    requires ServerInv(s) && MoveTo(s, Device(step)).Some?
    ensures var s' := MoveTo(s, Device(step)).value;
            && step.t in s'.clients
            && (Doomed(s'.clients[step.t], s'.dev.At(step.t))
                <==> Doomed(s.clients[step.t], s.dev.At(step.t)) || MoveFails(s, Device(step), step.t))
  {
    var (id, c, pc, dev) := (step.t, s.clients[step.t], s.dev.At(step.t), Next(s.dev, step).value);
    assert ClientOk(s.dev, id, c);
    if |dev.events| > |s.dev.events| {
      var call, result := NextDecides(s.dev, step);
      DecidingDooms(c, pc, dev.At(id), step, call, result);
      assert dev.events[|s.dev.events|] == Event(id, call, result);
      assert !step.LockInterrupted?;
    } else {
      NextMovesOn(s.dev, step);
      MovingOnDooms(c, pc, dev.At(id), step);
    }
  }

  lemma OwnClientDooms(s: Server, move: Move)
    requires ServerInv(s) && !move.Device? && !move.Connect? && MoveTo(s, move).Some?
    ensures var s' := MoveTo(s, move).value;
            && move.id in s.clients && move.id in s'.clients
            && (Doomed(s'.clients[move.id], s'.dev.At(move.id))
                <==> Doomed(s.clients[move.id], s.dev.At(move.id)) || MoveFails(s, move, move.id))
  {
    assert ClientOk(s.dev, move.id, s.clients[move.id]);
  }

  /** Whose move it is. */
  function Mover(move: Move): Tid {
    if move.Device? then move.step.t else move.id
  }

  lemma OthersKeep(s: Server, move: Move, u: Tid)
    requires MoveTo(s, move).Some? && u in s.clients && u != Mover(move)
    ensures var s' := MoveTo(s, move).value;
            u in s'.clients && s'.clients[u] == s.clients[u] && s'.dev.At(u) == s.dev.At(u)
  {
    if move.Device? {
      NextLeavesOthers(s.dev, move.step, u);
    }
  }

  lemma Newcomer(s: Server, move: Move, u: Tid)
    requires MoveTo(s, move).Some? && u !in s.clients && u in MoveTo(s, move).value.clients
    ensures move == Connect(u) && MoveTo(s, move).value == s.Set(u, Client(START, Outside, [])) && s.dev.At(u).Idle?
  {
  }

  lemma {:induction false} NotThereYet(n: nat, moves: seq<Move>, id: Tid)
    requires RunServer(n, moves).Some? && id !in RunServer(n, moves).value.clients
    ensures !HasFailed(n, moves, id) && Delivered(moves, id) == []
  {
    if moves != [] {
      var (earlier, move) := (moves[..|moves| - 1], moves[|moves| - 1]);
      ClientsStay(RunServer(n, earlier).value, move, id);
      NotThereYet(n, earlier, id);
    }
  }

  lemma ClientsStay(s: Server, move: Move, id: Tid)
    requires MoveTo(s, move).Some?
    ensures id in s.clients ==> id in MoveTo(s, move).value.clients
    ensures move.Receive? ==> move.id in s.clients
  {
  }

  lemma OwnMoveDelivers(s: Server, move: Move)
    requires MoveTo(s, move).Some? && Mover(move) in s.clients
    ensures var (c, s') := (s.clients[Mover(move)], MoveTo(s, move).value);
            && Mover(move) in s'.clients
            && s'.clients[Mover(move)].received
            == if move.Receive? && move.answer.Data? then c.received + move.answer.bytes else c.received
  {
  }

  lemma {:induction false} RunOutcomes(n: nat, moves: seq<Move>, id: Tid)
    requires RunServer(n, moves).Some? && id in RunServer(n, moves).value.clients
    ensures var s := RunServer(n, moves).value;
            && (Doomed(s.clients[id], s.dev.At(id)) <==> HasFailed(n, moves, id))
            && s.clients[id].received == Delivered(moves, id)
  {
    var (earlier, move) := (moves[..|moves| - 1], moves[|moves| - 1]);
    var s := RunServer(n, earlier).value;
    if id !in s.clients {
      NotThereYet(n, earlier, id);
      Newcomer(s, move, id);
    } else {
      RunOutcomes(n, earlier, id);
      var steps := ServerRuns(n, earlier);
      if Mover(move) != id {
        OthersKeep(s, move, id);
      } else {
        OwnMoveDelivers(s, move);
        if move.Device? {
          OwnDeviceDooms(s, move.step);
        } else if !move.Connect? {
          OwnClientDooms(s, move);
        }
      }
    }
  }

  /** Move `m` is the connection's own, and it fails. */
  ghost predicate FailsAt(n: nat, moves: seq<Move>, m: nat, id: Tid) {
    && m < |moves| && RunServer(n, moves[..m]).Some? && id in RunServer(n, moves[..m]).value.clients
    && MoveFails(RunServer(n, moves[..m]).value, moves[m], id)
  }

  lemma {:induction false} HasFailedAt(n: nat, moves: seq<Move>, id: Tid)
    ensures HasFailed(n, moves, id) <==> exists m: nat :: FailsAt(n, moves, m, id)
  {
    if moves != [] {
      var (earlier, last) := (moves[..|moves| - 1], |moves| - 1);
      HasFailedAt(n, earlier, id);
      forall m: nat | m < last
        ensures FailsAt(n, moves, m, id) <==> FailsAt(n, earlier, m, id)
      {
        PrefixOfPrefix(moves, last, m);
      }
      assert HasFailed(n, moves, id) <==> HasFailed(n, earlier, id) || FailsAt(n, moves, last, id);
    }
  }

  /** A connection on the device closes, or is about to, if and only if one of its own moves has failed:
      recv, a needed realloc, open, send or close, an interrupted lock, or a call that the driver decided
      as out of memory or a fault. What it counts as received is what recv delivered. */
  lemma {:induction false} ClosesOnlyOnFailure(n: nat, moves: seq<Move>, id: Tid)
    requires RunServer(n, moves).Some? && id in RunServer(n, moves).value.clients
    ensures var s := RunServer(n, moves).value;
            && (Doomed(s.clients[id], s.dev.At(id)) <==> exists m: nat :: FailsAt(n, moves, m, id))
            && s.clients[id].received == Delivered(moves, id)
  {
    RunOutcomes(n, moves, id);
    HasFailedAt(n, moves, id);
  }

  /** What the connection can do next of its own accord. */
  function NextMove(s: Server, id: Tid, answer: Recv, reallocOk: bool): Move
    requires id in s.clients
  {
    var c := s.clients[id];
    match c.phase
    case Outside =>
      (match c.conn.state
       case WaitingForData => Receive(id, answer, reallocOk)
       case ProcessingData => Process(id)
       case SendingData => Begin(id)
       case ClosedConnection => Leave(id))
    case Writing => Device(Lock(id, WriteCall(c.conn.main)))
    case Echoing(pos) => Device(Lock(id, ReadCall(pos, 1023)))
    case _ => Device(StepOf(id, s.dev.At(id)))
  }

  /** Only a call that finds the driver's lock taken keeps a connection waiting. */
  predicate MustWait(s: Server, id: Tid)
    requires id in s.clients
  {
    (s.clients[id].phase.Writing? || s.clients[id].phase.Echoing?) && s.dev.lock.Some?
  }

  /** Its next step inside the driver. */
  function StepOf(t: Tid, pc: Pc): Step {
    if pc.FaultFreeing? then LateFree(t) else Onward(t, pc)
  }

  lemma StepOfIsEnabled(n: nat, dev: State, t: Tid)
    requires Inv(n, dev) && !dev.At(t).Idle?
    ensures Next(dev, StepOf(t, dev.At(t))).Some?
  {
    var abs :| Means(n, dev.dev, dev.inFlight.Keys, abs) && Replay(n, dev.events) == Some(abs) && Control(dev, abs);
    assert ThreadInv(dev, abs, t);
    if !dev.At(t).FaultFreeing? {
      OnwardIsEnabled(n, dev, t);
    }
  }

  lemma StepOfContinues(c: Client, pc: Pc, t: Tid)
    requires !pc.Idle?
    ensures Continue(c, pc, StepOf(t, pc)).Some? && StepOf(t, pc).t == t
  {
  }

  lemma CallGoesOn(n: nat, s: Server, id: Tid)
    requires Inv(n, s.dev) && id in s.clients && CallOk(s.clients[id], s.dev.At(id))
    requires s.clients[id].phase.InWrite? || s.clients[id].phase.InRead?
    ensures MoveTo(s, Device(StepOf(id, s.dev.At(id)))).Some?
  {
    StepOfIsEnabled(n, s.dev, id);
    StepOfContinues(s.clients[id], s.dev.At(id), id);
  }

  lemma CallStarts(s: Server, id: Tid, answer: Recv, reallocOk: bool)
    requires id in s.clients && CallOk(s.clients[id], s.dev.At(id)) && s.dev.lock.None?
    requires s.clients[id].phase.Writing? || s.clients[id].phase.Echoing?
    ensures MoveTo(s, NextMove(s, id, answer, reallocOk)).Some?
  {
  }

  lemma OutsideMoves(s: Server, id: Tid, answer: Recv, reallocOk: bool)
    requires id in s.clients && s.clients[id].phase.Outside? && answer.Possible()
    ensures MoveTo(s, NextMove(s, id, answer, reallocOk)).Some?
  {
  }

  /** At every point of every run, each connection has a next move of its own, whatever recv will answer,
      except while the driver's lock is taken by another call. */
  lemma {:induction false} ConnectionGoesOn(n: nat, moves: seq<Move>, id: Tid, answer: Recv, reallocOk: bool)
    requires 1 <= n <= MAX_CAPACITY && RunServer(n, moves).Some? && id in RunServer(n, moves).value.clients
    requires answer.Possible() && !MustWait(RunServer(n, moves).value, id)
    ensures MoveTo(RunServer(n, moves).value, NextMove(RunServer(n, moves).value, id, answer, reallocOk)).Some?
  {
    var s := RunServer(n, moves).value;
    var steps := ServerRuns(n, moves);
    RunInv(n, steps);
    assert ClientOk(s.dev, id, s.clients[id]);
    if s.clients[id].phase.Outside? {
      OutsideMoves(s, id, answer, reallocOk);
    } else if s.clients[id].phase.InWrite? || s.clients[id].phase.InRead? {
      CallGoesOn(n, s, id);
    } else {
      CallStarts(s, id, answer, reallocOk);
    }
  }

  /** Whatever the driver's environment answers a connection's call, the connection takes it; a call
      about to be made may be refused the lock, and the system calls around it may fail. */
  lemma {:induction false} EveryAnswerIsTaken(n: nat, moves: seq<Move>, id: Tid, step: Step)
    requires 1 <= n <= MAX_CAPACITY && RunServer(n, moves).Some? && id in RunServer(n, moves).value.clients
    requires step.t == id
    ensures var s := RunServer(n, moves).value;
            var c := s.clients[id];
            && ((c.phase.InWrite? || c.phase.InRead?) && DeviceAnswers.MayAnswer(s.dev.dev, s.dev.At(id), step) ==>
                  MoveTo(s, Device(step)).Some?)
            && (c.phase.Writing? || c.phase.Echoing? ==>
                  MoveTo(s, Device(LockInterrupted(id))).Some? && MoveTo(s, Fail(id)).Some?)
            && (c.phase.Outside? ==> MoveTo(s, Leave(id)).Some?)
  {
    var s := RunServer(n, moves).value;
    var steps := ServerRuns(n, moves);
    assert ClientOk(s.dev, id, s.clients[id]);
    if DeviceAnswers.MayAnswer(s.dev.dev, s.dev.At(id), step) {
      DeviceAnswers.EveryAnswerIsTaken(n, steps, step);
      RunSnoc(n, steps, step);
    }
  }
}
