/** In which order each connection of the unlocked server on the device makes its calls. */
module DeviceProtocol {
  import opened Prelude
  import opened Connection
  import opened DeviceConcurrency
  import opened EndToEnd
  import opened DeviceOutcomes

  /** The connection's latest move of its own. */
  function Previous(moves: seq<Move>, id: Tid): Option<Move> {
    if moves == [] then None
    else if Mover(moves[|moves| - 1]) == id then Some(moves[|moves| - 1])
    else Previous(moves[..|moves| - 1], id)
  }

  predicate IsUnlock(move: Move) {
    move.Device? && move.step.Unlock?
  }

  /** The connection is between two rounds of its loop after this move. */
  predicate EndsRound(move: Move) {
    move.Connect? || move.Process? || IsUnlock(move)
  }

  /** Which move may follow which: recv, the newline search, one write of the packet, and then reads,
      each a call of the driver from its lock to its unlock. */
  predicate MayFollow(previous: Move, move: Move) {
    match move
    case Connect(_) => false
    case Receive(_, _, _) => EndsRound(previous)
    case Process(_) => previous.Receive? || IsUnlock(previous)
    case Leave(_) => true
    case Begin(_) => previous.Process?
    case Fail(_) => previous.Begin? || IsUnlock(previous)
    case Device(step) => StepMayFollow(previous, step)
  }

  predicate StepMayFollow(previous: Move, step: Step) {
    match step
    case Lock(_, call) => if call.WriteCall? then previous.Begin? else IsUnlock(previous)
    case LockInterrupted(_) => previous.Begin? || IsUnlock(previous)
    case LateFree(_) => IsUnlock(previous)
    case Alloc(_, _, _) => previous.Device? && previous.step.Lock? && previous.step.call.WriteCall?
    case CopyIn(_, _) => previous.Device? && (previous.step.Alloc? || previous.step.CopyIn?)
    case Install(_) => previous.Device? && (previous.step.CopyIn? || previous.step.Install?)
    case CopyOut(_, _) => previous.Device? && (ReadLock(previous.step) || previous.step.CopyOut?)
    case Unlock(_) =>
      && previous.Device?
      && (previous.step.Alloc? || previous.step.CopyIn? || previous.step.Install? || previous.step.CopyOut?)
  }

  predicate ReadLock(step: Step) {
    step.Lock? && step.call.ReadCall?
  }

  /** Where the connection stands is where its latest move put it. */
  predicate StandsAfter(c: Client, pc: Pc, previous: Move) {
    match c.phase
    case Outside =>
      (match c.conn.state
       case WaitingForData => EndsRound(previous)
       case ProcessingData => previous.Receive? || IsUnlock(previous)
       case SendingData => previous.Process?
       case ClosedConnection => true)
    case Writing => previous.Begin?
    case Echoing(_) => IsUnlock(previous)
    case _ => previous.Device? && CallStandsAfter(pc, previous.step)
  }

  predicate CallStandsAfter(pc: Pc, step: Step) {
    match pc
    case Idle => false
    case Allocating(_) => step.Lock? && step.call.WriteCall?
    case Filling(_, _) => step.Alloc? || step.CopyIn?
    case Installing(_, _) => step.CopyIn? || step.Install?
    case Reading(_, _, _) => ReadLock(step) || step.CopyOut?
    case Releasing(_, _) => step.Alloc? || step.Install? || step.CopyOut?
    case FaultReleasing(_, _) => step.CopyIn?
    case FaultFreeing(_, _) => step.Unlock?
  }

  lemma MovingOnFollows(c: Client, pc: Pc, pc': Pc, step: Step, previous: Move)
    requires CallOk(c, pc) && StandsAfter(c, pc, previous) && MovesOn(pc, pc', step) && Continue(c, pc, step).Some?
    ensures StepMayFollow(previous, step) && StandsAfter(Continue(c, pc, step).value, pc', Device(step))
  {
  }

  lemma DecidingFollows(c: Client, pc: Pc, pc': Pc, step: Step, call: Call, result: Result, previous: Move)
    requires CallOk(c, pc) && StandsAfter(c, pc, previous) && Decides(pc, pc', step, call, result)
    ensures StepMayFollow(previous, step) && Continue(c, pc, step) == Some(c) && StandsAfter(c, pc', Device(step))
  {
  }

  lemma DeviceFollows(s: Server, step: Step, previous: Move)
    requires ServerInv(s) && MoveTo(s, Device(step)).Some?
    requires StandsAfter(s.clients[step.t], s.dev.At(step.t), previous)
    ensures StepMayFollow(previous, step)
    ensures var s' := MoveTo(s, Device(step)).value;
            step.t in s'.clients && StandsAfter(s'.clients[step.t], s'.dev.At(step.t), Device(step))
  {
    var (id, c, pc, dev) := (step.t, s.clients[step.t], s.dev.At(step.t), Next(s.dev, step).value);
    assert ClientOk(s.dev, id, c);
    if |dev.events| > |s.dev.events| {
      var call, result := NextDecides(s.dev, step);
      DecidingFollows(c, pc, dev.At(id), step, call, result, previous);
    } else {
      NextMovesOn(s.dev, step);
      MovingOnFollows(c, pc, dev.At(id), step, previous);
    }
  }

  lemma ClientFollows(s: Server, move: Move, previous: Move)
    requires !move.Device? && !move.Connect? && MoveTo(s, move).Some?
    requires StandsAfter(s.clients[move.id], s.dev.At(move.id), previous)
    ensures MayFollow(previous, move)
    ensures var s' := MoveTo(s, move).value;
            move.id in s'.clients && StandsAfter(s'.clients[move.id], s'.dev.At(move.id), move)
  {
  }

  lemma {:induction false} RunStandsAfter(n: nat, moves: seq<Move>, id: Tid)
    requires RunServer(n, moves).Some? && id in RunServer(n, moves).value.clients
    ensures Previous(moves, id).Some?
    ensures var s := RunServer(n, moves).value;
            StandsAfter(s.clients[id], s.dev.At(id), Previous(moves, id).value)
  {
    var (earlier, move) := (moves[..|moves| - 1], moves[|moves| - 1]);
    var s := RunServer(n, earlier).value;
    if id !in s.clients {
      Newcomer(s, move, id);
    } else {
      RunStandsAfter(n, earlier, id);
      var steps := ServerRuns(n, earlier);
      if Mover(move) != id {
        OthersKeep(s, move, id);
      } else if move.Device? {
        DeviceFollows(s, move.step, Previous(earlier, id).value);
      } else if !move.Connect? {
        ClientFollows(s, move, Previous(earlier, id).value);
      }
    }
  }

  lemma {:induction false} RunBefore(n: nat, moves: seq<Move>, m: nat)
    requires RunServer(n, moves).Some? && m <= |moves|
    ensures RunServer(n, moves[..m]).Some?
  {
    if m < |moves| {
      RunBefore(n, moves[..|moves| - 1], m);
      PrefixOfPrefix(moves, |moves| - 1, m);
    } else {
      assert moves[..m] == moves;
    }
  }

  lemma RunAt(n: nat, moves: seq<Move>, m: nat)
    requires RunServer(n, moves).Some? && m < |moves|
    ensures RunServer(n, moves[..m]).Some? && MoveTo(RunServer(n, moves[..m]).value, moves[m]).Some?
  {
    RunBefore(n, moves, m + 1);
    PrefixOfPrefix(moves, m + 1, m);
    RunBefore(n, moves, m);
  }

  /** In every run each connection makes its calls in the source's order. */
  lemma CallsInOrder(n: nat, moves: seq<Move>, m: nat)
    requires RunServer(n, moves).Some? && m < |moves| && !moves[m].Connect?
    ensures Previous(moves[..m], Mover(moves[m])).Some?
    ensures MayFollow(Previous(moves[..m], Mover(moves[m])).value, moves[m])
  {
    RunAt(n, moves, m);
    var s := RunServer(n, moves[..m]).value;
    var steps := ServerRuns(n, moves[..m]);
    RunStandsAfter(n, moves[..m], Mover(moves[m]));
    var previous := Previous(moves[..m], Mover(moves[m])).value;
    if moves[m].Device? {
      DeviceFollows(s, moves[m].step, previous);
    } else {
      ClientFollows(s, moves[m], previous);
    }
  }
}
