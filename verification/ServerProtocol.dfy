/** In which order each thread of the server makes its system calls, what each write adds to the file,
    and that nothing but the mutex keeps a thread from going on. */
module ServerProtocol {
  import opened Prelude
  import opened Framing
  import opened Connection
  import opened ServerConcurrency
  import opened ServerAnswers

  /** The connection's latest step of its own. */
  function Previous(steps: seq<Step>, id: Id): Option<Act> {
    if steps == [] then None
    else if LastAct(steps, id).Some? then LastAct(steps, id)
    else Previous(steps[..|steps| - 1], id)
  }

  /** Which call may follow which: the source's order of recv, the newline search, and the calls of
      sending_data with all its exits. A read asks for at most one byte less than the send buffer. */
  predicate MayFollow(previous: Option<Act>, act: Act) {
    match act
    case Receive(_, _) => previous.None? || previous.value.Process? || previous.value.Release?
    case Process => previous.Some? && (previous.value.Receive? || previous.value.Release?)
    case Leave => previous.None? || BetweenCalls(previous.value)
    case Lock => previous == Some(Process)
    case Open(_) => previous == Some(Act.Lock)
    case Append(_) => previous == Some(Open(true))
    case Seek => previous.Some? && previous.value.Append? && previous.value.n > 0
    case Read(n) =>
      && -1 <= n <= 1023
      && previous.Some? && (previous.value.Seek? || (previous.value.Send? && previous.value.n > 0))
    case Send(n) =>
      && previous.Some?
      && ((previous.value.Read? && previous.value.n > 0) || (previous.value.Send? && previous.value.n > 0))
    case Close(_) =>
      && previous.Some?
      && (previous.value.Append? || (previous.value.Read? && previous.value.n <= 0) || previous == Some(Send(-1)))
    case Release => previous.Some? && (previous.value.Close? || previous == Some(Open(false)))
  }

  predicate BetweenCalls(previous: Act) {
    previous.Receive? || previous.Process? || previous.Leave? || previous.Release?
  }

  /** Where the thread stands is where its latest step put it. */
  predicate StandsAfter(t: Thread, previous: Option<Act>) {
    match t.pc
    case Outside =>
      && (previous.None? || BetweenCalls(previous.value))
      && (t.conn.state.SendingData? ==> previous == Some(Process))
      && (t.conn.state.ProcessingData? ==> previous.Some? && (previous.value.Receive? || previous.value.Release?))
      && (t.conn.state.WaitingForData? ==> previous.None? || previous.value.Process? || previous.value.Release?)
    case Locked => previous == Some(Act.Lock)
    case Opened => previous == Some(Open(true))
    case Appended(_) => previous.Some? && previous.value.Append? && previous.value.n > 0
    case Reading(_, _, _) => previous.Some? && (previous.value.Seek? || (previous.value.Send? && previous.value.n > 0))
    case Sending(_, _, _, _, _) =>
      && previous.Some?
      && ((previous.value.Read? && previous.value.n > 0) || (previous.value.Send? && previous.value.n > 0))
    case Closing(_, _, _) =>
      && previous.Some?
      && (previous.value.Append? || (previous.value.Read? && previous.value.n <= 0) || previous == Some(Send(-1)))
    case Releasing(_, _, _) => previous.Some? && (previous.value.Close? || previous == Some(Open(false)))
  }

  lemma OwnStepFollows(s: State, id: Id, t: Thread, act: Act, previous: Option<Act>)
    requires StandsAfter(t, previous) && ThreadNext(s, id, t, act).Some?
    ensures MayFollow(previous, act)
    ensures var s' := ThreadNext(s, id, t, act).value; id in s'.threads && StandsAfter(s'.threads[id], Some(act))
  {
  }

  lemma {:induction false} NothingBefore(base: seq<byte>, steps: seq<Step>, id: Id)
    requires Run(base, steps).Some? && id !in Run(base, steps).value.threads
    ensures Previous(steps, id) == None
  {
    if steps != [] {
      NothingBefore(base, steps[..|steps| - 1], id);
    }
  }

  lemma {:induction false} RunStandsAfter(base: seq<byte>, steps: seq<Step>, id: Id)
    requires Run(base, steps).Some? && id in Run(base, steps).value.threads
    ensures StandsAfter(Run(base, steps).value.threads[id], Previous(steps, id))
  {
    var (earlier, step) := (steps[..|steps| - 1], steps[|steps| - 1]);
    var s := Run(base, earlier).value;
    if id !in s.threads {
      NothingBefore(base, earlier, id);
      ThreadsKnown(s, step, id);
    } else {
      RunStandsAfter(base, earlier, id);
      if step.Move? && step.id == id {
        OwnStepFollows(s, id, s.threads[id], step.act, Previous(earlier, id));
      } else {
        OthersKeep(s, step, id);
      }
    }
  }

  /** In every run each connection makes its calls in the source's order. */
  lemma CallsInOrder(base: seq<byte>, steps: seq<Step>, m: nat)
    requires Run(base, steps).Some? && m < |steps| && steps[m].Move?
    ensures MayFollow(Previous(steps[..m], steps[m].id), steps[m].act)
  {
    RunAt(base, steps, m);
    var s := Run(base, steps[..m]).value;
    RunStandsAfter(base, steps[..m], steps[m].id);
    OwnStepFollows(s, steps[m].id, s.threads[steps[m].id], steps[m].act, Previous(steps[..m], steps[m].id));
  }

  predicate OfTimer(step: Step) {
    !step.Connect? && !step.Move?
  }

  /** The timestamp writer's latest step, and the line it last came with. */
  function PreviousOfTimer(steps: seq<Step>): Option<Step> {
    if steps == [] then None
    else if OfTimer(steps[|steps| - 1]) then Some(steps[|steps| - 1])
    else PreviousOfTimer(steps[..|steps| - 1])
  }

  function LineOf(steps: seq<Step>): seq<byte> {
    if steps == [] then []
    else if steps[|steps| - 1].TimerLock? then steps[|steps| - 1].line
    else LineOf(steps[..|steps| - 1])
  }

  predicate TimerMayFollow(previous: Option<Step>, step: Step) {
    match step
    case TimerLock(_) => previous.None? || previous.value.TimerRelease?
    case TimerOpen(_) => previous.Some? && previous.value.TimerLock?
    case TimerAppend(_) => previous == Some(TimerOpen(true))
    case TimerClose => previous.Some? && previous.value.TimerAppend?
    case TimerRelease => previous.Some? && (previous.value.TimerClose? || previous == Some(TimerOpen(false)))
    case _ => false
  }

  predicate TimerStandsAfter(timer: TimerPc, previous: Option<Step>, line: seq<byte>) {
    match timer
    case Idle => previous.None? || previous.value.TimerRelease?
    case TimerLocked(l) => previous.Some? && previous.value.TimerLock? && l == line
    case TimerOpened(l) => previous == Some(TimerOpen(true)) && l == line
    case TimerClosing => previous.Some? && previous.value.TimerAppend?
    case TimerReleasing => previous.Some? && (previous.value.TimerClose? || previous == Some(TimerOpen(false)))
  }

  lemma OtherStepsKeepTimer(s: State, step: Step)
    requires Next(s, step).Some? && !OfTimer(step)
    ensures Next(s, step).value.timer == s.timer
  {
  }

  lemma TimerStepFollows(s: State, step: Step, previous: Option<Step>, line: seq<byte>)
    requires TimerStandsAfter(s.timer, previous, line) && OfTimer(step) && Next(s, step).Some?
    ensures TimerMayFollow(previous, step)
    ensures TimerStandsAfter(Next(s, step).value.timer, Some(step), if step.TimerLock? then step.line else line)
  {
  }

  lemma {:induction false} RunTimerStandsAfter(base: seq<byte>, steps: seq<Step>)
    requires Run(base, steps).Some?
    ensures TimerStandsAfter(Run(base, steps).value.timer, PreviousOfTimer(steps), LineOf(steps))
  {
    if steps != [] {
      var (earlier, step) := (steps[..|steps| - 1], steps[|steps| - 1]);
      RunTimerStandsAfter(base, earlier);
      if OfTimer(step) {
        TimerStepFollows(Run(base, earlier).value, step, PreviousOfTimer(earlier), LineOf(earlier));
      } else {
        OtherStepsKeepTimer(Run(base, earlier).value, step);
      }
    }
  }

  /** ... and so does the timestamp writer. */
  lemma TimerInOrder(base: seq<byte>, steps: seq<Step>, m: nat)
    requires Run(base, steps).Some? && m < |steps| && OfTimer(steps[m])
    ensures TimerMayFollow(PreviousOfTimer(steps[..m]), steps[m])
  {
    RunAt(base, steps, m);
    RunTimerStandsAfter(base, steps[..m]);
    TimerStepFollows(Run(base, steps[..m]).value, steps[m], PreviousOfTimer(steps[..m]), LineOf(steps[..m]));
  }

  /** How many bytes this step's write reports as written. */
  function WrittenCount(step: Step): int {
    match step
    case Move(_, Append(n)) => n
    case TimerAppend(n) => n
    case _ => 0
  }

  /** What the step adds to the file: as much of its packet or line as its write reports. */
  ghost predicate AddsWhatItWrites(s: State, s': State, step: Step, full: seq<byte>) {
    if WrittenCount(step) <= 0 then s'.pieces == s.pieces && s'.file == s.file
    else
      && WrittenCount(step) <= |full|
      && s'.file == s.file + full[..WrittenCount(step)]
      && s'.pieces == s.pieces + [Piece(Actor(step).value, full, full[..WrittenCount(step)])]
  }

  lemma ClientWrites(s: State, id: Id, act: Act)
    requires id in s.threads && Next(s, Move(id, act)).Some?
    ensures AddsWhatItWrites(s, Next(s, Move(id, act)).value, Move(id, act), s.threads[id].conn.main)
  {
  }

  lemma TimerWrites(s: State, step: Step, previous: Option<Step>, line: seq<byte>)
    requires OfTimer(step) && Next(s, step).Some? && TimerStandsAfter(s.timer, previous, line)
    ensures AddsWhatItWrites(s, Next(s, step).value, step, line)
  {
  }

  /** Every write step counts, for each run: the timestamp writer's adds as much of its line, and a
      connection's as much of the very next packet of its stream's newline split, as the write reports;
      no other step touches the file. */
  lemma {:induction false} EveryWriteCounts(base: seq<byte>, steps: seq<Step>, m: nat)
    requires Run(base, steps).Some? && m < |steps|
    ensures Run(base, steps[..m]).Some? && Run(base, steps[..m + 1]).Some?
    ensures var (s, s') := (Run(base, steps[..m]).value, Run(base, steps[..m + 1]).value);
            if steps[m].Move? && WrittenCount(steps[m]) > 0 then
              var (id, split) := (steps[m].id, Split(Delivered(steps[..m], steps[m].id)).packets);
              |Mine(s.pieces, id)| < |split| && AddsWhatItWrites(s, s', steps[m], split[|Mine(s.pieces, id)|])
            else AddsWhatItWrites(s, s', steps[m], LineOf(steps[..m]))
  {
    RunAt(base, steps, m);
    var s := Run(base, steps[..m]).value;
    RunTimerStandsAfter(base, steps[..m]);
    if steps[m].Move? {
      ClientWrites(s, steps[m].id, steps[m].act);
      if WrittenCount(steps[m]) > 0 {
        PacketAtHand(base, steps[..m], steps[m].id);
      }
    } else if OfTimer(steps[m]) {
      TimerWrites(s, steps[m], PreviousOfTimer(steps[..m]), LineOf(steps[..m]));
    }
  }

  /** Before its write, the packet in a thread's buffer is the next one of its stream's split. */
  lemma {:induction false} PacketAtHand(base: seq<byte>, steps: seq<Step>, id: Id)
    requires Run(base, steps).Some? && id in Run(base, steps).value.threads
    requires Run(base, steps).value.threads[id].pc.Opened?
    ensures var s := Run(base, steps).value;
            var split := Split(Delivered(steps, id)).packets;
            |Mine(s.pieces, id)| < |split| && s.threads[id].conn.main == split[|Mine(s.pieces, id)|]
  {
    RunInv(base, steps);
    RunAnswers(base, steps, id);
    var s := Run(base, steps).value;
    var t := s.threads[id];
    assert ThreadInv(s, id, t);
    SplitAfter(Mine(s.pieces, id), t.conn.Held());
    SplitStep(t.conn.main, t.conn.temp);
  }

  lemma RunSnoc(base: seq<byte>, steps: seq<Step>, step: Step)
    ensures Run(base, steps + [step]) == match Run(base, steps) case None => None case Some(s) => Next(s, step)
  {
    assert (steps + [step])[..|steps|] == steps;
  }

  /** Nothing but the mutex keeps a connection from going on: whatever recv answers is taken, what has
      been received is looked through, and a packet gets the mutex when it is free. */
  lemma OutsideGoesOn(base: seq<byte>, steps: seq<Step>, id: Id, answer: Recv, reallocOk: bool)
    requires Run(base, steps).Some? && id in Run(base, steps).value.threads && answer.Possible()
    requires Run(base, steps).value.threads[id].pc.Outside?
    ensures var (s, t) := (Run(base, steps).value, Run(base, steps).value.threads[id]);
            match t.conn.state
            case WaitingForData => Run(base, steps + [Move(id, Receive(answer, reallocOk))]).Some?
            case ProcessingData => Run(base, steps + [Move(id, Process)]).Some?
            case SendingData => s.mutex.None? ==> Run(base, steps + [Move(id, Act.Lock)]).Some?
            case ClosedConnection => true
  {
    RunSnoc(base, steps, Move(id, Receive(answer, reallocOk)));
    RunSnoc(base, steps, Move(id, Process));
    RunSnoc(base, steps, Move(id, Act.Lock));
  }

  lemma OnwardDoesNotFail(s: State, id: Id)
    requires Inv(s) && id in s.threads && s.mutex == Some(Client(id))
    ensures !Fails(s.threads[id], Onward(s, s.threads[id]))
  {
    assert ThreadInv(s, id, s.threads[id]);
  }

  /** A thread that has the mutex and has not failed can finish its echo by its own steps. */
  lemma {:induction false} EchoCanFinish(base: seq<byte>, steps: seq<Step>, id: Id) returns (more: seq<Step>)
    requires Run(base, steps).Some? && id in Run(base, steps).value.threads
    requires Run(base, steps).value.mutex == Some(Client(id)) && !Failed(Run(base, steps).value.threads[id])
    ensures forall step :: step in more ==> step.Move? && step.id == id
    ensures Run(base, steps + more).Some? && id in Run(base, steps + more).value.threads
    ensures Run(base, steps + more).value.mutex == None
    ensures var (t, t') := (Run(base, steps).value.threads[id], Run(base, steps + more).value.threads[id]);
            !Failed(t') && t'.pc.Outside? && |t'.echoes| == |t.echoes| + 1
    decreases Left(Run(base, steps).value)
  {
    var s := Run(base, steps).value;
    var step := HolderStep(s);
    RunInv(base, steps);
    HolderStepIsEnabled(s);
    HolderAdvances(s, step);
    OnwardDoesNotFail(s, id);
    RunSnoc(base, steps, step);
    FinishStep(s, id);
    if Next(s, step).value.mutex.None? {
      more := [step];
    } else {
      var rest := EchoCanFinish(base, steps + [step], id);
      more := [step] + rest;
      Assoc(steps, [step], rest);
    }
  }

  lemma FinishStep(s: State, id: Id)
    requires Inv(s) && id in s.threads && s.mutex == Some(Client(id)) && !Failed(s.threads[id])
    requires Next(s, HolderStep(s)).Some?
    ensures var (s', t) := (Next(s, HolderStep(s)).value, s.threads[id]);
            && id in s'.threads && !Failed(s'.threads[id])
            && |s'.threads[id].echoes| == |t.echoes| + (if s'.mutex.None? then 1 else 0)
            && (s'.mutex.None? ==> s'.threads[id].pc.Outside?)
  {
    var (t, act) := (s.threads[id], Onward(s, s.threads[id]));
    assert ThreadInv(s, id, t);
    OnwardDoesNotFail(s, id);
    OwnStepAnswers(s, id, t, act);
    OnlyReleaseUnlocks(s, id, t, act);
  }

  lemma OnlyReleaseUnlocks(s: State, id: Id, t: Thread, act: Act)
    requires ThreadNext(s, id, t, act).Some? && s.mutex == Some(Client(id))
    ensures var s' := ThreadNext(s, id, t, act).value;
            && (s'.mutex.None? <==> act.Release?)
            && id in s'.threads && (act.Release? ==> s'.threads[id].pc.Outside?)
  {
  }

  /** Every packet can be answered: a connection that has one and finds the mutex free can write it and
      echo the whole file by its own steps, and has then one echo more. */
  lemma {:induction false} PacketCanBeEchoed(base: seq<byte>, steps: seq<Step>, id: Id) returns (more: seq<Step>)
    requires Run(base, steps).Some? && id in Run(base, steps).value.threads
    requires Run(base, steps).value.mutex.None?
    requires Run(base, steps).value.threads[id].pc.Outside?
    requires Run(base, steps).value.threads[id].conn.state.SendingData?
    ensures forall step :: step in more ==> step.Move? && step.id == id
    ensures Run(base, steps + more).Some? && id in Run(base, steps + more).value.threads
    ensures var (t, t') := (Run(base, steps).value.threads[id], Run(base, steps + more).value.threads[id]);
            !Failed(t') && t'.pc.Outside? && |t'.echoes| == |t.echoes| + 1
  {
    var step := Move(id, Act.Lock);
    RunSnoc(base, steps, step);
    var rest := EchoCanFinish(base, steps + [step], id);
    more := [step] + rest;
    Assoc(steps, [step], rest);
  }

  /** What the system may answer a thread inside sending_data: open, write and close as they like, a read
      any part of what is left, up to 1023 bytes, and nothing only at the end, a send any part. */
  predicate MayAnswer(s: State, t: Thread, act: Act) {
    match act
    case Open(_) => t.pc.Locked?
    case Append(n) => t.pc.Opened? && -1 <= n <= |t.conn.main|
    case Read(n) =>
      && t.pc.Reading?
      && var left := |s.file| - t.pc.offset;
         n == -1 || (n == 0 && left <= 0) || (1 <= n <= left && n <= 1023)
    case Send(n) => t.pc.Sending? && (n == -1 || 1 <= n <= |t.pc.chunk| - t.pc.done)
    case Close(_) => t.pc.Closing?
    case _ => false
  }

  /** Whatever it answers, the thread takes it. */
  lemma EveryAnswerIsTaken(base: seq<byte>, steps: seq<Step>, id: Id, act: Act)
    requires Run(base, steps).Some? && id in Run(base, steps).value.threads
    requires MayAnswer(Run(base, steps).value, Run(base, steps).value.threads[id], act)
    ensures Run(base, steps + [Move(id, act)]).Some?
  {
    var s := Run(base, steps).value;
    RunInv(base, steps);
    assert ThreadInv(s, id, s.threads[id]);
    RunSnoc(base, steps, Move(id, act));
  }

  /** The timestamp writer gets the mutex when it is free, and takes whatever open and write answer. */
  lemma TimerGoesOn(base: seq<byte>, steps: seq<Step>, line: seq<byte>, ok: bool, n: int)
    requires Run(base, steps).Some? && IsPacket(line)
    ensures var s := Run(base, steps).value;
            match s.timer
            case Idle => s.mutex.None? ==> Run(base, steps + [TimerLock(line)]).Some?
            case TimerLocked(_) => Run(base, steps + [TimerOpen(ok)]).Some?
            case TimerOpened(l) => -1 <= n <= |l| ==> Run(base, steps + [TimerAppend(n)]).Some?
            case TimerClosing => Run(base, steps + [TimerClose]).Some?
            case TimerReleasing => Run(base, steps + [TimerRelease]).Some?
  {
    RunSnoc(base, steps, TimerLock(line));
    RunSnoc(base, steps, TimerOpen(ok));
    RunSnoc(base, steps, TimerAppend(n));
    RunSnoc(base, steps, TimerClose);
    RunSnoc(base, steps, TimerRelease);
  }
}
