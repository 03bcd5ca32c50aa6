/** Which result each concurrent call gets: what the allocator and the user copies answered it decides
    that, and nothing else. */
module DeviceAnswers {
  import opened Prelude
  import opened CircularBuffer
  import opened CharDevice
  import opened DeviceConcurrency
  import Spec = DeviceSpec

  /** The call of the thread that has the lock, while it is undecided; `done` counts the bytes a read
      has copied. */
  datatype Turn = Turn(t: Tid, call: Call, done: nat)

  /** The device's meaning, the undecided call and the decided ones, with no lock, heap or ring. */
  datatype Trace = Trace(dev: Spec.DevState, turn: Option<Turn>, answers: seq<Event>)

  /** How many bytes one copy_to_user is asked for: what is left of the string at that offset. */
  function NextSize(entries: seq<seq<byte>>, off: nat, want: nat): nat {
    match Locate(Lengths(entries), off)
    case None => 0
    case Some((k, j)) => if k < |entries| && j < |entries[k]| then Min(|entries[k]| - j, want) else 0
  }

  /** A user copy that leaves bytes over. */
  predicate Short(dev: Spec.DevState, turn: Turn, step: Step) {
    match (turn.call, step)
    case (WriteCall(data), CopyIn(_, copied)) => copied < |data|
    case (ReadCall(fPos, count), CopyOut(_, copied)) =>
      turn.done <= count && copied < NextSize(dev.entries, fPos + turn.done, count - turn.done)
    case _ => false
  }

  predicate OutOfMemory(step: Step) {
    step.Alloc? && step.answer.None?
  }

  /** What this step makes of the undecided call. */
  function Verdict(dev: Spec.DevState, turn: Turn, step: Step): Option<Result> {
    if step.t != turn.t then None
    else if OutOfMemory(step) then Some(NoMemory)
    else if Short(dev, turn, step) then Some(Fault)
    else
      match (turn.call, step)
      case (WriteCall(data), Install(_)) => Some(Written(|data|))
      case (ReadCall(fPos, count), CopyOut(_, _)) =>
        if turn.done >= count || NextSize(dev.entries, fPos + turn.done, count - turn.done) == 0 then
          Some(Copied(Slice(dev.Flat(), fPos, count)))
        else None
      case _ => None
  }

  function Progress(dev: Spec.DevState, turn: Turn, step: Step): Turn {
    match (turn.call, step)
    case (ReadCall(fPos, count), CopyOut(t, _)) =>
      if t == turn.t && turn.done <= count then
        turn.(done := turn.done + NextSize(dev.entries, fPos + turn.done, count - turn.done))
      else turn
    case _ => turn
  }

  /** Only a successful write changes what the device means. */
  function After(n: nat, dev: Spec.DevState, call: Call, result: Result): Spec.DevState {
    if result.Written? && call.WriteCall? then Spec.Write(n, dev, call.data) else dev
  }

  function Then(n: nat, tr: Trace, step: Step): Trace {
    if step.Lock? then tr.(turn := Some(Turn(step.t, step.call, 0)))
    else
      match tr.turn
      case None => tr
      case Some(turn) =>
        match Verdict(tr.dev, turn, step)
        case None => tr.(turn := Some(Progress(tr.dev, turn, step)))
        case Some(result) =>
          Trace(After(n, tr.dev, turn.call, result), None, tr.answers + [Event(turn.t, turn.call, result)])
  }

  function TraceOf(n: nat, steps: seq<Step>): Trace {
    if steps == [] then Trace(Spec.FRESH, None, [])
    else Then(n, TraceOf(n, steps[..|steps| - 1]), steps[|steps| - 1])
  }

  /** The undecided call, as the driver's state shows it. */
  function TurnOf(s: State): Option<Turn> {
    if s.lock.None? then None
    else
      match s.At(s.lock.value)
      case Allocating(data) => Some(Turn(s.lock.value, WriteCall(data), 0))
      case Filling(data, _) => Some(Turn(s.lock.value, WriteCall(data), 0))
      case Installing(data, _) => Some(Turn(s.lock.value, WriteCall(data), 0))
      case Reading(fPos, count, got) => Some(Turn(s.lock.value, ReadCall(fPos, count), |got|))
      case _ => None
  }

  lemma SizesAreLengths(d: Dev, inFlight: set<Ptr>)
    requires d.Owned(inFlight)
    ensures Sizes(d.ring.Live()) == Lengths(d.Abs().entries)
  {
    var live := d.ring.Live();
    assert forall i :: 0 <= i < |live| ==> live[i] == d.Held()[i];
    assert Sizes(live) == Lengths(Contents(d.heap, live));
  }

  lemma BufferAt(d: Dev, k: nat, inFlight: set<Ptr>)
    requires d.Owned(inFlight) && k < |d.ring.Live()|
    ensures var e := d.ring.Live()[k];
            && k < |d.Abs().entries| && e.buffptr.Some? && e.buffptr.value in d.heap
            && e.size == |d.heap[e.buffptr.value]| == |d.Abs().entries[k]|
  {
    assert d.ring.Live()[k] == d.Held()[k];
  }

  /** The chunk that one pass finds is as long as the strings say. */
  lemma ChunkSize(d: Dev, off: nat, want: nat, inFlight: set<Ptr>)
    requires d.Owned(inFlight)
    ensures Chunk(d, off, want).Some? && |Chunk(d, off, want).value| == NextSize(d.Abs().entries, off, want)
  {
    var sizes := Lengths(d.Abs().entries);
    SizesAreLengths(d, inFlight);
    LocateSound(sizes, off);
    if Locate(sizes, off).Some? {
      BufferAt(d, Locate(sizes, off).value.0, inFlight);
    }
  }

  /** The undecided call and the decided ones, as the driver's state and as the trace show them. */
  function Shown(s: State): (Option<Turn>, seq<Event>) {
    (TurnOf(s), s.events)
  }

  function Traced(tr: Trace): (Option<Turn>, seq<Event>) {
    (tr.turn, tr.answers)
  }

  function Seen(abs: Spec.DevState, s: State): Trace {
    Trace(abs, TurnOf(s), s.events)
  }

  /** Steps that neither lock nor decide nor copy. */
  lemma QuietTurn(n: nat, s: State, step: Step, abs: Spec.DevState)
    requires (step.LockInterrupted? || step.Unlock? || step.LateFree?) && Next(s, step).Some?
    requires s.At(step.t).Holds() <==> s.lock == Some(step.t)
    ensures Shown(Next(s, step).value) == Traced(Then(n, Seen(abs, s), step))
  {
  }

  lemma LockTurn(n: nat, s: State, step: Step, abs: Spec.DevState)
    requires step.Lock? && Next(s, step).Some?
    ensures Shown(Next(s, step).value) == Traced(Then(n, Seen(abs, s), step))
  {
  }

  lemma AllocTurn(n: nat, s: State, step: Step, abs: Spec.DevState)
    requires step.Alloc? && Next(s, step).Some? && s.lock == Some(step.t)
    ensures Shown(Next(s, step).value) == Traced(Then(n, Seen(abs, s), step))
  {
  }

  lemma CopyInTurn(n: nat, s: State, step: Step, abs: Spec.DevState)
    requires step.CopyIn? && Next(s, step).Some? && Next(s, step).value.clean && s.lock == Some(step.t)
    ensures Shown(Next(s, step).value) == Traced(Then(n, Seen(abs, s), step))
  {
  }

  lemma InstallTurn(n: nat, s: State, step: Step, abs: Spec.DevState)
    requires step.Install? && Next(s, step).Some? && Next(s, step).value.clean && s.lock == Some(step.t)
    ensures Shown(Next(s, step).value) == Traced(Then(n, Seen(abs, s), step))
  {
  }

  lemma ReadEnds(n: nat, tr: Trace, turn: Turn, copied: nat, bytes: seq<byte>)
    requires tr.turn == Some(turn) && turn.call.ReadCall? && turn.done <= turn.call.count
    requires NextSize(tr.dev.entries, turn.call.fPos + turn.done, turn.call.count - turn.done) == 0
    requires bytes == Slice(tr.dev.Flat(), turn.call.fPos, turn.call.count)
    ensures Traced(Then(n, tr, CopyOut(turn.t, copied)))
         == (None, tr.answers + [Event(turn.t, turn.call, Copied(bytes))])
  {
  }

  lemma ReadGoesOn(n: nat, tr: Trace, turn: Turn, copied: nat, size: nat)
    requires tr.turn == Some(turn) && turn.call.ReadCall? && turn.done + size <= turn.call.count && size > 0
    requires NextSize(tr.dev.entries, turn.call.fPos + turn.done, turn.call.count - turn.done) == size
    ensures Traced(Then(n, tr, CopyOut(turn.t, copied)))
         == if copied < size then (None, tr.answers + [Event(turn.t, turn.call, Fault)])
            else (Some(turn.(done := turn.done + size)), tr.answers)
  {
  }

  lemma EffectShown(s: State, t: Tid, call: Call, result: Result)
    requires s.lock == Some(t)
    ensures Shown(s.Effect(t, call, result)) == (None, s.events + [Event(t, call, result)])
  {
  }

  lemma ReadingShown(s: State, t: Tid, pc: Pc)
    requires s.lock == Some(t) && pc.Reading?
    ensures Shown(s.Goto(t, pc)) == (Some(Turn(t, ReadCall(pc.fPos, pc.count), |pc.got|)), s.events)
  {
  }

  lemma CopiedOutTurn(n: nat, s: State, s': State, t: Tid, copied: nat, chunk: seq<byte>, abs: Spec.DevState)
    requires s.lock == Some(t) && s.At(t).Reading? && |s.At(t).got| + |chunk| <= s.At(t).count
    requires s' == CopiedOut(s, t, s.At(t), copied, chunk)
    requires var pc := s.At(t);
             && |chunk| == NextSize(abs.entries, pc.fPos + |pc.got|, pc.count - |pc.got|)
             && (chunk == [] ==> pc.got == Slice(abs.Flat(), pc.fPos, pc.count))
    ensures Shown(s') == Traced(Then(n, Seen(abs, s), CopyOut(t, copied)))
  {
    var pc := s.At(t);
    var turn := Turn(t, ReadCall(pc.fPos, pc.count), |pc.got|);
    if chunk == [] {
      EffectShown(s, t, turn.call, Copied(pc.got));
      ReadEnds(n, Seen(abs, s), turn, copied, pc.got);
    } else {
      EffectShown(s, t, turn.call, Fault);
      ReadingShown(s, t, pc.(got := pc.got + chunk));
      ReadGoesOn(n, Seen(abs, s), turn, copied, |chunk|);
    }
  }

  lemma CopyOutTurn(n: nat, s: State, s': State, t: Tid, copied: nat, abs: Spec.DevState, inFlight: set<Ptr>)
    requires s.lock == Some(t) && s.dev.Owned(inFlight) && s.dev.Abs() == abs
    requires s.At(t).Reading? && |s.At(t).got| <= s.At(t).count && s.At(t).got <= From(abs.Flat(), s.At(t).fPos)
    requires s' == CopyOutStep(s, t, s.At(t), copied)
    ensures Shown(s') == Traced(Then(n, Seen(abs, s), CopyOut(t, copied)))
  {
    var chunk := CopyOutFinds(s, t, copied, inFlight);
    CopiedOutTurn(n, s, s', t, copied, chunk, abs);
  }

  lemma CopyOutFinds(s: State, t: Tid, copied: nat, inFlight: set<Ptr>) returns (chunk: seq<byte>)
    requires s.dev.Owned(inFlight) && s.At(t).Reading? && |s.At(t).got| <= s.At(t).count
    requires s.At(t).got <= From(s.dev.Abs().Flat(), s.At(t).fPos)
    ensures CopyOutStep(s, t, s.At(t), copied) == CopiedOut(s, t, s.At(t), copied, chunk)
    ensures |s.At(t).got| + |chunk| <= s.At(t).count
    ensures var (pc, abs) := (s.At(t), s.dev.Abs());
            && |chunk| == NextSize(abs.entries, pc.fPos + |pc.got|, pc.count - |pc.got|)
            && (chunk == [] ==> pc.got == Slice(abs.Flat(), pc.fPos, pc.count))
  {
    var pc := s.At(t);
    chunk := ChunkOfRead(s.dev, pc.fPos, pc.count, pc.got, inFlight);
    CopyOutIs(s, t, pc, copied, chunk);
  }

  lemma CopyOutIs(s: State, t: Tid, pc: Pc, copied: nat, chunk: seq<byte>)
    requires s.dev.ring.Valid() && pc.Reading? && |pc.got| <= pc.count
    requires Chunk(s.dev, pc.fPos + |pc.got|, pc.count - |pc.got|) == Some(chunk)
    ensures CopyOutStep(s, t, pc, copied) == CopiedOut(s, t, pc, copied, chunk)
  {
  }

  lemma ChunkOfRead(d: Dev, fPos: nat, count: nat, got: seq<byte>, inFlight: set<Ptr>) returns (chunk: seq<byte>)
    requires d.Owned(inFlight) && |got| <= count && got <= From(d.Abs().Flat(), fPos)
    ensures Chunk(d, fPos + |got|, count - |got|) == Some(chunk) && |got| + |chunk| <= count
    ensures |chunk| == NextSize(d.Abs().entries, fPos + |got|, count - |got|)
    ensures chunk == [] ==> got == Slice(d.Abs().Flat(), fPos, count)
  {
    var (flat, off, want) := (d.Abs().Flat(), fPos + |got|, count - |got|);
    chunk := ChunkFound(d, flat, off, want, inFlight);
    if chunk == [] {
      ReadIsOver(flat, fPos, count, got);
    }
  }

  lemma ReadIsOver(flat: seq<byte>, fPos: nat, count: nat, got: seq<byte>)
    requires |got| <= count && got <= From(flat, fPos)
    requires |got| == count || From(flat, fPos + |got|) == []
    ensures got == Slice(flat, fPos, count)
  {
    assert |From(flat, fPos)| <= |got| || |got| == count;
  }

  lemma ChunkFound(d: Dev, flat: seq<byte>, off: nat, want: nat, inFlight: set<Ptr>) returns (chunk: seq<byte>)
    requires d.Owned(inFlight) && flat == d.Abs().Flat()
    ensures Chunk(d, off, want) == Some(chunk) && |chunk| == NextSize(d.Abs().entries, off, want)
    ensures chunk <= From(flat, off) && |chunk| <= want
    ensures want > 0 && From(flat, off) != [] ==> chunk != []
  {
    ChunkSize(d, off, want, inFlight);
    ChunkFollowsText(d, off, want, inFlight);
    chunk := Chunk(d, off, want).value;
  }

  lemma StepAgrees(n: nat, s: State, step: Step, abs: Spec.DevState)
    requires Means(n, s.dev, s.inFlight.Keys, abs) && Replay(n, s.events) == Some(abs) && Control(s, abs)
    requires Next(s, step).Some?
    ensures Shown(Next(s, step).value) == Traced(Then(n, Seen(abs, s), step))
  {
    StepInv(n, s, step);
    assert ThreadInv(s, abs, step.t);
    match step
    case Lock(_, _) => LockTurn(n, s, step, abs);
    case Alloc(_, _, _) => AllocTurn(n, s, step, abs);
    case CopyIn(_, _) => CopyInTurn(n, s, step, abs);
    case Install(_) => InstallTurn(n, s, step, abs);
    case CopyOut(t, copied) => CopyOutTurn(n, s, Next(s, step).value, t, copied, abs, s.inFlight.Keys);
    case _ => QuietTurn(n, s, step, abs);
  }

  lemma AloneIsAfter(n: nat, dev: Spec.DevState, call: Call, result: Result)
    requires Alone(n, dev, call, result).Some?
    ensures Alone(n, dev, call, result).value == After(n, dev, call, result)
  {
  }

  lemma ThenKeepsOrAdds(n: nat, tr: Trace, step: Step)
    ensures var tr' := Then(n, tr, step);
            || (tr'.dev == tr.dev && tr'.answers == tr.answers)
            || (exists e :: tr'.answers == tr.answers + [e] && tr'.dev == After(n, tr.dev, e.call, e.result))
  {
    if !step.Lock? && tr.turn.Some? && Verdict(tr.dev, tr.turn.value, step).Some? {
      var e := Event(tr.turn.value.t, tr.turn.value.call, Verdict(tr.dev, tr.turn.value, step).value);
      assert Then(n, tr, step).answers == tr.answers + [e];
    }
  }

  /** The trace's device is what its answers replay to. */
  lemma ThenReplays(n: nat, tr: Trace, step: Step)
    requires Replay(n, tr.answers) == Some(tr.dev) && Replay(n, Then(n, tr, step).answers).Some?
    ensures Replay(n, Then(n, tr, step).answers) == Some(Then(n, tr, step).dev)
  {
    var tr' := Then(n, tr, step);
    ThenKeepsOrAdds(n, tr, step);
    if !(tr'.dev == tr.dev && tr'.answers == tr.answers) {
      var e :| tr'.answers == tr.answers + [e] && tr'.dev == After(n, tr.dev, e.call, e.result);
      ReplaySnoc(n, tr.answers, e);
      AloneIsAfter(n, tr.dev, e.call, e.result);
    }
  }

  lemma {:induction false} RunIsTraced(n: nat, steps: seq<Step>)
    requires 1 <= n <= MAX_CAPACITY && Run(n, steps).Some?
    ensures Replay(n, Run(n, steps).value.events).Some?
    ensures TraceOf(n, steps)
         == Seen(Replay(n, Run(n, steps).value.events).value, Run(n, steps).value)
  {
    RunInv(n, steps);
    if steps != [] {
      var (earlier, step) := (steps[..|steps| - 1], steps[|steps| - 1]);
      var s := Run(n, earlier).value;
      RunIsTraced(n, earlier);
      RunInv(n, earlier);
      var abs :| Means(n, s.dev, s.inFlight.Keys, abs) && Replay(n, s.events) == Some(abs) && Control(s, abs);
      StepAgrees(n, s, step, abs);
      ThenReplays(n, Seen(abs, s), step);
    }
  }

  /** The undecided call right before step `i` of the run, if any. */
  function TurnAt(n: nat, steps: seq<Step>, i: nat): Option<Turn>
    requires i <= |steps|
  {
    TraceOf(n, steps[..i]).turn
  }

  /** Step `i` is a failed allocation, or a user copy that leaves bytes over, of the undecided call. */
  predicate Spoils(n: nat, steps: seq<Step>, i: nat)
    requires i < |steps|
  {
    var turn := TurnAt(n, steps, i);
    && turn.Some? && steps[i].t == turn.value.t
    && (OutOfMemory(steps[i]) || Short(TraceOf(n, steps[..i]).dev, turn.value, steps[i]))
  }

  /** Step `i` belongs to a time in which this call is undecided, and leaves it so. */
  predicate LeavesUndecided(n: nat, steps: seq<Step>, i: nat, t: Tid, call: Call)
    requires i < |steps|
  {
    var (dev, turn) := (TraceOf(n, steps[..i]).dev, TurnAt(n, steps, i));
    && !steps[i].Lock? && turn.Some? && turn.value.t == t && turn.value.call == call
    && Verdict(dev, turn.value, steps[i]).None?
  }

  /** The call of event `e` got the lock at step `l` and was decided at step `m`, with this result, and
      nothing decided it in between. */
  ghost predicate Decided(n: nat, steps: seq<Step>, l: nat, m: nat, e: Event) {
    && l < m < |steps| && steps[l] == Lock(e.tid, e.call) && steps[m].t == e.tid && !steps[m].Lock?
    && (forall i :: l < i < m ==> LeavesUndecided(n, steps, i, e.tid, e.call))
    && TurnAt(n, steps, m).Some? && TurnAt(n, steps, m).value.t == e.tid && TurnAt(n, steps, m).value.call == e.call
    && Verdict(TraceOf(n, steps[..m]).dev, TurnAt(n, steps, m).value, steps[m]) == Some(e.result)
  }

  lemma TraceBefore(n: nat, steps: seq<Step>, i: nat)
    requires i < |steps|
    ensures steps[..|steps| - 1][..i] == steps[..i]
    ensures i < |steps| - 1 ==> steps[..|steps| - 1][i] == steps[i]
  {
    PrefixOfPrefix(steps, |steps| - 1, i);
  }

  lemma LeavesUndecidedLater(n: nat, steps: seq<Step>, i: nat, t: Tid, call: Call)
    requires i < |steps| - 1 && LeavesUndecided(n, steps[..|steps| - 1], i, t, call)
    ensures LeavesUndecided(n, steps, i, t, call)
  {
    TraceBefore(n, steps, i);
  }

  lemma {:induction false} TurnSince(n: nat, steps: seq<Step>) returns (l: nat)
    requires TraceOf(n, steps).turn.Some?
    ensures var turn := TraceOf(n, steps).turn.value;
            && l < |steps| && steps[l] == Lock(turn.t, turn.call)
            && forall i :: l < i < |steps| ==> LeavesUndecided(n, steps, i, turn.t, turn.call)
  {
    var (earlier, step) := (steps[..|steps| - 1], steps[|steps| - 1]);
    l := |steps| - 1;
    if !step.Lock? {
      var turn := TraceOf(n, steps).turn.value;
      l := TurnSince(n, earlier);
      forall i | l < i < |steps|
        ensures LeavesUndecided(n, steps, i, turn.t, turn.call)
      {
        if i < |steps| - 1 {
          LeavesUndecidedLater(n, steps, i, turn.t, turn.call);
        }
      }
    }
  }

  lemma DecidedLater(n: nat, steps: seq<Step>, l: nat, m: nat, e: Event)
    requires steps != [] && Decided(n, steps[..|steps| - 1], l, m, e)
    ensures Decided(n, steps, l, m, e)
  {
    TraceBefore(n, steps, m);
    forall i | l < i < m
      ensures LeavesUndecided(n, steps, i, e.tid, e.call)
    {
      LeavesUndecidedLater(n, steps, i, e.tid, e.call);
    }
  }

  /** Every decided call has its lock step and its deciding step. */
  lemma {:induction false} Cause(n: nat, steps: seq<Step>, k: nat) returns (l: nat, m: nat)
    requires k < |TraceOf(n, steps).answers|
    ensures Decided(n, steps, l, m, TraceOf(n, steps).answers[k])
  {
    var earlier := steps[..|steps| - 1];
    var e := TraceOf(n, steps).answers[k];
    if k < |TraceOf(n, earlier).answers| {
      l, m := Cause(n, earlier, k);
      assert e == TraceOf(n, earlier).answers[k];
      DecidedLater(n, steps, l, m, e);
    } else {
      m := |steps| - 1;
      l := TurnSince(n, earlier);
      forall i | l < i < m
        ensures LeavesUndecided(n, steps, i, e.tid, e.call)
      {
        LeavesUndecidedLater(n, steps, i, e.tid, e.call);
      }
    }
  }

  /** The call that locked at `l` and was decided at `m` has had a step of this kind. */
  ghost predicate HadFailedAlloc(steps: seq<Step>, l: nat, m: nat, t: Tid) {
    exists i :: l < i <= m < |steps| && steps[i].t == t && OutOfMemory(steps[i])
  }

  ghost predicate HadShortCopy(n: nat, steps: seq<Step>, l: nat, m: nat, t: Tid) {
    exists i :: l < i <= m < |steps| && steps[i].t == t && ShortAt(n, steps, i)
  }

  predicate ShortAt(n: nat, steps: seq<Step>, i: nat)
    requires i < |steps|
  {
    TurnAt(n, steps, i).Some? && Short(TraceOf(n, steps[..i]).dev, TurnAt(n, steps, i).value, steps[i])
  }

  lemma FailuresOf(n: nat, steps: seq<Step>, l: nat, m: nat, e: Event)
    requires Decided(n, steps, l, m, e)
    ensures e.result == NoMemory <==> HadFailedAlloc(steps, l, m, e.tid)
    ensures e.result == Fault <==> HadShortCopy(n, steps, l, m, e.tid)
  {
    assert OutOfMemory(steps[m]) <==> e.result == NoMemory;
    assert ShortAt(n, steps, m) <==> e.result == Fault;
    forall i | l < i < m && steps[i].t == e.tid
      ensures !OutOfMemory(steps[i]) && !ShortAt(n, steps, i)
    {
      assert LeavesUndecided(n, steps, i, e.tid, e.call);
    }
  }

  /** The result of every call, in every interleaving: it is out of memory if and only if its own
      allocation failed, a fault if and only if one of its own user copies left bytes over, and
      otherwise it is done; and it is decided by a step of its own thread under its own lock. */
  lemma {:induction false} ResultsFollowAnswers(n: nat, steps: seq<Step>, k: nat)
    requires 1 <= n <= MAX_CAPACITY && Run(n, steps).Some? && k < |Run(n, steps).value.events|
    ensures var e := Run(n, steps).value.events[k];
            exists l: nat, m: nat ::
              && Decided(n, steps, l, m, e)
              && (e.result == NoMemory <==> HadFailedAlloc(steps, l, m, e.tid))
              && (e.result == Fault <==> HadShortCopy(n, steps, l, m, e.tid))
  {
    RunIsTraced(n, steps);
    var l, m := Cause(n, steps, k);
    FailuresOf(n, steps, l, m, Run(n, steps).value.events[k]);
  }

  /** A call that succeeded. */
  predicate Done(e: Event) {
    e.result.Written? || e.result.Copied?
  }

  lemma {:induction false} AllDoneUnlessSpoilt(n: nat, steps: seq<Step>)
    ensures (forall k :: 0 <= k < |TraceOf(n, steps).answers| ==> Done(TraceOf(n, steps).answers[k]))
       <==> (forall i :: 0 <= i < |steps| ==> !Spoils(n, steps, i))
  {
    if steps != [] {
      var (earlier, last) := (steps[..|steps| - 1], |steps| - 1);
      var tr, tr' := TraceOf(n, earlier), TraceOf(n, steps);
      AllDoneUnlessSpoilt(n, earlier);
      forall i | 0 <= i < last
        ensures Spoils(n, steps, i) <==> Spoils(n, earlier, i)
      {
        TraceBefore(n, steps, i);
      }
      if Spoils(n, steps, last) {
        assert !Done(tr'.answers[|tr.answers|]);
      } else {
        assert forall k :: |tr.answers| <= k < |tr'.answers| ==> Done(tr'.answers[k]);
      }
      assert forall k :: 0 <= k < |tr.answers| ==> tr'.answers[k] == tr.answers[k];
    }
  }

  /** All calls of a run succeed if and only if no allocation failed and no user copy left bytes over. */
  lemma {:induction false} AllSucceed(n: nat, steps: seq<Step>)
    requires 1 <= n <= MAX_CAPACITY && Run(n, steps).Some?
    ensures (forall e :: e in Run(n, steps).value.events ==> Done(e))
       <==> (forall i :: 0 <= i < |steps| ==> !Spoils(n, steps, i))
  {
    RunIsTraced(n, steps);
    AllDoneUnlessSpoilt(n, steps);
  }

  /** The calls in the order in which the steps gave them the lock. */
  function Locks(steps: seq<Step>): seq<(Tid, Call)> {
    if steps == [] then []
    else
      var (earlier, last) := (Locks(steps[..|steps| - 1]), steps[|steps| - 1]);
      if last.Lock? then earlier + [(last.t, last.call)] else earlier
  }

  lemma NextOrder(s: State, step: Step)
    requires Next(s, step).Some?
    ensures Next(s, step).value.order == if step.Lock? then s.order + [(step.t, step.call)] else s.order
  {
  }

  /** The recorded order is that of the run's lock steps. */
  lemma {:induction false} OrderIsLocks(n: nat, steps: seq<Step>)
    requires Run(n, steps).Some?
    ensures Run(n, steps).value.order == Locks(steps)
  {
    if steps != [] {
      OrderIsLocks(n, steps[..|steps| - 1]);
      NextOrder(Run(n, steps[..|steps| - 1]).value, steps[|steps| - 1]);
    }
  }

  /** A step that neither fails to allocate nor leaves bytes over, whatever the state. */
  predicate Well(step: Step, pc: Pc) {
    match step
    case Alloc(_, answer, _) => answer.Some?
    case CopyIn(_, copied) => pc.Filling? && copied == |pc.data|
    case CopyOut(_, copied) => pc.Reading? && copied == pc.count
    case _ => true
  }

  /** The holder's next step when nothing fails. */
  lemma WellOnward(n: nat, s: State, t: Tid) returns (step: Step)
    requires Inv(n, s) && s.lock == Some(t)
    ensures step.t == t && Well(step, s.At(t)) && Next(s, step).Some?
  {
    step := Onward(t, s.At(t));
    OnwardIsEnabled(n, s, t);
    if s.At(t).Allocating? {
      var size := if s.dev.temp.buffptr.None? then |s.At(t).data| else s.dev.temp.size + |s.At(t).data|;
      var p := Unused(s.dev.heap.Keys);
      step := Alloc(t, Some(p), seq(size, _ => NEWLINE));
    }
  }

  lemma {:induction false} Unused(ps: set<Ptr>) returns (p: Ptr)
    ensures p !in ps && forall q :: q in ps ==> q < p
  {
    p := 0;
    if ps != {} {
      var q :| q in ps;
      var bound := Unused(ps - {q});
      p := bound + q + 1;
      assert forall r :: r in ps ==> r == q || r in ps - {q};
    }
  }

  /** From every point of every run the lock holder can finish its call with nothing failing. */
  lemma {:induction false} HolderCanFinish(n: nat, steps: seq<Step>, t: Tid) returns (more: seq<Step>)
    requires 1 <= n <= MAX_CAPACITY && Run(n, steps).Some? && Run(n, steps).value.lock == Some(t)
    ensures Run(n, steps + more).Some? && Run(n, steps + more).value.lock == None
    ensures forall step :: step in more ==> step.t == t
    ensures forall i :: |steps| <= i < |steps + more| ==> !Spoils(n, steps + more, i)
    decreases Left(Run(n, steps).value.At(t))
  {
    var s := Run(n, steps).value;
    RunInv(n, steps);
    var step := WellOnward(n, s, t);
    HolderAdvances(n, s, step, t);
    RunSnoc(n, steps, step);
    WellSpoilsNothing(n, steps, step);
    if Next(s, step).value.lock.None? {
      more := [step];
    } else {
      var rest := HolderCanFinish(n, steps + [step], t);
      more := [step] + rest;
      Assoc(steps, [step], rest);
      SpoilsBefore(n, steps + [step], rest, |steps|);
    }
  }

  lemma WellSpoilsNothing(n: nat, steps: seq<Step>, step: Step)
    requires 1 <= n <= MAX_CAPACITY && Run(n, steps).Some? && Well(step, Run(n, steps).value.At(step.t))
    ensures !Spoils(n, steps + [step], |steps|)
  {
    RunIsTraced(n, steps);
    assert (steps + [step])[..|steps|] == steps;
  }

  /** What comes later changes nothing about whether a step spoilt its call. */
  lemma SpoilsBefore(n: nat, steps: seq<Step>, more: seq<Step>, i: nat)
    requires i < |steps|
    ensures Spoils(n, steps + more, i) <==> Spoils(n, steps, i)
  {
    assert (steps + more)[..i] == steps[..i];
  }

  /** Every call can be made and can succeed: whenever the lock is free and a thread is outside, the
      thread can get the lock, run its call to the end by its own steps, and give the lock back, with
      nothing failing. Only an empty write with nothing pending is shut out. */
  lemma {:induction false} CallCanSucceed(n: nat, steps: seq<Step>, t: Tid, call: Call) returns (more: seq<Step>)
    requires 1 <= n <= MAX_CAPACITY && Run(n, steps).Some?
    requires Run(n, steps).value.lock.None? && Run(n, steps).value.At(t).Idle?
    requires call.WriteCall? ==> call.data != [] || TraceOf(n, steps).dev.pending != []
    ensures more != [] && more[0] == Lock(t, call) && forall step :: step in more ==> step.t == t
    ensures Run(n, steps + more).Some? && Run(n, steps + more).value.lock == None
    ensures forall i :: |steps| <= i < |steps + more| ==> !Spoils(n, steps + more, i)
  {
    var s, step := Run(n, steps).value, Lock(t, call);
    RunInv(n, steps);
    RunIsTraced(n, steps);
    var abs :| Means(n, s.dev, s.inFlight.Keys, abs) && Replay(n, s.events) == Some(abs) && Control(s, abs);
    PendingSize(s.dev, s.inFlight.Keys);
    RunSnoc(n, steps, step);
    assert (steps + [step])[..|steps|] == steps;
    assert !Spoils(n, steps + [step], |steps|);
    var rest := HolderCanFinish(n, steps + [step], t);
    more := [step] + rest;
    Assoc(steps, [step], rest);
    SpoilsBefore(n, steps + [step], rest, |steps|);
  }

  /** A refused lock changes nothing, and may come whenever a thread is outside. */
  lemma RefusedLockChangesNothing(n: nat, steps: seq<Step>, t: Tid)
    requires Run(n, steps).Some? && Run(n, steps).value.At(t).Idle?
    ensures Run(n, steps + [LockInterrupted(t)]) == Run(n, steps)
  {
    RunSnoc(n, steps, LockInterrupted(t));
  }

  /** What the environment may answer the lock holder: the allocator no or any unused address, and a user
      copy any number of bytes. */
  predicate MayAnswer(dev: Dev, pc: Pc, step: Step) {
    match step
    case Alloc(_, answer, junk) =>
      && pc.Allocating?
      && (answer.Some? ==> answer.value !in dev.heap && |junk| == dev.temp.size + |pc.data|)
    case CopyIn(_, copied) => pc.Filling? && copied <= |pc.data|
    case CopyOut(_, _) => pc.Reading?
    case _ => false
  }

  /** Whatever it answers, the call takes it. */
  lemma EveryAnswerIsTaken(n: nat, steps: seq<Step>, step: Step)
    requires 1 <= n <= MAX_CAPACITY && Run(n, steps).Some?
    requires MayAnswer(Run(n, steps).value.dev, Run(n, steps).value.At(step.t), step)
    ensures Run(n, steps + [step]).Some?
  {
    var s := Run(n, steps).value;
    RunInv(n, steps);
    RunSnoc(n, steps, step);
    var abs :| Means(n, s.dev, s.inFlight.Keys, abs) && Replay(n, s.events) == Some(abs) && Control(s, abs);
    assert ThreadInv(s, abs, step.t);
    PendingSize(s.dev, s.inFlight.Keys);
    TakesAnswer(s, step);
  }

  lemma TakesAnswer(s: State, step: Step)
    requires MayAnswer(s.dev, s.At(step.t), step)
    requires s.dev.temp.buffptr.None? ==> s.dev.temp.size == 0
    requires s.At(step.t).Reading? ==> |s.At(step.t).got| <= s.At(step.t).count
    ensures Next(s, step).Some?
  {
  }
}
