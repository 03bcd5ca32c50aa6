/** Any number of threads inside aesd_read and aesd_write at once, interleaved at every lock,
    allocation, user copy, commit, unlock and late free. */
module DeviceConcurrency {
  import opened Prelude
  import opened CircularBuffer
  import opened CharDevice
  import Spec = DeviceSpec

  type Tid = nat

  datatype Call = WriteCall(data: seq<byte>) | ReadCall(fPos: nat, count: nat)

  datatype Result = NoMemory | Fault | Written(count: nat) | Copied(bytes: seq<byte>)

  /** Where a thread stands. All but Idle and FaultFreeing are inside the critical section; after
      a failed copy_from_user the lock is given back before the buffer is freed. */
  datatype Pc =
    | Idle
    | Allocating(data: seq<byte>)
    | Filling(data: seq<byte>, p: Ptr)
    | Installing(data: seq<byte>, p: Ptr)
    | Reading(fPos: nat, count: nat, got: seq<byte>)
    | Releasing(k: nat, result: Result)
    | FaultReleasing(k: nat, p: Ptr)
    | FaultFreeing(k: nat, p: Ptr)
  {
    predicate Holds() {
      !Idle? && !FaultFreeing?
    }

    predicate BeforeEffect() {
      Allocating? || Filling? || Installing? || Reading?
    }

    /** The place in the order of the call whose result the thread still has to give back. */
    function Returning(): Option<nat> {
      if Releasing? || FaultReleasing? || FaultFreeing? then Some(k) else None
    }

    /** The buffer the thread has allocated and neither installed nor freed. */
    function Buffer(): Option<Ptr> {
      if Filling? || Installing? || FaultReleasing? || FaultFreeing? then Some(p) else None
    }
  }

  /** A call that has taken effect, and what it will return. */
  datatype Event = Event(tid: Tid, call: Call, result: Result)

  /** `order` lists the calls as they got the lock; `events` those that have taken effect;
      `returned` what calls, by their place in the order, gave back to their callers. `inFlight`
      says who allocated each buffer that is neither installed nor freed yet, and
      `clean` turns false at a free or access of a dead buffer or outside its bounds. */
  datatype State = State(
    dev: Dev,
    lock: Option<Tid>,
    pcs: map<Tid, Pc>,
    order: seq<(Tid, Call)>,
    events: seq<Event>,
    returned: map<nat, Result>,
    inFlight: map<Ptr, Tid>,
    clean: bool)
  {
    function At(t: Tid): Pc {
      if t in pcs then pcs[t] else Idle
    }

    function Goto(t: Tid, pc: Pc): State {
      this.(pcs := pcs[t := pc])
    }

    /** The call of the lock holder takes effect with this result. */
    function Effect(t: Tid, call: Call, result: Result): State {
      this.(events := events + [Event(t, call, result)], pcs := pcs[t := Releasing(|events|, result)])
    }
  }

  /** One step of thread `t`; the other arguments are what the environment decides. */
  datatype Step =
    | Lock(t: Tid, call: Call)
    | LockInterrupted(t: Tid)
    | Alloc(t: Tid, answer: Option<Ptr>, junk: seq<byte>)
    | CopyIn(t: Tid, copied: nat)
    | Install(t: Tid)
    | CopyOut(t: Tid, copied: nat)
    | Unlock(t: Tid)
    | LateFree(t: Tid)

  function Start(n: nat): State {
    State(FreshDev(n), None, map[], [], [], map[], map[], true)
  }

  ghost function Next(s: State, step: Step): Option<State> {
    var pc := s.At(step.t);
    match step
    case Lock(t, call) =>
      if pc.Idle? && s.lock.None? && (call.WriteCall? ==> s.dev.temp.size + |call.data| > 0) then
        Some(Locked(s, t, call))
      else None
    case LockInterrupted(t) =>
      if pc.Idle? then Some(s) else None
    case Alloc(t, answer, junk) =>
      if pc.Allocating? then
        if answer.None? then Some(s.Effect(t, WriteCall(pc.data), NoMemory))
        else if answer.value !in s.dev.heap
             && |junk| == (if s.dev.temp.buffptr.None? then |pc.data| else s.dev.temp.size + |pc.data|)
        then Some(s.(dev := s.dev.(heap := s.dev.heap[answer.value := junk]), inFlight := s.inFlight[answer.value := t])
               .Goto(t, Filling(pc.data, answer.value)))
        else None
      else None
    case CopyIn(t, copied) =>
      if pc.Filling? && copied <= |pc.data| then CopyInStep(s, t, pc, copied) else None
    case Install(t) =>
      if pc.Installing? then InstallStep(s, t, pc) else None
    case CopyOut(t, copied) =>
      if pc.Reading? && |pc.got| <= pc.count then Some(CopyOutStep(s, t, pc, copied)) else None
    case Unlock(t) =>
      if pc.Releasing? || pc.FaultReleasing? then Some(Unlocked(s, t, pc)) else None
    case LateFree(t) =>
      if pc.FaultFreeing? then Some(Freed(s, t, pc)) else None
  }

  function Locked(s: State, t: Tid, call: Call): State {
    s.(lock := Some(t), order := s.order + [(t, call)]).Goto(t,
      if call.WriteCall? then Allocating(call.data) else Reading(call.fPos, call.count, []))
  }

  function Unlocked(s: State, t: Tid, pc: Pc): State
    requires pc.Releasing? || pc.FaultReleasing?
  {
    if pc.Releasing? then s.(lock := None, returned := s.returned[pc.k := pc.result]).Goto(t, Idle)
    else s.(lock := None).Goto(t, FaultFreeing(pc.k, pc.p))
  }

  function Freed(s: State, t: Tid, pc: Pc): State
    requires pc.FaultFreeing?
  {
    s.(dev := s.dev.(heap := s.dev.heap - {pc.p}), clean := s.clean && pc.p in s.dev.heap,
       inFlight := s.inFlight - {pc.p}, returned := s.returned[pc.k := Fault]).Goto(t, Idle)
  }

  /** memcpy of the pending bytes and copy_from_user behind them. */
  ghost function CopyInStep(s: State, t: Tid, pc: Pc, copied: nat): Option<State>
    requires pc.Filling? && copied <= |pc.data|
  {
    var d := s.dev;
    if && pc.p in d.heap && d.temp.size + |pc.data| <= |d.heap[pc.p]|
       && (d.temp.buffptr.Some? ==> d.temp.buffptr.value in d.heap && |d.heap[d.temp.buffptr.value]| == d.temp.size)
       && (d.temp.buffptr.None? ==> d.temp.size == 0)
    then
      var pending := if d.temp.buffptr.Some? then d.heap[d.temp.buffptr.value] else [];
      var filled := pending + pc.data[..copied];
      var s' := s.(dev := d.(heap := d.heap[pc.p := filled + d.heap[pc.p][|filled|..]]));
      if copied < |pc.data| then
        Some(s'.Effect(t, WriteCall(pc.data), Fault).Goto(t, FaultReleasing(|s.events|, pc.p)))
      else
        Some(s'.Goto(t, Installing(pc.data, pc.p)))
    else
      Some(s.(clean := false))
  }

  ghost function InstallStep(s: State, t: Tid, pc: Pc): Option<State>
    requires pc.Installing?
  {
    var d, n := s.dev, |pc.data|;
    if d.ring.Valid() && pc.p in d.heap && 0 < d.temp.size + n <= |d.heap[pc.p]| && d.FreesLive(pc.p, n) then
      Some(s.(dev := d.Installed(pc.p, n), inFlight := s.inFlight - {pc.p}).Effect(t, WriteCall(pc.data), Written(n)))
    else
      Some(s.(clean := false))
  }

  /** One pass of the read loop, or its end. */
  ghost function CopyOutStep(s: State, t: Tid, pc: Pc, copied: nat): State
    requires pc.Reading? && |pc.got| <= pc.count
  {
    if !s.dev.ring.Valid() then s.(clean := false)
    else
      match Chunk(s.dev, pc.fPos + |pc.got|, pc.count - |pc.got|)
      case None => s.(clean := false)
      case Some(chunk) => CopiedOut(s, t, pc, copied, chunk)
  }

  function CopiedOut(s: State, t: Tid, pc: Pc, copied: nat, chunk: seq<byte>): State
    requires pc.Reading?
  {
    var call := ReadCall(pc.fPos, pc.count);
    if |pc.got| == pc.count || chunk == [] then s.Effect(t, call, Copied(pc.got))
    else if copied < |chunk| then s.Effect(t, call, Fault)
    else s.Goto(t, pc.(got := pc.got + chunk))
  }

  lemma NextLeavesOthers(s: State, step: Step, u: Tid)
    requires Next(s, step).Some? && u != step.t
    ensures Next(s, step).value.At(u) == s.At(u)
  {
  }

  ghost function Run(n: nat, steps: seq<Step>): Option<State> {
    if steps == [] then Some(Start(n))
    else
      match Run(n, steps[..|steps| - 1])
      case None => None
      case Some(s) => Next(s, steps[|steps| - 1])
  }

  lemma RunSnoc(n: nat, steps: seq<Step>, step: Step)
    ensures Run(n, steps + [step]) == match Run(n, steps) case None => None case Some(s) => Next(s, step)
  {
    assert (steps + [step])[..|steps|] == steps;
  }

  /** What one call does when it runs alone; a copy can only fault when there is something to copy. */
  function Alone(n: nat, d: Spec.DevState, call: Call, result: Result): Option<Spec.DevState> {
    match call
    case WriteCall(data) =>
      (match result
       case NoMemory => Some(d)
       case Fault => if data != [] then Some(d) else None
       case Written(count) => if count == |data| then Some(Spec.Write(n, d, data)) else None
       case Copied(_) => None)
    case ReadCall(fPos, count) =>
      match result
      case Fault => if Slice(d.Flat(), fPos, count) != [] then Some(d) else None
      case Copied(bytes) => if bytes == Slice(d.Flat(), fPos, count) then Some(d) else None
      case _ => None
  }

  /** The calls one at a time, each with its result; None when some result would be impossible. */
  function Replay(n: nat, events: seq<Event>): Option<Spec.DevState> {
    if events == [] then Some(Spec.FRESH)
    else
      var e := events[|events| - 1];
      match Replay(n, events[..|events| - 1])
      case None => None
      case Some(d) => Alone(n, d, e.call, e.result)
  }

  /** The newest call in the order is this one, and it has not taken effect yet. */
  ghost predicate Underway(s: State, t: Tid, call: Call) {
    |s.order| == |s.events| + 1 && s.order[|s.events|] == (t, call)
  }

  /** Call number `k` belongs to `t`, has taken effect, and will return `result`. */
  ghost predicate Decided(s: State, t: Tid, k: nat, result: Result) {
    k < |s.events| && s.events[k].tid == t && s.events[k].result == result
  }

  /** What holds of one thread, given where it stands and what the device means. */
  ghost predicate ThreadInv(s: State, abs: Spec.DevState, t: Tid) {
    var pc := s.At(t);
    && (pc.Holds() <==> s.lock == Some(t))
    && (pc.Buffer().Some? ==> pc.Buffer().value in s.inFlight && s.inFlight[pc.Buffer().value] == t)
    && match pc
       case Idle => true
       case Allocating(data) => Underway(s, t, WriteCall(data)) && abs.pending + data != []
       case Filling(data, p) =>
         && Underway(s, t, WriteCall(data)) && abs.pending + data != []
         && p in s.dev.heap && |s.dev.heap[p]| == |abs.pending + data|
       case Installing(data, p) =>
         && Underway(s, t, WriteCall(data)) && abs.pending + data != []
         && p in s.dev.heap && s.dev.heap[p] == abs.pending + data
       case Reading(fPos, count, got) =>
         && Underway(s, t, ReadCall(fPos, count))
         && |got| <= count && got <= From(abs.Flat(), fPos)
       case Releasing(k, result) => Decided(s, t, k, result) && |s.order| == |s.events|
       case FaultReleasing(k, _) => Decided(s, t, k, Fault) && |s.order| == |s.events|
       case FaultFreeing(k, _) => Decided(s, t, k, Fault)
  }

  /** Calls take effect in the order in which they got the lock, and return what was decided. */
  ghost predicate History(s: State) {
    && (s.lock.None? ==> |s.order| == |s.events|)
    && |s.events| <= |s.order|
    && (forall i :: 0 <= i < |s.events| ==> s.order[i] == (s.events[i].tid, s.events[i].call))
    && (forall k :: k in s.returned ==> k < |s.events| && s.events[k].result == s.returned[k])
    && (forall p :: p in s.inFlight ==> s.At(s.inFlight[p]).Buffer() == Some(p))
  }

  /** The part of the invariant that sees the device only through its meaning. */
  ghost predicate Control(s: State, abs: Spec.DevState) {
    && s.clean
    && History(s)
    && (forall t :: ThreadInv(s, abs, t))
  }

  /** The device is in order, with just these buffers in flight, and means `abs`. */
  ghost predicate Means(n: nat, d: Dev, inFlight: set<Ptr>, abs: Spec.DevState) {
    d.ring.Capacity() == n && d.Owned(inFlight) && d.Abs() == abs
  }

  ghost predicate Inv(n: nat, s: State) {
    exists abs :: Means(n, s.dev, s.inFlight.Keys, abs) && Replay(n, s.events) == Some(abs) && Control(s, abs)
  }

  lemma StartInv(n: nat)
    requires 1 <= n <= MAX_CAPACITY
    ensures Inv(n, Start(n))
  {
    FreshDevIsFresh(n);
    assert Means(n, FreshDev(n), {}, Spec.FRESH);
    assert Replay(n, []) == Some(Spec.FRESH) && Control(Start(n), Spec.FRESH);
  }

  lemma ReplaySnoc(n: nat, events: seq<Event>, e: Event)
    ensures Replay(n, events + [e])
         == match Replay(n, events) case None => None case Some(d) => Alone(n, d, e.call, e.result)
  {
    assert (events + [e])[..|events|] == events;
  }

  /** Whatever thread `t` does keeps the others' part of the invariant while they are outside. */
  lemma OthersStay(s: State, s': State, abs: Spec.DevState, abs': Spec.DevState, t: Tid)
    requires forall u :: ThreadInv(s, abs, u)
    requires s.lock.None? || s.lock == Some(t)
    requires s'.lock.None? || s'.lock == Some(t)
    requires s.events <= s'.events && t in s'.pcs && s'.pcs == s.pcs[t := s'.pcs[t]]
    requires forall p :: p in s.inFlight && s.inFlight[p] != t ==> p in s'.inFlight && s'.inFlight[p] == s.inFlight[p]
    ensures forall u :: u != t ==> ThreadInv(s', abs', u)
  {
    forall u | u != t
      ensures ThreadInv(s', abs', u)
    {
      assert ThreadInv(s, abs, u) && s'.At(u) == s.At(u);
    }
  }

  /** The holder takes a step that is not yet the effect of its call. */
  lemma Advance(s: State, s': State, t: Tid, abs: Spec.DevState)
    requires Control(s, abs) && t in s.pcs && s.pcs[t].BeforeEffect()
    requires t in s'.pcs && s' == s.(dev := s'.dev, inFlight := s'.inFlight).Goto(t, s'.pcs[t])
    requires s'.pcs[t].BeforeEffect()
    requires || (s'.inFlight == s.inFlight && s'.pcs[t].Buffer() == s.pcs[t].Buffer())
             || (&& s.pcs[t].Buffer().None? && s'.pcs[t].Buffer().Some? && s'.pcs[t].Buffer().value !in s.inFlight
                 && s'.inFlight == s.inFlight[s'.pcs[t].Buffer().value := t])
    requires ThreadInv(s', abs, t)
    ensures Control(s', abs)
  {
    assert ThreadInv(s, abs, t);
    OthersStay(s, s', abs, abs, t);
  }

  /** The holder's call takes effect; its buffer, if any, is installed or still to be freed. */
  lemma TakeEffect(s: State, s': State, t: Tid, e: Event, abs: Spec.DevState, abs': Spec.DevState)
    requires Control(s, abs) && t in s.pcs && s.pcs[t].BeforeEffect() && Underway(s, t, e.call)
    requires e.tid == t
    requires t in s'.pcs
    requires s' == s.(dev := s'.dev, inFlight := s'.inFlight, events := s.events + [e]).Goto(t, s'.pcs[t])
    requires || (&& s'.pcs[t] == Releasing(|s.events|, e.result)
                 && s'.inFlight == if s.pcs[t].Buffer().Some? then s.inFlight - {s.pcs[t].Buffer().value}
                                   else s.inFlight)
             || (&& e.result == Fault && s'.pcs[t].FaultReleasing? && s'.pcs[t].k == |s.events|
                 && s'.pcs[t].Buffer() == s.pcs[t].Buffer() && s'.inFlight == s.inFlight)
    ensures Control(s', abs')
  {
    assert ThreadInv(s, abs, t);
    OthersStay(s, s', abs, abs', t);
  }

  /** The lock holder alone changes what the device means, and it does so in one step. */
  lemma StepInv(n: nat, s: State, step: Step)
    requires Inv(n, s) && Next(s, step).Some?
    ensures Inv(n, Next(s, step).value)
  {
    var abs :| Means(n, s.dev, s.inFlight.Keys, abs) && Replay(n, s.events) == Some(abs) && Control(s, abs);
    var s' := Next(s, step).value;
    match step
    case Lock(t, call) => LockStep(n, s, t, call, abs);
    case LockInterrupted(t) =>
    case Alloc(t, answer, junk) => AllocStep(n, s, t, answer, junk, abs);
    case CopyIn(t, copied) => CopyInStepKeeps(n, s, t, copied, abs);
    case Install(t) => InstallStepKeeps(n, s, t, abs);
    case CopyOut(t, copied) => CopyOutStepKeeps(n, s, t, copied, abs);
    case Unlock(t) => UnlockStep(n, s, t, abs);
    case LateFree(t) => LateFreeStep(n, s, t, abs);
  }

  lemma LockStep(n: nat, s: State, t: Tid, call: Call, abs: Spec.DevState)
    requires Means(n, s.dev, s.inFlight.Keys, abs) && Replay(n, s.events) == Some(abs) && Control(s, abs)
    requires Next(s, Lock(t, call)).Some?
    ensures Inv(n, Next(s, Lock(t, call)).value)
  {
    PendingSize(s.dev, s.inFlight.Keys);
    LockControl(s, t, call, abs);
  }

  lemma LockControl(s: State, t: Tid, call: Call, abs: Spec.DevState)
    requires Control(s, abs) && s.At(t).Idle? && s.lock.None?
    requires call.WriteCall? ==> |abs.pending| + |call.data| > 0
    ensures Control(Locked(s, t, call), abs)
  {
    assert ThreadInv(s, abs, t);
    OthersStay(s, Locked(s, t, call), abs, abs, t);
  }

  lemma UnlockStep(n: nat, s: State, t: Tid, abs: Spec.DevState)
    requires Means(n, s.dev, s.inFlight.Keys, abs) && Replay(n, s.events) == Some(abs) && Control(s, abs)
    requires Next(s, Unlock(t)).Some?
    ensures Inv(n, Next(s, Unlock(t)).value)
  {
    UnlockControl(s, t, abs);
  }

  lemma UnlockControl(s: State, t: Tid, abs: Spec.DevState)
    requires Control(s, abs) && t in s.pcs && (s.pcs[t].Releasing? || s.pcs[t].FaultReleasing?)
    ensures var s' := Unlocked(s, t, s.pcs[t]); Control(s', abs)
  {
    var s' := Unlocked(s, t, s.pcs[t]);
    assert ThreadInv(s, abs, t);
    OthersStay(s, s', abs, abs, t);
  }

  lemma AllocStep(n: nat, s: State, t: Tid, answer: Option<Ptr>, junk: seq<byte>, abs: Spec.DevState)
    requires Means(n, s.dev, s.inFlight.Keys, abs) && Replay(n, s.events) == Some(abs) && Control(s, abs)
    requires Next(s, Alloc(t, answer, junk)).Some?
    ensures Inv(n, Next(s, Alloc(t, answer, junk)).value)
  {
    var s' := Next(s, Alloc(t, answer, junk)).value;
    assert ThreadInv(s, abs, t);
    PendingSize(s.dev, s.inFlight.Keys);
    if answer.None? {
      var e := Event(t, WriteCall(s.pcs[t].data), NoMemory);
      ReplaySnoc(n, s.events, e);
      TakeEffect(s, s', t, e, abs, abs);
    } else {
      AllocInFlight(s.dev, answer.value, junk, s.inFlight.Keys);
      Advance(s, s', t, abs);
    }
    assert Means(n, s'.dev, s'.inFlight.Keys, abs);
  }

  lemma CopyInStepKeeps(n: nat, s: State, t: Tid, copied: nat, abs: Spec.DevState)
    requires Means(n, s.dev, s.inFlight.Keys, abs) && Replay(n, s.events) == Some(abs) && Control(s, abs)
    requires Next(s, CopyIn(t, copied)).Some?
    ensures Inv(n, Next(s, CopyIn(t, copied)).value)
  {
    var pc, s' := s.pcs[t], Next(s, CopyIn(t, copied)).value;
    PendingSize(s.dev, s.inFlight.Keys);
    assert ThreadInv(s, abs, t);
    StoreInFlight(s.dev, pc.p, s'.dev.heap[pc.p], s.inFlight.Keys);
    if copied < |pc.data| {
      assert s'.pcs == s.pcs[t := s'.pcs[t]];
      var e := Event(t, WriteCall(pc.data), Fault);
      ReplaySnoc(n, s.events, e);
      TakeEffect(s, s', t, e, abs, abs);
    } else {
      assert pc.data[..copied] == pc.data;
      Advance(s, s', t, abs);
    }
    assert Means(n, s'.dev, s'.inFlight.Keys, abs);
  }

  lemma InstallStepKeeps(n: nat, s: State, t: Tid, abs: Spec.DevState)
    requires Means(n, s.dev, s.inFlight.Keys, abs) && Replay(n, s.events) == Some(abs) && Control(s, abs)
    requires Next(s, Install(t)).Some?
    ensures Inv(n, Next(s, Install(t)).value)
  {
    var pc, s' := s.pcs[t], Next(s, Install(t)).value;
    assert ThreadInv(s, abs, t);
    InstalledIsWrite(s.dev, pc.p, pc.data, s.inFlight.Keys);
    var e := Event(t, WriteCall(pc.data), Written(|pc.data|));
    ReplaySnoc(n, s.events, e);
    TakeEffect(s, s', t, e, abs, s'.dev.Abs());
    assert s'.inFlight.Keys == s.inFlight.Keys - {pc.p};
    assert Means(n, s'.dev, s'.inFlight.Keys, s'.dev.Abs());
  }

  lemma CopyOutStepKeeps(n: nat, s: State, t: Tid, copied: nat, abs: Spec.DevState)
    requires Means(n, s.dev, s.inFlight.Keys, abs) && Replay(n, s.events) == Some(abs) && Control(s, abs)
    requires t in s.pcs && s.pcs[t].Reading? && |s.pcs[t].got| <= s.pcs[t].count
    ensures Inv(n, CopyOutStep(s, t, s.pcs[t], copied))
  {
    var pc := s.pcs[t];
    ChunkFollowsText(s.dev, pc.fPos + |pc.got|, pc.count - |pc.got|, s.inFlight.Keys);
    var chunk := Chunk(s.dev, pc.fPos + |pc.got|, pc.count - |pc.got|).value;
    CopyOutControl(n, s, t, copied, chunk, abs);
    assert CopyOutStep(s, t, pc, copied) == CopiedOut(s, t, pc, copied, chunk);
  }

  /** What the bytes got so far and the next chunk say about the whole answer. */
  lemma ChunkAnswers(flat: seq<byte>, fPos: nat, count: nat, got: seq<byte>, chunk: seq<byte>)
    requires got <= From(flat, fPos) && chunk <= From(flat, fPos + |got|) && |got| + |chunk| <= count
    requires |got| < count && From(flat, fPos + |got|) != [] ==> chunk != []
    ensures got + chunk <= From(flat, fPos)
    ensures if chunk == [] then got == Slice(flat, fPos, count) else Slice(flat, fPos, count) != []
  {
    var text := From(flat, fPos);
    assert From(flat, fPos + |got|) == text[|got|..];
  }

  lemma CopyOutControl(n: nat, s: State, t: Tid, copied: nat, chunk: seq<byte>, abs: Spec.DevState)
    requires Replay(n, s.events) == Some(abs) && Control(s, abs) && t in s.pcs && s.pcs[t].Reading?
    requires var (pc, rest) := (s.pcs[t], From(abs.Flat(), s.pcs[t].fPos + |s.pcs[t].got|));
             && chunk <= rest && |pc.got| + |chunk| <= pc.count
             && (|pc.got| < pc.count && rest != [] ==> chunk != [])
    ensures var s' := CopiedOut(s, t, s.pcs[t], copied, chunk);
            Control(s', abs) && Replay(n, s'.events) == Some(abs) && s'.dev == s.dev && s'.inFlight == s.inFlight
  {
    var pc, s' := s.pcs[t], CopiedOut(s, t, s.pcs[t], copied, chunk);
    assert ThreadInv(s, abs, t);
    ChunkAnswers(abs.Flat(), pc.fPos, pc.count, pc.got, chunk);
    if s'.pcs[t].Reading? {
      Advance(s, s', t, abs);
    } else {
      var e := Event(t, ReadCall(pc.fPos, pc.count), s'.pcs[t].result);
      ReplaySnoc(n, s.events, e);
      TakeEffect(s, s', t, e, abs, abs);
    }
  }

  lemma LateFreeStep(n: nat, s: State, t: Tid, abs: Spec.DevState)
    requires Means(n, s.dev, s.inFlight.Keys, abs) && Replay(n, s.events) == Some(abs) && Control(s, abs)
    requires Next(s, LateFree(t)).Some?
    ensures Inv(n, Next(s, LateFree(t)).value)
  {
    var s' := Next(s, LateFree(t)).value;
    assert ThreadInv(s, abs, t);
    FreeInFlight(s.dev, s.pcs[t].p, s.inFlight.Keys);
    LateFreeControl(s, t, abs);
    assert Means(n, s'.dev, s'.inFlight.Keys, abs);
  }

  lemma LateFreeControl(s: State, t: Tid, abs: Spec.DevState)
    requires Control(s, abs) && t in s.pcs && s.pcs[t].FaultFreeing? && s.pcs[t].p in s.dev.heap
    ensures Control(Freed(s, t, s.pcs[t]), abs)
  {
    var s' := Freed(s, t, s.pcs[t]);
    assert ThreadInv(s, abs, t);
    forall u
      ensures ThreadInv(s', abs, u)
    {
      assert ThreadInv(s, abs, u);
      if u != t {
        assert s'.At(u) == s.At(u);
      }
    }
  }

  lemma {:induction false} RunInv(n: nat, steps: seq<Step>)
    requires 1 <= n <= MAX_CAPACITY && Run(n, steps).Some?
    ensures Inv(n, Run(n, steps).value)
  {
    if steps == [] {
      StartInv(n);
    } else {
      RunInv(n, steps[..|steps| - 1]);
      StepInv(n, Run(n, steps[..|steps| - 1]).value, steps[|steps| - 1]);
    }
  }

  /** Linearizability, for every interleaving of any number of threads: the device means exactly
      what the calls that have taken effect make it mean when run one at a time in the order in
      which they got the lock, and every call returns what it would return in that run. */
  lemma {:induction false} Linearizable(n: nat, steps: seq<Step>)
    requires 1 <= n <= MAX_CAPACITY && Run(n, steps).Some?
    ensures var s := Run(n, steps).value;
            && s.dev.ring.Valid() && AllLive(s.dev.heap, s.dev.Held())
            && Replay(n, s.events) == Some(s.dev.Abs())
            && (forall i :: 0 <= i < |s.events| ==> i < |s.order| && s.order[i] == (s.events[i].tid, s.events[i].call))
            && (forall k :: k in s.returned ==> k < |s.events| && s.returned[k] == s.events[k].result)
  {
    RunInv(n, steps);
  }

  /** Memory safety over every interleaving: no free or access of a dead buffer ever happens, no
      buffer has two owners, and the live ones are those of the ring, of the pending entry and of
      the threads still at work. */
  lemma HeapIsOwned(n: nat, steps: seq<Step>)
    requires 1 <= n <= MAX_CAPACITY && Run(n, steps).Some?
    ensures var s := Run(n, steps).value;
            && s.clean
            && s.dev.Owned(s.inFlight.Keys)
            && (forall p :: p in s.inFlight ==> s.At(s.inFlight[p]).Buffer() == Some(p))
  {
    RunInv(n, steps);
  }

  /** A call that has taken effect and not returned is the one its thread is on the way out of. */
  ghost predicate NoneForgotten(s: State) {
    forall k :: 0 <= k < |s.events| && k !in s.returned ==> s.At(s.events[k].tid).Returning() == Some(k)
  }

  /** What a step of `t` may do to that: nothing, take effect, or return. */
  ghost predicate ReturnShape(s: State, s': State, t: Tid) {
    || (s'.events == s.events && s'.returned == s.returned && s'.At(t).Returning() == s.At(t).Returning())
    || (&& s.At(t).Returning().None? && s'.At(t).Returning() == Some(|s.events|) && s'.returned == s.returned
        && exists e :: s'.events == s.events + [e] && e.tid == t)
    || (&& s.At(t).Returning().Some? && s'.events == s.events
        && s'.returned.Keys == s.returned.Keys + {s.At(t).Returning().value})
  }

  lemma EndsReturn(s: State, step: Step)
    requires (step.Lock? || step.LockInterrupted? || step.Unlock? || step.LateFree?) && Next(s, step).Some?
    ensures ReturnShape(s, Next(s, step).value, step.t)
  {
  }

  lemma AllocReturns(s: State, step: Step)
    requires step.Alloc? && Next(s, step).Some?
    ensures ReturnShape(s, Next(s, step).value, step.t)
  {
    assert s.At(step.t).Returning().None?;
  }

  lemma CopyInReturns(s: State, step: Step)
    requires step.CopyIn? && Next(s, step).Some?
    ensures ReturnShape(s, Next(s, step).value, step.t)
  {
    assert s.At(step.t).Returning().None?;
  }

  lemma InstallReturns(s: State, step: Step)
    requires step.Install? && Next(s, step).Some?
    ensures ReturnShape(s, Next(s, step).value, step.t)
  {
    assert s.At(step.t).Returning().None?;
  }

  lemma CopyOutReturns(s: State, step: Step)
    requires step.CopyOut? && Next(s, step).Some?
    ensures ReturnShape(s, Next(s, step).value, step.t)
  {
    assert s.At(step.t).Returning().None?;
  }

  lemma NoneForgottenStep(s: State, s': State, t: Tid)
    requires NoneForgotten(s) && ReturnShape(s, s', t) && forall u :: u != t ==> s'.At(u) == s.At(u)
    ensures NoneForgotten(s')
  {
    forall k | 0 <= k < |s'.events| && k !in s'.returned
      ensures s'.At(s'.events[k].tid).Returning() == Some(k)
    {
      if k < |s.events| {
        assert s'.events[k] == s.events[k];
      }
    }
  }

  lemma {:induction false} RunForgetsNone(n: nat, steps: seq<Step>)
    requires Run(n, steps).Some?
    ensures NoneForgotten(Run(n, steps).value)
  {
    if steps != [] {
      var (s, s', step) := (Run(n, steps[..|steps| - 1]).value, Run(n, steps).value, steps[|steps| - 1]);
      RunForgetsNone(n, steps[..|steps| - 1]);
      match step {
        case Alloc(_, _, _) => AllocReturns(s, step);
        case CopyIn(_, _) => CopyInReturns(s, step);
        case Install(_) => InstallReturns(s, step);
        case CopyOut(_, _) => CopyOutReturns(s, step);
        case _ => EndsReturn(s, step);
      }
      forall u | u != step.t
        ensures s'.At(u) == s.At(u)
      {
        NextLeavesOthers(s, step, u);
      }
      NoneForgottenStep(s, s', step.t);
    }
  }

  /** Once every thread is outside, the lock is free, every call that got it has taken effect and
      returned its result, and no allocation is left but those of the ring and the pending entry. */
  lemma QuietMeansReleased(n: nat, steps: seq<Step>)
    requires 1 <= n <= MAX_CAPACITY && Run(n, steps).Some?
    requires forall t :: Run(n, steps).value.At(t).Idle?
    ensures var s := Run(n, steps).value;
            && s.lock == None && |s.events| == |s.order| && s.dev.Owned({})
            && forall k :: 0 <= k < |s.events| ==> k in s.returned && s.returned[k] == s.events[k].result
  {
    RunInv(n, steps);
    RunForgetsNone(n, steps);
    var s := Run(n, steps).value;
    var abs :| Means(n, s.dev, s.inFlight.Keys, abs) && Replay(n, s.events) == Some(abs) && Control(s, abs);
    assert ThreadInv(s, abs, if s.lock.Some? then s.lock.value else 0);
    assert s.inFlight.Keys == {} by {
      assert forall p :: p in s.inFlight ==> s.At(s.inFlight[p]).Idle?;
    }
  }

  /** How many steps a thread at `pc` is at most away from giving the lock back. */
  function Left(pc: Pc): nat {
    match pc
    case Allocating(_) => 4
    case Filling(_, _) => 3
    case Installing(_, _) => 2
    case Reading(_, count, got) => if |got| <= count then count - |got| + 2 else 2
    case Releasing(_, _) => 1
    case FaultReleasing(_, _) => 1
    case _ => 0
  }

  /** A step the lock holder can always take; the environment need not help it. */
  function Onward(t: Tid, pc: Pc): Step {
    match pc
    case Allocating(_) => Alloc(t, None, [])
    case Filling(data, _) => CopyIn(t, |data|)
    case Installing(_, _) => Install(t)
    case Reading(_, count, _) => CopyOut(t, count)
    case _ => Unlock(t)
  }

  lemma OnwardIsEnabled(n: nat, s: State, t: Tid)
    requires Inv(n, s) && s.lock == Some(t)
    ensures Next(s, Onward(t, s.At(t))).Some?
  {
    var abs :| Means(n, s.dev, s.inFlight.Keys, abs) && Replay(n, s.events) == Some(abs) && Control(s, abs);
    assert ThreadInv(s, abs, t);
  }

  lemma OwnStepAdvances(s: State, step: Step)
    requires s.lock == Some(step.t) && s.At(step.t).Holds() && Next(s, step).Some? && Next(s, step).value.clean
    ensures var s' := Next(s, step).value;
            if s'.lock.None? then step.Unlock? else s'.lock == s.lock && Left(s'.At(step.t)) < Left(s.At(step.t))
  {
  }

  lemma OutsiderLeavesLock(s: State, step: Step)
    requires s.lock.Some? && !s.At(step.t).Holds() && Next(s, step).Some?
    ensures Next(s, step).value.lock == s.lock
  {
  }

  /** While `t` holds the lock, each of its own steps brings it closer to giving the lock back, and no
      other thread's step touches it. */
  lemma HolderAdvances(n: nat, s: State, step: Step, t: Tid)
    requires Inv(n, s) && s.lock == Some(t) && Next(s, step).Some?
    ensures var s' := Next(s, step).value;
            if step.t != t then s'.lock == Some(t) && s'.At(t) == s.At(t)
            else if s'.lock.None? then step.Unlock?
            else s'.lock == Some(t) && Left(s'.At(t)) < Left(s.At(t))
  {
    StepInv(n, s, step);
    var abs :| Means(n, s.dev, s.inFlight.Keys, abs) && Replay(n, s.events) == Some(abs) && Control(s, abs);
    assert ThreadInv(s, abs, step.t);
    if step.t == t {
      OwnStepAdvances(s, step);
    } else {
      OutsiderLeavesLock(s, step);
      NextLeavesOthers(s, step, t);
    }
  }

  /** From every point of every run the lock can be given back by its holder alone, within that many
      steps. */
  lemma {:induction false} LockIsReleased(n: nat, steps: seq<Step>, t: Tid) returns (more: seq<Step>)
    requires 1 <= n <= MAX_CAPACITY && Run(n, steps).Some? && Run(n, steps).value.lock == Some(t)
    ensures |more| <= Left(Run(n, steps).value.At(t)) && forall step :: step in more ==> step.t == t
    ensures Run(n, steps + more).Some? && Run(n, steps + more).value.lock == None
    decreases Left(Run(n, steps).value.At(t))
  {
    var s := Run(n, steps).value;
    var step := Onward(t, s.At(t));
    RunInv(n, steps);
    OnwardIsEnabled(n, s, t);
    HolderAdvances(n, s, step, t);
    RunSnoc(n, steps, step);
    if Next(s, step).value.lock.None? {
      more := [step];
    } else {
      var rest := LockIsReleased(n, steps + [step], t);
      more := [step] + rest;
      Assoc(steps, [step], rest);
    }
  }

  function Attempts(events: seq<Event>): seq<Spec.Attempt> {
    if events == [] then []
    else
      var e := events[|events| - 1];
      var earlier := Attempts(events[..|events| - 1]);
      if e.call.WriteCall? then earlier + [Spec.Attempt(e.call.data, e.result.Written?)] else earlier
  }

  lemma {:induction false} ReplayIsRun(n: nat, events: seq<Event>)
    ensures Replay(n, events).Some? ==> Replay(n, events).value == Spec.Run(n, Spec.FRESH, Attempts(events))
  {
    if events != [] {
      ReplayIsRun(n, events[..|events| - 1]);
      if events[|events| - 1].call.WriteCall? {
        assert Attempts(events)[..|Attempts(events)| - 1] == Attempts(events[..|events| - 1]);
      }
    }
  }

  /** Whatever the interleaving and whatever failed, the ring holds exactly the newest `n` strings
      ever committed, in lock order, and the pending bytes are those of the unbounded history. */
  lemma {:induction false} RingKeepsNewest(n: nat, steps: seq<Step>)
    requires 1 <= n <= MAX_CAPACITY && Run(n, steps).Some?
    ensures var s := Run(n, steps).value;
            var history := Spec.History(Attempts(s.events));
            && s.dev.ring.Valid() && AllLive(s.dev.heap, s.dev.Held())
            && s.dev.Abs() == Spec.DevState(history.pending, LastN(n, history.entries))
  {
    Linearizable(n, steps);
    ReplayIsRun(n, Run(n, steps).value.events);
    Spec.RunKeepsNewest(n, Attempts(Run(n, steps).value.events));
  }

  /** What is committed next leaves every reader what it has got, with nothing pending, if and only
      if the driver's `full` flag is false. */
  lemma {:induction false} ReadersSurviveUnlessFull(n: nat, steps: seq<Step>)
    requires 1 <= n <= MAX_CAPACITY && Run(n, steps).Some? && Run(n, steps).value.dev.temp.buffptr.None?
    ensures var d := Run(n, steps).value.dev;
            && d.ring.Valid() && AllLive(d.heap, d.Held())
            && ((forall data :: Spec.EndsLine(data) ==> d.Abs().Flat() <= Spec.Write(n, d.Abs(), data).Flat())
                <==> !d.ring.full)
  {
    RunInv(n, steps);
    RingKeepsNewest(n, steps);
    var s := Run(n, steps).value;
    var abs :| Means(n, s.dev, s.inFlight.Keys, abs) && Replay(n, s.events) == Some(abs) && Control(s, abs);
    AddedKeepsNewest(s.dev.ring, EMPTY_ENTRY);
    Spec.HistoryConservesBytes(Attempts(s.events));
    Spec.ContentsSurviveUnlessFull(n, abs);
  }
}
