/** What becomes of each connection on the regular file: the run's steps, that is the answers of its
    system calls, decide it, and nothing else. */
module ServerAnswers {
  import opened Prelude
  import opened Framing
  import opened Connection
  import opened ServerConcurrency

  /** The system call of this step fails, or the thread leaves on a signal: an error or the end of the
      stream at recv, a realloc that was needed, open, a write short of the packet, read, send, close. */
  predicate Fails(t: Thread, act: Act) {
    match act
    case Receive(answer, reallocOk) =>
      !answer.Data? || (!reallocOk && t.conn.capacity < |t.conn.main| + |answer.bytes|)
    case Open(ok) => !ok
    case Append(n) => n < |t.conn.main|
    case Read(n) => n == -1
    case Send(n) => n == -1
    case Close(ok) => !ok
    case Leave => true
    case _ => false
  }

  /** The act of connection `id` in the last step, if it is one of its own. */
  function LastAct(steps: seq<Step>, id: Id): Option<Act>
    requires steps != []
  {
    match steps[|steps| - 1]
    case Move(u, act) => if u == id then Some(act) else None
    case _ => None
  }

  function ThreadAt(base: seq<byte>, steps: seq<Step>, id: Id): Option<Thread> {
    match Run(base, steps)
    case None => None
    case Some(s) => if id in s.threads then Some(s.threads[id]) else None
  }

  /** Some step of the connection has failed. */
  predicate HasFailed(base: seq<byte>, steps: seq<Step>, id: Id) {
    if steps == [] then false
    else
      var (earlier, act) := (steps[..|steps| - 1], LastAct(steps, id));
      || HasFailed(base, earlier, id)
      || (act.Some? && ThreadAt(base, earlier, id).Some? && Fails(ThreadAt(base, earlier, id).value, act.value))
  }

  /** How often the connection has given the mutex back before any of its steps failed. */
  function GoodReleases(base: seq<byte>, steps: seq<Step>, id: Id): nat {
    if steps == [] then 0
    else
      var earlier := steps[..|steps| - 1];
      GoodReleases(base, earlier, id) +
      (if LastAct(steps, id) == Some(Release) && !HasFailed(base, earlier, id) then 1 else 0)
  }

  /** What recv has delivered to the connection. */
  function Delivered(steps: seq<Step>, id: Id): seq<byte> {
    if steps == [] then []
    else
      var (earlier, act) := (Delivered(steps[..|steps| - 1], id), LastAct(steps, id));
      if act.Some? && act.value.Receive? && act.value.answer.Data? then earlier + act.value.answer.bytes else earlier
  }

  /** How many bytes send has taken from the connection. */
  function SentCount(steps: seq<Step>, id: Id): nat {
    if steps == [] then 0
    else
      var (earlier, act) := (SentCount(steps[..|steps| - 1], id), LastAct(steps, id));
      if act.Some? && act.value.Send? && act.value.n > 0 then earlier + act.value.n else earlier
  }

  function EchoedCount(echoes: seq<Echo>): nat {
    if echoes == [] then 0 else EchoedCount(echoes[..|echoes| - 1]) + |echoes[|echoes| - 1].data|
  }

  /** What the echo under way has sent. */
  function SentNow(t: Thread): seq<byte> {
    match t.pc
    case Reading(_, _, sent) => sent
    case Sending(_, _, _, _, sent) => sent
    case Closing(_, sent, _) => sent
    case Releasing(_, sent, _) => sent
    case _ => []
  }

  /** The thread's record is what its steps and their answers make it. */
  ghost predicate Answers(base: seq<byte>, steps: seq<Step>, id: Id, t: Thread) {
    && (Failed(t) <==> HasFailed(base, steps, id))
    && |t.echoes| == GoodReleases(base, steps, id)
    && t.received == Delivered(steps, id)
    && (!Failed(t) ==> SentCount(steps, id) == EchoedCount(t.echoes) + |SentNow(t)|)
  }

  /** What one step of its own does to those records. */
  lemma OwnStepAnswers(s: State, id: Id, t: Thread, act: Act)
    requires ThreadInv(s, id, t) && ThreadNext(s, id, t, act).Some?
    ensures var s' := ThreadNext(s, id, t, act).value;
            && id in s'.threads
            && (Failed(s'.threads[id]) <==> Failed(t) || Fails(t, act))
            && |s'.threads[id].echoes| == |t.echoes| + (if act.Release? && !Failed(t) then 1 else 0)
  {
  }

  lemma OwnStepDelivers(s: State, id: Id, t: Thread, act: Act)
    requires ThreadNext(s, id, t, act).Some?
    ensures var s' := ThreadNext(s, id, t, act).value;
            && id in s'.threads
            && s'.threads[id].received
               == (if act.Receive? && act.answer.Data? then t.received + act.answer.bytes else t.received)
  {
  }

  lemma OwnReleaseSends(s: State, id: Id, t: Thread)
    requires ThreadNext(s, id, t, Release).Some? && !Failed(t)
    ensures var s' := ThreadNext(s, id, t, Release).value;
            && id in s'.threads && SentNow(s'.threads[id]) == []
            && EchoedCount(s'.threads[id].echoes) == EchoedCount(t.echoes) + |SentNow(t)|
  {
    var t' := ThreadNext(s, id, t, Release).value.threads[id];
    assert t'.echoes[..|t.echoes|] == t.echoes;
  }

  lemma OwnMoveSends(s: State, id: Id, t: Thread, act: Act)
    requires ThreadInv(s, id, t) && ThreadNext(s, id, t, act).Some? && !act.Release? && !Fails(t, act)
    ensures var s' := ThreadNext(s, id, t, act).value;
            && id in s'.threads && s'.threads[id].echoes == t.echoes
            && |SentNow(s'.threads[id])| == |SentNow(t)| + (if act.Send? && act.n > 0 then act.n else 0)
  {
  }

  /** A send moves the count of the echo under way, a good release moves it to the finished echoes. */
  lemma OwnStepSends(s: State, id: Id, t: Thread, act: Act)
    requires ThreadInv(s, id, t) && ThreadNext(s, id, t, act).Some? && !Failed(t) && !Fails(t, act)
    ensures var s' := ThreadNext(s, id, t, act).value;
            && id in s'.threads
            && EchoedCount(s'.threads[id].echoes) + |SentNow(s'.threads[id])|
            == EchoedCount(t.echoes) + |SentNow(t)| + (if act.Send? && act.n > 0 then act.n else 0)
  {
    if act.Release? {
      OwnReleaseSends(s, id, t);
    } else {
      OwnMoveSends(s, id, t, act);
    }
  }

  lemma OthersKeep(s: State, step: Step, id: Id)
    requires Next(s, step).Some? && id in s.threads && (step.Move? ==> step.id != id)
    ensures id in Next(s, step).value.threads && Next(s, step).value.threads[id] == s.threads[id]
  {
  }

  lemma NotThereYet(base: seq<byte>, steps: seq<Step>, id: Id)
    requires Run(base, steps).Some? && id !in Run(base, steps).value.threads
    ensures !HasFailed(base, steps, id) && GoodReleases(base, steps, id) == 0
    ensures Delivered(steps, id) == [] && SentCount(steps, id) == 0
  {
    if steps != [] {
      NotThereYet(base, steps[..|steps| - 1], id);
    }
  }

  /** A step of the connection itself keeps its record in line with the steps. */
  lemma OwnStepRecorded(base: seq<byte>, steps: seq<Step>, id: Id)
    requires Run(base, steps).Some? && steps != [] && LastAct(steps, id).Some?
    requires ThreadAt(base, steps[..|steps| - 1], id).Some?
    requires Answers(base, steps[..|steps| - 1], id, ThreadAt(base, steps[..|steps| - 1], id).value)
    ensures id in Run(base, steps).value.threads && Answers(base, steps, id, Run(base, steps).value.threads[id])
  {
    var (earlier, act) := (steps[..|steps| - 1], LastAct(steps, id).value);
    var s, t := Run(base, earlier).value, ThreadAt(base, earlier, id).value;
    RunInv(base, earlier);
    assert ThreadInv(s, id, t);
    OwnStepAnswers(s, id, t, act);
    OwnStepDelivers(s, id, t, act);
    if !Failed(t) && !Fails(t, act) {
      OwnStepSends(s, id, t, act);
    }
  }

  lemma {:induction false} RunAnswers(base: seq<byte>, steps: seq<Step>, id: Id)
    requires Run(base, steps).Some? && id in Run(base, steps).value.threads
    ensures Answers(base, steps, id, Run(base, steps).value.threads[id])
  {
    var (earlier, step) := (steps[..|steps| - 1], steps[|steps| - 1]);
    var s := Run(base, earlier).value;
    if id !in s.threads {
      NotThereYet(base, earlier, id);
      ThreadsKnown(s, step, id);
    } else {
      RunAnswers(base, earlier, id);
      if step.Move? && step.id == id {
        OwnStepRecorded(base, steps, id);
      } else {
        OthersKeep(s, step, id);
      }
    }
  }

  /** Step `m` is one of the connection's own, and it fails. */
  ghost predicate FailsAt(base: seq<byte>, steps: seq<Step>, m: nat, id: Id) {
    && m < |steps| && steps[m].Move? && steps[m].id == id
    && ThreadAt(base, steps[..m], id).Some? && Fails(ThreadAt(base, steps[..m], id).value, steps[m].act)
  }

  lemma {:induction false} HasFailedAt(base: seq<byte>, steps: seq<Step>, id: Id)
    ensures HasFailed(base, steps, id) <==> exists m: nat :: FailsAt(base, steps, m, id)
  {
    if steps != [] {
      var (earlier, last) := (steps[..|steps| - 1], |steps| - 1);
      HasFailedAt(base, earlier, id);
      forall m: nat | m < last
        ensures FailsAt(base, steps, m, id) <==> FailsAt(base, earlier, m, id)
      {
        PrefixOfPrefix(steps, last, m);
      }
      assert FailsAt(base, steps, last, id) <==>
               LastAct(steps, id).Some? && ThreadAt(base, earlier, id).Some?
               && Fails(ThreadAt(base, earlier, id).value, LastAct(steps, id).value);
    }
  }

  /** How often the connection has given the mutex back. */
  function Releases(steps: seq<Step>, id: Id): nat {
    if steps == [] then 0
    else Releases(steps[..|steps| - 1], id) + (if LastAct(steps, id) == Some(Release) then 1 else 0)
  }

  lemma {:induction false} AllReleasesAreGood(base: seq<byte>, steps: seq<Step>, id: Id)
    requires !HasFailed(base, steps, id)
    ensures GoodReleases(base, steps, id) == Releases(steps, id)
  {
    if steps != [] {
      AllReleasesAreGood(base, steps[..|steps| - 1], id);
    }
  }

  /** A connection fails if and only if one of its own steps has failed. Until then, each time it gave
      the mutex back was the end of a sending_data that returned 0, with one echo; and the bytes that
      send has taken are those of its echoes, the one under way included. What it counts as received
      is what recv delivered. */
  lemma {:induction false} OutcomeFollowsAnswers(base: seq<byte>, steps: seq<Step>, id: Id)
    requires Run(base, steps).Some? && id in Run(base, steps).value.threads
    ensures var t := Run(base, steps).value.threads[id];
            && (Failed(t) <==> exists m: nat :: FailsAt(base, steps, m, id))
            && t.received == Delivered(steps, id)
            && (!Failed(t) ==> |t.echoes| == Releases(steps, id))
            && (!Failed(t) ==> SentCount(steps, id) == EchoedCount(t.echoes) + |SentNow(t)|)
  {
    var t := Run(base, steps).value.threads[id];
    RunAnswers(base, steps, id);
    HasFailedAt(base, steps, id);
    if !Failed(t) {
      AllReleasesAreGood(base, steps, id);
    }
  }

  lemma {:induction false} RunBefore(base: seq<byte>, steps: seq<Step>, m: nat)
    requires Run(base, steps).Some? && m <= |steps|
    ensures Run(base, steps[..m]).Some?
  {
    if m < |steps| {
      RunBefore(base, steps[..|steps| - 1], m);
      PrefixOfPrefix(steps, |steps| - 1, m);
    } else {
      assert steps[..m] == steps;
    }
  }

  lemma RunAt(base: seq<byte>, steps: seq<Step>, m: nat)
    requires Run(base, steps).Some? && m < |steps|
    ensures Run(base, steps[..m]).Some? && Run(base, steps[..m + 1]).Some?
    ensures Next(Run(base, steps[..m]).value, steps[m]) == Run(base, steps[..m + 1])
  {
    RunBefore(base, steps, m + 1);
    PrefixOfPrefix(steps, m + 1, m);
    RunBefore(base, steps, m);
  }

  lemma OwnEchoesStay(s: State, id: Id, t: Thread, act: Act)
    requires ThreadNext(s, id, t, act).Some?
    ensures id in ThreadNext(s, id, t, act).value.threads
    ensures t.echoes <= ThreadNext(s, id, t, act).value.threads[id].echoes
  {
  }

  lemma {:induction false} EchoesStay(base: seq<byte>, steps: seq<Step>, m: nat, id: Id)
    requires Run(base, steps).Some? && m <= |steps| && ThreadAt(base, steps[..m], id).Some?
    ensures id in Run(base, steps).value.threads
    ensures ThreadAt(base, steps[..m], id).value.echoes <= Run(base, steps).value.threads[id].echoes
  {
    if m == |steps| {
      assert steps[..m] == steps;
    } else {
      var (earlier, step) := (steps[..|steps| - 1], steps[|steps| - 1]);
      PrefixOfPrefix(steps, |steps| - 1, m);
      EchoesStay(base, earlier, m, id);
      if step.Move? && step.id == id {
        OwnEchoesStay(Run(base, earlier).value, id, Run(base, earlier).value.threads[id], step.act);
      } else {
        OthersKeep(Run(base, earlier).value, step, id);
      }
    }
  }

  lemma {:induction false} FailedStays(base: seq<byte>, steps: seq<Step>, m: nat, id: Id)
    requires m <= |steps| && HasFailed(base, steps[..m], id)
    ensures HasFailed(base, steps, id) && GoodReleases(base, steps, id) == GoodReleases(base, steps[..m], id)
  {
    if m == |steps| {
      assert steps[..m] == steps;
    } else {
      PrefixOfPrefix(steps, |steps| - 1, m);
      FailedStays(base, steps[..|steps| - 1], m, id);
    }
  }

  /** A failed step is the end: the connection stays failed for the rest of the run, and no echo is
      added any more. */
  lemma {:induction false} NoEchoAfterFailure(base: seq<byte>, steps: seq<Step>, m: nat, id: Id)
    requires Run(base, steps).Some? && FailsAt(base, steps, m, id)
    ensures id in Run(base, steps).value.threads && Failed(Run(base, steps).value.threads[id])
    ensures ThreadAt(base, steps[..m + 1], id).Some?
    ensures Run(base, steps).value.threads[id].echoes == ThreadAt(base, steps[..m + 1], id).value.echoes
  {
    RunAt(base, steps, m);
    PrefixOfPrefix(steps, m + 1, m);
    assert FailsAt(base, steps[..m + 1], m, id);
    HasFailedAt(base, steps[..m + 1], id);
    OwnEchoesStay(Run(base, steps[..m]).value, id, ThreadAt(base, steps[..m], id).value, steps[m].act);
    EchoesStay(base, steps, m + 1, id);
    FailedStays(base, steps, m + 1, id);
    RunAnswers(base, steps, id);
    RunAnswers(base, steps[..m + 1], id);
  }

  /** The largest main buffer at any receive of the connection. */
  function LargestMain(base: seq<byte>, steps: seq<Step>, id: Id): nat {
    if steps == [] then 0
    else
      var (earlier, act) := (steps[..|steps| - 1], LastAct(steps, id));
      var largest := LargestMain(base, earlier, id);
      if act.Some? && act.value.Receive? && ThreadAt(base, earlier, id).Some? then
        var size := |ThreadAt(base, earlier, id).value.conn.main|;
        if size > largest then size else largest
      else largest
  }

  lemma OwnStepLargest(s: State, id: Id, t: Thread, act: Act)
    requires ThreadNext(s, id, t, act).Some?
    ensures var s' := ThreadNext(s, id, t, act).value;
            && id in s'.threads
            && s'.threads[id].largest
               == (if act.Receive? && |t.conn.main| > t.largest then |t.conn.main| else t.largest)
  {
  }

  lemma {:induction false} NothingReceived(base: seq<byte>, steps: seq<Step>, id: Id)
    requires Run(base, steps).Some? && id !in Run(base, steps).value.threads
    ensures LargestMain(base, steps, id) == 0
  {
    if steps != [] {
      NothingReceived(base, steps[..|steps| - 1], id);
    }
  }

  lemma {:induction false} LargestIsRecorded(base: seq<byte>, steps: seq<Step>, id: Id)
    requires Run(base, steps).Some? && id in Run(base, steps).value.threads
    ensures Run(base, steps).value.threads[id].largest == LargestMain(base, steps, id)
  {
    var (earlier, step) := (steps[..|steps| - 1], steps[|steps| - 1]);
    var s := Run(base, earlier).value;
    if id !in s.threads {
      NothingReceived(base, earlier, id);
      ThreadsKnown(s, step, id);
    } else {
      LargestIsRecorded(base, earlier, id);
      if step.Move? && step.id == id {
        OwnStepLargest(s, id, s.threads[id], step.act);
      } else {
        OthersKeep(s, step, id);
      }
    }
  }

  /** The receive buffer over a whole run: a multiple of 1024, and less than 2048 above the largest main
      buffer at any receive. */
  lemma {:induction false} CapacityFollowsReceives(base: seq<byte>, steps: seq<Step>, id: Id)
    requires Run(base, steps).Some? && id in Run(base, steps).value.threads
    ensures var conn := Run(base, steps).value.threads[id].conn;
            conn.capacity % 1024 == 0 && conn.capacity < LargestMain(base, steps, id) + 2048
  {
    LargestIsRecorded(base, steps, id);
    BytesAreConserved(base, steps, id);
  }
}
