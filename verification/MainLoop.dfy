/** main_loop: accepting clients, creating and joining threads, and draining after a signal. */
module MainLoop {
  import opened Prelude
  import opened ThreadList

  /** Where the loop stands: at its head, before join_threads, before the test that ends the loop,
      before the test that guards accept, inside accept, or out. */
  datatype Pc = Top | Joining | ExitCheck | AcceptCheck | Accepting | Done

  /** `pending` is the accepted descriptor while current_state is CreatingThread. `ended` are threads
      that have returned, `seen` says that a test of the loop has read the signal as caught. */
  datatype State = State(
    pc: Pc,
    keepLooping: bool,
    caughtSignal: bool,
    pending: Option<int>,
    list: seq<LinkedListItem>,
    ended: set<ThreadId>,
    created: seq<LinkedListItem>,
    joined: seq<LinkedListItem>,
    accepted: seq<int>,
    closed: seq<int>,
    seen: bool)

  const START := State(Top, true, false, None, [], {}, [], [], [], [], false)

  /** The environment's moves and the loop's own. */
  datatype Step =
    | Signal
    | ThreadEnds(id: ThreadId)
    | Head
    | CreateThread(item: LinkedListItem)
    | Join(found: set<ThreadId>)
    | TestExit
    | TestAccept
    | Accept(fd: Option<int>)

  ghost predicate OnList(list: seq<LinkedListItem>, id: ThreadId) {
    exists i :: 0 <= i < |list| && list[i].threadId == id
  }

  /** tryjoin finds threads that have ended; one that ends while the list is walked may be missed. A
      joined thread's id may be used again. */
  ghost function Next(s: State, step: Step): Option<State> {
    match step
    case Signal => Some(s.(caughtSignal := true))
    case ThreadEnds(id) =>
      if OnList(s.list, id) then Some(s.(ended := s.ended + {id})) else None
    case Head =>
      if s.pc != Top then None
      else if !s.keepLooping then Some(s.(pc := Done))
      else if s.pending.None? then Some(s.(pc := Joining))
      else None
    case CreateThread(item) =>
      if s.pc == Top && s.keepLooping && s.pending == Some(item.clientFd)
         && item.threadId !in s.ended && !OnList(s.list, item.threadId)
      then Some(s.(list := [item] + s.list, created := s.created + [item], pending := None))
      else None
    case Join(found) =>
      if s.pc == Joining && found <= s.ended then
        Some(s.(pc := ExitCheck, list := Running(s.list, found), joined := s.joined + Ended(s.list, found),
                ended := s.ended - found, closed := s.closed + Fds(Ended(s.list, found))))
      else None
    case TestExit =>
      if s.pc != ExitCheck then None
      else if s.list == [] && s.caughtSignal then Some(s.(pc := AcceptCheck, keepLooping := false, seen := true))
      else Some(s.(pc := AcceptCheck))
    case TestAccept =>
      if s.pc != AcceptCheck then None
      else if s.caughtSignal then Some(s.(pc := Top, seen := true))
      else Some(s.(pc := Accepting))
    case Accept(fd) =>
      if s.pc != Accepting then None
      else if fd.None? then Some(s.(pc := Top))
      else Some(s.(pc := Top, pending := fd, accepted := s.accepted + [fd.value]))
  }

  ghost function Run(steps: seq<Step>): Option<State> {
    if steps == [] then Some(START)
    else
      match Run(steps[..|steps| - 1])
      case None => None
      case Some(s) => Next(s, steps[|steps| - 1])
  }

  function Waiting(s: State): seq<int> {
    if s.pending.Some? then [s.pending.value] else []
  }

  /** Every accepted descriptor is closed, on the list, or waiting for its thread, and every thread
      created is joined or on the list: each once. */
  ghost predicate Balanced(s: State) {
    && multiset(s.accepted) == multiset(s.closed) + multiset(Fds(s.list)) + multiset(Waiting(s))
    && multiset(s.created) == multiset(s.joined) + multiset(s.list) + multiset{}
  }

  ghost predicate InOrder(s: State) {
    && (s.pending.Some? ==> s.pc == Top && s.keepLooping)
    && (s.seen ==> s.caughtSignal && s.pending.None? && s.pc != Accepting)
    && (!s.keepLooping ==> s.seen && s.list == [] && (s.pc == AcceptCheck || s.pc == Top || s.pc == Done))
    && (s.pc == Done ==> !s.keepLooping)
  }

  lemma FdsSnoc(items: seq<LinkedListItem>, item: LinkedListItem)
    ensures Fds(items + [item]) == Fds(items) + [item.clientFd]
  {
  }

  lemma FdsPrefix(items: seq<LinkedListItem>, n: nat)
    requires 0 < n <= |items|
    ensures Fds(items)[..n] == Fds(items)[..n - 1] + [items[n - 1].clientFd]
  {
  }

  lemma {:induction false} FdsSplit(items: seq<LinkedListItem>, n: nat, ended: set<ThreadId>)
    requires n <= |items|
    ensures multiset(Fds(RunningOf(items, n, ended))) + multiset(Fds(EndedOf(items, n, ended)))
         == multiset(Fds(items)[..n])
  {
    if n > 0 {
      FdsSplit(items, n - 1, ended);
      var (running, gone, item) := (RunningOf(items, n - 1, ended), EndedOf(items, n - 1, ended), items[n - 1]);
      FdsPrefix(items, n);
      FdsSnoc(running, item);
      FdsSnoc(gone, item);
      PartSnoc(Fds(running), Fds(gone), Fds(items)[..n - 1], item.clientFd);
    }
  }

  lemma Moves<T>(all: multiset<T>, done: seq<T>, moved: seq<T>,
                 before: multiset<T>, after: multiset<T>, rest: multiset<T>)
    requires all == multiset(done) + before + rest && before == after + multiset(moved)
    ensures all == multiset(done + moved) + after + rest
  {
    assert multiset(done + moved) == multiset(done) + multiset(moved);
  }

  lemma JoinBalances(s: State, found: set<ThreadId>)
    requires Balanced(s) && Next(s, Join(found)).Some?
    ensures Balanced(Next(s, Join(found)).value)
  {
    var (items, running, gone) := (s.list, Running(s.list, found), Ended(s.list, found));
    assert multiset(Fds(items)) == multiset(Fds(running)) + multiset(Fds(gone)) by {
      FdsSplit(items, |items|, found);
      assert Fds(items)[..|items|] == Fds(items);
    }
    assert multiset(items) == multiset(running) + multiset(gone) by {
      SplitIsPermutation(items, |items|, found);
      assert items[..|items|] == items;
    }
    Moves(multiset(s.accepted), s.closed, Fds(gone),
          multiset(Fds(items)), multiset(Fds(running)), multiset(Waiting(s)));
    Moves(multiset(s.created), s.joined, gone, multiset(items), multiset(running), multiset{});
  }

  lemma CreateBalances(s: State, item: LinkedListItem)
    requires Balanced(s) && Next(s, CreateThread(item)).Some?
    ensures Balanced(Next(s, CreateThread(item)).value)
  {
    assert Fds([item] + s.list) == [item.clientFd] + Fds(s.list);
    assert multiset([item.clientFd] + Fds(s.list)) == multiset{item.clientFd} + multiset(Fds(s.list));
    assert multiset([item] + s.list) == multiset{item} + multiset(s.list);
    assert multiset(s.created + [item]) == multiset(s.created) + multiset{item};
  }

  lemma AcceptBalances(s: State, fd: int)
    requires Balanced(s) && s.pending.None?
    ensures Balanced(s.(pc := Top, pending := Some(fd), accepted := s.accepted + [fd]))
  {
    assert multiset(s.accepted + [fd]) == multiset(s.accepted) + multiset{fd};
  }

  lemma OtherStepsMoveNothing(s: State, step: Step)
    requires !step.CreateThread? && !step.Join? && !step.Accept? && Next(s, step).Some?
    ensures var s' := Next(s, step).value;
            s' == s.(pc := s'.pc, keepLooping := s'.keepLooping, caughtSignal := s'.caughtSignal,
                     ended := s'.ended, seen := s'.seen)
  {
  }

  lemma StepBalances(s: State, step: Step)
    requires Balanced(s) && InOrder(s) && Next(s, step).Some?
    ensures Balanced(Next(s, step).value)
  {
    match step
    case CreateThread(item) => CreateBalances(s, item);
    case Join(found) => JoinBalances(s, found);
    case Accept(fd) =>
      if fd.Some? {
        AcceptBalances(s, fd.value);
      }
    case _ => OtherStepsMoveNothing(s, step);
  }

  lemma StepInOrder(s: State, step: Step)
    requires InOrder(s) && Next(s, step).Some?
    ensures InOrder(Next(s, step).value)
  {
  }

  lemma {:induction false} RunInv(steps: seq<Step>)
    requires Run(steps).Some?
    ensures Balanced(Run(steps).value) && InOrder(Run(steps).value)
  {
    if steps != [] {
      RunInv(steps[..|steps| - 1]);
      StepBalances(Run(steps[..|steps| - 1]).value, steps[|steps| - 1]);
      StepInOrder(Run(steps[..|steps| - 1]).value, steps[|steps| - 1]);
    }
  }

  /** How far accepting may have got after the signal was caught in state `s`. */
  ghost predicate Shut(s: State, s': State) {
    && s'.caughtSignal
    && if s.pc == Accepting && s'.pc != Accepting then |s'.accepted| <= |s.accepted| + 1
       else s'.accepted == s.accepted && (s'.pc == Accepting ==> s.pc == Accepting)
  }

  lemma ShutStep(s: State, before: State, step: Step)
    requires Shut(s, before) && Next(before, step).Some?
    ensures Shut(s, Next(before, step).value)
  {
  }

  lemma {:induction false} StaysShut(steps: seq<Step>, later: seq<Step>)
    requires Run(steps).Some? && Run(steps).value.caughtSignal && Run(steps + later).Some?
    ensures Shut(Run(steps).value, Run(steps + later).value)
    decreases |later|
  {
    var all := steps + later;
    if later == [] {
      assert all == steps;
    } else {
      var before := all[..|all| - 1];
      assert before == steps + later[..|later| - 1];
      StaysShut(steps, later[..|later| - 1]);
      ShutStep(Run(steps).value, Run(before).value, all[|all| - 1]);
    }
  }

  /** What the steps alone say: the descriptors that accept handed out, ... */
  function Accepts(steps: seq<Step>): seq<int> {
    if steps == [] then []
    else
      var (earlier, last) := (Accepts(steps[..|steps| - 1]), steps[|steps| - 1]);
      if last.Accept? && last.fd.Some? then earlier + [last.fd.value] else earlier
  }

  /** ... the items of the threads created, ... */
  ghost function Creates(steps: seq<Step>): seq<LinkedListItem> {
    if steps == [] then []
    else
      var (earlier, last) := (Creates(steps[..|steps| - 1]), steps[|steps| - 1]);
      if last.CreateThread? then earlier + [last.item] else earlier
  }

  /** ... whether the signal has come, ... */
  function Signalled(steps: seq<Step>): bool {
    steps != [] && (steps[|steps| - 1].Signal? || Signalled(steps[..|steps| - 1]))
  }

  /** ... and which threads have ended and not been joined. */
  function HaveEnded(steps: seq<Step>): set<ThreadId> {
    if steps == [] then {}
    else
      var (earlier, last) := (HaveEnded(steps[..|steps| - 1]), steps[|steps| - 1]);
      if last.ThreadEnds? then earlier + {last.id} else if last.Join? then earlier - last.found else earlier
  }

  /** The state's records are those of the steps, and threads are created for the accepted clients in
      the order in which they were accepted. */
  ghost predicate Recorded(s: State, steps: seq<Step>) {
    && s.accepted == Accepts(steps) && s.created == Creates(steps)
    && s.caughtSignal == Signalled(steps) && s.ended == HaveEnded(steps)
    && Fds(s.created) + Waiting(s) == s.accepted
  }

  lemma RecordStep(s: State, steps: seq<Step>)
    requires steps != [] && Recorded(s, steps[..|steps| - 1]) && Next(s, steps[|steps| - 1]).Some?
    requires InOrder(s)
    ensures Recorded(Next(s, steps[|steps| - 1]).value, steps)
  {
    var step := steps[|steps| - 1];
    if step.CreateThread? {
      FdsSnoc(s.created, step.item);
    }
  }

  lemma {:induction false} RunRecords(steps: seq<Step>)
    requires Run(steps).Some?
    ensures Recorded(Run(steps).value, steps)
  {
    if steps != [] {
      RunInv(steps[..|steps| - 1]);
      RunRecords(steps[..|steps| - 1]);
      RecordStep(Run(steps[..|steps| - 1]).value, steps);
    }
  }

  lemma RunSnoc(steps: seq<Step>, step: Step)
    ensures Run(steps + [step]) == match Run(steps) case None => None case Some(s) => Next(s, step)
  {
    assert (steps + [step])[..|steps|] == steps;
  }

  /** At every point of every run each descriptor that accept handed out is closed, on the list, or
      waiting for its thread, and each thread created is joined or on the list: each once. */
  lemma {:induction false} EveryOneAccountedFor(steps: seq<Step>)
    requires Run(steps).Some?
    ensures var s := Run(steps).value;
            && multiset(Accepts(steps)) == multiset(s.closed) + multiset(Fds(s.list)) + multiset(Waiting(s))
            && multiset(Creates(steps)) == multiset(s.joined) + multiset(s.list)
            && Fds(Creates(steps)) + Waiting(s) == Accepts(steps)
  {
    RunInv(steps);
    RunRecords(steps);
  }

  lemma {:induction false} RunBefore(steps: seq<Step>, m: nat)
    requires Run(steps).Some? && m <= |steps|
    ensures Run(steps[..m]).Some?
  {
    if m < |steps| {
      RunBefore(steps[..|steps| - 1], m);
      PrefixOfPrefix(steps, |steps| - 1, m);
    } else {
      assert steps[..m] == steps;
    }
  }

  lemma RunAt(steps: seq<Step>, m: nat)
    requires Run(steps).Some? && m < |steps|
    ensures Run(steps[..m]).Some? && Run(steps[..m + 1]).Some?
    ensures Next(Run(steps[..m]).value, steps[m]) == Run(steps[..m + 1])
  {
    RunBefore(steps, m + 1);
    PrefixOfPrefix(steps, m + 1, m);
  }

  /** Only threads that have ended since they were created are ever joined. */
  lemma {:induction false} OnlyEndedAreJoined(steps: seq<Step>, m: nat)
    requires Run(steps).Some? && m < |steps| && steps[m].Join?
    ensures steps[m].found <= HaveEnded(steps[..m])
    ensures Run(steps[..m]).Some? && Run(steps[..m + 1]).Some?
    ensures Run(steps[..m + 1]).value.list == Running(Run(steps[..m]).value.list, steps[m].found)
  {
    RunAt(steps, m);
    RunRecords(steps[..m]);
  }

  /** Once the signal is caught, only an accept that was already under way can still succeed; once
      a test of the loop has seen the signal, none can. */
  lemma NoAcceptAfterSignal(steps: seq<Step>, later: seq<Step>)
    requires Run(steps).Some? && Signalled(steps) && Run(steps + later).Some?
    ensures |Accepts(steps + later)| <= |Accepts(steps)| + 1
    ensures Run(steps).value.pc != Accepting || Run(steps).value.seen ==> Accepts(steps + later) == Accepts(steps)
  {
    RunRecords(steps);
    RunRecords(steps + later);
    StaysShut(steps, later);
    RunInv(steps);
  }

  /** The clean drain: when the loop is out, with the signal arriving wherever it did, the list is
      empty, no accepted client waits for a thread, every descriptor that accept handed out has had its
      thread and has been closed exactly once, and every thread ever created has been joined exactly
      once. */
  lemma CleanDrain(steps: seq<Step>)
    requires Run(steps).Some? && Run(steps).value.pc == Done
    ensures var s := Run(steps).value;
            && Signalled(steps) && s.list == [] && s.pending == None
            && Fds(Creates(steps)) == Accepts(steps)
            && multiset(s.closed) == multiset(Accepts(steps))
            && multiset(s.joined) == multiset(Creates(steps))
  {
    RunInv(steps);
    RunRecords(steps);
  }

  /** The signal is caught, no accepted client waits for its thread, and all listed threads have ended. */
  ghost predicate CanDrain(s: State) {
    && s.caughtSignal && s.pending.None?
    && forall i :: 0 <= i < |s.list| ==> s.list[i].threadId in s.ended
  }

  /** How many of the loop's own steps are left at most. */
  function StepsLeft(s: State): nat {
    match s.pc
    case Done => 0
    case Top => if s.keepLooping then 5 else 1
    case AcceptCheck => if s.keepLooping then 6 else 2
    case ExitCheck => if s.list == [] then 3 else 7
    case Joining => 4
    case Accepting => 6
  }

  /** The loop's next step when every ended thread is found and a signal interrupts accept. */
  function OwnStep(s: State): Step {
    match s.pc
    case Top => Head
    case Joining => Join(s.ended)
    case ExitCheck => TestExit
    case AcceptCheck => TestAccept
    case Accepting => Accept(None)
    case Done => Head
  }

  lemma {:induction false} AllEnded(items: seq<LinkedListItem>, n: nat, ended: set<ThreadId>)
    requires n <= |items| && forall i :: 0 <= i < n ==> items[i].threadId in ended
    ensures RunningOf(items, n, ended) == []
  {
    if n > 0 {
      AllEnded(items, n - 1, ended);
    }
  }

  lemma DrainStep(s: State)
    requires InOrder(s) && CanDrain(s) && s.pc != Done
    ensures Next(s, OwnStep(s)).Some?
    ensures CanDrain(Next(s, OwnStep(s)).value) && StepsLeft(Next(s, OwnStep(s)).value) < StepsLeft(s)
  {
    AllEnded(s.list, |s.list|, s.ended);
  }

  /** The drain ends: once the signal is caught, nothing waits and all listed threads have ended, the
      loop by itself is out within seven steps, from wherever it stands. */
  lemma {:induction false} DrainEnds(steps: seq<Step>) returns (more: seq<Step>)
    requires Run(steps).Some? && CanDrain(Run(steps).value)
    ensures |more| <= StepsLeft(Run(steps).value) <= 7
    ensures forall step :: step in more ==> !step.Signal? && !step.ThreadEnds?
    ensures Run(steps + more).Some? && Run(steps + more).value.pc == Done
    decreases StepsLeft(Run(steps).value)
  {
    var s := Run(steps).value;
    if s.pc == Done {
      more := [];
      assert steps + more == steps;
    } else {
      var step := OwnStep(s);
      RunInv(steps);
      DrainStep(s);
      RunSnoc(steps, step);
      var rest := DrainEnds(steps + [step]);
      more := [step] + rest;
      Assoc(steps, [step], rest);
    }
  }

  /** How many of the loop's own steps are left at most until accept, while no signal has come. */
  function StepsToAccept(s: State): nat {
    match s.pc
    case Top => 4
    case Joining => 3
    case ExitCheck => 2
    case AcceptCheck => 1
    case _ => 0
  }

  lemma AcceptStep(s: State)
    requires InOrder(s) && !s.caughtSignal && s.pending.None? && s.pc != Accepting
    ensures Next(s, OwnStep(s)).Some? && Next(s, OwnStep(s)).value.pending.None?
    ensures !Next(s, OwnStep(s)).value.caughtSignal
    ensures StepsToAccept(Next(s, OwnStep(s)).value) < StepsToAccept(s)
  {
  }

  lemma {:induction false} AcceptIsNear(steps: seq<Step>) returns (more: seq<Step>)
    requires Run(steps).Some? && !Run(steps).value.caughtSignal && Run(steps).value.pending.None?
    ensures |more| <= StepsToAccept(Run(steps).value)
    ensures forall step :: step in more ==> !step.Signal? && !step.ThreadEnds?
    ensures Run(steps + more).Some? && Run(steps + more).value.pc == Accepting
    decreases StepsToAccept(Run(steps).value)
  {
    var s := Run(steps).value;
    RunInv(steps);
    if s.pc == Accepting {
      more := [];
      assert steps + more == steps;
    } else {
      var step := OwnStep(s);
      RunSnoc(steps, step);
      AcceptStep(s);
      var rest := AcceptIsNear(steps + [step]);
      more := [step] + rest;
      Assoc(steps, [step], rest);
    }
  }

  /** The loop serves: until the signal comes, and with no client waiting for its thread, the loop by
      itself is in accept within four steps; ... */
  lemma {:induction false} AcceptIsReached(steps: seq<Step>) returns (more: seq<Step>)
    requires Run(steps).Some? && !Signalled(steps) && Run(steps).value.pending.None?
    ensures |more| <= 4 && forall step :: step in more ==> !step.Signal? && !step.ThreadEnds?
    ensures Run(steps + more).Some? && Run(steps + more).value.pc == Accepting
  {
    RunRecords(steps);
    more := AcceptIsNear(steps);
  }

  /** ... and a client accepted there gets a thread of its own next, first on the list. */
  lemma ClientGetsThread(steps: seq<Step>, item: LinkedListItem)
    requires Run(steps).Some? && Run(steps).value.pc == Accepting
    requires item.threadId !in Run(steps).value.ended && !OnList(Run(steps).value.list, item.threadId)
    ensures var all := steps + [Accept(Some(item.clientFd))] + [CreateThread(item)];
            && Run(all).Some? && Run(all).value.list == [item] + Run(steps).value.list
            && Run(all).value.pending.None? && Run(all).value.pc == Top
  {
    var accepted := steps + [Accept(Some(item.clientFd))];
    RunInv(steps);
    RunSnoc(steps, Accept(Some(item.clientFd)));
    RunSnoc(accepted, CreateThread(item));
  }

  /** The environment is free: the signal may come at any point, any listed thread may end, any ended
      threads may be found by a join, and accept may answer anything. */
  lemma EnvironmentIsFree(steps: seq<Step>, id: ThreadId, found: set<ThreadId>, fd: Option<int>)
    requires Run(steps).Some?
    ensures var s := Run(steps).value;
            && Next(s, Signal).Some?
            && (OnList(s.list, id) ==> Next(s, ThreadEnds(id)).Some?)
            && (s.pc == Joining && found <= HaveEnded(steps) ==> Next(s, Join(found)).Some?)
            && (s.pc == Accepting ==> Next(s, Accept(fd)).Some?)
  {
    RunRecords(steps);
  }
}
