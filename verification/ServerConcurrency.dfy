/** Any number of connection threads and the timestamp writer on one regular file, interleaved at
    every lock, open, write, seek, read, partial send, close and unlock, with failures anywhere. */
module ServerConcurrency {
  import opened Prelude
  import opened Framing
  import opened Connection

  type Id = nat

  datatype Owner = Timer | Client(id: Id)

  /** One write to the file: all of `full` or, after a short write, a part of it. */
  datatype Piece = Piece(owner: Owner, full: seq<byte>, bytes: seq<byte>) {
    predicate Whole() {
      bytes == full
    }
  }

  function Bytes(pieces: seq<Piece>): (parts: seq<seq<byte>>)
    ensures |parts| == |pieces|
  {
    seq(|pieces|, i requires 0 <= i < |pieces| => pieces[i].bytes)
  }

  /** The packets of one connection that were written as a whole, in file order. */
  function Mine(pieces: seq<Piece>, id: Id): seq<seq<byte>> {
    if pieces == [] then []
    else
      var (earlier, last) := (pieces[..|pieces| - 1], pieces[|pieces| - 1]);
      if last.owner == Client(id) && last.Whole() then Mine(earlier, id) + [last.bytes] else Mine(earlier, id)
  }

  /** Where a thread stands inside sending_data; all but Outside hold the mutex. `k` is the place of
      its own packet among the pieces, `offset` that of its descriptor in the file. */
  datatype Pc =
    | Outside
    | Locked
    | Opened
    | Appended(k: nat)
    | Reading(k: nat, offset: nat, sent: seq<byte>)
    | Sending(k: nat, offset: nat, chunk: seq<byte>, done: nat, sent: seq<byte>)
    | Closing(k: nat, sent: seq<byte>, ok: bool)
    | Releasing(k: nat, sent: seq<byte>, ok: bool)

  /** A sending_data that returned 0: which piece was its packet, and all it sent. */
  datatype Echo = Echo(k: nat, data: seq<byte>)

  datatype Thread = Thread(conn: Conn, pc: Pc, received: seq<byte>, echoes: seq<Echo>, largest: nat)

  datatype TimerPc = Idle | TimerLocked(line: seq<byte>) | TimerOpened(line: seq<byte>) | TimerClosing | TimerReleasing

  /** `base` is the file's content at the start and `pieces` every write since. */
  datatype State = State(
    base: seq<byte>,
    file: seq<byte>,
    pieces: seq<Piece>,
    mutex: Option<Owner>,
    threads: map<Id, Thread>,
    timer: TimerPc)
  {
    function Set(id: Id, t: Thread): State {
      this.(threads := threads[id := t])
    }

    function Write(p: Piece): State {
      this.(file := file + p.bytes, pieces := pieces + [p])
    }

    /** The file right after piece `k` was written. */
    function FileAfter(k: nat): seq<byte>
      requires k < |pieces|
    {
      base + Flatten(Bytes(pieces[..k + 1]))
    }
  }

  function Start(base: seq<byte>): State {
    State(base, base, [], None, map[], Idle)
  }

  /** A move of one thread; the arguments are what the environment decides. */
  datatype Act =
    | Receive(answer: Recv, reallocOk: bool)
    | Process
    | Leave
    | Lock
    | Open(ok: bool)
    | Append(n: int)
    | Seek
    | Read(n: int)
    | Send(n: int)
    | Close(ok: bool)
    | Release

  datatype Step =
    | Connect(id: Id)
    | Move(id: Id, act: Act)
    | TimerLock(line: seq<byte>)
    | TimerOpen(ok: bool)
    | TimerAppend(n: int)
    | TimerClose
    | TimerRelease

  function Next(s: State, step: Step): Option<State> {
    match step
    case Connect(id) =>
      if id in s.threads then None else Some(s.Set(id, Thread(START, Outside, [], [], 0)))
    case TimerLock(line) =>
      if s.timer.Idle? && s.mutex.None? && IsPacket(line) then
        Some(s.(mutex := Some(Timer), timer := TimerLocked(line)))
      else None
    case TimerOpen(ok) =>
      if s.timer.TimerLocked? then Some(s.(timer := if ok then TimerOpened(s.timer.line) else TimerReleasing)) else None
    case TimerAppend(n) =>
      if !s.timer.TimerOpened? || !(-1 <= n <= |s.timer.line|) then None
      else if n <= 0 then Some(s.(timer := TimerClosing))
      else Some(s.Write(Piece(Timer, s.timer.line, s.timer.line[..n])).(timer := TimerClosing))
    case TimerClose =>
      if s.timer.TimerClosing? then Some(s.(timer := TimerReleasing)) else None
    case TimerRelease =>
      if s.timer.TimerReleasing? then Some(s.(mutex := None, timer := Idle)) else None
    case Move(id, act) =>
      if id in s.threads then ThreadNext(s, id, s.threads[id], act) else None
  }

  /** A step of thread `id`, whose record is `t`. */
  function ThreadNext(s: State, id: Id, t: Thread, act: Act): Option<State> {
    match act
    case Receive(answer, reallocOk) =>
      if t.pc.Outside? && t.conn.state.WaitingForData? && answer.Possible() then
        Some(s.Set(id, t.(conn := t.conn.Received(answer, reallocOk),
                          received := t.received + (if answer.Data? then answer.bytes else []),
                          largest := if |t.conn.main| > t.largest then |t.conn.main| else t.largest)))
      else None
    case Process =>
      if t.pc.Outside? && t.conn.state.ProcessingData? then Some(s.Set(id, t.(conn := t.conn.Processed()))) else None
    case Leave =>
      if t.pc.Outside? then Some(s.Set(id, t.(conn := t.conn.Closed()))) else None
    case Lock =>
      if t.pc.Outside? && t.conn.state.SendingData? && s.mutex.None? then
        Some(s.(mutex := Some(Client(id))).Set(id, t.(pc := Locked)))
      else None
    case Open(ok) =>
      if t.pc.Locked? then Some(s.Set(id, t.(pc := if ok then Opened else Releasing(0, [], false)))) else None
    case Append(n) =>
      if !t.pc.Opened? || !(-1 <= n <= |t.conn.main|) then None
      else if n <= 0 then Some(s.Set(id, t.(pc := Closing(0, [], false))))
      else
        var s' := s.Write(Piece(Client(id), t.conn.main, t.conn.main[..n]));
        if n < |t.conn.main| then Some(s'.Set(id, t.(pc := Closing(0, [], false))))
        else Some(s'.Set(id, t.(conn := t.conn.(main := []), pc := Appended(|s.pieces|))))
    case Seek =>
      if t.pc.Appended? then Some(s.Set(id, t.(pc := Reading(t.pc.k, 0, [])))) else None
    case Read(n) =>
      if !t.pc.Reading? then None
      else
        var left := From(s.file, t.pc.offset);
        if n == -1 then Some(s.Set(id, t.(pc := Closing(t.pc.k, t.pc.sent, false))))
        else if n == 0 && left == [] then Some(s.Set(id, t.(pc := Closing(t.pc.k, t.pc.sent, true))))
        else if 1 <= n <= |left| && n <= SEND_BUFFER_SIZE - 1 then
          Some(s.Set(id, t.(pc := Sending(t.pc.k, t.pc.offset + n, left[..n], 0, t.pc.sent))))
        else None
    case Send(n) =>
      if !t.pc.Sending? || t.pc.done > |t.pc.chunk| then None
      else if n == -1 then Some(s.Set(id, t.(pc := Closing(t.pc.k, t.pc.sent, false))))
      else if !(1 <= n <= |t.pc.chunk| - t.pc.done) then None
      else
        var sent := t.pc.sent + t.pc.chunk[t.pc.done..t.pc.done + n];
        Some(s.Set(id, t.(pc := if t.pc.done + n == |t.pc.chunk| then Reading(t.pc.k, t.pc.offset, sent)
                                else Sending(t.pc.k, t.pc.offset, t.pc.chunk, t.pc.done + n, sent))))
    case Close(ok) =>
      if t.pc.Closing? then Some(s.Set(id, t.(pc := Releasing(t.pc.k, t.pc.sent, t.pc.ok && ok)))) else None
    case Release =>
      if !t.pc.Releasing? then None
      else if t.pc.ok then
        Some(s.(mutex := None).Set(id, t.(conn := t.conn.Replied(), pc := Outside,
                                          echoes := t.echoes + [Echo(t.pc.k, t.pc.sent)])))
      else
        Some(s.(mutex := None).Set(id, t.(conn := t.conn.Closed(), pc := Outside)))
  }

  function Run(base: seq<byte>, steps: seq<Step>): Option<State> {
    if steps == [] then Some(Start(base))
    else
      match Run(base, steps[..|steps| - 1])
      case None => None
      case Some(s) => Next(s, steps[|steps| - 1])
  }

  /** Each echo is the whole file as it stood right after its own packet. */
  ghost predicate EchoesOk(s: State, id: Id, echoes: seq<Echo>) {
    && (forall i :: 0 <= i < |echoes| ==>
          && echoes[i].k < |s.pieces|
          && s.pieces[echoes[i].k].owner == Client(id) && s.pieces[echoes[i].k].Whole()
          && echoes[i].data == s.FileAfter(echoes[i].k))
    && (forall i, j :: 0 <= i < j < |echoes| ==> echoes[i].k < echoes[j].k)
  }

  /** The newest piece is this thread's packet, and its buffers are as after a reply. */
  ghost predicate JustAppended(s: State, id: Id, t: Thread, k: nat) {
    && k + 1 == |s.pieces| && s.pieces[k].owner == Client(id) && s.pieces[k].Whole()
    && t.conn.state.SendingData? && t.conn.main == [] && t.conn.Replied().Good()
    && (forall i :: 0 <= i < |t.echoes| ==> t.echoes[i].k < k)
  }

  /** A thread that can only close its connection any more. */
  ghost predicate Failed(t: Thread) {
    || ((t.pc.Closing? || t.pc.Releasing?) && !t.pc.ok)
    || (t.pc.Outside? && t.conn.state.ClosedConnection?)
  }

  /** A short write is the thread's last piece, a part of the packet its buffer still holds. */
  ghost predicate ShortOk(s: State, id: Id, t: Thread) {
    forall i :: 0 <= i < |s.pieces| && s.pieces[i].owner == Client(id) && !s.pieces[i].Whole() ==>
      && Failed(t) && s.pieces[i].full == t.conn.main
      && forall j :: i < j < |s.pieces| ==> s.pieces[j].owner != Client(id)
  }

  /** What holds of the buffers and of the echo under way, by where the thread stands. */
  ghost predicate PcOk(s: State, id: Id, t: Thread) {
    match t.pc
    case Outside => t.conn.state.ClosedConnection? || t.conn.Good()
    case Locked => t.conn.state.SendingData? && t.conn.Good()
    case Opened => t.conn.state.SendingData? && t.conn.Good()
    case Appended(k) => JustAppended(s, id, t, k)
    case Reading(k, offset, sent) => JustAppended(s, id, t, k) && offset <= |s.file| && sent == s.file[..offset]
    case Sending(k, offset, chunk, done, sent) =>
      && JustAppended(s, id, t, k) && offset <= |s.file| && done < |chunk| <= offset
      && chunk == s.file[offset - |chunk|..offset] && sent == s.file[..offset - |chunk| + done]
    case Closing(k, sent, ok) => ok ==> JustAppended(s, id, t, k) && sent == s.file
    case Releasing(k, sent, ok) => ok ==> JustAppended(s, id, t, k) && sent == s.file
  }

  ghost predicate ThreadInv(s: State, id: Id, t: Thread) {
    && (!t.pc.Outside? <==> s.mutex == Some(Client(id)))
    && AllPackets(Mine(s.pieces, id))
    && Flatten(Mine(s.pieces, id)) + t.conn.Held() == t.received
    && t.conn.capacity < t.largest + 2 * RECV_BUFFER_GROW_SIZE && t.conn.capacity % RECV_BUFFER_GROW_SIZE == 0
    && EchoesOk(s, id, t.echoes)
    && ShortOk(s, id, t)
    && PcOk(s, id, t)
  }

  /** The file is its pieces, each a packet or line or part of one. */
  ghost predicate FileInv(s: State) {
    && s.file == s.base + Flatten(Bytes(s.pieces))
    && (forall i :: 0 <= i < |s.pieces| ==> IsPacket(s.pieces[i].full) && s.pieces[i].bytes <= s.pieces[i].full)
    && (forall i :: 0 <= i < |s.pieces| && s.pieces[i].owner.Client? ==> s.pieces[i].owner.id in s.threads)
  }

  ghost predicate TimerInv(s: State) {
    && (!s.timer.Idle? <==> s.mutex == Some(Timer))
    && (s.timer.TimerLocked? || s.timer.TimerOpened? ==> IsPacket(s.timer.line))
    && (s.mutex.Some? && s.mutex.value.Client? ==> s.mutex.value.id in s.threads)
  }

  ghost predicate ThreadsInv(s: State) {
    forall id :: id in s.threads ==> ThreadInv(s, id, s.threads[id])
  }

  ghost predicate Inv(s: State) {
    FileInv(s) && TimerInv(s) && ThreadsInv(s)
  }

  /** A step that writes nothing leaves the other threads' part alone. */
  lemma OthersQuiet(s: State, s': State, u: Id, t: Thread)
    requires ThreadInv(s, u, t)
    requires s'.base == s.base && s'.file == s.file && s'.pieces == s.pieces
    requires s'.mutex == Some(Client(u)) <==> s.mutex == Some(Client(u))
    ensures ThreadInv(s', u, t)
  {
  }

  /** A further piece changes no earlier content of the file. */
  lemma EchoesStay(s: State, s': State, p: Piece, id: Id, echoes: seq<Echo>)
    requires EchoesOk(s, id, echoes) && s'.base == s.base && s'.pieces == s.pieces + [p]
    ensures EchoesOk(s', id, echoes)
  {
    forall k | 0 <= k < |s.pieces|
      ensures s'.FileAfter(k) == s.FileAfter(k)
    {
      assert s'.pieces[..k + 1] == s.pieces[..k + 1];
    }
  }

  lemma MineGrows(pieces: seq<Piece>, p: Piece, u: Id)
    ensures Mine(pieces + [p], u)
         == if p.owner == Client(u) && p.Whole() then Mine(pieces, u) + [p.bytes] else Mine(pieces, u)
  {
    assert (pieces + [p])[..|pieces|] == pieces;
  }

  lemma ShortStays(s: State, s': State, p: Piece, u: Id, t: Thread)
    requires ShortOk(s, u, t) && p.owner != Client(u) && s'.pieces == s.pieces + [p]
    ensures ShortOk(s', u, t)
  {
    forall i | 0 <= i < |s'.pieces| && s'.pieces[i].owner == Client(u) && !s'.pieces[i].Whole()
      ensures Failed(t) && s'.pieces[i].full == t.conn.main
      ensures forall j :: i < j < |s'.pieces| ==> s'.pieces[j].owner != Client(u)
    {
      assert s'.pieces[i] == s.pieces[i];
    }
  }

  /** A write by somebody else, while the thread is outside, leaves its part alone. */
  lemma OthersGrow(s: State, s': State, p: Piece, u: Id, t: Thread)
    requires ThreadInv(s, u, t) && t.pc.Outside? && p.owner != Client(u)
    requires s'.base == s.base && s'.pieces == s.pieces + [p] && s'.mutex != Some(Client(u))
    ensures ThreadInv(s', u, t)
  {
    MineGrows(s.pieces, p, u);
    EchoesStay(s, s', p, u, t.echoes);
    ShortStays(s, s', p, u, t);
  }

  /** A step of one thread keeps every other thread's part. */
  lemma OthersStay(s: State, s': State, id: Id)
    requires ThreadsInv(s) && id in s'.threads && s'.base == s.base
    requires s'.threads == s.threads[id := s'.threads[id]] && ThreadInv(s', id, s'.threads[id])
    requires s.mutex.None? || s.mutex == Some(Client(id)) || s'.mutex == s.mutex
    requires s'.mutex.None? || s'.mutex == Some(Client(id)) || s'.mutex == s.mutex
    requires || (s'.pieces == s.pieces && s'.file == s.file)
             || (s.mutex == Some(Client(id)) && exists p: Piece :: p.owner == Client(id) && s'.pieces == s.pieces + [p])
    ensures ThreadsInv(s')
  {
    forall u | u in s'.threads
      ensures ThreadInv(s', u, s'.threads[u])
    {
      if u != id {
        assert s'.threads[u] == s.threads[u] && ThreadInv(s, u, s.threads[u]);
        if s'.pieces == s.pieces && s'.file == s.file {
          OthersQuiet(s, s', u, s.threads[u]);
        } else {
          var p: Piece :| p.owner == Client(id) && s'.pieces == s.pieces + [p];
          OthersGrow(s, s', p, u, s.threads[u]);
        }
      }
    }
  }

  /** waiting_for_data */
  lemma ReceiveStep(s: State, id: Id, answer: Recv, reallocOk: bool)
    requires ThreadsInv(s) && id in s.threads && ThreadNext(s, id, s.threads[id], Receive(answer, reallocOk)).Some?
    ensures ThreadsInv(ThreadNext(s, id, s.threads[id], Receive(answer, reallocOk)).value)
  {
    var t, s' := s.threads[id], ThreadNext(s, id, s.threads[id], Receive(answer, reallocOk)).value;
    assert ThreadInv(s, id, t);
    ReceivedKeeps(t.conn, answer, reallocOk);
    CapacityStaysClose(t.conn, answer, reallocOk, s'.threads[id].largest);
    Assoc(Flatten(Mine(s.pieces, id)), t.conn.Held(), if answer.Data? then answer.bytes else []);
    OthersStay(s, s', id);
  }

  /** process_received_data, or leaving the loop on a signal. */
  lemma ProcessStep(s: State, id: Id, act: Act)
    requires ThreadsInv(s) && id in s.threads && (act.Process? || act.Leave?)
    requires ThreadNext(s, id, s.threads[id], act).Some?
    ensures ThreadsInv(ThreadNext(s, id, s.threads[id], act).value)
  {
    var t := s.threads[id];
    assert ThreadInv(s, id, t);
    if act.Process? {
      ProcessedKeeps(t.conn);
    }
    OthersStay(s, ThreadNext(s, id, t, act).value, id);
  }

  /** A change of place inside sending_data, with everything else as it was. */
  lemma PcStep(s: State, s': State, id: Id, pc: Pc)
    requires ThreadsInv(s) && id in s.threads && (s.mutex.None? || s.mutex == Some(Client(id)))
    requires s' == s.(mutex := Some(Client(id))).Set(id, s.threads[id].(pc := pc)) && !pc.Outside?
    requires PcOk(s', id, s'.threads[id])
    requires Failed(s.threads[id]) ==> Failed(s'.threads[id])
    ensures ThreadsInv(s')
  {
    assert ThreadInv(s, id, s.threads[id]);
    OthersStay(s, s', id);
  }

  /** Taking the mutex, opening, seeking, closing. */
  lemma QuietStep(s: State, id: Id, act: Act)
    requires ThreadsInv(s) && id in s.threads && (act.Lock? || act.Open? || act.Seek? || act.Close?)
    requires ThreadNext(s, id, s.threads[id], act).Some?
    ensures ThreadsInv(ThreadNext(s, id, s.threads[id], act).value)
  {
    var s' := ThreadNext(s, id, s.threads[id], act).value;
    assert ThreadInv(s, id, s.threads[id]);
    PcStep(s, s', id, s'.threads[id].pc);
  }

  /** A read of the echo loop. */
  lemma ReadStep(s: State, id: Id, n: int)
    requires ThreadsInv(s) && id in s.threads && ThreadNext(s, id, s.threads[id], Read(n)).Some?
    ensures ThreadsInv(ThreadNext(s, id, s.threads[id], Read(n)).value)
  {
    var s' := ThreadNext(s, id, s.threads[id], Read(n)).value;
    assert ThreadInv(s, id, s.threads[id]);
    PcStep(s, s', id, s'.threads[id].pc);
  }

  /** A send of the echo loop. */
  lemma SendStep(s: State, id: Id, n: int)
    requires ThreadsInv(s) && id in s.threads && ThreadNext(s, id, s.threads[id], Send(n)).Some?
    ensures ThreadsInv(ThreadNext(s, id, s.threads[id], Send(n)).value)
  {
    var t, s' := s.threads[id], ThreadNext(s, id, s.threads[id], Send(n)).value;
    assert ThreadInv(s, id, t);
    if n != -1 {
      SentMore(s.file, t.pc.offset, t.pc.chunk, t.pc.done, n);
    }
    PcStep(s, s', id, s'.threads[id].pc);
  }

  lemma SentMore(file: seq<byte>, offset: nat, chunk: seq<byte>, done: nat, n: nat)
    requires |chunk| <= offset <= |file| && chunk == file[offset - |chunk|..offset] && done + n <= |chunk|
    ensures file[..offset - |chunk| + done] + chunk[done..done + n] == file[..offset - |chunk| + (done + n)]
  {
  }

  /** The unlock: a success records the echo, a failure closes the connection. */
  lemma ReleaseStep(s: State, id: Id)
    requires FileInv(s) && ThreadsInv(s) && id in s.threads && ThreadNext(s, id, s.threads[id], Release).Some?
    ensures ThreadsInv(ThreadNext(s, id, s.threads[id], Release).value)
  {
    OwnRelease(s, id, s.threads[id]);
    OthersStay(s, ThreadNext(s, id, s.threads[id], Release).value, id);
  }

  lemma OwnRelease(s: State, id: Id, t: Thread)
    requires FileInv(s) && ThreadInv(s, id, t) && ThreadNext(s, id, t, Release).Some?
    ensures s.mutex == Some(Client(id))
    ensures var s' := ThreadNext(s, id, t, Release).value; ThreadInv(s', id, s'.threads[id])
  {
    var s' := ThreadNext(s, id, t, Release).value;
    if t.pc.ok {
      EchoRecorded(s, id, t.echoes, t.pc.k);
      assert EchoesOk(s', id, s'.threads[id].echoes);
    } else {
      assert EchoesOk(s', id, t.echoes);
    }
  }

  /** The newest piece's echo is the whole file. */
  lemma EchoRecorded(s: State, id: Id, echoes: seq<Echo>, k: nat)
    requires EchoesOk(s, id, echoes) && s.file == s.base + Flatten(Bytes(s.pieces))
    requires k + 1 == |s.pieces| && s.pieces[k].owner == Client(id) && s.pieces[k].Whole()
    requires forall i :: 0 <= i < |echoes| ==> echoes[i].k < k
    ensures EchoesOk(s, id, echoes + [Echo(k, s.file)])
  {
    assert s.pieces[..k + 1] == s.pieces;
  }

  /** Writing a piece of one's own, and what it means for what was written before. */
  lemma OwnWrite(s: State, id: Id, t: Thread, p: Piece)
    requires ThreadInv(s, id, t) && t.pc.Opened? && p.owner == Client(id)
    ensures Mine(s.Write(p).pieces, id) == if p.Whole() then Mine(s.pieces, id) + [p.bytes] else Mine(s.pieces, id)
    ensures EchoesOk(s.Write(p), id, t.echoes)
    ensures forall i :: 0 <= i < |s.pieces| && s.pieces[i].owner == Client(id) ==> s.pieces[i].Whole()
  {
    MineGrows(s.pieces, p, id);
    EchoesStay(s, s.Write(p), p, id, t.echoes);
  }

  /** The write of the packet, full or short. */
  lemma AppendStep(s: State, id: Id, n: int)
    requires ThreadsInv(s) && id in s.threads && ThreadNext(s, id, s.threads[id], Append(n)).Some?
    ensures ThreadsInv(ThreadNext(s, id, s.threads[id], Append(n)).value)
  {
    var t, s' := s.threads[id], ThreadNext(s, id, s.threads[id], Append(n)).value;
    assert ThreadInv(s, id, t);
    if n <= 0 {
      PcStep(s, s', id, s'.threads[id].pc);
    } else {
      OwnAppend(s, id, n);
      assert s'.pieces == s.pieces + [Piece(Client(id), t.conn.main, t.conn.main[..n])];
      OthersStay(s, s', id);
    }
  }

  /** The packet moves from the buffer to the file. */
  lemma Handed(mine: seq<seq<byte>>, conn: Conn, received: seq<byte>)
    requires Flatten(mine) + conn.Held() == received
    ensures Flatten(mine + [conn.main]) + conn.(main := []).Held() == received
  {
    FlattenSnoc(mine, conn.main);
    Assoc(Flatten(mine), conn.main, conn.temp);
    assert [] + conn.temp == conn.temp;
  }

  lemma AppendedWhole(s: State, id: Id, t: Thread)
    requires ThreadInv(s, id, t) && t.pc.Opened?
    ensures ThreadInv(s.Write(Piece(Client(id), t.conn.main, t.conn.main)), id,
                      t.(conn := t.conn.(main := []), pc := Appended(|s.pieces|)))
  {
    var p := Piece(Client(id), t.conn.main, t.conn.main);
    var t' := t.(conn := t.conn.(main := []), pc := Appended(|s.pieces|));
    OwnWrite(s, id, t, p);
    Handed(Mine(s.pieces, id), t.conn, t.received);
    assert AllPackets(Mine(s.pieces, id) + [t.conn.main]);
    assert ShortOk(s.Write(p), id, t');
    assert JustAppended(s.Write(p), id, t', |s.pieces|) by {
      assert t'.conn.Replied() == t.conn.Replied();
    }
  }

  lemma AppendedPart(s: State, id: Id, t: Thread, n: nat)
    requires ThreadInv(s, id, t) && t.pc.Opened? && n < |t.conn.main|
    ensures ThreadInv(s.Write(Piece(Client(id), t.conn.main, t.conn.main[..n])), id, t.(pc := Closing(0, [], false)))
  {
    OwnWrite(s, id, t, Piece(Client(id), t.conn.main, t.conn.main[..n]));
  }

  lemma OwnAppend(s: State, id: Id, n: nat)
    requires id in s.threads && ThreadInv(s, id, s.threads[id]) && 0 < n
    requires ThreadNext(s, id, s.threads[id], Append(n)).Some?
    ensures var s' := ThreadNext(s, id, s.threads[id], Append(n)).value; ThreadInv(s', id, s'.threads[id])
  {
    var t, s' := s.threads[id], ThreadNext(s, id, s.threads[id], Append(n)).value;
    if n == |t.conn.main| {
      AppendedWhole(s, id, t);
      assert t.conn.main[..n] == t.conn.main;
    } else {
      AppendedPart(s, id, t, n);
    }
    OthersQuiet(s.Write(Piece(Client(id), t.conn.main, t.conn.main[..n])), s', id, s'.threads[id]);
  }

  lemma FileGrows(s: State, p: Piece)
    requires FileInv(s) && IsPacket(p.full) && p.bytes <= p.full && (p.owner.Client? ==> p.owner.id in s.threads)
    ensures FileInv(s.Write(p))
  {
    assert Bytes(s.pieces + [p]) == Bytes(s.pieces) + [p.bytes];
    FlattenSnoc(Bytes(s.pieces), p.bytes);
    Assoc(s.base, Flatten(Bytes(s.pieces)), p.bytes);
  }

  lemma MoveKeepsFile(s: State, act: Act, id: Id)
    requires FileInv(s) && id in s.threads && ThreadInv(s, id, s.threads[id])
    requires ThreadNext(s, id, s.threads[id], act).Some?
    ensures FileInv(ThreadNext(s, id, s.threads[id], act).value)
  {
    var t, s' := s.threads[id], ThreadNext(s, id, s.threads[id], act).value;
    if act.Append? && act.n > 0 {
      FileGrows(s, Piece(Client(id), t.conn.main, t.conn.main[..act.n]));
    } else {
      assert s' == s.(mutex := s'.mutex, threads := s'.threads) && s.threads.Keys <= s'.threads.Keys;
    }
  }

  lemma MoveKeepsTimer(s: State, act: Act, id: Id)
    requires TimerInv(s) && id in s.threads && ThreadInv(s, id, s.threads[id])
    requires ThreadNext(s, id, s.threads[id], act).Some?
    ensures TimerInv(ThreadNext(s, id, s.threads[id], act).value)
  {
  }

  lemma MoveKeepsThreads(s: State, act: Act, id: Id)
    requires FileInv(s) && ThreadsInv(s) && id in s.threads && ThreadNext(s, id, s.threads[id], act).Some?
    ensures ThreadsInv(ThreadNext(s, id, s.threads[id], act).value)
  {
    match act
    case Append(n) => AppendStep(s, id, n);
    case Release => ReleaseStep(s, id);
    case Read(n) => ReadStep(s, id, n);
    case Send(n) => SendStep(s, id, n);
    case Receive(answer, ok) => ReceiveStep(s, id, answer, ok);
    case Process => ProcessStep(s, id, act);
    case Leave => ProcessStep(s, id, act);
    case _ => QuietStep(s, id, act);
  }

  lemma NewThread(s: State, id: Id)
    requires FileInv(s) && TimerInv(s) && id !in s.threads
    ensures ThreadInv(Next(s, Connect(id)).value, id, Thread(START, Outside, [], [], 0))
  {
    NothingYet(s.pieces, id);
    assert START.Held() == [] && Flatten([]) + START.Held() == [];
    assert ShortOk(Next(s, Connect(id)).value, id, Thread(START, Outside, [], [], 0));
  }

  lemma ConnectStep(s: State, id: Id)
    requires Inv(s) && id !in s.threads
    ensures Inv(Next(s, Connect(id)).value)
  {
    var s' := Next(s, Connect(id)).value;
    NewThread(s, id);
    forall u | u in s'.threads
      ensures ThreadInv(s', u, s'.threads[u])
    {
      if u != id {
        OthersQuiet(s, s', u, s.threads[u]);
      }
    }
    assert s.threads.Keys <= s'.threads.Keys;
  }

  lemma {:induction false} NothingYet(pieces: seq<Piece>, id: Id)
    requires forall i :: 0 <= i < |pieces| ==> pieces[i].owner != Client(id)
    ensures Mine(pieces, id) == []
  {
    if pieces != [] {
      NothingYet(pieces[..|pieces| - 1], id);
    }
  }

  /** write_time_stamp competes for the same mutex. */
  lemma TimerStep(s: State, step: Step)
    requires Inv(s) && Next(s, step).Some? && !step.Connect? && !step.Move?
    ensures Inv(Next(s, step).value)
  {
    var s' := Next(s, step).value;
    var grows := step.TimerAppend? && step.n > 0;
    if grows {
      FileGrows(s, Piece(Timer, s.timer.line, s.timer.line[..step.n]));
    }
    forall u | u in s'.threads
      ensures ThreadInv(s', u, s'.threads[u])
    {
      assert ThreadInv(s, u, s.threads[u]);
      if grows {
        OthersGrow(s, s', Piece(Timer, s.timer.line, s.timer.line[..step.n]), u, s.threads[u]);
      } else {
        OthersQuiet(s, s', u, s.threads[u]);
      }
    }
  }

  lemma StepInv(s: State, step: Step)
    requires Inv(s) && Next(s, step).Some?
    ensures Inv(Next(s, step).value)
  {
    match step
    case Connect(id) => ConnectStep(s, id);
    case Move(id, act) =>
      assert ThreadInv(s, id, s.threads[id]);
      MoveKeepsFile(s, act, id);
      MoveKeepsTimer(s, act, id);
      MoveKeepsThreads(s, act, id);
    case _ => TimerStep(s, step);
  }

  lemma StartInv(base: seq<byte>)
    ensures Inv(Start(base))
  {
    assert base + Flatten(Bytes([])) == base;
  }

  lemma {:induction false} RunInv(base: seq<byte>, steps: seq<Step>)
    requires Run(base, steps).Some?
    ensures Inv(Run(base, steps).value)
  {
    if steps == [] {
      StartInv(base);
    } else {
      RunInv(base, steps[..|steps| - 1]);
      StepInv(Run(base, steps[..|steps| - 1]).value, steps[|steps| - 1]);
    }
  }

  lemma {:induction false} BaseStays(base: seq<byte>, steps: seq<Step>)
    requires Run(base, steps).Some?
    ensures Run(base, steps).value.base == base
  {
    if steps != [] {
      BaseStays(base, steps[..|steps| - 1]);
    }
  }

  /** Who takes a step. */
  function Actor(step: Step): Option<Owner> {
    match step
    case Connect(_) => None
    case Move(id, _) => Some(Client(id))
    case _ => Some(Timer)
  }

  /** How many steps the holder of the mutex is at most away from giving it back: a thread may send
      every byte of the file on its own. */
  function LeftOf(t: Thread, size: nat): nat {
    match t.pc
    case Outside => 0
    case Locked => 2 * (size + |t.conn.main|) + 8
    case Opened => 2 * (size + |t.conn.main|) + 7
    case Appended(_) => 2 * size + 6
    case Reading(_, offset, _) => 2 * Monus(size, offset) + 4
    case Sending(_, offset, chunk, done, _) => 2 * Monus(size, offset) + Monus(|chunk|, done) + 4
    case Closing(_, _, _) => 2
    case Releasing(_, _, _) => 1
  }

  function Monus(a: nat, b: nat): nat {
    if b <= a then a - b else 0
  }

  function Left(s: State): nat {
    match s.mutex
    case None => 0
    case Some(Client(id)) => if id in s.threads then LeftOf(s.threads[id], |s.file|) else 0
    case Some(Timer) =>
      match s.timer
      case Idle => 0
      case TimerLocked(_) => 4
      case TimerOpened(_) => 3
      case TimerClosing => 2
      case TimerReleasing => 1
  }

  /** A step the thread inside sending_data can take next, without a failure. */
  function Onward(s: State, t: Thread): Act {
    match t.pc
    case Outside => Leave
    case Locked => Open(true)
    case Opened => Append(|t.conn.main|)
    case Appended(_) => Seek
    case Reading(_, offset, _) => Read(Min(SEND_BUFFER_SIZE - 1, |From(s.file, offset)|))
    case Sending(_, _, chunk, done, _) => Send(|chunk| - done)
    case Closing(_, _, _) => Close(true)
    case Releasing(_, _, _) => Release
  }

  function HolderStep(s: State): Step {
    match s.mutex
    case Some(Client(id)) => Move(id, if id in s.threads then Onward(s, s.threads[id]) else Leave)
    case _ =>
      match s.timer
      case TimerLocked(_) => TimerOpen(true)
      case TimerOpened(line) => TimerAppend(|line|)
      case TimerClosing => TimerClose
      case _ => TimerRelease
  }

  lemma HolderStepIsEnabled(s: State)
    requires Inv(s) && s.mutex.Some?
    ensures Next(s, HolderStep(s)).Some? && Actor(HolderStep(s)) == s.mutex
  {
    if s.mutex.value.Client? {
      assert ThreadInv(s, s.mutex.value.id, s.threads[s.mutex.value.id]);
    }
  }

  lemma OwnMoveAdvances(s: State, id: Id, act: Act)
    requires id in s.threads && ThreadInv(s, id, s.threads[id]) && s.mutex == Some(Client(id))
    requires ThreadNext(s, id, s.threads[id], act).Some?
    ensures var s' := ThreadNext(s, id, s.threads[id], act).value;
            s'.mutex.None? || (s'.mutex == s.mutex && Left(s') < Left(s))
  {
  }

  /** A thread outside sending_data changes its own record only. */
  lemma OutsideMove(s: State, id: Id, t: Thread, act: Act)
    requires t.pc.Outside? && s.mutex.Some? && ThreadNext(s, id, t, act).Some?
    ensures ThreadNext(s, id, t, act).value == s.Set(id, ThreadNext(s, id, t, act).value.threads[id])
  {
  }

  lemma TimerOutside(s: State, step: Step)
    requires s.timer.Idle? && s.mutex.Some? && Actor(step) == Some(Timer)
    ensures Next(s, step).None?
  {
  }

  /** The file and the holder's record are the holder's alone. */
  lemma OutsiderLeavesHolder(s: State, step: Step)
    requires Inv(s) && s.mutex.Some? && Actor(step) != s.mutex && Next(s, step).Some?
    ensures var s' := Next(s, step).value;
            && s'.mutex == s.mutex && s'.file == s.file && s'.timer == s.timer
            && (s.mutex.value.Client? ==>
                  s.mutex.value.id in s'.threads && s'.threads[s.mutex.value.id] == s.threads[s.mutex.value.id])
  {
    if step.Move? {
      assert ThreadInv(s, step.id, s.threads[step.id]);
      OutsideMove(s, step.id, s.threads[step.id], step.act);
    } else if !step.Connect? {
      TimerOutside(s, step);
    }
  }

  /** While the mutex is held, each of its holder's steps brings it closer to giving the mutex back,
      and no other step touches it. */
  lemma {:induction false} HolderAdvances(s: State, step: Step)
    requires Inv(s) && s.mutex.Some? && Next(s, step).Some?
    ensures var s' := Next(s, step).value;
            if Actor(step) != s.mutex then s'.mutex == s.mutex && Left(s') == Left(s)
            else s'.mutex.None? || (s'.mutex == s.mutex && Left(s') < Left(s))
  {
    if Actor(step) != s.mutex {
      OutsiderLeavesHolder(s, step);
    } else if step.Move? {
      OwnMoveAdvances(s, step.id, step.act);
    }
  }

  /** From every point of every run the mutex can be given back by its holder alone, within that many
      steps. */
  lemma {:induction false} MutexIsReleased(base: seq<byte>, steps: seq<Step>) returns (more: seq<Step>)
    requires Run(base, steps).Some? && Run(base, steps).value.mutex.Some?
    ensures |more| <= Left(Run(base, steps).value)
    ensures forall step :: step in more ==> Actor(step) == Run(base, steps).value.mutex
    ensures Run(base, steps + more).Some? && Run(base, steps + more).value.mutex == None
    decreases Left(Run(base, steps).value)
  {
    var s := Run(base, steps).value;
    var step := HolderStep(s);
    RunInv(base, steps);
    HolderStepIsEnabled(s);
    HolderAdvances(s, step);
    assert (steps + [step])[..|steps|] == steps;
    assert Run(base, steps + [step]) == Next(s, step);
    if Next(s, step).value.mutex.None? {
      more := [step];
    } else {
      var rest := MutexIsReleased(base, steps + [step]);
      more := [step] + rest;
      Assoc(steps, [step], rest);
    }
  }

  /** The write call a piece comes from. */
  predicate Writes(step: Step, owner: Owner) {
    match step
    case Move(id, act) => act.Append? && owner == Client(id)
    case TimerAppend(_) => owner == Timer
    case _ => false
  }

  lemma NextPieces(s: State, step: Step)
    requires Next(s, step).Some?
    ensures var s' := Next(s, step).value;
            s'.pieces == s.pieces || exists p :: s'.pieces == s.pieces + [p] && Writes(step, p.owner)
  {
  }

  /** Pieces are only ever added: piece `k` is there since one step of the run, a write by its owner,
      with those before it as they were. */
  lemma {:induction false} WrittenOnce(base: seq<byte>, steps: seq<Step>, k: nat) returns (m: nat)
    requires Run(base, steps).Some? && k < |Run(base, steps).value.pieces|
    ensures m < |steps| && Writes(steps[m], Run(base, steps).value.pieces[k].owner)
    ensures Run(base, steps[..m]).Some? && Run(base, steps[..m]).value.pieces == Run(base, steps).value.pieces[..k]
    ensures Run(base, steps[..m + 1]).Some?
    ensures Run(base, steps[..m + 1]).value.pieces == Run(base, steps).value.pieces[..k + 1]
  {
    m := |steps| - 1;
    var s, s' := Run(base, steps[..m]).value, Run(base, steps).value;
    NextPieces(s, steps[m]);
    if k < |s.pieces| {
      var last := m;
      m := WrittenOnce(base, steps[..last], k);
      PrefixOfPrefix(steps, last, m);
      PrefixOfPrefix(steps, last, m + 1);
      assert s.pieces == s'.pieces[..|s.pieces|];
      PrefixOfPrefix(s'.pieces, |s.pieces|, k);
      PrefixOfPrefix(s'.pieces, |s.pieces|, k + 1);
    } else {
      assert steps[..m + 1] == steps;
      assert s.pieces == s'.pieces[..k] && s'.pieces == s'.pieces[..k + 1];
    }
  }

  /** The step at `m`, a write of the thread's own, added piece `k`, and the file was then this. */
  ghost predicate WasTheFile(base: seq<byte>, steps: seq<Step>, id: Id, m: nat, k: nat, data: seq<byte>) {
    && m < |steps| && Writes(steps[m], Client(id))
    && Run(base, steps[..m]).Some? && |Run(base, steps[..m]).value.pieces| == k
    && Run(base, steps[..m + 1]).Some? && |Run(base, steps[..m + 1]).value.pieces| == k + 1
    && Run(base, steps[..m + 1]).value.file == data
  }

  /** The place of the thread's own packet, while its sending_data has written it and not failed. */
  function UnderWay(t: Thread): Option<nat> {
    match t.pc
    case Appended(k) => Some(k)
    case Reading(k, _, _) => Some(k)
    case Sending(k, _, _, _, _) => Some(k)
    case Closing(k, _, ok) => if ok then Some(k) else None
    case Releasing(k, _, ok) => if ok then Some(k) else None
    case _ => None
  }

  /** Piece `k` is packet `j` of the connection. */
  ghost predicate IsPacketAt(pieces: seq<Piece>, id: Id, k: nat, j: nat) {
    k < |pieces| && j < |Mine(pieces, id)| && pieces[k].bytes == Mine(pieces, id)[j]
  }

  /** One echo for each packet, in order; one packet more while its echo is under way, or for ever if
      that fails. */
  ghost predicate EchoesMatch(pieces: seq<Piece>, id: Id, t: Thread) {
    && (forall j :: 0 <= j < |t.echoes| ==> IsPacketAt(pieces, id, t.echoes[j].k, j))
    && (UnderWay(t).Some? ==>
          |Mine(pieces, id)| == |t.echoes| + 1 && IsPacketAt(pieces, id, UnderWay(t).value, |t.echoes|))
    && (UnderWay(t).None? && !Failed(t) ==> |Mine(pieces, id)| == |t.echoes|)
  }

  lemma PacketStaysAt(pieces: seq<Piece>, p: Piece, id: Id, k: nat, j: nat)
    requires IsPacketAt(pieces, id, k, j)
    ensures IsPacketAt(pieces + [p], id, k, j)
  {
    MineGrows(pieces, p, id);
  }

  /** Somebody else's write, or one of the thread's own that is short. */
  lemma EchoesMatchBeside(pieces: seq<Piece>, p: Piece, id: Id, t: Thread)
    requires EchoesMatch(pieces, id, t) && (p.owner != Client(id) || !p.Whole())
    ensures EchoesMatch(pieces + [p], id, t)
  {
    MineGrows(pieces, p, id);
    forall k, j | IsPacketAt(pieces, id, k, j)
      ensures IsPacketAt(pieces + [p], id, k, j)
    {
      PacketStaysAt(pieces, p, id, k, j);
    }
  }

  lemma EchoesMatchAppended(pieces: seq<Piece>, id: Id, t: Thread, t': Thread, packet: seq<byte>)
    requires EchoesMatch(pieces, id, t) && UnderWay(t).None? && !Failed(t)
    requires t'.echoes == t.echoes && UnderWay(t') == Some(|pieces|)
    ensures EchoesMatch(pieces + [Piece(Client(id), packet, packet)], id, t')
  {
    var p := Piece(Client(id), packet, packet);
    MineGrows(pieces, p, id);
    forall k, j | IsPacketAt(pieces, id, k, j)
      ensures IsPacketAt(pieces + [p], id, k, j)
    {
      PacketStaysAt(pieces, p, id, k, j);
    }
  }

  ghost predicate AllEchoesMatch(s: State) {
    forall id :: id in s.threads ==> EchoesMatch(s.pieces, id, s.threads[id])
  }

  lemma OwnAppendMatches(s: State, id: Id, t: Thread, n: int)
    requires EchoesMatch(s.pieces, id, t) && ThreadNext(s, id, t, Append(n)).Some?
    ensures var s' := ThreadNext(s, id, t, Append(n)).value; EchoesMatch(s'.pieces, id, s'.threads[id])
  {
    var s' := ThreadNext(s, id, t, Append(n)).value;
    if n == |t.conn.main| && n > 0 {
      assert t.conn.main[..n] == t.conn.main;
      EchoesMatchAppended(s.pieces, id, t, s'.threads[id], t.conn.main);
    } else if n > 0 {
      EchoesMatchBeside(s.pieces, Piece(Client(id), t.conn.main, t.conn.main[..n]), id, t);
    }
  }

  lemma OwnQuietMatches(s: State, id: Id, t: Thread, act: Act)
    requires EchoesMatch(s.pieces, id, t) && !act.Append? && ThreadNext(s, id, t, act).Some?
    ensures var s' := ThreadNext(s, id, t, act).value; EchoesMatch(s'.pieces, id, s'.threads[id])
  {
    if act.Release? {
      OwnReleaseMatches(s, id, t);
    } else {
      OnlyMoves(s, id, t, act);
    }
  }

  lemma OwnReleaseMatches(s: State, id: Id, t: Thread)
    requires EchoesMatch(s.pieces, id, t) && ThreadNext(s, id, t, Release).Some?
    ensures var s' := ThreadNext(s, id, t, Release).value; EchoesMatch(s'.pieces, id, s'.threads[id])
  {
  }

  lemma OnlyMoves(s: State, id: Id, t: Thread, act: Act)
    requires !act.Append? && !act.Release? && ThreadNext(s, id, t, act).Some?
    ensures var s' := ThreadNext(s, id, t, act).value;
            && s'.pieces == s.pieces && s'.threads[id].echoes == t.echoes
            && (UnderWay(s'.threads[id]) == UnderWay(t) || UnderWay(s'.threads[id]).None?)
            && (Failed(t) || UnderWay(t).Some? ==> Failed(s'.threads[id]) || UnderWay(s'.threads[id]).Some?)
  {
  }

  lemma OthersMatch(s: State, step: Step, u: Id)
    requires Next(s, step).Some? && u in s.threads && EchoesMatch(s.pieces, u, s.threads[u])
    requires step.Move? ==> step.id != u
    ensures var s' := Next(s, step).value; u in s'.threads && EchoesMatch(s'.pieces, u, s'.threads[u])
  {
    var s' := Next(s, step).value;
    NextPieces(s, step);
    if s'.pieces != s.pieces {
      var p :| s'.pieces == s.pieces + [p] && Writes(step, p.owner);
      EchoesMatchBeside(s.pieces, p, u, s.threads[u]);
    }
  }

  lemma NewThreadMatches(s: State, id: Id)
    requires FileInv(s) && Next(s, Connect(id)).Some?
    ensures var s' := Next(s, Connect(id)).value; id in s'.threads && EchoesMatch(s'.pieces, id, s'.threads[id])
  {
    NothingYet(s.pieces, id);
  }

  lemma OwnMatches(s: State, id: Id, act: Act)
    requires id in s.threads && EchoesMatch(s.pieces, id, s.threads[id]) && Next(s, Move(id, act)).Some?
    ensures var s' := Next(s, Move(id, act)).value; id in s'.threads && EchoesMatch(s'.pieces, id, s'.threads[id])
  {
    if act.Append? {
      OwnAppendMatches(s, id, s.threads[id], act.n);
    } else {
      OwnQuietMatches(s, id, s.threads[id], act);
    }
  }

  lemma {:induction false} RunEchoesMatch(base: seq<byte>, steps: seq<Step>)
    requires Run(base, steps).Some?
    ensures AllEchoesMatch(Run(base, steps).value)
  {
    if steps != [] {
      var (earlier, step) := (steps[..|steps| - 1], steps[|steps| - 1]);
      var s, s' := Run(base, earlier).value, Run(base, steps).value;
      RunEchoesMatch(base, earlier);
      RunInv(base, earlier);
      forall u | u in s'.threads
        ensures EchoesMatch(s'.pieces, u, s'.threads[u])
      {
        ThreadsKnown(s, step, u);
        MatchStep(s, step, u);
      }
    }
  }

  lemma MatchStep(s: State, step: Step, u: Id)
    requires FileInv(s) && Next(s, step).Some? && (u in s.threads ==> EchoesMatch(s.pieces, u, s.threads[u]))
    requires u in s.threads || step == Connect(u)
    ensures var s' := Next(s, step).value; u in s'.threads && EchoesMatch(s'.pieces, u, s'.threads[u])
  {
    if u !in s.threads {
      NewThreadMatches(s, u);
    } else if step.Move? && u == step.id {
      OwnMatches(s, u, step.act);
    } else {
      OthersMatch(s, step, u);
    }
  }

  lemma ThreadsKnown(s: State, step: Step, u: Id)
    requires Next(s, step).Some? && u in Next(s, step).value.threads
    ensures u in s.threads || step == Connect(u)
  {
  }

  lemma FileAfterGrows(s: State, i: nat, j: nat)
    requires i < j < |s.pieces|
    ensures s.FileAfter(j) == s.FileAfter(j - 1) + s.pieces[j].bytes
    ensures s.FileAfter(i) <= s.FileAfter(j - 1)
  {
    assert Bytes(s.pieces[..j + 1]) == Bytes(s.pieces[..j]) + [s.pieces[j].bytes];
    FlattenSnoc(Bytes(s.pieces[..j]), s.pieces[j].bytes);
    Assoc(s.base, Flatten(Bytes(s.pieces[..j])), s.pieces[j].bytes);
    FlattenPrefix(Bytes(s.pieces[..i + 1]), Bytes(s.pieces[..j]));
  }

  predicate EndsWith(s: seq<byte>, t: seq<byte>) {
    |t| <= |s| && s[|s| - |t|..] == t
  }

  lemma LastPiece(s: State, k: nat)
    requires k < |s.pieces|
    ensures EndsWith(s.FileAfter(k), s.pieces[k].bytes)
  {
    assert Bytes(s.pieces[..k + 1]) == Bytes(s.pieces[..k]) + [s.pieces[k].bytes];
    FlattenSnoc(Bytes(s.pieces[..k]), s.pieces[k].bytes);
    Assoc(s.base, Flatten(Bytes(s.pieces[..k])), s.pieces[k].bytes);
  }

  lemma FileAfterWasTheFile(base: seq<byte>, steps: seq<Step>, id: Id, k: nat)
    requires Run(base, steps).Some? && k < |Run(base, steps).value.pieces|
    requires Run(base, steps).value.pieces[k].owner == Client(id)
    ensures exists m: nat :: WasTheFile(base, steps, id, m, k, Run(base, steps).value.FileAfter(k))
  {
    var m := WrittenOnce(base, steps, k);
    FaithfulMerge(base, steps[..m + 1]);
    BaseStays(base, steps);
    assert WasTheFile(base, steps, id, m, k, Run(base, steps).value.FileAfter(k));
  }

  /** Atomic echo, for every interleaving: a sending_data that returned 0 has sent exactly the file
      as it stood in the run right after its own write, so the echo ends with its own packet. */
  lemma AtomicEcho(base: seq<byte>, steps: seq<Step>, id: Id, j: nat)
    requires Run(base, steps).Some? && id in Run(base, steps).value.threads
    requires j < |Run(base, steps).value.threads[id].echoes|
    ensures var s := Run(base, steps).value;
            var echo := s.threads[id].echoes[j];
            && echo.k < |s.pieces| && s.pieces[echo.k].owner == Client(id) && IsPacket(s.pieces[echo.k].bytes)
            && echo.data == s.FileAfter(echo.k)
            && EndsWith(echo.data, s.pieces[echo.k].bytes)
            && exists m: nat :: WasTheFile(base, steps, id, m, echo.k, echo.data)
  {
    RunInv(base, steps);
    var s := Run(base, steps).value;
    var echo := s.threads[id].echoes[j];
    assert ThreadInv(s, id, s.threads[id]);
    LastPiece(s, echo.k);
    FileAfterWasTheFile(base, steps, id, echo.k);
  }

  /** A connection's later echoes strictly extend its earlier ones. */
  lemma EchoesGrow(base: seq<byte>, steps: seq<Step>, id: Id, i: nat, j: nat)
    requires Run(base, steps).Some? && id in Run(base, steps).value.threads
    requires i < j < |Run(base, steps).value.threads[id].echoes|
    ensures var echoes := Run(base, steps).value.threads[id].echoes; echoes[i].data < echoes[j].data
  {
    RunInv(base, steps);
    var s := Run(base, steps).value;
    var echoes := s.threads[id].echoes;
    assert ThreadInv(s, id, s.threads[id]);
    FileAfterGrows(s, echoes[i].k, echoes[j].k);
  }

  /** The shared file is a faithful merge, whatever failed: it is what was there at the start and
      then the pieces, each a whole packet or line or, after a short write, a proper part of one. */
  lemma FaithfulMerge(base: seq<byte>, steps: seq<Step>)
    requires Run(base, steps).Some?
    ensures var s := Run(base, steps).value;
            && s.base == base && s.file == base + Flatten(Bytes(s.pieces))
            && (forall i :: 0 <= i < |s.pieces| ==> IsPacket(s.pieces[i].full) && s.pieces[i].bytes <= s.pieces[i].full)
  {
    RunInv(base, steps);
    BaseStays(base, steps);
  }

  /** ... and its restriction to a connection is a prefix, in order, of the newline split of what
      the connection received. A short write is a part of the very next packet, and after it the
      connection writes nothing and is closed. */
  lemma {:induction false} MergePerConnection(base: seq<byte>, steps: seq<Step>, id: Id)
    requires Run(base, steps).Some? && id in Run(base, steps).value.threads
    ensures var s := Run(base, steps).value;
            var (mine, split, t) := (Mine(s.pieces, id), Split(s.threads[id].received).packets, s.threads[id]);
            && mine <= split
            && (forall i :: 0 <= i < |s.pieces| && s.pieces[i].owner == Client(id) && !s.pieces[i].Whole() ==>
                  && Failed(t) && |mine| < |split| && s.pieces[i].full == split[|mine|]
                  && forall j :: i < j < |s.pieces| ==> s.pieces[j].owner != Client(id))
  {
    RunInv(base, steps);
    var s := Run(base, steps).value;
    var t := s.threads[id];
    assert ThreadInv(s, id, t);
    var mine := Mine(s.pieces, id);
    SplitAfter(mine, t.conn.Held());
    forall i | 0 <= i < |s.pieces| && s.pieces[i].owner == Client(id) && !s.pieces[i].Whole()
      ensures |mine| < |Split(t.received).packets| && s.pieces[i].full == Split(t.received).packets[|mine|]
    {
      SplitStep(t.conn.main, t.conn.temp);
    }
  }

  /** Framing does not depend on the chunks, in any interleaving: whenever a connection waits for
      data, its packets in the file and its main buffer are the newline split of what it received. */
  lemma {:induction false} FramingPerConnection(base: seq<byte>, steps: seq<Step>, id: Id)
    requires Run(base, steps).Some? && id in Run(base, steps).value.threads
    requires var t := Run(base, steps).value.threads[id]; t.pc.Outside? && t.conn.state.WaitingForData?
    ensures var s := Run(base, steps).value;
            Split(s.threads[id].received) == Frames(Mine(s.pieces, id), s.threads[id].conn.main)
  {
    RunInv(base, steps);
    var s := Run(base, steps).value;
    var t := s.threads[id];
    assert ThreadInv(s, id, t);
    assert t.conn.Held() == t.conn.main;
    SplitUnique(Mine(s.pieces, id), t.conn.main, t.received);
  }

  /** The j-th echo answers the j-th packet: it ends with packet j of the newline split of what the
      connection received; and a connection that waits for data has had an echo for every packet. */
  lemma {:induction false} EchoPerPacket(base: seq<byte>, steps: seq<Step>, id: Id)
    requires Run(base, steps).Some? && id in Run(base, steps).value.threads
    ensures var t := Run(base, steps).value.threads[id];
            var split := Split(t.received).packets;
            && |t.echoes| <= |split|
            && (forall j :: 0 <= j < |t.echoes| ==> EndsWith(t.echoes[j].data, split[j]))
            && (t.pc.Outside? && t.conn.state.WaitingForData? ==> |t.echoes| == |split|)
  {
    RunEchoesMatch(base, steps);
    MergePerConnection(base, steps, id);
    var s := Run(base, steps).value;
    var t := s.threads[id];
    assert EchoesMatch(s.pieces, id, t);
    EchoesAreFewer(s.pieces, id, t);
    forall j | 0 <= j < |t.echoes|
      ensures EndsWith(t.echoes[j].data, Split(t.received).packets[j])
    {
      AtomicEcho(base, steps, id, j);
      assert IsPacketAt(s.pieces, id, t.echoes[j].k, j);
    }
    if t.pc.Outside? && t.conn.state.WaitingForData? {
      FramingPerConnection(base, steps, id);
    }
  }

  lemma EchoesAreFewer(pieces: seq<Piece>, id: Id, t: Thread)
    requires EchoesMatch(pieces, id, t)
    ensures |t.echoes| <= |Mine(pieces, id)|
  {
    if t.echoes != [] {
      assert IsPacketAt(pieces, id, t.echoes[|t.echoes| - 1].k, |t.echoes| - 1);
    }
  }

  /** Byte conservation, and the receive buffer's size: packets written, then the main buffer, then
      the temp buffer are exactly what was received, and the capacity is a multiple of the growth
      step that stays below the largest main buffer seen at a receive by less than two steps. */
  lemma {:induction false} BytesAreConserved(base: seq<byte>, steps: seq<Step>, id: Id)
    requires Run(base, steps).Some? && id in Run(base, steps).value.threads
    ensures var s := Run(base, steps).value;
            var t := s.threads[id];
            && Flatten(Mine(s.pieces, id)) + t.conn.main + t.conn.temp == t.received
            && t.conn.capacity < t.largest + 2 * RECV_BUFFER_GROW_SIZE && t.conn.capacity % RECV_BUFFER_GROW_SIZE == 0
            && (t.pc.Outside? && !t.conn.state.ClosedConnection? ==> t.conn.Good())
  {
    RunInv(base, steps);
    var s := Run(base, steps).value;
    var t := s.threads[id];
    assert ThreadInv(s, id, t);
    Assoc(Flatten(Mine(s.pieces, id)), t.conn.main, t.conn.temp);
  }
}
