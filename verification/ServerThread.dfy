/** One connection thread with the file to itself: sending_data and main_loop_thread. */
module ServerThread {
  import opened Prelude
  import opened Framing
  import opened Connection
  import opened DataFile

  /** What the i-th successful echo sends. */
  function Echoes(file: File, packets: seq<seq<byte>>): (echoes: seq<seq<byte>>)
    ensures |echoes| == |packets|
  {
    seq(|packets|, i requires 0 <= i < |packets| => file.AppendedAll(packets[..i + 1]).Whole())
  }

  /** write_to_file */
  method WriteToFile(os: Os, data: seq<byte>) returns (rc: int)
    requires os.Valid() && os.isOpen && data != []
    modifies os.Footprint() - {os}, os`content, os`offset, os`failures
    ensures os.Valid()
    ensures rc == |data| ==> os.Value() == old(os.Value()).Appended(data) && os.failures == old(os.failures)
    ensures rc != |data| ==> rc == -1 && os.failures > old(os.failures) && LeftBy(old(os.Value()), os.Value(), data)
  {
    var bytesWritten := os.Write(data);
    if bytesWritten == -1 {
      return -1;
    }
    if bytesWritten != |data| {
      return -1;
    }
    return bytesWritten;
  }

  lemma SentMore(base: seq<byte>, text: seq<byte>, done: nat, chunk: seq<byte>)
    requires chunk <= From(text, done)
    ensures done <= |text| ==> base + text[..done] + chunk == base + text[..done + |chunk|]
  {
    if done <= |text| {
      assert text[..done + |chunk|] == text[..done] + chunk;
    }
  }

  /** The inner loop of sending_data: partial sends until the buffer is through. `k` counts the
      bytes that went out. */
  method SendAll(os: Os, buffer: seq<byte>) returns (rc: int, ghost k: nat)
    modifies os`sent, os`failures
    ensures k <= |buffer| && os.sent == old(os.sent) + buffer[..k]
    ensures if rc == 0 then k == |buffer| && os.failures == old(os.failures)
            else rc == -1 && os.failures > old(os.failures)
  {
    var totalBytesSent := 0;
    while totalBytesSent < |buffer|
      invariant totalBytesSent <= |buffer| && os.sent == old(os.sent) + buffer[..totalBytesSent]
      invariant os.failures == old(os.failures)
    {
      var sentBytes := os.Send(buffer[totalBytesSent..]);
      if sentBytes == -1 {
        return -1, totalBytesSent;
      }
      SentMore(old(os.sent), buffer, totalBytesSent, buffer[totalBytesSent..][..sentBytes]);
      totalBytesSent := totalBytesSent + sentBytes;
    }
    return 0, totalBytesSent;
  }

  /** One pass of the echo loop: a read of up to one byte less than the send buffer, sent in full.
      `n` counts the bytes that went out; nothing more to read gives an empty buffer. */
  method EchoChunk(os: Os, ghost whole: seq<byte>) returns (rc: int, buffer: seq<byte>, ghost n: nat)
    requires os.Valid() && os.isOpen && whole == os.Value().Whole()
    modifies os`offset, os`sent, os`failures, if os.device == null then {} else {os.device}`locked
    ensures os.Valid() && os.Value() == old(os.Value())
    ensures n <= |buffer| && buffer <= From(whole, old(os.offset)) && os.sent == old(os.sent) + buffer[..n]
    ensures if rc == 0 then n == |buffer| && os.offset == old(os.offset) + n && os.failures == old(os.failures)
            else rc == -1 && os.failures > old(os.failures)
    ensures rc == 0 && buffer == [] ==> old(os.offset) >= |whole|
  {
    var bytesRead;
    bytesRead, buffer := os.Read(SEND_BUFFER_SIZE - 1);
    if bytesRead == -1 {
      return -1, [], 0;
    }
    rc, n := SendAll(os, buffer);
  }

  /** The echo loop of sending_data, to the end of the file. `k` counts the bytes that went out. */
  method Echo(os: Os, ghost whole: seq<byte>) returns (rc: int, ghost k: nat)
    requires os.Valid() && os.isOpen && os.offset == 0 && whole == os.Value().Whole()
    modifies os`offset, os`sent, os`failures, if os.device == null then {} else {os.device}`locked
    ensures os.Valid() && os.Value() == old(os.Value())
    ensures k <= |whole| && os.sent == old(os.sent) + whole[..k]
    ensures if rc == 0 then k == |whole| && os.failures == old(os.failures)
            else rc == -1 && os.failures > old(os.failures)
  {
    rc, k := 0, 0;
    while rc == 0
      invariant os.Valid() && os.Value() == old(os.Value())
      invariant k <= |whole| && os.sent == old(os.sent) + whole[..k]
      invariant if rc == 0 then os.offset == k && os.failures == old(os.failures)
                else rc == -1 && os.failures > old(os.failures)
      decreases rc, |whole| - k
    {
      ghost var n;
      var buffer;
      rc, buffer, n := EchoChunk(os, whole);
      SentMore(old(os.sent), whole, k, buffer[..n]);
      k := k + n;
      if rc == 0 && buffer == [] {
        break;
      }
    }
  }

  /** How a failed sending_data may leave the file: untouched, with the whole packet, or, for a
      regular file, with a proper prefix of it. */
  ghost predicate LeftBy(before: File, after: File, packet: seq<byte>) {
    || after == before
    || after == before.Appended(packet)
    || (before.Regular? && exists n :: 0 <= n < |packet| && after == before.Appended(packet[..n]))
  }

  /** Part of this, or all or nothing of it, has gone out. */
  ghost predicate SentPart(before: seq<byte>, after: seq<byte>, whole: seq<byte>) {
    exists k :: 0 <= k <= |whole| && after == before + whole[..k]
  }

  lemma NothingSent(sent: seq<byte>, whole: seq<byte>)
    ensures SentPart(sent, sent, whole)
  {
    assert sent == sent + whole[..0];
  }

  /** The thread's own buffers are not the system's. */
  ghost predicate Apart(system: set<object>, tb: ThreadBuffers)
    reads tb.main, tb.temp
  {
    system !! {tb, tb.main, tb.temp, tb.main.buffer, tb.temp.buffer}
  }

  /** Lines 566-585 of sending_data: under the mutex, one write of the whole packet. */
  method AppendPacket(os: Os, packet: seq<byte>) returns (rc: int)
    requires os.Valid() && !os.isOpen && !os.mutexHeld && packet != []
    modifies os.Footprint()
    ensures os.Valid() && os.sent == old(os.sent)
    ensures os.isOpen == os.mutexHeld == (rc == 0)
    ensures if rc == 0 then os.failures == old(os.failures) else rc == -1 && os.failures > old(os.failures)
    ensures rc == 0 ==> os.Value() == old(os.Value()).Appended(packet)
    ensures rc == -1 ==> LeftBy(old(os.Value()), os.Value(), packet)
  {
    os.GetFileMutex();
    rc := os.Open();
    if rc == 0 {
      var written := WriteToFile(os, packet);
      if written == -1 {
        rc := -1;
        var _ := os.Close();
      }
    }
    if rc == -1 {
      os.ReleaseFileMutex();
    }
  }

  /** Lines 591-636 of sending_data: from the start of the file to its end, and out. */
  method EchoAndClose(os: Os) returns (rc: int)
    requires os.Valid() && os.isOpen && os.mutexHeld
    modifies os`isOpen, os`offset, os`sent, os`failures, os`mutexHeld
    modifies if os.device == null then {} else {os.device}`locked
    ensures os.Valid() && !os.isOpen && !os.mutexHeld && os.Value() == old(os.Value())
    ensures if rc == 0 then os.failures == old(os.failures) else rc == -1 && os.failures > old(os.failures)
    ensures rc == 0 ==> os.sent == old(os.sent) + os.Value().Whole()
    ensures SentPart(old(os.sent), os.sent, os.Value().Whole())
  {
    os.SeekToStart();
    ghost var k;
    rc, k := Echo(os, os.Value().Whole());
    var closeRc := os.Close();
    if closeRc == -1 {
      rc := -1;
    }
    os.ReleaseFileMutex();
  }

  /** Lines 566-636 of sending_data; the receive buffer is reset once its packet is in the file. */
  method WriteAndEcho(os: Os, main: BufferData) returns (rc: int)
    requires os.Valid() && !os.isOpen && !os.mutexHeld && main !in os.Footprint() && main.Bytes() != []
    modifies os.Footprint(), main`size
    ensures os.Valid() && !os.isOpen && !os.mutexHeld && main.size <= old(main.size)
    ensures if rc == 0 then os.failures == old(os.failures) else rc == -1 && os.failures > old(os.failures)
    ensures rc == 0 ==> os.Value() == old(os.Value()).Appended(old(main.Bytes())) && main.size == 0
    ensures rc == 0 ==> os.sent == old(os.sent) + os.Value().Whole()
    ensures rc == -1 ==> LeftBy(old(os.Value()), os.Value(), old(main.Bytes()))
    ensures SentPart(old(os.sent), os.sent, os.Value().Whole())
  {
    rc := AppendPacket(os, main.Bytes());
    NothingSent(os.sent, os.Value().Whole());
    if rc == 0 {
      main.size := 0;
      rc := EchoAndClose(os);
    }
  }

  /** sending_data: every exit closes the file and gives the mutex back, and only a run without any
      failure counts as a success. */
  method SendingData(os: Os, tb: ThreadBuffers) returns (rc: int)
    requires tb.Valid() && tb.Value().Good() && tb.state.SendingData?
    requires os.Valid() && !os.isOpen && !os.mutexHeld && Apart(os.Footprint(), tb)
    modifies os.Footprint(), tb`state, tb.main`size
    ensures os.Valid() && !os.isOpen && !os.mutexHeld && tb.Valid()
    ensures if rc == 0 then os.failures == old(os.failures) else rc == -1 && os.failures > old(os.failures)
    ensures rc == 0 ==> os.Value() == old(os.Value()).Appended(old(tb.Value()).main)
    ensures rc == 0 ==> os.sent == old(os.sent) + os.Value().Whole()
    ensures rc == 0 ==> tb.Value() == old(tb.Value()).Replied()
    ensures rc == -1 ==> LeftBy(old(os.Value()), os.Value(), old(tb.Value()).main)
    ensures SentPart(old(os.sent), os.sent, os.Value().Whole())
  {
    rc := WriteAndEcho(os, tb.main);
    if rc == 0 {
      tb.state := if tb.temp.size > 0 then ThreadState.ProcessingData else ThreadState.WaitingForData;
    }
  }

  /** write_time_stamp, with the formatted line given. */
  method WriteTimeStamp(os: Os, line: seq<byte>) returns (rc: int)
    requires os.Valid() && !os.isOpen && !os.mutexHeld && line != []
    modifies os.Footprint()
    ensures os.Valid() && !os.isOpen && !os.mutexHeld && os.sent == old(os.sent)
    ensures if rc == 0 then os.failures == old(os.failures) else rc == -1 && os.failures > old(os.failures)
    ensures rc == 0 ==> os.Value() == old(os.Value()).Appended(line)
    ensures rc == -1 ==> LeftBy(old(os.Value()), os.Value(), line)
  {
    rc := AppendPacket(os, line);
    if rc == 0 {
      rc := os.Close();
      os.ReleaseFileMutex();
    }
  }

  /** The bytes a script of recv answers delivers: everything before the first close or error. */
  function Stream(incoming: seq<Recv>): seq<byte> {
    if incoming == [] || !incoming[0].Data? then [] else incoming[0].bytes + Stream(incoming[1..])
  }

  /** What the thread has done so far: the bytes taken from recv, the packets written and echoed in
      full, and the bytes received after them. */
  datatype Log = Log(received: seq<byte>, packets: seq<seq<byte>>, rest: seq<byte>) {

    ghost predicate Accounts() {
      AllPackets(packets) && Flatten(packets) + rest == received
    }

    function Received(bytes: seq<byte>): Log {
      Log(received + bytes, packets, rest + bytes)
    }

    function Replied(packet: seq<byte>, rest': seq<byte>): Log {
      Log(received, packets + [packet], rest')
    }
  }

  lemma LogReceives(log: Log, bytes: seq<byte>)
    requires log.Accounts()
    ensures log.Received(bytes).Accounts()
  {
    Assoc(Flatten(log.packets), log.rest, bytes);
  }

  lemma LogReplies(log: Log, packet: seq<byte>, rest': seq<byte>)
    requires log.Accounts() && IsPacket(packet) && log.rest == packet + rest'
    ensures log.Replied(packet, rest').Accounts()
  {
    FlattenSnoc(log.packets, packet);
    Assoc(Flatten(log.packets), packet, rest');
  }

  lemma EchoesSnoc(file: File, packets: seq<seq<byte>>, packet: seq<byte>)
    ensures file.AppendedAll(packets + [packet]) == file.AppendedAll(packets).Appended(packet)
    ensures Flatten(Echoes(file, packets + [packet]))
         == Flatten(Echoes(file, packets)) + file.AppendedAll(packets + [packet]).Whole()
  {
    var all, whole := packets + [packet], file.AppendedAll(packets + [packet]).Whole();
    assert all[..|packets|] == packets;
    forall i | 0 <= i < |packets|
      ensures Echoes(file, all)[i] == Echoes(file, packets)[i]
    {
      assert all[..i + 1] == packets[..i + 1];
    }
    assert all[..|all|] == all;
    assert Echoes(file, all) == Echoes(file, packets) + [whole];
    FlattenSnoc(Echoes(file, packets), whole);
  }

  function Rank(state: ThreadState): nat {
    match state
    case SendingData => 2
    case ProcessingData => 1
    case WaitingForData => 1
    case ClosedConnection => 0
  }

  lemma StreamStep(received: seq<byte>, incoming: seq<Recv>, next: nat)
    requires next < |incoming| && incoming[next].Data?
    ensures received + incoming[next].bytes + Stream(incoming[next + 1..]) == received + Stream(incoming[next..])
  {
    assert incoming[next..][1..] == incoming[next + 1..];
    Assoc(received, incoming[next].bytes, Stream(incoming[next + 1..]));
  }

  /** Where the thread loop stands: its buffers, its place in the script of recv answers, its log, the
      file, and all that was sent. */
  datatype Progress = Progress(conn: Conn, next: nat, log: Log, file: File, sent: seq<byte>) {

    /** After a packet was handed over and the whole file echoed. */
    function Replied(): Progress {
      var file' := file.Appended(conn.main);
      Progress(conn.Replied(), next, log.Replied(conn.main, conn.temp), file', sent + file'.Whole())
    }
  }

  /** What recv and realloc will answer, and how things stood before the thread began. */
  datatype Script = Script(incoming: seq<Recv>, reallocOk: nat -> bool, file: File, base: seq<byte>) {
    ghost predicate Possible() {
      forall r :: r in incoming ==> r.Possible()
    }
  }

  /** What recv answers next: what the script says, and then the end of the stream. */
  function Answer(incoming: seq<Recv>, next: nat): Recv {
    if next < |incoming| then incoming[next] else PeerClosed
  }

  /** What one pass of the loop without a failed system call makes of that. */
  function OnePass(p: Progress, incoming: seq<Recv>, reallocOk: bool): Progress {
    match p.conn.state
    case WaitingForData =>
      var answer := Answer(incoming, p.next);
      var p' := p.(conn := p.conn.Received(answer, reallocOk));
      if answer.Data? then p'.(next := p.next + 1, log := p.log.Received(answer.bytes)) else p'
    case ProcessingData => p.(conn := p.conn.Processed())
    case SendingData => p.Replied()
    case ClosedConnection => p
  }

  /** Where the loop stands after so many passes without a failed system call. */
  function After(passes: nat, s: Script): Progress {
    if passes == 0 then Begin(s)
    else
      var p := After(passes - 1, s);
      OnePass(p, s.incoming, s.reallocOk(p.next))
  }

  /** The file holds every packet replied to, and each was answered with the file as it then was. */
  ghost predicate Echoed(p: Progress, s: Script) {
    && p.file == s.file.AppendedAll(p.log.packets)
    && p.sent == s.base + Flatten(Echoes(s.file, p.log.packets))
  }

  lemma EchoedReplied(p: Progress, s: Script)
    requires Echoed(p, s)
    ensures Echoed(p.Replied(), s)
  {
    EchoesSnoc(s.file, p.log.packets, p.conn.main);
    Assoc(s.base, Flatten(Echoes(s.file, p.log.packets)), p.Replied().file.Whole());
  }

  lemma {:induction false} AfterEchoed(passes: nat, s: Script)
    ensures Echoed(After(passes, s), s)
  {
    if passes == 0 {
      assert s.base + [] == s.base;
    } else {
      AfterEchoed(passes - 1, s);
      if After(passes - 1, s).conn.state.SendingData? {
        EchoedReplied(After(passes - 1, s), s);
      }
    }
  }

  /** The log accounts for every byte, the buffers hold its rest in the order their state asks for, and
      the connection closes by itself only when the stream is over or a realloc fails. */
  ghost predicate Fine(p: Progress, s: Script) {
    && p.log.Accounts() && p.next <= |s.incoming|
    && (p.conn.state.ClosedConnection? || (p.conn.Good() && p.conn.Held() == p.log.rest))
    && p.log.received + Stream(s.incoming[p.next..]) == Stream(s.incoming)
    && (p.conn.state.ClosedConnection? && (forall i :: s.reallocOk(i)) ==>
          NoNewline(p.log.rest) && Stream(s.incoming[p.next..]) == [])
  }

  lemma WaitingFine(p: Progress, s: Script)
    requires Fine(p, s) && p.conn.state.WaitingForData? && s.Possible()
    ensures Fine(OnePass(p, s.incoming, s.reallocOk(p.next)), s)
  {
    var answer := Answer(s.incoming, p.next);
    ReceivedKeeps(p.conn, answer, s.reallocOk(p.next));
    if answer.Data? {
      LogReceives(p.log, answer.bytes);
      StreamStep(p.log.received, s.incoming, p.next);
    } else {
      assert p.conn.Held() == p.conn.main;
    }
  }

  lemma SendingFine(p: Progress, s: Script)
    requires Fine(p, s) && p.conn.state.SendingData?
    ensures Fine(p.Replied(), s)
  {
    RepliedKeeps(p.conn);
    LogReplies(p.log, p.conn.main, p.conn.temp);
  }

  /** So it is after any number of passes. */
  lemma {:induction false} AfterFine(passes: nat, s: Script)
    requires s.Possible()
    ensures Fine(After(passes, s), s)
  {
    if passes == 0 {
      assert s.incoming[0..] == s.incoming && [] + Stream(s.incoming) == Stream(s.incoming);
    } else {
      var p := After(passes - 1, s);
      AfterFine(passes - 1, s);
      match p.conn.state
      case WaitingForData => WaitingFine(p, s);
      case ProcessingData => ProcessedKeeps(p.conn);
      case SendingData => SendingFine(p, s);
      case ClosedConnection =>
    }
  }

  /** Every pass on an open connection takes an answer of recv, or leaves fewer new bytes, or goes on to a
      state of lower rank. */
  ghost predicate Advances(p: Progress, p': Progress) {
    || p'.next > p.next
    || (p'.next == p.next && |p'.conn.temp| < |p.conn.temp|)
    || (p'.next == p.next && |p'.conn.temp| == |p.conn.temp| && Rank(p'.conn.state) < Rank(p.conn.state))
  }

  lemma OnePassAdvances(p: Progress, incoming: seq<Recv>, reallocOk: bool)
    requires p.conn.Good() && forall r :: r in incoming ==> r.Possible()
    ensures Advances(p, OnePass(p, incoming, reallocOk))
  {
    if p.conn.state.ProcessingData? {
      ProcessedKeeps(p.conn);
    }
  }

  /** Nothing is open or locked, and file and client are as this progress says. */
  ghost predicate FileFits(os: Os, p: Progress)
    reads os.Footprint()
  {
    os.Rests(p.file) && os.sent == p.sent
  }

  /** The sending_data of the pass that began at `p` has failed, with its packet in the file in one of the
      three ways, and no more than a part of its echo sent. */
  ghost predicate FailedAt(os: Os, p: Progress)
    reads os.Footprint()
  {
    && p.conn.state.SendingData?
    && exists now :: os.Rests(now) && LeftBy(p.file, now, p.conn.main) && SentPart(p.sent, os.sent, now.Whole())
  }

  /** The thread's buffers are these, and in order unless the connection is closed. */
  ghost predicate Holds(tb: ThreadBuffers, conn: Conn)
    reads tb, tb.main, tb.temp, tb.main.buffer, tb.temp.buffer
  {
    tb.Value() == conn && (conn.state.ClosedConnection? || (tb.Valid() && conn.Good()))
  }

  /** A pass in WaitingForData or ProcessingData; an error of recv or realloc closes the connection. */
  method ReceivingPass(tb: ThreadBuffers, incoming: seq<Recv>, next: nat, reallocOk: bool, ghost p: Progress)
    returns (next': nat)
    requires Holds(tb, p.conn) && p.next == next && forall r :: r in incoming ==> r.Possible()
    requires tb.state.WaitingForData? || tb.state.ProcessingData?
    modifies tb`state, tb.main, tb.main.buffer, tb.temp`size, tb.temp.buffer
    ensures tb.temp.buffer == old(tb.temp.buffer) && (tb.main.buffer == old(tb.main.buffer) || fresh(tb.main.buffer))
    ensures next' == OnePass(p, incoming, reallocOk).next && Holds(tb, OnePass(p, incoming, reallocOk).conn)
  {
    next' := next;
    if tb.state.WaitingForData? {
      var answer := if next < |incoming| then incoming[next] else PeerClosed;
      ReceivedKeeps(p.conn, answer, reallocOk);
      var rc := tb.WaitingForData(answer, reallocOk);
      if rc == -1 {
        tb.state := ThreadState.ClosedConnection;
      }
      if answer.Data? {
        next' := next + 1;
      }
    } else {
      ProcessedKeeps(p.conn);
      var rc := tb.ProcessReceivedData();
    }
  }

  /** A pass in SendingData: a failed sending_data closes the connection. */
  method SendingPass(os: Os, tb: ThreadBuffers, ghost p: Progress)
    requires Holds(tb, p.conn) && FileFits(os, p) && tb.state.SendingData? && Apart(os.Footprint(), tb)
    modifies os.Footprint(), tb`state, tb.main`size
    ensures if os.failures == old(os.failures) then Holds(tb, p.conn.Replied()) && FileFits(os, p.Replied())
            else os.failures > old(os.failures) && tb.state.ClosedConnection? && FailedAt(os, p)
  {
    RepliedKeeps(p.conn);
    var rc := SendingData(os, tb);
    assert os.Rests(os.Value());
    if rc == -1 {
      tb.state := ThreadState.ClosedConnection;
    }
  }

  /** One pass of the thread loop on an open connection. */
  method Pass(os: Os, tb: ThreadBuffers, incoming: seq<Recv>, next: nat, reallocOk: bool, ghost p: Progress)
    returns (next': nat)
    requires Holds(tb, p.conn) && FileFits(os, p) && p.next == next && forall r :: r in incoming ==> r.Possible()
    requires Apart(os.Footprint(), tb) && !tb.state.ClosedConnection?
    modifies os.Footprint(), tb`state, tb.main, tb.main.buffer, tb.temp`size, tb.temp.buffer
    ensures tb.temp.buffer == old(tb.temp.buffer) && (tb.main.buffer == old(tb.main.buffer) || fresh(tb.main.buffer))
    ensures Apart(os.Footprint(), tb)
    ensures if os.failures == old(os.failures)
            then && Holds(tb, OnePass(p, incoming, reallocOk).conn) && FileFits(os, OnePass(p, incoming, reallocOk))
                 && next' == OnePass(p, incoming, reallocOk).next
            else os.failures > old(os.failures) && tb.state.ClosedConnection? && next' == next && FailedAt(os, p)
  {
    if tb.state.SendingData? {
      next' := next;
      SendingPass(os, tb, p);
    } else {
      next' := ReceivingPass(tb, incoming, next, reallocOk, p);
    }
  }

  /** Without a failed system call the thread stands at `p`; otherwise it is closed, by the failed
      sending_data of the pass that began at `p`. */
  ghost predicate Stands(os: Os, tb: ThreadBuffers, failures: nat, p: Progress, next: nat)
    reads os, tb, tb.main, tb.temp, tb.main.buffer, tb.temp.buffer, os.Footprint()
  {
    if os.failures == failures then Holds(tb, p.conn) && FileFits(os, p) && p.next == next
    else os.failures > failures && tb.state.ClosedConnection? && FailedAt(os, p)
  }

  ghost predicate Follows(p: Progress, p': Progress, s: Script) {
    p' == OnePass(p, s.incoming, s.reallocOk(p.next))
  }

  /** So many passes lead to `p`. */
  ghost predicate Reached(p: Progress, passes: nat, s: Script) {
    forall n: nat :: n == passes ==> After(n, s) == p
  }

  lemma ReachedNext(p: Progress, p': Progress, passes: nat, s: Script)
    requires Reached(p, passes, s) && Follows(p, p', s)
    ensures Reached(p', passes + 1, s)
  {
    assert After(passes + 1, s) == p';
  }

  lemma ClosedFollows(p: Progress, s: Script)
    requires p.conn.state.ClosedConnection?
    ensures Follows(p, p, s)
  {
  }

  /** Nothing moves any more once the connection is closed. */
  lemma {:induction false} ReachedForGood(p: Progress, passes: nat, later: nat, s: Script)
    requires Reached(p, passes, s) && passes <= later && p.conn.state.ClosedConnection?
    ensures Reached(p, later, s)
  {
    if passes < later {
      ReachedForGood(p, passes, later - 1, s);
      ClosedFollows(p, s);
      ReachedNext(p, p, later - 1, s);
    }
  }

  /** How many passes a progress is at most away from its next receive. */
  function Left(p: Progress): nat {
    3 * |p.conn.temp| + Rank(p.conn.state)
  }

  /** One pass of the thread loop, and how it brings the loop nearer to its end. */
  method Round(os: Os, tb: ThreadBuffers, incoming: seq<Recv>, next: nat, reallocOk: bool,
               ghost s: Script, ghost failures: nat, ghost p: Progress, ghost left: nat)
    returns (open: bool, next': nat, ghost p': Progress, ghost left': nat)
    requires Stands(os, tb, failures, p, next) && next <= |incoming| && s.Possible()
    requires os.failures == failures ==> left == Left(p)
    requires incoming == s.incoming && reallocOk == s.reallocOk(next) && Apart(os.Footprint(), tb)
    modifies os.Footprint(), tb`state, tb.main, tb.main.buffer, tb.temp`size, tb.temp.buffer
    ensures tb.temp.buffer == old(tb.temp.buffer) && (tb.main.buffer == old(tb.main.buffer) || fresh(tb.main.buffer))
    ensures Stands(os, tb, failures, p', next') && next <= next' <= |incoming| && Apart(os.Footprint(), tb)
    ensures os.failures >= old(os.failures) >= failures
    ensures if os.failures == failures then Follows(p, p', s) && left' == Left(p') else p' == p
    ensures if open then next' > next || left' < left else tb.state.ClosedConnection?
  {
    open, next', p', left' := !tb.state.ClosedConnection?, next, p, left;
    if open {
      OnePassAdvances(p, incoming, reallocOk);
      next' := Pass(os, tb, incoming, next, reallocOk, p);
      if os.failures == failures {
        p' := OnePass(p, incoming, reallocOk);
        left' := Left(p');
      } else {
        left' := 0;
      }
    }
  }

  /** main_loop_thread with the file to itself. `incoming` scripts what recv answers (and end of
      stream after that), `reallocOk` each receive's realloc, and `signalAt` the pass at which the
      caught signal is first seen, if ever. The loop ends for every script: without a failed system
      call right after the pass in which the signal is first seen, or when the connection closes, and
      otherwise with the pass that failed. */
  method MainLoopThread(os: Os, incoming: seq<Recv>, reallocOk: nat -> bool, signalAt: Option<nat>)
    returns (ghost log: Log)
    requires os.Valid() && !os.isOpen && !os.mutexHeld && forall r :: r in incoming ==> r.Possible()
    modifies os.Footprint()
    ensures log.Accounts() && log.received <= Stream(incoming) && os.failures >= old(os.failures)
    ensures os.failures == old(os.failures) ==>
              && os.Rests(old(os.Value()).AppendedAll(log.packets))
              && os.sent == old(os.sent) + Flatten(Echoes(old(os.Value()), log.packets))
              && Leaves(Script(incoming, reallocOk, old(os.Value()), old(os.sent)), signalAt, log)
    ensures os.failures > old(os.failures) ==>
              FailsIn(os, Script(incoming, reallocOk, old(os.Value()), old(os.sent)), signalAt, log)
    ensures os.failures == old(os.failures) && signalAt == None && (forall i :: reallocOk(i)) ==>
              Split(Stream(incoming)) == Frames(log.packets, log.rest)
  {
    var tb := new ThreadBuffers();
    ghost var s := Script(incoming, reallocOk, os.Value(), os.sent);
    ghost var failures := os.failures;
    ghost var p, passes := Loop(os, tb, incoming, reallocOk, signalAt, s, failures);
    log := Conclude(os, tb, s, failures, p, passes, signalAt);
  }

  /** The loop of main_loop_thread; `passes` counts those without a failed system call. */
  method Loop(os: Os, tb: ThreadBuffers, incoming: seq<Recv>, reallocOk: nat -> bool, signalAt: Option<nat>,
              ghost s: Script, ghost failures: nat)
    returns (ghost p: Progress, ghost passes: nat)
    requires tb.Valid() && tb.Value() == Connection.START && os.Rests(s.file) && os.sent == s.base
    requires os.failures == failures && s.Possible()
    requires incoming == s.incoming && reallocOk == s.reallocOk && Apart(os.Footprint(), tb)
    modifies os.Footprint(), tb`state, tb.main, tb.main.buffer, tb.temp`size, tb.temp.buffer
    ensures Reached(p, passes, s) && Ends(os, tb, failures, p)
    ensures signalAt.Some? ==> passes <= signalAt.value + (if os.failures == failures then 1 else 0)
    ensures tb.state.ClosedConnection? || (signalAt.Some? && passes == signalAt.value + 1)
  {
    var next: nat, pass: nat, keepLooping := 0, 0, true;
    p, passes := Begin(s), 0;
    ghost var left := Left(p);
    while keepLooping
      invariant Apart(os.Footprint(), tb) && tb.temp.buffer == old(tb.temp.buffer)
      invariant tb.main.buffer == old(tb.main.buffer) || fresh(tb.main.buffer)
      invariant Stands(os, tb, failures, p, next) && next <= |incoming| && (os.failures == failures ==> left == Left(p))
      invariant Reached(p, passes, s)
      invariant if os.failures == failures then passes == pass else passes < pass
      invariant signalAt.Some? ==> pass <= signalAt.value + 1 && (keepLooping ==> pass <= signalAt.value)
      invariant !keepLooping ==> tb.state.ClosedConnection? || (signalAt.Some? && pass == signalAt.value + 1)
      decreases keepLooping, |incoming| - next, left
    {
      if signalAt.Some? && pass >= signalAt.value {
        keepLooping := false;
      }
      var open;
      ghost var before := p;
      open, next, p, left := Round(os, tb, incoming, next, reallocOk(next), s, failures, p, left);
      if os.failures == failures {
        ReachedNext(before, p, passes, s);
        passes := passes + 1;
      }
      if !open {
        keepLooping := false;
      }
      pass := pass + 1;
    }
  }

  /** How the loop is left: everything in order, or after a failure. */
  ghost predicate Ends(os: Os, tb: ThreadBuffers, failures: nat, p: Progress)
    reads os, tb, os.Footprint()
  {
    if os.failures == failures then FileFits(os, p) && p.conn.state == tb.state
    else os.failures > failures && tb.state.ClosedConnection? && FailedAt(os, p)
  }

  function Begin(s: Script): Progress {
    Progress(Connection.START, 0, Log([], [], []), s.file, s.base)
  }

  /** The passes of a run without a failed system call: up to and including the one in which the signal
      is first seen, or until the connection is closed. */
  ghost predicate Leaves(s: Script, signalAt: Option<nat>, log: Log) {
    exists n: nat ::
      && After(n, s).log == log
      && (if signalAt.Some? then n == signalAt.value + 1 else After(n, s).conn.state.ClosedConnection?)
  }

  lemma LeavesAfter(p: Progress, passes: nat, s: Script, signalAt: Option<nat>)
    requires Reached(p, passes, s) && (signalAt.Some? ==> passes <= signalAt.value + 1)
    requires p.conn.state.ClosedConnection? || (signalAt.Some? && passes == signalAt.value + 1)
    ensures Leaves(s, signalAt, p.log)
  {
    var n := if signalAt.Some? then signalAt.value + 1 else passes;
    if p.conn.state.ClosedConnection? {
      ReachedForGood(p, passes, n, s);
    }
    assert After(n, s) == p;
  }

  /** ... and of a run with one: up to the pass that failed, which the signal does not precede. */
  ghost predicate FailsIn(os: Os, s: Script, signalAt: Option<nat>, log: Log)
    reads os.Footprint()
  {
    exists n: nat :: After(n, s).log == log && FailedAt(os, After(n, s)) && (signalAt.Some? ==> n <= signalAt.value)
  }

  /** What an open or closed end of the script says about the packets. */
  lemma AfterSplits(passes: nat, s: Script)
    requires s.Possible()
    ensures var p := After(passes, s);
            && p.log.Accounts() && p.log.received <= Stream(s.incoming)
            && (p.conn.state.ClosedConnection? && (forall i :: s.reallocOk(i)) ==>
                  Split(Stream(s.incoming)) == Frames(p.log.packets, p.log.rest))
  {
    var p := After(passes, s);
    AfterFine(passes, s);
    if p.conn.state.ClosedConnection? && (forall i :: s.reallocOk(i)) {
      assert p.log.received + [] == p.log.received;
      SplitUnique(p.log.packets, p.log.rest, Stream(s.incoming));
    }
  }

  /** What that says. */
  lemma Conclude(os: Os, tb: ThreadBuffers, s: Script, failures: nat, p: Progress, passes: nat, signalAt: Option<nat>)
    returns (log: Log)
    requires Reached(p, passes, s) && Ends(os, tb, failures, p) && s.Possible()
    requires signalAt.Some? ==> passes <= signalAt.value + (if os.failures == failures then 1 else 0)
    requires tb.state.ClosedConnection? || (signalAt.Some? && passes == signalAt.value + 1)
    ensures log.Accounts() && log.received <= Stream(s.incoming) && os.failures >= failures
    ensures os.failures == failures ==>
              && os.Rests(s.file.AppendedAll(log.packets)) && os.sent == s.base + Flatten(Echoes(s.file, log.packets))
              && Leaves(s, signalAt, log)
    ensures os.failures == failures && signalAt == None && (forall i :: s.reallocOk(i)) ==>
              Split(Stream(s.incoming)) == Frames(log.packets, log.rest)
    ensures os.failures > failures ==> FailsIn(os, s, signalAt, log)
  {
    assert After(passes, s) == p;
    log := p.log;
    AfterSplits(passes, s);
    AfterEchoed(passes, s);
    if os.failures == failures {
      LeavesAfter(p, passes, s, signalAt);
    }
  }
}
