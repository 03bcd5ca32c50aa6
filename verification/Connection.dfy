/** The receiving half of a connection thread: waiting_for_data and process_received_data. `Conn` is
    the thread's buffers as a value and `ThreadBuffers` the buffers updated in place. */
module Connection {
  import opened Prelude
  import opened Framing

  const RECV_BUFFER_GROW_SIZE: nat := 1024
  const RECV_BUFFER_TEMP_SIZE: nat := 1024
  const SEND_BUFFER_SIZE: nat := 1024

  datatype ThreadState = SendingData | WaitingForData | ProcessingData | ClosedConnection

  /** What recv answers: an error, end of stream, or between one byte and a full temp buffer. */
  datatype Recv = RecvError | PeerClosed | Data(bytes: seq<byte>) {
    predicate Possible() {
      Data? ==> 1 <= |bytes| <= RECV_BUFFER_TEMP_SIZE
    }
  }

  datatype Conn = Conn(state: ThreadState, main: seq<byte>, temp: seq<byte>, capacity: nat) {

    /** The bytes received and not yet handed over as a packet. */
    function Held(): seq<byte> {
      main + temp
    }

    function Closed(): Conn {
      this.(state := ClosedConnection)
    }

    /** What the thread loop leaves after waiting_for_data; a failed realloc has already raised the
        recorded size. */
    function Received(r: Recv, reallocOk: bool): Conn {
      match r
      case RecvError => Closed()
      case PeerClosed => Closed()
      case Data(bytes) =>
        var c := this.(temp := bytes, state := ProcessingData);
        if capacity >= |main| + |bytes| then c
        else
          var grown := c.(capacity := capacity + RECV_BUFFER_GROW_SIZE);
          if reallocOk then grown else grown.Closed()
    }

    function Processed(): Conn {
      var i := FirstNewline(temp);
      if i < |temp| then Conn(SendingData, main + temp[..i + 1], temp[i + 1..], capacity)
      else Conn(WaitingForData, main + temp, [], capacity)
    }

    /** After sending_data handed the packet over and echoed. */
    function Replied(): Conn {
      this.(main := [], state := if temp != [] then ProcessingData else WaitingForData)
    }

    /** The invariant of an open connection at the head of its loop, by state. */
    ghost predicate Good() {
      && |temp| <= RECV_BUFFER_TEMP_SIZE
      && |main| <= capacity
      && capacity % RECV_BUFFER_GROW_SIZE == 0
      && match state
         case WaitingForData => temp == [] && NoNewline(main)
         case ProcessingData => temp != [] && NoNewline(main) && |main| + |temp| <= capacity
         case SendingData => IsPacket(main) && |main| + |temp| <= capacity
         case ClosedConnection => false
    }
  }

  const START := Conn(WaitingForData, [], [], 0)

  lemma ReceivedKeeps(c: Conn, r: Recv, reallocOk: bool)
    requires c.Good() && c.state.WaitingForData? && r.Possible()
    ensures var c' := c.Received(r, reallocOk);
            && c'.Held() == c.Held() + (if r.Data? then r.bytes else [])
            && (c'.state.ClosedConnection? || (c'.Good() && c'.state.ProcessingData?))
  {
  }

  lemma ProcessedKeeps(c: Conn)
    requires c.Good() && c.state.ProcessingData?
    ensures c.Processed().Good() && c.Processed().Held() == c.Held()
    ensures |c.Processed().temp| < |c.temp|
  {
    var i := FirstNewline(c.temp);
    if i < |c.temp| {
      var p := c.main + c.temp[..i + 1];
      assert p[..|p| - 1] == c.main + c.temp[..i];
      assert c.Processed().Held() == c.main + (c.temp[..i + 1] + c.temp[i + 1..]);
    } else {
      assert c.temp[..i] == c.temp;
    }
  }

  lemma RepliedKeeps(c: Conn)
    requires c.Good() && c.state.SendingData?
    ensures c.Replied().Good() && c.main + c.Replied().Held() == c.Held()
  {
  }

  /** One receive grows the buffer at most once and never far: the capacity stays below the largest
      amount held at any receive by less than two growth steps. */
  lemma CapacityStaysClose(c: Conn, r: Recv, reallocOk: bool, largest: nat)
    requires c.Good() && c.state.WaitingForData? && r.Possible()
    requires |c.main| <= largest && c.capacity < largest + 2 * RECV_BUFFER_GROW_SIZE
    ensures var c' := c.Received(r, reallocOk);
            && c'.capacity < largest + 2 * RECV_BUFFER_GROW_SIZE && c'.capacity % RECV_BUFFER_GROW_SIZE == 0
            && c.capacity <= c'.capacity <= c.capacity + RECV_BUFFER_GROW_SIZE
  {
  }

  class BufferData {
    var buffer: array?<byte>
    var size: nat
    var capacity: nat

    constructor (buffer: array?<byte>, capacity: nat)
      ensures this.buffer == buffer && this.size == 0 && this.capacity == capacity
    {
      this.buffer, this.size, this.capacity := buffer, 0, capacity;
    }

    function Bytes(): seq<byte>
      reads this, buffer
    {
      if buffer == null || size > buffer.Length then [] else buffer[..size]
    }
  }

  /** realloc: on success a block of the new size that starts with the old contents. */
  method Realloc(b: array?<byte>, n: nat, ok: bool) returns (r: array?<byte>)
    requires b == null || b.Length <= n
    ensures !ok ==> r == null
    ensures ok ==> r != null && fresh(r) && r.Length == n && (b != null ==> r[..b.Length] == b[..])
  {
    if !ok {
      return null;
    }
    r := new byte[n];
    if b != null {
      forall i | 0 <= i < b.Length {
        r[i] := b[i];
      }
    }
  }

  class ThreadBuffers {
    const main: BufferData
    const temp: BufferData
    var state: ThreadState

    ghost predicate Valid()
      reads this, main, temp
    {
      && main != temp
      && temp.buffer != null && temp.buffer.Length == temp.capacity == RECV_BUFFER_TEMP_SIZE
      && temp.size <= temp.capacity
      && main.size <= main.capacity
      && (if main.buffer == null then main.capacity == 0 else main.buffer.Length == main.capacity)
      && main.buffer != temp.buffer
    }

    function Value(): Conn
      reads this, main, temp, main.buffer, temp.buffer
    {
      Conn(state, main.Bytes(), temp.Bytes(), main.capacity)
    }

    /** The set-up of main_loop_thread. */
    constructor ()
      ensures Valid() && Value() == START
      ensures fresh(main) && fresh(temp) && fresh(temp.buffer) && main.buffer == null
    {
      main := new BufferData(null, 0);
      var block := new byte[RECV_BUFFER_TEMP_SIZE];
      temp := new BufferData(block, RECV_BUFFER_TEMP_SIZE);
      state := ThreadState.WaitingForData;
    }

    /** waiting_for_data; the caller closes the connection on -1. */
    method WaitingForData(r: Recv, reallocOk: bool) returns (rc: int)
      requires Valid() && Value().Good() && state.WaitingForData? && r.Possible()
      modifies this`state, main, temp`size, temp.buffer
      ensures temp.buffer == old(temp.buffer) && (main.buffer == old(main.buffer) || fresh(main.buffer))
      ensures rc == 0 ==> Valid()
      ensures rc == 0 || rc == -1
      ensures !r.Data? ==> temp.size == old(temp.size)
      ensures (if rc == -1 then Value().Closed() else Value()) == old(Value()).Received(r, reallocOk)
    {
      if r.RecvError? {
        return -1;
      }
      if r.PeerClosed? {
        state := ClosedConnection;
        return 0;
      }
      ghost var held := main.Bytes();
      forall i | 0 <= i < |r.bytes| {
        temp.buffer[i] := r.bytes[i];
      }
      temp.size := |r.bytes|;
      assert temp.Bytes() == r.bytes;
      assert main.Bytes() == held;
      while main.capacity < main.size + temp.size
        invariant Valid() && (main.buffer == old(main.buffer) || fresh(main.buffer))
        invariant main.size == old(main.size) && temp.Bytes() == r.bytes && main.Bytes() == held
        invariant main.capacity == old(main.capacity) || (reallocOk && old(main.capacity) < main.size + temp.size &&
                    main.capacity == old(main.capacity) + RECV_BUFFER_GROW_SIZE)
        decreases main.size + temp.size - main.capacity
      {
        main.capacity := main.capacity + RECV_BUFFER_GROW_SIZE;
        var bigger := Realloc(main.buffer, main.capacity, reallocOk);
        if bigger == null {
          assert main.Bytes() == held;
          return -1;
        }
        assert bigger[..main.size] == held;
        main.buffer := bigger;
      }
      state := ProcessingData;
      return 0;
    }

    /** memcpy of the first `n` new bytes behind the main buffer's, and memmove of the others to the
        front: both stay inside their buffers. */
    method TakeFromTemp(n: nat)
      requires Valid() && n <= temp.size && main.size + n <= main.capacity && main.buffer != null
      modifies main`size, main.buffer, temp`size, temp.buffer
      ensures Valid()
      ensures main.Bytes() == old(main.Bytes()) + old(temp.Bytes())[..n]
      ensures temp.Bytes() == old(temp.Bytes())[n..]
    {
      ghost var held, received := main.Bytes(), temp.Bytes();
      forall i | 0 <= i < n {
        main.buffer[main.size + i] := temp.buffer[i];
      }
      assert main.buffer[..main.size + n] == held + received[..n];
      assert temp.buffer[..temp.size] == received;
      main.size := main.size + n;
      forall i | 0 <= i < temp.size - n {
        temp.buffer[i] := temp.buffer[i + n];
      }
      assert temp.buffer[..temp.size - n] == received[n..];
      temp.size := temp.size - n;
    }

    /** process_received_data */
    method ProcessReceivedData() returns (rc: int)
      requires Valid() && Value().Good() && state.ProcessingData?
      modifies this`state, main`size, main.buffer, temp`size, temp.buffer
      ensures Valid() && rc == 0
      ensures Value() == old(Value()).Processed()
    {
      ghost var c := Value();
      var index := 0;
      var foundEnd := false;
      while index < temp.size
        invariant index <= temp.size && NoNewline(c.temp[..index]) && !foundEnd
      {
        if temp.buffer[index] == NEWLINE {
          foundEnd := true;
          break;
        }
        index := index + 1;
      }
      FirstNewlineAt(c.temp, index);
      if foundEnd {
        TakeFromTemp(index + 1);
        state := SendingData;
      } else {
        TakeFromTemp(temp.size);
        state := ThreadState.WaitingForData;
      }
      return 0;
    }
  }
}
