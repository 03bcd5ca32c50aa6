/** The file the server appends to and echoes: a regular file, or the character device when the
    server is built with USE_AESD_CHAR_DEVICE. `Os` stands for the system calls on it. */
module DataFile {
  import opened Prelude
  import opened CharDevice
  import CircularBuffer
  import Spec = DeviceSpec

  datatype File = Regular(content: seq<byte>) | Device(slots: nat, dev: Spec.DevState) {

    /** What one full write leaves. */
    function Appended(data: seq<byte>): File {
      match this
      case Regular(content) => Regular(content + data)
      case Device(slots, dev) => Device(slots, Spec.Write(slots, dev, data))
    }

    /** All bytes a reader gets from the start. */
    function Whole(): seq<byte> {
      match this
      case Regular(content) => content
      case Device(_, dev) => dev.Flat()
    }

    function AppendedAll(packets: seq<seq<byte>>): File {
      if packets == [] then this
      else AppendedAll(packets[..|packets| - 1]).Appended(packets[|packets| - 1])
    }
  }

  /** A regular file grows by every packet. */
  lemma {:induction false} RegularKeepsAll(content: seq<byte>, packets: seq<seq<byte>>)
    ensures Regular(content).AppendedAll(packets) == Regular(content + Flatten(packets))
  {
    if packets == [] {
      assert content + Flatten(packets) == content;
    } else {
      var (earlier, last) := (packets[..|packets| - 1], packets[|packets| - 1]);
      RegularKeepsAll(content, earlier);
      FlattenSnoc(earlier, last);
      assert packets == earlier + [last];
      Assoc(content, Flatten(earlier), last);
    }
  }

  /** A fresh device keeps the newest packets, one to an entry, with nothing pending. */
  lemma {:induction false} DeviceKeepsNewest(slots: nat, packets: seq<seq<byte>>)
    requires forall p :: p in packets ==> Spec.EndsLine(p)
    ensures Device(slots, Spec.FRESH).AppendedAll(packets) == Device(slots, Spec.DevState([], LastN(slots, packets)))
  {
    if packets != [] {
      var (earlier, last) := (packets[..|packets| - 1], packets[|packets| - 1]);
      DeviceKeepsNewest(slots, earlier);
      assert [] + last == last;
      assert packets == earlier + [last];
      LastNSnoc(slots, earlier, last);
    }
  }

  /** The open file, the client's socket and the mutex. System calls may fail as they like, and
      every failure is counted. */
  class Os {
    const device: AesdDev?
    var content: seq<byte>
    var isOpen: bool
    var offset: nat
    var mutexHeld: bool
    var sent: seq<byte>
    ghost var failures: nat

    ghost function Footprint(): set<object> {
      {this} + if device == null then {} else {device, device.buffer, device.buffer.entry}
    }

    ghost predicate Valid()
      reads Footprint()
    {
      device != null ==> device.Valid()
    }

    ghost function Value(): File
      requires Valid()
      reads Footprint()
    {
      if device == null then Regular(content) else Device(device.buffer.entry.Length, device.Abs())
    }

    /** Nothing is open or locked, and the file is `file`. */
    ghost predicate Rests(file: File)
      reads Footprint()
    {
      Valid() && !isOpen && !mutexHeld && Value() == file
    }

    constructor (device: AesdDev?)
      requires device != null ==> device.Valid()
      ensures this.device == device && Valid() && !isOpen && !mutexHeld && sent == [] && failures == 0
      ensures Value() == if device == null then Regular([]) else Device(device.buffer.entry.Length, device.Abs())
    {
      this.device := device;
      content, isOpen, offset, mutexHeld, sent, failures := [], false, 0, false, [], 0;
    }

    /** get_file_mutex; a no-op in the device build. */
    method GetFileMutex()
      requires !mutexHeld
      modifies this`mutexHeld
      ensures mutexHeld
    {
      mutexHeld := true;
    }

    method ReleaseFileMutex()
      requires mutexHeld
      modifies this`mutexHeld
      ensures !mutexHeld
    {
      mutexHeld := false;
    }

    method Open() returns (rc: int)
      requires !isOpen
      modifies this`isOpen, this`offset, this`failures
      ensures rc == 0 ==> isOpen && offset == 0 && failures == old(failures)
      ensures rc != 0 ==> rc == -1 && !isOpen && failures > old(failures)
    {
      var fails: bool := *;
      if fails {
        failures := failures + 1;
        return -1;
      }
      isOpen, offset := true, 0;
      return 0;
    }

    /** The descriptor is gone whatever close reports. */
    method Close() returns (rc: int)
      requires isOpen
      modifies this`isOpen, this`failures
      ensures !isOpen
      ensures if rc == 0 then failures == old(failures) else rc == -1 && failures > old(failures)
    {
      isOpen := false;
      var fails: bool := *;
      if fails {
        failures := failures + 1;
        return -1;
      }
      return 0;
    }

    method SeekToStart()
      requires isOpen
      modifies this`offset
      ensures offset == 0
    {
      offset := 0;
    }

    /** write: a regular file may take a part only and moves the offset to its end; the device takes
        all or nothing and leaves the offset. */
    method Write(data: seq<byte>) returns (rv: int)
      requires Valid() && isOpen && data != []
      modifies Footprint() - {this}, this`content, this`offset, this`failures
      ensures Valid() && -1 <= rv <= |data|
      ensures rv == |data| ==> Value() == old(Value()).Appended(data) && failures == old(failures)
      ensures rv < |data| ==> failures > old(failures)
      ensures rv == -1 ==> Value() == old(Value())
      ensures 0 <= rv < |data| ==> device == null && Value() == old(Value()).Appended(data[..rv])
    {
      if device != null {
        var lockOk: bool := *;
        var memoryOk: bool := *;
        var address := FreshAddress(device.heap.Keys);
        var answer := if memoryOk then Some(address) else None;
        rv := device.Write(lockOk, answer, data, |data|);
        assert data[..|data|] == data;
        if rv < 0 {
          rv := -1;
        }
      } else {
        rv :| -1 <= rv <= |data|;
        if rv >= 0 {
          content := content + data[..rv];
          offset := |content|;
          assert data[..|data|] == data;
        }
      }
      if rv < |data| {
        failures := failures + 1;
      }
    }

    /** read: between one byte and all that fits, none exactly at the end. */
    method Read(n: nat) returns (rv: int, bytes: seq<byte>)
      requires Valid() && isOpen && n > 0
      modifies this`offset, this`failures, if device == null then {} else {device}`locked
      ensures Valid() && Value() == old(Value())
      ensures rv == -1 ==> failures > old(failures) && offset == old(offset)
      ensures rv != -1 ==> 0 <= rv == |bytes| <= n && failures == old(failures) && offset == old(offset) + rv
      ensures rv != -1 ==>
                bytes <= From(Value().Whole(), old(offset)) && (rv == 0 <==> old(offset) >= |Value().Whole()|)
    {
      if device != null {
        var lockOk: bool := *;
        var user := seq(n, _ => 0);
        rv, offset, user := device.Read(lockOk, user, n, offset);
        if rv < 0 {
          failures := failures + 1;
          return -1, [];
        }
        bytes := user[..rv];
        assert bytes == Slice(device.Abs().Flat(), old(offset), n);
      } else {
        var fails: bool := *;
        if fails {
          failures := failures + 1;
          return -1, [];
        }
        var left := From(content, offset);
        rv :| 0 <= rv <= Min(n, |left|) && (rv == 0 <==> left == []);
        assert rv <= Min(n, |left|) <= |left|;
        bytes := left[..rv];
        offset := offset + rv;
      }
    }

    /** send: an error, or at least one byte. */
    method Send(data: seq<byte>) returns (rv: int)
      requires data != []
      modifies this`sent, this`failures
      ensures rv == -1 ==> sent == old(sent) && failures > old(failures)
      ensures rv != -1 ==> 1 <= rv <= |data| && sent == old(sent) + data[..rv] && failures == old(failures)
    {
      var fails: bool := *;
      if fails {
        failures := failures + 1;
        rv := -1;
      } else {
        rv :| 1 <= rv <= |data|;
        sent := sent + data[..rv];
      }
    }
  }

  lemma {:induction false} Bound(ps: set<CircularBuffer.Ptr>) returns (bound: nat)
    ensures forall p :: p in ps ==> p < bound
  {
    bound := 0;
    if ps != {} {
      var q :| q in ps;
      var earlier := Bound(ps - {q});
      bound := earlier + q + 1;
      assert forall p :: p in ps ==> p == q || p in ps - {q};
    }
  }

  /** The allocator can always find an address that is not in use. */
  method FreshAddress(ps: set<CircularBuffer.Ptr>) returns (p: CircularBuffer.Ptr)
    ensures p !in ps
  {
    ghost var bound := Bound(ps);
    assert bound !in ps;
    p :| p !in ps;
  }
}
