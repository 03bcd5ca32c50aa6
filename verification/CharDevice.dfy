/** main.c of the driver: the device struct, its kernel allocations, and the calls on it.
    `Dev` is the device as a value and `AesdDev` the struct updated in place. */
module CharDevice {
  import opened Prelude
  import opened CircularBuffer
  import Spec = DeviceSpec

  type Heap = map<Ptr, seq<byte>>

  /** The part of struct aesd_dev the calls share, with the driver's live allocations. */
  datatype Dev = Dev(ring: Ring, temp: Entry, heap: Heap) {

    /** Every entry that owns a buffer: the ring's, oldest first, and then the pending one. */
    function Held(): seq<Entry>
      requires ring.Valid()
    {
      ring.Live() + if temp.buffptr.Some? then [temp] else []
    }

    /** The heap holds exactly the buffers of the held entries, one each, and those in flight. */
    ghost predicate Owned(inFlight: set<Ptr>) {
      && ring.Valid()
      && (temp.buffptr.None? <==> temp.size == 0)
      && Owns(heap, Held(), inFlight)
    }

    function Abs(): Spec.DevState
      requires ring.Valid() && AllLive(heap, Held())
    {
      var live := ring.Live();
      assert AllLive(heap, live) by { assert forall i :: 0 <= i < |live| ==> live[i] == Held()[i]; }
      assert temp.buffptr.Some? ==> temp == Held()[|live|];
      Spec.DevState(if temp.buffptr.Some? then heap[temp.buffptr.value] else [], Contents(heap, live))
    }

    /** The index at which aesd_write looks for the newline, once `count` bytes are gathered. */
    function LastByte(count: nat): int {
      temp.size + count - 1
    }

    /** Lines 157-181: the gathered bytes in `p` replace the pending entry, and go into the ring
        when they end in a newline. */
    function Installed(p: Ptr, count: nat): Dev
      requires ring.Valid() && p in heap && 0 < temp.size + count <= |heap[p]|
    {
      var afterFree := if temp.buffptr.Some? then heap - {temp.buffptr.value} else heap;
      var e := Entry(Some(p), temp.size + count);
      if heap[p][LastByte(count)] == NEWLINE then
        Dev(ring.Added(e), EMPTY_ENTRY,
            if ring.Overwritten().Some? then afterFree - {ring.Overwritten().value} else afterFree)
      else
        Dev(ring, e, afterFree)
    }

    /** Both frees of lines 157-181 hit live buffers. */
    predicate FreesLive(p: Ptr, count: nat)
      requires ring.Valid() && p in heap && 0 < temp.size + count <= |heap[p]|
    {
      && (temp.buffptr.Some? ==> temp.buffptr.value in heap)
      && (heap[p][LastByte(count)] == NEWLINE && ring.Overwritten().Some? ==>
            ring.Overwritten().value in heap && Some(ring.Overwritten().value) != temp.buffptr)
    }
  }

  predicate AllLive(heap: Heap, entries: seq<Entry>) {
    forall i :: 0 <= i < |entries| ==>
      && entries[i].buffptr.Some? && entries[i].buffptr.value in heap
      && |heap[entries[i].buffptr.value]| == entries[i].size
  }

  function Buffers(entries: seq<Entry>): (ps: seq<Ptr>)
    requires forall i :: 0 <= i < |entries| ==> entries[i].buffptr.Some?
    ensures |ps| == |entries|
  {
    seq(|entries|, i requires 0 <= i < |entries| => entries[i].buffptr.value)
  }

  /** One equation of multisets: no buffer has two owners, none is leaked, none dangles. */
  ghost predicate Owns(heap: Heap, entries: seq<Entry>, inFlight: set<Ptr>) {
    AllLive(heap, entries) && multiset(Buffers(entries)) + multiset(inFlight) == multiset(heap.Keys)
  }

  lemma RemoveOwner(ps: seq<Ptr>, k: nat, inFlight: set<Ptr>, keys: set<Ptr>)
    requires k < |ps| && multiset(ps) + multiset(inFlight) == multiset(keys)
    ensures multiset(ps[..k] + ps[k + 1..]) + multiset(inFlight) == multiset(keys - {ps[k]})
    ensures ps[k] !in ps[..k] + ps[k + 1..]
  {
    var rest := ps[..k] + ps[k + 1..];
    assert ps == ps[..k] + [ps[k]] + ps[k + 1..];
    assert multiset(ps) == multiset(rest) + multiset{ps[k]};
    assert multiset(keys)[ps[k]] <= 1;
    assert ps[k] !in multiset(rest);
    assert multiset(keys - {ps[k]}) == multiset(keys) - multiset{ps[k]};
  }

  lemma InFlightIsExclusive(ps: seq<Ptr>, p: Ptr, inFlight: set<Ptr>, keys: set<Ptr>)
    requires p in inFlight && multiset(ps) + multiset(inFlight) == multiset(keys)
    ensures p in keys && p !in ps
  {
    assert multiset(inFlight)[p] == 1 && multiset(keys)[p] <= 1;
    assert p !in multiset(ps) && p in multiset(keys);
  }

  /** Freeing one owner's buffer, and dropping that owner, leaves the others as they were. */
  lemma FreeOne(heap: Heap, entries: seq<Entry>, k: nat, inFlight: set<Ptr>)
    requires k < |entries| && Owns(heap, entries, inFlight)
    ensures var (heap', entries') := (heap - {entries[k].buffptr.value}, entries[..k] + entries[k + 1..]);
            && Owns(heap', entries', inFlight)
            && Contents(heap', entries') == Contents(heap, entries)[..k] + Contents(heap, entries)[k + 1..]
  {
    var p := entries[k].buffptr.value;
    var (heap', entries') := (heap - {p}, entries[..k] + entries[k + 1..]);
    var ps := Buffers(entries);
    RemoveOwner(ps, k, inFlight, heap.Keys);
    assert Buffers(entries') == ps[..k] + ps[k + 1..];
    assert heap'.Keys == heap.Keys - {p};
    forall i | 0 <= i < |entries'|
      ensures entries'[i].buffptr.value != p
    {
      assert Buffers(entries')[i] == entries'[i].buffptr.value;
    }
  }

  /** A buffer in flight gets an owner. */
  lemma Adopt(heap: Heap, entries: seq<Entry>, e: Entry, inFlight: set<Ptr>)
    requires Owns(heap, entries, inFlight)
    requires e.buffptr.Some? && e.buffptr.value in inFlight
    requires e.buffptr.value in heap ==> |heap[e.buffptr.value]| == e.size
    ensures e.buffptr.value in heap
    ensures Owns(heap, entries + [e], inFlight - {e.buffptr.value})
    ensures Contents(heap, entries + [e]) == Contents(heap, entries) + [heap[e.buffptr.value]]
  {
    InFlightIsExclusive(Buffers(entries), e.buffptr.value, inFlight, heap.Keys);
    assert Buffers(entries + [e]) == Buffers(entries) + [e.buffptr.value];
  }

  function Contents(heap: Heap, entries: seq<Entry>): (parts: seq<seq<byte>>)
    requires AllLive(heap, entries)
    ensures |parts| == |entries|
    ensures forall i :: 0 <= i < |entries| ==> parts[i] == heap[entries[i].buffptr.value]
  {
    seq(|entries|, i requires 0 <= i < |entries| => heap[entries[i].buffptr.value])
  }

  function FreshDev(capacity: nat): Dev {
    Dev(EmptyRing(capacity), EMPTY_ENTRY, map[])
  }

  lemma FreshDevIsFresh(capacity: nat)
    requires 1 <= capacity <= MAX_CAPACITY
    ensures FreshDev(capacity).Owned({})
    ensures FreshDev(capacity).Abs() == Spec.FRESH
  {
    EmptyRingHoldsNothing(capacity);
  }

  lemma PendingSize(d: Dev, inFlight: set<Ptr>)
    requires d.Owned(inFlight)
    ensures d.temp.size == |d.Abs().pending|
    ensures d.temp.buffptr.Some? ==> d.temp.buffptr.value in d.heap && d.Abs().pending == d.heap[d.temp.buffptr.value]
  {
    assert d.temp.buffptr.Some? ==> d.temp == d.Held()[|d.ring.Live()|];
  }

  /** Halfway through: the superseded pending buffer is freed and `p` has taken its place. */
  lemma Superseded(d: Dev, p: Ptr, data: seq<byte>, inFlight: set<Ptr>) returns (h: Heap, held: seq<Entry>)
    requires d.Owned(inFlight) && p in inFlight
    requires p in d.heap && d.heap[p] == d.Abs().pending + data
    ensures h == if d.temp.buffptr.Some? then d.heap - {d.temp.buffptr.value} else d.heap
    ensures d.temp.buffptr.Some? ==> d.temp.buffptr.value in d.heap
    ensures held == d.ring.Live() + [Entry(Some(p), d.temp.size + |data|)]
    ensures Owns(h, held, inFlight - {p})
    ensures Contents(h, held) == d.Abs().entries + [d.Abs().pending + data]
  {
    PendingSize(d, inFlight);
    var live := d.ring.Live();
    h := d.heap;
    if d.temp.buffptr.Some? {
      FreeOne(h, d.Held(), |live|, inFlight);
      assert d.Held()[..|live|] + d.Held()[|live| + 1..] == live;
      h := h - {d.temp.buffptr.value};
    } else {
      assert d.Held() == live;
    }
    var e := Entry(Some(p), d.temp.size + |data|);
    Adopt(h, live, e, inFlight);
    held := live + [e];
  }

  /** Dropping what the full ring evicts keeps ownership and the newest contents. */
  lemma Evicted(capacity: nat, h: Heap, held: seq<Entry>, inFlight: set<Ptr>) returns (h': Heap)
    requires Owns(h, held, inFlight) && |held| <= capacity + 1
    ensures |held| == capacity + 1 ==> held[0].buffptr.Some? && held[0].buffptr.value in h
    ensures h' == if |held| == capacity + 1 then h - {held[0].buffptr.value} else h
    ensures Owns(h', LastN(capacity, held), inFlight)
    ensures Contents(h', LastN(capacity, held)) == LastN(capacity, Contents(h, held))
  {
    h' := h;
    if |held| == capacity + 1 {
      FreeOne(h, held, 0, inFlight);
      assert held[..0] + held[1..] == held[1..];
      h' := h - {held[0].buffptr.value};
    }
  }

  /** The state halfway through aesd_write's install, with the new entry last. */
  ghost predicate Halfway(d: Dev, p: Ptr, count: nat, inFlight: set<Ptr>, h: Heap, held: seq<Entry>) {
    && d.ring.Valid()
    && p in d.heap && 0 < d.temp.size + count == |d.heap[p]|
    && h == (if d.temp.buffptr.Some? then d.heap - {d.temp.buffptr.value} else d.heap)
    && held == d.ring.Live() + [Entry(Some(p), d.temp.size + count)]
    && Owns(h, held, inFlight)
  }

  /** A ring with nothing pending beside it means just its contents. */
  lemma NothingPending(ring: Ring, h: Heap, inFlight: set<Ptr>)
    requires ring.Valid() && Owns(h, ring.Live(), inFlight)
    ensures var d := Dev(ring, EMPTY_ENTRY, h);
            d.Owned(inFlight) && d.Abs() == Spec.DevState([], Contents(h, ring.Live()))
  {
    var d := Dev(ring, EMPTY_ENTRY, h);
    assert d.Held() == ring.Live();
  }

  lemma InstalledCommits(d: Dev, p: Ptr, count: nat, inFlight: set<Ptr>, h: Heap, held: seq<Entry>)
    requires Halfway(d, p, count, inFlight, h, held)
    requires d.heap[p][|d.heap[p]| - 1] == NEWLINE
    ensures d.ring.Overwritten().Some? ==> d.ring.Overwritten().value in h
    ensures var d' := d.Installed(p, count);
            d'.Owned(inFlight) && d'.Abs() == Spec.DevState([], LastN(d.ring.Capacity(), Contents(h, held)))
  {
    var ring', n := d.ring.Added(held[|held| - 1]), d.ring.Capacity();
    AddedKeepsNewest(d.ring, held[|held| - 1]);
    var h' := Evicted(n, h, held, inFlight);
    assert d.ring.Overwritten() == if |held| == n + 1 then held[0].buffptr else None;
    NothingPending(ring', h', inFlight);
    assert d.Installed(p, count) == Dev(ring', EMPTY_ENTRY, h');
  }

  lemma InstalledGathers(d: Dev, p: Ptr, count: nat, inFlight: set<Ptr>, h: Heap, held: seq<Entry>)
    requires Halfway(d, p, count, inFlight, h, held)
    requires d.heap[p][|d.heap[p]| - 1] != NEWLINE
    ensures var d' := d.Installed(p, count);
            && d'.Owned(inFlight)
            && d'.Abs() == Spec.DevState(Contents(h, held)[|held| - 1], Contents(h, held)[..|held| - 1])
  {
    assert d.Installed(p, count).Held() == held;
  }

  lemma InFlightSwap(ps: seq<Ptr>, keys: set<Ptr>, inFlight: set<Ptr>, inFlight': set<Ptr>)
    requires multiset(ps) + multiset(inFlight) == multiset(keys)
    requires inFlight' !! keys - inFlight
    ensures inFlight <= keys
    ensures forall p :: p in ps ==> p in keys - inFlight
    ensures multiset(ps) + multiset(inFlight') == multiset(keys - inFlight + inFlight')
  {
    forall p | p in inFlight
      ensures p in keys && p !in ps
    {
      InFlightIsExclusive(ps, p, inFlight, keys);
    }
    forall p | p in ps
      ensures p in keys
    {
      assert p in multiset(ps) && p in multiset(keys);
    }
    forall p: Ptr
      ensures multiset(ps)[p] == multiset(keys - inFlight)[p]
    {
      assert multiset(ps)[p] + multiset(inFlight)[p] == multiset(keys)[p];
    }
    assert multiset(ps) == multiset(keys - inFlight);
    assert multiset(keys - inFlight + inFlight') == multiset(keys - inFlight) + multiset(inFlight');
  }

  /** Allocating, filling or freeing buffers in flight disturbs neither ownership nor meaning. */
  lemma InFlightChanges(d: Dev, heap': Heap, inFlight: set<Ptr>, inFlight': set<Ptr>)
    requires d.Owned(inFlight)
    requires inFlight' !! d.heap.Keys - inFlight
    requires heap'.Keys == d.heap.Keys - inFlight + inFlight'
    requires forall p :: p in d.heap.Keys - inFlight ==> heap'[p] == d.heap[p]
    ensures inFlight <= d.heap.Keys
    ensures d.(heap := heap').Owned(inFlight') && d.(heap := heap').Abs() == d.Abs()
  {
    var held, live := d.Held(), d.ring.Live();
    InFlightSwap(Buffers(held), d.heap.Keys, inFlight, inFlight');
    forall i | 0 <= i < |held|
      ensures held[i].buffptr.value in d.heap.Keys - inFlight
    {
      assert Buffers(held)[i] == held[i].buffptr.value;
    }
    assert d.(heap := heap').Held() == held;
    assert forall i :: 0 <= i < |live| ==> live[i] == held[i];
    assert Contents(heap', live) == Contents(d.heap, live);
    assert d.temp.buffptr.Some? ==> held[|live|] == d.temp;
  }

  lemma AllocInFlight(d: Dev, p: Ptr, bytes: seq<byte>, inFlight: set<Ptr>)
    requires d.Owned(inFlight) && p !in d.heap
    ensures p !in inFlight
    ensures var d' := d.(heap := d.heap[p := bytes]); d'.Owned(inFlight + {p}) && d'.Abs() == d.Abs()
  {
    InFlightSwap(Buffers(d.Held()), d.heap.Keys, inFlight, inFlight + {p});
    InFlightChanges(d, d.heap[p := bytes], inFlight, inFlight + {p});
  }

  lemma StoreInFlight(d: Dev, p: Ptr, bytes: seq<byte>, inFlight: set<Ptr>)
    requires d.Owned(inFlight) && p in inFlight
    ensures p in d.heap
    ensures var d' := d.(heap := d.heap[p := bytes]); d'.Owned(inFlight) && d'.Abs() == d.Abs()
  {
    InFlightSwap(Buffers(d.Held()), d.heap.Keys, inFlight, inFlight);
    InFlightChanges(d, d.heap[p := bytes], inFlight, inFlight);
  }

  lemma FreeInFlight(d: Dev, p: Ptr, inFlight: set<Ptr>)
    requires d.Owned(inFlight) && p in inFlight
    ensures p in d.heap
    ensures var d' := d.(heap := d.heap - {p}); d'.Owned(inFlight - {p}) && d'.Abs() == d.Abs()
  {
    InFlightSwap(Buffers(d.Held()), d.heap.Keys, inFlight, inFlight - {p});
    InFlightChanges(d, d.heap - {p}, inFlight, inFlight - {p});
  }

  /** The heart of aesd_write: from an owned device, installing the gathered buffer is the
      specified write, every free hits a live buffer once, and afterwards the heap holds exactly
      the buffers in use again. */
  lemma InstalledIsWrite(d: Dev, p: Ptr, data: seq<byte>, inFlight: set<Ptr>)
    requires d.Owned(inFlight) && p in inFlight && p in d.heap
    requires d.heap[p] == d.Abs().pending + data && d.heap[p] != []
    ensures d.temp.size == |d.Abs().pending| && d.FreesLive(p, |data|)
    ensures d.Installed(p, |data|).Owned(inFlight - {p})
    ensures d.Installed(p, |data|).ring.Capacity() == d.ring.Capacity()
    ensures d.Installed(p, |data|).Abs() == Spec.Write(d.ring.Capacity(), d.Abs(), data)
  {
    PendingSize(d, inFlight);
    var h, held := Superseded(d, p, data, inFlight);
    if d.heap[p][|d.heap[p]| - 1] == NEWLINE {
      InstalledCommits(d, p, |data|, inFlight - {p}, h, held);
    } else {
      InstalledGathers(d, p, |data|, inFlight - {p}, h, held);
    }
  }

  /** The write reads its last byte at an index inside the buffer exactly when something was
      gathered: only a zero-length write with nothing pending steps outside. */
  lemma LastByteInBounds(d: Dev, p: Ptr, count: nat, inFlight: set<Ptr>)
    requires d.Owned(inFlight) && p in d.heap && |d.heap[p]| == d.temp.size + count
    ensures 0 <= d.LastByte(count) < |d.heap[p]| <==> count > 0 || d.Abs().pending != []
  {
    PendingSize(d, inFlight);
  }

  /** The case that does: a fresh device after a zero-length write has gathered nothing into its new
      buffer. */
  lemma EmptyWriteStepsOutside(capacity: nat, p: Ptr)
    requires 1 <= capacity <= MAX_CAPACITY
    ensures var d := FreshDev(capacity).(heap := map[p := []]);
            d.Owned({p}) && d.Abs() == Spec.FRESH && !(0 <= d.LastByte(0) < |d.heap[p]|)
  {
    var d := FreshDev(capacity).(heap := map[p := []]);
    FreshDevIsFresh(capacity);
    AllocInFlight(FreshDev(capacity), p, [], {});
    assert {} + {p} == {p};
    LastByteInBounds(d, p, 0, {p});
  }

  /** aesd_cleanup_module, whose drain loop ends when the first removal answers NULL. */
  function CleanedUp(d: Dev): Dev
    requires d.ring.Removed().0.None?
  {
    Dev(EmptyRing(d.ring.Capacity()), EMPTY_ENTRY,
        if d.temp.buffptr.Some? then d.heap - {d.temp.buffptr.value} else d.heap)
  }

  /** It always does, and so cleanup frees the pending buffer only: what stays allocated, with
      nothing left pointing to it, is exactly the buffers of the committed strings. */
  lemma CleanupLeavesEntries(d: Dev)
    requires d.Owned({})
    ensures d.ring.Removed().0.None?
    ensures var heap := CleanedUp(d).heap;
            Owns(heap, d.ring.Live(), {}) && Contents(heap, d.ring.Live()) == d.Abs().entries
    ensures var (ring, temp) := (CleanedUp(d).ring, CleanedUp(d).temp);
            && ring.Valid() && ring.Live() == [] && ring.Capacity() == d.ring.Capacity()
            && temp.buffptr.None? && temp.size == 0
  {
    RemovalFindsNothing(d.ring);
    EmptyRingHoldsNothing(d.ring.Capacity());
    PendingSize(d, {});
    var live := d.ring.Live();
    if d.temp.buffptr.Some? {
      FreeOne(d.heap, d.Held(), |live|, {});
      assert d.Held()[..|live|] + d.Held()[|live| + 1..] == live;
    } else {
      assert d.Held() == live;
    }
  }

  /** Nothing stays allocated if and only if nothing was committed. */
  lemma CleanupIsCompleteIfEmpty(d: Dev)
    requires d.Owned({})
    ensures d.ring.Removed().0.None? && (CleanedUp(d).heap == map[] <==> d.ring.Count() == 0)
  {
    CleanupLeavesEntries(d);
    var (heap, live) := (CleanedUp(d).heap, d.ring.Live());
    if live == [] {
      assert multiset(Buffers(live)) + multiset({}) == multiset(heap.Keys);
      assert forall p :: p in heap ==> p in multiset(heap.Keys);
    } else {
      assert live[0].buffptr.value in heap;
    }
  }

  /** A fresh device after one line: its buffer is never freed. */
  lemma CleanupLeaksOneLine(capacity: nat, p: Ptr)
    requires 1 <= capacity <= MAX_CAPACITY
    ensures var d := FreshDev(capacity).(heap := map[p := [NEWLINE]]).Installed(p, 1);
            && d.Owned({}) && d.Abs() == Spec.DevState([], [[NEWLINE]])
            && d.ring.Removed().0.None? && CleanedUp(d).heap == map[p := [NEWLINE]]
  {
    var before: Dev, line: seq<byte> := FreshDev(capacity), [NEWLINE];
    FreshDevIsFresh(capacity);
    assert [] + line == line;
    GatheredIsWrite(before, before.(heap := map[p := line]), p, line, {});
    RemovalFindsNothing(before.(heap := map[p := line]).Installed(p, 1).ring);
  }

  lemma InTheMiddle(before: seq<byte>, part: seq<byte>, after: seq<byte>, j: nat)
    requires j <= |part|
    ensures part[j..] <= From(before + part + after, |before| + j)
  {
    assert (before + part + after)[|before| + j..] == part[j..] + after;
  }

  /** The run found by the search holds the bytes of the concatenation at that offset. */
  lemma TextAt(parts: seq<seq<byte>>, off: nat)
    ensures Locate(Lengths(parts), off).None? <==> off >= |Flatten(parts)|
    ensures Locate(Lengths(parts), off).Some? ==>
              var (k, j) := Locate(Lengths(parts), off).value;
              k < |parts| && j < |parts[k]| && parts[k][j..] <= From(Flatten(parts), off)
  {
    LocateSound(Lengths(parts), off);
    FlattenLength(parts);
    if Locate(Lengths(parts), off).Some? {
      var (k, j) := Locate(Lengths(parts), off).value;
      assert Lengths(parts[..k]) == Lengths(parts)[..k];
      FlattenLength(parts[..k]);
      FlattenAt(parts, k);
      InTheMiddle(Flatten(parts[..k]), parts[k], Flatten(parts[k + 1..]), j);
    }
  }

  /** Where the offset search lands is where the concatenated contents say it should: the rest of
      the entry is what comes next in the device's text, and nothing found means nothing left. */
  lemma ChunkIsSlice(d: Dev, off: nat, inFlight: set<Ptr>)
    requires d.Owned(inFlight)
    ensures var flat, at := d.Abs().Flat(), Locate(Sizes(d.ring.Live()), off);
            && (at.None? <==> off >= |flat|)
            && (at.Some? ==>
                  && at.value.0 < |d.ring.Live()|
                  && var e := d.ring.Live()[at.value.0];
                  && e.buffptr.Some? && e.buffptr.value in d.heap
                  && at.value.1 < e.size == |d.heap[e.buffptr.value]|
                  && d.heap[e.buffptr.value][at.value.1..] <= From(flat, off))
  {
    var live := d.ring.Live();
    assert forall i :: 0 <= i < |live| ==> live[i] == d.Held()[i];
    assert Sizes(live) == Lengths(Contents(d.heap, live));
    TextAt(Contents(d.heap, live), off);
  }

  /** The bytes one pass of the read loop would copy, none when the search finds no entry; no answer
      when it would touch a dead buffer or leave its bounds. */
  function Chunk(d: Dev, off: nat, want: nat): Option<seq<byte>>
    requires d.ring.Valid()
  {
    match Locate(Sizes(d.ring.Live()), off)
    case None => Some([])
    case Some((k, j)) =>
      if k >= |d.ring.Live()| then None
      else
        var e := d.ring.Live()[k];
        if e.buffptr.Some? && e.buffptr.value in d.heap && j < e.size <= |d.heap[e.buffptr.value]| then
          Some(d.heap[e.buffptr.value][j..j + Min(e.size - j, want)])
        else None
  }

  lemma ChunkFollowsText(d: Dev, off: nat, want: nat, inFlight: set<Ptr>)
    requires d.Owned(inFlight)
    ensures Chunk(d, off, want).Some?
    ensures var chunk := Chunk(d, off, want).value;
            && chunk <= From(d.Abs().Flat(), off) && |chunk| <= want
            && (want > 0 ==> (chunk == [] <==> From(d.Abs().Flat(), off) == []))
  {
    ChunkIsSlice(d, off, inFlight);
  }

  /** User memory after its first bytes were overwritten. */
  function Overlay(user: seq<byte>, bytes: seq<byte>): seq<byte>
    requires |bytes| <= |user|
  {
    bytes + user[|bytes|..]
  }

  const ERESTARTSYS := 512
  const ENOMEM := 12
  const EFAULT := 14

  class AesdDev {
    const buffer: AesdCircularBuffer
    var entryTemp: Entry
    var heap: Heap
    var locked: bool

    function Value(): Dev
      reads this`entryTemp, this`heap, buffer, buffer.entry
    {
      Dev(buffer.Value(), entryTemp, heap)
    }

    /** The device is in order, with no buffer in flight, and means `abs`. */
    ghost predicate Shows(abs: Spec.DevState)
      reads this, buffer, buffer.entry
    {
      Value().Owned({}) && Value().Abs() == abs && !Spec.EndsLine(abs.pending)
    }

    ghost predicate Valid()
      reads this, buffer, buffer.entry
    {
      !locked && exists abs :: Shows(abs)
    }

    ghost function Abs(): Spec.DevState
      requires Valid()
      reads this, buffer, buffer.entry
    {
      Value().Abs()
    }

    /** The device part of aesd_init_module. */
    constructor (capacity: nat)
      requires 1 <= capacity <= MAX_CAPACITY
      ensures Valid() && fresh(buffer) && fresh(buffer.entry)
      ensures Value() == FreshDev(capacity) && Abs() == Spec.FRESH
    {
      buffer := new AesdCircularBuffer(capacity);
      entryTemp, heap, locked := EMPTY_ENTRY, map[], false;
      new;
      FreshDevIsFresh(capacity);
      assert Shows(Spec.FRESH);
    }

    method GetLock(ok: bool) returns (rv: int)
      requires !locked
      modifies this`locked
      ensures locked == ok && rv == if ok then 0 else -512
    {
      locked := ok;
      rv := if ok then 0 else -ERESTARTSYS;
    }

    method ReleaseLock()
      requires locked
      modifies this`locked
      ensures !locked
    {
      locked := false;
    }

    /** kmalloc: the allocator answers with an address not in use, or fails; the bytes are junk. */
    method Kmalloc(size: nat, answer: Option<Ptr>) returns (p: Option<Ptr>)
      requires answer.Some? ==> answer.value !in heap
      modifies this`heap
      ensures p == answer
      ensures p.None? ==> heap == old(heap)
      ensures p.Some? ==> exists junk: seq<byte> :: |junk| == size && heap == old(heap)[p.value := junk]
    {
      p := answer;
      if p.Some? {
        assert |seq(size, _ => NEWLINE)| == size;
        var junk: seq<byte> :| |junk| == size;
        heap := heap[p.value := junk];
      }
    }

    method Kfree(p: Ptr)
      requires p in heap
      modifies this`heap
      ensures heap == old(heap) - {p}
    {
      heap := heap - {p};
    }

    /** memcpy and copy_from_user: store bytes inside a live buffer. */
    method Store(p: Ptr, at: nat, bytes: seq<byte>)
      requires p in heap && at + |bytes| <= |heap[p]|
      modifies this`heap
      ensures heap == old(heap)[p := old(heap)[p][..at] + bytes + old(heap)[p][at + |bytes|..]]
    {
      heap := heap[p := heap[p][..at] + bytes + heap[p][at + |bytes|..]];
    }

    /** Lines 140-148 of aesd_write: the pending bytes, then the caller's, into the new buffer. */
    method Gather(p: Ptr, user: seq<byte>, count: nat) returns (notCopied: nat)
      requires p in heap && |heap[p]| == entryTemp.size + count
      requires entryTemp.buffptr.None? ==> entryTemp.size == 0
      requires entryTemp.buffptr.Some? ==>
                 && entryTemp.buffptr.value in heap && entryTemp.buffptr.value != p
                 && |heap[entryTemp.buffptr.value]| == entryTemp.size
      modifies this`heap
      ensures notCopied == if count > |user| then count - |user| else 0
      ensures p in heap && heap == old(heap)[p := heap[p]]
      ensures notCopied == 0 ==>
                heap[p] == (if entryTemp.buffptr.Some? then old(heap)[entryTemp.buffptr.value] else []) + user[..count]
    {
      if entryTemp.buffptr.Some? {
        Store(p, 0, heap[entryTemp.buffptr.value]);
      }
      var copied := Min(count, |user|);
      Store(p, entryTemp.size, user[..copied]);
      notCopied := count - copied;
    }

    /** Lines 123-154 of aesd_write: a new buffer with the pending bytes and the caller's, and the
        lock still held; or a failure, with the lock given back and nothing left allocated. */
    method Collect(answer: Option<Ptr>, user: seq<byte>, count: nat) returns (rv: int, p: Ptr)
      requires locked && Value().Owned({}) && (answer.Some? ==> answer.value !in heap)
      modifies this`heap, this`locked
      ensures rv == if answer.None? then -12 else if count > |user| then -14 else 0
      ensures locked == (rv == 0)
      ensures rv != 0 ==> heap == old(heap)
      ensures rv == 0 ==> p !in old(heap) && heap == old(heap)[p := old(Value().Abs()).pending + user[..count]]
    {
      ghost var before := Value();
      PendingSize(before, {});
      p := 0;
      var newBuffer := Kmalloc(if entryTemp.buffptr.None? then count else entryTemp.size + count, answer);
      if newBuffer.None? {
        ReleaseLock();
        return -ENOMEM, p;
      }
      p := newBuffer.value;
      var bytesNotCopied := Gather(p, user, count);
      if bytesNotCopied > 0 {
        ReleaseLock();
        Kfree(p);
        assert heap == before.heap;
        return -EFAULT, p;
      }
      rv := 0;
    }

    /** Lines 156-181 of aesd_write: every Kfree proves its buffer is still live. */
    method Install(p: Ptr, count: nat)
      requires Value().ring.Valid()
      requires p in heap && 0 < entryTemp.size + count <= |heap[p]| && Some(p) != entryTemp.buffptr
      requires Value().FreesLive(p, count)
      modifies this`heap, this`entryTemp, buffer, buffer.entry
      ensures Value() == old(Value().Installed(p, count))
    {
      if entryTemp.buffptr.Some? {
        Kfree(entryTemp.buffptr.value);
      }
      entryTemp := Entry(Some(p), entryTemp.size + count);
      if heap[p][entryTemp.size - 1] == NEWLINE {
        var overwritten := buffer.AddEntry(entryTemp);
        entryTemp := EMPTY_ENTRY;
        if overwritten.Some? {
          Kfree(overwritten.value);
        }
      }
    }

    /** aesd_write. `user` is the accessible part of the caller's buffer, so a longer count faults;
        `answer` is what the allocator will say. */
    method Write(lockOk: bool, answer: Option<Ptr>, user: seq<byte>, count: nat) returns (rv: int)
      requires Valid() && (lockOk && answer.Some? && count <= |user| ==> count > 0 || Abs().pending != [])
      requires answer.Some? ==> answer.value !in heap
      modifies this, buffer, buffer.entry
      ensures Valid()
      ensures rv == if !lockOk then -512 else if answer.None? then -12 else if count > |user| then -14 else count
      ensures rv < 0 ==> Value() == old(Value())
      ensures rv >= 0 ==> Abs() == Spec.Write(buffer.entry.Length, old(Abs()), user[..count])
    {
      ghost var before := Value();
      rv := GetLock(lockOk);
      if rv == 0 {
        var newBuffer;
        rv, newBuffer := Collect(answer, user, count);
        if rv == 0 {
          GatheredIsWrite(before, Value(), newBuffer, user[..count], {});
          Install(newBuffer, count);
          ReleaseLock();
          rv := count;
        }
      }
      assert Shows(if rv < 0 then before.Abs() else Spec.Write(before.ring.Capacity(), before.Abs(), user[..count]));
    }

    /** Lines 60-80 of aesd_read: the bytes the next copy_to_user will copy, none when the search
        finds no entry. */
    method NextChunk(ghost d: Dev, off: nat, want: nat) returns (chunk: seq<byte>)
      requires d == Value() && d.Owned({}) && want > 0
      ensures |chunk| <= want && chunk <= From(d.Abs().Flat(), off)
      ensures chunk == [] <==> off >= |d.Abs().Flat()|
    {
      ChunkIsSlice(d, off, {});
      var found := buffer.FindEntryOffsetForFpos(off);
      if found.None? {
        return [];
      }
      var e, charReturned := buffer.entry[found.value.0], found.value.1;
      var entryBytes := e.size - charReturned;
      var bytesToCopy := if entryBytes >= want then want else entryBytes;
      chunk := heap[e.buffptr.value][charReturned..charReturned + bytesToCopy];
    }

    /** The loop of aesd_read, for a user buffer with `room` accessible bytes: `copied` is what it
        wrote there, one copy_to_user behind the other, up to the first byte that faults. */
    method CopyOut(ghost d: Dev, room: nat, count: nat, fPos: nat) returns (copied: seq<byte>, fault: bool)
      requires d == Value() && d.Owned({})
      ensures var data := Slice(d.Abs().Flat(), fPos, count);
              copied == data[..Min(|data|, room)] && (fault <==> |data| > room)
    {
      ghost var rest := From(d.Abs().Flat(), fPos);
      copied := [];
      while |copied| < count
        invariant |copied| <= count && |copied| <= room && copied <= rest
      {
        var chunk := NextChunk(d, fPos + |copied|, count - |copied|);
        assert chunk <= rest[|copied|..];
        if chunk == [] {
          break;
        }
        if |copied| + |chunk| > room {
          return copied + chunk[..room - |copied|], true;
        }
        copied := copied + chunk;
      }
      fault := false;
    }

    /** aesd_read, with `user` the accessible part of the caller's buffer. */
    method Read(lockOk: bool, user: seq<byte>, count: nat, fPos: nat) returns (rv: int, fPos': nat, user': seq<byte>)
      requires Valid()
      modifies this`locked
      ensures Valid()
      ensures var data := Slice(Abs().Flat(), fPos, count);
              && rv == (if !lockOk then -512 else if |data| > |user| then -14 else |data|)
              && fPos' == (if rv >= 0 then fPos + rv else fPos)
              && user' == (if lockOk then Overlay(user, data[..Min(|data|, |user|)]) else user)
    {
      fPos', user' := fPos, user;
      rv := GetLock(lockOk);
      if rv == 0 {
        var copied, fault := CopyOut(Value(), |user|, count, fPos);
        user' := Overlay(user, copied);
        if fault {
          rv := -EFAULT;
        } else {
          fPos' := fPos + |copied|;
          rv := |copied|;
        }
        ReleaseLock();
      }
    }
  }

  /** Allocating, gathering and installing together make the specified write. */
  lemma GatheredIsWrite(before: Dev, after: Dev, p: Ptr, data: seq<byte>, inFlight: set<Ptr>)
    requires before.Owned(inFlight) && p !in before.heap && before.Abs().pending + data != []
    requires after == before.(heap := before.heap[p := before.Abs().pending + data])
    ensures before.temp.size == |before.Abs().pending| && before.temp.buffptr != Some(p)
    ensures after.FreesLive(p, |data|)
    ensures after.Installed(p, |data|).Owned(inFlight)
    ensures after.Installed(p, |data|).ring.Capacity() == before.ring.Capacity()
    ensures after.Installed(p, |data|).Abs() == Spec.Write(before.ring.Capacity(), before.Abs(), data)
  {
    PendingSize(before, inFlight);
    AllocInFlight(before, p, after.heap[p], inFlight);
    InstalledIsWrite(after, p, data, inFlight + {p});
    assert inFlight + {p} - {p} == inFlight;
  }
}
