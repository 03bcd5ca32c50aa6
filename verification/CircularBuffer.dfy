/** aesd-circular-buffer.c: a ring of owned entries with wrapping offsets.
    `Ring` is the ring as a value and `AesdCircularBuffer` the struct updated in place. */
module CircularBuffer {
  import opened Prelude

  type Ptr = nat

  /** struct aesd_buffer_entry; a NULL buffptr is None. */
  datatype Entry = Entry(buffptr: Option<Ptr>, size: nat)

  const EMPTY_ENTRY := Entry(None, 0)

  /** The capacity the driver is built with; everything here holds for any up to MAX_CAPACITY. */
  const AESDCHAR_MAX_WRITE_OPERATIONS_SUPPORTED := 10

  /** The largest capacity whose offsets fit in a uint8_t. */
  const MAX_CAPACITY := 255

  function Sizes(entries: seq<Entry>): (sizes: seq<nat>)
    ensures |sizes| == |entries|
  {
    seq(|entries|, i requires 0 <= i < |entries| => entries[i].size)
  }

  datatype Ring = Ring(entry: seq<Entry>, inOffs: nat, outOffs: nat, full: bool, empty: bool) {

    function Capacity(): nat {
      |entry|
    }

    /** The slot after `index`, wrapping. */
    function After(index: nat): nat {
      if index == Capacity() - 1 then 0 else index + 1
    }

    /** How many slots are in use. */
    function Count(): int {
      if full then Capacity()
      else if inOffs >= outOffs then inOffs - outOffs
      else inOffs + Capacity() - outOffs
    }

    /** All slots in reading order, starting at outOffs. */
    function Rotated(): seq<Entry>
      requires outOffs <= |entry|
    {
      entry[outOffs..] + entry[..outOffs]
    }

    ghost predicate Valid() {
      && 1 <= Capacity() <= MAX_CAPACITY
      && inOffs < Capacity()
      && outOffs < Capacity()
      && (full ==> inOffs == outOffs)
      && !empty
      && (forall i :: Count() <= i < Capacity() ==> Rotated()[i] == EMPTY_ENTRY)
    }

    /** The entries in use, oldest first. */
    function Live(): seq<Entry>
      requires Valid()
    {
      Rotated()[..Count()]
    }

    /** The pointer aesd_circular_buffer_add_entry hands back for its caller to free. */
    function Overwritten(): Option<Ptr>
      requires Valid()
    {
      if full then entry[inOffs].buffptr else None
    }

    function Added(e: Entry): Ring
      requires Valid()
    {
      var in' := After(inOffs);
      Ring(entry[inOffs := e], in', if full then After(outOffs) else outOffs, full || in' == outOffs, false)
    }

    /** aesd_circular_buffer_remove_entry: the slot handed back, and the ring after it. It answers
        NULL when the `empty` flag is false. */
    function Removed(): (Option<nat>, Ring) {
      if !empty then (None, this) else (Some(outOffs), this.(outOffs := After(outOffs)))
    }
  }

  /** No removal ever takes anything out: the flag it tests is false in a ring in order. What makes
      that hold of every ring that comes about is that EmptyRingHoldsNothing starts with it and
      AddedKeepsNewest keeps it. */
  lemma RemovalFindsNothing(r: Ring)
    requires r.Valid()
    ensures r.Removed() == (None, r)
  {
  }

  function EmptyRing(capacity: nat): Ring {
    Ring(seq(capacity, _ => EMPTY_ENTRY), 0, 0, false, false)
  }

  lemma EmptyRingHoldsNothing(capacity: nat)
    requires 1 <= capacity <= MAX_CAPACITY
    ensures EmptyRing(capacity).Valid()
    ensures EmptyRing(capacity).Live() == []
  {
  }

  /** Whatever the rotation, adding keeps exactly the newest `Capacity()` entries in order, and the
      pointer handed back is the one that fell off the old end. */
  lemma AddedKeepsNewest(r: Ring, e: Entry)
    requires r.Valid()
    ensures r.Added(e).Valid()
    ensures r.Added(e).Live() == LastN(r.Capacity(), r.Live() + [e])
    ensures r.full <==> |r.Live()| == r.Capacity()
    ensures r.Overwritten() == if r.full then r.Live()[0].buffptr else None
  {
    var a := r.Added(e);
    if r.full {
      assert a.Rotated() == r.Rotated()[1..] + [e];
    } else {
      assert a.Rotated() == r.Rotated()[r.Count() := e];
      assert a.Count() == r.Count() + 1;
    }
  }

  /** The reference for the offset search: which of the consecutive runs of the given sizes holds
      offset `off`, and where inside it. */
  function Locate(sizes: seq<nat>, off: nat): Option<(nat, nat)> {
    if sizes == [] then None
    else if off < sizes[0] then Some((0, off))
    else
      match Locate(sizes[1..], off - sizes[0])
      case None => None
      case Some(at) => Some((at.0 + 1, at.1))
  }

  /** From an offset to a (run, byte) pair and back; nothing is found exactly past the end. */
  lemma {:induction false} LocateSound(sizes: seq<nat>, off: nat)
    ensures Locate(sizes, off).None? <==> off >= Sum(sizes)
    ensures Locate(sizes, off).Some? ==>
              var (k, j) := Locate(sizes, off).value;
              k < |sizes| && j < sizes[k] && Sum(sizes[..k]) + j == off
  {
    if sizes != [] && off >= sizes[0] {
      LocateSound(sizes[1..], off - sizes[0]);
      var rest := Locate(sizes[1..], off - sizes[0]);
      if rest.Some? {
        var k := rest.value.0;
        assert sizes[..k + 1] == [sizes[0]] + sizes[1..][..k];
        SumConcat([sizes[0]], sizes[1..][..k]);
      }
    }
  }

  /** From a (run, byte) pair to an offset and back. */
  lemma {:induction false} LocateComplete(sizes: seq<nat>, k: nat, j: nat)
    requires k < |sizes| && j < sizes[k]
    ensures Locate(sizes, Sum(sizes[..k]) + j) == Some((k, j))
  {
    if k > 0 {
      LocateComplete(sizes[1..], k - 1, j);
      assert sizes[..k] == [sizes[0]] + sizes[1..][..k - 1];
      SumConcat([sizes[0]], sizes[1..][..k - 1]);
    }
  }

  /** Offsets and (run, byte) pairs are ordered alike. */
  lemma LocateMonotone(sizes: seq<nat>, off: nat, off': nat)
    requires off < off' < Sum(sizes)
    ensures Locate(sizes, off).Some? && Locate(sizes, off').Some?
    ensures var ((k, j), (k', j')) := (Locate(sizes, off).value, Locate(sizes, off').value);
            k < k' || (k == k' && j < j')
  {
    LocateSound(sizes, off);
    LocateSound(sizes, off');
    var ((k, j), (k', j')) := (Locate(sizes, off).value, Locate(sizes, off').value);
    if k' < k {
      SumUpTo(sizes, k');
      SumMonotone(sizes, k' + 1, k);
    }
  }

  class AesdCircularBuffer {
    const entry: array<Entry>
    var inOffs: nat
    var outOffs: nat
    var full: bool
    var empty: bool

    function Value(): Ring
      reads this, entry
    {
      Ring(entry[..], inOffs, outOffs, full, empty)
    }

    /** aesd_circular_buffer_init */
    constructor (capacity: nat)
      requires 1 <= capacity <= MAX_CAPACITY
      ensures Value() == EmptyRing(capacity)
      ensures fresh(entry)
    {
      entry := new Entry[capacity](_ => EMPTY_ENTRY);
      inOffs, outOffs, full, empty := 0, 0, false, false;
    }

    /** aesd_circular_buffer_add_entry */
    method AddEntry(e: Entry) returns (overwritten: Option<Ptr>)
      requires Value().Valid()
      modifies this, entry
      ensures Value() == old(Value().Added(e))
      ensures overwritten == old(Value().Overwritten())
    {
      overwritten := None;
      if full {
        overwritten := entry[inOffs].buffptr;
      }
      entry[inOffs] := e;
      empty := false;
      if inOffs == entry.Length - 1 {
        inOffs := 0;
      } else {
        inOffs := inOffs + 1;
      }
      if full {
        if outOffs == entry.Length - 1 {
          outOffs := 0;
        } else {
          outOffs := outOffs + 1;
        }
        return;
      } else if inOffs == outOffs {
        full := true;
      }
    }

    /** aesd_circular_buffer_remove_entry; the slot index stands for the returned entry pointer. */
    method RemoveEntry() returns (slot: Option<nat>)
      requires outOffs < entry.Length
      modifies this
      ensures (slot, Value()) == old(Value().Removed())
    {
      if !empty {
        return None;
      }
      slot := Some(outOffs);
      if outOffs == entry.Length - 1 {
        outOffs := 0;
      } else {
        outOffs := outOffs + 1;
      }
      if inOffs == outOffs {
        empty := true;
      }
    }

    /** aesd_circular_buffer_find_entry_offset_for_fpos: the slot index stands for the returned
        entry pointer. The loop visits every slot, used or not. */
    method FindEntryOffsetForFpos(charOffset: nat) returns (found: Option<(nat, nat)>)
      requires Value().Valid()
      ensures found.None? <==> Locate(Sizes(Value().Live()), charOffset).None?
      ensures found.Some? ==>
                var at := Locate(Sizes(Value().Live()), charOffset).value;
                && found.value.0 < entry.Length
                && at.0 < |Value().Live()|
                && found.value.0 == (if outOffs + at.0 < entry.Length then outOffs + at.0
                                     else outOffs + at.0 - entry.Length)
                && entry[found.value.0] == Value().Live()[at.0]
                && found.value.1 == at.1 < entry[found.value.0].size
    {
      ghost var rotated := Sizes(Value().Rotated());
      var left: nat := charOffset;
      var index := outOffs;
      for count := 0 to entry.Length
        invariant index < entry.Length
        invariant index == if outOffs + count < entry.Length then outOffs + count else outOffs + count - entry.Length
        invariant left + Sum(rotated[..count]) == charOffset
      {
        assert Value().Rotated()[count] == entry[index];
        if left < entry[index].size {
          FoundAt(Value(), count, left);
          return Some((index, left));
        }
        SumUpTo(rotated, count);
        left := left - entry[index].size;
        if index == entry.Length - 1 {
          index := 0;
        } else {
          index := index + 1;
        }
      }
      UnusedSlotsAreEmpty(Value());
      assert rotated[..entry.Length] == rotated;
      LocateSound(Sizes(Value().Live()), charOffset);
      return None;
    }
  }

  /** A slot with room for the offset is in use, and is where the reference search ends. */
  lemma FoundAt(r: Ring, count: nat, left: nat)
    requires r.Valid() && count < r.Capacity() && left < r.Rotated()[count].size
    ensures count < |r.Live()| && r.Live()[count] == r.Rotated()[count]
    ensures Locate(Sizes(r.Live()), left + Sum(Sizes(r.Rotated())[..count])) == Some((count, left))
  {
    assert Sizes(r.Rotated())[..count] == Sizes(r.Live())[..count];
    LocateComplete(Sizes(r.Live()), count, left);
  }

  /** The search may run over unused slots because they add no bytes. */
  lemma UnusedSlotsAreEmpty(r: Ring)
    requires r.Valid()
    ensures Sum(Sizes(r.Rotated())) == Sum(Sizes(r.Live()))
  {
    var all, n := Sizes(r.Rotated()), r.Count();
    SumConcat(all[..n], all[n..]);
    assert all == all[..n] + all[n..];
    assert all[..n] == Sizes(r.Live());
    SumOfZeros(all[n..]);
  }

  lemma {:induction false} SumOfZeros(s: seq<nat>)
    requires forall i :: 0 <= i < |s| ==> s[i] == 0
    ensures Sum(s) == 0
  {
    if s != [] {
      SumOfZeros(s[1..]);
    }
  }
}
