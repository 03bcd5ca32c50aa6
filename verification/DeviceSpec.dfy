/** What the character device means: a pending string and the newest committed strings. */
module DeviceSpec {
  import opened Prelude

  datatype DevState = DevState(pending: seq<byte>, entries: seq<seq<byte>>) {

    /** The bytes a reader sees from position 0 on. */
    function Flat(): seq<byte> {
      Flatten(entries)
    }
  }

  const FRESH := DevState([], [])

  predicate EndsLine(s: seq<byte>) {
    s != [] && s[|s| - 1] == NEWLINE
  }

  /** One successful write on a device that keeps `capacity` strings. */
  function Write(capacity: nat, d: DevState, data: seq<byte>): DevState {
    var s := d.pending + data;
    if EndsLine(s) then DevState([], LastN(capacity, d.entries + [s])) else DevState(s, d.entries)
  }

  /** A write attempt: the lock, the allocation or the copy may fail. */
  datatype Attempt = Attempt(data: seq<byte>, succeeds: bool)

  function Run(capacity: nat, d: DevState, attempts: seq<Attempt>): DevState {
    if attempts == [] then d
    else
      var before := Run(capacity, d, attempts[..|attempts| - 1]);
      var a := attempts[|attempts| - 1];
      if a.succeeds then Write(capacity, before, a.data) else before
  }

  /** The same fold with nothing ever evicted and failed attempts left out: the full history. */
  function History(attempts: seq<Attempt>): DevState {
    if attempts == [] then FRESH
    else
      var before := History(attempts[..|attempts| - 1]);
      var a := attempts[|attempts| - 1];
      var s := before.pending + a.data;
      if !a.succeeds then before
      else if EndsLine(s) then DevState([], before.entries + [s])
      else DevState(s, before.entries)
  }

  function Accepted(attempts: seq<Attempt>): seq<seq<byte>> {
    if attempts == [] then []
    else
      var a := attempts[|attempts| - 1];
      var earlier := Accepted(attempts[..|attempts| - 1]);
      if a.succeeds then earlier + [a.data] else earlier
  }

  /** A run of any length keeps exactly the newest strings of the full history. */
  lemma {:induction false} RunKeepsNewest(capacity: nat, attempts: seq<Attempt>)
    ensures Run(capacity, FRESH, attempts)
         == DevState(History(attempts).pending, LastN(capacity, History(attempts).entries))
  {
    if attempts != [] {
      var earlier := attempts[..|attempts| - 1];
      RunKeepsNewest(capacity, earlier);
      var s := History(earlier).pending + attempts[|attempts| - 1].data;
      LastNSnoc(capacity, History(earlier).entries, s);
    }
  }

  /** The history loses, adds and reorders no byte: it cuts the accepted bytes right after every
      write that ended in a newline, and what is pending has no newline at its end. */
  lemma {:induction false} HistoryConservesBytes(attempts: seq<Attempt>)
    ensures Flatten(History(attempts).entries) + History(attempts).pending == Flatten(Accepted(attempts))
    ensures forall s :: s in History(attempts).entries ==> EndsLine(s)
    ensures !EndsLine(History(attempts).pending)
  {
    if attempts != [] {
      var earlier := attempts[..|attempts| - 1];
      var a := attempts[|attempts| - 1];
      HistoryConservesBytes(earlier);
      var h := History(earlier);
      FlattenSnoc(h.entries, h.pending + a.data);
      FlattenSnoc(Accepted(earlier), a.data);
      assert Flatten(h.entries) + (h.pending + a.data) == (Flatten(h.entries) + h.pending) + a.data;
    }
  }

  /** When every write is one whole line, each entry is exactly one write and nothing is pending. */
  lemma {:induction false} WholeLinesAreEntries(capacity: nat, attempts: seq<Attempt>)
    requires forall a :: a in attempts ==> EndsLine(a.data)
    ensures Run(capacity, FRESH, attempts) == DevState([], LastN(capacity, Accepted(attempts)))
  {
    if attempts != [] {
      var earlier := attempts[..|attempts| - 1];
      WholeLinesAreEntries(capacity, earlier);
      var a := attempts[|attempts| - 1];
      assert [] + a.data == a.data;
      LastNSnoc(capacity, Accepted(earlier), a.data);
    }
  }

  /** A reader's view of a device in use: reads at its own position, and other processes' writes. */
  datatype Event = Reading(count: nat) | Writing(data: seq<byte>)

  datatype View = View(dev: DevState, pos: nat, got: seq<byte>)

  function Follow(capacity: nat, dev: DevState, events: seq<Event>): View {
    if events == [] then View(dev, 0, [])
    else
      var v := Follow(capacity, dev, events[..|events| - 1]);
      match events[|events| - 1]
      case Reading(count) =>
        var bytes := Slice(v.dev.Flat(), v.pos, count);
        View(v.dev, v.pos + |bytes|, v.got + bytes)
      case Writing(data) => v.(dev := Write(capacity, v.dev, data))
  }

  function Requested(events: seq<Event>): nat {
    if events == [] then 0
    else Requested(events[..|events| - 1]) + match events[|events| - 1] case Reading(c) => c case Writing(_) => 0
  }

  /** No commit of the run pushes an old string out. */
  ghost predicate NeverEvicts(capacity: nat, dev: DevState, events: seq<Event>) {
    forall i :: 0 <= i < |events| && events[i].Writing? ==>
      var d := Follow(capacity, dev, events[..i]).dev;
      |d.entries| < capacity || !EndsLine(d.pending + events[i].data)
  }

  /** Reads compose: as long as nothing is evicted, what successive reads delivered is a prefix of
      the current contents, whatever was committed in between. */
  lemma {:induction false} ReadsFollowContents(capacity: nat, dev: DevState, events: seq<Event>)
    requires NeverEvicts(capacity, dev, events)
    ensures var v := Follow(capacity, dev, events);
            v.pos == |v.got| && v.got <= v.dev.Flat() && dev.Flat() <= v.dev.Flat()
  {
    if events != [] {
      var earlier := events[..|events| - 1];
      assert forall i :: 0 <= i < |earlier| ==> events[..i] == earlier[..i];
      ReadsFollowContents(capacity, dev, earlier);
      var v := Follow(capacity, dev, earlier);
      var e := events[|events| - 1];
      assert events[..|events| - 1] == earlier;
      if e.Writing? {
        FlattenSnoc(v.dev.entries, v.dev.pending + e.data);
      } else {
        assert v.got == Slice(v.dev.Flat(), 0, v.pos);
        SlicesJoin(v.dev.Flat(), v.pos, e.count);
      }
    }
  }

  /** What a commit leaves in front of the new string. */
  lemma CommitFlat(capacity: nat, d: DevState, data: seq<byte>)
    requires 1 <= capacity && |d.entries| <= capacity && EndsLine(d.pending + data)
    ensures Write(capacity, d, data).Flat()
         == (if |d.entries| < capacity then d.Flat() else Flatten(d.entries[1..])) + (d.pending + data)
  {
    var kept := if |d.entries| < capacity then d.entries else d.entries[1..];
    assert LastN(capacity, d.entries + [d.pending + data]) == kept + [d.pending + data];
    FlattenSnoc(kept, d.pending + data);
  }

  /** Exactly when the bytes a reader has got stay a prefix of the contents whatever is committed
      next: there is a free slot, or they would still be a prefix without the oldest string. */
  lemma CommitKeepsReader(capacity: nat, d: DevState, got: seq<byte>)
    requires 1 <= capacity && |d.entries| <= capacity && got <= d.Flat()
    ensures (forall data :: EndsLine(d.pending + data) ==> got <= Write(capacity, d, data).Flat())
       <==> |d.entries| < capacity || got <= Flatten(d.entries[1..]) + d.pending
  {
    if |d.entries| < capacity {
      forall data | EndsLine(d.pending + data)
        ensures got <= Write(capacity, d, data).Flat()
      {
        CommitFlat(capacity, d, data);
      }
    } else {
      var newer := Flatten(d.entries[1..]);
      forall data | EndsLine(d.pending + data)
        ensures Write(capacity, d, data).Flat() == (newer + d.pending) + data
      {
        CommitFlat(capacity, d, data);
        Assoc(newer, d.pending, data);
      }
      if !(got <= newer + d.pending) {
        var data := Unlike(newer + d.pending, got);
        assert EndsLine(d.pending + data);
      }
    }
  }

  /** A line that, put behind `text`, does not read on like `got`. */
  lemma Unlike(text: seq<byte>, got: seq<byte>) returns (data: seq<byte>)
    requires !(got <= text)
    ensures EndsLine(data) && !(got <= text + data)
  {
    data := [if |got| > |text| && got[|text|] == 0 then 1 else 0, NEWLINE];
    if |got| > |text| {
      assert (text + data)[|text|] != got[|text|];
    } else {
      assert (text + data)[..|got|] == text[..|got|] != got;
    }
  }

  /** Between writes of whole lines the condition is the driver's own `full` flag: the contents
      survive every next line if and only if a slot is free. */
  lemma ContentsSurviveUnlessFull(capacity: nat, d: DevState)
    requires 1 <= capacity && |d.entries| <= capacity
    requires d.pending == [] && forall e :: e in d.entries ==> EndsLine(e)
    ensures (forall data :: EndsLine(data) ==> d.Flat() <= Write(capacity, d, data).Flat()) <==> |d.entries| < capacity
  {
    CommitKeepsReader(capacity, d, d.Flat());
    forall data
      ensures EndsLine(data) <==> EndsLine(d.pending + data)
    {
      assert d.pending + data == data;
    }
    if |d.entries| == capacity {
      var (oldest, newer) := (d.entries[0], Flatten(d.entries[1..]));
      assert oldest in d.entries;
      assert d.Flat() == oldest + newer;
      assert newer + d.pending == newer;
    }
  }

  lemma {:induction false} FollowFits(capacity: nat, dev: DevState, events: seq<Event>)
    requires |dev.entries| <= capacity
    ensures |Follow(capacity, dev, events).dev.entries| <= capacity
  {
    if events != [] {
      FollowFits(capacity, dev, events[..|events| - 1]);
    }
  }

  /** ... and so for a reader in the middle of a run: after reads and non-evicting commits, what it
      got stays a prefix of the contents over every next commit exactly under that condition. */
  lemma {:induction false} ReaderSurvives(capacity: nat, dev: DevState, events: seq<Event>)
    requires 1 <= capacity && |dev.entries| <= capacity && NeverEvicts(capacity, dev, events)
    ensures var v := Follow(capacity, dev, events);
            (forall data :: EndsLine(v.dev.pending + data) ==>
                 var v' := Follow(capacity, dev, events + [Writing(data)]);
                 v'.got <= v'.dev.Flat())
            <==> |v.dev.entries| < capacity || v.got <= Flatten(v.dev.entries[1..]) + v.dev.pending
  {
    var v := Follow(capacity, dev, events);
    ReadsFollowContents(capacity, dev, events);
    FollowFits(capacity, dev, events);
    forall data
      ensures Follow(capacity, dev, events + [Writing(data)]) == v.(dev := Write(capacity, v.dev, data))
    {
      FollowStep(capacity, dev, events, Writing(data));
    }
    CommitKeepsReader(capacity, v.dev, v.got);
  }

  lemma FollowStep(capacity: nat, dev: DevState, events: seq<Event>, e: Event)
    ensures var (v, v') := (Follow(capacity, dev, events), Follow(capacity, dev, events + [e]));
            if e.Writing? then v' == v.(dev := Write(capacity, v.dev, e.data))
            else var bytes := Slice(v.dev.Flat(), v.pos, e.count);
                 v' == View(v.dev, v.pos + |bytes|, v.got + bytes)
  {
    assert (events + [e])[..|events|] == events;
  }

  const OLD_LINE: seq<byte> := [65, 66, NEWLINE]
  const NEW_LINE: seq<byte> := [67, 68, NEWLINE]

  function NewLines(n: nat): (lines: seq<seq<byte>>)
    ensures |lines| == n
  {
    seq(n, _ => NEW_LINE)
  }

  lemma NewLinesSnoc(n: nat)
    ensures [OLD_LINE] + NewLines(n) + [NEW_LINE] == [OLD_LINE] + NewLines(n + 1)
    ensures NewLines(n) + [NEW_LINE] == [NEW_LINE] + NewLines(n)
  {
    assert NewLines(n) + [NEW_LINE] == NewLines(n + 1);
    Assoc([OLD_LINE], NewLines(n), [NEW_LINE]);
  }

  /** A fresh device gets the old line and then the new one `n` times. */
  function Filling(n: nat): seq<Event> {
    if n == 0 then [Writing(OLD_LINE)] else Filling(n - 1) + [Writing(NEW_LINE)]
  }

  lemma WriteLine(capacity: nat, entries: seq<seq<byte>>, line: seq<byte>)
    requires EndsLine(line)
    ensures Write(capacity, DevState([], entries), line) == DevState([], LastN(capacity, entries + [line]))
  {
    assert [] + line == line;
  }

  /** A line goes in and nothing goes out. */
  lemma AddLine(capacity: nat, dev: DevState, events: seq<Event>, entries: seq<seq<byte>>, line: seq<byte>)
    requires Follow(capacity, dev, events) == View(DevState([], entries), 0, [])
    requires |entries| < capacity && EndsLine(line)
    ensures Follow(capacity, dev, events + [Writing(line)]) == View(DevState([], entries + [line]), 0, [])
  {
    FollowStep(capacity, dev, events, Writing(line));
    WriteLine(capacity, entries, line);
  }

  lemma {:induction false} FillingFills(capacity: nat, n: nat)
    requires n < capacity
    ensures Follow(capacity, FRESH, Filling(n)) == View(DevState([], [OLD_LINE] + NewLines(n)), 0, [])
  {
    if n == 0 {
      AddLine(capacity, FRESH, [], [], OLD_LINE);
    } else {
      FillingFills(capacity, n - 1);
      AddLine(capacity, FRESH, Filling(n - 1), [OLD_LINE] + NewLines(n - 1), NEW_LINE);
      NewLinesSnoc(n - 1);
    }
  }

  lemma SliceOfFirst(line: seq<byte>, lines: seq<seq<byte>>, from: nat, to: nat)
    requires from <= to <= |line|
    ensures Slice(Flatten([line] + lines), from, to - from) == line[from..to]
  {
    FlattenStep([line] + lines, line, lines);
  }

  lemma OldLineGoes(n: nat)
    ensures Write(n + 1, DevState([], [OLD_LINE] + NewLines(n)), NEW_LINE) == DevState([], [NEW_LINE] + NewLines(n))
  {
    WriteLine(n + 1, [OLD_LINE] + NewLines(n), NEW_LINE);
    Assoc([OLD_LINE], NewLines(n), [NEW_LINE]);
    NewLinesSnoc(n);
  }

  /** A reader's position and bytes, with the contents as lines. */
  ghost predicate Stands(v: View, lines: seq<seq<byte>>, pos: nat, got: seq<byte>) {
    v == View(DevState([], lines), pos, got)
  }

  lemma ReadsOld(capacity: nat, events: seq<Event>, n: nat)
    requires Stands(Follow(capacity, FRESH, events), [OLD_LINE] + NewLines(n), 0, [])
    ensures Stands(Follow(capacity, FRESH, events + [Reading(1)]), [OLD_LINE] + NewLines(n), 1, [65])
  {
    FollowStep(capacity, FRESH, events, Reading(1));
    SliceOfFirst(OLD_LINE, NewLines(n), 0, 1);
  }

  lemma OldGoes(events: seq<Event>, n: nat)
    requires Stands(Follow(n + 1, FRESH, events), [OLD_LINE] + NewLines(n), 1, [65])
    ensures Stands(Follow(n + 1, FRESH, events + [Writing(NEW_LINE)]), [NEW_LINE] + NewLines(n), 1, [65])
  {
    FollowStep(n + 1, FRESH, events, Writing(NEW_LINE));
    OldLineGoes(n);
  }

  lemma ReadsNew(capacity: nat, events: seq<Event>, n: nat)
    requires Stands(Follow(capacity, FRESH, events), [NEW_LINE] + NewLines(n), 1, [65])
    ensures Follow(capacity, FRESH, events + [Reading(2)]).got == [65, 68, NEWLINE]
  {
    FollowStep(capacity, FRESH, events, Reading(2));
    SliceOfFirst(NEW_LINE, NewLines(n), 1, 3);
  }

  /** What may go wrong, on a fresh device of any capacity: a reader is inside the oldest line when a
      commit evicts it, goes on inside the next one, and has then read a line nobody wrote. */
  lemma EvictionMixesLines(capacity: nat)
    requires 1 <= capacity
    ensures var events := Filling(capacity - 1) + [Reading(1)] + [Writing(NEW_LINE)] + [Reading(2)];
            Follow(capacity, FRESH, events).got == [65, 68, NEWLINE]
  {
    var n := capacity - 1;
    FillingFills(capacity, n);
    ReadsOld(capacity, Filling(n), n);
    OldGoes(Filling(n) + [Reading(1)], n);
    ReadsNew(capacity, Filling(n) + [Reading(1)] + [Writing(NEW_LINE)], n);
  }

  /** With no writes in between, many reads deliver what one read of their sum delivers. */
  lemma {:induction false} ReadsCompose(capacity: nat, dev: DevState, events: seq<Event>)
    requires forall e :: e in events ==> e.Reading?
    ensures Follow(capacity, dev, events).dev == dev
    ensures Follow(capacity, dev, events).got == Slice(dev.Flat(), 0, Requested(events))
    ensures Follow(capacity, dev, events).pos == |Follow(capacity, dev, events).got|
  {
    if events != [] {
      var e := events[|events| - 1];
      assert e.Reading?;
      ReadsCompose(capacity, dev, events[..|events| - 1]);
      SlicesJoin(dev.Flat(), Requested(events[..|events| - 1]), e.count);
    }
  }
}
