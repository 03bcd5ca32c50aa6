/** What reframing a byte stream into newline-terminated packets means, whatever the chunks. */
module Framing {
  import opened Prelude

  predicate NoNewline(s: seq<byte>) {
    forall i :: 0 <= i < |s| ==> s[i] != NEWLINE
  }

  /** Exactly one newline, at the end. */
  predicate IsPacket(s: seq<byte>) {
    s != [] && s[|s| - 1] == NEWLINE && NoNewline(s[..|s| - 1])
  }

  /** In bytes: the packet ending is 10, at the end and nowhere else. */
  lemma PacketsEndInTen(s: seq<byte>)
    ensures IsPacket(s) <==> |s| > 0 && s[|s| - 1] == 10 && forall i :: 0 <= i < |s| - 1 ==> s[i] != 10
  {
    assert |s| > 0 ==> forall i :: 0 <= i < |s| - 1 ==> s[..|s| - 1][i] == s[i];
  }

  predicate AllPackets(packets: seq<seq<byte>>) {
    forall i :: 0 <= i < |packets| ==> IsPacket(packets[i])
  }

  datatype Frames = Frames(packets: seq<seq<byte>>, rest: seq<byte>)

  function FirstNewline(s: seq<byte>): (i: nat)
    ensures i <= |s| && NoNewline(s[..i])
    ensures i < |s| ==> s[i] == NEWLINE
  {
    if s == [] || s[0] == NEWLINE then 0
    else
      var i := FirstNewline(s[1..]);
      assert s[..i + 1] == [s[0]] + s[1..][..i];
      i + 1
  }

  /** The newline split of a whole stream. */
  function Split(s: seq<byte>): Frames
    decreases |s|
  {
    var i := FirstNewline(s);
    if i == |s| then Frames([], s)
    else
      var later := Split(s[i + 1..]);
      Frames([s[..i + 1]] + later.packets, later.rest)
  }

  lemma {:induction false} FirstNewlineAt(s: seq<byte>, k: nat)
    requires k <= |s| && NoNewline(s[..k]) && (k < |s| ==> s[k] == NEWLINE)
    ensures FirstNewline(s) == k
  {
    if k > 0 {
      assert s[0] == s[..k][0];
      assert s[1..][..k - 1] == s[..k][1..];
      FirstNewlineAt(s[1..], k - 1);
    }
  }

  lemma SplitNone(rest: seq<byte>)
    requires NoNewline(rest)
    ensures Split(rest) == Frames([], rest)
  {
    assert rest[..|rest|] == rest;
    FirstNewlineAt(rest, |rest|);
  }

  lemma {:induction false} SplitStep(p: seq<byte>, rest: seq<byte>)
    requires IsPacket(p)
    ensures Split(p + rest) == Frames([p] + Split(rest).packets, Split(rest).rest)
  {
    var s, k := p + rest, |p| - 1;
    assert s[..k] == p[..k];
    FirstNewlineAt(s, k);
    assert s[..k + 1] == p && s[k + 1..] == rest;
  }

  ghost predicate Sound(s: seq<byte>) {
    && Flatten(Split(s).packets) + Split(s).rest == s
    && AllPackets(Split(s).packets) && NoNewline(Split(s).rest)
  }

  lemma SoundNone(rest: seq<byte>)
    requires NoNewline(rest)
    ensures Sound(rest)
  {
    SplitNone(rest);
    assert Flatten([]) + rest == rest;
  }

  lemma SoundStep(s: seq<byte>, p: seq<byte>, rest: seq<byte>)
    requires s == p + rest && IsPacket(p) && Sound(rest)
    ensures Sound(s)
  {
    SplitStep(p, rest);
    var f := Split(rest);
    FlattenStep([p] + f.packets, p, f.packets);
    Assoc(p, Flatten(f.packets), f.rest);
  }

  lemma FirstPacket(s: seq<byte>) returns (p: seq<byte>, rest: seq<byte>)
    requires FirstNewline(s) < |s|
    ensures s == p + rest && IsPacket(p)
  {
    var i := FirstNewline(s);
    p, rest := s[..i + 1], s[i + 1..];
    assert p[..i] == s[..i];
  }

  /** The split loses no byte, and what it yields are packets and an unfinished rest. */
  lemma {:induction false} SplitSound(s: seq<byte>)
    ensures Sound(s)
    decreases |s|
  {
    if FirstNewline(s) < |s| {
      var p, rest := FirstPacket(s);
      SplitSound(rest);
      SoundStep(s, p, rest);
    } else {
      assert s[..|s|] == s;
      SoundNone(s);
    }
  }

  /** Leading packets split off as they are, whatever follows them. */
  lemma {:induction false} SplitAfter(packets: seq<seq<byte>>, rest: seq<byte>)
    requires AllPackets(packets)
    ensures Split(Flatten(packets) + rest) == Frames(packets + Split(rest).packets, Split(rest).rest)
  {
    if packets == [] {
      assert Flatten(packets) + rest == rest;
      assert packets + Split(rest).packets == Split(rest).packets;
    } else {
      var (p, later) := (packets[0], packets[1..]);
      SplitAfter(later, rest);
      SplitStep(p, Flatten(later) + rest);
      Assoc(p, Flatten(later), rest);
      Assoc([p], later, Split(rest).packets);
      assert [p] + later == packets;
    }
  }

  /** The split is the only way to cut a stream into packets and an unfinished rest. */
  lemma SplitUnique(packets: seq<seq<byte>>, rest: seq<byte>, s: seq<byte>)
    requires AllPackets(packets) && NoNewline(rest) && Flatten(packets) + rest == s
    ensures Split(s) == Frames(packets, rest)
  {
    SplitAfter(packets, rest);
    SplitNone(rest);
  }
}
