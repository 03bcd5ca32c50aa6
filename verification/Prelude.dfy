/** Bytes, options and the sequence vocabulary shared by the driver and the server. */
module Prelude {

  newtype byte = x: int | 0 <= x < 256

  /** Both the driver's end-of-write character and the server's packet ending. */
  const NEWLINE: byte := 10

  datatype Option<+T> = None | Some(value: T)

  function Min(a: int, b: int): int {
    if a <= b then a else b
  }

  lemma Assoc<T>(a: seq<T>, b: seq<T>, c: seq<T>)
    ensures (a + b) + c == a + (b + c)
  {
  }

  lemma PrefixOfPrefix<T>(s: seq<T>, i: nat, j: nat)
    requires j <= i <= |s|
    ensures s[..i][..j] == s[..j]
  {
  }

  /** An element more in the whole, and in one of its two parts. */
  lemma PartSnoc<T>(a: seq<T>, b: seq<T>, whole: seq<T>, x: T)
    requires multiset(a) + multiset(b) == multiset(whole)
    ensures multiset(a + [x]) + multiset(b) == multiset(whole + [x])
    ensures multiset(a) + multiset(b + [x]) == multiset(whole + [x])
  {
    assert multiset(a + [x]) == multiset(a) + multiset{x};
    assert multiset(b + [x]) == multiset(b) + multiset{x};
    assert multiset(whole + [x]) == multiset(whole) + multiset{x};
  }

  /** All parts, end to end. */
  function Flatten(parts: seq<seq<byte>>): seq<byte> {
    if parts == [] then [] else parts[0] + Flatten(parts[1..])
  }

  lemma FlattenStep(parts: seq<seq<byte>>, first: seq<byte>, rest: seq<seq<byte>>)
    requires parts == [first] + rest
    ensures Flatten(parts) == first + Flatten(rest)
  {
    assert parts[1..] == rest;
  }

  lemma {:induction false} FlattenConcat(a: seq<seq<byte>>, b: seq<seq<byte>>)
    ensures Flatten(a + b) == Flatten(a) + Flatten(b)
  {
    if a == [] {
      assert a + b == b;
    } else {
      var (x, y, z) := (a[0], Flatten(a[1..]), Flatten(b));
      FlattenConcat(a[1..], b);
      FlattenStep(a + b, a[0], a[1..] + b);
      Assoc(x, y, z);
    }
  }

  lemma FlattenSnoc(a: seq<seq<byte>>, x: seq<byte>)
    ensures Flatten(a + [x]) == Flatten(a) + x
  {
    FlattenConcat(a, [x]);
    assert Flatten([x]) == x + Flatten([]) == x;
  }

  lemma FlattenAround(before: seq<seq<byte>>, part: seq<byte>, after: seq<seq<byte>>)
    ensures Flatten(before + [part] + after) == Flatten(before) + part + Flatten(after)
  {
    FlattenSnoc(before, part);
    FlattenConcat(before + [part], after);
  }

  lemma CutAt<T>(s: seq<T>, k: nat)
    requires k < |s|
    ensures s == s[..k] + [s[k]] + s[k + 1..]
  {
  }

  /** The part at `k` sits right after everything before it. */
  lemma FlattenAt(parts: seq<seq<byte>>, k: nat)
    requires k < |parts|
    ensures Flatten(parts) == Flatten(parts[..k]) + parts[k] + Flatten(parts[k + 1..])
  {
    CutAt(parts, k);
    FlattenAround(parts[..k], parts[k], parts[k + 1..]);
  }

  lemma FlattenPrefix(a: seq<seq<byte>>, b: seq<seq<byte>>)
    requires a <= b
    ensures Flatten(a) <= Flatten(b)
  {
    FlattenConcat(a, b[|a|..]);
    assert b == a + b[|a|..];
  }

  /** The last `n` elements, or all of them when there are fewer. */
  function LastN<T>(n: nat, s: seq<T>): seq<T> {
    if |s| <= n then s else s[|s| - n..]
  }

  /** Trimming early loses nothing: only the last `n` ever matter. */
  lemma LastNSnoc<T>(n: nat, s: seq<T>, x: T)
    ensures LastN(n, LastN(n, s) + [x]) == LastN(n, s + [x])
  {
  }

  /** What is left of `s` from position `from` on. */
  function From<T>(s: seq<T>, from: nat): seq<T> {
    if from <= |s| then s[from..] else []
  }

  /** At most `count` elements of `s` from position `from` on. */
  function Slice<T>(s: seq<T>, from: nat, count: nat): seq<T> {
    From(s, from)[..Min(count, |From(s, from)|)]
  }

  lemma SlicesJoin<T>(s: seq<T>, a: nat, b: nat)
    ensures Slice(s, 0, a) + Slice(s, |Slice(s, 0, a)|, b) == Slice(s, 0, a + b)
  {
  }

  function Sum(sizes: seq<nat>): nat {
    if sizes == [] then 0 else sizes[0] + Sum(sizes[1..])
  }

  lemma {:induction false} SumConcat(a: seq<nat>, b: seq<nat>)
    ensures Sum(a + b) == Sum(a) + Sum(b)
  {
    if a == [] {
      assert a + b == b;
    } else {
      SumConcat(a[1..], b);
      assert (a + b)[1..] == a[1..] + b;
    }
  }

  lemma SumUpTo(sizes: seq<nat>, k: nat)
    requires k < |sizes|
    ensures Sum(sizes[..k + 1]) == Sum(sizes[..k]) + sizes[k]
  {
    SumConcat(sizes[..k], [sizes[k]]);
    assert sizes[..k + 1] == sizes[..k] + [sizes[k]];
  }

  lemma SumMonotone(sizes: seq<nat>, j: nat, k: nat)
    requires j <= k <= |sizes|
    ensures Sum(sizes[..j]) <= Sum(sizes[..k]) <= Sum(sizes)
  {
    SumConcat(sizes[..j], sizes[j..k]);
    assert sizes[..k] == sizes[..j] + sizes[j..k];
    SumConcat(sizes[..k], sizes[k..]);
    assert sizes == sizes[..k] + sizes[k..];
  }

  function Lengths(parts: seq<seq<byte>>): (sizes: seq<nat>)
    ensures |sizes| == |parts|
  {
    seq(|parts|, i requires 0 <= i < |parts| => |parts[i]|)
  }

  lemma {:induction false} FlattenLength(parts: seq<seq<byte>>)
    ensures |Flatten(parts)| == Sum(Lengths(parts))
  {
    if parts != [] {
      FlattenLength(parts[1..]);
      assert Lengths(parts)[1..] == Lengths(parts[1..]);
    }
  }
}
