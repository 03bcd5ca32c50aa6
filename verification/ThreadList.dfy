/** The list of running threads: the SLIST macros the server uses, and join_threads. */
module ThreadList {
  import opened Prelude

  type ThreadId = nat

  /** struct LinkedListItem, with the descriptor in the thread's data, which joining it returns. */
  class LinkedListItem {
    const threadId: ThreadId
    const clientFd: int
    var next: LinkedListItem?

    constructor (threadId: ThreadId, clientFd: int)
      ensures this.threadId == threadId && this.clientFd == clientFd
    {
      this.threadId, this.clientFd, next := threadId, clientFd, null;
    }
  }

  /** Of the first `n` items, those whose threads cannot be joined yet, in order. */
  ghost function RunningOf(items: seq<LinkedListItem>, n: nat, ended: set<ThreadId>): seq<LinkedListItem>
    requires n <= |items|
  {
    if n == 0 then []
    else if items[n - 1].threadId in ended then RunningOf(items, n - 1, ended)
    else RunningOf(items, n - 1, ended) + [items[n - 1]]
  }

  /** Of the first `n` items, those whose threads are joined, in order. */
  ghost function EndedOf(items: seq<LinkedListItem>, n: nat, ended: set<ThreadId>): seq<LinkedListItem>
    requires n <= |items|
  {
    if n == 0 then []
    else if items[n - 1].threadId in ended then EndedOf(items, n - 1, ended) + [items[n - 1]]
    else EndedOf(items, n - 1, ended)
  }

  ghost function Running(items: seq<LinkedListItem>, ended: set<ThreadId>): seq<LinkedListItem> {
    RunningOf(items, |items|, ended)
  }

  ghost function Ended(items: seq<LinkedListItem>, ended: set<ThreadId>): seq<LinkedListItem> {
    EndedOf(items, |items|, ended)
  }

  function Fds(items: seq<LinkedListItem>): seq<int> {
    seq(|items|, i requires 0 <= i < |items| => items[i].clientFd)
  }

  function Without<T>(s: seq<T>, k: nat): seq<T>
    requires k < |s|
  {
    s[..k] + s[k + 1..]
  }

  ghost function At(items: seq<LinkedListItem>, i: nat): LinkedListItem? {
    if i < |items| then items[i] else null
  }

  /** Null-terminated and without cycles: the links visit exactly these items. */
  ghost predicate Linked(first: LinkedListItem?, items: seq<LinkedListItem>)
    reads items
  {
    && first == At(items, 0)
    && (forall i :: 0 <= i < |items| ==> items[i].next == At(items, i + 1))
    && (forall i, j :: 0 <= i < j < |items| ==> items[i] != items[j])
  }

  ghost function Members(items: seq<LinkedListItem>): set<LinkedListItem> {
    set x | x in items
  }

  lemma MembersWithout(items: seq<LinkedListItem>, k: nat)
    requires k < |items| && forall i, j :: 0 <= i < j < |items| ==> items[i] != items[j]
    ensures Members(Without(items, k)) <= Members(items) - {items[k]}
  {
    forall x | x in Without(items, k)
      ensures x in items && x != items[k]
    {
      var i :| 0 <= i < |items| - 1 && Without(items, k)[i] == x;
      assert x == items[if i < k then i else i + 1];
    }
  }

  lemma {:induction false} RunningAreItems(items: seq<LinkedListItem>, n: nat, ended: set<ThreadId>)
    requires n <= |items|
    ensures forall x :: x in RunningOf(items, n, ended) ==> x in items && x.threadId !in ended
    ensures forall x :: x in EndedOf(items, n, ended) ==> x in items && x.threadId in ended
  {
    if n > 0 {
      RunningAreItems(items, n - 1, ended);
    }
  }

  /** Joining splits the list: no item is lost, none is on both sides. */
  lemma {:induction false} SplitIsPermutation(items: seq<LinkedListItem>, n: nat, ended: set<ThreadId>)
    requires n <= |items|
    ensures multiset(RunningOf(items, n, ended)) + multiset(EndedOf(items, n, ended)) == multiset(items[..n])
  {
    if n > 0 {
      SplitIsPermutation(items, n - 1, ended);
      var (running, gone, item) := (RunningOf(items, n - 1, ended), EndedOf(items, n - 1, ended), items[n - 1]);
      assert items[..n] == items[..n - 1] + [item];
      PartSnoc(running, gone, items[..n - 1], item);
    }
  }

  /** The list, with what is allocated: `nodes` are the items not freed, `data` those whose thread's
      data is not freed. */
  class LinkedListHead {
    var first: LinkedListItem?
    ghost var items: seq<LinkedListItem>
    ghost var nodes: set<LinkedListItem>
    ghost var data: set<LinkedListItem>
    var closed: seq<int>

    ghost predicate Valid()
      reads this, items
    {
      Linked(first, items) && Members(items) <= nodes && Members(items) <= data
    }

    /** SLIST_INIT */
    constructor ()
      ensures Valid() && items == [] && nodes == {} && data == {} && closed == []
    {
      first, items, nodes, data, closed := null, [], {}, {}, [];
    }

    /** SLIST_EMPTY */
    method IsEmpty() returns (empty: bool)
      requires Valid()
      ensures empty <==> items == []
    {
      empty := first == null;
    }

    /** SLIST_NEXT: only ever of an item that has not been freed. */
    method Next(item: LinkedListItem) returns (next: LinkedListItem?)
      requires item in nodes
      ensures next == item.next
    {
      next := item.next;
    }

    /** free of the item and of its thread's data: both must still be allocated. */
    method Free(item: LinkedListItem)
      requires item in nodes && item in data
      modifies this`nodes, this`data
      ensures nodes == old(nodes) - {item} && data == old(data) - {item}
    {
      nodes := nodes - {item};
      data := data - {item};
    }

    /** SLIST_INSERT_HEAD of an item malloc'ed with its data by create_thread. */
    method InsertHead(item: LinkedListItem)
      requires Valid() && item !in nodes && item !in data
      modifies this, item
      ensures Valid() && items == [item] + old(items) && closed == old(closed)
      ensures nodes == old(nodes) + {item} && data == old(data) + {item}
    {
      item.next := first;
      first := item;
      items := [item] + items;
      nodes, data := nodes + {item}, data + {item};
    }

    /** The search of SLIST_REMOVE; it stops because the item is on the list. */
    method Previous(item: LinkedListItem, ghost k: nat) returns (cur: LinkedListItem)
      requires Valid() && 0 < k < |items| && items[k] == item
      ensures cur == items[k - 1]
    {
      cur := first;
      ghost var i := 0;
      var next := Next(cur);
      while next != item
        invariant 0 <= i < k && cur == items[i] && next == items[i + 1]
        decreases k - i
      {
        cur := next;
        i := i + 1;
        next := Next(cur);
      }
    }

    /** SLIST_REMOVE */
    method Remove(item: LinkedListItem, ghost k: nat)
      requires Valid() && k < |items| && items[k] == item
      modifies this`first, this`items, if k > 0 then {items[k - 1]} else {}
      ensures Linked(first, items) && items == old(Without(items, k))
      ensures Members(items) <= old(Members(items)) - {item}
      ensures nodes == old(nodes) && data == old(data) && closed == old(closed)
    {
      if first == item {
        first := item.next;
      } else {
        var cur := Previous(item, k);
        cur.next := item.next;
      }
      ghost var all := items;
      items := Without(items, k);
      MembersWithout(all, k);
      forall i | 0 <= i < |items|
        ensures items[i].next == At(items, i + 1)
      {
        assert items[i] == if i < k then all[i] else all[i + 1];
      }
    }

    /** One pass of join_threads: an item whose thread has ended is joined, its descriptor closed, and
        the item and its data freed. The next item is looked up first. */
    method Visit(item: LinkedListItem, ended: set<ThreadId>, ghost k: nat) returns (next: LinkedListItem?)
      requires Valid() && k < |items| && items[k] == item
      modifies this, if k > 0 then {items[k - 1]} else {}
      ensures Valid() && next == old(At(items, k + 1))
      ensures items == if item.threadId in ended then old(Without(items, k)) else old(items)
      ensures nodes == if item.threadId in ended then old(nodes) - {item} else old(nodes)
      ensures data == if item.threadId in ended then old(data) - {item} else old(data)
      ensures closed == if item.threadId in ended then old(closed) + [item.clientFd] else old(closed)
    {
      next := Next(item);
      if item.threadId in ended {
        closed := closed + [item.clientFd];
        Remove(item, k);
        Free(item);
      }
    }

    /** Where join_threads stands after `n` of `all` the items, for the log and blocks it began with. */
    ghost predicate Joined(all: seq<LinkedListItem>, n: nat, ended: set<ThreadId>,
                           log: seq<int>, blocks: set<LinkedListItem>, records: set<LinkedListItem>)
      requires n <= |all|
      reads this
    {
      && items == Pruned(all, n, ended)
      && closed == log + Fds(EndedOf(all, n, ended))
      && nodes == blocks - Members(EndedOf(all, n, ended))
      && data == records - Members(EndedOf(all, n, ended))
    }

    method JoinNext(cur: LinkedListItem, ended: set<ThreadId>, ghost all: seq<LinkedListItem>, ghost n: nat,
                    ghost log: seq<int>, ghost blocks: set<LinkedListItem>, ghost records: set<LinkedListItem>)
      returns (next: LinkedListItem?)
      requires n < |all| && Valid() && Joined(all, n, ended, log, blocks, records) && cur == all[n]
      modifies this, all
      ensures Valid() && Joined(all, n + 1, ended, log, blocks, records) && next == At(all, n + 1)
    {
      ghost var k := |RunningOf(all, n, ended)|;
      PruneStep(all, n, ended);
      GoneStep(all, n, ended, log, blocks);
      GoneStep(all, n, ended, log, records);
      next := Visit(cur, ended, k);
      assert items == Pruned(all, n + 1, ended);
      assert closed == log + Fds(EndedOf(all, n + 1, ended));
    }

    /** join_threads, with SLIST_FOREACH_SAFE: `ended` are the threads that have ended by the time
        their turn comes. What stays is the list of the others in their order; every joined item and
        its data are freed once, its descriptor closed once, and no freed link is ever followed. */
    method JoinThreads(ended: set<ThreadId>)
      requires Valid()
      modifies this, items
      ensures Valid() && items == Running(old(items), ended)
      ensures closed == old(closed) + Fds(Ended(old(items), ended))
      ensures nodes == old(nodes) - Members(Ended(old(items), ended))
      ensures data == old(data) - Members(Ended(old(items), ended))
    {
      ghost var all, n := items, 0;
      var cur := first;
      while cur != null
        invariant n <= |all| && Valid() && cur == At(all, n)
        invariant Joined(all, n, ended, old(closed), old(nodes), old(data))
        decreases |all| - n
      {
        cur := JoinNext(cur, ended, all, n, old(closed), old(nodes), old(data));
        n := n + 1;
      }
      PrunedAll(all, ended);
    }
  }

  /** The list after the first `n` items have been visited. */
  ghost function Pruned(all: seq<LinkedListItem>, n: nat, ended: set<ThreadId>): seq<LinkedListItem>
    requires n <= |all|
  {
    RunningOf(all, n, ended) + all[n..]
  }

  lemma PrunedAll(all: seq<LinkedListItem>, ended: set<ThreadId>)
    ensures Pruned(all, |all|, ended) == Running(all, ended)
  {
  }

  lemma PruneStep(all: seq<LinkedListItem>, n: nat, ended: set<ThreadId>)
    requires n < |all|
    ensures var (k, items) := (|RunningOf(all, n, ended)|, Pruned(all, n, ended));
            && k < |items| && items[k] == all[n] && At(items, k + 1) == At(all, n + 1)
            && (k > 0 ==> items[k - 1] in all)
            && Pruned(all, n + 1, ended) == if all[n].threadId in ended then Without(items, k) else items
  {
    var kept := RunningOf(all, n, ended);
    RunningAreItems(all, n, ended);
    VisitedAt(kept, all, n);
    if all[n].threadId in ended {
      WithoutAt(kept, all, n);
    } else {
      WithAt(kept, all, n);
    }
  }

  lemma VisitedAt(kept: seq<LinkedListItem>, all: seq<LinkedListItem>, n: nat)
    requires n < |all| && forall x :: x in kept ==> x in all
    ensures var (k, s) := (|kept|, kept + all[n..]);
            s[k] == all[n] && At(s, k + 1) == At(all, n + 1) && (k > 0 ==> s[k - 1] in all)
  {
    if kept != [] {
      assert kept[|kept| - 1] in all;
    }
  }

  lemma WithoutAt(kept: seq<LinkedListItem>, all: seq<LinkedListItem>, n: nat)
    requires n < |all|
    ensures Without(kept + all[n..], |kept|) == kept + all[n + 1..]
  {
  }

  lemma WithAt(kept: seq<LinkedListItem>, all: seq<LinkedListItem>, n: nat)
    requires n < |all|
    ensures (kept + [all[n]]) + all[n + 1..] == kept + all[n..]
  {
    Assoc(kept, [all[n]], all[n + 1..]);
    assert all[n..] == [all[n]] + all[n + 1..];
  }

  lemma GoneStep(all: seq<LinkedListItem>, n: nat, ended: set<ThreadId>, base: seq<int>, live: set<LinkedListItem>)
    requires n < |all|
    ensures var (gone, gone', item) := (EndedOf(all, n, ended), EndedOf(all, n + 1, ended), all[n]);
            if item.threadId in ended
            then && live - Members(gone') == live - Members(gone) - {item}
                 && base + Fds(gone') == base + Fds(gone) + [item.clientFd]
            else gone' == gone
  {
    var (gone, item) := (EndedOf(all, n, ended), all[n]);
    if item.threadId in ended {
      assert Fds(gone + [item]) == Fds(gone) + [item.clientFd];
      Assoc(base, Fds(gone), [item.clientFd]);
    }
  }
}
