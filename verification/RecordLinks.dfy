/** The null-terminated doubly linked lists behind the cache bins and the logs: each pointer operation does to
    the linked cells what the models of the cache and the logs do to sequences. */
module RecordLinks {
  import CollectiveLog
  import MessageLog
  import opened Sequences

  /** A record of one of the lists.  For the cache it is a buffer: `size` bytes, holding `data`. */
  class Cell {
    const size: nat
    var data: seq<int>
    var next: Cell?
    var prev: Cell?

    constructor (size: nat)
      ensures this.size == size && next == null && prev == null
    {
      this.size, data := size, [];
      next, prev := null, null;
    }
  }

  ghost function At(s: seq<Cell>, i: int): Cell? {
    if 0 <= i < |s| then s[i] else null
  }

  ghost predicate LinksAt(s: seq<Cell>, i: int)
    requires 0 <= i < |s|
    reads s
  {
    s[i].next == At(s, i + 1) && s[i].prev == At(s, i - 1)
  }

  /** The cells of s, in order, linked both ways and ended by null both ways. */
  ghost predicate Linked(s: seq<Cell>)
    reads s
  {
    NoRepeats(s) && forall i {:trigger LinksAt(s, i)} :: 0 <= i < |s| ==> LinksAt(s, i)
  }

  ghost function Without(s: seq<Cell>, k: int): (t: seq<Cell>)
    requires 0 <= k < |s|
    ensures |t| == |s| - 1 && (forall i :: 0 <= i < k ==> t[i] == s[i])
    ensures forall i :: k <= i < |t| ==> t[i] == s[i + 1]
  {
    s[..k] + s[k + 1..]
  }

  lemma LinkedAt(s: seq<Cell>, k: int)
    requires Linked(s) && 0 <= k < |s|
    ensures s[k].next == At(s, k + 1) && s[k].prev == At(s, k - 1)
  {
    assert LinksAt(s, k);
  }

  /** The links of cell i once its neighbour at k is bridged. */
  ghost predicate BridgedAt(s: seq<Cell>, k: int, i: int)
    requires 0 <= i < |s|
    reads s
  {
    && s[i].next == (if i == k - 1 then At(s, k + 1) else At(s, i + 1))
    && s[i].prev == (if i == k + 1 then At(s, k - 1) else At(s, i - 1))
  }

  lemma ClosedAt(s: seq<Cell>, k: int, i: int)
    requires 0 <= k < |s| && 0 <= i < |s| - 1 && BridgedAt(s, k, if i < k then i else i + 1)
    ensures LinksAt(Without(s, k), i)
  {
  }

  lemma Closed(s: seq<Cell>, k: int)
    requires 0 <= k < |s| && NoRepeats(s)
    requires forall i {:trigger BridgedAt(s, k, i)} :: 0 <= i < |s| && i != k ==> BridgedAt(s, k, i)
    ensures Linked(Without(s, k))
  {
    assert NoRepeats(Without(s, k));
    hide BridgedAt, LinksAt;
    forall i | 0 <= i < |s| - 1
      ensures LinksAt(Without(s, k), i)
    {
      assert BridgedAt(s, k, if i < k then i else i + 1);
      ClosedAt(s, k, i);
    }
  }

  /** Link the neighbours of a cell to each other. */
  method Bridge(node: Cell, ghost s: seq<Cell>, ghost k: int)
    requires Linked(s) && 0 <= k < |s| && node == s[k]
    modifies s`next, s`prev
    ensures Linked(Without(s, k)) && node.next == old(node.next) && node.prev == old(node.prev)
  {
    LinkedAt(s, k);
    if node.next != null { node.next.prev := node.prev; }
    if node.prev != null { node.prev.next := node.next; }
    forall i | 0 <= i < |s| && i != k
      ensures BridgedAt(s, k, i)
    {
      assert old(LinksAt(s, i));
    }
    hide Linked, LinksAt;
    Closed(s, k);
  }

  // ---- A cache bin: head and tail ----

  class Bin {
    var head: Cell?
    var tail: Cell?
    ghost var items: seq<Cell>

    ghost predicate Valid()
      reads this, items
    {
      Linked(items) && head == At(items, 0) && tail == At(items, |items| - 1)
    }

    constructor ()
      ensures Valid() && items == []
    {
      head, tail, items := null, null, [];
    }

    /** commbuf_node_insert and commbuf_node_reinsert: the node's own links are null, as a node fresh or checked out
        has them. */
    method PushHead(node: Cell)
      requires Valid() && node !in items && node.next == null && node.prev == null
      modifies this, items`prev, node`next
      ensures Valid() && items == [node] + old(items)
    {
      ghost var s := items;
      if head == null {
        tail := node;
      } else {
        LinkedAt(s, 0);
        node.next := head;
        head.prev := node;
      }
      head := node;
      forall i | 0 <= i < |s|
        ensures OpenedFor(s, 0, node, i)
      {
        assert old(LinksAt(s, i));
      }
      Opened(s, 0, node);
      items := [node] + s;
      assert items == Inserted(s, 0, node);
    }

    /** commbuf_node_remove, and the clearing of the node's links that follows it. */
    method Remove(node: Cell, ghost k: int)
      requires Valid() && 0 <= k < |items| && node == items[k]
      modifies this, items`next, items`prev
      ensures Valid() && items == Without(old(items), k) && node.next == null && node.prev == null
    {
      ghost var s := items;
      LinkedAt(s, k);
      if node.prev == null { head := node.next; }
      if node.next == null { tail := node.prev; }
      Bridge(node, s, k);
      items := Without(s, k);
      RestApart(s, k);
      node.next, node.prev := null, null;
    }

    /** commbuf_node_evict: the last cell goes. */
    method EvictTail() returns (evicted: Cell?)
      requires Valid()
      modifies this, items`next
      ensures Valid() && evicted == At(old(items), |old(items)| - 1)
      ensures items == if evicted == null then old(items) else old(items)[..|old(items)| - 1]
    {
      evicted := tail;
      if evicted == null { return; }
      ghost var s := items;
      ghost var k := |s| - 1;
      LinkedAt(s, k);
      if evicted.prev != null { evicted.prev.next := evicted.next; } else { head := evicted.next; }
      tail := evicted.prev;
      forall i | 0 <= i < k
        ensures BridgedAt(s, k, i)
      {
        assert old(LinksAt(s, i));
      }
      Closed(s, k);
      items := Without(s, k);
      assert items == s[..k];
    }
  }

  /** A removed cell is none of those that stay, so changing it changes none of them. */
  lemma RestApart(s: seq<Cell>, k: int)
    requires 0 <= k < |s| && NoRepeats(s)
    ensures s[k] !in Without(s, k)
  {
  }

  // ---- A log: entered at the front, pruned on a walk ----

  ghost function Kept(s: seq<Cell>, drop: Cell -> bool): seq<Cell> {
    if s == [] then [] else Kept(s[..|s| - 1], drop) + if drop(s[|s| - 1]) then [] else [s[|s| - 1]]
  }

  class Log {
    var first: Cell?
    var last: Cell?
    ghost var items: seq<Cell>

    ghost predicate Valid()
      reads this, items
    {
      Linked(items) && first == At(items, 0) && last == At(items, |items| - 1)
    }

    ghost function Cells(): set<Cell>
      reads this
    {
      set c | c in items
    }

    constructor ()
      ensures Valid() && items == []
    {
      first, last, items := null, null, [];
    }

    /** Take out one record while walking: both ends move off it, its neighbours are linked. */
    method Unlink(node: Cell, ghost k: int)
      requires Valid() && 0 <= k < |items| && node == items[k]
      modifies this, Cells()
      ensures Valid() && items == Without(old(items), k) && Cells() <= old(Cells())
    {
      ghost var s := items;
      LinkedAt(s, k);
      EndsOnce(s, k);
      if node == first { first := node.next; }
      if node == last { last := node.prev; }
      Bridge(node, s, k);
      items := Without(s, k);
    }

    /** The prune pass: step past a record before taking it out. */
    method Prune(drop: Cell -> bool)
      requires Valid()
      modifies this, Cells()
      ensures Valid() && items == Kept(old(items), drop)
    {
      hide Linked, Cells, Sifted, Without, Kept;
      ghost var was, seen, k := items, 0, 0;
      NothingSifted(was, drop);
      var node := first;
      while node != null
        invariant Valid() && Cells() <= old(Cells()) && Sifted(was, seen, items, k, drop) && node == At(items, k)
        decreases |was| - seen
      {
        LinkedAt(items, k);
        SiftOne(was, seen, items, k, drop);
        var next := node.next;
        if drop(node) {
          Unlink(node, k);
        } else {
          k := k + 1;
        }
        node := next;
        seen := seen + 1;
      }
      AllSifted(was, seen, items, k, drop);
    }
  }

  /** The first `seen` records of was have been sifted into the first k of now; the rest are as they were. */
  ghost predicate Sifted(was: seq<Cell>, seen: int, now: seq<Cell>, k: int, drop: Cell -> bool) {
    && 0 <= seen <= |was| && 0 <= k <= |now|
    && now[..k] == Kept(was[..seen], drop) && now[k..] == was[seen..]
  }

  lemma NothingSifted(was: seq<Cell>, drop: Cell -> bool)
    ensures Sifted(was, 0, was, 0, drop)
  {
  }

  lemma SiftOne(was: seq<Cell>, seen: int, now: seq<Cell>, k: int, drop: Cell -> bool)
    requires Sifted(was, seen, now, k, drop) && k < |now|
    ensures seen < |was|
    ensures drop(now[k]) ==> Sifted(was, seen + 1, Without(now, k), k, drop) && At(Without(now, k), k) == At(now, k + 1)
    ensures !drop(now[k]) ==> Sifted(was, seen + 1, now, k + 1, drop)
  {
    assert now[k] == now[k..][0] == was[seen..][0] == was[seen];
    assert was[..seen + 1][..seen] == was[..seen];
    assert now[k..][1..] == was[seen..][1..] == was[seen + 1..];
    if drop(now[k]) {
      assert Without(now, k)[..k] == now[..k] && Without(now, k)[k..] == now[k..][1..];
    } else {
      assert now[..k + 1] == now[..k] + [now[k]] && now[k + 1..] == now[k..][1..];
    }
  }

  lemma AllSifted(was: seq<Cell>, seen: int, now: seq<Cell>, k: int, drop: Cell -> bool)
    requires Sifted(was, seen, now, k, drop) && At(now, k) == null
    ensures now == Kept(was, drop)
  {
    assert now[..k] == now && now[k..] == [] && was[seen..] == [] && was[..seen] == was;
  }

  lemma EndsOnce(s: seq<Cell>, k: int)
    requires Linked(s) && 0 <= k < |s|
    ensures (s[k] == s[0] <==> k == 0) && (s[k] == s[|s| - 1] <==> k == |s| - 1)
  {
  }

  // ---- The collective log: a head, and ordered insertion ----

  ghost function Inserted(s: seq<Cell>, k: int, node: Cell): (t: seq<Cell>)
    requires 0 <= k <= |s|
    ensures |t| == |s| + 1
  {
    s[..k] + [node] + s[k..]
  }

  lemma InsertedAt(s: seq<Cell>, k: int, node: Cell, i: int)
    requires 0 <= k <= |s|
    ensures At(Inserted(s, k, node), i) == if i < k then At(s, i) else if i == k then node else At(s, i - 1)
  {
  }

  class Ordered {
    var head: Cell?
    ghost var items: seq<Cell>

    ghost predicate Valid()
      reads this, items
    {
      Linked(items) && head == At(items, 0)
    }

    constructor ()
      ensures Valid() && items == []
    {
      head, items := null, [];
    }

    /** Walk while the new id is not larger, then link the record in before the one found, or behind the last. */
    method Insert(node: Cell, id: Cell -> int) returns (ghost k: int)
      requires Valid() && node !in items
      modifies this, items, node
      ensures Valid() && 0 <= k <= |old(items)| && items == Inserted(old(items), k, node)
      ensures forall i :: 0 <= i < k ==> id(old(items)[i]) >= id(node)
      ensures k < |old(items)| ==> id(old(items)[k]) < id(node)
    {
      ghost var s := items;
      k := 0;
      if head == null {
        node.prev, node.next := null, null;
        head := node;
        items := Inserted(s, 0, node);
        return;
      }
      var temp := head;
      while id(node) <= id(temp) && temp.next != null
        invariant 0 <= k < |s| && temp == s[k] && forall i :: 0 <= i < k ==> id(s[i]) >= id(node)
        invariant Valid() && items == s
        decreases |s| - k
      {
        LinkedAt(s, k);
        temp := temp.next;
        k := k + 1;
      }
      LinkedAt(s, k);
      hide Linked;
      InsertedAt(s, k, node, 0);
      if id(node) > id(temp) {
        if temp.prev == null { head := node; }
        LinkBefore(node, temp, s, k);
      } else {
        k := k + 1;
        InsertedAt(s, k, node, 0);
        LinkLast(node, temp, s);
      }
      items := Inserted(s, k, node);
    }
  }

  lemma OpenedAt(s: seq<Cell>, k: int, node: Cell, i: int)
    requires 0 <= k <= |s| && 0 <= i <= |s|
    requires node.next == At(s, k) && node.prev == At(s, k - 1)
    requires i < |s| ==>
      s[i].next == (if i == k - 1 then node else At(s, i + 1)) && s[i].prev == (if i == k then node else At(s, i - 1))
    requires 0 < i ==>
      s[i - 1].next == (if i == k then node else At(s, i)) &&
      s[i - 1].prev == (if i - 1 == k then node else At(s, i - 2))
    ensures LinksAt(Inserted(s, k, node), i)
  {
    hide Inserted;
    InsertedAt(s, k, node, i - 1);
    InsertedAt(s, k, node, i);
    InsertedAt(s, k, node, i + 1);
  }

  /** The links of cell i once node stands before the cell at k. */
  ghost predicate OpenedFor(s: seq<Cell>, k: int, node: Cell, i: int)
    requires 0 <= i < |s|
    reads s
  {
    s[i].next == (if i == k - 1 then node else At(s, i + 1)) && s[i].prev == (if i == k then node else At(s, i - 1))
  }

  lemma Opened(s: seq<Cell>, k: int, node: Cell)
    requires 0 <= k <= |s| && node !in s && NoRepeats(s)
    requires node.next == At(s, k) && node.prev == At(s, k - 1)
    requires forall i {:trigger OpenedFor(s, k, node, i)} :: 0 <= i < |s| ==> OpenedFor(s, k, node, i)
    ensures Linked(Inserted(s, k, node))
  {
    InsertedDistinct(s, k, node);
    hide Inserted, LinksAt, NoRepeats;
    forall i | 0 <= i <= |s|
      ensures LinksAt(Inserted(s, k, node), i)
    {
      assert i < |s| ==> OpenedFor(s, k, node, i);
      assert 0 < i ==> OpenedFor(s, k, node, i - 1);
      OpenedAt(s, k, node, i);
    }
  }

  lemma InsertedDistinct(s: seq<Cell>, k: int, node: Cell)
    requires 0 <= k <= |s| && node !in s && NoRepeats(s)
    ensures NoRepeats(Inserted(s, k, node))
  {
    var t := Inserted(s, k, node);
    forall i, j | 0 <= i < j < |t|
      ensures t[i] != t[j]
    {
      InsertedAt(s, k, node, i);
      InsertedAt(s, k, node, j);
    }
  }

  /** Link a record in before another. */
  method LinkBefore(node: Cell, temp: Cell, ghost s: seq<Cell>, ghost k: int)
    requires Linked(s) && 0 <= k < |s| && temp == s[k] && node !in s
    modifies node, s
    ensures Linked(Inserted(s, k, node))
  {
    LinkedAt(s, k);
    node.prev := temp.prev;
    node.next := temp;
    if temp.prev != null { temp.prev.next := node; }
    temp.prev := node;
    forall i | 0 <= i < |s|
      ensures OpenedFor(s, k, node, i)
    {
      assert old(LinksAt(s, i));
    }
    hide Linked, LinksAt;
    Opened(s, k, node);
  }

  /** Link a record in behind the last. */
  method LinkLast(node: Cell, temp: Cell, ghost s: seq<Cell>)
    requires Linked(s) && |s| > 0 && temp == s[|s| - 1] && node !in s
    modifies node, temp
    ensures Linked(Inserted(s, |s|, node))
  {
    node.prev := temp;
    node.next := null;
    temp.next := node;
    forall i | 0 <= i < |s|
      ensures OpenedFor(s, |s|, node, i)
    {
      assert old(LinksAt(s, i));
    }
    hide Linked, LinksAt;
    Opened(s, |s|, node);
  }

  // ---- What the cells stand for ----

  ghost function Records<T>(s: seq<Cell>, rec: Cell -> T): (r: seq<T>)
    ensures |r| == |s|
  {
    seq(|s|, i requires 0 <= i < |s| => rec(s[i]))
  }

  lemma RecordsAppend<T>(s: seq<Cell>, c: Cell, rec: Cell -> T)
    ensures Records(s + [c], rec) == Records(s, rec) + [rec(c)]
  {
  }

  /** Unlinking the deletable cells is the prune pass of the message log. */
  lemma {:induction false} PrunesMessages(s: seq<Cell>, drop: Cell -> bool, rec: Cell -> MessageLog.Rec)
    requires forall c :: c in s ==> drop(c) == MessageLog.Deletable(rec(c))
    ensures Records(Kept(s, drop), rec) == MessageLog.Pruned(Records(s, rec))
  {
    if s != [] {
      var front, c := s[..|s| - 1], s[|s| - 1];
      PrunesMessages(front, drop, rec);
      assert s == front + [c];
      RecordsAppend(front, c, rec);
      RecordsAppend(Kept(front, drop), c, rec);
      assert Records(s, rec)[..|s| - 1] == Records(front, rec);
    }
  }

  /** Unlinking the cells marked -1 is the prune pass of the collective log. */
  lemma {:induction false} PrunesCollectives(s: seq<Cell>, drop: Cell -> bool, rec: Cell -> CollectiveLog.Coll)
    requires forall c :: c in s ==> drop(c) == (rec(c).id == -1)
    ensures Records(Kept(s, drop), rec) == CollectiveLog.Kept(Records(s, rec))
  {
    if s != [] {
      var front, c := s[..|s| - 1], s[|s| - 1];
      PrunesCollectives(front, drop, rec);
      assert s == front + [c];
      RecordsAppend(front, c, rec);
      RecordsAppend(Kept(front, drop), c, rec);
      assert Records(s, rec)[..|s| - 1] == Records(front, rec);
    }
  }

  /** Linking a cell in where the walk stops is the ordered insertion of the collective log. */
  lemma InsertsCollective(s: seq<Cell>, k: int, node: Cell, rec: Cell -> CollectiveLog.Coll)
    requires 0 <= k <= |s| && CollectiveLog.Descending(Records(s, rec))
    requires (forall i :: 0 <= i < k ==> rec(s[i]).id >= rec(node).id) && (k < |s| ==> rec(s[k]).id < rec(node).id)
    ensures CollectiveLog.InsertedAt(Records(s, rec), Records(Inserted(s, k, node), rec), rec(node), k)
  {
    var r := Records(s, rec);
    assert forall i :: k < i < |r| ==> r[k].id >= r[i].id;
    assert Records(Inserted(s, k, node), rec) == r[..k] + [rec(node)] + r[k..];
  }
}
