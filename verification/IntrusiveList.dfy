/** The intrusive doubly linked list with two sentinels. */
module IntrusiveList {
  import opened NaturalMerge
  import opened Sequences

  class Elem {
    var prev: Elem?
    var next: Elem?

    constructor ()
      ensures prev == null && next == null
    {
      prev, next := null, null;
    }
  }

  /** Both link directions agree with the sequence, and its ends are the sentinels. */
  ghost predicate Chain(s: seq<Elem>)
    reads s
  {
    && |s| >= 2 && NoRepeats(s)
    && s[0].prev == null && s[|s| - 1].next == null
    && (forall i :: 0 <= i < |s| - 1 ==> s[i].next == s[i + 1])
    && (forall i :: 0 < i < |s| ==> s[i].prev == s[i - 1])
  }

  /** Links inside a stretch of elements that may be part of a chain. */
  ghost predicate Inner(s: seq<Elem>)
    reads s
  {
    && NoRepeats(s)
    && (forall i :: 0 <= i < |s| - 1 ==> s[i].next == s[i + 1])
    && (forall i :: 0 < i < |s| ==> s[i].prev == s[i - 1])
  }

  /** Close the chain over [f, l); the stretch keeps its own links. */
  method CutOut(first: Elem, end: Elem, ghost s: seq<Elem>, ghost f: int, ghost l: int, ghost left: Elem,
                ghost right: Elem)
    requires Chain(s) && 0 < f < l < |s| && first == s[f] && end == s[l - 1] && left == s[f - 1] && right == s[l]
    modifies left`next, right`prev
    ensures Chain(s[..f] + s[l..]) && Inner(s[f..l])
  {
    ghost var t := s[..f] + s[l..];
    assert forall i :: 0 <= i < f ==> t[i] == s[i];
    assert forall i :: f <= i < |t| ==> t[i] == s[i + (l - f)];
    assert first.prev == s[f - 1] && end.next == s[l];
    first.prev.next := end.next;
    end.next.prev := first.prev;
  }

  ghost predicate Apart(s: seq<Elem>, t: seq<Elem>) {
    forall i, j :: 0 <= i < |s| && 0 <= j < |t| ==> s[i] != t[j]
  }

  /** Open the chain before the element at b and let the stretch in. */
  method PutIn(before: Elem, first: Elem, end: Elem, ghost t: seq<Elem>, ghost b: int, ghost seg: seq<Elem>,
               ghost left: Elem)
    requires Chain(t) && 0 < b < |t| && before == t[b] && left == t[b - 1]
    requires |seg| > 0 && Inner(seg) && first == seg[0] && end == seg[|seg| - 1] && Apart(t, seg)
    modifies left`next, before`prev, first`prev, end`next
    ensures Chain(t[..b] + seg + t[b..])
  {
    ghost var u := t[..b] + seg + t[b..];
    ghost var n := |seg|;
    assert before.prev == t[b - 1];
    first.prev := before.prev;
    end.next := before;
    before.prev.next := first;
    before.prev := end;
    assert forall i :: 0 <= i < b - 1 ==> t[i].next == t[i + 1];
    assert forall i :: b <= i < |t| - 1 ==> t[i].next == t[i + 1];
    assert forall i :: 0 < i < |t| && i != b ==> t[i].prev == t[i - 1];
    assert forall i :: 0 <= i < n - 1 ==> seg[i].next == seg[i + 1];
    assert forall i :: 0 < i < n ==> seg[i].prev == seg[i - 1];
    Opened(t, b, seg);
  }

  /** Three stretches whose ends point at each other make one chain. */
  lemma Opened(t: seq<Elem>, b: int, seg: seq<Elem>)
    requires |t| >= 2 && 0 < b < |t| && |seg| > 0 && NoRepeats(t) && NoRepeats(seg) && Apart(t, seg)
    requires t[0].prev == null && t[|t| - 1].next == null
    requires forall i :: 0 <= i < |t| - 1 && i != b - 1 ==> t[i].next == t[i + 1]
    requires forall i :: 0 < i < |t| && i != b ==> t[i].prev == t[i - 1]
    requires forall i :: 0 <= i < |seg| - 1 ==> seg[i].next == seg[i + 1]
    requires forall i :: 0 < i < |seg| ==> seg[i].prev == seg[i - 1]
    requires t[b - 1].next == seg[0] && seg[0].prev == t[b - 1] && seg[|seg| - 1].next == t[b]
    requires t[b].prev == seg[|seg| - 1]
    ensures Chain(t[..b] + seg + t[b..])
  {
    var u := t[..b] + seg + t[b..];
    var n := |seg|;
    assert forall i :: 0 <= i < b ==> u[i] == t[i];
    assert forall i :: b <= i < b + n ==> u[i] == seg[i - b];
    assert forall i :: b + n <= i < |u| ==> u[i] == t[i - n];
  }

  /** list_splice: take [f, l) out of the chain s and put it before the element at b of the chain t,
      which is either what is left of s or another list. */
  method Splice(before: Elem, first: Elem, last: Elem, ghost s: seq<Elem>, ghost f: int, ghost l: int,
                ghost t: seq<Elem>, ghost b: int)
    requires Chain(s) && 0 < f <= l < |s| && first == s[f] && last == s[l]
    requires t == s[..f] + s[l..] || (Chain(t) && Apart(s, t))
    requires 0 < b < |t| && before == t[b]
    modifies s, t
    ensures Chain(t[..b] + s[f..l] + t[b..])
    ensures Apart(s, t) ==> Chain(s[..f] + s[l..])
  {
    hide Chain, Inner;
    if first == last {
      SameSpot(s, f, l);
      assert s[..f] + s[l..] == s && t[..b] + s[f..l] + t[b..] == t;
      return;
    }
    PrevOf(s, l);
    RestApart(s, f, l);
    var end := last.prev;
    CutOut(first, end, s, f, l, s[f - 1], s[l]);
    ghost var seg := s[f..l];
    PutIn(before, first, end, t, b, seg, t[b - 1]);
  }

  class List {
    const head: Elem
    const tail: Elem
    ghost var items: seq<Elem>

    ghost function All(): seq<Elem>
      reads this
    {
      [head] + items + [tail]
    }

    ghost function Nodes(): set<Elem>
      reads this
    {
      set e | e in All()
    }

    ghost predicate Valid()
      reads this, All()
    {
      Chain(All())
    }

    constructor ()
      ensures Valid() && items == [] && fresh(head) && fresh(tail)
    {
      head := new Elem();
      tail := new Elem();
      items := [];
      new;
      head.next := tail;
      tail.prev := head;
    }

    /** find_end_of_run, up to the end of the list. */
    method FindEndOfRun(a: Elem, less: (Elem, Elem) -> bool, ghost i: int) returns (e: Elem, ghost j: int)
      requires Valid() && 0 <= i < |items| && a == items[i]
      ensures i < j <= |items| && e == All()[j + 1]
      ensures IsRun(less, items[i..j]) && (j < |items| ==> less(items[j], items[j - 1]))
    {
      ghost var s := All();
      j := i + 1;
      assert s[i + 1] == a && s[i + 1].next == s[i + 2];
      e := a.next;
      while e != tail && !less(e, e.prev)
        invariant i < j <= |items| && e == s[j + 1] && s == All()
        invariant j < |items| ==> e.prev == items[j - 1]
        invariant IsRun(less, items[i..j])
        decreases |items| - j
      {
        assert s[|s| - 1] == tail;
        assert j < |items|;
        assert items[i..j + 1] == items[i..j] + [items[j]];
        assert s[j + 1].next == s[j + 2];
        e := e.next;
        j := j + 1;
        assert s[j + 1].prev == s[j];
      }
    }

    /** Moves the element at q, and no other, to just before the one at p. */
    method Hoist(before: Elem, elem: Elem, ghost p: int, ghost q: int) returns (next: Elem)
      requires Valid() && 0 <= p < q < |items| && before == items[p] && elem == items[q]
      modifies this`items, Nodes()
      ensures Valid() && items == Hoisted(old(items), p, q) && Nodes() == old(Nodes())
      ensures before == All()[p + 2] && next == All()[q + 2]
      ensures forall k :: q + 2 <= k < |All()| ==> All()[k] == old(All())[k]
    {
      hide Chain, Hoisted;
      ghost var s := All();
      ghost var t := s[..q + 1] + s[q + 2..];
      HoistedIs(s, items, head, tail, p, q);
      SameMembers(head, Hoisted(items, p, q), items, tail);
      Links(s, q + 1);
      next := elem.next;
      Splice(before, next.prev, next, s, q + 1, q + 2, t, p + 1);
      items := Hoisted(items, p, q);
    }

    /** inplace_merge: the two adjacent runs become their merge, everything else stays. */
    method InplaceMerge(a: Elem, mid: Elem, end: Elem, less: (Elem, Elem) -> bool, ghost i: int, ghost m: int,
                        ghost n: int)
      requires Valid() && 0 <= i < m < n <= |items| && a == items[i] && mid == items[m] && end == All()[n + 1]
      modifies this`items, Nodes()
      ensures Valid() && items == Finished(less, old(items), i, m, n)
      ensures Nodes() == old(Nodes()) && All()[n + 1] == end
    {
      hide Chain, Finished, Hoisted, Nodes;
      ghost var p, q := i, m;
      var a0, a1b0 := a, mid;
      while a0 != a1b0 && a1b0 != end
        invariant Valid() && i <= p <= q <= n <= |items| == |old(items)| && Nodes() == old(Nodes())
        invariant a0 == All()[p + 1] && a1b0 == All()[q + 1] && end == All()[n + 1]
        invariant Finished(less, items, p, q, n) == Finished(less, old(items), i, m, n)
        decreases n - p
      {
        if !less(a1b0, a0) {
          Links(All(), p + 1);
          KeepsLeft(less, items, p, q, n);
          a0 := a0.next;
        } else {
          MovesRight(less, items, p, q, n);
          a1b0 := Hoist(a0, a1b0, p, q);
          q := q + 1;
        }
        p := p + 1;
      }
      if a0 == a1b0 { SameSpot(All(), p + 1, q + 1); } else { SameSpot(All(), q + 1, n + 1); }
      NothingLeft(less, items, p, q, n);
    }

    /** One pass of list_sort: merge neighbouring runs two by two; cnt is the number of runs put out. */
    method Pass(less: (Elem, Elem) -> bool) returns (cnt: int)
      requires Valid() && StrictWeak(less, items)
      modifies this`items, Nodes()
      ensures Valid() && Nodes() == old(Nodes()) && StableRearrangement(less, old(items), items)
      ensures RunCount(less, items) <= cnt && (cnt > 1 ==> RunCount(less, items) < RunCount(less, old(items)))
    {
      hide Chain, Finished, Nodes, StrictWeak, StableRearrangement, RunCount, IsRun;
      ghost var s, p := items, 0;
      Unmoved(less, items);
      cnt := 0;
      FirstLink(All());
      var a0 := head.next;
      while a0 != tail
        invariant Valid() && Nodes() == old(Nodes()) && 0 <= p <= |items| == |s| && a0 == All()[p + 1]
        invariant StrictWeak(less, items) && StableRearrangement(less, s, items) && items[p..] == s[p..]
        invariant RunCount(less, items[..p]) <= cnt && 2 * cnt + RunCount(less, s[p..]) == RunCount(less, s)
        decreases |s| - p
      {
        cnt := cnt + 1;
        ghost var m, n;
        var a1b0, b1;
        a1b0, m := FindEndOfRun(a0, less, p);
        if a1b0 == tail {
          SameSpot(All(), m + 1, |items| + 1);
          assert items[p..m] == items[p..];
          LastRun(less, items, p);
          return;
        }
        b1, n := FindEndOfRun(a1b0, less, m);
        ghost var it := items;
        MergedStable(less, it, p, m, n);
        MergedRuns(less, it, p, m, n);
        InplaceMerge(a0, a1b0, b1, less, p, m, n);
        RearrangementTrans(less, s, it, items);
        StableKeepsOrder(less, it, items);
        assert s[n..] == s[p..][n - p..] && it[n..] == it[p..][n - p..];
        a0, p := b1, n;
      }
      SameSpot(All(), p + 1, |items| + 1);
      assert items[..p] == items && s[p..] == [];
      NoRuns<Elem>(less);
    }

    /** list_sort: passes until one run is left. */
    method Sort(less: (Elem, Elem) -> bool)
      requires Valid() && StrictWeak(less, items)
      modifies this`items, Nodes()
      ensures Valid() && Sorted(less, items) && StableRearrangement(less, old(items), items)
    {
      hide Chain, Nodes, StrictWeak, StableRearrangement, RunCount, Sorted;
      var cnt := Pass(less);
      StableKeepsOrder(less, old(items), items);
      while cnt > 1
        invariant Valid() && Nodes() == old(Nodes()) && StrictWeak(less, items)
        invariant StableRearrangement(less, old(items), items) && RunCount(less, items) <= cnt
        decreases if cnt > 1 then RunCount(less, items) + 1 else 0
      {
        ghost var it := items;
        cnt := Pass(less);
        RunCountNonNegative(less, items);
        RunCountNonNegative(less, it);
        RearrangementTrans(less, old(items), it, items);
        StableKeepsOrder(less, it, items);
      }
      OneRunIsSorted(less, items);
    }
  }

  lemma FirstLink(s: seq<Elem>)
    requires Chain(s)
    ensures s[0].next == s[1]
  {
  }

  lemma SameMembers(head: Elem, s: seq<Elem>, t: seq<Elem>, tail: Elem)
    requires multiset(s) == multiset(t)
    ensures (set e | e in [head] + s + [tail]) == set e | e in [head] + t + [tail]
  {
    forall e
      ensures e in s <==> e in t
    {
      assert e in multiset(s) <==> e in multiset(t);
    }
  }

  lemma HoistedIs(s: seq<Elem>, it: seq<Elem>, head: Elem, tail: Elem, p: int, q: int)
    requires s == [head] + it + [tail] && 0 <= p < q < |it|
    ensures var t := s[..q + 1] + s[q + 2..];
      && |t| == |s| - 1 && t[p + 1] == it[p] && s[q + 1] == it[q]
      && t[..p + 1] + s[q + 1..q + 2] + t[p + 1..] == [head] + Hoisted(it, p, q) + [tail]
    ensures Hoisted(it, p, q)[p + 1] == it[p] && Hoisted(it, p, q)[q + 1..] == it[q + 1..]
  {
    var t := s[..q + 1] + s[q + 2..];
    assert t[..p + 1] == [head] + it[..p];
    assert s[q + 1..q + 2] == [it[q]];
    assert t[p + 1..] == it[p..q] + it[q + 1..] + [tail];
  }

  /** What a chain says about neighbours. */
  lemma Links(s: seq<Elem>, k: int)
    requires Chain(s) && 0 < k < |s| - 1
    ensures s[k].next == s[k + 1] && s[k + 1].prev == s[k] && s[k].prev == s[k - 1]
  {
  }

  lemma PrevOf(s: seq<Elem>, k: int)
    requires Chain(s) && 0 < k < |s|
    ensures s[k].prev == s[k - 1]
  {
  }

  lemma RestApart(s: seq<Elem>, f: int, l: int)
    requires Chain(s) && 0 <= f <= l <= |s|
    ensures Apart(s[..f] + s[l..], s[f..l])
  {
  }

  lemma SameSpot(s: seq<Elem>, i: int, j: int)
    requires Chain(s) && 0 <= i <= j < |s| && s[i] == s[j]
    ensures i == j
  {
  }
}
