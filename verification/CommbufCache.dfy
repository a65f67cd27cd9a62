/** The communication buffer cache: nine linked bins of returned buffers under one count, most recently returned
    first. */
module CommbufCache {
  import opened RecordLinks
  import opened Sequences

  const BINS := 9
  const ENTRIES := 10240
  const ENTRIES_MAX := 16384

  /** A buffer of that many zero bytes. */
  function Zeros(size: nat): seq<int> { seq(size, i => 0) }

  ghost function Filings(bins: seq<seq<Cell>>): set<Cell> {
    set i, k | 0 <= i < |bins| && 0 <= k < |bins[i]| :: bins[i][k]
  }

  /** Every buffer in a bin has been cleared. */
  ghost predicate Clean(bins: seq<seq<Cell>>)
    reads Filings(bins)`data
  {
    forall i, k :: 0 <= i < |bins| && 0 <= k < |bins[i]| ==> bins[i][k].data == Zeros(bins[i][k].size)
  }

  lemma CleanPrefix(was: seq<seq<Cell>>, now: seq<seq<Cell>>)
    requires Clean(was) && |was| == |now| && forall i :: 0 <= i < |was| ==> now[i] <= was[i]
    ensures Clean(now)
  {
    assert forall i, k :: 0 <= i < |now| && 0 <= k < |now[i]| ==> now[i][k] == was[i][k];
  }

  lemma CleanTake(was: seq<seq<Cell>>, i: int, k: int)
    requires Clean(was) && 0 <= i < |was| && 0 <= k < |was[i]|
    ensures Clean(was[i := was[i][..k] + was[i][k + 1..]])
  {
    var now := was[i := was[i][..k] + was[i][k + 1..]];
    assert forall j, l :: 0 <= j < |now| && 0 <= l < |now[j]| ==>
      now[j][l] == was[j][if j == i && k <= l then l + 1 else l];
  }

  lemma CleanPush(was: seq<seq<Cell>>, i: int, n: Cell)
    requires Clean(was) && 0 <= i < |was| && n.data == Zeros(n.size)
    ensures Clean(was[i := [n] + was[i]])
  {
    var now := was[i := [n] + was[i]];
    assert forall j, l :: 0 <= j < |now| && 0 <= l < |now[j]| ==>
      now[j][l] == if j == i && l == 0 then n else was[j][if j == i then l - 1 else l];
  }

  // ---- Size classes ----

  ghost function Upper(i: nat): (r: nat)
    ensures r >= 8
  {
    if i == 0 then 8 else 4 * Upper(i - 1)
  }

  lemma {:induction false} UpperMonotone(i: nat, j: nat)
    requires i <= j
    ensures Upper(i) <= Upper(j)
  {
    if i < j { UpperMonotone(i, j - 1); }
  }

  /** The smallest bin whose bound admits sz, the last bin admitting everything. */
  ghost function BinFrom(sz: nat, i: nat): (r: nat)
    requires i < BINS
    ensures i <= r < BINS && (r < BINS - 1 ==> sz <= Upper(r)) && (i < r ==> Upper(r - 1) < sz)
    decreases BINS - i
  {
    if i == BINS - 1 || sz <= Upper(i) then i else BinFrom(sz, i + 1)
  }

  ghost function BinOf(sz: nat): (r: nat)
    ensures r < BINS && (r < BINS - 1 ==> sz <= Upper(r)) && (0 < r ==> Upper(r - 1) < sz)
  {
    BinFrom(sz, 0)
  }

  lemma BinIs(sz: nat, i: nat)
    requires i < BINS && (i < BINS - 1 ==> sz <= Upper(i)) && (0 < i ==> Upper(i - 1) < sz)
    ensures BinOf(sz) == i
  {
    hide BinOf, Upper;
    var b := BinOf(sz);
    if b < i { UpperMonotone(b, i - 1); }
    if i < b { UpperMonotone(i, b - 1); }
  }

  /** The upper bounds of all bins but the last, which takes everything. */
  const BOUNDS: seq<int> := [8, 32, 128, 512, 2048, 8192, 32768, 131072]

  lemma {:induction false} UpperIs(i: nat)
    requires i < BINS - 1
    ensures Upper(i) == BOUNDS[i]
  {
    if i > 0 { UpperIs(i - 1); }
  }

  /** A size goes to the bin between whose bounds it lies. */
  lemma BinBetween(sz: nat, i: nat)
    requires i < BINS
    ensures BinOf(sz) == i <==> (i > 0 ==> BOUNDS[i - 1] < sz) && (i < BINS - 1 ==> sz <= BOUNDS[i])
  {
    hide BinOf, Upper;
    var b := BinOf(sz);
    if i > 0 { UpperIs(i - 1); }
    if i < BINS - 1 { UpperIs(i); }
    if (i > 0 ==> BOUNDS[i - 1] < sz) && (i < BINS - 1 ==> sz <= BOUNDS[i]) { BinIs(sz, i); }
  }

  lemma BinMonotone(s: nat, t: nat)
    requires s <= t
    ensures BinOf(s) <= BinOf(t)
  {
    if BinOf(t) < BinOf(s) { UpperMonotone(BinOf(t), BinOf(s) - 1); }
  }

  method GetBinIndex(sz: nat) returns (r: nat)
    ensures r == BinOf(sz)
  {
    if sz <= 8 {
      BinIs(sz, 0);
      return 0;
    }
    var lower, index := 8, 1;
    while index < BINS
      invariant 1 <= index <= BINS && lower == Upper(index - 1) < sz
    {
      var upper := lower * 4;
      if lower < sz <= upper {
        BinIs(sz, index);
        return index;
      }
      lower := upper;
      index := index + 1;
    }
    UpperMonotone(BINS - 2, BINS - 1);
    BinIs(sz, BINS - 1);
    return BINS - 1;
  }

  // ---- Counting ----

  ghost function Total<T>(bins: seq<seq<T>>): (n: nat)
  {
    if bins == [] then 0 else Total(bins[..|bins| - 1]) + |bins[|bins| - 1]|
  }

  lemma {:induction false} TotalUpdate<T>(bins: seq<seq<T>>, i: int, b: seq<T>)
    requires 0 <= i < |bins|
    ensures Total(bins[i := b]) == Total(bins) - |bins[i]| + |b|
  {
    var k := |bins| - 1;
    if i < k {
      TotalUpdate(bins[..k], i, b);
      assert bins[i := b][..k] == bins[..k][i := b];
    } else {
      assert bins[i := b][..k] == bins[..k];
    }
  }

  lemma {:induction false} TotalZero<T>(bins: seq<seq<T>>)
    requires forall i :: 0 <= i < |bins| ==> bins[i] == []
    ensures Total(bins) == 0
  {
    if bins != [] { TotalZero(bins[..|bins| - 1]); }
  }

  // ---- Eviction order ----

  /** The bin reached from start after d steps down, wrapping from bin 0 to the last. */
  function Down(start: int, d: int): (r: int)
    requires 0 <= start < BINS && 0 <= d < BINS
    ensures 0 <= r < BINS
  {
    if start - d < 0 then start - d + BINS else start - d
  }

  lemma DownCovers(start: int, i: int) returns (d: int)
    requires 0 <= start < BINS && 0 <= i < BINS
    ensures 0 <= d < BINS && Down(start, d) == i
  {
    d := if i <= start then start - i else start - i + BINS;
  }

  /** What is left after evicting: the bins before step d are empty, the bin at step d kept a prefix
      (its most recently returned nodes), the bins after it are untouched. */
  ghost predicate Drained<T>(was: seq<seq<T>>, now: seq<seq<T>>, start: int, d: int) {
    && |was| == BINS && |now| == BINS && 0 <= start < BINS && 0 <= d < BINS
    && (forall k :: 0 <= k < d ==> now[Down(start, k)] == [])
    && now[Down(start, d)] <= was[Down(start, d)]
    && (forall k :: d < k < BINS ==> now[Down(start, k)] == was[Down(start, k)])
  }

  /** Eviction goes down from the starting bin to bin 0 and then down from the last bin: a bin has lost something only
      if all bins before it in that order are empty, and it has lost what was returned first. */
  ghost predicate InTurn<T>(was: seq<seq<T>>, now: seq<seq<T>>, start: int) {
    && |was| == |now| == BINS && 0 <= start < BINS
    && (forall i :: 0 <= i < BINS ==> now[i] <= was[i])
    && (forall i, k :: 0 <= i < k <= start && now[i] != was[i] ==> now[k] == [])
    && (forall i, k :: 0 <= k <= start < i < BINS && now[i] != was[i] ==> now[k] == [])
    && (forall i, k :: start < i < k < BINS && now[i] != was[i] ==> now[k] == [])
  }

  lemma DrainedInTurn<T>(was: seq<seq<T>>, now: seq<seq<T>>, start: int, d: int)
    requires Drained(was, now, start, d)
    ensures InTurn(was, now, start)
  {
    DrainedPrefix(was, now, start, d);
    forall i, k | 0 <= i < BINS && 0 <= k < BINS && now[i] != was[i] && Steps(start, k) < Steps(start, i)
      ensures now[k] == []
    {
      assert Down(start, Steps(start, i)) == i && Down(start, Steps(start, k)) == k;
    }
  }

  /** How many steps down from the start a bin is. */
  ghost function Steps(start: int, i: int): (d: int)
    requires 0 <= start < BINS && 0 <= i < BINS
    ensures 0 <= d < BINS
  {
    if i <= start then start - i else start - i + BINS
  }

  lemma DrainedPrefix<T>(was: seq<seq<T>>, now: seq<seq<T>>, start: int, d: int)
    requires Drained(was, now, start, d)
    ensures forall i :: 0 <= i < BINS ==> now[i] <= was[i]
  {
    forall i | 0 <= i < BINS
      ensures now[i] <= was[i]
    {
      var k := DownCovers(start, i);
    }
  }

  lemma DrainedMore<T>(was: seq<seq<T>>, now: seq<seq<T>>, start: int, d: int)
    requires Drained(was, now, start, d)
    ensures now[Down(start, d)] == [] && d + 1 < BINS ==> Drained(was, now, start, d + 1)
    ensures var i := Down(start, d); now[i] != [] ==> Drained(was, now[i := now[i][..|now[i]| - 1]], start, d)
  {
    assert forall k :: 0 <= k < BINS && k != d ==> Down(start, k) != Down(start, d);
  }

  /** If nothing is left at any step, nothing is left. */
  lemma DrainedAll<T>(was: seq<seq<T>>, now: seq<seq<T>>, start: int)
    requires Drained(was, now, start, BINS - 1) && now[Down(start, BINS - 1)] == []
    ensures Total(now) == 0
  {
    forall i | 0 <= i < BINS
      ensures now[i] == []
    {
      var k := DownCovers(start, i);
    }
    TotalZero(now);
  }

  // ---- The invariant ----

  /** The nodes of bin i: of its sizes, stamped on return, each returned later than the ones behind it. */
  ghost predicate FiledBin(b: seq<Cell>, i: int, stamp: map<Cell, int>, clock: int) {
    && (forall k :: 0 <= k < |b| ==> BinOf(b[k].size) == i && b[k] in stamp && stamp[b[k]] < clock)
    && (forall k, l :: 0 <= k < l < |b| ==> stamp[b[k]] > stamp[b[l]])
  }

  ghost predicate Filed(bins: seq<seq<Cell>>, stamp: map<Cell, int>, clock: int) {
    |bins| == BINS && forall i :: 0 <= i < BINS ==> FiledBin(bins[i], i, stamp, clock)
  }

  ghost predicate InNoBin(bins: seq<seq<Cell>>, n: Cell) {
    forall i :: 0 <= i < |bins| ==> n !in bins[i]
  }

  /** No node is filed twice, in one bin or in two. */
  lemma FiledOnce(bins: seq<seq<Cell>>, stamp: map<Cell, int>, clock: int, i: int, k: int, j: int, l: int)
    requires Filed(bins, stamp, clock)
    requires 0 <= i < BINS && 0 <= k < |bins[i]| && 0 <= j < BINS && 0 <= l < |bins[j]| && bins[i][k] == bins[j][l]
    ensures i == j && k == l
  {
    hide BinOf;
    assert FiledBin(bins[i], i, stamp, clock) && FiledBin(bins[j], j, stamp, clock);
  }

  lemma PushOne(b: seq<Cell>, i: int, stamp: map<Cell, int>, clock: int, n: Cell)
    requires FiledBin(b, i, stamp, clock) && n !in b
    ensures FiledBin(b, i, stamp[n := clock], clock + 1)
    ensures BinOf(n.size) == i ==> FiledBin([n] + b, i, stamp[n := clock], clock + 1)
  {
    hide BinOf;
    assert forall k :: 0 <= k < |b| ==> b[k] != n;
  }

  lemma FiledPush(bins: seq<seq<Cell>>, stamp: map<Cell, int>, clock: int, n: Cell)
    requires Filed(bins, stamp, clock) && InNoBin(bins, n)
    ensures var i := BinOf(n.size); Filed(bins[i := [n] + bins[i]], stamp[n := clock], clock + 1)
  {
    hide BinOf, FiledBin;
    forall j | 0 <= j < BINS
      ensures FiledBin(bins[j], j, stamp[n := clock], clock + 1)
      ensures BinOf(n.size) == j ==> FiledBin([n] + bins[j], j, stamp[n := clock], clock + 1)
    {
      PushOne(bins[j], j, stamp, clock, n);
    }
  }

  lemma TakeOne(b: seq<Cell>, i: int, stamp: map<Cell, int>, clock: int, k: int)
    requires FiledBin(b, i, stamp, clock) && 0 <= k < |b|
    ensures FiledBin(b[..k] + b[k + 1..], i, stamp, clock) && b[k] !in b[..k] + b[k + 1..]
  {
    hide BinOf;
    var r := b[..k] + b[k + 1..];
    assert forall l :: 0 <= l < |r| ==> r[l] == b[if k <= l then l + 1 else l];
  }

  ghost predicate ReturnedAfter(stamp: map<Cell, int>, n: Cell, m: Cell) {
    n in stamp && m in stamp && stamp[n] > stamp[m]
  }

  lemma LastIsOldest(front: seq<Cell>, last: Cell, i: int, stamp: map<Cell, int>, clock: int)
    requires FiledBin(front + [last], i, stamp, clock)
    ensures forall n :: n in front ==> ReturnedAfter(stamp, n, last)
  {
    var b := front + [last];
    assert forall k :: 0 <= k < |front| ==> b[k] == front[k];
    assert b[|front|] == last;
  }

  lemma FiledTake(bins: seq<seq<Cell>>, stamp: map<Cell, int>, clock: int, i: int, k: int)
    requires Filed(bins, stamp, clock) && 0 <= i < BINS && 0 <= k < |bins[i]|
    ensures var now := bins[i := bins[i][..k] + bins[i][k + 1..]];
      Filed(now, stamp, clock) && InNoBin(now, bins[i][k])
  {
    hide BinOf, FiledBin;
    TakeOne(bins[i], i, stamp, clock, k);
    forall j | 0 <= j < BINS && j != i
      ensures bins[i][k] !in bins[j]
    {
      if l :| 0 <= l < |bins[j]| && bins[j][l] == bins[i][k] { FiledOnce(bins, stamp, clock, j, l, i, k); }
    }
  }

  lemma FiledEvict(bins: seq<seq<Cell>>, stamp: map<Cell, int>, clock: int, i: int)
    requires Filed(bins, stamp, clock) && 0 <= i < BINS && bins[i] != []
    ensures var k := |bins[i]| - 1; var now := bins[i := bins[i][..k]];
      && Filed(now, stamp, clock) && InNoBin(now, bins[i][k]) && Total(now) == Total(bins) - 1
      && (forall n :: n in now[i] ==> ReturnedAfter(stamp, n, bins[i][k]))
  {
    hide FiledBin, Total;
    var k := |bins[i]| - 1;
    assert bins[i] == bins[i][..k] + [bins[i][k]];
    LastIsOldest(bins[i][..k], bins[i][k], i, stamp, clock);
    FiledTake(bins, stamp, clock, i, k);
    TotalUpdate(bins, i, bins[i][..k]);
    assert bins[i][..k] + bins[i][k + 1..] == bins[i][..k];
  }

  // ---- The linked bins ----

  /** The cells of this bin, in order. */
  ghost predicate TiedAt(l: Bin, b: seq<Cell>)
    reads l, b
  {
    l.items == b && l.Valid()
  }

  /** Nine bins, linked separately. */
  ghost predicate Tied(lists: seq<Bin>, bins: seq<seq<Cell>>)
    reads lists, Filings(bins)
  {
    && |lists| == |bins| == BINS && NoRepeats(lists)
    && forall i :: 0 <= i < BINS ==> TiedAt(lists[i], bins[i])
  }

  ghost predicate Apart(b: seq<Cell>, c: seq<Cell>) {
    forall n :: n in b ==> n !in c
  }

  ghost predicate Separate(bins: seq<seq<Cell>>) {
    forall i, j :: 0 <= i < |bins| && 0 <= j < |bins| && i != j ==> Apart(bins[i], bins[j])
  }

  lemma FiledSeparate(bins: seq<seq<Cell>>, stamp: map<Cell, int>, clock: int)
    requires Filed(bins, stamp, clock)
    ensures Separate(bins)
  {
    hide BinOf;
    forall i, j, n | 0 <= i < BINS && 0 <= j < BINS && i != j && n in bins[i]
      ensures n !in bins[j]
    {
      assert FiledBin(bins[i], i, stamp, clock) && FiledBin(bins[j], j, stamp, clock);
    }
  }

  /** The links of a node that is in no bin. */
  ghost predicate Idle(n: Cell)
    reads n`next, n`prev
  {
    n.next == null && n.prev == null
  }

  method LinkHead(lists: seq<Bin>, ghost bins: seq<seq<Cell>>, i: nat, n: Cell)
    requires Tied(lists, bins) && Separate(bins) && i < BINS && InNoBin(bins, n) && Idle(n)
    modifies lists, Filings(bins)`prev, n`next
    ensures Tied(lists, bins[i := [n] + bins[i]])
  {
    hide Bin.Valid;
    assert TiedAt(lists[i], bins[i]);
    lists[i].PushHead(n);
    forall j | 0 <= j < BINS && j != i
      ensures TiedAt(lists[j], bins[j])
    {
      assert old(TiedAt(lists[j], bins[j])) && lists[j] != lists[i];
      forall c | c in bins[j]
        ensures c.next == old(c.next) && c.prev == old(c.prev) && c.data == old(c.data)
      {
        assert Apart(bins[j], bins[i]) && c !in bins[i] && c != n;
      }
      assert forall c :: c in bins[j] ==> unchanged(c);
    }
    TiedAfter(lists, bins, i, [n] + bins[i]);
  }

  method UnlinkAt(lists: seq<Bin>, ghost bins: seq<seq<Cell>>, i: nat, n: Cell, ghost k: nat)
    requires Tied(lists, bins) && Separate(bins) && i < BINS && k < |bins[i]| && n == bins[i][k]
    modifies lists, Filings(bins)`next, Filings(bins)`prev
    ensures Tied(lists, bins[i := bins[i][..k] + bins[i][k + 1..]]) && Idle(n)
  {
    hide Bin.Valid;
    assert TiedAt(lists[i], bins[i]);
    lists[i].Remove(n, k);
    forall j | 0 <= j < BINS && j != i
      ensures TiedAt(lists[j], bins[j])
    {
      assert old(TiedAt(lists[j], bins[j])) && lists[j] != lists[i];
      forall c | c in bins[j]
        ensures c.next == old(c.next) && c.prev == old(c.prev) && c.data == old(c.data)
      {
        assert Apart(bins[j], bins[i]) && c !in bins[i];
      }
      assert forall c :: c in bins[j] ==> unchanged(c);
    }
    TiedAfter(lists, bins, i, bins[i][..k] + bins[i][k + 1..]);
  }

  method UnlinkTail(lists: seq<Bin>, ghost bins: seq<seq<Cell>>, i: nat) returns (evicted: Cell?)
    requires Tied(lists, bins) && Separate(bins) && i < BINS
    modifies lists, Filings(bins)`next
    ensures evicted == At(bins[i], |bins[i]| - 1)
    ensures Tied(lists, if evicted == null then bins else bins[i := bins[i][..|bins[i]| - 1]])
  {
    hide Bin.Valid;
    assert TiedAt(lists[i], bins[i]);
    evicted := lists[i].EvictTail();
    forall j | 0 <= j < BINS && j != i
      ensures TiedAt(lists[j], bins[j])
    {
      assert old(TiedAt(lists[j], bins[j])) && lists[j] != lists[i];
      forall c | c in bins[j]
        ensures c.next == old(c.next) && c.prev == old(c.prev) && c.data == old(c.data)
      {
        assert Apart(bins[j], bins[i]) && c !in bins[i];
      }
      assert forall c :: c in bins[j] ==> unchanged(c);
    }
    TiedAfter(lists, bins, i, lists[i].items);
    assert bins[i := bins[i]] == bins;
  }

  /** commbuf_node_insert of a node into a bin, then commbuf_node_remove of the same node; the count goes up and down
      again. */
  method LinkAndUnlink(lists: seq<Bin>, ghost bins: seq<seq<Cell>>, b: nat, n: Cell)
    requires Tied(lists, bins) && Separate(bins) && b < BINS && InNoBin(bins, n) && Idle(n)
    modifies lists, Filings(bins)`next, Filings(bins)`prev, n`next, n`prev
    ensures Tied(lists, bins) && Idle(n)
  {
    TiedSize(lists, bins);
    hide Tied, Filings, Separate, InNoBin;
    StillSeparate(bins, b, n);
    WithOneMore(bins, b, n);
    ghost var with := bins[b := [n] + bins[b]];
    LinkHead(lists, bins, b, n);
    UnlinkAt(lists, with, b, n, 0);
  }

  lemma WithOneMore(bins: seq<seq<Cell>>, b: int, n: Cell)
    requires 0 <= b < |bins|
    ensures var with := bins[b := [n] + bins[b]];
      with[b := with[b][..0] + with[b][1..]] == bins && Filings(with) <= Filings(bins) + {n}
  {
    var with := bins[b := [n] + bins[b]];
    assert with[b][..0] + with[b][1..] == bins[b];
    forall c | c in Filings(with)
      ensures c in Filings(bins) + {n}
    {
      var i, k :| 0 <= i < |with| && 0 <= k < |with[i]| && c == with[i][k];
      assert c == n || c == bins[i][if i == b then k - 1 else k];
    }
  }

  lemma TiedSize(lists: seq<Bin>, bins: seq<seq<Cell>>)
    requires Tied(lists, bins)
    ensures |bins| == BINS
  {
  }

  /** A bin has changed, the others have not. */
  lemma TiedAfter(lists: seq<Bin>, bins: seq<seq<Cell>>, i: int, b: seq<Cell>)
    requires |lists| == |bins| == BINS && NoRepeats(lists) && 0 <= i < BINS && TiedAt(lists[i], b)
    requires forall j :: 0 <= j < BINS && j != i ==> TiedAt(lists[j], bins[j])
    ensures Tied(lists, bins[i := b])
  {
  }

  /** The bins are linked and hold cleared buffers of their sizes, the newest first; the count is theirs; what is handed
      out is in no bin. */
  ghost predicate Sound(lists: seq<Bin>, bins: seq<seq<Cell>>, count: int, lent: set<Cell>, stamp: map<Cell, int>,
                        clock: int)
    reads lists, Filings(bins), lent
  {
    && Tied(lists, bins) && Filed(bins, stamp, clock) && Clean(bins)
    && count == Total(bins) && 0 <= count <= ENTRIES_MAX
    && forall n :: n in lent ==> InNoBin(bins, n) && Idle(n)
  }

  // ---- The cache ----

  class Cache {
    const lists: seq<Bin>
    var count: int
    /** What the bins hold. */
    ghost var bins: seq<seq<Cell>>
    /** The buffers handed out and not yet returned. */
    ghost var lent: set<Cell>
    /** When each buffer was last returned. */
    ghost var stamp: map<Cell, int>
    ghost var clock: int

    ghost predicate Valid()
      reads this, lists, Filings(bins), lent
    {
      Sound(lists, bins, count, lent, stamp, clock)
    }

    /** The new state, once its bins are linked. */
    method Record(ghost b: seq<seq<Cell>>, n: int, ghost l: set<Cell>, ghost s: map<Cell, int>, ghost c: int)
      requires Sound(lists, b, n, l, s, c)
      modifies this
      ensures Valid() && bins == b && count == n && lent == l && stamp == s && clock == c
    {
      hide Filed, Total, InNoBin;
      bins, count := b, n;
      lent, stamp, clock := l, s, c;
      assert forall x :: x in Filings(b) ==> unchanged(x);
    }

    constructor ()
      ensures Valid() && count == 0 && lent == {} && forall l :: l in lists ==> fresh(l)
    {
      var ls: seq<Bin> := [];
      for i := 0 to BINS
        invariant |ls| == i && NoRepeats(ls) && forall k :: 0 <= k < i ==> fresh(ls[k]) && TiedAt(ls[k], [])
      {
        var l := new Bin();
        ls := ls + [l];
      }
      lists := ls;
      bins := seq(BINS, i => []);
      count := 0;
      lent, stamp, clock := {}, map[], 0;
      new;
      TotalZero(bins);
    }

    /** commbuf_node_find: the most recently returned node of the request's bin that is large enough. */
    method Find(size: nat) returns (n: Cell?, ghost k: nat)
      requires Valid()
      ensures k <= |bins[BinOf(size)]| && n == At(bins[BinOf(size)], k) && (n != null ==> size <= n.size)
      ensures forall l :: 0 <= l < k ==> bins[BinOf(size)][l].size < size
    {
      hide FiledBin, Total, BinOf, Linked;
      var i := GetBinIndex(size);
      assert TiedAt(lists[i], bins[i]);
      n, k := lists[i].head, 0;
      while n != null
        invariant k <= |bins[i]| && n == At(bins[i], k) && forall l :: 0 <= l < k ==> bins[i][l].size < size
        decreases |bins[i]| - k
      {
        if size <= n.size { return; }
        LinkedAt(bins[i], k);
        n, k := n.next, k + 1;
      }
    }

    /** commbuf_node_evict on one bin: its least recently returned node goes. */
    method Evict(i: nat) returns (evicted: Cell?)
      requires Valid() && i < BINS
      modifies this, lists, Filings(bins)`next
      ensures Valid() && evicted == At(old(bins[i]), |old(bins[i])| - 1)
      ensures lent == old(lent) && stamp == old(stamp) && clock == old(clock)
      ensures evicted == null ==> bins == old(bins) && count == old(count)
      ensures evicted != null ==> bins == old(bins)[i := old(bins[i])[..|old(bins[i])| - 1]] && count == old(count) - 1
      ensures evicted != null ==>
        InNoBin(bins, evicted) && forall n :: n in bins[i] ==> ReturnedAfter(stamp, n, evicted)
    {
      hide Filed, Total, Tied, Clean, InNoBin;
      FiledSeparate(bins, stamp, clock);
      FiledSize(bins, stamp, clock);
      LentApart(bins, lent);
      ghost var was := bins;
      evicted := UnlinkTail(lists, bins, i);
      forall m | m in lent
        ensures Idle(m)
      {
        assert old(Idle(m)) && m !in Filings(was);
      }
      if evicted == null { return; }
      ghost var now := bins[i := bins[i][..|bins[i]| - 1]];
      FiledEvict(bins, stamp, clock, i);
      LentKept(bins, now, lent);
      CleanPrefix(bins, now);
      Record(now, count - 1, lent, stamp, clock);
    }

    /** The eviction loop of get and return: evict, stepping down and around over empty bins, until there is room. */
    method MakeRoom(start: nat, limit: int) returns (ghost d: int)
      requires Valid() && start < BINS && 0 < limit
      modifies this, lists, Filings(bins)`next
      ensures Valid() && count < limit && lent == old(lent) && stamp == old(stamp) && clock == old(clock)
      ensures old(count) < limit ==> bins == old(bins)
      ensures old(count) >= limit ==> count == limit - 1
      ensures Drained(old(bins), bins, start, d) && InTurn(old(bins), bins, start)
      ensures Filings(bins) <= Filings(old(bins))
    {
      hide Filed, Drained, InNoBin, Tied, InTurn;
      d := 0;
      FiledSize(bins, stamp, clock);
      DrainedStart(bins, start);
      var e := start;
      while count >= limit
        invariant Valid() && Drained(old(bins), bins, start, d) && 0 <= d < BINS && e == Down(start, d)
        invariant Filings(bins) <= Filings(old(bins)) && lent == old(lent) && stamp == old(stamp) && clock == old(clock)
        invariant limit - 1 <= count <= old(count) || (count == old(count) && bins == old(bins))
        invariant count == old(count) ==> bins == old(bins)
        decreases count + (BINS - d)
      {
        FiledSize(bins, stamp, clock);
        DrainedMore(old(bins), bins, start, d);
        var evicted := Evict(e);
        if evicted == null {
          if d == BINS - 1 { DrainedAll(old(bins), bins, start); }
          e := if e - 1 < 0 then BINS - 1 else e - 1;
          d := d + 1;
        }
      }
      DrainedInTurn(old(bins), bins, start, d);
    }

    /** get_commbuf_node, hit: the node found leaves its bin. */
    method TakeFound(n: Cell, ghost i: nat, ghost k: nat)
      requires Valid() && i < BINS && k < |bins[i]| && n == bins[i][k]
      modifies this, lists, Filings(bins)`next, Filings(bins)`prev
      ensures Valid() && stamp == old(stamp) && clock == old(clock) && n.data == Zeros(n.size)
      ensures n !in old(lent) && lent == old(lent) + {n}
      ensures bins == old(bins)[i := old(bins)[i][..k] + old(bins)[i][k + 1..]]
    {
      hide FiledBin, Total, BinOf, Tied;
      BinOfFiled(bins, stamp, clock, i, k);
      FiledSeparate(bins, stamp, clock);
      LentApart(bins, lent);
      ghost var was := bins;
      var b := GetBinIndex(n.size);
      UnlinkAt(lists, bins, b, n, k);
      forall m | m in lent
        ensures Idle(m)
      {
        assert old(Idle(m)) && m !in Filings(was);
      }
      ghost var now := bins[i := bins[i][..k] + bins[i][k + 1..]];
      FiledTake(bins, stamp, clock, i, k);
      CleanTake(bins, i, k);
      TotalUpdate(bins, i, now[i]);
      LentTaken(bins, now, lent, i, k);
      Record(now, count - 1, lent + {n}, stamp, clock);
    }

    /** get_commbuf_node, miss: a new node is made, room is made for it, and it is inserted and taken out at once. */
    method MakeNew(size: nat) returns (n: Cell, ghost d: int)
      requires Valid()
      modifies this, lists, Filings(bins)`next, Filings(bins)`prev
      ensures Valid() && stamp == old(stamp) && clock == old(clock) && fresh(n) && n.size == size
      ensures lent == old(lent) + {n} && count < ENTRIES
      ensures Drained(old(bins), bins, BinOf(size), d) && InTurn(old(bins), bins, BinOf(size))
      ensures if old(count) < ENTRIES then bins == old(bins) else count == ENTRIES - 1
    {
      hide FiledBin, Total, BinOf, Drained, InTurn, Tied;
      n := new Cell(size);
      ghost var was := bins;
      var b := GetBinIndex(n.size);
      d := MakeRoom(b, ENTRIES);
      DrainedPrefix(was, bins, b, d);
      InsertAndRemove(n, b);
      Record(bins, count, lent + {n}, stamp, clock);
    }

    /** The new node goes into its bin and out of it. */
    method InsertAndRemove(n: Cell, b: nat)
      requires Valid() && b < BINS && InNoBin(bins, n) && Idle(n) && n !in lent
      modifies lists, Filings(bins)`next, Filings(bins)`prev, n`next, n`prev
      ensures Valid() && Idle(n)
    {
      hide Filed, Total, Tied, BinOf, InNoBin;
      FiledSeparate(bins, stamp, clock);
      LentApart(bins, lent);
      LinkAndUnlink(lists, bins, b, n);
      forall m | m in lent
        ensures Idle(m)
      {
        assert old(Idle(m)) && m !in Filings(bins) && m != n;
      }
    }

    /** get_commbuf_node. */
    method Get(size: nat) returns (n: Cell, ghost d: int)
      requires Valid()
      modifies this, lists, Filings(bins)`next, Filings(bins)`prev
      ensures Valid() && stamp == old(stamp) && clock == old(clock)
      // the buffer is large enough, is handed out to nobody else and lies in no bin
      ensures size <= n.size && n !in old(lent) && lent == old(lent) + {n} && InNoBin(bins, n)
      // a hit takes one cleared node out of its bin, a miss makes one and evicts down to the lower limit
      ensures !fresh(n) ==> n.data == Zeros(n.size) && exists k :: TookFirstFit(old(bins), bins, size, k, n)
      ensures fresh(n) ==>
        && n.size == size && NoFit(old(bins), size) && count < ENTRIES
        && Drained(old(bins), bins, BinOf(size), d) && InTurn(old(bins), bins, BinOf(size))
      ensures fresh(n) && old(count) < ENTRIES ==> bins == old(bins)
      ensures fresh(n) && old(count) >= ENTRIES ==> count == ENTRIES - 1
    {
      hide FiledBin, Total, BinOf, Drained, InTurn, Tied;
      var found, k := Find(size);
      d := 0;
      if found != null {
        n := found;
        TakeFound(n, BinOf(size), k);
        assert TookFirstFit(old(bins), bins, size, k, n);
      } else {
        n, d := MakeNew(size);
      }
    }

    /** return_commbuf_node. */
    method Return(n: Cell) returns (ghost d: int)
      requires Valid() && n in lent
      modifies this, lists, Filings(bins)`next, Filings(bins)`prev, n`data, n`next
      ensures Valid() && lent == old(lent) - {n}
      ensures stamp == old(stamp)[n := old(clock)] && clock == old(clock) + 1
      ensures exists kept ::
        Drained(old(bins), kept, BinOf(n.size), d) && InTurn(old(bins), kept, BinOf(n.size)) && Pushed(kept, bins, n)
      ensures old(count) < ENTRIES_MAX ==> Pushed(old(bins), bins, n)
      ensures count == if old(count) < ENTRIES_MAX then old(count) + 1 else ENTRIES_MAX
    {
      hide FiledBin, Total, BinOf, Drained, InTurn, Tied;
      LentApart(bins, lent);
      n.data := Zeros(n.size);
      var i := GetBinIndex(n.size);
      d := MakeRoom(i, ENTRIES_MAX);
      Reinsert(n, i);
    }

    /** commbuf_node_reinsert into the bin of the node's size. */
    method Reinsert(n: Cell, i: nat)
      requires Valid() && n in lent && i == BinOf(n.size) && n.data == Zeros(n.size) && count < ENTRIES_MAX
      modifies this, lists, Filings(bins)`prev, n`next
      ensures Valid() && lent == old(lent) - {n} && count == old(count) + 1
      ensures stamp == old(stamp)[n := old(clock)] && clock == old(clock) + 1 && Pushed(old(bins), bins, n)
    {
      hide FiledBin, Total, BinOf, Tied;
      FiledSeparate(bins, stamp, clock);
      LentApart(bins, lent);
      ghost var was := bins;
      LinkHead(lists, bins, i, n);
      forall m | m in lent && m != n
        ensures Idle(m)
      {
        assert old(Idle(m)) && m !in Filings(was);
      }
      ghost var now := bins[i := [n] + bins[i]];
      CleanPush(bins, i, n);
      FiledPush(bins, stamp, clock, n);
      TotalUpdate(bins, i, [n] + bins[i]);
      LentPushed(bins, now, lent - {n}, i, n);
      Record(now, count + 1, lent - {n}, stamp[n := clock], clock + 1);
    }
  }

  lemma BinOfFiled(bins: seq<seq<Cell>>, stamp: map<Cell, int>, clock: int, i: int, k: int)
    requires Filed(bins, stamp, clock) && 0 <= i < BINS && 0 <= k < |bins[i]|
    ensures BinOf(bins[i][k].size) == i
  {
    hide BinOf;
    assert FiledBin(bins[i], i, stamp, clock);
  }

  lemma StillSeparate(bins: seq<seq<Cell>>, b: int, n: Cell)
    requires Separate(bins) && 0 <= b < |bins| && InNoBin(bins, n)
    ensures Separate(bins[b := [n] + bins[b]])
  {
    var with := bins[b := [n] + bins[b]];
    forall i, j | 0 <= i < |bins| && 0 <= j < |bins| && i != j
      ensures Apart(with[i], with[j])
    {
      assert Apart(bins[i], bins[j]);
    }
  }

  ghost predicate Pushed(was: seq<seq<Cell>>, now: seq<seq<Cell>>, n: Cell) {
    |was| == BINS && now == was[BinOf(n.size) := [n] + was[BinOf(n.size)]]
  }

  /** now is was without the first node of the request's bin that is large enough. */
  ghost predicate TookFirstFit(was: seq<seq<Cell>>, now: seq<seq<Cell>>, size: nat, k: int, n: Cell) {
    var i := BinOf(size);
    && |was| == BINS && 0 <= k < |was[i]| && was[i][k] == n
    && (forall l :: 0 <= l < k ==> was[i][l].size < size)
    && now == was[i := was[i][..k] + was[i][k + 1..]]
  }

  ghost predicate NoFit(bins: seq<seq<Cell>>, size: nat) {
    |bins| == BINS && forall n :: n in bins[BinOf(size)] ==> n.size < size
  }

  lemma LentApart(bins: seq<seq<Cell>>, lent: set<Cell>)
    requires forall n :: n in lent ==> InNoBin(bins, n)
    ensures forall n :: n in lent ==> n !in Filings(bins)
  {
  }

  lemma DrainedStart<T>(bins: seq<seq<T>>, start: int)
    requires |bins| == BINS && 0 <= start < BINS
    ensures Drained(bins, bins, start, 0)
  {
  }

  lemma FiledSize(bins: seq<seq<Cell>>, stamp: map<Cell, int>, clock: int)
    requires Filed(bins, stamp, clock)
    ensures |bins| == BINS
  {
  }

  lemma LentKept(was: seq<seq<Cell>>, now: seq<seq<Cell>>, lent: set<Cell>)
    requires |was| == BINS && |now| == BINS && forall i :: 0 <= i < BINS ==> now[i] <= was[i]
    requires forall n :: n in lent ==> InNoBin(was, n)
    ensures forall n :: n in lent ==> InNoBin(now, n)
  {
  }

  lemma LentTaken(was: seq<seq<Cell>>, now: seq<seq<Cell>>, lent: set<Cell>, i: int, k: int)
    requires 0 <= i < |was| && 0 <= k < |was[i]| && now == was[i := was[i][..k] + was[i][k + 1..]]
    requires forall n :: n in lent ==> InNoBin(was, n)
    ensures forall n :: n in lent ==> InNoBin(now, n)
  {
  }

  lemma LentPushed(was: seq<seq<Cell>>, now: seq<seq<Cell>>, lent: set<Cell>, i: int, n: Cell)
    requires 0 <= i < |was| && now == was[i := [n] + was[i]] && n !in lent
    requires forall m :: m in lent ==> InNoBin(was, m)
    ensures forall m :: m in lent ==> InNoBin(now, m)
  {
  }
}
