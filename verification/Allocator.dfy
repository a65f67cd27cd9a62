/** The boundary-tag allocator.  Class `Heaps` holds the heap the C code updates in place and the
    ghost shape that explains it; every public operation keeps `Valid()`. */
module Allocator {
  import opened HeaderWord
  import opened HeapShape
  import opened HeapSteps
  import opened Division

  /** `a` is the one block of g in the middle of an operation, and it is in no list. */
  ghost predicate OnlyLoose(g: Shape, a: int) {
    && a in g.blk && g.blk[a].kind.Loose?
    && forall x :: x in g.blk && x != a ==> Tagged(g.blk[x].kind)
  }

  /** The size field and the footer of a loose block are still (or already) right. */
  ghost predicate Sized(h: Heap, g: Shape, a: int) {
    && a in g.blk && a in h.mem && End(g, a) - 8 in h.mem
    && IsWord(h.mem[a]) && GetSize(h.mem[a]) == g.blk[a].size && h.mem[End(g, a) - 8] == a
  }

  ghost predicate LeftClear(g: Shape, a: int) {
    forall p :: p in g.blk && g.blk[p].kind.Hole? ==> End(g, p) != a
  }

  /** What every operation leaves alone: the base, the live blocks and everything in them. */
  ghost predicate LiveSame(h: Heap, g: Shape, h': Heap, g': Shape) {
    h'.start == h.start && LiveOf(g') == LiveOf(g) && Kept(h.mem, h'.mem, LiveOf(g))
  }

  /** What an internal step leaves alone besides: the end and the fastbins. */
  ghost predicate Same(h: Heap, g: Shape, h': Heap, g': Shape) {
    LiveSame(h, g, h', g') && h'.end == h.end && h'.fastbins == h.fastbins && g'.flists == g.flists
  }

  ghost predicate NoFast(g: Shape) {
    forall a :: a in g.blk ==> !g.blk[a].kind.Fast?
  }

  ghost predicate NoneParked(g: Shape) {
    forall j :: 0 <= j < |g.flists| ==> g.flists[j] == []
  }

  /** A pointer handed to a caller: the block it lives in and the bytes the caller asked for. */
  datatype Handle = Handle(owner: int, len: int)

  /** The caller's bytes lie inside one live block, and either the pointer is the start of the
      block's payload or the word below it, inside the same payload, holds that start. */
  ghost predicate Owns(m: map<int, int>, live: map<int, int>, p: int, u: Handle) {
    && u.owner in live && p % 8 == 0 && 1 <= u.len
    && u.owner + 8 <= p && p + u.len <= u.owner + 24 + live[u.owner]
    && (p != u.owner + 8 ==> u.owner + 16 <= p && p - 8 in m && m[p - 8] == u.owner + 8)
  }

  ghost predicate HandlesOk(m: map<int, int>, live: map<int, int>, hs: map<int, Handle>) {
    && (forall p :: p in hs ==> Owns(m, live, p, hs[p]))
    && (forall p, q :: p in hs && q in hs && p != q ==> hs[p].owner != hs[q].owner)
  }

  lemma HandlesKept(m: map<int, int>, m': map<int, int>, live: map<int, int>, live': map<int, int>,
                    hs: map<int, Handle>)
    requires HandlesOk(m, live, hs) && Kept(m, m', live)
    requires forall p :: p in hs ==> hs[p].owner in live' && live'[hs[p].owner] == live[hs[p].owner]
    ensures HandlesOk(m', live', hs)
  {
    forall p | p in hs
      ensures Owns(m', live', p, hs[p])
    {
      assert Owns(m, live, p, hs[p]);
      if p != hs[p].owner + 8 { assert InPayload(live, hs[p].owner, p - 8); }
    }
  }

  /** No hole filed in bins up to `upto` has room for `size` bytes. */
  ghost predicate NoFit(g: Shape, size: int, upto: int) {
    forall a :: a in g.blk && g.blk[a].kind.Hole? && g.blk[a].kind.bin <= upto ==> g.blk[a].size < size
  }

  /** The heap size the search asks for when it has run out of bins. */
  function NextSize(size: int): int {
    if size < 0x8000_0000 then 2 * size else size + GROWTH_STEP
  }

  /** A heap grows from one size to another by doubling below 2 GiB and by 1 GiB steps from there. */
  ghost predicate GrowsTo(from: int, to: int)
    decreases to - from
  {
    from == to || (0 < from < to && GrowsTo(if from < 0x8000_0000 then 2 * from else from + 0x4000_0000, to))
  }

  lemma NoGrowth(size: int)
    ensures GrowsTo(size, size)
  {
  }

  lemma NextIsLarger(size: int)
    requires 0 < size
    ensures NextSize(size) > size
  {
  }

  lemma {:induction false} GrowsFurther(from: int, mid: int)
    requires 0 < from && GrowsTo(from, mid)
    ensures from <= mid && GrowsTo(from, NextSize(mid))
    decreases mid - from
  {
    if from < mid {
      var next := if from < 0x8000_0000 then 2 * from else from + 0x4000_0000;
      GrowsFurther(next, mid);
    } else {
      assert GrowsTo(NextSize(mid), NextSize(mid));
    }
  }

  /** The sizes at which the bins end, all but the last. */
  const BIN_BOUNDS: seq<int> := [8, 16, 32, 64, 128, 256, 512, 1024]

  lemma {:induction false} Log2Is(n: int, k: int, p: int)
    requires 0 <= k && p == Power(k) && p <= n < 2 * p
    ensures Log2(n) == k
  {
    if k > 0 { Log2Is(n / 2, k - 1, Power(k - 1)); }
  }

  function Power(k: int): (p: int)
    requires 0 <= k
    ensures p >= 1
  {
    if k == 0 then 1 else 2 * Power(k - 1)
  }

  lemma {:induction false} Log2AtLeast(n: int, k: int)
    requires 0 <= k && Power(k) <= n
    ensures Log2(n) >= k
  {
    if k > 0 { Log2AtLeast(n / 2, k - 1); }
  }

  lemma Powers(i: int)
    requires 0 <= i < BIN_COUNT - 1
    ensures Power(i + 3) == BIN_BOUNDS[i] && Power(2) == 4
  {
    assert Power(2) == 4 && Power(4) == 16 && Power(6) == 64 && Power(8) == 256 && Power(10) == 1024;
  }

  ghost predicate InBounds(sz: int, i: int) {
    0 <= i < BIN_COUNT && (i > 0 ==> BIN_BOUNDS[i - 1] <= sz) && (i < BIN_COUNT - 1 ==> sz < BIN_BOUNDS[i])
  }

  lemma InBoundsIs(sz: int, i: int)
    requires 0 <= sz && InBounds(sz, i)
    ensures BinIndex(sz) == i
  {
    var n := if sz < 4 then 4 else sz;
    Powers(if i > 0 then i - 1 else 0);
    if i < BIN_COUNT - 1 {
      Powers(i);
      Log2Is(n, i + 2, Power(i + 2));
    } else {
      Log2AtLeast(n, 10);
    }
  }

  /** A size goes to the bin between whose bounds it lies. */
  lemma BinIndexBetween(sz: int, i: int)
    requires 0 <= sz
    ensures BinIndex(sz) == i <==> InBounds(sz, i)
  {
    hide BinIndex;
    var j := if sz < 8 then 0 else if sz < 16 then 1 else if sz < 32 then 2 else if sz < 64 then 3
      else if sz < 128 then 4 else if sz < 256 then 5 else if sz < 512 then 6 else if sz < 1024 then 7 else 8;
    InBoundsIs(sz, j);
    if InBounds(sz, i) { InBoundsIs(sz, i); }
  }

  lemma {:induction false} Log2Monotone(m: int, n: int)
    requires 1 <= m <= n
    ensures Log2(m) <= Log2(n)
  {
    if m > 1 { Log2Monotone(m / 2, n / 2); }
  }

  /** A larger payload never lands in a smaller bin. */
  lemma BinIndexMonotone(m: int, n: int)
    requires 0 <= m <= n
    ensures BinIndex(m) <= BinIndex(n)
  {
    Log2Monotone(if m < 4 then 4 else m, if n < 4 then 4 else n);
  }

  lemma NoFitBelow(h: Heap, g: Shape, size: int)
    requires Inv(h, g) && 0 <= size
    ensures NoFit(g, size, BinIndex(size) - 1)
  {
    forall a | a in g.blk && g.blk[a].kind.Hole? && g.blk[a].kind.bin <= BinIndex(size) - 1
      ensures g.blk[a].size < size
    {
      if size <= g.blk[a].size { BinIndexMonotone(size, g.blk[a].size); }
    }
  }

  lemma NoFitUpTo(h: Heap, g: Shape, size: int, b: int)
    requires Inv(h, g) && NoFit(g, size, b - 1)
    requires forall a :: a in g.blk && g.blk[a].kind == Hole(b) ==> g.blk[a].size < size
    ensures NoFit(g, size, b)
  {
  }

  lemma NoFitAnywhere(h: Heap, g: Shape, size: int)
    requires Inv(h, g) && NoFit(g, size, BIN_COUNT - 1)
    ensures forall a :: a in g.blk && g.blk[a].kind.Hole? ==> g.blk[a].size < size
  {
  }

  lemma NoFitNowhere(h: Heap, g: Shape, size: int)
    requires Inv(h, g) && NoFit(g, size, BIN_COUNT - 1)
    ensures !HasFit(g, size)
  {
    hide Inv;
    NoFitAnywhere(h, g, size);
  }

  lemma GrowthIsSmall(h: Heap, g: Shape)
    requires Inv(h, g) && h.end - h.start < HEAP_MAX_SIZE
    ensures var sz := NextSize(h.end - h.start) - (h.end - h.start); OVERHEAD <= sz && GrowthFits(h, sz)
  {
    assert h.start in g.blk;
    BoundsOf(h, g);
    WordsOf(h, g, h.start);
    hide Inv;
  }

  const LARGE: int := 256 * 1024
  const MIN_ALLOC: int := 8
  const MIN_LARGE_SIZE: int := 512
  const CONSOLIDATION_THRESHOLD: int := 65536

  function RoundUp32(x: int): int { (x + 31) / 32 * 32 }

  /** How far a large request's pointer is pushed up from the start of its block's payload. */
  function Lead(a: int, size: int): int {
    if size >= LARGE then RoundUp32(a + 8) - (a + 8) else 0
  }

  lemma LeadIsSmall(a: int, size: int)
    requires a % 8 == 0
    ensures 0 <= Lead(a, size) <= 24 && Lead(a, size) % 8 == 0
    ensures size >= LARGE ==> (a + 8 + Lead(a, size)) % 32 == 0
  {
  }

  lemma LeadFits(h: Heap, g: Shape, a: int, size: int)
    requires Inv(h, g) && a in g.blk && size % 8 == 0
    ensures 0 <= Lead(a, size) <= 24 && (size + Lead(a, size)) % 8 == 0
  {
    hide Inv, Lead;
    AlignedStart(h, g, a);
    LeadIsSmall(a, size);
    SumOfWords(size, Lead(a, size));
  }

  lemma AlignedStart(h: Heap, g: Shape, a: int)
    requires Inv(h, g) && a in g.blk
    ensures a % 8 == 0
  {
    assert Aligned(g);
    hide Inv;
  }

  lemma SumOfWords(x: int, y: int)
    requires x % 8 == 0 && y % 8 == 0
    ensures (x + y) % 8 == 0
  {
  }

  /** Bytes a hole must offer for a payload of `size`: room for the displacement of large ones. */
  function Needed(size: int): int { if size >= LARGE then size + 32 else size }

  /** `a` is the one block in the middle of an operation, still linked in bin b, its size and footer right. */
  ghost predicate Leaving(h: Heap, g: Shape, a: int, b: int) {
    && a in g.blk && g.blk[a].kind == Pending(b)
    && (forall x :: x in g.blk && x != a ==> Tagged(g.blk[x].kind))
    && Sized(h, g, a)
  }

  ghost predicate RightClear(g: Shape, a: int)
    requires a in g.blk
  {
    forall p :: p in g.blk && g.blk[p].kind.Hole? ==> End(g, a) != p
  }

  /** What a hole of `have` bytes keeps when `need` are taken from it: the rest is cut off if worth a block. */
  function Left(have: int, need: int): int {
    if have > need + OVERHEAD + MIN_ALLOC then need else have
  }

  /** A block malloc may return for a rounded request of s bytes: room for it, and hardly more. */
  ghost predicate MayServe(owner: int, room: int, s: int) {
    owner % 8 == 0 && room % 8 == 0 && s + Lead(owner, s) <= room <= s + Lead(owner, s) + OVERHEAD + MIN_ALLOC
  }

  /** Block a of g' is the front of a hole of g. */
  ghost predicate CutFrom(g: Shape, a: int, size: int, g': Shape) {
    && a in g.blk && g.blk[a].kind.Hole? && a in g'.blk
    && var have, need := g.blk[a].size, size + Lead(a, size); g'.blk[a].size == if have > need + 40 then need else have
  }

  /** Some hole has room for `size` bytes. */
  ghost predicate HasFit(g: Shape, size: int) {
    exists a :: a in g.blk && g.blk[a].kind.Hole? && g.blk[a].size >= size
  }

  /** Some block of 8 * i bytes is parked. */
  ghost predicate Waiting(g: Shape, i: int) {
    0 <= i < |g.flists| && g.flists[i] != []
  }

  /** Block a, parked last among those of 8 * i bytes, is in use again; nothing else has changed. */
  ghost predicate Reused(g: Shape, i: int, a: int, g': Shape) {
    && Waiting(g, i) && a == g.flists[i][0] && a in g.blk
    && g'.flists == g.flists[i := g.flists[i][1..]] && g'.lists == g.lists
    && g'.blk == g.blk[a := Block(8 * i, Live)]
  }

  /** Block a is parked in front of the others of its size; nothing else has changed. */
  ghost predicate Parked(g: Shape, a: int, g': Shape)
    requires a in g.blk
  {
    var i := g.blk[a].size / 8;
    && 0 <= i < |g.flists| && g'.flists == g.flists[i := [a] + g.flists[i]] && g'.lists == g.lists
    && g'.blk == g.blk[a := Block(g.blk[a].size, Fast(i))]
  }

  /** Block a, with the holes on either side of it, reaches from lo to hi. */
  ghost predicate Spans(g: Shape, a: int, lo: int, hi: int)
    requires a in g.blk
  {
    && (if lo == a then LeftClear(g, a) else HoleAt(g, lo) && End(g, lo) == a)
    && (if hi == End(g, a) then RightClear(g, a) else HoleAt(g, End(g, a)) && hi == End(g, End(g, a)))
  }

  ghost predicate HoleAt(g: Shape, a: int) {
    a in g.blk && g.blk[a].kind.Hole?
  }

  /** The kind of the block itself does not matter. */
  lemma SpansAlike(g: Shape, a: int, lo: int, hi: int)
    requires a in g.blk && g.blk[a].kind.Live? && Spans(Rekind(g, a, Loose), a, lo, hi)
    ensures Spans(g, a, lo, hi)
  {
    var r := Rekind(g, a, Loose);
    assert forall x :: x in g.blk ==> End(r, x) == End(g, x);
    assert forall x :: HoleAt(r, x) <==> HoleAt(g, x);
  }

  /** Before, after absorbing the block below, and after absorbing the block above. */
  lemma SpansAfter(g: Shape, head: int, g1: Shape, node: int, g2: Shape)
    requires head in g.blk && node in g1.blk && node in g2.blk && End(g1, node) == End(g, head) && LeftClear(g1, node)
    requires head < End(g, head) && g1.blk.Keys <= g.blk.Keys
    requires if node == head then g1 == g else node < head && HoleAt(g, node) && End(g, node) == head
    requires forall x :: x in g.blk && x != head && x != node ==> x in g1.blk && g1.blk[x] == g.blk[x]
    requires var next := End(g, head);
      if HoleAt(g1, next) then next < End(g1, next) == End(g2, node) else g2 == g1
    ensures Spans(g, head, node, End(g2, node))
  {
  }

  lemma HoleSize(h: Heap, g: Shape, a: int)
    requires Inv(h, g) && HoleAt(g, a)
    ensures a in h.mem && GetSize(h.mem[a]) == g.blk[a].size
  {
    assert TagsAt(h, g, a);
    WordsOf(h, g, a);
    HeaderFields(true, false, g.blk[a].size);
  }

  lemma EndAbove(h: Heap, g: Shape, a: int)
    requires Inv(h, g) && a in g.blk
    ensures a < End(g, a)
  {
    WordsOf(h, g, a);
  }

  /** Block a is in front of its bin. */
  ghost predicate FirstOf(g: Shape, b: int, a: int) {
    0 <= b < |g.lists| && |g.lists[b]| > 0 && g.lists[b][0] == a
  }

  /** What becomes of a freed block: one of at most 64 bytes is parked; a larger one is merged into one hole with its
      neighbours, and the parked blocks stay parked unless that hole has 64 KiB, when all of them are released. */
  ghost predicate Freed(g: Shape, a: int, g': Shape) {
    && a in g.blk
    && if g.blk[a].size <= 64 then Parked(g, a, g') else exists lo, hi :: Spans(g, a, lo, hi) && Merged(g, lo, hi, g')
  }

  ghost predicate Merged(g: Shape, lo: int, hi: int, g': Shape) {
    if hi - lo - OVERHEAD >= 65536 then NoneParked(g')
    else g'.flists == g.flists && HoleAt(g', lo) && End(g', lo) == hi && FirstOf(g', g'.blk[lo].kind.bin, lo)
  }

  /** Block a is the first of bin b, in list order, with room for `size` bytes. */
  ghost predicate FirstFit(g: Shape, b: int, size: int, a: int) {
    0 <= b < |g.lists| && exists k :: 0 <= k < |g.lists[b]| && FitsAt(g, g.lists[b], k, size, a)
  }

  ghost predicate FitsAt(g: Shape, s: seq<int>, k: int, size: int, a: int)
    requires 0 <= k < |s|
  {
    && s[k] == a && a in g.blk && g.blk[a].size >= size
    && forall j :: 0 <= j < k ==> s[j] in g.blk && g.blk[s[j]].size < size
  }

  /** The hole the search settles for: the first fit of the lowest bin that has one. */
  ghost predicate Chosen(g: Shape, size: int, a: int) {
    exists b :: FirstFit(g, b, size, a) && NoFit(g, size, b - 1)
  }

  /** Which block serves a rounded request, and what else changes on the way. */
  ghost predicate Service(h: Heap, g: Shape, size: int, p: int, owner: int, h': Heap, g': Shape) {
    var reuse := size <= 64 && Waiting(g, size / 8);
    // a small request is served by the block of its size parked last, if there is one
    && (reuse ==> p == owner + 8 && Reused(g, size / 8, owner, g') && h'.end == h.end && h'.bins == h.bins)
    // any other below the large ones by the first fit of the lowest bin that has one
    && (!reuse && size < MIN_LARGE_SIZE && HasFit(g, size) ==>
          && p != NULL && CutFrom(g, owner, size, g') && Chosen(g, size, owner)
          && h'.end == h.end && g'.flists == g.flists)
    // a large one releases the parked blocks, and so does growth, which goes by doublings and steps
    && (size >= MIN_LARGE_SIZE || h'.end != h.end ==> NoneParked(g'))
    && GrowsTo(h.end - h.start, h'.end - h.start)
  }

  /** A request of `size` bytes got the block `a` beside the live blocks `live`, and pointer p into it. */
  ghost predicate PlacedAt(h: Heap, g: Shape, live: map<int, int>, a: int, p: int, size: int) {
    && a in g.blk && a % 8 == 0 && a !in live
    && LiveOf(g) == live[a := g.blk[a].size]
    && p == a + 8 + Lead(a, size)
    && size + Lead(a, size) <= g.blk[a].size <= size + Lead(a, size) + OVERHEAD + MIN_ALLOC
    && (p != a + 8 ==> p - 8 in h.mem && h.mem[p - 8] == a + 8)
  }

  /** Nothing fits and the heap cannot grow. */
  ghost predicate NoRoom(h: Heap, g: Shape, size: int, canGrow: int -> bool) {
    && NoFast(g) && (forall a :: a in g.blk && g.blk[a].kind.Hole? ==> g.blk[a].size < size)
    && (h.end - h.start >= HEAP_MAX_SIZE || !canGrow(NextSize(h.end - h.start)))
  }

  lemma WordsOf(h: Heap, g: Shape, a: int)
    requires Inv(h, g) && a in g.blk
    ensures a in h.mem && a + 8 in h.mem && a + 16 in h.mem && End(g, a) - 8 in h.mem
    ensures h.start <= a < a + OVERHEAD <= End(g, a) <= h.end
    ensures 0 <= g.blk[a].size < TWO62
  {
    WordAddresses(a, g.blk[a].size);
  }

  lemma WordAddresses(a: int, size: int)
    requires a % 8 == 0 && size % 8 == 0
    ensures (a + 8) % 8 == 0 && (a + 16) % 8 == 0 && (a + 24 + size) % 8 == 0
  {
  }

  /** The word below a block is the footer of the block that ends there. */
  lemma FooterBelow(h: Heap, g: Shape, a: int) returns (p: int)
    requires Inv(h, g) && OnlyLoose(g, a) && a != h.start
    ensures p in g.blk && End(g, p) == a && p != a && TagsAt(h, g, p) && a - 8 in h.mem && h.mem[a - 8] == p
    ensures GetHole(h.mem[p]) == g.blk[p].kind.Hole? && GetSize(h.mem[p]) == g.blk[p].size
  {
    assert HasPred(g, a);
    p :| p in g.blk && End(g, p) == a;
    assert TagsAt(h, g, p);
    WordsOf(h, g, p);
    HeaderFields(g.blk[p].kind.Hole?, g.blk[p].kind.Fast?, g.blk[p].size);
  }

  lemma HeaderAbove(h: Heap, g: Shape, a: int)
    requires Inv(h, g) && OnlyLoose(g, a) && End(g, a) != h.end
    ensures var n := End(g, a); n in g.blk && TagsAt(h, g, n)
    ensures var n := End(g, a);
      GetHole(h.mem[n]) == g.blk[n].kind.Hole? && GetSize(h.mem[n]) == g.blk[n].size
  {
    assert HasSucc(h, g, a);
    var n := End(g, a);
    assert TagsAt(h, g, n);
    WordsOf(h, g, n);
    HeaderFields(g.blk[n].kind.Hole?, g.blk[n].kind.Fast?, g.blk[n].size);
  }

  /** The shift-count loop computes the size class. */
  method GetBinIndex(sz: int) returns (index: int)
    requires 0 <= sz
    ensures index == BinIndex(sz)
  {
    index := 0;
    var n := if sz < 4 then 4 else sz;
    ghost var n0 := n;
    n := n / 2;
    while n != 0
      invariant 0 <= n
      invariant n != 0 ==> Log2(n0) == index + 1 + Log2(n)
      invariant n == 0 ==> Log2(n0) == index
      decreases n
    {
      index := index + 1;
      n := n / 2;
    }
    index := index - 2;
    if index > BIN_COUNT - 1 { index := BIN_COUNT - 1; }
  }

  lemma FreshRequest(g: Shape)
    requires g.blk == map[HEAP_BASE := Block(HEAP_SIZE - OVERHEAD, Hole(BinIndex(HEAP_SIZE - OVERHEAD)))]
    ensures Inner(32, TWO64 - 38) == 1 && RoundDown(1) == 0 && Lead(HEAP_BASE, 0) == 0 && HasFit(g, 0)
  {
    assert HEAP_BASE in g.blk && g.blk[HEAP_BASE].kind.Hole?;
  }

  /** What posix_memalign asks malloc for: room for the alignment and the back-pointer, as a size_t. */
  function Inner(alignment: int, size: int): int {
    (size + alignment + 7) % TWO64
  }

  lemma InnerFacts(alignment: int, size: int)
    requires 0 <= alignment < TWO64 && 0 <= size < TWO64
    ensures 0 <= Inner(alignment, size) < TWO64
    ensures size + alignment + 7 < TWO64 ==> Inner(alignment, size) == size + alignment + 7
  {
  }

  /** The word below p is payload of the block. */
  ghost predicate SlotInside(live: map<int, int>, owner: int, p: int) {
    owner in live && p <= owner + 24 + live[owner]
  }

  /** p is orig if that is aligned, otherwise the next aligned address that leaves a word for orig. */
  ghost predicate AlignedUp(orig: int, alignment: int, p: int)
    requires alignment > 0
  {
    && IsMultiple(p, alignment) && p % 8 == 0 && orig <= p <= orig + alignment + 7
    && (p == orig <==> IsMultiple(orig, alignment)) && (p != orig ==> orig + 8 <= p)
  }

  lemma AddThenDrop(hs: map<int, Handle>, p: int, u: Handle)
    requires p !in hs
    ensures hs[p := u] - {p} == hs
  {
  }

  lemma AlignFacts(m: map<int, int>, live: map<int, int>, hs: map<int, Handle>, orig: int, alignment: int)
    requires HandlesOk(m, live, hs) && orig in hs && 8 <= alignment && alignment % 8 == 0
    ensures var r := RoundUp(orig, alignment);
      && orig <= r <= orig + alignment - 1 && r % 8 == 0 && IsMultiple(r, alignment)
      && (r == orig <==> IsMultiple(orig, alignment))
    ensures var r := RoundUp(orig + 8, alignment);
      orig + 8 <= r <= orig + alignment + 7 && r % 8 == 0 && (r - 8) % 8 == 0 && IsMultiple(r, alignment)
  {
    hide IsMultiple, RoundUp;
    RoundUpFacts(orig, alignment);
    RoundUpKeeps8(orig, alignment);
    RoundUpFacts(orig + 8, alignment);
    RoundUpKeeps8(orig + 8, alignment);
  }

  const EINVAL: int := 22
  const ENOMEM: int := 12

  /** The bit test alignment & (alignment - 1) == 0 on a non-zero alignment. */
  predicate IsPowerOfTwo(n: int) {
    n == 1 || (n > 1 && n % 2 == 0 && IsPowerOfTwo(n / 2))
  }

  lemma PowerOfTwoIsMultipleOf8(n: int)
    requires IsPowerOfTwo(n) && n >= 8
    ensures n % 8 == 0
  {
    assert IsPowerOfTwo(n / 2) && IsPowerOfTwo(n / 2 / 2);
  }

  /** The bytes behind a pointer meet no other block, tags included, and none of its own block's tags. */
  lemma CallerBytesPrivate(h: Heap, g: Shape, p: int, u: Handle, x: int)
    requires Inv(h, g) && Owns(h.mem, LiveOf(g), p, u) && x in g.blk
    ensures x != u.owner ==> p + u.len <= x || End(g, x) <= p
    ensures x == u.owner ==> x + 8 <= p && p + u.len <= End(g, x) - 8
  {
    assert u.owner in g.blk;
    assert x < u.owner || x == u.owner || u.owner < x;
  }

  /** The 64-bit hole size covers the request exactly when the request is below 2^64 - 32; above
      that, 24 bytes are enough for the search and no block of any heap could hold the request. */
  lemma SearchSizeCovers(n: int)
    requires 0 <= n < TWO64
    ensures SearchSize(n) >= RoundDown(n) <==> n < TWO64 - 32
    ensures n >= TWO64 - 32 ==> SearchSize(n) <= 24 && HEAP_LIMIT < n
    ensures SearchSize(TWO64 - 1) == 24
  {
    RoundDownFacts(n);
  }

  /** The inner pointer was the start of its block's payload, or was aligned enough to be returned as is. */
  ghost predicate Releasable(owner: int, alignment: int, size: int)
    requires alignment > 0
  {
    var lead := Lead(owner, RoundDown(Inner(alignment, size)));
    lead == 0 || IsMultiple(owner + 8 + lead, alignment)
  }

  /** Inner requests below the displacement threshold, and alignments up to 32, are releasable from every block. */
  lemma UsuallyReleasable(owner: int, alignment: int, size: int)
    requires owner % 8 == 0
    requires alignment in {8, 16, 32} || (8 <= alignment && RoundDown(Inner(alignment, size)) < LARGE)
    ensures Releasable(owner, alignment, size)
  {
    hide Inner;
    LeadIsSmall(owner, RoundDown(Inner(alignment, size)));
  }

  lemma {:induction false} PowersDouble(m: int, n: int)
    requires IsPowerOfTwo(m) && IsPowerOfTwo(n) && m < n
    ensures 2 * m <= n
  {
    if m > 1 { PowersDouble(m / 2, n / 2); }
  }

  lemma {:induction false} MultipleOf64(n: int)
    requires IsPowerOfTwo(n) && n >= 64
    ensures n % 64 == 0
  {
    if n > 64 {
      PowersDouble(64, n);
      MultipleOf64(n / 2);
    }
  }

  ghost function PowerOfTwo(k: nat): int { if k == 0 then 1 else 2 * PowerOfTwo(k - 1) }

  lemma {:induction false} NoPowerBetween(n: int, k: nat)
    requires IsPowerOfTwo(n) && n < 2 * PowerOfTwo(k)
    ensures n <= PowerOfTwo(k)
  {
    if n > 1 && k > 0 { NoPowerBetween(n / 2, k - 1); }
  }

  lemma AlignmentBelow63Bits(n: int)
    requires IsPowerOfTwo(n) && n < TWO64
    ensures n <= TWO63
  {
    hide PowerOfTwo;
    PowerOf128(0); PowerOf128(7); PowerOf128(14); PowerOf128(21); PowerOf128(28);
    PowerOf128(35); PowerOf128(42); PowerOf128(49); PowerOf128(56);
    PowerOfNothing();
    assert PowerOfTwo(63) == TWO63;
    NoPowerBetween(n, 63);
  }

  lemma PowerOfNothing()
    ensures PowerOfTwo(0) == 1
  {
  }

  lemma PowerOf128(k: nat)
    ensures PowerOfTwo(k + 7) == 128 * PowerOfTwo(k)
  {
    assert PowerOfTwo(k + 2) == 4 * PowerOfTwo(k);
    assert PowerOfTwo(k + 4) == 4 * PowerOfTwo(k + 2);
    assert PowerOfTwo(k + 6) == 4 * PowerOfTwo(k + 4);
  }

  /** Every other request, served from a block at a multiple of its alignment: the inner pointer is pushed
      up by 24 and stays 32 past the alignment, so it is not what the back-pointer test leads to. */
  lemma DisplacedIsNotReleasable(k: int, alignment: int, size: int)
    requires IsPowerOfTwo(alignment) && alignment > 32 && RoundDown(Inner(alignment, size)) >= LARGE
    ensures !Releasable(alignment * k, alignment, size)
  {
    hide Lead, Inner, Releasable;
    PowersDouble(32, alignment);
    MultipleOf64(alignment);
    ThirtyTwoPast(alignment, k);
    PushedPast(alignment * k, alignment, size);
  }

  lemma ThirtyTwoPast(alignment: int, k: int)
    requires alignment >= 64 && alignment % 64 == 0
    ensures (alignment * k) % 64 == 0 && !IsMultiple(alignment * k + 32, alignment)
  {
    var j := alignment / 64;
    assert alignment * k == 64 * (j * k);
    Unique(alignment * k, 64, j * k, 0);
    Unique(alignment * k + 32, alignment, k, 32);
  }

  lemma PushedPast(owner: int, alignment: int, size: int)
    requires owner % 64 == 0 && alignment > 0 && RoundDown(Inner(alignment, size)) >= LARGE
    requires !IsMultiple(owner + 32, alignment)
    ensures !Releasable(owner, alignment, size)
  {
    hide Lead, Inner, IsMultiple, RoundDown;
    var need := RoundDown(Inner(alignment, size));
    LeadIsSmall(owner, need);
    Divide(owner, 64);
    LeadIs24(owner / 64, Lead(owner, need));
  }

  lemma LeadIs24(k: int, lead: int)
    requires 0 <= lead <= 24 && (64 * k + 8 + lead) % 32 == 0
    ensures lead == 24
  {
    if lead < 24 { Unique(64 * k + 8 + lead, 32, 2 * k, 8 + lead); }
  }

  /** What a caller can check: the request is releasable wherever it is placed exactly when the alignment is
      at most 32 or the inner request is below the displacement threshold. */
  lemma ReleasableEverywhereIff(alignment: int, size: int)
    requires IsPowerOfTwo(alignment) && alignment >= 8
    ensures (forall owner :: owner % 8 == 0 ==> Releasable(owner, alignment, size))
       <==> alignment <= 32 || RoundDown(Inner(alignment, size)) < LARGE
  {
    hide Releasable, Inner;
    if alignment <= 32 || RoundDown(Inner(alignment, size)) < LARGE {
      if alignment <= 32 { SmallPowers(alignment); }
      forall owner | owner % 8 == 0
        ensures Releasable(owner, alignment, size)
      {
        UsuallyReleasable(owner, alignment, size);
      }
    } else {
      PowerOfTwoIsMultipleOf8(alignment);
      DisplacedIsNotReleasable(1, alignment, size);
    }
  }

  /** What a caller can check: the word below the aligned pointer is payload of every block that may serve the
      request exactly when the alignment is covered by the inner request. */
  predicate SlotSafe(alignment: int, size: int) {
    var s := RoundDown(Inner(alignment, size));
    alignment <= s + 24 || (s >= LARGE && alignment <= s + 48)
  }

  ghost predicate SlotHolds(owner: int, room: int, alignment: int, size: int)
    requires alignment > 0
  {
    AlignsBelow(owner + 8 + Lead(owner, RoundDown(Inner(alignment, size))), alignment, owner + 24 + room)
  }

  ghost predicate AlignsBelow(orig: int, alignment: int, limit: int)
    requires alignment > 0
  {
    forall p :: AlignedUp(orig, alignment, p) ==> p <= limit
  }

  /** Between orig and the aligned address there is less than the alignment, in whole steps. */
  lemma AlignedNear(orig: int, alignment: int, p: int, step: int)
    requires 8 <= step && alignment > 0 && IsMultiple(orig, step) && IsMultiple(alignment, step)
    requires AlignedUp(orig, alignment, p)
    ensures p == orig || p <= orig + alignment - step
  {
    Divide(p, alignment);
    Divide(alignment, step);
    Divide(orig, step);
    var q, j, i := p / alignment, alignment / step, orig / step;
    StepsApart(step, j, q, i);
    var t := j * q - i;
    assert p - orig == step * t;
    if t > j { MoreSteps(step, t, j + 1); }
    if t == j {
      assert orig == alignment * (q - 1);
      Unique(orig, alignment, q - 1, 0);
    } else if t < j { MoreSteps(step, j - 1, t); }
  }

  lemma StepsApart(step: int, j: int, q: int, i: int)
    ensures (step * j) * q - step * i == step * (j * q - i)
  {
  }

  lemma MoreSteps(step: int, t: int, u: int)
    requires step > 0 && t >= u
    ensures step * t >= step * u
  {
    Distribute(step, t, u);
    if t > u { MulAtLeast(step, t - u); }
  }

  lemma SlotSafeHolds(alignment: int, size: int, owner: int, room: int)
    requires IsPowerOfTwo(alignment) && alignment >= 8 && SlotSafe(alignment, size)
    requires 0 <= Inner(alignment, size) && MayServe(owner, room, RoundDown(Inner(alignment, size)))
    ensures SlotHolds(owner, room, alignment, size)
  {
    hide Inner, Lead, IsPowerOfTwo, IsMultiple, RoundDown;
    var s := RoundDown(Inner(alignment, size));
    RoundDownFacts(Inner(alignment, size));
    var orig := owner + 8 + Lead(owner, s);
    LeadIsSmall(owner, s);
    PointerSteps(owner, s, alignment);
    forall p | AlignedUp(orig, alignment, p)
      ensures p <= owner + 24 + room
    {
      AlignedNear(orig, alignment, p, 8);
      if alignment > s + 24 { AlignedNear(orig, alignment, p, 32); }
    }
  }

  lemma SlotSafePointer(alignment: int, size: int, owner: int, room: int, orig: int, p: int)
    requires IsPowerOfTwo(alignment) && alignment >= 8 && SlotSafe(alignment, size)
    requires 0 <= Inner(alignment, size) && MayServe(owner, room, RoundDown(Inner(alignment, size)))
    requires orig == owner + 8 + Lead(owner, RoundDown(Inner(alignment, size))) && AlignedUp(orig, alignment, p)
    ensures p <= owner + 24 + room
  {
    hide Inner, Lead, IsPowerOfTwo, IsMultiple, RoundDown, SlotSafe, MayServe, AlignedUp;
    SlotSafeHolds(alignment, size, owner, room);
  }

  /** The inner pointer is a multiple of 8, for large requests of 32, and so is a larger alignment. */
  lemma PointerSteps(owner: int, s: int, alignment: int)
    requires owner % 8 == 0 && IsPowerOfTwo(alignment) && alignment >= 8
    ensures IsMultiple(owner + 8 + Lead(owner, s), 8) && IsMultiple(alignment, 8)
    ensures s >= LARGE ==> IsMultiple(owner + 8 + Lead(owner, s), 32)
    ensures alignment > 32 ==> IsMultiple(alignment, 32)
  {
    hide Lead, IsPowerOfTwo;
    LeadIsSmall(owner, s);
    PowerOfTwoIsMultipleOf8(alignment);
    if alignment > 32 {
      PowersOf32();
      PowersDouble(32, alignment);
      MultipleOf64(alignment);
    }
  }

  lemma PowersOf32()
    ensures IsPowerOfTwo(32)
  {
  }

  /** A block at a multiple of the alignment, with just enough room: the aligned pointer is one alignment further up. */
  lemma SlotUnsafeFails(alignment: int, size: int)
    requires IsPowerOfTwo(alignment) && alignment >= 8 && !SlotSafe(alignment, size) && 0 <= Inner(alignment, size)
    ensures var s := RoundDown(Inner(alignment, size)); var room := s + Lead(alignment, s);
      MayServe(alignment, room, s) && !SlotHolds(alignment, room, alignment, size)
  {
    hide Inner, IsPowerOfTwo, RoundDown, Lead;
    var s := RoundDown(Inner(alignment, size));
    RoundDownFacts(Inner(alignment, size));
    PowerOfTwoIsMultipleOf8(alignment);
    LeadIsSmall(alignment, s);
    assert alignment > 24;
    AboveTwentyFour(alignment);
    LeadOfMultiple(alignment, s);
    var orig := alignment + 8 + Lead(alignment, s);
    TwiceIsNext(alignment, orig);
    SumOfWords(s, Lead(alignment, s));
  }

  lemma AboveTwentyFour(n: int)
    requires IsPowerOfTwo(n) && n > 24
    ensures n == 32 || (n >= 64 && n % 64 == 0)
  {
    if n <= 32 { SmallPowers(n); }
    else {
      PowersOf32();
      hide IsPowerOfTwo;
      PowersDouble(32, n);
      MultipleOf64(n);
    }
  }

  lemma LeadOfMultiple(owner: int, s: int)
    requires owner % 32 == 0
    ensures Lead(owner, s) == if s >= LARGE then 24 else 0
  {
    if s >= LARGE {
      assert owner == 32 * (owner / 32);
      assert (owner + 39) / 32 == owner / 32 + 1;
    }
  }

  lemma TwiceIsNext(alignment: int, orig: int)
    requires alignment >= 32 && alignment % 8 == 0
    requires orig == alignment + 8 || (orig == alignment + 32 && alignment >= 64)
    ensures AlignedUp(orig, alignment, 2 * alignment)
  {
    Unique(2 * alignment, alignment, 2, 0);
    Unique(orig, alignment, 1, orig - alignment);
  }

  lemma SlotHoldsEverywhereIff(alignment: int, size: int)
    requires IsPowerOfTwo(alignment) && 8 <= alignment && 0 <= Inner(alignment, size)
    ensures (forall owner, room :: MayServe(owner, room, RoundDown(Inner(alignment, size))) ==>
               SlotHolds(owner, room, alignment, size))
       <==> SlotSafe(alignment, size)
  {
    hide Inner, MayServe, SlotHolds, SlotSafe, IsPowerOfTwo, RoundDown;
    if SlotSafe(alignment, size) {
      forall owner, room | MayServe(owner, room, RoundDown(Inner(alignment, size)))
        ensures SlotHolds(owner, room, alignment, size)
      {
        SlotSafeHolds(alignment, size, owner, room);
      }
    } else {
      SlotUnsafeFails(alignment, size);
    }
  }

  lemma SmallPowers(n: int)
    requires IsPowerOfTwo(n) && 8 <= n <= 32
    ensures n in {8, 16, 32}
  {
    PowerOfTwoIsMultipleOf8(n);
  }

  /** The heap of a process begins here. */
  const HEAP_BASE: int := 0x3000_0000_0000

  /** 256 KiB aligned to 64, served from the first block of the heap. */
  lemma FirstBlockIsNotReleasable()
    ensures !Releasable(HEAP_BASE, 64, LARGE)
  {
    assert IsPowerOfTwo(64);
    assert Inner(64, LARGE) == LARGE + 71;
    DisplacedIsNotReleasable(HEAP_BASE / 64, 64, LARGE);
  }

  /** 2^64 - 8 bytes aligned to 8: the inner request wraps to 7 bytes, which any heap can serve. */
  lemma WrappedRequest()
    ensures Inner(8, TWO64 - 8) == 7 && RoundDown(7) == 0 && IsPowerOfTwo(8)
  {
  }

  /** 2^64 - 38 bytes aligned to 32 wrap to an inner request of 1. Served from a block of size 0 at a multiple
      of 32, the word below the aligned pointer is the block's footer, and the heap is no longer well formed. */
  lemma WrappedRequestHitsFooter(h: Heap, g: Shape, owner: int)
    requires Inv(h, g) && owner in g.blk && g.blk[owner] == Block(0, Live) && owner % 32 == 0
    ensures Inner(32, TWO64 - 38) == 1 && AlignedUp(owner + 8, 32, owner + 32)
    ensures !Inv(Store(h, owner + 32 - 8, owner + 8), g)
  {
    var h' := Store(h, owner + 24, owner + 8);
    assert End(g, owner) - 8 == owner + 24;
    assert !TagsAt(h', g, owner);
  }

  /** Sums that do not wrap are safe, the wrapped request for alignment 8 is, and the one for alignment 32 is not. */
  lemma SlotSafety(alignment: int, size: int)
    requires 0 <= alignment && 1 <= size && size + alignment + 7 < TWO64
    ensures SlotSafe(alignment, size) && SlotSafe(8, TWO64 - 8) && !SlotSafe(32, TWO64 - 38)
  {
    InnerFacts(alignment, size);
    RoundDownFacts(Inner(alignment, size));
  }

  lemma OnlyAligned32(k: int, p: int)
    requires AlignedUp(32 * k + 8, 32, p)
    ensures p == 32 * k + 32
  {
    Unique(32 * k + 8, 32, k, 8);
    Divide(p, 32);
  }

  lemma MemalignRecovers(h: Heap, g: Shape, hs: map<int, Handle>, orig: int, p: int, alignment: int, size: int,
                         h': Heap)
    requires Inv(h, g) && Quiet(g) && HandlesOk(h.mem, LiveOf(g), hs) && orig in hs && alignment >= 8
    requires orig == hs[orig].owner + 8 + Lead(hs[orig].owner, RoundDown(Inner(alignment, size)))
    requires AlignedUp(orig, alignment, p) && h' == if p == orig then h else Store(h, p - 8, orig)
    ensures var owner := hs[orig].owner;
      && owner % 8 == 0 && owner + 8 <= p && owner in LiveOf(g)
      && p - 8 in h'.mem && (Recovered(h', p) == owner <==> Releasable(owner, alignment, size))
  {
    hide Inv, LiveOf, IsMultiple, Inner;
    var u := hs[orig];
    assert Owns(h.mem, LiveOf(g), orig, u);
    BlockOf(h, g, u.owner);
    LeadIsSmall(u.owner, RoundDown(Inner(alignment, size)));
    BackPointerFindsOwner(h, g, orig, u);
    WordsOf(h, g, u.owner);
  }

  /** The bytes fit exactly when the sum did not wrap: a wrapped request is larger than any heap. */
  lemma MemalignFits(h: Heap, g: Shape, hs: map<int, Handle>, orig: int, p: int, alignment: int, size: int)
    requires Inv(h, g) && HandlesOk(h.mem, LiveOf(g), hs) && orig in hs && 8 <= alignment <= TWO63 && 0 <= size
    requires AlignedUp(orig, alignment, p) && (size + alignment + 7 < TWO64 ==> hs[orig].len == size + alignment + 7)
    ensures p < TWO64
    ensures var owner := hs[orig].owner;
      owner in LiveOf(g) && (p + size <= owner + 24 + LiveOf(g)[owner] <==> size + alignment + 7 < TWO64)
  {
    hide Inv, LiveOf;
    var u := hs[orig];
    assert Owns(h.mem, LiveOf(g), orig, u);
    BlockOf(h, g, u.owner);
    WordsOf(h, g, u.owner);
    BoundsOf(h, g);
    PositiveMultiple(p, alignment);
  }

  lemma PositiveMultiple(p: int, k: int)
    requires 0 < k && 0 < p && IsMultiple(p, k)
    ensures k <= p
  {
    Divide(p, k);
    if p / k <= 0 { NotAbove(k, p / k); }
    else { MulAtLeast(k, p / k); }
  }

  lemma NotAbove(k: int, q: int)
    requires 0 < k && q <= 0
    ensures k * q <= 0
  {
  }

  lemma MemalignHandles(h: Heap, g: Shape, hs: map<int, Handle>, orig: int, p: int, alignment: int, size: int)
    requires HandlesOk(h.mem, LiveOf(g), hs) && orig in hs && 1 <= size && alignment >= 8
    requires orig == hs[orig].owner + 8 + Lead(hs[orig].owner, RoundDown(Inner(alignment, size)))
    requires AlignedUp(orig, alignment, p) && (p != orig ==> p - 8 in h.mem && h.mem[p - 8] == orig)
    ensures HandlesOk(h.mem, LiveOf(g), hs - {orig})
    ensures var owner := hs[orig].owner;
      p + size <= owner + 24 + LiveOf(g)[owner] && Releasable(owner, alignment, size) ==>
        HandlesOk(h.mem, LiveOf(g), (hs - {orig})[p := Handle(owner, size)])
  {
    hide LiveOf, IsMultiple, Inner;
    var u := hs[orig];
    assert Owns(h.mem, LiveOf(g), orig, u);
    if p + size <= u.owner + 24 + LiveOf(g)[u.owner] && Releasable(u.owner, alignment, size) {
      assert Owns(h.mem, LiveOf(g), p, Handle(u.owner, size));
    }
  }

  /** A store into a pointer's own payload, at or above the pointer, harms nobody. */
  lemma AlignStoreKeeps(h: Heap, g: Shape, hs: map<int, Handle>, p: int, w: int)
    requires Inv(h, g) && HandlesOk(h.mem, LiveOf(g), hs) && p in hs && p <= w && w % 8 == 0
    ensures SlotInside(LiveOf(g), hs[p].owner, w + 8) ==>
      && Inv(Store(h, w, p), g) && HandlesOk(Store(h, w, p).mem, LiveOf(g), hs)
      && Kept(h.mem, Store(h, w, p).mem, LiveOf(g) - {hs[p].owner})
  {
    hide Inv;
    assert Owns(h.mem, LiveOf(g), p, hs[p]);
    if SlotInside(LiveOf(g), hs[p].owner, w + 8) {
      PayloadStoreKeeps(h, g, hs, p, w, p);
      OthersKept(h, g, hs[p].owner, w, p);
    }
  }

  lemma OthersKept(h: Heap, g: Shape, a: int, w: int, v: int)
    requires Inv(h, g) && InPayload(LiveOf(g), a, w)
    ensures Kept(h.mem, Store(h, w, v).mem, LiveOf(g) - {a})
  {
    hide Inv, LiveOf;
    forall b, x | InPayload(LiveOf(g) - {a}, b, x)
      ensures x != w
    {
      PayloadsApart(h, g, a, b, w, x);
    }
  }

  ghost function OneBlock(start: int): Shape {
    Shape(map[start := Block(HEAP_SIZE - OVERHEAD, Loose)], seq(BIN_COUNT, i => []), seq(FASTBIN_COUNT, i => []))
  }

  lemma OneBlockIs(start: int, b: int)
    requires 0 <= b < BIN_COUNT
    ensures start in OneBlock(start).blk && |OneBlock(start).lists| == BIN_COUNT
    ensures var g := AddedShape(OneBlock(start), b, start);
      g.blk == map[start := Block(HEAP_SIZE - OVERHEAD, Hole(b))] && NoneParked(g)
  {
  }

  lemma FreshHeap(h: Heap, start: int)
    requires h.start == start && h.end == start + HEAP_SIZE && Bounds(h) && Mapped(h)
    requires h.bins == seq(BIN_COUNT, i => NULL) && h.fastbins == seq(FASTBIN_COUNT, i => NULL)
    ensures Inv(h, OneBlock(start)) && HoleFriendly(OneBlock(start), start) && LiveOf(OneBlock(start)) == map[]
  {
    var g := OneBlock(start);
    assert End(g, start) == h.end;
    FreshTiling(h, start);
    FreshLists(h, start);
    assert AllTagged(h, g) && Filed(g) && NoAdjacentHoles(g);
  }

  lemma FreshTiling(h: Heap, start: int)
    requires h.start == start && h.end == start + HEAP_SIZE && Bounds(h)
    ensures Tiled(h, OneBlock(start)) && Preceded(h, OneBlock(start))
  {
    var g := OneBlock(start);
    assert End(g, start) == h.end;
    assert HasSucc(h, g, start);
    assert HasPred(g, h.end);
  }

  lemma FreshLists(h: Heap, start: int)
    requires h.bins == seq(BIN_COUNT, i => NULL) && h.fastbins == seq(FASTBIN_COUNT, i => NULL)
    ensures Binned(h, OneBlock(start)) && FastBinned(h, OneBlock(start))
  {
  }

  lemma PayloadWriteKeeps(h: Heap, g: Shape, a: int, w: int, v: int)
    requires Inv(h, g) && InPayload(LiveOf(g), a, w)
    ensures Inv(Store(h, w, v), g)
  {
    hide Inv, Kept;
    WordsOf(h, g, a);
    UntagLiveKeeps(h, g, a);
    var g1 := Rekind(g, a, Loose);
    WriteKeeps(h, g1, a, w, v);
    LiveTags(h, g, a);
    TagLiveKeeps(Store(h, w, v), g1, a);
    assert Rekind(g1, a, Live) == g;
  }

  lemma LiveTags(h: Heap, g: Shape, a: int)
    requires Inv(h, g) && a in LiveOf(g)
    ensures a in g.blk && TagsAt(h, g, a) && g.blk[a].kind.Live?
  {
  }

  lemma PayloadStoreKeeps(h: Heap, g: Shape, hs: map<int, Handle>, p: int, w: int, v: int)
    requires Inv(h, g) && HandlesOk(h.mem, LiveOf(g), hs) && p in hs && p <= w && InPayload(LiveOf(g), hs[p].owner, w)
    ensures Inv(Store(h, w, v), g) && HandlesOk(Store(h, w, v).mem, LiveOf(g), hs)
  {
    hide Inv;
    var live := LiveOf(g);
    assert Owns(h.mem, live, p, hs[p]);
    PayloadWriteKeeps(h, g, hs[p].owner, w, v);
    forall q | q in hs
      ensures Owns(Store(h, w, v).mem, live, q, hs[q])
    {
      assert Owns(h.mem, live, q, hs[q]);
      if q != p { PayloadsApart(h, g, hs[p].owner, hs[q].owner, w, q - 8); }
    }
  }

  lemma PayloadsApart(h: Heap, g: Shape, a: int, b: int, w: int, x: int)
    requires Inv(h, g) && a != b && InPayload(LiveOf(g), a, w)
    ensures InPayload(LiveOf(g), b, x) ==> w != x
  {
    assert a in g.blk && (b in g.blk ==> a < b || b < a);
  }

  lemma LiveHeader(size: int)
    requires 0 <= size < TWO62
    ensures SetFast(Header(false, false, size), true) == Header(false, true, size)
    ensures GetSize(Header(false, false, size)) == size
  {
    HeaderFields(false, false, size);
  }

  lemma HandleOf(m: map<int, int>, live: map<int, int>, hs: map<int, Handle>, p: int)
    requires HandlesOk(m, live, hs) && p in hs
    ensures Owns(m, live, p, hs[p])
  {
  }

  lemma DropHandle(m: map<int, int>, live: map<int, int>, hs: map<int, Handle>, p: int)
    requires HandlesOk(m, live, hs) && p in hs
    ensures HandlesOk(m, live - {hs[p].owner}, hs - {p})
  {
    forall q | q in hs - {p}
      ensures Owns(m, live - {hs[p].owner}, q, (hs - {p})[q])
    {
      assert Owns(m, live, q, hs[q]);
    }
  }

  /** A live block is tagged with its size and no flags, and is the only thing out of place once untagged. */
  lemma LiveBlock(h: Heap, g: Shape, a: int)
    requires Inv(h, g) && Quiet(g) && a in LiveOf(g)
    ensures a in g.blk && g.blk[a].kind.Live? && LiveOf(g)[a] == g.blk[a].size
    ensures TagsAt(h, g, a) && Sized(h, g, a) && h.mem[a] == g.blk[a].size < h.start
    ensures OnlyLoose(Rekind(g, a, Loose), a) && Sized(h, Rekind(g, a, Loose), a)
  {
    assert TagsAt(h, g, a);
    WordsOf(h, g, a);
    HeaderFields(false, false, g.blk[a].size);
  }

  /** The header that parep_mpi_free settles on for a pointer. */
  ghost function Recovered(h: Heap, p: int): int
    requires p - 8 in h.mem
  {
    var candidate := h.mem[p - 8];
    if h.start <= candidate < h.end then candidate - 8 else p - 8
  }

  /** Free undoes placement: the back-pointer test finds the owning header, displaced or not. */
  lemma BackPointerFindsOwner(h: Heap, g: Shape, p: int, u: Handle)
    requires Inv(h, g) && Quiet(g) && Owns(h.mem, LiveOf(g), p, u)
    ensures p - 8 in h.mem && Recovered(h, p) == u.owner
  {
    LiveBlock(h, g, u.owner);
    WordsOf(h, g, u.owner);
  }

  lemma BlockOf(h: Heap, g: Shape, a: int)
    requires Inv(h, g) && a in LiveOf(g)
    ensures a in g.blk && LiveOf(g)[a] == g.blk[a].size && a % 8 == 0 && h.start <= a && 0 <= g.blk[a].size
    ensures 0 < h.start
  {
  }

  /** The request as the allocator counts it, rounded down to a multiple of 8. */
  function RoundDown(n: int): int { n - n % 8 }

  lemma RoundDownFacts(n: int)
    requires 0 <= n
    ensures 0 <= RoundDown(n) <= n < RoundDown(n) + 8 && RoundDown(n) % 8 == 0 && RoundDown(n) / 8 * 8 == RoundDown(n)
  {
  }

  lemma SmallNotDisplaced(a: int, size: int)
    requires size < LARGE
    ensures Lead(a, size) == 0
  {
  }

  /** The hole size looked for, computed in 64-bit arithmetic. */
  function SearchSize(n: int): int {
    if RoundDown(n) >= LARGE then (RoundDown(n) + 32) % TWO64 else RoundDown(n)
  }

  lemma SearchSizeFits(n: int)
    requires 0 <= n < TWO64 - 32
    ensures SearchSize(n) == Needed(RoundDown(n))
  {
  }

  lemma HandlesSame(m: map<int, int>, m': map<int, int>, live: map<int, int>, hs: map<int, Handle>)
    requires HandlesOk(m, live, hs) && Kept(m, m', live)
    ensures HandlesOk(m', live, hs)
  {
    HandlesKept(m, m', live, live, hs);
  }

  /** Pointers into different live blocks have disjoint bytes. */
  lemma OwnersApart(h: Heap, g: Shape, p: int, u: Handle, q: int, v: Handle)
    requires Inv(h, g) && Owns(h.mem, LiveOf(g), p, u) && Owns(h.mem, LiveOf(g), q, v) && u.owner != v.owner
    ensures p + u.len <= q || q + v.len <= p
  {
    assert u.owner in g.blk && v.owner in g.blk;
    assert u.owner < v.owner || v.owner < u.owner;
  }

  lemma NewHandle(m: map<int, int>, h: Heap, live: map<int, int>, g: Shape, hs: map<int, Handle>, p: int, u: Handle)
    requires HandlesOk(m, live, hs) && Kept(m, h.mem, live) && Inv(h, g)
    requires u.owner in g.blk && u.owner !in live && LiveOf(g) == live[u.owner := g.blk[u.owner].size]
    requires Owns(h.mem, LiveOf(g), p, u)
    ensures p !in hs && HandlesOk(h.mem, LiveOf(g), hs[p := u])
    ensures LiveOf(g) - {u.owner} == live
  {
    hide Inv, Kept, LiveOf;
    HandlesKept(m, h.mem, live, LiveOf(g), hs);
    forall q | q in hs
      ensures q != p && hs[q].owner != u.owner
    {
      OwnersApart(h, g, p, u, q, hs[q]);
    }
  }

  lemma NotLive(g: Shape, a: int)
    requires a in g.blk && !g.blk[a].kind.Live?
    ensures a !in LiveOf(g)
  {
  }

  lemma FastCleared(size: int)
    requires 0 <= size < TWO62
    ensures SetFast(Header(false, true, size), false) == Header(false, false, size)
  {
    HeaderFields(false, true, size);
  }

  lemma HoleToLeave(h: Heap, g: Shape, a: int)
    requires Inv(h, g) && Quiet(g) && a in g.blk && g.blk[a].kind.Hole?
    ensures 0 <= g.blk[a].kind.bin < BIN_COUNT && RightClear(g, a) && Sized(h, g, a) && a !in LiveOf(g)
    ensures RightClear(Rekind(g, a, Pending(g.blk[a].kind.bin)), a)
    ensures Leaving(h, Rekind(g, a, Pending(g.blk[a].kind.bin)), a, g.blk[a].kind.bin)
  {
    WordsOf(h, g, a);
    assert TagsAt(h, g, a);
    HeaderFields(true, false, g.blk[a].size);
  }

  lemma AlignedBlock(h: Heap, g: Shape, a: int)
    requires Inv(h, g) && a in g.blk
    ensures a % 8 == 0 && g.blk[a].size % 8 == 0 && (a + 24) % 8 == 0 && (End(g, a) - 8) % 8 == 0 && End(g, a) % 8 == 0
  {
    assert Aligned(g);
    hide Inv, Aligned;
    AlignedEnds(g, a);
  }

  lemma AlignedEnds(g: Shape, a: int)
    requires Aligned(g) && a in g.blk
    ensures a % 8 == 0 && g.blk[a].size % 8 == 0 && (a + 24) % 8 == 0 && (End(g, a) - 8) % 8 == 0 && End(g, a) % 8 == 0
  {
  }

  lemma LiveWritten(x: int)
    ensures SetFast(SetHole(x, false), false) == Header(false, false, GetSize(x))
  {
    HeaderFields(false, GetFast(x), GetSize(x));
  }

  lemma SizeWritten(x: int, size: int)
    requires 0 <= size < TWO62
    ensures IsWord(SetSize(x, size)) && GetSize(SetSize(x, size)) == size
  {
    HeaderFields(GetHole(x), GetFast(x), size);
  }

  lemma HoleWritten(x: int, size: int)
    requires 0 <= size < TWO62
    ensures var y := SetFast(SetHole(SetSize(x, size), true), false);
      y == Header(true, false, size) && GetSize(y) == size
  {
    HeaderFields(GetHole(x), GetFast(x), size);
    HeaderFields(true, GetFast(x), size);
    HeaderFields(true, false, size);
  }

  lemma SplitClear(h: Heap, g: Shape, a: int, n: int, last: int)
    requires Inv(h, g) && a in g.blk && n in g.blk && End(g, a) == n && End(g, n) == last && !g.blk[a].kind.Hole?
    requires RightClear(g, n)
    ensures HoleFriendly(g, n)
  {
    NotHoleBelow(h, g, a, n);
  }

  lemma BoundsOf(h: Heap, g: Shape)
    requires Inv(h, g)
    ensures Bounds(h)
  {
  }

  lemma FreshWord(h: Heap, g: Shape, sz: int)
    requires Inv(h, g) && 0 < sz
    ensures h.end in GrownHeap(h, sz).mem && GrownHeap(h, sz).mem[h.end] == 0
  {
  }

  lemma FreshHeader()
    ensures var x := SetFast(SetHole(0, true), false); IsWord(x) && GetHole(x) && !GetFast(x)
    ensures IsWord(SetHole(0, true))
  {
  }

  lemma GrownWords(h: Heap, sz: int, a: int)
    requires a in h.mem && a < h.end
    ensures a in GrownHeap(h, sz).mem && GrownHeap(h, sz).mem[a] == h.mem[a]
  {
  }

  lemma LastBlock(h: Heap, g: Shape)
    requires Inv(h, g) && Quiet(g)
    ensures h.end - 8 in h.mem
    ensures var last := h.mem[h.end - 8];
      && last in g.blk && End(g, last) == h.end && TagsAt(h, g, last)
      && GetHole(h.mem[last]) == g.blk[last].kind.Hole?
  {
    assert HasPred(g, h.end);
    var p :| p in g.blk && End(g, p) == h.end;
    assert TagsAt(h, g, p);
    WordsOf(h, g, p);
    HeaderFields(g.blk[p].kind.Hole?, g.blk[p].kind.Fast?, g.blk[p].size);
  }

  /** The block at the end of the heap is a hole. */
  ghost predicate EndsInHole(h: Heap, g: Shape) {
    exists a :: a in g.blk && End(g, a) == h.end && g.blk[a].kind.Hole?
  }

  lemma OnlyOneLast(h: Heap, g: Shape, last: int)
    requires Inv(h, g) && last in g.blk && End(g, last) == h.end
    ensures EndsInHole(h, g) ==> g.blk[last].kind.Hole?
  {
    TiledParts(h, g);
    hide Inv, Spread;
    if a :| a in g.blk && End(g, a) == h.end && g.blk[a].kind.Hole? {
      if a != last { EndsDiffer(g, last, a); }
    }
  }

  /** Behind a block that is no hole, fewer than 32 bytes cannot hold a block: the size written for it exceeds any
      heap. */
  lemma GrowthTooSmall(sz: int, word: int)
    requires 0 < sz < OVERHEAD
    ensures GetSize(SetSize(word, (sz - OVERHEAD) % TWO64)) > HEAP_LIMIT
  {
    var n := (sz - OVERHEAD) % TWO64;
    assert n == TWO64 + sz - OVERHEAD && n % TWO62 == TWO62 + sz - OVERHEAD;
    HeaderFields(GetHole(word), GetFast(word), n % TWO62);
  }

  lemma FastHead(h: Heap, g: Shape, i: int)
    requires Inv(h, g) && Quiet(g) && 0 <= i < FASTBIN_COUNT && |h.fastbins| == FASTBIN_COUNT && h.fastbins[i] != NULL
    ensures |g.flists| == FASTBIN_COUNT && |g.flists[i]| > 0
    ensures var a := h.fastbins[i];
      && a == g.flists[i][0] && a in g.blk && a + 8 in h.mem && g.blk[a].kind == Fast(i)
      && TagsAt(h, g, a) && Sized(h, g, a) && g.blk[a].size == 8 * i && !GetHole(h.mem[a])
  {
    FastHeadFacts(h, g, i);
    var a := h.fastbins[i];
    assert TagsAt(h, g, a);
    WordsOf(h, g, a);
    HeaderFields(false, true, g.blk[a].size);
  }

  lemma SomeWaiting(h: Heap, g: Shape, i: int)
    requires Inv(h, g) && Quiet(g) && 0 <= i < FASTBIN_COUNT && |h.fastbins| == FASTBIN_COUNT && h.fastbins[i] != NULL
    ensures Waiting(g, i) && !NoneParked(g)
  {
    hide Inv, Quiet;
    FastHead(h, g, i);
  }

  lemma FastShape(h: Heap, g: Shape)
    requires Inv(h, g)
    ensures |h.fastbins| == |g.flists| == FASTBIN_COUNT
  {
  }

  lemma FastEmpty(h: Heap, g: Shape, i: int)
    requires Inv(h, g) && 0 <= i < FASTBIN_COUNT && |h.fastbins| == |g.flists| == FASTBIN_COUNT
    requires h.fastbins[i] == NULL
    ensures g.flists[i] == []
  {
    assert Chained(h.mem, h.fastbins[i], g.flists[i]);
    assert |g.flists[i]| > 0 ==> FastHolds(g, i, g.flists[i][0]);
  }

  lemma NoneWaiting(h: Heap, g: Shape, i: int)
    requires Inv(h, g) && 0 <= i < FASTBIN_COUNT && |h.fastbins| == FASTBIN_COUNT && h.fastbins[i] == NULL
    ensures !Waiting(g, i)
  {
    FastShape(h, g);
    FastEmpty(h, g, i);
  }

  lemma AllFastEmpty(h: Heap, g: Shape)
    requires Inv(h, g) && NoneParked(g)
    ensures NoFast(g)
  {
    forall a | a in g.blk
      ensures !g.blk[a].kind.Fast?
    {
      if g.blk[a].kind.Fast? {
        assert FastHolds(g, g.blk[a].kind.fastbin, a);
      }
    }
  }

  lemma SizeNotNegative(x: int)
    ensures 0 <= GetSize(x)
  {
  }

  lemma HoleFastFields(x: int)
    requires IsWord(x)
    ensures var y := SetFast(SetHole(x, true), false);
      y == Header(true, false, GetSize(x)) && IsWord(y) && GetSize(y) == GetSize(x)
  {
    HeaderFields(true, GetFast(x), GetSize(x));
    HeaderFields(true, false, GetSize(x));
  }

  lemma AboveClear(h: Heap, g: Shape, a: int, n: int)
    requires Inv(h, g) && a in g.blk && n in g.blk && g.blk[n].kind.Hole?
    ensures forall p :: p in g.blk && g.blk[p].kind.Hole? ==> End(g, n) != p
  {
  }

  lemma NotHoleAbove(h: Heap, g: Shape, a: int)
    requires Inv(h, g) && a in g.blk && LeftClear(g, a) && End(g, a) in g.blk && !g.blk[End(g, a)].kind.Hole?
    ensures HoleFriendly(g, a)
  {
  }

  lemma EndClear(h: Heap, g: Shape, a: int)
    requires Inv(h, g) && a in g.blk && LeftClear(g, a) && End(g, a) == h.end
    ensures HoleFriendly(g, a)
  {
  }

  lemma BelowClear(h: Heap, g: Shape, p: int)
    requires Inv(h, g) && p in g.blk && g.blk[p].kind.Hole?
    ensures LeftClear(g, p)
    ensures 0 <= g.blk[p].size && g.blk[p].kind == Hole(BinIndex(g.blk[p].size))
    ensures BinHolds(g, BinIndex(g.blk[p].size), p)
  {
  }

  lemma NotHoleBelow(h: Heap, g: Shape, p: int, a: int)
    requires Inv(h, g) && a in g.blk && p in g.blk && End(g, p) == a && !g.blk[p].kind.Hole?
    ensures LeftClear(g, a)
  {
    forall q | q in g.blk && g.blk[q].kind.Hole?
      ensures End(g, q) != a
    {
      assert q < p || p < q;
    }
  }

  lemma StartClear(h: Heap, g: Shape)
    requires Inv(h, g)
    ensures LeftClear(g, h.start)
  {
  }

  lemma ListIndex(h: Heap, g: Shape, b: int, a: int) returns (k: int)
    requires Inv(h, g) && 0 <= b < BIN_COUNT && BinHolds(g, b, a)
    ensures InList(h, g, b, a, k)
  {
    assert a in g.lists[b];
    k :| 0 <= k < |g.lists[b]| && g.lists[b][k] == a;
    WordsOf(h, g, a);
  }

  lemma BinHead(h: Heap, g: Shape, b: int)
    requires Inv(h, g) && 0 <= b < BIN_COUNT
    ensures |h.bins| == |g.lists| == BIN_COUNT && h.bins[b] == At(g.lists[b], 0)
  {
    assert Linked(h.mem, h.bins[b], g.lists[b]);
  }

  lemma LinkInBin(h: Heap, g: Shape, b: int, i: int)
    requires Inv(h, g) && 0 <= b < BIN_COUNT && |g.lists| == BIN_COUNT && 0 <= i
    requires At(g.lists[b], i) != NULL
    ensures i < |g.lists[b]| && BinHolds(g, b, g.lists[b][i]) && LinksAt(h.mem, g.lists[b], i)
  {
    hide Bounds, Mapped, Tiled, Preceded, AllTagged, FastBinned, Filed, NoAdjacentHoles;
    var s := g.lists[b];
    assert Linked(h.mem, h.bins[b], s);
  }

  lemma HoleInBin(h: Heap, g: Shape, b: int, i: int)
    requires Inv(h, g) && Quiet(g) && 0 <= b < BIN_COUNT && |g.lists| == BIN_COUNT && 0 <= i
    requires At(g.lists[b], i) != NULL
    ensures i < |g.lists[b]|
    ensures var a := g.lists[b][i];
      && a in g.blk && g.blk[a].kind == Hole(b) && a in h.mem && GetSize(h.mem[a]) == g.blk[a].size
      && a + 8 in h.mem && h.mem[a + 8] == At(g.lists[b], i + 1)
  {
    hide Inv, GetSize;
    LinkInBin(h, g, b, i);
    var a := g.lists[b][i];
    assert Tagged(g.blk[a].kind);
    WordsOf(h, g, a);
    HoleSize(h, g, a);
  }

  lemma BinExhausted(h: Heap, g: Shape, b: int, i: int, size: int)
    requires Inv(h, g) && 0 <= b < BIN_COUNT && |g.lists| == BIN_COUNT && 0 <= i <= |g.lists[b]|
    requires At(g.lists[b], i) == NULL
    requires forall j :: 0 <= j < i ==> g.lists[b][j] in g.blk && g.blk[g.lists[b][j]].size < size
    ensures forall a :: a in g.blk && g.blk[a].kind == Hole(b) ==> g.blk[a].size < size
  {
    var s := g.lists[b];
    assert i < |s| ==> BinHolds(g, b, s[i]);
    forall a | a in g.blk && g.blk[a].kind == Hole(b)
      ensures g.blk[a].size < size
    {
      assert BinHolds(g, b, a);
      assert a in s;
    }
  }

  lemma OwnerIsLive(m: map<int, int>, g: Shape, hs: map<int, Handle>, p: int)
    requires HandlesOk(m, LiveOf(g), hs) && p in hs
    ensures hs[p].owner in g.blk && g.blk[hs[p].owner].kind.Live?
  {
    assert Owns(m, LiveOf(g), p, hs[p]);
  }

  lemma ReusedIsPlaced(h: Heap, g: Shape, live: map<int, int>, a: int, size: int)
    requires Inv(h, g) && a !in live && LiveOf(g) == live[a := size] && size <= FASTBIN_SIZE_THRESHOLD
    ensures PlacedAt(h, g, live, a, a + 8, size) && a + 8 != NULL
  {
    hide Inv, LiveOf;
    BlockOf(h, g, a);
    SmallNotDisplaced(a, size);
  }

  class Heaps {
    var h: Heap
    ghost var g: Shape
    ghost var handles: map<int, Handle>

    /** parep_mpi_init_heap on a mapped region starting at `start`. */
    constructor (start: int, region: map<int, int>)
      requires start % 8 == 0 && HEAP_LIMIT <= start && start + HEAP_LIMIT < TWO62
      requires forall w :: start <= w < start + HEAP_SIZE && w % 8 == 0 ==> w in region
      ensures Ready() && h.start == start && h.end == start + HEAP_SIZE
      ensures handles == map[] && LiveOf(g) == map[] && NoneParked(g)
      ensures g.blk == map[start := Block(HEAP_SIZE - OVERHEAD, Hole(BinIndex(HEAP_SIZE - OVERHEAD)))]
    {
      h := Heap(start, start + HEAP_SIZE, region, seq(BIN_COUNT, i => NULL), seq(FASTBIN_COUNT, i => NULL));
      g := OneBlock(start);
      handles := map[];
      new;
      hide Inv, Kept, GetSize, OneBlock, BinIndex;
      FreshHeap(h, start);
      WordsOf(h, g, start);
      TagSplit(start, HEAP_SIZE - OVERHEAD);
      var index := GetBinIndex(GetSize(h.mem[start]));
      OneBlockIs(start, index);
      AddNode(index, start);
    }

    ghost predicate Valid()
      reads this`h, this`g
    {
      Inv(h, g) && Quiet(g)
    }

    /** The heap is well formed and every pointer still out is good. */
    ghost predicate Ready()
      reads this
    {
      Valid() && HandlesOk(h.mem, LiveOf(g), handles)
    }

    /** One assignment through a pointer into a block that is being worked on. */
    method Put(w: int, v: int, ghost a: int)
      requires Inv(h, g) && Writable(g, a, w)
      modifies this`h
      ensures h == Store(old(h), w, v) && Inv(h, g)
      ensures Kept(old(h.mem), h.mem, LiveOf(g))
    {
      WriteKeeps(h, g, a, w, v);
      h := Store(h, w, v);
    }

    method LinkFirst(b: int, a: int)
      requires 0 <= b < |h.bins|
      modifies this`h
      ensures h == AddedHeap(old(h), b, a)
    {
      var head := h.bins[b];
      h := Store(h, a + 8, NULL);
      h := Store(h, a + 16, NULL);
      if head == NULL {
        h := h.(bins := h.bins[b := a]);
      } else {
        h := Store(h, a + 8, head);
        h := Store(h, head + 16, a);
        h := h.(bins := h.bins[b := a]);
      }
      assert h.mem == AddedHeap(old(h), b, a).mem;
    }

    method Unlink(b: int, a: int)
      requires 0 <= b < |h.bins| && a + 8 in h.mem && a + 16 in h.mem
      modifies this`h
      ensures h == RemovedHeap(old(h), b, a)
    {
      assert h.bins[b := h.bins[b]] == h.bins;
      if h.bins[b] == NULL {
        return;
      }
      var next, prev := h.mem[a + 8], h.mem[a + 16];
      if h.bins[b] == a {
        h := h.(bins := h.bins[b := next]);
        if next != NULL {
          h := Store(h, next + 16, NULL);
        }
        return;
      }
      if next == NULL {
        h := Store(h, prev + 8, NULL);
      } else {
        h := Store(h, prev + 8, next);
        h := Store(h, next + 16, prev);
      }
    }

    method AddNode(b: int, a: int)
      requires Inv(h, g) && a in g.blk && g.blk[a].kind.Loose? && b == BinIndex(g.blk[a].size)
      requires TagsAt(h, Rekind(g, a, Hole(b)), a) && HoleFriendly(g, a)
      modifies this`h, this`g
      ensures g == AddedShape(old(g), b, a) && Inv(h, g) && FirstOf(g, b, a)
      ensures Same(old(h), old(g), h, g)
    {
      AddNodeKeeps(h, g, b, a);
      g := AddedShape(g, b, a);
      LinkFirst(b, a);
    }

    method RemoveNode(b: int, a: int)
      requires Inv(h, g) && 0 <= b < BIN_COUNT && BinHolds(g, b, a)
      modifies this`h, this`g
      ensures Inv(h, g) && g.blk == old(g.blk)[a := Block(old(g.blk[a].size), Loose)]
      ensures Same(old(h), old(g), h, g) && TagWordsSame(old(h.mem), h.mem, old(g))
    {
      ghost var k := ListIndex(h, g, b, a);
      RemoveNodeKeeps(h, g, b, a, k);
      RemoveTagWords(h, g, b, a, k);
      g := RemovedShape(g, b, a, k);
      Unlink(b, a);
    }

    /** The first block of bin `b` with room for `size` bytes. */
    method GetBestFit(b: int, size: int) returns (found: int)
      requires Inv(h, g) && Quiet(g) && 0 <= b < BIN_COUNT
      ensures found == NULL ==> forall a :: a in g.blk && g.blk[a].kind == Hole(b) ==> g.blk[a].size < size
      ensures found != NULL ==> found in g.blk && g.blk[found].kind == Hole(b) && g.blk[found].size >= size
      ensures found != NULL ==> FirstFit(g, b, size, found)
    {
      hide Inv, Quiet;
      BinHead(h, g, b);
      ghost var s := g.lists[b];
      ghost var i := 0;
      found := h.bins[b];
      while found != NULL
        invariant 0 <= i <= |s| && found == At(s, i)
        invariant forall j :: 0 <= j < i ==> s[j] in g.blk && g.blk[s[j]].size < size
        decreases |s| - i
      {
        HoleInBin(h, g, b, i);
        if GetSize(h.mem[found]) >= size {
          assert FitsAt(g, s, i, size, found);
          return;
        }
        found := h.mem[found + 8];
        i := i + 1;
      }
      BinExhausted(h, g, b, i, size);
    }

    /** Write the size of a loose block, then its footer. */
    method Resize(a: int, size: int)
      requires Inv(h, g) && a in g.blk && g.blk[a].kind.Loose? && g.blk[a].size == size
      requires a in h.mem
      modifies this`h
      ensures Inv(h, g) && Sized(h, g, a) && Same(old(h), g, h, g)
      ensures h.mem[a] == SetSize(old(h.mem[a]), size)
    {
      hide Inv, Kept;
      WordsOf(h, g, a);
      HeaderFields(GetHole(h.mem[a]), GetFast(h.mem[a]), size);
      Put(a, SetSize(h.mem[a], size), a);
      label Size:
      CreateFoot(a, a);
      KeptTrans(old(h.mem), old@Size(h.mem), h.mem, LiveOf(g));
    }

    /** create_foot: the footer, found from the size just written, names its header. */
    method CreateFoot(head: int, ghost a: int)
      requires Inv(h, g) && head in h.mem && Writable(g, a, head + 24 + GetSize(h.mem[head]))
      modifies this`h
      ensures h == Store(old(h), head + 24 + GetSize(old(h.mem[head])), head) && Inv(h, g)
      ensures Kept(old(h.mem), h.mem, LiveOf(g))
    {
      hide Inv;
      Put(head + 24 + GetSize(h.mem[head]), head, a);
    }

    /** Merge the block below into a loose block, if it is a hole. */
    method AbsorbPrev(head: int) returns (r: int)
      requires Inv(h, g) && OnlyLoose(g, head) && Sized(h, g, head)
      modifies this`h, this`g
      ensures Inv(h, g) && OnlyLoose(g, r) && Sized(h, g, r) && LeftClear(g, r)
      ensures old(g.blk.Keys) >= g.blk.Keys && End(g, r) == old(End(g, head))
      ensures if r == head then g == old(g) else r < head && HoleAt(old(g), r) && End(old(g), r) == head
      ensures forall x :: x in old(g.blk) && x != head && x != r ==> x in g.blk && g.blk[x] == old(g.blk[x])
      ensures Same(old(h), old(g), h, g)
    {
      hide Inv, Kept, LiveOf;
      KeptRefl(h.mem, LiveOf(g));
      r := head;
      if head != h.start {
        ghost var p := FooterBelow(h, g, head);
        var prev := h.mem[head - 8];
        if GetHole(h.mem[prev]) {
          BelowClear(h, g, prev);
          var index := GetBinIndex(GetSize(h.mem[prev]));
          RemoveNode(index, prev);
          label Removed:
          var headsize := GetSize(h.mem[head]);
          var prevsize := GetSize(h.mem[prev]);
          MergeKeeps(h, g, prev, head);
          g := MergedShape(g, prev, head);
          Resize(prev, prevsize + OVERHEAD + headsize);
          KeptTrans(old(h.mem), old@Removed(h.mem), h.mem, LiveOf(g));
          r := prev;
        } else {
          NotHoleBelow(h, g, prev, head);
        }
      } else {
        StartClear(h, g);
      }
    }

    /** Merge the hole above into a loose block and wipe the tags between them. */
    method AbsorbHole(head: int, next: int)
      requires Inv(h, g) && OnlyLoose(g, head) && Sized(h, g, head) && LeftClear(g, head) && next == End(g, head)
      requires next in g.blk && g.blk[next].kind.Hole? && TagsAt(h, g, next) && GetSize(h.mem[next]) == g.blk[next].size
      modifies this`h, this`g
      ensures Inv(h, g) && OnlyLoose(g, head) && Sized(h, g, head) && HoleFriendly(g, head)
      ensures End(g, head) == old(End(g, next)) && Same(old(h), old(g), h, g)
    {
      hide Inv, Kept, LiveOf, GetSize, Header;
      BelowClear(h, g, next);
      AboveClear(h, g, head, next);
      var index := GetBinIndex(GetSize(h.mem[next]));
      WordsOf(h, g, head);
      WordsOf(h, g, next);
      RemoveNode(index, next);
      label Removed:
      WordsOf(h, g, head);
      WordsOf(h, g, next);
      var headsize := GetSize(h.mem[head]);
      var nextsize := GetSize(h.mem[next]);
      MergeKeeps(h, g, head, next);
      g := MergedShape(g, head, next);
      WipeAndResize(head, next, headsize, nextsize);
      KeptTrans(old(h.mem), old@Removed(h.mem), h.mem, LiveOf(g));
    }

    /** Merge the block above into a loose block, if it is a hole. */
    method AbsorbNext(head: int, next: int)
      requires Inv(h, g) && OnlyLoose(g, head) && Sized(h, g, head) && LeftClear(g, head) && next == End(g, head)
      modifies this`h, this`g
      ensures Inv(h, g) && OnlyLoose(g, head) && Sized(h, g, head) && HoleFriendly(g, head)
      ensures if HoleAt(old(g), next) then End(g, head) == End(old(g), next) else g == old(g)
      ensures Same(old(h), old(g), h, g)
    {
      hide Inv, Kept, LiveOf, GetHole, GetSize;
      KeptRefl(h.mem, LiveOf(g));
      if next != h.end {
        HeaderAbove(h, g, head);
        if GetHole(h.mem[next]) {
          AbsorbHole(head, next);
        } else {
          NotHoleAbove(h, g, head);
        }
      } else {
        EndClear(h, g, head);
      }
    }

    method WipeAndResize(head: int, next: int, headsize: int, nextsize: int)
      requires Inv(h, g) && head in g.blk && g.blk[head].kind.Loose?
      requires g.blk[head].size == headsize + OVERHEAD + nextsize
      requires head in h.mem && next in h.mem
      requires 0 <= headsize && 0 <= nextsize && next == head + OVERHEAD + headsize && GetSize(h.mem[next]) == nextsize
      modifies this`h
      ensures Inv(h, g) && Sized(h, g, head) && Same(old(h), g, h, g)
    {
      hide Inv, Kept, LiveOf, SetSize, GetSize, Header;
      WordsOf(h, g, head);
      SizeWritten(h.mem[head], headsize + OVERHEAD + nextsize);
      Put(head, SetSize(h.mem[head], headsize + OVERHEAD + nextsize), head);
      label L1:
      WipeTags(next, head);
      KeptTrans(old(h.mem), old@L1(h.mem), h.mem, LiveOf(g));
      label L2:
      CreateFoot(head, head);
      KeptTrans(old(h.mem), old@L2(h.mem), h.mem, LiveOf(g));
    }

    /** Clear the footer and the packed word of the header at `node`, inside the loose block `a`. */
    method WipeTags(node: int, ghost a: int)
      requires Inv(h, g) && a in g.blk && g.blk[a].kind.Loose? && node in h.mem
      requires a < node < End(g, a) && node + 24 + GetSize(h.mem[node]) < End(g, a)
      modifies this`h
      ensures Inv(h, g) && Same(old(h), g, h, g) && h.mem.Keys >= old(h.mem.Keys)
      ensures forall w :: w in old(h.mem) && w != node && w != node + 24 + old(GetSize(h.mem[node])) ==>
                h.mem[w] == old(h.mem[w])
    {
      hide Inv, Kept, LiveOf, SetSize, SetHole, SetFast;
      SizeNotNegative(h.mem[node]);
      Put(node + 24 + GetSize(h.mem[node]), 0, a);
      label L2:
      Put(node, SetSize(h.mem[node], 0), a);
      KeptTrans(old(h.mem), old@L2(h.mem), h.mem, LiveOf(g));
      label L3:
      Put(node, SetHole(h.mem[node], false), a);
      KeptTrans(old(h.mem), old@L3(h.mem), h.mem, LiveOf(g));
      label L4:
      Put(node, SetFast(h.mem[node], false), a);
      KeptTrans(old(h.mem), old@L4(h.mem), h.mem, LiveOf(g));
    }

    /** Mark a loose block as a hole and file it. */
    method FinishHole(head: int)
      requires Inv(h, g) && OnlyLoose(g, head) && Sized(h, g, head) && HoleFriendly(g, head)
      modifies this`h, this`g
      ensures Valid() && head in g.blk
      ensures g.blk[head] == Block(old(g.blk[head].size), Hole(BinIndex(old(g.blk[head].size))))
      ensures Same(old(h), old(g), h, g) && FirstOf(g, g.blk[head].kind.bin, head)
    {
      hide Inv, Kept, LiveOf;
      WordsOf(h, g, head);
      HoleFastFields(h.mem[head]);
      Put(head, SetHole(h.mem[head], true), head);
      label L1:
      Put(head, SetFast(h.mem[head], false), head);
      KeptTrans(old(h.mem), old@L1(h.mem), h.mem, LiveOf(g));
      label L2:
      var index := GetBinIndex(GetSize(h.mem[head]));
      AddNode(index, head);
      KeptTrans(old(h.mem), old@L2(h.mem), h.mem, LiveOf(g));
    }

    /** Free a loose block: merge it with the holes on either side and file the result. */
    method Coalesce(head: int) returns (node: int)
      requires Inv(h, g) && OnlyLoose(g, head) && Sized(h, g, head)
      modifies this`h, this`g
      ensures Valid() && Same(old(h), old(g), h, g)
      ensures head in old(g.blk) && HoleAt(g, node) && Spans(old(g), head, node, End(g, node))
      ensures node in h.mem && GetSize(h.mem[node]) == g.blk[node].size && FirstOf(g, g.blk[node].kind.bin, node)
    {
      hide Inv, Kept, LiveOf, Spans, LeftClear;
      WordsOf(h, g, head);
      EndAbove(h, g, head);
      var next := head + 24 + GetSize(h.mem[head]) + 8;
      ghost var g0 := g;
      node := AbsorbPrev(head);
      label L1:
      ghost var g1 := g;
      if next in g.blk { EndAbove(h, g, next); }
      AbsorbNext(node, next);
      SpansAfter(g0, head, g1, node, g);
      KeptTrans(old(h.mem), old@L1(h.mem), h.mem, LiveOf(g));
      label L2:
      FinishHole(node);
      KeptTrans(old(h.mem), old@L2(h.mem), h.mem, LiveOf(g));
      HoleSize(h, g, node);
    }

    /** Unlink the head of a non-empty fastbin. */
    method PopFast(i: int) returns (head: int)
      requires Valid() && 0 <= i < FASTBIN_COUNT && |h.fastbins| == FASTBIN_COUNT && h.fastbins[i] != NULL
      modifies this`h, this`g
      ensures Inv(h, g) && OnlyLoose(g, head) && Sized(h, g, head)
      ensures |old(g.flists[i])| > 0 && g.flists == old(g.flists)[i := old(g.flists[i])[1..]]
      ensures LiveSame(old(h), old(g), h, g) && h.end == old(h.end)
    {
      hide Inv, Kept, LiveOf;
      head := h.fastbins[i];
      FastHead(h, g, i);
      PopFastKeeps(h, g, i);
      KeptRefl(h.mem, LiveOf(g));
      g := PoppedShape(g, i);
      h := h.(fastbins := h.fastbins[i := h.mem[head + 8]]);
    }

    /** Turn every fast block into a hole, merging as it goes. */
    method Consolidate()
      requires Valid()
      modifies this`h, this`g
      ensures Valid() && NoneParked(g) && LiveSame(old(h), old(g), h, g) && h.end == old(h.end)
    {
      hide Inv, Kept, LiveOf;
      KeptRefl(h.mem, LiveOf(g));
      FastShape(h, g);
      for i := 0 to FASTBIN_COUNT
        invariant Valid() && |h.fastbins| == |g.flists| == FASTBIN_COUNT
        invariant LiveSame(old(h), old(g), h, g) && h.end == old(h.end)
        invariant forall j :: 0 <= j < i ==> g.flists[j] == []
      {
        while h.fastbins[i] != NULL
          invariant Valid() && |h.fastbins| == |g.flists| == FASTBIN_COUNT
          invariant LiveSame(old(h), old(g), h, g) && h.end == old(h.end)
          invariant forall j :: 0 <= j < i ==> g.flists[j] == []
          decreases |g.flists[i]|
        {
          label L0:
          var head := PopFast(i);
          KeptTrans(old(h.mem), old@L0(h.mem), h.mem, LiveOf(g));
          label L1:
          var _ := Coalesce(head);
          KeptTrans(old(h.mem), old@L1(h.mem), h.mem, LiveOf(g));
          FastShape(h, g);
        }
        FastEmpty(h, g, i);
      }
    }

    /** Ask for `sz` more bytes; `granted` is mremap's answer. */
    method ExpandHeap(sz: int, granted: bool) returns (ok: bool)
      requires Valid() && (sz == 0 || (GrowthFits(h, sz) && (OVERHEAD <= sz || EndsInHole(h, g))))
      modifies this`h, this`g
      ensures Valid() && ok == (sz == 0 || granted)
      ensures LiveSame(old(h), old(g), h, g) && g.flists == old(g.flists)
      ensures h.end == old(h.end) + if ok then sz else 0
      ensures !ok ==> g == old(g)
    {
      hide Inv, Kept, LiveOf;
      KeptRefl(h.mem, LiveOf(g));
      if sz == 0 { return true; }
      if !granted { return false; }
      LastBlock(h, g);
      var last := h.mem[h.end - 8];
      OnlyOneLast(h, g, last);
      if GetHole(h.mem[last]) {
        ExpandLast(last, sz);
      } else {
        ExpandNew(sz, last);
      }
      ok := true;
    }

    method ExpandLast(last: int, sz: int)
      requires Valid() && GrowthFits(h, sz)
      requires last in g.blk && g.blk[last].kind.Hole? && End(g, last) == h.end && TagsAt(h, g, last)
      modifies this`h, this`g
      ensures Valid() && LiveSame(old(h), old(g), h, g) && g.flists == old(g.flists) && h.end == old(h.end) + sz
    {
      hide Inv, Kept, LiveOf;
      BelowClear(h, g, last);
      WordsOf(h, g, last);
      HeaderFields(true, false, g.blk[last].size);
      var index := GetBinIndex(GetSize(h.mem[last]));
      RemoveNode(index, last);
      label L1:
      GrowLastKeeps(h, g, last, sz);
      g := GrownLast(g, last, sz);
      h := GrownHeap(h, sz);
      KeptTrans(old(h.mem), old@L1(h.mem), h.mem, LiveOf(g));
      label L2:
      GrownWords(old@L1(h), sz, last);
      var lastsize := GetSize(h.mem[last]);
      FileLast(last, lastsize + sz);
      KeptTrans(old(h.mem), old@L2(h.mem), h.mem, LiveOf(g));
    }

    /** Size the loose last block, whose flags already say hole, and file it. */
    method FileLast(node: int, size: int)
      requires Inv(h, g) && OnlyLoose(g, node) && g.blk[node].size == size && End(g, node) == h.end
      requires LeftClear(g, node)
      requires node in h.mem && IsWord(h.mem[node]) && GetHole(h.mem[node]) && !GetFast(h.mem[node])
      modifies this`h, this`g
      ensures Valid() && Same(old(h), old(g), h, g)
    {
      hide Inv, Kept, LiveOf, GetHole, GetFast;
      WordsOf(h, g, node);
      Resize(node, size);
      label L1:
      EndClear(h, g, node);
      var index := GetBinIndex(GetSize(h.mem[node]));
      AddNode(index, node);
      KeptTrans(old(h.mem), old@L1(h.mem), h.mem, LiveOf(g));
    }

    method ExpandNew(sz: int, ghost last: int)
      requires Valid() && OVERHEAD <= sz && GrowthFits(h, sz)
      requires last in g.blk && !g.blk[last].kind.Hole? && End(g, last) == h.end
      modifies this`h, this`g
      ensures Valid() && LiveSame(old(h), old(g), h, g) && g.flists == old(g.flists) && h.end == old(h.end) + sz
    {
      hide Inv, Kept, LiveOf;
      var node := h.end;
      WordsOf(h, g, last);
      GrowNewKeeps(h, g, sz);
      g := GrownNew(h, g, sz);
      h := GrownHeap(h, sz);
      label L1:
      WordsOf(h, g, node);
      FreshWord(old(h), old(g), sz);
      NotHoleBelow(h, g, last, node);
      FreshHeader();
      Put(node, SetHole(h.mem[node], true), node);
      KeptTrans(old(h.mem), old@L1(h.mem), h.mem, LiveOf(g));
      label L2:
      Put(node, SetFast(h.mem[node], false), node);
      KeptTrans(old(h.mem), old@L2(h.mem), h.mem, LiveOf(g));
      label L3:
      FileLast(node, sz - OVERHEAD);
      KeptTrans(old(h.mem), old@L3(h.mem), h.mem, LiveOf(g));
    }

    /** No bin has a fit: consolidate, or if that has been done, grow the heap. */
    method MakeRoom(size: int, attempted: bool, canGrow: int -> bool) returns (ok: bool)
      requires Valid() && NoFit(g, size, BIN_COUNT - 1) && (attempted ==> NoneParked(g))
      modifies this`h, this`g
      ensures Valid() && LiveSame(old(h), old(g), h, g) && NoneParked(g)
      ensures !attempted ==> ok && h.end == old(h.end)
      ensures attempted && ok ==>
                old(h.end) - h.start < HEAP_MAX_SIZE && h.end - h.start == NextSize(old(h.end) - h.start) <= HEAP_LIMIT
      ensures !ok ==> NoRoom(h, g, size, canGrow) && h.end == old(h.end)
    {
      hide Inv, Kept, LiveOf, NoFit, NextSize;
      KeptRefl(h.mem, LiveOf(g));
      if !attempted {
        Consolidate();
        return true;
      }
      if h.end - h.start >= HEAP_MAX_SIZE {
        NoFitAnywhere(h, g, size);
        AllFastEmpty(h, g);
        return false;
      }
      GrowthIsSmall(h, g);
      var want := NextSize(h.end - h.start);
      ok := ExpandHeap(want - (h.end - h.start), canGrow(want));
      BoundsOf(h, g);
      if !ok {
        AllFastEmpty(h, g);
        NoFitAnywhere(h, g, size);
      }
    }

    /** Find a hole of at least `size` bytes, consolidating and then growing the heap as needed.
        mremap grants a heap of a given total size when `canGrow` says so. */
    method Search(size: int, canGrow: int -> bool) returns (found: int, index: int)
      requires Valid() && 0 <= size
      modifies this`h, this`g
      ensures Valid() && LiveSame(old(h), old(g), h, g)
      ensures found != NULL ==> found in g.blk && g.blk[found].kind == Hole(index) && g.blk[found].size >= size
      ensures found != NULL ==> Chosen(g, size, found)
      ensures found == NULL ==> NoRoom(h, g, size, canGrow)
      ensures HasFit(old(g), size) ==> found != NULL && h == old(h) && g == old(g)
      ensures GrowsTo(old(h.end) - h.start, h.end - h.start)
      ensures h.end != old(h.end) || NoneParked(old(g)) ==> NoneParked(g)
    {
      hide Inv, Kept, LiveOf, BinIndex, NoFit, HasFit, FirstFit, GrowsTo, NoneParked, NoRoom, NextSize;
      KeptRefl(h.mem, LiveOf(g));
      BoundsOf(h, g);
      NoGrowth(h.end - h.start);
      NoFitBelow(h, g, size);
      index := GetBinIndex(size);
      var base := index;
      found := GetBestFit(index, size);
      if found == NULL { NoFitUpTo(h, g, size, index); }
      var attempted := false;
      while found == NULL
        invariant Valid() && LiveSame(old(h), old(g), h, g) && 0 < old(h.end) - h.start
        invariant base == BinIndex(size) && base <= index < BIN_COUNT
        invariant found == NULL ==> NoFit(g, size, index)
        invariant found != NULL ==> found in g.blk && g.blk[found].kind == Hole(index) && g.blk[found].size >= size
        invariant found != NULL ==> FirstFit(g, index, size, found) && NoFit(g, size, index - 1)
        invariant if attempted then NoneParked(g) else h == old(h) && g == old(g)
        invariant HasFit(old(g), size) ==> h == old(h) && g == old(g)
        invariant GrowsTo(old(h.end) - h.start, h.end - h.start)
        decreases HEAP_LIMIT - (h.end - h.start), if attempted then 0 else 1, BIN_COUNT - index
      {
        label L0:
        if index + 1 >= BIN_COUNT {
          NoFitNowhere(h, g, size);
          GrowsFurther(old(h.end) - h.start, h.end - h.start);
          NextIsLarger(h.end - h.start);
          var ok := MakeRoom(size, attempted, canGrow);
          KeptTrans(old(h.mem), old@L0(h.mem), h.mem, LiveOf(g));
          if !ok { return; }
          attempted := true;
          NoFitBelow(h, g, size);
          index := base - 1;
        }
        index := index + 1;
        found := GetBestFit(index, size);
        if found == NULL { NoFitUpTo(h, g, size, index); }
      }
    }

    /** Cut a departing hole down to `t` bytes and file the rest as a hole of its own. */
    method SplitOff(found: int, t: int, ghost b: int)
      requires Inv(h, g) && Leaving(h, g, found, b) && RightClear(g, found)
      requires 0 <= t && t % 8 == 0 && t + OVERHEAD <= g.blk[found].size
      modifies this`h, this`g
      ensures Inv(h, g) && Leaving(h, g, found, b) && g.blk[found].size == t
      ensures Same(old(h), old(g), h, g)
    {
      hide Inv, Kept, LiveOf, GetHole, GetFast, SetHole, SetFast, SetSize;
      var split := found + OVERHEAD + t;
      var foundsize := GetSize(h.mem[found]);
      SplitKeeps(h, g, found, t);
      WordsOf(h, g, found);
      ghost var last := End(g, found);
      g := SplitShape(g, found, t);
      WordsOf(h, g, split);
      WordsOf(h, g, found);
      SplitClear(h, g, found, split, last);
      TagSplit(split, foundsize - t - OVERHEAD);
      label L1:
      var index := GetBinIndex(GetSize(h.mem[split]));
      AddNode(index, split);
      KeptTrans(old(h.mem), old@L1(h.mem), h.mem, LiveOf(g));
      label L2:
      WordsOf(h, g, found);
      SizeWritten(h.mem[found], t);
      Put(found, SetSize(h.mem[found], t), found);
      KeptTrans(old(h.mem), old@L2(h.mem), h.mem, LiveOf(g));
      label L3:
      CreateFoot(found, found);
      KeptTrans(old(h.mem), old@L3(h.mem), h.mem, LiveOf(g));
    }

    /** The tags of the upper part: size, hole, not fast, footer. */
    method TagSplit(split: int, size: int)
      requires Inv(h, g) && split in g.blk && g.blk[split].kind.Loose? && g.blk[split].size == size && split in h.mem
      modifies this`h
      ensures Inv(h, g) && TagsAt(h, Rekind(g, split, Hole(BinIndex(size))), split) && Same(old(h), g, h, g)
      ensures GetSize(h.mem[split]) == size
    {
      hide Inv, Kept, LiveOf, GetHole, GetFast, SetHole, SetFast, SetSize;
      WordsOf(h, g, split);
      HoleWritten(h.mem[split], size);
      Put(split, SetSize(h.mem[split], size), split);
      label L1:
      Put(split, SetHole(h.mem[split], true), split);
      KeptTrans(old(h.mem), old@L1(h.mem), h.mem, LiveOf(g));
      label L2:
      Put(split, SetFast(h.mem[split], false), split);
      KeptTrans(old(h.mem), old@L2(h.mem), h.mem, LiveOf(g));
      label L3:
      CreateFoot(split, split);
      KeptTrans(old(h.mem), old@L3(h.mem), h.mem, LiveOf(g));
    }

    /** Shrink a departing hole to what the request needs, if the rest is worth keeping. */
    method Trim(found: int, size: int, ghost b: int)
      requires Inv(h, g) && Leaving(h, g, found, b) && RightClear(g, found)
      requires 0 <= size && size % 8 == 0 && Needed(size) <= g.blk[found].size
      modifies this`h, this`g
      ensures Inv(h, g) && Leaving(h, g, found, b) && Same(old(h), old(g), h, g)
      ensures g.blk[found].size >= size + Lead(found, size)
      ensures g.blk[found].size == Left(old(g.blk[found].size), size + Lead(found, size))
    {
      hide Inv, Kept, LiveOf, RoundUp32, GetSize;
      KeptRefl(h.mem, LiveOf(g));
      LeadFits(h, g, found, size);
      if GetSize(h.mem[found]) - size > OVERHEAD + MIN_ALLOC {
        var splitpointsize := size;
        if size >= LARGE {
          var aligned := RoundUp32(found + 8);
          if aligned != found + 8 {
            var lead := aligned - (found + 8);
            splitpointsize := splitpointsize + lead;
          }
        }
        if GetSize(h.mem[found]) - splitpointsize > OVERHEAD + MIN_ALLOC {
          SplitOff(found, splitpointsize, b);
        }
      }
    }

    /** Clear the flags of a departing hole and take it out of its bin. */
    method Detach(found: int, index: int)
      requires Inv(h, g) && Leaving(h, g, found, index) && 0 <= index < BIN_COUNT
      modifies this`h, this`g
      ensures Inv(h, g) && OnlyLoose(g, found) && g.blk[found].size == old(g.blk[found].size)
      ensures TagsAt(h, Rekind(g, found, Live), found) && Same(old(h), old(g), h, g)
    {
      hide Inv, Kept, LiveOf;
      WordsOf(h, g, found);
      LiveWritten(h.mem[found]);
      Put(found, SetHole(h.mem[found], false), found);
      label L1:
      Put(found, SetFast(h.mem[found], false), found);
      KeptTrans(old(h.mem), old@L1(h.mem), h.mem, LiveOf(g));
      label L2:
      assert TagsAt(h, Rekind(g, found, Live), found);
      ghost var g2 := g;
      RemoveNode(index, found);
      assert found in g2.blk && End(g2, found) == End(g, found);
      KeptTrans(old(h.mem), old@L2(h.mem), h.mem, LiveOf(g));
    }

    /** Hand a detached block out: clear its links, and for a displaced pointer leave the address
        of the payload in the word below it. */
    method HandOut(found: int, size: int) returns (p: int)
      requires Inv(h, g) && OnlyLoose(g, found) && TagsAt(h, Rekind(g, found, Live), found)
      requires 0 <= size && size + Lead(found, size) <= g.blk[found].size
      modifies this`h, this`g
      ensures Valid() && g.blk == old(g.blk)[found := Block(old(g.blk[found].size), Live)]
      ensures g.flists == old(g.flists) && g.lists == old(g.lists)
      ensures h.start == old(h.start) && h.end == old(h.end) && h.fastbins == old(h.fastbins) && h.bins == old(h.bins)
      ensures LiveOf(g) == old(LiveOf(g))[found := g.blk[found].size] && Kept(old(h.mem), h.mem, old(LiveOf(g)))
      ensures p == found + 8 + Lead(found, size)
      ensures p != found + 8 ==> p - 8 in h.mem && h.mem[p - 8] == found + 8
    {
      hide Inv, Kept, LiveOf;
      AlignedBlock(h, g, found);
      LeadIsSmall(found, size);
      WordsOf(h, g, found);
      Put(found + 16, NULL, found);
      label L1:
      Put(found + 8, NULL, found);
      KeptTrans(old(h.mem), old@L1(h.mem), h.mem, LiveOf(g));
      p := found + 8;
      if size >= LARGE {
        var aligned := RoundUp32(found + 8);
        if aligned != found + 8 {
          label L2:
          Put(aligned - 8, found + 8, found);
          KeptTrans(old(h.mem), old@L2(h.mem), h.mem, LiveOf(g));
          p := aligned;
        }
      }
      TagLiveKeeps(h, g, found);
      g := Rekind(g, found, Live);
    }

    /** Carve a request of `size` bytes out of the hole found for it. */
    method Place(found: int, index: int, size: int) returns (p: int)
      requires Valid() && found in g.blk && g.blk[found].kind == Hole(index)
      requires 0 <= size && size % 8 == 0 && Needed(size) <= g.blk[found].size
      modifies this`h, this`g
      ensures Valid() && h.start == old(h.start) && h.end == old(h.end) && p != NULL
      ensures PlacedAt(h, g, old(LiveOf(g)), found, p, size) && Kept(old(h.mem), h.mem, old(LiveOf(g)))
      ensures found in g.blk && g.blk[found].size == Left(old(g.blk[found].size), size + Lead(found, size))
      ensures g.flists == old(g.flists)
    {
      hide Inv, Kept, LiveOf;
      AlignedBlock(h, g, found);
      LeadIsSmall(found, size);
      if size >= LARGE {
        var aligned := RoundUp32(found + 8);
        if aligned != found + 8 {
          var lead := aligned - (found + 8);
          if lead >= OVERHEAD + MIN_ALLOC {
            // Cutting off a leading block: never reached, the lead is at most 24 bytes.
            assert false;
          }
        }
      }
      HoleToLeave(h, g, found);
      UntagHoleKeeps(h, g, found);
      g := Rekind(g, found, Pending(index));
      label L1:
      Trim(found, size, index);
      label L2:
      Detach(found, index);
      KeptTrans(old(h.mem), old@L2(h.mem), h.mem, LiveOf(g));
      label L3:
      p := HandOut(found, size);
      KeptTrans(old(h.mem), old@L3(h.mem), h.mem, old(LiveOf(g)));
      WordsOf(h, g, found);
      BoundsOf(h, g);
    }

    /** Reuse the head of a fastbin. */
    method TakeFast(i: int) returns (p: int, ghost found: int)
      requires Valid() && 0 <= i < FASTBIN_COUNT && |h.fastbins| == FASTBIN_COUNT && h.fastbins[i] != NULL
      modifies this`h, this`g
      ensures Valid() && p == found + 8 && found !in old(LiveOf(g)) && Reused(old(g), i, found, g)
      ensures h.start == old(h.start) && h.end == old(h.end) && h.bins == old(h.bins)
      ensures LiveOf(g) == old(LiveOf(g))[found := 8 * i] && Kept(old(h.mem), h.mem, old(LiveOf(g)))
    {
      hide Inv, Kept, LiveOf, GetHole, GetFast, SetHole, SetFast, SetSize;
      var node := h.fastbins[i];
      found := node;
      FastHead(h, g, i);
      NotLive(g, node);
      PopFastKeeps(h, g, i);
      g := PoppedShape(g, i);
      ghost var popped := PoppedHeap(h, i);
      var x := SetFast(h.mem[node], false);
      FastCleared(8 * i);
      WriteKeeps(popped, g, node, node, x);
      h := Store(h, node, x);
      h := h.(fastbins := h.fastbins[i := h.mem[node + 8]]);
      assert h == Store(popped, node, x);
      label L1:
      p := HandOut(node, 8 * i);
      KeptTrans(old(h.mem), old@L1(h.mem), h.mem, old(LiveOf(g)));
    }

    /** Carve the request out of a hole, growing the heap if none is large enough. */
    method TakeHole(size: int, canGrow: int -> bool) returns (p: int, ghost found: int)
      requires Valid() && 0 <= size && size % 8 == 0
      modifies this`h, this`g
      ensures Valid() && h.start == old(h.start) && Kept(old(h.mem), h.mem, old(LiveOf(g)))
      ensures p == NULL ==> LiveOf(g) == old(LiveOf(g)) && NoRoom(h, g, Needed(size), canGrow)
      ensures p != NULL ==> PlacedAt(h, g, old(LiveOf(g)), found, p, size)
      ensures size < MIN_LARGE_SIZE && HasFit(old(g), size) ==>
                p != NULL && CutFrom(old(g), found, size, g) && Chosen(old(g), size, found)
                && h.end == old(h.end) && g.flists == old(g.flists)
      ensures size >= MIN_LARGE_SIZE ==> NoneParked(g)
      ensures GrowsTo(old(h.end) - h.start, h.end - h.start) && (h.end != old(h.end) ==> NoneParked(g))
    {
      hide Inv, Kept, LiveOf, NoRoom, PlacedAt, Quiet, HasFit, Chosen, GrowsTo;
      KeptRefl(h.mem, LiveOf(g));
      NoGrowth(h.end - h.start);
      if size >= MIN_LARGE_SIZE {
        Consolidate();
      }
      label L1:
      var node, index := Search(Needed(size), canGrow);
      found := node;
      KeptTrans(old(h.mem), old@L1(h.mem), h.mem, LiveOf(g));
      if node == NULL { return NULL, node; }
      label L2:
      p := Place(node, index, size);
      KeptTrans(old(h.mem), old@L2(h.mem), h.mem, old(LiveOf(g)));
    }

    /** A parked block of the size asked for, or else a hole. */
    method Serve(size: int, canGrow: int -> bool) returns (p: int, ghost owner: int)
      requires Valid() && 0 <= size && size % 8 == 0
      modifies this`h, this`g
      ensures Valid() && h.start == old(h.start) && Kept(old(h.mem), h.mem, old(LiveOf(g)))
      ensures p == NULL ==> LiveOf(g) == old(LiveOf(g)) && NoRoom(h, g, Needed(size), canGrow)
      ensures p != NULL ==> PlacedAt(h, g, old(LiveOf(g)), owner, p, size)
      ensures Service(old(h), old(g), size, p, owner, h, g)
    {
      hide Inv, Kept, LiveOf, NoRoom, Quiet, Lead, Needed, HasFit, CutFrom, Chosen, Reused, GrowsTo, NoneParked,
        PlacedAt;
      NoGrowth(h.end - h.start);
      FastShape(h, g);
      if size <= FASTBIN_SIZE_THRESHOLD && h.fastbins[size / 8] != NULL {
        SomeWaiting(h, g, size / 8);
        p, owner := TakeFast(size / 8);
        ReusedIsPlaced(h, g, old(LiveOf(g)), owner, size);
      } else {
        if size <= FASTBIN_SIZE_THRESHOLD { NoneWaiting(h, g, size / 8); }
        p, owner := TakeHole(size, canGrow);
      }
    }

    /** parep_mpi_malloc.  A non-NULL result is a fresh pointer to n bytes of one new live block. */
    method Malloc(n: int, canGrow: int -> bool) returns (p: int, ghost owner: int)
      requires Ready() && 0 <= n < TWO64 - 32
      modifies this
      ensures Ready() && h.start == old(h.start) && Kept(old(h.mem), h.mem, old(LiveOf(g)))
      ensures p == NULL ==> LiveOf(g) == old(LiveOf(g)) && handles == old(handles)
      ensures p == NULL ==> n == 0 || NoRoom(h, g, SearchSize(n), canGrow)
      ensures p != NULL ==> n != 0 && p !in old(handles) && handles == old(handles)[p := Handle(owner, n)]
      ensures p != NULL ==> owner !in old(LiveOf(g)) && owner in LiveOf(g) && LiveOf(g) - {owner} == old(LiveOf(g))
      ensures p != NULL ==> p == owner + 8 + Lead(owner, RoundDown(n))
      ensures p != NULL && RoundDown(n) >= LARGE ==> p % 32 == 0
      ensures p != NULL ==> MayServe(owner, LiveOf(g)[owner], RoundDown(n))
      ensures n != 0 ==> Service(old(h), old(g), RoundDown(n), p, owner, h, g)
      ensures n == 0 ==> p == NULL && h == old(h) && g == old(g)
    {
      hide Inv, Kept, LiveOf, NoRoom, Quiet, HandlesOk, RoundDown, Lead, SearchSize, Needed, Service;
      KeptRefl(h.mem, LiveOf(g));
      if n == 0 { return NULL, NULL; }
      var size := RoundDown(n);
      RoundDownFacts(n);
      SearchSizeFits(n);
      p, owner := Serve(size, canGrow);
      if p == NULL {
        HandlesSame(old(h.mem), h.mem, LiveOf(g), handles);
        return;
      }
      LeadIsSmall(owner, size);
      NewHandle(old(h.mem), h, old(LiveOf(g)), g, handles, p, Handle(owner, n));
      BlockOf(h, g, owner);
      AlignedBlock(h, g, owner);
      handles := handles[p := Handle(owner, n)];
    }

    /** Park a freed block of at most 64 bytes in the fastbin of its size. */
    method Park(head: int)
      requires Inv(h, g) && OnlyLoose(g, head) && TagsAt(h, Rekind(g, head, Live), head)
      requires g.blk[head].size <= FASTBIN_SIZE_THRESHOLD
      modifies this`h, this`g
      ensures Valid() && LiveSame(old(h), old(g), h, g) && h.end == old(h.end)
      ensures head in old(g.blk) && Parked(old(g), head, g)
    {
      hide Inv, Kept, LiveOf, GetHole, GetFast, SetHole, SetFast, SetSize;
      WordsOf(h, g, head);
      AlignedBlock(h, g, head);
      FastShape(h, g);
      LiveHeader(g.blk[head].size);
      var i := GetSize(h.mem[head]) / 8;
      Put(head, SetFast(h.mem[head], true), head);
      label L1:
      PushFastKeeps(h, g, i, head);
      g := PushedShape(g, i, head);
      h := Store(h, head + 8, h.fastbins[i]);
      h := h.(fastbins := h.fastbins[i := head]);
      KeptTrans(old(h.mem), old@L1(h.mem), h.mem, LiveOf(g));
    }

    /** parep_mpi_free.  Only the block behind the pointer stops being live. */
    method Free(p: int)
      requires Ready() && (p == NULL || p in handles)
      modifies this
      ensures Ready() && h.start == old(h.start) && h.end == old(h.end)
      ensures p == NULL ==> h == old(h) && g == old(g) && handles == old(handles)
      ensures p != NULL ==> handles == old(handles) - {p} && LiveOf(g) == old(LiveOf(g)) - {old(handles[p]).owner}
      ensures p != NULL ==> Freed(old(g), old(handles[p]).owner, g)
      ensures Kept(old(h.mem), h.mem, LiveOf(g))
    {
      hide Inv, Kept, LiveOf, HandlesOk, Quiet, Spans, NoneParked;
      KeptRefl(h.mem, LiveOf(g));
      if p == NULL { return; }
      HandleOf(h.mem, LiveOf(g), handles, p);
      BackPointerFindsOwner(h, g, p, handles[p]);
      var q := p;
      var candidate := h.mem[p - 8];
      if h.start <= candidate < h.end { q := candidate; }
      var head := q - 8;
      DropHandle(h.mem, LiveOf(g), handles, p);
      LiveBlock(h, g, head);
      UntagLiveKeeps(h, g, head);
      g := Rekind(g, head, Loose);
      KeptRefl(h.mem, LiveOf(g));
      if GetSize(h.mem[head]) <= FASTBIN_SIZE_THRESHOLD {
        Park(head);
      } else {
        var node := Coalesce(head);
        label L1:
        KeptRefl(h.mem, LiveOf(g));
        ghost var hi := End(g, node);
        SpansAlike(old(g), head, node, hi);
        if GetSize(h.mem[node]) >= CONSOLIDATION_THRESHOLD {
          Consolidate();
        }
        KeptTrans(old(h.mem), old@L1(h.mem), h.mem, LiveOf(g));
        assert Merged(old(g), node, hi, g);
      }
      handles := handles - {p};
      HandlesSame(old(h.mem), h.mem, LiveOf(g), handles);
    }

    /** Free a block of at most 64 bytes and ask for as much again: the same block comes back. */
    method FreeThenMalloc(p: int, n: int, canGrow: int -> bool) returns (q: int)
      requires Ready() && p in handles && p != NULL && 0 < n < TWO64 - 32
      requires handles[p].owner in g.blk && RoundDown(n) == g.blk[handles[p].owner].size <= 64
      modifies this
      ensures Ready() && q == old(handles[p]).owner + 8 && g == old(g)
    {
      hide Inv, HandlesOk, Kept, LiveOf, RoundDown, Lead, Quiet, GrowsTo, NoRoom, Chosen, CutFrom;
      ghost var was, a := g, handles[p].owner;
      OwnerIsLive(h.mem, g, handles, p);
      RoundDownFacts(n);
      Free(p);
      FastShape(h, g);
      ghost var a';
      q, a' := Malloc(n, canGrow);
      assert g.flists == was.flists && g.blk == was.blk;
    }

    /** A caller stores into the bytes it was given. */
    method CallerWrite(p: int, w: int, v: int)
      requires Ready() && p in handles && p <= w < p + handles[p].len && w % 8 == 0
      modifies this`h
      ensures Ready() && h == Store(old(h), w, v)
    {
      assert Owns(h.mem, LiveOf(g), p, handles[p]);
      PayloadStoreKeeps(h, g, handles, p, w, v);
      h := Store(h, w, v);
    }

    /** Move a fresh pointer up to the requested alignment, leaving the original in the word below it. That
        word lies in the pointer's own block, and the heap stays good, when the result is no higher than the
        end of the payload. */
    method AlignWithin(orig: int, alignment: int) returns (p: int)
      requires Ready() && orig in handles && 8 <= alignment && alignment % 8 == 0
      modifies this`h
      ensures h == if p == orig then old(h) else Store(old(h), p - 8, orig)
      ensures AlignedUp(orig, alignment, p)
      ensures SlotInside(LiveOf(g), handles[orig].owner, p) ==>
                Ready() && Kept(old(h.mem), h.mem, LiveOf(g) - {handles[orig].owner})
    {
      hide Inv, HandlesOk, LiveOf, RoundUp, Quiet, IsMultiple, Kept;
      AlignFacts(h.mem, LiveOf(g), handles, orig, alignment);
      KeptRefl(h.mem, LiveOf(g) - {handles[orig].owner});
      p := RoundUp(orig, alignment);
      if p != orig {
        p := RoundUp(orig + 8, alignment);
        AlignStoreKeeps(h, g, handles, orig, p - 8);
        h := Store(h, p - 8, orig);
      }
    }

    /** parep_mpi_posix_memalign.  The inner request is a 64-bit sum.  The bytes fit exactly when that sum
        does not wrap; a pointer can be freed exactly when the inner pointer was not displaced or was
        already aligned; the heap stays good unless the word below the pointer lies outside the block. */
    method PosixMemalign(alignment: int, size: int, canGrow: int -> bool) returns (err: int, p: int, ghost owner: int)
      requires Ready() && 0 <= alignment < TWO64 && 0 <= size < TWO64 && Inner(alignment, size) < TWO64 - 32
      modifies this
      ensures h.start == old(h.start) && err in {0, EINVAL, ENOMEM}
      ensures err == EINVAL <==> !IsPowerOfTwo(alignment) || alignment < 8
      ensures err == ENOMEM ==> Inner(alignment, size) == 0 || NoRoom(h, g, SearchSize(Inner(alignment, size)), canGrow)
      ensures err != 0 || size == 0 ==> p == NULL && Ready() && handles == old(handles) && LiveOf(g) == old(LiveOf(g))
      ensures err != 0 || size == 0 ==> Kept(old(h.mem), h.mem, old(LiveOf(g)))
      ensures err == 0 && size != 0 ==>
                && 0 < alignment && IsMultiple(p, alignment)
                && owner !in old(LiveOf(g)) && owner in LiveOf(g) && LiveOf(g) - {owner} == old(LiveOf(g))
                && owner % 8 == 0 && owner + 8 <= p < TWO64 && p - 8 in h.mem
                && (p + size <= owner + 24 + LiveOf(g)[owner] <==> size + alignment + 7 < TWO64)
                && (Recovered(h, p) == owner <==> Releasable(owner, alignment, size))
                && (SlotSafe(alignment, size) ==> SlotInside(LiveOf(g), owner, p))
                && (SlotInside(LiveOf(g), owner, p) ==> Ready() && Kept(old(h.mem), h.mem, old(LiveOf(g))))
                && handles == if size + alignment + 7 < TWO64 && Releasable(owner, alignment, size)
                              then old(handles)[p := Handle(owner, size)] else old(handles)
    {
      hide Inv, HandlesOk, Kept, LiveOf, NoRoom, Quiet, RoundDown, Lead, SearchSize, Releasable, Recovered,
        IsPowerOfTwo, IsMultiple, Inner, SlotSafe, MayServe;
      p := NULL;
      owner := NULL;
      KeptRefl(h.mem, LiveOf(g));
      if alignment == 0 || !IsPowerOfTwo(alignment) || alignment < 8 { return EINVAL, NULL, owner; }
      if size == 0 { return 0, NULL, owner; }
      var orig;
      InnerFacts(alignment, size);
      orig, owner := Malloc(Inner(alignment, size), canGrow);
      if orig == NULL { return ENOMEM, NULL, owner; }
      PowerOfTwoIsMultipleOf8(alignment);
      AlignmentBelow63Bits(alignment);
      ghost var h0 := h;
      p := AlignWithin(orig, alignment);
      err := 0;
      MemalignRecovers(h0, g, handles, orig, p, alignment, size, h);
      MemalignFits(h0, g, handles, orig, p, alignment, size);
      if SlotSafe(alignment, size) { SlotSafePointer(alignment, size, owner, LiveOf(g)[owner], orig, p); }
      if SlotInside(LiveOf(g), owner, p) {
        MemalignHandles(h, g, handles, orig, p, alignment, size);
        KeptTrans(old(h.mem), h0.mem, h.mem, old(LiveOf(g)));
      }
      AddThenDrop(old(handles), orig, Handle(owner, Inner(alignment, size)));
      handles := handles - {orig};
      if size + alignment + 7 < TWO64 && Releasable(owner, alignment, size) {
        handles := handles[p := Handle(owner, size)];
      }
    }
  }

  /** On a fresh heap, the steps posix_memalign takes for 2^64 - 38 bytes aligned to 32 leave a heap that is not well
      formed. */
  method WrappedRequestBreaksHeap(region: map<int, int>) returns (heaps: Heaps)
    requires forall w :: HEAP_BASE <= w < HEAP_BASE + HEAP_SIZE && w % 8 == 0 ==> w in region
    ensures !heaps.Valid()
  {
    hide Inv, HandlesOk, Kept, LiveOf, Quiet, NoneParked, RoundDown, Lead;
    heaps := new Heaps(HEAP_BASE, region);
    ghost var g0 := heaps.g;
    FreshRequest(g0);
    assert HasFit(g0, RoundDown(1));
    var orig, owner := heaps.Malloc(Inner(32, TWO64 - 38), x => false);
    LiveBlock(heaps.h, heaps.g, owner);
    ghost var h1 := heaps.h;
    var p := heaps.AlignWithin(orig, 32);
    OnlyAligned32(HEAP_BASE / 32, p);
    WrappedRequestHitsFooter(h1, heaps.g, owner);
  }
}
