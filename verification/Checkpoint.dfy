/** The heap part of a checkpoint: a walk over the blocks that leaves out the payload of holes and
    parked blocks, and the walk that puts the image back. */
module Checkpoint {
  import opened HeaderWord
  import opened HeapShape
  import opened HeapSteps
  import opened Allocator

  // ---- The walk visits every block once ----

  ghost predicate AtBlock(h: Heap, g: Shape, a: int) {
    a == h.end || a in g.blk
  }

  lemma NextAtBlock(h: Heap, g: Shape, a: int)
    requires Inv(h, g) && a in g.blk
    ensures AtBlock(h, g, End(g, a)) && a < End(g, a) <= h.end
  {
    assert HasSucc(h, g, a);
  }

  /** Block addresses from `a` to the end of the heap, each found from the size of the one before. */
  ghost function Walk(h: Heap, g: Shape, a: int): seq<int>
    requires Inv(h, g) && AtBlock(h, g, a)
    decreases h.end - a
  {
    if a == h.end then [] else
      NextAtBlock(h, g, a);
      [a] + Walk(h, g, End(g, a))
  }

  lemma {:induction false} WalkVisitsAll(h: Heap, g: Shape, a: int)
    requires Inv(h, g) && AtBlock(h, g, a)
    ensures forall x :: x in g.blk && a <= x ==> x in Walk(h, g, a)
    ensures forall x :: x in Walk(h, g, a) ==> x in g.blk && a <= x
    decreases h.end - a
  {
    if a != h.end {
      NextAtBlock(h, g, a);
      WalkVisitsAll(h, g, End(g, a));
    }
  }

  ghost function Footprint(g: Shape, s: seq<int>): int
    requires forall i :: 0 <= i < |s| ==> s[i] in g.blk
  {
    if s == [] then 0 else g.blk[s[0]].size + OVERHEAD + Footprint(g, s[1..])
  }

  /** Sizes plus overhead add up to the whole heap. */
  lemma {:induction false} SizesAddUp(h: Heap, g: Shape, a: int)
    requires Inv(h, g) && AtBlock(h, g, a)
    ensures (forall i :: 0 <= i < |Walk(h, g, a)| ==> Walk(h, g, a)[i] in g.blk)
    ensures Footprint(g, Walk(h, g, a)) == h.end - a
    decreases h.end - a
  {
    if a != h.end {
      NextAtBlock(h, g, a);
      SizesAddUp(h, g, End(g, a));
      assert Walk(h, g, a)[1..] == Walk(h, g, End(g, a));
    }
  }

  // ---- The image ----

  ghost predicate HasWords(m: map<int, int>, lo: int, hi: int) {
    forall w :: lo <= w < hi && w % 8 == 0 ==> w in m
  }

  /** The words of [lo, hi), for word-aligned bounds. */
  function Words(m: map<int, int>, lo: int, hi: int): (ws: seq<int>)
    requires lo % 8 == 0 && hi % 8 == 0 && lo <= hi && HasWords(m, lo, hi)
    ensures |ws| == (hi - lo) / 8
    decreases hi - lo
  {
    if lo == hi then [] else [m[lo]] + Words(m, lo + 8, hi)
  }

  function StoreWords(m: map<int, int>, lo: int, ws: seq<int>): map<int, int>
    decreases |ws|
  {
    if ws == [] then m else StoreWords(m[lo := ws[0]], lo + 8, ws[1..])
  }

  /** The two memories hold the same words in [lo, hi). */
  ghost predicate Agree(m: map<int, int>, m': map<int, int>, lo: int, hi: int) {
    forall w :: lo <= w < hi && w % 8 == 0 ==> w in m && w in m' && m'[w] == m[w]
  }

  /** Later changes outside the stretch leave the agreement alone. */
  lemma AgreeAfter(m: map<int, int>, r: map<int, int>, r': map<int, int>, lo: int, hi: int, from: int, to: int)
    requires Agree(m, r, lo, hi) && (hi <= from || to <= lo)
    requires r.Keys <= r'.Keys && forall w :: w in r && !(from <= w < to) ==> r'[w] == r[w]
    ensures Agree(m, r', lo, hi)
  {
  }

  /** Writing words back where they came from: those words agree, every other word is untouched. */
  lemma {:induction false} StoreWordsBack(m: map<int, int>, m': map<int, int>, lo: int, hi: int)
    requires lo % 8 == 0 && hi % 8 == 0 && lo <= hi && HasWords(m, lo, hi)
    ensures var r := StoreWords(m', lo, Words(m, lo, hi));
      && m'.Keys <= r.Keys && Agree(m, r, lo, hi)
      && (forall w :: w in m' && !(lo <= w < hi) ==> r[w] == m'[w])
    decreases hi - lo
  {
    if lo < hi {
      var ws := Words(m, lo, hi);
      assert ws[1..] == Words(m, lo + 8, hi);
      StoreWordsBack(m, m'[lo := m[lo]], lo + 8, hi);
      var r := StoreWords(m', lo, ws);
      assert r == StoreWords(m'[lo := m[lo]], lo + 8, ws[1..]);
      forall w | lo <= w < hi && w % 8 == 0
        ensures w in r && r[w] == m[w]
      {
        assert w == lo || lo + 8 <= w;
      }
    }
  }

  lemma BlockWords(h: Heap, g: Shape, a: int)
    requires Inv(h, g) && a in g.blk
    ensures a % 8 == 0 && (a + 24) % 8 == 0 && (End(g, a) - 8) % 8 == 0 && End(g, a) % 8 == 0
    ensures a + OVERHEAD <= End(g, a) && HasWords(h.mem, a, End(g, a))
    ensures HasWords(h.mem, a, a + 24) && HasWords(h.mem, a + 24, End(g, a) - 8)
    ensures HasWords(h.mem, End(g, a) - 8, End(g, a))
  {
    hide Inv;
    AlignedBlock(h, g, a);
    WordsOf(h, g, a);
    MappedOf(h, g);
  }

  ghost function BlockImage(h: Heap, g: Shape, a: int): seq<int>
    requires Inv(h, g) && a in g.blk
  {
    BlockWords(h, g, a);
    Words(h.mem, a, a + 24)
    + (if g.blk[a].kind.Live? then Words(h.mem, a + 24, End(g, a) - 8) else [])
    + Words(h.mem, End(g, a) - 8, End(g, a))
  }

  ghost function BlocksImage(h: Heap, g: Shape, a: int): seq<int>
    requires Inv(h, g) && AtBlock(h, g, a)
    decreases h.end - a
  {
    if a == h.end then [] else
      NextAtBlock(h, g, a);
      BlockImage(h, g, a) + BlocksImage(h, g, End(g, a))
  }

  ghost function HeapImage(h: Heap, g: Shape): seq<int>
    requires Inv(h, g)
  {
    [h.end - h.start] + h.bins + h.fastbins + BlocksImage(h, g, h.start)
  }

  /** The flags and size of a tagged block, read from its header. */
  lemma HeaderTells(h: Heap, g: Shape, a: int)
    requires Inv(h, g) && Quiet(g) && a in g.blk
    ensures a in h.mem && GetSize(h.mem[a]) == g.blk[a].size
    ensures GetHole(h.mem[a]) == g.blk[a].kind.Hole? && GetFast(h.mem[a]) == g.blk[a].kind.Fast?
  {
    assert TagsAt(h, g, a);
    WordsOf(h, g, a);
    HeaderFields(g.blk[a].kind.Hole?, g.blk[a].kind.Fast?, g.blk[a].size);
  }

  /** Header, payload of a live block, footer. */
  method WriteBlock(h: Heap, ghost g: Shape, head: int) returns (out: seq<int>, next: int)
    requires Inv(h, g) && Quiet(g) && head in g.blk
    ensures out == BlockImage(h, g, head) && next == End(g, head)
  {
    hide Inv, GetHole, GetFast, GetSize;
    HeaderTells(h, g, head);
    BlockWords(h, g, head);
    QuietKinds(g, head);
    var foot := head + 24 + GetSize(h.mem[head]);
    out := Words(h.mem, head, head + 24);
    if !GetHole(h.mem[head]) && !GetFast(h.mem[head]) {
      out := out + Words(h.mem, head + 24, foot);
    }
    out := out + Words(h.mem, foot, foot + 8);
    next := foot + 8;
  }

  /** write_heap_and_stack, heap section. */
  method WriteHeap(h: Heap, ghost g: Shape) returns (img: seq<int>)
    requires Inv(h, g) && Quiet(g)
    ensures img == HeapImage(h, g)
  {
    hide Inv, BlockImage;
    StartAtBlock(h, g);
    img := [h.end - h.start] + h.bins + h.fastbins;
    var head := h.start;
    while head < h.end
      invariant AtBlock(h, g, head) && head <= h.end
      invariant img + BlocksImage(h, g, head) == HeapImage(h, g)
      decreases h.end - head
    {
      NextAtBlock(h, g, head);
      var out, next := WriteBlock(h, g, head);
      assert img + out + BlocksImage(h, g, next) == img + BlocksImage(h, g, head);
      img := img + out;
      head := next;
    }
  }

  // ---- Reading it back ----

  /** Everything the allocator or the application can reach in block x agrees: header with its
      free-list links, footer, and the payload if the block is live. */
  ghost predicate BlockAgrees(m: map<int, int>, m': map<int, int>, g: Shape, x: int)
    requires x in g.blk
  {
    && Agree(m, m', x, x + 24) && Agree(m, m', End(g, x) - 8, End(g, x))
    && (g.blk[x].kind.Live? ==> Agree(m, m', x + 24, End(g, x) - 8))
  }

  /** Put one block's image back; `rest` is the image from this block on. */
  method ReadBlock(m: map<int, int>, rest: seq<int>, head: int, ghost h: Heap, ghost g: Shape)
    returns (m': map<int, int>, used: nat, next: int)
    requires Inv(h, g) && Quiet(g) && head in g.blk && BlockImage(h, g, head) <= rest
    ensures next == End(g, head) && used == |BlockImage(h, g, head)|
    ensures BlockAgrees(h.mem, m', g, head) && m.Keys <= m'.Keys
    ensures forall w :: w in m && !(head <= w < next) ==> m'[w] == m[w]
  {
    hide Inv, GetHole, GetFast, GetSize, HasWords, BlockImage, Quiet, StoreWords, Words, Agree;
    HeaderTells(h, g, head);
    BlockWords(h, g, head);
    QuietKinds(g, head);
    ImageParts(h, g, head, rest);
    StoreWordsBack(h.mem, m, head, head + 24);
    m' := StoreWords(m, head, rest[..3]);
    assert m'[head] == h.mem[head] by { HeadAgrees(h.mem, m', head); }
    used := 3;
    var foot := head + 24 + GetSize(m'[head]);
    ghost var m1 := m';
    if !GetHole(m'[head]) && !GetFast(m'[head]) && GetSize(m'[head]) > 0 {
      var n := (foot - head - 24) / 8;
      StoreWordsBack(h.mem, m', head + 24, foot);
      m' := StoreWords(m', head + 24, rest[used..used + n]);
      AgreeAfter(h.mem, m1, m', head, head + 24, head + 24, foot);
      used := used + n;
    } else {
      NothingToAgree(h.mem, m', head + 24);
    }
    ghost var m2 := m';
    StoreWordsBack(h.mem, m', foot, foot + 8);
    m' := StoreWords(m', foot, rest[used..used + 1]);
    AgreeAfter(h.mem, m2, m', head, head + 24, foot, foot + 8);
    if g.blk[head].kind.Live? { AgreeAfter(h.mem, m2, m', head + 24, foot, foot, foot + 8); }
    used := used + 1;
    next := foot + 8;
  }

  lemma HeadAgrees(m: map<int, int>, m': map<int, int>, head: int)
    requires Agree(m, m', head, head + 24) && head % 8 == 0
    ensures head in m && head in m' && m'[head] == m[head]
  {
  }

  lemma NothingToAgree(m: map<int, int>, m': map<int, int>, lo: int)
    ensures Agree(m, m', lo, lo)
  {
  }

  ghost predicate AgreesBelow(m: map<int, int>, m': map<int, int>, g: Shape, a: int) {
    forall x :: x in g.blk && x < a ==> BlockAgrees(m, m', g, x)
  }

  lemma NoBlockInside(h: Heap, g: Shape, a: int)
    requires Inv(h, g) && a in g.blk
    ensures forall x :: x in g.blk && x < End(g, a) ==> x <= a
  {
  }

  lemma BlocksApart(h: Heap, g: Shape, x: int, a: int)
    requires Inv(h, g) && x in g.blk && a in g.blk && x < a
    ensures x + OVERHEAD <= End(g, x) <= a
  {
  }

  lemma AgreesStill(m: map<int, int>, m1: map<int, int>, m2: map<int, int>, g: Shape, x: int, from: int, to: int)
    requires x in g.blk && BlockAgrees(m, m1, g, x) && x + OVERHEAD <= End(g, x) <= from
    requires m1.Keys <= m2.Keys && forall w :: w in m1 && !(from <= w < to) ==> m2[w] == m1[w]
    ensures BlockAgrees(m, m2, g, x)
  {
    hide Agree;
    AgreeAfter(m, m1, m2, x, x + 24, from, to);
    AgreeAfter(m, m1, m2, End(g, x) - 8, End(g, x), from, to);
    if g.blk[x].kind.Live? { AgreeAfter(m, m1, m2, x + 24, End(g, x) - 8, from, to); }
  }

  lemma AgreesFurther(h: Heap, m1: map<int, int>, m2: map<int, int>, g: Shape, a: int)
    requires Inv(h, g) && a in g.blk && AgreesBelow(h.mem, m1, g, a) && BlockAgrees(h.mem, m2, g, a)
    requires m1.Keys <= m2.Keys && forall w :: w in m1 && !(a <= w < End(g, a)) ==> m2[w] == m1[w]
    ensures AgreesBelow(h.mem, m2, g, End(g, a))
  {
    NoBlockInside(h, g, a);
    hide Inv, BlockAgrees;
    forall x | x in g.blk && x < End(g, a)
      ensures BlockAgrees(h.mem, m2, g, x)
    {
      if x < a {
        BlocksApart(h, g, x, a);
        AgreesStill(h.mem, m1, m2, g, x, a, End(g, a));
      }
    }
  }

  /** read_heap_and_stack, heap section, into a heap already grown to the saved size. */
  method ReadBlocks(t: Heap, img: seq<int>, ghost h: Heap, ghost g: Shape) returns (r: Heap)
    requires Inv(h, g) && Quiet(g) && t.start == h.start && t.end == h.end && img == HeapImage(h, g)
    requires |h.bins| == BIN_COUNT && |h.fastbins| == FASTBIN_COUNT
    ensures r.start == h.start && r.end == h.end && r.bins == h.bins && r.fastbins == h.fastbins
    ensures t.mem.Keys <= r.mem.Keys && AgreesBelow(h.mem, r.mem, g, h.end)
  {
    hide Inv, BlockImage, BlockAgrees, Quiet;
    StartAtBlock(h, g);
    r := t.(bins := img[1..1 + BIN_COUNT], fastbins := img[1 + BIN_COUNT..1 + BIN_COUNT + FASTBIN_COUNT]);
    var pos := 1 + BIN_COUNT + FASTBIN_COUNT;
    var head := r.start;
    NoneBelow(h, r.mem, g);
    while head < r.end
      invariant r.start == h.start && r.end == h.end && r.bins == h.bins && r.fastbins == h.fastbins
      invariant AtBlock(h, g, head) && head <= h.end && 0 <= pos <= |img| && img[pos..] == BlocksImage(h, g, head)
      invariant t.mem.Keys <= r.mem.Keys && AgreesBelow(h.mem, r.mem, g, head)
      decreases h.end - head
    {
      NextAtBlock(h, g, head);
      var m, used, next := ReadBlock(r.mem, img[pos..], head, h, g);
      AgreesFurther(h, r.mem, m, g, head);
      assert img[pos..][used..] == BlocksImage(h, g, next);
      assert img[pos + used..] == img[pos..][used..];
      r := r.(mem := m);
      pos := pos + used;
      head := next;
    }
  }

  lemma NoneBelow(h: Heap, m: map<int, int>, g: Shape)
    requires Inv(h, g)
    ensures AgreesBelow(h.mem, m, g, h.start)
  {
  }

  lemma AgreedWords(h: Heap, m: map<int, int>, g: Shape, x: int)
    requires Inv(h, g) && AgreesBelow(h.mem, m, g, h.end) && x in g.blk
    ensures forall w :: w in {x, x + 8, x + 16, End(g, x) - 8} ==> w in h.mem && w in m && m[w] == h.mem[w]
  {
    hide Inv, Agree;
    AlignedBlock(h, g, x);
    WordsOf(h, g, x);
    assert BlockAgrees(h.mem, m, g, x);
    AgreedTags(h.mem, m, x, End(g, x));
  }

  lemma AgreedTags(m: map<int, int>, m': map<int, int>, x: int, end: int)
    requires Agree(m, m', x, x + 24) && Agree(m, m', end - 8, end) && x % 8 == 0 && end % 8 == 0
    ensures forall w :: w in {x, x + 8, x + 16, end - 8} ==> w in m && w in m' && m'[w] == m[w]
  {
    assert (x + 8) % 8 == 0 && (x + 16) % 8 == 0 && (end - 8) % 8 == 0;
  }

  /** Every word of a live block agrees. */
  lemma LiveWordsAgree(h: Heap, m: map<int, int>, g: Shape, x: int)
    requires Inv(h, g) && AgreesBelow(h.mem, m, g, h.end) && x in g.blk && g.blk[x].kind.Live?
    ensures Agree(h.mem, m, x, End(g, x))
  {
    hide Inv;
    WordsOf(h, g, x);
    assert BlockAgrees(h.mem, m, g, x);
  }

  /** The pointers that were out when the image was taken are good again. */
  lemma RestoredHandles(h: Heap, m: map<int, int>, g: Shape, hs: map<int, Handle>)
    requires Inv(h, g) && AgreesBelow(h.mem, m, g, h.end) && HandlesOk(h.mem, LiveOf(g), hs)
    ensures HandlesOk(m, LiveOf(g), hs)
  {
    hide Inv, AgreesBelow;
    forall p | p in hs
      ensures Owns(m, LiveOf(g), p, hs[p])
    {
      assert Owns(h.mem, LiveOf(g), p, hs[p]);
      LiveWordsAgree(h, m, g, hs[p].owner);
    }
  }

  lemma AgreementKeepsLists(h: Heap, r: Heap, g: Shape)
    requires Inv(h, g) && AgreesBelow(h.mem, r.mem, g, h.end) && r.bins == h.bins && r.fastbins == h.fastbins
    ensures Binned(r, g) && FastBinned(r, g)
  {
    forall b | 0 <= b < BIN_COUNT
      ensures Linked(r.mem, r.bins[b], g.lists[b])
    {
      assert Linked(h.mem, h.bins[b], g.lists[b]);
      forall i | 0 <= i < |g.lists[b]|
        ensures LinksAt(r.mem, g.lists[b], i)
      {
        assert LinksAt(h.mem, g.lists[b], i);
        assert BinHolds(g, b, g.lists[b][i]);
        AgreedWords(h, r.mem, g, g.lists[b][i]);
      }
    }
    forall b | 0 <= b < FASTBIN_COUNT
      ensures Chained(r.mem, r.fastbins[b], g.flists[b])
    {
      assert Chained(h.mem, h.fastbins[b], g.flists[b]);
      forall i | 0 <= i < |g.flists[b]|
        ensures NextAt(r.mem, g.flists[b], i)
      {
        assert NextAt(h.mem, g.flists[b], i);
        assert FastHolds(g, b, g.flists[b][i]);
        AgreedWords(h, r.mem, g, g.flists[b][i]);
      }
    }
  }

  lemma AgreementKeepsTags(h: Heap, r: Heap, g: Shape)
    requires Inv(h, g) && AgreesBelow(h.mem, r.mem, g, h.end)
    ensures AllTagged(r, g)
  {
    forall x | x in g.blk && Tagged(g.blk[x].kind)
      ensures TagsAt(r, g, x)
    {
      assert TagsAt(h, g, x);
      AgreedWords(h, r.mem, g, x);
    }
  }

  lemma AgreementKeepsTiling(h: Heap, r: Heap, g: Shape)
    requires Inv(h, g) && r.start == h.start && r.end == h.end
    ensures Bounds(r) && Tiled(r, g) && Preceded(r, g)
  {
    forall a | a in g.blk
      ensures HasSucc(r, g, a)
    {
      assert HasSucc(h, g, a);
    }
  }

  /** A heap that agrees on the sparse image has the saved shape. */
  lemma AgreementKeepsShape(h: Heap, r: Heap, g: Shape)
    requires Inv(h, g) && r.start == h.start && r.end == h.end && Mapped(r)
    requires AgreesBelow(h.mem, r.mem, g, h.end) && r.bins == h.bins && r.fastbins == h.fastbins
    ensures Inv(r, g)
  {
    AgreementKeepsTiling(h, r, g);
    AgreementKeepsTags(h, r, g);
    AgreementKeepsLists(h, r, g);
  }

  /** Restoring the image of (h, g) onto a heap at the same base and of no larger size: the target
      takes the saved shape, header, footer, links and live payload of every block agree, and the
      pointers that were out are good. */
  method Restore(target: Heaps, img: seq<int>, ghost h: Heap, ghost g: Shape, ghost hs: map<int, Handle>)
    requires Inv(h, g) && Quiet(g) && img == HeapImage(h, g) && HandlesOk(h.mem, LiveOf(g), hs)
    requires target.Valid() && target.h.start == h.start
    requires target.h.end <= h.end
    requires target.h.end < h.end < target.h.end + OVERHEAD ==> EndsInHole(target.h, target.g)
    modifies target
    ensures target.Ready() && target.g == g && target.handles == hs
    ensures target.h.start == h.start && target.h.end == h.end
    ensures target.h.bins == h.bins && target.h.fastbins == h.fastbins
    ensures forall x :: x in g.blk ==> BlockAgrees(h.mem, target.h.mem, g, x)
  {
    hide Inv, BlockImage, BlocksImage, BlockAgrees, Quiet, HandlesOk;
    SavedSizes(h, g, target.h, target.g);
    var hpsize := img[0];
    if hpsize != target.h.end - target.h.start {
      var _ := target.ExpandHeap(hpsize - (target.h.end - target.h.start), true);
    }
    MappedOf(target.h, target.g);
    var r := ReadBlocks(target.h, img, h, g);
    AgreementKeepsShape(h, r, g);
    RestoredHandles(h, r.mem, g, hs);
    target.h := r;
    target.g, target.handles := g, hs;
    BlocksBelowEnd(h, g);
  }

  /** Checkpoint one heap and restore it into another at the same base and no larger. */
  method SaveAndRestore(source: Heaps, target: Heaps)
    requires source != target && source.Ready() && target.Valid() && target.h.start == source.h.start
    requires target.h.end <= source.h.end
    requires target.h.end < source.h.end < target.h.end + OVERHEAD ==> EndsInHole(target.h, target.g)
    modifies target
    ensures target.Ready() && target.g == source.g && target.handles == source.handles && target.h.end == source.h.end
    ensures forall a, w :: InPayload(LiveOf(source.g), a, w) && w % 8 == 0 ==>
      w in target.h.mem && target.h.mem[w] == source.h.mem[w]
  {
    hide Inv, HeapImage, HandlesOk, Quiet, BlockAgrees;
    var img := WriteHeap(source.h, source.g);
    Restore(target, img, source.h, source.g, source.handles);
    PayloadsRestored(source.h, target.h.mem, source.g);
  }

  /** Every payload word a caller can reach is what it was. */
  lemma PayloadsRestored(h: Heap, m: map<int, int>, g: Shape)
    requires Inv(h, g) && forall x :: x in g.blk ==> BlockAgrees(h.mem, m, g, x)
    ensures forall a, w :: InPayload(LiveOf(g), a, w) && w % 8 == 0 ==> w in h.mem && w in m && m[w] == h.mem[w]
  {
    hide Inv;
    forall a, w | InPayload(LiveOf(g), a, w) && w % 8 == 0
      ensures w in h.mem && w in m && m[w] == h.mem[w]
    {
      assert BlockAgrees(h.mem, m, g, a);
    }
  }

  lemma SavedSizes(h: Heap, g: Shape, t: Heap, tg: Shape)
    requires Inv(h, g) && Inv(t, tg) && t.start == h.start
    ensures |h.bins| == BIN_COUNT && |h.fastbins| == FASTBIN_COUNT
    ensures 0 < h.end - t.end ==> GrowthFits(t, h.end - t.end)
  {
    hide Inv;
    ListSizes(h, g);
    BoundsOf(h, g);
    BoundsOf(t, tg);
  }

  lemma ListSizes(h: Heap, g: Shape)
    requires Inv(h, g)
    ensures |h.bins| == BIN_COUNT && |h.fastbins| == FASTBIN_COUNT
  {
    hide Bounds, Mapped, Tiled, Preceded, AllTagged, Binned, FastBinned, Filed, NoAdjacentHoles;
    BinnedSizes(h, g);
    FastSizes(h, g);
  }

  lemma MappedOf(h: Heap, g: Shape)
    requires Inv(h, g)
    ensures Mapped(h)
  {
  }

  lemma BlocksBelowEnd(h: Heap, g: Shape)
    requires Inv(h, g)
    ensures forall x :: x in g.blk ==> x < h.end
  {
  }

  lemma ImageParts(h: Heap, g: Shape, a: int, rest: seq<int>)
    requires Inv(h, g) && a in g.blk && BlockImage(h, g, a) <= rest
    requires a % 8 == 0 && (a + 24) % 8 == 0 && (End(g, a) - 8) % 8 == 0 && End(g, a) % 8 == 0
    requires a + OVERHEAD <= End(g, a)
    requires HasWords(h.mem, a, a + 24) && HasWords(h.mem, a + 24, End(g, a) - 8)
    requires HasWords(h.mem, End(g, a) - 8, End(g, a))
    ensures var n := if g.blk[a].kind.Live? then (End(g, a) - 8 - (a + 24)) / 8 else 0;
      && 4 + n <= |rest| && |BlockImage(h, g, a)| == 4 + n
      && rest[..3] == Words(h.mem, a, a + 24)
      && (g.blk[a].kind.Live? ==> rest[3..3 + n] == Words(h.mem, a + 24, End(g, a) - 8))
      && rest[3 + n..4 + n] == Words(h.mem, End(g, a) - 8, End(g, a))
  {
    hide Inv, HasWords, Words, End;
    var x := Words(h.mem, a, a + 24);
    var y := if g.blk[a].kind.Live? then Words(h.mem, a + 24, End(g, a) - 8) else [];
    var z := Words(h.mem, End(g, a) - 8, End(g, a));
    ThreeParts(x, y, z, rest);
  }

  lemma ThreeParts(x: seq<int>, y: seq<int>, z: seq<int>, rest: seq<int>)
    requires x + y + z <= rest
    ensures |x| + |y| + |z| <= |rest| && rest[..|x|] == x && rest[|x|..|x| + |y|] == y
    ensures rest[|x| + |y|..|x| + |y| + |z|] == z
  {
    assert rest[..|x| + |y| + |z|] == x + y + z;
  }

  lemma StartAtBlock(h: Heap, g: Shape)
    requires Inv(h, g)
    ensures AtBlock(h, g, h.start) && h.start < h.end
  {
  }

  lemma QuietKinds(g: Shape, a: int)
    requires Quiet(g) && a in g.blk
    ensures g.blk[a].kind.Live? <==> !g.blk[a].kind.Hole? && !g.blk[a].kind.Fast?
  {
  }
}
