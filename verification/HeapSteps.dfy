/** How each primitive change made by the allocator carries the heap invariant along.  A C
    operation is a sequence of such changes, so every intermediate state satisfies `Inv`. */
module HeapSteps {
  import opened HeaderWord
  import opened HeapShape
  import opened Sequences

  /** Addresses and sizes of the blocks handed out to callers. */
  ghost function LiveOf(g: Shape): map<int, int> {
    map a | a in g.blk && g.blk[a].kind.Live? :: g.blk[a].size
  }

  ghost predicate InPayload(live: map<int, int>, a: int, w: int) {
    a in live && a + 8 <= w < a + 24 + live[a]
  }

  /** Every payload word of the given live blocks is untouched. */
  ghost predicate Kept(m: map<int, int>, m': map<int, int>, live: map<int, int>) {
    forall a, w :: InPayload(live, a, w) && w in m ==> w in m' && m'[w] == m[w]
  }

  ghost function Rekind(g: Shape, a: int, k: Kind): Shape
    requires a in g.blk
  {
    g.(blk := g.blk[a := Block(g.blk[a].size, k)])
  }

  ghost predicate Untagged(g: Shape, a: int) {
    a in g.blk && !Tagged(g.blk[a].kind)
  }

  // ---- Changes of kind ----

  lemma RekindKeepsTiling(h: Heap, g: Shape, g': Shape)
    requires Tiled(h, g) && Preceded(h, g)
    requires g'.blk.Keys == g.blk.Keys && forall a :: a in g.blk ==> g'.blk[a].size == g.blk[a].size
    ensures Tiled(h, g') && Preceded(h, g')
  {
    assert forall a :: a in g.blk ==> End(g', a) == End(g, a);
    forall a | a in g.blk
      ensures HasSucc(h, g', a)
    {
      assert HasSucc(h, g, a);
    }
    forall a | HasPred(g, a)
      ensures HasPred(g', a)
    {
      var p :| p in g.blk && End(g, p) == a;
      assert p in g'.blk && End(g', p) == a;
    }
  }

  lemma SameBounds(h: Heap, h': Heap, g: Shape)
    requires h'.start == h.start && h'.end == h.end && h.mem.Keys <= h'.mem.Keys
    requires Bounds(h) && Mapped(h) && Tiled(h, g) && Preceded(h, g)
    ensures Bounds(h') && Mapped(h') && Tiled(h', g) && Preceded(h', g)
  {
    forall a | a in g.blk
      ensures HasSucc(h', g, a)
    {
      assert HasSucc(h, g, a);
    }
  }

  /** A block that stays out of every list, or stays in the same one, may change kind. */
  lemma RekindKeepsLists(h: Heap, g: Shape, a: int, k: Kind)
    requires Binned(h, g) && FastBinned(h, g) && a in g.blk
    requires BinOf(k) == BinOf(g.blk[a].kind) && FastOf(k) == FastOf(g.blk[a].kind)
    ensures Binned(h, Rekind(g, a, k)) && FastBinned(h, Rekind(g, a, k))
  {
    var g' := Rekind(g, a, k);
    forall b, x
      ensures BinHolds(g', b, x) == BinHolds(g, b, x) && FastHolds(g', b, x) == FastHolds(g, b, x)
    {
    }
    assert forall b, i :: 0 <= b < BIN_COUNT && 0 <= i < |g.lists[b]| ==> BinHolds(g, b, g.lists[b][i]);
    assert forall b, i :: 0 <= b < FASTBIN_COUNT && 0 <= i < |g.flists[b]| ==> FastHolds(g, b, g.flists[b][i]);
  }

  lemma RekindKeepsTags(h: Heap, g: Shape, a: int, k: Kind)
    requires AllTagged(h, g) && a in g.blk
    requires Tagged(k) ==> TagsAt(h, Rekind(g, a, k), a)
    ensures AllTagged(h, Rekind(g, a, k))
  {
    var g' := Rekind(g, a, k);
    forall x | x in g'.blk && Tagged(g'.blk[x].kind)
      ensures TagsAt(h, g', x)
    {
      if x != a { assert TagsAt(h, g, x); }
    }
  }

  lemma RekindKeepsPolicy(g: Shape, a: int, k: Kind)
    requires Filed(g) && NoAdjacentHoles(g) && a in g.blk && !k.Hole? && !k.Fast?
    requires k.Pending? ==> 0 <= k.bin < BIN_COUNT
    ensures Filed(Rekind(g, a, k)) && NoAdjacentHoles(Rekind(g, a, k))
  {
  }

  lemma RekindLive(g: Shape, a: int, k: Kind)
    requires a in g.blk
    ensures LiveOf(Rekind(g, a, k)) == if k.Live? then LiveOf(g)[a := g.blk[a].size] else LiveOf(g) - {a}
    ensures !g.blk[a].kind.Live? ==> LiveOf(g) - {a} == LiveOf(g)
  {
  }

  /** A live block taken out of service becomes loose. */
  lemma UntagLiveKeeps(h: Heap, g: Shape, a: int)
    requires Inv(h, g) && a in g.blk && g.blk[a].kind.Live?
    ensures Inv(h, Rekind(g, a, Loose))
    ensures LiveOf(Rekind(g, a, Loose)) == LiveOf(g) - {a}
  {
    hide Bounds, Mapped, Tiled, Preceded, AllTagged, Binned, FastBinned, Filed, NoAdjacentHoles, LiveOf;
    RekindLive(g, a, Loose);
    RekindKeepsTiling(h, g, Rekind(g, a, Loose));
    RekindKeepsLists(h, g, a, Loose);
    RekindKeepsTags(h, g, a, Loose);
    RekindKeepsPolicy(g, a, Loose);
  }

  lemma HoleBin(h: Heap, g: Shape, a: int)
    requires Filed(g) && a in g.blk && g.blk[a].kind.Hole?
    ensures 0 <= g.blk[a].kind.bin < BIN_COUNT
  {
  }

  /** A hole about to leave its bin becomes pending in that bin. */
  lemma UntagHoleKeeps(h: Heap, g: Shape, a: int)
    requires Inv(h, g) && a in g.blk && g.blk[a].kind.Hole?
    ensures var k := Pending(g.blk[a].kind.bin); Inv(h, Rekind(g, a, k)) && LiveOf(Rekind(g, a, k)) == LiveOf(g)
  {
    HoleBin(h, g, a);
    hide Bounds, Mapped, Tiled, Preceded, AllTagged, Binned, FastBinned, Filed, NoAdjacentHoles, LiveOf;
    var k := Pending(g.blk[a].kind.bin);
    RekindLive(g, a, k);
    RekindKeepsTiling(h, g, Rekind(g, a, k));
    RekindKeepsLists(h, g, a, k);
    RekindKeepsTags(h, g, a, k);
    RekindKeepsPolicy(g, a, k);
  }

  /** Putting a loose block into service as a live one, once its tags are written. */
  lemma TagLiveKeeps(h: Heap, g: Shape, a: int)
    requires Inv(h, g) && a in g.blk && g.blk[a].kind.Loose?
    requires TagsAt(h, Rekind(g, a, Live), a)
    ensures Inv(h, Rekind(g, a, Live))
    ensures LiveOf(Rekind(g, a, Live)) == LiveOf(g)[a := g.blk[a].size]
  {
    hide Bounds, Mapped, Tiled, Preceded, AllTagged, Binned, FastBinned, Filed, NoAdjacentHoles, LiveOf;
    RekindLive(g, a, Live);
    RekindKeepsTiling(h, g, Rekind(g, a, Live));
    RekindKeepsLists(h, g, a, Live);
    RekindKeepsTags(h, g, a, Live);
    RekindKeepsPolicy(g, a, Live);
  }

  // ---- Writes ----

  function Store(h: Heap, w: int, v: int): Heap { h.(mem := h.mem[w := v]) }

  /** An untagged block may be written anywhere, except for the links of a pending one. */
  ghost predicate Writable(g: Shape, a: int, w: int) {
    && Untagged(g, a) && a <= w < End(g, a)
    && (g.blk[a].kind.Pending? ==> w != a + 8 && w != a + 16)
  }

  lemma WriteKeepsLists(h: Heap, g: Shape, a: int, w: int, v: int)
    requires Spread(g) && Binned(h, g) && FastBinned(h, g) && Writable(g, a, w)
    ensures Binned(Store(h, w, v), g) && FastBinned(Store(h, w, v), g)
  {
    var m := h.mem[w := v];
    forall b | 0 <= b < BIN_COUNT
      ensures Linked(m, h.bins[b], g.lists[b])
    {
      assert Linked(h.mem, h.bins[b], g.lists[b]);
      forall i | 0 <= i < |g.lists[b]|
        ensures LinksAt(m, g.lists[b], i)
      {
        assert LinksAt(h.mem, g.lists[b], i);
        assert BinHolds(g, b, g.lists[b][i]);
      }
    }
    forall b | 0 <= b < FASTBIN_COUNT
      ensures Chained(m, h.fastbins[b], g.flists[b])
    {
      assert Chained(h.mem, h.fastbins[b], g.flists[b]);
      forall i | 0 <= i < |g.flists[b]|
        ensures NextAt(m, g.flists[b], i)
      {
        assert NextAt(h.mem, g.flists[b], i);
        assert FastHolds(g, b, g.flists[b][i]);
      }
    }
  }

  lemma WriteKeepsTags(h: Heap, g: Shape, a: int, w: int, v: int)
    requires Spread(g) && AllTagged(h, g) && Writable(g, a, w)
    ensures AllTagged(Store(h, w, v), g)
  {
    forall x | x in g.blk && Tagged(g.blk[x].kind)
      ensures TagsAt(Store(h, w, v), g, x)
    {
      assert TagsAt(h, g, x);
    }
  }

  lemma WriteKeeps(h: Heap, g: Shape, a: int, w: int, v: int)
    requires Inv(h, g) && Writable(g, a, w)
    ensures Inv(Store(h, w, v), g)
    ensures Kept(h.mem, Store(h, w, v).mem, LiveOf(g))
  {
    SameBounds(h, Store(h, w, v), g);
    WriteKeepsLists(h, g, a, w, v);
    WriteKeepsTags(h, g, a, w, v);
  }

  // ---- add_node ----

  ghost predicate HoleFriendly(g: Shape, a: int)
    requires a in g.blk
  {
    forall p :: p in g.blk && g.blk[p].kind.Hole? ==> End(g, p) != a && End(g, a) != p
  }

  /** The heap after add_node puts `a` at the front of bin `b`. */
  ghost function AddedHeap(h: Heap, b: int, a: int): Heap
    requires 0 <= b < |h.bins|
  {
    var m := h.mem[a + 8 := h.bins[b]][a + 16 := NULL];
    h.(mem := if h.bins[b] == NULL then m else m[h.bins[b] + 16 := a], bins := h.bins[b := a])
  }

  ghost function AddedShape(g: Shape, b: int, a: int): Shape
    requires a in g.blk && 0 <= b < |g.lists|
  {
    Rekind(g, a, Hole(b)).(lists := g.lists[b := [a] + g.lists[b]])
  }

  lemma AddTagged(h: Heap, g: Shape, b: int, a: int)
    requires Spread(g) && AllTagged(h, g) && Binned(h, g)
    requires a in g.blk && g.blk[a].kind.Loose? && 0 <= b < BIN_COUNT
    requires TagsAt(h, Rekind(g, a, Hole(b)), a)
    ensures AllTagged(AddedHeap(h, b, a), AddedShape(g, b, a))
  {
    var h' := AddedHeap(h, b, a);
    var g' := AddedShape(g, b, a);
    var x := h.bins[b];
    assert x != NULL ==> BinHolds(g, b, g.lists[b][0]);
    forall c | c in g'.blk && Tagged(g'.blk[c].kind)
      ensures TagsAt(h', g', c)
    {
      assert c != a ==> TagsAt(h, g, c);
      assert x != NULL ==> x in g.blk;
    }
  }

  lemma AddOtherBin(h: Heap, g: Shape, b: int, a: int, c: int)
    requires Spread(g) && Binned(h, g)
    requires a in g.blk && g.blk[a].kind.Loose? && 0 <= b < BIN_COUNT
    requires 0 <= c < BIN_COUNT && c != b
    ensures Linked(AddedHeap(h, b, a).mem, h.bins[c], g.lists[c])
  {
    var m := AddedHeap(h, b, a).mem;
    var s, t := g.lists[b], g.lists[c];
    forall i | 0 <= i < |t|
      ensures LinksAt(m, t, i)
    {
      assert LinksAt(h.mem, t, i);
      assert BinHolds(g, c, t[i]);
      assert s != [] ==> BinHolds(g, b, s[0]);
    }
  }

  lemma LinkFront(m: map<int, int>, s: seq<int>, a: int)
    requires Linked(m, At(s, 0), s) && Spaced([a] + s)
    ensures var m1 := m[a + 8 := At(s, 0)][a + 16 := NULL];
      Linked(if s == [] then m1 else m1[s[0] + 16 := a], a, [a] + s)
  {
    var m1 := m[a + 8 := At(s, 0)][a + 16 := NULL];
    var m' := if s == [] then m1 else m1[s[0] + 16 := a];
    var t := [a] + s;
    forall i | 0 <= i < |t|
      ensures LinksAt(m', t, i)
    {
      if i > 0 {
        assert t[i] == s[i - 1] && t[0] == a;
        assert LinksAt(m, s, i - 1);
        if i > 1 { assert t[1] == s[0]; }
      }
    }
  }

  lemma AddSpaced(h: Heap, g: Shape, b: int, a: int)
    requires Spread(g) && Binned(h, g)
    requires a in g.blk && g.blk[a].kind.Loose? && 0 <= b < BIN_COUNT
    ensures Spaced([a] + g.lists[b]) && NoRepeats([a] + g.lists[b])
  {
    BinSpaced(h, g, b);
    var s := g.lists[b];
    forall i | 0 <= i < |s|
      ensures s[i] + 32 <= a || a + 32 <= s[i]
    {
      assert BinHolds(g, b, s[i]);
    }
  }

  lemma AddSameBin(h: Heap, g: Shape, b: int, a: int)
    requires Spread(g) && Binned(h, g)
    requires a in g.blk && g.blk[a].kind.Loose? && 0 <= b < BIN_COUNT
    ensures Linked(AddedHeap(h, b, a).mem, a, [a] + g.lists[b]) && NoRepeats([a] + g.lists[b])
  {
    var s := g.lists[b];
    assert Linked(h.mem, h.bins[b], s);
    AddSpaced(h, g, b, a);
    LinkFront(h.mem, s, a);
  }

  lemma AddBinned(h: Heap, g: Shape, b: int, a: int)
    requires Spread(g) && Binned(h, g)
    requires a in g.blk && g.blk[a].kind.Loose? && 0 <= b < BIN_COUNT
    ensures Binned(AddedHeap(h, b, a), AddedShape(g, b, a))
  {
    var h' := AddedHeap(h, b, a);
    var g' := AddedShape(g, b, a);
    AddSameBin(h, g, b, a);
    forall c | 0 <= c < BIN_COUNT
      ensures Linked(h'.mem, h'.bins[c], g'.lists[c]) && NoRepeats(g'.lists[c])
    {
      if c != b { AddOtherBin(h, g, b, a, c); }
    }
    AddHolds(h, g, b, a);
  }

  lemma AddHolds(h: Heap, g: Shape, b: int, a: int)
    requires Binned(h, g)
    requires a in g.blk && g.blk[a].kind.Loose? && 0 <= b < BIN_COUNT
    ensures var g' := AddedShape(g, b, a);
      && (forall c, i :: 0 <= c < BIN_COUNT && 0 <= i < |g'.lists[c]| ==> BinHolds(g', c, g'.lists[c][i]))
      && (forall x, c :: 0 <= c < BIN_COUNT && BinHolds(g', c, x) ==> x in g'.lists[c])
  {
    var g' := AddedShape(g, b, a);
    forall c, i | 0 <= c < BIN_COUNT && 0 <= i < |g'.lists[c]|
      ensures BinHolds(g', c, g'.lists[c][i])
    {
      if c != b {
        assert BinHolds(g, c, g.lists[c][i]);
      } else if i > 0 {
        assert BinHolds(g, b, g.lists[b][i - 1]);
      }
    }
    forall x, c | 0 <= c < BIN_COUNT && BinHolds(g', c, x)
      ensures x in g'.lists[c]
    {
      if x != a {
        assert BinHolds(g, c, x);
      }
    }
  }

  lemma AddFastBinned(h: Heap, g: Shape, b: int, a: int)
    requires Spread(g) && Binned(h, g) && FastBinned(h, g)
    requires a in g.blk && g.blk[a].kind.Loose? && 0 <= b < BIN_COUNT
    ensures FastBinned(AddedHeap(h, b, a), AddedShape(g, b, a))
  {
    var h' := AddedHeap(h, b, a);
    var g' := AddedShape(g, b, a);
    var s := g.lists[b];
    assert s != [] ==> BinHolds(g, b, s[0]);
    forall c | 0 <= c < FASTBIN_COUNT
      ensures Chained(h'.mem, h'.fastbins[c], g'.flists[c])
    {
      forall i | 0 <= i < |g.flists[c]|
        ensures NextAt(h'.mem, g.flists[c], i)
      {
        assert NextAt(h.mem, g.flists[c], i);
        assert FastHolds(g, c, g.flists[c][i]);
      }
    }
    forall c, i | 0 <= c < FASTBIN_COUNT && 0 <= i < |g'.flists[c]|
      ensures FastHolds(g', c, g'.flists[c][i])
    {
      assert FastHolds(g, c, g.flists[c][i]);
    }
    forall x, c | 0 <= c < FASTBIN_COUNT && FastHolds(g', c, x)
      ensures x in g'.flists[c]
    {
      assert FastHolds(g, c, x);
    }
  }

  lemma AddPolicy(g: Shape, b: int, a: int)
    requires Filed(g) && NoAdjacentHoles(g) && Spread(g) && a in g.blk && HoleFriendly(g, a)
    requires b == BinIndex(g.blk[a].size) && 0 <= b < |g.lists|
    ensures Filed(AddedShape(g, b, a)) && NoAdjacentHoles(AddedShape(g, b, a))
  {
  }

  lemma AddKept(h: Heap, g: Shape, b: int, a: int)
    requires Spread(g) && Binned(h, g)
    requires a in g.blk && g.blk[a].kind.Loose? && 0 <= b < BIN_COUNT
    ensures Kept(h.mem, AddedHeap(h, b, a).mem, LiveOf(g))
  {
    var s := g.lists[b];
    assert Linked(h.mem, h.bins[b], s) && (s != [] ==> BinHolds(g, b, s[0]));
    hide Spread, Binned, LiveOf, InPayload;
    forall x, w | InPayload(LiveOf(g), x, w)
      ensures w != a + 8 && w != a + 16 && (s != [] ==> w != s[0] + 16)
    {
      LinkNotPayload(g, x, w, a);
      if s != [] { LinkNotPayload(g, x, w, s[0]); }
    }
  }

  lemma AddLive(g: Shape, b: int, a: int)
    requires a in g.blk && !g.blk[a].kind.Live? && 0 <= b < |g.lists|
    ensures LiveOf(AddedShape(g, b, a)) == LiveOf(g)
  {
  }

  /** The link words of a block that is not live are no live block's payload. */
  lemma LinkNotPayload(g: Shape, x: int, w: int, y: int)
    requires Spread(g) && InPayload(LiveOf(g), x, w) && y in g.blk && !g.blk[y].kind.Live?
    ensures w != y + 8 && w != y + 16
  {
    assert x < y ==> End(g, x) <= y;
    assert y < x ==> End(g, y) <= x;
  }

  lemma TiledParts(h: Heap, g: Shape)
    requires Tiled(h, g)
    ensures Placed(h, g) && Aligned(g) && Spread(g)
  {
  }

  lemma BinnedSizes(h: Heap, g: Shape)
    requires Binned(h, g)
    ensures |h.bins| == |g.lists| == BIN_COUNT
  {
  }

  /** add_node files a loose, tagged block as a hole, provided no neighbour is a hole. */
  lemma AddNodeKeeps(h: Heap, g: Shape, b: int, a: int)
    requires Inv(h, g) && a in g.blk && g.blk[a].kind.Loose? && b == BinIndex(g.blk[a].size)
    requires TagsAt(h, Rekind(g, a, Hole(b)), a)
    requires HoleFriendly(g, a)
    ensures Inv(AddedHeap(h, b, a), AddedShape(g, b, a))
    ensures Kept(h.mem, AddedHeap(h, b, a).mem, LiveOf(g))
    ensures LiveOf(AddedShape(g, b, a)) == LiveOf(g)
  {
    TiledParts(h, g);
    BinnedSizes(h, g);
    hide Bounds, Mapped, Tiled, Preceded, AllTagged, Binned, FastBinned, Filed, NoAdjacentHoles, LiveOf;
    AddPolicy(g, b, a);
    AddKept(h, g, b, a);
    AddLive(g, b, a);
    var h' := AddedHeap(h, b, a);
    var g' := AddedShape(g, b, a);
    RekindKeepsTiling(h, g, g');
    SameBounds(h, h', g');
    AddTagged(h, g, b, a);
    AddBinned(h, g, b, a);
    AddFastBinned(h, g, b, a);
  }

  // ---- remove_node ----

  /** remove_node on one list: the memory and the head after unlinking `a`. */
  ghost function Unlinked(m: map<int, int>, head: int, a: int): (map<int, int>, int)
    requires a + 8 in m && a + 16 in m
  {
    var next, prev := m[a + 8], m[a + 16];
    if head == NULL then (m, head)
    else if head == a then (if next == NULL then m else m[next + 16 := NULL], next)
    else if next == NULL then (m[prev + 8 := NULL], head)
    else (m[prev + 8 := next][next + 16 := prev], head)
  }

  /** The heap after remove_node unlinks `a` from bin `b`. */
  ghost function RemovedHeap(h: Heap, b: int, a: int): Heap
    requires 0 <= b < |h.bins| && a + 8 in h.mem && a + 16 in h.mem
  {
    var u := Unlinked(h.mem, h.bins[b], a);
    h.(mem := u.0, bins := h.bins[b := u.1])
  }

  ghost function Without(s: seq<int>, k: int): seq<int>
    requires 0 <= k < |s|
  {
    s[..k] + s[k + 1..]
  }

  ghost function RemovedShape(g: Shape, b: int, a: int, k: int): Shape
    requires a in g.blk && 0 <= b < |g.lists| && 0 <= k < |g.lists[b]|
  {
    Rekind(g, a, Loose).(lists := g.lists[b := Without(g.lists[b], k)])
  }

  ghost predicate InList(h: Heap, g: Shape, b: int, a: int, k: int) {
    && 0 <= b < BIN_COUNT && |h.bins| == |g.lists| == BIN_COUNT
    && 0 <= k < |g.lists[b]| && g.lists[b][k] == a && a in g.blk
    && a + 8 in h.mem && a + 16 in h.mem
  }

  lemma InListLinks(h: Heap, g: Shape, b: int, a: int, k: int)
    requires Spread(g) && Binned(h, g) && InList(h, g, b, a, k)
    ensures var s := g.lists[b];
      && h.mem[a + 8] == At(s, k + 1) && h.mem[a + 16] == At(s, k - 1)
      && (k + 1 < |s| ==> s[k + 1] in g.blk && s[k + 1] > 0 && BinHolds(g, b, s[k + 1]))
      && (k > 0 ==> s[k - 1] in g.blk && s[k - 1] > 0 && s[0] != a && BinHolds(g, b, s[k - 1]))
      && h.bins[b] == s[0] > 0
  {
    var s := g.lists[b];
    assert Linked(h.mem, h.bins[b], s);
    assert LinksAt(h.mem, s, k);
    assert BinHolds(g, b, s[0]);
    if k + 1 < |s| { assert BinHolds(g, b, s[k + 1]); }
    if k > 0 { assert BinHolds(g, b, s[k - 1]); }
  }

  lemma RemoveTagged(h: Heap, g: Shape, b: int, a: int, k: int)
    requires Spread(g) && AllTagged(h, g) && Binned(h, g) && InList(h, g, b, a, k)
    ensures AllTagged(RemovedHeap(h, b, a), RemovedShape(g, b, a, k))
  {
    InListLinks(h, g, b, a, k);
    var h' := RemovedHeap(h, b, a);
    var g' := RemovedShape(g, b, a, k);
    forall c | c in g'.blk && Tagged(g'.blk[c].kind)
      ensures TagsAt(h', g', c)
    {
      assert TagsAt(h, g, c);
    }
  }

  lemma RemoveOtherBin(h: Heap, g: Shape, b: int, a: int, k: int, c: int)
    requires Spread(g) && Binned(h, g) && InList(h, g, b, a, k)
    requires 0 <= c < BIN_COUNT && c != b
    ensures Linked(RemovedHeap(h, b, a).mem, h.bins[c], g.lists[c])
  {
    InListLinks(h, g, b, a, k);
    var m := RemovedHeap(h, b, a).mem;
    var s, t := g.lists[b], g.lists[c];
    assert Linked(h.mem, h.bins[c], t);
    assert forall i :: 0 <= i < |t| ==> BinHolds(g, c, t[i]);
    hide Spread, Binned;
    forall i | 0 <= i < |t|
      ensures LinksAt(m, t, i)
    {
      assert LinksAt(h.mem, t, i);
      if k > 0 { LinksApart(g, t[i], s[k - 1]); }
      if k + 1 < |s| { LinksApart(g, t[i], s[k + 1]); }
    }
  }

  lemma LinksApart(g: Shape, x: int, y: int)
    requires Spread(g) && x in g.blk && y in g.blk && x != y
    ensures x + 8 != y + 8 && x + 8 != y + 16 && x + 16 != y + 8 && x + 16 != y + 16
  {
    assert x < y || y < x;
  }

  ghost predicate Spaced(s: seq<int>) {
    && (forall i :: 0 <= i < |s| ==> 0 < s[i])
    && (forall i, j :: 0 <= i < j < |s| ==> s[i] + 32 <= s[j] || s[j] + 32 <= s[i])
  }

  lemma BinSpaced(h: Heap, g: Shape, b: int)
    requires Spread(g) && Binned(h, g) && 0 <= b < BIN_COUNT
    ensures Spaced(g.lists[b])
  {
    var s := g.lists[b];
    assert NoRepeats(s);
    assert forall i :: 0 <= i < |s| ==> BinHolds(g, b, s[i]);
  }

  lemma UnlinkAt(m: map<int, int>, s: seq<int>, k: int, i: int)
    requires 0 <= k < |s| && Linked(m, s[0], s) && Spaced(s) && s[k] + 8 in m && s[k] + 16 in m && 0 <= i < |s| - 1
    ensures LinksAt(Unlinked(m, s[0], s[k]).0, Without(s, k), i)
  {
    var j := if i < k then i else i + 1;
    assert Without(s, k)[i] == s[j];
    assert LinksAt(m, s, k) && LinksAt(m, s, j);
    hide Linked;
  }

  lemma WithoutNoDup(s: seq<int>, k: int)
    requires 0 <= k < |s| && Spaced(s)
    ensures NoRepeats(Without(s, k))
  {
  }

  lemma UnlinkKeeps(m: map<int, int>, s: seq<int>, k: int)
    requires 0 <= k < |s| && Linked(m, s[0], s) && Spaced(s)
    requires s[k] + 8 in m && s[k] + 16 in m
    ensures var u := Unlinked(m, s[0], s[k]); Linked(u.0, u.1, Without(s, k)) && NoRepeats(Without(s, k))
  {
    var u := Unlinked(m, s[0], s[k]);
    assert LinksAt(m, s, k) && u.1 == At(Without(s, k), 0);
    WithoutNoDup(s, k);
    hide Unlinked, LinksAt, NoRepeats, Spaced;
    forall i | 0 <= i < |s| - 1
      ensures LinksAt(u.0, Without(s, k), i)
    {
      UnlinkAt(m, s, k, i);
    }
  }

  lemma RemoveSameBin(h: Heap, g: Shape, b: int, a: int, k: int)
    requires Spread(g) && Binned(h, g) && InList(h, g, b, a, k)
    ensures var h' := RemovedHeap(h, b, a); var t := Without(g.lists[b], k);
      Linked(h'.mem, h'.bins[b], t) && NoRepeats(t)
  {
    BinSpaced(h, g, b);
    assert Linked(h.mem, h.bins[b], g.lists[b]);
    UnlinkKeeps(h.mem, g.lists[b], k);
  }

  lemma RemoveHolds(h: Heap, g: Shape, b: int, a: int, k: int)
    requires Binned(h, g) && InList(h, g, b, a, k)
    ensures var g' := RemovedShape(g, b, a, k);
      && (forall c, i :: 0 <= c < BIN_COUNT && 0 <= i < |g'.lists[c]| ==> BinHolds(g', c, g'.lists[c][i]))
      && (forall x, c :: 0 <= c < BIN_COUNT && BinHolds(g', c, x) ==> x in g'.lists[c])
  {
    var g' := RemovedShape(g, b, a, k);
    var s := g.lists[b];
    assert BinHolds(g, b, s[k]) && NoRepeats(s);
    forall c, i | 0 <= c < BIN_COUNT && 0 <= i < |g'.lists[c]|
      ensures BinHolds(g', c, g'.lists[c][i])
    {
      if c != b {
        assert BinHolds(g, c, g.lists[c][i]);
      } else {
        var j := if i < k then i else i + 1;
        assert g'.lists[c][i] == s[j];
        assert BinHolds(g, b, s[j]);
      }
    }
    forall x, c | 0 <= c < BIN_COUNT && BinHolds(g', c, x)
      ensures x in g'.lists[c]
    {
      assert x != a && BinHolds(g, c, x);
      if c == b {
        var j :| 0 <= j < |s| && s[j] == x;
        assert Without(s, k)[if j < k then j else j - 1] == x;
      }
    }
  }

  lemma RemoveBinned(h: Heap, g: Shape, b: int, a: int, k: int)
    requires Spread(g) && Binned(h, g) && InList(h, g, b, a, k)
    ensures Binned(RemovedHeap(h, b, a), RemovedShape(g, b, a, k))
  {
    var h' := RemovedHeap(h, b, a);
    var g' := RemovedShape(g, b, a, k);
    RemoveSameBin(h, g, b, a, k);
    forall c | 0 <= c < BIN_COUNT
      ensures Linked(h'.mem, h'.bins[c], g'.lists[c]) && NoRepeats(g'.lists[c])
    {
      if c != b { RemoveOtherBin(h, g, b, a, k, c); }
    }
    RemoveHolds(h, g, b, a, k);
  }

  lemma RemoveFastBinned(h: Heap, g: Shape, b: int, a: int, k: int)
    requires Spread(g) && Binned(h, g) && FastBinned(h, g) && InList(h, g, b, a, k)
    ensures FastBinned(RemovedHeap(h, b, a), RemovedShape(g, b, a, k))
  {
    InListLinks(h, g, b, a, k);
    assert BinHolds(g, b, g.lists[b][k]);
    var h' := RemovedHeap(h, b, a);
    var g' := RemovedShape(g, b, a, k);
    forall c | 0 <= c < FASTBIN_COUNT
      ensures Chained(h'.mem, h'.fastbins[c], g'.flists[c])
    {
      assert Chained(h.mem, h.fastbins[c], g.flists[c]);
      forall i | 0 <= i < |g.flists[c]|
        ensures NextAt(h'.mem, g.flists[c], i)
      {
        assert NextAt(h.mem, g.flists[c], i);
        assert FastHolds(g, c, g.flists[c][i]);
      }
    }
    forall c, i | 0 <= c < FASTBIN_COUNT && 0 <= i < |g'.flists[c]|
      ensures FastHolds(g', c, g'.flists[c][i])
    {
      assert FastHolds(g, c, g.flists[c][i]);
    }
    forall x, c | 0 <= c < FASTBIN_COUNT && FastHolds(g', c, x)
      ensures x in g'.flists[c]
    {
      assert FastHolds(g, c, x);
    }
  }

  lemma RemoveKept(h: Heap, g: Shape, b: int, a: int, k: int)
    requires Spread(g) && Binned(h, g) && InList(h, g, b, a, k)
    ensures Kept(h.mem, RemovedHeap(h, b, a).mem, LiveOf(g))
    ensures h.mem.Keys <= RemovedHeap(h, b, a).mem.Keys
  {
    InListLinks(h, g, b, a, k);
    var s := g.lists[b];
    hide Spread, Binned, LiveOf, InPayload;
    forall x, w | InPayload(LiveOf(g), x, w)
      ensures (k > 0 ==> w != s[k - 1] + 8) && (k + 1 < |s| ==> w != s[k + 1] + 16)
    {
      if k > 0 { LinkNotPayload(g, x, w, s[k - 1]); }
      if k + 1 < |s| { LinkNotPayload(g, x, w, s[k + 1]); }
    }
  }

  lemma RemoveLive(h: Heap, g: Shape, b: int, a: int, k: int)
    requires Binned(h, g) && InList(h, g, b, a, k)
    ensures LiveOf(RemovedShape(g, b, a, k)) == LiveOf(g)
  {
    assert BinHolds(g, b, g.lists[b][k]);
  }

  lemma RemovePolicy(g: Shape, b: int, a: int, k: int)
    requires Filed(g) && NoAdjacentHoles(g) && a in g.blk && 0 <= b < |g.lists| && 0 <= k < |g.lists[b]|
    ensures Filed(RemovedShape(g, b, a, k)) && NoAdjacentHoles(RemovedShape(g, b, a, k))
  {
    RekindKeepsPolicy(g, a, Loose);
  }

  /** remove_node on a member of its list leaves it loose. */
  lemma RemoveNodeKeeps(h: Heap, g: Shape, b: int, a: int, k: int)
    requires Inv(h, g) && InList(h, g, b, a, k)
    ensures Inv(RemovedHeap(h, b, a), RemovedShape(g, b, a, k))
    ensures Kept(h.mem, RemovedHeap(h, b, a).mem, LiveOf(g))
    ensures LiveOf(RemovedShape(g, b, a, k)) == LiveOf(g)
  {
    TiledParts(h, g);
    hide Bounds, Mapped, Tiled, Preceded, AllTagged, Binned, FastBinned, Filed, NoAdjacentHoles, LiveOf;
    var h' := RemovedHeap(h, b, a);
    var g' := RemovedShape(g, b, a, k);
    RemoveKept(h, g, b, a, k);
    RemoveLive(h, g, b, a, k);
    RekindKeepsTiling(h, g, g');
    SameBounds(h, h', g');
    RemoveTagged(h, g, b, a, k);
    RemoveBinned(h, g, b, a, k);
    RemoveFastBinned(h, g, b, a, k);
    RemovePolicy(g, b, a, k);
  }

  // ---- Fastbins ----

  ghost function PushedHeap(h: Heap, i: int, a: int): Heap
    requires 0 <= i < |h.fastbins|
  {
    h.(mem := h.mem[a + 8 := h.fastbins[i]], fastbins := h.fastbins[i := a])
  }

  ghost function PushedShape(g: Shape, i: int, a: int): Shape
    requires a in g.blk && 0 <= i < |g.flists|
  {
    Rekind(g, a, Fast(i)).(flists := g.flists[i := [a] + g.flists[i]])
  }

  lemma ChainedAround(m: map<int, int>, head: int, s: seq<int>, a: int, v: int)
    requires Chained(m, head, s) && a !in s
    ensures Chained(m[a + 8 := v], head, s)
  {
    var m' := m[a + 8 := v];
    forall j | 0 <= j < |s|
      ensures NextAt(m', s, j)
    {
      assert NextAt(m, s, j) && s[j] != a;
    }
  }

  lemma ChainedInFront(m: map<int, int>, head: int, s: seq<int>, a: int)
    requires Chained(m, head, s) && a !in s && NoRepeats(s)
    ensures Chained(m[a + 8 := head], a, [a] + s) && NoRepeats([a] + s)
  {
    ChainedAround(m, head, s, a, head);
    var m', s' := m[a + 8 := head], [a] + s;
    forall j | 0 <= j < |s'|
      ensures NextAt(m', s', j)
    {
      if j > 0 { assert NextAt(m', s, j - 1); }
    }
  }

  lemma FastSizes(h: Heap, g: Shape)
    requires FastBinned(h, g)
    ensures |h.fastbins| == |g.flists| == FASTBIN_COUNT
  {
  }

  lemma LooseNotChained(h: Heap, g: Shape, a: int, c: int)
    requires FastBinned(h, g) && a in g.blk && g.blk[a].kind.Loose? && 0 <= c < FASTBIN_COUNT
    ensures |h.fastbins| == |g.flists| == FASTBIN_COUNT && a !in g.flists[c]
    ensures Chained(h.mem, h.fastbins[c], g.flists[c]) && NoRepeats(g.flists[c])
  {
    var s := g.flists[c];
    assert forall j :: 0 <= j < |s| ==> FastHolds(g, c, s[j]);
  }

  lemma PushChained(h: Heap, g: Shape, i: int, a: int, c: int)
    requires FastBinned(h, g) && a in g.blk && g.blk[a].kind.Loose? && 0 <= i < FASTBIN_COUNT
    requires 0 <= c < FASTBIN_COUNT
    ensures var h', g' := PushedHeap(h, i, a), PushedShape(g, i, a);
      Chained(h'.mem, h'.fastbins[c], g'.flists[c]) && NoRepeats(g'.flists[c])
  {
    FastSizes(h, g);
    hide FastBinned, Chained, NoRepeats;
    LooseNotChained(h, g, a, c);
    if c == i {
      ChainedInFront(h.mem, h.fastbins[c], g.flists[c], a);
    } else {
      ChainedAround(h.mem, h.fastbins[c], g.flists[c], a, h.fastbins[i]);
    }
  }

  lemma PushHolds(h: Heap, g: Shape, i: int, a: int)
    requires FastBinned(h, g) && a in g.blk && g.blk[a].kind.Loose? && 0 <= i < FASTBIN_COUNT
    ensures var g' := PushedShape(g, i, a);
      && (forall c, j :: 0 <= c < FASTBIN_COUNT && 0 <= j < |g'.flists[c]| ==> FastHolds(g', c, g'.flists[c][j]))
      && (forall x, c :: 0 <= c < FASTBIN_COUNT && FastHolds(g', c, x) ==> x in g'.flists[c])
  {
    var g' := PushedShape(g, i, a);
    forall c, j | 0 <= c < FASTBIN_COUNT && 0 <= j < |g'.flists[c]|
      ensures FastHolds(g', c, g'.flists[c][j])
    {
      var j' := if c == i then j - 1 else j;
      if j' >= 0 { assert FastHolds(g, c, g.flists[c][j']); }
    }
    forall x, c | 0 <= c < FASTBIN_COUNT && FastHolds(g', c, x)
      ensures x in g'.flists[c]
    {
      if x != a { assert FastHolds(g, c, x); }
    }
  }

  lemma PushFastBinned(h: Heap, g: Shape, i: int, a: int)
    requires FastBinned(h, g) && a in g.blk && g.blk[a].kind.Loose? && 0 <= i < FASTBIN_COUNT
    ensures FastBinned(PushedHeap(h, i, a), PushedShape(g, i, a))
  {
    hide Chained, NoRepeats;
    var h', g' := PushedHeap(h, i, a), PushedShape(g, i, a);
    forall c | 0 <= c < FASTBIN_COUNT
      ensures Chained(h'.mem, h'.fastbins[c], g'.flists[c]) && NoRepeats(g'.flists[c])
    {
      PushChained(h, g, i, a, c);
    }
    PushHolds(h, g, i, a);
  }

  lemma FastRekindKeepsBins(h: Heap, g: Shape, g': Shape, a: int)
    requires Binned(h, g) && a in g.blk && BinOf(g.blk[a].kind) == -1
    requires g'.lists == g.lists && a in g'.blk && g'.blk == g.blk[a := g'.blk[a]] && BinOf(g'.blk[a].kind) == -1
    ensures Binned(h, g')
  {
    forall b, x | 0 <= b < BIN_COUNT
      ensures BinHolds(g', b, x) == BinHolds(g, b, x)
    {
    }
    assert forall b, i :: 0 <= b < BIN_COUNT && 0 <= i < |g.lists[b]| ==> BinHolds(g, b, g.lists[b][i]);
  }

  lemma FastRekindKeepsTags(h: Heap, g: Shape, g': Shape, a: int)
    requires AllTagged(h, g) && a in g'.blk && a in g.blk && g'.blk == g.blk[a := g'.blk[a]]
    requires Tagged(g'.blk[a].kind) ==> TagsAt(h, g', a)
    ensures AllTagged(h, g')
  {
    forall x | x in g'.blk && Tagged(g'.blk[x].kind)
      ensures TagsAt(h, g', x)
    {
      if x != a { assert TagsAt(h, g, x); }
    }
  }

  lemma FastRekindKeepsPolicy(g: Shape, g': Shape, a: int)
    requires Filed(g) && NoAdjacentHoles(g) && a in g.blk && a in g'.blk && g'.blk == g.blk[a := g'.blk[a]]
    requires g'.blk[a].kind.Loose? || (g'.blk[a].kind.Fast? && 0 <= g'.blk[a].kind.fastbin < FASTBIN_COUNT
                                       && g'.blk[a].size == 8 * g'.blk[a].kind.fastbin)
    ensures Filed(g') && NoAdjacentHoles(g')
  {
  }

  /** Parking a loose block in the fastbin of its size. */
  lemma PushFastKeeps(h: Heap, g: Shape, i: int, a: int)
    requires Inv(h, g) && a in g.blk && g.blk[a].kind.Loose?
    requires 0 <= i < FASTBIN_COUNT && g.blk[a].size == 8 * i
    requires TagsAt(h, Rekind(g, a, Fast(i)), a)
    ensures Inv(PushedHeap(h, i, a), PushedShape(g, i, a))
    ensures Kept(h.mem, PushedHeap(h, i, a).mem, LiveOf(g))
    ensures LiveOf(PushedShape(g, i, a)) == LiveOf(g)
  {
    TiledParts(h, g);
    FastSizes(h, g);
    hide Bounds, Mapped, Tiled, Preceded, AllTagged, Binned, FastBinned, Filed, NoAdjacentHoles, LiveOf;
    var h1 := Store(h, a + 8, h.fastbins[i]);
    var h' := PushedHeap(h, i, a);
    var g' := PushedShape(g, i, a);
    WriteKeeps(h, g, a, a + 8, h.fastbins[i]);
    PushFastBinned(h, g, i, a);
    assert TagsAt(h1, g', a);
    FastRekindKeeps(h1, g, g', a);
    SameMemory(h1, h', g');
    PushLive(g, i, a);
  }

  lemma PushLive(g: Shape, i: int, a: int)
    requires a in g.blk && g.blk[a].kind.Loose? && 0 <= i < |g.flists|
    ensures LiveOf(PushedShape(g, i, a)) == LiveOf(g)
  {
  }

  lemma FastRekindKeeps(h: Heap, g: Shape, g': Shape, a: int)
    requires Inv(h, g) && a in g.blk && BinOf(g.blk[a].kind) == -1 && a in g'.blk
    requires g'.lists == g.lists && g'.blk == g.blk[a := g'.blk[a]] && g'.blk[a].size == g.blk[a].size
    requires g'.blk[a].kind.Loose? || (g'.blk[a].kind.Fast? && 0 <= g'.blk[a].kind.fastbin < FASTBIN_COUNT
                                       && g'.blk[a].size == 8 * g'.blk[a].kind.fastbin)
    requires Tagged(g'.blk[a].kind) ==> TagsAt(h, g', a)
    ensures Tiled(h, g') && Preceded(h, g') && AllTagged(h, g') && Binned(h, g') && Filed(g') && NoAdjacentHoles(g')
  {
    hide Bounds, Mapped, Tiled, Preceded, AllTagged, Binned, FastBinned, Filed, NoAdjacentHoles, LiveOf;
    RekindKeepsTiling(h, g, g');
    FastRekindKeepsBins(h, g, g', a);
    FastRekindKeepsTags(h, g, g', a);
    FastRekindKeepsPolicy(g, g', a);
  }

  lemma SameMemory(h: Heap, h': Heap, g: Shape)
    requires h'.start == h.start && h'.end == h.end && h'.mem == h.mem && h'.bins == h.bins
    requires Bounds(h) && Mapped(h) && Tiled(h, g) && Preceded(h, g) && AllTagged(h, g) && Binned(h, g)
    ensures Bounds(h') && Mapped(h') && Tiled(h', g) && Preceded(h', g) && AllTagged(h', g) && Binned(h', g)
  {
    SameBounds(h, h', g);
    assert forall a :: a in g.blk && Tagged(g.blk[a].kind) ==> TagsAt(h, g, a) && TagsAt(h', g, a);
  }

  ghost function PoppedHeap(h: Heap, i: int): Heap
    requires 0 <= i < |h.fastbins| && h.fastbins[i] + 8 in h.mem
  {
    h.(fastbins := h.fastbins[i := h.mem[h.fastbins[i] + 8]])
  }

  ghost function PoppedShape(g: Shape, i: int): Shape
    requires 0 <= i < |g.flists| && |g.flists[i]| > 0 && g.flists[i][0] in g.blk
  {
    Rekind(g, g.flists[i][0], Loose).(flists := g.flists[i := g.flists[i][1..]])
  }

  lemma PopFastBinned(h: Heap, g: Shape, i: int)
    requires FastBinned(h, g) && 0 <= i < FASTBIN_COUNT && |g.flists[i]| > 0
    requires g.flists[i][0] in g.blk && h.fastbins[i] + 8 in h.mem
    ensures FastBinned(PoppedHeap(h, i), PoppedShape(g, i))
  {
    var h' := PoppedHeap(h, i);
    var g' := PoppedShape(g, i);
    var a := g.flists[i][0];
    assert FastHolds(g, i, a);
    forall c | 0 <= c < FASTBIN_COUNT
      ensures Chained(h'.mem, h'.fastbins[c], g'.flists[c]) && NoRepeats(g'.flists[c])
    {
      var s := g.flists[c];
      assert Chained(h.mem, h.fastbins[c], s) && NoRepeats(s);
      if c == i { assert NextAt(h.mem, s, 0); }
      forall j | 0 <= j < |g'.flists[c]|
        ensures NextAt(h'.mem, g'.flists[c], j)
      {
        assert NextAt(h.mem, s, if c == i then j + 1 else j);
      }
    }
    forall c, j | 0 <= c < FASTBIN_COUNT && 0 <= j < |g'.flists[c]|
      ensures FastHolds(g', c, g'.flists[c][j])
    {
      assert NoRepeats(g.flists[i]);
      assert FastHolds(g, c, g.flists[c][if c == i then j + 1 else j]);
    }
    forall x, c | 0 <= c < FASTBIN_COUNT && FastHolds(g', c, x)
      ensures x in g'.flists[c]
    {
      assert x != a && FastHolds(g, c, x);
    }
  }

  lemma FastHeadFacts(h: Heap, g: Shape, i: int)
    requires FastBinned(h, g) && 0 <= i < FASTBIN_COUNT && h.fastbins[i] != NULL
    ensures |g.flists[i]| > 0 && h.fastbins[i] == g.flists[i][0] && g.flists[i][0] in g.blk
    ensures h.fastbins[i] + 8 in h.mem && g.blk[h.fastbins[i]].kind == Fast(i)
  {
    assert Chained(h.mem, h.fastbins[i], g.flists[i]);
    assert NextAt(h.mem, g.flists[i], 0);
    assert FastHolds(g, i, g.flists[i][0]);
  }

  /** Taking the head of a fastbin leaves it loose. */
  lemma PopFastKeeps(h: Heap, g: Shape, i: int)
    requires Inv(h, g) && 0 <= i < FASTBIN_COUNT && |g.flists[i]| > 0
    requires h.fastbins[i] == g.flists[i][0] && g.flists[i][0] in g.blk && h.fastbins[i] + 8 in h.mem
    requires g.blk[h.fastbins[i]].kind.Fast?
    ensures Inv(PoppedHeap(h, i), PoppedShape(g, i))
    ensures LiveOf(PoppedShape(g, i)) == LiveOf(g)
  {
    FastSizes(h, g);
    hide Bounds, Mapped, Tiled, Preceded, AllTagged, Binned, FastBinned, Filed, NoAdjacentHoles, LiveOf;
    var h' := PoppedHeap(h, i);
    var g' := PoppedShape(g, i);
    var a := h.fastbins[i];
    PopFastBinned(h, g, i);
    FastRekindKeeps(h, g, g', a);
    SameMemory(h, h', g');
    PopLive(g, i);
  }

  lemma PopLive(g: Shape, i: int)
    requires 0 <= i < |g.flists| && |g.flists[i]| > 0 && g.flists[i][0] in g.blk && !g.blk[g.flists[i][0]].kind.Live?
    ensures LiveOf(PoppedShape(g, i)) == LiveOf(g)
  {
  }

  // ---- Merging and splitting loose blocks ----

  ghost function MergedShape(g: Shape, a: int, n: int): Shape
    requires a in g.blk && n in g.blk
  {
    g.(blk := (g.blk - {n})[a := Block(g.blk[a].size + OVERHEAD + g.blk[n].size, g.blk[a].kind)])
  }

  lemma MergeAligned(g: Shape, a: int, n: int)
    requires Aligned(g) && a in g.blk && n in g.blk
    ensures Aligned(MergedShape(g, a, n))
  {
    var g' := MergedShape(g, a, n);
    assert g'.blk[a].size == g.blk[a].size + 32 + g.blk[n].size;
  }

  lemma MergePlaced(h: Heap, g: Shape, a: int, n: int)
    requires Placed(h, g) && Spread(g) && a in g.blk && n in g.blk && End(g, a) == n
    ensures var g' := MergedShape(g, a, n); Placed(h, g') && Spread(g')
    ensures a < n
  {
    var g' := MergedShape(g, a, n);
    assert a < n;
    assert End(g', a) == End(g, n);
    forall x, y | x in g'.blk && y in g'.blk && x < y
      ensures End(g', x) <= y
    {
      assert End(g, x) <= y;
      if x == a { assert n < y; }
    }
  }

  lemma MergeTiled(h: Heap, g: Shape, a: int, n: int)
    requires Tiled(h, g) && a in g.blk && n in g.blk && End(g, a) == n
    ensures Tiled(h, MergedShape(g, a, n))
  {
    MergePlaced(h, g, a, n);
    MergeAligned(g, a, n);
    var g' := MergedShape(g, a, n);
    hide Placed, Aligned, Spread;
    forall x | x in g'.blk
      ensures HasSucc(h, g', x)
    {
      assert HasSucc(h, g, x) && HasSucc(h, g, n);
      if x != a { EndsDiffer(g, a, x); }
    }
  }

  lemma EndsDiffer(g: Shape, a: int, x: int)
    requires Spread(g) && a in g.blk && x in g.blk && x != a
    ensures End(g, x) != End(g, a)
  {
    assert a < x || x < a;
  }

  lemma MergePreceded(h: Heap, g: Shape, a: int, n: int)
    requires Preceded(h, g) && a in g.blk && n in g.blk && End(g, a) == n && a < n < h.end
    ensures Preceded(h, MergedShape(g, a, n))
  {
    var g' := MergedShape(g, a, n);
    forall x | HasPred(g, x) && x != n
      ensures HasPred(g', x)
    {
      var p :| p in g.blk && End(g, p) == x;
      var q := if p == n then a else p;
      assert q in g'.blk && End(g', q) == x;
    }
    assert HasPred(g', h.end);
    forall x | x in g'.blk && x != h.start
      ensures HasPred(g', x)
    {
      assert HasPred(g, x);
    }
  }

  ghost predicate SameListed(g: Shape, g': Shape) {
    && (forall b, x :: 0 <= b < BIN_COUNT ==> BinHolds(g', b, x) == BinHolds(g, b, x))
    && (forall b, x :: 0 <= b < FASTBIN_COUNT ==> FastHolds(g', b, x) == FastHolds(g, b, x))
  }

  lemma OffListKeepsLists(h: Heap, g: Shape, g': Shape)
    requires Binned(h, g) && FastBinned(h, g) && g'.lists == g.lists && g'.flists == g.flists
    requires SameListed(g, g')
    ensures Binned(h, g') && FastBinned(h, g')
  {
    assert forall b, i :: 0 <= b < BIN_COUNT && 0 <= i < |g.lists[b]| ==> BinHolds(g, b, g.lists[b][i]);
    assert forall b, i :: 0 <= b < FASTBIN_COUNT && 0 <= i < |g.flists[b]| ==> FastHolds(g, b, g.flists[b][i]);
  }

  /** The tagged blocks of g' are blocks of g, unchanged. */
  ghost predicate TaggedUnchanged(g: Shape, g': Shape) {
    forall x :: x in g'.blk && Tagged(g'.blk[x].kind) ==> x in g.blk && g'.blk[x] == g.blk[x]
  }

  lemma UnchangedKeepTags(h: Heap, g: Shape, g': Shape)
    requires AllTagged(h, g) && TaggedUnchanged(g, g')
    ensures AllTagged(h, g')
  {
    forall x | x in g'.blk && Tagged(g'.blk[x].kind)
      ensures TagsAt(h, g', x)
    {
      assert TagsAt(h, g, x);
    }
  }

  lemma EndsInside(h: Heap, g: Shape, n: int)
    requires Placed(h, g) && Spread(g) && n in g.blk
    ensures n < h.end
  {
  }

  /** Two loose neighbours become one loose block. */
  lemma MergeKeeps(h: Heap, g: Shape, a: int, n: int)
    requires Inv(h, g) && a in g.blk && n in g.blk && End(g, a) == n
    requires g.blk[a].kind.Loose? && g.blk[n].kind.Loose?
    ensures Inv(h, MergedShape(g, a, n))
    ensures LiveOf(MergedShape(g, a, n)) == LiveOf(g)
  {
    TiledParts(h, g);
    EndsInside(h, g, n);
    hide Bounds, Mapped, Tiled, Preceded, AllTagged, Binned, FastBinned, Filed, NoAdjacentHoles;
    var g' := MergedShape(g, a, n);
    MergeTiled(h, g, a, n);
    MergePlaced(h, g, a, n);
    MergePreceded(h, g, a, n);
    MergePolicy(g, a, n);
    OffListKeepsLists(h, g, g');
    UnchangedKeepTags(h, g, g');
  }

  lemma MergeFiled(g: Shape, a: int, n: int)
    requires Filed(g) && NoAdjacentHoles(g) && a in g.blk && n in g.blk && a != n
    requires g.blk[a].kind.Loose? && g.blk[n].kind.Loose?
    ensures Filed(MergedShape(g, a, n)) && NoAdjacentHoles(MergedShape(g, a, n))
  {
  }

  lemma MergeListed(g: Shape, a: int, n: int)
    requires Filed(g) && NoAdjacentHoles(g) && a in g.blk && n in g.blk && a != n
    requires g.blk[a].kind.Loose? && g.blk[n].kind.Loose?
    ensures SameListed(g, MergedShape(g, a, n))
  {
  }

  lemma MergePolicy(g: Shape, a: int, n: int)
    requires Filed(g) && NoAdjacentHoles(g) && a in g.blk && n in g.blk && a != n
    requires g.blk[a].kind.Loose? && g.blk[n].kind.Loose?
    ensures var g' := MergedShape(g, a, n);
      Filed(g') && NoAdjacentHoles(g') && SameListed(g, g') && TaggedUnchanged(g, g') && LiveOf(g') == LiveOf(g)
  {
    MergeFiled(g, a, n);
    MergeListed(g, a, n);
    hide Filed, NoAdjacentHoles, SameListed;
  }

  ghost function SplitShape(g: Shape, a: int, t: int): Shape
    requires a in g.blk
  {
    g.(blk := g.blk[a := Block(t, g.blk[a].kind)][a + OVERHEAD + t := Block(g.blk[a].size - t - OVERHEAD, Loose)])
  }

  lemma SplitAligned(g: Shape, a: int, t: int)
    requires Aligned(g) && a in g.blk && t % 8 == 0
    ensures Aligned(SplitShape(g, a, t))
  {
    assert a % 8 == 0 && g.blk[a].size % 8 == 0;
  }

  lemma SplitBetween(g: Shape, a: int, t: int, x: int, y: int)
    requires Spread(g) && a in g.blk && 0 <= t && t + OVERHEAD <= g.blk[a].size && a + OVERHEAD + t !in g.blk
    requires x in SplitShape(g, a, t).blk && y in SplitShape(g, a, t).blk && x < y
    ensures End(SplitShape(g, a, t), x) <= y
  {
    var n := a + OVERHEAD + t;
    if x != n && y != n { assert End(g, x) <= y; }
    else if x == n { assert y in g.blk && a < y && End(g, a) <= y; }
    else if x != a { assert x in g.blk && x < a && End(g, x) <= a; }
  }

  lemma SplitPlaced(h: Heap, g: Shape, a: int, t: int)
    requires Placed(h, g) && Spread(g) && a in g.blk
    requires 0 <= t && t + OVERHEAD <= g.blk[a].size
    ensures var g' := SplitShape(g, a, t); Placed(h, g') && Spread(g')
    ensures a + OVERHEAD + t !in g.blk
  {
    var n := a + OVERHEAD + t;
    var g' := SplitShape(g, a, t);
    assert n !in g.blk;
    assert End(g', a) == n && End(g', n) == End(g, a);
    forall x, y | x in g'.blk && y in g'.blk && x < y
      ensures End(g', x) <= y
    {
      SplitBetween(g, a, t, x, y);
    }
  }

  lemma SplitSucc(h: Heap, g: Shape, a: int, t: int, x: int)
    requires a in g.blk && 0 <= t && a + OVERHEAD + t !in g.blk && x in SplitShape(g, a, t).blk
    requires HasSucc(h, g, a) && (x in g.blk ==> HasSucc(h, g, x))
    ensures HasSucc(h, SplitShape(g, a, t), x)
  {
  }

  lemma SplitTiled(h: Heap, g: Shape, a: int, t: int)
    requires Tiled(h, g) && a in g.blk
    requires 0 <= t && t % 8 == 0 && t + OVERHEAD <= g.blk[a].size
    ensures Tiled(h, SplitShape(g, a, t))
  {
    SplitPlaced(h, g, a, t);
    SplitAligned(g, a, t);
    hide Placed, Aligned, Spread, SplitShape, HasSucc;
    forall x | x in SplitShape(g, a, t).blk
      ensures HasSucc(h, SplitShape(g, a, t), x)
    {
      assert HasSucc(h, g, a) && (x in g.blk ==> HasSucc(h, g, x));
      SplitSucc(h, g, a, t, x);
    }
  }

  lemma SplitPreceded(h: Heap, g: Shape, a: int, t: int)
    requires Preceded(h, g) && a in g.blk && a + OVERHEAD + t !in g.blk && 0 <= t
    ensures Preceded(h, SplitShape(g, a, t))
  {
    var n := a + OVERHEAD + t;
    var g' := SplitShape(g, a, t);
    assert a in g'.blk && End(g', a) == n;
    forall x | HasPred(g, x)
      ensures HasPred(g', x)
    {
      var p :| p in g.blk && End(g, p) == x;
      var q := if p == a then n else p;
      assert q in g'.blk && End(g', q) == x;
    }
    forall x | x in g'.blk && x != h.start
      ensures HasPred(g', x)
    {
      if x != n { assert HasPred(g, x); }
    }
  }

  lemma SplitFiled(g: Shape, a: int, t: int)
    requires Filed(g) && NoAdjacentHoles(g) && Untagged(g, a) && a + OVERHEAD + t !in g.blk && 0 <= t
    ensures Filed(SplitShape(g, a, t)) && NoAdjacentHoles(SplitShape(g, a, t))
  {
  }

  lemma SplitListed(g: Shape, a: int, t: int)
    requires Filed(g) && NoAdjacentHoles(g) && Untagged(g, a) && a + OVERHEAD + t !in g.blk && 0 <= t
    ensures SameListed(g, SplitShape(g, a, t))
  {
  }

  lemma SplitPolicy(g: Shape, a: int, t: int)
    requires Filed(g) && NoAdjacentHoles(g) && Untagged(g, a) && a + OVERHEAD + t !in g.blk && 0 <= t
    ensures var g' := SplitShape(g, a, t);
      Filed(g') && NoAdjacentHoles(g') && SameListed(g, g') && TaggedUnchanged(g, g') && LiveOf(g') == LiveOf(g)
  {
    SplitFiled(g, a, t);
    SplitListed(g, a, t);
    hide Filed, NoAdjacentHoles, SameListed;
  }

  /** An untagged block is cut in two; the upper part is loose. */
  lemma SplitKeeps(h: Heap, g: Shape, a: int, t: int)
    requires Inv(h, g) && Untagged(g, a)
    requires 0 <= t && t % 8 == 0 && t + OVERHEAD <= g.blk[a].size
    ensures Inv(h, SplitShape(g, a, t))
    ensures LiveOf(SplitShape(g, a, t)) == LiveOf(g)
    ensures a + OVERHEAD + t !in g.blk
  {
    TiledParts(h, g);
    hide Bounds, Mapped, Tiled, Preceded, AllTagged, Binned, FastBinned, Filed, NoAdjacentHoles;
    var g' := SplitShape(g, a, t);
    SplitTiled(h, g, a, t);
    SplitPlaced(h, g, a, t);
    SplitPreceded(h, g, a, t);
    SplitPolicy(g, a, t);
    OffListKeepsLists(h, g, g');
    UnchangedKeepTags(h, g, g');
  }

  // ---- Growth ----

  /** mremap makes `sz` more bytes of zeroed memory available at the end. */
  function GrownHeap(h: Heap, sz: int): Heap {
    h.(end := h.end + sz, mem := h.mem + (map w | h.end <= w < h.end + sz && w % 8 == 0 :: 0))
  }

  ghost function GrownLast(g: Shape, a: int, sz: int): Shape
    requires a in g.blk
  {
    g.(blk := g.blk[a := Block(g.blk[a].size + sz, g.blk[a].kind)])
  }

  ghost function GrownNew(h: Heap, g: Shape, sz: int): Shape {
    g.(blk := g.blk[h.end := Block(sz - OVERHEAD, Loose)])
  }

  ghost predicate GrowthFits(h: Heap, sz: int) {
    0 < sz && sz % 8 == 0 && h.end + sz <= h.start + HEAP_LIMIT
  }

  lemma GrowMapped(h: Heap, sz: int)
    requires Bounds(h) && Mapped(h) && GrowthFits(h, sz)
    ensures Bounds(GrownHeap(h, sz)) && Mapped(GrownHeap(h, sz))
  {
  }

  lemma GrowKeepsLists(h: Heap, g: Shape, sz: int)
    requires Placed(h, g) && Spread(g) && Binned(h, g) && FastBinned(h, g) && AllTagged(h, g)
    ensures var h' := GrownHeap(h, sz); Binned(h', g) && FastBinned(h', g) && AllTagged(h', g)
    ensures Kept(h.mem, GrownHeap(h, sz).mem, LiveOf(g))
  {
    var h' := GrownHeap(h, sz);
    forall b | 0 <= b < BIN_COUNT
      ensures Linked(h'.mem, h'.bins[b], g.lists[b])
    {
      assert Linked(h.mem, h.bins[b], g.lists[b]);
      forall i | 0 <= i < |g.lists[b]|
        ensures LinksAt(h'.mem, g.lists[b], i)
      {
        assert LinksAt(h.mem, g.lists[b], i);
        assert BinHolds(g, b, g.lists[b][i]);
      }
    }
    forall b | 0 <= b < FASTBIN_COUNT
      ensures Chained(h'.mem, h'.fastbins[b], g.flists[b])
    {
      assert Chained(h.mem, h.fastbins[b], g.flists[b]);
      forall i | 0 <= i < |g.flists[b]|
        ensures NextAt(h'.mem, g.flists[b], i)
      {
        assert NextAt(h.mem, g.flists[b], i);
        assert FastHolds(g, b, g.flists[b][i]);
      }
    }
    forall x | x in g.blk && Tagged(g.blk[x].kind)
      ensures TagsAt(h', g, x)
    {
      assert TagsAt(h, g, x);
    }
  }

  lemma GrowLastPlaced(h: Heap, g: Shape, a: int, sz: int)
    requires Placed(h, g) && Spread(g) && a in g.blk && End(g, a) == h.end && 0 < sz
    ensures var g' := GrownLast(g, a, sz); Placed(GrownHeap(h, sz), g') && Spread(g')
    ensures forall x :: x in g.blk && x != a ==> End(g, x) < h.end
  {
    var g' := GrownLast(g, a, sz);
    forall x | x in g.blk && x != a
      ensures End(g', x) == End(g, x) && End(g, x) <= a
    {
      assert x < a || a < x;
    }
  }

  lemma GrowLastAligned(g: Shape, a: int, sz: int)
    requires Aligned(g) && a in g.blk && sz % 8 == 0
    ensures Aligned(GrownLast(g, a, sz))
  {
    assert g.blk[a].size % 8 == 0;
  }

  lemma GrowLastTiled(h: Heap, g: Shape, a: int, sz: int)
    requires Tiled(h, g) && Preceded(h, g) && a in g.blk && End(g, a) == h.end && 0 < sz && sz % 8 == 0
    ensures var h' := GrownHeap(h, sz); var g' := GrownLast(g, a, sz); Tiled(h', g') && Preceded(h', g')
  {
    GrowLastPlaced(h, g, a, sz);
    GrowLastAligned(g, a, sz);
    var h' := GrownHeap(h, sz);
    var g' := GrownLast(g, a, sz);
    forall x | x in g'.blk
      ensures HasSucc(h', g', x)
    {
      assert HasSucc(h, g, x);
    }
    GrowLastPreceded(h, g, a, sz);
  }

  lemma GrowLastPreceded(h: Heap, g: Shape, a: int, sz: int)
    requires Placed(h, g) && Preceded(h, g) && a in g.blk && End(g, a) == h.end
    requires forall x :: x in g.blk ==> 0 <= g.blk[x].size
    ensures Preceded(GrownHeap(h, sz), GrownLast(g, a, sz))
  {
    var h' := GrownHeap(h, sz);
    var g' := GrownLast(g, a, sz);
    assert a in g'.blk && End(g', a) == h'.end;
    assert HasPred(g', h'.end);
    forall x | x in g'.blk && x != h'.start
      ensures HasPred(g', x)
    {
      assert HasPred(g, x);
      var p :| p in g.blk && End(g, p) == x;
      assert End(g, x) <= h.end;
      assert p in g'.blk && End(g', p) == x;
    }
  }

  lemma GrowNewAligned(h: Heap, g: Shape, sz: int)
    requires Aligned(g) && sz % 8 == 0 && h.end % 8 == 0
    ensures Aligned(GrownNew(h, g, sz))
  {
  }

  lemma GrowNewPlaced(h: Heap, g: Shape, sz: int)
    requires Placed(h, g) && Spread(g) && OVERHEAD <= sz
    ensures var g' := GrownNew(h, g, sz); Placed(GrownHeap(h, sz), g') && Spread(g')
    ensures h.end !in g.blk
  {
    var g' := GrownNew(h, g, sz);
    assert forall x :: x in g.blk ==> End(g', x) == End(g, x);
  }

  lemma GrowNewPreceded(h: Heap, g: Shape, sz: int)
    requires Preceded(h, g) && h.end !in g.blk
    ensures Preceded(GrownHeap(h, sz), GrownNew(h, g, sz))
  {
    var h' := GrownHeap(h, sz);
    var g' := GrownNew(h, g, sz);
    assert h.end in g'.blk && End(g', h.end) == h'.end;
    assert HasPred(g', h'.end);
    forall x | x in g'.blk && x != h'.start
      ensures HasPred(g', x)
    {
      assert HasPred(g, x);
      var p :| p in g.blk && End(g, p) == x;
      assert p in g'.blk && End(g', p) == x;
    }
  }

  lemma GrowNewTiled(h: Heap, g: Shape, sz: int)
    requires Tiled(h, g) && Preceded(h, g) && OVERHEAD <= sz && sz % 8 == 0 && h.end % 8 == 0
    ensures var h' := GrownHeap(h, sz); var g' := GrownNew(h, g, sz); Tiled(h', g') && Preceded(h', g')
    ensures h.end !in g.blk
  {
    var h' := GrownHeap(h, sz);
    var g' := GrownNew(h, g, sz);
    GrowNewAligned(h, g, sz);
    GrowNewPlaced(h, g, sz);
    GrowNewPreceded(h, g, sz);
    forall x | x in g'.blk
      ensures HasSucc(h', g', x)
    {
      if x != h.end { assert HasSucc(h, g, x); }
    }
  }

  lemma GrowPolicy(g: Shape, a: int, b: Block)
    requires Filed(g) && NoAdjacentHoles(g) && b.kind.Loose? && (a in g.blk ==> g.blk[a].kind.Loose?)
    ensures var g' := g.(blk := g.blk[a := b]);
      Filed(g') && NoAdjacentHoles(g') && SameListed(g, g') && TaggedUnchanged(g, g') && LiveOf(g') == LiveOf(g)
  {
  }

  /** Growth with a loose last block: that block takes the new space. */
  lemma GrowLastKeeps(h: Heap, g: Shape, a: int, sz: int)
    requires Inv(h, g) && GrowthFits(h, sz) && a in g.blk && g.blk[a].kind.Loose? && End(g, a) == h.end
    ensures Inv(GrownHeap(h, sz), GrownLast(g, a, sz))
    ensures Kept(h.mem, GrownHeap(h, sz).mem, LiveOf(g)) && LiveOf(GrownLast(g, a, sz)) == LiveOf(g)
  {
    var h' := GrownHeap(h, sz);
    var g' := GrownLast(g, a, sz);
    GrowMapped(h, sz);
    GrowKeepsLists(h, g, sz);
    GrowLastTiled(h, g, a, sz);
    GrowPolicy(g, a, g'.blk[a]);
    OffListKeepsLists(h', g, g');
    UnchangedKeepTags(h', g, g');
  }

  /** Growth otherwise: the new space is a loose block of its own. */
  lemma GrowNewKeeps(h: Heap, g: Shape, sz: int)
    requires Inv(h, g) && GrowthFits(h, sz) && OVERHEAD <= sz
    ensures Inv(GrownHeap(h, sz), GrownNew(h, g, sz))
    ensures Kept(h.mem, GrownHeap(h, sz).mem, LiveOf(g)) && LiveOf(GrownNew(h, g, sz)) == LiveOf(g)
  {
    var h' := GrownHeap(h, sz);
    var g' := GrownNew(h, g, sz);
    GrowMapped(h, sz);
    GrowKeepsLists(h, g, sz);
    GrowNewTiled(h, g, sz);
    GrowPolicy(g, h.end, g'.blk[h.end]);
    OffListKeepsLists(h', g, g');
    UnchangedKeepTags(h', g, g');
  }

  // ---- Tag words survive list surgery ----

  /** The header and footer words of every block are untouched. */
  ghost predicate TagWordsSame(m: map<int, int>, m': map<int, int>, g: Shape) {
    forall x :: x in g.blk && x in m && End(g, x) - 8 in m ==>
      && x in m' && m'[x] == m[x]
      && End(g, x) - 8 in m' && m'[End(g, x) - 8] == m[End(g, x) - 8]
  }

  lemma NotALinkWord(g: Shape, x: int, y: int)
    requires Spread(g) && x in g.blk && y in g.blk
    ensures x != y + 8 && x != y + 16 && End(g, x) - 8 != y + 8 && End(g, x) - 8 != y + 16
  {
    assert x < y ==> End(g, x) <= y;
    assert y < x ==> End(g, y) <= x;
  }

  lemma RemoveTagWords(h: Heap, g: Shape, b: int, a: int, k: int)
    requires Spread(g) && Binned(h, g) && InList(h, g, b, a, k)
    ensures TagWordsSame(h.mem, RemovedHeap(h, b, a).mem, g)
  {
    InListLinks(h, g, b, a, k);
    var m, m' := h.mem, RemovedHeap(h, b, a).mem;
    var s := g.lists[b];
    forall x | x in g.blk && x in m && End(g, x) - 8 in m
      ensures m'[x] == m[x] && m'[End(g, x) - 8] == m[End(g, x) - 8]
    {
      if k > 0 { NotALinkWord(g, x, s[k - 1]); }
      if k + 1 < |s| { NotALinkWord(g, x, s[k + 1]); }
    }
  }

  lemma KeptRefl(m: map<int, int>, live: map<int, int>)
    ensures Kept(m, m, live)
  {
  }

  lemma KeptTrans(m0: map<int, int>, m1: map<int, int>, m2: map<int, int>, live: map<int, int>)
    requires Kept(m0, m1, live) && Kept(m1, m2, live)
    ensures Kept(m0, m2, live)
  {
  }
}
