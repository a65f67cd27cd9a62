/** The heap as the allocator sees it (`Heap`: bounds, memory words, list heads) and the ghost
    picture that explains it (`Shape`: which blocks tile the heap and which list holds each).
    `Inv` relates the two.  Sizes and addresses are in bytes on an LP64 machine: a block is a
    24-byte header (packed word, next, prev), its payload, and an 8-byte footer naming the header. */
module HeapShape {
  import opened HeaderWord
  import opened Sequences

  const NULL: int := 0
  const OVERHEAD: int := 32
  const BIN_COUNT: int := 9
  const FASTBIN_COUNT: int := 9
  const FASTBIN_SIZE_THRESHOLD: int := 64
  const HEAP_SIZE: int := 0x40000
  const HEAP_MAX_SIZE: int := 0x4_0000_0000
  const GROWTH_STEP: int := 0x4000_0000
  // The largest heap any growth step can leave behind.
  const HEAP_LIMIT: int := HEAP_MAX_SIZE + GROWTH_STEP

  /** `mem` maps the address of each 8-byte word of the heap to its contents. */
  datatype Heap = Heap(start: int, end: int, mem: map<int, int>, bins: seq<int>, fastbins: seq<int>)

  /** Live: handed out.  Hole: free, in the bin of its size.  Fast: freed, parked in a fastbin.
      The other two occur only inside an operation: Loose is in no list, Pending is still in the
      list of bin `bin` although its size may have changed; the tags of both are unconstrained. */
  datatype Kind = Live | Hole(bin: int) | Fast(fastbin: int) | Loose | Pending(bin: int)
  datatype Block = Block(size: int, kind: Kind)
  datatype Shape = Shape(blk: map<int, Block>, lists: seq<seq<int>>, flists: seq<seq<int>>)

  ghost function Log2(n: int): (k: int)
    requires n >= 1
    ensures k >= 0
    ensures n >= 4 ==> k >= 2
  {
    if n == 1 then 0 else 1 + Log2(n / 2)
  }

  /** The size class of a payload of `sz` bytes: the base-2 logarithm less two, capped at the last bin. */
  ghost function BinIndex(sz: int): (i: int)
    requires 0 <= sz
    ensures 0 <= i < BIN_COUNT
  {
    var k := Log2(if sz < 4 then 4 else sz) - 2;
    if k > BIN_COUNT - 1 then BIN_COUNT - 1 else k
  }

  ghost function End(g: Shape, a: int): int
    requires a in g.blk
  {
    a + OVERHEAD + g.blk[a].size
  }

  /** The bin whose list holds a block, or -1. */
  ghost function BinOf(k: Kind): int {
    match k
    case Hole(i) => i
    case Pending(i) => i
    case _ => -1
  }

  ghost function FastOf(k: Kind): int {
    match k
    case Fast(i) => i
    case _ => -1
  }

  ghost predicate Tagged(k: Kind) { k.Live? || k.Hole? || k.Fast? }

  ghost predicate Bounds(h: Heap) {
    && h.start % 8 == 0 && h.end % 8 == 0
    && HEAP_LIMIT <= h.start < h.end <= h.start + HEAP_LIMIT < TWO62
  }

  ghost predicate Mapped(h: Heap) {
    forall w :: h.start <= w < h.end && w % 8 == 0 ==> w in h.mem
  }

  ghost predicate HasSucc(h: Heap, g: Shape, a: int)
    requires a in g.blk
  {
    End(g, a) == h.end || End(g, a) in g.blk
  }

  ghost predicate Placed(h: Heap, g: Shape) {
    && h.start in g.blk
    && forall a :: a in g.blk ==> h.start <= a && End(g, a) <= h.end
  }

  ghost predicate Aligned(g: Shape) {
    forall a :: a in g.blk ==> a % 8 == 0 && g.blk[a].size % 8 == 0
  }

  ghost predicate Spread(g: Shape) {
    && (forall a :: a in g.blk ==> 0 < a && 0 <= g.blk[a].size)
    && (forall a, b :: a in g.blk && b in g.blk && a < b ==> End(g, a) <= b)
  }

  /** Blocks tile [start, end): each ends where another begins, and they do not overlap. */
  ghost predicate Tiled(h: Heap, g: Shape) {
    && Placed(h, g)
    && Aligned(g)
    && Spread(g)
    && (forall a {:trigger HasSucc(h, g, a)} :: a in g.blk ==> HasSucc(h, g, a))
  }

  ghost predicate HasPred(g: Shape, a: int) {
    exists p :: p in g.blk && End(g, p) == a
  }

  ghost predicate Preceded(h: Heap, g: Shape) {
    && HasPred(g, h.end)
    && forall a {:trigger HasPred(g, a)} :: a in g.blk && a != h.start ==> HasPred(g, a)
  }

  ghost predicate TagsAt(h: Heap, g: Shape, a: int)
    requires a in g.blk
  {
    && a in h.mem && End(g, a) - 8 in h.mem
    && h.mem[a] == Header(g.blk[a].kind.Hole?, g.blk[a].kind.Fast?, g.blk[a].size)
    && h.mem[End(g, a) - 8] == a
  }

  ghost predicate AllTagged(h: Heap, g: Shape) {
    forall a :: a in g.blk && Tagged(g.blk[a].kind) ==> TagsAt(h, g, a)
  }

  ghost function At(s: seq<int>, i: int): int {
    if 0 <= i < |s| then s[i] else NULL
  }

  ghost predicate LinksAt(mem: map<int, int>, s: seq<int>, i: int)
    requires 0 <= i < |s|
  {
    && s[i] + 8 in mem && s[i] + 16 in mem
    && mem[s[i] + 8] == At(s, i + 1) && mem[s[i] + 16] == At(s, i - 1)
  }

  /** The doubly linked list headed by `head` visits exactly the addresses of `s`, in order. */
  ghost predicate Linked(mem: map<int, int>, head: int, s: seq<int>) {
    && head == At(s, 0)
    && forall i :: 0 <= i < |s| ==> LinksAt(mem, s, i)
  }

  ghost predicate NextAt(mem: map<int, int>, s: seq<int>, i: int)
    requires 0 <= i < |s|
  {
    s[i] + 8 in mem && mem[s[i] + 8] == At(s, i + 1)
  }

  ghost predicate Chained(mem: map<int, int>, head: int, s: seq<int>) {
    && head == At(s, 0)
    && forall i :: 0 <= i < |s| ==> NextAt(mem, s, i)
  }

  ghost predicate BinHolds(g: Shape, b: int, a: int) {
    a in g.blk && BinOf(g.blk[a].kind) == b
  }

  /** Each bin's list is exactly the blocks filed under that bin. */
  ghost predicate Binned(h: Heap, g: Shape) {
    && |h.bins| == |g.lists| == BIN_COUNT
    && (forall b :: 0 <= b < BIN_COUNT ==> Linked(h.mem, h.bins[b], g.lists[b]) && NoRepeats(g.lists[b]))
    && (forall b, i :: 0 <= b < BIN_COUNT && 0 <= i < |g.lists[b]| ==> BinHolds(g, b, g.lists[b][i]))
    && (forall a, b :: 0 <= b < BIN_COUNT && BinHolds(g, b, a) ==> a in g.lists[b])
  }

  ghost predicate FastHolds(g: Shape, b: int, a: int) {
    a in g.blk && FastOf(g.blk[a].kind) == b
  }

  ghost predicate FastBinned(h: Heap, g: Shape) {
    && |h.fastbins| == |g.flists| == FASTBIN_COUNT
    && (forall b :: 0 <= b < FASTBIN_COUNT ==> Chained(h.mem, h.fastbins[b], g.flists[b]) && NoRepeats(g.flists[b]))
    && (forall b, i :: 0 <= b < FASTBIN_COUNT && 0 <= i < |g.flists[b]| ==> FastHolds(g, b, g.flists[b][i]))
    && (forall a, b :: 0 <= b < FASTBIN_COUNT && FastHolds(g, b, a) ==> a in g.flists[b])
  }

  /** Every hole is filed under the bin of its size, every fast block under size / 8. */
  ghost predicate Filed(g: Shape) {
    forall a :: a in g.blk ==>
      match g.blk[a].kind
      case Hole(i) => 0 <= g.blk[a].size && i == BinIndex(g.blk[a].size)
      case Fast(i) => 0 <= i < FASTBIN_COUNT && g.blk[a].size == 8 * i
      case Pending(i) => 0 <= i < BIN_COUNT
      case _ => true
  }

  ghost predicate NoAdjacentHoles(g: Shape) {
    forall a, b :: a in g.blk && b in g.blk && g.blk[a].kind.Hole? && g.blk[b].kind.Hole? ==> End(g, a) != b
  }

  ghost predicate Inv(h: Heap, g: Shape) {
    && Bounds(h)
    && Mapped(h)
    && Tiled(h, g)
    && Preceded(h, g)
    && AllTagged(h, g)
    && Binned(h, g)
    && FastBinned(h, g)
    && Filed(g)
    && NoAdjacentHoles(g)
  }

  /** No block is in the middle of an operation. */
  ghost predicate Quiet(g: Shape) {
    forall a :: a in g.blk ==> Tagged(g.blk[a].kind)
  }
}
