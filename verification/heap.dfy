/** The kernel heap of kernel/mm/vmm.c on values: a bump region and its list of blocks. */
module HeapBlocks {
  import opened Bits
  import opened Options

  const HEAP_START: nat := 0x40_0000
  const HEAP_END: nat := 0x80_0000
  const HEADER: nat := 24

  /** A block: its header lies at addr, its payload of `size` bytes behind the header. */
  datatype Block = Block(addr: nat, size: nat, free: bool)

  /** heap_ptr, and the blocks in list order: the newest, which lies highest, first. */
  datatype Heap = Heap(ptr: nat, blocks: seq<Block>)

  function Payload(b: Block): nat {
    b.addr + HEADER
  }

  function Top(b: Block): nat {
    b.addr + HEADER + b.size
  }

  /** ALIGN_UP(size, 16), in 64 bits. */
  function Align16(size: nat): nat {
    (size + 15) % TWO64 / 16 * 16
  }

  predicate Fits(b: Block, n: nat) {
    b.free && b.size >= n
  }

  /** The first block in list order that is free and large enough. */
  function FirstFit(blocks: seq<Block>, n: nat): Option<nat> {
    if blocks == [] then None
    else if Fits(blocks[0], n) then Some(0)
    else
      match FirstFit(blocks[1..], n)
      case None => None
      case Some(i) => Some(i + 1)
  }

  lemma {:induction false} FirstFitIs(blocks: seq<Block>, n: nat)
    ensures FirstFit(blocks, n).None? <==> forall b | b in blocks :: !Fits(b, n)
    ensures FirstFit(blocks, n).Some? ==>
              var i := FirstFit(blocks, n).value;
              i < |blocks| && Fits(blocks[i], n) && forall j | 0 <= j < i :: !Fits(blocks[j], n)
  {
    if blocks != [] {
      FirstFitIs(blocks[1..], n);
      if !Fits(blocks[0], n) && FirstFit(blocks[1..], n).Some? {
        var i := FirstFit(blocks[1..], n).value + 1;
        forall j | 0 <= j < i ensures !Fits(blocks[j], n) {
          if j > 0 { assert blocks[j] == blocks[1..][j - 1]; }
        }
        assert blocks[i] in blocks;
      }
    }
  }

  /** kmalloc: the payload's address, or 0. */
  function Kmalloc(h: Heap, size: nat): (Heap, nat) {
    if size == 0 then (h, 0)
    else
      var n := Align16(size);
      match FirstFit(h.blocks, n)
      case Some(i) =>
        if i < |h.blocks| then
          (h.(blocks := h.blocks[i := h.blocks[i].(free := false)]), Payload(h.blocks[i]))
        else (h, 0)
      case None =>
        var total := (HEADER + n) % TWO64;
        if (h.ptr + total) % TWO64 > HEAP_END then (h, 0)
        else (Heap((h.ptr + total) % TWO64, [Block(h.ptr, n, false)] + h.blocks), h.ptr + HEADER)
  }

  /** kfree: the block in front of the payload becomes free. */
  function Kfree(h: Heap, p: nat): Heap {
    if p == 0 then h
    else h.(blocks := seq(|h.blocks|, i requires 0 <= i < |h.blocks| =>
      if Payload(h.blocks[i]) == p then h.blocks[i].(free := true) else h.blocks[i]))
  }

  // --- the tiling -------------------------------------------------------------------------

  /** The blocks fill the region from HEAP_START up to `top` without gap or overlap. */
  predicate Tiles(blocks: seq<Block>, top: nat) {
    if blocks == [] then top == HEAP_START
    else
      var b := blocks[0];
      Top(b) == top && b.size > 0 && b.size % 16 == 0 && Tiles(blocks[1..], b.addr)
  }

  predicate Tiled(h: Heap) {
    Tiles(h.blocks, h.ptr) && h.ptr <= HEAP_END
  }

  lemma {:induction false} TilesFacts(blocks: seq<Block>, top: nat)
    requires Tiles(blocks, top)
    ensures top >= HEAP_START
    ensures forall i | 0 <= i < |blocks| :: HEAP_START <= blocks[i].addr && Top(blocks[i]) <= top && blocks[i].size > 0
    ensures forall i, j | 0 <= i < j < |blocks| :: Top(blocks[j]) <= blocks[i].addr
  {
    if blocks != [] {
      TilesFacts(blocks[1..], blocks[0].addr);
      forall i | 0 <= i < |blocks|
        ensures HEAP_START <= blocks[i].addr && Top(blocks[i]) <= top && blocks[i].size > 0
      {
        if i > 0 { assert blocks[i] == blocks[1..][i - 1]; }
      }
      forall i, j | 0 <= i < j < |blocks| ensures Top(blocks[j]) <= blocks[i].addr {
        assert blocks[j] == blocks[1..][j - 1];
        if i > 0 { assert blocks[i] == blocks[1..][i - 1]; }
      }
    }
  }

  /** Same headers, other flags. */
  predicate SameLayout(blocks: seq<Block>, blocks1: seq<Block>) {
    |blocks1| == |blocks| && forall i | 0 <= i < |blocks| ::
      blocks1[i].addr == blocks[i].addr && blocks1[i].size == blocks[i].size
  }

  lemma {:induction false} TilesKept(blocks: seq<Block>, blocks1: seq<Block>, top: nat)
    requires Tiles(blocks, top) && SameLayout(blocks, blocks1)
    ensures Tiles(blocks1, top)
  {
    if blocks != [] {
      TilesKept(blocks[1..], blocks1[1..], blocks[0].addr);
    }
  }

  /** The payload of the k-th oldest block is 16-aligned exactly when k is odd: sizes are
      rounded to 16, the 24-byte headers are not. */
  lemma {:induction false} PayloadAlignment(blocks: seq<Block>, top: nat, i: nat)
    requires Tiles(blocks, top) && i < |blocks|
    ensures Payload(blocks[i]) % 16 == 0 <==> (|blocks| - 1 - i) % 2 == 1
  {
    Parity(blocks, top);
    if i == 0 {
      if |blocks| > 1 { Parity(blocks[1..], blocks[0].addr); }
    } else {
      PayloadAlignment(blocks[1..], blocks[0].addr, i - 1);
    }
  }

  lemma {:induction false} Parity(blocks: seq<Block>, top: nat)
    requires Tiles(blocks, top)
    ensures top % 16 == if |blocks| % 2 == 0 then 0 else 8
  {
    if blocks != [] {
      Parity(blocks[1..], blocks[0].addr);
    }
  }

  // --- kmalloc ------------------------------------------------------------------------------

  /** No sum that kmalloc forms for this request leaves 64 bits. */
  predicate NoWrap(h: Heap, size: nat) {
    h.ptr + HEADER + (size + 15) / 16 * 16 < TWO64
  }

  /** What a caller expects of a request: the blocks still tile the region, and a granted
      payload is a block in use with room for the request. */
  predicate Granted(h1: Heap, p: nat, size: nat) {
    && Tiled(h1)
    && (p != 0 ==> exists b | b in h1.blocks :: Payload(b) == p && !b.free && b.size >= size)
  }

  lemma AlignFacts(size: nat)
    requires size + 15 < TWO64
    ensures Align16(size) == (size + 15) / 16 * 16 && size <= Align16(size) < size + 16 && Align16(size) % 16 == 0
  {
  }

  lemma AlignWraps(size: nat)
    requires TWO64 <= size + 15 && size < TWO64
    ensures Align16(size) == 0
  {
  }

  /** Within 64 bits kmalloc keeps the tiling, answers NULL exactly when the size is 0 or no
      free block fits and the bump would pass the end, and hands out a block that was not in
      use, leaving all others as they were. */
  lemma KmallocGrants(h: Heap, size: nat)
    requires Tiled(h) && NoWrap(h, size)
    ensures var (h1, p) := Kmalloc(h, size); var n := (size + 15) / 16 * 16;
      && Granted(h1, p, size)
      && (p == 0 <==> size == 0 || ((forall b | b in h.blocks :: !Fits(b, n)) && h.ptr + HEADER + n > HEAP_END))
      && (p == 0 ==> h1 == h)
      && OthersKept(h, h1, p)
  {
    if size != 0 {
      AlignFacts(size);
      FirstFitIs(h.blocks, Align16(size));
      if FirstFit(h.blocks, Align16(size)).Some? {
        FitGrants(h, size);
      } else if h.ptr + HEADER + Align16(size) <= HEAP_END {
        BumpGrants(h, size);
      }
    }
  }

  /** The block behind p was not in use before; all other blocks are as they were. */
  ghost predicate OthersKept(h: Heap, h1: Heap, p: nat) {
    && (forall b | b in h.blocks && !b.free :: b in h1.blocks && Payload(b) != p)
    && (forall b | b in h1.blocks && Payload(b) != p :: b in h.blocks)
  }

  lemma FitGrants(h: Heap, size: nat)
    requires Tiled(h) && NoWrap(h, size) && size > 0 && FirstFit(h.blocks, Align16(size)).Some?
    ensures var (h1, p) := Kmalloc(h, size); p != 0 && Granted(h1, p, size) && OthersKept(h, h1, p)
  {
    AlignFacts(size);
    FirstFitIs(h.blocks, Align16(size));
    TilesFacts(h.blocks, h.ptr);
    var (h1, p) := Kmalloc(h, size);
    var i := FirstFit(h.blocks, Align16(size)).value;
    assert p == Payload(h.blocks[i]) && h1 == h.(blocks := h.blocks[i := h.blocks[i].(free := false)]);
    TilesKept(h.blocks, h1.blocks, h.ptr);
    assert h1.blocks[i] in h1.blocks && h1.blocks[i].size >= size;
    hide Kmalloc, Tiles, Align16, FirstFit;
    OthersFit(h, i);
  }

  lemma OthersFit(h: Heap, i: nat)
    requires i < |h.blocks| && h.blocks[i].free
    requires forall j, k | 0 <= j < k < |h.blocks| :: Top(h.blocks[k]) <= h.blocks[j].addr
    ensures OthersKept(h, h.(blocks := h.blocks[i := h.blocks[i].(free := false)]), Payload(h.blocks[i]))
  {
    var p := Payload(h.blocks[i]);
    var h1 := h.(blocks := h.blocks[i := h.blocks[i].(free := false)]);
    forall b | b in h.blocks && !b.free ensures b in h1.blocks && Payload(b) != p {
      var j :| 0 <= j < |h.blocks| && h.blocks[j] == b;
      assert h1.blocks[j] == b;
    }
    forall b | b in h1.blocks && Payload(b) != p ensures b in h.blocks {
      var j :| 0 <= j < |h1.blocks| && h1.blocks[j] == b;
      assert h.blocks[j] == b;
    }
  }

  lemma InCons(x: Block, blocks: seq<Block>, b: Block)
    ensures b in [x] + blocks <==> b == x || b in blocks
  {
  }

  lemma BumpGrants(h: Heap, size: nat)
    requires Tiled(h) && NoWrap(h, size) && size > 0 && FirstFit(h.blocks, Align16(size)).None?
    requires h.ptr + HEADER + Align16(size) <= HEAP_END
    ensures var (h1, p) := Kmalloc(h, size);
      && Granted(h1, p, size) && OthersKept(h, h1, p) && p == h.ptr + HEADER
      && h1 == Heap(h.ptr + HEADER + Align16(size), [Block(h.ptr, Align16(size), false)] + h.blocks)
  {
    AlignFacts(size);
    var x := Block(h.ptr, Align16(size), false);
    var (h1, p) := Kmalloc(h, size);
    BumpTiles(h, x);
    InCons(x, h.blocks, x);
    forall b ensures b in h1.blocks <==> b == x || b in h.blocks { InCons(x, h.blocks, b); }
    forall b | b in h.blocks ensures Payload(b) != p { OneBlock(h.blocks, h.ptr, b); }
  }

  lemma BumpTiles(h: Heap, x: Block)
    requires Tiles(h.blocks, h.ptr) && x.addr == h.ptr && x.size > 0 && x.size % 16 == 0
    ensures Tiles([x] + h.blocks, Top(x))
  {
    assert ([x] + h.blocks)[1..] == h.blocks;
  }

  lemma OneBlock(blocks: seq<Block>, top: nat, b: Block)
    requires Tiles(blocks, top) && b in blocks
    ensures HEAP_START <= b.addr && Top(b) <= top && b.size > 0
  {
    TilesFacts(blocks, top);
    var i :| 0 <= i < |blocks| && blocks[i] == b;
  }

  lemma TwoBlocks(blocks: seq<Block>, top: nat, b: Block, c: Block)
    requires Tiles(blocks, top) && b in blocks && c in blocks && b.addr != c.addr
    ensures Top(b) <= c.addr || Top(c) <= b.addr
  {
    TilesFacts(blocks, top);
    var i :| 0 <= i < |blocks| && blocks[i] == b;
    var j :| 0 <= j < |blocks| && blocks[j] == c;
  }

  /** kmalloc takes the first free block in list order that is large enough, whole, and leaves
      the bump pointer alone; only when none fits does it cut a new block of the rounded size
      off the unused region. */
  lemma KmallocReuses(h: Heap, size: nat)
    requires Tiled(h) && NoWrap(h, size) && size > 0
    ensures var ((h1, p), n) := (Kmalloc(h, size), (size + 15) / 16 * 16);
      && ((exists b | b in h.blocks :: Fits(b, n)) ==>
            exists i | 0 <= i < |h.blocks| ::
              && Fits(h.blocks[i], n) && (forall j | 0 <= j < i :: !Fits(h.blocks[j], n))
              && p == Payload(h.blocks[i])
              && h1 == h.(blocks := h.blocks[i := h.blocks[i].(free := false)]))
      && ((forall b | b in h.blocks :: !Fits(b, n)) && h.ptr + HEADER + n <= HEAP_END ==>
            && p == h.ptr + HEADER
            && h1 == Heap(h.ptr + HEADER + n, [Block(h.ptr, n, false)] + h.blocks))
  {
    AlignFacts(size);
    hide Align16;
    FirstFitIs(h.blocks, Align16(size));
    if FirstFit(h.blocks, Align16(size)).None? {
      if h.ptr + HEADER + Align16(size) <= HEAP_END { BumpGrants(h, size); }
    }
  }

  /** The guards under which kmalloc answers NULL, with its sums in 64 bits. */
  predicate Refused(h: Heap, size: nat) {
    || size == 0
    || ((forall b | b in h.blocks :: !b.free || b.size < Align16(size))
        && (h.ptr + (HEADER + Align16(size)) % TWO64) % TWO64 > HEAP_END)
  }

  lemma RefusedExact(h: Heap, size: nat)
    requires Tiled(h) && size < TWO64
    ensures Kmalloc(h, size).1 == 0 <==> Refused(h, size)
  {
    hide Align16;
    FirstFitIs(h.blocks, Align16(size));
    TilesFacts(h.blocks, h.ptr);
  }

  /** For every size the heap meets its promise exactly when nothing wraps or the request is
      refused: every request that is granted after a wrap-around is granted wrongly. */
  lemma KmallocExact(h: Heap, size: nat)
    requires Tiled(h) && size < TWO64
    ensures Granted(Kmalloc(h, size).0, Kmalloc(h, size).1, size) <==> NoWrap(h, size) || Refused(h, size)
  {
    RefusedExact(h, size);
    hide Refused;
    var (h1, p) := Kmalloc(h, size);
    if NoWrap(h, size) {
      KmallocGrants(h, size);
    } else if p != 0 {
      WrapMisleads(h, size);
    } else {
      FirstFitIs(h.blocks, Align16(size));
    }
  }

  lemma WrapMisleads(h: Heap, size: nat)
    requires Tiled(h) && size < TWO64 && !NoWrap(h, size) && Kmalloc(h, size).1 != 0
    ensures !Granted(Kmalloc(h, size).0, Kmalloc(h, size).1, size)
  {
    var (h1, p) := Kmalloc(h, size);
    var n := Align16(size);
    FirstFitIs(h.blocks, n);
    TilesFacts(h.blocks, h.ptr);
    if TWO64 <= size + 15 {
      AlignWraps(size);
    } else {
      AlignFacts(size);
    }
    if Tiled(h1) {
      TilesFacts(h1.blocks, h1.ptr);
      forall b | b in h1.blocks ensures b.size < size {
        var j :| 0 <= j < |h1.blocks| && h1.blocks[j] == b;
      }
    }
  }

  /** The largest size, on the empty heap: kmalloc hands out a block of no bytes at all. */
  lemma LargestRequest()
    ensures var (h1, p) := Kmalloc(Heap(HEAP_START, []), TWO64 - 1);
      && p == HEAP_START + HEADER && h1.blocks == [Block(HEAP_START, 0, false)]
      && !Granted(h1, p, TWO64 - 1)
  {
    AlignWraps(TWO64 - 1);
    KmallocExact(Heap(HEAP_START, []), TWO64 - 1);
  }

  // --- kfree -----------------------------------------------------------------------------------

  /** kfree frees the one block behind the pointer; freeing it again changes nothing. */
  lemma KfreeFrees(h: Heap, p: nat)
    requires Tiled(h) && p != 0 && exists b | b in h.blocks :: Payload(b) == p
    ensures var h1 := Kfree(h, p);
      && Tiled(h1) && SameLayout(h.blocks, h1.blocks) && h1.ptr == h.ptr
      && (forall b | b in h1.blocks && Payload(b) == p :: b.free)
      && (forall b | Payload(b) != p :: b in h1.blocks <==> b in h.blocks)
      && Kfree(h1, p) == h1
  {
    var h1 := Kfree(h, p);
    TilesKept(h.blocks, h1.blocks, h.ptr);
    forall b | Payload(b) != p ensures b in h1.blocks <==> b in h.blocks {
      if b in h.blocks {
        var j :| 0 <= j < |h.blocks| && h.blocks[j] == b;
        assert h1.blocks[j] == b;
      }
    }
    assert Kfree(h1, p).blocks == h1.blocks;
  }

  /** A block that is given back serves the next request it has room for: no new block is cut,
      and where nothing else fits the request gets that block and the heap is as before. */
  lemma FreedIsReused(h: Heap, k: nat, size: nat)
    requires Tiled(h) && k < |h.blocks| && !h.blocks[k].free
    requires NoWrap(h, size) && 0 < size <= h.blocks[k].size
    ensures var (p, n) := (Payload(h.blocks[k]), (size + 15) / 16 * 16);
      var (h2, p2) := Kmalloc(Kfree(h, p), size);
      && p2 != 0 && h2.ptr == h.ptr && SameLayout(h.blocks, h2.blocks)
      && ((forall b | b in h.blocks :: !Fits(b, n)) ==> (h2, p2) == (h, p))
  {
    var n := (size + 15) / 16 * 16;
    KfreeIs(h, k);
    FreedTiled(h, k);
    TileSizes(h.blocks, h.ptr, k);
    var h1 := h.(blocks := h.blocks[k := h.blocks[k].(free := true)]);
    RoundFits(size, h.blocks[k].size);
    hide Kfree, Kmalloc, Tiles;
    assert h1.blocks[k] in h1.blocks && Fits(h1.blocks[k], n);
    hide Fits;
    KmallocReuses(h1, size);
    if forall b | b in h.blocks :: !Fits(b, n) {
      RefitSame(h, k, n, h1.blocks);
    }
  }

  lemma RoundFits(size: nat, room: nat)
    requires size <= room && room % 16 == 0
    ensures (size + 15) / 16 * 16 <= room
  {
  }

  lemma RefitSame(h: Heap, k: nat, n: nat, blocks: seq<Block>)
    requires k < |h.blocks| && !h.blocks[k].free
    requires blocks == h.blocks[k := h.blocks[k].(free := true)]
    requires forall b | b in h.blocks :: !Fits(b, n)
    ensures forall j | 0 <= j < |h.blocks| && j != k :: !Fits(blocks[j], n)
    ensures blocks[k := blocks[k].(free := false)] == h.blocks
  {
  }

  lemma KfreeIs(h: Heap, k: nat)
    requires Tiled(h) && k < |h.blocks|
    ensures Kfree(h, Payload(h.blocks[k])) == h.(blocks := h.blocks[k := h.blocks[k].(free := true)])
  {
    TilesFacts(h.blocks, h.ptr);
    hide Tiles;
  }

  lemma FreedTiled(h: Heap, k: nat)
    requires Tiled(h) && k < |h.blocks|
    ensures Tiled(h.(blocks := h.blocks[k := h.blocks[k].(free := true)]))
  {
    TilesKept(h.blocks, h.blocks[k := h.blocks[k].(free := true)], h.ptr);
  }

  lemma {:induction false} TileSizes(blocks: seq<Block>, top: nat, i: nat)
    requires Tiles(blocks, top) && i < |blocks|
    ensures blocks[i].size % 16 == 0
  {
    if i > 0 { TileSizes(blocks[1..], blocks[0].addr, i - 1); }
  }

  // --- runs --------------------------------------------------------------------------------------

  datatype Op = Malloc(size: nat) | Release(p: nat)

  /** The pointers handed out and not yet given back, with the sizes asked for. */
  type Live = map<nat, nat>

  function Step(h: Heap, live: Live, op: Op): (Heap, Live) {
    match op
    case Malloc(size) =>
      var (h1, p) := Kmalloc(h, size);
      (h1, if p == 0 then live else live[p := size])
    case Release(p) => (Kfree(h, p), live - {p})
  }

  function RunOps(h: Heap, live: Live, ops: seq<Op>): (Heap, Live)
    decreases ops
  {
    if ops == [] then (h, live)
    else
      var (h1, live1) := Step(h, live, ops[0]);
      RunOps(h1, live1, ops[1..])
  }

  /** Requests do not wrap, and clients give back only NULL or what they hold. */
  predicate Legal(h: Heap, live: Live, ops: seq<Op>)
    decreases ops
  {
    ops != [] ==>
      && LegalOp(h, live, ops[0])
      && var (h1, live1) := Step(h, live, ops[0]);
         Legal(h1, live1, ops[1..])
  }

  predicate LegalOp(h: Heap, live: Live, op: Op) {
    match op
    case Malloc(size) => NoWrap(h, size)
    case Release(p) => p == 0 || p in live
  }

  /** Every live pointer is the payload of a block in use that has room for its request. */
  ghost predicate Backed(h: Heap, live: Live) {
    && Tiled(h)
    && forall p | p in live :: p != 0 && exists b | b in h.blocks :: Payload(b) == p && !b.free && live[p] <= b.size
  }

  lemma StepBacked(h: Heap, live: Live, op: Op)
    requires Backed(h, live) && LegalOp(h, live, op)
    ensures Backed(Step(h, live, op).0, Step(h, live, op).1)
    ensures op.Malloc? ==> Kmalloc(h, op.size).1 !in live
  {
    hide Payload;
    var (h1, live1) := Step(h, live, op);
    match op {
      case Malloc(size) =>
        KmallocGrants(h, size);
        var p := Kmalloc(h, size).1;
        forall q | q in live
          ensures q != p && exists b | b in h1.blocks :: Payload(b) == q && !b.free && live[q] <= b.size
        {
          var b :| b in h.blocks && Payload(b) == q && !b.free && live[q] <= b.size;
        }
      case Release(p) =>
        if p != 0 {
          KfreeFrees(h, p);
          forall q | q in live1
            ensures exists b | b in h1.blocks :: Payload(b) == q && !b.free && live1[q] <= b.size
          {
            var b :| b in h.blocks && Payload(b) == q && !b.free && live[q] <= b.size;
          }
        }
    }
  }

  /** Two live payloads never overlap, and all of them lie inside the heap. */
  ghost predicate Separate(live: Live) {
    && (forall p | p in live :: HEAP_START <= p && p + live[p] <= HEAP_END)
    && (forall p, q | p in live && q in live && p != q :: p + live[p] <= q || q + live[q] <= p)
  }

  lemma BackedSeparate(h: Heap, live: Live)
    requires Backed(h, live)
    ensures Separate(live)
  {
    forall p | p in live ensures HEAP_START <= p && p + live[p] <= HEAP_END {
      var b :| b in h.blocks && Payload(b) == p && !b.free && live[p] <= b.size;
      OneBlock(h.blocks, h.ptr, b);
    }
    forall p, q | p in live && q in live && p != q ensures p + live[p] <= q || q + live[q] <= p {
      var b :| b in h.blocks && Payload(b) == p && !b.free && live[p] <= b.size;
      var c :| c in h.blocks && Payload(c) == q && !c.free && live[q] <= c.size;
      TwoBlocks(h.blocks, h.ptr, b, c);
    }
  }

  /** Over any run of requests and releases from the empty heap, the blocks tile the region
      and what the clients hold is disjoint, in bounds and as large as they asked for. */
  lemma {:induction false} RunBacked(h: Heap, live: Live, ops: seq<Op>)
    requires Backed(h, live) && Legal(h, live, ops)
    ensures var (h1, live1) := RunOps(h, live, ops); Backed(h1, live1) && Separate(live1)
    decreases ops
  {
    if ops == [] {
      BackedSeparate(h, live);
    } else {
      StepBacked(h, live, ops[0]);
      var (h1, live1) := Step(h, live, ops[0]);
      RunBacked(h1, live1, ops[1..]);
    }
  }

  lemma EmptyBacked()
    ensures Backed(Heap(HEAP_START, []), map[])
  {
  }

  /** So every legal history that starts with the empty heap keeps live payloads apart. */
  lemma HistoryBacked(ops: seq<Op>)
    requires Legal(Heap(HEAP_START, []), map[], ops)
    ensures var (h, live) := RunOps(Heap(HEAP_START, []), map[], ops); Backed(h, live) && Separate(live)
  {
    EmptyBacked();
    RunBacked(Heap(HEAP_START, []), map[], ops);
  }
}

/** kernel/mm/vmm.c, kmalloc and kfree: a list of headers threaded through the region. */
module KernelHeap {
  import opened Options
  import opened HeapBlocks

  /** The header at the start of a block; `next` is an address, 0 at the end. */
  datatype Header = Header(size: nat, free: bool, next: nat)

  /** The list that starts at head runs through exactly these blocks. */
  ghost predicate Linked(headers: map<nat, Header>, head: nat, blocks: seq<Block>)
    decreases blocks
  {
    if blocks == [] then head == 0
    else
      var b := blocks[0];
      && head == b.addr && head != 0 && head in headers
      && headers[head].size == b.size && headers[head].free == b.free
      && Linked(headers, headers[head].next, blocks[1..])
  }

  /** Headers that are not on the list can change. */
  lemma {:induction false} LinkedElsewhere(headers: map<nat, Header>, head: nat, blocks: seq<Block>, a: nat, x: Header)
    requires Linked(headers, head, blocks) && forall b | b in blocks :: b.addr != a
    ensures Linked(headers[a := x], head, blocks)
    decreases blocks
  {
    if blocks != [] {
      assert blocks[0] in blocks;
      LinkedElsewhere(headers, headers[head].next, blocks[1..], a, x);
    }
  }

  /** Changing the flag of block i in its header changes it in the list. */
  lemma {:induction false} LinkedFlag(headers: map<nat, Header>, head: nat, blocks: seq<Block>,
      top: nat, i: nat, free: bool)
    requires Linked(headers, head, blocks) && Tiles(blocks, top) && i < |blocks|
    ensures blocks[i].addr in headers
    ensures var a := blocks[i].addr;
      Linked(headers[a := headers[a].(free := free)], head, blocks[i := blocks[i].(free := free)])
    decreases blocks
  {
    TilesFacts(blocks, top);
    var rest := blocks[1..];
    if i == 0 {
      var a := blocks[0].addr;
      forall b | b in rest ensures b.addr != a {
        var j :| 0 <= j < |rest| && rest[j] == b;
        assert blocks[j + 1] == b;
      }
      LinkedElsewhere(headers, headers[head].next, rest, a, headers[a].(free := free));
      assert blocks[0 := blocks[0].(free := free)][1..] == rest;
    } else {
      LinkedFlag(headers, headers[head].next, rest, blocks[0].addr, i - 1, free);
      assert rest[i - 1] == blocks[i];
      assert blocks[i := blocks[i].(free := free)][1..] == rest[i - 1 := rest[i - 1].(free := free)];
    }
  }

  /** The suffix of the list from block i on starts at its address. */
  lemma {:induction false} LinkedSuffix(headers: map<nat, Header>, head: nat, blocks: seq<Block>, i: nat)
    requires Linked(headers, head, blocks) && i < |blocks|
    ensures blocks[i].addr in headers && blocks[i].addr != 0
    ensures headers[blocks[i].addr].size == blocks[i].size && headers[blocks[i].addr].free == blocks[i].free
    ensures Linked(headers, headers[blocks[i].addr].next, blocks[i + 1..])
    decreases blocks
  {
    if i > 0 {
      LinkedSuffix(headers, headers[head].next, blocks[1..], i - 1);
      assert blocks[1..][i - 1] == blocks[i];
      assert blocks[1..][i..] == blocks[i + 1..];
    }
  }

  class KHeap {
    var heapPtr: nat
    var heapHead: nat
    var headers: map<nat, Header>
    ghost var state: Heap

    ghost predicate Valid()
      reads this
    {
      && heapPtr == state.ptr && Tiled(state)
      && Linked(headers, heapHead, state.blocks)
    }

    constructor ()
      ensures Valid() && state == Heap(HEAP_START, [])
    {
      heapPtr, heapHead, headers := HEAP_START, 0, map[];
      state := Heap(HEAP_START, []);
    }

    /** The first-fit walk over the list: the address of the block, or 0. */
    method Search(n: nat) returns (blk: nat)
      requires Valid()
      ensures match FirstFit(state.blocks, n)
        case None => blk == 0
        case Some(i) => i < |state.blocks| && blk == state.blocks[i].addr && blk != 0
    {
      blk := heapHead;
      ghost var i := 0;
      assert state.blocks[0..] == state.blocks;
      while blk != 0
        invariant i <= |state.blocks| && Linked(headers, blk, state.blocks[i..])
        invariant FirstFit(state.blocks, n) ==
          match FirstFit(state.blocks[i..], n) case None => None case Some(k) => Some(k + i)
        decreases |state.blocks| - i
      {
        assert state.blocks[i..][0] == state.blocks[i] && state.blocks[i..][1..] == state.blocks[i + 1..];
        if headers[blk].free && headers[blk].size >= n { return; }
        blk := headers[blk].next;
        i := i + 1;
      }
    }

    /** Sets the flag of the block at address blk. */
    method SetFlag(blk: nat, free: bool, ghost i: nat)
      requires Valid() && i < |state.blocks| && blk == state.blocks[i].addr
      modifies this`headers, this`state
      ensures Valid() && state == old(state).(blocks := old(state).blocks[i := old(state).blocks[i].(free := free)])
    {
      LinkedFlag(headers, heapHead, state.blocks, heapPtr, i, free);
      headers := headers[blk := headers[blk].(free := free)];
      ghost var next := state.blocks[i := state.blocks[i].(free := free)];
      TilesKept(state.blocks, next, heapPtr);
      state := state.(blocks := next);
    }

    /** Puts a new block of n bytes at the bump pointer. */
    method Bump(n: nat) returns (blk: nat)
      requires Valid() && n > 0 && n % 16 == 0 && heapPtr + HEADER + n <= HEAP_END
      modifies this
      ensures Valid() && blk == old(heapPtr)
      ensures state == Heap(old(heapPtr) + HEADER + n, [Block(old(heapPtr), n, false)] + old(state).blocks)
    {
      blk := heapPtr;
      TilesFacts(state.blocks, heapPtr);
      forall b | b in state.blocks ensures b.addr != blk { OneBlock(state.blocks, heapPtr, b); }
      LinkedElsewhere(headers, heapHead, state.blocks, blk, Header(n, false, heapHead));
      BumpTiles(state, Block(blk, n, false));
      heapPtr := heapPtr + (HEADER + n);
      headers := headers[blk := Header(n, false, heapHead)];
      heapHead := blk;
      ghost var blocks := [Block(blk, n, false)] + state.blocks;
      assert blocks[1..] == state.blocks;
      state := Heap(heapPtr, blocks);
    }

    /** kmalloc, for requests whose sums stay within 64 bits. */
    method Kmalloc(size: nat) returns (p: nat)
      requires Valid() && NoWrap(state, size)
      modifies this
      ensures Valid() && (state, p) == HeapBlocks.Kmalloc(old(state), size)
    {
      hide Tiles, Linked;
      if size == 0 { return 0; }
      AlignFacts(size);
      var n := (size + 15) / 16 * 16;
      FirstFitIs(state.blocks, n);
      var blk := Search(n);
      if blk != 0 {
        SetFlag(blk, false, FirstFit(state.blocks, n).value);
        return blk + HEADER;
      }
      if heapPtr + (HEADER + n) > HEAP_END { return 0; }
      blk := Bump(n);
      return blk + HEADER;
    }

    /** kfree, for NULL or a pointer that kmalloc handed out. */
    method Kfree(p: nat)
      requires Valid() && (p == 0 || exists b | b in state.blocks :: Payload(b) == p)
      modifies this
      ensures Valid() && state == HeapBlocks.Kfree(old(state), p)
    {
      if p == 0 { return; }
      hide Tiles, Linked;
      ghost var i :| 0 <= i < |state.blocks| && Payload(state.blocks[i]) == p;
      TilesFacts(state.blocks, heapPtr);
      assert HeapBlocks.Kfree(state, p).blocks == state.blocks[i := state.blocks[i].(free := true)];
      SetFlag(p - HEADER, true, i);
    }
  }
}
