/**
The kernel heap of src/kernel/memory/kmalloc.c as a mathematical object: the address-ordered list of
free blocks, the blocks handed out, and the end of the heap.  `KernelHeap` (KernelHeap.dfy) refines it
with the intrusive doubly linked list the kernel keeps in the heap's own words.
*/
module HeapSpec {
  import opened Options
  import opened Types

  const HEAP_START := 0xD000_0000
  const HEAP_MAX := 0xE000_0000
  const HEAP_INITIAL_PAGES := 2
  const HEADER_SIZE := 4
  const NODE_SIZE := 12

  // Largest request whose rounding and growth arithmetic stays within 32 bits.
  const MAX_REQUEST := WORD_RANGE - 20

  // A free block: the address of its node and its size, which includes the 4-byte header.
  datatype Block = Block(addr: int, size: int) {
    function End(): int { addr + size }

    // Room for a node, and everything on a word boundary.
    predicate Good() { size >= NODE_SIZE && addr % 4 == 0 && size % 4 == 0 }
  }

  // live maps the node address of every block handed out to its size.
  datatype Heap = Heap(end: int, free: seq<Block>, live: map<int, int>)

  // ---------------------------------------------------------------- well-formed heaps

  ghost predicate Sorted(free: seq<Block>) {
    forall i, j :: 0 <= i < j < |free| ==> free[i].End() < free[j].addr
  }

  ghost predicate GoodBlocks(free: seq<Block>) {
    forall i :: 0 <= i < |free| ==> free[i].Good()
  }

  ghost predicate Covers(free: seq<Block>, x: int) {
    exists i :: 0 <= i < |free| && free[i].addr <= x < free[i].End()
  }

  ghost predicate Used(live: map<int, int>, x: int) {
    exists a :: a in live && a <= x < a + live[a]
  }

  ghost predicate GoodLive(live: map<int, int>, end: int) {
    && (forall a :: a in live ==>
          HEAP_START <= a && a + live[a] <= end && live[a] >= NODE_SIZE + HEADER_SIZE && a % 4 == 0 && live[a] % 4 == 0)
    && (forall a, b :: a in live && b in live && a < b ==> a + live[a] <= b)
  }

  ghost predicate GoodEnd(end: int) {
    && HEAP_START < end <= HEAP_MAX + PAGE_SIZE
    && end % PAGE_SIZE == 0
  }

  // Every byte of the heap is in a free block or in a live block, never in both.
  ghost predicate Tiles(h: Heap) {
    forall x :: HEAP_START <= x < h.end ==> (Covers(h.free, x) <==> !Used(h.live, x))
  }

  ghost predicate Inv(h: Heap) {
    && GoodEnd(h.end)
    && Sorted(h.free) && GoodBlocks(h.free) && GoodLive(h.live, h.end)
    && h.free != [] && HEAP_START <= h.free[0].addr && h.free[|h.free| - 1].End() == h.end
    && Tiles(h)
  }

  // ---------------------------------------------------------------- operations

  // The request after the minimum size and the 4-byte rounding, plus the header.
  function Need(size: nat): (need: int)
    ensures need % 4 == 0 && need >= NODE_SIZE + HEADER_SIZE
    ensures size + HEADER_SIZE <= need
    ensures need - HEADER_SIZE < size + 4 || need == NODE_SIZE + HEADER_SIZE
  {
    var atLeast := if size < NODE_SIZE then NODE_SIZE else size;
    (if atLeast % 4 != 0 then atLeast + (4 - atLeast % 4) else atLeast) + HEADER_SIZE
  }

  // The first block in address order that is larger than need + 12, or else the last one.
  function Fit(free: seq<Block>, need: int): (i: nat)
    requires free != []
    ensures i < |free|
    ensures i == |free| - 1 || free[i].size > need + NODE_SIZE
    ensures forall j :: 0 <= j < i ==> free[j].size <= need + NODE_SIZE
  {
    if |free| == 1 || free[0].size > need + NODE_SIZE then 0 else 1 + Fit(free[1..], need)
  }

  // Pages asked for so that a tail block of the given size can serve need, in 32-bit arithmetic.
  function GrowthPages(need: int, tail: int): int {
    (need - tail + NODE_SIZE) % WORD_RANGE / PAGE_SIZE + 1
  }

  predicate Grows(h: Heap, size: nat)
    requires h.free != []
  {
    var b := h.free[Fit(h.free, Need(size))];
    Fit(h.free, Need(size)) == |h.free| - 1 && b.size < Need(size) + NODE_SIZE
  }

  function PagesAdded(h: Heap, size: nat): (n: int)
    requires h.free != []
  {
    if Grows(h, size) then GrowthPages(Need(size), h.free[|h.free| - 1].size) else 0
  }

  // The bound check before each added page is `end > max`, so the last page may start at max itself.
  predicate Overflows(h: Heap, size: nat)
    requires h.free != []
  {
    Grows(h, size) && h.end + (PagesAdded(h, size) - 1) * PAGE_SIZE > HEAP_MAX
  }

  // None is the kernel panic "Heap has exceeded the set bounds!".
  function Alloc(h: Heap, size: nat): Option<(Heap, int)>
    requires h.free != []
  {
    if Overflows(h, size) then None else
    var need := Need(size);
    var i := Fit(h.free, need);
    var b := h.free[i];
    var grown := PagesAdded(h, size) * PAGE_SIZE;
    Some((Heap(h.end + grown,
               h.free[i := Block(b.addr + need, b.size + grown - need)],
               h.live[b.addr := need]),
          b.addr + HEADER_SIZE))
  }

  // Number of free blocks that lie before addr.
  function Slot(free: seq<Block>, addr: int): (k: nat)
    ensures k <= |free|
    ensures forall j :: 0 <= j < k ==> free[j].addr < addr
    ensures k < |free| ==> free[k].addr >= addr
  {
    if free == [] || free[0].addr >= addr then 0 else 1 + Slot(free[1..], addr)
  }

  predicate JoinsLeft(free: seq<Block>, k: nat, b: Block)
    requires k <= |free|
  {
    k > 0 && free[k - 1].End() == b.addr
  }

  predicate JoinsRight(free: seq<Block>, k: nat, b: Block)
    requires k <= |free|
  {
    k < |free| && b.End() == free[k].addr
  }

  // b joined with the neighbours it touches at slot k.
  function Joined(free: seq<Block>, k: nat, b: Block): Block
    requires k <= |free|
  {
    var start := if JoinsLeft(free, k, b) then free[k - 1].addr else b.addr;
    var end := if JoinsRight(free, k, b) then free[k].End() else b.End();
    Block(start, end - start)
  }

  function Splice(free: seq<Block>, l: nat, r: nat, b: Block): seq<Block>
    requires l <= r <= |free|
  {
    free[..l] + [b] + free[r..]
  }

  // Put b back at slot k, joining it with its neighbours.
  function Insert(free: seq<Block>, k: nat, b: Block): seq<Block>
    requires k <= |free|
  {
    var l, r := if JoinsLeft(free, k, b) then k - 1 else k, if JoinsRight(free, k, b) then k + 1 else k;
    Splice(free, l, r, Joined(free, k, b))
  }

  function Release(h: Heap, a: int): Heap
    requires a in h.live
  {
    Heap(h.end, Insert(h.free, Slot(h.free, a), Block(a, h.live[a])), h.live - {a})
  }

  // kfree of an address: ignored outside the heap.
  predicate ValidFree(h: Heap, address: int) {
    address < HEAP_START || address > h.end || address - HEADER_SIZE in h.live
  }

  function Free(h: Heap, address: int): Heap
    requires ValidFree(h, address)
  {
    if address < HEAP_START || address > h.end then h else Release(h, address - HEADER_SIZE)
  }

  const INITIAL := Heap(HEAP_START + HEAP_INITIAL_PAGES * PAGE_SIZE,
                        [Block(HEAP_START, HEAP_INITIAL_PAGES * PAGE_SIZE)], map[])

  // ---------------------------------------------------------------- uniqueness of the free list

  // A sorted list of blocks with gaps between them is determined by the bytes it covers.
  lemma {:induction false} CoverDeterminesList(f: seq<Block>, g: seq<Block>)
    requires Sorted(f) && GoodBlocks(f) && Sorted(g) && GoodBlocks(g)
    requires forall x :: Covers(f, x) <==> Covers(g, x)
    ensures f == g
  {
    assert f != [] ==> Covers(f, f[0].addr);
    assert g != [] ==> Covers(g, g[0].addr);
    if f != [] {
      SameFirst(f, g);
      SameFirst(g, f);
      forall x ensures Covers(f[1..], x) <==> Covers(g[1..], x) {
        TailCovers(f, x);
        TailCovers(g, x);
      }
      CoverDeterminesList(f[1..], g[1..]);
    }
  }

  lemma SameFirst(f: seq<Block>, g: seq<Block>)
    requires Sorted(f) && GoodBlocks(f) && Sorted(g) && GoodBlocks(g) && f != [] && g != []
    requires forall x :: Covers(f, x) <==> Covers(g, x)
    ensures f[0].addr >= g[0].addr
    ensures f[0].addr == g[0].addr ==> f[0].End() >= g[0].End()
  {
    assert Covers(f, f[0].addr);
    assert !Covers(f, f[0].End());
    assert !Covers(g, f[0].End());
    assert !(g[0].addr <= f[0].End() < g[0].End());
  }

  lemma TailCovers(f: seq<Block>, x: int)
    requires Sorted(f) && GoodBlocks(f) && f != []
    ensures Covers(f[1..], x) <==> Covers(f, x) && x >= f[0].End()
  {
    if Covers(f[1..], x) {
      var i :| 0 <= i < |f[1..]| && f[1..][i].addr <= x < f[1..][i].End();
      assert f[i + 1].addr <= x < f[i + 1].End();
    }
    if Covers(f, x) && x >= f[0].End() {
      var i :| 0 <= i < |f| && f[i].addr <= x < f[i].End();
      assert f[1..][i - 1] == f[i];
    }
  }

  // The free list is a function of the heap's end and the live blocks: the maximal gaps, in order.
  lemma FreeListIsCanonical(h: Heap, k: Heap)
    requires Inv(h) && Inv(k) && h.end == k.end && h.live == k.live
    ensures h == k
  {
    forall x ensures Covers(h.free, x) <==> Covers(k.free, x) {
      if Covers(h.free, x) { CoversInside(h, x); }
      if Covers(k.free, x) { CoversInside(k, x); }
    }
    CoverDeterminesList(h.free, k.free);
  }

  lemma CoversInside(h: Heap, x: int)
    requires Inv(h) && Covers(h.free, x)
    ensures HEAP_START <= x < h.end
  {
    var i :| 0 <= i < |h.free| && h.free[i].addr <= x < h.free[i].End();
    var last := |h.free| - 1;
    assert i < last ==> h.free[i].End() < h.free[last].addr;
    assert i > 0 ==> h.free[0].End() < h.free[i].addr;
  }

  // ---------------------------------------------------------------- what every operation keeps

  lemma LiveApart(h: Heap, a: int, i: int)
    requires Inv(h) && a in h.live && 0 <= i < |h.free|
    ensures a + h.live[a] <= h.free[i].addr || h.free[i].End() <= a
  {
    var x := if a < h.free[i].addr then h.free[i].addr else a;
    if a <= x < a + h.live[a] && h.free[i].addr <= x < h.free[i].End() {
      assert Used(h.live, x);
      assert false;
    }
  }

  // The growth expression asks for the least number of pages that makes the tail larger than need + 12.
  lemma GrowthIsLeast(need: int, tail: int, n: nat)
    requires 0 <= need && need + NODE_SIZE < WORD_RANGE && 0 <= tail < need + NODE_SIZE
    ensures GrowthPages(need, tail) >= 1
    ensures tail + n * PAGE_SIZE > need + NODE_SIZE <==> n >= GrowthPages(need, tail)
  {
    assert (need - tail + NODE_SIZE) % WORD_RANGE == need - tail + NODE_SIZE;
  }

  lemma WholePages(end: int, n: int)
    ensures n * PAGE_SIZE % 4 == 0
    ensures end % PAGE_SIZE == 0 ==> (end + n * PAGE_SIZE) % PAGE_SIZE == 0
  {
    assert n * PAGE_SIZE == 4 * (1024 * n);
  }

  lemma AlignedCombination(a: int, b: int, c: int)
    requires a % 4 == 0 && b % 4 == 0 && c % 4 == 0
    ensures (a + b - c) % 4 == 0 && (a + b) % 4 == 0
  {
  }

  // What an allocation leaves of the block it splits.
  lemma RemainderIsBlock(h: Heap, size: nat)
    requires Inv(h) && size <= MAX_REQUEST
    ensures PagesAdded(h, size) >= 0
    ensures var b := h.free[Fit(h.free, Need(size))];
            var rest := b.size + PagesAdded(h, size) * PAGE_SIZE - Need(size);
            rest >= NODE_SIZE && rest % 4 == 0 && (b.addr + Need(size)) % 4 == 0
              && (Grows(h, size) ==> rest > NODE_SIZE)
  {
    var need := Need(size);
    var i := Fit(h.free, need);
    var b := h.free[i];
    var n := PagesAdded(h, size);
    if Grows(h, size) {
      GrowthIsLeast(need, b.size, if n >= 0 then n else 0);
    }
    WholePages(h.end, n);
    AlignedCombination(b.size, n * PAGE_SIZE, need);
    AlignedCombination(b.addr, need, 0);
  }

  lemma CoversReplaced(free: seq<Block>, i: nat, b: Block, x: int)
    requires Sorted(free) && GoodBlocks(free) && i < |free|
    ensures Covers(free[i := b], x) <==>
      (Covers(free, x) && !(free[i].addr <= x < free[i].End())) || b.addr <= x < b.End()
  {
    var f' := free[i := b];
    if Covers(f', x) {
      var j :| 0 <= j < |f'| && f'[j].addr <= x < f'[j].End();
      assert j != i ==> free[j] == f'[j];
    }
    if Covers(free, x) && !(free[i].addr <= x < free[i].End()) {
      var j :| 0 <= j < |free| && free[j].addr <= x < free[j].End();
      assert f'[j] == free[j];
    }
    if b.addr <= x < b.End() { assert f'[i] == b; }
  }

  lemma UsedAdded(live: map<int, int>, a: int, size: int, x: int)
    requires a !in live
    ensures Used(live[a := size], x) <==> Used(live, x) || a <= x < a + size
  {
    var l' := live[a := size];
    if Used(live, x) {
      var b :| b in live && b <= x < b + live[b];
      assert b in l' && l'[b] == live[b];
    }
    if a <= x < a + size { assert a in l'; }
  }

  lemma AllocTiles(h: Heap, size: nat, x: int)
    requires Inv(h) && size <= MAX_REQUEST && Alloc(h, size).Some?
    requires HEAP_START <= x < Alloc(h, size).value.0.end
    requires h.free[Fit(h.free, Need(size))].addr !in h.live
    ensures var k := Alloc(h, size).value.0; Covers(k.free, x) <==> !Used(k.live, x)
  {
    var i := Fit(h.free, Need(size));
    var b := h.free[i];
    var k := Alloc(h, size).value.0;
    RemainderIsBlock(h, size);
    CoversReplaced(h.free, i, k.free[i], x);
    UsedAdded(h.live, b.addr, Need(size), x);
    if Used(h.live, x) {
      var a :| a in h.live && a <= x < a + h.live[a];
      LiveApart(h, a, i);
    }
    if Covers(h.free, x) { CoversInside(h, x); }
    if b.addr <= x < b.End() { assert Covers(h.free, x); }
  }

  lemma AllocKeepsLive(h: Heap, size: nat)
    requires Inv(h) && size <= MAX_REQUEST && Alloc(h, size).Some?
    ensures var b := h.free[Fit(h.free, Need(size))]; var k := Alloc(h, size).value.0;
            b.addr !in h.live && b.addr >= HEAP_START && GoodLive(k.live, k.end)
  {
    var i := Fit(h.free, Need(size));
    var b := h.free[i];
    var k := Alloc(h, size).value.0;
    RemainderIsBlock(h, size);
    assert b.addr >= HEAP_START by { assert i > 0 ==> h.free[0].End() < b.addr; }
    assert b.addr + Need(size) <= k.end by {
      assert i < |h.free| - 1 ==> b.End() < h.free[|h.free| - 1].addr;
    }
    forall a | a in h.live
      ensures a != b.addr && (a < b.addr ==> a + h.live[a] <= b.addr) && (b.addr < a ==> b.addr + Need(size) <= a)
    {
      LiveApart(h, a, i);
      assert a + h.live[a] <= h.end;
    }
  }

  lemma AllocKeepsFree(h: Heap, size: nat)
    requires Inv(h) && size <= MAX_REQUEST && Alloc(h, size).Some?
    ensures var k := Alloc(h, size).value.0;
            Sorted(k.free) && GoodBlocks(k.free) && GoodEnd(k.end) && k.free[|k.free| - 1].End() == k.end
  {
    RemainderIsBlock(h, size);
    WholePages(h.end, PagesAdded(h, size));
    var k := Alloc(h, size).value.0;
    var i := Fit(h.free, Need(size));
    assert k.free[i].Good();
    forall j | 0 <= j < |k.free| ensures k.free[j].Good() {
      assert j != i ==> k.free[j] == h.free[j];
    }
    AllocKeepsSorted(h.free, i, k.free[i]);
  }

  lemma AllocKeepsSorted(free: seq<Block>, i: nat, b: Block)
    requires Sorted(free) && i < |free| && b.size >= 0
    requires free[i].addr <= b.addr && (i < |free| - 1 ==> b.End() == free[i].End())
    ensures Sorted(free[i := b])
  {
  }

  lemma AllocKeepsInv(h: Heap, size: nat)
    requires Inv(h) && size <= MAX_REQUEST && Alloc(h, size).Some?
    ensures Inv(Alloc(h, size).value.0)
    ensures Alloc(h, size).value.1 - HEADER_SIZE !in h.live
  {
    var k := Alloc(h, size).value.0;
    AllocKeepsLive(h, size);
    AllocKeepsFree(h, size);
    forall x | HEAP_START <= x < k.end ensures Covers(k.free, x) <==> !Used(k.live, x) {
      AllocTiles(h, size, x);
    }
  }

  // Some block is large enough: larger than need + 12, or the last one and as large.
  ghost predicate HasRoom(free: seq<Block>, need: int)
    requires free != []
  {
    (exists i :: 0 <= i < |free| && free[i].size > need + NODE_SIZE) || free[|free| - 1].size >= need + NODE_SIZE
  }

  // n pages, and no fewer, make a tail larger than need + 12.
  ghost predicate LeastPages(tail: int, need: int, n: int) {
    tail + n * PAGE_SIZE > need + NODE_SIZE >= tail + (n - 1) * PAGE_SIZE
  }

  // How far an allocation grows the heap, and when it is a panic instead.
  lemma AllocEnd(h: Heap, size: nat) returns (n: nat)
    requires Inv(h) && size <= MAX_REQUEST
    ensures HasRoom(h.free, Need(size)) ==> n == 0
    ensures !HasRoom(h.free, Need(size)) ==> n >= 1 && LeastPages(h.free[|h.free| - 1].size, Need(size), n)
    ensures Alloc(h, size).None? <==> h.end + n * PAGE_SIZE > HEAP_MAX + PAGE_SIZE
    ensures Alloc(h, size).Some? ==> Alloc(h, size).value.0.end == h.end + n * PAGE_SIZE
  {
    var need, tail := Need(size), h.free[|h.free| - 1].size;
    n := PagesAdded(h, size);
    if Grows(h, size) {
      GrowthIsLeast(need, tail, n);
      GrowthIsLeast(need, tail, n - 1);
      BoundIsOnePageLate(h, size);
    }
  }

  // An allocation takes the beginning of the first block in address order that is larger than need + 12, or else of
  // the last block.
  lemma AllocTakes(h: Heap, size: nat, k: Heap, a: int) returns (i: nat)
    requires Inv(h) && size <= MAX_REQUEST && Alloc(h, size) == Some((k, a))
    ensures i < |h.free| && a == h.free[i].addr + HEADER_SIZE && k.live == h.live[h.free[i].addr := Need(size)]
    ensures i == |h.free| - 1 || h.free[i].size > Need(size) + NODE_SIZE
    ensures forall j :: 0 <= j < i ==> h.free[j].size <= Need(size) + NODE_SIZE
  {
    i := Fit(h.free, Need(size));
  }

  // The bound on the heap is one page late: a growing call that the bound should stop succeeds exactly when
  // it would end the heap one page past the bound.
  lemma BoundIsOnePageLate(h: Heap, size: nat)
    requires Inv(h) && size <= MAX_REQUEST && Grows(h, size)
    ensures var wanted := h.end + PagesAdded(h, size) * PAGE_SIZE;
            wanted > HEAP_MAX && Alloc(h, size).Some? <==> wanted == HEAP_MAX + PAGE_SIZE
    ensures Alloc(h, size).None? <==> h.end + PagesAdded(h, size) * PAGE_SIZE > HEAP_MAX + PAGE_SIZE
  {
    WholePages(h.end, PagesAdded(h, size));
    var wanted := h.end + PagesAdded(h, size) * PAGE_SIZE;
    if HEAP_MAX < wanted <= HEAP_MAX + PAGE_SIZE { NextWholePage(wanted); }
  }

  // The first request of a fresh heap can be such a call.
  lemma BoundIsPassed()
    ensures var r := Alloc(INITIAL, 0xFFF_FFF0); r.Some? && r.value.0.end == HEAP_MAX + PAGE_SIZE
  {
  }

  lemma NextWholePage(end: int)
    requires end % PAGE_SIZE == 0 && HEAP_MAX < end <= HEAP_MAX + PAGE_SIZE
    ensures end == HEAP_MAX + PAGE_SIZE
  {
  }

  lemma CoversConcat(f: seq<Block>, g: seq<Block>, x: int)
    ensures Covers(f + g, x) <==> Covers(f, x) || Covers(g, x)
  {
    if Covers(f, x) {
      var i :| 0 <= i < |f| && f[i].addr <= x < f[i].End();
      assert (f + g)[i] == f[i];
    }
    if Covers(g, x) {
      var i :| 0 <= i < |g| && g[i].addr <= x < g[i].End();
      assert (f + g)[|f| + i] == g[i];
    }
  }

  // b lies strictly between the blocks before slot k and those from slot k on.
  ghost predicate FitsAt(free: seq<Block>, k: nat, b: Block) {
    && k <= |free|
    && (forall j :: 0 <= j < k ==> free[j].End() <= b.addr)
    && (forall j :: k <= j < |free| ==> b.End() <= free[j].addr)
  }

  lemma SpliceKeepsSorted(free: seq<Block>, l: nat, r: nat, b: Block)
    requires Sorted(free) && l <= r <= |free|
    requires forall j :: 0 <= j < l ==> free[j].End() < b.addr
    requires forall j :: r <= j < |free| ==> b.End() < free[j].addr
    requires b.size >= 0
    ensures Sorted(Splice(free, l, r, b))
  {
    var f := Splice(free, l, r, b);
    forall i, j | 0 <= i < j < |f| ensures f[i].End() < f[j].addr {
      assert i < l ==> f[i] == free[i];
      assert i > l ==> f[i] == free[i - l - 1 + r];
      assert j < l ==> f[j] == free[j];
      assert j > l ==> f[j] == free[j - l - 1 + r];
      if i < l < j { assert free[i].End() < b.addr; }
    }
  }

  lemma JoinedIsGood(free: seq<Block>, k: nat, b: Block)
    requires GoodBlocks(free) && FitsAt(free, k, b) && b.Good()
    ensures Joined(free, k, b).Good()
  {
    var left := if JoinsLeft(free, k, b) then free[k - 1].size else 0;
    var right := if JoinsRight(free, k, b) then free[k].size else 0;
    assert JoinsLeft(free, k, b) ==> free[k - 1].Good();
    assert JoinsRight(free, k, b) ==> free[k].Good();
    AlignedCombination(left, b.size, 0);
    AlignedCombination(left + b.size, right, 0);
  }

  lemma SpliceKeepsGood(free: seq<Block>, l: nat, r: nat, b: Block)
    requires GoodBlocks(free) && l <= r <= |free| && b.Good()
    ensures GoodBlocks(Splice(free, l, r, b))
  {
    var f := Splice(free, l, r, b);
    forall j | 0 <= j < |f| ensures f[j].Good() {
      assert f[j] == if j < l then free[j] else if j == l then b else free[j - l - 1 + r];
    }
  }

  lemma InsertKeepsSorted(free: seq<Block>, k: nat, b: Block)
    requires Sorted(free) && GoodBlocks(free) && FitsAt(free, k, b) && b.Good()
    ensures Sorted(Insert(free, k, b)) && GoodBlocks(Insert(free, k, b))
  {
    var l := if JoinsLeft(free, k, b) then k - 1 else k;
    var r := if JoinsRight(free, k, b) then k + 1 else k;
    JoinedIsGood(free, k, b);
    SpliceKeepsGood(free, l, r, Joined(free, k, b));
    forall j | r <= j < |free| ensures Joined(free, k, b).End() < free[j].addr {
      if r == k { assert b.End() <= free[k].addr && b.End() != free[k].addr; }
      if j > k { assert free[k].End() < free[j].addr; }
    }
    SpliceKeepsSorted(free, l, r, Joined(free, k, b));
  }

  lemma InsertCovers(free: seq<Block>, k: nat, b: Block, x: int)
    requires Sorted(free) && GoodBlocks(free) && FitsAt(free, k, b) && b.size > 0
    ensures Covers(Insert(free, k, b), x) <==> Covers(free, x) || b.addr <= x < b.End()
  {
    var l := if JoinsLeft(free, k, b) then k - 1 else k;
    var r := if JoinsRight(free, k, b) then k + 1 else k;
    var mid := Joined(free, k, b);
    SpliceCovers(free, l, r, mid, x);
    assert free == free[..l] + free[l..r] + free[r..];
    CoversConcat(free[..l] + free[l..r], free[r..], x);
    CoversConcat(free[..l], free[l..r], x);
    CoversNeighbours(free, l, k, r, x);
  }

  lemma SpliceCovers(free: seq<Block>, l: nat, r: nat, b: Block, x: int)
    requires l <= r <= |free|
    ensures Covers(Splice(free, l, r, b), x) <==> Covers(free[..l], x) || b.addr <= x < b.End() || Covers(free[r..], x)
  {
    CoversConcat(free[..l] + [b], free[r..], x);
    CoversConcat(free[..l], [b], x);
    assert Covers([b], x) <==> b.addr <= x < b.End() by { assert [b][0] == b; }
  }

  lemma CoversNeighbours(free: seq<Block>, l: nat, k: nat, r: nat, x: int)
    requires l <= k <= r <= |free| && k <= l + 1 && r <= k + 1
    ensures Covers(free[l..r], x) <==>
            (l < k && free[l].addr <= x < free[l].End()) || (k < r && free[k].addr <= x < free[k].End())
  {
    var f := free[l..r];
    assert l < k ==> f[0] == free[l];
    assert k < r ==> f[k - l] == free[k];
    assert forall i :: 0 <= i < |f| ==> (l < k && f[i] == free[l]) || (k < r && f[i] == free[k]);
  }

  lemma UsedRemoved(live: map<int, int>, end: int, a: int, x: int)
    requires GoodLive(live, end) && a in live
    ensures Used(live - {a}, x) <==> Used(live, x) && !(a <= x < a + live[a])
  {
    var l' := live - {a};
    if Used(l', x) { UsedWithout(live, end, a, x); }
    if Used(live, x) && !(a <= x < a + live[a]) {
      var b :| b in live && b <= x < b + live[b];
      assert b in l' && l'[b] == live[b];
    }
  }

  lemma UsedWithout(live: map<int, int>, end: int, a: int, x: int)
    requires GoodLive(live, end) && a in live && Used(live - {a}, x)
    ensures Used(live, x) && !(a <= x < a + live[a])
  {
    var b :| b in live - {a} && b <= x < b + (live - {a})[b];
    assert b in live && live[b] == (live - {a})[b];
  }

  lemma LiveFitsAtSlot(h: Heap, a: int)
    requires Inv(h) && a in h.live
    ensures Slot(h.free, a) < |h.free|
    ensures FitsAt(h.free, Slot(h.free, a), Block(a, h.live[a]))
  {
    var k := Slot(h.free, a);
    forall j | 0 <= j < |h.free| ensures a + h.live[a] <= h.free[j].addr || h.free[j].End() <= a { LiveApart(h, a, j); }
    assert a + h.live[a] <= h.end == h.free[|h.free| - 1].End();
  }

  lemma InsertEnds(free: seq<Block>, k: nat, b: Block)
    requires k < |free|
    ensures var f := Insert(free, k, b); f != [] && f[|f| - 1].End() == free[|free| - 1].End()
    ensures Insert(free, k, b)[0].addr == if k == 0 then b.addr else free[0].addr
  {
  }

  lemma ReleaseTiles(h: Heap, a: int, x: int)
    requires Inv(h) && a in h.live && HEAP_START <= x < h.end
    ensures Covers(Release(h, a).free, x) <==> !Used(Release(h, a).live, x)
  {
    var b := Block(a, h.live[a]);
    LiveFitsAtSlot(h, a);
    InsertCovers(h.free, Slot(h.free, a), b, x);
    UsedRemoved(h.live, h.end, a, x);
    if a <= x < b.End() { assert Used(h.live, x); }
  }

  lemma ReleaseKeepsSorted(h: Heap, a: int)
    requires Inv(h) && a in h.live
    ensures Sorted(Release(h, a).free) && GoodBlocks(Release(h, a).free)
  {
    LiveFitsAtSlot(h, a);
    InsertKeepsSorted(h.free, Slot(h.free, a), Block(a, h.live[a]));
  }

  lemma ReleaseKeepsEnds(h: Heap, a: int)
    requires Inv(h) && a in h.live
    ensures var f := Release(h, a).free; f != [] && HEAP_START <= f[0].addr && f[|f| - 1].End() == h.end
  {
    assert HEAP_START <= a && HEAP_START <= h.free[0].addr;
    LiveFitsAtSlot(h, a);
    InsertEnds(h.free, Slot(h.free, a), Block(a, h.live[a]));
  }

  lemma ReleaseKeepsInv(h: Heap, a: int)
    requires Inv(h) && a in h.live
    ensures Inv(Release(h, a))
  {
    ReleaseKeepsSorted(h, a);
    ReleaseKeepsEnds(h, a);
    forall x | HEAP_START <= x < h.end ensures Covers(Release(h, a).free, x) <==> !Used(Release(h, a).live, x) {
      ReleaseTiles(h, a, x);
    }
  }

  // A free of the address that an allocation has given out takes the block from the live ones, and one of an address
  // outside the heap changes nothing.
  lemma FreeEffect(h: Heap, address: int)
    requires Inv(h)
    ensures address - HEADER_SIZE in h.live ==>
      && ValidFree(h, address) && Free(h, address).live == h.live - {address - HEADER_SIZE}
      && Free(h, address).end == h.end && Inv(Free(h, address))
    ensures address < HEAP_START || address > h.end ==> ValidFree(h, address) && Free(h, address) == h
  {
    if address - HEADER_SIZE in h.live { ReleaseKeepsInv(h, address - HEADER_SIZE); }
  }

  // ---------------------------------------------------------------- whole runs

  datatype Op = KMalloc(size: nat) | KFree(address: int)

  // A caller's side of the contract: requests that fit the 32-bit arithmetic, frees of live blocks only.
  predicate Valid(h: Heap, op: Op)
    requires h.free != []
  {
    match op
    case KMalloc(size) => size <= MAX_REQUEST
    case KFree(address) => ValidFree(h, address)
  }

  function Step(h: Heap, op: Op): Option<Heap>
    requires h.free != [] && Valid(h, op)
  {
    match op
    case KMalloc(size) => (match Alloc(h, size) case None => None case Some(r) => Some(r.0))
    case KFree(address) => Some(Free(h, address))
  }

  // trace[0] is the initial heap and each next one follows by a valid operation that did not panic.
  ghost predicate Run(trace: seq<Heap>, ops: seq<Op>) {
    && |trace| == |ops| + 1
    && trace[0] == INITIAL
    && forall i :: 0 <= i < |ops| ==>
         trace[i].free != [] && Valid(trace[i], ops[i]) && Step(trace[i], ops[i]) == Some(trace[i + 1])
  }

  lemma InitialInv()
    ensures Inv(INITIAL)
  {
    var h := INITIAL;
    assert h.free[0] == Block(HEAP_START, HEAP_INITIAL_PAGES * PAGE_SIZE);
    assert forall x :: HEAP_START <= x < h.end ==> Covers(h.free, x);
  }

  lemma StepKeepsInv(h: Heap, op: Op)
    requires Inv(h) && Valid(h, op) && Step(h, op).Some?
    ensures Inv(Step(h, op).value)
  {
    match op
    case KMalloc(size) => AllocKeepsInv(h, size);
    case KFree(address) => if HEAP_START <= address <= h.end { ReleaseKeepsInv(h, address - HEADER_SIZE); }
  }

  lemma {:induction false} RunKeepsInv(trace: seq<Heap>, ops: seq<Op>, i: nat)
    requires Run(trace, ops) && i < |trace|
    ensures Inv(trace[i])
  {
    if i == 0 {
      InitialInv();
    } else {
      RunKeepsInv(trace, ops, i - 1);
      assert Step(trace[i - 1], ops[i - 1]) == Some(trace[i]);
      StepKeepsInv(trace[i - 1], ops[i - 1]);
    }
  }

  // Any two reachable heaps with the same live blocks and the same end have the same free list, whatever
  // calls led to them.
  lemma ReachableHeapsAreCanonical(t: seq<Heap>, ops: seq<Op>, u: seq<Heap>, ops': seq<Op>)
    requires Run(t, ops) && Run(u, ops')
    requires t[|ops|].live == u[|ops'|].live && t[|ops|].end == u[|ops'|].end
    ensures t[|ops|] == u[|ops'|]
  {
    RunKeepsInv(t, ops, |ops|);
    RunKeepsInv(u, ops', |ops'|);
    FreeListIsCanonical(t[|ops|], u[|ops'|]);
  }

  // What an allocation does to the live blocks.
  lemma AllocAddsLive(h: Heap, size: nat, k: Heap, address: int)
    requires Inv(h) && size <= MAX_REQUEST && Alloc(h, size) == Some((k, address))
    ensures address - HEADER_SIZE !in h.live && address - HEADER_SIZE in k.live
    ensures k.live - {address - HEADER_SIZE} == h.live
    ensures Inv(k) && (!Grows(h, size) ==> k.end == h.end)
  {
    AllocKeepsLive(h, size);
    AllocKeepsInv(h, size);
  }

  // kfree right after a kmalloc that did not grow the heap restores it exactly; after one that did, the
  // result is the same gaps up to the new end.
  lemma FreeUndoesAlloc(h: Heap, size: nat, k: Heap, address: int)
    requires Inv(h) && size <= MAX_REQUEST && Alloc(h, size) == Some((k, address))
    ensures ValidFree(k, address) && Free(k, address).live == h.live && Free(k, address).end == k.end
    ensures !Grows(h, size) ==> Free(k, address) == h
  {
    AllocAddsLive(h, size, k, address);
    FreeIsRelease(k, address);
    ReleaseKeepsInv(k, address - HEADER_SIZE);
    if !Grows(h, size) {
      FreeListIsCanonical(Free(k, address), h);
    }
  }

  // The address of a live block passes the range check of kfree.
  lemma FreeIsRelease(h: Heap, address: int)
    requires GoodLive(h.live, h.end) && address - HEADER_SIZE in h.live
    ensures ValidFree(h, address) && Free(h, address) == Release(h, address - HEADER_SIZE)
  {
    var a := address - HEADER_SIZE;
    assert HEAP_START <= a && a + h.live[a] <= h.end;
  }

  predicate Distinct(s: seq<int>) {
    forall i, j :: 0 <= i < j < |s| ==> s[i] != s[j]
  }

  // A list of live blocks without repetition: an order in which they can be freed.
  predicate FreeingOrder(h: Heap, order: seq<int>) {
    Distinct(order) && forall i :: 0 <= i < |order| ==> order[i] in h.live
  }

  function ReleaseAll(h: Heap, order: seq<int>): Heap
    requires FreeingOrder(h, order)
    decreases |order|
  {
    if order == [] then h else
    NextOrder(h, order);
    ReleaseAll(Release(h, order[0]), order[1..])
  }

  lemma NextOrder(h: Heap, order: seq<int>)
    requires FreeingOrder(h, order) && order != []
    ensures FreeingOrder(Release(h, order[0]), order[1..])
  {
    assert forall i :: 0 <= i < |order[1..]| ==> order[1..][i] == order[i + 1];
  }

  function Members(s: seq<int>): set<int> { set a | a in s }

  lemma RemoveMembers(live: map<int, int>, order: seq<int>)
    requires order != []
    ensures (live - {order[0]}) - Members(order[1..]) == live - Members(order)
  {
    assert order == [order[0]] + order[1..];
  }

  lemma {:induction false} ReleaseAllKeeps(h: Heap, order: seq<int>)
    requires Inv(h) && FreeingOrder(h, order)
    ensures Inv(ReleaseAll(h, order))
    ensures ReleaseAll(h, order).end == h.end
    ensures ReleaseAll(h, order).live == h.live - Members(order)
    decreases |order|
  {
    if order == [] {
      assert h.live - Members(order) == h.live;
    } else {
      var h' := Release(h, order[0]);
      NextOrder(h, order);
      ReleaseKeepsInv(h, order[0]);
      ReleaseAllKeeps(h', order[1..]);
      RemoveMembers(h.live, order);
      assert ReleaseAll(h, order) == ReleaseAll(h', order[1..]);
    }
  }

  // Freeing the same blocks in any two orders gives the same heap.
  lemma FreeOrderIsIrrelevant(h: Heap, order: seq<int>, other: seq<int>)
    requires Inv(h) && FreeingOrder(h, order) && FreeingOrder(h, other) && Members(order) == Members(other)
    ensures ReleaseAll(h, order) == ReleaseAll(h, other)
  {
    ReleaseAllKeeps(h, order);
    ReleaseAllKeeps(h, other);
    FreeListIsCanonical(ReleaseAll(h, order), ReleaseAll(h, other));
  }

  lemma WholeHeapIsGood(end: int)
    requires GoodEnd(end)
    ensures Block(HEAP_START, end - HEAP_START).Good()
  {
    MultipleOfFour(end, end / PAGE_SIZE);
  }

  lemma MultipleOfFour(end: int, pages: int)
    requires end == pages * PAGE_SIZE
    ensures (end - HEAP_START) % 4 == 0
  {
    assert end - HEAP_START == 4 * (1024 * pages - 0x3400_0000);
  }

  // Once nothing is live, one block covers the whole heap.
  lemma EmptyHeapIsOneBlock(h: Heap)
    requires Inv(h) && h.live == map[]
    ensures h.free == [Block(HEAP_START, h.end - HEAP_START)]
  {
    var k := Heap(h.end, [Block(HEAP_START, h.end - HEAP_START)], map[]);
    WholeHeapIsGood(h.end);
    forall x | HEAP_START <= x < k.end ensures Covers(k.free, x) && !Used(k.live, x) {
      assert k.free[0].addr <= x < k.free[0].End();
    }
    FreeListIsCanonical(h, k);
  }
}
