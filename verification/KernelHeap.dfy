/**
src/kernel/memory/kmalloc.c: the kernel heap as the kernel keeps it, a doubly linked list of free nodes
whose size, next and prev words live in the free memory itself.  Each method is proved against the
operation of `HeapSpec` of the same purpose.
*/
module KernelHeap {
  import opened HeapSpec
  import opened Options
  import opened Types

  const SENTINEL_NEXT := 0xDEAD_BEEF
  const SENTINEL_PREV := 0xCAFE_BABE

  // Heap memory by word address; a word never written reads as 0 here.
  type Memory = map<int, int>

  function Word(mem: Memory, a: int): int {
    if a in mem then mem[a] else 0
  }

  function NextAddr(free: seq<Block>, i: nat): int
    requires i < |free|
  {
    if i + 1 < |free| then free[i + 1].addr else 0
  }

  function PrevAddr(free: seq<Block>, i: nat): int
    requires i < |free|
  {
    if i > 0 then free[i - 1].addr else 0
  }

  // Node i of the list is written out in memory: size, next, prev.
  ghost predicate NodeAt(mem: Memory, free: seq<Block>, i: nat)
    requires i < |free|
  {
    && Word(mem, free[i].addr) == free[i].size
    && Word(mem, free[i].addr + 4) == NextAddr(free, i)
    && Word(mem, free[i].addr + 8) == PrevAddr(free, i)
  }

  ghost predicate Linked(mem: Memory, free: seq<Block>) {
    forall i :: 0 <= i < |free| ==> NodeAt(mem, free, i)
  }

  ghost predicate Headers(mem: Memory, live: map<int, int>) {
    forall a :: a in live ==> Word(mem, a) == live[a]
  }

  ghost predicate SameNode(mem: Memory, mem': Memory, a: int) {
    Word(mem', a) == Word(mem, a) && Word(mem', a + 4) == Word(mem, a + 4) && Word(mem', a + 8) == Word(mem, a + 8)
  }

  // Relinking around one new node keeps the whole list linked.
  lemma LinkSplice(mem: Memory, mem': Memory, free: seq<Block>, l: nat, r: nat, b: Block)
    requires Linked(mem, free) && l <= r <= |free|
    requires Word(mem', b.addr) == b.size
    requires Word(mem', b.addr + 4) == if r < |free| then free[r].addr else 0
    requires Word(mem', b.addr + 8) == if l > 0 then free[l - 1].addr else 0
    requires l > 0 ==> var p := free[l - 1].addr;
      Word(mem', p) == Word(mem, p) && Word(mem', p + 4) == b.addr && Word(mem', p + 8) == Word(mem, p + 8)
    requires r < |free| ==> var n := free[r].addr;
      Word(mem', n) == Word(mem, n) && Word(mem', n + 4) == Word(mem, n + 4) && Word(mem', n + 8) == b.addr
    requires forall j :: 0 <= j < l - 1 || r < j < |free| ==> SameNode(mem, mem', free[j].addr)
    ensures Linked(mem', Splice(free, l, r, b))
  {
    var f := Splice(free, l, r, b);
    forall i | 0 <= i < |f| ensures NodeAt(mem', f, i) {
      assert f[l] == b;
      if i < l {
        assert f[i] == free[i] && NodeAt(mem, free, i);
        assert i + 1 < l ==> f[i + 1] == free[i + 1];
        assert i > 0 ==> f[i - 1] == free[i - 1];
      } else if i > l {
        var j := i - l - 1 + r;
        assert f[i] == free[j] && NodeAt(mem, free, j);
        assert i + 1 < |f| ==> f[i + 1] == free[j + 1];
        assert i > l + 1 ==> f[i - 1] == free[j - 1];
      } else {
        assert i + 1 < |f| ==> f[i + 1] == free[r];
        assert i > 0 ==> f[i - 1] == free[l - 1];
      }
    }
  }

  // Every word of a free node is a word of the heap.
  lemma NodeInHeap(h: Heap, i: nat)
    requires Inv(h) && i < |h.free|
    ensures HEAP_START <= h.free[i].addr && h.free[i].End() <= h.end && h.free[i].Good()
  {
    assert i > 0 ==> h.free[0].End() < h.free[i].addr;
    assert i < |h.free| - 1 ==> h.free[i].End() < h.free[|h.free| - 1].addr;
  }

  lemma FitIs(free: seq<Block>, need: int, i: nat)
    requires i < |free| && (i == |free| - 1 || free[i].size > need + NODE_SIZE)
    requires forall j :: 0 <= j < i ==> free[j].size <= need + NODE_SIZE
    ensures Fit(free, need) == i
  {
    var k := Fit(free, need);
    if k < i { assert false; }
    if i < k { assert false; }
  }

  lemma SlotIs(free: seq<Block>, a: int, k: nat)
    requires k <= |free| && (k < |free| ==> free[k].addr >= a)
    requires forall j :: 0 <= j < k ==> free[j].addr < a
    ensures Slot(free, a) == k
  {
    var s := Slot(free, a);
    if s < k { assert false; }
    if k < s { assert false; }
  }

  // Nodes in address order inside the heap, none overlapping the next.
  ghost predicate Apart(free: seq<Block>, end: int) {
    && (forall i, j :: 0 <= i < j < |free| ==> free[i].End() <= free[j].addr)
    && (forall j :: 0 <= j < |free| ==> HEAP_START <= free[j].addr && free[j].End() <= end && free[j].size >= NODE_SIZE)
  }

  // No header of a live block lies in a node's memory.
  ghost predicate Outside(free: seq<Block>, live: map<int, int>) {
    && (forall a :: a in live ==> HEAP_START <= a)
    && (forall a, j :: a in live && 0 <= j < |free| ==> a < free[j].addr || free[j].End() <= a)
  }

  ghost predicate Separate(free: seq<Block>, live: map<int, int>, end: int) {
    Apart(free, end) && Outside(free, live)
  }

  lemma InvIsSeparate(h: Heap)
    requires Inv(h)
    ensures Separate(h.free, h.live, h.end)
  {
    forall j | 0 <= j < |h.free|
      ensures HEAP_START <= h.free[j].addr && h.free[j].End() <= h.end && h.free[j].size >= NODE_SIZE
    {
      NodeInHeap(h, j);
    }
    forall a, j | a in h.live && 0 <= j < |h.free| ensures a < h.free[j].addr || h.free[j].End() <= a {
      LiveApart(h, a, j);
    }
  }

  lemma TailGrowthIsSeparate(free: seq<Block>, live: map<int, int>, end: int, i: nat, grown: int, f: seq<Block>)
    requires Separate(free, live, end) && i < |free| && free[i].End() <= end && (forall a :: a in live ==> a < end)
    requires grown >= 0 && (grown > 0 ==> i == |free| - 1 && free[i].End() == end)
    requires f == free[i := Block(free[i].addr, free[i].size + grown)]
    ensures Separate(f, live, end + grown)
  {
  }

  // Freeing a leaves the other headers outside its memory and the free nodes.
  lemma OthersOutside(h: Heap, a: int)
    requires Inv(h) && a in h.live
    ensures Separate(h.free, h.live - {a}, h.end) && a + h.live[a] <= h.end && HEAP_START <= a && h.live[a] >= NODE_SIZE
    ensures forall b :: b in h.live - {a} ==> b < a || a + h.live[a] <= b
  {
    InvIsSeparate(h);
  }

  // Node i and its list neighbours as words of memory.
  lemma NodeSurroundings(mem: Memory, free: seq<Block>, live: map<int, int>, end: int, i: nat)
    requires i < |free| && Linked(mem, free) && Separate(free, live, end)
    ensures NodeAt(mem, free, i) && HEAP_START <= free[i].addr && free[i].End() <= end && free[i].size >= NODE_SIZE
    ensures i > 0 <==> free[0].addr != free[i].addr
    ensures i > 0 ==> HEAP_START <= free[i - 1].addr && free[i - 1].addr + NODE_SIZE <= free[i].addr
    ensures i + 1 < |free| ==> free[i].End() <= free[i + 1].addr && free[i + 1].addr + NODE_SIZE <= end
    ensures PrevAddr(free, i) != 0 <==> i > 0
    ensures NextAddr(free, i) != 0 <==> i + 1 < |free|
  {
    assert i > 0 ==> free[i - 1].End() <= free[i].addr;
    assert i > 0 ==> free[0].End() <= free[i].addr;
  }

  lemma NodeLinks(mem: Memory, free: seq<Block>, live: map<int, int>, end: int, i: nat)
    requires i < |free| && Linked(mem, free) && Separate(free, live, end)
    ensures NodeAt(mem, free, i) && HEAP_START <= free[i].addr && free[i].addr + NODE_SIZE <= end
    ensures NextAddr(free, i) != 0 <==> i + 1 < |free|
  {
  }

  predicate NodeWord(x: int, a: int) {
    x == a || x == a + 4 || x == a + 8
  }

  ghost predicate SameAt(m: Memory, m': Memory, x: int) {
    (x in m' <==> x in m) && (x in m ==> m'[x] == m[x])
  }

  // Memory changed at most in the nodes at c and n, in the next word of prev and in the prev word of next.
  ghost predicate OnlyAround(m: Memory, m': Memory, c: int, n: int, prev: int, next: int) {
    forall x :: !NodeWord(x, c) && !NodeWord(x, n) && x != prev + 4 && x != next + 8 ==> SameAt(m, m', x)
  }

  function Before(free: seq<Block>, l: nat): int
    requires l <= |free|
  {
    if l > 0 then free[l - 1].addr else 0
  }

  function After(free: seq<Block>, r: nat): int
    requires r <= |free|
  {
    if r < |free| then free[r].addr else 0
  }

  // Nodes l..r of the list give way to one node b, whose words and the link words to it are all written; a
  // node's worth of words at c may be overwritten as well.
  ghost predicate Relinked(m: Memory, m': Memory, free: seq<Block>, l: nat, r: nat, b: Block, c: int)
    requires l <= r <= |free|
  {
    var prev := Before(free, l);
    var next := After(free, r);
    && OnlyAround(m, m', c, b.addr, prev, next)
    && Word(m', b.addr) == b.size && Word(m', b.addr + 4) == next && Word(m', b.addr + 8) == prev
    && (l > 0 ==> Word(m', prev + 4) == b.addr)
    && (r < |free| ==> Word(m', next + 8) == b.addr)
  }

  // The bytes from c to the end of b lie between the nodes before l and those from r on.
  ghost predicate Between(free: seq<Block>, l: nat, r: nat, b: Block, c: int) {
    && l <= r <= |free|
    && b.size >= NODE_SIZE && c <= b.addr && c + NODE_SIZE <= b.End()
    && (forall j :: 0 <= j < l ==> free[j].End() <= c)
    && (forall j :: r <= j < |free| ==> b.End() <= free[j].addr)
  }

  lemma RelinkLeavesFarNodes(m: Memory, m': Memory, free: seq<Block>, end: int, l: nat, r: nat, b: Block, c: int,
                             j: nat)
    requires Apart(free, end) && Between(free, l, r, b, c) && Relinked(m, m', free, l, r, b, c)
    requires j < l - 1 || r < j < |free|
    ensures SameNode(m, m', free[j].addr)
  {
    assert j < l ==> free[j].End() <= free[l - 1].addr;
    assert r < j ==> free[r].End() <= free[j].addr;
    assert l > 0 && r < j ==> free[l - 1].End() <= free[j].addr;
    assert r < |free| && j < l ==> free[j].End() <= free[r].addr;
    var a := free[j].addr;
    assert SameAt(m, m', a) && SameAt(m, m', a + 4) && SameAt(m, m', a + 8);
  }

  lemma RelinkLeavesNeighbours(m: Memory, m': Memory, free: seq<Block>, end: int, l: nat, r: nat, b: Block, c: int)
    requires Apart(free, end) && Between(free, l, r, b, c) && Relinked(m, m', free, l, r, b, c)
    ensures l > 0 ==> var p := free[l - 1].addr; Word(m', p) == Word(m, p) && Word(m', p + 8) == Word(m, p + 8)
    ensures r < |free| ==> var n := free[r].addr; Word(m', n) == Word(m, n) && Word(m', n + 4) == Word(m, n + 4)
  {
    if l > 0 {
      var p := free[l - 1].addr;
      assert r < |free| ==> free[l - 1].End() <= free[r].addr;
      assert SameAt(m, m', p) && SameAt(m, m', p + 8);
    }
    if r < |free| {
      var n := free[r].addr;
      assert l > 0 ==> free[l - 1].End() <= n;
      assert SameAt(m, m', n) && SameAt(m, m', n + 4);
    }
  }

  lemma RelinkKeepsList(m: Memory, m': Memory, free: seq<Block>, end: int, l: nat, r: nat, b: Block, c: int)
    requires Apart(free, end) && Linked(m, free) && Between(free, l, r, b, c) && Relinked(m, m', free, l, r, b, c)
    ensures Linked(m', Splice(free, l, r, b))
  {
    forall j | 0 <= j < l - 1 || r < j < |free| ensures SameNode(m, m', free[j].addr) {
      RelinkLeavesFarNodes(m, m', free, end, l, r, b, c, j);
    }
    RelinkLeavesNeighbours(m, m', free, end, l, r, b, c);
    LinkSplice(m, m', free, l, r, b);
  }

  lemma RelinkKeepsHeaders(m: Memory, m': Memory, free: seq<Block>, live: map<int, int>, end: int, l: nat, r: nat,
                           b: Block, c: int)
    requires Apart(free, end) && Between(free, l, r, b, c) && Relinked(m, m', free, l, r, b, c)
    requires Outside(free, live) && Headers(m, live) && forall a :: a in live ==> a < c || b.End() <= a
    ensures Headers(m', live)
  {
    forall a | a in live ensures Word(m', a) == live[a] {
      assert l > 0 ==> a < free[l - 1].addr || free[l - 1].End() <= a;
      assert r < |free| ==> a < free[r].addr || free[r].End() <= a;
      assert SameAt(m, m', a);
    }
  }

  // A split relinks the rest of node i and writes the header of the new block.
  lemma SplitKeeps(m: Memory, m': Memory, free: seq<Block>, live: map<int, int>, end: int, i: nat, rest: Block, c: int,
                   need: int)
    requires Separate(free, live, end) && Linked(m, free) && Headers(m, live) && i < |free|
    requires free[i] == Block(c, rest.End() - c)
    requires Between(free, i, i + 1, rest, c) && Relinked(m, m', free, i, i + 1, rest, c) && Word(m', c) == need
    ensures Linked(m', free[i := rest]) && Headers(m', live[c := need])
  {
    RelinkKeepsList(m, m', free, end, i, i + 1, rest, c);
    RelinkKeepsHeaders(m, m', free, live, end, i, i + 1, rest, c);
    assert Splice(free, i, i + 1, rest) == free[i := rest];
  }

  // Only the size word of node i changes when the node grows.
  lemma GrowLinks(m: Memory, free: seq<Block>, live: map<int, int>, end: int, i: nat, size: int)
    requires i < |free| && Separate(free, live, end) && Linked(m, free) && Headers(m, live)
    ensures var m' := m[free[i].addr := size];
      Linked(m', free[i := Block(free[i].addr, size)]) && Headers(m', live)
  {
    var c := free[i].addr;
    var f := free[i := Block(c, size)];
    var m' := m[c := size];
    forall j | 0 <= j < |f| ensures NodeAt(m', f, j) {
      assert NodeAt(m, free, j);
      assert j < i ==> free[j].End() <= c;
      assert j > i ==> free[i].End() <= free[j].addr;
    }
    assert forall a :: a in live ==> a < free[i].addr || free[i].End() <= a;
  }

  // An allocation is the growth of the block it uses, to g, followed by a split, to k.
  lemma AllocIsGrowthAndSplit(h: Heap, size: nat, i: nat, g: seq<Block>, end: int, current: int, need: int)
    returns (k: Heap)
    requires Inv(h) && size <= MAX_REQUEST && Alloc(h, size).Some?
    requires need == Need(size) && i == Fit(h.free, need) && current == h.free[i].addr
    requires end == h.end + PagesAdded(h, size) * PAGE_SIZE
    requires g == h.free[i := Block(current, h.free[i].size + PagesAdded(h, size) * PAGE_SIZE)]
    ensures k == Heap(end, g[i := Block(current + need, g[i].size - need)], h.live[current := need])
    ensures Alloc(h, size) == Some((k, current + HEADER_SIZE)) && Inv(k)
  {
    k := Heap(end, g[i := Block(current + need, g[i].size - need)], h.live[current := need]);
    assert k.free == h.free[i := Block(current + need, g[i].size - need)];
    assert Alloc(h, size) == Some((k, current + HEADER_SIZE));
    AllocKeepsInv(h, size);
  }

  // The free list between the growth of its tail and the split.
  lemma GrownCanBeSplit(h: Heap, size: nat, i: nat, g: seq<Block>, end: int, current: int, need: int)
    requires Inv(h) && size <= MAX_REQUEST && Alloc(h, size).Some?
    requires need == Need(size) && i == Fit(h.free, need) && current == h.free[i].addr
    requires end == h.end + PagesAdded(h, size) * PAGE_SIZE
    requires g == h.free[i := Block(current, h.free[i].size + PagesAdded(h, size) * PAGE_SIZE)]
    ensures Separate(g, h.live, end) && g[i].addr == current && need + NODE_SIZE <= g[i].size
    ensures g[0].addr == h.free[0].addr
  {
    var grown := PagesAdded(h, size) * PAGE_SIZE;
    InvIsSeparate(h);
    RemainderIsBlock(h, size);
    WholePages(h.end, PagesAdded(h, size));
    LiveInside(h.live, h.end);
    TailGrowthIsSeparate(h.free, h.live, h.end, i, grown, g);
  }

  lemma LiveInside(live: map<int, int>, end: int)
    requires GoodLive(live, end)
    ensures forall a :: a in live ==> a < end
  {
    forall a | a in live ensures a < end { assert a + live[a] <= end; }
  }

  lemma SpliceAt(free: seq<Block>, l: nat, r: nat, b: Block, j: nat)
    requires l <= r <= |free| && j < l + 1 + (|free| - r)
    ensures |Splice(free, l, r, b)| == l + 1 + (|free| - r)
    ensures Splice(free, l, r, b)[j] == if j < l then free[j] else if j == l then b else free[j - l - 1 + r]
  {
  }

  lemma SpliceIsApart(free: seq<Block>, end: int, l: nat, r: nat, b: Block)
    requires Apart(free, end) && Between(free, l, r, b, b.addr) && HEAP_START <= b.addr && b.End() <= end
    ensures Apart(Splice(free, l, r, b), end)
  {
    var f := Splice(free, l, r, b);
    forall j | 0 <= j < |f| ensures HEAP_START <= f[j].addr && f[j].End() <= end && f[j].size >= NODE_SIZE {
      SpliceAt(free, l, r, b, j);
    }
    forall i, j | 0 <= i < j < |f| ensures f[i].End() <= f[j].addr {
      SpliceAt(free, l, r, b, i);
      SpliceAt(free, l, r, b, j);
    }
  }

  lemma SpliceIsOutside(free: seq<Block>, live: map<int, int>, l: nat, r: nat, b: Block)
    requires Outside(free, live) && l <= r <= |free| && forall a :: a in live ==> a < b.addr || b.End() <= a
    ensures Outside(Splice(free, l, r, b), live)
  {
    var f := Splice(free, l, r, b);
    assert forall j :: 0 <= j < |f| ==> f[j] == if j < l then free[j] else if j == l then b else free[j - l - 1 + r];
  }

  // kfree links the block in at slot k, to f1, joins it with the node before, to f2, and the result with the
  // node after, to f3.
  lemma InsertInSteps(free: seq<Block>, k: nat, b: Block, f1: seq<Block>, f2: seq<Block>, j: nat, f3: seq<Block>)
    requires 0 < k < |free| && FitsAt(free, k, b) && f1 == Splice(free, k, k, b)
    requires if f1[k - 1].End() == b.addr
             then j == k - 1 && f2 == Splice(f1, k - 1, k + 1, Block(f1[k - 1].addr, f1[k - 1].size + f1[k].size))
             else j == k && f2 == f1
    requires j + 1 < |f2|
    requires f3 == if f2[j].End() != free[k].addr then f2
                   else Splice(f2, j, j + 2, Block(f2[j].addr, f2[j].size + f2[j + 1].size))
    ensures f3 == Insert(free, k, b)
  {
    assert f1[k - 1] == free[k - 1] && f1[k] == b && f1[k + 1] == free[k];
    assert f2[j + 1] == free[k];
    if f1[k - 1].End() == b.addr {
      assert f2[..j] == free[..k - 1] && f2[j + 2..] == free[k + 1..];
    } else {
      assert f2[..j] == free[..k] && f2[j + 2..] == free[k + 1..];
    }
    if f2[j].End() != free[k].addr {
      assert f2[j + 1..] == free[k..];
    }
  }

  // The same for a block in front of all nodes, in one step.
  lemma InsertFirst(free: seq<Block>, b: Block)
    requires free != []
    ensures Insert(free, 0, b) ==
            if b.End() == free[0].addr then Splice(free, 0, 1, Block(b.addr, b.size + free[0].size))
            else Splice(free, 0, 0, b)
  {
  }

  class KernelHeap {
    var end_address: int
    var start_node: int
    var mem: Memory
    ghost var free: seq<Block>
    ghost var live: map<int, int>

    ghost function State(): Heap
      reads this
    {
      Heap(end_address, free, live)
    }

    ghost predicate Valid()
      reads this
    {
      && Inv(State())
      && Linked(mem, free)
      && Headers(mem, live)
      && start_node == free[0].addr
    }

    // __kmem_init_kmalloc
    constructor ()
      ensures Valid() && State() == INITIAL
    {
      var start := HEAP_START;
      var i := 0;
      while i < HEAP_INITIAL_PAGES
        invariant 0 <= i <= HEAP_INITIAL_PAGES && start == HEAP_START + i * PAGE_SIZE
      {
        start := start + PAGE_SIZE;
        i := i + 1;
      }
      end_address := start;
      start_node := HEAP_START;
      mem := map[HEAP_START := HEAP_INITIAL_PAGES * PAGE_SIZE, HEAP_START + 4 := 0, HEAP_START + 8 := 0];
      free := INITIAL.free;
      live := map[];
      new;
      InitialInv();
    }

    // Every access of the allocator stays on a word of the heap.
    function Load(a: int): int
      requires HEAP_START <= a < end_address
      reads this
    {
      Word(mem, a)
    }

    // Memory after a store.
    function Stored(a: int, v: int): Memory
      requires HEAP_START <= a < end_address
      reads this
    {
      mem[a := v]
    }

    // __kmalloc.  None is the panic.
    method KMalloc(size: nat) returns (r: Option<int>)
      requires Valid() && size <= MAX_REQUEST
      modifies this
      ensures r.None? <==> Alloc(old(State()), size).None?
      ensures r.Some? ==> Valid() && Alloc(old(State()), size) == Some((State(), r.value))
    {
      var need := Round(size);
      ghost var h := State();
      InvIsSeparate(h);
      var current, i := Search(need);
      ghost var added := PagesAdded(h, size);
      var ok := Grow(need, current, i, h, added);
      if !ok {
        return None;
      }
      assert Alloc(h, size).Some?;
      Carve(h, size, i, added, current, need);
      r := Some(current + HEADER_SIZE);
    }

    // The part of __kmalloc after the growth branch.
    method Carve(ghost h: Heap, ghost size: nat, ghost i: nat, ghost added: int, current: int, need: int)
      requires Inv(h) && size <= MAX_REQUEST && Alloc(h, size).Some?
      requires need == Need(size) && i == Fit(h.free, need) && current == h.free[i].addr && start_node == h.free[0].addr
      requires added == PagesAdded(h, size) && end_address == h.end + added * PAGE_SIZE && live == h.live
      requires free == h.free[i := Block(current, h.free[i].size + added * PAGE_SIZE)]
      requires Linked(mem, free) && Headers(mem, live)
      modifies this`mem, this`start_node, this`free, this`live
      ensures Alloc(h, size) == Some((State(), current + HEADER_SIZE)) && Valid()
    {
      GrownCanBeSplit(h, size, i, free, end_address, current, need);
      ghost var k := AllocIsGrowthAndSplit(h, size, i, free, end_address, current, need);
      Split(i, current, need, k);
    }

    method Round(size: nat) returns (need: int)
      ensures need == Need(size)
    {
      need := size;
      if need < NODE_SIZE { need := NODE_SIZE; }
      if need % 4 != 0 { need := need + (4 - need % 4); }
      need := need + HEADER_SIZE;
    }

    // The search loop of __kmalloc.
    method Search(need: int) returns (current: int, ghost i: nat)
      requires Separate(free, live, end_address) && Linked(mem, free) && free != [] && start_node == free[0].addr
      ensures i == Fit(free, need) && current == free[Fit(free, need)].addr
    {
      current := start_node;
      i := 0;
      NodeLinks(mem, free, live, end_address, 0);
      var next := Load(current + 4);
      while next != 0 && Load(current) <= need + NODE_SIZE
        invariant i < |free| && current == free[i].addr && next == NextAddr(free, i)
        invariant forall j :: 0 <= j < i ==> free[j].size <= need + NODE_SIZE
        decreases |free| - i
      {
        NodeLinks(mem, free, live, end_address, i);
        NodeLinks(mem, free, live, end_address, i + 1);
        current := next;
        i := i + 1;
        next := Load(current + 4);
      }
      NodeLinks(mem, free, live, end_address, i);
      FitIs(free, need, i);
    }

    // The page loop of __kmalloc.  The bound is checked before each page, against the end so far.
    method AddPages(pages: int) returns (ok: bool)
      requires pages >= 1
      modifies this`end_address
      ensures ok == (old(end_address) + (pages - 1) * PAGE_SIZE <= HEAP_MAX)
      ensures ok ==> end_address == old(end_address) + pages * PAGE_SIZE
    {
      var p := 0;
      while p < pages
        invariant 0 <= p <= pages && end_address == old(end_address) + p * PAGE_SIZE
        invariant p > 0 ==> old(end_address) + (p - 1) * PAGE_SIZE <= HEAP_MAX
      {
        if end_address > HEAP_MAX {
          return false;
        }
        end_address := end_address + PAGE_SIZE;
        p := p + 1;
      }
      return true;
    }

    // The growth branch of __kmalloc: adds pages behind the last node, which takes them in.
    method Grow(need: int, current: int, ghost i: nat, ghost h: Heap, ghost added: int) returns (ok: bool)
      requires State() == h && Separate(h.free, h.live, h.end) && Linked(mem, free) && Headers(mem, live)
      requires i < |h.free| && current == h.free[i].addr && 0 <= need && need + NODE_SIZE < WORD_RANGE
      requires added == if i < |h.free| - 1 || h.free[i].size >= need + NODE_SIZE then 0
        else GrowthPages(need, h.free[i].size)
      modifies this`mem, this`free, this`end_address
      ensures ok == !(added > 0 && h.end + (added - 1) * PAGE_SIZE > HEAP_MAX)
      ensures ok ==> end_address == h.end + added * PAGE_SIZE
      ensures ok ==> free == h.free[i := Block(current, h.free[i].size + added * PAGE_SIZE)]
      ensures ok ==> Linked(mem, free) && Headers(mem, live)
    {
      NodeLinks(mem, free, live, end_address, i);
      if Load(current + 4) == 0 && Load(current) < need + NODE_SIZE {
        var pages := (need - Load(current) + NODE_SIZE) % WORD_RANGE / PAGE_SIZE + 1;
        GrowthIsLeast(need, free[i].size, 0);
        ok := AddPages(pages);
        if !ok {
          return false;
        }
        Enlarge(current, pages, i, old(end_address));
      }
      ok := true;
    }

    // Node i takes in the new pages.
    method Enlarge(current: int, pages: int, ghost i: nat, ghost end: int)
      requires Separate(free, live, end) && Linked(mem, free) && Headers(mem, live)
      requires i < |free| && current == free[i].addr && end <= end_address
      modifies this`mem, this`free
      ensures free == old(free)[i := Block(current, old(free)[i].size + pages * PAGE_SIZE)] && Linked(mem, free)
      ensures Headers(mem, live)
    {
      NodeLinks(mem, free, live, end, i);
      GrowLinks(mem, free, live, end, i, free[i].size + pages * PAGE_SIZE);
      mem := Stored(current, Load(current) + pages * PAGE_SIZE);
      free := free[i := Block(current, free[i].size + pages * PAGE_SIZE)];
    }

    // Turns free node i into a live block of need bytes and links the rest of it in its place.
    method Split(ghost i: nat, current: int, need: int, ghost k: Heap)
      requires i < |free| && current == free[i].addr && start_node == free[0].addr
      requires Separate(free, live, end_address) && Linked(mem, free) && Headers(mem, live)
      requires need >= NODE_SIZE + HEADER_SIZE && need + NODE_SIZE <= free[i].size
      modifies this`mem, this`start_node, this`free, this`live
      requires k == Heap(end_address, free[i := Block(current + need, free[i].size - need)], live[current := need])
      ensures State() == k
      ensures Linked(mem, free) && Headers(mem, live) && start_node == free[0].addr
    {
      ghost var m := mem;
      ghost var rest := Block(current + need, free[i].size - need);
      SplitNode(i, current, need);
      SplitKeeps(m, mem, free, live, end_address, i, rest, current, need);
      free := free[i := rest];
      live := live[current := need];
    }

    method SplitNode(ghost i: nat, current: int, need: int)
      requires i < |free| && current == free[i].addr && start_node == free[0].addr
      requires Separate(free, live, end_address) && Linked(mem, free)
      requires need >= NODE_SIZE && need + NODE_SIZE <= free[i].size
      modifies this`mem, this`start_node
      ensures Word(mem, current) == need && start_node == if i == 0 then current + need else old(start_node)
      ensures Relinked(old(mem), mem, free, i, i + 1, Block(current + need, free[i].size - need), current)
      ensures Between(free, i, i + 1, Block(current + need, free[i].size - need), current)
    {
      NodeSurroundings(mem, free, live, end_address, i);
      SplitWords(current, need);
    }

    // The word updates at the end of __kmalloc.
    method SplitWords(current: int, need: int)
      requires Separated(current) && need >= NODE_SIZE && need + NODE_SIZE <= Word(mem, current)
      modifies this`mem, this`start_node
      ensures var next := old(Word(mem, current + 4)); var prev := old(Word(mem, current + 8)); var n := current + need;
        && start_node == (if prev == 0 then n else old(start_node))
        && OnlyAround(old(mem), mem, current, n, prev, next)
        && Word(mem, current) == need
        && Word(mem, n) == old(Word(mem, current)) - need && Word(mem, n + 4) == next && Word(mem, n + 8) == prev
        && (prev != 0 ==> Word(mem, prev + 4) == n)
        && (next != 0 ==> Word(mem, next + 8) == n)
    {
      var nextNode := current + need;
      var next, prev := Load(current + 4), Load(current + 8);
      mem := Stored(nextNode, Load(current) - need);
      LinkRemainder(current, nextNode);
      mem := Stored(current, need);
      mem := Stored(current + 4, SENTINEL_NEXT);
      mem := Stored(current + 8, SENTINEL_PREV);
    }

    method LinkRemainder(current: int, nextNode: int)
      requires Separated(current) && current + NODE_SIZE <= nextNode
      requires nextNode + NODE_SIZE <= current + Word(mem, current)
      modifies this`mem, this`start_node
      ensures var next := old(Word(mem, current + 4)); var prev := old(Word(mem, current + 8));
        && start_node == (if prev == 0 then nextNode else old(start_node))
        && OnlyAround(old(mem), mem, nextNode, nextNode, prev, next)
        && Word(mem, nextNode) == old(Word(mem, nextNode)) && Word(mem, nextNode + 4) == next
        && Word(mem, nextNode + 8) == prev
        && (prev != 0 ==> Word(mem, prev + 4) == nextNode)
        && (next != 0 ==> Word(mem, next + 8) == nextNode)
    {
      var next, prev := Load(current + 4), Load(current + 8);
      if current == start_node {
        start_node := nextNode;
        mem := Stored(nextNode + 8, 0);
        mem := Stored(nextNode + 4, next);
      } else {
        mem := Stored(nextNode + 4, next);
        mem := Stored(nextNode + 8, prev);
        mem := Stored(prev + 4, nextNode);
      }
      if next != 0 {
        mem := Stored(next + 8, nextNode);
      }
    }

    // A node whose list neighbours, if any, are whole nodes of the heap on either side of it.
    ghost predicate Separated(node: int)
      reads this
    {
      var size := Word(mem, node); var next := Word(mem, node + 4); var prev := Word(mem, node + 8);
      && HEAP_START <= node && size >= NODE_SIZE && node + size <= end_address
      && (prev == 0 <==> node == start_node)
      && (prev != 0 ==> HEAP_START <= prev && prev + NODE_SIZE <= node)
      && (next != 0 ==> node + size <= next && next + NODE_SIZE <= end_address)
    }

    // __kfree.  An address outside the heap is ignored; no panic can be reached by a valid free.
    method KFree(address: int)
      requires Valid() && ValidFree(State(), address)
      modifies this
      ensures Valid() && State() == Free(old(State()), address)
    {
      if address < HEAP_START || address > end_address {
        return;
      }
      var node := address - HEADER_SIZE;
      ghost var h := State();
      LiveFitsAtSlot(h, node);
      OthersOutside(h, node);
      assert Load(node) <= end_address - HEAP_START;  // the "Bad size!" panic is unreachable
      LinkBack(node, h);
      ReleaseKeepsInv(h, node);
      assert Inv(State());
    }

    // What __kfree does once its argument has passed the checks.
    method LinkBack(node: int, ghost h: Heap)
      requires State() == h && node in live && Separate(free, live - {node}, end_address)
      requires Linked(mem, free) && Headers(mem, live) && free != [] && start_node == free[0].addr
      requires HEAP_START <= node && node + live[node] <= end_address && live[node] >= NODE_SIZE
      requires forall a :: a in live - {node} ==> a < node || node + live[node] <= a
      requires Slot(free, node) < |free| && FitsAt(free, Slot(free, node), Block(node, live[node]))
      modifies this`mem, this`start_node, this`free, this`live
      ensures Loose() && State() == Release(h, node)
    {
      ghost var b := Block(node, live[node]);
      live := live - {node};
      if node < start_node {
        SlotIs(free, node, 0);
        LinkFirst(node, b, free);
      } else {
        LinkLater(node, b, free);
      }
    }

    ghost predicate Loose()
      reads this
    {
      && Separate(free, live, end_address) && Linked(mem, free) && Headers(mem, live)
      && free != [] && start_node == free[0].addr
    }

    // The memory of b can become a node: it is no live block's header, and its first word holds its size.
    ghost predicate CanLink(b: Block)
      reads this
    {
      && HEAP_START <= b.addr && b.End() <= end_address && b.size >= NODE_SIZE && Word(mem, b.addr) == b.size
      && forall a :: a in live ==> a < b.addr || b.End() <= a
    }

    // The branch of __kfree for a block in front of the first node.
    method LinkFirst(node: int, ghost b: Block, ghost f: seq<Block>)
      requires Loose() && free == f && CanLink(b) && b.addr == node && b.End() <= free[0].addr
      modifies this`mem, this`start_node, this`free
      ensures Loose()
      ensures free == Insert(f, 0, b)
    {
      ghost var m := mem;
      NodeSurroundings(mem, free, live, end_address, 0);
      ghost var r := if b.End() == free[0].addr then 1 else 0;
      ghost var joined := if b.End() == free[0].addr then Block(node, b.size + free[0].size) else b;
      LinkFirstWords(node);
      start_node := node;
      Relink(m, 0, r, joined);
      InsertFirst(f, b);
    }

    method LinkFirstWords(node: int)
      requires HEAP_START <= node && node + NODE_SIZE <= start_node && start_node + NODE_SIZE <= end_address
      requires var next := Word(mem, start_node + 4); next != 0 ==>
        start_node + NODE_SIZE <= next && next + NODE_SIZE <= end_address
      modifies this`mem
      ensures var touches := node + old(Word(mem, node)) == start_node;
              var next := if touches then old(Word(mem, start_node + 4)) else start_node;
        && OnlyAround(old(mem), mem, node, node, 0, next)
        && Word(mem, node) == old(Word(mem, node)) + (if touches then old(Word(mem, start_node)) else 0)
        && Word(mem, node + 4) == next && Word(mem, node + 8) == 0
        && (next != 0 ==> Word(mem, next + 8) == node)
    {
      if node + Load(node) == start_node {
        var next := Load(start_node + 4);
        mem := Stored(node, Load(node) + Load(start_node));
        mem := Stored(node + 4, next);
        mem := Stored(node + 8, 0);
        if next != 0 {
          mem := Stored(next + 8, node);
        }
      } else {
        mem := Stored(node + 4, start_node);
        mem := Stored(node + 8, 0);
        mem := Stored(start_node + 8, node);
      }
    }

    // The list after the words around b have been written.
    ghost method Relink(m: Memory, l: nat, r: nat, b: Block)
      requires Separate(free, live, end_address) && Linked(m, free) && Headers(m, live)
      requires Between(free, l, r, b, b.addr) && Relinked(m, mem, free, l, r, b, b.addr)
      requires HEAP_START <= b.addr && b.End() <= end_address && forall a :: a in live ==> a < b.addr || b.End() <= a
      requires start_node == if l == 0 then b.addr else free[0].addr
      modifies this`free
      ensures Loose() && free == Splice(old(free), l, r, b)
    {
      RelinkKeepsList(m, mem, free, end_address, l, r, b, b.addr);
      RelinkKeepsHeaders(m, mem, free, live, end_address, l, r, b, b.addr);
      SpliceIsApart(free, end_address, l, r, b);
      SpliceIsOutside(free, live, l, r, b);
      free := Splice(free, l, r, b);
    }

    // The rest of __kfree: link the block in behind the nodes before it, then join both ways.
    method LinkLater(node: int, ghost b: Block, ghost f: seq<Block>)
      requires Loose() && CanLink(b) && b.addr == node && free == f && start_node <= node
      requires Slot(f, node) < |f| && FitsAt(f, Slot(f, node), b)
      modifies this`mem, this`start_node, this`free
      ensures Loose() && free == Insert(f, Slot(f, node), b)
    {
      var current, k := FindAfter(node, b);
      LinkBefore(node, current, k, b);
      ghost var f1 := free;
      assert f1[k] == b && f1[k + 1] == f[k];
      var middle, j := JoinPrev(node, k, f1);
      ghost var f2 := free;
      assert j + 1 < |f2| && f2[j + 1] == f[k];
      JoinNext(middle, current, j, f2);
      InsertInSteps(f, k, b, f1, f2, j, free);
    }

    // Joins node k with the node before it if they touch; returns the node that node k's memory is now in.
    method JoinPrev(node: int, ghost k: nat, ghost f: seq<Block>) returns (middle: int, ghost j: nat)
      requires Loose() && free == f && 0 < k < |f| && node == f[k].addr
      modifies this`mem, this`free
      ensures Loose() && j < |free| && middle == free[j].addr
      ensures
        if f[k - 1].End() == node then j == k - 1
          && free == Splice(f, k - 1, k + 1, Block(f[k - 1].addr, f[k - 1].size + f[k].size))
        else j == k && free == f
    {
      NodeSurroundings(mem, free, live, end_address, k);
      NodeSurroundings(mem, free, live, end_address, k - 1);
      var prev := Load(node + 8);
      middle := node;
      j := k;
      if prev + Load(prev) == node {
        Absorb(prev, k - 1);
        middle := prev;
        j := k - 1;
      }
    }

    // Joins node j with the next one if they touch.
    method JoinNext(middle: int, last: int, ghost j: nat, ghost f: seq<Block>)
      requires Loose() && free == f && j + 1 < |f| && middle == f[j].addr && last == f[j + 1].addr
      modifies this`mem, this`free
      ensures Loose()
      ensures free == if f[j].End() == last then Splice(f, j, j + 2, Block(f[j].addr, f[j].size + f[j + 1].size)) else f
    {
      NodeSurroundings(mem, free, live, end_address, j);
      if middle + Load(middle) == last {
        Absorb(middle, j);
      }
    }

    // The loop of __kfree.  It stops at a node: the "Fell off the free list" panic is unreachable.
    method FindAfter(node: int, ghost b: Block) returns (current: int, ghost k: nat)
      requires Loose() && b.addr == node && start_node <= node && b.size > 0
      requires Slot(free, node) < |free| && FitsAt(free, Slot(free, node), b)
      ensures k == Slot(free, node) && 0 < Slot(free, node) < |free| && current == free[Slot(free, node)].addr
    {
      current := start_node;
      k := 0;
      ghost var slot := Slot(free, node);
      while current != 0 && current < node
        invariant k <= slot && current == free[k].addr
        decreases slot - k
      {
        NodeLinks(mem, free, live, end_address, k);
        assert k < slot;
        current := Load(current + 4);
        k := k + 1;
      }
      NodeLinks(mem, free, live, end_address, k);
      assert current != 0;
      assert k == slot;
    }

    // Puts a node in front of free node k.
    method LinkBefore(node: int, current: int, ghost k: nat, ghost b: Block)
      requires Loose() && CanLink(b) && b.addr == node && 0 < k < |free| && current == free[k].addr
      requires FitsAt(free, k, b)
      modifies this`mem, this`free
      ensures Loose() && free == Splice(old(free), k, k, b)
    {
      ghost var m := mem;
      NodeSurroundings(mem, free, live, end_address, k);
      LinkBeforeWords(node, current);
      Relink(m, k, k, b);
    }

    method LinkBeforeWords(node: int, current: int)
      requires var prev := Word(mem, current + 8);
        HEAP_START <= prev && prev + NODE_SIZE <= node && node + NODE_SIZE <= current
          && current + NODE_SIZE <= end_address
      modifies this`mem
      ensures var prev := old(Word(mem, current + 8));
        && OnlyAround(old(mem), mem, node, node, prev, current)
        && Word(mem, node) == old(Word(mem, node)) && Word(mem, node + 4) == current && Word(mem, node + 8) == prev
        && Word(mem, prev + 4) == node && Word(mem, current + 8) == node
    {
      var prev := Load(current + 8);
      mem := Stored(node + 4, current);
      mem := Stored(node + 8, prev);
      mem := Stored(prev + 4, node);
      mem := Stored(current + 8, node);
    }

    // Joins free node j, at address a, with the next one, which it touches.
    method Absorb(a: int, ghost j: nat)
      requires Loose() && j + 1 < |free| && a == free[j].addr && free[j].End() == free[j + 1].addr
      modifies this`mem, this`free
      ensures Loose() && free == Splice(old(free), j, j + 2, Block(a, old(free)[j].size + old(free)[j + 1].size))
    {
      ghost var m := mem;
      ghost var b := Block(a, free[j].size + free[j + 1].size);
      NodeSurroundings(mem, free, live, end_address, j);
      NodeSurroundings(mem, free, live, end_address, j + 1);
      assert j > 0 ==> NodeAt(m, free, j - 1);
      AbsorbWords(a);
      assert j > 0 ==> SameAt(m, mem, free[j - 1].addr + 4);
      Relink(m, j, j + 2, b);
    }

    method AbsorbWords(a: int)
      requires var last := Word(mem, a + 4); var next := Word(mem, last + 4);
        && HEAP_START <= a && a + NODE_SIZE <= last && last + NODE_SIZE <= end_address
        && (next != 0 ==> last + NODE_SIZE <= next && next + NODE_SIZE <= end_address)
      modifies this`mem
      ensures var last := old(Word(mem, a + 4)); var next := old(Word(mem, last + 4));
        && OnlyAround(old(mem), mem, a, a, a, next)
        && Word(mem, a) == old(Word(mem, a) + Word(mem, last)) && Word(mem, a + 4) == next
        && Word(mem, a + 8) == old(Word(mem, a + 8))
        && (next != 0 ==> Word(mem, next + 8) == a)
    {
      var last := Load(a + 4);
      var next := Load(last + 4);
      mem := Stored(a + 4, next);
      if next != 0 {
        mem := Stored(next + 8, a);
      }
      mem := Stored(a, Load(a) + Load(last));
    }

    // A store by the owner of a live block, anywhere behind the block's header.
    method OwnerStore(block: int, a: int, v: int)
      requires Valid() && block in live && block + HEADER_SIZE <= a < block + live[block]
      requires a % 4 == 0
      modifies this`mem
      ensures Valid() && Word(mem, a) == v
    {
      ghost var m := mem;
      forall i | 0 <= i < |free| ensures a < free[i].addr || free[i].End() <= a { LiveApart(State(), block, i); }
      assert forall b :: b in live ==> b != a;
      mem := mem[a := v];
      forall i | 0 <= i < |free| ensures NodeAt(mem, free, i) {
        assert NodeAt(m, free, i) && free[i].Good();
      }
    }
  }
}
