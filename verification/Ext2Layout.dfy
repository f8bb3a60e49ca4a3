/**
Where the bytes of an ext2 file are on the disk (src/fs/ext2/common_ext2.h, ext2.h): twelve direct blocks and one
block of block numbers.  Offsets count from the base address of the file system.
*/
module Ext2Layout {
  import opened Options
  import opened Types

  type Byte = b: nat | b < 256

  const SUPERBLOCK_LOCATION := 0x400
  const DIRECT_BLOCKS := 12
  const INDIRECT_BLOCK_IDX := 12
  const TOTAL_BLOCKS := 15

  type BlockBytes = b: nat | b >= 1024 && b % 4 == 0 witness 1024

  // get_block_size
  function GetBlockSize(logarithmicBlockSize: nat): BlockBytes {
    if logarithmicBlockSize == 0 then 1024 else 2 * GetBlockSize(logarithmicBlockSize - 1)
  }

  // 1024 << logarithmicBlockSize
  lemma {:induction false} BlockSizeIsShifted(logarithmicBlockSize: nat)
    ensures GetBlockSize(logarithmicBlockSize) == 1024 * Pow2(logarithmicBlockSize)
  {
    if logarithmicBlockSize > 0 { BlockSizeIsShifted(logarithmicBlockSize - 1); }
  }

  // indirect_data_block_size
  function IndirectDataBlockSize(bs: BlockBytes): nat { bs / 4 }

  // ---------------------------------------------------------------- blocks of bytes

  // The first byte of the i-th of consecutive blocks: i * bs
  function Start(bs: BlockBytes, i: nat): nat { if i == 0 then 0 else Start(bs, i - 1) + bs }

  // The block that byte k falls into: k / bs
  function Index(bs: BlockBytes, k: nat): (i: nat)
    ensures Start(bs, i) <= k < Start(bs, i) + bs
  {
    if k < bs then 0 else Index(bs, k - bs) + 1
  }

  // The place of byte k in its block: k % bs
  function Within(bs: BlockBytes, k: nat): (r: nat)
    ensures r < bs
  {
    k - Start(bs, Index(bs, k))
  }

  lemma {:induction false} StartGrows(bs: BlockBytes, i: nat, j: nat)
    requires i < j
    ensures Start(bs, i) + bs <= Start(bs, j)
    decreases j
  {
    if i < j - 1 { StartGrows(bs, i, j - 1); }
  }

  lemma IndexIs(bs: BlockBytes, k: nat, i: nat)
    requires Start(bs, i) <= k < Start(bs, i) + bs
    ensures Index(bs, k) == i && Within(bs, k) == k - Start(bs, i)
  {
    var j := Index(bs, k);
    if i < j { StartGrows(bs, i, j); }
    if j < i { StartGrows(bs, j, i); }
  }

  lemma {:induction false} StartIsProduct(bs: BlockBytes, i: nat)
    ensures Start(bs, i) == i * bs
  {
    if i > 0 {
      StartIsProduct(bs, i - 1);
      assert i * bs == (i - 1) * bs + bs;
    }
  }

  lemma {:induction false} IndexIsQuotient(bs: BlockBytes, k: nat)
    ensures Index(bs, k) == k / bs && Within(bs, k) == k % bs
  {
    if k >= bs {
      IndexIsQuotient(bs, k - bs);
      AddDivisor(k - bs, bs);
      assert Start(bs, Index(bs, k)) == Start(bs, Index(bs, k - bs)) + bs;
    } else {
      Below(k, bs);
    }
  }

  lemma AddDivisor(k: nat, m: nat)
    requires m > 0
    ensures (k + m) / m == k / m + 1 && (k + m) % m == k % m
  {
    var q, r := k / m, k % m;
    assert k + m == (q + 1) * m + r;
    QuotientIs(k + m, m, q + 1, r);
  }

  lemma Below(k: nat, m: nat)
    requires k < m
    ensures k / m == 0 && k % m == k
  {
  }

  lemma QuotientIs(k: nat, m: nat, q: nat, r: nat)
    requires m > 0 && r < m && k == q * m + r
    ensures k / m == q && k % m == r
  {
    var d := k / m - q;
    assert d * m == r - k % m;
    assert d >= 1 ==> d * m >= m;
    assert d <= -1 ==> d * m + m <= 0;
  }

  // ---------------------------------------------------------------- files

  // block_number_to_address.  There is no block 0: its address is never used.
  function Offset(bs: BlockBytes, number: nat): nat {
    if number == 0 then 0 else SUPERBLOCK_LOCATION + Start(bs, number - 1)
  }

  lemma OffsetIsAddress(bs: BlockBytes, number: nat)
    requires number >= 1
    ensures Offset(bs, number) == SUPERBLOCK_LOCATION + (number - 1) * bs
  {
    StartIsProduct(bs, number - 1);
  }

  // The i_block table of an inode: twelve direct blocks, then the single, double and triple indirect ones.
  type BlockTable = s: seq<nat> | |s| == TOTAL_BLOCKS witness [0, 0, 0, 0, 0, 0, 0, 0, 0, 0, 0, 0, 0, 0, 0]

  datatype Inode = Inode(size: nat, blocks: BlockTable)

  // A little-endian 32-bit word.  Of a word off the disk, which only an idle load reads, nothing is used.
  function WordAt(d: seq<Byte>, at: nat): nat {
    if at + 4 > |d| then 0
    else d[at] as int + 0x100 * d[at + 1] as int + 0x1_0000 * d[at + 2] as int + 0x100_0000 * d[at + 3] as int
  }

  // The number of the block that holds logical block i.
  function Block(d: seq<Byte>, bs: BlockBytes, file: Inode, i: nat): nat {
    if i < DIRECT_BLOCKS then file.blocks[i]
    else WordAt(d, Offset(bs, file.blocks[INDIRECT_BLOCK_IDX]) + 4 * (i - INDIRECT_BLOCK_IDX))
  }

  // The four bytes at `at` are those of the number, the lowest first.
  ghost predicate StoredAt(d: seq<Byte>, at: nat, number: nat) {
    && at + 4 <= |d| && number < WORD_RANGE
    && d[at] == number % 256 && d[at + 1] == number / 256 % 256
    && d[at + 2] == number / 0x1_0000 % 256 && d[at + 3] == number / 0x100_0000
  }

  lemma WordIsStored(d: seq<Byte>, at: nat)
    requires at + 4 <= |d|
    ensures StoredAt(d, at, WordAt(d, at))
  {
    var w := WordAt(d, at);
    assert w / 256 == d[at + 1] as int + 0x100 * d[at + 2] as int + 0x1_0000 * d[at + 3] as int;
    assert w / 0x1_0000 == d[at + 2] as int + 0x100 * d[at + 3] as int;
    assert w / 0x100_0000 == d[at + 3];
  }

  // The numbers of the first twelve blocks are in the inode, and the others in the block that entry 12 names, four
  // bytes each.
  lemma BlockNumberIsStored(d: seq<Byte>, bs: BlockBytes, file: Inode, i: nat)
    ensures i < 12 ==> Block(d, bs, file, i) == file.blocks[i]
    ensures i >= 12 && file.blocks[12] >= 1 ==>
      var at := 0x400 + (file.blocks[12] - 1) * bs + 4 * (i - 12);
      at >= 0 && (at + 4 <= |d| ==> StoredAt(d, at, Block(d, bs, file, i)))
  {
    if i >= 12 && file.blocks[12] >= 1 {
      var at := Offset(bs, file.blocks[12]) + 4 * (i - 12);
      OffsetIsAddress(bs, file.blocks[12]);
      if at + 4 <= |d| { WordIsStored(d, at); }
    }
  }

  // Where byte k of the file is on the disk.
  function Pos(d: seq<Byte>, bs: BlockBytes, file: Inode, k: nat): nat {
    Offset(bs, Block(d, bs, file, Index(bs, k))) + Within(bs, k)
  }

  ghost predicate Used(bs: BlockBytes, file: Inode, i: nat) { Start(bs, i) < file.size }

  ghost predicate OnDisk(d: seq<Byte>, bs: BlockBytes, number: nat) { number >= 1 && Offset(bs, number) + bs <= |d| }

  // The blocks a file takes up, its block of block numbers first
  function Holding(d: seq<Byte>, bs: BlockBytes, file: Inode, h: nat): nat {
    if h == 0 then file.blocks[INDIRECT_BLOCK_IDX] else Block(d, bs, file, h - 1)
  }

  ghost predicate Held(bs: BlockBytes, file: Inode, h: nat) {
    Used(bs, file, if h == 0 then INDIRECT_BLOCK_IDX else h - 1)
  }

  // The bytes of a file that needs no double indirect block
  function Capacity(bs: BlockBytes): nat { Start(bs, DIRECT_BLOCKS + IndirectDataBlockSize(bs)) }

  // A file that needs no double indirect block, with all its blocks on the disk.
  ghost predicate LayoutOk(d: seq<Byte>, bs: BlockBytes, file: Inode) {
    file.size <= Capacity(bs) && forall h: nat :: Held(bs, file, h) ==> OnDisk(d, bs, Holding(d, bs, file, h))
  }

  lemma BlockOnDisk(d: seq<Byte>, bs: BlockBytes, file: Inode, i: nat)
    requires LayoutOk(d, bs, file) && Used(bs, file, i)
    ensures OnDisk(d, bs, Block(d, bs, file, i))
  {
    var h := i + 1;
    assert Held(bs, file, h);
  }

  // No block serves twice.
  ghost predicate Distinct(d: seq<Byte>, bs: BlockBytes, file: Inode) {
    forall g: nat, h: nat :: g != h && Held(bs, file, g) && Held(bs, file, h) ==>
      Holding(d, bs, file, g) != Holding(d, bs, file, h)
  }

  lemma BlocksDiffer(d: seq<Byte>, bs: BlockBytes, file: Inode, i: nat, j: nat)
    requires Distinct(d, bs, file) && i != j && Used(bs, file, i) && Used(bs, file, j)
    ensures Block(d, bs, file, i) != Block(d, bs, file, j)
  {
    var g, h := i + 1, j + 1;
    assert Held(bs, file, g) && Held(bs, file, h);
  }

  lemma UsedFits(bs: BlockBytes, file: Inode, i: nat)
    requires Used(bs, file, i) && file.size <= Capacity(bs)
    ensures i < DIRECT_BLOCKS + IndirectDataBlockSize(bs)
  {
    var last := DIRECT_BLOCKS + IndirectDataBlockSize(bs);
    if last < i { StartGrows(bs, last, i); }
  }

  lemma PosOnDisk(d: seq<Byte>, bs: BlockBytes, file: Inode, k: nat)
    requires LayoutOk(d, bs, file) && k < file.size
    ensures SUPERBLOCK_LOCATION <= Pos(d, bs, file, k) < |d|
  {
    BlockOnDisk(d, bs, file, Index(bs, k));
  }

  // ---------------------------------------------------------------- reads and writes that straddle

  // How much of [start, start + nbytes) lies in the file.
  function Clamp(file: Inode, start: nat, nbytes: nat): (n: nat)
    ensures n <= nbytes && (n > 0 ==> start + n <= file.size)
    ensures n == nbytes || start + n >= file.size
  {
    if file.size < nbytes + start then (if start > file.size then 0 else file.size - start) else nbytes
  }

  // Less than a block, starting inside one block and ending inside the next.
  predicate Straddles(bs: BlockBytes, start: nat, n: nat) { n < bs && Within(bs, start) + n > bs }

  // A read or write of [start, start + n) of a file, and the disk it begins on.
  datatype Request = Request(d: seq<Byte>, bs: BlockBytes, file: Inode, start: nat, n: nat)

  // Where the loops of read and write find byte j: straddling, they run on past the end of the first block.
  function Reached(r: Request, j: nat): nat {
    if Straddles(r.bs, r.start, r.n) then Pos(r.d, r.bs, r.file, r.start) + j else Pos(r.d, r.bs, r.file, r.start + j)
  }

  // What the loops need: the file's blocks are on the disk, the range is in the file, and a straddling access does
  // not run off the disk.
  ghost predicate Possible(r: Request) {
    && LayoutOk(r.d, r.bs, r.file) && (r.n > 0 ==> r.start + r.n <= r.file.size)
    && (Straddles(r.bs, r.start, r.n) ==> Pos(r.d, r.bs, r.file, r.start) + r.n <= |r.d|)
  }

  // ---------------------------------------------------------------- contents

  // The bytes of a file; off the disk, which a good layout rules out, they count as zero.
  function Contents(d: seq<Byte>, bs: BlockBytes, file: Inode): (c: seq<Byte>)
    ensures |c| == file.size
    ensures forall k :: 0 <= k < file.size ==> c[k] == ByteAt(d, Pos(d, bs, file, k))
  {
    seq(file.size, k requires 0 <= k < file.size => ByteAt(d, Pos(d, bs, file, k)))
  }

  function ByteAt(d: seq<Byte>, p: nat): Byte { if p < |d| then d[p] else 0 }

  lemma BlocksApart(bs: BlockBytes, a: nat, b: nat)
    requires 1 <= a < b
    ensures Offset(bs, a) + bs <= Offset(bs, b) && (Offset(bs, a) + bs == Offset(bs, b) <==> b == a + 1)
  {
    StartGrows(bs, a - 1, b - 1);
    if a + 1 < b { StartGrows(bs, a, b - 1); }
  }

  // Exactly then do the loops reach the bytes that they are asked for: the range does not straddle two blocks, or
  // the second of them is the next block of the disk too.
  predicate Straight(r: Request) {
    !Straddles(r.bs, r.start, r.n)
    || Block(r.d, r.bs, r.file, Index(r.bs, r.start) + 1) == Block(r.d, r.bs, r.file, Index(r.bs, r.start)) + 1
  }

  // The two blocks of a straddling access
  lemma StraddledBlocks(r: Request)
    requires Possible(r) && Straddles(r.bs, r.start, r.n)
    ensures var i := Index(r.bs, r.start); var a, b := Block(r.d, r.bs, r.file, i), Block(r.d, r.bs, r.file, i + 1);
      Used(r.bs, r.file, i) && Used(r.bs, r.file, i + 1) && a >= 1 && b >= 1
      && (Offset(r.bs, a) + r.bs == Offset(r.bs, b) <==> b == a + 1)
  {
    var i := Index(r.bs, r.start);
    var a, b := Block(r.d, r.bs, r.file, i), Block(r.d, r.bs, r.file, i + 1);
    assert Used(r.bs, r.file, i) && Used(r.bs, r.file, i + 1);
    BlockOnDisk(r.d, r.bs, r.file, i);
    BlockOnDisk(r.d, r.bs, r.file, i + 1);
    if a < b { BlocksApart(r.bs, a, b); }
    if b < a { BlocksApart(r.bs, b, a); }
  }

  lemma StraddledPos(r: Request, j: nat)
    requires Possible(r) && Straddles(r.bs, r.start, r.n) && j < r.n
    ensures var i, k := Index(r.bs, r.start), Within(r.bs, r.start) + j;
      Pos(r.d, r.bs, r.file, r.start + j) == if k < r.bs then Offset(r.bs, Block(r.d, r.bs, r.file, i)) + k
                                             else Offset(r.bs, Block(r.d, r.bs, r.file, i + 1)) + (k - r.bs)
  {
    var i := Index(r.bs, r.start);
    IndexIs(r.bs, r.start + j, if Within(r.bs, r.start) + j < r.bs then i else i + 1);
  }

  lemma ReachesTheBytesIffStraight(r: Request)
    requires Possible(r)
    ensures (forall j :: 0 <= j < r.n ==> Reached(r, j) == Pos(r.d, r.bs, r.file, r.start + j)) <==> Straight(r)
  {
    if Straddles(r.bs, r.start, r.n) {
      StraddledBlocks(r);
      var first := r.bs - Within(r.bs, r.start);
      StraddledPos(r, first);
      assert Reached(r, first) == Offset(r.bs, Block(r.d, r.bs, r.file, Index(r.bs, r.start))) + r.bs;
      if Straight(r) {
        forall j | 0 <= j < r.n ensures Reached(r, j) == Pos(r.d, r.bs, r.file, r.start + j) { StraddledPos(r, j); }
      }
    }
  }

  // d has the same blocks for the file as the request's disk.
  ghost predicate SameBlocks(r: Request, d: seq<Byte>) {
    |d| == |r.d| && forall i: nat :: Used(r.bs, r.file, i) ==> Block(d, r.bs, r.file, i) == Block(r.d, r.bs, r.file, i)
  }

  lemma SamePos(r: Request, d: seq<Byte>, k: nat)
    requires SameBlocks(r, d) && k < r.file.size
    ensures Pos(d, r.bs, r.file, k) == Pos(r.d, r.bs, r.file, k)
  {
    assert Used(r.bs, r.file, Index(r.bs, k));
  }

  lemma SameLayout(r: Request, d: seq<Byte>)
    requires SameBlocks(r, d) && LayoutOk(r.d, r.bs, r.file)
    ensures LayoutOk(d, r.bs, r.file)
  {
    forall h: nat | Held(r.bs, r.file, h) ensures OnDisk(d, r.bs, Holding(d, r.bs, r.file, h)) {
      assert OnDisk(r.d, r.bs, Holding(r.d, r.bs, r.file, h));
      assert h > 0 ==> Used(r.bs, r.file, h - 1);
    }
  }

  // On a disk with the same blocks the same request is possible, straight or not alike.
  lemma SameRequest(r: Request, d: seq<Byte>)
    requires Possible(r) && Distinct(r.d, r.bs, r.file) && SameBlocks(r, d)
    ensures Possible(r.(d := d)) && Distinct(d, r.bs, r.file) && (Straight(r.(d := d)) <==> Straight(r))
  {
    SameLayout(r, d);
    forall h: nat | Held(r.bs, r.file, h) ensures Holding(d, r.bs, r.file, h) == Holding(r.d, r.bs, r.file, h) {
      if h > 0 { var i := h - 1; assert Used(r.bs, r.file, i); }
    }
    if Straddles(r.bs, r.start, r.n) {
      StraddledBlocks(r);
      SamePos(r, d, r.start);
    }
  }

  // Positions in different blocks of the disk differ.
  lemma InApart(bs: BlockBytes, a: nat, b: nat, x: nat, y: nat)
    requires a != b && a >= 1 && b >= 1 && x < bs && y < bs
    ensures Offset(bs, a) + x != Offset(bs, b) + y
  {
    if a < b { BlocksApart(bs, a, b); } else { BlocksApart(bs, b, a); }
  }

  // Bytes of the file have places of their own.
  lemma PosInjective(d: seq<Byte>, bs: BlockBytes, file: Inode, j: nat, k: nat)
    requires LayoutOk(d, bs, file) && Distinct(d, bs, file) && j < k < file.size
    ensures Pos(d, bs, file, j) != Pos(d, bs, file, k)
  {
    var a, b := Index(bs, j), Index(bs, k);
    BlockOnDisk(d, bs, file, a);
    BlockOnDisk(d, bs, file, b);
    if a != b {
      BlocksDiffer(d, bs, file, a, b);
      InApart(bs, Block(d, bs, file, a), Block(d, bs, file, b), Within(bs, j), Within(bs, k));
    }
  }

  // A disk that differs from another at one byte of the file only, or nowhere the file's blocks are listed.
  lemma BlocksStay(r: Request, d: seq<Byte>)
    requires LayoutOk(r.d, r.bs, r.file) && |d| == |r.d|
    requires Used(r.bs, r.file, INDIRECT_BLOCK_IDX) ==>
      var at := Offset(r.bs, r.file.blocks[INDIRECT_BLOCK_IDX]); Agree(r.d, d, at, at + r.bs)
    ensures SameBlocks(r, d)
  {
    forall i: nat | Used(r.bs, r.file, i) ensures Block(d, r.bs, r.file, i) == Block(r.d, r.bs, r.file, i) {
      if i >= INDIRECT_BLOCK_IDX {
        if i > INDIRECT_BLOCK_IDX { StartGrows(r.bs, INDIRECT_BLOCK_IDX, i); }
        UsedFits(r.bs, r.file, i);
        var at := Offset(r.bs, r.file.blocks[INDIRECT_BLOCK_IDX]);
        SameWord(r.d, d, at, at + r.bs, at + 4 * (i - INDIRECT_BLOCK_IDX));
      }
    }
  }

  ghost predicate Agree(d: seq<Byte>, e: seq<Byte>, lo: nat, hi: nat) {
    |d| == |e| && hi <= |d| && forall p :: lo <= p < hi ==> d[p] == e[p]
  }

  lemma SameWord(d: seq<Byte>, e: seq<Byte>, lo: nat, hi: nat, at: nat)
    requires Agree(d, e, lo, hi) && lo <= at && at + 4 <= hi
    ensures WordAt(d, at) == WordAt(e, at)
  {
  }

  // On disk d, byte j reached is byte j of the range.
  ghost predicate ReachesRight(r: Request, d: seq<Byte>, j: nat) {
    var p, q := Reached(r, j), Pos(d, r.bs, r.file, r.start + j);
    p < |d| && q < |d| && d[p] == d[q]
  }

  // The bytes reached are the file's, whatever is stored in its blocks, exactly when the access is straight.
  lemma ReadsTheFileIffStraight(r: Request)
    requires Possible(r) && Distinct(r.d, r.bs, r.file)
    ensures Straight(r) <==> forall d: seq<Byte>, j: nat :: SameBlocks(r, d) && j < r.n ==> ReachesRight(r, d, j)
  {
    ReachesTheBytesIffStraight(r);
    if Straight(r) {
      forall d: seq<Byte>, j: nat | SameBlocks(r, d) && j < r.n ensures ReachesRight(r, d, j) {
        assert Reached(r, j) == Pos(r.d, r.bs, r.file, r.start + j);
        SamePos(r, d, r.start + j);
        PosOnDisk(r.d, r.bs, r.file, r.start + j);
      }
    } else {
      var j: nat :| j < r.n && Reached(r, j) != Pos(r.d, r.bs, r.file, r.start + j);
      var d := OtherContents(r, j);
      assert !ReachesRight(r, d, j);
    }
  }

  // A disk with the same blocks on which byte j reached is not byte j of the range.
  lemma OtherContents(r: Request, j: nat) returns (d: seq<Byte>)
    requires Possible(r) && Distinct(r.d, r.bs, r.file) && j < r.n
    requires Reached(r, j) != Pos(r.d, r.bs, r.file, r.start + j)
    requires Reached(r, j) < |r.d|
    ensures SameBlocks(r, d) && !ReachesRight(r, d, j)
  {
    var p, q := Reached(r, j), Pos(r.d, r.bs, r.file, r.start + j);
    PosOnDisk(r.d, r.bs, r.file, r.start + j);
    d := r.d[q := (r.d[p] as int + 1) % 256];
    FileByteIsNoBlockNumber(r, r.start + j, d);
    SamePos(r, d, r.start + j);
  }

  // A byte of the file is not in the block of block numbers.
  lemma FileByteIsNoBlockNumber(r: Request, k: nat, d: seq<Byte>)
    requires LayoutOk(r.d, r.bs, r.file) && Distinct(r.d, r.bs, r.file) && k < r.file.size && |d| == |r.d|
    requires forall p :: 0 <= p < |d| && p != Pos(r.d, r.bs, r.file, k) ==> d[p] == r.d[p]
    ensures SameBlocks(r, d)
  {
    if Used(r.bs, r.file, INDIRECT_BLOCK_IDX) {
      var ind := r.file.blocks[INDIRECT_BLOCK_IDX];
      var at := Offset(r.bs, ind);
      assert OnDisk(r.d, r.bs, Holding(r.d, r.bs, r.file, 0));
      forall p | at <= p < at + r.bs ensures d[p] == r.d[p] { NotInHeldBlock(r.d, r.bs, r.file, 0, p, k); }
    }
    BlocksStay(r, d);
  }

  lemma NotInHeldBlock(d: seq<Byte>, bs: BlockBytes, file: Inode, h: nat, p: nat, k: nat)
    requires LayoutOk(d, bs, file) && Distinct(d, bs, file) && Held(bs, file, h) && k < file.size
    requires h != Index(bs, k) + 1
    requires var at := Offset(bs, Holding(d, bs, file, h)); at <= p < at + bs
    ensures Pos(d, bs, file, k) != p
  {
    var i := Index(bs, k);
    var g := i + 1;
    assert Held(bs, file, g);
    assert OnDisk(d, bs, Holding(d, bs, file, g)) && OnDisk(d, bs, Holding(d, bs, file, h));
    InApart(bs, Block(d, bs, file, i), Holding(d, bs, file, h), Within(bs, k), p - Offset(bs, Holding(d, bs, file, h)));
  }

  // ---------------------------------------------------------------- loads of block numbers

  // block_number_to_address with block 0 as well, which is before the disk if blocks are larger than 1024 bytes
  function AddressOf(bs: BlockBytes, number: nat): int {
    if number == 0 then SUPERBLOCK_LOCATION - bs else Offset(bs, number)
  }

  // The word of the block of block numbers that the loops load for logical block li
  function LoadFor(bs: BlockBytes, file: Inode, li: nat): Option<int> {
    if li < INDIRECT_BLOCK_IDX then None
    else Some(AddressOf(bs, file.blocks[INDIRECT_BLOCK_IDX]) + 4 * (li - INDIRECT_BLOCK_IDX))
  }

  predicate WordOnDisk(size: nat, at: int) { 0 <= at && at + 4 <= size }

  // The loops make a last pass with nothing left to copy, although they are done.
  predicate Idle(r: Request) { r.n == 0 || (r.n >= r.bs && Within(r.bs, r.start + r.n) == 0) }

  // And in this pass they load a block number from outside the disk.
  predicate LoadsOffDisk(r: Request) {
    var load := LoadFor(r.bs, r.file, Index(r.bs, r.start + r.n));
    Idle(r) && load.Some? && !WordOnDisk(|r.d|, load.value)
  }

  // The block number of a block that the file uses is on the disk.
  lemma UsedLoadIsOnDisk(r: Request, li: nat)
    requires LayoutOk(r.d, r.bs, r.file) && Used(r.bs, r.file, li) && li >= INDIRECT_BLOCK_IDX
    ensures WordOnDisk(|r.d|, LoadFor(r.bs, r.file, li).value)
  {
    UsedFits(r.bs, r.file, li);
    if li > INDIRECT_BLOCK_IDX { StartGrows(r.bs, INDIRECT_BLOCK_IDX, li); }
    var h := 0;
    assert Held(r.bs, r.file, h);
    assert OnDisk(r.d, r.bs, Holding(r.d, r.bs, r.file, h));
  }

  const TWELVE_BLOCKS := Inode(24576, [1, 2, 3, 4, 5, 6, 7, 8, 9, 10, 11, 12, 0, 0, 0])

  // A file of exactly twelve blocks of 2048 bytes, read as a whole: the loop goes on to an indirect block that does
  // not exist.
  lemma LoadsOffDiskHappen()
    ensures var r := Request(Filled(25600, 0), 2048, TWELVE_BLOCKS, 0, 24576);
      Possible(r) && Distinct(r.d, r.bs, r.file) && Straight(r) && LoadsOffDisk(r)
  {
    var d := Filled(25600, 0);
    forall h: nat | Held(2048, TWELVE_BLOCKS, h)
      ensures Holding(d, 2048, TWELVE_BLOCKS, h) == h && OnDisk(d, 2048, h)
    {
      StartIsProduct(2048, if h == 0 then INDIRECT_BLOCK_IDX else h - 1);
    }
    StartIsProduct(2048, DIRECT_BLOCKS + IndirectDataBlockSize(2048));
    StartIsProduct(2048, 12);
    IndexIs(2048, 24576, 12);
  }

  const TWO_BLOCKS := Inode(2048, [1, 3, 0, 0, 0, 0, 0, 0, 0, 0, 0, 0, 0, 0, 0])

  // Two blocks with a block between them, and an access of a hundred bytes from 24 before the end of the first.
  lemma StraddlingHappens()
    ensures var r := Request(Filled(8192, 0), 1024, TWO_BLOCKS, 1000, 100);
      Possible(r) && Distinct(r.d, r.bs, r.file) && !Straight(r)
  {
    var d := Filled(8192, 0);
    forall h: nat | Held(1024, TWO_BLOCKS, h)
      ensures Holding(d, 1024, TWO_BLOCKS, h) == (if h == 1 then 1 else 3)
      ensures OnDisk(d, 1024, Holding(d, 1024, TWO_BLOCKS, h)) && 1 <= h <= 2
    {
      StartIsProduct(1024, if h == 0 then INDIRECT_BLOCK_IDX else h - 1);
    }
    StartIsProduct(1024, DIRECT_BLOCKS + IndirectDataBlockSize(1024));
    IndexIs(1024, 1000, 0);
  }

  function Filled(n: nat, b: Byte): (s: seq<Byte>)
    ensures |s| == n && forall i :: 0 <= i < n ==> s[i] == b
  {
    if n == 0 then [] else Filled(n - 1, b) + [b]
  }
}
