/**
Reading a file's bytes (ext2_read_file_by_inode in src/fs/ext2/read_ext2.c) and writing them in place
(ext2_write_file_by_inode in src/fs/ext2/write_ext2.c).
*/
module Ext2Files {
  import opened Ext2Layout
  import opened Options

  const WRITE_NON_CONTIGUOUS := 3

  // One pass of either loop covers bytes [done, done + len), from disk offset at.
  ghost predicate Covers(r: Request, done: nat, len: nat, at: nat) {
    done + len <= r.n && at + len <= |r.d| && forall j :: done <= j < done + len ==> Reached(r, j) == at + (j - done)
  }

  // Where the loops are when `done` bytes are done: in logical block `li`, `offset` bytes into it.
  ghost predicate Place(r: Request, done: nat, li: nat, offset: nat) {
    && done <= r.n && li == Index(r.bs, r.start + done) && offset == Within(r.bs, r.start + done)
    && (done > 0 ==> offset == 0) && (Straddles(r.bs, r.start, r.n) ==> done == 0)
  }

  // The loops' two counters at logical block li
  ghost predicate Counters(inodeBlockIdx: nat, indirectIdx: nat, li: nat) {
    inodeBlockIdx <= INDIRECT_BLOCK_IDX && li == inodeBlockIdx + indirectIdx
      && (indirectIdx > 0 ==> inodeBlockIdx == INDIRECT_BLOCK_IDX)
  }

  // How much a pass copies
  function PassLength(bs: BlockBytes, offset: nat, remaining: nat): int {
    if remaining < bs then remaining else bs - offset
  }

  function DataAt(r: Request, li: nat, offset: nat): nat { Offset(r.bs, Block(r.d, r.bs, r.file, li)) + offset }

  lemma PassCovers(r: Request, done: nat, li: nat, offset: nat)
    requires Possible(r) && Place(r, done, li, offset) && done < r.n
    ensures Covers(r, done, PassLength(r.bs, offset, r.n - done), DataAt(r, li, offset))
    ensures li < DIRECT_BLOCKS + IndirectDataBlockSize(r.bs)
  {
    var len := PassLength(r.bs, offset, r.n - done);
    assert Used(r.bs, r.file, li);
    BlockOnDisk(r.d, r.bs, r.file, li);
    UsedFits(r.bs, r.file, li);
    if !Straddles(r.bs, r.start, r.n) {
      forall j | done <= j < done + len ensures Reached(r, j) == DataAt(r, li, offset) + (j - done) {
        IndexIs(r.bs, r.start + j, li);
      }
    }
  }

  // After a pass that reaches the end of its block
  lemma NextPlace(r: Request, done: nat, li: nat, offset: nat)
    requires Place(r, done, li, offset) && r.n - done >= r.bs
    ensures Place(r, done + r.bs - offset, li + 1, 0)
  {
    IndexIs(r.bs, r.start + done + r.bs - offset, li + 1);
  }

  // All these words are on a disk of that size.
  ghost predicate AllOnDisk(size: nat, loads: seq<int>) { forall i :: 0 <= i < |loads| ==> WordOnDisk(size, loads[i]) }

  ghost function Noted(loads: seq<int>, load: Option<int>): seq<int> {
    if load.Some? then loads + [load.value] else loads
  }

  // The load of a pass is on the disk if something is left to copy.  If not, the pass is an idle one.
  lemma PassLoad(r: Request, done: nat, li: nat, offset: nat, load: Option<int>, loads: seq<int>)
    requires Possible(r) && Place(r, done, li, offset) && (done > 0 ==> r.n >= r.bs)
    requires load == LoadFor(r.bs, r.file, li)
    requires AllOnDisk(|r.d|, loads)
    ensures done < r.n ==> AllOnDisk(|r.d|, Noted(loads, load))
    ensures done < r.n < done + r.bs ==> !LoadsOffDisk(r)
    ensures done == r.n ==> (AllOnDisk(|r.d|, Noted(loads, load)) <==> !LoadsOffDisk(r))
  {
    if done < r.n {
      assert Used(r.bs, r.file, li);
      if load.Some? { UsedLoadIsOnDisk(r, li); }
      if done > 0 && r.n < done + r.bs { IndexIs(r.bs, r.start + r.n, li); }
    } else if load.Some? {
      assert Noted(loads, load)[|loads|] == load.value;
    }
  }

  // ---------------------------------------------------------------- reading

  // bytes is `first` with its first `done` bytes replaced by those the disk holds where the loop reaches.
  ghost predicate Got(r: Request, done: nat, first: seq<Byte>, bytes: seq<Byte>) {
    && done <= |bytes| == |first| && bytes[done..] == first[done..]
    && forall j :: 0 <= j < done ==> Reached(r, j) < |r.d| && bytes[j] == r.d[Reached(r, j)]
  }

  // bytes with a part of another sequence copied into it
  function Copied(bytes: seq<Byte>, to: nat, source: seq<Byte>, from: nat, len: nat): (r: seq<Byte>)
    requires to + len <= |bytes| && from + len <= |source|
    ensures |r| == |bytes|
    ensures forall p :: 0 <= p < |bytes| ==> r[p] == if to <= p < to + len then source[from + (p - to)] else bytes[p]
  {
    seq(|bytes|, p requires 0 <= p < |bytes| => if to <= p < to + len then source[from + (p - to)] else bytes[p])
  }

  lemma GotMore(r: Request, done: nat, len: nat, at: nat, first: seq<Byte>, bytes: seq<Byte>)
    requires Got(r, done, first, bytes) && Covers(r, done, len, at) && r.n <= |bytes|
    ensures Got(r, done + len, first, Copied(bytes, done, r.d, at, len))
  {
    var c := Copied(bytes, done, r.d, at, len);
    assert c[done + len..] == bytes[done..][len..] == first[done..][len..];
    forall j | 0 <= j < done + len ensures Reached(r, j) < |r.d| && c[j] == r.d[Reached(r, j)] {
      assert c[j] == if j < done then bytes[j] else r.d[at + (j - done)];
    }
  }

  // One pass of the read loop
  lemma ReadPass(r: Request, done: nat, li: nat, offset: nat, first: seq<Byte>, bytes: seq<Byte>)
    requires Possible(r) && Place(r, done, li, offset) && done < r.n <= |bytes| && Got(r, done, first, bytes)
    ensures var len := PassLength(r.bs, offset, r.n - done);
      && 0 < len && done + len <= r.n && DataAt(r, li, offset) + len <= |r.d|
      && li < DIRECT_BLOCKS + IndirectDataBlockSize(r.bs)
      && Got(r, done + len, first, Copied(bytes, done, r.d, DataAt(r, li, offset), len))
      && (r.n - done >= r.bs ==> Place(r, done + len, li + 1, 0))
  {
    PassCovers(r, done, li, offset);
    GotMore(r, done, PassLength(r.bs, offset, r.n - done), DataAt(r, li, offset), first, bytes);
    if r.n - done >= r.bs { NextPlace(r, done, li, offset); }
  }

  lemma ReadBytes(r: Request, first: seq<Byte>, bytes: seq<Byte>)
    requires Possible(r) && Straight(r) && Got(r, r.n, first, bytes) && r.start + r.n <= r.file.size
    ensures forall j :: 0 <= j < r.n ==> bytes[j] == Contents(r.d, r.bs, r.file)[r.start + j]
  {
    ReachesTheBytesIffStraight(r);
    forall j | 0 <= j < r.n ensures bytes[j] == Contents(r.d, r.bs, r.file)[r.start + j] {
      assert Reached(r, j) == Pos(r.d, r.bs, r.file, r.start + j);
    }
  }

  // What a read of a straight range gives back is that part of the file.
  lemma ReadGivesTheFile(r: Request, first: seq<Byte>, bytes: seq<Byte>)
    requires Possible(r) && Straight(r) && Got(r, r.n, first, bytes) && r.start + r.n <= r.file.size
    ensures bytes == Contents(r.d, r.bs, r.file)[r.start..r.start + r.n] + first[r.n..]
  {
    ReadBytes(r, first, bytes);
    SameSlice(bytes, Contents(r.d, r.bs, r.file), r.start, r.n);
    assert bytes == bytes[..r.n] + bytes[r.n..];
  }

  lemma SameSlice(s: seq<Byte>, t: seq<Byte>, from: nat, n: nat)
    requires n <= |s| && from + n <= |t| && forall j :: 0 <= j < n ==> s[j] == t[from + j]
    ensures s[..n] == t[from..from + n]
  {
  }

  // ---------------------------------------------------------------- writing

  // d is the request's disk with the first `done` bytes of buf where the loop reaches.
  ghost predicate Put(r: Request, done: nat, buf: seq<Byte>, d: seq<Byte>) {
    && |d| == |r.d| && done <= r.n <= |buf|
    && (forall j :: 0 <= j < done ==> Reached(r, j) < |d| && d[Reached(r, j)] == buf[j])
    && forall p :: 0 <= p < |d| && !Touched(r, done, p) ==> d[p] == r.d[p]
  }

  ghost predicate Touched(r: Request, done: nat, p: nat) { exists j :: 0 <= j < done && Reached(r, j) == p }

  lemma ReachedInjective(r: Request, j: nat, k: nat)
    requires Possible(r) && Distinct(r.d, r.bs, r.file) && j < k < r.n
    ensures Reached(r, j) != Reached(r, k)
  {
    if !Straddles(r.bs, r.start, r.n) { PosInjective(r.d, r.bs, r.file, r.start + j, r.start + k); }
  }

  // A pass does not come back to a byte that it has put.
  lemma PassIsNew(r: Request, done: nat, len: nat, at: nat, j: nat)
    requires Possible(r) && Distinct(r.d, r.bs, r.file) && Covers(r, done, len, at) && j < done
    ensures !(at <= Reached(r, j) < at + len)
  {
    if at <= Reached(r, j) < at + len {
      var k := done + (Reached(r, j) - at);
      assert Reached(r, k) == at + (k - done);
      ReachedInjective(r, j, k);
    }
  }

  lemma PutMore(r: Request, done: nat, len: nat, at: nat, buf: seq<Byte>, d: seq<Byte>)
    requires Possible(r) && Distinct(r.d, r.bs, r.file) && Put(r, done, buf, d) && Covers(r, done, len, at)
    ensures Put(r, done + len, buf, Copied(d, at, buf, done, len))
  {
    var e := Copied(d, at, buf, done, len);
    forall j | 0 <= j < done + len ensures Reached(r, j) < |e| && e[Reached(r, j)] == buf[j] {
      if j < done { PassIsNew(r, done, len, at, j); }
    }
    forall p: nat | p < |e| && !Touched(r, done + len, p) ensures e[p] == r.d[p] {
      PassTouches(r, done, len, at, p);
    }
  }

  lemma PassTouches(r: Request, done: nat, len: nat, at: nat, p: nat)
    requires Covers(r, done, len, at)
    ensures Touched(r, done, p) || at <= p < at + len ==> Touched(r, done + len, p)
  {
    if at <= p < at + len { assert Reached(r, done + (p - at)) == p; }
  }

  // Bytes put at their places in the file leave the lists of blocks alone.
  lemma PutKeepsBlocks(r: Request, done: nat, buf: seq<Byte>, d: seq<Byte>)
    requires Possible(r) && Straight(r) && Distinct(r.d, r.bs, r.file) && Put(r, done, buf, d)
    ensures SameBlocks(r, d)
  {
    if Used(r.bs, r.file, INDIRECT_BLOCK_IDX) {
      var at := Offset(r.bs, r.file.blocks[INDIRECT_BLOCK_IDX]);
      assert OnDisk(r.d, r.bs, Holding(r.d, r.bs, r.file, 0));
      forall p: nat | at <= p < at + r.bs ensures d[p] == r.d[p] { NotABlockNumber(r, done, p); }
    }
    BlocksStay(r, d);
  }

  lemma NotABlockNumber(r: Request, done: nat, p: nat)
    requires Possible(r) && Straight(r) && Distinct(r.d, r.bs, r.file) && done <= r.n
    requires Used(r.bs, r.file, INDIRECT_BLOCK_IDX)
    requires var at := Offset(r.bs, r.file.blocks[INDIRECT_BLOCK_IDX]); at <= p < at + r.bs
    ensures !Touched(r, done, p)
  {
    ReachesTheBytesIffStraight(r);
    forall j | 0 <= j < done ensures Reached(r, j) != p {
      assert Reached(r, j) == Pos(r.d, r.bs, r.file, r.start + j);
      NotInHeldBlock(r.d, r.bs, r.file, 0, p, r.start + j);
    }
  }

  // The block of the next pass is still where it was.
  lemma NextBlockStays(r: Request, done: nat, li: nat, offset: nat, buf: seq<Byte>, d: seq<Byte>)
    requires Possible(r) && Distinct(r.d, r.bs, r.file) && Place(r, done, li, offset) && done < r.n
    requires Put(r, done, buf, d)
    ensures Block(d, r.bs, r.file, li) == Block(r.d, r.bs, r.file, li)
  {
    if Straddles(r.bs, r.start, r.n) {
      assert forall p :: 0 <= p < |d| ==> !Touched(r, 0, p);
      assert d == r.d;
    } else {
      PutKeepsBlocks(r, done, buf, d);
      assert Used(r.bs, r.file, li);
    }
  }

  // One pass of the write loop
  lemma WritePass(r: Request, done: nat, li: nat, offset: nat, buf: seq<Byte>, d: seq<Byte>)
    requires Possible(r) && Distinct(r.d, r.bs, r.file) && Place(r, done, li, offset) && done < r.n
    requires Put(r, done, buf, d)
    ensures var len := PassLength(r.bs, offset, r.n - done);
      && 0 < len && done + len <= r.n && DataAt(r, li, offset) + len <= |r.d|
      && li < DIRECT_BLOCKS + IndirectDataBlockSize(r.bs)
      && Put(r, done + len, buf, Copied(d, DataAt(r, li, offset), buf, done, len))
      && (r.n - done >= r.bs ==> Place(r, done + len, li + 1, 0))
  {
    PassCovers(r, done, li, offset);
    PutMore(r, done, PassLength(r.bs, offset, r.n - done), DataAt(r, li, offset), buf, d);
    if r.n - done >= r.bs { NextPlace(r, done, li, offset); }
  }

  // A byte outside the range keeps its place to itself.
  lemma OutsideIsUntouched(r: Request, k: nat)
    requires Possible(r) && Straight(r) && Distinct(r.d, r.bs, r.file) && r.start + r.n <= r.file.size
    requires k < r.file.size && !(r.start <= k < r.start + r.n)
    ensures !Touched(r, r.n, Pos(r.d, r.bs, r.file, k))
  {
    ReachesTheBytesIffStraight(r);
    forall j | 0 <= j < r.n ensures Reached(r, j) != Pos(r.d, r.bs, r.file, k) {
      assert Reached(r, j) == Pos(r.d, r.bs, r.file, r.start + j);
      if r.start + j < k {
        PosInjective(r.d, r.bs, r.file, r.start + j, k);
      } else {
        PosInjective(r.d, r.bs, r.file, k, r.start + j);
      }
    }
  }

  lemma WrittenByte(r: Request, buf: seq<Byte>, d: seq<Byte>, k: nat)
    requires Possible(r) && Straight(r) && Distinct(r.d, r.bs, r.file) && Put(r, r.n, buf, d)
    requires r.start + r.n <= r.file.size
    requires k < r.file.size
    ensures var p := Pos(r.d, r.bs, r.file, k);
      ByteAt(d, p) == if r.start <= k < r.start + r.n then buf[k - r.start] else ByteAt(r.d, p)
  {
    if r.start <= k < r.start + r.n {
      ReachesTheBytesIffStraight(r);
      assert Reached(r, k - r.start) == Pos(r.d, r.bs, r.file, r.start + (k - r.start));
    } else {
      OutsideIsUntouched(r, k);
    }
  }

  lemma WriteKeepsLayout(r: Request, buf: seq<Byte>, d: seq<Byte>)
    requires Possible(r) && Straight(r) && Distinct(r.d, r.bs, r.file) && Put(r, r.n, buf, d)
    ensures SameBlocks(r, d) && LayoutOk(d, r.bs, r.file)
  {
    PutKeepsBlocks(r, r.n, buf, d);
    SameLayout(r, d);
  }

  // A straight write splices the buffer into the file's bytes.
  lemma WriteSplices(r: Request, buf: seq<Byte>, d: seq<Byte>)
    requires Possible(r) && Straight(r) && Distinct(r.d, r.bs, r.file) && Put(r, r.n, buf, d)
    requires r.start + r.n <= r.file.size
    ensures forall k :: 0 <= k < r.file.size ==>
      Contents(d, r.bs, r.file)[k] == if r.start <= k < r.start + r.n then buf[k - r.start]
        else Contents(r.d, r.bs, r.file)[k]
  {
    PutKeepsBlocks(r, r.n, buf, d);
    forall k: nat | k < r.file.size
      ensures Contents(d, r.bs, r.file)[k] == if r.start <= k < r.start + r.n then buf[k - r.start]
        else Contents(r.d, r.bs, r.file)[k]
    {
      SamePos(r, d, k);
      WrittenByte(r, buf, d, k);
    }
  }

  // A straddling access reaches the block after its first one, which is not the second if it is not straight.
  lemma StraddlerMisses(r: Request, j: nat, x: nat)
    requires Possible(r) && !Straight(r) && Distinct(r.d, r.bs, r.file) && j < r.n && x < r.bs
    ensures Reached(r, j) != Offset(r.bs, Block(r.d, r.bs, r.file, Index(r.bs, r.start) + 1)) + x
  {
    var i, k := Index(r.bs, r.start), Within(r.bs, r.start) + j;
    var a, b := Block(r.d, r.bs, r.file, i), Block(r.d, r.bs, r.file, i + 1);
    StraddledBlocks(r);
    BlocksDiffer(r.d, r.bs, r.file, i, i + 1);
    BlocksApart(r.bs, a, a + 1);
    if k < r.bs { InApart(r.bs, a, b, k, x); } else { InApart(r.bs, a + 1, b, k - r.bs, x); }
  }

  // A write that is not straight leaves the part of the range in the second block as it was.
  lemma StraddlingWriteMisses(r: Request, buf: seq<Byte>, d: seq<Byte>, k: nat)
    requires Possible(r) && !Straight(r) && Distinct(r.d, r.bs, r.file) && Put(r, r.n, buf, d)
    requires r.start <= k < r.start + r.n && Index(r.bs, k) != Index(r.bs, r.start)
    ensures var p := Pos(r.d, r.bs, r.file, k); p < |d| && d[p] == r.d[p]
  {
    var at := Within(r.bs, r.start) + (k - r.start);
    PosOnDisk(r.d, r.bs, r.file, k);
    StraddledPos(r, k - r.start);
    if at < r.bs { IndexIs(r.bs, k, Index(r.bs, r.start)); }
    forall j | 0 <= j < r.n ensures Reached(r, j) != Pos(r.d, r.bs, r.file, k) { StraddlerMisses(r, j, at - r.bs); }
    assert !Touched(r, r.n, Pos(r.d, r.bs, r.file, k));
  }

  // It goes into the block of the disk after the first one instead.
  lemma StraddlingWriteOverwrites(r: Request, buf: seq<Byte>, d: seq<Byte>, j: nat)
    requires Possible(r) && Straddles(r.bs, r.start, r.n) && Put(r, r.n, buf, d)
    requires r.bs - Within(r.bs, r.start) <= j < r.n
    ensures var next := Block(r.d, r.bs, r.file, Index(r.bs, r.start)) + 1; var x := Within(r.bs, r.start) + j - r.bs;
      x < r.bs && Offset(r.bs, next) + x < |d| && d[Offset(r.bs, next) + x] == buf[j]
  {
    var a := Block(r.d, r.bs, r.file, Index(r.bs, r.start));
    StraddledBlocks(r);
    BlocksApart(r.bs, a, a + 1);
    assert Reached(r, j) == Offset(r.bs, a + 1) + (Within(r.bs, r.start) + j - r.bs);
  }

  ghost predicate IsSpliced(r: Request, buf: seq<Byte>, d: seq<Byte>) {
    r.start + r.n <= r.file.size && r.n <= |buf| && forall k :: 0 <= k < r.file.size ==>
      Contents(d, r.bs, r.file)[k] == if r.start <= k < r.start + r.n then buf[k - r.start]
        else Contents(r.d, r.bs, r.file)[k]
  }

  // Whatever is stored and whatever the buffer, what the write loop leaves of the file is the splice, exactly when the
  // access is straight.
  lemma WritesTheFileIffStraight(r: Request)
    requires Possible(r) && Distinct(r.d, r.bs, r.file) && r.start + r.n <= r.file.size
    ensures Straight(r) <==> forall q: Request, buf, d ::
      q == r.(d := q.d) && SameBlocks(r, q.d) && Put(q, q.n, buf, d) ==> IsSpliced(q, buf, d)
  {
    if Straight(r) {
      forall q: Request, buf, d | q == r.(d := q.d) && SameBlocks(r, q.d) && Put(q, q.n, buf, d)
        ensures IsSpliced(q, buf, d)
      {
        SameRequest(r, q.d);
        WriteSplices(q, buf, d);
      }
    } else {
      var q, buf := LostWrite(r);
      assert Put(q, q.n, buf, q.d) && !IsSpliced(q, buf, q.d);
    }
  }

  // A straddling write of what the disk holds where the loop reaches changes nothing, and the file need not hold that.
  lemma LostWrite(r: Request) returns (q: Request, buf: seq<Byte>)
    requires Possible(r) && Distinct(r.d, r.bs, r.file) && !Straight(r) && r.start + r.n <= r.file.size
    ensures q == r.(d := q.d) && SameBlocks(r, q.d) && Put(q, q.n, buf, q.d) && !IsSpliced(q, buf, q.d)
  {
    var j: nat;
    q, j := OtherDisk(r);
    SameRequest(r, q.d);
    PosOnDisk(q.d, q.bs, q.file, q.start + j);
    buf := PutsBack(q);
    NotSpliced(q, buf, j);
  }

  lemma OtherDisk(r: Request) returns (q: Request, j: nat)
    requires Possible(r) && Distinct(r.d, r.bs, r.file) && !Straight(r) && r.start + r.n <= r.file.size
    ensures q == r.(d := q.d) && SameBlocks(r, q.d) && j < q.n && !ReachesRight(q, q.d, j)
  {
    ReachesTheBytesIffStraight(r);
    j :| j < r.n && Reached(r, j) != Pos(r.d, r.bs, r.file, r.start + j);
    var d := OtherContents(r, j);
    q := r.(d := d);
    SamePos(r, q.d, r.start);
    assert Reached(q, j) == Reached(r, j);
  }

  lemma PutsBack(r: Request) returns (buf: seq<Byte>)
    requires Possible(r) && Straddles(r.bs, r.start, r.n)
    ensures Put(r, r.n, buf, r.d)
  {
    var at := Pos(r.d, r.bs, r.file, r.start);
    buf := r.d[at..at + r.n];
  }

  lemma NotSpliced(r: Request, buf: seq<Byte>, j: nat)
    requires Put(r, r.n, buf, r.d) && j < r.n && r.start + j < r.file.size && !ReachesRight(r, r.d, j)
    requires Pos(r.d, r.bs, r.file, r.start + j) < |r.d|
    ensures !IsSpliced(r, buf, r.d)
  {
    assert buf[j] == r.d[Reached(r, j)];
    assert Contents(r.d, r.bs, r.file)[r.start + j] == ByteAt(r.d, Pos(r.d, r.bs, r.file, r.start + j));
  }

  // Another file shares no block with the written one.
  ghost predicate Disjoint(r: Request, other: Inode) {
    forall g: nat, h: nat :: Held(r.bs, r.file, g) && Held(r.bs, other, h) ==>
      Holding(r.d, r.bs, r.file, g) != Holding(r.d, r.bs, other, h)
  }

  // A straight write changes no byte of a file with other blocks.
  lemma OtherFilesStay(r: Request, buf: seq<Byte>, d: seq<Byte>, other: Inode)
    requires Possible(r) && Straight(r) && Put(r, r.n, buf, d) && r.start + r.n <= r.file.size
    requires LayoutOk(r.d, r.bs, other) && Disjoint(r, other)
    ensures LayoutOk(d, r.bs, other) && Contents(d, r.bs, other) == Contents(r.d, r.bs, other)
  {
    var q := Request(r.d, r.bs, other, 0, 0);
    ReachesTheBytesIffStraight(r);
    if Used(r.bs, other, INDIRECT_BLOCK_IDX) { OtherBlockStays(r, buf, d, other, 0); }
    BlocksStay(q, d);
    SameLayout(q, d);
    forall k | 0 <= k < other.size ensures Contents(d, r.bs, other)[k] == Contents(r.d, r.bs, other)[k] {
      SamePos(q, d, k);
      PosOnDisk(r.d, r.bs, other, k);
      OtherBlockStays(r, buf, d, other, Index(r.bs, k) + 1);
    }
  }

  lemma OtherBlockStays(r: Request, buf: seq<Byte>, d: seq<Byte>, other: Inode, h: nat)
    requires LayoutOk(r.d, r.bs, r.file) && Put(r, r.n, buf, d) && r.start + r.n <= r.file.size
    requires LayoutOk(r.d, r.bs, other) && Disjoint(r, other) && Held(r.bs, other, h)
    requires forall j :: 0 <= j < r.n ==> Reached(r, j) == Pos(r.d, r.bs, r.file, r.start + j)
    ensures var at := Offset(r.bs, Holding(r.d, r.bs, other, h)); Agree(r.d, d, at, at + r.bs)
  {
    var number := Holding(r.d, r.bs, other, h);
    assert OnDisk(r.d, r.bs, number);
    forall p: nat | Offset(r.bs, number) <= p < Offset(r.bs, number) + r.bs ensures d[p] == r.d[p] {
      forall j | 0 <= j < r.n ensures Reached(r, j) != p { NotInOtherBlock(r, other, h, p, r.start + j); }
      assert !Touched(r, r.n, p);
    }
  }

  lemma NotInOtherBlock(r: Request, other: Inode, h: nat, p: nat, k: nat)
    requires LayoutOk(r.d, r.bs, r.file) && k < r.file.size
    requires LayoutOk(r.d, r.bs, other) && Disjoint(r, other) && Held(r.bs, other, h)
    requires var at := Offset(r.bs, Holding(r.d, r.bs, other, h)); at <= p < at + r.bs
    ensures Pos(r.d, r.bs, r.file, k) != p
  {
    var i := Index(r.bs, k);
    var g := i + 1;
    assert Held(r.bs, r.file, g);
    var a, b := Holding(r.d, r.bs, r.file, g), Holding(r.d, r.bs, other, h);
    assert OnDisk(r.d, r.bs, a) && OnDisk(r.d, r.bs, b);
    InApart(r.bs, a, b, Within(r.bs, k), p - Offset(r.bs, b));
  }

  // Reading the range that has been written gives the buffer back.
  lemma ReadAfterWrite(r: Request, buf: seq<Byte>, d: seq<Byte>, first: seq<Byte>, bytes: seq<Byte>)
    requires Possible(r) && Straight(r) && Distinct(r.d, r.bs, r.file) && Put(r, r.n, buf, d)
    requires r.start + r.n <= r.file.size
    requires Got(r.(d := d), r.n, first, bytes)
    ensures bytes[..r.n] == buf[..r.n]
  {
    PutKeepsBlocks(r, r.n, buf, d);
    forall j | 0 <= j < r.n ensures bytes[j] == buf[j] {
      SamePos(r, d, r.start);
      SamePos(r, d, r.start + j);
      assert Reached(r.(d := d), j) == Reached(r, j);
    }
  }

  class Context {
    const disk: array<Byte>
    const logarithmicBlockSize: nat

    constructor (disk: array<Byte>, logarithmicBlockSize: nat)
      ensures this.disk == disk && this.logarithmicBlockSize == logarithmicBlockSize
    {
      this.disk, this.logarithmicBlockSize := disk, logarithmicBlockSize;
    }

    // _kmemcpy
    static method CopyBytes(target: array<Byte>, to: nat, source: array<Byte>, from: nat, len: nat)
      requires target != source && to + len <= target.Length && from + len <= source.Length
      modifies target
      ensures target[..] == Copied(old(target[..]), to, source[..], from, len)
    {
      var i := 0;
      while i < len
        invariant 0 <= i <= len && target[..] == Copied(old(target[..]), to, source[..], from, i)
      {
        target[to + i] := source[from + i];
        i := i + 1;
      }
    }

    // Where both loops begin: the counters, and the offset into the first block
    static method StartAt(bs: BlockBytes, start: nat) returns (inodeBlockIdx: nat, indirectIdx: nat, offset: nat)
      ensures Counters(inodeBlockIdx, indirectIdx, Index(bs, start)) && offset == Within(bs, start)
    {
      IndexIsQuotient(bs, start);
      var firstInodeBlock: nat := start / bs;
      if firstInodeBlock >= INDIRECT_BLOCK_IDX {
        inodeBlockIdx, indirectIdx := INDIRECT_BLOCK_IDX, firstInodeBlock - INDIRECT_BLOCK_IDX;
      } else {
        inodeBlockIdx, indirectIdx := firstInodeBlock, 0;
      }
      offset := start % bs;
    }

    // The switch of both loops: the address of logical block li, and the loop counters after it.  In the indirect
    // block the counter of the loop is stepped back, so that the loop's own step holds it still.
    method FollowBlock(bs: BlockBytes, file: Inode, inodeBlockIdx: nat, indirectIdx: nat, offset: nat, ghost li: nat)
      returns (data: nat, nextIdx: nat, nextIndirectIdx: nat, ghost load: Option<int>)
      requires Counters(inodeBlockIdx, indirectIdx, li)
      ensures load == LoadFor(bs, file, li)
      ensures data == Offset(bs, Block(disk[..], bs, file, li)) + offset
      ensures li < DIRECT_BLOCKS + IndirectDataBlockSize(bs) ==> Counters(nextIdx + 1, nextIndirectIdx, li + 1)
    {
      data, nextIdx, nextIndirectIdx := Offset(bs, file.blocks[inodeBlockIdx]) + offset, inodeBlockIdx, indirectIdx;
      load := None;
      if inodeBlockIdx == INDIRECT_BLOCK_IDX {
        var indirectBlock := Offset(bs, file.blocks[inodeBlockIdx]);
        load := Some(AddressOf(bs, file.blocks[inodeBlockIdx]) + 4 * indirectIdx);
        if indirectIdx < IndirectDataBlockSize(bs) { nextIdx := nextIdx - 1; }
        data := Offset(bs, WordAt(disk[..], indirectBlock + 4 * indirectIdx)) + offset;
        nextIndirectIdx := nextIndirectIdx + 1;
      }
    }

    // What one pass of the read loop copies: what is left, or the rest of the block
    method ReadPart(ghost r: Request, ghost li: nat, ghost first: seq<Byte>, buffer: array<Byte>, data: nat,
                    offset: nat, done: nat,
                    remaining: nat)
      returns (copied: nat)
      requires r.d == disk[..] && r.bs == GetBlockSize(logarithmicBlockSize) && Possible(r)
      requires buffer != disk && remaining == r.n - done && 0 < remaining
      requires Place(r, done, li, offset) && Got(r, done, first, buffer[..]) && r.n <= buffer.Length
      requires data == DataAt(r, li, offset)
      modifies buffer
      ensures copied == PassLength(r.bs, offset, remaining) && 0 < copied <= remaining
      ensures li < DIRECT_BLOCKS + IndirectDataBlockSize(r.bs)
      ensures Got(r, done + copied, first, buffer[..]) && (remaining >= r.bs ==> Place(r, done + copied, li + 1, 0))
    {
      var bs := GetBlockSize(logarithmicBlockSize);
      ReadPass(r, done, li, offset, first, buffer[..]);
      copied := if remaining < bs then remaining else bs - offset;
      CopyBytes(buffer, done, disk, data, copied);
    }

    // The loop of ext2_read_file_by_inode
    method ReadBlocks(ghost r: Request, bs: BlockBytes, file: Inode, buffer: array<Byte>, start: nat, n: nat)
      returns (ghost loads: seq<int>)
      requires r == Request(disk[..], bs, file, start, n) && Possible(r) && buffer != disk && n <= buffer.Length
      requires bs == GetBlockSize(logarithmicBlockSize)
      modifies buffer
      ensures Got(r, n, old(buffer[..]), buffer[..]) && (AllOnDisk(disk.Length, loads) <==> !LoadsOffDisk(r))
    {
      var inodeBlockIdx: nat, indirectIdx: nat, offset: nat := StartAt(bs, start);
      var remaining: nat, done: nat := n, 0;
      ghost var li: nat, first := Index(bs, start), buffer[..];
      loads := [];
      while inodeBlockIdx < TOTAL_BLOCKS
        invariant remaining == n - done && disk[..] == r.d
        invariant Place(r, done, li, offset) && Counters(inodeBlockIdx, indirectIdx, li)
        invariant Got(r, done, first, buffer[..])
        invariant AllOnDisk(disk.Length, loads) && (done > 0 ==> n >= bs)
        decreases remaining
      {
        // Blocks 13 and 14, the double and triple indirect ones, would be a panic.
        assert inodeBlockIdx <= INDIRECT_BLOCK_IDX;
        var data;
        ghost var load;
        data, inodeBlockIdx, indirectIdx, load := FollowBlock(bs, file, inodeBlockIdx, indirectIdx, offset, li);
        PassLoad(r, done, li, offset, load, loads);
        loads := Noted(loads, load);
        // With nothing left the source copies no bytes and leaves the loop as well.
        if remaining == 0 { break; }
        var copied := ReadPart(r, li, first, buffer, data, offset, done, remaining);
        done, li := done + copied, li + 1;
        if remaining < bs {
          remaining := 0;
          break;
        }
        remaining := remaining - copied;
        offset := 0;
        inodeBlockIdx := inodeBlockIdx + 1;
      }
    }

    // ext2_read_file_by_inode, on the inode
    method ReadFile(file: Inode, buffer: array<Byte>, start: nat, nbytes: nat)
      returns (count: nat, ghost loads: seq<int>)
      requires buffer != disk && nbytes <= buffer.Length && start + nbytes < 0x1_0000_0000
      requires Possible(Request(disk[..], GetBlockSize(logarithmicBlockSize), file, start, Clamp(file, start, nbytes)))
      modifies buffer
      ensures start > file.size ==> count == 0
      ensures start <= file.size ==> count == if nbytes < file.size - start then nbytes else file.size - start
      ensures var r := Request(disk[..], GetBlockSize(logarithmicBlockSize), file, start, count);
        Got(r, count, old(buffer[..]), buffer[..]) && (AllOnDisk(disk.Length, loads) <==> !LoadsOffDisk(r))
    {
      count := nbytes;
      if file.size < nbytes + start {
        if start > file.size { count := 0; } else { count := file.size - start; }
      }
      ghost var r := Request(disk[..], GetBlockSize(logarithmicBlockSize), file, start, count);
      loads := ReadBlocks(r, GetBlockSize(logarithmicBlockSize), file, buffer, start, count);
    }

    // What one pass of the write loop copies
    method WritePart(ghost r: Request, ghost li: nat, buffer: array<Byte>, data: nat, offset: nat, done: nat,
                     remaining: nat)
      returns (copied: nat)
      requires r.bs == GetBlockSize(logarithmicBlockSize) && Possible(r) && Distinct(r.d, r.bs, r.file)
      requires buffer != disk && remaining == r.n - done && 0 < remaining
      requires Place(r, done, li, offset) && Put(r, done, buffer[..], disk[..]) && data == DataAt(r, li, offset)
      modifies disk
      ensures copied == PassLength(r.bs, offset, remaining) && 0 < copied <= remaining
      ensures li < DIRECT_BLOCKS + IndirectDataBlockSize(r.bs)
      ensures Put(r, done + copied, buffer[..], disk[..]) && (remaining >= r.bs ==> Place(r, done + copied, li + 1, 0))
    {
      var bs := GetBlockSize(logarithmicBlockSize);
      ghost var d, buf := disk[..], buffer[..];
      WritePass(r, done, li, offset, buf, d);
      copied := if remaining < bs then remaining else bs - offset;
      CopyBytes(disk, data, buffer, done, copied);
      assert buffer[..] == buf && disk[..] == Copied(d, data, buf, done, copied);
    }

    // The loop of ext2_write_file_by_inode
    method WriteBlocks(ghost r: Request, bs: BlockBytes, file: Inode, buffer: array<Byte>, start: nat, n: nat)
      returns (ghost loads: seq<int>)
      requires r == Request(disk[..], bs, file, start, n) && Possible(r) && Distinct(r.d, bs, file)
      requires buffer != disk && n <= buffer.Length && bs == GetBlockSize(logarithmicBlockSize)
      modifies disk
      ensures Put(r, n, buffer[..], disk[..]) && (AllOnDisk(disk.Length, loads) <==> !LoadsOffDisk(r))
    {
      var inodeBlockIdx: nat, indirectIdx: nat, offset: nat := StartAt(bs, start);
      var remaining: nat, done: nat := n, 0;
      ghost var li: nat := Index(bs, start);
      loads := [];
      while inodeBlockIdx < TOTAL_BLOCKS
        invariant remaining == n - done
        invariant Place(r, done, li, offset) && Counters(inodeBlockIdx, indirectIdx, li)
        invariant Put(r, done, buffer[..], disk[..])
        invariant AllOnDisk(disk.Length, loads) && (done > 0 ==> n >= bs)
        decreases remaining
      {
        // Blocks 13 and 14, the double and triple indirect ones, would be a panic.
        assert inodeBlockIdx <= INDIRECT_BLOCK_IDX;
        var data;
        ghost var load;
        data, inodeBlockIdx, indirectIdx, load := FollowBlock(bs, file, inodeBlockIdx, indirectIdx, offset, li);
        PassLoad(r, done, li, offset, load, loads);
        loads := Noted(loads, load);
        // With nothing left the source copies no bytes and leaves the loop as well.
        if remaining == 0 { break; }
        NextBlockStays(r, done, li, offset, buffer[..], disk[..]);
        var copied := WritePart(r, li, buffer, data, offset, done, remaining);
        done, li := done + copied, li + 1;
        if remaining < bs {
          remaining := 0;
          break;
        }
        remaining := remaining - copied;
        offset := 0;
        inodeBlockIdx := inodeBlockIdx + 1;
      }
    }

    // ext2_write_file_by_inode, on the inode, where the file need not grow
    method WriteFile(file: Inode, buffer: array<Byte>, start: nat, nbytes: nat)
      returns (count: nat, ghost loads: seq<int>)
      requires buffer != disk && nbytes <= buffer.Length && start + nbytes < 0x1_0000_0000
      requires start + nbytes <= file.size || start > file.size
      requires var bs := GetBlockSize(logarithmicBlockSize);
        start <= file.size ==> Possible(Request(disk[..], bs, file, start, nbytes)) && Distinct(disk[..], bs, file)
      modifies disk
      ensures start <= file.size ==> count == nbytes
      ensures var r := Request(old(disk[..]), GetBlockSize(logarithmicBlockSize), file, start, nbytes);
        start <= file.size ==>
          Put(r, nbytes, buffer[..], disk[..]) && (AllOnDisk(disk.Length, loads) <==> !LoadsOffDisk(r))
      ensures start > file.size ==> count == WRITE_NON_CONTIGUOUS && disk[..] == old(disk[..])
    {
      if file.size < nbytes + start { return WRITE_NON_CONTIGUOUS, []; }
      ghost var r := Request(disk[..], GetBlockSize(logarithmicBlockSize), file, start, nbytes);
      loads := WriteBlocks(r, GetBlockSize(logarithmicBlockSize), file, buffer, start, nbytes);
      count := nbytes;
    }
  }
}
