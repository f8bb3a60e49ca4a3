/**
Two-level page tables as src/kernel/memory/paging.c lays them out: 32-bit paging, section 4.3 of volume 3A
of the Intel 64 and IA-32 Architectures Software Developer's Manual.  Physical memory is a map from frame
number to 1024 words.
*/
module PageTables {
  import opened Options
  import opened Types

  const ENTRIES := 1024
  const PG_PRESENT := 1
  const PG_READ_WRITE := 2
  const SELF_INDEX := 1023
  const NOT_MAPPED := 0xFFFF_FFFF

  // Directory indices of user space, 4 MiB to 3 GiB; the kernel's tables start at KERNEL_INDEX.
  const USER_INDEX := 1
  const KERNEL_INDEX := 768
  const RESERVED_ADDR_LO := 0x40_0000
  const RESERVED_ADDR_HI := 0xC000_0000

  type Word = w: int | 0 <= w < WORD_RANGE
  type Page = p: seq<Word> | |p| == ENTRIES witness Zeros(ENTRIES)
  type Memory = map<nat, Page>

  function Zeros(n: nat): (s: seq<Word>)
    ensures |s| == n && forall i :: 0 <= i < n ==> s[i] == 0
  {
    if n == 0 then [] else [0] + Zeros(n - 1)
  }

  function PageAt(m: Memory, frame: nat): Page {
    if frame in m then m[frame] else Zeros(ENTRIES)
  }

  function Put(m: Memory, frame: nat, i: nat, w: Word): Memory
    requires i < ENTRIES
  {
    m[frame := PageAt(m, frame)[i := w]]
  }

  // ---------------------------------------------------------------- entries

  function Flags(entry: nat): (flags: nat)
    ensures flags < PAGE_SIZE && entry == FrameOf(entry) * PAGE_SIZE + flags
  {
    entry % PAGE_SIZE
  }

  predicate Present(entry: nat) { entry % 2 == 1 }

  // frame address | (flags & 0xFFF) | PG_PRESENT
  function Entry(frame: nat, flags: nat): nat {
    frame * PAGE_SIZE + (if flags % 2 == 1 then flags % PAGE_SIZE else flags % PAGE_SIZE + PG_PRESENT)
  }

  lemma LowBit(frame: nat, low: nat)
    requires low < PAGE_SIZE
    ensures (frame * PAGE_SIZE + low) % 2 == low % 2 && (frame * PAGE_SIZE + low) / PAGE_SIZE == frame
    ensures (frame * PAGE_SIZE + low) % PAGE_SIZE == low
  {
    assert frame * PAGE_SIZE == 2 * (2048 * frame);
  }

  lemma FlagBit(flags: nat)
    ensures flags % PAGE_SIZE % 2 == flags % 2
  {
    assert flags == 2 * (2048 * (flags / PAGE_SIZE)) + flags % PAGE_SIZE;
  }

  lemma EntryParts(frame: nat, flags: nat)
    ensures FrameOf(Entry(frame, flags)) == frame && Present(Entry(frame, flags))
    ensures Flags(Entry(frame, flags)) == if Present(flags) then Flags(flags) else Flags(flags) + PG_PRESENT
    ensures frame < 0x10_0000 ==> Entry(frame, flags) < WORD_RANGE
  {
    FlagBit(flags);
    LowBit(frame, if flags % 2 == 1 then flags % PAGE_SIZE else flags % PAGE_SIZE + PG_PRESENT);
  }

  // ---------------------------------------------------------------- directories

  function Pde(m: Memory, dir: nat, d: nat): Word
    requires d < ENTRIES
  {
    PageAt(m, dir)[d]
  }

  function TableOf(m: Memory, dir: nat, d: nat): nat
    requires d < ENTRIES
  {
    FrameOf(Pde(m, dir, d))
  }

  function Pte(m: Memory, dir: nat, d: nat, t: nat): Word
    requires d < ENTRIES && t < ENTRIES
  {
    PageAt(m, TableOf(m, dir, d))[t]
  }

  // The finite map a directory stands for: the entry of page d * 1024 + t.
  function Lookup(m: Memory, dir: nat, d: nat, t: nat): Option<Word>
    requires d < ENTRIES && t < ENTRIES
  {
    if Present(Pde(m, dir, d)) && Present(Pte(m, dir, d, t)) then Some(Pte(m, dir, d, t)) else None
  }

  // Entries are present or all zero, as map, unmap and clear leave them.
  ghost predicate Clean(m: Memory, dir: nat) {
    && (forall d :: 0 <= d < SELF_INDEX && Pde(m, dir, d) != 0 ==> Present(Pde(m, dir, d)))
    && (forall d, t :: 0 <= d < SELF_INDEX && 0 <= t < ENTRIES && Present(Pde(m, dir, d)) ==>
          Pte(m, dir, d, t) != 0 ==> Present(Pte(m, dir, d, t)))
  }

  // The tables of a directory are frames of their own.
  ghost predicate Apart(m: Memory, dir: nat) {
    && (forall d :: 0 <= d < SELF_INDEX && Present(Pde(m, dir, d)) ==> TableOf(m, dir, d) != dir)
    && (forall d, e ::
          0 <= d < e < SELF_INDEX && Present(Pde(m, dir, d)) && Present(Pde(m, dir, e)) ==>
            TableOf(m, dir, d) != TableOf(m, dir, e))
  }

  // The last entry maps the directory back to itself.
  ghost predicate SelfMapped(m: Memory, dir: nat) {
    Present(Pde(m, dir, SELF_INDEX)) && TableOf(m, dir, SELF_INDEX) == dir
  }

  ghost predicate WellFormed(m: Memory, dir: nat) {
    Clean(m, dir) && Apart(m, dir) && SelfMapped(m, dir)
  }

  // The directory and its tables are not free.
  ghost predicate Settled(m: Memory, dir: nat, free: set<nat>) {
    && dir !in free
    && forall d :: 0 <= d < SELF_INDEX && Present(Pde(m, dir, d)) ==> TableOf(m, dir, d) !in free
  }

  // ---------------------------------------------------------------- the three kinds of change

  function SetPte(m: Memory, dir: nat, d: nat, t: nat, w: Word): Memory
    requires d < ENTRIES && t < ENTRIES
  {
    Put(m, TableOf(m, dir, d), t, w)
  }

  // A new, empty table behind directory entry d.
  function AddTable(m: Memory, dir: nat, d: nat, entry: Word): Memory
    requires d < ENTRIES
  {
    Put(m, dir, d, entry)[FrameOf(entry) := Zeros(ENTRIES)]
  }

  function DropTable(m: Memory, dir: nat, d: nat): Memory
    requires d < ENTRIES
  {
    Put(m, dir, d, 0)
  }

  // The two memories hold the same page in every frame but two.
  ghost predicate SameOutside(m: Memory, m': Memory, f: nat, g: nat) {
    forall h: nat :: h != f && h != g ==> PageAt(m', h) == PageAt(m, h)
  }

  // No page but (d, t) changed its mapping.
  ghost predicate OthersKept(m: Memory, m': Memory, dir: nat, d: nat, t: nat) {
    forall e: nat, u: nat :: e < SELF_INDEX && u < ENTRIES && (e != d || u != t) ==>
      Lookup(m', dir, e, u) == Lookup(m, dir, e, u)
  }

  // What mapping page (d, t) does: no other page and no other directory entry changes, and nothing outside the
  // directory and the table; a table that was missing is in a frame that was free.
  ghost predicate Mapped(m: Memory, dir: nat, d: nat, t: nat, entry: nat, m': Memory, free: set<nat>, free': set<nat>)
    requires d < SELF_INDEX && t < ENTRIES
  {
    && Lookup(m, dir, d, t) == None && Lookup(m', dir, d, t) == Some(entry) && OthersKept(m, m', dir, d, t)
    && (forall e: nat :: e < ENTRIES && e != d ==> Pde(m', dir, e) == Pde(m, dir, e))
    && WellFormed(m', dir) && Settled(m', dir, free')
    && SameOutside(m, m', dir, TableOf(m', dir, d))
    && if Present(Pde(m, dir, d)) then free' == free && Pde(m', dir, d) == Pde(m, dir, d)
       else TableOf(m', dir, d) in free && free' == free - {TableOf(m', dir, d)}
            && Pde(m', dir, d) == TableOf(m', dir, d) * PAGE_SIZE + PG_READ_WRITE + PG_PRESENT
  }

  lemma SetPteEffect(m: Memory, dir: nat, d: nat, t: nat, w: Word, m': Memory)
    requires Apart(m, dir) && d < SELF_INDEX && t < ENTRIES && Present(Pde(m, dir, d)) && m' == SetPte(m, dir, d, t, w)
    ensures PageAt(m', dir) == PageAt(m, dir)
    ensures forall e: nat, u: nat :: e < SELF_INDEX && u < ENTRIES && Present(Pde(m, dir, e)) ==>
              Pte(m', dir, e, u) == if e == d && u == t then w else Pte(m, dir, e, u)
    ensures SameOutside(m, m', dir, TableOf(m, dir, d))
  {
    assert TableOf(m, dir, d) != dir;
    forall e: nat, u: nat | e < SELF_INDEX && u < ENTRIES && Present(Pde(m, dir, e))
      ensures Pte(m', dir, e, u) == if e == d && u == t then w else Pte(m, dir, e, u)
    {
      assert TableOf(m', dir, e) == TableOf(m, dir, e);
      assert e != d ==> TableOf(m, dir, e) != TableOf(m, dir, d);
    }
  }

  lemma SetPteKeeps(m: Memory, dir: nat, d: nat, t: nat, w: Word, m': Memory, free: set<nat>)
    requires WellFormed(m, dir) && Settled(m, dir, free) && d < SELF_INDEX && t < ENTRIES && Present(Pde(m, dir, d))
    requires m' == SetPte(m, dir, d, t, w) && (w == 0 || Present(w))
    ensures WellFormed(m', dir) && Settled(m', dir, free) && OthersKept(m, m', dir, d, t)
    ensures Lookup(m', dir, d, t) == if w == 0 then None else Some(w)
    ensures TableOf(m', dir, d) == TableOf(m, dir, d)
  {
    SetPteEffect(m, dir, d, t, w, m');
    assert forall e: nat :: e < ENTRIES ==>
      Pde(m', dir, e) == Pde(m, dir, e) && TableOf(m', dir, e) == TableOf(m, dir, e);
  }

  lemma AddTableEffect(m: Memory, dir: nat, d: nat, entry: Word, m': Memory)
    requires d < SELF_INDEX && Present(entry) && FrameOf(entry) != dir && m' == AddTable(m, dir, d, entry)
    requires forall e: nat :: e < SELF_INDEX && Present(Pde(m, dir, e)) ==> TableOf(m, dir, e) != FrameOf(entry)
    ensures forall e: nat :: e < ENTRIES ==> Pde(m', dir, e) == if e == d then entry else Pde(m, dir, e)
    ensures forall u: nat :: u < ENTRIES ==> Pte(m', dir, d, u) == 0
    ensures forall e: nat, u: nat ::
              e < SELF_INDEX && e != d && u < ENTRIES && Present(Pde(m, dir, e)) && TableOf(m, dir, e) != dir ==>
              Pte(m', dir, e, u) == Pte(m, dir, e, u)
    ensures SameOutside(m, m', dir, FrameOf(entry))
  {
  }

  lemma AddTableKeeps(m: Memory, dir: nat, d: nat, entry: Word, m': Memory, free: set<nat>)
    requires WellFormed(m, dir) && Settled(m, dir, free) && d < SELF_INDEX && !Present(Pde(m, dir, d))
    requires Present(entry) && FrameOf(entry) in free && m' == AddTable(m, dir, d, entry)
    ensures WellFormed(m', dir) && Settled(m', dir, free - {FrameOf(entry)})
    ensures TableOf(m', dir, d) == FrameOf(entry) && Present(Pde(m', dir, d))
    ensures forall e: nat :: e < ENTRIES && e != d ==> Pde(m', dir, e) == Pde(m, dir, e)
    ensures forall u: nat :: u < ENTRIES ==> Pte(m', dir, d, u) == 0
    ensures forall e: nat, u: nat :: e < SELF_INDEX && u < ENTRIES ==> Lookup(m', dir, e, u) == Lookup(m, dir, e, u)
    ensures SameOutside(m, m', dir, FrameOf(entry))
  {
    AddTableEffect(m, dir, d, entry, m');
    forall e: nat | e < ENTRIES ensures TableOf(m', dir, e) == if e == d then FrameOf(entry) else TableOf(m, dir, e) {}
  }

  lemma DropTableEffect(m: Memory, dir: nat, d: nat, m': Memory)
    requires Apart(m, dir) && d < SELF_INDEX && m' == DropTable(m, dir, d)
    ensures forall e: nat :: e < ENTRIES ==> Pde(m', dir, e) == if e == d then 0 else Pde(m, dir, e)
    ensures forall e: nat, u: nat :: e < SELF_INDEX && u < ENTRIES && e != d && Present(Pde(m, dir, e)) ==>
              Pte(m', dir, e, u) == Pte(m, dir, e, u)
    ensures SameOutside(m, m', dir, dir)
  {
    assert forall e: nat :: e < ENTRIES && e != d ==> TableOf(m', dir, e) == TableOf(m, dir, e);
  }

  lemma DropTableKeeps(m: Memory, dir: nat, d: nat, m': Memory, free: set<nat>)
    requires WellFormed(m, dir) && Settled(m, dir, free) && d < SELF_INDEX && m' == DropTable(m, dir, d)
    requires forall u: nat :: u < ENTRIES ==> Lookup(m, dir, d, u) == None
    ensures WellFormed(m', dir) && Settled(m', dir, free)
    ensures forall e: nat, u: nat :: e < SELF_INDEX && u < ENTRIES ==> Lookup(m', dir, e, u) == Lookup(m, dir, e, u)
    ensures SameOutside(m, m', dir, dir)
  {
    DropTableEffect(m, dir, d, m');
    assert forall e: nat :: e < ENTRIES && e != d ==> TableOf(m', dir, e) == TableOf(m, dir, e);
  }

  // ---------------------------------------------------------------- unmapping

  predicate EmptyTable(m: Memory, dir: nat, d: nat)
    requires d < ENTRIES
  {
    forall u: nat :: u < ENTRIES ==> !Present(Pte(m, dir, d, u))
  }

  // Memory after page (d, t) is unmapped; a table left empty goes too.
  function Unmapped(m: Memory, dir: nat, d: nat, t: nat): Memory
    requires d < ENTRIES && t < ENTRIES
  {
    if !Present(Pde(m, dir, d)) then m else
    var m1 := SetPte(m, dir, d, t, 0);
    if EmptyTable(m1, dir, d) then DropTable(m1, dir, d) else m1
  }

  predicate LastPage(m: Memory, dir: nat, d: nat, t: nat)
    requires d < ENTRIES && t < ENTRIES
  {
    forall u: nat :: u < ENTRIES && u != t ==> !Present(Pte(m, dir, d, u))
  }

  // The frames that unmapping page (d, t) gives back: the page's, and the table's if no other page is in it.
  ghost function Released(m: Memory, dir: nat, d: nat, t: nat): set<nat>
    requires d < ENTRIES && t < ENTRIES
  {
    if !Present(Pde(m, dir, d)) then {} else
    (if Present(Pte(m, dir, d, t)) then {FrameOf(Pte(m, dir, d, t))} else {}) +
    (if LastPage(m, dir, d, t) then {TableOf(m, dir, d)} else {})
  }

  // f is neither the directory nor one of its tables.
  ghost predicate PlainFrame(m: Memory, dir: nat, f: nat) {
    f != dir && forall e: nat :: e < SELF_INDEX && Present(Pde(m, dir, e)) ==> TableOf(m, dir, e) != f
  }

  lemma EmptyAfter(m: Memory, dir: nat, d: nat, t: nat)
    requires Apart(m, dir) && d < SELF_INDEX && t < ENTRIES && Present(Pde(m, dir, d))
    ensures EmptyTable(SetPte(m, dir, d, t, 0), dir, d) <==> LastPage(m, dir, d, t)
  {
    SetPteEffect(m, dir, d, t, 0, SetPte(m, dir, d, t, 0));
    assert PageAt(SetPte(m, dir, d, t, 0), dir) == PageAt(m, dir);
  }

  // Unmapping changes one page only, and the directory entry exactly when its table is left empty.
  lemma UnmapEffect(m: Memory, dir: nat, d: nat, t: nat, m': Memory)
    requires WellFormed(m, dir) && d < SELF_INDEX && t < ENTRIES && m' == Unmapped(m, dir, d, t)
    ensures WellFormed(m', dir) && Lookup(m', dir, d, t) == None && OthersKept(m, m', dir, d, t)
    ensures forall e: nat :: e < ENTRIES ==>
              Pde(m', dir, e) == if e == d && Present(Pde(m, dir, d)) && LastPage(m, dir, d, t) then 0
                else Pde(m, dir, e)
    ensures Present(Pde(m, dir, d)) ==> SameOutside(m, m', dir, TableOf(m, dir, d))
    ensures !Present(Pde(m, dir, d)) ==> m' == m
  {
    if Present(Pde(m, dir, d)) {
      var m1 := SetPte(m, dir, d, t, 0);
      EmptyAfter(m, dir, d, t);
      SetPteEffect(m, dir, d, t, 0, m1);
      SetPteKeeps(m, dir, d, t, 0, m1, {});
      if EmptyTable(m1, dir, d) {
        DropTableKeeps(m1, dir, d, m', {});
      }
    }
  }

  // What an unmapped page gives back is free to use, unless its frame is itself a table.
  lemma UnmapSettled(m: Memory, dir: nat, d: nat, t: nat, m': Memory, free: set<nat>)
    requires WellFormed(m, dir) && Settled(m, dir, free) && d < SELF_INDEX && t < ENTRIES
    requires m' == Unmapped(m, dir, d, t)
    requires Lookup(m, dir, d, t).Some? ==> PlainFrame(m, dir, FrameOf(Lookup(m, dir, d, t).value))
    ensures Settled(m', dir, free + Released(m, dir, d, t))
  {
    UnmapEffect(m, dir, d, t, m');
    forall e: nat | e < SELF_INDEX && Present(Pde(m', dir, e))
      ensures TableOf(m', dir, e) !in free + Released(m, dir, d, t)
    {
      assert TableOf(m', dir, e) == TableOf(m, dir, e);
    }
  }

  // ---------------------------------------------------------------- clearing

  // Memory after the mapping of page (d, t) is cleared without giving anything back.
  function Cleared(m: Memory, dir: nat, d: nat, t: nat): Memory
    requires d < ENTRIES && t < ENTRIES
  {
    if !Present(Pde(m, dir, d)) || Pte(m, dir, d, t) == 0 then m else
    var m1 := SetPte(m, dir, d, t, 0);
    if forall u: nat :: u < ENTRIES ==> Pte(m1, dir, d, u) == 0 then DropTable(m1, dir, d) else m1
  }

  lemma ClearEffect(m: Memory, dir: nat, d: nat, t: nat, m': Memory, free: set<nat>)
    requires WellFormed(m, dir) && Settled(m, dir, free) && d < SELF_INDEX && t < ENTRIES && m' == Cleared(m, dir, d, t)
    ensures WellFormed(m', dir) && Settled(m', dir, free) && Lookup(m', dir, d, t) == None
    ensures OthersKept(m, m', dir, d, t)
    ensures forall e: nat :: e < ENTRIES ==>
      Pde(m', dir, e) == if e == d && Lookup(m, dir, d, t).Some? && LastPage(m, dir, d, t) then 0 else Pde(m, dir, e)
  {
    if Present(Pde(m, dir, d)) && Pte(m, dir, d, t) != 0 {
      var m1 := SetPte(m, dir, d, t, 0);
      SetPteEffect(m, dir, d, t, 0, m1);
      SetPteKeeps(m, dir, d, t, 0, m1, free);
      if forall u: nat :: u < ENTRIES ==> Pte(m1, dir, d, u) == 0 {
        DropTableKeeps(m1, dir, d, m', free);
      }
    }
  }

  // ---------------------------------------------------------------- unmapping all of user space

  predicate IsUser(d: nat) { USER_INDEX <= d < KERNEL_INDEX }

  function PageNo(d: nat, t: nat): nat { d * ENTRIES + t }

  // Every page of table d lies below page number v, and the walk has reached the table.
  ghost predicate TableDone(m: Memory, dir: nat, d: nat, v: nat)
    requires d < ENTRIES
  {
    PageNo(d, 0) < v && forall u: nat :: u < ENTRIES && Lookup(m, dir, d, u).Some? ==> PageNo(d, u) < v
  }

  ghost predicate UserTable(m: Memory, dir: nat, f: nat) {
    exists d: nat :: IsUser(d) && Present(Pde(m, dir, d)) && TableOf(m, dir, d) == f
  }

  // The walk up to page number v took away the pages below it, and the tables it left empty.
  ghost predicate WalkedTo(m: Memory, m': Memory, dir: nat, v: nat) {
    && WellFormed(m', dir)
    && (forall f: nat :: f != dir && !UserTable(m, dir, f) ==> PageAt(m', f) == PageAt(m, f))
    && (forall d: nat, t: nat :: d < SELF_INDEX && t < ENTRIES ==>
          Lookup(m', dir, d, t) == if IsUser(d) && PageNo(d, t) < v then None else Lookup(m, dir, d, t))
    && (forall d: nat :: d < ENTRIES ==>
          Pde(m', dir, d) == if IsUser(d) && Present(Pde(m, dir, d)) && TableDone(m, dir, d, v) then 0
            else Pde(m, dir, d))
  }

  lemma NextPage(v: nat)
    requires USER_INDEX * ENTRIES <= v < KERNEL_INDEX * ENTRIES
    ensures IsUser(v / ENTRIES) && PageNo(v / ENTRIES, v % ENTRIES) == v
    ensures forall d: nat, t: nat :: t < ENTRIES ==>
      (PageNo(d, t) < v + 1 <==> PageNo(d, t) < v || (d == v / ENTRIES && t == v % ENTRIES))
  {
    forall d: nat, t: nat | t < ENTRIES
      ensures PageNo(d, t) < v + 1 <==> PageNo(d, t) < v || (d == v / ENTRIES && t == v % ENTRIES)
    {
      if PageNo(d, t) == v { assert v / ENTRIES == d; }
    }
  }

  // How one step of the walk moves TableDone: for the page's own table only, when no later page is left in it.
  lemma TableDoneStep(m: Memory, m': Memory, dir: nat, v: nat, d: nat)
    requires WellFormed(m, dir) && WalkedTo(m, m', dir, v) && USER_INDEX * ENTRIES <= v < KERNEL_INDEX * ENTRIES
    requires IsUser(d)
    requires Present(Pde(m, dir, d))
    ensures d != v / ENTRIES ==> (TableDone(m, dir, d, v + 1) <==> TableDone(m, dir, d, v))
    ensures d == v / ENTRIES && !Present(Pde(m', dir, d)) ==> TableDone(m, dir, d, v + 1)
    ensures d == v / ENTRIES && Present(Pde(m', dir, d)) ==>
      (TableDone(m, dir, d, v + 1) <==> LastPage(m', dir, d, v % ENTRIES))
  {
    var t := v % ENTRIES;
    NextPage(v);
    if d == v / ENTRIES {
      assert PageNo(d, 0) <= v;
      if Present(Pde(m', dir, d)) {
        forall u: nat | u < ENTRIES && u != t
          ensures Present(Pte(m', dir, d, u)) <==> Lookup(m, dir, d, u).Some? && PageNo(d, u) >= v
        {
          assert Lookup(m', dir, d, u) == if PageNo(d, u) < v then None else Lookup(m, dir, d, u);
        }
      }
    } else if d > v / ENTRIES {
      assert PageNo(d, 0) > v;
    }
  }

  lemma WalkStep(m: Memory, m': Memory, dir: nat, v: nat)
    requires WellFormed(m, dir) && WalkedTo(m, m', dir, v) && USER_INDEX * ENTRIES <= v < KERNEL_INDEX * ENTRIES
    ensures WalkedTo(m, Unmapped(m', dir, v / ENTRIES, v % ENTRIES), dir, v + 1)
  {
    var d, t := v / ENTRIES, v % ENTRIES;
    var m'' := Unmapped(m', dir, d, t);
    NextPage(v);
    UnmapEffect(m', dir, d, t, m'');
    forall e: nat | e < ENTRIES
      ensures var gone := IsUser(e) && Present(Pde(m, dir, e)) && TableDone(m, dir, e, v + 1);
        Pde(m'', dir, e) == if gone then 0 else Pde(m, dir, e)
    {
      if IsUser(e) && Present(Pde(m, dir, e)) { TableDoneStep(m, m', dir, v, e); }
    }
    forall e: nat, u: nat | e < SELF_INDEX && u < ENTRIES
      ensures Lookup(m'', dir, e, u) == if IsUser(e) && PageNo(e, u) < v + 1 then None else Lookup(m, dir, e, u)
    {
      if e != d || u != t { assert Lookup(m'', dir, e, u) == Lookup(m', dir, e, u); }
    }
    forall f: nat | f != dir && !UserTable(m, dir, f) ensures PageAt(m'', f) == PageAt(m, f) {
      assert IsUser(d) && Present(Pde(m', dir, d)) ==>
        TableOf(m', dir, d) == TableOf(m, dir, d) && f != TableOf(m', dir, d);
    }
  }

  lemma WalkStart(m: Memory, dir: nat)
    requires WellFormed(m, dir)
    ensures WalkedTo(m, m, dir, USER_INDEX * ENTRIES)
  {
    assert forall d: nat, t: nat :: IsUser(d) ==> PageNo(d, t) >= USER_INDEX * ENTRIES;
  }

  // Frames of user pages below page number v.
  ghost predicate PageFrameBelow(m: Memory, dir: nat, v: nat, f: nat) {
    exists d: nat, t: nat :: IsUser(d) && t < ENTRIES && PageNo(d, t) < v
      && Lookup(m, dir, d, t).Some? && FrameOf(Lookup(m, dir, d, t).value) == f
  }

  // Frames of user tables that the walk has emptied.
  ghost predicate TableFrameDone(m: Memory, dir: nat, v: nat, f: nat) {
    exists d: nat :: IsUser(d) && Present(Pde(m, dir, d)) && TableDone(m, dir, d, v) && TableOf(m, dir, d) == f
  }

  // What the walk up to v has given back, of the frames below n.
  ghost function GivenBack(m: Memory, dir: nat, v: nat, n: nat): set<nat> {
    set f: nat | f < n && (PageFrameBelow(m, dir, v, f) || TableFrameDone(m, dir, v, f))
  }

  lemma NothingGivenBackYet(m: Memory, dir: nat, n: nat)
    ensures GivenBack(m, dir, USER_INDEX * ENTRIES, n) == {}
  {
    assert forall d: nat, t: nat :: IsUser(d) ==> PageNo(d, t) >= USER_INDEX * ENTRIES;
  }

  lemma PageFrameStep(m: Memory, dir: nat, v: nat, f: nat)
    requires WellFormed(m, dir) && USER_INDEX * ENTRIES <= v < KERNEL_INDEX * ENTRIES
    ensures var p := Lookup(m, dir, v / ENTRIES, v % ENTRIES);
            PageFrameBelow(m, dir, v + 1, f) <==> PageFrameBelow(m, dir, v, f) || (p.Some? && FrameOf(p.value) == f)
  {
    NextPage(v);
    var d, t := v / ENTRIES, v % ENTRIES;
    var p := Lookup(m, dir, d, t);
    if p.Some? && FrameOf(p.value) == f {
      assert IsUser(d) && PageNo(d, t) < v + 1;
    }
    if PageFrameBelow(m, dir, v + 1, f) {
      var e: nat, u: nat :| IsUser(e) && u < ENTRIES && PageNo(e, u) < v + 1 && Lookup(m, dir, e, u).Some?
        && FrameOf(Lookup(m, dir, e, u).value) == f;
      assert PageNo(e, u) < v || (e == d && u == t);
    }
    if PageFrameBelow(m, dir, v, f) {
      var e: nat, u: nat :| IsUser(e) && u < ENTRIES && PageNo(e, u) < v && Lookup(m, dir, e, u).Some?
        && FrameOf(Lookup(m, dir, e, u).value) == f;
      assert PageNo(e, u) < v + 1;
    }
  }

  lemma TableFrameStep(m: Memory, m': Memory, dir: nat, v: nat, f: nat)
    requires WellFormed(m, dir) && WalkedTo(m, m', dir, v) && USER_INDEX * ENTRIES <= v < KERNEL_INDEX * ENTRIES
    ensures var d, t := v / ENTRIES, v % ENTRIES;
            TableFrameDone(m, dir, v + 1, f) <==>
            TableFrameDone(m, dir, v, f)
              || (Present(Pde(m', dir, d)) && LastPage(m', dir, d, t) && TableOf(m', dir, d) == f)
  {
    var d, t := v / ENTRIES, v % ENTRIES;
    NextPage(v);
    forall e: nat | IsUser(e) && Present(Pde(m, dir, e))
      ensures TableDone(m, dir, e, v + 1) <==>
        TableDone(m, dir, e, v) || (e == d && Present(Pde(m', dir, d)) && LastPage(m', dir, d, t))
    {
      TableDoneStep(m, m', dir, v, e);
    }
    if Present(Pde(m', dir, d)) && LastPage(m', dir, d, t) && TableOf(m', dir, d) == f {
      assert Pde(m', dir, d) == Pde(m, dir, d);
      assert IsUser(d) && TableDone(m, dir, d, v + 1);
    }
    if TableFrameDone(m, dir, v + 1, f) {
      var e: nat :| IsUser(e) && Present(Pde(m, dir, e)) && TableDone(m, dir, e, v + 1) && TableOf(m, dir, e) == f;
      assert TableDone(m, dir, e, v) || Pde(m', dir, e) == Pde(m, dir, e);
    }
  }

  lemma ReleasedStep(m: Memory, m': Memory, dir: nat, v: nat, f: nat)
    requires WellFormed(m, dir) && WalkedTo(m, m', dir, v) && USER_INDEX * ENTRIES <= v < KERNEL_INDEX * ENTRIES
    ensures PageFrameBelow(m, dir, v + 1, f) || TableFrameDone(m, dir, v + 1, f) <==>
            PageFrameBelow(m, dir, v, f) || TableFrameDone(m, dir, v, f)
              || f in Released(m', dir, v / ENTRIES, v % ENTRIES)
  {
    NextPage(v);
    PageFrameStep(m, dir, v, f);
    TableFrameStep(m, m', dir, v, f);
    assert Lookup(m', dir, v / ENTRIES, v % ENTRIES) == Lookup(m, dir, v / ENTRIES, v % ENTRIES);
  }

  lemma GivenBackStep(m: Memory, m': Memory, dir: nat, v: nat, n: nat)
    requires WellFormed(m, dir) && WalkedTo(m, m', dir, v) && USER_INDEX * ENTRIES <= v < KERNEL_INDEX * ENTRIES
    ensures GivenBack(m, dir, v + 1, n) ==
      GivenBack(m, dir, v, n) + Below(Released(m', dir, v / ENTRIES, v % ENTRIES), n)
  {
    forall f: nat ensures f in GivenBack(m, dir, v + 1, n) <==>
      f in GivenBack(m, dir, v, n) || f in Below(Released(m', dir, v / ENTRIES, v % ENTRIES), n)
    {
      ReleasedStep(m, m', dir, v, f);
    }
  }

  ghost function Below(s: set<nat>, n: nat): set<nat> {
    set f | f in s && f < n
  }
}
