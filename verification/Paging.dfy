/**
src/kernel/memory/paging.c: mapping, unmapping and translating pages of the current directory, and the
clone, reset and release of whole directories.  Tables and frames come from and go back to the frame
allocator.  The recursive mapping at 0xFFC00000 and the scratch windows are modelled as direct access to
the frames behind them.
*/
module Paging {
  import opened Cloning
  import opened Options
  import opened PageTables
  import opened Types
  import FA = FrameAllocator

  const ONE_MEGABYTE := 0x10_0000

  function DirIndex(address: nat): (d: nat)
    ensures PageNo(d, 0) * PAGE_SIZE <= address < PageNo(d + 1, 0) * PAGE_SIZE
    ensures address < WORD_RANGE ==> d < ENTRIES
  {
    address / 0x40_0000
  }

  function TableIndex(address: nat): (t: nat)
    ensures t < ENTRIES
    ensures PageNo(DirIndex(address), t) * PAGE_SIZE <= address < (PageNo(DirIndex(address), t) + 1) * PAGE_SIZE
  {
    address / PAGE_SIZE % ENTRIES
  }

  // The two indices of an address, aligned or not, are those of the page that it lies in.
  lemma AddressIsInPage(address: nat)
    requires address < WORD_RANGE
    ensures DirIndex(address) < ENTRIES && TableIndex(address) < ENTRIES
    ensures PageNo(DirIndex(address), TableIndex(address)) == address / PAGE_SIZE
    ensures address == PageNo(DirIndex(address), TableIndex(address)) * PAGE_SIZE + address % PAGE_SIZE
  {
  }

  class Mmu {
    const frames: FA.FrameAllocator
    var memory: Memory
    var cr3: nat

    constructor (allocator: FA.FrameAllocator, m: Memory, dir: nat)
      ensures frames == allocator && memory == m && cr3 == dir
    {
      frames, memory, cr3 := allocator, m, dir;
    }

    ghost predicate Valid()
      reads this, frames
    {
      frames.Valid()
    }

    ghost function Free(): set<nat>
      reads frames, frames.bitmap
    {
      frames.Free()
    }

    // __virt_get_phys_addr
    method GetPhysAddr(address: nat) returns (r: nat)
      requires address < WORD_RANGE && WellFormed(memory, cr3)
      ensures var e := Lookup(memory, cr3, DirIndex(address), TableIndex(address));
              r == if e.Some? then FrameOf(e.value) * PAGE_SIZE + address % PAGE_SIZE else NOT_MAPPED
    {
      var d, t := DirIndex(address), TableIndex(address);
      ZeroIffNotPresent(memory, cr3, d, t);
      if Pde(memory, cr3, d) == 0 {
        return NOT_MAPPED;
      }
      var entry := Pte(memory, cr3, d, t);
      if entry == 0 {
        return NOT_MAPPED;
      }
      r := (entry - entry % PAGE_SIZE) + address % PAGE_SIZE;
    }

    // __virt_map_page.  false is a panic: the page is mapped already, or no frame is left for its table.
    method MapPage(physical: nat, address: nat, flags: nat) returns (ok: bool)
      requires Valid() && physical < WORD_RANGE && physical % PAGE_SIZE == 0 && address < WORD_RANGE
      requires DirIndex(address) < SELF_INDEX
      requires WellFormed(memory, cr3) && Settled(memory, cr3, Free())
      modifies this`memory, frames`roving, frames.bitmap
      ensures Valid()
      ensures var d, t := DirIndex(address), TableIndex(address);
        ok == !(old(Lookup(memory, cr3, d, t)).Some? || (!Present(old(Pde(memory, cr3, d))) && old(Free()) == {}))
      ensures ok ==>
        Mapped(old(memory), cr3, DirIndex(address), TableIndex(address), Entry(physical / PAGE_SIZE, flags), memory,
          old(Free()), Free())
    {
      var d, t := DirIndex(address), TableIndex(address);
      ghost var m := memory;
      ghost var free := Free();
      if !Present(Pde(memory, cr3, d)) {
        var table := frames.GetFree4k();
        if table.None? {
          return false;
        }
        AddressOfFrame(table.value);
        EntryParts(FrameOf(table.value), PG_READ_WRITE + PG_PRESENT);
        assert Entry(FrameOf(table.value), PG_READ_WRITE + PG_PRESENT) == table.value + PG_READ_WRITE + PG_PRESENT;
        var entry: Word := Entry(FrameOf(table.value), PG_READ_WRITE + PG_PRESENT);
        AddTableKeeps(memory, cr3, d, entry, AddTable(memory, cr3, d, entry), free);
        memory := AddTable(memory, cr3, d, entry);
      }
      ghost var m1 := memory;
      ZeroIffNotPresent(m1, cr3, d, t);
      if Pte(memory, cr3, d, t) != 0 {
        return false;
      }
      AddressOfFrame(physical);
      EntryParts(physical / PAGE_SIZE, flags);
      var entry: Word := Entry(physical / PAGE_SIZE, flags);
      SetPteKeeps(m1, cr3, d, t, entry, SetPte(m1, cr3, d, t, entry), Free());
      SetPteEffect(m1, cr3, d, t, entry, SetPte(m1, cr3, d, t, entry));
      memory := SetPte(memory, cr3, d, t, entry);
      ok := true;
    }

    // __virt_map_page( __phys_get_free_4k(), ... ), as programs are loaded (elf/elf.c:133, 186)
    method MapFresh(address: nat, flags: nat) returns (ok: bool, ghost frame: nat)
      requires Valid() && address < WORD_RANGE && DirIndex(address) < SELF_INDEX
      requires WellFormed(memory, cr3) && Settled(memory, cr3, Free())
      modifies this`memory, frames`roving, frames.bitmap
      ensures Valid()
      ensures ok == !(old(Free()) == {} || old(Lookup(memory, cr3, DirIndex(address), TableIndex(address))).Some?
        || (!Present(old(Pde(memory, cr3, DirIndex(address)))) && old(Free()) == {frame}))
      ensures old(Free()) != {} ==> frame in old(Free())
      ensures ok ==> Mapped(old(memory), cr3, DirIndex(address), TableIndex(address), Entry(frame, flags), memory,
                            old(Free()) - {frame}, Free())
    {
      var page := frames.GetFree4k();
      frame := 0;
      if page.None? {
        return false, frame;
      }
      AddressOfFrame(page.value);
      frame := page.value / PAGE_SIZE;
      ok := MapPage(page.value, address, flags);
    }

    // __virt_unmap_page.  false is the panic on a reserved address.
    method UnmapPage(address: nat) returns (ok: bool)
      requires Valid() && Apart(memory, cr3)
      modifies this`memory, frames.bitmap
      ensures ok == (RESERVED_ADDR_LO <= address < RESERVED_ADDR_HI)
      ensures !ok ==> memory == old(memory) && Free() == old(Free())
      ensures ok ==> memory == Unmapped(old(memory), cr3, DirIndex(address), TableIndex(address))
                     && Free() == old(Free()) +
                          Below(Released(old(memory), cr3, DirIndex(address), TableIndex(address)), frames.Frames())
    {
      if address < RESERVED_ADDR_LO || address >= RESERVED_ADDR_HI {
        return false;
      }
      var d, t := DirIndex(address), TableIndex(address);
      if !Present(Pde(memory, cr3, d)) {
        return true;
      }
      ghost var m := memory;
      EmptyAfter(m, cr3, d, t);
      SetPteEffect(m, cr3, d, t, 0, SetPte(m, cr3, d, t, 0));
      if Present(Pte(memory, cr3, d, t)) {
        frames.UnsetBit(Pte(memory, cr3, d, t));
      }
      memory := SetPte(memory, cr3, d, t, 0);
      var empty := NonePresent(d);
      if empty {
        frames.UnsetBit(Pde(memory, cr3, d));
        memory := DropTable(memory, cr3, d);
      }
      ok := true;
    }

    // The scan of __virt_unmap_page for an entry that keeps the table alive.
    method NonePresent(d: nat) returns (empty: bool)
      requires d < ENTRIES
      ensures empty == EmptyTable(memory, cr3, d)
    {
      var i := 0;
      while i < ENTRIES
        invariant 0 <= i <= ENTRIES && forall u: nat :: u < i ==> !Present(Pte(memory, cr3, d, u))
      {
        if Present(Pte(memory, cr3, d, i)) {
          return false;
        }
        i := i + 1;
      }
      return true;
    }

    // __virt_clear_page.  false is the panic on a reserved address that is not one of the scratch pages.
    method ClearPage(address: nat, scratch: set<nat>) returns (ok: bool)
      requires address < WORD_RANGE && DirIndex(address) < SELF_INDEX && Apart(memory, cr3)
      modifies this`memory
      ensures ok == !((address < ONE_MEGABYTE || address >= RESERVED_ADDR_HI) && address !in scratch)
      ensures memory == if ok then Cleared(old(memory), cr3, DirIndex(address), TableIndex(address)) else old(memory)
    {
      if (address < ONE_MEGABYTE || address >= RESERVED_ADDR_HI) && address !in scratch {
        return false;
      }
      var d, t := DirIndex(address), TableIndex(address);
      ok := true;
      if !Present(Pde(memory, cr3, d)) {
        return;
      }
      if Pte(memory, cr3, d, t) != 0 {
        memory := SetPte(memory, cr3, d, t, 0);
        ghost var m1 := memory;
        var i := 0;
        while i < ENTRIES
          invariant 0 <= i <= ENTRIES && memory == m1 && forall u: nat :: u < i ==> Pte(m1, cr3, d, u) == 0
        {
          if Pte(memory, cr3, d, i) != 0 {
            break;
          }
          i := i + 1;
        }
        if i == ENTRIES {
          memory := DropTable(memory, cr3, d);
        }
      }
    }

    // A reset of directory memory m that started with the given frames free has come to page number v.
    ghost predicate WalkingWith(m: Memory, v: nat, free: set<nat>, given: set<nat>)
      reads this, frames, frames.bitmap
    {
      WalkedTo(m, memory, cr3, v) && given == GivenBack(m, cr3, v, frames.Frames()) && Free() == free + given
    }

    ghost predicate Walking(m: Memory, v: nat, free: set<nat>)
      reads this, frames, frames.bitmap
    {
      exists given: set<nat> :: WalkingWith(m, v, free, given)
    }

    // The body of the loop of __virt_reset_page_directory.
    method ResetOne(address: nat, ghost m: Memory, ghost v: nat, ghost free: set<nat>)
      requires Valid() && WellFormed(m, cr3) && Walking(m, v, free)
      requires v * PAGE_SIZE == address && USER_INDEX * ENTRIES <= v < KERNEL_INDEX * ENTRIES
      modifies this`memory, frames.bitmap
      ensures Walking(m, v + 1, free)
    {
      ghost var given :| WalkingWith(m, v, free, given);
      IndicesOfPage(address, v);
      WalkStep(m, memory, cr3, v);
      GivenBackStep(m, memory, cr3, v, frames.Frames());
      var ok := UnmapPage(address);
      assert WalkingWith(m, v + 1, free, GivenBack(m, cr3, v + 1, frames.Frames()));
    }

    // __virt_reset_page_directory
    method ResetPageDirectory()
      requires Valid() && WellFormed(memory, cr3)
      modifies this`memory, frames.bitmap
      ensures WalkedTo(old(memory), memory, cr3, KERNEL_INDEX * ENTRIES)
      ensures Free() == old(Free()) + GivenBack(old(memory), cr3, KERNEL_INDEX * ENTRIES, frames.Frames())
    {
      var address := RESERVED_ADDR_LO;
      ghost var m := memory;
      ghost var v := USER_INDEX * ENTRIES;
      WalkStart(m, cr3);
      NothingGivenBackYet(m, cr3, frames.Frames());
      assert WalkingWith(m, v, Free(), {});
      while address < RESERVED_ADDR_HI
        invariant v * PAGE_SIZE == address && USER_INDEX * ENTRIES <= v <= KERNEL_INDEX * ENTRIES
        invariant Walking(m, v, old(Free()))
      {
        ResetOne(address, m, v, old(Free()));
        address := address + PAGE_SIZE;
        v := v + 1;
      }
      ghost var given :| WalkingWith(m, KERNEL_INDEX * ENTRIES, old(Free()), given);
    }

    // __virt_dealloc_page_directory
    method DeallocPageDirectory()
      requires Valid() && WellFormed(memory, cr3)
      modifies this`memory, frames.bitmap
      ensures WalkedTo(old(memory), memory, cr3, KERNEL_INDEX * ENTRIES)
      ensures Free() == old(Free()) + GivenBack(old(memory), cr3, KERNEL_INDEX * ENTRIES, frames.Frames()) +
        Below({cr3}, frames.Frames())
    {
      ResetPageDirectory();
      frames.UnsetBit(Pde(memory, cr3, SELF_INDEX));
    }

    // The clone so far: the tables below n and pages below v, as they were in m, are copied to c, and of the
    // frames free at the start exactly those in owner are used up.  No frame of the original was free.
    ghost predicate CopyingWith(m: Memory, free: set<nat>, c: nat, owner: map<nat, Slot>, n: nat, v: nat)
      reads this, frames, frames.bitmap
    {
      && Valid() && Settled(m, cr3, free) && PagesSettled(m, cr3, free)
      && CopiedTo(m, cr3, memory, c, owner, n, v)
      && owner.Keys <= free && Free() == free - owner.Keys
    }

    ghost predicate Copying(m: Memory, free: set<nat>, c: nat, n: nat, v: nat)
      reads this, frames, frames.bitmap
    {
      exists owner: map<nat, Slot> :: CopyingWith(m, free, c, owner, n, v)
    }

    // __virt_clone_directory: the address of the new directory.  None is the panic when the frames run out.
    method CloneDirectory() returns (r: Option<nat>, ghost owner: map<nat, Slot>)
      requires Valid() && WellFormed(memory, cr3) && Settled(memory, cr3, Free()) && PagesSettled(memory, cr3, Free())
      modifies this`memory, frames`roving, frames.bitmap
      ensures Valid()
      ensures r.None? <==> |old(Free())| < FramesNeeded(old(memory), cr3)
      ensures r.Some? ==>
        && r.value % PAGE_SIZE == 0
        && Cloned(old(memory), cr3, memory, r.value / PAGE_SIZE, owner, old(Free()), Free())
    {
      ghost var m := memory;
      ghost var free := Free();
      owner := map[];
      var directory := frames.GetFree4k();
      if directory.None? {
        assert |free| == 0;
        return None, owner;
      }
      AddressOfFrame(directory.value);
      var c := directory.value / PAGE_SIZE;
      ShareKernelEntries(c);
      CopyStart(m, cr3, memory, c);
      assert CopyingWith(m, free, c, map[c := DirSlot], USER_INDEX, PageNo(USER_INDEX, 0));
      var ok := CopyUserTables(m, free, c);
      if !ok {
        return None, owner;
      }
      owner :| CopyingWith(m, free, c, owner, KERNEL_INDEX, PageNo(KERNEL_INDEX, 0));
      MapSelf(m, free, c, owner);
      CopyTakes(m, cr3, memory, c, owner, free);
      r := Some(directory.value);
    }

    // The loop of __virt_clone_directory over the user part of the directory.
    method CopyUserTables(ghost m: Memory, ghost free: set<nat>, c: nat) returns (ok: bool)
      requires Copying(m, free, c, USER_INDEX, PageNo(USER_INDEX, 0))
      modifies this`memory, frames`roving, frames.bitmap
      ensures if ok then Copying(m, free, c, KERNEL_INDEX, PageNo(KERNEL_INDEX, 0))
        else Valid() && |free| < FramesNeeded(m, cr3)
    {
      var address := RESERVED_ADDR_LO;
      var d := USER_INDEX;
      while d < KERNEL_INDEX
        invariant USER_INDEX <= d <= KERNEL_INDEX && address == PageNo(d, 0) * PAGE_SIZE
        invariant Copying(m, free, c, d, PageNo(d, 0))
      {
        ok := CopyOneTable(m, free, c, d, address);
        if !ok {
          return;
        }
        address := address + PAGE_SIZE * ENTRIES;
        d := d + 1;
      }
      ok := true;
    }

    // The end of __virt_clone_directory.
    method MapSelf(ghost m: Memory, ghost free: set<nat>, c: nat, ghost owner: map<nat, Slot>)
      requires CopiedTo(m, cr3, memory, c, owner, KERNEL_INDEX, PageNo(KERNEL_INDEX, 0)) && c < 0x10_0000
      requires WellFormed(m, cr3) && Settled(m, cr3, free) && owner.Keys <= free
      modifies this`memory
      ensures IsCopy(m, cr3, memory, c) && Owns(memory, c, owner) && WellFormed(memory, c)
      ensures forall f: nat :: f !in owner ==> PageAt(memory, f) == PageAt(m, f)
    {
      ghost var m' := memory;
      SelfEntry(c);
      memory := Put(memory, c, SELF_INDEX, c * PAGE_SIZE + PG_READ_WRITE + PG_PRESENT);
      assert Finished(m, cr3, m', c, owner, memory);
      FinishedIsCopy(m, cr3, m', c, owner, memory);
      FinishedOwns(m, cr3, m', c, owner, memory);
      FinishedIsWellFormed(m, cr3, m', c, owner, free, memory);
      FinishedEntries(m, cr3, m', c, owner, memory);
    }

    // The new directory starts out empty but for entry 0 and the kernel's entries.
    method ShareKernelEntries(c: nat)
      requires c != cr3
      modifies this`memory
      ensures forall f: nat :: f != c ==> PageAt(memory, f) == PageAt(old(memory), f)
      ensures forall d: nat :: d < SELF_INDEX ==> Pde(memory, c, d) == if IsUser(d) then 0 else Pde(old(memory), cr3, d)
    {
      memory := memory[c := Zeros(ENTRIES)];
      memory := Put(memory, c, 0, Pde(memory, cr3, 0));
      var i := KERNEL_INDEX;
      while i < SELF_INDEX
        invariant KERNEL_INDEX <= i <= SELF_INDEX
        invariant forall f: nat :: f != c ==> PageAt(memory, f) == PageAt(old(memory), f)
        invariant forall d: nat :: d < SELF_INDEX ==>
                    Pde(memory, c, d) == if IsUser(d) || d >= i then 0 else Pde(old(memory), cr3, d)
      {
        PutEffect(memory, c, i, Pde(memory, cr3, i));
        memory := Put(memory, c, i, Pde(memory, cr3, i));
        i := i + 1;
      }
    }

    // The part of __virt_clone_directory for one directory entry.
    method CopyOneTable(ghost m: Memory, ghost free: set<nat>, c: nat, d: nat, start: nat) returns (ok: bool)
      requires IsUser(d) && start == PageNo(d, 0) * PAGE_SIZE && Copying(m, free, c, d, PageNo(d, 0))
      modifies this`memory, frames`roving, frames.bitmap
      ensures if ok then Copying(m, free, c, d + 1, PageNo(d + 1, 0)) else Valid() && |free| < FramesNeeded(m, cr3)
    {
      ghost var owner :| CopyingWith(m, free, c, owner, d, PageNo(d, 0));
      SourceKept(m, cr3, memory, c, owner, d, PageNo(d, 0), free);
      if !Present(Pde(memory, cr3, d)) {
        SkipTable(m, cr3, memory, c, owner, d);
        assert CopyingWith(m, free, c, owner, d + 1, PageNo(d + 1, 0));
        return true;
      }
      ok := NewTable(m, free, c, owner, d);
      if ok {
        ok := CopyPages(m, free, c, d, start);
        NextTable(d);
      }
    }

    // Its loop over the entries of the table
    method CopyPages(ghost m: Memory, ghost free: set<nat>, c: nat, d: nat, start: nat) returns (ok: bool)
      requires IsUser(d) && Present(Pde(m, cr3, d)) && start == PageNo(d, 0) * PAGE_SIZE
      requires Copying(m, free, c, d + 1, PageNo(d, 0))
      modifies this`memory, frames`roving, frames.bitmap
      ensures if ok then Copying(m, free, c, d + 1, PageNo(d, ENTRIES)) else Valid() && |free| < FramesNeeded(m, cr3)
    {
      var address := start;
      var j := 0;
      while j < ENTRIES
        invariant 0 <= j <= ENTRIES && address == PageNo(d, j) * PAGE_SIZE
        invariant Copying(m, free, c, d + 1, PageNo(d, j))
      {
        ok := CopyOnePage(m, free, c, d, j, address);
        if !ok {
          return;
        }
        j := j + 1;
        address := address + PAGE_SIZE;
      }
      ok := true;
    }

    // An empty table for the copy, with the flags of the original
    method NewTable(ghost m: Memory, ghost free: set<nat>, c: nat, ghost owner: map<nat, Slot>, d: nat)
      returns (ok: bool)
      requires IsUser(d) && Present(Pde(m, cr3, d)) && CopyingWith(m, free, c, owner, d, PageNo(d, 0))
      modifies this`memory, frames`roving, frames.bitmap
      ensures if ok then Copying(m, free, c, d + 1, PageNo(d, 0)) else Valid() && |free| < FramesNeeded(m, cr3)
    {
      SourceKept(m, cr3, memory, c, owner, d, PageNo(d, 0), free);
      var table := frames.GetFree4k();
      if table.None? {
        TablesRunOut(m, cr3, memory, c, owner, d, free);
        return false;
      }
      AddressOfFrame(table.value);
      ghost var m' := memory;
      var f := table.value / PAGE_SIZE;
      memory := memory[f := Zeros(ENTRIES)];
      CopiedEntryParts(f, Pde(m, cr3, d));
      var entry: Word := CopiedEntry(f, Pde(memory, cr3, d));
      memory := Put(memory, c, d, entry);
      CopyTable(m, cr3, m', c, owner, d, f, entry, memory);
      assert CopyingWith(m, free, c, owner[f := TableSlot(d)], d + 1, PageNo(d, 0));
      ok := true;
    }

    // The part of __virt_clone_directory for one page table entry.
    method CopyOnePage(ghost m: Memory, ghost free: set<nat>, c: nat, d: nat, j: nat, address: nat) returns (ok: bool)
      requires IsUser(d) && Present(Pde(m, cr3, d)) && j < ENTRIES && address == PageNo(d, j) * PAGE_SIZE
      requires Copying(m, free, c, d + 1, PageNo(d, j))
      modifies this`memory, frames`roving, frames.bitmap
      ensures if ok then Copying(m, free, c, d + 1, PageNo(d, j + 1)) else Valid() && |free| < FramesNeeded(m, cr3)
    {
      ghost var owner :| CopyingWith(m, free, c, owner, d + 1, PageNo(d, j));
      SourceKept(m, cr3, memory, c, owner, d + 1, PageNo(d, j), free);
      if !Present(Pte(memory, cr3, d, j)) {
        SkipPage(m, cr3, memory, c, owner, d, j, PageNo(d, j + 1));
        assert CopyingWith(m, free, c, owner, d + 1, PageNo(d, j + 1));
        return true;
      }
      var page := frames.GetFree4k();
      if page.None? {
        PagesRunOut(m, cr3, memory, c, owner, d, j, free);
        return false;
      }
      AddressOfFrame(page.value);
      ghost var owner' := CopyPageTo(page.value / PAGE_SIZE, m, free, c, owner, d, j, address);
      assert CopyingWith(m, free, c, owner', d + 1, PageNo(d, j + 1));
      ok := true;
    }

    // The page goes to frame f, which has just been taken.
    method CopyPageTo(f: nat, ghost m: Memory, ghost free: set<nat>, c: nat, ghost owner: map<nat, Slot>, d: nat,
                      j: nat, address: nat)
      returns (ghost owner': map<nat, Slot>)
      requires IsUser(d) && j < ENTRIES && address == PageNo(d, j) * PAGE_SIZE && Lookup(m, cr3, d, j).Some?
      requires Settled(m, cr3, free) && PagesSettled(m, cr3, free)
      requires CopiedTo(m, cr3, memory, c, owner, d + 1, PageNo(d, j)) && owner.Keys <= free && f in free - owner.Keys
      requires f < 0x10_0000
      modifies this`memory
      ensures CopiedTo(m, cr3, memory, c, owner', d + 1, PageNo(d, j + 1)) && owner'.Keys == owner.Keys + {f}
    {
      ghost var m' := memory;
      SourceKept(m, cr3, memory, c, owner, d + 1, PageNo(d, j), free);
      assert TableCopied(m, cr3, memory, c, owner, d + 1, d);
      PlacePage(m, free, c, d, j, f, address);
      CopiedEntryParts(f, Pte(m, cr3, d, j));
      CopyPage(m, cr3, m', c, owner, d, j, f, CopiedEntry(f, Pte(m, cr3, d, j)), PageAt(m, FrameOf(Pte(m, cr3, d, j))),
        memory, PageNo(d, j + 1));
      owner' := owner[f := PageSlot(d, j)];
    }

    // Puts frame f behind entry j of table d of the copy and fills it from the page at address.
    method PlacePage(ghost m: Memory, ghost free: set<nat>, c: nat, d: nat, j: nat, f: nat, address: nat)
      requires IsUser(d) && j < ENTRIES && address == PageNo(d, j) * PAGE_SIZE && f < 0x10_0000
      requires f in free && c in free && c != f && TableOf(memory, c, d) in free
      requires forall g: nat :: g !in free ==> PageAt(memory, g) == PageAt(m, g)
      requires cr3 !in free && Lookup(m, cr3, d, j).Some? && TableOf(m, cr3, d) !in free
      requires FrameOf(Pte(m, cr3, d, j)) !in free
      modifies this`memory
      ensures CopiedEntry(f, Pte(m, cr3, d, j)) < WORD_RANGE
      ensures memory == WithPage(old(memory), c, d, j, f, CopiedEntry(f, Pte(m, cr3, d, j)),
        PageAt(m, FrameOf(Pte(m, cr3, d, j))))
    {
      CopiedEntryParts(f, Pte(m, cr3, d, j));
      IndicesOfEntry(address, d, j);
      var entry: Word := CopiedEntry(f, Pte(memory, cr3, d, j));
      memory := SetPte(memory[f := Zeros(ENTRIES)], c, d, j, entry);
      assert forall g: nat :: g !in free ==> PageAt(memory, g) == PageAt(m, g);
      assert Pte(memory, cr3, d, j) == Pte(m, cr3, d, j);
      var source := PageAt(memory, FrameOf(Pte(memory, cr3, DirIndex(address), TableIndex(address))));
      assert source == PageAt(m, FrameOf(Pte(m, cr3, d, j)));
      memory := memory[f := source];
    }

    // A clone that is released again: every frame is back, and nothing that was in use has changed.
    method CloneAndDealloc() returns (ok: bool)
      requires Valid() && WellFormed(memory, cr3) && Settled(memory, cr3, Free()) && PagesSettled(memory, cr3, Free())
      modifies this, frames`roving, frames.bitmap
      ensures Valid() && cr3 == old(cr3)
      ensures ok <==> |old(Free())| >= FramesNeeded(old(memory), cr3)
      ensures ok ==> Free() == old(Free())
      ensures ok ==> forall f: nat :: f !in Free() ==> PageAt(memory, f) == PageAt(old(memory), f)
    {
      var parent := cr3;
      var clone, owner := CloneDirectory();
      if clone.None? {
        return false;
      }
      cr3 := clone.value / PAGE_SIZE;
      DeallocOwned(owner, old(Free()));
      cr3 := parent;
      ok := true;
    }

    // Releasing a directory gives back what it owns.
    method DeallocOwned(ghost owner: map<nat, Slot>, ghost free: set<nat>)
      requires Valid() && WellFormed(memory, cr3) && Owns(memory, cr3, owner)
      requires owner.Keys <= free && Free() == free - owner.Keys && forall f :: f in free ==> f < frames.Frames()
      modifies this`memory, frames.bitmap
      ensures Free() == free && forall f: nat :: f !in free ==> PageAt(memory, f) == PageAt(old(memory), f)
    {
      DeallocPageDirectory();
      DeallocGivesBackOwned(old(memory), cr3, owner, frames.Frames());
      OwnedAreTracked(free, owner.Keys, frames.Frames());
      DeallocLeavesOthers(old(memory), cr3, owner, memory);
    }
  }

  lemma PutEffect(m: Memory, dir: nat, i: nat, w: Word)
    requires i < ENTRIES
    ensures forall d: nat :: d < ENTRIES ==> Pde(Put(m, dir, i, w), dir, d) == if d == i then w else Pde(m, dir, d)
    ensures forall f: nat :: f != dir ==> PageAt(Put(m, dir, i, w), f) == PageAt(m, f)
  {
  }

  lemma OwnedAreTracked(free: set<nat>, owned: set<nat>, n: nat)
    requires owned <= free && forall f :: f in free ==> f < n
    ensures (free - owned) + Below(owned, n) == free
  {
  }

  // A finished copy has taken as many of the free frames as the original needs.
  lemma CopyTakes(m: Memory, dir: nat, m': Memory, c: nat, owner: map<nat, Slot>, free: set<nat>)
    requires IsCopy(m, dir, m', c) && Owns(m', c, owner) && owner.Keys <= free
    ensures |free| >= FramesNeeded(m, dir)
  {
    OwnsWhatItNeeds(m', c, owner);
    CopyNeedsTheSame(m, dir, m', c);
    assert free == owner.Keys + (free - owner.Keys);
  }

  // Releasing a directory writes only to frames that it owns.
  lemma DeallocLeavesOthers(m: Memory, dir: nat, owner: map<nat, Slot>, m': Memory)
    requires Owns(m, dir, owner) && WalkedTo(m, m', dir, KERNEL_INDEX * ENTRIES)
    ensures forall f: nat :: f !in owner ==> PageAt(m', f) == PageAt(m, f)
  {
  }

  lemma IndicesOfPage(address: nat, v: nat)
    requires address == v * PAGE_SIZE
    ensures DirIndex(address) == v / ENTRIES && TableIndex(address) == v % ENTRIES
  {
    assert address / PAGE_SIZE == v;
    assert v == v / ENTRIES * ENTRIES + v % ENTRIES;
  }

  lemma IndicesOfEntry(address: nat, d: nat, j: nat)
    requires address == PageNo(d, j) * PAGE_SIZE && j < ENTRIES
    ensures DirIndex(address) == d && TableIndex(address) == j
  {
    IndicesOfPage(address, PageNo(d, j));
  }

  lemma AddressOfFrame(address: nat)
    requires address < WORD_RANGE && address % PAGE_SIZE == 0
    ensures address / PAGE_SIZE < 0x10_0000 && FrameOf(address) == address / PAGE_SIZE
    ensures address == address / PAGE_SIZE * PAGE_SIZE
  {
  }

  // In a well-formed directory an entry is zero exactly when it is not present.
  lemma ZeroIffNotPresent(m: Memory, dir: nat, d: nat, t: nat)
    requires WellFormed(m, dir) && d < ENTRIES && t < ENTRIES
    ensures Pde(m, dir, d) == 0 <==> !Present(Pde(m, dir, d))
    ensures Present(Pde(m, dir, d)) ==> (Pte(m, dir, d, t) == 0 <==> !Present(Pte(m, dir, d, t)))
  {
    if d == SELF_INDEX {
      assert Pte(m, dir, d, t) == Pde(m, dir, t);
    }
  }
}
