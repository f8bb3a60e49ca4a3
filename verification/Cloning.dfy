/**
The copy of a directory that __virt_clone_directory (src/kernel/memory/paging.c:169-241) makes: what it must
look like, who owns which frame, and the steps that build it.
*/
module Cloning {
  import opened Options
  import opened PageTables
  import opened Types

  // What a frame is used for by the one directory that owns it.
  datatype Slot = DirSlot | TableSlot(d: nat) | PageSlot(d: nat, t: nat)

  // owner lists the frames of directory dir's user space, each once: the directory, its user tables, its user pages.
  ghost predicate Owns(m: Memory, dir: nat, owner: map<nat, Slot>) {
    && dir in owner && owner[dir] == DirSlot
    && (forall d: nat :: IsUser(d) && Present(Pde(m, dir, d)) ==>
         TableOf(m, dir, d) in owner && owner[TableOf(m, dir, d)] == TableSlot(d))
    && (forall d: nat, t: nat :: IsUser(d) && t < ENTRIES && Lookup(m, dir, d, t).Some? ==>
          var f := FrameOf(Lookup(m, dir, d, t).value); f in owner && owner[f] == PageSlot(d, t))
    && (forall f: nat, slot :: f in owner && owner[f] == slot ==> Uses(m, dir, f, slot))
  }

  ghost predicate Uses(m: Memory, dir: nat, f: nat, slot: Slot) {
    match slot
    case DirSlot => f == dir
    case TableSlot(d) => IsUser(d) && Present(Pde(m, dir, d)) && TableOf(m, dir, d) == f
    case PageSlot(d, t) =>
      IsUser(d) && t < ENTRIES && Lookup(m, dir, d, t).Some? && FrameOf(Lookup(m, dir, d, t).value) == f
  }

  // Directory c in memory m' is an isolated copy of directory dir in memory m.
  ghost predicate IsCopy(m: Memory, dir: nat, m': Memory, c: nat) {
    && (forall d: nat :: IsUser(d) ==>
          if Present(Pde(m, dir, d)) then Present(Pde(m', c, d)) && Flags(Pde(m', c, d)) == Flags(Pde(m, dir, d))
          else Pde(m', c, d) == 0)
    && (forall d: nat, t: nat :: IsUser(d) && t < ENTRIES ==> SamePage(m, dir, m', c, d, t))
    && (forall d: nat :: d < SELF_INDEX && !IsUser(d) ==> Pde(m', c, d) == Pde(m, dir, d))
    && Pde(m', c, SELF_INDEX) == c * PAGE_SIZE + PG_READ_WRITE + PG_PRESENT
  }

  // Page (d, t) is mapped in both or in neither; if in both, with the same flags and the same bytes.
  ghost predicate SamePage(m: Memory, dir: nat, m': Memory, c: nat, d: nat, t: nat)
    requires d < ENTRIES && t < ENTRIES
  {
    match (Lookup(m, dir, d, t), Lookup(m', c, d, t))
    case (None, None) => true
    case (Some(e), Some(e')) => Flags(e') == Flags(e) && PageAt(m', FrameOf(e')) == PageAt(m, FrameOf(e))
    case _ => false
  }

  // A clone: an isolated copy of directory dir on frames that were free, each owned once, with no other frame changed.
  ghost predicate Cloned(m: Memory, dir: nat, m': Memory, c: nat, owner: map<nat, Slot>, free: set<nat>,
                         free': set<nat>) {
    && IsCopy(m, dir, m', c) && Owns(m', c, owner) && WellFormed(m', c)
    && owner.Keys <= free && free' == free - owner.Keys
    && forall f: nat :: f !in owner ==> PageAt(m', f) == PageAt(m, f)
  }

  // The frames that dir's user pages are in are not free either.
  ghost predicate PagesSettled(m: Memory, dir: nat, free: set<nat>) {
    forall d: nat, t: nat :: IsUser(d) && t < ENTRIES && Lookup(m, dir, d, t).Some? ==>
      FrameOf(Lookup(m, dir, d, t).value) !in free
  }

  // ---------------------------------------------------------------- dealloc gives back what is owned

  lemma DeallocGivesBackOwned(m: Memory, dir: nat, owner: map<nat, Slot>, n: nat)
    requires WellFormed(m, dir) && Owns(m, dir, owner)
    ensures GivenBack(m, dir, KERNEL_INDEX * ENTRIES, n) + Below({dir}, n) == Below(owner.Keys, n)
  {
    var v := KERNEL_INDEX * ENTRIES;
    AllPagesBelow();
    forall f: nat ensures f in owner <==> PageFrameBelow(m, dir, v, f) || TableFrameDone(m, dir, v, f) || f == dir {
      if f in owner {
        assert Uses(m, dir, f, owner[f]);
        match owner[f]
        case DirSlot =>
        case TableSlot(d) => assert TableDone(m, dir, d, v);
        case PageSlot(d, t) => assert PageNo(d, t) < v;
      }
    }
  }

  lemma AllPagesBelow()
    ensures forall d: nat, t: nat :: IsUser(d) && t < ENTRIES ==> PageNo(d, t) < KERNEL_INDEX * ENTRIES
  {
  }

  // ---------------------------------------------------------------- building the copy

  // Tables below index n and pages below number v have been copied from dir, as it was in m, to c.
  ghost predicate CopiedTo(m: Memory, dir: nat, m': Memory, c: nat, owner: map<nat, Slot>, n: nat, v: nat) {
    && c in owner && owner[c] == DirSlot
    && (forall f: nat :: f !in owner ==> PageAt(m', f) == PageAt(m, f))
    && (forall d: nat :: d < SELF_INDEX && !IsUser(d) ==> Pde(m', c, d) == Pde(m, dir, d))
    && (forall d: nat {:trigger TableCopied(m, dir, m', c, owner, n, d)} :: IsUser(d) ==>
         TableCopied(m, dir, m', c, owner, n, d))
    && (forall d: nat, t: nat :: IsUser(d) && t < ENTRIES && d < n && Present(Pde(m, dir, d)) ==>
         PageCopied(m, dir, m', c, owner, v, d, t))
    && (forall f: nat, slot :: f in owner && owner[f] == slot ==> Uses(m', c, f, slot))
  }

  ghost predicate TableCopied(m: Memory, dir: nat, m': Memory, c: nat, owner: map<nat, Slot>, n: nat, d: nat)
    requires d < ENTRIES
  {
    if d < n && Present(Pde(m, dir, d)) then
      && Present(Pde(m', c, d)) && Flags(Pde(m', c, d)) == Flags(Pde(m, dir, d))
      && TableOf(m', c, d) in owner && owner[TableOf(m', c, d)] == TableSlot(d)
    else Pde(m', c, d) == 0
  }

  ghost predicate PageCopied(m: Memory, dir: nat, m': Memory, c: nat, owner: map<nat, Slot>, v: nat, d: nat, t: nat)
    requires d < ENTRIES && t < ENTRIES
  {
    var e := Lookup(m, dir, d, t);
    var e' := Pte(m', c, d, t);
    if PageNo(d, t) < v && e.Some? then
      && Present(e') && Flags(e') == Flags(e.value)
      && FrameOf(e') in owner && owner[FrameOf(e')] == PageSlot(d, t)
      && PageAt(m', FrameOf(e')) == PageAt(m, FrameOf(e.value))
    else e' == 0
  }

  // The new directory with only the shared entries in it.
  lemma CopyStart(m: Memory, dir: nat, m': Memory, c: nat)
    requires forall f: nat :: f != c ==> PageAt(m', f) == PageAt(m, f)
    requires forall d: nat :: d < SELF_INDEX ==> Pde(m', c, d) == if IsUser(d) then 0 else Pde(m, dir, d)
    ensures CopiedTo(m, dir, m', c, map[c := DirSlot], USER_INDEX, PageNo(USER_INDEX, 0))
  {
  }

  // The frames the copy is made from stay as they were.
  lemma SourceKept(m: Memory, dir: nat, m': Memory, c: nat, owner: map<nat, Slot>, n: nat, v: nat, free: set<nat>)
    requires CopiedTo(m, dir, m', c, owner, n, v) && owner.Keys <= free
    ensures forall g: nat :: g !in free ==> PageAt(m', g) == PageAt(m, g)
  {
  }

  lemma NextTable(d: nat)
    ensures PageNo(d, ENTRIES) == PageNo(d + 1, 0)
  {
  }

  // The copied entry: a new frame with the flags of the old entry.
  function CopiedEntry(f: nat, entry: nat): nat { f * PAGE_SIZE + Flags(entry) }

  lemma CopiedEntryParts(f: nat, entry: Word)
    requires Present(entry)
    ensures FrameOf(CopiedEntry(f, entry)) == f && Flags(CopiedEntry(f, entry)) == Flags(entry)
    ensures Present(CopiedEntry(f, entry))
    ensures f < 0x10_0000 ==> CopiedEntry(f, entry) < WORD_RANGE
  {
    FlagBit(entry);
    LowBit(f, Flags(entry));
  }

  function WithTable(m': Memory, c: nat, d: nat, f: nat, entry: Word): Memory
    requires d < ENTRIES
  {
    Put(m'[f := Zeros(ENTRIES)], c, d, entry)
  }

  lemma WithTableEffect(m: Memory, dir: nat, m': Memory, c: nat, owner: map<nat, Slot>, d: nat, f: nat, entry: Word,
                        m'': Memory)
    requires IsUser(d) && CopiedTo(m, dir, m', c, owner, d, PageNo(d, 0)) && f !in owner && FrameOf(entry) == f
    requires m'' == WithTable(m', c, d, f, entry)
    ensures forall e: nat :: e < ENTRIES ==> Pde(m'', c, e) == if e == d then entry else Pde(m', c, e)
    ensures forall u: nat :: u < ENTRIES ==> Pte(m'', c, d, u) == 0
    ensures forall e: nat, u: nat :: IsUser(e) && u < ENTRIES && Present(Pde(m', c, e)) ==>
      Pte(m'', c, e, u) == Pte(m', c, e, u)
    ensures forall g: nat :: g != f && g != c ==> PageAt(m'', g) == PageAt(m', g)
  {
    forall e: nat, u: nat | IsUser(e) && u < ENTRIES && Present(Pde(m', c, e))
      ensures Pte(m'', c, e, u) == Pte(m', c, e, u)
    {
      assert TableCopied(m, dir, m', c, owner, d, e);
      assert TableOf(m'', c, e) == TableOf(m', c, e);
    }
  }

  lemma CopyTable(m: Memory, dir: nat, m': Memory, c: nat, owner: map<nat, Slot>, d: nat, f: nat, entry: Word,
                  m'': Memory)
    requires IsUser(d) && CopiedTo(m, dir, m', c, owner, d, PageNo(d, 0)) && Present(Pde(m, dir, d))
    requires f !in owner && entry == CopiedEntry(f, Pde(m, dir, d)) && m'' == WithTable(m', c, d, f, entry)
    ensures CopiedTo(m, dir, m'', c, owner[f := TableSlot(d)], d + 1, PageNo(d, 0))
  {
    var owner' := owner[f := TableSlot(d)];
    CopiedEntryParts(f, Pde(m, dir, d));
    WithTableEffect(m, dir, m', c, owner, d, f, entry, m'');
    assert TableCopied(m, dir, m', c, owner, d, d);
    forall e: nat | IsUser(e) ensures TableCopied(m, dir, m'', c, owner', d + 1, e) {
      assert TableCopied(m, dir, m', c, owner, d, e);
    }
    forall e: nat, t: nat | IsUser(e) && t < ENTRIES && e < d + 1 && Present(Pde(m, dir, e))
      ensures PageCopied(m, dir, m'', c, owner', PageNo(d, 0), e, t)
    {
      assert TableCopied(m, dir, m', c, owner, d, e);
      if e < d { assert PageCopied(m, dir, m', c, owner, PageNo(d, 0), e, t); }
    }
    assert PresentKept(m', c, m'');
    forall g | g in owner' ensures Uses(m'', c, g, owner'[g]) {
      if g != f { UsesKept(m', c, m'', g, owner[g]); }
    }
  }

  // A use of frame g survives changes outside the tables already copied.
  lemma UsesKept(m': Memory, c: nat, m'': Memory, g: nat, slot: Slot)
    requires Uses(m', c, g, slot) && PresentKept(m', c, m'')
    ensures Uses(m'', c, g, slot)
  {
  }

  // The present entries of c's user part are as they were.
  ghost predicate PresentKept(m': Memory, c: nat, m'': Memory) {
    && (forall e: nat :: IsUser(e) && Present(Pde(m', c, e)) ==> Pde(m'', c, e) == Pde(m', c, e))
    && forall e: nat, u: nat :: IsUser(e) && u < ENTRIES && Present(Pde(m', c, e)) && Present(Pte(m', c, e, u)) ==>
         Pte(m'', c, e, u) == Pte(m', c, e, u)
  }

  lemma SkipTable(m: Memory, dir: nat, m': Memory, c: nat, owner: map<nat, Slot>, d: nat)
    requires IsUser(d) && CopiedTo(m, dir, m', c, owner, d, PageNo(d, 0)) && !Present(Pde(m, dir, d))
    ensures CopiedTo(m, dir, m', c, owner, d + 1, PageNo(d + 1, 0))
  {
    forall e: nat | IsUser(e) ensures TableCopied(m, dir, m', c, owner, d + 1, e) {
      assert TableCopied(m, dir, m', c, owner, d, e);
    }
    var v := PageNo(d + 1, 0);
    forall e: nat, t: nat | IsUser(e) && t < ENTRIES && e < d + 1 && Present(Pde(m, dir, e))
      ensures PageCopied(m, dir, m', c, owner, v, e, t)
    {
      assert PageCopied(m, dir, m', c, owner, PageNo(d, 0), e, t);
    }
  }

  function WithPage(m': Memory, c: nat, d: nat, t: nat, f: nat, entry: Word, content: Page): Memory
    requires d < ENTRIES && t < ENTRIES
  {
    SetPte(m'[f := Zeros(ENTRIES)], c, d, t, entry)[f := content]
  }

  lemma WithPageEffect(m: Memory, dir: nat, m': Memory, c: nat, owner: map<nat, Slot>, d: nat, t: nat, f: nat,
                       entry: Word, content: Page,
                       m'': Memory)
    requires IsUser(d) && t < ENTRIES && CopiedTo(m, dir, m', c, owner, d + 1, PageNo(d, t)) && Present(Pde(m, dir, d))
    requires f !in owner && m'' == WithPage(m', c, d, t, f, entry, content)
    ensures PageAt(m'', c) == PageAt(m', c) && PageAt(m'', f) == content
    ensures forall g: nat :: g != f && (g !in owner || owner[g].PageSlot?) ==> PageAt(m'', g) == PageAt(m', g)
    ensures forall e: nat, u: nat :: IsUser(e) && u < ENTRIES && Present(Pde(m', c, e)) ==>
              Pte(m'', c, e, u) == if e == d && u == t then entry else Pte(m', c, e, u)
  {
    assert TableCopied(m, dir, m', c, owner, d + 1, d);
    forall e: nat, u: nat | IsUser(e) && u < ENTRIES && Present(Pde(m', c, e))
      ensures Pte(m'', c, e, u) == if e == d && u == t then entry else Pte(m', c, e, u)
    {
      assert TableCopied(m, dir, m', c, owner, d + 1, e);
      assert TableOf(m'', c, e) == TableOf(m', c, e);
    }
  }

  lemma CopyPage(m: Memory, dir: nat, m': Memory, c: nat, owner: map<nat, Slot>, d: nat, t: nat, f: nat, entry: Word,
                 content: Page,
                 m'': Memory, next: nat)
    requires IsUser(d) && t < ENTRIES && CopiedTo(m, dir, m', c, owner, d + 1, PageNo(d, t)) && Present(Pde(m, dir, d))
    requires Lookup(m, dir, d, t).Some? && f !in owner && entry == CopiedEntry(f, Pte(m, dir, d, t))
    requires content == PageAt(m, FrameOf(Pte(m, dir, d, t)))
    requires m'' == WithPage(m', c, d, t, f, entry, content) && next == PageNo(d, t) + 1
    ensures CopiedTo(m, dir, m'', c, owner[f := PageSlot(d, t)], d + 1, next)
  {
    var owner' := owner[f := PageSlot(d, t)];
    var v := PageNo(d, t);
    CopiedEntryParts(f, Pte(m, dir, d, t));
    WithPageEffect(m, dir, m', c, owner, d, t, f, entry, content, m'');
    assert forall e: nat :: e < ENTRIES ==> Pde(m'', c, e) == Pde(m', c, e);
    forall e: nat | IsUser(e) ensures TableCopied(m, dir, m'', c, owner', d + 1, e) {
      assert TableCopied(m, dir, m', c, owner, d + 1, e);
    }
    forall e: nat, u: nat | IsUser(e) && u < ENTRIES && e < d + 1 && Present(Pde(m, dir, e))
      ensures PageCopied(m, dir, m'', c, owner', next, e, u)
    {
      assert TableCopied(m, dir, m', c, owner, d + 1, e);
      assert PageCopied(m, dir, m', c, owner, v, e, u);
      PageOrder(d, t, e, u);
    }
    assert TableCopied(m, dir, m', c, owner, d + 1, d) && PageCopied(m, dir, m', c, owner, v, d, t);
    assert !Present(Pte(m', c, d, t));
    assert PresentKept(m', c, m'');
    forall g | g in owner' ensures Uses(m'', c, g, owner'[g]) {
      if g != f { UsesKept(m', c, m'', g, owner[g]); }
    }
  }

  lemma PageOrder(d: nat, t: nat, e: nat, u: nat)
    requires t < ENTRIES && u < ENTRIES
    ensures PageNo(e, u) < PageNo(d, t) + 1 <==> PageNo(e, u) < PageNo(d, t) || (e == d && u == t)
  {
  }

  lemma SkipPage(m: Memory, dir: nat, m': Memory, c: nat, owner: map<nat, Slot>, d: nat, t: nat, next: nat)
    requires IsUser(d) && t < ENTRIES && CopiedTo(m, dir, m', c, owner, d + 1, PageNo(d, t))
    requires Lookup(m, dir, d, t).None?
    requires next == PageNo(d, t) + 1
    ensures CopiedTo(m, dir, m', c, owner, d + 1, next)
  {
    var n, v := d + 1, PageNo(d, t);
    forall e: nat, u: nat | IsUser(e) && u < ENTRIES && e < n && Present(Pde(m, dir, e))
      ensures PageCopied(m, dir, m', c, owner, next, e, u)
    {
      assert PageCopied(m, dir, m', c, owner, v, e, u);
      PageOrder(d, t, e, u);
    }
  }

  // ---------------------------------------------------------------- the finished copy

  // All tables and pages are copied and the new directory maps itself.
  ghost predicate Finished(m: Memory, dir: nat, m': Memory, c: nat, owner: map<nat, Slot>, m'': Memory) {
    && CopiedTo(m, dir, m', c, owner, KERNEL_INDEX, PageNo(KERNEL_INDEX, 0))
    && c < 0x10_0000 && m'' == Put(m', c, SELF_INDEX, c * PAGE_SIZE + PG_READ_WRITE + PG_PRESENT)
  }

  lemma FinishedEntries(m: Memory, dir: nat, m': Memory, c: nat, owner: map<nat, Slot>, m'': Memory)
    requires Finished(m, dir, m', c, owner, m'')
    ensures forall d: nat :: d < SELF_INDEX ==>
      Pde(m'', c, d) == Pde(m', c, d) && TableOf(m'', c, d) == TableOf(m', c, d)
    ensures forall d: nat :: IsUser(d) ==> TableCopied(m, dir, m'', c, owner, KERNEL_INDEX, d)
    ensures forall d: nat, t: nat :: IsUser(d) && t < ENTRIES && Present(Pde(m, dir, d)) ==>
      Pte(m'', c, d, t) == Pte(m', c, d, t)
    ensures forall f: nat :: f != c ==> PageAt(m'', f) == PageAt(m', f)
  {
    forall d: nat | IsUser(d) ensures TableCopied(m, dir, m'', c, owner, KERNEL_INDEX, d) {
      assert TableCopied(m, dir, m', c, owner, KERNEL_INDEX, d);
    }
  }

  lemma FinishedIsCopy(m: Memory, dir: nat, m': Memory, c: nat, owner: map<nat, Slot>, m'': Memory)
    requires Finished(m, dir, m', c, owner, m'')
    ensures IsCopy(m, dir, m'', c)
  {
    FinishedEntries(m, dir, m', c, owner, m'');
    AllPagesBelow();
    forall d: nat, t: nat | IsUser(d) && t < ENTRIES ensures SamePage(m, dir, m'', c, d, t) {
      assert TableCopied(m, dir, m'', c, owner, KERNEL_INDEX, d);
      if Present(Pde(m, dir, d)) { assert PageCopied(m, dir, m', c, owner, PageNo(KERNEL_INDEX, 0), d, t); }
    }
  }

  lemma FinishedOwns(m: Memory, dir: nat, m': Memory, c: nat, owner: map<nat, Slot>, m'': Memory)
    requires Finished(m, dir, m', c, owner, m'')
    ensures Owns(m'', c, owner)
  {
    FinishedEntries(m, dir, m', c, owner, m'');
    forall d: nat | IsUser(d) && Present(Pde(m'', c, d))
      ensures TableOf(m'', c, d) in owner && owner[TableOf(m'', c, d)] == TableSlot(d)
    {
      assert TableCopied(m, dir, m'', c, owner, KERNEL_INDEX, d);
    }
    forall d: nat, t: nat | IsUser(d) && t < ENTRIES && Lookup(m'', c, d, t).Some?
      ensures var f := FrameOf(Lookup(m'', c, d, t).value); f in owner && owner[f] == PageSlot(d, t)
    {
      FinishedPageOwned(m, dir, m', c, owner, m'', d, t);
    }
    forall f | f in owner ensures Uses(m'', c, f, owner[f]) { FinishedUses(m, dir, m', c, owner, m'', f); }
  }

  lemma FinishedPageOwned(m: Memory, dir: nat, m': Memory, c: nat, owner: map<nat, Slot>, m'': Memory, d: nat, t: nat)
    requires Finished(m, dir, m', c, owner, m'') && IsUser(d) && t < ENTRIES && Lookup(m'', c, d, t).Some?
    ensures var f := FrameOf(Lookup(m'', c, d, t).value); f in owner && owner[f] == PageSlot(d, t)
  {
    FinishedEntries(m, dir, m', c, owner, m'');
    assert TableCopied(m, dir, m'', c, owner, KERNEL_INDEX, d);
    assert PageCopied(m, dir, m', c, owner, PageNo(KERNEL_INDEX, 0), d, t);
  }

  lemma FinishedUses(m: Memory, dir: nat, m': Memory, c: nat, owner: map<nat, Slot>, m'': Memory, f: nat)
    requires Finished(m, dir, m', c, owner, m'') && f in owner
    ensures Uses(m'', c, f, owner[f])
  {
    FinishedEntries(m, dir, m', c, owner, m'');
    assert Uses(m', c, f, owner[f]);
    if owner[f].PageSlot? { assert TableCopied(m, dir, m'', c, owner, KERNEL_INDEX, owner[f].d); }
  }

  // The shared kernel tables are not free, so not among the copy's own frames.
  lemma FinishedKernelTable(m: Memory, dir: nat, m': Memory, c: nat, owner: map<nat, Slot>, free: set<nat>, m'': Memory,
                            d: nat)
    requires Finished(m, dir, m', c, owner, m'') && Settled(m, dir, free) && owner.Keys <= free
    requires d < SELF_INDEX && !IsUser(d) && Present(Pde(m'', c, d))
    ensures Pde(m'', c, d) == Pde(m, dir, d) && TableOf(m'', c, d) == TableOf(m, dir, d) && TableOf(m'', c, d) !in owner
    ensures forall t: nat :: t < ENTRIES ==> Pte(m'', c, d, t) == Pte(m, dir, d, t)
  {
    FinishedEntries(m, dir, m', c, owner, m'');
    assert TableOf(m, dir, d) !in free;
  }

  lemma FinishedIsApart(m: Memory, dir: nat, m': Memory, c: nat, owner: map<nat, Slot>, free: set<nat>, m'': Memory)
    requires Finished(m, dir, m', c, owner, m'') && Settled(m, dir, free) && owner.Keys <= free && Apart(m, dir)
    ensures Apart(m'', c)
  {
    FinishedEntries(m, dir, m', c, owner, m'');
    forall d: nat | d < SELF_INDEX && Present(Pde(m'', c, d))
      ensures if IsUser(d) then TableOf(m'', c, d) in owner && owner[TableOf(m'', c, d)] == TableSlot(d)
              else TableOf(m'', c, d) !in owner && TableOf(m'', c, d) == TableOf(m, dir, d) && Present(Pde(m, dir, d))
    {
      if IsUser(d) {
        assert TableCopied(m, dir, m'', c, owner, KERNEL_INDEX, d);
      } else {
        FinishedKernelTable(m, dir, m', c, owner, free, m'', d);
      }
    }
  }

  lemma FinishedIsClean(m: Memory, dir: nat, m': Memory, c: nat, owner: map<nat, Slot>, free: set<nat>, m'': Memory)
    requires Finished(m, dir, m', c, owner, m'') && Settled(m, dir, free) && owner.Keys <= free && Clean(m, dir)
    ensures Clean(m'', c)
  {
    FinishedEntries(m, dir, m', c, owner, m'');
    forall d: nat | d < SELF_INDEX && Pde(m'', c, d) != 0 ensures Present(Pde(m'', c, d)) {
      if IsUser(d) { assert TableCopied(m, dir, m'', c, owner, KERNEL_INDEX, d); }
    }
    forall d: nat, t: nat | d < SELF_INDEX && t < ENTRIES && Present(Pde(m'', c, d)) && Pte(m'', c, d, t) != 0
      ensures Present(Pte(m'', c, d, t))
    {
      if IsUser(d) {
        assert TableCopied(m, dir, m'', c, owner, KERNEL_INDEX, d);
        assert PageCopied(m, dir, m', c, owner, PageNo(KERNEL_INDEX, 0), d, t);
      } else {
        FinishedKernelTable(m, dir, m', c, owner, free, m'', d);
      }
    }
  }

  lemma FinishedIsWellFormed(m: Memory, dir: nat, m': Memory, c: nat, owner: map<nat, Slot>, free: set<nat>,
                             m'': Memory)
    requires Finished(m, dir, m', c, owner, m'') && Settled(m, dir, free) && owner.Keys <= free && WellFormed(m, dir)
    ensures WellFormed(m'', c)
  {
    FinishedIsClean(m, dir, m', c, owner, free, m'');
    FinishedIsApart(m, dir, m', c, owner, free, m'');
    SelfEntry(c);
  }

  lemma SelfEntry(c: nat)
    ensures Present(c * PAGE_SIZE + PG_READ_WRITE + PG_PRESENT)
    ensures FrameOf(c * PAGE_SIZE + PG_READ_WRITE + PG_PRESENT) == c
  {
    LowBit(c, PG_READ_WRITE + PG_PRESENT);
  }

  // ---------------------------------------------------------------- how many frames a copy takes

  ghost function UserTables(m: Memory, dir: nat): set<Slot> {
    set d | 0 <= d < ENTRIES && IsUser(d) && Present(Pde(m, dir, d)) :: TableSlot(d)
  }

  ghost function UserPages(m: Memory, dir: nat): set<Slot> {
    set d, t | 0 <= d < ENTRIES && 0 <= t < ENTRIES && IsUser(d) && Lookup(m, dir, d, t).Some? :: PageSlot(d, t)
  }

  ghost function Needed(m: Memory, dir: nat): set<Slot> { {DirSlot} + UserTables(m, dir) + UserPages(m, dir) }

  // The directory, its user tables and its user pages
  ghost function FramesNeeded(m: Memory, dir: nat): nat { 1 + |UserTables(m, dir)| + |UserPages(m, dir)| }

  lemma NeededSize(m: Memory, dir: nat)
    ensures |Needed(m, dir)| == FramesNeeded(m, dir)
  {
    assert DirSlot !in UserTables(m, dir) + UserPages(m, dir);
    assert UserTables(m, dir) !! UserPages(m, dir);
    assert Needed(m, dir) == {DirSlot} + (UserTables(m, dir) + UserPages(m, dir));
  }

  // A slot that a copy of n tables and v pages may have filled
  predicate Reached(slot: Slot, n: nat, v: nat) {
    match slot
    case DirSlot => true
    case TableSlot(d) => d < n
    case PageSlot(d, t) => PageNo(d, t) < v
  }

  lemma FilledAreNeeded(m: Memory, dir: nat, m': Memory, c: nat, owner: map<nat, Slot>, n: nat, v: nat, f: nat)
    requires CopiedTo(m, dir, m', c, owner, n, v) && f in owner
    ensures owner[f] in Needed(m, dir) && Reached(owner[f], n, v)
  {
    assert Uses(m', c, f, owner[f]);
    match owner[f]
    case DirSlot =>
    case TableSlot(d) => assert TableCopied(m, dir, m', c, owner, n, d);
    case PageSlot(d, t) =>
      assert TableCopied(m, dir, m', c, owner, n, d);
      assert PageCopied(m, dir, m', c, owner, v, d, t);
  }

  ghost function Slots(owner: map<nat, Slot>, frames: set<nat>): set<Slot>
    requires frames <= owner.Keys
  {
    set f | f in frames :: owner[f]
  }

  // A slot has one frame.
  lemma {:induction false} OneFrameEach(m: Memory, dir: nat, owner: map<nat, Slot>, frames: set<nat>)
    requires frames <= owner.Keys && forall f :: f in owner ==> Uses(m, dir, f, owner[f])
    ensures |Slots(owner, frames)| == |frames|
    decreases |frames|
  {
    if frames != {} {
      var f :| f in frames;
      OneFrameEach(m, dir, owner, frames - {f});
      forall g | g in frames && g != f ensures owner[g] != owner[f] {
        assert Uses(m, dir, g, owner[g]) && Uses(m, dir, f, owner[f]);
      }
      assert Slots(owner, frames) == Slots(owner, frames - {f}) + {owner[f]};
    }
  }

  lemma TablesRunOut(m: Memory, dir: nat, m': Memory, c: nat, owner: map<nat, Slot>, d: nat, free: set<nat>)
    requires CopiedTo(m, dir, m', c, owner, d, PageNo(d, 0)) && IsUser(d) && Present(Pde(m, dir, d))
    requires owner.Keys <= free && free - owner.Keys == {}
    ensures |free| < FramesNeeded(m, dir)
  {
    RunsOut(m, dir, m', c, owner, d, PageNo(d, 0), TableSlot(d), free);
  }

  lemma PagesRunOut(m: Memory, dir: nat, m': Memory, c: nat, owner: map<nat, Slot>, d: nat, t: nat, free: set<nat>)
    requires CopiedTo(m, dir, m', c, owner, d + 1, PageNo(d, t)) && IsUser(d) && t < ENTRIES
    requires Lookup(m, dir, d, t).Some?
    requires owner.Keys <= free && free - owner.Keys == {}
    ensures |free| < FramesNeeded(m, dir)
  {
    RunsOut(m, dir, m', c, owner, d + 1, PageNo(d, t), PageSlot(d, t), free);
  }

  lemma Fewer(a: set<Slot>, b: set<Slot>, slot: Slot)
    requires a <= b && slot in b && slot !in a
    ensures |a| < |b|
  {
    assert |b - a| > 0;
    assert b == a + (b - a);
  }

  // If all free frames are used up before a slot is filled, they were too few.
  lemma RunsOut(m: Memory, dir: nat, m': Memory, c: nat, owner: map<nat, Slot>, n: nat, v: nat, slot: Slot,
                free: set<nat>)
    requires CopiedTo(m, dir, m', c, owner, n, v) && slot in Needed(m, dir) && !Reached(slot, n, v)
    requires owner.Keys <= free && free - owner.Keys == {}
    ensures |free| < FramesNeeded(m, dir)
  {
    assert free == owner.Keys + (free - owner.Keys);
    forall f | f in owner ensures owner[f] in Needed(m, dir) && Reached(owner[f], n, v) {
      FilledAreNeeded(m, dir, m', c, owner, n, v, f);
    }
    OneFrameEach(m', c, owner, owner.Keys);
    Fewer(Slots(owner, owner.Keys), Needed(m, dir), slot);
    NeededSize(m, dir);
  }

  // A directory owns as many frames as it needs.
  lemma OwnsWhatItNeeds(m: Memory, dir: nat, owner: map<nat, Slot>)
    requires Owns(m, dir, owner)
    ensures |owner.Keys| == FramesNeeded(m, dir)
  {
    OneFrameEach(m, dir, owner, owner.Keys);
    forall slot ensures slot in Needed(m, dir) <==> slot in Slots(owner, owner.Keys) {
      if slot in Needed(m, dir) { SlotHasFrame(m, dir, owner, slot); }
      if slot in Slots(owner, owner.Keys) {
        var f :| f in owner && owner[f] == slot;
        assert Uses(m, dir, f, slot);
      }
    }
    assert Needed(m, dir) == Slots(owner, owner.Keys);
    NeededSize(m, dir);
  }

  lemma SlotHasFrame(m: Memory, dir: nat, owner: map<nat, Slot>, slot: Slot)
    requires Owns(m, dir, owner) && slot in Needed(m, dir)
    ensures slot in Slots(owner, owner.Keys)
  {
    match slot
    case DirSlot => assert owner[dir] == slot;
    case TableSlot(d) => assert owner[TableOf(m, dir, d)] == slot;
    case PageSlot(d, t) => assert owner[FrameOf(Lookup(m, dir, d, t).value)] == slot;
  }

  lemma CopyNeedsTheSame(m: Memory, dir: nat, m': Memory, c: nat)
    requires IsCopy(m, dir, m', c)
    ensures FramesNeeded(m', c) == FramesNeeded(m, dir)
  {
    assert UserTables(m', c) == UserTables(m, dir);
    forall d: nat, t: nat | IsUser(d) && t < ENTRIES ensures Lookup(m', c, d, t).Some? <==> Lookup(m, dir, d, t).Some? {
      assert SamePage(m, dir, m', c, d, t);
    }
    assert UserPages(m', c) == UserPages(m, dir);
  }
}
