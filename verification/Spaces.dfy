/**
All address spaces together: directories that are cloned (fork), reset and filled with fresh pages (exec), unmapped from
and released (cleanup), in any order, by the functions of src/kernel/memory/paging.c whose contracts are in `Paging`.
Who owns which frame is kept beside the memory.  Pages are those of user space, 4 MiB to 3 GiB.
*/
module Spaces {
  import opened Options
  import opened PageTables
  import opened Cloning
  import opened Types

  const END := KERNEL_INDEX * ENTRIES

  // The frames below `frames` are managed; owners has the directories, each with the frames that it owns.
  datatype State = State(m: Memory, free: set<nat>, owners: map<nat, map<nat, Slot>>, frames: nat)

  datatype Step = Clone(a: nat) | Map(a: nat, d: nat, t: nat, flags: nat) | Unmap(a: nat, d: nat, t: nat)
                | Reset(a: nat) | Release(a: nat) | Write(a: nat, frame: nat, content: Page)

  // The map of what is owned after a page and its table have been added, or some frames given back
  ghost function Grown(owner: map<nat, Slot>, table: nat, frame: nat, d: nat, t: nat): map<nat, Slot> {
    owner[table := TableSlot(d)][frame := PageSlot(d, t)]
  }

  ghost function Shrunk(owner: map<nat, Slot>, gone: set<nat>): map<nat, Slot> {
    map f | f in owner && f !in gone :: owner[f]
  }

  // Cloning directory a to c
  ghost predicate Clones(s: State, a: nat, r: State, c: nat, owner: map<nat, Slot>) {
    Cloned(s.m, a, r.m, c, owner, s.free, r.free) && r.owners == s.owners[c := owner]
  }

  // Mapping a page of directory a to a frame that was free
  ghost predicate Maps(s: State, a: nat, d: nat, t: nat, flags: nat, r: State, frame: nat)
    requires a in s.owners && IsUser(d) && t < ENTRIES
  {
    && frame in s.free && Mapped(s.m, a, d, t, Entry(frame, flags), r.m, s.free - {frame}, r.free)
    && r.owners == s.owners[a := Grown(s.owners[a], TableOf(r.m, a, d), frame, d, t)]
  }

  // One call, by or for the process with directory a, that does not panic; or a process writing to a page of its own.
  ghost predicate Does(s: State, step: Step, r: State) {
    && step.a in s.owners && r.frames == s.frames
    && match step
       case Clone(a) => exists c: nat, owner: map<nat, Slot> :: Clones(s, a, r, c, owner)
       case Map(a, d, t, flags) => IsUser(d) && t < ENTRIES && exists frame: nat :: Maps(s, a, d, t, flags, r, frame)
       case Unmap(a, d, t) =>
         && IsUser(d) && t < ENTRIES && r.m == Unmapped(s.m, a, d, t)
         && r.free == s.free + Below(Released(s.m, a, d, t), s.frames)
         && r.owners == s.owners[a := Shrunk(s.owners[a], Released(s.m, a, d, t))]
       case Reset(a) =>
         && WalkedTo(s.m, r.m, a, END) && r.free == s.free + GivenBack(s.m, a, END, s.frames)
         && r.owners == s.owners[a := map[a := DirSlot]]
       case Release(a) =>
         && WalkedTo(s.m, r.m, a, END) && r.free == s.free + GivenBack(s.m, a, END, s.frames) + Below({a}, s.frames)
         && r.owners == s.owners - {a}
       case Write(a, frame, content) =>
         && frame in s.owners[a] && s.owners[a][frame].PageSlot?
         && r.m == s.m[frame := content] && r.free == s.free && r.owners == s.owners
  }

  // ---------------------------------------------------------------- the invariant

  // f belongs to the kernel: it is not free, and no directory owns it.
  ghost predicate Shared(s: State, f: nat) { f !in s.free && forall b :: b in s.owners ==> f !in s.owners[b] }

  // The tables behind the kernel's entries of directory a are the kernel's.
  ghost predicate KernelApart(s: State, a: nat) {
    forall d: nat :: d < SELF_INDEX && !IsUser(d) && Present(Pde(s.m, a, d)) ==> Shared(s, TableOf(s.m, a, d))
  }

  ghost predicate SpaceOk(s: State, a: nat)
    requires a in s.owners
  {
    WellFormed(s.m, a) && Owns(s.m, a, s.owners[a]) && s.owners[a].Keys !! s.free && KernelApart(s, a)
  }

  ghost predicate Disjoint(s: State) {
    forall a, b :: a in s.owners && b in s.owners && a != b ==> s.owners[a].Keys !! s.owners[b].Keys
  }

  // f is free or owned.
  ghost predicate Tracked(s: State, f: nat) { f in s.free || exists a: nat :: a in s.owners && f in s.owners[a] }

  ghost predicate Ok(s: State) {
    && (forall a :: a in s.owners ==> SpaceOk(s, a)) && Disjoint(s) && forall f: nat :: Tracked(s, f) ==> f < s.frames
  }

  // From s to r nothing has changed in the pages of directory b: the same ones are mapped, with the same bytes.
  ghost predicate SameView(m: Memory, m': Memory, b: nat) {
    forall d: nat, t: nat :: IsUser(d) && t < ENTRIES ==> SameUserPage(m, m', b, d, t)
  }

  ghost predicate SameUserPage(m: Memory, m': Memory, b: nat, d: nat, t: nat)
    requires IsUser(d) && t < ENTRIES
  {
    && Lookup(m', b, d, t) == Lookup(m, b, d, t)
    && (Lookup(m, b, d, t).Some? ==> var f := FrameOf(Lookup(m, b, d, t).value); PageAt(m', f) == PageAt(m, f))
  }

  // ---------------------------------------------------------------- what a step leaves alone

  // All frames that directory b owns and all of the kernel's hold what they held.
  ghost predicate Spared(s: State, r: State, b: nat)
    requires b in s.owners
  {
    forall g: nat :: g in s.owners[b] || Shared(s, g) ==> PageAt(r.m, g) == PageAt(s.m, g)
  }

  lemma SparedTables(s: State, r: State, b: nat)
    requires b in s.owners && SpaceOk(s, b) && Spared(s, r, b)
    ensures PageAt(r.m, b) == PageAt(s.m, b)
    ensures forall d: nat :: d < SELF_INDEX && Present(Pde(s.m, b, d)) ==>
      PageAt(r.m, TableOf(s.m, b, d)) == PageAt(s.m, TableOf(s.m, b, d))
  {
    forall d: nat | d < SELF_INDEX && Present(Pde(s.m, b, d))
      ensures PageAt(r.m, TableOf(s.m, b, d)) == PageAt(s.m, TableOf(s.m, b, d))
    {
      assert IsUser(d) ==> TableOf(s.m, b, d) in s.owners[b];
    }
  }

  lemma SparedStays(s: State, r: State, b: nat)
    requires b in s.owners && SpaceOk(s, b) && Spared(s, r, b)
    ensures WellFormed(r.m, b) && Owns(r.m, b, s.owners[b]) && SameView(s.m, r.m, b)
  {
    SparedTables(s, r, b);
    SparedIsWellFormed(s.m, r.m, b);
    forall d: nat, t: nat | IsUser(d) && t < ENTRIES
      ensures Lookup(r.m, b, d, t) == Lookup(s.m, b, d, t) && SameUserPage(s.m, r.m, b, d, t)
    {
      if Lookup(s.m, b, d, t).Some? { assert FrameOf(Lookup(s.m, b, d, t).value) in s.owners[b]; }
    }
    forall f: nat, slot | f in s.owners[b] && s.owners[b][f] == slot ensures Uses(r.m, b, f, slot) {
      assert Uses(s.m, b, f, slot);
    }
  }

  lemma SparedIsWellFormed(m: Memory, m': Memory, b: nat)
    requires WellFormed(m, b) && PageAt(m', b) == PageAt(m, b)
    requires forall d: nat :: d < SELF_INDEX && Present(Pde(m, b, d)) ==>
      PageAt(m', TableOf(m, b, d)) == PageAt(m, TableOf(m, b, d))
    ensures WellFormed(m', b)
  {
    assert forall d: nat :: d < ENTRIES ==> Pde(m', b, d) == Pde(m, b, d) && TableOf(m', b, d) == TableOf(m, b, d);
    assert forall d: nat, t: nat :: d < SELF_INDEX && t < ENTRIES && Present(Pde(m, b, d)) ==>
      Pte(m', b, d, t) == Pte(m, b, d, t);
  }

  // ---------------------------------------------------------------- a step that changes one space

  // From s to r directory a has exchanged frames with the free ones, and only frames of these two have changed.
  ghost predicate Reshapes(s: State, r: State, a: nat) {
    && a in s.owners && a in r.owners && r.owners == s.owners[a := r.owners[a]] && r.frames == s.frames
    && WellFormed(r.m, a) && Owns(r.m, a, r.owners[a])
    && (forall d: nat :: d < SELF_INDEX && !IsUser(d) ==> Pde(r.m, a, d) == Pde(s.m, a, d))
    && (forall g: nat :: g !in s.owners[a] && g !in s.free ==> PageAt(r.m, g) == PageAt(s.m, g))
    && Exchanged(s.owners[a].Keys, s.free, r.owners[a].Keys, r.free)
  }

  // What two disjoint sets have together is divided anew between them.
  ghost predicate Exchanged(x: set<nat>, y: set<nat>, x': set<nat>, y': set<nat>) {
    x' !! y' && forall f :: f in x' || f in y' <==> f in x || f in y
  }

  lemma OthersAreSpared(s: State, r: State, a: nat, b: nat)
    requires Ok(s) && Reshapes(s, r, a) && b in s.owners && b != a
    ensures Spared(s, r, b)
  {
    assert SpaceOk(s, b) && s.owners[a].Keys !! s.owners[b].Keys;
  }

  lemma SharedStays(s: State, r: State, a: nat, f: nat)
    requires Reshapes(s, r, a) && Shared(s, f)
    ensures Shared(r, f)
  {
    assert f !in s.owners[a];
    forall b | b in r.owners ensures f !in r.owners[b] { assert b in s.owners; }
  }

  lemma ReshapeKeepsOk(s: State, r: State, a: nat)
    requires Ok(s) && Reshapes(s, r, a)
    ensures Ok(r) && forall f: nat :: Tracked(r, f) <==> Tracked(s, f)
  {
    forall b | b in r.owners ensures SpaceOk(r, b) {
      assert SpaceOk(s, b);
      if b != a {
        OthersAreSpared(s, r, a, b);
        SparedStays(s, r, b);
        SparedTables(s, r, b);
        assert s.owners[a].Keys !! s.owners[b].Keys;
      }
      forall d: nat | d < SELF_INDEX && !IsUser(d) && Present(Pde(r.m, b, d)) ensures Shared(r, TableOf(r.m, b, d)) {
        assert Pde(r.m, b, d) == Pde(s.m, b, d);
        SharedStays(s, r, a, TableOf(s.m, b, d));
      }
    }
    ReshapeKeepsApart(s, r, a);
    ReshapeKeepsTracked(s, r, a);
  }

  lemma ReshapeKeepsApart(s: State, r: State, a: nat)
    requires Ok(s) && Reshapes(s, r, a)
    ensures Disjoint(r)
  {
    forall b | b in r.owners && b != a ensures r.owners[a].Keys !! r.owners[b].Keys {
      assert SpaceOk(s, b) && s.owners[a].Keys !! s.owners[b].Keys;
      forall f | f in r.owners[a] ensures f !in r.owners[b] { assert f in s.owners[a] || f in s.free; }
    }
  }

  lemma ReshapeKeepsTracked(s: State, r: State, a: nat)
    requires Reshapes(s, r, a)
    ensures forall f: nat :: Tracked(r, f) <==> Tracked(s, f)
  {
    forall f: nat ensures Tracked(r, f) <==> Tracked(s, f) {
      if Tracked(s, f) && f !in s.free {
        var b: nat :| b in s.owners && f in s.owners[b];
        assert b in r.owners;
      }
      if Tracked(r, f) && f !in r.free {
        var b: nat :| b in r.owners && f in r.owners[b];
        assert b in s.owners;
      }
    }
  }

  // ---------------------------------------------------------------- each kind of step

  // A mapped page adds its frame, and its table's if that is new, to what its directory owns.
  lemma MapOwns(m: Memory, a: nat, owner: map<nat, Slot>, d: nat, t: nat, entry: nat, m': Memory, free: set<nat>,
                free': set<nat>)
    requires Owns(m, a, owner) && owner.Keys !! free && IsUser(d) && t < ENTRIES
    requires Mapped(m, a, d, t, entry, m', free, free')
    requires FrameOf(entry) !in owner && FrameOf(entry) !in free
    ensures Owns(m', a, Grown(owner, TableOf(m', a, d), FrameOf(entry), d, t))
  {
    var table, frame := TableOf(m', a, d), FrameOf(entry);
    var owner' := Grown(owner, table, frame, d, t);
    assert Lookup(m', a, d, t).Some?;
    assert table != frame && frame != a && table != a;
    forall e: nat | IsUser(e) && Present(Pde(m', a, e))
      ensures TableOf(m', a, e) in owner' && owner'[TableOf(m', a, e)] == TableSlot(e)
    {
      if e != d { assert Pde(m', a, e) == Pde(m, a, e); }
    }
    forall e: nat, u: nat | IsUser(e) && u < ENTRIES && Lookup(m', a, e, u).Some?
      ensures var f := FrameOf(Lookup(m', a, e, u).value); f in owner' && owner'[f] == PageSlot(e, u)
    {
      if e != d || u != t { assert Lookup(m', a, e, u) == Lookup(m, a, e, u); }
    }
    forall f: nat, slot | f in owner' && owner'[f] == slot ensures Uses(m', a, f, slot) {
      if f != table && f != frame { MapUses(m, a, d, t, entry, m', free, free', f, slot); }
    }
  }

  lemma MapUses(m: Memory, a: nat, d: nat, t: nat, entry: nat, m': Memory, free: set<nat>, free': set<nat>, f: nat,
                slot: Slot)
    requires IsUser(d) && t < ENTRIES && Mapped(m, a, d, t, entry, m', free, free') && Uses(m, a, f, slot)
    ensures Uses(m', a, f, slot)
  {
    match slot
    case DirSlot =>
    case TableSlot(e) => assert e != d ==> Pde(m', a, e) == Pde(m, a, e);
    case PageSlot(e, u) => assert Lookup(m', a, e, u) == Lookup(m, a, e, u);
  }

  lemma MapReshapes(s: State, a: nat, d: nat, t: nat, flags: nat, r: State)
    requires Ok(s) && Does(s, Map(a, d, t, flags), r)
    ensures Reshapes(s, r, a)
  {
    var frame: nat :| Maps(s, a, d, t, flags, r, frame);
    assert SpaceOk(s, a);
    EntryParts(frame, flags);
    MapOwns(s.m, a, s.owners[a], d, t, Entry(frame, flags), r.m, s.free - {frame}, r.free);
    MapExchanges(s, a, d, t, flags, r, frame);
  }

  lemma MapExchanges(s: State, a: nat, d: nat, t: nat, flags: nat, r: State, frame: nat)
    requires Ok(s) && a in s.owners && IsUser(d) && t < ENTRIES && Maps(s, a, d, t, flags, r, frame)
    ensures Exchanged(s.owners[a].Keys, s.free, r.owners[a].Keys, r.free)
    ensures TableOf(r.m, a, d) in s.owners[a] || TableOf(r.m, a, d) in s.free
  {
    assert SpaceOk(s, a);
    assert Present(Pde(s.m, a, d)) ==> TableOf(s.m, a, d) in s.owners[a];
  }

  lemma UnmapOwns(m: Memory, a: nat, owner: map<nat, Slot>, d: nat, t: nat, m': Memory)
    requires WellFormed(m, a) && Owns(m, a, owner) && IsUser(d) && t < ENTRIES && m' == Unmapped(m, a, d, t)
    ensures Owns(m', a, Shrunk(owner, Released(m, a, d, t)))
    ensures Released(m, a, d, t) <= owner.Keys && a !in Released(m, a, d, t)
  {
    UnmapEffect(m, a, d, t, m');
    ReleasedIsOwned(m, a, owner, d, t);
    var gone := Released(m, a, d, t);
    var owner' := Shrunk(owner, gone);
    forall e: nat | IsUser(e) && Present(Pde(m', a, e))
      ensures TableOf(m', a, e) in owner' && owner'[TableOf(m', a, e)] == TableSlot(e)
    {
      assert Pde(m', a, e) == Pde(m, a, e);
    }
    forall e: nat, u: nat | IsUser(e) && u < ENTRIES && Lookup(m', a, e, u).Some?
      ensures var f := FrameOf(Lookup(m', a, e, u).value); f in owner' && owner'[f] == PageSlot(e, u)
    {
      assert Lookup(m', a, e, u) == Lookup(m, a, e, u);
    }
    forall f: nat, slot | f in owner' && owner'[f] == slot ensures Uses(m', a, f, slot) {
      assert Uses(m, a, f, slot);
      UnmapUses(m, a, d, t, m', f, slot);
    }
  }

  // What is given back is the page of that slot, and the table of that slot if no other page is in it.
  lemma ReleasedIsOwned(m: Memory, a: nat, owner: map<nat, Slot>, d: nat, t: nat)
    requires Owns(m, a, owner) && IsUser(d) && t < ENTRIES
    ensures forall f :: f in Released(m, a, d, t) ==>
      f in owner && (owner[f] == PageSlot(d, t) || (owner[f] == TableSlot(d) && LastPage(m, a, d, t)))
  {
    if Lookup(m, a, d, t).Some? { assert FrameOf(Lookup(m, a, d, t).value) in owner; }
  }

  lemma UnmapUses(m: Memory, a: nat, d: nat, t: nat, m': Memory, f: nat, slot: Slot)
    requires WellFormed(m, a) && IsUser(d) && t < ENTRIES && m' == Unmapped(m, a, d, t)
    requires Uses(m, a, f, slot) && f !in Released(m, a, d, t)
    ensures Uses(m', a, f, slot)
  {
    UnmapEffect(m, a, d, t, m');
    match slot
    case DirSlot =>
    case TableSlot(e) => assert Pde(m', a, e) == Pde(m, a, e);
    case PageSlot(e, u) => assert Lookup(m', a, e, u) == Lookup(m, a, e, u);
  }

  lemma UnmapReshapes(s: State, a: nat, d: nat, t: nat, r: State)
    requires Ok(s) && Does(s, Unmap(a, d, t), r)
    ensures Reshapes(s, r, a)
  {
    assert SpaceOk(s, a);
    UnmapEffect(s.m, a, d, t, r.m);
    UnmapOwns(s.m, a, s.owners[a], d, t, r.m);
    var gone := Released(s.m, a, d, t);
    forall f | f in gone ensures f < s.frames { assert Tracked(s, f); }
    assert Below(gone, s.frames) == gone;
  }

  // What a reset gives back is what the directory owns but for itself.
  lemma ResetGivesBack(s: State, a: nat)
    requires Ok(s) && a in s.owners
    ensures GivenBack(s.m, a, END, s.frames) == s.owners[a].Keys - {a} && Below({a}, s.frames) == {a}
  {
    assert SpaceOk(s, a);
    DeallocGivesBackOwned(s.m, a, s.owners[a], s.frames);
    OwnedIsManaged(s, a);
    DirIsNotGivenBack(s.m, a, s.owners[a], s.frames);
    SetsAddUp(GivenBack(s.m, a, END, s.frames), a, s.owners[a].Keys, s.frames);
  }

  lemma OwnedIsManaged(s: State, a: nat)
    requires Ok(s) && a in s.owners
    ensures (forall f :: f in s.owners[a] ==> f < s.frames) && a in s.owners[a]
  {
    assert SpaceOk(s, a);
    forall f | f in s.owners[a] ensures f < s.frames { assert Tracked(s, f); }
  }

  lemma DirIsNotGivenBack(m: Memory, a: nat, owner: map<nat, Slot>, n: nat)
    requires Owns(m, a, owner)
    ensures a !in GivenBack(m, a, END, n)
  {
    assert !PageFrameBelow(m, a, END, a) && !TableFrameDone(m, a, END, a);
  }

  lemma SetsAddUp(given: set<nat>, a: nat, owned: set<nat>, n: nat)
    requires given + Below({a}, n) == Below(owned, n) && a !in given && a in owned && forall f :: f in owned ==> f < n
    ensures given == owned - {a} && Below({a}, n) == {a}
  {
    assert Below({a}, n) == {a} && Below(owned, n) == owned;
  }

  lemma ResetOwns(m: Memory, a: nat, m': Memory)
    requires WellFormed(m, a) && WalkedTo(m, m', a, END)
    ensures Owns(m', a, map[a := DirSlot])
    ensures forall d: nat :: d < SELF_INDEX && !IsUser(d) ==> Pde(m', a, d) == Pde(m, a, d)
  {
    AllPagesBelow();
    forall d: nat | IsUser(d) ensures !Present(Pde(m', a, d)) {
      assert Present(Pde(m, a, d)) ==> TableDone(m, a, d, END);
    }
  }

  lemma ResetReshapes(s: State, a: nat, r: State)
    requires Ok(s) && Does(s, Reset(a), r)
    ensures Reshapes(s, r, a)
  {
    assert SpaceOk(s, a);
    ResetGivesBack(s, a);
    ResetOwns(s.m, a, r.m);
    assert a in s.owners[a];
  }

  // A page is neither the directory nor a table.
  lemma PageIsPlain(s: State, a: nat, frame: nat)
    requires Ok(s) && a in s.owners && frame in s.owners[a] && s.owners[a][frame].PageSlot?
    ensures frame != a && forall d: nat :: d < SELF_INDEX && Present(Pde(s.m, a, d)) ==> TableOf(s.m, a, d) != frame
  {
    assert SpaceOk(s, a);
    forall d: nat | d < SELF_INDEX && Present(Pde(s.m, a, d)) ensures TableOf(s.m, a, d) != frame {
      if !IsUser(d) { assert Shared(s, TableOf(s.m, a, d)); }
    }
  }

  lemma WriteKeepsView(m: Memory, a: nat, frame: nat, content: Page, owner: map<nat, Slot>)
    requires WellFormed(m, a) && Owns(m, a, owner)
    requires frame != a && forall d: nat :: d < SELF_INDEX && Present(Pde(m, a, d)) ==> TableOf(m, a, d) != frame
    ensures WellFormed(m[frame := content], a) && Owns(m[frame := content], a, owner)
    ensures forall d: nat :: d < ENTRIES ==> Pde(m[frame := content], a, d) == Pde(m, a, d)
  {
    var m' := m[frame := content];
    SparedIsWellFormed(m, m', a);
    assert forall d: nat, t: nat :: IsUser(d) && t < ENTRIES ==> Lookup(m', a, d, t) == Lookup(m, a, d, t);
    forall f: nat, other | f in owner && owner[f] == other ensures Uses(m', a, f, other) {
      assert Uses(m, a, f, other);
    }
  }

  lemma WriteReshapes(s: State, a: nat, frame: nat, content: Page, r: State)
    requires Ok(s) && Does(s, Write(a, frame, content), r)
    ensures Reshapes(s, r, a)
  {
    assert SpaceOk(s, a);
    PageIsPlain(s, a, frame);
    WriteKeepsView(s.m, a, frame, content, s.owners[a]);
  }

  // ---------------------------------------------------------------- clones and releases

  lemma CloneKeepsOk(s: State, a: nat, r: State)
    requires Ok(s) && Does(s, Clone(a), r)
    ensures Ok(r) && forall f: nat :: Tracked(r, f) <==> Tracked(s, f)
  {
    var c: nat, owner: map<nat, Slot> :| Clones(s, a, r, c, owner);
    CloneIsNew(s, a, r, c, owner);
    forall b | b in r.owners ensures SpaceOk(r, b) {
      if b == c { CloneSpaceOk(s, a, r, c, owner); } else { CloneSparesSpace(s, a, r, c, owner, b); }
    }
    forall f: nat ensures Tracked(r, f) <==> Tracked(s, f) {
      if Tracked(s, f) && f !in s.free {
        var b: nat :| b in s.owners && f in s.owners[b];
        assert b in r.owners;
      }
      if Tracked(r, f) && f !in r.free {
        var b: nat :| b in r.owners && f in r.owners[b];
        assert b == c || b in s.owners;
      }
      if f in owner { assert c in r.owners; }
    }
  }

  lemma OwnedIsNotFree(s: State)
    requires Ok(s)
    ensures forall b :: b in s.owners ==> b in s.owners[b] && s.owners[b].Keys !! s.free
  {
    forall b | b in s.owners ensures b in s.owners[b] && s.owners[b].Keys !! s.free { assert SpaceOk(s, b); }
  }

  lemma CloneIsNew(s: State, a: nat, r: State, c: nat, owner: map<nat, Slot>)
    requires Ok(s) && a in s.owners && Clones(s, a, r, c, owner)
    ensures c !in s.owners && Disjoint(r) && forall f: nat :: Shared(s, f) ==> Shared(r, f)
    ensures forall b :: b in s.owners ==> Spared(s, r, b) && r.owners[b] == s.owners[b]
  {
    OwnedIsNotFree(s);
    assert c in owner && c in s.free;
    assert forall b :: b in s.owners ==> s.owners[b].Keys !! owner.Keys;
  }

  lemma CloneSpaceOk(s: State, a: nat, r: State, c: nat, owner: map<nat, Slot>)
    requires Ok(s) && a in s.owners && Clones(s, a, r, c, owner)
    ensures c in r.owners && SpaceOk(r, c)
  {
    assert SpaceOk(s, a);
    CloneIsNew(s, a, r, c, owner);
    forall d: nat | d < SELF_INDEX && !IsUser(d) && Present(Pde(r.m, c, d)) ensures Shared(r, TableOf(r.m, c, d)) {
      assert Pde(r.m, c, d) == Pde(s.m, a, d);
      assert Shared(s, TableOf(s.m, a, d));
    }
  }

  lemma CloneSparesSpace(s: State, a: nat, r: State, c: nat, owner: map<nat, Slot>, b: nat)
    requires Ok(s) && a in s.owners && Clones(s, a, r, c, owner) && b in s.owners
    ensures b in r.owners && SpaceOk(r, b) && SameView(s.m, r.m, b)
  {
    assert SpaceOk(s, b);
    CloneIsNew(s, a, r, c, owner);
    SparedStays(s, r, b);
    SparedTables(s, r, b);
  }

  lemma ReleaseFrees(s: State, a: nat, r: State)
    requires Ok(s) && Does(s, Release(a), r)
    ensures r.free == s.free + s.owners[a].Keys
    ensures forall g: nat :: g !in s.owners[a] ==> PageAt(r.m, g) == PageAt(s.m, g)
    ensures forall f: nat :: Shared(s, f) ==> Shared(r, f)
  {
    assert SpaceOk(s, a);
    ResetGivesBack(s, a);
    OwnedIsManaged(s, a);
  }

  lemma ReleaseSpares(s: State, a: nat, r: State, b: nat)
    requires Ok(s) && Does(s, Release(a), r) && b in s.owners && b != a
    ensures Spared(s, r, b) && b in r.owners && SpaceOk(r, b) && SameView(s.m, r.m, b)
  {
    assert SpaceOk(s, b) && s.owners[a].Keys !! s.owners[b].Keys;
    ReleaseFrees(s, a, r);
    assert Spared(s, r, b);
    SparedStays(s, r, b);
    SparedTables(s, r, b);
  }

  // A release gives back exactly what the directory owns, whatever has happened to it since it was made.
  lemma ReleaseKeepsOk(s: State, a: nat, r: State)
    requires Ok(s) && Does(s, Release(a), r)
    ensures Ok(r) && r.free == s.free + s.owners[a].Keys && forall f: nat :: Tracked(r, f) <==> Tracked(s, f)
  {
    ReleaseFrees(s, a, r);
    ReleaseTracks(s, a, r);
    forall b | b in r.owners ensures SpaceOk(r, b) { ReleaseSpares(s, a, r, b); }
  }

  lemma ReleaseTracks(s: State, a: nat, r: State)
    requires a in s.owners && r.owners == s.owners - {a} && r.free == s.free + s.owners[a].Keys
    ensures forall f: nat :: Tracked(r, f) <==> Tracked(s, f)
  {
    forall f: nat ensures Tracked(r, f) <==> Tracked(s, f) {
      if Tracked(s, f) && f !in s.free {
        var b: nat :| b in s.owners && f in s.owners[b];
        assert b == a || b in r.owners;
      }
      if Tracked(r, f) && f !in r.free {
        var b: nat :| b in r.owners && f in r.owners[b];
        assert b in s.owners;
      }
    }
  }

  // ---------------------------------------------------------------- steps and runs

  lemma StepKeepsOk(s: State, step: Step, r: State)
    requires Ok(s) && Does(s, step, r)
    ensures Ok(r) && forall f: nat :: Tracked(r, f) <==> Tracked(s, f)
  {
    match step
    case Clone(a) => CloneKeepsOk(s, a, r);
    case Release(a) => ReleaseKeepsOk(s, a, r);
    case _ =>
      StepReshapes(s, step, r);
      ReshapeKeepsOk(s, r, step.a);
  }

  lemma StepReshapes(s: State, step: Step, r: State)
    requires Ok(s) && Does(s, step, r) && !step.Clone? && !step.Release?
    ensures Reshapes(s, r, step.a)
  {
    match step
    case Map(a, d, t, flags) => MapReshapes(s, a, d, t, flags, r);
    case Unmap(a, d, t) => UnmapReshapes(s, a, d, t, r);
    case Reset(a) => ResetReshapes(s, a, r);
    case Write(a, frame, content) => WriteReshapes(s, a, frame, content, r);
  }

  // A step changes no page of another address space, and a clone none of the cloned one either.
  lemma StepIsIsolated(s: State, step: Step, r: State, b: nat)
    requires Ok(s) && Does(s, step, r) && b in s.owners && (b != step.a || step.Clone?)
    ensures b in r.owners && SameView(s.m, r.m, b)
  {
    assert SpaceOk(s, b);
    match step
    case Clone(a) =>
      var c: nat, owner: map<nat, Slot> :| Clones(s, a, r, c, owner);
      CloneSparesSpace(s, a, r, c, owner, b);
    case Release(a) => ReleaseSpares(s, a, r, b);
    case _ =>
      StepReshapes(s, step, r);
      OthersAreSpared(s, r, step.a, b);
      SparedStays(s, r, b);
  }

  ghost predicate Run(ss: seq<State>, steps: seq<Step>) {
    |ss| == |steps| + 1 && forall i :: 0 <= i < |steps| ==> Does(ss[i], steps[i], ss[i + 1])
  }

  // Where runs start: one directory without user pages, and free frames that are neither it nor a kernel table.
  lemma StartIsOk(m: Memory, a: nat, free: set<nat>, n: nat)
    requires WellFormed(m, a) && Settled(m, a, free) && a < n && (forall f: nat :: f in free ==> f < n)
    requires forall d: nat :: IsUser(d) ==> Pde(m, a, d) == 0
    ensures Ok(State(m, free, map[a := map[a := DirSlot]], n))
  {
    var s := State(m, free, map[a := map[a := DirSlot]], n);
    assert Owns(m, a, s.owners[a]);
    assert SpaceOk(s, a);
  }

  // What the functions of `Paging` ask of their callers holds for every directory.
  lemma CallsAreAllowed(s: State, a: nat)
    requires Ok(s) && a in s.owners
    ensures WellFormed(s.m, a) && Settled(s.m, a, s.free) && PagesSettled(s.m, a, s.free)
  {
    assert SpaceOk(s, a);
    forall d: nat | d < SELF_INDEX && Present(Pde(s.m, a, d)) ensures TableOf(s.m, a, d) !in s.free {
      if IsUser(d) { assert TableOf(s.m, a, d) in s.owners[a]; } else { assert Shared(s, TableOf(s.m, a, d)); }
    }
    forall d: nat, t: nat | IsUser(d) && t < ENTRIES && Lookup(s.m, a, d, t).Some?
      ensures FrameOf(Lookup(s.m, a, d, t).value) !in s.free
    {
      assert FrameOf(Lookup(s.m, a, d, t).value) in s.owners[a];
    }
  }

  // In every state of every run each managed frame is free or owned by one directory for one use, and none comes or
  // goes.
  lemma {:induction false} RunKeepsOk(ss: seq<State>, steps: seq<Step>, i: nat)
    requires Run(ss, steps) && Ok(ss[0]) && i < |ss|
    ensures Ok(ss[i]) && forall f: nat :: Tracked(ss[i], f) <==> Tracked(ss[0], f)
  {
    if i > 0 {
      RunKeepsOk(ss, steps, i - 1);
      StepKeepsOk(ss[i - 1], steps[i - 1], ss[i]);
    }
  }

  // No user frame is ever mapped in two directories, or twice in one, or free.
  lemma FramesAreNotShared(ss: seq<State>, steps: seq<Step>, i: nat, a: nat, b: nat, d: nat, t: nat, e: nat, u: nat)
    requires Run(ss, steps) && Ok(ss[0]) && i < |ss| && a in ss[i].owners && b in ss[i].owners
    requires IsUser(d) && t < ENTRIES && IsUser(e) && u < ENTRIES && Lookup(ss[i].m, a, d, t).Some?
    requires Lookup(ss[i].m, b, e, u).Some?
    ensures var f := FrameOf(Lookup(ss[i].m, a, d, t).value);
      f !in ss[i].free && (f == FrameOf(Lookup(ss[i].m, b, e, u).value) ==> a == b && d == e && t == u)
  {
    var s := ss[i];
    RunKeepsOk(ss, steps, i);
    assert SpaceOk(s, a) && SpaceOk(s, b);
    var f, g := FrameOf(Lookup(s.m, a, d, t).value), FrameOf(Lookup(s.m, b, e, u).value);
    assert f in s.owners[a] && s.owners[a][f] == PageSlot(d, t) && g in s.owners[b] && s.owners[b][g] == PageSlot(e, u);
    assert a != b ==> s.owners[a].Keys !! s.owners[b].Keys;
  }

  // Over a run in which b takes no step but clones, its pages stay mapped as they were, with the bytes that they had.
  lemma {:induction false} SpacesAreIsolated(ss: seq<State>, steps: seq<Step>, b: nat, i: nat)
    requires Run(ss, steps) && Ok(ss[0]) && b in ss[0].owners && i < |ss|
    requires forall j :: 0 <= j < |steps| ==> steps[j].a != b || steps[j].Clone?
    ensures b in ss[i].owners && SameView(ss[0].m, ss[i].m, b)
  {
    if i > 0 {
      SpacesAreIsolated(ss, steps, b, i - 1);
      RunKeepsOk(ss, steps, i - 1);
      StepIsIsolated(ss[i - 1], steps[i - 1], ss[i], b);
      forall d: nat, t: nat | IsUser(d) && t < ENTRIES ensures SameUserPage(ss[0].m, ss[i].m, b, d, t) {
        assert SameUserPage(ss[0].m, ss[i - 1].m, b, d, t) && SameUserPage(ss[i - 1].m, ss[i].m, b, d, t);
      }
    }
  }
}
