/** Page tables that do not come blank: what a page that the page allocator hands out as it
    is does to the answers of vmm_resolve. */
module DirtyTables {
  import opened Options
  import opened Bits
  import opened Entries
  import opened PageFrames
  import opened PageTables
  import opened AddressSpaces
  import opened TableEconomy
  import opened Directories
  import opened BootMapping

  // --- a missing last-level table ------------------------------------------------------------

  /** When only the last-level table is missing: mapping a page leaves the answers for all
      other pages of the root alone exactly when the page handed out for the table holds no
      present entry besides the one that is overwritten. */
  lemma DirtyTable(vm: Vm, place: Places, r: nat, va: nat, phys: nat, flags: nat)
    requires Shape(vm, place) && IsRoot(place, r) && Pd(vm.ram, r, PathOf(va)).Some? && Pt(vm.ram, r, PathOf(va)).None?
    requires AllocTable(vm).Some?
    ensures Map(vm, r, va, phys, flags).Some?
    ensures var (vm0, n) := AllocTable(vm).value; var p := PathOf(va);
      var vm1 := Map(vm, r, va, phys, flags).value;
      (forall o | ValidPath(o) && o != p :: SameAnswer(vm.ram, vm1.ram, r, o)) <==>
      (forall j | 0 <= j < ENTRIES && j != p.i1 :: !Present(Read(vm0.ram, n)[j]))
  {
    PresentValues();
    var p := PathOf(va);
    var (vm0, n) := AllocTable(vm).value;
    DirtyMap(vm, place, r, va, phys, flags);
    var ram1 := Map(vm, r, va, phys, flags).value.ram;
    if forall j | 0 <= j < ENTRIES && j != p.i1 :: !Present(Read(vm0.ram, n)[j]) {
      forall o | ValidPath(o) && o != p ensures SameAnswer(vm.ram, ram1, r, o) {
        DirtyEntry(vm, place, vm0.ram, ram1, r, p, n, o);
      }
    } else {
      var j :| 0 <= j < ENTRIES && j != p.i1 && Present(Read(vm0.ram, n)[j]);
      var o := p.(i1 := j);
      DirtyEntry(vm, place, vm0.ram, ram1, r, p, n, o);
      assert !SameAnswer(vm.ram, ram1, r, o);
    }
  }

  /** The state of memory after such a map. */
  ghost predicate DirtyStep(vm: Vm, ram0: Ram, ram1: Ram, pd: nat, i2: nat, i1: nat, n: nat)
    requires i2 < ENTRIES && i1 < ENTRIES
  {
    && (forall s | s != pd && s != n :: Read(ram1, s) == Read(vm.ram, s))
    && (forall j | 0 <= j < ENTRIES && j != i2 :: Read(ram1, pd)[j] == Read(vm.ram, pd)[j])
    && Next(ram1, pd, i2) == Some(n)
    && (forall j | 0 <= j < ENTRIES && j != i1 :: Read(ram1, n)[j] == Read(ram0, n)[j])
  }

  lemma DirtyMap(vm: Vm, place: Places, r: nat, va: nat, phys: nat, flags: nat)
    requires Shape(vm, place) && IsRoot(place, r) && Pd(vm.ram, r, PathOf(va)).Some? && Pt(vm.ram, r, PathOf(va)).None?
    requires AllocTable(vm).Some?
    ensures Map(vm, r, va, phys, flags).Some?
    ensures var (vm0, n) := AllocTable(vm).value; var p := PathOf(va);
      n !in place &&
      DirtyStep(vm, vm0.ram, Map(vm, r, va, phys, flags).value.ram, Pd(vm.ram, r, p).value, p.i2, p.i1, n)
  {
    var p := PathOf(va);
    var (vm0, n) := AllocTable(vm).value;
    Walk(vm, place, r, p);
    var pd := Pd(vm.ram, r, p).value;
    DirtyAlloc(vm, place, pd);
    LinkFacts(n, flags);
    assert Map(vm, r, va, phys, flags).value.ram ==
      Write(Write(vm0.ram, pd, p.i2, LinkEntry(n, flags)), n, p.i1, LeafEntry(phys, flags));
  }

  predicate SameAnswer(ram: Ram, ram1: Ram, r: nat, o: Path)
    requires ValidPath(o)
  {
    var e, e1 := Entry(ram, r, o), Entry(ram1, r, o);
    (Present(e) <==> Present(e1)) && (Present(e) ==> Ptr(e) == Ptr(e1))
  }

  lemma DirtyAlloc(vm: Vm, place: Places, pd: nat)
    requires Shape(vm, place) && AllocTable(vm).Some? && pd in place
    ensures var (vm0, n) := AllocTable(vm).value;
      n !in place && IsPage(n) && n != pd && (forall s | s != n :: Read(vm0.ram, s) == Read(vm.ram, s))
  {
    AllocFresh(vm);
    var (vm0, n) := AllocTable(vm).value;
    assert TableOk(vm, place, pd);
    assert n in place ==> TableOk(vm, place, n);
  }

  lemma DirtyEntry(vm: Vm, place: Places, ram0: Ram, ram1: Ram, r: nat, p: Path, n: nat, o: Path)
    requires Shape(vm, place) && IsRoot(place, r) && ValidPath(p) && ValidPath(o) && n !in place && o != p
    requires Pd(vm.ram, r, p).Some? && Pt(vm.ram, r, p).None?
    requires DirtyStep(vm, ram0, ram1, Pd(vm.ram, r, p).value, p.i2, p.i1, n)
    ensures if o.i4 == p.i4 && o.i3 == p.i3 && o.i2 == p.i2
      then Entry(vm.ram, r, o) == 0 && Entry(ram1, r, o) == Seen(Read(ram0, n)[o.i1])
      else Entry(ram1, r, o) == Entry(vm.ram, r, o)
  {
    hide Shape, Present;
    Walk(vm, place, r, p);
    Walk(vm, place, r, o);
    var pd := Pd(vm.ram, r, p).value;
    assert Pdp(ram1, r, o) == Pdp(vm.ram, r, o);
    assert Pd(ram1, r, o) == Pd(vm.ram, r, o);
    if Pd(vm.ram, r, o) == Some(pd) {
      assert o.i4 == p.i4 && o.i3 == p.i3;
    } else if Pd(vm.ram, r, o).Some? {
      assert Pt(ram1, r, o) == Pt(vm.ram, r, o);
    }
  }

  // --- any missing table -----------------------------------------------------------------------

  /** The depth of the first table that path p misses below root r. */
  function MissingAt(ram: Ram, r: nat, p: Path): nat
    requires ValidPath(p)
  {
    if Pdp(ram, r, p).None? then 0 else if Pd(ram, r, p).None? then 1 else 2
  }

  /** The walk of o from root q comes to the very entry that path p of root r misses. */
  predicate Passes(ram: Ram, q: nat, o: Path, r: nat, p: Path)
    requires ValidPath(p) && ValidPath(o)
  {
    var d := MissingAt(ram, r, p);
    Reached(ram, q, o, d) == Reached(ram, r, p, d) && IndexAt(o, d) == IndexAt(p, d)
  }

  /** Seen from the known tables, only entry i of t has changed; the rest happened on pages
      that were available. */
  ghost predicate Beyond(vm: Vm, place: Places, cur: Vm, t: nat, i: nat) {
    && Sound(cur) && OnlyAt(vm, place, cur, t, i)
    && (forall s :: Available(cur, s) ==> Available(vm, s))
  }

  /** A level that is missing, at the known entry or on a page taken before. */
  lemma TakeLevel(vm: Vm, place: Places, cur: Vm, t: nat, i: nat, s: nat, j: nat, flags: nat)
    requires Shape(vm, place) && Beyond(vm, place, cur, t, i) && t in place && j < ENTRIES
    requires (s == t && j == i) || (s !in place && !Available(cur, s))
    requires Next(cur.ram, s, j).None? && Level(cur, s, j, flags).Some?
    ensures var (next, n) := Level(cur, s, j, flags).value;
      && Beyond(vm, place, next, t, i) && n !in place && !Available(next, n)
      && Next(next.ram, s, j) == Some(n)
  {
    var (cur0, n) := AllocTable(cur).value;
    FreshPage(vm, place, cur);
    TableInUse(vm, place, t);
    LinkFacts(n, flags);
    assert n != s;
    FreshBeyond(vm, place, cur, cur0, n, t, i);
    hide Shape, AllocTable, Supply, LinkEntry, Ptr, Present, Beyond;
    WriteBeyond(vm, place, cur0, t, i, s, j, LinkEntry(n, flags));
  }

  lemma FreshBeyond(vm: Vm, place: Places, cur: Vm, cur0: Vm, n: nat, t: nat, i: nat)
    requires Beyond(vm, place, cur, t, i) && Fresh(cur, cur0, n) && n !in place
    ensures Beyond(vm, place, cur0, t, i)
  {
  }

  lemma FreshPage(vm: Vm, place: Places, cur: Vm)
    requires Shape(vm, place) && Sound(cur) && (forall s :: Available(cur, s) ==> Available(vm, s))
    requires AllocTable(cur).Some?
    ensures Fresh(cur, AllocTable(cur).value.0, AllocTable(cur).value.1) && AllocTable(cur).value.1 !in place
  {
    AllocFresh(cur);
    hide AllocTable, LinkOk;
    var n := AllocTable(cur).value.1;
    assert n in place ==> TableOk(vm, place, n);
  }

  lemma TableInUse(vm: Vm, place: Places, t: nat)
    requires Shape(vm, place) && t in place
    ensures !Available(vm, t)
  {
    assert TableOk(vm, place, t);
  }

  /** None of the pages that the call takes already holds an entry where it will make one. */
  predicate FreshOnPath(vm: Vm, r: nat, va: nat, flags: nat) {
    var p := PathOf(va);
    match Level(vm, r, p.i4, flags)
    case None => false
    case Some((vm1, a)) =>
      && (Pdp(vm.ram, r, p).None? ==> Next(vm1.ram, a, p.i3).None?)
      && match Level(vm1, a, p.i3, flags)
         case None => false
         case Some((vm2, b)) => Pd(vm.ram, r, p).None? ==> Next(vm2.ram, b, p.i2).None?
  }

  /** The known tables after a call that has to make tables. */
  lemma MapBeyond(vm: Vm, place: Places, r: nat, va: nat, phys: nat, flags: nat)
    requires Shape(vm, place) && IsRoot(place, r) && Map(vm, r, va, phys, flags).Some?
    requires Pt(vm.ram, r, PathOf(va)).None? && FreshOnPath(vm, r, va, flags)
    ensures var p := PathOf(va); var d := MissingAt(vm.ram, r, p);
      && Reached(vm.ram, r, p, d).Some? && Reached(vm.ram, r, p, d).value in place
      && Next(vm.ram, Reached(vm.ram, r, p, d).value, IndexAt(p, d)).None?
      && Beyond(vm, place, Map(vm, r, va, phys, flags).value, Reached(vm.ram, r, p, d).value, IndexAt(p, d))
  {
    var p := PathOf(va);
    var d := MissingAt(vm.ram, r, p);
    Walk(vm, place, r, p);
    var t, i := Reached(vm.ram, r, p, d).value, IndexAt(p, d);
    var (vm1, a) := Level(vm, r, p.i4, flags).value;
    var (vm2, b) := Level(vm1, a, p.i3, flags).value;
    var (vm3, c) := Level(vm2, b, p.i2, flags).value;
    hide Shape, Level, Beyond;
    StartBeyond(vm, place, t, i);
    match d {
      case 0 =>
        TakeLevel(vm, place, vm, t, i, r, p.i4, flags);
        TakeLevel(vm, place, vm1, t, i, a, p.i3, flags);
        TakeLevel(vm, place, vm2, t, i, b, p.i2, flags);
      case 1 =>
        FoundLevel(vm, r, p.i4, flags);
        TakeLevel(vm, place, vm, t, i, a, p.i3, flags);
        TakeLevel(vm, place, vm2, t, i, b, p.i2, flags);
      case _ =>
        FoundLevel(vm, r, p.i4, flags);
        FoundLevel(vm, a, p.i3, flags);
        TakeLevel(vm, place, vm, t, i, b, p.i2, flags);
    }
    WriteBeyond(vm, place, vm3, t, i, c, p.i1, LeafEntry(phys, flags));
  }

  lemma StartBeyond(vm: Vm, place: Places, t: nat, i: nat)
    requires Shape(vm, place)
    ensures Beyond(vm, place, vm, t, i)
  {
  }

  lemma FoundLevel(vm: Vm, t: nat, i: nat, flags: nat)
    requires i < ENTRIES && Next(vm.ram, t, i).Some?
    ensures Level(vm, t, i, flags) == Some((vm, Next(vm.ram, t, i).value))
  {
  }

  lemma WriteBeyond(vm: Vm, place: Places, cur: Vm, t: nat, i: nat, s: nat, j: nat, e: nat)
    requires Beyond(vm, place, cur, t, i) && j < ENTRIES && (s !in place || (s == t && j == i))
    ensures Beyond(vm, place, cur.(ram := Write(cur.ram, s, j, e)), t, i)
  {
  }

  /** Walks that do not come to the changed entry see what they saw; those that do saw
      nothing before. */
  lemma BeyondEntry(vm: Vm, place: Places, vm1: Vm, r: nat, p: Path, q: nat, o: Path)
    requires Shape(vm, place) && IsRoot(place, r) && IsRoot(place, q) && ValidPath(p) && ValidPath(o)
    requires var d := MissingAt(vm.ram, r, p);
      && Reached(vm.ram, r, p, d).Some? && Next(vm.ram, Reached(vm.ram, r, p, d).value, IndexAt(p, d)).None?
      && OnlyAt(vm, place, vm1, Reached(vm.ram, r, p, d).value, IndexAt(p, d))
    ensures Passes(vm.ram, q, o, r, p) ==> Entry(vm.ram, q, o) == 0
    ensures !Passes(vm.ram, q, o, r, p) ==> Entry(vm1.ram, q, o) == Entry(vm.ram, q, o)
  {
    Walk(vm, place, q, o);
    Walk(vm, place, r, p);
    hide Shape;
  }

  /** Whichever tables are missing, as long as the new pages hold no entry on the path itself:
      mapping a page leaves all other answers of all roots alone exactly when no other walk
      through the entry that was missing finds a present entry on the new pages. */
  lemma DirtyPath(vm: Vm, place: Places, r: nat, va: nat, phys: nat, flags: nat)
    requires Shape(vm, place) && IsRoot(place, r) && Map(vm, r, va, phys, flags).Some?
    requires Pt(vm.ram, r, PathOf(va)).None? && FreshOnPath(vm, r, va, flags)
    ensures var p := PathOf(va); var vm1 := Map(vm, r, va, phys, flags).value;
      (forall q, o | IsRoot(place, q) && ValidPath(o) && o != p :: SameAnswer(vm.ram, vm1.ram, q, o)) <==>
      (forall q, o | IsRoot(place, q) && ValidPath(o) && o != p && Passes(vm.ram, q, o, r, p) ::
         !Present(Entry(vm1.ram, q, o)))
  {
    PresentValues();
    MapBeyond(vm, place, r, va, phys, flags);
    hide Map, Passes, FreshOnPath, Present, Shape;
    var p, vm1 := PathOf(va), Map(vm, r, va, phys, flags).value;
    forall q, o | IsRoot(place, q) && ValidPath(o) && o != p
      ensures SameAnswer(vm.ram, vm1.ram, q, o) <==> Passes(vm.ram, q, o, r, p) ==> !Present(Entry(vm1.ram, q, o))
    {
      BeyondEntry(vm, place, vm1, r, p, q, o);
    }
  }

  /** When a new directory table does hold an entry on the path, vmm_map takes the page that
      it names for the last table and writes the mapping there, whatever that page is. */
  lemma StrayWrite(vm: Vm, place: Places, r: nat, va: nat, phys: nat, flags: nat)
    requires Shape(vm, place) && IsRoot(place, r) && AllocTable(vm).Some?
    requires Pdp(vm.ram, r, PathOf(va)).Some? && Pd(vm.ram, r, PathOf(va)).None?
    requires var (vm0, n) := AllocTable(vm).value; Present(Read(vm0.ram, n)[PathOf(va).i2])
    ensures var p := PathOf(va); var (vm0, n) := AllocTable(vm).value;
      && !FreshOnPath(vm, r, va, flags) && n !in place && Map(vm, r, va, phys, flags).Some?
      && Map(vm, r, va, phys, flags).value.ram ==
         Write(Write(vm0.ram, Pdp(vm.ram, r, p).value, p.i3, LinkEntry(n, flags)),
               Ptr(Read(vm0.ram, n)[p.i2]), p.i1, LeafEntry(phys, flags))
  {
    var p := PathOf(va);
    var (vm0, n) := AllocTable(vm).value;
    Walk(vm, place, r, p);
    DirtyAlloc(vm, place, Pdp(vm.ram, r, p).value);
    LinkFacts(n, flags);
  }

  /** The same for a new page-directory-pointer table: the page that its entry names becomes the
      directory, and gets the mapping's table, or leads the mapping on to where it leads. */
  lemma StrayDirectory(vm: Vm, place: Places, r: nat, va: nat, phys: nat, flags: nat)
    requires Shape(vm, place) && IsRoot(place, r) && AllocTable(vm).Some? && Pdp(vm.ram, r, PathOf(va)).None?
    requires var (vm0, n) := AllocTable(vm).value; Present(Read(vm0.ram, n)[PathOf(va).i3])
    ensures var p := PathOf(va); var (vm0, n) := AllocTable(vm).value;
      var vm1 := vm0.(ram := Write(vm0.ram, r, p.i4, LinkEntry(n, flags)));
      var x := Ptr(Read(vm0.ram, n)[p.i3]);
      && !FreshOnPath(vm, r, va, flags) && n !in place
      && Map(vm, r, va, phys, flags) ==
         match Level(vm1, x, p.i2, flags)
         case None => None
         case Some((vm2, last)) => Some(vm2.(ram := Write(vm2.ram, last, p.i1, LeafEntry(phys, flags))))
  {
    var p := PathOf(va);
    var (vm0, n) := AllocTable(vm).value;
    DirtyAlloc(vm, place, r);
    LinkFacts(n, flags);
    var vm1 := vm0.(ram := Write(vm0.ram, r, p.i4, LinkEntry(n, flags)));
    assert Level(vm, r, p.i4, flags) == Some((vm1, n));
    FoundLevel(vm1, n, p.i3, flags);
    hide Level, AllocTable, Present, LinkEntry, PathOf;
  }

  // --- a state in which it happens -----------------------------------------------------------------

  const FIRST_PAGE: nat := 0x20_0000
  const SECOND_PAGE: nat := 0x20_1000

  /** The kernel after boot, with one page frame that holds an old entry. */
  function Booted(): Vm {
    BootVm(TheTables(), OldRam(), 0x1_0000, TheFrame())
  }

  function TheTables(): BootTables {
    BootTables(0x1000, 0x2000, 0x3000, 0x4000)
  }

  function TheFrame(): Frames {
    Frames(FIRST_PAGE, 1, {0}, 0)
  }

  function OldRam(): Ram {
    map[FIRST_PAGE := ZeroTable()[1 := Or(0x5000, KERNEL_FLAGS)]]
  }

  /** n calls of vmm_new_pagedir. */
  function NewDirs(vm: Vm, n: nat): Option<Vm>
    decreases n
  {
    if n == 0 then Some(vm)
    else
      match NewDir(vm)
      case None => None
      case Some((vm1, _)) => NewDirs(vm1, n - 1)
  }

  /** What making directories from the pool leaves alone. */
  ghost predicate Drained(vm: Vm, place: Places, vm1: Vm, place1: Places, n: nat) {
    && Shape(vm1, place1) && vm1 == vm.(ram := vm1.ram, poolUsed := vm.poolUsed + 4096 * n)
    && (forall s | s in place :: s in place1 && place1[s] == place[s])
    && (forall s | s in place || vm.frames.base <= s :: Read(vm1.ram, s) == Read(vm.ram, s))
  }

  lemma OneDir(vm: Vm, place: Places) returns (place1: Places)
    requires Shape(vm, place) && vm.poolUsed + 4096 <= POOL_SIZE
    ensures NewDir(vm).Some? && Drained(vm, place, NewDir(vm).value.0, place1, 1)
  {
    FreshPage(vm, place, vm);
    place1 := NewDirStep(vm, place, |vm.frames.free|);
    assert Sound(vm);
    hide Shape, Clean, Entry, Shares;
  }

  lemma DrainedOnce(vm: Vm, place: Places, vm1: Vm, mid: Places, vm2: Vm, place2: Places, n: nat)
    requires Drained(vm, place, vm1, mid, 1) && Drained(vm1, mid, vm2, place2, n)
    ensures Drained(vm, place, vm2, place2, n + 1)
  {
    hide Shape;
  }

  /** As long as the pool lasts, they take their pages from it and touch nothing else. */
  lemma {:induction false} PoolDrains(vm: Vm, place: Places, n: nat) returns (place1: Places)
    requires Shape(vm, place) && vm.poolUsed + 4096 * n <= POOL_SIZE
    ensures NewDirs(vm, n).Some? && Drained(vm, place, NewDirs(vm, n).value, place1, n)
    decreases n
  {
    hide Shape, NewDir;
    if n == 0 {
      place1 := place;
    } else {
      var mid := OneDir(vm, place);
      var vm1 := NewDir(vm).value.0;
      assert Shape(vm1, mid) && vm1.poolUsed == vm.poolUsed + 4096;
      hide Drained;
      place1 := PoolDrains(vm1, mid, n - 1);
      DrainedOnce(vm, place, vm1, mid, NewDirs(vm1, n - 1).value, place1, n - 1);
    }
  }

  /** The page tables of the third and fourth megabyte. */
  lemma PathAbove(k: nat)
    requires k < ENTRIES
    ensures PathOf(0x20_0000 + k * 4096) == Path(0, 0, 1, k)
  {
    var va := 0x20_0000 + k * 4096;
    PageNumberOfPage(va);
    PageNumberDigits(va);
    IndexBelow(va);
    DigitsUnique(PathOf(va), Path(0, 0, 1, k));
  }

  /** The kernel once 64 directories have been made. */
  lemma UsedUp() returns (vm: Vm, place: Places)
    ensures NewDirs(Booted(), POOL_SIZE / 4096) == Some(vm) && Shape(vm, place) && IsRoot(place, 0x1000)
    ensures Pd(vm.ram, 0x1000, Path(0, 0, 1, 0)) == Some(0x3000) && Pt(vm.ram, 0x1000, Path(0, 0, 1, 0)) == None
    ensures AllocTable(vm).Some? && AllocTable(vm).value.1 == FIRST_PAGE && AllocTable(vm).value.0.ram == vm.ram
    ensures Read(vm.ram, FIRST_PAGE)[1] == Or(0x5000, KERNEL_FLAGS)
  {
    hide Or, NewDirs, Shape;
    BootShape(TheTables(), OldRam(), 0x1_0000, TheFrame());
    BootNext(TheTables(), OldRam(), 0x1_0000, TheFrame(), 0);
    BootNext(TheTables(), OldRam(), 0x1_0000, TheFrame(), 1);
    AllocFacts(TheFrame());
    assert Scan(TheFrame(), 0) == Some(0);
    place := PoolDrains(Booted(), BootPlace(TheTables()), POOL_SIZE / 4096);
    vm := NewDirs(Booted(), POOL_SIZE / 4096).value;
  }

  lemma OldEntryAt(vm: Vm, place: Places, va: nat, vb: nat)
    requires Shape(vm, place) && IsRoot(place, 0x1000)
    requires Pd(vm.ram, 0x1000, Path(0, 0, 1, 0)).Some? && Pt(vm.ram, 0x1000, Path(0, 0, 1, 0)).None?
    requires AllocTable(vm).Some? && AllocTable(vm).value.0.ram == vm.ram
    requires Read(vm.ram, AllocTable(vm).value.1)[1] == Or(0x5000, KERNEL_FLAGS)
    requires PathOf(va) == Path(0, 0, 1, 0) && PathOf(vb) == Path(0, 0, 1, 1) && Offset(vb) == 0
    ensures Resolve(vm.ram, 0x1000, vb) == 0 && Map(vm, 0x1000, va, va, KERNEL_FLAGS).Some?
    ensures Resolve(Map(vm, 0x1000, va, va, KERNEL_FLAGS).value.ram, 0x1000, vb) == 0x5000
  {
    PresentValues();
    KernelEntry(0x5000);
    OrZero(0x5000);
    hide Map, Shape, AllocTable, Or, And, PathOf, Offset;
    var p, o := PathOf(va), PathOf(vb);
    DirtyMap(vm, place, 0x1000, va, va, KERNEL_FLAGS);
    var ram1 := Map(vm, 0x1000, va, va, KERNEL_FLAGS).value.ram;
    DirtyEntry(vm, place, vm.ram, ram1, 0x1000, p, AllocTable(vm).value.1, o);
  }

  /** There, mapping the page at 2 MB makes the next page, which was not mapped, resolve to
      the address in the old entry. */
  lemma OldEntryShows() returns (vm: Vm)
    ensures NewDirs(Booted(), POOL_SIZE / 4096) == Some(vm)
    ensures Resolve(vm.ram, 0x1000, SECOND_PAGE) == 0 && Map(vm, 0x1000, FIRST_PAGE, FIRST_PAGE, KERNEL_FLAGS).Some?
    ensures Resolve(Map(vm, 0x1000, FIRST_PAGE, FIRST_PAGE, KERNEL_FLAGS).value.ram, 0x1000, SECOND_PAGE) == 0x5000
  {
    hide Map, Resolve, PathOf, Offset, NewDirs, Booted;
    PathAbove(0);
    PathAbove(1);
    OffsetIs(SECOND_PAGE);
    var place: Places;
    vm, place := UsedUp();
    OldEntryAt(vm, place, FIRST_PAGE, SECOND_PAGE);
  }
}
