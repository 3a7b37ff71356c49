/** The whole life of physical memory: directories come and go, pages are mapped and unmapped,
    and frames hold tables, data, and tables again. */
module Lifetimes {
  import opened Options
  import opened Entries
  import opened PageFrames
  import opened PageTables
  import opened AddressSpaces
  import opened AddressSpaceRuns
  import opened VmmTheorems
  import opened Directories
  import opened BootMapping
  import HB = HeapBlocks

  /** Memory, the directories in use, and the frames that hold data. */
  datatype Life = Life(vm: Vm, roots: set<nat>, data: set<nat>)

  datatype Act =
    | OnPage(call: Call)
    | Make
    | Release(root: nat)
    | TakeData
    | GiveData(page: nat)
    | StoreData(page: nat, i: nat, e: nat)

  /** Directories and frames are used by those who have them, nothing panics, and pages taken
      as tables are blank at that moment. */
  ghost predicate Allowed(l: Life, a: Act) {
    match a
    case OnPage(c) => c.root in l.roots && Do(l.vm, c).Some? && Clean(l.vm, Supply(Do(l.vm, c).value))
    case Make => NewDir(l.vm).Some? && Clean(l.vm, Supply(l.vm) - 1)
    case Release(r) => r in l.roots && r != l.vm.kernel
    case TakeData => Alloc(l.vm.frames).1 != 0
    case GiveData(page) => page in l.data
    case StoreData(page, i, _) => page in l.data && i < ENTRIES
  }

  ghost function After(l: Life, a: Act): Life
    requires Allowed(l, a)
  {
    match a
    case OnPage(c) => l.(vm := Do(l.vm, c).value)
    case Make => var (vm1, n) := NewDir(l.vm).value; l.(vm := vm1, roots := l.roots + {n})
    case Release(r) => l.(vm := FreeDir(l.vm, r), roots := l.roots - {r})
    case TakeData =>
      var (f, pa) := Alloc(l.vm.frames);
      l.(vm := l.vm.(frames := f), data := l.data + {pa})
    case GiveData(page) => l.(vm := l.vm.(frames := Free(l.vm.frames, page)), data := l.data - {page})
    case StoreData(page, i, e) => l.(vm := l.vm.(ram := Write(l.vm.ram, page, i, e)))
  }

  /** The tables form a forest below the directories, and data lies on other pages, none of
      which can be handed out. */
  ghost predicate Living(l: Life, place: Places) {
    && Shape(l.vm, place) && l.vm.kernel in l.roots
    && (forall r | r in l.roots :: IsRoot(place, r))
    && (forall d | d in l.data :: IsPage(d) && d !in place && !Available(l.vm, d))
  }

  /** What an act does to the answers and to the top-level entries of a directory. */
  ghost predicate Effect(l: Life, a: Act, q: nat) {
    && Allowed(l, a)
    && (forall p | ValidPath(p) ::
          Entry(After(l, a).vm.ram, q, p) ==
            if a.OnPage? && p == PathOf(a.call.va) && Shares(l.vm.ram, q, a.call.root, p.i4) then Leaf(a.call)
            else Entry(l.vm.ram, q, p))
    && (forall i | 0 <= i < ENTRIES && Present(Read(l.vm.ram, q)[i]) ::
          Read(After(l, a).vm.ram, q)[i] == Read(l.vm.ram, q)[i])
  }

  ghost predicate Goes(l: Life, place: Places, a: Act, place1: Places) {
    && Allowed(l, a) && Living(After(l, a), place1) && After(l, a).vm.kernel == l.vm.kernel
    && forall q | q in l.roots && a != Release(q) :: Effect(l, a, q)
  }

  /** Acts that do not write memory. */
  lemma NoEffect(l: Life, a: Act, q: nat)
    requires Allowed(l, a) && !a.OnPage? && After(l, a).vm.ram == l.vm.ram
    ensures Effect(l, a, q)
  {
  }

  // --- single acts ----------------------------------------------------------------------------------

  lemma GoOnPage(l: Life, place: Places, c: Call) returns (place1: Places)
    requires Living(l, place) && Allowed(l, OnPage(c))
    ensures Goes(l, place, OnPage(c), place1)
  {
    hide Shape, Clean, Map, Unmap, Entry, Available;
    place1 := CallTakes(l.vm, place, c);
    forall q | q in l.roots ensures Effect(l, OnPage(c), q) {
      assert IsRoot(place, q);
      forall i | 0 <= i < ENTRIES && Present(Read(l.vm.ram, q)[i])
        ensures Read(Do(l.vm, c).value.ram, q)[i] == Read(l.vm.ram, q)[i]
      {
        assert PageTables.Next(l.vm.ram, q, i).Some?;
      }
    }
  }

  /** A call keeps everything a step of a run keeps, and takes only what was available. */
  lemma CallTakes(vm: Vm, place: Places, c: Call) returns (place1: Places)
    requires Shape(vm, place) && IsRoot(place, c.root) && Do(vm, c).Some? && Clean(vm, Supply(Do(vm, c).value))
    ensures Stepped(vm, place, c, Do(vm, c).value, place1) && Took(vm, place, Do(vm, c).value, place1)
  {
    hide Shape, Clean, Map, Entry, Available;
    var floor := Supply(Do(vm, c).value);
    match c {
      case MapCall(r, va, phys, flags) => place1 := MapStep(vm, place, r, va, phys, flags, floor);
      case UnmapCall(r, va) =>
        place1 := place;
        UnmapStep(vm, place, r, va);
        UnmapSupply(vm, place, r, va, floor);
        UnmapAvailable(vm, r, va);
    }
  }

  lemma UnmapAvailable(vm: Vm, r: nat, va: nat)
    ensures forall s :: Available(Unmap(vm, r, va), s) <==> Available(vm, s)
  {
  }

  /** A new directory takes one page, and is the only table written to. */
  lemma NewDirTakes(vm: Vm, place: Places)
    requires Shape(vm, place) && NewDir(vm).Some?
    ensures var (vm1, n) := NewDir(vm).value;
      && Available(vm, n)
      && (forall s | s in place :: Read(vm1.ram, s) == Read(vm.ram, s))
      && (forall s :: Available(vm1, s) ==> Available(vm, s))
  {
    AllocFresh(vm);
    hide AllocTable, LinkOk, At;
    var (vm1, n) := NewDir(vm).value;
    assert n in place ==> TableOk(vm, place, n);
  }

  lemma GoMake(l: Life, place: Places) returns (place1: Places)
    requires Living(l, place) && Allowed(l, Make)
    ensures Goes(l, place, Make, place1)
  {
    place1 := NewDirStep(l.vm, place, Supply(l.vm) - 1);
    NewDirTakes(l.vm, place);
    hide Shape, NewDir, Available, Entry, Shares, Leaf, Clean;
  }

  lemma ReleaseTables(vm: Vm, place: Places, r: nat) returns (place1: Places)
    requires Shape(vm, place) && IsRoot(place, r) && r != vm.kernel
    ensures Shape(FreeDir(vm, r), place1) && FreeDir(vm, r).ram == vm.ram && FreeDir(vm, r).kernel == vm.kernel
    ensures forall t :: t in place1 <==> t in place && place[t].root != r
    ensures forall t | t in place1 :: place1[t] == place[t]
  {
    hide Shape, FreeDir, FreeOrder, FramesAmong, OwnTable, Distinct;
    place1 := FreeDirStep(vm, place, r);
  }

  lemma GoRelease(l: Life, place: Places, r: nat) returns (place1: Places)
    requires Living(l, place) && Allowed(l, Release(r))
    ensures Goes(l, place, Release(r), place1)
  {
    place1 := ReleaseTables(l.vm, place, r);
    hide Shape, FreeDir, FreeOrder, FramesAmong, Available, Effect;
    forall d | d in l.data ensures !Available(FreeDir(l.vm, r), d) { NotReleased(l.vm, place, r, d); }
    forall q | q in l.roots && q != r ensures Effect(l, Release(r), q) { NoEffect(l, Release(r), q); }
  }

  lemma GoTake(l: Life, place: Places)
    requires Living(l, place) && Allowed(l, TakeData)
    ensures Goes(l, place, TakeData, place)
  {
    TakeFrame(l.vm, place, |l.vm.frames.free| - 1);
  }

  lemma GoGive(l: Life, place: Places, page: nat)
    requires Living(l, place) && Allowed(l, GiveData(page))
    ensures Goes(l, place, GiveData(page), place)
  {
    var f := l.vm.frames;
    OneFree(f, page);
    var vm1 := l.vm.(frames := Free(f, page));
    forall s | IsPage(s) && s != page && !Available(l.vm, s) ensures !Available(vm1, s) {
      if f.base <= s { FrameAddr(f, s); }
    }
    forall t | t in place ensures TableOk(vm1, place, t) { assert TableOk(l.vm, place, t); }
    forall t, i: nat | t in place && i < ENTRIES ensures LinkOk(vm1, place, t, i) { assert LinkOk(l.vm, place, t, i); }
  }

  lemma GoStore(l: Life, place: Places, page: nat, i: nat, e: nat)
    requires Living(l, place) && Allowed(l, StoreData(page, i, e))
    ensures Goes(l, place, StoreData(page, i, e), place)
  {
    var vm1 := l.vm.(ram := Write(l.vm.ram, page, i, e));
    forall t | t in place ensures TableOk(vm1, place, t) {
      assert TableOk(l.vm, place, t);
      SameAt(l.vm, place, vm1, t);
    }
    forall t, j: nat | t in place && j < ENTRIES ensures LinkOk(vm1, place, t, j) { assert LinkOk(l.vm, place, t, j); }
    forall q, p | q in l.roots && ValidPath(p) ensures Entry(vm1.ram, q, p) == Entry(l.vm.ram, q, p) {
      SameEntry(l.vm, place, vm1, q, p);
    }
  }

  lemma Go(l: Life, place: Places, a: Act) returns (place1: Places)
    requires Living(l, place) && Allowed(l, a)
    ensures Goes(l, place, a, place1)
  {
    hide Living, Allowed, Goes;
    place1 := place;
    match a {
      case OnPage(c) => place1 := GoOnPage(l, place, c);
      case Make => place1 := GoMake(l, place);
      case Release(r) => place1 := GoRelease(l, place, r);
      case TakeData => GoTake(l, place);
      case GiveData(page) => GoGive(l, place, page);
      case StoreData(page, i, e) => GoStore(l, place, page, i, e);
    }
  }

  // --- whole lives ----------------------------------------------------------------------------------

  ghost predicate Possible(l: Life, acts: seq<Act>)
    decreases acts
  {
    acts != [] ==> Allowed(l, acts[0]) && Possible(After(l, acts[0]), acts[1..])
  }

  ghost function Lived(l: Life, acts: seq<Act>): Life
    requires Possible(l, acts)
    decreases acts
  {
    if acts == [] then l else Lived(After(l, acts[0]), acts[1..])
  }

  /** Whatever happens, tables stay a forest and never meet the data. */
  lemma {:induction false} LifeKept(l: Life, place: Places, acts: seq<Act>) returns (place1: Places)
    requires Living(l, place) && Possible(l, acts)
    ensures Living(Lived(l, acts), place1) && Lived(l, acts).vm.kernel == l.vm.kernel
    decreases acts
  {
    hide Living, Allowed, Effect;
    if acts == [] {
      place1 := place;
    } else {
      var mid := Go(l, place, acts[0]);
      place1 := LifeKept(After(l, acts[0]), mid, acts[1..]);
    }
  }

  /** The calls on one directory, applied to a plain map. */
  function OwnCalls(acts: seq<Act>, q: nat, m: Pages): Pages
    decreases acts
  {
    if acts == [] then m else OwnCalls(acts[1..], q, OwnCall(acts[0], q, m))
  }

  function OwnCall(a: Act, q: nat, m: Pages): Pages {
    if a.OnPage? && a.call.root == q then Apply(m, a.call) else m
  }

  /** In its lower half root q maps exactly the pages of m. */
  ghost predicate LowerAgrees(ram: Ram, q: nat, m: Pages) {
    forall va: nat | PathOf(va).i4 < 256 :: PageAgrees(ram, q, m, va)
  }

  lemma LowerStep(l: Life, place: Places, a: Act, q: nat, m: Pages)
    requires Living(l, place) && q in l.roots && Effect(l, a, q) && LowerAgrees(l.vm.ram, q, m)
    ensures LowerAgrees(After(l, a).vm.ram, q, OwnCall(a, q, m))
  {
    forall va: nat | PathOf(va).i4 < 256 ensures PageAgrees(After(l, a).vm.ram, q, OwnCall(a, q, m), va) {
      assert PageAgrees(l.vm.ram, q, m, va);
      if a.OnPage? { LowerCall(l, place, a.call, q, m, va); }
    }
  }

  lemma LowerCall(l: Life, place: Places, c: Call, q: nat, m: Pages, va: nat)
    requires Living(l, place) && q in l.roots && Effect(l, OnPage(c), q)
    requires PageAgrees(l.vm.ram, q, m, va) && PathOf(va).i4 < 256
    ensures PageAgrees(After(l, OnPage(c)).vm.ram, q, OwnCall(OnPage(c), q, m), va)
  {
    PresentValues();
    SamePath(va, c.va);
    if c.MapCall? {
      LeafFacts(c.phys, c.flags);
      LeafBits(c.phys, c.flags);
    }
    if c.root != q { LowerHalfPrivate(l.vm, place, q, c.root, PathOf(va).i4); }
    hide After, Shape, PathOf, PageNumber, Present, LeafEntry, Entry, Rights;
  }

  /** The lower half of a directory is its own: over any life of the machine in which the
      directory is not released, what it maps there is what its own calls make of a plain
      map, whatever other directories, the kernel and the owners of data do, and however
      often frames change hands. */
  lemma {:induction false} LowerHalfIsOwn(l: Life, place: Places, acts: seq<Act>, q: nat, m: Pages)
    requires Living(l, place) && Possible(l, acts) && q in l.roots && Release(q) !in acts
    requires LowerAgrees(l.vm.ram, q, m)
    ensures LowerAgrees(Lived(l, acts).vm.ram, q, OwnCalls(acts, q, m))
    decreases acts
  {
    hide Living, Allowed, Effect, LowerAgrees, Apply;
    if acts != [] {
      var a := acts[0];
      var mid := Go(l, place, a);
      LowerStep(l, place, a, q, m);
      StaysRoot(l, a, q);
      LowerHalfIsOwn(After(l, a), mid, acts[1..], q, OwnCall(a, q, m));
    }
  }

  lemma StaysRoot(l: Life, a: Act, q: nat)
    requires Allowed(l, a) && q in l.roots && a != Release(q)
    ensures q in After(l, a).roots
  {
  }

  /** The same as an answer of vmm_resolve. */
  lemma LowerAnswer(l: Life, place: Places, acts: seq<Act>, q: nat, m: Pages, va: nat)
    requires Living(l, place) && Possible(l, acts) && q in l.roots && Release(q) !in acts
    requires LowerAgrees(l.vm.ram, q, m) && PathOf(va).i4 < 256
    ensures Resolve(Lived(l, acts).vm.ram, q, va) == Answer(OwnCalls(acts, q, m), va)
  {
    LowerHalfIsOwn(l, place, acts, q, m);
    assert PageAgrees(Lived(l, acts).vm.ram, q, OwnCalls(acts, q, m), va);
  }

  /** Nobody maps or unmaps the page of va in directory q. */
  ghost predicate LeavesPage(acts: seq<Act>, q: nat, va: nat) {
    forall c | OnPage(c) in acts && c.root == q :: PageNumber(c.va) != PageNumber(va)
  }

  /** A lower-half page keeps its answer over any life in which its directory is neither
      released nor asked to map or unmap that page. */
  lemma {:induction false} PageKept(l: Life, place: Places, acts: seq<Act>, q: nat, va: nat)
    requires Living(l, place) && Possible(l, acts) && q in l.roots && Release(q) !in acts
    requires PathOf(va).i4 < 256 && LeavesPage(acts, q, va)
    ensures Resolve(Lived(l, acts).vm.ram, q, va) == Resolve(l.vm.ram, q, va)
    decreases acts
  {
    if acts != [] {
      var a := acts[0];
      var mid := Go(l, place, a);
      assert Effect(l, a, q);
      if a.OnPage? {
        assert a in acts;
        SamePath(va, a.call.va);
        if a.call.root != q { LowerHalfPrivate(l.vm, place, q, a.call.root, PathOf(va).i4); }
      }
      StaysRoot(l, a, q);
      assert forall c | OnPage(c) in acts[1..] :: OnPage(c) in acts;
      hide Living, Allowed, After, PathOf, PageNumber, Shape;
      PageKept(After(l, a), mid, acts[1..], q, va);
    }
  }

  lemma LowAddress(va: nat)
    requires va < 0x8000_0000_0000
    ensures PathOf(va).i4 < 256
  {
    PageNumberDigits(va);
    PageNumberOfPage(va);
    IndexBelow(va);
    hide PathOf, PageNumber, Idx4, Idx3, Idx2, Idx1;
  }

  /** The kernel writes to the tables it means to: from vmm_init on, as long as nobody maps or
      unmaps the page of t in the kernel's own directory, a page t of the kernel image or of the
      page frames outside the heap window resolves to itself, whatever it is used for. */
  lemma TableStaysReached(l: Life, place: Places, acts: seq<Act>, frames: Frames, pages: seq<nat>, t: nat)
    requires Living(l, place) && Possible(l, acts)
    requires |pages| == 1024 && KernelMaps(l.vm.ram, l.vm.kernel, frames, pages) && Proper(frames)
    requires t < 0x20_0000 || (frames.base <= t < frames.base + frames.total * 4096 &&
      !(HB.HEAP_START <= t < HB.HEAP_END))
    requires LeavesPage(acts, l.vm.kernel, t)
    ensures Resolve(Lived(l, acts).vm.ram, l.vm.kernel, t) == t
  {
    LowAddress(t);
    assert KernelPage(l.vm.ram, l.vm.kernel, t, t);
    KernelStays(l, place, acts);
    PageKept(l, place, acts, l.vm.kernel, t);
  }

  /** The kernel's directory is never released. */
  lemma {:induction false} KernelStays(l: Life, place: Places, acts: seq<Act>)
    requires Living(l, place) && Possible(l, acts)
    ensures Release(l.vm.kernel) !in acts
    decreases acts
  {
    if acts != [] {
      var mid := Go(l, place, acts[0]);
      KernelStays(After(l, acts[0]), mid, acts[1..]);
    }
  }

  /** A present top-level entry that equals the kernel's is the kernel's for good. */
  lemma {:induction false} EntryFollows(l: Life, place: Places, acts: seq<Act>, q: nat, i: nat)
    requires Living(l, place) && Possible(l, acts) && q in l.roots && Release(q) !in acts && i < ENTRIES
    requires Present(Read(l.vm.ram, q)[i]) && Read(l.vm.ram, q)[i] == Read(l.vm.ram, l.vm.kernel)[i]
    ensures var vm1 := Lived(l, acts).vm;
      vm1.kernel == l.vm.kernel && Read(vm1.ram, q)[i] == Read(vm1.ram, vm1.kernel)[i] == Read(l.vm.ram, q)[i]
    decreases acts
  {
    if acts != [] {
      var a := acts[0];
      var mid := Go(l, place, a);
      assert Effect(l, a, q) && Effect(l, a, l.vm.kernel);
      StaysRoot(l, a, q);
      hide Living, Allowed;
      EntryFollows(After(l, a), mid, acts[1..], q, i);
    }
  }

  /** A directory that vmm_new_pagedir makes maps nothing in its lower half, and below every
      kernel entry that was present then, it answers as the kernel does, from its creation
      through any life in which it is not released. */
  lemma NewDirLives(l: Life, place: Places, acts: seq<Act>, va: nat)
    requires Living(l, place) && Allowed(l, Make) && Possible(After(l, Make), acts)
    requires var n := NewDir(l.vm).value.1; Release(n) !in acts
    ensures var n := NewDir(l.vm).value.1; var vm1 := Lived(After(l, Make), acts).vm;
      && (PathOf(va).i4 < 256 ==> Resolve(vm1.ram, n, va) == Answer(OwnCalls(acts, n, map[]), va))
      && (PathOf(va).i4 >= 256 && Present(Read(l.vm.ram, l.vm.kernel)[PathOf(va).i4]) ==>
            Resolve(vm1.ram, n, va) == Resolve(vm1.ram, l.vm.kernel, va))
  {
    var l1 := After(l, Make);
    var n, i := NewDir(l.vm).value.1, PathOf(va).i4;
    var place1 := NewDirStep(l.vm, place, Supply(l.vm) - 1);
    var mid := Go(l, place, Make);
    PresentValues();
    assert TableOk(l.vm, place, l.vm.kernel);
    NewDirHalves(l.vm);
    NewDirTakes(l.vm, place);
    forall vb: nat | PathOf(vb).i4 < 256 ensures PageAgrees(l1.vm.ram, n, map[], vb) {}
    hide Living, Allowed, NewDir, Shape;
    if i < 256 {
      LowerAnswer(l1, mid, acts, n, map[], va);
    } else if Present(Read(l.vm.ram, l.vm.kernel)[i]) {
      EntryFollows(l1, mid, acts, n, i);
    }
  }

  /** Frames held back for data, below a forest with the kernel's root. */
  lemma HeldLives(vm: Vm, place: Places, frames: Frames, pages: seq<nat>)
    requires Shape(vm, place) && Proper(frames) && AllFrames(frames, pages) && Held(vm, place, pages)
    ensures Living(Life(vm, {vm.kernel}, set d | d in pages), place)
  {
    hide LinkOk, TableOk, Available;
    forall d | d in pages ensures IsPage(d) && d !in place && !Available(vm, d) {
      var i :| 0 <= i < |pages| && pages[i] == d;
      assert IsFrame(frames, pages[i]);
      var p :| p in frames.free && pages[i] == Addr(frames, p);
      FrameIsPage(frames, p);
    }
  }

  /** The kernel's life begins with vmm_init: its root is the only directory, and the frames of
      the heap hold data. */
  lemma InitLives(b: BootTables, ram: Ram, pool: nat, frames: Frames, vm: Vm, floor: int)
    returns (place: Places, pages: seq<nat>)
    requires Laid(b, pool, frames) && Sound(BootVm(b, ram, pool, frames)) && frames.base >= 0x20_0000
    requires Init(BootVm(b, ram, pool, frames)) == Some(vm)
    requires Clean(BootVm(b, ram, pool, frames), floor + 1024) && floor <= Supply(vm)
    ensures |pages| == 1024 && AllDifferent(pages) && Living(Life(vm, {b.pml4}, set d | d in pages), place)
  {
    assert Proper(frames);
    hide Init, Shape, Clean, KernelMaps, BootVm, Living;
    place, pages := InitMaps(b, ram, pool, frames, floor);
    HeldLives(vm, place, frames, pages);
  }
}
