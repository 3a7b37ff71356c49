/** vmm_init: from the tables of boot/boot.asm to the kernel's address space. */
module BootMapping {
  import opened Options
  import opened Bits
  import opened Entries
  import opened PageFrames
  import opened PageTables
  import opened AddressSpaces
  import opened AddressSpaceRuns
  import opened VmmTheorems
  import HB = HeapBlocks

  const KERNEL_FLAGS: nat := 3   // present and writable

  // --- the tables that boot.asm leaves -----------------------------------------------------

  datatype BootTables = BootTables(pml4: nat, pdp: nat, pd: nat, pt: nat)

  function BootPt(n: nat): (t: seq<nat>)
    ensures |t| == n && forall i | 0 <= i < n :: t[i] == Or(i * 4096, KERNEL_FLAGS)
  {
    seq(n, (i: nat) => Or(i * 4096, KERNEL_FLAGS))
  }

  /** Memory that held `ram` before, after boot.asm has written its tables. */
  function BootRam(b: BootTables, ram: Ram): Ram {
    ram[b.pml4 := ZeroTable()[0 := Or(b.pdp, KERNEL_FLAGS)]]
       [b.pdp := ZeroTable()[0 := Or(b.pd, KERNEL_FLAGS)]]
       [b.pd := ZeroTable()[0 := Or(b.pt, KERNEL_FLAGS)]]
       [b.pt := BootPt(ENTRIES)]
  }

  /** Four different pages of the kernel image, outside pool and page frames. */
  predicate Laid(b: BootTables, pool: nat, frames: Frames) {
    && b.pml4 != b.pdp && b.pml4 != b.pd && b.pml4 != b.pt && b.pdp != b.pd && b.pdp != b.pt && b.pd != b.pt
    && forall t | t in {b.pml4, b.pdp, b.pd, b.pt} ::
         IsPage(t) && t != 0 && t < frames.base && (t < pool || pool + POOL_SIZE <= t)
  }

  function BootVm(b: BootTables, ram: Ram, pool: nat, frames: Frames): Vm {
    Vm(BootRam(b, ram), b.pml4, pool, 0, frames)
  }

  function BootPlace(b: BootTables): Places {
    map[b.pml4 := Root(b.pml4), b.pdp := PdpAt(b.pml4, 0), b.pd := PdAt(b.pml4, 0, 0), b.pt := PtAt(b.pml4, 0, 0, 0)]
  }

  /** The first 2 MB, each page at its own address. */
  function FirstPages(): Pages {
    map n: nat | n < ENTRIES :: Mapping(n * 4096, KERNEL_FLAGS)
  }

  lemma KernelEntry(a: nat)
    requires IsPage(a)
    ensures Present(Or(a, KERNEL_FLAGS)) && Ptr(Or(a, KERNEL_FLAGS)) == a
    ensures Rights(Or(a, KERNEL_FLAGS), KERNEL_FLAGS)
  {
    LeafBits(a, KERNEL_FLAGS);
    assert Or(KERNEL_FLAGS, PTE_PRESENT) == KERNEL_FLAGS;
    hide Rights;
    AndPow2(3, 0);
    PresentOr(a, KERNEL_FLAGS);
    PtrOfFlags(KERNEL_FLAGS);
    PtrOfPage(a);
    AndOrDistribute(a, KERNEL_FLAGS, ADDR_MASK);
    OrZero(a);
  }

  lemma BootNext(b: BootTables, ram: Ram, pool: nat, frames: Frames, i: nat)
    requires Laid(b, pool, frames) && i < ENTRIES
    ensures Next(BootRam(b, ram), b.pml4, i) == if i == 0 then Some(b.pdp) else None
    ensures Next(BootRam(b, ram), b.pdp, i) == if i == 0 then Some(b.pd) else None
    ensures Next(BootRam(b, ram), b.pd, i) == if i == 0 then Some(b.pt) else None
  {
    PresentValues();
    KernelEntry(b.pdp);
    KernelEntry(b.pd);
    KernelEntry(b.pt);
  }

  lemma BootTable(b: BootTables, ram: Ram, pool: nat, frames: Frames, t: nat)
    requires Laid(b, pool, frames) && t in BootPlace(b)
    ensures IsPage(t) && t != 0 && !Available(BootVm(b, ram, pool, frames), t)
  {
    assert t in {b.pml4, b.pdp, b.pd, b.pt};
  }

  lemma BootLink(b: BootTables, ram: Ram, pool: nat, frames: Frames, t: nat, i: nat)
    requires Laid(b, pool, frames) && t in BootPlace(b) && i < ENTRIES
    ensures LinkOk(BootVm(b, ram, pool, frames), BootPlace(b), t, i)
  {
    BootNext(b, ram, pool, frames, i);
    hide BootRam, Borrowed;
  }

  lemma BootShape(b: BootTables, ram: Ram, pool: nat, frames: Frames)
    requires Laid(b, pool, frames) && Sound(BootVm(b, ram, pool, frames))
    ensures Shape(BootVm(b, ram, pool, frames), BootPlace(b))
  {
    hide BootRam, LinkOk, Available;
    var vm, place := BootVm(b, ram, pool, frames), BootPlace(b);
    BootNext(b, ram, pool, frames, 0);
    forall t | t in place ensures TableOk(vm, place, t) { BootTable(b, ram, pool, frames, t); }
    forall t, i: nat | t in place && i < ENTRIES ensures LinkOk(vm, place, t, i) {
      BootLink(b, ram, pool, frames, t, i);
    }
  }

  lemma BootAgrees(b: BootTables, ram: Ram, pool: nat, frames: Frames)
    requires Laid(b, pool, frames)
    ensures Agrees(BootRam(b, ram), b.pml4, FirstPages())
  {
    PresentValues();
    forall va: nat ensures PageAgrees(BootRam(b, ram), b.pml4, FirstPages(), va) {
      var p := PathOf(va);
      PageNumberDigits(va);
      BootNext(b, ram, pool, frames, p.i4);
      BootNext(b, ram, pool, frames, p.i3);
      BootNext(b, ram, pool, frames, p.i2);
      if p.i4 == 0 && p.i3 == 0 && p.i2 == 0 {
        KernelEntry(p.i1 * 4096);
      }
    }
  }

  // --- the two loops of vmm_init ---------------------------------------------------------------

  /** First loop: the page frames at their own addresses. */
  function IdentityFrom(vm: Vm, va: nat, end: nat): Option<Vm>
    decreases end - va
  {
    if va >= end then Some(vm)
    else
      match Map(vm, vm.kernel, va, va, KERNEL_FLAGS)
      case None => None
      case Some(vm1) => IdentityFrom(vm1, va + 4096, end)
  }

  /** One round of the second loop: a page frame for the heap page at va. */
  function HeapStep(vm: Vm, va: nat): Option<(Vm, nat)> {
    var (f, pa) := Alloc(vm.frames);
    if pa == 0 then None
    else
      match Map(vm.(frames := f), vm.kernel, va, pa, KERNEL_FLAGS)
      case None => None
      case Some(vm1) => Some((vm1, pa))
  }

  /** Second loop: a page frame for every page of the kernel heap. */
  function HeapFrom(vm: Vm, va: nat): Option<Vm>
    decreases HB.HEAP_END - va
  {
    if va >= HB.HEAP_END then Some(vm)
    else
      match HeapStep(vm, va)
      case None => None
      case Some((vm1, pa)) => HeapFrom(vm1, va + 4096)
  }

  function Init(vm: Vm): Option<Vm> {
    match IdentityFrom(vm, vm.frames.base, vm.frames.base + vm.frames.total * 4096)
    case None => None
    case Some(vm1) => HeapFrom(vm1, HB.HEAP_START)
  }

  /** The map after the first loop. */
  function IdentityMap(m: Pages, va: nat, end: nat): Pages
    decreases end - va
  {
    if va >= end then m else IdentityMap(m[PageNumber(va) := Mapping(va, KERNEL_FLAGS)], va + 4096, end)
  }

  lemma PageNumberOfPage(va: nat)
    requires va < 0x1_0000_0000_0000
    ensures PageNumber(va) == va / 4096
  {
    PageNumberIs(va);
  }

  lemma {:induction false} IdentityMapAt(m: Pages, va: nat, end: nat, n: nat)
    requires va % 4096 == 0 && end % 4096 == 0 && end <= 0x8000_0000_0000
    ensures n in IdentityMap(m, va, end) <==> n in m || va / 4096 <= n < end / 4096
    ensures va / 4096 <= n < end / 4096 ==> IdentityMap(m, va, end)[n] == Mapping(n * 4096, KERNEL_FLAGS)
    ensures n in m && !(va / 4096 <= n < end / 4096) ==> IdentityMap(m, va, end)[n] == m[n]
    decreases end - va
  {
    if va < end {
      PageNumberOfPage(va);
      IdentityMapAt(m[PageNumber(va) := Mapping(va, KERNEL_FLAGS)], va + 4096, end, n);
    }
  }

  lemma OneMap(vm: Vm, place: Places, va: nat, pa: nat, m: Pages, floor: int) returns (place1: Places)
    requires Shape(vm, place) && Agrees(vm.ram, vm.kernel, m) && Clean(vm, floor) && IsPage(pa)
    requires Map(vm, vm.kernel, va, pa, KERNEL_FLAGS).Some?
    requires floor <= Supply(Map(vm, vm.kernel, va, pa, KERNEL_FLAGS).value)
    ensures var vm1 := Map(vm, vm.kernel, va, pa, KERNEL_FLAGS).value;
      && Shape(vm1, place1) && vm1.kernel == vm.kernel && Clean(vm1, floor) && Took(vm, place, vm1, place1)
      && Agrees(vm1.ram, vm.kernel, m[PageNumber(va) := Mapping(pa, KERNEL_FLAGS)])
      && (forall s | s in place :: s in place1)
  {
    var c := MapCall(vm.kernel, va, pa, KERNEL_FLAGS);
    place1 := MapStep(vm, place, vm.kernel, va, pa, KERNEL_FLAGS, floor);
    ApplyStep(vm, Map(vm, vm.kernel, va, pa, KERNEL_FLAGS).value, place, c, vm.kernel, m);
    PtrOfPage(pa);
    PtrOfFlags(KERNEL_FLAGS);
    OrZero(pa);
  }

  lemma {:induction false} IdentityLoop(vm: Vm, place: Places, va: nat, end: nat, m: Pages, floor: int)
    returns (place1: Places)
    requires Shape(vm, place) && Agrees(vm.ram, vm.kernel, m) && Clean(vm, floor)
    requires va % 4096 == 0 && end <= 0x8000_0000_0000
    requires IdentityFrom(vm, va, end).Some? && floor <= Supply(IdentityFrom(vm, va, end).value)
    ensures var vm1 := IdentityFrom(vm, va, end).value;
      && Shape(vm1, place1) && vm1.kernel == vm.kernel && Clean(vm1, floor)
      && Agrees(vm1.ram, vm.kernel, IdentityMap(m, va, end))
    decreases end - va
  {
    if va >= end {
      place1 := place;
    } else {
      MapSupply(vm, vm.kernel, va, va, KERNEL_FLAGS);
      var vm1 := Map(vm, vm.kernel, va, va, KERNEL_FLAGS).value;
      IdentitySupply(vm1, va + 4096, end);
      var mid := OneMap(vm, place, va, va, m, floor);
      place1 := IdentityLoop(vm1, mid, va + 4096, end, m[PageNumber(va) := Mapping(va, KERNEL_FLAGS)], floor);
    }
  }

  lemma {:induction false} IdentitySupply(vm: Vm, va: nat, end: nat)
    requires Sound(vm) && IdentityFrom(vm, va, end).Some?
    ensures Sound(IdentityFrom(vm, va, end).value) && Supply(IdentityFrom(vm, va, end).value) <= Supply(vm)
    ensures Shrunk(vm.frames, IdentityFrom(vm, va, end).value.frames)
    decreases end - va
  {
    if va < end {
      MapSupply(vm, vm.kernel, va, va, KERNEL_FLAGS);
      MapShrinks(vm, vm.kernel, va, va, KERNEL_FLAGS);
      IdentitySupply(Map(vm, vm.kernel, va, va, KERNEL_FLAGS).value, va + 4096, end);
    }
  }

  // --- the heap window -----------------------------------------------------------------------

  /** The page frames that the second loop takes, in order. */
  function HeapPages(vm: Vm, va: nat): seq<nat>
    decreases HB.HEAP_END - va
  {
    if va >= HB.HEAP_END then []
    else
      match HeapStep(vm, va)
      case None => []
      case Some((vm1, pa)) => [pa] + HeapPages(vm1, va + 4096)
  }

  function HeapMap(m: Pages, va: nat, pages: seq<nat>): Pages
    decreases pages
  {
    if pages == [] then m else HeapMap(m[PageNumber(va) := Mapping(pages[0], KERNEL_FLAGS)], va + 4096, pages[1..])
  }

  lemma {:induction false} HeapMapAt(m: Pages, va: nat, pages: seq<nat>, n: nat)
    requires va % 4096 == 0 && va + |pages| * 4096 <= HB.HEAP_END
    ensures n in HeapMap(m, va, pages) <==> n in m || va / 4096 <= n < va / 4096 + |pages|
    ensures va / 4096 <= n < va / 4096 + |pages| ==>
              HeapMap(m, va, pages)[n] == Mapping(pages[n - va / 4096], KERNEL_FLAGS)
    ensures n in m && !(va / 4096 <= n < va / 4096 + |pages|) ==> HeapMap(m, va, pages)[n] == m[n]
    decreases pages
  {
    if pages != [] {
      PageNumberOfPage(va);
      HeapMapAt(m[PageNumber(va) := Mapping(pages[0], KERNEL_FLAGS)], va + 4096, pages[1..], n);
    }
  }

  /** Taking a page frame for data: nothing but the supply changes, and it may be dirty. */
  lemma TakeFrame(vm: Vm, place: Places, floor: int)
    requires Shape(vm, place) && Clean(vm, floor + 1) && Alloc(vm.frames).1 != 0
    ensures var (f, pa) := Alloc(vm.frames); var vm1 := vm.(frames := f);
      && Shape(vm1, place) && Clean(vm1, floor) && Supply(vm1) == Supply(vm) - 1
      && IsPage(pa) && Available(vm, pa) && !Available(vm1, pa) && pa !in place
      && Shrunk(vm.frames, f) && IsFrame(vm.frames, pa)
      && (forall s :: Available(vm1, s) ==> Available(vm, s))
  {
    AllocFacts(vm.frames);
    var p := Scan(vm.frames, 0).value;
    FrameOf(vm.frames, p);
    FrameIsPage(vm.frames, p);
    var (f, pa) := Alloc(vm.frames);
    var vm1 := vm.(frames := f);
    assert pa in place ==> TableOk(vm, place, pa);
    forall page | page in f.free ensures Addr(f, page) == Addr(vm.frames, page) {}
    forall t | t in place ensures TableOk(vm1, place, t) { assert TableOk(vm, place, t); }
    forall t, i: nat | t in place && i < ENTRIES ensures LinkOk(vm1, place, t, i) { assert LinkOk(vm, place, t, i); }
  }

  /** The address of a frame that is free. */
  ghost predicate IsFrame(f: Frames, pa: nat) {
    exists p | p in f.free :: pa == Addr(f, p)
  }

  lemma StepSupply(vm: Vm, va: nat)
    requires Sound(vm) && HeapStep(vm, va).Some?
    ensures Sound(HeapStep(vm, va).value.0) && Supply(HeapStep(vm, va).value.0) <= Supply(vm) - 1
  {
    AllocFacts(vm.frames);
    var (f, pa) := Alloc(vm.frames);
    MapSupply(vm.(frames := f), vm.kernel, va, pa, KERNEL_FLAGS);
  }

  lemma {:induction false} HeapSupply(vm: Vm, va: nat)
    requires Sound(vm) && HeapFrom(vm, va).Some? && va % 4096 == 0 && va <= HB.HEAP_END
    ensures Supply(HeapFrom(vm, va).value) <= Supply(vm) - (HB.HEAP_END - va) / 4096
    decreases HB.HEAP_END - va
  {
    hide HeapStep;
    if va < HB.HEAP_END {
      StepSupply(vm, va);
      HeapSupply(HeapStep(vm, va).value.0, va + 4096);
    }
  }

  /** Pages held back for data: no table lies on them and none will. */
  ghost predicate Held(vm: Vm, place: Places, pages: seq<nat>) {
    forall i | 0 <= i < |pages| :: !Available(vm, pages[i]) && pages[i] !in place
  }

  ghost predicate AllDifferent(pages: seq<nat>) {
    forall i, j | 0 <= i < j < |pages| :: pages[i] != pages[j]
  }

  ghost predicate AllFrames(f: Frames, pages: seq<nat>) {
    forall i | 0 <= i < |pages| :: IsFrame(f, pages[i])
  }

  /** What the second loop leaves behind when it starts in a well-formed state. */
  ghost predicate HeapDone(vm: Vm, place: Places, vm1: Vm, place1: Places, pages: seq<nat>) {
    && Shape(vm1, place1) && vm1.kernel == vm.kernel && Took(vm, place, vm1, place1)
    && Shrunk(vm.frames, vm1.frames)
    && Held(vm1, place1, pages) && AllDifferent(pages) && AllFrames(vm.frames, pages)
    && (forall i | 0 <= i < |pages| :: Available(vm, pages[i]) && IsPage(pages[i]))
  }

  /** One round of the second loop. */
  lemma HeapRound(vm: Vm, place: Places, va: nat, m: Pages, floor: int) returns (mid: Places)
    requires Shape(vm, place) && Agrees(vm.ram, vm.kernel, m) && Clean(vm, floor + 1)
    requires HeapStep(vm, va).Some? && floor <= Supply(HeapStep(vm, va).value.0)
    ensures var (vm1, pa) := HeapStep(vm, va).value;
      && HeapDone(vm, place, vm1, mid, [pa]) && Clean(vm1, floor)
      && Agrees(vm1.ram, vm1.kernel, m[PageNumber(va) := Mapping(pa, KERNEL_FLAGS)])
  {
    var (f, pa) := Alloc(vm.frames);
    var vm0 := vm.(frames := f);
    TakeFrame(vm, place, floor);
    mid := OneMap(vm0, place, va, pa, m, floor);
    MapShrinks(vm0, vm0.kernel, va, pa, KERNEL_FLAGS);
  }

  /** The frames for the pages still to come count on top of the floor. */
  lemma {:induction false} HeapLoop(vm: Vm, place: Places, va: nat, m: Pages, floor: int)
    returns (place1: Places)
    requires Shape(vm, place) && Agrees(vm.ram, vm.kernel, m)
    requires va % 4096 == 0 && va <= HB.HEAP_END && Clean(vm, floor + (HB.HEAP_END - va) / 4096)
    requires HeapFrom(vm, va).Some? && floor <= Supply(HeapFrom(vm, va).value)
    ensures var vm1 := HeapFrom(vm, va).value; var pages := HeapPages(vm, va);
      && HeapDone(vm, place, vm1, place1, pages) && Clean(vm1, floor)
      && va + |pages| * 4096 == HB.HEAP_END
      && Agrees(vm1.ram, vm1.kernel, HeapMap(m, va, pages))
    decreases HB.HEAP_END - va
  {
    hide HeapStep;
    if va >= HB.HEAP_END {
      place1 := place;
    } else {
      var (vm1, pa) := HeapStep(vm, va).value;
      var floor1 := floor + (HB.HEAP_END - (va + 4096)) / 4096;
      StepSupply(vm, va);
      HeapSupply(vm1, va + 4096);
      var mid := HeapRound(vm, place, va, m, floor1);
      place1 := HeapLoop(vm1, mid, va + 4096, m[PageNumber(va) := Mapping(pa, KERNEL_FLAGS)], floor);
      HeapCons(vm, vm1, HeapFrom(vm1, va + 4096).value, place, mid, place1, pa, HeapPages(vm1, va + 4096));
    }
  }

  lemma HeapCons(vm: Vm, vm1: Vm, vm2: Vm, place: Places, mid: Places, place1: Places, pa: nat, rest: seq<nat>)
    requires HeapDone(vm, place, vm1, mid, [pa]) && HeapDone(vm1, mid, vm2, place1, rest)
    ensures HeapDone(vm, place, vm2, place1, [pa] + rest)
  {
    var pages := [pa] + rest;
    assert [pa][0] == pa;
    forall i | 0 <= i < |pages|
      ensures !Available(vm2, pages[i]) && pages[i] !in place1 && Available(vm, pages[i]) && IsPage(pages[i])
      ensures IsFrame(vm.frames, pages[i])
    {
      if i > 0 { assert pages[i] == rest[i - 1]; }
    }
    forall i, j | 0 <= i < j < |pages| ensures pages[i] != pages[j] {
      assert pages[j] == rest[j - 1];
      if i > 0 { assert pages[i] == rest[i - 1]; }
    }
  }

  // --- the address space the kernel starts with --------------------------------------------------

  /** Where the pages of an aligned region answer. */
  lemma AnswerAt(m: Pages, va: nat)
    requires va < 0x8000_0000_0000 && va / 4096 in m && m[va / 4096].frame % 4096 == 0
    ensures Answer(m, va) == m[va / 4096].frame + va % 4096 && PageNumber(va) == va / 4096
  {
    PageNumberOfPage(va);
    OffsetIs(va);
    PageOrOffset(m[va / 4096].frame, va % 4096);
  }

  /** Address va resolves to pa in root r, for the kernel alone to read and write. */
  ghost predicate KernelPage(ram: Ram, r: nat, va: nat, pa: nat) {
    Resolve(ram, r, va) == pa && Rights(Entry(ram, r, PathOf(va)), KERNEL_FLAGS)
  }

  /** The promise of vmm_init for root r: the first 2 MB and the page frames outside the heap
      window at their own addresses, the heap window on the given pages, all present and
      writable and closed to user mode. */
  ghost predicate KernelMaps(ram: Ram, r: nat, frames: Frames, pages: seq<nat>)
    requires |pages| == 1024
  {
    && (forall va: nat | va < 0x20_0000 :: KernelPage(ram, r, va, va))
    && (forall va: nat | frames.base <= va < frames.base + frames.total * 4096 &&
          !(HB.HEAP_START <= va < HB.HEAP_END) ::
          KernelPage(ram, r, va, va))
    && (forall va: nat | HB.HEAP_START <= va < HB.HEAP_END ::
          KernelPage(ram, r, va, pages[(va - HB.HEAP_START) / 4096] + va % 4096))
  }

  /** Which tables the kernel can reach by their physical address: of the pages that are tables
      or can become tables, exactly those outside the heap window resolve to themselves. */
  lemma TablesReached(vm: Vm, place: Places, r: nat, frames: Frames, pages: seq<nat>, t: nat)
    requires |pages| == 1024 && KernelMaps(vm.ram, r, frames, pages) && Held(vm, place, pages)
    requires IsPage(t) && (t in place || Available(vm, t))
    requires t < 0x20_0000 || frames.base <= t < frames.base + frames.total * 4096
    requires frames.base >= 0x20_0000
    ensures Resolve(vm.ram, r, t) == t <==> !(HB.HEAP_START <= t < HB.HEAP_END)
  {
    hide Resolve, Available;
    if !(HB.HEAP_START <= t < HB.HEAP_END) {
      assert KernelPage(vm.ram, r, t, t);
    } else {
      assert KernelPage(vm.ram, r, t, pages[(t - HB.HEAP_START) / 4096] + t % 4096);
      assert pages[(t - HB.HEAP_START) / 4096] != t;
    }
  }

  /** vmm_init, from the boot tables and any other contents of memory: every page frame
      address outside the heap window and the first 2 MB resolve to themselves; the 1024 heap
      pages resolve to different page frames, and no page table lies on any of them.  The 1024
      frames of the heap may be dirty; pages for tables hold no entries down to the given floor. */
  lemma InitMaps(b: BootTables, ram: Ram, pool: nat, frames: Frames, floor: int)
    returns (place: Places, pages: seq<nat>)
    requires Laid(b, pool, frames) && Sound(BootVm(b, ram, pool, frames)) && frames.base >= 0x20_0000
    requires Init(BootVm(b, ram, pool, frames)).Some?
    requires Clean(BootVm(b, ram, pool, frames), floor + 1024)
    requires floor <= Supply(Init(BootVm(b, ram, pool, frames)).value)
    ensures var vm := Init(BootVm(b, ram, pool, frames)).value;
      && Shape(vm, place) && vm.kernel == b.pml4 && Clean(vm, floor)
      && |pages| == 1024 && KernelMaps(vm.ram, b.pml4, frames, pages)
      && AllDifferent(pages) && AllFrames(frames, pages) && Held(vm, place, pages)
  {
    BootShape(b, ram, pool, frames);
    BootAgrees(b, ram, pool, frames);
    place, pages := InitFrom(BootVm(b, ram, pool, frames), BootPlace(b), floor);
  }

  /** vmm_init from any well-formed state in which the kernel's root maps the first 2 MB. */
  lemma InitFrom(vm: Vm, place: Places, floor: int) returns (place2: Places, pages: seq<nat>)
    requires Shape(vm, place) && Agrees(vm.ram, vm.kernel, FirstPages()) && vm.frames.base >= 0x20_0000
    requires Init(vm).Some? && Clean(vm, floor + 1024) && floor <= Supply(Init(vm).value)
    ensures var vm2 := Init(vm).value;
      && Shape(vm2, place2) && vm2.kernel == vm.kernel && Clean(vm2, floor)
      && |pages| == 1024 && KernelMaps(vm2.ram, vm.kernel, vm.frames, pages)
      && AllDifferent(pages) && AllFrames(vm.frames, pages) && Held(vm2, place2, pages)
  {
    hide Clean, KernelMaps, HeapMap, HeapFrom, HeapPages, HeapStep, IdentityFrom, IdentityMap;
    var end := vm.frames.base + vm.frames.total * 4096;
    var vm1 := IdentityFrom(vm, vm.frames.base, end).value;
    var place1, last := BothLoops(vm, place, end, vm1, HB.HEAP_START, floor);
    place2 := last;
    pages := HeapPages(vm1, HB.HEAP_START);
    FramesBefore(vm.frames, vm1.frames, pages);
    MapsFollow(Init(vm).value.ram, vm.kernel, vm.frames, pages);
  }

  /** The first loop up to end, then the second one from va. */
  lemma BothLoops(vm: Vm, place: Places, end: nat, vm1: Vm, va: nat, floor: int)
    returns (place1: Places, place2: Places)
    requires Shape(vm, place) && Agrees(vm.ram, vm.kernel, FirstPages())
    requires end <= 0x8000_0000_0000 && IdentityFrom(vm, vm.frames.base, end) == Some(vm1)
    requires va % 4096 == 0 && va <= HB.HEAP_END && HeapFrom(vm1, va).Some?
    requires Clean(vm, floor + (HB.HEAP_END - va) / 4096) && floor <= Supply(HeapFrom(vm1, va).value)
    ensures var vm2, pages := HeapFrom(vm1, va).value, HeapPages(vm1, va);
      && vm1.kernel == vm.kernel && Shrunk(vm.frames, vm1.frames)
      && HeapDone(vm1, place1, vm2, place2, pages) && va + |pages| * 4096 == HB.HEAP_END && Clean(vm2, floor)
      && Agrees(vm2.ram, vm.kernel, HeapMap(IdentityMap(FirstPages(), vm.frames.base, end), va, pages))
  {
    assert Sound(vm) && vm.frames.base % 4096 == 0;
    hide Shape, Clean, Agrees, HeapMap, HeapFrom, HeapPages, HeapStep, IdentityFrom, IdentityMap, FirstPages;
    IdentitySupply(vm, vm.frames.base, end);
    HeapSupply(vm1, va);
    place1 := IdentityLoop(vm, place, vm.frames.base, end, FirstPages(), floor + (HB.HEAP_END - va) / 4096);
    place2 := HeapLoop(vm1, place1, va, IdentityMap(FirstPages(), vm.frames.base, end), floor);
  }

  lemma FramesBefore(f: Frames, g: Frames, pages: seq<nat>)
    requires Shrunk(f, g) && AllFrames(g, pages)
    ensures AllFrames(f, pages)
  {
    forall i | 0 <= i < |pages| ensures IsFrame(f, pages[i]) {
      assert IsFrame(g, pages[i]);
      var p :| p in g.free && pages[i] == Addr(g, p);
      assert Addr(f, p) == pages[i];
    }
  }

  lemma MapsFollow(ram: Ram, r: nat, frames: Frames, pages: seq<nat>)
    requires Proper(frames) && frames.base >= 0x20_0000
    requires |pages| == 1024 && (forall i | 0 <= i < |pages| :: IsPage(pages[i]))
    requires Agrees(ram, r,
               HeapMap(IdentityMap(FirstPages(), frames.base, frames.base + frames.total * 4096), HB.HEAP_START, pages))
    ensures KernelMaps(ram, r, frames, pages)
  {
    hide HeapMap, IdentityMap, KernelPage;
    var end := frames.base + frames.total * 4096;
    forall va: nat | va < 0x20_0000 || (frames.base <= va < end && !(HB.HEAP_START <= va < HB.HEAP_END))
      ensures KernelPage(ram, r, va, va)
    {
      IdentityAnswer(ram, r, frames.base, end, pages, va);
    }
    forall va: nat | HB.HEAP_START <= va < HB.HEAP_END
      ensures KernelPage(ram, r, va, pages[(va - HB.HEAP_START) / 4096] + va % 4096)
    {
      HeapAnswer(ram, r, IdentityMap(FirstPages(), frames.base, end), pages, va);
    }
  }

  lemma IdentityAnswer(ram: Ram, r: nat, base: nat, end: nat, pages: seq<nat>, va: nat)
    requires base % 4096 == 0 && end % 4096 == 0 && end <= 0x8000_0000_0000 && |pages| == 1024
    requires Agrees(ram, r, HeapMap(IdentityMap(FirstPages(), base, end), HB.HEAP_START, pages))
    requires va < 0x20_0000 || (base <= va < end && !(HB.HEAP_START <= va < HB.HEAP_END))
    requires base >= 0x20_0000
    ensures KernelPage(ram, r, va, va)
  {
    hide HeapMap, PageNumber;
    var n := va / 4096;
    var m1 := IdentityMap(FirstPages(), base, end);
    var m := HeapMap(m1, HB.HEAP_START, pages);
    InWhichRange(va, base, end);
    IdentityMapAt(FirstPages(), base, end, n);
    HeapMapAt(m1, HB.HEAP_START, pages, n);
    assert m[n] == Mapping(n * 4096, KERNEL_FLAGS);
    AnswerAt(m, va);
    assert PageAgrees(ram, r, m, va);
  }

  lemma InWhichRange(va: nat, base: nat, end: nat)
    requires base % 4096 == 0 && end % 4096 == 0 && base >= 0x20_0000 && end <= 0x8000_0000_0000
    requires va < 0x20_0000 || (base <= va < end && !(HB.HEAP_START <= va < HB.HEAP_END))
    ensures va / 4096 < ENTRIES || base / 4096 <= va / 4096 < end / 4096
    ensures !(HB.HEAP_START / 4096 <= va / 4096 < HB.HEAP_START / 4096 + 1024)
    ensures va / 4096 < ENTRIES ==> va / 4096 < base / 4096
    ensures va < 0x8000_0000_0000 && va / 4096 * 4096 + va % 4096 == va
  {
  }

  lemma HeapAnswer(ram: Ram, r: nat, m1: Pages, pages: seq<nat>, va: nat)
    requires |pages| == 1024 && (forall i | 0 <= i < |pages| :: IsPage(pages[i]))
    requires Agrees(ram, r, HeapMap(m1, HB.HEAP_START, pages)) && HB.HEAP_START <= va < HB.HEAP_END
    ensures KernelPage(ram, r, va, pages[(va - HB.HEAP_START) / 4096] + va % 4096)
  {
    var m := HeapMap(m1, HB.HEAP_START, pages);
    HeapMapAt(m1, HB.HEAP_START, pages, va / 4096);
    assert (va - HB.HEAP_START) / 4096 == va / 4096 - HB.HEAP_START / 4096;
    AnswerAt(m, va);
    assert PageAgrees(ram, r, m, va);
  }
}
