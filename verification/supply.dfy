/** When there is enough memory: the panics of vmm_map and vmm_init. */
module TableSupply {
  import opened Options
  import opened SetSizes
  import opened Entries
  import opened PageFrames
  import opened PageTables
  import opened AddressSpaces
  import opened TableEconomy
  import opened BootMapping
  import opened Pmm
  import HB = HeapBlocks

  // --- one table, one mapping ---------------------------------------------------------------

  lemma AllocTableExact(vm: Vm)
    requires Sound(vm)
    ensures AllocTable(vm).Some? <==> Supply(vm) > 0
  {
    AllocFacts(vm.frames);
  }

  /** Frames are taken only when the pool is used up. */
  predicate PoolFirst(vm: Vm, vm1: Vm) {
    vm1.frames == vm.frames || Supply(vm1) == |vm1.frames.free|
  }

  lemma LevelExact(vm: Vm, t: nat, i: nat, flags: nat)
    requires Sound(vm) && i < ENTRIES
    ensures Level(vm, t, i, flags).Some? <==> Present(Read(vm.ram, t)[i]) || Supply(vm) > 0
    ensures Level(vm, t, i, flags).Some? ==>
              var vm1 := Level(vm, t, i, flags).value.0;
              && Sound(vm1) && PoolFirst(vm, vm1)
              && Supply(vm1) == Supply(vm) - (if Next(vm.ram, t, i).None? then 1 else 0)
  {
    AllocTableExact(vm);
    if Level(vm, t, i, flags).Some? {
      SupplyStep(vm, t, i, flags);
      if !Present(Read(vm.ram, t)[i]) && vm.poolUsed + 4096 > POOL_SIZE { FreshFromFrames(vm); }
    }
  }

  /** How many tables the path lacks. */
  function Missing(ram: Ram, r: nat, p: Path): nat
    requires ValidPath(p)
  {
    (if Pdp(ram, r, p).None? then 1 else 0) + (if Pd(ram, r, p).None? then 1 else 0)
    + (if Pt(ram, r, p).None? then 1 else 0)
  }

  /** Enough pages for the missing tables are enough, whatever the pages hold. */
  lemma EnoughMaps(vm: Vm, r: nat, va: nat, phys: nat, flags: nat)
    requires Sound(vm) && Missing(vm.ram, r, PathOf(va)) <= Supply(vm)
    ensures Map(vm, r, va, phys, flags).Some?
  {
    var p := PathOf(va);
    hide Level;
    LevelExact(vm, r, p.i4, flags);
    var (vm1, pdp) := Level(vm, r, p.i4, flags).value;
    if Pdp(vm.ram, r, p).Some? { LevelPresent(vm, r, p.i4, flags); }
    LevelExact(vm1, pdp, p.i3, flags);
    var (vm2, pd) := Level(vm1, pdp, p.i3, flags).value;
    if Pd(vm.ram, r, p).Some? { LevelPresent(vm1, pdp, p.i3, flags); }
    LevelExact(vm2, pd, p.i2, flags);
  }

  lemma LevelPresent(vm: Vm, t: nat, i: nat, flags: nat)
    requires i < ENTRIES && Next(vm.ram, t, i).Some?
    ensures Level(vm, t, i, flags) == Some((vm, Next(vm.ram, t, i).value))
  {
  }

  lemma CleanHigher(vm: Vm, floor: int, floor1: int)
    requires Clean(vm, floor) && floor <= floor1
    ensures Clean(vm, floor1)
  {
  }

  /** A mapping takes a page for each missing table, the pool's first. */
  lemma MapTakes(vm: Vm, place: Places, r: nat, va: nat, phys: nat, flags: nat)
    requires Shape(vm, place) && IsRoot(place, r) && Map(vm, r, va, phys, flags).Some?
    requires Clean(vm, Supply(Map(vm, r, va, phys, flags).value))
    ensures var vm1 := Map(vm, r, va, phys, flags).value;
      && Supply(vm1) == Supply(vm) - Missing(vm.ram, r, PathOf(va)) && PoolFirst(vm, vm1)
      && Extended(vm.ram, vm1.ram, r, PathOf(va), true, true, true)
      && Tables(vm1.ram, r) == Tables(vm.ram, r) + Missing(vm.ram, r, PathOf(va))
  {
    var p, vm1 := PathOf(va), Map(vm, r, va, phys, flags).value;
    MapEconomy(vm, place, r, va, phys, flags, Supply(vm1));
    MapPoolFirst(vm, r, va, phys, flags);
    hide Map, Clean, Shape, PoolFirst;
    MissingPrefixes(vm.ram, r, p);
    TablesGrow(vm.ram, vm1.ram, r, p);
  }

  lemma MapPoolFirst(vm: Vm, r: nat, va: nat, phys: nat, flags: nat)
    requires Sound(vm) && Map(vm, r, va, phys, flags).Some?
    ensures PoolFirst(vm, Map(vm, r, va, phys, flags).value)
  {
    var p := PathOf(va);
    hide Level;
    LevelExact(vm, r, p.i4, flags);
    var (vm1, pdp) := Level(vm, r, p.i4, flags).value;
    LevelExact(vm1, pdp, p.i3, flags);
    var (vm2, pd) := Level(vm1, pdp, p.i3, flags).value;
    LevelExact(vm2, pd, p.i2, flags);
    var (vm3, pt) := Level(vm2, pd, p.i2, flags).value;
    PoolGone(vm, vm1, vm2);
    PoolGone(vm, vm2, vm3);
  }

  lemma PoolGone(vm: Vm, vm1: Vm, vm2: Vm)
    requires PoolFirst(vm, vm1) && PoolFirst(vm1, vm2) && Sound(vm1) && Sound(vm2)
    requires Supply(vm2) <= Supply(vm1)
    ensures PoolFirst(vm, vm2)
  {
  }

  lemma MissingPrefixes(ram: Ram, r: nat, p: Path)
    requires ValidPath(p)
    ensures Pdp(ram, r, p).None? <==> p.i4 !in Pdps(ram, r)
    ensures Pd(ram, r, p).None? <==> (p.i4, p.i3) !in Pds(ram, r)
    ensures Pt(ram, r, p).None? <==> (p.i4, p.i3, p.i2) !in Pts(ram, r)
  {
    assert HasPdp(ram, r, p.i4) <==> Pdp(ram, r, p).Some?;
    assert HasPd(ram, r, p.i4, p.i3) <==> Pd(ram, r, p).Some?;
    assert HasPt(ram, r, p.i4, p.i3, p.i2) <==> Pt(ram, r, p).Some?;
  }

  lemma TablesGrow(ram: Ram, ram1: Ram, r: nat, p: Path)
    requires ValidPath(p) && Extended(ram, ram1, r, p, true, true, true)
    ensures Tables(ram1, r) == Tables(ram, r) + Missing(ram, r, p)
  {
    MissingPrefixes(ram, r, p);
    hide Pdps, Pds, Pts, Pdp, Pd, Pt;
    AddOne(Pdps(ram, r), p.i4);
    AddOne(Pds(ram, r), (p.i4, p.i3));
    AddOne(Pts(ram, r), (p.i4, p.i3, p.i2));
  }

  /** vmm_map succeeds exactly when the pages left cover the tables that its path lacks. */
  lemma MapExact(vm: Vm, place: Places, r: nat, va: nat, phys: nat, flags: nat)
    requires Shape(vm, place) && IsRoot(place, r)
    requires var left := Supply(vm) - Missing(vm.ram, r, PathOf(va)); Clean(vm, if left > 0 then left else 0)
    ensures Map(vm, r, va, phys, flags).Some? <==> Missing(vm.ram, r, PathOf(va)) <= Supply(vm)
    ensures Map(vm, r, va, phys, flags).Some? ==>
              Supply(Map(vm, r, va, phys, flags).value) == Supply(vm) - Missing(vm.ram, r, PathOf(va))
  {
    hide Missing, Map, Clean;
    var missing := Missing(vm.ram, r, PathOf(va));
    if missing <= Supply(vm) { EnoughMaps(vm, r, va, phys, flags); }
    if Map(vm, r, va, phys, flags).Some? {
      var vm1 := Map(vm, r, va, phys, flags).value;
      MapSupply(vm, r, va, phys, flags);
      MapTakesAtMost(vm, r, va, phys, flags);
      CleanHigher(vm, if missing <= Supply(vm) then Supply(vm) - missing else 0, Supply(vm1));
      MapTakes(vm, place, r, va, phys, flags);
    }
  }

  /** Whatever the pages hold, a mapping takes no more than one page for each missing table. */
  lemma MapTakesAtMost(vm: Vm, r: nat, va: nat, phys: nat, flags: nat)
    requires Sound(vm) && Map(vm, r, va, phys, flags).Some?
    ensures Supply(Map(vm, r, va, phys, flags).value) >= Supply(vm) - Missing(vm.ram, r, PathOf(va))
  {
    var p := PathOf(va);
    hide Level;
    LevelExact(vm, r, p.i4, flags);
    var (vm1, pdp) := Level(vm, r, p.i4, flags).value;
    if Pdp(vm.ram, r, p).Some? { LevelPresent(vm, r, p.i4, flags); }
    LevelExact(vm1, pdp, p.i3, flags);
    var (vm2, pd) := Level(vm1, pdp, p.i3, flags).value;
    if Pd(vm.ram, r, p).Some? { LevelPresent(vm1, pdp, p.i3, flags); }
    LevelExact(vm2, pd, p.i2, flags);
  }

  /** Four free frames are enough for one round of the second loop of vmm_init. */
  lemma HeapStepSome(vm: Vm, va: nat)
    requires Sound(vm) && |vm.frames.free| >= 4
    ensures HeapStep(vm, va).Some?
  {
    AllocFacts(vm.frames);
    var (f, pa) := Alloc(vm.frames);
    EnoughMaps(vm.(frames := f), vm.kernel, va, pa, KERNEL_FLAGS);
  }

  // --- the tables that a list of addresses needs ----------------------------------------------

  ghost function Top9(vas: seq<nat>): set<nat> {
    set va | va in vas :: PathOf(va).i4
  }

  ghost function Top18(vas: seq<nat>): set<(nat, nat)> {
    set va | va in vas :: (PathOf(va).i4, PathOf(va).i3)
  }

  ghost function Top27(vas: seq<nat>): set<(nat, nat, nat)> {
    set va | va in vas :: (PathOf(va).i4, PathOf(va).i3, PathOf(va).i2)
  }

  /** The tables that root r has, or will have once all the addresses are mapped. */
  ghost function Cover(ram: Ram, r: nat, vas: seq<nat>): nat {
    |Pdps(ram, r) + Top9(vas)| + |Pds(ram, r) + Top18(vas)| + |Pts(ram, r) + Top27(vas)|
  }

  /** The tables still to be made for the addresses. */
  ghost function Need(ram: Ram, r: nat, vas: seq<nat>): int {
    Cover(ram, r, vas) - Tables(ram, r)
  }

  lemma TopCons(va: nat, rest: seq<nat>)
    ensures var p := PathOf(va);
      && Top9([va] + rest) == {p.i4} + Top9(rest)
      && Top18([va] + rest) == {(p.i4, p.i3)} + Top18(rest)
      && Top27([va] + rest) == {(p.i4, p.i3, p.i2)} + Top27(rest)
  {
    forall x ensures x in [va] + rest <==> x == va || x in rest {}
  }

  lemma CoverNone(ram: Ram, r: nat)
    ensures Cover(ram, r, []) == Tables(ram, r)
  {
    hide Pdps, Pds, Pts;
    assert Pdps(ram, r) + Top9([]) == Pdps(ram, r);
    assert Pds(ram, r) + Top18([]) == Pds(ram, r);
    assert Pts(ram, r) + Top27([]) == Pts(ram, r);
  }

  /** Once an address is mapped, the others cover what all did before. */
  lemma CoverStep(ram: Ram, ram1: Ram, r: nat, va: nat, rest: seq<nat>)
    requires Extended(ram, ram1, r, PathOf(va), true, true, true)
    ensures Cover(ram1, r, rest) == Cover(ram, r, [va] + rest)
  {
    var p := PathOf(va);
    TopCons(va, rest);
    hide Pdps, Pds, Pts, Top9, Top18, Top27;
    UnionAssoc(Pdps(ram, r), {p.i4}, Top9(rest));
    UnionAssoc(Pds(ram, r), {(p.i4, p.i3)}, Top18(rest));
    UnionAssoc(Pts(ram, r), {(p.i4, p.i3, p.i2)}, Top27(rest));
  }

  /** The missing tables of one address are among those that all of them need. */
  lemma MissingNeeded(ram: Ram, r: nat, va: nat, rest: seq<nat>)
    ensures Missing(ram, r, PathOf(va)) <= Need(ram, r, [va] + rest)
  {
    var p := PathOf(va);
    TopCons(va, rest);
    MissingPrefixes(ram, r, p);
    hide Pdps, Pds, Pts, Top9, Top18, Top27, Pdp, Pd, Pt;
    AddOne(Pdps(ram, r), p.i4);
    AddOne(Pds(ram, r), (p.i4, p.i3));
    AddOne(Pts(ram, r), (p.i4, p.i3, p.i2));
    SubsetCount(Pdps(ram, r) + {p.i4}, Pdps(ram, r) + Top9([va] + rest));
    SubsetCount(Pds(ram, r) + {(p.i4, p.i3)}, Pds(ram, r) + Top18([va] + rest));
    SubsetCount(Pts(ram, r) + {(p.i4, p.i3, p.i2)}, Pts(ram, r) + Top27([va] + rest));
  }

  lemma NeedNatural(ram: Ram, r: nat, vas: seq<nat>)
    ensures Need(ram, r, vas) >= 0
  {
    hide Pdps, Pds, Pts, Top9, Top18, Top27;
    SubsetCount(Pdps(ram, r), Pdps(ram, r) + Top9(vas));
    SubsetCount(Pds(ram, r), Pds(ram, r) + Top18(vas));
    SubsetCount(Pts(ram, r), Pts(ram, r) + Top27(vas));
  }

  // --- the loops of vmm_init ------------------------------------------------------------------

  /** The addresses of the first loop. */
  function IdentityVas(va: nat, end: nat): seq<nat>
    decreases end - va
  {
    if va >= end then [] else [va] + IdentityVas(va + 4096, end)
  }

  /** The addresses of the second loop. */
  function HeapVas(va: nat): seq<nat>
    decreases HB.HEAP_END - va
  {
    if va >= HB.HEAP_END then [] else [va] + HeapVas(va + 4096)
  }

  /** What is left of the supply when the kernel has mapped the addresses. */
  ghost function Spare(vm: Vm, vas: seq<nat>): int {
    Supply(vm) - Need(vm.ram, vm.kernel, vas)
  }

  /** The supply has n frames for data besides the tables for the addresses. */
  ghost predicate Enough(vm: Vm, vas: seq<nat>, n: nat) {
    n <= |vm.frames.free| && n <= Spare(vm, vas)
  }

  /** The bookkeeping of one mapping. */
  lemma CountRound(vm: Vm, place: Places, va: nat, pa: nat, rest: seq<nat>, floor: int) returns (place1: Places)
    requires Shape(vm, place) && Map(vm, vm.kernel, va, pa, KERNEL_FLAGS).Some? && Clean(vm, floor)
    requires floor <= Supply(Map(vm, vm.kernel, va, pa, KERNEL_FLAGS).value)
    ensures var vm1 := Map(vm, vm.kernel, va, pa, KERNEL_FLAGS).value;
      && Shape(vm1, place1) && vm1.kernel == vm.kernel && Clean(vm1, floor)
      && Spare(vm1, rest) == Spare(vm, [va] + rest) && PoolFirst(vm, vm1)
  {
    var vm1 := Map(vm, vm.kernel, va, pa, KERNEL_FLAGS).value;
    place1 := MapStep(vm, place, vm.kernel, va, pa, KERNEL_FLAGS, floor);
    CleanHigher(vm, floor, Supply(vm1));
    MapTakes(vm, place, vm.kernel, va, pa, KERNEL_FLAGS);
    hide Map, Shape, Clean, Cover, Extended, Tables;
    CoverStep(vm.ram, vm1.ram, vm.kernel, va, rest);
  }

  /** With enough pages one mapping succeeds and leaves enough. */
  lemma MapRound(vm: Vm, place: Places, va: nat, pa: nat, rest: seq<nat>, n: nat) returns (place1: Places)
    requires Shape(vm, place) && Enough(vm, [va] + rest, n) && Clean(vm, Spare(vm, [va] + rest))
    ensures Map(vm, vm.kernel, va, pa, KERNEL_FLAGS).Some?
    ensures var vm1 := Map(vm, vm.kernel, va, pa, KERNEL_FLAGS).value;
      && Shape(vm1, place1) && vm1.kernel == vm.kernel
      && Enough(vm1, rest, n) && Clean(vm1, Spare(vm1, rest))
  {
    hide Map, Clean, Need, Missing;
    MissingNeeded(vm.ram, vm.kernel, va, rest);
    EnoughMaps(vm, vm.kernel, va, pa, KERNEL_FLAGS);
    MapTakesAtMost(vm, vm.kernel, va, pa, KERNEL_FLAGS);
    place1 := CountRound(vm, place, va, pa, rest, Spare(vm, [va] + rest));
    NeedNatural(Map(vm, vm.kernel, va, pa, KERNEL_FLAGS).value.ram, vm.kernel, rest);
  }

  lemma {:induction false} IdentityGoes(vm: Vm, place: Places, va: nat, end: nat, more: seq<nat>, n: nat)
    returns (place1: Places)
    requires Shape(vm, place) && Enough(vm, IdentityVas(va, end) + more, n)
    requires Clean(vm, Spare(vm, IdentityVas(va, end) + more))
    ensures IdentityFrom(vm, va, end).Some?
    ensures var vm1 := IdentityFrom(vm, va, end).value;
      Shape(vm1, place1) && vm1.kernel == vm.kernel && Enough(vm1, more, n) && Clean(vm1, Spare(vm1, more))
    decreases end - va
  {
    hide Map, Shape, Clean, Enough, Spare;
    if va >= end {
      assert IdentityVas(va, end) + more == more;
      place1 := place;
    } else {
      var rest := IdentityVas(va + 4096, end) + more;
      assert IdentityVas(va, end) + more == [va] + rest;
      var mid := MapRound(vm, place, va, va, rest, n);
      place1 := IdentityGoes(Map(vm, vm.kernel, va, va, KERNEL_FLAGS).value, mid, va + 4096, end, more, n);
    }
  }

  lemma ShapeSound(vm: Vm, place: Places)
    requires Shape(vm, place)
    ensures Sound(vm)
  {
  }

  lemma IdentityOne(vm: Vm, va: nat, end: nat, more: seq<nat>)
    requires IdentityFrom(vm, va, end).Some?
    ensures va >= end ==> IdentityFrom(vm, va, end) == Some(vm) && IdentityVas(va, end) + more == more
    ensures va < end ==>
              && IdentityVas(va, end) + more == [va] + (IdentityVas(va + 4096, end) + more)
              && var next := Map(vm, vm.kernel, va, va, KERNEL_FLAGS);
                 next.Some? && IdentityFrom(vm, va, end) == IdentityFrom(next.value, va + 4096, end)
  {
    hide Map;
  }

  lemma {:induction false} IdentityCounts(vm: Vm, place: Places, va: nat, end: nat, more: seq<nat>, floor: int)
    returns (place1: Places)
    requires Shape(vm, place) && Clean(vm, floor)
    requires IdentityFrom(vm, va, end).Some? && floor <= Supply(IdentityFrom(vm, va, end).value)
    ensures var vm1 := IdentityFrom(vm, va, end).value;
      && Shape(vm1, place1) && vm1.kernel == vm.kernel && Clean(vm1, floor)
      && Spare(vm1, more) == Spare(vm, IdentityVas(va, end) + more)
    decreases end - va
  {
    hide *;
    ShapeSound(vm, place);
    IdentityOne(vm, va, end, more);
    place1 := place;
    if va < end {
      var rest := IdentityVas(va + 4096, end) + more;
      var vm1 := Map(vm, vm.kernel, va, va, KERNEL_FLAGS).value;
      MapSupply(vm, vm.kernel, va, va, KERNEL_FLAGS);
      IdentitySupply(vm1, va + 4096, end);
      var mid := CountRound(vm, place, va, va, rest, floor);
      place1 := IdentityCounts(vm1, mid, va + 4096, end, more, floor);
    }
  }

  /** A frame for data comes out of what is spare. */
  lemma DataFrame(vm: Vm, place: Places, vas: seq<nat>, floor: int)
    requires Shape(vm, place) && Clean(vm, floor + 1)
    requires vm.frames.free != {} || Alloc(vm.frames).1 != 0
    ensures Alloc(vm.frames).1 != 0
    ensures var vm0 := vm.(frames := Alloc(vm.frames).0);
      && Shape(vm0, place) && Clean(vm0, floor) && |vm0.frames.free| == |vm.frames.free| - 1
      && Spare(vm0, vas) == Spare(vm, vas) - 1
  {
    hide Need;
    AllocFacts(vm.frames);
    AllocThenFree(vm.frames);
    TakeFrame(vm, place, floor);
  }

  lemma {:induction false} HeapGoes(vm: Vm, place: Places, va: nat)
    requires Shape(vm, place) && va % 4096 == 0 && va <= HB.HEAP_END
    requires Enough(vm, HeapVas(va), (HB.HEAP_END - va) / 4096) && Clean(vm, Spare(vm, HeapVas(va)))
    ensures HeapFrom(vm, va).Some?
    decreases HB.HEAP_END - va
  {
    hide Map, Shape, Clean, Spare, Alloc;
    if va < HB.HEAP_END {
      var rest := HeapVas(va + 4096);
      DataFrame(vm, place, [va] + rest, Spare(vm, [va] + rest) - 1);
      var (f, pa) := Alloc(vm.frames);
      var mid := MapRound(vm.(frames := f), place, va, pa, rest, (HB.HEAP_END - (va + 4096)) / 4096);
      HeapGoes(HeapStep(vm, va).value.0, mid, va + 4096);
    }
  }

  lemma HeapOne(vm: Vm, va: nat)
    requires HeapFrom(vm, va).Some? && va < HB.HEAP_END
    ensures va % 4096 == 0 ==> va + 4096 <= HB.HEAP_END
    ensures HeapVas(va) == [va] + HeapVas(va + 4096) && HeapStep(vm, va).Some?
    ensures HeapFrom(vm, va) == HeapFrom(HeapStep(vm, va).value.0, va + 4096)
    ensures var (f, pa) := Alloc(vm.frames);
      && pa != 0 && Map(vm.(frames := f), vm.kernel, va, pa, KERNEL_FLAGS).Some?
      && HeapStep(vm, va).value.0 == Map(vm.(frames := f), vm.kernel, va, pa, KERNEL_FLAGS).value
  {
    hide Map, Alloc;
  }

  lemma {:induction false} HeapCounts(vm: Vm, place: Places, va: nat, floor: int)
    requires Shape(vm, place) && va % 4096 == 0 && va <= HB.HEAP_END
    requires Clean(vm, floor + (HB.HEAP_END - va) / 4096)
    requires HeapFrom(vm, va).Some? && floor <= Supply(HeapFrom(vm, va).value)
    ensures Supply(HeapFrom(vm, va).value) == Spare(vm, HeapVas(va)) - (HB.HEAP_END - va) / 4096
    decreases HB.HEAP_END - va
  {
    hide *;
    if va >= HB.HEAP_END {
      HeapNone(vm, va);
    } else {
      ShapeSound(vm, place);
      HeapOne(vm, va);
      var rest := HeapVas(va + 4096);
      var floor1 := floor + (HB.HEAP_END - (va + 4096)) / 4096;
      var (f, pa) := Alloc(vm.frames);
      StepSupply(vm, va);
      HeapSupply(HeapStep(vm, va).value.0, va + 4096);
      DataFrame(vm, place, [va] + rest, floor1);
      var mid := CountRound(vm.(frames := f), place, va, pa, rest, floor1);
      HeapCounts(HeapStep(vm, va).value.0, mid, va + 4096, floor);
    }
  }

  lemma HeapNone(vm: Vm, va: nat)
    requires va >= HB.HEAP_END
    ensures HeapFrom(vm, va) == Some(vm) && Spare(vm, HeapVas(va)) == Supply(vm)
  {
    CoverNone(vm.ram, vm.kernel);
    hide Cover, Supply;
  }

  /** The second loop takes a frame for every page of the heap. */
  lemma {:induction false} HeapFrames(vm: Vm, va: nat)
    requires Sound(vm) && HeapFrom(vm, va).Some? && va % 4096 == 0 && va <= HB.HEAP_END
    ensures (HB.HEAP_END - va) / 4096 <= |vm.frames.free|
    decreases HB.HEAP_END - va
  {
    hide *;
    if va < HB.HEAP_END {
      HeapOne(vm, va);
      var vm1 := HeapStep(vm, va).value.0;
      StepSupply(vm, va);
      StepFrames(vm, va);
      HeapFrames(vm1, va + 4096);
    }
  }

  lemma StepFrames(vm: Vm, va: nat)
    requires Sound(vm) && HeapStep(vm, va).Some?
    ensures |HeapStep(vm, va).value.0.frames.free| < |vm.frames.free|
  {
    AllocFacts(vm.frames);
    AllocThenFree(vm.frames);
    var (f, pa) := Alloc(vm.frames);
    MapShrinks(vm.(frames := f), vm.kernel, va, pa, KERNEL_FLAGS);
    SubsetCount(HeapStep(vm, va).value.0.frames.free, f.free);
  }

  lemma {:induction false} HeapSound(vm: Vm, va: nat)
    requires Sound(vm) && HeapFrom(vm, va).Some?
    ensures Supply(HeapFrom(vm, va).value) >= 0
    decreases HB.HEAP_END - va
  {
    hide *;
    if va >= HB.HEAP_END {
      HeapNone(vm, va);
      SupplyNatural(vm);
    } else {
      HeapOne(vm, va);
      StepSupply(vm, va);
      HeapSound(HeapStep(vm, va).value.0, va + 4096);
    }
  }

  lemma SupplyNatural(vm: Vm)
    requires Sound(vm)
    ensures Supply(vm) >= 0
  {
  }

  /** The first loop up to end, then the second one from va. */
  function BothFrom(vm: Vm, end: nat, va: nat): Option<Vm> {
    match IdentityFrom(vm, vm.frames.base, end)
    case None => None
    case Some(vm1) => HeapFrom(vm1, va)
  }

  /** All addresses that the two loops map. */
  function BothVas(f: Frames, end: nat, va: nat): seq<nat> {
    IdentityVas(f.base, end) + HeapVas(va)
  }

  lemma BothExact(vm: Vm, place: Places, end: nat, va: nat, n: nat)
    requires Shape(vm, place) && va % 4096 == 0 && va <= HB.HEAP_END && n == (HB.HEAP_END - va) / 4096
    requires var spare := Spare(vm, BothVas(vm.frames, end, va)); Clean(vm, if spare >= n then spare else n)
    ensures BothFrom(vm, end, va).Some? <==> n <= |vm.frames.free| && n <= Spare(vm, BothVas(vm.frames, end, va))
  {
    hide Shape, Clean, Spare, IdentityFrom, HeapFrom, IdentityVas, HeapVas;
    if n <= |vm.frames.free| && n <= Spare(vm, BothVas(vm.frames, end, va)) {
      var place1 := IdentityGoes(vm, place, vm.frames.base, end, HeapVas(va), n);
      HeapGoes(IdentityFrom(vm, vm.frames.base, end).value, place1, va);
    }
    if BothFrom(vm, end, va).Some? {
      ShapeSound(vm, place);
      BothFrames(vm, end, va);
      if Spare(vm, BothVas(vm.frames, end, va)) < n { BothCount(vm, place, end, va, n); }
    }
  }

  lemma BothFrames(vm: Vm, end: nat, va: nat)
    requires Sound(vm) && BothFrom(vm, end, va).Some? && va % 4096 == 0 && va <= HB.HEAP_END
    ensures (HB.HEAP_END - va) / 4096 <= |vm.frames.free|
  {
    hide Sound, IdentityFrom, HeapFrom;
    var vm1 := IdentityFrom(vm, vm.frames.base, end).value;
    IdentitySupply(vm, vm.frames.base, end);
    HeapFrames(vm1, va);
    SubsetCount(vm1.frames.free, vm.frames.free);
  }

  lemma BothCount(vm: Vm, place: Places, end: nat, va: nat, n: nat)
    requires Shape(vm, place) && va % 4096 == 0 && va <= HB.HEAP_END && n == (HB.HEAP_END - va) / 4096
    requires BothFrom(vm, end, va).Some? && Clean(vm, n)
    ensures n <= Spare(vm, BothVas(vm.frames, end, va))
  {
    hide Sound, Shape, Clean, Spare, Supply, IdentityFrom, HeapFrom, IdentityVas, HeapVas;
    ShapeSound(vm, place);
    var vm1 := IdentityFrom(vm, vm.frames.base, end).value;
    IdentitySupply(vm, vm.frames.base, end);
    HeapSupply(vm1, va);
    HeapSound(vm1, va);
    var place1 := IdentityCounts(vm, place, vm.frames.base, end, HeapVas(va), n);
    HeapCounts(vm1, place1, va, 0);
  }

  // --- vmm_init -----------------------------------------------------------------------------

  /** The pages left when vmm_init has made all its tables. */
  ghost function InitSpare(vm: Vm): int {
    Spare(vm, BothVas(vm.frames, vm.frames.base + vm.frames.total * 4096, HB.HEAP_START))
  }

  /** vmm_init succeeds exactly when 1024 frames are free and the pages left cover the tables of
      both ranges besides these 1024. */
  lemma InitExact(vm: Vm, place: Places)
    requires Shape(vm, place) && Clean(vm, if InitSpare(vm) >= 1024 then InitSpare(vm) else 1024)
    ensures Init(vm).Some? <==> 1024 <= |vm.frames.free| && 1024 <= InitSpare(vm)
  {
    hide Shape, Clean, Spare, BothVas, IdentityFrom, HeapFrom;
    BothExact(vm, place, vm.frames.base + vm.frames.total * 4096, HB.HEAP_START, 1024);
  }

  // --- an ordinary machine --------------------------------------------------------------------

  /** Below 1 GB the path of an address is its 2 MB slot. */
  lemma LowPath(va: nat)
    requires va < 0x4000_0000
    ensures PathOf(va).i4 == 0 && PathOf(va).i3 == 0 && PathOf(va).i2 == va / 0x20_0000
  {
    PageNumberDigits(va);
    PageNumberIs(va);
    hide PageNumber, Idx4, Idx3, Idx2, Idx1;
    SlotOf(PathOf(va), va);
  }

  lemma SlotOf(p: Path, va: nat)
    requires ValidPath(p) && va < 0x4000_0000
    requires va / 4096 % 0x10_0000_0000 == ((p.i4 * 512 + p.i3) * 512 + p.i2) * 512 + p.i1
    ensures p.i4 == 0 && p.i3 == 0 && p.i2 == va / 0x20_0000
  {
  }

  /** The first n slots of 2 MB. */
  ghost function Slots(n: nat): set<(nat, nat, nat)> {
    set c: nat | c < n :: (0, 0, c)
  }

  lemma {:induction false} SlotsCount(n: nat)
    ensures |Slots(n)| == n
  {
    if n > 0 {
      SlotsCount(n - 1);
      assert Slots(n) == Slots(n - 1) + {(0, 0, n - 1)};
    }
  }

  lemma {:induction false} IdentityBelow(va: nat, end: nat, x: nat)
    requires x in IdentityVas(va, end)
    ensures va <= x < end
    decreases end - va
  {
    if x != va { IdentityBelow(va + 4096, end, x); }
  }

  lemma {:induction false} HeapBelow(va: nat, x: nat)
    requires x in HeapVas(va)
    ensures va <= x < HB.HEAP_END
    decreases HB.HEAP_END - va
  {
    if x != va { HeapBelow(va + 4096, x); }
  }

  lemma BootTop(b: BootTables, ram: Ram, pool: nat, frames: Frames)
    requires Laid(b, pool, frames)
    ensures Pdps(BootRam(b, ram), b.pml4) == {0}
    ensures Pds(BootRam(b, ram), b.pml4) == {(0, 0)}
    ensures Pts(BootRam(b, ram), b.pml4) == {(0, 0, 0)}
  {
    forall i: nat | i < ENTRIES
      ensures Next(BootRam(b, ram), b.pml4, i) == if i == 0 then Some(b.pdp) else None
      ensures Next(BootRam(b, ram), b.pdp, i) == if i == 0 then Some(b.pd) else None
      ensures Next(BootRam(b, ram), b.pd, i) == if i == 0 then Some(b.pt) else None
    {
      BootNext(b, ram, pool, frames, i);
    }
    hide BootRam, Laid;
  }

  /** Mapping addresses in the first n slots on top of the boot tables takes less than n tables. */
  lemma BootNeed(b: BootTables, ram: Ram, pool: nat, frames: Frames, vas: seq<nat>, n: nat)
    requires Laid(b, pool, frames) && 0 < n <= ENTRIES && forall va | va in vas :: va < n * 0x20_0000
    ensures Need(BootRam(b, ram), b.pml4, vas) < n
  {
    BootTop(b, ram, pool, frames);
    forall va | va in vas ensures PathOf(va).i4 == 0 && PathOf(va).i3 == 0 && PathOf(va).i2 < n { LowPath(va); }
    hide Pdps, Pds, Pts, BootRam, Laid, PathOf;
    SubsetCount({0} + Top9(vas), {0});
    SubsetCount({(0, 0)} + Top18(vas), {(0, 0)});
    SubsetCount({(0, 0, 0)} + Top27(vas), Slots(n));
    SlotsCount(n);
  }

  /** With no more than 128 MB behind the first 2 MB, vmm_init never depends on what memory
      holds: all its tables come from the pool, and it succeeds exactly when 1024 frames are
      free. */
  lemma BootExact(b: BootTables, ram: Ram, pool: nat, frames: Frames)
    requires Laid(b, pool, frames) && Sound(BootVm(b, ram, pool, frames))
    requires frames.base + frames.total * 4096 <= 65 * 0x20_0000
    ensures Init(BootVm(b, ram, pool, frames)).Some? <==> 1024 <= |frames.free|
  {
    hide Shape, Clean, Spare, BothVas, IdentityVas, HeapVas, Need, Init, BootRam, BootPlace, Sound, Laid;
    var vm, end := BootVm(b, ram, pool, frames), frames.base + frames.total * 4096;
    BootShape(b, ram, pool, frames);
    BootVas(frames, end, HB.HEAP_START);
    BootNeed(b, ram, pool, frames, BothVas(frames, end, HB.HEAP_START), 65);
    FullPool(vm, BothVas(frames, end, HB.HEAP_START));
    InitExact(vm, BootPlace(b));
  }

  /** A pool nobody has used yet outlasts 64 tables. */
  lemma FullPool(vm: Vm, vas: seq<nat>)
    requires vm.poolUsed == 0 && Need(vm.ram, vm.kernel, vas) < 65
    ensures Spare(vm, vas) >= |vm.frames.free|
    ensures forall n | n >= |vm.frames.free| :: Clean(vm, n)
  {
    hide Need;
  }

  lemma BootVas(frames: Frames, end: nat, va: nat)
    requires end <= 65 * 0x20_0000
    ensures forall x | x in BothVas(frames, end, va) :: x < 65 * 0x20_0000
  {
    forall x | x in BothVas(frames, end, va) ensures x < 65 * 0x20_0000 {
      if x in IdentityVas(frames.base, end) { IdentityBelow(frames.base, end, x); } else { HeapBelow(va, x); }
    }
  }

  /** So the kernel boots on a region of up to 128 MB exactly when it is at least 4 MB large. */
  lemma RegionBoots(b: BootTables, ram: Ram, pool: nat, memBase: nat, memSize: nat)
    requires InMemory(memBase, memSize) && PageAlign(memBase) + memSize <= 65 * 0x20_0000
    requires Laid(b, pool, Initial(memBase, memSize))
    requires Sound(BootVm(b, ram, pool, Initial(memBase, memSize)))
    ensures Init(BootVm(b, ram, pool, Initial(memBase, memSize))).Some? <==> memSize >= 0x40_0000
  {
    var f := Initial(memBase, memSize);
    InitialIs(memBase, memSize);
    CountBelow(f.total);
    hide Laid, Sound, Init, BootRam, PagesBelow;
    BootExact(b, ram, pool, f);
  }
}
