/** Who may touch a page: the processor lets user mode through only when every level allows it. */
module Permissions {
  import opened Options
  import opened Bits
  import opened Entries
  import opened PageTables
  import opened AddressSpaces
  import opened AddressSpaceRuns
  import opened VmmTheorems
  import opened TableEconomy
  import opened PageFrames
  import opened BootMapping

  const USER_BIT: nat := 2

  /** The entry that path p meets at a depth above the last level, 0 when none is present. */
  function Upper(ram: Ram, r: nat, p: Path, depth: nat): nat
    requires ValidPath(p) && depth < 3
  {
    match Reached(ram, r, p, depth)
    case None => 0
    case Some(t) => Seen(Read(ram, t)[IndexAt(p, depth)])
  }

  /** Two paths that pass through the same entry at a depth. */
  predicate SamePrefix(p: Path, o: Path, depth: nat) {
    p.i4 == o.i4 && (depth >= 1 ==> p.i3 == o.i3) && (depth >= 2 ==> p.i2 == o.i2)
  }

  /** What a mapping along path o makes of the upper entries: those that were present stay as
      they are, rights included; a missing one on the path gets the rights of this mapping. */
  ghost predicate UpperAfter(was: nat, now: nat, on: bool, flags: nat) {
    if Present(was) then now == was
    else if on then Present(now) && LinkRights(now, flags)
    else now == 0
  }

  // --- one level ------------------------------------------------------------------------------

  lemma ReachedTable(vm: Vm, place: Places, r: nat, p: Path, e: nat)
    requires Shape(vm, place) && IsRoot(place, r) && ValidPath(p) && e < 3
    ensures var s := Reached(vm.ram, r, p, e);
      s.Some? ==> s.value in place && !place[s.value].PtAt? && IndexAt(p, e) < ENTRIES
  {
    Walk(vm, place, r, p);
  }

  /** Walks that stand at a table before a blank one is hung into the forest still do; a walk
      that did not get that far can at most arrive at the blank one. */
  lemma ReachedHung(vm: Vm, place: Places, ram1: Ram, t: nat, i: nat, n: nat, r: nat, p: Path, e: nat)
    requires Shape(vm, place) && i < ENTRIES && Hung(vm.ram, ram1, t, i, n) && n !in place
    requires t in place && !place[t].PtAt? && IsRoot(place, r) && ValidPath(p) && e < 3
    ensures var s := Reached(vm.ram, r, p, e);
      if s.Some? then Reached(ram1, r, p, e) == s else Reached(ram1, r, p, e) in {None, Some(n)}
  {
    Walk(vm, place, r, p);
    HungNext(vm.ram, ram1, t, i, n, r, p.i4);
    HungEntry(vm, place, ram1, t, i, n, r, p);
    if Pdp(vm.ram, r, p).Some? { HungNext(vm.ram, ram1, t, i, n, Pdp(vm.ram, r, p).value, p.i3); }
    hide Shape, Entry;
    PresentValues();
  }

  /** Two walks from one root meet the same entry exactly when they share the prefix. */
  lemma ReachedPart(vm: Vm, place: Places, r: nat, o: Path, d: nat, p: Path, e: nat)
    requires Shape(vm, place) && IsRoot(place, r) && ValidPath(o) && ValidPath(p) && d < 3 && e < 3
    requires Reached(vm.ram, r, o, d).Some?
    ensures Reached(vm.ram, r, p, e) == Reached(vm.ram, r, o, d) && IndexAt(p, e) == IndexAt(o, d)
            <==> d == e && SamePrefix(p, o, e)
  {
    PathsPart(vm, place, r, o, p);
    PathsPart(vm, place, r, p, o);
    hide Shape, Pdp, Pd;
  }

  lemma HungUpper(vm: Vm, place: Places, ram1: Ram, t: nat, i: nat, n: nat, r: nat, p: Path, e: nat)
    requires Shape(vm, place) && i < ENTRIES && Hung(vm.ram, ram1, t, i, n) && n !in place
    requires t in place && !place[t].PtAt? && IsRoot(place, r) && ValidPath(p) && e < 3
    ensures Upper(ram1, r, p, e) ==
            if Reached(vm.ram, r, p, e) == Some(t) && IndexAt(p, e) == i then Read(ram1, t)[i]
            else Upper(vm.ram, r, p, e)
  {
    ReachedTable(vm, place, r, p, e);
    ReachedHung(vm, place, ram1, t, i, n, r, p, e);
    hide Shape, Reached;
    var s, j := Reached(vm.ram, r, p, e), IndexAt(p, e);
    if s.Some? { HungNext(vm.ram, ram1, t, i, n, s.value, j); }
    HungNext(vm.ram, ram1, t, i, n, t, i);
  }

  /** Level at depth d of path o, as the walk along p sees it at depth e. */
  lemma LevelUpper(vm: Vm, place: Places, r: nat, o: Path, d: nat, flags: nat, floor: int, p: Path, e: nat)
    requires Shape(vm, place) && IsRoot(place, r) && ValidPath(o) && d < 3 && Clean(vm, floor)
    requires Reached(vm.ram, r, o, d).Some?
    requires Level(vm, Reached(vm.ram, r, o, d).value, IndexAt(o, d), flags).Some?
    requires floor <= Supply(Level(vm, Reached(vm.ram, r, o, d).value, IndexAt(o, d), flags).value.0)
    requires ValidPath(p) && e < 3
    ensures var vm1 := Level(vm, Reached(vm.ram, r, o, d).value, IndexAt(o, d), flags).value.0;
      UpperAfter(Upper(vm.ram, r, p, e), Upper(vm1.ram, r, p, e), d == e && SamePrefix(p, o, e), flags)
  {
    var t, i := Reached(vm.ram, r, o, d).value, IndexAt(o, d);
    var (vm1, n) := Level(vm, t, i, flags).value;
    ReachedTable(vm, place, r, o, d);
    ReachedPart(vm, place, r, o, d, p, e);
    if Present(Read(vm.ram, t)[i]) {
      UpperStays(vm, place, r, p, e, t, i, d == e && SamePrefix(p, o, e), flags);
    } else {
      SupplyStep(vm, t, i, flags);
      NewLevel(vm, place, t, i, flags, floor);
      NewEntry(vm, place, t, i, flags);
      HungUpper(vm, place, vm1.ram, t, i, n, r, p, e);
      hide Shape, Reached, Level, Clean, Hung, LinkRights, SamePrefix;
      PresentValues();
    }
  }

  lemma UpperStays(vm: Vm, place: Places, r: nat, p: Path, e: nat, t: nat, i: nat, on: bool, flags: nat)
    requires ValidPath(p) && e < 3 && i < ENTRIES && Present(Read(vm.ram, t)[i])
    requires Reached(vm.ram, r, p, e) == Some(t) && IndexAt(p, e) == i <==> on
    ensures UpperAfter(Upper(vm.ram, r, p, e), Upper(vm.ram, r, p, e), on, flags)
  {
    PresentValues();
  }

  /** The entry that Level writes. */
  lemma NewEntry(vm: Vm, place: Places, t: nat, i: nat, flags: nat)
    requires Shape(vm, place) && t in place && i < ENTRIES && !Present(Read(vm.ram, t)[i])
    requires Level(vm, t, i, flags).Some?
    ensures var e := Read(Level(vm, t, i, flags).value.0.ram, t)[i]; Present(e) && LinkRights(e, flags)
  {
    AllocFresh(vm);
    var (vm0, n) := AllocTable(vm).value;
    LinkFacts(n, flags);
    LinkBits(n, flags);
  }

  // --- one call -------------------------------------------------------------------------------

  lemma LeafUpper(vm: Vm, place: Places, pt: nat, k: nat, x: nat, r: nat, p: Path, e: nat)
    requires Shape(vm, place) && pt in place && place[pt].PtAt? && k < ENTRIES
    requires IsRoot(place, r) && ValidPath(p) && e < 3
    ensures Upper(Write(vm.ram, pt, k, x), r, p, e) == Upper(vm.ram, r, p, e)
  {
    LeafWalk(vm, place, pt, k, x, r, p);
    ReachedTable(vm, place, r, p, e);
    hide Shape, Pdp, Pd, Pt;
  }

  lemma UpperChain(u0: nat, u1: nat, u2: nat, u3: nat, on: bool, e: nat, flags: nat)
    requires UpperAfter(u0, u1, e == 0 && on, flags) && UpperAfter(u1, u2, e == 1 && on, flags)
    requires UpperAfter(u2, u3, e == 2 && on, flags) && e < 3
    ensures UpperAfter(u0, u3, on, flags)
  {
    PresentValues();
  }

  /** vmm_map and the levels above the page: entries that were present keep their rights, even
      where this mapping asks for more; missing ones on the path get the rights it asks for. */
  lemma MapUpper(vm: Vm, place: Places, r: nat, va: nat, phys: nat, flags: nat, floor: int, p: Path, e: nat)
    requires Shape(vm, place) && IsRoot(place, r) && Clean(vm, floor) && Map(vm, r, va, phys, flags).Some?
    requires floor <= Supply(Map(vm, r, va, phys, flags).value) && ValidPath(p) && e < 3
    ensures var vm1 := Map(vm, r, va, phys, flags).value;
      UpperAfter(Upper(vm.ram, r, p, e), Upper(vm1.ram, r, p, e), SamePrefix(p, PathOf(va), e), flags)
  {
    hide Upper, UpperAfter, SamePrefix;
    var o := PathOf(va);
    MapIsLevels(vm, r, va, phys, flags);
    var vm1, place1, vm2, place2, place3 := LevelStates(vm, place, r, va, flags, floor);
    var (vm3, pt) := Levels(vm, r, va, flags).value;
    LevelUpper(vm, place, r, o, 0, flags, floor, p, e);
    LevelUpper(vm1, place1, r, o, 1, flags, floor, p, e);
    LevelUpper(vm2, place2, r, o, 2, flags, floor, p, e);
    LeafUpper(vm3, place3, pt, o.i1, LeafEntry(phys, flags), r, p, e);
    UpperChain(Upper(vm.ram, r, p, e), Upper(vm1.ram, r, p, e), Upper(vm2.ram, r, p, e), Upper(vm3.ram, r, p, e),
               SamePrefix(p, o, e), e, flags);
  }

  lemma UnmapUpper(vm: Vm, place: Places, r: nat, va: nat, p: Path, e: nat)
    requires Shape(vm, place) && IsRoot(place, r) && ValidPath(p) && e < 3
    ensures Upper(Unmap(vm, r, va).ram, r, p, e) == Upper(vm.ram, r, p, e)
  {
    Walk(vm, place, r, PathOf(va));
    if Pt(vm.ram, r, PathOf(va)).Some? {
      LeafUpper(vm, place, Pt(vm.ram, r, PathOf(va)).value, PathOf(va).i1, 0, r, p, e);
    }
  }

  // --- runs -----------------------------------------------------------------------------------

  /** The flags of the first mapping of a run that passes through the entry of path p at
      depth e. */
  function FirstFlags(calls: seq<Call>, p: Path, e: nat): Option<nat>
    decreases calls
  {
    if calls == [] then None
    else if calls[0].MapCall? && SamePrefix(p, PathOf(calls[0].va), e) then Some(calls[0].flags)
    else FirstFlags(calls[1..], p, e)
  }

  /** What a whole run makes of an upper entry: the first mapping through it decides. */
  ghost predicate UpperOfRun(was: nat, now: nat, calls: seq<Call>, p: Path, e: nat) {
    var first := FirstFlags(calls, p, e);
    UpperAfter(was, now, first.Some?, if first.Some? then first.value else 0)
  }

  lemma CallUpper(vm: Vm, place: Places, c: Call, floor: int, p: Path, e: nat)
    requires Shape(vm, place) && IsRoot(place, c.root) && Clean(vm, floor) && Do(vm, c).Some?
    requires floor <= Supply(Do(vm, c).value) && ValidPath(p) && e < 3
    ensures UpperAfter(Upper(vm.ram, c.root, p, e), Upper(Do(vm, c).value.ram, c.root, p, e),
                       c.MapCall? && SamePrefix(p, PathOf(c.va), e), if c.MapCall? then c.flags else 0)
  {
    PresentValues();
    match c {
      case MapCall(r, va, phys, flags) => MapUpper(vm, place, r, va, phys, flags, floor, p, e);
      case UnmapCall(r, va) =>
        UnmapUpper(vm, place, r, va, p, e);
        UpperSeen(vm.ram, r, p, e);
    }
  }

  lemma UpperSeen(ram: Ram, r: nat, p: Path, e: nat)
    requires ValidPath(p) && e < 3
    ensures Present(Upper(ram, r, p, e)) || Upper(ram, r, p, e) == 0
  {
  }

  lemma RunUpperStep(was: nat, mid: nat, now: nat, calls: seq<Call>, p: Path, e: nat)
    requires calls != [] && UpperOfRun(mid, now, calls[1..], p, e)
    requires var c := calls[0];
      UpperAfter(was, mid, c.MapCall? && SamePrefix(p, PathOf(c.va), e), if c.MapCall? then c.flags else 0)
    ensures UpperOfRun(was, now, calls, p, e)
  {
    PresentValues();
  }

  /** Over any run on a root, an upper entry that was present keeps its rights, and one that was
      missing has those of the first mapping that passed through it, whatever came later. */
  lemma {:induction false} RunUpper(vm: Vm, place: Places, r: nat, calls: seq<Call>, p: Path, e: nat)
    requires Runs(vm, place, calls) && IsRoot(place, r) && (forall c | c in calls :: c.root == r)
    requires ValidPath(p) && e < 3
    ensures UpperOfRun(Upper(vm.ram, r, p, e), Upper(Run(vm, calls).value.ram, r, p, e), calls, p, e)
    decreases calls
  {
    UpperSeen(vm.ram, r, p, e);
    if calls != [] {
      var c := calls[0];
      assert c in calls;
      var mid := OneCall(vm, place, calls);
      var vm1 := Do(vm, c).value;
      DoSupply(vm, c);
      RunSupply(vm1, calls[1..]);
      CallUpper(vm, place, c, Supply(Run(vm, calls).value), p, e);
      RunUpper(vm1, mid, r, calls[1..], p, e);
      hide Upper, SamePrefix, Runs;
      RunUpperStep(Upper(vm.ram, r, p, e), Upper(vm1.ram, r, p, e), Upper(Run(vm, calls).value.ram, r, p, e),
                   calls, p, e);
    }
  }

  // --- user mode --------------------------------------------------------------------------------

  /** User mode may reach the page of va: present and open to it at all four levels. */
  ghost predicate UserMay(ram: Ram, r: nat, va: nat) {
    var p := PathOf(va);
    && (forall e: nat | e < 3 :: Bit(Upper(ram, r, p, e), USER_BIT))
    && Present(Entry(ram, r, p)) && Bit(Entry(ram, r, p), USER_BIT)
  }

  /** An upper entry lets user mode through after a run exactly when it did before, or was
      missing and the first mapping through it was for user mode. */
  predicate OpensTo(was: nat, calls: seq<Call>, p: Path, e: nat) {
    if Present(was) then Bit(was, USER_BIT)
    else FirstFlags(calls, p, e).Some? && Bit(FirstFlags(calls, p, e).value, USER_BIT)
  }

  lemma OpensExact(was: nat, now: nat, calls: seq<Call>, p: Path, e: nat)
    requires UpperOfRun(was, now, calls, p, e)
    ensures Bit(now, USER_BIT) <==> OpensTo(was, calls, p, e)
  {
    BitOfZero(USER_BIT);
    hide Present, FirstFlags;
  }

  /** Who may reach a page after any run on a root: user mode may exactly when the page is
      mapped, by its last mapping, for user mode, and each table above it was open to user mode
      before the run or was made by a mapping for user mode. */
  lemma RunUserMay(vm: Vm, place: Places, r: nat, calls: seq<Call>, m: Pages, va: nat)
    requires Runs(vm, place, calls) && IsRoot(place, r) && (forall c | c in calls :: c.root == r)
    requires Agrees(vm.ram, r, m)
    ensures UserMay(Run(vm, calls).value.ram, r, va) <==>
              var (m1, p) := (ReplayAll(calls, m), PathOf(va));
              && PageNumber(va) in m1 && Bit(m1[PageNumber(va)].flags, USER_BIT)
              && forall e: nat | e < 3 :: OpensTo(Upper(vm.ram, r, p, e), calls, p, e)
  {
    var p, ram1 := PathOf(va), Run(vm, calls).value.ram;
    forall e: nat | e < 3
      ensures Bit(Upper(ram1, r, p, e), USER_BIT) <==> OpensTo(Upper(vm.ram, r, p, e), calls, p, e)
    {
      RunUpper(vm, place, r, calls, p, e);
      OpensExact(Upper(vm.ram, r, p, e), Upper(ram1, r, p, e), calls, p, e);
    }
    RunRefines(vm, place, calls, r, m);
    OwnReplay(vm.ram, r, calls, m);
    assert PageAgrees(ram1, r, ReplayAll(calls, m), va);
    hide Upper, OpensTo, Runs, Run, Agrees;
  }

  /** A page mapped with the user flag is open to user mode exactly when no table that was
      already on its path is closed to it: vmm_map does not open tables that exist. */
  lemma UserMapExact(vm: Vm, place: Places, r: nat, va: nat, phys: nat, flags: nat)
    requires Shape(vm, place) && IsRoot(place, r) && Map(vm, r, va, phys, flags).Some?
    requires Clean(vm, Supply(Map(vm, r, va, phys, flags).value)) && Bit(flags, USER_BIT)
    ensures UserMay(Map(vm, r, va, phys, flags).value.ram, r, va) <==>
              var p := PathOf(va);
              forall e: nat | e < 3 && Present(Upper(vm.ram, r, p, e)) :: Bit(Upper(vm.ram, r, p, e), USER_BIT)
  {
    var (p, vm1) := (PathOf(va), Map(vm, r, va, phys, flags).value);
    var place1 := MapStep(vm, place, r, va, phys, flags, Supply(vm1));
    LeafFacts(phys, flags);
    LeafBits(phys, flags);
    assert Entry(vm1.ram, r, p) == LeafEntry(phys, flags);
    forall e: nat | e < 3
      ensures UpperAfter(Upper(vm.ram, r, p, e), Upper(vm1.ram, r, p, e), true, flags)
    {
      MapUpper(vm, place, r, va, phys, flags, Supply(vm1), p, e);
    }
    hide Upper, Map, Shape, Clean, LeafEntry, Present;
  }

  /** For one, below the boot tables, which are closed to user mode, no mapping helps. */
  lemma BootTablesClosed(b: BootTables, ram: Ram, pool: nat, frames: Frames, va: nat, phys: nat, flags: nat)
    requires Laid(b, pool, frames) && Sound(BootVm(b, ram, pool, frames)) && PathOf(va).i4 == 0
    requires Map(BootVm(b, ram, pool, frames), b.pml4, va, phys, flags).Some?
    requires var vm := BootVm(b, ram, pool, frames);
      Clean(vm, Supply(Map(vm, b.pml4, va, phys, flags).value))
    ensures !UserMay(Map(BootVm(b, ram, pool, frames), b.pml4, va, phys, flags).value.ram, b.pml4, va)
  {
    var vm, p := BootVm(b, ram, pool, frames), PathOf(va);
    BootShape(b, ram, pool, frames);
    MapUpper(vm, BootPlace(b), b.pml4, va, phys, flags, Supply(Map(vm, b.pml4, va, phys, flags).value), p, 0);
    KernelEntry(b.pdp);
    assert Upper(vm.ram, b.pml4, p, 0) == Or(b.pdp, KERNEL_FLAGS);
    assert !Bit(KERNEL_FLAGS, USER_BIT);
    hide Upper, Map, Shape, BootVm;
  }
}
