/** What the callers of the virtual memory manager rely on. */
module VmmTheorems {
  import opened Bits
  import opened Entries
  import opened PageTables
  import opened AddressSpaces
  import opened AddressSpaceRuns

  // --- one root is one map -----------------------------------------------------------------

  /** The answer of a plain map from page numbers to frames. */
  function Answer(m: Pages, va: nat): nat {
    if PageNumber(va) in m then Or(m[PageNumber(va)].frame, Offset(va)) else 0
  }

  function ReplayAll(calls: seq<Call>, m: Pages): Pages
    decreases calls
  {
    if calls == [] then m else ReplayAll(calls[1..], Apply(m, calls[0]))
  }

  lemma {:induction false} OwnReplay(ram: Ram, r: nat, calls: seq<Call>, m: Pages)
    requires forall c | c in calls :: c.root == r
    ensures Replay(ram, r, calls, m) == ReplayAll(calls, m)
    decreases calls
  {
    if calls != [] {
      assert calls[0] in calls;
      OwnReplay(ram, r, calls[1..], Apply(m, calls[0]));
    }
  }

  /** vmm_resolve after any run of vmm_map and vmm_unmap on a root is lookup in a map that
      went through the same run. */
  lemma ResolveIsLookup(vm: Vm, place: Places, r: nat, calls: seq<Call>, m: Pages, va: nat)
    requires Runs(vm, place, calls) && IsRoot(place, r) && (forall c | c in calls :: c.root == r)
    requires Agrees(vm.ram, r, m)
    ensures Resolve(Run(vm, calls).value.ram, r, va) == Answer(ReplayAll(calls, m), va)
  {
    RunRefines(vm, place, calls, r, m);
    OwnReplay(vm.ram, r, calls, m);
    assert PageAgrees(Run(vm, calls).value.ram, r, ReplayAll(calls, m), va);
  }

  /** A root without present entries maps nothing. */
  lemma EmptyRoot(ram: Ram, r: nat)
    requires forall i | 0 <= i < ENTRIES :: !Present(Read(ram, r)[i])
    ensures Agrees(ram, r, map[])
  {
    PresentValues();
    forall va: nat ensures PageAgrees(ram, r, map[], va) {}
  }

  /** From a root without entries, vmm_resolve is lookup in the map of the calls alone. */
  lemma FreshRootIsLookup(vm: Vm, place: Places, r: nat, calls: seq<Call>, va: nat)
    requires Runs(vm, place, calls) && IsRoot(place, r) && (forall c | c in calls :: c.root == r)
    requires forall i | 0 <= i < ENTRIES :: !Present(Read(vm.ram, r)[i])
    ensures Resolve(Run(vm, calls).value.ram, r, va) == Answer(ReplayAll(calls, map[]), va)
  {
    EmptyRoot(vm.ram, r);
    ResolveIsLookup(vm, place, r, calls, map[], va);
  }

  lemma {:induction false} OrAbsorbs(a: nat, b: nat)
    ensures Or(a, b) == a <==> AndNot(b, a) == 0
  {
    if b != 0 {
      OrAbsorbs(a / 2, b / 2);
      OrHalves(a, b);
    }
  }

  /** A page mapped with stray address bits in its flags resolves to the requested frame
      exactly when the frame's address already has those bits. */
  lemma FlagsMustLeaveAddress(vm: Vm, place: Places, r: nat, va: nat, phys: nat, flags: nat)
    requires Shape(vm, place) && IsRoot(place, r) && Map(vm, r, va, phys, flags).Some?
    requires Clean(vm, Supply(Map(vm, r, va, phys, flags).value))
    ensures var vm1 := Map(vm, r, va, phys, flags).value;
      && Resolve(vm1.ram, r, va) == Or(Or(Ptr(phys), Ptr(flags)), Offset(va))
      && (Resolve(vm1.ram, r, va) == Or(Ptr(phys), Offset(va)) <==> AndNot(Ptr(flags), Ptr(phys)) == 0)
  {
    var place1 := MapStep(vm, place, r, va, phys, flags, Supply(Map(vm, r, va, phys, flags).value));
    LeafFacts(phys, flags);
    OrAbsorbs(Ptr(phys), Ptr(flags));
    PtrIsPage(LeafEntry(phys, flags));
    PtrIsPage(phys);
    OffsetIs(va);
    PageOrOffset(Ptr(LeafEntry(phys, flags)), Offset(va));
    PageOrOffset(Ptr(phys), Offset(va));
  }

  /** Unmapping a page that was not mapped before the map restores every answer of every root. */
  lemma MapThenUnmap(vm: Vm, place: Places, r: nat, va: nat, phys: nat, flags: nat, q: nat, vb: nat)
    requires Shape(vm, place) && IsRoot(place, r) && Map(vm, r, va, phys, flags).Some?
    requires Clean(vm, Supply(Map(vm, r, va, phys, flags).value))
    requires !Present(Entry(vm.ram, r, PathOf(va))) && IsRoot(place, q)
    ensures Resolve(Unmap(Map(vm, r, va, phys, flags).value, r, va).ram, q, vb) == Resolve(vm.ram, q, vb)
  {
    PresentValues();
    hide Present;
    var vm1 := Map(vm, r, va, phys, flags).value;
    var c := MapCall(r, va, phys, flags);
    var place1 := CallStep(vm, place, c, Supply(vm1));
    RootsKeepSharing(vm, vm1, place, r, PathOf(va).i4);
    UnmapStep(vm1, place1, r, va);
    assert Shares(vm1.ram, q, r, PathOf(vb).i4) <==> Shares(vm.ram, q, r, PathOf(vb).i4);
    assert PathOf(vb) == PathOf(va) && Shares(vm.ram, q, r, PathOf(vb).i4) ==>
        Entry(vm.ram, q, PathOf(vb)) == Entry(vm.ram, r, PathOf(va));
  }

  // --- several roots ------------------------------------------------------------------------

  /** Below entry 256 no two roots share a table. */
  lemma LowerHalfPrivate(vm: Vm, place: Places, q: nat, r: nat, i: nat)
    requires Shape(vm, place) && IsRoot(place, q) && IsRoot(place, r) && q != r && i < 256
    ensures !Shares(vm.ram, q, r, i)
  {
    assert LinkOk(vm, place, q, i) && LinkOk(vm, place, r, i);
  }

  lemma {:induction false} UnsharedKept(vm: Vm, place: Places, calls: seq<Call>, q: nat, p: Path)
    requires Runs(vm, place, calls)
    requires IsRoot(place, q) && ValidPath(p)
    requires forall c | c in calls :: !Shares(vm.ram, q, c.root, PathOf(c.va).i4)
    ensures Entry(Run(vm, calls).value.ram, q, p) == Entry(vm.ram, q, p)
    decreases calls
  {
    if calls != [] {
      var mid := OneCall(vm, place, calls);
      var vm1 := Do(vm, calls[0]).value;
      assert calls[0] in calls;
      forall c | c in calls[1..] ensures !Shares(vm1.ram, q, c.root, PathOf(c.va).i4) {
        assert c in calls && IsRoot(place, c.root);
      }
      UnsharedKept(vm1, mid, calls[1..], q, p);
    }
  }

  /** Address-space isolation: a run of calls in the lower half of other roots leaves every
      answer of root q, the kernel's root included, as it was. */
  lemma Isolation(vm: Vm, place: Places, calls: seq<Call>, q: nat, va: nat)
    requires Runs(vm, place, calls)
    requires IsRoot(place, q)
    requires forall c | c in calls :: c.root != q && Idx4(c.va) < 256
    ensures Resolve(Run(vm, calls).value.ram, q, va) == Resolve(vm.ram, q, va)
  {
    forall c | c in calls ensures !Shares(vm.ram, q, c.root, PathOf(c.va).i4) {
      LowerHalfPrivate(vm, place, q, c.root, PathOf(c.va).i4);
    }
    UnsharedKept(vm, place, calls, q, PathOf(va));
  }

  lemma {:induction false} PresentKept(vm: Vm, place: Places, calls: seq<Call>, q: nat, i: nat)
    requires Runs(vm, place, calls)
    requires IsRoot(place, q) && i < ENTRIES && Present(Read(vm.ram, q)[i])
    ensures Read(Run(vm, calls).value.ram, q)[i] == Read(vm.ram, q)[i]
    ensures Run(vm, calls).value.kernel == vm.kernel
    decreases calls
  {
    if calls != [] {
      var mid := OneCall(vm, place, calls);
      var vm1 := Do(vm, calls[0]).value;
      assert Read(vm1.ram, q)[i] == Read(vm.ram, q)[i];
      PresentKept(vm1, mid, calls[1..], q, i);
    }
  }

  /** A top-level entry that a root took over from the kernel stays the kernel's through
      every run on any roots, so both see the same answers below it. */
  lemma KernelHalfShared(vm: Vm, place: Places, calls: seq<Call>, q: nat, va: nat)
    requires Runs(vm, place, calls)
    requires IsRoot(place, q)
    requires Present(Read(vm.ram, q)[PathOf(va).i4])
    requires Read(vm.ram, q)[PathOf(va).i4] == Read(vm.ram, vm.kernel)[PathOf(va).i4]
    ensures var vm1 := Run(vm, calls).value; var i := PathOf(va).i4;
      && Read(vm1.ram, q)[i] == Read(vm1.ram, vm1.kernel)[i] == Read(vm.ram, q)[i]
      && Resolve(vm1.ram, q, va) == Resolve(vm1.ram, vm1.kernel, va)
  {
    PresentKept(vm, place, calls, q, PathOf(va).i4);
    PresentKept(vm, place, calls, vm.kernel, PathOf(va).i4);
  }
}
