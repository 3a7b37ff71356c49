/** Whole runs of vmm_map and vmm_unmap against a plain map from pages to frames. */
module AddressSpaceRuns {
  import opened Options
  import opened Bits
  import opened Entries
  import opened PageTables
  import opened AddressSpaces

  datatype Call =
    | MapCall(root: nat, va: nat, phys: nat, flags: nat)
    | UnmapCall(root: nat, va: nat)

  function Do(vm: Vm, c: Call): Option<Vm> {
    match c
    case MapCall(r, va, phys, flags) => Map(vm, r, va, phys, flags)
    case UnmapCall(r, va) => Some(Unmap(vm, r, va))
  }

  /** None when some call on the way panics. */
  function Run(vm: Vm, calls: seq<Call>): Option<Vm>
    decreases calls
  {
    if calls == [] then Some(vm)
    else
      match Do(vm, calls[0])
      case None => None
      case Some(vm1) => Run(vm1, calls[1..])
  }

  /** The last-level entry a call leaves behind. */
  function Leaf(c: Call): nat {
    match c
    case MapCall(_, _, phys, flags) => LeafEntry(phys, flags)
    case UnmapCall(_, _) => 0
  }

  ghost predicate RootsIn(place: Places, calls: seq<Call>) {
    forall c | c in calls :: IsRoot(place, c.root)
  }

  // --- one call ---------------------------------------------------------------------------

  /** Roots that share a top-level entry go on sharing it; the others never start to. */
  ghost predicate SharingKept(vm: Vm, vm1: Vm, place: Places) {
    forall q, s, i: nat | IsRoot(place, q) && IsRoot(place, s) && i < ENTRIES ::
      Shares(vm1.ram, q, s, i) <==> Shares(vm.ram, q, s, i)
  }

  lemma RootsKeepSharing(vm: Vm, vm1: Vm, place: Places, r: nat, i4: nat)
    requires Shape(vm, place) && IsRoot(place, r) && i4 < ENTRIES && RootsKept(vm, vm1, place, r, i4)
    requires RootGrows(vm, vm1, place, r, i4)
    ensures SharingKept(vm, vm1, place)
  {
    forall q, s, i: nat | IsRoot(place, q) && IsRoot(place, s) && i < ENTRIES
      ensures Shares(vm1.ram, q, s, i) <==> Shares(vm.ram, q, s, i)
    {
      assert LinkOk(vm, place, q, i) && LinkOk(vm, place, s, i);
      if q != r || i != i4 || Next(vm.ram, q, i).Some? { assert Read(vm1.ram, q)[i] == Read(vm.ram, q)[i]; }
      if s != r || i != i4 || Next(vm.ram, s, i).Some? { assert Read(vm1.ram, s)[i] == Read(vm.ram, s)[i]; }
    }
  }

  /** Everything later steps need to know about one call. */
  ghost predicate Stepped(vm: Vm, place: Places, c: Call, vm1: Vm, place1: Places) {
    && Shape(vm1, place1) && vm1.kernel == vm.kernel
    && (forall s | s in place :: s in place1 && place1[s] == place[s])
    && Changed(vm, vm1, place, c.root, c.va, Leaf(c))
    && RootsKept(vm, vm1, place, c.root, PathOf(c.va).i4)
    && RootGrows(vm, vm1, place, c.root, PathOf(c.va).i4)
  }

  lemma CallStep(vm: Vm, place: Places, c: Call, floor: int) returns (place1: Places)
    requires Shape(vm, place) && IsRoot(place, c.root) && Clean(vm, floor) && Do(vm, c).Some?
    requires floor <= Supply(Do(vm, c).value)
    ensures Stepped(vm, place, c, Do(vm, c).value, place1) && Clean(Do(vm, c).value, floor)
  {
    match c {
      case MapCall(r, va, phys, flags) =>
        place1 := MapStep(vm, place, r, va, phys, flags, floor);
      case UnmapCall(r, va) =>
        place1 := place;
        UnmapStep(vm, place, r, va);
        UnmapSupply(vm, place, r, va, floor);
    }
  }

  lemma UnmapSupply(vm: Vm, place: Places, r: nat, va: nat, floor: int)
    requires Shape(vm, place) && IsRoot(place, r) && Clean(vm, floor)
    ensures Clean(Unmap(vm, r, va), floor) && Unmap(vm, r, va).kernel == vm.kernel
  {
    var p := PathOf(va);
    Walk(vm, place, r, p);
    if Pt(vm.ram, r, p).Some? {
      var pt := Pt(vm.ram, r, p).value;
      assert TableOk(vm, place, pt);
      WriteKeepsClean(vm, pt, p.i1, 0, floor);
    }
  }

  // --- runs ----------------------------------------------------------------------------------

  /** A page's frame, and the flags it was mapped with. */
  datatype Mapping = Mapping(frame: nat, flags: nat)

  /** An address space as a plain map from page numbers. */
  type Pages = map<nat, Mapping>

  /** What one call does to the pages of a space that shares it. */
  function Apply(m: Pages, c: Call): Pages {
    match c
    case MapCall(_, va, phys, flags) => m[PageNumber(va) := Mapping(Or(Ptr(phys), Ptr(flags)), flags)]
    case UnmapCall(_, va) => m - {PageNumber(va)}
  }

  /** The calls of a run, applied in order to the space of root q; sharing is read off the
      root tables as they were at the start. */
  function Replay(ram: Ram, q: nat, calls: seq<Call>, m: Pages): Pages {
    if calls == [] then m
    else
      var c := calls[0];
      var m1 := if Shares(ram, q, c.root, PathOf(c.va).i4) then Apply(m, c) else m;
      Replay(ram, q, calls[1..], m1)
  }

  /** Root q maps exactly the pages of m, to the frames and with the rights m gives them. */
  ghost predicate Agrees(ram: Ram, q: nat, m: Pages) {
    forall va: nat :: PageAgrees(ram, q, m, va)
  }

  ghost predicate PageAgrees(ram: Ram, q: nat, m: Pages, va: nat) {
    var e := Entry(ram, q, PathOf(va));
    if PageNumber(va) in m
    then Present(e) && Ptr(e) == m[PageNumber(va)].frame && Rights(e, m[PageNumber(va)].flags)
    else !Present(e)
  }

  lemma ApplyStep(vm: Vm, vm1: Vm, place: Places, c: Call, q: nat, m: Pages)
    requires Changed(vm, vm1, place, c.root, c.va, Leaf(c)) && IsRoot(place, q) && Agrees(vm.ram, q, m)
    ensures Agrees(vm1.ram, q, if Shares(vm.ram, q, c.root, PathOf(c.va).i4) then Apply(m, c) else m)
  {
    PresentValues();
    if c.MapCall? {
      LeafFacts(c.phys, c.flags);
      LeafBits(c.phys, c.flags);
    }
    hide Rights;
    var m1 := if Shares(vm.ram, q, c.root, PathOf(c.va).i4) then Apply(m, c) else m;
    forall va: nat ensures PageAgrees(vm1.ram, q, m1, va) {
      assert PageAgrees(vm.ram, q, m, va);
      SamePath(va, c.va);
    }
  }

  lemma {:induction false} ReplayKept(vm: Vm, vm1: Vm, place: Places, q: nat, calls: seq<Call>, m: Pages)
    requires SharingKept(vm, vm1, place) && IsRoot(place, q) && RootsIn(place, calls)
    ensures Replay(vm1.ram, q, calls, m) == Replay(vm.ram, q, calls, m)
  {
    if calls != [] {
      var c := calls[0];
      assert IsRoot(place, c.root);
      assert Shares(vm1.ram, q, c.root, PathOf(c.va).i4) <==> Shares(vm.ram, q, c.root, PathOf(c.va).i4);
      ReplayKept(vm, vm1, place, q, calls[1..], if Shares(vm.ram, q, c.root, PathOf(c.va).i4) then Apply(m, c) else m);
    }
  }

  /** The forest after a run contains the one before it, with the same sharing. */
  ghost predicate Evolved(vm: Vm, place: Places, vm1: Vm, place1: Places) {
    && Shape(vm1, place1) && vm1.kernel == vm.kernel
    && (forall s | s in place :: s in place1 && place1[s] == place[s])
    && SharingKept(vm, vm1, place)
  }

  /** A run that does not panic, starting with a supply that is clean for as long as it lasts. */
  ghost predicate Runs(vm: Vm, place: Places, calls: seq<Call>) {
    && Shape(vm, place) && RootsIn(place, calls) && Run(vm, calls).Some?
    && Clean(vm, Supply(Run(vm, calls).value))
  }

  lemma DoSupply(vm: Vm, c: Call)
    requires Sound(vm) && Do(vm, c).Some?
    ensures Sound(Do(vm, c).value) && Supply(Do(vm, c).value) <= Supply(vm)
  {
    match c {
      case MapCall(r, va, phys, flags) => MapSupply(vm, r, va, phys, flags);
      case UnmapCall(r, va) =>
    }
  }

  lemma {:induction false} RunSupply(vm: Vm, calls: seq<Call>)
    requires Sound(vm) && Run(vm, calls).Some?
    ensures Supply(Run(vm, calls).value) <= Supply(vm)
    decreases calls
  {
    if calls != [] {
      DoSupply(vm, calls[0]);
      RunSupply(Do(vm, calls[0]).value, calls[1..]);
    }
  }

  lemma OneCall(vm: Vm, place: Places, calls: seq<Call>) returns (mid: Places)
    requires Runs(vm, place, calls) && calls != []
    ensures var vm1 := Do(vm, calls[0]).value;
      && Stepped(vm, place, calls[0], vm1, mid) && Evolved(vm, place, vm1, mid)
      && Runs(vm1, mid, calls[1..]) && IsRoot(place, calls[0].root)
  {
    var c := calls[0];
    assert IsRoot(place, c.root);
    DoSupply(vm, c);
    RunSupply(Do(vm, c).value, calls[1..]);
    mid := CallStep(vm, place, c, Supply(Run(vm, calls).value));
    RootsKeepSharing(vm, Do(vm, c).value, place, c.root, PathOf(c.va).i4);
    forall d | d in calls[1..] ensures IsRoot(mid, d.root) { assert IsRoot(place, d.root); }
  }

  /** Over any run of calls on any roots the tables remain a forest: no table moves, and
      roots share exactly what they shared before. */
  lemma {:induction false} RunEvolves(vm: Vm, place: Places, calls: seq<Call>) returns (place1: Places)
    requires Runs(vm, place, calls)
    ensures Evolved(vm, place, Run(vm, calls).value, place1)
    decreases calls
  {
    if calls == [] {
      place1 := place;
    } else {
      var mid := OneCall(vm, place, calls);
      var vm1 := Do(vm, calls[0]).value;
      place1 := RunEvolves(vm1, mid, calls[1..]);
      SharingChain(vm, vm1, Run(vm, calls).value, place, mid);
    }
  }

  /** After any run of calls on any roots, every root maps exactly what replaying the run
      on a plain map says, frames and rights. */
  lemma {:induction false} RunRefines(vm: Vm, place: Places, calls: seq<Call>, q: nat, m: Pages)
    requires Runs(vm, place, calls)
    requires IsRoot(place, q) && Agrees(vm.ram, q, m)
    ensures Agrees(Run(vm, calls).value.ram, q, Replay(vm.ram, q, calls, m))
    decreases calls
  {
    if calls != [] {
      var c := calls[0];
      var mid := OneCall(vm, place, calls);
      var vm1 := Do(vm, c).value;
      ApplyStep(vm, vm1, place, c, q, m);
      var m1 := if Shares(vm.ram, q, c.root, PathOf(c.va).i4) then Apply(m, c) else m;
      RunRefines(vm1, mid, calls[1..], q, m1);
      forall d | d in calls[1..] ensures IsRoot(place, d.root) {}
      ReplayKept(vm, vm1, place, q, calls[1..], m1);
    }
  }

  lemma SharingChain(vm: Vm, vm1: Vm, vm2: Vm, place: Places, mid: Places)
    requires SharingKept(vm, vm1, place) && SharingKept(vm1, vm2, mid)
    requires forall s | s in place :: s in mid && mid[s] == place[s]
    ensures SharingKept(vm, vm2, place)
  {
    forall q, s, i: nat | IsRoot(place, q) && IsRoot(place, s) && i < ENTRIES
      ensures Shares(vm2.ram, q, s, i) <==> Shares(vm.ram, q, s, i)
    {
      assert IsRoot(mid, q) && IsRoot(mid, s);
      assert Shares(vm1.ram, q, s, i) <==> Shares(vm.ram, q, s, i);
    }
  }
}
