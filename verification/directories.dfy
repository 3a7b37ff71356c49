/** Making and releasing page directories: vmm_new_pagedir and vmm_free_pagedir. */
module Directories {
  import opened Options
  import opened Bits
  import opened Entries
  import opened PageFrames
  import opened PageTables
  import opened AddressSpaces

  // --- vmm_new_pagedir ----------------------------------------------------------------------

  /** A new directory sees the kernel's upper half and nothing else; no other root changes. */
  lemma NewDirStep(vm: Vm, place: Places, floor: int) returns (place1: Places)
    requires Shape(vm, place) && Clean(vm, floor) && floor < Supply(vm) && NewDir(vm).Some?
    ensures var (vm1, n) := NewDir(vm).value;
      && Shape(vm1, place1) && vm1.kernel == vm.kernel && Clean(vm1, floor) && Supply(vm1) == Supply(vm) - 1
      && n !in place && place1 == place[n := Root(n)]
      && (forall q, p | IsRoot(place, q) && ValidPath(p) :: Entry(vm1.ram, q, p) == Entry(vm.ram, q, p))
      && (forall p | ValidPath(p) ::
            Entry(vm1.ram, n, p) == if p.i4 >= 256 then Entry(vm.ram, vm.kernel, p) else 0)
      && (forall i | 0 <= i < ENTRIES ::
            Shares(vm1.ram, n, vm.kernel, i) <==> i >= 256 && Present(Read(vm.ram, vm.kernel)[i]))
  {
    hide And, Or, Blank, Clean;
    AllocTableFacts(vm, floor);
    PresentValues();
    var (vm0, n0) := AllocTable(vm).value;
    var (vm1, n) := NewDir(vm).value;
    NewTable(vm, place, vm.kernel);
    place1 := place[n := Root(n)];
    forall s | s in place ensures Read(vm1.ram, s) == Read(vm.ram, s) {}
    CleanBut(vm0, vm1, n, floor);
    NewDirShape(vm, place, vm1, n, Read(vm0.ram, n));
    NewDirEntries(vm, place, vm1, n, Read(vm0.ram, n));
  }

  /** What vmm_new_pagedir leaves in the new root, whatever the page held: above entry 255 the
      kernel's entries if there is a kernel root, elsewhere zeros in a page of the pool and the
      old contents in a frame. */
  lemma NewDirHalves(vm: Vm)
    requires Sound(vm) && NewDir(vm).Some? && !Available(vm, vm.kernel)
    ensures var (vm1, n) := NewDir(vm).value;
      && Available(vm, n)
      && (forall s | s != n :: Read(vm1.ram, s) == Read(vm.ram, s))
      && (forall i | 0 <= i < ENTRIES :: Read(vm1.ram, n)[i] ==
            if i >= 256 && vm.kernel != 0 then Read(vm.ram, vm.kernel)[i]
            else if n < vm.frames.base then 0 else Read(vm.ram, n)[i])
  {
    AllocFresh(vm);
    var (vm0, n) := AllocTable(vm).value;
    if vm.poolUsed + 4096 <= POOL_SIZE {
      FreshFromPool(vm);
    } else {
      FreshFromFrames(vm);
      FrameIsPage(vm.frames, Scan(vm.frames, 0).value);
    }
    hide AllocTable, Available;
  }

  /** What the roots see once the new root holds half of the kernel's. */
  lemma NewDirEntries(vm: Vm, place: Places, vm1: Vm, n: nat, blank: Table)
    requires Shape(vm, place) && n !in place
    requires forall s | s in place :: Read(vm1.ram, s) == Read(vm.ram, s)
    requires Blank(blank) && Read(vm1.ram, n) == HalfCopy(blank, Read(vm.ram, vm.kernel))
    ensures forall q, p | IsRoot(place, q) && ValidPath(p) :: Entry(vm1.ram, q, p) == Entry(vm.ram, q, p)
    ensures forall p | ValidPath(p) ::
              Entry(vm1.ram, n, p) == if p.i4 >= 256 then Entry(vm.ram, vm.kernel, p) else 0
    ensures forall i | 0 <= i < ENTRIES ::
              Shares(vm1.ram, n, vm.kernel, i) <==> i >= 256 && Present(Read(vm.ram, vm.kernel)[i])
  {
    forall p, q | IsRoot(place, q) && ValidPath(p) ensures Entry(vm1.ram, q, p) == Entry(vm.ram, q, p) {
      SameEntry(vm, place, vm1, q, p);
    }
    forall p | ValidPath(p)
      ensures Entry(vm1.ram, n, p) == if p.i4 >= 256 then Entry(vm.ram, vm.kernel, p) else 0
    {
      assert Entry(vm1.ram, vm.kernel, p) == Entry(vm.ram, vm.kernel, p);
      if p.i4 >= 256 {
        assert Pdp(vm1.ram, n, p) == Pdp(vm1.ram, vm.kernel, p);
      }
    }
  }

  lemma SameEntry(vm: Vm, place: Places, vm1: Vm, q: nat, p: Path)
    requires Shape(vm, place) && IsRoot(place, q) && ValidPath(p)
    requires forall t | t in place :: Read(vm1.ram, t) == Read(vm.ram, t)
    ensures Entry(vm1.ram, q, p) == Entry(vm.ram, q, p)
  {
    Walk(vm, place, q, p);
  }

  lemma CleanBut(vm: Vm, vm1: Vm, n: nat, floor: int)
    requires Clean(vm, floor) && !Available(vm, n)
    requires vm1 == vm.(ram := vm1.ram) && forall s | s != n :: Read(vm1.ram, s) == Read(vm.ram, s)
    ensures Clean(vm1, floor)
  {
    forall page | page in vm.frames.free ensures Addr(vm.frames, page) != n {
      FrameOf(vm.frames, page);
    }
  }

  lemma NewDirShape(vm: Vm, place: Places, vm1: Vm, n: nat, blank: Table)
    requires Shape(vm, place) && n !in place && n != 0 && IsPage(n) && Sound(vm1) && vm1.kernel == vm.kernel
    requires !Available(vm1, n) && forall s :: Available(vm1, s) ==> Available(vm, s)
    requires forall s | s in place :: Read(vm1.ram, s) == Read(vm.ram, s)
    requires Blank(blank) && Read(vm1.ram, n) == HalfCopy(blank, Read(vm.ram, vm.kernel))
    ensures Shape(vm1, place[n := Root(n)])
  {
    PresentValues();
    var place1 := place[n := Root(n)];
    forall s | s in place1 ensures TableOk(vm1, place1, s) {
      if s != n {
        assert TableOk(vm, place, s);
        SameAt(vm, place, vm1, s);
      }
    }
    forall s, i: nat | s in place1 && i < ENTRIES ensures LinkOk(vm1, place1, s, i) {
      assert LinkOk(vm, place, vm.kernel, i);
      if s != n { assert LinkOk(vm, place, s, i); }
    }
  }

  lemma SameAt(vm: Vm, place: Places, vm1: Vm, s: nat)
    requires Shape(vm, place) && s in place
    requires forall t | t in place :: Read(vm1.ram, t) == Read(vm.ram, t)
    ensures At(vm1.ram, place[s]) == At(vm.ram, place[s])
  {
    assert TableOk(vm, place, s);
    var r := place[s].root;
    match place[s]
    case Root(_) =>
    case PdpAt(_, a) => Walk(vm, place, r, Path(a, 0, 0, 0));
    case PdAt(_, a, b) => Walk(vm, place, r, Path(a, b, 0, 0));
    case PtAt(_, a, b, c) => Walk(vm, place, r, Path(a, b, c, 0));
  }

  // --- vmm_free_pagedir -----------------------------------------------------------------------

  /** The pages that the innermost loop releases, in order. */
  function PtList(ram: Ram, pd: nat, k: nat): seq<nat>
    requires k <= ENTRIES
  {
    if k == 0 then []
    else
      match Next(ram, pd, k - 1)
      case None => PtList(ram, pd, k - 1)
      case Some(pt) => PtList(ram, pd, k - 1) + [pt]
  }

  function PdList(ram: Ram, pdp: nat, k: nat): seq<nat>
    requires k <= ENTRIES
  {
    if k == 0 then []
    else
      match Next(ram, pdp, k - 1)
      case None => PdList(ram, pdp, k - 1)
      case Some(pd) => PdList(ram, pdp, k - 1) + PtList(ram, pd, ENTRIES) + [pd]
  }

  function PdpList(ram: Ram, root: nat, k: nat): seq<nat>
    requires k <= ENTRIES
  {
    if k == 0 then []
    else
      match Next(ram, root, k - 1)
      case None => PdpList(ram, root, k - 1)
      case Some(pdp) => PdpList(ram, root, k - 1) + PdList(ram, pdp, ENTRIES) + [pdp]
  }

  /** All pointers passed to pmm_free, in order. */
  function FreeOrder(ram: Ram, root: nat): seq<nat> {
    PdpList(ram, root, 256) + [root]
  }

  function FreeAll(f: Frames, ptrs: seq<nat>): Frames
    decreases ptrs
  {
    if ptrs == [] then f else FreeAll(Free(f, ptrs[0]), ptrs[1..])
  }

  function FreeDir(vm: Vm, root: nat): Vm {
    vm.(frames := FreeAll(vm.frames, FreeOrder(vm.ram, root)))
  }

  ghost predicate Distinct(s: seq<nat>) {
    forall i, j | 0 <= i < j < |s| :: s[i] != s[j]
  }

  lemma DistinctAppend(s: seq<nat>, t: seq<nat>)
    requires Distinct(s) && Distinct(t) && forall x | x in s :: x !in t
    ensures Distinct(s + t)
  {
    forall i, j | 0 <= i < j < |s + t| ensures (s + t)[i] != (s + t)[j] {
      if i < |s| <= j { assert s[i] in s && t[j - |s|] in t; }
    }
  }

  ghost predicate BelowPd(place: Places, x: nat, o: nat, a: nat, b: nat, k: nat) {
    x in place && place[x].PtAt? && place[x].root == o && place[x].i4 == a && place[x].i3 == b && place[x].i2 < k
  }

  ghost predicate BelowPdp(place: Places, x: nat, o: nat, a: nat, k: nat) {
    && x in place && place[x].root == o
    && (place[x].PtAt? || place[x].PdAt?) && place[x].i4 == a && place[x].i3 < k
  }

  ghost predicate BelowRoot(place: Places, x: nat, o: nat, k: nat) {
    && x in place && place[x].root == o
    && !place[x].Root? && place[x].i4 < k
  }

  lemma {:induction false} PtListIs(vm: Vm, place: Places, pd: nat, k: nat)
    requires Shape(vm, place) && pd in place && place[pd].PdAt? && k <= ENTRIES
    ensures var pl := place[pd];
      forall x: nat :: x in PtList(vm.ram, pd, k) <==> BelowPd(place, x, pl.root, pl.i4, pl.i3, k)
    ensures Distinct(PtList(vm.ram, pd, k))
  {
    if k > 0 {
      var pl := place[pd];
      PtListIs(vm, place, pd, k - 1);
      assert LinkOk(vm, place, pd, k - 1);
      assert TableOk(vm, place, pd);
      forall x: nat | BelowPd(place, x, pl.root, pl.i4, pl.i3, k) && !BelowPd(place, x, pl.root, pl.i4, pl.i3, k - 1)
        ensures Next(vm.ram, pd, k - 1) == Some(x)
      {
        assert TableOk(vm, place, x);
      }
      if Next(vm.ram, pd, k - 1).Some? {
        var below, pt := PtList(vm.ram, pd, k - 1), Next(vm.ram, pd, k - 1).value;
        DistinctAppend(below, [pt]);
        forall x: nat ensures x in PtList(vm.ram, pd, k) <==> x in below || x == pt {}
      }
    }
  }

  lemma {:induction false} PdListIs(vm: Vm, place: Places, pdp: nat, k: nat)
    requires Shape(vm, place) && pdp in place && place[pdp].PdpAt? && k <= ENTRIES
    ensures var pl := place[pdp];
      forall x: nat :: x in PdList(vm.ram, pdp, k) <==> BelowPdp(place, x, pl.root, pl.i4, k)
    ensures Distinct(PdList(vm.ram, pdp, k))
  {
    if k > 0 {
      var pl := place[pdp];
      PdListIs(vm, place, pdp, k - 1);
      assert LinkOk(vm, place, pdp, k - 1);
      assert TableOk(vm, place, pdp);
      var below := PdList(vm.ram, pdp, k - 1);
      forall x: nat | BelowPdp(place, x, pl.root, pl.i4, k) && !BelowPdp(place, x, pl.root, pl.i4, k - 1)
        ensures Next(vm.ram, pdp, k - 1).Some?
        ensures x == Next(vm.ram, pdp, k - 1).value || BelowPd(place, x, pl.root, pl.i4, k - 1, ENTRIES)
      {
        assert TableOk(vm, place, x);
      }
      if Next(vm.ram, pdp, k - 1).Some? {
        var pd := Next(vm.ram, pdp, k - 1).value;
        PtListIs(vm, place, pd, ENTRIES);
        var inner := PtList(vm.ram, pd, ENTRIES);
        DistinctAppend(below, inner);
        DistinctAppend(below + inner, [pd]);
        forall x: nat ensures x in PdList(vm.ram, pdp, k) <==> x in below || x in inner || x == pd {}
      }
    }
  }

  lemma {:induction false} PdpListIs(vm: Vm, place: Places, root: nat, k: nat)
    requires Shape(vm, place) && IsRoot(place, root) && k <= 256
    ensures forall x: nat :: x in PdpList(vm.ram, root, k) <==> BelowRoot(place, x, root, k)
    ensures Distinct(PdpList(vm.ram, root, k))
  {
    if k > 0 {
      PdpListIs(vm, place, root, k - 1);
      assert LinkOk(vm, place, root, k - 1);
      var below := PdpList(vm.ram, root, k - 1);
      forall x: nat | BelowRoot(place, x, root, k) && !BelowRoot(place, x, root, k - 1)
        ensures Next(vm.ram, root, k - 1).Some?
        ensures x == Next(vm.ram, root, k - 1).value || BelowPdp(place, x, root, k - 1, ENTRIES)
      {
        assert TableOk(vm, place, x);
      }
      if Next(vm.ram, root, k - 1).Some? {
        var pdp := Next(vm.ram, root, k - 1).value;
        PdListIs(vm, place, pdp, ENTRIES);
        var inner := PdList(vm.ram, pdp, ENTRIES);
        forall x | x in inner ensures BelowPdp(place, x, root, k - 1, ENTRIES) {}
        DistinctAppend(below, inner);
        DistinctAppend(below + inner, [pdp]);
        forall x: nat ensures x in PdpList(vm.ram, root, k) <==> x in below || x in inner || x == pdp {}
      }
    }
  }

  /** The tables that belong to a directory: the root and its tables in the user half. */
  ghost predicate OwnTable(place: Places, x: nat, root: nat) {
    x == root || BelowRoot(place, x, root, 256)
  }

  lemma FreeOrderIs(vm: Vm, place: Places, root: nat)
    requires Shape(vm, place) && IsRoot(place, root)
    ensures forall x: nat :: x in FreeOrder(vm.ram, root) <==> OwnTable(place, x, root)
    ensures Distinct(FreeOrder(vm.ram, root))
  {
    PdpListIs(vm, place, root, 256);
    DistinctAppend(PdpList(vm.ram, root, 256), [root]);
  }

  /** The tables of a directory that vmm_free_pagedir does not release are those in the kernel
      half; and one of them is there exactly when an entry of that half is not the kernel's. */
  lemma FreesAllExact(vm: Vm, place: Places, root: nat)
    requires Shape(vm, place) && IsRoot(place, root) && root != vm.kernel
    ensures (forall t | t in place && place[t].root == root :: t in FreeOrder(vm.ram, root))
            <==> (forall i: nat | 256 <= i < ENTRIES && Next(vm.ram, root, i).Some? ::
                  Shares(vm.ram, root, vm.kernel, i))
  {
    FreeOrderIs(vm, place, root);
    hide Shape;
    if forall i: nat | 256 <= i < ENTRIES && Next(vm.ram, root, i).Some? :: Shares(vm.ram, root, vm.kernel, i) {
      forall t | t in place && place[t].root == root ensures t in FreeOrder(vm.ram, root) {
        OwnLink(vm, place, root, t);
        assert OwnTable(place, t, root);
      }
    }
    forall i: nat | 256 <= i < ENTRIES && Next(vm.ram, root, i).Some? && !Shares(vm.ram, root, vm.kernel, i)
      ensures exists t | t in place && place[t].root == root :: t !in FreeOrder(vm.ram, root)
    {
      OwnEntry(vm, place, root, i);
      assert !OwnTable(place, Next(vm.ram, root, i).value, root);
    }
  }

  /** A kernel-half entry that is not the kernel's leads to a table of the root's own. */
  lemma OwnEntry(vm: Vm, place: Places, root: nat, i: nat)
    requires Shape(vm, place) && IsRoot(place, root) && root != vm.kernel && 256 <= i < ENTRIES
    requires Next(vm.ram, root, i).Some? && !Shares(vm.ram, root, vm.kernel, i)
    ensures var t := Next(vm.ram, root, i).value; t in place && place[t] == PdpAt(root, i) && t != root
  {
    assert LinkOk(vm, place, root, i);
  }

  /** Below an entry that is the kernel's there is no table of the root's own. */
  lemma OwnLink(vm: Vm, place: Places, root: nat, t: nat)
    requires Shape(vm, place) && IsRoot(place, root) && root != vm.kernel && t in place && place[t].root == root
    ensures place[t].Root? ==> t == root
    ensures !place[t].Root? ==> place[t].i4 < ENTRIES && Next(vm.ram, root, place[t].i4).Some?
    ensures !place[t].Root? && place[t].i4 >= 256 ==> !Shares(vm.ram, root, vm.kernel, place[t].i4)
  {
    assert TableOk(vm, place, t);
    if !place[t].Root? && place[t].i4 >= 256 && Shares(vm.ram, root, vm.kernel, place[t].i4) {
      match place[t]
      case PdpAt(_, a) => KernelsLink(vm, place, root, Path(a, 0, 0, 0), t);
      case PdAt(_, a, b) => KernelsLink(vm, place, root, Path(a, b, 0, 0), t);
      case PtAt(_, a, b, c) => KernelsLink(vm, place, root, Path(a, b, c, 0), t);
    }
  }

  lemma KernelsLink(vm: Vm, place: Places, root: nat, p: Path, t: nat)
    requires Shape(vm, place) && IsRoot(place, root) && ValidPath(p) && t in place
    requires Shares(vm.ram, root, vm.kernel, p.i4) && root != vm.kernel
    requires Some(t) == Pdp(vm.ram, root, p) || Some(t) == Pd(vm.ram, root, p) || Some(t) == Pt(vm.ram, root, p)
    ensures place[t].root == vm.kernel
  {
    Walk(vm, place, vm.kernel, p);
    hide Shape;
  }

  /** vmm_map with a missing kernel-half entry makes such a table: vmm_free_pagedir then
      neither releases it nor leaves it to any directory. */
  lemma KernelHalfLost(vm: Vm, place: Places, root: nat, va: nat, phys: nat, flags: nat, floor: int)
    returns (place1: Places, t: nat)
    requires Shape(vm, place) && IsRoot(place, root) && root != vm.kernel && Clean(vm, floor)
    requires Map(vm, root, va, phys, flags).Some? && floor <= Supply(Map(vm, root, va, phys, flags).value)
    requires PathOf(va).i4 >= 256 && Next(vm.ram, root, PathOf(va).i4).None?
    ensures var vm1 := Map(vm, root, va, phys, flags).value;
      && Shape(vm1, place1) && IsRoot(place1, root)
      && Available(vm, t) && t in place1 && place1[t].root == root
      && t !in FreeOrder(vm1.ram, root) && !Available(FreeDir(vm1, root), t)
  {
    place1 := MapStep(vm, place, root, va, phys, flags, floor);
    LeafFacts(phys, flags);
    var vm1 := Map(vm, root, va, phys, flags).value;
    var i := PathOf(va).i4;
    hide Map, LeafEntry;
    assert Entry(vm1.ram, root, PathOf(va)) == LeafEntry(phys, flags) != 0;
    t := Next(vm1.ram, root, i).value;
    assert LinkOk(vm, place, vm.kernel, i);
    assert Read(vm1.ram, vm.kernel)[i] == Read(vm.ram, vm.kernel)[i];
    OwnEntry(vm1, place1, root, i);
    assert TableOk(vm1, place1, t);
    NotReleased(vm1, place1, root, t);
  }

  // --- what the page allocator makes of it --------------------------------------------------------

  /** The frames among the given pointers. */
  ghost function FramesAmong(f: Frames, ptrs: seq<nat>): set<nat> {
    set p: nat | p < f.total && Addr(f, p) in ptrs
  }

  lemma {:induction false} FreeAllIs(f: Frames, ptrs: seq<nat>)
    requires Proper(f) && forall x | x in ptrs :: IsPage(x)
    ensures FreeAll(f, ptrs) == f.(free := f.free + FramesAmong(f, ptrs))
    decreases ptrs
  {
    if ptrs == [] {
      assert f.free + FramesAmong(f, ptrs) == f.free;
    } else {
      var x := ptrs[0];
      var g := Free(f, x);
      assert x in ptrs;
      OneFree(f, x);
      FreeAllIs(g, ptrs[1..]);
      assert FramesAmong(g, ptrs[1..]) == FramesAmong(f, ptrs[1..]);
      forall p: nat | p < f.total
        ensures p in FramesAmong(f, ptrs) <==> p in FramesAmong(f, ptrs[1..]) || Addr(f, p) == x
      {
        assert Addr(f, p) in ptrs <==> Addr(f, p) == x || Addr(f, p) in ptrs[1..];
      }
      assert f.free + FramesAmong(f, ptrs) == g.free + FramesAmong(f, ptrs[1..]);
    }
  }

  lemma OneFree(f: Frames, x: nat)
    requires Proper(f) && IsPage(x)
    ensures Proper(Free(f, x)) && Free(f, x).total == f.total && Free(f, x).base == f.base
    ensures forall p: nat | p < f.total :: p in Free(f, x).free <==> p in f.free || Addr(f, p) == x
    ensures Free(f, x) == f.(free := Free(f, x).free)
  {
    forall p: nat | p < f.total ensures p in Free(f, x).free <==> p in f.free || Addr(f, p) == x {
      FrameOf(f, p);
      if x >= f.base {
        assert x == f.base + (x - f.base) / 4096 * 4096;
      }
    }
  }

  /** vmm_free_pagedir releases exactly the frames of the directory's own tables: no page of
      a table of another root, no mapped frame, and nothing of the static pool.  The count
      of free frames rises by the number of those frames, and all other roots are as before. */
  lemma FreeDirStep(vm: Vm, place: Places, root: nat) returns (place1: Places)
    requires Shape(vm, place) && IsRoot(place, root) && root != vm.kernel
    ensures var vm1 := FreeDir(vm, root); var own := FramesAmong(vm.frames, FreeOrder(vm.ram, root));
      && (forall p: nat | p < vm.frames.total :: p in own <==> OwnTable(place, Addr(vm.frames, p), root))
      && vm1.frames == vm.frames.(free := vm.frames.free + own)
      && own !! vm.frames.free && |vm1.frames.free| == |vm.frames.free| + |own|
      && Distinct(FreeOrder(vm.ram, root))
      && Shape(vm1, place1) && vm1.ram == vm.ram && vm1.kernel == vm.kernel
      && (forall t :: t in place1 <==> t in place && place[t].root != root)
      && (forall t | t in place1 :: place1[t] == place[t])
  {
    FreeOrderIs(vm, place, root);
    var ptrs := FreeOrder(vm.ram, root);
    FreeOrderPages(vm, place, root);
    FreeAllIs(vm.frames, ptrs);
    var own := FramesAmong(vm.frames, ptrs);
    forall p | p in own ensures p !in vm.frames.free { FrameOf(vm.frames, p); }
    place1 := map t | t in place && place[t].root != root :: place[t];
    FreeDirShape(vm, place, root, place1);
  }

  lemma FreeDirShape(vm: Vm, place: Places, root: nat, place1: Places)
    requires Shape(vm, place) && IsRoot(place, root) && root != vm.kernel
    requires place1 == map t | t in place && place[t].root != root :: place[t]
    ensures Shape(FreeDir(vm, root), place1)
  {
    var vm1 := FreeDir(vm, root);
    FreeOrderIs(vm, place, root);
    var ptrs := FreeOrder(vm.ram, root);
    FreeOrderPages(vm, place, root);
    FreeAllIs(vm.frames, ptrs);
    forall t | t in place1 ensures TableOk(vm1, place1, t) {
      assert TableOk(vm, place, t);
      NotReleased(vm, place, root, t);
    }
    forall t, i: nat | t in place1 && i < ENTRIES ensures LinkOk(vm1, place1, t, i) {
      assert LinkOk(vm, place, t, i);
    }
  }

  /** A page in use that is no table of the directory is not available afterwards. */
  lemma NotReleased(vm: Vm, place: Places, root: nat, t: nat)
    requires Shape(vm, place) && IsRoot(place, root) && IsPage(t) && !Available(vm, t) && !OwnTable(place, t, root)
    ensures t !in FreeOrder(vm.ram, root) && !Available(FreeDir(vm, root), t)
  {
    FreeOrderIs(vm, place, root);
    FreeOrderPages(vm, place, root);
    FreeAllIs(vm.frames, FreeOrder(vm.ram, root));
    hide FreeOrder;
    if vm.frames.base <= t { FrameAddr(vm.frames, t); }
  }

  lemma FreeOrderPages(vm: Vm, place: Places, root: nat)
    requires Shape(vm, place) && IsRoot(place, root)
    ensures forall x | x in FreeOrder(vm.ram, root) :: IsPage(x) && !Available(vm, x)
  {
    FreeOrderIs(vm, place, root);
    forall x | x in FreeOrder(vm.ram, root) ensures IsPage(x) && !Available(vm, x) { assert TableOk(vm, place, x); }
  }

  lemma FrameAddr(f: Frames, t: nat)
    requires Proper(f) && IsPage(t) && f.base <= t
    ensures Addr(f, (t - f.base) / 4096) == t
  {
  }

  /** The released tables keep their entries: afterwards the free frames can serve as tables
      exactly when they could before and every released frame is blank. */
  lemma FreedClean(vm: Vm, place: Places, root: nat, floor: int)
    requires Shape(vm, place) && IsRoot(place, root) && root != vm.kernel
    requires floor < |FreeDir(vm, root).frames.free|
    ensures var own := FramesAmong(vm.frames, FreeOrder(vm.ram, root));
      Clean(FreeDir(vm, root), floor) <==>
      forall p | p in vm.frames.free + own :: Blank(Read(vm.ram, Addr(vm.frames, p)))
  {
    var place1 := FreeDirStep(vm, place, root);
    hide Blank, Shape, FreeDir, FreeOrder, FramesAmong, OwnTable;
    var vm1 := FreeDir(vm, root);
    forall p ensures Addr(vm1.frames, p) == Addr(vm.frames, p) {}
  }
}
