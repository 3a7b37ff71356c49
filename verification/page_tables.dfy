/** Four-level page tables in physical memory: kernel/mm/vmm.c on values.

    `Vm` is everything the virtual memory manager reads or writes.  Its functions do what
    the C functions do, entry by entry; class `Vmm` does the same in place. */
module PageTables {
  import opened Options
  import opened Bits
  import opened Entries
  import opened PageFrames

  const POOL_SIZE: nat := 0x4_0000   // 64 pages
  const ENTRIES: nat := 512

  type Table = t: seq<nat> | |t| == ENTRIES witness Zeros(ENTRIES)

  function Zeros(n: nat): (s: seq<nat>)
    ensures |s| == n && forall i | 0 <= i < n :: s[i] == 0
  {
    seq(n, _ => 0)
  }

  function ZeroTable(): Table {
    Zeros(ENTRIES)
  }

  /** Physical memory, a page at a time; a page nobody has written reads as zeros. */
  type Ram = map<nat, Table>

  datatype Vm = Vm(ram: Ram, kernel: nat, pool: nat, poolUsed: nat, frames: Frames)

  function Read(ram: Ram, a: nat): Table {
    if a in ram then ram[a] else ZeroTable()
  }

  function Write(ram: Ram, a: nat, i: nat, e: nat): Ram
    requires i < ENTRIES
  {
    ram[a := Read(ram, a)[i := e]]
  }

  /** alloc_table: a zeroed page of the static pool, or else a page frame as it is. */
  function AllocTable(vm: Vm): Option<(Vm, nat)> {
    if vm.poolUsed + 4096 <= POOL_SIZE then
      var t := vm.pool + vm.poolUsed;
      Some((vm.(poolUsed := vm.poolUsed + 4096, ram := vm.ram[t := ZeroTable()]), t))
    else
      var (f, a) := Alloc(vm.frames);
      if a == 0 then None else Some((vm.(frames := f), a))
  }

  /** One level of vmm_map: the table below entry i of table t, made if it is missing. */
  function Level(vm: Vm, t: nat, i: nat, flags: nat): Option<(Vm, nat)>
    requires i < ENTRIES
  {
    if Present(Read(vm.ram, t)[i]) then Some((vm, Ptr(Read(vm.ram, t)[i])))
    else
      match AllocTable(vm)
      case None => None
      case Some((vm1, n)) =>
        var e := LinkEntry(n, flags);
        Some((vm1.(ram := Write(vm1.ram, t, i, e)), Ptr(e)))
  }

  /** vmm_map; None stands for the panic when no page is left for a table. */
  function Map(vm: Vm, root: nat, va: nat, phys: nat, flags: nat): Option<Vm> {
    var p := PathOf(va);
    match Level(vm, root, p.i4, flags)
    case None => None
    case Some((vm1, pdp)) =>
      match Level(vm1, pdp, p.i3, flags)
      case None => None
      case Some((vm2, pd)) =>
        match Level(vm2, pd, p.i2, flags)
        case None => None
        case Some((vm3, pt)) => Some(vm3.(ram := Write(vm3.ram, pt, p.i1, LeafEntry(phys, flags))))
  }

  function Next(ram: Ram, t: nat, i: nat): Option<nat>
    requires i < ENTRIES
  {
    if Present(Read(ram, t)[i]) then Some(Ptr(Read(ram, t)[i])) else None
  }

  function NextOf(ram: Ram, t: Option<nat>, i: nat): Option<nat>
    requires i < ENTRIES
  {
    if t.Some? then Next(ram, t.value, i) else None
  }

  function Pdp(ram: Ram, root: nat, p: Path): Option<nat>
    requires ValidPath(p)
  {
    Next(ram, root, p.i4)
  }

  function Pd(ram: Ram, root: nat, p: Path): Option<nat>
    requires ValidPath(p)
  {
    NextOf(ram, Pdp(ram, root, p), p.i3)
  }

  function Pt(ram: Ram, root: nat, p: Path): Option<nat>
    requires ValidPath(p)
  {
    NextOf(ram, Pd(ram, root, p), p.i2)
  }

  /** An entry as the processor sees it: what is not present does not count. */
  function Seen(e: nat): nat {
    if Present(e) then e else 0
  }

  /** The present last-level entry at the end of a path, 0 when there is none. */
  function Entry(ram: Ram, root: nat, p: Path): nat
    requires ValidPath(p)
  {
    match Pt(ram, root, p)
    case None => 0
    case Some(pt) => Seen(Read(ram, pt)[p.i1])
  }

  /** vmm_unmap */
  function Unmap(vm: Vm, root: nat, va: nat): Vm {
    var p := PathOf(va);
    match Pt(vm.ram, root, p)
    case None => vm
    case Some(pt) => vm.(ram := Write(vm.ram, pt, p.i1, 0))
  }

  /** vmm_resolve */
  function Resolve(ram: Ram, root: nat, va: nat): nat {
    var e := Entry(ram, root, PathOf(va));
    if Present(e) then Or(Ptr(e), Offset(va)) else 0
  }

  /** vmm_new_pagedir: a new root whose upper half is the kernel's. */
  function NewDir(vm: Vm): Option<(Vm, nat)> {
    match AllocTable(vm)
    case None => None
    case Some((vm1, n)) =>
      if vm1.kernel == 0 then Some((vm1, n))
      else Some((vm1.(ram := vm1.ram[n := HalfCopy(Read(vm1.ram, n), Read(vm1.ram, vm1.kernel))]), n))
  }

  function HalfCopy(t: Table, k: Table): Table {
    t[..256] + k[256..]
  }

  // --- where the tables are -----------------------------------------------------------

  /** The position of a table: whose root it hangs below, and the indices on the way. */
  datatype Place =
    | Root(root: nat)
    | PdpAt(root: nat, i4: nat)
    | PdAt(root: nat, i4: nat, i3: nat)
    | PtAt(root: nat, i4: nat, i3: nat, i2: nat)

  function Child(pl: Place, i: nat): Place {
    match pl
    case Root(r) => PdpAt(r, i)
    case PdpAt(r, a) => PdAt(r, a, i)
    case PdAt(r, a, b) => PtAt(r, a, b, i)
    case PtAt(_, _, _, _) => pl
  }

  predicate ValidPlace(pl: Place) {
    match pl
    case Root(_) => true
    case PdpAt(_, a) => a < ENTRIES
    case PdAt(_, a, b) => a < ENTRIES && b < ENTRIES
    case PtAt(_, a, b, c) => a < ENTRIES && b < ENTRIES && c < ENTRIES
  }

  /** The table found at a position by walking down from its root. */
  function At(ram: Ram, pl: Place): Option<nat>
    requires ValidPlace(pl)
  {
    match pl
    case Root(r) => Some(r)
    case PdpAt(r, a) => Next(ram, r, a)
    case PdAt(r, a, b) => NextOf(ram, Next(ram, r, a), b)
    case PtAt(r, a, b, c) => NextOf(ram, NextOf(ram, Next(ram, r, a), b), c)
  }

  type Places = map<nat, Place>

  /** A page the manager could still hand out as a table. */
  predicate Available(vm: Vm, t: nat) {
    || vm.pool + vm.poolUsed <= t < vm.pool + POOL_SIZE
    || (vm.frames.base <= t && (t - vm.frames.base) / 4096 in vm.frames.free)
  }

  /** The pool lies below the page frames, and both are page-aligned. */
  ghost predicate Sound(vm: Vm) {
    && Proper(vm.frames)
    && 0 < vm.pool && vm.pool % 4096 == 0 && vm.pool + POOL_SIZE <= vm.frames.base
    && vm.poolUsed % 4096 == 0 && vm.poolUsed <= POOL_SIZE
  }

  ghost predicate TableOk(vm: Vm, place: Places, t: nat) {
    && IsPage(t) && t != 0 && !Available(vm, t)
    && t in place && ValidPlace(place[t]) && At(vm.ram, place[t]) == Some(t)
    && place[t].root in place && place[place[t].root] == Root(place[t].root)
  }

  /** A root may borrow a kernel-half table from the kernel's root. */
  ghost predicate Borrowed(vm: Vm, place: Places, t: nat, i: nat)
    requires i < ENTRIES
  {
    var e := Read(vm.ram, t)[i];
    && t in place && place[t].Root? && i >= 256
    && e == Read(vm.ram, vm.kernel)[i]
    && Ptr(e) in place && place[Ptr(e)] == PdpAt(vm.kernel, i)
  }

  ghost predicate LinkOk(vm: Vm, place: Places, t: nat, i: nat)
    requires i < ENTRIES
  {
    var e := Read(vm.ram, t)[i];
    t in place && !place[t].PtAt? && Present(e) ==>
      (Ptr(e) in place && place[Ptr(e)] == Child(place[t], i)) || Borrowed(vm, place, t, i)
  }

  /** The tables form a forest: every present entry of a table above the last level leads to
      the table at the position below it, and every table is found at its own position. */
  ghost predicate Shape(vm: Vm, place: Places) {
    && Sound(vm)
    && vm.kernel in place && place[vm.kernel] == Root(vm.kernel)
    && (forall t | t in place :: TableOk(vm, place, t))
    && (forall t, i: nat | t in place && i < ENTRIES :: LinkOk(vm, place, t, i))
  }

  ghost predicate IsRoot(place: Places, r: nat) {
    r in place && place[r] == Root(r)
  }

  /** Pages left for tables: the rest of the pool and the free frames. */
  function Supply(vm: Vm): int {
    (POOL_SIZE - vm.poolUsed) / 4096 + |vm.frames.free|
  }

  /** A page without present entries can serve as a new table. */
  predicate Blank(t: Table) {
    forall j | 0 <= j < ENTRIES :: !Present(t[j])
  }

  lemma ZerosAreBlank()
    ensures Blank(ZeroTable())
  {
    PresentValues();
  }

  /** Every page taken until the supply has fallen to `floor` comes without present entries:
      either the pool lasts that long, or no free frame holds one. */
  ghost predicate Clean(vm: Vm, floor: int) {
    || |vm.frames.free| <= floor
    || forall page | page in vm.frames.free :: Blank(Read(vm.ram, Addr(vm.frames, page)))
  }

  // --- allocating a table ----------------------------------------------------------------

  /** What a table allocation gives: a page that was available, and nothing else changed. */
  ghost predicate Fresh(vm: Vm, vm1: Vm, t: nat) {
    && Available(vm, t) && !Available(vm1, t) && IsPage(t) && t != 0
    && Sound(vm1) && vm1.kernel == vm.kernel
    && (forall s :: Available(vm1, s) ==> Available(vm, s))
    && (forall s | s != t :: Read(vm1.ram, s) == Read(vm.ram, s))
  }

  lemma FrameOf(f: Frames, page: nat)
    ensures (Addr(f, page) - f.base) / 4096 == page
  {
  }

  lemma FrameIsPage(f: Frames, page: nat)
    requires Proper(f) && page < f.total
    ensures IsPage(Addr(f, page)) && Addr(f, page) >= f.base > 0
  {
    assert Addr(f, page) == (f.base / 4096 + page) * 4096;
  }

  lemma FreshFromFrames(vm: Vm)
    requires Sound(vm) && vm.poolUsed + 4096 > POOL_SIZE && AllocTable(vm).Some?
    ensures var (vm1, t) := AllocTable(vm).value;
      && Fresh(vm, vm1, t) && Supply(vm1) == Supply(vm) - 1 && Supply(vm) == |vm.frames.free|
      && vm1 == vm.(frames := vm1.frames) && Read(vm1.ram, t) == Read(vm.ram, t)
      && vm1.frames.base == vm.frames.base && vm1.frames.free < vm.frames.free
      && (exists p | p in vm.frames.free :: t == Addr(vm.frames, p))
  {
    AllocFacts(vm.frames);
    var p := Scan(vm.frames, 0).value;
    FrameOf(vm.frames, p);
    FrameIsPage(vm.frames, p);
    var (vm1, t) := AllocTable(vm).value;
    assert vm1 == vm.(frames := Take(vm.frames, p)) && t == Addr(vm.frames, p);
  }

  lemma FreshFromPool(vm: Vm)
    requires Sound(vm) && vm.poolUsed + 4096 <= POOL_SIZE
    ensures var (vm1, t) := AllocTable(vm).value;
      && Fresh(vm, vm1, t) && Supply(vm1) == Supply(vm) - 1
      && vm1.frames == vm.frames && Read(vm1.ram, t) == ZeroTable() && t < vm.frames.base
  {
  }

  /** Whatever the page holds, it was available and is not any more. */
  lemma AllocFresh(vm: Vm)
    requires Sound(vm) && AllocTable(vm).Some?
    ensures var (vm1, t) := AllocTable(vm).value; Fresh(vm, vm1, t) && Supply(vm1) == Supply(vm) - 1
  {
    if vm.poolUsed + 4096 <= POOL_SIZE {
      FreshFromPool(vm);
    } else {
      FreshFromFrames(vm);
    }
  }

  /** While the supply is clean, it also comes blank. */
  lemma AllocTableFacts(vm: Vm, floor: int)
    requires Sound(vm) && AllocTable(vm).Some? && Clean(vm, floor) && floor < Supply(vm)
    ensures var (vm1, t) := AllocTable(vm).value;
      && Fresh(vm, vm1, t) && Blank(Read(vm1.ram, t)) && Clean(vm1, floor)
      && Supply(vm1) == Supply(vm) - 1
  {
    ZerosAreBlank();
    hide Fresh, Blank;
    var (vm1, t) := AllocTable(vm).value;
    if vm.poolUsed + 4096 <= POOL_SIZE {
      FreshFromPool(vm);
      forall page | page in vm.frames.free
        ensures Read(vm1.ram, Addr(vm.frames, page)) == Read(vm.ram, Addr(vm.frames, page)) {}
    } else {
      FreshFromFrames(vm);
      forall page | page in vm1.frames.free ensures Addr(vm1.frames, page) == Addr(vm.frames, page) {}
    }
  }
}
