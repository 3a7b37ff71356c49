/** What mapping and unmapping do to the answers of vmm_resolve. */
module AddressSpaces {
  import opened Options
  import opened Entries
  import opened PageFrames
  import opened PageTables

  // --- one missing level ------------------------------------------------------------------

  /** ram1 is ram with a blank table n hung below the absent entry i of t. */
  ghost predicate Hung(ram: Ram, ram1: Ram, t: nat, i: nat, n: nat)
    requires i < ENTRIES
  {
    && t != n && !Present(Read(ram, t)[i])
    && (forall s | s != t && s != n :: Read(ram1, s) == Read(ram, s))
    && Blank(Read(ram1, n))
    && (forall j | 0 <= j < ENTRIES && j != i :: Read(ram1, t)[j] == Read(ram, t)[j])
    && Next(ram1, t, i) == Some(n)
  }

  lemma HungNext(ram: Ram, ram1: Ram, t: nat, i: nat, n: nat, s: nat, j: nat)
    requires i < ENTRIES && j < ENTRIES && Hung(ram, ram1, t, i, n) && s != n
    ensures Next(ram, s, j).Some? ==> Next(ram1, s, j) == Next(ram, s, j) && Read(ram1, s)[j] == Read(ram, s)[j]
    ensures Next(ram, s, j).None? ==> Next(ram1, s, j) == if s == t && i == j then Some(n) else None
    ensures Next(ram1, n, j) == None
  {
    PresentValues();
  }

  /** Where a walk from a root can go. */
  lemma Walk(vm: Vm, place: Places, q: nat, p: Path)
    requires Shape(vm, place) && IsRoot(place, q) && ValidPath(p)
    ensures Pdp(vm.ram, q, p).Some? ==>
              var a := Pdp(vm.ram, q, p).value; a in place && OnPath(place[a], vm.kernel, q, p) && place[a].PdpAt?
    ensures Pd(vm.ram, q, p).Some? ==>
              var a := Pd(vm.ram, q, p).value; a in place && OnPath(place[a], vm.kernel, q, p) && place[a].PdAt?
    ensures Pt(vm.ram, q, p).Some? ==>
              var a := Pt(vm.ram, q, p).value; a in place && OnPath(place[a], vm.kernel, q, p) && place[a].PtAt?
  {
    assert LinkOk(vm, place, q, p.i4);
    if Pdp(vm.ram, q, p).Some? {
      var a := Pdp(vm.ram, q, p).value;
      assert LinkOk(vm, place, a, p.i3);
      if Pd(vm.ram, q, p).Some? {
        var b := Pd(vm.ram, q, p).value;
        assert LinkOk(vm, place, b, p.i2);
      }
    }
  }

  /** The position lies on the path p below root q, or below the kernel's root in its half. */
  ghost predicate OnPath(pl: Place, kernel: nat, q: nat, p: Path) {
    && (pl.root == q || (pl.root == kernel && p.i4 >= 256))
    && match pl
       case Root(_) => true
       case PdpAt(_, a) => a == p.i4
       case PdAt(_, a, b) => a == p.i4 && b == p.i3
       case PtAt(_, a, b, c) => a == p.i4 && b == p.i3 && c == p.i2
  }

  lemma HungEntry(vm: Vm, place: Places, ram1: Ram, t: nat, i: nat, n: nat, q: nat, p: Path)
    requires Shape(vm, place) && i < ENTRIES && Hung(vm.ram, ram1, t, i, n) && n !in place
    requires t in place && !place[t].PtAt? && IsRoot(place, q) && ValidPath(p)
    ensures Entry(ram1, q, p) == Entry(vm.ram, q, p)
    ensures Pdp(vm.ram, q, p).Some? ==> Pdp(ram1, q, p) == Pdp(vm.ram, q, p)
    ensures Pd(vm.ram, q, p).Some? ==> Pd(ram1, q, p) == Pd(vm.ram, q, p)
    ensures Pt(vm.ram, q, p).Some? ==> Pt(ram1, q, p) == Pt(vm.ram, q, p)
  {
    Walk(vm, place, q, p);
    HungNext(vm.ram, ram1, t, i, n, q, p.i4);
    HungNext(vm.ram, ram1, t, i, n, q, p.i3);
    HungNext(vm.ram, ram1, t, i, n, q, p.i2);
    if Pdp(vm.ram, q, p).Some? {
      HungNext(vm.ram, ram1, t, i, n, Pdp(vm.ram, q, p).value, p.i3);
      if Pd(vm.ram, q, p).Some? {
        HungNext(vm.ram, ram1, t, i, n, Pd(vm.ram, q, p).value, p.i2);
      }
    }
  }

  /** A walk that ends at a table still ends there. */
  lemma HungAt(vm: Vm, place: Places, ram1: Ram, t: nat, i: nat, n: nat, s: nat)
    requires Shape(vm, place) && i < ENTRIES && Hung(vm.ram, ram1, t, i, n) && n !in place
    requires t in place && !place[t].PtAt? && s in place
    ensures At(ram1, place[s]) == Some(s)
  {
    assert TableOk(vm, place, s);
    var r := place[s].root;
    match place[s]
    case Root(_) =>
    case PdpAt(_, a) =>
      HungNext(vm.ram, ram1, t, i, n, r, a);
    case PdAt(_, a, b) =>
      HungEntry(vm, place, ram1, t, i, n, r, Path(a, b, 0, 0));
    case PtAt(_, a, b, c) =>
      HungEntry(vm, place, ram1, t, i, n, r, Path(a, b, c, 0));
  }

  lemma HungLinks(vm: Vm, place: Places, vm1: Vm, t: nat, i: nat, n: nat, place1: Places, s: nat, j: nat)
    requires Shape(vm, place) && i < ENTRIES && j < ENTRIES && Hung(vm.ram, vm1.ram, t, i, n) && n !in place
    requires vm1.kernel == vm.kernel
    requires t in place && !place[t].PtAt? && place1 == place[n := Child(place[t], i)] && s in place1
    ensures LinkOk(vm1, place1, s, j)
  {
    HungNext(vm.ram, vm1.ram, t, i, n, vm.kernel, j);
    if s == n {
      HungNext(vm.ram, vm1.ram, t, i, n, t, j);
    } else {
      HungNext(vm.ram, vm1.ram, t, i, n, s, j);
      assert LinkOk(vm, place, s, j);
    }
  }

  /** The tables known before are where they were, and no root sees a different entry. */
  ghost predicate Grown(vm: Vm, place: Places, vm1: Vm, place1: Places) {
    && vm1.kernel == vm.kernel
    && (forall s | s in place :: s in place1 && place1[s] == place[s])
    && (forall q, p | IsRoot(place, q) && ValidPath(p) :: Entry(vm1.ram, q, p) == Entry(vm.ram, q, p))
    && (forall s, j: nat | s in place && j < ENTRIES && Next(vm.ram, s, j).Some? ::
          Read(vm1.ram, s)[j] == Read(vm.ram, s)[j])
  }

  /** New tables were available, and nothing became available. */
  ghost predicate Took(vm: Vm, place: Places, vm1: Vm, place1: Places) {
    && (forall s | s in place1 :: s in place || Available(vm, s))
    && (forall s :: Available(vm1, s) ==> Available(vm, s))
  }

  /** A well-formed state that extends another one. */
  ghost predicate Advanced(vm: Vm, place: Places, vm1: Vm, place1: Places) {
    Shape(vm1, place1) && Grown(vm, place, vm1, place1) && Took(vm, place, vm1, place1)
  }

  lemma AdvancedTwice(vm: Vm, place: Places, vm1: Vm, place1: Places, vm2: Vm, place2: Places)
    requires Advanced(vm, place, vm1, place1) && Advanced(vm1, place1, vm2, place2)
    ensures Advanced(vm, place, vm2, place2)
  {
    forall q, p | IsRoot(place, q) && ValidPath(p) ensures Entry(vm2.ram, q, p) == Entry(vm.ram, q, p) {
      assert IsRoot(place1, q);
    }
    forall s, j: nat | s in place && j < ENTRIES && Next(vm.ram, s, j).Some?
      ensures Read(vm2.ram, s)[j] == Read(vm.ram, s)[j]
    {
      assert Next(vm1.ram, s, j).Some?;
    }
  }

  /** Of the tables known before, only entry i of t may have changed. */
  ghost predicate OnlyAt(vm: Vm, place: Places, vm1: Vm, t: nat, i: nat) {
    forall s, j: nat | s in place && j < ENTRIES && (s != t || j != i) :: Read(vm1.ram, s)[j] == Read(vm.ram, s)[j]
  }

  /** Writing to a table that is in use does not dirty the supply. */
  lemma WriteKeepsClean(vm: Vm, t: nat, i: nat, e: nat, floor: int)
    requires Clean(vm, floor) && !Available(vm, t) && i < ENTRIES
    ensures Clean(vm.(ram := Write(vm.ram, t, i, e)), floor)
  {
    forall page | page in vm.frames.free ensures Addr(vm.frames, page) != t {
      FrameOf(vm.frames, page);
    }
  }

  lemma NewLevel(vm: Vm, place: Places, t: nat, i: nat, flags: nat, floor: int)
    requires Shape(vm, place) && t in place && !place[t].PtAt? && i < ENTRIES && Clean(vm, floor) && floor < Supply(vm)
    requires Level(vm, t, i, flags).Some? && !Present(Read(vm.ram, t)[i])
    ensures var (vm1, n) := Level(vm, t, i, flags).value;
      && Hung(vm.ram, vm1.ram, t, i, n) && n !in place && Available(vm, n)
      && Sound(vm1) && vm1.kernel == vm.kernel && IsPage(n) && n != 0 && !Available(vm1, n)
      && (forall s :: Available(vm1, s) ==> Available(vm, s))
      && Clean(vm1, floor) && Supply(vm1) == Supply(vm) - 1
  {
    hide Blank, LinkOk, Clean, At;
    var (vm0, n) := AllocTable(vm).value;
    AllocTableFacts(vm, floor);
    NewTable(vm, place, t);
    LinkFacts(n, flags);
    WriteKeepsClean(vm0, t, i, LinkEntry(n, flags), floor);
  }

  lemma NewTable(vm: Vm, place: Places, t: nat)
    requires Shape(vm, place) && t in place && AllocTable(vm).Some?
    ensures var (vm0, n) := AllocTable(vm).value;
      n !in place && n != t && !Available(vm, t) && !Available(vm0, t)
  {
    AllocFresh(vm);
    hide LinkOk, At, AllocTable;
    var (vm0, n) := AllocTable(vm).value;
    assert TableOk(vm, place, t);
    assert n in place ==> TableOk(vm, place, n);
  }

  /** One level takes a page exactly when the table is missing. */
  lemma SupplyStep(vm: Vm, t: nat, i: nat, flags: nat)
    requires Sound(vm) && i < ENTRIES && Level(vm, t, i, flags).Some?
    ensures Supply(Level(vm, t, i, flags).value.0) == Supply(vm) - (if Next(vm.ram, t, i).None? then 1 else 0)
    ensures Sound(Level(vm, t, i, flags).value.0)
  {
    if Next(vm.ram, t, i).None? && vm.poolUsed + 4096 > POOL_SIZE {
      AllocFacts(vm.frames);
    }
  }

  lemma LevelStep(vm: Vm, place: Places, t: nat, i: nat, flags: nat, floor: int) returns (place1: Places)
    requires Shape(vm, place) && t in place && !place[t].PtAt? && i < ENTRIES && Clean(vm, floor)
    requires Level(vm, t, i, flags).Some? && floor <= Supply(Level(vm, t, i, flags).value.0)
    ensures var (vm1, n) := Level(vm, t, i, flags).value;
      && Advanced(vm, place, vm1, place1) && Clean(vm1, floor) && OnlyAt(vm, place, vm1, t, i)
      && n in place1 && Next(vm1.ram, t, i) == Some(n)
      && (place1[n] == Child(place[t], i) || Borrowed(vm1, place1, t, i))
      && (Next(vm.ram, t, i).None? ==> n !in place)
  {
    var (vm1, n) := Level(vm, t, i, flags).value;
    if Present(Read(vm.ram, t)[i]) {
      place1 := place;
      assert LinkOk(vm, place, t, i);
    } else {
      SupplyStep(vm, t, i, flags);
      NewLevel(vm, place, t, i, flags, floor);
      place1 := place[n := Child(place[t], i)];
      LevelShape(vm, place, vm1, t, i, n, place1);
      forall s, j: nat | s in place && j < ENTRIES && (s != t || j != i)
        ensures Read(vm1.ram, s)[j] == Read(vm.ram, s)[j]
      {
        if s != t { assert Read(vm1.ram, s) == Read(vm.ram, s); }
      }
    }
  }

  lemma LevelShape(vm: Vm, place: Places, vm1: Vm, t: nat, i: nat, n: nat, place1: Places)
    requires Shape(vm, place) && t in place && !place[t].PtAt? && i < ENTRIES
    requires Hung(vm.ram, vm1.ram, t, i, n) && n !in place
    requires Sound(vm1) && vm1.kernel == vm.kernel && IsPage(n) && n != 0 && !Available(vm1, n)
    requires forall s :: Available(vm1, s) ==> Available(vm, s)
    requires place1 == place[n := Child(place[t], i)]
    ensures Shape(vm1, place1) && Grown(vm, place, vm1, place1)
  {
    forall s | s in place1 ensures TableOk(vm1, place1, s) {
      if s == n {
        assert TableOk(vm, place, t);
        HungAt(vm, place, vm1.ram, t, i, n, t);
      } else {
        assert TableOk(vm, place, s);
        HungAt(vm, place, vm1.ram, t, i, n, s);
      }
    }
    forall s, j: nat | s in place1 && j < ENTRIES ensures LinkOk(vm1, place1, s, j) {
      HungLinks(vm, place, vm1, t, i, n, place1, s, j);
    }
    forall q, p | IsRoot(place, q) && ValidPath(p) ensures Entry(vm1.ram, q, p) == Entry(vm.ram, q, p) {
      HungEntry(vm, place, vm1.ram, t, i, n, q, p);
    }
    forall s, j: nat | s in place && j < ENTRIES && Next(vm.ram, s, j).Some?
      ensures Read(vm1.ram, s)[j] == Read(vm.ram, s)[j]
    {
      HungNext(vm.ram, vm1.ram, t, i, n, s, j);
    }
  }

  /** Where the root had no table, it now has none either, or one nobody knew. */
  ghost predicate RootGrows(vm: Vm, vm1: Vm, place: Places, r: nat, i4: nat)
    requires i4 < ENTRIES
  {
    Next(vm.ram, r, i4).None? ==> Next(vm1.ram, r, i4).None? || Next(vm1.ram, r, i4).value !in place
  }

  // --- the last level -------------------------------------------------------------------------

  /** q sees entry i of root r: it is r, or its own entry i leads to the same table. */
  predicate Shares(ram: Ram, q: nat, r: nat, i: nat)
    requires i < ENTRIES
  {
    q == r || (Next(ram, q, i).Some? && Next(ram, q, i) == Next(ram, r, i))
  }

  lemma LeafWalk(vm: Vm, place: Places, pt: nat, k: nat, e: nat, q: nat, p: Path)
    requires Shape(vm, place) && pt in place && place[pt].PtAt? && k < ENTRIES
    requires IsRoot(place, q) && ValidPath(p)
    ensures var ram1 := Write(vm.ram, pt, k, e);
      && Pdp(ram1, q, p) == Pdp(vm.ram, q, p)
      && Pd(ram1, q, p) == Pd(vm.ram, q, p)
      && Pt(ram1, q, p) == Pt(vm.ram, q, p)
      && Entry(ram1, q, p) == if Pt(vm.ram, q, p) == Some(pt) && p.i1 == k then Seen(e) else Entry(vm.ram, q, p)
  {
    Walk(vm, place, q, p);
  }

  lemma LeafShape(vm: Vm, place: Places, pt: nat, k: nat, e: nat)
    requires Shape(vm, place) && pt in place && place[pt].PtAt? && k < ENTRIES
    ensures Shape(vm.(ram := Write(vm.ram, pt, k, e)), place)
  {
    var vm1 := vm.(ram := Write(vm.ram, pt, k, e));
    forall s | s in place ensures TableOk(vm1, place, s) {
      assert TableOk(vm, place, s);
      var r := place[s].root;
      match place[s]
      case Root(_) =>
      case PdpAt(_, a) => LeafWalk(vm, place, pt, k, e, r, Path(a, 0, 0, 0));
      case PdAt(_, a, b) => LeafWalk(vm, place, pt, k, e, r, Path(a, b, 0, 0));
      case PtAt(_, a, b, c) => LeafWalk(vm, place, pt, k, e, r, Path(a, b, c, 0));
    }
    forall s, j: nat | s in place && j < ENTRIES ensures LinkOk(vm1, place, s, j) {
      assert LinkOk(vm, place, s, j);
    }
  }

  /** Two walks end in the same last-level table exactly when they are the same walk. */
  lemma SameTable(vm: Vm, place: Places, q: nat, p: Path, r: nat, o: Path)
    requires Shape(vm, place) && IsRoot(place, q) && IsRoot(place, r) && ValidPath(p) && ValidPath(o)
    requires Pt(vm.ram, r, o).Some?
    ensures Pt(vm.ram, q, p) == Pt(vm.ram, r, o) <==>
            p.i4 == o.i4 && p.i3 == o.i3 && p.i2 == o.i2 && Shares(vm.ram, q, r, p.i4)
  {
    Walk(vm, place, q, p);
    Walk(vm, place, r, o);
    if Pt(vm.ram, q, p) == Pt(vm.ram, r, o) {
      var a, b := Pdp(vm.ram, q, p).value, Pd(vm.ram, q, p).value;
      var a', b' := Pdp(vm.ram, r, o).value, Pd(vm.ram, r, o).value;
      assert LinkOk(vm, place, b, p.i2) && LinkOk(vm, place, b', o.i2);
      assert LinkOk(vm, place, a, p.i3) && LinkOk(vm, place, a', o.i3);
      assert place[a] == place[a'];
      assert TableOk(vm, place, a) && TableOk(vm, place, a');
    }
  }

  /** The effect of one call on the entries that the roots see: the path of va gets value e,
      for every root that shares it with r; nothing else changes. */
  ghost predicate Changed(vm: Vm, vm1: Vm, place: Places, r: nat, va: nat, e: nat) {
    forall q, p | IsRoot(place, q) && ValidPath(p) ::
      Entry(vm1.ram, q, p) ==
        if p == PathOf(va) && Shares(vm.ram, q, r, p.i4) then e else Entry(vm.ram, q, p)
  }

  /** Roots keep their present entries, and gain one only where a table was made for them. */
  ghost predicate RootsKept(vm: Vm, vm1: Vm, place: Places, r: nat, i4: nat)
    requires i4 < ENTRIES
  {
    forall q, j: nat | IsRoot(place, q) && j < ENTRIES && (q != r || j != i4 || Next(vm.ram, q, j).Some?) ::
      Read(vm1.ram, q)[j] == Read(vm.ram, q)[j]
  }

  lemma SetLeaf(vm: Vm, place: Places, r: nat, va: nat, e: nat)
    requires Shape(vm, place) && IsRoot(place, r) && Pt(vm.ram, r, PathOf(va)).Some? && Seen(e) == e
    ensures var vm1 := vm.(ram := Write(vm.ram, Pt(vm.ram, r, PathOf(va)).value, PathOf(va).i1, e));
      Shape(vm1, place) && Changed(vm, vm1, place, r, va, e)
      && (forall q | IsRoot(place, q) :: Read(vm1.ram, q) == Read(vm.ram, q))
  {
    var o := PathOf(va);
    Walk(vm, place, r, o);
    var pt := Pt(vm.ram, r, o).value;
    LeafShape(vm, place, pt, o.i1, e);
    forall q, p | IsRoot(place, q) && ValidPath(p)
      ensures Pt(vm.ram, q, p) == Some(pt) && p.i1 == o.i1 <==> p == o && Shares(vm.ram, q, r, p.i4)
      ensures var ram1 := Write(vm.ram, pt, o.i1, e);
        Entry(ram1, q, p) == if Pt(vm.ram, q, p) == Some(pt) && p.i1 == o.i1 then Seen(e) else Entry(vm.ram, q, p)
    {
      LeafWalk(vm, place, pt, o.i1, e, q, p);
      SameTable(vm, place, q, p, r, o);
    }
  }

  /** vmm_unmap clears the one entry, for all roots that share it. */
  lemma UnmapStep(vm: Vm, place: Places, r: nat, va: nat)
    requires Shape(vm, place) && IsRoot(place, r)
    ensures Shape(Unmap(vm, r, va), place) && Changed(vm, Unmap(vm, r, va), place, r, va, 0)
    ensures RootsKept(vm, Unmap(vm, r, va), place, r, PathOf(va).i4)
    ensures RootGrows(vm, Unmap(vm, r, va), place, r, PathOf(va).i4)
  {
    if Pt(vm.ram, r, PathOf(va)).Some? {
      SetLeaf(vm, place, r, va, 0);
    }
  }

  // --- vmm_map ----------------------------------------------------------------------------------

  /** The state of vmm_map just before it writes the leaf, and the table it writes to. */
  function Levels(vm: Vm, r: nat, va: nat, flags: nat): Option<(Vm, nat)> {
    var p := PathOf(va);
    match Level(vm, r, p.i4, flags)
    case None => None
    case Some((vm1, pdp)) =>
      match Level(vm1, pdp, p.i3, flags)
      case None => None
      case Some((vm2, pd)) => Level(vm2, pd, p.i2, flags)
  }

  lemma MapIsLevels(vm: Vm, r: nat, va: nat, phys: nat, flags: nat)
    ensures Map(vm, r, va, phys, flags) ==
            match Levels(vm, r, va, flags)
            case None => None
            case Some((vm3, pt)) =>
              Some(vm3.(ram := Write(vm3.ram, pt, PathOf(va).i1, LeafEntry(phys, flags))))
  {
  }

  /** The supply only falls through the levels. */
  lemma LevelsSupply(vm: Vm, r: nat, va: nat, flags: nat)
    requires Sound(vm) && Levels(vm, r, va, flags).Some?
    ensures var p := PathOf(va);
      && Level(vm, r, p.i4, flags).Some?
      && var (vm1, pdp) := Level(vm, r, p.i4, flags).value;
      && Level(vm1, pdp, p.i3, flags).Some?
      && var (vm2, pd) := Level(vm1, pdp, p.i3, flags).value;
      && Level(vm2, pd, p.i2, flags) == Levels(vm, r, va, flags)
      && Supply(vm) >= Supply(vm1) >= Supply(vm2) >= Supply(Levels(vm, r, va, flags).value.0)
      && Sound(Levels(vm, r, va, flags).value.0)
  {
    var p := PathOf(va);
    SupplyStep(vm, r, p.i4, flags);
    var (vm1, pdp) := Level(vm, r, p.i4, flags).value;
    SupplyStep(vm1, pdp, p.i3, flags);
    var (vm2, pd) := Level(vm1, pdp, p.i3, flags).value;
    SupplyStep(vm2, pd, p.i2, flags);
  }

  /** The second level, started at the table that the first one found. */
  lemma SecondLevel(vm: Vm, place: Places, r: nat, p: Path, flags: nat, floor: int) returns (place1: Places)
    requires Shape(vm, place) && IsRoot(place, r) && ValidPath(p) && Clean(vm, floor) && Pdp(vm.ram, r, p).Some?
    requires Level(vm, Pdp(vm.ram, r, p).value, p.i3, flags).Some?
    requires floor <= Supply(Level(vm, Pdp(vm.ram, r, p).value, p.i3, flags).value.0)
    ensures var pdp := Pdp(vm.ram, r, p).value; var (vm1, pd) := Level(vm, pdp, p.i3, flags).value;
      && pdp in place && place[pdp].PdpAt?
      && Advanced(vm, place, vm1, place1) && OnlyAt(vm, place, vm1, pdp, p.i3) && Clean(vm1, floor)
      && Pd(vm1.ram, r, p) == Some(pd)
  {
    Walk(vm, place, r, p);
    var pdp := Pdp(vm.ram, r, p).value;
    place1 := LevelStep(vm, place, pdp, p.i3, flags, floor);
    Follow(vm, place, Level(vm, pdp, p.i3, flags).value.0, r, p.i4);
  }

  /** The third level, started at the table that the second one found. */
  lemma ThirdLevel(vm: Vm, place: Places, r: nat, p: Path, flags: nat, floor: int) returns (place1: Places)
    requires Shape(vm, place) && IsRoot(place, r) && ValidPath(p) && Clean(vm, floor) && Pd(vm.ram, r, p).Some?
    requires Level(vm, Pd(vm.ram, r, p).value, p.i2, flags).Some?
    requires floor <= Supply(Level(vm, Pd(vm.ram, r, p).value, p.i2, flags).value.0)
    ensures var pd := Pd(vm.ram, r, p).value; var (vm1, pt) := Level(vm, pd, p.i2, flags).value;
      && pd in place && place[pd].PdAt?
      && Advanced(vm, place, vm1, place1) && OnlyAt(vm, place, vm1, pd, p.i2) && Clean(vm1, floor)
      && pt in place1 && place1[pt].PtAt? && Next(vm1.ram, pd, p.i2) == Some(pt)
  {
    Walk(vm, place, r, p);
    place1 := LevelStep(vm, place, Pd(vm.ram, r, p).value, p.i2, flags, floor);
  }

  /** The states between the levels of vmm_map are well-formed, and each level starts at the
      table its predecessor found. */
  lemma LevelStates(vm: Vm, place: Places, r: nat, va: nat, flags: nat, floor: int)
    returns (vm1: Vm, place1: Places, vm2: Vm, place2: Places, place3: Places)
    requires Shape(vm, place) && IsRoot(place, r) && Clean(vm, floor) && Levels(vm, r, va, flags).Some?
    requires floor <= Supply(Levels(vm, r, va, flags).value.0)
    ensures var p := PathOf(va);
      && Level(vm, r, p.i4, flags).Some? && Level(vm, r, p.i4, flags).value.0 == vm1
      && Advanced(vm, place, vm1, place1) && OnlyAt(vm, place, vm1, r, p.i4) && Clean(vm1, floor)
      && Pdp(vm1.ram, r, p).Some?
      && (Next(vm.ram, r, p.i4).None? ==> Next(vm1.ram, r, p.i4).value !in place)
    ensures var p := PathOf(va); var pdp := Pdp(vm1.ram, r, p).value;
      && Level(vm1, pdp, p.i3, flags).Some? && Level(vm1, pdp, p.i3, flags).value.0 == vm2
      && pdp in place1 && place1[pdp].PdpAt?
      && Advanced(vm1, place1, vm2, place2) && OnlyAt(vm1, place1, vm2, pdp, p.i3) && Clean(vm2, floor)
      && floor <= Supply(vm2) <= Supply(vm1) && Pd(vm2.ram, r, p).Some?
    ensures var p := PathOf(va); var pd := Pd(vm2.ram, r, p).value; var (vm3, pt) := Levels(vm, r, va, flags).value;
      && Level(vm2, pd, p.i2, flags) == Some((vm3, pt))
      && pd in place2 && place2[pd].PdAt?
      && Advanced(vm2, place2, vm3, place3) && OnlyAt(vm2, place2, vm3, pd, p.i2) && Clean(vm3, floor)
      && pt in place3 && place3[pt].PtAt? && Next(vm3.ram, pd, p.i2) == Some(pt)
  {
    var p := PathOf(va);
    LevelsSupply(vm, r, va, flags);
    place1 := LevelStep(vm, place, r, p.i4, flags, floor);
    vm1 := Level(vm, r, p.i4, flags).value.0;
    place2 := SecondLevel(vm1, place1, r, p, flags, floor);
    vm2 := Level(vm1, Pdp(vm1.ram, r, p).value, p.i3, flags).value.0;
    place3 := ThirdLevel(vm2, place2, r, p, flags, floor);
  }

  lemma LevelsStep(vm: Vm, place: Places, r: nat, va: nat, flags: nat, floor: int) returns (place3: Places)
    requires Shape(vm, place) && IsRoot(place, r) && Clean(vm, floor) && Levels(vm, r, va, flags).Some?
    requires floor <= Supply(Levels(vm, r, va, flags).value.0)
    ensures var (vm3, pt) := Levels(vm, r, va, flags).value; var p := PathOf(va);
      && Advanced(vm, place, vm3, place3) && Clean(vm3, floor)
      && Pt(vm3.ram, r, p) == Some(pt)
      && RootsKept(vm, vm3, place, r, p.i4)
      && (Next(vm.ram, r, p.i4).None? ==> Next(vm3.ram, r, p.i4).Some? && Next(vm3.ram, r, p.i4).value !in place)
  {
    var p := PathOf(va);
    var vm3 := Levels(vm, r, va, flags).value.0;
    var vm1, place1, vm2, place2, last := LevelStates(vm, place, r, va, flags, floor);
    place3 := last;
    AdvancedTwice(vm, place, vm1, place1, vm2, place2);
    AdvancedTwice(vm, place, vm2, place2, vm3, place3);
    LevelsReach(vm1, place1, vm2, place2, vm3, r, p);
    LevelsRoots(vm, place, vm1, place1, vm2, place2, vm3, r, p);
  }

  /** The walk of the path follows the tables of the three levels. */
  lemma LevelsReach(vm1: Vm, place1: Places, vm2: Vm, place2: Places, vm3: Vm, r: nat, p: Path)
    requires ValidPath(p) && IsRoot(place1, r) && IsRoot(place2, r) && Pdp(vm1.ram, r, p).Some?
    requires Pdp(vm1.ram, r, p).value in place1 && Pdp(vm1.ram, r, p).value in place2 && Pd(vm2.ram, r, p).Some?
    requires forall s, j: nat | s in place1 && j < ENTRIES && Next(vm1.ram, s, j).Some? ::
      Read(vm2.ram, s)[j] == Read(vm1.ram, s)[j]
    requires forall s, j: nat | s in place2 && j < ENTRIES && Next(vm2.ram, s, j).Some? ::
      Read(vm3.ram, s)[j] == Read(vm2.ram, s)[j]
    ensures Pdp(vm2.ram, r, p) == Pdp(vm1.ram, r, p) == Pdp(vm3.ram, r, p) && Pd(vm3.ram, r, p) == Pd(vm2.ram, r, p)
  {
    Follow(vm1, place1, vm2, r, p.i4);
    Follow(vm2, place2, vm3, r, p.i4);
    Follow(vm2, place2, vm3, Pdp(vm1.ram, r, p).value, p.i3);
  }

  lemma LevelsRoots(vm: Vm, place: Places, vm1: Vm, place1: Places, vm2: Vm, place2: Places, vm3: Vm, r: nat, p: Path)
    requires ValidPath(p) && IsRoot(place, r) && Pdp(vm1.ram, r, p).Some? && Pd(vm2.ram, r, p).Some?
    requires Grown(vm, place, vm1, place1) && Grown(vm1, place1, vm2, place2)
    requires Pdp(vm1.ram, r, p).value in place1 && !place1[Pdp(vm1.ram, r, p).value].Root?
    requires Pd(vm2.ram, r, p).value in place2 && !place2[Pd(vm2.ram, r, p).value].Root?
    requires OnlyAt(vm, place, vm1, r, p.i4) && OnlyAt(vm1, place1, vm2, Pdp(vm1.ram, r, p).value, p.i3)
    requires OnlyAt(vm2, place2, vm3, Pd(vm2.ram, r, p).value, p.i2)
    ensures RootsKept(vm, vm3, place, r, p.i4) && Read(vm3.ram, r) == Read(vm1.ram, r)
  {
    forall q, j: nat | IsRoot(place, q) && j < ENTRIES ensures Read(vm3.ram, q)[j] == Read(vm1.ram, q)[j] {
      assert IsRoot(place1, q) && IsRoot(place2, q);
      assert Read(vm2.ram, q)[j] == Read(vm1.ram, q)[j];
      assert Read(vm3.ram, q)[j] == Read(vm2.ram, q)[j];
    }
  }

  /** A present entry leads where it did. */
  lemma Follow(vm: Vm, place: Places, vm1: Vm, s: nat, j: nat)
    requires j < ENTRIES && s in place
    requires forall s, j: nat | s in place && j < ENTRIES && Next(vm.ram, s, j).Some? ::
      Read(vm1.ram, s)[j] == Read(vm.ram, s)[j]
    ensures Next(vm.ram, s, j).Some? ==> Next(vm1.ram, s, j) == Next(vm.ram, s, j)
  {
  }

  lemma MapSupply(vm: Vm, r: nat, va: nat, phys: nat, flags: nat)
    requires Sound(vm) && Map(vm, r, va, phys, flags).Some?
    ensures var vm1 := Map(vm, r, va, phys, flags).value; Sound(vm1) && Supply(vm1) <= Supply(vm)
  {
    MapIsLevels(vm, r, va, phys, flags);
    LevelsSupply(vm, r, va, flags);
  }

  /** Frames are only taken, one after the other. */
  predicate Shrunk(f: Frames, g: Frames) {
    g.base == f.base && g.total == f.total && g.free <= f.free
  }

  lemma LevelShrinks(vm: Vm, t: nat, i: nat, flags: nat)
    requires i < ENTRIES && Level(vm, t, i, flags).Some?
    ensures Shrunk(vm.frames, Level(vm, t, i, flags).value.0.frames)
  {
  }

  lemma MapShrinks(vm: Vm, r: nat, va: nat, phys: nat, flags: nat)
    requires Map(vm, r, va, phys, flags).Some?
    ensures Shrunk(vm.frames, Map(vm, r, va, phys, flags).value.frames)
  {
    hide Level;
    var p := PathOf(va);
    LevelShrinks(vm, r, p.i4, flags);
    var (vm1, pdp) := Level(vm, r, p.i4, flags).value;
    LevelShrinks(vm1, pdp, p.i3, flags);
    var (vm2, pd) := Level(vm1, pdp, p.i3, flags).value;
    LevelShrinks(vm2, pd, p.i2, flags);
  }

  /** Whether a root shares the path is decided before the call. */
  lemma SharesKept(vm: Vm, vm3: Vm, place: Places, r: nat, i4: nat, q: nat)
    requires Shape(vm, place) && IsRoot(place, r) && IsRoot(place, q) && i4 < ENTRIES
    requires RootsKept(vm, vm3, place, r, i4)
    requires Next(vm.ram, r, i4).None? ==> Next(vm3.ram, r, i4).Some? && Next(vm3.ram, r, i4).value !in place
    ensures Shares(vm3.ram, q, r, i4) <==> Shares(vm.ram, q, r, i4)
  {
    if q != r {
      assert Read(vm3.ram, q)[i4] == Read(vm.ram, q)[i4];
      assert LinkOk(vm, place, q, i4);
      if Next(vm.ram, r, i4).Some? {
        assert Read(vm3.ram, r)[i4] == Read(vm.ram, r)[i4];
      }
    }
  }

  /** vmm_map sets the one entry, for all roots that share it, and no other. */
  lemma MapStep(vm: Vm, place: Places, r: nat, va: nat, phys: nat, flags: nat, floor: int) returns (place1: Places)
    requires Shape(vm, place) && IsRoot(place, r) && Clean(vm, floor) && Map(vm, r, va, phys, flags).Some?
    requires floor <= Supply(Map(vm, r, va, phys, flags).value)
    ensures var vm1 := Map(vm, r, va, phys, flags).value;
      && Shape(vm1, place1) && vm1.kernel == vm.kernel && Clean(vm1, floor)
      && (forall s | s in place :: s in place1 && place1[s] == place[s])
      && Took(vm, place, vm1, place1)
      && Changed(vm, vm1, place, r, va, LeafEntry(phys, flags))
      && RootsKept(vm, vm1, place, r, PathOf(va).i4)
      && RootGrows(vm, vm1, place, r, PathOf(va).i4)
  {
    MapIsLevels(vm, r, va, phys, flags);
    place1 := LevelsStep(vm, place, r, va, flags, floor);
    var (vm3, pt) := Levels(vm, r, va, flags).value;
    LeafFacts(phys, flags);
    MapLeaf(vm, place, vm3, place1, r, va, LeafEntry(phys, flags), floor);
  }

  /** The last write of vmm_map, after the tables are there. */
  lemma MapLeaf(vm: Vm, place: Places, vm3: Vm, place3: Places, r: nat, va: nat, e: nat, floor: int)
    requires Shape(vm, place) && IsRoot(place, r) && Advanced(vm, place, vm3, place3) && Clean(vm3, floor)
    requires Pt(vm3.ram, r, PathOf(va)).Some? && RootsKept(vm, vm3, place, r, PathOf(va).i4) && Seen(e) == e
    requires var i4 := PathOf(va).i4;
      Next(vm.ram, r, i4).None? ==> Next(vm3.ram, r, i4).Some? && Next(vm3.ram, r, i4).value !in place
    ensures var vm1 := vm3.(ram := Write(vm3.ram, Pt(vm3.ram, r, PathOf(va)).value, PathOf(va).i1, e));
      && Shape(vm1, place3) && Clean(vm1, floor) && Took(vm, place, vm1, place3)
      && Changed(vm, vm1, place, r, va, e)
      && RootsKept(vm, vm1, place, r, PathOf(va).i4)
      && RootGrows(vm, vm1, place, r, PathOf(va).i4)
  {
    hide LinkOk, TableOk, Clean, Took;
    var p := PathOf(va);
    SetLeaf(vm3, place3, r, va, e);
    LeafTook(vm, place, vm3, place3, r, p, e, floor);
    forall q | IsRoot(place, q) ensures Shares(vm3.ram, q, r, p.i4) <==> Shares(vm.ram, q, r, p.i4) {
      SharesKept(vm, vm3, place, r, p.i4, q);
    }
  }

  lemma LeafTook(vm: Vm, place: Places, vm3: Vm, place3: Places, r: nat, p: Path, e: nat, floor: int)
    requires Shape(vm3, place3) && IsRoot(place3, r) && Took(vm, place, vm3, place3) && Clean(vm3, floor)
    requires ValidPath(p) && Pt(vm3.ram, r, p).Some?
    ensures var vm1 := vm3.(ram := Write(vm3.ram, Pt(vm3.ram, r, p).value, p.i1, e));
      Clean(vm1, floor) && Took(vm, place, vm1, place3)
  {
    hide LinkOk;
    var pt := Pt(vm3.ram, r, p).value;
    Walk(vm3, place3, r, p);
    assert TableOk(vm3, place3, pt);
    WriteKeepsClean(vm3, pt, p.i1, e, floor);
  }
}
