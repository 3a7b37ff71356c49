/** How many tables the address spaces cost. */
module TableEconomy {
  import opened Options
  import opened Entries
  import opened PageTables
  import opened AddressSpaces
  import opened AddressSpaceRuns

  predicate HasPdp(ram: Ram, r: nat, a: nat)
    requires a < ENTRIES
  {
    Pdp(ram, r, Path(a, 0, 0, 0)).Some?
  }

  predicate HasPd(ram: Ram, r: nat, a: nat, b: nat)
    requires a < ENTRIES && b < ENTRIES
  {
    Pd(ram, r, Path(a, b, 0, 0)).Some?
  }

  predicate HasPt(ram: Ram, r: nat, a: nat, b: nat, c: nat)
    requires a < ENTRIES && b < ENTRIES && c < ENTRIES
  {
    Pt(ram, r, Path(a, b, c, 0)).Some?
  }

  /** The 9-, 18- and 27-bit prefixes for which root r has a table. */
  ghost function Pdps(ram: Ram, r: nat): set<nat> {
    set a: nat | a < ENTRIES && HasPdp(ram, r, a)
  }

  ghost function Pds(ram: Ram, r: nat): set<(nat, nat)> {
    set a: nat, b: nat | a < ENTRIES && b < ENTRIES && HasPd(ram, r, a, b) :: (a, b)
  }

  ghost function Pts(ram: Ram, r: nat): set<(nat, nat, nat)> {
    set a: nat, b: nat, c: nat | a < ENTRIES && b < ENTRIES && c < ENTRIES && HasPt(ram, r, a, b, c) :: (a, b, c)
  }

  ghost function Tables(ram: Ram, r: nat): nat {
    |Pdps(ram, r)| + |Pds(ram, r)| + |Pts(ram, r)|
  }

  // --- one level ----------------------------------------------------------------------------

  /** Which walks from a root get longer when a blank table is hung below entry i of t. */
  lemma HungWalk(vm: Vm, place: Places, ram1: Ram, t: nat, i: nat, n: nat, q: nat, p: Path)
    requires Shape(vm, place) && i < ENTRIES && Hung(vm.ram, ram1, t, i, n) && n !in place
    requires t in place && !place[t].PtAt? && IsRoot(place, q) && ValidPath(p)
    ensures Pdp(ram1, q, p).Some? <==> Pdp(vm.ram, q, p).Some? || (q == t && p.i4 == i)
    ensures Pd(ram1, q, p).Some? <==> Pd(vm.ram, q, p).Some? || (Pdp(vm.ram, q, p) == Some(t) && p.i3 == i)
    ensures Pt(ram1, q, p).Some? <==> Pt(vm.ram, q, p).Some? || (Pd(vm.ram, q, p) == Some(t) && p.i2 == i)
  {
    Walk(vm, place, q, p);
    HungNext(vm.ram, ram1, t, i, n, q, p.i4);
    HungNext(vm.ram, ram1, t, i, n, q, p.i3);
    HungNext(vm.ram, ram1, t, i, n, q, p.i2);
    if Pdp(vm.ram, q, p).Some? {
      HungNext(vm.ram, ram1, t, i, n, Pdp(vm.ram, q, p).value, p.i3);
      if Pd(vm.ram, q, p).Some? {
        HungNext(vm.ram, ram1, t, i, n, Pd(vm.ram, q, p).value, p.i2);
      }
    }
  }

  /** Walks of root r after Level has run on the table that path p reaches at some depth:
      the prefix of p one longer than that depth has a table now, nothing else changed. */
  ghost predicate Longer(ram: Ram, ram1: Ram, r: nat, p: Path, depth: nat)
    requires ValidPath(p)
  {
    && (forall a | 0 <= a < ENTRIES :: HasPdp(ram1, r, a) <==> HasPdp(ram, r, a) || (depth == 0 && a == p.i4))
    && (forall a, b | 0 <= a < ENTRIES && 0 <= b < ENTRIES ::
          HasPd(ram1, r, a, b) <==> HasPd(ram, r, a, b) || (depth == 1 && a == p.i4 && b == p.i3))
    && (forall a, b, c | 0 <= a < ENTRIES && 0 <= b < ENTRIES && 0 <= c < ENTRIES ::
          HasPt(ram1, r, a, b, c) <==> HasPt(ram, r, a, b, c) || (depth == 2 && a == p.i4 && b == p.i3 && c == p.i2))
  }

  function Reached(ram: Ram, r: nat, p: Path, depth: nat): Option<nat>
    requires ValidPath(p) && depth < 3
  {
    if depth == 0 then Some(r) else if depth == 1 then Pdp(ram, r, p) else Pd(ram, r, p)
  }

  function IndexAt(p: Path, depth: nat): nat {
    if depth == 0 then p.i4 else if depth == 1 then p.i3 else p.i2
  }

  lemma PathsPart(vm: Vm, place: Places, r: nat, p: Path, o: Path)
    requires Shape(vm, place) && IsRoot(place, r) && ValidPath(p) && ValidPath(o)
    ensures Pdp(vm.ram, r, p).Some? ==> (Pdp(vm.ram, r, o) == Pdp(vm.ram, r, p) <==> o.i4 == p.i4)
    ensures Pd(vm.ram, r, p).Some? ==> (Pd(vm.ram, r, o) == Pd(vm.ram, r, p) <==> o.i4 == p.i4 && o.i3 == p.i3)
    ensures Pdp(vm.ram, r, o) != Some(r) && Pd(vm.ram, r, o) != Some(r)
    ensures Pdp(vm.ram, r, p).Some? ==> Pd(vm.ram, r, o) != Pdp(vm.ram, r, p)
    ensures Pd(vm.ram, r, p).Some? ==> Pdp(vm.ram, r, o) != Pd(vm.ram, r, p) && Pd(vm.ram, r, p) != Some(r)
  {
    Walk(vm, place, r, p);
    Walk(vm, place, r, o);
  }

  lemma LongerStep(vm: Vm, place: Places, r: nat, p: Path, depth: nat, flags: nat, floor: int)
    requires Shape(vm, place) && IsRoot(place, r) && ValidPath(p) && depth < 3 && Clean(vm, floor)
    requires Reached(vm.ram, r, p, depth).Some?
    requires Level(vm, Reached(vm.ram, r, p, depth).value, IndexAt(p, depth), flags).Some?
    requires floor <= Supply(Level(vm, Reached(vm.ram, r, p, depth).value, IndexAt(p, depth), flags).value.0)
    ensures Longer(vm.ram, Level(vm, Reached(vm.ram, r, p, depth).value, IndexAt(p, depth),
      flags).value.0.ram, r, p, depth)
  {
    var t, i := Reached(vm.ram, r, p, depth).value, IndexAt(p, depth);
    var (vm1, n) := Level(vm, t, i, flags).value;
    Walk(vm, place, r, p);
    if Present(Read(vm.ram, t)[i]) {
      forall o | ValidPath(o) ensures SameWalk(vm.ram, r, p, o, depth) {
        PathsPart(vm, place, r, p, o);
      }
      LongerSame(vm.ram, r, p, depth);
    } else {
      SupplyStep(vm, t, i, flags);
      NewLevel(vm, place, t, i, flags, floor);
      forall o | ValidPath(o) ensures LongerWalk(vm.ram, vm1.ram, r, p, o, depth) {
        PathsPart(vm, place, r, p, o);
        HungWalk(vm, place, vm1.ram, t, i, n, r, o);
      }
      LongerAll(vm.ram, vm1.ram, r, p, depth);
    }
  }

  ghost predicate LongerWalk(ram: Ram, ram1: Ram, r: nat, p: Path, o: Path, depth: nat)
    requires ValidPath(o)
  {
    && (Pdp(ram1, r, o).Some? <==> Pdp(ram, r, o).Some? || (depth == 0 && o.i4 == p.i4))
    && (Pd(ram1, r, o).Some? <==> Pd(ram, r, o).Some? || (depth == 1 && o.i4 == p.i4 && o.i3 == p.i3))
    && (Pt(ram1, r, o).Some? <==> Pt(ram, r, o).Some? || (depth == 2 && o.i4 == p.i4 && o.i3 == p.i3 && o.i2 == p.i2))
  }

  ghost predicate SameWalk(ram: Ram, r: nat, p: Path, o: Path, depth: nat)
    requires ValidPath(o)
  {
    LongerWalk(ram, ram, r, p, o, depth)
  }

  lemma LongerSame(ram: Ram, r: nat, p: Path, depth: nat)
    requires ValidPath(p) && forall o | ValidPath(o) :: SameWalk(ram, r, p, o, depth)
    ensures Longer(ram, ram, r, p, depth)
  {
    forall o | ValidPath(o) ensures LongerWalk(ram, ram, r, p, o, depth) { assert SameWalk(ram, r, p, o, depth); }
    LongerAll(ram, ram, r, p, depth);
  }

  lemma LongerAll(ram: Ram, ram1: Ram, r: nat, p: Path, depth: nat)
    requires ValidPath(p) && forall o | ValidPath(o) :: LongerWalk(ram, ram1, r, p, o, depth)
    ensures Longer(ram, ram1, r, p, depth)
  {
    forall a | 0 <= a < ENTRIES
      ensures HasPdp(ram1, r, a) <==> HasPdp(ram, r, a) || (depth == 0 && a == p.i4)
    {
      assert LongerWalk(ram, ram1, r, p, Path(a, 0, 0, 0), depth);
    }
    forall a, b | 0 <= a < ENTRIES && 0 <= b < ENTRIES
      ensures HasPd(ram1, r, a, b) <==> HasPd(ram, r, a, b) || (depth == 1 && a == p.i4 && b == p.i3)
    {
      assert LongerWalk(ram, ram1, r, p, Path(a, b, 0, 0), depth);
    }
    forall a, b, c | 0 <= a < ENTRIES && 0 <= b < ENTRIES && 0 <= c < ENTRIES
      ensures HasPt(ram1, r, a, b, c) <==> HasPt(ram, r, a, b, c) || (depth == 2 && a == p.i4 && b == p.i3 && c == p.i2)
    {
      assert LongerWalk(ram, ram1, r, p, Path(a, b, c, 0), depth);
    }
  }

  // --- counting -------------------------------------------------------------------------------

  /** The sets of prefixes of one state, extended by those of path p down to a depth. */
  ghost predicate Extended(ram: Ram, ram1: Ram, r: nat, p: Path, d0: bool, d1: bool, d2: bool) {
    && Pdps(ram1, r) == Pdps(ram, r) + (if d0 then {p.i4} else {})
    && Pds(ram1, r) == Pds(ram, r) + (if d1 then {(p.i4, p.i3)} else {})
    && Pts(ram1, r) == Pts(ram, r) + (if d2 then {(p.i4, p.i3, p.i2)} else {})
  }

  lemma LongerExtends(ram: Ram, ram1: Ram, r: nat, p: Path, depth: nat)
    requires ValidPath(p) && depth < 3 && Longer(ram, ram1, r, p, depth)
    ensures Extended(ram, ram1, r, p, depth == 0, depth == 1, depth == 2)
  {
    assert Pdps(ram1, r) == Pdps(ram, r) + (if depth == 0 then {p.i4} else {});
    assert Pds(ram1, r) == Pds(ram, r) + (if depth == 1 then {(p.i4, p.i3)} else {});
    assert Pts(ram1, r) == Pts(ram, r) + (if depth == 2 then {(p.i4, p.i3, p.i2)} else {});
  }

  /** The entry at depth d of path p is absent exactly when the longer prefix has no table. */
  lemma AbsentPrefix(ram: Ram, r: nat, p: Path, depth: nat)
    requires ValidPath(p) && depth < 3 && Reached(ram, r, p, depth).Some?
    ensures Next(ram, Reached(ram, r, p, depth).value, IndexAt(p, depth)).None? <==>
      if depth == 0 then p.i4 !in Pdps(ram, r)
      else if depth == 1 then (p.i4, p.i3) !in Pds(ram, r)
      else (p.i4, p.i3, p.i2) !in Pts(ram, r)
  {
    assert HasPdp(ram, r, p.i4) <==> Pdp(ram, r, p).Some?;
    assert HasPd(ram, r, p.i4, p.i3) <==> Pd(ram, r, p).Some?;
    assert HasPt(ram, r, p.i4, p.i3, p.i2) <==> Pt(ram, r, p).Some?;
  }

  lemma OneMore(ram: Ram, ram1: Ram, r: nat, p: Path, depth: nat)
    requires ValidPath(p) && depth < 3 && Reached(ram, r, p, depth).Some?
    requires Extended(ram, ram1, r, p, depth == 0, depth == 1, depth == 2)
    ensures var missing := Next(ram, Reached(ram, r, p, depth).value, IndexAt(p, depth)).None?;
      Tables(ram1, r) - Tables(ram, r) == if missing then 1 else 0
  {
    AbsentPrefix(ram, r, p, depth);
    hide Pdps, Pds, Pts, Next;
    match depth {
      case 0 => AddOne(Pdps(ram, r), p.i4);
      case 1 => AddOne(Pds(ram, r), (p.i4, p.i3));
      case 2 => AddOne(Pts(ram, r), (p.i4, p.i3, p.i2));
    }
  }

  lemma AddOne<T>(s: set<T>, x: T)
    ensures |s + {x}| == if x in s then |s| else |s| + 1
    ensures s + {} == s
  {
    if x in s { assert s + {x} == s; }
  }

  /** One level takes a page from the supply exactly when it adds a prefix. */
  lemma LevelEconomy(vm: Vm, place: Places, r: nat, p: Path, depth: nat, flags: nat, floor: int)
    requires Shape(vm, place) && IsRoot(place, r) && ValidPath(p) && depth < 3 && Clean(vm, floor)
    requires Reached(vm.ram, r, p, depth).Some?
    requires Level(vm, Reached(vm.ram, r, p, depth).value, IndexAt(p, depth), flags).Some?
    requires floor <= Supply(Level(vm, Reached(vm.ram, r, p, depth).value, IndexAt(p, depth), flags).value.0)
    ensures var vm1 := Level(vm, Reached(vm.ram, r, p, depth).value, IndexAt(p, depth), flags).value.0;
      && Extended(vm.ram, vm1.ram, r, p, depth == 0, depth == 1, depth == 2)
      && Supply(vm) - Supply(vm1) == Tables(vm1.ram, r) - Tables(vm.ram, r)
  {
    var t, i := Reached(vm.ram, r, p, depth).value, IndexAt(p, depth);
    var vm1 := Level(vm, t, i, flags).value.0;
    LongerStep(vm, place, r, p, depth, flags, floor);
    LongerExtends(vm.ram, vm1.ram, r, p, depth);
    SupplyStep(vm, t, i, flags);
    hide Shape, Clean, Level, Pdps, Pds, Pts, Longer, Supply, Extended, Tables;
    OneMore(vm.ram, vm1.ram, r, p, depth);
  }

  lemma LeafKeepsPrefixes(vm: Vm, place: Places, pt: nat, i1: nat, e: nat, r: nat)
    requires Shape(vm, place) && pt in place && place[pt].PtAt? && i1 < ENTRIES && IsRoot(place, r)
    ensures var ram1 := Write(vm.ram, pt, i1, e);
      Pdps(ram1, r) == Pdps(vm.ram, r) && Pds(ram1, r) == Pds(vm.ram, r) && Pts(ram1, r) == Pts(vm.ram, r)
  {
    var ram1 := Write(vm.ram, pt, i1, e);
    forall a | 0 <= a < ENTRIES ensures HasPdp(ram1, r, a) <==> HasPdp(vm.ram, r, a) {
      LeafWalk(vm, place, pt, i1, e, r, Path(a, 0, 0, 0));
    }
    forall a, b | 0 <= a < ENTRIES && 0 <= b < ENTRIES ensures HasPd(ram1, r, a, b) <==> HasPd(vm.ram, r, a, b) {
      LeafWalk(vm, place, pt, i1, e, r, Path(a, b, 0, 0));
    }
    forall a, b, c | 0 <= a < ENTRIES && 0 <= b < ENTRIES && 0 <= c < ENTRIES
      ensures HasPt(ram1, r, a, b, c) <==> HasPt(vm.ram, r, a, b, c)
    {
      LeafWalk(vm, place, pt, i1, e, r, Path(a, b, c, 0));
    }
  }

  lemma UnionSteps<T>(s: set<T>, s1: set<T>, s2: set<T>, s3: set<T>, x: set<T>)
    requires (s1 == s + x && s2 == s1 + {} && s3 == s2 + {}) || (s1 == s + {} && s2 == s1 + x && s3 == s2 + {})
          || (s1 == s + {} && s2 == s1 + {} && s3 == s2 + x)
    ensures s3 == s + x
  {
  }

  lemma ExtendedThrice(ram: Ram, ram1: Ram, ram2: Ram, ram3: Ram, ram4: Ram, r: nat, p: Path)
    requires Extended(ram, ram1, r, p, true, false, false) && Extended(ram1, ram2, r, p, false, true, false)
    requires Extended(ram2, ram3, r, p, false, false, true)
    requires Pdps(ram4, r) == Pdps(ram3, r) && Pds(ram4, r) == Pds(ram3, r) && Pts(ram4, r) == Pts(ram3, r)
    ensures Extended(ram, ram4, r, p, true, true, true) && Tables(ram4, r) == Tables(ram3, r)
  {
    UnionSteps(Pdps(ram, r), Pdps(ram1, r), Pdps(ram2, r), Pdps(ram3, r), {p.i4});
    UnionSteps(Pds(ram, r), Pds(ram1, r), Pds(ram2, r), Pds(ram3, r), {(p.i4, p.i3)});
    UnionSteps(Pts(ram, r), Pts(ram1, r), Pts(ram2, r), Pts(ram3, r), {(p.i4, p.i3, p.i2)});
  }

  /** vmm_map adds the three prefixes of its address and takes one page for each new one;
      mapping the same page again takes none. */
  lemma MapEconomy(vm: Vm, place: Places, r: nat, va: nat, phys: nat, flags: nat, floor: int)
    requires Shape(vm, place) && IsRoot(place, r) && Clean(vm, floor) && Map(vm, r, va, phys, flags).Some?
    requires floor <= Supply(Map(vm, r, va, phys, flags).value)
    ensures var vm1 := Map(vm, r, va, phys, flags).value;
      && Extended(vm.ram, vm1.ram, r, PathOf(va), true, true, true)
      && Supply(vm) - Supply(vm1) == Tables(vm1.ram, r) - Tables(vm.ram, r)
  {
    var p := PathOf(va);
    MapIsLevels(vm, r, va, phys, flags);
    var vm1, place1, vm2, place2, place3 := LevelStates(vm, place, r, va, flags, floor);
    var (vm3, pt) := Levels(vm, r, va, flags).value;
    LevelEconomy(vm, place, r, p, 0, flags, floor);
    LevelEconomy(vm1, place1, r, p, 1, flags, floor);
    LevelEconomy(vm2, place2, r, p, 2, flags, floor);
    LeafKeepsPrefixes(vm3, place3, pt, p.i1, LeafEntry(phys, flags), r);
    ExtendedThrice(vm.ram, vm1.ram, vm2.ram, vm3.ram, Map(vm, r, va, phys, flags).value.ram, r, p);
  }

  lemma UnmapEconomy(vm: Vm, place: Places, r: nat, va: nat)
    requires Shape(vm, place) && IsRoot(place, r)
    ensures var vm1 := Unmap(vm, r, va);
      && Extended(vm.ram, vm1.ram, r, PathOf(va), false, false, false) && Supply(vm1) == Supply(vm)
  {
    Walk(vm, place, r, PathOf(va));
    if Pt(vm.ram, r, PathOf(va)).Some? {
      LeafKeepsPrefixes(vm, place, Pt(vm.ram, r, PathOf(va)).value, PathOf(va).i1, 0, r);
    }
  }

  /** The prefixes of the addresses a run maps. */
  ghost function Prefix9(calls: seq<Call>): set<nat> {
    set c | c in calls && c.MapCall? :: PathOf(c.va).i4
  }

  ghost function Prefix18(calls: seq<Call>): set<(nat, nat)> {
    set c | c in calls && c.MapCall? :: (PathOf(c.va).i4, PathOf(c.va).i3)
  }

  ghost function Prefix27(calls: seq<Call>): set<(nat, nat, nat)> {
    set c | c in calls && c.MapCall? :: (PathOf(c.va).i4, PathOf(c.va).i3, PathOf(c.va).i2)
  }

  lemma PrefixStep(calls: seq<Call>)
    requires calls != []
    ensures var c := calls[0]; var p := PathOf(c.va);
      && Prefix9(calls) == (if c.MapCall? then {p.i4} else {}) + Prefix9(calls[1..])
      && Prefix18(calls) == (if c.MapCall? then {(p.i4, p.i3)} else {}) + Prefix18(calls[1..])
      && Prefix27(calls) == (if c.MapCall? then {(p.i4, p.i3, p.i2)} else {}) + Prefix27(calls[1..])
  {
    var rest := calls[1..];
    forall c ensures c in calls <==> c == calls[0] || c in rest {
      if c in calls && c != calls[0] {
        var i :| 0 <= i < |calls| && calls[i] == c;
        assert rest[i - 1] == c;
      }
    }
  }

  /** From one state to another, root r gained exactly the prefixes that the calls map. */
  ghost predicate Gained(ram: Ram, ram1: Ram, r: nat, calls: seq<Call>) {
    && Pdps(ram1, r) == Pdps(ram, r) + Prefix9(calls)
    && Pds(ram1, r) == Pds(ram, r) + Prefix18(calls)
    && Pts(ram1, r) == Pts(ram, r) + Prefix27(calls)
  }

  lemma GainedCons(ram: Ram, ram1: Ram, ram2: Ram, r: nat, calls: seq<Call>)
    requires calls != [] && Gained(ram1, ram2, r, calls[1..])
    requires var m := calls[0].MapCall?; Extended(ram, ram1, r, PathOf(calls[0].va), m, m, m)
    ensures Gained(ram, ram2, r, calls)
  {
    PrefixStep(calls);
    var p, m := PathOf(calls[0].va), calls[0].MapCall?;
    UnionAssoc(Pdps(ram, r), if m then {p.i4} else {}, Prefix9(calls[1..]));
    UnionAssoc(Pds(ram, r), if m then {(p.i4, p.i3)} else {}, Prefix18(calls[1..]));
    UnionAssoc(Pts(ram, r), if m then {(p.i4, p.i3, p.i2)} else {}, Prefix27(calls[1..]));
  }

  lemma UnionAssoc<T>(s: set<T>, x: set<T>, y: set<T>)
    ensures s + x + y == s + (x + y)
  {
  }

  /** The tables that root r gained between two states were each paid for with one page. */
  ghost predicate Paid(vm: Vm, vm1: Vm, r: nat) {
    Supply(vm) - Supply(vm1) == Tables(vm1.ram, r) - Tables(vm.ram, r)
  }

  lemma CallEconomy(vm: Vm, place: Places, c: Call, floor: int)
    requires Shape(vm, place) && IsRoot(place, c.root) && Clean(vm, floor) && Do(vm, c).Some?
    requires floor <= Supply(Do(vm, c).value)
    ensures var vm1 := Do(vm, c).value; var m := c.MapCall?;
      Extended(vm.ram, vm1.ram, c.root, PathOf(c.va), m, m, m) && Paid(vm, vm1, c.root)
  {
    match c {
      case MapCall(r, va, phys, flags) => MapEconomy(vm, place, r, va, phys, flags, floor);
      case UnmapCall(r, va) => UnmapEconomy(vm, place, r, va);
    }
  }

  /** Over any run on one root the tables below it are exactly those of the prefixes present
      at the start and the distinct prefixes mapped since, and each new one cost one page. */
  lemma {:induction false} RunEconomy(vm: Vm, place: Places, r: nat, calls: seq<Call>)
    requires Runs(vm, place, calls) && IsRoot(place, r) && (forall c | c in calls :: c.root == r)
    ensures Gained(vm.ram, Run(vm, calls).value.ram, r, calls) && Paid(vm, Run(vm, calls).value, r)
    decreases calls
  {
    if calls != [] {
      var c := calls[0];
      assert c in calls;
      var mid := OneCall(vm, place, calls);
      var vm1 := Do(vm, c).value;
      DoSupply(vm, c);
      RunSupply(vm1, calls[1..]);
      CallEconomy(vm, place, c, Supply(Run(vm, calls).value));
      RunEconomy(vm1, mid, r, calls[1..]);
      GainedCons(vm.ram, vm1.ram, Run(vm, calls).value.ram, r, calls);
    }
  }

  // --- entries above the last level ---------------------------------------------------------------

  /** A call leaves every present entry of the upper levels as it is. */
  lemma CallKeepsLinks(vm: Vm, place: Places, c: Call, floor: int, t: nat, i: nat)
    requires Shape(vm, place) && IsRoot(place, c.root) && Clean(vm, floor) && Do(vm, c).Some?
    requires floor <= Supply(Do(vm, c).value)
    requires t in place && !place[t].PtAt? && i < ENTRIES && Next(vm.ram, t, i).Some?
    ensures Read(Do(vm, c).value.ram, t)[i] == Read(vm.ram, t)[i]
  {
    var p := PathOf(c.va);
    match c {
      case MapCall(r, va, phys, flags) =>
        MapIsLevels(vm, r, va, phys, flags);
        var place3 := LevelsStep(vm, place, r, va, flags, floor);
        Walk(Levels(vm, r, va, flags).value.0, place3, r, p);
      case UnmapCall(r, va) =>
        Walk(vm, place, r, p);
    }
  }

  /** Over any run on any roots no present entry above the last level ever changes. */
  lemma {:induction false} RunKeepsLinks(vm: Vm, place: Places, calls: seq<Call>, t: nat, i: nat)
    requires Runs(vm, place, calls)
    requires t in place && !place[t].PtAt? && i < ENTRIES && Next(vm.ram, t, i).Some?
    ensures Read(Run(vm, calls).value.ram, t)[i] == Read(vm.ram, t)[i]
    decreases calls
  {
    if calls != [] {
      var mid := OneCall(vm, place, calls);
      var vm1 := Do(vm, calls[0]).value;
      DoSupply(vm, calls[0]);
      RunSupply(vm1, calls[1..]);
      CallKeepsLinks(vm, place, calls[0], Supply(Run(vm, calls).value), t, i);
      RunKeepsLinks(vm1, mid, calls[1..], t, i);
    }
  }
}
