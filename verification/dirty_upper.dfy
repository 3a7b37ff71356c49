/** Dirty pages at the upper levels: what must stand on them before vmm_map takes them. */
module DirtyUpperTables {
  import opened Options
  import opened Entries
  import opened PageTables
  import opened AddressSpaces
  import opened DirtyTables

  // --- conditions on memory --------------------------------------------------------------------

  predicate BlankBut(t: Table, k: nat) {
    forall j | 0 <= j < ENTRIES && j != k :: !Present(t[j])
  }

  /** A page without present entries that is none of those the call writes to. */
  predicate Settled(m: Ram, written: set<nat>, x: nat) {
    x !in written && Blank(Read(m, x))
  }

  /** The present entries of table n, but for entry j, all name such pages. */
  predicate LeadsToSettled(m: Ram, written: set<nat>, n: nat, j: nat) {
    forall h | 0 <= h < ENTRIES && h != j && Present(Read(m, n)[h]) :: Settled(m, written, Ptr(Read(m, n)[h]))
  }

  /** An old entry names x as a page directory: no walk through it may end at an entry.  On the
      last new page the mapping itself is the one entry that such a walk meets. */
  predicate SettledBelow(m: Ram, written: set<nat>, x: nat, last: nat, leaf: nat) {
    if x == last then Settled(m, written, Ptr(leaf))
    else
      && x !in written
      && forall j | 0 <= j < ENTRIES && Present(Read(m, x)[j]) :: Settled(m, written, Ptr(Read(m, x)[j]))
  }

  // --- walks below a table -----------------------------------------------------------------------

  predicate Found(ram: Ram, n: nat, j: nat, k: nat)
    requires j < ENTRIES && k < ENTRIES
  {
    Next(ram, n, j).Some? && Present(Read(ram, Next(ram, n, j).value)[k])
  }

  predicate FoundBelow(ram: Ram, n: nat, h: nat, j: nat, k: nat)
    requires h < ENTRIES && j < ENTRIES && k < ENTRIES
  {
    Next(ram, n, h).Some? && Found(ram, Next(ram, n, h).value, j, k)
  }

  /** No walk of two steps from n ends at an entry, but for j and k. */
  ghost predicate NoneFoundBut(ram: Ram, n: nat, j: nat, k: nat) {
    forall g: nat, f: nat | g < ENTRIES && f < ENTRIES && (g != j || f != k) :: !Found(ram, n, g, f)
  }

  /** Memory m, after the written pages each got an entry. */
  ghost predicate Rewritten(m: Ram, ram1: Ram, written: set<nat>) {
    && (forall s | s !in written :: Read(ram1, s) == Read(m, s))
    && (forall s | s in written :: !Blank(Read(ram1, s)))
  }

  /** Table n, after entry j has got the given value. */
  predicate Entered(m: Ram, ram1: Ram, n: nat, j: nat, e: nat) {
    j < ENTRIES && Read(ram1, n) == Read(m, n)[j := e] && Present(e)
  }

  lemma LeafTable(m: Ram, ram1: Ram, written: set<nat>, x: nat)
    requires Rewritten(m, ram1, written)
    ensures Blank(Read(ram1, x)) <==> Settled(m, written, x)
  {
  }

  /** Two levels: n1 leads to n2 at j, and n2 holds the mapping at k. */
  lemma Contents(m: Ram, ram1: Ram, written: set<nat>, n1: nat, j: nat, e1: nat, n2: nat, k: nat, leaf: nat)
    requires Rewritten(m, ram1, written) && Entered(m, ram1, n1, j, e1) && Ptr(e1) == n2
    requires Entered(m, ram1, n2, k, leaf)
    ensures NoneFoundBut(ram1, n1, j, k) <==> BlankBut(Read(m, n2), k) && LeadsToSettled(m, written, n1, j)
  {
    forall h: nat | h < ENTRIES && h != j && Present(Read(m, n1)[h])
      ensures Settled(m, written, Ptr(Read(m, n1)[h])) <==> forall f: nat | f < ENTRIES :: !Found(ram1, n1, h, f)
    {
      var x := Ptr(Read(m, n1)[h]);
      LeafTable(m, ram1, written, x);
      forall f: nat | f < ENTRIES ensures Found(ram1, n1, h, f) <==> Present(Read(ram1, x)[f]) {}
    }
    assert Next(ram1, n1, j) == Some(n2);
    forall f: nat | f < ENTRIES && f != k ensures Found(ram1, n1, j, f) <==> Present(Read(m, n2)[f]) {}
  }

  /** What the walks below a page directory x find, when an old entry names it. */
  lemma ContentsBelow(m: Ram, ram1: Ram, written: set<nat>, x: nat, last: nat, k: nat, leaf: nat)
    requires Rewritten(m, ram1, written) && Entered(m, ram1, last, k, leaf) && last in written
    requires BlankBut(Read(m, last), k)
    requires forall s | s in written && s != last :: Crossed(ram1, written, s)
    ensures (forall g: nat, f: nat | g < ENTRIES && f < ENTRIES :: !Found(ram1, x, g, f)) <==>
            SettledBelow(m, written, x, last, leaf)
  {
    forall g: nat | g < ENTRIES && Present(Read(ram1, x)[g])
      ensures Settled(m, written, Ptr(Read(ram1, x)[g])) <==> forall f: nat | f < ENTRIES :: !Found(ram1, x, g, f)
    {
      var y := Ptr(Read(ram1, x)[g]);
      LeafTable(m, ram1, written, y);
      forall f: nat | f < ENTRIES ensures Found(ram1, x, g, f) <==> Present(Read(ram1, y)[f]) {}
    }
    if x == last {
      assert Read(ram1, x)[k] == leaf;
    } else if x in written {
      var g: nat :| g < ENTRIES && Next(ram1, x, g).Some? && Next(ram1, x, g).value in written;
    }
  }

  /** The written page s leads to another written page. */
  ghost predicate Crossed(ram1: Ram, written: set<nat>, s: nat) {
    exists g: nat | g < ENTRIES :: Next(ram1, s, g).Some? && Next(ram1, s, g).value in written
  }

  /** The present entries of table n, but for entry h, name page directories without a find. */
  predicate LeadsToSettledBelow(m: Ram, written: set<nat>, n: nat, h: nat, last: nat, leaf: nat) {
    forall g | 0 <= g < ENTRIES && g != h && Present(Read(m, n)[g]) ::
      SettledBelow(m, written, Ptr(Read(m, n)[g]), last, leaf)
  }

  ghost predicate NoneFoundBelowBut(ram: Ram, n: nat, h: nat, j: nat, k: nat) {
    forall g: nat, f: nat, e: nat | g < ENTRIES && f < ENTRIES && e < ENTRIES && (g != h || f != j || e != k) ::
      !FoundBelow(ram, n, g, f, e)
  }

  /** Three levels: n1 leads to n2 at h, n2 to n3 at j, and n3 holds the mapping at k. */
  lemma ContentsThree(m: Ram, ram1: Ram, written: set<nat>, n1: nat, h: nat, e1: nat, n2: nat, j: nat, e2: nat,
      n3: nat, k: nat, leaf: nat)
    requires Rewritten(m, ram1, written) && Entered(m, ram1, n1, h, e1) && Entered(m, ram1, n2, j, e2)
    requires Entered(m, ram1, n3, k, leaf) && Ptr(e1) == n2 && Ptr(e2) == n3 && n3 in written
    requires forall s | s in written && s != n3 :: Crossed(ram1, written, s)
    ensures NoneFoundBelowBut(ram1, n1, h, j, k) <==>
            && BlankBut(Read(m, n3), k) && LeadsToSettled(m, written, n2, j)
            && LeadsToSettledBelow(m, written, n1, h, n3, leaf)
  {
    Contents(m, ram1, written, n2, j, e2, n3, k, leaf);
    assert Next(ram1, n1, h) == Some(n2);
    hide Rewritten, LeadsToSettled, Found;
    if BlankBut(Read(m, n3), k) {
      forall g: nat | g < ENTRIES && g != h && Present(Read(m, n1)[g])
        ensures SettledBelow(m, written, Ptr(Read(m, n1)[g]), n3, leaf) <==>
                forall f: nat, e: nat | f < ENTRIES && e < ENTRIES :: !FoundBelow(ram1, n1, g, f, e)
      {
        var x := Ptr(Read(m, n1)[g]);
        ContentsBelow(m, ram1, written, x, n3, k, leaf);
        assert Next(ram1, n1, g) == Some(x);
        forall f: nat, e: nat | f < ENTRIES && e < ENTRIES
          ensures FoundBelow(ram1, n1, g, f, e) <==> Found(ram1, x, f, e) {}
      }
    }
    forall f: nat, e: nat | f < ENTRIES && e < ENTRIES
      ensures FoundBelow(ram1, n1, h, f, e) <==> Found(ram1, n2, f, e) {}
  }

  // --- the pages that a call takes -------------------------------------------------------------------

  /** Two states with the same supply, and the same memory but for some written pages. */
  ghost predicate Twin(cur: Vm, base: Vm, written: set<nat>) {
    && cur.(ram := base.ram) == base
    && forall s | s !in written :: Read(cur.ram, s) == Read(base.ram, s)
  }

  /** A missing level takes the page that AllocTable would hand out without the writes. */
  lemma TwinLevel(cur: Vm, base: Vm, base1: Vm, n: nat, written: set<nat>, s: nat, j: nat, flags: nat)
    requires Twin(cur, base, written) && Sound(base) && AllocTable(base) == Some((base1, n))
    requires j < ENTRIES && Next(cur.ram, s, j).None? && s != n && n !in written
    ensures Level(cur, s, j, flags).Some? && Level(cur, s, j, flags).value.1 == n
    ensures var next := Level(cur, s, j, flags).value.0;
      && Twin(next, base1, written + {s})
      && Read(next.ram, s) == Read(cur.ram, s)[j := LinkEntry(n, flags)]
      && (forall x | x != s && x != n :: Read(next.ram, x) == Read(cur.ram, x))
  {
    AllocFresh(base);
    LinkFacts(n, flags);
    hide Present, LinkEntry, Ptr;
  }

  /** Two pages taken one after the other. */
  lemma TwoNew(vm: Vm, place: Places, vmA: Vm, n1: nat, vmB: Vm, n2: nat)
    requires Shape(vm, place) && AllocTable(vm) == Some((vmA, n1)) && AllocTable(vmA) == Some((vmB, n2))
    ensures Sound(vmA) && Sound(vmB) && IsPage(n1) && IsPage(n2)
    ensures n1 !in place && n2 !in place && n1 != n2 && !Available(vmB, n1) && !Available(vmB, n2)
    ensures forall s :: Available(vmB, s) ==> Available(vm, s)
    ensures Read(vmB.ram, n1) == Read(vmA.ram, n1)
  {
    FreshPage(vm, place, vm);
    FreshPage(vm, place, vmA);
  }

  // --- a missing page directory -----------------------------------------------------------------------

  /** A walk that comes to the missing entry goes on at the new page directory. */
  lemma PassesPd(vm: Vm, place: Places, vm1: Vm, r: nat, p: Path, n1: nat, q: nat, o: Path)
    requires Shape(vm, place) && IsRoot(place, r) && IsRoot(place, q) && ValidPath(p) && ValidPath(o)
    requires MissingAt(vm.ram, r, p) == 1 && Passes(vm.ram, q, o, r, p)
    requires var t := Pdp(vm.ram, r, p).value; OnlyAt(vm, place, vm1, t, p.i3) && Next(vm1.ram, t, p.i3) == Some(n1)
    ensures o.i4 == p.i4 && o.i3 == p.i3
    ensures Present(Entry(vm1.ram, q, o)) <==> Found(vm1.ram, n1, o.i2, o.i1)
  {
    PresentValues();
    Walk(vm, place, q, o);
    Walk(vm, place, r, p);
    hide Shape;
    assert Read(vm1.ram, q)[o.i4] == Read(vm.ram, q)[o.i4];
    assert Pd(vm1.ram, q, o) == Some(n1);
  }

  lemma NextAbsent(m: Ram, ram: Ram, n: nat, j: nat)
    requires j < ENTRIES && Read(ram, n) == Read(m, n) && !Present(Read(m, n)[j])
    ensures Next(ram, n, j).None?
  {
  }

  /** The two levels that are made: one entry in the known table, and one on the first page. */
  lemma PdLevels(vm: Vm, place: Places, t: nat, i: nat, j: nat, flags: nat, vmA: Vm, n1: nat, vmB: Vm, n2: nat)
    returns (c1: Vm, c2: Vm)
    requires Shape(vm, place) && t in place && i < ENTRIES && j < ENTRIES && Next(vm.ram, t, i).None?
    requires AllocTable(vm) == Some((vmA, n1)) && AllocTable(vmA) == Some((vmB, n2))
    requires !Present(Read(vmA.ram, n1)[j])
    ensures Level(vm, t, i, flags) == Some((c1, n1)) && Level(c1, n1, j, flags) == Some((c2, n2))
    ensures Next(c1.ram, n1, j).None? && t != n1 && t != n2 && n1 != n2
    ensures Twin(c2, vmB, {t, n1})
    ensures Entered(vmB.ram, c2.ram, t, i, LinkEntry(n1, flags))
    ensures Entered(vmB.ram, c2.ram, n1, j, LinkEntry(n2, flags))
  {
    TwoNew(vm, place, vmA, n1, vmB, n2);
    LinkFacts(n1, flags);
    LinkFacts(n2, flags);
    assert Sound(vm) && Twin(vm, vm, {}) && t != n1 && t != n2;
    AllocReads(vm, vmA, n1);
    AllocReads(vmA, vmB, n2);
    hide *;
    TwinLevel(vm, vm, vmA, n1, {}, t, i, flags);
    c1 := Level(vm, t, i, flags).value.0;
    assert {} + {t} == {t} && {t} + {n1} == {t, n1};
    TwinReads(c1, vmA, {t});
    NextAbsent(vmA.ram, c1.ram, n1, j);
    TwinLevel(c1, vmA, vmB, n2, {t}, n1, j, flags);
    c2 := Level(c1, n1, j, flags).value.0;
    EnteredNow(vmB.ram, vm.ram, c2.ram, t, i, LinkEntry(n1, flags));
    EnteredNow(vmB.ram, c1.ram, c2.ram, n1, j, LinkEntry(n2, flags));
  }

  /** The last write. */
  lemma LeafWrite(m: Ram, ram2: Ram, written: set<nat>, n: nat, k: nat, leaf: nat)
    requires (forall s | s !in written :: Read(ram2, s) == Read(m, s))
    requires (forall s | s in written :: !Blank(Read(ram2, s)))
    requires n !in written && k < ENTRIES && Present(leaf)
    ensures Rewritten(m, Write(ram2, n, k, leaf), written + {n}) && Entered(m, Write(ram2, n, k, leaf), n, k, leaf)
    ensures forall s | s != n :: Read(Write(ram2, n, k, leaf), s) == Read(ram2, s)
  {
    assert Read(Write(ram2, n, k, leaf), n)[k] == leaf;
  }

  /** vmm_map put together from its levels. */
  lemma ThreeLevels(vm: Vm, r: nat, va: nat, phys: nat, flags: nat, c1: Vm, a: nat, c2: Vm, b: nat, c3: Vm, c: nat)
    requires Level(vm, r, PathOf(va).i4, flags) == Some((c1, a)) && Level(c1, a, PathOf(va).i3, flags) == Some((c2, b))
    requires Level(c2, b, PathOf(va).i2, flags) == Some((c3, c))
    requires Pdp(vm.ram, r, PathOf(va)).None? ==> Next(c1.ram, a, PathOf(va).i3).None?
    requires Pd(vm.ram, r, PathOf(va)).None? ==> Next(c2.ram, b, PathOf(va).i2).None?
    ensures FreshOnPath(vm, r, va, flags)
    ensures Map(vm, r, va, phys, flags) == Some(c3.(ram := Write(c3.ram, c, PathOf(va).i1, LeafEntry(phys, flags))))
  {
    hide Level, Next, PathOf, LeafEntry;
  }

  lemma PdWrites(vm: Vm, place: Places, r: nat, va: nat, phys: nat, flags: nat, vmA: Vm, n1: nat, vmB: Vm, n2: nat)
    requires Shape(vm, place) && IsRoot(place, r) && MissingAt(vm.ram, r, PathOf(va)) == 1
    requires AllocTable(vm) == Some((vmA, n1)) && AllocTable(vmA) == Some((vmB, n2))
    requires !Present(Read(vmA.ram, n1)[PathOf(va).i2])
    ensures FreshOnPath(vm, r, va, flags) && Map(vm, r, va, phys, flags).Some?
    ensures var p, m, ram1 := PathOf(va), vmB.ram, Map(vm, r, va, phys, flags).value.ram;
      var t := Pdp(vm.ram, r, p).value;
      && t in place && Rewritten(m, ram1, {t, n1, n2})
      && Entered(m, ram1, t, p.i3, LinkEntry(n1, flags)) && Entered(m, ram1, n1, p.i2, LinkEntry(n2, flags))
      && Entered(m, ram1, n2, p.i1, LeafEntry(phys, flags))
  {
    var p := PathOf(va);
    var t := Pdp(vm.ram, r, p).value;
    Walk(vm, place, r, p);
    FoundLevel(vm, r, p.i4, flags);
    LeafFacts(phys, flags);
    var c1, c2 := PdLevels(vm, place, t, p.i3, p.i2, flags, vmA, n1, vmB, n2);
    ThreeLevels(vm, r, va, phys, flags, vm, t, c1, n1, c2, n2);
    var leaf := LeafEntry(phys, flags);
    TwinReads(c2, vmB, {t, n1});
    hide *;
    EnteredShows(vmB.ram, c2.ram, t, p.i3, LinkEntry(n1, flags));
    EnteredShows(vmB.ram, c2.ram, n1, p.i2, LinkEntry(n2, flags));
    LeafWrite(vmB.ram, c2.ram, {t, n1}, n2, p.i1, leaf);
    assert {t, n1} + {n2} == {t, n1, n2};
    EnteredMoved(vmB.ram, vmB.ram, c2.ram, Write(c2.ram, n2, p.i1, leaf), t, p.i3, LinkEntry(n1, flags));
    EnteredMoved(vmB.ram, vmB.ram, c2.ram, Write(c2.ram, n2, p.i1, leaf), n1, p.i2, LinkEntry(n2, flags));
  }

  lemma TwinReads(cur: Vm, base: Vm, written: set<nat>)
    requires Twin(cur, base, written)
    ensures forall s | s !in written :: Read(cur.ram, s) == Read(base.ram, s)
  {
  }

  lemma EnteredShows(m: Ram, ram1: Ram, n: nat, j: nat, e: nat)
    requires Entered(m, ram1, n, j, e)
    ensures Read(ram1, n)[j] == e && Next(ram1, n, j) == Some(Ptr(e)) && !Blank(Read(ram1, n))
  {
  }

  /** All walks that come to the missing entry, as walks below the new page directory. */
  lemma PassesAll(vm: Vm, place: Places, vm1: Vm, r: nat, p: Path, n1: nat)
    requires Shape(vm, place) && IsRoot(place, r) && ValidPath(p) && MissingAt(vm.ram, r, p) == 1
    requires var t := Pdp(vm.ram, r, p).value; OnlyAt(vm, place, vm1, t, p.i3) && Next(vm1.ram, t, p.i3) == Some(n1)
    ensures (forall q, o | IsRoot(place, q) && ValidPath(o) && o != p && Passes(vm.ram, q, o, r, p) ::
               !Present(Entry(vm1.ram, q, o))) <==> NoneFoundBut(vm1.ram, n1, p.i2, p.i1)
  {
    hide Entry, Found;
    forall q, o | IsRoot(place, q) && ValidPath(o) && Passes(vm.ram, q, o, r, p)
      ensures o.i4 == p.i4 && o.i3 == p.i3
      ensures Present(Entry(vm1.ram, q, o)) <==> Found(vm1.ram, n1, o.i2, o.i1)
    {
      PassesPd(vm, place, vm1, r, p, n1, q, o);
    }
    forall g: nat, f: nat | g < ENTRIES && f < ENTRIES
      ensures Passes(vm.ram, r, Path(p.i4, p.i3, g, f), r, p)
      ensures Present(Entry(vm1.ram, r, Path(p.i4, p.i3, g, f))) <==> Found(vm1.ram, n1, g, f)
    {
      PassesPd(vm, place, vm1, r, p, n1, r, Path(p.i4, p.i3, g, f));
    }
    hide Shape, Present, Passes, OnlyAt;
  }

  /** When the page directory is missing and the new one holds no entry on the path: mapping a
      page leaves all other answers of all roots alone exactly when the new last-level table
      holds no present entry but the one that is overwritten, and each present entry of the new
      directory names a blank page that the call does not write to. */
  lemma DirtyPd(vm: Vm, place: Places, r: nat, va: nat, phys: nat, flags: nat, vmA: Vm, n1: nat, vmB: Vm, n2: nat)
    requires Shape(vm, place) && IsRoot(place, r) && MissingAt(vm.ram, r, PathOf(va)) == 1
    requires AllocTable(vm) == Some((vmA, n1)) && AllocTable(vmA) == Some((vmB, n2))
    requires !Present(Read(vmA.ram, n1)[PathOf(va).i2])
    ensures Map(vm, r, va, phys, flags).Some?
    ensures var p, vm1 := PathOf(va), Map(vm, r, va, phys, flags).value;
      (forall q, o | IsRoot(place, q) && ValidPath(o) && o != p :: SameAnswer(vm.ram, vm1.ram, q, o)) <==>
      && BlankBut(Read(vmB.ram, n2), p.i1)
      && LeadsToSettled(vmB.ram, {Pdp(vm.ram, r, p).value, n1, n2}, n1, p.i2)
  {
    PdWrites(vm, place, r, va, phys, flags, vmA, n1, vmB, n2);
    DirtyPath(vm, place, r, va, phys, flags);
    MapBeyond(vm, place, r, va, phys, flags);
    TwoNew(vm, place, vmA, n1, vmB, n2);
    LinkFacts(n1, flags);
    LinkFacts(n2, flags);
    var p, vm1 := PathOf(va), Map(vm, r, va, phys, flags).value;
    var t := Pdp(vm.ram, r, p).value;
    hide Map, FreshOnPath, Shape, LinkEntry, LeafEntry, AllocTable, Present, Ptr, PathOf, Rewritten, Passes, Found,
         BlankBut, LeadsToSettled, SameAnswer, Entry, NoneFoundBut;
    Contents(vmB.ram, vm1.ram, {t, n1, n2}, n1, p.i2, LinkEntry(n2, flags), n2, p.i1, LeafEntry(phys, flags));
    EnteredShows(vmB.ram, vm1.ram, t, p.i3, LinkEntry(n1, flags));
    PassesAll(vm, place, vm1, r, p, n1);
  }

  // --- a missing page-directory-pointer table --------------------------------------------------------------

  lemma ThreeNew(vm: Vm, place: Places, vmA: Vm, n1: nat, vmB: Vm, n2: nat, vmC: Vm, n3: nat)
    requires Shape(vm, place) && AllocTable(vm) == Some((vmA, n1)) && AllocTable(vmA) == Some((vmB, n2))
    requires AllocTable(vmB) == Some((vmC, n3))
    ensures n3 !in place && n3 != n1 && n3 != n2 && Sound(vmB) && IsPage(n3)
    ensures Read(vmC.ram, n1) == Read(vmA.ram, n1) && Read(vmC.ram, n2) == Read(vmB.ram, n2)
    ensures forall s | s in place :: Read(vmC.ram, s) == Read(vm.ram, s)
  {
    TwoNew(vm, place, vmA, n1, vmB, n2);
    FreshPage(vm, place, vmB);
    AllocFresh(vm);
    AllocFresh(vmA);
    hide AllocTable, Shape;
  }

  lemma PdpLevels(vm: Vm, place: Places, t: nat, p: Path, flags: nat,
      vmA: Vm, n1: nat, vmB: Vm, n2: nat, vmC: Vm, n3: nat)
    returns (c1: Vm, c2: Vm, c3: Vm)
    requires Shape(vm, place) && t in place && ValidPath(p) && Next(vm.ram, t, p.i4).None?
    requires AllocTable(vm) == Some((vmA, n1)) && AllocTable(vmA) == Some((vmB, n2))
    requires AllocTable(vmB) == Some((vmC, n3))
    requires !Present(Read(vmA.ram, n1)[p.i3]) && !Present(Read(vmB.ram, n2)[p.i2])
    ensures Level(vm, t, p.i4, flags) == Some((c1, n1)) && Level(c1, n1, p.i3, flags) == Some((c2, n2))
    ensures Level(c2, n2, p.i2, flags) == Some((c3, n3)) && Twin(c3, vmC, {t, n1, n2})
    ensures Next(c1.ram, n1, p.i3).None? && Next(c2.ram, n2, p.i2).None? && n3 !in {t, n1, n2}
    ensures Entered(vmC.ram, c3.ram, t, p.i4, LinkEntry(n1, flags))
    ensures Entered(vmC.ram, c3.ram, n1, p.i3, LinkEntry(n2, flags))
    ensures Entered(vmC.ram, c3.ram, n2, p.i2, LinkEntry(n3, flags))
  {
    ThreeNew(vm, place, vmA, n1, vmB, n2, vmC, n3);
    TwoNew(vm, place, vmA, n1, vmB, n2);
    AllocReads(vmB, vmC, n3);
    LinkFacts(n3, flags);
    var d1, d2 := PdLevels(vm, place, t, p.i4, p.i3, flags, vmA, n1, vmB, n2);
    c1, c2 := d1, d2;
    hide *;
    TwinReads(c2, vmB, {t, n1});
    NextAbsent(vmB.ram, c2.ram, n2, p.i2);
    TwinLevel(c2, vmB, vmC, n3, {t, n1}, n2, p.i2, flags);
    c3 := Level(c2, n2, p.i2, flags).value.0;
    assert {t, n1} + {n2} == {t, n1, n2};
    EnteredMoved(vmB.ram, vmC.ram, c2.ram, c3.ram, t, p.i4, LinkEntry(n1, flags));
    EnteredMoved(vmB.ram, vmC.ram, c2.ram, c3.ram, n1, p.i3, LinkEntry(n2, flags));
    EnteredNow(vmC.ram, c2.ram, c3.ram, n2, p.i2, LinkEntry(n3, flags));
  }

  lemma AllocReads(vm: Vm, vm1: Vm, n: nat)
    requires Sound(vm) && AllocTable(vm) == Some((vm1, n))
    ensures forall s | s != n :: Read(vm1.ram, s) == Read(vm.ram, s)
  {
    AllocFresh(vm);
  }

  lemma EnteredMoved(m: Ram, m1: Ram, ram: Ram, ram1: Ram, n: nat, j: nat, e: nat)
    requires Entered(m, ram, n, j, e) && Read(ram1, n) == Read(ram, n) && Read(m1, n) == Read(m, n)
    ensures Entered(m1, ram1, n, j, e)
  {
  }

  lemma EnteredNow(m: Ram, ram: Ram, ram1: Ram, n: nat, j: nat, e: nat)
    requires Read(ram, n) == Read(m, n) && j < ENTRIES && Read(ram1, n) == Read(ram, n)[j := e] && Present(e)
    ensures Entered(m, ram1, n, j, e)
  {
  }

  lemma PdpWrites(vm: Vm, place: Places, r: nat, va: nat, phys: nat, flags: nat,
      vmA: Vm, n1: nat, vmB: Vm, n2: nat, vmC: Vm, n3: nat)
    requires Shape(vm, place) && IsRoot(place, r) && MissingAt(vm.ram, r, PathOf(va)) == 0
    requires AllocTable(vm) == Some((vmA, n1)) && AllocTable(vmA) == Some((vmB, n2))
    requires AllocTable(vmB) == Some((vmC, n3))
    requires !Present(Read(vmA.ram, n1)[PathOf(va).i3]) && !Present(Read(vmB.ram, n2)[PathOf(va).i2])
    ensures FreshOnPath(vm, r, va, flags) && Map(vm, r, va, phys, flags).Some?
    ensures var p, m, ram1 := PathOf(va), vmC.ram, Map(vm, r, va, phys, flags).value.ram;
      && Rewritten(m, ram1, {r, n1, n2, n3})
      && Entered(m, ram1, r, p.i4, LinkEntry(n1, flags)) && Entered(m, ram1, n1, p.i3, LinkEntry(n2, flags))
      && Entered(m, ram1, n2, p.i2, LinkEntry(n3, flags)) && Entered(m, ram1, n3, p.i1, LeafEntry(phys, flags))
  {
    var p := PathOf(va);
    LeafFacts(phys, flags);
    hide Map, Shape, LinkEntry, LeafEntry, PathOf, Level, AllocTable, FreshOnPath, Present, Entered, Rewritten;
    var c1, c2, c3 := PdpLevels(vm, place, r, p, flags, vmA, n1, vmB, n2, vmC, n3);
    ThreeLevels(vm, r, va, phys, flags, c1, n1, c2, n2, c3, n3);
    var leaf := LeafEntry(phys, flags);
    TwinReads(c3, vmC, {r, n1, n2});
    LeafOnThree(vmC.ram, c3.ram, r, n1, n2, n3, p, LinkEntry(n1, flags), LinkEntry(n2, flags),
                LinkEntry(n3, flags), leaf);
  }

  lemma LeafOnThree(m: Ram, ram2: Ram, r: nat, n1: nat, n2: nat, n3: nat, p: Path, e1: nat, e2: nat, e3: nat, leaf: nat)
    requires ValidPath(p) && Present(leaf) && n3 !in {r, n1, n2}
    requires forall s | s !in {r, n1, n2} :: Read(ram2, s) == Read(m, s)
    requires Entered(m, ram2, r, p.i4, e1) && Entered(m, ram2, n1, p.i3, e2) && Entered(m, ram2, n2, p.i2, e3)
    ensures var ram1 := Write(ram2, n3, p.i1, leaf);
      && Rewritten(m, ram1, {r, n1, n2, n3})
      && Entered(m, ram1, r, p.i4, e1) && Entered(m, ram1, n1, p.i3, e2)
      && Entered(m, ram1, n2, p.i2, e3) && Entered(m, ram1, n3, p.i1, leaf)
  {
    hide Rewritten, Entered, Present, Write, Read, Blank, Next;
    EnteredShows(m, ram2, r, p.i4, e1);
    EnteredShows(m, ram2, n1, p.i3, e2);
    EnteredShows(m, ram2, n2, p.i2, e3);
    LeafWrite(m, ram2, {r, n1, n2}, n3, p.i1, leaf);
    assert {r, n1, n2} + {n3} == {r, n1, n2, n3};
    var ram1 := Write(ram2, n3, p.i1, leaf);
    EnteredMoved(m, m, ram2, ram1, r, p.i4, e1);
    EnteredMoved(m, m, ram2, ram1, n1, p.i3, e2);
    EnteredMoved(m, m, ram2, ram1, n2, p.i2, e3);
  }

  /** All walks that come to the missing entry, as walks below the new table; only the root
      itself has them. */
  lemma PassesAllPdp(vm: Vm, place: Places, vm1: Vm, r: nat, p: Path, n1: nat)
    requires Shape(vm, place) && IsRoot(place, r) && ValidPath(p) && MissingAt(vm.ram, r, p) == 0
    requires Next(vm1.ram, r, p.i4) == Some(n1)
    ensures (forall q, o | IsRoot(place, q) && ValidPath(o) && o != p && Passes(vm.ram, q, o, r, p) ::
               !Present(Entry(vm1.ram, q, o))) <==> NoneFoundBelowBut(vm1.ram, n1, p.i3, p.i2, p.i1)
  {
    PresentValues();
    forall o | ValidPath(o) && o.i4 == p.i4
      ensures Present(Entry(vm1.ram, r, o)) <==> FoundBelow(vm1.ram, n1, o.i3, o.i2, o.i1) {}
    forall g: nat, f: nat, e: nat | g < ENTRIES && f < ENTRIES && e < ENTRIES
      ensures Passes(vm.ram, r, Path(p.i4, g, f, e), r, p)
      ensures Present(Entry(vm1.ram, r, Path(p.i4, g, f, e))) <==> FoundBelow(vm1.ram, n1, g, f, e) {}
    hide Shape, Present, FoundBelow, Entry;
  }

  /** When the page-directory-pointer table is missing and the new pages hold no entry on the
      path: all other answers of all roots stay exactly when the new last-level table and the
      new directory are as before, and each present entry of the new pointer table names a page
      from which two more steps find nothing. */
  lemma DirtyPdp(vm: Vm, place: Places, r: nat, va: nat, phys: nat, flags: nat,
      vmA: Vm, n1: nat, vmB: Vm, n2: nat, vmC: Vm, n3: nat)
    requires Shape(vm, place) && IsRoot(place, r) && MissingAt(vm.ram, r, PathOf(va)) == 0
    requires AllocTable(vm) == Some((vmA, n1)) && AllocTable(vmA) == Some((vmB, n2))
    requires AllocTable(vmB) == Some((vmC, n3))
    requires !Present(Read(vmA.ram, n1)[PathOf(va).i3]) && !Present(Read(vmB.ram, n2)[PathOf(va).i2])
    ensures Map(vm, r, va, phys, flags).Some?
    ensures var p, vm1 := PathOf(va), Map(vm, r, va, phys, flags).value; var written := {r, n1, n2, n3};
      (forall q, o | IsRoot(place, q) && ValidPath(o) && o != p :: SameAnswer(vm.ram, vm1.ram, q, o)) <==>
      && BlankBut(Read(vmC.ram, n3), p.i1)
      && LeadsToSettled(vmC.ram, written, n2, p.i2)
      && LeadsToSettledBelow(vmC.ram, written, n1, p.i3, n3, LeafEntry(phys, flags))
  {
    PdpWrites(vm, place, r, va, phys, flags, vmA, n1, vmB, n2, vmC, n3);
    DirtyPath(vm, place, r, va, phys, flags);
    TwoNew(vm, place, vmA, n1, vmB, n2);
    ThreeNew(vm, place, vmA, n1, vmB, n2, vmC, n3);
    var p, vm1 := PathOf(va), Map(vm, r, va, phys, flags).value;
    LinkFacts(n1, flags);
    LinkFacts(n2, flags);
    LinkFacts(n3, flags);
    hide *;
    PdpContents(vmC.ram, vm1.ram, r, n1, n2, n3, p, LinkEntry(n1, flags), LinkEntry(n2, flags), LinkEntry(n3, flags),
                LeafEntry(phys, flags));
    PassesAllPdp(vm, place, vm1, r, p, n1);
  }

  lemma PdpContents(m: Ram, ram1: Ram, r: nat, n1: nat, n2: nat, n3: nat, p: Path, e1: nat, e2: nat, e3: nat, leaf: nat)
    requires ValidPath(p) && Rewritten(m, ram1, {r, n1, n2, n3}) && Ptr(e1) == n1 && Ptr(e2) == n2 && Ptr(e3) == n3
    requires Entered(m, ram1, r, p.i4, e1) && Entered(m, ram1, n1, p.i3, e2)
    requires Entered(m, ram1, n2, p.i2, e3) && Entered(m, ram1, n3, p.i1, leaf)
    ensures Next(ram1, r, p.i4) == Some(n1)
    ensures NoneFoundBelowBut(ram1, n1, p.i3, p.i2, p.i1) <==>
            && BlankBut(Read(m, n3), p.i1) && LeadsToSettled(m, {r, n1, n2, n3}, n2, p.i2)
            && LeadsToSettledBelow(m, {r, n1, n2, n3}, n1, p.i3, n3, leaf)
  {
    var written := {r, n1, n2, n3};
    EnteredShows(m, ram1, r, p.i4, e1);
    EnteredShows(m, ram1, n1, p.i3, e2);
    EnteredShows(m, ram1, n2, p.i2, e3);
    hide Present, Ptr, Rewritten, BlankBut, LeadsToSettled, LeadsToSettledBelow, NoneFoundBelowBut, Entered;
    assert Crossed(ram1, written, r) && Crossed(ram1, written, n1) && Crossed(ram1, written, n2);
    ContentsThree(m, ram1, written, n1, p.i3, e2, n2, p.i2, e3, n3, p.i1, leaf);
  }
}
