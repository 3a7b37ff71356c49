/** kernel/mm/vmm.c: the virtual memory manager, updating physical memory in place. */
module VirtualMemory {
  import opened Options
  import opened Bits
  import opened Entries
  import opened PageFrames
  import opened PageTables
  import opened Directories
  import opened BootMapping
  import HB = HeapBlocks
  import opened Pmm

  lemma {:induction false} FreeAllAppend(f: Frames, s: seq<nat>, t: seq<nat>)
    ensures FreeAll(f, s + t) == FreeAll(FreeAll(f, s), t)
    decreases s
  {
    if s == [] {
      assert s + t == t;
    } else {
      assert (s + t)[1..] == s[1..] + t;
      FreeAllAppend(Free(f, s[0]), s[1..], t);
    }
  }

  lemma FreeAllOne(f: Frames, s: seq<nat>, x: nat)
    ensures FreeAll(f, s + [x]) == Free(FreeAll(f, s), x)
  {
    FreeAllAppend(f, s, [x]);
    assert FreeAll(FreeAll(f, s), [x]) == FreeAll(Free(FreeAll(f, s), x), []);
  }

  class Vmm {
    var ram: Ram
    var kernel: nat
    const pool: nat
    var poolUsed: nat
    const pmm: PageAllocator

    ghost predicate Valid()
      reads this, pmm, pmm.bitmap
    {
      pmm.Valid() && Sound(State())
    }

    ghost function State(): Vm
      reads this, pmm
    {
      Vm(ram, kernel, pool, poolUsed, pmm.state)
    }

    constructor (ram: Ram, pool: nat, pmm: PageAllocator)
      requires pmm.Valid() && Sound(Vm(ram, 0, pool, 0, pmm.state))
      ensures Valid() && this.pmm == pmm && State() == Vm(ram, 0, pool, 0, pmm.state)
    {
      this.ram, this.pool, this.pmm := ram, pool, pmm;
      kernel, poolUsed := 0, 0;
    }

    /** The loop that zeroes a page of the pool. */
    method ZeroPage(t: nat)
      modifies this`ram
      ensures ram == old(ram)[t := ZeroTable()]
    {
      for j := 0 to ENTRIES
        modifies this`ram
        invariant Read(ram, t)[..j] == Zeros(j)
        invariant forall s | s != t :: (s in ram <==> s in old(ram)) && (s in ram ==> ram[s] == old(ram)[s])
        invariant j > 0 ==> t in ram
      {
        ram := Write(ram, t, j, 0);
      }
      assert Read(ram, t) == ZeroTable();
    }

    /** alloc_table; None stands for the panic. */
    method AllocTable() returns (t: Option<nat>)
      requires Valid()
      modifies this`ram, this`poolUsed, pmm, pmm.bitmap
      ensures Valid()
      ensures match PageTables.AllocTable(old(State()))
        case None => t == None && State() == old(State())
        case Some((vm1, n)) => t == Some(n) && State() == vm1
    {
      hide Represents;
      if poolUsed + 4096 <= POOL_SIZE {
        var n := pool + poolUsed;
        poolUsed := poolUsed + 4096;
        ZeroPage(n);
        return Some(n);
      }
      AllocFacts(pmm.state);
      var n := pmm.Alloc();
      if n == 0 { return None; }
      return Some(n);
    }

    /** One of the three levels of vmm_map: the table below entry i of t, made if missing. */
    method Level(t: nat, i: nat, flags: nat) returns (n: Option<nat>)
      requires Valid() && i < ENTRIES
      modifies this`ram, this`poolUsed, pmm, pmm.bitmap
      ensures Valid()
      ensures match PageTables.Level(old(State()), t, i, flags)
        case None => n == None
        case Some((vm1, next)) => n == Some(next) && State() == vm1
    {
      if And(Read(ram, t)[i], PTE_PRESENT) == 0 {
        var made := AllocTable();
        if made == None { return None; }
        ram := Write(ram, t, i, Or(Or(Or(made.value, PTE_PRESENT), PTE_WRITABLE), And(flags, PTE_USER)));
      }
      return Some(Ptr(Read(ram, t)[i]));
    }

    /** vmm_map; false stands for the panic. */
    method Map(root: nat, va: nat, phys: nat, flags: nat) returns (ok: bool)
      requires Valid()
      modifies this`ram, this`poolUsed, pmm, pmm.bitmap
      ensures Valid()
      ensures ok <==> PageTables.Map(old(State()), root, va, phys, flags).Some?
      ensures ok ==> State() == PageTables.Map(old(State()), root, va, phys, flags).value
    {
      IndexBelow(va);
      var pdp := Level(root, Idx4(va), flags);
      if pdp == None { return false; }
      var pd := Level(pdp.value, Idx3(va), flags);
      if pd == None { return false; }
      var pt := Level(pd.value, Idx2(va), flags);
      if pt == None { return false; }
      ram := Write(ram, pt.value, Idx1(va), Or(Ptr(phys), Or(flags, PTE_PRESENT)));
      return true;
    }

    /** vmm_unmap */
    method Unmap(root: nat, va: nat)
      requires Valid()
      modifies this`ram
      ensures Valid() && State() == PageTables.Unmap(old(State()), root, va)
    {
      IndexBelow(va);
      var e4 := Read(ram, root)[Idx4(va)];
      if And(e4, PTE_PRESENT) == 0 { return; }
      var e3 := Read(ram, Ptr(e4))[Idx3(va)];
      if And(e3, PTE_PRESENT) == 0 { return; }
      var e2 := Read(ram, Ptr(e3))[Idx2(va)];
      if And(e2, PTE_PRESENT) == 0 { return; }
      ram := Write(ram, Ptr(e2), Idx1(va), 0);
    }

    /** vmm_resolve */
    method Resolve(root: nat, va: nat) returns (pa: nat)
      ensures pa == PageTables.Resolve(ram, root, va)
    {
      IndexBelow(va);
      PresentValues();
      var e4 := Read(ram, root)[Idx4(va)];
      if And(e4, PTE_PRESENT) == 0 { return 0; }
      var e3 := Read(ram, Ptr(e4))[Idx3(va)];
      if And(e3, PTE_PRESENT) == 0 { return 0; }
      var e2 := Read(ram, Ptr(e3))[Idx2(va)];
      if And(e2, PTE_PRESENT) == 0 { return 0; }
      var e1 := Read(ram, Ptr(e2))[Idx1(va)];
      if And(e1, PTE_PRESENT) == 0 { return 0; }
      return Or(Ptr(e1), And(va, 0xFFF));
    }

    /** vmm_new_pagedir; None stands for the panic. */
    method NewDir() returns (root: Option<nat>)
      requires Valid()
      modifies this`ram, this`poolUsed, pmm, pmm.bitmap
      ensures Valid()
      ensures match PageTables.NewDir(old(State()))
        case None => root == None
        case Some((vm1, n)) => root == Some(n) && State() == vm1
    {
      root := AllocTable();
      if root == None { return; }
      var n := root.value;
      if kernel != 0 {
        CopyUpperHalf(n);
      }
    }

    /** The loop of vmm_new_pagedir over entries 256..511. */
    method CopyUpperHalf(n: nat)
      modifies this`ram
      ensures ram == old(ram)[n := HalfCopy(Read(old(ram), n), Read(old(ram), kernel))]
    {
      ghost var t, k := Read(ram, n), Read(ram, kernel);
      for i := 256 to ENTRIES
        modifies this`ram
        invariant forall j | 0 <= j < ENTRIES :: Read(ram, n)[j] == if 256 <= j < i then k[j] else t[j]
        invariant n != kernel ==> Read(ram, kernel) == k
        invariant forall s | s != n :: (s in ram <==> s in old(ram)) && (s in ram ==> ram[s] == old(ram)[s])
        invariant i > 256 ==> n in ram
      {
        ram := Write(ram, n, i, Read(ram, kernel)[i]);
      }
      assert Read(ram, n) == HalfCopy(t, k);
    }

    /** The innermost loop of vmm_free_pagedir. */
    method FreePts(pd: nat)
      requires Valid()
      modifies pmm, pmm.bitmap
      ensures Valid() && pmm.state == FreeAll(old(pmm.state), PtList(ram, pd, ENTRIES))
    {
      for p2 := 0 to ENTRIES
        invariant Valid() && pmm.state == FreeAll(old(pmm.state), PtList(ram, pd, p2))
      {
        var e := Read(ram, pd)[p2];
        if And(e, PTE_PRESENT) == 0 { continue; }
        FreeAllOne(old(pmm.state), PtList(ram, pd, p2), Ptr(e));
        FreeKeepsSound(State(), Ptr(e));
        pmm.Free(Ptr(e));
      }
    }

    method FreePds(pdp: nat)
      requires Valid()
      modifies pmm, pmm.bitmap
      ensures Valid() && pmm.state == FreeAll(old(pmm.state), PdList(ram, pdp, ENTRIES))
    {
      for p3 := 0 to ENTRIES
        invariant Valid() && pmm.state == FreeAll(old(pmm.state), PdList(ram, pdp, p3))
      {
        var e := Read(ram, pdp)[p3];
        if And(e, PTE_PRESENT) == 0 { continue; }
        var pd := Ptr(e);
        FreeAllAppend(old(pmm.state), PdList(ram, pdp, p3), PtList(ram, pd, ENTRIES));
        FreeAllOne(old(pmm.state), PdList(ram, pdp, p3) + PtList(ram, pd, ENTRIES), pd);
        FreePts(pd);
        FreeKeepsSound(State(), pd);
        pmm.Free(pd);
      }
    }

    /** vmm_free_pagedir */
    method FreeDir(root: nat)
      requires Valid()
      modifies pmm, pmm.bitmap
      ensures Valid() && State() == Directories.FreeDir(old(State()), root)
    {
      for p4 := 0 to 256
        invariant Valid() && pmm.state == FreeAll(old(pmm.state), PdpList(ram, root, p4))
      {
        var e := Read(ram, root)[p4];
        if And(e, PTE_PRESENT) == 0 { continue; }
        var pdp := Ptr(e);
        FreeAllAppend(old(pmm.state), PdpList(ram, root, p4), PdList(ram, pdp, ENTRIES));
        FreeAllOne(old(pmm.state), PdpList(ram, root, p4) + PdList(ram, pdp, ENTRIES), pdp);
        FreePds(pdp);
        FreeKeepsSound(State(), pdp);
        pmm.Free(pdp);
      }
      FreeAllOne(old(pmm.state), PdpList(ram, root, 256), root);
      FreeKeepsSound(State(), root);
      pmm.Free(root);
    }

    /** First loop of vmm_init: the page frames at their own addresses. */
    method MapFrames(start: nat, end: nat) returns (ok: bool)
      requires Valid()
      modifies this`ram, this`poolUsed, pmm, pmm.bitmap
      ensures Valid()
      ensures ok <==> IdentityFrom(old(State()), start, end).Some?
      ensures ok ==> State() == IdentityFrom(old(State()), start, end).value
    {
      hide PageTables.Map, Represents;
      var va := start;
      while va < end
        modifies this`ram, this`poolUsed, pmm, pmm.bitmap
        invariant Valid() && IdentityFrom(old(State()), start, end) == IdentityFrom(State(), va, end)
      {
        var mapped := Map(kernel, va, va, KERNEL_FLAGS);
        if !mapped { return false; }
        va := va + 4096;
      }
      return true;
    }

    /** One round of the second loop of vmm_init. */
    method MapHeapPage(va: nat) returns (ok: bool)
      requires Valid()
      modifies this`ram, this`poolUsed, pmm, pmm.bitmap
      ensures Valid()
      ensures ok <==> HeapStep(old(State()), va).Some?
      ensures ok ==> State() == HeapStep(old(State()), va).value.0
    {
      hide PageTables.Map, Represents;
      AllocFacts(pmm.state);
      var pa := pmm.Alloc();
      if pa == 0 { return false; }
      ok := Map(kernel, va, pa, KERNEL_FLAGS);
    }

    /** Second loop of vmm_init: the pages of the kernel heap. */
    method MapHeap(start: nat) returns (ok: bool)
      requires Valid()
      modifies this`ram, this`poolUsed, pmm, pmm.bitmap
      ensures Valid()
      ensures ok <==> HeapFrom(old(State()), start).Some?
      ensures ok ==> State() == HeapFrom(old(State()), start).value
    {
      hide HeapStep, Represents;
      var va := start;
      while va < HB.HEAP_END
        modifies this`ram, this`poolUsed, pmm, pmm.bitmap
        invariant Valid() && HeapFrom(old(State()), start) == HeapFrom(State(), va)
      {
        var mapped := MapHeapPage(va);
        if !mapped { return false; }
        va := va + 4096;
      }
      return true;
    }

    /** vmm_init, with the address of the boot tables in cr3; false stands for a panic. */
    method Init(cr3: nat) returns (ok: bool)
      requires Valid()
      modifies this, pmm, pmm.bitmap
      ensures Valid()
      ensures ok <==> BootMapping.Init(old(State()).(kernel := cr3)).Some?
      ensures ok ==> State() == BootMapping.Init(old(State()).(kernel := cr3)).value
    {
      hide IdentityFrom, HeapFrom, Represents;
      kernel := cr3;
      ok := MapFrames(pmm.base, pmm.base + pmm.total * 4096);
      if !ok { return; }
      ok := MapHeap(HB.HEAP_START);
    }
  }

  lemma FreeKeepsSound(vm: Vm, x: nat)
    requires Sound(vm)
    ensures Sound(vm.(frames := Free(vm.frames, x)))
  {
  }
}
