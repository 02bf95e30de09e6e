/** kernel/proc.c, kernel/intr.c and kernel/syscall.c: the kernel's operations on processes and their memory. */
module Kernels {
  import opened Results
  import opened Words
  import opened Paths
  import opened PageState
  import opened CopySteps
  import opened CopyLoop
  import opened WalkSteps
  import opened ClearLoop
  import opened FreeLoop
  import opened Boot
  import opened DeepCopy
  import opened Views
  import opened Sharing
  import opened SplitSteps
  import opened NewPages
  import opened KernelHalves
  import opened PageNeeds
  import opened ImageSteps
  import opened PhysicalMemory
  import opened Processes
  import Conservation
  import opened Losses

  class Kernel {
    const m: Memory
    /** k_pgtbl: the kernel's own level-4 table. */
    const kspace: Page
    var procs: seq<Proc>

    ghost predicate Inv()
      reads this, m
    {
      Good(m.St(), procs)
    }

    ghost function World(): (w: World)
      reads this, m
    {
      WorldOf(m.St(), procs)
    }

    /** The kernel is mapped in every level-4 table there is, and not for user mode. */
    ghost predicate KernelMapped()
      reads m
    {
      KernelIn(m.St(), kspace, {}) && Private(kspace)
    }

    /** Boot: no process, and every page the firmware offered above the kernel is free. */
    constructor (machine: Machine, contents: seq<Page>, kspace: Page)
      requires MachineOk(machine) && |contents| == machine.count
      requires (exists f: nat :: Usable(machine, f)) && Private(kspace)
      ensures fresh(m) && m.machine == machine && this.kspace == kspace && Inv() && World() == map[] && KernelMapped()
      ensures forall f: nat :: f in m.fl <==> Usable(machine, f)
    {
      m := new Memory(machine, contents);
      this.kspace := kspace;
      procs := seq(NPROCS, _ => Proc(Close, 0, 0, 0));
      new;
      NoTablesTwin(m.St());
    }

    /** A closed slot gets two empty page tables. */
    method OpenAt(o: nat)
      requires Inv() && o < NPROCS && !Live(procs, o) && m.nfree >= 3
      modifies this, m
      ensures RootsAt(old(m.St()), old(procs), o) && Base(old(m.St())) && m.St() == AddTwo(old(m.St()), o)
      ensures Hw(o) in m.tables && Sh(o) in m.tables
      ensures procs == old(procs)[o := Proc(Pending, m.tables[Hw(o)], m.tables[Sh(o)], old(procs)[o].brk)]
      ensures old(KernelMapped()) ==> KernelIn(m.St(), kspace, {Hw(o), Sh(o)})
      ensures Tidy(old(m.St()), m.St())
    {
      hide Ledger, KernelIn, Base, Twin, Singles, WorldOf;
      assert RootsAt(m.St(), procs, o);
      RootKeeps(m.St(), Hw(o));
      if KernelIn(m.St(), kspace, {}) {
        AddTwoHalves(m.St(), o, kspace);
      }
      TidyAdd(m.St(), o);
      var f := m.NewRoot(Hw(o));
      var g := m.NewRoot(Sh(o));
      procs := procs[o := Proc(Pending, f, g, procs[o].brk)];
    }

    /** alloc_proc: the first closed slot. */
    method AllocProc() returns (r: Option<nat>)
      requires Inv() && (m.nfree >= 3 || forall o :: 0 <= o < NPROCS ==> Live(procs, o))
      modifies this, m
      ensures r.None? <==> forall o :: 0 <= o < NPROCS ==> Live(old(procs), o)
      ensures r.None? ==> m.St() == old(m.St()) && procs == old(procs)
      ensures r.Some? ==> r.value < NPROCS && !Live(old(procs), r.value) && RootsAt(old(m.St()), old(procs), r.value)
      ensures r.Some? ==> forall o :: 0 <= o < r.value ==> Live(old(procs), o)
      ensures r.Some? ==> r.value < |old(procs)| && old(procs)[r.value].state == Close
      ensures r.Some? ==> Base(old(m.St())) && m.St() == AddTwo(old(m.St()), r.value)
      ensures r.Some? ==> Hw(r.value) in m.tables && Sh(r.value) in m.tables
      ensures r.Some? ==> procs == old(procs)[r.value := Proc(Pending, m.tables[Hw(r.value)], m.tables[Sh(r.value)], old(procs)[r.value].brk)]
      ensures r.Some? && old(KernelMapped()) ==> KernelIn(m.St(), kspace, {Hw(r.value), Sh(r.value)})
      ensures r.Some? ==> Tidy(old(m.St()), m.St())
    {
      hide Ledger, KernelIn, Base, Twin, Singles, Roots, WorldOf;
      var o := 0;
      while o < |procs|
        invariant 0 <= o <= |procs| && m.St() == old(m.St()) && procs == old(procs)
        invariant forall q :: 0 <= q < o ==> Live(procs, q)
      {
        if procs[o].state == Close {
          SlotCount(m.St(), procs);
          OpenAt(o);
          return Some(o);
        }
        o := o + 1;
      }
      SlotCount(m.St(), procs);
      return None;
    }

    /** The memory part of sys_fork, once the child has its two level-4 tables. */
    method ShareTables(p: nat, c: nat, ghost s: State)
      requires CanFork(s, p, c) && m.St() == AddTwo(s, c) && p < |procs| && c < |procs|
      requires procs[p].pgtbl == s.tables[Hw(p)] && procs[p].ppgtbl == s.tables[Sh(p)]
      requires Hw(c) in m.tables && procs[c].pgtbl == m.tables[Hw(c)] && Sh(c) in m.tables && procs[c].ppgtbl == m.tables[Sh(c)]
      modifies m
      ensures ForkDone(s, m.St(), p, c)
      ensures KernelIn(s, kspace, {}) ==> KernelIn(m.St(), kspace, {})
    {
      hide KernelIn, KernelHalf, Base, Twin, Singles, CopyReady, CopyInv, Cleared, SameRoots, SameKinds, SameButSlot, WorldOf;
      AddTwoKeeps(s, c);
      AddTwoApart(s, c);
      AddTwoFrames(s, c);
      ForkFirst(s, p, c);
      ghost var s1 := m.St();
      m.CopyPgtbl(procs[c].pgtbl, procs[p].ppgtbl, true, Hw(c), Sh(p));
      ghost var s2 := m.St();
      ForkSecond(s1, s2, p, c);
      CopyKeepsRoots(s1, s2, Hw(c), Sh(p));
      m.CopyPgtbl(procs[c].ppgtbl, procs[p].ppgtbl, false, Sh(c), Sh(p));
      ghost var s3 := m.St();
      CopyKeepsRoots(s2, s3, Sh(c), Sh(p));
      m.ClearLevel(procs[c].pgtbl, 4, Hw(c));
      ghost var s4 := m.St();
      ClearKeepsRoots(s3, s4, Hw(c));
      m.ClearLevel(procs[p].pgtbl, 4, Hw(p));
      ForkSteps(s, s1, s2, s3, s4, m.St(), p, c);
      ForkRoots(s1, s2, s3, s4, m.St(), p, c);
      if KernelIn(s, kspace, {}) {
        AddTwoHalves(s, c, kspace);
        ForkHalves(s1, s2, s3, s4, m.St(), p, c, kspace);
      }
      ForkApart(s1, s2, s3, s4, m.St(), p, c);
      ApartTrans(s, s1, m.St(), c);
    }

    /** sys_fork, as far as memory and the process table go. */
    method SysFork(p: nat) returns (c: nat)
      requires Inv() && Live(procs, p) && m.nfree >= ForkNeed(m.St(), p)
      requires exists o :: 0 <= o < NPROCS && !Live(procs, o)
      modifies this, m
      ensures Inv() && c < NPROCS && !Live(old(procs), c) && procs[c].state == Ready
      ensures |procs| == |old(procs)| && forall q :: 0 <= q < |procs| && q != c ==> procs[q] == old(procs)[q]
      ensures forall q :: 0 <= q < c ==> Live(old(procs), q)
      ensures World() == Fork(old(World()), p, c)
      ensures CanFork(old(m.St()), p, c) && ForkDone(old(m.St()), m.St(), p, c)
      ensures old(KernelMapped()) ==> KernelMapped()
    {
      hide KernelIn, Base, Twin, Singles, Pages, ForkDone, WorldOf;
      ghost var s := m.St();
      assert RootsAt(s, procs, p);
      var r := AllocProc();
      c := r.value;
      AddTwoKeeps(s, c);
      ShareTables(p, c, s);
      ForkDoneRoots(s, m.St(), p, c);
      ghost var t := m.St();
      procs := procs[c := procs[c].(brk := procs[p].brk, state := Ready)];
      ForkWorld(s, m.St(), old(procs), procs, p, c);
    }

    /** clear_proc, as far as page tables go: both trees are given back and the slot is closed. */
    method ClearProc(o: nat)
      requires Inv() && Live(procs, o)
      modifies this, m
      ensures Inv() && World() == Exit(old(World()), o) && ExitDone(old(m.St()), m.St(), o)
      ensures procs == old(procs)[o := Proc(Close, 0, 0, 0)] && m.mem == old(m.mem) && m.nfree >= old(m.nfree)
    {
      hide Base, Twin, Singles, Pages, FreedAll, WorldOf;
      ghost var s := m.St();
      assert RootsAt(s, procs, o);
      procs := procs[o := procs[o].(state := Pending)];
      m.FreeLevel(procs[o].pgtbl, 4, true, Hw(o));
      ghost var t := m.St();
      ExitFirst(s, t, o);
      m.FreeLevel(procs[o].ppgtbl, 4, false, Sh(o));
      procs := procs[o := Proc(Close, 0, 0, 0)];
      ExitWorld(s, t, m.St(), old(procs), procs, o);
    }

    /** A walk that makes nothing: the last-level table and the entry for `va`. */
    method Look(root: nat, va: nat, ghost k: Key) returns (table: Option<nat>, e: Word)
      requires Base(m.St()) && m.gone == {} && k.path == Top && k in m.tables && m.tables[k] == root && va < UMAX_ADDRESS
      modifies m
      ensures m.St() == old(m.St()) && e == Leaf(m.St(), k, PathOf(va))
      ensures table == if At(k, PathOf(va).up) in m.tables then Some(m.tables[At(k, PathOf(va).up)]) else None
      ensures table.Some? ==> table.value < |m.mem| && m.mem[table.value][PtIndex(va)] == e
    {
      hide Base, WorldOf;
      Unfold4(PathOf(va));
      WalkReads(m.St(), k, PathOf(va).up);
      var r := m.WalkPgtbl(root, va, false, k);
      if r.Found? {
        BaseTable(m.St(), At(k, PathOf(va).up));
        return Some(r.table), m.mem[r.table][PtIndex(va)];
      }
      return None, ZERO;
    }

    /** page_fault_handler. A user write that was granted and not in force is repaired; any other fault
        kills the process. `errno` 7 is a user write to a present page. */
    method PageFaultHandler(o: nat, va: nat, errno: nat) returns (killed: bool)
      requires Inv() && Live(procs, o)
      requires errno == 7 ==> va < UMAX_ADDRESS && (m.nfree >= 2 || !NeedsPage(m.St(), o, PathOf(va)))
      modifies m
      ensures Inv() && World() == old(World())
      ensures killed <==> errno != 7 || !CanStore(World(), o, va)
      ensures killed ==> m.St() == old(m.St())
      ensures !killed ==> HwLeaf(m.St(), o, PathOf(va)).p && HwLeaf(m.St(), o, PathOf(va)).w
      ensures !killed ==> FaultStep(old(m.St()), m.St(), o, PathOf(va))
      ensures m.nfree >= old(m.nfree) - 1
    {
      hide Roots, Base, Twin, Singles, Pages, WorldOf;
      LiveRoots(m.St(), procs, o);
      if errno != 7 {
        return true;
      }
      var ppt, pe := Look(procs[o].ppgtbl, va, Sh(o));
      FaultSpec(m.St(), procs, o, va);
      if ppt.None? || !(pe.p && pe.u && pe.w) {
        return true;
      }
      var pt, e := Look(procs[o].pgtbl, va, Hw(o));
      FaultTables(m.St(), o, PathOf(va));
      if m.info[e.frame] == 1 {
        FaultFlag(m.St(), procs, o, PathOf(va));
        m.mem := m.mem[pt.value := m.mem[pt.value][PtIndex(va) := e.(w := true)]];
      } else {
        FaultSplit(m.St(), procs, o, PathOf(va));
        var nf := m.SplitPage(pt.value, ppt.value, PtIndex(va), o, PathOf(va));
      }
      return false;
    }

    /** A store instruction of process `o`. The tables above the last level grant everything, so the
        last-level entry decides; a refused store faults, and is retried if the handler repairs it. */
    method UserStore(o: nat, va: nat, b: Byte) returns (ok: bool)
      requires Inv() && Live(procs, o) && va < UMAX_ADDRESS && (m.nfree >= 2 || !NeedsPage(m.St(), o, PathOf(va)))
      modifies m
      ensures Inv() && (ok <==> CanStore(old(World()), o, va))
      ensures World() == if ok then Store(old(World()), o, va, b) else old(World())
      ensures if ok then StoreDone(old(m.St()), m.St(), o, va, b) else m.St() == old(m.St())
      ensures m.nfree >= old(m.nfree) - 1
    {
      hide Roots, FaultStep, Base, Twin, Singles, Pages, WorldOf;
      LiveRoots(m.St(), procs, o);
      var pt, e := Look(procs[o].pgtbl, va, Hw(o));
      if !(e.p && e.u && e.w) {
        var killed := PageFaultHandler(o, va, if e.p then 7 else 6);
        FaultSpec(old(m.St()), procs, o, va);
        TwinLeaf(old(m.St()), o, PathOf(va));
        if killed {
          return false;
        }
        LiveRoots(m.St(), procs, o);
        pt, e := Look(procs[o].pgtbl, va, Hw(o));
      }
      StoreWorld(m.St(), procs, o, va, b);
      ghost var mid := m.St();
      m.mem := m.mem[e.frame := StoreByte(m.mem[e.frame], va % PAGE_SIZE, b)];
      assert ByteStep(mid, m.St(), o, va, b);
      return true;
    }

    /** A load instruction of process `o`; None is a fault that kills it. An address of the kernel's half
        comes to an entry of the level-4 table without U; one between the halves is no address at all. */
    method UserLoad(o: nat, va: nat) returns (r: Option<Byte>)
      requires Inv() && Live(procs, o) && KernelMapped()
      modifies m
      ensures m.St() == old(m.St())
      ensures r == if va < UMAX_ADDRESS && Mapped(World(), o, va) then Some(Peek(World(), o, va)) else None
    {
      hide Roots, Base, Twin, Singles, WorldOf, KernelIn;
      LiveRoots(m.St(), procs, o);
      if va >= UMAX_ADDRESS {
        if va < KERNEL_BASE || ADDRESS_END <= va {
          return None;
        }
        KernelWord(m.St(), kspace, Hw(o), va);
        var top := m.mem[procs[o].pgtbl][Pml4Index(va)];
        if !(top.p && top.u) {
          return None;
        }
        assert false;
      }
      var pt, e := Look(procs[o].pgtbl, va, Hw(o));
      FaultSpec(m.St(), procs, o, va);
      TwinLeaf(m.St(), o, PathOf(va));
      if !(e.p && e.u) {
        return None;
      }
      FaultTables(m.St(), o, PathOf(va));
      LoadSpec(m.St(), procs, o, va);
      return Some(ByteAt(m.mem[e.frame], va % PAGE_SIZE));
    }

    /** U2K: the frame behind a user address. With `write`, a page whose W is not in force is first
        given a frame of its own. The three assertions of the source hold. */
    method U2K(o: nat, va: nat, write: bool) returns (frame: nat)
      requires Inv() && Live(procs, o) && va < UMAX_ADDRESS && Mapped(World(), o, va)
      requires m.nfree >= 2 || !write || !Cow(m.St(), o, PathOf(va))
      modifies m
      ensures Inv() && World() == old(World())
      ensures HwLeaf(m.St(), o, PathOf(va)).p && frame == HwLeaf(m.St(), o, PathOf(va)).frame < |m.mem|
      ensures write && CanStore(World(), o, va) ==> HwLeaf(m.St(), o, PathOf(va)).w
      ensures m.St() == (if write && Cow(old(m.St()), o, PathOf(va)) then SplitOff(old(m.St()), o, PathOf(va)) else old(m.St()))
      ensures Ledger(old(m.St()), m.St(), if write then WastedBy(old(m.St()), o, PathOf(va)) else {}, {})
      ensures OthersKept(old(m.St()), m.St(), o, {PathOf(va)}) && KeepsHalves(old(m.St()), m.St())
    {
      hide KeepsHalves, Roots, Ledger, WastedBy, Base, Twin, Singles, Pages, WorldOf;
      LiveRoots(m.St(), procs, o);
      var pt, e1 := Look(procs[o].pgtbl, va, Hw(o));
      var ppt, e2 := Look(procs[o].ppgtbl, va, Sh(o));
      FaultSpec(m.St(), procs, o, va);
      FaultTables(m.St(), o, PathOf(va));
      TwinLeaf(m.St(), o, PathOf(va));
      assert e1.p && e1.u;
      assert e1.frame == e2.frame;
      U2KFree(m.St(), procs, o, PathOf(va), write);
      KeepsU2K(m.St(), o, PathOf(va), write);
      if !write || (e1.p == e2.p && e1.u == e2.u && e1.w == e2.w) {
        return e1.frame;
      }
      assert !e1.w && e2.w;
      FaultSplit(m.St(), procs, o, PathOf(va));
      SplitOffLeaf(m.St(), o, PathOf(va));
      frame := m.SplitPage(pt.value, ppt.value, PtIndex(va), o, PathOf(va));
    }

    /** A store the kernel makes on behalf of a process, through U2K. */
    method KernelStore(o: nat, va: nat, b: Byte)
      requires Inv() && Live(procs, o) && va < UMAX_ADDRESS && CanStore(World(), o, va)
      requires m.nfree >= 2 || !Cow(m.St(), o, PathOf(va))
      modifies m
      ensures Inv() && World() == Store(old(World()), o, va, b)
      ensures m.nfree >= old(m.nfree) - 1 && KeepsHalves(old(m.St()), m.St())
      ensures Ledger(old(m.St()), m.St(), WastedBy(old(m.St()), o, PathOf(va)), {})
    {
      hide Ledger, WastedBy, KeepsHalves, Base, Twin, Singles, Pages, WorldOf;
      SplitCount(m.St(), o, PathOf(va));
      var frame := U2K(o, va, true);
      StoreWorld(m.St(), procs, o, va, b);
      KeepsKernelStore(old(m.St()), m.St(), o, va, b);
      ghost var mid := m.St();
      m.mem := m.mem[frame := StoreByte(m.mem[frame], va % PAGE_SIZE, b)];
      TidySame(mid, m.St());
      LedgerTidy(old(m.St()), mid, m.St(), WastedBy(old(m.St()), o, PathOf(va)), {});
    }

    /** A zeroed page is allocated and mapped at `va` in the table the hardware uses. */
    method MapHardware(o: nat, va: nat) returns (f: nat)
      requires Inv() && Live(procs, o) && va < UMAX_ADDRESS && !Mapped(World(), o, va)
      requires m.nfree > 1 + Missing(m.St(), Hw(o), PathOf(va).up)
      modifies m
      ensures f < 0x10_0000_0000_0000 && !UserFrame(old(m.St()), f)
      ensures HalfMapped(old(m.St()), m.St(), o, PathOf(va), f, ZeroPage()) && Roots(m.St(), procs)
      ensures m.nfree + 1 + Missing(old(m.St()), Hw(o), PathOf(va).up) == old(m.nfree)
      ensures Made(old(m.St()), m.St(), Hw(o), PathOf(va).up) && Unextended(old(m.St()), m.St(), Sh(o))
      ensures KeepsHalves(old(m.St()), m.St()) && Tidy(old(m.St()), m.St())
    {
      hide Ledger, KeepsHalves, Made, Unextended, Base, Twin, Singles, Pages, InHand, HalfMapped, FreeInv, TreeInv, LeafInv, CountInv, HeldInv, Grown, Roots, WorldOf;
      ghost var s := m.St();
      ghost var v := PathOf(va);
      Unfold4(v);
      NewPageStart(s, procs, o, va);
      TakePage(s);
      var page := m.AllocPage(true);
      f := page.value;
      ghost var t := m.St();
      InHandBase(s, t, f, ZeroPage());
      RootsFrame(s, t, procs);
      assert Unextended(s, t, Hw(o)) && Unextended(s, t, Sh(o)) by {
        UnextendedTables(s, t, Hw(o));
        UnextendedTables(s, t, Sh(o));
      }
      MissingSame(s, t, Hw(o), v.up);
      WalkCreates(t, Hw(o), v.up);
      WalkMakes(t, Hw(o), v.up);
      var h := m.WalkPgtbl(procs[o].pgtbl, va, true, Hw(o));
      ghost var u := m.St();
      WalkInHand(s, t, u, f, ZeroPage(), Hw(o));
      GrownElsewhere(t, u, Hw(o), Sh(o));
      GrownRoots(t, u, Hw(o), procs);
      MapHw(s, u, o, v, f, ZeroPage());
      m.mem := m.mem[h.table := m.mem[h.table][PtIndex(va) := FullEntry(f)]];
      m.kind := m.kind[f := User];
      RootsFrame(u, m.St(), procs);
      MadeBetween(s, t, u, m.St(), Hw(o), v.up);
      UnextendedBetween(s, t, u, m.St(), Sh(o));
      KeepsTrans(s, t, u);
      KeepsTrans(s, u, m.St());
      TidyNewPage(s, t, u, Hw(o), At(Hw(o), v.up), v.i, FullEntry(f));
    }

    /** The same frame is mapped at `va` in the shadow table. */
    method MapShadow(o: nat, va: nat, f: nat, ghost s: State)
      requires Good(s, procs) && Live(procs, o) && va < UMAX_ADDRESS && m.nfree > Missing(m.St(), Sh(o), PathOf(va).up)
      requires f < 0x10_0000_0000_0000 && !UserFrame(s, f)
      requires HalfMapped(s, m.St(), o, PathOf(va), f, ZeroPage()) && Roots(m.St(), procs)
      modifies m
      ensures Inv() && World() == AddZeroPage(WorldOf(s, procs), o, PathOf(va))
      ensures m.nfree + Missing(old(m.St()), Sh(o), PathOf(va).up) == old(m.nfree)
      ensures Made(old(m.St()), m.St(), Sh(o), PathOf(va).up) && Unextended(old(m.St()), m.St(), Hw(o))
      ensures KeepsHalves(old(m.St()), m.St()) && Tidy(old(m.St()), m.St())
    {
      hide Ledger, KeepsHalves, Made, Unextended, Base, Twin, Singles, Pages, HalfMapped, NewPage, FreeInv, TreeInv, LeafInv, CountInv, HeldInv, Grown, Roots, WorldOf;
      ghost var v := PathOf(va);
      Unfold4(v);
      ghost var t := m.St();
      HalfMappedBase(s, t, o, v, f, ZeroPage());
      LiveRoots(t, procs, o);
      WalkCreates(t, Sh(o), v.up);
      WalkMakes(t, Sh(o), v.up);
      var g := m.WalkPgtbl(procs[o].ppgtbl, va, true, Sh(o));
      ghost var u := m.St();
      GrownElsewhere(t, u, Sh(o), Hw(o));
      WalkHalf(s, t, u, o, v, f, ZeroPage(), Sh(o));
      GrownRoots(t, u, Sh(o), procs);
      MapSh(s, u, o, v, f, ZeroPage());
      m.mem := m.mem[g.table := m.mem[g.table][PtIndex(va) := FullEntry(f)]];
      RootsFrame(u, m.St(), procs);
      MadeBetween(t, t, u, m.St(), Sh(o), v.up);
      UnextendedBetween(t, t, u, m.St(), Hw(o));
      KeepsTrans(t, u, m.St());
      TidyPut(t, u, Sh(o), At(Sh(o), v.up), v.i, FullEntry(f));
      NewPageWorld(s, m.St(), procs, o, v, f);
    }

    /** sys_sbrk with a non-negative increment. Returns the old end of the heap, 0 when refused. */
    method SysSbrk(o: nat, inc: nat) returns (r: nat)
      requires Inv() && Live(procs, o) && HeapClear(World()[o])
      requires SbrkRefused(procs[o].brk, inc, m.nfree) || m.nfree > SbrkNeed(m.St(), o, procs[o].brk, inc)
      modifies this, m
      ensures Inv()
      ensures SbrkRefused(old(procs)[o].brk, inc, old(m.nfree)) ==> r == 0 && m.St() == old(m.St()) && procs == old(procs) && World() == old(World())
      ensures !SbrkRefused(old(procs)[o].brk, inc, old(m.nfree)) ==>
                && r == old(procs)[o].brk && World() == Grow(old(World()), o, inc)
                && m.nfree + SbrkNeed(old(m.St()), o, old(procs)[o].brk, inc) == old(m.nfree)
                && procs == old(procs)[o := old(procs)[o].(brk := r + inc)]
      ensures KeepsHalves(old(m.St()), m.St()) && Tidy(old(m.St()), m.St())
    {
      hide RoundUp, Ledger, KeepsHalves, GrowNeed, Base, Twin, Singles, Pages, Roots, WorldOf;
      var brk := procs[o].brk;
      var oEnd := RoundUp(brk);
      var nEnd := RoundUp(brk + inc);
      RoundUpMonotone(brk, brk + inc);
      SbrkPagesIs(brk, inc);
      KeepsSame(m.St(), m.St());
      TidySame(m.St(), m.St());
      var pages := (nEnd - oEnd) / PAGE_SIZE;
      if nEnd >= HEAP_LIMIT || pages - m.nfree >= m.nfree - FREEPAGES_LOWWATER {
        return 0;
      }
      WorldKeys(this);
      GrowHeap(o, nEnd, pages);
      GrowSplit(old(World()), o, inc);
      SetBrk(m.St(), procs, o, brk + inc, procs[o].state);
      procs := procs[o := procs[o].(brk := brk + inc)];
      return brk;
    }

    /** The loop of sys_sbrk: `n` pages from the end of the heap. */
    method GrowHeap(o: nat, end: nat, ghost n: nat)
      requires Inv() && Live(procs, o) && HeapClear(World()[o])
      requires end == RoundUp(procs[o].brk) + n * PAGE_SIZE < HEAP_LIMIT
      requires m.nfree > GrowNeed(m.St(), o, RoundUp(procs[o].brk), n)
      modifies m
      ensures Inv() && World() == HeapUpTo(old(World()), o, end)
      ensures m.nfree + GrowNeed(old(m.St()), o, RoundUp(procs[o].brk), n) == old(m.nfree)
      ensures KeepsHalves(old(m.St()), m.St()) && Tidy(old(m.St()), m.St())
    {
      hide Ledger, KeepsHalves, GrowNeed, Made, Unextended, HalfMapped, Base, Twin, Singles, Pages, Roots, HeapClear, HeapUpTo, RoundUp, WorldOf;
      ghost var w := World();
      WorldKeys(this);
      RoundUpAligned(procs[o].brk);
      HeapNone(w, o);
      KeepsSame(m.St(), m.St());
      TidySame(m.St(), m.St());
      ghost var i := 0;
      var va := RoundUp(procs[o].brk);
      while va < end
        invariant i <= n && va == RoundUp(procs[o].brk) + i * PAGE_SIZE
        invariant Inv() && World() == HeapUpTo(w, o, va)
        invariant m.nfree > GrowNeed(m.St(), o, va, n - i) && KeepsHalves(old(m.St()), m.St()) && Tidy(old(m.St()), m.St())
        invariant m.nfree + GrowNeed(old(m.St()), o, RoundUp(procs[o].brk), n) == old(m.nfree) + GrowNeed(m.St(), o, va, n - i)
      {
        HeapNext(w, o, va);
        ghost var s := m.St();
        GrowNeedFirst(s, o, va, n - i - 1);
        var f := MapHardware(o, va);
        ghost var u := m.St();
        MissingSame(s, u, Sh(o), PathOf(va).up);
        MapShadow(o, va, f, s);
        GrowNeedStep(s, u, m.St(), o, va, n - i - 1);
        KeepsTrans(old(m.St()), s, u);
        KeepsTrans(old(m.St()), u, m.St());
        LedgerTidy(old(m.St()), s, u, {}, {});
        LedgerTidy(old(m.St()), u, m.St(), {}, {});
        va := va + PAGE_SIZE;
        i := i + 1;
      }
      GrowNeedNone(m.St(), o, va);
    }

    /** One page of an image: its table is made if need be, a zeroed page is mapped with all
        permissions and filled. */
    method LoadPage(o: nat, va: nat, pg: Page, ghost s: State, ghost fr: map<Path, nat>, ghost img: Image, ghost n: nat)
      returns (ghost f: nat)
      requires LoadInv(s, m.St(), o, fr, img, n) && EmptySpace(s, o) && Live(procs, o) && Roots(m.St(), procs) && va < UMAX_ADDRESS
      requires PathOf(va) !in fr && PathOf(va) in img && img[PathOf(va)] == pg && fr.Keys <= img.Keys
      requires n < |img| && s.nfree > LoadNeed(img.Keys)
      modifies m
      ensures LoadInv(s, m.St(), o, fr[PathOf(va) := f], img, n + 1) && Roots(m.St(), procs)
      ensures KeepsHalves(old(m.St()), m.St()) && Tidy(old(m.St()), m.St())
    {
      hide Ledger, KeepsHalves, Made, Base, FreeInv, TreeInv, LeafInv, CountInv, HeldInv, Grown, Roots, LoadInv, EmptySpace, WorldOf;
      ghost var v := PathOf(va);
      Unfold4(v);
      ghost var t := m.St();
      LoadInvBase(s, t, o, fr, img, n);
      LoadRoom(s, t, o, fr, img, v, n);
      LiveRoots(t, procs, o);
      WalkCreates(t, Hw(o), v.up);
      WalkMakes(t, Hw(o), v.up);
      WalkCounts(t, Hw(o), v.up, true);
      var h := m.WalkPgtbl(procs[o].pgtbl, va, true, Hw(o));
      ghost var u := m.St();
      GrownRoots(t, u, Hw(o), procs);
      LoadStep(s, t, u, o, fr, img, v, n);
      LoadTake(t, u, Hw(o));
      TidyLoad(t, u, Hw(o), At(Hw(o), v.up), v.i, FullEntry(u.fl[0]), pg);
      var page := m.AllocPage(true);
      f := page.value;
      m.mem := m.mem[h.table := m.mem[h.table][PtIndex(va) := FullEntry(page.value)]];
      m.kind := m.kind[f := User];
      m.mem := m.mem[page.value := pg];
      RootsFrame(u, m.St(), procs);
    }

    /** The kernel's half of k_pgtbl goes into the table the hardware uses. */
    method MapKernel(o: nat) returns (ghost pg: Page)
      requires Base(m.St()) && o < |procs| && Hw(o) in m.tables && m.tables[Hw(o)] == procs[o].pgtbl < |m.mem|
      modifies m
      ensures m.St() == Half(old(m.St()), Hw(o), pg)
      ensures pg[..256] == old(m.mem)[procs[o].pgtbl][..256] && pg[256..] == kspace[256..]
    {
      hide Base;
      ghost var t := m.St();
      var root := procs[o].pgtbl;
      var i := 256;
      while i < 512
        invariant 256 <= i <= 512 && |m.mem| == |t.mem|
        invariant m.St() == t.(mem := m.mem) && m.mem == t.mem[root := m.mem[root]]
        invariant m.mem[root][..256] == t.mem[root][..256]
        invariant forall j :: 256 <= j < i ==> m.mem[root][j] == kspace[j]
      {
        m.mem := m.mem[root := m.mem[root][i := kspace[i]]];
        i := i + 1;
      }
      pg := m.mem[root];
    }

    /** The pages of a program are loaded into the empty hardware tree. */
    method LoadPages(o: nat, image: seq<(nat, Page)>, ghost img: Image) returns (ghost fr: map<Path, nat>)
      requires Inv() && Live(procs, o) && EmptyTrees(m.St(), o) && ImageOk(image) && m.nfree > ImageNeed(image) && img == ImageMap(image)
      modifies m
      ensures LoadInv(old(m.St()), m.St(), o, fr, img, |image|) && Roots(m.St(), procs) && fr.Keys == img.Keys && |image| == |img|
      ensures KeepsHalves(old(m.St()), m.St()) && Tidy(old(m.St()), m.St())
    {
      hide Ledger, KeepsHalves, LoadNeed, Base, Twin, Singles, Pages, Roots, LoadInv, EmptySpace, EmptyTrees, Loading, ImageMap, Good, WorldOf;
      ghost var s := m.St();
      fr := map[];
      ImageMapNone(image);
      ImageMapSize(image);
      LoadInvStart(s, procs, o, img);
      KeepsSame(s, s);
      TidySame(s, s);
      var i := 0;
      while i < |image|
        invariant 0 <= i <= |image| && LoadInv(s, m.St(), o, fr, img, i) && Roots(m.St(), procs)
        invariant fr.Keys == ImageMap(image[..i]).Keys <= img.Keys && KeepsHalves(s, m.St()) && Tidy(s, m.St())
      {
        ImageMapNext(image, i);
        ghost var before := m.St();
        ghost var f := LoadPage(o, image[i].0, image[i].1, s, fr, img, i);
        KeepsTrans(s, before, m.St());
        LedgerTidy(s, before, m.St(), {}, {});
        fr := fr[PathOf(image[i].0) := f];
        i := i + 1;
      }
      assert image[..i] == image;
    }

    /** A program is loaded: its pages, the kernel's half, and the shadow tree as a copy. */
    method LoadImage(o: nat, image: seq<(nat, Page)>)
      requires Inv() && Live(procs, o) && EmptyTrees(m.St(), o) && ImageOk(image) && m.nfree > ImageNeed(image)
      modifies m
      ensures Inv() && World() == old(World())[o := Space(ImagePages(ImageMap(image)), procs[o].brk)]
      ensures m.nfree + ImageNeed(image) == old(m.nfree)
      ensures KernelIn(old(m.St()), kspace, {Hw(o), Sh(o)}) ==> KernelIn(m.St(), kspace, {})
      ensures Tidy(old(m.St()), m.St())
    {
      hide Ledger, KeepsHalves, KernelIn, KernelHalf, LoadNeed, Base, Twin, Singles, Pages, Roots, LoadInv, EmptySpace, EmptyTrees, CopyReady, CopyInv, Loading, ImageMap, ImagePages, Good, WorldOf, ImageOk;
      ghost var s := m.St();
      ghost var img := ImageMap(image);
      ghost var fr := LoadPages(o, image, img);
      ghost var loaded := m.St();
      LoadInvBase(s, loaded, o, fr, img, |image|);
      LiveRoots(loaded, procs, o);
      BaseTable(loaded, Hw(o));
      ghost var pg := MapKernel(o);
      ghost var t := m.St();
      HalfLoading(s, loaded, o, fr, img, |image|, pg);
      RootsFrame(loaded, t, procs);
      GoodParts(s, procs);
      LoadCopyReady(s, t, o, fr, img, |image|);
      LiveRoots(t, procs, o);
      m.CopyPgtbl(procs[o].ppgtbl, procs[o].pgtbl, false, Sh(o), Hw(o));
      CopyKeepsRoots(t, m.St(), Sh(o), Hw(o));
      LoadCost(s, t, m.St(), o, fr, img, |image|);
      if KernelIn(s, kspace, {Hw(o), Sh(o)}) {
        NewProcessHalves(s, loaded, t, m.St(), o, kspace, pg);
      }
      TidySame(loaded, t);
      TidyCopy(t, m.St(), Sh(o), Hw(o));
      LedgerTidy(s, loaded, t, {}, {});
      LedgerTidy(s, t, m.St(), {}, {});
      ImageWorld(s, t, m.St(), procs, o, fr, img);
    }

    /** create_proc; None is -EAGAIN. `end` is where the last segment ends. */
    method CreateProc(image: seq<(nat, Page)>, end: nat) returns (r: Option<nat>)
      requires Inv() && ImageOk(image) && m.nfree > 2 + ImageNeed(image)
      modifies this, m
      ensures Inv()
      ensures r.None? <==> forall o :: 0 <= o < NPROCS ==> Live(old(procs), o)
      ensures r.None? ==> World() == old(World())
      ensures r.Some? ==> r.value < NPROCS && !Live(old(procs), r.value) && forall q :: 0 <= q < r.value ==> Live(old(procs), q)
      ensures r.Some? ==> World() == old(World())[r.value := Space(ImagePages(ImageMap(image)), end)]
      ensures r.Some? ==> m.nfree + 2 + ImageNeed(image) == old(m.nfree)
      ensures r.Some? ==> IsReady(procs, r.value) && |procs| == |old(procs)|
      ensures r.Some? ==> forall q :: 0 <= q < |procs| && q != r.value ==> procs[q] == old(procs)[q]
      ensures old(KernelMapped()) ==> KernelMapped()
      ensures Tidy(old(m.St()), m.St())
    {
      hide Ledger, KernelIn, ImageNeed, Base, Twin, Singles, Pages, Roots, EmptyTrees, Good, ImageMap, ImagePages, WorldOf;
      TidySame(m.St(), m.St());
      GoodParts(m.St(), procs);
      r := AllocProc();
      if r.Some? {
        var o := r.value;
        ghost var slot := m.St();
        OpenSlot(old(m.St()), old(procs), procs, o);
        LoadImage(o, image);
        LedgerTidy(old(m.St()), slot, m.St(), {}, {});
        SetBrk(m.St(), procs, o, end, Ready);
        procs := procs[o := procs[o].(brk := end, state := Ready)];
      }
    }

    /** The memory part of sys_exec once the image has been accepted: the old program's trees are
        given back and the new program's are built in their place. The heap goes on where the larger
        of the old and the new program ends. */
    method SysExec(o: nat, image: seq<(nat, Page)>, end: nat)
      requires Inv() && Live(procs, o) && ImageOk(image)
      requires m.nfree + Conservation.Refund(m.St(), o) > 2 + ImageNeed(image)
      modifies this, m
      ensures Inv() && World() == old(World())[o := Space(ImagePages(ImageMap(image)), Max(old(procs)[o].brk, end))]
      ensures m.nfree + 2 + ImageNeed(image) == old(m.nfree) + Conservation.Refund(old(m.St()), o)
      ensures IsReady(procs, o) && |procs| == |old(procs)| && forall q :: 0 <= q < |procs| && q != o ==> procs[q] == old(procs)[q]
      ensures procs[o].brk >= old(procs)[o].brk && procs[o].brk >= end && (procs[o].brk == old(procs)[o].brk || procs[o].brk == end)
      ensures old(KernelMapped()) ==> KernelMapped()
      ensures Tidy(old(m.St()), m.St())
    {
      hide Ledger, KernelIn, KeepsHalves, Conservation.Refund, ImageNeed, ExitDone, AddTwo, RootsAt, ImageOk, Base, Twin, Singles, Pages, Roots, EmptyTrees, Good, ImageMap, ImagePages, WorldOf;
      var brk := Max(procs[o].brk, end);
      GoodParts(m.St(), procs);
      ClearProc(o);
      GoodParts(m.St(), procs);
      Conservation.ExitRefunds(old(m.St()), m.St(), o);
      ghost var s := m.St();
      ghost var before := procs;
      if KernelIn(old(m.St()), kspace, {}) {
        KeepsExit(old(m.St()), s, o);
        KeepsIn(old(m.St()), s, kspace, {});
      }
      TidyExit(old(m.St()), s, o);
      OpenAt(o);
      ghost var slot := m.St();
      OpenSlot(s, before, procs, o);
      LoadImage(o, image);
      LedgerTidy(old(m.St()), s, slot, {}, {});
      LedgerTidy(old(m.St()), slot, m.St(), {}, {});
      SetBrk(m.St(), procs, o, brk, Ready);
      procs := procs[o := procs[o].(brk := brk, state := Ready)];
    }

    /** A byte stored through a kernel pointer obtained from U2K for writing at `va`. */
    method RawStore(frame: nat, off: nat, b: Byte, ghost o: nat, ghost va: nat)
      requires Inv() && Live(procs, o) && va < UMAX_ADDRESS && off == va % PAGE_SIZE
      requires HwLeaf(m.St(), o, PathOf(va)).p && HwLeaf(m.St(), o, PathOf(va)).w && frame == HwLeaf(m.St(), o, PathOf(va)).frame
      modifies m
      ensures Inv() && CanStore(old(World()), o, va) && World() == Store(old(World()), o, va, b)
      ensures m.nfree == old(m.nfree) && forall q, u :: HwLeaf(m.St(), q, u) == HwLeaf(old(m.St()), q, u)
      ensures forall q, u :: ShLeaf(m.St(), q, u) == ShLeaf(old(m.St()), q, u)
      ensures m.kind == old(m.kind) && m.info == old(m.info) && KeepsHalves(old(m.St()), m.St())
    {
      hide KeepsHalves, Base, Twin, Singles, Pages, WorldOf;
      StoreWorld(m.St(), procs, o, va, b);
      RawLeaves(m.St(), o, PathOf(va), StoreByte(m.mem[frame], off, b));
      LeafIsRef(m.St(), o, PathOf(va));
      KeepsStored(m.St(), frame, StoreByte(m.mem[frame], off, b));
      m.mem := m.mem[frame := StoreByte(m.mem[frame], off, b)];
    }

    /** A byte read through a kernel pointer obtained from U2K at `va`. */
    method RawLoad(frame: nat, off: nat, ghost o: nat, ghost va: nat) returns (b: Byte)
      requires Inv() && Live(procs, o) && va < UMAX_ADDRESS && off == va % PAGE_SIZE
      requires HwLeaf(m.St(), o, PathOf(va)).p && frame == HwLeaf(m.St(), o, PathOf(va)).frame
      ensures Mapped(World(), o, va) && b == Peek(World(), o, va)
    {
      hide Base, Twin, Singles, Pages, WorldOf;
      TwinLeaf(m.St(), o, PathOf(va));
      LoadSpec(m.St(), procs, o, va);
      b := ByteAt(m.mem[frame], off);
    }

    method SetState(o: nat, state: ProcState)
      requires Inv() && Live(procs, o) && state != Close
      modifies this
      ensures Inv() && World() == old(World()) && procs == old(procs)[o := old(procs)[o].(state := state)]
    {
      hide Base, Twin, Singles, Pages, Roots;
      SetBrk(m.St(), procs, o, procs[o].brk, state);
      procs := procs[o := procs[o].(state := state)];
    }
  }

  /** The living processes, and only they, are in the world. */
  lemma WorldKeys(k: Kernel)
    requires k.Inv()
    ensures |k.procs| == NPROCS
    ensures forall o: nat :: o in k.World() <==> Live(k.procs, o)
    ensures forall o: nat :: Live(k.procs, o) ==> k.World()[o].brk == k.procs[o].brk
  {
  }

  lemma InvParts(k: Kernel)
    requires k.Inv()
    ensures Base(k.m.St()) && k.m.gone == {} && Twin(k.m.St())
  {
  }

  lemma KeptMapped(k: Kernel, s: State)
    requires KernelIn(s, k.kspace, {}) && Private(k.kspace) && KeepsHalves(s, k.m.St())
    ensures k.KernelMapped()
  {
    KeepsIn(s, k.m.St(), k.kspace, {});
  }
}
