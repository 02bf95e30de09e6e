/** A run from boot that loses a frame: create, fork, the child's end, one write of the kernel, and the parent's end. */
module LostFrame {
  import opened Words
  import opened Paths
  import opened PageState
  import opened CopySteps
  import opened FreeLoop
  import opened DeepCopy
  import opened Views
  import opened SplitSteps
  import opened KernelHalves
  import opened PageNeeds
  import opened ImageSteps
  import opened Processes
  import opened Kernels
  import opened Losses
  import opened Runs
  import Conservation

  lemma {:induction false} WaySize(q: Path)
    ensures |Way(q)| <= Depth(q)
  {
    if q.Sub? {
      WaySize(q.up);
    }
  }

  /** An image of one page takes at most seven. */
  lemma OnePageNeed(va: nat, pg: Page)
    ensures ImageNeed([(va, pg)]) <= 7
  {
    var image, v := [(va, pg)], PathOf(va);
    assert image[..0] == [] && ImageMap([]) == map[];
    assert ImageMap(image).Keys == {v};
    Unfold4(v);
    WaySize(v.up);
    assert Ways({v}) == Way(v.up);
  }

  lemma TablesUsed(s: State, p: nat)
    requires Sized(s)
    ensures |Below(s, Sh(p))| <= |s.tables|
  {
    SubsetSize(Below(s, Sh(p)), s.tables.Keys);
    assert |s.tables.Keys| == |s.tables|;
  }

  /** With one process every mapped frame has one reference. */
  lemma OnlyProcess(s: State, procs: seq<Proc>, p: nat, v: Path)
    requires Good(s, procs) && (forall o :: o != p ==> !Live(procs, o)) && Depth(v) == 4 && HwLeaf(s, p, v).p
    ensures HwLeaf(s, p, v).frame < |s.info| && s.info[HwLeaf(s, p, v).frame] == 1
  {
    hide Base, Twin, FreeInv, TreeInv, LeafInv, HeldInv, Roots;
    BaseParts(s);
    var f := HwLeaf(s, p, v).frame;
    LeafIsRef(s, p, v);
    forall x | x in Refs(s, f) ensures x == (At(Hw(p), v.up), v.i) {
      RefIsLeaf(s, f, x);
      var u := Sub(x.0.path, x.1);
      if x.0.owner != p {
        NoOther(s, procs, p, x.0);
      }
      assert OneToOne(s, p);
    }
    OnlyMember(Refs(s, f), (At(Hw(p), v.up), v.i));
  }

  lemma NoOther(s: State, procs: seq<Proc>, p: nat, k: Key)
    requires Good(s, procs) && (forall o :: o != p ==> !Live(procs, o)) && k.owner != p
    ensures k !in s.tables
  {
    hide Base, Twin, Singles, FreeInv, LeafInv, CountInv, HeldInv;
    BaseParts(s);
    var root := Key(k.owner, k.shadow, Top);
    assert root.owner < NPROCS ==> RootsAt(s, procs, root.owner);
    NoRootNoTable(s, root, k.path);
    assert At(root, k.path) == k;
  }

  /** A page the only process may write is in the state in which a fork and the child's end make its next write by the
      kernel lose a frame. */
  lemma WasteAhead(k: Kernel, p: nat, va: nat)
    requires k.Inv() && (forall o :: o != p ==> !Live(k.procs, o)) && Live(k.procs, p) && CanStore(k.World(), p, va)
    ensures var s, v := k.m.St(), PathOf(va);
      && HwLeaf(s, p, v).p && ShLeaf(s, p, v).w && HwLeaf(s, p, v).frame < |s.info| && s.info[HwLeaf(s, p, v).frame] == 1
  {
    hide Base, Singles;
    var s, v := k.m.St(), PathOf(va);
    FaultSpec(s, k.procs, p, va);
    TwinLeaf(s, p, v);
    OnlyProcess(s, k.procs, p, v);
  }

  lemma WasteNow(s0: State, s1: State, t: State, p: nat, c: nat, v: Path)
    requires CanFork(s0, p, c) && ForkDone(s0, s1, p, c) && ExitDone(s1, t, c) && Base(t) && t.gone == {}
    requires Depth(v) == 4 && HwLeaf(s0, p, v).p && ShLeaf(s0, p, v).w && HwLeaf(s0, p, v).frame < |s0.info|
    requires s0.info[HwLeaf(s0, p, v).frame] == 1
    ensures Wastes(t, p, v)
  {
    hide Base, Twin, Singles, ForkDone, ExitDone, IsLost;
    Conservation.U2KLosesAfterFork(s0, s1, t, p, c, v);
    Conservation.U2KLoses(t, SplitOff(t, p, v), p, v, true);
  }

  lemma OneStep(es: seq<Step>, e: Step, v: World, w: World)
    requires LeadsTo(es, v) && LeadsTo(es + [e], w)
    ensures Takes(v, e, w)
  {
    hide Takes;
    var all, n := es + [e], |es|;
    assert all[..n] == es && all[n] == e;
    var u :| LeadsTo(all[..n], u) && Takes(u, all[n], w);
    LeadsToOne(es, u, v);
  }

  const PROGRAM: nat := 0x400000

  /** The first process after boot, and what it leaves free. */
  method First(machine: Machine, contents: seq<Page>, kspace: Page) returns (c: Computer, p: nat)
    requires MachineOk(machine) && |contents| == machine.count && Private(kspace) && |Conservation.UsablePages(machine)| >= 64
    ensures fresh(c) && fresh(c.k) && fresh(c.k.m) && c.Inv() && c.k.m.machine == machine && c.wasted == 0
    ensures p < NPROCS && (forall o :: Live(c.k.procs, o) <==> o == p) && CanStore(c.k.World(), p, PROGRAM)
    ensures c.k.m.nfree >= ForkNeed(c.k.m.St(), p) + 30
    ensures c.history == [Created(p, [(PROGRAM, ZeroPage())], PROGRAM + 1)]
  {
    hide Kernel.Inv, Kernel.World, KernelIn, Books, LeadsTo, HeapClear, ImagePages, Conservation.UsablePages, ForkNeed, ImageNeed, PathOf;
    SomeUsable(machine);
    c := new Computer(machine, contents, kspace);
    var image := [(PROGRAM, ZeroPage())];
    BootWorld(c);
    OnePageNeed(PROGRAM, ZeroPage());
    ghost var w := c.k.World();
    assert !Live(c.k.procs, 0);
    var r := c.Create(image, PROGRAM + 1);
    p := r.value;
    assert [] + [Created(p, image, PROGRAM + 1)] == c.history;
    OneStep([], Created(p, image, PROGRAM + 1), w, c.k.World());
    ImageMapAt(image, 0);
    WorldKeys(c.k);
    CreateWorld(w, c.k.World(), p, image);
    RoomToFork(c, p);
  }

  lemma SomeUsable(machine: Machine)
    requires MachineOk(machine) && |Conservation.UsablePages(machine)| >= 64
    ensures exists f: nat :: Usable(machine, f)
  {
    var f :| f in Conservation.UsablePages(machine);
  }

  lemma BootWorld(c: Computer)
    requires c.Inv() && c.history == [] && c.wasted == 0
    ensures c.k.World() == map[] && |c.k.procs| == NPROCS && (forall o :: !Live(c.k.procs, o))
    ensures c.k.m.nfree == |Conservation.UsablePages(c.k.m.machine)|
  {
    hide Kernel.Inv, Kernel.World, KernelIn, Books, HeapClear, Conservation.UsablePages;
    WorldKeys(c.k);
    AllReturned(c);
  }

  lemma CreateWorld(v: World, w: World, p: nat, image: seq<(nat, Page)>)
    requires v == map[] && image == [(PROGRAM, ZeroPage())] && Takes(v, Created(p, image, PROGRAM + 1), w)
    requires PathOf(PROGRAM) in ImageMap(image)
    ensures w.Keys == {p} && CanStore(w, p, PROGRAM)
  {
    hide PathOf, ImageMap;
  }

  lemma RoomToFork(c: Computer, p: nat)
    requires c.Inv() && c.wasted == 0 && |Conservation.UsablePages(c.k.m.machine)| >= 64
    requires c.k.m.nfree + 9 >= |Conservation.UsablePages(c.k.m.machine)|
    ensures c.k.m.nfree >= ForkNeed(c.k.m.St(), p) + 30
  {
    hide Kernel.Inv, Kernel.World, KernelIn, Books, HeapClear, LeadsTo, Conservation.UsablePages, Conservation.InUse;
    AllAccounted(c);
    TablesUsed(c.k.m.St(), p);
  }

  /** A child comes and goes: its parent sees no difference, but the page it may write is ready to be wasted. */
  method ComeAndGo(c: Computer, p: nat) returns (q: nat)
    requires c.Inv() && (forall o :: Live(c.k.procs, o) <==> o == p) && CanStore(c.k.World(), p, PROGRAM)
    requires c.k.m.nfree >= ForkNeed(c.k.m.St(), p) + 30
    modifies c, c.k, c.k.m
    ensures c.Inv() && c.wasted == old(c.wasted) && c.history == old(c.history) + [Forked(p, q), Exited(q)]
    ensures c.k.World() == old(c.k.World()) && c.k.m.nfree >= 2 && Wastes(c.k.m.St(), p, PathOf(PROGRAM))
  {
    hide Kernel.Inv, Kernel.World, KernelIn, Books, LeadsTo, HeapClear, ForkNeed, CanFork, ForkDone, ExitDone, PathOf, Wastes, Base, Twin, Takes, CanStore;
    WasteAhead(c.k, p, PROGRAM);
    ghost var s0, w0, h0 := c.k.m.St(), c.k.World(), c.history;
    WorldKeys(c.k);
    assert !Live(c.k.procs, if p == 0 then 1 else 0);
    q := c.Fork(p);
    ghost var s1, w1, h1 := c.k.m.St(), c.k.World(), c.history;
    OneStep(h0, Forked(p, q), w0, w1);
    Forks(w0, w1, p, q);
    WorldKeys(c.k);
    ForkLeft(s0, s1, p, q);
    c.Exit(q);
    ghost var s2, w2 := c.k.m.St(), c.k.World();
    OneStep(h1, Exited(q), w1, w2);
    Exits(w0, w1, w2, p, q);
    InvParts(c.k);
    ExitLeft(s1, s2, q);
    WasteNow(s0, s1, s2, p, q, PathOf(PROGRAM));
    assert c.history == h0 + [Forked(p, q), Exited(q)];
  }

  lemma Forks(v: World, w: World, p: nat, q: nat)
    requires Takes(v, Forked(p, q), w)
    ensures q !in v && q in w && w == Fork(v, p, q)
  {
  }

  lemma Exits(u: World, v: World, w: World, p: nat, q: nat)
    requires p in u && q !in u && v == Fork(u, p, q) && Takes(v, Exited(q), w)
    ensures w == u
  {
  }

  /** From boot to a machine without processes and with one page less. */
  method LoseAFrame(machine: Machine, contents: seq<Page>, kspace: Page) returns (c: Computer, p: nat, q: nat)
    requires MachineOk(machine) && |contents| == machine.count && Private(kspace) && |Conservation.UsablePages(machine)| >= 64
    ensures c.Inv() && c.k.m.machine == machine && forall o :: !Live(c.k.procs, o)
    ensures c.history == [Created(p, [(PROGRAM, ZeroPage())], PROGRAM + 1), Forked(p, q), Exited(q), Wrote(p, PROGRAM, 1), Exited(p)]
    ensures c.k.m.nfree + 1 == |Conservation.UsablePages(machine)|
  {
    hide Kernel.Inv, Kernel.World, KernelIn, Books, LeadsTo, HeapClear, Conservation.UsablePages, ForkNeed, ExitDone, PathOf, Wastes, CanStore, Takes;
    c, p := First(machine, contents, kspace);
    WorldKeys(c.k);
    ghost var w0 := c.k.World();
    q := ComeAndGo(c, p);
    ghost var h2 := c.history;
    WorldKeys(c.k);
    c.StoreFor(p, PROGRAM, 1);
    ghost var w3, h3 := c.k.World(), c.history;
    OneStep(h2, Wrote(p, PROGRAM, 1), w0, w3);
    StoresKeys(w0, w3, p);
    WorldKeys(c.k);
    c.Exit(p);
    OneStep(h3, Exited(p), w3, c.k.World());
    LastExits(w3, c.k.World(), p);
    WorldKeys(c.k);
    AllReturned(c);
  }

  lemma StoresKeys(v: World, w: World, p: nat)
    requires Takes(v, Wrote(p, PROGRAM, 1), w)
    ensures w.Keys == v.Keys
  {
    hide PathOf;
  }

  lemma LastExits(v: World, w: World, p: nat)
    requires Takes(v, Exited(p), w) && forall o :: o in v <==> o == p
    ensures forall o :: o !in w
  {
  }

  lemma ForkLeft(s: State, t: State, p: nat, c: nat)
    requires CanFork(s, p, c) && ForkDone(s, t, p, c) && s.nfree >= ForkNeed(s, p) + 30
    ensures t.nfree >= 30 && p != c
  {
  }

  lemma ExitLeft(s: State, t: State, o: nat)
    requires ExitDone(s, t, o)
    ensures t.nfree >= s.nfree && t.gone <= s.gone
  {
  }
}
