/** Process slots, the invariant every system call keeps, and what each step of fork, exit, a fault, growth and
    loading does to it and to what processes see. */
module Processes {
  import opened Words
  import opened Paths
  import opened PageState
  import opened TableSteps
  import opened CopySteps
  import opened CopyLoop
  import opened ClearLoop
  import opened FreeLoop
  import opened Boot
  import opened DeepCopy
  import opened Views
  import opened Sharing
  import opened WholeTrees
  import opened SplitSteps
  import opened NewPages
  import opened KernelHalves
  import opened PageNeeds
  import opened ImageSteps

  const NPROCS: nat := 1024

  datatype ProcState = Close | Ready | Running | Pending | Zombie

  /** `pgtbl` and `ppgtbl` are the frames of the level-4 tables, `brk` is end_umem. */
  datatype Proc = Proc(state: ProcState, pgtbl: nat, ppgtbl: nat, brk: nat)

  predicate Live(procs: seq<Proc>, o: nat)
  {
    o < |procs| && procs[o].state != Close
  }

  predicate IsReady(procs: seq<Proc>, i: nat)
  {
    i < |procs| && procs[i].state == Ready
  }

  /** A process slot in use owns two trees, at the frames it records; a closed one owns none. */
  ghost predicate RootsAt(s: State, procs: seq<Proc>, o: nat)
    requires o < |procs|
  {
    if Live(procs, o) then
      && Hw(o) in s.tables && s.tables[Hw(o)] == procs[o].pgtbl
      && Sh(o) in s.tables && s.tables[Sh(o)] == procs[o].ppgtbl
    else Hw(o) !in s.tables && Sh(o) !in s.tables
  }

  ghost predicate Roots(s: State, procs: seq<Proc>)
  {
    && |procs| == NPROCS && (forall o :: 0 <= o < NPROCS ==> RootsAt(s, procs, o))
    && (forall k: Key :: k.path == Top && k in s.tables ==> k.owner < NPROCS)
  }

  /** What every system call keeps. */
  ghost predicate Good(s: State, procs: seq<Proc>)
  {
    Base(s) && s.gone == {} && Twin(s) && Singles(s) && Roots(s, procs)
  }

  /** The kernel as its users see it. */
  ghost function WorldOf(s: State, procs: seq<Proc>): (w: World)
  {
    map o | 0 <= o < |procs| && Live(procs, o) :: Space(Pages(s, o), procs[o].brk)
  }

  // ---------------------------------------------------------------- fork, from tables to worlds

  /** The five steps of a fork's memory work, seen through the translations. */
  lemma ForkSteps(s0: State, s1: State, s2: State, s3: State, s4: State, s5: State, p: nat, c: nat)
    requires Base(s1) && Base(s2) && Base(s3) && Base(s4) && p != c
    requires SameLeaves(s0, s1) && SameFrames(s0, s1) && (forall f: nat :: UserFrame(s0, f) ==> UserFrame(s1, f))
    requires CopyInv(s1, s2, Hw(c), Sh(p), 256) && CopyInv(s2, s3, Sh(c), Sh(p), 256)
    requires Cleared(s3, s4, Hw(c), 256) && Cleared(s4, s5, Hw(p), 256)
    ensures Forked(s0, s5, p, c) && SameFrames(s0, s5)
  {
    hide Base, Cleared, CopyInv;
    CopyTranslates(s1, s2, Hw(c), Sh(p));
    CopyTranslates(s2, s3, Sh(c), Sh(p));
    ClearTranslates(s3, s4, Hw(c));
    ClearTranslates(s4, s5, Hw(p));
    ForkFrames(s1, s2, s3, s4, Hw(c), Sh(c), Sh(p));
  }

  lemma ForkFrames(s1: State, s2: State, s3: State, s4: State, hc: Key, sc: Key, sp: Key)
    requires CopyInv(s1, s2, hc, sp, 256) && CopyInv(s2, s3, sc, sp, 256) && Cleared(s3, s4, hc, 256)
    ensures forall f: nat :: UserFrame(s1, f) ==> UserFrame(s2, f) && UserFrame(s3, f) && UserFrame(s4, f)
  {
    forall f: nat | UserFrame(s1, f) ensures UserFrame(s2, f) && UserFrame(s3, f) && UserFrame(s4, f) {
      assert SameUse(s1, s2, f);
      assert SameUse(s2, s3, f);
    }
  }

  // ---------------------------------------------------------------- roots

  /** No tree came or went. */
  ghost predicate SameRoots(s: State, t: State)
  {
    && (forall k: Key :: k.path == Top ==> (k in t.tables <==> k in s.tables))
    && (forall k: Key :: k.path == Top && k in s.tables ==> t.tables[k] == s.tables[k])
  }

  lemma OutsideRoots(s: State, t: State, k: Key)
    requires Outside(s, t, k)
    ensures SameRoots(s, t)
  {
    forall l: Key | l.path == Top && l in t.tables ensures l in s.tables {
      if l !in s.tables {
        UnderDepth(k.path, l.path);
      }
    }
  }

  lemma RootsFrame(s: State, t: State, procs: seq<Proc>)
    requires Roots(s, procs) && SameRoots(s, t)
    ensures Roots(t, procs)
  {
    forall o | 0 <= o < NPROCS ensures RootsAt(t, procs, o) {
      assert RootsAt(s, procs, o);
    }
  }

  /** Two fresh trees for slot `o`. */
  ghost function AddTwo(s: State, o: nat): (t: State)
    requires Base(s) && s.gone == {} && s.nfree >= 3 && Hw(o) !in s.tables && Sh(o) !in s.tables
  {
    RootKeeps(s, Hw(o));
    AddRoot(AddRoot(s, Hw(o)), Sh(o))
  }

  lemma AddTwoKeeps(s: State, o: nat)
    requires Base(s) && s.gone == {} && s.nfree >= 3 && Hw(o) !in s.tables && Sh(o) !in s.tables
    ensures var t := AddTwo(s, o);
      && Base(t) && t.gone == {} && t.nfree + 2 == s.nfree && (forall l, j :: Ent(t, l, j) == Ent(s, l, j))
      && (forall k :: k in t.tables <==> k in s.tables || k == Hw(o) || k == Sh(o))
      && (forall k :: k in s.tables ==> t.tables[k] == s.tables[k])
  {
    hide Base;
    RootKeeps(s, Hw(o));
    BaseParts(s);
    BaseParts(AddRoot(s, Hw(o)));
    RootKeeps(AddRoot(s, Hw(o)), Sh(o));
  }

  lemma AddTwoFrames(s: State, o: nat)
    requires Base(s) && s.gone == {} && s.nfree >= 3 && Hw(o) !in s.tables && Sh(o) !in s.tables
    ensures var t := AddTwo(s, o);
      SameFrames(s, t) && SameLeaves(s, t) && (forall f: nat :: UserFrame(s, f) ==> UserFrame(t, f))
  {
    hide Base;
    RootKeeps(s, Hw(o));
    AddTwoKeeps(s, o);
    BaseParts(s);
    RootKeeps(AddRoot(s, Hw(o)), Sh(o));
    BaseParts(AddRoot(s, Hw(o)));
  }

  lemma AddTwoSeen(s: State, o: nat)
    requires Base(s) && s.gone == {} && s.nfree >= 3 && Hw(o) !in s.tables && Sh(o) !in s.tables && Twin(s)
    ensures Twin(AddTwo(s, o)) && (Singles(s) ==> Singles(AddTwo(s, o))) && forall q :: Pages(AddTwo(s, o), q) == Pages(s, q)
    ensures Pages(s, o) == imap[]
  {
    hide Base, Twin, Singles, Pages;
    AddTwoKeeps(s, o);
    AddTwoFrames(s, o);
    SameSeen(s, AddTwo(s, o));
    if Singles(s) {
      SinglesSame(s, AddTwo(s, o));
    }
    NoRootNoPages(s, o);
  }

  /** Without a level-4 table there is no table at all. */
  lemma {:induction false} NoRootNoTable(s: State, k: Key, q: Path)
    requires Sized(s) && TreeInv(s) && k.path == Top && k !in s.tables
    ensures At(k, q) !in s.tables
  {
    if q.Sub? {
      NoRootNoTable(s, k, q.up);
      assert At(k, q) in s.tables ==> Linked(s, At(k, q));
    }
  }

  lemma NoRootNoPages(s: State, o: nat)
    requires Base(s) && Sh(o) !in s.tables
    ensures Pages(s, o) == imap[]
  {
    hide Base, TreeInv;
    BaseParts(s);
    forall v | Depth(v) == 4 ensures !ShLeaf(s, o, v).p {
      NoRootNoTable(s, Sh(o), v.up);
    }
  }

  /** How many pages a fork of process `p` takes, and one to spare. */
  ghost function ForkNeed(s: State, p: nat): (n: nat)
  {
    3 + 2 * |Below(s, Sh(p))|
  }

  ghost predicate CanFork(s: State, p: nat, c: nat)
  {
    && Base(s) && s.gone == {} && Twin(s) && Singles(s) && s.nfree >= ForkNeed(s, p) && p != c
    && Hw(p) in s.tables && Sh(p) in s.tables && Hw(c) !in s.tables && Sh(c) !in s.tables
  }

  lemma ForkFirst(s: State, p: nat, c: nat)
    requires CanFork(s, p, c)
    ensures CopyReady(AddTwo(s, c), Hw(c), Sh(p), true) && Below(AddTwo(s, c), Sh(p)) == Below(s, Sh(p))
  {
    hide Base, Twin, Singles;
    AddTwoKeeps(s, c);
    AddTwoSeen(s, c);
    var t := AddTwo(s, c);
    TwinSource(t, p);
    FreshTree(t, Hw(c), Sh(p));
    assert Below(t, Sh(p)) == Below(s, Sh(p));
  }

  lemma ForkSecond(s: State, t: State, p: nat, c: nat)
    requires Base(t) && CopyInv(s, t, Hw(c), Sh(p), 256) && t.nfree > |Below(s, Sh(p))|
    requires Sh(c) in s.tables && Sh(p) in s.tables && p != c && forall i :: 0 <= i < 256 ==> !Ent(s, Sh(c), i).p
    ensures CopyReady(t, Sh(c), Sh(p), false) && Below(t, Sh(p)) == Below(s, Sh(p))
  {
    hide Base;
    BelowOutside(s, t, Hw(c), Sh(p));
    FreshTree(t, Sh(c), Sh(p));
  }

  lemma ForkRoots(s1: State, s2: State, s3: State, s4: State, s5: State, p: nat, c: nat)
    requires CopyInv(s1, s2, Hw(c), Sh(p), 256) && CopyInv(s2, s3, Sh(c), Sh(p), 256)
    requires Cleared(s3, s4, Hw(c), 256) && Cleared(s4, s5, Hw(p), 256)
    ensures SameRoots(s1, s2) && SameRoots(s1, s3) && SameRoots(s1, s4) && SameRoots(s1, s5)
    ensures s3.gone == s4.gone == s5.gone == {} && s5.nfree == s4.nfree == s3.nfree
  {
    OutsideRoots(s1, s2, Hw(c));
    OutsideRoots(s2, s3, Sh(c));
  }

  /** Frames of user memory and pages in hand are the same pages as before. */
  ghost predicate SameKinds(s: State, t: State)
  {
    |t.kind| == |s.kind| && forall f :: 0 <= f < |s.kind| ==> (t.kind[f] == User <==> s.kind[f] == User) && (t.kind[f] == Held <==> s.kind[f] == Held)
  }

  /** The tables of all slots but `c` are the same tables as before. */
  ghost predicate SameButSlot(s: State, t: State, c: nat)
  {
    && (forall k: Key :: k.owner != c ==> (k in t.tables <==> k in s.tables))
    && (forall k: Key :: k.owner != c && k in s.tables ==> t.tables[k] == s.tables[k])
  }

  lemma CopyApart(s: State, t: State, kd: Key, ks: Key)
    requires CopyInv(s, t, kd, ks, 256)
    ensures SameKinds(s, t) && SameButSlot(s, t, kd.owner)
  {
    forall f | 0 <= f < |s.kind| ensures (t.kind[f] == User <==> s.kind[f] == User) && (t.kind[f] == Held <==> s.kind[f] == Held) {
      assert SameUse(s, t, f);
    }
  }

  lemma ForkApart(s1: State, s2: State, s3: State, s4: State, s5: State, p: nat, c: nat)
    requires CopyInv(s1, s2, Hw(c), Sh(p), 256) && CopyInv(s2, s3, Sh(c), Sh(p), 256)
    requires Cleared(s3, s4, Hw(c), 256) && Cleared(s4, s5, Hw(p), 256)
    ensures SameKinds(s1, s5) && SameButSlot(s1, s5, c)
  {
    hide CopyInv;
    CopyApart(s1, s2, Hw(c), Sh(p));
    CopyApart(s2, s3, Sh(c), Sh(p));
  }

  lemma ApartTrans(s: State, t: State, u: State, c: nat)
    requires SameKinds(s, t) && SameKinds(t, u) && SameButSlot(s, t, c) && SameButSlot(t, u, c)
    ensures SameKinds(s, u) && SameButSlot(s, u, c)
  {
  }

  lemma AddTwoApart(s: State, o: nat)
    requires Base(s) && s.gone == {} && s.nfree >= 3 && Hw(o) !in s.tables && Sh(o) !in s.tables
    ensures SameKinds(s, AddTwo(s, o)) && SameButSlot(s, AddTwo(s, o), o)
  {
    hide Base, FreeInv, TreeInv, LeafInv, CountInv, HeldInv, SameKinds, SameButSlot;
    BaseParts(s);
    RootKeeps(s, Hw(o));
    AddTwoKeeps(s, o);
    RootApart(s, Hw(o));
    RootApart(AddRoot(s, Hw(o)), Sh(o));
    ApartTrans(s, AddRoot(s, Hw(o)), AddTwo(s, o), o);
  }

  lemma RootApart(s: State, k: Key)
    requires Base(s) && s.gone == {} && s.nfree >= 2 && k.path == Top && k !in s.tables
    ensures s.fl != [] && SameKinds(s, AddRoot(s, k)) && SameButSlot(s, AddRoot(s, k), k.owner)
  {
    hide Base, TreeInv, LeafInv, CountInv, HeldInv;
    BaseParts(s);
    assert Listed(s, 0);
  }

  /** The whole of a fork's memory work. */
  ghost predicate ForkDone(s: State, t: State, p: nat, c: nat)
    requires CanFork(s, p, c)
  {
    && Base(t) && t.gone == {} && t.machine == s.machine && Forked(s, t, p, c) && SameFrames(s, t)
    && SameRoots(AddTwo(s, c), t) && t.nfree + 2 + 2 * |Below(s, Sh(p))| == s.nfree
    && SameKinds(s, t) && SameButSlot(s, t, c)
  }

  lemma CopyKeepsRoots(s: State, t: State, kd: Key, ks: Key)
    requires CopyInv(s, t, kd, ks, 256)
    ensures t.gone == {} && forall k: Key :: k.path == Top && k in s.tables ==> k in t.tables && t.tables[k] == s.tables[k]
  {
  }

  lemma ClearKeepsRoots(s: State, t: State, k: Key)
    requires Cleared(s, t, k, 256)
    ensures t.gone == s.gone && t.tables == s.tables
  {
  }

  lemma ForkDoneRoots(s: State, t: State, p: nat, c: nat)
    requires CanFork(s, p, c) && ForkDone(s, t, p, c)
    ensures forall k: Key :: k.path == Top && k in AddTwo(s, c).tables ==> k in t.tables && t.tables[k] == AddTwo(s, c).tables[k]
    ensures t.nfree + 2 + 2 * |Below(s, Sh(p))| == s.nfree
  {
  }

  lemma ForkWorld(s: State, t: State, procs: seq<Proc>, procs': seq<Proc>, p: nat, c: nat)
    requires Good(s, procs) && CanFork(s, p, c) && ForkDone(s, t, p, c) && Live(procs, p) && c < NPROCS && !Live(procs, c)
    requires Hw(c) in t.tables && Sh(c) in t.tables
    requires procs' == procs[c := Proc(Ready, t.tables[Hw(c)], t.tables[Sh(c)], procs[p].brk)]
    ensures Good(t, procs') && WorldOf(t, procs') == Fork(WorldOf(s, procs), p, c)
  {
    hide Base, Twin, Singles, Pages;
    AddTwoKeeps(s, c);
    ForkSeen(s, t, p, c);
    SinglesFork(s, t, p, c);
    forall o | 0 <= o < NPROCS ensures RootsAt(t, procs', o) {
      assert RootsAt(s, procs, o);
    }
    assert WorldOf(t, procs') == Fork(WorldOf(s, procs), p, c);
  }

  // ---------------------------------------------------------------- exit

  /** What clear_proc does to the page tables. */
  ghost predicate ExitDone(s: State, t: State, o: nat)
  {
    exists mid :: FreedAll(s, mid, Hw(o)) && FreedAll(mid, t, Sh(o))
  }

  lemma ExitFirst(s: State, t: State, o: nat)
    requires FreedAll(s, t, Hw(o)) && s.gone == {} && Sh(o) in s.tables
    ensures FreeReady(t, Sh(o)) && t.tables[Sh(o)] == s.tables[Sh(o)] && t.gone == {} && t.mem == s.mem
  {
  }

  lemma ExitRoots(s: State, t: State, u: State, o: nat)
    requires FreedAll(s, t, Hw(o)) && FreedAll(t, u, Sh(o)) && s.gone == {}
    ensures u.gone == {} && u.mem == s.mem && u.nfree >= s.nfree
    ensures forall k :: k in u.tables <==> k in s.tables && k.owner != o
    ensures forall k :: k in u.tables ==> u.tables[k] == s.tables[k]
  {
    forall k ensures InSubtree(Hw(o), k) || InSubtree(Sh(o), k) <==> k.owner == o {
      UnderTop(k.path);
    }
  }

  lemma ExitWorld(s: State, t: State, u: State, procs: seq<Proc>, procs': seq<Proc>, o: nat)
    requires Good(s, procs) && Live(procs, o) && Base(u) && FreedAll(s, t, Hw(o)) && FreedAll(t, u, Sh(o))
    requires procs' == procs[o := Proc(Close, 0, 0, 0)]
    ensures Good(u, procs') && WorldOf(u, procs') == Exit(WorldOf(s, procs), o) && u.mem == s.mem && u.nfree >= s.nfree
  {
    hide Base, Twin, Singles, Pages, FreedAll;
    ExitRoots(s, t, u, o);
    FreeTranslates(s, t, Hw(o));
    FreeTranslates(t, u, Sh(o));
    ExitSeen(s, u, o);
    SinglesExit(s, u, o);
    forall q | 0 <= q < NPROCS ensures RootsAt(u, procs', q) {
      assert RootsAt(s, procs, q);
    }
    assert WorldOf(u, procs') == Exit(WorldOf(s, procs), o);
  }

  // ---------------------------------------------------------------- faults

  /** What the handler reads from the shadow table is what the process may do. */
  lemma FaultSpec(s: State, procs: seq<Proc>, o: nat, va: nat)
    requires Base(s) && Twin(s) && Live(procs, o)
    ensures var pe := ShLeaf(s, o, PathOf(va)); CanStore(WorldOf(s, procs), o, va) <==> pe.p && pe.u && pe.w
    ensures Mapped(WorldOf(s, procs), o, va) <==> ShLeaf(s, o, PathOf(va)).p
  {
    hide Base;
    assert TwinAt(s, o, PathOf(va));
  }

  /** A store to page `v` would make the fault handler take a page. */
  ghost predicate NeedsPage(s: State, o: nat, v: Path)
  {
    Cow(s, o, v) && HwLeaf(s, o, v).frame < |s.info| && s.info[HwLeaf(s, o, v).frame] != 1
  }

  /** A store through a writable hardware entry is the store of the deep-copy kernel. */
  lemma StoreWorld(s: State, procs: seq<Proc>, o: nat, va: nat, b: Byte)
    requires Good(s, procs) && Live(procs, o) && HwLeaf(s, o, PathOf(va)).p && HwLeaf(s, o, PathOf(va)).w
    ensures CanStore(WorldOf(s, procs), o, va) && HwLeaf(s, o, PathOf(va)).frame < |s.mem|
    ensures var f := HwLeaf(s, o, PathOf(va)).frame;
      var t := Stored(s, f, StoreByte(s.mem[f], va % PAGE_SIZE, b));
      Good(t, procs) && WorldOf(t, procs) == Store(WorldOf(s, procs), o, va, b)
  {
    hide Base, Twin, Singles, Pages;
    var v := PathOf(va);
    var f := HwLeaf(s, o, v).frame;
    FaultSpec(s, procs, o, va);
    TwinLeaf(s, o, v);
    FaultTables(s, o, v);
    LeafIsRef(s, o, v);
    FrameInMemory(s, f);
    var pg := StoreByte(s.mem[f], va % PAGE_SIZE, b);
    StoreSeen(s, o, v, pg);
    StoredLeaves(s, o, v, pg);
    PageIs(s, o, v);
    RootsFrame(s, Stored(s, f, pg), procs);
  }

  lemma RawLeaves(s: State, o: nat, v: Path, pg: Page)
    requires Base(s) && Depth(v) == 4 && HwLeaf(s, o, v).p
    ensures HwLeaf(s, o, v).frame < |s.mem|
    ensures forall q, u :: HwLeaf(Stored(s, HwLeaf(s, o, v).frame, pg), q, u) == HwLeaf(s, q, u)
    ensures forall q, u :: ShLeaf(Stored(s, HwLeaf(s, o, v).frame, pg), q, u) == ShLeaf(s, q, u)
  {
    hide Base;
    LeafIsRef(s, o, v);
    StoredKeeps(s, HwLeaf(s, o, v).frame, pg);
    SameEntries(s, Stored(s, HwLeaf(s, o, v).frame, pg));
  }

  lemma StoredLeaves(s: State, o: nat, v: Path, pg: Page)
    requires Base(s) && Singles(s) && Depth(v) == 4 && HwLeaf(s, o, v).p
    ensures HwLeaf(s, o, v).frame < |s.mem| && Singles(Stored(s, HwLeaf(s, o, v).frame, pg))
  {
    hide Base, Singles;
    RawLeaves(s, o, v, pg);
    SinglesSame(s, Stored(s, HwLeaf(s, o, v).frame, pg));
  }

  lemma PageIs(s: State, o: nat, v: Path)
    requires Depth(v) == 4 && ShLeaf(s, o, v).p && ShLeaf(s, o, v).frame < |s.mem|
    ensures v in Pages(s, o) && Pages(s, o)[v] == UserPage(s.mem[ShLeaf(s, o, v).frame], ShLeaf(s, o, v).w)
  {
  }

  lemma LoadSpec(s: State, procs: seq<Proc>, o: nat, va: nat)
    requires Base(s) && Twin(s) && Live(procs, o) && ShLeaf(s, o, PathOf(va)).p
    ensures HwLeaf(s, o, PathOf(va)).frame < |s.mem| && Mapped(WorldOf(s, procs), o, va)
    ensures Peek(WorldOf(s, procs), o, va) == ByteAt(s.mem[HwLeaf(s, o, PathOf(va)).frame], va % PAGE_SIZE)
  {
    hide Base;
    var v := PathOf(va);
    TwinLeaf(s, o, v);
    LeafIsRef(s, o, v);
    FrameInMemory(s, HwLeaf(s, o, v).frame);
  }

  lemma SplitOffLeaf(s: State, o: nat, v: Path)
    requires Base(s) && s.gone == {} && s.nfree >= 2 && Depth(v) == 4 && HwLeaf(s, o, v).p && ShLeaf(s, o, v).p
    ensures s.fl != [] && HwLeaf(SplitOff(s, o, v), o, v).frame == s.fl[0] < |SplitOff(s, o, v).mem|
  {
    hide Base, FreeInv, TreeInv, LeafInv, CountInv, HeldInv;
    BaseParts(s);
    SplitBounds(s, o, v);
    SplitOffKeeps(s, o, v);
    BaseParts(SplitOff(s, o, v));
  }

  lemma SplitCount(s: State, o: nat, v: Path)
    requires Base(s) && s.gone == {} && (s.nfree >= 2 || !Cow(s, o, v))
    ensures Cow(s, o, v) ==> s.fl != [] && SplitOff(s, o, v).nfree + 1 == s.nfree
  {
    if Cow(s, o, v) {
      SplitBounds(s, o, v);
      SplitOffKeeps(s, o, v);
    }
  }

  lemma FaultTables(s: State, o: nat, v: Path)
    requires Base(s) && Twin(s) && Depth(v) == 4 && ShLeaf(s, o, v).p
    ensures HwLeaf(s, o, v).p && HwLeaf(s, o, v).frame == ShLeaf(s, o, v).frame < |s.info| == |s.mem|
    ensures HwLeaf(s, o, v).w ==> s.info[HwLeaf(s, o, v).frame] == 1
    ensures At(Hw(o), v.up) in s.tables && At(Sh(o), v.up) in s.tables && v.i < 512
  {
    hide Base;
    assert TwinAt(s, o, v);
    CowTables(s, o, v);
    FrameInMemory(s, HwLeaf(s, o, v).frame);
  }

  ghost function Flagged(s: State, o: nat, v: Path): (t: State)
    requires Base(s) && Depth(v) == 4 && HwLeaf(s, o, v).p && ShLeaf(s, o, v).p
  {
    CowTables(s, o, v);
    Put(s, At(Hw(o), v.up), v.i, HwLeaf(s, o, v).(w := true))
  }

  /** One repaired write fault of process `o` at page `v`. */
  ghost predicate FaultStep(s: State, t: State, o: nat, v: Path)
  {
    && Base(s) && s.gone == {} && Depth(v) == 4 && HwLeaf(s, o, v).p && ShLeaf(s, o, v).p && HwLeaf(s, o, v).frame < |s.info|
    && (if s.info[HwLeaf(s, o, v).frame] == 1 then t == Flagged(s, o, v) else s.fl != [] && t == SplitOff(s, o, v))
  }

  /** A store lands on page `v` of `o`, where W is in force. */
  ghost predicate PutStep(s: State, t: State, o: nat, v: Path, pg: Page)
  {
    && Depth(v) == 4 && HwLeaf(s, o, v).p && HwLeaf(s, o, v).w && HwLeaf(s, o, v).frame < |s.mem|
    && t == Stored(s, HwLeaf(s, o, v).frame, pg)
  }

  /** A byte is stored at `va` by `o`. */
  ghost predicate ByteStep(s: State, t: State, o: nat, va: nat, b: Byte)
  {
    var v := PathOf(va);
    && HwLeaf(s, o, v).frame < |s.mem|
    && PutStep(s, t, o, v, StoreByte(s.mem[HwLeaf(s, o, v).frame], va % PAGE_SIZE, b))
  }

  /** A store instruction that succeeds: with W in force it lands at once, else after a repaired fault. */
  ghost predicate StoreDone(s: State, t: State, o: nat, va: nat, b: Byte)
  {
    if HwLeaf(s, o, PathOf(va)).w then ByteStep(s, t, o, va, b)
    else exists mid :: FaultStep(s, mid, o, PathOf(va)) && ByteStep(mid, t, o, va, b)
  }

  lemma FaultFlag(s: State, procs: seq<Proc>, o: nat, v: Path)
    requires Good(s, procs) && Depth(v) == 4 && HwLeaf(s, o, v).p && ShLeaf(s, o, v).p && ShLeaf(s, o, v).w
    requires HwLeaf(s, o, v).frame < |s.info| && s.info[HwLeaf(s, o, v).frame] == 1
    ensures var t := Flagged(s, o, v);
      && Good(t, procs) && WorldOf(t, procs) == WorldOf(s, procs) && HwLeaf(t, o, v).p && HwLeaf(t, o, v).w
  {
    hide Base, Twin, Singles, Pages;
    CowTables(s, o, v);
    LeafIsRef(s, o, v);
    ReflagKeeps(s, At(Hw(o), v.up), v.i, HwLeaf(s, o, v).(w := true));
    var t := Flagged(s, o, v);
    FlagTwin(s, t, o, v);
    SinglesSame(s, t);
    RootsFrame(s, t, procs);
    FlagFrames(s, o, v);
    forall q ensures Pages(t, q) == Pages(s, q) {
      PagesSame(s, t, q, q);
    }
  }

  lemma FlagFrames(s: State, o: nat, v: Path)
    requires Base(s) && Depth(v) == 4 && HwLeaf(s, o, v).p && ShLeaf(s, o, v).p
    ensures SameFrames(s, Flagged(s, o, v))
  {
    CowTables(s, o, v);
  }

  lemma SplitOffSingles(s: State, o: nat, v: Path)
    requires Base(s) && s.gone == {} && s.fl != [] && Twin(s) && Singles(s) && Cow(s, o, v)
    ensures Singles(SplitOff(s, o, v))
  {
    hide Base, Twin, Singles;
    BaseParts(s);
    SplitOffKeeps(s, o, v);
    SplitOffFresh(s, o, v);
    SinglesReplaced(s, SplitOff(s, o, v), o, v, s.fl[0]);
  }

  lemma NewPageSingles(s: State, t: State, o: nat, v: Path, f: nat, pg: Page)
    requires Base(s) && Singles(s) && Depth(v) == 4 && f < 0x10_0000_0000_0000 && NewPage(s, t, o, v, f, pg)
    ensures Singles(t)
  {
    hide Base, Singles;
    SinglesReplaced(s, t, o, v, f);
  }

  lemma FaultSplit(s: State, procs: seq<Proc>, o: nat, v: Path)
    requires Good(s, procs) && Depth(v) == 4 && HwLeaf(s, o, v).p && ShLeaf(s, o, v).p && ShLeaf(s, o, v).w && s.nfree >= 2
    requires !HwLeaf(s, o, v).w || (HwLeaf(s, o, v).frame < |s.info| && s.info[HwLeaf(s, o, v).frame] != 1)
    ensures s.fl != []
    ensures var t := SplitOff(s, o, v);
      && Good(t, procs) && WorldOf(t, procs) == WorldOf(s, procs) && HwLeaf(t, o, v).p && HwLeaf(t, o, v).w
      && t.nfree + 1 == s.nfree
  {
    hide Base, Pages, FreeInv, TreeInv, LeafInv, CountInv, HeldInv;
    assert TwinAt(s, o, v);
    SplitBounds(s, o, v);
    SplitOffKeeps(s, o, v);
    SplitOffSeen(s, o, v);
    SplitOffSingles(s, o, v);
    RootsFrame(s, SplitOff(s, o, v), procs);
  }

  // ---------------------------------------------------------------- new pages

  ghost function AddZeroPage(w: World, o: nat, v: Path): (r: World)
    requires o in w
  {
    w[o := w[o].(pages := w[o].pages[v := UserPage(ZeroPage(), true)])]
  }

  lemma FreeNonEmpty(s: State)
    requires Sized(s) && FreeInv(s) && s.nfree > 0
    ensures s.fl != []
  {
  }

  lemma SlotCount(s: State, procs: seq<Proc>)
    requires Roots(s, procs)
    ensures |procs| == NPROCS
  {
  }

  lemma LiveRoots(s: State, procs: seq<Proc>, o: nat)
    requires Roots(s, procs) && Live(procs, o)
    ensures Hw(o) in s.tables && s.tables[Hw(o)] == procs[o].pgtbl
    ensures Sh(o) in s.tables && s.tables[Sh(o)] == procs[o].ppgtbl
  {
    assert RootsAt(s, procs, o);
  }

  lemma NewPageStart(s: State, procs: seq<Proc>, o: nat, va: nat)
    requires Good(s, procs) && Live(procs, o) && !Mapped(WorldOf(s, procs), o, va) && s.nfree > 0
    ensures Sized(s) && FreeInv(s) && s.fl != [] && !HwLeaf(s, o, PathOf(va)).p
    ensures Hw(o) in s.tables && s.tables[Hw(o)] == procs[o].pgtbl
  {
    hide Base, Twin, Singles, FreeInv, TreeInv, LeafInv, CountInv, HeldInv;
    BaseParts(s);
    FreeNonEmpty(s);
    LiveRoots(s, procs, o);
    FaultSpec(s, procs, o, va);
    TwinLeaf(s, o, PathOf(va));
  }

  const FREEPAGES_LOWWATER: int := 1000

  function SbrkPages(brk: nat, inc: nat): (n: nat)
  {
    RoundUpMonotone(brk, brk + inc);
    (RoundUp(brk + inc) - RoundUp(brk)) / PAGE_SIZE
  }

  /** The test of sys_sbrk as it is written: the free pages are subtracted on both sides. */
  predicate SbrkRefused(brk: nat, inc: nat, nfree: nat)
  {
    RoundUp(brk + inc) >= HEAP_LIMIT || SbrkPages(brk, inc) - nfree >= nfree - FREEPAGES_LOWWATER
  }

  /** What growing the heap takes: the new pages, and the tables missing in both trees. */
  ghost function SbrkNeed(s: State, o: nat, brk: nat, inc: nat): (n: nat)
  {
    GrowNeed(s, o, RoundUp(brk), SbrkPages(brk, inc))
  }

  /** The increment that brings the heap to `n` pages behind its end. */
  function GrowBy(brk: nat, n: nat): (inc: nat)
    ensures RoundUp(brk + inc) == RoundUp(brk) + n * PAGE_SIZE && SbrkPages(brk, inc) == n
  {
    RoundUpAligned(brk);
    RoundUpAligned(RoundUp(brk) + n * PAGE_SIZE);
    RoundUp(brk) - brk + n * PAGE_SIZE
  }

  /** The test is not that there are enough pages. It keeps growth within the free pages exactly if they
      are at most one above the low-water mark or the address space ends first; in every other case it
      lets a growth by one page more than there are through. */
  lemma SbrkOvercommits(brk: nat, nfree: nat)
    ensures (forall inc: nat :: !SbrkRefused(brk, inc, nfree) ==> SbrkPages(brk, inc) <= nfree) <==>
      nfree <= FREEPAGES_LOWWATER + 1 || RoundUp(brk) + (nfree + 1) * PAGE_SIZE >= HEAP_LIMIT
    ensures !SbrkRefused(brk, GrowBy(brk, nfree + 1), nfree) <==>
      !(nfree <= FREEPAGES_LOWWATER + 1 || RoundUp(brk) + (nfree + 1) * PAGE_SIZE >= HEAP_LIMIT)
  {
    var more := GrowBy(brk, nfree + 1);
    forall inc: nat | !SbrkRefused(brk, inc, nfree) && SbrkPages(brk, inc) > nfree
      ensures !(nfree <= FREEPAGES_LOWWATER + 1 || RoundUp(brk) + (nfree + 1) * PAGE_SIZE >= HEAP_LIMIT)
    {
      SbrkPagesIs(brk, inc);
    }
  }

  /** With more than 1000 pages free, growth within the free pages and the address space is let through; with 500 or
      fewer nothing is, not even no growth at all. */
  lemma SbrkAccepts(brk: nat, inc: nat, nfree: nat)
    ensures RoundUp(brk + inc) >= HEAP_LIMIT ==> SbrkRefused(brk, inc, nfree)
    ensures nfree > FREEPAGES_LOWWATER && SbrkPages(brk, inc) <= nfree && RoundUp(brk + inc) < HEAP_LIMIT ==> !SbrkRefused(brk, inc, nfree)
    ensures 2 * nfree <= FREEPAGES_LOWWATER ==> SbrkRefused(brk, inc, nfree)
  {
    hide RoundUp;
  }

  lemma SbrkPagesIs(brk: nat, inc: nat)
    ensures RoundUp(brk + inc) == RoundUp(brk) + SbrkPages(brk, inc) * PAGE_SIZE
  {
    RoundUpAligned(brk);
    RoundUpAligned(brk + inc);
    RoundUpMonotone(brk, brk + inc);
  }

  /** The pages of `o` with the heap mapped up to `end`. */
  ghost function HeapUpTo(w: World, o: nat, end: nat): (r: World)
    requires o in w
  {
    w[o := w[o].(pages := AddPages(w[o].pages, RoundUp(w[o].brk), end))]
  }

  lemma GrowSplit(w: World, o: nat, inc: nat)
    requires o in w
    ensures var h := HeapUpTo(w, o, RoundUp(w[o].brk + inc)); o in h && Grow(w, o, inc) == h[o := Space(h[o].pages, w[o].brk + inc)]
  {
  }

  lemma HeapNone(w: World, o: nat)
    requires o in w
    ensures HeapUpTo(w, o, RoundUp(w[o].brk)) == w
  {
    AddPagesNone(w[o].pages, RoundUp(w[o].brk));
  }

  lemma HeapNext(w: World, o: nat, va: nat)
    requires o in w && HeapClear(w[o]) && RoundUp(w[o].brk) <= va < HEAP_LIMIT && va % PAGE_SIZE == 0
    ensures !Mapped(HeapUpTo(w, o, va), o, va)
    ensures HeapUpTo(w, o, va + PAGE_SIZE) == AddZeroPage(HeapUpTo(w, o, va), o, PathOf(va))
  {
    NextPageFree(w[o], va);
    AddPagesNext(w[o].pages, RoundUp(w[o].brk), va);
  }

  lemma InHandBase(s: State, t: State, f: nat, pg: Page)
    requires InHand(s, t, f, pg)
    ensures Base(t) && t.gone == {}
  {
  }

  lemma HalfMappedBase(s: State, t: State, o: nat, v: Path, f: nat, pg: Page)
    requires f < 0x10_0000_0000_0000 && HalfMapped(s, t, o, v, f, pg)
    ensures Base(t) && t.gone == {}
  {
  }

  lemma GrownRoots(s: State, t: State, k: Key, procs: seq<Proc>)
    requires Grown(s, t, k) && Roots(s, procs)
    ensures SameRoots(s, t) && Roots(t, procs)
  {
    OutsideRoots(s, t, k);
    RootsFrame(s, t, procs);
  }

  lemma NewPageWorld(s: State, t: State, procs: seq<Proc>, o: nat, v: Path, f: nat)
    requires Good(s, procs) && Live(procs, o) && Base(t) && t.gone == {} && Roots(t, procs) && Depth(v) == 4
    requires f < 0x10_0000_0000_0000 && NewPage(s, t, o, v, f, ZeroPage())
    ensures Good(t, procs) && WorldOf(t, procs) == AddZeroPage(WorldOf(s, procs), o, v)
  {
    hide Base, Twin, Singles, Pages, NewPage;
    NewPageSeen(s, t, o, v, f, ZeroPage());
    NewPageSingles(s, t, o, v, f, ZeroPage());
  }

  // ---------------------------------------------------------------- new programs

  ghost predicate ImageOk(image: seq<(nat, Page)>)
  {
    && (forall i :: 0 <= i < |image| ==> image[i].0 < UMAX_ADDRESS)
    && (forall i, j :: 0 <= i < j < |image| ==> PathOf(image[i].0) != PathOf(image[j].0))
  }

  ghost function ImageMap(image: seq<(nat, Page)>): (r: Image)
  {
    if image == [] then map[]
    else ImageMap(image[..|image| - 1])[PathOf(image[|image| - 1].0) := image[|image| - 1].1]
  }

  lemma {:induction false} ImageMapAt(image: seq<(nat, Page)>, i: nat)
    requires ImageOk(image) && i < |image|
    ensures PathOf(image[i].0) in ImageMap(image) && ImageMap(image)[PathOf(image[i].0)] == image[i].1
  {
    if i < |image| - 1 {
      ImageMapAt(image[..|image| - 1], i);
    }
  }

  lemma {:induction false} ImageMapOnly(image: seq<(nat, Page)>, va: nat)
    requires forall i :: 0 <= i < |image| ==> PathOf(image[i].0) != PathOf(va)
    ensures PathOf(va) !in ImageMap(image)
  {
    if image != [] {
      ImageMapOnly(image[..|image| - 1], va);
    }
  }

  lemma ImageMapNone(image: seq<(nat, Page)>)
    ensures ImageMap(image[..0]) == map[]
  {
  }

  lemma GoodParts(s: State, procs: seq<Proc>)
    requires Good(s, procs)
    ensures Base(s) && s.gone == {} && Twin(s) && Singles(s) && Roots(s, procs) && |procs| == NPROCS
  {
  }

  lemma ImageMapNext(image: seq<(nat, Page)>, i: nat)
    requires ImageOk(image) && i < |image|
    ensures PathOf(image[i].0) !in ImageMap(image[..i])
    ensures ImageMap(image[..i + 1]).Keys == ImageMap(image[..i]).Keys + {PathOf(image[i].0)}
    ensures PathOf(image[i].0) in ImageMap(image) && ImageMap(image)[PathOf(image[i].0)] == image[i].1
  {
    ImageMapAt(image, i);
    ImageMapOnly(image[..i], image[i].0);
    assert image[..i + 1][..i] == image[..i];
  }

  lemma {:induction false} ImageMapFrom(image: seq<(nat, Page)>, v: Path) returns (i: nat)
    requires v in ImageMap(image)
    ensures i < |image| && v == PathOf(image[i].0)
  {
    i := |image| - 1;
    if v != PathOf(image[i].0) {
      i := ImageMapFrom(image[..i], v);
    }
  }

  /** `end` is where the segments end; only the stack lies beyond. */
  ghost predicate EndsAt(image: seq<(nat, Page)>, end: nat)
  {
    forall i :: 0 <= i < |image| ==> image[i].0 < end || HEAP_LIMIT <= image[i].0
  }

  lemma EndsClear(image: seq<(nat, Page)>, end: nat, brk: nat)
    requires ImageOk(image) && EndsAt(image, end) && end <= brk
    ensures HeapClear(Space(ImagePages(ImageMap(image)), brk))
  {
    hide PathOf, AddressOf, RoundUp, ImageMap;
    forall v | v in ImageMap(image) && Depth(v) == 4 && UserPath(v)
      ensures AddressOf(v) < RoundUp(brk) || HEAP_LIMIT <= AddressOf(v)
    {
      var i := ImageMapFrom(image, v);
      AddressOfPathOf(image[i].0);
      RoundUpAligned(brk);
      assert HEAP_LIMIT % PAGE_SIZE == 0;
    }
  }

  /** A new program sees the pages of its image at their addresses, may write them, and sees nothing else. */
  lemma ImageSees(w: World, o: nat, image: seq<(nat, Page)>, brk: nat, va: nat)
    requires ImageOk(image) && va < UMAX_ADDRESS && o in w && w[o] == Space(ImagePages(ImageMap(image)), brk)
    ensures Mapped(w, o, va) <==> exists i :: 0 <= i < |image| && image[i].0 / PAGE_SIZE == va / PAGE_SIZE
    ensures forall i :: 0 <= i < |image| && image[i].0 / PAGE_SIZE == va / PAGE_SIZE ==>
      CanStore(w, o, va) && Peek(w, o, va) == ByteAt(image[i].1, va % PAGE_SIZE)
  {
    hide PathOf, ImageMap, ByteAt;
    forall i | 0 <= i < |image| && image[i].0 / PAGE_SIZE == va / PAGE_SIZE
      ensures CanStore(w, o, va) && Peek(w, o, va) == ByteAt(image[i].1, va % PAGE_SIZE)
    {
      SamePage(image[i].0, va);
      ImageMapAt(image, i);
    }
    if Mapped(w, o, va) {
      var i := ImageMapFrom(image, PathOf(va));
      PathOfInjective(image[i].0, va);
    }
  }

  lemma {:induction false} ImageMapSize(image: seq<(nat, Page)>)
    requires ImageOk(image)
    ensures |ImageMap(image)| == |image|
  {
    if image != [] {
      var n := |image| - 1;
      ImageMapSize(image[..n]);
      ImageMapOnly(image[..n], image[n].0);
    }
  }

  /** What loading an image takes. */
  ghost function ImageNeed(image: seq<(nat, Page)>): (n: nat)
  {
    LoadNeed(ImageMap(image).Keys)
  }

  /** Slot `o` has its two level-4 tables and nothing else. */
  ghost predicate EmptyTrees(s: State, o: nat)
  {
    && EmptySpace(s, o) && Below(s, Hw(o)) == {}
    && Hw(o) in s.tables && Sh(o) in s.tables && forall j :: 0 <= j < 256 ==> !Ent(s, Sh(o), j).p
  }

  lemma OpenSlotTrees(s: State, o: nat)
    requires Base(s) && s.gone == {} && s.nfree >= 3 && Hw(o) !in s.tables && Sh(o) !in s.tables
    ensures EmptyTrees(AddTwo(s, o), o)
  {
    hide Base, TreeInv;
    BaseParts(s);
    AddTwoKeeps(s, o);
    var t := AddTwo(s, o);
    forall v: Path ensures At(Hw(o), v) !in s.tables && At(Sh(o), v) !in s.tables {
      NoRootNoTable(s, Hw(o), v);
      NoRootNoTable(s, Sh(o), v);
    }
    assert Below(t, Hw(o)) == {} by {
      forall l | l in t.tables && InSubtree(Hw(o), l) ensures l == Hw(o) {
        assert At(Hw(o), l.path) == l;
      }
    }
  }

  lemma OpenSlot(s: State, procs: seq<Proc>, procs': seq<Proc>, o: nat)
    requires Good(s, procs) && o < NPROCS && !Live(procs, o) && s.nfree >= 3 && RootsAt(s, procs, o) && Base(s)
    requires procs' == procs[o := Proc(Pending, AddTwo(s, o).tables[Hw(o)], AddTwo(s, o).tables[Sh(o)], procs[o].brk)]
    ensures var t := AddTwo(s, o);
      && Good(t, procs') && Live(procs', o) && EmptyTrees(t, o) && t.nfree + 2 == s.nfree
      && WorldOf(t, procs') == WorldOf(s, procs)[o := Space(imap[], procs[o].brk)]
  {
    hide Base, Twin, Singles, Pages, EmptyTrees;
    AddTwoKeeps(s, o);
    AddTwoSeen(s, o);
    OpenSlotTrees(s, o);
    var t := AddTwo(s, o);
    forall q | 0 <= q < NPROCS ensures RootsAt(t, procs', q) {
      assert RootsAt(s, procs, q);
    }
  }

  lemma LoadInvStart(s: State, procs: seq<Proc>, o: nat, img: Image)
    requires Good(s, procs) && EmptyTrees(s, o)
    ensures LoadInv(s, s, o, map[], img, 0) && EmptySpace(s, o) && Roots(s, procs)
  {
    hide Base;
    LoadStart(s, o, img);
    EmptyTreeOf(s, Hw(o));
    var none: map<Path, nat> := map[];
    assert none.Keys == {};
  }

  lemma LoadCopyReady(s: State, t: State, o: nat, fr: map<Path, nat>, img: Image, n: nat)
    requires LoadInv(s, t, o, fr, img, n) && fr.Keys == img.Keys && n == |img| && s.nfree > LoadNeed(img.Keys)
    ensures Base(t) && CopyReady(t, Sh(o), Hw(o), false) && Loading(s, t, o, fr, img)
  {
    hide Base, Loading;
    LoadInvBase(s, t, o, fr, img, n);
    assert |img.Keys| == |img|;
    FreshTree(t, Sh(o), Hw(o));
  }

  lemma ImageWorld(s: State, t: State, u: State, procs: seq<Proc>, o: nat, fr: map<Path, nat>, img: Image)
    requires Good(s, procs) && Live(procs, o) && EmptyTrees(s, o) && Loading(s, t, o, fr, img) && fr.Keys == img.Keys
    requires Roots(t, procs) && Base(u) && CopyInv(t, u, Sh(o), Hw(o), 256)
    ensures Good(u, procs) && WorldOf(u, procs) == WorldOf(s, procs)[o := Space(ImagePages(img), procs[o].brk)]
  {
    hide Base, Twin, Singles, Pages, Loading, CopyInv, Roots, EmptySpace, ImagePages;
    ImageSeen(s, t, u, o, fr, img);
    ImageSingles(s, t, u, o, fr, img);
    CopyRoots(t, u, Sh(o), Hw(o));
    RootsFrame(t, u, procs);
  }

  lemma CopyRoots(s: State, t: State, kd: Key, ks: Key)
    requires CopyInv(s, t, kd, ks, 256)
    ensures SameRoots(s, t) && t.gone == {}
  {
    OutsideRoots(s, t, kd);
  }

  lemma SetBrk(s: State, procs: seq<Proc>, o: nat, brk: nat, state: ProcState)
    requires Good(s, procs) && Live(procs, o) && state != Close
    ensures var procs' := procs[o := procs[o].(brk := brk, state := state)];
      && Good(s, procs')
      && WorldOf(s, procs') == WorldOf(s, procs)[o := Space(WorldOf(s, procs)[o].pages, brk)]
  {
    hide Base, Twin, Singles, Pages;
    var procs' := procs[o := procs[o].(brk := brk, state := state)];
    forall q | 0 <= q < NPROCS ensures RootsAt(s, procs', q) {
      assert RootsAt(s, procs, q);
    }
  }

  lemma NoTablesTwin(s: State)
    requires s.tables == map[]
    ensures Twin(s) && Singles(s)
  {
    forall o, v | Depth(v) == 4 ensures TwinAt(s, o, v) {
    }
  }

  // ---------------------------------------------------------------- the kernel's half

  lemma KeepsFault(s: State, t: State, o: nat, v: Path)
    requires FaultStep(s, t, o, v)
    ensures Base(t) && KeepsHalves(s, t)
  {
    hide Base, FreeInv, TreeInv, LeafInv, CountInv, HeldInv, KeepsHalves, OneEntry;
    if s.info[HwLeaf(s, o, v).frame] == 1 {
      CowTables(s, o, v);
      BaseParts(s);
      LeafIsRef(s, o, v);
      ReflagKeeps(s, At(Hw(o), v.up), v.i, HwLeaf(s, o, v).(w := true));
      KeepsOneEntry(s, t, At(Hw(o), v.up), v.i, HwLeaf(s, o, v).(w := true));
    } else {
      SplitOffKeeps(s, o, v);
      KeepsSplit(s, o, v);
    }
  }

  lemma KeepsPut(s: State, t: State, o: nat, v: Path, pg: Page)
    requires Base(s) && PutStep(s, t, o, v, pg)
    ensures KeepsHalves(s, t)
  {
    hide Base, KeepsHalves;
    LeafIsRef(s, o, v);
    KeepsStored(s, HwLeaf(s, o, v).frame, pg);
  }

  /** A store instruction, repaired or not. */
  lemma KeepsStore(s: State, t: State, o: nat, va: nat, b: Byte)
    requires Base(s) && StoreDone(s, t, o, va, b)
    ensures KeepsHalves(s, t)
  {
    hide Base, KeepsHalves, FaultStep, PutStep;
    var v := PathOf(va);
    if HwLeaf(s, o, v).w {
      KeepsPut(s, t, o, v, StoreByte(s.mem[HwLeaf(s, o, v).frame], va % PAGE_SIZE, b));
    } else {
      var mid :| FaultStep(s, mid, o, v) && ByteStep(mid, t, o, va, b);
      KeepsFault(s, mid, o, v);
      KeepsPut(mid, t, o, v, StoreByte(mid.mem[HwLeaf(mid, o, v).frame], va % PAGE_SIZE, b));
      KeepsTrans(s, mid, t);
    }
  }

  lemma KeepsExit(s: State, t: State, o: nat)
    requires ExitDone(s, t, o)
    ensures KeepsHalves(s, t)
  {
    hide FreedAll, KeepsHalves;
    var mid :| FreedAll(s, mid, Hw(o)) && FreedAll(mid, t, Sh(o));
    KeepsFreed(s, mid, Hw(o));
    KeepsFreed(mid, t, Sh(o));
    KeepsTrans(s, mid, t);
  }

  lemma AddTwoHalves(s: State, o: nat, h: Page)
    requires Base(s) && s.gone == {} && s.nfree >= 3 && Hw(o) !in s.tables && Sh(o) !in s.tables
    requires KernelIn(s, h, {})
    ensures KernelIn(AddTwo(s, o), h, {Hw(o), Sh(o)})
  {
    hide Base, AddTwo;
    AddTwoKeeps(s, o);
    var t := AddTwo(s, o);
    forall k | k in t.tables && k.path == Top && k !in {Hw(o), Sh(o)} ensures HasHalf(t, h, k) {
      assert HasHalf(s, h, k);
    }
  }

  /** The child's tables get the kernel's half from the parent's shadow table. */
  lemma ForkHalves(s1: State, s2: State, s3: State, s4: State, s5: State, p: nat, c: nat, h: Page)
    requires p != c && s1.gone == {} && KernelIn(s1, h, {Hw(c), Sh(c)})
    requires CopyInv(s1, s2, Hw(c), Sh(p), 256) && CopyInv(s2, s3, Sh(c), Sh(p), 256)
    requires Hw(c) in s2.tables && Sh(p) in s1.tables && KernelHalf(s1.mem, s2.mem, s2.tables[Hw(c)], s1.tables[Sh(p)])
    requires Sh(c) in s3.tables && Sh(p) in s2.tables && KernelHalf(s2.mem, s3.mem, s3.tables[Sh(c)], s2.tables[Sh(p)])
    requires Cleared(s3, s4, Hw(c), 256) && Cleared(s4, s5, Hw(p), 256)
    ensures KernelIn(s5, h, {})
  {
    hide CopyInv, KernelHalf, Cleared, KernelIn, KeepsHalves;
    CopyKeepsRoots(s1, s2, Hw(c), Sh(p));
    CopyHalf(s1, s2, Hw(c), Sh(p), h, {Hw(c), Sh(c)});
    assert {Hw(c), Sh(c)} - {Hw(c)} == {Sh(c)};
    CopyHalf(s2, s3, Sh(c), Sh(p), h, {Sh(c)});
    assert {Sh(c)} - {Sh(c)} == {};
    KeepsCleared(s3, s4, Hw(c), 256);
    KeepsIn(s3, s4, h, {});
    KeepsCleared(s4, s5, Hw(p), 256);
    KeepsIn(s4, s5, h, {});
  }

  /** A store of the kernel through U2K. */
  lemma KeepsKernelStore(s: State, t: State, o: nat, va: nat, b: Byte)
    requires Base(s) && s.gone == {} && Base(t) && HwLeaf(t, o, PathOf(va)).p && HwLeaf(t, o, PathOf(va)).frame < |t.mem|
    requires Cow(s, o, PathOf(va)) ==> s.fl != []
    requires t == if Cow(s, o, PathOf(va)) then SplitOff(s, o, PathOf(va)) else s
    ensures var f := HwLeaf(t, o, PathOf(va)).frame; KeepsHalves(s, Stored(t, f, StoreByte(t.mem[f], va % PAGE_SIZE, b)))
  {
    hide Base, KeepsHalves;
    var v := PathOf(va);
    var f := HwLeaf(t, o, v).frame;
    var pg := StoreByte(t.mem[f], va % PAGE_SIZE, b);
    LeafIsRef(t, o, v);
    KeepsStored(t, f, pg);
    if Cow(s, o, v) {
      KeepsSplit(s, o, v);
      KeepsTrans(s, t, Stored(t, f, pg));
    }
  }

  /** A new process gets the kernel's half twice: written into the hardware table, copied to the shadow. */
  lemma NewProcessHalves(s: State, t: State, u: State, w: State, o: nat, h: Page, pg: Page)
    requires KernelIn(s, h, {Hw(o), Sh(o)}) && KeepsHalves(s, t) && Base(t) && t.gone == {} && Hw(o) in t.tables
    requires t.tables[Hw(o)] < |t.mem| && pg[..256] == t.mem[t.tables[Hw(o)]][..256] && pg[256..] == h[256..]
    requires u == Half(t, Hw(o), pg) && CopyInv(u, w, Sh(o), Hw(o), 256) && Sh(o) in w.tables
    requires KernelHalf(u.mem, w.mem, w.tables[Sh(o)], u.tables[Hw(o)])
    ensures KernelIn(w, h, {})
  {
    hide Base, KeepsHalves, KernelIn, KernelHalf, CopyInv;
    KeepsIn(s, t, h, {Hw(o), Sh(o)});
    NewHalf(t, Hw(o), pg, h, {Hw(o), Sh(o)});
    assert {Hw(o), Sh(o)} - {Hw(o)} == {Sh(o)};
    CopyHalf(u, w, Sh(o), Hw(o), h, {Sh(o)});
    assert {Sh(o)} - {Sh(o)} == {};
  }

  lemma KeepsU2K(s: State, o: nat, v: Path, write: bool)
    requires Base(s) && s.gone == {} && Depth(v) == 4 && HwLeaf(s, o, v).p && ShLeaf(s, o, v).p && (write && Cow(s, o, v) ==> s.fl != [])
    ensures KeepsHalves(s, s) && (write && Cow(s, o, v) ==> KeepsHalves(s, SplitOff(s, o, v)))
  {
    hide Base, KeepsHalves, SplitOff;
    KeepsSame(s, s);
    if write && Cow(s, o, v) {
      KeepsSplit(s, o, v);
    }
  }
}
