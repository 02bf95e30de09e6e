/** Lost frames and pages in hand, step by step: only U2K loses a frame, and no operation keeps a page. */
module Losses {
  import opened Words
  import opened Paths
  import opened PageState
  import opened TableSteps
  import opened CopySteps
  import opened CopyLoop
  import opened FreeLoop
  import opened Views
  import opened WholeTrees
  import opened SplitSteps
  import opened Processes
  import Conservation

  ghost predicate IsHeld(s: State, f: nat)
  {
    f < |s.kind| && s.kind[f] == Held
  }

  /** From `s` to `t` exactly the frames `lost` were lost, none was found, and exactly the pages `held`
      were taken in hand. */
  ghost predicate Ledger(s: State, t: State, lost: set<nat>, held: set<nat>)
  {
    && (forall g: nat :: IsLost(t, g) <==> IsLost(s, g) || g in lost)
    && (forall g :: g in lost ==> !IsLost(s, g))
    && (forall g: nat :: IsHeld(t, g) <==> IsHeld(s, g) || g in held)
  }

  ghost predicate Tidy(s: State, t: State)
  {
    Ledger(s, t, {}, {})
  }

  lemma TidySame(s: State, t: State)
    requires t.kind == s.kind && t.info == s.info
    ensures Tidy(s, t)
  {
  }

  lemma LedgerTidy(s: State, t: State, u: State, lost: set<nat>, held: set<nat>)
    requires Ledger(s, t, lost, held) && Tidy(t, u)
    ensures Ledger(s, u, lost, held)
  {
  }

  lemma TidyLedger(s: State, t: State, u: State, lost: set<nat>, held: set<nat>)
    requires Tidy(s, t) && Ledger(t, u, lost, held)
    ensures Ledger(s, u, lost, held)
  {
  }

  lemma LostByLeaves(s: State, t: State)
    requires Base(s) && Base(t) && forall g: nat :: UserFrame(t, g) <==> UserFrame(s, g)
    requires forall q, v :: Depth(v) == 4 ==> HwLeaf(t, q, v) == HwLeaf(s, q, v)
    ensures forall g: nat :: IsLost(t, g) <==> IsLost(s, g)
  {
    hide Base, UserFrame, IsLost;
    forall g: nat ensures IsLost(t, g) <==> IsLost(s, g) {
      Conservation.LostIffUnmapped(s, g);
      Conservation.LostIffUnmapped(t, g);
    }
  }

  lemma TidyPop(s: State, zero: bool)
    requires Base(s) && s.fl != []
    ensures Ledger(s, Pop(s, zero), {}, {s.fl[0]})
  {
    hide TreeInv, LeafInv, CountInv, HeldInv;
    assert Listed(s, 0);
  }

  lemma TidyGrown(s: State, t: State, k: Key)
    requires Base(s) && Base(t) && Grown(s, t, k)
    ensures Tidy(s, t)
  {
    hide Base, IsLost;
    GrowTranslates(s, t, k);
    LostByLeaves(s, t);
    forall g: nat ensures IsHeld(t, g) <==> IsHeld(s, g) {
      assert g < |s.kind| ==> SameUse(s, t, g);
    }
  }

  /** The page in hand becomes a mapped frame. */
  lemma TidyMap(s: State, t: State, k: Key, i: nat, w: Word)
    requires Base(t) && k in t.tables && i < 512 && w.frame < t.machine.count && IsHeld(t, w.frame) && !IsHeld(s, w.frame)
    requires Ledger(s, t, {}, {w.frame})
    ensures TableOk(t, k) && Tidy(s, MapHeld(t, k, i, w))
  {
    hide FreeInv, TreeInv, LeafInv, CountInv;
    BaseTable(t, k);
  }

  /** A page is taken, the tables on its way are made, and it is mapped. */
  lemma TidyNewPage(s: State, t: State, u: State, root: Key, k: Key, i: nat, w: Word)
    requires Base(s) && s.fl != [] && t == Pop(s, true) && Base(t) && Base(u) && Grown(t, u, root)
    requires k in u.tables && i < 512 && w.frame == s.fl[0] < u.machine.count
    ensures TableOk(u, k) && Tidy(s, MapHeld(u, k, i, w))
  {
    hide Base, Ledger, Grown, FreeInv, TreeInv, LeafInv, CountInv, HeldInv;
    BaseParts(s);
    TidyPop(s, true);
    TidyGrown(t, u, root);
    LedgerTidy(s, t, u, {}, {w.frame});
    NowHeld(s, u, w.frame);
    TidyMap(s, u, k, i, w);
  }

  lemma NowHeld(s: State, u: State, f: nat)
    requires Sized(s) && FreeInv(s) && s.fl != [] && s.fl[0] == f && Ledger(s, u, {}, {f})
    ensures IsHeld(u, f) && !IsHeld(s, f)
  {
    assert Listed(s, 0);
  }

  lemma TidyPut(t: State, u: State, root: Key, k: Key, i: nat, w: Word)
    requires Base(t) && Base(u) && Grown(t, u, root) && k in u.tables && i < 512
    ensures Sized(u) && TableOk(u, k) && Tidy(t, Put(u, k, i, w))
  {
    hide Base, Ledger, Grown;
    BaseTable(u, k);
    TidyGrown(t, u, root);
    TidySame(u, Put(u, k, i, w));
    LedgerTidy(t, u, Put(u, k, i, w), {}, {});
  }

  /** The loader makes the tables first, and fills the page. */
  lemma TidyLoad(t: State, u: State, root: Key, k: Key, i: nat, w: Word, pg: Page)
    requires Base(t) && Base(u) && u.fl != [] && Base(Pop(u, true)) && Grown(t, u, root)
    requires k in u.tables && i < 512 && w.frame == u.fl[0] < u.machine.count
    ensures Sized(Pop(u, true)) && TableOk(Pop(u, true), k) && w.frame < |u.mem|
    ensures Tidy(t, Stored(MapHeld(Pop(u, true), k, i, w), w.frame, pg))
  {
    hide Base, Ledger, Grown, FreeInv, TreeInv, LeafInv, CountInv, HeldInv;
    BaseParts(u);
    var p := Pop(u, true);
    BaseParts(p);
    BaseTable(p, k);
    TidyGrown(t, u, root);
    TidyPop(u, true);
    NowHeld(u, p, w.frame);
    TidyMap(u, p, k, i, w);
    var x := MapHeld(p, k, i, w);
    TidySame(x, Stored(x, w.frame, pg));
    LedgerTidy(t, u, x, {}, {});
    LedgerTidy(t, x, Stored(x, w.frame, pg), {}, {});
  }

  lemma TidyCopy(s: State, t: State, kd: Key, ks: Key)
    requires Base(s) && Base(t) && kd.path == Top && kd.shadow && CopyInv(s, t, kd, ks, 256)
    ensures Tidy(s, t)
  {
    hide Base, IsLost, CopyInv;
    CopyTranslates(s, t, kd, ks);
    CopyApart(s, t, kd, ks);
    LostByLeaves(s, t);
  }

  lemma TidyAdd(s: State, o: nat)
    requires Base(s) && s.gone == {} && s.nfree >= 3 && Hw(o) !in s.tables && Sh(o) !in s.tables
    ensures Tidy(s, AddTwo(s, o))
  {
    hide Base, IsLost, AddTwo;
    AddTwoKeeps(s, o);
    AddTwoApart(s, o);
    LostByLeaves(s, AddTwo(s, o));
  }

  lemma TidyExit(s: State, t: State, o: nat)
    requires ExitDone(s, t, o)
    ensures Tidy(s, t)
  {
  }

  lemma TidyFault(s: State, t: State, o: nat, v: Path)
    requires FaultStep(s, t, o, v)
    ensures Tidy(s, t)
  {
    hide FaultStep, IsLost;
    Conservation.FaultKinds(s, t, o, v);
  }

  lemma TidyStore(s: State, t: State, o: nat, va: nat, b: Byte)
    requires StoreDone(s, t, o, va, b)
    ensures Tidy(s, t)
  {
    hide FaultStep, Ledger, StoreByte, PathOf;
    var v := PathOf(va);
    if HwLeaf(s, o, v).w {
      TidySame(s, t);
    } else {
      var mid :| FaultStep(s, mid, o, v) && ByteStep(mid, t, o, va, b);
      TidyFault(s, mid, o, v);
      TidySame(mid, t);
      LedgerTidy(s, mid, t, {}, {});
    }
  }

  lemma TidyFork(s: State, t: State, p: nat, c: nat)
    requires CanFork(s, p, c) && ForkDone(s, t, p, c)
    ensures Tidy(s, t)
  {
    hide Base, Twin, ForkDone, IsLost;
    Conservation.NoChildTables(s, p, c);
    Conservation.NoKeysNoLeaves(s, c);
    Conservation.AlongFork(s, t, p, c);
  }

  // ---------------------------------------------------------------- U2K

  /** U2K with `write` loses the frame of a page that waits for its split although nobody shares it. */
  ghost predicate Wastes(s: State, o: nat, v: Path)
  {
    Cow(s, o, v) && HwLeaf(s, o, v).frame < |s.info| && s.info[HwLeaf(s, o, v).frame] == 1
  }

  ghost function WastedBy(s: State, o: nat, v: Path): (r: set<nat>)
  {
    if Wastes(s, o, v) then {HwLeaf(s, o, v).frame} else {}
  }

  lemma U2KLedger(s: State, t: State, o: nat, v: Path, write: bool)
    requires Base(s) && s.gone == {} && Depth(v) == 4 && HwLeaf(s, o, v).p && ShLeaf(s, o, v).p
    requires write && Cow(s, o, v) ==> s.fl != []
    requires t == if write && Cow(s, o, v) then SplitOff(s, o, v) else s
    ensures Ledger(s, t, if write then WastedBy(s, o, v) else {}, {})
  {
    hide Base, SplitOff;
    if write && Cow(s, o, v) {
      Conservation.U2KLoses(s, t, o, v, true);
      SplitHeld(s, o, v);
    }
  }

  lemma SplitHeld(s: State, o: nat, v: Path)
    requires Base(s) && s.gone == {} && s.fl != [] && Depth(v) == 4 && HwLeaf(s, o, v).p && ShLeaf(s, o, v).p
    ensures forall g: nat :: IsHeld(SplitOff(s, o, v), g) <==> IsHeld(s, g)
  {
    hide Base, FreeInv, TreeInv, LeafInv, CountInv, HeldInv;
    BaseParts(s);
    CowTables(s, o, v);
    FilledKeeps(s, o, v);
  }

  /** The frames a write by U2K to each of the pages `vs` loses. */
  ghost function WastedIn(s: State, o: nat, vs: set<Path>): (r: set<nat>)
  {
    set v | v in vs && Wastes(s, o, v) :: HwLeaf(s, o, v).frame
  }

  /** Splitting one page changes nothing about another. */
  lemma SplitApart(s: State, o: nat, v: Path, u: Path)
    requires Base(s) && OneToOne(s, o) && s.gone == {} && s.fl != [] && Cow(s, o, v) && ShLeaf(s, o, v).p && Depth(u) == 4 && u != v
    ensures WastedBy(SplitOff(s, o, v), o, u) == WastedBy(s, o, u)
  {
    hide Base, FreeInv, TreeInv, LeafInv, CountInv, HeldInv;
    BaseParts(s);
    CowTables(s, o, v);
    SplitOffKeeps(s, o, v);
    FilledKeeps(s, o, v);
    var t := SplitOff(s, o, v);
    assert HwLeaf(t, o, u) == HwLeaf(s, o, u) && ShLeaf(t, o, u) == ShLeaf(s, o, u);
    if HwLeaf(s, o, u).p {
      LeafIsRef(s, o, u);
      LeafIsRef(s, o, v);
    }
  }

  /** To write any page of `o` outside `vs` would waste what it would have wasted. */
  ghost predicate OthersKept(s: State, t: State, o: nat, vs: set<Path>)
  {
    forall u :: Depth(u) == 4 && u !in vs ==> WastedBy(t, o, u) == WastedBy(s, o, u)
  }

  /** U2K has been to the pages `vs` of `o` for writing, to each once. */
  ghost predicate Visited(s: State, t: State, o: nat, vs: set<Path>)
  {
    Ledger(s, t, WastedIn(s, o, vs), {}) && OthersKept(s, t, o, vs)
  }

  lemma VisitNone(s: State, o: nat)
    ensures Visited(s, s, o, {})
  {
  }

  lemma VisitNext(s: State, t: State, u: State, o: nat, vs: set<Path>, v: Path)
    requires Visited(s, t, o, vs) && v !in vs && Depth(v) == 4
    requires Ledger(t, u, WastedBy(t, o, v), {}) && OthersKept(t, u, o, {v})
    ensures Visited(s, u, o, vs + {v})
  {
    hide IsLost, IsHeld, Wastes;
    assert WastedIn(s, o, vs + {v}) == WastedIn(s, o, vs) + WastedBy(t, o, v) by {
      WastedMore(s, o, vs, v);
      assert WastedBy(t, o, v) == WastedBy(s, o, v);
    }
  }

  lemma WastedMore(s: State, o: nat, vs: set<Path>, v: Path)
    ensures WastedIn(s, o, vs + {v}) == WastedIn(s, o, vs) + WastedBy(s, o, v)
  {
    hide Wastes;
    forall f | f in WastedIn(s, o, vs + {v}) ensures f in WastedIn(s, o, vs) + WastedBy(s, o, v) {
    }
    if Wastes(s, o, v) {
      assert v in vs + {v};
    }
    forall f | f in WastedIn(s, o, vs) ensures f in WastedIn(s, o, vs + {v}) {
      var u :| u in vs && Wastes(s, o, u) && HwLeaf(s, o, u).frame == f;
      assert u in vs + {v};
    }
  }

  /** Nothing that matters here changes by a store. */
  lemma VisitStored(s: State, t: State, u: State, o: nat, vs: set<Path>)
    requires Visited(s, t, o, vs) && u.kind == t.kind && u.info == t.info
    requires forall q, v :: HwLeaf(u, q, v) == HwLeaf(t, q, v) && ShLeaf(u, q, v) == ShLeaf(t, q, v)
    ensures Visited(s, u, o, vs)
  {
    hide Ledger;
    TidySame(t, u);
    LedgerTidy(s, t, u, WastedIn(s, o, vs), {});
    forall v | Depth(v) == 4 && v !in vs ensures WastedBy(u, o, v) == WastedBy(s, o, v) {
      assert HwLeaf(u, o, v) == HwLeaf(t, o, v);
      assert WastedBy(u, o, v) == WastedBy(t, o, v);
    }
  }

  /** What U2K does next is accounted for. */
  lemma U2KFree(s: State, procs: seq<Proc>, o: nat, v: Path, write: bool)
    requires Good(s, procs) && Depth(v) == 4 && HwLeaf(s, o, v).p && ShLeaf(s, o, v).p && (s.nfree >= 2 || !write || !Cow(s, o, v))
    ensures write && Cow(s, o, v) ==> s.fl != [] && Ledger(s, SplitOff(s, o, v), WastedBy(s, o, v), {})
    ensures write && Cow(s, o, v) ==> OthersKept(s, SplitOff(s, o, v), o, {v})
    ensures !(write && Cow(s, o, v)) ==> Ledger(s, s, if write then WastedBy(s, o, v) else {}, {})
  {
    hide Base, Twin, SplitOff, Ledger, WastedBy;
    if write {
      SplitCount(s, o, v);
    }
    if write && Cow(s, o, v) {
      forall u | Depth(u) == 4 && u !in {v} ensures WastedBy(SplitOff(s, o, v), o, u) == WastedBy(s, o, u) {
        assert OneToOne(s, o);
        SplitApart(s, o, v, u);
      }
    }
    U2KLedger(s, if write && Cow(s, o, v) then SplitOff(s, o, v) else s, o, v, write);
  }

  // ---------------------------------------------------------------- the books

  /** No page is in hand and `n` frames are lost. */
  ghost predicate Books(s: State, n: nat)
  {
    Sized(s) && (forall g: nat :: !IsHeld(s, g)) && |Conservation.Lost(s)| == n
  }

  lemma BooksKept(s: State, t: State, n: nat, lost: set<nat>)
    requires Books(s, n) && Ledger(s, t, lost, {}) && Sized(t)
    ensures Books(t, n + |lost|)
  {
    assert Conservation.Lost(t) == Conservation.Lost(s) + lost;
    assert Conservation.Lost(s) !! lost;
  }

  /** At boot every page is free or reserved. */
  lemma BooksAtBoot(s: State)
    requires Base(s) && forall f: nat :: f in s.fl <==> Usable(s.machine, f)
    ensures Books(s, 0)
  {
    hide TreeInv, LeafInv, CountInv, HeldInv;
    forall f: nat | f < |s.kind| ensures s.kind[f] == Free || s.kind[f] == Reserved {
      if f in s.fl {
        var i :| 0 <= i < |s.fl| && s.fl[i] == f;
        assert Listed(s, i);
      }
    }
    assert Conservation.Lost(s) == {};
  }

  /** Free pages, tables, mapped frames and lost frames are all the memory there is. */
  lemma BooksBalance(s: State, n: nat)
    requires Base(s) && Books(s, n)
    ensures s.nfree + |s.tables| + |Conservation.InUse(s)| + n == |Conservation.UsablePages(s.machine)|
  {
    hide Base, Conservation.InUse, Conservation.Lost;
    Conservation.Census(s);
    forall g: nat ensures g !in Conservation.OfKind(s, Held) {
      assert !IsHeld(s, g);
    }
    assert Conservation.OfKind(s, Held) == {};
  }

  /** With no process left there is no table and no mapped frame. */
  lemma NoProcessNoTable(s: State, procs: seq<Proc>)
    requires Good(s, procs) && forall o :: !Live(procs, o)
    ensures s.tables == map[] && Conservation.InUse(s) == {}
  {
    hide Base, Twin, Singles, FreeInv, LeafInv, CountInv, HeldInv, Conservation.InUse;
    BaseParts(s);
    forall k: Key ensures k !in s.tables {
      var root := Key(k.owner, k.shadow, Top);
      assert At(root, k.path) == k;
      assert root !in s.tables by {
        assert root.owner < NPROCS ==> RootsAt(s, procs, root.owner);
      }
      NoRootNoTable(s, root, k.path);
    }
    forall f: nat ensures f !in Conservation.InUse(s) {
      Conservation.InUseMapped(s, f);
    }
  }
}
