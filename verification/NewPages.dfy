/** Mapping a fresh page into a process, step by step (sys_sbrk, load_img). */
module NewPages {
  import opened Words
  import opened Paths
  import opened PageState
  import opened TableSteps
  import opened CopySteps
  import opened Views
  import opened Sharing
  import opened WholeTrees
  import opened KernelHalves

  /** Page `f` is in hand with contents `pg`, and translations and user frames are as in `s`. */
  ghost predicate InHand(s: State, t: State, f: nat, pg: Page)
  {
    && Base(t) && t.gone == {} && SameLeaves(s, t) && SameFrames(s, t)
    && (forall g: nat :: UserFrame(s, g) ==> UserFrame(t, g))
    && f < |t.kind| == |t.mem| && t.kind[f] == Held && t.mem[f] == pg
  }

  lemma TakePage(s: State)
    requires Base(s) && s.gone == {} && s.fl != []
    ensures s.fl[0] < s.machine.count && s.kind[s.fl[0]] == Free && InHand(s, Pop(s, true), s.fl[0], ZeroPage())
    ensures Pop(s, true).tables == s.tables && Pop(s, true).nfree + 1 == s.nfree && KeepsHalves(s, Pop(s, true))
  {
    assert Listed(s, 0);
    PopKeeps(s, true);
    SameEntries(s, Pop(s, true));
  }

  /** Making the tables of a walk leaves the page in hand. */
  lemma WalkInHand(s: State, t: State, u: State, f: nat, pg: Page, k: Key)
    requires InHand(s, t, f, pg) && Base(u) && u.gone == {} && Grown(t, u, k)
    ensures InHand(s, u, f, pg) && KeepsHalves(t, u)
  {
    hide Base, KeepsHalves;
    KeepsGrown(t, u, k);
    GrowTranslates(t, u, k);
    assert SameUse(t, u, f);
  }

  /** The hardware entry of the page is written. */
  ghost predicate HalfMapped(s: State, t: State, o: nat, v: Path, f: nat, pg: Page)
    requires f < 0x10_0000_0000_0000
  {
    && Base(t) && t.gone == {} && SameFrames(s, t)
    && (forall g: nat :: UserFrame(s, g) ==> UserFrame(t, g))
    && f < |t.kind| == |t.mem| && t.kind[f] == User && t.mem[f] == pg
    && forall q, u :: Depth(u) == 4 ==>
         && HwLeaf(t, q, u) == (if q == o && u == v then FullEntry(f) else HwLeaf(s, q, u))
         && ShLeaf(t, q, u) == ShLeaf(s, q, u)
  }

  lemma MapHw(s: State, t: State, o: nat, v: Path, f: nat, pg: Page)
    requires InHand(s, t, f, pg) && f < t.machine.count && Depth(v) == 4 && v.i < 512
    requires At(Hw(o), v.up) in t.tables && !HwLeaf(s, o, v).p
    ensures Sized(t) && TableOk(t, At(Hw(o), v.up))
    ensures HalfMapped(s, MapHeld(t, At(Hw(o), v.up), v.i, FullEntry(f)), o, v, f, pg)
    ensures KeepsHalves(t, MapHeld(t, At(Hw(o), v.up), v.i, FullEntry(f)))
  {
    hide Base, TreeInv, KeepsHalves;
    var k := At(Hw(o), v.up);
    BaseParts(t);
    BaseTable(t, k);
    assert HwLeaf(t, o, v) == HwLeaf(s, o, v);
    MapHeldKeeps(t, k, v.i, FullEntry(f));
    KeepsOneEntry(t, MapHeld(t, k, v.i, FullEntry(f)), k, v.i, FullEntry(f));
  }

  lemma WalkHalf(s: State, t: State, u: State, o: nat, v: Path, f: nat, pg: Page, k: Key)
    requires f < 0x10_0000_0000_0000 && HalfMapped(s, t, o, v, f, pg) && Base(u) && u.gone == {} && Grown(t, u, k)
    ensures HalfMapped(s, u, o, v, f, pg) && KeepsHalves(t, u)
  {
    hide Base, KeepsHalves;
    KeepsGrown(t, u, k);
    GrowTranslates(t, u, k);
    assert SameUse(t, u, f);
  }

  lemma MapSh(s: State, t: State, o: nat, v: Path, f: nat, pg: Page)
    requires f < 0x10_0000_0000_0000 && HalfMapped(s, t, o, v, f, pg) && Depth(v) == 4 && v.i < 512 && At(Sh(o), v.up) in t.tables
    requires Base(s) && !UserFrame(s, f)
    ensures Sized(t) && TableOk(t, At(Sh(o), v.up))
    ensures var u := Put(t, At(Sh(o), v.up), v.i, FullEntry(f));
      Base(u) && u.gone == {} && NewPage(s, u, o, v, f, pg) && u.tables == t.tables && u.nfree == t.nfree && KeepsHalves(t, u)
  {
    hide KeepsHalves, Base, TreeInv, FreeInv, LeafInv, CountInv, HeldInv;
    var k := At(Sh(o), v.up);
    BaseParts(t);
    BaseTable(t, k);
    ShadowPut(t, k, v.i, FullEntry(f));
    KeepsOneEntry(t, Put(t, k, v.i, FullEntry(f)), k, v.i, FullEntry(f));
    var u := Put(t, k, v.i, FullEntry(f));
    assert Replaced(s, u, o, v, f) by {
      forall q, x | Depth(x) == 4
        ensures HwLeaf(u, q, x) == (if q == o && x == v then FullEntry(f) else HwLeaf(s, q, x))
        ensures ShLeaf(u, q, x) == (if q == o && x == v then FullEntry(f) else ShLeaf(s, q, x))
      {
        assert HwLeaf(u, q, x) == HwLeaf(t, q, x);
      }
    }
    NewPageCount(s, u, o, v, f);
  }

  lemma NewPageCount(s: State, u: State, o: nat, v: Path, f: nat)
    requires Base(s) && Base(u) && f < 0x10_0000_0000_0000 && Replaced(s, u, o, v, f) && !UserFrame(s, f) && UserFrame(u, f) && Depth(v) == 4
    ensures f < |u.info| && u.info[f] == 1
  {
    hide Base, TreeInv, FreeInv, LeafInv, HeldInv;
    BaseParts(u);
    LeafIsRef(u, o, v);
    forall x | x in Refs(u, f) ensures x == (At(Hw(o), v.up), v.i) {
      RefIsLeaf(u, f, x);
      var w := Sub(x.0.path, x.1);
      if x.0.owner != o || w != v {
        LeafIsRef(s, x.0.owner, w);
      }
    }
    OnlyMember(Refs(u, f), (At(Hw(o), v.up), v.i));
  }
}
