/** Giving a page a frame of its own, step by step (page_fault_handler and U2K). */
module SplitSteps {
  import opened Words
  import opened Paths
  import opened PageState
  import opened TableSteps
  import opened CopySteps
  import opened Views

  /** Page `v` of process `o` is mapped copy-on-write: W granted and not in force. */
  ghost predicate Cow(s: State, o: nat, v: Path)
  {
    Depth(v) == 4 && HwLeaf(s, o, v).p && !HwLeaf(s, o, v).w && ShLeaf(s, o, v).p && ShLeaf(s, o, v).w
  }

  lemma CowTables(s: State, o: nat, v: Path)
    requires Base(s) && Depth(v) == 4 && HwLeaf(s, o, v).p && ShLeaf(s, o, v).p
    ensures At(Hw(o), v.up) in s.tables && TableOk(s, At(Hw(o), v.up)) && Depth(v.up) == 3 && v.i < 512
    ensures At(Sh(o), v.up) in s.tables && TableOk(s, At(Sh(o), v.up))
    ensures UserFrame(s, HwLeaf(s, o, v).frame) && HwLeaf(s, o, v).frame < s.machine.count
  {
    LeafIsRef(s, o, v);
  }

  /** A page is taken from the list and filled from the frame of `v`. */
  ghost function Filled(s: State, o: nat, v: Path): (t: State)
    requires Sized(s) && FreeInv(s) && s.fl != [] && HwLeaf(s, o, v).frame < s.machine.count
  {
    assert Listed(s, 0);
    var p := Pop(s, false);
    p.(mem := p.mem[s.fl[0] := s.mem[HwLeaf(s, o, v).frame]])
  }

  lemma FilledKeeps(s: State, o: nat, v: Path)
    requires Base(s) && s.fl != [] && HwLeaf(s, o, v).frame < s.machine.count
    ensures Base(Filled(s, o, v)) && forall l, j :: Ent(Filled(s, o, v), l, j) == Ent(s, l, j)
    ensures s.fl[0] < s.machine.count && s.kind[s.fl[0]] == Free && Filled(s, o, v).kind[s.fl[0]] == Held
  {
    assert Listed(s, 0);
    PopKeeps(s, false);
    SameEntries(s, Pop(s, false));
    HeldFill(Pop(s, false), s.fl[0], s.mem[HwLeaf(s, o, v).frame]);
  }

  lemma HeldFill(s: State, f: nat, pg: Page)
    requires Base(s) && f < s.machine.count && s.kind[f] == Held
    ensures var t := s.(mem := s.mem[f := pg]); Base(t) && forall l, j :: Ent(t, l, j) == Ent(s, l, j)
  {
    var t := s.(mem := s.mem[f := pg]);
    assert SameTables(s, t) by {
      assert forall k :: k in s.tables ==> TableOk(s, k);
    }
    TreeFrame(s, t);
    LeafFrame(s, t);
    CountFrame(s, t);
    SameEntries(s, t);
    forall i | 0 <= i < |t.fl| ensures Listed(t, i) {
      assert Listed(s, i);
    }
  }

  /** The split is possible. */
  lemma SplitOffOk(s: State, o: nat, v: Path)
    requires Base(s) && s.gone == {} && s.fl != [] && Depth(v) == 4 && HwLeaf(s, o, v).p && ShLeaf(s, o, v).p
    ensures Sized(s) && FreeInv(s) && HwLeaf(s, o, v).frame < s.machine.count && s.fl[0] < s.machine.count < 0x10_0000_0000_0000
    ensures v.i < 512 && v.Sub?
    ensures var g := Filled(s, o, v); var hw, sh := At(Hw(o), v.up), At(Sh(o), v.up);
      && Sized(g) && g.machine == s.machine && hw in g.tables && g.tables[hw] < g.machine.count
      && sh in g.tables && g.tables[sh] < g.machine.count && Ent(g, hw, v.i).frame < g.machine.count
  {
    hide Base, TreeInv, LeafInv, CountInv, HeldInv;
    CowTables(s, o, v);
    BaseParts(s);
    FilledKeeps(s, o, v);
  }

  /** The state after the split: the old frame has lost a reference, the new one has one. */
  ghost function SplitOff(s: State, o: nat, v: Path): (t: State)
    requires Base(s) && s.gone == {} && s.fl != [] && Depth(v) == 4 && HwLeaf(s, o, v).p && ShLeaf(s, o, v).p
  {
    SplitOffOk(s, o, v);
    var w := FullEntry(s.fl[0]);
    Put(Split(Filled(s, o, v), At(Hw(o), v.up), v.i, w), At(Sh(o), v.up), v.i, w)
  }

  lemma SplitOffKeeps(s: State, o: nat, v: Path)
    requires Base(s) && s.gone == {} && s.fl != [] && Depth(v) == 4 && HwLeaf(s, o, v).p && ShLeaf(s, o, v).p
    ensures Base(SplitOff(s, o, v)) && SplitOff(s, o, v).gone == {}
    ensures s.fl[0] < s.machine.count && s.kind[s.fl[0]] == Free && Replaced(s, SplitOff(s, o, v), o, v, s.fl[0])
    ensures SplitOff(s, o, v).tables == s.tables && SplitOff(s, o, v).nfree + 1 == s.nfree
  {
    hide Base, FreeInv, TreeInv, LeafInv, CountInv, HeldInv;
    CowTables(s, o, v);
    BaseParts(s);
    FilledKeeps(s, o, v);
    FilledCount(s, o, v);
    var w := FullEntry(s.fl[0]);
    var p := Filled(s, o, v);
    SplitKeeps(p, At(Hw(o), v.up), v.i, w);
    var q := Split(p, At(Hw(o), v.up), v.i, w);
    ShadowPut(q, At(Sh(o), v.up), v.i, w);
    ReplacedBoth(s, p, q, Put(q, At(Sh(o), v.up), v.i, w), o, v, s.fl[0]);
  }

  lemma FilledCount(s: State, o: nat, v: Path)
    requires Sized(s) && FreeInv(s) && s.fl != [] && HwLeaf(s, o, v).frame < s.machine.count
    ensures Filled(s, o, v).nfree + 1 == s.nfree && Filled(s, o, v).tables == s.tables
    ensures Filled(s, o, v).gone == s.gone && Filled(s, o, v).machine == s.machine
  {
  }

  lemma ReplacedBoth(s: State, p: State, q: State, t: State, o: nat, v: Path, nf: nat)
    requires nf < 0x10_0000_0000_0000 && Depth(v) == 4
    requires forall l, j :: Ent(p, l, j) == Ent(s, l, j)
    requires OneEntry(p, q, At(Hw(o), v.up), v.i, FullEntry(nf)) && OneEntry(q, t, At(Sh(o), v.up), v.i, FullEntry(nf))
    ensures Replaced(s, t, o, v, nf)
  {
  }

  lemma SplitOffFresh(s: State, o: nat, v: Path)
    requires Base(s) && s.gone == {} && s.fl != [] && Depth(v) == 4 && HwLeaf(s, o, v).p && ShLeaf(s, o, v).p
    ensures s.fl[0] < s.machine.count && FreshCopy(s, SplitOff(s, o, v), HwLeaf(s, o, v).frame, s.fl[0])
  {
    hide Base, FreeInv, TreeInv, LeafInv, CountInv, HeldInv;
    BaseParts(s);
    CowTables(s, o, v);
    FilledKeeps(s, o, v);
  }

  /** The split as the processes see it: not at all. */
  lemma SplitOffSeen(s: State, o: nat, v: Path)
    requires Base(s) && s.gone == {} && s.fl != [] && Twin(s) && Cow(s, o, v)
    ensures Twin(SplitOff(s, o, v)) && forall q :: Pages(SplitOff(s, o, v), q) == Pages(s, q)
  {
    hide Base, Twin, Pages;
    BaseParts(s);
    SplitOffKeeps(s, o, v);
    SplitOffFresh(s, o, v);
    SplitTwin(s, SplitOff(s, o, v), o, v, s.fl[0]);
    forall q ensures Pages(SplitOff(s, o, v), q) == Pages(s, q) {
      SplitPages(s, SplitOff(s, o, v), o, v, s.fl[0], q);
    }
  }

  /** The old frame loses its reference before the new page is taken. */
  ghost function Unref(s: State, f: nat): (t: State)
    requires Sized(s) && f < s.machine.count
  {
    s.(info := s.info[f := s.info[f] - 1])
  }

  lemma UnrefFree(s: State, f: nat)
    requires Sized(s) && FreeInv(s) && UserFrame(s, f)
    ensures Sized(Unref(s, f)) && FreeInv(Unref(s, f))
  {
    forall i | 0 <= i < |s.fl| ensures Listed(Unref(s, f), i) {
      assert Listed(s, i);
    }
  }

  lemma SplitBounds(s: State, o: nat, v: Path)
    requires Base(s) && s.gone == {} && s.nfree >= 2 && Depth(v) == 4 && HwLeaf(s, o, v).p && ShLeaf(s, o, v).p
    ensures s.fl != [] && HwLeaf(s, o, v).frame != s.fl[0]
    ensures At(Hw(o), v.up) in s.tables && s.tables[At(Hw(o), v.up)] < |s.mem|
    ensures s.mem[s.tables[At(Hw(o), v.up)]][v.i] == HwLeaf(s, o, v)
  {
    CowTables(s, o, v);
    assert Listed(s, 0);
  }

  lemma SplitOffIs(s: State, o: nat, v: Path, t: State)
    requires Base(s) && s.gone == {} && s.fl != [] && Depth(v) == 4 && HwLeaf(s, o, v).p && ShLeaf(s, o, v).p
    requires At(Hw(o), v.up) in s.tables && At(Sh(o), v.up) in s.tables && UserFrame(s, HwLeaf(s, o, v).frame)
    requires var f, nf := HwLeaf(s, o, v).frame, s.fl[0];
      && f < |s.info| && nf < |s.info| == |s.mem| == |s.kind| && v.i < 512
      && var pt, ppt := s.tables[At(Hw(o), v.up)], s.tables[At(Sh(o), v.up)];
      && pt < |s.mem| && ppt < |s.mem|
      && var m1 := s.mem[nf := s.mem[f]];
      && var m2 := m1[pt := m1[pt][v.i := FullEntry(nf)]];
      && t == s.(mem := m2[ppt := m2[ppt][v.i := FullEntry(nf)]], info := s.info[f := s.info[f] - 1][nf := 1],
                 fl := s.fl[1..], head := s.info[nf], nfree := s.nfree - 1, kind := s.kind[nf := Held][nf := User])
    ensures t == SplitOff(s, o, v)
  {
    hide Base, FreeInv, TreeInv, LeafInv, CountInv, HeldInv;
    BaseParts(s);
    CowTables(s, o, v);
    FilledKeeps(s, o, v);
  }
}
