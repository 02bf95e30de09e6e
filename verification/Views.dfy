/** What the page tables and frames amount to for the processes, and why sharing frames copy-on-write
    cannot be seen. */
module Views {
  import opened Words
  import opened Paths
  import opened PageState
  import opened TableSteps
  import opened ReleaseSteps
  import opened CopySteps
  import opened DeepCopy

  function Hw(o: nat): (k: Key) { Key(o, false, Top) }
  function Sh(o: nat): (k: Key) { Key(o, true, Top) }

  /** The entry the hardware uses for page `v` of process `o`, and the one that holds the truth. */
  ghost function HwLeaf(s: State, o: nat, v: Path): (e: Word) { Leaf(s, Hw(o), v) }
  ghost function ShLeaf(s: State, o: nat, v: Path): (e: Word) { Leaf(s, Sh(o), v) }

  /** The two tables of a process differ only at the W flag, W in use implies W granted, and a page
      the hardware lets a process write belongs to it alone. */
  ghost predicate TwinAt(s: State, o: nat, v: Path)
  {
    var a, b := HwLeaf(s, o, v), ShLeaf(s, o, v);
    && a.p == b.p
    && (a.p ==> a.frame == b.frame && a.u && b.u && (a.w ==> b.w))
    && (a.p && a.w && a.frame < |s.info| ==> s.info[a.frame] == 1)
  }

  ghost predicate Twin(s: State)
  {
    forall o, v :: Depth(v) == 4 ==> TwinAt(s, o, v)
  }

  /** No two pages of `o` are in one frame. */
  ghost predicate OneToOne(s: State, o: nat)
  {
    forall v, u ::
      (Depth(v) == 4 && Depth(u) == 4 && HwLeaf(s, o, v).p && HwLeaf(s, o, u).p && HwLeaf(s, o, v).frame == HwLeaf(s, o, u).frame)
        ==> v == u
  }

  ghost predicate Singles(s: State)
  {
    forall o :: OneToOne(s, o)
  }

  lemma TwinLeaf(s: State, o: nat, v: Path)
    requires Twin(s) && Depth(v) == 4
    ensures var a, b := HwLeaf(s, o, v), ShLeaf(s, o, v);
      a.p == b.p && (a.p ==> a.frame == b.frame && a.u && b.u && (a.w ==> b.w))
  {
    assert TwinAt(s, o, v);
  }

  ghost function Content(s: State, f: nat): (pg: Page)
  {
    if f < |s.mem| then s.mem[f] else ZeroPage()
  }

  ghost function Pages(s: State, o: nat): (m: imap<Path, UserPage>)
  {
    imap v | Depth(v) == 4 && ShLeaf(s, o, v).p :: UserPage(Content(s, ShLeaf(s, o, v).frame), ShLeaf(s, o, v).w)
  }

  // ---------------------------------------------------------------- references

  /** A present hardware entry for a page is one of the references of its frame. */
  lemma LeafIsRef(s: State, o: nat, v: Path)
    requires Base(s) && Depth(v) == 4 && HwLeaf(s, o, v).p
    ensures (At(Hw(o), v.up), v.i) in Refs(s, HwLeaf(s, o, v).frame)
    ensures UserFrame(s, HwLeaf(s, o, v).frame) && HwLeaf(s, o, v).u
  {
    assert Counted(At(Hw(o), v.up));
  }

  lemma FrameInMemory(s: State, f: nat)
    requires Base(s) && UserFrame(s, f)
    ensures f < |s.info| == |s.mem| == s.machine.count
  {
  }

  /** A frame with one reference is named by one page of one process. */
  lemma SoleOwner(s: State, o: nat, v: Path, q: nat, u: Path)
    requires Base(s) && Depth(v) == 4 && Depth(u) == 4 && HwLeaf(s, o, v).p && HwLeaf(s, q, u).p
    requires HwLeaf(s, o, v).frame == HwLeaf(s, q, u).frame
    requires HwLeaf(s, o, v).frame < |s.info| && s.info[HwLeaf(s, o, v).frame] == 1
    ensures q == o && u == v
  {
    LeafIsRef(s, o, v);
    LeafIsRef(s, q, u);
    SoleMember(Refs(s, HwLeaf(s, o, v).frame), (At(Hw(o), v.up), v.i), (At(Hw(q), u.up), u.i));
  }

  /** `t` has no reference to `f` that `s` does not have. */
  ghost predicate NoNewRefs(s: State, t: State, f: nat)
  {
    forall q, u :: Depth(u) == 4 && HwLeaf(t, q, u).p && HwLeaf(t, q, u).frame == f ==>
      HwLeaf(s, q, u).p && HwLeaf(s, q, u).frame == f
  }

  lemma RefIsLeaf(s: State, f: nat, x: (Key, nat))
    requires x in Refs(s, f)
    ensures var v := Sub(x.0.path, x.1);
      && Depth(v) == 4 && HwLeaf(s, x.0.owner, v).p && HwLeaf(s, x.0.owner, v).frame == f
      && x == (At(Hw(x.0.owner), v.up), v.i)
  {
  }

  lemma OnlyMember<T>(a: set<T>, x: T)
    requires x in a && forall y :: y in a ==> y == x
    ensures |a| == 1
  {
    assert a == {x};
  }

  /** A page that was its owner's alone still is, if it is still mapped and nobody new maps it. */
  lemma SoleStays(s: State, t: State, o: nat, v: Path)
    requires Base(s) && Base(t) && Depth(v) == 4 && HwLeaf(s, o, v).p && HwLeaf(t, o, v).p
    requires HwLeaf(t, o, v).frame == HwLeaf(s, o, v).frame < |s.info|
    requires s.info[HwLeaf(s, o, v).frame] == 1 && NoNewRefs(s, t, HwLeaf(s, o, v).frame)
    ensures HwLeaf(t, o, v).frame < |t.info| && t.info[HwLeaf(t, o, v).frame] == 1
  {
    hide Base;
    var f := HwLeaf(s, o, v).frame;
    LeafIsRef(t, o, v);
    BaseParts(t);
    forall x | x in Refs(t, f) ensures x == (At(Hw(o), v.up), v.i) {
      RefIsLeaf(t, f, x);
      SoleOwner(s, o, v, x.0.owner, Sub(x.0.path, x.1));
    }
    OnlyMember(Refs(t, f), (At(Hw(o), v.up), v.i));
  }

  // ---------------------------------------------------------------- framing views

  /** The frames that hold user memory have the same contents. */
  ghost predicate SameFrames(s: State, t: State)
  {
    |t.mem| == |s.mem| && forall f: nat :: UserFrame(s, f) && f < |s.mem| ==> t.mem[f] == s.mem[f]
  }

  lemma ShadowFrame(s: State, o: nat, v: Path)
    requires Base(s) && Twin(s) && Depth(v) == 4 && ShLeaf(s, o, v).p
    ensures UserFrame(s, ShLeaf(s, o, v).frame) && ShLeaf(s, o, v).frame < |s.mem| == |s.info|
    ensures ShLeaf(s, o, v).u
  {
    assert TwinAt(s, o, v);
    LeafIsRef(s, o, v);
  }

  lemma PagesSame(s: State, t: State, o: nat, q: nat)
    requires Base(s) && Twin(s) && SameFrames(s, t)
    requires forall v :: Depth(v) == 4 ==> Present(ShLeaf(t, q, v)) == Present(ShLeaf(s, o, v))
    ensures Pages(t, q) == Pages(s, o)
  {
    hide Base, Twin;
    forall v | Depth(v) == 4 && ShLeaf(s, o, v).p
      ensures ShLeaf(t, q, v) == ShLeaf(s, o, v) && Content(t, ShLeaf(t, q, v).frame) == Content(s, ShLeaf(s, o, v).frame)
    {
      assert Present(ShLeaf(t, q, v)) == Present(ShLeaf(s, o, v));
      ShadowFrame(s, o, v);
    }
    forall v | Depth(v) == 4 && ShLeaf(t, q, v).p ensures ShLeaf(s, o, v).p {
      assert Present(ShLeaf(t, q, v)) == Present(ShLeaf(s, o, v));
    }
  }

  /** Page `u` of process `q` in `t` is the page it was in `s`. */
  ghost predicate SamePageSeen(s: State, t: State, q: nat, u: Path)
  {
    var a, b := ShLeaf(s, q, u), ShLeaf(t, q, u);
    b.p == a.p && (a.p ==> b.w == a.w && Content(t, b.frame) == Content(s, a.frame))
  }

  lemma PagesKept(s: State, t: State, q: nat)
    requires forall u :: Depth(u) == 4 ==> SamePageSeen(s, t, q, u)
    ensures Pages(t, q) == Pages(s, q)
  {
    assert forall u :: Depth(u) == 4 ==> SamePageSeen(s, t, q, u);
    forall u | u in Pages(s, q) || u in Pages(t, q) ensures u in Pages(s, q) && u in Pages(t, q) && Pages(t, q)[u] == Pages(s, q)[u] {
      assert SamePageSeen(s, t, q, u);
    }
  }

  lemma PagesUpdated(s: State, t: State, q: nat, v: Path, pg: Page)
    requires forall u :: Depth(u) == 4 && u != v ==> SamePageSeen(s, t, q, u)
    requires Depth(v) == 4 && ShLeaf(t, q, v).p && ShLeaf(t, q, v).w && Content(t, ShLeaf(t, q, v).frame) == pg
    ensures Pages(t, q) == Pages(s, q)[v := UserPage(pg, true)]
  {
    var m := Pages(s, q)[v := UserPage(pg, true)];
    forall u | u in m || u in Pages(t, q) ensures u in m && u in Pages(t, q) && Pages(t, q)[u] == m[u] {
      assert u != v ==> Depth(u) == 4 && SamePageSeen(s, t, q, u);
    }
  }

  // ---------------------------------------------------------------- a store

  ghost function Stored(s: State, f: nat, pg: Page): (t: State)
    requires f < |s.mem|
  {
    s.(mem := s.mem[f := pg])
  }

  /** Writing a user frame touches no table. */
  lemma StoredKeeps(s: State, f: nat, pg: Page)
    requires Base(s) && UserFrame(s, f)
    ensures f < |s.mem| && Base(Stored(s, f, pg)) && SameTables(s, Stored(s, f, pg))
  {
    var t := Stored(s, f, pg);
    assert SameTables(s, t) by {
      assert forall k :: k in s.tables ==> TableOk(s, k);
    }
    TreeFrame(s, t);
    LeafFrame(s, t);
    CountFrame(s, t);
    forall i | 0 <= i < |t.fl| ensures Listed(t, i) {
      assert Listed(s, i);
    }
  }

  /** A page the hardware lets a process write is named by no other entry, shadows included. */
  lemma SoleShadow(s: State, o: nat, v: Path, q: nat, u: Path)
    requires Base(s) && Twin(s) && Depth(v) == 4 && HwLeaf(s, o, v).p && HwLeaf(s, o, v).w
    requires Depth(u) == 4 && ShLeaf(s, q, u).p && ShLeaf(s, q, u).frame == HwLeaf(s, o, v).frame
    ensures q == o && u == v
  {
    hide Base;
    assert TwinAt(s, o, v) && TwinAt(s, q, u);
    ShadowFrame(s, q, u);
    SoleOwner(s, o, v, q, u);
  }

  /** Same entries and same counts: still twins. */
  lemma TwinFrame(s: State, t: State)
    requires Twin(s) && SameTables(s, t) && t.info == s.info
    ensures Twin(t)
  {
    SameEntries(s, t);
    forall q, u | Depth(u) == 4 ensures TwinAt(t, q, u) {
      assert TwinAt(s, q, u);
    }
  }

  lemma StoreOthers(s: State, o: nat, v: Path, pg: Page, q: nat)
    requires Base(s) && Twin(s) && Depth(v) == 4 && HwLeaf(s, o, v).p && HwLeaf(s, o, v).w
    requires HwLeaf(s, o, v).frame < |s.mem| && SameTables(s, Stored(s, HwLeaf(s, o, v).frame, pg)) && q != o
    ensures Pages(Stored(s, HwLeaf(s, o, v).frame, pg), q) == Pages(s, q)
  {
    hide Base, Twin, Pages;
    var t := Stored(s, HwLeaf(s, o, v).frame, pg);
    SameEntries(s, t);
    forall u | Depth(u) == 4 ensures SamePageSeen(s, t, q, u) {
      if ShLeaf(s, q, u).p && ShLeaf(s, q, u).frame == HwLeaf(s, o, v).frame {
        SoleShadow(s, o, v, q, u);
      }
    }
    PagesKept(s, t, q);
  }

  lemma StoreOwn(s: State, o: nat, v: Path, pg: Page)
    requires Base(s) && Twin(s) && Depth(v) == 4 && HwLeaf(s, o, v).p && HwLeaf(s, o, v).w
    requires HwLeaf(s, o, v).frame < |s.mem| && SameTables(s, Stored(s, HwLeaf(s, o, v).frame, pg))
    ensures v in Pages(s, o) && Pages(s, o)[v].writable
    ensures Pages(Stored(s, HwLeaf(s, o, v).frame, pg), o) == Pages(s, o)[v := UserPage(pg, true)]
  {
    hide Base, Twin, TwinAt;
    TwinLeaf(s, o, v);
    var t := Stored(s, HwLeaf(s, o, v).frame, pg);
    SameEntries(s, t);
    forall u | Depth(u) == 4 && u != v ensures SamePageSeen(s, t, o, u) {
      if ShLeaf(s, o, u).p && ShLeaf(s, o, u).frame == HwLeaf(s, o, v).frame {
        SoleShadow(s, o, v, o, u);
      }
    }
    PagesUpdated(s, t, o, v, pg);
  }

  /** A store through a writable hardware entry changes the page it is meant for and no page of any
      other process, nor any other page of the same one. */
  lemma StoreSeen(s: State, o: nat, v: Path, pg: Page)
    requires Base(s) && Twin(s) && Depth(v) == 4 && HwLeaf(s, o, v).p && HwLeaf(s, o, v).w
    ensures UserFrame(s, HwLeaf(s, o, v).frame) && HwLeaf(s, o, v).frame < |s.mem|
    ensures var t := Stored(s, HwLeaf(s, o, v).frame, pg);
      && Base(t) && Twin(t) && v in Pages(s, o) && Pages(s, o)[v].writable
      && Pages(t, o) == Pages(s, o)[v := UserPage(pg, true)]
      && (forall q :: q != o ==> Pages(t, q) == Pages(s, q))
  {
    hide Base, Twin, Pages;
    var f := HwLeaf(s, o, v).frame;
    LeafIsRef(s, o, v);
    StoredKeeps(s, f, pg);
    TwinFrame(s, Stored(s, f, pg));
    StoreOwn(s, o, v, pg);
    forall q | q != o ensures Pages(Stored(s, f, pg), q) == Pages(s, q) {
      StoreOthers(s, o, v, pg, q);
    }
  }

  // ---------------------------------------------------------------- giving a page its own frame

  /** Both entries of page `v` of process `o` now name frame `nf`, with all permissions. */
  ghost predicate Replaced(s: State, t: State, o: nat, v: Path, nf: nat)
    requires nf < 0x10_0000_0000_0000
  {
    forall q, u :: Depth(u) == 4 ==>
      && HwLeaf(t, q, u) == (if q == o && u == v then FullEntry(nf) else HwLeaf(s, q, u))
      && ShLeaf(t, q, u) == (if q == o && u == v then FullEntry(nf) else ShLeaf(s, q, u))
  }

  /** The new frame holds what the old one held, is counted once, and was nobody's; other user
      frames keep contents, and counts unless the page came from them. */
  ghost predicate FreshCopy(s: State, t: State, f: nat, nf: nat)
  {
    && f < |s.mem| && nf < |s.mem| == |t.mem| && |s.info| == |t.info| == |s.mem|
    && !UserFrame(s, nf) && t.info[nf] == 1 && t.mem[nf] == s.mem[f]
    && forall g: nat :: UserFrame(s, g) && g < |s.mem| ==> t.mem[g] == s.mem[g] && (g != f ==> t.info[g] == s.info[g])
  }

  /** Splitting a page off a shared frame cannot be seen by anyone. */
  lemma SplitTwin(s: State, t: State, o: nat, v: Path, nf: nat)
    requires Base(s) && Twin(s) && Depth(v) == 4 && HwLeaf(s, o, v).p && !HwLeaf(s, o, v).w
    requires nf < 0x10_0000_0000_0000 && Replaced(s, t, o, v, nf) && FreshCopy(s, t, HwLeaf(s, o, v).frame, nf)
    ensures Twin(t)
  {
    hide Base;
    var f := HwLeaf(s, o, v).frame;
    forall q, u | Depth(u) == 4 ensures TwinAt(t, q, u) {
      assert TwinAt(s, q, u);
      if (q != o || u != v) && HwLeaf(s, q, u).p && HwLeaf(s, q, u).w {
        LeafIsRef(s, q, u);
        if HwLeaf(s, q, u).frame == f {
          SoleOwner(s, q, u, o, v);
        }
      }
    }
  }

  lemma SplitPages(s: State, t: State, o: nat, v: Path, nf: nat, q: nat)
    requires Base(s) && Twin(s) && Depth(v) == 4 && ShLeaf(s, o, v).p && ShLeaf(s, o, v).w
    requires nf < 0x10_0000_0000_0000 && Replaced(s, t, o, v, nf) && FreshCopy(s, t, HwLeaf(s, o, v).frame, nf)
    ensures Pages(t, q) == Pages(s, q)
  {
    hide Base, Twin, Pages;
    TwinLeaf(s, o, v);
    forall u | Depth(u) == 4 ensures SamePageSeen(s, t, q, u) {
      if ShLeaf(s, q, u).p {
        ShadowFrame(s, q, u);
      }
    }
    PagesKept(s, t, q);
  }

  /** Turning W on for a page with one reference keeps the tables twins. */
  lemma FlagTwin(s: State, t: State, o: nat, v: Path)
    requires Twin(s) && Depth(v) == 4 && HwLeaf(s, o, v).p && ShLeaf(s, o, v).w && t.info == s.info
    requires HwLeaf(s, o, v).frame < |s.info| && s.info[HwLeaf(s, o, v).frame] == 1
    requires OneEntry(s, t, At(Hw(o), v.up), v.i, HwLeaf(s, o, v).(w := true))
    ensures Twin(t)
  {
    forall q, u | Depth(u) == 4 ensures TwinAt(t, q, u) {
      assert TwinAt(s, q, u);
    }
  }
}
