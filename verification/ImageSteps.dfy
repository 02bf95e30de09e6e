/** Building the memory of a new program: its pages are mapped in the hardware tree first, and the
    shadow tree is then made as a copy (create_proc, sys_exec). */
module ImageSteps {
  import opened Words
  import opened Paths
  import opened PageState
  import opened TableSteps
  import opened CopySteps
  import opened CopyLoop
  import opened WalkSteps
  import opened DeepCopy
  import opened Views
  import opened Sharing
  import opened WholeTrees
  import opened NewPages
  import opened KernelHalves
  import opened Boot
  import opened PageNeeds

  type Image = map<Path, Page>

  /** Some pages of the image are in place, each in a frame of its own; `fr` says where. */
  ghost predicate LoadedAt(s: State, t: State, fr: map<Path, nat>, img: Image, v: Path)
    requires v in fr
  {
    var f := fr[v];
    && Depth(v) == 4 && v in img && f < 0x10_0000_0000_0000
    && UserFrame(t, f) && !UserFrame(s, f) && f < |t.mem| && t.mem[f] == img[v]
  }

  ghost predicate Loading(s: State, t: State, o: nat, fr: map<Path, nat>, img: Image)
  {
    && Base(t) && t.gone == {} && SameFrames(s, t)
    && (forall g: nat :: UserFrame(s, g) ==> UserFrame(t, g))
    && (forall v :: v in fr ==> LoadedAt(s, t, fr, img, v))
    && (forall v, u :: v in fr && u in fr && fr[v] == fr[u] ==> v == u)
    && LoadingLeaves(s, t, o, fr)
  }

  ghost predicate LoadingLeaves(s: State, t: State, o: nat, fr: map<Path, nat>)
  {
    forall q, u :: Depth(u) == 4 ==>
      && ShLeaf(t, q, u) == ShLeaf(s, q, u)
      && (if q == o && u in fr then fr[u] < 0x10_0000_0000_0000 && HwLeaf(t, q, u) == FullEntry(fr[u])
          else HwLeaf(t, q, u) == HwLeaf(s, q, u))
  }

  lemma LoadStart(s: State, o: nat, img: Image)
    requires Base(s) && s.gone == {}
    ensures Loading(s, s, o, map[], img)
  {
  }

  /** Another page. */
  lemma LoadNext(s: State, t: State, u: State, o: nat, fr: map<Path, nat>, img: Image, v: Path, f: nat)
    requires Loading(s, t, o, fr, img) && v !in fr && v in img && Depth(v) == 4 && f < 0x10_0000_0000_0000
    requires HalfMapped(t, u, o, v, f, img[v]) && !UserFrame(t, f)
    ensures Loading(s, u, o, fr[v := f], img)
  {
    hide Base;
    var fr' := fr[v := f];
    forall w | w in fr' ensures LoadedAt(s, u, fr', img, w) {
      if w != v {
        assert LoadedAt(s, t, fr, img, w);
      }
    }
    forall w, x | w in fr' && x in fr' && fr'[w] == fr'[x] ensures w == x {
      assert w in fr ==> LoadedAt(s, t, fr, img, w);
      assert x in fr ==> LoadedAt(s, t, fr, img, x);
    }
    LoadNextLeaves(s, t, u, o, fr, img, v, f);
  }

  lemma LoadNextLeaves(s: State, t: State, u: State, o: nat, fr: map<Path, nat>, img: Image, v: Path, f: nat)
    requires LoadingLeaves(s, t, o, fr) && v !in fr && v in img && f < 0x10_0000_0000_0000 && HalfMapped(t, u, o, v, f, img[v])
    ensures LoadingLeaves(s, u, o, fr[v := f])
  {
    hide Base;
  }

  /** The frame of a mapped page is filled in. */
  lemma FillPage(s: State, t: State, o: nat, v: Path, f: nat, pg: Page)
    requires f < 0x10_0000_0000_0000 && HalfMapped(s, t, o, v, f, ZeroPage()) && !UserFrame(s, f)
    ensures f < |t.mem| && HalfMapped(s, Stored(t, f, pg), o, v, f, pg)
  {
    hide Base;
    StoredKeeps(t, f, pg);
    var u := Stored(t, f, pg);
    SameEntries(t, u);
    forall q, w | Depth(w) == 4 ensures HwLeaf(u, q, w) == HwLeaf(t, q, w) && ShLeaf(u, q, w) == ShLeaf(t, q, w) {
    }
    assert SameFrames(s, u);
  }

  // ---------------------------------------------------------------- the finished image

  /** All pages are loaded and the shadow tree is a copy of the hardware tree. */
  ghost predicate ImageDone(s: State, t: State, u: State, o: nat, fr: map<Path, nat>, img: Image)
  {
    && Loading(s, t, o, fr, img) && fr.Keys == img.Keys
    && Base(u) && CopyInv(t, u, Sh(o), Hw(o), 256)
  }

  /** Slot `o` starts out empty. */
  ghost predicate EmptySpace(s: State, o: nat)
  {
    forall v :: Depth(v) == 4 ==> !HwLeaf(s, o, v).p && !ShLeaf(s, o, v).p
  }

  ghost predicate ImageLeaves(s: State, u: State, o: nat, fr: map<Path, nat>)
  {
    forall q, v :: Depth(v) == 4 ==>
      if q != o then HwLeaf(u, q, v) == HwLeaf(s, q, v) && ShLeaf(u, q, v) == ShLeaf(s, q, v)
      else if v in fr then fr[v] < 0x10_0000_0000_0000 && HwLeaf(u, o, v) == FullEntry(fr[v]) == ShLeaf(u, o, v)
      else !HwLeaf(u, o, v).p && !ShLeaf(u, o, v).p
  }

  lemma ImageLeavesDone(s: State, t: State, u: State, o: nat, fr: map<Path, nat>, img: Image)
    requires ImageDone(s, t, u, o, fr, img) && EmptySpace(s, o)
    ensures ImageLeaves(s, u, o, fr) && SameFrames(s, u)
    ensures forall v :: v in fr ==> UserFrame(u, fr[v]) && fr[v] < |u.mem| && u.mem[fr[v]] == img[v]
  {
    hide Base, CopyInv, LoadedAt, UserFrame;
    CopyTranslates(t, u, Sh(o), Hw(o));
    ImageFrames(s, t, u, o, fr, img);
  }

  lemma ImageFrames(s: State, t: State, u: State, o: nat, fr: map<Path, nat>, img: Image)
    requires ImageDone(s, t, u, o, fr, img) && SameFrames(t, u)
    ensures SameFrames(s, u)
    ensures forall v :: v in fr ==> UserFrame(u, fr[v]) && fr[v] < |u.mem| && u.mem[fr[v]] == img[v]
  {
    hide Base, CopyInv, LoadingLeaves;
    forall v | v in fr ensures UserFrame(u, fr[v]) && fr[v] < |u.mem| && u.mem[fr[v]] == img[v] {
      assert LoadedAt(s, t, fr, img, v);
      CopyKeepsUser(t, u, Sh(o), Hw(o), fr[v]);
    }
  }

  lemma CopyKeepsUser(t: State, u: State, kd: Key, ks: Key, f: nat)
    requires CopyInv(t, u, kd, ks, 256) && UserFrame(t, f)
    ensures UserFrame(u, f)
  {
    assert SameUse(t, u, f);
  }

  /** Every frame of the image is referred to once. */
  lemma ImageCount(s: State, u: State, o: nat, fr: map<Path, nat>, v: Path)
    requires Base(s) && Base(u) && ImageLeaves(s, u, o, fr) && v in fr && Depth(v) == 4
    requires !UserFrame(s, fr[v]) && forall w, x :: w in fr && x in fr && fr[w] == fr[x] ==> w == x
    ensures fr[v] < |u.info| && u.info[fr[v]] == 1
  {
    hide Base, TreeInv, FreeInv, LeafInv, HeldInv;
    BaseParts(u);
    var f := fr[v];
    LeafIsRef(u, o, v);
    forall x | x in Refs(u, f) ensures x == (At(Hw(o), v.up), v.i) {
      RefIsLeaf(u, f, x);
      var w := Sub(x.0.path, x.1);
      if x.0.owner != o {
        LeafIsRef(s, x.0.owner, w);
      } else {
        assert w in fr;
      }
    }
    OnlyMember(Refs(u, f), (At(Hw(o), v.up), v.i));
  }

  lemma ImageTwin(s: State, t: State, u: State, o: nat, fr: map<Path, nat>, img: Image)
    requires Base(s) && Twin(s) && EmptySpace(s, o) && ImageDone(s, t, u, o, fr, img) && ImageLeaves(s, u, o, fr)
    ensures Twin(u)
  {
    hide Base, CopyInv;
    forall q, v | Depth(v) == 4 ensures TwinAt(u, q, v) {
      if q == o {
        if v in fr {
          assert LoadedAt(s, t, fr, img, v);
          ImageCount(s, u, o, fr, v);
        }
      } else {
        if HwLeaf(s, q, v).p {
          LeafIsRef(s, q, v);
          ImageNoNew(s, t, u, o, fr, img, HwLeaf(s, q, v).frame);
        }
        TwinCarry(s, u, q, v);
      }
    }
  }

  lemma ImageNoNew(s: State, t: State, u: State, o: nat, fr: map<Path, nat>, img: Image, f: nat)
    requires ImageDone(s, t, u, o, fr, img) && ImageLeaves(s, u, o, fr) && UserFrame(s, f)
    ensures NoNewRefs(s, u, f)
  {
    hide Base, CopyInv;
    forall v | v in fr ensures fr[v] != f {
      assert LoadedAt(s, t, fr, img, v);
    }
    forall q, v | Depth(v) == 4 && HwLeaf(u, q, v).p && HwLeaf(u, q, v).frame == f
      ensures HwLeaf(s, q, v).p && HwLeaf(s, q, v).frame == f
    {
    }
  }

  ghost function ImagePages(img: Image): (m: imap<Path, UserPage>)
  {
    imap v | v in img :: UserPage(img[v], true)
  }

  /** The new program sees its image and nothing else; nobody else sees anything. */
  lemma ImageSeen(s: State, t: State, u: State, o: nat, fr: map<Path, nat>, img: Image)
    requires Base(s) && Twin(s) && EmptySpace(s, o) && ImageDone(s, t, u, o, fr, img)
    ensures Twin(u) && Pages(u, o) == ImagePages(img)
    ensures forall q :: q != o ==> Pages(u, q) == Pages(s, q)
  {
    hide Base, CopyInv, Twin, Loading, ImageLeaves, Pages, ImagePages;
    ImageLeavesDone(s, t, u, o, fr, img);
    ImageTwin(s, t, u, o, fr, img);
    ImageSeenOwn(s, t, u, o, fr, img);
    forall q | q != o ensures Pages(u, q) == Pages(s, q) {
      ImageSeenOther(s, u, o, fr, q);
    }
  }

  lemma ImageSeenOwn(s: State, t: State, u: State, o: nat, fr: map<Path, nat>, img: Image)
    requires Loading(s, t, o, fr, img) && fr.Keys == img.Keys && ImageLeaves(s, u, o, fr)
    requires forall v :: v in fr ==> UserFrame(u, fr[v]) && fr[v] < |u.mem| && u.mem[fr[v]] == img[v]
    ensures Pages(u, o) == ImagePages(img)
  {
    hide Base, LoadingLeaves, SameFrames, UserFrame;
    forall v | v in img ensures Depth(v) == 4 {
      assert LoadedAt(s, t, fr, img, v);
    }
  }

  lemma ImageSeenOther(s: State, u: State, o: nat, fr: map<Path, nat>, q: nat)
    requires Base(s) && Twin(s) && ImageLeaves(s, u, o, fr) && SameFrames(s, u) && q != o
    ensures Pages(u, q) == Pages(s, q)
  {
    hide Base, Twin, Pages;
    PagesSame(s, u, q, q);
  }

  lemma ImageSingles(s: State, t: State, u: State, o: nat, fr: map<Path, nat>, img: Image)
    requires Singles(s) && EmptySpace(s, o) && ImageDone(s, t, u, o, fr, img)
    ensures Singles(u)
  {
    hide Base, CopyInv;
    ImageLeavesDone(s, t, u, o, fr, img);
    forall q ensures OneToOne(u, q) {
      assert OneToOne(s, q);
    }
  }

  // ---------------------------------------------------------------- how many pages it takes

  /** Pages taken by a walk are tables. */
  lemma {:induction false} WalkCounts(s: State, root: Key, q: Path, create: bool)
    requires Base(s) && s.gone == {} && root.path == Top && root in s.tables && UserPath(q) && Depth(q) <= 3
    ensures var t := WalkTo(s, root, q, create).0; |t.tables| + t.nfree == |s.tables| + s.nfree
    decreases q
  {
    hide Base;
    if q.Sub? {
      WalkCounts(s, root, q.up, create);
      var (t, w) := WalkTo(s, root, q.up, create);
      if w.Found? {
        StepCounts(t, At(root, q.up), q.i, create);
      }
    }
  }

  lemma StepCounts(t: State, k: Key, i: nat, create: bool)
    requires Base(t) && t.gone == {} && k in t.tables && i < 512
    ensures TableOk(t, k)
    ensures var u := Step(t, k, i, create).0; |u.tables| + u.nfree == |t.tables| + t.nfree
  {
    hide LeafInv, CountInv, HeldInv;
    BaseTable(t, k);
    if Child(k, i) !in t.tables && create && t.nfree != 0 {
      assert Listed(t, 0);
      var u := Step(t, k, i, create).0;
      assert u.tables.Keys == t.tables.Keys + {Child(k, i)};
      assert |u.tables| == |u.tables.Keys|;
    }
  }

  /** Tables added below `k` are exactly the tables added. */
  lemma BelowCounts(s: State, t: State, k: Key)
    requires Outside(s, t, k)
    ensures |Below(t, k)| + |s.tables| == |Below(s, k)| + |t.tables|
  {
    hide InSubtree, SameUse, Ent;
    var d := t.tables.Keys - s.tables.Keys;
    assert t.tables.Keys == s.tables.Keys + d;
    assert Below(t, k) == Below(s, k) + d;
    assert |t.tables| == |t.tables.Keys| && |s.tables| == |s.tables.Keys|;
  }

  // ---------------------------------------------------------------- one page of the loader

  /** Where the loader stands: `n` pages done, all pages taken are frames of the image or tables of
      the hardware tree, and the shadow tree is untouched. */
  ghost predicate LoadInv(s: State, t: State, o: nat, fr: map<Path, nat>, img: Image, n: nat)
  {
    && Loading(s, t, o, fr, img)
    && t.nfree + n + |Below(t, Hw(o))| == s.nfree && TreeOf(t, Hw(o), fr.Keys)
    && Hw(o) in t.tables && Sh(o) in t.tables && forall j :: 0 <= j < 256 ==> !Ent(t, Sh(o), j).p
  }

  lemma LoadInvBase(s: State, t: State, o: nat, fr: map<Path, nat>, img: Image, n: nat)
    requires LoadInv(s, t, o, fr, img, n)
    ensures Base(t) && t.gone == {} && Hw(o) in t.tables && TreeOf(t, Hw(o), fr.Keys)
    ensures t.nfree + n + |Ways(fr.Keys)| == s.nfree && |Below(t, Hw(o))| == |Ways(fr.Keys)|
  {
    WaysBelow(fr.Keys);
    BelowIsWays(t, Hw(o), fr.Keys);
  }

  /** There are pages left for the next one, and for its tables. */
  lemma LoadRoom(s: State, t: State, o: nat, fr: map<Path, nat>, img: Image, v: Path, n: nat)
    requires LoadInv(s, t, o, fr, img, n) && v in img && v.Sub? && fr.Keys <= img.Keys && n < |img| && s.nfree > LoadNeed(img.Keys)
    ensures t.nfree > 1 + Missing(t, Hw(o), v.up)
  {
    hide LoadInv, Ways;
    LoadInvBase(s, t, o, fr, img, n);
    TreeOfRoom(t, Hw(o), fr.Keys, v, img.Keys);
    assert |img.Keys| == |img|;
  }

  /** Loading and copying took what was needed. */
  lemma LoadCost(s: State, t: State, u: State, o: nat, fr: map<Path, nat>, img: Image, n: nat)
    requires LoadInv(s, t, o, fr, img, n) && fr.Keys == img.Keys && n == |img.Keys| && CopyInv(t, u, Sh(o), Hw(o), 256)
    ensures u.nfree + LoadNeed(img.Keys) == s.nfree
  {
    hide LoadInv, Base, FreeInv, LeafInv, CountInv, HeldInv, Ways;
    LoadInvBase(s, t, o, fr, img, n);
    BaseParts(t);
    BelowAll(t, Hw(o));
  }

  /** After the walk and the allocation. */
  lemma LoadTake(t: State, u: State, k: Key)
    requires Base(t) && Base(u) && u.gone == {} && Grown(t, u, k) && u.nfree >= 2
    ensures Sized(u) && FreeInv(u) && u.fl != [] && u.fl[0] < u.machine.count && !UserFrame(t, u.fl[0])
    ensures InHand(t, Pop(u, true), u.fl[0], ZeroPage()) && Pop(u, true).tables == u.tables
    ensures Pop(u, true).nfree + 1 == u.nfree && forall l, j :: Ent(Pop(u, true), l, j) == Ent(u, l, j)
    ensures Base(Pop(u, true)) && Sized(Pop(u, true)) && Pop(u, true).kind[u.fl[0]] == Held && KeepsHalves(u, Pop(u, true))
  {
    hide KeepsHalves, Base, TreeInv, LeafInv, CountInv, HeldInv;
    BaseParts(u);
    TakePage(u);
    GrowTranslates(t, u, k);
    PopKeeps(u, true);
    SameEntries(u, Pop(u, true));
  }

  lemma LoadUnmapped(s: State, t: State, o: nat, fr: map<Path, nat>, img: Image, v: Path)
    requires Loading(s, t, o, fr, img) && EmptySpace(s, o) && Depth(v) == 4 && v !in fr
    ensures !HwLeaf(t, o, v).p
  {
  }

  /** The page is mapped and filled. */
  lemma LoadStep(s: State, t: State, u: State, o: nat, fr: map<Path, nat>, img: Image, v: Path, n: nat)
    requires LoadInv(s, t, o, fr, img, n) && EmptySpace(s, o) && v !in fr && v in img && Depth(v) == 4 && v.i < 512
    requires Base(u) && u.gone == {} && Grown(t, u, Hw(o)) && |u.tables| + u.nfree == |t.tables| + t.nfree
    requires u.nfree >= 2 && Made(t, u, Hw(o), v.up) && At(Hw(o), v.up) in u.tables
    ensures Sized(u) && FreeInv(u) && u.fl != [] && u.fl[0] < u.machine.count && TableOk(u, At(Hw(o), v.up))
    ensures Sized(Pop(u, true)) && Pop(u, true).tables == u.tables
    ensures var f := u.fl[0];
      var w := MapHeld(Pop(u, true), At(Hw(o), v.up), v.i, FullEntry(f));
      f < |w.mem| && LoadInv(s, Stored(w, f, img[v]), o, fr[v := f], img, n + 1) && KeepsHalves(t, Stored(w, f, img[v]))
  {
    hide KeepsHalves, Made, TreeOf, Base, TreeInv, FreeInv, LeafInv, CountInv, HeldInv, Grown, Loading, InHand, HalfMapped, EmptySpace, Ent;
    LoadInvBase(s, t, o, fr, img, n);
    LoadTake(t, u, Hw(o));
    LoadUnmapped(s, t, o, fr, img, v);
    BaseTable(u, At(Hw(o), v.up));
    var f := u.fl[0];
    var p := Pop(u, true);
    MapHw(t, p, o, v, f, ZeroPage());
    var w := MapHeld(p, At(Hw(o), v.up), v.i, FullEntry(f));
    FillPage(t, w, o, v, f, img[v]);
    LoadNext(s, t, Stored(w, f, img[v]), o, fr, img, v, f);
    LoadStepRest(t, u, p, o, v, f, img[v]);
    LoadHalves(t, u, p, w, o, v, f, img[v]);
    TreeOfNext(t, u, Hw(o), fr.Keys, v);
    assert fr[v := f].Keys == fr.Keys + {v};
    TreeOfSame(u, Stored(w, f, img[v]), Hw(o), fr.Keys + {v});
  }

  lemma LoadHalves(t: State, u: State, p: State, w: State, o: nat, v: Path, f: nat, pg: Page)
    requires f < 0x10_0000_0000_0000 && HalfMapped(t, w, o, v, f, ZeroPage())
    requires Grown(t, u, Hw(o)) && KeepsHalves(u, p) && KeepsHalves(p, w)
    ensures f < |w.mem| && KeepsHalves(t, Stored(w, f, pg))
  {
    hide Base, Grown, KeepsHalves;
    KeepsGrown(t, u, Hw(o));
    KeepsTrans(t, u, p);
    KeepsTrans(t, p, w);
    KeepsStored(w, f, pg);
    KeepsTrans(t, w, Stored(w, f, pg));
  }

  /** The kernel's half of the hardware table does not matter to the loader. */
  lemma HalfLoading(s: State, t: State, o: nat, fr: map<Path, nat>, img: Image, n: nat, pg: Page)
    requires LoadInv(s, t, o, fr, img, n) && t.tables[Hw(o)] < |t.mem| && pg[..256] == t.mem[t.tables[Hw(o)]][..256]
    ensures LoadInv(s, Half(t, Hw(o), pg), o, fr, img, n)
  {
    hide Base, FreeInv, LeafInv, CountInv, HeldInv, TreeInv;
    var u := Half(t, Hw(o), pg);
    BaseParts(t);
    BaseTable(t, Hw(o));
    HalfKeeps(t, Hw(o), pg);
    HalfEntries(t, Hw(o), pg);
    TreeOfSame(t, u, Hw(o), fr.Keys);
    assert Below(u, Hw(o)) == Below(t, Hw(o));
    forall q, v | Depth(v) == 4 ensures HwLeaf(u, q, v) == HwLeaf(t, q, v) && ShLeaf(u, q, v) == ShLeaf(t, q, v) {
      assert Depth(v.up) == 3;
    }
    forall v | v in fr ensures LoadedAt(s, u, fr, img, v) {
      assert LoadedAt(s, t, fr, img, v);
    }
  }

  lemma LoadStepRest(t: State, u: State, p: State, o: nat, v: Path, f: nat, pg: Page)
    requires Base(u) && u.gone == {} && Grown(t, u, Hw(o)) && |u.tables| + u.nfree == |t.tables| + t.nfree
    requires Sized(p) && p.tables == u.tables && p.nfree + 1 == u.nfree && p.gone == {} && forall l, j :: Ent(p, l, j) == Ent(u, l, j)
    requires Base(p) && Depth(v) == 4 && v.i < 512 && f < p.machine.count && At(Hw(o), v.up) in u.tables && p.kind[f] == Held && TableOk(p, At(Hw(o), v.up))
    requires Hw(o) in t.tables && Sh(o) in t.tables && forall j :: 0 <= j < 256 ==> !Ent(t, Sh(o), j).p
    ensures f < |p.mem|
    ensures var x := Stored(MapHeld(p, At(Hw(o), v.up), v.i, FullEntry(f)), f, pg);
      && x.nfree + 1 + |Below(x, Hw(o))| == t.nfree + |Below(t, Hw(o))|
      && Hw(o) in x.tables && Sh(o) in x.tables && forall j :: 0 <= j < 256 ==> !Ent(x, Sh(o), j).p
  {
    hide Base, TreeInv, FreeInv, LeafInv, CountInv, HeldInv;
    BelowCounts(t, u, Hw(o));
    var x := Stored(MapHeld(p, At(Hw(o), v.up), v.i, FullEntry(f)), f, pg);
    assert Below(x, Hw(o)) == Below(u, Hw(o));
    forall j | 0 <= j < 256 ensures !Ent(x, Sh(o), j).p {
      BaseTable(p, Sh(o));
      assert Ent(u, Sh(o), j) == Ent(t, Sh(o), j);
      assert Ent(p, Sh(o), j) == p.mem[p.tables[Sh(o)]][j];
    }
  }
}
