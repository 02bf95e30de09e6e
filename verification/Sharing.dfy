/** Fork, growth and teardown as the processes see them. */
module Sharing {
  import opened Words
  import opened Paths
  import opened PageState
  import opened CopySteps
  import opened ClearLoop
  import opened DeepCopy
  import opened Views

  /** Addresses that are not user addresses are mapped nowhere. */
  lemma NotUserLeaf(s: State, k: Key, v: Path)
    requires Base(s) && Depth(v) == 4 && !UserPath(v)
    ensures Leaf(s, k, v) == ZERO
  {
    if At(k, v.up) in s.tables {
      assert TableOk(s, At(k, v.up));
    }
  }

  /** An entry that has not changed is still paired, if its frame got no new reference. */
  lemma TwinCarry(s: State, t: State, q: nat, u: Path)
    requires Base(s) && Base(t) && Twin(s) && Depth(u) == 4
    requires HwLeaf(t, q, u) == HwLeaf(s, q, u) && ShLeaf(t, q, u) == ShLeaf(s, q, u)
    requires HwLeaf(s, q, u).p && HwLeaf(s, q, u).w ==> NoNewRefs(s, t, HwLeaf(s, q, u).frame)
    ensures TwinAt(t, q, u)
  {
    hide Base;
    assert TwinAt(s, q, u);
    if HwLeaf(s, q, u).p && HwLeaf(s, q, u).w {
      LeafIsRef(s, q, u);
      FrameInMemory(s, HwLeaf(s, q, u).frame);
      SoleStays(s, t, q, u);
    }
  }

  /** No translation changed. */
  ghost predicate SameLeaves(s: State, t: State)
  {
    forall q, u :: Depth(u) == 4 ==> HwLeaf(t, q, u) == HwLeaf(s, q, u) && ShLeaf(t, q, u) == ShLeaf(s, q, u)
  }

  lemma SameSeen(s: State, t: State)
    requires Base(s) && Base(t) && Twin(s) && SameLeaves(s, t) && SameFrames(s, t)
    ensures Twin(t) && forall q :: Pages(t, q) == Pages(s, q)
  {
    hide Base, Pages;
    forall q, u | Depth(u) == 4 ensures TwinAt(t, q, u) {
      TwinCarry(s, t, q, u);
    }
    forall q ensures Pages(t, q) == Pages(s, q) {
      PagesSame(s, t, q, q);
    }
  }

  // ---------------------------------------------------------------- fork

  /** The child gets the parent's true entries, without W in the table the hardware uses; so does
      the parent's own. Everybody else keeps what they had. */
  ghost predicate Forked(s: State, t: State, p: nat, c: nat)
  {
    forall q, u :: Depth(u) == 4 ==>
      && HwLeaf(t, q, u) == (if q == c then NoWrite(Present(ShLeaf(s, p, u)))
                             else if q == p then NoWrite(HwLeaf(s, p, u)) else HwLeaf(s, q, u))
      && ShLeaf(t, q, u) == (if q == c then Present(ShLeaf(s, p, u)) else ShLeaf(s, q, u))
  }

  lemma ForkNoNewRefs(s: State, t: State, p: nat, c: nat, q: nat, u: Path)
    requires Base(s) && Twin(s) && Forked(s, t, p, c) && p != c && q != c && q != p
    requires Depth(u) == 4 && HwLeaf(s, q, u).p && HwLeaf(s, q, u).w
    ensures NoNewRefs(s, t, HwLeaf(s, q, u).frame)
  {
    hide Base;
    var f := HwLeaf(s, q, u).frame;
    assert TwinAt(s, q, u);
    LeafIsRef(s, q, u);
    FrameInMemory(s, f);
    forall x, y | Depth(y) == 4 && HwLeaf(t, x, y).p && HwLeaf(t, x, y).frame == f
      ensures HwLeaf(s, x, y).p && HwLeaf(s, x, y).frame == f
    {
      if x == c {
        assert TwinAt(s, p, y);
        SoleOwner(s, q, u, p, y);
      }
    }
  }

  lemma ForkTwin(s: State, t: State, p: nat, c: nat)
    requires Base(s) && Base(t) && Twin(s) && Forked(s, t, p, c) && p != c
    ensures Twin(t)
  {
    hide Base;
    forall q, u | Depth(u) == 4 ensures TwinAt(t, q, u) {
      assert TwinAt(s, p, u);
      if q != c && q != p {
        if HwLeaf(s, q, u).p && HwLeaf(s, q, u).w {
          ForkNoNewRefs(s, t, p, c, q, u);
        }
        TwinCarry(s, t, q, u);
      }
    }
  }

  /** Copy-on-write fork is a deep copy. */
  lemma ForkSeen(s: State, t: State, p: nat, c: nat)
    requires Base(s) && Base(t) && Twin(s) && Forked(s, t, p, c) && SameFrames(s, t) && p != c
    ensures Twin(t) && Pages(t, c) == Pages(s, p)
    ensures forall q :: q != c ==> Pages(t, q) == Pages(s, q)
  {
    hide Base, Twin, Pages;
    ForkTwin(s, t, p, c);
    PagesSame(s, t, p, c);
    forall q | q != c ensures Pages(t, q) == Pages(s, q) {
      PagesSame(s, t, q, q);
    }
  }

  // ---------------------------------------------------------------- teardown

  ghost predicate TornDown(s: State, t: State, c: nat)
  {
    forall q, u :: Depth(u) == 4 ==>
      && HwLeaf(t, q, u) == (if q == c then ZERO else HwLeaf(s, q, u))
      && ShLeaf(t, q, u) == (if q == c then ZERO else ShLeaf(s, q, u))
  }

  lemma ExitSeen(s: State, t: State, c: nat)
    requires Base(s) && Base(t) && Twin(s) && TornDown(s, t, c) && t.mem == s.mem
    ensures Twin(t) && forall q :: q != c ==> Pages(t, q) == Pages(s, q)
  {
    hide Base, Pages;
    forall q, u | Depth(u) == 4 ensures TwinAt(t, q, u) {
      if q != c {
        TwinCarry(s, t, q, u);
      }
    }
    forall q | q != c ensures Pages(t, q) == Pages(s, q) {
      PagesSame(s, t, q, q);
    }
  }

  // ---------------------------------------------------------------- a new page

  /** Page `v` of process `o`, so far unmapped, gets a frame nobody had, holding `pg`. */
  ghost predicate NewPage(s: State, t: State, o: nat, v: Path, nf: nat, pg: Page)
    requires nf < 0x10_0000_0000_0000
  {
    && Replaced(s, t, o, v, nf) && SameFrames(s, t) && !UserFrame(s, nf)
    && nf < |t.mem| && nf < |t.info| && t.info[nf] == 1 && t.mem[nf] == pg
  }

  lemma NewPageTwin(s: State, t: State, o: nat, v: Path, nf: nat, pg: Page)
    requires Base(s) && Base(t) && Twin(s) && Depth(v) == 4
    requires nf < 0x10_0000_0000_0000 && NewPage(s, t, o, v, nf, pg)
    ensures Twin(t)
  {
    hide Base;
    forall q, u | Depth(u) == 4 ensures TwinAt(t, q, u) {
      if q != o || u != v {
        if HwLeaf(s, q, u).p {
          LeafIsRef(s, q, u);
        }
        TwinCarry(s, t, q, u);
      }
    }
  }

  lemma NewPageOwn(s: State, t: State, o: nat, v: Path, nf: nat, pg: Page)
    requires Base(s) && Twin(s) && Depth(v) == 4
    requires nf < 0x10_0000_0000_0000 && NewPage(s, t, o, v, nf, pg)
    ensures Pages(t, o) == Pages(s, o)[v := UserPage(pg, true)]
  {
    hide Base, Twin, Pages;
    forall u | Depth(u) == 4 && u != v ensures SamePageSeen(s, t, o, u) {
      if ShLeaf(s, o, u).p {
        ShadowFrame(s, o, u);
      }
    }
    PagesUpdated(s, t, o, v, pg);
  }

  lemma NewPageSeen(s: State, t: State, o: nat, v: Path, nf: nat, pg: Page)
    requires Base(s) && Base(t) && Twin(s) && Depth(v) == 4
    requires nf < 0x10_0000_0000_0000 && NewPage(s, t, o, v, nf, pg)
    ensures Twin(t) && Pages(t, o) == Pages(s, o)[v := UserPage(pg, true)]
    ensures forall q :: q != o ==> Pages(t, q) == Pages(s, q)
  {
    hide Base, Twin, Pages;
    NewPageTwin(s, t, o, v, nf, pg);
    NewPageOwn(s, t, o, v, nf, pg);
    forall q | q != o ensures Pages(t, q) == Pages(s, q) {
      PagesSame(s, t, q, q);
    }
  }

  // ---------------------------------------------------------------- one frame for each page

  lemma SinglesSame(s: State, t: State)
    requires Singles(s)
    requires forall q, u :: Depth(u) == 4 ==> HwLeaf(t, q, u).p == HwLeaf(s, q, u).p && HwLeaf(t, q, u).frame == HwLeaf(s, q, u).frame
    ensures Singles(t)
  {
    forall q ensures OneToOne(t, q) {
      assert OneToOne(s, q);
    }
  }

  lemma SinglesFork(s: State, t: State, p: nat, c: nat)
    requires Twin(s) && Singles(s) && Forked(s, t, p, c) && p != c
    ensures Singles(t)
  {
    forall q ensures OneToOne(t, q) {
      assert OneToOne(s, q) && OneToOne(s, p);
      assert forall v :: Depth(v) == 4 ==> TwinAt(s, p, v);
    }
  }

  lemma SinglesExit(s: State, t: State, c: nat)
    requires Singles(s) && TornDown(s, t, c)
    ensures Singles(t)
  {
    forall q ensures OneToOne(t, q) {
      assert OneToOne(s, q);
    }
  }

  /** A page moves to a frame nobody had. */
  lemma SinglesReplaced(s: State, t: State, o: nat, v: Path, nf: nat)
    requires Base(s) && Singles(s) && nf < 0x10_0000_0000_0000 && Replaced(s, t, o, v, nf) && !UserFrame(s, nf)
    ensures Singles(t)
  {
    hide Base;
    forall q ensures OneToOne(t, q) {
      assert OneToOne(s, q);
      forall u | Depth(u) == 4 && HwLeaf(s, q, u).p ensures HwLeaf(s, q, u).frame != nf {
        LeafIsRef(s, q, u);
      }
    }
  }
}
