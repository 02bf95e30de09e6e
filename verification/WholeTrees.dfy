/** The table operations on whole trees, seen through the translations they leave behind. */
module WholeTrees {
  import opened Words
  import opened Paths
  import opened PageState
  import opened CopySteps
  import opened CopyLoop
  import opened ClearLoop
  import opened FreeLoop
  import opened Views
  import opened Sharing

  predicate SameTree(k: Key, l: Key)
  {
    k.owner == l.owner && k.shadow == l.shadow
  }

  /** The translations of every tree other than that of `k` are unchanged. */
  ghost predicate OtherTrees(s: State, t: State, k: Key)
  {
    forall l, v :: Depth(v) == 4 && !SameTree(k, l) ==> Leaf(t, l, v) == Leaf(s, l, v)
  }

  /** copy_pgtbl makes the destination translate every page as the source does, through tables of
      its own, and changes no other translation. */
  lemma CopyTranslates(s: State, t: State, kd: Key, ks: Key)
    requires Base(s) && Base(t) && kd.path == Top && CopyInv(s, t, kd, ks, 256)
    ensures forall v :: Depth(v) == 4 ==> Leaf(t, kd, v) == Present(Leaf(s, ks, v))
    ensures OtherTrees(s, t, kd) && SameFrames(s, t)
  {
    hide Base;
    forall v | Depth(v) == 4 ensures Leaf(t, kd, v) == Present(Leaf(s, ks, v)) {
      if UserPath(v) {
        UnderTop(v);
      } else {
        NotUserLeaf(s, ks, v);
        NotUserLeaf(t, kd, v);
      }
    }
    forall f: nat | UserFrame(s, f) && f < |s.mem| ensures t.mem[f] == s.mem[f] {
      assert SameUse(s, t, f);
    }
  }

  /** The pages of the copy's tables are not pages of the source's. */
  lemma CopyDisjoint(t: State, k: Key, l: Key)
    requires Base(t) && k in t.tables && l in t.tables && !SameTree(k, l)
    ensures t.tables[k] != t.tables[l]
  {
    assert TableOk(t, k) && TableOk(t, l);
  }

  /** Distinct page addresses, or the same address in distinct trees, use distinct table slots. */
  lemma DistinctSlots(s: State, k: Key, l: Key, va: nat, vb: nat)
    requires Base(s) && va < UMAX_ADDRESS && vb < UMAX_ADDRESS
    requires At(k, PathOf(va).up) in s.tables && At(l, PathOf(vb).up) in s.tables
    requires s.tables[At(k, PathOf(va).up)] == s.tables[At(l, PathOf(vb).up)] && PtIndex(va) == PtIndex(vb)
    ensures SameTree(k, l) && va / 4096 == vb / 4096
  {
    BaseTable(s, At(k, PathOf(va).up));
    BaseTable(s, At(l, PathOf(vb).up));
    PathOfInjective(va, vb);
  }

  /** pgtbl_clearflags takes W from every page of one tree. */
  lemma ClearTranslates(s: State, t: State, k: Key)
    requires Base(s) && k.path == Top && Cleared(s, t, k, 256)
    ensures forall v :: Depth(v) == 4 ==> Leaf(t, k, v) == NoWrite(Leaf(s, k, v))
    ensures OtherTrees(s, t, k) && SameFrames(s, t)
  {
    hide Base;
    forall v | Depth(v) == 4 ensures Leaf(t, k, v) == NoWrite(Leaf(s, k, v)) {
      UnderTop(v.up);
      if UserPath(v) {
        UnderTop(v);
        assert Reached(k, 256, At(k, v.up), v.i);
      } else {
        NotUserLeaf(s, k, v);
      }
    }
  }

  /** free_pgtbl leaves the tree translating nothing and the others as they were. */
  lemma FreeTranslates(s: State, t: State, k: Key)
    requires k.path == Top && FreedAll(s, t, k)
    ensures forall v :: Depth(v) == 4 ==> Leaf(t, k, v) == ZERO
    ensures OtherTrees(s, t, k)
  {
    forall v | Depth(v) == 4 ensures Leaf(t, k, v) == ZERO {
      UnderTop(v.up);
    }
  }

  /** A creating walk changes no translation. */
  lemma GrowTranslates(s: State, t: State, k: Key)
    requires Base(s) && Grown(s, t, k)
    ensures forall l, v :: Depth(v) == 4 ==> Leaf(t, l, v) == Leaf(s, l, v)
    ensures SameLeaves(s, t) && SameFrames(s, t)
    ensures forall f: nat :: UserFrame(s, f) <==> UserFrame(t, f)
  {
    hide Base;
    BaseParts(s);
    forall l, v | Depth(v) == 4 ensures Leaf(t, l, v) == Leaf(s, l, v) {
      assert Depth(v.up) == 3;
    }
    forall f: nat | f < |s.kind| ensures UserFrame(s, f) <==> UserFrame(t, f) {
      assert SameUse(s, t, f);
    }
    forall f: nat | UserFrame(s, f) && f < |s.mem| ensures t.mem[f] == s.mem[f] {
      assert SameUse(s, t, f);
    }
  }

  /** A tree that consists of its level-4 table alone is ready to receive a copy. */
  lemma FreshTree(s: State, kd: Key, ks: Key)
    requires Base(s) && s.gone == {} && kd in s.tables && ks in s.tables && kd.path == Top && ks.path == Top
    requires !SameTree(kd, ks) && forall i :: 0 <= i < 256 ==> !Ent(s, kd, i).p
    ensures CopyPlace(s, kd, ks)
  {
    hide Base, TreeInv;
    BaseParts(s);
    forall r | Under(Top, r) && r != Top ensures At(kd, r) !in s.tables {
      var j := Branch(Top, r);
      if At(kd, r) in s.tables {
        BaseTable(s, At(kd, r));
        NothingBelow(s, kd, j, r);
      }
    }
    forall v | Depth(v) == 4 && UserPath(v) ensures Leaf(s, kd, v) == ZERO {
      UnderTop(v.up);
    }
  }

  lemma TwinSource(s: State, o: nat)
    requires Base(s) && Twin(s)
    ensures SourceOk(s, Sh(o))
  {
    hide Base, Twin;
    forall v | Depth(v) == 4 && Leaf(s, Sh(o), v).p
      ensures Leaf(s, Sh(o), v).u && UserFrame(s, Leaf(s, Sh(o), v).frame)
    {
      ShadowFrame(s, o, v);
    }
  }
}
