/** The obligations of the loop of `copy_pgtbl`: what holds before each table is copied, and what
    each iteration adds. */
module CopyLoop {
  import opened Words
  import opened Paths
  import opened PageState
  import opened TableSteps
  import opened CopySteps
  import opened WalkSteps

  /** Every page the source maps is a frame of user memory. */
  ghost predicate SourceOk(s: State, ks: Key)
  {
    forall v :: Depth(v) == 4 && Under(ks.path, v) && Leaf(s, ks, v).p ==>
      Leaf(s, ks, v).u && UserFrame(s, Leaf(s, ks, v).frame)
  }

  /** Table `kd` is fresh and stands where `ks` stands in another tree. */
  ghost predicate CopyPlace(s: State, kd: Key, ks: Key)
  {
    && s.gone == {} && kd in s.tables && ks in s.tables
    && kd.path == ks.path && Depth(kd.path) <= 3
    && !(kd.owner == ks.owner && kd.shadow == ks.shadow)
    && Copied(s, s, kd, ks, 0)
  }

  ghost predicate CopyReady(s: State, kd: Key, ks: Key, count: bool)
  {
    CopyPlace(s, kd, ks) && count == !kd.shadow && (count ==> SourceOk(s, ks)) && s.nfree > |Below(s, ks)|
  }

  /** After `n` entries. */
  ghost predicate CopyInv(s: State, t: State, kd: Key, ks: Key, n: nat)
  {
    && t.gone == {} && Outside(s, t, kd) && Copied(s, t, kd, ks, n)
    && t.nfree + |BelowUpTo(s, ks, n)| == s.nfree
  }

  lemma CopyStart(s: State, kd: Key, ks: Key, count: bool)
    requires Base(s) && CopyReady(s, kd, ks, count)
    ensures CopyInv(s, s, kd, ks, 0)
    ensures kd in s.tables && ks in s.tables && kd.path == ks.path
  {
    BelowAll(s, ks);
  }

  lemma CopyFinish(s: State, t: State, kd: Key, ks: Key)
    requires Base(s) && CopyInv(s, t, kd, ks, Fan(kd.path)) && kd.path == ks.path
    ensures t.nfree + |Below(s, ks)| == s.nfree
  {
    BelowAll(s, ks);
  }

  /** The source entry is still what it was. */
  lemma CopySource(s: State, t: State, kd: Key, ks: Key, count: bool, n: nat, i: nat)
    requires Base(t) && CopyReady(s, kd, ks, count) && CopyInv(s, t, kd, ks, n) && i < 512
    ensures kd in s.tables && kd in t.tables && t.tables[kd] == s.tables[kd] < |t.mem|
    ensures ks in s.tables && ks in t.tables && t.tables[ks] == s.tables[ks] < |t.mem|
    ensures Ent(s, ks, i) == Ent(t, ks, i) == t.mem[t.tables[ks]][i]
  {
    hide Base;
    BaseTable(t, kd);
    BaseTable(t, ks);
  }

  lemma CopySkip(s: State, t: State, kd: Key, ks: Key, count: bool, n: nat)
    requires Base(s) && CopyReady(s, kd, ks, count) && CopyInv(s, t, kd, ks, n) && !Ent(s, ks, n).p
    ensures CopyInv(s, t, kd, ks, n + 1)
  {
    CopyAbsent(s, t, kd, ks, n);
    BelowAbsent(s, ks, n);
  }

  // ---------------------------------------------------------------- last level

  lemma CopyFreeSlot(s: State, t: State, kd: Key, ks: Key, n: nat)
    requires Base(t) && CopyPlace(s, kd, ks) && CopyInv(s, t, kd, ks, n) && Depth(kd.path) == 3 && n < 512
    ensures LeafAt(t, kd, n) && TableOk(t, kd) && Ent(t, kd, n) == ZERO
  {
    assert kd in t.tables;
    assert TableOk(t, kd);
    var v := Sub(kd.path, n);
    assert Depth(v) == 4 && UserPath(v);
    assert Under(kd.path, kd.path);
    BranchUnique(kd.path, n, v);
    assert Leaf(t, kd, v) == Ent(t, At(kd, kd.path), n);
  }

  lemma CopyLeafFrame(s: State, t: State, kd: Key, ks: Key, n: nat)
    requires SourceOk(s, ks) && Outside(s, t, kd) && Depth(ks.path) == 3 && Ent(s, ks, n).p
    ensures Ent(s, ks, n).u && UserFrame(t, Ent(s, ks, n).frame)
  {
    var v := Sub(ks.path, n);
    assert Depth(v) == 4 && Under(ks.path, ks.path) && Under(ks.path, v);
    assert Leaf(s, ks, v) == Ent(s, ks, n);
    assert SameUse(s, t, Ent(s, ks, n).frame);
  }

  lemma CopyLeafOutside(s: State, t: State, u: State, kd: Key, n: nat, w: Word)
    requires Outside(s, t, kd) && OneEntry(t, u, kd, n, w) && n < Fan(kd.path)
    requires u.machine == t.machine && u.gone == t.gone && u.tables == t.tables && u.kind == t.kind
    requires kd in t.tables && t.tables[kd] < |t.mem| == |u.mem| && t.kind[t.tables[kd]].TablePage?
    requires forall g :: 0 <= g < |t.mem| && g != t.tables[kd] ==> u.mem[g] == t.mem[g]
    ensures Outside(s, u, kd)
  {
    assert InSubtree(kd, kd);
    forall f | 0 <= f < |s.kind| ensures SameUse(s, u, f) {
      assert SameUse(s, t, f);
    }
  }

  lemma CopyLeafUp(s: State, t: State, u: State, kd: Key, ks: Key, n: nat)
    requires Base(s) && CopyPlace(s, kd, ks) && CopyInv(s, t, kd, ks, n) && Depth(kd.path) == 3
    requires Ent(s, ks, n).p && OneEntry(t, u, kd, n, Ent(s, ks, n)) && Outside(s, u, kd)
    requires u.gone == {} && u.tables == t.tables && u.nfree == t.nfree
    ensures CopyInv(s, u, kd, ks, n + 1)
  {
    CopyLeafEntry(s, t, u, kd, ks, n);
    assert BelowUpTo(s, ks, n + 1) == BelowUpTo(s, ks, n) by {
      forall l | l in s.tables && InSubtree(ks, l) && l != ks ensures false {
        assert TableOk(s, l);
        UnderDepth(ks.path, l.path);
      }
    }
  }

  /** The state after a present last-level entry has been copied. */
  ghost function EntryCopied(t: State, kd: Key, n: nat, w: Word, count: bool): (u: State)
    requires Sized(t) && kd in t.tables && t.tables[kd] < t.machine.count && n < 512
    requires count ==> w.frame < t.machine.count
  {
    if count then Share(t, kd, n, w) else Put(t, kd, n, w)
  }

  lemma EntryCopiedKeeps(s: State, t: State, kd: Key, ks: Key, n: nat, count: bool)
    requires Base(t) && CopyReady(s, kd, ks, count) && CopyInv(s, t, kd, ks, n)
    requires Depth(kd.path) == 3 && n < 512 && Ent(s, ks, n).p
    ensures Sized(t) && kd in t.tables && TableOk(t, kd) && (count ==> UserFrame(t, Ent(s, ks, n).frame))
    ensures var u := EntryCopied(t, kd, n, Ent(s, ks, n), count);
      Base(u) && OneEntry(t, u, kd, n, Ent(s, ks, n))
  {
    CopyFreeSlot(s, t, kd, ks, n);
    if count {
      CopyLeafFrame(s, t, kd, ks, n);
      ShareKeeps(t, kd, n, Ent(s, ks, n));
    } else {
      ShadowPut(t, kd, n, Ent(s, ks, n));
    }
  }

  lemma EntryCopiedInv(s: State, t: State, kd: Key, ks: Key, n: nat, count: bool)
    requires Base(s) && Sized(t) && CopyPlace(s, kd, ks) && CopyInv(s, t, kd, ks, n)
    requires Depth(kd.path) == 3 && n < 512 && Ent(s, ks, n).p
    requires kd in t.tables && TableOk(t, kd) && (count ==> UserFrame(t, Ent(s, ks, n).frame))
    requires OneEntry(t, EntryCopied(t, kd, n, Ent(s, ks, n), count), kd, n, Ent(s, ks, n))
    ensures CopyInv(s, EntryCopied(t, kd, n, Ent(s, ks, n), count), kd, ks, n + 1)
  {
    hide Base;
    var u := EntryCopied(t, kd, n, Ent(s, ks, n), count);
    CopyLeafOutside(s, t, u, kd, n, Ent(s, ks, n));
    CopyLeafUp(s, t, u, kd, ks, n);
  }

  // ---------------------------------------------------------------- upper levels

  /** Entry `n` of the copy is still empty, and its table exists in the source. */
  lemma CopyEmptySlot(s: State, t: State, kd: Key, ks: Key, n: nat)
    requires Sized(s) && TreeInv(s) && Sized(t) && TreeInv(t)
    requires CopyPlace(s, kd, ks) && Outside(s, t, kd) && CopiedTables(s, t, kd, ks, n)
    requires Depth(kd.path) < 3 && n < Fan(kd.path) && Ent(s, ks, n).p
    ensures Child(ks, n) in s.tables && s.tables[Child(ks, n)] == Ent(s, ks, n).frame
    ensures Child(ks, n) in t.tables && t.tables[Child(ks, n)] == s.tables[Child(ks, n)]
    ensures Child(kd, n) !in t.tables && !Ent(t, kd, n).p
  {
    assert EntryOk(s, ks, n) && EntryOk(t, kd, n);
    assert Linked(s, Child(ks, n));
    assert Under(kd.path, kd.path);
    BranchUnique(kd.path, n, Sub(kd.path, n));
    assert At(kd, Sub(kd.path, n)) == Child(kd, n);
  }

  lemma CopyDownPlace(s: State, t: State, u: State, kd: Key, ks: Key, n: nat)
    requires CopyPlace(s, kd, ks) && CopyInv(s, t, kd, ks, n) && Depth(kd.path) < 3 && n < Fan(kd.path)
    requires Child(ks, n) in s.tables && Child(kd, n) !in t.tables && u.gone == {}
    requires forall k :: k in u.tables <==> k in t.tables || k == Child(kd, n)
    requires forall l, j :: l != kd ==> Ent(u, l, j) == Ent(t, l, j)
    ensures CopyPlace(u, Child(kd, n), Child(ks, n))
  {
    var c := Sub(kd.path, n);
    var kc := Child(kd, n);
    assert Depth(c) == Depth(kd.path) + 1;
    forall r | Under(c, r) && r != c ensures At(kc, r) !in u.tables {
      BranchUnique(kd.path, n, r);
      assert At(kc, r) == At(kd, r);
    }
    forall v | Depth(v) == 4 && UserPath(v) && Under(c, v) && v != c ensures Leaf(u, kc, v) == ZERO {
      BranchUnique(kd.path, n, v);
      assert Leaf(u, kc, v) == Leaf(t, kd, v);
    }
  }

  lemma CopyDownSource(s: State, t: State, u: State, kd: Key, ks: Key, n: nat)
    requires CopyPlace(s, kd, ks) && Outside(s, t, kd) && SourceOk(s, ks) && |u.kind| == |t.kind|
    requires forall l, j :: l != kd ==> Ent(u, l, j) == Ent(t, l, j)
    requires forall f: nat :: UserFrame(t, f) ==> UserFrame(u, f)
    ensures SourceOk(u, Child(ks, n))
  {
    forall v | Depth(v) == 4 && Under(Sub(ks.path, n), v) && Leaf(u, Child(ks, n), v).p
      ensures Leaf(u, Child(ks, n), v).u && UserFrame(u, Leaf(u, Child(ks, n), v).frame)
    {
      BranchUnique(ks.path, n, v);
      assert Leaf(u, Child(ks, n), v) == Leaf(s, ks, v);
      assert SameUse(s, t, Leaf(s, ks, v).frame);
    }
  }

  lemma CopyDownCount(s: State, t: State, u: State, kd: Key, ks: Key, n: nat)
    requires CopyPlace(s, kd, ks) && CopyInv(s, t, kd, ks, n) && s.nfree > |Below(s, ks)|
    requires Child(ks, n) in s.tables && u.nfree + 1 == t.nfree
    requires forall k :: k in u.tables <==> k in t.tables || k == Child(kd, n)
    ensures Below(u, Child(ks, n)) == Below(s, Child(ks, n))
    ensures u.nfree > |Below(u, Child(ks, n))|
  {
    BelowPresent(s, ks, n);
    BelowMonotone(s, ks, n + 1);
    assert Below(u, Child(ks, n)) == Below(s, Child(ks, n));
  }

  lemma CopyHasPages(s: State, t: State, kd: Key, ks: Key, n: nat)
    requires CopyInv(s, t, kd, ks, n) && s.nfree > |Below(s, ks)| && Child(ks, n) in s.tables
    ensures t.nfree >= 2
  {
    BelowPresent(s, ks, n);
    BelowMonotone(s, ks, n + 1);
  }

  lemma NewTableFrames(t: State, k: Key, n: nat)
    requires Sized(t) && FreeInv(t) && t.fl != [] && k in t.tables && t.tables[k] < t.machine.count && n < 512
    ensures var u := NewTable(t, k, n);
      && |u.kind| == |t.kind| && u.nfree + 1 == t.nfree && u.gone == t.gone
      && (forall l :: l in u.tables <==> l in t.tables || l == Child(k, n))
      && (forall l :: l in t.tables && l != Child(k, n) ==> u.tables[l] == t.tables[l])
      && (forall f: nat :: UserFrame(t, f) ==> UserFrame(u, f))
  {
    assert Listed(t, 0);
  }

  /** Everything the recursive call needs. */
  lemma CopyDown(s: State, t: State, kd: Key, ks: Key, n: nat, count: bool)
    requires Base(s) && Base(t) && CopyReady(s, kd, ks, count) && CopyInv(s, t, kd, ks, n)
    requires Depth(kd.path) < 3 && n < Fan(kd.path) && Ent(s, ks, n).p
    ensures Sized(t) && FreeInv(t) && t.nfree >= 2 && kd in t.tables && TableOk(t, kd) && Child(ks, n) in s.tables
    ensures t.fl[0] < t.machine.count
    ensures var u := NewTable(t, kd, n);
      && Base(u) && CopyReady(u, Child(kd, n), Child(ks, n), count)
      && Grown(t, u, kd) && (forall k :: k in u.tables <==> k in t.tables || k == Child(kd, n))
      && u.nfree + 1 == t.nfree && OneEntry(t, u, kd, n, FullEntry(u.tables[Child(kd, n)]))
      && Below(u, Child(ks, n)) == Below(s, Child(ks, n))
      && Child(kd, n) in u.tables && u.tables[Child(kd, n)] == t.fl[0]
      && Child(ks, n) in u.tables && u.tables[Child(ks, n)] == Ent(s, ks, n).frame
  {
    hide Base, Outside, CopiedTables, CopiedLeaves, TreeInv;
    BaseParts(s);
    BaseParts(t);
    CopySource(s, t, kd, ks, count, n, n);
    CopyEmptySlot(s, t, kd, ks, n);
    CopyHasPages(s, t, kd, ks, n);
    NewTableKeeps(t, kd, n);
    NewTableGrown(t, kd, n);
    NewTableFrames(t, kd, n);
    var u := NewTable(t, kd, n);
    CopyDownPlace(s, t, u, kd, ks, n);
    CopyDownCount(s, t, u, kd, ks, n);
    if count {
      CopyDownSource(s, t, u, kd, ks, n);
    }
  }

  lemma TablesAreUser(s: State)
    requires Base(s)
    ensures forall k :: k in s.tables ==> UserPath(k.path)
  {
    forall k | k in s.tables ensures UserPath(k.path) {
      assert TableOk(s, k);
    }
  }

  lemma CopyUpOutside(s: State, t: State, u: State, w: State, kd: Key, n: nat)
    requires Outside(s, t, kd) && Outside(t, u, kd) && Outside(u, w, Child(kd, n))
    ensures Outside(s, w, kd)
  {
    assert Under(kd.path, kd.path) && Under(kd.path, Sub(kd.path, n));
    OutsideTrans(s, t, u, kd, kd);
    OutsideTrans(s, u, w, kd, Child(kd, n));
  }

  /** And what it gives back. */
  lemma CopyUp(s: State, t: State, u: State, w: State, kd: Key, ks: Key, n: nat, count: bool)
    requires Base(s) && CopyReady(s, kd, ks, count) && CopyInv(s, t, kd, ks, n)
    requires Depth(kd.path) < 3 && n < Fan(kd.path) && Child(ks, n) in s.tables
    requires Grown(t, u, kd) && (forall k :: k in u.tables <==> k in t.tables || k == Child(kd, n))
    requires forall l, j :: l != kd ==> Ent(u, l, j) == Ent(t, l, j)
    requires Below(u, Child(ks, n)) == Below(s, Child(ks, n)) && u.nfree + 1 == t.nfree
    requires CopyInv(u, w, Child(kd, n), Child(ks, n), 512) && w.nfree + |Below(u, Child(ks, n))| == u.nfree
    ensures CopyInv(s, w, kd, ks, n + 1)
  {
    hide Base, Outside, CopiedTables, CopiedLeaves;
    TablesAreUser(s);
    CopyUpOutside(s, t, u, w, kd, n);
    CopyChildTables(s, t, u, w, kd, ks, n);
    CopyChildLeaves(s, t, u, w, kd, ks, n);
    BelowPresent(s, ks, n);
  }
}
