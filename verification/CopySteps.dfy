/** What copying a tree of tables means, entry by entry, and how the loop of `copy_pgtbl`
    gets there one entry of one table at a time. */
module CopySteps {
  import opened Words
  import opened Paths
  import opened PageState
  import opened TableSteps

  /** The translation of page `v` in the tree of `k`: its last-level entry, zero if the walk does
      not reach one. */
  ghost function Leaf(s: State, k: Key, v: Path): (e: Word)
  {
    if v.Sub? then Ent(s, At(k, v.up), v.i) else ZERO
  }

  /** The table at `q` in the tree of `k`. */
  function At(k: Key, q: Path): (r: Key)
  {
    Key(k.owner, k.shadow, q)
  }

  function Present(e: Word): (r: Word)
  {
    if e.p then e else ZERO
  }

  predicate InSubtree(top: Key, k: Key)
  {
    k.owner == top.owner && k.shadow == top.shadow && Under(top.path, k.path)
  }

  /** Nothing hangs below an entry that is not present. */
  lemma {:induction false} NothingBelow(s: State, k: Key, i: nat, r: Path)
    requires Sized(s) && TreeInv(s) && !Ent(s, k, i).p && Under(Sub(k.path, i), r)
    ensures At(k, r) !in s.tables
    decreases r
  {
    if At(k, r) in s.tables {
      assert Linked(s, At(k, r));
      if r != Sub(k.path, i) {
        NothingBelow(s, k, i, r.up);
      }
    }
  }

  /** Everything outside the subtree of `kd` is as before, except that free pages may have
      become tables of that subtree. */
  ghost predicate Outside(s: State, t: State, kd: Key)
  {
    && t.machine == s.machine && t.gone == s.gone
    && |t.kind| == |s.kind| == |s.mem| == |t.mem|
    && (forall k :: k in s.tables ==> k in t.tables && t.tables[k] == s.tables[k])
    && (forall k :: k in t.tables && k !in s.tables ==> InSubtree(kd, k) && k != kd)
    && (forall k, j :: !InSubtree(kd, k) ==> Ent(t, k, j) == Ent(s, k, j))
    && (forall f :: 0 <= f < |s.kind| ==> SameUse(s, t, f))
  }

  ghost predicate SameUse(s: State, t: State, f: nat)
    requires f < |t.kind| == |s.kind| == |s.mem| == |t.mem|
  {
    && (s.kind[f] == Free ==> t.kind[f] == Free || t.kind[f].TablePage?)
    && (s.kind[f] != Free ==> t.kind[f] == s.kind[f])
    && (s.kind[f] != Free && !s.kind[f].TablePage? ==> t.mem[f] == s.mem[f])
  }

  /** Tables were added below `kd`; no translation of any page in any tree changed, and neither did
      the kernel's half of any level-4 table. */
  ghost predicate Grown(s: State, t: State, kd: Key)
  {
    && Outside(s, t, kd)
    && (forall k: Key, i :: Depth(k.path) == 3 || Fan(k.path) <= i ==> Ent(t, k, i) == Ent(s, k, i))
  }

  lemma OutsideTrans(s: State, t: State, u: State, kd: Key, kc: Key)
    requires Outside(s, t, kd) && Outside(t, u, kc) && InSubtree(kd, kc)
    ensures Outside(s, u, kd)
  {
    forall k | k in u.tables && k !in s.tables ensures InSubtree(kd, k) && k != kd {
      if k !in t.tables {
        UnderTrans(kd.path, kc.path, k.path);
        if k == kd {
          UnderDepth(kd.path, kc.path);
          UnderDepth(kc.path, kd.path);
        }
      }
    }
    forall k, j | !InSubtree(kd, k) ensures Ent(u, k, j) == Ent(s, k, j) {
      if InSubtree(kc, k) {
        UnderTrans(kd.path, kc.path, k.path);
      }
    }
    forall f | 0 <= f < |s.kind| ensures SameUse(s, u, f) {
      assert SameUse(s, t, f) && SameUse(t, u, f);
    }
  }

  /** The tables below `kd` in `t` mirror those below `ks` in `s`, for the first `n` entries. */
  ghost predicate CopiedTables(s: State, t: State, kd: Key, ks: Key, n: nat)
  {
    forall r :: Under(kd.path, r) && r != kd.path ==>
      (At(kd, r) in t.tables <==> Branch(kd.path, r) < n && At(ks, r) in s.tables)
  }

  /** And so do the translations of all pages below. */
  ghost predicate CopiedLeaves(s: State, t: State, kd: Key, ks: Key, n: nat)
  {
    forall v :: Depth(v) == 4 && UserPath(v) && Under(kd.path, v) && v != kd.path ==>
      Leaf(t, kd, v) == if Branch(kd.path, v) < n then Present(Leaf(s, ks, v)) else ZERO
  }

  ghost predicate Copied(s: State, t: State, kd: Key, ks: Key, n: nat)
  {
    kd.path == ks.path && CopiedTables(s, t, kd, ks, n) && CopiedLeaves(s, t, kd, ks, n)
  }

  /** The entry is not present in the source: nothing to do, and rightly so. */
  lemma CopyAbsent(s: State, t: State, kd: Key, ks: Key, n: nat)
    requires Sized(s) && TreeInv(s) && Copied(s, t, kd, ks, n)
    requires !Ent(s, ks, n).p
    ensures Copied(s, t, kd, ks, n + 1)
  {
    var q := kd.path;
    forall r | Under(q, r) && r != q
      ensures At(kd, r) in t.tables <==> Branch(q, r) < n + 1 && At(ks, r) in s.tables
    {
      if Branch(q, r) == n {
        NothingBelow(s, ks, n, r);
      }
    }
    forall v | Depth(v) == 4 && UserPath(v) && Under(q, v) && v != q
      ensures Leaf(t, kd, v) == if Branch(q, v) < n + 1 then Present(Leaf(s, ks, v)) else ZERO
    {
      if Branch(q, v) == n && v != Sub(q, n) {
        NothingBelow(s, ks, n, v.up);
      }
    }
  }

  /** A last-level entry is copied. */
  lemma CopyLeafEntry(s: State, t: State, u: State, kd: Key, ks: Key, n: nat)
    requires Sized(s) && TreeInv(s)
    requires Copied(s, t, kd, ks, n) && Depth(kd.path) == 3 && Ent(s, ks, n).p
    requires u.tables == t.tables && OneEntry(t, u, kd, n, Ent(s, ks, n))
    ensures Copied(s, u, kd, ks, n + 1)
  {
    var q := kd.path;
    forall k | k in s.tables ensures Depth(k.path) <= 3 {
      assert TableOk(s, k);
    }
    forall r | Under(q, r) && r != q
      ensures At(kd, r) in u.tables <==> Branch(q, r) < n + 1 && At(ks, r) in s.tables
    {
      UnderDepth(q, r);
    }
    forall v | Depth(v) == 4 && UserPath(v) && Under(q, v) && v != q
      ensures Leaf(u, kd, v) == if Branch(q, v) < n + 1 then Present(Leaf(s, ks, v)) else ZERO
    {
      UnderDepth(Sub(q, Branch(q, v)), v);
    }
  }

  /** The subtree below entry `n` is copied: a fresh table `kc` is hung there and filled. */
  lemma CopyChildTables(s: State, t: State, t2: State, u: State, kd: Key, ks: Key, n: nat)
    requires Copied(s, t, kd, ks, n) && Child(ks, n) in s.tables
    requires Outside(s, t, kd) && !InSubtree(kd, At(ks, kd.path))
    requires forall k :: k in t2.tables <==> k in t.tables || k == Child(kd, n)
    requires Outside(t2, u, Child(kd, n)) && CopiedTables(t2, u, Child(kd, n), Child(ks, n), 512)
    requires forall k :: k in s.tables ==> UserPath(k.path)
    ensures CopiedTables(s, u, kd, ks, n + 1)
  {
    var q := kd.path;
    var c := Sub(q, n);
    forall r | Under(q, r) && r != q
      ensures At(kd, r) in u.tables <==> Branch(q, r) < n + 1 && At(ks, r) in s.tables
    {
      if Branch(q, r) == n {
        assert At(ks, r) in t2.tables <==> At(ks, r) in s.tables;
        if r != c {
          assert At(ks, r) in s.tables ==> UserPath(r);
        }
      } else {
        assert !Under(c, r) by {
          if Under(c, r) {
            BranchUnique(q, n, r);
          }
        }
        assert At(kd, r) in u.tables <==> At(kd, r) in t.tables;
      }
    }
  }

  lemma CopyChildLeaves(s: State, t: State, t2: State, u: State, kd: Key, ks: Key, n: nat)
    requires Copied(s, t, kd, ks, n) && Child(ks, n) in s.tables && Depth(kd.path) < 3
    requires Outside(s, t, kd) && !InSubtree(kd, At(ks, kd.path))
    requires forall l, j :: l != kd ==> Ent(t2, l, j) == Ent(t, l, j)
    requires Outside(t2, u, Child(kd, n)) && CopiedLeaves(t2, u, Child(kd, n), Child(ks, n), 512)
    ensures CopiedLeaves(s, u, kd, ks, n + 1)
  {
    var q := kd.path;
    var c := Sub(q, n);
    forall v | Depth(v) == 4 && UserPath(v) && Under(q, v) && v != q
      ensures Leaf(u, kd, v) == if Branch(q, v) < n + 1 then Present(Leaf(s, ks, v)) else ZERO
    {
      assert v.up != q;
      assert Leaf(t2, ks, v) == Leaf(s, ks, v);
      if Branch(q, v) == n {
        assert v != c;
      } else {
        assert !Under(c, v.up) by {
          if Under(c, v.up) {
            BranchUnique(q, n, v);
          }
        }
        assert Leaf(u, kd, v) == Leaf(t2, kd, v) == Leaf(t, kd, v);
      }
    }
  }

  // ---------------------------------------------------------------- how many tables

  ghost function Below(s: State, k: Key): (r: set<Key>)
  {
    set l | l in s.tables && InSubtree(k, l) && l != k
  }

  ghost function BelowUpTo(s: State, k: Key, n: nat): (r: set<Key>)
  {
    set l | l in s.tables && InSubtree(k, l) && l != k && Branch(k.path, l.path) < n
  }

  lemma BelowAll(s: State, k: Key)
    requires Sized(s) && TreeInv(s)
    ensures BelowUpTo(s, k, Fan(k.path)) == Below(s, k)
    ensures BelowUpTo(s, k, 0) == {}
  {
    forall l | l in s.tables ensures UserPath(l.path) {
      assert TableOk(s, l);
    }
  }

  lemma BelowAbsent(s: State, k: Key, n: nat)
    requires Sized(s) && TreeInv(s) && !Ent(s, k, n).p
    ensures BelowUpTo(s, k, n + 1) == BelowUpTo(s, k, n)
  {
    forall l | l in BelowUpTo(s, k, n + 1) ensures Branch(k.path, l.path) < n {
      assert At(k, l.path) == l;
      if Branch(k.path, l.path) == n {
        NothingBelow(s, k, n, l.path);
      }
    }
  }

  lemma BelowPresent(s: State, k: Key, n: nat)
    requires Child(k, n) in s.tables
    ensures |BelowUpTo(s, k, n + 1)| == |BelowUpTo(s, k, n)| + 1 + |Below(s, Child(k, n))|
  {
    var c := Child(k, n);
    forall l | l in {c} + Below(s, c) ensures l in BelowUpTo(s, k, n + 1) && l !in BelowUpTo(s, k, n) {
      BranchUnique(k.path, n, l.path);
    }
    assert BelowUpTo(s, k, n + 1) == BelowUpTo(s, k, n) + ({c} + Below(s, c));
  }

  lemma BelowOutside(s: State, t: State, kd: Key, ks: Key)
    requires Outside(s, t, kd) && !(ks.owner == kd.owner && ks.shadow == kd.shadow)
    ensures Below(t, ks) == Below(s, ks)
  {
  }

  lemma BelowMonotone(s: State, k: Key, n: nat)
    ensures |BelowUpTo(s, k, n)| <= |Below(s, k)|
  {
    assert Below(s, k) == BelowUpTo(s, k, n) + (Below(s, k) - BelowUpTo(s, k, n));
  }
}
