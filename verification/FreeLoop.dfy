/** Taking a tree of tables apart (`free_pgtbl`). Nothing in memory is erased: entries and tables
    only stop being in force, and their pages go back to the free list. */
module FreeLoop {
  import opened Words
  import opened Paths
  import opened PageState
  import opened TableSteps
  import opened ReleaseSteps
  import opened CopySteps

  /** A table strictly below one of the first `n` entries of `k`. */
  ghost predicate Behind(k: Key, n: nat, l: Key)
  {
    InSubtree(k, l) && l != k && Branch(k.path, l.path) < n
  }

  /** Pages only became free, and only user frames and tables of the subtree did. */
  ghost predicate Freeing(s: State, t: State, k: Key)
  {
    && t.machine == s.machine && t.mem == s.mem && |t.kind| == |s.kind| && t.nfree >= s.nfree
    && (forall f :: 0 <= f < |s.kind| && t.kind[f] != s.kind[f] ==>
          t.kind[f] == Free && (s.kind[f] == User || (s.kind[f].TablePage? && InSubtree(k, s.kind[f].key))))
    && (forall f: nat :: IsLost(t, f) <==> IsLost(s, f))
  }

  /** A user frame that nothing maps and that is not on the free list. */
  ghost predicate IsLost(s: State, f: nat)
  {
    UserFrame(s, f) && f < |s.info| && s.info[f] <= 0
  }

  /** After `n` entries of `k`. */
  ghost predicate FreedTables(s: State, t: State, k: Key, n: nat)
  {
    && (forall l :: l in t.tables <==> l in s.tables && !Behind(k, n, l))
    && (forall l :: l in t.tables ==> t.tables[l] == s.tables[l])
    && (forall x :: x in t.gone ==> x in s.gone || (x.0 == k && x.1 < n))
  }

  ghost predicate FreedEntries(s: State, t: State, k: Key, n: nat)
  {
    forall l, j: nat :: Ent(t, l, j) ==
      if Behind(k, n, l) || (l == k && j < n && Ent(s, k, j).p && (Depth(k.path) < 3 || !k.shadow))
      then ZERO else Ent(s, l, j)
  }

  ghost predicate Freed(s: State, t: State, k: Key, n: nat)
  {
    Freeing(s, t, k) && FreedTables(s, t, k, n) && FreedEntries(s, t, k, n)
  }

  /** The whole subtree is gone, `k` included. */
  ghost predicate FreedAll(s: State, t: State, k: Key)
  {
    && Freeing(s, t, k)
    && (forall l :: l in t.tables <==> l in s.tables && !InSubtree(k, l))
    && (forall l :: l in t.tables ==> t.tables[l] == s.tables[l])
    && (forall x :: x in t.gone ==> x in s.gone || (k.path.Sub? && x == (Parent(k), k.path.i)))
    && GoneEntries(s, t, k)
  }

  ghost predicate GoneEntries(s: State, t: State, k: Key)
  {
    forall l, j: nat :: Ent(t, l, j) ==
      if InSubtree(k, l) || (k.path.Sub? && l == Parent(k) && j == k.path.i) then ZERO else Ent(s, l, j)
  }

  /** `k` is a table none of whose subtree has been given back yet. */
  ghost predicate FreeReady(s: State, k: Key)
  {
    k in s.tables && forall x :: x in s.gone ==> !InSubtree(k, x.0)
  }

  lemma FreeStart(s: State, k: Key)
    requires Base(s)
    ensures Freed(s, s, k, 0)
  {
  }

  /** Entries not yet visited are read from memory as they are. */
  lemma FreeReads(s: State, t: State, k: Key, n: nat, i: nat)
    requires Base(t) && FreeReady(s, k) && Freed(s, t, k, n) && n <= i < 512
    ensures Sized(t) && k in t.tables && TableOk(t, k) && t.tables[k] == s.tables[k]
    ensures (k, i) !in t.gone && Ent(t, k, i) == t.mem[t.tables[k]][i] == Ent(s, k, i)
  {
    hide Base;
    assert InSubtree(k, k);
    BaseTable(t, k);
  }

  lemma FreeSkip(s: State, t: State, k: Key, n: nat)
    requires Base(s) && Freed(s, t, k, n) && !Ent(s, k, n).p
    ensures Freed(s, t, k, n + 1)
  {
    hide Base, TreeInv;
    BaseParts(s);
    forall l | Behind(k, n + 1, l) && !Behind(k, n, l) ensures l !in s.tables {
      NothingBelow(s, k, n, l.path);
      assert At(k, l.path) == l;
    }
  }

  lemma NothingBelowLeaf(s: State, k: Key)
    requires Base(s) && Depth(k.path) == 3
    ensures forall l :: l in s.tables && InSubtree(k, l) ==> l == k
  {
    forall l | l in s.tables && InSubtree(k, l) ensures l == k {
      UnderDepth(k.path, l.path);
      assert TableOk(s, l);
    }
  }

  /** A shadow tree holds no references: its last-level entries are passed over. */
  lemma FreePass(s: State, t: State, k: Key, n: nat)
    requires Base(s) && Freed(s, t, k, n) && Depth(k.path) == 3 && k.shadow
    ensures Freed(s, t, k, n + 1)
  {
    hide Base;
    NothingBelowLeaf(s, k);
  }

  /** A reference is dropped. */
  lemma FreeEntry(s: State, t: State, k: Key, n: nat)
    requires Base(s) && Base(t) && FreeReady(s, k) && Freed(s, t, k, n)
    requires Depth(k.path) == 3 && !k.shadow && n < 512 && Ent(t, k, n).p
    ensures Sized(t) && k in t.tables && UserFrame(t, Ent(t, k, n).frame) && t.info[Ent(t, k, n).frame] > 0
    ensures Base(GiveBack(t, k, n)) && Freed(s, GiveBack(t, k, n), k, n + 1)
  {
    hide Base, Freed;
    FreeEntryIn(s, t, k, n);
    GiveBackKeeps(t, k, n);
    FreeEntryRest(s, t, k, n);
  }

  lemma FreeEntryIn(s: State, t: State, k: Key, n: nat)
    requires Base(t) && FreeReady(s, k) && Freed(s, t, k, n) && n < 512
    ensures Sized(t) && k in t.tables
  {
    FreeReads(s, t, k, n, n);
  }

  lemma FreeEntryRest(s: State, t: State, k: Key, n: nat)
    requires Base(s) && FreeReady(s, k) && Freed(s, t, k, n) && Depth(k.path) == 3 && !k.shadow && Ent(t, k, n).p
    requires Sized(t) && UserFrame(t, Ent(t, k, n).frame) && OneEntry(t, GiveBack(t, k, n), k, n, ZERO)
    ensures Freed(s, GiveBack(t, k, n), k, n + 1)
  {
    hide Base;
    NothingBelowLeaf(s, k);
    var u := GiveBack(t, k, n);
    assert forall l :: l in s.tables ==> (Behind(k, n + 1, l) <==> Behind(k, n, l));
    assert FreedTables(s, u, k, n + 1);
    forall l, j: nat ensures Ent(u, l, j) ==
      if Behind(k, n + 1, l) || (l == k && j < n + 1 && Ent(s, k, j).p && (Depth(k.path) < 3 || !k.shadow))
      then ZERO else Ent(s, l, j)
    {
    }
  }

  // ---------------------------------------------------------------- upper levels

  lemma FreeDown(s: State, t: State, k: Key, n: nat)
    requires Base(t) && FreeReady(s, k) && Freed(s, t, k, n) && Depth(k.path) < 3 && n < Fan(k.path) && Ent(t, k, n).p
    ensures FreeReady(t, Child(k, n)) && t.tables[Child(k, n)] == Ent(t, k, n).frame
  {
    FreeReads(s, t, k, n, n);
    assert EntryOk(t, k, n) && Linked(t, Child(k, n));
    forall x | x in t.gone ensures !InSubtree(Child(k, n), x.0) {
      if InSubtree(Child(k, n), x.0) {
        BranchUnique(k.path, n, x.0.path);
      }
    }
  }

  lemma BehindNext(k: Key, n: nat, l: Key)
    ensures Behind(k, n + 1, l) <==> Behind(k, n, l) || InSubtree(Child(k, n), l)
    ensures !(Behind(k, n, l) && InSubtree(Child(k, n), l))
    ensures InSubtree(Child(k, n), l) ==> l != k
  {
    if InSubtree(Child(k, n), l) {
      BranchUnique(k.path, n, l.path);
    }
  }

  lemma FreeUp(s: State, t: State, u: State, k: Key, n: nat)
    requires Freed(s, t, k, n) && FreedAll(t, u, Child(k, n)) && Depth(k.path) < 3
    requires Ent(s, k, n).p
    ensures Freed(s, u, k, n + 1)
  {
    forall l ensures Behind(k, n + 1, l) <==> Behind(k, n, l) || InSubtree(Child(k, n), l) {
      BehindNext(k, n, l);
    }
    FreeUpKinds(s, t, u, k, n);
    FreeUpEntries(s, t, u, k, n);
  }

  lemma FreeUpKinds(s: State, t: State, u: State, k: Key, n: nat)
    requires Freeing(s, t, k) && Freeing(t, u, Child(k, n))
    ensures Freeing(s, u, k)
  {
    forall f | 0 <= f < |s.kind| && u.kind[f] != s.kind[f]
      ensures u.kind[f] == Free && (s.kind[f] == User || (s.kind[f].TablePage? && InSubtree(k, s.kind[f].key)))
    {
      if t.kind[f] == s.kind[f] && s.kind[f].TablePage? {
        BehindNext(k, n, s.kind[f].key);
      }
    }
  }

  lemma FreeUpEntries(s: State, t: State, u: State, k: Key, n: nat)
    requires FreedEntries(s, t, k, n) && FreedAll(t, u, Child(k, n)) && Depth(k.path) < 3 && Ent(s, k, n).p
    ensures FreedEntries(s, u, k, n + 1)
  {
    forall l, j: nat ensures Ent(u, l, j) ==
      if Behind(k, n + 1, l) || (l == k && j < n + 1 && Ent(s, k, j).p && (Depth(k.path) < 3 || !k.shadow))
      then ZERO else Ent(s, l, j)
    {
      BehindNext(k, n, l);
    }
  }

  // ---------------------------------------------------------------- the table itself

  lemma FreedEmpty(s: State, t: State, k: Key)
    requires Base(s) && Freed(s, t, k, Fan(k.path)) && k in s.tables
    ensures Empty(t, k)
  {
    forall i ensures Child(k, i) !in t.tables {
      if Child(k, i) in s.tables {
        assert TableOk(s, Child(k, i));
        assert UserPath(Sub(k.path, i));
        BehindNext(k, i, Child(k, i));
        assert Under(Sub(k.path, i), Sub(k.path, i));
        BranchUnique(k.path, i, Sub(k.path, i));
      }
    }
    if Counted(k) {
      assert k.path.Sub?;
    }
  }

  lemma FreeTable(s: State, t: State, k: Key)
    requires Base(s) && Base(t) && FreeReady(s, k) && Freed(s, t, k, Fan(k.path))
    ensures Sized(t) && k in t.tables && TableOk(t, k) && t.tables[k] == s.tables[k]
    ensures Base(Release(t, k)) && FreedAll(s, Release(t, k), k)
  {
    hide Base, TreeInv;
    BaseParts(s);
    BaseTable(t, k);
    FreedEmpty(s, t, k);
    ReleaseKeeps(t, k);
    FreeTableTables(s, t, k);
    FreeTableEntries(s, t, k);
  }

  lemma FreeTableTables(s: State, t: State, k: Key)
    requires Base(s) && Sized(t) && k in t.tables && TableOk(t, k) && Freed(s, t, k, Fan(k.path)) && FreeReady(s, k)
    ensures var u := Release(t, k);
      && Freeing(s, u, k)
      && (forall l :: l in u.tables <==> l in s.tables && !InSubtree(k, l))
      && (forall l :: l in u.tables ==> u.tables[l] == s.tables[l])
      && (forall x :: x in u.gone ==> x in s.gone || (k.path.Sub? && x == (Parent(k), k.path.i)))
  {
    hide Base;
    forall l | l in s.tables && InSubtree(k, l) && l != k ensures Behind(k, Fan(k.path), l) {
      BaseTable(s, l);
    }
    assert InSubtree(k, k);
  }

  lemma FreeTableEntries(s: State, t: State, k: Key)
    requires Base(s) && Sized(t) && k in t.tables && TableOk(t, k) && FreedEntries(s, t, k, Fan(k.path))
    requires ReleasedEntries(t, Release(t, k), k)
    ensures GoneEntries(s, Release(t, k), k)
  {
    hide Base;
    forall l, j: nat ensures Ent(Release(t, k), l, j) ==
      if InSubtree(k, l) || (k.path.Sub? && l == Parent(k) && j == k.path.i) then ZERO else Ent(s, l, j)
    {
      if InSubtree(k, l) && l != k && l in s.tables {
        BaseTable(s, l);
      }
      assert InSubtree(k, k);
    }
  }
}
