/** Clearing the write flag in a whole tree (`pgtbl_clearflags` with PTE_W). */
module ClearLoop {
  import opened Words
  import opened Paths
  import opened PageState
  import opened TableSteps
  import opened CopySteps

  function NoWrite(e: Word): (r: Word)
  {
    if e.p then e.(w := false) else e
  }

  /** Only memory changed, and only pages that hold tables. */
  ghost predicate OnlyTables(s: State, t: State)
  {
    && t == s.(mem := t.mem) && |t.mem| == |s.mem| == |s.kind|
    && forall f :: 0 <= f < |s.mem| && !s.kind[f].TablePage? ==> t.mem[f] == s.mem[f]
  }

  /** Entry `j` of `l` is a last-level entry below one of the first `n` entries of `k`. */
  ghost predicate Reached(k: Key, n: nat, l: Key, j: nat)
  {
    Depth(l.path) == 3 && InSubtree(k, l) && Sub(l.path, j) != k.path && Branch(k.path, Sub(l.path, j)) < n
  }

  /** The write flag is gone from the entries reached, and every other entry is as before. */
  ghost predicate Cleared(s: State, t: State, k: Key, n: nat)
  {
    && OnlyTables(s, t)
    && forall l, j :: Ent(t, l, j) == if Reached(k, n, l, j) then NoWrite(Ent(s, l, j)) else Ent(s, l, j)
  }

  lemma ClearStart(s: State, k: Key)
    requires Base(s)
    ensures Cleared(s, s, k, 0)
  {
  }

  /** The entry is not present: there is nothing below to clear. */
  lemma ClearSkip(s: State, t: State, k: Key, n: nat)
    requires Base(s) && Cleared(s, t, k, n) && !Ent(s, k, n).p
    ensures Cleared(s, t, k, n + 1)
  {
    hide Base, TreeInv;
    BaseParts(s);
    forall l, j ensures Ent(t, l, j) == if Reached(k, n + 1, l, j) then NoWrite(Ent(s, l, j)) else Ent(s, l, j) {
      if Reached(k, n + 1, l, j) && !Reached(k, n, l, j) && l != k {
        assert Under(Sub(k.path, n), l.path);
        NothingBelow(s, k, n, l.path);
        assert At(k, l.path) == l;
      }
    }
  }

  lemma ClearEntryOnly(s: State, t: State, k: Key, n: nat)
    requires Base(t) && OnlyTables(s, t) && LeafAt(t, k, n)
    ensures TableOk(t, k) && OnlyTables(s, Put(t, k, n, NoWrite(Ent(t, k, n))))
  {
    assert TableOk(t, k);
  }

  /** A last-level entry is cleared. */
  lemma ClearEntry(s: State, t: State, k: Key, n: nat)
    requires Base(t) && Cleared(s, t, k, n) && !k.shadow && LeafAt(t, k, n) && Ent(t, k, n).p
    ensures TableOk(t, k) && Base(Put(t, k, n, NoWrite(Ent(t, k, n))))
    ensures Cleared(s, Put(t, k, n, NoWrite(Ent(t, k, n))), k, n + 1)
  {
    hide Base;
    ClearLeafOk(t, k, n);
    ReflagKeeps(t, k, n, NoWrite(Ent(t, k, n)));
    ClearEntryOnly(s, t, k, n);
    ClearEntryRest(s, t, Put(t, k, n, NoWrite(Ent(t, k, n))), k, n);
  }

  lemma ClearLeafOk(t: State, k: Key, n: nat)
    requires Base(t) && LeafAt(t, k, n) && !k.shadow && Ent(t, k, n).p
    ensures Sized(t) && TableOk(t, k) && Ent(t, k, n).u
  {
  }

  lemma ClearEntryRest(s: State, t: State, u: State, k: Key, n: nat)
    requires Cleared(s, t, k, n) && Depth(k.path) == 3 && OneEntry(t, u, k, n, NoWrite(Ent(t, k, n))) && OnlyTables(s, u)
    ensures Cleared(s, u, k, n + 1)
  {
    forall l, j ensures Ent(u, l, j) == if Reached(k, n + 1, l, j) then NoWrite(Ent(s, l, j)) else Ent(s, l, j) {
      if Depth(l.path) == 3 && InSubtree(k, l) {
        UnderDepth(k.path, l.path);
        assert l == k;
        assert Branch(k.path, Sub(k.path, j)) == j by {
          assert Depth(Sub(k.path, j)) == 4;
        }
      }
    }
  }

  /** The subtree below entry `n` is cleared. */
  lemma ClearUp(s: State, t: State, u: State, k: Key, n: nat)
    requires Cleared(s, t, k, n) && Cleared(t, u, Child(k, n), 512) && Depth(k.path) < 3
    requires forall l, j :: 512 <= j ==> Ent(s, l, j) == ZERO
    requires forall l :: l in s.tables ==> UserPath(l.path)
    ensures Cleared(s, u, k, n + 1)
  {
    var c := Child(k, n);
    forall l, j ensures Ent(u, l, j) == if Reached(k, n + 1, l, j) then NoWrite(Ent(s, l, j)) else Ent(s, l, j) {
      if Depth(l.path) == 3 && InSubtree(k, l) {
        var v := Sub(l.path, j);
        assert l.path != k.path;
        assert Branch(k.path, v) == Branch(k.path, l.path) by {
          UnderDepth(k.path, l.path);
        }
        if Branch(k.path, v) == n {
          assert InSubtree(c, l);
          if l in s.tables && j < 512 {
            assert UserPath(v);
            UnderDepth(c.path, l.path);
          }
        } else {
          assert !InSubtree(c, l) by {
            if InSubtree(c, l) {
              BranchUnique(k.path, n, l.path);
            }
          }
        }
      } else if InSubtree(c, l) {
        BranchUnique(k.path, n, l.path);
      }
    }
  }

  lemma ClearReads(s: State, t: State, k: Key, n: nat, i: nat)
    requires Base(s) && Base(t) && s.gone == {} && k in s.tables && Cleared(s, t, k, n) && n <= i < 512
    ensures t.gone == {} && k in t.tables && t.tables[k] == s.tables[k]
    ensures Sized(t) && TableOk(t, k)
    ensures Ent(s, k, i) == Ent(t, k, i) == t.mem[t.tables[k]][i]
    ensures forall l, j :: 512 <= j ==> Ent(s, l, j) == ZERO
    ensures forall l :: l in s.tables ==> UserPath(l.path)
  {
    hide Base;
    BaseTable(t, k);
    forall l | l in s.tables ensures UserPath(l.path) {
      BaseTable(s, l);
    }
    if Depth(k.path) == 3 {
      assert Branch(k.path, Sub(k.path, i)) == i by {
        assert Under(k.path, k.path);
        BranchUnique(k.path, i, Sub(k.path, i));
      }
    }
  }

  lemma ClearDown(t: State, k: Key, n: nat)
    requires Base(t) && t.gone == {} && k in t.tables && Depth(k.path) < 3 && n < Fan(k.path) && Ent(t, k, n).p
    ensures Child(k, n) in t.tables && t.tables[Child(k, n)] == Ent(t, k, n).frame
  {
    assert EntryOk(t, k, n);
    assert Linked(t, Child(k, n));
  }
}
