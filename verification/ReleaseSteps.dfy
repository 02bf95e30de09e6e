/** The single steps a teardown is made of: a reference dropped, a table page given back. */
module ReleaseSteps {
  import opened Words
  import opened Paths
  import opened PageState
  import opened TableSteps

  /** What `free_page` does to the state when it does not panic. */
  ghost function Drop(s: State, f: nat): (t: State)
    requires Sized(s) && f < s.machine.count
  {
    if s.info[f] == 1 then
      s.(fl := [f] + s.fl, head := Pointer(s.machine, f), nfree := s.nfree + 1,
         info := s.info[f := s.head], kind := s.kind[f := Free])
    else
      s.(info := s.info[f := s.info[f] - 1])
  }

  /** A page on the free list never looks like a page with references: its word is NULL or the
      address of a descriptor, and kernel addresses are negative as signed numbers. */
  lemma ListedNotPositive(s: State, f: nat)
    requires Sized(s) && FreeInv(s) && f in s.fl
    ensures f < s.machine.count && s.info[f] <= 0
  {
    var i :| 0 <= i < |s.fl| && s.fl[i] == f;
    assert Listed(s, i);
    if i + 1 < |s.fl| {
      assert Listed(s, i + 1);
      PointerFacts(s.machine, s.fl[i + 1]);
    }
  }

  lemma HeadNull(s: State)
    requires Sized(s) && FreeInv(s)
    ensures s.head == 0 <==> s.nfree == 0
  {
    if s.fl != [] {
      assert Listed(s, 0);
      PointerFacts(s.machine, s.fl[0]);
    }
  }

  lemma DropFree(s: State, f: nat)
    requires Sized(s) && FreeInv(s) && f < s.machine.count && s.info[f] > 0 && s.kind[f] != Reserved
    ensures Sized(Drop(s, f)) && FreeInv(Drop(s, f))
  {
    var t := Drop(s, f);
    if f in s.fl {
      ListedNotPositive(s, f);
    }
    assert s.kind[f] != Free;
    if s.info[f] == 1 {
      forall i | 0 <= i < |t.fl| ensures Listed(t, i) {
        assert i > 0 ==> Listed(s, i - 1);
      }
      forall g | 0 <= g < t.machine.count && t.kind[g] == Free ensures g in t.fl {
        assert g == f || g in s.fl;
      }
    } else {
      forall i | 0 <= i < |t.fl| ensures Listed(t, i) {
        assert Listed(s, i);
      }
    }
  }

  // ---------------------------------------------------------------- a reference

  /** Entry `i` of table `k` no longer counts, and its frame has lost a reference. */
  ghost function GiveBack(s: State, k: Key, i: nat): (t: State)
    requires Sized(s) && Ent(s, k, i).frame < s.machine.count
  {
    Drop(s, Ent(s, k, i).frame).(gone := s.gone + {(k, i)})
  }

  lemma SoleMember<T>(a: set<T>, x: T, y: T)
    requires |a| == 1 && x in a && y in a
    ensures x == y
  {
    assert |a - {x}| == 0;
    assert y in a - {x} || y == x;
  }

  lemma GiveBackLeaf(s: State, k: Key, i: nat)
    requires Sized(s) && LeafInv(s) && CountInv(s) && k in s.tables && Counted(k) && i < 512 && Ent(s, k, i).p
    ensures UserFrame(s, Ent(s, k, i).frame)
    ensures OneEntry(s, GiveBack(s, k, i), k, i, ZERO) && LeafInv(GiveBack(s, k, i))
  {
    var f := Ent(s, k, i).frame;
    assert UserFrame(s, f);
    var t := GiveBack(s, k, i);
    assert OneEntry(s, t, k, i, ZERO);
    forall l, j | l in t.tables && Counted(l) && j < 512 && Ent(t, l, j).p
      ensures Ent(t, l, j).u && UserFrame(t, Ent(t, l, j).frame)
    {
      assert Ent(t, l, j) == Ent(s, l, j);
      if Ent(s, l, j).frame == f && s.info[f] == 1 {
        assert (l, j) in Refs(s, f) && (k, i) in Refs(s, f);
        SoleMember(Refs(s, f), (l, j), (k, i));
      }
    }
  }

  lemma GiveBackCount(s: State, k: Key, i: nat)
    requires Sized(s) && LeafInv(s) && CountInv(s) && k in s.tables && Counted(k) && i < 512 && Ent(s, k, i).p
    requires OneEntry(s, GiveBack(s, k, i), k, i, ZERO)
    ensures Sized(GiveBack(s, k, i)) && CountInv(GiveBack(s, k, i))
    ensures s.info[Ent(s, k, i).frame] > 0
  {
    var f := Ent(s, k, i).frame;
    var t := GiveBack(s, k, i);
    PutRefs(s, t, k, i, ZERO);
    assert (k, i) in Refs(s, f);
    assert UserFrame(s, f);
    forall g: nat | UserFrame(t, g) ensures t.info[g] == |Refs(t, g)| {
      assert UserFrame(s, g);
      if g != f {
        assert (k, i) !in Refs(s, g);
        assert Refs(s, g) - {(k, i)} == Refs(s, g);
      }
    }
  }

  lemma GiveBackFree(s: State, k: Key, i: nat)
    requires Sized(s) && FreeInv(s) && HeldInv(s)
    requires UserFrame(s, Ent(s, k, i).frame) && s.info[Ent(s, k, i).frame] > 0
    ensures Sized(GiveBack(s, k, i)) && FreeInv(GiveBack(s, k, i)) && HeldInv(GiveBack(s, k, i))
  {
    var f := Ent(s, k, i).frame;
    var t := GiveBack(s, k, i);
    DropFree(s, f);
    forall j | 0 <= j < |t.fl| ensures Listed(t, j) {
      assert Listed(Drop(s, f), j);
    }
  }

  lemma GiveBackTree(s: State, k: Key, i: nat)
    requires Sized(s) && TreeInv(s) && Counted(k) && UserFrame(s, Ent(s, k, i).frame)
    requires OneEntry(s, GiveBack(s, k, i), k, i, ZERO)
    ensures Sized(GiveBack(s, k, i)) && TreeInv(GiveBack(s, k, i))
  {
    LeafPutTree(s, GiveBack(s, k, i), k, i, ZERO);
  }

  lemma GiveBackKeeps(s: State, k: Key, i: nat)
    requires Base(s) && k in s.tables && Counted(k) && i < 512 && Ent(s, k, i).p
    ensures UserFrame(s, Ent(s, k, i).frame) && s.info[Ent(s, k, i).frame] > 0
    ensures OneEntry(s, GiveBack(s, k, i), k, i, ZERO)
    ensures Base(GiveBack(s, k, i))
  {
    GiveBackLeaf(s, k, i);
    GiveBackCount(s, k, i);
    GiveBackFree(s, k, i);
    GiveBackTree(s, k, i);
  }

  // ---------------------------------------------------------------- a table page

  /** The page of table `k` is given back, and the entry that led to it no longer counts. */
  ghost function Release(s: State, k: Key): (t: State)
    requires Sized(s) && k in s.tables && s.tables[k] < s.machine.count
  {
    Drop(s, s.tables[k]).(
      tables := s.tables - {k},
      gone := (set x | x in s.gone && x.0 != k) + (if k.path.Sub? then {(Parent(k), k.path.i)} else {}))
  }

  ghost predicate Empty(s: State, k: Key)
  {
    && (forall i :: Child(k, i) !in s.tables)
    && (Counted(k) ==> forall i :: !Ent(s, k, i).p)
  }

  /** The entries after a release: those of `k` and the one that led to `k` are out of force. */
  ghost predicate ReleasedEntries(s: State, t: State, k: Key)
  {
    forall l, j :: Ent(t, l, j) ==
      if l == k || (k.path.Sub? && l == Parent(k) && j == k.path.i) then ZERO else Ent(s, l, j)
  }

  lemma ReleaseEntries(s: State, k: Key)
    requires Sized(s) && TreeInv(s) && k in s.tables
    ensures TableOk(s, k) && ReleasedEntries(s, Release(s, k), k)
  {
    assert TableOk(s, k);
    var t := Release(s, k);
    forall l, j ensures Ent(t, l, j) ==
      if l == k || (k.path.Sub? && l == Parent(k) && j == k.path.i) then ZERO else Ent(s, l, j)
    {
      if l != k && j < 512 {
        assert (l, j) in t.gone <==> (l, j) in s.gone || (k.path.Sub? && l == Parent(k) && j == k.path.i);
      }
    }
  }

  lemma ReleaseTree(s: State, k: Key)
    requires Sized(s) && TreeInv(s) && k in s.tables && Empty(s, k)
    ensures TableOk(s, k) && Sized(Release(s, k)) && TreeInv(Release(s, k))
  {
    ReleaseEntries(s, k);
    var t := Release(s, k);
    forall l | l in t.tables ensures TableOk(t, l) {
      assert TableOk(s, l);
    }
    forall l | l in t.tables && l.path.Sub? ensures Linked(t, l) {
      assert Linked(s, l);
      assert Parent(l) != k by {
        assert Child(Parent(l), l.path.i) == l;
      }
    }
    forall l, j | l in t.tables && Depth(l.path) < 3 && 0 <= j < Fan(l.path) ensures EntryOk(t, l, j) {
      assert EntryOk(s, l, j);
      if Ent(t, l, j).p && Child(l, j) == k {
        assert false;
      }
    }
  }

  lemma ReleaseCounts(s: State, k: Key)
    requires Sized(s) && TreeInv(s) && LeafInv(s) && CountInv(s) && k in s.tables && Empty(s, k)
    ensures TableOk(s, k)
    ensures var t := Release(s, k); Sized(t) && LeafInv(t) && CountInv(t)
  {
    ReleaseEntries(s, k);
    var t := Release(s, k);
    assert k.path.Sub? ==> !Counted(Parent(k));
    forall g ensures Refs(t, g) == Refs(s, g) {
    }
    assert forall g: nat :: UserFrame(t, g) <==> UserFrame(s, g);
  }

  lemma ReleaseKeeps(s: State, k: Key)
    requires Base(s) && k in s.tables && Empty(s, k)
    ensures TableOk(s, k) && Base(Release(s, k)) && ReleasedEntries(s, Release(s, k), k)
  {
    ReleaseEntries(s, k);
    ReleaseTree(s, k);
    ReleaseCounts(s, k);
    var f := s.tables[k];
    var t := Release(s, k);
    DropFree(s, f);
    forall j | 0 <= j < |t.fl| ensures Listed(t, j) {
      assert Listed(Drop(s, f), j);
    }
  }
}
