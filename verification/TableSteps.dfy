/** The single steps every table operation is made of, as functions on the state, and the proof
    that each keeps the free list, the trees and the reference counts. */
module TableSteps {
  import opened Words
  import opened Paths
  import opened PageState

  /** Entry `i` of table `k` overwritten. */
  ghost function Put(s: State, k: Key, i: nat, w: Word): (t: State)
    requires Sized(s) && k in s.tables && s.tables[k] < s.machine.count && i < 512
  {
    s.(mem := s.mem[s.tables[k] := s.mem[s.tables[k]][i := w]])
  }

  /** `t` has the entries of `s` except for `w` at entry `i` of `k`. */
  ghost predicate OneEntry(s: State, t: State, k: Key, i: nat, w: Word)
  {
    forall l, j :: Ent(t, l, j) == if l == k && j == i then w else Ent(s, l, j)
  }

  lemma PutEntries(s: State, k: Key, i: nat, w: Word)
    requires Sized(s) && TreeInv(s) && k in s.tables && i < 512 && (k, i) !in s.gone
    ensures Sized(Put(s, k, i, w))
    ensures OneEntry(s, Put(s, k, i, w), k, i, w)
  {
    assert TableOk(s, k);
    var t := Put(s, k, i, w);
    forall l, j ensures Ent(t, l, j) == if l == k && j == i then w else Ent(s, l, j) {
      if l in s.tables && l != k {
        assert TableOk(s, l);
      }
    }
  }

  /** What a new set of entries does to the references of each frame. */
  lemma PutRefs(s: State, t: State, k: Key, i: nat, w: Word)
    requires t.tables == s.tables && k in s.tables && i < 512
    requires OneEntry(s, t, k, i, w)
    ensures forall g :: Refs(t, g) == RefsAfter(s, g, k, i, w)
  {
    forall g ensures Refs(t, g) == RefsAfter(s, g, k, i, w) {
    }
  }

  ghost function RefsAfter(s: State, g: nat, k: Key, i: nat, w: Word): (r: set<(Key, nat)>)
  {
    if Counted(k) && w.p && w.frame == g then Refs(s, g) + {(k, i)} else Refs(s, g) - {(k, i)}
  }

  /** Writing a last-level entry leaves the trees alone. */
  lemma LeafPutTree(s: State, t: State, k: Key, i: nat, w: Word)
    requires Sized(s) && Sized(t) && TreeInv(s) && Depth(k.path) == 3
    requires t.tables == s.tables && t.machine == s.machine && OneEntry(s, t, k, i, w)
    requires forall f :: 0 <= f < s.machine.count && s.kind[f] != t.kind[f] ==> !s.kind[f].TablePage? && !t.kind[f].TablePage?
    requires forall f :: 0 <= f < s.machine.count && s.kind[f].TablePage? ==> t.info[f] == s.info[f]
    ensures TreeInv(t)
  {
    forall l | l in t.tables ensures TableOk(t, l) {
      assert TableOk(s, l);
    }
    forall l | l in t.tables && l.path.Sub? ensures Linked(t, l) {
      assert Linked(s, l) && TableOk(s, l);
    }
    forall l, j | l in t.tables && Depth(l.path) < 3 && 0 <= j < Fan(l.path) ensures EntryOk(t, l, j) {
      assert EntryOk(s, l, j);
    }
  }

  // ---------------------------------------------------------------- a new table

  /** Page `f`, just allocated and zeroed, becomes the table below entry `i` of `k`. */
  ghost function AddTable(s: State, k: Key, i: nat, f: nat): (t: State)
    requires Sized(s) && k in s.tables && s.tables[k] < s.machine.count && i < 512 && f < s.machine.count
  {
    Put(s, k, i, FullEntry(f)).(tables := s.tables[Child(k, i) := f], kind := s.kind[f := TablePage(Child(k, i))])
  }

  ghost predicate CanAddTable(s: State, k: Key, i: nat, f: nat)
    requires Sized(s)
  {
    && s.gone == {}
    && k in s.tables && Depth(k.path) < 3 && i < Fan(k.path) && !Ent(s, k, i).p
    && f < s.machine.count && s.kind[f] == Held && s.mem[f] == ZeroPage()
  }

  lemma AddTableEntries(s: State, k: Key, i: nat, f: nat)
    requires Sized(s) && TreeInv(s) && CanAddTable(s, k, i, f)
    ensures TableOk(s, k)
    ensures OneEntry(s, AddTable(s, k, i, f), k, i, FullEntry(f))
    ensures Child(k, i) !in s.tables
  {
    var c := Child(k, i);
    assert TableOk(s, k);
    var t := AddTable(s, k, i, f);
    assert c in s.tables ==> Linked(s, c);
    forall l, j ensures Ent(t, l, j) == if l == k && j == i then FullEntry(f) else Ent(s, l, j) {
      if l in s.tables && l != k {
        assert TableOk(s, l);
      }
    }
  }

  lemma AddTableTree(s: State, k: Key, i: nat, f: nat)
    requires Sized(s) && TreeInv(s) && HeldInv(s) && CanAddTable(s, k, i, f)
    ensures TableOk(s, k) && Sized(AddTable(s, k, i, f)) && TreeInv(AddTable(s, k, i, f))
  {
    AddTableEntries(s, k, i, f);
    var t := AddTable(s, k, i, f);
    var c := Child(k, i);
    forall l | l in t.tables ensures TableOk(t, l) {
      assert l != c ==> TableOk(s, l);
    }
    forall l | l in t.tables && l.path.Sub? ensures Linked(t, l) {
      if l != c {
        assert Linked(s, l) && TableOk(s, l);
        assert Ent(s, Parent(l), l.path.i).p;
      }
    }
    forall l, j | l in t.tables && Depth(l.path) < 3 && 0 <= j < Fan(l.path) ensures EntryOk(t, l, j) {
      assert l != c ==> EntryOk(s, l, j);
    }
  }

  lemma AddTableCounts(s: State, k: Key, i: nat, f: nat)
    requires Sized(s) && TreeInv(s) && CanAddTable(s, k, i, f) && LeafInv(s) && CountInv(s)
    ensures TableOk(s, k)
    ensures var t := AddTable(s, k, i, f); Sized(t) && LeafInv(t) && CountInv(t)
  {
    AddTableEntries(s, k, i, f);
    var t := AddTable(s, k, i, f);
    assert !Counted(k);
    assert forall j :: !Ent(t, Child(k, i), j).p;
    forall g ensures Refs(t, g) == Refs(s, g) {
    }
    assert forall g: nat :: UserFrame(t, g) <==> UserFrame(s, g);
  }

  lemma AddTableFree(s: State, k: Key, i: nat, f: nat)
    requires Sized(s) && FreeInv(s) && CanAddTable(s, k, i, f) && s.tables[k] < s.machine.count
    ensures var t := AddTable(s, k, i, f); Sized(t) && FreeInv(t)
  {
    var t := AddTable(s, k, i, f);
    forall j | 0 <= j < |t.fl| ensures Listed(t, j) {
      assert Listed(s, j);
    }
  }

  lemma AddTableKeeps(s: State, k: Key, i: nat, f: nat)
    requires Base(s) && CanAddTable(s, k, i, f)
    ensures TableOk(s, k) && Base(AddTable(s, k, i, f))
    ensures OneEntry(s, AddTable(s, k, i, f), k, i, FullEntry(f))
    ensures Child(k, i) !in s.tables
  {
    AddTableEntries(s, k, i, f);
    AddTableTree(s, k, i, f);
    AddTableCounts(s, k, i, f);
    AddTableFree(s, k, i, f);
  }

  // ---------------------------------------------------------------- last-level entries

  ghost predicate LeafAt(s: State, k: Key, i: nat)
  {
    s.gone == {} && k in s.tables && Depth(k.path) == 3 && i < 512
  }

  /** The pages of the tables and of the list are as in `s`. */
  ghost predicate SameOwners(s: State, t: State)
    requires Sized(s) && Sized(t)
  {
    && t.machine == s.machine
    && t.fl == s.fl && t.head == s.head && t.nfree == s.nfree
    && forall f :: 0 <= f < s.machine.count ==>
         && (s.kind[f] != t.kind[f] ==> s.kind[f] == Held && t.kind[f] == User)
         && (!s.kind[f].User? ==> t.info[f] == s.info[f])
  }

  lemma FreeSame(s: State, t: State)
    requires Sized(s) && Sized(t) && FreeInv(s) && HeldInv(s) && SameOwners(s, t)
    ensures FreeInv(t) && HeldInv(t)
  {
    forall j | 0 <= j < |t.fl| ensures Listed(t, j) {
      assert Listed(s, j);
    }
  }

  lemma LeafPut(s: State, t: State, k: Key, i: nat, w: Word)
    requires Sized(s) && Sized(t) && LeafInv(s) && SameOwners(s, t)
    requires t.tables == s.tables && OneEntry(s, t, k, i, w)
    requires Counted(k) && w.p ==> w.u && UserFrame(t, w.frame)
    ensures LeafInv(t)
  {
    assert forall g: nat :: UserFrame(s, g) ==> UserFrame(t, g);
  }

  /** An entry of a p_pgtbl is written: nothing is counted. */
  lemma ShadowPut(s: State, k: Key, i: nat, w: Word)
    requires Base(s) && LeafAt(s, k, i) && k.shadow
    ensures TableOk(s, k) && Base(Put(s, k, i, w))
    ensures OneEntry(s, Put(s, k, i, w), k, i, w)
  {
    assert TableOk(s, k);
    var t := Put(s, k, i, w);
    PutEntries(s, k, i, w);
    FreeSame(s, t);
    LeafPutTree(s, t, k, i, w);
    LeafPut(s, t, k, i, w);
    ShadowCount(s, t, k, i, w);
  }

  lemma ShadowCount(s: State, t: State, k: Key, i: nat, w: Word)
    requires Sized(s) && Sized(t) && CountInv(s) && t.kind == s.kind && t.info == s.info
    requires t.tables == s.tables && OneEntry(s, t, k, i, w) && k in s.tables && i < 512 && k.shadow
    ensures CountInv(t)
  {
    PutRefs(s, t, k, i, w);
    assert forall g :: Refs(t, g) == Refs(s, g);
    assert forall g: nat :: UserFrame(t, g) <==> UserFrame(s, g);
  }

  /** What must hold of the counts when a counted entry changes. */
  lemma CountedPut(s: State, t: State, k: Key, i: nat, w: Word)
    requires Base(s) && LeafAt(s, k, i) && !k.shadow
    requires Sized(t) && SameOwners(s, t) && t.tables == s.tables && OneEntry(s, t, k, i, w)
    requires w.p ==> w.u && UserFrame(t, w.frame)
    requires forall g: nat :: UserFrame(t, g) ==> t.info[g] == |RefsAfter(s, g, k, i, w)|
    ensures Base(t)
  {
    FreeSame(s, t);
    LeafPutTree(s, t, k, i, w);
    LeafPut(s, t, k, i, w);
    assert CountInv(t) by {
      PutRefs(s, t, k, i, w);
    }
  }

  lemma NoRefs(s: State, f: nat)
    requires LeafInv(s) && !UserFrame(s, f)
    ensures Refs(s, f) == {}
  {
  }

  /** An empty entry takes the page just allocated. */
  ghost function MapHeld(s: State, k: Key, i: nat, w: Word): (t: State)
    requires Sized(s) && k in s.tables && s.tables[k] < s.machine.count && i < 512 && w.frame < s.machine.count
  {
    Put(s, k, i, w).(kind := s.kind[w.frame := User])
  }

  lemma MapHeldEntries(s: State, k: Key, i: nat, w: Word)
    requires Sized(s) && TreeInv(s) && LeafAt(s, k, i) && w.frame < s.machine.count
    ensures TableOk(s, k) && OneEntry(s, MapHeld(s, k, i, w), k, i, w)
  {
    PutEntries(s, k, i, w);
    assert TableOk(s, k);
    assert forall l, j :: Ent(MapHeld(s, k, i, w), l, j) == Ent(Put(s, k, i, w), l, j);
  }

  lemma MapHeldCounts(s: State, k: Key, i: nat, w: Word, g: nat)
    requires Sized(s) && LeafInv(s) && CountInv(s) && HeldInv(s) && LeafAt(s, k, i) && !k.shadow && !Ent(s, k, i).p
    requires w.p && w.frame < s.machine.count && s.kind[w.frame] == Held && s.tables[k] < s.machine.count
    requires UserFrame(MapHeld(s, k, i, w), g)
    ensures MapHeld(s, k, i, w).info[g] == |RefsAfter(s, g, k, i, w)|
  {
    assert (k, i) !in Refs(s, g);
    if g == w.frame {
      NoRefs(s, g);
    } else {
      assert UserFrame(s, g);
      assert Refs(s, g) - {(k, i)} == Refs(s, g);
    }
  }

  lemma MapHeldKeeps(s: State, k: Key, i: nat, w: Word)
    requires Base(s) && LeafAt(s, k, i) && !k.shadow && !Ent(s, k, i).p
    requires w.p && w.u && w.frame < s.machine.count && s.kind[w.frame] == Held
    ensures TableOk(s, k) && Base(MapHeld(s, k, i, w))
    ensures OneEntry(s, MapHeld(s, k, i, w), k, i, w)
  {
    MapHeldEntries(s, k, i, w);
    var t := MapHeld(s, k, i, w);
    forall g: nat | UserFrame(t, g) ensures t.info[g] == |RefsAfter(s, g, k, i, w)| {
      MapHeldCounts(s, k, i, w, g);
    }
    CountedPut(s, t, k, i, w);
  }

  /** An empty entry takes a frame that is already mapped elsewhere: one more reference. */
  ghost function Share(s: State, k: Key, i: nat, w: Word): (t: State)
    requires Sized(s) && k in s.tables && s.tables[k] < s.machine.count && i < 512 && w.frame < s.machine.count
  {
    Put(s, k, i, w).(info := s.info[w.frame := s.info[w.frame] + 1])
  }

  lemma ShareEntries(s: State, k: Key, i: nat, w: Word)
    requires Sized(s) && TreeInv(s) && LeafAt(s, k, i) && w.frame < s.machine.count
    ensures TableOk(s, k) && OneEntry(s, Share(s, k, i, w), k, i, w)
  {
    PutEntries(s, k, i, w);
    assert TableOk(s, k);
    assert forall l, j :: Ent(Share(s, k, i, w), l, j) == Ent(Put(s, k, i, w), l, j);
  }

  lemma ShareCounts(s: State, k: Key, i: nat, w: Word, g: nat)
    requires Sized(s) && CountInv(s) && LeafAt(s, k, i) && !k.shadow && !Ent(s, k, i).p
    requires w.p && UserFrame(s, w.frame) && s.tables[k] < s.machine.count && UserFrame(s, g)
    ensures Share(s, k, i, w).info[g] == |RefsAfter(s, g, k, i, w)|
  {
    assert (k, i) !in Refs(s, g);
    assert Refs(s, g) - {(k, i)} == Refs(s, g);
  }

  lemma ShareKeeps(s: State, k: Key, i: nat, w: Word)
    requires Base(s) && LeafAt(s, k, i) && !k.shadow && !Ent(s, k, i).p
    requires w.p && w.u && UserFrame(s, w.frame)
    ensures TableOk(s, k) && Base(Share(s, k, i, w))
    ensures OneEntry(s, Share(s, k, i, w), k, i, w)
  {
    ShareEntries(s, k, i, w);
    var t := Share(s, k, i, w);
    forall g: nat | UserFrame(t, g) ensures t.info[g] == |RefsAfter(s, g, k, i, w)| {
      ShareCounts(s, k, i, w, g);
    }
    CountedPut(s, t, k, i, w);
  }

  /** A present entry leaves its frame for the page just allocated. */
  ghost function Split(s: State, k: Key, i: nat, w: Word): (t: State)
    requires Sized(s) && k in s.tables && s.tables[k] < s.machine.count && i < 512 && w.frame < s.machine.count
    requires Ent(s, k, i).frame < s.machine.count
  {
    var f := Ent(s, k, i).frame;
    MapHeld(s, k, i, w).(info := s.info[f := s.info[f] - 1])
  }

  lemma SplitEntries(s: State, k: Key, i: nat, w: Word)
    requires Sized(s) && TreeInv(s) && LeafAt(s, k, i) && w.frame < s.machine.count && Ent(s, k, i).frame < s.machine.count
    ensures TableOk(s, k) && OneEntry(s, Split(s, k, i, w), k, i, w)
  {
    PutEntries(s, k, i, w);
    assert TableOk(s, k);
    assert forall l, j :: Ent(Split(s, k, i, w), l, j) == Ent(Put(s, k, i, w), l, j);
  }

  lemma SplitCounts(s: State, k: Key, i: nat, w: Word, g: nat)
    requires Sized(s) && LeafInv(s) && CountInv(s) && HeldInv(s) && LeafAt(s, k, i) && !k.shadow && Ent(s, k, i).p
    requires w.p && w.frame < s.machine.count && s.kind[w.frame] == Held && s.tables[k] < s.machine.count
    requires Ent(s, k, i).frame < s.machine.count && UserFrame(Split(s, k, i, w), g)
    ensures Split(s, k, i, w).info[g] == |RefsAfter(s, g, k, i, w)|
  {
    var f := Ent(s, k, i).frame;
    assert UserFrame(s, f);
    if g == w.frame {
      NoRefs(s, g);
    } else if g == f {
      assert (k, i) in Refs(s, g);
    } else {
      assert (k, i) !in Refs(s, g);
      assert UserFrame(s, g);
      assert Refs(s, g) - {(k, i)} == Refs(s, g);
    }
  }

  lemma SplitKeeps(s: State, k: Key, i: nat, w: Word)
    requires Base(s) && LeafAt(s, k, i) && !k.shadow && Ent(s, k, i).p
    requires w.p && w.u && w.frame < s.machine.count && s.kind[w.frame] == Held
    ensures TableOk(s, k) && UserFrame(s, Ent(s, k, i).frame) && Base(Split(s, k, i, w))
    ensures OneEntry(s, Split(s, k, i, w), k, i, w)
  {
    assert UserFrame(s, Ent(s, k, i).frame);
    SplitEntries(s, k, i, w);
    var t := Split(s, k, i, w);
    forall g: nat | UserFrame(t, g) ensures t.info[g] == |RefsAfter(s, g, k, i, w)| {
      SplitCounts(s, k, i, w, g);
    }
    CountedPut(s, t, k, i, w);
  }

  /** A present entry keeps its frame and changes its flags. */
  lemma ReflagKeeps(s: State, k: Key, i: nat, w: Word)
    requires Base(s) && LeafAt(s, k, i) && !k.shadow && Ent(s, k, i).p
    requires w.p && w.u && w.frame == Ent(s, k, i).frame
    ensures TableOk(s, k) && Base(Put(s, k, i, w))
    ensures OneEntry(s, Put(s, k, i, w), k, i, w)
  {
    assert TableOk(s, k);
    var t := Put(s, k, i, w);
    PutEntries(s, k, i, w);
    forall g ensures RefsAfter(s, g, k, i, w) == Refs(s, g) {
      assert g != w.frame ==> (k, i) !in Refs(s, g);
      assert g == w.frame ==> (k, i) in Refs(s, g);
    }
    assert forall g: nat :: UserFrame(t, g) <==> UserFrame(s, g);
    CountedPut(s, t, k, i, w);
  }
}
