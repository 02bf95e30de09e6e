/** Building the free list at boot, new trees, and the kernel's half of a level-4 table. */
module Boot {
  import opened Words
  import opened Paths
  import opened PageState
  import opened CopySteps
  import opened CopyLoop

  // ---------------------------------------------------------------- init_freepages

  function Last(fl: seq<nat>): (r: int)
  {
    if fl == [] then -1 else fl[|fl| - 1]
  }

  /** The list of the usable pages below `n`, its last link still to be written. */
  ghost predicate Building(s: State, n: nat)
  {
    && Sized(s) && n <= s.machine.count
    && s.nfree == |s.fl|
    && s.head == LinkTo(s.machine, s.fl, 0)
    && (forall i :: 0 <= i < |s.fl| ==> s.fl[i] < n && s.kind[s.fl[i]] == Free)
    && (forall i, j :: 0 <= i < j < |s.fl| ==> s.fl[i] < s.fl[j])
    && (forall i :: 0 <= i < |s.fl| - 1 ==> s.info[s.fl[i]] == Pointer(s.machine, s.fl[i + 1]))
    && (forall f :: 0 <= f < s.machine.count ==> BuiltUpTo(s, f, n))
  }

  ghost predicate BuiltUpTo(s: State, f: nat, n: nat)
    requires Sized(s) && f < s.machine.count
  {
    if f < n && Usable(s.machine, f) then s.kind[f] == Free && f in s.fl else s.kind[f] == Reserved
  }

  /** One page of the loop. */
  ghost function Build(s: State, n: nat): (t: State)
    requires Building(s, n) && n < s.machine.count
  {
    if !Usable(s.machine, n) then s.(info := s.info[n := 0])
    else
      s.(fl := s.fl + [n], nfree := s.nfree + 1, kind := s.kind[n := Free],
         head := if s.fl == [] then Pointer(s.machine, n) else s.head,
         info := if s.fl == [] then s.info else s.info[Last(s.fl) := Pointer(s.machine, n)])
  }

  lemma BuildStart(s: State)
    requires Sized(s) && s.fl == [] && s.nfree == 0 && s.head == 0
    requires forall f :: 0 <= f < |s.kind| ==> s.kind[f] == Reserved
    ensures Building(s, 0)
  {
  }

  lemma BuildBounds(s: State, n: nat)
    requires Building(s, n)
    ensures Sized(s) && Last(s.fl) < s.machine.count
  {
  }

  lemma BuildStep(s: State, n: nat)
    requires Building(s, n) && n < s.machine.count
    ensures Building(Build(s, n), n + 1)
  {
    var t := Build(s, n);
    var m := n + 1;
    forall f | 0 <= f < t.machine.count ensures BuiltUpTo(t, f, m) {
      assert BuiltUpTo(s, f, n);
      if Usable(s.machine, n) && f == n {
        assert t.fl[|s.fl|] == n;
      }
    }
  }

  lemma BuildDone(s: State)
    requires Building(s, s.machine.count) && s.tables == map[] && s.gone == {}
    requires exists f: nat :: Usable(s.machine, f)
    ensures s.fl != [] && 0 <= Last(s.fl) < s.machine.count
    ensures Base(s.(info := s.info[Last(s.fl) := 0])) && Held !in s.kind
    ensures forall f: nat :: f in s.fl <==> Usable(s.machine, f)
  {
    var g: nat :| Usable(s.machine, g);
    assert BuiltUpTo(s, g, s.machine.count);
    forall f | 0 <= f < s.machine.count
      ensures s.kind[f] == (if Usable(s.machine, f) then Free else Reserved) && (Usable(s.machine, f) ==> f in s.fl)
    {
      assert BuiltUpTo(s, f, s.machine.count);
    }
    forall f | f in s.fl ensures Usable(s.machine, f) {
      assert s.kind[f] == Free;
    }
    BuildFree(s);
  }

  lemma BuildFree(s: State)
    requires Building(s, s.machine.count) && s.fl != [] && 0 <= Last(s.fl) < s.machine.count
    requires forall f :: 0 <= f < s.machine.count ==>
      s.kind[f] == (if Usable(s.machine, f) then Free else Reserved) && (Usable(s.machine, f) ==> f in s.fl)
    requires forall f :: f in s.fl ==> Usable(s.machine, f)
    ensures var t := s.(info := s.info[Last(s.fl) := 0]); Sized(t) && FreeInv(t)
  {
    var t := s.(info := s.info[Last(s.fl) := 0]);
    forall i | 0 <= i < |t.fl| ensures Listed(t, i) {
    }
  }

  // ---------------------------------------------------------------- a new tree

  ghost function AddRoot(s: State, k: Key): (t: State)
    requires Sized(s) && FreeInv(s) && s.fl != []
  {
    assert Listed(s, 0);
    var p := Pop(s, true);
    p.(tables := p.tables[k := s.fl[0]], kind := p.kind[s.fl[0] := TablePage(k)])
  }

  lemma RootEntries(s: State, k: Key)
    requires Sized(s) && FreeInv(s) && TreeInv(s) && s.gone == {} && s.fl != [] && k !in s.tables
    ensures forall l, j :: Ent(AddRoot(s, k), l, j) == Ent(s, l, j)
  {
    assert Listed(s, 0);
    forall l, j ensures Ent(AddRoot(s, k), l, j) == Ent(s, l, j) {
      if l in s.tables {
        assert TableOk(s, l);
      }
    }
  }

  lemma RootTree(s: State, k: Key)
    requires Sized(s) && FreeInv(s) && TreeInv(s) && s.gone == {} && s.fl != [] && k.path == Top && k !in s.tables
    ensures Sized(AddRoot(s, k)) && TreeInv(AddRoot(s, k))
  {
    RootSized(s, k);
    var t := AddRoot(s, k);
    forall l | l in t.tables ensures TableOk(t, l) {
      RootTableOk(s, k, l);
    }
    forall l | l in t.tables && l.path.Sub? ensures Linked(t, l) {
      RootLinked(s, k, l);
    }
    forall l, j | l in t.tables && Depth(l.path) < 3 && 0 <= j < Fan(l.path) ensures EntryOk(t, l, j) {
      RootEntryOk(s, k, l, j);
    }
    forall f | 0 <= f < t.machine.count && t.kind[f].TablePage? ensures t.kind[f].key in t.tables && t.tables[t.kind[f].key] == f {
      RootKind(s, k, f);
    }
  }

  lemma RootKind(s: State, k: Key, f: nat)
    requires Sized(s) && FreeInv(s) && TreeInv(s) && s.gone == {} && s.fl != [] && k.path == Top && k !in s.tables
    requires Sized(AddRoot(s, k)) && f < s.machine.count && AddRoot(s, k).kind[f].TablePage?
    ensures var t := AddRoot(s, k); t.kind[f].key in t.tables && t.tables[t.kind[f].key] == f
  {
    assert Listed(s, 0);
  }

  lemma RootSized(s: State, k: Key)
    requires Sized(s) && FreeInv(s) && s.gone == {} && s.fl != [] && k.path == Top && k !in s.tables
    ensures Sized(AddRoot(s, k))
  {
    assert Listed(s, 0);
  }

  lemma RootTableOk(s: State, k: Key, l: Key)
    requires Sized(s) && FreeInv(s) && TreeInv(s) && s.gone == {} && s.fl != [] && k.path == Top && k !in s.tables
    requires Sized(AddRoot(s, k)) && l in AddRoot(s, k).tables
    ensures TableOk(AddRoot(s, k), l)
  {
    assert Listed(s, 0);
    assert l != k ==> TableOk(s, l);
  }

  lemma RootLinked(s: State, k: Key, l: Key)
    requires Sized(s) && FreeInv(s) && TreeInv(s) && s.gone == {} && s.fl != [] && k.path == Top && k !in s.tables
    requires Sized(AddRoot(s, k)) && l in AddRoot(s, k).tables && l.path.Sub?
    ensures Linked(AddRoot(s, k), l)
  {
    RootEntries(s, k);
    assert Linked(s, l);
  }

  lemma RootEntryOk(s: State, k: Key, l: Key, j: nat)
    requires Sized(s) && FreeInv(s) && TreeInv(s) && s.gone == {} && s.fl != [] && k.path == Top && k !in s.tables
    requires Sized(AddRoot(s, k)) && l in AddRoot(s, k).tables && Depth(l.path) < 3 && j < Fan(l.path)
    ensures EntryOk(AddRoot(s, k), l, j)
  {
    RootEntries(s, k);
    assert l != k ==> EntryOk(s, l, j);
  }

  lemma RootRest(s: State, k: Key)
    requires Base(s) && s.gone == {} && s.fl != [] && k.path == Top && k !in s.tables
    ensures var t := AddRoot(s, k); Sized(t) && LeafInv(t) && CountInv(t) && FreeInv(t) && HeldInv(t)
  {
    assert Listed(s, 0);
    RootEntries(s, k);
    PopFreeInv(s, true);
    var t := AddRoot(s, k);
    forall g ensures Refs(t, g) == Refs(s, g) {
    }
    assert forall g: nat :: UserFrame(t, g) <==> UserFrame(s, g);
    forall i | 0 <= i < |t.fl| ensures Listed(t, i) {
      assert Listed(Pop(s, true), i);
    }
  }

  lemma RootKeeps(s: State, k: Key)
    requires Base(s) && s.gone == {} && s.nfree >= 2 && k.path == Top && k !in s.tables
    ensures s.fl != [] && s.fl[0] < s.machine.count && s.kind[s.fl[0]] == Free
    ensures Base(AddRoot(s, k)) && forall l, j :: Ent(AddRoot(s, k), l, j) == Ent(s, l, j)
  {
    assert Listed(s, 0);
    RootEntries(s, k);
    RootTree(s, k);
    RootRest(s, k);
  }

  // ---------------------------------------------------------------- the kernel's half

  lemma CopyBounds(s: State, t: State, kd: Key, ks: Key, count: bool)
    requires Base(s) && Base(t) && CopyReady(s, kd, ks, count) && CopyInv(s, t, kd, ks, 256)
    ensures kd in s.tables && ks in s.tables && s.tables[kd] != s.tables[ks]
    ensures kd in t.tables && t.tables[kd] == s.tables[kd]
    ensures s.tables[kd] < |t.mem| && s.tables[ks] < |s.mem| == |t.mem| && t.mem[s.tables[ks]] == s.mem[s.tables[ks]]
  {
    hide Base;
    BaseTable(s, kd);
    BaseTable(s, ks);
    BaseTable(t, kd);
    forall j | 0 <= j < 512 ensures t.mem[s.tables[ks]][j] == s.mem[s.tables[ks]][j] {
      assert Ent(t, ks, j) == Ent(s, ks, j);
    }
  }

  /** The upper half of the level-4 table `k` replaced. */
  ghost function Half(t: State, k: Key, pg: Page): (u: State)
    requires k in t.tables && t.tables[k] < |t.mem|
  {
    t.(mem := t.mem[t.tables[k] := pg])
  }

  lemma HalfEntries(t: State, k: Key, pg: Page)
    requires Sized(t) && TreeInv(t) && k in t.tables && t.tables[k] < |t.mem| && pg[..256] == t.mem[t.tables[k]][..256]
    ensures forall l, j :: l != k || j < 256 ==> Ent(Half(t, k, pg), l, j) == Ent(t, l, j)
  {
    forall l, j: nat | l != k || j < 256 ensures Ent(Half(t, k, pg), l, j) == Ent(t, l, j) {
      if l in t.tables && l != k {
        assert TableOk(t, l) && TableOk(t, k);
      }
      if l == k {
        assert pg[j] == pg[..256][j] && t.mem[t.tables[k]][j] == t.mem[t.tables[k]][..256][j];
      }
    }
  }

  lemma HalfTree(t: State, k: Key, pg: Page)
    requires Sized(t) && TreeInv(t) && k in t.tables && k.path == Top && t.tables[k] < |t.mem| && pg[..256] == t.mem[t.tables[k]][..256]
    ensures Sized(Half(t, k, pg)) && TreeInv(Half(t, k, pg))
  {
    HalfEntries(t, k, pg);
    var u := Half(t, k, pg);
    forall l | l in u.tables ensures TableOk(u, l) {
      assert TableOk(t, l);
    }
    forall l | l in u.tables && l.path.Sub? ensures Linked(u, l) {
      assert Linked(t, l) && TableOk(t, l);
    }
    forall l, j | l in u.tables && Depth(l.path) < 3 && 0 <= j < Fan(l.path) ensures EntryOk(u, l, j) {
      assert EntryOk(t, l, j);
    }
  }

  lemma HalfKeeps(t: State, k: Key, pg: Page)
    requires Base(t) && k in t.tables && k.path == Top && t.tables[k] < |t.mem| && pg[..256] == t.mem[t.tables[k]][..256]
    ensures Base(Half(t, k, pg))
  {
    hide TreeInv;
    HalfEntries(t, k, pg);
    HalfTree(t, k, pg);
    var u := Half(t, k, pg);
    assert !Counted(k);
    forall g ensures Refs(u, g) == Refs(t, g) {
    }
    assert forall g: nat :: UserFrame(u, g) <==> UserFrame(t, g);
    forall i | 0 <= i < |u.fl| ensures Listed(u, i) {
      assert Listed(t, i);
    }
  }

  lemma HalfCopyInv(s: State, t: State, u: State, kd: Key, ks: Key)
    requires CopyInv(s, t, kd, ks, 256) && kd.path == Top && kd in t.tables && t.tables[kd] < |t.mem| == |t.kind|
    requires t.kind[t.tables[kd]].TablePage? && u == t.(mem := u.mem) && |u.mem| == |t.mem|
    requires forall g :: 0 <= g < |t.mem| && g != t.tables[kd] ==> u.mem[g] == t.mem[g]
    requires forall l, j :: l != kd || j < 256 ==> Ent(u, l, j) == Ent(t, l, j)
    ensures CopyInv(s, u, kd, ks, 256)
  {
    assert Outside(s, u, kd) by {
      forall f | 0 <= f < |s.kind| ensures SameUse(s, u, f) {
        assert SameUse(s, t, f);
      }
      assert InSubtree(kd, kd);
    }
    forall v | Depth(v) == 4 ensures Leaf(u, kd, v) == Leaf(t, kd, v) {
      assert Depth(v.up) == 3;
    }
  }

  lemma KernelHalfKeeps(s: State, t: State, pg: Page, kd: Key, ks: Key)
    requires Base(t) && CopyInv(s, t, kd, ks, 256) && kd.path == Top
    requires kd in t.tables && t.tables[kd] < |t.mem| && pg[..256] == t.mem[t.tables[kd]][..256]
    ensures Base(Half(t, kd, pg)) && CopyInv(s, Half(t, kd, pg), kd, ks, 256)
  {
    hide Base, TreeInv, CopyInv;
    BaseParts(t);
    BaseTable(t, kd);
    HalfKeeps(t, kd, pg);
    HalfEntries(t, kd, pg);
    HalfCopyInv(s, t, Half(t, kd, pg), kd, ks);
  }
}
