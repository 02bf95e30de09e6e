/** What walking down a tree of tables does, with and without making the missing tables. */
module WalkSteps {
  import opened Words
  import opened Paths
  import opened PageState
  import opened TableSteps
  import opened CopySteps

  /** walk_pgtbl: a table, -EFAULT, or -ENOMEM. */
  datatype Walked = Found(table: nat) | Unmapped | NoMemory

  /** A page is taken from the list, zeroed and hung below entry `i` of `k`. */
  ghost function NewTable(s: State, k: Key, i: nat): (t: State)
    requires Sized(s) && FreeInv(s) && s.fl != [] && k in s.tables && s.tables[k] < s.machine.count && i < 512
  {
    assert Listed(s, 0);
    AddTable(Pop(s, true), k, i, s.fl[0])
  }

  lemma NewTableKeeps(s: State, k: Key, i: nat)
    requires Base(s) && s.gone == {} && s.fl != []
    requires k in s.tables && Depth(k.path) < 3 && i < Fan(k.path) && !Ent(s, k, i).p
    ensures TableOk(s, k) && Base(NewTable(s, k, i))
    ensures s.fl[0] < s.machine.count && s.kind[s.fl[0]] == Free && OneEntry(s, NewTable(s, k, i), k, i, FullEntry(s.fl[0]))
    ensures Child(k, i) !in s.tables
  {
    assert TableOk(s, k) && Listed(s, 0);
    PopKeeps(s, true);
    SameEntries(s, Pop(s, true));
    AddTableKeeps(Pop(s, true), k, i, s.fl[0]);
  }

  lemma NewTableGrown(s: State, k: Key, i: nat)
    requires Sized(s) && FreeInv(s) && s.fl != [] && k in s.tables && TableOk(s, k)
    requires s.fl[0] < s.machine.count && s.kind[s.fl[0]] == Free && Child(k, i) !in s.tables
    requires Depth(k.path) < 3 && i < Fan(k.path) && OneEntry(s, NewTable(s, k, i), k, i, FullEntry(s.fl[0]))
    ensures Grown(s, NewTable(s, k, i), k)
  {
    var t := NewTable(s, k, i);
    assert InSubtree(k, k);
    assert Under(k.path, Sub(k.path, i));
    assert k != Child(k, i) by {
      assert Depth(k.path) != Depth(Child(k, i).path);
    }
    forall g | 0 <= g < |s.kind| ensures SameUse(s, t, g) {
    }
  }

  /** One level of a walk. */
  ghost function Step(s: State, k: Key, i: nat, create: bool): (r: (State, Walked))
    requires Sized(s) && FreeInv(s) && k in s.tables && s.tables[k] < s.machine.count && i < 512
  {
    if Child(k, i) in s.tables then (s, Found(s.tables[Child(k, i)]))
    else if !create then (s, Unmapped)
    else if s.nfree == 0 then (s, NoMemory)
    else (NewTable(s, k, i), Found(s.fl[0]))
  }

  lemma GrownSame(s: State, k: Key)
    requires Sized(s)
    ensures Grown(s, s, k)
  {
  }

  lemma StepKeeps(s: State, k: Key, i: nat, create: bool)
    requires Base(s) && s.gone == {} && k in s.tables && Depth(k.path) < 3 && i < Fan(k.path)
    ensures TableOk(s, k)
    ensures var t := Step(s, k, i, create).0; Base(t) && t.gone == {} && Grown(s, t, k)
  {
    assert TableOk(s, k) && EntryOk(s, k, i);
    GrownSame(s, k);
    if Child(k, i) !in s.tables && create && s.nfree != 0 {
      NewTableKeeps(s, k, i);
      NewTableGrown(s, k, i);
    }
  }

  lemma StepGrown(s: State, t: State, root: Key, q: Path, create: bool)
    requires Grown(s, t, root) && root.path == Top && q.Sub? && Depth(q) <= 3 && q.i < 512
    requires Sized(t) && FreeInv(t) && At(root, q.up) in t.tables && TableOk(t, At(root, q.up))
    requires Grown(t, Step(t, At(root, q.up), q.i, create).0, At(root, q.up))
    ensures Grown(s, Step(t, At(root, q.up), q.i, create).0, root)
  {
    UnderTop(q.up);
    OutsideTrans(s, t, Step(t, At(root, q.up), q.i, create).0, root, At(root, q.up));
  }

  lemma StepFound(t: State, k: Key, i: nat, create: bool)
    requires Sized(t) && FreeInv(t) && k in t.tables && TableOk(t, k) && i < 512
    ensures var (u, w) := Step(t, k, i, create);
      w.Found? ==> Child(k, i) in u.tables && w.table == u.tables[Child(k, i)]
  {
  }

  lemma StepOnward(s: State, t: State, root: Key, q: Path, create: bool)
    requires Base(t) && t.gone == {} && Grown(s, t, root) && root.path == Top
    requires q.Sub? && UserPath(q) && Depth(q) <= 3 && At(root, q.up) in t.tables
    ensures TableOk(t, At(root, q.up))
    ensures var (u, w) := Step(t, At(root, q.up), q.i, create);
      && Base(u) && u.gone == {} && Grown(s, u, root)
      && (w.Found? ==> At(root, q) in u.tables && w.table == u.tables[At(root, q)])
  {
    StepKeeps(t, At(root, q.up), q.i, create);
    StepGrown(s, t, root, q, create);
    StepFound(t, At(root, q.up), q.i, create);
  }

  /** A walk from the top of the tree of `root` to the table at `q`. */
  ghost function WalkTo(s: State, root: Key, q: Path, create: bool): (r: (State, Walked))
    requires Base(s) && s.gone == {} && root.path == Top && root in s.tables && UserPath(q) && Depth(q) <= 3
    ensures Base(r.0) && r.0.gone == {} && Grown(s, r.0, root)
    ensures r.1.Found? ==> At(root, q) in r.0.tables && r.1.table == r.0.tables[At(root, q)]
    decreases q
  {
    GrownSame(s, root);
    if q.Top? then (s, Found(s.tables[root]))
    else
      var (t, w) := WalkTo(s, root, q.up, create);
      if !w.Found? then (t, w)
      else
        StepOnward(s, t, root, q, create);
        Step(t, At(root, q.up), q.i, create)
  }

  /** How many tables a walk to `q` would have to make. */
  ghost function Missing(s: State, root: Key, q: Path): (n: nat)
    ensures n <= Depth(q)
  {
    if q.Top? then 0 else Missing(s, root, q.up) + (if At(root, q) in s.tables then 0 else 1)
  }

  /** Without `create` a walk changes nothing and finds the table exactly if it is there. */
  lemma {:induction false} WalkReads(s: State, root: Key, q: Path)
    requires Base(s) && s.gone == {} && root.path == Top && root in s.tables && UserPath(q) && Depth(q) <= 3
    ensures WalkTo(s, root, q, false) == (s, if At(root, q) in s.tables then Found(s.tables[At(root, q)]) else Unmapped)
    decreases q
  {
    if q.Sub? {
      WalkReads(s, root, q.up);
      assert At(root, q) in s.tables ==> Linked(s, At(root, q));
    }
  }

  /** A walk that never skips a level adds only tables on its own path. */
  lemma {:induction false} WalkAdds(s: State, root: Key, q: Path, create: bool, r: Path)
    requires Base(s) && s.gone == {} && root.path == Top && root in s.tables && UserPath(q) && Depth(q) <= 3
    requires !Under(r, q)
    ensures At(root, r) in WalkTo(s, root, q, create).0.tables <==> At(root, r) in s.tables
    decreases q
  {
    hide Base;
    if q.Sub? {
      WalkAdds(s, root, q.up, create, r);
    }
  }

  /** With enough pages a creating walk succeeds and uses exactly the missing tables; with no page
      at all it fails with -ENOMEM before it has changed anything. */
  lemma {:induction false} WalkCreates(s: State, root: Key, q: Path)
    requires Base(s) && s.gone == {} && root.path == Top && root in s.tables && UserPath(q) && Depth(q) <= 3
    requires s.nfree == 0 || s.nfree > Missing(s, root, q)
    ensures var (t, w) := WalkTo(s, root, q, true);
      && (s.nfree > 0 || Missing(s, root, q) == 0 ==> w.Found? && t.nfree == s.nfree - Missing(s, root, q))
      && (s.nfree == 0 ==> t == s)
      && (s.nfree == 0 && Missing(s, root, q) > 0 ==> w == NoMemory)
    decreases q
  {
    hide Base;
    if q.Sub? {
      WalkCreates(s, root, q.up);
      assert !Under(q, q.up) by {
        if Under(q, q.up) {
          UnderDepth(q, q.up);
        }
      }
      WalkAdds(s, root, q.up, true, q);
    }
  }

  /** The next level of a creating walk never meets the last free page. */
  lemma WalkHasPage(s: State, root: Key, q: Path)
    requires Base(s) && s.gone == {} && root.path == Top && root in s.tables && q.Sub? && UserPath(q) && Depth(q) <= 3
    requires s.nfree == 0 || s.nfree > Missing(s, root, q)
    ensures var (t, w) := WalkTo(s, root, q.up, true);
      w.Found? && At(root, q) !in t.tables ==> t.nfree != 1
  {
    hide Base;
    WalkCreates(s, root, q.up);
  }
}
