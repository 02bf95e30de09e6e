/** Where the pages are: every page is free, a table, in hand, or a frame of user memory, and what a
    fork takes comes back when the child is gone. */
module Conservation {
  import opened Words
  import opened Paths
  import opened PageState
  import opened TableSteps
  import opened CopySteps
  import opened CopyLoop
  import opened FreeLoop
  import opened Views
  import opened Sharing
  import opened WholeTrees
  import opened SplitSteps
  import opened Processes

  ghost function OfKind(s: State, k: Kind): (r: set<nat>)
  {
    set f: nat | f < |s.kind| && s.kind[f] == k
  }

  ghost function TablePages(s: State): (r: set<nat>)
  {
    set f: nat | f < |s.kind| && s.kind[f].TablePage?
  }

  /** User frames that are mapped, and those nothing maps any more. */
  ghost function InUse(s: State): (r: set<nat>)
    requires |s.info| == |s.kind|
  {
    set f: nat | f < |s.kind| && s.kind[f] == User && s.info[f] > 0
  }

  ghost function Lost(s: State): (r: set<nat>)
    requires |s.info| == |s.kind|
  {
    set f: nat | f < |s.kind| && IsLost(s, f)
  }

  ghost function UsablePages(m: Machine): (r: set<nat>)
    requires |m.address| == m.count
  {
    set f: nat | f < m.count && Usable(m, f)
  }

  lemma {:induction false} DistinctSize(l: seq<nat>, a: set<nat>)
    requires forall i, j :: 0 <= i < j < |l| ==> l[i] != l[j]
    requires forall f: nat :: f in a <==> f in l
    ensures |a| == |l|
    decreases |l|
  {
    if l == [] {
      assert a == {};
    } else {
      var n := |l| - 1;
      assert l[n] in l;
      forall f: nat ensures f in a - {l[n]} <==> f in l[..n] {
        if f in l[..n] {
          var i :| 0 <= i < n && l[i] == f;
        }
        if f in a - {l[n]} {
          var i :| 0 <= i < |l| && l[i] == f;
          assert l[..n][i] == f;
        }
      }
      DistinctSize(l[..n], a - {l[n]});
    }
  }

  lemma FreeSize(s: State)
    requires Sized(s) && FreeInv(s)
    ensures |OfKind(s, Free)| == s.nfree
  {
    forall f: nat ensures f in OfKind(s, Free) <==> f in s.fl {
      if f in s.fl {
        var i :| 0 <= i < |s.fl| && s.fl[i] == f;
        assert Listed(s, i);
      }
    }
    DistinctSize(s.fl, OfKind(s, Free));
  }

  lemma {:induction false} MapSize<K>(m: map<K, nat>, a: set<nat>)
    requires forall k, l :: k in m && l in m && m[k] == m[l] ==> k == l
    requires forall f: nat :: f in a <==> exists k :: k in m && m[k] == f
    ensures |a| == |m|
    decreases |m|
  {
    if m == map[] {
      assert a == {};
    } else {
      var k :| k in m;
      var m' := m - {k};
      assert m.Keys == m'.Keys + {k};
      assert m[k] in a;
      forall f: nat ensures f in a - {m[k]} <==> exists l :: l in m' && m'[l] == f {
        if f in a - {m[k]} {
          var l :| l in m && m[l] == f;
          assert l in m';
        }
      }
      MapSize(m', a - {m[k]});
    }
  }

  lemma TableSize(s: State)
    requires Sized(s) && TreeInv(s)
    ensures |TablePages(s)| == |s.tables|
  {
    forall k | k in s.tables ensures s.tables[k] < |s.kind| && s.kind[s.tables[k]] == TablePage(k) {
      assert TableOk(s, k);
    }
    MapSize(s.tables, TablePages(s));
  }

  /** The census: free pages, tables, pages in hand, mapped frames and lost frames make up all the
      memory there is. */
  lemma Census(s: State)
    requires Base(s)
    ensures Sized(s)
    ensures s.nfree + |s.tables| + |OfKind(s, Held)| + |InUse(s)| + |Lost(s)| == |UsablePages(s.machine)|
  {
    hide Base, FreeInv, TreeInv, LeafInv, CountInv, HeldInv;
    BaseParts(s);
    FreeSize(s);
    TableSize(s);
    CensusKinds(s);
    CensusSets(s);
  }

  lemma CensusKinds(s: State)
    requires Sized(s) && FreeInv(s)
    ensures forall f :: 0 <= f < s.machine.count ==> (s.kind[f] != Reserved <==> Usable(s.machine, f))
  {
  }

  lemma CensusSets(s: State)
    requires Sized(s) && forall f :: 0 <= f < s.machine.count ==> (s.kind[f] != Reserved <==> Usable(s.machine, f))
    ensures |OfKind(s, Free)| + |TablePages(s)| + |OfKind(s, Held)| + |InUse(s)| + |Lost(s)| == |UsablePages(s.machine)|
  {
    var a, b, c, d, e := OfKind(s, Free), TablePages(s), OfKind(s, Held), InUse(s), Lost(s);
    assert UsablePages(s.machine) == a + b + c + d + e;
    assert a !! b && (a + b) !! c && (a + b + c) !! d && (a + b + c + d) !! e;
  }

  /** No frame of user memory is free, and the mapped ones are exactly those some process maps. */
  lemma InUseMapped(s: State, f: nat)
    requires Base(s)
    ensures Sized(s) && (f in InUse(s) <==> exists o, v :: Depth(v) == 4 && HwLeaf(s, o, v).p && HwLeaf(s, o, v).frame == f)
  {
    hide Base, TreeInv, FreeInv, HeldInv;
    BaseParts(s);
    if f in InUse(s) {
      assert UserFrame(s, f);
      assert Refs(s, f) == {} <==> |Refs(s, f)| == 0;
      var x :| x in Refs(s, f);
      RefIsLeaf(s, f, x);
    }
    forall o, v | Depth(v) == 4 && HwLeaf(s, o, v).p && HwLeaf(s, o, v).frame == f ensures f in InUse(s) {
      LeafIsRef(s, o, v);
      assert Refs(s, f) == {} <==> |Refs(s, f)| == 0;
    }
  }

  // ---------------------------------------------------------------- fork, faults, exit

  /** A write fault that is repaired, or a store that lands. */
  datatype Act = Fault(o: nat, v: Path) | Put(o: nat, v: Path, pg: Page)

  ghost predicate ActStep(s: State, t: State, a: Act, p: nat, c: nat)
  {
    match a
    case Fault(o, v) => (o == p || o == c) && FaultStep(s, t, o, v)
    case Put(o, v, pg) => PutStep(s, t, o, v, pg)
  }

  /** Any interleaving of write faults of two processes with stores by anyone. */
  ghost predicate IsRun(ss: seq<State>, acts: seq<Act>, p: nat, c: nat)
  {
    |ss| == |acts| + 1 && forall i :: 0 <= i < |acts| ==> ActStep(ss[i], ss[i + 1], acts[i], p, c)
  }

  lemma RunPrefix(ss: seq<State>, acts: seq<Act>, p: nat, c: nat, n: nat)
    requires IsRun(ss, acts, p, c) && n <= |acts|
    ensures IsRun(ss[..n + 1], acts[..n], p, c)
  {
  }

  ghost predicate Along(s0: State, s: State, p: nat, c: nat)
  {
    && s.machine == s0.machine && |s.kind| == |s0.kind|
    && (forall q, u :: Depth(u) == 4 && q != p && q != c ==> HwLeaf(s, q, u) == HwLeaf(s0, q, u))
    && (forall v :: Depth(v) == 4 ==> HwLeaf(s, p, v).p == HwLeaf(s0, p, v).p)
    && SameButSlot(s0, s, c)
    && (forall f: nat :: IsLost(s, f) <==> IsLost(s0, f))
    && (forall f :: 0 <= f < |s.kind| ==> (s.kind[f] == Held <==> s0.kind[f] == Held))
  }

  lemma LostIffUnmapped(s: State, f: nat)
    requires Base(s)
    ensures IsLost(s, f) <==> UserFrame(s, f) && forall o, v :: Depth(v) == 4 && HwLeaf(s, o, v).p ==> HwLeaf(s, o, v).frame != f
  {
    hide Base, FreeInv, TreeInv, LeafInv, CountInv, HeldInv;
    BaseParts(s);
    InUseMapped(s, f);
  }

  lemma AlongFork(s: State, t: State, p: nat, c: nat)
    requires CanFork(s, p, c) && ForkDone(s, t, p, c)
    requires forall v :: Depth(v) == 4 ==> !HwLeaf(s, c, v).p
    ensures Along(s, t, p, c)
  {
    hide Base, Twin;
    forall f: nat ensures IsLost(t, f) <==> IsLost(s, f) {
      LostIffUnmapped(s, f);
      LostIffUnmapped(t, f);
      ForkMaps(s, t, p, c, f);
    }
  }

  /** A fork maps exactly the frames that were mapped. */
  lemma ForkMaps(s: State, t: State, p: nat, c: nat, f: nat)
    requires Twin(s) && Forked(s, t, p, c) && p != c && forall v :: Depth(v) == 4 ==> !HwLeaf(s, c, v).p
    ensures (forall o, v :: Depth(v) == 4 && HwLeaf(t, o, v).p ==> HwLeaf(t, o, v).frame != f)
       <==> (forall o, v :: Depth(v) == 4 && HwLeaf(s, o, v).p ==> HwLeaf(s, o, v).frame != f)
  {
    forall v | Depth(v) == 4 ensures TwinAt(s, p, v) {
    }
    if forall o, v :: Depth(v) == 4 && HwLeaf(t, o, v).p ==> HwLeaf(t, o, v).frame != f {
      forall o, v | Depth(v) == 4 && HwLeaf(s, o, v).p ensures HwLeaf(s, o, v).frame != f {
        assert HwLeaf(t, o, v).p;
      }
    }
    if forall o, v :: Depth(v) == 4 && HwLeaf(s, o, v).p ==> HwLeaf(s, o, v).frame != f {
      forall o, v | Depth(v) == 4 && HwLeaf(t, o, v).p ensures HwLeaf(t, o, v).frame != f {
        assert HwLeaf(s, if o == c then p else o, v).p;
      }
    }
  }

  lemma FaultLeaves(s: State, t: State, o: nat, v: Path)
    requires FaultStep(s, t, o, v)
    ensures Base(t) && t.gone == {} && t.tables == s.tables && t.machine == s.machine && |t.kind| == |s.kind|
    ensures forall q, u :: Depth(u) == 4 && (q != o || u != v) ==> HwLeaf(t, q, u) == HwLeaf(s, q, u)
    ensures HwLeaf(t, o, v).p
    ensures HwLeaf(s, o, v).frame < |s.info|
    ensures if s.info[HwLeaf(s, o, v).frame] == 1 then HwLeaf(t, o, v).frame == HwLeaf(s, o, v).frame
            else !UserFrame(s, HwLeaf(t, o, v).frame)
  {
    hide Base, FreeInv, TreeInv, LeafInv, CountInv, HeldInv;
    BaseParts(s);
    CowTables(s, o, v);
    if s.info[HwLeaf(s, o, v).frame] == 1 {
      LeafIsRef(s, o, v);
      ReflagKeeps(s, At(Hw(o), v.up), v.i, HwLeaf(s, o, v).(w := true));
    } else {
      SplitOffKeeps(s, o, v);
      FilledKeeps(s, o, v);
    }
  }

  lemma FaultKinds(s: State, t: State, o: nat, v: Path)
    requires FaultStep(s, t, o, v)
    ensures |t.kind| == |s.kind| && forall f :: 0 <= f < |s.kind| ==> (t.kind[f] == Held <==> s.kind[f] == Held)
    ensures forall f: nat :: IsLost(t, f) <==> IsLost(s, f)
  {
    hide Base, FreeInv, TreeInv, LeafInv, HeldInv;
    BaseParts(s);
    CowTables(s, o, v);
    var f := HwLeaf(s, o, v).frame;
    LeafIsRef(s, o, v);
    assert Refs(s, f) == {} <==> |Refs(s, f)| == 0;
    if s.info[f] != 1 {
      FilledKeeps(s, o, v);
    }
  }

  lemma FaultBase(s: State, t: State, o: nat, v: Path)
    requires FaultStep(s, t, o, v)
    ensures Base(s) && Depth(v) == 4 && HwLeaf(s, o, v).p
  {
  }

  lemma AlongFault(s0: State, s: State, t: State, p: nat, c: nat, o: nat, v: Path)
    requires Along(s0, s, p, c) && (o == p || o == c) && FaultStep(s, t, o, v)
    ensures Along(s0, t, p, c) && Base(t) && t.gone == {}
  {
    hide Base, FaultStep, IsLost;
    FaultBase(s, t, o, v);
    FaultLeaves(s, t, o, v);
    FaultKinds(s, t, o, v);
  }

  lemma AlongExit(s0: State, s: State, t: State, p: nat, c: nat)
    requires Along(s0, s, p, c) && ExitDone(s, t, c) && p != c && forall k: Key :: k.owner == c ==> k !in s0.tables
    ensures Along(s0, t, p, c) && t.tables == s0.tables && forall v :: Depth(v) == 4 ==> !HwLeaf(t, c, v).p
    ensures forall q, u :: Depth(u) == 4 && q != c ==> HwLeaf(t, q, u) == HwLeaf(s, q, u)
  {
    var mid :| FreedAll(s, mid, Hw(c)) && FreedAll(mid, t, Sh(c));
    ExitLeaves(s, mid, t, p, c);
    forall k ensures InSubtree(Hw(c), k) || InSubtree(Sh(c), k) <==> k.owner == c {
      UnderTop(k.path);
    }
    assert t.tables == s0.tables;
  }

  lemma ExitLeaves(s: State, mid: State, t: State, p: nat, c: nat)
    requires FreedAll(s, mid, Hw(c)) && FreedAll(mid, t, Sh(c))
    ensures forall q, u :: Depth(u) == 4 && q != c ==> HwLeaf(t, q, u) == HwLeaf(s, q, u) && ShLeaf(t, q, u) == ShLeaf(s, q, u)
    ensures forall v :: Depth(v) == 4 ==> HwLeaf(t, c, v) == ZERO
  {
    hide FreedAll;
    FreeTranslates(s, mid, Hw(c));
    FreeTranslates(mid, t, Sh(c));
  }

  lemma ForkDoneBase(s: State, t: State, p: nat, c: nat)
    requires CanFork(s, p, c) && ForkDone(s, t, p, c)
    ensures Base(s) && Base(t) && p != c && Hw(c) !in s.tables && Forked(s, t, p, c) && Twin(s) && SameKinds(s, t)
  {
  }

  /** The child's slot starts without tables. */
  lemma NoChildTables(s: State, p: nat, c: nat)
    requires CanFork(s, p, c)
    ensures OneToOne(s, p) && forall k: Key :: k.owner == c ==> k !in s.tables
  {
    hide Base, FreeInv, TreeInv, LeafInv, CountInv, HeldInv, Twin;
    BaseParts(s);
    forall k: Key | k.owner == c ensures k !in s.tables {
      var root := if k.shadow then Sh(c) else Hw(c);
      NoRootNoTable(s, root, k.path);
      assert At(root, k.path) == k;
    }
    assert OneToOne(s, p);
  }

  lemma NoKeysNoLeaves(s: State, c: nat)
    requires forall k: Key :: k.owner == c ==> k !in s.tables
    ensures forall v :: Depth(v) == 4 ==> !HwLeaf(s, c, v).p
  {
  }

  lemma RestBalance(s: State, t: State, p: nat, c: nat)
    requires Along(s, t, p, c) && Sized(s) && Sized(t)
    ensures Lost(t) == Lost(s) && OfKind(t, Held) == OfKind(s, Held) && t.machine == s.machine
  {
  }

  // ---------------------------------------------------------------- where the parent's pages are

  /** A process other than `p` and `c` maps frame `f`. */
  ghost predicate Elsewhere(s: State, p: nat, c: nat, f: nat)
  {
    exists q, u :: Depth(u) == 4 && q != p && q != c && HwLeaf(s, q, u).p && HwLeaf(s, q, u).frame == f
  }

  /** Page `v` of `p` is in the frame it was in. */
  ghost predicate Stayed(s0: State, s: State, p: nat, v: Path)
  {
    HwLeaf(s, p, v).frame == HwLeaf(s0, p, v).frame
  }

  /** `s` is a state between the fork of `p` and the end of its child `c`: a page that has left its frame is
      in one that no third process maps. */
  ghost predicate Drift(s0: State, s: State, p: nat, c: nat)
  {
    && Along(s0, s, p, c) && OneToOne(s, p)
    && forall v :: Depth(v) == 4 && HwLeaf(s, p, v).p && !Stayed(s0, s, p, v) ==> !Elsewhere(s, p, c, HwLeaf(s, p, v).frame)
  }

  lemma DriftFork(s: State, t: State, p: nat, c: nat)
    requires Along(s, t, p, c) && Twin(s) && Forked(s, t, p, c) && p != c && OneToOne(s, p)
    ensures Drift(s, t, p, c)
  {
    forall v | Depth(v) == 4 ensures TwinAt(s, p, v) {
    }
  }

  lemma ForkDrift(s: State, t: State, p: nat, c: nat)
    requires CanFork(s, p, c) && ForkDone(s, t, p, c)
    ensures Drift(s, t, p, c)
  {
    hide Base, Twin, ForkDone, CanFork, Along, OneToOne;
    ForkDoneBase(s, t, p, c);
    NoChildTables(s, p, c);
    NoKeysNoLeaves(s, c);
    AlongFork(s, t, p, c);
    DriftFork(s, t, p, c);
  }

  lemma SameElsewhere(s: State, t: State, p: nat, c: nat, f: nat)
    requires forall q, u :: Depth(u) == 4 && q != p && q != c ==> HwLeaf(t, q, u) == HwLeaf(s, q, u)
    ensures Elsewhere(t, p, c, f) <==> Elsewhere(s, p, c, f)
  {
    if Elsewhere(t, p, c, f) {
      var q, u :| Depth(u) == 4 && q != p && q != c && HwLeaf(t, q, u).p && HwLeaf(t, q, u).frame == f;
      assert HwLeaf(s, q, u).p;
    }
    if Elsewhere(s, p, c, f) {
      var q, u :| Depth(u) == 4 && q != p && q != c && HwLeaf(s, q, u).p && HwLeaf(s, q, u).frame == f;
      assert HwLeaf(t, q, u).p;
    }
  }

  /** A frame that holds no user memory is nowhere mapped. */
  lemma NotElsewhere(s: State, p: nat, c: nat, f: nat)
    requires Base(s) && !UserFrame(s, f)
    ensures !Elsewhere(s, p, c, f) && forall v :: Depth(v) == 4 && HwLeaf(s, p, v).p ==> HwLeaf(s, p, v).frame != f
  {
    hide Base;
    forall q, u | Depth(u) == 4 && HwLeaf(s, q, u).p ensures HwLeaf(s, q, u).frame != f {
      LeafIsRef(s, q, u);
    }
  }

  lemma OneToOneFault(s: State, t: State, o: nat, v: Path, p: nat, c: nat)
    requires FaultStep(s, t, o, v) && OneToOne(s, p)
    ensures OneToOne(t, p)
  {
    hide Base, FaultStep;
    FaultBase(s, t, o, v);
    FaultLeaves(s, t, o, v);
    if !UserFrame(s, HwLeaf(t, o, v).frame) {
      NotElsewhere(s, p, c, HwLeaf(t, o, v).frame);
    }
  }

  lemma DriftFault(s0: State, s: State, t: State, p: nat, c: nat, o: nat, v: Path)
    requires Drift(s0, s, p, c) && (o == p || o == c) && FaultStep(s, t, o, v) && p != c
    ensures Drift(s0, t, p, c) && Base(t) && t.gone == {}
  {
    hide Base, FaultStep, Along, Elsewhere, OneToOne;
    FaultBase(s, t, o, v);
    FaultLeaves(s, t, o, v);
    AlongFault(s0, s, t, p, c, o, v);
    OneToOneFault(s, t, o, v, p, c);
    forall x | Depth(x) == 4 && HwLeaf(t, p, x).p && !Stayed(s0, t, p, x) ensures !Elsewhere(t, p, c, HwLeaf(t, p, x).frame) {
      var f := HwLeaf(t, p, x).frame;
      SameElsewhere(s, t, p, c, f);
      if !UserFrame(s, f) {
        NotElsewhere(s, p, c, f);
      }
    }
  }

  /** A store that lands changes the contents of a user frame and no table, count or link. */
  lemma PutLeaves(s: State, t: State, o: nat, v: Path, pg: Page)
    requires Base(s) && PutStep(s, t, o, v, pg)
    ensures Base(t) && t == s.(mem := t.mem) && forall q, u :: HwLeaf(t, q, u) == HwLeaf(s, q, u)
  {
    hide Base;
    LeafIsRef(s, o, v);
    StoredKeeps(s, HwLeaf(s, o, v).frame, pg);
    SameEntries(s, t);
  }

  lemma DriftPut(s0: State, s: State, t: State, p: nat, c: nat, o: nat, v: Path, pg: Page)
    requires Base(s) && Drift(s0, s, p, c) && PutStep(s, t, o, v, pg)
    ensures Drift(s0, t, p, c) && Base(t)
  {
    hide Base, Elsewhere, PutStep;
    PutLeaves(s, t, o, v, pg);
    forall x | Depth(x) == 4 && HwLeaf(t, p, x).p && !Stayed(s0, t, p, x) ensures !Elsewhere(t, p, c, HwLeaf(t, p, x).frame) {
      SameElsewhere(s, t, p, c, HwLeaf(t, p, x).frame);
    }
  }

  lemma {:induction false} DriftRun(s0: State, ss: seq<State>, acts: seq<Act>, p: nat, c: nat)
    requires IsRun(ss, acts, p, c) && Drift(s0, ss[0], p, c) && Base(ss[0]) && p != c
    ensures Drift(s0, ss[|acts|], p, c) && Base(ss[|acts|])
    decreases |acts|
  {
    hide Base, Drift, FaultStep, PutStep;
    if acts != [] {
      var n := |acts| - 1;
      RunPrefix(ss, acts, p, c, n);
      DriftRun(s0, ss[..n + 1], acts[..n], p, c);
      assert ActStep(ss[n], ss[n + 1], acts[n], p, c);
      match acts[n]
      case Fault(o, v) => DriftFault(s0, ss[n], ss[n + 1], p, c, o, v);
      case Put(o, v, pg) => DriftPut(s0, ss[n], ss[n + 1], p, c, o, v, pg);
    }
  }

  /** A fault of the parent at a page it shared with a third process moves the page, or finds it moved. */
  lemma FaultMoves(s0: State, s: State, t: State, p: nat, c: nat, v: Path)
    requires Drift(s0, s, p, c) && FaultStep(s, t, p, v) && Elsewhere(s0, p, c, HwLeaf(s0, p, v).frame)
    ensures !Stayed(s0, t, p, v)
  {
    hide Base, FaultStep, OneToOne;
    FaultBase(s, t, p, v);
    FaultLeaves(s, t, p, v);
    AlongLeaves(s0, s, p, c);
    var f := HwLeaf(s0, p, v).frame;
    SameElsewhere(s0, s, p, c, f);
    var q, u :| Depth(u) == 4 && q != p && q != c && HwLeaf(s, q, u).p && HwLeaf(s, q, u).frame == f;
    LeafIsRef(s, q, u);
    if Stayed(s0, s, p, v) && s.info[f] == 1 {
      SoleOwner(s, p, v, q, u);
    }
  }

  lemma MovesOnlyByFault(s: State, t: State, a: Act, p: nat, c: nat, v: Path)
    requires Base(s) && ActStep(s, t, a, p, c) && Depth(v) == 4 && a != Fault(p, v)
    ensures HwLeaf(t, p, v).frame == HwLeaf(s, p, v).frame
  {
    hide Base, FaultStep, PutStep;
    match a
    case Fault(o, u) =>
      FaultBase(s, t, o, u);
      FaultLeaves(s, t, o, u);
    case Put(o, u, pg) => PutLeaves(s, t, o, u, pg);
  }

  /** Where a page the parent shared with a third process is in the end is decided by the run: it is where it
      was exactly if the parent never faulted on it. */
  lemma {:induction false} StayedIff(s0: State, ss: seq<State>, acts: seq<Act>, p: nat, c: nat, v: Path)
    requires IsRun(ss, acts, p, c) && Drift(s0, ss[0], p, c) && Base(ss[0]) && p != c
    requires Depth(v) == 4 && Stayed(s0, ss[0], p, v) && Elsewhere(s0, p, c, HwLeaf(s0, p, v).frame)
    ensures Stayed(s0, ss[|acts|], p, v) <==> Fault(p, v) !in acts
    decreases |acts|
  {
    hide Base, Drift, FaultStep, PutStep, Elsewhere;
    if acts != [] {
      var n := |acts| - 1;
      RunPrefix(ss, acts, p, c, n);
      StayedIff(s0, ss[..n + 1], acts[..n], p, c, v);
      DriftRun(s0, ss[..n + 1], acts[..n], p, c);
      assert ActStep(ss[n], ss[n + 1], acts[n], p, c);
      assert acts == acts[..n] + [acts[n]];
      if acts[n] == Fault(p, v) {
        FaultMoves(s0, ss[n], ss[n + 1], p, c, v);
      } else {
        MovesOnlyByFault(ss[n], ss[n + 1], acts[n], p, c, v);
      }
    }
  }

  lemma DriftExit(s0: State, s: State, t: State, p: nat, c: nat)
    requires Drift(s0, s, p, c) && Along(s0, t, p, c) && p != c
    requires forall q, u :: Depth(u) == 4 && q != c ==> HwLeaf(t, q, u) == HwLeaf(s, q, u)
    ensures Drift(s0, t, p, c)
  {
    hide Along, Elsewhere;
    forall x | Depth(x) == 4 && HwLeaf(t, p, x).p && !Stayed(s0, t, p, x) ensures !Elsewhere(t, p, c, HwLeaf(t, p, x).frame) {
      SameElsewhere(s, t, p, c, HwLeaf(t, p, x).frame);
    }
  }

  // ---------------------------------------------------------------- the balance

  ghost predicate MappedBy(s: State, p: nat, f: nat)
  {
    exists v :: Depth(v) == 4 && HwLeaf(s, p, v).p && HwLeaf(s, p, v).frame == f
  }

  /** The page of `p` that was in frame `f`. */
  ghost function PageIn(s: State, p: nat, f: nat): (v: Path)
    requires MappedBy(s, p, f)
    ensures Depth(v) == 4 && HwLeaf(s, p, v).p && HwLeaf(s, p, v).frame == f
  {
    var v :| Depth(v) == 4 && HwLeaf(s, p, v).p && HwLeaf(s, p, v).frame == f; v
  }

  /** Where the page that was in frame `f` is now. */
  ghost function Moved(s: State, t: State, p: nat, f: nat): (g: nat)
  {
    if MappedBy(s, p, f) then HwLeaf(t, p, PageIn(s, p, f)).frame else f
  }

  ghost function Others(s: State, p: nat, c: nat): (r: set<nat>)
    requires Sized(s)
  {
    set f | f in InUse(s) && Elsewhere(s, p, c, f)
  }

  /** Frames that `p` shared with a third process before the fork and has left since. */
  ghost function LeftBehind(s0: State, t: State, p: nat, c: nat): (r: set<nat>)
    requires Sized(s0)
  {
    set f | f in Others(s0, p, c) && MappedBy(s0, p, f) && !Stayed(s0, t, p, PageIn(s0, p, f))
  }

  ghost predicate ChildGone(s: State, c: nat)
  {
    forall v :: Depth(v) == 4 ==> !HwLeaf(s, c, v).p
  }

  /** A frame in use that no third process maps is the parent's. */
  lemma OwnMapped(s: State, p: nat, c: nat, f: nat)
    requires Base(s) && Sized(s) && ChildGone(s, c) && f in InUse(s) && !Elsewhere(s, p, c, f)
    ensures MappedBy(s, p, f)
  {
    hide Base, InUse;
    InUseMapped(s, f);
    var o, v :| Depth(v) == 4 && HwLeaf(s, o, v).p && HwLeaf(s, o, v).frame == f;
  }

  lemma SameOthers(s: State, t: State, p: nat, c: nat)
    requires Base(s) && Base(t) && Sized(s) && Sized(t) && Along(s, t, p, c)
    ensures Others(t, p, c) == Others(s, p, c)
  {
    hide Base, InUse, Elsewhere;
    forall f: nat ensures f in Others(t, p, c) <==> f in Others(s, p, c) {
      SameElsewhere(s, t, p, c, f);
      ElsewhereInUse(s, p, c, f);
      ElsewhereInUse(t, p, c, f);
    }
  }

  lemma ElsewhereInUse(s: State, p: nat, c: nat, f: nat)
    requires Base(s) && Sized(s)
    ensures Elsewhere(s, p, c, f) ==> f in InUse(s)
  {
    hide Base, InUse;
    InUseMapped(s, f);
  }

  /** Where a frame's page went, for the frames the parent alone mapped and those it left behind. */
  lemma WentTo(s: State, t: State, p: nat, c: nat, f: nat)
    requires Base(s) && Base(t) && Sized(s) && Sized(t) && Drift(s, t, p, c) && OneToOne(s, p) && ChildGone(s, c)
    requires f in InUse(s) - Others(s, p, c) + LeftBehind(s, t, p, c)
    ensures MappedBy(s, p, f) && HwLeaf(t, p, PageIn(s, p, f)).p && Moved(s, t, p, f) in InUse(t) - Others(t, p, c)
  {
    hide Base, InUse, Elsewhere;
    if f !in Others(s, p, c) {
      OwnMapped(s, p, c, f);
    }
    var v := PageIn(s, p, f);
    var g := HwLeaf(t, p, v).frame;
    InUseMapped(t, g);
    SameElsewhere(s, t, p, c, g);
  }

  lemma CameFrom(s: State, t: State, p: nat, c: nat, g: nat)
    requires Base(s) && Base(t) && Sized(s) && Sized(t) && Drift(s, t, p, c) && OneToOne(s, p) && ChildGone(t, c)
    requires g in InUse(t) - Others(t, p, c)
    ensures exists f: nat :: f in InUse(s) - Others(s, p, c) + LeftBehind(s, t, p, c) && Moved(s, t, p, f) == g
  {
    hide Base, InUse, Elsewhere;
    OwnMapped(t, p, c, g);
    var v := PageIn(t, p, g);
    var f := HwLeaf(s, p, v).frame;
    assert HwLeaf(s, p, v).p;
    InUseMapped(s, f);
    assert MappedBy(s, p, f) && PageIn(s, p, f) == v;
    SameElsewhere(s, t, p, c, f);
    assert Moved(s, t, p, f) == g;
    assert f in Others(s, p, c) ==> f in LeftBehind(s, t, p, c);
    assert f in InUse(s) - Others(s, p, c) + LeftBehind(s, t, p, c);
  }

  lemma MovedApart(s: State, t: State, p: nat, c: nat, f: nat, g: nat)
    requires Base(s) && Base(t) && Sized(s) && Sized(t) && Drift(s, t, p, c) && OneToOne(s, p) && ChildGone(s, c)
    requires f in InUse(s) - Others(s, p, c) + LeftBehind(s, t, p, c) && g in InUse(s) - Others(s, p, c) + LeftBehind(s, t, p, c)
    requires Moved(s, t, p, f) == Moved(s, t, p, g)
    ensures f == g
  {
    hide Base, InUse, Others, LeftBehind, Along, ChildGone;
    WentTo(s, t, p, c, f);
    WentTo(s, t, p, c, g);
  }

  lemma OwnBalance(s: State, t: State, p: nat, c: nat)
    requires Base(s) && Base(t) && Sized(s) && Sized(t) && Drift(s, t, p, c) && OneToOne(s, p) && ChildGone(s, c) && ChildGone(t, c)
    ensures |InUse(t) - Others(t, p, c)| == |InUse(s) - Others(s, p, c) + LeftBehind(s, t, p, c)|
  {
    hide Base, InUse, Others, LeftBehind, Drift, OneToOne, ChildGone, Moved;
    var from, to := InUse(s) - Others(s, p, c) + LeftBehind(s, t, p, c), InUse(t) - Others(t, p, c);
    var h := map f | f in from :: Moved(s, t, p, f);
    forall f, g | f in h && g in h && h[f] == h[g] ensures f == g {
      MovedApart(s, t, p, c, f, g);
    }
    forall g: nat ensures g in to <==> exists f :: f in h && h[f] == g {
      if g in to {
        CameFrom(s, t, p, c, g);
        var f: nat :| f in from && Moved(s, t, p, f) == g;
        assert f in h && h[f] == g;
      }
      if f :| f in h && h[f] == g {
        WentTo(s, t, p, c, f);
      }
    }
    MapSize(h, to);
    assert h.Keys == from && |h| == |h.Keys|;
  }

  lemma InUseBalance(s: State, t: State, p: nat, c: nat)
    requires Base(s) && Base(t) && Sized(s) && Sized(t) && Drift(s, t, p, c) && OneToOne(s, p) && ChildGone(s, c) && ChildGone(t, c)
    ensures |InUse(t)| == |InUse(s)| + |LeftBehind(s, t, p, c)|
  {
    hide Base, InUse, Drift, Others, LeftBehind, ChildGone, OneToOne;
    OwnBalance(s, t, p, c);
    DriftAlong(s, t, p, c);
    SameOthers(s, t, p, c);
    OthersWithin(s, t, p, c);
    OthersWithin(t, t, p, c);
    Parted(InUse(s), Others(s, p, c), LeftBehind(s, t, p, c));
    Parted(InUse(t), Others(s, p, c), {});
  }

  lemma DriftAlong(s: State, t: State, p: nat, c: nat)
    requires Drift(s, t, p, c)
    ensures Along(s, t, p, c)
  {
  }

  lemma OthersWithin(s: State, t: State, p: nat, c: nat)
    requires Sized(s)
    ensures Others(s, p, c) <= InUse(s) && LeftBehind(s, t, p, c) <= Others(s, p, c)
  {
  }

  lemma Parted(all: set<nat>, part: set<nat>, left: set<nat>)
    requires left <= part <= all
    ensures |all - part + left| == |all| - |part| + |left|
  {
    assert all == (all - part) + part;
  }

  /** The reference count of a page of the parent: what it was if the page stayed, 1 if it moved. */
  ghost predicate CountRestored(s: State, t: State, p: nat, v: Path)
  {
    var f := HwLeaf(t, p, v).frame;
    f < |t.info| && f < |s.info| && t.info[f] == if Stayed(s, t, p, v) then s.info[f] else 1
  }

  lemma CountAfter(s: State, t: State, p: nat, c: nat, v: Path)
    requires Base(s) && Base(t) && Drift(s, t, p, c) && OneToOne(s, p) && ChildGone(s, c) && ChildGone(t, c)
    requires Depth(v) == 4 && HwLeaf(t, p, v).p
    ensures CountRestored(s, t, p, v)
  {
    hide Base, FreeInv, TreeInv, LeafInv, HeldInv, Along, Refs;
    BaseParts(s);
    BaseParts(t);
    var f := HwLeaf(t, p, v).frame;
    LeafIsRef(t, p, v);
    AlongLeaves(s, t, p, c);
    var own := (At(Hw(p), v.up), v.i);
    if Stayed(s, t, p, v) {
      LeafIsRef(s, p, v);
      forall x ensures x in Refs(t, f) <==> x in Refs(s, f) {
        SameRef(s, t, p, c, v, x);
      }
      assert Refs(t, f) == Refs(s, f);
    } else {
      forall x | x in Refs(t, f) ensures x == own {
        OnlyRef(s, t, p, c, v, x);
      }
      OnlyMember(Refs(t, f), own);
    }
  }

  lemma AlongLeaves(s: State, t: State, p: nat, c: nat)
    requires Along(s, t, p, c)
    ensures |s.kind| == |t.kind| && s.machine == t.machine
    ensures forall q, u :: Depth(u) == 4 && q != p && q != c ==> HwLeaf(t, q, u) == HwLeaf(s, q, u)
    ensures forall v :: Depth(v) == 4 ==> HwLeaf(t, p, v).p == HwLeaf(s, p, v).p
  {
  }

  lemma SameRef(s: State, t: State, p: nat, c: nat, v: Path, x: (Key, nat))
    requires Base(s) && Base(t) && Drift(s, t, p, c) && OneToOne(s, p) && ChildGone(s, c) && ChildGone(t, c)
    requires Depth(v) == 4 && HwLeaf(t, p, v).p && Stayed(s, t, p, v)
    ensures x in Refs(t, HwLeaf(t, p, v).frame) <==> x in Refs(s, HwLeaf(t, p, v).frame)
  {
    hide Base, Refs, Along, Elsewhere;
    AlongLeaves(s, t, p, c);
    var f := HwLeaf(t, p, v).frame;
    var o, u := x.0.owner, Sub(x.0.path, x.1);
    if x in Refs(t, f) {
      RefIsLeaf(t, f, x);
      LeafIsRef(s, o, u);
    }
    if x in Refs(s, f) {
      RefIsLeaf(s, f, x);
      LeafIsRef(t, o, u);
    }
  }

  lemma OnlyRef(s: State, t: State, p: nat, c: nat, v: Path, x: (Key, nat))
    requires Base(t) && Drift(s, t, p, c) && ChildGone(t, c) && Depth(v) == 4 && HwLeaf(t, p, v).p && !Stayed(s, t, p, v)
    requires x in Refs(t, HwLeaf(t, p, v).frame)
    ensures x == (At(Hw(p), v.up), v.i)
  {
    hide Base, Refs, Along;
    var f := HwLeaf(t, p, v).frame;
    RefIsLeaf(t, f, x);
    var o, u := x.0.owner, Sub(x.0.path, x.1);
    assert o != p && o != c ==> Elsewhere(t, p, c, f);
  }

  /** Frames that `p` shared with a third process before the fork, of pages it faulted on since. */
  ghost function GivenUp(s0: State, acts: seq<Act>, p: nat, c: nat): (r: set<nat>)
    requires Sized(s0)
  {
    set f | f in Others(s0, p, c) && MappedBy(s0, p, f) && Fault(p, PageIn(s0, p, f)) in acts
  }

  lemma ForkStays(s: State, t: State, p: nat, c: nat, v: Path)
    requires Forked(s, t, p, c) && p != c && Depth(v) == 4
    ensures Stayed(s, t, p, v)
  {
  }

  lemma GivenUpIs(s0: State, ss: seq<State>, t: State, acts: seq<Act>, p: nat, c: nat)
    requires Sized(s0) && IsRun(ss, acts, p, c) && Drift(s0, ss[0], p, c) && Base(ss[0]) && Forked(s0, ss[0], p, c) && p != c
    requires forall q, u :: Depth(u) == 4 && q != c ==> HwLeaf(t, q, u) == HwLeaf(ss[|acts|], q, u)
    ensures LeftBehind(s0, t, p, c) == GivenUp(s0, acts, p, c)
  {
    hide Base, Drift, ActStep, Elsewhere, InUse;
    forall f | f in Others(s0, p, c) && MappedBy(s0, p, f)
      ensures Stayed(s0, t, p, PageIn(s0, p, f)) <==> Fault(p, PageIn(s0, p, f)) !in acts
    {
      var v := PageIn(s0, p, f);
      ForkStays(s0, ss[0], p, c, v);
      StayedIff(s0, ss, acts, p, c, v);
    }
  }

  /** What a fork takes, to the page. Process `p` forks `c`; write faults of the two and stores by anyone
      follow in any order, and `c` ends. The page tables are as before the fork. Missing from the free pages
      are as many as `p` had frames shared with a third process before the fork whose pages it faulted on
      since; every page of `p` that stayed has its old count, and every other has count 1. */
  lemma ForkCosts(s0: State, ss: seq<State>, acts: seq<Act>, t: State, p: nat, c: nat)
    requires CanFork(s0, p, c) && IsRun(ss, acts, p, c) && ForkDone(s0, ss[0], p, c)
    requires ExitDone(ss[|acts|], t, c) && Base(t)
    ensures Sized(s0) && t.nfree + |GivenUp(s0, acts, p, c)| == s0.nfree && t.tables == s0.tables
    ensures forall v :: Depth(v) == 4 && HwLeaf(t, p, v).p ==> CountRestored(s0, t, p, v)
  {
    hide Base, Twin, ForkDone, Along, ExitDone, ActStep, InUse, Lost, IsLost, OneToOne, LeftBehind, GivenUp;
    ForkDoneBase(s0, ss[0], p, c);
    NoChildTables(s0, p, c);
    NoKeysNoLeaves(s0, c);
    ForkDrift(s0, ss[0], p, c);
    DriftRun(s0, ss, acts, p, c);
    AlongExit(s0, ss[|acts|], t, p, c);
    DriftExit(s0, ss[|acts|], t, p, c);
    Census(s0);
    Census(t);
    InUseBalance(s0, t, p, c);
    GivenUpIs(s0, ss, t, acts, p, c);
    RestBalance(s0, t, p, c);
    forall v | Depth(v) == 4 && HwLeaf(t, p, v).p ensures CountRestored(s0, t, p, v) {
      CountAfter(s0, t, p, c, v);
    }
  }

  /** The act is a fault of `p` at a page it shared with a third process before the fork. */
  ghost predicate AtShared(s0: State, a: Act, p: nat, c: nat)
  {
    a.Fault? && a.o == p && Elsewhere(s0, p, c, HwLeaf(s0, p, a.v).frame)
  }

  /** So the free pages are back exactly if the parent faults on none of the pages it shared with a third
      process before the fork. */
  lemma ForkIsRepaid(s0: State, ss: seq<State>, acts: seq<Act>, t: State, p: nat, c: nat)
    requires CanFork(s0, p, c) && IsRun(ss, acts, p, c) && ForkDone(s0, ss[0], p, c)
    requires ExitDone(ss[|acts|], t, c) && Base(t)
    ensures t.nfree == s0.nfree <==> forall i :: 0 <= i < |acts| ==> !AtShared(s0, acts[i], p, c)
  {
    hide Base, ForkDone, ExitDone, ActStep, InUse, CanFork, Drift;
    ForkCosts(s0, ss, acts, t, p, c);
    var given := GivenUp(s0, acts, p, c);
    assert given == {} <==> |given| == 0;
    CanForkBase(s0, p, c);
    NoChildTables(s0, p, c);
    if i :| 0 <= i < |acts| && AtShared(s0, acts[i], p, c) {
      var v := acts[i].v;
      FaultedBefore(s0, ss, acts, p, c, i);
      var f := HwLeaf(s0, p, v).frame;
      ElsewhereInUse(s0, p, c, f);
      assert MappedBy(s0, p, f) && PageIn(s0, p, f) == v;
      assert acts[i] == Fault(p, v);
      assert f in given;
    }
    if f :| f in given {
      var i :| 0 <= i < |acts| && acts[i] == Fault(p, PageIn(s0, p, f));
      assert AtShared(s0, acts[i], p, c);
    }
  }

  /** A page faulted on after the fork was mapped before it. */
  lemma FaultedBefore(s0: State, ss: seq<State>, acts: seq<Act>, p: nat, c: nat, i: nat)
    requires CanFork(s0, p, c) && IsRun(ss, acts, p, c) && ForkDone(s0, ss[0], p, c) && i < |acts| && acts[i].Fault? && acts[i].o == p
    ensures Depth(acts[i].v) == 4 && HwLeaf(s0, p, acts[i].v).p
  {
    hide Base, Twin, ForkDone, OneToOne, CanFork, FaultStep, Along, IsLost;
    ForkDoneBase(s0, ss[0], p, c);
    ForkDrift(s0, ss[0], p, c);
    RunPrefix(ss, acts, p, c, i);
    DriftRun(s0, ss[..i + 1], acts[..i], p, c);
    assert ActStep(ss[i], ss[i + 1], acts[i], p, c);
    FaultBase(ss[i], ss[i + 1], p, acts[i].v);
    AlongLeaves(s0, ss[i], p, c);
  }

  /** Pages do go missing: a process that forks twice and then writes a page has one page less when the second
      child is gone. */
  lemma SecondForkCosts(r: State, s0: State, s1: State, s2: State, t: State, p: nat, q: nat, c: nat, v: Path)
    requires CanFork(r, p, q) && ForkDone(r, s0, p, q)
    requires CanFork(s0, p, c) && ForkDone(s0, s1, p, c) && FaultStep(s1, s2, p, v) && ExitDone(s2, t, c) && Base(t)
    ensures t.nfree < s0.nfree
  {
    hide Base, Twin, ForkDone, ExitDone, FaultStep, CanFork;
    ForkDoneBase(r, s0, p, q);
    ForkDoneBase(s0, s1, p, c);
    FaultBase(s1, s2, p, v);
    TwinLeaf(r, p, v);
    NoChildTables(s0, p, c);
    NoKeysNoLeaves(s0, c);
    assert q != c && HwLeaf(s0, q, v).p && HwLeaf(s0, q, v).frame == HwLeaf(s0, p, v).frame;
    assert Elsewhere(s0, p, c, HwLeaf(s0, p, v).frame);
    var acts := [Fault(p, v)];
    assert IsRun([s1, s2], acts, p, c);
    ForkCosts(s0, [s1, s2], acts, t, p, c);
    ForkIsRepaid(s0, [s1, s2], acts, t, p, c);
    assert AtShared(s0, acts[0], p, c);
  }

  lemma CanForkBase(s: State, p: nat, c: nat)
    requires CanFork(s, p, c)
    ensures Base(s)
  {
  }

  // ---------------------------------------------------------------- the end of a process

  ghost function OwnTables(s: State, o: nat): (r: set<Key>)
  {
    set k | k in s.tables && k.owner == o
  }

  /** The mapped frames that nobody but `o` maps. */
  ghost function OwnFrames(s: State, o: nat): (r: set<nat>)
  {
    set f: nat | f < |s.kind| && MappedBy(s, o, f) && forall q :: q != o ==> !MappedBy(s, q, f)
  }

  /** What the end of `o` gives back. */
  ghost function Refund(s: State, o: nat): (n: nat)
  {
    |OwnTables(s, o)| + |OwnFrames(s, o)|
  }

  lemma ExitTables(s: State, t: State, o: nat)
    requires ExitDone(s, t, o)
    ensures |t.tables| + |OwnTables(s, o)| == |s.tables|
  {
    var mid :| FreedAll(s, mid, Hw(o)) && FreedAll(mid, t, Sh(o));
    forall k ensures InSubtree(Hw(o), k) || InSubtree(Sh(o), k) <==> k.owner == o {
      UnderTop(k.path);
    }
    assert s.tables.Keys == t.tables.Keys + OwnTables(s, o);
    assert |s.tables| == |s.tables.Keys| && |t.tables| == |t.tables.Keys|;
  }

  lemma InUseBySome(s: State, f: nat)
    requires Base(s)
    ensures Sized(s) && (f in InUse(s) ==> f < |s.kind|) && (f in InUse(s) <==> exists q :: MappedBy(s, q, f))
  {
    hide Base;
    InUseMapped(s, f);
    if f in InUse(s) {
      var o, v :| Depth(v) == 4 && HwLeaf(s, o, v).p && HwLeaf(s, o, v).frame == f;
      assert MappedBy(s, o, f);
    }
  }

  lemma ExitMaps(s: State, t: State, o: nat, q: nat, f: nat)
    requires ExitDone(s, t, o)
    ensures MappedBy(t, q, f) <==> q != o && MappedBy(s, q, f)
  {
    hide FreedAll;
    var mid :| FreedAll(s, mid, Hw(o)) && FreedAll(mid, t, Sh(o));
    ExitLeaves(s, mid, t, o, o);
    if q != o && MappedBy(s, q, f) {
      var v := PageIn(s, q, f);
      assert HwLeaf(t, q, v) == HwLeaf(s, q, v);
    }
    if MappedBy(t, q, f) {
      var v := PageIn(t, q, f);
      assert q != o ==> HwLeaf(t, q, v) == HwLeaf(s, q, v);
    }
  }

  lemma ExitFrames(s: State, t: State, o: nat)
    requires Base(s) && Base(t) && ExitDone(s, t, o)
    ensures Sized(s) && Sized(t) && |InUse(t)| + |OwnFrames(s, o)| == |InUse(s)|
  {
    hide Base, ExitDone, InUse, MappedBy;
    InUseBySome(s, 0);
    InUseBySome(t, 0);
    forall f: nat
      ensures f in InUse(s) <==> f in InUse(t) || f in OwnFrames(s, o)
      ensures f in OwnFrames(s, o) ==> f !in InUse(t)
    {
      InUseBySome(s, f);
      InUseBySome(t, f);
      forall q ensures MappedBy(t, q, f) <==> q != o && MappedBy(s, q, f) {
        ExitMaps(s, t, o, q, f);
      }
    }
    assert InUse(s) == InUse(t) + OwnFrames(s, o);
  }

  lemma ExitRest(s: State, t: State, o: nat)
    requires Sized(s) && Sized(t) && ExitDone(s, t, o)
    ensures Lost(t) == Lost(s) && OfKind(t, Held) == OfKind(s, Held) && t.machine == s.machine
  {
  }

  /** A process that ends gives back its tables and the frames nobody else maps, and not a page more. */
  lemma ExitRefunds(s: State, t: State, o: nat)
    requires Base(s) && Base(t) && ExitDone(s, t, o)
    ensures t.nfree == s.nfree + Refund(s, o)
  {
    hide Base, ExitDone, InUse, Lost, OwnFrames, OwnTables;
    Census(s);
    Census(t);
    ExitTables(s, t, o);
    ExitFrames(s, t, o);
    ExitRest(s, t, o);
  }

  // ---------------------------------------------------------------- U2K and the sole owner

  lemma SplitLoses(s: State, o: nat, v: Path)
    requires Base(s) && s.gone == {} && s.fl != [] && Depth(v) == 4 && HwLeaf(s, o, v).p && ShLeaf(s, o, v).p
    ensures HwLeaf(s, o, v).frame < |s.info|
    ensures var f := HwLeaf(s, o, v).frame;
      forall g: nat :: IsLost(SplitOff(s, o, v), g) <==> IsLost(s, g) || (g == f && s.info[f] == 1)
  {
    hide Base, FreeInv, TreeInv, LeafInv, HeldInv;
    BaseParts(s);
    CowTables(s, o, v);
    FilledKeeps(s, o, v);
    var f := HwLeaf(s, o, v).frame;
    LeafIsRef(s, o, v);
    assert Refs(s, f) == {} <==> |Refs(s, f)| == 0;
  }

  /** U2K drops a reference without looking at the count: of the state it leaves, exactly the frame of a page
      that was split off while its count was 1 is lost. */
  lemma U2KLoses(s: State, t: State, o: nat, v: Path, write: bool)
    requires Base(s) && s.gone == {} && s.fl != [] && Depth(v) == 4 && HwLeaf(s, o, v).p && ShLeaf(s, o, v).p
    requires t == if write && Cow(s, o, v) then SplitOff(s, o, v) else s
    ensures HwLeaf(s, o, v).frame < |s.info|
    ensures var f := HwLeaf(s, o, v).frame;
      forall g: nat :: IsLost(t, g) <==> IsLost(s, g) || (g == f && write && Cow(s, o, v) && s.info[f] == 1)
  {
    hide Base, SplitOff, IsLost;
    SplitLoses(s, o, v);
  }

  /** This happens: when a process has forked and its child is gone, a page it may write and alone maps is still
      without W, and the kernel's next write to it through U2K loses its frame. */
  lemma U2KLosesAfterFork(s0: State, s1: State, t: State, p: nat, c: nat, v: Path)
    requires CanFork(s0, p, c) && ForkDone(s0, s1, p, c) && ExitDone(s1, t, c) && Base(t) && t.gone == {}
    requires Depth(v) == 4 && HwLeaf(s0, p, v).p && ShLeaf(s0, p, v).w && HwLeaf(s0, p, v).frame < |s0.info|
    requires s0.info[HwLeaf(s0, p, v).frame] == 1
    ensures t.fl != [] && Cow(t, p, v) && !IsLost(t, HwLeaf(s0, p, v).frame) && IsLost(SplitOff(t, p, v), HwLeaf(s0, p, v).frame)
  {
    hide Base, Twin, ForkDone, FreedAll, FreeInv, TreeInv, LeafInv, CountInv, HeldInv, GivenUp;
    ForkDoneBase(s0, s1, p, c);
    TwinLeaf(s0, p, v);
    ForkCosts(s0, [s1], [], t, p, c);
    NothingGiven(s0, p, c);
    var mid :| FreedAll(s1, mid, Hw(c)) && FreedAll(mid, t, Sh(c));
    ExitLeaves(s1, mid, t, p, c);
    BaseParts(t);
    FreeNonEmpty(t);
    assert CountRestored(s0, t, p, v);
    SplitLoses(t, p, v);
    LeafIsRef(t, p, v);
  }

  lemma NothingGiven(s0: State, p: nat, c: nat)
    requires Sized(s0)
    ensures GivenUp(s0, [], p, c) == {}
  {
  }

  // ---------------------------------------------------------------- copy, then free

  /** Every frame the source of a copy maps is mapped by some hardware table (of another tree). */
  ghost predicate SourceInUse(s: State, ks: Key)
    requires Sized(s)
  {
    forall v :: Depth(v) == 4 && Leaf(s, ks, v).p ==> Leaf(s, ks, v).frame in InUse(s)
  }

  lemma CopyFreeTables(s: State, t: State, u: State, kd: Key, ks: Key)
    requires kd.path == Top && kd in s.tables && CopyPlace(s, kd, ks) && CopyInv(s, t, kd, ks, 256) && FreedAll(t, u, kd)
    ensures u.tables == s.tables - {kd} && u.machine == s.machine && |u.kind| == |s.kind|
    ensures forall l, j: nat :: Ent(u, l, j) == if SameTree(kd, l) then ZERO else Ent(s, l, j)
  {
    forall l: Key ensures InSubtree(kd, l) <==> SameTree(kd, l) {
      UnderTop(l.path);
    }
    forall l: Key | SameTree(kd, l) && l != kd ensures l !in s.tables {
      UnderTop(l.path);
      assert At(kd, l.path) == l;
    }
    assert u.tables == s.tables - {kd};
  }

  lemma CopyFreeRefs(s: State, t: State, u: State, kd: Key, ks: Key, f: nat)
    requires Base(s) && s.gone == {} && kd.path == Top && kd in s.tables && CopyPlace(s, kd, ks)
    requires CopyInv(s, t, kd, ks, 256) && FreedAll(t, u, kd)
    ensures Refs(u, f) == Refs(s, f)
  {
    hide Base, CopyInv, FreedAll;
    CopyFreeTables(s, t, u, kd, ks);
    forall l: Key | SameTree(kd, l) && l != kd ensures l !in s.tables {
      UnderTop(l.path);
      assert At(kd, l.path) == l;
    }
  }

  lemma CopyFreeKinds(s: State, t: State, u: State, kd: Key, ks: Key, f: nat)
    requires Base(s) && Base(t) && Base(u) && Sized(s) && s.gone == {} && kd.path == Top && kd in s.tables && CopyPlace(s, kd, ks)
    requires CopyInv(s, t, kd, ks, 256) && FreedAll(t, u, kd) && SourceInUse(s, ks) && f < |s.kind|
    ensures |u.kind| == |s.kind| && (UserFrame(u, f) <==> UserFrame(s, f)) && (u.kind[f] == Held <==> s.kind[f] == Held)
    ensures UserFrame(s, f) ==> f < |u.info| && f < |s.info| && u.info[f] == s.info[f]
  {
    hide Base, FreeInv, TreeInv, HeldInv;
    BaseParts(s);
    BaseParts(t);
    BaseParts(u);
    CopyFreeRefs(s, t, u, kd, ks, f);
    CopyApart(s, t, kd, ks);
    if UserFrame(s, f) && !UserFrame(u, f) {
      NoRefs(u, f);
      CopyRefsSource(s, t, kd, ks, f);
    }
  }

  lemma CopyRefsSource(s: State, t: State, kd: Key, ks: Key, f: nat)
    requires Base(s) && Base(t) && Sized(s) && kd.path == Top && CopyPlace(s, kd, ks) && CopyInv(s, t, kd, ks, 256) && SourceInUse(s, ks)
    requires UserFrame(s, f) && Refs(s, f) == {}
    ensures IsLost(s, f) && IsLost(t, f)
  {
    hide Base, FreeInv, TreeInv, HeldInv, LeafInv, InUse, CopyInv;
    BaseParts(s);
    BaseParts(t);
    CopyTranslates(s, t, kd, ks);
    CopyApart(s, t, kd, ks);
    LostIffUnmapped(s, f);
    LostIffUnmapped(t, f);
    InUseMapped(s, f);
    forall o, v | Depth(v) == 4 && HwLeaf(t, o, v).p ensures HwLeaf(t, o, v).frame != f {
      if SameTree(kd, Hw(o)) {
        assert Leaf(t, kd, v) == HwLeaf(t, o, v);
      } else {
        assert HwLeaf(t, o, v) == HwLeaf(s, o, v);
      }
    }
  }

  /** Freeing a copy undoes the copy: the same tables stay, every user frame has its old count, and the
      pages the copy took are free again, its level-4 table with them. */
  lemma CopyFreeRestores(s: State, t: State, u: State, kd: Key, ks: Key)
    requires Base(s) && Base(t) && Base(u) && Sized(s) && s.gone == {} && kd.path == Top && kd in s.tables && CopyPlace(s, kd, ks)
    requires CopyInv(s, t, kd, ks, 256) && FreedAll(t, u, kd) && SourceInUse(s, ks)
    ensures u.tables == s.tables - {kd}
    ensures forall f: nat :: (UserFrame(u, f) <==> UserFrame(s, f))
    ensures forall f: nat :: UserFrame(s, f) ==> f < |u.info| && f < |s.info| && u.info[f] == s.info[f]
    ensures forall f: nat :: f in OfKind(u, Free) <==> f in OfKind(s, Free) || f == s.tables[kd]
  {
    hide Base, FreeInv, LeafInv, CountInv, HeldInv, CopyInv, FreedAll, InUse, CopyPlace;
    CopyFreeTables(s, t, u, kd, ks);
    forall f: nat | f < |s.kind|
      ensures |u.kind| == |s.kind| && (UserFrame(u, f) <==> UserFrame(s, f)) && (u.kind[f] == Held <==> s.kind[f] == Held)
      ensures UserFrame(s, f) ==> f < |u.info| && f < |s.info| && u.info[f] == s.info[f]
    {
      CopyFreeKinds(s, t, u, kd, ks, f);
    }
    CopyFreeFree(s, u, kd);
  }

  lemma CopyFreeFree(s: State, u: State, kd: Key)
    requires Base(s) && Base(u) && u.machine == s.machine && u.tables == s.tables - {kd} && kd in s.tables
    requires forall f: nat :: f < |s.kind| ==> |u.kind| == |s.kind| && (UserFrame(u, f) <==> UserFrame(s, f)) && (u.kind[f] == Held <==> s.kind[f] == Held)
    ensures forall f: nat :: f in OfKind(u, Free) <==> f in OfKind(s, Free) || f == s.tables[kd]
  {
    hide LeafInv, CountInv;
    assert TableOk(s, kd);
    forall k | k in u.tables ensures u.kind[u.tables[k]] == TablePage(k) && s.kind[s.tables[k]] == TablePage(k) {
      assert TableOk(s, k) && TableOk(u, k);
    }
    forall f: nat | f < |s.kind| ensures u.kind[f] == Free <==> s.kind[f] == Free || f == s.tables[kd] {
      assert s.kind[f] == Reserved <==> u.kind[f] == Reserved;
    }
  }
}
