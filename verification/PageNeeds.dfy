/** How many pages it takes to map pages: neighbours share their tables, so a table is paid for once. */
module PageNeeds {
  import opened Words
  import opened Paths
  import opened PageState
  import opened CopySteps
  import opened WalkSteps
  import opened Views

  /** The tables on the way down to the one at `q`, the level-4 table left out. */
  ghost function Way(q: Path): (r: set<Path>)
  {
    if q.Top? then {} else Way(q.up) + {q}
  }

  lemma {:induction false} WayIs(q: Path, r: Path)
    ensures r in Way(q) <==> r.Sub? && Under(r, q)
  {
    if q.Sub? {
      WayIs(q.up, r);
    }
  }

  /** The tables the pages `vs` need between them. */
  ghost function Ways(vs: set<Path>): (r: set<Path>)
  {
    set v, q | v in vs && v.Sub? && q in Way(v.up) :: q
  }

  /** Those of them the tree of `root` does not have yet. */
  ghost function Lacking(s: State, root: Key, vs: set<Path>): (r: set<Path>)
  {
    set q | q in Ways(vs) && At(root, q) !in s.tables
  }

  ghost function LackingTo(s: State, root: Key, q: Path): (r: set<Path>)
  {
    set p | p in Way(q) && At(root, p) !in s.tables
  }

  lemma {:induction false} MissingIs(s: State, root: Key, q: Path)
    ensures Missing(s, root, q) == |LackingTo(s, root, q)|
  {
    if q.Sub? {
      MissingIs(s, root, q.up);
      WayIs(q.up, q);
      assert q !in Way(q.up) by {
        if Under(q, q.up) {
          UnderDepth(q, q.up);
        }
      }
      assert LackingTo(s, root, q) == LackingTo(s, root, q.up) + if At(root, q) in s.tables then {} else {q};
    }
  }

  /** The tree of `root` got the tables on the way to `q`, and no others. */
  ghost predicate Made(s: State, t: State, root: Key, q: Path)
  {
    forall r :: At(root, r) in t.tables <==> At(root, r) in s.tables || r in Way(q)
  }

  /** The tree of `root` has the tables it had. */
  ghost predicate Unextended(s: State, t: State, root: Key)
  {
    forall r :: At(root, r) in t.tables <==> At(root, r) in s.tables
  }

  lemma {:induction false} AllAbove(s: State, root: Key, q: Path, r: Path)
    requires Base(s) && At(root, q) in s.tables && Under(r, q)
    ensures At(root, r) in s.tables
  {
    if r != q {
      assert Linked(s, At(root, q));
      AllAbove(s, root, q.up, r);
    }
  }

  lemma WalkMakes(s: State, root: Key, q: Path)
    requires Base(s) && s.gone == {} && root.path == Top && root in s.tables && UserPath(q) && Depth(q) <= 3
    requires WalkTo(s, root, q, true).1.Found?
    ensures Made(s, WalkTo(s, root, q, true).0, root, q)
  {
    hide Base;
    var t := WalkTo(s, root, q, true).0;
    forall r ensures At(root, r) in t.tables <==> At(root, r) in s.tables || r in Way(q) {
      WayIs(q, r);
      if Under(r, q) {
        AllAbove(t, root, q, r);
        assert At(root, Top) == root;
      } else {
        WalkAdds(s, root, q, true, r);
      }
    }
  }

  lemma UnextendedTables(s: State, t: State, root: Key)
    requires s.tables == t.tables
    ensures Unextended(s, t, root)
  {
  }

  /** Steps before and after that make no table. */
  lemma MadeBetween(s: State, t: State, u: State, w: State, root: Key, q: Path)
    requires s.tables == t.tables && Made(t, u, root, q) && u.tables == w.tables
    ensures Made(s, w, root, q)
  {
  }

  lemma UnextendedBetween(s: State, t: State, u: State, w: State, root: Key)
    requires s.tables == t.tables && Unextended(t, u, root) && u.tables == w.tables
    ensures Unextended(s, w, root)
  {
  }

  lemma GrownElsewhere(s: State, t: State, k: Key, root: Key)
    requires Grown(s, t, k) && (root.owner, root.shadow) != (k.owner, k.shadow)
    ensures Unextended(s, t, root)
  {
  }

  /** One page after another: what a page has paid for, the others need not. */
  lemma LackingStep(s: State, t: State, root: Key, v: Path, vs: set<Path>)
    requires v.Sub? && Made(s, t, root, v.up)
    ensures |Lacking(s, root, vs + {v})| == Missing(s, root, v.up) + |Lacking(t, root, vs)|
  {
    MissingIs(s, root, v.up);
    assert Lacking(s, root, vs + {v}) == LackingTo(s, root, v.up) + Lacking(t, root, vs) by {
      forall q ensures q in Ways(vs + {v}) <==> q in Ways(vs) || q in Way(v.up) {
        WaysMore(vs, v, q);
      }
    }
  }

  lemma WaysMore(vs: set<Path>, v: Path, q: Path)
    requires v.Sub?
    ensures q in Ways(vs + {v}) <==> q in Ways(vs) || q in Way(v.up)
  {
    if q in Way(v.up) {
      assert v in vs + {v};
    }
    if q in Ways(vs) {
      var u :| u in vs && u.Sub? && q in Way(u.up);
      assert u in vs + {v};
    }
  }

  lemma LackingSame(s: State, t: State, root: Key, vs: set<Path>)
    requires Unextended(s, t, root)
    ensures Lacking(t, root, vs) == Lacking(s, root, vs)
  {
  }

  // ---------------------------------------------------------------- growing the heap

  /** The first `n` pages from `va` on. */
  ghost function HeapPages(va: nat, n: int): (vs: set<Path>)
    decreases n
  {
    if n <= 0 then {} else HeapPages(va + PAGE_SIZE, n - 1) + {PathOf(va)}
  }

  /** What mapping `n` pages from `va` on takes: the pages, and the tables missing in both trees. */
  ghost function GrowNeed(s: State, o: nat, va: nat, n: nat): (r: nat)
  {
    n + |Lacking(s, Hw(o), HeapPages(va, n))| + |Lacking(s, Sh(o), HeapPages(va, n))|
  }

  lemma GrowNeedNone(s: State, o: nat, va: nat)
    ensures GrowNeed(s, o, va, 0) == 0
  {
    assert Ways({}) == {};
  }

  /** The state `u` between the two trees and the state `t` behind them. */
  lemma GrowNeedStep(s: State, u: State, t: State, o: nat, va: nat, n: nat)
    requires Made(s, u, Hw(o), PathOf(va).up) && Unextended(s, u, Sh(o))
    requires Made(u, t, Sh(o), PathOf(va).up) && Unextended(u, t, Hw(o))
    ensures GrowNeed(s, o, va, n + 1) ==
      1 + Missing(s, Hw(o), PathOf(va).up) + Missing(u, Sh(o), PathOf(va).up) + GrowNeed(t, o, va + PAGE_SIZE, n)
  {
    hide Made, Unextended, Lacking, Ways, PathOf;
    var v, vs := PathOf(va), HeapPages(va + PAGE_SIZE, n);
    LackingStep(s, u, Hw(o), v, vs);
    LackingSame(u, t, Hw(o), vs);
    LackingSame(s, u, Sh(o), vs + {v});
    LackingStep(u, t, Sh(o), v, vs);
  }

  /** Enough for all is enough for the next. */
  lemma GrowNeedFirst(s: State, o: nat, va: nat, n: nat)
    ensures GrowNeed(s, o, va, n + 1) >= 1 + Missing(s, Hw(o), PathOf(va).up) + Missing(s, Sh(o), PathOf(va).up)
  {
    LackingAtLeast(s, Hw(o), PathOf(va), HeapPages(va, n + 1));
    LackingAtLeast(s, Sh(o), PathOf(va), HeapPages(va, n + 1));
  }

  lemma LackingAtLeast(s: State, root: Key, v: Path, vs: set<Path>)
    requires v in vs && v.Sub?
    ensures |Lacking(s, root, vs)| >= Missing(s, root, v.up)
  {
    MissingIs(s, root, v.up);
    SubsetSize(LackingTo(s, root, v.up), Lacking(s, root, vs));
  }

  lemma SubsetSize<T>(a: set<T>, b: set<T>)
    requires a <= b
    ensures |a| <= |b|
  {
    assert b == a + (b - a);
  }

  lemma MissingSame(s: State, t: State, root: Key, q: Path)
    requires Unextended(s, t, root)
    ensures Missing(t, root, q) == Missing(s, root, q)
  {
    MissingIs(s, root, q);
    MissingIs(t, root, q);
    assert LackingTo(s, root, q) == LackingTo(t, root, q);
  }

  // ---------------------------------------------------------------- loading a program

  /** What loading pages at `vs` into two empty trees takes: the pages, and their tables twice. */
  ghost function LoadNeed(vs: set<Path>): (n: nat)
  {
    |vs| + 2 * |Ways(vs)|
  }

  lemma {:induction false} PathsOfKeys(root: Key, ks: set<Key>)
    requires forall l :: l in ks ==> l == At(root, l.path)
    ensures |set l | l in ks :: l.path| == |ks|
    decreases |ks|
  {
    if ks != {} {
      var k :| k in ks;
      PathsOfKeys(root, ks - {k});
      assert (set l | l in ks :: l.path) == (set l | l in ks - {k} :: l.path) + {k.path};
    }
  }

  /** The tree of `root` consists of its level-4 table and the tables of `vs`. */
  ghost predicate TreeOf(s: State, root: Key, vs: set<Path>)
  {
    forall q :: At(root, q) in s.tables <==> q == Top || q in Ways(vs)
  }

  lemma BelowIsWays(s: State, root: Key, vs: set<Path>)
    requires TreeOf(s, root, vs) && root.path == Top && forall q :: q in Ways(vs) ==> q.Sub?
    ensures |Below(s, root)| == |Ways(vs)|
  {
    var ks := Below(s, root);
    PathsOfKeys(root, ks);
    assert (set l | l in ks :: l.path) == Ways(vs) by {
      forall q | q in Ways(vs) ensures q in (set l | l in ks :: l.path) {
        UnderTop(q);
        assert At(root, q) in ks;
      }
    }
  }

  lemma EmptyTreeOf(s: State, root: Key)
    requires root.path == Top && root in s.tables && Below(s, root) == {}
    ensures TreeOf(s, root, {})
  {
    forall q ensures At(root, q) in s.tables <==> q == Top || q in Ways({}) {
      UnderTop(q);
      assert At(root, Top) == root;
      assert At(root, q) in s.tables && q != Top ==> At(root, q) in Below(s, root);
    }
  }

  lemma WaysBelow(vs: set<Path>)
    ensures forall q :: q in Ways(vs) ==> q.Sub?
  {
    forall q | q in Ways(vs) ensures q.Sub? {
      var v :| v in vs && v.Sub? && q in Way(v.up);
      WayIs(v.up, q);
    }
  }

  lemma TreeOfNext(s: State, t: State, root: Key, vs: set<Path>, v: Path)
    requires TreeOf(s, root, vs) && v.Sub? && Made(s, t, root, v.up)
    ensures TreeOf(t, root, vs + {v})
  {
    forall q ensures At(root, q) in t.tables <==> q == Top || q in Ways(vs + {v}) {
      WaysMore(vs, v, q);
    }
  }

  lemma TreeOfSame(s: State, t: State, root: Key, vs: set<Path>)
    requires TreeOf(s, root, vs) && t.tables == s.tables
    ensures TreeOf(t, root, vs)
  {
  }

  lemma WaysMonotone(vs: set<Path>, ws: set<Path>)
    requires vs <= ws
    ensures Ways(vs) <= Ways(ws) && |Ways(vs)| <= |Ways(ws)|
  {
    forall q | q in Ways(vs) ensures q in Ways(ws) {
      var v :| v in vs && v.Sub? && q in Way(v.up);
      assert v in ws;
    }
    SubsetSize(Ways(vs), Ways(ws));
  }

  /** The tables a page still lacks are among those of the pages not yet loaded. */
  lemma TreeOfRoom(s: State, root: Key, vs: set<Path>, v: Path, ws: set<Path>)
    requires TreeOf(s, root, vs) && v.Sub? && vs + {v} <= ws
    ensures |Ways(vs)| + Missing(s, root, v.up) <= |Ways(ws)|
  {
    MissingIs(s, root, v.up);
    var a, b := Ways(vs), LackingTo(s, root, v.up);
    assert a !! b;
    forall q | q in a + b ensures q in Ways(ws) {
      WaysMore(vs, v, q);
      WaysMonotone(vs + {v}, ws);
    }
    SubsetSize(a + b, Ways(ws));
    assert |a + b| == |a| + |b|;
  }
}
