/** The life of a child on the kernel itself: a fork, stores of parent and child, and the child's end. */
module Lifetimes {
  import opened Words
  import opened Paths
  import opened PageState
  import opened DeepCopy
  import opened Views
  import opened Processes
  import opened Kernels
  import opened Conservation

  /** A store instruction of the parent or of the child. */
  datatype Write = Write(parent: bool, va: nat, b: Byte)

  /** The store goes to a page the parent shared with a third process before the fork. */
  ghost predicate HitsShared(s0: State, p: nat, c: nat, w: Write)
  {
    w.parent && Elsewhere(s0, p, c, HwLeaf(s0, p, PathOf(w.va)).frame)
  }

  /** A successful store is one or two acts of a run. */
  lemma StoreActs(ss: seq<State>, acts: seq<Act>, t: State, p: nat, c: nat, o: nat, va: nat, b: Byte)
    returns (ss': seq<State>, acts': seq<Act>)
    requires |ss| == |acts| + 1 && IsRun(ss, acts, p, c) && (o == p || o == c) && StoreDone(ss[|acts|], t, o, va, b)
    ensures IsRun(ss', acts', p, c) && |ss'| == |acts'| + 1 && ss'[0] == ss[0] && ss'[|acts'|] == t && acts <= acts'
    ensures forall a :: a in acts' && a.Fault? ==> a in acts || a == Fault(o, PathOf(va))
  {
    hide FaultStep, PutStep, StoreByte, IsRun;
    var s, v := ss[|acts|], PathOf(va);
    if HwLeaf(s, o, v).w {
      ss', acts' := OneAct(ss, acts, t, p, c, ByteAct(s, o, va, b));
    } else {
      var mid :| FaultStep(s, mid, o, v) && ByteStep(mid, t, o, va, b);
      ss', acts' := OneAct(ss, acts, mid, p, c, Fault(o, v));
      ss', acts' := OneAct(ss', acts', t, p, c, ByteAct(mid, o, va, b));
    }
  }

  ghost function ByteAct(s: State, o: nat, va: nat, b: Byte): (a: Act)
    requires HwLeaf(s, o, PathOf(va)).frame < |s.mem|
  {
    Put(o, PathOf(va), StoreByte(s.mem[HwLeaf(s, o, PathOf(va)).frame], va % PAGE_SIZE, b))
  }

  lemma OneAct(ss: seq<State>, acts: seq<Act>, t: State, p: nat, c: nat, a: Act) returns (ss': seq<State>, acts': seq<Act>)
    requires IsRun(ss, acts, p, c) && ActStep(ss[|acts|], t, a, p, c)
    ensures |ss'| == |acts'| + 1 && ss' == ss + [t] && acts' == acts + [a] && IsRun(ss', acts', p, c)
  {
    hide ActStep;
    ss', acts' := ss + [t], acts + [a];
  }

  /** After a store of the parent the page is nobody else's. */
  lemma StoredAlone(s: State, t: State, p: nat, c: nat, va: nat, b: Byte)
    requires Base(s) && Base(t) && Twin(t) && StoreDone(s, t, p, va, b)
    ensures Depth(PathOf(va)) == 4 && HwLeaf(t, p, PathOf(va)).p && !Elsewhere(t, p, c, HwLeaf(t, p, PathOf(va)).frame)
  {
    hide Base, FaultStep, Elsewhere, Twin;
    var v := PathOf(va);
    if HwLeaf(s, p, v).w {
      ByteLeaves(s, t, p, va, b);
    } else {
      var mid :| FaultStep(s, mid, p, v) && ByteStep(mid, t, p, va, b);
      FaultLeaves(s, mid, p, v);
      ByteLeaves(mid, t, p, va, b);
    }
    OnlyOwner(t, p, c, v);
  }

  lemma ByteLeaves(s: State, t: State, o: nat, va: nat, b: Byte)
    requires Base(s) && ByteStep(s, t, o, va, b)
    ensures Depth(PathOf(va)) == 4 && HwLeaf(t, o, PathOf(va)).p && HwLeaf(t, o, PathOf(va)).w
  {
    hide Base;
    PutLeaves(s, t, o, PathOf(va), StoreByte(s.mem[HwLeaf(s, o, PathOf(va)).frame], va % PAGE_SIZE, b));
  }

  lemma OnlyOwner(s: State, p: nat, c: nat, v: Path)
    requires Base(s) && Twin(s) && Depth(v) == 4 && HwLeaf(s, p, v).p && HwLeaf(s, p, v).w
    ensures !Elsewhere(s, p, c, HwLeaf(s, p, v).frame)
  {
    hide Base;
    assert TwinAt(s, p, v);
    LeafIsRef(s, p, v);
    FrameInMemory(s, HwLeaf(s, p, v).frame);
    forall q, u | Depth(u) == 4 && HwLeaf(s, q, u).p && HwLeaf(s, q, u).frame == HwLeaf(s, p, v).frame ensures q == p {
      SoleOwner(s, p, v, q, u);
    }
  }

  /** A store of the parent to a page it shared with a third process leaves a fault in the run. */
  lemma StoreFaults(s0: State, ss: seq<State>, acts: seq<Act>, t: State, ss': seq<State>, acts': seq<Act>, p: nat, c: nat, va: nat, b: Byte)
    requires IsRun(ss', acts', p, c) && ss'[|acts'|] == t && CanFork(s0, p, c) && ForkDone(s0, ss'[0], p, c)
    requires |acts| < |ss| && Base(ss[|acts|]) && Base(t) && Twin(t) && StoreDone(ss[|acts|], t, p, va, b)
    requires Elsewhere(s0, p, c, HwLeaf(s0, p, PathOf(va)).frame)
    ensures Fault(p, PathOf(va)) in acts'
  {
    hide Base, Twin, ForkDone, CanFork, StoreDone, Elsewhere, Drift, Along, ActStep, OneToOne;
    var v := PathOf(va);
    StoredAlone(ss[|acts|], t, p, c, va, b);
    ForkDoneBase(s0, ss'[0], p, c);
    ForkDrift(s0, ss'[0], p, c);
    DriftRun(s0, ss', acts', p, c);
    DriftAlong(s0, t, p, c);
    AlongLeaves(s0, t, p, c);
    SameElsewhere(s0, t, p, c, HwLeaf(s0, p, v).frame);
    ForkStays(s0, ss'[0], p, c, v);
    StayedIff(s0, ss', acts', p, c, v);
  }

  /** What may be stored to does not change by storing. */
  lemma StoreKeepsRights(w: World, o: nat, va: nat, b: Byte, q: nat, x: nat)
    requires CanStore(w, o, va)
    ensures CanStore(Store(w, o, va, b), q, x) <==> CanStore(w, q, x)
  {
  }

  ghost predicate MayWrite(w: World, o: nat, ws: seq<Write>)
  {
    forall i :: 0 <= i < |ws| ==> ws[i].va < UMAX_ADDRESS && CanStore(w, o, ws[i].va)
  }

  lemma MayWriteKept(w: World, o: nat, va: nat, b: Byte, q: nat, ws: seq<Write>)
    requires CanStore(w, o, va) && MayWrite(w, q, ws)
    ensures MayWrite(Store(w, o, va, b), q, ws)
  {
    hide Store;
    forall i | 0 <= i < |ws| ensures CanStore(Store(w, o, va, b), q, ws[i].va) {
      StoreKeepsRights(w, o, va, b, q, ws[i].va);
    }
  }

  lemma MayWriteForked(w: World, p: nat, c: nat, ws: seq<Write>)
    requires p in w && MayWrite(w, p, ws) && p != c
    ensures MayWrite(Fork(w, p, c), p, ws) && MayWrite(Fork(w, p, c), c, ws)
  {
  }

  /** The faults of the parent in `acts` come from the stores `ws`, and every store of the parent to a page
      shared with a third process left one. */
  ghost predicate Explains(s0: State, acts: seq<Act>, p: nat, c: nat, ws: seq<Write>)
  {
    && (forall w :: w in ws && HitsShared(s0, p, c, w) ==> Fault(p, PathOf(w.va)) in acts)
    && (forall a :: a in acts && a.Fault? && a.o == p ==> exists w :: w in ws && w.parent && PathOf(w.va) == a.v)
  }

  lemma ExplainsNext(s0: State, acts: seq<Act>, acts': seq<Act>, p: nat, c: nat, ws: seq<Write>, w: Write)
    requires Explains(s0, acts, p, c, ws) && acts <= acts' && p != c
    requires forall a :: a in acts' && a.Fault? ==> a in acts || a == Fault(if w.parent then p else c, PathOf(w.va))
    requires HitsShared(s0, p, c, w) ==> Fault(p, PathOf(w.va)) in acts'
    ensures Explains(s0, acts', p, c, ws + [w])
  {
    hide Elsewhere;
    assert w in ws + [w];
    forall a | a in acts' && a.Fault? && a.o == p ensures exists x :: x in ws + [w] && x.parent && PathOf(x.va) == a.v {
      if a in acts {
        var x :| x in ws && x.parent && PathOf(x.va) == a.v;
        assert x in ws + [w];
      }
    }
  }

  lemma ExplainsShared(s0: State, acts: seq<Act>, p: nat, c: nat, ws: seq<Write>)
    requires Explains(s0, acts, p, c, ws)
    ensures (forall i :: 0 <= i < |acts| ==> !AtShared(s0, acts[i], p, c)) <==> (forall w :: w in ws ==> !HitsShared(s0, p, c, w))
  {
    hide Elsewhere;
    if i :| 0 <= i < |acts| && AtShared(s0, acts[i], p, c) {
      var w :| w in ws && w.parent && PathOf(w.va) == acts[i].v;
      assert HitsShared(s0, p, c, w);
    }
    if w :| w in ws && HitsShared(s0, p, c, w) {
      var i :| 0 <= i < |acts| && acts[i] == Fault(p, PathOf(w.va));
      assert AtShared(s0, acts[i], p, c);
    }
  }

  /** What holds between the fork and the child's end, after the stores `ws`. */
  ghost predicate Living(s0: State, s: State, ss: seq<State>, acts: seq<Act>, p: nat, c: nat, ws: seq<Write>)
  {
    && |ss| == |acts| + 1 && IsRun(ss, acts, p, c) && CanFork(s0, p, c) && ForkDone(s0, ss[0], p, c) && ss[|acts|] == s
    && Explains(s0, acts, p, c, ws)
  }

  lemma LivingStart(s0: State, s: State, p: nat, c: nat)
    requires CanFork(s0, p, c) && ForkDone(s0, s, p, c)
    ensures p != c && s.nfree + ForkNeed(s0, p) == s0.nfree + 1 && Living(s0, s, [s], [], p, c, [])
  {
  }

  lemma LivingNext(s0: State, s: State, t: State, ss: seq<State>, acts: seq<Act>, p: nat, c: nat, ws: seq<Write>, w: Write)
    returns (ss': seq<State>, acts': seq<Act>)
    requires Living(s0, s, ss, acts, p, c, ws) && Base(s) && Base(t) && Twin(t) && p != c
    requires StoreDone(s, t, if w.parent then p else c, w.va, w.b)
    ensures Living(s0, t, ss', acts', p, c, ws + [w])
  {
    hide Base, Twin, CanFork, ForkDone, StoreDone, IsRun, Explains, Elsewhere;
    ss', acts' := StoreActs(ss, acts, t, p, c, if w.parent then p else c, w.va, w.b);
    if HitsShared(s0, p, c, w) {
      StoreFaults(s0, ss, acts, t, ss', acts', p, c, w.va, w.b);
    }
    ExplainsNext(s0, acts, acts', p, c, ws, w);
  }

  /** The free pages when the child is gone. */
  lemma LivingEnd(s0: State, s: State, t: State, ss: seq<State>, acts: seq<Act>, p: nat, c: nat, ws: seq<Write>)
    requires Living(s0, s, ss, acts, p, c, ws) && ExitDone(s, t, c) && Base(t)
    ensures t.nfree == s0.nfree <==> forall w :: w in ws ==> !HitsShared(s0, p, c, w)
  {
    hide Base, CanFork, ForkDone, IsRun, Explains, ExitDone, HitsShared;
    ForkIsRepaid(s0, ss, acts, t, p, c);
    ExplainsShared(s0, acts, p, c, ws);
  }

  /** One store of the parent or the child. */
  method StoreOne(k: Kernel, p: nat, c: nat, w: Write, ghost ws: seq<Write>)
    requires k.Inv() && p in k.World() && c in k.World() && k.m.nfree >= 2 && w in ws
    requires MayWrite(k.World(), p, ws) && MayWrite(k.World(), c, ws)
    modifies k.m
    ensures k.Inv() && p in k.World() && c in k.World() && k.m.nfree >= old(k.m.nfree) - 1
    ensures MayWrite(k.World(), p, ws) && MayWrite(k.World(), c, ws)
    ensures StoreDone(old(k.m.St()), k.m.St(), if w.parent then p else c, w.va, w.b)
  {
    hide Kernel.Inv, Kernel.World, StoreDone, MayWrite;
    ghost var o := if w.parent then p else c;
    ghost var before := k.World();
    MayWriteAt(before, o, ws, w);
    WorldKeys(k);
    var ok := k.UserStore(if w.parent then p else c, w.va, w.b);
    MayWriteKept(before, o, w.va, w.b, p, ws);
    MayWriteKept(before, o, w.va, w.b, c, ws);
  }

  /** A process forks, it and its child store bytes in any order, and the child ends. The free pages are as many
      as before exactly if no store of the parent went to a page it already shared with a third process. */
  method ForkAndReap(k: Kernel, p: nat, ws: seq<Write>) returns (c: nat)
    requires k.Inv() && Live(k.procs, p) && k.m.nfree >= ForkNeed(k.m.St(), p) + |ws|
    requires exists o :: 0 <= o < NPROCS && !Live(k.procs, o)
    requires MayWrite(k.World(), p, ws)
    modifies k, k.m
    ensures k.Inv() && c < NPROCS && !Live(old(k.procs), c)
    ensures k.m.nfree == old(k.m.nfree) <==> forall w :: w in ws ==> !HitsShared(old(k.m.St()), p, c, w)
  {
    hide Kernel.Inv, Kernel.World, ForkDone, CanFork, StoreDone, HitsShared, MayWrite, ExitDone, Living;
    ghost var s0, w0 := k.m.St(), k.World();
    WorldKeys(k);
    c := k.SysFork(p);
    LivingStart(s0, k.m.St(), p, c);
    MayWriteForked(w0, p, c, ws);
    ghost var ss, acts := [k.m.St()], [];
    var i := 0;
    while i < |ws|
      invariant 0 <= i <= |ws| && k.Inv() && p in k.World() && c in k.World() && k.m.nfree > |ws| - i
      invariant Living(s0, k.m.St(), ss, acts, p, c, ws[..i])
      invariant MayWrite(k.World(), p, ws) && MayWrite(k.World(), c, ws)
    {
      ghost var s := k.m.St();
      InvParts(k);
      StoreOne(k, p, c, ws[i], ws);
      InvParts(k);
      ss, acts := LivingNext(s0, s, k.m.St(), ss, acts, p, c, ws[..i], ws[i]);
      assert ws[..i + 1] == ws[..i] + [ws[i]];
      i := i + 1;
    }
    assert ws[..i] == ws;
    ghost var s := k.m.St();
    WorldKeys(k);
    k.ClearProc(c);
    InvParts(k);
    LivingEnd(s0, s, k.m.St(), ss, acts, p, c, ws);
  }

  lemma MayWriteAt(w: World, o: nat, ws: seq<Write>, x: Write)
    requires MayWrite(w, o, ws) && x in ws
    ensures x.va < UMAX_ADDRESS && CanStore(w, o, x.va)
  {
  }
}
