/** Whole runs. What the processes of the simple kernel of DeepCopy see is a function of the history
    of the run alone, and the kernel with shared frames is never away from it. */
module Runs {
  import opened Results
  import opened Words
  import opened Paths
  import opened PageState
  import opened DeepCopy
  import opened Views
  import opened SplitSteps
  import opened ImageSteps
  import opened KernelHalves
  import opened Processes
  import opened Kernels
  import opened Losses
  import Conservation

  /** One step that some process can notice. */
  datatype Step =
    | Created(o: nat, image: seq<(nat, Page)>, end: nat)
    | Forked(parent: nat, child: nat)
    | Wrote(o: nat, va: nat, b: Byte)
    | Grew(o: nat, inc: nat)
    | Executed(o: nat, image: seq<(nat, Page)>, end: nat)
    | Exited(o: nat)

  ghost predicate Allowed(w: World, e: Step)
  {
    match e
    case Created(o, image, end) => o !in w && ImageOk(image) && EndsAt(image, end)
    case Forked(p, c) => p in w && c !in w
    case Wrote(o, va, b) => CanStore(w, o, va) && va < UMAX_ADDRESS
    case Grew(o, inc) => o in w && RoundUp(w[o].brk + inc) < HEAP_LIMIT
    case Executed(o, image, end) => o in w && ImageOk(image) && EndsAt(image, end)
    case Exited(o) => o in w
  }

  ghost function Next(w: World, e: Step): (r: World)
    requires Allowed(w, e)
  {
    match e
    case Created(o, image, end) => w[o := Space(ImagePages(ImageMap(image)), end)]
    case Forked(p, c) => Fork(w, p, c)
    case Wrote(o, va, b) => Store(w, o, va, b)
    case Grew(o, inc) => Grow(w, o, inc)
    case Executed(o, image, end) => w[o := Space(ImagePages(ImageMap(image)), Max(w[o].brk, end))]
    case Exited(o) => Exit(w, o)
  }

  ghost predicate Takes(v: World, e: Step, w: World)
  {
    Allowed(v, e) && w == Next(v, e)
  }

  /** The run `es` is possible and leads from no process at all to `w`. */
  ghost predicate LeadsTo(es: seq<Step>, w: World)
  {
    if es == [] then w == map[]
    else var n := |es| - 1; exists v :: LeadsTo(es[..n], v) && Takes(v, es[n], w)
  }

  lemma LeadsToNext(es: seq<Step>, w: World, e: Step)
    requires LeadsTo(es, w) && Allowed(w, e)
    ensures LeadsTo(es + [e], Next(w, e))
  {
    hide Next;
    var all, n := es + [e], |es|;
    assert all[..n] == es && all[n] == e;
    assert LeadsTo(all[..n], w) && Takes(w, all[n], Next(w, e));
  }

  /** A run leads to one world only. */
  lemma {:induction false} LeadsToOne(es: seq<Step>, w: World, v: World)
    requires LeadsTo(es, w) && LeadsTo(es, v)
    ensures w == v
  {
    if es != [] {
      var n := |es| - 1;
      var w' :| LeadsTo(es[..n], w') && Takes(w', es[n], w);
      var v' :| LeadsTo(es[..n], v') && Takes(v', es[n], v);
      LeadsToOne(es[..n], w', v');
    }
  }

  // ---------------------------------------------------------------- isolation

  /** The process whose memory a step makes or changes. */
  function Target(e: Step): (o: nat)
  {
    if e.Forked? then e.child else e.o
  }

  /** No step of one process changes what another sees, nor whether it lives. */
  lemma StepIsolated(w: World, e: Step, q: nat)
    requires Allowed(w, e) && q != Target(e)
    ensures (q in Next(w, e) <==> q in w) && (q in w ==> Next(w, e)[q] == w[q])
  {
  }

  /** Through any stretch of a run with no step of its own, a process sees what it saw. */
  lemma {:induction false} RunIsolated(es: seq<Step>, i: nat, v: World, w: World, q: nat)
    requires i <= |es| && LeadsTo(es[..i], v) && LeadsTo(es, w)
    requires forall j :: i <= j < |es| ==> Target(es[j]) != q
    ensures (q in w <==> q in v) && (q in v ==> w[q] == v[q])
    decreases |es|
  {
    if i == |es| {
      assert es[..i] == es;
      LeadsToOne(es, v, w);
    } else {
      var n := |es| - 1;
      var u :| LeadsTo(es[..n], u) && Takes(u, es[n], w);
      assert es[..n][..i] == es[..i];
      RunIsolated(es[..n], i, v, u, q);
      StepIsolated(u, es[n], q);
    }
  }

  // ---------------------------------------------------------------- what a byte is

  /** The end of the heap of `o` after the run. */
  ghost function BrkAfter(es: seq<Step>, o: nat): (n: nat)
  {
    if es == [] then 0
    else
      var before := es[..|es| - 1];
      match es[|es| - 1]
      case Created(q, image, end) => if q == o then end else BrkAfter(before, o)
      case Forked(p, c) => BrkAfter(before, if c == o then p else o)
      case Wrote(q, x, b) => BrkAfter(before, o)
      case Grew(q, inc) => if q == o then BrkAfter(before, o) + inc else BrkAfter(before, o)
      case Executed(q, image, end) => if q == o then Max(BrkAfter(before, o), end) else BrkAfter(before, o)
      case Exited(q) => BrkAfter(before, o)
  }

  /** After exec the heap ends where the old one did or where the program does, whichever is further. */
  lemma BrkAfterExec(es: seq<Step>, o: nat, image: seq<(nat, Page)>, end: nat)
    ensures var brk := BrkAfter(es + [Executed(o, image, end)], o);
      brk >= BrkAfter(es, o) && brk >= end && (brk == BrkAfter(es, o) || brk == end)
  {
    assert (es + [Executed(o, image, end)])[..|es|] == es;
  }

  ghost function ImageByte(image: seq<(nat, Page)>, va: nat): (b: Byte)
  {
    if PathOf(va) in ImageMap(image) then ByteAt(ImageMap(image)[PathOf(va)], va % PAGE_SIZE) else 0
  }

  /** The byte of `o` at `va` after the run, from the run alone: what it stored there last, or its
      parent before the fork, or zero if the heap grew over it, or what the program began with. */
  ghost function LastByte(es: seq<Step>, o: nat, va: nat): (b: Byte)
  {
    if es == [] then 0
    else
      var before := es[..|es| - 1];
      match es[|es| - 1]
      case Created(q, image, end) => if q == o then ImageByte(image, va) else LastByte(before, o, va)
      case Forked(p, c) => LastByte(before, if c == o then p else o, va)
      case Wrote(q, x, b) => if q == o && x == va then b else LastByte(before, o, va)
      case Grew(q, inc) =>
        var brk := BrkAfter(before, o);
        if q == o && Within(PathOf(va), RoundUp(brk), RoundUp(brk + inc)) then 0 else LastByte(before, o, va)
      case Executed(q, image, end) => if q == o then ImageByte(image, va) else LastByte(before, o, va)
      case Exited(q) => LastByte(before, o, va)
  }

  ghost predicate SeesLast(es: seq<Step>, w: World, o: nat, va: nat)
  {
    && (o in w ==> w[o].brk == BrkAfter(es, o))
    && (Mapped(w, o, va) ==> Peek(w, o, va) == LastByte(es, o, va))
  }

  lemma SeesLastStore(es: seq<Step>, w: World, q: nat, x: nat, b: Byte, o: nat, va: nat)
    requires CanStore(w, q, x) && x < UMAX_ADDRESS && va < UMAX_ADDRESS && SeesLast(es, w, o, va)
    ensures SeesLast(es + [Wrote(q, x, b)], Store(w, q, x, b), o, va)
  {
    hide PathOf, Peek;
    assert (es + [Wrote(q, x, b)])[..|es|] == es;
    if Mapped(w, o, va) {
      StorePeek(w, q, x, b, o, va);
    }
  }

  lemma SeesLastGrow(es: seq<Step>, w: World, q: nat, inc: nat, o: nat, va: nat)
    requires Allowed(w, Grew(q, inc)) && SeesLast(es, w, o, va)
    ensures SeesLast(es + [Grew(q, inc)], Next(w, Grew(q, inc)), o, va)
  {
    hide PathOf, Within, ByteAt, RoundUp;
    assert (es + [Grew(q, inc)])[..|es|] == es;
    ZeroPageBytes(va % PAGE_SIZE);
  }

  lemma SeesLastOther(es: seq<Step>, w: World, e: Step, o: nat, va: nat)
    requires Allowed(w, e) && !e.Wrote? && !e.Grew?
    requires forall q :: SeesLast(es, w, q, va)
    ensures SeesLast(es + [e], Next(w, e), o, va)
  {
    hide PathOf, ImageMap;
    assert (es + [e])[..|es|] == es;
    assert SeesLast(es, w, o, va);
    if e.Forked? {
      assert SeesLast(es, w, e.parent, va);
    }
  }

  /** In every run of the simple kernel, every byte of every process is the last one stored there. */
  lemma {:induction false} ByteOfRun(es: seq<Step>, w: World, o: nat, va: nat)
    requires LeadsTo(es, w) && va < UMAX_ADDRESS
    ensures SeesLast(es, w, o, va)
    decreases |es|
  {
    hide SeesLast, Next;
    if es == [] {
      NothingSeen(o, va);
    } else {
      var n := |es| - 1;
      var v :| LeadsTo(es[..n], v) && Takes(v, es[n], w);
      forall q ensures SeesLast(es[..n], v, q, va) {
        ByteOfRun(es[..n], v, q, va);
      }
      assert es == es[..n] + [es[n]];
      OneMore(es[..n], v, es[n], o, va);
    }
  }

  lemma NothingSeen(o: nat, va: nat)
    ensures SeesLast([], map[], o, va)
  {
  }

  lemma OneMore(es: seq<Step>, w: World, e: Step, o: nat, va: nat)
    requires Allowed(w, e) && va < UMAX_ADDRESS && forall q :: SeesLast(es, w, q, va)
    ensures SeesLast(es + [e], Next(w, e), o, va)
  {
    hide SeesLast;
    if e.Wrote? {
      SeesLastStore(es, w, e.o, e.va, e.b, o, va);
    } else if e.Grew? {
      SeesLastGrow(es, w, e.o, e.inc, o, va);
    } else {
      SeesLastOther(es, w, e, o, va);
    }
  }

  // ---------------------------------------------------------------- the heap stays clear

  ghost predicate AllClear(w: World)
  {
    forall o :: o in w ==> HeapClear(w[o])
  }

  lemma ClearNext(w: World, e: Step)
    requires Allowed(w, e) && AllClear(w)
    ensures AllClear(Next(w, e))
  {
    hide HeapClear, ImagePages, ImageMap, Store, Grow;
    match e
    case Wrote(o, va, b) =>
      StoreClear(w, o, va, b);
    case Grew(o, inc) =>
      GrownClear(w, o, inc);
    case Created(o, image, end) =>
      EndsClear(image, end, end);
    case Executed(o, image, end) =>
      EndsClear(image, end, Max(w[o].brk, end));
    case _ =>
  }

  lemma StoreClear(w: World, o: nat, va: nat, b: Byte)
    requires CanStore(w, o, va) && HeapClear(w[o])
    ensures Store(w, o, va, b).Keys == w.Keys && HeapClear(Store(w, o, va, b)[o])
    ensures forall q :: q in w && q != o ==> Store(w, o, va, b)[q] == w[q]
  {
  }

  lemma GrownClear(w: World, o: nat, inc: nat)
    requires o in w && HeapClear(w[o]) && RoundUp(w[o].brk + inc) < HEAP_LIMIT
    ensures Grow(w, o, inc).Keys == w.Keys && HeapClear(Grow(w, o, inc)[o])
    ensures forall q :: q in w && q != o ==> Grow(w, o, inc)[q] == w[q]
  {
    GrowClear(w[o], inc);
  }

  // ---------------------------------------------------------------- the kernel stays mapped

  lemma ExitMapped(k: Kernel, s: State, o: nat)
    requires KernelIn(s, k.kspace, {}) && Private(k.kspace) && ExitDone(s, k.m.St(), o)
    ensures k.KernelMapped()
  {
    hide ExitDone, KeepsHalves;
    KeepsExit(s, k.m.St(), o);
    KeptMapped(k, s);
  }

  lemma StoreMapped(k: Kernel, s: State, o: nat, va: nat, b: Byte)
    requires Base(s) && KernelIn(s, k.kspace, {}) && Private(k.kspace) && StoreDone(s, k.m.St(), o, va, b)
    ensures k.KernelMapped()
  {
    hide Base, StoreDone, KeepsHalves;
    KeepsStore(s, k.m.St(), o, va, b);
    KeptMapped(k, s);
  }

  lemma KeptBooks(k: Kernel, s: State, n: nat, lost: set<nat>)
    requires k.Inv() && Books(s, n) && Ledger(s, k.m.St(), lost, {})
    ensures Books(k.m.St(), n + |lost|)
  {
    hide Ledger, Books;
    BooksKept(s, k.m.St(), n, lost);
  }

  // ---------------------------------------------------------------- the machine

  /** The kernel together with the history of the run so far. Every method is one step of the run, so
      what `Inv` says holds after every run of any length. */
  class Computer {
    const k: Kernel
    ghost var history: seq<Step>
    /** How often the kernel has written, through U2K, a page that waited for its split although nobody shared it. */
    ghost var wasted: nat

    ghost predicate Inv()
      reads this, k, k.m
    {
      k.Inv() && LeadsTo(history, k.World()) && AllClear(k.World()) && k.KernelMapped() && Books(k.m.St(), wasted)
    }

    constructor (machine: Machine, contents: seq<Page>, kspace: Page)
      requires MachineOk(machine) && |contents| == machine.count
      requires (exists f: nat :: Usable(machine, f)) && Private(kspace)
      ensures fresh(k) && fresh(k.m) && Inv() && history == [] && wasted == 0
      ensures k.m.machine == machine && k.kspace == kspace && forall f: nat :: f in k.m.fl <==> Usable(machine, f)
    {
      k := new Kernel(machine, contents, kspace);
      history := [];
      wasted := 0;
      new;
      InvParts(k);
      BooksAtBoot(k.m.St());
    }

    /** The step `e` has been taken. */
    ghost method Record(e: Step, w: World)
      requires k.Inv() && LeadsTo(history, w) && Allowed(w, e) && AllClear(w) && k.World() == Next(w, e) && k.KernelMapped()
      requires Books(k.m.St(), wasted)
      modifies this`history
      ensures Inv() && history == old(history) + [e]
    {
      hide Kernel.Inv, Kernel.World, KernelIn, KeepsHalves, Ledger, Books, Next, LeadsTo, HeapClear, ImagePages, ImageMap;
      LeadsToNext(history, w, e);
      ClearNext(w, e);
      history := history + [e];
    }

    method Create(image: seq<(nat, Page)>, end: nat) returns (r: Option<nat>)
      requires Inv() && ImageOk(image) && EndsAt(image, end) && k.m.nfree > 2 + ImageNeed(image)
      modifies this, k, k.m
      ensures Inv() && wasted == old(wasted)
      ensures r.None? <==> forall o :: 0 <= o < NPROCS ==> Live(old(k.procs), o)
      ensures r.None? ==> history == old(history)
      ensures r.Some? ==> history == old(history) + [Created(r.value, image, end)] && k.m.nfree + 2 + ImageNeed(image) == old(k.m.nfree)
    {
      hide Kernel.Inv, Kernel.World, KernelIn, KeepsHalves, Ledger, Books, LeadsTo, HeapClear, ImagePages, ImageMap, ImageNeed, ImageOk, EndsAt, Conservation.Refund;
      ghost var w := k.World();
      WorldKeys(k);
      r := k.CreateProc(image, end);
      KeptBooks(k, old(k.m.St()), wasted, {});
      if r.Some? {
        Record(Created(r.value, image, end), w);
      }
    }

    method Fork(p: nat) returns (c: nat)
      requires Inv() && Live(k.procs, p) && k.m.nfree >= ForkNeed(k.m.St(), p)
      requires exists o :: 0 <= o < NPROCS && !Live(k.procs, o)
      modifies this, k, k.m
      ensures Inv() && history == old(history) + [Forked(p, c)] && wasted == old(wasted)
      ensures CanFork(old(k.m.St()), p, c) && ForkDone(old(k.m.St()), k.m.St(), p, c)
    {
      hide Kernel.Inv, Kernel.World, KernelIn, KeepsHalves, Ledger, Books, LeadsTo, HeapClear, CanFork, ForkDone;
      ghost var w := k.World();
      WorldKeys(k);
      c := k.SysFork(p);
      TidyFork(old(k.m.St()), k.m.St(), p, c);
      KeptBooks(k, old(k.m.St()), wasted, {});
      Record(Forked(p, c), w);
    }

    /** A store instruction; a store that is not allowed kills the process. */
    method Store(o: nat, va: nat, b: Byte) returns (ok: bool)
      requires Inv() && Live(k.procs, o) && va < UMAX_ADDRESS && (k.m.nfree >= 2 || !NeedsPage(k.m.St(), o, PathOf(va)))
      modifies this, k, k.m
      ensures Inv() && (ok <==> CanStore(old(k.World()), o, va)) && wasted == old(wasted)
      ensures history == old(history) + [if ok then Wrote(o, va, b) else Exited(o)]
    {
      hide Kernel.Inv, Kernel.World, KernelIn, KeepsHalves, Ledger, Books, LeadsTo, HeapClear, CanStore, DeepCopy.Store, NeedsPage, StoreDone, ExitDone, Base, Twin;
      ghost var w := k.World();
      InvParts(k);
      WorldKeys(k);
      ok := k.UserStore(o, va, b);
      if ok {
        StoreMapped(k, old(k.m.St()), o, va, b);
        TidyStore(old(k.m.St()), k.m.St(), o, va, b);
        KeptBooks(k, old(k.m.St()), wasted, {});
        Record(Wrote(o, va, b), w);
      } else {
        k.ClearProc(o);
        ExitMapped(k, old(k.m.St()), o);
        TidyExit(old(k.m.St()), k.m.St(), o);
        KeptBooks(k, old(k.m.St()), wasted, {});
        Record(Exited(o), w);
      }
    }

    /** A store by the kernel for a process, through U2K: the one step that can lose a frame. */
    method StoreFor(o: nat, va: nat, b: Byte)
      requires Inv() && Live(k.procs, o) && va < UMAX_ADDRESS && CanStore(k.World(), o, va)
      requires k.m.nfree >= 2 || !Cow(k.m.St(), o, PathOf(va))
      modifies this, k.m
      ensures Inv() && history == old(history) + [Wrote(o, va, b)]
      ensures wasted == old(wasted) + if Wastes(old(k.m.St()), o, PathOf(va)) then 1 else 0
    {
      hide Kernel.Inv, Kernel.World, KernelIn, KeepsHalves, Ledger, Books, LeadsTo, HeapClear, CanStore, DeepCopy.Store, Cow;
      ghost var w := k.World();
      k.KernelStore(o, va, b);
      KeptMapped(k, old(k.m.St()));
      KeptBooks(k, old(k.m.St()), wasted, WastedBy(old(k.m.St()), o, PathOf(va)));
      wasted := wasted + |WastedBy(old(k.m.St()), o, PathOf(va))|;
      Record(Wrote(o, va, b), w);
    }

    method Sbrk(o: nat, inc: nat) returns (r: nat)
      requires Inv() && Live(k.procs, o)
      requires SbrkRefused(k.procs[o].brk, inc, k.m.nfree) || k.m.nfree > SbrkNeed(k.m.St(), o, k.procs[o].brk, inc)
      modifies this, k, k.m
      ensures Inv() && wasted == old(wasted)
      ensures history == old(history) + if SbrkRefused(old(k.procs)[o].brk, inc, old(k.m.nfree)) then [] else [Grew(o, inc)]
    {
      hide Kernel.Inv, Kernel.World, KernelIn, KeepsHalves, Ledger, Books, LeadsTo, HeapClear, DeepCopy.Grow, SbrkNeed;
      ghost var w := k.World();
      WorldKeys(k);
      r := k.SysSbrk(o, inc);
      KeptMapped(k, old(k.m.St()));
      KeptBooks(k, old(k.m.St()), wasted, {});
      if !SbrkRefused(old(k.procs)[o].brk, inc, old(k.m.nfree)) {
        Record(Grew(o, inc), w);
      }
    }

    method Exec(o: nat, image: seq<(nat, Page)>, end: nat)
      requires Inv() && Live(k.procs, o) && ImageOk(image) && EndsAt(image, end)
      requires k.m.nfree + Conservation.Refund(k.m.St(), o) > 2 + ImageNeed(image)
      modifies this, k, k.m
      ensures Inv() && history == old(history) + [Executed(o, image, end)] && wasted == old(wasted)
    {
      hide Kernel.Inv, Kernel.World, KernelIn, KeepsHalves, Ledger, Books, LeadsTo, HeapClear, ImagePages, ImageMap, ImageNeed, ImageOk, EndsAt, Conservation.Refund;
      ghost var w := k.World();
      WorldKeys(k);
      k.SysExec(o, image, end);
      KeptBooks(k, old(k.m.St()), wasted, {});
      Record(Executed(o, image, end), w);
    }

    method Exit(o: nat)
      requires Inv() && Live(k.procs, o)
      modifies this, k, k.m
      ensures Inv() && history == old(history) + [Exited(o)] && wasted == old(wasted) && ExitDone(old(k.m.St()), k.m.St(), o)
    {
      hide Kernel.Inv, Kernel.World, KernelIn, KeepsHalves, Ledger, Books, LeadsTo, HeapClear, ExitDone;
      ghost var w := k.World();
      WorldKeys(k);
      k.ClearProc(o);
      ExitMapped(k, old(k.m.St()), o);
      TidyExit(old(k.m.St()), k.m.St(), o);
      KeptBooks(k, old(k.m.St()), wasted, {});
      Record(Exited(o), w);
    }

    /** A load instruction, after any run: the last byte stored at that address by that process, its
        parent's before the fork, zero in fresh heap, or the program's own. */
    method Load(o: nat, va: nat) returns (r: Option<Byte>)
      requires Inv() && Live(k.procs, o)
      modifies k.m
      ensures Inv() && (r.Some? <==> va < UMAX_ADDRESS && Mapped(k.World(), o, va))
      ensures r.Some? ==> r.value == LastByte(history, o, va)
    {
      hide LeadsTo, HeapClear, WorldOf, Peek, Mapped, Good;
      if va < UMAX_ADDRESS {
        ByteOfRun(history, k.World(), o, va);
      }
      r := k.UserLoad(o, va);
    }
  }

  /** After any run the kernel is mapped in both tables of every process, word for word as in k_pgtbl. */
  lemma KernelAlwaysMapped(c: Computer, o: nat, i: nat)
    requires c.Inv() && Live(c.k.procs, o) && 256 <= i < 512
    ensures c.k.procs[o].pgtbl < |c.k.m.mem| && c.k.m.mem[c.k.procs[o].pgtbl][i] == c.k.kspace[i]
    ensures c.k.procs[o].ppgtbl < |c.k.m.mem| && c.k.m.mem[c.k.procs[o].ppgtbl][i] == c.k.kspace[i]
  {
    hide LeadsTo, Base, Twin, Singles;
    var s := c.k.m.St();
    GoodParts(s, c.k.procs);
    LiveRoots(s, c.k.procs, o);
    BaseTable(s, Hw(o));
    BaseTable(s, Sh(o));
    assert HasHalf(s, c.k.kspace, Hw(o)) && HasHalf(s, c.k.kspace, Sh(o));
    assert Ent(s, Hw(o), i) == c.k.kspace[i] && Ent(s, Sh(o), i) == c.k.kspace[i];
  }

  /** After any run from boot all memory is accounted for: free pages, tables, mapped frames, and one lost frame for
      each wasteful write of the kernel. */
  lemma AllAccounted(c: Computer)
    requires c.Inv()
    ensures Sized(c.k.m.St())
    ensures var s := c.k.m.St();
      s.nfree + |s.tables| + |Conservation.InUse(s)| + c.wasted == |Conservation.UsablePages(s.machine)|
  {
    hide LeadsTo, Base, Twin, Books;
    InvParts(c.k);
    BooksBalance(c.k.m.St(), c.wasted);
  }

  /** When all processes have ended, everything is free again but the frames lost that way. */
  lemma AllReturned(c: Computer)
    requires c.Inv() && forall o :: !Live(c.k.procs, o)
    ensures c.k.m.nfree + c.wasted == |Conservation.UsablePages(c.k.m.machine)|
  {
    hide LeadsTo, Base, Books, Conservation.InUse;
    AllAccounted(c);
    NoProcessNoTable(c.k.m.St(), c.k.procs);
  }
}
