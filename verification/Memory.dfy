/** kernel/mem.c: the page allocator and the operations on page tables, on physical memory. */
module PhysicalMemory {
  import opened Results
  import opened Words
  import opened Paths
  import opened PageState
  import opened ReleaseSteps
  import opened CopySteps
  import opened WalkSteps
  import opened CopyLoop
  import opened ClearLoop
  import opened FreeLoop
  import opened Boot
  import opened Views
  import opened SplitSteps
  import opened KernelHalves

  class Memory {
    const machine: Machine
    var mem: seq<Page>
    var info: seq<int>
    var head: int
    var nfree: nat
    ghost var fl: seq<nat>
    ghost var tables: map<Key, nat>
    ghost var gone: set<(Key, nat)>
    ghost var kind: seq<Kind>

    ghost function St(): (s: State)
      reads this
    {
      State(machine, mem, info, head, nfree, fl, tables, gone, kind)
    }

    /** The descriptors as init_kpageinfo leaves them: every word 0. */
    constructor (m: Machine, contents: seq<Page>)
      requires MachineOk(m) && |contents| == m.count
      requires exists f: nat :: Usable(m, f)
      ensures machine == m && mem == contents && Base(St())
      ensures tables == map[] && gone == {} && Held !in kind
      ensures forall f: nat :: f in fl <==> Usable(m, f)
    {
      machine := m;
      mem := contents;
      info := seq(m.count, _ => 0);
      head := 0;
      nfree := 0;
      fl := [];
      tables := map[];
      gone := {};
      kind := seq(m.count, _ => Reserved);
      new;
      InitFreePages();
    }

    /** init_freepages. The count and the link of a page share a word, so the pages the kernel keeps
        end with the word 0, not 1: the link is cleared after the count is set. */
    method InitFreePages()
      requires Sized(St()) && fl == [] && nfree == 0 && head == 0 && tables == map[] && gone == {}
      requires forall f :: 0 <= f < |kind| ==> kind[f] == Reserved
      requires exists f: nat :: Usable(machine, f)
      modifies this
      ensures mem == old(mem) && tables == map[] && gone == {}
      ensures Base(St()) && Held !in kind && forall f: nat :: f in fl <==> Usable(machine, f)
    {
      hide Base, Building;
      BuildStart(St());
      var last: int := -1;
      var f := 0;
      while f < machine.count
        invariant 0 <= f <= machine.count && Building(St(), f) && last == Last(fl)
        invariant mem == old(mem) && tables == map[] && gone == {}
      {
        ghost var s := St();
        BuildStep(s, f);
        BuildBounds(s, f);
        if machine.address[f] < machine.kernelEnd {
          info := info[f := 1];
          info := info[f := 0];
        } else {
          if last >= 0 {
            info := info[last := Pointer(machine, f)];
          } else {
            head := Pointer(machine, f);
          }
          last := f;
          nfree := nfree + 1;
          fl := fl + [f];
          kind := kind[f := Free];
        }
        assert St() == Build(s, f);
        f := f + 1;
      }
      BuildDone(St());
      BuildBounds(St(), f);
      info := info[last := 0];
    }

    /** alloc_page. With a single page left the source follows the NULL link of that page, so
        one page is never handed out. */
    method AllocPage(zero: bool) returns (r: Option<nat>)
      requires Sized(St()) && FreeInv(St()) && nfree != 1
      modifies this
      ensures old(nfree) == 0 ==> r == None && St() == old(St())
      ensures old(nfree) >= 2 ==> r == Some(old(fl)[0]) && St() == Pop(old(St()), zero)
    {
      HeadNull(St());
      if head == 0 {
        return None;
      }
      assert Listed(St(), 0) && Listed(St(), 1);
      PointerFacts(machine, fl[0]);
      PointerFacts(machine, fl[1]);
      var f := PointerIndex(machine, head);
      head := info[f];
      assert machine.address[PointerIndex(machine, head)] <= machine.count * PAGE_SIZE;
      if zero {
        mem := mem[f := ZeroPage()];
      }
      info := info[f := 1];
      nfree := nfree - 1;
      fl := fl[1..];
      kind := kind[f := Held];
      return Some(f);
    }

    /** free_page. The three panics leave the state alone. */
    method FreePage(f: nat) returns (panic: bool)
      requires Sized(St()) && FreeInv(St()) && f < machine.count
      modifies this
      ensures panic <==> !Usable(machine, f) || old(info)[f] <= 0
      ensures panic ==> St() == old(St())
      ensures !panic ==> St() == Drop(old(St()), f)
    {
      if machine.address[f] < machine.kernelEnd {
        return true;
      }
      if machine.address[f] >= machine.count * PAGE_SIZE {
        return true;
      }
      if info[f] <= 0 {
        return true;
      }
      info := info[f := info[f] - 1];
      if info[f] == 0 {
        info := info[f := head];
        head := Pointer(machine, f);
        nfree := nfree + 1;
        fl := [f] + fl;
        kind := kind[f := Free];
      }
      return false;
    }

    /** A page on the free list cannot be freed again: its link is not a positive count. */
    method FreeListedPage(f: nat) returns (panic: bool)
      requires Sized(St()) && FreeInv(St()) && f in fl
      modifies this
      ensures panic && St() == old(St())
    {
      ListedNotPositive(St(), f);
      panic := FreePage(f);
    }

    /** A zeroed page is allocated and entry `i` of table `t` points at it, with all permissions. */
    method HangTable(t: nat, i: nat, ghost k: Key) returns (r: Option<nat>)
      requires Sized(St()) && FreeInv(St()) && nfree != 1
      requires k in tables && tables[k] == t < machine.count && i < 512
      modifies this
      ensures old(nfree) == 0 ==> r == None && St() == old(St())
      ensures old(nfree) >= 2 ==> r == Some(old(fl)[0]) && St() == NewTable(old(St()), k, i)
      ensures r.Some? ==> |mem| == machine.count && mem[t][i].frame == r.value
    {
      r := AllocPage(true);
      if r.Some? {
        var f := r.value;
        assert Listed(old(St()), 0);
        mem := mem[t := mem[t][i := FullEntry(f)]];
        tables := tables[Child(k, i) := f];
        kind := kind[f := TablePage(Child(k, i))];
      }
    }

    /** One level of walk_pgtbl: the table behind entry `i` of table `t`, made on request. */
    method NextTable(t: nat, i: nat, create: bool, ghost k: Key) returns (r: Walked)
      requires Base(St()) && gone == {} && k in tables && tables[k] == t && Depth(k.path) < 3 && i < Fan(k.path)
      requires create && Child(k, i) !in tables ==> nfree != 1
      modifies this
      ensures TableOk(old(St()), k) && (St(), r) == Step(old(St()), k, i, create)
    {
      assert TableOk(St(), k) && EntryOk(St(), k, i);
      assert Child(k, i) in tables ==> Linked(St(), Child(k, i));
      assert !HugeFlag(mem[t][i]);
      if !mem[t][i].p {
        if !create {
          return Unmapped;
        }
        var page := HangTable(t, i, k);
        if page.None? {
          return NoMemory;
        }
      }
      return Found(mem[t][i].frame);
    }

    /** walk_pgtbl: the last-level table for `va` in the tree at `root`. */
    method WalkPgtbl(root: nat, va: nat, create: bool, ghost k: Key) returns (r: Walked)
      requires Base(St()) && gone == {} && k.path == Top && k in tables && tables[k] == root && va < UMAX_ADDRESS
      requires create ==> nfree == 0 || nfree > Missing(St(), k, PathOf(va).up)
      modifies this
      ensures Depth(PathOf(va).up) == 3 && (St(), r) == WalkTo(old(St()), k, PathOf(va).up, create)
    {
      hide Base, NewTable;
      Unfold4(PathOf(va));
      ghost var s := St();
      ghost var q3 := PathOf(va).up;
      ghost var q2 := q3.up;
      ghost var q1 := q2.up;
      assert UserPath(q2) && Depth(q2) == 2 && UserPath(q1) && Depth(q1) == 1;
      if create {
        WalkHasPage(s, k, q1);
        WalkHasPage(s, k, q2);
        WalkHasPage(s, k, q3);
      }
      assert (s, Found(root)) == WalkTo(s, k, q1.up, create);
      r := NextTable(root, Pml4Index(va), create, k);
      assert (St(), r) == WalkTo(s, k, q1, create);
      if !r.Found? {
        return;
      }
      r := NextTable(r.table, PdptIndex(va), create, At(k, q1));
      assert (St(), r) == WalkTo(s, k, q2, create);
      if !r.Found? {
        return;
      }
      r := NextTable(r.table, PdIndex(va), create, At(k, q2));
    }

    /** The loops of copy_pgtbl, one level per call: table `src` is copied into the fresh table `dst`.
        With `count` (CPY_PGTBL_CNTREF) every frame mapped by the copy gains a reference. */
    method CopyLevel(dst: nat, src: nat, level: nat, count: bool, ghost kd: Key, ghost ks: Key)
      requires Base(St()) && CopyReady(St(), kd, ks, count)
      requires tables[kd] == dst && tables[ks] == src && 1 <= level && level + Depth(kd.path) == 4
      modifies this
      ensures Base(St()) && CopyInv(old(St()), St(), kd, ks, Fan(kd.path))
      ensures nfree + |Below(old(St()), ks)| == old(nfree)
      decreases level
    {
      hide Base, CopyInv, CopyReady;
      ghost var s := St();
      CopyStart(s, kd, ks, count);
      var i := 0;
      while i < if level == 4 then 256 else 512
        invariant 0 <= i <= Fan(kd.path)
        invariant Base(St()) && CopyInv(s, St(), kd, ks, i)
      {
        CopySource(s, St(), kd, ks, count, i, i);
        if !mem[src][i].p {
          CopySkip(s, St(), kd, ks, count, i);
        } else if level == 1 {
          CopyEntry(dst, src, i, count, s, kd, ks);
        } else {
          CopyChild(dst, src, i, level, count, s, kd, ks);
        }
        i := i + 1;
      }
      CopyFinish(s, St(), kd, ks);
    }

    /** One present last-level entry of copy_pgtbl. */
    method CopyEntry(dst: nat, src: nat, i: nat, count: bool, ghost s: State, ghost kd: Key, ghost ks: Key)
      requires Base(s) && CopyReady(s, kd, ks, count) && Base(St()) && CopyInv(s, St(), kd, ks, i)
      requires s.tables[kd] == dst && s.tables[ks] == src && Depth(kd.path) == 3 && i < 512
      requires src < |mem| && mem[src][i].p && dst < |mem|
      modifies this
      ensures Base(St()) && CopyInv(s, St(), kd, ks, i + 1)
    {
      hide Base, Outside, CopiedTables, CopiedLeaves;
      ghost var t := St();
      CopySource(s, t, kd, ks, count, i, i);
      EntryCopiedKeeps(s, t, kd, ks, i, count);
      EntryCopiedInv(s, t, kd, ks, i, count);
      var w := mem[src][i];
      mem := mem[dst := mem[dst][i := w]];
      if count {
        info := info[w.frame := info[w.frame] + 1];
      }
      assert St() == EntryCopied(t, kd, i, w, count);
    }

    /** One present upper-level entry of copy_pgtbl. */
    method CopyChild(dst: nat, src: nat, i: nat, level: nat, count: bool, ghost s: State, ghost kd: Key, ghost ks: Key)
      requires Base(s) && CopyReady(s, kd, ks, count) && Base(St()) && CopyInv(s, St(), kd, ks, i)
      requires s.tables[kd] == dst && s.tables[ks] == src && level > 1 && level + Depth(kd.path) == 4 && i < Fan(kd.path)
      requires src < |mem| && mem[src][i].p && dst < |mem|
      modifies this
      ensures Base(St()) && CopyInv(s, St(), kd, ks, i + 1)
      decreases level, 0
    {
      hide Base, Outside, CopiedTables, CopiedLeaves, CopyReady, CopyInv;
      ghost var t := St();
      CopySource(s, t, kd, ks, count, i, i);
      CopyDown(s, t, kd, ks, i, count);
      var page := HangTable(dst, i, kd);
      ghost var u := St();
      CopyLevel(page.value, mem[src][i].frame, level - 1, count, Child(kd, i), Child(ks, i));
      CopyUp(s, t, u, St(), kd, ks, i, count);
    }

    /** The loops of pgtbl_clearflags for PTE_W, one level per call. */
    method ClearLevel(table: nat, level: nat, ghost k: Key)
      requires Base(St()) && gone == {} && k in tables && tables[k] == table && !k.shadow
      requires 1 <= level && level + Depth(k.path) == 4
      modifies this
      ensures Base(St()) && Cleared(old(St()), St(), k, Fan(k.path))
      decreases level
    {
      hide Base, Cleared;
      ghost var s := St();
      ClearStart(s, k);
      var i := 0;
      while i < if level == 4 then 256 else 512
        invariant 0 <= i <= Fan(k.path)
        invariant Base(St()) && Cleared(s, St(), k, i)
      {
        ghost var t := St();
        ClearReads(s, t, k, i, i);
        if !mem[table][i].p {
          ClearSkip(s, t, k, i);
        } else if level == 1 {
          ClearEntry(s, t, k, i);
          mem := mem[table := mem[table][i := mem[table][i].(w := false)]];
        } else {
          ClearDown(t, k, i);
          ClearLevel(mem[table][i].frame, level - 1, Child(k, i));
          ClearUp(s, t, St(), k, i);
        }
        i := i + 1;
      }
    }

    /** The loops of free_pgtbl, one level per call; `decref` is FREE_PGTBL_DECREF. */
    method FreeLevel(table: nat, level: nat, decref: bool, ghost k: Key)
      requires Base(St()) && FreeReady(St(), k) && tables[k] == table && decref == !k.shadow
      requires 1 <= level && level + Depth(k.path) == 4
      modifies this
      ensures Base(St()) && FreedAll(old(St()), St(), k)
      decreases level
    {
      hide Base, Freed, FreedAll, FreeReady;
      ghost var s := St();
      FreeStart(s, k);
      var i := 0;
      while i < if level == 4 then 256 else 512
        invariant 0 <= i <= Fan(k.path)
        invariant Base(St()) && Freed(s, St(), k, i)
      {
        ghost var t := St();
        FreeReads(s, t, k, i, i);
        if !mem[table][i].p {
          FreeSkip(s, t, k, i);
        } else if level == 1 {
          if decref {
            FreeEntry(s, t, k, i);
            DropEntry(table, i, k);
          } else {
            FreePass(s, t, k, i);
          }
        } else {
          FreeDown(s, t, k, i);
          FreeLevel(mem[table][i].frame, level - 1, decref, Child(k, i));
          FreeUp(s, t, St(), k, i);
        }
        i := i + 1;
      }
      FreeTable(s, St(), k);
      DropTable(table, k);
    }

    /** free_page on the frame of a present entry: it cannot panic. */
    method DropEntry(table: nat, i: nat, ghost k: Key)
      requires Base(St()) && k in tables && tables[k] == table < |mem| && i < 512 && (k, i) !in gone
      requires UserFrame(St(), mem[table][i].frame) && Sized(St()) && info[mem[table][i].frame] > 0
      modifies this
      ensures St() == GiveBack(old(St()), k, i)
    {
      hide TreeInv, LeafInv, CountInv;
      var panic := FreePage(mem[table][i].frame);
      assert !panic;
      gone := gone + {(k, i)};
    }

    /** free_page on the page of a table: it cannot panic. */
    method DropTable(table: nat, ghost k: Key)
      requires Base(St()) && k in tables && tables[k] == table
      modifies this
      ensures table < machine.count && Sized(old(St())) && St() == Release(old(St()), k)
    {
      assert TableOk(St(), k);
      var panic := FreePage(table);
      assert !panic;
      gone := (set x | x in gone && x.0 != k) + (if k.path.Sub? then {(Parent(k), k.path.i)} else {});
      tables := tables - {k};
    }

    /** A zeroed page becomes the level-4 table of a tree. */
    method NewRoot(ghost k: Key) returns (f: nat)
      requires Base(St()) && gone == {} && nfree >= 2 && k.path == Top && k !in tables
      modifies this
      ensures Base(St()) && St() == AddRoot(old(St()), k) && f == tables[k]
    {
      hide Base;
      RootKeeps(St(), k);
      BaseParts(St());
      var page := AllocPage(true);
      f := page.value;
      tables := tables[k := f];
      kind := kind[f := TablePage(k)];
    }

    /** copy_pgtbl, with the kernel's half of the address space. */
    method CopyPgtbl(dst: nat, src: nat, count: bool, ghost kd: Key, ghost ks: Key)
      requires Base(St()) && CopyReady(St(), kd, ks, count) && kd.path == Top
      requires tables[kd] == dst && tables[ks] == src
      modifies this
      ensures Base(St()) && CopyInv(old(St()), St(), kd, ks, 256)
      ensures nfree + |Below(old(St()), ks)| == old(nfree)
      ensures KernelHalf(old(mem), mem, dst, src)
    {
      hide Base, CopyInv, CopyReady;
      ghost var s := St();
      CopyLevel(dst, src, 4, count, kd, ks);
      ghost var t := St();
      CopyBounds(s, t, kd, ks, count);
      var i := 256;
      while i < 512
        invariant 256 <= i <= 512 && dst < |mem| == |t.mem|
        invariant St() == t.(mem := mem) && mem == t.mem[dst := mem[dst]]
        invariant mem[dst][..256] == t.mem[dst][..256]
        invariant forall j :: 256 <= j < i ==> mem[dst][j] == t.mem[src][j]
      {
        mem := mem[dst := mem[dst][i := mem[src][i]]];
        i := i + 1;
      }
      KernelHalfKeeps(s, t, mem[dst], kd, ks);
    }

    /** A page copied byte by byte. */
    method CopyPage(dst: nat, src: nat)
      requires dst < |mem| && src < |mem| && dst != src
      modifies this`mem
      ensures mem == old(mem)[dst := old(mem)[src]]
    {
      var j := 0;
      while j < PAGE_SIZE
        invariant 0 <= j <= PAGE_SIZE && |mem| == |old(mem)| && mem == old(mem)[dst := mem[dst]]
        invariant forall k :: 0 <= k < j ==> ByteAt(mem[dst], k) == ByteAt(mem[src], k)
      {
        ghost var before := mem[dst];
        var b := ByteAt(mem[src], j);
        mem := mem[dst := StoreByte(mem[dst], j, b)];
        forall k | 0 <= k <= j ensures ByteAt(mem[dst], k) == ByteAt(mem[src], k) {
          ByteAtStoreByte(before, j, b, k);
        }
        j := j + 1;
      }
      SameBytesSamePage(mem[dst], mem[src]);
    }

    /** The page behind entry `i` of `pt` gets a frame of its own, in both trees. The reference to the
        old frame is dropped first, whatever its count. */
    method SplitPage(pt: nat, ppt: nat, i: nat, ghost o: nat, ghost v: Path) returns (nf: nat)
      requires Base(St()) && gone == {} && nfree >= 2 && Depth(v) == 4 && v.i == i
      requires HwLeaf(St(), o, v).p && ShLeaf(St(), o, v).p
      requires At(Hw(o), v.up) in tables && tables[At(Hw(o), v.up)] == pt
      requires At(Sh(o), v.up) in tables && tables[At(Sh(o), v.up)] == ppt
      modifies this
      ensures Base(old(St())) && St() == SplitOff(old(St()), o, v) && nf == old(fl)[0]
    {
      hide Base, FreeInv, TreeInv, LeafInv, CountInv, HeldInv;
      ghost var s := St();
      BaseParts(s);
      CowTables(s, o, v);
      FilledKeeps(s, o, v);
      SplitBounds(s, o, v);
      var f := mem[pt][i].frame;
      UnrefFree(s, f);
      info := info[f := info[f] - 1];
      var page := AllocPage(false);
      nf := page.value;
      CopyPage(nf, f);
      mem := mem[pt := mem[pt][i := FullEntry(nf)]];
      mem := mem[ppt := mem[ppt][i := FullEntry(nf)]];
      kind := kind[nf := User];
      SplitOffIs(s, o, v, St());
    }
  }
}
