/** The kernel's half of the address space: entries 256 to 511 of a level-4 table. */
module KernelHalves {
  import opened Words
  import opened Paths
  import opened PageState
  import opened TableSteps
  import opened CopySteps
  import opened CopyLoop
  import opened ClearLoop
  import opened FreeLoop
  import opened Boot
  import opened Views
  import opened SplitSteps

  /** Table `dst` has the kernel's half of table `src`, which is what it was. */
  ghost predicate KernelHalf(was: seq<Page>, mem: seq<Page>, dst: nat, src: nat)
  {
    dst < |mem| && src < |mem| == |was| && mem[dst][256..] == mem[src][256..] == was[src][256..]
  }

  ghost predicate HasHalf(s: State, h: Page, k: Key)
  {
    forall i :: 256 <= i < 512 ==> Ent(s, k, i) == h[i]
  }

  /** Every level-4 table but those of `ex` maps the kernel, as `h` does. */
  ghost predicate KernelIn(s: State, h: Page, ex: set<Key>)
  {
    forall k :: k in s.tables && k.path == Top && k !in ex ==> HasHalf(s, h, k)
  }

  /** Nothing of the kernel's half is for user mode. */
  ghost predicate Private(h: Page)
  {
    forall i :: 256 <= i < 512 ==> !h[i].u
  }

  /** The level-4 entry of an address of the kernel's half. */
  lemma KernelWord(s: State, h: Page, k: Key, va: nat)
    requires Base(s) && s.gone == {} && KernelIn(s, h, {}) && k in s.tables && k.path == Top && KERNEL_BASE <= va < ADDRESS_END
    ensures s.tables[k] < |s.mem| && 256 <= Pml4Index(va) && s.mem[s.tables[k]][Pml4Index(va)] == h[Pml4Index(va)]
  {
    hide Base;
    BaseTable(s, k);
    assert va / 0x80_0000_0000 >= 0x1FF_FF00;
    assert HasHalf(s, h, k);
    assert Ent(s, k, Pml4Index(va)) == h[Pml4Index(va)];
  }

  ghost predicate SameHalf(s: State, t: State, k: Key)
  {
    forall i :: 256 <= i < 512 ==> Ent(t, k, i) == Ent(s, k, i)
  }

  /** The level-4 tables there are were there before, with the kernel's half they have. */
  ghost predicate KeepsHalves(s: State, t: State)
  {
    forall k: Key :: k.path == Top && k in t.tables ==> k in s.tables && SameHalf(s, t, k)
  }

  lemma KeepsIn(s: State, t: State, h: Page, ex: set<Key>)
    requires KeepsHalves(s, t) && KernelIn(s, h, ex)
    ensures KernelIn(t, h, ex)
  {
    forall k | k in t.tables && k.path == Top && k !in ex ensures HasHalf(t, h, k) {
      assert HasHalf(s, h, k) && SameHalf(s, t, k);
    }
  }

  lemma KeepsTrans(s: State, t: State, u: State)
    requires KeepsHalves(s, t) && KeepsHalves(t, u)
    ensures KeepsHalves(s, u)
  {
    forall k: Key | k.path == Top && k in u.tables ensures k in s.tables && SameHalf(s, u, k) {
      assert SameHalf(s, t, k) && SameHalf(t, u, k);
    }
  }

  lemma KeepsSame(s: State, t: State)
    requires t.tables == s.tables && forall k, i :: Ent(t, k, i) == Ent(s, k, i)
    ensures KeepsHalves(s, t)
  {
  }

  lemma KeepsOneEntry(s: State, t: State, k: Key, i: nat, w: Word)
    requires OneEntry(s, t, k, i, w) && t.tables == s.tables && k.path.Sub?
    ensures KeepsHalves(s, t)
  {
  }

  lemma KeepsGrown(s: State, t: State, k: Key)
    requires Grown(s, t, k)
    ensures KeepsHalves(s, t)
  {
    forall l: Key | l.path == Top && l in t.tables ensures l in s.tables && SameHalf(s, t, l) {
      assert Fan(l.path) == 256;
    }
  }

  lemma KeepsCleared(s: State, t: State, k: Key, n: nat)
    requires Cleared(s, t, k, n)
    ensures KeepsHalves(s, t)
  {
    forall l: Key | l.path == Top && l in t.tables ensures l in s.tables && SameHalf(s, t, l) {
      forall i | 256 <= i < 512 ensures Ent(t, l, i) == Ent(s, l, i) {
        assert Depth(l.path) == 0;
        assert !Reached(k, n, l, i);
      }
    }
  }

  lemma KeepsFreed(s: State, t: State, k: Key)
    requires FreedAll(s, t, k) && k.path == Top
    ensures KeepsHalves(s, t)
  {
  }

  lemma KeepsStored(s: State, f: nat, pg: Page)
    requires Base(s) && UserFrame(s, f)
    ensures f < |s.mem| && KeepsHalves(s, Stored(s, f, pg))
  {
    hide Base;
    StoredKeeps(s, f, pg);
    SameEntries(s, Stored(s, f, pg));
    KeepsSame(s, Stored(s, f, pg));
  }

  lemma KeepsSplit(s: State, o: nat, v: Path)
    requires Base(s) && s.gone == {} && s.fl != [] && Depth(v) == 4 && HwLeaf(s, o, v).p && ShLeaf(s, o, v).p
    ensures KeepsHalves(s, SplitOff(s, o, v))
  {
    hide Base, FreeInv, TreeInv, LeafInv, CountInv, HeldInv, KeepsHalves, OneEntry;
    CowTables(s, o, v);
    BaseParts(s);
    FilledKeeps(s, o, v);
    FilledCount(s, o, v);
    var w := FullEntry(s.fl[0]);
    var hw, sh := At(Hw(o), v.up), At(Sh(o), v.up);
    var p := Filled(s, o, v);
    KeepsSame(s, p);
    SplitKeeps(p, hw, v.i, w);
    var q := Split(p, hw, v.i, w);
    KeepsOneEntry(p, q, hw, v.i, w);
    ShadowPut(q, sh, v.i, w);
    KeepsOneEntry(q, Put(q, sh, v.i, w), sh, v.i, w);
    KeepsTrans(s, p, q);
    KeepsTrans(s, q, Put(q, sh, v.i, w));
  }

  /** copy_pgtbl gives the kernel's half on. */
  lemma CopyHalf(s: State, t: State, kd: Key, ks: Key, h: Page, ex: set<Key>)
    requires CopyInv(s, t, kd, ks, 256) && kd.path == ks.path == Top && kd in t.tables && ks in s.tables && ks !in ex && kd != ks
    requires KernelHalf(s.mem, t.mem, t.tables[kd], s.tables[ks]) && KernelIn(s, h, ex) && s.gone == {}
    ensures KernelIn(t, h, ex - {kd})
  {
    forall k | k in t.tables && k.path == Top && k !in ex - {kd} ensures HasHalf(t, h, k) {
      if k == kd {
        CopiedHalf(s, t, kd, ks, h);
      } else {
        assert !InSubtree(kd, k);
        assert HasHalf(s, h, k);
      }
    }
  }

  lemma CopiedHalf(s: State, t: State, kd: Key, ks: Key, h: Page)
    requires t.gone == s.gone == {} && kd in t.tables && ks in s.tables && HasHalf(s, h, ks)
    requires KernelHalf(s.mem, t.mem, t.tables[kd], s.tables[ks])
    ensures HasHalf(t, h, kd)
  {
    var a, b := t.mem[t.tables[kd]], s.mem[s.tables[ks]];
    forall i | 256 <= i < 512 ensures Ent(t, kd, i) == h[i] {
      assert a[i] == a[256..][i - 256] == b[256..][i - 256] == b[i];
      assert Ent(s, ks, i) == h[i];
    }
  }

  /** The kernel's half is written into table `k`. */
  lemma NewHalf(t: State, k: Key, pg: Page, h: Page, ex: set<Key>)
    requires Base(t) && t.gone == {} && k in t.tables && k.path == Top && t.tables[k] < |t.mem| && pg[..256] == t.mem[t.tables[k]][..256]
    requires pg[256..] == h[256..] && KernelIn(t, h, ex)
    ensures KernelIn(Half(t, k, pg), h, ex - {k})
  {
    hide TreeInv;
    HalfEntries(t, k, pg);
    var u := Half(t, k, pg);
    forall l | l in u.tables && l.path == Top && l !in ex - {k} ensures HasHalf(u, h, l) {
      if l == k {
        forall i | 256 <= i < 512 ensures Ent(u, k, i) == h[i] {
          assert pg[i] == pg[256..][i - 256] && h[i] == h[256..][i - 256];
        }
      } else {
        assert HasHalf(t, h, l);
      }
    }
  }
}
