/** Virtual page addresses as walks through a four-level page table. */
module Paths {

  /** A node of the tree of tables: `Top` is the level-4 table, `Sub(q, i)` is what entry `i`
      of the table at `q` leads to. A path of depth 4 names a virtual page. */
  datatype Path = Top | Sub(up: Path, i: nat)

  const UMAX_ADDRESS: nat := 0x8000_0000_0000
  const KERNEL_BASE: nat := 0xFFFF_8000_0000_0000
  const ADDRESS_END: nat := 0x1_0000_0000_0000_0000

  function Depth(q: Path): (d: nat)
  {
    match q
    case Top => 0
    case Sub(u, _) => Depth(u) + 1
  }

  /** How many entries of the table at `q` belong to user space. */
  function Fan(q: Path): (n: nat)
    ensures 256 <= n <= 512
  {
    if q.Top? then 256 else 512
  }

  predicate UserPath(q: Path)
  {
    match q
    case Top => true
    case Sub(u, i) => i < Fan(u) && UserPath(u)
  }

  /** `r` lies in the subtree of `q`. */
  predicate Under(q: Path, r: Path)
  {
    r == q || (r.Sub? && Under(q, r.up))
  }

  lemma {:induction false} UnderDepth(q: Path, r: Path)
    requires Under(q, r)
    ensures Depth(q) <= Depth(r)
    ensures Depth(q) == Depth(r) ==> q == r
  {
    if r != q {
      UnderDepth(q, r.up);
    }
  }

  lemma {:induction false} UnderTop(r: Path)
    ensures Under(Top, r)
  {
    if r.Sub? {
      UnderTop(r.up);
    }
  }

  lemma {:induction false} UnderTrans(q: Path, r: Path, t: Path)
    requires Under(q, r) && Under(r, t)
    ensures Under(q, t)
  {
    if t != r {
      UnderTrans(q, r, t.up);
    }
  }

  /** A path strictly below `q` goes through exactly one entry of `q`. */
  function Branch(q: Path, r: Path): (j: nat)
    requires Under(q, r) && q != r
    ensures Under(Sub(q, j), r)
    ensures UserPath(r) ==> j < Fan(q)
  {
    if r.up == q then r.i else Branch(q, r.up)
  }

  lemma {:induction false} BranchUnique(q: Path, j: nat, r: Path)
    requires Under(Sub(q, j), r)
    ensures Under(q, r) && q != r && Branch(q, r) == j
  {
    if r == Sub(q, j) {
      assert Under(q, q) && Depth(r) == Depth(q) + 1;
    } else {
      BranchUnique(q, j, r.up);
      UnderDepth(q, r.up);
    }
  }

  // ---------------------------------------------------------------- addresses

  function Pml4Index(va: nat): (i: nat) ensures i < 512 { va / 0x80_0000_0000 % 512 }
  function PdptIndex(va: nat): (i: nat) ensures i < 512 { va / 0x4000_0000 % 512 }
  function PdIndex(va: nat): (i: nat) ensures i < 512 { va / 0x20_0000 % 512 }
  function PtIndex(va: nat): (i: nat) ensures i < 512 { va / 0x1000 % 512 }

  function PathOf(va: nat): (v: Path)
    ensures Depth(v) == 4
    ensures va < UMAX_ADDRESS ==> UserPath(v)
  {
    var q := Sub(Top, Pml4Index(va));
    assert Depth(q) == 1 && (va < UMAX_ADDRESS ==> UserPath(q));
    var q := Sub(q, PdptIndex(va));
    assert Depth(q) == 2 && (va < UMAX_ADDRESS ==> UserPath(q));
    var q := Sub(q, PdIndex(va));
    assert Depth(q) == 3 && (va < UMAX_ADDRESS ==> UserPath(q));
    Sub(q, PtIndex(va))
  }

  lemma Unfold4(v: Path)
    requires Depth(v) == 4
    ensures v.Sub? && v.up.Sub? && v.up.up.Sub? && v.up.up.up.Sub? && v.up.up.up.up == Top
    ensures Depth(v.up) == 3
    ensures UserPath(v) ==> v.i < 512 && v.up.i < 512 && v.up.up.i < 512 && v.up.up.up.i < 256 && UserPath(v.up)
  {
    assert Depth(v.up) == 3;
    assert Depth(v.up.up) == 2;
    assert Depth(v.up.up.up) == 1;
    assert Depth(v.up.up.up.up) == 0;
    if UserPath(v) {
      assert UserPath(v.up);
      assert UserPath(v.up.up);
      assert UserPath(v.up.up.up);
    }
  }

  /** The address of the first byte of page `v`. */
  function AddressOf(v: Path): (va: nat)
    requires Depth(v) == 4 && UserPath(v)
    ensures va < UMAX_ADDRESS && va % 4096 == 0
  {
    Unfold4(v);
    (v.up.up.up.i * 0x800_0000 + v.up.up.i * 0x4_0000 + v.up.i * 0x200 + v.i) * 0x1000
  }

  /** The four 9-bit indices determine the page: distinct page addresses get distinct walks. */
  lemma PathOfInjective(va: nat, vb: nat)
    requires va < 0x1_0000_0000_0000 && vb < 0x1_0000_0000_0000
    requires PathOf(va) == PathOf(vb)
    ensures va / 4096 == vb / 4096
  {
    assert Pml4Index(va) == Pml4Index(vb) && PdptIndex(va) == PdptIndex(vb);
    assert PdIndex(va) == PdIndex(vb) && PtIndex(va) == PtIndex(vb);
    Recompose(va);
    Recompose(vb);
  }

  /** Addresses share their last table exactly if they lie in the same 2 megabytes, the one above it in the same
      gigabyte, and the one above that in the same 512; in the last table the pages stand in order. */
  lemma SharedTables(va: nat, vb: nat)
    requires va < 0x1_0000_0000_0000 && vb < 0x1_0000_0000_0000
    ensures PathOf(va).up == PathOf(vb).up <==> va / 0x20_0000 == vb / 0x20_0000
    ensures PathOf(va).up.up == PathOf(vb).up.up <==> va / 0x4000_0000 == vb / 0x4000_0000
    ensures PathOf(va).up.up.up == PathOf(vb).up.up.up <==> va / 0x80_0000_0000 == vb / 0x80_0000_0000
    ensures PathOf(va).i == va / 4096 % 512
  {
    Levels(va);
    Levels(vb);
  }

  lemma Levels(va: nat)
    requires va < 0x1_0000_0000_0000
    ensures va / 0x80_0000_0000 == Pml4Index(va)
    ensures va / 0x4000_0000 == va / 0x80_0000_0000 * 512 + PdptIndex(va)
    ensures va / 0x20_0000 == va / 0x4000_0000 * 512 + PdIndex(va)
  {
  }

  lemma Recompose(va: nat)
    requires va < 0x1_0000_0000_0000
    ensures va / 4096 == ((Pml4Index(va) * 512 + PdptIndex(va)) * 512 + PdIndex(va)) * 512 + PtIndex(va)
  {
    Levels(va);
    assert va / 0x1000 == va / 0x20_0000 * 512 + PtIndex(va);
  }

  /** Every user page path is the walk of its own address. */
  lemma PathOfAddressOf(v: Path)
    requires Depth(v) == 4 && UserPath(v)
    ensures PathOf(AddressOf(v)) == v
  {
    Unfold4(v);
    IndicesOfAddress(v.up.up.up.i, v.up.up.i, v.up.i, v.i);
  }

  lemma IndicesOfAddress(a: nat, b: nat, c: nat, d: nat)
    requires a < 256 && b < 512 && c < 512 && d < 512
    ensures var va := ((a * 512 + b) * 512 + c) * 512 * 4096 + d * 4096;
      Pml4Index(va) == a && PdptIndex(va) == b && PdIndex(va) == c && PtIndex(va) == d
  {
    var n2 := a * 512 + b;
    var n3 := n2 * 512 + c;
    var n4 := n3 * 512 + d;
    DivideOut(n4 * 4096);
    assert n4 / 512 == n3 && n4 % 512 == d;
    assert n3 / 512 == n2 && n3 % 512 == c;
    assert n2 / 512 == a && n2 % 512 == b;
  }

  lemma DivideOut(va: nat)
    ensures va / 0x20_0000 == va / 0x1000 / 512
    ensures va / 0x4000_0000 == va / 0x1000 / 512 / 512
    ensures va / 0x80_0000_0000 == va / 0x1000 / 512 / 512 / 512
  {
    assert va / 0x20_0000 == va / 0x1000 / 512;
    assert va / 0x4000_0000 == va / 0x20_0000 / 512;
    assert va / 0x80_0000_0000 == va / 0x4000_0000 / 512;
  }

  /** Two addresses in the same page walk the same way. */
  lemma SamePage(va: nat, vb: nat)
    requires va / 4096 == vb / 4096
    ensures PathOf(va) == PathOf(vb)
  {
    DivideOut(va);
    DivideOut(vb);
  }

  /** A user address lies in its own page. */
  lemma AddressOfPathOf(va: nat)
    requires va < UMAX_ADDRESS
    ensures AddressOf(PathOf(va)) == va - va % 4096
  {
    PathOfAddressOf(PathOf(va));
    PathOfInjective(AddressOf(PathOf(va)), va);
  }
}
