/** The kernel as its users see it: every process has a memory of its own, and fork copies it.
    No frames, no tables, no sharing. */
module DeepCopy {
  import opened Words
  import opened Paths

  datatype UserPage = UserPage(bytes: Page, writable: bool)

  /** The pages of a process and the end of its heap. */
  datatype Space = Space(pages: imap<Path, UserPage>, brk: nat)

  /** The living processes. */
  type World = map<nat, Space>

  ghost function Fork(w: World, parent: nat, child: nat): (r: World)
    requires parent in w
  {
    w[child := w[parent]]
  }

  ghost predicate CanStore(w: World, o: nat, va: nat)
  {
    o in w && PathOf(va) in w[o].pages && w[o].pages[PathOf(va)].writable
  }

  ghost function StorePage(pg: UserPage, va: nat, b: Byte): (r: UserPage)
  {
    UserPage(StoreByte(pg.bytes, va % PAGE_SIZE, b), pg.writable)
  }

  ghost function Store(w: World, o: nat, va: nat, b: Byte): (r: World)
    requires o in w && PathOf(va) in w[o].pages
  {
    var v := PathOf(va);
    w[o := w[o].(pages := w[o].pages[v := StorePage(w[o].pages[v], va, b)])]
  }

  ghost function Exit(w: World, o: nat): (r: World)
  {
    w - {o}
  }

  function RoundUp(n: nat): (r: nat)
  {
    (n + PAGE_SIZE - 1) / PAGE_SIZE * PAGE_SIZE
  }

  /** `v` is a user page whose address lies in [lo, hi). */
  ghost predicate Within(v: Path, lo: nat, hi: nat)
  {
    Depth(v) == 4 && UserPath(v) && lo <= AddressOf(v) < hi
  }

  /** Zeroed, writable pages are added for the page addresses in [lo, hi). */
  ghost function AddPages(m: imap<Path, UserPage>, lo: nat, hi: nat): (r: imap<Path, UserPage>)
  {
    imap v | v in m || Within(v, lo, hi) :: if Within(v, lo, hi) then UserPage(ZeroPage(), true) else m[v]
  }

  ghost function Grow(w: World, o: nat, inc: nat): (r: World)
    requires o in w
  {
    var sp := w[o];
    w[o := Space(AddPages(sp.pages, RoundUp(sp.brk), RoundUp(sp.brk + inc)), sp.brk + inc)]
  }

  // ---------------------------------------------------------------- byte by byte

  ghost predicate Mapped(w: World, o: nat, va: nat)
  {
    o in w && PathOf(va) in w[o].pages
  }

  ghost function Peek(w: World, o: nat, va: nat): (b: Byte)
    requires Mapped(w, o, va)
  {
    ByteAt(w[o].pages[PathOf(va)].bytes, va % PAGE_SIZE)
  }

  /** A store is seen at its own address of its own process and nowhere else. */
  lemma StorePeek(w: World, o: nat, va: nat, b: Byte, q: nat, vb: nat)
    requires Mapped(w, o, va) && Mapped(w, q, vb) && va < UMAX_ADDRESS && vb < UMAX_ADDRESS
    ensures Mapped(Store(w, o, va, b), q, vb)
    ensures Peek(Store(w, o, va, b), q, vb) == if q == o && vb == va then b else Peek(w, q, vb)
  {
    if q == o && PathOf(vb) == PathOf(va) {
      PathOfInjective(va, vb);
      ByteAtStoreByte(w[o].pages[PathOf(va)].bytes, va % PAGE_SIZE, b, vb % PAGE_SIZE);
    }
  }

  /** A child has its parent's pages, rights, bytes and heap, in its own memory; nobody else notices. */
  lemma ForkCopies(w: World, p: nat, c: nat, va: nat)
    requires p in w && c !in w
    ensures var r := Fork(w, p, c);
      && (Mapped(r, c, va) <==> Mapped(w, p, va)) && (CanStore(r, c, va) <==> CanStore(w, p, va)) && r[c].brk == w[p].brk
      && (Mapped(w, p, va) ==> Peek(r, c, va) == Peek(w, p, va))
      && r.Keys == w.Keys + {c} && forall q :: q in w ==> r[q] == w[q]
  {
  }

  /** Growing the heap maps zeroed, writable bytes from the old end to the new, rounded up to pages, and nothing else. */
  lemma GrowSees(w: World, o: nat, inc: nat, va: nat)
    requires o in w && va < UMAX_ADDRESS
    ensures var r := Grow(w, o, inc); var fresh' := RoundUp(w[o].brk) <= va < RoundUp(w[o].brk + inc);
      && (Mapped(r, o, va) <==> Mapped(w, o, va) || fresh') && r[o].brk == w[o].brk + inc
      && (fresh' ==> CanStore(r, o, va) && Peek(r, o, va) == 0)
      && (!fresh' && Mapped(w, o, va) ==> Peek(r, o, va) == Peek(w, o, va) && (CanStore(r, o, va) <==> CanStore(w, o, va)))
  {
    hide ByteAt, RoundUp, AddressOf, PathOf;
    AddressOfPathOf(va);
    RoundUpAligned(w[o].brk);
    RoundUpAligned(w[o].brk + inc);
    SameSide(va, RoundUp(w[o].brk));
    SameSide(va, RoundUp(w[o].brk + inc));
    ZeroPageBytes(va % PAGE_SIZE);
  }

  /** A page boundary has all of a page on one side. */
  lemma SameSide(va: nat, b: nat)
    requires b % PAGE_SIZE == 0
    ensures va < b <==> va - va % PAGE_SIZE < b
  {
  }

  // ---------------------------------------------------------------- the heap

  const HEAP_LIMIT: nat := 0x7FFF_0000_0000

  /** Nothing is mapped between the end of the heap and the limit the heap may grow to. */
  ghost predicate HeapClear(sp: Space)
  {
    forall v :: v in sp.pages && Depth(v) == 4 && UserPath(v) ==>
      AddressOf(v) < RoundUp(sp.brk) || HEAP_LIMIT <= AddressOf(v)
  }

  /** One more page at the end of the range. */
  lemma AddPagesNext(m: imap<Path, UserPage>, lo: nat, hi: nat)
    requires lo <= hi < HEAP_LIMIT && hi % PAGE_SIZE == 0
    ensures AddPages(m, lo, hi + PAGE_SIZE) == AddPages(m, lo, hi)[PathOf(hi) := UserPage(ZeroPage(), true)]
  {
    AddressOfPathOf(hi);
    var next := hi + PAGE_SIZE;
    forall v ensures Within(v, lo, next) <==> Within(v, lo, hi) || v == PathOf(hi) {
      if Depth(v) == 4 && UserPath(v) && AddressOf(v) == hi {
        PathOfAddressOf(v);
      }
    }
  }

  lemma AddPagesNone(m: imap<Path, UserPage>, lo: nat)
    ensures AddPages(m, lo, lo) == m
  {
  }

  lemma RoundUpAligned(n: nat)
    ensures RoundUp(n) % PAGE_SIZE == 0 && n <= RoundUp(n) < n + PAGE_SIZE
  {
  }

  lemma RoundUpMonotone(a: nat, b: nat)
    requires a <= b
    ensures RoundUp(a) <= RoundUp(b)
  {
  }

  /** The page at the end of the range is not mapped yet. */
  lemma NextPageFree(sp: Space, hi: nat)
    requires HeapClear(sp) && RoundUp(sp.brk) <= hi < HEAP_LIMIT && hi % PAGE_SIZE == 0
    ensures PathOf(hi) !in AddPages(sp.pages, RoundUp(sp.brk), hi)
  {
    AddressOfPathOf(hi);
  }

  /** Growing keeps the heap clear above its end. */
  lemma GrowClear(sp: Space, inc: nat)
    requires HeapClear(sp) && RoundUp(sp.brk + inc) < HEAP_LIMIT
    ensures HeapClear(Space(AddPages(sp.pages, RoundUp(sp.brk), RoundUp(sp.brk + inc)), sp.brk + inc))
  {
    RoundUpMonotone(sp.brk, sp.brk + inc);
  }
}
