/** The state of the memory manager as a value, and what every step of it keeps:
    the free list threaded through the words that otherwise hold reference counts, the trees
    of page tables in physical memory, and the reference counts of user frames. */
module PageState {
  import opened Words
  import opened Paths

  /** What does not change after boot: `count` pages of physical memory, the address where the
      kernel image ends, the recorded address of each page (0 for a page the firmware did not
      offer), and the kernel address of the page descriptors. */
  datatype Machine = Machine(count: nat, kernelEnd: nat, address: seq<nat>, descriptors: nat)

  const TWO64: int := 0x1_0000_0000_0000_0000

  ghost predicate MachineOk(m: Machine)
  {
    && |m.address| == m.count
    && m.kernelEnd > 0
    && m.count <= 0x8_0000_0000
    && 0xFFFF_8000_0000_0000 <= m.descriptors
    && m.descriptors + 16 * m.count <= TWO64
    && forall f :: 0 <= f < m.count ==> m.address[f] == 0 || m.address[f] == f * PAGE_SIZE
  }

  predicate Usable(m: Machine, f: nat)
    requires |m.address| == m.count
  {
    f < m.count && m.address[f] >= m.kernelEnd
  }

  /** The pages offered by the firmware whose addresses lie above the kernel. */
  lemma UsableIff(m: Machine, f: nat)
    requires MachineOk(m)
    ensures Usable(m, f) <==> f < m.count && m.address[f] != 0 && f * PAGE_SIZE >= m.kernelEnd
  {
  }

  /** The pointer to descriptor `f`, read as the signed number that shares its word. */
  function Pointer(m: Machine, f: nat): (r: int)
  {
    m.descriptors + 16 * f - TWO64
  }

  function PointerIndex(m: Machine, p: int): (r: int)
  {
    (p + TWO64 - m.descriptors) / 16
  }

  lemma PointerFacts(m: Machine, f: nat)
    requires MachineOk(m) && f < m.count
    ensures Pointer(m, f) < 0
    ensures PointerIndex(m, Pointer(m, f)) == f
  {
  }

  /** A table: which process slot it belongs to, which of the two trees (`shadow` is p_pgtbl),
      and where in the tree it sits. */
  datatype Key = Key(owner: nat, shadow: bool, path: Path)

  function Child(k: Key, i: nat): (r: Key)
  {
    Key(k.owner, k.shadow, Sub(k.path, i))
  }

  function Parent(k: Key): (r: Key)
    requires k.path.Sub?
  {
    Key(k.owner, k.shadow, k.path.up)
  }

  /** What a page is in use for. `Held` pages have been allocated and not yet put to use;
      `User` pages are frames of user memory. */
  datatype Kind = Reserved | Free | Held | TablePage(key: Key) | User

  /** `mem` and `info` (reference count or link, one word per page), `head` and `nfree` are the
      kernel's own variables. The rest is bookkeeping for the proofs: `fl` the free list in order,
      `tables` the frame of each table, `gone` the entries already given back by a teardown that
      does not erase them, `kind` the use of each page. */
  datatype State = State(
    machine: Machine,
    mem: seq<Page>,
    info: seq<int>,
    head: int,
    nfree: nat,
    fl: seq<nat>,
    tables: map<Key, nat>,
    gone: set<(Key, nat)>,
    kind: seq<Kind>)

  ghost predicate Sized(s: State)
  {
    && MachineOk(s.machine)
    && |s.mem| == s.machine.count
    && |s.info| == s.machine.count
    && |s.kind| == s.machine.count
  }

  // ---------------------------------------------------------------- free list

  /** The word that points at position `i` of the list, NULL past its end. */
  ghost function LinkTo(m: Machine, fl: seq<nat>, i: nat): (r: int)
  {
    if i < |fl| then Pointer(m, fl[i]) else 0
  }

  ghost predicate Listed(s: State, i: nat)
    requires Sized(s) && i < |s.fl|
  {
    var f := s.fl[i];
    && f < s.machine.count
    && s.kind[f] == Free
    && s.info[f] == LinkTo(s.machine, s.fl, i + 1)
  }

  /** The list is acyclic, holds `nfree` distinct pages, and they are exactly the free ones. */
  ghost predicate FreeInv(s: State)
    requires Sized(s)
  {
    && s.nfree == |s.fl|
    && s.head == LinkTo(s.machine, s.fl, 0)
    && (forall i :: 0 <= i < |s.fl| ==> Listed(s, i))
    && (forall i, j :: 0 <= i < j < |s.fl| ==> s.fl[i] != s.fl[j])
    && (forall f :: 0 <= f < s.machine.count && s.kind[f] == Free ==> f in s.fl)
    && (forall f :: 0 <= f < s.machine.count ==> (s.kind[f] != Reserved <==> Usable(s.machine, f)))
  }

  // ---------------------------------------------------------------- trees

  /** Entry `i` of table `k`, as far as it is still in force. */
  ghost function Ent(s: State, k: Key, i: nat): (e: Word)
  {
    if k in s.tables && s.tables[k] < |s.mem| && i < 512 && (k, i) !in s.gone
    then s.mem[s.tables[k]][i] else ZERO
  }

  ghost predicate TableOk(s: State, k: Key)
    requires Sized(s) && k in s.tables
  {
    var f := s.tables[k];
    && f < s.machine.count
    && s.kind[f] == TablePage(k)
    && s.info[f] == 1
    && Depth(k.path) <= 3
    && UserPath(k.path)
  }

  ghost predicate Linked(s: State, k: Key)
    requires Sized(s) && k in s.tables && k.path.Sub?
  {
    && Parent(k) in s.tables
    && s.tables[k] < s.machine.count
    && Ent(s, Parent(k), k.path.i) == FullEntry(s.tables[k])
  }

  /** Every table page has one place in one tree, and every entry above the last level is either
      zero or points at the table that sits there. */
  ghost predicate TreeInv(s: State)
    requires Sized(s)
  {
    && (forall k :: k in s.tables ==> TableOk(s, k))
    && (forall f :: 0 <= f < s.machine.count && s.kind[f].TablePage? ==>
          s.kind[f].key in s.tables && s.tables[s.kind[f].key] == f)
    && (forall k :: k in s.tables && k.path.Sub? ==> Linked(s, k))
    && (forall k, i :: k in s.tables && Depth(k.path) < 3 && 0 <= i < Fan(k.path) ==> EntryOk(s, k, i))
  }

  ghost predicate EntryOk(s: State, k: Key, i: nat)
  {
    if Ent(s, k, i).p then Child(k, i) in s.tables else Ent(s, k, i) == ZERO
  }

  // ---------------------------------------------------------------- user frames

  /** The last-level tables of the trees the hardware walks: their entries are counted. */
  predicate Counted(k: Key)
  {
    !k.shadow && Depth(k.path) == 3
  }

  ghost predicate UserFrame(s: State, f: nat)
  {
    f < |s.kind| && s.kind[f] == User
  }

  ghost predicate LeafInv(s: State)
  {
    forall k, i :: k in s.tables && Counted(k) && i < 512 && Ent(s, k, i).p ==>
      Ent(s, k, i).u && UserFrame(s, Ent(s, k, i).frame)
  }

  /** The entries of hardware tables that name frame `f`. */
  ghost function Refs(s: State, f: nat): (r: set<(Key, nat)>)
  {
    set k, i | k in s.tables && 0 <= i < 512 && Counted(k) && Ent(s, k, i).p && Ent(s, k, i).frame == f :: (k, i)
  }

  /** The reference count of a user frame is the number of present entries naming it in the
      hardware tables of all processes. */
  ghost predicate CountInv(s: State)
    requires Sized(s)
  {
    forall f: nat :: UserFrame(s, f) ==> s.info[f] == |Refs(s, f)|
  }

  ghost predicate HeldInv(s: State)
    requires Sized(s)
  {
    forall f :: 0 <= f < s.machine.count && s.kind[f] == Held ==> s.info[f] == 1
  }

  ghost predicate Base(s: State)
  {
    Sized(s) && FreeInv(s) && TreeInv(s) && LeafInv(s) && CountInv(s) && HeldInv(s)
  }

  /** The parts of `Base`, for proofs that keep it folded. */
  lemma BaseParts(s: State)
    requires Base(s)
    ensures Sized(s) && FreeInv(s) && TreeInv(s) && LeafInv(s) && CountInv(s) && HeldInv(s)
  {
  }

  lemma BaseTable(s: State, k: Key)
    requires Base(s) && k in s.tables
    ensures Sized(s) && TableOk(s, k)
  {
  }

  // ---------------------------------------------------------------- framing

  /** Same trees, and memory equal on their pages: the same entries. */
  ghost predicate SameTables(s: State, t: State)
  {
    && t.machine == s.machine && t.tables == s.tables && t.gone == s.gone
    && |t.mem| == |s.mem|
    && forall k :: k in s.tables && s.tables[k] < |s.mem| ==> t.mem[s.tables[k]] == s.mem[s.tables[k]]
  }

  lemma SameEntries(s: State, t: State)
    requires SameTables(s, t)
    ensures forall k, i :: Ent(t, k, i) == Ent(s, k, i)
    ensures forall f :: Refs(t, f) == Refs(s, f)
  {
    forall k, i ensures Ent(t, k, i) == Ent(s, k, i) {
    }
    forall f ensures Refs(t, f) == Refs(s, f) {
    }
  }

  /** Pages change hands without touching the trees. */
  lemma TreeFrame(s: State, t: State)
    requires Sized(s) && Sized(t) && TreeInv(s) && SameTables(s, t)
    requires forall f :: 0 <= f < s.machine.count && s.kind[f] != t.kind[f] ==> !s.kind[f].TablePage? && !t.kind[f].TablePage?
    requires forall f :: 0 <= f < s.machine.count && s.kind[f].TablePage? ==> t.info[f] == s.info[f]
    ensures TreeInv(t)
  {
    SameEntries(s, t);
    forall k | k in t.tables ensures TableOk(t, k) {
      assert TableOk(s, k);
    }
    forall k | k in t.tables && k.path.Sub? ensures Linked(t, k) {
      assert Linked(s, k);
    }
    forall k, i | k in t.tables && Depth(k.path) < 3 && 0 <= i < Fan(k.path) ensures EntryOk(t, k, i) {
      assert EntryOk(s, k, i);
    }
  }

  lemma LeafFrame(s: State, t: State)
    requires LeafInv(s) && SameTables(s, t)
    requires forall f: nat :: UserFrame(s, f) ==> UserFrame(t, f)
    ensures LeafInv(t)
  {
    SameEntries(s, t);
  }

  lemma CountFrame(s: State, t: State)
    requires Sized(s) && Sized(t) && CountInv(s) && SameTables(s, t)
    requires forall f: nat :: UserFrame(t, f) ==> UserFrame(s, f) && t.info[f] == s.info[f]
    ensures CountInv(t)
  {
    SameEntries(s, t);
  }

  // ---------------------------------------------------------------- taking and returning pages

  /** What `alloc_page` does to the state when the list has a page. */
  ghost function Pop(s: State, zero: bool): (t: State)
    requires Sized(s) && FreeInv(s) && s.fl != []
  {
    assert Listed(s, 0);
    var f := s.fl[0];
    s.(fl := s.fl[1..], head := s.info[f], nfree := s.nfree - 1, info := s.info[f := 1],
       mem := if zero then s.mem[f := ZeroPage()] else s.mem, kind := s.kind[f := Held])
  }

  lemma PopFreeInv(s: State, zero: bool)
    requires Sized(s) && FreeInv(s) && s.fl != []
    ensures Sized(Pop(s, zero)) && FreeInv(Pop(s, zero))
  {
    var t := Pop(s, zero);
    assert Listed(s, 0);
    forall i | 0 <= i < |t.fl| ensures Listed(t, i) {
      assert Listed(s, i + 1);
    }
    forall f | 0 <= f < t.machine.count && t.kind[f] == Free ensures f in t.fl {
      assert s.kind[f] == Free;
      var i :| 0 <= i < |s.fl| && s.fl[i] == f;
      assert t.fl[i - 1] == f;
    }
  }

  lemma PopKeeps(s: State, zero: bool)
    requires Base(s) && s.fl != []
    ensures Base(Pop(s, zero))
    ensures SameTables(s, Pop(s, zero))
  {
    var t := Pop(s, zero);
    PopFreeInv(s, zero);
    assert Listed(s, 0);
    assert SameTables(s, t) by {
      assert forall k :: k in s.tables ==> TableOk(s, k);
    }
    TreeFrame(s, t);
    LeafFrame(s, t);
    CountFrame(s, t);
  }
}
