/** kernel/fs/exfat.c: the scans and the reader, on a volume seen through the block cache. */
module FileSystem {
  import opened Results
  import opened Words
  import opened Disk
  import opened Directory
  import opened ExFat
  import opened FileReads

  /** The block of byte `a` is resident. */
  ghost predicate HasByte(res: map<nat, Block>, a: nat)
  {
    a / BLOCK in res
  }

  ghost predicate Has(res: map<nat, Block>, a: nat, n: nat)
  {
    forall x :: a <= x < a + n ==> HasByte(res, x)
  }

  lemma HasCluster(v: Volume, res: map<nat, Block>, c: nat)
    requires Aligned(v.g) && c >= 2 && Held(res, FirstBlock(v.g, c), Turns(v.g.spc))
    ensures Has(res, ClusterAddress(v, c), ClusterSize(v))
  {
    hide FirstBlock, Turns;
    forall x | ClusterAddress(v, c) <= x < ClusterAddress(v, c) + ClusterSize(v) ensures HasByte(res, x) {
      InsideCluster(v.g, c, x - ClusterAddress(v, c));
    }
  }

  class Mount {
    const v: Volume
    const disk: Cache

    constructor (v: Volume)
      requires VolumeOk(v)
      ensures this.v == v && fresh(disk) && Valid()
    {
      this.v := v;
      disk := new Cache(v.blocks);
    }

    ghost predicate Valid()
      reads this, disk
    {
      VolumeOk(v) && disk.blocks == v.blocks && Coherent(v.blocks, disk.resident) && Whole(disk.resident, v.g)
    }

    /** A load from the pages the disk is mapped at. */
    method LoadByte(a: nat) returns (b: Byte)
      requires Valid() && HasByte(disk.resident, a)
      ensures b == DiskByte(v, a)
    {
      b := disk.resident[a / BLOCK][a % BLOCK];
    }

    method Load(a: nat, n: nat) returns (bs: seq<Byte>)
      requires Valid() && Has(disk.resident, a, n)
      ensures bs == DiskBytes(v, a, n)
    {
      hide Whole, VolumeOk;
      bs := [];
      for i := 0 to n
        invariant bs == DiskBytes(v, a, i)
      {
        assert HasByte(disk.resident, a + i);
        var b := LoadByte(a + i);
        bs := bs + [b];
      }
    }

    /** Nothing that was resident goes away. */
    twostate predicate Kept()
      reads disk
    {
      old(disk.resident).Keys <= disk.resident.Keys
    }

    method ReadCluster(c: nat)
      requires Valid() && IsCluster(v, c)
      modifies disk
      ensures Valid() && Kept() && Has(disk.resident, ClusterAddress(v, c), ClusterSize(v))
    {
      hide Whole, Turns, Held, Leading;
      ClusterFits(v, c);
      ReadClusterKeeps(v.blocks, disk.resident, v.g, c);
      AfterCoherent(v.blocks, disk.resident, FirstBlock(v.g, c), Turns(v.g.spc));
      disk.DiskRead(ClusterLba(v.g, c), v.g.spc);
      HasCluster(v, disk.resident, c);
    }

    method GetFatAt(id: nat) returns (r: nat)
      requires Valid() && IsCluster(v, id)
      modifies disk
      ensures Valid() && Kept() && r == FatAt(v, id)
    {
      hide Whole, Held, Leading;
      var lba := v.fat + id * 4 / SECTOR;
      ghost var b := lba / SECTORS_PER_BLOCK;
      FatBlock(v, id, 0);
      ReadOutsideKeeps(v.blocks, disk.resident, v.g, b);
      AfterCoherent(v.blocks, disk.resident, b, 1);
      disk.DiskRead(lba, 1);
      forall x | FatAddress(v, id) <= x < FatAddress(v, id) + 4 ensures HasByte(disk.resident, x) {
        FatBlock(v, id, x - FatAddress(v, id));
      }
      var bs := Load(FatAddress(v, id), 4);
      r := FromBytes(bs);
    }

    method Advance(c: nat, useFat: bool) returns (r: nat)
      requires Valid() && IsCluster(v, c)
      modifies disk
      ensures Valid() && Kept() && r == NextCluster(v, c, useFat)
    {
      if useFat {
        r := GetFatAt(c);
      } else {
        r := c + 1;
      }
    }

    /** The comparison of one name entry with the name looked for. */
    method CompareName(st: Walk, chars: seq<Byte>, name: seq<Byte>) returns (r: Walk)
      requires |chars| == NAME_CHARS
      ensures r == WalkNext(st, FileName(chars), name)
    {
      var ptr, differs, k := st.ptr, st.differs, 0;
      while !differs && k < NAME_CHARS && ptr < st.nameLen && ptr < |name|
        invariant 0 <= k <= NAME_CHARS && ptr == st.ptr + k
        invariant k > 0 ==> !st.differs && ptr <= st.nameLen && ptr <= |name|
        invariant k > 0 ==> (differs <==> !Agree(name, st.ptr, chars, k))
        invariant k == 0 ==> differs == st.differs
        decreases NAME_CHARS - k
      {
        differs := Upper(name[ptr]) != Upper(chars[k]);
        ptr := ptr + 1;
        k := k + 1;
      }
      if k > 0 {
        AgreeFurther(name, st.ptr, chars, k, Min3(NAME_CHARS, st.nameLen - st.ptr, |name| - st.ptr));
      }
      r := if differs && !st.differs then st.(ptr := 0, differs := true) else st.(ptr := ptr);
    }

    /** The switch of exfat_walk_dir. */
    method ScanEntry(st: Walk, e: Entry, name: seq<Byte>) returns (r: Walk)
      requires EntryOk(e)
      ensures r == WalkNext(st, e, name)
    {
      match e
      case FileEntry(isDir) =>
        r := st.(ptr := 0, differs := false, isDir := isDir);
      case StreamExt(clus, nameLen, len, useFat) =>
        r := st.(clus := clus, nameLen := nameLen, len := len, useFat := useFat);
      case FileName(chars) =>
        r := CompareName(st, chars, name);
      case _ =>
        r := st;
    }

    /** Entry `m` of the resident cluster `c`. */
    method LoadEntry(c: nat, m: nat) returns (e: Entry)
      requires Valid() && c >= 2 && m < EntriesPerCluster(v) && Has(disk.resident, ClusterAddress(v, c), ClusterSize(v))
      ensures e == EntryIn(v, c, m)
    {
      var bs := Load(ClusterAddress(v, c) + ENTRY * m, ENTRY);
      e := Parse(bs);
    }

    /** One turn of the two scans, up to the switch: at the first entry of a cluster the cluster is read
        and the next one looked up. None is the end of the chain. */
    method Step(useFat: bool, i: nat, clus: nat, dir: nat, ghost head: nat, ghost chain: seq<nat>)
      returns (e: Option<Entry>, clus': nat, dir': nat)
      requires Valid() && Terminated(v, head, useFat, chain) && Cursor(v, head, useFat, chain, disk.resident, i, clus, dir)
      requires i <= |Entries(v, chain)| && End !in Entries(v, chain)[..i]
      modifies disk
      ensures Valid() && (e.None? ==> i == |Entries(v, chain)|)
      ensures e.Some? ==> i < |Entries(v, chain)| && e.value == Entries(v, chain)[i]
      ensures e.Some? ==> Cursor(v, head, useFat, chain, disk.resident, i + 1, clus', dir')
    {
      hide VolumeOk, Coherent, Whole, Entries, EntryIn, NextCluster, Has, EntriesPerCluster;
      var per := EntriesPerCluster(v);
      ghost var j, m := i / per, i % per;
      DivMod(i, per);
      clus', dir' := clus, dir;
      if i % per == 0 {
        if clus == END_OF_CHAIN {
          AtEnd(v, head, useFat, chain, j, i);
          return None, clus', dir';
        }
        NotAtEnd(v, head, useFat, chain, j, i);
        dir' := clus;
        clus' := Fetch(clus, useFat);
      }
      EntryOfChain(v, chain, j, m, i);
      var entry := LoadEntry(dir', i % per);
      CursorNext(v, head, useFat, chain, disk.resident, i, clus', dir');
      e := Some(entry);
    }

    /** exfat_walk_dir. The directory to scan comes to an end, with `chain` its clusters. */
    method WalkDir(head: nat, useFat: bool, name: seq<Byte>, ghost chain: seq<nat>) returns (r: Option<Node>)
      requires Valid() && Terminated(v, head, useFat, chain)
      modifies disk
      ensures Valid() && r == WalkFrom(Entries(v, chain), 0, WALK_START, name)
    {
      hide Mount.Valid, Entries, WalkNext, Cursor, Terminated;
      ghost var es := TerminatedEntries(v, head, useFat, chain);
      CursorStart(this, head, useFat, chain);
      var st, clus, dir, i := WALK_START, head, 0, 0;
      while true
        invariant Valid() && 0 <= i <= |es| && Cursor(v, head, useFat, chain, disk.resident, i, clus, dir)
        invariant WalkFrom(es, i, st, name) == WalkFrom(es, 0, WALK_START, name) && End !in es[..i]
        decreases |es| - i
      {
        var e;
        e, clus, dir := Step(useFat, i, clus, dir, head, chain);
        if e.None? || e.value == End {
          return None;
        }
        st := ScanEntry(st, e.value, name);
        if e.value.FileName? && !st.differs && st.ptr == st.nameLen && st.ptr == |name| {
          return Some(Node(st.clus, st.useFat, st.isDir, st.len));
        }
        i := i + 1;
      }
    }

    /** The name entry of exfat_read_dir, character by character. */
    method CopyName(st: List, chars: seq<Byte>) returns (r: List)
      requires |chars| == NAME_CHARS && st.ptr <= |st.out.name|
      ensures r == ListNext(st, FileName(chars))
    {
      var ptr, k, name := st.ptr, 0, st.out.name[..st.ptr];
      while k < NAME_CHARS && ptr < st.nameLen
        invariant 0 <= k <= NAME_CHARS && ptr == st.ptr + k && (k > 0 ==> ptr <= st.nameLen)
        invariant name == st.out.name[..st.ptr] + chars[..k]
      {
        name := name + [chars[k]];
        ptr := ptr + 1;
        k := k + 1;
      }
      r := st.(ptr := ptr, out := st.out.(name := name));
    }

    /** The switch of exfat_read_dir. */
    method ListEntry(st: List, e: Entry) returns (r: List)
      requires EntryOk(e) && st.ptr <= |st.out.name|
      ensures r == ListNext(st, e) && r.ptr <= |r.out.name|
    {
      match e
      case FileEntry(isDir) =>
        r := st.(ptr := 0, out := st.out.(isDir := isDir));
      case StreamExt(clus, nameLen, len, useFat) =>
        r := st.(nameLen := nameLen, out := st.out.(ino := clus, len := len));
      case FileName(chars) =>
        r := CopyName(st, chars);
      case _ =>
        r := st;
    }

    /** exfat_read_dir from entry `start` on: the file listed and the entry to go on from. None stands for
        the empty entry written at the end, which leaves the position alone. */
    method ReadDir(head: nat, useFat: bool, start: nat, dst: Dirent, ghost chain: seq<nat>) returns (r: Option<(Dirent, nat)>)
      requires Valid() && Terminated(v, head, useFat, chain)
      requires start <= |Entries(v, chain)| && End !in Entries(v, chain)[..start]
      modifies disk
      ensures Valid() && r == ListFrom(Entries(v, chain), start, ListStart(dst))
      ensures r.Some? ==> End !in Entries(v, chain)[..r.value.1]
    {
      hide Mount.Valid, Entries, ListNext, Cursor, Terminated;
      ghost var es := TerminatedEntries(v, head, useFat, chain);
      CursorStart(this, head, useFat, chain);
      var st, clus, dir, i := List(0, 0, dst), head, 0, 0;
      while true
        invariant Valid() && 0 <= i <= |es| && Cursor(v, head, useFat, chain, disk.resident, i, clus, dir)
        invariant i <= start ==> st == ListStart(dst)
        invariant i >= start ==> ListFrom(es, i, st) == ListFrom(es, start, ListStart(dst))
        invariant End !in es[..i] && st.ptr <= |st.out.name|
        decreases |es| - i
      {
        var e;
        e, clus, dir := Step(useFat, i, clus, dir, head, chain);
        if e.None? {
          return None;
        }
        if i >= start {
          if e.value == End {
            return None;
          }
          st := ListEntry(st, e.value);
          if e.value.FileName? && st.ptr == st.nameLen {
            return Some((st.out, i + 1));
          }
        } else {
          assert es[i] == es[..start][i];
        }
        i := i + 1;
      }
    }

    /** The first loop of exfat_read_file: the cluster that holds position `p`, and where in it. */
    method Seek(head: nat, useFat: bool, p: nat, ghost chain: seq<nat>) returns (clus: nat, ptr: nat, ghost q: nat)
      requires Valid() && IsChain(v, head, useFat, chain) && p <= |chain| * ClusterSize(v)
      modifies disk
      ensures Valid() && p == q * ClusterSize(v) + ptr && ptr < ClusterSize(v)
      ensures q <= |chain| && clus == Nth(v, head, useFat, chain, q)
    {
      hide VolumeOk, Coherent, Whole, NextCluster, ClusterSize;
      SizePositive(v);
      var cs := ClusterSize(v);
      clus, ptr, q := head, p, 0;
      while ptr >= cs
        invariant Valid() && 0 <= ptr && 0 <= q <= |chain| && q * cs + ptr == p && clus == Nth(v, head, useFat, chain, q)
        decreases ptr
      {
        Further(q, |chain|, cs, ptr);
        ptr := ptr - cs;
        clus := Advance(clus, useFat);
        assert (q + 1) * cs == q * cs + cs;
        q := q + 1;
      }
    }

    /** One turn of the second loop: a stretch of one cluster is copied. */
    method CopyChunk(clus: nat, ptr: nat, n: nat, ghost chain: seq<nat>, ghost q: nat, ghost p: nat) returns (bs: seq<Byte>)
      requires Valid() && (forall j :: 0 <= j < |chain| ==> chain[j] >= 2) && q < |chain| && clus == chain[q] && IsCluster(v, clus)
      requires ptr + n <= ClusterSize(v) && p == q * ClusterSize(v) + ptr
      modifies disk
      ensures Valid() && p + n <= |Content(v, chain)| && bs == Content(v, chain)[p..p + n]
    {
      hide VolumeOk, Coherent, Whole, Content, ClusterSize, ClusterAddress;
      ReadCluster(clus);
      bs := Load(ClusterAddress(v, clus) + ptr, n);
      ContentSlice(v, chain, q, ptr, n, p);
    }

    /** exfat_read_file: at most `sz` bytes of a file of `len` bytes, from position `p` on. */
    method ReadFile(head: nat, useFat: bool, len: nat, p: nat, sz: nat, ghost chain: seq<nat>) returns (out: seq<Byte>)
      requires Valid() && IsChain(v, head, useFat, chain) && p <= len <= |chain| * ClusterSize(v)
      modifies disk
      ensures Valid() && ClusterSize(v) > 0 && (forall j :: 0 <= j < |chain| ==> chain[j] >= 2)
      ensures out == Got(Content(v, chain), ClusterSize(v), len, p, sz)
    {
      hide VolumeOk, Coherent, Whole, NextCluster, Content, ClusterSize, Chunks;
      SizePositive(v);
      var cs := ClusterSize(v);
      ghost var data := Content(v, chain);
      var clus, ptr, q := Seek(head, useFat, p, chain);
      var left := if sz < len - p then sz else len - p;
      ghost var at, total := p, left;
      out := [];
      while left != 0
        invariant Valid() && 0 <= left && 0 <= q <= |chain| && at == q * cs + ptr && 0 <= ptr < cs && at + left <= len
        invariant clus == Nth(v, head, useFat, chain, q)
        invariant out + Chunks(data, cs, at, left) == Chunks(data, cs, p, total)
        decreases left
      {
        Inside(q, |chain|, cs, ptr, at);
        var n := if left < cs - ptr then left else cs - ptr;
        ghost var q', next := ChunkNext(data, cs, q, ptr, at, left, n);
        var bs := CopyChunk(clus, ptr, n, chain, q, at);
        out := out + bs;
        left := left - n;
        clus := Pass(clus, useFat, n);
        q, at, ptr := q', next, 0;
      }
    }

    /** The inner loop: a chunk that was a whole cluster leads to the next one. */
    method Pass(c: nat, useFat: bool, n: nat) returns (clus: nat)
      requires Valid() && IsCluster(v, c) && n <= ClusterSize(v)
      modifies disk
      ensures Valid() && clus == if n == ClusterSize(v) then NextCluster(v, c, useFat) else c
    {
      hide VolumeOk, Coherent, Whole, NextCluster, ClusterSize;
      SizePositive(v);
      var cs, m := ClusterSize(v), n;
      clus := c;
      while m >= cs
        invariant Valid() && (m == n || (m == 0 && n == cs))
        invariant clus == if m == n then c else NextCluster(v, c, useFat)
        decreases m
      {
        m := m - cs;
        clus := Advance(clus, useFat);
      }
    }

    /** A cluster of a directory is read and the number of the next one found. */
    method Fetch(c: nat, useFat: bool) returns (next: nat)
      requires Valid() && IsCluster(v, c)
      modifies disk
      ensures Valid() && Has(disk.resident, ClusterAddress(v, c), ClusterSize(v)) && next == NextCluster(v, c, useFat)
    {
      ReadCluster(c);
      ghost var res := disk.resident;
      next := Advance(c, useFat);
      assert forall x :: HasByte(res, x) ==> HasByte(disk.resident, x);
    }
  }

  /** Names that agree further on agree before; and a difference stays one. */
  lemma AgreeFurther(name: seq<Byte>, ptr: nat, chars: seq<Byte>, k: nat, n: nat)
    requires k <= n && ptr + n <= |name| && n <= |chars|
    ensures Agree(name, ptr, chars, n) ==> Agree(name, ptr, chars, k)
  {
  }

  /** Where a scan stands before entry `i`: `dir` is the cluster it reads from, `clus` the next one. */
  ghost predicate Cursor(v: Volume, head: nat, useFat: bool, chain: seq<nat>, res: map<nat, Block>, i: nat, clus: nat, dir: nat)
  {
    var per := EntriesPerCluster(v);
    per > 0 &&
    var j, m := i / per, i % per;
    if m == 0 then j <= |chain| && clus == Nth(v, head, useFat, chain, j)
    else
      && j < |chain| && dir == chain[j] && dir >= 2 && clus == Nth(v, head, useFat, chain, j + 1)
      && Has(res, ClusterAddress(v, dir), ClusterSize(v))
  }

  lemma CursorStart(f: Mount, head: nat, useFat: bool, chain: seq<nat>)
    requires f.Valid()
    ensures Cursor(f.v, head, useFat, chain, f.disk.resident, 0, head, 0)
  {
    PerPositive(f.v);
  }

  lemma CursorNext(v: Volume, head: nat, useFat: bool, chain: seq<nat>, res: map<nat, Block>, i: nat, clus: nat, dir: nat)
    requires EntriesPerCluster(v) > 0 && i / EntriesPerCluster(v) < |chain|
    requires var j := i / EntriesPerCluster(v);
      dir == chain[j] && dir >= 2 && clus == Nth(v, head, useFat, chain, j + 1) && Has(res, ClusterAddress(v, dir), ClusterSize(v))
    ensures Cursor(v, head, useFat, chain, res, i + 1, clus, dir)
  {
    hide Has, NextCluster, EntriesPerCluster;
    var per := EntriesPerCluster(v);
    var j, m := i / per, i % per;
    if m + 1 < per {
      PlaceOf(i + 1, per, j, m + 1);
    } else {
      PlaceOf(i + 1, per, j + 1, 0);
    }
  }

  lemma TerminatedEntries(v: Volume, head: nat, useFat: bool, chain: seq<nat>) returns (es: seq<Entry>)
    requires Terminated(v, head, useFat, chain)
    ensures (forall j :: 0 <= j < |chain| ==> chain[j] >= 2) && es == Entries(v, chain) && AllOk(es)
  {
    es := Entries(v, chain);
  }

  /** The turn at position `at`: what it copies, and where the next one starts. */
  lemma ChunkNext(data: seq<Byte>, cs: nat, q: nat, ptr: nat, at: nat, left: nat, n: nat) returns (q': nat, next: nat)
    requires at == q * cs + ptr && ptr < cs && 0 < left && at + left <= |data| && n == (if left < cs - ptr then left else cs - ptr)
    ensures q' == (if n == cs then q + 1 else q) && next == q' * cs && next <= at + n
    ensures Chunks(data, cs, at, left) == data[at..at + n] + Chunks(data, cs, next, left - n)
  {
    hide Chunks;
    PlaceOf(at, cs, q, ptr);
    q' := if n == cs then q + 1 else q;
    next := if n == cs then at + cs else at - ptr;
    NextRow(q, cs);
    ChunksAt(data, cs, at, left, ptr);
  }

  lemma NextRow(q: nat, cs: nat)
    ensures (q + 1) * cs == q * cs + cs
  {
  }

  lemma ChunksAt(data: seq<Byte>, cs: nat, at: nat, left: nat, ptr: nat)
    requires cs > 0 && 0 < left && at + left <= |data| && ptr == at % cs
    ensures var k := Min(left, cs - ptr); var next := if k == cs then at + cs else at - ptr;
      0 <= next && next + left - k <= |data| && Chunks(data, cs, at, left) == data[at..at + k] + Chunks(data, cs, next, left - k)
  {
    InCluster(at, cs);
  }

  lemma SizePositive(v: Volume)
    requires VolumeOk(v)
    ensures ClusterSize(v) > 0
  {
  }

  /** A position a whole cluster further on is still in the file. */
  lemma Further(q: nat, n: nat, cs: nat, ptr: nat)
    requires q * cs + ptr <= n * cs && ptr >= cs > 0
    ensures q < n
  {
    if q >= n {
      Monotone(n, q, cs);
    }
  }

  lemma Inside(q: nat, n: nat, cs: nat, ptr: nat, at: nat)
    requires at == q * cs + ptr < n * cs && ptr < cs
    ensures q < n
  {
    if q >= n {
      Monotone(n, q, cs);
    }
  }

  lemma Monotone(n: nat, q: nat, cs: nat)
    requires n <= q
    ensures n * cs <= q * cs
  {
    if n < q {
      Times(n, q, cs);
    }
  }

  lemma PerPositive(v: Volume)
    requires VolumeOk(v)
    ensures EntriesPerCluster(v) > 0 && ENTRY * EntriesPerCluster(v) == ClusterSize(v)
  {
  }

  lemma PlaceOf(i: nat, per: nat, j: nat, m: nat)
    requires i == j * per + m && m < per
    ensures i / per == j && i % per == m
  {
    Unique(i / per, i % per, j, m, per);
  }

  lemma DivMod(i: nat, per: nat)
    requires per > 0
    ensures i == i / per * per + i % per && 0 <= i % per < per && 0 <= i / per
  {
  }

  lemma Unique(a: nat, x: nat, b: nat, y: nat, per: nat)
    requires a * per + x == b * per + y && x < per && y < per
    ensures a == b && x == y
  {
    if a < b {
      Times(a, b, per);
    } else if b < a {
      Times(b, a, per);
    }
  }

  /** The scan stands at the start of a cluster and there is none: every entry has been seen. */
  lemma AtEnd(v: Volume, head: nat, useFat: bool, chain: seq<nat>, j: nat, i: nat)
    requires Terminated(v, head, useFat, chain) && VolumeOk(v) && j <= |chain| && i == j * EntriesPerCluster(v)
    requires Nth(v, head, useFat, chain, j) == END_OF_CHAIN
    ensures i == |Entries(v, chain)|
  {
    hide Entries, NextCluster;
    assert j < |chain| ==> IsCluster(v, chain[j]);
  }

  /** There is a next cluster, and it belongs to the directory. */
  lemma NotAtEnd(v: Volume, head: nat, useFat: bool, chain: seq<nat>, j: nat, i: nat)
    requires Terminated(v, head, useFat, chain) && j <= |chain| && i == j * EntriesPerCluster(v)
    requires Nth(v, head, useFat, chain, j) != END_OF_CHAIN && i <= |Entries(v, chain)| && End !in Entries(v, chain)[..i]
    ensures j < |chain| && IsCluster(v, chain[j]) && chain[j] == Nth(v, head, useFat, chain, j)
  {
    hide Entries, NextCluster;
    var es := Entries(v, chain);
    assert es[..|es|] == es;
  }
}
