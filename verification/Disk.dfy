/** kernel/fs/disk.c: the disk seen through kernel pages. A block of eight sectors is either mapped, and
    then holds what the disk holds, or it is not. */
module Disk {
  import opened Words

  const SECTOR: nat := 512
  const SECTORS_PER_BLOCK: nat := 8
  const BLOCK: nat := 4096

  type Block = b: seq<Byte> | |b| == BLOCK witness seq(BLOCK, _ => 0)

  /** The number of turns disk_read makes for `n` sectors. */
  function Turns(n: nat): (k: nat)
    requires n > 0
    ensures k > 0
  {
    (n - 1) / SECTORS_PER_BLOCK + 1
  }

  ghost predicate Held(res: map<nat, Block>, b: nat, k: nat)
  {
    forall x :: b <= x < b + k ==> x in res
  }

  ghost predicate Absent(res: map<nat, Block>, b: nat, k: nat)
  {
    forall x :: b <= x < b + k ==> x !in res
  }

  /** How many of the `k` blocks from `b` on come before the first resident one. */
  ghost function Leading(res: map<nat, Block>, b: nat, k: nat): (j: nat)
    ensures j <= k && Absent(res, b, j) && (j < k ==> b + j in res)
    decreases k
  {
    if k == 0 || b in res then 0 else 1 + Leading(res, b + 1, k - 1)
  }

  /** What disk_read does to the resident set: the blocks before the first resident one are fetched, and
      there it stops, because it does not move on past a resident block. */
  ghost function After(blocks: seq<Block>, res: map<nat, Block>, b: nat, k: nat): (r: map<nat, Block>)
    requires b + k <= |blocks|
  {
    var j := Leading(res, b, k);
    map x | x in res.Keys + Range(b, j) :: if x in res then res[x] else blocks[x]
  }

  ghost function Range(b: nat, k: nat): (r: set<nat>)
    ensures forall x :: x in r <==> b <= x < b + k
  {
    if k == 0 then {} else Range(b, k - 1) + {b + k - 1}
  }

  ghost predicate Coherent(blocks: seq<Block>, res: map<nat, Block>)
  {
    forall x :: x in res ==> x < |blocks| && res[x] == blocks[x]
  }

  lemma AfterCoherent(blocks: seq<Block>, res: map<nat, Block>, b: nat, k: nat)
    requires b + k <= |blocks| && Coherent(blocks, res)
    ensures Coherent(blocks, After(blocks, res, b, k))
  {
  }

  /** disk_read brings in everything it was asked for exactly when the resident blocks of the request
      are its last ones. */
  lemma WholeRequest(blocks: seq<Block>, res: map<nat, Block>, b: nat, k: nat)
    requires b + k <= |blocks|
    ensures Held(After(blocks, res, b, k), b, k) <==>
            forall x, y :: b <= x <= y < b + k && x in res ==> y in res
  {
    var j := Leading(res, b, k);
    var after := After(blocks, res, b, k);
    if Held(after, b, k) {
      forall x, y | b <= x <= y < b + k && x in res ensures y in res {
        assert y in after;
      }
    }
  }

  /** A request whose first block is already resident brings in nothing more. */
  lemma StopsAtResident(blocks: seq<Block>, res: map<nat, Block>, b: nat, k: nat)
    requires b + k <= |blocks| && b in res && k > 0
    ensures After(blocks, res, b, k) == res
    ensures k > 1 && b + 1 !in res ==> !Held(After(blocks, res, b, k), b, k)
  {
    assert Leading(res, b, k) == 0;
    assert Range(b, 0) == {};
  }

  class Cache {
    const blocks: seq<Block>
    var resident: map<nat, Block>

    constructor (blocks: seq<Block>)
      ensures this.blocks == blocks && resident == map[]
    {
      this.blocks := blocks;
      resident := map[];
    }

    /** sata_read_block: a page is mapped for the block and filled. */
    method SataReadBlock(b: nat)
      requires b < |blocks|
      modifies this
      ensures resident == old(resident)[b := blocks[b]]
    {
      resident := resident[b := blocks[b]];
    }

    method DiskRead(lba: nat, sectors: nat)
      requires sectors > 0 && lba / SECTORS_PER_BLOCK + Turns(sectors) <= |blocks|
      modifies this
      ensures resident == After(blocks, old(resident), lba / SECTORS_PER_BLOCK, Turns(sectors))
    {
      hide Leading, Range;
      ghost var res := resident;
      ghost var b, k := lba / SECTORS_PER_BLOCK, Turns(sectors);
      ghost var j := Leading(res, b, k);
      var at, i := lba, 0;
      while i < (sectors - 1) / SECTORS_PER_BLOCK + 1
        invariant 0 <= i <= k
        invariant at == lba + SECTORS_PER_BLOCK * (if i < j then i else j)
        invariant resident == map x | x in res.Keys + Range(b, if i < j then i else j) :: if x in res then res[x] else blocks[x]
      {
        if at / SECTORS_PER_BLOCK !in resident {
          SataReadBlock(at / SECTORS_PER_BLOCK);
          at := at + SECTORS_PER_BLOCK;
        }
        i := i + 1;
      }
    }
  }

  // ---------------------------------------------------------------- clusters

  /** The cluster heap begins at sector `heap`, with `spc` sectors to a cluster. */
  datatype Geometry = Geometry(heap: nat, spc: nat)

  /** The heap is aligned to blocks, and a cluster is blocks or lies inside one. */
  ghost predicate Aligned(g: Geometry)
  {
    g.heap % SECTORS_PER_BLOCK == 0 && (g.spc == 1 || g.spc == 2 || g.spc == 4 || (g.spc > 0 && g.spc % SECTORS_PER_BLOCK == 0))
  }

  /** The first sector of cluster `c`; numbering starts at 2. */
  function ClusterLba(g: Geometry, c: nat): (lba: nat)
    requires c >= 2
  {
    g.heap + (c - 2) * g.spc
  }

  function FirstBlock(g: Geometry, c: nat): (b: nat)
    requires c >= 2
  {
    ClusterLba(g, c) / SECTORS_PER_BLOCK
  }

  ghost predicate AllOrNone(res: map<nat, Block>, g: Geometry, c: nat)
    requires c >= 2 && g.spc > 0
  {
    Held(res, FirstBlock(g, c), Turns(g.spc)) || Absent(res, FirstBlock(g, c), Turns(g.spc))
  }

  /** Every cluster is resident as a whole or not at all. */
  ghost predicate Whole(res: map<nat, Block>, g: Geometry)
    requires g.spc > 0
  {
    forall c :: c >= 2 ==> AllOrNone(res, g, c)
  }

  /** The blocks of two clusters are the same or have nothing in common. */
  lemma ClustersApart(g: Geometry, c: nat, d: nat)
    requires Aligned(g) && c >= 2 && d >= 2
    ensures var b, e, k := FirstBlock(g, c), FirstBlock(g, d), Turns(g.spc); b == e || b + k <= e || e + k <= b
  {
    if g.spc % SECTORS_PER_BLOCK == 0 {
      var q := g.spc / SECTORS_PER_BLOCK;
      BlocksOf(g, c, q);
      BlocksOf(g, d, q);
      if c < d {
        Times(c - 2, d - 2, q);
      } else if d < c {
        Times(d - 2, c - 2, q);
      }
    }
  }

  lemma {:induction false} Times(i: nat, j: nat, q: nat)
    requires i < j
    ensures i * q + q <= j * q
  {
    if i + 1 < j {
      Times(i, j - 1, q);
    }
  }

  lemma BlocksOf(g: Geometry, c: nat, q: nat)
    requires c >= 2 && g.heap % SECTORS_PER_BLOCK == 0 && g.spc == SECTORS_PER_BLOCK * q && q > 0
    ensures FirstBlock(g, c) == g.heap / SECTORS_PER_BLOCK + (c - 2) * q && Turns(g.spc) == q
  {
    assert (c - 2) * g.spc == SECTORS_PER_BLOCK * ((c - 2) * q);
  }

  /** A whole-cluster read leaves that cluster resident and every cluster whole, although it would stop
      at a resident block. */
  lemma ReadClusterKeeps(blocks: seq<Block>, res: map<nat, Block>, g: Geometry, c: nat)
    requires Aligned(g) && c >= 2 && FirstBlock(g, c) + Turns(g.spc) <= |blocks| && Whole(res, g)
    ensures var after := After(blocks, res, FirstBlock(g, c), Turns(g.spc));
      Held(after, FirstBlock(g, c), Turns(g.spc)) && Whole(after, g)
  {
    hide FirstBlock, Turns, Leading;
    var b, k := FirstBlock(g, c), Turns(g.spc);
    var after := After(blocks, res, b, k);
    assert AllOrNone(res, g, c);
    WholeRequest(blocks, res, b, k);
    assert Held(after, b, k);
    forall d | d >= 2 ensures AllOrNone(after, g, d) {
      ClustersApart(g, c, d);
      assert AllOrNone(res, g, d);
    }
  }

  /** A read of one block outside the heap, such as a sector of the FAT, keeps every cluster whole. */
  lemma ReadOutsideKeeps(blocks: seq<Block>, res: map<nat, Block>, g: Geometry, b: nat)
    requires Aligned(g) && b < g.heap / SECTORS_PER_BLOCK && b < |blocks| && Whole(res, g)
    ensures b in After(blocks, res, b, 1) && Whole(After(blocks, res, b, 1), g)
  {
    hide Turns;
    var after := After(blocks, res, b, 1);
    assert Leading(res, b, 1) == if b in res then 0 else 1;
    forall d | d >= 2 ensures AllOrNone(after, g, d) {
      assert AllOrNone(res, g, d);
      HeapFrom(g, d);
    }
  }

  lemma HeapFrom(g: Geometry, c: nat)
    requires c >= 2 && g.spc > 0
    ensures FirstBlock(g, c) >= g.heap / SECTORS_PER_BLOCK
  {
    assert (c - 2) * g.spc >= 0;
  }

  /** Every byte of a cluster lies in its blocks. */
  lemma InsideCluster(g: Geometry, c: nat, o: nat)
    requires Aligned(g) && c >= 2 && o < g.spc * SECTOR
    ensures FirstBlock(g, c) <= (ClusterLba(g, c) * SECTOR + o) / BLOCK < FirstBlock(g, c) + Turns(g.spc)
  {
    var lba, t := ClusterLba(g, c), o / SECTOR;
    assert (lba * SECTOR + o) / BLOCK == (lba + t) / SECTORS_PER_BLOCK;
    if g.spc % SECTORS_PER_BLOCK == 0 {
      BlocksOf(g, c, g.spc / SECTORS_PER_BLOCK);
      LbaAligned(g, c);
    } else {
      SmallCluster(g, c);
    }
  }

  lemma LbaAligned(g: Geometry, c: nat)
    requires c >= 2 && g.heap % SECTORS_PER_BLOCK == 0 && g.spc % SECTORS_PER_BLOCK == 0
    ensures ClusterLba(g, c) % SECTORS_PER_BLOCK == 0
  {
    var q := g.spc / SECTORS_PER_BLOCK;
    assert (c - 2) * g.spc == SECTORS_PER_BLOCK * ((c - 2) * q);
  }

  lemma SmallCluster(g: Geometry, c: nat)
    requires c >= 2 && g.heap % SECTORS_PER_BLOCK == 0 && (g.spc == 1 || g.spc == 2 || g.spc == 4)
    ensures ClusterLba(g, c) / SECTORS_PER_BLOCK == (ClusterLba(g, c) + g.spc - 1) / SECTORS_PER_BLOCK
  {
  }

  // ---------------------------------------------------------------- whole runs

  /** What the file system asks the disk for. */
  datatype Request = Cluster(c: nat) | Fat(b: nat)

  ghost predicate Possible(blocks: seq<Block>, g: Geometry, r: Request)
    requires g.spc > 0
  {
    match r
    case Cluster(c) => c >= 2 && FirstBlock(g, c) + Turns(g.spc) <= |blocks|
    case Fat(b) => b < g.heap / SECTORS_PER_BLOCK && b < |blocks|
  }

  ghost function Serve(blocks: seq<Block>, res: map<nat, Block>, g: Geometry, r: Request): (t: map<nat, Block>)
    requires g.spc > 0 && Possible(blocks, g, r)
  {
    match r
    case Cluster(c) => After(blocks, res, FirstBlock(g, c), Turns(g.spc))
    case Fat(b) => After(blocks, res, b, 1)
  }

  ghost function ServeAll(blocks: seq<Block>, g: Geometry, rs: seq<Request>): (t: map<nat, Block>)
    requires g.spc > 0 && forall i :: 0 <= i < |rs| ==> Possible(blocks, g, rs[i])
  {
    if rs == [] then map[]
    else var n := |rs| - 1; Serve(blocks, ServeAll(blocks, g, rs[..n]), g, rs[n])
  }

  lemma ServeKeeps(blocks: seq<Block>, res: map<nat, Block>, g: Geometry, r: Request)
    requires Aligned(g) && Possible(blocks, g, r) && Whole(res, g) && Coherent(blocks, res)
    ensures var t := Serve(blocks, res, g, r);
      Whole(t, g) && Coherent(blocks, t) && (r.Cluster? ==> Held(t, FirstBlock(g, r.c), Turns(g.spc))) && (r.Fat? ==> r.b in t)
  {
    hide Whole, After, FirstBlock, Turns, Held;
    match r
    case Cluster(c) =>
      ReadClusterKeeps(blocks, res, g, c);
      AfterCoherent(blocks, res, FirstBlock(g, c), Turns(g.spc));
    case Fat(b) =>
      ReadOutsideKeeps(blocks, res, g, b);
      AfterCoherent(blocks, res, b, 1);
  }

  /** In every run of cluster and FAT reads the resident data is the disk's, every cluster is whole, and
      what was asked for last is there. */
  lemma {:induction false} RunKeeps(blocks: seq<Block>, g: Geometry, rs: seq<Request>)
    requires Aligned(g) && forall i :: 0 <= i < |rs| ==> Possible(blocks, g, rs[i])
    ensures var t := ServeAll(blocks, g, rs); Whole(t, g) && Coherent(blocks, t)
    ensures rs != [] && rs[|rs| - 1].Cluster? ==>
      Held(ServeAll(blocks, g, rs), FirstBlock(g, rs[|rs| - 1].c), Turns(g.spc))
    decreases |rs|
  {
    hide After, FirstBlock, Turns, Serve;
    if rs == [] {
    } else {
      var n := |rs| - 1;
      RunKeeps(blocks, g, rs[..n]);
      ServeKeeps(blocks, ServeAll(blocks, g, rs[..n]), g, rs[n]);
    }
  }
}
