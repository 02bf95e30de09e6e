/** The layout of an exFAT volume on the disk: its FAT, its clusters, its directory entries. */
module ExFat {
  import opened Words
  import opened Disk
  import opened Directory

  /** `fat` is the sector the FAT begins at, `count` the number of clusters, `root` the first cluster of the
      root directory. Sectors are 512 bytes. */
  datatype Volume = Volume(blocks: seq<Block>, fat: nat, g: Geometry, count: nat, root: nat)

  const END_OF_CHAIN: nat := 0xFFFF_FFFF
  const ENTRY: nat := 32

  /** The FAT lies before the heap and the heap on the disk. With fewer than 2^30 clusters no FAT offset
      leaves 32 bits. */
  ghost predicate VolumeOk(v: Volume)
  {
    && Aligned(v.g) && v.count + 2 <= 0x4000_0000
    && v.fat * SECTOR + 4 * (v.count + 2) <= v.g.heap * SECTOR
    && v.g.heap + v.count * v.g.spc <= SECTORS_PER_BLOCK * |v.blocks|
  }

  predicate IsCluster(v: Volume, c: nat)
  {
    2 <= c < v.count + 2
  }

  function ClusterSize(v: Volume): (n: nat)
  {
    v.g.spc * SECTOR
  }

  // ---------------------------------------------------------------- bytes

  function DiskByte(v: Volume, a: nat): (b: Byte)
  {
    if a / BLOCK < |v.blocks| then v.blocks[a / BLOCK][a % BLOCK] else 0
  }

  function DiskBytes(v: Volume, a: nat, n: nat): (r: seq<Byte>)
    ensures |r| == n && forall i :: 0 <= i < n ==> r[i] == DiskByte(v, a + i)
  {
    if n == 0 then [] else DiskBytes(v, a, n - 1) + [DiskByte(v, a + n - 1)]
  }

  function ClusterAddress(v: Volume, c: nat): (a: nat)
    requires c >= 2
  {
    ClusterLba(v.g, c) * SECTOR
  }

  function ClusterBytes(v: Volume, c: nat): (r: seq<Byte>)
    requires c >= 2
  {
    DiskBytes(v, ClusterAddress(v, c), ClusterSize(v))
  }

  function FatAddress(v: Volume, id: nat): (a: nat)
  {
    v.fat * SECTOR + 4 * id
  }

  function FatAt(v: Volume, id: nat): (r: nat)
  {
    FromBytes(DiskBytes(v, FatAddress(v, id), 4))
  }

  /** The cluster after `c` of a file or directory. */
  function NextCluster(v: Volume, c: nat, useFat: bool): (r: nat)
  {
    if useFat then FatAt(v, c) else c + 1
  }

  // ---------------------------------------------------------------- where things are

  /** Every cluster lies on the disk. */
  lemma ClusterFits(v: Volume, c: nat)
    requires VolumeOk(v) && IsCluster(v, c)
    ensures FirstBlock(v.g, c) + Turns(v.g.spc) <= |v.blocks|
  {
    var i := c - 2;
    Times(i, v.count, v.g.spc);
    if v.g.spc % SECTORS_PER_BLOCK == 0 {
      var q := v.g.spc / SECTORS_PER_BLOCK;
      BlocksOf(v.g, c, q);
      assert v.g.spc == SECTORS_PER_BLOCK * q;
      assert i * v.g.spc == SECTORS_PER_BLOCK * (i * q);
    } else {
      SmallCluster(v.g, c);
    }
  }

  /** The sector get_fat_at asks for holds the entry, and is not in the heap. */
  lemma FatBlock(v: Volume, id: nat, k: nat)
    requires VolumeOk(v) && IsCluster(v, id) && k < 4
    ensures (FatAddress(v, id) + k) / BLOCK == (v.fat + id * 4 / SECTOR) / SECTORS_PER_BLOCK
    ensures (v.fat + id * 4 / SECTOR) / SECTORS_PER_BLOCK < v.g.heap / SECTORS_PER_BLOCK <= |v.blocks|
  {
    assert v.count * v.g.spc >= 0;
    assert (FatAddress(v, id) + k) / SECTOR == v.fat + id * 4 / SECTOR;
    assert (FatAddress(v, id) + k) / BLOCK == (FatAddress(v, id) + k) / SECTOR / SECTORS_PER_BLOCK;
  }

  // ---------------------------------------------------------------- directory entries

  /** The fields of a 32-byte entry that the scans use. */
  function Parse(e: seq<Byte>): (r: Entry)
    requires |e| == ENTRY
    ensures EntryOk(r)
  {
    if e[0] == 0x00 then End
    else if e[0] == 0x85 then FileEntry(e[4] / 16 % 2 == 1)
    else if e[0] == 0xC0 then StreamExt(FromBytes(e[20..24]), e[3], FromBytes(e[8..16]), e[1] / 2 % 2 == 0)
    else if e[0] == 0xC1 then FileName(seq(NAME_CHARS, k requires 0 <= k < NAME_CHARS => e[2 + 2 * k]))
    else Other
  }

  /** The bytes of an entry on the disk; `pad` fills the fields no scan looks at. */
  function Written(e: Entry, pad: Byte): (r: seq<Byte>)
    requires EntryFits(e)
    ensures |r| == ENTRY
  {
    match e
    case End => [0x00] + Fill(pad, 31)
    case FileEntry(isDir) => [0x85, pad, pad, pad, if isDir then 0x10 else 0x20] + Fill(pad, 27)
    case StreamExt(clus, nameLen, len, useFat) =>
      [0xC0, if useFat then 0x01 else 0x03, pad, nameLen] + Fill(pad, 4) + ToBytes(len, 8) + Fill(pad, 4) + ToBytes(clus, 4) + Fill(pad, 8)
    case FileName(chars) => [0xC1, pad] + Wide(chars, pad)
    case Other => [0x05] + Fill(pad, 31)
  }

  ghost predicate EntryFits(e: Entry)
  {
    match e
    case StreamExt(clus, nameLen, len, useFat) => clus < 0x1_0000_0000 && nameLen < 256 && len < 0x1_0000_0000_0000_0000
    case FileName(chars) => |chars| == NAME_CHARS
    case _ => true
  }

  function Fill(pad: Byte, n: nat): (r: seq<Byte>)
    ensures |r| == n && forall i :: 0 <= i < n ==> r[i] == pad
  {
    if n == 0 then [] else Fill(pad, n - 1) + [pad]
  }

  /** Characters of 16 bits, low byte first. */
  function Wide(chars: seq<Byte>, high: Byte): (r: seq<Byte>)
    ensures |r| == 2 * |chars| && forall k :: 0 <= k < |chars| ==> r[2 * k] == chars[k]
  {
    if chars == [] then [] else var n := |chars| - 1; Wide(chars[..n], high) + [chars[n], high]
  }

  /** The fields are read from where the format puts them: parsing an entry gives back what was written. */
  lemma ParseWritten(e: Entry, pad: Byte)
    requires EntryFits(e)
    ensures Parse(Written(e, pad)) == e
  {
    match e
    case StreamExt(clus, nameLen, len, useFat) =>
      ParseStream(clus, nameLen, len, useFat, pad);
    case FileName(chars) =>
      ParseName(chars, pad);
    case _ =>
  }

  lemma ParseStream(clus: nat, nameLen: nat, len: nat, useFat: bool, pad: Byte)
    requires EntryFits(StreamExt(clus, nameLen, len, useFat))
    ensures Parse(Written(StreamExt(clus, nameLen, len, useFat), pad)) == StreamExt(clus, nameLen, len, useFat)
  {
    hide ToBytes, FromBytes, Fill, Pow256;
    var front: seq<Byte> := [0xC0, if useFat then 0x01 else 0x03, pad, nameLen] + Fill(pad, 4);
    var middle := front + ToBytes(len, 8) + Fill(pad, 4);
    var bs := middle + ToBytes(clus, 4) + Fill(pad, 8);
    assert bs == Written(StreamExt(clus, nameLen, len, useFat), pad);
    assert bs[20..24] == ToBytes(clus, 4);
    assert bs[8..16] == middle[8..16] == ToBytes(len, 8);
    Powers();
    NumberRoundTrip(len, 8);
    NumberRoundTrip(clus, 4);
  }

  lemma Powers()
    ensures Pow256(8) == 0x1_0000_0000_0000_0000 && Pow256(4) == 0x1_0000_0000
  {
    assert Pow256(2) == 0x1_0000;
    assert Pow256(4) == 0x1_0000_0000;
    assert Pow256(6) == 0x1_0000_0000_0000;
  }

  lemma ParseName(chars: seq<Byte>, pad: Byte)
    requires |chars| == NAME_CHARS
    ensures Parse(Written(FileName(chars), pad)) == FileName(chars)
  {
    hide Wide;
    var bs := Written(FileName(chars), pad);
    var w := Wide(chars, pad);
    assert bs[0] == 0xC1;
    forall k | 0 <= k < NAME_CHARS ensures Parse(bs).chars[k] == chars[k] {
      assert bs[2 + 2 * k] == w[2 * k];
    }
  }

  /** Bit 4 of the attributes makes a directory and bit 1 of the flags a file without FAT links, whatever the other bits
      are; every type but the four is passed over. */
  lemma ParseBits(e: seq<Byte>, low: nat, bit: bool, high: nat)
    requires |e| == ENTRY
    ensures Parse(e).End? <==> e[0] == 0x00
    ensures e[0] == 0x85 && e[4] == low + 16 * Bit(bit) + 32 * high && low < 16 ==> Parse(e) == FileEntry(bit)
    ensures e[0] == 0xC0 && e[1] == low + 2 * Bit(bit) + 4 * high && low < 2 ==> Parse(e).StreamExt? && Parse(e).useFat == !bit
    ensures e[0] !in {0x00, 0x85, 0xC0, 0xC1} ==> Parse(e) == Other
  {
  }

  /** The number in four bytes from `k` on. */
  function Four(e: seq<Byte>, k: nat): (r: nat)
    requires k + 4 <= |e|
  {
    (e[k] as int) + 0x100 * (e[k + 1] as int) + 0x1_0000 * (e[k + 2] as int) + 0x100_0000 * (e[k + 3] as int)
  }

  /** The numbers of a stream extension, byte by byte: the first cluster at 20, the valid length at 8, the length of the
      name at 3; and the characters of a name two bytes apart from 2 on. */
  lemma ParseFields(e: seq<Byte>)
    requires |e| == ENTRY
    ensures e[0] == 0xC0 ==> Parse(e) == StreamExt(Four(e, 20), e[3], Four(e, 8) + 0x1_0000_0000 * Four(e, 12), e[1] / 2 % 2 == 0)
    ensures e[0] == 0xC1 ==> Parse(e).FileName? && forall k :: 0 <= k < 15 ==> Parse(e).chars[k] == e[2 + 2 * k]
  {
    hide FromBytes, Pow256;
    FromFourBytes(e[20..24]);
    FromFourBytes(e[8..12]);
    FromFourBytes(e[12..16]);
    FromBytesJoin(e[8..12], e[12..16]);
    assert e[8..16] == e[8..12] + e[12..16];
    Powers();
  }

  function EntriesPerCluster(v: Volume): (n: nat)
  {
    ClusterSize(v) / ENTRY
  }

  /** Entry `m` of cluster `c`. */
  function EntryIn(v: Volume, c: nat, m: nat): (e: Entry)
    requires c >= 2
    ensures EntryOk(e)
  {
    Parse(DiskBytes(v, ClusterAddress(v, c) + ENTRY * m, ENTRY))
  }

  /** `chain` are the clusters from `head` on, linked by the FAT or consecutive. */
  ghost predicate IsChain(v: Volume, head: nat, useFat: bool, chain: seq<nat>)
  {
    forall j :: 0 <= j < |chain| ==> IsCluster(v, chain[j]) && chain[j] == Nth(v, head, useFat, chain, j)
  }

  /** The cluster number found after `j` clusters of the chain. */
  ghost function Nth(v: Volume, head: nat, useFat: bool, chain: seq<nat>, j: nat): (c: nat)
    requires j <= |chain|
  {
    if j == 0 then head else NextCluster(v, chain[j - 1], useFat)
  }

  /** Without FAT links a file lies on consecutive clusters. */
  lemma {:induction false} ContiguousChain(v: Volume, head: nat, chain: seq<nat>, j: nat)
    requires IsChain(v, head, false, chain) && j < |chain|
    ensures chain[j] == head + j
  {
    hide FatAt;
    assert chain[j] == Nth(v, head, false, chain, j);
    if j > 0 {
      ContiguousChain(v, head, chain, j - 1);
    }
  }

  /** With them each cluster is the number that stands, low end first, in the FAT entry of the one before. */
  lemma LinkedChain(v: Volume, head: nat, chain: seq<nat>, j: nat)
    requires IsChain(v, head, true, chain) && j < |chain|
    ensures j == 0 ==> chain[j] == head
    ensures j > 0 ==> chain[j] == FromBytes(DiskBytes(v, v.fat * SECTOR + 4 * chain[j - 1], 4))
    ensures j > 0 ==> var a := v.fat * SECTOR + 4 * chain[j - 1];
      chain[j] == Four([DiskByte(v, a), DiskByte(v, a + 1), DiskByte(v, a + 2), DiskByte(v, a + 3)], 0)
  {
    hide DiskByte, FromBytes;
    assert chain[j] == Nth(v, head, true, chain, j);
    if j > 0 {
      FromFourBytes(DiskBytes(v, v.fat * SECTOR + 4 * chain[j - 1], 4));
    }
  }

  /** The entries of a directory that occupies `chain`. */
  ghost function Entries(v: Volume, chain: seq<nat>): (es: seq<Entry>)
    requires forall j :: 0 <= j < |chain| ==> chain[j] >= 2
    ensures |es| == |chain| * EntriesPerCluster(v) && AllOk(es)
  {
    if chain == [] then []
    else
      var n := |chain| - 1;
      Entries(v, chain[..n]) + seq(EntriesPerCluster(v), m requires 0 <= m => EntryIn(v, chain[n], m))
  }

  lemma {:induction false} EntryOfChain(v: Volume, chain: seq<nat>, j: nat, m: nat, i: nat)
    requires forall l :: 0 <= l < |chain| ==> chain[l] >= 2
    requires j < |chain| && m < EntriesPerCluster(v) && i == j * EntriesPerCluster(v) + m
    ensures i < |Entries(v, chain)| && Entries(v, chain)[i] == EntryIn(v, chain[j], m)
    decreases |chain|
  {
    hide EntriesPerCluster, EntryIn;
    var n := |chain| - 1;
    Times(j, |chain|, EntriesPerCluster(v));
    if j < n {
      EntryOfChain(v, chain[..n], j, m, i);
    }
  }

  /** A directory that comes to an end: after `chain` there is no further cluster, or an end entry stands
      in it. */
  ghost predicate Terminated(v: Volume, head: nat, useFat: bool, chain: seq<nat>)
  {
    && IsChain(v, head, useFat, chain)
    && (Nth(v, head, useFat, chain, |chain|) == END_OF_CHAIN || End in Entries(v, chain))
  }

  // ---------------------------------------------------------------- file contents

  /** The bytes of the clusters of a file, one after the other. */
  ghost function Content(v: Volume, chain: seq<nat>): (data: seq<Byte>)
    requires forall j :: 0 <= j < |chain| ==> chain[j] >= 2
    ensures |data| == |chain| * ClusterSize(v)
  {
    if chain == [] then []
    else
      var n := |chain| - 1;
      assert |chain| * ClusterSize(v) == n * ClusterSize(v) + ClusterSize(v);
      Content(v, chain[..n]) + ClusterBytes(v, chain[n])
  }

  lemma {:induction false} ContentByte(v: Volume, chain: seq<nat>, j: nat, o: nat, i: nat)
    requires forall l :: 0 <= l < |chain| ==> chain[l] >= 2
    requires j < |chain| && o < ClusterSize(v) && i == j * ClusterSize(v) + o
    ensures i < |Content(v, chain)| && Content(v, chain)[i] == DiskByte(v, ClusterAddress(v, chain[j]) + o)
    decreases |chain|
  {
    hide ClusterSize, ClusterAddress, DiskByte;
    var n := |chain| - 1;
    Times(j, |chain|, ClusterSize(v));
    if j < n {
      ContentByte(v, chain[..n], j, o, i);
    }
  }

  /** A stretch inside one cluster. */
  lemma ContentSlice(v: Volume, chain: seq<nat>, j: nat, o: nat, n: nat, p: nat)
    requires forall l :: 0 <= l < |chain| ==> chain[l] >= 2
    requires j < |chain| && o + n <= ClusterSize(v) && p == j * ClusterSize(v) + o
    ensures p + n <= |Content(v, chain)|
    ensures DiskBytes(v, ClusterAddress(v, chain[j]) + o, n) == Content(v, chain)[p..p + n]
  {
    hide ClusterSize, ClusterAddress, DiskByte, Content;
    Times(j, |chain|, ClusterSize(v));
    var a := DiskBytes(v, ClusterAddress(v, chain[j]) + o, n);
    var b := Content(v, chain)[p..p + n];
    forall i | 0 <= i < n ensures a[i] == b[i] {
      ContentByte(v, chain, j, o + i, p + i);
    }
  }

  /** The disk is its blocks, one after the other. */
  lemma DiskBlock(v: Volume, b: nat, x: nat, n: nat)
    requires b < |v.blocks| && x + n <= BLOCK
    ensures DiskBytes(v, BLOCK * b + x, n) == v.blocks[b][x..x + n]
  {
    var bs := DiskBytes(v, BLOCK * b + x, n);
    forall i | 0 <= i < n ensures bs[i] == v.blocks[b][x..x + n][i] {
      assert (BLOCK * b + x + i) / BLOCK == b && (BLOCK * b + x + i) % BLOCK == x + i;
    }
  }

  lemma DiskJoin(v: Volume, a: nat, n: nat, m: nat)
    ensures DiskBytes(v, a, n + m) == DiskBytes(v, a, n) + DiskBytes(v, a + n, m)
  {
    hide DiskByte;
    var x, y, z := DiskBytes(v, a, n + m), DiskBytes(v, a, n), DiskBytes(v, a + n, m);
    forall i | 0 <= i < n + m ensures x[i] == (y + z)[i] {
      if i >= n {
        assert z[i - n] == DiskByte(v, a + n + (i - n));
      }
    }
  }

  /** A file without FAT links is one stretch of the disk. */
  lemma {:induction false} ContiguousContent(v: Volume, head: nat, chain: seq<nat>)
    requires IsChain(v, head, false, chain) && head >= 2
    ensures Content(v, chain) == DiskBytes(v, v.g.heap * SECTOR + (head - 2) * ClusterSize(v), |chain| * ClusterSize(v))
    decreases |chain|
  {
    hide DiskByte, DiskBytes, ClusterSize, ClusterAddress, IsChain;
    var base, cs := v.g.heap * SECTOR + (head - 2) * ClusterSize(v), ClusterSize(v);
    ChainAtLeast2(v, head, false, chain);
    if chain != [] {
      var n := |chain| - 1;
      ContiguousChain(v, head, chain, n);
      ChainFront(v, head, false, chain);
      ContiguousContent(v, head, chain[..n]);
      AddressStep(v, head, n);
      DiskJoin(v, base, n * cs, cs);
      assert |chain| * cs == n * cs + cs;
      assert Content(v, chain) == Content(v, chain[..n]) + ClusterBytes(v, chain[n]);
    }
  }

  lemma ChainAtLeast2(v: Volume, head: nat, useFat: bool, chain: seq<nat>)
    requires IsChain(v, head, useFat, chain)
    ensures forall j :: 0 <= j < |chain| ==> chain[j] >= 2
  {
    hide Nth;
  }

  lemma ChainFront(v: Volume, head: nat, useFat: bool, chain: seq<nat>)
    requires IsChain(v, head, useFat, chain) && chain != []
    ensures IsChain(v, head, useFat, chain[..|chain| - 1])
  {
    hide NextCluster;
    var front := chain[..|chain| - 1];
    forall j | 0 <= j < |front| ensures IsCluster(v, front[j]) && front[j] == Nth(v, head, useFat, front, j) {
      assert chain[j] == Nth(v, head, useFat, chain, j);
    }
  }

  lemma AddressStep(v: Volume, head: nat, n: nat)
    requires head >= 2
    ensures ClusterAddress(v, head + n) == v.g.heap * SECTOR + (head - 2) * ClusterSize(v) + n * ClusterSize(v)
  {
    var spc := v.g.spc;
    assert (head + n - 2) * spc == (head - 2) * spc + n * spc;
    assert (head - 2) * spc * SECTOR == (head - 2) * (spc * SECTOR);
    assert n * spc * SECTOR == n * (spc * SECTOR);
  }

  /** The entries of a directory are the 32-byte records of its content, one after the other. */
  lemma EntriesAreRecords(v: Volume, chain: seq<nat>, i: nat)
    requires (forall j :: 0 <= j < |chain| ==> chain[j] >= 2) && i < |Entries(v, chain)| && ClusterSize(v) == ENTRY * EntriesPerCluster(v)
    ensures ENTRY * i + ENTRY <= |Content(v, chain)| && Entries(v, chain)[i] == Parse(Content(v, chain)[ENTRY * i..ENTRY * i + ENTRY])
  {
    hide Parse, Entries, Content, ClusterSize, EntriesPerCluster, ClusterAddress, DiskByte;
    var per := EntriesPerCluster(v);
    var j, m := RecordPlace(|chain|, per, i);
    EntryOfChain(v, chain, j, m, i);
    ContentSlice(v, chain, j, ENTRY * m, ENTRY, ENTRY * i);
  }

  lemma RecordPlace(n: nat, per: nat, i: nat) returns (j: nat, m: nat)
    requires i < n * per
    ensures j < n && m < per && i == j * per + m
    ensures ENTRY * i == j * (ENTRY * per) + ENTRY * m && ENTRY * m + ENTRY <= ENTRY * per
  {
    j, m := i / per, i % per;
    if j >= n {
      assert j * per >= n * per by {
        if n < j {
          Times(n, j, per);
        }
      }
    }
    Regroup(ENTRY, j, per);
    Regroup(j, ENTRY, per);
  }
}
