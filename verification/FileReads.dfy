/** What exfat_read_file returns, on the bytes of the clusters of a file one after the other. */
module FileReads {
  import opened Words
  import opened Disk

  /** `n` bytes from position `p` on, as the loop of exfat_read_file fetches them with clusters of `cs`
      bytes: after a chunk that is not a whole cluster it goes on at the start of the same cluster. */
  ghost function Chunks(data: seq<Byte>, cs: nat, p: nat, n: nat): (r: seq<Byte>)
    requires cs > 0 && p + n <= |data|
    ensures |r| == n
    decreases n
  {
    if n == 0 then []
    else
      var ptr := p % cs;
      var k := Min(n, cs - ptr);
      InCluster(p, cs);
      data[p..p + k] + Chunks(data, cs, if k == cs then p + cs else p - ptr, n - k)
  }

  lemma InCluster(p: nat, cs: nat)
    requires cs > 0
    ensures 0 <= p % cs < cs && p % cs <= p && (p - p % cs) % cs == 0 && (p % cs == 0 ==> (p + cs) % cs == 0)
    ensures p == p / cs * cs + p % cs
  {
    var q := p / cs;
    assert p == q * cs + p % cs;
    ModOf(q, cs);
    ModOf(q + 1, cs);
    assert (q + 1) * cs == q * cs + cs;
  }

  lemma ModOf(q: nat, cs: nat)
    requires cs > 0
    ensures q * cs % cs == 0
  {
    var a := q * cs / cs;
    if a < q {
      Times(a, q, cs);
    } else if q < a {
      Times(q, a, cs);
    }
  }

  /** What a read of `sz` bytes at `p` in a file of `len` bytes returns. */
  ghost function Got(data: seq<Byte>, cs: nat, len: nat, p: nat, sz: nat): (r: seq<Byte>)
    requires cs > 0 && p <= len <= |data|
  {
    Chunks(data, cs, p, Min(sz, len - p))
  }

  /** What it should return. */
  ghost function Wanted(data: seq<Byte>, len: nat, p: nat, sz: nat): (r: seq<Byte>)
    requires p <= len <= |data|
  {
    data[p..p + Min(sz, len - p)]
  }

  /** The read starts at a cluster boundary or stays inside one cluster. */
  predicate Straight(cs: nat, len: nat, p: nat, sz: nat)
    requires cs > 0 && p <= len
  {
    p % cs == 0 || p % cs + Min(sz, len - p) <= cs
  }

  lemma {:induction false} AlignedChunks(data: seq<Byte>, cs: nat, p: nat, n: nat)
    requires cs > 0 && p + n <= |data| && p % cs == 0
    ensures Chunks(data, cs, p, n) == data[p..p + n]
    decreases n
  {
    if n > 0 {
      var k := Min(n, cs);
      InCluster(p, cs);
      if k == cs {
        AlignedChunks(data, cs, p + cs, n - cs);
        assert data[p..p + cs] + data[p + cs..p + n] == data[p..p + n];
      }
    }
  }

  /** Exactly what comes back: the bytes asked for up to the end of the first cluster, and from there on,
      when the read did not start at a boundary, the bytes one cluster before those asked for. */
  lemma ReadIs(data: seq<Byte>, cs: nat, len: nat, p: nat, sz: nat)
    requires cs > 0 && p <= len <= |data|
    ensures var n := Min(sz, len - p); var got := Got(data, cs, len, p, sz);
      && |got| == n
      && (Straight(cs, len, p, sz) ==> got == Wanted(data, len, p, sz))
      && (!Straight(cs, len, p, sz) ==>
            var first := cs - p % cs;
            first < n && first <= cs <= p + first && got == data[p..p + first] + data[p + first - cs..p + n - cs])
  {
    var n := Min(sz, len - p);
    InCluster(p, cs);
    if p % cs == 0 {
      AlignedChunks(data, cs, p, n);
    } else if n > 0 {
      var k := Min(n, cs - p % cs);
      AlignedChunks(data, cs, p - p % cs, n - k);
      if Straight(cs, len, p, sz) {
        assert data[p..p + k] + [] == data[p..p + n];
      }
    }
  }

  /** Bytes that tell two neighbouring clusters apart. */
  ghost function Edge(len: nat, at: nat): (r: seq<Byte>)
    ensures |r| == len && forall i :: 0 <= i < len ==> r[i] == if i < at then 0 else 1
  {
    if len == 0 then [] else Edge(len - 1, at) + [if len - 1 < at then 0 else 1]
  }

  /** A read returns what the file holds, for every content of the file, if and only if it starts at a
      cluster boundary or stays inside one cluster. */
  lemma RightIff(cs: nat, len: nat, p: nat, sz: nat)
    requires cs > 0 && p <= len
    ensures Straight(cs, len, p, sz) <==>
      forall data: seq<Byte> :: |data| >= len ==> Got(data, cs, len, p, sz) == Wanted(data, len, p, sz)
  {
    if Straight(cs, len, p, sz) {
      forall data: seq<Byte> | |data| >= len ensures Got(data, cs, len, p, sz) == Wanted(data, len, p, sz) {
        ReadIs(data, cs, len, p, sz);
      }
    } else {
      var first := cs - p % cs;
      var data := Edge(len, p + first);
      ReadIs(data, cs, len, p, sz);
      var got := Got(data, cs, len, p, sz);
      assert got[first] == data[p + first - cs] == 0;
      assert Wanted(data, len, p, sz)[first] == data[p + first] == 1;
    }
  }

  // ---------------------------------------------------------------- one read after the other

  /** Reads of the given sizes, each starting where the one before ended. */
  ghost function ReadAll(data: seq<Byte>, cs: nat, len: nat, p: nat, sizes: seq<nat>): (r: seq<Byte>)
    requires cs > 0 && p <= len <= |data|
    decreases |sizes|
  {
    if sizes == [] then []
    else
      var got := Got(data, cs, len, p, sizes[0]);
      got + ReadAll(data, cs, len, p + |got|, sizes[1..])
  }

  function Total(sizes: seq<nat>): (n: nat)
  {
    if sizes == [] then 0 else sizes[0] + Total(sizes[1..])
  }

  /** Reads by whole clusters, one after the other, give the file from where they start. */
  lemma {:induction false} ReadsJoin(data: seq<Byte>, cs: nat, len: nat, p: nat, sizes: seq<nat>)
    requires cs > 0 && p <= len <= |data| && (p % cs == 0 || p == len)
    requires forall i :: 0 <= i < |sizes| ==> sizes[i] % cs == 0
    ensures ReadAll(data, cs, len, p, sizes) == Wanted(data, len, p, Total(sizes))
    decreases |sizes|
  {
    hide Got;
    if sizes != [] {
      var n := Min(sizes[0], len - p);
      FirstRead(data, cs, len, p, sizes[0]);
      ReadsJoin(data, cs, len, p + n, sizes[1..]);
      var m := Min(Total(sizes), len - p);
      assert data[p..p + n] + data[p + n..p + m] == data[p..p + m];
    }
  }

  /** One such read, and where the next one starts. */
  lemma FirstRead(data: seq<Byte>, cs: nat, len: nat, p: nat, sz: nat)
    requires cs > 0 && p <= len <= |data| && (p % cs == 0 || p == len) && sz % cs == 0
    ensures var n := Min(sz, len - p);
      Got(data, cs, len, p, sz) == data[p..p + n] && ((p + n) % cs == 0 || p + n == len)
  {
    ReadIs(data, cs, len, p, sz);
    InCluster(p, cs);
    if p % cs == 0 {
      SumAligned(p, sz, cs);
    }
  }

  lemma SumAligned(a: nat, b: nat, cs: nat)
    requires cs > 0 && a % cs == 0 && b % cs == 0
    ensures (a + b) % cs == 0
  {
    var i, j := a / cs, b / cs;
    assert a == i * cs && b == j * cs;
    assert (i + j) * cs == i * cs + j * cs;
    ModOf(i + j, cs);
  }
}
