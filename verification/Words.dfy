/** Physical memory contents: 64-bit words, and the two ways the kernel looks at them.
    A page-table entry reads a word as bit fields (frame number and the U, W, P flags);
    a user process reads the same word as eight little-endian bytes. */
module Words {

  type Byte = x: int | 0 <= x < 256

  const WORDS_PER_PAGE: nat := 512
  const PAGE_SIZE: nat := 4096

  function Min(a: nat, b: nat): (r: nat)
    ensures r <= a && r <= b && (r == a || r == b)
  {
    if a < b then a else b
  }

  function Max(a: nat, b: nat): (r: nat)
    ensures r >= a && r >= b && (r == a || r == b)
  {
    if a < b then b else a
  }

  /** Bits 12.. of a word are `frame`, bits 3..11 are `rest`, then U (4), W (2) and P (1). */
  datatype Bits = Bits(frame: nat, rest: nat, u: bool, w: bool, p: bool)

  type Word = b: Bits | b.frame < 0x10_0000_0000_0000 && b.rest < 512
    witness Bits(0, 0, false, false, false)

  const ZERO: Word := Bits(0, 0, false, false, false)

  type Page = s: seq<Word> | |s| == WORDS_PER_PAGE witness seq(WORDS_PER_PAGE, _ => ZERO)

  function ZeroPage(): (pg: Page)
    ensures forall i :: 0 <= i < WORDS_PER_PAGE ==> pg[i] == ZERO
  {
    seq(WORDS_PER_PAGE, _ => ZERO)
  }

  function Bit(b: bool): (r: nat)
  {
    if b then 1 else 0
  }

  /** The word as an unsigned number. */
  function Value(x: Word): (r: nat)
    ensures r < 0x1_0000_0000_0000_0000
  {
    x.frame * 4096 + x.rest * 8 + Bit(x.u) * 4 + Bit(x.w) * 2 + Bit(x.p)
  }

  function FromValue(n: nat): (r: Word)
    requires n < 0x1_0000_0000_0000_0000
    ensures Value(r) == n
  {
    var a := n / 2;
    var b := a / 2;
    var c := b / 2;
    Bits(c / 512, c % 512, b % 2 == 1, a % 2 == 1, n % 2 == 1)
  }

  function Pow256(n: nat): (r: nat)
    ensures r >= 1
  {
    if n == 0 then 1 else 256 * Pow256(n - 1)
  }

  function ToBytes(v: nat, n: nat): (r: seq<Byte>)
    ensures |r| == n
    decreases n
  {
    if n == 0 then [] else [v % 256] + ToBytes(v / 256, n - 1)
  }

  function FromBytes(bs: seq<Byte>): (r: nat)
    ensures r < Pow256(|bs|)
  {
    if bs == [] then 0 else bs[0] + 256 * FromBytes(bs[1..])
  }

  lemma {:induction false} BytesRoundTrip(bs: seq<Byte>)
    ensures ToBytes(FromBytes(bs), |bs|) == bs
  {
    if bs != [] {
      BytesRoundTrip(bs[1..]);
      assert FromBytes(bs) / 256 == FromBytes(bs[1..]);
      assert FromBytes(bs) % 256 == bs[0];
    }
  }

  /** Numbers are stored low end first: what stands further on counts for more. */
  lemma {:induction false} FromBytesJoin(a: seq<Byte>, b: seq<Byte>)
    ensures FromBytes(a + b) == FromBytes(a) + Pow256(|a|) * FromBytes(b)
  {
    if a == [] {
      assert a + b == b;
    } else {
      FromBytesJoin(a[1..], b);
      assert (a + b)[1..] == a[1..] + b;
      Regroup(256, Pow256(|a| - 1), FromBytes(b));
    }
  }

  lemma Regroup(x: nat, y: nat, z: nat)
    ensures x * (y * z) == x * y * z
  {
  }

  lemma FromFourBytes(bs: seq<Byte>)
    requires |bs| == 4
    ensures FromBytes(bs) == (bs[0] as int) + 0x100 * (bs[1] as int) + 0x1_0000 * (bs[2] as int) + 0x100_0000 * (bs[3] as int)
  {
    assert FromBytes(bs[1..][1..][1..][1..]) == 0;
    assert FromBytes(bs[1..][1..][1..]) == bs[3];
    assert FromBytes(bs[1..][1..]) == (bs[2] as int) + 256 * (bs[3] as int);
  }

  function WordBytes(x: Word): (r: seq<Byte>)
    ensures |r| == 8
  {
    ToBytes(Value(x), 8)
  }

  function WordOfBytes(bs: seq<Byte>): (r: Word)
    requires |bs| == 8
    ensures Value(r) == FromBytes(bs)
  {
    assert Pow256(8) == 0x1_0000_0000_0000_0000;
    FromValue(FromBytes(bs))
  }

  /** Byte `off` of a page. */
  function ByteAt(pg: Page, off: nat): (r: Byte)
    requires off < PAGE_SIZE
  {
    WordBytes(pg[off / 8])[off % 8]
  }

  /** Byte `off` of a page replaced. */
  function StoreByte(pg: Page, off: nat, b: Byte): (r: Page)
    requires off < PAGE_SIZE
  {
    pg[off / 8 := WordOfBytes(WordBytes(pg[off / 8])[off % 8 := b])]
  }

  /** A byte store changes that byte and no other, although memory is made of words. */
  lemma ByteAtStoreByte(pg: Page, off: nat, b: Byte, j: nat)
    requires off < PAGE_SIZE && j < PAGE_SIZE
    ensures ByteAt(StoreByte(pg, off, b), j) == if j == off then b else ByteAt(pg, j)
  {
    hide ToBytes, FromBytes, Value;
    BytesRoundTrip(WordBytes(pg[off / 8])[off % 8 := b]);
  }

  lemma {:induction false} NumberRoundTrip(v: nat, n: nat)
    requires v < Pow256(n)
    ensures FromBytes(ToBytes(v, n)) == v
  {
    if n > 0 {
      NumberRoundTrip(v / 256, n - 1);
      assert ToBytes(v, n)[1..] == ToBytes(v / 256, n - 1);
    }
  }

  lemma ValueInjective(x: Word, y: Word)
    requires Value(x) == Value(y)
    ensures x == y
  {
    assert x.frame == Value(x) / 4096 && y.frame == Value(y) / 4096;
  }

  /** Pages with the same bytes are the same page. */
  lemma SameBytesSamePage(a: Page, b: Page)
    requires forall j :: 0 <= j < PAGE_SIZE ==> ByteAt(a, j) == ByteAt(b, j)
    ensures a == b
  {
    forall i | 0 <= i < WORDS_PER_PAGE ensures a[i] == b[i] {
      forall k | 0 <= k < 8 ensures WordBytes(a[i])[k] == WordBytes(b[i])[k] {
        var j := 8 * i + k;
        assert ByteAt(a, j) == ByteAt(b, j);
        assert j / 8 == i && j % 8 == k;
      }
      assert WordBytes(a[i]) == WordBytes(b[i]);
      assert Pow256(8) == 0x1_0000_0000_0000_0000;
      NumberRoundTrip(Value(a[i]), 8);
      NumberRoundTrip(Value(b[i]), 8);
      ValueInjective(a[i], b[i]);
    }
  }

  /** A word is the number its eight bytes stand for, low end first. */
  lemma WordIsBytes(pg: Page, i: nat, bs: seq<Byte>)
    requires i < WORDS_PER_PAGE && |bs| == 8 && forall k :: 0 <= k < 8 ==> bs[k] == ByteAt(pg, 8 * i + k)
    ensures Value(pg[i]) == FromBytes(bs)
  {
    hide ToBytes, FromBytes, Value;
    assert Pow256(8) == 0x1_0000_0000_0000_0000;
    NumberRoundTrip(Value(pg[i]), 8);
    forall k | 0 <= k < 8 ensures bs[k] == WordBytes(pg[i])[k] {
      assert (8 * i + k) / 8 == i && (8 * i + k) % 8 == k;
    }
    assert bs == WordBytes(pg[i]);
  }

  lemma ZeroPageBytes(j: nat)
    requires j < PAGE_SIZE
    ensures ByteAt(ZeroPage(), j) == 0
  {
    hide ToBytes;
    ZeroBytes(8);
  }

  lemma {:induction false} ZeroBytes(n: nat)
    ensures forall k :: 0 <= k < n ==> ToBytes(0, n)[k] == 0
  {
    if n > 0 {
      ZeroBytes(n - 1);
    }
  }

  /** The entry that points at table or frame `f` with all permissions (P, W and U). */
  function FullEntry(f: nat): (r: Word)
    requires f < 0x10_0000_0000_0000
  {
    Bits(f, 0, true, true, true)
  }

  /** PDPTE_PS / PDE_PS, bit 7. */
  predicate HugeFlag(x: Word)
  {
    x.rest / 16 % 2 == 1
  }

  /** `FullEntry(f)` is the word the source writes: the frame's address with flags 7. */
  lemma FullEntryValue(f: nat)
    requires f < 0x10_0000_0000_0000
    ensures Value(FullEntry(f)) == f * PAGE_SIZE + 7
  {
  }
}
