/** gnu-efi/lib/crc.c: the table-driven CRC-32 and the seal on EFI table headers. */
module Crc32 {
  /** CRCTable, sixteen entries to a row. */
  const ROWS: seq<seq<bv32>> := [
    [0x00000000, 0x77073096, 0xEE0E612C, 0x990951BA, 0x076DC419, 0x706AF48F, 0xE963A535, 0x9E6495A3,
     0x0EDB8832, 0x79DCB8A4, 0xE0D5E91E, 0x97D2D988, 0x09B64C2B, 0x7EB17CBD, 0xE7B82D07, 0x90BF1D91],
    [0x1DB71064, 0x6AB020F2, 0xF3B97148, 0x84BE41DE, 0x1ADAD47D, 0x6DDDE4EB, 0xF4D4B551, 0x83D385C7,
     0x136C9856, 0x646BA8C0, 0xFD62F97A, 0x8A65C9EC, 0x14015C4F, 0x63066CD9, 0xFA0F3D63, 0x8D080DF5],
    [0x3B6E20C8, 0x4C69105E, 0xD56041E4, 0xA2677172, 0x3C03E4D1, 0x4B04D447, 0xD20D85FD, 0xA50AB56B,
     0x35B5A8FA, 0x42B2986C, 0xDBBBC9D6, 0xACBCF940, 0x32D86CE3, 0x45DF5C75, 0xDCD60DCF, 0xABD13D59],
    [0x26D930AC, 0x51DE003A, 0xC8D75180, 0xBFD06116, 0x21B4F4B5, 0x56B3C423, 0xCFBA9599, 0xB8BDA50F,
     0x2802B89E, 0x5F058808, 0xC60CD9B2, 0xB10BE924, 0x2F6F7C87, 0x58684C11, 0xC1611DAB, 0xB6662D3D],
    [0x76DC4190, 0x01DB7106, 0x98D220BC, 0xEFD5102A, 0x71B18589, 0x06B6B51F, 0x9FBFE4A5, 0xE8B8D433,
     0x7807C9A2, 0x0F00F934, 0x9609A88E, 0xE10E9818, 0x7F6A0DBB, 0x086D3D2D, 0x91646C97, 0xE6635C01],
    [0x6B6B51F4, 0x1C6C6162, 0x856530D8, 0xF262004E, 0x6C0695ED, 0x1B01A57B, 0x8208F4C1, 0xF50FC457,
     0x65B0D9C6, 0x12B7E950, 0x8BBEB8EA, 0xFCB9887C, 0x62DD1DDF, 0x15DA2D49, 0x8CD37CF3, 0xFBD44C65],
    [0x4DB26158, 0x3AB551CE, 0xA3BC0074, 0xD4BB30E2, 0x4ADFA541, 0x3DD895D7, 0xA4D1C46D, 0xD3D6F4FB,
     0x4369E96A, 0x346ED9FC, 0xAD678846, 0xDA60B8D0, 0x44042D73, 0x33031DE5, 0xAA0A4C5F, 0xDD0D7CC9],
    [0x5005713C, 0x270241AA, 0xBE0B1010, 0xC90C2086, 0x5768B525, 0x206F85B3, 0xB966D409, 0xCE61E49F,
     0x5EDEF90E, 0x29D9C998, 0xB0D09822, 0xC7D7A8B4, 0x59B33D17, 0x2EB40D81, 0xB7BD5C3B, 0xC0BA6CAD],
    [0xEDB88320, 0x9ABFB3B6, 0x03B6E20C, 0x74B1D29A, 0xEAD54739, 0x9DD277AF, 0x04DB2615, 0x73DC1683,
     0xE3630B12, 0x94643B84, 0x0D6D6A3E, 0x7A6A5AA8, 0xE40ECF0B, 0x9309FF9D, 0x0A00AE27, 0x7D079EB1],
    [0xF00F9344, 0x8708A3D2, 0x1E01F268, 0x6906C2FE, 0xF762575D, 0x806567CB, 0x196C3671, 0x6E6B06E7,
     0xFED41B76, 0x89D32BE0, 0x10DA7A5A, 0x67DD4ACC, 0xF9B9DF6F, 0x8EBEEFF9, 0x17B7BE43, 0x60B08ED5],
    [0xD6D6A3E8, 0xA1D1937E, 0x38D8C2C4, 0x4FDFF252, 0xD1BB67F1, 0xA6BC5767, 0x3FB506DD, 0x48B2364B,
     0xD80D2BDA, 0xAF0A1B4C, 0x36034AF6, 0x41047A60, 0xDF60EFC3, 0xA867DF55, 0x316E8EEF, 0x4669BE79],
    [0xCB61B38C, 0xBC66831A, 0x256FD2A0, 0x5268E236, 0xCC0C7795, 0xBB0B4703, 0x220216B9, 0x5505262F,
     0xC5BA3BBE, 0xB2BD0B28, 0x2BB45A92, 0x5CB36A04, 0xC2D7FFA7, 0xB5D0CF31, 0x2CD99E8B, 0x5BDEAE1D],
    [0x9B64C2B0, 0xEC63F226, 0x756AA39C, 0x026D930A, 0x9C0906A9, 0xEB0E363F, 0x72076785, 0x05005713,
     0x95BF4A82, 0xE2B87A14, 0x7BB12BAE, 0x0CB61B38, 0x92D28E9B, 0xE5D5BE0D, 0x7CDCEFB7, 0x0BDBDF21],
    [0x86D3D2D4, 0xF1D4E242, 0x68DDB3F8, 0x1FDA836E, 0x81BE16CD, 0xF6B9265B, 0x6FB077E1, 0x18B74777,
     0x88085AE6, 0xFF0F6A70, 0x66063BCA, 0x11010B5C, 0x8F659EFF, 0xF862AE69, 0x616BFFD3, 0x166CCF45],
    [0xA00AE278, 0xD70DD2EE, 0x4E048354, 0x3903B3C2, 0xA7672661, 0xD06016F7, 0x4969474D, 0x3E6E77DB,
     0xAED16A4A, 0xD9D65ADC, 0x40DF0B66, 0x37D83BF0, 0xA9BCAE53, 0xDEBB9EC5, 0x47B2CF7F, 0x30B5FFE9],
    [0xBDBDF21C, 0xCABAC28A, 0x53B39330, 0x24B4A3A6, 0xBAD03605, 0xCDD70693, 0x54DE5729, 0x23D967BF,
     0xB3667A2E, 0xC4614AB8, 0x5D681B02, 0x2A6F2B94, 0xB40BBE37, 0xC30C8EA1, 0x5A05DF1B, 0x2D02EF8D]
  ]

  const POLY: bv32 := 0xEDB88320

  // ---------------------------------------------------------------- bit at a time

  /** One bit of the reflected CRC. */
  function Bit(x: bv32): (r: bv32)
  {
    if x & 1 == 1 then (x >> 1) ^ POLY else x >> 1
  }

  /** Eight bits of it. */
  function Eight(x: bv32): (r: bv32)
  {
    Bit(Bit(Bit(Bit(Bit(Bit(Bit(Bit(x))))))))
  }

  /** A byte goes in at the low end and eight bits go out. */
  function In(c: bv32, b: bv8): (r: bv32)
  {
    Eight(c ^ (b as bv32))
  }

  /** The register after `data`, from register `c`. */
  function Fold(c: bv32, data: seq<bv8>): (r: bv32)
  {
    if data == [] then c
    else var n := |data| - 1; In(Fold(c, data[..n]), data[n])
  }

  /** The CRC-32 of a byte string. */
  function Crc(data: seq<bv8>): (r: bv32)
  {
    Fold(0xFFFF_FFFF, data) ^ 0xFFFF_FFFF
  }

  // ---------------------------------------------------------------- the register is linear

  // Exclusive or by name, so that lemmas on whole registers work on terms and not on bits.
  function Xor(x: bv32, y: bv32): (r: bv32)
  {
    x ^ y
  }

  lemma LowBit(x: bv32)
    ensures x & 1 == 0 || x & 1 == 1
  {
  }

  lemma XorParts(x: bv32, y: bv32)
    ensures (x ^ y) >> 1 == (x >> 1) ^ (y >> 1) && (x ^ y) & 1 == (x & 1) ^ (y & 1)
  {
  }

  lemma XorMoves(a: bv32, b: bv32, p: bv32)
    ensures (a ^ b) ^ p == (a ^ p) ^ b && (a ^ b) ^ p == a ^ (b ^ p) && (a ^ p) ^ (b ^ p) == a ^ b
  {
  }

  lemma BitLinear(x: bv32, y: bv32)
    ensures Bit(Xor(x, y)) == Xor(Bit(x), Bit(y))
  {
    hide Bit;
    BitOfXor(x, y);
  }

  lemma BitOfXor(x: bv32, y: bv32)
    ensures Bit(x ^ y) == Bit(x) ^ Bit(y)
  {
    LowBit(x);
    LowBit(y);
    XorParts(x, y);
    XorMoves(x >> 1, y >> 1, POLY);
  }

  lemma EightLinear(x: bv32, y: bv32)
    ensures Eight(Xor(x, y)) == Xor(Eight(x), Eight(y))
  {
    hide Bit, Xor;
    BitLinear(x, y);
    var x1, y1 := Bit(x), Bit(y);
    BitLinear(x1, y1);
    var x2, y2 := Bit(x1), Bit(y1);
    BitLinear(x2, y2);
    var x3, y3 := Bit(x2), Bit(y2);
    BitLinear(x3, y3);
    var x4, y4 := Bit(x3), Bit(y3);
    BitLinear(x4, y4);
    var x5, y5 := Bit(x4), Bit(y4);
    BitLinear(x5, y5);
    var x6, y6 := Bit(x5), Bit(y5);
    BitLinear(x6, y6);
    BitLinear(Bit(x6), Bit(y6));
  }

  /** The low bit that goes out comes back at the top, so no two registers are merged. */
  lemma BitInjective(x: bv32, y: bv32)
    requires Bit(x) == Bit(y)
    ensures x == y
  {
  }

  lemma EightInjective(x: bv32, y: bv32)
    requires Eight(x) == Eight(y)
    ensures x == y
  {
    hide Bit;
    var x4, y4 := Bit(Bit(Bit(Bit(x)))), Bit(Bit(Bit(Bit(y))));
    BitInjective(Bit(Bit(Bit(x4))), Bit(Bit(Bit(y4))));
    BitInjective(Bit(Bit(x4)), Bit(Bit(y4)));
    BitInjective(Bit(x4), Bit(y4));
    BitInjective(x4, y4);
    BitInjective(Bit(Bit(Bit(x))), Bit(Bit(Bit(y))));
    BitInjective(Bit(Bit(x)), Bit(Bit(y)));
    BitInjective(Bit(x), Bit(y));
    BitInjective(x, y);
  }

  /** A register whose low byte is zero only shifts. */
  lemma EightShift(x: bv32)
    requires x & 0xFF == 0
    ensures Eight(x) == x >> 8
  {
  }

  lemma Halves(x: bv32) returns (high: bv32)
    ensures x == high ^ (x & 0xFF) && high & 0xFF == 0 && high >> 8 == x >> 8
  {
    high := x ^ (x & 0xFF);
  }

  lemma EightSum(x: bv32, high: bv32, low: bv32)
    requires x == high ^ low && high & 0xFF == 0 && high >> 8 == x >> 8
    ensures Eight(x) == (x >> 8) ^ Eight(low)
  {
    EightShift(high);
    EightLinear(high, low);
  }

  /** The step of the table-driven form: shift out a byte, and make up for it by its own eight bits. */
  lemma EightSplit(x: bv32)
    ensures Eight(x) == (x >> 8) ^ Eight(x & 0xFF)
  {
    hide Eight;
    var high := Halves(x);
    EightSum(x, high, x & 0xFF);
  }

  // ---------------------------------------------------------------- the table

  /** CRCTable at an index of one byte. */
  function TableAt(x: bv32): (r: bv32)
    requires x < 256
  {
    RowsShape();
    Nibbles(x);
    ROWS[(x >> 4) as int][(x & 15) as int]
  }

  lemma RowsShape()
    ensures |ROWS| == 16 && forall i :: 0 <= i < 16 ==> |ROWS[i]| == 16
  {
  }

  lemma Nibbles(x: bv32)
    requires x < 256
    ensures x >> 4 < 16 && x & 15 < 16 && x == ((x >> 4) << 4) | (x & 15)
    ensures 0 <= (x >> 4) as int < 16 && 0 <= (x & 15) as int < 16
  {
  }

  /** Every entry of the table is what eight bits make of its index. */
  lemma TableIs(x: bv32)
    requires x < 256
    ensures TableAt(x) == Eight(x)
  {
    hide TableAt, Eight;
    if x < 64 {
      TableFrom0(x);
    } else if x < 128 {
      TableFrom64(x);
    } else if x < 192 {
      TableFrom128(x);
    } else {
      TableFrom192(x);
    }
  }

  lemma TableFrom0(x: bv32)
    requires 0 <= x < 64
    ensures TableAt(x) == Eight(x)
  {
  }

  lemma TableFrom64(x: bv32)
    requires 64 <= x < 128
    ensures TableAt(x) == Eight(x)
  {
  }

  lemma TableFrom128(x: bv32)
    requires 128 <= x < 192
    ensures TableAt(x) == Eight(x)
  {
  }

  lemma TableFrom192(x: bv32)
    requires 192 <= x < 256
    ensures TableAt(x) == Eight(x)
  {
  }

  // ---------------------------------------------------------------- the loop

  lemma IndexIsByte(c: bv32, b: bv8)
    ensures (c & 0xFF) ^ (b as bv32) == (c ^ (b as bv32)) & 0xFF && (c & 0xFF) ^ (b as bv32) < 256
    ensures c >> 8 == (c ^ (b as bv32)) >> 8
  {
  }

  lemma TurnAt(c: bv32, x: bv32, i: bv32)
    requires i == x & 0xFF && i < 256 && c >> 8 == x >> 8
    ensures (c >> 8) ^ TableAt(i) == Eight(x)
  {
    hide Eight, TableAt;
    TableIs(i);
    EightSplit(x);
  }

  /** One turn of the loop is one byte of the bitwise CRC. */
  lemma TurnIs(c: bv32, b: bv8)
    ensures (c & 0xFF) ^ (b as bv32) < 256
    ensures (c >> 8) ^ TableAt((c & 0xFF) ^ (b as bv32)) == In(c, b)
  {
    hide Eight, TableAt;
    IndexIsByte(c, b);
    TurnAt(c, c ^ (b as bv32), (c & 0xFF) ^ (b as bv32));
  }

  /** The table-driven step. */
  function Turn(c: bv32, b: bv8): (r: bv32)
    ensures r == In(c, b)
  {
    TurnIs(c, b);
    (c >> 8) ^ TableAt((c & 0xFF) ^ (b as bv32))
  }

  lemma FoldNext(c: bv32, data: seq<bv8>, i: nat)
    requires i < |data|
    ensures Fold(c, data[..i + 1]) == In(Fold(c, data[..i]), data[i])
  {
    hide In;
    assert data[..i + 1][..i] == data[..i];
  }

  /** CalculateCrc. The register never leaves its low 32 bits. */
  method CalculateCrc(pt: array<bv8>, size: nat) returns (crc: bv32)
    requires size <= pt.Length
    ensures crc == Crc(pt[..size])
  {
    hide In, Turn, Fold;
    crc := 0xFFFF_FFFF;
    FoldNone(0xFFFF_FFFF);
    var left, i := size, 0;
    while left != 0
      invariant 0 <= left <= size && i == size - left
      invariant crc == Fold(0xFFFF_FFFF, pt[..size][..i])
    {
      FoldNext(0xFFFF_FFFF, pt[..size], i);
      crc := Turn(crc, pt[i]);
      i := i + 1;
      left := left - 1;
    }
    assert pt[..size][..i] == pt[..size];
    crc := crc ^ 0xFFFF_FFFF;
  }

  lemma FoldNone(c: bv32)
    ensures Fold(c, []) == c
  {
  }

  // ---------------------------------------------------------------- what the CRC detects

  lemma {:induction false} FoldJoin(c: bv32, a: seq<bv8>, b: seq<bv8>)
    ensures Fold(c, a + b) == Fold(Fold(c, a), b)
    decreases |b|
  {
    hide In;
    if b == [] {
      assert a + b == a;
    } else {
      var n := |b| - 1;
      FoldJoin(c, a, b[..n]);
      assert (a + b)[..|a| + n] == a + b[..n];
    }
  }

  /** A byte in one of the four places of a word. */
  function Place(b: bv8, k: nat): (r: bv32)
    requires k < 4
  {
    if k == 0 then b as bv32 else if k == 1 then (b as bv32) << 8 else if k == 2 then (b as bv32) << 16 else (b as bv32) << 24
  }

  lemma InIs(c: bv32, b: bv8)
    ensures In(c, b) == Eight(Xor(c, Place(b, 0)))
  {
    hide Eight;
  }

  lemma InInjective(c: bv32, d: bv32, b: bv8)
    requires In(c, b) == In(d, b)
    ensures c == d
  {
    hide Eight, Xor, In, Place;
    InIs(c, b);
    InIs(d, b);
    EightInjective(Xor(c, Place(b, 0)), Xor(d, Place(b, 0)));
    XorCancels(c, d, Place(b, 0));
  }

  lemma XorCancels(x: bv32, y: bv32, b: bv32)
    requires Xor(x, b) == Xor(y, b)
    ensures x == y
  {
  }

  /** Once two registers differ, equal bytes keep them different. */
  lemma {:induction false} FoldInjective(c: bv32, d: bv32, data: seq<bv8>)
    requires Fold(c, data) == Fold(d, data)
    ensures c == d
    decreases |data|
  {
    hide In;
    if data != [] {
      var n := |data| - 1;
      InInjective(Fold(c, data[..n]), Fold(d, data[..n]), data[n]);
      FoldInjective(c, d, data[..n]);
    }
  }

  /** A byte put in after the register has moved on is the byte put in one place further up before. */
  lemma Earlier(x: bv32, b: bv8, k: nat)
    requires k < 3
    ensures Xor(Eight(x), Place(b, k)) == Eight(Xor(x, Place(b, k + 1)))
  {
    hide Eight, Xor, Place;
    PlaceUp(b, k);
    Later(x, Place(b, k + 1), Place(b, k));
  }

  lemma Later(x: bv32, up: bv32, low: bv32)
    requires up & 0xFF == 0 && up >> 8 == low
    ensures Xor(Eight(x), low) == Eight(Xor(x, up))
  {
    EightShift(up);
    EightLinear(x, up);
  }

  lemma PlaceUp(b: bv8, k: nat)
    requires k < 3
    ensures Place(b, k + 1) & 0xFF == 0 && Place(b, k + 1) >> 8 == Place(b, k)
  {
  }

  /** A word put into the register. */
  function Load4(c: bv32, b0: bv8, b1: bv8, b2: bv8, b3: bv8): (r: bv32)
  {
    Xor(Xor(Xor(Xor(c, Place(b0, 0)), Place(b1, 1)), Place(b2, 2)), Place(b3, 3))
  }

  function Load(c: bv32, w: seq<bv8>): (r: bv32)
    requires |w| == 4
  {
    Load4(c, w[0], w[1], w[2], w[3])
  }

  /** Four bytes are one word put in whole, and 32 bits out. */
  lemma FoldFour(c: bv32, w: seq<bv8>)
    requires |w| == 4
    ensures Fold(c, w) == Eight(Eight(Eight(Eight(Load(c, w)))))
  {
    hide Eight, Xor, Place, In;
    FoldNext(c, w, 0);
    FoldNext(c, w, 1);
    FoldNext(c, w, 2);
    FoldNext(c, w, 3);
    assert w[..4] == w && w[..0] == [];
    var x0 := Xor(c, Place(w[0], 0));
    InIs(c, w[0]);
    InIs(Eight(x0), w[1]);
    Earlier(x0, w[1], 0);
    var x1 := Xor(x0, Place(w[1], 1));
    InIs(Eight(Eight(x1)), w[2]);
    Earlier(Eight(x1), w[2], 0);
    Earlier(x1, w[2], 1);
    var x2 := Xor(x1, Place(w[2], 2));
    InIs(Eight(Eight(Eight(x2))), w[3]);
    Earlier(Eight(Eight(x2)), w[3], 0);
    Earlier(Eight(x2), w[3], 1);
    Earlier(x2, w[3], 2);
  }

  lemma LoadInjective(c: bv32, a: seq<bv8>, b: seq<bv8>)
    requires |a| == |b| == 4 && Load(c, a) == Load(c, b)
    ensures a == b
  {
    hide Load4;
    Load4Injective(c, a[0], a[1], a[2], a[3], b[0], b[1], b[2], b[3]);
  }

  lemma Load4Injective(c: bv32, a0: bv8, a1: bv8, a2: bv8, a3: bv8, b0: bv8, b1: bv8, b2: bv8, b3: bv8)
    requires Load4(c, a0, a1, a2, a3) == Load4(c, b0, b1, b2, b3)
    ensures a0 == b0 && a1 == b1 && a2 == b2 && a3 == b3
  {
    hide Xor, Place;
    PlaceInjective(a0, b0, 0);
    PlaceInjective(a1, b1, 1);
    PlaceInjective(a2, b2, 2);
    PlaceInjective(a3, b3, 3);
    ChainInjective(c, Place(a0, 0), Place(a1, 1), Place(a2, 2), Place(a3, 3), Place(b0, 0), Place(b1, 1), Place(b2, 2), Place(b3, 3));
  }

  /** A byte in place `k` has no bits outside it. */
  function Outside(k: nat): (mask: bv32)
  {
    if k == 0 then 0xFFFF_FF00 else if k == 1 then 0xFFFF_00FF else if k == 2 then 0xFF00_FFFF else 0x00FF_FFFF
  }

  lemma PlaceInjective(a: bv8, b: bv8, k: nat)
    requires k < 4
    ensures Place(a, k) & Outside(k) == 0 && Place(b, k) & Outside(k) == 0 && (Place(a, k) == Place(b, k) ==> a == b)
  {
  }

  lemma ChainInjective(c: bv32, p0: bv32, p1: bv32, p2: bv32, p3: bv32, q0: bv32, q1: bv32, q2: bv32, q3: bv32)
    requires p0 & 0xFFFF_FF00 == 0 && p1 & 0xFFFF_00FF == 0 && p2 & 0xFF00_FFFF == 0 && p3 & 0x00FF_FFFF == 0
    requires q0 & 0xFFFF_FF00 == 0 && q1 & 0xFFFF_00FF == 0 && q2 & 0xFF00_FFFF == 0 && q3 & 0x00FF_FFFF == 0
    requires Xor(Xor(Xor(Xor(c, p0), p1), p2), p3) == Xor(Xor(Xor(Xor(c, q0), q1), q2), q3)
    ensures p0 == q0 && p1 == q1 && p2 == q2 && p3 == q3
  {
    hide Xor;
    var x := ChainByte(c, p0, p1, p2, p3);
    var y := ChainByte(c, q0, q1, q2, q3);
  }

  /** Each byte can be read off the register. */
  lemma ChainByte(c: bv32, p0: bv32, p1: bv32, p2: bv32, p3: bv32) returns (x: bv32)
    requires p0 & 0xFFFF_FF00 == 0 && p1 & 0xFFFF_00FF == 0 && p2 & 0xFF00_FFFF == 0 && p3 & 0x00FF_FFFF == 0
    ensures x == Xor(Xor(Xor(Xor(c, p0), p1), p2), p3)
    ensures p0 == (x ^ c) & 0x0000_00FF && p1 == (x ^ c) & 0x0000_FF00 && p2 == (x ^ c) & 0x00FF_0000 && p3 == (x ^ c) & 0xFF00_0000
  {
    hide Xor;
    var x1 := XorOf(c, p0);
    var x2 := XorOf(x1, p1);
    var x3 := XorOf(x2, p2);
    x := XorOf(x3, p3);
    ChainBits(c, p0, p1, p2, p3, x1, x2, x3, x);
  }

  lemma XorOf(x: bv32, y: bv32) returns (z: bv32)
    ensures z == Xor(x, y) && z == x ^ y
  {
    z := x ^ y;
  }

  lemma ChainBits(c: bv32, p0: bv32, p1: bv32, p2: bv32, p3: bv32, x1: bv32, x2: bv32, x3: bv32, x4: bv32)
    requires p0 & 0xFFFF_FF00 == 0 && p1 & 0xFFFF_00FF == 0 && p2 & 0xFF00_FFFF == 0 && p3 & 0x00FF_FFFF == 0
    requires x1 == c ^ p0 && x2 == x1 ^ p1 && x3 == x2 ^ p2 && x4 == x3 ^ p3
    ensures p0 == (x4 ^ c) & 0x0000_00FF && p1 == (x4 ^ c) & 0x0000_FF00 && p2 == (x4 ^ c) & 0x00FF_0000 && p3 == (x4 ^ c) & 0xFF00_0000
  {
  }

  lemma FourApart(c: bv32, a: seq<bv8>, b: seq<bv8>)
    requires |a| == |b| == 4 && Fold(c, a) == Fold(c, b)
    ensures a == b
  {
    hide Eight, Load, Fold;
    FoldFour(c, a);
    FoldFour(c, b);
    var x, y := Load(c, a), Load(c, b);
    EightInjective(Eight(Eight(Eight(x))), Eight(Eight(Eight(y))));
    EightInjective(Eight(Eight(x)), Eight(Eight(y)));
    EightInjective(Eight(x), Eight(y));
    EightInjective(x, y);
    LoadInjective(c, a, b);
  }

  lemma CrcIsFold(a: seq<bv8>, b: seq<bv8>)
    requires Crc(a) == Crc(b)
    ensures Fold(0xFFFF_FFFF, a) == Fold(0xFFFF_FFFF, b)
  {
    hide Fold;
    XorCancels(Fold(0xFFFF_FFFF, a), Fold(0xFFFF_FFFF, b), 0xFFFF_FFFF);
  }

  /** Two byte strings that differ only inside a stretch of four bytes have different CRCs. */
  lemma BurstDetected(before: seq<bv8>, a: seq<bv8>, b: seq<bv8>, after: seq<bv8>)
    requires |a| == |b| <= 4 && a != b
    ensures Crc(before + a + after) != Crc(before + b + after)
  {
    hide Fold, Crc;
    var pad := seq(4 - |a|, _ => 0 as bv8);
    assert a == (a + pad)[..|a|] && b == (b + pad)[..|a|];
    if Crc(before + a + after) == Crc(before + b + after) {
      var c: bv32 := 0xFFFF_FFFF;
      CrcIsFold(before + a + after, before + b + after);
      FoldJoin(c, before + a, after);
      FoldJoin(c, before + b, after);
      FoldJoin(c, before, a);
      FoldJoin(c, before, b);
      var d := Fold(c, before);
      FoldInjective(Fold(d, a), Fold(d, b), after);
      FoldJoin(d, a, pad);
      FoldJoin(d, b, pad);
      FourApart(d, a + pad, b + pad);
    }
  }

  // ---------------------------------------------------------------- table headers

  /** EFI_TABLE_HEADER: Signature, Revision, HeaderSize, CRC32 and Reserved, of 8, 4, 4, 4 and 4 bytes. */
  const SIZE_AT: nat := 12
  const CRC_AT: nat := 16
  const CRC_END: nat := 20

  /** The four bytes of a word, low end first. */
  function ToLe(v: bv32): (r: seq<bv8>)
    ensures |r| == 4
  {
    [(v & 0xFF) as bv8, ((v >> 8) & 0xFF) as bv8, ((v >> 16) & 0xFF) as bv8, (v >> 24) as bv8]
  }

  function FromLe(w: seq<bv8>): (r: bv32)
    requires |w| == 4
  {
    (w[0] as bv32) | ((w[1] as bv32) << 8) | ((w[2] as bv32) << 16) | ((w[3] as bv32) << 24)
  }

  lemma LeRoundTrip(v: bv32)
    ensures FromLe(ToLe(v)) == v
  {
  }

  lemma LeInjective(a: seq<bv8>, b: seq<bv8>)
    requires |a| == |b| == 4 && FromLe(a) == FromLe(b)
    ensures a == b
  {
  }

  // ---------------------------------------------------------------- the residue

  /** The residue of CRC-32: a byte string with its CRC behind it, low end first, always leaves the same register. */
  lemma Residue(data: seq<bv8>)
    ensures Fold(0xFFFF_FFFF, data + ToLe(Crc(data))) == 0xDEBB_20E3
  {
    hide Fold, ToLe, Load, Eight, Crc, Xor;
    var c, v := Fold(0xFFFF_FFFF, data), Crc(data);
    CrcIsXor(data);
    FoldJoin(0xFFFF_FFFF, data, ToLe(v));
    FoldFour(c, ToLe(v));
    LoadComplement(c, v);
    ResidueWord();
  }

  lemma CrcIsXor(data: seq<bv8>)
    ensures Crc(data) == Xor(Fold(0xFFFF_FFFF, data), 0xFFFF_FFFF)
  {
    hide Fold;
  }

  /** The register with its complement put in is all ones. */
  lemma LoadComplement(c: bv32, v: bv32)
    requires v == Xor(c, 0xFFFF_FFFF)
    ensures Load(c, ToLe(v)) == 0xFFFF_FFFF
  {
    hide Xor, Place, ToLe, AreBytes;
    var p0, p1, p2, p3 := PlacesOf(v);
    ComplementIn(c, v, p0, p1, p2, p3);
  }

  ghost predicate AreBytes(v: bv32, p0: bv32, p1: bv32, p2: bv32, p3: bv32)
  {
    p0 == v & 0xFF && p1 == v & 0xFF00 && p2 == v & 0xFF_0000 && p3 == v & 0xFF00_0000
  }

  lemma PlacesOf(v: bv32) returns (p0: bv32, p1: bv32, p2: bv32, p3: bv32)
    ensures var w := ToLe(v); p0 == Place(w[0], 0) && p1 == Place(w[1], 1) && p2 == Place(w[2], 2) && p3 == Place(w[3], 3)
    ensures AreBytes(v, p0, p1, p2, p3)
  {
    var w := ToLe(v);
    p0, p1, p2, p3 := Place(w[0], 0), Place(w[1], 1), Place(w[2], 2), Place(w[3], 3);
  }

  lemma ComplementIn(c: bv32, v: bv32, p0: bv32, p1: bv32, p2: bv32, p3: bv32)
    requires v == Xor(c, 0xFFFF_FFFF) && AreBytes(v, p0, p1, p2, p3)
    ensures Xor(Xor(Xor(Xor(c, p0), p1), p2), p3) == 0xFFFF_FFFF
  {
    hide Xor;
    var u := XorOf(c, 0xFFFF_FFFF);
    var x1 := XorOf(c, p0);
    var x2 := XorOf(x1, p1);
    var x3 := XorOf(x2, p2);
    var x4 := XorOf(x3, p3);
    ComplementBits(c, v, p0, p1, p2, p3, x1, x2, x3, x4);
  }

  lemma ComplementBits(c: bv32, v: bv32, p0: bv32, p1: bv32, p2: bv32, p3: bv32, x1: bv32, x2: bv32, x3: bv32, x4: bv32)
    requires v == c ^ 0xFFFF_FFFF && p0 == v & 0xFF && p1 == v & 0xFF00 && p2 == v & 0xFF_0000 && p3 == v & 0xFF00_0000
    requires x1 == c ^ p0 && x2 == x1 ^ p1 && x3 == x2 ^ p2 && x4 == x3 ^ p3
    ensures x4 == 0xFFFF_FFFF
  {
  }

  lemma ResidueWord()
    ensures Eight(Eight(Eight(Eight(0xFFFF_FFFF)))) == 0xDEBB_20E3
  {
  }

  /** The check value of CRC-32, the CRC of the digits 1 to 9. */
  lemma CheckValue()
    ensures Crc([0x31, 0x32, 0x33, 0x34, 0x35, 0x36, 0x37, 0x38, 0x39]) == 0xCBF4_3926
  {
    hide In, Fold;
    var d: seq<bv8> := [0x31, 0x32, 0x33, 0x34, 0x35, 0x36, 0x37, 0x38, 0x39];
    var c: bv32 := 0xFFFF_FFFF;
    FoldNone(c);
    assert d[..0] == [] && d[..9] == d;
    FoldNext(c, d, 0);
    FoldNext(c, d, 1);
    FoldNext(c, d, 2);
    FoldNext(c, d, 3);
    FoldNext(c, d, 4);
    FoldNext(c, d, 5);
    FoldNext(c, d, 6);
    FoldNext(c, d, 7);
    FoldNext(c, d, 8);
    CheckSteps();
  }

  lemma CheckSteps()
    ensures In(0xFFFF_FFFF, 0x31) == 0x7C23_1048
    ensures In(0x7C23_1048, 0x32) == 0xB0AC_BB32
    ensures In(0xB0AC_BB32, 0x33) == 0x77B7_9C2D
    ensures In(0x77B7_9C2D, 0x34) == 0x641C_1F5C
    ensures In(0x641C_1F5C, 0x35) == 0x340A_C5E3
    ensures In(0x340A_C5E3, 0x36) == 0xF68D_2C9E
    ensures In(0xF68D_2C9E, 0x37) == 0xAFFC_9660
    ensures In(0xAFFC_9660, 0x38) == 0x651F_2550
    ensures In(0x651F_2550, 0x39) == 0x340B_C6D9
  {
  }

  /** The header with `v` in its CRC32 field. */
  function WithCrc(h: seq<bv8>, v: bv32): (r: seq<bv8>)
    requires |h| >= CRC_END
    ensures |r| == |h|
  {
    h[..CRC_AT] + ToLe(v) + h[CRC_END..]
  }

  function CrcField(h: seq<bv8>): (r: bv32)
    requires |h| >= CRC_END
  {
    FromLe(h[CRC_AT..CRC_END])
  }

  /** The fields are where the header has them: behind a signature of 8 bytes and a revision of 4 come the size and the
      CRC, low end first. */
  lemma HeaderWritten(signature: seq<bv8>, revision: seq<bv8>, size: bv32, crc: bv32, rest: seq<bv8>)
    requires |signature| == 8 && |revision| == 4
    ensures var h := signature + revision + ToLe(size) + ToLe(crc) + rest;
      |h| >= CRC_END && HeaderSize(h) == size as nat && CrcField(h) == crc
  {
    hide ToLe, FromLe;
    var front := signature + revision + ToLe(size);
    var h := front + ToLe(crc) + rest;
    assert h[12..16] == front[12..16] == ToLe(size);
    assert h[16..20] == ToLe(crc);
    LeRoundTrip(size);
    LeRoundTrip(crc);
  }

  /** What a valid seal means: the field is the CRC of the first `size` bytes with the field zero. */
  ghost predicate SealOk(h: seq<bv8>, size: nat)
    requires |h| >= CRC_END && size <= |h|
  {
    CrcField(h) == Crc(WithCrc(h, 0)[..size])
  }

  ghost predicate Accepts(h: seq<bv8>, maxSize: nat, size: nat)
    requires |h| >= CRC_END && size <= |h|
  {
    size != 0 && (maxSize == 0 || size <= maxSize) && SealOk(h, size)
  }

  ghost function Sealed(h: seq<bv8>, size: nat): (r: seq<bv8>)
    requires |h| >= CRC_END && size <= |h|
    ensures |r| == |h|
  {
    WithCrc(h, Crc(WithCrc(h, 0)[..size]))
  }

  lemma FieldOf(h: seq<bv8>, v: bv32)
    requires |h| >= CRC_END
    ensures CrcField(WithCrc(h, v)) == v
  {
    hide ToLe, FromLe;
    assert WithCrc(h, v)[CRC_AT..CRC_END] == ToLe(v);
    LeRoundTrip(v);
  }

  lemma FieldTwice(h: seq<bv8>, v: bv32, u: bv32)
    requires |h| >= CRC_END
    ensures WithCrc(WithCrc(h, v), u) == WithCrc(h, u)
  {
  }

  lemma FieldBack(h: seq<bv8>)
    requires |h| >= CRC_END
    ensures WithCrc(h, CrcField(h)) == h
  {
    hide ToLe, FromLe;
    var w := h[CRC_AT..CRC_END];
    LeRoundTrip(FromLe(w));
    LeInjective(ToLe(FromLe(w)), w);
  }

  /** A sealed header is accepted for every size but 0 and those over the limit. */
  lemma SealedAccepted(h: seq<bv8>, size: nat, maxSize: nat)
    requires |h| >= CRC_END && size <= |h|
    ensures Accepts(Sealed(h, size), maxSize, size) <==> size != 0 && (maxSize == 0 || size <= maxSize)
  {
    hide Crc, WithCrc, CrcField;
    var v := Crc(WithCrc(h, 0)[..size]);
    FieldOf(h, v);
    FieldTwice(h, v, 0);
  }

  /** Sealing is needed once, and changes nothing but the field. */
  lemma SealedOnce(h: seq<bv8>, size: nat)
    requires |h| >= CRC_END && size <= |h|
    ensures SealOk(h, size) <==> Sealed(h, size) == h
    ensures Sealed(h, size)[..CRC_AT] == h[..CRC_AT] && Sealed(h, size)[CRC_END..] == h[CRC_END..]
  {
    hide Crc, CrcField;
    FieldBack(h);
    FieldOf(h, Crc(WithCrc(h, 0)[..size]));
  }

  method PutCrc(hdr: array<bv8>, v: bv32)
    requires hdr.Length >= CRC_END
    modifies hdr
    ensures hdr[..] == WithCrc(old(hdr[..]), v)
  {
    hide ToLe;
    var le := ToLe(v);
    hdr[CRC_AT], hdr[CRC_AT + 1], hdr[CRC_AT + 2], hdr[CRC_AT + 3] := le[0], le[1], le[2], le[3];
  }

  method SetCrcAltSize(size: nat, hdr: array<bv8>)
    requires hdr.Length >= CRC_END && size <= hdr.Length
    modifies hdr
    ensures hdr[..] == Sealed(old(hdr[..]), size)
  {
    hide ToLe, Crc;
    PutCrc(hdr, 0);
    ghost var cleared := hdr[..];
    assert cleared == WithCrc(old(hdr[..]), 0);
    var crc := CalculateCrc(hdr, size);
    assert hdr[..size] == cleared[..size];
    PutCrc(hdr, crc);
    FieldTwice(old(hdr[..]), 0, crc);
  }

  /** The field is cleared while the CRC is computed and put back after. */
  method CheckCrcAltSize(maxSize: nat, size: nat, hdr: array<bv8>) returns (f: bool)
    requires hdr.Length >= CRC_END && size <= hdr.Length
    modifies hdr
    ensures hdr[..] == old(hdr[..]) && (f <==> Accepts(hdr[..], maxSize, size))
  {
    hide ToLe, FromLe, Crc;
    if size == 0 {
      return false;
    }
    if maxSize != 0 && size > maxSize {
      return false;
    }
    ghost var h := hdr[..];
    var org := FromLe(hdr[CRC_AT..CRC_END]);
    assert hdr[CRC_AT..CRC_END] == h[CRC_AT..CRC_END];
    PutCrc(hdr, 0);
    ghost var cleared := hdr[..];
    var crc := CalculateCrc(hdr, size);
    assert hdr[..size] == cleared[..size];
    PutCrc(hdr, org);
    FieldTwice(h, 0, org);
    FieldBack(h);
    f := org == crc;
  }

  function HeaderSize(h: seq<bv8>): (r: nat)
    requires |h| >= CRC_END
  {
    FromLe(h[SIZE_AT..CRC_AT]) as nat
  }

  method SetCrc(hdr: array<bv8>)
    requires hdr.Length >= CRC_END && HeaderSize(hdr[..]) <= hdr.Length
    modifies hdr
    ensures hdr[..] == Sealed(old(hdr[..]), HeaderSize(old(hdr[..])))
  {
    SetCrcAltSize(HeaderSize(hdr[..]), hdr);
  }

  method CheckCrc(maxSize: nat, hdr: array<bv8>) returns (f: bool)
    requires hdr.Length >= CRC_END && HeaderSize(hdr[..]) <= hdr.Length
    modifies hdr
    ensures hdr[..] == old(hdr[..]) && (f <==> Accepts(hdr[..], maxSize, HeaderSize(hdr[..])))
  {
    f := CheckCrcAltSize(maxSize, HeaderSize(hdr[..]), hdr);
  }

  /** SetCrc leaves the size field alone, so CheckCrc looks at the bytes SetCrc sealed. */
  lemma SealKeepsSize(h: seq<bv8>, size: nat)
    requires |h| >= CRC_END && size <= |h|
    ensures HeaderSize(Sealed(h, size)) == HeaderSize(h)
  {
    hide FromLe, ToLe, Crc;
    assert Sealed(h, size)[SIZE_AT..CRC_AT] == h[SIZE_AT..CRC_AT];
  }

  /** `g` is `h` with other bytes at lo .. hi. */
  ghost predicate Damaged(h: seq<bv8>, g: seq<bv8>, lo: nat, hi: nat)
  {
    |g| == |h| && lo <= hi <= |h| && g != h && g[..lo] == h[..lo] && g[hi..] == h[hi..]
  }

  /** A header that was accepted is refused after any damage to four bytes or fewer that lie in the sealed
      part on one side of the field, or in the field. */
  lemma DamageDetected(h: seq<bv8>, g: seq<bv8>, maxSize: nat, size: nat, lo: nat, hi: nat)
    requires |h| >= CRC_END && size <= |h| && Accepts(h, maxSize, size) && Damaged(h, g, lo, hi) && hi - lo <= 4
    requires (hi <= CRC_AT && hi <= size) || (CRC_END <= lo && hi <= size) || (CRC_AT <= lo && hi <= CRC_END)
    ensures !Accepts(g, maxSize, size)
  {
    hide Crc, ToLe, FromLe;
    if CRC_AT <= lo && hi <= CRC_END {
      FieldDamage(h, g, size, lo, hi);
    } else {
      BodyDamage(h, g, size, lo, hi);
    }
  }

  lemma FieldDamage(h: seq<bv8>, g: seq<bv8>, size: nat, lo: nat, hi: nat)
    requires |h| >= CRC_END && size <= |h| && SealOk(h, size) && Damaged(h, g, lo, hi)
    requires CRC_AT <= lo && hi <= CRC_END
    ensures !SealOk(g, size)
  {
    hide Crc, ToLe, FromLe;
    assert g[..CRC_AT] == g[..lo][..CRC_AT] && h[..CRC_AT] == h[..lo][..CRC_AT];
    assert g[CRC_END..] == g[hi..][CRC_END - hi..] && h[CRC_END..] == h[hi..][CRC_END - hi..];
    assert g == g[..CRC_AT] + g[CRC_AT..CRC_END] + g[CRC_END..];
    assert h == h[..CRC_AT] + h[CRC_AT..CRC_END] + h[CRC_END..];
    if CrcField(g) == CrcField(h) {
      LeInjective(g[CRC_AT..CRC_END], h[CRC_AT..CRC_END]);
    }
  }

  lemma BodyDamage(h: seq<bv8>, g: seq<bv8>, size: nat, lo: nat, hi: nat)
    requires |h| >= CRC_END && size <= |h| && SealOk(h, size) && Damaged(h, g, lo, hi) && hi - lo <= 4 && hi <= size
    requires hi <= CRC_AT || CRC_END <= lo
    ensures !SealOk(g, size)
  {
    hide Crc, ToLe, FromLe;
    var a, b := WithCrc(h, 0)[..size], WithCrc(g, 0)[..size];
    SameOutside(h, g, size, lo, hi);
    BurstDetected(a[..lo], a[lo..hi], b[lo..hi], a[hi..]);
    assert a == a[..lo] + a[lo..hi] + a[hi..];
    assert b == a[..lo] + b[lo..hi] + a[hi..];
  }

  lemma OutsideField(h: seq<bv8>, i: nat)
    requires |h| >= CRC_END && i < |h| && (i < CRC_AT || CRC_END <= i)
    ensures WithCrc(h, 0)[i] == h[i]
  {
  }

  lemma InsideField(h: seq<bv8>, g: seq<bv8>, i: nat)
    requires |h| == |g| >= CRC_END && CRC_AT <= i < CRC_END
    ensures WithCrc(h, 0)[i] == WithCrc(g, 0)[i]
  {
  }

  lemma SameSlices(a: seq<bv8>, b: seq<bv8>, size: nat, lo: nat, hi: nat)
    requires lo <= hi <= size <= |a| == |b| && forall i :: 0 <= i < |a| && !(lo <= i < hi) ==> a[i] == b[i]
    ensures a[..size][..lo] == b[..size][..lo] && a[..size][hi..] == b[..size][hi..]
  {
  }

  lemma SameOutside(h: seq<bv8>, g: seq<bv8>, size: nat, lo: nat, hi: nat)
    requires |h| >= CRC_END && hi <= size <= |h| && Damaged(h, g, lo, hi) && (hi <= CRC_AT || CRC_END <= lo)
    ensures CrcField(g) == CrcField(h)
    ensures var a, b := WithCrc(h, 0)[..size], WithCrc(g, 0)[..size];
      a[..lo] == b[..lo] && a[hi..] == b[hi..] && a[lo..hi] != b[lo..hi]
  {
    hide ToLe, FromLe, WithCrc;
    assert forall i :: 0 <= i < lo ==> g[i] == g[..lo][i] == h[..lo][i] == h[i];
    assert forall i :: hi <= i < |h| ==> g[i] == g[hi..][i - hi] == h[hi..][i - hi] == h[i];
    assert g[CRC_AT..CRC_END] == h[CRC_AT..CRC_END];
    var a, b := WithCrc(h, 0), WithCrc(g, 0);
    forall i | 0 <= i < |h| && !(lo <= i < hi) ensures a[i] == b[i] {
      if CRC_AT <= i < CRC_END {
        InsideField(h, g, i);
      } else {
        OutsideField(h, i);
        OutsideField(g, i);
      }
    }
    var j :| 0 <= j < |h| && h[j] != g[j];
    OutsideField(h, j);
    OutsideField(g, j);
    SameSlices(a, b, size, lo, hi);
    assert a[..size][lo..hi][j - lo] == h[j] && b[..size][lo..hi][j - lo] == g[j];
  }
}
