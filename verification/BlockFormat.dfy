/** How fs.c reads numbers and bits out of a block of bytes. */
module BlockFormat {
  import opened Bits

  const BSIZE: nat := 1024

  /** Bits in one bitmap block. */
  const BPB: nat := 8192

  /** Words in one indirect block. */
  const NINDIRECT: nat := 256

  const UINT: nat := 0x1_0000_0000

  type Byte = x: int | 0 <= x < 256

  type Block = seq<Byte>

  function ZeroBlock(): (b: Block)
    ensures |b| == BSIZE && forall i :: 0 <= i < BSIZE ==> b[i] == 0
  {
    seq(BSIZE, _ => 0)
  }

  // ---- words ----

  /** The j-th 32-bit word, least significant byte first. */
  function Word(b: Block, j: nat): (w: nat)
    requires |b| == BSIZE && j < NINDIRECT
    ensures w < UINT
  {
    FromBytes(b[4 * j], b[4 * j + 1], b[4 * j + 2], b[4 * j + 3])
  }

  function FromBytes(b0: int, b1: int, b2: int, b3: int): (w: int) {
    b0 + 0x100 * (b1 + 0x100 * (b2 + 0x100 * b3))
  }

  function WithWord(b: Block, j: nat, w: nat): (r: Block)
    requires |b| == BSIZE && j < NINDIRECT && w < UINT
    ensures |r| == BSIZE
  {
    var w1 := w / 0x100;
    var w2 := w1 / 0x100;
    b[4 * j := w % 0x100][4 * j + 1 := w1 % 0x100][4 * j + 2 := w2 % 0x100][4 * j + 3 := w2 / 0x100]
  }

  lemma WordRoundTrip(b: Block, j: nat, w: nat, i: nat)
    requires |b| == BSIZE && j < NINDIRECT && w < UINT && i < NINDIRECT
    ensures Word(WithWord(b, j, w), i) == if i == j then w else Word(b, i)
  {
    hide FromBytes;
    var r := WithWord(b, j, w);
    if i == j {
      Digits(w);
    } else {
      assert r[4 * i] == b[4 * i] && r[4 * i + 1] == b[4 * i + 1];
      assert r[4 * i + 2] == b[4 * i + 2] && r[4 * i + 3] == b[4 * i + 3];
    }
  }

  lemma Digits(w: nat)
    ensures var w1 := w / 0x100;
            var w2 := w1 / 0x100;
            w == FromBytes(w % 0x100, w1 % 0x100, w2 % 0x100, w2 / 0x100)
  {
  }

  lemma ZeroWord(j: nat)
    requires j < NINDIRECT
    ensures Word(ZeroBlock(), j) == 0
  {
  }

  // ---- bits ----

  function WithByteBit(x: Byte, k: nat, v: bool): (y: Byte)
    requires k < 8
  {
    assert Pow2(8) == 256 by { assert Pow2(4) == 16; assert Pow2(6) == 64; }
    NatBitRange(x, k, v, 8);
    WithNatBit(x, k, v)
  }

  predicate Bit(b: Block, i: nat)
    requires |b| == BSIZE && i < BPB
  {
    NatBit(b[i / 8], i % 8)
  }

  function WithBit(b: Block, i: nat, v: bool): (r: Block)
    requires |b| == BSIZE && i < BPB
    ensures |r| == BSIZE
  {
    b[i / 8 := WithByteBit(b[i / 8], i % 8, v)]
  }

  lemma BitAfter(b: Block, i: nat, v: bool, j: nat)
    requires |b| == BSIZE && i < BPB && j < BPB
    ensures Bit(WithBit(b, i, v), j) <==> if j == i then v else Bit(b, j)
  {
    hide NatBit, WithNatBit;
    NatBitAfter(b[i / 8], i % 8, v, j % 8);
  }

  /** Words and bits are numbered alike: bit i of a block is bit i % 32 of its word i / 32. */
  lemma BitOfWord(b: Block, i: nat)
    requires |b| == BSIZE && i < BPB
    ensures Bit(b, i) <==> NatBit(Word(b, i / 32), i % 32)
  {
    hide NatBit, Pow2;
    var j, k := i / 32, i % 32;
    var w3 := b[4 * j + 3] as nat;
    var w2 := b[4 * j + 2] + 0x100 * w3;
    var w1 := b[4 * j + 1] + 0x100 * w2;
    ByteBelow(b[4 * j], w1, k);
    if k >= 8 {
      ByteBelow(b[4 * j + 1], w2, k - 8);
    }
    if k >= 16 {
      ByteBelow(b[4 * j + 2], w3, k - 16);
    }
    ByteIndex(i);
  }

  lemma ByteIndex(i: nat)
    ensures i / 8 == 4 * (i / 32) + i % 32 / 8 && i % 8 == i % 32 % 8
  {
  }

  lemma ByteBelow(x: Byte, w: nat, k: nat)
    ensures NatBit(x + 0x100 * w, k) <==> if k < 8 then NatBit(x, k) else NatBit(w, k - 8)
  {
    assert Pow2(8) == 256 by { assert Pow2(4) == 16; assert Pow2(6) == 64; }
    NatBitJoined(w, 8, x, k);
  }
}
