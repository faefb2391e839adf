/** The bound of MAXOPBLOCKS on what one chunk of filewrite() logs is reached: a file system in which a chunk of three
    blocks logs ten. And it rests on files having no holes: one in which such a chunk logs eleven. */
module TransactionBound {
  import opened Bits
  import opened BlockFormat
  import opened Collections
  import opened FileBlocks
  import opened FileSystem

  /** k bitmap blocks, each with its last bit clear: the free blocks are the last that each describes. */
  function G(k: nat): (g: Super) {
    Super(k * BPB, IPB, 2, 4, 4 + k)
  }

  function Bitmap(): (b: Block)
    ensures |b| == BSIZE && b[BSIZE - 1] == 127 && forall i :: 0 <= i < BSIZE - 1 ==> b[i] == 255
  {
    seq(BSIZE, i => if i < BSIZE - 1 then 255 else 127)
  }

  function Data(k: nat): (d: seq<Block>)
    ensures |d| == k * BPB && forall b :: 0 <= b < |d| ==> d[b] == if 4 <= b < 4 + k then Bitmap() else ZeroBlock()
  {
    seq(k * BPB, b => if 4 <= b < 4 + k then Bitmap() else ZeroBlock())
  }

  function NoAddrs(): (a: seq<nat>)
    ensures |a| == NDIRECT + 1 && forall k :: 0 <= k <= NDIRECT ==> a[k] == 0
  {
    seq(NDIRECT + 1, _ => 0)
  }

  /** One file. */
  function Nodes(file: Inode): (ns: seq<Inode>)
    ensures |ns| == IPB && ns[1] == file
    ensures forall i :: 0 <= i < IPB && i != 1 ==> ns[i] == Inode(0, 0, 0, NoAddrs())
  {
    seq(IPB, i => if i == 1 then file else Inode(0, 0, 0, NoAddrs()))
  }

  ghost function F(k: nat, file: Inode): (fs: FS) {
    FS(Data(k), Nodes(file))
  }

  /** The direct blocks are different used ones, and there is no indirect block. */
  ghost predicate Direct(k: nat, file: Inode) {
    && 1 <= k <= 5 && |file.addrs| == NDIRECT + 1 && file.addrs[NDIRECT] == 0 && file.size <= MAXFILE * BSIZE
    && (forall j :: 0 <= j < NDIRECT && file.addrs[j] != 0 ==> 4 + k <= file.addrs[j] < BPB - 1)
    && (forall i, j :: 0 <= i < j < NDIRECT && file.addrs[i] != 0 ==> file.addrs[i] != file.addrs[j])
  }

  lemma AllOnes(k: nat)
    requires k < 8
    ensures NatBit(255, k) && (NatBit(127, k) <==> k != 7)
  {
    assert NatBit(255, k) by { Ones(255, 8, k); }
    if k < 7 {
      Ones(127, 7, k);
    } else {
      assert NatBit(127, 7) == NatBit(63, 6) == NatBit(31, 5) == NatBit(15, 4) == NatBit(7, 3) == NatBit(3, 2);
    }
  }

  lemma {:induction false} Ones(x: nat, n: nat, k: nat)
    requires x + 1 == Pow2(n) && k < n
    ensures NatBit(x, k)
    decreases k
  {
    var p := Pow2(n - 1);
    assert x == 2 * p - 1;
    assert x % 2 == 1 && x / 2 == p - 1;
    if k > 0 {
      Ones(x / 2, n - 1, k - 1);
    }
  }

  lemma FShape(k: nat, file: Inode)
    requires Direct(k, file)
    ensures Shape(G(k), F(k, file))
  {
    hide NoAddrs, Data, Nodes, Bitmap;
    assert G(k).Ok();
    assert forall n :: 0 <= n < IPB ==> n == 1 || Nodes(file)[n] == Inode(0, 0, 0, NoAddrs());
  }

  lemma FUsed(k: nat, file: Inode, b: nat)
    requires Shape(G(k), F(k, file)) && b < k * BPB
    ensures Used(G(k), F(k, file), b) <==> b % BPB != BPB - 1
  {
    hide NatBit;
    AllOnes(b % BPB % 8);
  }

  lemma FRef(k: nat, file: Inode, n: nat, j: nat)
    requires Direct(k, file)
    ensures Ref(F(k, file), n, j) == if n == 1 && j < NDIRECT then file.addrs[j] else 0
  {
    hide NoAddrs, Data, Nodes;
    if n < IPB && n != 1 {
      assert F(k, file).nodes[n] == Inode(0, 0, 0, NoAddrs());
    }
  }

  lemma FSound(k: nat, file: Inode)
    requires Direct(k, file)
    ensures Sound(G(k), F(k, file))
  {
    hide Used, Ref;
    FShape(k, file);
    var g, fs := G(k), F(k, file);
    forall n: nat, j: nat {:trigger Ref(fs, n, j)} ensures Ref(fs, n, j) == if n == 1 && j < NDIRECT then file.addrs[j] else 0 {
      FRef(k, file, n, j);
    }
    forall b: nat {:trigger Used(g, fs, b)} | b < g.size ensures Used(g, fs, b) <==> b % BPB != BPB - 1 {
      FUsed(k, file, b);
    }
    assert Owned(g, fs);
  }

  /** The blocks that are free. */
  predicate Last(k: nat, x: nat) {
    x < k * BPB && x % BPB == BPB - 1
  }

  lemma NewIsLast(k: nat, file: Inode, fs: FS, ks: set<nat>, j: nat)
    requires Direct(k, file) && Gains(G(k), F(k, file), fs, 1, ks) && Ref(F(k, file), 1, j) == 0 && Ref(fs, 1, j) != 0
    ensures Last(k, Ref(fs, 1, j))
  {
    hide Used, Ref;
    FUsed(k, file, Ref(fs, 1, j));
  }

  /** Once the disk is full each of them has been taken. */
  lemma Holder(k: nat, file: Inode, fs: FS, lo: nat, hi: nat, x: nat) returns (j: nat)
    requires Direct(k, file) && Gains(G(k), F(k, file), fs, 1, Visited(lo, hi)) && Full(G(k), fs) && Last(k, x)
    ensures Ref(F(k, file), 1, j) == 0 && Ref(fs, 1, j) == x && j in Visited(lo, hi)
  {
    hide Ref, Used;
    FUsed(k, file, x);
    assert Used(G(k), fs, x) && NewRef(F(k, file), fs, 1, x);
    j :| Ref(F(k, file), 1, j) == 0 && Ref(fs, 1, j) == x;
  }

  ghost predicate AllMapped(fs: FS, lo: nat) {
    forall bn: nat {:trigger Ref(fs, 1, Slot(bn))} :: lo <= bn < lo + 4 ==> Ref(fs, 1, Slot(bn)) != 0
  }

  /** Different free blocks have their bits in different bitmap blocks. */
  lemma LastApart(k: nat, x: nat, y: nat)
    requires Last(k, x) && Last(k, y) && x != y
    ensures G(k).BitmapBlock(x) != G(k).BitmapBlock(y)
  {
  }

  // ---- ten ----

  function Addrs(): (a: seq<nat>)
    ensures |a| == NDIRECT + 1 && a[NDIRECT] == 0 && forall k :: 0 <= k < NDIRECT ==> a[k] == 8 + k
  {
    [8, 9, 10, 11, 12, 13, 14, 15, 16, 17, 18, 19, 0]
  }

  /** A file of all the direct blocks, the last with one byte in it, and no indirect block. */
  function Whole(): (file: Inode) {
    Inode(2, 1, 11 * BSIZE + 1, Addrs())
  }

  lemma WholeInv()
    ensures Direct(4, Whole()) && Inv(G(4), F(4, Whole()))
  {
    hide Used, Ref, Addrs, Data, Nodes, NoAddrs;
    var fs := F(4, Whole());
    FSound(4, Whole());
    forall n: nat, bn: nat {:trigger Ref(fs, n, Slot(bn))} | n < |fs.nodes| && bn * BSIZE < fs.nodes[n].size
      ensures Ref(fs, n, Slot(bn)) != 0
    {
      FRef(4, Whole(), n, Slot(bn));
      assert n == 1;
    }
  }

  /** If the disk filled up before the last block, three slots would hold four blocks. */
  lemma NotShort(fs: FS, hi: nat)
    requires Direct(4, Whole()) && Gains(G(4), F(4, Whole()), fs, 1, Visited(11, hi)) && hi <= 14
    ensures !Full(G(4), fs)
  {
    hide Full, Gains, Ref, Visited;
    if Full(G(4), fs) {
      var k0 := WholeHolder(fs, hi, BPB - 1);
      var k1 := WholeHolder(fs, hi, 2 * BPB - 1);
      var k2 := WholeHolder(fs, hi, 3 * BPB - 1);
      var k3 := WholeHolder(fs, hi, 4 * BPB - 1);
      assert false;
    }
  }

  lemma WholeHolder(fs: FS, hi: nat, x: nat) returns (j: nat)
    requires Direct(4, Whole()) && Gains(G(4), F(4, Whole()), fs, 1, Visited(11, hi)) && hi <= 14 && Full(G(4), fs) && Last(4, x)
    ensures Ref(fs, 1, j) == x && 12 <= j <= 14
  {
    hide Ref, Used, Full, Gains, Direct;
    j := Holder(4, Whole(), fs, 11, hi, x);
    FRef(4, Whole(), 1, j);
  }

  /** Ten blocks: the inode's, four of the bitmap, the indirect block, and four of data. */
  lemma Ten(fs: FS, logged: set<nat>)
    requires Direct(4, Whole()) && Exactly(G(4), F(4, Whole()), fs, 1, 11, 15, logged) && Inv(G(4), fs)
    requires AllMapped(fs, 11) && 2 in logged
    ensures |logged| >= MAXOPBLOCKS
  {
    hide Used, Ref, Gains, NoHoles, Direct;
    var d11, d12, d13, d14 := Ref(fs, 1, Slot(11)), Ref(fs, 1, Slot(12)), Ref(fs, 1, Slot(13)), Ref(fs, 1, Slot(14));
    var ind := Ref(fs, 1, NDIRECT);
    assert d11 != 0;
    NewSlots(fs, logged);
    assert d11 !in {ind, d12, d13, d14} && d11 >= 8;
    var t := {2, 4, 5, 6, 7, ind, d11, d12, d13, d14};
    Different(ind, d12, d13, d14);
    TenElements(ind, d11, d12, d13, d14);
    assert LogsBlock(G(4), F(4, Whole()), fs, 1, 11, logged);
    assert {4, 5, 6, 7} <= logged && d11 in logged;
    assert t <= logged;
    SubsetSize(t, logged);
  }

  lemma TenElements(a: nat, b: nat, c: nat, d: nat, e: nat)
    requires 8 <= a && 8 <= b && 8 <= c && 8 <= d && 8 <= e
    requires a != b && a != c && a != d && a != e && b != c && b != d && b != e && c != d && c != e && d != e
    ensures |{2, 4, 5, 6, 7, a, b, c, d, e}| == 10
  {
    assert {2, 4, 5, 6, 7, a, b, c, d, e} == {2, 4, 5, 6, 7} + {a, b, c, d, e};
    assert |{2, 4, 5, 6, 7}| == 5 && |{a, b, c, d, e}| == 5;
  }

  lemma NewSlots(fs: FS, logged: set<nat>)
    requires Direct(4, Whole()) && Exactly(G(4), F(4, Whole()), fs, 1, 11, 15, logged) && Inv(G(4), fs) && AllMapped(fs, 11)
    ensures var d12, d13, d14, ind := Ref(fs, 1, Slot(12)), Ref(fs, 1, Slot(13)), Ref(fs, 1, Slot(14)), Ref(fs, 1, NDIRECT);
            && Last(4, ind) && Last(4, d12) && Last(4, d13) && Last(4, d14)
            && ind != d12 && ind != d13 && ind != d14 && d12 != d13 && d12 != d14 && d13 != d14
            && {ind, d12, d13, d14} <= logged
            && {G(4).BitmapBlock(ind), G(4).BitmapBlock(d12), G(4).BitmapBlock(d13), G(4).BitmapBlock(d14)} <= logged
  {
    hide Used, NoHoles, Ref, Direct, Last;
    assert Slot(11) == 11 && Slot(12) == 13 && Slot(13) == 14 && Slot(14) == 15;
    assert Ref(fs, 1, Slot(12)) != 0 && Ref(fs, 1, Slot(13)) != 0 && Ref(fs, 1, Slot(14)) != 0;
    FRef(4, Whole(), 1, 12);
    FRef(4, Whole(), 1, 13);
    FRef(4, Whole(), 1, 14);
    FRef(4, Whole(), 1, 15);
    assert Ref(fs, 1, NDIRECT) != 0 by {
      if Ref(fs, 1, NDIRECT) == 0 {
        NoIndirect(fs, 1, 12);
      }
    }
    assert LogsBlock(G(4), F(4, Whole()), fs, 1, 12, logged) && LogsBlock(G(4), F(4, Whole()), fs, 1, 13, logged);
    assert LogsBlock(G(4), F(4, Whole()), fs, 1, 14, logged);
    NewIsLast(4, Whole(), fs, Visited(11, 15), 12);
    NewIsLast(4, Whole(), fs, Visited(11, 15), 13);
    NewIsLast(4, Whole(), fs, Visited(11, 15), 14);
    NewIsLast(4, Whole(), fs, Visited(11, 15), 15);
  }

  /** Four different blocks of four have their bits in the four bitmap blocks. */
  lemma Different(a: nat, b: nat, c: nat, d: nat)
    requires Last(4, a) && Last(4, b) && Last(4, c) && Last(4, d) && a != b && a != c && a != d && b != c && b != d && c != d
    ensures {G(4).BitmapBlock(a), G(4).BitmapBlock(b), G(4).BitmapBlock(c), G(4).BitmapBlock(d)} == {4, 5, 6, 7}
  {
  }

  /** Whatever a write of three blocks' worth of bytes to the file ends in, it has logged MAXOPBLOCKS blocks. */
  lemma Reached(fs: FS, r: int, src: seq<Byte>, logged: set<nat>)
    requires Direct(4, Whole()) && Inv(G(4), F(4, Whole())) && Inv(G(4), fs) && |fs.nodes| == IPB
    requires |src| == 3 * BSIZE && 0 <= r <= |src| && (r < |src| ==> Full(G(4), fs))
    requires Accounted(G(4), F(4, Whole()), fs, 1, 11 * BSIZE + 1, 3 * BSIZE, r, logged)
    requires Contents(fs, 1) == Spliced(Contents(F(4, Whole()), 1), 11 * BSIZE + 1, src[..r])
    ensures r == |src| && |logged| >= MAXOPBLOCKS
  {
    hide Ref, Used, Gains, LogsAll, Full, Slot, Direct;
    var hi: nat :|
      && (if r == 0 then hi == 11 else (hi - 1) * BSIZE < 11 * BSIZE + 1 + r <= hi * BSIZE)
      && Exactly(G(4), F(4, Whole()), fs, 1, 11, hi, logged);
    if r < |src| {
      NotShort(fs, hi);
    }
    assert fs.nodes[1].size == 14 * BSIZE + 1;
    Ten(fs, logged);
  }

  /** A write of three blocks' worth of bytes that logs exactly MAXOPBLOCKS blocks. */
  method Tight(src: seq<Byte>) returns (f: FileSystem, r: int, ghost before: FS)
    requires |src| == 3 * BSIZE
    ensures before == F(4, Whole()) && f.g == G(4) && Inv(f.g, before) && Inv(f.g, f.State()) && |f.nodes| == |before.nodes| == IPB
    ensures r == |src| && Contents(f.State(), 1) == Spliced(Contents(before, 1), before.nodes[1].size, src)
    ensures Accounted(f.g, before, f.State(), 1, before.nodes[1].size, |src|, r, f.logged) && |f.logged| == MAXOPBLOCKS
  {
    hide Inv, Contents, NoLeaks, Accounted, Full, Spliced, Direct;
    WholeInv();
    f := new FileSystem(G(4), Data(4), Nodes(Whole()));
    before := f.State();
    r := f.Writei(1, src, 11 * BSIZE + 1);
    assert f.logged - {} == f.logged;
    Reached(f.State(), r, src, f.logged);
    assert src[..r] == src;
  }

  // ---- eleven ----

  /** A file of sixteen blocks that has none of them. */
  function Hole(): (file: Inode) {
    Inode(2, 1, 16 * BSIZE, NoAddrs())
  }

  /** Where the first of four blocks is new too, and beyond the direct ones, the chunk logs eleven blocks, if the new
      blocks have their bits in different bitmap blocks. */
  lemma Eleven(g: Super, fs0: FS, fs: FS, n: nat, lo: nat, logged: set<nat>)
    requires Sound(g, fs) && NDIRECT <= lo && LogsAll(g, fs0, fs, n, lo, lo + 4, logged) && g.InodeBlock(n) in logged
    requires n < |fs.nodes| && Ref(fs0, n, NDIRECT) == 0 && Ref(fs, n, NDIRECT) != 0
    requires forall bn: nat :: lo <= bn < lo + 4 ==> NewBlock(fs0, fs, n, bn)
    requires Apart(g, fs, n, lo)
    ensures |logged| > MAXOPBLOCKS
  {
    hide Sound, Ref, Five;
    var a, b, c, d := Ref(fs, n, Slot(lo)), Ref(fs, n, Slot(lo + 1)), Ref(fs, n, Slot(lo + 2)), Ref(fs, n, Slot(lo + 3));
    var ind := Ref(fs, n, NDIRECT);
    assert NewBlock(fs0, fs, n, lo) && NewBlock(fs0, fs, n, lo + 1) && NewBlock(fs0, fs, n, lo + 2) && NewBlock(fs0, fs, n, lo + 3);
    assert LogsBlock(g, fs0, fs, n, lo, logged) && LogsBlock(g, fs0, fs, n, lo + 1, logged);
    assert LogsBlock(g, fs0, fs, n, lo + 2, logged) && LogsBlock(g, fs0, fs, n, lo + 3, logged);
    var data, bits := {a, b, c, d, ind}, {g.BitmapBlock(a), g.BitmapBlock(b), g.BitmapBlock(c), g.BitmapBlock(d), g.BitmapBlock(ind)};
    FiveRefs(g, fs, n, lo);
    FiveEach(a, b, c, d, ind);
    FiveEach(g.BitmapBlock(a), g.BitmapBlock(b), g.BitmapBlock(c), g.BitmapBlock(d), g.BitmapBlock(ind));
    DataBlock(g, fs, n, Slot(lo));
    DataBlock(g, fs, n, Slot(lo + 1));
    DataBlock(g, fs, n, Slot(lo + 2));
    DataBlock(g, fs, n, Slot(lo + 3));
    DataBlock(g, fs, n, NDIRECT);
    ElevenElements(data, bits, g.InodeBlock(n), g.datastart);
    SubsetSize(data + bits + {g.InodeBlock(n)}, logged);
  }

  ghost predicate NewBlock(fs0: FS, fs: FS, n: nat, bn: nat) {
    Ref(fs0, n, Slot(bn)) == 0 && Ref(fs, n, Slot(bn)) != 0
  }

  lemma FiveRefs(g: Super, fs: FS, n: nat, lo: nat)
    requires Sound(g, fs) && NDIRECT <= lo && Ref(fs, n, NDIRECT) != 0
    requires Ref(fs, n, Slot(lo)) != 0 && Ref(fs, n, Slot(lo + 1)) != 0 && Ref(fs, n, Slot(lo + 2)) != 0
    ensures Five(Ref(fs, n, Slot(lo)), Ref(fs, n, Slot(lo + 1)), Ref(fs, n, Slot(lo + 2)), Ref(fs, n, Slot(lo + 3)), Ref(fs, n, NDIRECT))
  {
    hide Used, Ref, Shape;
  }

  lemma DataBlock(g: Super, fs: FS, n: nat, k: nat)
    requires Sound(g, fs) && n < |fs.nodes| && Ref(fs, n, k) != 0 && g.inodestart + g.ninodes / IPB < g.bmapstart
    ensures g.datastart <= Ref(fs, n, k) && g.InodeBlock(n) < g.BitmapBlock(Ref(fs, n, k)) < g.datastart
  {
    hide Used, Ref;
  }

  lemma ElevenElements(data: set<nat>, bits: set<nat>, ib: nat, start: nat)
    requires |data| == 5 && |bits| == 5 && ib < start
    requires (forall x :: x in data ==> start <= x) && forall x :: x in bits ==> ib < x < start
    ensures |data + bits + {ib}| == 11
  {
    assert data !! bits && ib !in data + bits;
    assert |data + bits| == 10;
  }

  ghost predicate Five(a: nat, b: nat, c: nat, d: nat, e: nat) {
    a != b && a != c && a != d && a != e && b != c && b != d && b != e && c != d && c != e && d != e
  }

  lemma FiveEach(a: nat, b: nat, c: nat, d: nat, e: nat)
    requires Five(a, b, c, d, e)
    ensures |{a, b, c, d, e}| == 5
  {
  }

  /** The new blocks have their bits in different bitmap blocks, after the inodes. */
  ghost predicate Apart(g: Super, fs: FS, n: nat, lo: nat) {
    var a, b, c, d := Ref(fs, n, Slot(lo)), Ref(fs, n, Slot(lo + 1)), Ref(fs, n, Slot(lo + 2)), Ref(fs, n, Slot(lo + 3));
    && Five(g.BitmapBlock(a), g.BitmapBlock(b), g.BitmapBlock(c), g.BitmapBlock(d), g.BitmapBlock(Ref(fs, n, NDIRECT)))
    && g.inodestart + g.ninodes / IPB < g.bmapstart
  }

  lemma HoleHolder(fs: FS, hi: nat, x: nat) returns (j: nat)
    requires Direct(5, Hole()) && Gains(G(5), F(5, Hole()), fs, 1, Visited(12, hi)) && hi <= 15 && Full(G(5), fs) && Last(5, x)
    ensures Ref(fs, 1, j) == x && 12 <= j <= 15
  {
    hide Ref, Used, Full, Gains, Direct;
    j := Holder(5, Hole(), fs, 12, hi, x);
  }

  /** If the disk filled up before the last block, four slots would hold five blocks. */
  lemma HoleNotShort(fs: FS, hi: nat)
    requires Direct(5, Hole()) && Gains(G(5), F(5, Hole()), fs, 1, Visited(12, hi)) && hi <= 15
    ensures !Full(G(5), fs)
  {
    hide Full, Gains, Ref, Visited, Direct;
    if Full(G(5), fs) {
      var k0 := HoleHolder(fs, hi, BPB - 1);
      var k1 := HoleHolder(fs, hi, 2 * BPB - 1);
      var k2 := HoleHolder(fs, hi, 3 * BPB - 1);
      var k3 := HoleHolder(fs, hi, 4 * BPB - 1);
      var k4 := HoleHolder(fs, hi, 5 * BPB - 1);
      assert false;
    }
  }

  lemma HoleSlots(fs: FS, j: nat)
    requires Direct(5, Hole()) && Gains(G(5), F(5, Hole()), fs, 1, Visited(12, 16)) && Ref(fs, 1, j) != 0
    ensures Ref(F(5, Hole()), 1, j) == 0 && Last(5, Ref(fs, 1, j))
  {
    hide Ref, Gains, Last;
    FRef(5, Hole(), 1, j);
    NewIsLast(5, Hole(), fs, Visited(12, 16), j);
  }

  lemma HoleApart(fs: FS)
    requires Direct(5, Hole()) && Sound(G(5), fs) && Gains(G(5), F(5, Hole()), fs, 1, Visited(12, 16)) && AllMapped(fs, 12)
    ensures Ref(fs, 1, NDIRECT) != 0 && Apart(G(5), fs, 1, 12)
  {
    hide Ref, Gains, Last, Used, Direct, Shape;
    assert Slot(12) == 13 && Slot(13) == 14 && Slot(14) == 15 && Slot(15) == 16;
    var a, b, c, d := Ref(fs, 1, Slot(12)), Ref(fs, 1, Slot(13)), Ref(fs, 1, Slot(14)), Ref(fs, 1, Slot(15));
    var ind := Ref(fs, 1, NDIRECT);
    assert a != 0 && b != 0 && c != 0 && d != 0;
    assert ind != 0 by {
      if ind == 0 {
        NoIndirect(fs, 1, 12);
      }
    }
    HoleSlots(fs, 13);
    HoleSlots(fs, 14);
    HoleSlots(fs, 15);
    HoleSlots(fs, 16);
    HoleSlots(fs, 12);
    assert Five(a, b, c, d, ind);
    FiveLast(a, b, c, d, ind);
  }

  lemma FiveLast(a: nat, b: nat, c: nat, d: nat, e: nat)
    requires Last(5, a) && Last(5, b) && Last(5, c) && Last(5, d) && Last(5, e) && Five(a, b, c, d, e)
    ensures var g := G(5); Five(g.BitmapBlock(a), g.BitmapBlock(b), g.BitmapBlock(c), g.BitmapBlock(d), g.BitmapBlock(e))
  {
    hide Last;
    forall x, y | x in [a, b, c, d, e] && y in [a, b, c, d, e] && x != y ensures G(5).BitmapBlock(x) != G(5).BitmapBlock(y) {
      LastApart(5, x, y);
    }
  }

  /** The loop of writei and its iupdate, run on a file with holes, all within its size: a chunk of three blocks' worth of
      bytes that logs more than MAXOPBLOCKS blocks. */
  method HoleBreaks(src: seq<Byte>) returns (f: FileSystem, tot: nat, ghost before: FS)
    requires |src| == 3 * BSIZE
    ensures before == F(5, Hole()) && f.g == G(5) && Sound(f.g, before) && !NoHoles(before) && |before.nodes| == IPB
    ensures tot == |src| && 12 * BSIZE + 1 + |src| <= before.nodes[1].size
    ensures BytesWritten(before, f.State(), 1, 12 * BSIZE + 1, src)
    ensures Exactly(f.g, before, f.State(), 1, 12, 16, f.logged) && |f.logged| > MAXOPBLOCKS
  {
    hide Sound, BytesWritten, NoLeaks, Full, Direct, Exactly, Gains, LogsAll, Ref, Apart;
    HoleDirect();
    FSound(5, Hole());
    f := new FileSystem(G(5), Data(5), Nodes(Hole()));
    before := f.State();
    ghost var hi;
    tot, hi := f.WriteBlocks(1, src, 12 * BSIZE + 1);
    ExactlyIs(f.g, before, f.State(), hi, f.logged);
    if tot < |src| {
      HoleNotShort(f.State(), hi);
    }
    assert src[..tot] == src;
    assert hi == 16;
    ghost var mid := f.logged;
    f.Iupdate(1);
    MoreLogged(f.g, before, f.State(), 1, 12, 16, mid, f.logged);
    HoleChunk(f.State(), f.logged);
  }

  lemma HoleDirect()
    ensures Direct(5, Hole()) && !NoHoles(F(5, Hole()))
  {
    hide Ref;
    var fs := F(5, Hole());
    assert Direct(5, Hole());
    FRef(5, Hole(), 1, Slot(0));
    assert 0 * BSIZE < fs.nodes[1].size && Ref(fs, 1, Slot(0)) == 0;
  }

  lemma ExactlyIs(g: Super, fs0: FS, fs: FS, hi: nat, logged: set<nat>)
    requires Exactly(g, fs0, fs, 1, 12, hi, logged)
    ensures Gains(g, fs0, fs, 1, Visited(12, hi))
  {
  }

  lemma MoreLogged(g: Super, fs0: FS, fs: FS, n: nat, lo: nat, hi: nat, logged: set<nat>, more: set<nat>)
    requires Exactly(g, fs0, fs, n, lo, hi, logged) && logged <= more
    ensures Exactly(g, fs0, fs, n, lo, hi, more)
  {
    hide Gains, Ref;
    forall bn: nat | lo <= bn < hi ensures LogsBlock(g, fs0, fs, n, bn, more) {
      assert LogsBlock(g, fs0, fs, n, bn, logged);
    }
  }

  lemma HoleChunk(fs: FS, logged: set<nat>)
    requires Direct(5, Hole()) && Sound(G(5), fs) && Exactly(G(5), F(5, Hole()), fs, 1, 12, 16, logged)
    requires Mapped(fs, 1, 12, 16) && 2 in logged && |fs.nodes| == IPB
    ensures |logged| > MAXOPBLOCKS
  {
    hide Ref, Gains, Sound, Apart, Direct, LogsAll;
    HoleApart(fs);
    FRef(5, Hole(), 1, NDIRECT);
    forall bn: nat | 12 <= bn < 12 + 4 ensures NewBlock(F(5, Hole()), fs, 1, bn) {
      assert Ref(fs, 1, Slot(bn)) != 0;
      FRef(5, Hole(), 1, Slot(bn));
    }
    Eleven(G(5), F(5, Hole()), fs, 1, 12, logged);
  }

  // ---- itrunc ----

  /** How many bitmap blocks describe data blocks. */
  function DataBitmaps(g: Super): (n: nat)
    requires g.Ok()
  {
    if g.datastart < g.size then (g.size - 1) / BPB - g.datastart / BPB + 1 else 0
  }

  /** No inode is in a block of the bitmap. */
  ghost predicate InodesApart(g: Super) {
    g.inodestart + g.ninodes / IPB < g.bmapstart || g.bmapstart + (g.size - 1) / BPB < g.inodestart
  }

  /** Whatever file itrunc empties, it logs at most MAXOPBLOCKS blocks. */
  ghost predicate TruncateKeeps(g: Super) {
    forall fs: FS, n: nat {:trigger TruncateLog(g, fs, n)} :: Inv(g, fs) && n < |fs.nodes| ==> |TruncateLog(g, fs, n)| <= MAXOPBLOCKS
  }

  /** That is so exactly if at most nine bitmap blocks describe data blocks. */
  lemma TruncateBoundIff(g: Super)
    requires g.Ok() && 0 < g.ninodes && InodesApart(g)
    ensures TruncateKeeps(g) <==> DataBitmaps(g) < MAXOPBLOCKS
  {
    hide Inv, TruncateLog, DataBitmaps, InodesApart;
    if DataBitmaps(g) < MAXOPBLOCKS {
      forall fs: FS, n: nat {:trigger TruncateLog(g, fs, n)} | Inv(g, fs) && n < |fs.nodes| ensures |TruncateLog(g, fs, n)| <= MAXOPBLOCKS {
        TruncateWithin(g, fs, n);
      }
    } else {
      SpreadInv(g);
      SpreadLog(g);
    }
  }

  lemma TruncateWithin(g: Super, fs: FS, n: nat)
    requires Inv(g, fs) && DataBitmaps(g) < MAXOPBLOCKS
    ensures |TruncateLog(g, fs, n)| <= MAXOPBLOCKS
  {
    hide Used, Ref, Range, NoHoles;
    var lo := g.BitmapBlock(g.datastart);
    var s, t := BitmapBlocks(g, fs, n, Range(0, SLOTS)), Range(lo, lo + MAXOPBLOCKS - 1);
    forall x | x in s ensures x in t {
      var k :| k in Range(0, SLOTS) && Ref(fs, n, k) != 0 && x == g.BitmapBlock(Ref(fs, n, k));
      BitmapOrder(g, Ref(fs, n, k));
    }
    RangeSize(lo, lo + MAXOPBLOCKS - 1);
    SubsetSize(s, t);
  }

  lemma BitmapOrder(g: Super, b: nat)
    requires g.Ok() && g.datastart <= b < g.size
    ensures g.BitmapBlock(g.datastart) <= g.BitmapBlock(b) < g.BitmapBlock(g.datastart) + DataBitmaps(g)
  {
  }

  // A file of ten blocks, each described by another bitmap block, on a disk that is full.

  function AllSet(): (b: Block)
    ensures |b| == BSIZE && forall i :: 0 <= i < BSIZE ==> b[i] == 255
  {
    seq(BSIZE, _ => 255)
  }

  /** The first data block that the j-th of these bitmap blocks describes. */
  function FirstOf(g: Super, j: nat): (b: nat) {
    if j == 0 then g.datastart else (g.datastart / BPB + j) * BPB
  }

  lemma FirstIs(g: Super, j: nat)
    requires g.Ok() && j < MAXOPBLOCKS <= DataBitmaps(g)
    ensures g.datastart <= FirstOf(g, j) < g.size && FirstOf(g, j) / BPB == g.datastart / BPB + j
  {
    if j > 0 {
      Exact(g.datastart / BPB + j);
    }
  }

  lemma Exact(q: nat)
    ensures q * BPB / BPB == q
  {
  }

  function Spread(g: Super): (file: Inode)
    ensures |file.addrs| == NDIRECT + 1 && forall k :: 0 <= k <= NDIRECT ==> file.addrs[k] == if k < MAXOPBLOCKS then FirstOf(g, k) else 0
  {
    Inode(2, 1, MAXOPBLOCKS * BSIZE, seq(NDIRECT + 1, k requires 0 <= k => if k < MAXOPBLOCKS then FirstOf(g, k) else 0))
  }

  function SpreadData(g: Super): (d: seq<Block>)
    ensures |d| == g.size && forall b :: 0 <= b < |d| ==> d[b] == AllSet()
  {
    seq(g.size, _ => AllSet())
  }

  function SpreadNodes(g: Super): (ns: seq<Inode>)
    ensures |ns| == g.ninodes && forall i :: 0 <= i < |ns| ==> ns[i] == if i == 0 then Spread(g) else Inode(0, 0, 0, NoAddrs())
  {
    seq(g.ninodes, i => if i == 0 then Spread(g) else Inode(0, 0, 0, NoAddrs()))
  }

  ghost function SpreadFS(g: Super): (fs: FS) {
    FS(SpreadData(g), SpreadNodes(g))
  }

  lemma SpreadShape(g: Super)
    requires g.Ok()
    ensures Shape(g, SpreadFS(g))
  {
    hide SpreadData, SpreadNodes, AllSet, NoAddrs, FirstOf;
    var fs := SpreadFS(g);
    assert forall n :: 0 <= n < |fs.nodes| ==> fs.nodes[n] == Spread(g) || fs.nodes[n] == Inode(0, 0, 0, NoAddrs());
  }

  lemma SpreadUsed(g: Super, b: nat)
    requires g.Ok() && Shape(g, SpreadFS(g)) && b < g.size
    ensures Used(g, SpreadFS(g), b)
  {
    hide NatBit, SpreadNodes;
    AllOnes(b % BPB % 8);
  }

  lemma SpreadRef(g: Super, n: nat, k: nat)
    requires g.Ok() && 0 < g.ninodes
    ensures Ref(SpreadFS(g), n, k) == if n == 0 && k < MAXOPBLOCKS then FirstOf(g, k) else 0
  {
    hide SpreadData, NoAddrs, FirstOf;
    var fs := SpreadFS(g);
    if n < |fs.nodes| {
      assert fs.nodes[n] == if n == 0 then Spread(g) else Inode(0, 0, 0, NoAddrs());
    }
  }

  lemma SpreadSize(g: Super, n: nat)
    requires n < g.ninodes
    ensures SpreadFS(g).nodes[n].size == if n == 0 then MAXOPBLOCKS * BSIZE else 0
  {
    hide SpreadData, NoAddrs, FirstOf;
  }

  lemma SpreadInv(g: Super)
    requires g.Ok() && 0 < g.ninodes && MAXOPBLOCKS <= DataBitmaps(g)
    ensures Inv(g, SpreadFS(g)) && |SpreadFS(g).nodes| == g.ninodes
  {
    hide Used, Ref, DataBitmaps, FirstOf, Shape;
    var fs := SpreadFS(g);
    SpreadShape(g);
    forall n: nat, k: nat {:trigger Ref(fs, n, k)} ensures Ref(fs, n, k) == if n == 0 && k < MAXOPBLOCKS then FirstOf(g, k) else 0 {
      SpreadRef(g, n, k);
    }
    forall b: nat {:trigger Used(g, fs, b)} | b < g.size ensures Used(g, fs, b) {
      SpreadUsed(g, b);
    }
    forall j: nat {:trigger FirstOf(g, j)} | j < MAXOPBLOCKS
      ensures 0 < g.datastart <= FirstOf(g, j) < g.size && FirstOf(g, j) / BPB == g.datastart / BPB + j
    {
      FirstIs(g, j);
    }
    assert Owned(g, fs);
    forall n: nat, bn: nat {:trigger Ref(fs, n, Slot(bn))} | n < |fs.nodes| && bn * BSIZE < fs.nodes[n].size ensures Ref(fs, n, Slot(bn)) != 0 {
      SpreadSize(g, n);
    }
  }

  lemma SpreadLog(g: Super)
    requires g.Ok() && 0 < g.ninodes && MAXOPBLOCKS <= DataBitmaps(g) && InodesApart(g)
    ensures |TruncateLog(g, SpreadFS(g), 0)| > MAXOPBLOCKS
  {
    hide Ref, DataBitmaps, FirstOf, SpreadFS, Range;
    var lo, fs := g.BitmapBlock(g.datastart), SpreadFS(g);
    var s, t := BitmapBlocks(g, fs, 0, Range(0, SLOTS)), Range(lo, lo + MAXOPBLOCKS);
    forall x | x in t ensures x in s && x != g.InodeBlock(0) {
      SpreadBit(g, x - lo);
      assert x - lo in Range(0, SLOTS);
    }
    RangeSize(lo, lo + MAXOPBLOCKS);
    SubsetSize(t + {g.InodeBlock(0)}, TruncateLog(g, fs, 0));
  }

  lemma SpreadBit(g: Super, j: nat)
    requires g.Ok() && 0 < g.ninodes && j < MAXOPBLOCKS <= DataBitmaps(g) && InodesApart(g)
    ensures var b := Ref(SpreadFS(g), 0, j); b != 0 && g.BitmapBlock(b) == g.BitmapBlock(g.datastart) + j && g.BitmapBlock(b) != g.InodeBlock(0)
  {
    hide Ref, DataBitmaps, FirstOf, SpreadFS;
    FirstIs(g, j);
    SpreadRef(g, 0, j);
    LastBitmap(g, FirstOf(g, j));
  }

  lemma LastBitmap(g: Super, b: nat)
    requires g.Ok() && b < g.size
    ensures g.bmapstart <= g.BitmapBlock(b) <= g.bmapstart + (g.size - 1) / BPB
  {
  }

  /** One such run of itrunc. */
  method TruncateBreaks() returns (f: FileSystem, ghost before: FS)
    ensures before == SpreadFS(f.g) && Inv(f.g, before) && |before.nodes| == IPB && Truncated(f.g, before, f.State(), 0)
    ensures f.logged == TruncateLog(f.g, before, 0) && |f.logged| > MAXOPBLOCKS
  {
    hide Inv, Truncated, TruncateLog;
    var g := Super(10 * BPB, IPB, 2, 4, 14);
    assert g.Ok() && DataBitmaps(g) == 10 && InodesApart(g);
    SpreadInv(g);
    SpreadLog(g);
    f := new FileSystem(g, SpreadData(g), SpreadNodes(g));
    before := f.State();
    f.Itrunc(0);
  }
}
