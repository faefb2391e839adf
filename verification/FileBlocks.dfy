/** Which disk block belongs to whom: the free-block bitmap, the inodes' block addresses and the indirect
    blocks of kernel/fs.c, and what one change to any of them does to the files. */
module FileBlocks {
  import opened BlockFormat

  const NDIRECT: nat := 12
  const MAXFILE: nat := 268

  /** Inodes per block. */
  const IPB: nat := 16

  /** The bytes of an inode on disk. */
  const DINODE: nat := 64

  /** An inode's places for a block number: NDIRECT direct ones, the indirect block's own at NDIRECT, and
      after it the NINDIRECT entries of the indirect block. */
  const SLOTS: nat := 269

  /** The superblock. Blocks below `datastart` are boot block, superblock, log, inodes and bitmap. */
  datatype Super = Super(size: nat, ninodes: nat, inodestart: nat, bmapstart: nat, datastart: nat) {
    ghost predicate Ok() {
      && 0 < datastart <= size < UINT
      && bmapstart + (size - 1) / BPB < datastart
      && inodestart + ninodes / IPB < datastart
    }

    /** BBLOCK */
    function BitmapBlock(b: nat): (bb: nat) {
      bmapstart + b / BPB
    }

    /** IBLOCK */
    function InodeBlock(n: nat): (ib: nat) {
      inodestart + n / IPB
    }
  }

  /** Inodes lie one after the other from block inodestart on; all of inode n is in its InodeBlock. */
  lemma InodeWhere(g: Super, n: nat)
    ensures var k := g.InodeBlock(n) - g.inodestart; k * BSIZE <= DINODE * n && DINODE * n + DINODE <= (k + 1) * BSIZE
  {
  }

  /** The bits of the bitmap lie one after the other from block bmapstart on. */
  lemma BitWhere(g: Super, b: nat)
    ensures (g.BitmapBlock(b) - g.bmapstart) * BPB + b % BPB == b
  {
  }

  datatype Inode = Inode(typ: nat, nlink: nat, size: nat, addrs: seq<nat>)

  /** The blocks as a read returns them, and the inodes as the kernel has them in memory. */
  datatype FS = FS(data: seq<Block>, nodes: seq<Inode>)

  ghost predicate Shape(g: Super, fs: FS) {
    && g.Ok() && |fs.data| == g.size && |fs.nodes| == g.ninodes
    && (forall b :: 0 <= b < |fs.data| ==> |fs.data[b]| == BSIZE)
    && (forall n :: 0 <= n < |fs.nodes| ==> |fs.nodes[n].addrs| == NDIRECT + 1 && fs.nodes[n].size <= MAXFILE * BSIZE)
  }

  predicate Used(g: Super, fs: FS, b: nat)
    requires Shape(g, fs) && b < g.size
  {
    Bit(fs.data[g.BitmapBlock(b)], b % BPB)
  }

  /** The block number in slot k of inode n, 0 if there is none. */
  ghost function Ref(fs: FS, n: nat, k: nat): (b: nat) {
    if n < |fs.nodes| && |fs.nodes[n].addrs| == NDIRECT + 1 && k < SLOTS then
      var addrs := fs.nodes[n].addrs;
      if k <= NDIRECT then addrs[k]
      else if 0 < addrs[NDIRECT] < |fs.data| && |fs.data[addrs[NDIRECT]]| == BSIZE
      then Word(fs.data[addrs[NDIRECT]], k - NDIRECT - 1)
      else 0
    else 0
  }

  /** The slot that maps block bn of a file. */
  function Slot(bn: nat): (k: nat) {
    if bn < NDIRECT then bn else bn + 1
  }

  /** Which number on disk says where block bn of a file is. */
  lemma SlotWhere(g: Super, fs: FS, n: nat, bn: nat)
    requires Sound(g, fs) && n < |fs.nodes| && bn < MAXFILE
    ensures var ind := fs.nodes[n].addrs[NDIRECT]; ind != 0 ==> ind < |fs.data| && |fs.data[ind]| == BSIZE
    ensures var addrs := fs.nodes[n].addrs;
            Ref(fs, n, Slot(bn)) == if bn < NDIRECT then addrs[bn]
                                    else if addrs[NDIRECT] == 0 then 0
                                    else Word(fs.data[addrs[NDIRECT]], bn - NDIRECT)
  {
    hide Word, Used;
    assert Ref(fs, n, NDIRECT) == fs.nodes[n].addrs[NDIRECT];
  }

  /** Every block number held anywhere is a data block, marked used, and held once. */
  ghost predicate Owned(g: Super, fs: FS)
    requires Shape(g, fs)
  {
    && (forall n, k {:trigger Ref(fs, n, k)} :: Ref(fs, n, k) != 0 ==>
          g.datastart <= Ref(fs, n, k) < g.size && Used(g, fs, Ref(fs, n, k)))
    && (forall n, k, n', k' {:trigger Ref(fs, n, k), Ref(fs, n', k')} ::
          Ref(fs, n, k) != 0 && Ref(fs, n, k) == Ref(fs, n', k') ==> n == n' && k == k')
    && (forall b: nat {:trigger Used(g, fs, b)} :: b < g.datastart ==> Used(g, fs, b))
  }

  /** No block below the size is unmapped. */
  ghost predicate NoHoles(fs: FS) {
    forall n, bn: nat {:trigger Ref(fs, n, Slot(bn))} ::
      0 <= n < |fs.nodes| && bn * BSIZE < fs.nodes[n].size ==> Ref(fs, n, Slot(bn)) != 0
  }

  /** In order, but for holes. */
  ghost predicate Sound(g: Super, fs: FS) {
    Shape(g, fs) && Owned(g, fs)
  }

  ghost predicate Inv(g: Super, fs: FS) {
    Sound(g, fs) && NoHoles(fs)
  }

  ghost predicate Held(fs: FS, b: nat) {
    exists n, k :: Ref(fs, n, k) == b
  }

  // ---- the changes ----

  /** The blocks with b's bit in the bitmap set or cleared. */
  ghost function Marked(g: Super, fs: FS, b: nat, v: bool): (r: seq<Block>)
    requires Shape(g, fs) && b < g.size
    ensures |r| == |fs.data|
  {
    fs.data[g.BitmapBlock(b) := WithBit(fs.data[g.BitmapBlock(b)], b % BPB, v)]
  }

  /** balloc's effect: mark and zero. */
  ghost function Alloc(g: Super, fs: FS, b: nat): (r: FS)
    requires Shape(g, fs) && b < g.size
  {
    FS(Marked(g, fs, b, true)[b := ZeroBlock()], fs.nodes)
  }

  /** bfree's effect. */
  ghost function Free(g: Super, fs: FS, b: nat): (r: FS)
    requires Shape(g, fs) && b < g.size
  {
    FS(Marked(g, fs, b, false), fs.nodes)
  }

  ghost predicate SameRefs(fs: FS, fs': FS) {
    forall n, k {:trigger Ref(fs', n, k)} :: Ref(fs', n, k) == Ref(fs, n, k)
  }

  ghost predicate SameData(g: Super, fs: FS, fs': FS, except: nat) {
    && |fs'.data| == |fs.data|
    && forall x: nat {:trigger fs'.data[x]} :: g.datastart <= x < |fs.data| && x != except ==> fs'.data[x] == fs.data[x]
  }

  lemma UsedAfter(g: Super, fs: FS, fs': FS, b: nat, v: bool, x: nat)
    requires Shape(g, fs) && Shape(g, fs') && b < g.size && x < g.size
    requires var bb := g.BitmapBlock(b);
             fs'.data[g.BitmapBlock(x)] ==
             if g.BitmapBlock(x) == bb then WithBit(fs.data[bb], b % BPB, v) else fs.data[g.BitmapBlock(x)]
    ensures Used(g, fs', x) <==> if x == b then v else Used(g, fs, x)
  {
    hide Bit, WithBit;
    var bb := g.BitmapBlock(b);
    if g.BitmapBlock(x) == bb {
      BitAfter(fs.data[bb], b % BPB, v, x % BPB);
    }
  }

  lemma RefFrame(fs: FS, fs': FS, n: nat, k: nat)
    requires fs'.nodes == fs.nodes && |fs'.data| == |fs.data|
    requires 0 < Ref(fs, n, NDIRECT) < |fs.data| ==> fs'.data[Ref(fs, n, NDIRECT)] == fs.data[Ref(fs, n, NDIRECT)]
    ensures Ref(fs', n, k) == Ref(fs, n, k)
  {
  }

  lemma AllocKeeps(g: Super, fs: FS, b: nat)
    requires Sound(g, fs) && g.datastart <= b < g.size && !Used(g, fs, b)
    ensures var fs' := Alloc(g, fs, b);
            && Shape(g, fs') && SameRefs(fs, fs') && SameData(g, fs, fs', b) && fs'.data[b] == ZeroBlock()
            && fs'.nodes == fs.nodes
            && (forall x: nat {:trigger Used(g, fs', x)} :: x < g.size ==> (Used(g, fs', x) <==> x == b || Used(g, fs, x)))
    ensures !Held(fs, b)
  {
    hide WithBit, Bit, Word;
    var fs' := Alloc(g, fs, b);
    assert Shape(g, fs');
    forall n, k ensures Ref(fs', n, k) == Ref(fs, n, k) {
      assert Ref(fs, n, NDIRECT) != b;
      RefFrame(fs, fs', n, k);
    }
    forall x: nat {:trigger Used(g, fs', x)} | x < g.size
      ensures Used(g, fs', x) <==> x == b || Used(g, fs, x)
    {
      UsedAfter(g, fs, fs', b, true, x);
    }
  }

  lemma AllocKeepsSound(g: Super, fs: FS, b: nat)
    requires Sound(g, fs) && g.datastart <= b < g.size && !Used(g, fs, b)
    ensures Sound(g, Alloc(g, fs, b))
  {
    hide Used, Ref, Alloc, Slot;
    AllocKeeps(g, fs, b);
  }

  lemma FreeKeeps(g: Super, fs: FS, b: nat)
    requires Shape(g, fs) && g.datastart <= b < g.size
    requires forall n :: 0 < Ref(fs, n, NDIRECT) ==> g.datastart <= Ref(fs, n, NDIRECT)
    ensures var fs' := Free(g, fs, b);
            && Shape(g, fs') && SameRefs(fs, fs') && SameData(g, fs, fs', g.size)
            && (forall x: nat {:trigger Used(g, fs', x)} :: x < g.size ==> (Used(g, fs', x) <==> x != b && Used(g, fs, x)))
  {
    hide WithBit, Bit, Word;
    var fs' := Free(g, fs, b);
    assert Shape(g, fs');
    forall n, k ensures Ref(fs', n, k) == Ref(fs, n, k) {
      RefFrame(fs, fs', n, k);
    }
    forall x: nat {:trigger Used(g, fs', x)} | x < g.size
      ensures Used(g, fs', x) <==> x != b && Used(g, fs, x)
    {
      UsedAfter(g, fs, fs', b, false, x);
    }
  }

  /** Store b in slot k of inode n. */
  ghost function Point(fs: FS, n: nat, k: nat, b: nat): (r: FS)
    requires n < |fs.nodes| && |fs.nodes[n].addrs| == NDIRECT + 1 && k < SLOTS && b < UINT
    requires NDIRECT < k ==> Ref(fs, n, NDIRECT) < |fs.data| && |fs.data[Ref(fs, n, NDIRECT)]| == BSIZE
  {
    if k <= NDIRECT
    then FS(fs.data, fs.nodes[n := fs.nodes[n].(addrs := fs.nodes[n].addrs[k := b])])
    else
      FS(fs.data[Ref(fs, n, NDIRECT) := WithWord(fs.data[Ref(fs, n, NDIRECT)], k - NDIRECT - 1, b)], fs.nodes)
  }

  lemma PointRef(g: Super, fs: FS, n: nat, k: nat, b: nat, n': nat, k': nat)
    requires Shape(g, fs) && Owned(g, fs) && n < |fs.nodes| && k < SLOTS && b < g.size
    requires NDIRECT < k ==> Ref(fs, n, NDIRECT) != 0
    requires k == NDIRECT ==> Ref(fs, n, NDIRECT) == 0 && fs.data[b] == ZeroBlock()
    ensures Ref(Point(fs, n, k, b), n', k') == if n' == n && k' == k then b else Ref(fs, n', k')
  {
    hide Word, WithWord, Used;
    if n' != n {
      assert Ref(fs, n', NDIRECT) != 0 ==> Ref(fs, n', NDIRECT) != Ref(fs, n, NDIRECT);
    } else if NDIRECT < k' < SLOTS {
      if k == NDIRECT {
        ZeroWord(k' - NDIRECT - 1);
      } else if NDIRECT < k {
        WordRoundTrip(fs.data[Ref(fs, n, NDIRECT)], k - NDIRECT - 1, b, k' - NDIRECT - 1);
      }
    }
  }

  lemma PointKeeps(g: Super, fs: FS, n: nat, k: nat, b: nat)
    requires Sound(g, fs) && n < |fs.nodes| && k < SLOTS
    requires g.datastart <= b < g.size && Used(g, fs, b) && !Held(fs, b) && Ref(fs, n, k) == 0
    requires NDIRECT < k ==> Ref(fs, n, NDIRECT) != 0
    requires k == NDIRECT ==> fs.data[b] == ZeroBlock()
    ensures var fs' := Point(fs, n, k, b);
            && Shape(g, fs') && SameData(g, fs, fs', if NDIRECT < k then Ref(fs, n, NDIRECT) else g.size)
            && (forall n', k' {:trigger Ref(fs', n', k')} ::
                  Ref(fs', n', k') == if n' == n && k' == k then b else Ref(fs, n', k'))
            && (forall x: nat {:trigger Used(g, fs', x)} :: x < g.size ==> (Used(g, fs', x) <==> Used(g, fs, x)))
  {
    hide Word, WithWord, Bit;
    var fs' := Point(fs, n, k, b);
    forall n', k' {:trigger Ref(fs', n', k')}
      ensures Ref(fs', n', k') == if n' == n && k' == k then b else Ref(fs, n', k')
    {
      PointRef(g, fs, n, k, b, n', k');
    }
  }

  lemma PointKeepsSound(g: Super, fs: FS, n: nat, k: nat, b: nat)
    requires Sound(g, fs) && n < |fs.nodes| && k < SLOTS
    requires g.datastart <= b < g.size && Used(g, fs, b) && !Held(fs, b) && Ref(fs, n, k) == 0
    requires NDIRECT < k ==> Ref(fs, n, NDIRECT) != 0
    requires k == NDIRECT ==> fs.data[b] == ZeroBlock()
    ensures Sound(g, Point(fs, n, k, b))
  {
    hide Used, Slot;
    PointKeeps(g, fs, n, k, b);
    var fs' := Point(fs, n, k, b);
    assert forall n', k' :: Ref(fs, n', k') == b ==> Held(fs, b);
  }

  // ---- files as byte sequences ----

  /** Byte `off` of inode n's blocks, whether or not its size covers it yet. An unmapped block has none. */
  ghost function ByteAt(fs: FS, n: nat, off: nat): (x: Byte) {
    var b := Ref(fs, n, Slot(off / BSIZE));
    if 0 < b < |fs.data| && off % BSIZE < |fs.data[b]| then fs.data[b][off % BSIZE] else 0
  }

  /** What a reader of inode n gets. */
  ghost function Contents(fs: FS, n: nat): (c: seq<Byte>)
    requires n < |fs.nodes|
    ensures |c| == fs.nodes[n].size
  {
    seq(fs.nodes[n].size, off requires 0 <= off => ByteAt(fs, n, off))
  }

  ghost predicate SameBytes(fs: FS, fs': FS, n: nat) {
    forall off: nat {:trigger ByteAt(fs', n, off)} :: ByteAt(fs', n, off) == ByteAt(fs, n, off)
  }

  lemma SameBytesContents(fs: FS, fs': FS, n: nat)
    requires n < |fs.nodes| && n < |fs'.nodes| && fs'.nodes[n].size == fs.nodes[n].size && SameBytes(fs, fs', n)
    ensures Contents(fs', n) == Contents(fs, n)
  {
    hide ByteAt;
  }

  /** Every used data block belongs to some file. */
  ghost predicate NoLeaks(g: Super, fs: FS) {
    && Shape(g, fs)
    && forall b: nat {:trigger Used(g, fs, b)} :: g.datastart <= b < g.size && Used(g, fs, b) ==> Held(fs, b)
  }

  /** Take the free block b into slot k of inode n. */
  ghost function Grow(g: Super, fs: FS, n: nat, k: nat, b: nat): (r: FS)
    requires Sound(g, fs) && n < |fs.nodes| && k < SLOTS && g.datastart <= b < g.size && !Used(g, fs, b)
  {
    AllocKeeps(g, fs, b);
    AllocKeepsSound(g, fs, b);
    Point(Alloc(g, fs, b), n, k, b)
  }

  lemma GrowKeeps(g: Super, fs: FS, n: nat, k: nat, b: nat)
    requires Sound(g, fs) && n < |fs.nodes| && k < SLOTS && g.datastart <= b < g.size && !Used(g, fs, b)
    requires Ref(fs, n, k) == 0 && (NDIRECT < k ==> Ref(fs, n, NDIRECT) != 0)
    ensures var fs' := Grow(g, fs, n, k, b);
            && Sound(g, fs')
            && (forall n', k' {:trigger Ref(fs', n', k')} ::
                  Ref(fs', n', k') == if n' == n && k' == k then b else Ref(fs, n', k'))
            && (forall x: nat {:trigger Used(g, fs', x)} :: x < g.size ==> (Used(g, fs', x) <==> x == b || Used(g, fs, x)))
            && (forall x: nat {:trigger fs'.data[x]} ::
                  g.datastart <= x < g.size && x != b && x != Ref(fs, n, NDIRECT) ==> fs'.data[x] == fs.data[x])
            && fs'.data[b] == ZeroBlock()
            && |fs'.nodes| == |fs.nodes| && (forall i :: 0 <= i < |fs.nodes| ==> fs'.nodes[i].(addrs := []) == fs.nodes[i].(addrs := []))
  {
    hide Used, Slot, Alloc;
    AllocKeeps(g, fs, b);
    AllocKeepsSound(g, fs, b);
    var fs1 := Alloc(g, fs, b);
    assert !Held(fs1, b) by {
      assert forall n', k' :: Ref(fs1, n', k') == b ==> Ref(fs, n', k') == b && Held(fs, b);
    }
    PointKeeps(g, fs1, n, k, b);
    PointKeepsSound(g, fs1, n, k, b);
  }

  /** Adding a zeroed block changes no byte of any file. */
  lemma GrowKeepsBytes(g: Super, fs: FS, n: nat, k: nat, b: nat, n': nat)
    requires Sound(g, fs) && n < |fs.nodes| && k < SLOTS && g.datastart <= b < g.size && !Used(g, fs, b)
    requires Ref(fs, n, k) == 0 && (NDIRECT < k ==> Ref(fs, n, NDIRECT) != 0)
    ensures SameBytes(fs, Grow(g, fs, n, k, b), n')
  {
    hide Used, Alloc, Grow, Word;
    GrowKeeps(g, fs, n, k, b);
    var fs' := Grow(g, fs, n, k, b);
    forall off: nat {:trigger ByteAt(fs', n', off)} ensures ByteAt(fs', n', off) == ByteAt(fs, n', off) {
      var r := Ref(fs, n', Slot(off / BSIZE));
      assert r != 0 ==> r != b && r != Ref(fs, n, NDIRECT);
      assert Ref(fs', n', Slot(off / BSIZE)) == if n' == n && Slot(off / BSIZE) == k then b else r;
    }
  }

  lemma GrowKeepsNoLeaks(g: Super, fs: FS, n: nat, k: nat, b: nat)
    requires Sound(g, fs) && n < |fs.nodes| && k < SLOTS && g.datastart <= b < g.size && !Used(g, fs, b)
    requires Ref(fs, n, k) == 0 && (NDIRECT < k ==> Ref(fs, n, NDIRECT) != 0)
    requires NoLeaks(g, fs)
    ensures Sound(g, Grow(g, fs, n, k, b)) && NoLeaks(g, Grow(g, fs, n, k, b))
  {
    hide Used, Alloc, Grow;
    GrowKeeps(g, fs, n, k, b);
    var fs' := Grow(g, fs, n, k, b);
    forall x: nat {:trigger Used(g, fs', x)} | g.datastart <= x < g.size && Used(g, fs', x)
      ensures Held(fs', x)
    {
      if x == b {
        assert Ref(fs', n, k) == b;
      } else {
        var n', k' :| Ref(fs, n', k') == x;
        assert Ref(fs', n', k') == x;
      }
    }
  }

  /** Replace the data of file block bn of inode n. */
  ghost function Overwrite(fs: FS, n: nat, bn: nat, blk: Block): (r: FS)
    requires Ref(fs, n, Slot(bn)) < |fs.data|
  {
    FS(fs.data[Ref(fs, n, Slot(bn)) := blk], fs.nodes)
  }

  ghost predicate SameUsed(g: Super, fs: FS, fs': FS)
    requires Shape(g, fs) && Shape(g, fs')
  {
    forall x: nat {:trigger Used(g, fs', x)} :: x < g.size ==> (Used(g, fs', x) <==> Used(g, fs, x))
  }

  lemma OverwriteRefs(g: Super, fs: FS, n: nat, bn: nat, blk: Block)
    requires Sound(g, fs) && Ref(fs, n, Slot(bn)) != 0 && |blk| == BSIZE
    ensures var fs' := Overwrite(fs, n, bn, blk);
            Shape(g, fs') && SameRefs(fs, fs') && SameUsed(g, fs, fs')
  {
    hide Word, Bit;
    var fs' := Overwrite(fs, n, bn, blk);
    assert Shape(g, fs');
    forall n', k' ensures Ref(fs', n', k') == Ref(fs, n', k') {
      assert Ref(fs, n', NDIRECT) != 0 ==> Ref(fs, n', NDIRECT) != Ref(fs, n, Slot(bn));
      RefFrame(fs, fs', n', k');
    }
    assert forall x: nat :: x < g.size ==> g.BitmapBlock(x) < g.datastart;
  }

  lemma SameKeepsSound(g: Super, fs: FS, fs': FS)
    requires Sound(g, fs) && Shape(g, fs') && SameRefs(fs, fs') && SameUsed(g, fs, fs')
    ensures Sound(g, fs') && (NoLeaks(g, fs) ==> NoLeaks(g, fs'))
  {
    hide Ref, Used, Slot;
    if NoLeaks(g, fs) {
      forall x: nat {:trigger Used(g, fs', x)} | g.datastart <= x < g.size && Used(g, fs', x) ensures Held(fs', x) {
        var n, k :| Ref(fs, n, k) == x;
        assert Ref(fs', n, k) == x;
      }
    }
  }

  lemma OverwriteKeeps(g: Super, fs: FS, n: nat, bn: nat, blk: Block)
    requires Sound(g, fs) && Ref(fs, n, Slot(bn)) != 0 && |blk| == BSIZE
    ensures var fs' := Overwrite(fs, n, bn, blk);
            && Sound(g, fs') && SameRefs(fs, fs') && SameUsed(g, fs, fs')
            && (NoLeaks(g, fs) ==> NoLeaks(g, fs'))
  {
    hide Used, SameRefs, SameUsed;
    OverwriteRefs(g, fs, n, bn, blk);
    SameKeepsSound(g, fs, Overwrite(fs, n, bn, blk));
  }

  lemma OverwriteBytes(g: Super, fs: FS, n: nat, bn: nat, blk: Block, n': nat, off: nat)
    requires Sound(g, fs) && Ref(fs, n, Slot(bn)) != 0 && |blk| == BSIZE
    ensures ByteAt(Overwrite(fs, n, bn, blk), n', off) ==
            if n' == n && off / BSIZE == bn then blk[off % BSIZE] else ByteAt(fs, n', off)
  {
    hide Word, Bit, Used;
    OverwriteKeeps(g, fs, n, bn, blk);
    var fs' := Overwrite(fs, n, bn, blk);
    var r := Ref(fs, n', Slot(off / BSIZE));
    assert Ref(fs', n', Slot(off / BSIZE)) == r;
    assert r != 0 && r == Ref(fs, n, Slot(bn)) ==> n' == n && Slot(off / BSIZE) == Slot(bn);
  }
}
