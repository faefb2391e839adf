/** The block allocator and file routines of kernel/fs.c, with filewrite from kernel/file.c.

    `data` is what a read of each block returns and `nodes` the in-memory inodes; a user copy always
    succeeds. `logged` collects the blocks passed to log_write since the transaction began. */
module FileSystem {
  import opened BlockFormat
  import opened Collections
  import opened FileBlocks

  ghost predicate Full(g: Super, fs: FS) {
    && Shape(g, fs)
    && forall b: nat {:trigger Used(g, fs, b)} :: b < g.size ==> Used(g, fs, b)
  }

  /** Inodes keep everything but their block addresses. */
  ghost predicate SameMeta(fs: FS, fs': FS) {
    && |fs'.nodes| == |fs.nodes|
    && forall i :: 0 <= i < |fs.nodes| ==> fs'.nodes[i].(addrs := []) == fs.nodes[i].(addrs := [])
  }

  /** From fs to fs', inode n may have gained blocks; no byte of any file changed. */
  ghost predicate Extends(g: Super, fs: FS, fs': FS, n: nat) {
    && Sound(g, fs) && Sound(g, fs') && (NoLeaks(g, fs) ==> NoLeaks(g, fs'))
    && SameMeta(fs, fs')
    && (forall i, k {:trigger Ref(fs', i, k)} :: Ref(fs, i, k) != 0 || i != n ==> Ref(fs', i, k) == Ref(fs, i, k))
    && (forall i {:trigger SameBytes(fs, fs', i)} :: SameBytes(fs, fs', i))
  }

  lemma ExtendsSelf(g: Super, fs: FS, n: nat)
    requires Sound(g, fs)
    ensures Extends(g, fs, fs, n)
  {
  }

  lemma ExtendsTransitive(g: Super, fs: FS, fs1: FS, fs2: FS, n: nat)
    requires Extends(g, fs, fs1, n) && Extends(g, fs1, fs2, n)
    ensures Extends(g, fs, fs2, n)
  {
    hide Ref, Sound, NoLeaks, ByteAt;
    forall i {:trigger SameBytes(fs, fs2, i)} ensures SameBytes(fs, fs2, i) {
      assert SameBytes(fs, fs1, i) && SameBytes(fs1, fs2, i);
    }
    assert forall i, k :: Ref(fs, i, k) != 0 || i != n ==> Ref(fs1, i, k) == Ref(fs, i, k);
  }

  lemma GrowExtends(g: Super, fs: FS, n: nat, k: nat, b: nat)
    requires Sound(g, fs) && n < |fs.nodes| && k < SLOTS && g.datastart <= b < g.size && !Used(g, fs, b)
    requires Ref(fs, n, k) == 0 && (NDIRECT < k ==> Ref(fs, n, NDIRECT) != 0)
    ensures Extends(g, fs, Grow(g, fs, n, k, b), n) && Ref(Grow(g, fs, n, k, b), n, k) == b
    ensures forall j :: j != k ==> Ref(Grow(g, fs, n, k, b), n, j) == Ref(fs, n, j)
  {
    hide Ref, Owned, NoLeaks, ByteAt, Used, Grow, SameBytes;
    GrowKeeps(g, fs, n, k, b);
    var fs' := Grow(g, fs, n, k, b);
    forall i {:trigger SameBytes(fs, fs', i)} ensures SameBytes(fs, fs', i) {
      GrowKeepsBytes(g, fs, n, k, b, i);
    }
    if NoLeaks(g, fs) {
      GrowKeepsNoLeaks(g, fs, n, k, b);
    }
  }

  lemma MetaUsed(g: Super, fs: FS, b: nat)
    requires Sound(g, fs) && b < g.datastart
    ensures Used(g, fs, b)
  {
  }

  lemma BitIndex(b: nat, bi: nat)
    requires b % BPB == 0 && bi < BPB
    ensures (b + bi) / BPB == b / BPB && (b + bi) % BPB == bi
  {
  }

  /** What bmap passes to log_write: for each new block its bitmap block and itself, and the indirect block
      when one of its entries is filled in. */
  ghost function MapLog(g: Super, fs: FS, fs': FS, n: nat, bn: nat): (s: set<nat>) {
    var ind, r := Ref(fs', n, NDIRECT), Ref(fs', n, Slot(bn));
    (if NDIRECT <= bn && Ref(fs, n, NDIRECT) == 0 && ind != 0 then {g.BitmapBlock(ind), ind} else {}) +
    (if Ref(fs, n, Slot(bn)) == 0 && r != 0
     then if bn < NDIRECT then {g.BitmapBlock(r), r} else {g.BitmapBlock(r), r, ind}
     else {})
  }

  lemma NoIndirect(fs: FS, n: nat, bn: nat)
    requires Ref(fs, n, NDIRECT) == 0 && NDIRECT <= bn
    ensures Ref(fs, n, Slot(bn)) == 0
  {
  }

  lemma MapLogFrame(g: Super, fs: FS, fs1: FS, fs2: FS, n: nat, bn: nat)
    requires SameRefs(fs1, fs2)
    ensures MapLog(g, fs, fs2, n, bn) == MapLog(g, fs, fs1, n, bn)
  {
  }

  // ---- which slots and blocks change hands ----

  ghost predicate NewRef(fs: FS, fs': FS, n: nat, x: nat) {
    x != 0 && exists k: nat {:trigger Ref(fs', n, k)} :: Ref(fs, n, k) == 0 && Ref(fs', n, k) == x
  }

  /** From fs to fs', inode n gained blocks, in slots among ks, that were free; no other block was taken. */
  ghost predicate Gains(g: Super, fs: FS, fs': FS, n: nat, ks: set<nat>) {
    && Shape(g, fs) && Shape(g, fs')
    && (forall k: nat {:trigger Ref(fs', n, k)} :: k !in ks ==> Ref(fs', n, k) == Ref(fs, n, k))
    && (forall k: nat {:trigger Ref(fs', n, k)} :: Ref(fs, n, k) == 0 && Ref(fs', n, k) != 0 ==>
          Ref(fs', n, k) < g.size && !Used(g, fs, Ref(fs', n, k)) && Used(g, fs', Ref(fs', n, k)))
    && (forall x: nat {:trigger Used(g, fs', x)} :: x < g.size && Used(g, fs', x) && !Used(g, fs, x) ==> NewRef(fs, fs', n, x))
    && (forall x: nat {:trigger Used(g, fs', x)} :: x < g.size && Used(g, fs, x) ==> Used(g, fs', x))
  }

  lemma GainsGrow(g: Super, fs: FS, n: nat, k: nat, b: nat)
    requires Sound(g, fs) && n < |fs.nodes| && k < SLOTS && g.datastart <= b < g.size && !Used(g, fs, b)
    requires Ref(fs, n, k) == 0 && (NDIRECT < k ==> Ref(fs, n, NDIRECT) != 0)
    ensures Gains(g, fs, Grow(g, fs, n, k, b), n, {k})
  {
    hide Ref, Used, Grow, Owned;
    GrowKeeps(g, fs, n, k, b);
    assert Ref(Grow(g, fs, n, k, b), n, k) == b;
  }

  lemma GainsNone(g: Super, fs: FS, n: nat, ks: set<nat>)
    requires Sound(g, fs)
    ensures Gains(g, fs, fs, n, ks)
  {
    hide Ref, Used;
  }

  lemma GainsMore(g: Super, fs: FS, fs': FS, n: nat, ks: set<nat>, more: set<nat>)
    requires Gains(g, fs, fs', n, ks) && ks <= more
    ensures Gains(g, fs, fs', n, more)
  {
    hide Ref, Used, Shape;
  }

  lemma GainsThen(g: Super, fs: FS, fs1: FS, fs2: FS, n: nat, ks: set<nat>, more: set<nat>)
    requires Gains(g, fs, fs1, n, ks) && Gains(g, fs1, fs2, n, more) && Monotone(fs, fs1, n) && Monotone(fs1, fs2, n)
    ensures Gains(g, fs, fs2, n, ks + more)
  {
    hide Ref, Used, Shape;
    forall k: nat {:trigger Ref(fs2, n, k)} ensures Ref(fs, n, k) != 0 ==> Ref(fs1, n, k) != 0 {
    }
    forall x: nat {:trigger Used(g, fs2, x)} | x < g.size && Used(g, fs2, x) && !Used(g, fs, x) ensures NewRef(fs, fs2, n, x) {
      if Used(g, fs1, x) {
        var k: nat :| Ref(fs, n, k) == 0 && Ref(fs1, n, k) == x;
        assert Ref(fs2, n, k) == x;
      } else {
        var k: nat :| Ref(fs1, n, k) == 0 && Ref(fs2, n, k) == x;
        assert Ref(fs, n, k) == 0;
      }
    }
  }

  lemma GainsSame(g: Super, fs: FS, fs1: FS, fs2: FS, n: nat, ks: set<nat>)
    requires Gains(g, fs, fs1, n, ks) && Shape(g, fs2) && SameRefs(fs1, fs2) && SameUsed(g, fs1, fs2)
    ensures Gains(g, fs, fs2, n, ks)
  {
    hide Ref, Used, Shape;
    forall x: nat {:trigger Used(g, fs2, x)} | x < g.size && Used(g, fs2, x) && !Used(g, fs, x) ensures NewRef(fs, fs2, n, x) {
      assert Used(g, fs1, x);
      var k: nat :| Ref(fs, n, k) == 0 && Ref(fs1, n, k) == x;
      assert Ref(fs2, n, k) == x;
    }
  }

  lemma GainsOverwrite(g: Super, fs: FS, fs1: FS, n: nat, bn: nat, blk: Block)
    requires Gains(g, fs, fs1, n, SlotsOf(bn)) && Sound(g, fs1) && Ref(fs1, n, Slot(bn)) != 0 && |blk| == BSIZE
    ensures Ref(fs1, n, Slot(bn)) < |fs1.data| && Gains(g, fs, Overwrite(fs1, n, bn, blk), n, SlotsOf(bn))
  {
    hide Used, Gains, SameRefs, SameUsed;
    OverwriteKeeps(g, fs1, n, bn, blk);
    GainsSame(g, fs, fs1, Overwrite(fs1, n, bn, blk), n, SlotsOf(bn));
  }

  /** The slots that bmap of file block bn may fill. */
  function SlotsOf(bn: nat): (ks: set<nat>) {
    if bn < NDIRECT then {bn} else {NDIRECT, bn + 1}
  }

  /** The slots that a write may have filled which has visited file blocks lo up to hi and got stuck, if at all, at hi. */
  ghost function Visited(lo: nat, hi: nat): (ks: set<nat>) {
    (if NDIRECT <= hi then {NDIRECT} else {}) + set bn | lo <= bn < hi :: Slot(bn)
  }

  /** File block bn is logged, and if it is new its bitmap block and the indirect block that holds its number. */
  ghost predicate LogsBlock(g: Super, fs0: FS, fs: FS, n: nat, bn: nat, logged: set<nat>) {
    var r := Ref(fs, n, Slot(bn));
    && r in logged
    && (Ref(fs0, n, Slot(bn)) == 0 ==> g.BitmapBlock(r) in logged && (NDIRECT <= bn ==> Ref(fs, n, NDIRECT) in logged))
  }

  /** Every data block visited is logged in this way, and the bitmap block of a new indirect block. */
  ghost predicate LogsAll(g: Super, fs0: FS, fs: FS, n: nat, lo: nat, hi: nat, logged: set<nat>) {
    && (forall bn: nat :: lo <= bn < hi ==> LogsBlock(g, fs0, fs, n, bn, logged))
    && (Ref(fs0, n, NDIRECT) == 0 && Ref(fs, n, NDIRECT) != 0 ==> g.BitmapBlock(Ref(fs, n, NDIRECT)) in logged)
  }

  /** What a write that visited file blocks lo up to hi took and logged. */
  ghost predicate Exactly(g: Super, fs0: FS, fs: FS, n: nat, lo: nat, hi: nat, logged: set<nat>) {
    Gains(g, fs0, fs, n, Visited(lo, hi)) && LogsAll(g, fs0, fs, n, lo, hi, logged)
  }

  lemma ExactlyStart(g: Super, fs: FS, n: nat, lo: nat, logged: set<nat>)
    requires Sound(g, fs)
    ensures Exactly(g, fs, fs, n, lo, lo, logged)
  {
    hide Gains, Ref, Used;
    GainsNone(g, fs, n, Visited(lo, lo));
  }

  lemma LogsAllStep(g: Super, fs0: FS, fs: FS, fs': FS, n: nat, lo: nat, hi: nat, logged: set<nat>, logged': set<nat>)
    requires Exactly(g, fs0, fs, n, lo, hi, logged) && Monotone(fs0, fs, n) && Monotone(fs, fs', n) && Mapped(fs, n, lo, hi)
    requires Gains(g, fs, fs', n, SlotsOf(hi)) && lo <= hi
    requires logged' == logged + MapLog(g, fs, fs', n, hi) + {Ref(fs', n, Slot(hi))} && Ref(fs', n, Slot(hi)) != 0
    ensures LogsAll(g, fs0, fs', n, lo, hi + 1, logged')
  {
    hide Ref, Used;
    assert Slot(hi) !in Visited(lo, hi);
    assert Ref(fs, n, Slot(hi)) == Ref(fs0, n, Slot(hi));
    var ind := Ref(fs', n, NDIRECT);
    assert Ref(fs, n, NDIRECT) != 0 || hi < NDIRECT ==> ind == Ref(fs, n, NDIRECT);
    forall bn: nat | lo <= bn < hi + 1 ensures LogsBlock(g, fs0, fs', n, bn, logged') {
      if bn < hi {
        StillLogged(g, fs0, fs, fs', n, bn, logged, logged');
      }
    }
  }

  lemma StillLogged(g: Super, fs0: FS, fs: FS, fs': FS, n: nat, bn: nat, logged: set<nat>, logged': set<nat>)
    requires LogsBlock(g, fs0, fs, n, bn, logged) && Ref(fs, n, Slot(bn)) != 0 && Monotone(fs, fs', n) && logged <= logged'
    ensures LogsBlock(g, fs0, fs', n, bn, logged')
  {
    hide Ref;
    if Ref(fs, n, NDIRECT) == 0 && NDIRECT <= bn {
      NoIndirect(fs, n, bn);
    }
  }

  lemma ExactlyStep(g: Super, fs0: FS, fs: FS, fs': FS, n: nat, lo: nat, hi: nat, logged: set<nat>, logged': set<nat>)
    requires Exactly(g, fs0, fs, n, lo, hi, logged) && Monotone(fs0, fs, n) && Monotone(fs, fs', n) && Mapped(fs, n, lo, hi)
    requires Gains(g, fs, fs', n, SlotsOf(hi)) && lo <= hi
    requires logged' == logged + MapLog(g, fs, fs', n, hi) + {Ref(fs', n, Slot(hi))} && Ref(fs', n, Slot(hi)) != 0
    ensures Exactly(g, fs0, fs', n, lo, hi + 1, logged')
  {
    hide Gains, LogsAll, Ref, Used, MapLog, Monotone, Mapped;
    LogsAllStep(g, fs0, fs, fs', n, lo, hi, logged, logged');
    GainsThen(g, fs0, fs, fs', n, Visited(lo, hi), SlotsOf(hi));
    GainsMore(g, fs0, fs', n, Visited(lo, hi) + SlotsOf(hi), Visited(lo, hi + 1));
  }

  lemma ExactlyFailed(g: Super, fs0: FS, fs: FS, fs': FS, n: nat, lo: nat, hi: nat, logged: set<nat>, logged': set<nat>)
    requires Exactly(g, fs0, fs, n, lo, hi, logged) && Monotone(fs0, fs, n) && Monotone(fs, fs', n) && Mapped(fs, n, lo, hi)
    requires Gains(g, fs, fs', n, SlotsOf(hi)) && lo <= hi
    requires logged' == logged + MapLog(g, fs, fs', n, hi) && Ref(fs', n, Slot(hi)) == 0
    ensures Exactly(g, fs0, fs', n, lo, hi, logged')
  {
    hide Gains, LogsAll, Ref, Used, MapLog, Mapped;
    assert Ref(fs, n, Slot(hi)) == 0;
    assert Ref(fs0, n, Slot(hi)) == 0;
    GainsThen(g, fs0, fs, fs', n, Visited(lo, hi), SlotsOf(hi));
    GainsLess(g, fs0, fs', n, Visited(lo, hi) + SlotsOf(hi), Visited(lo, hi));
    LogsAllFailed(g, fs0, fs, fs', n, lo, hi, logged, logged');
  }

  lemma GainsLess(g: Super, fs: FS, fs': FS, n: nat, ks: set<nat>, fewer: set<nat>)
    requires Gains(g, fs, fs', n, ks) && forall k: nat {:trigger Ref(fs', n, k)} :: k in ks && k !in fewer ==> Ref(fs', n, k) == Ref(fs, n, k)
    ensures Gains(g, fs, fs', n, fewer)
  {
    hide Ref, Used, Shape;
  }

  lemma LogsAllFailed(g: Super, fs0: FS, fs: FS, fs': FS, n: nat, lo: nat, hi: nat, logged: set<nat>, logged': set<nat>)
    requires LogsAll(g, fs0, fs, n, lo, hi, logged) && Monotone(fs0, fs, n) && Monotone(fs, fs', n) && Mapped(fs, n, lo, hi)
    requires Gains(g, fs, fs', n, SlotsOf(hi)) && lo <= hi
    requires logged' == logged + MapLog(g, fs, fs', n, hi) && Ref(fs', n, Slot(hi)) == 0
    ensures LogsAll(g, fs0, fs', n, lo, hi, logged')
  {
    hide Ref, Used, LogsBlock;
    var ind := Ref(fs', n, NDIRECT);
    assert Ref(fs, n, NDIRECT) != 0 || hi < NDIRECT ==> ind == Ref(fs, n, NDIRECT);
    forall bn: nat | lo <= bn < hi ensures LogsBlock(g, fs0, fs', n, bn, logged') {
      StillLogged(g, fs0, fs, fs', n, bn, logged, logged');
    }
  }

  /** What a write of r out of len bytes at off0 took and logged: all of it if it stopped short only for want of a
      block for the next byte. */
  ghost predicate Accounted(g: Super, fs0: FS, fs: FS, n: nat, off0: nat, len: nat, r: nat, logged: set<nat>) {
    && g.InodeBlock(n) in logged
    && Monotone(fs0, fs, n) && Gains(g, fs0, fs, n, Needs(off0, Min(r + 1, len)))
    && exists hi: nat ::
         && (if r == 0 then hi == off0 / BSIZE else (hi - 1) * BSIZE < off0 + r <= hi * BSIZE)
         && Exactly(g, fs0, fs, n, off0 / BSIZE, hi, logged)
         && (r < len ==> Ref(fs, n, Slot(hi)) == 0)
  }

  lemma AccountedAfter(g: Super, fs0: FS, fs1: FS, fs: FS, n: nat, off0: nat, len: nat, r: nat, hi: nat, all: set<nat>, logged: set<nat>)
    requires Exactly(g, fs0, fs1, n, off0 / BSIZE, hi, all) && Sound(g, fs) && Shape(g, fs1) && SameRefs(fs1, fs) && SameUsed(g, fs1, fs)
    requires if r == 0 then hi == off0 / BSIZE else (hi - 1) * BSIZE < off0 + r <= hi * BSIZE
    requires logged == all + {g.InodeBlock(n)} && (r < len ==> Ref(fs1, n, Slot(hi)) == 0)
    requires r <= len && off0 + len <= MAXFILE * BSIZE && (r < len ==> r == 0 || (off0 + r) % BSIZE == 0)
    requires Monotone(fs0, fs1, n) && (r == len ==> NoIndirectYet(fs0, fs1, n, off0 / BSIZE, hi))
    ensures Accounted(g, fs0, fs, n, off0, len, r, logged)
  {
    hide Gains, Ref, Used, Slot, Needs, Visited;
    GainsSame(g, fs0, fs1, fs, n, Visited(off0 / BSIZE, hi));
    assert Monotone(fs0, fs, n);
    GainsNeeded(g, fs0, fs, n, off0, len, r, hi);
    forall bn: nat | off0 / BSIZE <= bn < hi ensures LogsBlock(g, fs0, fs, n, bn, logged) {
      assert LogsBlock(g, fs0, fs1, n, bn, all);
    }
    assert LogsAll(g, fs0, fs, n, off0 / BSIZE, hi, logged);
    assert Exactly(g, fs0, fs, n, off0 / BSIZE, hi, logged);
    assert Ref(fs, n, Slot(hi)) == Ref(fs1, n, Slot(hi));
  }

  // ---- whether there is room for a write ----

  ghost predicate Holds(o: nat, k: nat) {
    k in SlotsOf(o / BSIZE)
  }

  ghost predicate Needed(off: nat, len: nat, k: nat) {
    exists o: nat :: off <= o < off + len && Holds(o, k)
  }

  /** The slots by which bytes off up to off + len of a file are found: those of their blocks, and that of the indirect
      block if one of them lies behind it. */
  ghost function Needs(off: nat, len: nat): (ks: set<nat>) {
    set k: nat | k < SLOTS && Needed(off, len, k)
  }

  ghost function Empty(fs: FS, n: nat, ks: set<nat>): (s: set<nat>) {
    set k | k in ks && Ref(fs, n, k) == 0
  }

  /** The free blocks. */
  ghost function Spares(g: Super, fs: FS): (s: set<nat>)
    requires Shape(g, fs)
  {
    set b | 0 <= b < g.size && !Used(g, fs, b)
  }

  /** There is a free block for each empty slot that bytes off up to off + len need. */
  ghost predicate Fits(g: Super, fs: FS, n: nat, off: nat, len: nat) {
    Shape(g, fs) && |Empty(fs, n, Needs(off, len))| <= |Spares(g, fs)|
  }

  ghost predicate NoIndirectYet(fs0: FS, fs: FS, n: nat, lo: nat, hi: nat) {
    hi == lo || hi <= NDIRECT ==> Ref(fs, n, NDIRECT) == Ref(fs0, n, NDIRECT)
  }

  lemma StillNoIndirect(g: Super, fs0: FS, fs: FS, fs': FS, n: nat, lo: nat, hi: nat)
    requires NoIndirectYet(fs0, fs, n, lo, hi) && Gains(g, fs, fs', n, SlotsOf(hi)) && lo <= hi
    ensures NoIndirectYet(fs0, fs', n, lo, hi + 1)
  {
    hide Ref, Used;
  }

  lemma NeedsMore(off: nat, len: nat, at: nat, more: nat)
    requires off <= at && at + len <= off + more
    ensures Needs(at, len) <= Needs(off, more)
  {
  }

  /** A block visited, or got stuck at, holds a byte written or the next one. */
  lemma VisitedNeeded(off0: nat, len: nat, r: nat, hi: nat, bn: nat) returns (o: nat)
    requires r <= len && (if r == 0 then hi == off0 / BSIZE else (hi - 1) * BSIZE < off0 + r <= hi * BSIZE)
    requires r < len ==> r == 0 || (off0 + r) % BSIZE == 0
    requires off0 / BSIZE <= bn && (bn < hi || (bn == hi && r < len))
    ensures off0 <= o < off0 + Min(r + 1, len) && o / BSIZE == bn
  {
    o := if bn * BSIZE < off0 then off0 else bn * BSIZE;
  }

  lemma GainsNeeded(g: Super, fs0: FS, fs: FS, n: nat, off0: nat, len: nat, r: nat, hi: nat)
    requires Gains(g, fs0, fs, n, Visited(off0 / BSIZE, hi)) && r <= len && off0 + len <= MAXFILE * BSIZE
    requires if r == 0 then hi == off0 / BSIZE else (hi - 1) * BSIZE < off0 + r <= hi * BSIZE
    requires r < len ==> r == 0 || (off0 + r) % BSIZE == 0
    requires r == len ==> NoIndirectYet(fs0, fs, n, off0 / BSIZE, hi)
    ensures Gains(g, fs0, fs, n, Needs(off0, Min(r + 1, len)))
  {
    hide Gains, Ref;
    var lo, ks := off0 / BSIZE, Needs(off0, Min(r + 1, len));
    var all := Visited(lo, hi);
    forall k | k in all ensures k in ks || Ref(fs, n, k) == Ref(fs0, n, k) {
      if bn :| lo <= bn < hi && Slot(bn) == k {
        var o := VisitedNeeded(off0, len, r, hi, bn);
        assert Holds(o, k);
      } else if r < len || (lo < hi && NDIRECT < hi) {
        var bn := if r < len then hi else hi - 1;
        var o := VisitedNeeded(off0, len, r, hi, bn);
        assert Holds(o, k);
      }
    }
    GainsLess(g, fs0, fs, n, all, all * ks);
    GainsMore(g, fs0, fs, n, all * ks, ks);
  }

  lemma {:induction false} ImageSize(fs: FS, n: nat, ks: set<nat>)
    requires forall k, j :: k in ks && j in ks && Ref(fs, n, k) == Ref(fs, n, j) ==> k == j
    ensures |set k | k in ks :: Ref(fs, n, k)| == |ks|
    decreases |ks|
  {
    hide Ref;
    if ks != {} {
      var k :| k in ks;
      var rest := ks - {k};
      ImageSize(fs, n, rest);
      assert (set j | j in ks :: Ref(fs, n, j)) == (set j | j in rest :: Ref(fs, n, j)) + {Ref(fs, n, k)};
    }
  }

  /** Each slot filled costs one free block. */
  ghost predicate Level(g: Super, fs: FS, fs': FS, n: nat, ks: set<nat>) {
    && Shape(g, fs) && Shape(g, fs')
    && |Empty(fs, n, ks)| - |Spares(g, fs)| == |Empty(fs', n, ks)| - |Spares(g, fs')|
  }

  /** The blocks that stopped being free are those of the slots that stopped being empty. */
  lemma FilledBlocks(g: Super, fs: FS, fs': FS, n: nat, ks: set<nat>, filled: set<nat>)
    requires Gains(g, fs, fs', n, ks) && Monotone(fs, fs', n) && filled == Empty(fs, n, ks) - Empty(fs', n, ks)
    ensures Spares(g, fs) - Spares(g, fs') == set k | k in filled :: Ref(fs', n, k)
  {
    hide Ref, Used, Shape;
    var s, s', blocks := Spares(g, fs), Spares(g, fs'), set k | k in filled :: Ref(fs', n, k);
    forall x | x in s - s' ensures x in blocks {
      assert Used(g, fs', x) && NewRef(fs, fs', n, x);
      var k: nat :| Ref(fs, n, k) == 0 && Ref(fs', n, k) == x && x != 0;
      assert k in filled;
    }
    forall k | k in filled ensures Ref(fs', n, k) in s - s' {
      assert Ref(fs, n, k) == 0 && Ref(fs', n, k) != 0;
    }
  }

  lemma OncePerSlot(g: Super, fs: FS, n: nat, ks: set<nat>)
    requires Sound(g, fs) && forall k :: k in ks ==> Ref(fs, n, k) != 0
    ensures forall k, j :: k in ks && j in ks && Ref(fs, n, k) == Ref(fs, n, j) ==> k == j
  {
    hide Ref, Used, Shape;
  }

  lemma StillUsed(g: Super, fs: FS, fs': FS, n: nat, ks: set<nat>)
    requires Gains(g, fs, fs', n, ks) && Monotone(fs, fs', n)
    ensures Spares(g, fs') <= Spares(g, fs) && Empty(fs', n, ks) <= Empty(fs, n, ks)
  {
    hide Ref, Used, Shape;
  }

  lemma FilledLevel(g: Super, fs: FS, fs': FS, n: nat, ks: set<nat>)
    requires Gains(g, fs, fs', n, ks) && Monotone(fs, fs', n) && Sound(g, fs')
    ensures Level(g, fs, fs', n, ks)
  {
    hide Ref, Spares, Sound, Monotone, Shape, Used;
    var e, e' := Empty(fs, n, ks), Empty(fs', n, ks);
    var s, s' := Spares(g, fs), Spares(g, fs');
    StillUsed(g, fs, fs', n, ks);
    FilledBlocks(g, fs, fs', n, ks, e - e');
    OncePerSlot(g, fs', n, e - e');
    ImageSize(fs', n, e - e');
    assert e == e' + (e - e') && s == s' + (s - s');
  }

  lemma FullNoSpares(g: Super, fs: FS)
    requires Full(g, fs)
    ensures Spares(g, fs) == {}
  {
    hide Used;
  }

  /** No slot is empty that a byte below the size needs. */
  lemma NoneEmpty(g: Super, fs: FS, n: nat, off: nat, len: nat)
    requires Inv(g, fs) && n < |fs.nodes| && off + len <= fs.nodes[n].size
    ensures Empty(fs, n, Needs(off, len)) == {}
  {
    hide Ref, Owned;
    forall k | k in Needs(off, len) ensures Ref(fs, n, k) != 0 {
      var o: nat :| off <= o < off + len && Holds(o, k);
      NoHoleAt(g, fs, n, o);
      if k == NDIRECT && Ref(fs, n, k) == 0 {
        NoIndirect(fs, n, o / BSIZE);
      }
    }
  }

  lemma StuckEmpty(fs: FS, n: nat, off: nat, len: nat, o: nat)
    requires off <= o < off + len && o < MAXFILE * BSIZE && Ref(fs, n, Slot(o / BSIZE)) == 0
    ensures |Empty(fs, n, Needs(off, len))| > 0
  {
    hide Ref;
    assert Holds(o, Slot(o / BSIZE));
    assert Slot(o / BSIZE) in Empty(fs, n, Needs(off, len));
  }

  /** A write that stopped short did so before a byte with no block. */
  lemma StuckAt(g: Super, fs0: FS, fs: FS, n: nat, off0: nat, len: nat, r: nat, logged: set<nat>)
    requires Accounted(g, fs0, fs, n, off0, len, r, logged) && r < len && (r == 0 || (off0 + r) % BSIZE == 0)
    ensures Ref(fs, n, Slot((off0 + r) / BSIZE)) == 0
  {
    hide Ref, Gains, Exactly, Slot, Monotone;
    var hi: nat :|
      && (if r == 0 then hi == off0 / BSIZE else (hi - 1) * BSIZE < off0 + r <= hi * BSIZE)
      && Ref(fs, n, Slot(hi)) == 0;
    assert hi == (off0 + r) / BSIZE;
  }

  /** Within any range that the write at `at` lies in, free blocks and empty slots go down together. */
  lemma WriteLevel(g: Super, fs: FS, fs': FS, n: nat, at: nat, len: nat, r: nat, logged: set<nat>, off: nat, more: nat)
    requires Accounted(g, fs, fs', n, at, len, r, logged) && Sound(g, fs') && off <= at && at + len <= off + more
    ensures Level(g, fs, fs', n, Needs(off, more))
  {
    hide Ref, Gains, Exactly, Slot, Monotone, Sound, Needs, Level;
    NeedsMore(off, Min(r + 1, len), at, more);
    GainsMore(g, fs, fs', n, Needs(at, Min(r + 1, len)), Needs(off, more));
    FilledLevel(g, fs, fs', n, Needs(off, more));
  }

  lemma AllWritten(g: Super, fs: FS, fs': FS, n: nat, off: nat, len: nat)
    requires Level(g, fs, fs', n, Needs(off, len)) && Inv(g, fs') && n < |fs'.nodes| && off + len <= fs'.nodes[n].size
    ensures Fits(g, fs, n, off, len)
  {
    hide Ref, Inv, Needs;
    NoneEmpty(g, fs', n, off, len);
  }

  lemma NotAllWritten(g: Super, fs: FS, fs': FS, n: nat, off: nat, len: nat, o: nat)
    requires Level(g, fs, fs', n, Needs(off, len)) && Full(g, fs') && Ref(fs', n, Slot(o / BSIZE)) == 0
    requires off <= o < off + len <= MAXFILE * BSIZE
    ensures !Fits(g, fs, n, off, len)
  {
    hide Ref, Needs, Used;
    FullNoSpares(g, fs');
    StuckEmpty(fs', n, off, len, o);
  }

  /** All is written exactly if there was room for it. */
  lemma WrittenIff(g: Super, fs: FS, fs': FS, n: nat, off: nat, len: nat, r: nat, logged: set<nat>)
    requires Accounted(g, fs, fs', n, off, len, r, logged) && Inv(g, fs') && n < |fs'.nodes| && off + r <= fs'.nodes[n].size
    requires r <= len && off + len <= MAXFILE * BSIZE && (r < len ==> Full(g, fs') && (r == 0 || (off + r) % BSIZE == 0))
    ensures r == len <==> Fits(g, fs, n, off, len)
  {
    hide Accounted, Ref, NoHoles, Owned, Full, Fits, Level, Needs, Slot;
    WriteLevel(g, fs, fs', n, off, len, r, logged, off, len);
    if r == len {
      AllWritten(g, fs, fs', n, off, len);
    } else {
      StuckAt(g, fs, fs', n, off, len, r, logged);
      NotAllWritten(g, fs, fs', n, off, len, off + r);
    }
  }

  lemma InBounds(g: Super, fs: FS, n: nat, k: nat)
    requires Sound(g, fs) && Ref(fs, n, k) != 0
    ensures g.datastart <= Ref(fs, n, k) < |fs.data| && |fs.data[Ref(fs, n, k)]| == BSIZE
  {
  }

  /** Where byte o lies relative to a piece within one block. */
  lemma WithinBlock(fs: FS, n: nat, off: nat, piece: seq<Byte>, o: nat)
    requires off % BSIZE + |piece| <= BSIZE
    requires var b := Ref(fs, n, Slot(off / BSIZE)); 0 < b < |fs.data| && |fs.data[b]| == BSIZE
    ensures off <= o < off + |piece| <==> o / BSIZE == off / BSIZE && off % BSIZE <= o % BSIZE < off % BSIZE + |piece|
    ensures o / BSIZE == off / BSIZE ==>
              var old_ := fs.data[Ref(fs, n, Slot(off / BSIZE))];
              var blk := old_[..off % BSIZE] + piece + old_[off % BSIZE + |piece|..];
              blk[o % BSIZE] == if off <= o < off + |piece| then piece[o - off] else ByteAt(fs, n, o)
  {
  }

  // ---- writei ----

  const MAXOPBLOCKS: nat := 10

  /** The old contents with `d` written over them at `off`. */
  ghost function Spliced(old_: seq<Byte>, off: nat, d: seq<Byte>): (r: seq<Byte>)
    requires off <= |old_|
  {
    old_[..off] + d + (if off + |d| < |old_| then old_[off + |d|..] else [])
  }

  ghost predicate BytesWritten(fs: FS, fs': FS, n: nat, off: nat, d: seq<Byte>) {
    forall i: nat, o: nat {:trigger ByteAt(fs', i, o)} ::
      ByteAt(fs', i, o) == if i == n && off <= o < off + |d| then d[o - off] else ByteAt(fs, i, o)
  }

  lemma BytesWrittenMore(fs: FS, fs1: FS, fs2: FS, n: nat, off: nat, d: seq<Byte>, e: seq<Byte>)
    requires BytesWritten(fs, fs1, n, off, d) && BytesWritten(fs1, fs2, n, off + |d|, e)
    ensures BytesWritten(fs, fs2, n, off, d + e)
  {
    hide ByteAt;
    forall i: nat, o: nat {:trigger ByteAt(fs2, i, o)}
      ensures ByteAt(fs2, i, o) == if i == n && off <= o < off + |d + e| then (d + e)[o - off] else ByteAt(fs, i, o)
    {
      assert ByteAt(fs1, i, o) == if i == n && off <= o < off + |d| then d[o - off] else ByteAt(fs, i, o);
    }
  }

  lemma BytesWrittenContents(fs: FS, fs': FS, n: nat, off: nat, d: seq<Byte>, i: nat)
    requires BytesWritten(fs, fs', n, off, d) && i < |fs.nodes| == |fs'.nodes|
    requires if i == n then off <= fs.nodes[n].size && fs'.nodes[n].size == Max(fs.nodes[n].size, off + |d|)
             else fs'.nodes[i].size == fs.nodes[i].size
    ensures Contents(fs', i) == if i == n then Spliced(Contents(fs, n), off, d) else Contents(fs, i)
  {
    hide ByteAt;
    var c := Contents(fs, i);
    forall o | 0 <= o < fs'.nodes[i].size
      ensures Contents(fs', i)[o] == if i == n && off <= o < off + |d| then d[o - off] else c[o]
    {
      assert Contents(fs', i)[o] == ByteAt(fs', i, o);
      assert o < fs.nodes[i].size ==> c[o] == ByteAt(fs, i, o);
    }
  }

  function Max(x: nat, y: nat): (m: nat) {
    if x < y then y else x
  }

  function Min(x: nat, y: nat): (m: nat) {
    if x < y then x else y
  }

  /** ip->size = size: allowed once every block below it is mapped. */
  lemma ResizeKeeps(g: Super, fs: FS, n: nat, size: nat)
    requires Inv(g, fs) && n < |fs.nodes| && size <= MAXFILE * BSIZE
    requires forall bn: nat {:trigger Ref(fs, n, Slot(bn))} :: bn * BSIZE < size ==> Ref(fs, n, Slot(bn)) != 0
    ensures var fs' := FS(fs.data, fs.nodes[n := fs.nodes[n].(size := size)]);
            && Inv(g, fs') && (NoLeaks(g, fs) ==> NoLeaks(g, fs')) && SameRefs(fs, fs') && SameUsed(g, fs, fs')
            && BytesWritten(fs, fs', n, size, []) && (Full(g, fs) ==> Full(g, fs'))
  {
    hide Word, Bit;
    var fs' := FS(fs.data, fs.nodes[n := fs.nodes[n].(size := size)]);
    assert SameRefs(fs, fs') && SameUsed(g, fs, fs');
    if NoLeaks(g, fs) {
      forall x: nat {:trigger Used(g, fs', x)} | g.datastart <= x < g.size && Used(g, fs', x) ensures Held(fs', x) {
        assert Used(g, fs, x);
        var i, k :| Ref(fs, i, k) == x;
        assert Ref(fs', i, k) == x;
      }
    }
  }

  /** Blocks that files gain leave no holes. */
  lemma StillNoHoles(fs: FS, fs': FS, n: nat)
    requires NoHoles(fs) && SameMeta(fs, fs') && Monotone(fs, fs', n)
    ensures NoHoles(fs')
  {
    hide Ref, Slot;
    forall i: nat, bn: nat {:trigger Ref(fs', i, Slot(bn))} | i < |fs'.nodes| && bn * BSIZE < fs'.nodes[i].size
      ensures Ref(fs', i, Slot(bn)) != 0
    {
      assert fs'.nodes[i].(addrs := []) == fs.nodes[i].(addrs := []);
      assert Ref(fs, i, Slot(bn)) != 0;
    }
  }

  /** A piece of a write ends at a block boundary or ends the write. */
  lemma PieceFits(off: nat, left: nat)
    requires 0 < left
    ensures var m := Min(left, BSIZE - off % BSIZE);
            && 0 < m <= left && off % BSIZE + m <= BSIZE
            && off / BSIZE * BSIZE < off + m <= (off / BSIZE + 1) * BSIZE
            && (m < left ==> (off + m) / BSIZE == off / BSIZE + 1 && (off + m) % BSIZE == 0)
  {
  }

  lemma MetaCount(fs: FS, fs': FS)
    requires SameMeta(fs, fs')
    ensures |fs'.nodes| == |fs.nodes|
  {
  }

  /** Everything a write of file blocks lo up to hi can have logged, given the inode's slots before and after:
      the data blocks, the bitmap blocks of the new ones, and the indirect block with its bitmap block. */
  ghost predicate InLogBound(g: Super, fs: FS, fs': FS, n: nat, lo: nat, hi: nat, x: nat) {
    || (exists bn: nat {:trigger Ref(fs', n, Slot(bn))} :: lo <= bn < hi && x == Ref(fs', n, Slot(bn)))
    || (exists bn: nat {:trigger Ref(fs', n, Slot(bn))} ::
          lo <= bn < hi && Ref(fs, n, Slot(bn)) == 0 && x == g.BitmapBlock(Ref(fs', n, Slot(bn))))
    || (Ref(fs', n, NDIRECT) != 0 &&
        (x == Ref(fs', n, NDIRECT) || (Ref(fs, n, NDIRECT) == 0 && x == g.BitmapBlock(Ref(fs', n, NDIRECT)))))
  }

  ghost predicate Mapped(fs: FS, n: nat, lo: nat, hi: nat) {
    forall bn: nat {:trigger Ref(fs, n, Slot(bn))} :: lo <= bn < hi ==> Ref(fs, n, Slot(bn)) != 0
  }

  ghost predicate Monotone(fs: FS, fs': FS, n: nat) {
    forall i, k {:trigger Ref(fs', i, k)} :: Ref(fs, i, k) != 0 || i != n ==> Ref(fs', i, k) == Ref(fs, i, k)
  }

  /** The bound grows by one block per turn of the loop. */
  lemma LogBoundStep(g: Super, fs0: FS, fs: FS, fs': FS, n: nat, lo: nat, hi: nat, x: nat)
    requires Monotone(fs0, fs, n) && Monotone(fs, fs', n) && lo <= hi && Mapped(fs, n, lo, hi)
    requires InLogBound(g, fs0, fs, n, lo, hi, x) || x in MapLog(g, fs, fs', n, hi) || x == Ref(fs', n, Slot(hi))
    requires Ref(fs', n, Slot(hi)) != 0
    ensures InLogBound(g, fs0, fs', n, lo, hi + 1, x)
  {
    hide Ref, Slot;
    assert Ref(fs0, n, Slot(hi)) != 0 ==> Ref(fs, n, Slot(hi)) != 0;
    assert Ref(fs0, n, NDIRECT) != 0 ==> Ref(fs, n, NDIRECT) != 0;
    if InLogBound(g, fs0, fs, n, lo, hi, x) {
      if bn: nat :| lo <= bn < hi && x == Ref(fs, n, Slot(bn)) {
        assert Ref(fs', n, Slot(bn)) == x;
      } else if bn: nat :| lo <= bn < hi && Ref(fs0, n, Slot(bn)) == 0 && x == g.BitmapBlock(Ref(fs, n, Slot(bn))) {
        assert Ref(fs', n, Slot(bn)) == Ref(fs, n, Slot(bn));
      } else {
        assert Ref(fs', n, NDIRECT) == Ref(fs, n, NDIRECT);
      }
    } else if NDIRECT <= hi && Ref(fs', n, NDIRECT) == 0 {
      NoIndirect(fs', n, hi);
    } else {
      assert lo <= hi < hi + 1;
    }
  }

  lemma LogBoundFailed(g: Super, fs0: FS, fs: FS, fs': FS, n: nat, lo: nat, hi: nat, bn: nat, x: nat)
    requires Monotone(fs0, fs, n) && Monotone(fs, fs', n) && lo <= hi && Mapped(fs, n, lo, hi)
    requires InLogBound(g, fs0, fs, n, lo, hi, x) || x in MapLog(g, fs, fs', n, bn)
    requires Ref(fs', n, Slot(bn)) == 0
    ensures InLogBound(g, fs0, fs', n, lo, hi, x)
  {
    hide Ref, Slot;
    assert Ref(fs0, n, NDIRECT) != 0 ==> Ref(fs, n, NDIRECT) != 0;
    if InLogBound(g, fs0, fs, n, lo, hi, x) {
      if bn: nat :| lo <= bn < hi && x == Ref(fs, n, Slot(bn)) {
        assert Ref(fs', n, Slot(bn)) == x;
      } else if bn: nat :| lo <= bn < hi && Ref(fs0, n, Slot(bn)) == 0 && x == g.BitmapBlock(Ref(fs, n, Slot(bn))) {
        assert Ref(fs', n, Slot(bn)) == Ref(fs, n, Slot(bn));
      } else {
        assert Ref(fs', n, NDIRECT) == Ref(fs, n, NDIRECT);
      }
    }
  }

  /** Four data blocks, or three and a first one that was mapped already: with the indirect block, the bitmap
      blocks and the inode's block, ten blocks at most. */
  lemma LogBoundSize(g: Super, fs: FS, fs': FS, n: nat, lo: nat, hi: nat, ib: nat, s: set<nat>)
    requires forall x :: x in s ==> x == ib || InLogBound(g, fs, fs', n, lo, hi, x)
    requires hi <= lo + 4 && (hi == lo + 4 ==> Ref(fs, n, Slot(lo)) != 0)
    ensures |s| <= MAXOPBLOCKS
  {
    hide Slot, Ref;
    var d0, d1 := Ref(fs', n, Slot(lo)), Ref(fs', n, Slot(lo + 1));
    var d2, d3 := Ref(fs', n, Slot(lo + 2)), Ref(fs', n, Slot(lo + 3));
    var ind := Ref(fs', n, NDIRECT);
    var last := if hi == lo + 4 then d3 else d0;
    var t := {ib, ind, d0, d1, d2, d3} + {g.BitmapBlock(ind), g.BitmapBlock(d1), g.BitmapBlock(d2), g.BitmapBlock(last)};
    forall x | x in s ensures x in t {
      if x != ib {
        if bn: nat :| lo <= bn < hi && x == Ref(fs', n, Slot(bn)) {
          assert bn == lo || bn == lo + 1 || bn == lo + 2 || bn == lo + 3;
        } else if bn: nat :| lo <= bn < hi && Ref(fs, n, Slot(bn)) == 0 && x == g.BitmapBlock(Ref(fs', n, Slot(bn))) {
          assert bn == lo || bn == lo + 1 || bn == lo + 2 || bn == lo + 3;
        }
      }
    }
    SubsetSize(s, t);
  }

  /** Part of the way through a write at off0: `d` is written, and file blocks lo up to hi have been visited. */
  ghost predicate Writing(g: Super, fs0: FS, fs: FS, n: nat, off0: nat, d: seq<Byte>, hi: nat, more: set<nat>) {
    && Sound(g, fs) && (NoLeaks(g, fs0) ==> NoLeaks(g, fs)) && SameMeta(fs0, fs)
    && Monotone(fs0, fs, n) && BytesWritten(fs0, fs, n, off0, d)
    && off0 / BSIZE <= hi && Mapped(fs, n, off0 / BSIZE, hi)
    && forall x :: x in more ==> InLogBound(g, fs0, fs, n, off0 / BSIZE, hi, x)
  }

  lemma WriteStart(g: Super, fs: FS, n: nat, off0: nat)
    requires Sound(g, fs)
    ensures Writing(g, fs, fs, n, off0, [], off0 / BSIZE, {})
  {
  }

  lemma WritingHas(g: Super, fs0: FS, fs: FS, n: nat, off0: nat, d: seq<Byte>, hi: nat, more: set<nat>)
    requires Writing(g, fs0, fs, n, off0, d, hi, more)
    ensures Monotone(fs0, fs, n) && Mapped(fs, n, off0 / BSIZE, hi) && off0 / BSIZE <= hi
  {
  }

  lemma WriteStep(g: Super, fs0: FS, fs: FS, fs': FS, n: nat, off0: nat, d: seq<Byte>, e: seq<Byte>, hi: nat,
                  more: set<nat>, more': set<nat>)
    requires Writing(g, fs0, fs, n, off0, d, hi, more)
    requires Sound(g, fs') && (NoLeaks(g, fs) ==> NoLeaks(g, fs')) && SameMeta(fs, fs') && Monotone(fs, fs', n)
    requires BytesWritten(fs, fs', n, off0 + |d|, e) && Ref(fs', n, Slot(hi)) != 0
    requires more' <= more + MapLog(g, fs, fs', n, hi) + {Ref(fs', n, Slot(hi))}
    ensures Writing(g, fs0, fs', n, off0, d + e, hi + 1, more')
  {
    hide Sound, NoLeaks, BytesWritten, InLogBound, MapLog, Ref, Slot;
    BytesWrittenMore(fs0, fs, fs', n, off0, d, e);
    forall x | x in more' ensures InLogBound(g, fs0, fs', n, off0 / BSIZE, hi + 1, x) {
      LogBoundStep(g, fs0, fs, fs', n, off0 / BSIZE, hi, x);
    }
    assert forall i, k :: Ref(fs0, i, k) != 0 || i != n ==> Ref(fs, i, k) == Ref(fs0, i, k);
  }

  lemma WriteFailed(g: Super, fs0: FS, fs: FS, fs': FS, n: nat, off0: nat, d: seq<Byte>, hi: nat,
                    more: set<nat>, more': set<nat>)
    requires Writing(g, fs0, fs, n, off0, d, hi, more)
    requires Sound(g, fs') && (NoLeaks(g, fs) ==> NoLeaks(g, fs')) && SameMeta(fs, fs') && Monotone(fs, fs', n)
    requires BytesWritten(fs, fs', n, off0 + |d|, []) && Ref(fs', n, Slot(hi)) == 0
    requires more' <= more + MapLog(g, fs, fs', n, hi)
    ensures Writing(g, fs0, fs', n, off0, d, hi, more')
  {
    hide Sound, NoLeaks, BytesWritten, InLogBound, MapLog, Ref, Slot;
    BytesWrittenMore(fs0, fs, fs', n, off0, d, []);
    assert d + [] == d;
    forall x | x in more' ensures InLogBound(g, fs0, fs', n, off0 / BSIZE, hi, x) {
      LogBoundFailed(g, fs0, fs, fs', n, off0 / BSIZE, hi, hi, x);
    }
    assert forall i, k :: Ref(fs0, i, k) != 0 || i != n ==> Ref(fs, i, k) == Ref(fs0, i, k);
  }

  /** After the loop every block below the new size is mapped. */
  lemma WriteMapped(g: Super, fs0: FS, fs: FS, n: nat, off0: nat, d: seq<Byte>, hi: nat, more: set<nat>, bn: nat)
    requires Inv(g, fs0) && Writing(g, fs0, fs, n, off0, d, hi, more) && n < |fs0.nodes| && off0 <= fs0.nodes[n].size
    requires d == [] || off0 + |d| <= hi * BSIZE
    requires bn * BSIZE < Max(fs0.nodes[n].size, off0 + |d|)
    ensures Ref(fs, n, Slot(bn)) != 0
  {
    hide Owned, NoLeaks, BytesWritten, InLogBound, Ref, Slot;
    if bn * BSIZE < fs0.nodes[n].size {
      assert Ref(fs0, n, Slot(bn)) != 0;
    } else {
      assert off0 / BSIZE <= bn < hi;
    }
  }

  lemma WriteSize(g: Super, fs0: FS, fs: FS, n: nat, off0: nat, d: seq<Byte>, hi: nat, more: set<nat>, ib: nat)
    requires Inv(g, fs0) && Writing(g, fs0, fs, n, off0, d, hi, more) && n < |fs0.nodes| && off0 <= fs0.nodes[n].size
    requires |d| <= 3 * BSIZE && (hi == off0 / BSIZE || (hi - 1) * BSIZE < off0 + |d|)
    ensures |more + {ib}| <= MAXOPBLOCKS
  {
    hide Owned, NoLeaks, BytesWritten, InLogBound, Ref, Slot;
    var lo := off0 / BSIZE;
    if hi == lo + 4 {
      assert lo * BSIZE < fs0.nodes[n].size;
      assert Ref(fs0, n, Slot(lo)) != 0;
    }
    LogBoundSize(g, fs0, fs, n, lo, hi, ib, more + {ib});
  }

  lemma NoHoleAt(g: Super, fs: FS, n: nat, off: nat)
    requires Inv(g, fs) && n < |fs.nodes| && off < fs.nodes[n].size
    ensures off / BSIZE < MAXFILE && Ref(fs, n, Slot(off / BSIZE)) != 0
  {
    assert off / BSIZE * BSIZE <= off;
  }

  lemma PieceRead(fs: FS, n: nat, off: nat, m: nat)
    requires n < |fs.nodes| && off + m <= fs.nodes[n].size && off % BSIZE + m <= BSIZE
    requires var b := Ref(fs, n, Slot(off / BSIZE)); 0 < b < |fs.data| && |fs.data[b]| == BSIZE
    ensures fs.data[Ref(fs, n, Slot(off / BSIZE))][off % BSIZE..off % BSIZE + m] == Contents(fs, n)[off..off + m]
  {
    hide Ref, Slot;
    var blk := fs.data[Ref(fs, n, Slot(off / BSIZE))];
    var at := off % BSIZE;
    forall j | at <= j < at + m ensures blk[j] == Contents(fs, n)[off - at + j] {
      assert (off - at + j) / BSIZE == off / BSIZE && (off - at + j) % BSIZE == j;
      assert Contents(fs, n)[off - at + j] == ByteAt(fs, n, off - at + j);
    }
  }

  lemma SliceMore(c: seq<Byte>, lo: nat, hi: nat, m: nat)
    requires lo <= hi && hi + m <= |c|
    ensures c[lo..hi] + c[hi..hi + m] == c[lo..hi + m]
  {
  }

  // ---- itrunc ----

  ghost predicate HeldBy(fs: FS, n: nat, slots: set<nat>, x: nat) {
    x != 0 && exists k :: k in slots && Ref(fs, n, k) == x
  }

  /** Part of the way through truncating inode n of fs0: the blocks of `slots` are free again. */
  ghost predicate Dropped(g: Super, fs0: FS, fs: FS, n: nat, slots: set<nat>)
    requires Shape(g, fs0)
    ensures Dropped(g, fs0, fs, n, slots) ==> Shape(g, fs) && n < |fs0.nodes| == |fs.nodes|
  {
    && Shape(g, fs) && n < |fs0.nodes| && SameData(g, fs0, fs, g.size)
    && (forall i :: 0 <= i < |fs0.nodes| ==>
          if i == n then fs.nodes[n].(addrs := []) == fs0.nodes[n].(addrs := []) else fs.nodes[i] == fs0.nodes[i])
    && (forall k :: 0 <= k <= NDIRECT ==> fs.nodes[n].addrs[k] == if k in slots then 0 else fs0.nodes[n].addrs[k])
    && (forall x: nat {:trigger Used(g, fs, x)} :: x < g.size ==>
          (Used(g, fs, x) <==> Used(g, fs0, x) && !HeldBy(fs0, n, slots, x)))
  }

  lemma DropUsed(g: Super, fs0: FS, fs: FS, n: nat, slots: set<nat>, k: nat)
    requires Shape(g, fs0) && Owned(g, fs0) && Dropped(g, fs0, fs, n, slots) && k !in slots && Ref(fs0, n, k) != 0
    ensures g.datastart <= Ref(fs0, n, k) < g.size && Used(g, fs, Ref(fs0, n, k))
  {
    hide Ref, Used;
    assert !HeldBy(fs0, n, slots, Ref(fs0, n, k));
  }

  ghost function Range(lo: nat, hi: nat): (s: set<nat>)
    ensures forall k :: k in s <==> lo <= k < hi
    decreases hi - lo
  {
    if lo >= hi then {} else {lo} + Range(lo + 1, hi)
  }

  lemma DropStart(g: Super, fs: FS, n: nat)
    requires Shape(g, fs) && n < |fs.nodes|
    ensures Dropped(g, fs, fs, n, {})
  {
  }

  /** What itrunc finds in the inode and in the indirect block is still what fs0 had there. */
  lemma DropAddr(g: Super, fs0: FS, fs: FS, n: nat, slots: set<nat>, k: nat)
    requires Shape(g, fs0) && Dropped(g, fs0, fs, n, slots) && k <= NDIRECT && k !in slots
    ensures n < |fs.nodes| && |fs.nodes[n].addrs| == NDIRECT + 1 && fs.nodes[n].addrs[k] == Ref(fs0, n, k)
  {
  }

  lemma DropEntry(g: Super, fs0: FS, fs: FS, n: nat, slots: set<nat>, j: nat)
    requires Inv(g, fs0) && Dropped(g, fs0, fs, n, slots) && j < NINDIRECT && Ref(fs0, n, NDIRECT) != 0
    ensures Ref(fs0, n, NDIRECT) < |fs.data| && |fs.data[Ref(fs0, n, NDIRECT)]| == BSIZE
    ensures Word(fs.data[Ref(fs0, n, NDIRECT)], j) == Ref(fs0, n, NDIRECT + 1 + j)
  {
    hide Word, Used, NoHoles;
  }

  /** Empty slots need no freeing. */
  lemma DropNothing(g: Super, fs0: FS, fs: FS, n: nat, slots: set<nat>, more: set<nat>)
    requires Shape(g, fs0) && Dropped(g, fs0, fs, n, slots) && forall k :: k in more ==> Ref(fs0, n, k) == 0
    ensures Dropped(g, fs0, fs, n, slots + more)
  {
    hide Used;
    forall x: nat | x < g.size ensures HeldBy(fs0, n, slots + more, x) <==> HeldBy(fs0, n, slots, x) {
    }
  }

  lemma DropOne(g: Super, fs0: FS, fs: FS, n: nat, slots: set<nat>, k: nat)
    requires Shape(g, fs0) && Owned(g, fs0) && Dropped(g, fs0, fs, n, slots) && k !in slots && Ref(fs0, n, k) != 0
    ensures var b := Ref(fs0, n, k);
            && b < g.size
            && var fs1 := Free(g, fs, b);
            && Shape(g, fs1)
            && Dropped(g, fs0, if k <= NDIRECT then Point(fs1, n, k, 0) else fs1, n, slots + {k})
  {
    hide Bit, WithBit, Word;
    var b := Ref(fs0, n, k);
    var fs1 := Free(g, fs, b);
    var fs' := if k <= NDIRECT then Point(fs1, n, k, 0) else fs1;
    assert Shape(g, fs1) && Shape(g, fs');
    forall x: nat {:trigger Used(g, fs', x)} | x < g.size
      ensures Used(g, fs', x) <==> Used(g, fs0, x) && !HeldBy(fs0, n, slots + {k}, x)
    {
      UsedAfter(g, fs, fs', b, false, x);
      assert HeldBy(fs0, n, slots + {k}, x) <==> HeldBy(fs0, n, slots, x) || x == b;
    }
  }

  /** All slots dropped and the size set to 0. */
  ghost function Emptied(fs: FS, n: nat): (r: FS)
    requires n < |fs.nodes|
  {
    FS(fs.data, fs.nodes[n := fs.nodes[n].(size := 0)])
  }

  ghost predicate AllSlots(slots: set<nat>) {
    forall k :: 0 <= k < SLOTS ==> k in slots
  }

  /** The indirect blocks of the other inodes were not touched, so neither were their slots. */
  lemma EmptiedRef(g: Super, fs0: FS, fs: FS, n: nat, slots: set<nat>, i: nat, k: nat)
    requires Inv(g, fs0) && Dropped(g, fs0, fs, n, slots) && AllSlots(slots)
    ensures Ref(Emptied(fs, n), i, k) == if i == n then 0 else Ref(fs0, i, k)
  {
    hide Used, Word, NoHoles;
    if i < |fs0.nodes| {
      assert Ref(fs0, i, NDIRECT) != 0 ==> g.datastart <= Ref(fs0, i, NDIRECT) < g.size;
    }
  }

  /** What itrunc leaves behind: exactly the file's blocks are free, every other file is untouched. */
  ghost predicate Truncated(g: Super, fs0: FS, fs: FS, n: nat) {
    && Inv(g, fs0) && Inv(g, fs) && (NoLeaks(g, fs0) ==> NoLeaks(g, fs))
    && n < |fs0.nodes| == |fs.nodes| && Contents(fs, n) == []
    && (forall k {:trigger Ref(fs, n, k)} :: Ref(fs, n, k) == 0)
    && (forall i :: 0 <= i < |fs0.nodes| && i != n ==> fs.nodes[i] == fs0.nodes[i] && Contents(fs, i) == Contents(fs0, i))
    && (forall x: nat {:trigger Used(g, fs, x)} :: x < g.size ==>
          (Used(g, fs, x) <==> Used(g, fs0, x) && !(x != 0 && exists k :: Ref(fs0, n, k) == x)))
  }

  lemma EmptiedOwned(g: Super, fs0: FS, fs: FS, n: nat, slots: set<nat>)
    requires Inv(g, fs0) && Dropped(g, fs0, fs, n, slots) && AllSlots(slots)
    ensures var fs' := Emptied(fs, n);
            && Inv(g, fs')
            && (forall x: nat {:trigger Used(g, fs', x)} :: x < g.size ==> (Used(g, fs', x) <==> Used(g, fs, x)))
  {
    hide Ref, Bit;
    var fs' := Emptied(fs, n);
    assert Shape(g, fs');
    assert SameUsed(g, fs, fs');
    forall i, k {:trigger Ref(fs', i, k)} ensures Ref(fs', i, k) == if i == n then 0 else Ref(fs0, i, k) {
      EmptiedRef(g, fs0, fs, n, slots, i, k);
    }
    forall i, k {:trigger Ref(fs', i, k)} | Ref(fs', i, k) != 0
      ensures g.datastart <= Ref(fs', i, k) < g.size && Used(g, fs', Ref(fs', i, k))
    {
      var r := Ref(fs0, i, k);
      assert Used(g, fs0, r) && !HeldBy(fs0, n, slots, r);
      assert Used(g, fs, r);
    }
    forall x: nat {:trigger Used(g, fs', x)} | x < g.datastart ensures Used(g, fs', x) {
      assert Used(g, fs0, x) && !HeldBy(fs0, n, slots, x);
      assert Used(g, fs, x);
    }
    assert NoHoles(fs') by {
      assert forall i :: 0 <= i < |fs0.nodes| && i != n ==> fs'.nodes[i] == fs0.nodes[i];
    }
  }

  lemma EmptiedNoLeaks(g: Super, fs0: FS, fs: FS, n: nat, slots: set<nat>)
    requires Inv(g, fs0) && Dropped(g, fs0, fs, n, slots) && AllSlots(slots) && NoLeaks(g, fs0)
    ensures NoLeaks(g, Emptied(fs, n))
  {
    hide Ref, Bit, NoHoles, Owned;
    EmptiedOwned(g, fs0, fs, n, slots);
    var fs' := Emptied(fs, n);
    forall x: nat {:trigger Used(g, fs', x)} | g.datastart <= x < g.size && Used(g, fs', x) ensures Held(fs', x) {
      assert Used(g, fs, x) && Used(g, fs0, x);
      var i: nat, k: nat :| Ref(fs0, i, k) == x;
      NoSlot(fs0, i, k);
      assert !HeldBy(fs0, n, slots, x);
      assert i != n;
      EmptiedRef(g, fs0, fs, n, slots, i, k);
      assert Ref(fs', i, k) == x;
    }
  }

  lemma NoSlot(fs: FS, n: nat, k: nat)
    ensures SLOTS <= k ==> Ref(fs, n, k) == 0
  {
  }

  lemma EmptiedBytes(g: Super, fs0: FS, fs: FS, n: nat, slots: set<nat>, i: nat)
    requires Inv(g, fs0) && Dropped(g, fs0, fs, n, slots) && AllSlots(slots) && i < |fs0.nodes| && i != n
    ensures Contents(Emptied(fs, n), i) == Contents(fs0, i)
  {
    hide Ref, Slot, Used, NoHoles;
    var fs' := Emptied(fs, n);
    forall off: nat {:trigger ByteAt(fs', i, off)} ensures ByteAt(fs', i, off) == ByteAt(fs0, i, off) {
      EmptiedRef(g, fs0, fs, n, slots, i, Slot(off / BSIZE));
      assert Ref(fs0, i, Slot(off / BSIZE)) != 0 ==> g.datastart <= Ref(fs0, i, Slot(off / BSIZE)) < g.size;
    }
    SameBytesContents(fs0, fs', i);
  }

  lemma EmptiedIsTruncated(g: Super, fs0: FS, fs: FS, n: nat, slots: set<nat>)
    requires Inv(g, fs0) && Dropped(g, fs0, fs, n, slots) && AllSlots(slots)
    ensures Truncated(g, fs0, Emptied(fs, n), n)
  {
    hide Ref, NoHoles, Owned, NoLeaks, Used;
    var fs' := Emptied(fs, n);
    EmptiedOwned(g, fs0, fs, n, slots);
    if NoLeaks(g, fs0) {
      EmptiedNoLeaks(g, fs0, fs, n, slots);
    }
    forall k {:trigger Ref(fs', n, k)} ensures Ref(fs', n, k) == 0 {
      EmptiedRef(g, fs0, fs, n, slots, n, k);
    }
    forall i | 0 <= i < |fs0.nodes| && i != n ensures Contents(fs', i) == Contents(fs0, i) {
      EmptiedBytes(g, fs0, fs, n, slots, i);
    }
    forall x: nat | x < g.size ensures HeldBy(fs0, n, slots, x) <==> x != 0 && exists k :: Ref(fs0, n, k) == x {
      forall k | Ref(fs0, n, k) == x && x != 0 ensures k in slots {
        NoSlot(fs0, n, k);
      }
    }
  }

  /** The bitmap blocks of the blocks in these slots. */
  ghost function BitmapBlocks(g: Super, fs: FS, n: nat, slots: set<nat>): (s: set<nat>) {
    set k | k in slots && Ref(fs, n, k) != 0 :: g.BitmapBlock(Ref(fs, n, k))
  }

  lemma NoBitmapBlocks(g: Super, fs: FS, n: nat)
    ensures BitmapBlocks(g, fs, n, {}) == {}
  {
  }

  lemma BitmapBlocksMore(g: Super, fs: FS, n: nat, slots: set<nat>, k: nat)
    ensures BitmapBlocks(g, fs, n, slots + {k}) ==
            BitmapBlocks(g, fs, n, slots) + if Ref(fs, n, k) != 0 then {g.BitmapBlock(Ref(fs, n, k))} else {}
  {
    hide Ref;
  }

  lemma BitmapBlocksSame(g: Super, fs: FS, n: nat, slots: set<nat>, more: set<nat>)
    requires forall k :: k in more ==> Ref(fs, n, k) == 0
    ensures BitmapBlocks(g, fs, n, slots + more) == BitmapBlocks(g, fs, n, slots)
  {
    hide Ref;
  }

  lemma BitmapBlocksAll(g: Super, fs: FS, n: nat, slots: set<nat>)
    requires AllSlots(slots)
    ensures BitmapBlocks(g, fs, n, slots) == BitmapBlocks(g, fs, n, Range(0, SLOTS))
  {
    hide Ref;
    forall k: nat ensures SLOTS <= k ==> Ref(fs, n, k) == 0 {
      NoSlot(fs, n, k);
    }
  }

  /** What itrunc logs: a bitmap block for each that describes one of the file's blocks, and the inode's block. */
  ghost function TruncateLog(g: Super, fs: FS, n: nat): (s: set<nat>) {
    BitmapBlocks(g, fs, n, Range(0, SLOTS)) + {g.InodeBlock(n)}
  }

  lemma {:induction false} RangeSize(lo: nat, hi: nat)
    requires lo <= hi
    ensures |Range(lo, hi)| == hi - lo
    decreases hi - lo
  {
    if lo < hi {
      RangeSize(lo + 1, hi);
    }
  }

  lemma GrownTo(fs: FS, fs': FS, n: nat, off: nat, d: seq<Byte>)
    requires n < |fs.nodes| == |fs'.nodes| && off <= fs.nodes[n].size && Contents(fs', n) == Spliced(Contents(fs, n), off, d)
    ensures off + |d| <= fs'.nodes[n].size
  {
    assert |Contents(fs', n)| == fs'.nodes[n].size;
  }

  lemma SplicedNone(c: seq<Byte>, off: nat)
    ensures off <= |c| ==> Spliced(c, off, []) == c
  {
  }

  lemma SplicedTwice(c: seq<Byte>, off: nat, d: seq<Byte>, e: seq<Byte>)
    requires off <= |c|
    ensures off + |d| <= |Spliced(c, off, d)|
    ensures Spliced(Spliced(c, off, d), off + |d|, e) == Spliced(c, off, d + e)
  {
    var r := Spliced(c, off, d);
    assert r[..off + |d|] == c[..off] + d;
    if off + |d| + |e| < |r| {
      assert r[off + |d| + |e|..] == c[off + |d| + |e|..];
    }
  }

  // ---- filewrite ----

  /** The bytes that filewrite() hands to writei() at a time. */
  const CHUNK: nat := 3072

  /** How many of len bytes at off0 lie in chunks that end within the largest file. */
  ghost function Reach(off0: nat, len: nat): (r: nat)
    requires off0 <= MAXFILE * BSIZE
    ensures r <= len && off0 + r <= MAXFILE * BSIZE
    ensures r < len ==> r % CHUNK == 0 && off0 + Min(len, r + CHUNK) > MAXFILE * BSIZE
  {
    if off0 + len <= MAXFILE * BSIZE then len else MAXFILE * BSIZE - off0 - (MAXFILE * BSIZE - off0) % CHUNK
  }

  lemma NextChunk(i: nat, m: nat)
    requires i % CHUNK == 0 && m % CHUNK == 0 && i < m
    ensures i + CHUNK <= m && (i + CHUNK) % CHUNK == 0
  {
  }

  /** The first chunk ends within the largest file. */
  ghost predicate Begins(off0: nat, len: nat) {
    0 < len && off0 + Min(len, CHUNK) <= MAXFILE * BSIZE
  }

  lemma ChunkReach(off0: nat, len: nat, i: nat)
    requires off0 <= MAXFILE * BSIZE && i < len && i % CHUNK == 0 && i <= Reach(off0, len)
    ensures var end := Min(len, i + CHUNK);
            && (if off0 + end <= MAXFILE * BSIZE then end <= Reach(off0, len) else i == Reach(off0, len))
            && (end < len ==> end % CHUNK == 0)
  {
    hide Reach;
    var reach := Reach(off0, len);
    NextChunk(i, i + CHUNK);
    if i < reach < len {
      NextChunk(i, reach);
    }
  }

  lemma LevelSelf(g: Super, fs: FS, n: nat, ks: set<nat>)
    requires Inv(g, fs)
    ensures Level(g, fs, fs, n, ks)
  {
  }

  lemma LevelThen(g: Super, fs: FS, fs1: FS, fs2: FS, n: nat, ks: set<nat>)
    requires Level(g, fs, fs1, n, ks) && Level(g, fs1, fs2, n, ks)
    ensures Level(g, fs, fs2, n, ks)
  {
  }

  /** Part of the way through filewrite: i bytes are written. */
  ghost predicate Going(g: Super, fs0: FS, fs: FS, n: nat, off0: nat, len: nat, i: nat) {
    && off0 <= MAXFILE * BSIZE && i <= Reach(off0, len) && (i < len ==> i % CHUNK == 0)
    && n < |fs.nodes| && off0 + i <= fs.nodes[n].size && Level(g, fs0, fs, n, Needs(off0, Reach(off0, len)))
  }

  /** filewrite is over: j bytes are written, all that lie in chunks that fit, or all for which there was a block. */
  ghost predicate Over(g: Super, fs0: FS, fs: FS, n: nat, off0: nat, len: nat, j: nat) {
    && off0 <= MAXFILE * BSIZE && j <= Reach(off0, len) && (j == Reach(off0, len) <==> Fits(g, fs0, n, off0, Reach(off0, len)))
    && (j < Reach(off0, len) ==> Full(g, fs) && Ref(fs, n, Slot((off0 + j) / BSIZE)) == 0)
  }

  lemma GoingStart(g: Super, fs: FS, n: nat, off0: nat, len: nat)
    requires Inv(g, fs) && n < |fs.nodes| && off0 <= fs.nodes[n].size
    ensures Going(g, fs, fs, n, off0, len, 0)
  {
    hide Owned, NoHoles, Reach, Level;
    LevelSelf(g, fs, n, Needs(off0, Reach(off0, len)));
  }

  lemma GoingOver(g: Super, fs0: FS, fs: FS, n: nat, off0: nat, len: nat, i: nat)
    requires Going(g, fs0, fs, n, off0, len, i) && Inv(g, fs) && (i == len || i == Reach(off0, len))
    ensures Over(g, fs0, fs, n, off0, len, i)
  {
    hide Inv, Reach, Level, Fits, Full, Ref;
    AllWritten(g, fs0, fs, n, off0, i);
  }

  /** writei refuses the next chunk. */
  lemma GoingRefused(g: Super, fs0: FS, fs: FS, n: nat, off0: nat, len: nat, i: nat, n1: nat)
    requires Going(g, fs0, fs, n, off0, len, i) && Inv(g, fs) && i < len && n1 == Min(len - i, CHUNK)
    requires off0 + i > fs.nodes[n].size || off0 + i + n1 >= UINT || off0 + i + n1 > MAXFILE * BSIZE
    ensures Over(g, fs0, fs, n, off0, len, i)
  {
    hide Inv, Reach, Level, Over, Needs;
    ChunkReach(off0, len, i);
    GoingOver(g, fs0, fs, n, off0, len, i);
  }

  lemma GoingChunk(g: Super, fs0: FS, fs: FS, fs': FS, n: nat, off0: nat, len: nat, i: nat, n1: nat, r: nat, logged: set<nat>)
    requires Going(g, fs0, fs, n, off0, len, i) && i < len && n1 == Min(len - i, CHUNK) && off0 + i + n1 <= MAXFILE * BSIZE
    requires Accounted(g, fs, fs', n, off0 + i, n1, r, logged) && Inv(g, fs') && n < |fs'.nodes| && off0 + i + r <= fs'.nodes[n].size
    requires r <= n1 && (r < n1 ==> Full(g, fs') && (r == 0 || (off0 + i + r) % BSIZE == 0))
    ensures if r == n1 then Going(g, fs0, fs', n, off0, len, i + r) else Over(g, fs0, fs', n, off0, len, i + r)
  {
    hide Accounted, Ref, NoHoles, Owned, Full, Fits, Level, Needs, Slot, Reach;
    var reach := Reach(off0, len);
    ChunkReach(off0, len, i);
    WriteLevel(g, fs, fs', n, off0 + i, n1, r, logged, off0, reach);
    LevelThen(g, fs0, fs, fs', n, Needs(off0, reach));
    if r < n1 {
      StuckAt(g, fs, fs', n, off0 + i, n1, r, logged);
      NotAllWritten(g, fs0, fs', n, off0, reach, off0 + i + r);
    }
  }

  /** What filewrite answers, given how far it got. */
  lemma OverAnswer(g: Super, fs0: FS, fs: FS, n: nat, off0: nat, len: nat, j: nat)
    requires Over(g, fs0, fs, n, off0, len, j)
    ensures j == len <==> off0 + len <= MAXFILE * BSIZE && Fits(g, fs0, n, off0, len)
  {
    hide Fits, Full, Ref;
  }

  lemma GrowthBound(before: set<nat>, mid: set<nat>, after: set<nat>, b: nat)
    requires after == mid + {b}
    ensures |after - before| <= |(mid - before) + {b}|
  {
    SubsetSize(after - before, (mid - before) + {b});
  }

  class FileSystem {
    const g: Super
    var data: seq<Block>
    var nodes: seq<Inode>
    var dinodes: seq<Inode>
    ghost var logged: set<nat>

    ghost function State(): (fs: FS)
      reads this
    {
      FS(data, nodes)
    }

    constructor (g: Super, data: seq<Block>, nodes: seq<Inode>)
      ensures this.g == g && State() == FS(data, nodes) && dinodes == nodes && logged == {}
    {
      this.g, this.data, this.nodes, this.dinodes, logged := g, data, nodes, nodes, {};
    }

    /** Find the first free block, mark it, zero it. 0 means the disk is full. */
    method Balloc() returns (r: nat)
      requires Sound(g, State())
      modifies this`data, this`logged
      ensures r == 0 ==> State() == old(State()) && logged == old(logged) && Full(g, State())
      ensures r != 0 ==>
                && g.datastart <= r < g.size && !Used(g, old(State()), r)
                && (forall x: nat {:trigger Used(g, old(State()), x)} :: x < r ==> Used(g, old(State()), x))
                && State() == Alloc(g, old(State()), r)
                && logged == old(logged) + {g.BitmapBlock(r), r}
    {
      hide Owned, Bit, WithBit;
      var b := 0;
      while b < g.size
        invariant b % BPB == 0 && State() == old(State()) && logged == old(logged)
        invariant forall x: nat {:trigger Used(g, State(), x)} :: x < b && x < g.size ==> Used(g, State(), x)
        decreases g.size - b
      {
        var bi := 0;
        var bb := g.BitmapBlock(b);
        while bi < BPB && b + bi < g.size
          invariant bi <= BPB && State() == old(State()) && logged == old(logged)
          invariant forall x: nat {:trigger Used(g, State(), x)} :: x < b + bi && x < g.size ==> Used(g, State(), x)
          decreases BPB - bi
        {
          BitIndex(b, bi);
          if !Bit(data[bb], bi) {
            r := b + bi;
            assert !Used(g, State(), r);
            if r < g.datastart {
              MetaUsed(g, State(), r);
            }
            data := data[bb := WithBit(data[bb], bi, true)];
            logged := logged + {bb};
            data := data[r := ZeroBlock()];
            logged := logged + {r};
            return;
          }
          assert Used(g, State(), b + bi);
          bi := bi + 1;
        }
        b := b + BPB;
      }
      r := 0;
    }

    /** Mark a block free. A block that is free already is the "freeing free block" panic. */
    method Bfree(b: nat)
      requires Shape(g, State()) && b < g.size && Used(g, State(), b)
      modifies this`data, this`logged
      ensures State() == Free(g, old(State()), b)
      ensures logged == old(logged) + {g.BitmapBlock(b)}
    {
      var bb := g.BitmapBlock(b);
      data := data[bb := WithBit(data[bb], b % BPB, false)];
      logged := logged + {bb};
    }

    /** The two places in bmap that fill in one of ip->addrs. */
    method MapAddr(n: nat, k: nat) returns (r: nat)
      requires Sound(g, State()) && n < |nodes| && k <= NDIRECT
      modifies this`data, this`nodes, this`logged
      ensures Extends(g, old(State()), State(), n)
      ensures r == Ref(State(), n, k) && forall j :: j != k ==> Ref(State(), n, j) == Ref(old(State()), n, j)
      ensures r == 0 ==> State() == old(State()) && Full(g, State())
      ensures Ref(old(State()), n, k) != 0 ==> State() == old(State())
      ensures logged == old(logged) +
                        if Ref(old(State()), n, k) == 0 && r != 0 then {g.BitmapBlock(r), r} else {}
      ensures Gains(g, old(State()), State(), n, {k})
    {
      hide Used, NoLeaks, Extends, Alloc, Gains;
      ExtendsSelf(g, State(), n);
      GainsNone(g, State(), n, {k});
      r := nodes[n].addrs[k];
      if r == 0 {
        r := Balloc();
        if r != 0 {
          GrowExtends(g, old(State()), n, k, r);
          GainsGrow(g, old(State()), n, k, r);
          nodes := nodes[n := nodes[n].(addrs := nodes[n].addrs[k := r])];
        }
      }
    }

    /** The part of bmap that fills in an entry of the indirect block. */
    method MapIndirect(n: nat, j: nat) returns (r: nat)
      requires Sound(g, State()) && n < |nodes| && j < NINDIRECT && Ref(State(), n, NDIRECT) != 0
      modifies this`data, this`logged
      ensures Extends(g, old(State()), State(), n)
      ensures r == Ref(State(), n, NDIRECT + 1 + j)
      ensures r == 0 ==> State() == old(State()) && Full(g, State())
      ensures Ref(old(State()), n, NDIRECT + 1 + j) != 0 ==> State() == old(State())
      ensures Ref(State(), n, NDIRECT) == Ref(old(State()), n, NDIRECT)
      ensures logged == old(logged) +
                        if Ref(old(State()), n, NDIRECT + 1 + j) == 0 && r != 0
                        then {g.BitmapBlock(r), r, Ref(State(), n, NDIRECT)} else {}
      ensures Gains(g, old(State()), State(), n, {NDIRECT + 1 + j})
    {
      hide Used, NoLeaks, Extends, Alloc, Word, WithWord, Gains;
      ExtendsSelf(g, State(), n);
      GainsNone(g, State(), n, {NDIRECT + 1 + j});
      var ind := nodes[n].addrs[NDIRECT];
      assert ind == Ref(State(), n, NDIRECT);
      r := Word(data[ind], j);
      if r == 0 {
        r := Balloc();
        if r != 0 {
          GrowExtends(g, old(State()), n, NDIRECT + 1 + j, r);
          GainsGrow(g, old(State()), n, NDIRECT + 1 + j, r);
          AllocKeeps(g, old(State()), r);
          data := data[ind := WithWord(data[ind], j, r)];
          logged := logged + {ind};
        }
      }
    }

    /** The disk block of file block bn, allocating what is missing on the way. 0 means the disk is full.
        A bn past the largest file is the "out of range" panic. */
    method Bmap(n: nat, bn: nat) returns (r: nat)
      requires Sound(g, State()) && n < |nodes| && bn < MAXFILE
      modifies this`data, this`nodes, this`logged
      ensures Extends(g, old(State()), State(), n)
      ensures r == Ref(State(), n, Slot(bn))
      ensures r == 0 ==> Full(g, State())
      ensures Ref(old(State()), n, Slot(bn)) != 0 ==> State() == old(State()) && logged == old(logged)
      ensures logged == old(logged) + MapLog(g, old(State()), State(), n, bn)
      ensures Gains(g, old(State()), State(), n, SlotsOf(bn))
    {
      hide Used, NoLeaks, Full, Sound, Gains;
      if bn < NDIRECT {
        r := MapAddr(n, bn);
      } else {
        ghost var fs0 := State();
        r := MapAddr(n, NDIRECT);
        if r != 0 {
          ghost var fs1 := State();
          assert Ref(fs1, n, Slot(bn)) == Ref(fs0, n, Slot(bn));
          if Ref(fs0, n, NDIRECT) == 0 {
            NoIndirect(fs0, n, bn);
          }
          r := MapIndirect(n, bn - NDIRECT);
          ExtendsTransitive(g, fs0, fs1, State(), n);
          GainsThen(g, fs0, fs1, State(), n, {NDIRECT}, {Slot(bn)});
          assert {NDIRECT} + {Slot(bn)} == SlotsOf(bn);
        } else {
          NoIndirect(fs0, n, bn);
          GainsMore(g, fs0, State(), n, {NDIRECT}, SlotsOf(bn));
        }
      }
    }

    /** iupdate(): copy the in-memory inode to disk. */
    method Iupdate(n: nat)
      requires n < |nodes| == |dinodes|
      modifies this`dinodes, this`logged
      ensures dinodes == old(dinodes)[n := nodes[n]]
      ensures logged == old(logged) + {g.InodeBlock(n)}
    {
      dinodes := dinodes[n := nodes[n]];
      logged := logged + {g.InodeBlock(n)};
    }

    /** One turn of writei's loop: write `piece`, which ends within its block, at `off`. */
    method WritePiece(n: nat, off: nat, piece: seq<Byte>) returns (ok: bool)
      requires Sound(g, State()) && n < |nodes|
      requires off / BSIZE < MAXFILE && off % BSIZE + |piece| <= BSIZE
      modifies this`data, this`nodes, this`logged
      ensures Sound(g, State()) && (NoLeaks(g, old(State())) ==> NoLeaks(g, State())) && SameMeta(old(State()), State())
      ensures Monotone(old(State()), State(), n)
      ensures ok <==> Ref(State(), n, Slot(off / BSIZE)) != 0
      ensures !ok ==> Full(g, State())
      ensures BytesWritten(old(State()), State(), n, off, if ok then piece else [])
      ensures logged == old(logged) + MapLog(g, old(State()), State(), n, off / BSIZE) +
                        if ok then {Ref(State(), n, Slot(off / BSIZE))} else {}
      ensures Gains(g, old(State()), State(), n, SlotsOf(off / BSIZE))
    {
      hide Used, NoLeaks, Full, Sound, MapLog, Slot, Gains;
      var bn, at := off / BSIZE, off % BSIZE;
      ghost var fs0 := State();
      var addr := Bmap(n, bn);
      ghost var fs1 := State();
      forall i: nat, o: nat {:trigger ByteAt(fs1, i, o)} ensures ByteAt(fs1, i, o) == ByteAt(fs0, i, o) {
        assert SameBytes(fs0, fs1, i);
      }
      ok := addr != 0;
      if ok {
        InBounds(g, fs1, n, Slot(bn));
        ghost var blk := data[addr][..at] + piece + data[addr][at + |piece|..];
        data := data[addr := data[addr][..at] + piece + data[addr][at + |piece|..]];
        logged := logged + {addr};
        OverwriteKeeps(g, fs1, n, bn, blk);
        forall i: nat, o: nat {:trigger ByteAt(State(), i, o)}
          ensures ByteAt(State(), i, o) == if i == n && off <= o < off + |piece| then piece[o - off] else ByteAt(fs1, i, o)
        {
          OverwriteBytes(g, fs1, n, bn, blk, i, o);
          WithinBlock(fs1, n, off, piece, o);
        }
        MapLogFrame(g, fs0, fs1, State(), n, bn);
        GainsOverwrite(g, fs0, fs1, n, bn, blk);
      }
    }

    /** The end of writei: the size grows to the offset reached. */
    method SetSize(n: nat, off: nat, ghost fs0: FS, ghost d: seq<Byte>, ghost off0: nat, ghost hi: nat, ghost more: set<nat>)
      requires Inv(g, fs0) && n < |nodes| && Writing(g, fs0, State(), n, off0, d, hi, more)
      requires off0 <= fs0.nodes[n].size && off == off0 + |d| <= MAXFILE * BSIZE && (d == [] || off <= hi * BSIZE)
      modifies this`nodes
      ensures Inv(g, State()) && (NoLeaks(g, fs0) ==> NoLeaks(g, State())) && |nodes| == old(|nodes|)
      ensures Contents(State(), n) == Spliced(Contents(fs0, n), off0, d)
      ensures forall i :: 0 <= i < |nodes| && i != n ==> Contents(State(), i) == Contents(fs0, i)
      ensures Full(g, old(State())) ==> Full(g, State())
      ensures SameRefs(old(State()), State()) && Shape(g, old(State())) && SameUsed(g, old(State()), State())
    {
      hide Used, NoLeaks, Full, Owned, NoHoles, Slot, Spliced, Contents, ByteAt, Ref, Monotone, BytesWritten, InLogBound, Mapped;
      ghost var fs1 := State();
      StillNoHoles(fs0, fs1, n);
      if off > nodes[n].size {
        forall bn: nat {:trigger Ref(fs1, n, Slot(bn))} | bn * BSIZE < off ensures Ref(fs1, n, Slot(bn)) != 0 {
          WriteMapped(g, fs0, fs1, n, off0, d, hi, more, bn);
        }
        ResizeKeeps(g, fs1, n, off);
        nodes := nodes[n := nodes[n].(size := off)];
        BytesWrittenMore(fs0, fs1, State(), n, off0, d, []);
        assert d + [] == d;
      }
      forall i | 0 <= i < |nodes|
        ensures Contents(State(), i) == if i == n then Spliced(Contents(fs0, n), off0, d) else Contents(fs0, i)
      {
        assert fs1.nodes[i].(addrs := []) == fs0.nodes[i].(addrs := []);
        BytesWrittenContents(fs0, State(), n, off0, d, i);
      }
    }

    /** writei's loop. */
    method WriteBlocks(n: nat, src: seq<Byte>, off0: nat) returns (tot: nat, ghost hi: nat)
      requires Sound(g, State()) && n < |nodes| && off0 + |src| <= MAXFILE * BSIZE
      modifies this`data, this`nodes, this`logged
      ensures tot <= |src| && |nodes| == old(|nodes|) && (tot < |src| ==> Full(g, State()))
      ensures Sound(g, State()) && Writing(g, old(State()), State(), n, off0, src[..tot], hi, logged - old(logged))
      ensures if tot == 0 then hi == off0 / BSIZE else (hi - 1) * BSIZE < off0 + tot <= hi * BSIZE
      ensures Exactly(g, old(State()), State(), n, off0 / BSIZE, hi, logged)
      ensures tot < |src| ==> Ref(State(), n, Slot(hi)) == 0 && (tot == 0 || (off0 + tot) % BSIZE == 0)
      ensures tot == |src| ==> NoIndirectYet(old(State()), State(), n, off0 / BSIZE, hi)
    {
      hide Used, NoLeaks, Full, Sound, MapLog, Slot, Monotone, Writing, BytesWritten, SameMeta, Exactly, Gains;
      ghost var fs0 := State();
      hi := off0 / BSIZE;
      WriteStart(g, fs0, n, off0);
      ExactlyStart(g, fs0, n, hi, logged);
      assert logged - old(logged) == {};
      tot := 0;
      var off := off0;
      while tot < |src|
        invariant tot <= |src| && off == off0 + tot && |nodes| == old(|nodes|)
        invariant Sound(g, State()) && Writing(g, fs0, State(), n, off0, src[..tot], hi, logged - old(logged))
        invariant tot < |src| ==> hi == off / BSIZE && (tot == 0 || off % BSIZE == 0)
        invariant if tot == 0 then hi == off0 / BSIZE else (hi - 1) * BSIZE < off <= hi * BSIZE
        invariant Exactly(g, fs0, State(), n, off0 / BSIZE, hi, logged)
        invariant NoIndirectYet(fs0, State(), n, off0 / BSIZE, hi)
      {
        ghost var fs1, more, before := State(), logged - old(logged), logged;
        WritingHas(g, fs0, fs1, n, off0, src[..tot], hi, more);
        var m := Min(|src| - tot, BSIZE - off % BSIZE);
        PieceFits(off, |src| - tot);
        var ok := WritePiece(n, off, src[tot..tot + m]);
        if !ok {
          WriteFailed(g, fs0, fs1, State(), n, off0, src[..tot], hi, more, logged - old(logged));
          MetaCount(fs1, State());
          ExactlyFailed(g, fs0, fs1, State(), n, off0 / BSIZE, hi, before, logged);
          break;
        }
        WriteStep(g, fs0, fs1, State(), n, off0, src[..tot], src[tot..tot + m], hi, more, logged - old(logged));
        MetaCount(fs1, State());
        ExactlyStep(g, fs0, fs1, State(), n, off0 / BSIZE, hi, before, logged);
        StillNoIndirect(g, fs0, fs1, State(), n, off0 / BSIZE, hi);
        assert src[..tot] + src[tot..tot + m] == src[..tot + m];
        tot, off, hi := tot + m, off + m, hi + 1;
      }
    }

    /** writei() past its checks. */
    method WriteData(n: nat, src: seq<Byte>, off0: nat) returns (tot: nat)
      requires Inv(g, State()) && n < |nodes| == |dinodes| && off0 <= nodes[n].size && off0 + |src| <= MAXFILE * BSIZE
      modifies this
      ensures Inv(g, State()) && (NoLeaks(g, old(State())) ==> NoLeaks(g, State())) && |nodes| == old(|nodes|)
      ensures tot <= |src| && (tot < |src| ==> Full(g, State()) && (tot == 0 || (off0 + tot) % BSIZE == 0))
      ensures Contents(State(), n) == Spliced(Contents(old(State()), n), off0, src[..tot])
      ensures forall i :: 0 <= i < |nodes| && i != n ==> Contents(State(), i) == Contents(old(State()), i)
      ensures dinodes == old(dinodes)[n := nodes[n]]
      ensures |src| <= 3 * BSIZE ==> |logged - old(logged)| <= MAXOPBLOCKS
      ensures Accounted(g, old(State()), State(), n, off0, |src|, tot, logged)
    {
      hide Used, NoLeaks, Full, Sound, NoHoles, MapLog, Slot, Spliced, Contents, ByteAt, Monotone, Writing, BytesWritten, Exactly, SameRefs,
           SameUsed, Ref, Shape, Accounted;
      ghost var fs0 := State();
      ghost var hi: nat;
      tot, hi := WriteBlocks(n, src, off0);
      ghost var more := logged - old(logged);
      if |src| <= 3 * BSIZE {
        WriteSize(g, fs0, State(), n, off0, src[..tot], hi, more, g.InodeBlock(n));
      }
      ghost var fs1, all := State(), logged;
      SetSize(n, off0 + tot, fs0, src[..tot], off0, hi, more);
      Iupdate(n);
      WritingHas(g, fs0, fs1, n, off0, src[..tot], hi, more);
      AccountedAfter(g, fs0, fs1, State(), n, off0, |src|, tot, hi, all, logged);
      GrowthBound(old(logged), all, logged, g.InodeBlock(n));
    }

    /** Write `src` at `off0`. The result is the number of bytes written, less than all of them only when the
        disk is full, or -1 for an offset past the end, a 32-bit overflow, or a file grown too large. */
    method Writei(n: nat, src: seq<Byte>, off0: nat) returns (r: int)
      requires Inv(g, State()) && n < |nodes| == |dinodes|
      requires off0 < UINT && |src| < UINT
      modifies this
      ensures Inv(g, State()) && (NoLeaks(g, old(State())) ==> NoLeaks(g, State())) && |nodes| == old(|nodes|)
      ensures r == -1 <==> off0 > old(nodes)[n].size || off0 + |src| >= UINT || off0 + |src| > MAXFILE * BSIZE
      ensures r == -1 ==> State() == old(State()) && dinodes == old(dinodes) && logged == old(logged)
      ensures r != -1 ==>
                && 0 <= r <= |src| && (r < |src| ==> Full(g, State()) && (r == 0 || (off0 + r) % BSIZE == 0))
                && Contents(State(), n) == Spliced(Contents(old(State()), n), off0, src[..r])
                && (forall i :: 0 <= i < |nodes| && i != n ==> Contents(State(), i) == Contents(old(State()), i))
                && dinodes == old(dinodes)[n := nodes[n]]
      ensures |src| <= 3 * BSIZE ==> |logged - old(logged)| <= MAXOPBLOCKS
      ensures r != -1 ==> Accounted(g, old(State()), State(), n, off0, |src|, r, logged)
      ensures r == |src| <==> off0 <= old(nodes)[n].size && off0 + |src| <= MAXFILE * BSIZE && Fits(g, old(State()), n, off0, |src|)
    {
      hide NoLeaks, Full, Inv, Spliced, Contents, Accounted, Fits;
      if off0 > nodes[n].size || (off0 + |src|) % UINT < off0 {
        return -1;
      }
      if off0 + |src| > MAXFILE * BSIZE {
        return -1;
      }
      ghost var fs0 := State();
      r := WriteData(n, src, off0);
      GrownTo(fs0, State(), n, off0, src[..r]);
      WrittenIff(g, fs0, State(), n, off0, |src|, r, logged);
    }

    /** Read up to `count` bytes at `off0`. No block is ever allocated for it, because files have no holes. */
    method Readi(n: nat, off0: nat, count: nat) returns (out: seq<Byte>)
      requires Inv(g, State()) && n < |nodes| && off0 < UINT && count < UINT
      modifies this`data, this`nodes, this`logged
      ensures State() == old(State()) && logged == old(logged)
      ensures out == if off0 > nodes[n].size || off0 + count >= UINT then []
                     else Contents(State(), n)[off0..Min(off0 + count, nodes[n].size)]
    {
      hide Used, NoLeaks, Full, Sound, NoHoles, MapLog, Slot, Ref, Contents, Extends, Gains, SlotsOf, Monotone;
      out := [];
      if off0 > nodes[n].size || (off0 + count) % UINT < off0 {
        return;
      }
      var cnt := if off0 + count > nodes[n].size then nodes[n].size - off0 else count;
      var tot, off := 0, off0;
      ghost var c := Contents(State(), n);
      while tot < cnt
        invariant tot <= cnt && off == off0 + tot && State() == old(State()) && logged == old(logged)
        invariant out == c[off0..off]
      {
        NoHoleAt(g, State(), n, off);
        var addr := Bmap(n, off / BSIZE);
        if addr == 0 {
          break;
        }
        var m := Min(cnt - tot, BSIZE - off % BSIZE);
        PieceFits(off, cnt - tot);
        InBounds(g, State(), n, Slot(off / BSIZE));
        var at := off % BSIZE;
        PieceRead(State(), n, off, m);
        out := out + data[addr][at..at + m];
        SliceMore(c, off0, off, m);
        tot, off := tot + m, off + m;
      }
    }

    /** itrunc(): give all of a file's blocks back. Each Bfree meets a used block, so "freeing free block"
        is never reached. */
    method Itrunc(n: nat)
      requires Inv(g, State()) && n < |nodes| == |dinodes|
      modifies this
      ensures Truncated(g, old(State()), State(), n)
      ensures dinodes == old(dinodes)[n := nodes[n]]
      ensures logged == old(logged) + TruncateLog(g, old(State()), n)
    {
      hide Ref, Used, Owned, NoHoles, Dropped, Truncated, AllSlots, NoLeaks, Word;
      ghost var fs0 := State();
      ghost var slots := DropDirect(n);
      slots := DropIndirect(n, fs0, slots, old(logged));
      BitmapBlocksAll(g, fs0, n, slots);
      EmptiedIsTruncated(g, fs0, State(), n, slots);
      nodes := nodes[n := nodes[n].(size := 0)];
      Iupdate(n);
    }

    /** itrunc's loop over the direct blocks. */
    method DropDirect(n: nat) returns (ghost slots: set<nat>)
      requires Inv(g, State()) && n < |nodes|
      modifies this`data, this`nodes, this`logged
      ensures Dropped(g, old(State()), State(), n, slots)
      ensures forall k :: k in slots <==> 0 <= k < NDIRECT
      ensures |nodes| == old(|nodes|) && logged == old(logged) + BitmapBlocks(g, old(State()), n, slots)
    {
      hide Ref, Used, Owned, NoHoles, Dropped, BitmapBlocks;
      ghost var fs0 := State();
      slots := {};
      NoBitmapBlocks(g, fs0, n);
      DropStart(g, fs0, n);
      var i := 0;
      while i < NDIRECT
        invariant i <= NDIRECT && Dropped(g, fs0, State(), n, slots)
        invariant forall k :: k in slots <==> 0 <= k < i
        invariant logged == old(logged) + BitmapBlocks(g, fs0, n, slots)
      {
        BitmapBlocksMore(g, fs0, n, slots, i);
        DropAddr(g, fs0, State(), n, slots, i);
        if nodes[n].addrs[i] != 0 {
          DropUsed(g, fs0, State(), n, slots, i);
          DropOne(g, fs0, State(), n, slots, i);
          Bfree(nodes[n].addrs[i]);
          nodes := nodes[n := nodes[n].(addrs := nodes[n].addrs[i := 0])];
        } else {
          DropNothing(g, fs0, State(), n, slots, {i});
        }
        slots := slots + {i};
        i := i + 1;
      }
    }

    /** The rest of itrunc: the entries of the indirect block, then the indirect block itself. */
    method DropIndirect(n: nat, ghost fs0: FS, ghost direct: set<nat>, ghost logged0: set<nat>) returns (ghost slots: set<nat>)
      requires Inv(g, fs0) && Dropped(g, fs0, State(), n, direct) && n < |nodes|
      requires (forall k :: k in direct <==> 0 <= k < NDIRECT) && logged == logged0 + BitmapBlocks(g, fs0, n, direct)
      modifies this`data, this`nodes, this`logged
      ensures Dropped(g, fs0, State(), n, slots) && AllSlots(slots) && |nodes| == old(|nodes|)
      ensures logged == logged0 + BitmapBlocks(g, fs0, n, slots)
    {
      hide Ref, Used, Owned, NoHoles, Dropped, Word, BitmapBlocks;
      slots := direct;
      DropAddr(g, fs0, State(), n, slots, NDIRECT);
      var ind := nodes[n].addrs[NDIRECT];
      if ind != 0 {
        var j := 0;
        while j < NINDIRECT
          invariant j <= NINDIRECT && Dropped(g, fs0, State(), n, slots)
          invariant nodes == old(nodes) && logged == logged0 + BitmapBlocks(g, fs0, n, slots)
          invariant forall k :: k in slots <==> 0 <= k < NDIRECT || NDIRECT < k <= NDIRECT + j
        {
          ghost var k := NDIRECT + 1 + j;
          BitmapBlocksMore(g, fs0, n, slots, k);
          DropEntry(g, fs0, State(), n, slots, j);
          var a := Word(data[ind], j);
          if a != 0 {
            DropUsed(g, fs0, State(), n, slots, k);
            DropOne(g, fs0, State(), n, slots, k);
            Bfree(a);
          } else {
            DropNothing(g, fs0, State(), n, slots, {k});
          }
          slots := slots + {k};
          j := j + 1;
        }
        BitmapBlocksMore(g, fs0, n, slots, NDIRECT);
        DropUsed(g, fs0, State(), n, slots, NDIRECT);
        DropOne(g, fs0, State(), n, slots, NDIRECT);
        Bfree(ind);
        nodes := nodes[n := nodes[n].(addrs := nodes[n].addrs[NDIRECT := 0])];
        slots := slots + {NDIRECT};
      } else {
        ghost var more := Range(NDIRECT, SLOTS);
        forall k | k in more && k != NDIRECT ensures Ref(fs0, n, k) == 0 {
          NoIndirect(fs0, n, k - 1);
          assert Slot(k - 1) == k;
        }
        DropNothing(g, fs0, State(), n, slots, more);
        BitmapBlocksSame(g, fs0, n, slots, more);
        slots := slots + more;
      }
    }

    /** filewrite() on an inode: chunks of three blocks, each a transaction of its own and each within
        MAXOPBLOCKS. `off0` and `off` are f->off before and after. */
    method Filewrite(n: nat, src: seq<Byte>, off0: nat) returns (ret: int, off: nat, ghost txns: seq<set<nat>>)
      requires Inv(g, State()) && n < |nodes| == |dinodes|
      requires off0 < UINT && |src| < UINT
      modifies this
      ensures Inv(g, State()) && (NoLeaks(g, old(State())) ==> NoLeaks(g, State())) && |nodes| == old(|nodes|)
      ensures forall t :: t in txns ==> |t| <= MAXOPBLOCKS
      ensures ret == |src| || ret == -1
      ensures off0 <= off <= off0 + |src| && (ret == |src| <==> off == off0 + |src|)
      ensures off0 <= old(nodes)[n].size ==> Contents(State(), n) == Spliced(Contents(old(State()), n), off0, src[..off - off0])
      ensures off0 > old(nodes)[n].size ==> Contents(State(), n) == Contents(old(State()), n) && off == off0
      ensures forall i :: 0 <= i < |nodes| && i != n ==> Contents(State(), i) == Contents(old(State()), i)
      ensures if off0 <= old(nodes)[n].size && Begins(off0, |src|) then dinodes == old(dinodes)[n := nodes[n]]
              else State() == old(State()) && dinodes == old(dinodes)
      ensures ret == -1 <==> src != [] && (|| off0 > old(nodes)[n].size || off0 + |src| > MAXFILE * BSIZE
                                           || !Fits(g, old(State()), n, off0, |src|))
      ensures off0 <= old(nodes)[n].size ==>
                && off0 <= MAXFILE * BSIZE && off <= off0 + Reach(off0, |src|)
                && (off == off0 + Reach(off0, |src|) <==> Fits(g, old(State()), n, off0, Reach(off0, |src|)))
                && (off < off0 + Reach(off0, |src|) ==> Full(g, State()) && Ref(State(), n, Slot(off / BSIZE)) == 0)
    {
      hide NoLeaks, Inv, Contents, Spliced, Accounted, Fits, Full, Reach, Going, Ref, Slot;
      var max := (MAXOPBLOCKS - 1 - 1 - 2) / 2 * BSIZE;
      ghost var fs0, len := State(), |src|;
      SplicedNone(Contents(fs0, n), off0);
      off, txns := off0, [];
      var i := 0;
      ghost var within := off0 <= nodes[n].size;
      if within {
        GoingStart(g, fs0, n, off0, len);
      }
      while i < |src|
        invariant i <= |src| && off == off0 + i && |nodes| == old(|nodes|) == |dinodes| && |fs0.nodes| == |nodes|
        invariant Inv(g, State()) && (NoLeaks(g, fs0) ==> NoLeaks(g, State()))
        invariant forall t :: t in txns ==> |t| <= MAXOPBLOCKS
        invariant off0 <= fs0.nodes[n].size ==> Contents(State(), n) == Spliced(Contents(fs0, n), off0, src[..i])
        invariant off0 > fs0.nodes[n].size ==> i == 0 && Contents(State(), n) == Contents(fs0, n)
        invariant off < UINT || i == |src|
        invariant within ==> Going(g, fs0, State(), n, off0, len, i)
        invariant if i > 0 then Begins(off0, len) && dinodes == old(dinodes)[n := nodes[n]]
                  else State() == old(State()) && dinodes == old(dinodes)
        invariant forall j :: 0 <= j < |nodes| && j != n ==> Contents(State(), j) == Contents(fs0, j)
      {
        var n1 := Min(|src| - i, max);
        logged := {};
        ghost var fs1 := State();
        var r := Writei(n, src[i..i + n1], off);
        txns := txns + [logged];
        assert logged - {} == logged;
        if r >= 0 {
          assert src[i..i + n1][..r] == src[i..i + r] && src[..i] + src[i..i + r] == src[..i + r];
          SplicedTwice(Contents(fs0, n), off0, src[..i], src[i..i + r]);
          GrownTo(fs1, State(), n, off, src[i..i + r]);
          if within {
            GoingChunk(g, fs0, fs1, State(), n, off0, len, i, n1, r, logged);
          }
        } else if within {
          GoingRefused(g, fs0, fs1, n, off0, len, i, n1);
        }
        if r > 0 {
          off := off + r;
        }
        if r != n1 {
          break;
        }
        i := i + r;
      }
      if within {
        if i == |src| {
          GoingOver(g, fs0, State(), n, off0, len, i);
        }
        OverAnswer(g, fs0, State(), n, off0, len, off - off0);
      }
      ret := if i == |src| then |src| else -1;
    }
  }
}
