/** The redo log of kernel/log.c, running on the buffer cache.

    Each routine is proved to issue exactly the block writes that module CrashSafety reasons about. */
module WriteAheadLog {
  import opened BlockDevice
  import opened Collections
  import opened CrashSafety
  import opened BufferCache
  import LruList
  import LogProtocol

  /** The references that remain once the first k logged blocks are unpinned. */
  ghost predicate Unpinned(refs: seq<nat>, bs: seq<nat>, k: nat, refs': seq<nat>)
    requires k <= |bs|
  {
    && |refs'| == |refs|
    && forall b :: 0 <= b < |refs| ==> if b in bs[..k] then refs[b] == refs'[b] + 1 else refs'[b] == refs[b]
  }

  lemma UnpinNone(refs: seq<nat>, bs: seq<nat>)
    ensures Unpinned(refs, bs, 0, refs)
  {
  }

  lemma UnpinStep(refs: seq<nat>, bs: seq<nat>, k: nat, refs': seq<nat>)
    requires k < |bs| && Unpinned(refs, bs, k, refs') && Distinct(bs) && bs[k] < |refs| && refs[bs[k]] != 0
    ensures refs'[bs[k]] != 0 && Unpinned(refs, bs, k + 1, refs'[bs[k] := refs'[bs[k]] - 1])
  {
    assert bs[..k + 1] == bs[..k] + [bs[k]];
    assert bs[k] !in bs[..k];
  }

  lemma UnpinShrinks(refs: seq<nat>, bs: seq<nat>, k: nat, refs': seq<nat>)
    requires k <= |bs| && Unpinned(refs, bs, k, refs')
    ensures |Busy(refs')| <= |Busy(refs)|
  {
    forall b | 0 <= b < |refs| ensures refs'[b] <= refs[b] {
      assert if b in bs[..k] then refs[b] == refs'[b] + 1 else refs'[b] == refs[b];
    }
    BusyShrinks(refs, refs');
  }

  /** The references once the holders of these blocks have released them. */
  ghost function Released(refs: seq<nat>, held: set<nat>, bs: seq<nat>): (r: seq<nat>)
    ensures |r| == |refs|
  {
    seq(|refs|, b requires 0 <= b < |refs| => if b in bs && b in held && 0 < refs[b] then refs[b] - 1 else refs[b])
  }

  ghost function Others(held: set<nat>, bs: seq<nat>): (s: set<nat>) {
    set b | b in held && b !in bs
  }

  lemma ReleasedNone(refs: seq<nat>, held: set<nat>)
    ensures Released(refs, held, []) == refs && Others(held, []) == held
  {
  }

  lemma ReleasedStep(refs: seq<nat>, held: set<nat>, bs: seq<nat>, k: nat)
    requires k < |bs| && Distinct(bs) && Pins(refs, held, bs)
    ensures var b := bs[k];
            && b < |refs| && Released(refs, held, bs[..k])[b] == refs[b] && (b in Others(held, bs[..k]) <==> b in held)
            && Others(held, bs[..k + 1]) == Others(held, bs[..k]) - {b}
            && Released(refs, held, bs[..k + 1]) ==
               if b in held then Released(refs, held, bs[..k])[b := refs[b] - 1] else Released(refs, held, bs[..k])
  {
    var b := bs[k];
    assert bs[..k + 1] == bs[..k] + [b] && b !in bs[..k];
    assert b in bs;
    forall x | 0 <= x < |refs|
      ensures Released(refs, held, bs[..k + 1])[x] == if x == b && b in held then refs[b] - 1 else Released(refs, held, bs[..k])[x]
    {
      assert x in bs[..k + 1] <==> x in bs[..k] || x == b;
    }
  }

  lemma ReleasedBusy(refs: seq<nat>, held: set<nat>, bs: seq<nat>, k: nat)
    requires k <= |bs| && Pins(refs, held, bs)
    ensures Pins(Released(refs, held, bs[..k]), Others(held, bs[..k]), bs) && |Busy(Released(refs, held, bs[..k]))| <= |Busy(refs)|
    ensures k == |bs| ==> forall b :: b in Others(held, bs[..k]) ==> b !in bs
  {
    assert bs[..|bs|] == bs;
    BusyShrinks(refs, Released(refs, held, bs[..k]));
  }

  /** The logged blocks as the cache has them. */
  ghost function Cached(contents: seq<Block>, bs: seq<nat>): (data: seq<Block>)
    requires forall i :: 0 <= i < |bs| ==> bs[i] < |contents|
    ensures |data| == |bs|
  {
    seq(|bs|, i requires 0 <= i < |bs| => contents[bs[i]])
  }

  lemma LogStep(l: Layout, d: Image, data: seq<Block>, k: nat)
    requires k < |data|
    ensures LogWrites(l, data)[..k + 1] == LogWrites(l, data)[..k] + [Write(l.start + 1 + k, data[k])]
    ensures Apply(d, LogWrites(l, data)[..k + 1]) == Put(Apply(d, LogWrites(l, data)[..k]), Write(l.start + 1 + k, data[k]))
  {
    var ws := LogWrites(l, data);
    assert ws[..k + 1] == ws[..k] + [ws[k]];
    ApplyOne(d, ws[..k], ws[k]);
  }

  lemma InstallStep(d: Image, bs: seq<nat>, data: seq<Block>, k: nat)
    requires |data| == |bs| && k < |bs|
    ensures InstallWrites(bs, data)[..k + 1] == InstallWrites(bs, data)[..k] + [Write(bs[k], data[k])]
    ensures Apply(d, InstallWrites(bs, data)[..k + 1]) == Put(Apply(d, InstallWrites(bs, data)[..k]), Write(bs[k], data[k]))
  {
    var ws := InstallWrites(bs, data);
    assert ws[..k + 1] == ws[..k] + [ws[k]];
    ApplyOne(d, ws[..k], ws[k]);
  }

  lemma HomeSurvivesLogging(l: Layout, d: Image, data: seq<Block>, k: nat, b: nat)
    requires k <= |data| < l.size && b < |d| && !l.InLog(b)
    ensures Apply(d, LogWrites(l, data)[..k])[b] == d[b]
  {
    ApplyUntouched(d, LogWrites(l, data)[..k], b);
  }

  lemma BusyShrinks(refs: seq<nat>, refs': seq<nat>)
    requires |refs'| == |refs| && forall b :: 0 <= b < |refs| ==> refs'[b] <= refs[b]
    ensures |Busy(refs')| <= |Busy(refs)|
  {
    SubsetSize(Busy(refs'), Busy(refs));
  }

  lemma BusyGrows(refs: seq<nat>, b: nat)
    requires b < |refs|
    ensures |Busy(refs[b := refs[b] + 1])| <= |Busy(refs)| + 1
  {
    var refs' := refs[b := refs[b] + 1];
    assert Busy(refs') == Busy(refs) + {b};
  }

  lemma {:induction false} ApplyAgrees(c: Image, d: Image, ws: seq<Write>, b: nat)
    requires |c| == |d| && b < |d| && c[b] == d[b]
    ensures Apply(c, ws)[b] == Apply(d, ws)[b]
  {
    if ws != [] {
      ApplyAgrees(c, d, ws[..|ws| - 1], b);
    }
  }

  /** The log area reads the same in two images. */
  ghost predicate LogAgrees(l: Layout, c: Image, d: Image) {
    |c| == |d| == l.blocks && forall b :: 0 <= b < l.blocks && l.InLog(b) ==> c[b] == d[b]
  }

  lemma LogAgreesAfter(l: Layout, c: Image, d: Image, ws: seq<Write>)
    requires LogAgrees(l, c, d)
    ensures LogAgrees(l, Apply(c, ws), Apply(d, ws))
  {
    forall b | 0 <= b < l.blocks && l.InLog(b) ensures Apply(c, ws)[b] == Apply(d, ws)[b] {
      ApplyAgrees(c, d, ws, b);
    }
  }

  lemma PutAgrees(l: Layout, c: Image, d: Image, w: Write)
    requires LogAgrees(l, c, d)
    ensures LogAgrees(l, Put(c, w), Put(d, w))
    ensures w.block < l.blocks ==> Put(c, w)[w.block] == w.data
  {
  }

  /** An image after write_log, then after the header write, then after install_trans, then after the
      header has been erased. */
  ghost function Stage(l: Layout, d: Image, bs: seq<nat>, data: seq<Block>, h: Block, k: nat): (r: Image)
    requires |data| == |bs| <= LOGSIZE < |h.words|
    ensures |r| == |d|
    decreases k
  {
    if k == 0 then d
    else if k == 1 then Apply(d, LogWrites(l, data))
    else if k == 2 then Put(Stage(l, d, bs, data, h, 1), Write(l.start, WithEntries(h, bs)))
    else if k == 3 then Apply(Stage(l, d, bs, data, h, 2), InstallWrites(bs, data))
    else Put(Stage(l, d, bs, data, h, 3), Write(l.start, WithEntries(WithEntries(h, bs), [])))
  }

  lemma StageHeader(l: Layout, d: Image, bs: seq<nat>, data: seq<Block>)
    requires l.Ok() && |d| == l.blocks && Loggable(l, bs) && |data| == |bs| && LOGSIZE < |d[l.start].words|
    ensures var h := d[l.start];
            && Stage(l, d, bs, data, h, 1)[l.start] == h
            && Stage(l, d, bs, data, h, 3)[l.start] == WithEntries(h, bs)
  {
    hide Apply, Distinct, WithEntries;
    var h := d[l.start];
    ApplyUntouched(d, LogWrites(l, data), l.start);
    ApplyUntouched(Stage(l, d, bs, data, h, 2), InstallWrites(bs, data), l.start);
  }

  lemma StageLog(l: Layout, d: Image, bs: seq<nat>, data: seq<Block>)
    requires l.Ok() && |d| == l.blocks && Loggable(l, bs) && |data| == |bs| && LOGSIZE < |d[l.start].words|
    ensures LogData(l, Stage(l, d, bs, data, d[l.start], 2), |bs|) == data
  {
    hide Stage, LogWrites, Loggable;
    LoggableFits(l, bs);
    forall i | 0 <= i < |bs| ensures LogData(l, Stage(l, d, bs, data, d[l.start], 2), |bs|)[i] == data[i] {
      StageLogAt(l, d, bs, data, i);
    }
  }

  lemma LoggableFits(l: Layout, bs: seq<nat>)
    requires Loggable(l, bs)
    ensures |bs| < l.size && |bs| <= LOGSIZE
  {
    hide Distinct;
  }

  lemma StageLogAt(l: Layout, d: Image, bs: seq<nat>, data: seq<Block>, i: nat)
    requires l.Ok() && |d| == l.blocks && Loggable(l, bs) && |data| == |bs| && LOGSIZE < |d[l.start].words| && i < |bs|
    ensures l.start + 1 + i < |d| && Stage(l, d, bs, data, d[l.start], 2)[l.start + 1 + i] == data[i]
  {
    hide Apply, Distinct, InstallWrites, WithEntries;
    ApplyLast(d, LogWrites(l, data), i);
  }

  lemma StagesAreCommit(l: Layout, d: Image, c: Image, bs: seq<nat>, data: seq<Block>)
    requires Recoverable(l, d) && Loggable(l, bs) && |data| == |bs|
    ensures Stage(l, c, bs, data, d[l.start], 4) == Apply(c, CommitWrites(l, d, bs, data))
  {
    hide Apply, Put, Distinct, LogWrites, InstallWrites, Entries;
    var h := d[l.start];
    var w1, w2 := Write(l.start, WithEntries(h, bs)), Write(l.start, WithEntries(WithEntries(h, bs), []));
    var lw, iw := LogWrites(l, data), InstallWrites(bs, data);
    ApplyOne(c, lw, w1);
    ApplyAppend(c, lw + [w1], iw);
    ApplyOne(c, lw + [w1] + iw, w2);
  }

  /** What commit leaves in a home block of an image whose header block is like d's. */
  lemma CommitHome(l: Layout, d: Image, c: Image, bs: seq<nat>, data: seq<Block>, b: nat)
    requires Recoverable(l, d) && Loggable(l, bs) && |data| == |bs|
    requires |c| == l.blocks && b < l.blocks && !l.InLog(b)
    ensures Apply(c, CommitWrites(l, d, bs, data))[b] == Updated(c, bs, data, b)
  {
    hide CommitWrites, Apply, InstallWrites, Entries;
    StagesAreCommit(l, d, c, bs, data);
    InstallPrefix(Stage(l, c, bs, data, d[l.start], 2), bs, data, |bs|, b);
    assert InstallWrites(bs, data)[..|bs|] == InstallWrites(bs, data);
    ApplyUntouched(c, LogWrites(l, data), b);
  }

  /** What log_write asks of the protocol's state and does to the part of it that the log keeps. */
  lemma LogWriteStep(size: nat, s: LogProtocol.State, k: nat, b: nat)
    requires LogProtocol.Step(size, s, LogProtocol.LogWrite(k, b)).Next?
    ensures |s.lh| < LOGSIZE && |s.lh| < size - 1
    ensures var t := LogProtocol.Step(size, s, LogProtocol.LogWrite(k, b)).state;
            && t.lh == (if b in s.lh then s.lh else s.lh + [b])
            && |t.active| == |s.active| && t.committing == s.committing
  {
  }

  /** What storing a block's number at the index found for it does to the list. */
  lemma EntryAt(block: seq<nat>, n: nat, i: nat, b: nat)
    requires i <= n && n < |block| && (i < n ==> block[i] == b)
    ensures i == n ==> block[i := b][..n + 1] == block[..n] + [b]
    ensures i < n ==> block[i := b][..n] == block[..n]
    ensures i < n ==> b in block[..n]
  {
  }

  ghost predicate Pins(refs: seq<nat>, held: set<nat>, bs: seq<nat>) {
    forall b :: b in bs ==> b < |refs| && refs[b] >= if b in held then 2 else 1
  }

  ghost predicate Saves(contents: seq<Block>, image: Image, held: set<nat>, bs: seq<nat>)
    requires |contents| == |image|
  {
    forall b :: 0 <= b < |image| && b !in bs && b !in held ==> contents[b] == image[b]
  }

  lemma SavesLogged(contents: seq<Block>, image: Image, held: set<nat>, bs: seq<nat>, b: nat)
    requires |contents| == |image| && Saves(contents, image, held, bs)
    ensures Saves(contents, image, held, bs + [b])
  {
  }

  lemma PinsAt(refs: seq<nat>, held: set<nat>, bs: seq<nat>, k: nat)
    requires Pins(refs, held, bs) && k < |bs|
    ensures bs[k] < |refs| && refs[bs[k]] >= if bs[k] in held then 2 else 1
  {
    assert bs[k] in bs;
  }

  lemma OthersHeld(held: set<nat>, bs: seq<nat>)
    ensures forall b :: b in Others(held, bs) ==> b in held
  {
  }

  lemma PinsTaken(refs: seq<nat>, held: set<nat>, bs: seq<nat>, b: nat)
    requires Pins(refs, held, bs) && b < |refs| && b !in held
    ensures Pins(refs[b := refs[b] + 1], held + {b}, bs)
  {
  }

  lemma PinsReleased(refs: seq<nat>, held: set<nat>, bs: seq<nat>, b: nat)
    requires Pins(refs, held, bs) && b < |refs| && b in held && refs[b] >= 1
    ensures Pins(refs[b := refs[b] - 1], held - {b}, bs) && (b in bs ==> refs[b] >= 2)
  {
  }

  lemma PinsLogged(refs: seq<nat>, held: set<nat>, bs: seq<nat>, b: nat)
    requires Pins(refs, held, bs) && b < |refs| && b in held && refs[b] >= 1
    ensures Pins(refs[b := refs[b] + 1], held, bs + [b])
  {
  }

  /** Both buffers were read and released, and one perhaps unpinned. */
  lemma RefsBack(refs: seq<nat>, now: seq<nat>, from: nat, to: nat, pins: nat)
    requires |now| == |refs| && from < |refs| && to < |refs| && from != to && pins <= refs[to]
    requires now[from] == refs[from] && now[to] == refs[to] - pins
    requires forall b :: 0 <= b < |refs| && b != from && b != to ==> now[b] == refs[b]
    ensures now == refs[to := refs[to] - pins]
  {
  }

  class Log {
    const cache: Cache
    const layout: Layout

    var n: nat
    var block: seq<nat>
    var outstanding: nat
    var committing: bool

    /** The shape every routine relies on: the logged blocks may be logged together. */
    ghost predicate Shape()
      reads this, cache, cache.disk
    {
      && cache.Settled() && layout.Ok() && |cache.disk.image| == layout.blocks
      && |block| == LOGSIZE && n <= LOGSIZE && Loggable(layout, block[..n])
    }

    /** No one holds a buffer of a logged block. */
    ghost predicate Idle()
      reads this, cache
      requires n <= |block|
    {
      forall b :: b in cache.held ==> b !in block[..n]
    }

    /** No one holds a buffer of the log area, and the cached log area is clean. */
    ghost predicate Quiet()
      reads this, cache, cache.disk
      requires Shape()
    {
      && (forall b :: b in cache.held ==> !layout.InLog(b))
      && (forall b :: 0 <= b < layout.blocks && layout.InLog(b) ==> cache.contents[b] == cache.disk.image[b])
      && LOGSIZE < |cache.contents[layout.start].words|
    }

    /** Every logged block is pinned in the cache: it has a reference besides that of whoever holds it. */
    ghost predicate Pinned()
      reads this, cache, cache.disk
      requires Shape()
    {
      Pins(cache.refs, cache.held, block[..n])
    }

    constructor (c: Cache, l: Layout)
      ensures cache == c && layout == l && n == 0 && |block| == LOGSIZE && outstanding == 0 && !committing
    {
      cache, layout := c, l;
      n, outstanding, committing := 0, 0, false;
      block := seq(LOGSIZE, _ => 0);
    }

    /** One turn of the loop in install_trans: log block `from` to home block `to`, straight to disk. */
    method InstallOne(from: nat, to: nat, recovering: bool)
      requires cache.Settled() && from < |cache.disk.image| && to < |cache.disk.image| && from != to
      requires from !in cache.held && to !in cache.held
      requires cache.contents[from] == cache.disk.image[from]
      requires |Busy(cache.refs)| < LruList.NBUF
      requires if recovering then |Busy(cache.refs)| + 1 < LruList.NBUF else cache.refs[to] != 0
      modifies cache, cache.disk
      ensures cache.Settled()
      ensures cache.contents == Put(old(cache.contents), Write(to, old(cache.contents)[from]))
      ensures cache.disk.image == Put(old(cache.disk.image), Write(to, old(cache.contents)[from]))
      ensures cache.disk.writes == old(cache.disk.writes) + [Write(to, old(cache.contents)[from])]
      ensures cache.held == old(cache.held)
      ensures cache.refs == if recovering then old(cache.refs) else old(cache.refs)[to := old(cache.refs)[to] - 1]
    {
      hide Cache.Settled, Cache.Valid, Busy;
      ghost var refs0 := cache.refs;
      var lbuf := cache.Bread(cache.device, from);
      BusyGrows(refs0, from);
      var dbuf := cache.Bread(cache.device, to);
      cache.Store(dbuf, cache.bufs[lbuf].data);
      cache.Bwrite(dbuf);
      if !recovering {
        cache.Bunpin(dbuf);
      }
      cache.Brelse(lbuf);
      cache.Brelse(dbuf);
      RefsBack(refs0, cache.refs, from, to, if recovering then 0 else 1);
    }

    /** One turn of the loop in write_log: cached block `from`, once its holder has released it, to log block `to`. */
    method LogOne(from: nat, to: nat)
      requires cache.Settled() && from < |cache.disk.image| && to < |cache.disk.image| && from != to && to !in cache.held
      requires |Busy(cache.refs)| < LruList.NBUF && cache.refs[from] >= if from in cache.held then 2 else 1
      modifies cache, cache.disk
      ensures cache.Settled()
      ensures cache.contents == Put(old(cache.contents), Write(to, old(cache.contents)[from]))
      ensures cache.disk.image == Put(old(cache.disk.image), Write(to, old(cache.contents)[from]))
      ensures cache.disk.writes == old(cache.disk.writes) + [Write(to, old(cache.contents)[from])]
      ensures cache.held == old(cache.held) - {from}
      ensures cache.refs == if from in old(cache.held) then old(cache.refs)[from := old(cache.refs)[from] - 1] else old(cache.refs)
    {
      hide Cache.Settled, Cache.Valid, Busy;
      var tbuf := cache.Bread(cache.device, to);
      cache.Await(from);
      var fbuf := cache.Bread(cache.device, from);
      cache.Store(tbuf, cache.bufs[fbuf].data);
      cache.Bwrite(tbuf);
      cache.Brelse(fbuf);
      cache.Brelse(tbuf);
    }

    /** Copy the logged blocks, as cached, into the log area. */
    method WriteLog()
      requires Shape() && Quiet() && Pinned() && |Busy(cache.refs)| < LruList.NBUF
      modifies cache, cache.disk
      ensures Shape()
      ensures var data := Cached(old(cache.contents), block[..n]);
              && cache.disk.image == Apply(old(cache.disk.image), LogWrites(layout, data))
              && cache.contents == Apply(old(cache.contents), LogWrites(layout, data))
              && cache.disk.writes == old(cache.disk.writes) + LogWrites(layout, data)
      ensures cache.held == Others(old(cache.held), block[..n]) && cache.refs == Released(old(cache.refs), old(cache.held), block[..n])
    {
      hide Cache.Settled, Cache.Valid, Busy, Apply, Put, LogWrites, Distinct, Released, Others, Pins;
      ghost var data := Cached(old(cache.contents), block[..n]);
      ghost var bs, refs, held := block[..n], cache.refs, cache.held;
      assert bs[..0] == [];
      ReleasedNone(refs, held);
      ghost var ws := LogWrites(layout, data);
      ApplyNone(cache.disk.image, ws);
      ApplyNone(cache.contents, ws);
      var tail := 0;
      while tail < n
        invariant tail <= n && cache.Settled()
        invariant cache.disk.image == Apply(old(cache.disk.image), ws[..tail])
        invariant cache.contents == Apply(old(cache.contents), ws[..tail])
        invariant cache.disk.writes == old(cache.disk.writes) + ws[..tail]
        invariant cache.held == Others(held, bs[..tail]) && cache.refs == Released(refs, held, bs[..tail])
      {
        ReleasedBusy(refs, held, bs, tail);
        ReleasedStep(refs, held, bs, tail);
        PinsAt(cache.refs, cache.held, bs, tail);
        OthersHeld(held, bs[..tail]);
        HomeSurvivesLogging(layout, old(cache.contents), data, tail, block[tail]);
        LogStep(layout, old(cache.disk.image), data, tail);
        LogStep(layout, old(cache.contents), data, tail);
        LogOne(block[tail], layout.start + 1 + tail);
        tail := tail + 1;
      }
      assert ws[..n] == ws && bs[..n] == bs;
    }

    /** Copy the log blocks to the logged blocks' home locations. */
    method InstallTrans(recovering: bool)
      requires Shape() && Quiet() && Idle()
      requires if recovering then |Busy(cache.refs)| + 1 < LruList.NBUF else Pinned() && |Busy(cache.refs)| < LruList.NBUF
      modifies cache, cache.disk
      ensures Shape()
      ensures var ws := InstallWrites(block[..n], LogData(layout, old(cache.contents), n));
              && cache.disk.image == Apply(old(cache.disk.image), ws)
              && cache.contents == Apply(old(cache.contents), ws)
              && cache.disk.writes == old(cache.disk.writes) + ws
      ensures cache.held == old(cache.held)
      ensures if recovering then cache.refs == old(cache.refs) else Unpinned(old(cache.refs), block[..n], n, cache.refs)
    {
      hide Cache.Settled, Cache.Valid, Busy, Apply, Put, InstallWrites, Distinct, Unpinned;
      ghost var data := LogData(layout, cache.contents, n);
      ghost var ws := InstallWrites(block[..n], data);
      ApplyNone(cache.disk.image, ws);
      ApplyNone(cache.contents, ws);
      UnpinNone(cache.refs, block[..n]);
      var tail := 0;
      while tail < n
        invariant tail <= n && cache.Settled()
        invariant cache.disk.image == Apply(old(cache.disk.image), ws[..tail])
        invariant cache.contents == Apply(old(cache.contents), ws[..tail])
        invariant cache.disk.writes == old(cache.disk.writes) + ws[..tail]
        invariant cache.held == old(cache.held)
        invariant if recovering then cache.refs == old(cache.refs)
                  else Unpinned(old(cache.refs), block[..n], tail, cache.refs)
      {
        ghost var from := layout.start + 1 + tail;
        InstallPrefix(old(cache.contents), block[..n], data, tail, from);
        InstallPrefix(old(cache.disk.image), block[..n], data, tail, from);
        if !recovering {
          UnpinShrinks(old(cache.refs), block[..n], tail, cache.refs);
          UnpinStep(old(cache.refs), block[..n], tail, cache.refs);
        }
        InstallOne(layout.start + 1 + tail, block[tail], recovering);
        InstallStep(old(cache.disk.image), block[..n], data, tail);
        InstallStep(old(cache.contents), block[..n], data, tail);
        tail := tail + 1;
      }
      assert ws[..n] == ws;
    }

    /** Write the in-memory header to disk: the count, and as many block numbers as it says. */
    method WriteHead()
      requires Shape() && layout.start !in cache.held && |Busy(cache.refs)| < LruList.NBUF
      requires LOGSIZE < |cache.contents[layout.start].words|
      modifies cache, cache.disk
      ensures Shape()
      ensures var w := Write(layout.start, WithEntries(old(cache.contents)[layout.start], block[..n]));
              && cache.disk.image == Put(old(cache.disk.image), w)
              && cache.contents == Put(old(cache.contents), w)
              && cache.disk.writes == old(cache.disk.writes) + [w]
      ensures cache.held == old(cache.held) && cache.refs == old(cache.refs)
    {
      hide Cache.Settled, Cache.Valid, Busy;
      var buf := cache.Bread(cache.device, layout.start);
      var hb := cache.bufs[buf].data.words;
      ghost var hb0 := hb;
      hb := hb[0 := n];
      var i := 0;
      while i < n
        invariant i <= n && hb == [n as int] + block[..i] + hb0[1 + i..]
      {
        hb := hb[1 + i := block[i]];
        i := i + 1;
      }
      cache.Store(buf, Block(hb));
      cache.Bwrite(buf);
      cache.Brelse(buf);
    }

    method ReadHead()
      requires cache.Settled() && |block| == LOGSIZE && layout.start < |cache.disk.image|
      requires HeaderOk(cache.contents[layout.start])
      requires layout.start !in cache.held && |Busy(cache.refs)| < LruList.NBUF
      requires cache.contents[layout.start] == cache.disk.image[layout.start]
      modifies this`n, this`block, cache
      ensures cache.Settled() && |block| == LOGSIZE && n <= LOGSIZE
      ensures cache.contents == old(cache.contents)
      ensures block[..n] == Entries(cache.contents[layout.start])
      ensures cache.held == old(cache.held) && cache.refs == old(cache.refs)
    {
      hide Cache.Settled, Cache.Valid, Busy;
      var buf := cache.Bread(cache.device, layout.start);
      var lh := cache.bufs[buf].data.words;
      n := lh[0];
      var i := 0;
      while i < n
        invariant i <= n && n == lh[0] && |block| == LOGSIZE
        invariant block[..i] == lh[1..1 + i]
        modifies this`block
      {
        assert lh[1..2 + i] == lh[1..1 + i] + [lh[1 + i]];
        block := block[i := lh[1 + i]];
        assert block[..i + 1] == block[..i] + [block[i]];
        i := i + 1;
      }
      cache.Brelse(buf);
    }

    /** What every step of every operation keeps: a block that differs from the disk is logged or held, a logged
        block is pinned, and the log on disk is empty. */
    ghost predicate Running()
      reads this, cache, cache.disk
    {
      && Shape() && Quiet() && Pinned()
      && Clean(layout, cache.disk.image)
      && Saved()
    }

    ghost predicate Saved()
      reads this, cache, cache.disk
      requires Shape()
    {
      Saves(cache.contents, cache.disk.image, cache.held, block[..n])
    }

    /** What a commit needs besides. */
    ghost predicate Ready()
      reads this, cache, cache.disk
    {
      Running() && Idle()
    }

    /** What a commit of a non-empty transaction does to the disk, the cache and the pins. */
    ghost predicate Committed(d: Image, c: seq<Block>, writes: seq<Write>, refs: seq<nat>, held: set<nat>, bs: seq<nat>)
      reads this, cache, cache.disk
      requires Recoverable(layout, d) && Loggable(layout, bs) && |c| == layout.blocks
    {
      var ws := CommitWrites(layout, d, bs, Cached(c, bs));
      && cache.disk.image == Apply(d, ws)
      && cache.contents == Apply(c, ws)
      && cache.disk.writes == writes + ws
      && cache.held == Others(held, bs) && Unpinned(Released(refs, held, bs), bs, |bs|, cache.refs)
    }

    method CommitLogged()
      requires Running() && 0 < n && |Busy(cache.refs)| < LruList.NBUF
      modifies this`n, cache, cache.disk
      ensures Shape() && n == 0
      ensures Committed(old(cache.disk.image), old(cache.contents), old(cache.disk.writes), old(cache.refs),
                        old(cache.held), old(block[..n]))
    {
      hide Cache.Settled, Cache.Valid, Busy, Apply, Put, LogWrites, InstallWrites, Distinct, Unpinned, HeaderOk, WithEntries, Entries, Cached,
           Released, Others, Pins, Saves;
      LoggableNone(layout);
      ghost var d, c, bs, refs, held := cache.disk.image, cache.contents, block[..n], cache.refs, cache.held;
      ghost var data := Cached(c, bs);
      StageHeader(layout, c, bs, data);
      StageLog(layout, c, bs, data);
      LogAgreesAfter(layout, c, d, LogWrites(layout, data));
      WriteLog();
      ghost var refs1 := cache.refs;
      ReleasedBusy(refs, held, bs, |bs|);
      OthersHeld(held, bs);
      assert bs[..|bs|] == bs;
      WriteHead();
      PutAgrees(layout, Stage(layout, c, bs, data, d[layout.start], 1), Stage(layout, d, bs, data, d[layout.start], 1),
                Write(layout.start, WithEntries(d[layout.start], bs)));
      InstallTrans(false);
      UnpinShrinks(refs1, bs, |bs|, cache.refs);
      n := 0;
      WriteHead();
      StagesAreCommit(layout, d, d, bs, data);
      StagesAreCommit(layout, d, c, bs, data);
    }

    /** commit(): log, commit point, install, erase. Afterwards the disk holds everything the cache did, and
        the log is empty; the writes are the ones CrashSafety.CommitCrash speaks of. */
    method Commit()
      requires Running() && |Busy(cache.refs)| < LruList.NBUF
      modifies this`n, cache, cache.disk
      ensures Ready() && n == 0
      ensures 0 < old(n) ==>
                Committed(old(cache.disk.image), old(cache.contents), old(cache.disk.writes), old(cache.refs),
                          old(cache.held), old(block[..n]))
      ensures old(n) == 0 ==> unchanged(cache) && unchanged(cache.disk)
      ensures forall b :: 0 <= b < layout.blocks && !layout.InLog(b) ==> cache.contents[b] == old(cache.contents)[b]
      ensures forall b :: 0 <= b < layout.blocks && !layout.InLog(b) && b !in cache.held ==>
                cache.disk.image[b] == cache.contents[b]
    {
      hide Cache.Settled, Cache.Valid, Busy, Apply, Put, Distinct, Unpinned, CommitWrites;
      LoggableNone(layout);
      if 0 < n {
        ghost var d, c, bs := cache.disk.image, cache.contents, block[..n];
        ghost var data := Cached(c, bs);
        CommitLogged();
        ghost var ws := CommitWrites(layout, d, bs, data);
        assert ws[..|ws|] == ws;
        CommitCrash(layout, d, bs, data, |ws|);
        LogAgreesAfter(layout, c, d, ws);
        forall b | 0 <= b < layout.blocks && !layout.InLog(b)
          ensures cache.contents[b] == c[b] && (b !in cache.held ==> cache.disk.image[b] == c[b])
        {
          CommitHome(layout, d, c, bs, data, b);
          CommitHome(layout, d, d, bs, data, b);
        }
      }
    }

    /** recover_from_log(), on a cold cache. */
    method RecoverFromLog()
      requires cache.Settled() && |block| == LOGSIZE && Recoverable(layout, cache.disk.image)
      requires cache.contents == cache.disk.image && cache.held == {} && |Busy(cache.refs)| + 1 < LruList.NBUF
      modifies this`n, this`block, cache, cache.disk
      ensures Ready() && n == 0
      ensures var ws := RecoveryWrites(layout, old(cache.disk.image));
              && cache.disk.image == Apply(old(cache.disk.image), ws)
              && cache.disk.writes == old(cache.disk.writes) + ws
      ensures cache.contents == cache.disk.image && cache.held == {} && cache.refs == old(cache.refs)
    {
      hide Cache.Settled, Cache.Valid, Busy, Apply, Put, InstallWrites, Distinct;
      LoggableNone(layout);
      ghost var d := cache.disk.image;
      ReadHead();
      InstallTrans(true);
      InstallKeepsRecoverable(layout, d, n);
      ghost var es := Entries(d[layout.start]);
      ghost var iw := InstallWrites(es, LogData(layout, d, |es|));
      assert RecoveryWrites(layout, d)[..n] == iw;
      n := 0;
      WriteHead();
      ApplyOne(d, iw, Write(layout.start, WithEntries(d[layout.start], [])));
      RecoveryCompletes(layout, d);
    }

    // ---- the critical sections of log.lock, as steps of module LogProtocol ----

    /** The protocol state s agrees with the fields. */
    ghost predicate Matches(s: LogProtocol.State)
      reads this
    {
      n <= |block| && s.lh == block[..n] && |s.active| == outstanding && s.committing == committing
    }

    /** begin_op(), up to the point where it either counts the operation in or goes to sleep. */
    method BeginOp(ghost s: LogProtocol.State) returns (admitted: bool)
      requires Matches(s)
      modifies this`outstanding
      ensures Running() <==> old(Running())
      ensures admitted <==> !committing && n + (old(outstanding) + 1) * MAXOPBLOCKS <= LOGSIZE
      ensures admitted <==> LogProtocol.Step(layout.size, s, LogProtocol.BeginOp).Next?
      ensures Matches(if admitted then LogProtocol.Step(layout.size, s, LogProtocol.BeginOp).state else s)
    {
      if committing {
        admitted := false;
      } else if n + (outstanding + 1) * MAXOPBLOCKS > LOGSIZE {
        admitted := false;
      } else {
        outstanding := outstanding + 1;
        admitted := true;
      }
    }

    /** log_write(): record the block, once per transaction, and pin its buffer. The caller is operation k. */
    method LogWrite(r: nat, ghost s: LogProtocol.State, ghost k: nat)
      requires Running() && r < LruList.NBUF && cache.Locked(r, cache.bufs[r].blockno)
      requires Matches(s) && LogProtocol.Step(layout.size, s, LogProtocol.LogWrite(k, cache.bufs[r].blockno)).Next?
      modifies this`n, this`block, cache
      ensures Running()
      ensures var b := old(cache.bufs)[r].blockno;
              && Matches(LogProtocol.Step(layout.size, s, LogProtocol.LogWrite(k, b)).state)
              && b in block[..n]
              && cache.Locked(r, b)
              && cache.refs == if b in s.lh then old(cache.refs) else old(cache.refs)[b := old(cache.refs)[b] + 1]
      ensures cache.contents == old(cache.contents) && cache.held == old(cache.held)
    {
      hide Shape, Running, LogProtocol.Step;
      LogWriteStep(layout.size, s, k, cache.bufs[r].blockno);
      Enter(r);
    }

    /** The part of log_write after its two tests. */
    method Enter(r: nat)
      requires Running() && r < LruList.NBUF && cache.Locked(r, cache.bufs[r].blockno)
      requires n < LOGSIZE && n < layout.size - 1
      modifies this`n, this`block, cache
      ensures Running() && n <= |block|
      ensures var b, bs := old(cache.bufs)[r].blockno, old(if n <= |block| then block[..n] else []);
              && b in block[..n] && block[..n] == (if b in bs then bs else bs + [b])
              && cache.Locked(r, b) && b < |old(cache.refs)|
              && cache.refs == if b in bs then old(cache.refs) else old(cache.refs)[b := old(cache.refs)[b] + 1]
      ensures cache.contents == old(cache.contents) && cache.held == old(cache.held)
    {
      hide Cache.Settled, Cache.Valid, Loggable, Pins, Saves, Clean;
      ghost var bs := block[..n];
      var b := cache.bufs[r].blockno;
      cache.LockedBounds(r);
      var i := IndexIn(b);
      EntryAt(block, n, i, b);
      if i == n {
        LoggableOneMore(layout, bs, b);
        PinsLogged(cache.refs, cache.held, bs, b);
        SavesLogged(cache.contents, cache.disk.image, cache.held, bs, b);
        block := block[i := b];
        cache.Bpin(r);
        n := n + 1;
      } else {
        block := block[i := b];
      }
    }

    /** log_write's search: where the block is logged already, or the end. */
    method IndexIn(b: nat) returns (i: nat)
      requires n <= |block|
      ensures i <= n && b !in block[..i] && (i < n ==> block[i] == b)
    {
      i := 0;
      while i < n && block[i] != b
        invariant i <= n && b !in block[..i]
      {
        i := i + 1;
      }
    }

    // ---- what an operation does with a block between begin_op and end_op ----

    /** bread(): what the block's last holder left. */
    method ReadBlock(b: nat) returns (r: nat)
      requires Running() && b < layout.blocks && !layout.InLog(b) && b !in cache.held
      requires cache.refs[b] != 0 || |Busy(cache.refs)| < LruList.NBUF
      modifies cache
      ensures Running() && r < LruList.NBUF && cache.Locked(r, b) && cache.bufs[r].valid && cache.bufs[r].data == old(cache.contents)[b]
      ensures cache.contents == old(cache.contents) && cache.held == old(cache.held) + {b}
      ensures cache.refs == old(cache.refs)[b := old(cache.refs)[b] + 1]
    {
      hide Cache.Settled, Cache.Valid, Busy, Loggable, Clean, Pins;
      PinsTaken(cache.refs, cache.held, block[..n], b);
      r := cache.Bread(cache.device, b);
    }

    /** The holder changes the data. */
    method StoreBlock(r: nat, data: Block)
      requires Running() && r < LruList.NBUF && cache.Locked(r, cache.bufs[r].blockno) && cache.bufs[r].valid
      modifies cache
      ensures Running() && cache.bufs == old(cache.bufs)[r := old(cache.bufs)[r].(data := data)]
      ensures cache.contents == old(cache.contents)[old(cache.bufs)[r].blockno := data]
      ensures cache.held == old(cache.held) && cache.refs == old(cache.refs)
    {
      hide Cache.Settled, Cache.Valid, Busy, Loggable, Clean, Pins;
      cache.LockedBounds(r);
      cache.Store(r, data);
    }

    /** bwrite(), past the log. */
    method WriteBlock(r: nat)
      requires Running() && r < LruList.NBUF && cache.Locked(r, cache.bufs[r].blockno) && cache.bufs[r].valid
      modifies cache.disk
      ensures Running() && cache.disk.image[cache.bufs[r].blockno] == cache.contents[cache.bufs[r].blockno]
      ensures cache.disk.writes == old(cache.disk.writes) + [Write(cache.bufs[r].blockno, cache.bufs[r].data)]
    {
      hide Cache.Settled, Cache.Valid, Busy, Loggable;
      cache.LockedBounds(r);
      cache.Bwrite(r);
    }

    /** brelse(): the one thing an operation owes is that a block it changed is logged, or written, by now. */
    method ReleaseBlock(r: nat)
      requires Running() && r < LruList.NBUF && cache.Locked(r, cache.bufs[r].blockno)
      modifies cache
      ensures var b := old(cache.bufs)[r].blockno;
              && b < |cache.contents| == |cache.disk.image| && n <= |block|
              && (Running() <==> b in block[..n] || cache.contents[b] == cache.disk.image[b])
              && cache.held == old(cache.held) - {b} && cache.refs == old(cache.refs)[b := old(cache.refs)[b] - 1]
      ensures cache.contents == old(cache.contents)
    {
      hide Cache.Settled, Cache.Valid, Busy, Loggable, Clean, Pins;
      cache.LockedBounds(r);
      PinsReleased(cache.refs, cache.held, block[..n], cache.bufs[r].blockno);
      cache.Brelse(r);
    }

    /** What operations do with a block, from bread() to brelse(): the change is what later reads return, and if a commit
        could start before it still can. */
    method UpdateBlock(b: nat, data: Block, ghost s: LogProtocol.State, ghost k: nat)
      requires Running() && b < layout.blocks && !layout.InLog(b) && b !in cache.held
      requires cache.refs[b] != 0 || |Busy(cache.refs)| < LruList.NBUF
      requires Matches(s) && LogProtocol.Step(layout.size, s, LogProtocol.LogWrite(k, b)).Next?
      modifies this`n, this`block, cache
      ensures Running() && (old(Ready()) ==> Ready())
      ensures Matches(LogProtocol.Step(layout.size, s, LogProtocol.LogWrite(k, b)).state) && b in block[..n]
      ensures cache.contents == old(cache.contents)[b := data] && cache.held == old(cache.held)
    {
      hide Cache.Settled, Cache.Valid, Shape, Quiet, Saved, Pinned, Clean, Busy, LogProtocol.Step;
      LogWriteStep(layout.size, s, k, b);
      var r := ReadBlock(b);
      StoreBlock(r, data);
      LogWrite(r, s, k);
      ReleaseBlock(r);
      assert cache.held == old(cache.held);
    }

    /** With no block referenced but the logged ones, bget has a buffer for commit exactly when fewer than NBUF are
        logged. The cache and the log have the same nominal size, so it is the test against log.size - 1 in log_write
        that leaves a buffer over. */
    lemma RoomToCommit()
      requires Shape() && forall b: nat :: b < |cache.refs| && cache.refs[b] != 0 <==> b in block[..n]
      ensures (exists i :: 0 <= i < LruList.NBUF && cache.bufs[i].refcnt == 0) <==> n < LruList.NBUF
      ensures layout.size <= LruList.NBUF ==> n < LruList.NBUF
    {
      RoomForOne(cache.bufs, cache.device, cache.disk.image, cache.contents, cache.refs, cache.held);
      assert Busy(cache.refs) == LruList.Elements(block[..n]);
      LruList.ElementCount(block[..n]);
    }

    /** end_op(): the last operation to end commits for all of them. */
    method EndOp(ghost s: LogProtocol.State, ghost k: nat)
      requires Matches(s) && LogProtocol.Step(layout.size, s, LogProtocol.EndOp(k)).Next?
      requires Running() && (outstanding == 1 ==> |Busy(cache.refs)| < LruList.NBUF)
      modifies this, cache, cache.disk
      ensures Running()
      ensures var s1 := LogProtocol.Step(layout.size, s, LogProtocol.EndOp(k)).state;
              if s1.committing
              then Matches(LogProtocol.Step(layout.size, s1, LogProtocol.CommitEnds).state)
              else Matches(s1) && unchanged(cache) && unchanged(cache.disk)
      ensures 0 < old(n) && outstanding == 0 ==>
                Committed(old(cache.disk.image), old(cache.contents), old(cache.disk.writes), old(cache.refs),
                          old(cache.held), old(block[..n]))
    {
      hide Cache.Settled, Cache.Valid, Busy, Clean, Loggable, CommitWrites, Unpinned;
      outstanding := outstanding - 1;
      if outstanding == 0 {
        committing := true;
        Commit();
        committing := false;
      }
    }
  }

}
