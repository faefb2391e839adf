/** The doubly linked list that keeps the buffers in order of last use (kernel/bio.c). */
module LruList {
  import opened Collections

  const NBUF: nat := 30

  /** The list head is a buffer of its own, after the NBUF real ones. */
  const HEAD: nat := NBUF

  /** Position i of the ring that starts and ends at the head. */
  function At(order: seq<nat>, i: nat): (b: nat)
    requires i <= |order| + 1
  {
    if 1 <= i <= |order| then order[i - 1] else HEAD
  }

  /** The pointers link the head and `order`, most recently used first, into one ring both ways. */
  ghost predicate Linked(next: seq<nat>, prev: seq<nat>, order: seq<nat>) {
    && |next| == |prev| == NBUF + 1
    && Distinct(order)
    && (forall i :: 0 <= i < |order| ==> order[i] < NBUF)
    && (forall i: nat :: i <= |order| ==> Link(next, prev, order, i))
  }

  /** Positions i and i + 1 of the ring point at each other. */
  ghost predicate Link(next: seq<nat>, prev: seq<nat>, order: seq<nat>, i: nat)
    requires |next| == |prev| == NBUF + 1 && i <= |order|
    requires forall i :: 0 <= i < |order| ==> order[i] < NBUF
  {
    next[At(order, i)] == At(order, i + 1) && prev[At(order, i + 1)] == At(order, i)
  }

  function Without(order: seq<nat>, k: nat): (r: seq<nat>)
    requires k < |order|
  {
    order[..k] + order[k + 1..]
  }

  lemma WithoutIsDistinct(order: seq<nat>, k: nat)
    requires Distinct(order) && k < |order|
    ensures Distinct(Without(order, k)) && order[k] !in Without(order, k)
  {
  }

  ghost function Elements(order: seq<nat>): (s: set<nat>) {
    set x | x in order
  }

  lemma {:induction false} ElementCount(order: seq<nat>)
    requires Distinct(order)
    ensures |Elements(order)| == |order|
  {
    if order == [] {
      assert Elements(order) == {};
    } else {
      var o, x := order[..|order| - 1], order[|order| - 1];
      ElementCount(o);
      assert x !in Elements(o);
      assert Elements(order) == Elements(o) + {x} by {
        assert order == o + [x];
      }
    }
  }

  lemma {:induction false} SubsetOfRange(s: set<nat>, n: nat)
    requires forall x :: x in s ==> x < n
    ensures |s| <= n
    decreases n
  {
    if n != 0 {
      SubsetOfRange(s - {n - 1}, n - 1);
      assert s <= (s - {n - 1}) + {n - 1};
      assert n - 1 in s ==> |s| == |s - {n - 1}| + 1;
      assert n - 1 !in s ==> s - {n - 1} == s;
    }
  }

  /** NBUF distinct buffers are all of them. */
  lemma Covers(order: seq<nat>, b: nat)
    requires Distinct(order) && (forall i :: 0 <= i < |order| ==> order[i] < |order|)
    requires b < |order|
    ensures b in order
  {
    if b !in order {
      ElementCount(order);
      assert b !in Elements(order);
      SubsetOfRange(Elements(order) + {b}, |order|);
    }
  }

  lemma Unlink(next: seq<nat>, prev: seq<nat>, order: seq<nat>, k: nat)
    requires Linked(next, prev, order) && k < |order|
    ensures next[order[k]] <= NBUF && prev[order[k]] <= NBUF
    ensures var b := order[k];
            Linked(next[prev[b] := next[b]], prev[next[b] := prev[b]], Without(order, k))
  {
    var b := order[k];
    assert At(order, k + 1) == b;
    assert Link(next, prev, order, k) && Link(next, prev, order, k + 1);
    var next', prev', o := next[prev[b] := next[b]], prev[next[b] := prev[b]], Without(order, k);
    WithoutIsDistinct(order, k);
    forall i: nat | i <= |o|
      ensures Link(next', prev', o, i)
    {
      UnlinkAt(next, prev, order, k, i);
    }
  }

  lemma AtWithout(order: seq<nat>, k: nat, i: nat)
    requires k < |order| && i <= |order|
    ensures At(Without(order, k), i) == At(order, if i <= k then i else i + 1)
  {
  }

  lemma AtInjective(next: seq<nat>, prev: seq<nat>, order: seq<nat>, i: nat, j: nat)
    requires Linked(next, prev, order) && i < j <= |order|
    ensures At(order, i) != At(order, j)
    ensures At(order, i + 1) != At(order, j + 1)
  {
  }

  lemma UnlinkAt(next: seq<nat>, prev: seq<nat>, order: seq<nat>, k: nat, i: nat)
    requires Linked(next, prev, order) && k < |order| && i < |order|
    requires next[order[k]] == At(order, k + 2) && prev[order[k]] == At(order, k)
    ensures Link(next[prev[order[k]] := next[order[k]]], prev[next[order[k]] := prev[order[k]]], Without(order, k), i)
  {
    AtWithout(order, k, i);
    AtWithout(order, k, i + 1);
    if i < k {
      assert Link(next, prev, order, i);
      AtInjective(next, prev, order, i, k);
      AtInjective(next, prev, order, i, k + 1);
    } else if k < i {
      assert Link(next, prev, order, i + 1);
      AtInjective(next, prev, order, k, i + 1);
      AtInjective(next, prev, order, k + 1, i + 1);
    }
  }

  lemma PushFront(next: seq<nat>, prev: seq<nat>, order: seq<nat>, b: nat)
    requires Linked(next, prev, order) && b < NBUF && b !in order
    ensures next[HEAD] <= NBUF
    ensures Linked(next[b := next[HEAD]][HEAD := b], prev[b := HEAD][next[HEAD] := b], [b] + order)
  {
    assert At(order, 0) == HEAD && Link(next, prev, order, 0);
    var next', prev', o := next[b := next[HEAD]][HEAD := b], prev[b := HEAD][next[HEAD] := b], [b] + order;
    forall i: nat | i <= |o|
      ensures Link(next', prev', o, i)
    {
      if 1 <= i {
        assert Link(next, prev, order, i - 1);
      }
    }
  }
}

/** The buffer cache of kernel/bio.c.

    Clients see one block store: `contents` is what a read of each block returns, `refs` how many
    references each block's buffer carries, `held` which blocks are locked. There is one device (the
    driver ignores b->dev), so a buffer is either untouched since boot (dev 0) or holds a block of it.
    Sleeping for a buffer lock is not modelled: a caller of Bget arrives once the lock is free. */
module BufferCache {
  import opened BlockDevice
  import opened Collections
  import opened LruList

  datatype Buf = Buf(dev: nat, blockno: nat, valid: bool, refcnt: nat, locked: bool, data: Block)

  ghost predicate Holds(bufs: seq<Buf>, i: nat, b: nat) {
    i < |bufs| && bufs[i].dev != 0 && bufs[i].blockno == b
  }

  /** What each buffer says about the block it holds. */
  ghost predicate BufOk(x: Buf, device: nat, image: Image, contents: seq<Block>, refs: seq<nat>, held: set<nat>)
    requires |contents| == |refs| == |image|
  {
    if x.dev == 0 then !x.valid && x.refcnt == 0 && !x.locked
    else
      && x.dev == device && x.blockno < |image|
      && refs[x.blockno] == x.refcnt
      && (x.locked <==> x.blockno in held)
      && (x.locked ==> 1 <= x.refcnt)
      && (x.valid ==> x.data == contents[x.blockno])
      && (!x.valid ==> contents[x.blockno] == image[x.blockno])
  }

  /** At most one buffer per block; a block without a buffer is unreferenced and as on disk. */
  ghost predicate Coherent(bufs: seq<Buf>, device: nat, image: Image,
                           contents: seq<Block>, refs: seq<nat>, held: set<nat>)
  {
    && |contents| == |refs| == |image|
    && (forall i :: 0 <= i < |bufs| ==> BufOk(bufs[i], device, image, contents, refs, held))
    && (forall i, j :: 0 <= i < j < |bufs| && bufs[i].dev != 0 && bufs[j].dev != 0 ==>
          bufs[i].blockno != bufs[j].blockno)
    && (forall b: nat :: b < |image| && (refs[b] != 0 || contents[b] != image[b]) ==>
          exists i: nat :: Holds(bufs, i, b))
    && (forall b :: b in held ==> b < |image| && refs[b] != 0)
  }

  ghost function Busy(refs: seq<nat>): (s: set<nat>) {
    set b | 0 <= b < |refs| && refs[b] != 0
  }

  lemma {:induction false} DistinctBlocks(bufs: seq<Buf>, refs: seq<nat>, n: nat, s: set<nat>)
    requires n <= |bufs| && s <= Busy(refs)
    requires forall i :: 0 <= i < n ==> bufs[i].blockno < |refs| && refs[bufs[i].blockno] != 0 && bufs[i].blockno !in s
    requires forall i, j :: 0 <= i < j < n ==> bufs[i].blockno != bufs[j].blockno
    ensures n + |s| <= |Busy(refs)|
    decreases n
  {
    if n > 0 {
      DistinctBlocks(bufs, refs, n - 1, s + {bufs[n - 1].blockno});
    } else {
      SubsetSize(s, Busy(refs));
    }
  }

  /** "bget: no buffers" is reached exactly when as many blocks are referenced as there are buffers. */
  lemma RoomForOne(bufs: seq<Buf>, device: nat, image: Image, contents: seq<Block>, refs: seq<nat>, held: set<nat>)
    requires Coherent(bufs, device, image, contents, refs, held)
    ensures |Busy(refs)| < |bufs| <==> exists i :: 0 <= i < |bufs| && bufs[i].refcnt == 0
  {
    if forall i :: 0 <= i < |bufs| ==> bufs[i].refcnt != 0 {
      DistinctBlocks(bufs, refs, |bufs|, {});
    } else {
      var k :| 0 <= k < |bufs| && bufs[k].refcnt == 0;
      forall b | b in Busy(refs) ensures b in Numbers(bufs[..k] + bufs[k + 1..]) {
        var i: nat :| Holds(bufs, i, b);
        assert BufOk(bufs[i], device, image, contents, refs, held) && i != k;
        assert bufs[i] == (bufs[..k] + bufs[k + 1..])[if i < k then i else i - 1];
      }
      NumbersSize(bufs[..k] + bufs[k + 1..]);
      SubsetSize(Busy(refs), Numbers(bufs[..k] + bufs[k + 1..]));
    }
  }

  ghost function Numbers(bufs: seq<Buf>): (s: set<nat>) {
    set i | 0 <= i < |bufs| :: bufs[i].blockno
  }

  lemma {:induction false} NumbersSize(bufs: seq<Buf>)
    ensures |Numbers(bufs)| <= |bufs|
  {
    if bufs != [] {
      var n := |bufs| - 1;
      NumbersSize(bufs[..n]);
      assert Numbers(bufs) == Numbers(bufs[..n]) + {bufs[n].blockno};
    }
  }

  /** Buffers are for the one device or none, are locked only while their block is held, and hold every referenced block. */
  lemma Devices(bufs: seq<Buf>, device: nat, image: Image, contents: seq<Block>, refs: seq<nat>, held: set<nat>, b: nat)
    requires Coherent(bufs, device, image, contents, refs, held) && b < |image|
    ensures |contents| == |refs| == |image| && forall i :: 0 <= i < |bufs| ==> bufs[i].dev == 0 || bufs[i].dev == device
    ensures forall i: nat {:trigger bufs[i]} :: i < |bufs| && (bufs[i].refcnt == 0 || (Holds(bufs, i, b) && b !in held)) ==> !bufs[i].locked
    ensures (forall i: nat :: !Holds(bufs, i, b)) ==> refs[b] == 0
  {
    forall i: nat {:trigger bufs[i]} | i < |bufs| && (bufs[i].refcnt == 0 || (Holds(bufs, i, b) && b !in held)) ensures !bufs[i].locked {
      assert BufOk(bufs[i], device, image, contents, refs, held);
    }
  }

  // What each change of one buffer does to the block store.

  lemma HitCoherent(bufs: seq<Buf>, device: nat, image: Image, contents: seq<Block>, refs: seq<nat>, held: set<nat>,
                    r: nat)
    requires Coherent(bufs, device, image, contents, refs, held)
    requires r < |bufs| && Holds(bufs, r, bufs[r].blockno)
    ensures var b := bufs[r].blockno;
            Coherent(bufs[r := bufs[r].(refcnt := bufs[r].refcnt + 1, locked := true)], device, image, contents,
                     refs[b := refs[b] + 1], held + {b})
  {
    var b := bufs[r].blockno;
    var bufs' := bufs[r := bufs[r].(refcnt := bufs[r].refcnt + 1, locked := true)];
    assert forall i: nat, c: nat :: Holds(bufs, i, c) ==> Holds(bufs', i, c);
  }

  lemma RecycleCoherent(bufs: seq<Buf>, device: nat, image: Image, contents: seq<Block>, refs: seq<nat>, held: set<nat>,
                        r: nat, b: nat)
    requires Coherent(bufs, device, image, contents, refs, held) && device != 0
    requires r < |bufs| && bufs[r].refcnt == 0 && b < |image|
    requires forall i: nat :: !Holds(bufs, i, b)
    ensures Coherent(bufs[r := Buf(device, b, false, 1, true, bufs[r].data)], device, image, Evicted(contents, image, bufs[r]),
                     refs[b := refs[b] + 1], held + {b})
  {
    var bufs', contents' := bufs[r := Buf(device, b, false, 1, true, bufs[r].data)], Evicted(contents, image, bufs[r]);
    assert Holds(bufs', r, b);
    assert forall i: nat :: i < |bufs| ==> (bufs[i].dev != 0 && bufs[i].blockno == b <==> Holds(bufs, i, b));
    assert refs[b] == 0 && contents[b] == image[b];
    assert BufOk(bufs[r], device, image, contents, refs, held);
    forall c: nat | c < |image| && c != b && (refs[c] != 0 || contents'[c] != image[c])
      ensures exists i: nat :: Holds(bufs', i, c)
    {
      var i: nat :| Holds(bufs, i, c);
      assert BufOk(bufs[i], device, image, contents, refs, held);
      assert Holds(bufs', i, c);
    }
    forall i | 0 <= i < |bufs| ensures BufOk(bufs'[i], device, image, contents', refs[b := refs[b] + 1], held + {b}) {
      assert BufOk(bufs[i], device, image, contents, refs, held);
    }
  }

  /** What reads return once the buffer has been given to another block: the disk has the only copy. */
  ghost function Evicted(contents: seq<Block>, image: Image, x: Buf): (r: seq<Block>)
    requires |contents| == |image|
    ensures |r| == |contents|
  {
    if x.dev != 0 && x.blockno < |image| then contents[x.blockno := image[x.blockno]] else contents
  }

  /** The unreferenced blocks, which may be evicted, are as on disk. */
  ghost predicate Tidy(image: Image, contents: seq<Block>, refs: seq<nat>)
    requires |contents| == |refs| == |image|
  {
    forall b: nat {:trigger refs[b]} :: b < |image| && refs[b] == 0 ==> contents[b] == image[b]
  }

  /** Then eviction loses nothing. */
  lemma NothingLost(bufs: seq<Buf>, device: nat, image: Image, contents: seq<Block>, refs: seq<nat>, held: set<nat>, r: nat)
    requires Coherent(bufs, device, image, contents, refs, held) && Tidy(image, contents, refs)
    requires r < |bufs| && bufs[r].refcnt == 0
    ensures Evicted(contents, image, bufs[r]) == contents
  {
    assert BufOk(bufs[r], device, image, contents, refs, held);
  }

  lemma FillCoherent(bufs: seq<Buf>, device: nat, image: Image, contents: seq<Block>, refs: seq<nat>, held: set<nat>,
                     r: nat)
    requires Coherent(bufs, device, image, contents, refs, held)
    requires r < |bufs| && Holds(bufs, r, bufs[r].blockno) && !bufs[r].valid
    ensures Coherent(bufs[r := bufs[r].(data := image[bufs[r].blockno], valid := true)], device, image, contents,
                     refs, held)
  {
    var bufs' := bufs[r := bufs[r].(data := image[bufs[r].blockno], valid := true)];
    assert forall i: nat, c: nat :: Holds(bufs, i, c) ==> Holds(bufs', i, c);
  }

  lemma StoreCoherent(bufs: seq<Buf>, device: nat, image: Image, contents: seq<Block>, refs: seq<nat>, held: set<nat>,
                      r: nat, data: Block)
    requires Coherent(bufs, device, image, contents, refs, held)
    requires r < |bufs| && Holds(bufs, r, bufs[r].blockno) && bufs[r].valid && bufs[r].locked
    ensures Coherent(bufs[r := bufs[r].(data := data)], device, image, contents[bufs[r].blockno := data], refs, held)
  {
    var bufs' := bufs[r := bufs[r].(data := data)];
    assert forall i: nat, c: nat :: Holds(bufs, i, c) ==> Holds(bufs', i, c);
  }

  lemma WriteCoherent(bufs: seq<Buf>, device: nat, image: Image, contents: seq<Block>, refs: seq<nat>, held: set<nat>,
                      r: nat)
    requires Coherent(bufs, device, image, contents, refs, held)
    requires r < |bufs| && Holds(bufs, r, bufs[r].blockno) && bufs[r].valid
    ensures Coherent(bufs, device, Put(image, Write(bufs[r].blockno, bufs[r].data)), contents, refs, held)
  {
    var b := bufs[r].blockno;
    var image' := Put(image, Write(b, bufs[r].data));
    assert BufOk(bufs[r], device, image, contents, refs, held);
    assert image'[b] == contents[b];
    forall i | 0 <= i < |bufs| ensures BufOk(bufs[i], device, image', contents, refs, held) {
      assert BufOk(bufs[i], device, image, contents, refs, held);
    }
    forall c: nat | c < |image| && (refs[c] != 0 || contents[c] != image'[c])
      ensures exists i: nat :: Holds(bufs, i, c)
    {
      assert c == b || image'[c] == image[c];
      assert c == b ==> Holds(bufs, r, c);
    }
  }

  lemma PinCoherent(bufs: seq<Buf>, device: nat, image: Image, contents: seq<Block>, refs: seq<nat>, held: set<nat>,
                    r: nat)
    requires Coherent(bufs, device, image, contents, refs, held)
    requires r < |bufs| && Holds(bufs, r, bufs[r].blockno)
    ensures var b := bufs[r].blockno;
            Coherent(bufs[r := bufs[r].(refcnt := bufs[r].refcnt + 1)], device, image, contents,
                     refs[b := refs[b] + 1], held)
  {
    var bufs' := bufs[r := bufs[r].(refcnt := bufs[r].refcnt + 1)];
    assert forall i: nat, c: nat :: Holds(bufs, i, c) ==> Holds(bufs', i, c);
  }

  /** Drop a reference, keeping the lock as it is or giving it up. */
  lemma DropCoherent(bufs: seq<Buf>, device: nat, image: Image, contents: seq<Block>, refs: seq<nat>, held: set<nat>,
                     r: nat, keep: bool)
    requires Coherent(bufs, device, image, contents, refs, held)
    requires r < |bufs| && Holds(bufs, r, bufs[r].blockno) && 1 <= bufs[r].refcnt
    requires keep ==> bufs[r].locked ==> bufs[r].refcnt != 1
    ensures var b := bufs[r].blockno;
            Coherent(bufs[r := bufs[r].(refcnt := bufs[r].refcnt - 1, locked := keep && bufs[r].locked)], device, image, contents,
                     refs[b := refs[b] - 1], if keep then held else held - {b})
  {
    var bufs' := bufs[r := bufs[r].(refcnt := bufs[r].refcnt - 1, locked := keep && bufs[r].locked)];
    assert forall i: nat, c: nat :: Holds(bufs, i, c) ==> Holds(bufs', i, c);
  }

  class Cache {
    const disk: Disk
    const device: nat

    var bufs: seq<Buf>
    var next: seq<nat>
    var prev: seq<nat>

    ghost var order: seq<nat>
    ghost var contents: seq<Block>
    ghost var refs: seq<nat>
    ghost var held: set<nat>

    ghost predicate Valid()
      reads this, disk
      ensures Valid() ==> |bufs| == NBUF && |contents| == |refs| == |disk.image|
    {
      && device != 0
      && |bufs| == NBUF == |order|
      && Linked(next, prev, order)
      && Coherent(bufs, device, disk.image, contents, refs, held)
    }

    /** And no change is at risk of being lost. */
    ghost predicate Settled()
      reads this, disk
      ensures Settled() ==> Valid() && |bufs| == NBUF && |contents| == |refs| == |disk.image|
    {
      Valid() && Tidy(disk.image, contents, refs)
    }

    /** Buffer r is locked by the caller and holds block b. */
    ghost predicate Locked(r: nat, b: nat)
      reads this
    {
      r < |bufs| && bufs[r].dev == device && bufs[r].blockno == b && bufs[r].locked
    }

    lemma LockedBounds(r: nat)
      requires Valid() && r < NBUF && Locked(r, bufs[r].blockno)
      ensures bufs[r].dev != 0 && bufs[r].blockno < |disk.image| && bufs[r].blockno in held && refs[bufs[r].blockno] == bufs[r].refcnt && 1 <= bufs[r].refcnt
      ensures bufs[r].valid ==> bufs[r].data == contents[bufs[r].blockno]
    {
    }

    constructor (d: Disk, dev: nat)
      requires dev != 0
      ensures Valid() && disk == d && device == dev
      ensures Settled() && contents == d.image && held == {} && refs == seq(|d.image|, _ => 0)
    {
      disk, device := d, dev;
      bufs := seq(NBUF, _ => Buf(0, 0, false, 0, false, Block([])));
      next := seq(NBUF + 1, _ => HEAD);
      prev := seq(NBUF + 1, _ => HEAD);
      order, contents, refs, held := [], d.image, seq(|d.image|, _ => 0), {};
      new;
      var b := 0;
      while b < NBUF
        invariant b <= NBUF && |order| == b && (forall i :: 0 <= i < |order| ==> order[i] < b)
        invariant Linked(next, prev, order)
        invariant bufs == seq(NBUF, _ => Buf(0, 0, false, 0, false, Block([])))
        invariant contents == d.image && held == {} && refs == seq(|d.image|, _ => 0)
      {
        PushFront(next, prev, order, b);
        next := next[b := next[HEAD]];
        prev := prev[b := HEAD];
        prev := prev[next[HEAD] := b];
        next := next[HEAD := b];
        order := [b] + order;
        b := b + 1;
      }
    }

    /** The first loop of bget: head to tail, looking for the block. */
    method FindCached(dev: nat, b: nat) returns (r: nat)
      requires |bufs| == NBUF == |order| && Linked(next, prev, order)
      requires dev != 0 && forall i :: 0 <= i < NBUF ==> bufs[i].dev == 0 || bufs[i].dev == dev
      ensures r <= HEAD
      ensures r != HEAD ==> Holds(bufs, r, b)
      ensures r == HEAD ==> forall i: nat :: !Holds(bufs, i, b)
    {
      r := next[HEAD];
      ghost var i: nat := 0;
      assert Link(next, prev, order, 0) && r == At(order, 1);
      while r != HEAD && !(bufs[r].dev == dev && bufs[r].blockno == b)
        invariant i <= NBUF && r == At(order, i + 1)
        invariant forall j :: 0 <= j < i ==> !Holds(bufs, order[j], b)
        decreases NBUF - i
      {
        assert Link(next, prev, order, i + 1);
        r := next[r];
        i := i + 1;
      }
      if r == HEAD {
        forall j: nat | j < NBUF ensures !Holds(bufs, j, b) {
          Covers(order, j);
        }
      }
    }

    lemma SomeUnused()
      requires Valid() && |Busy(refs)| < NBUF
      ensures exists k :: 0 <= k < NBUF && bufs[order[k]].refcnt == 0
    {
      RoomForOne(bufs, device, disk.image, contents, refs, held);
      var free :| 0 <= free < NBUF && bufs[free].refcnt == 0;
      Covers(order, free);
    }

    /** The second loop of bget: tail to head, looking for an unreferenced buffer. */
    method FindUnused() returns (r: nat)
      requires |bufs| == NBUF == |order| && Linked(next, prev, order)
      requires exists k :: 0 <= k < NBUF && bufs[order[k]].refcnt == 0
      ensures r < NBUF && bufs[r].refcnt == 0
      ensures exists k :: 0 <= k < NBUF && order[k] == r &&
                          forall j :: k < j < NBUF ==> bufs[order[j]].refcnt != 0
    {
      r := prev[HEAD];
      ghost var i: nat := NBUF;
      assert Link(next, prev, order, NBUF);
      while bufs[r].refcnt != 0
        invariant 1 <= i <= NBUF && r == At(order, i)
        invariant forall j :: i <= j < NBUF ==> bufs[order[j]].refcnt != 0
        decreases i
      {
        assert Link(next, prev, order, i - 1);
        r := prev[r];
        i := i - 1;
      }
    }

    /** Find block b's buffer, or recycle the least recently used unreferenced one; return it locked. */
    method Bget(dev: nat, b: nat) returns (r: nat)
      requires Valid() && dev == device && b < |disk.image| && b !in held
      requires refs[b] != 0 || |Busy(refs)| < NBUF
      modifies this
      ensures Valid() && Locked(r, b) && order == old(order)
      ensures contents == if Holds(old(bufs), r, b) then old(contents) else Evicted(old(contents), disk.image, old(bufs)[r])
      ensures old(Settled()) ==> Settled() && contents == old(contents)
      ensures refs == old(refs)[b := old(refs)[b] + 1] && held == old(held) + {b}
      ensures !old(bufs)[r].locked && forall i :: 0 <= i < NBUF && i != r ==> bufs[i] == old(bufs)[i]
      ensures (exists i: nat :: Holds(old(bufs), i, b)) ==> Holds(old(bufs), r, b)
      ensures !Holds(old(bufs), r, b) ==>
                exists k :: 0 <= k < NBUF && order[k] == r && old(bufs)[r].refcnt == 0 &&
                            forall j :: k < j < NBUF ==> old(bufs)[order[j]].refcnt != 0
    {
      hide Coherent, Linked;
      Devices(bufs, device, disk.image, contents, refs, held, b);
      r := FindCached(dev, b);
      if r != HEAD {
        HitCoherent(bufs, device, disk.image, contents, refs, held, r);
        bufs := bufs[r := bufs[r].(refcnt := bufs[r].refcnt + 1, locked := true)];
      } else {
        assert refs[b] == 0;
        SomeUnused();
        r := FindUnused();
        RecycleCoherent(bufs, device, disk.image, contents, refs, held, r, b);
        if Settled() {
          NothingLost(bufs, device, disk.image, contents, refs, held, r);
        }
        contents := Evicted(contents, disk.image, bufs[r]);
        bufs := bufs[r := Buf(dev, b, false, 1, true, bufs[r].data)];
      }
      refs, held := refs[b := refs[b] + 1], held + {b};
    }

    /** Return block b's buffer, locked, with what was last left in it. */
    method Bread(dev: nat, b: nat) returns (r: nat)
      requires Valid() && dev == device && b < |disk.image| && b !in held
      requires refs[b] != 0 || |Busy(refs)| < NBUF
      modifies this
      ensures Valid() && Locked(r, b)
      ensures bufs[r].valid && bufs[r].data == contents[b] && bufs[r].refcnt == refs[b]
      ensures contents == if Holds(old(bufs), r, b) then old(contents) else Evicted(old(contents), disk.image, old(bufs)[r])
      ensures old(Settled()) ==> Settled() && contents == old(contents)
      ensures refs == old(refs)[b := old(refs)[b] + 1] && held == old(held) + {b}
      ensures !old(bufs)[r].locked && forall i :: 0 <= i < NBUF && i != r ==> bufs[i] == old(bufs)[i]
    {
      hide Linked;
      r := Bget(dev, b);
      if !bufs[r].valid {
        FillCoherent(bufs, device, disk.image, contents, refs, held, r);
        bufs := bufs[r := bufs[r].(data := disk.image[b], valid := true)];
      }
    }

    /** A client that holds the buffer replaces its data (memmove into b->data). */
    method Store(r: nat, data: Block)
      requires Valid() && r < NBUF && Locked(r, bufs[r].blockno) && bufs[r].valid
      modifies this
      ensures Valid() && bufs == old(bufs)[r := old(bufs)[r].(data := data)]
      ensures contents == old(contents)[old(bufs)[r].blockno := data]
      ensures refs == old(refs) && held == old(held) && (old(Settled()) ==> Settled())
    {
      StoreCoherent(bufs, device, disk.image, contents, refs, held, r, data);
      contents := contents[bufs[r].blockno := data];
      bufs := bufs[r := bufs[r].(data := data)];
    }

    method Bwrite(r: nat)
      requires Valid() && r < NBUF && Locked(r, bufs[r].blockno) && bufs[r].valid
      modifies disk
      ensures Valid() && (old(Settled()) ==> Settled())
      ensures disk.image == Put(old(disk.image), Write(bufs[r].blockno, bufs[r].data))
      ensures disk.writes == old(disk.writes) + [Write(bufs[r].blockno, bufs[r].data)]
    {
      WriteCoherent(bufs, device, disk.image, contents, refs, held, r);
      disk.WriteBlock(bufs[r].blockno, bufs[r].data);
    }

    /** Unlock and drop a reference. The last reference moves the buffer to the front of the list; its
        block may then be evicted, and if it is not on disk by then the change is lost. */
    method Brelse(r: nat)
      requires Valid() && r < NBUF && Locked(r, bufs[r].blockno)
      modifies this
      ensures Valid()
      ensures old(Settled()) ==>
                (Settled() <==> var x := old(bufs)[r]; x.refcnt != 1 || contents[x.blockno] == disk.image[x.blockno])
      ensures var b := old(bufs)[r].blockno;
              contents == old(contents) && refs == old(refs)[b := old(refs)[b] - 1] && held == old(held) - {b}
      ensures bufs == old(bufs)[r := old(bufs)[r].(refcnt := old(bufs)[r].refcnt - 1, locked := false)]
      ensures if bufs[r].refcnt == 0
              then exists k :: 0 <= k < NBUF && old(order)[k] == r && order == [r] + Without(old(order), k)
              else order == old(order)
    {
      DropCoherent(bufs, device, disk.image, contents, refs, held, r, false);
      ghost var b := bufs[r].blockno;
      bufs := bufs[r := bufs[r].(refcnt := bufs[r].refcnt - 1, locked := false)];
      refs, held := refs[b := refs[b] - 1], held - {b};
      if bufs[r].refcnt == 0 {
        MoveToFront(r);
      }
    }

    /** What acquiresleep() comes to in bget: whoever holds the block, if anyone does, releases it. */
    method Await(b: nat)
      requires Valid() && b < |disk.image|
      modifies this
      ensures Valid() && contents == old(contents)
      ensures held == old(held) - {b} && refs == if b in old(held) then old(refs)[b := old(refs)[b] - 1] else old(refs)
      ensures old(Settled()) && (b in old(held) ==> old(refs)[b] != 1) ==> Settled()
      ensures forall i :: 0 <= i < NBUF && old(bufs)[i].blockno != b ==> bufs[i] == old(bufs)[i]
    {
      hide Linked, Coherent;
      Devices(bufs, device, disk.image, contents, refs, held, b);
      var r := FindCached(device, b);
      Holder(r, b);
      if r != HEAD && bufs[r].locked {
        Brelse(r);
      }
    }

    lemma Holder(r: nat, b: nat)
      requires Valid() && r <= HEAD && b < |disk.image| && (r != HEAD ==> Holds(bufs, r, b))
      requires r == HEAD ==> forall i: nat :: !Holds(bufs, i, b)
      ensures b in held <==> r != HEAD && bufs[r].locked
      ensures r != HEAD ==> bufs[r].dev == device && bufs[r].blockno == b && bufs[r].refcnt == refs[b]
    {
    }

    method MoveToFront(r: nat)
      requires r < NBUF && |order| == NBUF && Linked(next, prev, order)
      modifies this`next, this`prev, this`order
      ensures |order| == NBUF && Linked(next, prev, order)
      ensures exists k :: 0 <= k < NBUF && old(order)[k] == r && order == [r] + Without(old(order), k)
    {
      Covers(order, r);
      ghost var k :| 0 <= k < NBUF && order[k] == r;
      Unlink(next, prev, order, k);
      WithoutIsDistinct(order, k);
      ghost var next0, prev0 := next[prev[r] := next[r]], prev[next[r] := prev[r]];
      PushFront(next0, prev0, Without(order, k), r);
      prev := prev[next[r] := prev[r]];
      next := next[prev[r] := next[r]];
      next := next[r := next[HEAD]];
      prev := prev[r := HEAD];
      prev := prev[next[HEAD] := r];
      next := next[HEAD := r];
      order := [r] + Without(order, k);
    }

    method Bpin(r: nat)
      requires Valid() && r < NBUF && bufs[r].dev != 0
      modifies this
      ensures Valid() && (old(Settled()) ==> Settled())
      ensures bufs == old(bufs)[r := old(bufs)[r].(refcnt := old(bufs)[r].refcnt + 1)]
      ensures var b := old(bufs)[r].blockno;
              contents == old(contents) && refs == old(refs)[b := old(refs)[b] + 1] && held == old(held)
    {
      PinCoherent(bufs, device, disk.image, contents, refs, held, r);
      ghost var b := bufs[r].blockno;
      bufs := bufs[r := bufs[r].(refcnt := bufs[r].refcnt + 1)];
      refs := refs[b := refs[b] + 1];
    }

    method Bunpin(r: nat)
      requires Valid() && r < NBUF && bufs[r].dev != 0 && 1 <= bufs[r].refcnt
      requires bufs[r].locked ==> bufs[r].refcnt != 1
      modifies this
      ensures Valid()
      ensures old(Settled()) ==>
                (Settled() <==> var x := old(bufs)[r]; x.refcnt != 1 || contents[x.blockno] == disk.image[x.blockno])
      ensures bufs == old(bufs)[r := old(bufs)[r].(refcnt := old(bufs)[r].refcnt - 1)]
      ensures var b := old(bufs)[r].blockno;
              contents == old(contents) && refs == old(refs)[b := old(refs)[b] - 1] && held == old(held)
    {
      DropCoherent(bufs, device, disk.image, contents, refs, held, r, true);
      ghost var b := bufs[r].blockno;
      bufs := bufs[r := bufs[r].(refcnt := bufs[r].refcnt - 1)];
      refs := refs[b := refs[b] - 1];
    }
  }
}
