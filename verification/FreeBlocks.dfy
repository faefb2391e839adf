/** The free list of user/umalloc.c as a list of blocks in address order (The C Programming Language, second
    edition, section 8.7). Addresses and sizes count headers of 16 bytes. */
module FreeBlocks {

  datatype Block = Block(addr: nat, size: nat) {
    predicate Has(u: nat) {
      addr <= u < addr + size
    }

    predicate Apart(b: Block) {
      addr + size <= b.addr || b.addr + b.size <= addr
    }
  }

  /** The address of `base`, the empty block that keeps the list from being empty. It lies in the program's
      static data, below the heap. */
  const BASE: nat := 1

  /** In address order, starting at base, no two blocks touching: as coalesced as it can be. */
  ghost predicate Chain(bs: seq<Block>) {
    && bs != [] && bs[0] == Block(BASE, 0)
    && (forall i, j :: 0 <= i < j < |bs| ==> bs[i].addr + bs[i].size < bs[j].addr)
    && (forall i :: 0 < i < |bs| ==> 0 < bs[i].size)
  }

  ghost predicate Covers(bs: seq<Block>, u: nat) {
    exists i :: 0 <= i < |bs| && bs[i].Has(u)
  }

  // ---- the list is determined by the memory it covers ----

  lemma {:induction false} CanonicalFrom(xs: seq<Block>, ys: seq<Block>, i: nat)
    requires Chain(xs) && Chain(ys) && i <= |xs| && i <= |ys| && xs[..i] == ys[..i]
    requires forall u: nat {:trigger Covers(xs, u)} :: Covers(xs, u) <==> Covers(ys, u)
    ensures xs == ys
    decreases |xs| - i
  {
    if i == |xs| {
      if i < |ys| {
        Beyond(xs, ys, i);
      }
    } else if i == |ys| {
      Beyond(ys, xs, i);
    } else {
      SameBlock(xs, ys, i);
      assert xs[..i + 1] == xs[..i] + [xs[i]] && ys[..i + 1] == ys[..i] + [ys[i]];
      CanonicalFrom(xs, ys, i + 1);
    }
  }

  /** A block of ys past the end of xs would cover memory that xs does not. */
  lemma Beyond(xs: seq<Block>, ys: seq<Block>, i: nat)
    requires Chain(xs) && Chain(ys) && i == |xs| < |ys| && xs == ys[..i]
    ensures exists u: nat :: Covers(ys, u) && !Covers(xs, u)
  {
    var u := ys[i].addr;
    assert ys[i].Has(u) by { assert 0 < i; }
    assert Covers(ys, u);
    forall j | 0 <= j < |xs| ensures !xs[j].Has(u) {
      assert xs[j] == ys[j];
    }
  }

  /** At the first position where they could differ they do not. */
  lemma SameBlock(xs: seq<Block>, ys: seq<Block>, i: nat)
    requires Chain(xs) && Chain(ys) && i < |xs| && i < |ys| && xs[..i] == ys[..i]
    requires forall u: nat {:trigger Covers(xs, u)} :: Covers(xs, u) <==> Covers(ys, u)
    ensures xs[i] == ys[i]
  {
    if i > 0 {
      if xs[i].addr < ys[i].addr {
        StartsSooner(xs, ys, i);
      } else if ys[i].addr < xs[i].addr {
        StartsSooner(ys, xs, i);
      } else if xs[i].size < ys[i].size {
        EndsSooner(xs, ys, i);
      } else if ys[i].size < xs[i].size {
        EndsSooner(ys, xs, i);
      }
    }
  }

  lemma StartsSooner(xs: seq<Block>, ys: seq<Block>, i: nat)
    requires Chain(xs) && Chain(ys) && 0 < i < |xs| && i < |ys| && xs[..i] == ys[..i] && xs[i].addr < ys[i].addr
    ensures exists u: nat :: Covers(xs, u) && !Covers(ys, u)
  {
    var u := xs[i].addr;
    assert xs[i].Has(u);
    assert Covers(xs, u);
    forall j | 0 <= j < |ys| ensures !ys[j].Has(u) {
      if j < i {
        assert ys[j] == xs[..i][j];
      }
    }
  }

  lemma EndsSooner(xs: seq<Block>, ys: seq<Block>, i: nat)
    requires Chain(xs) && Chain(ys) && 0 < i < |xs| && i < |ys| && xs[i].addr == ys[i].addr && xs[i].size < ys[i].size
    ensures exists u: nat :: Covers(ys, u) && !Covers(xs, u)
  {
    var u := xs[i].addr + xs[i].size;
    assert ys[i].Has(u);
    assert Covers(ys, u);
    forall j | 0 <= j < |xs| ensures !xs[j].Has(u) {
      if j < i {
        assert xs[j].addr + xs[j].size < xs[i].addr;
      } else if i < j {
        assert u < xs[j].addr;
      }
    }
  }

  lemma Canonical(xs: seq<Block>, ys: seq<Block>)
    requires Chain(xs) && Chain(ys)
    requires forall u: nat {:trigger Covers(xs, u)} :: Covers(xs, u) <==> Covers(ys, u)
    ensures xs == ys
  {
    CanonicalFrom(xs, ys, 0);
  }

  // ---- free ----

  /** Block b belongs after block k. */
  ghost predicate Fits(bs: seq<Block>, k: nat, b: Block) {
    && k < |bs| && 0 < b.size && BASE < b.addr
    && (forall i :: 0 <= i < |bs| ==> bs[i].Apart(b))
    && bs[k].addr < b.addr && (k + 1 < |bs| ==> b.addr < bs[k + 1].addr)
  }

  predicate JoinsLeft(bs: seq<Block>, k: nat, b: Block)
    requires k < |bs|
  {
    bs[k].addr + bs[k].size == b.addr
  }

  predicate JoinsRight(bs: seq<Block>, k: nat, b: Block)
    requires k < |bs|
  {
    k + 1 < |bs| && b.addr + b.size == bs[k + 1].addr
  }

  /** b, grown by the block above it if they touch. */
  function Grown(bs: seq<Block>, k: nat, b: Block): (r: Block)
    requires k < |bs|
  {
    if JoinsRight(bs, k, b) then Block(b.addr, b.size + bs[k + 1].size) else b
  }

  function Rest(bs: seq<Block>, k: nat, b: Block): (r: seq<Block>)
    requires k < |bs|
  {
    if JoinsRight(bs, k, b) then bs[k + 2..] else bs[k + 1..]
  }

  /** The list with b put in after block k, joined to its neighbours where they touch. */
  function Inserted(bs: seq<Block>, k: nat, b: Block): (r: seq<Block>)
    requires k < |bs|
  {
    var g := Grown(bs, k, b);
    if JoinsLeft(bs, k, b)
    then bs[..k] + [Block(bs[k].addr, bs[k].size + g.size)] + Rest(bs, k, b)
    else bs[..k + 1] + [g] + Rest(bs, k, b)
  }

  /** Where b ends up. */
  function Spot(bs: seq<Block>, k: nat, b: Block): (at: nat)
    requires k < |bs|
  {
    if JoinsLeft(bs, k, b) then k else k + 1
  }

  /** The first old block after it. */
  function Next(bs: seq<Block>, k: nat, b: Block): (j: nat)
    requires k < |bs|
  {
    if JoinsRight(bs, k, b) then k + 2 else k + 1
  }

  function Joined(bs: seq<Block>, k: nat, b: Block): (r: Block)
    requires k < |bs|
  {
    if JoinsLeft(bs, k, b) then Block(bs[k].addr, bs[k].size + Grown(bs, k, b).size) else Grown(bs, k, b)
  }

  lemma InsertedAt(bs: seq<Block>, k: nat, b: Block, i: nat)
    requires k < |bs| && i < |Inserted(bs, k, b)|
    ensures |Inserted(bs, k, b)| == Spot(bs, k, b) + 1 + |bs| - Next(bs, k, b)
    ensures var at := Spot(bs, k, b);
            Inserted(bs, k, b)[i] ==
            if i < at then bs[i] else if i == at then Joined(bs, k, b) else bs[Next(bs, k, b) + (i - at - 1)]
  {
  }

  lemma GapBefore(bs: seq<Block>, k: nat, b: Block, i: nat)
    requires Chain(bs) && Fits(bs, k, b) && i < Spot(bs, k, b)
    ensures bs[i].addr + bs[i].size < Joined(bs, k, b).addr
  {
    assert bs[i].Apart(b);
    if i < k {
      assert bs[i].addr + bs[i].size < bs[k].addr;
    }
  }

  lemma InsertedChain(bs: seq<Block>, k: nat, b: Block)
    requires Chain(bs) && Fits(bs, k, b)
    ensures Chain(Inserted(bs, k, b))
  {
    hide Inserted;
    var r, at := Inserted(bs, k, b), Spot(bs, k, b);
    InsertedAny(bs, k, b);
    InsertedAt(bs, k, b, 0);
    forall i, j | 0 <= i < j < |r| ensures r[i].addr + r[i].size < r[j].addr {
      InsertedAt(bs, k, b, i);
      InsertedAt(bs, k, b, j);
      if j == at {
        GapBefore(bs, k, b, i);
      } else if i == at {
        GapAfter(bs, k, b, Next(bs, k, b) + (j - at - 1));
      }
    }
    forall i | 0 < i < |r| ensures 0 < r[i].size {
      InsertedAt(bs, k, b, i);
    }
  }

  lemma InsertedAny(bs: seq<Block>, k: nat, b: Block)
    requires Chain(bs) && Fits(bs, k, b)
    ensures Inserted(bs, k, b) != [] && (JoinsLeft(bs, k, b) ==> k != 0)
  {
  }

  /** Everything beyond the joined block lies strictly beyond it. */
  lemma GapAfter(bs: seq<Block>, k: nat, b: Block, j: nat)
    requires Chain(bs) && Fits(bs, k, b) && Next(bs, k, b) <= j < |bs|
    ensures b.addr + Grown(bs, k, b).size < bs[j].addr
    ensures Joined(bs, k, b).addr + Joined(bs, k, b).size < bs[j].addr
  {
    if !JoinsRight(bs, k, b) {
      assert bs[k + 1].Apart(b);
      assert k + 1 < j ==> bs[k + 1].addr + bs[k + 1].size < bs[j].addr;
    }
  }

  lemma JoinedHas(bs: seq<Block>, k: nat, b: Block, u: nat)
    requires k < |bs|
    ensures Joined(bs, k, b).Has(u) <==>
            b.Has(u) || (JoinsLeft(bs, k, b) && bs[k].Has(u)) || (JoinsRight(bs, k, b) && bs[k + 1].Has(u))
  {
  }

  lemma InsertedCovers(bs: seq<Block>, k: nat, b: Block, u: nat)
    requires Chain(bs) && Fits(bs, k, b)
    ensures Covers(Inserted(bs, k, b), u) <==> Covers(bs, u) || b.Has(u)
  {
    hide Inserted, Chain, Joined, Block.Has;
    var r, at := Inserted(bs, k, b), Spot(bs, k, b);
    InsertedAny(bs, k, b);
    InsertedAt(bs, k, b, 0);
    InsertedAt(bs, k, b, at);
    JoinedHas(bs, k, b, u);
    if Covers(bs, u) {
      var i :| 0 <= i < |bs| && bs[i].Has(u);
      var i' := if i < at then i else if Next(bs, k, b) <= i then at + 1 + (i - Next(bs, k, b)) else at;
      InsertedAt(bs, k, b, i');
      assert r[i'].Has(u);
    } else if b.Has(u) {
      assert r[at].Has(u);
    }
    if Covers(r, u) {
      var i :| 0 <= i < |r| && r[i].Has(u);
      InsertedAt(bs, k, b, i);
    }
  }

  // ---- malloc ----

  /** The list after n units are taken from the end of block i. */
  function Taken(bs: seq<Block>, i: nat, n: nat): (r: seq<Block>)
    requires i < |bs| && n <= bs[i].size
  {
    if bs[i].size == n then bs[..i] + bs[i + 1..] else bs[i := Block(bs[i].addr, bs[i].size - n)]
  }

  /** The block handed out: the last n units of block i. */
  function Tail(bs: seq<Block>, i: nat, n: nat): (b: Block)
    requires i < |bs| && n <= bs[i].size
    ensures b.size == n && b.addr + b.size == bs[i].addr + bs[i].size
  {
    Block(bs[i].addr + bs[i].size - n, n)
  }

  lemma TakenChain(bs: seq<Block>, i: nat, n: nat)
    requires Chain(bs) && i < |bs| && 0 < n <= bs[i].size
    ensures Chain(Taken(bs, i, n))
  {
    var r := Taken(bs, i, n);
    if bs[i].size == n {
      assert forall j :: 0 <= j < |r| ==> r[j] == bs[if j < i then j else j + 1];
    }
  }

  lemma TakenCovers(bs: seq<Block>, i: nat, n: nat, u: nat)
    requires Chain(bs) && i < |bs| && 0 < n <= bs[i].size
    ensures Covers(Taken(bs, i, n), u) <==> Covers(bs, u) && !Tail(bs, i, n).Has(u)
  {
    var r := Taken(bs, i, n);
    if Covers(bs, u) && !Tail(bs, i, n).Has(u) {
      var j :| 0 <= j < |bs| && bs[j].Has(u);
      assert r[if bs[i].size == n && i < j then j - 1 else j].Has(u);
    }
    if Covers(r, u) {
      TakenStill(bs, i, n, u);
    }
  }

  lemma TakenStill(bs: seq<Block>, i: nat, n: nat, u: nat)
    requires Chain(bs) && i < |bs| && 0 < n <= bs[i].size && Covers(Taken(bs, i, n), u)
    ensures Covers(bs, u) && !Tail(bs, i, n).Has(u)
  {
    var r := Taken(bs, i, n);
    var j :| 0 <= j < |r| && r[j].Has(u);
    var j' := if bs[i].size == n && i <= j then j + 1 else j;
    assert bs[j'].Has(u);
    if j' != i {
      OneHolder(bs, j', i, u);
    }
  }

  lemma OneHolder(bs: seq<Block>, i: nat, j: nat, u: nat)
    requires Chain(bs) && i < |bs| && j < |bs| && i != j && bs[i].Has(u)
    ensures !bs[j].Has(u)
  {
  }

  /** Freeing what has just been taken gives back the very same free list. */
  lemma TakeThenFree(bs: seq<Block>, i: nat, n: nat, k: nat)
    requires Chain(bs) && i < |bs| && 0 < n <= bs[i].size
    requires Fits(Taken(bs, i, n), k, Tail(bs, i, n))
    ensures Inserted(Taken(bs, i, n), k, Tail(bs, i, n)) == bs
  {
    var r, b := Taken(bs, i, n), Tail(bs, i, n);
    TakenChain(bs, i, n);
    InsertedChain(r, k, b);
    forall u: nat {:trigger Covers(Inserted(r, k, b), u)} ensures Covers(Inserted(r, k, b), u) <==> Covers(bs, u) {
      InsertedCovers(r, k, b, u);
      TakenCovers(bs, i, n, u);
      if b.Has(u) {
        assert bs[i].Has(u);
      }
    }
    Canonical(Inserted(r, k, b), bs);
  }
}
