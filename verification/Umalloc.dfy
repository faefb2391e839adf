/** malloc and free of user/umalloc.c on their circular list of headers. */
module Umalloc {
  import opened FreeBlocks

  datatype Header = Header(ptr: nat, size: nat)

  /** The position after i, going round. */
  function Succ(bs: seq<Block>, i: nat): (j: nat)
    requires i < |bs|
    ensures j < |bs|
  {
    if i + 1 < |bs| then i + 1 else 0
  }

  ghost predicate LinkAt(mem: map<nat, Header>, bs: seq<Block>, i: nat)
    requires i < |bs|
  {
    bs[i].addr in mem && mem[bs[i].addr] == Header(bs[Succ(bs, i)].addr, bs[i].size)
  }

  /** The headers form the circular list of these blocks. */
  ghost predicate Linked(mem: map<nat, Header>, bs: seq<Block>) {
    forall i: nat :: i < |bs| ==> LinkAt(mem, bs, i)
  }

  /** The blocks handed out keep their sizes in their headers, and overlap neither each other nor the free ones. */
  ghost predicate Live(mem: map<nat, Header>, bs: seq<Block>, live: map<nat, nat>) {
    && (forall a :: a in live ==> BASE < a && 0 < live[a] && a in mem && mem[a].size == live[a])
    && (forall a, i :: a in live && 0 <= i < |bs| ==> bs[i].Apart(Block(a, live[a])))
    && (forall a, c :: a in live && c in live && a != c ==> Block(a, live[a]).Apart(Block(c, live[c])))
  }

  // ---- free: the pointers ----

  /** The headers after free's assignments. */
  function Stitched(mem: map<nat, Header>, p: nat, bp: nat): (r: map<nat, Header>)
    requires p in mem && bp in mem && mem[p].ptr in mem
  {
    var n := mem[p].ptr;
    var m := mem[bp := if bp + mem[bp].size == n then Header(mem[n].ptr, mem[bp].size + mem[n].size)
                       else Header(n, mem[bp].size)];
    if p + m[p].size == bp then m[p := Header(m[bp].ptr, m[p].size + m[bp].size)] else m[p := Header(bp, m[p].size)]
  }

  lemma StitchedValues(mem: map<nat, Header>, bs: seq<Block>, k: nat, b: Block)
    requires Chain(bs) && Fits(bs, k, b) && Linked(mem, bs) && b.addr in mem && mem[b.addr].size == b.size
    ensures var p := bs[k].addr;
            && p in mem && mem[p].ptr in mem && p != b.addr
            && var m := Stitched(mem, p, b.addr);
            var nxt := if Next(bs, k, b) < |bs| then bs[Next(bs, k, b)].addr else BASE;
            && p in m && b.addr in m
            && m[p] == (if JoinsLeft(bs, k, b) then Header(nxt, Joined(bs, k, b).size) else Header(b.addr, bs[k].size))
            && (!JoinsLeft(bs, k, b) ==> m[b.addr] == Header(nxt, Joined(bs, k, b).size))
            && (forall x :: x in mem && x != p && x != b.addr ==> x in m && m[x] == mem[x])
  {
    hide Inserted;
    assert LinkAt(mem, bs, k);
    assert LinkAt(mem, bs, Succ(bs, k));
    if k + 1 < |bs| {
      assert bs[k + 1].addr != bs[k].addr && bs[k + 1].addr != b.addr;
    }
  }

  lemma StitchedLinked(mem: map<nat, Header>, bs: seq<Block>, k: nat, b: Block)
    requires Chain(bs) && Fits(bs, k, b) && Linked(mem, bs) && b.addr in mem && mem[b.addr].size == b.size
    requires bs[k].addr in mem && mem[bs[k].addr].ptr in mem
    ensures Linked(Stitched(mem, bs[k].addr, b.addr), Inserted(bs, k, b))
  {
    hide Inserted, Stitched, Joined;
    StitchedValues(mem, bs, k, b);
    var m, r := Stitched(mem, bs[k].addr, b.addr), Inserted(bs, k, b);
    InsertedAny(bs, k, b);
    InsertedAt(bs, k, b, 0);
    forall i: nat | i < |r| ensures LinkAt(m, r, i) {
      StitchedLink(mem, m, bs, k, b, i);
    }
  }

  lemma StitchedLink(mem: map<nat, Header>, m: map<nat, Header>, bs: seq<Block>, k: nat, b: Block, i: nat)
    requires Chain(bs) && Fits(bs, k, b) && Linked(mem, bs) && i < |Inserted(bs, k, b)|
    requires var p := bs[k].addr;
             var nxt := if Next(bs, k, b) < |bs| then bs[Next(bs, k, b)].addr else BASE;
             && p in m && b.addr in m
             && m[p] == (if JoinsLeft(bs, k, b) then Header(nxt, Joined(bs, k, b).size) else Header(b.addr, bs[k].size))
             && (!JoinsLeft(bs, k, b) ==> m[b.addr] == Header(nxt, Joined(bs, k, b).size))
             && (forall x :: x in mem && x != p && x != b.addr ==> x in m && m[x] == mem[x])
    ensures LinkAt(m, Inserted(bs, k, b), i)
  {
    hide Inserted, Chain, Linked, Fits;
    StartsAtBase(bs, k, b);
    var r, at := Inserted(bs, k, b), Spot(bs, k, b);
    InsertedAny(bs, k, b);
    InsertedAt(bs, k, b, i);
    InsertedAt(bs, k, b, Succ(r, i));
    if i != at {
      var j := if i < at then i else Next(bs, k, b) + (i - at - 1);
      At(mem, bs, j);
      AddressesDiffer(bs, j, k);
      NotThere(bs, k, b, j);
    }
  }

  lemma StartsAtBase(bs: seq<Block>, k: nat, b: Block)
    requires Chain(bs) && Fits(bs, k, b)
    ensures k < |bs| && Inserted(bs, k, b)[0].addr == BASE == bs[0].addr
  {
    hide Inserted;
    InsertedAny(bs, k, b);
    InsertedAt(bs, k, b, 0);
  }

  lemma NotThere(bs: seq<Block>, k: nat, b: Block, j: nat)
    requires Chain(bs) && Fits(bs, k, b) && j < |bs|
    ensures bs[j].addr != b.addr
  {
  }

  // ---- free: what stays true ----

  ghost predicate ApartFromAll(live: map<nat, nat>, b: Block) {
    forall c :: c in live ==> b.Apart(Block(c, live[c]))
  }

  lemma StitchedLive(mem: map<nat, Header>, bs: seq<Block>, live: map<nat, nat>, k: nat, b: Block)
    requires Chain(bs) && Fits(bs, k, b) && Linked(mem, bs) && b.addr in mem && mem[b.addr].size == b.size
    requires Live(mem, bs, live) && b.addr !in live && ApartFromAll(live, b)
    requires bs[k].addr in mem && mem[bs[k].addr].ptr in mem
    ensures Live(Stitched(mem, bs[k].addr, b.addr), Inserted(bs, k, b), live)
  {
    hide Inserted, Stitched, Linked;
    StitchedValues(mem, bs, k, b);
    var m, r := Stitched(mem, bs[k].addr, b.addr), Inserted(bs, k, b);
    forall a | a in live ensures a in m && m[a].size == live[a] {
      assert bs[k].Apart(Block(a, live[a]));
    }
    forall a, i | a in live && 0 <= i < |r| ensures r[i].Apart(Block(a, live[a])) {
      InsertedAt(bs, k, b, i);
      if i == Spot(bs, k, b) {
        assert bs[k].Apart(Block(a, live[a])) && b.Apart(Block(a, live[a]));
        if k + 1 < |bs| { assert bs[k + 1].Apart(Block(a, live[a])); }
      }
    }
  }

  /** r is bs with b put in after block k, where it belongs. */
  ghost predicate Placed(bs: seq<Block>, k: nat, b: Block, r: seq<Block>)
    ensures Placed(bs, k, b, r) ==> k < |bs| && Fits(bs, k, b) && r == Inserted(bs, k, b)
  {
    Fits(bs, k, b) && r == Inserted(bs, k, b)
  }

  /** A block that overlaps nothing has its place. */
  lemma {:induction false} Place(bs: seq<Block>, b: Block, n: nat) returns (k: nat)
    requires Chain(bs) && 0 < n <= |bs| && 0 < b.size && BASE < b.addr
    requires forall i :: 0 <= i < |bs| ==> bs[i].Apart(b)
    requires n < |bs| ==> b.addr < bs[n].addr
    ensures Fits(bs, k, b)
    decreases n
  {
    if bs[n - 1].addr < b.addr {
      k := n - 1;
    } else {
      assert n - 1 != 0;
      assert bs[n - 1].addr != b.addr;
      k := Place(bs, b, n - 1);
    }
  }

  /** How many steps from position i round to position k. */
  function Steps(n: nat, i: nat, k: nat): (d: nat)
    requires i < n && k < n
  {
    if i <= k then k - i else n - i + k
  }

  // ---- malloc: the pointers ----

  /** The headers after malloc takes n units from the end of block i. */
  function Unlinked(mem: map<nat, Header>, bs: seq<Block>, i: nat, n: nat): (m: map<nat, Header>)
    requires 0 < i < |bs| && n <= bs[i].size && bs[i].addr in mem && bs[i - 1].addr in mem
  {
    if bs[i].size == n then mem[bs[i - 1].addr := Header(mem[bs[i].addr].ptr, mem[bs[i - 1].addr].size)]
    else mem[bs[i].addr := Header(mem[bs[i].addr].ptr, bs[i].size - n)]
  }

  lemma TakenLink(mem: map<nat, Header>, bs: seq<Block>, i: nat, n: nat, j: nat)
    requires Chain(bs) && Linked(mem, bs) && 0 < i < |bs| && 0 < n <= bs[i].size && j < |Taken(bs, i, n)|
    requires bs[i].addr in mem && bs[i - 1].addr in mem
    ensures LinkAt(Unlinked(mem, bs, i, n), Taken(bs, i, n), j)
  {
    hide Chain, Linked;
    var r := Taken(bs, i, n);
    var j' := if bs[i].size == n && i <= j then j + 1 else j;
    At(mem, bs, j');
    At(mem, bs, i);
    AddressesDiffer(bs, j', i - 1);
    AddressesDiffer(bs, j', i);
    var s := Succ(r, j);
    assert r[s].addr == bs[if bs[i].size == n && i <= s then s + 1 else s].addr;
  }

  lemma TakenLinked(mem: map<nat, Header>, bs: seq<Block>, i: nat, n: nat)
    requires Chain(bs) && Linked(mem, bs) && 0 < i < |bs| && 0 < n <= bs[i].size
    requires bs[i].addr in mem && bs[i - 1].addr in mem
    ensures Linked(Unlinked(mem, bs, i, n), Taken(bs, i, n))
  {
    forall j: nat | j < |Taken(bs, i, n)| ensures LinkAt(Unlinked(mem, bs, i, n), Taken(bs, i, n), j) {
      TakenLink(mem, bs, i, n, j);
    }
  }

  /** A header written inside a free block or elsewhere outside the list does not disturb the list. */
  lemma LinkedFrame(mem: map<nat, Header>, bs: seq<Block>, a: nat, h: Header)
    requires Linked(mem, bs) && (forall i: nat :: i < |bs| ==> bs[i].addr != a)
    ensures Linked(mem[a := h], bs)
  {
    var m := mem[a := h];
    forall i: nat | i < |bs| ensures LinkAt(m, bs, i) {
      assert LinkAt(mem, bs, i);
    }
  }

  /** The tail of a free block becomes a live block. */
  lemma TakenLive(mem: map<nat, Header>, bs: seq<Block>, live: map<nat, nat>, i: nat, n: nat, m: map<nat, Header>)
    requires Chain(bs) && Live(mem, bs, live) && i < |bs| && 0 < n <= bs[i].size
    requires Tail(bs, i, n).addr in m && m[Tail(bs, i, n).addr].size == n
    requires forall a :: a in live ==> a in m && m[a].size == mem[a].size
    ensures Tail(bs, i, n).addr !in live
    ensures Live(m, Taken(bs, i, n), live[Tail(bs, i, n).addr := n])
  {
    var t, r := Tail(bs, i, n), Taken(bs, i, n);
    forall a | a in live ensures t.Apart(Block(a, live[a])) && t.addr != a {
      assert bs[i].Apart(Block(a, live[a]));
    }
    forall j | 0 <= j < |r| ensures r[j].Apart(t) && forall a :: a in live ==> r[j].Apart(Block(a, live[a])) {
      var j' := if bs[i].size == n && i <= j then j + 1 else j;
      forall a | a in live ensures r[j].Apart(Block(a, live[a])) {
        assert bs[j'].Apart(Block(a, live[a]));
      }
    }
  }

  // ---- conservation ----

  ghost predicate InLive(live: map<nat, nat>, u: nat) {
    exists a :: a in live && Block(a, live[a]).Has(u)
  }

  /** Unit u belongs to the allocator: it is in a free block or in a live one. */
  ghost predicate Owned(bs: seq<Block>, live: map<nat, nat>, u: nat) {
    Covers(bs, u) || InLive(live, u)
  }

  lemma NeverBoth(mem: map<nat, Header>, bs: seq<Block>, live: map<nat, nat>, u: nat)
    requires Live(mem, bs, live)
    ensures !(Covers(bs, u) && InLive(live, u))
  {
  }

  lemma FreeConserves(bs: seq<Block>, live: map<nat, nat>, k: nat, b: Block, u: nat)
    requires Chain(bs) && Fits(bs, k, b) && b.addr in live && live[b.addr] == b.size
    ensures Owned(Inserted(bs, k, b), live - {b.addr}, u) <==> Owned(bs, live, u)
  {
    hide Inserted, Chain, Fits, Covers;
    InsertedCovers(bs, k, b, u);
    if InLive(live, u) && !b.Has(u) {
      var a :| a in live && Block(a, live[a]).Has(u);
      assert a in live - {b.addr};
    }
  }

  lemma TakeConserves(bs: seq<Block>, live: map<nat, nat>, i: nat, n: nat, u: nat)
    requires Chain(bs) && i < |bs| && 0 < n <= bs[i].size && Tail(bs, i, n).addr !in live
    ensures Owned(Taken(bs, i, n), live[Tail(bs, i, n).addr := n], u) <==> Owned(bs, live, u)
  {
    hide Taken, Chain, Covers;
    TakenCovers(bs, i, n, u);
    var t := Tail(bs, i, n);
    var l := live[t.addr := n];
    assert t.Has(u) ==> Covers(bs, u) by { TailCovered(bs, i, n, u); }
    assert t.addr in l;
    if InLive(live, u) {
      var a :| a in live && Block(a, live[a]).Has(u);
      assert a in l && l[a] == live[a];
    }
  }

  lemma TailCovered(bs: seq<Block>, i: nat, n: nat, u: nat)
    requires i < |bs| && n <= bs[i].size
    ensures Tail(bs, i, n).Has(u) ==> Covers(bs, u)
  {
    if Tail(bs, i, n).Has(u) {
      assert bs[i].Has(u);
    }
  }

  /** The units owned after malloc: those owned before, and new memory if it had to ask for some. */
  lemma MallocConserves(bs: seq<Block>, from: seq<Block>, live: map<nat, nat>, b: Block, i: nat, n: nat, u: nat)
    requires Chain(Ready(bs)) && Chain(from) && i < |from| && 0 < n <= from[i].size && Tail(from, i, n).addr !in live
    requires from == bs || exists k: nat :: Placed(Ready(bs), k, b, from)
    ensures Owned(Taken(from, i, n), live[Tail(from, i, n).addr := n], u) <==>
            Owned(bs, live, u) || (from != bs && b.Has(u))
  {
    hide Taken, Chain;
    TakeConserves(from, live, i, n, u);
    if from != bs {
      var k: nat :| Placed(Ready(bs), k, b, from);
      InsertedCovers(Ready(bs), k, b, u);
      assert Covers(Ready(bs), u) <==> Covers(bs, u);
    }
  }

  lemma MallocConservesAll(bs: seq<Block>, from: seq<Block>, live: map<nat, nat>, b: Block, i: nat, n: nat)
    requires Chain(Ready(bs)) && Chain(from) && i < |from| && 0 < n <= from[i].size && Tail(from, i, n).addr !in live
    requires from == bs || exists k: nat :: Placed(Ready(bs), k, b, from)
    ensures forall u :: Owned(Taken(from, i, n), live[Tail(from, i, n).addr := n], u) <==>
                  Owned(bs, live, u) || (from != bs && b.Has(u))
  {
    hide Owned, Chain, Taken, Placed;
    forall u: nat
      ensures Owned(Taken(from, i, n), live[Tail(from, i, n).addr := n], u) <==>
              Owned(bs, live, u) || (from != bs && b.Has(u))
    {
      MallocConserves(bs, from, live, b, i, n, u);
    }
  }

  class Heap {
    var mem: map<nat, Header>
    var freep: nat
    ghost var bs: seq<Block>
    ghost var live: map<nat, nat>

    /** The list of free blocks is circular, in address order and coalesced, and apart from the live blocks. */
    ghost predicate Valid()
      reads this
    {
      if freep == 0 then bs == [] && live == map[]
      else
        && Chain(bs) && Linked(mem, bs) && Live(mem, bs, live)
        && exists i :: 0 <= i < |bs| && bs[i].addr == freep
    }

    constructor ()
      ensures Valid() && freep == 0
    {
      mem, freep, bs, live := map[], 0, [], map[];
    }

    /** The assignments at the end of free(), which link the block in after p. */
    method Stitch(p: nat, bp: nat)
      requires p in mem && bp in mem && mem[p].ptr in mem && p != bp
      modifies `mem
      ensures mem == Stitched(old(mem), p, bp)
    {
      if bp + mem[bp].size == mem[p].ptr {
        var n := mem[p].ptr;
        mem := mem[bp := Header(mem[n].ptr, mem[bp].size + mem[n].size)];
      } else {
        mem := mem[bp := Header(mem[p].ptr, mem[bp].size)];
      }
      if p + mem[p].size == bp {
        mem := mem[p := Header(mem[bp].ptr, mem[p].size + mem[bp].size)];
      } else {
        mem := mem[p := Header(bp, mem[p].size)];
      }
    }

    /** free(), given the header before the pointer. */
    method Free(bp: nat)
      requires Valid() && freep != 0 && bp in mem && BASE < bp && 0 < mem[bp].size
      requires Live(mem, bs, live - {bp}) && ApartFromAll(live - {bp}, Block(bp, mem[bp].size))
      requires forall i :: 0 <= i < |bs| ==> bs[i].Apart(Block(bp, mem[bp].size))
      modifies this
      ensures Valid() && freep != 0 && live == old(live) - {bp}
      ensures exists k: nat :: Placed(old(bs), k, Block(bp, old(mem)[bp].size), bs) && freep == old(bs)[k].addr
      ensures bp in old(live) && old(live)[bp] == old(mem)[bp].size ==>
                forall u :: Owned(bs, live, u) <==> Owned(old(bs), old(live), u)
    {
      hide Inserted, Stitched, Live, ApartFromAll, Chain, Fits, Linked, Owned;
      ghost var b := Block(bp, mem[bp].size);
      ghost var k := PlaceOf(bs, b);
      ghost var i: nat :| i < |bs| && bs[i].addr == freep;
      var p := freep;
      At(mem, bs, i);
      Found(mem, bs, i, k, b);
      while !(bp > p && bp < mem[p].ptr)
        invariant i < |bs| && p == bs[i].addr && LinkAt(mem, bs, i)
        invariant bp > p && bp < mem[p].ptr ==> i == k
        modifies {}
        decreases Steps(|bs|, i, k)
      {
        Found(mem, bs, i, k, b);
        if p >= mem[p].ptr && (bp > p || bp < mem[p].ptr) {
          break;
        }
        p := mem[p].ptr;
        i := Succ(bs, i);
        At(mem, bs, i);
        Found(mem, bs, i, k, b);
      }
      assert i == k;
      Around(mem, bs, k, b);
      StitchedLinked(mem, bs, k, b);
      StitchedLive(mem, bs, live - {bp}, k, b);
      InsertedChain(bs, k, b);
      Stitch(p, bp);
      freep := p;
      live := live - {bp};
      bs := Inserted(bs, k, b);
      InsertedHead(old(bs), k, b);
      if bp in old(live) && old(live)[bp] == b.size {
        forall u: nat ensures Owned(bs, live, u) <==> Owned(old(bs), old(live), u) {
          FreeConserves(old(bs), old(live), k, b, u);
        }
      }
    }

    /** morecore(): at is what sbrk returns when it grants the memory. */
    method Morecore(nunits: nat, grant: bool, at: nat) returns (p: nat)
      requires Valid() && freep != 0 && 0 < nunits && BASE < at
      requires ApartFromAll(live, Core(at, nunits)) && ApartFromFree(bs, Core(at, nunits))
      modifies this
      ensures Valid() && live == old(live) && freep != 0
      ensures !grant ==> p == 0 && bs == old(bs) && freep == old(freep)
      ensures grant ==> p == freep
      ensures grant ==> exists k: nat :: Placed(old(bs), k, Core(at, nunits), bs) && freep == old(bs)[k].addr
    {
      hide Inserted, Chain, Fits, Linked, Live, ApartFromAll;
      var nu := nunits;
      if nu < 4096 {
        nu := 4096;
      }
      if !grant {
        return 0;
      }
      CoreHeader(mem, bs, live, at, nunits, Header(0, nu));
      mem := mem[at := Header(0, nu)];
      Free(at);
      p := freep;
    }

    /** Takes the units from the end of block i, the block at p, or all of it. */
    method Carve(p: nat, prevp: nat, nunits: nat, ghost i: nat) returns (r: nat)
      requires Valid() && freep != 0 && 0 < i < |bs| && 0 < nunits <= bs[i].size
      requires p == bs[i].addr && prevp == bs[i - 1].addr
      modifies this
      ensures Valid() && freep == prevp && bs == Taken(old(bs), i, nunits)
      ensures r - 1 == Tail(old(bs), i, nunits).addr && r - 1 !in old(live) && live == old(live)[r - 1 := nunits]
    {
      hide Chain, Linked, Live, Taken;
      At(mem, bs, i);
      At(mem, bs, i - 1);
      TakenChain(bs, i, nunits);
      TakenHead(bs, i, nunits);
      CarvedKeeps(mem, bs, live, i, nunits);
      var q := p;
      if mem[p].size == nunits {
        mem := mem[prevp := Header(mem[p].ptr, mem[prevp].size)];
      } else {
        mem := mem[p := Header(mem[p].ptr, mem[p].size - nunits)];
        q := p + mem[p].size;
        mem := mem[q := Header(0, nunits)];
      }
      freep := prevp;
      live := live[q := nunits];
      bs := Taken(bs, i, nunits);
      r := q + 1;
    }

    /** malloc(): returns 0 or the address after the header of the block. `from` is the list the block is taken
        from, and i its place there. */
    method Malloc(nbytes: nat, grant: bool, at: nat) returns (r: nat, ghost from: seq<Block>, ghost i: nat)
      requires Valid() && BASE < at
      requires ApartFromAll(live, Core(at, Units(nbytes))) && ApartFromFree(Ready(bs), Core(at, Units(nbytes)))
      modifies this
      ensures Valid()
      ensures r == 0 <==> !Available(old(bs), Units(nbytes)) && !grant
      ensures r == 0 ==> bs == Ready(old(bs)) && live == old(live) && freep == if old(freep) == 0 then BASE else old(freep)
      ensures r != 0 ==> 0 < i <= |from| && freep == from[i - 1].addr
      ensures Available(old(bs), Units(nbytes)) ==>
                from == old(bs) && i < |from| &&
                exists f: nat :: f < |from| && from[f].addr == old(freep) && TooSmall(from, f, i, Units(nbytes))
      ensures !Available(old(bs), Units(nbytes)) && grant ==>
                exists k: nat :: Placed(Ready(old(bs)), k, Core(at, Units(nbytes)), from)
      ensures r != 0 ==>
                && Chain(from) && i < |from| && Units(nbytes) <= from[i].size
                && bs == Taken(from, i, Units(nbytes)) && r - 1 == Tail(from, i, Units(nbytes)).addr
                && r - 1 !in old(live) && live == old(live)[r - 1 := Units(nbytes)]
      ensures r != 0 ==>
                forall u :: Owned(bs, live, u) <==>
                  Owned(old(bs), old(live), u) || (!Available(old(bs), Units(nbytes)) && Core(at, Units(nbytes)).Has(u))
    {
      hide Inserted, Chain, Fits, Linked, Live, ApartFromAll, TooSmall, Available, Taken, Tour, Placed, Owned, Core, Block.Has, Searching,
           LinkAt, Units, Tail;
      var nunits := Units(nbytes);
      var prevp := freep;
      if prevp == 0 {
        mem := mem[BASE := Header(BASE, 0)];
        freep, prevp := BASE, BASE;
        bs := [Block(BASE, 0)];
        FirstList(mem, old(bs), nunits);
      }
      from := bs;
      ghost var f: nat :| f < |bs| && bs[f].addr == freep;
      ghost var grown := false;
      SearchStart(mem, bs, f, nunits);
      var p := mem[prevp].ptr;
      i := Succ(bs, f);
      while true
        invariant Valid() && freep != 0 && live == old(live) && from == bs && i < |bs| && f < |bs|
        invariant Searching(bs, freep, f, i, p, prevp, nunits)
        invariant !grown ==> bs == Ready(old(bs)) && freep == if old(freep) == 0 then BASE else old(freep)
        invariant grown ==> grant && Available(bs, nunits) && !Available(Ready(old(bs)), nunits)
        invariant grown ==> exists k: nat :: Placed(Ready(old(bs)), k, Core(at, nunits), bs)
        decreases !grown, |bs| - Tour(|bs|, f, i)
      {
        SearchHere(mem, bs, freep, f, i, p, prevp, nunits);
        if mem[p].size >= nunits {
          r := Carve(p, prevp, nunits, i);
          MallocConservesAll(old(bs), from, old(live), Core(at, nunits), i, nunits);
          return;
        }
        SearchNext(mem, bs, freep, f, i, p, prevp, nunits);
        if p == freep {
          ghost var bs0 := bs;
          p := Morecore(nunits, grant, at);
          if p == 0 {
            return 0, from, i;
          }
          ghost var k: nat :| Placed(bs0, k, Core(at, nunits), bs) && freep == bs0[k].addr;
          InsertedAvailable(bs0, k, at, nunits);
          InsertedHead(bs0, k, Core(at, nunits));
          grown := true;
          from := bs;
          f := k;
          i := k;
          SearchStart(mem, bs, f, nunits);
        }
        prevp := p;
        p := mem[p].ptr;
        i := Succ(bs, i);
      }
    }

    /** free() of what malloc() has just returned leaves the list as it was, but for what sbrk has given. */
    method MallocThenFree(nbytes: nat, grant: bool, at: nat) returns (r: nat)
      requires Valid() && BASE < at
      requires ApartFromAll(live, Core(at, Units(nbytes))) && ApartFromFree(Ready(bs), Core(at, Units(nbytes)))
      modifies this
      ensures Valid() && live == old(live)
      ensures r == 0 <==> !Available(old(bs), Units(nbytes)) && !grant
      ensures Available(old(bs), Units(nbytes)) ==> bs == old(bs)
      ensures r == 0 ==> bs == Ready(old(bs))
      ensures !Available(old(bs), Units(nbytes)) && grant ==> exists k: nat :: Placed(Ready(old(bs)), k, Core(at, Units(nbytes)), bs)
    {
      hide Chain, Linked, Live, ApartFromAll, Available, Taken, Placed, Core, Units, Tail, Inserted, Owned, Fits, TooSmall;
      ghost var from, i;
      r, from, i := Malloc(nbytes, grant, at);
      if r != 0 {
        ghost var n, less, taken := Units(nbytes), bs, live;
        LiveBlock(mem, bs, live, r - 1);
        Free(r - 1);
        assert live == old(live);
        ghost var k: nat :| Placed(less, k, Block(r - 1, n), bs);
        TailIs(from, i, n, r - 1);
        TakeThenFree(from, i, n, k);
      }
    }
  }

  lemma TailIs(bs: seq<Block>, i: nat, n: nat, a: nat)
    requires i < |bs| && n <= bs[i].size && a == Tail(bs, i, n).addr
    ensures Block(a, n) == Tail(bs, i, n)
  {
  }

  /** What free() asks of a block, every live block has. */
  lemma LiveBlock(mem: map<nat, Header>, bs: seq<Block>, live: map<nat, nat>, a: nat)
    requires Live(mem, bs, live) && a in live
    ensures a in mem && BASE < a && 0 < mem[a].size == live[a]
    ensures Live(mem, bs, live - {a}) && ApartFromAll(live - {a}, Block(a, mem[a].size))
    ensures forall i :: 0 <= i < |bs| ==> bs[i].Apart(Block(a, mem[a].size))
  {
  }

  /** The search has reached block i at p, after prevp, and everything it met since block f, at freep, is too small. */
  ghost predicate Searching(bs: seq<Block>, freep: nat, f: nat, i: nat, p: nat, prevp: nat, n: nat) {
    && f < |bs| && bs[f].addr == freep && i < |bs| && p == bs[i].addr
    && prevp == bs[if i == 0 then |bs| - 1 else i - 1].addr && TooSmall(bs, f, i, n)
  }

  lemma SearchStart(mem: map<nat, Header>, bs: seq<Block>, f: nat, n: nat)
    requires Linked(mem, bs) && f < |bs|
    ensures bs[f].addr in mem && Searching(bs, bs[f].addr, f, Succ(bs, f), mem[bs[f].addr].ptr, bs[f].addr, n)
  {
    hide TooSmall;
    At(mem, bs, f);
    TooSmallStart(bs, f, n);
  }

  lemma SearchHere(mem: map<nat, Header>, bs: seq<Block>, freep: nat, f: nat, i: nat, p: nat, prevp: nat, n: nat)
    requires Chain(bs) && Linked(mem, bs) && Searching(bs, freep, f, i, p, prevp, n) && i < |bs| && 0 < n
    ensures p == bs[i].addr && p in mem && mem[p].size == bs[i].size
    ensures f < |bs| && bs[f].addr == freep && TooSmall(bs, f, i, n)
    ensures bs[i].size >= n ==> 0 < i && prevp == bs[i - 1].addr && Available(bs, n)
  {
    hide TooSmall, Linked;
    At(mem, bs, i);
  }

  lemma SearchNext(mem: map<nat, Header>, bs: seq<Block>, freep: nat, f: nat, i: nat, p: nat, prevp: nat, n: nat)
    requires Chain(bs) && Linked(mem, bs) && Searching(bs, freep, f, i, p, prevp, n) && i < |bs| && f < |bs| && bs[i].size < n
    ensures p in mem && (p == freep ==> !Available(bs, n))
    ensures p != freep ==>
              && Searching(bs, freep, f, Succ(bs, i), mem[p].ptr, p, n)
              && Tour(|bs|, f, Succ(bs, i)) == Tour(|bs|, f, i) + 1
  {
    hide TooSmall, Linked, Chain, Tour, Available;
    At(mem, bs, i);
    TooSmallStep(bs, f, i, n);
    AddressesDiffer(bs, i, f);
  }

  lemma FirstList(mem: map<nat, Header>, bs: seq<Block>, n: nat)
    requires BASE in mem && mem[BASE] == Header(BASE, 0) && bs == [] && 0 < n
    ensures Chain([Block(BASE, 0)]) && Linked(mem, [Block(BASE, 0)]) && Live(mem, [Block(BASE, 0)], map[])
    ensures !Available([], n) && !Available([Block(BASE, 0)], n)
  {
  }

  lemma AddressesDiffer(bs: seq<Block>, i: nat, j: nat)
    requires Chain(bs) && i < |bs| && j < |bs|
    ensures bs[i].addr == bs[j].addr <==> i == j
  {
  }

  // ---- malloc: the search ----

  /** (nbytes + 15) / 16 + 1: enough units for the bytes and a header. */
  function Units(nbytes: nat): (n: nat)
    ensures 0 < n && nbytes <= 16 * (n - 1) < nbytes + 16
  {
    (nbytes + 15) / 16 + 1
  }

  predicate Available(bs: seq<Block>, n: nat) {
    exists i :: 0 <= i < |bs| && bs[i].size >= n
  }

  /** The list malloc starts from: the first call makes it. */
  function Ready(bs: seq<Block>): (r: seq<Block>)
    ensures r != []
  {
    if bs == [] then [Block(BASE, 0)] else bs
  }

  /** How far position i is into a tour that starts after position f and ends at it. */
  function Tour(n: nat, f: nat, i: nat): (t: nat)
    requires f < n && i < n
    ensures t < n && (t == n - 1 <==> i == f)
  {
    if f < i then i - f - 1 else n - f - 1 + i
  }

  /** Everything the tour has met before position i is too small. */
  ghost predicate TooSmall(bs: seq<Block>, f: nat, i: nat, n: nat)
    requires f < |bs| && i < |bs|
  {
    forall j: nat :: j < |bs| && Tour(|bs|, f, j) < Tour(|bs|, f, i) ==> bs[j].size < n
  }

  lemma TooSmallStart(bs: seq<Block>, f: nat, n: nat)
    requires f < |bs|
    ensures TooSmall(bs, f, Succ(bs, f), n) && Tour(|bs|, f, Succ(bs, f)) == 0
  {
  }

  lemma TooSmallStep(bs: seq<Block>, f: nat, i: nat, n: nat)
    requires f < |bs| && i < |bs| && TooSmall(bs, f, i, n) && bs[i].size < n
    ensures i == f ==> !Available(bs, n)
    ensures i != f ==> TooSmall(bs, f, Succ(bs, i), n) && Tour(|bs|, f, Succ(bs, i)) == Tour(|bs|, f, i) + 1
  {
    if i == f {
      forall j: nat | j < |bs| ensures bs[j].size < n {
        assert j != f ==> Tour(|bs|, f, j) < Tour(|bs|, f, f);
      }
    }
  }

  lemma InsertedAvailable(bs: seq<Block>, k: nat, at: nat, n: nat)
    requires Chain(bs) && Fits(bs, k, Core(at, n))
    ensures Inserted(bs, k, Core(at, n)) != [] && Available(Inserted(bs, k, Core(at, n)), n)
  {
    hide Inserted, Chain;
    var b := Core(at, n);
    InsertedAny(bs, k, b);
    InsertedAt(bs, k, b, 0);
    InsertedAt(bs, k, b, Spot(bs, k, b));
    assert Inserted(bs, k, b)[Spot(bs, k, b)].size >= n;
  }

  /** The headers after malloc has also written the size of what it hands out. */
  function Carved(mem: map<nat, Header>, bs: seq<Block>, i: nat, n: nat): (m: map<nat, Header>)
    requires 0 < i < |bs| && n <= bs[i].size && bs[i].addr in mem && bs[i - 1].addr in mem
  {
    var m := Unlinked(mem, bs, i, n);
    if bs[i].size == n then m else m[Tail(bs, i, n).addr := Header(0, n)]
  }

  lemma CarvedLinked(mem: map<nat, Header>, bs: seq<Block>, i: nat, n: nat)
    requires Chain(bs) && Linked(mem, bs) && 0 < i < |bs| && 0 < n <= bs[i].size
    requires bs[i].addr in mem && bs[i - 1].addr in mem
    ensures Linked(Carved(mem, bs, i, n), Taken(bs, i, n))
  {
    hide Unlinked, Linked;
    TakenLinked(mem, bs, i, n);
    if bs[i].size != n {
      var r, t := Taken(bs, i, n), Tail(bs, i, n).addr;
      forall j: nat | j < |r| ensures r[j].addr != t {
        assert i < j ==> bs[i].addr + bs[i].size < bs[j].addr;
        assert j < i ==> bs[j].addr + bs[j].size < bs[i].addr;
      }
      LinkedFrame(Unlinked(mem, bs, i, n), r, t, Header(0, n));
    }
  }

  lemma CarvedKeeps(mem: map<nat, Header>, bs: seq<Block>, live: map<nat, nat>, i: nat, n: nat)
    requires Chain(bs) && Linked(mem, bs) && Live(mem, bs, live) && 0 < i < |bs| && 0 < n <= bs[i].size
    requires bs[i].addr in mem && bs[i - 1].addr in mem
    ensures Linked(Carved(mem, bs, i, n), Taken(bs, i, n))
    ensures Tail(bs, i, n).addr !in live
    ensures Live(Carved(mem, bs, i, n), Taken(bs, i, n), live[Tail(bs, i, n).addr := n])
  {
    hide Taken, Linked;
    CarvedLinked(mem, bs, i, n);
    var m, t := Carved(mem, bs, i, n), Tail(bs, i, n).addr;
    assert LinkAt(mem, bs, i) && LinkAt(mem, bs, i - 1) by {
      At(mem, bs, i);
      At(mem, bs, i - 1);
    }
    assert bs[i - 1].addr < bs[i].addr;
    forall a | a in live ensures a in m && m[a].size == mem[a].size {
      assert bs[i].Apart(Block(a, live[a])) && bs[i - 1].Apart(Block(a, live[a]));
    }
    TakenLive(mem, bs, live, i, n, m);
  }

  /** The block that morecore() asks for: the least that is neither smaller than nunits nor than 4096 units. */
  function Core(at: nat, nunits: nat): (b: Block)
    ensures b.addr == at && nunits <= b.size && 4096 <= b.size && b.size in {nunits, 4096}
  {
    Block(at, if nunits < 4096 then 4096 else nunits)
  }

  ghost predicate ApartFromFree(bs: seq<Block>, b: Block) {
    forall i :: 0 <= i < |bs| ==> bs[i].Apart(b)
  }

  /** Writing the header of new memory disturbs neither list nor live blocks. */
  lemma CoreHeader(mem: map<nat, Header>, bs: seq<Block>, live: map<nat, nat>, at: nat, nunits: nat, h: Header)
    requires Chain(bs) && Linked(mem, bs) && Live(mem, bs, live) && BASE < at && 0 < nunits
    requires ApartFromAll(live, Core(at, nunits)) && ApartFromFree(bs, Core(at, nunits))
    ensures Linked(mem[at := h], bs) && at !in live && live - {at} == live && Live(mem[at := h], bs, live)
  {
    LinkedFrame(mem, bs, at, h);
  }

  lemma TakenHead(bs: seq<Block>, i: nat, n: nat)
    requires Chain(bs) && 0 < i < |bs| && 0 < n <= bs[i].size
    ensures i - 1 < |Taken(bs, i, n)| && Taken(bs, i, n)[i - 1].addr == bs[i - 1].addr != 0
  {
  }

  lemma At(mem: map<nat, Header>, bs: seq<Block>, i: nat)
    requires Linked(mem, bs) && i < |bs|
    ensures LinkAt(mem, bs, i)
  {
  }

  lemma Around(mem: map<nat, Header>, bs: seq<Block>, k: nat, b: Block)
    requires Chain(bs) && Fits(bs, k, b) && Linked(mem, bs) && b.addr in mem
    ensures bs[k].addr in mem && mem[bs[k].addr].ptr in mem && bs[k].addr != b.addr
  {
    assert LinkAt(mem, bs, k) && LinkAt(mem, bs, Succ(bs, k));
  }

  lemma PlaceOf(bs: seq<Block>, b: Block) returns (k: nat)
    requires Chain(bs) && 0 < b.size && BASE < b.addr
    requires forall i :: 0 <= i < |bs| ==> bs[i].Apart(b)
    ensures Fits(bs, k, b) && k < |bs|
  {
    k := Place(bs, b, |bs|);
  }

  /** free's two tests together hold exactly at the block's place. */
  lemma Found(mem: map<nat, Header>, bs: seq<Block>, i: nat, k: nat, b: Block)
    requires Chain(bs) && Fits(bs, k, b) && i < |bs| && LinkAt(mem, bs, i)
    ensures var p, n := bs[i].addr, mem[bs[i].addr].ptr;
            i == k <==> (b.addr > p && b.addr < n) || (p >= n && (b.addr > p || b.addr < n))
  {
  }

  lemma InsertedHead(bs: seq<Block>, k: nat, b: Block)
    requires Chain(bs) && Fits(bs, k, b)
    ensures k < |Inserted(bs, k, b)| && Inserted(bs, k, b)[k].addr == bs[k].addr != 0
  {
  }
}
