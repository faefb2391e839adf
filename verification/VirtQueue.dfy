/** The descriptors, rings and bookkeeping that kernel/virtio_disk.c shares with the device (sections 2.6 and 5.2
    of Virtio 1.1). */
module VirtQueue {
  import opened Collections

  const NUM := 8
  const BSIZE := 1024
  const UINT16 := 0x1_0000
  const F_NEXT := 1
  const F_WRITE := 2

  /** What a descriptor's physical address designates: a command header, a buffer's data or a status byte. */
  datatype Addr = Null | Op(head: nat) | Data(buf: nat) | Status(head: nat)

  type Block = s: seq<nat> | |s| == BSIZE witness seq(BSIZE, _ => 0)

  datatype Desc = Desc(addr: Addr, len: nat, flags: nat, next: nat)

  datatype Command = Command(write: bool, sector: nat)

  datatype Slot = Empty | Holds(buf: nat)

  datatype Info = Info(b: Slot, status: nat)

  /** Request number id asks to move one block between buffer buf and the disk. */
  datatype Request = Request(id: nat, buf: nat, write: bool, sector: nat)

  /** A chain is filled in, put in the avail ring, fetched by the device, put in the used ring, and noticed by the
      interrupt handler. */
  datatype Stage = Prepared | Sent(pos: nat) | Fetched | Done(pos: nat) | Seen

  datatype Chain = Chain(second: nat, third: nat, req: Request, stage: Stage)

  const ZERO := Desc(Null, 0, 0, 0)

  predicate InChain(h: nat, c: Chain, i: nat) {
    i == h || i == c.second || i == c.third
  }

  // ---- who owns each descriptor ----

  /** The live chains are disjoint triples. */
  ghost predicate Triples(live: map<nat, Chain>) {
    && (forall h :: h in live ==> h < NUM && live[h].second < NUM && live[h].third < NUM)
    && (forall h :: h in live ==> h != live[h].second && h != live[h].third && live[h].second != live[h].third)
    && (forall h, g, i :: h in live && g in live && InChain(h, live[h], i) && InChain(g, live[g], i) ==> h == g)
  }

  /** Every descriptor is free, or in a live chain. */
  ghost predicate Owners(free: seq<bool>, live: map<nat, Chain>) {
    && |free| == NUM && Triples(live)
    && (forall i {:trigger free[i]} :: 0 <= i < NUM ==> (free[i] <==> !Owned(live, i)))
  }

  ghost predicate Owned(live: map<nat, Chain>, i: nat) {
    exists h :: h in live && InChain(h, live[h], i)
  }

  ghost function FreeSet(free: seq<bool>): (s: set<nat>) {
    set i: nat | i < |free| && free[i]
  }

  ghost function Members(live: map<nat, Chain>): (s: set<nat>)
    requires Triples(live)
  {
    set i: nat | i < NUM && Owned(live, i)
  }

  lemma {:induction false} MemberCount(live: map<nat, Chain>)
    requires Triples(live)
    ensures |Members(live)| == 3 * |live|
    decreases |live|
  {
    if live == map[] {
      assert Members(live) == {};
    } else {
      var h :| h in live;
      var rest := live - {h};
      var triple := {h, live[h].second, live[h].third};
      assert |rest| == |live| - 1 by {
        assert rest.Keys == live.Keys - {h};
        assert |live.Keys| == |live| && |rest.Keys| == |rest|;
      }
      MemberCount(rest);
      MembersSplit(live, h);
      assert |Members(rest) + triple| == |Members(rest)| + |triple|;
    }
  }

  lemma MembersSplit(live: map<nat, Chain>, h: nat)
    requires Triples(live) && h in live
    ensures var rest := live - {h};
            var triple := {h, live[h].second, live[h].third};
            Triples(rest) && Members(live) == Members(rest) + triple && Members(rest) !! triple && |triple| == 3
  {
    hide Owned;
    var rest := live - {h};
    var triple := {h, live[h].second, live[h].third};
    TriplesRest(live, h);
    forall i: nat | i < NUM ensures Owned(live, i) <==> Owned(rest, i) || i in triple {
      OwnedSplit(live, h, i);
    }
    forall i | i in triple ensures i !in Members(rest) {
      OwnedSplit(live, h, i);
    }
  }

  lemma TriplesRest(live: map<nat, Chain>, h: nat)
    requires Triples(live) && h in live
    ensures Triples(live - {h})
  {
  }

  lemma OwnedSplit(live: map<nat, Chain>, h: nat, i: nat)
    requires Triples(live) && h in live
    ensures Owned(live, i) <==> Owned(live - {h}, i) || InChain(h, live[h], i)
    ensures !(Owned(live - {h}, i) && InChain(h, live[h], i))
  {
    hide InChain;
    var rest := live - {h};
    if Owned(live, i) && !InChain(h, live[h], i) {
      var g :| g in live && InChain(g, live[g], i);
      assert g in rest && InChain(g, rest[g], i);
    }
    if Owned(rest, i) {
      var g :| g in rest && InChain(g, rest[g], i);
      assert g in live && InChain(g, live[g], i);
    }
  }

  lemma Below(n: nat) returns (s: set<nat>)
    ensures |s| == n && forall i: nat :: i in s <==> i < n
  {
    if n == 0 {
      s := {};
    } else {
      var t := Below(n - 1);
      s := t + {n - 1};
    }
  }

  /** Eight descriptors, three for each live chain: so at most two chains are live. */
  lemma FreeCount(free: seq<bool>, live: map<nat, Chain>)
    requires Owners(free, live)
    ensures |FreeSet(free)| == NUM - 3 * |live| && |live| <= 2
  {
    MemberCount(live);
    var all := Below(NUM);
    assert all == FreeSet(free) + Members(live) by {
      forall i | i in all ensures i in FreeSet(free) + Members(live) {
        assert free[i] || Owned(live, i);
      }
    }
    assert FreeSet(free) !! Members(live);
  }

  // ---- the rings ----

  /** A 16-bit index. */
  function Wrap(n: nat): (i: nat)
    ensures i < UINT16
  {
    n % UINT16
  }

  /** The ring slot for an index. */
  function SlotAt(i: nat): (k: nat)
    ensures k < NUM
  {
    i % NUM
  }

  /** Waiting at position j: in the used ring after the device is done, in the avail ring before it fetches. */
  function Waiting(used: bool, j: nat): (s: Stage) {
    if used then Done(j) else Sent(j)
  }

  /** The entries from lo up to hi, which the other side has yet to read, are the heads of the waiting chains. */
  ghost predicate RingOk(ring: seq<nat>, live: map<nat, Chain>, used: bool, lo: nat, hi: nat) {
    && |ring| == NUM && lo <= hi
    && (forall j: nat {:trigger ring[SlotAt(j)]} ::
          lo <= j < hi ==> ring[SlotAt(j)] in live && live[ring[SlotAt(j)]].stage == Waiting(used, j))
    && (forall h, j: nat {:trigger live[h], Waiting(used, j)} ::
          h in live && live[h].stage == Waiting(used, j) ==> lo <= j < hi && ring[SlotAt(j)] == h)
  }

  lemma ThreeKeys(live: map<nat, Chain>, a: nat, b: nat, c: nat)
    requires a in live && b in live && c in live && a != b && b != c && a != c
    ensures |live| >= 3
  {
    assert {a, b, c} <= live.Keys;
    SubsetSize({a, b, c}, live.Keys);
    assert |live.Keys| == |live|;
  }

  /** No more than two entries are ever waiting, so the slot about to be written is never one of them. */
  lemma RingRoom(ring: seq<nat>, live: map<nat, Chain>, used: bool, lo: nat, hi: nat)
    requires RingOk(ring, live, used, lo, hi) && |live| <= 2
    ensures lo <= hi <= lo + 2 && |ring| == NUM
  {
    if hi - lo >= 3 {
      ThreeKeys(live, ring[SlotAt(lo)], ring[SlotAt(lo + 1)], ring[SlotAt(lo + 2)]);
    }
  }

  /** A ring depends on the live chains only through which of them wait in it. */
  lemma RingFrame(ring: seq<nat>, live: map<nat, Chain>, now: map<nat, Chain>, used: bool, lo: nat, hi: nat)
    requires RingOk(ring, live, used, lo, hi)
    requires forall h, j: nat {:trigger live[h], Waiting(used, j)} {:trigger now[h], Waiting(used, j)} ::
               (h in live && live[h].stage == Waiting(used, j)) <==> (h in now && now[h].stage == Waiting(used, j))
    ensures RingOk(ring, now, used, lo, hi)
  {
    forall j: nat {:trigger ring[SlotAt(j)]} | lo <= j < hi ensures ring[SlotAt(j)] in now && now[ring[SlotAt(j)]].stage == Waiting(used, j) {
      var h := ring[SlotAt(j)];
      assert h in live && live[h].stage == Waiting(used, j);
    }
  }

  /** Writing the slot at hi touches no entry still to be read; then the chain waits there. */
  lemma RingPush(ring: seq<nat>, live: map<nat, Chain>, used: bool, lo: nat, hi: nat, h: nat)
    requires RingOk(ring, live, used, lo, hi) && hi - lo < NUM && h in live
    requires forall j: nat :: live[h].stage != Waiting(used, j)
    ensures RingOk(ring[SlotAt(hi) := h], live, used, lo, hi)
    ensures RingOk(ring[SlotAt(hi) := h], live[h := live[h].(stage := Waiting(used, hi))], used, lo, hi + 1)
  {
    var r, now := ring[SlotAt(hi) := h], live[h := live[h].(stage := Waiting(used, hi))];
    forall j: nat {:trigger r[SlotAt(j)]} | lo <= j < hi ensures r[SlotAt(j)] == ring[SlotAt(j)] {
      SlotsDiffer(j, hi);
    }
    assert forall g, j: nat {:trigger live[g], Waiting(used, j)} ::
        g in live && live[g].stage == Waiting(used, j) ==> r[SlotAt(j)] == g;
  }

  lemma SlotsDiffer(i: nat, j: nat)
    requires i < j < i + NUM
    ensures SlotAt(i) != SlotAt(j)
  {
  }

  lemma RingPop(ring: seq<nat>, live: map<nat, Chain>, used: bool, lo: nat, hi: nat, stage: Stage)
    requires RingOk(ring, live, used, lo, hi) && lo < hi && (forall j: nat :: stage != Waiting(used, j))
    ensures ring[SlotAt(lo)] in live && live[ring[SlotAt(lo)]].stage == Waiting(used, lo)
    ensures RingOk(ring, live[ring[SlotAt(lo)] := live[ring[SlotAt(lo)]].(stage := stage)], used, lo + 1, hi)
  {
    var h := ring[SlotAt(lo)];
    var now := live[h := live[h].(stage := stage)];
    assert live[h].stage == Waiting(used, lo);
    forall j: nat {:trigger ring[SlotAt(j)]} | lo < j < hi ensures ring[SlotAt(j)] != h {
      assert live[ring[SlotAt(j)]].stage == Waiting(used, j);
    }
  }

  /** The 16-bit indices are equal exactly when nothing is waiting. */
  lemma IndexTest(lo: nat, hi: nat)
    requires lo <= hi < lo + UINT16
    ensures Wrap(lo) == Wrap(hi) <==> lo == hi
    ensures Wrap(hi + 1) == Wrap(Wrap(hi) + 1) && Wrap(lo + 1) == Wrap(Wrap(lo) + 1)
    ensures SlotAt(Wrap(hi)) == SlotAt(hi) && SlotAt(Wrap(lo)) == SlotAt(lo)
  {
    hide Wrap, SlotAt;
    Reduce(lo);
    Reduce(hi);
    WrapNext(lo);
    WrapNext(hi);
    WrapSame(lo, hi);
  }

  lemma WrapNext(n: nat)
    ensures Wrap(n + 1) == Wrap(Wrap(n) + 1)
  {
  }

  lemma WrapSame(lo: nat, hi: nat)
    requires lo <= hi < lo + UINT16
    ensures Wrap(lo) == Wrap(hi) <==> lo == hi
  {
  }

  /** The ring size divides the range of the index. */
  lemma Reduce(n: nat)
    ensures SlotAt(Wrap(n)) == SlotAt(n)
  {
    var q, r := n / UINT16, n % UINT16;
    Multiple(8192 * q, r);
  }

  lemma Multiple(a: nat, r: nat)
    ensures (NUM * a + r) % NUM == r % NUM
  {
  }

  // ---- ownership as chains come and go ----

  lemma OwnersAdd(free: seq<bool>, live: map<nat, Chain>, a: nat, c: Chain)
    requires Owners(free, live) && a < NUM && c.second < NUM && c.third < NUM
    requires free[a] && free[c.second] && free[c.third] && a != c.second && a != c.third && c.second != c.third
    ensures a !in live && Triples(live[a := c])
    ensures Owners(free[a := false][c.second := false][c.third := false], live[a := c])
  {
    var now := live[a := c];
    var f := free[a := false][c.second := false][c.third := false];
    assert !Owned(live, a) && !Owned(live, c.second) && !Owned(live, c.third);
    assert a !in live by {
      if a in live { assert InChain(a, live[a], a); }
    }
    forall h, g, i | h in now && g in now && InChain(h, now[h], i) && InChain(g, now[g], i) ensures h == g {
      if h != a {
        assert Owned(live, i);
      }
      if g != a {
        assert Owned(live, i);
      }
    }
    assert now - {a} == live;
    forall i {:trigger f[i]} | 0 <= i < NUM ensures f[i] <==> !Owned(now, i) {
      OwnedSplit(now, a, i);
      assert free[i] <==> !Owned(live, i);
    }
  }

  lemma OwnersDrop(free: seq<bool>, live: map<nat, Chain>, h: nat)
    requires Owners(free, live) && h in live
    ensures var c := live[h];
            Owners(free[h := true][c.second := true][c.third := true], live - {h}) && !free[h] && !free[c.second] && !free[c.third]
  {
    hide Owned;
    var c := live[h];
    var f := free[h := true][c.second := true][c.third := true];
    TriplesRest(live, h);
    OwnedSplit(live, h, h);
    OwnedSplit(live, h, c.second);
    OwnedSplit(live, h, c.third);
    forall i {:trigger f[i]} | 0 <= i < NUM ensures f[i] <==> !Owned(live - {h}, i) {
      OwnedSplit(live, h, i);
    }
  }

  lemma OwnersStage(free: seq<bool>, live: map<nat, Chain>, h: nat, stage: Stage)
    requires Owners(free, live) && h in live
    ensures Owners(free, live[h := live[h].(stage := stage)])
  {
    var now := live[h := live[h].(stage := stage)];
    forall i: nat ensures Owned(now, i) <==> Owned(live, i) {
      if Owned(live, i) {
        var g :| g in live && InChain(g, live[g], i);
        assert g in now && InChain(g, now[g], i);
      }
    }
  }

  // ---- requests ----

  ghost predicate Pending(live: map<nat, Chain>, id: nat) {
    exists h :: h in live && live[h].req.id == id && live[h].stage != Seen
  }

  /** Each request issued is either finished or pending in one chain, and never both. */
  ghost predicate RequestsOk(live: map<nat, Chain>, issued: nat, finished: set<nat>) {
    && (forall h :: h in live ==> live[h].req.id < issued)
    && (forall h, g :: h in live && g in live && h != g ==> live[h].req.id != live[g].req.id)
    && (forall id: nat :: id < issued ==> (id in finished <==> !Pending(live, id)))
    && (forall id :: id in finished ==> id < issued)
  }

  /** A buffer is marked as owned by the disk from submission until the handler has seen its request finish. */
  ghost predicate BuffersOk(live: map<nat, Chain>, busy: set<nat>) {
    && (forall h :: h in live ==> (live[h].req.buf in busy <==> live[h].stage != Seen))
    && (forall h, g :: h in live && g in live && h != g ==> live[h].req.buf != live[g].req.buf)
  }

  lemma RequestsAdd(live: map<nat, Chain>, issued: nat, finished: set<nat>, h: nat, c: Chain)
    requires RequestsOk(live, issued, finished) && h !in live && c.req.id == issued && c.stage != Seen
    ensures RequestsOk(live[h := c], issued + 1, finished)
  {
    var now := live[h := c];
    forall id: nat | id < issued + 1 ensures id in finished <==> !Pending(now, id) {
      assert now[h].req.id == issued;
      if id < issued && Pending(live, id) {
        var g :| g in live && live[g].req.id == id && live[g].stage != Seen;
        assert g in now && now[g].req.id == id;
      }
    }
  }

  lemma RequestsDrop(live: map<nat, Chain>, issued: nat, finished: set<nat>, h: nat)
    requires RequestsOk(live, issued, finished) && h in live && live[h].stage == Seen
    ensures RequestsOk(live - {h}, issued, finished)
  {
    var now := live - {h};
    forall id: nat | id < issued ensures id in finished <==> !Pending(now, id) {
      if Pending(live, id) {
        var g :| g in live && live[g].req.id == id && live[g].stage != Seen;
        assert g in now;
      }
    }
  }

  lemma RequestsStage(live: map<nat, Chain>, issued: nat, finished: set<nat>, h: nat, stage: Stage)
    requires RequestsOk(live, issued, finished) && h in live && live[h].stage != Seen
    ensures live[h].req.id !in finished
    ensures RequestsOk(live[h := live[h].(stage := stage)], issued,
                       if stage == Seen then finished + {live[h].req.id} else finished)
  {
    var now := live[h := live[h].(stage := stage)];
    var id0 := live[h].req.id;
    assert Pending(live, id0);
    forall id: nat | id < issued
      ensures Pending(now, id) <==> Pending(live, id) && !(stage == Seen && id == id0)
    {
      if Pending(live, id) {
        var g :| g in live && live[g].req.id == id && live[g].stage != Seen;
        assert g in now && now[g].req.id == id;
      }
    }
  }
}
