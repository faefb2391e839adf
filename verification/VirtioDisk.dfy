/** The driver of kernel/virtio_disk.c and the device it talks to. Each method is a step that other steps, the
    driver's under its lock or the device's, may precede or follow in any order. */
module VirtioDisk {
  import opened Collections
  import opened VirtQueue

  /** What is in `to` once the first n bytes of `from` have been written over it. */
  function Overlaid(to: Block, from: Block, n: nat): (b: Block)
    ensures n == BSIZE ==> b == from
  {
    if n <= BSIZE then from[..n] + to[n..] else to
  }

  /** The three descriptors of a chain say what its request asks. */
  ghost predicate Formatted(desc: seq<Desc>, ops: seq<Command>, info: seq<Info>, h: nat, c: Chain)
    requires |desc| == |ops| == |info| == NUM && h < NUM && c.second < NUM && c.third < NUM
  {
    && desc[h] == Desc(Op(h), 16, F_NEXT, c.second)
    && desc[c.second] == Desc(Data(c.req.buf), 1024, if c.req.write then F_NEXT else F_NEXT + F_WRITE, c.third)
    && desc[c.third] == Desc(Status(h), 1, F_WRITE, 0)
    && ops[h] == Command(c.req.write, c.req.sector)
    && info[h].b == Holds(c.req.buf)
    && info[h].status == if c.stage.Done? || c.stage.Seen? then 0 else 0xff
  }

  /** The descriptors with those of chain c at h filled in. */
  function Described(desc: seq<Desc>, h: nat, c: Chain): (d: seq<Desc>)
    requires |desc| == NUM && h < NUM && c.second < NUM && c.third < NUM
    ensures |d| == NUM
  {
    desc[h := Desc(Op(h), 16, F_NEXT, c.second)]
        [c.second := Desc(Data(c.req.buf), 1024, if c.req.write then F_NEXT else F_NEXT + F_WRITE, c.third)]
        [c.third := Desc(Status(h), 1, F_WRITE, 0)]
  }

  ghost predicate AllFormatted(desc: seq<Desc>, ops: seq<Command>, info: seq<Info>, live: map<nat, Chain>)
    requires Triples(live)
  {
    && |desc| == |ops| == |info| == NUM
    && forall h :: h in live ==> Formatted(desc, ops, info, h, live[h])
  }

  ghost predicate Zeroed(free: seq<bool>, desc: seq<Desc>) {
    |free| == |desc| && forall i :: 0 <= i < |free| && free[i] ==> desc[i] == ZERO
  }

  ghost predicate Reachable(live: map<nat, Chain>, data: map<nat, Block>, image: map<nat, Block>) {
    forall h :: h in live ==> live[h].req.buf in data && live[h].req.sector in image
  }

  predicate HasNext(d: Desc) {
    d.flags % 2 == 1
  }

  predicate Writable(d: Desc) {
    d.flags / 2 % 2 == 1
  }

  /** What is found on following the descriptors from h: the chain's command, its buffer and its status byte. */
  ghost predicate Chained(desc: seq<Desc>, ops: seq<Command>, h: nat, c: Chain) {
    && |desc| == |ops| == NUM && h < NUM && c.second < NUM && c.third < NUM
    && h != c.second && h != c.third && c.second != c.third
    && desc[h].addr == Op(h) && HasNext(desc[h]) && desc[h].next == c.second
    && desc[c.second].addr == Data(c.req.buf) && HasNext(desc[c.second]) && desc[c.second].next == c.third
    && (Writable(desc[c.second]) <==> !c.req.write)
    && desc[h].len == 16 && desc[c.second].len == BSIZE && desc[c.third].len == 1
    && desc[c.third].addr == Status(h) && Writable(desc[c.third]) && !HasNext(desc[c.third])
    && ops[h] == Command(c.req.write, c.req.sector)
  }

  /** The shared memory and both sides' bookkeeping, with counters that never wrap in place of the 16-bit indices. */
  datatype Queue = Queue(free: seq<bool>, desc: seq<Desc>, ops: seq<Command>, info: seq<Info>, avail: seq<nat>, used: seq<nat>,
                         busy: set<nat>, data: map<nat, Block>, image: map<nat, Block>, live: map<nat, Chain>,
                         sent: nat, fetched: nat, done: nat, seen: nat, issued: nat, finished: set<nat>)

  ghost predicate Good(q: Queue) {
    && Owners(q.free, q.live) && Zeroed(q.free, q.desc) && AllFormatted(q.desc, q.ops, q.info, q.live)
    && RingOk(q.avail, q.live, false, q.fetched, q.sent) && RingOk(q.used, q.live, true, q.seen, q.done)
    && RequestsOk(q.live, q.issued, q.finished) && BuffersOk(q.live, q.busy) && Reachable(q.live, q.data, q.image)
  }

  class Driver {
    var free: seq<bool>
    var desc: seq<Desc>
    var ops: seq<Command>
    var info: seq<Info>
    var availIdx: nat
    var availRing: seq<nat>
    var usedIdx: nat
    var usedRing: seq<nat>
    /** disk.used_idx: how far the handler has looked. */
    var lookedIdx: nat
    /** The buffers whose disk field is 1. */
    var busy: set<nat>
    var data: map<nat, Block>

    // The device's own state.
    var fetchedIdx: nat
    var image: map<nat, Block>

    /** All of this, with the requests in flight. */
    ghost var q: Queue

    ghost predicate Valid()
      reads this
    {
      && Good(q)
      && q.free == free && q.desc == desc && q.ops == ops && q.info == info && q.avail == availRing && q.used == usedRing
      && q.busy == busy && q.data == data && q.image == image
      && availIdx == Wrap(q.sent) && fetchedIdx == Wrap(q.fetched) && usedIdx == Wrap(q.done) && lookedIdx == Wrap(q.seen)
    }

    /** The driver's state once virtio_disk_init() has set up the queue. */
    constructor (data: map<nat, Block>, image: map<nat, Block>)
      ensures Valid() && q.live == map[] && q.finished == {} && q.issued == 0 && q.data == data && q.image == image
    {
      free := seq(NUM, _ => true);
      desc := seq(NUM, _ => ZERO);
      ops := seq(NUM, _ => Command(false, 0));
      info := seq(NUM, _ => Info(Empty, 0));
      availIdx, usedIdx, lookedIdx, fetchedIdx := 0, 0, 0, 0;
      availRing := seq(NUM, _ => 0);
      usedRing := seq(NUM, _ => 0);
      busy := {};
      this.data, this.image := data, image;
      q := Queue(seq(NUM, _ => true), seq(NUM, _ => ZERO), seq(NUM, _ => Command(false, 0)), seq(NUM, _ => Info(Empty, 0)),
                 seq(NUM, _ => 0), seq(NUM, _ => 0), {}, data, image, map[], 0, 0, 0, 0, 0, {});
    }

    method AllocDesc() returns (i: int)
      requires |free| == NUM
      modifies `free
      ensures i < 0 ==> free == old(free) && FreeSet(free) == {}
      ensures 0 <= i ==> i < NUM && old(free)[i] && free == old(free)[i := false] && forall j :: 0 <= j < i ==> !old(free)[j]
    {
      for k := 0 to NUM
        invariant free == old(free) && forall j :: 0 <= j < k ==> !free[j]
      {
        if free[k] {
          free := free[k := false];
          return k;
        }
      }
      return -1;
    }

    method FreeDesc(i: nat)
      requires |free| == |desc| == NUM
      requires i < NUM && !free[i]
      modifies `free, `desc
      ensures free == old(free)[i := true] && desc == old(desc)[i := ZERO]
    {
      desc := desc[i := desc[i].(addr := Null)];
      desc := desc[i := desc[i].(len := 0)];
      desc := desc[i := desc[i].(flags := 0)];
      desc := desc[i := desc[i].(next := 0)];
      free := free[i := true];
    }

    /** Three descriptors, or none: a failed attempt leaves everything as it was. */
    method Alloc3Desc() returns (ok: bool, idx: seq<nat>)
      requires |free| == |desc| == NUM && Zeroed(free, desc)
      modifies `free, `desc
      ensures ok <==> |FreeSet(old(free))| >= 3
      ensures !ok ==> free == old(free)
      ensures desc == old(desc)
      ensures ok ==>
                && |idx| == 3 && (forall k :: 0 <= k < 3 ==> idx[k] < NUM && old(free)[idx[k]])
                && idx[0] != idx[1] && idx[0] != idx[2] && idx[1] != idx[2]
                && free == old(free)[idx[0] := false][idx[1] := false][idx[2] := false]
    {
      idx := [];
      while |idx| < 3
        invariant |idx| <= 3 && desc == old(desc) && |free| == NUM
        invariant forall k :: 0 <= k < |idx| ==> idx[k] < NUM && old(free)[idx[k]]
        invariant forall k, l :: 0 <= k < l < |idx| ==> idx[k] != idx[l]
        invariant free == Cleared(old(free), idx)
      {
        ghost var f := free;
        var i := AllocDesc();
        if i < 0 {
          TooFew(old(free), idx);
          var j := 0;
          while j < |idx|
            invariant j <= |idx| && desc == old(desc) && free == Cleared(old(free), idx[j..])
          {
            ClearedAt(old(free), idx[j..], idx[j]);
            FreeDesc(idx[j]);
            ClearedUndo(old(free), idx, j);
            j := j + 1;
          }
          return false, idx;
        }
        ClearedMore(old(free), idx, i);
        idx := idx + [i];
      }
      Enough(old(free), idx);
      ok := true;
    }

    method FreeChain(h: nat, ghost c: Chain)
      requires Chained(desc, ops, h, c) && |free| == |desc| == NUM && h < NUM && c.second < NUM && c.third < NUM
      requires !free[h] && !free[c.second] && !free[c.third]
      modifies `free, `desc
      ensures free == old(free)[h := true][c.second := true][c.third := true]
      ensures desc == old(desc)[h := ZERO][c.second := ZERO][c.third := ZERO]
    {
      var i := h;
      ghost var k := 0;
      while true
        invariant 0 <= k <= 2 && i == (if k == 0 then h else if k == 1 then c.second else c.third)
        invariant k == 0 ==> free == old(free) && desc == old(desc)
        invariant k == 1 ==> free == old(free)[h := true] && desc == old(desc)[h := ZERO]
        invariant k == 2 ==> free == old(free)[h := true][c.second := true] && desc == old(desc)[h := ZERO][c.second := ZERO]
        decreases 2 - k
      {
        var flags, nxt := desc[i].flags, desc[i].next;
        FreeDesc(i);
        if flags % 2 == 1 {
          i := nxt;
          k := k + 1;
        } else {
          break;
        }
      }
    }

    /** Fills in the three descriptors and the bookkeeping of a request. */
    method FormatChain(h: nat, i: nat, j: nat, b: nat, write: bool, sector: nat, ghost id: nat)
      requires |desc| == |ops| == |info| == NUM && h < NUM && i < NUM && j < NUM && h != i && h != j && i != j
      modifies `desc, `ops, `info, `busy
      ensures ops == old(ops)[h := Command(write, sector)] && info == old(info)[h := Info(Holds(b), 0xff)]
      ensures desc == Described(old(desc), h, Chain(i, j, Request(id, b, write, sector), Prepared))
      ensures busy == old(busy) + {b}
    {
      ops := ops[h := Command(write, sector)];
      desc := desc[h := Desc(Op(h), 16, F_NEXT, i)];
      desc := desc[i := Desc(Data(b), 1024, if write then 0 else F_WRITE, 0)];
      desc := desc[i := desc[i].(flags := desc[i].flags + F_NEXT, next := j)];
      info := info[h := info[h].(status := 0xff)];
      desc := desc[j := Desc(Status(h), 1, F_WRITE, 0)];
      busy := busy + {b};
      info := info[h := info[h].(b := Holds(b))];
    }

    /** virtio_disk_rw() up to the point where the chain is filled in; it sleeps and tries again if not ok. */
    method Prepare(b: nat, write: bool, blockno: nat) returns (ok: bool, h: nat)
      requires Valid() && (forall g :: g in q.live ==> q.live[g].req.buf != b)
      requires b in data && (blockno * 2) % 0x1_0000_0000 in image
      modifies this
      ensures Valid()
      ensures ok <==> |old(q).live| < 2
      ensures !ok ==> q == old(q)
      ensures ok ==> h !in old(q).live
      ensures ok ==> exists c: Chain :: New(old(q), h, c, b, write, (blockno * 2) % 0x1_0000_0000) && q == WithChain(old(q), h, c)
    {
      hide Good, Wrap, FreeSet, Described, WithChain, Zeroed;
      var sector := (blockno * 2) % 0x1_0000_0000;
      GoodSizes(q);
      var idx;
      ok, idx := Alloc3Desc();
      if !ok {
        return false, 0;
      }
      h := idx[0];
      FormatChain(h, idx[1], idx[2], b, write, sector, q.issued);
      ghost var c := Chain(idx[1], idx[2], Request(q.issued, b, write, sector), Prepared);
      PrepareGood(q, h, c);
      WithChainIs(q, h, c);
      assert New(q, h, c, b, write, sector);
      q := WithChain(q, h, c);
    }

    /** The head goes into the avail ring; the device does not look there yet. */
    method Offer(h: nat)
      requires Valid() && h in q.live && q.live[h].stage == Prepared
      modifies this
      ensures Valid() && |old(q).avail| == NUM && q == old(q).(avail := old(q).avail[SlotAt(old(q).sent) := h])
      ensures availRing[SlotAt(availIdx)] == h
    {
      hide Good, Wrap, SlotAt;
      Indices(q);
      OfferGood(q, h);
      availRing := availRing[SlotAt(availIdx) := h];
      q := q.(avail := availRing);
    }

    /** The device may look: avail->idx += 1. */
    method Publish(h: nat)
      requires Valid() && h in q.live && q.live[h].stage == Prepared && |availRing| == NUM && availRing[SlotAt(availIdx)] == h
      modifies this
      ensures Valid() && q == old(q).(live := Staged(old(q).live, h, Sent(old(q).sent)), sent := old(q).sent + 1)
    {
      hide Good, Wrap, SlotAt, Staged;
      Indices(q);
      PublishGood(q, h);
      availIdx := Wrap(availIdx + 1);
      q := q.(live := Staged(q.live, h, Sent(q.sent)), sent := q.sent + 1);
    }

    /** The device fetches the next head from the avail ring, if its index shows that there is one. */
    method Fetch() returns (any: bool, h: nat)
      requires Valid()
      modifies this
      ensures Valid() && any == (old(q).fetched < old(q).sent) && (!any ==> q == old(q))
      ensures any ==> h in old(q).live && old(q).live[h].stage == Sent(old(q).fetched)
      ensures any ==> q == old(q).(live := Staged(old(q).live, h, Stage.Fetched), fetched := old(q).fetched + 1)
    {
      hide Good, Wrap, SlotAt, Staged;
      Indices(q);
      if fetchedIdx == availIdx {
        return false, 0;
      }
      FetchGood(q);
      h := availRing[SlotAt(fetchedIdx)];
      fetchedIdx := Wrap(fetchedIdx + 1);
      q := q.(live := Staged(q.live, h, Stage.Fetched), fetched := q.fetched + 1);
      any := true;
    }

    /** The device follows the descriptors from h: it moves the block and writes the status. */
    method Transfer(h: nat, ghost c: Chain)
      requires Chained(desc, ops, h, c) && |info| == NUM && h < NUM && c.req.buf in data && c.req.sector in image
      modifies `info, `data, `image
      ensures info == old(info)[h := old(info)[h].(status := 0)]
      ensures Moved(c.req, old(data), old(image), data, image)
    {
      var d0 := desc[h];
      var command := ops[d0.addr.head];
      var d1 := desc[d0.next];
      var d2 := desc[d1.next];
      // A command is 16 bytes and a status one.
      if d0.len < 16 || d2.len < 1 || !Writable(d2) {
        return;
      }
      if command.write {
        image := image[command.sector := Overlaid(image[command.sector], data[d1.addr.buf], d1.len)];
      } else if Writable(d1) {
        data := data[d1.addr.buf := Overlaid(data[d1.addr.buf], image[command.sector], d1.len)];
      }
      info := info[d2.addr.head := info[d2.addr.head].(status := 0)];
    }

    /** The device carries out what the descriptors from h say, for any h it has fetched, and reports it. */
    method Complete(h: nat)
      requires Valid() && h in q.live && q.live[h].stage == Stage.Fetched
      modifies this
      ensures Valid() && Moved(old(q).live[h].req, old(q).data, old(q).image, q.data, q.image)
      ensures |old(q).used| == NUM && h < |old(q).info| && q == Completed(old(q), h, q.data, q.image)
    {
      hide Good, Wrap, SlotAt, Staged, Chained, Moved, Completed;
      Indices(q);
      GoodSays(q, h);
      Transfer(h, q.live[h]);
      MovedKeys(q.live[h].req, q.data, q.image, data, image);
      CompleteGood(q, h, data, image);
      CompletedIs(q, h, data, image);
      usedRing := usedRing[SlotAt(usedIdx) := h];
      usedIdx := Wrap(usedIdx + 1);
      q := Completed(q, h, data, image);
    }

    /** One turn of the loop in virtio_disk_intr(). */
    method Notice() returns (any: bool, id: nat)
      requires Valid()
      modifies this
      ensures Valid() && any == (old(q).seen < old(q).done) && (!any ==> q == old(q))
      ensures any ==> id in old(q).live && old(q).live[id].stage == Done(old(q).seen) && old(q).live[id].req.id !in old(q).finished
      ensures any ==> q == old(q).(live := Staged(old(q).live, id, Seen), seen := old(q).seen + 1,
                                   busy := old(q).busy - {old(q).live[id].req.buf},
                                   finished := old(q).finished + {old(q).live[id].req.id})
    {
      hide Good, Wrap, SlotAt, Staged, Chained;
      Indices(q);
      if lookedIdx == usedIdx {
        return false, 0;
      }
      NoticeGood(q);
      id := usedRing[SlotAt(lookedIdx)];
      GoodSays(q, id);
      // The handler panics on any other status.
      assert info[id].status == 0;
      busy := busy - {info[id].b.buf};
      lookedIdx := Wrap(lookedIdx + 1);
      q := q.(live := Staged(q.live, id, Seen), seen := q.seen + 1, busy := busy, finished := q.finished + {q.live[id].req.id});
      any := true;
    }

    /** virtio_disk_intr(): afterwards every request the device had finished is marked so, and so is every one that it
        finishes while the handler is at it; `late` says what it does before each look at the used ring. */
    method Intr(late: seq<Late>)
      requires Valid() && Possible(ToFinish(q.live), q.fetched, late, 0)
      modifies this
      ensures Valid() && old(q).done <= q.done && q.seen == q.done
      ensures Onward(old(q).live, q.live) && forall h :: h in q.live ==> !q.live[h].stage.Done?
      ensures forall h :: h in old(q).live && old(q).live[h].stage.Done? ==> old(q).live[h].req.buf !in busy
    {
      hide Valid, Good, Wrap, Onward, Possible, ToFinish;
      ValidSays();
      Indices(q);
      OnwardSelf(q.live);
      var any, i := true, 0;
      while any
        invariant Valid() && q.seen <= q.done && old(q).done <= q.done && Onward(old(q).live, q.live) && (!any ==> q.seen == q.done)
        invariant i <= |late| && Possible(ToFinish(q.live), q.fetched, late, i)
        decreases |late| - i, q.done - q.seen, any
      {
        if i < |late| {
          Arrive(late, i, old(q).live);
          i := i + 1;
        }
        any := Look(old(q).live);
      }
      ValidSays();
      AllDone(q, old(q).live);
    }

    lemma ValidSays()
      requires Valid()
      ensures Good(q) && busy == q.busy
    {
    }

    /** The device's part before a look at the used ring. */
    method Arrive(late: seq<Late>, i: nat, ghost was: map<nat, Chain>)
      requires Valid() && i < |late| && Possible(ToFinish(q.live), q.fetched, late, i) && Onward(was, q.live)
      modifies this
      ensures Valid() && Onward(was, q.live) && Possible(ToFinish(q.live), q.fetched, late, i + 1)
      ensures q.seen == old(q).seen <= q.done && old(q).done <= q.done
    {
      hide Good, Wrap, Onward, ToFinish;
      match late[i] {
        case None => Indices(q);
        case Next => FetchLate(late, i, was);
        case Head(h) => FinishLate(late, i, h, was);
      }
    }

    method FetchLate(ghost late: seq<Late>, ghost i: nat, ghost was: map<nat, Chain>)
      requires Valid() && i < |late| && late[i] == Next && Possible(ToFinish(q.live), q.fetched, late, i) && Onward(was, q.live)
      modifies this
      ensures Valid() && Onward(was, q.live) && Possible(ToFinish(q.live), q.fetched, late, i + 1)
      ensures q.seen == old(q).seen <= q.done && old(q).done <= q.done
    {
      hide Good, Wrap, Onward, Staged, ToFinish, Possible;
      ghost var before := q;
      Indices(q);
      var any, h := Fetch();
      if any {
        OnwardStep(was, before.live, h, Stage.Fetched);
        PossibleFetch(ToFinish(before.live), before.fetched, late, i, h);
      } else {
        NothingSent(q);
        PossibleIdle(ToFinish(q.live), q.fetched, late, i);
      }
    }

    method FinishLate(ghost late: seq<Late>, ghost i: nat, h: nat, ghost was: map<nat, Chain>)
      requires Valid() && i < |late| && late[i] == Head(h) && Possible(ToFinish(q.live), q.fetched, late, i) && Onward(was, q.live)
      modifies this
      ensures Valid() && Onward(was, q.live) && Possible(ToFinish(q.live), q.fetched, late, i + 1)
      ensures q.seen == old(q).seen <= q.done && old(q).done <= q.done
    {
      hide Good, Wrap, Onward, Staged, ToFinish, Possible, Moved;
      PossibleHead(ToFinish(q.live), q.fetched, late, i, h);
      ToFinishAt(q.live, h);
      OnwardStep(was, q.live, h, Done(q.done));
      Complete(h);
      Indices(q);
    }

    /** The handler's. */
    method Look(ghost was: map<nat, Chain>) returns (any: bool)
      requires Valid() && Onward(was, q.live)
      modifies this
      ensures Valid() && Onward(was, q.live) && ToFinish(q.live) == ToFinish(old(q).live) && q.done == old(q).done && q.fetched == old(q).fetched
      ensures any == (old(q).seen < old(q).done) && q.seen == (if any then old(q).seen + 1 else old(q).seen) <= q.done
    {
      hide Good, Wrap, Onward, Staged, ToFinish;
      ghost var before := q.live;
      Indices(q);
      var id;
      any, id := Notice();
      if any {
        OnwardStep(was, before, id, Seen);
      }
    }

    /** virtio_disk_rw() after the wait: the request is over once the buffer is no longer the disk's. */
    method Finish(h: nat)
      requires Valid() && h in q.live && q.live[h].req.buf !in busy
      modifies this
      ensures Valid() && q.live == old(q).live - {h} && old(q).live[h].req.id in old(q).finished
      ensures q.finished == old(q).finished && q.busy == old(q).busy && q.data == old(q).data && q.image == old(q).image
    {
      hide Good, Wrap, Chained;
      GoodSays(q, h);
      FinishGood(q, h);
      info := info[h := info[h].(b := Empty)];
      FreeChain(h, q.live[h]);
      q := Finished(q, h);
    }
  }

  /** The flags with those of the listed descriptors cleared. */
  function Cleared(free: seq<bool>, idx: seq<nat>): (r: seq<bool>)
    ensures |r| == |free|
  {
    seq(|free|, i requires 0 <= i < |free| => free[i] && i !in idx)
  }

  lemma ClearedAt(free: seq<bool>, idx: seq<nat>, i: nat)
    requires i in idx && i < |free|
    ensures !Cleared(free, idx)[i]
  {
  }

  lemma ClearedMore(free: seq<bool>, idx: seq<nat>, i: nat)
    requires i < |free| && Cleared(free, idx)[i]
    ensures Cleared(free, idx)[i := false] == Cleared(free, idx + [i])
    ensures free[i] && i !in idx
  {
  }

  lemma ClearedUndo(free: seq<bool>, idx: seq<nat>, j: nat)
    requires j < |idx| && (forall k :: 0 <= k < |idx| ==> idx[k] < |free| && free[idx[k]])
    requires forall k, l :: 0 <= k < l < |idx| ==> idx[k] != idx[l]
    ensures Cleared(free, idx[j..])[idx[j] := true] == Cleared(free, idx[j + 1..])
  {
    assert idx[j..] == [idx[j]] + idx[j + 1..];
  }

  lemma TooFew(free: seq<bool>, idx: seq<nat>)
    requires FreeSet(Cleared(free, idx)) == {} && |idx| < 3
    ensures |FreeSet(free)| < 3
  {
    var s := set k | 0 <= k < |idx| :: idx[k];
    assert FreeSet(free) <= s by {
      forall i | i in FreeSet(free) ensures i in s {
        assert i !in FreeSet(Cleared(free, idx));
        assert i in idx;
      }
    }
    SubsetSize(FreeSet(free), s);
    if |idx| == 0 {
      assert s == {};
    } else if |idx| == 1 {
      assert s == {idx[0]};
    } else {
      assert s == {idx[0], idx[1]};
    }
  }

  lemma Enough(free: seq<bool>, idx: seq<nat>)
    requires |idx| == 3 && (forall k :: 0 <= k < 3 ==> idx[k] < |free| && free[idx[k]])
    requires forall k, l :: 0 <= k < l < |idx| ==> idx[k] != idx[l]
    ensures |FreeSet(free)| >= 3
    ensures Cleared(free, idx) == free[idx[0] := false][idx[1] := false][idx[2] := false]
    ensures idx[0] != idx[1] && idx[0] != idx[2] && idx[1] != idx[2]
  {
    SubsetSize({idx[0], idx[1], idx[2]}, FreeSet(free));
  }

  // ---- what each step keeps ----

  lemma Sizes(free: seq<bool>, desc: seq<Desc>, ops: seq<Command>, info: seq<Info>, live: map<nat, Chain>)
    requires Owners(free, live) && AllFormatted(desc, ops, info, live)
    ensures |free| == |desc| == |ops| == |info| == NUM
  {
  }

  lemma FormatAdd(free: seq<bool>, desc: seq<Desc>, ops: seq<Command>, info: seq<Info>, live: map<nat, Chain>, h: nat, c: Chain)
    requires Owners(free, live) && Zeroed(free, desc) && AllFormatted(desc, ops, info, live)
    requires h < NUM && c.second < NUM && c.third < NUM && free[h] && free[c.second] && free[c.third]
    requires h != c.second && h != c.third && c.second != c.third && c.stage == Prepared && h !in live
    requires Triples(live[h := c]) && |desc| == NUM
    ensures var d := Described(desc, h, c);
            && AllFormatted(d, ops[h := Command(c.req.write, c.req.sector)], info[h := Info(Holds(c.req.buf), 0xff)], live[h := c])
            && Zeroed(free[h := false][c.second := false][c.third := false], d)
  {
    hide Owners, Zeroed, Formatted;
    Sizes(free, desc, ops, info, live);
    var d := Described(desc, h, c);
    var o, n, now := ops[h := Command(c.req.write, c.req.sector)], info[h := Info(Holds(c.req.buf), 0xff)], live[h := c];
    FormatNew(d, o, n, h, c);
    forall g | g in now ensures Formatted(d, o, n, g, now[g]) {
      if g != h {
        NotFree(free, live, g);
        FormatFrame(desc, d, ops, o, info, n, g, live[g]);
      }
    }
    ZeroedAfter(free, desc, d, h, c);
  }

  lemma FormatNew(d: seq<Desc>, o: seq<Command>, n: seq<Info>, h: nat, c: Chain)
    requires |d| == |o| == |n| == NUM && h < NUM && c.second < NUM && c.third < NUM && c.stage == Prepared
    requires d[h] == Desc(Op(h), 16, F_NEXT, c.second) && d[c.third] == Desc(Status(h), 1, F_WRITE, 0)
    requires d[c.second] == Desc(Data(c.req.buf), 1024, if c.req.write then F_NEXT else F_NEXT + F_WRITE, c.third)
    requires o[h] == Command(c.req.write, c.req.sector) && n[h] == Info(Holds(c.req.buf), 0xff)
    ensures Formatted(d, o, n, h, c)
  {
  }

  lemma FormatFrame(desc: seq<Desc>, d: seq<Desc>, ops: seq<Command>, o: seq<Command>, info: seq<Info>, n: seq<Info>, g: nat, c: Chain)
    requires |desc| == |ops| == |info| == NUM && g < NUM && c.second < NUM && c.third < NUM
    requires |d| == |o| == |n| == NUM && Formatted(desc, ops, info, g, c)
    requires d[g] == desc[g] && d[c.second] == desc[c.second] && d[c.third] == desc[c.third] && o[g] == ops[g] && n[g] == info[g]
    ensures Formatted(d, o, n, g, c)
  {
  }

  lemma NotFree(free: seq<bool>, live: map<nat, Chain>, g: nat)
    requires Owners(free, live) && g in live
    ensures g < NUM && live[g].second < NUM && live[g].third < NUM
    ensures !free[g] && !free[live[g].second] && !free[live[g].third]
  {
    assert InChain(g, live[g], g) && InChain(g, live[g], live[g].second) && InChain(g, live[g], live[g].third);
  }

  lemma ZeroedAfter(free: seq<bool>, desc: seq<Desc>, d: seq<Desc>, h: nat, c: Chain)
    requires Zeroed(free, desc) && |d| == |free| && h < |free| && c.second < |free| && c.third < |free|
    requires forall i :: 0 <= i < |free| && i != h && i != c.second && i != c.third ==> d[i] == desc[i]
    ensures Zeroed(free[h := false][c.second := false][c.third := false], d)
  {
  }

  lemma RingsAdd(avail: seq<nat>, used: seq<nat>, live: map<nat, Chain>, h: nat, c: Chain, lo: nat, hi: nat, lo': nat, hi': nat)
    requires RingOk(avail, live, false, lo, hi) && RingOk(used, live, true, lo', hi') && h !in live && c.stage == Prepared
    ensures RingOk(avail, live[h := c], false, lo, hi) && RingOk(used, live[h := c], true, lo', hi')
  {
    RingFrame(avail, live, live[h := c], false, lo, hi);
    RingFrame(used, live, live[h := c], true, lo', hi');
  }

  lemma BuffersAdd(live: map<nat, Chain>, busy: set<nat>, data: map<nat, Block>, image: map<nat, Block>, h: nat, c: Chain)
    requires BuffersOk(live, busy) && Reachable(live, data, image) && h !in live && c.stage == Prepared
    requires (forall g :: g in live ==> live[g].req.buf != c.req.buf) && c.req.buf in data && c.req.sector in image
    ensures BuffersOk(live[h := c], busy + {c.req.buf}) && Reachable(live[h := c], data, image)
  {
  }

  /** A change of stage that is neither to nor from waiting in the ring. */
  lemma RingKeeps(ring: seq<nat>, live: map<nat, Chain>, used: bool, lo: nat, hi: nat, h: nat, stage: Stage)
    requires RingOk(ring, live, used, lo, hi) && h in live
    requires forall j: nat :: live[h].stage != Waiting(used, j) && stage != Waiting(used, j)
    ensures RingOk(ring, live[h := live[h].(stage := stage)], used, lo, hi)
  {
    RingFrame(ring, live, live[h := live[h].(stage := stage)], used, lo, hi);
  }

  /** A step from one stage to the next before the device is done. */
  lemma StageKeeps(free: seq<bool>, desc: seq<Desc>, ops: seq<Command>, info: seq<Info>, live: map<nat, Chain>,
                   issued: nat, finished: set<nat>, busy: set<nat>, data: map<nat, Block>, image: map<nat, Block>,
                   h: nat, stage: Stage)
    requires Owners(free, live) && AllFormatted(desc, ops, info, live) && RequestsOk(live, issued, finished)
    requires BuffersOk(live, busy) && Reachable(live, data, image)
    requires h in live && !live[h].stage.Done? && !live[h].stage.Seen? && !stage.Done? && !stage.Seen?
    ensures var now := live[h := live[h].(stage := stage)];
            && Triples(now) && Owners(free, now) && AllFormatted(desc, ops, info, now) && RequestsOk(now, issued, finished)
            && BuffersOk(now, busy) && Reachable(now, data, image)
  {
    hide RequestsOk;
    OwnersStage(free, live, h, stage);
    RequestsStage(live, issued, finished, h, stage);
  }

  /** What the device does between two turns of the handler's loop: nothing, fetch the next request, or finish one. */
  datatype Late = None | Next | Head(h: nat)

  predicate Past(stage: Stage) {
    stage.Done? || stage == Seen
  }

  /** The requests that the device has yet to finish. */
  ghost function ToFinish(live: map<nat, Chain>): (r: map<nat, Stage>) {
    map h | h in live && !Past(live[h].stage) :: live[h].stage
  }

  /** From the i-th on, the steps are ones the device can take: it finishes what it has fetched. */
  ghost predicate Possible(pending: map<nat, Stage>, fetched: nat, late: seq<Late>, i: nat)
    decreases |late| - i
  {
    i >= |late| ||
    match late[i]
    case None => Possible(pending, fetched, late, i + 1)
    case Next =>
      && (forall h :: h in pending && pending[h] == Sent(fetched) ==> Possible(pending[h := Stage.Fetched], fetched + 1, late, i + 1))
      && ((forall h :: h in pending ==> pending[h] != Sent(fetched)) ==> Possible(pending, fetched, late, i + 1))
    case Head(h) => h in pending && pending[h] == Stage.Fetched && Possible(pending - {h}, fetched, late, i + 1)
  }

  lemma PossibleFetch(pending: map<nat, Stage>, fetched: nat, late: seq<Late>, i: nat, h: nat)
    requires i < |late| && late[i] == Next && Possible(pending, fetched, late, i) && h in pending && pending[h] == Sent(fetched)
    ensures Possible(pending[h := Stage.Fetched], fetched + 1, late, i + 1)
  {
  }

  lemma PossibleIdle(pending: map<nat, Stage>, fetched: nat, late: seq<Late>, i: nat)
    requires i < |late| && late[i] == Next && Possible(pending, fetched, late, i) && forall h :: h in pending ==> pending[h] != Sent(fetched)
    ensures Possible(pending, fetched, late, i + 1)
  {
  }

  lemma PossibleHead(pending: map<nat, Stage>, fetched: nat, late: seq<Late>, i: nat, h: nat)
    requires i < |late| && late[i] == Head(h) && Possible(pending, fetched, late, i)
    ensures h in pending && pending[h] == Stage.Fetched && Possible(pending - {h}, fetched, late, i + 1)
  {
  }

  lemma ToFinishAt(live: map<nat, Chain>, h: nat)
    requires h in ToFinish(live)
    ensures h in live && live[h].stage == ToFinish(live)[h]
  {
  }

  lemma NothingSent(q: Queue)
    requires Good(q) && q.fetched == q.sent
    ensures forall h :: h in ToFinish(q.live) ==> ToFinish(q.live)[h] != Sent(q.fetched)
  {
    hide Owners, RequestsOk, BuffersOk, AllFormatted, Zeroed, Reachable, Triples;
    assert Waiting(false, q.fetched) == Sent(q.fetched);
  }

  /** The same requests; those that were over still are, and the others are where they were or further on, which those not
      sent are not. */
  ghost predicate Onward(was: map<nat, Chain>, live: map<nat, Chain>) {
    && live.Keys == was.Keys
    && forall h :: h in was ==> OnwardAt(was[h], live[h])
  }

  ghost predicate OnwardAt(was: Chain, now: Chain) {
    now.(stage := Seen) == was.(stage := Seen) && (now.stage == was.stage || Further(was.stage, now.stage))
  }

  predicate Further(was: Stage, now: Stage) {
    (Past(was) && Past(now)) || (was == Stage.Fetched && Past(now)) || (was.Sent? && (now == Stage.Fetched || Past(now)))
  }

  lemma OnwardSelf(live: map<nat, Chain>)
    ensures Onward(live, live)
  {
  }

  lemma OnwardStep(was: map<nat, Chain>, live: map<nat, Chain>, h: nat, stage: Stage)
    requires Onward(was, live) && h in live && Further(live[h].stage, stage)
    ensures Onward(was, Staged(live, h, stage))
    ensures ToFinish(Staged(live, h, stage)) ==
            if stage == Stage.Fetched then ToFinish(live)[h := stage] else if Past(live[h].stage) then ToFinish(live) else ToFinish(live) - {h}
    ensures !Past(live[h].stage) ==> h in ToFinish(live) && ToFinish(live)[h] == live[h].stage
  {
    assert OnwardAt(was[h], live[h]);
  }

  lemma NothingDone(ring: seq<nat>, live: map<nat, Chain>, pos: nat)
    requires RingOk(ring, live, true, pos, pos)
    ensures forall h :: h in live ==> !live[h].stage.Done?
  {
    forall h | h in live ensures !live[h].stage.Done? {
      var p: nat := if live[h].stage.Done? then live[h].stage.pos else 0;
      assert Waiting(true, p) == Done(p);
    }
  }

  lemma SeenFree(was: map<nat, Chain>, live: map<nat, Chain>, busy: set<nat>)
    requires Onward(was, live) && BuffersOk(live, busy) && forall h :: h in live ==> !live[h].stage.Done?
    ensures forall h :: h in was && was[h].stage.Done? ==> was[h].req.buf !in busy
  {
    forall h | h in was && was[h].stage.Done? ensures was[h].req.buf !in busy {
      assert h in live && OnwardAt(was[h], live[h]);
      assert live[h].stage == Seen;
    }
  }

  /** What the device, following the descriptors from h, finds. */
  lemma Says(free: seq<bool>, desc: seq<Desc>, ops: seq<Command>, info: seq<Info>, live: map<nat, Chain>, h: nat)
    requires Owners(free, live) && AllFormatted(desc, ops, info, live) && h in live
    ensures var c := live[h];
            && |free| == |desc| == |ops| == |info| == NUM && h < NUM && c.second < NUM && c.third < NUM
            && h != c.second && h != c.third && c.second != c.third
            && desc[h].addr == Op(h) && HasNext(desc[h]) && desc[h].next == c.second
            && desc[c.second].addr == Data(c.req.buf) && HasNext(desc[c.second]) && desc[c.second].next == c.third
            && (Writable(desc[c.second]) <==> !c.req.write)
            && desc[h].len == 16 && desc[c.second].len == BSIZE && desc[c.third].len == 1
            && desc[c.third].addr == Status(h) && Writable(desc[c.third]) && !HasNext(desc[c.third])
            && ops[h] == Command(c.req.write, c.req.sector) && info[h].b == Holds(c.req.buf)
            && info[h].status == if c.stage.Done? || c.stage.Seen? then 0 else 0xff
  {
    assert Formatted(desc, ops, info, h, live[h]);
  }

  lemma Within(live: map<nat, Chain>, data: map<nat, Block>, image: map<nat, Block>, h: nat)
    requires Reachable(live, data, image) && h in live
    ensures live[h].req.buf in data && live[h].req.sector in image
  {
  }

  lemma ReachableStill(live: map<nat, Chain>, data: map<nat, Block>, image: map<nat, Block>,
                       data': map<nat, Block>, image': map<nat, Block>)
    requires Reachable(live, data, image) && data.Keys <= data'.Keys && image.Keys <= image'.Keys
    ensures Reachable(live, data', image')
  {
  }

  lemma FormatDone(free: seq<bool>, desc: seq<Desc>, ops: seq<Command>, info: seq<Info>, live: map<nat, Chain>, h: nat, stage: Stage)
    requires Owners(free, live) && AllFormatted(desc, ops, info, live) && h in live && h < |info| && (stage.Done? || stage.Seen?)
    ensures var now := live[h := live[h].(stage := stage)];
            Triples(now) && AllFormatted(desc, ops, info[h := info[h].(status := 0)], now)
  {
    hide Formatted;
    var now, n := live[h := live[h].(stage := stage)], info[h := info[h].(status := 0)];
    OwnersStage(free, live, h, stage);
    forall g | g in now ensures Formatted(desc, ops, n, g, now[g]) {
      if g == h {
        FormatDoneHere(desc, ops, info, h, live[h], stage);
      } else {
        FormatFrame(desc, desc, ops, ops, info, n, g, live[g]);
      }
    }
  }

  lemma FormatDoneHere(desc: seq<Desc>, ops: seq<Command>, info: seq<Info>, h: nat, c: Chain, stage: Stage)
    requires |desc| == |ops| == |info| == NUM && h < NUM && c.second < NUM && c.third < NUM
    requires Formatted(desc, ops, info, h, c) && (stage.Done? || stage.Seen?)
    ensures Formatted(desc, ops, info[h := info[h].(status := 0)], h, c.(stage := stage))
  {
  }

  lemma DoneKeeps(free: seq<bool>, desc: seq<Desc>, ops: seq<Command>, info: seq<Info>, live: map<nat, Chain>,
                  issued: nat, finished: set<nat>, busy: set<nat>, data: map<nat, Block>, image: map<nat, Block>,
                  h: nat, pos: nat)
    requires Owners(free, live) && AllFormatted(desc, ops, info, live) && RequestsOk(live, issued, finished)
    requires BuffersOk(live, busy) && Reachable(live, data, image) && h in live && live[h].stage == Stage.Fetched
    ensures var now := live[h := live[h].(stage := Done(pos))];
            && h < |info| && Triples(now) && Owners(free, now) && AllFormatted(desc, ops, info[h := info[h].(status := 0)], now)
            && RequestsOk(now, issued, finished) && BuffersOk(now, busy) && Reachable(now, data, image)
  {
    hide RequestsOk, Formatted;
    OwnersStage(free, live, h, Done(pos));
    FormatDone(free, desc, ops, info, live, h, Done(pos));
    RequestsStage(live, issued, finished, h, Done(pos));
  }

  lemma SeenKeeps(free: seq<bool>, desc: seq<Desc>, ops: seq<Command>, info: seq<Info>, live: map<nat, Chain>,
                  issued: nat, finished: set<nat>, busy: set<nat>, data: map<nat, Block>, image: map<nat, Block>, h: nat)
    requires Owners(free, live) && AllFormatted(desc, ops, info, live) && RequestsOk(live, issued, finished)
    requires BuffersOk(live, busy) && Reachable(live, data, image) && h in live && live[h].stage.Done?
    ensures var now := live[h := live[h].(stage := Seen)];
            && Triples(now) && Owners(free, now) && AllFormatted(desc, ops, info, now)
            && live[h].req.id !in finished && RequestsOk(now, issued, finished + {live[h].req.id})
            && BuffersOk(now, busy - {live[h].req.buf}) && Reachable(now, data, image)
  {
    hide RequestsOk, Formatted;
    OwnersStage(free, live, h, Seen);
    Says(free, desc, ops, info, live, h);
    FormatDone(free, desc, ops, info, live, h, Seen);
    assert info[h := info[h].(status := 0)] == info;
    RequestsStage(live, issued, finished, h, Seen);
  }

  lemma Over(live: map<nat, Chain>, issued: nat, finished: set<nat>, busy: set<nat>, h: nat)
    requires RequestsOk(live, issued, finished) && BuffersOk(live, busy) && h in live && live[h].req.buf !in busy
    ensures live[h].stage == Seen && live[h].req.id in finished
  {
  }

  lemma FormatDrop(free: seq<bool>, desc: seq<Desc>, ops: seq<Command>, info: seq<Info>, live: map<nat, Chain>, h: nat)
    requires Owners(free, live) && Zeroed(free, desc) && AllFormatted(desc, ops, info, live) && h in live
    ensures var c := live[h];
            && h < |info| && h < |desc| && c.second < |desc| && c.third < |desc|
            && var d := desc[h := ZERO][c.second := ZERO][c.third := ZERO];
            && Triples(live - {h}) && AllFormatted(d, ops, info[h := info[h].(b := Empty)], live - {h})
            && Zeroed(free[h := true][c.second := true][c.third := true], d)
  {
    hide Formatted;
    TriplesRest(live, h);
    var c := live[h];
    var d, n := desc[h := ZERO][c.second := ZERO][c.third := ZERO], info[h := info[h].(b := Empty)];
    forall g | g in live - {h} ensures Formatted(d, ops, n, g, live[g]) {
      Disjoint(live, g, h);
      FormatFrame(desc, d, ops, ops, info, n, g, live[g]);
    }
  }

  lemma Disjoint(live: map<nat, Chain>, g: nat, h: nat)
    requires Triples(live) && g in live && h in live && g != h
    ensures !InChain(h, live[h], g) && !InChain(h, live[h], live[g].second) && !InChain(h, live[h], live[g].third)
  {
    assert InChain(g, live[g], g) && InChain(g, live[g], live[g].second) && InChain(g, live[g], live[g].third);
  }

  lemma RingsDrop(avail: seq<nat>, used: seq<nat>, live: map<nat, Chain>, h: nat, lo: nat, hi: nat, lo': nat, hi': nat)
    requires RingOk(avail, live, false, lo, hi) && RingOk(used, live, true, lo', hi') && h in live && live[h].stage == Seen
    ensures RingOk(avail, live - {h}, false, lo, hi) && RingOk(used, live - {h}, true, lo', hi')
  {
    RingFrame(avail, live, live - {h}, false, lo, hi);
    RingFrame(used, live, live - {h}, true, lo', hi');
  }

  lemma BuffersDrop(live: map<nat, Chain>, busy: set<nat>, data: map<nat, Block>, image: map<nat, Block>, h: nat)
    requires BuffersOk(live, busy) && Reachable(live, data, image) && h in live
    ensures BuffersOk(live - {h}, busy) && Reachable(live - {h}, data, image)
  {
  }

  // ---- the steps on the whole queue ----

  lemma GoodSizes(q: Queue)
    requires Good(q)
    ensures |q.free| == |q.desc| == |q.ops| == |q.info| == NUM && Zeroed(q.free, q.desc)
    ensures |FreeSet(q.free)| >= 3 <==> |q.live| < 2
  {
    hide Owners, RingOk, RequestsOk, BuffersOk, AllFormatted, Zeroed, Reachable;
    FreeCount(q.free, q.live);
    Sizes(q.free, q.desc, q.ops, q.info, q.live);
  }

  /** The indices are close enough for their 16 bits to tell. */
  lemma Indices(q: Queue)
    requires Good(q)
    ensures |q.avail| == |q.used| == NUM && q.fetched <= q.sent && q.seen <= q.done
    ensures Wrap(q.fetched) == Wrap(q.sent) <==> q.fetched == q.sent
    ensures Wrap(q.seen) == Wrap(q.done) <==> q.seen == q.done
    ensures forall n :: n in {q.fetched, q.sent, q.seen, q.done} ==> Wrap(n + 1) == Wrap(Wrap(n) + 1) && SlotAt(Wrap(n)) == SlotAt(n)
  {
    hide Owners, RingOk, RequestsOk, BuffersOk, AllFormatted, Zeroed, Reachable, Wrap, SlotAt;
    FreeCount(q.free, q.live);
    RingRoom(q.avail, q.live, false, q.fetched, q.sent);
    RingRoom(q.used, q.live, true, q.seen, q.done);
    IndexTest(q.fetched, q.sent);
    IndexTest(q.seen, q.done);
  }

  ghost function WithChain(q: Queue, h: nat, c: Chain): (r: Queue)
    requires |q.free| == |q.desc| == |q.ops| == |q.info| == NUM && h < NUM && c.second < NUM && c.third < NUM
  {
    q.(free := q.free[h := false][c.second := false][c.third := false], desc := Described(q.desc, h, c),
       ops := q.ops[h := Command(c.req.write, c.req.sector)], info := q.info[h := Info(Holds(c.req.buf), 0xff)],
       busy := q.busy + {c.req.buf}, live := q.live[h := c], issued := q.issued + 1)
  }

  /** c is a chain at h for a request of its own. */
  ghost predicate New(q: Queue, h: nat, c: Chain, b: nat, write: bool, sector: nat)
    ensures New(q, h, c, b, write, sector) ==>
              |q.free| == |q.desc| == |q.ops| == |q.info| == NUM && h < NUM && c.second < NUM && c.third < NUM
  {
    && |q.free| == |q.desc| == |q.ops| == |q.info| == NUM && h < NUM && c.second < NUM && c.third < NUM
    && c.req == Request(q.issued, b, write, sector) && c.stage == Prepared
  }

  lemma WithChainIs(q: Queue, h: nat, c: Chain)
    requires |q.free| == |q.desc| == |q.ops| == |q.info| == NUM && h < NUM && c.second < NUM && c.third < NUM
    ensures var r := WithChain(q, h, c);
            && r.free == q.free[h := false][c.second := false][c.third := false] && r.desc == Described(q.desc, h, c)
            && r.ops == q.ops[h := Command(c.req.write, c.req.sector)] && r.info == q.info[h := Info(Holds(c.req.buf), 0xff)]
            && r.busy == q.busy + {c.req.buf} && r.avail == q.avail && r.used == q.used && r.data == q.data && r.image == q.image
            && r.sent == q.sent && r.fetched == q.fetched && r.done == q.done && r.seen == q.seen
  {
  }

  lemma PrepareGood(q: Queue, h: nat, c: Chain)
    requires Good(q) && |q.free| == |q.desc| == |q.ops| == |q.info| == NUM && h < NUM && c.second < NUM && c.third < NUM
    requires q.free[h] && q.free[c.second] && q.free[c.third] && h != c.second && h != c.third && c.second != c.third
    requires c.stage == Prepared && c.req.id == q.issued && c.req.buf in q.data && c.req.sector in q.image
    requires forall g :: g in q.live ==> q.live[g].req.buf != c.req.buf
    ensures h !in q.live && Good(WithChain(q, h, c))
  {
    hide Owners, RingOk, RequestsOk, BuffersOk, AllFormatted, Zeroed, Reachable, Triples, Described;
    OwnersAdd(q.free, q.live, h, c);
    FormatAdd(q.free, q.desc, q.ops, q.info, q.live, h, c);
    RequestsAdd(q.live, q.issued, q.finished, h, c);
    RingsAdd(q.avail, q.used, q.live, h, c, q.fetched, q.sent, q.seen, q.done);
    BuffersAdd(q.live, q.busy, q.data, q.image, h, c);
  }

  lemma OfferGood(q: Queue, h: nat)
    requires Good(q) && h in q.live && q.live[h].stage == Prepared && |q.avail| == NUM
    ensures Good(q.(avail := q.avail[SlotAt(q.sent) := h]))
  {
    hide Owners, RingOk, RequestsOk, BuffersOk, AllFormatted, Zeroed, Reachable, Triples;
    FreeCount(q.free, q.live);
    RingRoom(q.avail, q.live, false, q.fetched, q.sent);
    RingPush(q.avail, q.live, false, q.fetched, q.sent, h);
  }

  ghost function Staged(live: map<nat, Chain>, h: nat, stage: Stage): (r: map<nat, Chain>)
    requires h in live
  {
    live[h := live[h].(stage := stage)]
  }

  lemma PublishGood(q: Queue, h: nat)
    requires Good(q) && h in q.live && q.live[h].stage == Prepared && |q.avail| == NUM && q.avail[SlotAt(q.sent)] == h
    ensures Good(q.(live := Staged(q.live, h, Sent(q.sent)), sent := q.sent + 1))
  {
    hide Owners, RingOk, RequestsOk, BuffersOk, AllFormatted, Zeroed, Reachable, Triples, SlotAt;
    FreeCount(q.free, q.live);
    RingRoom(q.avail, q.live, false, q.fetched, q.sent);
    RingPush(q.avail, q.live, false, q.fetched, q.sent, h);
    assert q.avail[SlotAt(q.sent) := h] == q.avail;
    StageKeeps(q.free, q.desc, q.ops, q.info, q.live, q.issued, q.finished, q.busy, q.data, q.image, h, Sent(q.sent));
    RingKeeps(q.used, q.live, true, q.seen, q.done, h, Sent(q.sent));
  }

  lemma FetchGood(q: Queue)
    requires Good(q) && q.fetched < q.sent && |q.avail| == NUM
    ensures var h := q.avail[SlotAt(q.fetched)];
            && h in q.live && q.live[h].stage == Sent(q.fetched)
            && Good(q.(live := Staged(q.live, h, Stage.Fetched), fetched := q.fetched + 1))
  {
    hide Owners, RingOk, RequestsOk, BuffersOk, AllFormatted, Zeroed, Reachable, Triples, SlotAt;
    var h := q.avail[SlotAt(q.fetched)];
    RingPop(q.avail, q.live, false, q.fetched, q.sent, Stage.Fetched);
    StageKeeps(q.free, q.desc, q.ops, q.info, q.live, q.issued, q.finished, q.busy, q.data, q.image, h, Stage.Fetched);
    RingKeeps(q.used, q.live, true, q.seen, q.done, h, Stage.Fetched);
  }

  ghost function Completed(q: Queue, h: nat, data: map<nat, Block>, image: map<nat, Block>): (r: Queue)
    requires h in q.live && |q.used| == NUM && h < |q.info|
  {
    q.(info := q.info[h := q.info[h].(status := 0)], used := q.used[SlotAt(q.done) := h],
       live := Staged(q.live, h, Done(q.done)), done := q.done + 1, data := data, image := image)
  }

  lemma CompletedIs(q: Queue, h: nat, data: map<nat, Block>, image: map<nat, Block>)
    requires h in q.live && |q.used| == NUM && h < |q.info|
    ensures var r := Completed(q, h, data, image);
            && r.info == q.info[h := q.info[h].(status := 0)] && r.used == q.used[SlotAt(q.done) := h] && r.done == q.done + 1
            && r.data == data && r.image == image && r.free == q.free && r.desc == q.desc && r.ops == q.ops && r.avail == q.avail
            && r.busy == q.busy && r.sent == q.sent && r.fetched == q.fetched && r.seen == q.seen
  {
  }

  /** The block moves as the request says: from its buffer to its sector or the other way. */
  ghost predicate Moved(r: Request, data: map<nat, Block>, image: map<nat, Block>,
                        data': map<nat, Block>, image': map<nat, Block>) {
    && r.buf in data && r.sector in image
    && image' == (if r.write then image[r.sector := data[r.buf]] else image)
    && data' == (if r.write then data else data[r.buf := image[r.sector]])
  }

  lemma MovedKeys(r: Request, data: map<nat, Block>, image: map<nat, Block>,
                  data': map<nat, Block>, image': map<nat, Block>)
    requires Moved(r, data, image, data', image')
    ensures data.Keys <= data'.Keys && image.Keys <= image'.Keys
  {
  }

  lemma CompleteGood(q: Queue, h: nat, data: map<nat, Block>, image: map<nat, Block>)
    requires Good(q) && h in q.live && q.live[h].stage == Stage.Fetched && |q.used| == NUM && h < |q.info|
    requires q.data.Keys <= data.Keys && q.image.Keys <= image.Keys
    ensures Good(Completed(q, h, data, image))
  {
    hide Owners, RingOk, RequestsOk, BuffersOk, AllFormatted, Zeroed, Reachable, Triples, SlotAt;
    FreeCount(q.free, q.live);
    RingRoom(q.used, q.live, true, q.seen, q.done);
    RingPush(q.used, q.live, true, q.seen, q.done, h);
    RingKeeps(q.avail, q.live, false, q.fetched, q.sent, h, Done(q.done));
    DoneKeeps(q.free, q.desc, q.ops, q.info, q.live, q.issued, q.finished, q.busy, q.data, q.image, h, q.done);
    ReachableStill(Staged(q.live, h, Done(q.done)), q.data, q.image, data, image);
  }

  lemma NoticeGood(q: Queue)
    requires Good(q) && q.seen < q.done && |q.used| == NUM
    ensures var h := q.used[SlotAt(q.seen)];
            && h in q.live && q.live[h].stage == Done(q.seen) && q.live[h].req.id !in q.finished
            && Good(q.(live := Staged(q.live, h, Seen), seen := q.seen + 1, busy := q.busy - {q.live[h].req.buf},
                       finished := q.finished + {q.live[h].req.id}))
  {
    hide Owners, RingOk, RequestsOk, BuffersOk, AllFormatted, Zeroed, Reachable, Triples, SlotAt;
    var h := q.used[SlotAt(q.seen)];
    RingPop(q.used, q.live, true, q.seen, q.done, Seen);
    SeenKeeps(q.free, q.desc, q.ops, q.info, q.live, q.issued, q.finished, q.busy, q.data, q.image, h);
    RingKeeps(q.avail, q.live, false, q.fetched, q.sent, h, Seen);
  }

  lemma AllDone(q: Queue, was: map<nat, Chain>)
    requires Good(q) && q.seen == q.done && Onward(was, q.live)
    ensures forall h :: h in q.live ==> !q.live[h].stage.Done?
    ensures forall h :: h in was && was[h].stage.Done? ==> was[h].req.buf !in q.busy
  {
    hide Owners, RingOk, RequestsOk, BuffersOk, AllFormatted, Zeroed, Reachable, Triples, Onward;
    NothingDone(q.used, q.live, q.seen);
    SeenFree(was, q.live, q.busy);
  }

  ghost function Finished(q: Queue, h: nat): (r: Queue)
    requires |q.free| == |q.desc| == |q.info| == NUM && h < NUM && h in q.live && q.live[h].second < NUM && q.live[h].third < NUM
  {
    var c := q.live[h];
    q.(free := q.free[h := true][c.second := true][c.third := true], desc := q.desc[h := ZERO][c.second := ZERO][c.third := ZERO],
       info := q.info[h := q.info[h].(b := Empty)], live := q.live - {h})
  }

  lemma FinishGood(q: Queue, h: nat)
    requires Good(q) && h in q.live && q.live[h].req.buf !in q.busy
    requires |q.free| == |q.desc| == |q.info| == NUM && h < NUM && q.live[h].second < NUM && q.live[h].third < NUM
    ensures var c := q.live[h];
            c.stage == Seen && c.req.id in q.finished && !q.free[h] && !q.free[c.second] && !q.free[c.third] && Good(Finished(q, h))
  {
    hide Owners, RingOk, RequestsOk, BuffersOk, AllFormatted, Zeroed, Reachable, Triples;
    Over(q.live, q.issued, q.finished, q.busy, h);
    OwnersDrop(q.free, q.live, h);
    FormatDrop(q.free, q.desc, q.ops, q.info, q.live, h);
    RequestsDrop(q.live, q.issued, q.finished, h);
    RingsDrop(q.avail, q.used, q.live, h, q.fetched, q.sent, q.seen, q.done);
    BuffersDrop(q.live, q.busy, q.data, q.image, h);
  }

  lemma GoodSays(q: Queue, h: nat)
    requires Good(q) && h in q.live
    ensures var c := q.live[h];
            && Chained(q.desc, q.ops, h, c)
            && |q.free| == |q.desc| == |q.info| == NUM && h < NUM && c.second < NUM && c.third < NUM
            && q.info[h].b == Holds(c.req.buf) && (c.stage.Done? ==> q.info[h].status == 0)
            && c.req.buf in q.data && c.req.sector in q.image
  {
    hide Owners, RingOk, RequestsOk, BuffersOk, AllFormatted, Zeroed, Reachable, Triples;
    Says(q.free, q.desc, q.ops, q.info, q.live, h);
    Within(q.live, q.data, q.image, h);
  }
}
