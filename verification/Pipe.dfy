/** The pipe of kernel/pipe.c. Readers and writers hold its lock from one sleep to the next, so each method runs from
    where a call starts or wakes up to where it sleeps or returns. */
module Pipe {

  const PIPESIZE := 512
  const UINT := 0x1_0000_0000

  type Byte = x: int | 0 <= x < 256

  datatype Outcome = Sleeps | Returns(value: int)

  /** A 32-bit counter. */
  function Wrap(n: nat): (i: nat)
    ensures i < UINT
  {
    n % UINT
  }

  function SlotAt(i: nat): (k: nat)
    ensures k < PIPESIZE
  {
    i % PIPESIZE
  }

  /** The byte numbered k sits in its slot until it is taken. */
  ghost predicate Ring(data: seq<Byte>, accepted: seq<Byte>, taken: nat) {
    && |data| == PIPESIZE && taken <= |accepted| <= taken + PIPESIZE
    && forall k: nat {:trigger accepted[k]} :: taken <= k < |accepted| ==> data[SlotAt(k)] == accepted[k]
  }

  lemma RingPush(data: seq<Byte>, accepted: seq<Byte>, taken: nat, ch: Byte)
    requires Ring(data, accepted, taken) && |accepted| < taken + PIPESIZE
    ensures Ring(data[SlotAt(|accepted|) := ch], accepted + [ch], taken)
  {
    var n, d, all := |accepted|, data[SlotAt(|accepted|) := ch], accepted + [ch];
    forall k: nat {:trigger all[k]} | taken <= k < |all| ensures d[SlotAt(k)] == all[k] {
      if k < n {
        assert all[k] == accepted[k];
        SlotsDiffer(k, n);
      }
    }
  }

  lemma SlotsDiffer(i: nat, j: nat)
    requires i < j < i + PIPESIZE
    ensures SlotAt(i) != SlotAt(j)
  {
  }

  /** The 32-bit counters give the same slots and the same tests as counters that never wrap. */
  lemma Counters(taken: nat, total: nat)
    requires taken <= total <= taken + PIPESIZE
    ensures Wrap(taken) == Wrap(total) <==> taken == total
    ensures Wrap(total) == Wrap(Wrap(taken) + PIPESIZE) <==> total == taken + PIPESIZE
    ensures SlotAt(Wrap(taken)) == SlotAt(taken) && SlotAt(Wrap(total)) == SlotAt(total)
    ensures Wrap(taken + 1) == Wrap(Wrap(taken) + 1) && Wrap(total + 1) == Wrap(Wrap(total) + 1)
  {
    hide Wrap, SlotAt;
    Reduce(taken);
    Reduce(total);
    WrapNext(taken);
    WrapNext(total);
    WrapSame(taken, total);
    WrapFull(taken, total);
  }

  lemma WrapNext(n: nat)
    ensures Wrap(n + 1) == Wrap(Wrap(n) + 1)
  {
  }

  lemma WrapSame(lo: nat, hi: nat)
    requires lo <= hi < lo + UINT
    ensures Wrap(lo) == Wrap(hi) <==> lo == hi
  {
  }

  lemma WrapFull(taken: nat, total: nat)
    requires taken <= total <= taken + PIPESIZE
    ensures Wrap(total) == Wrap(Wrap(taken) + PIPESIZE) <==> total == taken + PIPESIZE
  {
  }

  /** The ring size divides the range of the counters. */
  lemma Reduce(n: nat)
    ensures SlotAt(Wrap(n)) == SlotAt(n)
  {
    var q, r := n / UINT, n % UINT;
    Multiple(0x80_0000 * q, r);
  }

  lemma Multiple(a: nat, r: nat)
    ensures (PIPESIZE * a + r) % PIPESIZE == r % PIPESIZE
  {
  }

  class Pipe {
    var data: seq<Byte>
    var nread: nat
    var nwrite: nat
    var readopen: bool
    var writeopen: bool
    /** Every byte written so far, and how many of them have been taken out. */
    ghost var accepted: seq<Byte>
    ghost var taken: nat

    ghost predicate Valid()
      reads this
    {
      Ring(data, accepted, taken) && nwrite == Wrap(|accepted|) && nread == Wrap(taken)
    }

    constructor ()
      ensures Valid() && accepted == [] && taken == 0 && readopen && writeopen
    {
      data := seq(PIPESIZE, _ => 0);
      nread, nwrite, readopen, writeopen := 0, 0, true, true;
      accepted, taken := [], 0;
    }

    /** pipewrite() from byte i on; copies(i) says whether copyin of byte i succeeds. */
    method Write(src: seq<Byte>, i: nat, killed: bool, copies: nat -> bool) returns (o: Outcome, j: nat)
      requires Valid() && i <= |src|
      modifies `data, `nwrite, `accepted
      ensures Valid() && i <= j <= |src| && accepted == old(accepted) + src[i..j]
      ensures o == Sleeps <==> readopen && !killed && j < |src| && |accepted| == taken + PIPESIZE
      ensures o == Returns(-1) <==> (!readopen || killed) && i < |src|
      ensures o != Sleeps && o != Returns(-1) ==> o == Returns(j) && (j == |src| || !copies(j))
      ensures o == Returns(-1) ==> j == i
    {
      hide Ring, Wrap, SlotAt;
      j := i;
      while j < |src|
        invariant Valid() && i <= j <= |src| && accepted == old(accepted) + src[i..j]
        invariant i < j ==> readopen && !killed
      {
        if !readopen || killed {
          return Returns(-1), j;
        }
        Bounds(data, accepted, taken);
        Counters(taken, |accepted|);
        if nwrite == Wrap(nread + PIPESIZE) {
          return Sleeps, j;
        }
        if !copies(j) {
          return Returns(j), j;
        }
        RingPush(data, accepted, taken, src[j]);
        data := data[SlotAt(nwrite) := src[j]];
        nwrite := Wrap(nwrite + 1);
        accepted := accepted + [src[j]];
        j := j + 1;
      }
      o := Returns(j);
    }

    /** piperead(); got are the bytes delivered to the reader. */
    method Read(n: nat, killed: bool, copies: nat -> bool) returns (o: Outcome, got: seq<Byte>)
      requires Valid()
      modifies `nread, `taken
      ensures Valid() && old(taken) <= taken <= |accepted|
      ensures o == Sleeps <==> old(taken) == |accepted| && writeopen && !killed
      ensures o == Returns(-1) <==> old(taken) == |accepted| && writeopen && killed
      ensures o == Sleeps || o == Returns(-1) ==> taken == old(taken) && got == []
      ensures o != Sleeps && o != Returns(-1) ==>
                && o == Returns(|got|) && |got| <= n && got <= accepted[old(taken)..]
                && (taken == old(taken) + |got| || (taken == old(taken) + |got| + 1 && !copies(|got|)))
                && (|got| < n ==> taken == |accepted| || !copies(|got|))
      ensures o == Returns(0) && n > 0 ==> (old(taken) == |accepted| && !writeopen) || !copies(0)
    {
      hide Ring, Wrap, SlotAt;
      got := [];
      Bounds(data, accepted, taken);
      Counters(taken, |accepted|);
      if nread == nwrite && writeopen {
        return if killed then Returns(-1) else Sleeps, got;
      }
      while |got| < n
        invariant Valid() && taken == old(taken) + |got| && taken <= |accepted| && |got| <= n
        invariant got == accepted[old(taken)..taken]
      {
        Bounds(data, accepted, taken);
        Counters(taken, |accepted|);
        if nread == nwrite {
          break;
        }
        Front(data, accepted, taken);
        var ch := data[SlotAt(nread)];
        nread := Wrap(nread + 1);
        taken := taken + 1;
        if !copies(|got|) {
          return Returns(|got|), got;
        }
        got := got + [ch];
      }
      Bounds(data, accepted, taken);
      Counters(taken, |accepted|);
      o := Returns(|got|);
    }

    /** pipeclose(), for the write end or the read end. */
    method Close(writable: bool) returns (freed: bool)
      requires Valid()
      modifies `readopen, `writeopen
      ensures Valid() && writeopen == (old(writeopen) && !writable) && readopen == (old(readopen) && writable)
      ensures freed <==> !readopen && !writeopen
    {
      if writable {
        writeopen := false;
      } else {
        readopen := false;
      }
      freed := !readopen && !writeopen;
    }
  }

  lemma Bounds(data: seq<Byte>, accepted: seq<Byte>, taken: nat)
    requires Ring(data, accepted, taken)
    ensures |data| == PIPESIZE && taken <= |accepted| <= taken + PIPESIZE
  {
  }

  /** The oldest byte in the ring is the next in order, and the others stay. */
  lemma Front(data: seq<Byte>, accepted: seq<Byte>, taken: nat)
    requires Ring(data, accepted, taken) && taken < |accepted|
    ensures |data| == PIPESIZE && data[SlotAt(taken)] == accepted[taken] && Ring(data, accepted, taken + 1)
  {
  }
}
