/** copyout, copyin and copyinstr of kernel/vm.c: moving bytes between the kernel and a user address space.

    They are studied on a view of memory: `pt` holds the valid leaf entries of a page table, by page number, and
    `frames` the bytes of physical memory. ViewOf gives the view of the tree in memory that they work on. */
module UserCopy {
  import opened Sv39
  import opened PageAllocator
  import opened PageOwnership
  import opened VirtualMemory
  import BlockFormat
  import opened Bits

  type Byte = BlockFormat.Byte

  datatype View = View(pt: map<nat, nat>, frames: map<nat, seq<Byte>>)

  /** The conditions under which walkaddr() gives an address. */
  predicate Accessible(pt: map<nat, nat>, vpn: nat)
    ensures Accessible(pt, vpn) ==> vpn in pt && Valid(pt[vpn])
  {
    vpn < MAXVPN && vpn in pt && Valid(pt[vpn]) && UserBit(pt[vpn])
  }

  ghost predicate WellFormed(v: View) {
    && (forall f :: f in v.frames ==> 0 < f && |v.frames[f]| == PGSIZE)
    && (forall vpn: nat :: Accessible(v.pt, vpn) ==> Ppn(v.pt[vpn]) in v.frames)
  }

  /** Distinct pages have distinct frames. */
  ghost predicate Injective(pt: map<nat, nat>) {
    forall p: nat, q: nat {:trigger Accessible(pt, p), Accessible(pt, q)} ::
      Accessible(pt, p) && Accessible(pt, q) && Ppn(pt[p]) == Ppn(pt[q]) ==> p == q
  }

  /** The byte a user program sees at va. */
  ghost function ByteAt(v: View, va: nat): (b: Byte)
    requires WellFormed(v) && Accessible(v.pt, va / PGSIZE)
  {
    v.frames[Ppn(v.pt[va / PGSIZE])][va % PGSIZE]
  }

  ghost predicate AllAccessible(pt: map<nat, nat>, va: nat, len: nat) {
    forall a: nat {:trigger Accessible(pt, a / PGSIZE)} :: va <= a < va + len ==> Accessible(pt, a / PGSIZE)
  }

  /** Byte o of frame f is seen at some address of the range. */
  ghost predicate Reached(pt: map<nat, nat>, f: nat, o: nat, va: nat, len: nat) {
    exists a: nat {:trigger Accessible(pt, a / PGSIZE)} ::
      va <= a < va + len && Accessible(pt, a / PGSIZE) && Ppn(pt[a / PGSIZE]) == f && a % PGSIZE == o
  }

  /** Only bytes of the range changed. */
  ghost predicate OnlyWithin(v: View, v': View, va: nat, len: nat)
    requires WellFormed(v) && WellFormed(v')
  {
    && v'.frames.Keys == v.frames.Keys
    && forall f, o: nat {:trigger v'.frames[f][o]} :: f in v.frames && o < PGSIZE && !Reached(v.pt, f, o, va, len) ==>
         v'.frames[f][o] == v.frames[f][o]
  }

  ghost predicate Reads(v: View, va: nat, s: seq<Byte>)
    requires WellFormed(v)
  {
    AllAccessible(v.pt, va, |s|) && forall i: nat {:trigger s[i]} :: i < |s| ==> ByteAt(v, va + i) == s[i]
  }

  /** One memmove of copyout: a run of bytes within one page. */
  ghost function Poked(v: View, va: nat, s: seq<Byte>): (r: View)
    requires WellFormed(v) && Accessible(v.pt, va / PGSIZE) && va % PGSIZE + |s| <= PGSIZE
  {
    var f := Ppn(v.pt[va / PGSIZE]);
    var o := va % PGSIZE;
    View(v.pt, v.frames[f := v.frames[f][..o] + s + v.frames[f][o + |s|..]])
  }

  lemma PokedByte(v: View, va: nat, s: seq<Byte>, a: nat)
    requires WellFormed(v) && Accessible(v.pt, va / PGSIZE) && va % PGSIZE + |s| <= PGSIZE
    requires Injective(v.pt) && Accessible(v.pt, a / PGSIZE)
    ensures WellFormed(Poked(v, va, s))
    ensures ByteAt(Poked(v, va, s), a) == if va <= a < va + |s| then s[a - va] else ByteAt(v, a)
  {
    hide Valid, UserBit, Ppn;
    assert va <= a < va + |s| <==> a / PGSIZE == va / PGSIZE && va % PGSIZE <= a % PGSIZE < va % PGSIZE + |s|;
  }

  lemma PokedWithin(v0: View, v: View, va0: nat, va: nat, s: seq<Byte>)
    requires WellFormed(v0) && WellFormed(v) && v.pt == v0.pt && va0 <= va && OnlyWithin(v0, v, va0, va - va0)
    requires Accessible(v.pt, va / PGSIZE) && va % PGSIZE + |s| <= PGSIZE
    ensures WellFormed(Poked(v, va, s)) && OnlyWithin(v0, Poked(v, va, s), va0, va - va0 + |s|)
  {
    hide Valid, UserBit, Ppn;
    var v', f, o := Poked(v, va, s), Ppn(v.pt[va / PGSIZE]), va % PGSIZE;
    forall g, j: nat {:trigger v'.frames[g][j]} |
      g in v.frames && j < PGSIZE && !Reached(v.pt, g, j, va0, va - va0 + |s|)
      ensures v'.frames[g][j] == v0.frames[g][j]
    {
      assert !Reached(v.pt, g, j, va0, va - va0);
      if g == f && o <= j < o + |s| {
        ReachedHere(v.pt, va0, va, |s|, j);
      }
    }
  }

  lemma ReachedHere(pt: map<nat, nat>, va0: nat, va: nat, n: nat, j: nat)
    requires Accessible(pt, va / PGSIZE) && va0 <= va && va % PGSIZE + n <= PGSIZE && va % PGSIZE <= j < va % PGSIZE + n
    ensures Reached(pt, Ppn(pt[va / PGSIZE]), j, va0, va - va0 + n)
  {
    hide Valid, UserBit, Ppn;
    var a := va + (j - va % PGSIZE);
    assert a / PGSIZE == va / PGSIZE && a % PGSIZE == j;
  }

  /** Within a page every address is accessible or none is. */
  lemma SamePage(pt: map<nat, nat>, va: nat, n: nat)
    requires Accessible(pt, va / PGSIZE) && va % PGSIZE + n <= PGSIZE
    ensures AllAccessible(pt, va, n)
  {
    forall a: nat {:trigger Accessible(pt, a / PGSIZE)} | va <= a < va + n ensures Accessible(pt, a / PGSIZE) {
      assert a / PGSIZE == va / PGSIZE;
    }
  }

  lemma JoinAccessible(pt: map<nat, nat>, va: nat, n: nat, m: nat)
    requires AllAccessible(pt, va, n) && AllAccessible(pt, va + n, m)
    ensures AllAccessible(pt, va, n + m)
  {
  }

  lemma ReadsMore(v0: View, v: View, va: nat, s: seq<Byte>, t: seq<Byte>)
    requires WellFormed(v0) && Reads(v0, va, s) && Injective(v0.pt)
    requires Accessible(v0.pt, (va + |s|) / PGSIZE) && (va + |s|) % PGSIZE + |t| <= PGSIZE
    requires v == Poked(v0, va + |s|, t)
    ensures WellFormed(v) && Reads(v, va, s + t)
  {
    hide Accessible, Valid, UserBit, Ppn, Poked;
    PokedByte(v0, va + |s|, t, va + |s|);
    SamePage(v.pt, va + |s|, |t|) by { assert v.pt == v0.pt by { PokedPt(v0, va + |s|, t); } }
    PokedPt(v0, va + |s|, t);
    JoinAccessible(v.pt, va, |s|, |t|);
    var u := s + t;
    forall i: nat {:trigger u[i]} | i < |u| ensures ByteAt(v, va + i) == u[i] {
      assert Accessible(v.pt, (va + i) / PGSIZE);
      PokedByte(v0, va + |s|, t, va + i);
      if i < |s| { assert s[i] == u[i]; }
    }
  }

  lemma PokedPt(v: View, va: nat, s: seq<Byte>)
    requires WellFormed(v) && Accessible(v.pt, va / PGSIZE) && va % PGSIZE + |s| <= PGSIZE
    ensures Poked(v, va, s).pt == v.pt
  {
  }

  // ---- bytes in page-table memory ----

  /** Byte k of a word, least significant first. */
  function Digit(w: nat, k: nat): (b: Byte) {
    if k == 0 then w % 256 else Digit(w / 256, k - 1)
  }

  function Value(bs: seq<Byte>): (w: nat) {
    if bs == [] then 0 else bs[0] + 256 * Value(bs[1..])
  }

  lemma {:induction false} DigitOfValue(bs: seq<Byte>, k: nat)
    requires k < |bs|
    ensures Digit(Value(bs), k) == bs[k]
  {
    if k > 0 {
      assert Value(bs) / 256 == Value(bs[1..]);
      DigitOfValue(bs[1..], k - 1);
    }
  }

  /** Bit k of a word is bit k % 8 of its byte k / 8. */
  lemma {:induction false} ValueBits(bs: seq<Byte>, k: nat)
    requires k < 8 * |bs|
    ensures NatBit(Value(bs), k) <==> NatBit(bs[k / 8], k % 8)
  {
    hide NatBit, Pow2;
    BlockFormat.ByteBelow(bs[0], Value(bs[1..]), k);
    if k >= 8 {
      ValueBits(bs[1..], k - 8);
    }
  }

  /** A page of words as bytes, and back. */
  function PageBytes(x: Page): (b: seq<Byte>)
    requires |x| == 512
    ensures |b| == PGSIZE
  {
    seq(PGSIZE, k requires 0 <= k < PGSIZE => Digit(x[k / 8], k % 8))
  }

  function PageOf(b: seq<Byte>): (x: Page)
    requires |b| == PGSIZE
    ensures |x| == 512
  {
    seq(512, i requires 0 <= i < 512 => Value(b[8 * i..8 * i + 8]))
  }

  lemma PageRoundTrip(b: seq<Byte>)
    requires |b| == PGSIZE
    ensures PageBytes(PageOf(b)) == b
  {
    hide Digit, Value;
    forall k: nat | k < PGSIZE ensures PageBytes(PageOf(b))[k] == b[k] {
      DigitOfValue(b[8 * (k / 8)..8 * (k / 8) + 8], k % 8);
      assert 8 * (k / 8) + k % 8 == k;
    }
  }

  /** What the tree of page-table pages under `root` and the memory behind it amount to for a user program. */
  ghost function ViewOf(s: State, root: nat): (v: View) {
    View(map u: nat | u < MAXVPN && LeafPte(M(s), root, u) != 0 :: LeafPte(M(s), root, u),
         map p | p in s.pages && |s.pages[p]| == 512 :: PageBytes(s.pages[p]))
  }

  lemma ViewPage(s: State, root: nat, vpn: nat)
    ensures Accessible(ViewOf(s, root).pt, vpn) <==> UserMapped(s, root, vpn)
    ensures UserMapped(s, root, vpn) ==> ViewOf(s, root).pt[vpn] == LeafPte(M(s), root, vpn)
  {
    hide LeafPte, UserBit, PageBytes;
  }

  /** In order as memory is, user pages have frames, and no two the same one. */
  lemma ViewGood(s: State, root: nat)
    requires Good(s)
    ensures WellFormed(ViewOf(s, root)) && Injective(ViewOf(s, root).pt)
  {
    hide LeafPte, UserBit, Ppn, ViewOf, Accessible, UserMapped, Good;
    var v := ViewOf(s, root);
    ViewFrames(s, root);
    forall vpn: nat | Accessible(v.pt, vpn) ensures Ppn(v.pt[vpn]) in v.frames {
      ViewPage(s, root, vpn);
      UserFrame(s, root, vpn);
    }
    forall p: nat, q: nat {:trigger Accessible(v.pt, p), Accessible(v.pt, q)} |
      Accessible(v.pt, p) && Accessible(v.pt, q) && Ppn(v.pt[p]) == Ppn(v.pt[q])
      ensures p == q
    {
      ViewPage(s, root, p);
      ViewPage(s, root, q);
      UserFrame(s, root, p);
      UserFrame(s, root, q);
    }
  }

  lemma ViewFrames(s: State, root: nat)
    requires Good(s)
    ensures ViewOf(s, root).frames.Keys == s.pages.Keys
    ensures forall f :: f in ViewOf(s, root).frames ==>
              0 < f && |s.pages[f]| == 512 && |ViewOf(s, root).frames[f]| == PGSIZE && ViewOf(s, root).frames[f] == PageBytes(s.pages[f])
  {
    hide Tree, FreeList, UserPages, Roles, Exclusive, LeafPte;
  }

  /** Only pages of the address space itself have new contents. */
  ghost predicate OwnPagesOnly(s: State, s': State, root: nat) {
    && s'.tables == s.tables && s'.role == s.role && s'.free == s.free && s'.head == s.head
    && s'.pages.Keys == s.pages.Keys
    && forall p :: p in s.pages && !(p in s.role && s.role[p].User? && s.role[p].root == root) ==> s'.pages[p] == s.pages[p]
  }

  lemma OwnPagesTransitive(s: State, s1: State, s2: State, root: nat)
    requires OwnPagesOnly(s, s1, root) && OwnPagesOnly(s1, s2, root) && SameMap(M(s), M(s1)) && SameMap(M(s1), M(s2))
    ensures OwnPagesOnly(s, s2, root) && SameMap(M(s), M(s2))
  {
    hide LeafPte;
    SameMapTransitive(M(s), M(s1), M(s2));
  }

  lemma NothingCopied(v: View, s: State, root: nat, va: nat)
    requires WellFormed(v)
    ensures OnlyWithin(v, v, va, 0) && Reads(v, va, []) && OwnPagesOnly(s, s, root) && SameMap(M(s), M(s))
  {
  }

  lemma StoredView(s: State, root: nat, p: nat, b: seq<Byte>)
    requires Good(s) && p in s.pages && p in s.role && s.role[p].User? && |b| == PGSIZE
    ensures var s' := s.(pages := s.pages[p := PageOf(b)]);
            && Good(s') && SameMap(M(s), M(s'))
            && ViewOf(s', root) == View(ViewOf(s, root).pt, ViewOf(s, root).frames[p := b])
  {
    hide Tree, FreeList, UserPages, Roles, Exclusive, LeafPte, PageOf, PageBytes;
    var s' := s.(pages := s.pages[p := PageOf(b)]);
    FilledGood(s, p, PageOf(b));
    PageRoundTrip(b);
    forall u: nat ensures LeafPte(M(s'), root, u) == LeafPte(M(s), root, u) {
      SameMapAt(M(s), M(s'), root, u);
    }
    assert ViewOf(s', root).pt == ViewOf(s, root).pt;
    assert ViewOf(s', root).frames == ViewOf(s, root).frames[p := b];
  }

  /** One address space, its page table in `mem` under `root`. */
  class UserMemory {
    const mem: AddressSpaces
    const root: nat

    ghost predicate Ready()
      reads mem
    {
      Good(mem.S()) && Node(root, 2, 0) in mem.tables
    }

    ghost function V(): (v: View)
      reads mem
      ensures Ready() ==> WellFormed(v) && Injective(v.pt)
    {
      if Ready() then ViewGood(mem.S(), root); ViewOf(mem.S(), root) else ViewOf(mem.S(), root)
    }

    constructor (mem: AddressSpaces, root: nat)
      ensures this.mem == mem && this.root == root
    {
      this.mem, this.root := mem, root;
    }

    /** walkaddr() for the page of an address, and the bytes of its frame. */
    method Frame(va0: nat) returns (p: nat, bytes: seq<Byte>)
      requires Ready()
      modifies mem
      ensures mem.S() == old(mem.S()) && Ready() && V() == old(V())
      ensures p != 0 <==> Accessible(V().pt, va0 / PGSIZE)
      ensures p != 0 ==>
                && p == Ppn(V().pt[va0 / PGSIZE]) && p in V().frames && bytes == V().frames[p] && |bytes| == PGSIZE
                && p in mem.pages && p in mem.role && mem.role[p].User? && mem.role[p].root == root
    {
      hide Good, UserMapped, LeafPte, Ppn;
      p := mem.Walkaddr(root, va0 / PGSIZE);
      ViewPage(mem.S(), root, va0 / PGSIZE);
      ViewFrames(mem.S(), root);
      bytes := [];
      if p != 0 {
        UserFrame(mem.S(), root, va0 / PGSIZE);
        bytes := PageBytes(mem.pages[p]);
      }
    }

    /** memmove() to the frame of a user page, at an offset. */
    method Move(p: nat, bytes: seq<Byte>, o: nat, src: seq<Byte>, ghost va: nat)
      requires Ready() && Accessible(V().pt, va / PGSIZE) && p == Ppn(V().pt[va / PGSIZE]) && o == va % PGSIZE
      requires p in V().frames && bytes == V().frames[p] && |bytes| == PGSIZE && o + |src| <= PGSIZE
      requires p in mem.pages && p in mem.role && mem.role[p].User? && mem.role[p].root == root
      modifies mem
      ensures Ready() && SameMap(M(old(mem.S())), M(mem.S())) && OwnPagesOnly(old(mem.S()), mem.S(), root)
      ensures V() == Poked(old(V()), va, src)
    {
      hide Good, ViewOf, Accessible, SameMap;
      StoredView(mem.S(), root, p, bytes[..o] + src + bytes[o + |src|..]);
      mem.pages := mem.pages[p := PageOf(bytes[..o] + src + bytes[o + |src|..])];
    }

    /** copyout(): succeeds exactly when the whole range is user memory, then the range reads as `src`. Either way
        nothing outside the range changes, and no page but the address space's own. */
    method Copyout(dstva0: nat, src: seq<Byte>) returns (r: int)
      requires Ready()
      modifies mem
      ensures Ready() && V().pt == old(V().pt) && OnlyWithin(old(V()), V(), dstva0, |src|)
      ensures SameMap(M(old(mem.S())), M(mem.S())) && OwnPagesOnly(old(mem.S()), mem.S(), root)
      ensures r == if AllAccessible(V().pt, dstva0, |src|) then 0 else -1
      ensures r == 0 ==> Reads(V(), dstva0, src)
    {
      hide Accessible, Poked, V, Ready, SameMap, OwnPagesOnly, OnlyWithin, Reads;
      ghost var v0, s0 := V(), mem.S();
      var dstva, k := dstva0, 0;
      NothingCopied(v0, s0, root, dstva0);
      assert src[..0] == [];
      while k < |src|
        invariant k <= |src| && dstva0 + k <= dstva && (k < |src| ==> dstva == dstva0 + k)
        invariant Ready() && V().pt == v0.pt && WellFormed(V()) && OnlyWithin(v0, V(), dstva0, k)
        invariant SameMap(M(s0), M(mem.S())) && OwnPagesOnly(s0, mem.S(), root)
        invariant AllAccessible(v0.pt, dstva0, k)
        invariant Reads(V(), dstva0, src[..k])
      {
        var va0 := dstva / PGSIZE * PGSIZE;
        ghost var v1, s1 := V(), mem.S();
        var pa0, bytes := Frame(va0);
        if pa0 == 0 {
          assert dstva0 <= dstva < dstva0 + |src|;
          OnlyWithinMore(v0, V(), dstva0, k, |src|);
          return -1;
        }
        var n := PGSIZE - (dstva - va0);
        if n > |src| - k {
          n := |src| - k;
        }
        Move(pa0, bytes, dstva - va0, src[k..k + n], dstva);
        OwnPagesTransitive(s0, s1, mem.S(), root);
        PokedPt(v1, dstva, src[k..k + n]);
        PokedWithin(v0, v1, dstva0, dstva, src[k..k + n]);
        SamePage(v0.pt, dstva, n);
        JoinAccessible(v0.pt, dstva0, k, n);
        ReadsMore(v1, V(), dstva0, src[..k], src[k..k + n]);
        assert src[..k] + src[k..k + n] == src[..k + n];
        k := k + n;
        dstva := va0 + PGSIZE;
      }
      assert src[..k] == src;
      r := 0;
    }

    /** copyin(): succeeds exactly when the whole range is user memory, and returns what is there. */
    method Copyin(srcva0: nat, len: nat) returns (r: int, dst: seq<Byte>)
      requires Ready()
      modifies mem
      ensures mem.S() == old(mem.S())
      ensures r == if AllAccessible(V().pt, srcva0, len) then 0 else -1
      ensures r == 0 ==> |dst| == len && Reads(V(), srcva0, dst)
    {
      hide Accessible, Reads, V, Ready;
      ghost var v := V();
      dst := [];
      var srcva := srcva0;
      ReadsNothing(v, srcva0);
      while |dst| < len
        invariant mem.S() == old(mem.S()) && Ready() && V() == v
        invariant |dst| <= len && (|dst| < len ==> srcva == srcva0 + |dst|)
        invariant Reads(v, srcva0, dst) && AllAccessible(v.pt, srcva0, |dst|)
        decreases len - |dst|
      {
        var va0 := srcva / PGSIZE * PGSIZE;
        var pa0, bytes := Frame(va0);
        if pa0 == 0 {
          assert srcva0 <= srcva < srcva0 + len;
          return -1, dst;
        }
        var n := PGSIZE - (srcva - va0);
        if n > len - |dst| {
          n := len - |dst|;
        }
        var o := srcva - va0;
        ReadsOn(v, srcva0, dst, bytes[o..o + n]);
        SamePage(v.pt, srcva, n);
        JoinAccessible(v.pt, srcva0, |dst|, n);
        dst := dst + bytes[o..o + n];
        srcva := va0 + PGSIZE;
      }
      r := 0;
    }

    /** copyinstr(): succeeds exactly when a NUL lies within `max` bytes with every page up to it accessible; `dst` is
        the string before the NUL. */
    method Copyinstr(srcva0: nat, max: nat) returns (r: int, dst: seq<Byte>)
      requires Ready()
      modifies mem
      ensures mem.S() == old(mem.S())
      ensures r == 0 || r == -1
      ensures r == 0 ==> |dst| < max && EndsAt(V(), srcva0, |dst|) && Reads(V(), srcva0, dst)
      ensures r == -1 ==> forall k: nat {:trigger EndsAt(V(), srcva0, k)} :: k < max ==> !EndsAt(V(), srcva0, k)
    {
      hide Accessible, Reads, V, Ready;
      ghost var v := V();
      dst := [];
      var srcva, left := srcva0, max;
      ReadsNothing(v, srcva0);
      while left > 0
        invariant mem.S() == old(mem.S()) && Ready() && V() == v
        invariant |dst| + left == max && (left > 0 ==> srcva == srcva0 + |dst|)
        invariant Reads(v, srcva0, dst) && NoNul(dst)
      {
        var va0 := srcva / PGSIZE * PGSIZE;
        var pa0, bytes := Frame(va0);
        if pa0 == 0 {
          NoEnd(v, srcva0, dst, max);
          return -1, dst;
        }
        var n := PGSIZE - (srcva - va0);
        if n > left {
          n := left;
        }
        var p, k := srcva - va0, 0;
        ghost var dst0 := dst;
        while k < n
          invariant k <= n && p == srcva - va0 + k && |dst| == |dst0| + k && |dst| + left == max
          invariant Reads(v, srcva0, dst) && NoNul(dst)
          decreases n - k
          modifies {}
        {
          OneMore(v, srcva0, dst, va0, p);
          if bytes[p] == 0 {
            EndHere(v, srcva0, dst);
            return 0, dst;
          }
          dst := dst + [bytes[p]];
          k, left, p := k + 1, left - 1, p + 1;
        }
        srcva := va0 + PGSIZE;
      }
      NoEnd(v, srcva0, dst, max);
      r := -1;
    }

    /** What copyout wrote, copyin reads back. */
    method RoundTrip(va: nat, src: seq<Byte>) returns (r: int, dst: seq<Byte>)
      requires Ready()
      modifies mem
      ensures r == if AllAccessible(old(V().pt), va, |src|) then 0 else -1
      ensures r == 0 ==> dst == src
    {
      r := Copyout(va, src);
      dst := [];
      if r == 0 {
        r, dst := Copyin(va, |src|);
        SameReading(V(), va, src, dst);
      }
    }
  }

  ghost predicate NoNul(s: seq<Byte>) {
    forall i: nat {:trigger s[i]} :: i < |s| ==> s[i] != 0
  }

  ghost predicate NonNul(v: View, a: nat)
    requires WellFormed(v)
  {
    Accessible(v.pt, a / PGSIZE) && ByteAt(v, a) != 0
  }

  /** The string at va is k bytes long: the first NUL is at va + k, and everything up to it is accessible. */
  ghost predicate EndsAt(v: View, va: nat, k: nat)
    requires WellFormed(v)
  {
    && AllAccessible(v.pt, va, k + 1)
    && (forall a: nat :: va <= a < va + k ==> NonNul(v, a))
    && Accessible(v.pt, (va + k) / PGSIZE) && ByteAt(v, va + k) == 0
  }

  lemma ReadsNothing(v: View, va: nat)
    requires WellFormed(v)
    ensures Reads(v, va, [])
  {
  }

  lemma ReadsOn(v: View, va: nat, s: seq<Byte>, t: seq<Byte>)
    requires WellFormed(v) && Reads(v, va, s)
    requires Accessible(v.pt, (va + |s|) / PGSIZE) && (va + |s|) % PGSIZE + |t| <= PGSIZE
    requires var o := (va + |s|) % PGSIZE; t == v.frames[Ppn(v.pt[(va + |s|) / PGSIZE])][o..o + |t|]
    ensures Reads(v, va, s + t)
  {
    hide Accessible, Ppn;
    SamePage(v.pt, va + |s|, |t|);
    JoinAccessible(v.pt, va, |s|, |t|);
    var u := s + t;
    forall i: nat {:trigger u[i]} | i < |u| ensures ByteAt(v, va + i) == u[i] {
      if i < |s| {
        assert s[i] == u[i];
      } else {
        assert (va + i) / PGSIZE == (va + |s|) / PGSIZE && (va + i) % PGSIZE == (va + |s|) % PGSIZE + (i - |s|);
        assert u[i] == t[i - |s|];
      }
    }
  }

  /** The next byte of the string is the one under the cursor. */
  lemma OneMore(v: View, va: nat, s: seq<Byte>, va0: nat, p: nat)
    requires WellFormed(v) && Reads(v, va, s)
    requires va0 % PGSIZE == 0 && p < PGSIZE && va + |s| == va0 + p && Accessible(v.pt, va0 / PGSIZE)
    ensures Accessible(v.pt, (va + |s|) / PGSIZE)
    ensures Ppn(v.pt[va0 / PGSIZE]) in v.frames && |v.frames[Ppn(v.pt[va0 / PGSIZE])]| == PGSIZE
    ensures ByteAt(v, va + |s|) == v.frames[Ppn(v.pt[va0 / PGSIZE])][p]
    ensures Reads(v, va, s + [v.frames[Ppn(v.pt[va0 / PGSIZE])][p]])
  {
    hide Accessible, Ppn, Reads;
    assert (va + |s|) / PGSIZE == va0 / PGSIZE && (va + |s|) % PGSIZE == p;
    AccessibleFrame(v, va0 / PGSIZE);
    ReadsOn(v, va, s, [v.frames[Ppn(v.pt[va0 / PGSIZE])][p]]);
  }

  lemma EndHere(v: View, va: nat, s: seq<Byte>)
    requires WellFormed(v) && Reads(v, va, s) && NoNul(s)
    requires Accessible(v.pt, (va + |s|) / PGSIZE) && ByteAt(v, va + |s|) == 0
    ensures EndsAt(v, va, |s|)
  {
    hide Accessible, Ppn;
    SamePage(v.pt, va + |s|, 1);
    JoinAccessible(v.pt, va, |s|, 1);
    forall a: nat | va <= a < va + |s| ensures NonNul(v, a) {
      assert s[a - va] != 0;
    }
  }

  /** No NUL so far, and the range is exhausted or the next page is missing. */
  lemma NoEnd(v: View, va: nat, s: seq<Byte>, max: nat)
    requires WellFormed(v) && Reads(v, va, s) && NoNul(s) && |s| <= max
    requires |s| == max || !Accessible(v.pt, (va + |s|) / PGSIZE)
    ensures forall k: nat {:trigger EndsAt(v, va, k)} :: k < max ==> !EndsAt(v, va, k)
  {
    hide Accessible, Ppn;
    forall k: nat {:trigger EndsAt(v, va, k)} | k < max ensures !EndsAt(v, va, k) {
      if k < |s| {
        assert s[k] != 0 && ByteAt(v, va + k) == s[k];
      } else {
        assert va <= va + |s| < va + k + 1;
      }
    }
  }

  lemma SameReading(v: View, va: nat, s: seq<Byte>, t: seq<Byte>)
    requires WellFormed(v) && Reads(v, va, s) && Reads(v, va, t) && |s| == |t|
    ensures s == t
  {
    hide Accessible;
    forall i: nat | i < |s| ensures s[i] == t[i] {
      assert ByteAt(v, va + i) == s[i];
    }
  }

  lemma OnlyWithinMore(v: View, v': View, va: nat, n: nat, m: nat)
    requires WellFormed(v) && WellFormed(v') && OnlyWithin(v, v', va, n) && n <= m
    ensures OnlyWithin(v, v', va, m)
  {
    hide Accessible;
    forall f, o: nat | Reached(v.pt, f, o, va, n) ensures Reached(v.pt, f, o, va, m) {
      var a: nat :| va <= a < va + n && Accessible(v.pt, a / PGSIZE) && Ppn(v.pt[a / PGSIZE]) == f && a % PGSIZE == o;
    }
  }

  lemma AccessibleFrame(v: View, vpn: nat)
    requires WellFormed(v) && Accessible(v.pt, vpn)
    ensures Ppn(v.pt[vpn]) in v.frames && |v.frames[Ppn(v.pt[vpn])]| == PGSIZE
  {
  }
}
