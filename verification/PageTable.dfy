/** Sv39 page tables as kernel/vm.c keeps them: a three-level radix tree in raw pages of 512 entries.

    An entry is a number: ten flag bits, then the page number (section 4.4 of the RISC-V Privileged
    Architecture, version 20211203). Addresses are split with shifts by 12, 21 and 30 in the source and with
    the equal divisions here. Pages and frames are named by page number. */
module Sv39 {
  import opened Bits

  const PGSIZE: nat := 4096

  /** MAXVA / PGSIZE: one bit less than Sv39 allows. */
  const MAXVPN: nat := 0x400_0000

  const PTE_V: nat := 1
  const PTE_R: nat := 2
  const PTE_W: nat := 4
  const PTE_X: nat := 8
  const PTE_U: nat := 16

  type Page = seq<nat>

  predicate Valid(pte: nat) {
    pte % 2 == 1
  }

  /** PTE2PA, as a page number. */
  function Ppn(pte: nat): (p: nat) {
    pte / 1024
  }

  function Flags(pte: nat): (f: nat)
    ensures f < 1024
  {
    pte % 1024
  }

  /** pte & PTE_U */
  predicate UserBit(pte: nat) {
    pte / PTE_U % 2 == 1
  }

  /** PA2PTE(pa) | perm | PTE_V */
  function MakePte(ppn: nat, perm: nat): (pte: nat)
    requires perm < 1024
    ensures Valid(pte) && Ppn(pte) == ppn && Flags(pte) == WithV(perm)
    ensures UserBit(pte) <==> UserBit(perm)
  {
    PteParts(ppn, WithV(perm));
    ppn * 1024 + WithV(perm)
  }

  /** perm | PTE_V */
  function WithV(perm: nat): (f: nat)
    requires perm < 1024
    ensures f < 1024 && f % 2 == 1 && (UserBit(f) <==> UserBit(perm))
  {
    if perm % 2 == 1 then perm else perm + 1
  }

  /** The bits of pte are those of PA2PTE(pa) | perm | PTE_V. */
  ghost predicate Joins(pte: nat, ppn: nat, perm: nat) {
    forall k: nat :: NatBit(pte, k) <==> if k < 10 then k == 0 || NatBit(perm, k) else NatBit(ppn, k - 10)
  }

  lemma MakePteBits(ppn: nat, perm: nat)
    requires perm < 1024
    ensures Joins(MakePte(ppn, perm), ppn, perm)
  {
    assert Pow2(10) == 1024 by { assert Pow2(5) == 32; }
    forall k: nat ensures NatBit(MakePte(ppn, perm), k) <==> if k < 10 then k == 0 || NatBit(perm, k) else NatBit(ppn, k - 10) {
      NatBitJoined(ppn, 10, WithV(perm), k);
      if k > 0 {
        assert WithV(perm) / 2 == perm / 2;
      }
    }
  }

  lemma PteParts(ppn: nat, f: nat)
    requires f < 1024
    ensures (ppn * 1024 + f) / 1024 == ppn && (ppn * 1024 + f) % 1024 == f
    ensures (ppn * 1024 + f) % 2 == f % 2 && (UserBit(ppn * 1024 + f) <==> UserBit(f))
  {
    Parity(ppn * 512, f);
    Sixteenths(ppn * 64, f);
    Parity(ppn * 32, f / PTE_U);
  }

  lemma Sixteenths(a: nat, f: nat)
    ensures (PTE_U * a + f) / PTE_U == a + f / PTE_U
  {
  }

  lemma Parity(a: nat, f: nat)
    ensures (2 * a + f) % 2 == f % 2
  {
  }

  /** PX(level, va), for the page number of va. */
  function Px(level: nat, vpn: nat): (i: nat)
    requires level <= 2
    ensures i < 512
  {
    if level == 0 then vpn % 512 else if level == 1 then vpn / 512 % 512 else vpn / 0x4_0000 % 512
  }

  /** The three 9-bit indices identify a page below MAXVA. */
  lemma PxInjective(u: nat, v: nat)
    requires u < MAXVPN && v < MAXVPN
    requires Px(0, u) == Px(0, v) && Px(1, u) == Px(1, v) && Px(2, u) == Px(2, v)
    ensures u == v
  {
    Decompose(u);
    Decompose(v);
  }

  lemma Decompose(u: nat)
    requires u < MAXVPN
    ensures u == (Px(2, u) * 512 + Px(1, u)) * 512 + Px(0, u)
    ensures u / 512 == Px(2, u) * 512 + Px(1, u)
  {
    var q := u / 512;
    assert q / 512 == u / 0x4_0000;
    assert q / 512 < 512;
  }

  // ---- the tree ----

  /** A page-table page: which tree it is in, its level, and the index bits that lead to it. */
  datatype Node = Node(root: nat, level: nat, prefix: nat)

  function Child(n: Node, i: nat): (c: Node)
    requires 0 < n.level
  {
    Node(n.root, n.level - 1, n.prefix * 512 + i)
  }

  /** `pages` is the memory; `tables` says which page serves as which page-table page. */
  datatype Mem = Mem(pages: map<nat, Page>, tables: map<Node, nat>)

  ghost predicate Located(m: Mem, n: Node) {
    n in m.tables && m.tables[n] in m.pages && |m.pages[m.tables[n]]| == 512
  }

  ghost function Entry(m: Mem, n: Node, i: nat): (pte: nat)
    requires Located(m, n) && i < 512
  {
    m.pages[m.tables[n]][i]
  }

  function Parent(n: Node): (p: Node) {
    Node(n.root, n.level + 1, n.prefix / 512)
  }

  lemma ParentOfChild(n: Node, i: nat)
    requires 0 < n.level && i < 512
    ensures Parent(Child(n, i)) == n
  {
  }

  lemma ChildInjective(x: Node, j: nat, n: Node, i: nat)
    requires 0 < x.level && 0 < n.level && i < 512 && j < 512 && Child(x, j) == Child(n, i)
    ensures x == n && i == j
  {
  }

  ghost predicate Placed(m: Mem, n: Node)
    requires n in m.tables
  {
    && n.level <= 2
    && (n.level == 2 ==> n.prefix == 0 && m.tables[n] == n.root)
    && (n.level == 1 ==> n.prefix < 512)
    && (n.level == 0 ==> n.prefix < 0x4_0000)
    && (n.level < 2 ==> Parent(n) in m.tables)
  }

  /** Entry i of an interior node is valid exactly when the child exists, and then points to it with no
      permission bit. */
  ghost predicate Link(m: Mem, n: Node, i: nat)
    requires Located(m, n) && i < 512 && 0 < n.level
  {
    if Child(n, i) in m.tables then Entry(m, n, i) == MakePte(m.tables[Child(n, i)], 0) else !Valid(Entry(m, n, i))
  }

  ghost predicate OnePlace(m: Mem) {
    forall n, n' :: n in m.tables && n' in m.tables && m.tables[n] == m.tables[n'] ==> n == n'
  }

  /** The page-table pages form trees, no page in two places. `dying` is excepted: freewalk has given its
      page back and is about to clear its parent's entry. */
  ghost predicate Tree(m: Mem, dying: set<Node>) {
    && (forall n :: n in m.tables && n !in dying ==> Located(m, n))
    && (forall n :: n in m.tables ==> Placed(m, n))
    && OnePlace(m)
    && (forall n: Node, i: nat {:trigger Link(m, n, i)} ::
          n in m.tables && n !in dying && 0 < n.level && i < 512 && Child(n, i) !in dying ==> Link(m, n, i))
  }

  /** A node that is not in the tree has no children there. */
  lemma NoChild(m: Mem, c: Node, j: nat)
    requires (forall n :: n in m.tables ==> Placed(m, n)) && c !in m.tables && 0 < c.level <= 2 && j < 512
    ensures Child(c, j) !in m.tables
  {
    if Child(c, j) in m.tables {
      assert Placed(m, Child(c, j));
      ParentOfChild(c, j);
    }
  }

  // ---- translations ----

  function LeafNode(root: nat, vpn: nat): (n: Node) {
    Node(root, 0, vpn / 512)
  }

  /** The valid entry for the page, 0 if the page is not mapped. */
  ghost function LeafPte(m: Mem, root: nat, vpn: nat): (pte: nat) {
    var n := LeafNode(root, vpn);
    if Located(m, n) && Valid(Entry(m, n, vpn % 512)) then Entry(m, n, vpn % 512) else 0
  }

  ghost predicate SameMap(m: Mem, m': Mem) {
    forall root: nat, vpn: nat {:trigger LeafPte(m', root, vpn)} :: LeafPte(m', root, vpn) == LeafPte(m, root, vpn)
  }

  function ZeroPage(): (p: Page)
    ensures |p| == 512 && forall i :: 0 <= i < 512 ==> p[i] == 0
  {
    seq(512, _ => 0)
  }

  /** One entry of a page overwritten. */
  function With(p: Page, i: nat, v: nat): (r: Page)
    requires i < |p|
  {
    p[i := v]
  }

  /** walk() gives page p to the missing child i of n. */
  ghost function AddTable(m: Mem, n: Node, i: nat, p: nat): (r: Mem)
    requires Located(m, n) && i < 512 && 0 < n.level
  {
    Mem(m.pages[p := ZeroPage()][m.tables[n] := With(m.pages[m.tables[n]], i, MakePte(p, 0))], m.tables[Child(n, i) := p])
  }

  lemma AddTableEntry(m: Mem, n: Node, i: nat, p: nat, x: Node, j: nat)
    requires OnePlace(m) && Located(m, n) && 0 < n.level && i < 512 && j < 512 && Child(n, i) !in m.tables
    requires (forall y :: y in m.tables ==> m.tables[y] != p) && (x == Child(n, i) || Located(m, x))
    ensures Located(AddTable(m, n, i, p), x)
    ensures Entry(AddTable(m, n, i, p), x, j) ==
            if x == Child(n, i) then 0 else if x == n && j == i then MakePte(p, 0) else Entry(m, x, j)
  {
  }

  lemma AddTableKeeps(m: Mem, n: Node, i: nat, p: nat)
    requires Tree(m, {}) && n in m.tables && 0 < n.level && i < 512 && Child(n, i) !in m.tables
    requires forall y :: y in m.tables ==> m.tables[y] != p
    ensures Tree(AddTable(m, n, i, p), {})
  {
    hide Entry, OnePlace, Located, MakePte, Valid;
    var m', c := AddTable(m, n, i, p), Child(n, i);
    assert Placed(m', c) by { ParentOfChild(n, i); assert Placed(m, n); }
    assert OnePlace(m') by { AddTableOnePlace(m, n, i, p); }
    forall x | x in m'.tables ensures Located(m', x) && Placed(m', x) {
      AddTableEntry(m, n, i, p, x, 0);
      if x != c { assert Placed(m, x); }
    }
    forall x: Node, j: nat {:trigger Link(m', x, j)} | x in m'.tables && 0 < x.level && j < 512
      ensures Link(m', x, j)
    {
      AddTableLink(m, n, i, p, x, j);
    }
  }

  lemma AddTableOnePlace(m: Mem, n: Node, i: nat, p: nat)
    requires OnePlace(m) && Located(m, n) && 0 < n.level && i < 512 && Child(n, i) !in m.tables
    requires forall y :: y in m.tables ==> m.tables[y] != p
    ensures OnePlace(AddTable(m, n, i, p))
  {
  }

  lemma AddTableLink(m: Mem, n: Node, i: nat, p: nat, x: Node, j: nat)
    requires Tree(m, {}) && n in m.tables && 0 < n.level && i < 512 && Child(n, i) !in m.tables
    requires forall y :: y in m.tables ==> m.tables[y] != p
    requires x in AddTable(m, n, i, p).tables && 0 < x.level && j < 512
    requires Located(AddTable(m, n, i, p), x)
    ensures Link(AddTable(m, n, i, p), x, j)
  {
    hide OnePlace;
    var c := Child(n, i);
    AddTableEntry(m, n, i, p, x, j);
    if x == c {
      assert Placed(m, n);
      NoChild(m, c, j);
    } else {
      assert Link(m, x, j);
      if Child(x, j) == c {
        ChildInjective(x, j, n, i);
      }
    }
  }

  lemma AddTableSameMap(m: Mem, n: Node, i: nat, p: nat)
    requires Tree(m, {}) && n in m.tables && 0 < n.level && i < 512 && Child(n, i) !in m.tables
    requires forall y :: y in m.tables ==> m.tables[y] != p
    ensures SameMap(m, AddTable(m, n, i, p))
  {
    hide Link, Placed;
    var m' := AddTable(m, n, i, p);
    forall root: nat, vpn: nat {:trigger LeafPte(m', root, vpn)} ensures LeafPte(m', root, vpn) == LeafPte(m, root, vpn) {
      var x := LeafNode(root, vpn);
      if x == Child(n, i) || x in m.tables {
        AddTableEntry(m, n, i, p, x, vpn % 512);
      }
    }
  }

  /** uvmcreate() makes page p the root of a new, empty tree. */
  ghost function AddRoot(m: Mem, p: nat): (r: Mem) {
    Mem(m.pages[p := ZeroPage()], m.tables[Node(p, 2, 0) := p])
  }

  lemma AddRootKeeps(m: Mem, p: nat)
    requires Tree(m, {}) && forall y :: y in m.tables ==> m.tables[y] != p
    ensures Tree(AddRoot(m, p), {})
  {
    hide MakePte, OnePlace, Entry, Valid;
    var m', n := AddRoot(m, p), Node(p, 2, 0);
    NoRoot(m, p);
    AddRootOnePlace(m, p);
    forall x | x in m'.tables ensures Located(m', x) && Placed(m', x) {
      if x != n { assert Located(m, x) && Placed(m, x); }
    }
    forall x: Node, j: nat {:trigger Link(m', x, j)} | x in m'.tables && 0 < x.level && j < 512 ensures Link(m', x, j) {
      AddRootLink(m, p, x, j);
    }
  }

  lemma AddRootLink(m: Mem, p: nat, x: Node, j: nat)
    requires Tree(m, {}) && (forall y :: y in m.tables ==> m.tables[y] != p) && j < 512
    requires x in AddRoot(m, p).tables && 0 < x.level && Located(AddRoot(m, p), x)
    ensures Link(AddRoot(m, p), x, j)
  {
    hide MakePte, OnePlace;
    NoRoot(m, p);
    if x == Node(p, 2, 0) {
      NoChild(m, x, j);
    } else {
      assert Link(m, x, j) && Located(m, x) && Placed(m, x);
    }
  }

  lemma NoRoot(m: Mem, p: nat)
    requires Tree(m, {}) && forall y :: y in m.tables ==> m.tables[y] != p
    ensures Node(p, 2, 0) !in m.tables
  {
    assert Node(p, 2, 0) in m.tables ==> Placed(m, Node(p, 2, 0));
  }

  lemma AddRootOnePlace(m: Mem, p: nat)
    requires OnePlace(m) && forall y :: y in m.tables ==> m.tables[y] != p
    ensures OnePlace(AddRoot(m, p))
  {
  }

  /** It has no translations, and the others stay. */
  lemma AddRootMap(m: Mem, p: nat)
    requires Tree(m, {}) && forall y :: y in m.tables ==> m.tables[y] != p
    ensures SameMap(m, AddRoot(m, p))
    ensures forall vpn: nat {:trigger LeafPte(AddRoot(m, p), p, vpn)} :: LeafPte(AddRoot(m, p), p, vpn) == 0
  {
    hide Link, OnePlace;
    NoRoot(m, p);
    forall vpn: nat {:trigger LeafPte(AddRoot(m, p), p, vpn)} ensures LeafPte(AddRoot(m, p), p, vpn) == 0 {
      Rootless(m, LeafNode(p, vpn));
    }
  }

  lemma Rootless(m: Mem, n: Node)
    requires (forall x :: x in m.tables ==> Placed(m, x)) && Node(n.root, 2, 0) !in m.tables
    ensures n !in m.tables
    decreases 2 - n.level
  {
    if n in m.tables {
      assert Placed(m, n);
      if n.level < 2 {
        Rootless(m, Parent(n));
      }
    }
  }

  /** *pte = v for the entry walk() found. */
  ghost function SetLeaf(m: Mem, root: nat, vpn: nat, v: nat): (r: Mem)
    requires Located(m, LeafNode(root, vpn))
  {
    var p := m.tables[LeafNode(root, vpn)];
    Mem(m.pages[p := With(m.pages[p], vpn % 512, v)], m.tables)
  }

  lemma SetLeafKeeps(m: Mem, root: nat, vpn: nat, v: nat)
    requires Tree(m, {}) && LeafNode(root, vpn) in m.tables
    ensures Tree(SetLeaf(m, root, vpn, v), {})
  {
    hide MakePte, Valid, OnePlace;
    var m' := SetLeaf(m, root, vpn, v);
    OnePlaceFrame(m, m');
    forall x | x in m.tables ensures Placed(m', x) && Located(m', x) {
      assert Placed(m, x) && Located(m, x);
    }
    forall x: Node, j: nat {:trigger Link(m', x, j)} | x in m'.tables && 0 < x.level && j < 512 ensures Link(m', x, j) {
      assert Link(m, x, j) && Located(m, x);
      SetLeafOther(m, root, vpn, v, x);
    }
  }

  lemma SetLeafOther(m: Mem, root: nat, vpn: nat, v: nat, x: Node)
    requires OnePlace(m) && Located(m, LeafNode(root, vpn)) && Located(m, x) && x != LeafNode(root, vpn)
    ensures Located(SetLeaf(m, root, vpn, v), x)
    ensures SetLeaf(m, root, vpn, v).pages[m.tables[x]] == m.pages[m.tables[x]]
  {
  }

  /** Exactly one translation changes. */
  lemma SetLeafMap(m: Mem, root: nat, vpn: nat, v: nat, r: nat, u: nat)
    requires Tree(m, {}) && LeafNode(root, vpn) in m.tables
    ensures LeafPte(SetLeaf(m, root, vpn, v), r, u) ==
            if r == root && u == vpn then (if Valid(v) then v else 0) else LeafPte(m, r, u)
  {
    hide OnePlace, Link, Placed;
    if LeafNode(r, u) != LeafNode(root, vpn) {
      if LeafNode(r, u) in m.tables {
        SetLeafOther(m, root, vpn, v, LeafNode(r, u));
      }
    } else {
      assert u == vpn <==> u % 512 == vpn % 512;
    }
  }

  ghost predicate SameTablePages(m: Mem, m': Mem, except: set<Node>) {
    && m'.tables == m.tables
    && forall x :: x in m.tables && x !in except && m.tables[x] in m.pages ==>
         m.tables[x] in m'.pages && m'.pages[m.tables[x]] == m.pages[m.tables[x]]
  }

  /** Writing other pages does not disturb the trees. */
  lemma OtherPagesKeep(m: Mem, m': Mem)
    requires Tree(m, {}) && SameTablePages(m, m', {})
    ensures Tree(m', {}) && SameMap(m, m')
  {
    hide MakePte, Valid, OnePlace;
    assert OnePlace(m') by { assert OnePlace(m); OnePlaceFrame(m, m'); }
    forall x | x in m.tables ensures Placed(m', x) && Located(m', x) {
      assert Placed(m, x) && Located(m, x);
    }
    forall x: Node, j: nat {:trigger Link(m', x, j)} | x in m'.tables && 0 < x.level && j < 512 ensures Link(m', x, j) {
      assert Link(m, x, j);
    }
  }

  lemma OnePlaceFrame(m: Mem, m': Mem)
    requires OnePlace(m) && m'.tables == m.tables
    ensures OnePlace(m')
  {
  }

  // ---- taking a tree apart ----

  /** x is n or below it. */
  ghost predicate Under(x: Node, n: Node)
    decreases n.level - x.level
  {
    x == n || (x.level < n.level && Under(Parent(x), n))
  }

  lemma {:induction false} UnderRoot(x: Node, n: Node)
    requires Under(x, n)
    ensures x.root == n.root && x.level <= n.level
    decreases n.level - x.level
  {
    if x != n {
      UnderRoot(Parent(x), n);
    }
  }

  /** What is properly below n is at or below one of its children. */
  lemma {:induction false} UnderChild(x: Node, n: Node) returns (j: nat)
    requires Under(x, n) && x != n
    ensures 0 < n.level && j < 512 && Under(x, Child(n, j))
    decreases n.level - x.level
  {
    if Parent(x) == n {
      j := x.prefix % 512;
      assert Child(n, j) == x;
    } else {
      UnderRoot(Parent(x), n);
      j := UnderChild(Parent(x), n);
      UnderRoot(Parent(x), Child(n, j));
    }
  }

  lemma {:induction false} ChildUnder(x: Node, n: Node, j: nat)
    requires 0 < n.level && j < 512 && Under(x, Child(n, j))
    ensures Under(x, n) && x != n
    decreases n.level - x.level
  {
    UnderRoot(x, Child(n, j));
    if x == Child(n, j) {
      ParentOfChild(n, j);
    } else {
      ChildUnder(Parent(x), n, j);
    }
  }

  /** freewalk's kfree: the page of n leaves the tree, though its parent's entry still points to it. */
  lemma ReleaseKeeps(m: Mem, m': Mem, n: Node)
    requires Tree(m, {}) && n in m.tables && m'.tables == m.tables - {n}
    requires forall x :: x in m.tables && x != n ==> m.tables[x] in m'.pages && m'.pages[m.tables[x]] == m.pages[m.tables[x]]
    requires forall j: nat :: j < 512 && 0 < n.level ==> Child(n, j) !in m.tables
    ensures Tree(m', {n})
  {
    hide MakePte, Valid, OnePlace;
    ReleaseOnePlace(m, m', n);
    forall x | x in m'.tables ensures Located(m', x) && Placed(m', x) {
      assert Located(m, x) && Placed(m, x);
      assert x.level < 2 ==> Child(Parent(x), x.prefix % 512) == x;
    }
    forall x: Node, j: nat {:trigger Link(m', x, j)} | x in m'.tables && 0 < x.level && j < 512 && Child(x, j) != n
      ensures Link(m', x, j)
    {
      assert Located(m, x) && Link(m, x, j);
    }
  }

  lemma ReleaseOnePlace(m: Mem, m': Mem, n: Node)
    requires OnePlace(m) && m'.tables == m.tables - {n}
    ensures OnePlace(m')
  {
  }

  /** pagetable[i] = 0 after the child has been given back. */
  ghost function Cleared(m: Mem, n: Node, i: nat): (r: Mem)
    requires Located(m, n) && i < 512
  {
    Mem(m.pages[m.tables[n] := With(m.pages[m.tables[n]], i, 0)], m.tables)
  }

  lemma ClearedKeeps(m: Mem, n: Node, i: nat)
    requires n in m.tables && 0 < n.level && i < 512 && Child(n, i) !in m.tables && Tree(m, {Child(n, i)})
    ensures Located(m, n) && Tree(Cleared(m, n, i), {})
  {
    hide MakePte, OnePlace, Link, Child;
    var m' := Cleared(m, n, i);
    OnePlaceFrame(m, m');
    forall x | x in m.tables ensures Located(m', x) && Placed(m', x) {
      assert Placed(m, x) && Located(m, x);
    }
    forall x: Node, j: nat {:trigger Link(m', x, j)} | x in m'.tables && 0 < x.level && j < 512 ensures Link(m', x, j) {
      ClearedLink(m, n, i, x, j);
    }
  }

  lemma ClearedLink(m: Mem, n: Node, i: nat, x: Node, j: nat)
    requires n in m.tables && 0 < n.level && i < 512 && Child(n, i) !in m.tables && Tree(m, {Child(n, i)})
    requires x in m.tables && 0 < x.level && j < 512 && Located(m, n) && Located(Cleared(m, n, i), x)
    ensures Link(Cleared(m, n, i), x, j)
  {
    hide MakePte, OnePlace;
    assert Located(m, x);
    ClearedOther(m, n, i, x);
    if Child(x, j) == Child(n, i) {
      ChildInjective(x, j, n, i);
    } else {
      assert Link(m, x, j);
    }
  }

  lemma ClearedOther(m: Mem, n: Node, i: nat, x: Node)
    requires OnePlace(m) && Located(m, n) && i < 512 && Located(m, x)
    ensures Cleared(m, n, i).pages[m.tables[x]] ==
            if x == n then With(m.pages[m.tables[n]], i, 0) else m.pages[m.tables[x]]
  {
  }

  lemma ClearedSameMap(m: Mem, n: Node, i: nat)
    requires n in m.tables && 0 < n.level && i < 512 && Located(m, n) && OnePlace(m)
    ensures SameMap(m, Cleared(m, n, i))
  {
    var m' := Cleared(m, n, i);
    forall root: nat, vpn: nat {:trigger LeafPte(m', root, vpn)} ensures LeafPte(m', root, vpn) == LeafPte(m, root, vpn) {
      if Located(m, LeafNode(root, vpn)) {
        ClearedOther(m, n, i, LeafNode(root, vpn));
      }
    }
  }
}

/** The physical page allocator (kernel/kalloc.c): a list threaded through the first word of each free page. */
module PageAllocator {
  import opened Collections
  import opened Sv39

  const JUNK_FREED: nat := 0x0101_0101_0101_0101
  const JUNK_ALLOCATED: nat := 0x0505_0505_0505_0505

  /** memset(pa, c, PGSIZE), as words. */
  function Filled(w: nat): (p: Page)
    ensures |p| == 512 && forall i :: 0 <= i < 512 ==> p[i] == w
  {
    seq(512, _ => w)
  }

  /** The address of the page at position i of the list; 0 ends it. */
  function LinkTo(free: seq<nat>, i: nat): (pa: nat) {
    if i < |free| then free[i] * PGSIZE else 0
  }

  ghost predicate Linked(pages: map<nat, Page>, free: seq<nat>, i: nat)
    requires i < |free|
  {
    free[i] in pages && |pages[free[i]]| == 512 && pages[free[i]][0] == LinkTo(free, i + 1) && 0 < free[i]
  }

  ghost predicate FreeList(pages: map<nat, Page>, head: nat, free: seq<nat>) {
    && head == LinkTo(free, 0)
    && Distinct(free)
    && forall i: nat :: i < |free| ==> Linked(pages, free, i)
  }

  lemma EmptyList(pages: map<nat, Page>, head: nat, free: seq<nat>)
    requires FreeList(pages, head, free)
    ensures head == 0 <==> free == []
    ensures free != [] ==> head / PGSIZE == free[0]
  {
    if free != [] {
      assert Linked(pages, free, 0);
    }
  }

  lemma PushKeeps(pages: map<nat, Page>, head: nat, free: seq<nat>, p: nat)
    requires FreeList(pages, head, free) && p !in free && 0 < p
    ensures FreeList(pages[p := Filled(JUNK_FREED)[0 := head]], p * PGSIZE, [p] + free)
  {
    var pages', free' := pages[p := Filled(JUNK_FREED)[0 := head]], [p] + free;
    forall i: nat | i < |free'| ensures Linked(pages', free', i) {
      if i > 0 {
        assert Linked(pages, free, i - 1);
        assert free'[i] == free[i - 1] && LinkTo(free', i + 1) == LinkTo(free, i);
      } else {
        assert LinkTo(free', 1) == LinkTo(free, 0);
      }
    }
  }

  lemma PopKeeps(pages: map<nat, Page>, head: nat, free: seq<nat>)
    requires FreeList(pages, head, free) && free != []
    ensures head == free[0] * PGSIZE && free[0] in pages && |pages[free[0]]| == 512
    ensures FreeList(pages[free[0] := Filled(JUNK_ALLOCATED)], pages[free[0]][0], free[1..])
    ensures free[0] !in free[1..]
  {
    var pages', free' := pages[free[0] := Filled(JUNK_ALLOCATED)], free[1..];
    assert Linked(pages, free, 0);
    assert LinkTo(free', 0) == LinkTo(free, 1);
    forall i: nat | i < |free'| ensures Linked(pages', free', i) {
      assert Linked(pages, free, i + 1);
      assert free'[i] == free[i + 1] && LinkTo(free', i + 1) == LinkTo(free, i + 2);
    }
  }

  /** Writing pages that are not on the list leaves the list alone. */
  lemma FreeListFrame(pages: map<nat, Page>, pages': map<nat, Page>, head: nat, free: seq<nat>)
    requires FreeList(pages, head, free)
    requires forall i :: 0 <= i < |free| ==> free[i] in pages && free[i] in pages' && pages'[free[i]] == pages[free[i]]
    ensures FreeList(pages', head, free)
  {
    forall i: nat | i < |free| ensures Linked(pages', free, i) {
      assert Linked(pages, free, i);
    }
  }
}
