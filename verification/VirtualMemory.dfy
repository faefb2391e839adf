/** User address spaces of kernel/vm.c on top of kernel/kalloc.c: who owns each physical page, and what each
    routine does to the translations. */
module PageOwnership {
  import opened Sv39
  import opened PageAllocator

  /** Every managed page has exactly one owner: the free list, one place in one page table, one user mapping,
      or some other part of the kernel that got it from kalloc(). */
  datatype Role = Free | Table(node: Node) | User(root: nat, vpn: nat) | Other

  datatype State = State(pages: map<nat, Page>, head: nat, tables: map<Node, nat>,
                         free: seq<nat>, role: map<nat, Role>)

  ghost function M(s: State): (m: Mem) {
    Mem(s.pages, s.tables)
  }

  ghost predicate Roles(s: State) {
    && s.role.Keys == s.pages.Keys
    && (forall p :: p in s.pages ==> (s.role[p].Free? <==> p in s.free))
    && (forall n :: n in s.tables ==> s.tables[n] in s.role && s.role[s.tables[n]] == Table(n))
    && (forall p :: p in s.pages && s.role[p].Table? ==> s.role[p].node in s.tables && s.tables[s.role[p].node] == p)
  }

  /** A user page is mapped where its role says. */
  ghost predicate UserPages(s: State)
    requires s.role.Keys == s.pages.Keys
  {
    forall p :: p in s.pages && s.role[p].User? ==>
      var pte := LeafPte(M(s), s.role[p].root, s.role[p].vpn);
      Valid(pte) && Ppn(pte) == p
  }

  /** A leaf that user programs can use leads to a user page, and to the one whose role names this leaf. */
  ghost predicate OwnLeaf(s: State, root: nat, vpn: nat) {
    var pte := LeafPte(M(s), root, vpn);
    Valid(pte) && UserBit(pte) ==> Ppn(pte) in s.role && s.role[Ppn(pte)] == User(root, vpn)
  }

  /** So no such leaf leads to a free page, a page-table page or another leaf's page. */
  ghost predicate Exclusive(s: State) {
    forall root: nat, vpn: nat :: OwnLeaf(s, root, vpn)
  }

  /** All but the last: between uvmunmap's kfree and its `*pte = 0` a leaf leads to a free page. */
  ghost predicate Sound(s: State) {
    && (forall p :: p in s.pages ==> 0 < p && |s.pages[p]| == 512)
    && FreeList(s.pages, s.head, s.free)
    && Roles(s)
    && Tree(M(s), {})
    && UserPages(s)
  }

  ghost predicate Good(s: State) {
    Sound(s) && Exclusive(s)
  }

  /** Leaves keep their owners while neither the translations nor the user pages change. */
  lemma ExclusiveStays(s: State, s': State)
    requires Exclusive(s) && SameMap(M(s), M(s'))
    requires forall p :: p in s.role && s.role[p].User? ==> p in s'.role && s'.role[p] == s.role[p]
    ensures Exclusive(s')
  {
    hide LeafPte, Valid, Ppn, UserBit;
    forall root: nat, vpn: nat ensures OwnLeaf(s', root, vpn) {
      assert LeafPte(M(s), root, vpn) == LeafPte(M(s'), root, vpn);
      assert OwnLeaf(s, root, vpn);
    }
  }

  // ---- the elementary steps ----

  ghost function Allocated(s: State): (r: State)
    requires Good(s) && s.free != []
  {
    PopKeeps(s.pages, s.head, s.free);
    var p := s.free[0];
    State(s.pages[p := Filled(JUNK_ALLOCATED)], s.pages[p][0], s.tables, s.free[1..], s.role[p := Other])
  }

  ghost function Freed(s: State, p: nat): (r: State)
    requires p in s.role
  {
    State(s.pages[p := Filled(JUNK_FREED)[0 := s.head]], p * PGSIZE, s.tables, [p] + s.free, s.role[p := Free])
  }

  /** A page that is no page-table page changes contents. */
  lemma TablesUntouched(s: State, p: nat, x: Page)
    requires Tree(M(s), {}) && Roles(s) && p in s.pages && !s.role[p].Table?
    ensures Tree(Mem(s.pages[p := x], s.tables), {}) && SameMap(M(s), Mem(s.pages[p := x], s.tables))
  {
    OtherPagesKeep(M(s), Mem(s.pages[p := x], s.tables));
  }

  lemma AllocatedGood(s: State)
    requires Good(s) && s.free != []
    ensures Good(Allocated(s)) && SameMap(M(s), M(Allocated(s)))
  {
    hide Tree, FreeList, LeafPte, Valid, Ppn;
    PopKeeps(s.pages, s.head, s.free);
    TablesUntouched(s, s.free[0], Filled(JUNK_ALLOCATED));
    assert forall p :: p in s.free <==> p == s.free[0] || p in s.free[1..];
    ExclusiveStays(s, Allocated(s));
  }

  lemma FreedGood(s: State, p: nat)
    requires Good(s) && p in s.pages && (s.role[p].Other? || s.role[p].User?)
    ensures Sound(Freed(s, p)) && SameMap(M(s), M(Freed(s, p)))
    ensures s.role[p].Other? ==> Good(Freed(s, p))
  {
    hide Tree, FreeList, LeafPte, Valid, Ppn, Exclusive;
    PushKeeps(s.pages, s.head, s.free, p);
    TablesUntouched(s, p, Filled(JUNK_FREED)[0 := s.head]);
    if s.role[p].Other? {
      ExclusiveStays(s, Freed(s, p));
    }
  }

  /** walk() turns a page just allocated into the missing child i of n. */
  ghost function Tabled(s: State, n: Node, i: nat, p: nat): (r: State)
    requires Located(M(s), n) && i < 512 && 0 < n.level
  {
    var m := AddTable(M(s), n, i, p);
    State(m.pages, s.head, m.tables, s.free, s.role[p := Table(Child(n, i))])
  }

  lemma TabledGood(s: State, n: Node, i: nat, p: nat)
    requires Good(s) && n in s.tables && 0 < n.level && i < 512 && Child(n, i) !in s.tables
    requires p in s.pages && s.role[p].Other?
    ensures Good(Tabled(s, n, i, p)) && SameMap(M(s), M(Tabled(s, n, i, p)))
  {
    hide FreeList, LeafPte, Valid, Ppn, Tree, UserPages;
    TableAt(s, n);
    AddTableKeeps(M(s), n, i, p);
    AddTableSameMap(M(s), n, i, p);
    var s' := Tabled(s, n, i, p);
    FreeListStays(s, s'.pages, {p, s.tables[n]});
    RolesTabled(s, n, i, p);
    UserPagesStay(s, s', p);
    ExclusiveStays(s, s');
  }

  lemma TableAt(s: State, n: Node)
    requires Good(s) && n in s.tables
    ensures Located(M(s), n)
  {
  }

  lemma RolesTabled(s: State, n: Node, i: nat, p: nat)
    requires Roles(s) && Located(M(s), n) && 0 < n.level && i < 512 && Child(n, i) !in s.tables
    requires p in s.pages && s.role[p].Other?
    ensures Roles(Tabled(s, n, i, p))
  {
  }

  lemma FreeListStays(s: State, pages: map<nat, Page>, changed: set<nat>)
    requires FreeList(s.pages, s.head, s.free) && Roles(s)
    requires forall q :: q in changed ==> q in s.role && !s.role[q].Free?
    requires forall q :: q in s.pages ==> q in pages && (q in changed || pages[q] == s.pages[q])
    ensures FreeList(pages, s.head, s.free)
  {
    forall i | 0 <= i < |s.free| ensures s.free[i] in s.pages && pages[s.free[i]] == s.pages[s.free[i]] {
      assert PageAllocator.Linked(s.pages, s.free, i);
    }
    FreeListFrame(s.pages, pages, s.head, s.free);
  }

  /** uvmcreate() turns a page just allocated into the root of an empty tree. */
  ghost function Created(s: State, p: nat): (r: State) {
    State(AddRoot(M(s), p).pages, s.head, AddRoot(M(s), p).tables, s.free, s.role[p := Table(Node(p, 2, 0))])
  }

  lemma CreatedGood(s: State, p: nat)
    requires Good(s) && p in s.pages && s.role[p].Other?
    ensures Good(Created(s, p)) && SameMap(M(s), M(Created(s, p)))
    ensures forall vpn: nat {:trigger LeafPte(M(Created(s, p)), p, vpn)} :: LeafPte(M(Created(s, p)), p, vpn) == 0
  {
    hide FreeList, LeafPte, Valid, Ppn, Tree, Exclusive, Roles, UserPages;
    RolesCreated(s, p);
    AddRootKeeps(M(s), p);
    AddRootMap(M(s), p);
    FreeListStays(s, Created(s, p).pages, {p});
    UserPagesStay(s, Created(s, p), p);
    ExclusiveCreated(s, p);
  }

  lemma RolesCreated(s: State, p: nat)
    requires Roles(s) && Tree(M(s), {}) && p in s.pages && s.role[p].Other?
    ensures (forall y :: y in s.tables ==> s.tables[y] != p) && Roles(Created(s, p)) && s.role.Keys == s.pages.Keys
  {
    hide Link, OnePlace;
    NoRoot(M(s), p);
  }

  lemma ExclusiveCreated(s: State, p: nat)
    requires Exclusive(s) && SameMap(M(s), M(Created(s, p))) && p in s.role && s.role[p].Other?
    ensures Exclusive(Created(s, p))
  {
    hide Exclusive, SameMap;
    ExclusiveStays(s, Created(s, p));
  }

  /** A page that was the caller's becomes something else than a user page. */
  lemma UserPagesStay(s: State, s': State, p: nat)
    requires s.role.Keys == s.pages.Keys && s'.role.Keys == s'.pages.Keys && UserPages(s) && SameMap(M(s), M(s'))
    requires p in s.role && p in s'.role && !s'.role[p].User? && s'.role == s.role[p := s'.role[p]]
    ensures UserPages(s')
  {
    hide LeafPte, Valid, Ppn;
    forall q | q in s'.pages && s'.role[q].User?
      ensures Valid(LeafPte(M(s'), s'.role[q].root, s'.role[q].vpn)) && Ppn(LeafPte(M(s'), s'.role[q].root, s'.role[q].vpn)) == q
    {
      assert s.role[q] == s'.role[q];
    }
  }

  /** Conservation: a page that user programs reach is not free and no page-table page, and they reach it in one place. */
  lemma MappedOnce(s: State, root: nat, vpn: nat)
    requires Good(s) && Valid(LeafPte(M(s), root, vpn)) && UserBit(LeafPte(M(s), root, vpn))
    ensures var p := Ppn(LeafPte(M(s), root, vpn));
            && p in s.pages && p !in s.free && (forall n :: n in s.tables ==> s.tables[n] != p)
            && forall r: nat, u: nat {:trigger LeafPte(M(s), r, u)} ::
                 Valid(LeafPte(M(s), r, u)) && UserBit(LeafPte(M(s), r, u)) && Ppn(LeafPte(M(s), r, u)) == p ==> r == root && u == vpn
  {
    hide FreeList, LeafPte, Valid, Ppn, Tree, UserBit;
    assert OwnLeaf(s, root, vpn);
    var p := Ppn(LeafPte(M(s), root, vpn));
    forall r: nat, u: nat {:trigger LeafPte(M(s), r, u)} |
      Valid(LeafPte(M(s), r, u)) && UserBit(LeafPte(M(s), r, u)) && Ppn(LeafPte(M(s), r, u)) == p
      ensures r == root && u == vpn
    {
      assert OwnLeaf(s, r, u);
    }
  }

  /** The page a new user leaf leads to becomes that leaf's page. */
  ghost function RoleEntered(role: map<nat, Role>, root: nat, vpn: nat, v: nat): (r: map<nat, Role>) {
    if Valid(v) && UserBit(v) then role[Ppn(v) := User(root, vpn)] else role
  }

  /** *pte = v. */
  ghost function Entered(s: State, root: nat, vpn: nat, v: nat): (r: State)
    requires Located(M(s), LeafNode(root, vpn))
  {
    State(SetLeaf(M(s), root, vpn, v).pages, s.head, s.tables, s.free, RoleEntered(s.role, root, vpn, v))
  }

  /** What may be entered: a user leaf only for a page that is the caller's. */
  ghost predicate Enterable(s: State, root: nat, vpn: nat, v: nat) {
    && (forall p :: p in s.role ==> s.role[p] != User(root, vpn))
    && (Valid(v) && UserBit(v) ==> Ppn(v) in s.role && s.role[Ppn(v)].Other?)
  }

  lemma EnteredSound(s: State, root: nat, vpn: nat, v: nat)
    requires Sound(s) && LeafNode(root, vpn) in s.tables && Enterable(s, root, vpn, v)
    ensures Located(M(s), LeafNode(root, vpn)) && Sound(Entered(s, root, vpn, v))
    ensures forall r: nat, u: nat {:trigger LeafPte(M(Entered(s, root, vpn, v)), r, u)} ::
              LeafPte(M(Entered(s, root, vpn, v)), r, u) ==
              if r == root && u == vpn then (if Valid(v) then v else 0) else LeafPte(M(s), r, u)
  {
    hide FreeList, LeafPte, Valid, Ppn, Link, Placed, OnePlace, MakePte;
    SetLeafKeeps(M(s), root, vpn, v);
    var s' := Entered(s, root, vpn, v);
    FreeListStays(s, s'.pages, {s.tables[LeafNode(root, vpn)]});
    forall r: nat, u: nat {:trigger LeafPte(M(s'), r, u)}
      ensures LeafPte(M(s'), r, u) == if r == root && u == vpn then (if Valid(v) then v else 0) else LeafPte(M(s), r, u)
    {
      SetLeafMap(M(s), root, vpn, v, r, u);
    }
  }

  lemma EnteredGood(s: State, root: nat, vpn: nat, v: nat)
    requires Good(s) && LeafNode(root, vpn) in s.tables && Enterable(s, root, vpn, v)
    ensures Good(Entered(s, root, vpn, v))
    ensures forall r: nat, u: nat {:trigger LeafPte(M(Entered(s, root, vpn, v)), r, u)} ::
              LeafPte(M(Entered(s, root, vpn, v)), r, u) ==
              if r == root && u == vpn then (if Valid(v) then v else 0) else LeafPte(M(s), r, u)
  {
    hide Sound, LeafPte, Ppn, UserBit;
    EnteredSound(s, root, vpn, v);
    var s' := Entered(s, root, vpn, v);
    forall r: nat, u: nat ensures OwnLeaf(s', r, u) {
      assert OwnLeaf(s, r, u);
      assert LeafPte(M(s'), r, u) == if r == root && u == vpn then (if Valid(v) then v else 0) else LeafPte(M(s), r, u);
    }
  }

  /** The mapping just entered makes page p a user page. */
  lemma AssignedGood(s: State, p: nat, root: nat, vpn: nat)
    requires Good(s) && p in s.pages && s.role[p].Other?
    requires Valid(LeafPte(M(s), root, vpn)) && Ppn(LeafPte(M(s), root, vpn)) == p
    ensures Good(s.(role := s.role[p := User(root, vpn)]))
  {
    hide Tree, FreeList, LeafPte, Valid, Ppn;
    ExclusiveStays(s, s.(role := s.role[p := User(root, vpn)]));
  }
}

module VirtualMemory {
  import opened Collections
  import opened Sv39
  import opened PageAllocator
  import opened PageOwnership

  /** The node walk() visits at a level on its way to vpn. */
  function NodeFor(root: nat, vpn: nat, level: nat): (n: Node)
    requires level <= 2
    ensures n.level == level && n.root == root
  {
    if level == 2 then Node(root, 2, 0) else if level == 1 then Node(root, 1, Px(2, vpn)) else LeafNode(root, vpn)
  }

  lemma WalkDown(root: nat, vpn: nat, level: nat)
    requires 0 < level <= 2 && vpn < MAXVPN
    ensures Child(NodeFor(root, vpn, level), Px(level, vpn)) == NodeFor(root, vpn, level - 1)
  {
    Decompose(vpn);
  }

  // ---- what pages cost ----

  /** The page-table pages below the root on the way to vpn. */
  function Path(root: nat, vpn: nat): (ns: set<Node>) {
    {NodeFor(root, vpn, 1), NodeFor(root, vpn, 0)}
  }

  function Paths(root: nat, first: nat, n: nat): (ns: set<Node>) {
    if n == 0 then {} else Paths(root, first, n - 1) + Path(root, first + n - 1)
  }

  /** There is a free page for each of `pages` pages and of the page-table pages of `ns` that are missing. */
  ghost predicate Affordable(s: State, ns: set<Node>, pages: nat) {
    |ns - s.tables.Keys| + pages <= |s.free|
  }

  /** From s to s', free pages went into page-table pages of `ns` and into `pages` others. */
  ghost predicate Paid(s: State, s': State, ns: set<Node>, pages: nat) {
    && s.tables.Keys <= s'.tables.Keys <= s.tables.Keys + ns
    && |s.free| == |s'.free| + |s'.tables.Keys - s.tables.Keys| + pages
  }

  lemma {:induction false} PathsHas(root: nat, first: nat, n: nat, u: nat)
    requires first <= u < first + n
    ensures Path(root, u) <= Paths(root, first, n)
  {
    if u < first + n - 1 {
      PathsHas(root, first, n - 1, u);
    }
  }

  lemma NoPaths(s: State, root: nat, first: nat)
    ensures Paths(root, first, 0) <= s.tables.Keys
  {
  }

  lemma PathsNext(s: State, s': State, root: nat, first: nat, n: nat, pages: nat)
    requires Paths(root, first, n) <= s.tables.Keys && Paid(s, s', Path(root, first + n), pages) && Path(root, first + n) <= s'.tables.Keys
    ensures Paths(root, first, n + 1) <= s'.tables.Keys
  {
  }

  lemma PaidSelf(s: State, ns: set<Node>)
    ensures Paid(s, s, ns, 0)
  {
    assert s.tables.Keys - s.tables.Keys == {};
  }

  lemma PaidThen(s: State, s1: State, s2: State, ns: set<Node>, more: set<Node>, a: nat, b: nat)
    requires Paid(s, s1, ns, a) && Paid(s1, s2, more, b) && more <= ns
    ensures Paid(s, s2, ns, a + b)
  {
    Between(s.tables.Keys, s1.tables.Keys, s2.tables.Keys);
  }

  lemma Between<T>(a: set<T>, b: set<T>, c: set<T>)
    requires a <= b <= c
    ensures |c - a| == |b - a| + |c - b|
  {
    assert c - a == (b - a) + (c - b);
  }

  /** All page-table pages on the way to the first k pages from `first` on are there, and paid for. */
  ghost predicate PaidFor(s0: State, s: State, root: nat, first: nat, k: nat, ns: set<Node>, pages: nat) {
    Paid(s0, s, ns, pages) && Paths(root, first, k) <= s.tables.Keys
  }

  lemma PaidStep(s0: State, s1: State, s2: State, root: nat, first: nat, k: nat, ns: set<Node>, pages: nat, more: nat)
    requires PaidFor(s0, s1, root, first, k, ns, pages) && Path(root, first + k) <= ns
    requires Paid(s1, s2, Path(root, first + k), more) && Path(root, first + k) <= s2.tables.Keys
    ensures PaidFor(s0, s2, root, first, k + 1, ns, pages + more)
  {
    hide Paid, Path, Paths;
    PaidThen(s0, s1, s2, ns, Path(root, first + k), pages, more);
    PathsNext(s1, s2, root, first, k, more);
  }

  lemma PaidOne(s: State, s': State, ns: set<Node>, n: Node)
    requires n in ns && n !in s.tables && s'.tables.Keys == s.tables.Keys + {n} && |s.free| == |s'.free| + 1
    ensures Paid(s, s', ns, 0)
  {
    assert s'.tables.Keys - s.tables.Keys == {n};
  }

  lemma PaidAll(s: State, s': State, ns: set<Node>, pages: nat)
    requires Paid(s, s', ns, pages) && ns <= s'.tables.Keys
    ensures Affordable(s, ns, pages)
  {
    assert s'.tables.Keys - s.tables.Keys == ns - s.tables.Keys;
  }

  /** Part of the way there is too little left for the rest. */
  lemma PaidShort(s: State, s': State, ns: set<Node>, pages: nat, more: set<Node>, left: nat)
    requires Paid(s, s', ns, pages) && more <= ns && !Affordable(s', more, left)
    ensures !Affordable(s, ns, pages + left)
  {
    Apart(s.tables.Keys, s'.tables.Keys, more, ns);
  }

  lemma PaidShortOf(s: State, s': State, ns: set<Node>, pages: nat, more: set<Node>, all: nat)
    requires Paid(s, s', ns, pages) && more <= ns && !Affordable(s', more, 1) && pages < all
    ensures !Affordable(s, ns, all)
  {
    hide Paid;
    PaidShort(s, s', ns, pages, more, 1);
  }

  lemma Apart<T>(k: set<T>, k': set<T>, more: set<T>, ns: set<T>)
    requires k <= k' <= k + ns && more <= ns
    ensures |k' - k| + |more - k'| <= |ns - k|
  {
    SubsetSize((k' - k) + (more - k'), ns - k);
  }

  /** A page is taken, page tables are added for it, and it is kept or given back. */
  lemma PagePaid(s: State, s1: State, s2: State, s': State, ns: set<Node>, kept: bool)
    requires s1.tables == s.tables && |s1.free| + 1 == |s.free| && Paid(s1, s2, ns, 0)
    requires s'.tables == s2.tables && |s'.free| == |s2.free| + if kept then 0 else 1
    ensures Paid(s, s', ns, if kept then 1 else 0) && (Affordable(s1, ns, 0) <==> Affordable(s, ns, 1))
  {
  }

  lemma OnePath(root: nat, vpn: nat)
    ensures Paths(root, vpn, 1) == Path(root, vpn)
  {
    assert Paths(root, vpn, 0) == {};
  }

  lemma NothingLeft(s: State, ns: set<Node>, n: Node)
    requires s.free == [] && n in ns && n !in s.tables
    ensures !Affordable(s, ns, 0)
  {
    assert n in ns - s.tables.Keys;
  }

  lemma WalkPaid(s: State, s1: State, s2: State, root: nat, vpn: nat, level: nat)
    requires 0 < level <= 2 && Paid(s, s1, Path(root, vpn), 0) && NodeFor(root, vpn, level - 1) !in s1.tables
    requires s2.tables.Keys == s1.tables.Keys + {NodeFor(root, vpn, level - 1)} && |s1.free| == |s2.free| + 1
    ensures Paid(s, s2, Path(root, vpn), 0)
  {
    hide Paid, NodeFor;
    PaidOne(s1, s2, Path(root, vpn), NodeFor(root, vpn, level - 1));
    PaidThen(s, s1, s2, Path(root, vpn), Path(root, vpn), 0, 0);
  }

  lemma WalkShort(s: State, s1: State, root: nat, vpn: nat, level: nat)
    requires 0 < level <= 2 && Paid(s, s1, Path(root, vpn), 0) && NodeFor(root, vpn, level - 1) !in s1.tables && s1.free == []
    ensures !Affordable(s, Path(root, vpn), 0)
  {
    hide Paid, Affordable;
    NothingLeft(s1, Path(root, vpn), NodeFor(root, vpn, level - 1));
    PaidShort(s, s1, Path(root, vpn), 0, Path(root, vpn), 0);
  }

  lemma WalkedPath(s: State, root: nat, vpn: nat)
    requires NodeFor(root, vpn, 1) in s.tables && NodeFor(root, vpn, 0) in s.tables
    ensures Path(root, vpn) <= s.tables.Keys
  {
  }

  /** Between the two states free pages may have become page-table pages; nothing else changed hands, and no
      page in other use was written. */
  ghost predicate Grew(s: State, s': State) {
    && s'.pages.Keys == s.pages.Keys && s.role.Keys == s.pages.Keys && s'.role.Keys == s'.pages.Keys
    && (forall n :: n in s.tables ==> n in s'.tables && s'.tables[n] == s.tables[n])
    && (forall p :: p in s.pages ==> GrewPage(s, s', p))
  }

  ghost predicate GrewPage(s: State, s': State, p: nat)
    requires p in s.pages && p in s'.pages && p in s.role && p in s'.role
  {
    || (s.role[p].Free? && s'.role[p].Table?)
    || (s'.role[p] == s.role[p] && (s.role[p].User? || s.role[p].Other? ==> s'.pages[p] == s.pages[p]))
  }

  /** As Grew, but `n` pages from frame `ppn` on have become the user pages from `first` on, if `user`. */
  ghost predicate Mapped(s: State, s': State, root: nat, first: nat, n: nat, ppn: nat, user: bool) {
    && s'.pages.Keys == s.pages.Keys && s.role.Keys == s.pages.Keys && s'.role.Keys == s'.pages.Keys
    && (forall x :: x in s.tables ==> x in s'.tables && s'.tables[x] == s.tables[x])
    && (forall p :: p in s.pages ==> MappedPage(s, s', root, first, n, ppn, user, p))
  }

  ghost predicate MappedPage(s: State, s': State, root: nat, first: nat, n: nat, ppn: nat, user: bool, p: nat)
    requires p in s.pages && p in s'.pages && p in s.role && p in s'.role
  {
    if user && ppn <= p < ppn + n
    then s.role[p].Other? && s'.role[p] == User(root, first + (p - ppn)) && s'.pages[p] == s.pages[p]
    else GrewPage(s, s', p)
  }

  /** The frames that a mapping is for: user leaves only for pages that are the caller's. */
  ghost predicate Mappable(s: State, ppn: nat, n: nat, perm: nat) {
    UserBit(perm) ==> forall p :: ppn <= p < ppn + n ==> p in s.role && s.role[p].Other?
  }

  lemma MappedNone(s: State, s': State, root: nat, first: nat, ppn: nat, user: bool)
    ensures Mapped(s, s', root, first, 0, ppn, user) <==> Grew(s, s')
  {
    forall p | p in s.pages && p in s'.pages && p in s.role && p in s'.role
      ensures MappedPage(s, s', root, first, 0, ppn, user, p) <==> GrewPage(s, s', p)
    {
    }
  }

  lemma MappedNext(s: State, s1: State, s2: State, root: nat, first: nat, n: nat, ppn: nat, k: nat, user: bool)
    requires Mapped(s, s1, root, first, n, ppn, user) && Mapped(s1, s2, root, first + n, k, ppn + n, user)
    ensures Mapped(s, s2, root, first, n + k, ppn, user)
  {
    hide GrewPage;
    forall p | p in s.pages ensures MappedPage(s, s2, root, first, n + k, ppn, user, p) {
      assert MappedPage(s, s1, root, first, n, ppn, user, p) && MappedPage(s1, s2, root, first + n, k, ppn + n, user, p);
      MappedPageNext(s, s1, s2, root, first, n, ppn, k, user, p);
    }
  }

  lemma MappedPageNext(s: State, s1: State, s2: State, root: nat, first: nat, n: nat, ppn: nat, k: nat, user: bool, p: nat)
    requires p in s.pages && p in s1.pages && p in s2.pages && p in s.role && p in s1.role && p in s2.role
    requires MappedPage(s, s1, root, first, n, ppn, user, p) && MappedPage(s1, s2, root, first + n, k, ppn + n, user, p)
    ensures MappedPage(s, s2, root, first, n + k, ppn, user, p)
  {
  }

  lemma MappedStillMappable(s: State, s1: State, root: nat, first: nat, n: nat, ppn: nat, m: nat, perm: nat)
    requires Mapped(s, s1, root, first, n, ppn, UserBit(perm)) && Mappable(s, ppn, m, perm) && n < m
    ensures Mappable(s1, ppn + n, 1, perm)
  {
    if UserBit(perm) {
      assert MappedPage(s, s1, root, first, n, ppn, true, ppn + n);
    }
  }

  lemma MappedRoot(s: State, s': State, root: nat, r: nat, first: nat, n: nat, ppn: nat, user: bool)
    requires Mapped(s, s', root, first, n, ppn, user) && Node(r, 2, 0) in s.tables
    ensures Node(r, 2, 0) in s'.tables
  {
  }

  /** `n` pages from `first` on are mapped to consecutive frames; no other translation changed. */
  ghost predicate MapsRange(m: Mem, m': Mem, root: nat, first: nat, n: nat, ppn: nat, perm: nat)
    requires perm < 1024
  {
    forall r: nat, u: nat {:trigger LeafPte(m', r, u)} ::
      LeafPte(m', r, u) == if r == root && first <= u < first + n then MakePte(ppn + (u - first), perm) else LeafPte(m, r, u)
  }

  lemma MapsRangeNone(m: Mem, m': Mem, root: nat, first: nat, ppn: nat, perm: nat)
    requires perm < 1024 && SameMap(m, m')
    ensures MapsRange(m, m', root, first, 0, ppn, perm)
  {
    hide LeafPte;
  }

  lemma MapsRangeNext(m: Mem, m1: Mem, m2: Mem, root: nat, first: nat, n: nat, ppn: nat, perm: nat)
    requires perm < 1024 && MapsRange(m, m1, root, first, n, ppn, perm) && MapsRange(m1, m2, root, first + n, 1, ppn + n, perm)
    ensures MapsRange(m, m2, root, first, n + 1, ppn, perm)
  {
    hide LeafPte, MakePte;
    forall r: nat, u: nat {:trigger LeafPte(m2, r, u)}
      ensures LeafPte(m2, r, u) ==
              if r == root && first <= u < first + n + 1 then MakePte(ppn + (u - first), perm) else LeafPte(m, r, u)
    {
      assert LeafPte(m1, r, u) ==
             if r == root && first <= u < first + n then MakePte(ppn + (u - first), perm) else LeafPte(m, r, u);
    }
  }

  /** An unmapped page is no one's user page. */
  lemma NoUserThere(s: State, root: nat, vpn: nat)
    requires Good(s) && LeafPte(M(s), root, vpn) == 0
    ensures forall p :: p in s.pages ==> s.role[p] != User(root, vpn)
  {
    hide LeafPte, Tree, FreeList;
  }

  /** PGROUNDUP(sz) / PGSIZE */
  function PageCount(sz: nat): (n: nat) {
    (sz + PGSIZE - 1) / PGSIZE
  }

  lemma PageCounts(oldsz: nat, newsz: nat)
    requires oldsz <= newsz
    ensures PageCount(oldsz) <= PageCount(newsz)
  {
  }

  lemma PageStarts(vpn: nat, sz: nat)
    ensures vpn * PGSIZE / PGSIZE == vpn && PageCount(vpn * PGSIZE) == vpn && (vpn * PGSIZE < sz <==> vpn < PageCount(sz))
    ensures sz <= MAXVPN * PGSIZE ==> PageCount(sz) <= MAXVPN
  {
  }

  ghost predicate InRange(x: Role, root: nat, first: nat, n: nat) {
    x.User? && x.root == root && first <= x.vpn < first + n
  }

  /** `n` pages from `first` on are unmapped and, if they were user pages, freed; nothing else changed. */
  ghost predicate Unmaps(s: State, s': State, root: nat, first: nat, n: nat, freeing: bool) {
    && s'.tables == s.tables && s'.pages.Keys == s.pages.Keys && s.role.Keys == s.pages.Keys && s'.role.Keys == s.role.Keys
    && (forall r: nat, u: nat {:trigger LeafPte(M(s'), r, u)} ::
          LeafPte(M(s'), r, u) == if r == root && first <= u < first + n then 0 else LeafPte(M(s), r, u))
    && (forall p :: p in s.pages ==>
          && s'.role[p] == (if freeing && InRange(s.role[p], root, first, n) then Free else s.role[p])
          && (s'.role[p].User? || s'.role[p].Other? ==> s'.pages[p] == s.pages[p]))
  }

  /** The page is mapped as a leaf, and is a user page exactly if it is to be freed. */
  ghost predicate Unmappable(s: State, root: nat, vpn: nat, freeing: bool) {
    var pte := LeafPte(M(s), root, vpn);
    && Valid(pte) && Flags(pte) != PTE_V
    && if freeing then Ppn(pte) in s.role && s.role[Ppn(pte)] == User(root, vpn)
       else forall p :: p in s.role ==> s.role[p] != User(root, vpn)
  }

  lemma UnmapsNone(s: State, root: nat, first: nat, freeing: bool)
    requires Good(s)
    ensures Unmaps(s, s, root, first, 0, freeing)
  {
  }

  lemma UnmapsNext(s: State, s1: State, s2: State, root: nat, first: nat, n: nat, freeing: bool)
    requires Unmaps(s, s1, root, first, n, freeing) && Unmaps(s1, s2, root, first + n, 1, freeing)
    ensures Unmaps(s, s2, root, first, n + 1, freeing)
  {
    hide LeafPte;
    forall r: nat, u: nat {:trigger LeafPte(M(s2), r, u)}
      ensures LeafPte(M(s2), r, u) == if r == root && first <= u < first + n + 1 then 0 else LeafPte(M(s), r, u)
    {
      assert LeafPte(M(s1), r, u) == if r == root && first <= u < first + n then 0 else LeafPte(M(s), r, u);
    }
  }

  lemma StillUnmappable(s: State, s1: State, root: nat, first: nat, n: nat, freeing: bool, u: nat)
    requires Unmaps(s, s1, root, first, n, freeing) && first + n <= u && Unmappable(s, root, u, freeing)
    ensures Unmappable(s1, root, u, freeing)
  {
    hide LeafPte, Valid, Flags, Ppn;
  }

  /** A mapped page has its leaf page-table page. */
  lemma MappedLeaf(s: State, root: nat, vpn: nat)
    requires Valid(LeafPte(M(s), root, vpn))
    ensures LeafNode(root, vpn) in s.tables && Located(M(s), LeafNode(root, vpn))
    ensures s.pages[s.tables[LeafNode(root, vpn)]][vpn % 512] == LeafPte(M(s), root, vpn)
  {
  }

  lemma EnteredUnmaps(s: State, s1: State, root: nat, vpn: nat, freeing: bool)
    requires Good(s) && Unmappable(s, root, vpn, freeing)
    requires s1 == if freeing then Freed(s, Ppn(LeafPte(M(s), root, vpn))) else s
    requires Sound(s1) && SameMap(M(s), M(s1))
    ensures Located(M(s1), LeafNode(root, vpn)) && Good(Entered(s1, root, vpn, 0))
    ensures Unmaps(s, Entered(s1, root, vpn, 0), root, vpn, 1, freeing)
  {
    hide Tree, FreeList, LeafPte, Ppn, Flags, UserBit, Exclusive;
    SameMapAt(M(s), M(s1), root, vpn);
    MappedLeaf(s1, root, vpn);
    SoundTable(s1, LeafNode(root, vpn));
    forall p | p in s1.pages ensures s1.role[p] != User(root, vpn) {
      assert p in s.pages;
    }
    EnteredSound(s1, root, vpn, 0);
    var s2 := Entered(s1, root, vpn, 0);
    forall r: nat, u: nat {:trigger LeafPte(M(s2), r, u)}
      ensures LeafPte(M(s2), r, u) == if r == root && vpn <= u < vpn + 1 then 0 else LeafPte(M(s), r, u)
    {
      SameMapAt(M(s), M(s1), r, u);
    }
    UnmappedExclusive(s, s2, root, vpn, freeing);
  }

  /** No other leaf led to the page that uvmunmap has freed. */
  lemma UnmappedExclusive(s: State, s2: State, root: nat, vpn: nat, freeing: bool)
    requires Exclusive(s) && Unmappable(s, root, vpn, freeing)
    requires s2.role == if freeing then s.role[Ppn(LeafPte(M(s), root, vpn)) := Free] else s.role
    requires forall r: nat, u: nat {:trigger LeafPte(M(s2), r, u)} ::
               LeafPte(M(s2), r, u) == if r == root && vpn <= u < vpn + 1 then 0 else LeafPte(M(s), r, u)
    ensures Exclusive(s2)
  {
    hide LeafPte, Ppn, Flags, UserBit;
    forall r: nat, u: nat ensures OwnLeaf(s2, r, u) {
      assert OwnLeaf(s, r, u);
      assert LeafPte(M(s2), r, u) == if r == root && u == vpn then 0 else LeafPte(M(s), r, u);
    }
  }

  /** Pages that were free now back `n` user pages from `first` on, or serve as page-table pages. */
  ghost predicate Populates(s: State, s': State, root: nat, first: nat, n: nat) {
    && s'.pages.Keys == s.pages.Keys && s.role.Keys == s.pages.Keys && s'.role.Keys == s.role.Keys
    && (forall x :: x in s.tables ==> x in s'.tables && s'.tables[x] == s.tables[x])
    && (forall r: nat, u: nat {:trigger LeafPte(M(s'), r, u)} ::
          !(r == root && first <= u < first + n) ==> LeafPte(M(s'), r, u) == LeafPte(M(s), r, u))
    && (forall u: nat :: first <= u < first + n ==> Unmappable(s', root, u, true))
    && (forall p :: p in s.pages ==>
          || (s.role[p].Free? && (s'.role[p].Table? || InRange(s'.role[p], root, first, n)))
          || (s'.role[p] == s.role[p] && (s.role[p].User? || s.role[p].Other? ==> s'.pages[p] == s.pages[p])))
  }

  /** The user page at vpn has these flags and these contents. */
  ghost predicate PageIs(s: State, root: nat, vpn: nat, flags: nat, content: Page) {
    var pte := LeafPte(M(s), root, vpn);
    Valid(pte) && Flags(pte) == flags && Ppn(pte) in s.pages && s.pages[Ppn(pte)] == content
  }

  lemma PopulatesNone(s: State, root: nat, first: nat)
    requires Good(s)
    ensures Populates(s, s, root, first, 0)
  {
  }

  lemma PopulatesNext(s: State, s1: State, s2: State, root: nat, first: nat, n: nat)
    requires Populates(s, s1, root, first, n) && Populates(s1, s2, root, first + n, 1)
    ensures Populates(s, s2, root, first, n + 1)
  {
    hide LeafPte, Valid, Flags, Ppn;
    forall u: nat | first <= u < first + n + 1 ensures Unmappable(s2, root, u, true) {
      if u < first + n {
        assert Unmappable(s1, root, u, true);
        assert LeafPte(M(s2), root, u) == LeafPte(M(s1), root, u);
      }
    }
    forall r: nat, u: nat {:trigger LeafPte(M(s2), r, u)} | !(r == root && first <= u < first + n + 1)
      ensures LeafPte(M(s2), r, u) == LeafPte(M(s), r, u)
    {
      assert LeafPte(M(s1), r, u) == LeafPte(M(s), r, u);
    }
  }

  lemma PopulatesGrew(s: State, s1: State, s2: State, root: nat, first: nat, n: nat)
    requires Populates(s, s1, root, first, n) && Grew(s1, s2) && SameMap(M(s1), M(s2))
    ensures Populates(s, s2, root, first, n)
  {
    hide LeafPte, Valid, Flags, Ppn;
    forall u: nat | first <= u < first + n ensures Unmappable(s2, root, u, true) {
      assert Unmappable(s1, root, u, true);
      assert LeafPte(M(s2), root, u) == LeafPte(M(s1), root, u);
    }
    forall r: nat, u: nat {:trigger LeafPte(M(s2), r, u)} | !(r == root && first <= u < first + n)
      ensures LeafPte(M(s2), r, u) == LeafPte(M(s), r, u)
    {
      assert LeafPte(M(s1), r, u) == LeafPte(M(s), r, u);
    }
  }

  /** Undoing the population brings every translation back; only page-table pages stay behind. */
  lemma PopulatesUndone(s: State, s1: State, s2: State, root: nat, first: nat, n: nat)
    requires Populates(s, s1, root, first, n) && Unmaps(s1, s2, root, first, n, true)
    requires forall u: nat {:trigger LeafPte(M(s), root, u)} :: first <= u < first + n ==> LeafPte(M(s), root, u) == 0
    requires forall p :: p in s.role ==> !InRange(s.role[p], root, first, n)
    ensures Grew(s, s2) && SameMap(M(s), M(s2))
  {
    hide LeafPte, Valid, Flags, Ppn;
    forall r: nat, u: nat {:trigger LeafPte(M(s2), r, u)} ensures LeafPte(M(s2), r, u) == LeafPte(M(s), r, u) {
      assert LeafPte(M(s1), r, u) == LeafPte(M(s1), r, u);
    }
  }

  /** Contents and flags of a user page survive later changes elsewhere. */
  lemma PageIsStays(s: State, s': State, root: nat, first: nat, n: nat, r: nat, vpn: nat, flags: nat, content: Page)
    requires Populates(s, s', root, first, n) && !(r == root && first <= vpn < first + n)
    requires PageIs(s, r, vpn, flags, content) && s.role[Ppn(LeafPte(M(s), r, vpn))].User?
    ensures PageIs(s', r, vpn, flags, content)
  {
    hide LeafPte, Valid, Flags, Ppn;
  }

  lemma FilledGood(s: State, p: nat, x: Page)
    requires Good(s) && p in s.pages && (s.role[p].Other? || s.role[p].User?) && |x| == 512
    ensures Good(s.(pages := s.pages[p := x])) && SameMap(M(s), M(s.(pages := s.pages[p := x])))
  {
    hide Tree, FreeList, LeafPte, Valid, Ppn;
    TablesUntouched(s, p, x);
    FreeListStays(s, s.pages[p := x], {p});
    ExclusiveStays(s, s.(pages := s.pages[p := x]));
  }

  /** kalloc, then fill. */
  ghost function Prepared(s: State, x: Page): (r: State)
    requires Good(s) && s.free != []
  {
    var s1 := Allocated(s);
    s1.(pages := s1.pages[s.free[0] := x])
  }

  lemma PreparedGood(s: State, x: Page)
    requires Good(s) && s.free != [] && |x| == 512
    ensures Good(Prepared(s, x)) && SameMap(M(s), M(Prepared(s, x)))
    ensures s.free[0] in s.pages && s.role[s.free[0]].Free?
  {
    hide Tree, FreeList, LeafPte;
    EmptyList(s.pages, s.head, s.free);
    PopKeeps(s.pages, s.head, s.free);
    AllocatedGood(s);
    FilledGood(Allocated(s), s.free[0], x);
    SameMapTransitive(M(s), M(Allocated(s)), M(Prepared(s, x)));
  }

  /** Who owns what once page p, just prepared, has become the user page at vpn. */
  lemma RolesAdded(s: State, s3: State, root: nat, vpn: nat, x: Page, user: bool)
    requires Good(s) && s.free != [] && |x| == 512 && Mapped(Prepared(s, x), s3, root, vpn, 1, s.free[0], user)
    ensures s.free[0] in s3.pages && s.free[0] in s3.role && s3.role[s.free[0]] == (if user then User(root, vpn) else Other) && s3.pages[s.free[0]] == x
    ensures var s4 := s3.(role := s3.role[s.free[0] := User(root, vpn)]);
            && s.role.Keys == s.pages.Keys == s4.pages.Keys == s4.role.Keys
            && (forall y :: y in s.tables ==> y in s4.tables && s4.tables[y] == s.tables[y])
            && (forall p :: p in s.pages ==>
                  || (s.role[p].Free? && (s4.role[p].Table? || InRange(s4.role[p], root, vpn, 1)))
                  || (s4.role[p] == s.role[p] && (s.role[p].User? || s.role[p].Other? ==> s4.pages[p] == s.pages[p])))
  {
    hide Tree, FreeList, LeafPte, UserPages, Exclusive, Prepared, Allocated, Roles;
    PreparedGood(s, x);
    PreparedIs(s, x);
    assert MappedPage(Prepared(s, x), s3, root, vpn, 1, s.free[0], user, s.free[0]);
  }

  lemma PageAdded(s: State, s3: State, root: nat, vpn: nat, x: Page, perm: nat)
    requires Good(s) && s.free != [] && |x| == 512 && perm < 1024 && WithV(perm) != PTE_V
    requires var s2 := Prepared(s, x);
             && Mapped(s2, s3, root, vpn, 1, s.free[0], UserBit(perm)) && Good(s3)
             && MapsRange(M(s2), M(s3), root, vpn, 1, s.free[0], perm)
    ensures var s4 := s3.(role := s3.role[s.free[0] := User(root, vpn)]);
            Good(s4) && Populates(s, s4, root, vpn, 1) && PageIs(s4, root, vpn, WithV(perm), x)
  {
    hide Good, LeafPte, Mapped, Prepared, SameMap, UserBit;
    var mem := s.free[0];
    PreparedGood(s, x);
    RolesAdded(s, s3, root, vpn, x, UserBit(perm));
    assert LeafPte(M(s3), root, vpn) == MakePte(mem, perm);
    var s4 := s3.(role := s3.role[mem := User(root, vpn)]);
    if UserBit(perm) {
      assert s4.role == s3.role;
      assert s4 == s3;
    } else {
      AssignedGood(s3, mem, root, vpn);
    }
    assert M(s4) == M(s3);
    forall r: nat, u: nat {:trigger LeafPte(M(s4), r, u)} | !(r == root && vpn <= u < vpn + 1)
      ensures LeafPte(M(s4), r, u) == LeafPte(M(s), r, u)
    {
      SameMapAt(M(s), M(Prepared(s, x)), r, u);
    }
  }

  lemma PreparedIs(s: State, x: Page)
    requires Good(s) && s.free != []
    ensures var s2 := Prepared(s, x);
            && s.role.Keys == s.pages.Keys && s2.tables == s.tables
            && s2.role == s.role[s.free[0] := Other] && s2.pages.Keys == s.pages.Keys + {s.free[0]}
            && s2.pages[s.free[0]] == x && forall p :: p in s.pages && p != s.free[0] ==> s2.pages[p] == s.pages[p]
  {
    hide Tree, LeafPte, UserPages, FreeList;
  }

  lemma NotAddedOther(s: State, s3: State, x: Page)
    requires Good(s) && s.free != [] && |x| == 512 && Grew(Prepared(s, x), s3)
    ensures s.free[0] in s3.pages && s.free[0] in s3.role && s3.role[s.free[0]].Other?
  {
    hide Tree, LeafPte, UserPages, FreeList;
    PreparedGood(s, x);
    assert GrewPage(Prepared(s, x), s3, s.free[0]);
  }

  lemma NotAddedGrew(s: State, s3: State, x: Page)
    requires Good(s) && s.free != [] && |x| == 512 && Grew(Prepared(s, x), s3) && s.free[0] in s3.role
    ensures Grew(s, Freed(s3, s.free[0]))
  {
    hide Tree, LeafPte, UserPages, FreeList, Roles, Prepared, Allocated;
    PreparedGood(s, x);
    PreparedIs(s, x);
    var s4 := Freed(s3, s.free[0]);
    forall p | p in s.pages ensures GrewPage(s, s4, p) {
      assert GrewPage(Prepared(s, x), s3, p);
    }
  }

  /** kalloc succeeded but mappages did not, and the page went back. */
  lemma PageNotAdded(s: State, s3: State, root: nat, vpn: nat, x: Page, perm: nat)
    requires Good(s) && s.free != [] && |x| == 512 && perm < 1024
    requires var s2 := Prepared(s, x);
             && Mapped(s2, s3, root, vpn, 0, s.free[0], UserBit(perm)) && Good(s3)
             && MapsRange(M(s2), M(s3), root, vpn, 0, s.free[0], perm)
    ensures s.free[0] in s3.pages && s3.role[s.free[0]].Other?
    ensures Grew(s, Freed(s3, s.free[0])) && SameMap(M(s), M(Freed(s3, s.free[0])))
  {
    hide Tree, LeafPte, UserPages, FreeList, Roles, Grew, Prepared, Allocated, Mapped, Exclusive;
    var mem := s.free[0];
    PreparedGood(s, x);
    MappedNone(Prepared(s, x), s3, root, vpn, mem, UserBit(perm));
    NotAddedOther(s, s3, x);
    FreedGood(s3, mem);
    var s4 := Freed(s3, mem);
    NotAddedGrew(s, s3, x);
    forall r: nat, u: nat {:trigger LeafPte(M(s4), r, u)} ensures LeafPte(M(s4), r, u) == LeafPte(M(s), r, u) {
      SameMapAt(M(s), M(Prepared(s, x)), r, u);
      SameMapAt(M(s3), M(s4), r, u);
      assert LeafPte(M(s3), r, u) == LeafPte(M(Prepared(s, x)), r, u);
    }
  }

  // ---- freewalk ----

  /** All is in order, except that the entry pointing to the page of n is stale: that page has been freed. */
  ghost predicate GoodBut(s: State, n: Node) {
    && (forall p :: p in s.pages ==> 0 < p && |s.pages[p]| == 512)
    && FreeList(s.pages, s.head, s.free)
    && Roles(s)
    && Tree(M(s), {n}) && n !in s.tables
    && UserPages(s) && Exclusive(s)
  }

  ghost predicate NoLeaves(s: State, root: nat) {
    forall u: nat {:trigger LeafPte(M(s), root, u)} :: LeafPte(M(s), root, u) == 0
  }

  ghost function Released(s: State, n: Node): (r: State)
    requires n in s.tables && s.tables[n] in s.role
  {
    Freed(s, s.tables[n]).(tables := s.tables - {n})
  }

  lemma ReleasedTree(s: State, n: Node)
    requires Good(s) && n in s.tables
    requires forall j: nat :: j < 512 && 0 < n.level ==> Child(n, j) !in s.tables
    ensures s.tables[n] in s.role && Tree(M(Released(s, n)), {n})
  {
    hide Link, Placed, FreeList, UserPages, OnePlace;
    GoodTable(s, n);
    assert OnePlace(M(s));
    forall x | x in s.tables && x != n ensures s.tables[x] in s.pages && s.tables[x] != s.tables[n] {
      GoodTable(s, x);
    }
    ReleaseKeeps(M(s), M(Released(s, n)), n);
  }

  lemma ReleasedSameMap(s: State, n: Node)
    requires Good(s) && n in s.tables && NoLeaves(s, n.root)
    ensures s.tables[n] in s.role && SameMap(M(s), M(Released(s, n)))
  {
    hide Link, Placed, FreeList, UserPages, OnePlace, Valid;
    GoodTable(s, n);
    var s' := Released(s, n);
    forall r: nat, u: nat {:trigger LeafPte(M(s'), r, u)} ensures LeafPte(M(s'), r, u) == LeafPte(M(s), r, u) {
      var x := LeafNode(r, u);
      if x == n {
        assert LeafPte(M(s), n.root, u) == 0;
      } else if x in s.tables {
        GoodTable(s, x);
      }
    }
  }

  lemma ReleasedGood(s: State, n: Node)
    requires Good(s) && n in s.tables && NoLeaves(s, n.root)
    requires forall j: nat :: j < 512 && 0 < n.level ==> Child(n, j) !in s.tables
    ensures s.tables[n] in s.role && GoodBut(Released(s, n), n)
  {
    hide Tree, LeafPte, Valid, Ppn, FreeList, Child;
    GoodTable(s, n);
    ReleasedTree(s, n);
    ReleasedSameMap(s, n);
    PushKeeps(s.pages, s.head, s.free, s.tables[n]);
    ExclusiveStays(s, Released(s, n));
  }

  ghost function Unlinked(s: State, n: Node, i: nat): (r: State)
    requires Located(M(s), n) && i < 512
  {
    s.(pages := Cleared(M(s), n, i).pages)
  }

  lemma UnlinkedGood(s: State, n: Node, i: nat)
    requires n in s.tables && 0 < n.level && i < 512 && GoodBut(s, Child(n, i))
    ensures Located(M(s), n) && Good(Unlinked(s, n, i)) && SameMap(M(s), M(Unlinked(s, n, i)))
  {
    hide LeafPte, Valid, Ppn, FreeList, Child, Link, Placed, OnePlace;
    ClearedKeeps(M(s), n, i);
    ClearedSameMap(M(s), n, i);
    FreeListStays(s, Unlinked(s, n, i).pages, {s.tables[n]});
    ExclusiveStays(s, Unlinked(s, n, i));
  }

  /** x goes away with the first `upto` children of n; with more than all 512 of them, n goes too. */
  ghost predicate Gone(x: Node, n: Node, upto: nat) {
    (512 < upto && x == n) || (0 < n.level && exists j: nat :: j < upto && j < 512 && Under(x, Child(n, j)))
  }

  /** The page-table pages named by Gone have become free pages; everything else is as before. */
  ghost predicate TearsDown(s: State, s': State, n: Node, upto: nat) {
    && s'.pages.Keys == s.pages.Keys && s.role.Keys == s.pages.Keys && s'.role.Keys == s.role.Keys
    && (forall x :: x in s'.tables <==> x in s.tables && !Gone(x, n, upto))
    && (forall x :: x in s'.tables ==> s'.tables[x] == s.tables[x])
    && (forall p :: p in s.pages ==>
          && s'.role[p] == (if s.role[p].Table? && Gone(s.role[p].node, n, upto) then Free else s.role[p])
          && (s.role[p].User? || s.role[p].Other? ==> s'.pages[p] == s.pages[p]))
  }

  lemma GoneIsUnder(x: Node, n: Node)
    ensures Gone(x, n, 513) <==> Under(x, n)
  {
    if Under(x, n) && x != n {
      var j := UnderChild(x, n);
    }
    if 0 < n.level {
      forall j: nat | j < 512 && Under(x, Child(n, j)) ensures Under(x, n) {
        ChildUnder(x, n, j);
      }
    }
  }

  lemma TearsDownNone(s: State, n: Node)
    requires Good(s)
    ensures TearsDown(s, s, n, 0)
  {
  }

  /** A missing child takes nothing with it. */
  lemma {:induction false} NothingUnder(s: State, x: Node, c: Node)
    requires Good(s) && x in s.tables && c !in s.tables && c.level <= 2
    ensures !Under(x, c)
    decreases c.level - x.level
  {
    assert Placed(M(s), x);
    if Under(x, c) {
      NothingUnder(s, Parent(x), c);
    }
  }

  lemma TearsDownSkip(s: State, s1: State, n: Node, i: nat)
    requires Good(s) && n in s.tables && TearsDown(s, s1, n, i) && i < 512 && (0 < n.level ==> Child(n, i) !in s.tables)
    ensures TearsDown(s, s1, n, i + 1)
  {
    hide Tree, FreeList, UserPages, Under, Child;
    assert n.level <= 2 by { GoodLevel(s, n); }
    forall x | x in s.tables ensures Gone(x, n, i + 1) <==> Gone(x, n, i) {
      if 0 < n.level {
        ChildLevel(n, i);
        NothingUnder(s, x, Child(n, i));
      }
    }
  }

  lemma GoodLevel(s: State, n: Node)
    requires Good(s) && n in s.tables
    ensures n.level <= 2
  {
    assert Placed(M(s), n);
  }

  lemma ChildLevel(n: Node, i: nat)
    requires 0 < n.level
    ensures Child(n, i).level == n.level - 1 && Child(n, i).root == n.root
  {
  }

  /** One child torn down, then its entry cleared. */
  lemma TearsDownChild(s: State, s1: State, s2: State, n: Node, i: nat)
    requires Good(s) && n in s.tables && 0 < n.level && i < 512
    requires TearsDown(s, s1, n, i) && TearsDown(s1, s2, Child(n, i), 513) && n in s2.tables && Located(M(s2), n)
    requires s2.role[s2.tables[n]].Table?
    ensures TearsDown(s, Unlinked(s2, n, i), n, i + 1)
  {
    hide Tree, FreeList, UserPages, Under, Child, Gone;
    forall x: Node ensures Gone(x, n, i + 1) <==> Gone(x, n, i) || Gone(x, Child(n, i), 513) {
      GoneNext(x, n, i);
    }
  }

  lemma GoneNext(x: Node, n: Node, i: nat)
    requires 0 < n.level && i < 512
    ensures Gone(x, n, i + 1) <==> Gone(x, n, i) || Gone(x, Child(n, i), 513)
  {
    GoneIsUnder(x, Child(n, i));
  }

  lemma TearsDownSelf(s: State, s1: State, n: Node)
    requires Good(s1) && TearsDown(s, s1, n, 512) && n in s1.tables && s1.tables[n] in s1.role
    ensures TearsDown(s, Released(s1, n), n, 513)
  {
    hide Tree, FreeList, UserPages, Under, Child;
    GoodTable(s1, n);
    forall x: Node ensures Gone(x, n, 513) <==> Gone(x, n, 512) || x == n {
    }
  }

  lemma TearsDownAbsent(s: State, s1: State, n: Node, i: nat)
    requires Good(s) && n in s.tables && TearsDown(s, s1, n, i) && i < 512 && (0 < n.level ==> Child(n, i) !in s1.tables)
    ensures TearsDown(s, s1, n, i + 1)
  {
    hide Good;
    if 0 < n.level {
      forall j: nat | j < i ensures !Under(Child(n, i), Child(n, j)) {
      }
    }
    TearsDownSkip(s, s1, n, i);
  }

  lemma TearsDownKeepsParent(s: State, s': State, n: Node, i: nat)
    requires n in s.tables && 0 < n.level && i < 512 && TearsDown(s, s', Child(n, i), 513)
    ensures n in s'.tables && s'.tables[n] == s.tables[n]
    ensures forall x :: x in s'.tables ==> x in s.tables
  {
    GoneIsUnder(n, Child(n, i));
    if Under(n, Child(n, i)) {
      UnderRoot(n, Child(n, i));
    }
  }

  lemma NoLeavesStay(s: State, s': State, root: nat)
    requires NoLeaves(s, root) && SameMap(M(s), M(s'))
    ensures NoLeaves(s', root)
  {
    hide LeafPte;
  }

  /** pte & (PTE_R|PTE_W|PTE_X) */
  predicate IsLeaf(pte: nat) {
    pte / 2 % 8 != 0
  }

  /** What freewalk meets in an entry: nothing, or a page-table page one level down. */
  lemma EntryKind(s: State, n: Node, i: nat)
    requires Good(s) && n in s.tables && i < 512 && NoLeaves(s, n.root)
    ensures s.tables[n] in s.pages && |s.pages[s.tables[n]]| == 512
    ensures var pte := s.pages[s.tables[n]][i];
            if Valid(pte) then 0 < n.level && Child(n, i) in s.tables && Ppn(pte) == s.tables[Child(n, i)] && !IsLeaf(pte)
            else 0 < n.level ==> Child(n, i) !in s.tables
  {
    assert Located(M(s), n) && Placed(M(s), n);
    if 0 < n.level {
      assert Link(M(s), n, i);
    } else {
      var u := n.prefix * 512 + i;
      assert LeafNode(n.root, u) == n && u % 512 == i;
      assert LeafPte(M(s), n.root, u) == 0;
    }
  }

  lemma GoodButTable(s: State, c: Node, n: Node)
    requires GoodBut(s, c) && n in s.tables
    ensures Located(M(s), n) && s.role[s.tables[n]] == Table(n) && c !in s.tables
  {
  }

  /** Every page-table page of a tree is below its root page. */
  lemma {:induction false} UnderTop(s: State, x: Node)
    requires Good(s) && x in s.tables
    ensures Under(x, Node(x.root, 2, 0))
    decreases 2 - x.level
  {
    assert Placed(M(s), x);
    if x.level < 2 {
      UnderTop(s, Parent(x));
    }
  }

  /** No entry points to a root page, so nothing is stale once it is gone. */
  lemma RootGone(s: State, root: nat)
    requires GoodBut(s, Node(root, 2, 0))
    ensures Good(s)
  {
    hide FreeList, UserPages, Roles, Link;
    forall x: Node, j: nat {:trigger Link(M(s), x, j)} | x in s.tables && 0 < x.level && j < 512 ensures Link(M(s), x, j) {
      assert Placed(M(s), x);
      assert Child(x, j) != Node(root, 2, 0);
    }
  }

  /** The address space is gone: its user pages and its page-table pages are free, nothing else changed. */
  ghost predicate Discards(s: State, s': State, root: nat) {
    && s'.pages.Keys == s.pages.Keys && s.role.Keys == s.pages.Keys && s'.role.Keys == s.role.Keys
    && (forall p :: p in s.pages ==> DiscardsPage(s, s', root, p))
    && (forall r: nat, u: nat {:trigger LeafPte(M(s'), r, u)} ::
          LeafPte(M(s'), r, u) == if r == root then 0 else LeafPte(M(s), r, u))
  }

  ghost predicate DiscardsPage(s: State, s': State, root: nat, p: nat)
    requires p in s.pages && p in s.role && p in s'.role && p in s'.pages
  {
    var mine := (s.role[p].User? && s.role[p].root == root) || (s.role[p].Table? && s.role[p].node.root == root);
    && s'.role[p] == (if mine then Free else s.role[p])
    && (s'.role[p].User? || s'.role[p].Other? ==> s'.pages[p] == s.pages[p])
  }

  lemma TreeGone(s: State, root: nat, x: Node)
    requires Good(s) && x in s.tables
    ensures Gone(x, Node(root, 2, 0), 513) <==> x.root == root
  {
    hide Tree, FreeList, LeafPte, Ppn, Under, UserPages, Roles;
    GoneIsUnder(x, Node(root, 2, 0));
    if x.root == root {
      UnderTop(s, x);
    } else if Under(x, Node(root, 2, 0)) {
      UnderRoot(x, Node(root, 2, 0));
    }
  }

  lemma FreesPage(s: State, s1: State, s2: State, root: nat, n: nat, p: nat)
    requires Good(s) && Good(s1) && Unmaps(s, s1, root, 0, n, true) && TearsDown(s1, s2, Node(root, 2, 0), 513)
    requires forall u: nat {:trigger LeafPte(M(s), root, u)} :: n <= u ==> LeafPte(M(s), root, u) == 0
    requires p in s.pages
    ensures p in s.role && p in s2.role && p in s2.pages && DiscardsPage(s, s2, root, p)
  {
    hide Tree, FreeList, LeafPte, Ppn, Gone;
    if s.role[p].User? && s.role[p].root == root {
      assert Valid(LeafPte(M(s), root, s.role[p].vpn));
    }
    if s1.role[p].Table? {
      TreeGone(s1, root, s1.role[p].node);
    }
  }

  lemma FreesAll(s: State, s1: State, s2: State, root: nat, n: nat)
    requires Good(s) && Good(s1) && Unmaps(s, s1, root, 0, n, true) && TearsDown(s1, s2, Node(root, 2, 0), 513)
    requires SameMap(M(s1), M(s2)) && NoLeaves(s1, root)
    requires forall u: nat {:trigger LeafPte(M(s), root, u)} :: n <= u ==> LeafPte(M(s), root, u) == 0
    ensures Discards(s, s2, root)
  {
    hide Tree, FreeList, LeafPte, UserPages, Roles, Gone, DiscardsPage;
    forall p | p in s.pages ensures DiscardsPage(s, s2, root, p) {
      FreesPage(s, s1, s2, root, n, p);
    }
    forall r: nat, u: nat {:trigger LeafPte(M(s2), r, u)}
      ensures LeafPte(M(s2), r, u) == if r == root then 0 else LeafPte(M(s), r, u)
    {
      SameMapAt(M(s1), M(s2), r, u);
    }
  }

  lemma UnmapsAll(s: State, s1: State, root: nat, n: nat)
    requires Unmaps(s, s1, root, 0, n, true)
    requires forall u: nat {:trigger LeafPte(M(s), root, u)} :: n <= u ==> LeafPte(M(s), root, u) == 0
    ensures NoLeaves(s1, root)
  {
    hide LeafPte;
  }

  /** The page is mapped for user programs. */
  ghost predicate UserMapped(s: State, root: nat, vpn: nat) {
    vpn < MAXVPN && Valid(LeafPte(M(s), root, vpn)) && UserBit(LeafPte(M(s), root, vpn))
  }

  lemma UserFrame(s: State, root: nat, vpn: nat)
    requires Good(s) && UserMapped(s, root, vpn)
    ensures var p := Ppn(LeafPte(M(s), root, vpn));
            0 < p && p in s.pages && p in s.role && s.role[p] == User(root, vpn) && |s.pages[p]| == 512
  {
    hide Tree, FreeList, LeafPte, Ppn, UserBit, UserPages;
    assert OwnLeaf(s, root, vpn);
  }

  /** hi - 1, hi - 2, ..., lo. */
  function Downward(lo: nat, hi: nat): (r: seq<nat>)
    ensures |r| == if lo < hi then hi - lo else 0
  {
    if lo < hi then seq(hi - lo, i requires 0 <= i < hi - lo => hi - 1 - i) else []
  }

  /** The pages from lo to hi - 1 have been put on the free list, one after the other; nothing else changed. */
  ghost predicate FreesRange(s: State, s': State, lo: nat, hi: nat) {
    && s'.tables == s.tables && s'.pages.Keys == s.pages.Keys && s.role.Keys == s.pages.Keys && s'.role.Keys == s.pages.Keys
    && s'.free == Downward(lo, hi) + s.free
    && forall p :: p in s.pages ==>
         if lo <= p < hi then s'.role[p].Free? else s'.role[p] == s.role[p] && s'.pages[p] == s.pages[p]
  }

  lemma FreesRangeNone(s: State, lo: nat, hi: nat)
    requires Good(s)
    ensures FreesRange(s, s, lo, lo) && (hi <= lo ==> FreesRange(s, s, lo, hi))
  {
    hide Tree, FreeList, UserPages, Exclusive;
    assert [] + s.free == s.free;
  }

  lemma FreesRangeNext(s: State, s1: State, lo: nat, hi: nat)
    requires FreesRange(s, s1, lo, hi) && lo <= hi && hi in s.pages && s.role[hi].Other?
    ensures hi in s1.pages && hi in s1.role && s1.role[hi].Other? && FreesRange(s, Freed(s1, hi), lo, hi + 1)
  {
    assert [hi] + (Downward(lo, hi) + s.free) == Downward(lo, hi + 1) + s.free;
  }

  lemma NoTables(s: State)
    requires s.tables == map[] && s.free == [] && s.head == 0 && s.role.Keys == s.pages.Keys
    requires forall p :: p in s.pages ==> 0 < p && |s.pages[p]| == 512 && s.role[p].Other?
    ensures Good(s)
  {
  }

  class AddressSpaces {
    var pages: map<nat, Page>
    var freelist: nat
    ghost var tables: map<Node, nat>
    ghost var free: seq<nat>
    ghost var role: map<nat, Role>

    ghost function S(): (s: State)
      reads this
    {
      State(pages, freelist, tables, free, role)
    }

    /** kinit(): all of memory from `end` to `physTop` is on the free list. */
    constructor (memory: map<nat, Page>, end: nat, physTop: nat)
      requires 0 < end && forall p: nat {:trigger p in memory} :: p in memory <==> PageCount(end) <= p < physTop / PGSIZE
      requires forall p :: p in memory ==> |memory[p]| == 512
      ensures Good(S()) && tables == map[] && pages.Keys == memory.Keys
      ensures forall p :: p in role ==> role[p].Free?
      ensures free == Downward(PageCount(end), physTop / PGSIZE)
    {
      pages, freelist, tables, free := memory, 0, map[], [];
      role := map p | p in memory :: Other;
      new;
      NoTables(S());
      Freerange(end, physTop);
      assert free + [] == free;
    }

    /** freerange(): every whole page of the range goes onto the list, so the last one is first. */
    method Freerange(paStart: nat, paEnd: nat)
      requires Good(S())
      requires forall p: nat {:trigger p in pages} ::
                 PageCount(paStart) <= p < paEnd / PGSIZE ==> p in pages && role[p].Other?
      modifies this
      ensures Good(S()) && SameMap(M(old(S())), M(S()))
      ensures FreesRange(old(S()), S(), PageCount(paStart), paEnd / PGSIZE)
    {
      hide Good, SameMap, FreesRange, Downward;
      ghost var lo, hi, s0 := PageCount(paStart), PageCount(paStart), S();
      var p := PageCount(paStart) * PGSIZE;
      SameMapSelf(M(s0));
      FreesRangeNone(s0, lo, paEnd / PGSIZE);
      while p + PGSIZE <= paEnd
        invariant p == hi * PGSIZE && lo <= hi && (hi <= paEnd / PGSIZE || hi == lo)
        invariant Good(S()) && SameMap(M(s0), M(S())) && FreesRange(s0, S(), lo, hi) && (hi == lo ==> S() == s0)
        decreases paEnd - p
      {
        ghost var s1 := S();
        FreesRangeNext(s0, s1, lo, hi);
        Kfree(p / PGSIZE);
        SameMapTransitive(M(s0), M(s1), M(S()));
        p := p + PGSIZE;
        hi := hi + 1;
      }
    }

    /** uvmcreate(): a page table that maps nothing, or 0. */
    method Uvmcreate() returns (root: nat)
      requires Good(S())
      modifies this
      ensures Good(S()) && SameMap(M(old(S())), M(S())) && Grew(old(S()), S())
      ensures root == 0 <==> old(free) == []
      ensures root != 0 ==>
                && Node(root, 2, 0) !in old(tables) && Node(root, 2, 0) in tables && free == old(free)[1..]
                && forall u: nat {:trigger LeafPte(M(S()), root, u)} :: LeafPte(M(S()), root, u) == 0
    {
      hide Tree, UserPages, FreeList, LeafPte, SameMap, Exclusive;
      ghost var s0 := S();
      GrewSelf(s0);
      SameMapSelf(M(s0));
      PositivePages(s0);
      root := Kalloc();
      if root != 0 {
        CreatedGood(S(), root);
        GrewCreated(s0);
        SameMapTransitive(M(s0), M(S()), M(Created(S(), root)));
        pages := pages[root := ZeroPage()];
        tables := tables[Node(root, 2, 0) := root];
        role := role[root := Table(Node(root, 2, 0))];
      }
    }

    /** kalloc(): take the head of the free list; 0 when it is empty. */
    method Kalloc() returns (p: nat)
      requires Good(S())
      modifies this
      ensures Good(S())
      ensures if old(free) == [] then p == 0 && S() == old(S())
              else p == old(free)[0] && p in pages && S() == Allocated(old(S())) && SameMap(M(old(S())), M(S()))
    {
      hide Tree, UserPages, SameMap;
      EmptyList(pages, freelist, free);
      p := freelist / PGSIZE;
      if freelist != 0 {
        PopKeeps(pages, freelist, free);
        AllocatedGood(S());
        freelist := pages[p][0];
        pages := pages[p := Filled(JUNK_ALLOCATED)];
        role := role[p := Other];
        free := free[1..];
      }
    }

    /** kfree(): junk the page and put it at the head of the free list. */
    method Kfree(p: nat)
      requires Good(S()) && p in pages && (role[p].Other? || role[p].User?)
      modifies this
      ensures Sound(S()) && S() == Freed(old(S()), p) && SameMap(M(old(S())), M(S()))
      ensures old(role[p]).Other? ==> Good(S())
    {
      hide Tree, UserPages, SameMap, FreeList;
      FreedGood(S(), p);
      pages := pages[p := Filled(JUNK_FREED)[0 := freelist]];
      freelist := p * PGSIZE;
      free := [p] + free;
      role := role[p := Free];
    }

    /** walk(), where a page-table page is missing: allocate it, zero it, point the entry at it. */
    method AddChild(ghost n: Node, page: nat, i: nat) returns (pt: nat)
      requires Good(S()) && n in tables && page == tables[n] && 0 < n.level && i < 512 && Child(n, i) !in tables
      modifies this
      ensures Good(S()) && SameMap(M(old(S())), M(S())) && Grew(old(S()), S())
      ensures if pt == 0 then free == [] && S() == old(S())
              else tables == old(tables)[Child(n, i) := pt] && |old(free)| == |free| + 1
    {
      hide Tree, UserPages, FreeList, Child, LeafPte, MakePte;
      ghost var s0 := S();
      GoodTable(s0, n);
      GrewSelf(s0);
      pt := Kalloc();
      if pt != 0 {
        TabledGood(S(), n, i, pt);
        GrewTable(s0, n, i);
        pages := pages[pt := ZeroPage()];
        pages := pages[page := With(pages[page], i, MakePte(pt, 0))];
        tables := tables[Child(n, i) := pt];
        role := role[pt := Table(Child(n, i))];
      }
    }

    /** walk(): find, or with alloc make, the page-table page for vpn, and the entry's place in it. */
    method Walk(root: nat, vpn: nat, alloc: bool) returns (found: bool, page: nat, i: nat)
      requires Good(S()) && Node(root, 2, 0) in tables && vpn < MAXVPN
      modifies this
      ensures Good(S()) && SameMap(M(old(S())), M(S())) && Grew(old(S()), S())
      ensures found ==> LeafNode(root, vpn) in tables && page == tables[LeafNode(root, vpn)] && i == vpn % 512
      ensures !alloc ==> S() == old(S()) && (found <==> LeafNode(root, vpn) in tables)
      ensures !found && alloc ==> free == [] && |old(free)| <= 1
      ensures |old(free)| <= |free| + 2
      ensures alloc ==> Paid(old(S()), S(), Path(root, vpn), 0) && (found <==> Affordable(old(S()), Path(root, vpn), 0))
      ensures found ==> Path(root, vpn) <= tables.Keys
    {
      hide Good, Grew, Child, SameMap, Paid, Affordable, Path;
      page := root;
      var level := 2;
      PaidSelf(S(), Path(root, vpn));
      GoodRoot(S(), root);
      GrewSelf(S());
      SameMapSelf(M(S()));
      while level > 0
        invariant level <= 2 && Good(S()) && SameMap(M(old(S())), M(S())) && Grew(old(S()), S())
        invariant NodeFor(root, vpn, level) in tables && page == tables[NodeFor(root, vpn, level)]
        invariant !alloc ==> S() == old(S())
        invariant |old(free)| <= |free| + 2 - level
        invariant Paid(old(S()), S(), Path(root, vpn), 0) && (level < 2 ==> NodeFor(root, vpn, 1) in tables)
      {
        i := Px(level, vpn);
        ghost var s1, n := S(), NodeFor(root, vpn, level);
        WalkDown(root, vpn, level);
        GoodLink(s1, n, i);
        var pte := pages[page][i];
        if Valid(pte) {
          page := Ppn(pte);
        } else {
          if !alloc {
            NoLeafBelow(s1, root, vpn, level);
            found := false;
            return;
          }
          page := AddChild(n, page, i);
          GrewTransitive(old(S()), s1, S());
          SameMapTransitive(M(old(S())), M(s1), M(S()));
          if page == 0 {
            WalkShort(old(S()), s1, root, vpn, level);
            found := false;
            return;
          }
          WalkPaid(old(S()), s1, S(), root, vpn, level);
        }
        level := level - 1;
      }
      WalkedPath(S(), root, vpn);
      PaidAll(old(S()), S(), Path(root, vpn), 0);
      found := true;
      i := vpn % 512;
    }

    /** walkaddr(), by page number: the frame of a page that user programs can use, else 0. */
    method Walkaddr(root: nat, vpn: nat) returns (p: nat)
      requires Good(S()) && Node(root, 2, 0) in tables
      modifies this
      ensures S() == old(S())
      ensures p == if UserMapped(S(), root, vpn) then Ppn(LeafPte(M(S()), root, vpn)) else 0
      ensures p != 0 <==> UserMapped(S(), root, vpn)
    {
      hide Good, Ppn, UserBit;
      if vpn >= MAXVPN {
        return 0;
      }
      var found, page, i := Walk(root, vpn, false);
      if !found {
        return 0;
      }
      GoodTable(S(), LeafNode(root, vpn));
      var pte := pages[page][i];
      if !Valid(pte) {
        return 0;
      }
      if !UserBit(pte) {
        return 0;
      }
      UserFrame(S(), root, vpn);
      p := Ppn(pte);
    }

    /** One turn of mappages' loop. */
    method MapOne(root: nat, vpn: nat, ppn: nat, perm: nat) returns (ok: bool)
      requires Good(S()) && Node(root, 2, 0) in tables && vpn < MAXVPN && perm < 1024
      requires LeafPte(M(S()), root, vpn) == 0 && Mappable(S(), ppn, 1, perm)
      modifies this
      ensures Good(S())
      ensures if ok
              then MapsRange(M(old(S())), M(S()), root, vpn, 1, ppn, perm) && Mapped(old(S()), S(), root, vpn, 1, ppn, UserBit(perm))
              else free == [] && SameMap(M(old(S())), M(S())) && Grew(old(S()), S()) && |old(free)| <= 1
      ensures |old(free)| <= |free| + 2
      ensures Paid(old(S()), S(), Path(root, vpn), 0) && (ok <==> Affordable(old(S()), Path(root, vpn), 0))
      ensures ok ==> Path(root, vpn) <= tables.Keys
    {
      hide Good, Grew, SameMap, LeafPte, MakePte, Mapped, Mappable, UserBit, Affordable;
      ghost var s0 := S();
      var page, i;
      ok, page, i := Walk(root, vpn, true);
      if ok {
        ghost var s1 := S();
        SameMapAt(M(s0), M(s1), root, vpn);
        MappableEnterable(s0, s1, root, vpn, ppn, perm);
        EnteredGood(s1, root, vpn, MakePte(ppn, perm));
        MappedEntered(s0, s1, root, vpn, ppn, perm);
        GoodTable(s1, LeafNode(root, vpn));
        pages := pages[page := With(pages[page], i, MakePte(ppn, perm))];
        role := RoleEntered(role, root, vpn, MakePte(ppn, perm));
        EnteredMaps(M(s0), s1, root, vpn, ppn, perm);
      }
    }

    /** mappages(): map the pages that va .. va + size - 1 touches to frames from pa on. It fails when a
        page-table page cannot be had; the pages mapped so far stay mapped. */
    method Mappages(root: nat, va: nat, size: nat, pa: nat, perm: nat) returns (ok: bool, ghost done: nat)
      requires Good(S()) && Node(root, 2, 0) in tables && perm < 1024
      requires 0 < size && va + size <= MAXVPN * PGSIZE
      requires forall u: nat {:trigger LeafPte(M(S()), root, u)} ::
                 va / PGSIZE <= u <= (va + size - 1) / PGSIZE ==> LeafPte(M(S()), root, u) == 0
      requires Mappable(S(), pa / PGSIZE, (va + size - 1) / PGSIZE - va / PGSIZE + 1, perm)
      modifies this
      ensures Good(S()) && Mapped(old(S()), S(), root, va / PGSIZE, done, pa / PGSIZE, UserBit(perm))
      ensures MapsRange(M(old(S())), M(S()), root, va / PGSIZE, done, pa / PGSIZE, perm)
      ensures forall u: nat {:trigger LeafPte(M(S()), root, u)} :: va / PGSIZE <= u < va / PGSIZE + done ==>
                Joins(LeafPte(M(S()), root, u), pa / PGSIZE + (u - va / PGSIZE), perm)
      ensures var n := (va + size - 1) / PGSIZE - va / PGSIZE + 1;
              if ok then done == n && |old(free)| <= |free| + 2 * n
              else done < n && free == [] && |old(free)| <= 2 * done + 1
      ensures var ns := Paths(root, va / PGSIZE, (va + size - 1) / PGSIZE - va / PGSIZE + 1);
              && Paid(old(S()), S(), ns, 0) && (ok <==> Affordable(old(S()), ns, 0))
              && (ok ==> ns <= tables.Keys)
    {
      hide Good, LeafPte, MapsRange, Mapped, Mappable, UserBit, Joins, Affordable, Paid, Path, Paths, Mapping;
      ghost var s0 := S();
      var a, last, ppn := va / PGSIZE, (va + size - 1) / PGSIZE, pa / PGSIZE;
      ghost var first, ppn0, ns := a, ppn, Paths(root, a, last - a + 1);
      done := 0;
      MappingStart(s0, root, first, ppn, perm, ns);
      while true
        invariant a <= last && done == a - first && ppn == ppn0 + done && Good(S()) && Node(root, 2, 0) in tables
        invariant Mapping(s0, S(), root, first, done, ppn0, perm, ns)
        decreases last - a
      {
        ghost var s1 := S();
        MappingNext(s0, s1, root, first, done, ppn0, perm, last - first + 1);
        ok := MapOne(root, a, ppn, perm);
        if !ok {
          MappingFailed(s0, s1, S(), root, first, done, ppn0, perm, ns);
          return;
        }
        MappingStep(s0, s1, S(), root, first, done, ppn0, perm, ns);
        done := done + 1;
        if a == last {
          break;
        }
        a := a + 1;
        ppn := ppn + 1;
      }
      MappingOver(s0, S(), root, first, done, ppn0, perm);
      ok := true;
    }

    /** One turn of uvmunmap's loop. */
    method UnmapOne(root: nat, vpn: nat, freeing: bool)
      requires Good(S()) && Node(root, 2, 0) in tables && vpn < MAXVPN && Unmappable(S(), root, vpn, freeing)
      modifies this
      ensures Good(S()) && Unmaps(old(S()), S(), root, vpn, 1, freeing)
    {
      hide Sound, Exclusive, SameMap, LeafPte, Grew, Unmaps, Valid, Ppn, Flags;
      ghost var s0 := S();
      MappedLeaf(s0, root, vpn);
      var found, page, i := Walk(root, vpn, false);
      var pte := pages[page][i];
      UnmappablePage(s0, root, vpn, freeing);
      SameMapSelf(M(s0));
      if freeing {
        Kfree(Ppn(pte));
      }
      ghost var s1 := S();
      EnteredUnmaps(s0, s1, root, vpn, freeing);
      pages := pages[page := With(pages[page], i, 0)];
    }

    /** uvmunmap(): the pages must all be mapped. */
    method Uvmunmap(root: nat, va: nat, npages: nat, freeing: bool)
      requires Good(S()) && Node(root, 2, 0) in tables
      requires va % PGSIZE == 0 && va + npages * PGSIZE <= MAXVPN * PGSIZE
      requires forall u: nat :: va / PGSIZE <= u < va / PGSIZE + npages ==> Unmappable(S(), root, u, freeing)
      modifies this
      ensures Good(S()) && Unmaps(old(S()), S(), root, va / PGSIZE, npages, freeing)
    {
      hide Good, SameMap, LeafPte, Unmaps, Unmappable;
      ghost var s0, first := S(), va / PGSIZE;
      UnmapsNone(s0, root, first, freeing);
      var a := va;
      while a < va + npages * PGSIZE
        invariant a % PGSIZE == 0 && va <= a <= va + npages * PGSIZE
        invariant Good(S()) && Node(root, 2, 0) in tables
        invariant Unmaps(s0, S(), root, first, a / PGSIZE - first, freeing)
        decreases va + npages * PGSIZE - a
      {
        ghost var s1 := S();
        var vpn := a / PGSIZE;
        assert first <= vpn < first + npages;
        StillUnmappable(s0, s1, root, first, vpn - first, freeing, vpn);
        UnmapOne(root, vpn, freeing);
        UnmapsNext(s0, s1, S(), root, first, vpn - first, freeing);
        UnmapsTables(s1, S(), root, vpn, 1, freeing);
        a := a + PGSIZE;
      }
    }

    /** mappages() of one whole page. */
    method MapPage(root: nat, vpn: nat, mem: nat, perm: nat) returns (ok: bool, ghost done: nat)
      requires Good(S()) && Node(root, 2, 0) in tables && vpn < MAXVPN && LeafPte(M(S()), root, vpn) == 0
      requires perm < 1024 && mem in role && role[mem].Other?
      modifies this
      ensures Good(S()) && Mapped(old(S()), S(), root, vpn, done, mem, UserBit(perm))
      ensures MapsRange(M(old(S())), M(S()), root, vpn, done, mem, perm)
      ensures if ok then done == 1 && |old(free)| <= |free| + 2 else done == 0 && free == [] && |old(free)| <= 1
      ensures Paid(old(S()), S(), Path(root, vpn), 0) && (ok <==> Affordable(old(S()), Path(root, vpn), 0))
      ensures ok ==> Path(root, vpn) <= tables.Keys
    {
      hide Good, SameMap, LeafPte, MapsRange, Mapped, Path, Paths, Paid, Affordable, Joins, UserBit;
      OnePath(root, vpn);
      assert vpn * PGSIZE / PGSIZE == vpn && (vpn * PGSIZE + PGSIZE - 1) / PGSIZE == vpn && mem * PGSIZE / PGSIZE == mem;
      ok, done := Mappages(root, vpn * PGSIZE, PGSIZE, mem * PGSIZE, perm);
    }

    /** The common part of uvmalloc and uvmcopy: allocate a page, fill it, map it at vpn. */
    method AddPage(root: nat, vpn: nat, content: Page, perm: nat) returns (ok: bool)
      requires Good(S()) && Node(root, 2, 0) in tables && vpn < MAXVPN && LeafPte(M(S()), root, vpn) == 0
      requires |content| == 512 && perm < 1024 && WithV(perm) != PTE_V
      modifies this
      ensures Good(S())
      ensures if ok then Populates(old(S()), S(), root, vpn, 1) && PageIs(S(), root, vpn, WithV(perm), content)
              else Grew(old(S()), S()) && SameMap(M(old(S())), M(S()))
      ensures if ok then |old(free)| <= |free| + 3 else |old(free)| < 3
      ensures Paid(old(S()), S(), Path(root, vpn), if ok then 1 else 0) && (ok <==> Affordable(old(S()), Path(root, vpn), 1))
      ensures ok ==> Path(root, vpn) <= tables.Keys
    {
      hide Good, SameMap, LeafPte, Grew, Populates, PageIs, MapsRange, Mapped, Path, Paid, UserBit;
      ghost var s0 := S();
      PaidSelf(s0, Path(root, vpn));
      GrewSelf(s0);
      SameMapSelf(M(s0));
      var mem := Kalloc();
      if mem == 0 {
        PositivePages(s0);
        return false;
      }
      PreparedGood(s0, content);
      pages := pages[mem := content];
      SameMapAt(M(s0), M(S()), root, vpn);
      ghost var s2 := S();
      ghost var done;
      ok, done := MapPage(root, vpn, mem, perm);
      ghost var s3 := S();
      if !ok {
        PageNotAdded(s0, s3, root, vpn, content, perm);
        Kfree(mem);
        PagePaid(s0, s2, s3, S(), Path(root, vpn), false);
      } else {
        PageAdded(s0, s3, root, vpn, content, perm);
        role := role[mem := User(root, vpn)];
        PagePaid(s0, s2, s3, S(), Path(root, vpn), true);
      }
    }

    /** uvmdealloc(): shrink from oldsz to newsz. */
    method Uvmdealloc(root: nat, oldsz: nat, newsz: nat) returns (r: nat)
      requires Good(S()) && Node(root, 2, 0) in tables && oldsz <= MAXVPN * PGSIZE
      requires forall u: nat :: PageCount(newsz) <= u < PageCount(oldsz) ==> Unmappable(S(), root, u, true)
      modifies this
      ensures Good(S()) && r == if newsz < oldsz then newsz else oldsz
      ensures if newsz < oldsz
              then Unmaps(old(S()), S(), root, PageCount(newsz), PageCount(oldsz) - PageCount(newsz), true)
              else S() == old(S())
    {
      hide Good, Unmaps, Unmappable;
      if newsz >= oldsz {
        return oldsz;
      }
      UnmapsNone(S(), root, PageCount(newsz), true);
      if PageCount(newsz) * PGSIZE < PageCount(oldsz) * PGSIZE {
        var npages := (PageCount(oldsz) * PGSIZE - PageCount(newsz) * PGSIZE) / PGSIZE;
        Uvmunmap(root, PageCount(newsz) * PGSIZE, npages, true);
      }
      r := newsz;
    }

    /** uvmalloc(): grow from oldsz to newsz with zeroed user pages, or give back what was added and return 0. */
    method Uvmalloc(root: nat, oldsz: nat, newsz: nat, xperm: nat) returns (r: nat)
      requires Good(S()) && Node(root, 2, 0) in tables && newsz <= MAXVPN * PGSIZE
      requires xperm in {0, PTE_W, PTE_X, PTE_W + PTE_X}
      requires forall u: nat {:trigger LeafPte(M(S()), root, u)} ::
                 PageCount(oldsz) <= u < PageCount(newsz) ==> LeafPte(M(S()), root, u) == 0
      modifies this
      ensures Good(S())
      ensures newsz < oldsz ==> r == oldsz && S() == old(S())
      ensures oldsz <= newsz && r == newsz ==>
                && Populates(old(S()), S(), root, PageCount(oldsz), PageCount(newsz) - PageCount(oldsz))
                && forall u: nat {:trigger LeafPte(M(S()), root, u)} :: PageCount(oldsz) <= u < PageCount(newsz) ==>
                     PageIs(S(), root, u, PTE_V + PTE_R + PTE_U + xperm, ZeroPage())
      ensures oldsz <= newsz && r != newsz ==>
                && r == 0 && Grew(old(S()), S()) && SameMap(M(old(S())), M(S()))
                && |old(free)| < 3 * (PageCount(newsz) - PageCount(oldsz))
      ensures oldsz <= newsz ==>
                var n := PageCount(newsz) - PageCount(oldsz);
                r == newsz <==> Affordable(old(S()), Paths(root, PageCount(oldsz), n), n)
    {
      hide Good, SameMap, LeafPte, Grew, Populates, PageIs, Unmaps, Paid, Affordable, Path, Paths, PageCount, Growing;
      if newsz < oldsz {
        return oldsz;
      }
      ghost var s0, first := S(), PageCount(oldsz);
      PageCounts(oldsz, newsz);
      ghost var n := PageCount(newsz) - first;
      NoUserRange(s0, root, first, n);
      GrowingStart(s0, root, first, n, PTE_V + PTE_R + PTE_U + xperm);
      var a := PageCount(oldsz) * PGSIZE;
      ghost var k := 0;
      while a < newsz
        invariant a == (first + k) * PGSIZE && k <= n && Good(S()) && Node(root, 2, 0) in tables
        invariant Growing(s0, S(), root, first, k, n, PTE_V + PTE_R + PTE_U + xperm)
        decreases newsz - a
      {
        ghost var s1, vpn := S(), first + k;
        PageStarts(vpn, newsz);
        GrowingNext(s0, s1, root, first, k, n, PTE_V + PTE_R + PTE_U + xperm);
        var ok := AddPage(root, a / PGSIZE, ZeroPage(), PTE_R + PTE_U + xperm);
        if !ok {
          GrowingFailed(s0, s1, S(), root, first, k, n, PTE_V + PTE_R + PTE_U + xperm);
          ghost var s2 := S();
          PageStarts(vpn, oldsz);
          var _ := Uvmdealloc(root, a, oldsz);
          if a > oldsz {
            PopulatesUndone(s0, s2, S(), root, first, k);
          } else {
            PopulatesZero(s0, s2, root, first);
          }
          return 0;
        }
        GrowingStep(s0, s1, S(), root, first, k, n, PTE_V + PTE_R + PTE_U + xperm);
        a := a + PGSIZE;
        k := k + 1;
      }
      PageStarts(first + k, newsz);
      GrowingOver(s0, S(), root, first, n, PTE_V + PTE_R + PTE_U + xperm);
      r := newsz;
    }

    /** freewalk(): free every page-table page from n down. There are no leaf mappings, so the "freewalk: leaf"
        panic is not reached. */
    method Freewalk(page: nat, ghost n: Node)
      requires Good(S()) && n in tables && page == tables[n] && NoLeaves(S(), n.root)
      modifies this
      ensures GoodBut(S(), n) && SameMap(M(old(S())), M(S())) && TearsDown(old(S()), S(), n, 513)
      decreases n.level
    {
      hide Good, GoodBut, SameMap, TearsDown, LeafPte, NoLeaves, Child, Valid, Ppn;
      ghost var s0 := S();
      TearsDownNone(s0, n);
      SameMapSelf(M(s0));
      var i := 0;
      while i < 512
        invariant i <= 512 && Good(S()) && n in tables && page == tables[n]
        invariant SameMap(M(s0), M(S())) && TearsDown(s0, S(), n, i)
        invariant forall j: nat :: j < i && 0 < n.level ==> Child(n, j) !in tables
      {
        ghost var s1 := S();
        GoodTable(s1, n);
        GoodLevel(s1, n);
        NoLeavesStay(s0, s1, n.root);
        var pte := pages[page][i];
        EntryKind(s1, n, i);
        if Valid(pte) {
          assert !IsLeaf(pte);
          ChildLevel(n, i);
          Freewalk(Ppn(pte), Child(n, i));
          ghost var s2 := S();
          TearsDownKeepsParent(s1, s2, n, i);
          GoodButTable(s2, Child(n, i), n);
          UnlinkedGood(s2, n, i);
          TearsDownChild(s0, s1, s2, n, i);
          SameMapTransitive(M(s0), M(s1), M(s2));
          pages := pages[page := With(pages[page], i, 0)];
          SameMapTransitive(M(s0), M(s2), M(S()));
        } else {
          TearsDownAbsent(s0, s1, n, i);
        }
        i := i + 1;
      }
      ghost var s1 := S();
      NoLeavesStay(s0, s1, n.root);
      GoodTable(s1, n);
      ReleasedGood(s1, n);
      ReleasedSameMap(s1, n);
      TearsDownSelf(s0, s1, n);
      pages := pages[page := Filled(JUNK_FREED)[0 := freelist]];
      freelist := page * PGSIZE;
      free := [page] + free;
      role := role[page := Free];
      tables := tables - {n};
      SameMapTransitive(M(s0), M(s1), M(S()));
    }

    /** uvmfree(): the user mappings are exactly those below sz. */
    method Uvmfree(root: nat, sz: nat)
      requires Good(S()) && Node(root, 2, 0) in tables && sz <= MAXVPN * PGSIZE
      requires forall u: nat :: u < PageCount(sz) ==> Unmappable(S(), root, u, true)
      requires forall u: nat {:trigger LeafPte(M(S()), root, u)} :: PageCount(sz) <= u ==> LeafPte(M(S()), root, u) == 0
      modifies this
      ensures Good(S()) && Discards(old(S()), S(), root)
    {
      hide Good, GoodBut, SameMap, TearsDown, LeafPte, NoLeaves, Unmaps, Discards, Unmappable;
      ghost var s0 := S();
      UnmapsNone(s0, root, 0, true);
      if sz > 0 {
        Uvmunmap(root, 0, PageCount(sz), true);
      }
      ghost var s1 := S();
      UnmapsAll(s0, s1, root, PageCount(sz));
      UnmapsTables(s0, s1, root, 0, PageCount(sz), true);
      GoodRoot(s1, root);
      Freewalk(root, Node(root, 2, 0));
      RootGone(S(), root);
      FreesAll(s0, s1, S(), root, PageCount(sz));
    }

    /** uvmcopy(): give `child` its own copy of every page of `parent` below sz, or undo it all. */
    method Uvmcopy(parent: nat, child: nat, sz: nat) returns (ok: bool)
      requires Good(S()) && Node(parent, 2, 0) in tables && Node(child, 2, 0) in tables && parent != child
      requires sz <= MAXVPN * PGSIZE
      requires forall u: nat :: u < PageCount(sz) ==> Unmappable(S(), parent, u, true)
      requires forall u: nat {:trigger LeafPte(M(S()), child, u)} :: u < PageCount(sz) ==> LeafPte(M(S()), child, u) == 0
      modifies this
      ensures Good(S())
      ensures ok ==>
                && Populates(old(S()), S(), child, 0, PageCount(sz))
                && forall u: nat {:trigger LeafPte(M(S()), child, u)} :: u < PageCount(sz) ==> Copied(old(S()), S(), parent, child, u)
      ensures !ok ==> Grew(old(S()), S()) && SameMap(M(old(S())), M(S())) && |old(free)| < 3 * PageCount(sz)
      ensures ok <==> Affordable(old(S()), Paths(child, 0, PageCount(sz)), PageCount(sz))
    {
      hide Good, SameMap, LeafPte, Grew, Populates, PageIs, Unmaps, Unmappable, Copied, Valid, Ppn, Flags, Paid, Affordable, Path, Paths;
      ghost var s0, n := S(), PageCount(sz);
      ghost var ns := Paths(child, 0, n);
      PaidSelf(s0, ns);
      NoPaths(s0, child, 0);
      PopulatesNone(s0, child, 0);
      NoUserRange(s0, child, 0, PageCount(sz));
      var i := 0;
      while i < sz
        invariant i % PGSIZE == 0 && (i < sz ==> i / PGSIZE < PageCount(sz)) && i / PGSIZE <= PageCount(sz)
        invariant Good(S()) && Node(child, 2, 0) in tables && Node(parent, 2, 0) in tables
        invariant Populates(s0, S(), child, 0, i / PGSIZE)
        invariant |old(free)| <= |free| + 3 * (i / PGSIZE)
        invariant PaidFor(s0, S(), child, 0, i / PGSIZE, ns, i / PGSIZE)
        invariant forall u: nat {:trigger Copied(s0, S(), parent, child, u)} :: u < i / PGSIZE ==> Copied(s0, S(), parent, child, u)
        decreases sz - i
      {
        ghost var s1 := S();
        var vpn := i / PGSIZE;
        ParentPage(s0, s1, parent, child, vpn, vpn);
        MappedLeaf(s1, parent, vpn);
        var found, page, at := Walk(parent, vpn, false);
        var pte := pages[page][at];
        PopulatesOutside(s0, s1, child, 0, vpn, vpn);
        PathsHas(child, 0, n, vpn);
        ok := AddPage(child, vpn, pages[Ppn(pte)], Flags(pte));
        if !ok {
          PaidShortOf(s0, s1, ns, vpn, Path(child, vpn), n);
          PopulatesGrew(s0, s1, S(), child, 0, vpn);
          ghost var s2 := S();
          PopulatesUnmappable(s0, s2, child, 0, vpn);
          GrewRoot(s1, s2, child);
          Uvmunmap(child, 0, i / PGSIZE, true);
          PopulatesUndone(s0, s2, S(), child, 0, vpn);
          return;
        }
        forall u: nat {:trigger Copied(s0, S(), parent, child, u)} | u <= vpn ensures Copied(s0, S(), parent, child, u) {
          if u < vpn {
            PopulatesUser(s0, s1, child, 0, vpn, u);
            CopiedStays(s0, s1, S(), parent, child, vpn, u);
          } else {
            CopiedNow(s0, s1, S(), parent, child, vpn);
          }
        }
        PopulatesNext(s0, s1, S(), child, 0, vpn);
        PopulatesRoot(s1, S(), child, vpn, 1);
        PopulatesOtherRoot(s1, S(), parent, child, vpn, 1);
        PaidStep(s0, s1, S(), child, 0, vpn, ns, vpn, 1);
        i := i + PGSIZE;
      }
      assert i / PGSIZE == n;
      PaidAll(s0, S(), ns, n);
      ok := true;
    }
  }

  /** The child's page at u has the flags and the contents the parent's page had, in a frame of its own. */
  ghost predicate Copied(s: State, s': State, parent: nat, child: nat, u: nat) {
    var pte := LeafPte(M(s), parent, u);
    Ppn(pte) in s.pages && PageIs(s', child, u, Flags(pte), s.pages[Ppn(pte)])
  }

  /** The parent's page is where it was and as it was. */
  lemma ParentPage(s: State, s1: State, parent: nat, child: nat, n: nat, u: nat)
    requires Good(s) && Populates(s, s1, child, 0, n) && parent != child && Unmappable(s, parent, u, true)
    ensures Valid(LeafPte(M(s), parent, u)) && LeafPte(M(s1), parent, u) == LeafPte(M(s), parent, u)
    ensures var pte := LeafPte(M(s), parent, u);
            && Flags(pte) != PTE_V && WithV(Flags(pte)) == Flags(pte)
            && Ppn(pte) in s.pages && Ppn(pte) in s1.pages && s1.pages[Ppn(pte)] == s.pages[Ppn(pte)]
            && |s1.pages[Ppn(pte)]| == 512
  {
    hide LeafPte, Tree, FreeList, UserPages;
    var pte := LeafPte(M(s), parent, u);
    assert pte % 1024 % 2 == pte % 2;
  }

  lemma CopiedNow(s: State, s1: State, s2: State, parent: nat, child: nat, u: nat)
    requires Good(s) && Populates(s, s1, child, 0, u) && parent != child && Unmappable(s, parent, u, true)
    requires var pte := LeafPte(M(s1), parent, u);
             Ppn(pte) in s1.pages && PageIs(s2, child, u, WithV(Flags(pte)), s1.pages[Ppn(pte)])
    ensures Copied(s, s2, parent, child, u)
  {
    hide LeafPte, Good, Populates, Unmappable, PageIs, Flags;
    ParentPage(s, s1, parent, child, u, u);
  }

  lemma CopiedStays(s: State, s1: State, s2: State, parent: nat, child: nat, vpn: nat, u: nat)
    requires Populates(s1, s2, child, vpn, 1) && u < vpn && Copied(s, s1, parent, child, u)
    requires Ppn(LeafPte(M(s1), child, u)) in s1.role && s1.role[Ppn(LeafPte(M(s1), child, u))].User?
    ensures Copied(s, s2, parent, child, u)
  {
    hide LeafPte, Valid, Ppn, Flags, Populates, PageIs;
    var pte := LeafPte(M(s), parent, u);
    PageIsStays(s1, s2, child, vpn, 1, child, u, Flags(pte), s.pages[Ppn(pte)]);
  }

  lemma PopulatesOtherRoot(s: State, s': State, root: nat, child: nat, first: nat, n: nat)
    requires Populates(s, s', child, first, n) && Node(root, 2, 0) in s.tables
    ensures Node(root, 2, 0) in s'.tables
  {
  }

  /** Part of the way through uvmalloc: k of n zeroed pages are added. */
  ghost predicate Growing(s0: State, s: State, root: nat, first: nat, k: nat, n: nat, flags: nat) {
    && Populates(s0, s, root, first, k) && |s0.free| <= |s.free| + 3 * k
    && PaidFor(s0, s, root, first, k, Paths(root, first, n), k)
    && forall u: nat {:trigger PageIs(s, root, u, flags, ZeroPage())} :: first <= u < first + k ==> PageIs(s, root, u, flags, ZeroPage())
  }

  lemma GrowingStart(s: State, root: nat, first: nat, n: nat, flags: nat)
    requires Good(s)
    ensures Growing(s, s, root, first, 0, n, flags)
  {
    hide Good, Populates, Paid, PageIs;
    PopulatesNone(s, root, first);
    PaidSelf(s, Paths(root, first, n));
  }

  lemma GrowingNext(s0: State, s: State, root: nat, first: nat, k: nat, n: nat, flags: nat)
    requires Growing(s0, s, root, first, k, n, flags) && k < n
    ensures LeafPte(M(s), root, first + k) == LeafPte(M(s0), root, first + k) && Path(root, first + k) <= Paths(root, first, n)
  {
    hide Populates, Paid, PageIs, LeafPte, Path, Paths;
    PopulatesOutside(s0, s, root, first, k, first + k);
    PathsHas(root, first, n, first + k);
  }

  lemma AddedStays(s0: State, s1: State, s2: State, root: nat, first: nat, k: nat, u: nat, flags: nat)
    requires Populates(s0, s1, root, first, k) && Populates(s1, s2, root, first + k, 1) && first <= u < first + k
    requires PageIs(s1, root, u, flags, ZeroPage())
    ensures PageIs(s2, root, u, flags, ZeroPage())
  {
    hide Populates, PageIs, LeafPte, Ppn;
    PopulatesUser(s0, s1, root, first, k, u);
    PageIsStays(s1, s2, root, first + k, 1, root, u, flags, ZeroPage());
  }

  lemma GrowingStep(s0: State, s1: State, s2: State, root: nat, first: nat, k: nat, n: nat, flags: nat)
    requires Growing(s0, s1, root, first, k, n, flags) && Path(root, first + k) <= Paths(root, first, n)
    requires Populates(s1, s2, root, first + k, 1) && PageIs(s2, root, first + k, flags, ZeroPage()) && |s1.free| <= |s2.free| + 3
    requires Paid(s1, s2, Path(root, first + k), 1) && Path(root, first + k) <= s2.tables.Keys && Node(root, 2, 0) in s1.tables
    ensures Growing(s0, s2, root, first, k + 1, n, flags) && Node(root, 2, 0) in s2.tables
  {
    hide Populates, Paid, PageIs, Path, Paths, PaidFor;
    forall u: nat {:trigger PageIs(s2, root, u, flags, ZeroPage())} | first <= u < first + k + 1
      ensures PageIs(s2, root, u, flags, ZeroPage())
    {
      if u < first + k {
        AddedStays(s0, s1, s2, root, first, k, u, flags);
      }
    }
    PopulatesNext(s0, s1, s2, root, first, k);
    PopulatesRoot(s1, s2, root, first + k, 1);
    PaidStep(s0, s1, s2, root, first, k, Paths(root, first, n), k, 1);
  }

  lemma GrowingFailed(s0: State, s1: State, s2: State, root: nat, first: nat, k: nat, n: nat, flags: nat)
    requires Growing(s0, s1, root, first, k, n, flags) && Path(root, first + k) <= Paths(root, first, n) && k < n
    requires Grew(s1, s2) && SameMap(M(s1), M(s2)) && !Affordable(s1, Path(root, first + k), 1) && |s1.free| < 3
    requires Node(root, 2, 0) in s1.tables
    ensures Populates(s0, s2, root, first, k) && (forall u: nat :: first <= u < first + k ==> Unmappable(s2, root, u, true))
    ensures Node(root, 2, 0) in s2.tables && !Affordable(s0, Paths(root, first, n), n) && |s0.free| < 3 * n
  {
    hide Grew, SameMap, Populates, Paid, PageIs, Path, Paths, Affordable, Unmappable;
    PaidShortOf(s0, s1, Paths(root, first, n), k, Path(root, first + k), n);
    PopulatesGrew(s0, s1, s2, root, first, k);
    PopulatesUnmappable(s0, s2, root, first, k);
    GrewRoot(s1, s2, root);
  }

  lemma GrowingOver(s0: State, s: State, root: nat, first: nat, n: nat, flags: nat)
    requires Growing(s0, s, root, first, n, n, flags)
    ensures Populates(s0, s, root, first, n) && Affordable(s0, Paths(root, first, n), n)
    ensures forall u: nat {:trigger PageIs(s, root, u, flags, ZeroPage())} ::
              first <= u < first + n ==> PageIs(s, root, u, flags, ZeroPage())
  {
    hide Populates, Paid, PageIs, LeafPte, Paths, Affordable;
    PaidAll(s0, s, Paths(root, first, n), n);
  }

  lemma NoUserRange(s: State, root: nat, first: nat, n: int)
    requires Good(s)
    requires forall u: nat {:trigger LeafPte(M(s), root, u)} :: first <= u < first + n ==> LeafPte(M(s), root, u) == 0
    ensures 0 <= n ==> forall p :: p in s.role ==> !InRange(s.role[p], root, first, n)
  {
    hide LeafPte, Tree, FreeList;
  }

  lemma PopulatesOutside(s: State, s': State, root: nat, first: nat, n: nat, u: nat)
    requires Populates(s, s', root, first, n) && first + n <= u
    ensures LeafPte(M(s'), root, u) == LeafPte(M(s), root, u)
  {
  }

  lemma PopulatesUnmappable(s: State, s': State, root: nat, first: nat, n: nat)
    requires Populates(s, s', root, first, n)
    ensures forall u: nat :: first <= u < first + n ==> Unmappable(s', root, u, true)
  {
  }

  lemma PopulatesZero(s: State, s': State, root: nat, first: nat)
    requires Populates(s, s', root, first, 0)
    ensures Grew(s, s') && SameMap(M(s), M(s'))
  {
    hide LeafPte;
  }

  lemma PopulatesUser(s: State, s': State, root: nat, first: nat, n: nat, u: nat)
    requires Populates(s, s', root, first, n) && first <= u < first + n
    ensures Ppn(LeafPte(M(s'), root, u)) in s'.role && s'.role[Ppn(LeafPte(M(s'), root, u))].User?
  {
    hide LeafPte;
    assert Unmappable(s', root, u, true);
  }

  lemma PopulatesRoot(s: State, s': State, root: nat, first: nat, n: nat)
    requires Populates(s, s', root, first, n) && Node(root, 2, 0) in s.tables
    ensures Node(root, 2, 0) in s'.tables
  {
  }

  lemma PositivePages(s: State)
    requires Good(s)
    ensures s.free != [] ==> s.free[0] != 0
  {
    EmptyList(s.pages, s.head, s.free);
  }

  lemma UnmapsTables(s: State, s': State, root: nat, first: nat, n: nat, freeing: bool)
    requires Unmaps(s, s', root, first, n, freeing)
    ensures s'.tables == s.tables
  {
  }

  lemma UnmappablePage(s: State, root: nat, vpn: nat, freeing: bool)
    requires Good(s) && Unmappable(s, root, vpn, freeing)
    ensures freeing ==> Ppn(LeafPte(M(s), root, vpn)) in s.pages && s.role[Ppn(LeafPte(M(s), root, vpn))].User?
  {
    hide LeafPte, Tree, FreeList, UserPages;
  }

  lemma SameMapAt(m: Mem, m': Mem, root: nat, vpn: nat)
    requires SameMap(m, m')
    ensures LeafPte(m', root, vpn) == LeafPte(m, root, vpn)
  {
  }

  lemma GrewRoot(s: State, s': State, root: nat)
    requires Grew(s, s') && Node(root, 2, 0) in s.tables
    ensures Node(root, 2, 0) in s'.tables
  {
  }

  lemma MappableEnterable(s: State, s1: State, root: nat, vpn: nat, ppn: nat, perm: nat)
    requires Good(s1) && Grew(s, s1) && Mappable(s, ppn, 1, perm) && perm < 1024 && LeafPte(M(s1), root, vpn) == 0
    ensures Enterable(s1, root, vpn, MakePte(ppn, perm))
  {
    hide LeafPte, Tree, FreeList, MakePte;
    NoUserThere(s1, root, vpn);
    if UserBit(perm) {
      assert GrewPage(s, s1, ppn);
    }
  }

  lemma MappedEntered(s: State, s1: State, root: nat, vpn: nat, ppn: nat, perm: nat)
    requires Grew(s, s1) && Good(s1) && LeafNode(root, vpn) in s1.tables && perm < 1024
    requires Mappable(s, ppn, 1, perm) && Enterable(s1, root, vpn, MakePte(ppn, perm))
    ensures Located(M(s1), LeafNode(root, vpn))
    ensures Mapped(s, Entered(s1, root, vpn, MakePte(ppn, perm)), root, vpn, 1, ppn, UserBit(perm))
  {
    hide LeafPte, FreeList, UserPages, Tree, Roles, MakePte, UserBit, Exclusive;
    GoodTable(s1, LeafNode(root, vpn));
    var s2, page := Entered(s1, root, vpn, MakePte(ppn, perm)), s1.tables[LeafNode(root, vpn)];
    forall p | p in s.pages ensures MappedPage(s, s2, root, vpn, 1, ppn, UserBit(perm), p) {
      assert GrewPage(s, s1, p);
    }
  }

  lemma EnteredMaps(m: Mem, s1: State, root: nat, vpn: nat, ppn: nat, perm: nat)
    requires SameMap(m, M(s1)) && Good(s1) && LeafNode(root, vpn) in s1.tables && perm < 1024
    ensures Located(M(s1), LeafNode(root, vpn))
    ensures MapsRange(m, M(Entered(s1, root, vpn, MakePte(ppn, perm))), root, vpn, 1, ppn, perm)
  {
    hide LeafPte, FreeList, UserPages, Link, Placed;
    GoodTable(s1, LeafNode(root, vpn));
    var m' := M(Entered(s1, root, vpn, MakePte(ppn, perm)));
    forall r: nat, u: nat {:trigger LeafPte(m', r, u)}
      ensures LeafPte(m', r, u) == if r == root && vpn <= u < vpn + 1 then MakePte(ppn + (u - vpn), perm) else LeafPte(m, r, u)
    {
      SetLeafMap(M(s1), root, vpn, MakePte(ppn, perm), r, u);
      SameMapAt(m, M(s1), r, u);
    }
  }

  /** Every bit of the new leaves: the frame's number above the permissions, with PTE_V. */
  lemma MapsRangeJoins(m: Mem, m': Mem, root: nat, first: nat, n: nat, ppn: nat, perm: nat)
    requires perm < 1024 && MapsRange(m, m', root, first, n, ppn, perm)
    ensures forall u: nat {:trigger LeafPte(m', root, u)} :: first <= u < first + n ==>
              Joins(LeafPte(m', root, u), ppn + (u - first), perm)
  {
    hide LeafPte, MakePte, Joins;
    forall u: nat {:trigger LeafPte(m', root, u)} | first <= u < first + n
      ensures Joins(LeafPte(m', root, u), ppn + (u - first), perm)
    {
      MakePteBits(ppn + (u - first), perm);
    }
  }

  /** Part of the way through mappages: k pages are mapped. */
  ghost predicate Mapping(s0: State, s: State, root: nat, first: nat, k: nat, ppn: nat, perm: nat, ns: set<Node>)
    requires perm < 1024
  {
    && Mapped(s0, s, root, first, k, ppn, UserBit(perm)) && MapsRange(M(s0), M(s), root, first, k, ppn, perm)
    && PaidFor(s0, s, root, first, k, ns, 0) && |s0.free| <= |s.free| + 2 * k
  }

  lemma MappingStart(s: State, root: nat, first: nat, ppn: nat, perm: nat, ns: set<Node>)
    requires Good(s) && perm < 1024
    ensures Mapping(s, s, root, first, 0, ppn, perm, ns)
  {
    hide Good, Mapped, MapsRange, Paid, UserBit;
    GrewSelf(s);
    MappedNone(s, s, root, first, ppn, UserBit(perm));
    SameMapSelf(M(s));
    MapsRangeNone(M(s), M(s), root, first, ppn, perm);
    PaidSelf(s, ns);
  }

  /** The next page is still unmapped, and its frame still the caller's. */
  lemma MappingNext(s0: State, s: State, root: nat, first: nat, k: nat, ppn: nat, perm: nat, n: nat)
    requires perm < 1024 && k < n && Mapping(s0, s, root, first, k, ppn, perm, Paths(root, first, n)) && Mappable(s0, ppn, n, perm)
    ensures LeafPte(M(s), root, first + k) == LeafPte(M(s0), root, first + k) && Mappable(s, ppn + k, 1, perm)
    ensures Path(root, first + k) <= Paths(root, first, n)
  {
    hide Mapped, MapsRange, Paid, UserBit, LeafPte, Path, Paths, Mappable;
    PathsHas(root, first, n, first + k);
    MapsRangeOutside(M(s0), M(s), root, first, k, ppn, perm, first + k);
    MappedStillMappable(s0, s, root, first, k, ppn, n, perm);
  }

  lemma MappingStep(s0: State, s1: State, s2: State, root: nat, first: nat, k: nat, ppn: nat, perm: nat, ns: set<Node>)
    requires perm < 1024 && Mapping(s0, s1, root, first, k, ppn, perm, ns) && Path(root, first + k) <= ns
    requires Mapped(s1, s2, root, first + k, 1, ppn + k, UserBit(perm)) && MapsRange(M(s1), M(s2), root, first + k, 1, ppn + k, perm)
    requires Paid(s1, s2, Path(root, first + k), 0) && Path(root, first + k) <= s2.tables.Keys && |s1.free| <= |s2.free| + 2
    ensures Mapping(s0, s2, root, first, k + 1, ppn, perm, ns)
    ensures Node(root, 2, 0) in s1.tables ==> Node(root, 2, 0) in s2.tables
  {
    hide Mapped, MapsRange, Paid, UserBit, LeafPte, Path, Paths, PaidFor;
    MappedNext(s0, s1, s2, root, first, k, ppn, 1, UserBit(perm));
    if Node(root, 2, 0) in s1.tables {
      MappedRoot(s1, s2, root, root, first + k, 1, ppn + k, UserBit(perm));
    }
    MapsRangeNext(M(s0), M(s1), M(s2), root, first, k, ppn, perm);
    PaidStep(s0, s1, s2, root, first, k, ns, 0, 0);
  }

  lemma MappingFailed(s0: State, s1: State, s2: State, root: nat, first: nat, k: nat, ppn: nat, perm: nat, ns: set<Node>)
    requires perm < 1024 && Mapping(s0, s1, root, first, k, ppn, perm, ns) && Path(root, first + k) <= ns
    requires Grew(s1, s2) && SameMap(M(s1), M(s2)) && |s1.free| <= 1
    requires Paid(s1, s2, Path(root, first + k), 0) && !Affordable(s1, Path(root, first + k), 0)
    ensures Mapped(s0, s2, root, first, k, ppn, UserBit(perm)) && MapsRange(M(s0), M(s2), root, first, k, ppn, perm)
    ensures forall u: nat {:trigger LeafPte(M(s2), root, u)} :: first <= u < first + k ==>
              Joins(LeafPte(M(s2), root, u), ppn + (u - first), perm)
    ensures |s0.free| <= 2 * k + 1 && Paid(s0, s2, ns, 0) && !Affordable(s0, ns, 0)
  {
    hide Grew, SameMap, Mapped, MapsRange, Paid, UserBit, LeafPte, Path, Paths, Joins, Affordable;
    PaidShort(s0, s1, ns, 0, Path(root, first + k), 0);
    PaidThen(s0, s1, s2, ns, Path(root, first + k), 0, 0);
    MappedNone(s1, s2, root, first + k, ppn + k, UserBit(perm));
    MappedNext(s0, s1, s2, root, first, k, ppn, 0, UserBit(perm));
    MapsRangeSame(M(s0), M(s1), M(s2), root, first, k, ppn, perm);
    MapsRangeJoins(M(s0), M(s2), root, first, k, ppn, perm);
  }

  lemma MappingOver(s0: State, s: State, root: nat, first: nat, n: nat, ppn: nat, perm: nat)
    requires perm < 1024 && Mapping(s0, s, root, first, n, ppn, perm, Paths(root, first, n))
    ensures Mapped(s0, s, root, first, n, ppn, UserBit(perm)) && MapsRange(M(s0), M(s), root, first, n, ppn, perm)
    ensures forall u: nat {:trigger LeafPte(M(s), root, u)} :: first <= u < first + n ==>
              Joins(LeafPte(M(s), root, u), ppn + (u - first), perm)
    ensures var ns := Paths(root, first, n);
            |s0.free| <= |s.free| + 2 * n && Paid(s0, s, ns, 0) && Affordable(s0, ns, 0) && ns <= s.tables.Keys
  {
    hide Mapped, MapsRange, Paid, UserBit, LeafPte, Paths, Joins, Affordable;
    MapsRangeJoins(M(s0), M(s), root, first, n, ppn, perm);
    PaidAll(s0, s, Paths(root, first, n), 0);
  }

  lemma MapsRangeOutside(m: Mem, m': Mem, root: nat, first: nat, n: nat, ppn: nat, perm: nat, u: nat)
    requires perm < 1024 && MapsRange(m, m', root, first, n, ppn, perm) && first + n <= u
    ensures LeafPte(m', root, u) == LeafPte(m, root, u)
  {
  }

  lemma MapsRangeSame(m: Mem, m1: Mem, m2: Mem, root: nat, first: nat, n: nat, ppn: nat, perm: nat)
    requires perm < 1024 && MapsRange(m, m1, root, first, n, ppn, perm) && SameMap(m1, m2)
    ensures MapsRange(m, m2, root, first, n, ppn, perm)
  {
    hide LeafPte, MakePte;
    forall r: nat, u: nat {:trigger LeafPte(m2, r, u)}
      ensures LeafPte(m2, r, u) ==
              if r == root && first <= u < first + n then MakePte(ppn + (u - first), perm) else LeafPte(m, r, u)
    {
      SameMapAt(m1, m2, r, u);
    }
  }

  lemma SameMapSelf(m: Mem)
    ensures SameMap(m, m)
  {
  }

  lemma SameMapTransitive(m: Mem, m1: Mem, m2: Mem)
    requires SameMap(m, m1) && SameMap(m1, m2)
    ensures SameMap(m, m2)
  {
    hide LeafPte;
    forall root: nat, vpn: nat {:trigger LeafPte(m2, root, vpn)} ensures LeafPte(m2, root, vpn) == LeafPte(m, root, vpn) {
      assert LeafPte(m1, root, vpn) == LeafPte(m, root, vpn);
    }
  }

  lemma GrewTransitive(s: State, s1: State, s2: State)
    requires Grew(s, s1) && Grew(s1, s2)
    ensures Grew(s, s2)
  {
  }

  lemma SoundTable(s: State, n: Node)
    requires Sound(s) && n in s.tables
    ensures s.tables[n] in s.pages && |s.pages[s.tables[n]]| == 512 && s.role[s.tables[n]] == Table(n)
  {
    assert Located(M(s), n);
  }

  lemma GoodTable(s: State, n: Node)
    requires Good(s) && n in s.tables
    ensures s.tables[n] in s.pages && |s.pages[s.tables[n]]| == 512 && s.role[s.tables[n]] == Table(n)
  {
    hide Sound;
    SoundTable(s, n);
  }

  lemma GrewTable(s: State, n: Node, i: nat)
    requires Good(s) && s.free != [] && n in s.tables && 0 < n.level && i < 512 && Child(n, i) !in s.tables
    ensures Located(M(Allocated(s)), n) && Grew(s, Tabled(Allocated(s), n, i, s.free[0]))
  {
    hide Tree, UserPages, LeafPte, MakePte;
    GoodTable(s, n);
    EmptyList(s.pages, s.head, s.free);
    PopKeeps(s.pages, s.head, s.free);
  }

  lemma GrewCreated(s: State)
    requires Good(s) && s.free != []
    ensures Grew(s, Created(Allocated(s), s.free[0])) && Node(s.free[0], 2, 0) !in s.tables
  {
    hide FreeList, UserPages, LeafPte, Exclusive;
    PopKeeps(s.pages, s.head, s.free);
    assert Node(s.free[0], 2, 0) in s.tables ==> Placed(M(s), Node(s.free[0], 2, 0));
  }

  lemma GrewSelf(s: State)
    requires Good(s)
    ensures Grew(s, s)
  {
  }

  lemma GoodRoot(s: State, root: nat)
    requires Good(s) && Node(root, 2, 0) in s.tables
    ensures s.tables[Node(root, 2, 0)] == root
  {
    assert Placed(M(s), Node(root, 2, 0));
  }

  /** What walk() reads at an interior entry. */
  lemma GoodLink(s: State, n: Node, i: nat)
    requires Good(s) && n in s.tables && 0 < n.level && i < 512
    ensures s.tables[n] in s.pages && |s.pages[s.tables[n]]| == 512
    ensures var pte := s.pages[s.tables[n]][i];
            && (Valid(pte) <==> Child(n, i) in s.tables)
            && (Valid(pte) ==> Ppn(pte) == s.tables[Child(n, i)])
  {
    assert Located(M(s), n) && Link(M(s), n, i);
  }

  /** If the walk stops at a missing child there is no leaf page further down. */
  lemma NoLeafBelow(s: State, root: nat, vpn: nat, level: nat)
    requires Good(s) && 0 < level <= 2 && vpn < MAXVPN && NodeFor(root, vpn, level - 1) !in s.tables
    ensures LeafNode(root, vpn) !in s.tables
  {
    if level == 2 {
      WalkDown(root, vpn, 1);
      NoChild(M(s), NodeFor(root, vpn, 1), Px(1, vpn));
    }
  }
}
