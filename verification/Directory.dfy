/** Names in directory entries (kernel/string.c, kernel/fs.c): at most DIRSIZ bytes, ended by a NUL if shorter. */
module Names {
  const DIRSIZ := 14
  const NUL := '\0'

  /** The name a buffer holds: its bytes before the first NUL, at most n. */
  function Key(s: seq<char>, n: nat): (k: string)
    ensures |k| <= n
    decreases n
  {
    if n == 0 || s == [] || s[0] == NUL then "" else [s[0]] + Key(s[1..], n - 1)
  }

  /** Reading n bytes, or up to a NUL, stays inside the buffer. */
  predicate Readable(s: seq<char>, n: nat) {
    n <= |s| || NUL in s
  }

  method Strncmp(p: seq<char>, q: seq<char>, n: nat) returns (r: int)
    requires Readable(p, n) && Readable(q, n)
    ensures r == 0 <==> Key(p, n) == Key(q, n)
  {
    hide Key;
    var i := 0;
    assert p[0..] == p && q[0..] == q;
    while i < n && p[i] != NUL && p[i] == q[i]
      invariant i <= n && i <= |p| && i <= |q| && Readable(p[i..], n - i) && Readable(q[i..], n - i)
      invariant Key(p, n) == Key(q, n) <==> Key(p[i..], n - i) == Key(q[i..], n - i)
    {
      assert p[i..][1..] == p[i + 1..] && q[i..][1..] == q[i + 1..];
      FirstSame(p[i..], q[i..], n - i);
      i := i + 1;
    }
    if i == n {
      assert Key(p[i..], 0) == Key(q[i..], 0);
      return 0;
    }
    FirstDiffers(p[i..], q[i..], n - i);
    return p[i] as int - q[i] as int;
  }

  lemma FirstSame(a: seq<char>, b: seq<char>, n: nat)
    requires n > 0 && a != [] && b != [] && a[0] == b[0] != NUL
    ensures Key(a, n) == Key(b, n) <==> Key(a[1..], n - 1) == Key(b[1..], n - 1)
  {
    assert Key(a, n)[1..] == Key(a[1..], n - 1) && Key(b, n)[1..] == Key(b[1..], n - 1);
  }

  lemma FirstDiffers(a: seq<char>, b: seq<char>, n: nat)
    requires n > 0 && a != [] && b != [] && (a[0] == NUL || a[0] != b[0])
    ensures Key(a, n) == Key(b, n) <==> a[0] == b[0]
  {
    assert a[0] != NUL && b[0] != NUL ==> Key(a, n)[0] == a[0] && Key(b, n)[0] == b[0];
  }

  /** The name in a buffer of its own, filled up with NULs. */
  function Padded(t: seq<char>, n: nat): (s: seq<char>)
    ensures |s| == n
  {
    Key(t, n) + seq(n - |Key(t, n)|, _ => NUL)
  }

  /** strncpy(): the buffer written holds the same name. */
  method Strncpy(t: seq<char>, n: nat) returns (s: seq<char>)
    requires Readable(t, n)
    ensures s == Padded(t, n)
  {
    s := [];
    while |s| < n && t[|s|] != NUL
      invariant |s| <= n && |s| <= |t| && s == t[..|s|] && NUL !in s && Readable(t[|s|..], n - |s|)
    {
      s := s + [t[|s|]];
    }
    ghost var m := |s|;
    while |s| < n
      invariant m <= |s| <= n && s[..m] == t[..m] && (forall i :: m <= i < |s| ==> s[i] == NUL)
    {
      s := s + [NUL];
    }
    KeyIs(t, n, m);
  }

  lemma PaddedKey(t: seq<char>, n: nat)
    ensures Key(Padded(t, n), n) == Key(t, n)
  {
    var k, s := Key(t, n), Padded(t, n);
    NoNul(t, n);
    assert s[..|k|] == k;
    KeyIs(s, n, |k|);
  }

  lemma NoNul(t: seq<char>, n: nat)
    ensures NUL !in Key(t, n)
  {
  }

  lemma KeyIs(s: seq<char>, n: nat, m: nat)
    requires m <= n && m <= |s| && NUL !in s[..m] && (m == n || (m < |s| && s[m] == NUL))
    ensures Key(s, n) == s[..m]
    decreases m
  {
    if m > 0 {
      assert s[0] == s[..m][0] && s[1..][..m - 1] == s[..m][1..];
      KeyIs(s[1..], n - 1, m - 1);
    }
  }
}

/** Directories, their entries, and the link counts of inodes. */
module LinkCounts {
  import opened Collections
  import opened Names

  const ROOTINO: nat := 1
  const T_DIR := 1
  const T_FILE := 2
  const T_DEVICE := 3
  const SHORT_MAX := 0x7fff

  const DOT: seq<char> := ['.', NUL]
  const DOTDOT: seq<char> := ['.', '.', NUL]

  datatype Dirent = Dirent(inum: nat, name: seq<char>)

  /** An inode; kind 0 means free, and entries are the contents of a directory. */
  datatype Node = Node(kind: nat, nlink: int, entries: seq<Dirent>)

  const FREE := Node(0, 0, [])

  predicate Linked(n: Node) {
    n.kind == T_DIR && 0 < n.nlink
  }

  function NameOf(e: Dirent): (k: string) {
    Key(e.name, DIRSIZ)
  }

  // ---- names of inodes ----

  /** Entry k of linked directory d names inode i; entry 0, ".", does not count. */
  predicate RefAt(nodes: seq<Node>, i: nat, d: nat, k: nat) {
    && d < |nodes| && Linked(nodes[d])
    && 0 < k < |nodes[d].entries| && nodes[d].entries[k].inum == i
  }

  ghost function Refs(nodes: seq<Node>, i: nat): (s: set<(nat, nat)>) {
    set d: nat, k: nat | d < |nodes| && k < |nodes[d].entries| && RefAt(nodes, i, d, k) :: (d, k)
  }

  lemma RefsAre(nodes: seq<Node>, i: nat, d: nat, k: nat)
    ensures (d, k) in Refs(nodes, i) <==> RefAt(nodes, i, d, k)
  {
  }

  lemma RefsSame(nodes: seq<Node>, now: seq<Node>, i: nat)
    requires forall d: nat, k: nat :: RefAt(now, i, d, k) <==> RefAt(nodes, i, d, k)
    ensures Refs(now, i) == Refs(nodes, i)
  {
    forall d: nat, k: nat ensures (d, k) in Refs(now, i) <==> (d, k) in Refs(nodes, i) {
      RefsAre(nodes, i, d, k);
      RefsAre(now, i, d, k);
    }
    assert forall x :: x in Refs(now, i) ==> (x.0, x.1) in Refs(nodes, i);
    assert forall x :: x in Refs(nodes, i) ==> (x.0, x.1) in Refs(now, i);
  }

  lemma RefsMore(nodes: seq<Node>, now: seq<Node>, i: nat, d0: nat, k0: nat)
    requires forall d: nat, k: nat :: RefAt(now, i, d, k) <==> RefAt(nodes, i, d, k) || (d == d0 && k == k0)
    requires !RefAt(nodes, i, d0, k0)
    ensures Refs(now, i) == Refs(nodes, i) + {(d0, k0)} && |Refs(now, i)| == |Refs(nodes, i)| + 1
  {
    forall d: nat, k: nat ensures (d, k) in Refs(now, i) <==> (d, k) in Refs(nodes, i) + {(d0, k0)} {
      RefsAre(nodes, i, d, k);
      RefsAre(now, i, d, k);
    }
    assert forall x :: x in Refs(now, i) ==> (x.0, x.1) in Refs(nodes, i) + {(d0, k0)};
    assert forall x :: x in Refs(nodes, i) + {(d0, k0)} ==> (x.0, x.1) in Refs(now, i);
    RefsAre(nodes, i, d0, k0);
  }

  // ---- what holds between operations ----

  ghost predicate UniqueNames(es: seq<Dirent>) {
    forall j, k :: 0 <= j < k < |es| && es[j].inum != 0 && es[k].inum != 0 ==> NameOf(es[j]) != NameOf(es[k])
  }

  ghost predicate DirOk(nodes: seq<Node>, d: nat)
    requires d < |nodes|
  {
    var es := nodes[d].entries;
    && 2 <= |es| && es[0].inum == d && NameOf(es[0]) == "." && es[1].inum != 0 && NameOf(es[1]) == ".."
    && (forall k :: 0 <= k < |es| ==> es[k].inum < |nodes| && (es[k].inum != 0 ==> nodes[es[k].inum].kind != 0))
    && (forall k :: 0 <= k < |es| ==> |es[k].name| == DIRSIZ)
    && UniqueNames(es)
  }

  predicate Empty(es: seq<Dirent>) {
    forall k :: 2 <= k < |es| ==> es[k].inum == 0
  }

  /** A directory that has lost its name, and is kept by a reference, still has its dots, and nothing else. What its
      ".." names may be gone. */
  ghost predicate Retired(nodes: seq<Node>, d: nat)
    requires d < |nodes|
  {
    var es := nodes[d].entries;
    es == [] || (
      && 2 <= |es| && es[0].inum == d && NameOf(es[0]) == "." && 0 < es[1].inum < |nodes| && NameOf(es[1]) == ".."
      && Empty(es) && forall k :: 0 <= k < |es| ==> |es[k].name| == DIRSIZ)
  }

  ghost predicate Shape(nodes: seq<Node>) {
    && ROOTINO < |nodes| && nodes[0] == FREE && Linked(nodes[ROOTINO])
    && (forall i :: 0 <= i < |nodes| && nodes[i].kind == 0 ==> nodes[i] == FREE)
    && (forall d :: 0 <= d < |nodes| && nodes[d].kind == T_DIR ==> DirShape(nodes, d))
  }

  ghost predicate DirShape(nodes: seq<Node>, d: nat)
    requires d < |nodes|
  {
    if Linked(nodes[d]) then DirOk(nodes, d) else Retired(nodes, d)
  }

  /** An inode's link count is the number of entries that name it. */
  ghost predicate Counted(nodes: seq<Node>) {
    forall i: nat :: 0 < i < |nodes| ==> nodes[i].nlink == |Refs(nodes, i)|
  }

  /** Each linked directory but the root has one entry that names it apart from dots, in the directory that its ".."
      names. */
  ghost predicate Parents(nodes: seq<Node>) {
    && ROOTINO < |nodes| && |nodes[ROOTINO].entries| > 1 && nodes[ROOTINO].entries[1].inum == ROOTINO
    && (forall c: nat, d: nat, k: nat {:trigger RefAt(nodes, c, d, k)} ::
          RefAt(nodes, c, d, k) && 1 < k && c < |nodes| && nodes[c].kind == T_DIR ==>
          c != ROOTINO && 1 < |nodes[c].entries| && nodes[c].entries[1].inum == d)
    && (forall c: nat, d: nat, k: nat, k': nat {:trigger RefAt(nodes, c, d, k), RefAt(nodes, c, d, k')} ::
          RefAt(nodes, c, d, k) && RefAt(nodes, c, d, k') && 1 < k && 1 < k' && c < |nodes| && nodes[c].kind == T_DIR ==> k == k')
    && (forall c: nat :: c < |nodes| && Linked(nodes[c]) && c != ROOTINO ==> Placed(nodes, c))
  }

  ghost predicate Placed(nodes: seq<Node>, c: nat) {
    exists d: nat, k: nat :: 1 < k && RefAt(nodes, c, d, k)
  }

  /** n steps along ".." lead to the root, if not fewer. */
  ghost predicate Up(nodes: seq<Node>, c: nat, n: nat)
    decreases n
  {
    c == ROOTINO || (0 < n && c < |nodes| && 1 < |nodes[c].entries| && Up(nodes, nodes[c].entries[1].inum, n - 1))
  }

  ghost predicate Leads(nodes: seq<Node>, c: nat) {
    exists n: nat :: Up(nodes, c, n)
  }

  ghost predicate Rooted(nodes: seq<Node>) {
    forall c: nat :: c < |nodes| && Linked(nodes[c]) ==> Leads(nodes, c)
  }

  /** Directories form a tree: each but the root is in its parent, and following parents leads to the root. */
  ghost predicate Tree(nodes: seq<Node>) {
    Parents(nodes) && Rooted(nodes)
  }

  /** Linked directories keep their "..". */
  ghost predicate KeepsDotDots(nodes: seq<Node>, now: seq<Node>) {
    && |now| == |nodes|
    && forall j :: 0 <= j < |nodes| && Linked(nodes[j]) && 1 < |nodes[j].entries| ==>
         1 < |now[j].entries| && now[j].entries[1].inum == nodes[j].entries[1].inum
  }

  /** The parent of a linked directory is one. */
  lemma LinkedParent(nodes: seq<Node>, c: nat)
    requires Parents(nodes) && c < |nodes| && Linked(nodes[c]) && c != ROOTINO
    ensures 1 < |nodes[c].entries| && nodes[c].entries[1].inum < |nodes| && Linked(nodes[nodes[c].entries[1].inum])
  {
    assert Placed(nodes, c);
  }

  lemma {:induction false} UpStays(nodes: seq<Node>, now: seq<Node>, c: nat, n: nat)
    requires Parents(nodes) && KeepsDotDots(nodes, now) && c < |nodes| && Linked(nodes[c]) && Up(nodes, c, n)
    ensures Up(now, c, n)
    decreases n
  {
    hide Parents;
    if c != ROOTINO {
      LinkedParent(nodes, c);
      UpStays(nodes, now, nodes[c].entries[1].inum, n - 1);
    }
  }

  lemma LeadsStays(nodes: seq<Node>, now: seq<Node>, c: nat)
    requires Parents(nodes) && Rooted(nodes) && KeepsDotDots(nodes, now) && c < |nodes| && Linked(nodes[c])
    ensures Leads(now, c)
  {
    hide Parents;
    assert Leads(nodes, c);
    var n: nat :| Up(nodes, c, n);
    UpStays(nodes, now, c, n);
  }

  lemma RootedStays(nodes: seq<Node>, now: seq<Node>)
    requires Tree(nodes) && KeepsDotDots(nodes, now) && forall j :: 0 <= j < |nodes| && Linked(now[j]) ==> Linked(nodes[j])
    ensures Rooted(now)
  {
    hide Parents, Leads;
    forall c: nat | c < |now| && Linked(now[c]) ensures Leads(now, c) {
      LeadsStays(nodes, now, c);
    }
  }

  lemma RootedGrows(nodes: seq<Node>, now: seq<Node>, i: nat, d: nat)
    requires Tree(nodes) && KeepsDotDots(nodes, now) && forall j :: 0 <= j < |nodes| && j != i && Linked(now[j]) ==> Linked(nodes[j])
    requires i < |nodes| && d < |nodes| && Linked(nodes[d]) && 1 < |now[i].entries| && now[i].entries[1].inum == d
    ensures Rooted(now)
  {
    hide Parents;
    LeadsStays(nodes, now, d);
    var n: nat :| Up(now, d, n);
    assert Up(now, i, n + 1);
    forall c: nat | c < |now| && Linked(now[c]) && c != i ensures Leads(now, c) {
      LeadsStays(nodes, now, c);
    }
  }

  ghost predicate Good(nodes: seq<Node>) {
    Shape(nodes) && Counted(nodes) && Tree(nodes)
  }

  // ---- one more name ----

  /** In `now` the entries that name inodes are those in `nodes` and entry k of d, which names i. */
  ghost predicate OneMore(nodes: seq<Node>, now: seq<Node>, i: nat, d: nat, k: nat) {
    && |now| == |nodes| && !RefAt(nodes, i, d, k)
    && forall j: nat, d': nat, k': nat {:trigger RefAt(now, j, d', k')} {:trigger RefAt(nodes, j, d', k')} ::
         0 < j ==> (RefAt(now, j, d', k') <==> RefAt(nodes, j, d', k') || (j == i && d' == d && k' == k))
  }

  lemma OneMoreRefs(nodes: seq<Node>, now: seq<Node>, i: nat, d: nat, k: nat, j: nat)
    requires OneMore(nodes, now, i, d, k) && 0 < j
    ensures |Refs(now, j)| == |Refs(nodes, j)| + if j == i then 1 else 0
  {
    if j == i {
      RefsMore(nodes, now, i, d, k);
    } else {
      RefsSame(nodes, now, j);
    }
  }

  ghost predicate SameButLinks(nodes: seq<Node>, now: seq<Node>, i: nat) {
    && |now| == |nodes|
    && (forall j :: 0 <= j < |nodes| ==> now[j].kind == nodes[j].kind)
    && (forall j :: 0 <= j < |nodes| && j != i ==> now[j].nlink == nodes[j].nlink)
  }

  /** A file gains a name (from `nodes` to `now`) or loses one (from `now` to `nodes`). */
  lemma FileCounted(nodes: seq<Node>, now: seq<Node>, i: nat, d: nat, k: nat)
    requires OneMore(nodes, now, i, d, k) && SameButLinks(nodes, now, i) && 0 < i < |nodes|
    requires now[i].nlink == nodes[i].nlink + 1
    ensures Counted(nodes) <==> Counted(now)
  {
    forall j: nat | 0 < j < |nodes|
      ensures nodes[j].nlink == |Refs(nodes, j)| <==> now[j].nlink == |Refs(now, j)|
    {
      OneMoreRefs(nodes, now, i, d, k, j);
    }
  }

  /** Directories keep their ".." and their linkedness. */
  ghost predicate SameDirs(nodes: seq<Node>, now: seq<Node>) {
    && |now| == |nodes|
    && (forall j :: 0 <= j < |nodes| ==> (Linked(now[j]) <==> Linked(nodes[j])))
    && (forall j :: 0 <= j < |nodes| && 1 < |nodes[j].entries| ==>
          1 < |now[j].entries| && now[j].entries[1].inum == nodes[j].entries[1].inum)
    && (forall j :: 0 <= j < |nodes| && 1 < |now[j].entries| ==> 1 < |nodes[j].entries|)
  }

  lemma FileTree(nodes: seq<Node>, now: seq<Node>, i: nat, d: nat, k: nat)
    requires OneMore(nodes, now, i, d, k) && SameButLinks(nodes, now, i) && SameDirs(nodes, now) && 0 < i < |nodes|
    requires nodes[i].kind != T_DIR && nodes[0].kind == 0
    ensures Tree(nodes) <==> Tree(now)
  {
    hide RefAt, Tree;
    if Tree(nodes) {
      TreeTransfer(nodes, now);
    }
    if Tree(now) {
      TreeTransfer(now, nodes);
    }
  }

  /** Entries that name directories are the same. */
  ghost predicate SameDirRefs(nodes: seq<Node>, now: seq<Node>) {
    forall c: nat, d: nat, k: nat {:trigger RefAt(now, c, d, k)} {:trigger RefAt(nodes, c, d, k)} ::
      c < |nodes| && nodes[c].kind == T_DIR ==> (RefAt(now, c, d, k) <==> RefAt(nodes, c, d, k))
  }

  lemma TreeTransfer(nodes: seq<Node>, now: seq<Node>)
    requires Tree(nodes) && SameDirs(nodes, now) && SameDirRefs(nodes, now)
    requires forall j :: 0 <= j < |nodes| ==> now[j].kind == nodes[j].kind
    ensures Tree(now)
  {
    hide RefAt, Rooted;
    RootedStays(nodes, now);
    forall c: nat | c < |now| && Linked(now[c]) && c != ROOTINO ensures Placed(now, c) {
      assert Placed(nodes, c);
      var d, k :| 1 < k && RefAt(nodes, c, d, k);
      assert RefAt(now, c, d, k);
    }
  }

  // ---- one more directory ----

  /** In `now` there is one linked directory more, i: named by entry k of d, and with d as its "..". */
  ghost predicate OneMoreDir(nodes: seq<Node>, now: seq<Node>, i: nat, d: nat, k: nat) {
    && |now| == |nodes| && i < |nodes| && d < |nodes| && i != d && 0 < i && 0 < d && 1 < k && !RefAt(nodes, i, d, k)
    && Linked(nodes[d]) && !Linked(nodes[i]) && Linked(now[i])
    && forall j: nat, d': nat, k': nat {:trigger RefAt(now, j, d', k')} {:trigger RefAt(nodes, j, d', k')} ::
         0 < j ==> (RefAt(now, j, d', k') <==>
                    RefAt(nodes, j, d', k') || (j == i && d' == d && k' == k) || (j == d && d' == i && k' == 1))
  }

  lemma DirRefs(nodes: seq<Node>, now: seq<Node>, i: nat, d: nat, k: nat, j: nat)
    requires OneMoreDir(nodes, now, i, d, k) && 0 < j
    ensures |Refs(now, j)| == |Refs(nodes, j)| + if j == i || j == d then 1 else 0
  {
    if j == i {
      RefsMore(nodes, now, i, d, k);
    } else if j == d {
      RefsMore(nodes, now, d, i, 1);
    } else {
      RefsSame(nodes, now, j);
    }
  }

  lemma DirCounted(nodes: seq<Node>, now: seq<Node>, i: nat, d: nat, k: nat)
    requires OneMoreDir(nodes, now, i, d, k)
    requires forall j :: 0 <= j < |nodes| ==> now[j].nlink == nodes[j].nlink + if j == i || j == d then 1 else 0
    ensures Counted(nodes) <==> Counted(now)
  {
    forall j: nat | 0 < j < |nodes|
      ensures nodes[j].nlink == |Refs(nodes, j)| <==> now[j].nlink == |Refs(now, j)|
    {
      DirRefs(nodes, now, i, d, k, j);
    }
  }

  lemma DirTreeGrows(nodes: seq<Node>, now: seq<Node>, i: nat, d: nat, k: nat)
    requires OneMoreDir(nodes, now, i, d, k) && Tree(nodes) && Refs(nodes, i) == {} && SameKinds(nodes, now)
    requires SameDotDots(nodes, now, i) && Linked(nodes[ROOTINO]) && |now[i].entries| == 2 && now[i].entries[1].inum == d
    requires nodes[0].kind == 0
    ensures Tree(now)
  {
    hide RefAt, Refs, Rooted;
    RootedGrows(nodes, now, i, d);
    assert forall d': nat, k': nat {:trigger RefAt(nodes, i, d', k')} :: !RefAt(nodes, i, d', k') by {
      forall d': nat, k': nat ensures !RefAt(nodes, i, d', k') {
        RefsAre(nodes, i, d', k');
      }
    }
    assert i != ROOTINO;
    forall c: nat | c < |now| && Linked(now[c]) && c != ROOTINO ensures Placed(now, c) {
      if c == i {
        assert RefAt(now, i, d, k);
      } else {
        var d', k' :| 1 < k' && RefAt(nodes, c, d', k');
        assert RefAt(now, c, d', k');
      }
    }
    DotDotRoot(nodes, now, i);
  }

  ghost predicate SameKinds(nodes: seq<Node>, now: seq<Node>) {
    |now| == |nodes| && forall j :: 0 <= j < |nodes| ==> now[j].kind == nodes[j].kind
  }

  /** All but i keep their ".." and their linkedness. */
  ghost predicate SameDotDots(nodes: seq<Node>, now: seq<Node>, i: nat) {
    && |now| == |nodes|
    && (forall j :: 0 <= j < |nodes| && j != i ==> (Linked(now[j]) <==> Linked(nodes[j])))
    && (forall j :: 0 <= j < |nodes| && j != i ==>
          (1 < |nodes[j].entries| <==> 1 < |now[j].entries|) &&
          (1 < |nodes[j].entries| ==> now[j].entries[1].inum == nodes[j].entries[1].inum))
  }

  lemma DotDotRoot(nodes: seq<Node>, now: seq<Node>, i: nat)
    requires SameDotDots(nodes, now, i) && Tree(nodes) && i != ROOTINO
    ensures ROOTINO < |now| && |now[ROOTINO].entries| > 1 && now[ROOTINO].entries[1].inum == ROOTINO
  {
  }

  lemma DirTreeShrinks(nodes: seq<Node>, now: seq<Node>, i: nat, d: nat, k: nat)
    requires OneMoreDir(nodes, now, i, d, k) && Tree(now) && SameKinds(nodes, now) && SameDotDots(nodes, now, i)
    requires i != ROOTINO && nodes[i].entries == now[i].entries && nodes[0].kind == 0
    ensures Tree(nodes)
  {
    hide RefAt, Rooted;
    RootedStays(now, nodes);
    forall c: nat | c < |nodes| && Linked(nodes[c]) && c != ROOTINO ensures Placed(nodes, c) {
      assert Placed(now, c);
      var d', k' :| 1 < k' && RefAt(now, c, d', k');
      assert RefAt(nodes, c, d', k');
    }
  }

  /** Nothing but the one entry names a directory that is empty. */
  lemma OnlyName(nodes: seq<Node>, i: nat, d: nat, k: nat)
    requires Good(nodes) && 0 < i < |nodes| && nodes[i].kind == T_DIR && Empty(nodes[i].entries)
    requires RefAt(nodes, i, d, k) && 1 < k
    ensures Refs(nodes, i) == {(d, k)} && nodes[i].nlink == 1 && i != ROOTINO
  {
    hide RefAt, Tree, Shape, Refs;
    OnlyNameAt(nodes, i, d, k, d, k);
    forall d': nat, k': nat | RefAt(nodes, i, d', k') ensures d' == d && k' == k {
      OnlyNameAt(nodes, i, d, k, d', k');
    }
    RefsAre(nodes, i, d, k);
    forall x | x in Refs(nodes, i) ensures x == (d, k) {
      RefsAre(nodes, i, x.0, x.1);
    }
  }

  lemma OnlyNameAt(nodes: seq<Node>, i: nat, d: nat, k: nat, d': nat, k': nat)
    requires Shape(nodes) && Tree(nodes) && 0 < i < |nodes| && nodes[i].kind == T_DIR && Empty(nodes[i].entries)
    requires RefAt(nodes, i, d, k) && 1 < k && RefAt(nodes, i, d', k')
    ensures d' == d && k' == k && i != ROOTINO
  {
    DotDotElsewhere(nodes, i, d');
  }

  /** No linked directory but the root has an empty directory for its parent. */
  lemma DotDotElsewhere(nodes: seq<Node>, i: nat, d: nat)
    requires Shape(nodes) && Tree(nodes) && i < |nodes| && i != ROOTINO && Empty(nodes[i].entries) && d < |nodes| && Linked(nodes[d])
    ensures 1 < |nodes[d].entries| && nodes[d].entries[1].inum != i
  {
    hide Key;
    DirOkOf(nodes, d);
    if d != ROOTINO {
      ParentHas(nodes, d);
    }
  }

  lemma DirOkOf(nodes: seq<Node>, d: nat)
    requires Shape(nodes) && d < |nodes| && Linked(nodes[d])
    ensures DirOk(nodes, d) && 0 < d
  {
  }

  /** The directory that ".." names has an entry for it. */
  lemma ParentHas(nodes: seq<Node>, d: nat)
    requires Shape(nodes) && Tree(nodes) && 0 < d < |nodes| && Linked(nodes[d]) && d != ROOTINO
    ensures 1 < |nodes[d].entries| && nodes[d].entries[1].inum < |nodes| && !Empty(nodes[nodes[d].entries[1].inum].entries)
  {
    hide DirOk, Shape;
    assert Placed(nodes, d);
    var d2: nat, k2: nat :| 1 < k2 && RefAt(nodes, d, d2, k2);
    assert nodes[d].entries[1].inum == d2;
    assert nodes[d2].entries[k2].inum == d;
  }

  // ---- the operations ----

  function PutEntry(es: seq<Dirent>, k: nat, e: Dirent): (r: seq<Dirent>)
    requires k <= |es|
  {
    if k < |es| then es[k := e] else es + [e]
  }

  /** Entry k of directory d is free, and no entry of d has the name. */
  ghost predicate Vacant(nodes: seq<Node>, d: nat, k: nat, name: seq<char>) {
    && d < |nodes| && Linked(nodes[d]) && k <= |nodes[d].entries|
    && (k < |nodes[d].entries| ==> nodes[d].entries[k].inum == 0)
    && forall j :: 0 <= j < |nodes[d].entries| && nodes[d].entries[j].inum != 0 ==>
         NameOf(nodes[d].entries[j]) != Key(name, DIRSIZ)
  }

  lemma VacantSlot(nodes: seq<Node>, d: nat, k: nat, name: seq<char>)
    requires Shape(nodes) && Vacant(nodes, d, k, name)
    ensures 1 < k && d != 0 && DirOk(nodes, d)
  {
    assert DirOk(nodes, d);
    assert nodes[0] == FREE;
  }

  function AddName(nodes: seq<Node>, d: nat, k: nat, name: seq<char>, i: nat): (now: seq<Node>)
    requires d < |nodes| && i < |nodes| && i != d && k <= |nodes[d].entries|
  {
    nodes[d := nodes[d].(entries := PutEntry(nodes[d].entries, k, Dirent(i, name)))][i := nodes[i].(nlink := nodes[i].nlink + 1)]
  }

  lemma DirOkFrame(nodes: seq<Node>, now: seq<Node>, d: nat)
    requires |now| == |nodes| && d < |nodes| && DirOk(nodes, d) && now[d].entries == nodes[d].entries
    requires forall j :: 0 <= j < |nodes| && nodes[j].kind != 0 ==> now[j].kind != 0
    ensures DirOk(now, d)
  {
  }

  lemma DirShapeFrame(nodes: seq<Node>, now: seq<Node>, d: nat)
    requires |now| == |nodes| && d < |nodes| && DirShape(nodes, d) && now[d].entries == nodes[d].entries
    requires Linked(now[d]) <==> Linked(nodes[d])
    requires forall j :: 0 <= j < |nodes| && nodes[j].kind != 0 ==> now[j].kind != 0
    ensures DirShape(now, d)
  {
    hide Key;
    if Linked(nodes[d]) {
      DirOkFrame(nodes, now, d);
    }
  }

  lemma DirOkPut(nodes: seq<Node>, now: seq<Node>, d: nat, k: nat, e: Dirent)
    requires |now| == |nodes| && d < |nodes| && DirOk(nodes, d) && 1 < k <= |nodes[d].entries|
    requires now[d].entries == PutEntry(nodes[d].entries, k, e) && |e.name| == DIRSIZ
    requires e.inum < |nodes| && (e.inum != 0 ==> now[e.inum].kind != 0)
    requires e.inum == 0 || forall j :: 0 <= j < |nodes[d].entries| && nodes[d].entries[j].inum != 0 ==> NameOf(nodes[d].entries[j]) != NameOf(e)
    requires forall j :: 0 <= j < |nodes| && nodes[j].kind != 0 ==> now[j].kind != 0
    ensures DirOk(now, d)
  {
    hide Key;
  }

  /** Putting an entry in a free place makes one name more. */
  lemma PutOneMore(nodes: seq<Node>, now: seq<Node>, i: nat, d: nat, k: nat, name: seq<char>)
    requires |now| == |nodes| && d < |nodes| && Linked(nodes[d]) && 0 < k <= |nodes[d].entries| && 0 < i
    requires k < |nodes[d].entries| ==> nodes[d].entries[k].inum == 0
    requires now[d].entries == PutEntry(nodes[d].entries, k, Dirent(i, name))
    requires forall j :: 0 <= j < |nodes| ==> (Linked(now[j]) <==> Linked(nodes[j]))
    requires forall j :: 0 <= j < |nodes| && j != d ==> now[j].entries == nodes[j].entries
    ensures OneMore(nodes, now, i, d, k)
  {
  }

  lemma AddNameKeeps(nodes: seq<Node>, d: nat, k: nat, name: seq<char>, i: nat)
    requires Good(nodes) && Vacant(nodes, d, k, name) && |name| == DIRSIZ
    requires 0 < i < |nodes| && nodes[i].kind != 0 && nodes[i].kind != T_DIR
    ensures i != d && Good(AddName(nodes, d, k, name, i))
  {
    hide RefAt, Refs, Counted, Tree, DirOk, OneMore, Key;
    VacantSlot(nodes, d, k, name);
    var now := AddName(nodes, d, k, name, i);
    PutOneMore(nodes, now, i, d, k, name);
    FileCounted(nodes, now, i, d, k);
    FileTree(nodes, now, i, d, k);
    forall c | 0 <= c < |now| && now[c].kind == T_DIR ensures DirShape(now, c) {
      if c == d {
        DirOkPut(nodes, now, d, k, Dirent(i, name));
      } else {
        DirShapeFrame(nodes, now, c);
      }
    }
  }

  /** Counts stay right exactly if the directory is still linked, which create() and sys_link() do not look at. */
  lemma LinkedParentIff(nodes: seq<Node>, d: nat, k: nat, name: seq<char>, i: nat)
    requires Good(nodes) && d < |nodes| && nodes[d].kind == T_DIR && k <= |nodes[d].entries|
    requires k < |nodes[d].entries| ==> nodes[d].entries[k].inum == 0
    requires 0 < i < |nodes| && nodes[i].kind != T_DIR
    ensures Counted(AddName(nodes, d, k, name, i)) <==> Linked(nodes[d])
  {
    hide RefAt, Refs, Tree, OneMore;
    var now := AddName(nodes, d, k, name, i);
    if Linked(nodes[d]) {
      DirOkOf(nodes, d);
      PutOneMore(nodes, now, i, d, k, name);
      FileCounted(nodes, now, i, d, k);
    } else {
      UnlinkedSame(nodes, now, i, d);
      assert now[i].nlink == nodes[i].nlink + 1;
    }
  }

  lemma UnlinkedSame(nodes: seq<Node>, now: seq<Node>, i: nat, d: nat)
    requires |now| == |nodes| && d < |nodes| && !Linked(nodes[d]) && !Linked(now[d])
    requires forall j :: 0 <= j < |nodes| && j != d ==> now[j].entries == nodes[j].entries && (Linked(now[j]) <==> Linked(nodes[j]))
    ensures Refs(now, i) == Refs(nodes, i)
  {
    RefsSame(nodes, now, i);
  }

  lemma NoNames(nodes: seq<Node>, i: nat)
    requires Counted(nodes) && 0 < i < |nodes| && nodes[i].nlink == 0
    ensures Refs(nodes, i) == {}
  {
  }

  /** A directory i with entries "." and "..", named by entry k of d. */
  function AddDir(nodes: seq<Node>, d: nat, k: nat, name: seq<char>, i: nat, dots: seq<Dirent>): (now: seq<Node>)
    requires d < |nodes| && i < |nodes| && i != d && k <= |nodes[d].entries|
  {
    nodes[i := Node(T_DIR, 1, dots)]
         [d := Node(nodes[d].kind, nodes[d].nlink + 1, PutEntry(nodes[d].entries, k, Dirent(i, name)))]
  }

  ghost predicate Dots(dots: seq<Dirent>, i: nat, d: nat) {
    && |dots| == 2 && dots[0].inum == i && dots[1].inum == d && NameOf(dots[0]) == "." && NameOf(dots[1]) == ".."
    && |dots[0].name| == |dots[1].name| == DIRSIZ
  }

  lemma PutOneMoreDir(nodes: seq<Node>, now: seq<Node>, i: nat, d: nat, k: nat, name: seq<char>)
    requires |now| == |nodes| && i < |nodes| && d < |nodes| && i != d && 0 < i && 0 < d
    requires Linked(nodes[d]) && 1 < k <= |nodes[d].entries|
    requires k < |nodes[d].entries| ==> nodes[d].entries[k].inum == 0
    requires now[d].entries == PutEntry(nodes[d].entries, k, Dirent(i, name))
    requires !Linked(nodes[i]) && Linked(now[i]) && Empty(now[i].entries) && 1 < |now[i].entries| && now[i].entries[1].inum == d
    requires forall j :: 0 <= j < |nodes| && j != i ==> (Linked(now[j]) <==> Linked(nodes[j]))
    requires forall j :: 0 <= j < |nodes| && j != d && j != i ==> now[j].entries == nodes[j].entries
    ensures OneMoreDir(nodes, now, i, d, k)
  {
  }

  lemma AddDirKeeps(nodes: seq<Node>, d: nat, k: nat, name: seq<char>, i: nat, dots: seq<Dirent>)
    requires Good(nodes) && Vacant(nodes, d, k, name) && |name| == DIRSIZ
    requires 0 < i < |nodes| && nodes[i] == Node(T_DIR, 0, []) && Dots(dots, i, d)
    ensures i != d && Good(AddDir(nodes, d, k, name, i, dots))
  {
    hide RefAt, Refs, Counted, Tree, DirOk, OneMoreDir, Key;
    VacantSlot(nodes, d, k, name);
    var now := AddDir(nodes, d, k, name, i, dots);
    NoNames(nodes, i);
    PutOneMoreDir(nodes, now, i, d, k, name);
    DirCounted(nodes, now, i, d, k);
    DirTreeGrows(nodes, now, i, d, k);
    forall c | 0 <= c < |now| && now[c].kind == T_DIR ensures DirShape(now, c) {
      if c == d {
        DirOkPut(nodes, now, d, k, Dirent(i, name));
      } else if c == i {
        NewDirOk(now, i, d);
      } else {
        DirShapeFrame(nodes, now, c);
      }
    }
  }

  /** The same for a new directory. Its ".." makes the unlinked parent count as linked again, and that brings back a
      name that the parent's own ".." has given up. */
  lemma LinkedParentIffDir(nodes: seq<Node>, d: nat, k: nat, name: seq<char>, i: nat, dots: seq<Dirent>)
    requires Good(nodes) && d < |nodes| && nodes[d].kind == T_DIR && k <= |nodes[d].entries|
    requires k < |nodes[d].entries| ==> nodes[d].entries[k].inum == 0
    requires 0 < i < |nodes| && i != d && nodes[i] == Node(T_DIR, 0, []) && Dots(dots, i, d)
    ensures Counted(AddDir(nodes, d, k, name, i, dots)) <==> Linked(nodes[d])
  {
    hide RefAt, Refs, Tree, OneMoreDir, Key;
    var now := AddDir(nodes, d, k, name, i, dots);
    if Linked(nodes[d]) {
      DirOkOf(nodes, d);
      PutOneMoreDir(nodes, now, i, d, k, name);
      DirCounted(nodes, now, i, d, k);
    } else {
      NoNames(nodes, i);
      if nodes[d].entries == [] {
        NoNamesStill(nodes, now, i, d);
      } else {
        TooManyNames(nodes, d, k, name, i, dots);
      }
    }
  }

  /** A name in the place of "." is no name. */
  lemma NoNamesStill(nodes: seq<Node>, now: seq<Node>, i: nat, d: nat)
    requires |now| == |nodes| && d < |nodes| && i < |nodes| && Refs(nodes, i) == {} && |now[d].entries| <= 1 && i != d
    requires now[i].entries != [] ==> |now[i].entries| == 2 && now[i].entries[1].inum == d
    requires forall j :: 0 <= j < |nodes| && j != d && j != i ==> now[j] == nodes[j]
    ensures Refs(now, i) == {}
  {
    forall d': nat, k': nat ensures !RefAt(now, i, d', k') {
      RefsAre(nodes, i, d', k');
    }
    forall x | x in Refs(now, i) ensures false {
      RefsAre(now, i, x.0, x.1);
    }
  }

  lemma TooManyNames(nodes: seq<Node>, d: nat, k: nat, name: seq<char>, i: nat, dots: seq<Dirent>)
    requires Counted(nodes) && d < |nodes| && nodes[d].kind == T_DIR && nodes[d].nlink <= 0 && Retired(nodes, d) && 1 < k <= |nodes[d].entries|
    requires 0 < i < |nodes| && 0 < d && i != d && nodes[i] == Node(T_DIR, 0, []) && Dots(dots, i, d)
    ensures !Counted(AddDir(nodes, d, k, name, i, dots))
  {
    hide Refs, Key;
    var now, g := AddDir(nodes, d, k, name, i, dots), nodes[d].entries[1].inum;
    assert nodes[d].nlink == |Refs(nodes, d)| == 0;
    assert RefAt(now, g, d, 1);
    RefsAre(now, g, d, 1);
    if g == i {
      assert RefAt(now, i, d, k);
      RefsAre(now, i, d, k);
      TwoElements(Refs(now, i), (d, 1), (d, k));
    } else if g == d {
      assert RefAt(now, d, i, 1);
      RefsAre(now, d, i, 1);
      TwoElements(Refs(now, d), (d, 1), (i, 1));
    } else {
      MoreNames(nodes, now, g, d);
    }
  }

  lemma MoreNames(nodes: seq<Node>, now: seq<Node>, g: nat, d: nat)
    requires |now| == |nodes| && d < |nodes| && !Linked(nodes[d]) && RefAt(now, g, d, 1)
    requires forall j :: 0 <= j < |nodes| && j != d && Linked(nodes[j]) ==> now[j] == nodes[j]
    ensures |Refs(now, g)| > |Refs(nodes, g)|
  {
    forall x | x in Refs(nodes, g) + {(d, 1)} ensures x in Refs(now, g) {
      RefsAre(nodes, g, x.0, x.1);
      RefsAre(now, g, x.0, x.1);
    }
    RefsAre(nodes, g, d, 1);
    SubsetSize(Refs(nodes, g) + {(d, 1)}, Refs(now, g));
  }

  lemma NewDirOk(now: seq<Node>, i: nat, d: nat)
    requires 0 < i < |now| && 0 < d < |now| && now[i].kind != 0 && now[d].kind != 0 && Dots(now[i].entries, i, d)
    ensures DirOk(now, i)
  {
    hide Key;
    assert "." != "..";
  }

  function DropName(nodes: seq<Node>, d: nat, k: nat): (now: seq<Node>)
    requires d < |nodes| && k < |nodes[d].entries| && nodes[d].entries[k].inum < |nodes|
  {
    var i := nodes[d].entries[k].inum;
    var es := nodes[d].entries[k := Dirent(0, seq(DIRSIZ, _ => NUL))];
    var parent := nodes[d].(entries := es);
    var kept := nodes[d := if nodes[i].kind == T_DIR then parent.(nlink := parent.nlink - 1) else parent];
    kept[i := kept[i].(nlink := kept[i].nlink - 1)]
  }

  lemma DropFileKeeps(nodes: seq<Node>, d: nat, k: nat)
    requires Good(nodes) && d < |nodes| && Linked(nodes[d]) && 1 < k < |nodes[d].entries| && nodes[d].entries[k].inum < |nodes|
    requires nodes[d].entries[k].inum != 0 && nodes[nodes[d].entries[k].inum].kind != T_DIR
    ensures Good(DropName(nodes, d, k))
  {
    hide RefAt, Refs, Counted, Tree, DirOk, OneMore, Key;
    var i, name := nodes[d].entries[k].inum, nodes[d].entries[k].name;
    var now := DropName(nodes, d, k);
    PutOneMore(now, nodes, i, d, k, name);
    FileCounted(now, nodes, i, d, k);
    FileTree(now, nodes, i, d, k);
    EntryKind(nodes, d, k);
    forall c | 0 <= c < |now| && now[c].kind == T_DIR ensures DirShape(now, c) {
      if c == d {
        DirOkPut(nodes, now, d, k, Dirent(0, seq(DIRSIZ, _ => NUL)));
      } else {
        DirShapeFrame(nodes, now, c);
      }
    }
  }

  lemma EntryKind(nodes: seq<Node>, d: nat, k: nat)
    requires Shape(nodes) && d < |nodes| && Linked(nodes[d]) && k < |nodes[d].entries| && nodes[d].entries[k].inum != 0
    ensures nodes[d].entries[k].inum < |nodes| && nodes[nodes[d].entries[k].inum].kind != 0 && d != 0
    ensures 1 < |nodes[d].entries| && DirOk(nodes, d)
  {
    assert DirOk(nodes, d);
  }

  lemma DropDirKeeps(nodes: seq<Node>, d: nat, k: nat)
    requires Good(nodes) && d < |nodes| && Linked(nodes[d]) && 1 < k < |nodes[d].entries| && nodes[d].entries[k].inum < |nodes|
    requires var i := nodes[d].entries[k].inum; i != 0 && nodes[i].kind == T_DIR && Empty(nodes[i].entries)
    ensures Good(DropName(nodes, d, k)) && DropName(nodes, d, k)[nodes[d].entries[k].inum].nlink == 0
  {
    hide Refs, Counted, DirOk, OneMoreDir, Key, Tree;
    var i, name := nodes[d].entries[k].inum, nodes[d].entries[k].name;
    assert i != d;
    assert RefAt(nodes, i, d, k);
    OnlyName(nodes, i, d, k);
    EntryKind(nodes, d, k);
    DotDotIs(nodes, i, d, k);
    TwoLinks(nodes, i, d);
    var now := DropName(nodes, d, k);
    PutOneMoreDir(now, nodes, i, d, k, name);
    DirCounted(now, nodes, i, d, k);
    DirTreeShrinks(now, nodes, i, d, k);
    forall c | 0 <= c < |now| && now[c].kind == T_DIR ensures DirShape(now, c) {
      if c == d {
        DirOkPut(nodes, now, d, k, Dirent(0, seq(DIRSIZ, _ => NUL)));
      } else if c == i {
        RetiredNow(nodes, now, i);
      } else {
        DirShapeFrame(nodes, now, c);
      }
    }
  }

  lemma RetiredNow(nodes: seq<Node>, now: seq<Node>, i: nat)
    requires |now| == |nodes| && i < |nodes| && DirOk(nodes, i) && Empty(nodes[i].entries) && now[i].entries == nodes[i].entries
    requires !Linked(now[i])
    ensures DirShape(now, i)
  {
    hide Key;
  }

  lemma DotDotIs(nodes: seq<Node>, i: nat, d: nat, k: nat)
    requires Good(nodes) && RefAt(nodes, i, d, k) && 1 < k && 0 < i < |nodes| && nodes[i].kind == T_DIR
    ensures 1 < |nodes[i].entries| && nodes[i].entries[1].inum == d
  {
  }

  /** The parent of a directory has a name besides the directory's "..". */
  lemma TwoLinks(nodes: seq<Node>, i: nat, d: nat)
    requires Good(nodes) && 0 < i < |nodes| && Linked(nodes[i]) && i != d && RefAt(nodes, d, i, 1) && 0 < d < |nodes| && Linked(nodes[d])
    ensures nodes[d].nlink >= 2
  {
    RefsAre(nodes, d, i, 1);
    if d == ROOTINO {
      RefsAre(nodes, d, d, 1);
      TwoElements(Refs(nodes, d), (i, 1), (d, 1));
    } else {
      assert Placed(nodes, d);
      var d', k' :| 1 < k' && RefAt(nodes, d, d', k');
      RefsAre(nodes, d, d', k');
      TwoElements(Refs(nodes, d), (i, 1), (d', k'));
    }
  }

  lemma TwoElements(s: set<(nat, nat)>, a: (nat, nat), b: (nat, nat))
    requires a in s && b in s && a != b
    ensures |s| >= 2
  {
    assert |s - {a}| == |s| - 1 && b in s - {a};
  }

  /** ialloc() of an inode that is free. */
  lemma AllocKeeps(nodes: seq<Node>, i: nat, kind: nat)
    requires Good(nodes) && 0 < i < |nodes| && nodes[i].kind == 0 && kind != 0
    ensures Good(nodes[i := Node(kind, 0, [])])
  {
    hide Refs, DirOk, Key;
    var now := nodes[i := Node(kind, 0, [])];
    forall j: nat ensures Refs(now, j) == Refs(nodes, j) {
      RefsSame(nodes, now, j);
    }
    forall c | 0 <= c < |now| && now[c].kind == T_DIR ensures DirShape(now, c) {
      if c != i {
        DirShapeFrame(nodes, now, c);
      }
    }
    TreeSame(nodes, now);
  }

  lemma TreeSame(nodes: seq<Node>, now: seq<Node>)
    requires Tree(nodes) && |now| == |nodes| && nodes[0].kind == 0 && Linked(nodes[ROOTINO])
    requires forall j :: 0 <= j < |nodes| ==> now[j] == nodes[j] || (!Linked(now[j]) && !Linked(nodes[j]) && Refs(nodes, j) == {})
    ensures Tree(now)
  {
    hide Rooted;
    RootedStays(nodes, now);
    forall j: nat, d: nat, k: nat ensures RefAt(now, j, d, k) <==> RefAt(nodes, j, d, k) {
    }
    forall c: nat, d: nat, k: nat | RefAt(now, c, d, k) && c < |nodes| ensures now[c] == nodes[c] {
      RefsAre(nodes, c, d, k);
    }
    forall c: nat | c < |now| && Linked(now[c]) && c != ROOTINO ensures Placed(now, c) {
      assert Placed(nodes, c);
      var d, k :| 1 < k && RefAt(nodes, c, d, k);
      assert RefAt(now, c, d, k);
    }
  }

  /** iput() frees an inode only when no entry names it, so nothing else is disturbed. */
  lemma FreeKeeps(nodes: seq<Node>, i: nat)
    requires Good(nodes) && 0 < i < |nodes| && nodes[i].nlink == 0
    ensures Good(nodes[i := FREE]) && forall d: nat, k: nat :: !RefAt(nodes, i, d, k)
  {
    hide Refs, Key;
    NoNames(nodes, i);
    forall d: nat, k: nat ensures !RefAt(nodes, i, d, k) {
      RefsAre(nodes, i, d, k);
    }
    var now := nodes[i := FREE];
    forall j: nat ensures Refs(now, j) == Refs(nodes, j) {
      RefsSame(nodes, now, j);
    }
    forall c | 0 <= c < |now| && now[c].kind == T_DIR ensures DirShape(now, c) {
      if Linked(nodes[c]) {
        DirOkFreed(nodes, c, i);
      }
    }
    TreeSame(nodes, now);
  }

  lemma DirOkFreed(nodes: seq<Node>, d: nat, i: nat)
    requires d < |nodes| && DirOk(nodes, d) && Linked(nodes[d]) && i < |nodes| && i != d
    requires forall k: nat :: !RefAt(nodes, i, d, k)
    ensures DirOk(nodes[i := FREE], d)
  {
    var now := nodes[i := FREE];
    forall k: nat | k < |now[d].entries| && now[d].entries[k].inum != 0 ensures now[now[d].entries[k].inum].kind != 0 {
      assert !RefAt(nodes, i, d, k);
    }
  }
}
