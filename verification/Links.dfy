/** The operations of kernel/sysfile.c and kernel/fs.c that make and remove names, each taken as one transaction. */
module Links {
  import opened Names
  import opened LinkCounts

  /** An inode is in use as long as an entry names it or a reference is held, and one that has lost its last name
      has its link count read in. Counts fit a short. */
  ghost predicate InUse(nodes: seq<Node>, refs: seq<nat>, valid: seq<bool>) {
    && |refs| == |valid| == |nodes|
    && (forall i :: 0 < i < |nodes| ==> (nodes[i].kind != 0 <==> 0 < nodes[i].nlink || 0 < refs[i]))
    && (forall i :: 0 < i < |nodes| && nodes[i].kind != 0 && nodes[i].nlink == 0 ==> valid[i])
    && (forall i :: 0 <= i < |nodes| ==> 0 <= nodes[i].nlink <= SHORT_MAX)
  }

  /** The first free entry, or the end. */
  function FreeSlot(es: seq<Dirent>): (k: nat)
    ensures k <= |es| && (k < |es| ==> es[k].inum == 0) && forall j :: 0 <= j < k ==> es[j].inum != 0
  {
    if es == [] || es[0].inum == 0 then 0 else 1 + FreeSlot(es[1..])
  }

  lemma FreeSlotIs(es: seq<Dirent>, k: nat)
    requires k <= |es| && (k < |es| ==> es[k].inum == 0) && forall j :: 0 <= j < k ==> es[j].inum != 0
    ensures FreeSlot(es) == k
  {
  }

  ghost predicate Has(es: seq<Dirent>, name: seq<char>) {
    exists k :: 0 <= k < |es| && es[k].inum != 0 && NameOf(es[k]) == Key(name, DIRSIZ)
  }

  ghost predicate Named(es: seq<Dirent>) {
    forall k :: 0 <= k < |es| ==> |es[k].name| == DIRSIZ
  }

  function WithEntries(nodes: seq<Node>, d: nat, es: seq<Dirent>): (now: seq<Node>)
    requires d < |nodes|
  {
    nodes[d := nodes[d].(entries := es)]
  }

  class Inodes {
    var nodes: seq<Node>
    /** References held in memory, and whether the inode has been read in. */
    var refs: seq<nat>
    var valid: seq<bool>

    ghost predicate Valid()
      reads this
    {
      Good(nodes) && InUse(nodes, refs, valid)
    }

    method Dirlookup(d: nat, name: seq<char>) returns (k: int)
      requires d < |nodes| && Named(nodes[d].entries) && Readable(name, DIRSIZ)
      ensures -1 <= k < |nodes[d].entries| && (k == -1 <==> !Has(nodes[d].entries, name))
      ensures 0 <= k ==> nodes[d].entries[k].inum != 0 && NameOf(nodes[d].entries[k]) == Key(name, DIRSIZ)
    {
      hide Key;
      var es := nodes[d].entries;
      for off := 0 to |es|
        invariant forall j :: 0 <= j < off && es[j].inum != 0 ==> NameOf(es[j]) != Key(name, DIRSIZ)
      {
        if es[off].inum != 0 {
          var c := Strncmp(name, es[off].name, DIRSIZ);
          if c == 0 {
            return off;
          }
        }
      }
      return -1;
    }

    /** room says whether writei can write the entry. */
    method Dirlink(d: nat, name: seq<char>, inum: nat, room: bool) returns (ok: bool)
      requires d < |nodes| && Named(nodes[d].entries) && Readable(name, DIRSIZ)
      modifies `nodes
      ensures ok <==> !Has(old(nodes)[d].entries, name) && room
      ensures !ok ==> nodes == old(nodes)
      ensures ok ==>
                var es := old(nodes)[d].entries;
                nodes == WithEntries(old(nodes), d, PutEntry(es, FreeSlot(es), Dirent(inum, Padded(name, DIRSIZ))))
    {
      hide Key, Padded;
      var found := Dirlookup(d, name);
      if found != -1 {
        return false;
      }
      var es := nodes[d].entries;
      var off := 0;
      while off < |es| && es[off].inum != 0
        invariant off <= |es| && forall j :: 0 <= j < off ==> es[j].inum != 0
      {
        off := off + 1;
      }
      FreeSlotIs(es, off);
      var nm := Strncpy(name, DIRSIZ);
      if !room {
        return false;
      }
      nodes := WithEntries(nodes, d, PutEntry(es, off, Dirent(inum, nm)));
      return true;
    }

    method IsDirEmpty(d: nat) returns (b: bool)
      requires d < |nodes|
      ensures b <==> Empty(nodes[d].entries)
    {
      var off := 2;
      while off < |nodes[d].entries|
        invariant 2 <= off && forall k :: 2 <= k < off && k < |nodes[d].entries| ==> nodes[d].entries[k].inum == 0
      {
        if nodes[d].entries[off].inum != 0 {
          return false;
        }
        off := off + 1;
      }
      return true;
    }

    method Iget(i: nat)
      requires |refs| == |valid| && i < |refs|
      modifies `refs, `valid
      ensures refs == old(refs)[i := old(refs)[i] + 1]
      ensures valid == if old(refs)[i] == 0 then old(valid)[i := false] else old(valid)
    {
      if refs[i] == 0 {
        valid := valid[i := false];
      }
      refs := refs[i := refs[i] + 1];
    }

    method Ilock(i: nat)
      requires |refs| == |valid| == |nodes| && i < |refs| && 0 < refs[i] && nodes[i].kind != 0
      modifies `valid
      ensures valid == old(valid)[i := true]
    {
      valid := valid[i := true];
    }

    method Iput(i: nat)
      requires |refs| == |valid| == |nodes| && i < |refs| && 0 < refs[i]
      modifies `nodes, `refs, `valid
      ensures refs == old(refs)[i := old(refs)[i] - 1]
      ensures var freed := old(refs)[i] == 1 && old(valid)[i] && old(nodes)[i].nlink == 0;
              && nodes == (if freed then old(nodes)[i := FREE] else old(nodes))
              && valid == (if freed then old(valid)[i := false] else old(valid))
    {
      if refs[i] == 1 && valid[i] && nodes[i].nlink == 0 {
        nodes := nodes[i := nodes[i].(entries := [])];
        nodes := nodes[i := nodes[i].(kind := 0)];
        valid := valid[i := false];
      }
      refs := refs[i := refs[i] - 1];
    }

    /** iput() by the holder of a reference: the inode goes away exactly if it was the last and no entry names it. */
    method Release(i: nat)
      requires Valid() && 0 < i < |nodes| && i < |refs| && 0 < refs[i]
      modifies this
      ensures Valid() && refs == old(refs)[i := old(refs)[i] - 1]
      ensures var freed := old(refs)[i] == 1 && Refs(old(nodes), i) == {};
              nodes == if freed then old(nodes)[i := FREE] else old(nodes)
    {
      hide Good, InUse, Refs;
      Sizes(nodes, refs, valid, i);
      Nameless(nodes, refs, valid, i);
      ReleaseKeeps(nodes, refs, valid, i);
      Iput(i);
    }

    method Ialloc(kind: nat) returns (i: nat)
      requires |refs| == |valid| == |nodes| && kind != 0
      modifies `nodes, `refs, `valid
      ensures i == 0 ==> nodes == old(nodes) && refs == old(refs) && valid == old(valid)
      ensures i == 0 <==> forall j :: 0 < j < |old(nodes)| ==> old(nodes)[j].kind != 0
      ensures i != 0 ==> i < |old(nodes)| && old(nodes)[i].kind == 0 && nodes == old(nodes)[i := Node(kind, 0, [])]
      ensures forall j :: 0 < j < i ==> old(nodes)[j].kind != 0
      ensures i != 0 ==> refs == old(refs)[i := old(refs)[i] + 1] && |valid| == |old(valid)|
      ensures i != 0 ==> forall j :: 0 <= j < |valid| && j != i ==> valid[j] == old(valid)[j]
    {
      var inum := 1;
      while inum < |nodes|
        invariant 1 <= inum && forall j :: 0 < j < inum && j < |nodes| ==> nodes[j].kind != 0
      {
        if nodes[inum].kind == 0 {
          nodes := nodes[inum := Node(kind, 0, [])];
          Iget(inum);
          return inum;
        }
        inum := inum + 1;
      }
      return 0;
    }

    /** sys_link() of the inode ip as name in directory dp; either is 0 if its path was not found. */
    method Link(ip: nat, dp: nat, name: seq<char>, room: bool) returns (ok: bool)
      requires Valid() && Readable(name, DIRSIZ) && ip < |nodes| && dp < |nodes|
      requires ip != 0 ==> nodes[ip].kind != 0 && nodes[ip].nlink < SHORT_MAX
      requires dp != 0 ==> nodes[dp].kind == T_DIR
      modifies this
      ensures InUse(nodes, refs, valid) && refs == old(refs)
      ensures Good(nodes) <==> (ok ==> Linked(old(nodes)[dp]))
      ensures ok <==> ip != 0 && dp != 0 && old(nodes)[ip].kind != T_DIR && !Has(old(nodes)[dp].entries, name) && room
      ensures !ok ==> nodes == old(nodes)
      ensures ok ==> ip != dp && nodes == AddName(old(nodes), dp, FreeSlot(old(nodes)[dp].entries), Padded(name, DIRSIZ), ip)
    {
      hide Good, Key, Has, Padded, InUse, FreeSlot, AddName;
      if ip == 0 {
        return false;
      }
      Sizes(nodes, refs, valid, ip);
      Iget(ip);
      Ilock(ip);
      assert refs == old(refs)[ip := old(refs)[ip] + 1] && valid == old(valid)[ip := true];
      if nodes[ip].kind == T_DIR {
        Iput(ip);
        assert refs == old(refs);
        InUseLocked(nodes, refs, old(valid), valid);
        return false;
      }
      nodes := nodes[ip := nodes[ip].(nlink := nodes[ip].nlink + 1)];
      ok := false;
      if dp != 0 {
        NamedDir(old(nodes), dp);
        Sizes(old(nodes), old(refs), old(valid), dp);
        ok := LinkIn(dp, name, ip, room);
      }
      assert refs == old(refs)[ip := old(refs)[ip] + 1];
      if !ok {
        nodes := nodes[ip := nodes[ip].(nlink := nodes[ip].nlink - 1)];
        assert nodes == old(nodes);
      } else {
        AddIff(old(nodes), dp, name, ip);
        AddIs(old(nodes), dp, FreeSlot(old(nodes)[dp].entries), Padded(name, DIRSIZ), ip);
        InUseAdd(old(nodes), refs, old(refs), old(valid), dp, FreeSlot(old(nodes)[dp].entries), Padded(name, DIRSIZ), ip);
      }
      Iput(ip);
      assert refs == old(refs);
      InUseLocked(nodes, refs, old(valid), valid);
    }

    /** The part of sys_link() that holds the directory's lock. */
    method LinkIn(dp: nat, name: seq<char>, ip: nat, room: bool) returns (ok: bool)
      requires |refs| == |valid| == |nodes| && dp < |nodes| && nodes[dp].kind == T_DIR && Named(nodes[dp].entries)
      requires Readable(name, DIRSIZ) && (0 < nodes[dp].nlink || 0 < refs[dp])
      modifies this
      ensures refs == old(refs) && valid == old(valid)[dp := true]
      ensures ok <==> !Has(old(nodes)[dp].entries, name) && room
      ensures !ok ==> nodes == old(nodes)
      ensures ok ==>
                var es := old(nodes)[dp].entries;
                nodes == WithEntries(old(nodes), dp, PutEntry(es, FreeSlot(es), Dirent(ip, Padded(name, DIRSIZ))))
    {
      hide Key, Has, Padded, FreeSlot;
      Iget(dp);
      Ilock(dp);
      ok := Dirlink(dp, name, ip, room);
      Iput(dp);
      assert refs == old(refs);
    }

    /** sys_unlink() of name in directory dp, which is 0 if its path was not found. */
    method Unlink(dp: nat, name: seq<char>) returns (ok: bool)
      requires Valid() && Readable(name, DIRSIZ) && dp < |nodes| && (dp != 0 ==> nodes[dp].kind == T_DIR)
      modifies this
      ensures Valid() && refs == old(refs)
      ensures ok <==> dp != 0 && Key(name, DIRSIZ) !in {".", ".."} && exists k: nat :: Removable(old(nodes), dp, name, k)
      ensures !ok ==> nodes == old(nodes)
      ensures ok ==> exists k: nat :: Removable(old(nodes), dp, name, k) && Dropped(old(nodes), old(refs), nodes, dp, k)
    {
      hide Good, Key, Has, InUse, Removable, Dropped, DropName, Named;
      if dp == 0 {
        return false;
      }
      Sizes(nodes, refs, valid, dp);
      NamedDir(nodes, dp);
      if !Linked(nodes[dp]) && Has(nodes[dp].entries, name) {
        OnlyDots(nodes, dp, name);
      }
      DotKeys();
      Iget(dp);
      Ilock(dp);
      ghost var r, v := refs, valid;
      assert r == old(refs)[dp := old(refs)[dp] + 1] && v == old(valid)[dp := true];
      var dot := Strncmp(name, DOT, DIRSIZ);
      var dotdot := Strncmp(name, DOTDOT, DIRSIZ);
      var k := Dirlookup(dp, name);
      if dot == 0 || dotdot == 0 || k == -1 {
        NotFound(nodes, dp, name);
        Iput(dp);
        assert refs == old(refs);
        InUseLocked(nodes, refs, old(valid), valid);
        return false;
      }
      TheEntry(nodes, dp, name, k);
      var i := nodes[dp].entries[k].inum;
      if nodes[i].kind == T_DIR ==> Empty(nodes[i].entries) {
        DropKeeps(nodes, dp, name, k);
      }
      ok := UnlinkEntry(dp, k, i);
      assert refs == old(refs);
      if ok {
        DroppedKeeps(old(nodes), old(refs), old(valid), nodes, valid, dp, name, k);
      } else {
        InUseLocked(nodes, refs, old(valid), valid);
      }
    }

    /** sys_unlink() once the entry is found. */
    method UnlinkEntry(dp: nat, k: nat, i: nat) returns (ok: bool)
      requires |refs| == |valid| == |nodes| && dp < |nodes| && k < |nodes[dp].entries| && i == nodes[dp].entries[k].inum < |nodes|
      requires 0 < refs[dp] && valid[dp] && Linked(nodes[dp]) && nodes[i].kind != 0
      // sys_unlink panics on a link count below 1.
      requires 1 <= nodes[i].nlink
      requires nodes[i].kind == T_DIR && Empty(nodes[i].entries) ==> i != dp && 2 <= nodes[dp].nlink
      modifies this
      ensures ok <==> (old(nodes)[i].kind == T_DIR ==> Empty(old(nodes)[i].entries))
      ensures refs == old(refs)[dp := old(refs)[dp] - 1]
      ensures !ok ==> nodes == old(nodes) && valid == old(valid)[i := true]
      ensures ok ==>
                && i != dp
                && var now := DropName(old(nodes), dp, k);
                var freed := old(refs)[i] == 0 && now[i].nlink == 0;
                && nodes == (if freed then now[i := FREE] else now)
                && valid == old(valid)[i := !freed]
    {
      Iget(i);
      Ilock(i);
      ok := true;
      if nodes[i].kind == T_DIR {
        ok := IsDirEmpty(i);
      }
      if !ok {
        Iput(i);
        Iput(dp);
        assert refs == old(refs)[dp := old(refs)[dp] - 1];
        return;
      }
      Remove(dp, k, i);
      assert refs == old(refs)[dp := old(refs)[dp] - 1];
    }

    /** The rest of sys_unlink(), with both inodes locked and held. */
    method Remove(dp: nat, k: nat, i: nat)
      requires |refs| == |valid| == |nodes| && dp < |nodes| && k < |nodes[dp].entries| && i == nodes[dp].entries[k].inum < |nodes|
      requires i != dp && 0 < refs[dp] && 0 < refs[i] && valid[i] && valid[dp] && 1 <= nodes[i].nlink && 1 <= nodes[dp].nlink
      requires nodes[i].kind == T_DIR ==> 2 <= nodes[dp].nlink
      modifies this
      ensures refs == old(refs)[dp := old(refs)[dp] - 1][i := old(refs)[i] - 1]
      ensures var now := DropName(old(nodes), dp, k);
              var freed := old(refs)[i] == 1 && now[i].nlink == 0;
              && nodes == (if freed then now[i := FREE] else now)
              && valid == (if freed then old(valid)[i := false] else old(valid))
    {
      nodes := WithEntries(nodes, dp, nodes[dp].entries[k := Dirent(0, seq(DIRSIZ, _ => NUL))]);
      if nodes[i].kind == T_DIR {
        nodes := nodes[dp := nodes[dp].(nlink := nodes[dp].nlink - 1)];
      }
      Iput(dp);
      nodes := nodes[i := nodes[i].(nlink := nodes[i].nlink - 1)];
      assert nodes == DropName(old(nodes), dp, k);
      Iput(i);
    }

    /** Gives the new inode its link, its dots if it is a directory, and its name; room says which entries fit. */
    method Populate(dp: nat, name: seq<char>, ip: nat, kind: nat, room: seq<bool>) returns (ok: bool)
      requires dp < |nodes| && ip < |nodes| && ip != dp && ip != 0 && dp != 0 && |room| == 3 && Readable(name, DIRSIZ)
      requires Named(nodes[dp].entries) && !Has(nodes[dp].entries, name) && nodes[ip] == Node(kind, 0, [])
      modifies `nodes
      ensures ok <==> room[2] && (kind == T_DIR ==> room[0] && room[1])
      ensures ok ==> nodes == Populated(old(nodes), dp, name, ip)
      ensures |nodes| == |old(nodes)| && (!ok ==> nodes == old(nodes)[ip := Node(kind, 1, nodes[ip].entries)])
    {
      hide Key, Padded, Has, FreeSlot, Readable;
      nodes := nodes[ip := nodes[ip].(nlink := 1)];
      if kind == T_DIR {
        ok := PutDots(dp, ip, room);
        if !ok {
          return;
        }
      }
      ok := Dirlink(dp, name, ip, room[2]);
      if !ok {
        return;
      }
      if kind == T_DIR {
        nodes := nodes[dp := nodes[dp].(nlink := nodes[dp].nlink + 1)];
      }
      assert nodes == Populated(old(nodes), dp, name, ip);
    }

    method PutDots(dp: nat, ip: nat, room: seq<bool>) returns (ok: bool)
      requires ip < |nodes| && ip != 0 && nodes[ip].entries == [] && |room| == 3
      modifies `nodes
      ensures ok <==> room[0] && room[1]
      ensures ok ==> nodes == WithEntries(old(nodes), ip, DotsOf(ip, dp))
      ensures |nodes| == |old(nodes)| && (!ok ==> nodes == WithEntries(old(nodes), ip, nodes[ip].entries))
    {
      hide Key, Padded;
      DotKeys();
      ok := Dirlink(ip, DOT, ip, room[0]);
      if !ok {
        return;
      }
      PaddedKey(DOT, DIRSIZ);
      assert nodes[ip].entries == [Dirent(ip, Padded(DOT, DIRSIZ))];
      FreeSlotIs(nodes[ip].entries, 1);
      ok := Dirlink(ip, DOTDOT, dp, room[1]);
      assert ok ==> nodes[ip].entries == DotsOf(ip, dp);
    }

    /** create(): the inode that name in dp is for, made if need be; 0 if it cannot be had. */
    method Create(dp: nat, name: seq<char>, kind: nat, room: seq<bool>) returns (ip: nat)
      requires Valid() && Readable(name, DIRSIZ) && dp < |nodes| && |room| == 3
      // ilock panics on a free inode, which ".." of an unlinked directory may name.
      requires dp != 0 ==> nodes[dp].kind == T_DIR && Live(nodes, dp, name)
      requires kind in {T_DIR, T_FILE, T_DEVICE} && (kind == T_DIR ==> nodes[dp].nlink < SHORT_MAX)
      modifies this
      ensures InUse(nodes, refs, valid) && ip < |old(nodes)|
      ensures Good(nodes) <==> ip == 0 || Has(old(nodes)[dp].entries, name) || Linked(old(nodes)[dp])
      ensures ip == 0 ==> nodes == old(nodes) && refs == old(refs)
      ensures ip != 0 ==> dp != 0 && refs == old(refs)[ip := old(refs)[ip] + 1]
      ensures ip != 0 && Has(old(nodes)[dp].entries, name) ==> nodes == old(nodes) && Openable(nodes, dp, name, kind, ip)
      ensures ip != 0 && !Has(old(nodes)[dp].entries, name) ==>
                && old(nodes)[ip].kind == 0 && ip != dp
                && nodes == Populated(old(nodes)[ip := Node(kind, 0, [])], dp, name, ip)
      ensures ip == 0 && dp != 0 && Has(old(nodes)[dp].entries, name) ==> forall i: nat :: !Openable(old(nodes), dp, name, kind, i)
      ensures dp != 0 && !Has(old(nodes)[dp].entries, name) ==>
                (ip == 0 <==> (|| (forall j :: 0 < j < |old(nodes)| ==> old(nodes)[j].kind != 0)
                               || !room[2] || (kind == T_DIR && !(room[0] && room[1]))))
    {
      hide Good, Key, Has, InUse, Openable, Populated, Readable;
      if dp == 0 {
        return 0;
      }
      Sizes(nodes, refs, valid, dp);
      NamedDir(nodes, dp);
      Iget(dp);
      Ilock(dp);
      assert refs == old(refs)[dp := old(refs)[dp] + 1] && valid == old(valid)[dp := true];
      var k := Dirlookup(dp, name);
      if k != -1 {
        ip := Existing(dp, name, kind, k, old(refs), old(valid));
        return;
      }
      ip := Make(dp, name, kind, room, old(refs), old(valid));
    }

    /** create() when the name does not exist: dp is held and locked, and let go. */
    method Make(dp: nat, name: seq<char>, kind: nat, room: seq<bool>, ghost refs0: seq<nat>, ghost valid0: seq<bool>) returns (ip: nat)
      requires Good(nodes) && InUse(nodes, refs0, valid0) && 0 < dp < |nodes| && nodes[dp].kind == T_DIR && |refs0| == |valid0| == |nodes|
      requires refs == refs0[dp := refs0[dp] + 1] && valid == valid0[dp := true] && |room| == 3 && Readable(name, DIRSIZ)
      requires Named(nodes[dp].entries) && !Has(nodes[dp].entries, name) && kind != 0 && (kind == T_DIR ==> nodes[dp].nlink < SHORT_MAX)
      modifies this
      ensures InUse(nodes, refs, valid) && ip < |old(nodes)| && (Good(nodes) <==> ip == 0 || Linked(old(nodes)[dp]))
      ensures ip == 0 ==> nodes == old(nodes) && refs == refs0
      ensures ip != 0 ==> refs == refs0[ip := refs0[ip] + 1] && old(nodes)[ip].kind == 0 && ip != dp
      ensures ip != 0 ==> nodes == Populated(old(nodes)[ip := Node(kind, 0, [])], dp, name, ip)
      ensures ip == 0 <==> (|| (forall j :: 0 < j < |old(nodes)| ==> old(nodes)[j].kind != 0)
                            || !room[2] || (kind == T_DIR && !(room[0] && room[1])))
    {
      hide Good, Key, Has, InUse, Populated, Readable, Named;
      Sizes(nodes, refs0, valid0, dp);
      ip := Ialloc(kind);
      if ip == 0 {
        Iput(dp);
        assert refs == refs0;
        InUseLocked(nodes, refs, valid0, valid);
        return;
      }
      Sizes(old(nodes), refs0, valid0, ip);
      BlankNode(old(nodes), ip);
      Ilock(ip);
      assert refs[ip] == 1 && refs0[ip] == 0;
      var ok := Populate(dp, name, ip, kind, room);
      if ok {
        PopulatedIff(old(nodes), dp, name, ip, kind);
        PopulatedInUse(old(nodes), refs0, valid0, dp, name, ip, kind, refs0[ip := 1], valid);
        PopulatedDir(old(nodes)[ip := Node(kind, 0, [])], dp, name, ip);
        Iput(dp);
        assert refs == refs0[ip := 1];
      } else {
        Abandon(dp, ip);
        assert nodes == old(nodes) && refs == refs0;
        InUseLocked(nodes, refs, valid0, valid);
        ip := 0;
      }
    }

    /** create() when an entry does not fit: the new inode goes back. */
    method Abandon(dp: nat, ip: nat)
      requires |refs| == |valid| == |nodes| && dp < |nodes| && ip < |nodes| && dp != ip
      requires refs[ip] == 1 && valid[ip] && 0 < refs[dp] && (0 < nodes[dp].nlink || 1 < refs[dp])
      modifies this
      ensures nodes == old(nodes)[ip := FREE] && refs == old(refs)[ip := 0][dp := old(refs)[dp] - 1]
      ensures valid == old(valid)[ip := false]
    {
      nodes := nodes[ip := nodes[ip].(nlink := 0)];
      Iput(ip);
      Iput(dp);
      assert nodes == old(nodes)[ip := FREE];
    }

    /** create() when the name exists: dp is held and locked, and let go. */
    method Existing(dp: nat, name: seq<char>, kind: nat, k: nat, ghost refs0: seq<nat>, ghost valid0: seq<bool>) returns (ip: nat)
      requires Good(nodes) && InUse(nodes, refs0, valid0) && 0 < dp < |nodes| && nodes[dp].kind == T_DIR && |refs0| == |valid0| == |nodes|
      requires refs == refs0[dp := refs0[dp] + 1] && valid == valid0[dp := true] && Live(nodes, dp, name)
      requires k < |nodes[dp].entries| && nodes[dp].entries[k].inum != 0 && NameOf(nodes[dp].entries[k]) == Key(name, DIRSIZ)
      modifies this
      ensures Valid() && nodes == old(nodes) && ip < |nodes|
      ensures ip == 0 ==> refs == refs0 && forall i: nat :: !Openable(nodes, dp, name, kind, i)
      ensures ip != 0 ==> refs == refs0[ip := refs0[ip] + 1] && Openable(nodes, dp, name, kind, ip)
    {
      hide Good, Key, InUse, Openable;
      EntryAt(nodes, dp, name, kind, k);
      Sizes(nodes, refs0, valid0, dp);
      Sizes(nodes, refs0, valid0, nodes[dp].entries[k].inum);
      var i := nodes[dp].entries[k].inum;
      Iget(i);
      Iput(dp);
      Ilock(i);
      if kind == T_FILE && (nodes[i].kind == T_FILE || nodes[i].kind == T_DEVICE) {
        assert refs == refs0[i := refs0[i] + 1];
        InUseMore(nodes, refs0, valid0, i, valid);
        return i;
      }
      Iput(i);
      assert refs == refs0;
      InUseLocked(nodes, refs, valid0, valid);
      return 0;
    }
  }

  // ---- create ----

  function DotsOf(ip: nat, dp: nat): (dots: seq<Dirent>) {
    [Dirent(ip, Padded(DOT, DIRSIZ)), Dirent(dp, Padded(DOTDOT, DIRSIZ))]
  }

  /** The inodes once the blank inode ip has got its name in dp, and its dots if it is a directory. */
  function Populated(nodes: seq<Node>, dp: nat, name: seq<char>, ip: nat): (now: seq<Node>)
    requires dp < |nodes| && ip < |nodes| && ip != dp
    ensures |now| == |nodes|
  {
    var k, nm := FreeSlot(nodes[dp].entries), Padded(name, DIRSIZ);
    if nodes[ip].kind == T_DIR then AddDir(nodes, dp, k, nm, ip, DotsOf(ip, dp)) else AddName(nodes, dp, k, nm, ip)
  }

  /** The name is for inode i, a file or device, and a file was asked for. */
  ghost predicate Openable(nodes: seq<Node>, dp: nat, name: seq<char>, kind: nat, i: nat) {
    && kind == T_FILE && 0 < i < |nodes| && dp < |nodes| && nodes[i].kind in {T_FILE, T_DEVICE}
    && exists k: nat :: k < |nodes[dp].entries| && nodes[dp].entries[k].inum == i && NameOf(nodes[dp].entries[k]) == Key(name, DIRSIZ)
  }

  // ---- which names there are ----

  /** In directory d the name `key` is for inode i. */
  ghost predicate Finds(nodes: seq<Node>, d: nat, key: string, i: nat) {
    d < |nodes| && i != 0 && exists k :: 0 <= k < |nodes[d].entries| && nodes[d].entries[k].inum == i && NameOf(nodes[d].entries[k]) == key
  }

  lemma PutFinds(nodes: seq<Node>, now: seq<Node>, d: nat, name: seq<char>, i: nat, c: nat, key: string, j: nat)
    requires |now| == |nodes| && d < |nodes| && i != 0 && c < |nodes|
    requires now[d].entries == PutEntry(nodes[d].entries, FreeSlot(nodes[d].entries), Dirent(i, Padded(name, DIRSIZ)))
    requires c != d ==> now[c].entries == nodes[c].entries
    ensures Finds(now, c, key, j) <==> Finds(nodes, c, key, j) || (c == d && key == Key(name, DIRSIZ) && j == i)
  {
    hide Key, Padded;
    PaddedKey(name, DIRSIZ);
    var es, es', f := nodes[c].entries, now[c].entries, FreeSlot(nodes[d].entries);
    if c == d {
      assert es'[f] == Dirent(i, Padded(name, DIRSIZ));
      if Finds(nodes, c, key, j) {
        var k :| 0 <= k < |es| && es[k].inum == j && NameOf(es[k]) == key;
        assert es'[k] == es[k];
      }
    }
  }

  /** After sys_link() there is one more name: the new one, for the inode. */
  lemma LinkFinds(nodes: seq<Node>, dp: nat, name: seq<char>, ip: nat, c: nat, key: string, j: nat)
    requires dp < |nodes| && 0 < ip < |nodes| && ip != dp && c < |nodes|
    ensures Finds(AddName(nodes, dp, FreeSlot(nodes[dp].entries), Padded(name, DIRSIZ), ip), c, key, j) <==>
            Finds(nodes, c, key, j) || (c == dp && key == Key(name, DIRSIZ) && j == ip)
  {
    hide Key, Padded, Finds;
    PutFinds(nodes, AddName(nodes, dp, FreeSlot(nodes[dp].entries), Padded(name, DIRSIZ), ip), dp, name, ip, c, key, j);
  }

  /** After create() there is the new name, for the new inode, and if that is a directory its "." and "..". */
  lemma CreateFinds(nodes: seq<Node>, dp: nat, name: seq<char>, ip: nat, kind: nat, c: nat, key: string, j: nat)
    requires 0 < dp < |nodes| && 0 < ip < |nodes| && ip != dp && c < |nodes| && nodes[ip] == FREE
    ensures Finds(Populated(nodes[ip := Node(kind, 0, [])], dp, name, ip), c, key, j) <==>
            || Finds(nodes, c, key, j) || (c == dp && key == Key(name, DIRSIZ) && j == ip)
            || (kind == T_DIR && c == ip && ((key == "." && j == ip) || (key == ".." && j == dp)))
  {
    hide Key, Padded, FreeSlot;
    var blank := nodes[ip := Node(kind, 0, [])];
    var now := Populated(blank, dp, name, ip);
    assert Finds(blank, c, key, j) <==> Finds(nodes, c, key, j);
    if kind != T_DIR {
      LinkFinds(blank, dp, name, ip, c, key, j);
    } else if c == ip {
      DotsAre(ip, dp);
      assert now[ip].entries == DotsOf(ip, dp);
      assert Finds(now, c, key, j) <==> (j == ip && key == ".") || (j == dp && key == "..") by {
        var es := now[ip].entries;
        assert es[0].inum == ip && NameOf(es[0]) == "." && es[1].inum == dp && NameOf(es[1]) == "..";
      }
    } else {
      PutFinds(blank, now, dp, name, ip, c, key, j);
    }
  }

  /** After sys_unlink() the name is gone, and with the inode, if it is freed, the names in it. */
  lemma UnlinkFinds(nodes: seq<Node>, refs: seq<nat>, now: seq<Node>, dp: nat, name: seq<char>, k: nat, c: nat, key: string, j: nat)
    requires dp < |nodes| && UniqueNames(nodes[dp].entries) && c < |nodes|
    requires Removable(nodes, dp, name, k) && Dropped(nodes, refs, now, dp, k) && nodes[dp].entries[k].inum != dp
    ensures var i := nodes[dp].entries[k].inum;
            var freed := refs[i] == 0 && nodes[i].nlink == 1;
            Finds(now, c, key, j) <==> Finds(nodes, c, key, j) && !(c == dp && key == Key(name, DIRSIZ)) && !(freed && c == i)
  {
    hide Key;
    var i, es, es' := nodes[dp].entries[k].inum, nodes[c].entries, now[c].entries;
    if c == dp {
      assert es' == es[k := Dirent(0, seq(DIRSIZ, _ => NUL))];
      if Finds(nodes, c, key, j) && key != Key(name, DIRSIZ) {
        var m :| 0 <= m < |es| && es[m].inum == j && NameOf(es[m]) == key;
        assert es'[m] == es[m];
      }
      if Finds(now, c, key, j) {
        var m :| 0 <= m < |es'| && es'[m].inum == j && NameOf(es'[m]) == key;
        assert m != k && es[m] == es'[m];
      }
    } else {
      assert es' == if c == i && refs[i] == 0 && nodes[i].nlink == 1 then [] else es;
    }
  }

  lemma BlankNode(nodes: seq<Node>, i: nat)
    requires Good(nodes) && i < |nodes| && nodes[i].kind == 0
    ensures nodes[i] == FREE
  {
  }

  lemma DotsAre(ip: nat, dp: nat)
    ensures Dots(DotsOf(ip, dp), ip, dp)
  {
    hide Key, Padded;
    DotKeys();
    PaddedKey(DOT, DIRSIZ);
    PaddedKey(DOTDOT, DIRSIZ);
  }

  /** All is well after create() exactly if the directory was still linked. */
  lemma PopulatedIff(nodes: seq<Node>, dp: nat, name: seq<char>, ip: nat, kind: nat)
    requires Good(nodes) && 0 < dp < |nodes| && nodes[dp].kind == T_DIR && Readable(name, DIRSIZ) && !Has(nodes[dp].entries, name)
    requires 0 < ip < |nodes| && nodes[ip].kind == 0 && ip != dp && kind != 0
    ensures Good(Populated(nodes[ip := Node(kind, 0, [])], dp, name, ip)) <==> Linked(nodes[dp])
  {
    hide Good, Key, Padded, FreeSlot, AddName, AddDir;
    AllocKeeps(nodes, ip, kind);
    var blank := nodes[ip := Node(kind, 0, [])];
    if kind == T_DIR {
      DotsAre(ip, dp);
      LinkedParentIffDir(blank, dp, FreeSlot(blank[dp].entries), Padded(name, DIRSIZ), ip, DotsOf(ip, dp));
      GoodCounted(Populated(blank, dp, name, ip));
      if Linked(nodes[dp]) {
        FreshEntry(blank, dp, name);
        AddDirKeeps(blank, dp, FreeSlot(blank[dp].entries), Padded(name, DIRSIZ), ip, DotsOf(ip, dp));
      }
    } else {
      AddIff(blank, dp, name, ip);
    }
  }

  lemma GoodCounted(nodes: seq<Node>)
    ensures Good(nodes) ==> Counted(nodes)
  {
  }

  lemma PopulatedDir(nodes: seq<Node>, dp: nat, name: seq<char>, ip: nat)
    requires dp < |nodes| && ip < |nodes| && ip != dp
    ensures Populated(nodes, dp, name, ip)[dp].nlink >= nodes[dp].nlink
  {
    hide Key, Padded;
  }

  lemma PopulatedInUse(nodes: seq<Node>, refs: seq<nat>, was: seq<bool>, dp: nat, name: seq<char>, ip: nat, kind: nat,
                       held: seq<nat>, valid: seq<bool>)
    requires InUse(nodes, refs, was) && 0 < dp < |nodes| && 0 < ip < |nodes| && nodes[ip].kind == 0 && ip != dp && kind != 0
    requires nodes[dp].kind == T_DIR && (kind == T_DIR ==> nodes[dp].nlink < SHORT_MAX)
    requires held == refs[ip := 1] && |valid| == |was| && forall j :: 0 <= j < |was| && j != ip && was[j] ==> valid[j]
    ensures InUse(Populated(nodes[ip := Node(kind, 0, [])], dp, name, ip), held, valid)
  {
    hide Key, Padded;
  }

  /** What the name is found to be for is there. */
  ghost predicate Live(nodes: seq<Node>, dp: nat, name: seq<char>)
    requires dp < |nodes|
  {
    var es := nodes[dp].entries;
    forall k :: 0 <= k < |es| && es[k].inum != 0 && NameOf(es[k]) == Key(name, DIRSIZ) ==> es[k].inum < |nodes| && nodes[es[k].inum].kind != 0
  }

  /** It is not exactly if the name is "..", the directory has lost its own, and what its ".." names has been freed. */
  lemma LiveIff(nodes: seq<Node>, dp: nat, name: seq<char>)
    requires Good(nodes) && dp < |nodes| && nodes[dp].kind == T_DIR
    ensures !Live(nodes, dp, name) <==>
            && !Linked(nodes[dp]) && Key(name, DIRSIZ) == ".."
            && 1 < |nodes[dp].entries| && nodes[dp].entries[1].inum < |nodes| && nodes[nodes[dp].entries[1].inum].kind == 0
  {
    hide Key, Tree, Counted;
    assert DirShape(nodes, dp);
    if !Linked(nodes[dp]) && nodes[dp].entries != [] {
      var es := nodes[dp].entries;
      assert NameOf(es[1]) == "..";
      assert forall k :: 0 <= k < |es| && es[k].inum != 0 ==> k == 0 || k == 1;
    }
  }

  lemma EntryAt(nodes: seq<Node>, dp: nat, name: seq<char>, kind: nat, k: nat)
    requires Good(nodes) && 0 < dp < |nodes| && nodes[dp].kind == T_DIR && Live(nodes, dp, name)
    requires k < |nodes[dp].entries| && nodes[dp].entries[k].inum != 0 && NameOf(nodes[dp].entries[k]) == Key(name, DIRSIZ)
    ensures var i := nodes[dp].entries[k].inum;
            && 0 < i < |nodes| && nodes[i].kind != 0
            && forall j: nat :: Openable(nodes, dp, name, kind, j) <==>
                 j == i && kind == T_FILE && nodes[i].kind in {T_FILE, T_DEVICE}
  {
    hide Key, Tree, Counted;
    assert DirShape(nodes, dp);
    assert UniqueNames(nodes[dp].entries);
  }

  lemma InUseMore(nodes: seq<Node>, refs: seq<nat>, was: seq<bool>, i: nat, valid: seq<bool>)
    requires InUse(nodes, refs, was) && i < |nodes| && nodes[i].kind != 0
    requires |valid| == |was| && forall j :: 0 <= j < |was| && was[j] ==> valid[j]
    ensures InUse(nodes, refs[i := refs[i] + 1], valid)
  {
  }

  // ---- unlink ----

  lemma DotKeys()
    ensures Key(DOT, DIRSIZ) == "." && Key(DOTDOT, DIRSIZ) == ".." && Readable(DOT, DIRSIZ) && Readable(DOTDOT, DIRSIZ)
  {
    KeyIs(DOT, DIRSIZ, 1);
    KeyIs(DOTDOT, DIRSIZ, 2);
  }

  /** Entry k of dp has the name, and is for a file or an empty directory. */
  ghost predicate Removable(nodes: seq<Node>, dp: nat, name: seq<char>, k: nat) {
    && dp < |nodes| && k < |nodes[dp].entries| && NameOf(nodes[dp].entries[k]) == Key(name, DIRSIZ)
    && var i := nodes[dp].entries[k].inum;
    0 < i < |nodes| && (nodes[i].kind == T_DIR ==> Empty(nodes[i].entries))
  }

  /** now is nodes without entry k of dp, and without the inode it named if that was its last name and nothing
      refers to it. */
  ghost predicate Dropped(nodes: seq<Node>, refs: seq<nat>, now: seq<Node>, dp: nat, k: nat) {
    && dp < |nodes| == |refs| && k < |nodes[dp].entries| && nodes[dp].entries[k].inum < |nodes|
    && var i, less := nodes[dp].entries[k].inum, DropName(nodes, dp, k);
    now == if refs[i] == 0 && less[i].nlink == 0 then less[i := FREE] else less
  }

  lemma TheEntry(nodes: seq<Node>, dp: nat, name: seq<char>, k: nat)
    requires Good(nodes) && 0 < dp < |nodes| && Linked(nodes[dp]) && k < |nodes[dp].entries|
    requires nodes[dp].entries[k].inum != 0 && NameOf(nodes[dp].entries[k]) == Key(name, DIRSIZ)
    requires Key(name, DIRSIZ) !in {".", ".."}
    ensures var i := nodes[dp].entries[k].inum;
            && 1 < k && 0 < i < |nodes| && nodes[i].kind != 0 && 1 <= nodes[i].nlink
            && (Removable(nodes, dp, name, k) <==> (nodes[i].kind == T_DIR ==> Empty(nodes[i].entries)))
    ensures forall k': nat :: Removable(nodes, dp, name, k') ==> k' == k
  {
    hide Key, Refs, Tree;
    EntryKind(nodes, dp, k);
    var i := nodes[dp].entries[k].inum;
    RefsAre(nodes, i, dp, k);
    forall k': nat | Removable(nodes, dp, name, k') ensures k' == k {
      assert UniqueNames(nodes[dp].entries);
    }
  }

  lemma DropKeeps(nodes: seq<Node>, dp: nat, name: seq<char>, k: nat)
    requires Good(nodes) && 0 < dp < |nodes| && Linked(nodes[dp]) && Removable(nodes, dp, name, k) && 1 < k
    ensures var i := nodes[dp].entries[k].inum;
            && i != dp && Good(DropName(nodes, dp, k))
            && (nodes[i].kind == T_DIR ==> 2 <= nodes[dp].nlink)
  {
    hide Key, Good, DropName;
    var i := nodes[dp].entries[k].inum;
    if nodes[i].kind == T_DIR {
      DropDirKeeps(nodes, dp, k);
      assert i != dp;
      assert RefAt(nodes, i, dp, k);
      ParentLinks(nodes, i, dp, k);
    } else {
      DropFileKeeps(nodes, dp, k);
    }
  }

  lemma ParentLinks(nodes: seq<Node>, i: nat, d: nat, k: nat)
    requires Good(nodes) && RefAt(nodes, i, d, k) && 1 < k && 0 < i < |nodes| && 0 < d && nodes[i].kind == T_DIR && i != d
    ensures 2 <= nodes[d].nlink
  {
    hide Key, Refs, Tree;
    RefsAre(nodes, i, d, k);
    DotDotIs(nodes, i, d, k);
    TwoLinks(nodes, i, d);
  }

  lemma DroppedKeeps(nodes: seq<Node>, refs: seq<nat>, was: seq<bool>, now: seq<Node>, valid: seq<bool>, dp: nat, name: seq<char>, k: nat)
    requires Good(nodes) && InUse(nodes, refs, was) && 0 < dp < |nodes| && Linked(nodes[dp]) && 1 < k
    requires Removable(nodes, dp, name, k) && nodes[nodes[dp].entries[k].inum].nlink >= 1
    requires |valid| == |was|
    requires var i, less := nodes[dp].entries[k].inum, DropName(nodes, dp, k);
             var freed := refs[i] == 0 && less[i].nlink == 0;
             && now == (if freed then less[i := FREE] else less)
             && (!freed ==> valid[i]) && forall j :: 0 <= j < |was| && j != i && was[j] ==> valid[j]
    ensures Good(now) && InUse(now, refs, valid) && Dropped(nodes, refs, now, dp, k)
  {
    hide Key, Good;
    DropKeeps(nodes, dp, name, k);
    var i, less := nodes[dp].entries[k].inum, DropName(nodes, dp, k);
    if refs[i] == 0 && less[i].nlink == 0 {
      FreeKeeps(less, i);
    }
  }

  lemma NotFound(nodes: seq<Node>, dp: nat, name: seq<char>)
    requires dp < |nodes|
    ensures !Has(nodes[dp].entries, name) ==> forall k: nat :: !Removable(nodes, dp, name, k)
  {
  }

  lemma Sizes(nodes: seq<Node>, refs: seq<nat>, valid: seq<bool>, i: nat)
    requires InUse(nodes, refs, valid) && 0 < i < |nodes|
    ensures |refs| == |valid| == |nodes| && (nodes[i].kind != 0 <==> 0 < nodes[i].nlink || 0 < refs[i]) && 0 <= nodes[i].nlink
  {
  }

  lemma Nameless(nodes: seq<Node>, refs: seq<nat>, valid: seq<bool>, i: nat)
    requires Good(nodes) && InUse(nodes, refs, valid) && 0 < i < |nodes| && 0 < refs[i]
    ensures (nodes[i].nlink == 0 <==> Refs(nodes, i) == {}) && (nodes[i].nlink == 0 ==> valid[i])
  {
    hide Refs;
  }

  lemma ReleaseKeeps(nodes: seq<Node>, refs: seq<nat>, valid: seq<bool>, i: nat)
    requires Good(nodes) && InUse(nodes, refs, valid) && 0 < i < |nodes| && 0 < refs[i]
    ensures if refs[i] == 1 && nodes[i].nlink == 0
            then Good(nodes[i := FREE]) && InUse(nodes[i := FREE], refs[i := 0], valid[i := false])
            else InUse(nodes, refs[i := refs[i] - 1], valid)
  {
    hide Good;
    if nodes[i].nlink == 0 {
      FreeKeeps(nodes, i);
    }
  }

  lemma InUseLocked(nodes: seq<Node>, refs: seq<nat>, was: seq<bool>, valid: seq<bool>)
    requires InUse(nodes, refs, was) && |valid| == |was|
    requires forall j :: 0 <= j < |was| && j < |nodes| && nodes[j].kind != 0 && was[j] ==> valid[j]
    ensures InUse(nodes, refs, valid)
  {
  }

  lemma AddIs(nodes: seq<Node>, d: nat, k: nat, name: seq<char>, i: nat)
    requires d < |nodes| && i < |nodes| && i != d && k <= |nodes[d].entries|
    ensures AddName(nodes, d, k, name, i) ==
            WithEntries(nodes[i := nodes[i].(nlink := nodes[i].nlink + 1)], d, PutEntry(nodes[d].entries, k, Dirent(i, name)))
  {
  }

  lemma InUseAdd(nodes: seq<Node>, refs: seq<nat>, was: seq<nat>, valid: seq<bool>, d: nat, k: nat, name: seq<char>, i: nat)
    requires InUse(nodes, was, valid) && d < |nodes| && 0 < i < |nodes| && i != d && k <= |nodes[d].entries|
    requires nodes[i].kind != 0 && nodes[i].nlink < SHORT_MAX && |refs| == |was| && forall j :: 0 <= j < |was| && j != i ==> refs[j] == was[j]
    ensures InUse(AddName(nodes, d, k, name, i), refs, valid) && InUse(AddName(nodes, d, k, name, i), was, valid)
  {
  }

  lemma NamedDir(nodes: seq<Node>, d: nat)
    requires Good(nodes) && d < |nodes| && nodes[d].kind == T_DIR
    ensures Named(nodes[d].entries)
  {
    hide Key, Tree, Counted;
    assert DirShape(nodes, d);
  }

  /** A directory that has lost its name has no entries to unlink. */
  lemma OnlyDots(nodes: seq<Node>, d: nat, name: seq<char>)
    requires Good(nodes) && d < |nodes| && nodes[d].kind == T_DIR && !Linked(nodes[d]) && Has(nodes[d].entries, name)
    ensures Key(name, DIRSIZ) in {".", ".."}
  {
    hide Key, Tree, Counted;
    assert DirShape(nodes, d);
  }

  /** The entry that dirlink() writes in a linked directory is vacant and the name new to it. */
  lemma FreshEntry(nodes: seq<Node>, d: nat, name: seq<char>)
    requires d < |nodes| && Linked(nodes[d]) && Readable(name, DIRSIZ) && !Has(nodes[d].entries, name)
    ensures Vacant(nodes, d, FreeSlot(nodes[d].entries), Padded(name, DIRSIZ))
  {
    hide Key;
    PaddedKey(name, DIRSIZ);
  }

  lemma AddIff(nodes: seq<Node>, d: nat, name: seq<char>, i: nat)
    requires Good(nodes) && d < |nodes| && nodes[d].kind == T_DIR && Readable(name, DIRSIZ) && !Has(nodes[d].entries, name)
    requires 0 < i < |nodes| && nodes[i].kind != 0 && nodes[i].kind != T_DIR
    ensures i != d && (Good(AddName(nodes, d, FreeSlot(nodes[d].entries), Padded(name, DIRSIZ), i)) <==> Linked(nodes[d]))
  {
    hide Good, Key, Padded;
    LinkedParentIff(nodes, d, FreeSlot(nodes[d].entries), Padded(name, DIRSIZ), i);
    GoodCounted(AddName(nodes, d, FreeSlot(nodes[d].entries), Padded(name, DIRSIZ), i));
    if Linked(nodes[d]) {
      FreshEntry(nodes, d, name);
      AddNameKeeps(nodes, d, FreeSlot(nodes[d].entries), Padded(name, DIRSIZ), i);
    }
  }

  // ---- a name in a directory that is gone ----

  const A: seq<char> := ['a', NUL]

  /** A root directory and two free inodes. */
  function Boot(): (nodes: seq<Node>) {
    [FREE, Node(T_DIR, 1, DotsOf(1, 1)), FREE, FREE]
  }

  lemma BootGood()
    ensures Good(Boot()) && InUse(Boot(), [0, 0, 0, 0], [false, false, false, false])
  {
    hide Key, Padded, Refs;
    var nodes := Boot();
    DotsAre(1, 1);
    forall i: nat, d: nat, k: nat ensures RefAt(nodes, i, d, k) <==> i == 1 && d == 1 && k == 1 {
    }
    forall i: nat | 0 < i < |nodes| ensures Refs(nodes, i) == if i == 1 then {(1, 1)} else {} {
      BootRefs(nodes, i);
    }
    NewDirOk(nodes, 1, 1);
    assert DirShape(nodes, 1);
    assert Up(nodes, 1, 0);
  }

  lemma BootRefs(nodes: seq<Node>, i: nat)
    requires forall j: nat, d: nat, k: nat {:trigger RefAt(nodes, j, d, k)} :: RefAt(nodes, j, d, k) <==> j == 1 && d == 1 && k == 1
    ensures Refs(nodes, i) == if i == 1 then {(1, 1)} else {}
  {
    hide RefAt;
    forall x | x in Refs(nodes, i) ensures i == 1 && x == (1, 1) {
      RefsAre(nodes, i, x.0, x.1);
    }
    RefsAre(nodes, i, 1, 1);
  }

  /** A directory d in g, with no entries but its dots and one named a, or none. */
  ghost predicate OnlyA(nodes: seq<Node>, d: nat, g: nat, i: nat) {
    d < |nodes| && nodes[d].kind == T_DIR && nodes[d].entries == DotsOf(d, g) + [Dirent(i, Padded(A, DIRSIZ))]
  }

  lemma NoA(i: nat, d: nat)
    ensures !Has(DotsOf(i, d), A) && Readable(A, DIRSIZ) && Key(A, DIRSIZ) !in {".", ".."}
  {
    hide Key, Padded;
    KeyIs(A, DIRSIZ, 1);
    DotsAre(i, d);
    assert Key(A, DIRSIZ) == ['a'] && ['a'][0] != "."[0] && |".."| == 2;
  }

  /** mkdir a in d: what there is afterwards. */
  lemma Mkdir(nodes: seq<Node>, now: seq<Node>, d: nat, g: nat, i: nat)
    requires d < |nodes| && i < |nodes| && i != d && nodes[d].kind == T_DIR && nodes[d].entries == DotsOf(d, g) && d != 0 && g != 0
    requires now == Populated(nodes[i := Node(T_DIR, 0, [])], d, A, i)
    ensures |now| == |nodes| && OnlyA(now, d, g, i) && now[d].nlink == nodes[d].nlink + 1 && now[i] == Node(T_DIR, 1, DotsOf(i, d))
    ensures forall j :: 0 <= j < |nodes| && j != i && j != d ==> now[j] == nodes[j]
  {
    hide Key, Padded;
    FreeSlotIs(DotsOf(d, g), 2);
  }

  /** Entry 2 is the one that rmdir finds. */
  lemma FindsA(nodes: seq<Node>, d: nat, g: nat, i: nat)
    requires OnlyA(nodes, d, g, i) && 0 < i < |nodes| && Empty(nodes[i].entries)
    ensures forall k: nat :: Removable(nodes, d, A, k) <==> k == 2
  {
    hide Key, Padded;
    PaddedKey(A, DIRSIZ);
    DotsAre(d, g);
    NoA(d, g);
  }

  /** rmdir a in d: the directory goes, unless a reference keeps it. */
  lemma Rmdir(nodes: seq<Node>, refs: seq<nat>, now: seq<Node>, d: nat, g: nat, i: nat, k: nat)
    requires OnlyA(nodes, d, g, i) && 0 < i < |nodes| && i != d && nodes[i].kind == T_DIR && nodes[i].nlink == 1 && Empty(nodes[i].entries)
    requires Removable(nodes, d, A, k) && Dropped(nodes, refs, now, d, k)
    ensures |now| == |nodes| && now[i] == if refs[i] == 0 then FREE else nodes[i].(nlink := 0)
    ensures now[d].kind == T_DIR && now[d].nlink == nodes[d].nlink - 1 && Empty(now[d].entries)
    ensures forall j :: 0 <= j < |nodes| && j != i && j != d ==> now[j] == nodes[j]
  {
    hide Key, Padded;
    FindsA(nodes, d, g, i);
  }

  /** mkdir a, rmdir a while it is open, then create a file in it: a run that ends with link counts wrong. */
  method CreateInRemoved() returns (t: Inodes, a: nat, f: nat)
    ensures 0 < a < |t.nodes| && 0 < f < |t.nodes| && t.nodes[a].kind == T_DIR && !Linked(t.nodes[a]) && t.nodes[f].kind == T_FILE
    ensures !Good(t.nodes)
  {
    hide Good, InUse, Key, Removable, DropName, Has, Live, Dropped, FreeSlot, Padded;
    BootGood();
    NoA(1, 1);
    t := new Inodes;
    t.nodes, t.refs, t.valid := Boot(), [0, 0, 0, 0], [false, false, false, false];
    LiveIff(t.nodes, 1, A);
    a := t.Create(1, A, T_DIR, [true, true, true]);
    assert Boot()[2].kind == 0;
    Mkdir(Boot(), t.nodes, 1, 1, a);
    FindsA(t.nodes, 1, 1, a);
    ghost var was, refs := t.nodes, t.refs;
    assert Removable(was, 1, A, 2);
    var gone := t.Unlink(1, A);
    ghost var k: nat :| Removable(was, 1, A, k) && Dropped(was, refs, t.nodes, 1, k);
    Rmdir(was, refs, t.nodes, 1, 1, a, k);
    NoA(a, 1);
    LiveIff(t.nodes, a, A);
    assert t.nodes[5 - a].kind == 0;
    f := t.Create(a, A, T_FILE, [true, true, true]);
  }

  lemma Counts(nodes: seq<Node>, i: nat)
    requires Good(nodes) && 0 < i < |nodes|
    ensures nodes[i].nlink == |Refs(nodes, i)|
  {
  }

  /** mkdir a, mkdir a/a. */
  method Nested() returns (t: Inodes, a: nat, b: nat)
    ensures t.Valid() && |t.nodes| == |t.refs| == 4 && 1 < a < 4 && 1 < b < 4 && a != b && t.refs[a] == 1 && t.refs[b] == 1
    ensures OnlyA(t.nodes, 1, 1, a) && OnlyA(t.nodes, a, 1, b) && t.nodes[a].nlink == 2 && t.nodes[b] == Node(T_DIR, 1, DotsOf(b, a))
    ensures t.nodes[1].nlink == 2
    ensures fresh(t)
  {
    hide Good, InUse, Key, Has, Live, FreeSlot, Padded;
    BootGood();
    NoA(1, 1);
    t := new Inodes;
    t.nodes, t.refs, t.valid := Boot(), [0, 0, 0, 0], [false, false, false, false];
    LiveIff(t.nodes, 1, A);
    a := t.Create(1, A, T_DIR, [true, true, true]);
    assert Boot()[2].kind == 0;
    ghost var s1 := t.nodes;
    Mkdir(Boot(), s1, 1, 1, a);
    NoA(a, 1);
    LiveIff(s1, a, A);
    b := t.Create(a, A, T_DIR, [true, true, true]);
    assert s1[5 - a].kind == 0;
    Mkdir(s1, t.nodes, a, 1, b);
  }

  /** mkdir a, mkdir a/a and keep it open, rmdir a/a, rmdir a: all is in order, but ".." in the directory still open names
      an inode that is free, and create() of it would panic. */
  method OrphanedDirectory() returns (t: Inodes, b: nat)
    ensures t.Valid() && 0 < b < |t.nodes| && b < |t.refs| && 0 < t.refs[b] && t.nodes[b].kind == T_DIR
    ensures !Live(t.nodes, b, DOTDOT)
  {
    hide Good, InUse, Key, Removable, DropName, Has, Live, Dropped, FreeSlot, Padded;
    var a;
    t, a, b := Nested();
    ghost var s2, r2 := t.nodes, t.refs;
    NoA(1, 1);
    FindsA(s2, a, 1, b);
    assert Removable(s2, a, A, 2);
    var gone := t.Unlink(a, A);
    ghost var s3 := t.nodes;
    ghost var k: nat :| Removable(s2, a, A, k) && Dropped(s2, r2, s3, a, k);
    Rmdir(s2, r2, s3, a, 1, b, k);
    Counts(s3, a);
    t.Release(a);
    FindsA(s3, 1, 1, a);
    assert Removable(s3, 1, A, 2);
    ghost var r3 := t.refs;
    gone := t.Unlink(1, A);
    ghost var k': nat :| Removable(s3, 1, A, k') && Dropped(s3, r3, t.nodes, 1, k');
    Rmdir(s3, r3, t.nodes, 1, 1, a, k');
    DotKeys();
    LiveIff(t.nodes, b, DOTDOT);
  }
}
