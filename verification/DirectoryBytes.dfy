/** Directories as kernel/fs.c keeps them: files of 16-byte entries, read and written with readi and writei. */
module DirectoryBytes {
  import opened Bits
  import opened BlockFormat
  import opened FileBlocks
  import opened FileSystem
  import opened Names
  import opened LinkCounts
  import opened Links

  /** sizeof(struct dirent): a 16-bit inode number and a name. */
  const DIRENT: nat := 16

  const USHORT: nat := 0x1_0000

  function DirentOf(b: seq<Byte>): (e: Dirent)
    requires |b| == DIRENT
    ensures |e.name| == DIRSIZ
  {
    Dirent((b[0] as int) + 256 * (b[1] as int), seq(DIRSIZ, i requires 0 <= i < DIRSIZ => b[2 + i] as char))
  }

  /** The inode number is in the first two bytes, the lower one first, and the name in the rest. */
  lemma DirentWhere(b: seq<Byte>, k: nat)
    requires |b| == DIRENT
    ensures k < DIRENT && k < 2 ==> forall i: nat :: i < 8 ==> (NatBit(DirentOf(b).inum, 8 * k + i) <==> NatBit(b[k], i))
    ensures 2 <= k < DIRENT ==> DirentOf(b).name[k - 2] as int == b[k]
  {
    if k < 2 {
      forall i: nat | i < 8 ensures NatBit(DirentOf(b).inum, 8 * k + i) <==> NatBit(b[k], i) {
        ByteBelow(b[0], b[1], 8 * k + i);
      }
    }
  }

  predicate Narrow(name: seq<char>) {
    forall i :: 0 <= i < |name| ==> name[i] as int < 256
  }

  function BytesOf(e: Dirent): (b: seq<Byte>)
    requires e.inum < USHORT && |e.name| == DIRSIZ && Narrow(e.name)
    ensures |b| == DIRENT
  {
    [e.inum % 256, e.inum / 256] + seq(DIRSIZ, i requires 0 <= i < DIRSIZ => e.name[i] as int)
  }

  lemma DirentRoundTrip(e: Dirent)
    requires e.inum < USHORT && |e.name| == DIRSIZ && Narrow(e.name)
    ensures DirentOf(BytesOf(e)) == e
  {
    var b := BytesOf(e);
    forall i | 0 <= i < DIRSIZ ensures DirentOf(b).name[i] == e.name[i] {
      assert b[2 + i] == e.name[i] as int;
    }
  }

  /** The bytes of a directory as its entries. */
  function Entries(c: seq<Byte>): (es: seq<Dirent>)
    requires |c| % DIRENT == 0
    ensures |es| == |c| / DIRENT && Named(es)
  {
    seq(|c| / DIRENT, k requires 0 <= k < |c| / DIRENT => DirentOf(c[DIRENT * k..DIRENT * k + DIRENT]))
  }

  /** Writing one entry's bytes puts that entry and no other. */
  lemma EntriesSpliced(c: seq<Byte>, k: nat, e: Dirent)
    requires |c| % DIRENT == 0 && k <= |c| / DIRENT && e.inum < USHORT && |e.name| == DIRSIZ && Narrow(e.name)
    ensures var d := Spliced(c, DIRENT * k, BytesOf(e));
            |d| % DIRENT == 0 && Entries(d) == PutEntry(Entries(c), k, e)
  {
    hide BytesOf, DirentOf;
    var d := Spliced(c, DIRENT * k, BytesOf(e));
    SplicedLength(c, DIRENT * k, BytesOf(e));
    forall j: nat | j < |d| / DIRENT ensures Entries(d)[j] == PutEntry(Entries(c), k, e)[j] {
      SplicedEntry(c, k, BytesOf(e), j);
      DirentRoundTrip(e);
    }
  }

  lemma SplicedLength(c: seq<Byte>, off: nat, b: seq<Byte>)
    requires |c| % DIRENT == 0 && off % DIRENT == 0 && off <= |c| && |b| == DIRENT
    ensures |Spliced(c, off, b)| == if off < |c| then |c| else |c| + DIRENT
  {
  }

  lemma SplicedEntry(c: seq<Byte>, k: nat, b: seq<Byte>, j: nat)
    requires |c| % DIRENT == 0 && k <= |c| / DIRENT && |b| == DIRENT && DIRENT * j < |Spliced(c, DIRENT * k, b)|
    ensures var d := Spliced(c, DIRENT * k, b);
            && DIRENT * j + DIRENT <= |d|
            && d[DIRENT * j..DIRENT * j + DIRENT] == if j == k then b else c[DIRENT * j..DIRENT * j + DIRENT]
  {
  }

  ghost predicate Directory(fs: FileSystem, dp: nat)
    reads fs
  {
    && Inv(fs.g, fs.State()) && dp < |fs.nodes| == |fs.dinodes| && fs.nodes[dp].typ == T_DIR
    && fs.nodes[dp].size % DIRENT == 0
  }

  ghost function Listing(fs: FS, dp: nat): (es: seq<Dirent>)
    requires dp < |fs.nodes| && fs.nodes[dp].size % DIRENT == 0
    ensures |es| == fs.nodes[dp].size / DIRENT && Named(es)
  {
    Entries(Contents(fs, dp))
  }

  /** One turn of the loops below: readi of the entry at off. */
  method ReadEntry(fs: FileSystem, dp: nat, off: nat) returns (de: Dirent)
    requires Directory(fs, dp) && off % DIRENT == 0 && off < fs.nodes[dp].size
    modifies fs`data, fs`nodes, fs`logged
    ensures fs.State() == old(fs.State()) && fs.logged == old(fs.logged)
    ensures de == Listing(fs.State(), dp)[off / DIRENT]
  {
    hide Contents, DirentOf, Owned, NoHoles;
    var bytes := fs.Readi(dp, off, DIRENT);
    assert DIRENT * (off / DIRENT) == off;
    de := DirentOf(bytes);
  }

  /** dirlookup(): the inode number that the first entry with the name gives, and its offset; 0 if there is none. */
  method Dirlookup(fs: FileSystem, dp: nat, name: seq<char>) returns (inum: nat, poff: nat)
    requires Directory(fs, dp) && Readable(name, DIRSIZ)
    modifies fs`data, fs`nodes, fs`logged
    ensures fs.State() == old(fs.State()) && fs.logged == old(fs.logged)
    ensures inum == 0 <==> !Has(Listing(fs.State(), dp), name)
    ensures inum != 0 ==>
              var es := Listing(fs.State(), dp);
              && poff % DIRENT == 0 && poff / DIRENT < |es| && es[poff / DIRENT].inum == inum
              && NameOf(es[poff / DIRENT]) == Key(name, DIRSIZ) && !Has(es[..poff / DIRENT], name)
  {
    hide Key, Inv, Listing;
    ghost var es := Listing(fs.State(), dp);
    var off := 0;
    while off < fs.nodes[dp].size
      invariant fs.State() == old(fs.State()) && fs.logged == old(fs.logged) && off % DIRENT == 0 && off <= fs.nodes[dp].size
      invariant !Has(es[..off / DIRENT], name)
    {
      ghost var k := off / DIRENT;
      var de := ReadEntry(fs, dp, off);
      assert es[..k + 1] == es[..k] + [es[k]];
      if de.inum != 0 {
        var c := Strncmp(name, de.name, DIRSIZ);
        if c == 0 {
          return de.inum, off;
        }
      }
      off := off + DIRENT;
    }
    assert es[..off / DIRENT] == es;
    return 0, 0;
  }

  /** dirlink()'s search for a free entry. */
  method FindFree(fs: FileSystem, dp: nat) returns (off: nat)
    requires Directory(fs, dp)
    modifies fs`data, fs`nodes, fs`logged
    ensures fs.State() == old(fs.State()) && fs.logged == old(fs.logged)
    ensures off == DIRENT * FreeSlot(Listing(fs.State(), dp))
  {
    hide Key, Inv, Listing, FreeSlot;
    ghost var es := Listing(fs.State(), dp);
    off := 0;
    while off < fs.nodes[dp].size
      invariant fs.State() == old(fs.State()) && fs.logged == old(fs.logged) && off % DIRENT == 0 && off <= fs.nodes[dp].size
      invariant forall j :: 0 <= j < off / DIRENT ==> es[j].inum != 0
    {
      var de := ReadEntry(fs, dp, off);
      if de.inum == 0 {
        break;
      }
      off := off + DIRENT;
    }
    FreeSlotIs(es, off / DIRENT);
  }

  ghost predicate Spare(g: Super, fs: FS, b: nat) {
    FileBlocks.Shape(g, fs) && b < g.size && !Used(g, fs, b)
  }

  /** There is a free entry, or one more can be had: its block is there, or there is a block to be had for it, and another
      for the indirect block if that is missing too. */
  ghost predicate Room(g: Super, fs: FS, dp: nat)
    requires dp < |fs.nodes| && fs.nodes[dp].size % DIRENT == 0
  {
    var es := Listing(fs, dp);
    FreeSlot(es) < |es| || (DIRENT * |es| + DIRENT <= MAXFILE * BSIZE && BlockFor(g, fs, dp, DIRENT * |es| / BSIZE))
  }

  ghost predicate BlockFor(g: Super, fs: FS, n: nat, bn: nat) {
    || Ref(fs, n, Slot(bn)) != 0
    || (exists a, b: nat :: Spare(g, fs, a) && Spare(g, fs, b) && (NDIRECT <= bn && Ref(fs, n, NDIRECT) == 0 ==> a != b))
  }

  /** dirlink(): writes the entry in the first free place, or at the end. It fails exactly if the name is there already or
      there is no room. */
  method Dirlink(fs: FileSystem, dp: nat, name: seq<char>, inum: nat) returns (ok: bool)
    requires Directory(fs, dp) && Readable(name, DIRSIZ) && Narrow(Key(name, DIRSIZ)) && inum < USHORT
    modifies fs
    ensures Inv(fs.g, fs.State()) && |fs.nodes| == |old(fs.nodes)| && fs.nodes[dp].size % DIRENT == 0
    ensures forall i :: 0 <= i < |fs.nodes| && i != dp ==> Contents(fs.State(), i) == Contents(old(fs.State()), i)
    ensures ok <==> !Has(Listing(old(fs.State()), dp), name) && Room(fs.g, old(fs.State()), dp)
    ensures var es := Listing(old(fs.State()), dp);
            Listing(fs.State(), dp) == if ok then PutEntry(es, FreeSlot(es), Dirent(inum, Padded(name, DIRSIZ))) else es
    ensures |fs.logged - old(fs.logged)| <= MAXOPBLOCKS
  {
    hide Key, Inv, FreeSlot, Padded, Contents, Spliced, NoLeaks, Accounted, BytesOf, Entries, Has, Full, Ref;
    ghost var s0, l0 := fs.State(), fs.logged;
    var found, _ := Dirlookup(fs, dp, name);
    if found != 0 {
      assert fs.logged - l0 == {};
      return false;
    }
    var off := FindFree(fs, dp);
    var nm := Strncpy(name, DIRSIZ);
    PaddedNarrow(name);
    ghost var k := FreeSlot(Listing(s0, dp));
    SizeBound(fs.g, s0, dp);
    var r := fs.Writei(dp, BytesOf(Dirent(inum, nm)), off);
    ok := r == DIRENT;
    Written(fs.g, s0, fs.State(), dp, k, Dirent(inum, nm), r, fs.logged);
  }

  /** The write with which sys_unlink() clears an entry: all of it is written, so "unlink: writei" is not reached. */
  method ClearEntry(fs: FileSystem, dp: nat, off: nat) returns (r: int)
    requires Directory(fs, dp) && off % DIRENT == 0 && off < fs.nodes[dp].size
    modifies fs
    ensures r == DIRENT && Inv(fs.g, fs.State()) && |fs.nodes| == |old(fs.nodes)| && fs.nodes[dp].size % DIRENT == 0
    ensures Listing(fs.State(), dp) == Listing(old(fs.State()), dp)[off / DIRENT := Dirent(0, seq(DIRSIZ, _ => NUL))]
    ensures forall i :: 0 <= i < |fs.nodes| && i != dp ==> Contents(fs.State(), i) == Contents(old(fs.State()), i)
    ensures |fs.logged - old(fs.logged)| <= MAXOPBLOCKS
  {
    hide Inv, Contents, Spliced, NoLeaks, Accounted, BytesOf, Entries, Full, Ref;
    ghost var s0 := fs.State();
    var de := Dirent(0, seq(DIRSIZ, _ => NUL));
    SizeBound(fs.g, s0, dp);
    assert DIRENT * (off / DIRENT) == off;
    r := fs.Writei(dp, BytesOf(de), off);
    WrittenOver(fs.g, s0, fs.State(), dp, off / DIRENT, de, r, fs.logged);
  }

  /** There is an entry there already, so its block is mapped. */
  lemma WrittenOver(g: Super, s0: FS, s1: FS, dp: nat, k: nat, e: Dirent, r: int, logged: set<nat>)
    requires Inv(g, s0) && Inv(g, s1) && dp < |s0.nodes| == |s1.nodes| && s0.nodes[dp].size % DIRENT == 0
    requires DIRENT * k < s0.nodes[dp].size && e.inum < USHORT && |e.name| == DIRSIZ && Narrow(e.name) && 0 <= r <= DIRENT
    requires r < DIRENT ==> Full(g, s1) && (r == 0 || (DIRENT * k + r) % BSIZE == 0)
    requires Contents(s1, dp) == Spliced(Contents(s0, dp), DIRENT * k, BytesOf(e)[..r])
    requires Accounted(g, s0, s1, dp, DIRENT * k, DIRENT, r, logged)
    ensures r == DIRENT && s1.nodes[dp].size % DIRENT == 0 && Listing(s1, dp) == Listing(s0, dp)[k := e]
  {
    hide BytesOf, Entries, Sound, Full, Ref, BlockFor, Accounted, NoHoles, Spliced, Contents;
    AllOrNone(k, r);
    if r == 0 {
      assert BytesOf(e)[..r] == [];
      SplicedNone(Contents(s0, dp), DIRENT * k);
      NotGot(g, s0, s1, dp, k, logged);
    }
    assert BytesOf(e)[..r] == BytesOf(e);
    EntriesSpliced(Contents(s0, dp), k, e);
  }

  /** No block ends within an entry. */
  lemma AllOrNone(k: nat, r: nat)
    ensures 0 < r < DIRENT ==> (DIRENT * k + r) % BSIZE != 0
  {
    var x := DIRENT * k + r;
    assert x == DIRENT * (64 * (x / BSIZE)) + x % BSIZE;
  }

  lemma PaddedNarrow(name: seq<char>)
    requires Narrow(Key(name, DIRSIZ))
    ensures Narrow(Padded(name, DIRSIZ))
  {
  }

  lemma SizeBound(g: Super, fs: FS, dp: nat)
    requires Inv(g, fs) && dp < |fs.nodes|
    ensures fs.nodes[dp].size <= MAXFILE * BSIZE
  {
  }

  /** An entry lies in one block, so writei writes all of it or none. */
  lemma Written(g: Super, s0: FS, s1: FS, dp: nat, k: nat, e: Dirent, r: int, logged: set<nat>)
    requires Inv(g, s0) && Inv(g, s1) && dp < |s0.nodes| == |s1.nodes| && s0.nodes[dp].size % DIRENT == 0
    requires k == FreeSlot(Listing(s0, dp)) && e.inum < USHORT && |e.name| == DIRSIZ && Narrow(e.name)
    requires r == -1 <==> DIRENT * k > s0.nodes[dp].size || DIRENT * k + DIRENT >= UINT || DIRENT * k + DIRENT > MAXFILE * BSIZE
    requires r == -1 ==> s1 == s0
    requires r != -1 ==>
               && 0 <= r <= DIRENT && (r < DIRENT ==> Full(g, s1) && (r == 0 || (DIRENT * k + r) % BSIZE == 0))
               && Contents(s1, dp) == Spliced(Contents(s0, dp), DIRENT * k, BytesOf(e)[..r])
               && Accounted(g, s0, s1, dp, DIRENT * k, DIRENT, r, logged)
    ensures s1.nodes[dp].size % DIRENT == 0 && (r == DIRENT <==> Room(g, s0, dp))
    ensures Listing(s1, dp) == if r == DIRENT then PutEntry(Listing(s0, dp), k, e) else Listing(s0, dp)
  {
    hide BytesOf, Entries, FreeSlot, Sound, Full, Gains, LogsAll, Ref, BlockFor, Accounted, NoHoles;
    SizeBound(g, s0, dp);
    if r != -1 {
      AllOrNone(k, r);
      if r == DIRENT {
        assert BytesOf(e)[..r] == BytesOf(e);
        EntriesSpliced(Contents(s0, dp), k, e);
        Got(g, s0, s1, dp, k, logged);
      } else {
        assert r == 0 && BytesOf(e)[..r] == [];
        SplicedNone(Contents(s0, dp), DIRENT * k);
        NotGot(g, s0, s1, dp, k, logged);
      }
    }
  }

  /** The entry was written, so a block for it was there or could be had. */
  lemma Got(g: Super, s0: FS, s1: FS, dp: nat, k: nat, logged: set<nat>)
    requires Inv(g, s0) && Inv(g, s1) && dp < |s0.nodes| == |s1.nodes| && DIRENT * k < |Contents(s1, dp)|
    requires Accounted(g, s0, s1, dp, DIRENT * k, DIRENT, DIRENT, logged)
    ensures BlockFor(g, s0, dp, DIRENT * k / BSIZE)
  {
    hide Ref, Used, LogsAll, NoHoles;
    var bn := DIRENT * k / BSIZE;
    assert Ref(s1, dp, Slot(bn)) != 0 by { MappedBelow(g, s1, dp, DIRENT * k); }
    var hi: nat :| Exactly(g, s0, s1, dp, bn, hi, logged);
    if Ref(s0, dp, Slot(bn)) == 0 {
      assert Spare(g, s0, Ref(s1, dp, Slot(bn)));
      if NDIRECT <= bn && Ref(s0, dp, NDIRECT) == 0 {
        if Ref(s1, dp, NDIRECT) == 0 {
          NoIndirect(s1, dp, bn);
        }
        assert Spare(g, s0, Ref(s1, dp, NDIRECT));
      }
    }
  }

  lemma MappedBelow(g: Super, fs: FS, n: nat, off: nat)
    requires Inv(g, fs) && n < |fs.nodes| && off < fs.nodes[n].size
    ensures Ref(fs, n, Slot(off / BSIZE)) != 0
  {
    hide Ref, Sound;
    assert off / BSIZE * BSIZE < fs.nodes[n].size;
  }

  /** It was not, so no block was there, and all the blocks that could be had, if any, went into the indirect block. */
  lemma NotGot(g: Super, s0: FS, s1: FS, dp: nat, k: nat, logged: set<nat>)
    requires Inv(g, s0) && Inv(g, s1) && dp < |s0.nodes| == |s1.nodes| && Full(g, s1)
    requires Accounted(g, s0, s1, dp, DIRENT * k, DIRENT, 0, logged)
    ensures !BlockFor(g, s0, dp, DIRENT * k / BSIZE) && |Contents(s1, dp)| <= DIRENT * k
  {
    hide Ref, Used, LogsAll, NoHoles;
    var bn := DIRENT * k / BSIZE;
    assert Exactly(g, s0, s1, dp, bn, bn, logged) && Ref(s1, dp, Slot(bn)) == 0;
    if DIRENT * k < s1.nodes[dp].size {
      MappedBelow(g, s1, dp, DIRENT * k);
    }
    assert Slot(bn) !in Visited(bn, bn);
    assert Ref(s0, dp, Slot(bn)) == 0;
    forall b: nat | Spare(g, s0, b) ensures NDIRECT <= bn && Ref(s0, dp, NDIRECT) == 0 && b == Ref(s1, dp, NDIRECT) {
      Taken(g, s0, s1, dp, bn, b);
    }
  }

  lemma Taken(g: Super, s0: FS, s1: FS, dp: nat, bn: nat, b: nat)
    requires Gains(g, s0, s1, dp, Visited(bn, bn)) && Full(g, s1) && Spare(g, s0, b)
    ensures NDIRECT <= bn && Ref(s0, dp, NDIRECT) == 0 && b == Ref(s1, dp, NDIRECT)
  {
    hide Ref, Used;
    assert Used(g, s1, b) && NewRef(s0, s1, dp, b);
    var k: nat :| Ref(s0, dp, k) == 0 && Ref(s1, dp, k) == b && b != 0;
    assert k in Visited(bn, bn);
  }
}
