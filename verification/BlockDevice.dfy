/** The disk as the file system sees it: numbered blocks that are written one at a time.

    A block is kept as 32-bit words, the unit in which the log header is laid out. The order
    of the writes is part of the model: a crash leaves the image made by some prefix of them. */
module BlockDevice {

  datatype Block = Block(words: seq<int>)

  type Image = seq<Block>

  datatype Write = Write(block: nat, data: Block)

  /** One block write. A write past the end of the device reaches no block. */
  function Put(d: Image, w: Write): (r: Image)
    ensures |r| == |d|
  {
    if w.block < |d| then d[w.block := w.data] else d
  }

  function Apply(d: Image, ws: seq<Write>): (r: Image)
    ensures |r| == |d|
  {
    if ws == [] then d else Put(Apply(d, ws[..|ws| - 1]), ws[|ws| - 1])
  }

  lemma ApplyNone(d: Image, ws: seq<Write>)
    ensures Apply(d, ws[..0]) == d
  {
  }

  lemma ApplyOne(d: Image, ws: seq<Write>, w: Write)
    ensures Apply(d, ws + [w]) == Put(Apply(d, ws), w)
  {
    assert (ws + [w])[..|ws|] == ws;
  }

  lemma {:induction false} ApplyAppend(d: Image, xs: seq<Write>, ys: seq<Write>)
    ensures Apply(d, xs + ys) == Apply(Apply(d, xs), ys)
    decreases |ys|
  {
    if ys == [] {
      assert xs + ys == xs;
    } else {
      var ys', y := ys[..|ys| - 1], ys[|ys| - 1];
      assert xs + ys == (xs + ys') + [y] && ys == ys' + [y];
      ApplyAppend(d, xs, ys');
      ApplyOne(d, xs + ys', y);
    }
  }

  lemma ApplySplit(d: Image, ws: seq<Write>, m: nat, k: nat)
    requires m <= k <= |ws|
    ensures Apply(d, ws[..k]) == Apply(Apply(d, ws[..m]), ws[m..][..k - m])
  {
    assert ws[..k] == ws[..m] + ws[m..][..k - m];
    ApplyAppend(d, ws[..m], ws[m..][..k - m]);
  }

  lemma {:induction false} ApplyUntouched(d: Image, ws: seq<Write>, b: nat)
    requires b < |d|
    requires forall i :: 0 <= i < |ws| ==> ws[i].block != b
    ensures Apply(d, ws)[b] == d[b]
  {
    if ws != [] {
      ApplyUntouched(d, ws[..|ws| - 1], b);
    }
  }

  /** The last write to a block decides what the block holds. */
  lemma {:induction false} ApplyLast(d: Image, ws: seq<Write>, j: nat)
    requires j < |ws| && ws[j].block < |d|
    requires forall i :: j < i < |ws| ==> ws[i].block != ws[j].block
    ensures Apply(d, ws)[ws[j].block] == ws[j].data
  {
    if j < |ws| - 1 {
      ApplyLast(d, ws[..|ws| - 1], j);
    }
  }

  /** The device itself. `writes` is the order in which blocks reached it. */
  class Disk {
    var image: Image
    ghost var writes: seq<Write>

    constructor (initial: Image)
      ensures image == initial && writes == []
    {
      image := initial;
      writes := [];
    }

    /** virtio_disk_rw with write set: the caller returns only once the block is on the disk. */
    method WriteBlock(b: nat, data: Block)
      requires b < |image|
      modifies this
      ensures image == Put(old(image), Write(b, data))
      ensures writes == old(writes) + [Write(b, data)]
    {
      image := image[b := data];
      writes := writes + [Write(b, data)];
    }
  }
}
