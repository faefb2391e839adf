/** Crash behaviour of the write-ahead log in kernel/log.c, as a statement about lists of block writes.

    `CommitWrites` and `RecoveryWrites` are the writes that commit() and recover_from_log() issue, in
    order (module WriteAheadLog proves that the code issues exactly these). A crash keeps some prefix. */
module CrashSafety {
  import opened BlockDevice
  import opened Collections

  const MAXOPBLOCKS: nat := 10
  const LOGSIZE: nat := 30

  /** Where the log lives: header block `start`, then `size - 1` log blocks, on a disk of `blocks`. */
  datatype Layout = Layout(start: nat, size: nat, blocks: nat) {
    ghost predicate Ok() {
      1 <= size && start + size <= blocks
    }

    predicate InLog(b: int) {
      start <= b < start + size
    }

    /** The largest transaction log_write() lets through. */
    function Capacity(): (c: int) {
      if LOGSIZE < size - 1 then LOGSIZE else size - 1
    }
  }

  /** A position of b in s, or |s| when there is none. */
  ghost function IndexOf(s: seq<nat>, b: nat): (i: nat)
    ensures i <= |s|
    ensures i < |s| ==> s[i] == b
    ensures i == |s| <==> b !in s
  {
    if b in s then
      var i :| 0 <= i < |s| && s[i] == b;
      i
    else |s|
  }

  /** The block numbers may be logged together: distinct, on the disk, and not in the log itself. */
  ghost predicate Loggable(l: Layout, bs: seq<nat>) {
    && |bs| <= l.Capacity()
    && Distinct(bs)
    && forall i :: 0 <= i < |bs| ==> bs[i] < l.blocks && !l.InLog(bs[i])
  }

  lemma LoggableNone(l: Layout)
    requires l.Ok()
    ensures Loggable(l, [])
  {
  }

  lemma LoggableOneMore(l: Layout, bs: seq<nat>, b: nat)
    requires Loggable(l, bs) && |bs| < l.Capacity() && b < l.blocks && !l.InLog(b) && b !in bs
    ensures Loggable(l, bs + [b])
  {
  }

  // The header block: word 0 is the count, the words after it are the home block numbers.

  ghost predicate HeaderOk(h: Block) {
    && LOGSIZE < |h.words|
    && 0 <= h.words[0] <= LOGSIZE
    && forall i :: 1 <= i <= h.words[0] ==> 0 <= h.words[i]
  }

  ghost function Entries(h: Block): (es: seq<nat>)
    requires HeaderOk(h)
    ensures |es| == h.words[0]
  {
    h.words[1..1 + h.words[0]]
  }

  /** What write_head() leaves in the header block: words past the count keep their old values. */
  function WithEntries(h: Block, es: seq<nat>): (r: Block)
    requires |es| <= LOGSIZE < |h.words|
    ensures HeaderOk(r) && Entries(r) == es && |r.words| == |h.words|
  {
    var r: seq<int> := [|es|] + es + h.words[1 + |es|..];
    assert r[1..1 + |es|] == es;
    assert forall i :: 1 <= i <= |es| ==> r[i] == es[i - 1];
    Block(r)
  }

  /** The count, then the block numbers in order, then what was there. */
  lemma HeaderWords(h: Block, es: seq<nat>, i: nat)
    requires |es| <= LOGSIZE < |h.words| && i < |h.words|
    ensures WithEntries(h, es).words[i] == if i == 0 then |es| else if i <= |es| then es[i - 1] else h.words[i]
  {
  }

  /** A disk that recovery can start from. */
  ghost predicate Recoverable(l: Layout, d: Image) {
    && l.Ok() && |d| == l.blocks
    && HeaderOk(d[l.start])
    && Loggable(l, Entries(d[l.start]))
  }

  /** The content of home block b once recovery has completed. */
  ghost function HomeValue(l: Layout, d: Image, b: nat): (v: Block)
    requires Recoverable(l, d) && b < l.blocks
  {
    var es := Entries(d[l.start]);
    var i := IndexOf(es, b);
    if i < |es| then d[l.start + 1 + i] else d[b]
  }

  /** Recovery has nothing to do: the log is empty. */
  ghost predicate Clean(l: Layout, d: Image) {
    Recoverable(l, d) && Entries(d[l.start]) == []
  }

  // ---- the writes of recover_from_log() and commit() ----

  ghost function InstallWrites(bs: seq<nat>, data: seq<Block>): (ws: seq<Write>)
    requires |bs| == |data|
    ensures |ws| == |bs|
  {
    seq(|bs|, i requires 0 <= i < |bs| => Write(bs[i], data[i]))
  }

  ghost function LogWrites(l: Layout, data: seq<Block>): (ws: seq<Write>)
    ensures |ws| == |data|
  {
    seq(|data|, i requires 0 <= i < |data| => Write(l.start + 1 + i, data[i]))
  }

  ghost function LogData(l: Layout, d: Image, n: nat): (data: seq<Block>)
    requires l.start + 1 + n <= |d|
    ensures |data| == n
  {
    d[l.start + 1..l.start + 1 + n]
  }

  ghost function RecoveryWrites(l: Layout, d: Image): (ws: seq<Write>)
    requires Recoverable(l, d)
    ensures |ws| == |Entries(d[l.start])| + 1
  {
    var es := Entries(d[l.start]);
    InstallWrites(es, LogData(l, d, |es|)) + [Write(l.start, WithEntries(d[l.start], []))]
  }

  ghost function CommitWrites(l: Layout, d: Image, bs: seq<nat>, data: seq<Block>): (ws: seq<Write>)
    requires Recoverable(l, d) && Loggable(l, bs) && |data| == |bs|
    ensures |ws| == 2 * |bs| + 2
  {
    var h := WithEntries(d[l.start], bs);
    LogWrites(l, data) + [Write(l.start, h)] + InstallWrites(bs, data) + [Write(l.start, WithEntries(h, []))]
  }

  /** The home blocks after the transaction: logged blocks replaced, all others as before. */
  ghost function Updated(d: Image, bs: seq<nat>, data: seq<Block>, b: nat): (v: Block)
    requires b < |d| && |data| == |bs|
  {
    var i := IndexOf(bs, b);
    if i < |bs| then data[i] else d[b]
  }

  // ---- crashes during recovery ----

  lemma InstallPrefix(d: Image, bs: seq<nat>, data: seq<Block>, k: nat, b: nat)
    requires Distinct(bs) && |data| == |bs| && k <= |bs| && b < |d|
    ensures var j := IndexOf(bs, b);
            Apply(d, InstallWrites(bs, data)[..k])[b] == if j < k then data[j] else d[b]
  {
    hide Apply;
    var ws := InstallWrites(bs, data)[..k];
    var j := IndexOf(bs, b);
    if j < k {
      assert ws[j] == Write(b, data[j]);
      assert forall i :: j < i < |bs| ==> bs[j] != bs[i];
      ApplyLast(d, ws, j);
    } else {
      ApplyUntouched(d, ws, b);
    }
  }

  /** The disk after k of recovery's installs: every block whose turn has not come is untouched. */
  lemma RecoveryPrefix(l: Layout, d: Image, k: nat, b: nat)
    requires Recoverable(l, d) && k <= |Entries(d[l.start])| && b < l.blocks
    ensures var j := IndexOf(Entries(d[l.start]), b);
            Apply(d, RecoveryWrites(l, d)[..k])[b] == if j < k then d[l.start + 1 + j] else d[b]
  {
    hide Apply, HeaderOk, Distinct, InstallWrites;
    var es := Entries(d[l.start]);
    assert RecoveryWrites(l, d)[..k] == InstallWrites(es, LogData(l, d, |es|))[..k];
    InstallPrefix(d, es, LogData(l, d, |es|), k, b);
  }

  /** Recovery from either disk gives the same home blocks. */
  ghost predicate SameOutcome(l: Layout, d: Image, d': Image)
    requires Recoverable(l, d) && Recoverable(l, d')
  {
    forall b: nat {:trigger HomeValue(l, d', b)} :: b < l.blocks && !l.InLog(b) ==> HomeValue(l, d', b) == HomeValue(l, d, b)
  }

  lemma InstallKeepsLog(l: Layout, d: Image, k: nat, b: nat)
    requires Recoverable(l, d) && k <= |Entries(d[l.start])| && b < l.blocks && l.InLog(b)
    ensures Apply(d, RecoveryWrites(l, d)[..k])[b] == d[b]
  {
    RecoveryPrefix(l, d, k, b);
  }

  lemma InstallKeepsRecoverable(l: Layout, d: Image, k: nat)
    requires Recoverable(l, d) && k <= |Entries(d[l.start])|
    ensures var d' := Apply(d, RecoveryWrites(l, d)[..k]);
            d'[l.start] == d[l.start] && Recoverable(l, d')
  {
    InstallKeepsLog(l, d, k, l.start);
  }

  lemma HomeValueFrame(l: Layout, d: Image, d': Image, b: nat)
    requires Recoverable(l, d) && Recoverable(l, d') && d'[l.start] == d[l.start] && b < l.blocks
    requires var es := Entries(d[l.start]);
             var j := IndexOf(es, b);
             if j < |es| then d'[l.start + 1 + j] == d[l.start + 1 + j] else d'[b] == d[b]
    ensures HomeValue(l, d', b) == HomeValue(l, d, b)
  {
  }

  lemma InstallCrashAt(l: Layout, d: Image, k: nat, b: nat)
    requires Recoverable(l, d) && k <= |Entries(d[l.start])| && b < l.blocks && !l.InLog(b)
    requires Recoverable(l, Apply(d, RecoveryWrites(l, d)[..k]))
    ensures HomeValue(l, Apply(d, RecoveryWrites(l, d)[..k]), b) == HomeValue(l, d, b)
  {
    hide Distinct, HeaderOk, Apply, RecoveryWrites;
    var es := Entries(d[l.start]);
    var j := IndexOf(es, b);
    InstallKeepsLog(l, d, k, l.start);
    if j < |es| {
      InstallKeepsLog(l, d, k, l.start + 1 + j);
    } else {
      RecoveryPrefix(l, d, k, b);
    }
    HomeValueFrame(l, d, Apply(d, RecoveryWrites(l, d)[..k]), b);
  }

  lemma InstallCrash(l: Layout, d: Image, k: nat)
    requires Recoverable(l, d) && k <= |Entries(d[l.start])|
    ensures var d' := Apply(d, RecoveryWrites(l, d)[..k]);
            Recoverable(l, d') && SameOutcome(l, d, d')
  {
    InstallKeepsRecoverable(l, d, k);
    var d' := Apply(d, RecoveryWrites(l, d)[..k]);
    forall b: nat {:trigger HomeValue(l, d', b)} | b < l.blocks && !l.InLog(b)
      ensures HomeValue(l, d', b) == HomeValue(l, d, b)
    {
      InstallCrashAt(l, d, k, b);
    }
  }

  lemma EraseHeader(l: Layout, d: Image)
    requires Recoverable(l, d)
    ensures Clean(l, Put(d, Write(l.start, WithEntries(d[l.start], []))))
  {
  }

  lemma CleanHome(l: Layout, d: Image, b: nat)
    requires Clean(l, d) && b < l.blocks
    ensures HomeValue(l, d, b) == d[b]
  {
  }

  lemma RecoveryCompletesAt(l: Layout, d: Image, b: nat)
    requires Recoverable(l, d) && b < l.blocks && !l.InLog(b)
    ensures Apply(d, RecoveryWrites(l, d))[b] == HomeValue(l, d, b)
  {
    hide Apply, Distinct, HeaderOk, InstallWrites;
    var n := |Entries(d[l.start])|;
    var ws := RecoveryWrites(l, d);
    RecoveryPrefix(l, d, n, b);
    assert ws == ws[..n] + [ws[n]];
    ApplyOne(d, ws[..n], ws[n]);
  }

  lemma RecoveryCompletes(l: Layout, d: Image)
    requires Recoverable(l, d)
    ensures var d' := Apply(d, RecoveryWrites(l, d));
            Clean(l, d') && SameOutcome(l, d, d')
  {
    hide Apply, Distinct, HeaderOk, InstallWrites;
    var n := |Entries(d[l.start])|;
    var ws := RecoveryWrites(l, d);
    InstallKeepsRecoverable(l, d, n);
    var d' := Apply(d, ws);
    assert ws == ws[..n] + [ws[n]];
    ApplyOne(d, ws[..n], ws[n]);
    EraseHeader(l, Apply(d, ws[..n]));
    forall b: nat {:trigger HomeValue(l, d', b)} | b < l.blocks && !l.InLog(b)
      ensures HomeValue(l, d', b) == HomeValue(l, d, b)
    {
      CleanHome(l, d', b);
      RecoveryCompletesAt(l, d, b);
    }
  }

  /** Main step: stopping recovery after any number of its writes loses nothing. */
  lemma RecoveryCrash(l: Layout, d: Image, k: nat)
    requires Recoverable(l, d) && k <= |RecoveryWrites(l, d)|
    ensures var d' := Apply(d, RecoveryWrites(l, d)[..k]);
            && Recoverable(l, d') && SameOutcome(l, d, d')
            && (k == |RecoveryWrites(l, d)| ==> Clean(l, d'))
  {
    if k <= |Entries(d[l.start])| {
      InstallCrash(l, d, k);
    } else {
      var ws := RecoveryWrites(l, d);
      assert ws[..k] == ws;
      RecoveryCompletes(l, d);
    }
  }

  /** Crash after ks[0] writes of a first recovery, then ks[1] writes of a second, and so on. */
  ghost function CrashedRecoveries(l: Layout, d: Image, ks: seq<nat>): (r: Image)
    requires Recoverable(l, d)
    decreases |ks|
  {
    if ks == [] then d
    else
      var ws := RecoveryWrites(l, d);
      var k := if ks[0] < |ws| then ks[0] else |ws|;
      RecoveryCrash(l, d, k);
      CrashedRecoveries(l, Apply(d, ws[..k]), ks[1..])
  }

  /** Any number of interrupted recoveries followed by one that completes: the home blocks come out
      as one uninterrupted recovery would have left them, and the log is empty. */
  lemma {:induction false} RecoverySurvivesCrashes(l: Layout, d: Image, ks: seq<nat>)
    requires Recoverable(l, d)
    ensures var d' := CrashedRecoveries(l, d, ks);
            && Recoverable(l, d')
            && var done := Apply(d', RecoveryWrites(l, d'));
            && Clean(l, done)
            && forall b: nat :: b < l.blocks && !l.InLog(b) ==> done[b] == HomeValue(l, d, b)
    decreases |ks|
  {
    if ks == [] {
      RecoveryCompletes(l, d);
      forall b: nat | b < l.blocks && !l.InLog(b) {
        RecoveryCompletesAt(l, d, b);
      }
    } else {
      var ws := RecoveryWrites(l, d);
      var k := if ks[0] < |ws| then ks[0] else |ws|;
      RecoveryCrash(l, d, k);
      RecoverySurvivesCrashes(l, Apply(d, ws[..k]), ks[1..]);
    }
  }

  // ---- crashes during commit ----

  /** Before the header write: only log blocks have changed, and the header still says "empty". */
  lemma CommitBeforeHeader(l: Layout, d: Image, bs: seq<nat>, data: seq<Block>, k: nat)
    requires Clean(l, d) && Loggable(l, bs) && |data| == |bs| && k <= |bs|
    ensures var d' := Apply(d, CommitWrites(l, d, bs, data)[..k]);
            && Clean(l, d')
            && (forall b: nat :: b < l.blocks && !l.InLog(b) ==> d'[b] == d[b])
            && d'[l.start] == d[l.start]
            && (forall i :: 0 <= i < k ==> d'[l.start + 1 + i] == data[i])
  {
    hide Apply, Distinct;
    var ws := CommitWrites(l, d, bs, data)[..k];
    assert forall i :: 0 <= i < k ==> ws[i] == Write(l.start + 1 + i, data[i]);
    forall b: nat | b < l.blocks && (b == l.start || !l.InLog(b))
      ensures Apply(d, ws)[b] == d[b]
    {
      ApplyUntouched(d, ws, b);
    }
    forall i | 0 <= i < k
      ensures Apply(d, ws)[l.start + 1 + i] == data[i]
    {
      ApplyLast(d, ws, i);
    }
  }

  lemma CommitHeaderWrite(l: Layout, d: Image, bs: seq<nat>, data: seq<Block>)
    requires Clean(l, d) && Loggable(l, bs) && |data| == |bs|
    ensures var ws := CommitWrites(l, d, bs, data);
            Apply(d, ws[..|bs| + 1]) == Apply(d, ws[..|bs|])[l.start := WithEntries(d[l.start], bs)]
  {
    hide Apply, Distinct;
    var ws := CommitWrites(l, d, bs, data);
    assert ws[..|bs| + 1] == ws[..|bs|] + [ws[|bs|]];
    ApplyOne(d, ws[..|bs|], ws[|bs|]);
  }

  lemma CommittedHome(l: Layout, d: Image, d': Image, bs: seq<nat>, data: seq<Block>, b: nat)
    requires Recoverable(l, d') && |d| == l.blocks && |data| == |bs| && b < l.blocks && !l.InLog(b)
    requires Entries(d'[l.start]) == bs && LogData(l, d', |bs|) == data && d'[b] == d[b]
    ensures HomeValue(l, d', b) == Updated(d, bs, data, b)
  {
    var i := IndexOf(bs, b);
    if i < |bs| {
      assert data[i] == d'[l.start + 1 + i];
    }
  }

  lemma CommitAtHeaderLog(l: Layout, d: Image, bs: seq<nat>, data: seq<Block>)
    requires Clean(l, d) && Loggable(l, bs) && |data| == |bs|
    ensures var d' := Apply(d, CommitWrites(l, d, bs, data)[..|bs| + 1]);
            && Recoverable(l, d')
            && d'[l.start] == WithEntries(d[l.start], bs)
            && LogData(l, d', |bs|) == data
            && (forall b: nat :: b < l.blocks && !l.InLog(b) ==> d'[b] == d[b])
  {
    hide Apply, Distinct, CommitWrites, WithEntries;
    CommitBeforeHeader(l, d, bs, data, |bs|);
    CommitHeaderWrite(l, d, bs, data);
    var d' := Apply(d, CommitWrites(l, d, bs, data)[..|bs| + 1]);
    assert LogData(l, d', |bs|) == data;
  }

  /** The header write is the commit point: from the disk it makes, recovery installs everything. */
  lemma CommitAtHeader(l: Layout, d: Image, bs: seq<nat>, data: seq<Block>)
    requires Clean(l, d) && Loggable(l, bs) && |data| == |bs|
    ensures var d' := Apply(d, CommitWrites(l, d, bs, data)[..|bs| + 1]);
            && Recoverable(l, d')
            && (forall b: nat {:trigger HomeValue(l, d', b)} :: b < l.blocks && !l.InLog(b) ==>
                  HomeValue(l, d', b) == Updated(d, bs, data, b))
  {
    CommitAtHeaderLog(l, d, bs, data);
    var d' := Apply(d, CommitWrites(l, d, bs, data)[..|bs| + 1]);
    forall b: nat {:trigger HomeValue(l, d', b)} | b < l.blocks && !l.InLog(b)
      ensures HomeValue(l, d', b) == Updated(d, bs, data, b)
    {
      CommittedHome(l, d, d', bs, data, b);
    }
  }

  /** After the commit point, commit() does exactly the writes a recovery from there would do. */
  lemma CommitTailIsRecovery(l: Layout, d: Image, bs: seq<nat>, data: seq<Block>)
    requires Clean(l, d) && Loggable(l, bs) && |data| == |bs|
    ensures var ws := CommitWrites(l, d, bs, data);
            var d' := Apply(d, ws[..|bs| + 1]);
            Recoverable(l, d') && ws[|bs| + 1..] == RecoveryWrites(l, d')
  {
    hide Apply, Distinct, HeaderOk;
    CommitAtHeaderLog(l, d, bs, data);
  }

  lemma CommitAfterHeader(l: Layout, d: Image, bs: seq<nat>, data: seq<Block>, k: nat)
    requires Clean(l, d) && Loggable(l, bs) && |data| == |bs|
    requires |bs| < k <= |CommitWrites(l, d, bs, data)|
    ensures var ws := CommitWrites(l, d, bs, data);
            var d1, d' := Apply(d, ws[..|bs| + 1]), Apply(d, ws[..k]);
            && Recoverable(l, d1) && Recoverable(l, d') && SameOutcome(l, d1, d')
            && (k == |ws| ==> Clean(l, d'))
  {
    hide Apply, Distinct, HeaderOk;
    var ws := CommitWrites(l, d, bs, data);
    var n := |bs| + 1;
    CommitTailIsRecovery(l, d, bs, data);
    ApplySplit(d, ws, n, k);
    RecoveryCrash(l, Apply(d, ws[..n]), k - n);
  }

  /** Crash atomicity of commit(): whichever prefix of its writes reached the disk, the disk is one that
      recovery accepts, and recovery yields the old home blocks (up to the header write) or all of the
      new ones (from the header write on), never a mixture. */
  lemma CommitCrash(l: Layout, d: Image, bs: seq<nat>, data: seq<Block>, k: nat)
    requires Clean(l, d) && Loggable(l, bs) && |data| == |bs|
    requires k <= |CommitWrites(l, d, bs, data)|
    ensures var ws := CommitWrites(l, d, bs, data);
            var d' := Apply(d, ws[..k]);
            && Recoverable(l, d')
            && (forall b: nat {:trigger HomeValue(l, d', b)} :: b < l.blocks && !l.InLog(b) ==>
                  HomeValue(l, d', b) == if k <= |bs| then d[b] else Updated(d, bs, data, b))
            && (k == |ws| ==> Clean(l, d'))
  {
    if k <= |bs| {
      CommitBeforeHeader(l, d, bs, data, k);
    } else {
      CommitAtHeader(l, d, bs, data);
      CommitAfterHeader(l, d, bs, data, k);
    }
  }

  // ---- whole runs ----

  /** One transaction in the life of the disk. It is cut off after `cut` of its writes (a cut at or past
      the end is no crash), and the reboot's recovery is itself interrupted at each of `again`. */
  datatype Txn = Txn(bs: seq<nat>, data: seq<Block>, cut: nat, again: seq<nat>)

  ghost predicate TxnOk(l: Layout, t: Txn) {
    Loggable(l, t.bs) && |t.data| == |t.bs|
  }

  ghost predicate Committed(t: Txn) {
    |t.bs| < t.cut
  }

  ghost function Life(l: Layout, d: Image, t: Txn): (r: Image)
    requires Clean(l, d) && TxnOk(l, t)
  {
    var ws := CommitWrites(l, d, t.bs, t.data);
    var k := if t.cut < |ws| then t.cut else |ws|;
    CommitCrash(l, d, t.bs, t.data, k);
    var d' := CrashedRecoveries(l, Apply(d, ws[..k]), t.again);
    RecoverySurvivesCrashes(l, Apply(d, ws[..k]), t.again);
    Apply(d', RecoveryWrites(l, d'))
  }

  lemma LifeIsAtomic(l: Layout, d: Image, t: Txn)
    requires Clean(l, d) && TxnOk(l, t)
    ensures var d' := Life(l, d, t);
            && Clean(l, d')
            && forall b: nat :: b < l.blocks && !l.InLog(b) ==>
                 d'[b] == if Committed(t) then Updated(d, t.bs, t.data, b) else d[b]
  {
    var ws := CommitWrites(l, d, t.bs, t.data);
    var k := if t.cut < |ws| then t.cut else |ws|;
    CommitCrash(l, d, t.bs, t.data, k);
    RecoverySurvivesCrashes(l, Apply(d, ws[..k]), t.again);
  }

  ghost function Run(l: Layout, d: Image, ts: seq<Txn>): (r: Image)
    requires Clean(l, d) && forall i :: 0 <= i < |ts| ==> TxnOk(l, ts[i])
    ensures Clean(l, r)
  {
    if ts == [] then d
    else
      var d' := Run(l, d, ts[..|ts| - 1]);
      LifeIsAtomic(l, d', ts[|ts| - 1]);
      Life(l, d', ts[|ts| - 1])
  }

  /** The block contents an application is owed: the last committed transaction that logged b wins. */
  ghost function Owed(d: Image, ts: seq<Txn>, b: nat): (v: Block)
    requires b < |d| && forall i :: 0 <= i < |ts| ==> |ts[i].data| == |ts[i].bs|
  {
    if ts == [] then d[b]
    else
      var t := ts[|ts| - 1];
      var i := IndexOf(t.bs, b);
      if Committed(t) && i < |t.bs| then t.data[i] else Owed(d, ts[..|ts| - 1], b)
  }

  /** Over every history of transactions, crashes in the middle of commits, and crashes in the middle of
      the recoveries that follow, each home block holds what the last committed transaction gave it. */
  lemma {:induction false} RunIsAtomic(l: Layout, d: Image, ts: seq<Txn>)
    requires Clean(l, d) && forall i :: 0 <= i < |ts| ==> TxnOk(l, ts[i])
    ensures forall b: nat :: b < l.blocks && !l.InLog(b) ==> Run(l, d, ts)[b] == Owed(d, ts, b)
  {
    if ts != [] {
      var ts' := ts[..|ts| - 1];
      RunIsAtomic(l, d, ts');
      LifeIsAtomic(l, Run(l, d, ts'), ts[|ts| - 1]);
    }
  }
}
