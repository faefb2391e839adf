/** Operations, commits and crashes together: the protocol of module LogProtocol between any number of processes, on the
    disk of module CrashSafety, with a crash and any number of interrupted recoveries at any moment. */
module Transactions {
  import opened BlockDevice
  import opened CrashSafety
  import opened LogProtocol
  import WriteAheadLog

  /** A change of a block by an operation. Operations are numbered anew after each crash. */
  datatype Change = Change(epoch: nat, op: nat, block: nat, value: Block)

  /** `cache` is what reads return. `kept` are the changes of committed transactions, `pending` those of the current one,
      and `lost` those that a crash has undone. */
  datatype System = System(p: State, disk: Image, cache: Image, epoch: nat, kept: seq<Change>, pending: seq<Change>, lost: seq<Change>)

  /** A critical section of the log, in which log_write logs a block whose new contents are `v`; or a crash, after `cut` of
      the writes of commit if one is running, with recoveries interrupted after each of `again` writes. */
  datatype Happening = Do(e: Event, v: Block) | Crash(cut: nat, again: seq<nat>)

  ghost predicate Home(l: Layout, b: nat) {
    b < l.blocks && !l.InLog(b)
  }

  ghost function Start(d: Image): (s: System) {
    System(Init, d, d, 0, [], [], [])
  }

  ghost predicate Base(l: Layout, s: System) {
    Clean(l, s.disk) && |s.cache| == l.blocks && Loggable(l, s.p.lh)
  }

  /** The event goes through, the operation keeps its quota, and what it logs is no block of the log. */
  ghost predicate Enabled(l: Layout, p: State, e: Event) {
    Step(l.size, p, e).Next? && KeepsQuota(p, e) && (e.LogWrite? ==> Home(l, e.block))
  }

  /** The disk after a commit, if there is anything to commit. */
  ghost function CommittedDisk(l: Layout, s: System): (d: Image)
    requires Base(l, s)
  {
    if s.p.lh == [] then s.disk
    else Apply(s.disk, CommitWrites(l, s.disk, s.p.lh, WriteAheadLog.Cached(s.cache, s.p.lh)))
  }

  ghost function Done(l: Layout, s: System, e: Event, v: Block): (t: System)
    requires Base(l, s) && Enabled(l, s.p, e)
  {
    var p := Step(l.size, s.p, e).state;
    match e
    case LogWrite(k, b) =>
      s.(p := p, cache := s.cache[b := v], pending := s.pending + [Change(s.epoch, s.p.active[k].id, b, v)])
    case CommitEnds => s.(p := p, disk := CommittedDisk(l, s), kept := s.kept + s.pending, pending := [])
    case _ => s.(p := p)
  }

  /** What is being committed when the crash comes: nothing, unless a commit is running. */
  ghost function Interrupted(l: Layout, s: System, cut: nat, again: seq<nat>): (t: Txn)
    requires Base(l, s)
    ensures TxnOk(l, t)
  {
    LoggableNone(l);
    if s.p.committing && s.p.lh != [] then Txn(s.p.lh, WriteAheadLog.Cached(s.cache, s.p.lh), cut, again) else Txn([], [], 0, again)
  }

  ghost function Crashed(l: Layout, s: System, cut: nat, again: seq<nat>): (t: System)
    requires Base(l, s)
  {
    var txn := Interrupted(l, s, cut, again);
    var d := Life(l, s.disk, txn);
    if Committed(txn)
    then System(Init, d, d, s.epoch + 1, s.kept + s.pending, [], s.lost)
    else System(Init, d, d, s.epoch + 1, s.kept, [], s.lost + s.pending)
  }

  ghost predicate Next(l: Layout, s: System, h: Happening, t: System) {
    && Base(l, s)
    && match h
       case Do(e, v) => Enabled(l, s.p, e) && t == Done(l, s, e, v)
       case Crash(cut, again) => t == Crashed(l, s, cut, again)
  }

  ghost predicate Trace(l: Layout, d: Image, hs: seq<Happening>, ss: seq<System>) {
    && |ss| == |hs| + 1 && ss[0] == Start(d)
    && forall i :: 0 <= i < |hs| ==> Next(l, ss[i], hs[i], ss[i + 1])
  }

  // ---- what holds in every state ----

  /** The contents of block b after the changes, in order. */
  ghost function Replay(d: Image, cs: seq<Change>, b: nat): (v: Block)
    requires b < |d|
  {
    if cs == [] then d[b]
    else if cs[|cs| - 1].block == b then cs[|cs| - 1].value
    else Replay(d, cs[..|cs| - 1], b)
  }

  ghost predicate SameOp(c: Change, c': Change) {
    c.epoch == c'.epoch && c.op == c'.op
  }

  /** No operation has changes in both. */
  ghost predicate Apart(cs: seq<Change>, cs': seq<Change>) {
    forall c, c' :: c in cs && c' in cs' ==> !SameOp(c, c')
  }

  /** A change in the books of the protocol. */
  ghost predicate Booked(p: State, c: Change, txn: nat) {
    Update(c.op, c.block, txn) in p.updates
  }

  ghost predicate Accounts(s: System) {
    && (forall c :: c in s.pending ==> c.epoch == s.epoch && Booked(s.p, c, |s.p.done|))
    && (forall c :: c in s.kept ==> c.epoch < s.epoch || (c.epoch == s.epoch && exists txn :: 0 <= txn < |s.p.done| && Booked(s.p, c, txn)))
    && (forall c :: c in s.lost ==> c.epoch < s.epoch)
    && Apart(s.kept, s.lost)
  }

  ghost predicate Values(l: Layout, d: Image, s: System)
    requires |d| == |s.disk| == |s.cache| == l.blocks
  {
    forall b: nat {:trigger Home(l, b)} :: Home(l, b) ==>
      s.disk[b] == Replay(d, s.kept, b) && s.cache[b] == Replay(d, s.kept + s.pending, b)
  }

  ghost predicate Good(l: Layout, d: Image, s: System) {
    Base(l, s) && |d| == l.blocks && Reserved(s.p) && Isolated(s.p) && Accounts(s) && Values(l, d, s)
  }

  lemma StartGood(l: Layout, d: Image)
    requires Clean(l, d)
    ensures Good(l, d, Start(d))
  {
    UnusedNone();
    LoggableNone(l);
  }

  lemma ReplayNext(d: Image, cs: seq<Change>, c: Change, b: nat)
    requires b < |d|
    ensures Replay(d, cs + [c], b) == if c.block == b then c.value else Replay(d, cs, b)
  {
    assert (cs + [c])[..|cs|] == cs;
  }

  lemma {:induction false} ReplaySkip(d: Image, cs: seq<Change>, more: seq<Change>, b: nat)
    requires b < |d| && forall c :: c in more ==> c.block != b
    ensures Replay(d, cs + more, b) == Replay(d, cs, b)
    decreases |more|
  {
    if more == [] {
      assert cs + more == cs;
    } else {
      var m := more[..|more| - 1];
      assert cs + more == (cs + m) + [more[|more| - 1]];
      ReplaySkip(d, cs, m, b);
      ReplayNext(d, cs + m, more[|more| - 1], b);
    }
  }

  /** The blocks of pending changes are logged, so a home block that commit does not write has none. */
  lemma PendingLogged(s: System, c: Change)
    requires Isolated(s.p) && Accounts(s) && c in s.pending
    ensures c.block in s.p.lh
  {
    assert Booked(s.p, c, |s.p.done|);
  }

  /** No operation of the current transaction has changes in an earlier one. */
  lemma PendingApart(s: System)
    requires Isolated(s.p) && Accounts(s)
    ensures Apart(s.kept, s.pending) && Apart(s.pending, s.lost) && Apart(s.kept + s.pending, s.lost) && Apart(s.kept, s.lost + s.pending)
  {
    forall c, c' | c in s.kept && c' in s.pending ensures !SameOp(c, c') {
      assert Booked(s.p, c', |s.p.done|);
      if c.epoch == s.epoch {
        var txn :| 0 <= txn < |s.p.done| && Booked(s.p, c, txn);
        assert Update(c.op, c.block, txn).op == c.op;
      }
    }
  }

  // ---- the steps ----

  lemma UpdatedIsReplay(l: Layout, d: Image, s: System, b: nat)
    requires Good(l, d, s) && Home(l, b)
    ensures Updated(s.disk, s.p.lh, WriteAheadLog.Cached(s.cache, s.p.lh), b) == Replay(d, s.kept + s.pending, b)
  {
    hide Reserved, Clean, Isolated;
    if b !in s.p.lh {
      forall c | c in s.pending ensures c.block != b {
        PendingLogged(s, c);
      }
      ReplaySkip(d, s.kept, s.pending, b);
    }
  }

  lemma CommitValues(l: Layout, d: Image, s: System)
    requires Good(l, d, s)
    ensures Clean(l, CommittedDisk(l, s))
    ensures forall b: nat {:trigger Home(l, b)} :: Home(l, b) ==> CommittedDisk(l, s)[b] == Replay(d, s.kept + s.pending, b)
  {
    hide Reserved, Isolated, CommitWrites, Apply, Updated;
    var bs, data, t := s.p.lh, WriteAheadLog.Cached(s.cache, s.p.lh), CommittedDisk(l, s);
    var ws := CommitWrites(l, s.disk, bs, data);
    assert ws[..|ws|] == ws;
    CommitCrash(l, s.disk, bs, data, |ws|);
    forall b: nat {:trigger Home(l, b)} | Home(l, b) ensures t[b] == Replay(d, s.kept + s.pending, b) {
      UpdatedIsReplay(l, d, s, b);
      if bs != [] {
        CleanHome(l, t, b);
      } else {
        NothingUpdated(s.disk, data, b);
      }
    }
  }

  lemma NothingUpdated(d: Image, data: seq<Block>, b: nat)
    requires data == [] && b < |d|
    ensures Updated(d, [], data, b) == d[b]
  {
  }

  lemma WriteGood(l: Layout, d: Image, s: System, k: nat, b: nat, v: Block)
    requires Good(l, d, s) && Enabled(l, s.p, LogWrite(k, b))
    ensures Good(l, d, Done(l, s, LogWrite(k, b), v))
  {
    hide Clean, Reserved, Isolated;
    var t := Done(l, s, LogWrite(k, b), v);
    StepKeepsReserved(l.size, s.p, LogWrite(k, b));
    StepKeepsIsolated(l.size, s.p, LogWrite(k, b));
    LogGrows(l, s.p, k, b);
    forall x: nat {:trigger Home(l, x)} | Home(l, x) ensures t.cache[x] == Replay(d, t.kept + t.pending, x) {
      var c := Change(s.epoch, s.p.active[k].id, b, v);
      assert s.kept + (s.pending + [c]) == s.kept + s.pending + [c];
      ReplayNext(d, s.kept + s.pending, c, x);
    }
    WriteAccounts(l, s, k, b, v);
  }

  lemma LogGrows(l: Layout, p: State, k: nat, b: nat)
    requires Loggable(l, p.lh) && Enabled(l, p, LogWrite(k, b))
    ensures Loggable(l, Step(l.size, p, LogWrite(k, b)).state.lh)
  {
    if b !in p.lh {
      LoggableOneMore(l, p.lh, b);
    }
  }

  lemma WriteAccounts(l: Layout, s: System, k: nat, b: nat, v: Block)
    requires Base(l, s) && Accounts(s) && Enabled(l, s.p, LogWrite(k, b))
    ensures Accounts(Done(l, s, LogWrite(k, b), v))
  {
    hide Clean, Loggable;
    var t := Done(l, s, LogWrite(k, b), v);
    assert forall u :: u in s.p.updates ==> u in t.p.updates;
    forall c | c in t.pending ensures c.epoch == t.epoch && Booked(t.p, c, |t.p.done|) {
      if c in s.pending {
        assert Booked(s.p, c, |s.p.done|);
      }
    }
    forall c | c in t.kept && c.epoch == s.epoch ensures exists txn :: 0 <= txn < |t.p.done| && Booked(t.p, c, txn) {
      var txn :| 0 <= txn < |s.p.done| && Booked(s.p, c, txn);
      assert Booked(t.p, c, txn);
    }
  }

  lemma CommitGood(l: Layout, d: Image, s: System, v: Block)
    requires Good(l, d, s) && Enabled(l, s.p, CommitEnds)
    ensures Good(l, d, Done(l, s, CommitEnds, v))
  {
    hide Clean, Reserved, Isolated, Loggable;
    var t := Done(l, s, CommitEnds, v);
    StepKeepsReserved(l.size, s.p, CommitEnds);
    StepKeepsIsolated(l.size, s.p, CommitEnds);
    CommitValues(l, d, s);
    assert Loggable(l, []) by { CleanOk(l, s.disk); LoggableNone(l); }
    PendingApart(s);
    assert t.kept + t.pending == t.kept;
    forall c | c in t.kept && c.epoch == s.epoch ensures exists txn :: 0 <= txn < |t.p.done| && Booked(t.p, c, txn) {
      if c in s.pending {
        assert Booked(t.p, c, |s.p.done|);
      } else {
        var txn :| 0 <= txn < |s.p.done| && Booked(s.p, c, txn);
        assert Booked(t.p, c, txn);
      }
    }
  }

  lemma CleanOk(l: Layout, d: Image)
    requires Clean(l, d)
    ensures l.Ok() && |d| == l.blocks
  {
  }

  lemma OtherGood(l: Layout, d: Image, s: System, e: Event, v: Block)
    requires Good(l, d, s) && Enabled(l, s.p, e) && (e.BeginOp? || e.EndOp?)
    ensures Good(l, d, Done(l, s, e, v))
  {
    hide Clean, Reserved, Isolated, Loggable;
    StepKeepsReserved(l.size, s.p, e);
    StepKeepsIsolated(l.size, s.p, e);
    var t := Done(l, s, e, v);
    assert t.p.updates == s.p.updates && t.p.done == s.p.done && t.p.lh == s.p.lh;
    forall c | c in t.kept && c.epoch == s.epoch ensures exists txn :: 0 <= txn < |t.p.done| && Booked(t.p, c, txn) {
      var txn :| 0 <= txn < |s.p.done| && Booked(s.p, c, txn);
      assert Booked(t.p, c, txn);
    }
    assert forall c :: c in t.pending ==> Booked(s.p, c, |s.p.done|) && Booked(t.p, c, |t.p.done|);
  }

  lemma CrashGood(l: Layout, d: Image, s: System, cut: nat, again: seq<nat>)
    requires Good(l, d, s)
    ensures Good(l, d, Crashed(l, s, cut, again))
  {
    hide Clean, Isolated, Loggable, Life, Reserved, Updated;
    var t, txn := Crashed(l, s, cut, again), Interrupted(l, s, cut, again);
    LifeIsAtomic(l, s.disk, txn);
    PendingApart(s);
    StartGood(l, t.disk);
    assert t.kept + t.pending == t.kept;
    forall b: nat {:trigger Home(l, b)} | Home(l, b) ensures t.disk[b] == Replay(d, t.kept, b) {
      UpdatedIsReplay(l, d, s, b);
    }
  }

  lemma NextGood(l: Layout, d: Image, s: System, h: Happening, t: System)
    requires Good(l, d, s) && Next(l, s, h, t)
    ensures Good(l, d, t)
  {
    hide Good, Base;
    match h
    case Do(e, v) =>
      match e {
        case LogWrite(k, b) => WriteGood(l, d, s, k, b, v);
        case CommitEnds => CommitGood(l, d, s, v);
        case BeginOp => OtherGood(l, d, s, e, v);
        case EndOp(_) => OtherGood(l, d, s, e, v);
      }
    case Crash(cut, again) => CrashGood(l, d, s, cut, again);
  }

  // ---- over whole runs ----

  lemma {:induction false} TraceGood(l: Layout, d: Image, hs: seq<Happening>, ss: seq<System>, i: nat)
    requires Clean(l, d) && Trace(l, d, hs, ss) && i <= |hs|
    ensures Good(l, d, ss[i])
  {
    hide Good, Base, Done, Crashed, Clean, Start, Enabled;
    if i == 0 {
      StartGood(l, d);
    } else {
      TraceGood(l, d, hs, ss, i - 1);
      assert Next(l, ss[i - 1], hs[i - 1], ss[i]);
      NextGood(l, d, ss[i - 1], hs[i - 1], ss[i]);
    }
  }

  /** At every moment, and so after every recovery, the home blocks on disk are what the changes of whole operations make of
      them: those of committed transactions, in order. No operation has some changes among these and others that are lost
      or pending. */
  lemma WholeOperations(l: Layout, d: Image, hs: seq<Happening>, ss: seq<System>, i: nat)
    requires Clean(l, d) && Trace(l, d, hs, ss) && i <= |hs|
    ensures Clean(l, ss[i].disk) && |d| == |ss[i].disk| == |ss[i].cache| == l.blocks
    ensures forall b: nat {:trigger Home(l, b)} :: Home(l, b) ==>
              ss[i].disk[b] == Replay(d, ss[i].kept, b) && ss[i].cache[b] == Replay(d, ss[i].kept + ss[i].pending, b)
    ensures Apart(ss[i].kept, ss[i].lost + ss[i].pending)
  {
    hide Reserved, Isolated;
    TraceGood(l, d, hs, ss, i);
    PendingApart(ss[i]);
  }

  /** What reads returned at a moment of the run before any crash that followed, with no operation in progress. */
  ghost predicate Quiet(l: Layout, hs: seq<Happening>, ss: seq<System>, j: nat, disk: Image)
    requires |ss| == |hs| + 1
  {
    && j <= |hs| && (j == 0 || hs[j - 1].Do?) && ss[j].p.active == []
    && |ss[j].cache| == |disk| == l.blocks
    && forall b: nat {:trigger Home(l, b)} :: Home(l, b) ==> ss[j].cache[b] == disk[b]
  }

  /** The home blocks on disk, at every moment and so after every recovery, are what reads returned at some moment of normal
      running when no operation was in progress. */
  lemma {:induction false} DiskWasQuiet(l: Layout, d: Image, hs: seq<Happening>, ss: seq<System>, i: nat) returns (j: nat)
    requires Clean(l, d) && Trace(l, d, hs, ss) && i <= |hs|
    ensures j <= i && Quiet(l, hs, ss, j, ss[i].disk)
  {
    hide Good, Next, Clean, Quiet, SameHome;
    if i == 0 {
      j := 0;
      QuietStart(l, d, hs, ss);
    } else {
      var s, t, h := ss[i - 1], ss[i], hs[i - 1];
      assert Next(l, s, h, t);
      j := DiskWasQuiet(l, d, hs, ss, i - 1);
      TraceGood(l, d, hs, ss, i - 1);
      DiskMoves(l, d, s, h, t);
      if SameHome(l, s.disk, t.disk) {
        QuietStays(l, hs, ss, j, s.disk, t.disk);
      } else {
        j := LastDo(l, d, hs, ss, i - 1);
        QuietNow(l, hs, ss, j, t.disk);
      }
    }
  }

  lemma QuietStart(l: Layout, d: Image, hs: seq<Happening>, ss: seq<System>)
    requires Clean(l, d) && |ss| == |hs| + 1 && ss[0] == Start(d)
    ensures Quiet(l, hs, ss, 0, ss[0].disk)
  {
  }

  lemma QuietStays(l: Layout, hs: seq<Happening>, ss: seq<System>, j: nat, c: Image, d: Image)
    requires |ss| == |hs| + 1 && j <= |hs| && Quiet(l, hs, ss, j, c) && SameHome(l, c, d)
    ensures Quiet(l, hs, ss, j, d)
  {
  }

  lemma QuietNow(l: Layout, hs: seq<Happening>, ss: seq<System>, j: nat, d: Image)
    requires |ss| == |hs| + 1 && 0 < j <= |hs| && hs[j - 1].Do? && ss[j].p.active == [] && SameHome(l, ss[j].cache, d)
    ensures Quiet(l, hs, ss, j, d)
  {
  }

  ghost predicate SameHome(l: Layout, c: Image, d: Image) {
    |c| == |d| == l.blocks && forall b: nat {:trigger Home(l, b)} :: Home(l, b) ==> c[b] == d[b]
  }

  /** The disk's home blocks stay, or become what reads return while a commit runs. */
  lemma DiskMoves(l: Layout, d: Image, s: System, h: Happening, t: System)
    requires Good(l, d, s) && Next(l, s, h, t)
    ensures |t.disk| == l.blocks && (SameHome(l, s.disk, t.disk) || (s.p.committing && SameHome(l, s.cache, t.disk)))
  {
    hide Reserved, Isolated, Clean, Loggable, Life, CommitWrites, Apply, Updated;
    CleanOk(l, s.disk);
    match h
    case Do(e, v) =>
      if e.CommitEnds? {
        CommitValues(l, d, s);
        CleanOk(l, t.disk);
      }
    case Crash(cut, again) =>
      var txn := Interrupted(l, s, cut, again);
      LifeIsAtomic(l, s.disk, txn);
      CleanOk(l, t.disk);
      forall b: nat {:trigger Home(l, b)} | Home(l, b) ensures Committed(txn) ==> t.disk[b] == s.cache[b] {
        UpdatedIsReplay(l, d, s, b);
      }
  }

  /** While a commit runs, the last thing that happened was not a crash. */
  lemma LastDo(l: Layout, d: Image, hs: seq<Happening>, ss: seq<System>, i: nat) returns (j: nat)
    requires Clean(l, d) && Trace(l, d, hs, ss) && i <= |hs| && ss[i].p.committing
    ensures j == i && 0 < j && hs[j - 1].Do? && ss[j].p.active == []
  {
    TraceGood(l, d, hs, ss, i);
    j := i;
    assert i > 0;
    assert Next(l, ss[i - 1], hs[i - 1], ss[i]);
  }

  /** A property of the home blocks that holds whenever no operation is in progress holds of what recovery leaves. */
  lemma InvariantSurvives(l: Layout, d: Image, hs: seq<Happening>, ss: seq<System>, i: nat, holds: Image -> bool)
    requires Clean(l, d) && Trace(l, d, hs, ss) && i <= |hs|
    requires forall c, c' :: SameHome(l, c, c') ==> holds(c) == holds(c')
    requires forall j: nat :: j <= i && ss[j].p.active == [] && (j == 0 || hs[j - 1].Do?) ==> holds(ss[j].cache)
    ensures holds(ss[i].disk)
  {
    var j := DiskWasQuiet(l, d, hs, ss, i);
    assert SameHome(l, ss[j].cache, ss[i].disk);
  }
}
