/** begin_op, log_write, end_op and the end of a commit (kernel/log.c) as a protocol between any number
    of processes. Each step is one critical section of log.lock, so a run is any interleaving of them. */
module LogProtocol {
  import CrashSafety

  const MAXOPBLOCKS := CrashSafety.MAXOPBLOCKS
  const LOGSIZE := CrashSafety.LOGSIZE

  /** An operation between its begin_op and its end_op: how often it has called log_write, and how many
      of those calls put a block into the log that was not there. */
  datatype Op = Op(id: nat, calls: nat, added: nat)

  /** A log_write that happened: by which operation, for which block, in which transaction. */
  datatype Update = Update(op: nat, block: nat, txn: nat)

  /** `lh` is the in-memory header; log.outstanding is |active|; `done` are the committed transactions. */
  datatype State = State(lh: seq<nat>, active: seq<Op>, committing: bool, nextId: nat,
                         done: seq<seq<nat>>, updates: seq<Update>)

  datatype Event = BeginOp | LogWrite(k: nat, block: nat) | EndOp(k: nat) | CommitEnds

  datatype Outcome = Next(state: State) | Sleeps | Panic

  const Init := State([], [], false, 0, [], [])

  /** What the code does when the event happens. `size` is log.size. */
  function Step(size: nat, s: State, e: Event): (o: Outcome) {
    match e
    case BeginOp =>
      if s.committing then Sleeps
      else if |s.lh| + (|s.active| + 1) * MAXOPBLOCKS > LOGSIZE then Sleeps
      else Next(s.(active := s.active + [Op(s.nextId, 0, 0)], nextId := s.nextId + 1))
    case LogWrite(k, b) =>
      if |s.lh| >= LOGSIZE || |s.lh| >= size - 1 then Panic
      else if |s.active| < 1 then Panic
      else if k >= |s.active| then Sleeps
      else
        var op := s.active[k];
        var first := b !in s.lh;
        Next(s.(lh := if first then s.lh + [b] else s.lh,
                active := s.active[k := Op(op.id, op.calls + 1, if first then op.added + 1 else op.added)],
                updates := s.updates + [Update(op.id, b, |s.done|)]))
    case EndOp(k) =>
      if k >= |s.active| then Sleeps
      else if s.committing then Panic
      else
        var active := s.active[..k] + s.active[k + 1..];
        Next(s.(active := active, committing := active == []))
    case CommitEnds =>
      if s.committing then Next(s.(lh := [], committing := false, done := s.done + [s.lh])) else Sleeps
  }

  /** The state a sequence of events leads to, if none of them sleeps or panics. */
  function Exec(size: nat, es: seq<Event>): (o: Outcome) {
    if es == [] then Next(Init)
    else match Exec(size, es[..|es| - 1])
      case Next(s) => Step(size, s, es[|es| - 1])
      case o => o
  }

  // ---- what the callers owe ----

  /** No operation brings more than MAXOPBLOCKS new blocks. */
  ghost predicate KeepsQuota(s: State, e: Event) {
    match e
    case LogWrite(k, b) => k < |s.active| && (b in s.lh || s.active[k].added < MAXOPBLOCKS)
    case _ => true
  }

  /** The stronger promise: an operation calls log_write at most MAXOPBLOCKS times, absorbed or not. */
  ghost predicate KeepsCalls(s: State, e: Event) {
    match e
    case LogWrite(k, b) => k < |s.active| && s.active[k].calls < MAXOPBLOCKS
    case _ => true
  }

  ghost predicate Promise(frugal: bool, s: State, e: Event) {
    if frugal then KeepsCalls(s, e) else KeepsQuota(s, e)
  }

  /** A run: every step goes through, and every caller keeps the promise. */
  ghost predicate Run(size: nat, frugal: bool, es: seq<Event>) {
    && Exec(size, es).Next?
    && (es != [] ==>
          && Run(size, frugal, es[..|es| - 1])
          && Promise(frugal, Exec(size, es[..|es| - 1]).state, es[|es| - 1]))
  }

  /** Log space still reserved for the operations in progress. */
  function Unused(active: seq<Op>): (n: int) {
    if active == [] then 0 else Unused(active[..|active| - 1]) + MAXOPBLOCKS - active[|active| - 1].added
  }

  lemma UnusedNone()
    ensures Unused([]) == 0
  {
  }

  lemma {:induction false} UnusedBound(active: seq<Op>)
    ensures Unused(active) <= |active| * MAXOPBLOCKS
  {
    if active != [] {
      UnusedBound(active[..|active| - 1]);
    }
  }

  lemma {:induction false} UnusedRemove(active: seq<Op>, k: nat)
    requires k < |active|
    ensures Unused(active[..k] + active[k + 1..]) == Unused(active) - MAXOPBLOCKS + active[k].added
    decreases |active|
  {
    var r, last := active[..k] + active[k + 1..], |active| - 1;
    if k == last {
      assert r == active[..last];
    } else {
      UnusedRemove(active[..last], k);
      assert r[..|r| - 1] == active[..last][..k] + active[..last][k + 1..];
      assert r[|r| - 1] == active[last];
    }
  }

  lemma {:induction false} UnusedSpend(active: seq<Op>, k: nat, op: Op)
    requires k < |active|
    ensures Unused(active[k := op]) == Unused(active) + active[k].added - op.added
    decreases |active|
  {
    var last := |active| - 1;
    if k == last {
      assert active[k := op][..last] == active[..last];
    } else {
      UnusedSpend(active[..last], k, op);
      assert active[k := op][..last] == active[..last][k := op];
    }
  }

  /** The log never fills: what is logged plus what is reserved fits in LOGSIZE. A commit runs with no
      operation in progress, and operations never find a half-full log that no one will commit. */
  ghost predicate Reserved(s: State) {
    && |s.lh| + Unused(s.active) <= LOGSIZE
    && (forall i :: 0 <= i < |s.active| ==> s.active[i].added <= MAXOPBLOCKS && s.active[i].added <= s.active[i].calls)
    && (s.committing ==> s.active == [])
    && (s.active == [] && !s.committing ==> s.lh == [])
  }

  /** Every update is in the transaction that was open when its operation began. */
  ghost predicate Isolated(s: State) {
    && (forall i :: 0 <= i < |s.active| ==> s.active[i].id < s.nextId)
    && (forall i, j :: 0 <= i < j < |s.active| ==> s.active[i].id != s.active[j].id)
    && (forall u :: u in s.updates ==> u.op < s.nextId && u.txn <= |s.done|)
    && (forall u :: u in s.updates ==>
          u.block in if u.txn < |s.done| then s.done[u.txn] else s.lh)
    && (forall u, i :: u in s.updates && 0 <= i < |s.active| && u.op == s.active[i].id ==> u.txn == |s.done|)
    && (forall u, v :: u in s.updates && v in s.updates && u.op == v.op ==> u.txn == v.txn)
  }

  lemma {:induction false} UnusedNonNegative(active: seq<Op>)
    requires forall i :: 0 <= i < |active| ==> active[i].added <= MAXOPBLOCKS
    ensures 0 <= Unused(active)
  {
    if active != [] {
      UnusedNonNegative(active[..|active| - 1]);
    }
  }

  lemma BeginKeepsReserved(size: nat, s: State)
    requires Reserved(s) && Step(size, s, BeginOp).Next?
    ensures Reserved(Step(size, s, BeginOp).state)
  {
    UnusedBound(s.active);
    var s' := Step(size, s, BeginOp).state;
    assert s'.active[..|s.active|] == s.active;
  }

  lemma WriteKeepsReserved(size: nat, s: State, k: nat, b: nat)
    requires Reserved(s) && Step(size, s, LogWrite(k, b)).Next?
    requires KeepsQuota(s, LogWrite(k, b)) || KeepsCalls(s, LogWrite(k, b))
    ensures Reserved(Step(size, s, LogWrite(k, b)).state)
  {
    UnusedSpend(s.active, k, Step(size, s, LogWrite(k, b)).state.active[k]);
  }

  lemma EndKeepsReserved(size: nat, s: State, k: nat)
    requires Reserved(s) && Step(size, s, EndOp(k)).Next?
    ensures Reserved(Step(size, s, EndOp(k)).state)
  {
    hide Unused;
    UnusedRemove(s.active, k);
    UnusedNone();
    var s' := Step(size, s, EndOp(k)).state;
    assert forall i :: 0 <= i < |s'.active| ==> s'.active[i] == s.active[if i < k then i else i + 1];
    UnusedNonNegative(s'.active);
  }

  lemma StepKeepsReserved(size: nat, s: State, e: Event)
    requires Reserved(s) && (KeepsQuota(s, e) || KeepsCalls(s, e)) && Step(size, s, e).Next?
    ensures Reserved(Step(size, s, e).state)
  {
    match e
    case BeginOp => BeginKeepsReserved(size, s);
    case LogWrite(k, b) => WriteKeepsReserved(size, s, k, b);
    case EndOp(k) => EndKeepsReserved(size, s, k);
    case CommitEnds =>
  }

  lemma WriteKeepsIsolated(size: nat, s: State, k: nat, b: nat)
    requires Isolated(s) && Step(size, s, LogWrite(k, b)).Next?
    ensures Isolated(Step(size, s, LogWrite(k, b)).state)
  {
    var s' := Step(size, s, LogWrite(k, b)).state;
    var added := Update(s.active[k].id, b, |s.done|);
    assert forall u :: u in s'.updates ==> u in s.updates || u == added;
    assert forall i :: 0 <= i < |s.active| ==> s'.active[i].id == s.active[i].id;
    assert added.block in s'.lh;
  }

  lemma EndKeepsIsolated(size: nat, s: State, k: nat)
    requires Isolated(s) && Step(size, s, EndOp(k)).Next?
    ensures Isolated(Step(size, s, EndOp(k)).state)
  {
    var s' := Step(size, s, EndOp(k)).state;
    assert forall i :: 0 <= i < |s'.active| ==> s'.active[i] == s.active[if i < k then i else i + 1];
  }

  lemma StepKeepsIsolated(size: nat, s: State, e: Event)
    requires Reserved(s) && Isolated(s) && Step(size, s, e).Next?
    ensures Isolated(Step(size, s, e).state)
  {
    match e
    case BeginOp =>
    case LogWrite(k, b) => WriteKeepsIsolated(size, s, k, b);
    case EndOp(k) => EndKeepsIsolated(size, s, k);
    case CommitEnds =>
      assert forall i :: 0 <= i < |s.done| ==> Step(size, s, e).state.done[i] == s.done[i];
  }

  /** Over every interleaving: reservations hold and no operation is split. */
  lemma {:induction false} RunIsSafe(size: nat, frugal: bool, es: seq<Event>)
    requires Run(size, frugal, es)
    ensures var s := Exec(size, es).state;
            Reserved(s) && Isolated(s) && |s.lh| <= LOGSIZE
    decreases |es|
  {
    if es != [] {
      var es', e := es[..|es| - 1], es[|es| - 1];
      RunIsSafe(size, frugal, es');
      var s := Exec(size, es').state;
      StepKeepsReserved(size, s, e);
      StepKeepsIsolated(size, s, e);
    }
    UnusedNonNegative(Exec(size, es).state.active);
  }

  /** All updates of an operation are in one transaction: once it is committed the commit has all of
      them, and until then they are all still waiting in the in-memory header. */
  lemma OperationsAreAtomic(size: nat, es: seq<Event>, u: Update, v: Update)
    requires Run(size, false, es)
    requires u in Exec(size, es).state.updates && v in Exec(size, es).state.updates && u.op == v.op
    ensures var s := Exec(size, es).state;
            && u.txn == v.txn <= |s.done|
            && (u.txn < |s.done| ==> u.block in s.done[u.txn] && v.block in s.done[u.txn])
            && (u.txn == |s.done| ==> u.block in s.lh && v.block in s.lh)
  {
    RunIsSafe(size, false, es);
  }

  /** end_op never finds a commit in progress, so its "log.committing" panic is unreachable. */
  lemma EndOpNeverPanics(size: nat, es: seq<Event>, k: nat)
    requires Run(size, false, es)
    ensures Step(size, Exec(size, es).state, EndOp(k)) != Panic
  {
    RunIsSafe(size, false, es);
  }

  // ---- "too big a transaction" ----

  lemma {:induction false} UnusedAtLeast(active: seq<Op>, k: nat)
    requires k < |active| && forall i :: 0 <= i < |active| ==> active[i].added <= MAXOPBLOCKS
    ensures MAXOPBLOCKS - active[k].added <= Unused(active)
    decreases |active|
  {
    var last := |active| - 1;
    UnusedNonNegative(active[..last]);
    if k < last {
      UnusedAtLeast(active[..last], k);
    }
  }

  lemma BigLogNeverPanics(size: nat, es: seq<Event>, k: nat, b: nat)
    requires Run(size, true, es) && KeepsCalls(Exec(size, es).state, LogWrite(k, b)) && LOGSIZE < size
    ensures Step(size, Exec(size, es).state, LogWrite(k, b)) != Panic
  {
    RunIsSafe(size, true, es);
    UnusedAtLeast(Exec(size, es).state.active, k);
  }

  // The other half: a log of LOGSIZE blocks or fewer, such as mkfs makes, can be overrun by three
  // operations that log ten different blocks each.

  function Worst(n: nat): (es: seq<Event>)
    ensures |es| == n + 3
  {
    if n == 0 then [BeginOp, BeginOp, BeginOp] else Worst(n - 1) + [LogWrite((n - 1) / MAXOPBLOCKS, n - 1)]
  }

  function Spent(n: nat, k: nat): (c: nat) {
    if n <= k * MAXOPBLOCKS then 0 else if n - k * MAXOPBLOCKS < MAXOPBLOCKS then n - k * MAXOPBLOCKS else MAXOPBLOCKS
  }

  ghost predicate WorstState(n: nat, s: State) {
    && s.lh == seq(n, i => i) && !s.committing
    && |s.active| == 3
    && forall k :: 0 <= k < 3 ==> s.active[k].calls == Spent(n, k) && s.active[k].added == Spent(n, k)
  }

  lemma WorstStart(size: nat, frugal: bool)
    requires 1 <= size
    ensures Run(size, frugal, Worst(0)) && WorstState(0, Exec(size, Worst(0)).state)
  {
    var e := Worst(0);
    assert e[..2][..1][..0] == [];
    assert Exec(size, e[..2][..1][..0]) == Next(Init);
    assert Exec(size, e[..2][..1]) == Step(size, Init, BeginOp);
    assert Run(size, frugal, e[..2][..1]);
    assert Run(size, frugal, e[..2]);
  }

  lemma WorstStep(size: nat, n: nat, s: State)
    requires n < LOGSIZE && WorstState(n, s)
    ensures var e := LogWrite(n / MAXOPBLOCKS, n);
            && KeepsCalls(s, e) && KeepsQuota(s, e)
            && if n < size - 1 then Step(size, s, e).Next? && WorstState(n + 1, Step(size, s, e).state)
               else Step(size, s, e) == Panic
  {
    var k := n / MAXOPBLOCKS;
    assert k < 3 && Spent(n, k) == n - k * MAXOPBLOCKS;
    if n < size - 1 {
      var s' := Step(size, s, LogWrite(k, n)).state;
      assert n !in s.lh;
      assert s'.lh == seq(n + 1, i => i);
      forall j | 0 <= j < 3 ensures s'.active[j].calls == Spent(n + 1, j) && s'.active[j].added == Spent(n + 1, j) {
        assert j < k ==> (j + 1) * MAXOPBLOCKS <= n;
        assert j > k ==> n < j * MAXOPBLOCKS;
      }
    }
  }

  lemma {:induction false} WorstRun(size: nat, n: nat, frugal: bool)
    requires n <= LOGSIZE && n <= size - 1
    ensures Run(size, frugal, Worst(n)) && WorstState(n, Exec(size, Worst(n)).state)
  {
    hide WorstState, Step, KeepsCalls, KeepsQuota;
    if n == 0 {
      WorstStart(size, frugal);
    } else {
      WorstRun(size, n - 1, frugal);
      WorstStep(size, n - 1, Exec(size, Worst(n - 1)).state);
      assert Worst(n)[..|Worst(n)| - 1] == Worst(n - 1);
    }
  }

  /** Some run of operations that keep the promise reaches "too big a transaction". */
  ghost predicate CanPanic(size: nat, frugal: bool) {
    exists es, k, b ::
      Run(size, frugal, es) && Promise(frugal, Exec(size, es).state, LogWrite(k, b)) &&
      Step(size, Exec(size, es).state, LogWrite(k, b)) == Panic
  }

  /** Operations that keep to MAXOPBLOCKS calls of log_write can reach the panic exactly when the log area has no
      room for LOGSIZE blocks besides its header. */
  lemma TooBigIffLogTooSmall(size: nat)
    requires 1 <= size
    ensures CanPanic(size, true) <==> size <= LOGSIZE
  {
    hide WorstState, Step, KeepsCalls;
    if size <= LOGSIZE {
      WorstRun(size, size - 1, true);
      WorstStep(size, size - 1, Exec(size, Worst(size - 1)).state);
    } else {
      forall es, k, b | Run(size, true, es) && KeepsCalls(Exec(size, es).state, LogWrite(k, b))
        ensures Step(size, Exec(size, es).state, LogWrite(k, b)) != Panic
      {
        BigLogNeverPanics(size, es, k, b);
      }
    }
  }

  /** Operations that keep to MAXOPBLOCKS blocks, the promise that filewrite keeps, can reach it whatever the size:
      log_write tests for room before it looks whether the block is logged already. */
  lemma QuotaIsNotEnough(size: nat)
    requires 1 <= size
    ensures CanPanic(size, false)
  {
    hide WorstState, Step, KeepsQuota;
    if size <= LOGSIZE {
      WorstRun(size, size - 1, false);
      WorstStep(size, size - 1, Exec(size, Worst(size - 1)).state);
    } else {
      WorstRun(size, LOGSIZE, false);
      WorstFull(size, Exec(size, Worst(LOGSIZE)).state);
    }
  }

  lemma WorstFull(size: nat, s: State)
    requires WorstState(LOGSIZE, s)
    ensures Step(size, s, LogWrite(0, 0)) == Panic && KeepsQuota(s, LogWrite(0, 0))
  {
    assert s.lh[0] == 0;
  }

  /** What a log area of `size` blocks can take. */
  function Capacity(size: nat): (c: int) {
    if LOGSIZE < size then LOGSIZE else size - 1
  }

  /** For them the panic comes exactly when the log is full; and with a large enough log area, only for a block that
      is logged already. */
  lemma QuotaPanicsWhenFull(size: nat, es: seq<Event>, k: nat, b: nat)
    requires Run(size, false, es) && KeepsQuota(Exec(size, es).state, LogWrite(k, b))
    ensures var s := Exec(size, es).state;
            && (Step(size, s, LogWrite(k, b)) == Panic <==> |s.lh| >= Capacity(size))
            && (LOGSIZE < size && |s.lh| >= Capacity(size) ==> b in s.lh)
  {
    RunIsSafe(size, false, es);
    UnusedAtLeast(Exec(size, es).state.active, k);
  }
}
