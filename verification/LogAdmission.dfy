/** When begin_op() (kernel/log.c) puts an operation to sleep for want of log space. Its test reads `committing`, lh.n and
    `outstanding` and nothing else; among the tests on these that let no log grow too big, it is the one that lets most
    operations in. It is not the best there is: one that knew what each operation has logged would let in more. */
module LogAdmission {
  import opened LogProtocol

  /** The operation is counted in, whatever begin_op would do. */
  function Admit(s: State): (t: State) {
    s.(active := s.active + [Op(s.nextId, 0, 0)], nextId := s.nextId + 1)
  }

  /** From s, each of these steps goes through, and operations bring at most MAXOPBLOCKS new blocks. */
  ghost predicate Goes(size: nat, s: State, es: seq<Event>)
    decreases |es|
  {
    es != [] ==> KeepsQuota(s, es[0]) && Step(size, s, es[0]).Next? && Goes(size, Step(size, s, es[0]).state, es[1..])
  }

  ghost function After(size: nat, s: State, es: seq<Event>): (t: State)
    requires Goes(size, s, es)
    decreases |es|
  {
    if es == [] then s else After(size, Step(size, s, es[0]).state, es[1..])
  }

  /** An operation within its quota brings a block for which there is no room. */
  ghost predicate Overrun(size: nat, s: State, k: nat, b: nat) {
    KeepsQuota(s, LogWrite(k, b)) && b !in s.lh && Step(size, s, LogWrite(k, b)) == Panic
  }

  ghost predicate Overruns(size: nat, s: State) {
    exists es, k, b :: Goes(size, s, es) && Overrun(size, After(size, s, es), k, b)
  }

  lemma OverrunsLater(size: nat, s: State, e: Event)
    requires KeepsQuota(s, e) && Step(size, s, e).Next? && Overruns(size, Step(size, s, e).state)
    ensures Overruns(size, s)
  {
    hide Step, KeepsQuota, Overrun;
    var t := Step(size, s, e).state;
    var es, k, b :| Goes(size, t, es) && Overrun(size, After(size, t, es), k, b);
    assert ([e] + es)[1..] == es;
    assert Goes(size, s, [e] + es) && Overrun(size, After(size, s, [e] + es), k, b);
  }

  lemma {:induction false} SomeUnused(active: seq<Op>) returns (k: nat)
    requires Unused(active) > 0
    ensures k < |active| && active[k].added < MAXOPBLOCKS
  {
    var last := |active| - 1;
    if active[last].added < MAXOPBLOCKS {
      k := last;
    } else {
      k := SomeUnused(active[..last]);
    }
  }

  lemma FreshBlock(lh: seq<nat>) returns (b: nat)
    ensures b !in lh
  {
    b := Above(lh, |lh|);
  }

  lemma {:induction false} Above(lh: seq<nat>, n: nat) returns (b: nat)
    requires n <= |lh|
    ensures forall i :: 0 <= i < n ==> lh[i] < b
  {
    b := 0;
    if n > 0 {
      b := Above(lh, n - 1);
      if lh[n - 1] >= b {
        b := lh[n - 1] + 1;
      }
    }
  }

  /** If the operations together may bring more than there is room for, they can. */
  lemma {:induction false} CanOverrun(size: nat, s: State)
    requires |s.lh| + Unused(s.active) > Capacity(size) >= |s.lh|
    ensures Overruns(size, s)
    decreases Capacity(size) - |s.lh|
  {
    hide Unused;
    var k := SomeUnused(s.active);
    var b := FreshBlock(s.lh);
    var e := LogWrite(k, b);
    if |s.lh| < Capacity(size) {
      var t := Step(size, s, e).state;
      UnusedSpend(s.active, k, t.active[k]);
      CanOverrun(size, t);
      OverrunsLater(size, s, e);
    } else {
      assert Goes(size, s, []) && Overrun(size, After(size, s, []), k, b);
    }
  }

  /** If they may not, they cannot, whatever others begin and end meanwhile. */
  lemma {:induction false} CannotOverrun(size: nat, s: State, es: seq<Event>, k: nat, b: nat)
    requires LOGSIZE < size && Reserved(s) && Goes(size, s, es)
    ensures !Overrun(size, After(size, s, es), k, b)
    decreases |es|
  {
    if es == [] {
      if KeepsQuota(s, LogWrite(k, b)) {
        UnusedAtLeast(s.active, k);
      }
    } else {
      StepKeepsReserved(size, s, es[0]);
      CannotOverrun(size, Step(size, s, es[0]).state, es[1..], k, b);
    }
  }

  lemma UnusedOne(active: seq<Op>, op: Op)
    ensures Unused(active + [op]) == Unused(active) + MAXOPBLOCKS - op.added
  {
    assert (active + [op])[..|active|] == active;
  }

  lemma AdmitUnused(s: State)
    ensures Unused(Admit(s).active) == Unused(s.active) + MAXOPBLOCKS
  {
    UnusedOne(s.active, Op(s.nextId, 0, 0));
  }

  /** In a state that a run leads to, one more operation is too many exactly if what is logged, what the operations in
      progress have left of their quotas, and a whole quota for the new one come to more than the log holds. */
  lemma TooManyIff(size: nat, es: seq<Event>)
    requires LOGSIZE < size && Run(size, false, es) && !Exec(size, es).state.committing
    ensures var s := Exec(size, es).state;
            Overruns(size, Admit(s)) <==> |s.lh| + Unused(s.active) + MAXOPBLOCKS > LOGSIZE
  {
    hide Unused, Step;
    var s := Exec(size, es).state;
    var t := Admit(s);
    RunIsSafe(size, false, es);
    AdmitUnused(s);
    if |t.lh| + Unused(t.active) > LOGSIZE {
      CanOverrun(size, t);
    } else {
      forall es', k, b | Goes(size, t, es') ensures !Overrun(size, After(size, t, es'), k, b) {
        CannotOverrun(size, t, es', k, b);
      }
    }
  }

  // ---- what begin_op can know ----

  /** begin_op cannot tell s from t. */
  predicate Alike(s: State, t: State) {
    s.committing == t.committing && |s.lh| == |t.lh| && |s.active| == |t.active|
  }

  lemma {:induction false} ActiveBound(size: nat, es: seq<Event>)
    requires Run(size, false, es)
    ensures |Exec(size, es).state.active| * MAXOPBLOCKS <= LOGSIZE
    decreases |es|
  {
    if es != [] {
      ActiveBound(size, es[..|es| - 1]);
    }
  }

  /** The run in which three operations begin and log n blocks, after which the first 3 - a of them end. */
  function Crowd(n: nat, a: nat): (es: seq<Event>)
    requires 1 <= a <= 3
    decreases 3 - a
  {
    if a == 3 then Worst(n) else Crowd(n, a + 1) + [EndOp(0)]
  }

  ghost predicate CrowdState(n: nat, a: nat, s: State) {
    && |s.lh| == n && !s.committing && |s.active| == a <= 3
    && forall k :: 0 <= k < a ==> s.active[k].added == Spent(n, 3 - a + k)
  }

  lemma CrowdEnds(size: nat, n: nat, a: nat, s: State)
    requires 1 <= a < 3 && CrowdState(n, a + 1, s)
    ensures Step(size, s, EndOp(0)).Next? && CrowdState(n, a, Step(size, s, EndOp(0)).state)
  {
    hide Spent;
    var t := Step(size, s, EndOp(0)).state;
    assert forall k :: 0 <= k < a ==> t.active[k] == s.active[k + 1];
  }

  lemma {:induction false} CrowdRun(size: nat, n: nat, a: nat)
    requires n <= LOGSIZE && n <= size - 1 && 1 <= a <= 3
    ensures Run(size, false, Crowd(n, a)) && CrowdState(n, a, Exec(size, Crowd(n, a)).state)
    decreases 3 - a
  {
    hide Spent, Step;
    if a == 3 {
      WorstRun(size, n, false);
    } else {
      CrowdRun(size, n, a + 1);
      CrowdEnds(size, n, a, Exec(size, Crowd(n, a + 1)).state);
      var es := Crowd(n, a);
      assert es[..|es| - 1] == Crowd(n, a + 1);
    }
  }

  /** In it the operations still in progress have logged as little as they can have. */
  lemma CrowdUnused(n: nat, a: nat, s: State)
    requires n <= LOGSIZE && 1 <= a <= 3 && CrowdState(n, a, s)
    ensures Unused(s.active) == if a * MAXOPBLOCKS <= LOGSIZE - n then a * MAXOPBLOCKS else LOGSIZE - n
  {
    UnusedNone();
    UnusedOne(s.active[..a - 1], s.active[a - 1]);
    if a > 1 {
      UnusedOne(s.active[..a - 2], s.active[a - 2]);
    }
    if a > 2 {
      UnusedOne([], s.active[0]);
    }
  }

  /** Where begin_op sleeps for want of space, some run leads to a state that looks the same to it and in which one more
      operation would be one too many. This holds for a log area of any size. */
  lemma SleepIsNeeded(size: nat, es: seq<Event>) returns (other: seq<Event>)
    requires 1 <= size && Run(size, false, es)
    requires !Exec(size, es).state.committing && Step(size, Exec(size, es).state, BeginOp) == Sleeps
    ensures Run(size, false, other) && Alike(Exec(size, es).state, Exec(size, other).state)
    ensures Overruns(size, Admit(Exec(size, other).state))
  {
    hide Unused, Crowd;
    var s := Exec(size, es).state;
    RunIsSafe(size, false, es);
    ActiveBound(size, es);
    RoomInLog(size, es);
    var n, a := |s.lh|, |s.active|;
    other := Crowd(n, a);
    CrowdRun(size, n, a);
    var t := Exec(size, other).state;
    CrowdUnused(n, a, t);
    AdmitUnused(t);
    CanOverrun(size, Admit(t));
  }

  lemma {:induction false} RoomInLog(size: nat, es: seq<Event>)
    requires 1 <= size && Run(size, false, es)
    ensures |Exec(size, es).state.lh| <= Capacity(size)
    decreases |es|
  {
    if es != [] {
      RoomInLog(size, es[..|es| - 1]);
    }
  }

  /** begin_op sleeps exactly if a commit is running, or one more operation would be one too many in some state that a run
      leads to and that it cannot tell from this one. */
  lemma SleepsIff(size: nat, es: seq<Event>)
    requires LOGSIZE < size && Run(size, false, es)
    ensures var s := Exec(size, es).state;
            Step(size, s, BeginOp) == Sleeps <==>
            s.committing || exists other :: Run(size, false, other) && Alike(s, Exec(size, other).state) &&
                                            Overruns(size, Admit(Exec(size, other).state))
  {
    hide Unused, Overruns;
    var s := Exec(size, es).state;
    if !s.committing {
      if Step(size, s, BeginOp) == Sleeps {
        var _ := SleepIsNeeded(size, es);
      } else {
        forall other | Run(size, false, other) && Alike(s, Exec(size, other).state)
          ensures !Overruns(size, Admit(Exec(size, other).state))
        {
          TooManyIff(size, other);
          UnusedBound(Exec(size, other).state.active);
        }
      }
    }
  }

  /** Two operations, one with its quota spent: begin_op sleeps though one more would do no harm. */
  lemma SleepsThoughSafe(size: nat) returns (es: seq<Event>)
    requires LOGSIZE < size
    ensures Run(size, false, es) && Step(size, Exec(size, es).state, BeginOp) == Sleeps
    ensures !Exec(size, es).state.committing && !Overruns(size, Admit(Exec(size, es).state))
  {
    hide Overruns;
    var n := MAXOPBLOCKS;
    WorstRun(size, n, false);
    es := Worst(n) + [EndOp(2)];
    assert es[..|es| - 1] == Worst(n);
    var s := Exec(size, es).state;
    assert |s.active| == 2 && s.active[0].added == n && s.active[1].added == 0;
    UnusedOne([], s.active[0]);
    UnusedOne([s.active[0]], s.active[1]);
    assert s.active == [] + [s.active[0]] + [s.active[1]];
    TooManyIff(size, es);
  }
}
