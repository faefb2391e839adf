/** The accumulator scheduler of kernel/proc.c: who may run next, and how far processes can drift apart. */
module Scheduler {

  const NPROC := 64
  const INT_MAX := 0x7fff_ffff
  const MAXPRIORITY := 10

  datatype PState = Unused | Used | Sleeping | Runnable | Running | Zombie

  datatype Proc = Proc(state: PState, chan: nat, acc: int, priority: int)

  predicate Active(p: Proc) {
    p.state == Runnable || p.state == Running
  }

  // ---- the set that is scheduled ----

  ghost predicate Bounded(ps: seq<Proc>) {
    forall i :: 0 <= i < |ps| ==>
      && (Active(ps[i]) ==> ps[i].acc < INT_MAX)
      && (Active(ps[i]) || ps[i].state == Sleeping ==> 1 <= ps[i].priority <= MAXPRIORITY)
  }

  /** No two active processes are more than one top-priority charge apart. */
  ghost predicate Close(ps: seq<Proc>) {
    forall i, j :: 0 <= i < |ps| && 0 <= j < |ps| && Active(ps[i]) && Active(ps[j]) ==> ps[i].acc - ps[j].acc <= MAXPRIORITY
  }

  ghost predicate Least(ps: seq<Proc>, i: nat) {
    && i < |ps| && Active(ps[i])
    && forall j :: 0 <= j < |ps| && Active(ps[j]) ==> ps[i].acc <= ps[j].acc
  }

  /** The one CPU's process, if any, has a least accumulator for as long as it runs. */
  ghost predicate Current(ps: seq<Proc>, cur: int) {
    -1 <= cur < |ps| && (0 <= cur ==> Least(ps, cur))
  }

  ghost predicate Good(ps: seq<Proc>, cur: int) {
    |ps| == NPROC && Bounded(ps) && Close(ps) && Current(ps, cur)
  }

  // ---- joining ----

  ghost predicate AnyActive(ps: seq<Proc>, np: nat) {
    exists j :: 0 <= j < |ps| && j != np && Active(ps[j])
  }

  /** v is where process np joins: the least accumulator among the other active processes, or 0. */
  ghost predicate JoinAt(ps: seq<Proc>, np: nat, v: int) {
    && (forall j :: 0 <= j < |ps| && j != np && Active(ps[j]) ==> v <= ps[j].acc)
    && (AnyActive(ps, np) ==> exists j :: 0 <= j < |ps| && j != np && Active(ps[j]) && ps[j].acc == v)
    && (!AnyActive(ps, np) ==> v == 0)
  }

  /** Joining at the minimum keeps everyone close and leaves the running process a least one. */
  lemma JoinKeeps(ps: seq<Proc>, cur: int, np: nat, p: Proc)
    requires Good(ps, cur) && np < NPROC && np != cur && p.state == Runnable && 1 <= p.priority <= MAXPRIORITY
    requires JoinAt(ps, np, p.acc)
    ensures Good(ps[np := p], cur)
  {
    var now := ps[np := p];
    if AnyActive(ps, np) {
      var m :| 0 <= m < |ps| && m != np && Active(ps[m]) && ps[m].acc == p.acc;
      forall j | 0 <= j < |ps| && Active(now[j]) ensures p.acc <= now[j].acc <= p.acc + MAXPRIORITY {
        if j != np {
          assert Active(ps[j]);
          assert ps[j].acc - ps[m].acc <= MAXPRIORITY;
        }
      }
      if 0 <= cur {
        assert Active(ps[cur]) && ps[cur].acc <= ps[m].acc;
      }
    } else {
      assert forall j :: 0 <= j < |ps| && j != np ==> !Active(ps[j]) && now[j] == ps[j];
    }
  }

  // ---- running and charging ----

  function Charged(ps: seq<Proc>, i: nat): (r: seq<Proc>)
    requires i < |ps|
  {
    ps[i := ps[i].(state := Runnable, acc := ps[i].acc + ps[i].priority)]
  }

  /** Charging a least process keeps everyone close. */
  lemma ChargeKeeps(ps: seq<Proc>, i: nat)
    requires Close(ps) && Least(ps, i) && 1 <= ps[i].priority <= MAXPRIORITY
    ensures Close(Charged(ps, i))
  {
    var now := Charged(ps, i);
    forall j, k | 0 <= j < |now| && 0 <= k < |now| && Active(now[j]) && Active(now[k])
      ensures now[j].acc - now[k].acc <= MAXPRIORITY
    {
      assert Active(ps[j]) && Active(ps[k]);
    }
  }

  /** Leaving the active set keeps everyone close. */
  lemma LeaveKeeps(ps: seq<Proc>, cur: int, p: Proc)
    requires Good(ps, cur) && 0 <= cur && !Active(p) && p.priority == ps[cur].priority
    ensures Good(ps[cur := p], -1)
  {
    var now := ps[cur := p];
    forall j | 0 <= j < |now| && Active(now[j]) ensures j != cur && Active(ps[j]) && now[j] == ps[j] {
    }
  }

  class Table {
    var proc: seq<Proc>
    /** The process c->proc points to, or -1. */
    var cur: int
    /** The state field one entry past the end of the table. */
    var past: PState

    ghost predicate Valid()
      reads this
    {
      Good(proc, cur)
    }

    method SetAccumulator(np: nat)
      requires |proc| == NPROC && np < NPROC && Bounded(proc[np := proc[np].(state := Used)])
      modifies `proc
      ensures |proc| == NPROC && proc == old(proc)[np := old(proc)[np].(acc := proc[np].acc)]
      ensures JoinAt(old(proc), np, proc[np].acc)
    {
      proc := proc[np := proc[np].(acc := INT_MAX)];
      ghost var least: int := -1;
      for j := 0 to NPROC
        invariant |proc| == NPROC && proc == old(proc)[np := old(proc)[np].(acc := proc[np].acc)]
        invariant forall k :: 0 <= k < j && k != np && Active(old(proc)[k]) ==> proc[np].acc <= old(proc)[k].acc
        invariant -1 <= least < j
        invariant least == -1 ==> proc[np].acc == INT_MAX && forall k :: 0 <= k < j && k != np ==> !Active(old(proc)[k])
        invariant least != -1 ==> least != np && Active(old(proc)[least]) && proc[np].acc == old(proc)[least].acc
      {
        if Active(proc[j]) && proc[j].acc < proc[np].acc {
          assert j != np;
          assert proc[j] == old(proc)[np := old(proc)[np].(state := Used)][j];
          proc := proc[np := proc[np].(acc := proc[j].acc)];
          least := j;
        } else if j != np && Active(old(proc)[j]) {
          assert proc[j] == old(proc)[np := old(proc)[np].(state := Used)][j];
        }
      }
      if least != -1 {
        assert old(proc)[least] == old(proc)[np := old(proc)[np].(state := Used)][least];
      }
      if proc[np].acc == INT_MAX {
        proc := proc[np := proc[np].(acc := 0)];
      }
    }

    /** The scan of scheduler(): the first process with the least accumulator, if any is below INT_MAX. */
    method Pick() returns (toRun: int)
      requires |proc| == NPROC
      ensures -1 <= toRun < NPROC
      ensures toRun == -1 <==> forall j :: 0 <= j < NPROC && Active(proc[j]) ==> INT_MAX <= proc[j].acc
      ensures 0 <= toRun ==> Least(proc, toRun)
      ensures 0 <= toRun ==> forall j :: 0 <= j < toRun && Active(proc[j]) ==> proc[toRun].acc < proc[j].acc
    {
      var minAcc := INT_MAX;
      toRun := -1;
      for p := 0 to NPROC
        invariant -1 <= toRun < p && minAcc <= INT_MAX
        invariant toRun == -1 ==> minAcc == INT_MAX
        invariant 0 <= toRun ==> Active(proc[toRun]) && proc[toRun].acc == minAcc < INT_MAX
        invariant forall j :: 0 <= j < p && Active(proc[j]) ==> minAcc <= proc[j].acc
        invariant forall j :: 0 <= j < toRun && Active(proc[j]) ==> minAcc < proc[j].acc
      {
        if Active(proc[p]) && proc[p].acc < minAcc {
          minAcc := proc[p].acc;
          toRun := p;
        }
      }
    }

    /** One round of scheduler() on an idle CPU. What it marks as running is where its scan ended, past the table; the
        process picked stays runnable while it runs. */
    method Dispatch()
      requires Valid() && cur == -1
      modifies `cur, `past
      ensures Valid()
      ensures cur == -1 <==> forall j :: 0 <= j < NPROC ==> !Active(proc[j])
      ensures 0 <= cur ==> Least(proc, cur) && forall j :: 0 <= j < cur && Active(proc[j]) ==> proc[cur].acc < proc[j].acc
      ensures past == if cur == -1 then old(past) else Running
    {
      var toRun := Pick();
      if toRun != -1 {
        past := Running;
        cur := toRun;
      }
    }

    method Yield()
      requires Valid() && 0 <= cur && proc[cur].acc + proc[cur].priority < INT_MAX
      modifies this
      ensures Valid() && cur == -1 && proc == Charged(old(proc), old(cur))
    {
      ChargeKeeps(proc, cur);
      proc := proc[cur := proc[cur].(state := Runnable)];
      proc := proc[cur := proc[cur].(acc := proc[cur].acc + proc[cur].priority)];
      assert proc == Charged(old(proc), cur);
      cur := -1;
    }

    method Sleep(chan: nat)
      requires Valid() && 0 <= cur
      modifies this
      ensures Valid() && cur == -1 && proc == old(proc)[old(cur) := old(proc)[old(cur)].(chan := chan, state := Sleeping)]
    {
      LeaveKeeps(proc, cur, proc[cur].(chan := chan, state := Sleeping));
      proc := proc[cur := proc[cur].(chan := chan, state := Sleeping)];
      cur := -1;
    }

    method Exit()
      requires Valid() && 0 <= cur
      modifies this
      ensures Valid() && cur == -1 && proc == old(proc)[old(cur) := old(proc)[old(cur)].(state := Zombie)]
    {
      LeaveKeeps(proc, cur, proc[cur].(state := Zombie));
      proc := proc[cur := proc[cur].(state := Zombie)];
      cur := -1;
    }

    /** Every process asleep on chan, and no other, becomes runnable, all at one accumulator: the least among those
        active before, or 0. */
    method Wakeup(chan: nat)
      requires Valid()
      modifies `proc
      ensures Valid()
      ensures exists v: int :: JoinAt(old(proc), NPROC, v) && Woken(old(proc), proc, chan, NPROC, v)
    {
      hide Good, Woken, JoinAt, Bounded;
      ghost var v := JoinValue(proc);
      WokenStart(proc, chan, v);
      assert |proc| == NPROC by { Length(proc, cur); }
      for p := 0 to NPROC
        invariant |proc| == NPROC && Good(proc, cur) && Woken(old(proc), proc, chan, p, v)
      {
        WokenAt(old(proc), proc, chan, p, v);
        if p != cur {
          if proc[p].state == Sleeping && proc[p].chan == chan {
            ghost var before := proc;
            Sleeper(proc, cur, p);
            proc := proc[p := proc[p].(state := Runnable)];
            SetAccumulator(p);
            WokenNext(old(proc), before, chan, p, v, proc[p].acc);
            JoinFrame(before, p, before[p].(state := Runnable), v);
            JoinKeeps(before, cur, p, proc[p]);
            assert proc == before[p := before[p].(state := Runnable, acc := v)];
          }
        } else {
          Awake(proc, cur);
        }
      }
    }

    /** fork() as far as the scheduler is concerned: the child joins at the least accumulator. */
    method Fork() returns (np: int)
      requires Valid() && 0 <= cur
      modifies `proc
      ensures Valid()
      ensures np == -1 ==> proc == old(proc) && forall j :: 0 <= j < NPROC ==> proc[j].state != Unused
      ensures 0 <= np ==> np < NPROC && old(proc)[np].state == Unused && forall j :: 0 <= j < np ==> old(proc)[j].state != Unused
      ensures 0 <= np ==>
                proc == old(proc)[np := old(proc)[np].(state := Runnable, priority := 5, acc := old(proc)[cur].acc)]
    {
      np := 0;
      while np < NPROC && proc[np].state != Unused
        invariant 0 <= np <= NPROC && forall j :: 0 <= j < np ==> proc[j].state != Unused
      {
        np := np + 1;
      }
      if np == NPROC {
        return -1;
      }
      ghost var before := proc;
      proc := proc[np := proc[np].(state := Used)];
      proc := proc[np := proc[np].(priority := 5)];
      assert proc == before[np := before[np].(state := Used, priority := 5)];
      SetAccumulator(np);
      proc := proc[np := proc[np].(state := Runnable)];
      JoinFrame(before, np, before[np].(state := Used, priority := 5), proc[np].acc);
      JoinKeeps(before, cur, np, proc[np]);
      assert proc[np].acc == before[cur].acc;
      assert proc == before[np := before[np].(state := Runnable, priority := 5, acc := before[cur].acc)];
    }
  }

  /** Where the first process to wake joins. */
  ghost function JoinValue(ps: seq<Proc>): (v: int)
    ensures JoinAt(ps, |ps|, v)
  {
    LeastExists(ps);
    var v :| JoinAt(ps, |ps|, v);
    v
  }

  lemma LeastExists(ps: seq<Proc>)
    ensures exists v: int :: JoinAt(ps, |ps|, v)
  {
    if AnyActive(ps, |ps|) {
      var j :| 0 <= j < |ps| && Active(ps[j]);
      LeastFrom(ps, j, 0);
    } else {
      assert JoinAt(ps, |ps|, 0);
    }
  }

  lemma {:induction false} LeastFrom(ps: seq<Proc>, m: nat, i: nat)
    requires m < |ps| && Active(ps[m]) && i <= |ps| && forall j :: 0 <= j < i && Active(ps[j]) ==> ps[m].acc <= ps[j].acc
    ensures exists v: int :: JoinAt(ps, |ps|, v)
    decreases |ps| - i
  {
    if i == |ps| {
      assert JoinAt(ps, |ps|, ps[m].acc);
    } else if Active(ps[i]) && ps[i].acc < ps[m].acc {
      LeastFrom(ps, i, i + 1);
    } else {
      LeastFrom(ps, m, i + 1);
    }
  }

  predicate Wakes(p: Proc, chan: nat) {
    p.state == Sleeping && p.chan == chan
  }

  /** The sleepers on chan among the first n entries have joined at v; nothing else has changed. */
  ghost predicate Woken(was: seq<Proc>, ps: seq<Proc>, chan: nat, n: nat, v: int) {
    && |was| == |ps| && n <= |ps|
    && forall i :: 0 <= i < |ps| ==>
         ps[i] == if i < n && Wakes(was[i], chan) then was[i].(state := Runnable, acc := v) else was[i]
  }

  lemma WokenStart(ps: seq<Proc>, chan: nat, v: int)
    ensures Woken(ps, ps, chan, 0, v)
  {
  }

  lemma Length(ps: seq<Proc>, cur: int)
    requires Good(ps, cur)
    ensures |ps| == NPROC
  {
  }

  lemma Sleeper(ps: seq<Proc>, cur: int, p: nat)
    requires Good(ps, cur) && p < |ps| && ps[p].state == Sleeping
    ensures 1 <= ps[p].priority <= MAXPRIORITY && Bounded(ps[p := ps[p].(state := Runnable)][p := ps[p].(state := Used)])
  {
  }

  lemma Awake(ps: seq<Proc>, cur: int)
    requires Good(ps, cur) && 0 <= cur
    ensures Active(ps[cur])
  {
  }

  /** Entry p is still as it was; if it is not a sleeper on chan, there is nothing to do. */
  lemma WokenAt(was: seq<Proc>, ps: seq<Proc>, chan: nat, p: nat, v: int)
    requires Woken(was, ps, chan, p, v) && p < |ps|
    ensures |was| == |ps| && ps[p] == was[p] && (!Wakes(was[p], chan) ==> Woken(was, ps, chan, p + 1, v))
  {
  }

  lemma WokenNext(was: seq<Proc>, ps: seq<Proc>, chan: nat, p: nat, v: int, acc: int)
    requires Woken(was, ps, chan, p, v) && p < |ps| && Wakes(was[p], chan) && JoinAt(was, |was|, v)
    requires JoinAt(ps[p := ps[p].(state := Runnable)], p, acc)
    ensures acc == v && Woken(was, ps[p := ps[p].(state := Runnable, acc := v)], chan, p + 1, v)
  {
    var now := ps[p := ps[p].(state := Runnable)];
    forall j | 0 <= j < |now| && j != p && Active(now[j]) ensures v <= now[j].acc {
      assert now[j].acc == v || Active(was[j]);
    }
    if AnyActive(was, |was|) {
      var j :| 0 <= j < |was| && Active(was[j]) && was[j].acc == v;
      assert now[j] == was[j];
      assert AnyActive(now, p);
    } else if AnyActive(now, p) {
      var j :| 0 <= j < |now| && j != p && Active(now[j]);
      assert !Active(was[j]);
    }
  }

  /** The joining process's own entry does not matter to where it joins. */
  lemma JoinFrame(ps: seq<Proc>, np: nat, p: Proc, v: int)
    requires np < |ps| && JoinAt(ps[np := p], np, v)
    ensures JoinAt(ps, np, v)
  {
    var now := ps[np := p];
    assert forall j :: 0 <= j < |ps| && j != np ==> now[j] == ps[j];
    if AnyActive(now, np) {
      var k :| 0 <= k < |now| && k != np && Active(now[k]) && now[k].acc == v;
      assert ps[k] == now[k];
    }
    if AnyActive(ps, np) {
      var j :| 0 <= j < |ps| && j != np && Active(ps[j]);
      assert Active(now[j]);
    }
  }
}
