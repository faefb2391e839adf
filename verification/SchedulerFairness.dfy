/** Rounds of the scheduler of kernel/proc.c over a fixed set of processes: each picks a process with a least
    accumulator, lets it run, and charges it its priority. */
module SchedulerFairness {
  import opened Scheduler

  ghost predicate Round(ps: seq<Proc>, i: nat, now: seq<Proc>) {
    Least(ps, i) && now == Charged(ps, i)
  }

  /** picks is a run of rounds through the tables ss, whichever process is taken among equals. */
  ghost predicate Rounds(ss: seq<seq<Proc>>, picks: seq<nat>) {
    |ss| == |picks| + 1 && forall k :: 0 <= k < |picks| ==> Round(ss[k], picks[k], ss[k + 1])
  }

  ghost predicate Priorities(ps: seq<Proc>) {
    forall i :: 0 <= i < |ps| && Active(ps[i]) ==> 1 <= ps[i].priority <= MAXPRIORITY
  }

  ghost predicate SameSet(ps: seq<Proc>, now: seq<Proc>) {
    && |ps| == |now|
    && forall i :: 0 <= i < |ps| ==> now[i].priority == ps[i].priority && (Active(now[i]) <==> Active(ps[i]))
  }

  /** Along a run the active processes stay the same, and close. */
  lemma {:induction false} StayClose(ss: seq<seq<Proc>>, picks: seq<nat>)
    requires Rounds(ss, picks) && Priorities(ss[0]) && Close(ss[0])
    ensures SameSet(ss[0], ss[|picks|]) && Close(ss[|picks|])
  {
    if picks != [] {
      var n := |picks| - 1;
      Shorter(ss, picks);
      StayClose(ss[..n + 1], picks[..n]);
      assert Round(ss[n], picks[n], ss[n + 1]);
      ChargeKeeps(ss[n], picks[n]);
    }
  }

  lemma Shorter(ss: seq<seq<Proc>>, picks: seq<nat>)
    requires Rounds(ss, picks) && picks != []
    ensures Rounds(ss[..|picks|], picks[..|picks| - 1])
  {
    var n := |picks| - 1;
    forall k | 0 <= k < n ensures Round(ss[..n + 1][k], picks[..n][k], ss[..n + 1][k + 1]) {
      assert Round(ss[k], picks[k], ss[k + 1]);
    }
  }

  // ---- how often a process is passed over ----

  /** How often process q may still be picked before p. */
  function Ahead(ps: seq<Proc>, p: nat, q: nat): (n: nat)
    requires p < |ps| && q < |ps|
  {
    if q == p || !Active(ps[q]) || ps[p].acc < ps[q].acc then 0 else ps[p].acc - ps[q].acc + 1
  }

  function AheadOf(ps: seq<Proc>, p: nat, n: nat): (sum: nat)
    requires p < |ps| && n <= |ps|
  {
    if n == 0 then 0 else AheadOf(ps, p, n - 1) + Ahead(ps, p, n - 1)
  }

  lemma {:induction false} AheadDrops(ps: seq<Proc>, p: nat, i: nat, n: nat)
    requires p < |ps| && Active(ps[p]) && Least(ps, i) && i != p && 1 <= ps[i].priority && n <= |ps|
    ensures AheadOf(Charged(ps, i), p, n) <= AheadOf(ps, p, n) - (if i < n then 1 else 0)
  {
    if n > 0 {
      AheadDrops(ps, p, i, n - 1);
      var now := Charged(ps, i);
      assert n - 1 != i ==> Ahead(now, p, n - 1) == Ahead(ps, p, n - 1);
    }
  }

  /** The lag bound: as long as p is not picked, the rounds number at most the sum over the other active processes
      of how far each is behind p, plus one. */
  lemma {:induction false} Bypassed(ss: seq<seq<Proc>>, picks: seq<nat>, p: nat)
    requires Rounds(ss, picks) && Priorities(ss[0]) && p < |ss[0]| && Active(ss[0][p]) && p !in picks
    ensures |picks| <= AheadOf(ss[0], p, |ss[0]|)
  {
    if picks != [] {
      assert Round(ss[0], picks[0], ss[1]);
      AheadDrops(ss[0], p, picks[0], |ss[0]|);
      Later(ss, picks);
      Bypassed(ss[1..], picks[1..], p);
    }
  }

  lemma Later(ss: seq<seq<Proc>>, picks: seq<nat>)
    requires Rounds(ss, picks) && picks != []
    ensures Rounds(ss[1..], picks[1..])
  {
    forall k | 0 <= k < |picks| - 1 ensures Round(ss[1..][k], picks[1..][k], ss[1..][k + 1]) {
      assert Round(ss[k + 1], picks[k + 1], ss[k + 2]);
    }
  }

  lemma {:induction false} AheadBound(ps: seq<Proc>, p: nat, n: nat)
    requires p < |ps| && Active(ps[p]) && Close(ps) && n <= |ps|
    ensures AheadOf(ps, p, n) <= (MAXPRIORITY + 1) * (if p < n then n - 1 else n)
  {
    if n > 0 {
      AheadBound(ps, p, n - 1);
      assert Active(ps[n - 1]) ==> ps[p].acc - ps[n - 1].acc <= MAXPRIORITY;
    }
  }

  /** So no active process waits for more than 11 * 63 rounds. */
  lemma NoStarvation(ss: seq<seq<Proc>>, picks: seq<nat>, p: nat)
    requires Rounds(ss, picks) && Priorities(ss[0]) && Close(ss[0]) && |ss[0]| == NPROC
    requires p < NPROC && Active(ss[0][p]) && p !in picks
    ensures |picks| <= (MAXPRIORITY + 1) * (NPROC - 1)
  {
    Bypassed(ss, picks, p);
    AheadBound(ss[0], p, NPROC);
  }

  // ---- shares ----

  function Times(picks: seq<nat>, q: nat): (n: nat) {
    if picks == [] then 0 else Times(picks[..|picks| - 1], q) + if picks[|picks| - 1] == q then 1 else 0
  }

  lemma {:induction false} AccAfter(ss: seq<seq<Proc>>, picks: seq<nat>, q: nat)
    requires Rounds(ss, picks) && q < |ss[0]|
    ensures |ss[|picks|]| == |ss[0]| && ss[|picks|][q].priority == ss[0][q].priority
    ensures ss[|picks|][q].acc == ss[0][q].acc + ss[0][q].priority * Times(picks, q)
  {
    if picks != [] {
      var n := |picks| - 1;
      Shorter(ss, picks);
      AccAfter(ss[..n + 1], picks[..n], q);
      assert Round(ss[n], picks[n], ss[n + 1]);
      var t := Times(picks[..n], q);
      assert ss[0][q].priority * (t + 1) == ss[0][q].priority * t + ss[0][q].priority;
    }
  }

  /** Shares are inversely proportional to priorities, to within two top charges, over every run however long. */
  lemma Fair(ss: seq<seq<Proc>>, picks: seq<nat>, q: nat, r: nat)
    requires Rounds(ss, picks) && Priorities(ss[0]) && Close(ss[0])
    requires q < |ss[0]| && r < |ss[0]| && Active(ss[0][q]) && Active(ss[0][r])
    ensures ss[0][q].priority * Times(picks, q) - ss[0][r].priority * Times(picks, r) <= 2 * MAXPRIORITY
  {
    StayClose(ss, picks);
    AccAfter(ss, picks, q);
    AccAfter(ss, picks, r);
  }

  /** The bound needs every priority to be at least 1: a least process with priority 0, as procinit() leaves it, can
      be picked in every round of a run of any length. */
  lemma ZeroStarves(ps: seq<Proc>, z: nat, n: nat) returns (ss: seq<seq<Proc>>, picks: seq<nat>)
    requires Least(ps, z) && ps[z].state == Runnable && ps[z].priority == 0
    ensures Rounds(ss, picks) && ss[0] == ps && |picks| == n && forall k :: 0 <= k < n ==> picks[k] == z
  {
    ss := seq(n + 1, _ => ps);
    picks := seq(n, _ => z);
    assert Charged(ps, z) == ps;
  }
}
