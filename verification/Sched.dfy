/** kernel/sched.c: the cyclic scan that picks the next process to run. */
module Sched {
  import opened Results
  import opened Processes
  import opened Kernels

  /** How many slots the scan looks at before `i` when it starts behind `cur`. */
  function Distance(cur: nat, i: nat): (d: nat)
    requires cur < NPROCS && i < NPROCS
    ensures d < NPROCS
  {
    if i > cur then i - cur - 1 else i + NPROCS - cur - 1
  }

  /** The slot the scan looks at in place `d`. */
  function Place(cur: nat, d: nat): (i: nat)
    requires cur < NPROCS && d < NPROCS
    ensures i < NPROCS && Distance(cur, i) == d
  {
    if cur + 1 + d < NPROCS then cur + 1 + d else cur + 1 + d - NPROCS
  }

  /** `r` is ready, and nearer behind `cur` than any other ready slot. */
  ghost predicate Nearest(procs: seq<Proc>, cur: nat, r: nat)
    requires cur < NPROCS
  {
    r < NPROCS && IsReady(procs, r) &&
    forall i :: 0 <= i < NPROCS && IsReady(procs, i) ==> Distance(cur, r) <= Distance(cur, i)
  }

  /** The scan goes upwards: between `cur` and the slot picked none is ready, and if it came round, none above `cur` is. */
  lemma NearestIff(procs: seq<Proc>, cur: nat, r: nat)
    requires cur < NPROCS && r < NPROCS == |procs| && procs[r].state == Ready
    ensures Nearest(procs, cur, r) <==>
      if r > cur then forall i :: cur < i < r ==> procs[i].state != Ready
      else (forall i :: cur < i < NPROCS ==> procs[i].state != Ready) && (forall i :: 0 <= i < r ==> procs[i].state != Ready)
  {
    forall i | 0 <= i < NPROCS ensures IsReady(procs, i) <==> procs[i].state == Ready {
    }
  }

  lemma DistanceInjective(cur: nat, i: nat, j: nat)
    requires cur < NPROCS && i < NPROCS && j < NPROCS && Distance(cur, i) == Distance(cur, j)
    ensures i == j
  {
  }

  /** Picking one slot brings every slot the scan had not reached nearer, by as much as it advanced. */
  lemma Nearer(cur: nat, r: nat, x: nat)
    requires cur < NPROCS && r < NPROCS && x < NPROCS && Distance(cur, r) < Distance(cur, x)
    ensures Distance(r, x) == Distance(cur, x) - Distance(cur, r) - 1
  {
  }

  class Scheduler {
    const k: Kernel
    var cur: Option<nat>

    ghost predicate Valid()
      reads this, k, k.m
    {
      k.Inv() && (cur.Some? ==> cur.value < NPROCS)
    }

    /** With no current process the scan starts behind slot 0. */
    function CurId(): (i: nat)
      reads this
    {
      if cur.Some? then cur.value else 0
    }

    constructor (k: Kernel)
      requires k.Inv()
      ensures this.k == k && cur.None? && Valid()
    {
      this.k := k;
      cur := None;
    }

    method Run(i: nat)
      requires Valid() && i < NPROCS && IsReady(k.procs, i)
      modifies this, k
      ensures Valid() && k.World() == old(k.World()) && cur == Some(i)
      ensures k.procs == old(k.procs)[i := old(k.procs)[i].(state := Running)]
    {
      hide Good, WorldOf;
      k.SetState(i, Running);
      cur := Some(i);
    }

    /** One round of the loop of sched, which does not come to an end while nothing is ready. */
    method Round() returns (r: Option<nat>)
      requires Valid()
      modifies this, k
      ensures Valid() && k.World() == old(k.World())
      ensures r.None? <==> forall i :: 0 <= i < NPROCS ==> !IsReady(old(k.procs), i)
      ensures r.None? ==> k.procs == old(k.procs) && cur == old(cur)
      ensures r.Some? ==> old(CurId()) < NPROCS && Nearest(old(k.procs), old(CurId()), r.value) && cur == r
      ensures |old(k.procs)| == NPROCS && (r.None? <==> forall i :: 0 <= i < NPROCS ==> old(k.procs)[i].state != Ready)
      ensures r.Some? ==> r.value < NPROCS && old(k.procs)[r.value].state == Ready
      ensures r.Some? && old(cur).None? ==> Nearest(old(k.procs), 0, r.value)
      ensures r.Some? && old(cur).Some? ==> old(cur).value < NPROCS && Nearest(old(k.procs), old(cur).value, r.value)
      ensures r.Some? ==> r.value < |old(k.procs)| && k.procs == old(k.procs)[r.value := old(k.procs)[r.value].(state := Running)]
    {
      hide Kernel.World, Kernel.Inv;
      WorldKeys(k);
      var curid := CurId();
      var i := (curid + 1) % NPROCS;
      while i != curid
        invariant 0 <= i < NPROCS && k.procs == old(k.procs) && cur == old(cur) && k.World() == old(k.World()) && Valid()
        invariant forall j :: 0 <= j < NPROCS && Distance(curid, j) < Distance(curid, i) ==> !IsReady(k.procs, j)
        decreases NPROCS - Distance(curid, i)
      {
        if k.procs[i].state == Ready {
          Run(i);
          return Some(i);
        }
        ghost var was := i;
        i := if i + 1 != NPROCS then i + 1 else 0;
        Passed(k.procs, curid, was, i);
      }
      if k.procs[curid].state == Ready {
        Run(curid);
        return Some(curid);
      }
      forall j | 0 <= j < NPROCS ensures !IsReady(k.procs, j) {
        if j != curid {
          assert Distance(curid, j) < Distance(curid, curid);
        }
      }
      assert forall j :: 0 <= j < NPROCS ==> (IsReady(k.procs, j) <==> k.procs[j].state == Ready);
      return None;
    }
  }

  lemma Passed(procs: seq<Proc>, cur: nat, i: nat, n: nat)
    requires cur < NPROCS && i < NPROCS && i != cur && n == (if i + 1 != NPROCS then i + 1 else 0) && !IsReady(procs, i)
    requires forall j :: 0 <= j < NPROCS && Distance(cur, j) < Distance(cur, i) ==> !IsReady(procs, j)
    ensures Distance(cur, n) == Distance(cur, i) + 1
    ensures forall j :: 0 <= j < NPROCS && Distance(cur, j) < Distance(cur, n) ==> !IsReady(procs, j)
  {
    forall j | 0 <= j < NPROCS && Distance(cur, j) < Distance(cur, n) ensures !IsReady(procs, j) {
      if Distance(cur, j) == Distance(cur, i) {
        DistanceInjective(cur, i, j);
      }
    }
  }

  // ---------------------------------------------------------------- whole runs

  /** One dispatch: the process table the scan found, the slot it started behind, the slot it picked.
      What happens to the table between two dispatches is left open. */
  datatype Dispatch = Dispatch(procs: seq<Proc>, cur: nat, picked: nat)

  ghost predicate IsDispatch(d: Dispatch)
  {
    d.cur < NPROCS && Nearest(d.procs, d.cur, d.picked)
  }

  ghost predicate IsRun(ds: seq<Dispatch>)
  {
    && (forall j :: 0 <= j < |ds| ==> IsDispatch(ds[j]))
    && (forall i, j :: 0 <= i && j == i + 1 < |ds| ==> ds[j].cur == ds[i].picked)
  }

  /** `x` is ready at every dispatch of the run and never picked. */
  ghost predicate Waits(ds: seq<Dispatch>, x: nat)
  {
    x < NPROCS && forall j :: 0 <= j < |ds| ==> IsReady(ds[j].procs, x) && ds[j].picked != x
  }

  /** A waiting process is passed by at most as many dispatches as there are slots before it. */
  lemma {:induction false} WaitBound(ds: seq<Dispatch>, x: nat)
    requires IsRun(ds) && Waits(ds, x) && ds != []
    ensures |ds| <= Distance(ds[0].cur, x) <= NPROCS - 1
    decreases |ds|
  {
    var d := ds[0];
    assert IsDispatch(d) && IsReady(d.procs, x);
    if Distance(d.cur, d.picked) == Distance(d.cur, x) {
      DistanceInjective(d.cur, d.picked, x);
    }
    Nearer(d.cur, d.picked, x);
    if |ds| > 1 {
      RunTail(ds, x);
      WaitBound(ds[1..], x);
    }
  }

  lemma RunTail(ds: seq<Dispatch>, x: nat)
    requires IsRun(ds) && Waits(ds, x) && |ds| > 1
    ensures IsRun(ds[1..]) && Waits(ds[1..], x) && ds[1].cur == ds[0].picked
  {
    var t := ds[1..];
    assert forall j :: 0 <= j < |t| ==> t[j] == ds[j + 1];
    forall i, j | 0 <= i && j == i + 1 < |t| ensures t[j].cur == t[i].picked {
      var j' := j + 1;
      assert ds[j'].cur == ds[j].picked;
    }
  }

  /** Every pick while `x` waits is nearer to `x` than the one before. */
  lemma {:induction false} PicksApproach(ds: seq<Dispatch>, x: nat, i: nat)
    requires IsRun(ds) && Waits(ds, x) && i < |ds|
    ensures Distance(ds[i].picked, x) < Distance(ds[i].cur, x)
  {
    var d := ds[i];
    assert IsDispatch(d) && IsReady(d.procs, x);
    if Distance(d.cur, d.picked) == Distance(d.cur, x) {
      DistanceInjective(d.cur, d.picked, x);
    }
    Nearer(d.cur, d.picked, x);
  }

  lemma {:induction false} PicksDescend(ds: seq<Dispatch>, x: nat, i: nat, j: nat)
    requires IsRun(ds) && Waits(ds, x) && i < j < |ds|
    ensures Distance(ds[j].picked, x) < Distance(ds[i].picked, x)
    decreases j - i
  {
    PicksApproach(ds, x, j);
    var j' := j - 1;
    assert ds[j].cur == ds[j'].picked;
    if i < j' {
      PicksDescend(ds, x, i, j');
    }
  }

  /** Bounded waiting: while a process stays ready and is not picked, at most NPROCS - 1 dispatches go to
      others, and none of them twice, whatever the other slots do in between. */
  lemma BoundedWaiting(ds: seq<Dispatch>, x: nat)
    requires IsRun(ds) && Waits(ds, x)
    ensures |ds| <= NPROCS - 1
    ensures forall i, j :: 0 <= i < j < |ds| ==> ds[i].picked != ds[j].picked
  {
    if ds != [] {
      WaitBound(ds, x);
    }
    forall i, j | 0 <= i < j < |ds| ensures ds[i].picked != ds[j].picked {
      PicksDescend(ds, x, i, j);
    }
  }

  /** The bound is met: when every slot is always ready, the one that ran last waits for all others. */
  ghost function Crowd(procs: seq<Proc>, x: nat, n: nat): (ds: seq<Dispatch>)
    requires x < NPROCS && n < NPROCS
    ensures |ds| == n
  {
    if n == 0 then []
    else Crowd(procs, x, n - 1) + [Dispatch(procs, if n == 1 then x else Place(x, n - 2), Place(x, n - 1))]
  }

  lemma {:induction false} CrowdWaits(procs: seq<Proc>, x: nat, n: nat)
    requires x < NPROCS && n < NPROCS && forall i :: 0 <= i < NPROCS ==> IsReady(procs, i)
    ensures IsRun(Crowd(procs, x, n)) && Waits(Crowd(procs, x, n), x)
    ensures n > 0 ==> Crowd(procs, x, n)[n - 1].picked == Place(x, n - 1)
  {
    if n > 0 {
      CrowdWaits(procs, x, n - 1);
      var before := Crowd(procs, x, n - 1);
      var d := Crowd(procs, x, n)[n - 1];
      assert Crowd(procs, x, n) == before + [d];
      assert Distance(d.cur, d.picked) == 0;
      assert IsDispatch(d);
    }
  }
}
