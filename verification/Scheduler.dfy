/** The round-robin scheduler of kern/sched.c on one processor. */
module Scheduler {

  const NENV: nat := 1024

  /** The slot that the scan visits after `pre`; slot 0 is passed over. */
  function After(pre: nat): (r: nat)
    requires pre < NENV
    ensures 1 <= r < NENV
  {
    if (pre + 1) % NENV != 0 then (pre + 1) % NENV else 1
  }

  /** The slot visited at step `k` of a scan. */
  function Visit(pre: nat, k: nat): (r: nat)
    requires pre < NENV
    ensures r < NENV && (k > 0 ==> r > 0)
  {
    if k == 0 then pre else After(Visit(pre, k - 1))
  }

  /** The step at which a scan that starts after `pre` reaches slot `t`. */
  function Distance(pre: nat, t: nat): (k: nat)
    requires pre < NENV && 1 <= t < NENV
    ensures 1 <= k < NENV
  {
    if t > pre then t - pre else t + (NENV - 1) - pre
  }

  lemma {:induction false} VisitAt(pre: nat, k: nat)
    requires pre < NENV && k < NENV
    ensures Visit(pre, k) == if pre + k < NENV then pre + k else pre + k - (NENV - 1)
    decreases k
  {
    if k > 0 {
      VisitAt(pre, k - 1);
    }
  }

  /** One scan visits every slot from 1 up exactly once. */
  lemma {:induction false} VisitIsDistance(pre: nat, k: nat, t: nat)
    requires pre < NENV && 1 <= k < NENV && 1 <= t < NENV
    ensures Visit(pre, k) == t <==> k == Distance(pre, t)
    decreases k
  {
    VisitAt(pre, k);
  }

  /** The slot that runs next: the nearest runnable one after `pre`, and slot 0 when there is none. */
  ghost predicate Picks(pre: nat, runnable: seq<bool>, r: nat)
    requires pre < NENV && |runnable| == NENV
  {
    if r == 0 then forall t :: 1 <= t < NENV ==> !runnable[t]
    else 1 <= r < NENV && runnable[r] && forall t :: 1 <= t < NENV && runnable[t] ==>
      Distance(pre, r) <= Distance(pre, t)
  }

  class Sched {
    var pre: nat

    ghost predicate Valid()
      reads this
    {
      pre < NENV
    }

    constructor ()
      ensures Valid() && pre == 0
    {
      pre := 0;
    }

    /** sched_yield: the slot of the environment that is run. */
    method Yield(runnable: seq<bool>) returns (r: nat)
      requires Valid() && |runnable| == NENV
      modifies this
      ensures Valid() && Picks(old(pre), runnable, r)
      ensures r != 0 ==> pre == r
      ensures r == 0 ==> pre == if old(pre) == 0 then NENV - 1 else old(pre)
    {
      for i := 1 to NENV
        invariant pre < NENV && pre == Visit(old(pre), i - 1)
        invariant forall t :: 1 <= t < NENV && runnable[t] ==> Distance(old(pre), t) >= i
      {
        pre := if (pre + 1) % NENV != 0 then (pre + 1) % NENV else 1;
        assert pre == Visit(old(pre), i);
        VisitIsDistance(old(pre), i, pre);
        if runnable[pre] {
          return pre;
        }
        forall t | 1 <= t < NENV && runnable[t] ensures Distance(old(pre), t) >= i + 1 {
          VisitIsDistance(old(pre), i, t);
        }
      }
      VisitAt(old(pre), NENV - 1);
      return 0;
    }
  }

  // ---------- Runs ----------

  /** Consecutive calls of sched_yield: what was runnable at each call and what was chosen. */
  datatype Call = Call(runnable: seq<bool>, chosen: nat)

  function PreAfter(pre: nat, chosen: nat): nat {
    if chosen != 0 then chosen else if pre == 0 then NENV - 1 else pre
  }

  ghost predicate IsRun(pre: nat, calls: seq<Call>)
    decreases |calls|
  {
    pre < NENV &&
    (calls == [] || (|calls[0].runnable| == NENV && Picks(pre, calls[0].runnable, calls[0].chosen)
                     && IsRun(PreAfter(pre, calls[0].chosen), calls[1..])))
  }

  /** An environment that is passed over is nearer at the next call. */
  lemma DistanceShrinks(pre: nat, runnable: seq<bool>, r: nat, t: nat)
    requires pre < NENV && |runnable| == NENV && Picks(pre, runnable, r) && 1 <= t < NENV && runnable[t] && r != t
    ensures 1 <= r < NENV && Distance(r, t) < Distance(pre, t)
  {
    assert Distance(pre, r) <= Distance(pre, t);
  }

  /** Bounded bypass: an environment that is runnable at every call is chosen within NENV - 1 calls. */
  lemma {:induction false} ChosenInTime(pre: nat, calls: seq<Call>, t: nat)
    requires IsRun(pre, calls) && 1 <= t < NENV && |calls| >= Distance(pre, t)
    requires forall i :: 0 <= i < |calls| ==> |calls[i].runnable| == NENV && calls[i].runnable[t]
    ensures exists i :: 0 <= i < Distance(pre, t) && i < NENV - 1 && calls[i].chosen == t
    decreases |calls|
  {
    var r := calls[0].chosen;
    if r == t {
      assert calls[0].chosen == t;
    } else {
      DistanceShrinks(pre, calls[0].runnable, r, t);
      ChosenInTime(r, calls[1..], t);
      var i :| 0 <= i < Distance(r, t) && i < NENV - 1 && calls[1..][i].chosen == t;
      assert calls[i + 1].chosen == t;
    }
  }
}
