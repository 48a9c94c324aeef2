/**
 Which chains pbuf_copy (net/lwip/core/pbuf.c) can copy, in terms of the lengths of their segments:
 its loop also looks for a second packet behind the current segments, and an empty end of a chain
 looks like one.
 */
module PbufLengths {

  /** The bytes before segment `k`. */
  function Pre(a: seq<nat>, k: nat): nat
    requires k <= |a|
  {
    if k == 0 then 0 else Pre(a, k - 1) + a[k - 1]
  }

  function Total(a: seq<nat>): nat {
    Pre(a, |a|)
  }

  lemma {:induction false} PreGrows(a: seq<nat>, i: nat, k: nat)
    requires i <= k <= |a|
    ensures Pre(a, i) <= Pre(a, k)
    ensures i < k ==> Pre(a, i) + a[i] <= Pre(a, k)
    decreases k - i
  {
    if i < k {
      PreGrows(a, i + 1, k);
    }
  }

  /** There is a next segment and no byte after this one: `len == tot_len` and `next != NULL`. */
  predicate QueuedAt(a: seq<nat>, k: nat) {
    k + 1 < |a| && Pre(a, k + 1) == Total(a)
  }

  /** The last segment that is not empty, or the first. */
  function LastUsed(a: seq<nat>): (e: nat)
    requires a != []
    ensures e < |a| && (e > 0 ==> a[e] > 0) && forall k :: e < k < |a| ==> a[k] == 0
  {
    if |a| == 1 then 0
    else if a[|a| - 1] > 0 then |a| - 1
    else
      var e := LastUsed(a[..|a| - 1]);
      assert forall k :: 0 <= k < |a| - 1 ==> a[..|a| - 1][k] == a[k];
      e
  }

  lemma {:induction false} PreStays(a: seq<nat>, i: nat, k: nat)
    requires i <= k <= |a|
    ensures Pre(a, i) == Pre(a, k) <==> forall x :: i <= x < k ==> a[x] == 0
    decreases k - i
  {
    if i < k {
      PreStays(a, i, k - 1);
      PreGrows(a, i, k - 1);
    }
  }

  lemma QueuedIff(a: seq<nat>, k: nat)
    requires a != []
    ensures QueuedAt(a, k) <==> LastUsed(a) <= k < |a| - 1
  {
    if k + 1 < |a| {
      PreStays(a, k + 1, |a|);
    }
  }

  /** The last segment is not empty, or it is the only one. */
  predicate Plain(a: seq<nat>) {
    |a| == 1 || (a != [] && a[|a| - 1] > 0)
  }

  lemma PlainIff(a: seq<nat>)
    requires a != []
    ensures Plain(a) <==> LastUsed(a) == |a| - 1
    ensures Plain(a) <==> forall k: nat :: !QueuedAt(a, k)
  {
    forall k: nat ensures QueuedAt(a, k) <==> LastUsed(a) <= k < |a| - 1 { QueuedIff(a, k); }
    if !Plain(a) {
      assert QueuedAt(a, LastUsed(a));
    }
  }

  /**
   The condition under which a source of segments `a` is copied into a target of segments `b` that
   has room for it. A plain source goes into a plain target, and into another as long as it ends
   before the target's last byte does. A source that is not plain must have just one empty segment
   after one that fits the first of the target.
   */
  predicate CanCopy(a: seq<nat>, b: seq<nat>)
    requires a != [] && b != []
  {
    if !Plain(a) then
      && |a| == 2
      && if a[0] < b[0] then !QueuedAt(b, 0)
         else a[0] == b[0] && |b| > 1 && !QueuedAt(b, 1) && (b[1] == 0 ==> !QueuedAt(b, 2))
    else if Plain(b) then true
    else
      var e := LastUsed(b);
      if e == 0 then |b| == 2 && a[0] == b[0]
      else if Total(a) == 0 then e > 1 || b[0] > 0
      else Total(a) < Pre(b, e) || (Total(a) == Pre(b, e) && b[e - 1] == 0)
  }

  /** The target is used up by the first segment of a source that goes on with an empty one. */
  predicate RunsOff(a: seq<nat>, b: seq<nat>)
    requires a != [] && b != []
  {
    |a| == 2 && a[1] == 0 && |b| == 1 && a[0] == b[0]
  }

  // ---------- The rounds of the loop ----------

  /** `of` bytes of source segment `i` and `ot` bytes of target segment `j` are done. */
  datatype Spot = Spot(i: nat, j: nat, of: nat, ot: nat)

  predicate At(a: seq<nat>, i: nat, o: nat) {
    if i < |a| then o < a[i] || (o == 0 && a[i] == 0) else i == |a| && o == 0
  }

  predicate Placed(a: seq<nat>, b: seq<nat>, s: Spot) {
    At(a, s.i, s.of) && At(b, s.j, s.ot) && Pre(a, s.i) + s.of == Pre(b, s.j) + s.ot
  }

  function Round(a: seq<nat>, b: seq<nat>, s: Spot): Spot
    requires s.i < |a| && s.j < |b| && s.of <= a[s.i] && s.ot <= b[s.j]
  {
    var m := if b[s.j] - s.ot >= a[s.i] - s.of then a[s.i] - s.of else b[s.j] - s.ot;
    var (j, ot) := if s.ot + m == b[s.j] then (s.j + 1, 0) else (s.j, s.ot + m);
    if s.of + m >= a[s.i] then Spot(s.i + 1, j, 0, ot) else Spot(s.i, j, s.of + m, ot)
  }

  lemma RoundPlaced(a: seq<nat>, b: seq<nat>, s: Spot)
    requires Placed(a, b, s) && s.i < |a| && s.j < |b|
    ensures Placed(a, b, Round(a, b, s))
  {
  }

  /**
   No segment that the loop has looked at was queued; the first two are looked at only if the first
   round stays there.
   */
  ghost predicate Unqueued(a: seq<nat>, i: nat, stays: bool) {
    (forall k: nat :: 1 <= k <= i ==> !QueuedAt(a, k)) && (stays ==> !QueuedAt(a, 0))
  }

  /** Where the loop can be after some rounds in which it has found nothing wrong. */
  ghost predicate Passed(a: seq<nat>, b: seq<nat>, s: Spot)
    requires a != [] && b != []
  {
    && Placed(a, b, s) && Unqueued(a, s.i, a[0] > b[0]) && Unqueued(b, s.j, a[0] < b[0])
    && (a[0] <= b[0] ==> s.i >= 1) && (a[0] >= b[0] ==> s.j >= 1)
    && (|a| > 1 && a[1] == 0 && a[0] <= b[0] && s.i == 1 ==> s.j == if a[0] == b[0] then 1 else 0)
  }

  ghost predicate Reached(a: seq<nat>, b: seq<nat>, s: Spot)
    requires a != [] && b != []
  {
    s == Spot(0, 0, 0, 0) || Passed(a, b, s)
  }

  lemma ReachedPlaced(a: seq<nat>, b: seq<nat>, s: Spot)
    requires a != [] && b != [] && Reached(a, b, s)
    ensures Placed(a, b, s)
  {
  }

  /** A round that finds nothing wrong. */
  lemma RoundPasses(a: seq<nat>, b: seq<nat>, s: Spot, t: Spot)
    requires a != [] && b != [] && Reached(a, b, s) && s.i < |a| && s.j < |b|
    requires s.of <= a[s.i] && s.ot <= b[s.j] && t == Round(a, b, s)
    requires !QueuedAt(a, t.i) && !QueuedAt(b, t.j)
    ensures Passed(a, b, t)
  {
    ReachedPlaced(a, b, s);
    RoundPlaced(a, b, s);
  }

  /** A plain source with bytes has some left in every round. */
  lemma SomeLeft(a: seq<nat>, i: nat, of: nat)
    requires Plain(a) && Total(a) > 0 && i < |a| && At(a, i, of)
    ensures Pre(a, i) + of < Total(a)
  {
    if i + 1 < |a| {
      PreGrows(a, i, |a| - 1);
      PreGrows(a, |a| - 1, |a|);
    }
  }

  /** A queued source segment that has been seen means a source that cannot be copied. */
  lemma SourceQueued(a: seq<nat>, b: seq<nat>, s: Spot, t: Spot)
    requires a != [] && b != [] && Reached(a, b, s) && s.i < |a| && s.j < |b|
    requires s.of <= a[s.i] && s.ot <= b[s.j] && t == Round(a, b, s) && QueuedAt(a, t.i)
    ensures !CanCopy(a, b) && !RunsOff(a, b)
  {
    PlainIff(a);
    assert t.i >= 1 || a[0] > b[0];
  }

  /** So does a queued target segment: a plain source would go on into it. */
  lemma TargetQueuedPlain(a: seq<nat>, b: seq<nat>, s: Spot, t: Spot)
    requires a != [] && b != [] && Reached(a, b, s) && s.i < |a| && s.j < |b| && Plain(a) && Total(a) <= Total(b)
    requires s.of <= a[s.i] && s.ot <= b[s.j] && t == Round(a, b, s) && QueuedAt(b, t.j)
    ensures !CanCopy(a, b)
  {
    PlainIff(b);
    ReachedPlaced(a, b, s);
    RoundPlaced(a, b, s);
    var e := LastUsed(b);
    QueuedIff(b, t.j);
    QueuedIff(b, s.j);
    if e > 0 && Total(a) > 0 {
      assert t.j >= 1 && (s.j >= 1 ==> !QueuedAt(b, s.j));
      assert t.j == e && s.j == e - 1;
      PreGrows(a, t.i, |a|);
      SomeLeft(a, s.i, s.of);
    }
  }

  lemma TargetQueuedOther(a: seq<nat>, b: seq<nat>, s: Spot, t: Spot)
    requires a != [] && b != [] && Reached(a, b, s) && s.i < |a| && s.j < |b| && !Plain(a) && Total(a) <= Total(b)
    requires s.of <= a[s.i] && s.ot <= b[s.j] && t == Round(a, b, s) && QueuedAt(b, t.j) && !QueuedAt(a, t.i)
    ensures !CanCopy(a, b)
  {
    if |a| == 2 && a[0] <= b[0] {
      assert a[1] == 0;
    }
  }

  /** A source goes on without a target in one case only. */
  lemma TargetMissing(a: seq<nat>, b: seq<nat>, t: Spot)
    requires a != [] && b != [] && Passed(a, b, t) && t.i < |a| && t.j == |b| && Total(a) <= Total(b)
    ensures RunsOff(a, b)
  {
    PreGrows(a, t.i, |a|);
    var e := LastUsed(a);
    QueuedIff(a, 0);
    QueuedIff(a, 1);
    QueuedIff(a, t.i);
    PlainIff(a);
    if Plain(a) && Total(a) > 0 {
      SomeLeft(a, t.i, t.of);
    } else if t.i < e {
      PreGrows(a, t.i, e);
      PreGrows(a, e, |a|);
    } else {
      PreGrows(b, 0, |b|);
    }
  }

  /** A source that has been copied could be: a plain one has ended before the queued segments of the target. */
  lemma CopiedPlain(a: seq<nat>, b: seq<nat>, s: Spot, t: Spot)
    requires a != [] && b != [] && Reached(a, b, s) && s.i < |a| && s.j < |b| && Total(a) <= Total(b) && Plain(a)
      && !Plain(b)
    requires s.of <= a[s.i] && s.ot <= b[s.j] && t == Round(a, b, s) && t.i == |a| && !QueuedAt(b, t.j)
    ensures CanCopy(a, b)
  {
    var e := LastUsed(b);
    PlainIff(b);
    RoundPasses(a, b, s, t);
    QueuedIff(b, e);
    if e == 0 {
      QueuedIff(b, 1);
      PreGrows(a, 0, |a|);
      PreStays(b, 1, |b|);
    } else if Total(a) > 0 {
      assert t.j < e;
      ReachedPlaced(a, b, s);
      SomeLeft(a, s.i, s.of);
      PreGrows(b, t.j, e);
      PreStays(b, t.j, e);
    }
  }

  lemma CopiedOther(a: seq<nat>, b: seq<nat>, s: Spot, t: Spot)
    requires a != [] && b != [] && Reached(a, b, s) && s.i < |a| && s.j < |b| && Total(a) <= Total(b) && !Plain(a)
    requires s.of <= a[s.i] && s.ot <= b[s.j] && t == Round(a, b, s) && t.i == |a| && !QueuedAt(b, t.j)
    ensures CanCopy(a, b)
  {
    var e := LastUsed(a);
    PlainIff(a);
    RoundPasses(a, b, s, t);
    QueuedIff(a, e);
    QueuedIff(a, 1);
    QueuedIff(a, 0);
    assert |a| == 2 && a[0] <= b[0];
    assert Pre(b, 1) == b[0];
  }
}
