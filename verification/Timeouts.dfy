/**
 The timeout list of net/lwip/core/sys.c: every entry holds the difference between its
 deadline and that of the entry before it. The specification is a list of deadlines.
 */
module Timeouts {
  import opened Words


  /** struct sys_timeo: `time` is relative to the entry before. */
  datatype Timeo = Timeo(time: nat, h: int, arg: int)

  /** A deadline on the clock of the list. */
  datatype Alarm = Alarm(at: nat, h: int, arg: int)

  function Deadlines(l: seq<Timeo>, base: nat): seq<Alarm> {
    if l == [] then [] else
      var at := base + l[0].time;
      [Alarm(at, l[0].h, l[0].arg)] + Deadlines(l[1..], at)
  }

  function Sum(l: seq<Timeo>): nat {
    if l == [] then 0 else l[0].time + Sum(l[1..])
  }

  // ---------- The specification ----------

  ghost predicate Sorted(a: seq<Alarm>) {
    forall i, j :: 0 <= i < j < |a| ==> a[i].at <= a[j].at
  }

  /** After all alarms that are not later, before the later ones. */
  function InsertAlarm(a: seq<Alarm>, x: Alarm): seq<Alarm> {
    if a == [] || a[0].at > x.at then [x] + a else [a[0]] + InsertAlarm(a[1..], x)
  }

  function RemoveAlarm(a: seq<Alarm>, h: int, arg: int): seq<Alarm> {
    if a == [] then [] else if a[0].h == h && a[0].arg == arg then a[1..] else [a[0]] + RemoveAlarm(a[1..], h, arg)
  }

  /** The number of alarms at the front that are not later than `at`. */
  function Place(a: seq<Alarm>, at: nat): (k: nat)
    ensures k <= |a|
  {
    if a == [] || a[0].at > at then 0 else 1 + Place(a[1..], at)
  }

  lemma {:induction false} PlaceSplits(a: seq<Alarm>, at: nat, i: nat)
    requires Sorted(a) && i < |a|
    ensures i < Place(a, at) <==> a[i].at <= at
  {
    if a[0].at <= at && i > 0 {
      PlaceSplits(a[1..], at, i - 1);
    }
  }

  lemma {:induction false} InsertAlarmAtPlace(a: seq<Alarm>, x: Alarm)
    ensures InsertAlarm(a, x) == a[..Place(a, x.at)] + [x] + a[Place(a, x.at)..]
  {
    var k := Place(a, x.at);
    if k > 0 {
      InsertAlarmAtPlace(a[1..], x);
      assert a[..k] == [a[0]] + a[1..][..k - 1] && a[k..] == a[1..][k - 1..];
    }
  }

  lemma SortedWith(a: seq<Alarm>, x: Alarm, k: nat)
    requires Sorted(a) && k <= |a| && (k > 0 ==> a[k - 1].at <= x.at) && (k < |a| ==> x.at <= a[k].at)
    ensures Sorted(a[..k] + [x] + a[k..])
  {
    var r := a[..k] + [x] + a[k..];
    forall i, j | 0 <= i < j < |r| ensures r[i].at <= r[j].at {
      assert r[i] == if i < k then a[i] else if i == k then x else a[i - 1];
      assert r[j] == if j < k then a[j] else if j == k then x else a[j - 1];
      assert i < k ==> a[i].at <= a[k - 1].at;
      assert j > k ==> a[k].at <= a[j - 1].at;
    }
  }

  /**
   The place of a new alarm: every alarm before it is not later, every alarm after it is later, and
   no alarm moves.
   */
  lemma InsertAlarmKeepsOrder(a: seq<Alarm>, x: Alarm)
    requires Sorted(a)
    ensures Sorted(InsertAlarm(a, x))
    ensures InsertAlarm(a, x) == a[..Place(a, x.at)] + [x] + a[Place(a, x.at)..]
    ensures forall i :: 0 <= i < |a| ==> (i < Place(a, x.at) <==> a[i].at <= x.at)
  {
    InsertAlarmAtPlace(a, x);
    forall i | 0 <= i < |a| ensures i < Place(a, x.at) <==> a[i].at <= x.at { PlaceSplits(a, x.at, i); }
    SortedWith(a, x, Place(a, x.at));
  }

  // ---------- The list of differences ----------

  /** The list after sys_timeout. */
  function Insert(l: seq<Timeo>, msecs: nat, h: int, arg: int): seq<Timeo> {
    if l == [] then [Timeo(msecs, h, arg)]
    else if l[0].time > msecs then [Timeo(msecs, h, arg)] + [l[0].(time := l[0].time - msecs)] + l[1..]
    else [l[0]] + Insert(l[1..], msecs - l[0].time, h, arg)
  }

  /** The list after sys_untimeout. */
  function Remove(l: seq<Timeo>, h: int, arg: int): seq<Timeo> {
    if l == [] then []
    else if l[0].h == h && l[0].arg == arg then
      if |l| > 1 then [l[1].(time := l[1].time + l[0].time)] + l[2..] else []
    else [l[0]] + Remove(l[1..], h, arg)
  }

  lemma {:induction false} DeadlinesSorted(l: seq<Timeo>, base: nat)
    ensures |Deadlines(l, base)| == |l| && Sorted(Deadlines(l, base))
    ensures forall i :: 0 <= i < |l| ==> base <= Deadlines(l, base)[i].at
  {
    if l != [] {
      DeadlinesSorted(l[1..], base + l[0].time);
    }
  }

  /** sys_timeout adds one deadline in its place and moves no other. */
  lemma {:induction false} InsertIsInsertAlarm(l: seq<Timeo>, base: nat, msecs: nat, h: int, arg: int)
    ensures Deadlines(Insert(l, msecs, h, arg), base) == InsertAlarm(Deadlines(l, base), Alarm(base + msecs, h, arg))
  {
    var x := Alarm(base + msecs, h, arg);
    if l == [] {
      assert Insert(l, msecs, h, arg)[1..] == [];
    } else if l[0].time > msecs {
      var r := Insert(l, msecs, h, arg);
      assert r[1..] == [l[0].(time := l[0].time - msecs)] + l[1..] && r[1..][1..] == l[1..];
      assert Deadlines(r[1..], base + msecs) == Deadlines(l, base);
    } else {
      InsertIsInsertAlarm(l[1..], base + l[0].time, msecs - l[0].time, h, arg);
      assert Insert(l, msecs, h, arg)[1..] == Insert(l[1..], msecs - l[0].time, h, arg);
      assert Deadlines(l, base)[1..] == Deadlines(l[1..], base + l[0].time);
    }
  }

  /** sys_untimeout removes the first match and moves no other deadline. */
  lemma {:induction false} RemoveIsRemoveAlarm(l: seq<Timeo>, base: nat, h: int, arg: int)
    ensures Deadlines(Remove(l, h, arg), base) == RemoveAlarm(Deadlines(l, base), h, arg)
  {
    if l == [] {
    } else if l[0].h == h && l[0].arg == arg {
      assert Deadlines(l, base)[1..] == Deadlines(l[1..], base + l[0].time);
      if |l| > 1 {
        var r := Remove(l, h, arg);
        assert r[1..] == l[2..] && l[1..][1..] == l[2..];
      }
    } else {
      RemoveIsRemoveAlarm(l[1..], base + l[0].time, h, arg);
      assert Remove(l, h, arg)[1..] == Remove(l[1..], h, arg);
      assert Deadlines(l, base)[1..] == Deadlines(l[1..], base + l[0].time);
    }
  }

  /** The differences stay within 32 bits, since no deadline is further away than its own timeout. */
  lemma {:induction false} InsertSum(l: seq<Timeo>, msecs: nat, h: int, arg: int)
    ensures Sum(Insert(l, msecs, h, arg)) == if Sum(l) > msecs then Sum(l) else msecs
  {
    if l == [] {
      assert Insert(l, msecs, h, arg)[1..] == [];
    } else if l[0].time > msecs {
      var r := Insert(l, msecs, h, arg);
      assert r[1..] == [l[0].(time := l[0].time - msecs)] + l[1..] && r[1..][1..] == l[1..];
    } else {
      InsertSum(l[1..], msecs - l[0].time, h, arg);
      assert Insert(l, msecs, h, arg)[1..] == Insert(l[1..], msecs - l[0].time, h, arg);
    }
  }

  lemma {:induction false} RemoveSum(l: seq<Timeo>, h: int, arg: int)
    ensures Sum(Remove(l, h, arg)) <= Sum(l)
  {
    if l != [] {
      if l[0].h == h && l[0].arg == arg {
        if |l| > 1 {
          assert Remove(l, h, arg)[1..] == l[2..] && l[1..][1..] == l[2..];
        }
      } else {
        RemoveSum(l[1..], h, arg);
        assert Remove(l, h, arg)[1..] == Remove(l[1..], h, arg);
      }
    }
  }

  lemma {:induction false} SumSplits(l: seq<Timeo>, k: nat)
    requires k <= |l|
    ensures Sum(l) == Sum(l[..k]) + Sum(l[k..])
  {
    if k > 0 {
      SumSplits(l[1..], k - 1);
      assert l[..k][1..] == l[1..][..k - 1] && l[k..] == l[1..][k - 1..];
    } else {
      assert l[0..] == l;
    }
  }

  // ---------- The loops of the source ----------

  const SYS_ARCH_TIMEOUT: nat := 0xffff_ffff

  datatype Fired = Nothing | Handler(h: int, arg: int)

  lemma InsertStep(l: seq<Timeo>, t: nat, time: nat, h: int, arg: int)
    requires t < |l| && l[t].time <= time
    ensures l[..t] + Insert(l[t..], time, h, arg) == l[..t + 1] + Insert(l[t + 1..], time - l[t].time, h, arg)
  {
    assert l[t..][1..] == l[t + 1..] && l[..t + 1] == l[..t] + [l[t]];
  }

  lemma InsertHere(l: seq<Timeo>, t: nat, time: nat, h: int, arg: int)
    requires t <= |l| && (t < |l| ==> l[t].time > time)
    ensures var l' := if t < |l| then l[t := l[t].(time := l[t].time - time)] else l;
      l[..t] + Insert(l[t..], time, h, arg) == l'[..t] + [Timeo(time, h, arg)] + l'[t..]
  {
    if t < |l| {
      var l' := l[t := l[t].(time := l[t].time - time)];
      assert l[t..][1..] == l[t + 1..] && l'[t..] == [l'[t]] + l[t + 1..] && l'[..t] == l[..t];
    }
  }

  lemma RemoveStep(l: seq<Timeo>, t: nat, h: int, arg: int)
    requires t < |l| && !(l[t].h == h && l[t].arg == arg)
    ensures l[..t] + Remove(l[t..], h, arg) == l[..t + 1] + Remove(l[t + 1..], h, arg)
  {
    assert l[t..][1..] == l[t + 1..] && l[..t + 1] == l[..t] + [l[t]];
  }

  lemma RemoveHere(l: seq<Timeo>, t: nat, h: int, arg: int)
    requires t < |l| && l[t].h == h && l[t].arg == arg
    ensures var l' := if t + 1 < |l| then l[t + 1 := l[t + 1].(time := l[t + 1].time + l[t].time)] else l;
      l[..t] + Remove(l[t..], h, arg) == l'[..t] + l'[t + 1..]
  {
    assert l[t..][1..] == l[t + 1..] && l[..t + 1] == l[..t] + [l[t]];
    if t + 1 < |l| {
      var l' := l[t + 1 := l[t + 1].(time := l[t + 1].time + l[t].time)];
      assert l[t..][2..] == l[t + 2..] && l'[t + 1..] == [l'[t + 1]] + l[t + 2..] && l'[..t] == l[..t];
    }
  }

  lemma TwoFit(l: seq<Timeo>, t: nat)
    requires t + 1 < |l| && Sum(l) < U32
    ensures l[t + 1].time + l[t].time < U32
  {
    SumSplits(l, t);
    assert l[t..][1..] == l[t + 1..];
  }

  /** The loop of sys_timeout, for a timeout that does not come first. */
  method LinkAfter(l: seq<Timeo>, timeout: Timeo) returns (r: seq<Timeo>)
    requires l != [] && l[0].time <= timeout.time
    ensures r == Insert(l, timeout.time, timeout.h, timeout.arg)
  {
    var t, time := 0, timeout.time;
    ghost var goal := Insert(l, timeout.time, timeout.h, timeout.arg);
    assert l[..0] + Insert(l[0..], time, timeout.h, timeout.arg) == goal by { assert l[0..] == l; }
    while true
      invariant t < |l| && l[t].time <= time
      invariant goal == l[..t] + Insert(l[t..], time, timeout.h, timeout.arg)
      decreases |l| - t
    {
      InsertStep(l, t, time, timeout.h, timeout.arg);
      time := time - l[t].time;
      if t + 1 == |l| || l[t + 1].time > time {
        InsertHere(l, t + 1, time, timeout.h, timeout.arg);
        var rest := l;
        if t + 1 < |l| {
          rest := l[t + 1 := l[t + 1].(time := l[t + 1].time - time)];
        }
        return rest[..t + 1] + [timeout.(time := time)] + rest[t + 1..];
      }
      t := t + 1;
    }
  }

  /** The stores of sys_untimeout at the entry that it has found. */
  method UnlinkAt(l: seq<Timeo>, t: nat) returns (r: seq<Timeo>)
    requires Sum(l) < U32 && t < |l|
    ensures var l' := if t + 1 < |l| then l[t + 1 := l[t + 1].(time := l[t + 1].time + l[t].time)] else l;
      r == l'[..t] + l'[t + 1..]
  {
    r := l;
    if t + 1 < |l| {
      TwoFit(l, t);
      r := r[t + 1 := r[t + 1].(time := (r[t + 1].time + r[t].time) % U32)];
    }
    r := r[..t] + r[t + 1..];
  }

  /** The loop of sys_untimeout: the first match goes and its successor, if any, takes over its difference. */
  method Unlink(l: seq<Timeo>, h: int, arg: int) returns (r: seq<Timeo>)
    requires Sum(l) < U32
    ensures r == Remove(l, h, arg)
  {
    var t := 0;
    ghost var goal := Remove(l, h, arg);
    assert l[..0] + Remove(l[0..], h, arg) == goal by { assert l[0..] == l; }
    while t < |l|
      invariant t <= |l| && goal == l[..t] + Remove(l[t..], h, arg)
    {
      if l[t].h == h && l[t].arg == arg {
        RemoveHere(l, t, h, arg);
        r := UnlinkAt(l, t);
        return;
      }
      RemoveStep(l, t, h, arg);
      t := t + 1;
    }
    assert goal == l by { assert l[..|l|] == l && l[|l|..] == []; }
    r := l;
  }

  /** The list after a message that took `needed` to arrive. */
  function Shorten(l: seq<Timeo>, needed: nat): seq<Timeo>
    requires l != []
  {
    l[0 := l[0].(time := if needed < l[0].time then l[0].time - needed else 0)]
  }

  lemma ShortenSum(l: seq<Timeo>, needed: nat)
    requires l != []
    ensures Sum(Shorten(l, needed)) <= Sum(l)
  {
    assert Shorten(l, needed)[1..] == l[1..];
  }

  class SysTimeouts {
    var list: seq<Timeo>

    ghost predicate Valid()
      reads this
    {
      Sum(list) < U32
    }

    constructor ()
      ensures Valid() && list == []
    {
      list := [];
    }

    /** sys_timeout; `memory` is whether memp_malloc found an entry. */
    method SysTimeout(msecs: nat, h: int, arg: int, memory: bool)
      requires Valid() && msecs < U32
      modifies this
      ensures Valid()
      ensures list == if memory then Insert(old(list), msecs, h, arg) else old(list)
    {
      if !memory {
        return;
      }
      InsertSum(list, msecs, h, arg);
      var timeout := Timeo(msecs, h, arg);
      if list == [] {
        list := [timeout];
      } else if list[0].time > msecs {
        list := [timeout] + [list[0].(time := list[0].time - msecs)] + list[1..];
      } else {
        list := LinkAfter(list, timeout);
      }
    }

    /** sys_untimeout */
    method SysUntimeout(h: int, arg: int)
      requires Valid()
      modifies this
      ensures Valid() && list == Remove(old(list), h, arg)
    {
      RemoveSum(list, h, arg);
      list := Unlink(list, h, arg);
    }

    /** One pass of sys_mbox_fetch; `waited` is what sys_arch_mbox_fetch would return. */
    method FetchPass(waited: nat) returns (fired: Fired)
      requires Valid() && waited <= SYS_ARCH_TIMEOUT
      modifies this
      ensures Valid()
      ensures old(list) == [] ==> list == [] && fired == Nothing
      ensures old(list) != [] && (old(list)[0].time == 0 || waited == SYS_ARCH_TIMEOUT) ==>
        list == old(list)[1..] && fired == Handler(old(list)[0].h, old(list)[0].arg)
      ensures old(list) != [] && old(list)[0].time > 0 && waited < SYS_ARCH_TIMEOUT ==>
        list == Shorten(old(list), waited) && fired == Nothing
    {
      if list == [] {
        return Nothing;
      }
      var needed := if list[0].time > 0 then waited else SYS_ARCH_TIMEOUT;
      if needed == SYS_ARCH_TIMEOUT {
        fired := Handler(list[0].h, list[0].arg);
        list := list[1..];
      } else {
        ShortenSum(list, needed);
        if needed < list[0].time {
          list := list[0 := list[0].(time := list[0].time - needed)];
        } else {
          list := list[0 := list[0].(time := 0)];
        }
        fired := Nothing;
      }
    }
  }

  // ---------- Runs: never early, and in order ----------

  /** A handler that has run: its deadline on the list's clock, the real time it was due and the real time it ran. */
  datatype Firing = Firing(at: nat, due: nat, ran: nat)

  /** `clock` is the time the list has accounted for, `now` the real time, `dues` the real due time of each entry. */
  datatype World = World(list: seq<Timeo>, dues: seq<nat>, clock: nat, now: nat, fired: seq<Firing>)

  datatype Event =
    | Set(msecs: nat, h: int, arg: int)
    | Cancel(h: int, arg: int)
    | Work(elapsed: nat)
    | Message(elapsed: nat, needed: nat)
    | Expire(elapsed: nat)

  function FirstMatch(l: seq<Timeo>, h: int, arg: int): (k: nat)
    ensures k <= |l|
  {
    if l == [] || (l[0].h == h && l[0].arg == arg) then 0 else 1 + FirstMatch(l[1..], h, arg)
  }

  /** A wait reports no more than the time that really passed, and times out no earlier than asked. */
  predicate Enabled(s: World, e: Event) {
    |s.dues| == |s.list| &&
    match e
    case Set(msecs, _, _) => msecs < U32
    case Cancel(_, _) => true
    case Work(_) => true
    case Message(el, needed) => needed <= el && needed < SYS_ARCH_TIMEOUT && (s.list != [] ==> s.list[0].time > 0)
    case Expire(el) => s.list != [] && s.list[0].time <= el
  }

  function Next(s: World, e: Event): World
    requires Enabled(s, e)
  {
    match e
    case Set(msecs, h, arg) =>
      var d := Deadlines(s.list, s.clock);
      var k := Place(d, s.clock + msecs);
      if k > |s.dues| then s
      else s.(list := Insert(s.list, msecs, h, arg), dues := s.dues[..k] + [s.now + msecs] + s.dues[k..])
    case Cancel(h, arg) =>
      var k := FirstMatch(s.list, h, arg);
      s.(list := Remove(s.list, h, arg), dues := if k < |s.dues| then s.dues[..k] + s.dues[k + 1..] else s.dues)
    case Work(el) => s.(now := s.now + el)
    case Message(el, needed) =>
      if s.list == [] then s.(now := s.now + el)
      else s.(list := Shorten(s.list, needed), now := s.now + el,
              clock := s.clock + if needed < s.list[0].time then needed else s.list[0].time)
    case Expire(el) =>
      var at := s.clock + s.list[0].time;
      World(s.list[1..], s.dues[1..], at, s.now + el, s.fired + [Firing(at, s.dues[0], s.now + el)])
  }

  ghost predicate DueOk(s: World, i: nat) {
    i < |s.list| && |s.dues| == |s.list| && |Deadlines(s.list, s.clock)| == |s.list| ==>
      s.dues[i] + s.clock <= s.now + Deadlines(s.list, s.clock)[i].at
  }

  ghost predicate FiredOk(s: World, i: nat, j: nat) {
    && (j < |s.fired| ==> s.fired[j].due <= s.fired[j].ran && s.fired[j].at <= s.clock)
    && (i <= j < |s.fired| ==> s.fired[i].at <= s.fired[j].at)
  }

  ghost predicate Inv(s: World) {
    && |s.dues| == |s.list| && Sum(s.list) < U32
    && (forall i: nat :: DueOk(s, i))
    && (forall i: nat, j: nat :: FiredOk(s, i, j))
  }

  lemma SetDeadlines(s: World, msecs: nat, h: int, arg: int)
    requires Inv(s) && msecs < U32
    ensures var t, d, k := Next(s, Set(msecs, h, arg)), Deadlines(s.list, s.clock),
      Place(Deadlines(s.list, s.clock), s.clock + msecs);
      && |d| == |s.list| && |t.list| == |s.list| + 1 && Sum(t.list) < U32
      && Deadlines(t.list, s.clock) == d[..k] + [Alarm(s.clock + msecs, h, arg)] + d[k..]
  {
    DeadlinesSorted(s.list, s.clock);
    InsertAlarmKeepsOrder(Deadlines(s.list, s.clock), Alarm(s.clock + msecs, h, arg));
    InsertIsInsertAlarm(s.list, s.clock, msecs, h, arg);
    InsertSum(s.list, msecs, h, arg);
    DeadlinesSorted(Insert(s.list, msecs, h, arg), s.clock);
  }

  lemma SetKeeps(s: World, msecs: nat, h: int, arg: int)
    requires Inv(s) && msecs < U32
    ensures Inv(Next(s, Set(msecs, h, arg)))
  {
    SetDeadlines(s, msecs, h, arg);
    var t := Next(s, Set(msecs, h, arg));
    var d, k := Deadlines(s.list, s.clock), Place(Deadlines(s.list, s.clock), s.clock + msecs);
    forall i: nat ensures DueOk(t, i) {
      var j := if i < k then i else i - 1;
      if 0 <= j {
        assert DueOk(s, j);
      }
      if i < |t.list| {
        assert Deadlines(t.list, t.clock)[i].at == if i == k then s.clock + msecs else d[j].at;
        assert t.dues[i] == if i == k then s.now + msecs else s.dues[j];
      }
    }
    forall i: nat, j: nat ensures FiredOk(t, i, j) { assert FiredOk(s, i, j); }
  }

  lemma WithoutLater(d: seq<Alarm>, rest: seq<Alarm>, k: nat)
    requires 0 < k < |d| && rest == d[1..]
    ensures d[..k] + d[k + 1..] == [d[0]] + (rest[..k - 1] + rest[k..])
  {
  }

  lemma {:induction false} RemoveAlarmAtMatch(l: seq<Timeo>, base: nat, h: int, arg: int)
    ensures |Deadlines(l, base)| == |l|
    ensures var d, k := Deadlines(l, base), FirstMatch(l, h, arg);
      RemoveAlarm(d, h, arg) == if k < |l| then d[..k] + d[k + 1..] else d
  {
    var d, k := Deadlines(l, base), FirstMatch(l, h, arg);
    assert |d| == |l| by { DeadlinesSorted(l, base); }
    if l != [] && !(l[0].h == h && l[0].arg == arg) {
      RemoveAlarmAtMatch(l[1..], base + l[0].time, h, arg);
      var rest := Deadlines(l[1..], base + l[0].time);
      assert d[1..] == rest && RemoveAlarm(d, h, arg) == [d[0]] + RemoveAlarm(rest, h, arg);
      if k < |l| {
        WithoutLater(d, rest, k);
      }
    }
  }

  lemma CancelKeeps(s: World, h: int, arg: int)
    requires Inv(s)
    ensures Inv(Next(s, Cancel(h, arg)))
  {
    var d, k := Deadlines(s.list, s.clock), FirstMatch(s.list, h, arg);
    DeadlinesSorted(s.list, s.clock);
    RemoveAlarmAtMatch(s.list, s.clock, h, arg);
    RemoveIsRemoveAlarm(s.list, s.clock, h, arg);
    RemoveSum(s.list, h, arg);
    var t := Next(s, Cancel(h, arg));
    DeadlinesSorted(t.list, t.clock);
    forall i: nat ensures DueOk(t, i) { assert DueOk(s, i) && DueOk(s, i + 1); }
    forall i: nat, j: nat ensures FiredOk(t, i, j) { assert FiredOk(s, i, j); }
  }

  lemma WaitKeeps(s: World, e: Event)
    requires Inv(s) && Enabled(s, e) && (e.Work? || e.Message? || e.Expire?)
    ensures Inv(Next(s, e))
    ensures var t := Next(s, e);
      Deadlines(t.list, t.clock) == if e.Expire? then Deadlines(s.list, s.clock)[1..] else Deadlines(s.list, s.clock)
  {
    var t := Next(s, e);
    DeadlinesSorted(s.list, s.clock);
    if e.Message? && s.list != [] {
      ShortenSum(s.list, e.needed);
      assert Shorten(s.list, e.needed)[1..] == s.list[1..];
    }
    forall i: nat ensures DueOk(t, i) { assert DueOk(s, i) && DueOk(s, i + 1); }
    assert s.list != [] ==> DueOk(s, 0);
    forall i: nat, j: nat ensures FiredOk(t, i, j) { assert FiredOk(s, i, j) && FiredOk(s, i, i); }
  }

  lemma StepKeeps(s: World, e: Event)
    requires Inv(s) && Enabled(s, e)
    ensures Inv(Next(s, e))
  {
    match e
    case Set(msecs, h, arg) => SetKeeps(s, msecs, h, arg);
    case Cancel(h, arg) => CancelKeeps(s, h, arg);
    case _ => WaitKeeps(s, e);
  }

  predicate EnabledRun(s: World, es: seq<Event>)
    decreases |es|
  {
    es != [] ==> Enabled(s, es[0]) && EnabledRun(Next(s, es[0]), es[1..])
  }

  function Run(s: World, es: seq<Event>): World
    requires EnabledRun(s, es)
    decreases |es|
  {
    if es == [] then s else Run(Next(s, es[0]), es[1..])
  }

  lemma {:induction false} RunKeeps(s: World, es: seq<Event>)
    requires Inv(s) && EnabledRun(s, es)
    ensures Inv(Run(s, es))
    decreases |es|
  {
    if es != [] {
      StepKeeps(s, es[0]);
      RunKeeps(Next(s, es[0]), es[1..]);
    }
  }

  function Start(): World {
    World([], [], 0, 0, [])
  }

  /**
   In every run handlers run in the order of their deadlines, none before it is due, and no
   difference leaves 32 bits.
   */
  lemma HandlersRunInOrderAndNeverEarly(es: seq<Event>)
    requires EnabledRun(Start(), es)
    ensures var t := Run(Start(), es);
      && Sum(t.list) < U32
      && (forall i :: 0 <= i < |t.fired| ==> t.fired[i].due <= t.fired[i].ran)
      && (forall i, j :: 0 <= i <= j < |t.fired| ==> t.fired[i].at <= t.fired[j].at)
  {
    var s, t := Start(), Run(Start(), es);
    assert forall i: nat :: DueOk(s, i);
    assert forall i: nat, j: nat :: FiredOk(s, i, j);
    RunKeeps(s, es);
    forall i, j | 0 <= i <= j < |t.fired| ensures t.fired[i].at <= t.fired[j].at && t.fired[i].due <= t.fired[i].ran {
      assert FiredOk(t, i, j) && FiredOk(t, i, i);
    }
  }
}
