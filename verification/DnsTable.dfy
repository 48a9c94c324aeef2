/**
 The query table of net/lwip/core/dns.c: queries are asked again with growing pauses, at one
 server after the other, until an answer comes or the last server has been tried.
 What a packet says is an input: parsing is not modelled.
 */
module DnsTable {
  import opened Words

  const SIZE: nat := 4
  const MAX_SERVERS: nat := 2
  const MAX_RETRIES: nat := 4
  const MAX_TTL: nat := 604800

  datatype Phase = Unused | New | Asking | Done

  /** struct dns_table_entry; `query` numbers the name, callback and argument of an accepted call. */
  datatype Entry = Entry(phase: Phase, numdns: nat, tmr: nat, retries: nat, ttl: nat, seqno: nat, query: nat)

  /** `fired` lists the queries whose callbacks have been called, in order. */
  datatype Dns = Dns(table: seq<Entry>, seqno: nat, accepted: nat, fired: seq<nat>)

  predicate Pending(e: Entry) {
    e.phase == New || e.phase == Asking
  }

  /** The callback of an asking entry is due: the last pause at the last server is over. */
  predicate GivesUp(e: Entry, servers: seq<bool>) {
    && e.phase == Asking && e.tmr == 1 && e.retries + 1 == MAX_RETRIES
    && !(e.numdns + 1 < MAX_SERVERS && e.numdns + 1 < |servers| && servers[e.numdns + 1])
  }

  /** dns_check_entry; `servers` tells which servers have an address. */
  function Check(e: Entry, servers: seq<bool>): Entry {
    match e.phase
    case New => e.(phase := Asking, numdns := 0, tmr := 1, retries := 0)
    case Asking =>
      if e.tmr != 1 then e.(tmr := if e.tmr > 0 then e.tmr - 1 else 255)
      else if e.retries + 1 == MAX_RETRIES then
        if GivesUp(e, servers) then e.(phase := Unused, tmr := 0, retries := e.retries + 1)
        else e.(numdns := e.numdns + 1, tmr := 1, retries := 0)
      else e.(tmr := e.retries + 1, retries := e.retries + 1)
    case Done =>
      var ttl := (e.ttl + U32 - 1) % U32;
      if ttl == 0 then e.(phase := Unused, ttl := 0) else e.(ttl := ttl)
    case Unused => e
  }

  function CheckAt(d: Dns, i: nat, servers: seq<bool>): Dns
    requires i < |d.table|
  {
    var e := d.table[i];
    d.(table := d.table[i := Check(e, servers)], fired := if GivesUp(e, servers) then d.fired + [e.query] else d.fired)
  }

  /** dns_check_entries from entry `i` on: one tick of the timer. */
  function TickFrom(d: Dns, i: nat, servers: seq<bool>): Dns
    requires i <= |d.table|
    decreases |d.table| - i
  {
    if i == |d.table| then d else TickFrom(CheckAt(d, i, servers), i + 1, servers)
  }

  datatype Reply = Answer(ttl: nat) | Failure

  /** The table changes of dns_recv; the 16-bit identifier is cut to 8 bits. */
  function Received(d: Dns, id: nat, reply: Reply): Dns
  {
    var i := id % 256;
    if i < |d.table| && d.table[i].phase == Asking then
      var e := d.table[i];
      var e' := if reply.Answer? then e.(phase := Done, ttl := if reply.ttl > MAX_TTL then MAX_TTL else reply.ttl)
        else e.(phase := Unused);
      d.(table := d.table[i := e'], fired := d.fired + [e.query])
    else d
  }

  // ---------- dns_enqueue ----------

  /** How long ago entry `i` was made, as dns_enqueue computes it: negative once the 8-bit counter has wrapped. */
  function Age(d: Dns, i: nat): int
    requires i < |d.table|
  {
    d.seqno - d.table[i].seqno
  }

  /** The entry that dns_enqueue takes, or None when it returns ERR_MEM. */
  ghost predicate Picks(d: Dns, r: int) {
    if exists i :: 0 <= i < |d.table| && d.table[i].phase == Unused then
      0 <= r < |d.table| && d.table[r].phase == Unused && forall i :: 0 <= i < r ==> d.table[i].phase != Unused
    else if exists i :: 0 <= i < |d.table| && d.table[i].phase == Done && Age(d, i) > 0 then
      && 0 <= r < |d.table| && d.table[r].phase == Done && Age(d, r) > 0
      && forall i :: 0 <= i < |d.table| && d.table[i].phase == Done ==>
        Age(d, i) < Age(d, r) || (Age(d, i) == Age(d, r) && r <= i)
    else if |d.table| > 0 && d.table[0].phase == Done then r == 0
    else r == -1
  }

  /** A taken entry holds the new query, at the first server with all its retries left. */
  function Enqueued(d: Dns, r: nat): Dns
    requires r < |d.table|
  {
    d.(table := d.table[r := Entry(Asking, 0, 1, 0, d.table[r].ttl, d.seqno, d.accepted)],
       seqno := (d.seqno + 1) % 256, accepted := d.accepted + 1)
  }

  // ---------- What every event keeps ----------

  ghost predicate AskingAt(d: Dns, i: int, q: nat) {
    0 <= i < |d.table| && d.table[i].phase == Asking && d.table[i].query == q
  }

  ghost predicate IsPending(d: Dns, q: nat) {
    exists i :: AskingAt(d, i, q)
  }

  ghost predicate EntryOk(d: Dns, i: int) {
    0 <= i < |d.table| ==>
      var e := d.table[i];
      && e.phase != New && (e.phase != Unused ==> e.query < d.accepted && e.seqno == e.query % 256)
      && (e.phase == Asking ==>
            e.numdns < MAX_SERVERS && e.retries < MAX_RETRIES && 1 <= e.tmr && (e.tmr == 1 || e.tmr <= e.retries))
  }

  ghost predicate Apart(d: Dns, i: int, j: int, q: nat) {
    AskingAt(d, i, q) && AskingAt(d, j, q) ==> i == j
  }

  /** The callback of a query has been called exactly when it is no longer pending. */
  ghost predicate QueryOk(d: Dns, q: nat) {
    q in d.fired <==> q < d.accepted && !IsPending(d, q)
  }

  ghost predicate Once(d: Dns, a: int, b: int) {
    0 <= a < b < |d.fired| ==> d.fired[a] != d.fired[b]
  }

  ghost predicate Inv(d: Dns) {
    && |d.table| == SIZE && d.seqno == d.accepted % 256
    && (forall i :: EntryOk(d, i))
    && (forall i, j, q: nat :: Apart(d, i, j, q))
    && (forall q: nat :: QueryOk(d, q))
    && (forall a, b :: Once(d, a, b))
  }

  /** An entry goes on as it was, or stays idle. */
  lemma EntryGoesOn(d: Dns, i: nat, e: Entry)
    requires Inv(d) && i < SIZE && e.phase != New && (e.phase == Asking <==> d.table[i].phase == Asking)
      && e.query == d.table[i].query
    requires EntryOk(d.(table := d.table[i := e]), i)
    ensures Inv(d.(table := d.table[i := e]))
  {
    var d' := d.(table := d.table[i := e]);
    forall j ensures EntryOk(d', j) { assert EntryOk(d, j); }
    forall j, q: nat ensures AskingAt(d', j, q) <==> AskingAt(d, j, q) {}
    forall j, k, q: nat ensures Apart(d', j, k, q) { assert Apart(d, j, k, q); }
    forall q: nat ensures QueryOk(d', q) { assert QueryOk(d, q); }
    forall a, b ensures Once(d', a, b) { assert Once(d, a, b); }
  }

  /** The callback of a pending entry is called and the entry is pending no more. */
  lemma EntryFires(d: Dns, i: nat, e: Entry)
    requires
      && Inv(d) && i < SIZE && d.table[i].phase == Asking && e.phase in {Unused, Done}
      && e.query == d.table[i].query && e.seqno == d.table[i].seqno
    ensures Inv(d.(table := d.table[i := e], fired := d.fired + [d.table[i].query]))
  {
    var q0 := d.table[i].query;
    var d' := d.(table := d.table[i := e], fired := d.fired + [q0]);
    forall j ensures EntryOk(d', j) { assert EntryOk(d, j); }
    forall j, q: nat ensures AskingAt(d', j, q) <==> j != i && AskingAt(d, j, q) {}
    forall j, k, q: nat ensures Apart(d', j, k, q) { assert Apart(d, j, k, q); }
    assert AskingAt(d, i, q0) && EntryOk(d, i) && QueryOk(d, q0);
    forall q: nat ensures QueryOk(d', q) {
      assert QueryOk(d, q);
      if q == q0 {
        forall j ensures !AskingAt(d', j, q) { assert Apart(d, i, j, q); }
      } else if IsPending(d, q) {
        var j :| AskingAt(d, j, q);
        assert AskingAt(d', j, q);
      }
    }
    forall a, b ensures Once(d', a, b) { assert Once(d, a, b); }
  }

  /** An accepted query: no pending one makes room for it. */
  lemma EnqueueKeeps(d: Dns, r: nat)
    requires Inv(d) && Picks(d, r)
    ensures r < SIZE && !Pending(d.table[r]) && Inv(Enqueued(d, r)) && IsPending(Enqueued(d, r), d.accepted)
  {
    var d', q0 := Enqueued(d, r), d.accepted;
    forall j ensures EntryOk(d', j) { assert EntryOk(d, j); }
    forall j, q: nat ensures AskingAt(d', j, q) <==> if j == r then q == q0 else AskingAt(d, j, q) {}
    forall j, q: nat | AskingAt(d, j, q) ensures q != q0 { assert EntryOk(d, j); }
    forall j, k, q: nat ensures Apart(d', j, k, q) { assert Apart(d, j, k, q); }
    assert AskingAt(d', r, q0);
    forall q: nat ensures QueryOk(d', q) {
      assert QueryOk(d, q);
      if q != q0 && IsPending(d, q) {
        var j :| AskingAt(d, j, q);
        assert AskingAt(d', j, q);
      }
    }
    forall a, b ensures Once(d', a, b) { assert Once(d, a, b); }
  }

  lemma CheckKeeps(d: Dns, i: nat, servers: seq<bool>)
    requires Inv(d) && i < SIZE
    ensures Inv(CheckAt(d, i, servers))
  {
    assert EntryOk(d, i);
    if GivesUp(d.table[i], servers) {
      EntryFires(d, i, Check(d.table[i], servers));
    } else {
      EntryGoesOn(d, i, Check(d.table[i], servers));
    }
  }

  lemma {:induction false} TickKeeps(d: Dns, i: nat, servers: seq<bool>)
    requires Inv(d) && i <= SIZE
    ensures Inv(TickFrom(d, i, servers))
    decreases SIZE - i
  {
    if i < SIZE {
      CheckKeeps(d, i, servers);
      TickKeeps(CheckAt(d, i, servers), i + 1, servers);
    }
  }

  lemma ReceiveKeeps(d: Dns, id: nat, reply: Reply)
    requires Inv(d)
    ensures Inv(Received(d, id, reply))
  {
    var i := id % 256;
    if i < SIZE && d.table[i].phase == Asking {
      var e := d.table[i];
      var done := e.(phase := Done, ttl := if reply.Answer? && reply.ttl <= MAX_TTL then reply.ttl else MAX_TTL);
      EntryFires(d, i, if reply.Answer? then done else e.(phase := Unused));
    }
  }

  // ---------- Time ----------

  /** The ticks after which an asking entry calls its callback at the latest. */
  function Left(e: Entry): nat
    requires e.numdns < MAX_SERVERS
  {
    var later := if e.retries == 0 then 6 else if e.retries == 1 then 5 else if e.retries == 2 then 3 else 0;
    e.tmr + later + 7 * (MAX_SERVERS - 1 - e.numdns)
  }

  ghost predicate DueAt(d: Dns, i: int, q: nat, n: int) {
    AskingAt(d, i, q) && d.table[i].numdns < MAX_SERVERS && Left(d.table[i]) <= n
  }

  /** The callback of `q` has been called, or will be within `n` ticks. */
  ghost predicate Within(d: Dns, q: nat, n: int) {
    q in d.fired || exists i :: DueAt(d, i, q, n)
  }

  lemma {:induction false} TickEntry(d: Dns, j: nat, servers: seq<bool>, i: nat)
    requires j <= |d.table| && i < |d.table|
    ensures var d' := TickFrom(d, j, servers);
      && |d'.table| == |d.table| && d'.table[i] == (if j <= i then Check(d.table[i], servers) else d.table[i])
      && (j <= i && GivesUp(d.table[i], servers) ==> d.table[i].query in d'.fired)
      && d.fired <= d'.fired
    decreases |d.table| - j
  {
    if j < |d.table| {
      var d1 := CheckAt(d, j, servers);
      TickEntry(d1, j + 1, servers, i);
      assert d.fired <= d1.fired;
      if j == i && GivesUp(d.table[i], servers) {
        assert d1.fired[|d.fired|] == d.table[i].query;
      }
    }
  }

  lemma CheckShrinks(d: Dns, i: nat, servers: seq<bool>)
    requires EntryOk(d, i) && i < |d.table| && d.table[i].phase == Asking && !GivesUp(d.table[i], servers)
    ensures var e := Check(d.table[i], servers);
      e.phase == Asking && e.query == d.table[i].query && e.numdns < MAX_SERVERS && Left(e) < Left(d.table[i])
  {
  }

  // ---------- Runs ----------

  datatype Event = Accept(r: nat) | Refused | Tick(servers: seq<bool>) | Receive(id: nat, reply: Reply)

  ghost predicate Enabled(d: Dns, ev: Event) {
    match ev
    case Accept(r) => Picks(d, r) && r < |d.table|
    case Refused => Picks(d, -1)
    case Tick(_) => true
    case Receive(_, _) => true
  }

  function Next(d: Dns, ev: Event): Dns
    requires ev.Accept? ==> ev.r < |d.table|
  {
    match ev
    case Accept(r) => Enqueued(d, r)
    case Refused => d
    case Tick(servers) => TickFrom(d, 0, servers)
    case Receive(id, reply) => Received(d, id, reply)
  }

  lemma StepKeeps(d: Dns, ev: Event)
    requires Inv(d) && Enabled(d, ev)
    ensures Inv(Next(d, ev))
  {
    match ev
    case Accept(r) => EnqueueKeeps(d, r);
    case Refused =>
    case Tick(servers) => TickKeeps(d, 0, servers);
    case Receive(id, reply) => ReceiveKeeps(d, id, reply);
  }

  /** A pending query stays pending until its callback is called, and a tick brings that nearer. */
  lemma StepNears(d: Dns, ev: Event, q: nat, n: int)
    requires Inv(d) && Enabled(d, ev) && Within(d, q, n)
    ensures Within(Next(d, ev), q, if ev.Tick? then n - 1 else n)
  {
    var d' := Next(d, ev);
    if q in d.fired {
      if ev.Tick? {
        TickEntry(d, 0, ev.servers, 0);
      }
      assert q in d'.fired;
    } else {
      var i :| DueAt(d, i, q, n);
      assert EntryOk(d, i);
      match ev
      case Accept(r) =>
        EnqueueKeeps(d, r);
        assert DueAt(d', i, q, n);
      case Refused =>
      case Tick(servers) =>
        TickEntry(d, 0, servers, i);
        if !GivesUp(d.table[i], servers) {
          CheckShrinks(d, i, servers);
          assert DueAt(d', i, q, n - 1);
        }
      case Receive(id, reply) =>
        if id % 256 == i {
          assert d'.fired[|d.fired|] == q;
        } else {
          assert DueAt(d', i, q, n);
        }
    }
  }

  ghost predicate EnabledRun(d: Dns, evs: seq<Event>)
    decreases |evs|
  {
    evs == [] || (Enabled(d, evs[0]) && EnabledRun(Next(d, evs[0]), evs[1..]))
  }

  ghost function Run(d: Dns, evs: seq<Event>): Dns
    requires EnabledRun(d, evs)
    decreases |evs|
  {
    if evs == [] then d else Run(Next(d, evs[0]), evs[1..])
  }

  function Ticks(evs: seq<Event>): nat {
    if evs == [] then 0 else (if evs[0].Tick? then 1 else 0) + Ticks(evs[1..])
  }

  lemma {:induction false} RunNears(d: Dns, evs: seq<Event>, q: nat, n: int)
    requires Inv(d) && EnabledRun(d, evs) && Within(d, q, n)
    ensures Inv(Run(d, evs)) && Within(Run(d, evs), q, n - Ticks(evs))
    decreases |evs|
  {
    if evs != [] {
      StepKeeps(d, evs[0]);
      StepNears(d, evs[0], q, n);
      RunNears(Next(d, evs[0]), evs[1..], q, if evs[0].Tick? then n - 1 else n);
    }
  }

  function Init(): Dns {
    Dns(seq(SIZE, _ => Entry(Unused, 0, 0, 0, 0, 0, 0)), 0, 0, [])
  }

  lemma InitOk()
    ensures Inv(Init())
  {
    forall q: nat ensures QueryOk(Init(), q) {}
  }

  lemma {:induction false} RunKeeps(d: Dns, evs: seq<Event>)
    requires Inv(d) && EnabledRun(d, evs)
    ensures Inv(Run(d, evs))
    decreases |evs|
  {
    if evs != [] {
      StepKeeps(d, evs[0]);
      RunKeeps(Next(d, evs[0]), evs[1..]);
    }
  }

  /** How often the callback of `q` has been called. */
  ghost function Calls(d: Dns, q: nat): nat {
    multiset(d.fired)[q]
  }

  lemma {:induction false} CountsOnce(d: Dns, n: nat, q: nat)
    requires Inv(d) && n <= |d.fired|
    ensures multiset(d.fired[..n])[q] == if q in d.fired[..n] then 1 else 0
  {
    if n > 0 {
      CountsOnce(d, n - 1, q);
      assert d.fired[..n] == d.fired[..n - 1] + [d.fired[n - 1]];
      forall a | 0 <= a < n - 1 ensures d.fired[a] != d.fired[n - 1] { assert Once(d, a, n - 1); }
    }
  }

  lemma CalledAtMostOnce(d: Dns, q: nat)
    requires Inv(d)
    ensures Calls(d, q) == if q < d.accepted && !IsPending(d, q) then 1 else 0
  {
    assert QueryOk(d, q);
    CountsOnce(d, |d.fired|, q);
    assert d.fired[..|d.fired|] == d.fired;
  }

  /** In every run, every query has called back at most once, and exactly once unless it is still pending. */
  lemma EveryCallbackOnce(evs: seq<Event>, q: nat)
    requires EnabledRun(Init(), evs)
    ensures var d := Run(Init(), evs);
      && Calls(d, q) == (if q < d.accepted && !IsPending(d, q) then 1 else 0)
      && (IsPending(d, q) ==> q < d.accepted)
  {
    InitOk();
    RunKeeps(Init(), evs);
    var d := Run(Init(), evs);
    CalledAtMostOnce(d, q);
    if IsPending(d, q) {
      var i :| AskingAt(d, i, q);
      assert EntryOk(d, i);
    }
  }

  /** A query that is accepted in some reachable state calls back exactly once within 7 ticks for each server. */
  lemma CallbackInTime(d: Dns, r: nat, evs: seq<Event>)
    requires Inv(d) && Enabled(d, Accept(r)) && EnabledRun(Enqueued(d, r), evs) && Ticks(evs) >= 7 * MAX_SERVERS
    ensures Calls(Run(Enqueued(d, r), evs), d.accepted) == 1
  {
    var d', q := Enqueued(d, r), d.accepted;
    EnqueueKeeps(d, r);
    assert DueAt(d', r, q, 7 * MAX_SERVERS);
    RunNears(d', evs, q, 7 * MAX_SERVERS);
    var t := Run(d', evs);
    CalledAtMostOnce(t, q);
    assert QueryOk(t, q);
    var n := 7 * MAX_SERVERS - Ticks(evs);
    forall i ensures !DueAt(t, i, q, n) { assert EntryOk(t, i); }
  }

  // ---------- When the table is full ----------

  /**
   A query is refused exactly when no entry is unused, entry 0 is pending, and the counter has
   wrapped since each completed entry was made.
   */
  lemma RefusedIff(d: Dns)
    requires Inv(d)
    ensures Picks(d, -1) <==>
      && d.table[0].phase == Asking
      && forall i :: 0 <= i < SIZE ==> d.table[i].phase == Asking || (d.table[i].phase == Done && Age(d, i) <= 0)
  {
    assert EntryOk(d, 0);
    forall i | 0 <= i < SIZE ensures d.table[i].phase != New { assert EntryOk(d, i); }
  }

  /**
   Until the counter wraps, a query is refused only if all entries are pending, and the oldest
   completed entry makes room.
   */
  lemma OldestMakesRoom(d: Dns, r: int)
    requires Inv(d) && Picks(d, r) && forall i :: 0 <= i < SIZE && d.table[i].phase == Done ==>
      d.table[i].query / 256 == d.accepted / 256
    ensures r == -1 <==> forall i :: 0 <= i < SIZE ==> d.table[i].phase == Asking
    ensures r != -1 ==> 0 <= r < SIZE && (d.table[r].phase == Done ==>
      forall i :: 0 <= i < SIZE ==>
        d.table[i].phase != Unused && (d.table[i].phase == Done ==> d.table[r].query <= d.table[i].query))
  {
    forall i | 0 <= i < SIZE
      ensures d.table[i].phase != New && (d.table[i].phase == Done ==> Age(d, i) == d.accepted - d.table[i].query > 0)
    {
      assert EntryOk(d, i);
    }
  }

  // ---------- The routines ----------

  /** The search of dns_enqueue: an unused entry, or the completed one of greatest age, or -1. */
  method Choose(table: seq<Entry>, seqno: nat) returns (r: int)
    requires |table| == SIZE && seqno < 256 && forall i :: 0 <= i < SIZE && table[i].phase == Done ==>
      table[i].seqno < 256
    ensures Picks(Dns(table, seqno, 0, []), r)
  {
    ghost var d := Dns(table, seqno, 0, []);
    var lseq, lseqi := 0, 0;
    var i := 0;
    while i < SIZE
      invariant 0 <= i <= SIZE && 0 <= lseqi < SIZE && 0 <= lseq < 256
      invariant forall j :: 0 <= j < i ==> table[j].phase != Unused
      invariant forall j :: 0 <= j < i && table[j].phase == Done ==> Age(d, j) <= lseq
      invariant lseq == 0 ==> lseqi == 0
      invariant lseq > 0 ==> lseqi < i && table[lseqi].phase == Done && lseq == Age(d, lseqi)
      invariant lseq > 0 ==> forall j :: 0 <= j < lseqi && table[j].phase == Done ==> Age(d, j) < lseq
    {
      if table[i].phase == Unused {
        return i;
      }
      if table[i].phase == Done && seqno - table[i].seqno > lseq {
        lseq := (seqno - table[i].seqno) % 256;
        lseqi := i;
      }
      i := i + 1;
    }
    if table[lseqi].phase != Done {
      return -1;
    }
    r := lseqi;
  }

  datatype Err = ErrInProgress | ErrMem

  class Resolver {
    const table: array<Entry>
    var seqno: nat
    var accepted: nat
    var fired: seq<nat>

    ghost function State(): Dns
      reads this, table
    {
      Dns(table[..], seqno, accepted, fired)
    }

    ghost predicate Valid()
      reads this, table
    {
      table.Length == SIZE && Inv(State())
    }

    constructor ()
      ensures Valid() && State() == Init() && fresh(table)
    {
      table := new Entry[SIZE](_ => Entry(Unused, 0, 0, 0, 0, 0, 0));
      seqno, accepted, fired := 0, 0, [];
      new;
      assert State() == Init();
      InitOk();
    }

    /** dns_check_entry */
    method CheckEntry(i: nat, servers: seq<bool>)
      requires i < table.Length && (table[i].phase == Asking ==> table[i].tmr > 0)
      modifies this`fired, table
      ensures State() == CheckAt(old(State()), i, servers)
    {
      ghost var t0 := table[..];
      var e := table[i];
      match e.phase {
        case New =>
          table[i] := e.(phase := Asking, numdns := 0, tmr := 1, retries := 0);
        case Asking =>
          e := e.(tmr := e.tmr - 1);
          if e.tmr == 0 {
            e := e.(retries := e.retries + 1);
            if e.retries == MAX_RETRIES {
              if e.numdns + 1 < MAX_SERVERS && e.numdns + 1 < |servers| && servers[e.numdns + 1] {
                e := e.(numdns := e.numdns + 1, tmr := 1, retries := 0);
              } else {
                fired := fired + [e.query];
                e := e.(phase := Unused);
              }
            } else {
              e := e.(tmr := e.retries);
            }
          }
          table[i] := e;
        case Done =>
          var ttl := (e.ttl + U32 - 1) % U32;
          e := e.(ttl := ttl);
          if ttl == 0 {
            e := e.(phase := Unused);
          }
          table[i] := e;
        case Unused =>
      }
      assert table[..] == t0[i := Check(t0[i], servers)];
    }

    /** dns_tmr: every entry is checked once. */
    method CheckEntries(servers: seq<bool>)
      requires Valid()
      modifies this`fired, table
      ensures Valid() && State() == Next(old(State()), Tick(servers))
    {
      ghost var d0 := State();
      for i := 0 to SIZE
        invariant Valid() && TickFrom(d0, 0, servers) == TickFrom(State(), i, servers)
      {
        assert EntryOk(State(), i);
        CheckKeeps(State(), i, servers);
        CheckEntry(i, servers);
      }
    }

    /** dns_recv */
    method Recv(id: nat, reply: Reply)
      requires Valid()
      modifies this`fired, table
      ensures Valid() && State() == Next(old(State()), Receive(id, reply))
    {
      ghost var d0 := State();
      ReceiveKeeps(d0, id, reply);
      var i := id % 256;
      if i < SIZE && table[i].phase == Asking {
        fired := fired + [table[i].query];
        if reply.Answer? {
          table[i] := table[i].(phase := Done, ttl := if reply.ttl > MAX_TTL then MAX_TTL else reply.ttl);
        } else {
          table[i] := table[i].(phase := Unused);
        }
        assert table[..] == d0.table[i := table[i]];
      }
    }

    /** dns_enqueue */
    method Enqueue(servers: seq<bool>) returns (err: Err, ghost r: int)
      requires Valid()
      modifies this, table
      ensures Valid() && Picks(old(State()), r) && (err == ErrMem <==> r == -1)
      ensures State() == Next(old(State()), if r == -1 then Refused else Accept(r))
    {
      ghost var d0 := State();
      forall i | 0 <= i < SIZE && table[i].phase == Done ensures table[i].seqno < 256 { assert EntryOk(d0, i); }
      var k := Choose(table[..], seqno);
      r := k;
      if k == -1 {
        return ErrMem, r;
      }
      EnqueueKeeps(d0, k);
      table[k] := Entry(New, table[k].numdns, table[k].tmr, table[k].retries, table[k].ttl, seqno, accepted);
      assert table[..] == d0.table[k := table[k]];
      seqno := (seqno + 1) % 256;
      accepted := accepted + 1;
      CheckEntry(k, servers);
      assert table[..] == Enqueued(d0, k).table;
      err := ErrInProgress;
    }
  }

  /** dns_enqueue when entry `k` is the first that is unused. */
  method EnqueueAt(d: Resolver, k: nat)
    requires d.Valid() && k < SIZE && d.table[k].phase == Unused && forall i :: 0 <= i < k ==>
      d.table[i].phase != Unused
    modifies d, d.table
    ensures d.Valid() && d.accepted == old(d.accepted) + 1
    ensures var e := Entry(Asking, 0, 1, 0, old(d.table[k].ttl), old(d.seqno), old(d.accepted));
      d.table[..] == old(d.table[..])[k := e]
  {
    assert d.State().table[k].phase == Unused;
    var _, r := d.Enqueue([]);
    assert r == k;
  }

  predicate Others(table: seq<Entry>, table': seq<Entry>) {
    |table| == |table'| == SIZE && table[1] == table'[1] && table[2] == table'[2] && table[3] == table'[3]
  }

  /** `n` queries in turn, each of which fails at once: they all use entry 0, and the others stay as they are. */
  method Fail(d: Resolver, n: nat)
    requires d.Valid() && d.table[0].phase == Unused
    modifies d, d.table
    ensures d.Valid() && d.table[0].phase == Unused && Others(d.table[..], old(d.table[..]))
      && d.accepted == old(d.accepted) + n
  {
    for k := 0 to n
      invariant d.Valid() && d.table[0].phase == Unused && Others(d.table[..], old(d.table[..]))
        && d.accepted == old(d.accepted) + k
    {
      EnqueueAt(d, 0);
      d.Recv(0, Failure);
    }
  }

  /** Query 251 is answered and stays in entry 1. */
  method CompleteOne() returns (d: Resolver)
    ensures d.Valid() && fresh(d) && fresh(d.table) && d.accepted == 252
    ensures d.table[1].phase == Done && d.table[1].seqno == 251
    ensures d.table[0].phase == Unused && d.table[2].phase == Unused && d.table[3].phase == Unused
  {
    d := new Resolver();
    Fail(d, 250);
    EnqueueAt(d, 0);
    EnqueueAt(d, 1);
    d.Recv(1, Answer(MAX_TTL));
    d.Recv(0, Failure);
  }

  /** After the wrap the property fails: this run ends with a query refused although entry 1 is completed. */
  method WrapRefuses() returns (d: Resolver, err: Err)
    ensures d.Valid() && d.table[1].phase == Done && err == ErrMem
  {
    d := CompleteOne();
    Fail(d, 4);
    EnqueueAt(d, 0);
    EnqueueAt(d, 2);
    EnqueueAt(d, 3);
    assert Picks(d.State(), -1);
    ghost var r;
    err, r := d.Enqueue([]);
  }
}
