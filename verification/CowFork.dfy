/**
 Copy-on-write fork (lib/fork.c) as a machine over single system calls and single
 byte stores. EagerCopy.dfy holds the eager-copy machine that it refines.

 Any environment may take the next step, so a run is an arbitrary interleaving.
 `duppage` is two steps (map the child, then remap the parent) and the copy that
 the page-fault handler makes is one step per byte.
 */
module CowFork {

  const PGSIZE: nat := 4096
  /** Virtual page number of PFTEMP, the handler's scratch page. */
  const PFTEMP: nat := 2047
  /** Virtual page number of the user exception stack, the last page below UTOP. */
  const UXSTACK: nat := 0xeebff

  type Frame = nat
  type EnvId = nat
  type Vpn = nat
  type Page = p: seq<int> | |p| == PGSIZE witness seq(PGSIZE, _ => 0)

  function ZeroPage(): Page {
    seq(PGSIZE, _ => 0)
  }

  /** A virtual page of one environment. */
  datatype Pos = Pos(env: EnvId, vpn: Vpn)

  /** A present, user-accessible page table entry. */
  datatype Pte = Pte(frame: Frame, w: bool, cow: bool, share: bool)

  /** Where an environment is inside `fork`. */
  datatype ForkPc =
    | Idle
    | Scanning(child: EnvId, next: Vpn)
    | Sealing(child: EnvId, vpn: Vpn, wasWritable: bool)

  /** Where an environment is inside `pgfault`. */
  datatype FaultPc = NoFault | Copying(vpn: Vpn, done: nat)

  datatype Ctl = Ctl(started: bool, fork: ForkPc, fault: FaultPc)

  /**
   `loose` is history: the child pages that the first system call of `duppage` has mapped and
   whose frame the parent can still write, because the second has not run.
   */
  datatype State = State(pt: map<Pos, Pte>, ram: map<Frame, Page>, ctl: map<EnvId, Ctl>, nextId: EnvId, loose: set<Pos>)

  datatype Action =
    | Write(e: EnvId, v: Vpn, off: nat, b: int)
    | TakeFault(e: EnvId, v: Vpn, f: Frame)
    | CopyByte(e: EnvId)
    | MapCopy(e: EnvId)
    | PageAlloc(e: EnvId, v: Vpn, f: Frame, w: bool, share: bool)
    | PageUnmap(e: EnvId, v: Vpn)
    | MapShared(e: EnvId, v: Vpn, to: Vpn)
    | ExoFork(e: EnvId)
    | DupPage(e: EnvId)
    | SealParent(e: EnvId)
    | ForkFail(e: EnvId)
    | ForkFinish(e: EnvId, f: Frame)
    | Exit(e: EnvId)

  ghost predicate FreeFrame(s: State, f: Frame) {
    f in s.ram && forall p :: p in s.pt ==> s.pt[p].frame != f
  }

  /** Environment `e` is running user code: not an unfinished child, not inside the handler. */
  predicate Runs(s: State, e: EnvId) {
    e in s.ctl && s.ctl[e].started && s.ctl[e].fault.NoFault?
  }

  predicate InUserCode(s: State, e: EnvId) {
    Runs(s, e) && s.ctl[e].fork.Idle?
  }

  ghost predicate Enabled(s: State, a: Action) {
    match a
    case Write(e, v, off, b) =>
      Runs(s, e) && v != PFTEMP && off < PGSIZE && Pos(e, v) in s.pt && s.pt[Pos(e, v)].w
        && s.pt[Pos(e, v)].frame in s.ram
    case TakeFault(e, v, f) =>
      Runs(s, e) && v != PFTEMP && Pos(e, v) in s.pt && !s.pt[Pos(e, v)].w && s.pt[Pos(e, v)].cow && FreeFrame(s, f)
    case CopyByte(e) =>
      e in s.ctl && s.ctl[e].fault.Copying? && s.ctl[e].fault.done < PGSIZE
      && Pos(e, PFTEMP) in s.pt && s.pt[Pos(e, PFTEMP)].frame in s.ram
      && Pos(e, s.ctl[e].fault.vpn) in s.pt && s.pt[Pos(e, s.ctl[e].fault.vpn)].frame in s.ram
    case MapCopy(e) =>
      e in s.ctl && s.ctl[e].fault.Copying? && s.ctl[e].fault.done == PGSIZE
      && Pos(e, PFTEMP) in s.pt && s.pt[Pos(e, PFTEMP)].w
    case PageAlloc(e, v, f, w, share) =>
      InUserCode(s, e) && v != PFTEMP && v <= UXSTACK && FreeFrame(s, f)
    case PageUnmap(e, v) =>
      InUserCode(s, e) && v != PFTEMP && Pos(e, v) in s.pt
    case MapShared(e, v, to) =>
      InUserCode(s, e) && v != PFTEMP && to != PFTEMP && to <= UXSTACK && Pos(e, v) in s.pt && s.pt[Pos(e, v)].share
    case ExoFork(e) => InUserCode(s, e)
    case DupPage(e) =>
      Runs(s, e) && s.ctl[e].fork.Scanning? && s.ctl[e].fork.next < UXSTACK && s.ctl[e].fork.child in s.ctl
    case SealParent(e) =>
      Runs(s, e) && s.ctl[e].fork.Sealing? && Pos(e, s.ctl[e].fork.vpn) in s.pt
    case ForkFail(e) => Runs(s, e) && !s.ctl[e].fork.Idle?
    case ForkFinish(e, f) =>
      Runs(s, e) && s.ctl[e].fork.Scanning? && s.ctl[e].fork.next == UXSTACK && s.ctl[e].fork.child in s.ctl
        && FreeFrame(s, f)
    case Exit(e) => e in s.ctl
  }

  function SetFork(s: State, e: EnvId, pc: ForkPc): State
    requires e in s.ctl
  {
    s.(ctl := s.ctl[e := s.ctl[e].(fork := pc)])
  }

  function SetFault(s: State, e: EnvId, pc: FaultPc): State
    requires e in s.ctl
  {
    s.(ctl := s.ctl[e := s.ctl[e].(fault := pc)])
  }

  /** The page can be written, at once or after a fault. */
  predicate MayWrite(pte: Pte) {
    pte.w || pte.cow
  }

  /** One step of `duppage` and the loop around it, at the scanned page. */
  function Dup(s: State, e: EnvId): State
    requires e in s.ctl && s.ctl[e].fork.Scanning?
  {
    var c, n := s.ctl[e].fork.child, s.ctl[e].fork.next;
    var here := Pos(e, n);
    if here !in s.pt then
      SetFork(s, e, Scanning(c, n + 1))
    else
      var pte := s.pt[here];
      if !pte.share && MayWrite(pte) then
        var loose := if pte.w && n != PFTEMP then s.loose + {Pos(c, n)} else s.loose;
        SetFork(s.(pt := s.pt[Pos(c, n) := Pte(pte.frame, false, true, false)], loose := loose), e,
          Sealing(c, n, pte.w))
      else
        SetFork(s.(pt := s.pt[Pos(c, n) := pte]), e, Scanning(c, n + 1))
  }

  /** `sys_exofork`: an empty child that is not runnable yet. */
  function StartFork(s: State, e: EnvId): State
    requires e in s.ctl
  {
    var c := s.nextId;
    s.(nextId := c + 1, ctl := s.ctl[e := s.ctl[e].(fork := Scanning(c, 0))][c := Ctl(false, Idle, NoFault)])
  }

  /** The second half of `duppage`: the parent gives up its own write access. */
  function Seal(s: State, e: EnvId): State
    requires e in s.ctl && s.ctl[e].fork.Sealing? && Pos(e, s.ctl[e].fork.vpn) in s.pt
  {
    var c, n := s.ctl[e].fork.child, s.ctl[e].fork.vpn;
    var pt := s.pt[Pos(e, n) := Pte(s.pt[Pos(e, n)].frame, false, true, false)];
    SetFork(s.(pt := pt, loose := s.loose - {Pos(c, n)}), e, Scanning(c, n + 1))
  }

  /** The end of `fork`: an exception stack for the child, which then becomes runnable. */
  function FinishFork(s: State, e: EnvId, f: Frame): State
    requires e in s.ctl && s.ctl[e].fork.Scanning? && s.ctl[e].fork.child in s.ctl
  {
    var c := s.ctl[e].fork.child;
    State(s.pt[Pos(c, UXSTACK) := Pte(f, true, false, false)], s.ram[f := ZeroPage()],
          s.ctl[c := s.ctl[c].(started := true)][e := s.ctl[e].(fork := Idle)], s.nextId, s.loose)
  }

  /** What `env_free` leaves of the page tables. */
  function WithoutEnv(pt: map<Pos, Pte>, e: EnvId): map<Pos, Pte> {
    map p | p in pt && p.env != e :: pt[p]
  }

  function LooseWithout(loose: set<Pos>, e: EnvId): set<Pos> {
    set p | p in loose && p.env != e
  }

  ghost function Next(s: State, a: Action): State
    requires Enabled(s, a)
  {
    match a
    case Write(e, v, off, b) =>
      var f := s.pt[Pos(e, v)].frame;
      s.(ram := s.ram[f := s.ram[f][off := b]])
    case TakeFault(e, v, f) =>
      SetFault(s.(pt := s.pt[Pos(e, PFTEMP) := Pte(f, true, false, false)], ram := s.ram[f := ZeroPage()]), e,
        Copying(v, 0))
    case CopyByte(e) =>
      var i := s.ctl[e].fault.done;
      var src, dst := s.pt[Pos(e, s.ctl[e].fault.vpn)].frame, s.pt[Pos(e, PFTEMP)].frame;
      SetFault(s.(ram := s.ram[dst := s.ram[dst][i := s.ram[src][i]]]), e, Copying(s.ctl[e].fault.vpn, i + 1))
    case MapCopy(e) =>
      var f := s.pt[Pos(e, PFTEMP)].frame;
      SetFault(s.(pt := s.pt[Pos(e, s.ctl[e].fault.vpn) := Pte(f, true, false, false)]), e, NoFault)
    case PageAlloc(e, v, f, w, share) =>
      s.(pt := s.pt[Pos(e, v) := Pte(f, w, false, share)], ram := s.ram[f := ZeroPage()])
    case PageUnmap(e, v) => s.(pt := s.pt - {Pos(e, v)})
    case MapShared(e, v, to) => s.(pt := s.pt[Pos(e, to) := s.pt[Pos(e, v)]])
    case ExoFork(e) => StartFork(s, e)
    case DupPage(e) => Dup(s, e)
    case SealParent(e) => Seal(s, e)
    case ForkFail(e) => SetFork(s, e, Idle)
    case ForkFinish(e, f) => FinishFork(s, e, f)
    case Exit(e) => s.(pt := WithoutEnv(s.pt, e), ctl := s.ctl - {e}, loose := LooseWithout(s.loose, e))
  }

  // ---------- What every reachable state satisfies ----------

  ghost predicate PageOk(s: State, p: Pos) {
    p in s.pt ==>
      && s.pt[p].frame in s.ram && p.env in s.ctl
      && (s.pt[p].cow ==> !s.pt[p].w && !s.pt[p].share)
      && (p.vpn == PFTEMP ==> !s.pt[p].share)
  }

  /** A private frame that is writable at one page is mapped at no other page, loose ones apart. */
  ghost predicate Exclusive(s: State, p: Pos, q: Pos) {
    p in s.pt && q in s.pt && p.vpn != PFTEMP && q.vpn != PFTEMP && s.pt[p].frame == s.pt[q].frame ==>
      && s.pt[p].share == s.pt[q].share
      && (p != q && s.pt[p].w && !s.pt[p].share ==> q in s.loose)
  }

  /** The scratch page of a running fault handler belongs to that handler alone. */
  ghost predicate ScratchOk(s: State, e: EnvId, p: Pos) {
    e in s.ctl && s.ctl[e].fault.Copying? && Pos(e, PFTEMP) in s.pt && p in s.pt && p != Pos(e, PFTEMP) ==>
      s.pt[p].frame != s.pt[Pos(e, PFTEMP)].frame
  }

  ghost predicate FaultOk(s: State, e: EnvId) {
    e in s.ctl && s.ctl[e].fault.Copying? ==>
      var v, i := s.ctl[e].fault.vpn, s.ctl[e].fault.done;
      && s.ctl[e].started && v != PFTEMP && i <= PGSIZE
      && Pos(e, v) in s.pt && s.pt[Pos(e, v)].cow && s.pt[Pos(e, v)].frame in s.ram
      && Pos(e, PFTEMP) in s.pt && s.pt[Pos(e, PFTEMP)].w && s.pt[Pos(e, PFTEMP)].frame in s.ram
      && s.ram[s.pt[Pos(e, PFTEMP)].frame][..i] == s.ram[s.pt[Pos(e, v)].frame][..i]
  }

  /** An unfinished child does nothing of its own. */
  ghost predicate ForkOk(s: State, e: EnvId) {
    e in s.ctl ==>
      && e < s.nextId
      && (!s.ctl[e].started ==> s.ctl[e].fork.Idle? && s.ctl[e].fault.NoFault?)
      && (!s.ctl[e].fork.Idle? ==>
        && s.ctl[e].fork.child < s.nextId
        && (s.ctl[e].fork.child in s.ctl ==> !s.ctl[s.ctl[e].fork.child].started))
  }

  ghost predicate OneParent(s: State, e: EnvId, d: EnvId) {
    e in s.ctl && d in s.ctl && e != d && !s.ctl[e].fork.Idle? && !s.ctl[d].fork.Idle? ==>
      s.ctl[e].fork.child != s.ctl[d].fork.child
  }

  /** Between the two halves of `duppage`, a page that was writable is still the child's page. */
  ghost predicate SealOk(s: State, e: EnvId) {
    e in s.ctl && s.ctl[e].fork.Sealing? && s.ctl[e].fork.vpn != PFTEMP ==>
      var c, v := s.ctl[e].fork.child, s.ctl[e].fork.vpn;
      && Pos(e, v) in s.pt && !s.pt[Pos(e, v)].share && MayWrite(s.pt[Pos(e, v)])
      && (s.ctl[e].fork.wasWritable ==>
        && s.pt[Pos(e, v)].w
        && (c in s.ctl ==> Pos(c, v) in s.pt && s.pt[Pos(c, v)].frame == s.pt[Pos(e, v)].frame && Pos(c, v) in s.loose))
  }

  /** Loose pages belong to children that have not been started. */
  ghost predicate LooseOk(s: State, p: Pos) {
    p in s.loose ==>
      && p in s.pt && p.vpn != PFTEMP && s.pt[p].cow && p.env in s.ctl && !s.ctl[p.env].started
  }

  /** A fork that is still going on has no loose page but the one it is about to close. */
  ghost predicate LooseOnce(s: State, p: Pos, e: EnvId) {
    p in s.loose && e in s.ctl && !s.ctl[e].fork.Idle? && s.ctl[e].fork.child == p.env ==>
      s.ctl[e].fork == Sealing(p.env, p.vpn, true)
  }

  ghost predicate Inv(s: State) {
    && (forall p :: PageOk(s, p))
    && (forall p, q :: Exclusive(s, p, q))
    && (forall e, p :: ScratchOk(s, e, p))
    && (forall e :: FaultOk(s, e))
    && (forall e :: ForkOk(s, e))
    && (forall e, d :: OneParent(s, e, d))
    && (forall e :: SealOk(s, e))
    && (forall p :: LooseOk(s, p))
    && (forall p, e :: LooseOnce(s, p, e))
  }

  lemma WriteKeeps(s: State, e: EnvId, v: Vpn, off: nat, b: int)
    requires Inv(s) && Enabled(s, Write(e, v, off, b))
    ensures Inv(Next(s, Write(e, v, off, b)))
  {
    var t := Next(s, Write(e, v, off, b));
    forall p ensures PageOk(t, p) { assert PageOk(s, p); }
    forall p, q ensures Exclusive(t, p, q) { assert Exclusive(s, p, q); }
    forall d, p ensures ScratchOk(t, d, p) { assert ScratchOk(s, d, p); }
    forall d ensures FaultOk(t, d) {
      assert FaultOk(s, d) && ForkOk(s, e) && PageOk(s, Pos(e, v));
      if d in s.ctl && s.ctl[d].fault.Copying? {
        assert Exclusive(s, Pos(e, v), Pos(d, s.ctl[d].fault.vpn)) && ScratchOk(s, d, Pos(e, v));
        assert PageOk(s, Pos(d, s.ctl[d].fault.vpn)) && ForkOk(s, d) && LooseOk(s, Pos(d, s.ctl[d].fault.vpn));
      }
    }
    forall d ensures ForkOk(t, d) { assert ForkOk(s, d); }
    forall d, x ensures OneParent(t, d, x) { assert OneParent(s, d, x); }
    forall d ensures SealOk(t, d) { assert SealOk(s, d); }
    forall p ensures LooseOk(t, p) { assert LooseOk(s, p); }
    forall p, x ensures LooseOnce(t, p, x) { assert LooseOnce(s, p, x); }
  }

  lemma TakeFaultKeeps(s: State, e: EnvId, v: Vpn, f: Frame)
    requires Inv(s) && Enabled(s, TakeFault(e, v, f))
    ensures Inv(Next(s, TakeFault(e, v, f)))
  {
    var t := Next(s, TakeFault(e, v, f));
    forall p ensures PageOk(t, p) { assert PageOk(s, p); }
    forall p, q ensures Exclusive(t, p, q) { assert Exclusive(s, p, q); }
    forall d, p ensures ScratchOk(t, d, p) { assert ScratchOk(s, d, p); }
    forall d ensures FaultOk(t, d) { assert FaultOk(s, d) && PageOk(s, Pos(e, v)); }
    forall d ensures ForkOk(t, d) { assert ForkOk(s, d); }
    forall d, x ensures OneParent(t, d, x) { assert OneParent(s, d, x); }
    forall d ensures SealOk(t, d) { assert SealOk(s, d); }
    forall p ensures LooseOk(t, p) { assert LooseOk(s, p) && ForkOk(s, e); }
    forall p, x ensures LooseOnce(t, p, x) { assert LooseOnce(s, p, x); }
  }

  lemma CopyByteKeeps(s: State, e: EnvId)
    requires Inv(s) && Enabled(s, CopyByte(e))
    ensures Inv(Next(s, CopyByte(e)))
  {
    var t := Next(s, CopyByte(e));
    forall p ensures PageOk(t, p) { assert PageOk(s, p); }
    forall p, q ensures Exclusive(t, p, q) { assert Exclusive(s, p, q); }
    forall d, p ensures ScratchOk(t, d, p) { assert ScratchOk(s, d, p); }
    forall d ensures FaultOk(t, d) {
      assert FaultOk(s, d) && FaultOk(s, e) && ScratchOk(s, e, Pos(d, PFTEMP));
      if d in s.ctl && s.ctl[d].fault.Copying? {
        assert ScratchOk(s, e, Pos(d, s.ctl[d].fault.vpn));
      }
    }
    forall d ensures ForkOk(t, d) { assert ForkOk(s, d); }
    forall d, x ensures OneParent(t, d, x) { assert OneParent(s, d, x); }
    forall d ensures SealOk(t, d) { assert SealOk(s, d); }
    forall p ensures LooseOk(t, p) { assert LooseOk(s, p); }
    forall p, x ensures LooseOnce(t, p, x) { assert LooseOnce(s, p, x); }
  }

  lemma MapCopyKeeps(s: State, e: EnvId)
    requires Inv(s) && Enabled(s, MapCopy(e))
    ensures Inv(Next(s, MapCopy(e)))
  {
    var t := Next(s, MapCopy(e));
    forall p ensures PageOk(t, p) { assert PageOk(s, p) && FaultOk(s, e) && PageOk(s, Pos(e, PFTEMP)); }
    forall p, q ensures Exclusive(t, p, q) {
      assert Exclusive(s, p, q) && ScratchOk(s, e, p) && ScratchOk(s, e, q) && FaultOk(s, e) && SealOk(s, e);
    }
    forall d, p ensures ScratchOk(t, d, p) { assert ScratchOk(s, d, p) && ScratchOk(s, d, Pos(e, PFTEMP)); }
    forall d ensures FaultOk(t, d) { assert FaultOk(s, d); }
    forall d ensures ForkOk(t, d) { assert ForkOk(s, d); }
    forall d, x ensures OneParent(t, d, x) { assert OneParent(s, d, x); }
    forall d ensures SealOk(t, d) {
      assert SealOk(s, d) && FaultOk(s, e) && ForkOk(s, e) && ForkOk(s, d) && PageOk(s, Pos(e, s.ctl[e].fault.vpn));
    }
    forall p ensures LooseOk(t, p) { assert LooseOk(s, p) && FaultOk(s, e); }
    forall p, x ensures LooseOnce(t, p, x) { assert LooseOnce(s, p, x); }
  }

  lemma PageAllocKeeps(s: State, e: EnvId, v: Vpn, f: Frame, w: bool, share: bool)
    requires Inv(s) && Enabled(s, PageAlloc(e, v, f, w, share))
    ensures Inv(Next(s, PageAlloc(e, v, f, w, share)))
  {
    var t := Next(s, PageAlloc(e, v, f, w, share));
    forall p ensures PageOk(t, p) { assert PageOk(s, p); }
    forall p, q ensures Exclusive(t, p, q) { assert Exclusive(s, p, q); }
    forall d, p ensures ScratchOk(t, d, p) { assert ScratchOk(s, d, p); }
    forall d ensures FaultOk(t, d) { assert FaultOk(s, d); }
    forall d ensures ForkOk(t, d) { assert ForkOk(s, d); }
    forall d, x ensures OneParent(t, d, x) { assert OneParent(s, d, x); }
    forall d ensures SealOk(t, d) { assert SealOk(s, d) && ForkOk(s, d); }
    forall p ensures LooseOk(t, p) { assert LooseOk(s, p); }
    forall p, x ensures LooseOnce(t, p, x) { assert LooseOnce(s, p, x); }
  }

  lemma PageUnmapKeeps(s: State, e: EnvId, v: Vpn)
    requires Inv(s) && Enabled(s, PageUnmap(e, v))
    ensures Inv(Next(s, PageUnmap(e, v)))
  {
    var t := Next(s, PageUnmap(e, v));
    forall p ensures PageOk(t, p) { assert PageOk(s, p); }
    forall p, q ensures Exclusive(t, p, q) { assert Exclusive(s, p, q); }
    forall d, p ensures ScratchOk(t, d, p) { assert ScratchOk(s, d, p); }
    forall d ensures FaultOk(t, d) { assert FaultOk(s, d); }
    forall d ensures ForkOk(t, d) { assert ForkOk(s, d); }
    forall d, x ensures OneParent(t, d, x) { assert OneParent(s, d, x); }
    forall d ensures SealOk(t, d) { assert SealOk(s, d) && ForkOk(s, d); }
    forall p ensures LooseOk(t, p) { assert LooseOk(s, p); }
    forall p, x ensures LooseOnce(t, p, x) { assert LooseOnce(s, p, x); }
  }

  lemma MapSharedKeeps(s: State, e: EnvId, v: Vpn, to: Vpn)
    requires Inv(s) && Enabled(s, MapShared(e, v, to))
    ensures Inv(Next(s, MapShared(e, v, to)))
  {
    var t := Next(s, MapShared(e, v, to));
    forall p ensures PageOk(t, p) { assert PageOk(s, p) && PageOk(s, Pos(e, v)); }
    forall p, q ensures Exclusive(t, p, q) {
      assert Exclusive(s, p, q) && Exclusive(s, Pos(e, v), q) && Exclusive(s, p, Pos(e, v));
    }
    forall d, p ensures ScratchOk(t, d, p) { assert ScratchOk(s, d, p) && ScratchOk(s, d, Pos(e, v)); }
    forall d ensures FaultOk(t, d) { assert FaultOk(s, d); }
    forall d ensures ForkOk(t, d) { assert ForkOk(s, d); }
    forall d, x ensures OneParent(t, d, x) { assert OneParent(s, d, x); }
    forall d ensures SealOk(t, d) { assert SealOk(s, d) && ForkOk(s, d); }
    forall p ensures LooseOk(t, p) { assert LooseOk(s, p); }
    forall p, x ensures LooseOnce(t, p, x) { assert LooseOnce(s, p, x); }
  }

  lemma ExoForkKeeps(s: State, e: EnvId)
    requires Inv(s) && Enabled(s, ExoFork(e))
    ensures Inv(Next(s, ExoFork(e)))
  {
    var t := Next(s, ExoFork(e));
    forall p ensures PageOk(t, p) { assert PageOk(s, p); }
    forall p, q ensures Exclusive(t, p, q) { assert Exclusive(s, p, q) && ForkOk(s, s.nextId); }
    forall d, p ensures ScratchOk(t, d, p) { assert ScratchOk(s, d, p); }
    forall d ensures FaultOk(t, d) { assert FaultOk(s, d); }
    forall d ensures ForkOk(t, d) { assert ForkOk(s, d); }
    forall d, x ensures OneParent(t, d, x) { assert OneParent(s, d, x) && ForkOk(s, d) && ForkOk(s, x); }
    forall d ensures SealOk(t, d) { assert SealOk(s, d) && ForkOk(s, d) && ForkOk(s, s.nextId); }
    forall p ensures LooseOk(t, p) { assert LooseOk(s, p) && PageOk(s, p) && ForkOk(s, s.nextId); }
    forall p, x ensures LooseOnce(t, p, x) { assert LooseOnce(s, p, x) && LooseOk(s, p) && ForkOk(s, s.nextId); }
  }

  lemma DupPageExclusive(s: State, e: EnvId, p: Pos, q: Pos)
    requires Inv(s) && Enabled(s, DupPage(e))
    ensures Exclusive(Next(s, DupPage(e)), p, q)
  {
    var src := Pos(e, s.ctl[e].fork.next);
    assert Exclusive(s, p, q) && Exclusive(s, p, src) && Exclusive(s, src, q);
    assert PageOk(s, src) && ForkOk(s, e) && LooseOk(s, src) && LooseOk(s, p);
  }

  lemma DupPageLoose(s: State, e: EnvId, p: Pos, x: EnvId)
    requires Inv(s) && Enabled(s, DupPage(e))
    ensures LooseOk(Next(s, DupPage(e)), p) && LooseOnce(Next(s, DupPage(e)), p, x)
  {
    assert LooseOk(s, p) && LooseOnce(s, p, x) && LooseOnce(s, p, e) && OneParent(s, x, e) && ForkOk(s, e);
  }

  lemma DupPageScratch(s: State, e: EnvId, d: EnvId, p: Pos)
    requires Inv(s) && Enabled(s, DupPage(e))
    ensures ScratchOk(Next(s, DupPage(e)), d, p) && FaultOk(Next(s, DupPage(e)), d)
  {
    var src := Pos(e, s.ctl[e].fork.next);
    assert ScratchOk(s, d, p) && ScratchOk(s, d, src) && FaultOk(s, d) && ForkOk(s, d) && ForkOk(s, e);
  }

  lemma DupPageKeeps(s: State, e: EnvId)
    requires Inv(s) && Enabled(s, DupPage(e))
    ensures Inv(Next(s, DupPage(e)))
  {
    var t := Next(s, DupPage(e));
    var src := Pos(e, s.ctl[e].fork.next);
    assert ForkOk(s, e) && PageOk(s, src);
    forall p ensures PageOk(t, p) { assert PageOk(s, p); }
    forall p, q ensures Exclusive(t, p, q) { DupPageExclusive(s, e, p, q); }
    forall d, p ensures ScratchOk(t, d, p) { DupPageScratch(s, e, d, p); }
    forall d ensures FaultOk(t, d) { DupPageScratch(s, e, d, src); }
    forall d ensures ForkOk(t, d) { assert ForkOk(s, d); }
    forall d, x ensures OneParent(t, d, x) { assert OneParent(s, d, x); }
    forall d ensures SealOk(t, d) { assert SealOk(s, d) && ForkOk(s, d) && OneParent(s, e, d); }
    forall p ensures LooseOk(t, p) { DupPageLoose(s, e, p, e); }
    forall p, x ensures LooseOnce(t, p, x) { DupPageLoose(s, e, p, x); }
  }

  lemma SealParentKeeps(s: State, e: EnvId)
    requires Inv(s) && Enabled(s, SealParent(e))
    ensures Inv(Next(s, SealParent(e)))
  {
    var t := Next(s, SealParent(e));
    var src, dst := Pos(e, s.ctl[e].fork.vpn), Pos(s.ctl[e].fork.child, s.ctl[e].fork.vpn);
    assert ForkOk(s, e) && SealOk(s, e) && PageOk(s, dst) && LooseOk(s, dst) && LooseOnce(s, dst, e);
    forall p ensures PageOk(t, p) { assert PageOk(s, p); }
    forall p, q ensures Exclusive(t, p, q) {
      assert Exclusive(s, p, q) && Exclusive(s, src, p) && LooseOk(s, p) && PageOk(s, p);
    }
    forall d, p ensures ScratchOk(t, d, p) { assert ScratchOk(s, d, p); }
    forall d ensures FaultOk(t, d) { assert FaultOk(s, d); }
    forall d ensures ForkOk(t, d) { assert ForkOk(s, d); }
    forall d, x ensures OneParent(t, d, x) { assert OneParent(s, d, x); }
    forall d ensures SealOk(t, d) { assert SealOk(s, d) && ForkOk(s, d) && OneParent(s, d, e); }
    forall p ensures LooseOk(t, p) { assert LooseOk(s, p); }
    forall p, x ensures LooseOnce(t, p, x) { assert LooseOnce(s, p, x) && LooseOnce(s, p, e); }
  }

  lemma ForkFailKeeps(s: State, e: EnvId)
    requires Inv(s) && Enabled(s, ForkFail(e))
    ensures Inv(Next(s, ForkFail(e)))
  {
    var t := Next(s, ForkFail(e));
    forall p ensures PageOk(t, p) { assert PageOk(s, p); }
    forall p, q ensures Exclusive(t, p, q) { assert Exclusive(s, p, q); }
    forall d, p ensures ScratchOk(t, d, p) { assert ScratchOk(s, d, p); }
    forall d ensures FaultOk(t, d) { assert FaultOk(s, d); }
    forall d ensures ForkOk(t, d) { assert ForkOk(s, d); }
    forall d, x ensures OneParent(t, d, x) { assert OneParent(s, d, x); }
    forall d ensures SealOk(t, d) { assert SealOk(s, d); }
    forall p ensures LooseOk(t, p) { assert LooseOk(s, p); }
    forall p, x ensures LooseOnce(t, p, x) { assert LooseOnce(s, p, x); }
  }

  lemma ForkFinishKeeps(s: State, e: EnvId, f: Frame)
    requires Inv(s) && Enabled(s, ForkFinish(e, f))
    ensures Inv(Next(s, ForkFinish(e, f)))
  {
    var t := Next(s, ForkFinish(e, f));
    forall p ensures PageOk(t, p) { assert PageOk(s, p); }
    forall p, q ensures Exclusive(t, p, q) { assert Exclusive(s, p, q); }
    forall d, p ensures ScratchOk(t, d, p) { assert ScratchOk(s, d, p); }
    forall d ensures FaultOk(t, d) { assert FaultOk(s, d); }
    forall d ensures ForkOk(t, d) { assert ForkOk(s, d) && ForkOk(s, e) && OneParent(s, d, e); }
    forall d, x ensures OneParent(t, d, x) { assert OneParent(s, d, x); }
    forall d ensures SealOk(t, d) { assert SealOk(s, d) && ForkOk(s, e) && ForkOk(s, d) && OneParent(s, d, e); }
    forall p ensures LooseOk(t, p) { assert LooseOk(s, p) && LooseOnce(s, p, e); }
    forall p, x ensures LooseOnce(t, p, x) { assert LooseOnce(s, p, x); }
  }

  lemma ExitKeeps(s: State, e: EnvId)
    requires Inv(s) && Enabled(s, Exit(e))
    ensures Inv(Next(s, Exit(e)))
  {
    var t := Next(s, Exit(e));
    forall p ensures PageOk(t, p) { assert PageOk(s, p); }
    forall p, q ensures Exclusive(t, p, q) { assert Exclusive(s, p, q); }
    forall d, p ensures ScratchOk(t, d, p) { assert ScratchOk(s, d, p); }
    forall d ensures FaultOk(t, d) { assert FaultOk(s, d); }
    forall d ensures ForkOk(t, d) { assert ForkOk(s, d); }
    forall d, x ensures OneParent(t, d, x) { assert OneParent(s, d, x); }
    forall d ensures SealOk(t, d) { assert SealOk(s, d); }
    forall p ensures LooseOk(t, p) { assert LooseOk(s, p); }
    forall p, x ensures LooseOnce(t, p, x) { assert LooseOnce(s, p, x); }
  }

  lemma StepKeeps(s: State, act: Action)
    requires Inv(s) && Enabled(s, act)
    ensures Inv(Next(s, act))
  {
    match act
    case Write(e, v, off, b) => WriteKeeps(s, e, v, off, b);
    case TakeFault(e, v, f) => TakeFaultKeeps(s, e, v, f);
    case CopyByte(e) => CopyByteKeeps(s, e);
    case MapCopy(e) => MapCopyKeeps(s, e);
    case PageAlloc(e, v, f, w, share) => PageAllocKeeps(s, e, v, f, w, share);
    case PageUnmap(e, v) => PageUnmapKeeps(s, e, v);
    case MapShared(e, v, to) => MapSharedKeeps(s, e, v, to);
    case ExoFork(e) => ExoForkKeeps(s, e);
    case DupPage(e) => DupPageKeeps(s, e);
    case SealParent(e) => SealParentKeeps(s, e);
    case ForkFail(e) => ForkFailKeeps(s, e);
    case ForkFinish(e, f) => ForkFinishKeeps(s, e, f);
    case Exit(e) => ExitKeeps(s, e);
  }
}
