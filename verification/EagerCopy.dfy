/**
 The specification of fork: a machine without frames, write protection or faults,
 in which every private page holds its own bytes and `duppage` copies them at once
 (as user/dumbfork.c does). Every run of the copy-on-write machine is a run of this one.
 */
module EagerCopy {
  import opened CowFork

  /** A page with its own bytes or a shared one, and whether it can be written. */
  datatype APage = Private(bytes: Page, w: bool) | Shared(obj: Frame, w: bool)

  datatype AState = AState(view: map<Pos, APage>, objs: map<Frame, Page>)

  datatype Label =
    | Quiet
    | Wrote(at: Pos, off: nat, b: int)
    | Fresh(at: Pos, w: bool, share: bool, obj: Frame)
    | Dropped(at: Pos)
    | Aliased(at: Pos, to: Pos)
    | Copied(at: Pos, to: Pos)
    | Left(e: EnvId)

  function Store(p: Page, off: nat, b: int): Page {
    if off < PGSIZE then p[off := b] else p
  }

  /** A store changes the one private page it goes to, or the shared object mapped there. */
  function WriteStep(a: AState, p: Pos, off: nat, b: int): AState {
    if p !in a.view || !a.view[p].w then a
    else if a.view[p].Private? then a.(view := a.view[p := a.view[p].(bytes := Store(a.view[p].bytes, off, b))])
    else
      var o := a.view[p].obj;
      if o in a.objs then a.(objs := a.objs[o := Store(a.objs[o], off, b)]) else a
  }

  function DropEnv(view: map<Pos, APage>, e: EnvId): map<Pos, APage> {
    map p | p in view && p.env != e :: view[p]
  }

  function AStep(a: AState, l: Label): AState {
    match l
    case Quiet => a
    case Wrote(p, off, b) => WriteStep(a, p, off, b)
    case Fresh(p, w, share, obj) =>
      if share then a.(view := a.view[p := Shared(obj, w)], objs := a.objs[obj := ZeroPage()])
      else a.(view := a.view[p := Private(ZeroPage(), w)])
    case Dropped(p) => a.(view := a.view - {p})
    case Aliased(p, q) => if p in a.view then a.(view := a.view[q := a.view[p]]) else a
    case Copied(p, q) => if p in a.view then a.(view := a.view[q := a.view[p]]) else a
    case Left(e) => a.(view := DropEnv(a.view, e))
  }

  /**
   What a step of the copy-on-write machine amounts to in the specification. A page that the parent
   can write is copied when `duppage` ends, in the step that takes the write access away; until then
   the child has nothing there. Any other page is copied when `duppage` begins.
   */
  ghost function LabelOf(s: State, a: Action): Label
    requires Enabled(s, a)
  {
    match a
    case Write(e, v, off, b) => Wrote(Pos(e, v), off, b)
    case TakeFault(_, _, _) => Quiet
    case CopyByte(_) => Quiet
    case MapCopy(_) => Quiet
    case PageAlloc(e, v, f, w, share) => Fresh(Pos(e, v), w, share, f)
    case PageUnmap(e, v) => Dropped(Pos(e, v))
    case MapShared(e, v, to) => Aliased(Pos(e, v), Pos(e, to))
    case ExoFork(_) => Quiet
    case DupPage(e) =>
      var c, n := s.ctl[e].fork.child, s.ctl[e].fork.next;
      if n == PFTEMP || Pos(e, n) !in s.pt then Quiet
      else if s.pt[Pos(e, n)].w && !s.pt[Pos(e, n)].share then Dropped(Pos(c, n))
      else Copied(Pos(e, n), Pos(c, n))
    case SealParent(e) =>
      var c, n := s.ctl[e].fork.child, s.ctl[e].fork.vpn;
      if Pos(c, n) in s.loose then Copied(Pos(e, n), Pos(c, n)) else Quiet
    case ForkFail(_) => Quiet
    case ForkFinish(e, f) => Fresh(Pos(s.ctl[e].fork.child, UXSTACK), true, false, f)
    case Exit(e) => Left(e)
  }

  // ---------- The refinement relation ----------

  ghost predicate ViewOk(s: State, a: AState, p: Pos) {
    && (p in a.view <==> p in s.pt && p.vpn != PFTEMP && p !in s.loose)
    && (p in a.view && s.pt[p].frame in s.ram ==>
      if s.pt[p].share then
        && a.view[p] == Shared(s.pt[p].frame, MayWrite(s.pt[p]))
        && s.pt[p].frame in a.objs && a.objs[s.pt[p].frame] == s.ram[s.pt[p].frame]
      else
        a.view[p] == Private(s.ram[s.pt[p].frame], MayWrite(s.pt[p])))
  }

  ghost predicate Refines(s: State, a: AState) {
    forall p :: ViewOk(s, a, p)
  }

  lemma WriteRefines(s: State, a: AState, e: EnvId, v: Vpn, off: nat, b: int)
    requires Inv(s) && Refines(s, a) && Enabled(s, Write(e, v, off, b))
    ensures Refines(Next(s, Write(e, v, off, b)), AStep(a, LabelOf(s, Write(e, v, off, b))))
  {
    var t, a' := Next(s, Write(e, v, off, b)), AStep(a, LabelOf(s, Write(e, v, off, b)));
    forall p ensures ViewOk(t, a', p) {
      assert ViewOk(s, a, p) && PageOk(s, p) && PageOk(s, Pos(e, v)) && ViewOk(s, a, Pos(e, v));
      assert Exclusive(s, Pos(e, v), p) && LooseOk(s, Pos(e, v));
    }
  }

  lemma TakeFaultRefines(s: State, a: AState, e: EnvId, v: Vpn, f: Frame)
    requires Inv(s) && Refines(s, a) && Enabled(s, TakeFault(e, v, f))
    ensures Refines(Next(s, TakeFault(e, v, f)), AStep(a, LabelOf(s, TakeFault(e, v, f))))
  {
    var t, a' := Next(s, TakeFault(e, v, f)), AStep(a, LabelOf(s, TakeFault(e, v, f)));
    forall p ensures ViewOk(t, a', p) { assert ViewOk(s, a, p) && PageOk(s, p); }
  }

  lemma CopyByteRefines(s: State, a: AState, e: EnvId)
    requires Inv(s) && Refines(s, a) && Enabled(s, CopyByte(e))
    ensures Refines(Next(s, CopyByte(e)), AStep(a, LabelOf(s, CopyByte(e))))
  {
    var t, a' := Next(s, CopyByte(e)), AStep(a, LabelOf(s, CopyByte(e)));
    forall p ensures ViewOk(t, a', p) { assert ViewOk(s, a, p) && PageOk(s, p) && FaultOk(s, e) && ScratchOk(s, e, p); }
  }

  lemma MapCopyRefines(s: State, a: AState, e: EnvId)
    requires Inv(s) && Refines(s, a) && Enabled(s, MapCopy(e))
    ensures Refines(Next(s, MapCopy(e)), AStep(a, LabelOf(s, MapCopy(e))))
  {
    var t, a' := Next(s, MapCopy(e)), AStep(a, LabelOf(s, MapCopy(e)));
    forall p ensures ViewOk(t, a', p) {
      assert ViewOk(s, a, p) && PageOk(s, p) && FaultOk(s, e) && PageOk(s, Pos(e, s.ctl[e].fault.vpn));
    }
  }

  lemma PageAllocRefines(s: State, a: AState, e: EnvId, v: Vpn, f: Frame, w: bool, share: bool)
    requires Inv(s) && Refines(s, a) && Enabled(s, PageAlloc(e, v, f, w, share))
    ensures Refines(Next(s, PageAlloc(e, v, f, w, share)), AStep(a, LabelOf(s, PageAlloc(e, v, f, w, share))))
  {
    var t, a' := Next(s, PageAlloc(e, v, f, w, share)), AStep(a, LabelOf(s, PageAlloc(e, v, f, w, share)));
    forall p ensures ViewOk(t, a', p) { assert ViewOk(s, a, p) && PageOk(s, p) && LooseOk(s, p); }
  }

  lemma PageUnmapRefines(s: State, a: AState, e: EnvId, v: Vpn)
    requires Inv(s) && Refines(s, a) && Enabled(s, PageUnmap(e, v))
    ensures Refines(Next(s, PageUnmap(e, v)), AStep(a, LabelOf(s, PageUnmap(e, v))))
  {
    var t, a' := Next(s, PageUnmap(e, v)), AStep(a, LabelOf(s, PageUnmap(e, v)));
    forall p ensures ViewOk(t, a', p) { assert ViewOk(s, a, p) && PageOk(s, p); }
  }

  lemma MapSharedRefines(s: State, a: AState, e: EnvId, v: Vpn, to: Vpn)
    requires Inv(s) && Refines(s, a) && Enabled(s, MapShared(e, v, to))
    ensures Refines(Next(s, MapShared(e, v, to)), AStep(a, LabelOf(s, MapShared(e, v, to))))
  {
    var t, a' := Next(s, MapShared(e, v, to)), AStep(a, LabelOf(s, MapShared(e, v, to)));
    forall p ensures ViewOk(t, a', p) {
      assert ViewOk(s, a, p) && PageOk(s, p) && ViewOk(s, a, Pos(e, v)) && PageOk(s, Pos(e, v));
      assert LooseOk(s, p) && LooseOk(s, Pos(e, v));
    }
  }

  lemma ExoForkRefines(s: State, a: AState, e: EnvId)
    requires Inv(s) && Refines(s, a) && Enabled(s, ExoFork(e))
    ensures Refines(Next(s, ExoFork(e)), AStep(a, LabelOf(s, ExoFork(e))))
  {
    var t, a' := Next(s, ExoFork(e)), AStep(a, LabelOf(s, ExoFork(e)));
    forall p ensures ViewOk(t, a', p) { assert ViewOk(s, a, p) && PageOk(s, p); }
  }

  lemma DupPageRefines(s: State, a: AState, e: EnvId)
    requires Inv(s) && Refines(s, a) && Enabled(s, DupPage(e))
    ensures Refines(Next(s, DupPage(e)), AStep(a, LabelOf(s, DupPage(e))))
  {
    var t, a' := Next(s, DupPage(e)), AStep(a, LabelOf(s, DupPage(e)));
    var src := Pos(e, s.ctl[e].fork.next);
    assert ViewOk(s, a, src) && PageOk(s, src) && LooseOk(s, src) && ForkOk(s, e);
    forall p ensures ViewOk(t, a', p) {
      assert ViewOk(s, a, p) && PageOk(s, p) && LooseOnce(s, p, e);
    }
  }

  lemma SealParentRefines(s: State, a: AState, e: EnvId)
    requires Inv(s) && Refines(s, a) && Enabled(s, SealParent(e))
    ensures Refines(Next(s, SealParent(e)), AStep(a, LabelOf(s, SealParent(e))))
  {
    var t, a' := Next(s, SealParent(e)), AStep(a, LabelOf(s, SealParent(e)));
    var src, dst := Pos(e, s.ctl[e].fork.vpn), Pos(s.ctl[e].fork.child, s.ctl[e].fork.vpn);
    assert SealOk(s, e) && ViewOk(s, a, src) && PageOk(s, src) && LooseOk(s, src) && LooseOk(s, dst)
      && LooseOnce(s, dst, e);
    forall p ensures ViewOk(t, a', p) { assert ViewOk(s, a, p) && PageOk(s, p) && LooseOk(s, p); }
  }

  lemma ForkFailRefines(s: State, a: AState, e: EnvId)
    requires Inv(s) && Refines(s, a) && Enabled(s, ForkFail(e))
    ensures Refines(Next(s, ForkFail(e)), AStep(a, LabelOf(s, ForkFail(e))))
  {
    var t, a' := Next(s, ForkFail(e)), AStep(a, LabelOf(s, ForkFail(e)));
    forall p ensures ViewOk(t, a', p) { assert ViewOk(s, a, p) && PageOk(s, p); }
  }

  lemma ForkFinishRefines(s: State, a: AState, e: EnvId, f: Frame)
    requires Inv(s) && Refines(s, a) && Enabled(s, ForkFinish(e, f))
    ensures Refines(Next(s, ForkFinish(e, f)), AStep(a, LabelOf(s, ForkFinish(e, f))))
  {
    var t, a' := Next(s, ForkFinish(e, f)), AStep(a, LabelOf(s, ForkFinish(e, f)));
    assert ForkOk(s, e);
    forall p ensures ViewOk(t, a', p) { assert ViewOk(s, a, p) && PageOk(s, p) && LooseOnce(s, p, e); }
  }

  lemma ExitRefines(s: State, a: AState, e: EnvId)
    requires Inv(s) && Refines(s, a) && Enabled(s, Exit(e))
    ensures Refines(Next(s, Exit(e)), AStep(a, LabelOf(s, Exit(e))))
  {
    var t, a' := Next(s, Exit(e)), AStep(a, LabelOf(s, Exit(e)));
    forall p ensures ViewOk(t, a', p) { assert ViewOk(s, a, p) && PageOk(s, p); }
  }

  // ---------- Whole runs ----------

  lemma StepRefines(s: State, a: AState, act: Action)
    requires Inv(s) && Refines(s, a) && Enabled(s, act)
    ensures Inv(Next(s, act)) && Refines(Next(s, act), AStep(a, LabelOf(s, act)))
  {
    StepKeeps(s, act);
    match act
    case Write(e, v, off, b) => WriteRefines(s, a, e, v, off, b);
    case TakeFault(e, v, f) => TakeFaultRefines(s, a, e, v, f);
    case CopyByte(e) => CopyByteRefines(s, a, e);
    case MapCopy(e) => MapCopyRefines(s, a, e);
    case PageAlloc(e, v, f, w, share) => PageAllocRefines(s, a, e, v, f, w, share);
    case PageUnmap(e, v) => PageUnmapRefines(s, a, e, v);
    case MapShared(e, v, to) => MapSharedRefines(s, a, e, v, to);
    case ExoFork(e) => ExoForkRefines(s, a, e);
    case DupPage(e) => DupPageRefines(s, a, e);
    case SealParent(e) => SealParentRefines(s, a, e);
    case ForkFail(e) => ForkFailRefines(s, a, e);
    case ForkFinish(e, f) => ForkFinishRefines(s, a, e, f);
    case Exit(e) => ExitRefines(s, a, e);
  }

  ghost predicate EnabledRun(s: State, acts: seq<Action>)
    decreases |acts|
  {
    acts != [] ==> Enabled(s, acts[0]) && EnabledRun(Next(s, acts[0]), acts[1..])
  }

  ghost function Run(s: State, acts: seq<Action>): State
    requires EnabledRun(s, acts)
    decreases |acts|
  {
    if acts == [] then s else Run(Next(s, acts[0]), acts[1..])
  }

  ghost function EagerRun(s: State, a: AState, acts: seq<Action>): AState
    requires EnabledRun(s, acts)
    decreases |acts|
  {
    if acts == [] then a else EagerRun(Next(s, acts[0]), AStep(a, LabelOf(s, acts[0])), acts[1..])
  }

  /** A freshly loaded system: no fork or fault in progress, nothing copy-on-write, private frames mapped once. */
  ghost predicate Init(s: State) {
    && s.loose == {}
    && (forall e :: e in s.ctl ==> s.ctl[e] == Ctl(true, Idle, NoFault) && e < s.nextId)
    && (forall p :: p in s.pt ==> p.env in s.ctl && p.vpn != PFTEMP && s.pt[p].frame in s.ram && !s.pt[p].cow)
    && (forall p, q :: p in s.pt && q in s.pt && p != q && s.pt[p].frame == s.pt[q].frame ==>
      s.pt[p].share && s.pt[q].share)
  }

  /** The specification state in which every page of `s` owns its bytes. */
  ghost function Eager(s: State): AState
    requires forall p :: p in s.pt ==> s.pt[p].frame in s.ram
  {
    AState(map p | p in s.pt :: if s.pt[p].share then Shared(s.pt[p].frame, MayWrite(s.pt[p]))
                                else Private(s.ram[s.pt[p].frame], MayWrite(s.pt[p])), s.ram)
  }

  lemma InitRefines(s: State)
    requires Init(s)
    ensures Inv(s) && Refines(s, Eager(s))
  {
    assert forall p :: PageOk(s, p);
    assert forall p, q :: Exclusive(s, p, q);
  }

  ghost function Bytes(s: State, p: Pos): Page
    requires p in s.pt && s.pt[p].frame in s.ram
  {
    s.ram[s.pt[p].frame]
  }

  function EagerBytes(a: AState, p: Pos): Page {
    if p !in a.view then ZeroPage()
    else if a.view[p].Private? then a.view[p].bytes
    else if a.view[p].obj in a.objs then a.objs[a.view[p].obj] else ZeroPage()
  }

  lemma {:induction false} RunRefines(s: State, a: AState, acts: seq<Action>)
    requires Inv(s) && Refines(s, a) && EnabledRun(s, acts)
    ensures Inv(Run(s, acts)) && Refines(Run(s, acts), EagerRun(s, a, acts))
    decreases |acts|
  {
    if acts != [] {
      StepRefines(s, a, acts[0]);
      RunRefines(Next(s, acts[0]), AStep(a, LabelOf(s, acts[0])), acts[1..]);
    }
  }

  /** Pages of environments that may run are never loose. */
  lemma StartedIsNotLoose(s: State, acts: seq<Action>, p: Pos)
    requires Init(s) && EnabledRun(s, acts)
    ensures var t := Run(s, acts); p.env in t.ctl && t.ctl[p.env].started ==> p !in t.loose
  {
    InitRefines(s);
    RunRefines(s, Eager(s), acts);
    assert LooseOk(Run(s, acts), p);
  }

  /**
   Main theorem: after any interleaving from a loaded system, every environment that may run has the
   pages, reads the bytes and may write where eager copying would have let it. So does every unfinished child
   as far as `duppage` has completed its pages.
   */
  lemma ForkRefinesEagerCopy(s: State, acts: seq<Action>)
    requires Init(s) && EnabledRun(s, acts)
    ensures var t, a := Run(s, acts), EagerRun(s, Eager(s), acts);
      forall p: Pos :: p.vpn != PFTEMP && (p !in t.loose || (p.env in t.ctl && t.ctl[p.env].started)) ==>
        && (p in t.pt <==> p in a.view)
        && (p in t.pt ==> t.pt[p].frame in t.ram && Bytes(t, p) == EagerBytes(a, p) && MayWrite(t.pt[p]) == a.view[p].w)
  {
    InitRefines(s);
    RunRefines(s, Eager(s), acts);
    var t, a := Run(s, acts), EagerRun(s, Eager(s), acts);
    forall p: Pos | p.vpn != PFTEMP && (p !in t.loose || (p.env in t.ctl && t.ctl[p.env].started))
      ensures p in t.pt <==> p in a.view
      ensures p in t.pt ==>
        t.pt[p].frame in t.ram && Bytes(t, p) == EagerBytes(a, p) && MayWrite(t.pt[p]) == a.view[p].w
    {
      assert ViewOk(t, a, p) && PageOk(t, p) && LooseOk(t, p);
    }
  }

  /** In every reachable state a private frame writable in one environment is mapped in no other that may run. */
  lemma WritableFrameIsExclusive(s: State, acts: seq<Action>, p: Pos, q: Pos)
    requires Init(s) && EnabledRun(s, acts)
    requires var t := Run(s, acts);
      && p in t.pt && q in t.pt && p != q && p.vpn != PFTEMP && q.vpn != PFTEMP
      && t.pt[p].frame == t.pt[q].frame && t.pt[p].w && !t.pt[p].share
    ensures var t := Run(s, acts); q in t.loose && q.env in t.ctl && !t.ctl[q.env].started
  {
    InitRefines(s);
    RunRefines(s, Eager(s), acts);
    assert Exclusive(Run(s, acts), p, q) && LooseOk(Run(s, acts), q);
  }

  // ---------- Isolation ----------

  ghost predicate OthersOnly(acts: seq<Action>, e: EnvId) {
    forall i :: 0 <= i < |acts| ==> acts[i].e != e
  }

  ghost predicate PrivatePage(s: State, p: Pos) {
    && p in s.pt && p.vpn != PFTEMP && !s.pt[p].share && s.pt[p].frame in s.ram
    && p.env in s.ctl && s.ctl[p.env].started
  }

  lemma StepIsolates(s: State, act: Action, p: Pos)
    requires Inv(s) && Enabled(s, act) && PrivatePage(s, p) && act.e != p.env
    ensures PrivatePage(Next(s, act), p) && Bytes(Next(s, act), p) == Bytes(s, p)
  {
    assert ForkOk(s, act.e) && ForkOk(s, p.env) && PageOk(s, p) && LooseOk(s, p);
    match act
    case Write(e, v, off, b) => assert Exclusive(s, Pos(e, v), p);
    case CopyByte(e) => assert ScratchOk(s, e, p);
    case _ =>
  }

  /** Nothing that other environments do, in any order, changes what `p.env` reads from a private page. */
  lemma {:induction false} OthersCannotChangePrivatePage(s: State, acts: seq<Action>, p: Pos)
    requires Inv(s) && EnabledRun(s, acts) && PrivatePage(s, p) && OthersOnly(acts, p.env)
    ensures PrivatePage(Run(s, acts), p) && Bytes(Run(s, acts), p) == Bytes(s, p)
    decreases |acts|
  {
    if acts != [] {
      StepIsolates(s, acts[0], p);
      StepKeeps(s, acts[0]);
      OthersCannotChangePrivatePage(Next(s, acts[0]), acts[1..], p);
    }
  }

  /** One whole `duppage` with nothing in between. */
  function DupWhole(s: State, e: EnvId): State
    requires e in s.ctl && s.ctl[e].fork.Scanning?
  {
    var t := Dup(s, e);
    if t.ctl[e].fork.Sealing? && Pos(e, t.ctl[e].fork.vpn) in t.pt then Seal(t, e) else t
  }

  ghost predicate PageSame(before: State, s: State, e: EnvId, c: EnvId, n: Vpn, p: Pos) {
    var q := if p.env == c then Pos(e, p.vpn) else p;
    && (p in s.pt <==> q in before.pt && (p.env == c ==> p.vpn < n))
    && (p in s.pt ==>
          && s.pt[p].frame == before.pt[q].frame && s.pt[p].share == before.pt[q].share
          && MayWrite(s.pt[p]) == MayWrite(before.pt[q]))
  }

  /**
   Scanning has reached `n`: the child has exactly the pages below it, and frames, sharing and write
   access are as before.
   */
  ghost predicate SamePages(before: State, s: State, e: EnvId, c: EnvId, n: Vpn) {
    forall p :: PageSame(before, s, e, c, n, p)
  }

  lemma DupWholePages(before: State, s: State, e: EnvId, c: EnvId, n: Vpn)
    requires e in s.ctl && s.ctl[e].fork == Scanning(c, n) && e != c && SamePages(before, s, e, c, n)
    ensures SamePages(before, DupWhole(s, e), e, c, n + 1)
  {
    var t, m := DupWhole(s, e), n + 1;
    forall p ensures PageSame(before, t, e, c, m, p) {
      assert PageSame(before, s, e, c, n, p) && PageSame(before, s, e, c, n, Pos(e, n));
    }
  }

  /** The uninterrupted `fork` of `e` into `c` has reached page `n`. */
  ghost predicate ScanAt(before: State, s: State, e: EnvId, c: EnvId, n: Vpn) {
    && Inv(s) && s.ram == before.ram && Runs(s, e) && c in s.ctl && s.ctl[c] == Ctl(false, Idle, NoFault)
    && s.ctl[e].fork == Scanning(c, n)
    && SamePages(before, s, e, c, n)
  }

  lemma DupWholeKeeps(before: State, s: State, e: EnvId, c: EnvId, n: Vpn)
    requires ScanAt(before, s, e, c, n) && n < UXSTACK
    ensures ScanAt(before, DupWhole(s, e), e, c, n + 1)
  {
    assert Inv(DupWhole(s, e)) by {
      DupPageKeeps(s, e);
      assert ForkOk(s, e);
      var t := Dup(s, e);
      if t.ctl[e].fork.Sealing? {
        SealParentKeeps(t, e);
      }
    }
    DupWholePages(before, s, e, c, n);
  }

  lemma FinishKeeps(before: State, s: State, e: EnvId, c: EnvId, f: Frame)
    requires ScanAt(before, s, e, c, UXSTACK) && FreeFrame(before, f)
    ensures FreeFrame(s, f) && Inv(FinishFork(s, e, f))
  {
    forall p | p in s.pt ensures s.pt[p].frame != f {
      assert PageSame(before, s, e, c, UXSTACK, p);
    }
    ForkFinishKeeps(s, e, f);
  }

  /** Nothing of the other environments' pages, and nothing the parent can read or write, has changed. */
  ghost predicate OthersReadAsBefore(before: State, s: State, c: EnvId) {
    forall p: Pos :: p.env != c ==>
      && (p in s.pt <==> p in before.pt)
      && (p in s.pt && before.pt[p].frame in before.ram ==>
            && s.pt[p].frame in s.ram && Bytes(s, p) == Bytes(before, p)
            && s.pt[p].share == before.pt[p].share && MayWrite(s.pt[p]) == MayWrite(before.pt[p]))
  }

  /**
   Below the exception stack the child has the parent's pages, reads the parent's bytes, can write
   what the parent could and shares what was shared.
   */
  ghost predicate ChildReadsAs(before: State, s: State, e: EnvId, c: EnvId) {
    forall v: Vpn :: v < UXSTACK ==>
      && (Pos(c, v) in s.pt <==> Pos(e, v) in before.pt)
      && (Pos(c, v) in s.pt && before.pt[Pos(e, v)].frame in before.ram ==>
        && s.pt[Pos(c, v)].frame in s.ram && Bytes(s, Pos(c, v)) == Bytes(before, Pos(e, v))
        && s.pt[Pos(c, v)].share == before.pt[Pos(e, v)].share
        && MayWrite(s.pt[Pos(c, v)]) == MayWrite(before.pt[Pos(e, v)]))
  }

  lemma FinishReads(before: State, s: State, e: EnvId, c: EnvId, f: Frame)
    requires ScanAt(before, s, e, c, UXSTACK) && FreeFrame(before, f)
    ensures OthersReadAsBefore(before, FinishFork(s, e, f), c) && ChildReadsAs(before, FinishFork(s, e, f), e, c)
  {
    assert forall p :: p in s.pt || p in before.pt ==> PageSame(before, s, e, c, UXSTACK, p);
    assert forall v: Vpn :: v < UXSTACK ==> PageSame(before, s, e, c, UXSTACK, Pos(c, v));
  }

  lemma ChildIsNew(s: State)
    requires Inv(s)
    ensures s.nextId !in s.ctl && forall v: Vpn :: Pos(s.nextId, v) !in s.pt
  {
    assert ForkOk(s, s.nextId);
    forall v: Vpn ensures Pos(s.nextId, v) !in s.pt {
      assert PageOk(s, Pos(s.nextId, v));
    }
  }

  class Machine {
    var s: State

    /** `fork` run without interruption, as the loop of the source. */
    method Fork(e: EnvId, f: Frame) returns (c: EnvId)
      requires Inv(s) && InUserCode(s, e) && FreeFrame(s, f)
      modifies this
      ensures Inv(s) && InUserCode(s, e) && InUserCode(s, c) && c == old(s.nextId) && c !in old(s.ctl)
      ensures OthersReadAsBefore(old(s), s, c)
      ensures ChildReadsAs(old(s), s, e, c)
      ensures Pos(c, UXSTACK) in s.pt && s.pt[Pos(c, UXSTACK)].frame == f && s.pt[Pos(c, UXSTACK)].w && f in s.ram
        && s.ram[f] == ZeroPage()
    {
      ChildIsNew(s);
      c := s.nextId;
      ExoForkKeeps(s, e);
      s := StartFork(s, e);
      forall p ensures PageSame(old(s), s, e, c, 0, p) { assert p == Pos(p.env, p.vpn); }
      var n := 0;
      while n < UXSTACK
        invariant n <= UXSTACK && ScanAt(old(s), s, e, c, n)
      {
        DupWholeKeeps(old(s), s, e, c, n);
        s := DupWhole(s, e);
        n := n + 1;
      }
      FinishKeeps(old(s), s, e, c, f);
      FinishReads(old(s), s, e, c, f);
      s := FinishFork(s, e, f);
    }
  }
}
