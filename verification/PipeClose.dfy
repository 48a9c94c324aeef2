/**
 End-of-file detection on pipes (lib/pipe.c, lib/fd.c): `_pipeisclosed` compares the
 reference counts of a descriptor page and the pipe page, and is right only because of
 the order in which `dup`, `close` and `fork` map and unmap those pages.

 One pipe, any number of environments on one processor, any interleaving of single
 page-map system calls and single loads.
 */
module PipeClose {

  const MAXFD: nat := 32

  type EnvId = nat

  datatype Fd = ReadEnd | WriteEnd | OtherFd
  datatype Data = ThePipe | OtherData

  /** Descriptor number `i` of an environment: its descriptor page and its first data page. */
  datatype Pos = Pos(env: EnvId, i: nat)

  datatype After = Return | ThenDup(old_: nat)

  datatype Pc =
    | Idle
    | Unmapping(i: nat, after: After)
    | Duping(old_: nat, new_: nat)
    | DupMapped(old_: nat, new_: nat)
    | DupUndo(new_: nat)
    | GotRuns(i: nat, n: nat)
    | GotFdRef(i: nat, n: nat, rf: nat)
    | GotBoth(i: nat, n: nat, rf: nat, rp: nat)
    | ForkFds(child: EnvId, j: nat)
    | ForkDatas(child: EnvId, j: nat)

  /** `started` is false for a child that fork has not finished; `runs` is env_runs. */
  datatype Env = Env(started: bool, runs: nat, pc: Pc)

  datatype State = State(fd: map<Pos, Fd>, data: map<Pos, Data>, envs: map<EnvId, Env>, cur: EnvId, nextId: EnvId)

  datatype Action =
    | Switch(e: EnvId)
    | OpenOther(e: EnvId, i: nat)
    | Close(e: EnvId, i: nat)
    | UnmapData(e: EnvId)
    | Dup(e: EnvId, old_: nat, new_: nat)
    | DupData(e: EnvId)
    | DupFd(e: EnvId)
    | DupFail(e: EnvId)
    | DupUnmap(e: EnvId)
    | CheckRuns(e: EnvId, i: nat)
    | CheckFdRef(e: EnvId)
    | CheckPipeRef(e: EnvId)
    | CheckDone(e: EnvId)
    | Fork(e: EnvId)
    | ForkFd(e: EnvId)
    | ForkData(e: EnvId)
    | ForkFail(e: EnvId)
    | Exit(e: EnvId)

  function FdRefs(s: State, x: Fd): set<Pos> {
    set p | p in s.fd && s.fd[p] == x
  }

  function PipeRefs(s: State): set<Pos> {
    set p | p in s.data && s.data[p] == ThePipe
  }

  function PcOf(s: State, e: EnvId): Pc {
    if e in s.envs then s.envs[e].pc else Idle
  }

  /** `e` is on the processor and at `Idle`, or wherever the caller asks. */
  predicate Runs(s: State, e: EnvId) {
    e in s.envs && s.envs[e].started && s.cur == e
  }

  predicate IsEnd(s: State, p: Pos) {
    p in s.fd && s.fd[p] != OtherFd
  }

  predicate Enabled(s: State, a: Action) {
    match a
    case Switch(e) => e in s.envs && s.envs[e].started
    case OpenOther(e, i) => Runs(s, e) && PcOf(s, e).Idle? && i < MAXFD && Pos(e, i) !in s.fd
    case Close(e, i) => Runs(s, e) && PcOf(s, e).Idle? && i < MAXFD && Pos(e, i) in s.fd
    case UnmapData(e) => Runs(s, e) && PcOf(s, e).Unmapping?
    case Dup(e, o, n) => Runs(s, e) && PcOf(s, e).Idle? && o < MAXFD && n < MAXFD && Pos(e, o) in s.fd
    case DupData(e) => Runs(s, e) && PcOf(s, e).Duping?
    case DupFd(e) => Runs(s, e) && PcOf(s, e).DupMapped?
    case DupFail(e) => Runs(s, e) && (PcOf(s, e).Duping? || PcOf(s, e).DupMapped?)
    case DupUnmap(e) => Runs(s, e) && PcOf(s, e).DupUndo?
    case CheckRuns(e, i) => Runs(s, e) && PcOf(s, e).Idle? && i < MAXFD && IsEnd(s, Pos(e, i))
    case CheckFdRef(e) => Runs(s, e) && PcOf(s, e).GotRuns? && Pos(e, PcOf(s, e).i) in s.fd
    case CheckPipeRef(e) => Runs(s, e) && PcOf(s, e).GotFdRef?
    case CheckDone(e) => Runs(s, e) && PcOf(s, e).GotBoth?
    case Fork(e) => Runs(s, e) && PcOf(s, e).Idle?
    case ForkFd(e) => Runs(s, e) && PcOf(s, e).ForkFds? && PcOf(s, e).child in s.envs
    case ForkData(e) => Runs(s, e) && PcOf(s, e).ForkDatas? && PcOf(s, e).child in s.envs
    case ForkFail(e) => Runs(s, e) && (PcOf(s, e).ForkFds? || PcOf(s, e).ForkDatas?)
    case Exit(e) => Runs(s, e)
  }

  function At(s: State, e: EnvId, pc: Pc): State
    requires e in s.envs
  {
    s.(envs := s.envs[e := s.envs[e].(pc := pc)])
  }

  /** Maps at `q` what `p` maps, if anything. */
  function MapLike<T>(m: map<Pos, T>, p: Pos, q: Pos): map<Pos, T> {
    if p in m then m[q := m[p]] else m
  }

  function Others<T>(m: map<Pos, T>, e: EnvId): map<Pos, T> {
    map p | p in m && p.env != e :: m[p]
  }

  /** What `_pipeisclosed` answers when it gets to compare. */
  predicate Answer(s: State, e: EnvId) {
    PcOf(s, e).GotBoth? && PcOf(s, e).rf == PcOf(s, e).rp
  }

  /** The loop of `_pipeisclosed` ends: the environment has not been switched out in between. */
  predicate Settles(s: State, e: EnvId) {
    e in s.envs && PcOf(s, e).GotBoth? && PcOf(s, e).n == s.envs[e].runs
  }

  function Next(s: State, a: Action): State
    requires Enabled(s, a)
  {
    match a
    case Switch(e) => s.(cur := e, envs := s.envs[e := s.envs[e].(runs := s.envs[e].runs + 1)])
    case OpenOther(e, i) => s.(fd := s.fd[Pos(e, i) := OtherFd], data := s.data[Pos(e, i) := OtherData])
    case Close(e, i) => At(s.(fd := s.fd - {Pos(e, i)}), e, Unmapping(i, Return))
    case UnmapData(e) =>
      var pc := PcOf(s, e);
      At(s.(data := s.data - {Pos(e, pc.i)}), e, if pc.after.Return? then Idle else Duping(pc.after.old_, pc.i))
    case Dup(e, o, n) =>
      if Pos(e, n) in s.fd then At(s.(fd := s.fd - {Pos(e, n)}), e, Unmapping(n, ThenDup(o)))
        else At(s, e, Duping(o, n))
    case DupData(e) =>
      var pc := PcOf(s, e);
      At(s.(data := MapLike(s.data, Pos(e, pc.old_), Pos(e, pc.new_))), e, DupMapped(pc.old_, pc.new_))
    case DupFd(e) =>
      var pc := PcOf(s, e);
      if Pos(e, pc.old_) in s.fd then At(s.(fd := s.fd[Pos(e, pc.new_) := s.fd[Pos(e, pc.old_)]]), e, Idle)
      else At(s.(fd := s.fd - {Pos(e, pc.new_)}), e, DupUndo(pc.new_))
    case DupFail(e) => At(s.(fd := s.fd - {Pos(e, PcOf(s, e).new_)}), e, DupUndo(PcOf(s, e).new_))
    case DupUnmap(e) => At(s.(data := s.data - {Pos(e, PcOf(s, e).new_)}), e, Idle)
    case CheckRuns(e, i) => At(s, e, GotRuns(i, s.envs[e].runs))
    case CheckFdRef(e) =>
      var pc := PcOf(s, e);
      At(s, e, GotFdRef(pc.i, pc.n, |FdRefs(s, s.fd[Pos(e, pc.i)])|))
    case CheckPipeRef(e) =>
      var pc := PcOf(s, e);
      At(s, e, GotBoth(pc.i, pc.n, pc.rf, |PipeRefs(s)|))
    case CheckDone(e) => At(s, e, if Settles(s, e) then Idle else GotRuns(PcOf(s, e).i, s.envs[e].runs))
    case Fork(e) =>
      s.(nextId := s.nextId + 1,
        envs := s.envs[e := s.envs[e].(pc := ForkFds(s.nextId, 0))][s.nextId := Env(false, 0, Idle)])
    case ForkFd(e) =>
      var c, j := PcOf(s, e).child, PcOf(s, e).j;
      if j < MAXFD then At(s.(fd := MapLike(s.fd, Pos(e, j), Pos(c, j))), e, ForkFds(c, j + 1))
        else At(s, e, ForkDatas(c, 0))
    case ForkData(e) =>
      var c, j := PcOf(s, e).child, PcOf(s, e).j;
      if j < MAXFD then At(s.(data := MapLike(s.data, Pos(e, j), Pos(c, j))), e, ForkDatas(c, j + 1))
      else s.(envs := s.envs[e := s.envs[e].(pc := Idle)][c := s.envs[c].(started := true)])
    case ForkFail(e) => At(s, e, Idle)
    case Exit(e) => s.(fd := Others(s.fd, e), data := Others(s.data, e), envs := s.envs - {e})
  }

  // ---------- What every reachable state satisfies ----------

  /** A descriptor page of the pipe has its pipe page beside it, except in a child that fork is still building. */
  ghost predicate SlotOk(s: State, p: Pos) {
    && (p in s.fd || p in s.data ==> p.env in s.envs && p.i < MAXFD)
    && (IsEnd(s, p) && s.envs[p.env].started ==> p in s.data && s.data[p] == ThePipe)
  }

  ghost predicate PcOk(s: State, e: EnvId) {
    e in s.envs ==>
      && e < s.nextId
      && (!s.envs[e].started ==> s.envs[e].pc == Idle)
      && match s.envs[e].pc
         case Idle => true
         case Unmapping(i, after) => i < MAXFD && Pos(e, i) !in s.fd && (after.ThenDup? ==> after.old_ < MAXFD)
         case Duping(o, n) => o < MAXFD && n < MAXFD && Pos(e, n) !in s.fd
         case DupMapped(o, n) =>
           && o < MAXFD && n < MAXFD && Pos(e, n) !in s.fd
           && (IsEnd(s, Pos(e, o)) ==> Pos(e, n) in s.data && s.data[Pos(e, n)] == ThePipe)
         case DupUndo(n) => n < MAXFD && Pos(e, n) !in s.fd
         case GotRuns(i, n) => i < MAXFD && IsEnd(s, Pos(e, i)) && n <= s.envs[e].runs
         case GotFdRef(i, n, rf) =>
           && i < MAXFD && IsEnd(s, Pos(e, i)) && n <= s.envs[e].runs
           && (s.cur == e && s.envs[e].runs == n ==> rf == |FdRefs(s, s.fd[Pos(e, i)])|)
         case GotBoth(i, n, rf, rp) =>
           && i < MAXFD && IsEnd(s, Pos(e, i)) && n <= s.envs[e].runs
           && (s.cur == e && s.envs[e].runs == n ==> rf == |FdRefs(s, s.fd[Pos(e, i)])| && rp == |PipeRefs(s)|)
         case ForkFds(c, j) => c < s.nextId && j <= MAXFD && (c in s.envs ==> !s.envs[c].started)
         case ForkDatas(c, j) => c < s.nextId && j <= MAXFD && (c in s.envs ==> !s.envs[c].started)
  }

  ghost predicate SlotScanned(s: State, e: EnvId, c: EnvId, nf: nat, nd: nat, i: nat) {
    && (Pos(c, i) in s.fd <==> i < nf && Pos(e, i) in s.fd)
    && (Pos(c, i) in s.fd ==> s.fd[Pos(c, i)] == s.fd[Pos(e, i)])
    && (Pos(c, i) in s.data <==> i < nd && Pos(e, i) in s.data)
    && (Pos(c, i) in s.data ==> s.data[Pos(c, i)] == s.data[Pos(e, i)])
  }

  /** The child has the descriptor and data pages of its parent that fork has reached, descriptor pages first. */
  ghost predicate ScanOk(s: State, e: EnvId, i: nat) {
    match PcOf(s, e)
    case ForkFds(c, j) => c in s.envs ==> SlotScanned(s, e, c, j, 0, i)
    case ForkDatas(c, j) => c in s.envs ==> SlotScanned(s, e, c, MAXFD, j, i)
    case _ => true
  }

  ghost predicate Builds(s: State, e: EnvId, c: EnvId) {
    (PcOf(s, e).ForkFds? || PcOf(s, e).ForkDatas?) && PcOf(s, e).child == c
  }

  ghost predicate OneParent(s: State, e: EnvId, d: EnvId, c: EnvId) {
    Builds(s, e, c) && Builds(s, d, c) ==> e == d
  }

  ghost predicate Inv(s: State) {
    && (forall p :: SlotOk(s, p))
    && (forall e :: PcOk(s, e))
    && (forall e, i: nat :: ScanOk(s, e, i))
    && (forall e, d, c :: OneParent(s, e, d, c))
  }

  lemma SwitchPc(s: State, e: EnvId, d: EnvId)
    requires Inv(s) && Enabled(s, Switch(e))
    ensures PcOk(Next(s, Switch(e)), d)
  {
    assert PcOk(s, d) && PcOk(s, e);
  }

  lemma SwitchKeeps(s: State, e: EnvId)
    requires Inv(s) && Enabled(s, Switch(e))
    ensures Inv(Next(s, Switch(e)))
  {
    var t := Next(s, Switch(e));
    forall p ensures SlotOk(t, p) { assert SlotOk(s, p) && PcOk(s, e); }
    forall d ensures PcOk(t, d) { SwitchPc(s, e, d); }
    forall d, i: nat ensures ScanOk(t, d, i) { assert ScanOk(s, d, i) && PcOk(s, d) && PcOk(s, e); }
    forall d, x, c ensures OneParent(t, d, x, c) { assert OneParent(s, d, x, c); }
  }

  lemma OpenOtherKeeps(s: State, e: EnvId, i: nat)
    requires Inv(s) && Enabled(s, OpenOther(e, i))
    ensures Inv(Next(s, OpenOther(e, i)))
  {
    var t := Next(s, OpenOther(e, i));
    forall p ensures SlotOk(t, p) { assert SlotOk(s, p) && PcOk(s, e); }
    forall d ensures PcOk(t, d) { assert PcOk(s, d) && PcOk(s, e); }
    forall d, i: nat ensures ScanOk(t, d, i) { assert ScanOk(s, d, i) && PcOk(s, d) && PcOk(s, e); }
    forall d, x, c ensures OneParent(t, d, x, c) { assert OneParent(s, d, x, c); }
  }

  lemma CloseKeeps(s: State, e: EnvId, i: nat)
    requires Inv(s) && Enabled(s, Close(e, i))
    ensures Inv(Next(s, Close(e, i)))
  {
    var t := Next(s, Close(e, i));
    forall p ensures SlotOk(t, p) { assert SlotOk(s, p) && PcOk(s, e); }
    forall d ensures PcOk(t, d) { assert PcOk(s, d) && PcOk(s, e); }
    forall d, i: nat ensures ScanOk(t, d, i) { assert ScanOk(s, d, i) && PcOk(s, d) && PcOk(s, e); }
    forall d, x, c ensures OneParent(t, d, x, c) { assert OneParent(s, d, x, c); }
  }

  lemma UnmapDataPc(s: State, e: EnvId, d: EnvId)
    requires Inv(s) && Enabled(s, UnmapData(e))
    ensures PcOk(Next(s, UnmapData(e)), d)
  {
    assert PcOk(s, d) && PcOk(s, e);
  }

  lemma UnmapDataKeeps(s: State, e: EnvId)
    requires Inv(s) && Enabled(s, UnmapData(e))
    ensures Inv(Next(s, UnmapData(e)))
  {
    var t := Next(s, UnmapData(e));
    forall p ensures SlotOk(t, p) { assert SlotOk(s, p) && PcOk(s, e); }
    forall d ensures PcOk(t, d) { UnmapDataPc(s, e, d); }
    forall d, i: nat ensures ScanOk(t, d, i) { assert ScanOk(s, d, i) && PcOk(s, d) && PcOk(s, e); }
    forall d, x, c ensures OneParent(t, d, x, c) { assert OneParent(s, d, x, c); }
  }

  lemma DupPc(s: State, e: EnvId, o: nat, n: nat, d: EnvId)
    requires Inv(s) && Enabled(s, Dup(e, o, n))
    ensures PcOk(Next(s, Dup(e, o, n)), d)
  {
    assert PcOk(s, d) && PcOk(s, e);
  }

  lemma DupKeeps(s: State, e: EnvId, o: nat, n: nat)
    requires Inv(s) && Enabled(s, Dup(e, o, n))
    ensures Inv(Next(s, Dup(e, o, n)))
  {
    var t := Next(s, Dup(e, o, n));
    forall p ensures SlotOk(t, p) { assert SlotOk(s, p) && PcOk(s, e); }
    forall d ensures PcOk(t, d) { DupPc(s, e, o, n, d); }
    forall d, i: nat ensures ScanOk(t, d, i) { assert ScanOk(s, d, i) && PcOk(s, d) && PcOk(s, e); }
    forall d, x, c ensures OneParent(t, d, x, c) { assert OneParent(s, d, x, c); }
  }

  lemma DupDataPc(s: State, e: EnvId, d: EnvId)
    requires Inv(s) && Enabled(s, DupData(e))
    ensures PcOk(Next(s, DupData(e)), d)
  {
    assert PcOk(s, d) && PcOk(s, e) && SlotOk(s, Pos(e, PcOf(s, e).old_));
  }

  lemma DupDataKeeps(s: State, e: EnvId)
    requires Inv(s) && Enabled(s, DupData(e))
    ensures Inv(Next(s, DupData(e)))
  {
    var t := Next(s, DupData(e));
    forall p ensures SlotOk(t, p) { assert SlotOk(s, p) && PcOk(s, e); }
    forall d ensures PcOk(t, d) { DupDataPc(s, e, d); }
    forall d, i: nat ensures ScanOk(t, d, i) { assert ScanOk(s, d, i) && PcOk(s, d) && PcOk(s, e); }
    forall d, x, c ensures OneParent(t, d, x, c) { assert OneParent(s, d, x, c); }
  }

  lemma DupFdPc(s: State, e: EnvId, d: EnvId)
    requires Inv(s) && Enabled(s, DupFd(e))
    ensures PcOk(Next(s, DupFd(e)), d)
  {
    assert PcOk(s, d) && PcOk(s, e);
  }

  lemma DupFdKeeps(s: State, e: EnvId)
    requires Inv(s) && Enabled(s, DupFd(e))
    ensures Inv(Next(s, DupFd(e)))
  {
    var t := Next(s, DupFd(e));
    forall p ensures SlotOk(t, p) { assert SlotOk(s, p) && PcOk(s, e); }
    forall d ensures PcOk(t, d) { DupFdPc(s, e, d); }
    forall d, i: nat ensures ScanOk(t, d, i) { assert ScanOk(s, d, i) && PcOk(s, d) && PcOk(s, e); }
    forall d, x, c ensures OneParent(t, d, x, c) { assert OneParent(s, d, x, c); }
  }

  lemma DupFailPc(s: State, e: EnvId, d: EnvId)
    requires Inv(s) && Enabled(s, DupFail(e))
    ensures PcOk(Next(s, DupFail(e)), d)
  {
    assert PcOk(s, d) && PcOk(s, e);
  }

  lemma DupFailKeeps(s: State, e: EnvId)
    requires Inv(s) && Enabled(s, DupFail(e))
    ensures Inv(Next(s, DupFail(e)))
  {
    var t := Next(s, DupFail(e));
    forall p ensures SlotOk(t, p) { assert SlotOk(s, p) && PcOk(s, e); }
    forall d ensures PcOk(t, d) { DupFailPc(s, e, d); }
    forall d, i: nat ensures ScanOk(t, d, i) { assert ScanOk(s, d, i) && PcOk(s, d) && PcOk(s, e); }
    forall d, x, c ensures OneParent(t, d, x, c) { assert OneParent(s, d, x, c); }
  }

  lemma DupUnmapPc(s: State, e: EnvId, d: EnvId)
    requires Inv(s) && Enabled(s, DupUnmap(e))
    ensures PcOk(Next(s, DupUnmap(e)), d)
  {
    assert PcOk(s, d) && PcOk(s, e);
  }

  lemma DupUnmapKeeps(s: State, e: EnvId)
    requires Inv(s) && Enabled(s, DupUnmap(e))
    ensures Inv(Next(s, DupUnmap(e)))
  {
    var t := Next(s, DupUnmap(e));
    forall p ensures SlotOk(t, p) { assert SlotOk(s, p) && PcOk(s, e); }
    forall d ensures PcOk(t, d) { DupUnmapPc(s, e, d); }
    forall d, i: nat ensures ScanOk(t, d, i) { assert ScanOk(s, d, i) && PcOk(s, d) && PcOk(s, e); }
    forall d, x, c ensures OneParent(t, d, x, c) { assert OneParent(s, d, x, c); }
  }

  lemma CheckRunsKeeps(s: State, e: EnvId, i: nat)
    requires Inv(s) && Enabled(s, CheckRuns(e, i))
    ensures Inv(Next(s, CheckRuns(e, i)))
  {
    var t := Next(s, CheckRuns(e, i));
    forall p ensures SlotOk(t, p) { assert SlotOk(s, p) && PcOk(s, e); }
    forall d ensures PcOk(t, d) { assert PcOk(s, d) && PcOk(s, e); }
    forall d, i: nat ensures ScanOk(t, d, i) { assert ScanOk(s, d, i) && PcOk(s, d) && PcOk(s, e); }
    forall d, x, c ensures OneParent(t, d, x, c) { assert OneParent(s, d, x, c); }
  }

  lemma CheckFdRefKeeps(s: State, e: EnvId)
    requires Inv(s) && Enabled(s, CheckFdRef(e))
    ensures Inv(Next(s, CheckFdRef(e)))
  {
    var t := Next(s, CheckFdRef(e));
    forall p ensures SlotOk(t, p) { assert SlotOk(s, p) && PcOk(s, e); }
    forall d ensures PcOk(t, d) { assert PcOk(s, d) && PcOk(s, e); }
    forall d, i: nat ensures ScanOk(t, d, i) { assert ScanOk(s, d, i) && PcOk(s, d) && PcOk(s, e); }
    forall d, x, c ensures OneParent(t, d, x, c) { assert OneParent(s, d, x, c); }
  }

  lemma CheckPipeRefKeeps(s: State, e: EnvId)
    requires Inv(s) && Enabled(s, CheckPipeRef(e))
    ensures Inv(Next(s, CheckPipeRef(e)))
  {
    var t := Next(s, CheckPipeRef(e));
    forall p ensures SlotOk(t, p) { assert SlotOk(s, p) && PcOk(s, e); }
    forall d ensures PcOk(t, d) { assert PcOk(s, d) && PcOk(s, e); }
    forall d, i: nat ensures ScanOk(t, d, i) { assert ScanOk(s, d, i) && PcOk(s, d) && PcOk(s, e); }
    forall d, x, c ensures OneParent(t, d, x, c) { assert OneParent(s, d, x, c); }
  }

  lemma CheckDoneKeeps(s: State, e: EnvId)
    requires Inv(s) && Enabled(s, CheckDone(e))
    ensures Inv(Next(s, CheckDone(e)))
  {
    var t := Next(s, CheckDone(e));
    forall p ensures SlotOk(t, p) { assert SlotOk(s, p) && PcOk(s, e); }
    forall d ensures PcOk(t, d) { assert PcOk(s, d) && PcOk(s, e); }
    forall d, i: nat ensures ScanOk(t, d, i) { assert ScanOk(s, d, i) && PcOk(s, d) && PcOk(s, e); }
    forall d, x, c ensures OneParent(t, d, x, c) { assert OneParent(s, d, x, c); }
  }

  lemma ForkPc(s: State, e: EnvId, d: EnvId)
    requires Inv(s) && Enabled(s, Fork(e))
    ensures PcOk(Next(s, Fork(e)), d)
  {
    assert PcOk(s, d) && PcOk(s, e);
  }

  lemma ForkKeeps(s: State, e: EnvId)
    requires Inv(s) && Enabled(s, Fork(e))
    ensures Inv(Next(s, Fork(e)))
  {
    var t := Next(s, Fork(e));
    forall p ensures SlotOk(t, p) { assert SlotOk(s, p) && PcOk(s, e); }
    forall d ensures PcOk(t, d) { ForkPc(s, e, d); }
    forall d, i: nat ensures ScanOk(t, d, i) {
      assert ScanOk(s, d, i) && PcOk(s, d) && PcOk(s, e) && SlotOk(s, Pos(s.nextId, i)) && PcOk(s, s.nextId);
    }
    forall d, x, c ensures OneParent(t, d, x, c) { assert OneParent(s, d, x, c) && PcOk(s, d) && PcOk(s, x); }
  }

  lemma ForkFdScan(s: State, e: EnvId, d: EnvId, i: nat)
    requires Inv(s) && Enabled(s, ForkFd(e))
    ensures ScanOk(Next(s, ForkFd(e)), d, i)
  {
    assert ScanOk(s, d, i) && PcOk(s, d) && PcOk(s, e) && OneParent(s, d, e, PcOf(s, e).child);
  }

  lemma ForkFdPc(s: State, e: EnvId, d: EnvId)
    requires Inv(s) && Enabled(s, ForkFd(e))
    ensures PcOk(Next(s, ForkFd(e)), d)
  {
    assert PcOk(s, d) && PcOk(s, e);
  }

  lemma ForkFdKeeps(s: State, e: EnvId)
    requires Inv(s) && Enabled(s, ForkFd(e))
    ensures Inv(Next(s, ForkFd(e)))
  {
    var t := Next(s, ForkFd(e));
    forall p ensures SlotOk(t, p) { assert SlotOk(s, p) && PcOk(s, e); }
    forall d ensures PcOk(t, d) { ForkFdPc(s, e, d); }
    forall d, i: nat ensures ScanOk(t, d, i) { ForkFdScan(s, e, d, i); }
    forall d, x, c ensures OneParent(t, d, x, c) { assert OneParent(s, d, x, c); }
  }

  lemma ForkDataScan(s: State, e: EnvId, d: EnvId, i: nat)
    requires Inv(s) && Enabled(s, ForkData(e))
    ensures ScanOk(Next(s, ForkData(e)), d, i)
  {
    assert ScanOk(s, d, i) && PcOk(s, d) && PcOk(s, e) && OneParent(s, d, e, PcOf(s, e).child);
  }

  lemma ForkDataSlot(s: State, e: EnvId, p: Pos)
    requires Inv(s) && Enabled(s, ForkData(e))
    ensures SlotOk(Next(s, ForkData(e)), p)
  {
    assert SlotOk(s, p) && PcOk(s, e) && ScanOk(s, e, p.i) && SlotOk(s, Pos(e, p.i));
  }

  lemma ForkDataPc(s: State, e: EnvId, d: EnvId)
    requires Inv(s) && Enabled(s, ForkData(e))
    ensures PcOk(Next(s, ForkData(e)), d)
  {
    assert PcOk(s, d) && PcOk(s, e) && OneParent(s, d, e, PcOf(s, e).child);
  }

  lemma ForkDataKeeps(s: State, e: EnvId)
    requires Inv(s) && Enabled(s, ForkData(e))
    ensures Inv(Next(s, ForkData(e)))
  {
    var t := Next(s, ForkData(e));
    forall p ensures SlotOk(t, p) { ForkDataSlot(s, e, p); }
    forall d ensures PcOk(t, d) { ForkDataPc(s, e, d); }
    forall d, i: nat ensures ScanOk(t, d, i) { ForkDataScan(s, e, d, i); }
    forall d, x, c ensures OneParent(t, d, x, c) { assert OneParent(s, d, x, c); }
  }

  lemma ForkFailKeeps(s: State, e: EnvId)
    requires Inv(s) && Enabled(s, ForkFail(e))
    ensures Inv(Next(s, ForkFail(e)))
  {
    var t := Next(s, ForkFail(e));
    forall p ensures SlotOk(t, p) { assert SlotOk(s, p) && PcOk(s, e); }
    forall d ensures PcOk(t, d) { assert PcOk(s, d) && PcOk(s, e); }
    forall d, i: nat ensures ScanOk(t, d, i) { assert ScanOk(s, d, i) && PcOk(s, d) && PcOk(s, e); }
    forall d, x, c ensures OneParent(t, d, x, c) { assert OneParent(s, d, x, c); }
  }

  lemma ExitKeeps(s: State, e: EnvId)
    requires Inv(s) && Enabled(s, Exit(e))
    ensures Inv(Next(s, Exit(e)))
  {
    var t := Next(s, Exit(e));
    forall p ensures SlotOk(t, p) { assert SlotOk(s, p) && PcOk(s, e); }
    forall d ensures PcOk(t, d) { assert PcOk(s, d) && PcOk(s, e); }
    forall d, i: nat ensures ScanOk(t, d, i) { assert ScanOk(s, d, i) && PcOk(s, d) && PcOk(s, e); }
    forall d, x, c ensures OneParent(t, d, x, c) { assert OneParent(s, d, x, c); }
  }

  // ---------- Whole runs ----------

  lemma StepKeeps(s: State, a: Action)
    requires Inv(s) && Enabled(s, a)
    ensures Inv(Next(s, a))
  {
    match a
    case Switch(e) => SwitchKeeps(s, e);
    case OpenOther(e, i) => OpenOtherKeeps(s, e, i);
    case Close(e, i) => CloseKeeps(s, e, i);
    case UnmapData(e) => UnmapDataKeeps(s, e);
    case Dup(e, o, n) => DupKeeps(s, e, o, n);
    case DupData(e) => DupDataKeeps(s, e);
    case DupFd(e) => DupFdKeeps(s, e);
    case DupFail(e) => DupFailKeeps(s, e);
    case DupUnmap(e) => DupUnmapKeeps(s, e);
    case CheckRuns(e, i) => CheckRunsKeeps(s, e, i);
    case CheckFdRef(e) => CheckFdRefKeeps(s, e);
    case CheckPipeRef(e) => CheckPipeRefKeeps(s, e);
    case CheckDone(e) => CheckDoneKeeps(s, e);
    case Fork(e) => ForkKeeps(s, e);
    case ForkFd(e) => ForkFdKeeps(s, e);
    case ForkData(e) => ForkDataKeeps(s, e);
    case ForkFail(e) => ForkFailKeeps(s, e);
    case Exit(e) => ExitKeeps(s, e);
  }

  predicate EnabledRun(s: State, acts: seq<Action>)
    decreases |acts|
  {
    acts != [] ==> Enabled(s, acts[0]) && EnabledRun(Next(s, acts[0]), acts[1..])
  }

  function Run(s: State, acts: seq<Action>): State
    requires EnabledRun(s, acts)
    decreases |acts|
  {
    if acts == [] then s else Run(Next(s, acts[0]), acts[1..])
  }

  lemma {:induction false} RunKeeps(s: State, acts: seq<Action>)
    requires Inv(s) && EnabledRun(s, acts)
    ensures Inv(Run(s, acts))
    decreases |acts|
  {
    if acts != [] {
      StepKeeps(s, acts[0]);
      RunKeeps(Next(s, acts[0]), acts[1..]);
    }
  }

  /** No call is in progress anywhere, and each open end of the pipe has its pipe page. */
  ghost predicate Quiet(s: State) {
    && (forall e :: e in s.envs ==> s.envs[e].started && s.envs[e].pc == Idle && e < s.nextId)
    && (forall p :: p in s.fd || p in s.data ==> p.env in s.envs && p.i < MAXFD)
    && (forall p :: IsEnd(s, p) ==> p in s.data && s.data[p] == ThePipe)
  }

  lemma QuietOk(s: State)
    requires Quiet(s)
    ensures Inv(s)
  {
    forall p ensures SlotOk(s, p) { assert IsEnd(s, p) ==> p in s.data; }
  }

  // ---------- What the comparison of counts means ----------

  function Other(x: Fd): Fd {
    match x
    case ReadEnd => WriteEnd
    case WriteEnd => ReadEnd
    case OtherFd => OtherFd
  }

  /** Pipe descriptor pages that stand without their pipe page. */
  function FdOnly(s: State): set<Pos> {
    set p | p in s.fd && s.fd[p] != OtherFd && p !in PipeRefs(s)
  }

  /** Pipe pages that stand without a pipe descriptor page: a `dup` or `close` is half done there. */
  function DataOnly(s: State): set<Pos> {
    set p | p in s.data && s.data[p] == ThePipe && !IsEnd(s, p)
  }

  lemma SplitSize(a: set<Pos>, b: set<Pos>)
    ensures |a| == |a * b| + |a - b|
  {
    assert a == (a * b) + (a - b);
  }

  lemma SetsBalance(a: set<Pos>, b: set<Pos>, p: set<Pos>)
    requires a !! b
    ensures |a| + |b| + |p - (a + b)| == |p| + |(a + b) - p|
  {
    var ends := a + b;
    SplitSize(ends, p);
    SplitSize(p, ends);
    assert ends * p == p * ends;
  }

  lemma HalfMapped(s: State, x: Fd)
    requires x != OtherFd
    ensures FdOnly(s) == (FdRefs(s, x) + FdRefs(s, Other(x))) - PipeRefs(s)
    ensures DataOnly(s) == PipeRefs(s) - (FdRefs(s, x) + FdRefs(s, Other(x)))
  {
  }

  /** The two counts differ by the other end's descriptors and by the half-mapped slots, and by nothing else. */
  lemma CountsBalance(s: State, x: Fd)
    requires x != OtherFd
    ensures |FdRefs(s, x)| + |FdRefs(s, Other(x))| + |DataOnly(s)| == |PipeRefs(s)| + |FdOnly(s)|
  {
    HalfMapped(s, x);
    SetsBalance(FdRefs(s, x), FdRefs(s, Other(x)), PipeRefs(s));
  }

  ghost predicate NoUnfinishedChild(s: State) {
    forall e :: e in s.envs ==> s.envs[e].started
  }

  /** Every descriptor page has its pipe page once all children are finished. */
  lemma NoUnfinishedChildNoFdOnly(s: State)
    requires Inv(s) && NoUnfinishedChild(s)
    ensures FdOnly(s) == {}
  {
    forall p ensures p !in FdOnly(s) { assert SlotOk(s, p); }
  }

  /** `_pipeisclosed` is about to return its answer about slot `i` of the running environment `e`. */
  ghost predicate Returns(s: State, e: EnvId) {
    s.cur == e && Settles(s, e)
  }

  /**
   The answer is about the present state: it is `true` exactly when the other end's descriptors
   balance the half-mapped slots.
   */
  lemma AnswerMeans(s: State, e: EnvId)
    requires Inv(s) && Returns(s, e)
    ensures var p := Pos(e, PcOf(s, e).i);
      && IsEnd(s, p)
      && (Answer(s, e) <==> |FdRefs(s, Other(s.fd[p]))| + |DataOnly(s)| == |FdOnly(s)|)
  {
    assert PcOk(s, e);
    CountsBalance(s, s.fd[Pos(e, PcOf(s, e).i)]);
  }

  /** No descriptor of the other end exists in any environment. */
  ghost predicate NoOtherEnd(s: State, e: EnvId) {
    && PcOf(s, e).GotBoth? && Pos(e, PcOf(s, e).i) in s.fd
    && forall q :: q in s.fd ==> s.fd[q] != Other(s.fd[Pos(e, PcOf(s, e).i)])
  }

  lemma NoOtherEndCount(s: State, e: EnvId)
    requires PcOf(s, e).GotBoth? && IsEnd(s, Pos(e, PcOf(s, e).i))
    ensures NoOtherEnd(s, e) <==> |FdRefs(s, Other(s.fd[Pos(e, PcOf(s, e).i)]))| == 0
  {
    var x := Other(s.fd[Pos(e, PcOf(s, e).i)]);
    if NoOtherEnd(s, e) {
      forall q ensures q !in FdRefs(s, x) {}
      assert FdRefs(s, x) == {};
    } else {
      var q :| q in s.fd && s.fd[q] == x;
      assert q in FdRefs(s, x);
    }
  }

  lemma RunAnswerMeans(s: State, acts: seq<Action>, e: EnvId)
    requires Quiet(s) && EnabledRun(s, acts) && Returns(Run(s, acts), e)
    ensures var t := Run(s, acts); var p := Pos(e, PcOf(t, e).i);
      && IsEnd(t, p) && Inv(t)
      && (Answer(t, e) <==> |FdRefs(t, Other(t.fd[p]))| + |DataOnly(t)| == |FdOnly(t)|)
      && (NoOtherEnd(t, e) <==> |FdRefs(t, Other(t.fd[p]))| == 0)
  {
    QuietOk(s);
    RunKeeps(s, acts);
    AnswerMeans(Run(s, acts), e);
    NoOtherEndCount(Run(s, acts), e);
  }

  /**
   The exact condition, over every run: an answer of `true` is right if and only if as many pipe
   descriptor pages stand without their pipe page as pipe pages stand without a descriptor page.
   */
  lemma ClosedIsRightIff(s: State, acts: seq<Action>, e: EnvId)
    requires Quiet(s) && EnabledRun(s, acts) && Returns(Run(s, acts), e) && Answer(Run(s, acts), e)
    ensures var t := Run(s, acts); NoOtherEnd(t, e) <==> |FdOnly(t)| == |DataOnly(t)|
  {
    RunAnswerMeans(s, acts, e);
  }

  /** While these numbers are equal the answer is exact, in particular when no slot is half mapped. */
  lemma AnswerIsExactWhenBalanced(s: State, acts: seq<Action>, e: EnvId)
    requires Quiet(s) && EnabledRun(s, acts) && Returns(Run(s, acts), e)
    requires |FdOnly(Run(s, acts))| == |DataOnly(Run(s, acts))|
    ensures Answer(Run(s, acts), e) <==> NoOtherEnd(Run(s, acts), e)
  {
    RunAnswerMeans(s, acts, e);
  }

  /**
   Soundness over every run: unless an unfinished child holds an end of this pipe without its page,
   an answer of `true` means that no descriptor of the other end exists in any environment.
   */
  lemma ClosedMeansNoOtherEnd(s: State, acts: seq<Action>, e: EnvId)
    requires Quiet(s) && EnabledRun(s, acts) && Returns(Run(s, acts), e) && Answer(Run(s, acts), e)
    requires FdOnly(Run(s, acts)) == {}
    ensures NoOtherEnd(Run(s, acts), e)
  {
    RunAnswerMeans(s, acts, e);
  }

  /** In particular in every run in which all forks have finished and every child has started. */
  lemma ClosedIsRightAfterForks(s: State, acts: seq<Action>, e: EnvId)
    requires Quiet(s) && EnabledRun(s, acts) && Returns(Run(s, acts), e) && Answer(Run(s, acts), e)
    requires NoUnfinishedChild(Run(s, acts))
    ensures NoOtherEnd(Run(s, acts), e)
  {
    QuietOk(s);
    RunKeeps(s, acts);
    NoUnfinishedChildNoFdOnly(Run(s, acts));
    ClosedMeansNoOtherEnd(s, acts, e);
  }

  /** Only a child that fork has left unfinished holds a pipe descriptor without its pipe page. */
  lemma HiddenSlotsAreUnfinishedChildren(s: State, acts: seq<Action>, q: Pos)
    requires Quiet(s) && EnabledRun(s, acts) && q in FdOnly(Run(s, acts))
    ensures q.env in Run(s, acts).envs && !Run(s, acts).envs[q.env].started
  {
    QuietOk(s);
    RunKeeps(s, acts);
    assert SlotOk(Run(s, acts), q);
  }

  /** Two readers in environments 0 and 1 and a writer in environment 2. */
  function RaceStart(): State {
    State(map[Pos(0, 0) := ReadEnd, Pos(1, 0) := ReadEnd, Pos(2, 0) := WriteEnd],
          map[Pos(0, 0) := ThePipe, Pos(1, 0) := ThePipe, Pos(2, 0) := ThePipe],
          map[0 := Env(true, 0, Idle), 1 := Env(true, 0, Idle), 2 := Env(true, 0, Idle)], 0, 3)
  }

  /** Environment 0 has started to fork and environment 3 is its child. */
  function RaceForking(j: nat, runs: nat, pc: Pc, cur: EnvId): State {
    State(if j == 0 then RaceStart().fd else RaceStart().fd[Pos(3, 0) := ReadEnd], RaceStart().data,
          map[0 := Env(true, 0, ForkFds(3, j)), 1 := Env(true, runs, pc), 2 := Env(true, 0, Idle),
            3 := Env(false, 0, Idle)],
          cur, 4)
  }

  ghost predicate Moves(s: State, a: Action, t: State) {
    Enabled(s, a) && Next(s, a) == t
  }

  lemma RaceForks()
    ensures Moves(RaceStart(), Fork(0), RaceForking(0, 0, Idle, 0))
  {
    assert Next(RaceStart(), Fork(0)).envs == RaceForking(0, 0, Idle, 0).envs;
  }

  lemma RaceMapsFd()
    ensures Moves(RaceForking(0, 0, Idle, 0), ForkFd(0), RaceForking(1, 0, Idle, 0))
  {
    assert Next(RaceForking(0, 0, Idle, 0), ForkFd(0)).envs == RaceForking(1, 0, Idle, 0).envs;
  }

  lemma RaceSwitches()
    ensures Moves(RaceForking(1, 0, Idle, 0), Switch(1), RaceForking(1, 1, Idle, 1))
  {
    assert Next(RaceForking(1, 0, Idle, 0), Switch(1)).envs == RaceForking(1, 1, Idle, 1).envs;
  }

  lemma RaceCounts(pc: Pc)
    ensures |FdRefs(RaceForking(1, 1, pc, 1), ReadEnd)| == 3 && |PipeRefs(RaceForking(1, 1, pc, 1))| == 3
  {
    assert FdRefs(RaceForking(1, 1, pc, 1), ReadEnd) == {Pos(0, 0), Pos(1, 0), Pos(3, 0)};
    assert PipeRefs(RaceForking(1, 1, pc, 1)) == {Pos(0, 0), Pos(1, 0), Pos(2, 0)};
  }

  lemma RaceAsks(pc: Pc, pc': Pc)
    ensures At(RaceForking(1, 1, pc, 1), 1, pc') == RaceForking(1, 1, pc', 1)
  {
    assert At(RaceForking(1, 1, pc, 1), 1, pc').envs == RaceForking(1, 1, pc', 1).envs;
  }

  lemma RaceReads()
    ensures Moves(RaceForking(1, 1, Idle, 1), CheckRuns(1, 0), RaceForking(1, 1, GotRuns(0, 1), 1))
    ensures Moves(RaceForking(1, 1, GotRuns(0, 1), 1), CheckFdRef(1), RaceForking(1, 1, GotFdRef(0, 1, 3), 1))
    ensures Moves(RaceForking(1, 1, GotFdRef(0, 1, 3), 1), CheckPipeRef(1), RaceForking(1, 1, GotBoth(0, 1, 3, 3), 1))
  {
    RaceCounts(GotRuns(0, 1));
    RaceCounts(GotFdRef(0, 1, 3));
    RaceAsks(Idle, GotRuns(0, 1));
    RaceAsks(GotRuns(0, 1), GotFdRef(0, 1, 3));
    RaceAsks(GotFdRef(0, 1, 3), GotBoth(0, 1, 3, 3));
  }

  lemma RunCons(s: State, a: Action, t: State, rest: seq<Action>)
    requires Moves(s, a, t) && EnabledRun(t, rest)
    ensures EnabledRun(s, [a] + rest) && Run(s, [a] + rest) == Run(t, rest)
  {
    assert ([a] + rest)[1..] == rest;
  }

  lemma RunThree(s: State, a: Action, s1: State, b: Action, s2: State, c: Action, t: State, rest: seq<Action>)
    requires Moves(s, a, s1) && Moves(s1, b, s2) && Moves(s2, c, t) && EnabledRun(t, rest)
    ensures EnabledRun(s, [a] + ([b] + ([c] + rest))) && Run(s, [a] + ([b] + ([c] + rest))) == Run(t, rest)
  {
    RunCons(s2, c, t, rest);
    RunCons(s1, b, s2, [c] + rest);
    RunCons(s, a, s1, [b] + ([c] + rest));
  }

  lemma RaceRuns(s: State, m: State, t: State) returns (acts: seq<Action>)
    requires s == RaceStart() && m == RaceForking(1, 1, Idle, 1) && t == RaceForking(1, 1, GotBoth(0, 1, 3, 3), 1)
    ensures EnabledRun(s, acts) && Run(s, acts) == t
  {
    RaceReads();
    RunThree(m, CheckRuns(1, 0), RaceForking(1, 1, GotRuns(0, 1), 1), CheckFdRef(1),
      RaceForking(1, 1, GotFdRef(0, 1, 3), 1),
             CheckPipeRef(1), t, []);
    acts := [CheckRuns(1, 0)] + ([CheckFdRef(1)] + ([CheckPipeRef(1)] + []));
    RaceForks();
    RaceMapsFd();
    RaceSwitches();
    RunThree(s, Fork(0), RaceForking(0, 0, Idle, 0), ForkFd(0), RaceForking(1, 0, Idle, 0), Switch(1), m, acts);
    acts := [Fork(0)] + ([ForkFd(0)] + ([Switch(1)] + acts));
  }

  lemma RaceAnswers(t: State)
    requires t == RaceForking(1, 1, GotBoth(0, 1, 3, 3), 1)
    ensures Returns(t, 1) && Answer(t, 1) && PcOf(t, 1).i == 0
    ensures Pos(1, 0) in t.fd && t.fd[Pos(1, 0)] == ReadEnd && Pos(2, 0) in t.fd && t.fd[Pos(2, 0)] == WriteEnd
  {
  }

  /**
   Without the condition the property fails: fork maps descriptor pages below data pages, and a
   reader is told that the pipe is closed while a writer has it open. Environment 0 forks and is
   switched out after the child's first descriptor page; environment 1 then asks.
   */
  lemma ForkCanFakeEndOfFile() returns (s: State, acts: seq<Action>)
    ensures Quiet(s) && EnabledRun(s, acts)
    ensures var t := Run(s, acts);
      && Returns(t, 1) && Answer(t, 1) && PcOf(t, 1).i == 0
      && Pos(1, 0) in t.fd && t.fd[Pos(1, 0)] == ReadEnd && Pos(2, 0) in t.fd && t.fd[Pos(2, 0)] == WriteEnd
  {
    s := RaceStart();
    acts := RaceRuns(s, RaceForking(1, 1, Idle, 1), RaceForking(1, 1, GotBoth(0, 1, 3, 3), 1));
    RaceAnswers(Run(s, acts));
  }
}
