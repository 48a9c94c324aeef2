/**
 End of file on a pipe: PipeRing's bytes and PipeClose's descriptors together. The reader's
 `_pipeisclosed` is answered by the reference counts, and writers write only while they have a descriptor.
 */
module PipeEof {
  import P = PipeRing
  import C = PipeClose

  datatype State = State(pipe: P.State, refs: C.State)

  datatype Action =
    | Bytes(step: P.Action)
    | Pages(call: C.Action)
    | ReaderTold(e: C.EnvId)
    | WriterTold(e: C.EnvId)

  /** A descriptor of this end exists in some environment. */
  predicate HasEnd(s: C.State, x: C.Fd) {
    exists q :: q in s.fd && s.fd[q] == x
  }

  /** `_pipeisclosed` returns to `e`, which asked about the end `x`. */
  ghost predicate Told(s: C.State, e: C.EnvId, x: C.Fd) {
    C.Returns(s, e) && var p := C.Pos(e, C.PcOf(s, e).i); p in s.fd && s.fd[p] == x
  }

  predicate Reads(a: P.Action) {
    a.ReadCall? || a.ReadTest? || a.ReadTake? || a.ReadBump?
  }

  predicate Writes(a: P.Action) {
    a.WriteCall? || a.WriteTest? || a.WriteStore? || a.WriteBump?
  }

  ghost predicate Enabled(s: State, a: Action) {
    match a
    case Bytes(b) => P.Enabled(s.pipe, b) && (Reads(b) || (Writes(b) && HasEnd(s.refs, C.WriteEnd)))
    case Pages(b) => C.Enabled(s.refs, b)
    case ReaderTold(e) => s.pipe.r.RClosed? && Told(s.refs, e, C.ReadEnd)
    case WriterTold(e) => s.pipe.w.WClosed? && Told(s.refs, e, C.WriteEnd)
  }

  /** When the last descriptor of the writers goes, a call of `pipewrite` ends with its environment. */
  ghost function Follow(pipe: P.State, refs: C.State): P.State {
    if HasEnd(refs, C.WriteEnd) then pipe else pipe.(writerGone := true, w := P.WIdle)
  }

  ghost function Next(s: State, a: Action): State
    requires Enabled(s, a)
  {
    match a
    case Bytes(b) => s.(pipe := P.Next(s.pipe, b))
    case Pages(b) => var refs := C.Next(s.refs, b); State(Follow(s.pipe, refs), refs)
    case ReaderTold(e) => s.(pipe := s.pipe.(r := if C.Answer(s.refs, e) then P.RIdle else P.RTest(s.pipe.r.n, [])))
    case WriterTold(e) => s.(pipe := s.pipe.(w := if C.Answer(s.refs, e) then P.WIdle else P.WTest(s.pipe.w.rest)))
  }

  ghost predicate Inv(s: State) {
    P.Inv(s.pipe) && C.Inv(s.refs) && (s.pipe.writerGone <==> !HasEnd(s.refs, C.WriteEnd))
  }

  /** An end of which there is no descriptor never comes back. */
  lemma EndStaysAway(s: C.State, a: C.Action, x: C.Fd)
    requires C.Enabled(s, a) && x != C.OtherFd && !HasEnd(s, x)
    ensures !HasEnd(C.Next(s, a), x)
  {
  }

  lemma PipeSame(s: P.State, t: P.State)
    requires P.Inv(s) && t == s.(r := t.r, w := t.w, writerGone := t.writerGone)
    requires t.w == s.w || t.w.WIdle? || t.w.WTest?
    requires t.r == s.r || t.r.RIdle? || t.r.RTest?
    requires (s.writerGone ==> t.writerGone) && (t.writerGone ==> t.w.WIdle?)
    ensures P.Inv(t)
  {
    forall i: nat ensures P.InRing(t, i) { assert P.InRing(s, i); }
  }

  lemma StepKeeps(s: State, a: Action)
    requires Inv(s) && Enabled(s, a)
    ensures Inv(Next(s, a))
    ensures s.pipe.sent <= Next(s, a).pipe.sent
    ensures s.pipe.writerGone ==> Next(s, a).pipe.writerGone && Next(s, a).pipe.sent == s.pipe.sent
  {
    match a
    case Bytes(b) => P.StepKeeps(s.pipe, b);
    case Pages(b) =>
      C.StepKeeps(s.refs, b);
      if !HasEnd(s.refs, C.WriteEnd) {
        EndStaysAway(s.refs, b, C.WriteEnd);
      }
      PipeSame(s.pipe, Next(s, a).pipe);
    case ReaderTold(e) => PipeSame(s.pipe, Next(s, a).pipe);
    case WriterTold(e) => PipeSame(s.pipe, Next(s, a).pipe);
  }

  ghost predicate EnabledRun(s: State, acts: seq<Action>)
    decreases |acts|
  {
    acts != [] ==> Enabled(s, acts[0]) && EnabledRun(Next(s, acts[0]), acts[1..])
  }

  ghost function Run(s: State, acts: seq<Action>): State
    requires EnabledRun(s, acts)
    decreases |acts|
  {
    if acts == [] then s else Run(Next(s, acts[0]), acts[1..])
  }

  lemma {:induction false} RunKeeps(s: State, acts: seq<Action>)
    requires Inv(s) && EnabledRun(s, acts)
    ensures Inv(Run(s, acts))
    ensures s.pipe.writerGone ==> Run(s, acts).pipe.sent == s.pipe.sent
    decreases |acts|
  {
    if acts != [] {
      StepKeeps(s, acts[0]);
      RunKeeps(Next(s, acts[0]), acts[1..]);
    }
  }

  /** A new pipe, with a descriptor of each end. */
  ghost predicate Start(s: State) {
    s.pipe == P.Start() && C.Quiet(s.refs) && HasEnd(s.refs, C.WriteEnd)
  }

  lemma StartOk(s: State)
    requires Start(s)
    ensures Inv(s)
  {
    C.QuietOk(s.refs);
    forall i: nat ensures P.InRing(s.pipe, i) {}
  }

  /** `piperead` is about to return 0 in `e`. */
  ghost predicate ReturnsEof(s: State, e: C.EnvId) {
    s.pipe.r.RClosed? && Told(s.refs, e, C.ReadEnd) && C.Answer(s.refs, e)
  }

  /**
   What an end-of-file return means, over every run: no descriptor of the writers exists exactly when
   as many descriptor pages lack their pipe page as the other way round, for which it is enough that
   no descriptor page does. All bytes have been read exactly when none was published after the
   emptiness test, for which it is enough that the writers were gone by then.
   */
  lemma EofMeans(s: State, acts: seq<Action>, e: C.EnvId)
    requires Start(s) && EnabledRun(s, acts) && ReturnsEof(Run(s, acts), e)
    ensures var t := Run(s, acts);
      && (!HasEnd(t.refs, C.WriteEnd) <==> |C.FdOnly(t.refs)| == |C.DataOnly(t.refs)|)
      && (C.FdOnly(t.refs) == {} ==> !HasEnd(t.refs, C.WriteEnd))
      && (t.pipe.got == t.pipe.sent <==> t.pipe.wpos == t.pipe.r.seen)
      && (t.pipe.r.wasGone ==> t.pipe.got == t.pipe.sent)
  {
    StartOk(s);
    RunKeeps(s, acts);
    var t := Run(s, acts);
    C.AnswerMeans(t.refs, e);
    C.NoOtherEndCount(t.refs, e);
    assert C.NoOtherEnd(t.refs, e) <==> !HasEnd(t.refs, C.WriteEnd);
  }

  /** When it is right about the descriptors, end of file is final: nothing is ever sent again. */
  lemma EofIsFinal(s: State, acts: seq<Action>, e: C.EnvId, later: seq<Action>)
    requires Start(s) && EnabledRun(s, acts) && ReturnsEof(Run(s, acts), e)
    requires |C.FdOnly(Run(s, acts).refs)| == |C.DataOnly(Run(s, acts).refs)|
    requires EnabledRun(Run(s, acts), later)
    ensures var t := Run(s, acts); Run(t, later).pipe.sent == t.pipe.sent
  {
    EofMeans(s, acts, e);
    StartOk(s);
    RunKeeps(s, acts);
    RunKeeps(Run(s, acts), later);
  }
}
