/**
 The data of a pipe (`piperead` and `pipewrite` of lib/pipe.c): one reader and one writer
 share a ring of 32 bytes and two positions, interleaved at single loads and stores.
 */
module PipeRing {

  const PIPEBUFSIZ: nat := 32

  /** The reader, with the bytes this call has taken so far. */
  datatype Reader =
    | RIdle
    | RTest(n: nat, taken: seq<int>)
    | RTake(n: nat, taken: seq<int>)
    | RBump(n: nat, taken: seq<int>, b: int)
    | RClosed(n: nat, seen: nat, wasGone: bool)

  /** The writer, with the bytes of this call that are still to be sent. */
  datatype Writer =
    | WIdle
    | WTest(rest: seq<int>)
    | WStore(rest: seq<int>)
    | WBump(rest: seq<int>)
    | WClosed(rest: seq<int>)

  /**
   `sent` and `got` are the whole history: every byte the writer has published, and every
   byte the reader has taken. `writerGone` and `readerGone` are what `_pipeisclosed` reports.
   */
  datatype State = State(rpos: nat, wpos: nat, buf: seq<int>, r: Reader, w: Writer,
                         sent: seq<int>, got: seq<int>, writerGone: bool, readerGone: bool)

  datatype Action =
    | ReadCall(n: nat)
    | ReadTest
    | ReadTake
    | ReadBump
    | ReadClosed
    | WriteCall(data: seq<int>)
    | WriteTest
    | WriteStore
    | WriteBump
    | WriteClosed
    | CloseWriter
    | CloseReader

  predicate Enabled(s: State, a: Action) {
    |s.buf| == PIPEBUFSIZ &&
    match a
    case ReadCall(n) => s.r.RIdle? && !s.readerGone
    case ReadTest => s.r.RTest?
    case ReadTake => s.r.RTake?
    case ReadBump => s.r.RBump?
    case ReadClosed => s.r.RClosed?
    case WriteCall(data) => s.w.WIdle? && !s.writerGone
    case WriteTest => s.w.WTest?
    case WriteStore => s.w.WStore? && s.w.rest != []
    case WriteBump => s.w.WBump? && s.w.rest != []
    case WriteClosed => s.w.WClosed?
    case CloseWriter => s.w.WIdle?
    case CloseReader => s.r.RIdle?
  }

  function Next(s: State, a: Action): State
    requires Enabled(s, a)
  {
    match a
    case ReadCall(n) => s.(r := RTest(n, []))
    case ReadTest =>
      var n, taken := s.r.n, s.r.taken;
      if |taken| == n then s.(r := RIdle)
      else if s.rpos == s.wpos then
        if |taken| > 0 then s.(r := RIdle) else s.(r := RClosed(n, s.wpos, s.writerGone))
      else s.(r := RTake(n, taken))
    case ReadTake => s.(r := RBump(s.r.n, s.r.taken, s.buf[s.rpos % PIPEBUFSIZ]))
    case ReadBump =>
      s.(rpos := s.rpos + 1, got := s.got + [s.r.b], r := RTest(s.r.n, s.r.taken + [s.r.b]))
    case ReadClosed => if s.writerGone then s.(r := RIdle) else s.(r := RTest(s.r.n, []))
    case WriteCall(data) => s.(w := WTest(data))
    case WriteTest =>
      if s.w.rest == [] then s.(w := WIdle)
      else if s.wpos >= s.rpos + PIPEBUFSIZ then s.(w := WClosed(s.w.rest))
      else s.(w := WStore(s.w.rest))
    case WriteStore => s.(buf := s.buf[s.wpos % PIPEBUFSIZ := s.w.rest[0]], w := WBump(s.w.rest))
    case WriteBump =>
      s.(wpos := s.wpos + 1, sent := s.sent + [s.w.rest[0]], w := WTest(s.w.rest[1..]))
    case WriteClosed => if s.readerGone then s.(w := WIdle) else s.(w := WTest(s.w.rest))
    case CloseWriter => s.(writerGone := true)
    case CloseReader => s.(readerGone := true)
  }

  function Start(): State {
    State(0, 0, seq(PIPEBUFSIZ, _ => 0), RIdle, WIdle, [], [], false, false)
  }

  /** Position `i` of the stream is in its place in the ring. */
  ghost predicate InRing(s: State, i: nat) {
    s.rpos <= i < s.wpos && |s.sent| == s.wpos && |s.buf| == PIPEBUFSIZ ==> s.buf[i % PIPEBUFSIZ] == s.sent[i]
  }

  ghost predicate Inv(s: State) {
    && |s.buf| == PIPEBUFSIZ && |s.sent| == s.wpos && |s.got| == s.rpos
    && s.rpos <= s.wpos <= s.rpos + PIPEBUFSIZ
    && s.got == s.sent[..s.rpos]
    && (forall i: nat :: InRing(s, i))
    && (s.r.RTake? || s.r.RBump? ==> s.rpos < s.wpos)
    && (s.r.RBump? ==> s.r.b == s.sent[s.rpos])
    && (s.r.RClosed? ==> s.r.seen == s.rpos && (s.r.wasGone ==> s.writerGone && s.wpos == s.r.seen))
    && (s.w.WStore? || s.w.WBump? ==> s.wpos < s.rpos + PIPEBUFSIZ && s.w.rest != [])
    && (s.w.WBump? ==> s.buf[s.wpos % PIPEBUFSIZ] == s.w.rest[0])
    && (s.writerGone ==> s.w.WIdle?)
  }

  lemma ReadKeeps(s: State, a: Action)
    requires
      && Inv(s) && Enabled(s, a)
      && (a.ReadCall? || a.ReadTest? || a.ReadTake? || a.ReadBump? || a.ReadClosed? || a.CloseReader?)
    ensures Inv(Next(s, a))
  {
    var t := Next(s, a);
    if a.ReadTake? {
      assert InRing(s, s.rpos);
    }
    forall i: nat ensures InRing(t, i) { assert InRing(s, i); }
  }

  /** Two positions less than 32 apart have different places in the ring. */
  lemma ApartInRing(i: nat, j: nat)
    requires i < j < i + PIPEBUFSIZ
    ensures i % PIPEBUFSIZ != j % PIPEBUFSIZ
  {
  }

  lemma WriteKeeps(s: State, a: Action)
    requires
      && Inv(s) && Enabled(s, a)
      && !(a.ReadCall? || a.ReadTest? || a.ReadTake? || a.ReadBump? || a.ReadClosed? || a.CloseReader?)
    ensures Inv(Next(s, a))
  {
    var t := Next(s, a);
    forall i: nat ensures InRing(t, i) {
      assert InRing(s, i);
      if a.WriteStore? && s.rpos <= i < s.wpos {
        ApartInRing(i, s.wpos);
      }
    }
  }

  lemma StepKeeps(s: State, a: Action)
    requires Inv(s) && Enabled(s, a)
    ensures Inv(Next(s, a))
  {
    if a.ReadCall? || a.ReadTest? || a.ReadTake? || a.ReadBump? || a.ReadClosed? || a.CloseReader? {
      ReadKeeps(s, a);
    } else {
      WriteKeeps(s, a);
    }
  }

  predicate EnabledRun(s: State, acts: seq<Action>)
    decreases |acts|
  {
    acts != [] ==> Enabled(s, acts[0]) && EnabledRun(Next(s, acts[0]), acts[1..])
  }

  function Run(s: State, acts: seq<Action>): State
    requires EnabledRun(s, acts)
    decreases |acts|
  {
    if acts == [] then s else Run(Next(s, acts[0]), acts[1..])
  }

  lemma {:induction false} RunKeeps(s: State, acts: seq<Action>)
    requires Inv(s) && EnabledRun(s, acts)
    ensures Inv(Run(s, acts))
    decreases |acts|
  {
    if acts != [] {
      StepKeeps(s, acts[0]);
      RunKeeps(Next(s, acts[0]), acts[1..]);
    }
  }

  /** In every run the ring is never over- or underrun and the reader has taken a prefix of what was sent, in order. */
  lemma PipeIsFifo(acts: seq<Action>)
    requires EnabledRun(Start(), acts)
    ensures var t := Run(Start(), acts);
      0 <= t.wpos - t.rpos <= PIPEBUFSIZ && t.got <= t.sent && |t.got| == t.rpos && |t.sent| == t.wpos
  {
    assert forall i: nat :: InRing(Start(), i);
    RunKeeps(Start(), acts);
  }

  // ---------- End of file ----------

  /** `piperead` is about to return 0 because the writers are gone. */
  predicate ReturnsEof(s: State) {
    s.r.RClosed? && s.writerGone
  }

  /**
   An end-of-file return has read everything exactly when no byte was published since the emptiness
   test; a writer gone before the test is enough.
   */
  lemma EofIsCompleteExactly(acts: seq<Action>)
    requires EnabledRun(Start(), acts) && ReturnsEof(Run(Start(), acts))
    ensures var t := Run(Start(), acts);
      && (t.got == t.sent <==> t.wpos == t.r.seen)
      && (t.r.wasGone ==> t.got == t.sent)
  {
    assert forall i: nat :: InRing(Start(), i);
    RunKeeps(Start(), acts);
  }

  /** The reader of an empty pipe between its two tests. */
  function BetweenTests(): State {
    Start().(r := RClosed(1, 0, false))
  }

  function SendAndClose(): seq<Action> {
    [WriteCall([7])] + ([WriteTest] + ([WriteStore] + ([WriteBump] + ([WriteTest] + ([CloseWriter] + [])))))
  }

  lemma RunCons(s: State, a: Action, rest: seq<Action>)
    requires Enabled(s, a) && EnabledRun(Next(s, a), rest)
    ensures EnabledRun(s, [a] + rest) && Run(s, [a] + rest) == Run(Next(s, a), rest)
  {
    assert ([a] + rest)[1..] == rest;
  }

  lemma SendAndCloseRuns()
    ensures EnabledRun(BetweenTests(), SendAndClose())
    ensures var t := Run(BetweenTests(), SendAndClose()); ReturnsEof(t) && t.got == [] && t.sent == [7]
  {
    var s2 := BetweenTests();
    var s5 := s2.(buf := s2.buf[0 := 7], w := WBump([7]));
    var s6 := s5.(wpos := 1, sent := [7], w := WTest([]));
    assert [7][1..] == [] && s5.sent + [7] == [7];
    RunCons(s6.(w := WIdle), CloseWriter, []);
    RunCons(s6, WriteTest, [CloseWriter] + []);
    RunCons(s5, WriteBump, [WriteTest] + ([CloseWriter] + []));
    RunCons(s2.(w := WStore([7])), WriteStore, [WriteBump] + ([WriteTest] + ([CloseWriter] + [])));
    RunCons(s2.(w := WTest([7])), WriteTest, [WriteStore] + ([WriteBump] + ([WriteTest] + ([CloseWriter] + []))));
    RunCons(s2, WriteCall([7]), [WriteTest] + ([WriteStore] + ([WriteBump] + ([WriteTest] + ([CloseWriter] + [])))));
  }

  /** A byte sent between the reader's emptiness test and its closed test is reported as end of file. */
  lemma EofCanHideAByte()
    ensures EnabledRun(Start(), [ReadCall(1)] + ([ReadTest] + SendAndClose()))
    ensures var t := Run(Start(), [ReadCall(1)] + ([ReadTest] + SendAndClose()));
      ReturnsEof(t) && t.got == [] && t.sent == [7]
  {
    SendAndCloseRuns();
    RunCons(Start().(r := RTest(1, [])), ReadTest, SendAndClose());
    RunCons(Start(), ReadCall(1), [ReadTest] + SendAndClose());
  }
}
