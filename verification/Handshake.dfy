/** The background rewrite of aof.c as a protocol between two processes.

    The child writes a snapshot of the dataset it was forked with while the parent keeps
    serving; what the parent feeds meanwhile goes through the rewrite buffer and a pipe to the
    child, until the child asks it to stop.  What is then left in the buffer is appended by the
    parent before the new file takes over.  Reads, writes and the order of steps are arbitrary. */
module Handshake {
  import opened Decimal

  datatype AofState = On | WaitRewrite

  /** The parent: the append only file, the bytes not yet in it, and the rewrite buffer. */
  datatype Parent = Parent(aof: AofState, file: Bytes, buf: Bytes, rewriting: bool, blocks: Bytes, stop: bool)

  datatype Phase = Writing | Asked | Answered | Finished(ok: bool)

  /** `data`, `ask` and `ack` are the three pipes; `tmp` is the child's file and `diff` what it
      received; `fed` are the bytes fed since the fork, `before` what was fed earlier. */
  datatype System = System(p: Parent, data: Bytes, ask: bool, ack: bool, phase: Phase, snapshot: Bytes, tmp: Bytes,
                           diff: Bytes, fed: Bytes, before: Bytes)

  datatype Event =
    | Fork(snapshot: Bytes)
    | Feed(bytes: Bytes)
    | Flush(n: nat)
    | SendDiff(n: nat)
    | HearStop(delivered: bool)
    | WriteSnapshot(n: nat)
    | ReadDiff(n: nat)
    | AskStop
    | GetAck
    | Finish(n: nat)
    | Fail
    | Done(found: bool, written: nat, renamed: bool)
    | Kill

  // ---------------------------------------------------------------- the parent's handlers

  function ParentFork(p: Parent): Parent { p.(rewriting := true, stop := false) }

  function ParentFeed(p: Parent, s: Bytes): Parent {
    p.(buf := if p.aof.On? then p.buf + s else p.buf, blocks := if p.rewriting then p.blocks + s else p.blocks)
  }

  function ParentFlush(p: Parent, n: nat): Parent
    requires n <= |p.buf|
  {
    p.(file := p.file + p.buf[..n], buf := p.buf[n..])
  }

  function ParentSend(p: Parent, n: nat): Parent
    requires n <= |p.blocks|
  {
    p.(blocks := p.blocks[n..])
  }

  function ParentHear(p: Parent): Parent { p.(stop := true) }

  /** backgroundRewriteDoneHandler succeeds when everything went well up to the rename. */
  predicate Succeeds(p: Parent, ok: bool, found: bool, written: nat, renamed: bool) {
    ok && found && written == |p.blocks| && renamed
  }

  function ParentDone(p: Parent, tmp: Bytes, success: bool): Parent {
    if success then Parent(On, tmp + p.blocks, [], false, [], p.stop)
    else p.(rewriting := false, blocks := [])
  }

  // ---------------------------------------------------------------- steps

  predicate Enabled(s: System, e: Event) {
    match e
    case Fork(_) => !s.p.rewriting
    case Feed(_) => true
    case Flush(n) => n <= |s.p.buf|
    case SendDiff(n) => s.p.rewriting && n <= |s.p.blocks| && (s.p.stop ==> n == 0)
    case HearStop(_) => s.p.rewriting && s.ask
    case WriteSnapshot(n) => s.p.rewriting && s.phase == Writing && |s.tmp| <= n <= |s.snapshot|
    case ReadDiff(n) => s.p.rewriting && s.phase == Writing && n <= |s.data|
    case AskStop => s.p.rewriting && s.phase == Writing && s.tmp == s.snapshot
    case GetAck => s.p.rewriting && s.phase == Asked && s.ack
    case Finish(n) => s.p.rewriting && s.phase == Answered && n <= |s.data|
    case Fail => s.p.rewriting && !s.phase.Finished?
    case Done(_, n, _) => s.p.rewriting && s.phase.Finished? && n <= |s.p.blocks|
    case Kill => s.p.rewriting
  }

  function Step(s: System, e: Event): System
    requires Enabled(s, e)
  {
    match e
    case Fork(snapshot) =>
      System(ParentFork(s.p), [], false, false, Writing, snapshot, [], [], [], s.p.file + s.p.buf)
    case Feed(x) => s.(p := ParentFeed(s.p, x), fed := s.fed + x)
    case Flush(n) => s.(p := ParentFlush(s.p, n))
    case SendDiff(n) => s.(p := ParentSend(s.p, n), data := s.data + s.p.blocks[..n])
    case HearStop(delivered) => s.(p := ParentHear(s.p), ask := false, ack := delivered)
    case WriteSnapshot(n) => s.(tmp := s.snapshot[..n])
    case ReadDiff(n) => s.(diff := s.diff + s.data[..n], data := s.data[n..])
    case AskStop => s.(phase := Asked, ask := true)
    case GetAck => s.(phase := Answered, ack := false)
    case Finish(n) =>
      s.(diff := s.diff + s.data[..n], data := s.data[n..],
         tmp := s.tmp + (s.diff + s.data[..n]), phase := Finished(true))
    case Fail => s.(phase := Finished(false))
    case Done(found, n, renamed) => s.(p := ParentDone(s.p, s.tmp, Succeeds(s.p, s.phase.ok, found, n, renamed)))
    case Kill => s.(p := ParentDone(s.p, s.tmp, false))
  }

  // ---------------------------------------------------------------- invariants

  /** Nothing fed since the fork is lost, duplicated or reordered on its way. */
  predicate Conserved(s: System) {
    if s.p.rewriting then s.diff + s.data + s.p.blocks == s.fed else s.p.blocks == []
  }

  /** Once the child has its answer, the parent sends no more. */
  predicate Silent(s: System) {
    s.p.rewriting && (s.ack || s.phase == Answered || s.phase == Finished(true)) ==> s.p.stop
  }

  predicate Output(s: System) {
    s.p.rewriting ==>
      match s.phase
      case Writing => s.tmp <= s.snapshot
      case Asked => s.tmp == s.snapshot
      case Answered => s.tmp == s.snapshot
      case Finished(ok) => ok ==> s.tmp == s.snapshot + s.diff
  }

  /** With the file in use, what is in it and pending is everything fed. */
  predicate Kept(s: System) {
    s.p.rewriting && s.p.aof.On? ==> s.p.file + s.p.buf == s.before + s.fed
  }

  predicate Inv(s: System) { Conserved(s) && Silent(s) && Output(s) && Kept(s) }

  lemma {:induction false} Split(a: Bytes, b: Bytes, n: nat, c: Bytes)
    requires n <= |b|
    ensures a + b[..n] + b[n..] == a + b
    ensures a + b[..n] + b[n..] + c == a + b + c
    ensures a + (b[..n] + (b[n..] + c)) == a + (b + c)
  {
    assert b == b[..n] + b[n..];
  }

  lemma {:induction false} StepConserves(s: System, e: Event)
    requires Conserved(s) && Enabled(s, e)
    ensures Conserved(Step(s, e))
  {
    match e
    case Feed(x) => assert s.diff + s.data + (s.p.blocks + x) == s.diff + s.data + s.p.blocks + x;
    case SendDiff(n) =>
      var moved, left := s.p.blocks[..n], s.p.blocks[n..];
      assert s.p.blocks == moved + left;
      assert s.diff + (s.data + moved) + left == s.diff + s.data + (moved + left);
    case ReadDiff(n) => Split(s.diff, s.data, n, s.p.blocks);
    case Finish(n) => Split(s.diff, s.data, n, s.p.blocks);
    case _ =>
  }

  lemma {:induction false} StepKeepsSilent(s: System, e: Event)
    requires Silent(s) && Enabled(s, e)
    ensures Silent(Step(s, e))
  {}

  lemma {:induction false} StepKeepsOutput(s: System, e: Event)
    requires Output(s) && Enabled(s, e)
    ensures Output(Step(s, e))
  {}

  lemma {:induction false} StepKeepsKept(s: System, e: Event)
    requires Kept(s) && Enabled(s, e)
    ensures Kept(Step(s, e))
  {
    match e
    case Feed(x) =>
      assert s.p.file + (s.p.buf + x) == s.p.file + s.p.buf + x;
      assert s.before + (s.fed + x) == s.before + s.fed + x;
    case Flush(n) => Split(s.p.file, s.p.buf, n, []);
    case _ =>
  }

  lemma {:induction false} StepKeepsInv(s: System, e: Event)
    requires Inv(s) && Enabled(s, e)
    ensures Inv(Step(s, e))
  {
    hide Conserved, Silent, Output, Kept, Step;
    StepConserves(s, e);
    StepKeepsSilent(s, e);
    StepKeepsOutput(s, e);
    StepKeepsKept(s, e);
  }

  predicate Runs(s: System, es: seq<Event>)
    decreases |es|
  {
    es == [] || (Enabled(s, es[0]) && Runs(Step(s, es[0]), es[1..]))
  }

  function Run(s: System, es: seq<Event>): System
    requires Runs(s, es)
    decreases |es|
  {
    if es == [] then s else Run(Step(s, es[0]), es[1..])
  }

  /** At every point of every run the bytes on their way add up to the bytes fed. */
  lemma {:induction false} RunKeepsInv(s: System, es: seq<Event>)
    requires Inv(s) && Runs(s, es)
    ensures Inv(Run(s, es))
    decreases |es|
  {
    hide Inv, Step, Enabled;
    if es != [] {
      StepKeepsInv(s, es[0]);
      RunKeepsInv(Step(s, es[0]), es[1..]);
    }
  }

  // ---------------------------------------------------------------- the switch

  predicate Switches(s: System, e: Event) {
    Enabled(s, e) && e.Done? && Succeeds(s.p, s.phase.ok, e.found, e.written, e.renamed)
  }

  /** The new file is the snapshot and exactly the bytes fed since, if and only if the pipe is empty. */
  lemma {:induction false} SwitchState(s: System, e: Event)
    requires Inv(s) && Switches(s, e)
    ensures Step(s, e).p.file == s.snapshot + s.fed <==> s.data == []
    ensures Step(s, e).p.buf == [] && Step(s, e).p.aof.On? && !Step(s, e).p.rewriting
  {
    var written := s.snapshot + s.diff + s.p.blocks;
    assert Step(s, e).p.file == written;
    if s.data == [] {
      assert s.diff + s.data == s.diff;
      assert written == s.snapshot + (s.diff + s.p.blocks);
    } else {
      assert |written| < |s.snapshot + s.fed|;
    }
  }

  /** How many bytes the last read of a child left in the pipe; `before` if there was none. */
  function Left(s: System, es: seq<Event>, before: nat): nat
    requires Runs(s, es)
    decreases |es|
  {
    if es == [] then before else Left(Step(s, es[0]), es[1..], LeftBy(s, es[0], before))
  }

  function LeftBy(s: System, e: Event, before: nat): nat
    requires Enabled(s, e)
  {
    if e.Finish? then |s.data| - e.n else before
  }

  /** Nothing is added to what it left. */
  predicate LeftIs(s: System, n: nat) { s.p.rewriting && s.phase == Finished(true) ==> |s.data| == n }

  lemma {:induction false} StepKeepsLeft(s: System, e: Event, before: nat)
    requires Silent(s) && LeftIs(s, before) && Enabled(s, e)
    ensures LeftIs(Step(s, e), LeftBy(s, e, before))
  {}

  lemma {:induction false} RunKeepsLeft(s: System, es: seq<Event>, before: nat)
    requires Inv(s) && LeftIs(s, before) && Runs(s, es)
    ensures Inv(Run(s, es)) && LeftIs(Run(s, es), Left(s, es, before))
    decreases |es|
  {
    hide Conserved, Silent, Output, Kept, Step, Enabled, LeftIs, LeftBy;
    if es != [] {
      StepKeepsInv(s, es[0]);
      StepKeepsLeft(s, es[0], before);
      RunKeepsLeft(Step(s, es[0]), es[1..], LeftBy(s, es[0], before));
    }
  }

  /** After every run, the file that takes over is the snapshot and exactly the bytes fed since the fork
      if and only if the last read of the child left nothing in the pipe. */
  lemma {:induction false} SwitchExactly(s: System, es: seq<Event>, e: Event)
    requires Inv(s) && !s.p.rewriting && Runs(s, es) && Switches(Run(s, es), e)
    ensures var t := Run(s, es); Step(t, e).p.file == t.snapshot + t.fed <==> Left(s, es, 0) == 0
  {
    hide Inv, Run, Runs, Left, Step;
    RunKeepsLeft(s, es, 0);
    SwitchState(Run(s, es), e);
  }

  /** The pending bytes dropped at the switch are a suffix of everything fed: those fed since the
      fork are in the new file, and the earlier ones are part of the snapshot. */
  lemma {:induction false} DroppedIsCovered(s: System)
    requires Inv(s) && s.p.rewriting && s.p.aof.On?
    ensures if |s.p.file| <= |s.before| then s.p.buf == s.before[|s.p.file|..] + s.fed
            else |s.p.file| - |s.before| <= |s.fed| && s.p.buf == s.fed[|s.p.file| - |s.before|..]
  {
    var all := s.before + s.fed;
    assert all == s.p.file + s.p.buf;
    assert s.p.buf == all[|s.p.file|..];
    assert |all| == |s.p.file| + |s.p.buf|;
  }

  /** Every other end of a rewrite leaves the file and the pending bytes as they were. */
  lemma {:induction false} FailureKeepsEverything(s: System, e: Event)
    requires Inv(s) && Enabled(s, e) && (e.Kill? || (e.Done? && !Switches(s, e)))
    ensures var t := Step(s, e);
            t.p.file == s.p.file && t.p.buf == s.p.buf && t.p.aof == s.p.aof && !t.p.rewriting && t.p.blocks == [] &&
            (s.p.aof.On? ==> t.p.file + t.p.buf == s.before + s.fed)
  {}

  // ---------------------------------------------------------------- what each end does, in full

  /** Bytes fed go to the buffer of the file if it is in use, to the rewrite buffer if a rewrite runs, and
      nowhere else. */
  lemma FeedReaches(s: System, x: Bytes)
    ensures var t := Step(s, Feed(x));
            && t.p.buf == (if s.p.aof == On then s.p.buf + x else s.p.buf)
            && t.p.blocks == (if s.p.rewriting then s.p.blocks + x else s.p.blocks)
            && t.fed == s.fed + x
            && t == s.(p := s.p.(buf := t.p.buf, blocks := t.p.blocks), fed := t.fed)
  {}

  /** The end of the child: the rewritten file takes over exactly when the child ended well, its file was
      found, all buffered bytes were appended and it was renamed; whatever happens the rewrite is over. */
  lemma DoneExactly(s: System, e: Event)
    requires Enabled(s, e) && e.Done?
    ensures var t := Step(s, e);
            && !t.p.rewriting && t.p.blocks == []
            && if s.phase == Finished(true) && e.found && e.written == |s.p.blocks| && e.renamed then
                 t.p.file == s.tmp + s.p.blocks && t.p.buf == [] && t.p.aof == On
               else t.p.file == s.p.file && t.p.buf == s.p.buf && t.p.aof == s.p.aof
  {}

  /** Flushing moves bytes from the front of the buffer to the end of the file, and a child that fails is
      known to have failed. */
  lemma FlushAndFail(s: System, n: nat)
    ensures n <= |s.p.buf| ==>
              Step(s, Flush(n)) == s.(p := s.p.(file := s.p.file + s.p.buf[..n], buf := s.p.buf[n..]))
    ensures Enabled(s, Fail) ==> Step(s, Fail) == s.(phase := Finished(false))
  {}

  /** A rewrite starts with empty pipes, nothing received and sending allowed. */
  lemma ForkStarts(s: System, snapshot: Bytes)
    requires Enabled(s, Fork(snapshot))
    ensures var t := Step(s, Fork(snapshot));
            && t.p == s.p.(rewriting := true, stop := false) && t.phase == Writing && t.snapshot == snapshot
            && t.data == t.tmp == t.diff == t.fed == [] && !t.ask && !t.ack && t.before == s.p.file + s.p.buf
  {}

  /** The child asks to stop only with its snapshot written, and goes on only with the parent's answer; the
      parent answers only when asked, once, and sends nothing from then on. */
  lemma HandshakeOrder(s: System, e: Event)
    requires Enabled(s, e)
    ensures !s.ask && Step(s, e).ask ==> e.AskStop? && s.phase == Writing && s.tmp == s.snapshot
    ensures s.phase != Answered && Step(s, e).phase == Answered ==> s.phase == Asked && s.ack && e.GetAck?
    ensures !s.ack && Step(s, e).ack ==> s.ask && e == HearStop(true) && Step(s, e).p.stop
    ensures Step(s, e).phase == Finished(true) && s.phase != Finished(true) ==> s.phase == Answered && e.Finish?
    ensures s.p.stop && !e.Fork? ==> |Step(s, e).data| <= |s.data|
    ensures e.HearStop? ==> !Step(s, e).ask && Step(s, e).ack == e.delivered
    ensures e.GetAck? ==> !Step(s, e).ack && Step(s, e).ask == s.ask
  {}

  // ---------------------------------------------------------------- a rewrite can complete

  lemma {:induction false} Prepend(s: System, e: Event, es: seq<Event>, before: nat)
    requires Enabled(s, e) && Runs(Step(s, e), es)
    ensures Runs(s, [e] + es) && Run(s, [e] + es) == Run(Step(s, e), es)
    ensures Left(s, [e] + es, before) == Left(Step(s, e), es, LeftBy(s, e, before))
  {
    hide Step, Enabled, LeftBy;
    var all := [e] + es;
    assert all[0] == e && all[1..] == es;
  }

  lemma Stay(s: System, before: nat)
    ensures Runs(s, []) && Run(s, []) == s && Left(s, [], before) == before
  {}

  /** A child with its snapshot written can finish, with a last read of `n` bytes. */
  lemma {:induction false} ChildFinishes(s: System, n: nat) returns (es: seq<Event>)
    requires s.p.rewriting && s.phase == Writing && s.tmp == s.snapshot && n <= |s.data|
    ensures Runs(s, es) && Left(s, es, 0) == |s.data| - n
    ensures var t := Run(s, es);
            && t.phase == Finished(true) && t.snapshot == s.snapshot && t.fed == s.fed && t.p == s.p.(stop := true)
            && t.tmp == s.snapshot + (s.diff + s.data[..n])
  {
    hide Runs, Run, Left;
    var s1 := Step(s, AskStop);
    var s2 := Step(s1, HearStop(true));
    var s3 := Step(s2, GetAck);
    var s4 := Step(s3, Finish(n));
    Stay(s4, |s.data| - n);
    Prepend(s3, Finish(n), [], 0);
    es := [Finish(n)] + [];
    Prepend(s2, GetAck, es, 0);
    es := [GetAck] + es;
    Prepend(s1, HearStop(true), es, 0);
    es := [HearStop(true)] + es;
    Prepend(s, AskStop, es, 0);
    es := [AskStop] + es;
  }

  /** A rewrite in which the child is sent `sent` bytes of those fed and reads `n` of them. */
  lemma {:induction false} RewriteRuns(s: System, snapshot: Bytes, fed: Bytes, sent: nat, n: nat)
      returns (es: seq<Event>, done: Event)
    requires Conserved(s) && !s.p.rewriting && n <= sent <= |fed|
    ensures Runs(s, es) && Left(s, es, 0) == sent - n && Switches(Run(s, es), done)
    ensures var t := Run(s, es);
            t.snapshot == snapshot && t.fed == fed && Step(t, done).p.file == snapshot + fed[..n] + fed[sent..]
  {
    hide Runs, Run, Left;
    var s1 := Step(s, Fork(snapshot));
    var s2 := Step(s1, Feed(fed));
    assert s2.p.blocks == fed;
    var s3 := Step(s2, SendDiff(sent));
    assert s3.data == fed[..sent];
    var s4 := Step(s3, WriteSnapshot(|snapshot|));
    assert s4.tmp == snapshot;
    es := ChildFinishes(s4, n);
    done := Done(true, |fed| - sent, true);
    assert [] + fed[..sent][..n] == fed[..n];
    Prepend(s3, WriteSnapshot(|snapshot|), es, 0);
    es := [WriteSnapshot(|snapshot|)] + es;
    Prepend(s2, SendDiff(sent), es, 0);
    es := [SendDiff(sent)] + es;
    Prepend(s1, Feed(fed), es, 0);
    es := [Feed(fed)] + es;
    Prepend(s, Fork(snapshot), es, 0);
    es := [Fork(snapshot)] + es;
  }

  /** From any idle state, for any snapshot and any bytes fed, some run completes the rewrite. */
  lemma {:induction false} RewriteCompletes(s: System, snapshot: Bytes, fed: Bytes)
      returns (es: seq<Event>, done: Event)
    requires Conserved(s) && !s.p.rewriting
    ensures Runs(s, es) && Left(s, es, 0) == 0 && Switches(Run(s, es), done)
    ensures Run(s, es).snapshot == snapshot && Run(s, es).fed == fed
  {
    hide Runs, Run, Left;
    es, done := RewriteRuns(s, snapshot, fed, |fed|, |fed|);
  }

  /** From any idle state, some run ends with a switch that loses a byte: one was fed and sent, and the
      last read of the child gave up before it. */
  lemma {:induction false} SwitchCanLose(s: System, snapshot: Bytes, b: Byte) returns (es: seq<Event>, done: Event)
    requires Conserved(s) && !s.p.rewriting
    ensures Runs(s, es) && Switches(Run(s, es), done)
    ensures var t := Run(s, es);
            t.snapshot == snapshot && t.fed == [b] && Step(t, done).p.file == snapshot
  {
    hide Runs, Run, Left;
    es, done := RewriteRuns(s, snapshot, [b], 1, 0);
    assert snapshot + [b][..0] + [b][1..] == snapshot;
  }
}
