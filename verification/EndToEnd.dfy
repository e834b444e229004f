/** The pieces together: after a background rewrite succeeds, loading the new file gives the
    dataset the live server has at the switch. */
module EndToEnd {
  import opened Basics
  import opened Decimal
  import opened Resp
  import opened CommandLog
  import opened Dataset
  import S = Snapshot
  import R = Rebuild
  import P = Propagation
  import H = Handshake
  import G = Legible

  /** Loading a MULTI-free log runs exactly its commands. */
  lemma {:induction false} LoadsPlain(log: seq<Command>, kind: Command -> Kind, lt: bool)
    requires Readable(log, kind) && PlainLog(log, kind) && log != []
    ensures Load(EmitLog(log), kind, lt) == Loaded(log, |EmitLog(log)|)
  {
    hide EmitLog, Load, RunAll;
    RunPlain(Idle, log, kind);
    assert Idle.executed + log == log;
    RoundTrip(log, kind, lt);
  }

  /** The snapshot of the databases at the fork, followed by what was written since, replays to
      the databases at the switch. */
  lemma {:induction false} SnapshotThenDiff(tables: seq<seq<S.Row>>, dbs: seq<Db>, limit: nat, es: seq<P.Event>,
                                            lazy: bool, other: Other)
    requires limit > 0 && 0 < |dbs| <= INT_MAX && R.AllIterate(dbs, tables) && R.NoMinusOne(dbs)
    requires P.Runs(P.Master(dbs, None, []), es, lazy, other)
    ensures var m := P.Run(P.Master(dbs, None, []), es, lazy, other);
            Replay(EmptyServer(|dbs|), S.SnapshotLog(tables, 0, limit) + m.written, other).dbs == m.dbs
  {
    hide Replay, R.AllIterate, R.NoMinusOne, P.Run, P.Runs, S.SnapshotLog;
    var snap := S.SnapshotLog(tables, 0, limit);
    var m := P.Run(P.Master(dbs, None, []), es, lazy, other);
    R.SnapshotRebuilds(tables, dbs, limit, other);
    R.SnapshotIsFaithful(tables, dbs, limit, other);
    var base := Replay(EmptyServer(|dbs|), snap, other);
    P.FeedPreservesMeaning(dbs, es, lazy, base, other);
    ReplayConcat(EmptyServer(|dbs|), snap, m.written, other);
  }

  /** What a load ran; a file without commands is not loaded at all. */
  function RanBy(r: LoadResult): seq<Command> { if r.Loaded? then r.executed else [] }

  /** Loading what was written, nothing included. */
  lemma {:induction false} LoadsWritten(log: seq<Command>, kind: Command -> Kind, lt: bool)
    requires G.Fine(log, kind)
    ensures var r := Load(EmitLog(log), kind, lt);
            (r.Empty? || (r.Loaded? && r.size == |EmitLog(log)|)) && RanBy(r) == log
  {
    hide EmitLog, Load, Readable, PlainLog;
    if log == [] { LoadsNothing(kind, lt); } else { LoadsPlain(log, kind, lt); }
  }

  lemma LoadsNothing(kind: Command -> Kind, lt: bool)
    ensures Load(EmitLog([]), kind, lt) == Empty
  {}

  /** The bytes in the pipe and the buffers are the printed commands, and the file they end in
      loads to the live dataset, for every way the two processes interleave. */
  lemma {:induction false} RewriteKeepsDataset(s: H.System, hs: seq<H.Event>, done: H.Event, tables: seq<seq<S.Row>>,
                                               dbs: seq<Db>, limit: nat, es: seq<P.Event>, lazy: bool, other: Other,
                                               kind: Command -> Kind, lt: bool)
    requires H.Inv(s) && !s.p.rewriting && H.Runs(s, hs) && H.Left(s, hs, 0) == 0 && H.Switches(H.Run(s, hs), done)
    requires 0 < limit && 2 + 2 * limit <= INT_MAX && 0 < |dbs| <= INT_MAX
    requires R.AllIterate(dbs, tables) && R.NoMinusOne(dbs) && G.TablesFit(tables)
    requires P.Runs(P.Master(dbs, None, []), es, lazy, other) && G.Known(kind) && G.EventsOk(es, kind)
    requires var t := H.Run(s, hs);
             t.snapshot == EmitLog(S.SnapshotLog(tables, 0, limit)) &&
             t.fed == EmitLog(P.Run(P.Master(dbs, None, []), es, lazy, other).written)
    ensures var file := H.Step(H.Run(s, hs), done).p.file;
            var m := P.Run(P.Master(dbs, None, []), es, lazy, other);
            var loaded := Load(file, kind, lt);
            && (loaded.Empty? || (loaded.Loaded? && loaded.size == |file|))
            && Replay(EmptyServer(|dbs|), RanBy(loaded), other).dbs == m.dbs
  {
    hide Replay, R.AllIterate, R.NoMinusOne, P.Run, P.Runs, S.SnapshotLog, H.Inv, H.Run, H.Runs, H.Left, H.Step,
         EmitLog, Load, G.Fine, G.TablesFit, G.Known, G.EventsOk, RanBy;
    var m := P.Run(P.Master(dbs, None, []), es, lazy, other);
    var snap := S.SnapshotLog(tables, 0, limit);
    H.SwitchExactly(s, hs, done);
    EmitConcat(snap, m.written);
    TableCount(tables, dbs);
    G.SnapshotIsFine(tables, 0, limit, kind);
    G.FineNone(kind);
    G.RunIsFine(P.Master(dbs, None, []), es, lazy, other, kind);
    G.FineConcat(snap, m.written, kind);
    LoadsWritten(snap + m.written, kind, lt);
    SnapshotThenDiff(tables, dbs, limit, es, lazy, other);
  }

  lemma TableCount(tables: seq<seq<S.Row>>, dbs: seq<Db>)
    requires R.AllIterate(dbs, tables)
    ensures |tables| == |dbs|
  {}
}
