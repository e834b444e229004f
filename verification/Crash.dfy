/** What a server recovers from a log that a crash cut at any byte: for every run, when it is a state
    the live server had. */
module Crash {
  import opened Basics
  import opened Decimal
  import opened Resp
  import opened CommandLog
  import opened Dataset
  import L = Live
  import F = Feed
  import P = Propagation
  import T = TornCommand
  import G = Legible

  // ---------------------------------------------------------------- one event

  /** What an event writes. */
  function Piece(m: P.Master, e: P.Event, lazy: bool, other: Other): Option<seq<Command>>
    requires P.Enabled(m, e)
  {
    match e
    case Call(id, argv, now) => P.FeedAll(m.sel, id, L.Execute(m.dbs[id], argv, now, lazy, other).fed, now)
    case Expire(id, key, now) => P.FeedAll(m.sel, id, L.Reap(m.dbs[id], key, now, lazy).fed, now)
    case Forget => Some([])
  }

  lemma {:induction false} StepWrites(m: P.Master, e: P.Event, lazy: bool, other: Other)
    requires P.Enabled(m, e)
    ensures var piece := Piece(m, e, lazy, other);
            P.Step(m, e, lazy, other).written == m.written + if piece.Some? then piece.value else []
  {
    hide L.Execute, L.Reap, P.FeedAll;
    if e.Forget? { assert m.written + [] == m.written; }
  }

  /** How many of its commands select the database. */
  function Selects(m: P.Master, e: P.Event): nat { if e.Forget? then 0 else |P.Selecting(m.sel, e.id)| }

  /** All of the commands of a call but the PEXPIREAT of its pair. */
  predicate Torn(m: P.Master, e: P.Event, p: nat, lazy: bool, other: Other)
    requires P.Enabled(m, e)
  {
    && e.Call? && T.IsPair(e.argv, e.now) && e.argv in L.Execute(m.dbs[e.id], e.argv, e.now, lazy, other).fed
    && Piece(m, e, lazy, other).Some? && p + 1 == |Piece(m, e, lazy, other).value|
  }

  /** The key already held the value of the pair, without an expiry. */
  predicate Held(m: P.Master, e: P.Event)
    requires P.Enabled(m, e)
  {
    e.Call? && T.Held(m.dbs[e.id], e.argv, e.now)
  }

  /** The databases as clients see them at the time of the event. */
  function SeenAt(dbs: seq<Db>, e: P.Event): seq<Db> {
    if e.Forget? then dbs else seq(|dbs|, i requires 0 <= i < |dbs| => T.Seen(dbs[i], e.now))
  }

  /** What `dbs` has to do with the databases before and after an event of which p commands survive. */
  predicate Leaves(m: P.Master, e: P.Event, p: nat, lazy: bool, other: Other, dbs: seq<Db>)
    requires P.Enabled(m, e)
  {
    var before, after := m.dbs, P.Step(m, e, lazy, other).dbs;
    var piece := Piece(m, e, lazy, other);
    var torn := Torn(m, e, p, lazy, other);
    && piece.Some?
    && (p == |piece.value| ==> dbs == after)
    && (dbs == before || dbs == after <==> p <= Selects(m, e) || p == |piece.value| || (torn && Held(m, e)))
    && (SeenAt(dbs, e) == SeenAt(before, e) || SeenAt(dbs, e) == SeenAt(after, e) <==> !torn || Held(m, e))
    && (torn ==>
          && |e.argv| >= 2
          && var reaped := L.Reap(before[e.id], e.argv[1], e.now, lazy).db;
             dbs == before[e.id := SetKey(reaped, e.argv[1], T.PairValue(e.argv, e.now), None)])
  }

  /** One database changed: the sequences compare as the database does. */
  lemma {:induction false} OneChanged(dbs: seq<Db>, id: nat, d: Db, d': Db, e: P.Event)
    requires id < |dbs| && !e.Forget?
    ensures dbs[id := d] == dbs[id := d'] <==> d == d'
    ensures SeenAt(dbs[id := d], e) == SeenAt(dbs[id := d'], e) <==> T.Seen(d, e.now) == T.Seen(d', e.now)
  {
    hide T.Seen;
    var a, b := dbs[id := d], dbs[id := d'];
    assert a[id] == d && b[id] == d';
    assert SeenAt(a, e)[id] == T.Seen(d, e.now) && SeenAt(b, e)[id] == T.Seen(d', e.now);
    if T.Seen(d, e.now) == T.Seen(d', e.now) { assert SeenAt(a, e) == SeenAt(b, e); }
  }

  /** Replaying the SELECT and q commands more. */
  lemma {:induction false} ReplaySome(r: Server, m: P.Master, id: nat, t: seq<Command>, q: nat, other: Other)
    requires P.Mirrors(r, m.dbs, m.sel) && id < |m.dbs| && F.NoSelect(t) && q <= |t|
    ensures Replay(r, P.Selecting(m.sel, id) + t[..q], other).dbs ==
            m.dbs[id := F.ReplayTo(m.dbs[id], t[..q], other)]
  {
    hide Replay, F.ReplayTo, P.Selecting;
    ReplayConcat(r, P.Selecting(m.sel, id), t[..q], other);
    P.SelectReplays(r, m.dbs, m.sel, id, other);
    P.ReplaySelected(r.(sel := id), t[..q], other);
  }

  /** Cut within the SELECT, nothing changed. */
  lemma {:induction false} ReplaySelect(r: Server, m: P.Master, id: nat, p: nat, other: Other)
    requires P.Mirrors(r, m.dbs, m.sel) && id < |m.dbs| && p <= |P.Selecting(m.sel, id)|
    ensures Replay(r, P.Selecting(m.sel, id)[..p], other).dbs == m.dbs
  {
    hide Replay;
    var s := P.Selecting(m.sel, id);
    if p == 0 {
      assert s[..p] == [];
      ReplayNone(r, other);
    } else {
      assert s[..p] == s;
      P.SelectReplays(r, m.dbs, m.sel, id, other);
    }
  }

  lemma {:induction false} SomethingWritten(fed: seq<Command>, now: Long)
    requires fed != [] && F.TranslateAll(fed, now).Some?
    ensures F.TranslateAll(fed, now).value != []
  {
    hide F.Translate;
    T.TranslationSize(fed[0], now);
  }

  lemma {:induction false} CallLeaves(r: Server, m: P.Master, e: P.Event, p: nat, lazy: bool, other: Other)
    requires P.Mirrors(r, m.dbs, m.sel) && P.Enabled(m, e) && e.Call?
    requires L.Execute(m.dbs[e.id], e.argv, e.now, lazy, other).fed != []
    requires Piece(m, e, lazy, other).Some? ==> p <= |Piece(m, e, lazy, other).value|
    ensures Piece(m, e, lazy, other).Some?
    ensures Leaves(m, e, p, lazy, other, Replay(r, Piece(m, e, lazy, other).value[..p], other).dbs)
  {
    hide L.Execute, Replay, F.ReplayTo, F.Stops, F.TranslateAll, T.IsPair, T.Seen, P.FeedAll, P.Selecting, SeenAt,
         P.Mirrors, T.PairValue, L.Reap, T.Held, SetKey;
    var db := m.dbs[e.id];
    var out := L.Execute(db, e.argv, e.now, lazy, other);
    F.ExecuteIsFaithful(db, e.argv, e.now, lazy, other);
    P.FeedAllSelectsOnce(m.sel, e.id, out.fed, e.now);
    var t, s := F.TranslateAll(out.fed, e.now).value, P.Selecting(m.sel, e.id);
    var piece := Piece(m, e, lazy, other).value;
    assert piece == s + t;
    assert m.dbs[e.id := db] == m.dbs;
    if p < |s| || (p == |s| && p < |piece|) {
      assert piece[..p] == s[..p];
      ReplaySelect(r, m, e.id, p, other);
      T.CallLeaves(db, e.argv, e.now, lazy, other, 0);
      SomethingWritten(out.fed, e.now);
    } else {
      var q := p - |s|;
      assert piece[..p] == s + t[..q];
      ReplaySome(r, m, e.id, t, q, other);
      T.CallLeaves(db, e.argv, e.now, lazy, other, q);
      var d := F.ReplayTo(db, t[..q], other);
      OneChanged(m.dbs, e.id, d, db, e);
      OneChanged(m.dbs, e.id, d, out.db, e);
    }
  }

  lemma {:induction false} QuietCallLeaves(r: Server, m: P.Master, e: P.Event, lazy: bool, other: Other)
    requires P.Mirrors(r, m.dbs, m.sel) && P.Enabled(m, e) && e.Call?
    requires L.Execute(m.dbs[e.id], e.argv, e.now, lazy, other).fed == []
    ensures Piece(m, e, lazy, other) == Some([])
    ensures Leaves(m, e, 0, lazy, other, Replay(r, [], other).dbs)
  {
    hide L.Execute, Replay, F.ReplayTo, F.Stops, F.TranslateAll, T.IsPair, T.Seen, P.Selecting, SeenAt, T.PairValue,
         L.Reap, T.Held;
    F.ExecuteIsFaithful(m.dbs[e.id], e.argv, e.now, lazy, other);
    P.CarriesNoCommands(m.dbs[e.id], e.now, other, L.Execute(m.dbs[e.id], e.argv, e.now, lazy, other).db);
    ReplayNone(r, other);
    assert m.dbs[e.id := m.dbs[e.id]] == m.dbs;
  }

  /** A key removed by the expiry cycle is one command. */
  lemma {:induction false} ExpireLeaves(r: Server, m: P.Master, e: P.Event, p: nat, lazy: bool, other: Other)
    requires P.Mirrors(r, m.dbs, m.sel) && P.Enabled(m, e) && e.Expire?
    requires Piece(m, e, lazy, other).Some? ==> p <= |Piece(m, e, lazy, other).value|
    ensures Piece(m, e, lazy, other).Some?
    ensures Leaves(m, e, p, lazy, other, Replay(r, Piece(m, e, lazy, other).value[..p], other).dbs)
  {
    hide Replay, F.ReplayTo, F.TranslateAll, T.Seen, P.Selecting, SeenAt, P.FeedAll, L.IsExpired, Delete, L.DelName;
    var db := m.dbs[e.id];
    var out := L.Reap(db, e.key, e.now, lazy);
    assert m.dbs[e.id := db] == m.dbs;
    if out.fed == [] {
      P.FeedNoCommands(m.sel, e.id, e.now);
      assert Piece(m, e, lazy, other).value[..p] == [];
      ReplayNone(r, other);
    } else {
      F.CarriesReap(db, e.key, e.now, lazy, other);
      P.FeedAllSelectsOnce(m.sel, e.id, out.fed, e.now);
      F.TranslateOne(out.fed[0], e.now);
      T.DelTranslates(e.key, e.now, lazy);
      var t, s := F.TranslateAll(out.fed, e.now).value, P.Selecting(m.sel, e.id);
      if p <= |s| {
        assert (s + t)[..p] == s[..p];
        ReplaySelect(r, m, e.id, p, other);
      } else {
        assert (s + t)[..p] == s + t[..1] && t[..1] == t;
        ReplaySome(r, m, e.id, t, 1, other);
      }
    }
  }

  lemma {:induction false} EventLeaves(r: Server, m: P.Master, e: P.Event, p: nat, lazy: bool, other: Other)
    requires P.Mirrors(r, m.dbs, m.sel) && P.Enabled(m, e)
    requires Piece(m, e, lazy, other).Some? ==> p <= |Piece(m, e, lazy, other).value|
    ensures Piece(m, e, lazy, other).Some?
    ensures Leaves(m, e, p, lazy, other, Replay(r, Piece(m, e, lazy, other).value[..p], other).dbs)
  {
    hide Replay, Leaves, Piece, L.Execute, P.Mirrors, P.Enabled;
    match e
    case Call(id, argv, now) =>
      if CallFed(m, e, lazy, other) == [] {
        QuietCallLeaves(r, m, e, lazy, other);
      } else {
        CallLeaves(r, m, e, p, lazy, other);
      }
    case Expire(_, _, _) => ExpireLeaves(r, m, e, p, lazy, other);
    case Forget => ForgetLeaves(r, m, lazy, other);
  }

  function CallFed(m: P.Master, e: P.Event, lazy: bool, other: Other): seq<Command>
    requires P.Enabled(m, e) && e.Call?
  {
    L.Execute(m.dbs[e.id], e.argv, e.now, lazy, other).fed
  }

  lemma ForgetLeaves(r: Server, m: P.Master, lazy: bool, other: Other)
    requires P.Mirrors(r, m.dbs, m.sel)
    ensures Piece(m, P.Forget, lazy, other) == Some([])
    ensures Leaves(m, P.Forget, 0, lazy, other, Replay(r, [], other).dbs)
  {
    hide Replay;
    ReplayNone(r, other);
  }

  // ---------------------------------------------------------------- whole runs

  function Start(dbs: seq<Db>): P.Master { P.Master(dbs, None, []) }

  /** Stopping a run earlier is a run, and leaves a prefix of what it writes. */
  lemma {:induction false} WrittenGrows(m: P.Master, es: seq<P.Event>, k: nat, lazy: bool, other: Other)
    requires P.Runs(m, es, lazy, other) && k <= |es|
    ensures P.Runs(m, es[..k], lazy, other)
    ensures m.written <= P.Run(m, es[..k], lazy, other).written <= P.Run(m, es, lazy, other).written
    decreases |es|
  {
    hide P.Step, P.Enabled, Piece;
    if k > 0 {
      StepWrites(m, es[0], lazy, other);
      assert es[..k][1..] == es[1..][..k - 1] && es[..k][0] == es[0];
      WrittenGrows(P.Step(m, es[0], lazy, other), es[1..], k - 1, lazy, other);
    } else {
      assert es[..0] == [];
      if es != [] {
        StepWrites(m, es[0], lazy, other);
        assert es[1..][..0] == [];
        WrittenGrows(P.Step(m, es[0], lazy, other), es[1..], 0, lazy, other);
      }
    }
  }

  lemma {:induction false} RunSnoc(m: P.Master, es: seq<P.Event>, j: nat, lazy: bool, other: Other)
    requires P.Runs(m, es, lazy, other) && j < |es|
    ensures P.Runs(m, es[..j], lazy, other) && P.Runs(m, es[..j + 1], lazy, other)
    ensures var n := P.Run(m, es[..j], lazy, other);
            P.Enabled(n, es[j]) && P.Run(m, es[..j + 1], lazy, other) == P.Step(n, es[j], lazy, other)
    decreases |es|
  {
    hide P.Step, P.Enabled;
    assert es[..j + 1][0] == es[0] && es[..j + 1][1..] == es[1..][..j];
    if j == 0 {
      assert es[..0] == [] && es[1..][..0] == [];
    } else {
      assert es[..j][0] == es[0] && es[..j][1..] == es[1..][..j - 1];
      RunSnoc(P.Step(m, es[0], lazy, other), es[1..], j - 1, lazy, other);
    }
  }

  /** Event j is the one the k-th command of the log is written by, or ends at. */
  predicate Within(m: P.Master, es: seq<P.Event>, j: nat, k: nat, lazy: bool, other: Other)
    requires P.Runs(m, es, lazy, other)
  {
    && j < |es| && P.Runs(m, es[..j], lazy, other) && P.Runs(m, es[..j + 1], lazy, other)
    && |P.Run(m, es[..j], lazy, other).written| <= k <= |P.Run(m, es[..j + 1], lazy, other).written|
  }

  /** Every cut is within some event. */
  lemma {:induction false} SomeEvent(m: P.Master, es: seq<P.Event>, k: nat, lazy: bool, other: Other) returns (j: nat)
    requires P.Runs(m, es, lazy, other) && es != [] && |m.written| <= k <= |P.Run(m, es, lazy, other).written|
    ensures Within(m, es, j, k, lazy, other)
  {
    hide P.Step, P.Enabled, P.Run, P.Runs;
    j := |es| - 1;
    assert es[..j + 1] == es;
    RunSnoc(m, es, j, lazy, other);
    while |P.Run(m, es[..j], lazy, other).written| > k
      invariant j < |es| && P.Runs(m, es[..j], lazy, other) && P.Runs(m, es[..j + 1], lazy, other)
      invariant k <= |P.Run(m, es[..j + 1], lazy, other).written|
      decreases j
    {
      if j == 0 { RunNone(m, es, lazy, other); }
      j := j - 1;
      RunSnoc(m, es, j, lazy, other);
    }
  }

  lemma RunNone(m: P.Master, es: seq<P.Event>, lazy: bool, other: Other)
    ensures P.Runs(m, es[..0], lazy, other) && P.Run(m, es[..0], lazy, other) == m
  {}

  /** For every run and every byte at which a crash cuts its log: the server that loads it recovers
      the databases before or after the event the cut falls in, exactly if no command of the event but
      its SELECT survives, or all do, or a torn pair happens to restore what was there; and it recovers
      what clients saw before or after, exactly if no pair is torn or the key held that value before. */
  lemma {:induction false} CrashExactly(dbs: seq<Db>, es: seq<P.Event>, j: nat, cut: nat, lazy: bool, base: Server,
                                        other: Other, kind: Command -> Kind)
    requires base.Valid() && base.dbs == dbs && P.Runs(Start(dbs), es, lazy, other)
    requires G.Known(kind) && G.EventsOk(es, kind)
    requires var log := P.Run(Start(dbs), es, lazy, other).written;
             && 0 < cut <= |EmitLog(log)|
             && Within(Start(dbs), es, j, WholeIn(log, cut), lazy, other)
    ensures var log := P.Run(Start(dbs), es, lazy, other).written;
            var loaded := Load(EmitLog(log)[..cut], kind, true);
            var m := P.Run(Start(dbs), es[..j], lazy, other);
            && loaded.Loaded? && P.Enabled(m, es[j])
            && P.Step(m, es[j], lazy, other) == P.Run(Start(dbs), es[..j + 1], lazy, other)
            && Leaves(m, es[j], WholeIn(log, cut) - |m.written|, lazy, other, Replay(base, loaded.executed, other).dbs)
  {
    hide Replay, P.Run, P.Runs, EmitLog, Load, Readable, PlainLog, WholeIn, EndOf, Leaves, Piece, P.Step, P.Enabled,
         G.EventsOk, G.Known;
    var start := Start(dbs);
    var m := P.Run(start, es[..j], lazy, other);
    var log := P.Run(start, es, lazy, other).written;
    var k := WholeIn(log, cut);
    var p := k - |m.written|;
    G.FineNone(kind);
    G.RunIsFine(start, es, lazy, other, kind);
    PlainPrefixRecovers(log, cut, kind);
    RunSnoc(start, es, j, lazy, other);
    WrittenGrows(start, es, j + 1, lazy, other);
    StepWrites(m, es[j], lazy, other);
    ReplayNone(base, other);
    P.RunKeepsFaith(start, es[..j], lazy, base, other);
    EventLeaves(Replay(base, m.written, other), m, es[j], p, lazy, other);
    var piece := Piece(m, es[j], lazy, other).value;
    assert log[..k] == m.written + piece[..p];
    ReplayConcat(base, m.written, piece[..p], other);
  }

  // ---------------------------------------------------------------- a torn pair

  function Written(when: Long, key: Bytes, v: Bytes): seq<Command> {
    [SelectCmd(0), SetCmd(key, v), PExpireAtCmd(key, when)]
  }

  lemma SetexNamed(key: Bytes, secs: Bytes, v: Bytes)
    ensures OpOf([SETEX_NAME, key, secs, v]) == SETEX
  {
    assert UpperAll(SETEX_NAME) == SETEX_NAME;
  }

  lemma {:induction false} SetexFeeds(key: Bytes, secs: Bytes, v: Bytes, n: Long, now: Long, lazy: bool, other: Other)
    requires ParseLong(secs) == Some(n) && n > 0
    ensures var argv := [SETEX_NAME, key, secs, v];
            L.Execute(map[], argv, now, lazy, other).fed == [argv] && !F.BothWords(argv)
  {
    hide ParseLong, L.Wrap, OpNamed, UpperAll;
    SetexNamed(key, secs, v);
  }

  lemma {:induction false} SetexTranslates(key: Bytes, secs: Bytes, v: Bytes, n: Long, now: Long)
    requires ParseLong(secs) == Some(n)
    ensures F.Translate([SETEX_NAME, key, secs, v], now) ==
            Some([SetCmd(key, v), PExpireAtCmd(key, L.Wrap(L.ToMs(n, L.Seconds) + now))])
  {
    hide L.Wrap, OpNamed, UpperAll, Print;
    SetexNamed(key, secs, v);
  }

  lemma {:induction false} SetexWrites(key: Bytes, secs: Bytes, v: Bytes, n: Long, now: Long, lazy: bool, other: Other)
    requires ParseLong(secs) == Some(n) && n > 0
    ensures var m, e := P.Master([map[]], None, []), P.Call(0, [SETEX_NAME, key, secs, v], now);
            P.Enabled(m, e) && P.Step(m, e, lazy, other).written == Written(L.Wrap(L.ToMs(n, L.Seconds) + now), key, v)
  {
    hide ParseLong, L.Wrap, L.ToMs, L.Execute, F.BothWords, F.Translate, P.FeedAll, Print, OpOf;
    var argv := [SETEX_NAME, key, secs, v];
    var when := L.Wrap(L.ToMs(n, L.Seconds) + now);
    SetexFeeds(key, secs, v, n, now, lazy, other);
    SetexTranslates(key, secs, v, n, now);
    P.FeedAllSelectsOnce(None, 0, [argv], now);
    F.TranslateOne(argv, now);
    assert [] + ([SelectCmd(0)] + [SetCmd(key, v), PExpireAtCmd(key, when)]) == Written(when, key, v);
  }

  lemma {:induction false} TornReplay(key: Bytes, v: Bytes, when: Long, other: Other)
    ensures var base := EmptyServer(1);
            var log := Written(when, key, v);
            Replay(base, log[..2], other).dbs == [map[key := Entry(Str(v), None)]] &&
            Replay(base, log, other).dbs == [map[key := Entry(Str(v), Some(when))]]
  {
    hide Replay, Apply, Print;
    var base := EmptyServer(1);
    var log := Written(when, key, v);
    var a, b, c := log[0], log[1], log[2];
    ApplySelect(base, 0, other);
    ApplySet(base, key, v, other);
    var t := Server(0, [map[key := Entry(Str(v), None)]]);
    assert base.dbs[0 := SetKey(base.dbs[0], key, v, None)] == t.dbs;
    ApplyPExpireAt(t, key, when, other);
    ReplayConcat(base, [a], [b], other);
    ReplayConcat(base, [a, b], [c], other);
    ReplayOne(base, a, other);
    ReplayOne(base, b, other);
    ReplayOne(t, c, other);
    assert log[..2] == [a, b] == [a] + [b] && log == [a, b] + [c];
    assert SetExpire(t.dbs[0], key, when) == map[key := Entry(Str(v), Some(when))];
    assert t.dbs[0 := SetExpire(t.dbs[0], key, when)] == [map[key := Entry(Str(v), Some(when))]];
  }

  const K: Bytes := [107]
  const V: Bytes := [118]
  const TEN: Bytes := [49, 48]

  /** SETEX k 10 v at time 0. */
  const SETEX_RUN: seq<P.Event> := [P.Call(0, [SETEX_NAME, K, TEN, V], 0)]

  lemma {:induction false} TornLogReadable(kind: Command -> Kind)
    requires forall c :: kind(c) == Plain
    ensures var log := Written(10000, K, V);
            Readable(log, kind) && PlainLog(log, kind)
  {
    LongDigits(10000);
    LongDigits(0);
  }

  function AllPlain(c: Command): Kind { Plain }

  lemma {:induction false} TornLoads(log: seq<Command>, kind: Command -> Kind)
    requires log == Written(10000, K, V) && forall c :: kind(c) == Plain
    ensures EndOf(log, 2) <= |EmitLog(log)|
    ensures var loaded := Load(EmitLog(log)[..EndOf(log, 2)], kind, true);
            loaded.Loaded? && loaded.executed == log[..2]
  {
    hide EmitLog, Load, Readable, PlainLog, WholeIn, EndOf, Print;
    TornLogReadable(kind);
    EndNext(log, 0);
    EndNext(log, 1);
    EndNext(log, 2);
    WholeBetween(log, 2, EndOf(log, 2));
    PlainPrefixRecovers(log, EndOf(log, 2), kind);
  }

  lemma {:induction false} TornRun(lazy: bool, other: Other)
    ensures var start := Start([map[]]);
            && P.Runs(start, SETEX_RUN, lazy, other)
            && P.Run(start, SETEX_RUN, lazy, other).written == Written(10000, K, V)
  {
    hide P.Step, P.Enabled, Print, ParseLong;
    F.TenIsANumber();
    SetexWrites(K, TEN, V, 10, 0, lazy, other);
    var start, e := Start([map[]]), SETEX_RUN[0];
    assert SETEX_RUN[1..] == [];
    assert P.Runs(P.Step(start, e, lazy, other), [], lazy, other);
  }

  /** The log of SETEX k 10 v on an empty server, cut before its PEXPIREAT, recovers k without an
      expiry: neither the empty database nor the one after the command. */
  lemma {:induction false} TornPairIsNew(lazy: bool, other: Other)
    ensures var start := Start([map[]]);
            && P.Runs(start, SETEX_RUN, lazy, other)
            && var end := P.Run(start, SETEX_RUN, lazy, other);
               && |end.written| == 3 && EndOf(end.written, 2) <= |EmitLog(end.written)|
               && var loaded := Load(EmitLog(end.written)[..EndOf(end.written, 2)], AllPlain, true);
                  && loaded.Loaded?
                  && Replay(EmptyServer(1), loaded.executed, other).dbs == [map[K := Entry(Str(V), None)]]
                  && end.dbs == [map[K := Entry(Str(V), Some(10000))]]
  {
    hide Replay, P.Run, P.Runs, EmitLog, Load, EndOf, Print, Start, EmptyServer;
    TornRun(lazy, other);
    var log := Written(10000, K, V);
    TornLoads(log, AllPlain);
    TornReplay(K, V, 10000, other);
    TornEnds(lazy, other);
  }

  lemma {:induction false} TornEnds(lazy: bool, other: Other)
    ensures P.Runs(Start([map[]]), SETEX_RUN, lazy, other)
    ensures P.Run(Start([map[]]), SETEX_RUN, lazy, other).dbs ==
            Replay(EmptyServer(1), Written(10000, K, V), other).dbs
  {
    hide Replay, P.Run, P.Runs, Written;
    TornRun(lazy, other);
    assert EmptyServer(1).dbs == [map[]];
    P.FeedPreservesMeaning([map[]], SETEX_RUN, lazy, EmptyServer(1), other);
  }

  // ---------------------------------------------------------------- an older state may come back

  /** SET k v, DEL k, SETEX k 10 v. */
  const SET_DEL: seq<P.Event> := [P.Call(0, SetCmd(K, V), 0), P.Call(0, DelCmd(K), 0)]

  lemma {:induction false} SetRuns(lazy: bool, other: Other)
    ensures var e := SET_DEL[0];
            P.Enabled(Start([map[]]), e) &&
            P.Step(Start([map[]]), e, lazy, other).dbs == [map[K := Entry(Str(V), None)]]
  {
    hide P.FeedAll;
    SetResolves();
    assert SetCmd(K, V)[3..] == [];
    assert L.Execute(map[], SetCmd(K, V), 0, lazy, other).db == map[K := Entry(Str(V), None)];
  }

  lemma {:induction false} DelRuns(m: P.Master, lazy: bool, other: Other)
    requires m.dbs == [map[K := Entry(Str(V), None)]]
    ensures var e := SET_DEL[1];
            P.Enabled(m, e) && P.Step(m, e, lazy, other).dbs == [map[]]
  {
    hide P.FeedAll, L.DeleteKeys;
    DelResolves();
    assert DelCmd(K)[1..] == [K];
    F.DeleteKeysDeletes(m.dbs[0], [K], 0, lazy);
    assert Delete(m.dbs[0], [K]) == map[];
  }

  /** The databases a torn pair leaves are compared with those just before and after it, since an older
      state can come back by chance: after SET k v and DEL k, half of SETEX k 10 v is the state after
      the SET, although k was gone when the pair was written. */
  lemma {:induction false} OlderStateComesBack(lazy: bool, other: Other)
    ensures P.Runs(Start([map[]]), SET_DEL, lazy, other) && P.Runs(Start([map[]]), SET_DEL[..1], lazy, other)
    ensures var m := P.Run(Start([map[]]), SET_DEL, lazy, other);
            && m.dbs == [map[]] && P.Enabled(m, SETEX_RUN[0]) && !Held(m, SETEX_RUN[0])
            && m.dbs[0 := SetKey(L.Reap(m.dbs[0], K, 0, lazy).db, K, V, None)] ==
               P.Run(Start([map[]]), SET_DEL[..1], lazy, other).dbs
  {
    hide P.Step, P.Enabled, ParseLong;
    var start := Start([map[]]);
    SetRuns(lazy, other);
    var m1 := P.Step(start, SET_DEL[0], lazy, other);
    DelRuns(m1, lazy, other);
    var m2 := P.Step(m1, SET_DEL[1], lazy, other);
    var first, rest := SET_DEL[..1], SET_DEL[1..];
    assert first[1..] == [] && rest[1..] == [];
    assert P.Runs(m2, [], lazy, other) && P.Run(m2, [], lazy, other) == m2;
    assert P.Runs(m1, [], lazy, other) && P.Run(m1, [], lazy, other) == m1;
    assert P.Runs(m1, rest, lazy, other) && P.Run(m1, rest, lazy, other) == m2;
    SetexEnabled(m2);
  }

  lemma {:induction false} SetexEnabled(m: P.Master)
    requires m.dbs == [map[]]
    ensures P.Enabled(m, SETEX_RUN[0])
  {
    SetexNamed(K, TEN, V);
  }
}
