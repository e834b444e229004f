/** Everything the server writes to its append only file can be read back: the snapshot and whatever is
    fed, as long as what clients send and what is stored has sizes a C integer holds. */
module Legible {
  import opened Basics
  import opened Decimal
  import opened Resp
  import opened CommandLog
  import opened Dataset
  import L = Live
  import F = Feed
  import P = Propagation
  import S = Snapshot

  /** The loader knows the commands of the model, and none of them opens or closes a transaction. */
  ghost predicate Known(kind: Command -> Kind) { forall c: Command | OpOf(c) != OTHER :: kind(c) == Plain }

  predicate AllFit(args: seq<Bytes>) { forall i | 0 <= i < |args| :: Fits(args[i]) }

  predicate Fine(log: seq<Command>, kind: Command -> Kind) { Readable(log, kind) && PlainLog(log, kind) }

  lemma FineConcat(a: seq<Command>, b: seq<Command>, kind: Command -> Kind)
    requires Fine(a, kind) && Fine(b, kind)
    ensures Fine(a + b, kind)
  {
    hide Printable;
  }

  lemma FineNone(kind: Command -> Kind)
    ensures Fine([], kind)
  {}

  lemma FineOne(c: Command, kind: Command -> Kind)
    requires Printable(c) && kind(c) == Plain
    ensures Fine([c], kind)
  {
    hide Printable;
  }

  lemma {:induction false} NumberFits(n: Long)
    ensures Fits(Print(n))
  {
    if n >= 0 {
      LongDigits(n);
    } else if n == -LONG_MAX - 1 {
      assert LONG_MAX + 1 == 10 * 922337203685477580 + 8;
      LongDigits(922337203685477580);
    } else {
      LongDigits(-n);
    }
  }

  lemma {:induction false} SelectIsFine(id: nat, kind: Command -> Kind)
    requires Known(kind) && id <= INT_MAX
    ensures Fine([SelectCmd(id)], kind)
  {
    hide OpNamed, UpperAll, Print;
    SelectResolves();
    NumberFits(id);
    FineOne(SelectCmd(id), kind);
  }

  lemma {:induction false} SetIsFine(key: Bytes, v: Bytes, kind: Command -> Kind)
    requires Known(kind) && Fits(key) && Fits(v)
    ensures Fine([SetCmd(key, v)], kind)
  {
    hide OpNamed, UpperAll;
    SetResolves();
    FineOne(SetCmd(key, v), kind);
  }

  lemma {:induction false} ExpiryIsFine(key: Bytes, when: Long, kind: Command -> Kind)
    requires Known(kind) && Fits(key)
    ensures Fine([PExpireAtCmd(key, when)], kind)
  {
    hide OpNamed, UpperAll, Print;
    PExpireAtResolves();
    NumberFits(when);
    FineOne(PExpireAtCmd(key, when), kind);
  }

  // ---------------------------------------------------------------- what is fed

  predicate Sendable(argv: Command, kind: Command -> Kind) { Printable(argv) && kind(argv) == Plain }

  lemma {:induction false} ExpireAtIsFine(op: Op, key: Bytes, arg: Bytes, now: Long, kind: Command -> Kind)
    requires Known(kind) && Fits(key)
    ensures Fine([F.ExpireAt(op, key, arg, now)], kind)
  {
    hide Fine, Known, L.Wrap, L.ToMs, F.Strtoll, L.UnitOf, L.BaseOf;
    ExpiryIsFine(key, L.Wrap(L.ToMs(F.Strtoll(arg), L.UnitOf(op)) + L.BaseOf(op, now)), kind);
  }

  lemma {:induction false} PairIsFine(a: Command, b: Command, kind: Command -> Kind)
    requires Fine([a], kind) && Fine([b], kind)
    ensures Fine([a, b], kind)
  {
    hide Fine;
    FineConcat([a], [b], kind);
    assert [a] + [b] == [a, b];
  }

  lemma {:induction false} PrefixIsFine(argv: Command, kind: Command -> Kind)
    requires Known(kind) && Printable(argv) && OpOf(argv) == SET && |argv| >= 3
    ensures Fine([argv[..3]], kind)
  {
    hide OpOf;
    F.SamePrefix(argv);
    FineOne(argv[..3], kind);
  }

  lemma {:induction false} TranslationIsFine(argv: Command, now: Long, kind: Command -> Kind)
    requires Known(kind) && Sendable(argv, kind) && F.Translate(argv, now).Some?
    ensures Fine(F.Translate(argv, now).value, kind)
  {
    hide OpOf, Fine, Known, F.LastAfter, F.ExpireAt, SetCmd;
    var op := OpOf(argv);
    FineOne(argv, kind);
    if (op == EXPIRE || op == PEXPIRE || op == EXPIREAT) && |argv| >= 3 {
      ExpireAtIsFine(op, argv[1], argv[2], now, kind);
    } else if (op == SETEX || op == PSETEX) && |argv| >= 4 {
      SetIsFine(argv[1], argv[3], kind);
      ExpireAtIsFine(op, argv[1], argv[2], now, kind);
      PairIsFine(SetCmd(argv[1], argv[3]), F.ExpireAt(op, argv[1], argv[2], now), kind);
    } else if op == SET && |argv| > 3 {
      PrefixIsFine(argv, kind);
      var ex, px := F.LastAfter(argv[3..], L.EX), F.LastAfter(argv[3..], L.PX);
      if ex.Some? {
        ExpireAtIsFine(EXPIRE, argv[1], ex.value, now, kind);
        PairIsFine(argv[..3], F.ExpireAt(EXPIRE, argv[1], ex.value, now), kind);
      } else if px.Some? {
        ExpireAtIsFine(PEXPIRE, argv[1], px.value, now, kind);
        PairIsFine(argv[..3], F.ExpireAt(PEXPIRE, argv[1], px.value, now), kind);
      }
    }
  }

  lemma {:induction false} TranslationsAreFine(fed: seq<Command>, now: Long, kind: Command -> Kind)
    requires Known(kind) && F.TranslateAll(fed, now).Some? && forall i | 0 <= i < |fed| :: Sendable(fed[i], kind)
    ensures Fine(F.TranslateAll(fed, now).value, kind)
    decreases |fed|
  {
    hide F.Translate, Fine, Known, Sendable;
    FineNone(kind);
    if fed != [] {
      TranslationIsFine(fed[0], now, kind);
      TranslationsAreFine(fed[1..], now, kind);
      FineConcat(F.Translate(fed[0], now).value, F.TranslateAll(fed[1..], now).value, kind);
    }
  }

  lemma {:induction false} DeletionIsSendable(key: Bytes, lazy: bool, kind: Command -> Kind)
    requires Known(kind) && Fits(key)
    ensures Sendable([L.DelName(lazy), key], kind)
  {
    DelResolves();
    assert UpperAll(UNLINK_NAME) == UNLINK_NAME;
    assert OpOf([L.DelName(lazy), key]) == DEL;
  }

  lemma {:induction false} FedIsSendable(db: Db, argv: Command, now: Long, lazy: bool, other: Other,
                                         kind: Command -> Kind, c: Command)
    requires Known(kind) && Sendable(argv, kind) && c in L.Execute(db, argv, now, lazy, other).fed
    ensures Sendable(c, kind)
  {
    hide L.Execute, Known, L.DelName;
    if c != argv {
      var key := P.PropagatedDeletion(db, argv, now, lazy, other, c);
      assert Fits(key);
      DeletionIsSendable(key, lazy, kind);
    }
  }

  // ---------------------------------------------------------------- runs

  /** What clients send can be printed and is no MULTI or EXEC; a key there is fits. */
  predicate EventOk(e: P.Event, kind: Command -> Kind) {
    match e
    case Call(_, argv, _) => Sendable(argv, kind)
    case Expire(_, key, _) => Fits(key)
    case Forget => true
  }

  predicate EventsOk(es: seq<P.Event>, kind: Command -> Kind) { forall i | 0 <= i < |es| :: EventOk(es[i], kind) }

  lemma {:induction false} FeedIsFine(sel: Option<nat>, id: nat, fed: seq<Command>, now: Long, kind: Command -> Kind)
    requires Known(kind) && id <= INT_MAX && forall i | 0 <= i < |fed| :: Sendable(fed[i], kind)
    ensures P.FeedAll(sel, id, fed, now).Some? ==> Fine(P.FeedAll(sel, id, fed, now).value, kind)
  {
    hide Fine, Known, Sendable, F.TranslateAll, P.FeedAll, SelectCmd;
    FineNone(kind);
    P.FeedNoCommands(sel, id, now);
    if fed != [] && F.TranslateAll(fed, now).Some? {
      P.FeedAllSelectsOnce(sel, id, fed, now);
      SelectIsFine(id, kind);
      TranslationsAreFine(fed, now, kind);
      FineConcat(P.Selecting(sel, id), F.TranslateAll(fed, now).value, kind);
    } else if fed != [] {
      P.FeedAllSelectsOnce(sel, id, fed, now);
    }
  }

  lemma {:induction false} AfterIsFine(m: P.Master, id: nat, o: L.Result, now: Long, kind: Command -> Kind)
    requires Known(kind) && Fine(m.written, kind) && id < |m.dbs| <= INT_MAX
    requires forall i | 0 <= i < |o.fed| :: Sendable(o.fed[i], kind)
    ensures Fine(P.After(m, id, o, now).written, kind)
  {
    hide Fine, Known, Sendable, P.FeedAll;
    FeedIsFine(m.sel, id, o.fed, now, kind);
    var log := P.FeedAll(m.sel, id, o.fed, now);
    if log.Some? {
      FineConcat(m.written, log.value, kind);
    } else {
      assert m.written + [] == m.written;
    }
  }

  lemma {:induction false} StepIsFine(m: P.Master, e: P.Event, lazy: bool, other: Other, kind: Command -> Kind)
    requires Known(kind) && Fine(m.written, kind) && |m.dbs| <= INT_MAX && P.Enabled(m, e) && EventOk(e, kind)
    ensures Fine(P.Step(m, e, lazy, other).written, kind)
  {
    hide Fine, Known, Sendable, P.After, L.Execute, F.Stops, L.DelName;
    match e
    case Call(id, argv, now) =>
      var o := L.Execute(m.dbs[id], argv, now, lazy, other);
      forall i | 0 <= i < |o.fed| ensures Sendable(o.fed[i], kind) {
        FedIsSendable(m.dbs[id], argv, now, lazy, other, kind, o.fed[i]);
      }
      AfterIsFine(m, id, o, now, kind);
    case Expire(id, key, now) =>
      DeletionIsSendable(key, lazy, kind);
      AfterIsFine(m, id, L.Reap(m.dbs[id], key, now, lazy), now, kind);
    case Forget =>
  }

  /** Everything written during any run can be read back and holds no transaction. */
  lemma {:induction false} RunIsFine(m: P.Master, es: seq<P.Event>, lazy: bool, other: Other, kind: Command -> Kind)
    requires Known(kind) && Fine(m.written, kind) && |m.dbs| <= INT_MAX
    requires P.Runs(m, es, lazy, other) && EventsOk(es, kind)
    ensures Fine(P.Run(m, es, lazy, other).written, kind)
    decreases |es|
  {
    hide Fine, Known, EventOk, P.Step, P.Enabled;
    if es != [] {
      assert EventOk(es[0], kind);
      StepIsFine(m, es[0], lazy, other, kind);
      RunIsFine(P.Step(m, es[0], lazy, other), es[1..], lazy, other, kind);
    }
  }

  // ---------------------------------------------------------------- snapshots

  predicate RowFits(row: S.Row) {
    Fits(row.key) &&
    match row.obj
    case StrObj(b) => Fits(b)
    case CollObj(c, items) => Items(c, items) && forall i | 0 <= i < |items| :: AllFit(items[i])
  }

  predicate TablesFit(tables: seq<seq<S.Row>>) {
    forall i, j | 0 <= i < |tables| && 0 <= j < |tables[i]| :: RowFits(tables[i][j])
  }

  lemma {:induction false} JoinFits(items: seq<seq<Bytes>>)
    requires forall i | 0 <= i < |items| :: AllFit(items[i])
    ensures AllFit(Join(items))
  {
    if items != [] { JoinFits(items[1..]); }
  }

  lemma {:induction false} AddIsFine(c: Collection, key: Bytes, items: seq<seq<Bytes>>, kind: Command -> Kind)
    requires Known(kind) && Fits(key) && Items(c, items) && 2 + 2 * |items| <= INT_MAX
    requires forall i | 0 <= i < |items| :: AllFit(items[i])
    ensures Fine([AddCmd(c, key, items)], kind)
  {
    hide OpNamed, UpperAll, Fine;
    AddResolves(c);
    JoinFits(items);
    GroupJoin(items, Width(c));
    assert |AddCmd(c, key, items)| == 2 + Width(c) * |items|;
    assert Width(c) * |items| <= 2 * |items| by { if Width(c) == 1 { assert Width(c) * |items| == |items|; } }
    assert OpOf(AddCmd(c, key, items)) == ADD(c);
    FineOne(AddCmd(c, key, items), kind);
  }

  lemma {:induction false} ChunksAreFine(c: Collection, key: Bytes, items: seq<seq<Bytes>>, limit: nat,
                                         kind: Command -> Kind)
    requires Known(kind) && Fits(key) && Items(c, items) && 0 < limit && 2 + 2 * limit <= INT_MAX
    requires forall i | 0 <= i < |items| :: AllFit(items[i])
    ensures Fine(S.Chunks(c, key, items, limit), kind)
    decreases |items|
  {
    hide Fine, Known, AllFit, AddCmd;
    FineNone(kind);
    if items != [] {
      var n := Min(limit, |items|);
      AddIsFine(c, key, items[..n], kind);
      ChunksAreFine(c, key, items[n..], limit, kind);
      FineConcat([AddCmd(c, key, items[..n])], S.Chunks(c, key, items[n..], limit), kind);
    }
  }

  lemma {:induction false} RowIsFine(row: S.Row, limit: nat, kind: Command -> Kind)
    requires Known(kind) && RowFits(row) && 0 < limit && 2 + 2 * limit <= INT_MAX
    ensures Fine(S.ValueLog(row, limit) + S.ExpireLog(row), kind)
  {
    hide Fine, Known, AllFit, SetCmd, PExpireAtCmd, S.Chunks;
    match row.obj {
      case StrObj(b) => SetIsFine(row.key, b, kind);
      case CollObj(c, items) => ChunksAreFine(c, row.key, items, limit, kind);
    }
    FineNone(kind);
    ExpiryIsFine(row.key, S.GetExpire(row), kind);
    FineConcat(S.ValueLog(row, limit), S.ExpireLog(row), kind);
  }

  lemma {:induction false} RowsAreFine(rows: seq<S.Row>, limit: nat, kind: Command -> Kind)
    requires Known(kind) && 0 < limit && 2 + 2 * limit <= INT_MAX && forall j | 0 <= j < |rows| :: RowFits(rows[j])
    ensures Fine(S.RowsLog(rows, limit), kind)
  {
    hide Fine, Known, RowFits, S.ValueLog, S.ExpireLog;
    FineNone(kind);
    if rows != [] {
      RowIsFine(rows[0], limit, kind);
      RowsAreFine(rows[1..], limit, kind);
      FineConcat(S.ValueLog(rows[0], limit) + S.ExpireLog(rows[0]), S.RowsLog(rows[1..], limit), kind);
    }
  }

  /** So can every snapshot. */
  lemma {:induction false} SnapshotIsFine(tables: seq<seq<S.Row>>, j: nat, limit: nat, kind: Command -> Kind)
    requires Known(kind) && 0 < limit && 2 + 2 * limit <= INT_MAX && TablesFit(tables) && j <= |tables| <= INT_MAX
    ensures Fine(S.SnapshotLog(tables, j, limit), kind)
    decreases |tables| - j
  {
    hide Fine, Known, RowFits, S.RowsLog, SelectCmd;
    FineNone(kind);
    if j < |tables| {
      SnapshotIsFine(tables, j + 1, limit, kind);
      SelectIsFine(j, kind);
      RowsAreFine(tables[j], limit, kind);
      FineConcat([SelectCmd(j)], S.RowsLog(tables[j], limit), kind);
      FineConcat(S.TableLog(j, tables[j], limit), S.SnapshotLog(tables, j + 1, limit), kind);
    }
  }
}
