/** Whole runs of a server that feeds its append only file: several databases, expiries, and
    the points at which the selected database is forgotten. */
module Propagation {
  import opened Basics
  import opened Decimal
  import opened Framing
  import opened Resp
  import opened CommandLog
  import opened Dataset
  import opened Live
  import opened Feed

  // ---------------------------------------------------------------- feedAppendOnlyFile

  function Selecting(sel: Option<nat>, id: nat): seq<Command> { if sel == Some(id) then [] else [SelectCmd(id)] }

  /** The commands written for one call. */
  function FeedOne(sel: Option<nat>, id: nat, argv: Command, now: Long): Option<seq<Command>> {
    Both(Some(Selecting(sel, id)), Translate(argv, now))
  }

  function FeedAll(sel: Option<nat>, id: nat, fed: seq<Command>, now: Long): Option<seq<Command>>
    decreases |fed|
  {
    if fed == [] then Some([]) else Both(FeedOne(sel, id, fed[0], now), FeedAll(Some(id), id, fed[1..], now))
  }

  /** A database is selected at most once per call sequence. */
  lemma {:induction false} FeedAllSelectsOnce(sel: Option<nat>, id: nat, fed: seq<Command>, now: Long)
    requires fed != []
    ensures FeedAll(sel, id, fed, now) == Both(Some(Selecting(sel, id)), TranslateAll(fed, now))
    decreases |fed|
  {
    hide Translate, Both, SelectCmd;
    var rest := fed[1..];
    BothLaws(Some(Selecting(sel, id)), Translate(fed[0], now), TranslateAll(rest, now));
    if rest != [] {
      FeedAllSelectsOnce(Some(id), id, rest, now);
      BothLaws(TranslateAll(rest, now), None, None);
    }
  }

  /** What the callers guarantee: the command was executed, so its arguments are in place. */
  predicate Executed(argv: Command) {
    var op := OpOf(argv);
    (IsExpire(op) ==> |argv| == 3) && (op == SETEX || op == PSETEX ==> |argv| == 4) &&
    (op == SET ==> |argv| >= 3 && (|argv| > 3 ==> var last := argv[|argv| - 1]; !Spells(last, EX) && !Spells(last, PX)))
  }

  lemma {:induction false} DeletionIsExecuted(key: Bytes, lazy: bool)
    ensures Executed([DelName(lazy), key])
  {
    DelResolves();
    assert UpperAll(UNLINK_NAME) == UNLINK_NAME;
  }

  lemma {:induction false} SetIsExecuted(db: Db, argv: Command, now: Long, lazy: bool)
    requires OpOf(argv) == SET && |argv| >= 3 && argv in ExecuteSet(db, argv, now, lazy).fed
    ensures Executed(argv)
  {
    hide OpOf, ParseOptions, SetGeneric, Spells, ParseLong;
    if |argv| > 3 && ParseOptions(argv[3..], NO_OPTIONS).Some? {
      var o := ParseOptions(argv[3..], NO_OPTIONS).value;
      OneUnit(argv[3..], NO_OPTIONS, o);
      SetGenericOutcome(db, argv, argv[1], argv[2], o, now, lazy);
      NotADeletion(argv, argv[1], lazy);
      assert Stores(db, argv[1], o, now);
      LastArgument(argv[3..], NO_OPTIONS, o);
    }
  }

  /** Whatever a command propagates meets what FeedAppendOnlyFile asks for. */
  lemma {:induction false} PropagatedIsExecuted(db: Db, argv: Command, now: Long, lazy: bool, other: Other, c: Command)
    requires c in Execute(db, argv, now, lazy, other).fed
    ensures Executed(c)
  {
    hide OpOf, Executed, Spells, ParseLong, ParseOptions, Add, Delete, SetKey, SetExpire, Wrap;
    if c == argv {
      if OpOf(argv) == SET { SetIsExecuted(db, argv, now, lazy); }
      else { OthersAreExecuted(argv, db, now, lazy, other); }
    } else {
      var key := PropagatedDeletion(db, argv, now, lazy, other, c);
      DeletionIsExecuted(key, lazy);
    }
  }

  lemma {:induction false} OthersAreExecuted(argv: Command, db: Db, now: Long, lazy: bool, other: Other)
    requires OpOf(argv) != SET && argv in Execute(db, argv, now, lazy, other).fed
    ensures Executed(argv)
  {
    hide OpOf, ExecuteSetEx, ExpireGeneric, ExecuteDel, ExecuteAdd;
  }

  lemma SetGenericFed(db: Db, argv: Command, key: Bytes, val: Bytes, o: Options, now: Long, lazy: bool, c: Command)
    requires c in SetGeneric(db, argv, key, val, o, now, lazy).fed && c != argv
    ensures c == [DelName(lazy), key]
  {
    hide ParseLong, SetKey, Wrap, DelName, Delete;
  }

  lemma ExpireGenericFed(db: Db, argv: Command, op: Op, now: Long, lazy: bool, c: Command)
    requires |argv| == 3 && c in ExpireGeneric(db, argv, op, now, lazy).fed && c != argv
    ensures c == [DelName(lazy), argv[1]]
  {
    hide ParseLong, SetExpire, Wrap, DelName, Delete;
  }

  lemma AddFed(db: Db, argv: Command, t: Collection, now: Long, lazy: bool, c: Command)
    requires c in ExecuteAdd(db, argv, t, now, lazy).fed && c != argv
    ensures |argv| >= 2 && c == [DelName(lazy), argv[1]]
  {
    hide Add, DelName, Delete;
  }

  lemma {:induction false} DelFed(db: Db, argv: Command, now: Long, lazy: bool, c: Command) returns (key: Bytes)
    requires |argv| >= 2 && c in ExecuteDel(db, argv, now, lazy).fed && c != argv
    ensures c == [DelName(lazy), key] && key in argv
  {
    hide DelName, DeleteKeys;
    DeleteKeysFed(db, argv[1..], now, lazy);
    var gone := ReapedKeys(db, argv[1..], now);
    var i :| 0 <= i < |gone| && c == Dels(gone, lazy)[i];
    key := gone[i];
    ReapedAmong(db, argv[1..], now, lazy, key);
  }

  /** Beside the command itself only deletions of its keys are propagated. */
  lemma {:induction false} PropagatedDeletion(db: Db, argv: Command, now: Long, lazy: bool, other: Other, c: Command)
      returns (key: Bytes)
    requires c in Execute(db, argv, now, lazy, other).fed && c != argv
    ensures c == [DelName(lazy), key] && key in argv
  {
    hide OpOf, SetGeneric, ExpireGeneric, ExecuteDel, ExecuteAdd, DelName, ParseOptions;
    var op := OpOf(argv);
    if op == SET {
      key := argv[1];
      SetGenericFed(db, argv, key, argv[2], ParseOptions(argv[3..], NO_OPTIONS).value, now, lazy, c);
    } else if op == SETEX || op == PSETEX {
      key := argv[1];
      var o := if op == SETEX then NO_OPTIONS.(ex := Some(argv[2])) else NO_OPTIONS.(px := Some(argv[2]));
      SetGenericFed(db, argv, key, argv[3], o, now, lazy, c);
    } else if IsExpire(op) {
      key := argv[1];
      ExpireGenericFed(db, argv, op, now, lazy, c);
    } else if op == DEL {
      key := DelFed(db, argv, now, lazy, c);
    } else {
      AddFed(db, argv, op.to, now, lazy, c);
      key := argv[1];
    }
  }

  /** catAppendOnlyExpireAtCommand. */
  method CatExpireAtCommand(dst: Bytes, op: Op, key: Bytes, seconds: Bytes, now: Long) returns (out: Bytes)
    ensures out == dst + EmitCommand(ExpireAt(op, key, seconds, now))
  {
    hide EmitCommand, Print;
    var when := Strtoll(seconds);
    if op == EXPIRE || op == SETEX || op == EXPIREAT { when := Wrap(when * 1000); }
    if op != EXPIREAT && op != PEXPIREAT { when := Wrap(when + now); } else { WrapLong(when); }
    out := CatGenericCommand(dst, [PEXPIREAT_NAME, key, Print(when)]);
  }

  lemma WrapLong(v: Long)
    ensures Wrap(v + 0) == v
  {}

  function Later(found: Option<Bytes>, rest: Option<Bytes>): Option<Bytes> { if rest.Some? then rest else found }

  /** The option scan: the word after the last EX and after the last PX. */
  method FindExpiry(argv: Command) returns (exarg: Option<Bytes>, pxarg: Option<Bytes>)
    requires |argv| > 3 && var last := argv[|argv| - 1]; !Spells(last, EX) && !Spells(last, PX)
    ensures exarg == LastAfter(argv[3..], EX) && pxarg == LastAfter(argv[3..], PX)
  {
    hide Spells;
    exarg, pxarg := None, None;
    for i := 3 to |argv|
      invariant Later(exarg, LastAfter(argv[i..], EX)) == LastAfter(argv[3..], EX)
      invariant Later(pxarg, LastAfter(argv[i..], PX)) == LastAfter(argv[3..], PX)
    {
      LastAfterStep(argv[i..], EX);
      LastAfterStep(argv[i..], PX);
      assert argv[i..][1..] == argv[i + 1..];
      if Spells(argv[i], EX) { exarg := Some(argv[i + 1]); }
      if Spells(argv[i], PX) { pxarg := Some(argv[i + 1]); }
    }
  }

  lemma {:induction false} LastAfterStep(args: seq<Bytes>, name: Bytes)
    requires |name| == 2 && args != [] && !Spells(args[|args| - 1], name)
    ensures Spells(args[0], name) ==> |args| > 1
    ensures LastAfter(args, name) ==
            Later(if Spells(args[0], name) then Some(args[1]) else None, LastAfter(args[1..], name))
  {
    hide Spells;
  }

  /** SET with options, as SET and PEXPIREAT. */
  method CatSetCommand(dst: Bytes, argv: Command, now: Long) returns (ok: bool, buf: Bytes)
    requires OpOf(argv) == SET && |argv| > 3 && Executed(argv)
    ensures var t := TranslateSet(argv, now);
            ok == t.Some? && (ok ==> buf == dst + EmitLog(t.value))
  {
    hide EmitLog, EmitCommand, ExpireAt, OpOf, LastAfter, Spells;
    ok := true;
    buf := CatGenericCommand(dst, argv[..3]);
    var exarg, pxarg := FindExpiry(argv);
    if exarg.Some? && pxarg.Some? { return false, []; }
    EmitOne(argv[..3]);
    if exarg.Some? {
      buf := CatExpireAtCommand(buf, EXPIRE, argv[1], exarg.value, now);
      EmitPair(argv[..3], ExpireAt(EXPIRE, argv[1], exarg.value, now));
    }
    if pxarg.Some? {
      buf := CatExpireAtCommand(buf, PEXPIRE, argv[1], pxarg.value, now);
      EmitPair(argv[..3], ExpireAt(PEXPIRE, argv[1], pxarg.value, now));
    }
  }

  method CatTranslated(dst: Bytes, argv: Command, now: Long) returns (ok: bool, buf: Bytes)
    requires Executed(argv)
    ensures var t := Translate(argv, now);
            ok == t.Some? && (ok ==> buf == dst + EmitLog(t.value))
  {
    hide EmitLog, EmitCommand, ExpireAt, OpOf, LastAfter, Spells, TranslateSet;
    buf, ok := dst, true;
    var op := OpOf(argv);
    if op == EXPIRE || op == PEXPIRE || op == EXPIREAT {
      buf := CatExpireAtCommand(buf, op, argv[1], argv[2], now);
      EmitOne(ExpireAt(op, argv[1], argv[2], now));
    } else if op == SETEX || op == PSETEX {
      buf := CatGenericCommand(buf, SetCmd(argv[1], argv[3]));
      buf := CatExpireAtCommand(buf, op, argv[1], argv[2], now);
      EmitPair(SetCmd(argv[1], argv[3]), ExpireAt(op, argv[1], argv[2], now));
    } else if op == SET && |argv| > 3 {
      ok, buf := CatSetCommand(buf, argv, now);
    } else {
      buf := CatGenericCommand(buf, argv);
      EmitOne(argv);
    }
  }

  /** feedAppendOnlyFile up to the buffer it appends; `ok` is false where the assertion fails. */
  method FeedAppendOnlyFile(selected: int, id: nat, argv: Command, now: Long)
      returns (ok: bool, selected': int, buf: Bytes)
    requires Executed(argv)
    ensures var log := FeedOne(if selected < 0 then None else Some(selected), id, argv, now);
            ok == log.Some? && selected' == id && (ok ==> buf == EmitLog(log.value))
  {
    hide EmitLog, EmitCommand, SelectCmd, Translate, Executed;
    buf, selected' := [], selected;
    ghost var sel := if selected < 0 then None else Some(selected);
    if id != selected' {
      buf := CatGenericCommand(buf, SelectCmd(id));
      selected' := id;
    }
    SelectBytes(sel, id);
    ok, buf := CatTranslated(buf, argv, now);
    if ok { EmitConcat(Selecting(sel, id), Translate(argv, now).value); }
  }

  lemma {:induction false} SelectBytes(sel: Option<nat>, id: nat)
    ensures EmitLog(Selecting(sel, id)) == if sel == Some(id) then [] else EmitCommand(SelectCmd(id))
  {
    hide EmitCommand, EmitLog, SelectCmd;
    EmitNone();
    EmitOne(SelectCmd(id));
  }

  // ---------------------------------------------------------------- replaying one call

  /** A loading server holds the live databases and has the one last selected selected. */
  predicate Mirrors(r: Server, dbs: seq<Db>, sel: Option<nat>) {
    r.Valid() && r.dbs == dbs && (sel.Some? ==> sel.value == r.sel)
  }

  /** Without SELECT, replaying works on the selected database alone. */
  lemma {:induction false} ReplaySelected(r: Server, log: seq<Command>, other: Other)
    requires r.Valid() && NoSelect(log)
    ensures Replay(r, log, other) == r.(dbs := r.dbs[r.sel := ReplayTo(r.dbs[r.sel], log, other)])
    decreases |log|
  {
    hide ApplyTo, OpOf;
    if log == [] {
      assert r.dbs[r.sel := r.dbs[r.sel]] == r.dbs;
    } else {
      var s := Apply(r, log[0], other);
      assert OpOf(log[0]) != SELECT;
      ReplaySelected(s, log[1..], other);
      assert s.dbs[r.sel := ReplayTo(s.dbs[r.sel], log[1..], other)] ==
             r.dbs[r.sel := ReplayTo(s.dbs[r.sel], log[1..], other)];
    }
  }

  lemma {:induction false} SelectReplays(r: Server, dbs: seq<Db>, sel: Option<nat>, id: nat, other: Other)
    requires Mirrors(r, dbs, sel) && id < |dbs|
    ensures Replay(r, Selecting(sel, id), other) == r.(sel := id)
  {
    hide Replay, Apply;
    if sel == Some(id) {
      ReplayNone(r, other);
    } else {
      ReplayOne(r, SelectCmd(id), other);
      ApplySelect(r, id, other);
    }
  }

  /** Writing what a command propagates keeps a loading server in step with the live one. */
  lemma {:induction false} FeedReplays(r: Server, dbs: seq<Db>, sel: Option<nat>, id: nat, fed: seq<Command>, d: Db,
                                       now: Long, other: Other)
    requires Mirrors(r, dbs, sel) && id < |dbs| && Carries(dbs[id], fed, now, other, d)
    ensures FeedAll(sel, id, fed, now).Some?
    ensures Mirrors(Replay(r, FeedAll(sel, id, fed, now).value, other), dbs[id := d],
                    if fed == [] then sel else Some(id))
  {
    hide Replay, ReplayTo, NoSelect, FeedAll, Selecting;
    if fed == [] {
      CarriesNoCommands(dbs[id], now, other, d);
      FeedNoCommands(sel, id, now);
      ReplayNone(r, other);
      assert dbs[id := dbs[id]] == dbs;
    } else {
      FeedAllSelectsOnce(sel, id, fed, now);
      var t := TranslateAll(fed, now).value;
      ReplayConcat(r, Selecting(sel, id), t, other);
      SelectReplays(r, dbs, sel, id, other);
      ReplaySelected(r.(sel := id), t, other);
    }
  }

  lemma CarriesNoCommands(db: Db, now: Long, other: Other, d: Db)
    requires Carries(db, [], now, other, d)
    ensures d == db
  {}

  lemma FeedNoCommands(sel: Option<nat>, id: nat, now: Long)
    ensures FeedAll(sel, id, [], now) == Some([])
  {}

  // ---------------------------------------------------------------- runs

  /** A client command, a key removed by the expiry cycle, or the selected database forgotten
      (when a rewrite starts and when its file takes over). */
  datatype Event = Call(id: nat, argv: Command, now: Long) | Expire(id: nat, key: Bytes, now: Long) | Forget

  /** `written` are the commands written so far. */
  datatype Master = Master(dbs: seq<Db>, sel: Option<nat>, written: seq<Command>)

  predicate Enabled(m: Master, e: Event) {
    match e
    case Call(id, argv, now) => id < |m.dbs| && !Stops(m.dbs[id], argv, now)
    case Expire(id, key, now) => id < |m.dbs|
    case Forget => true
  }

  function After(m: Master, id: nat, o: Result, now: Long): Master
    requires id < |m.dbs|
  {
    var log := FeedAll(m.sel, id, o.fed, now);
    Master(m.dbs[id := o.db], if o.fed == [] then m.sel else Some(id), m.written + if log.Some? then log.value else [])
  }

  function Step(m: Master, e: Event, lazy: bool, other: Other): (r: Master)
    requires Enabled(m, e)
    ensures |r.dbs| == |m.dbs|
  {
    match e
    case Call(id, argv, now) => After(m, id, Execute(m.dbs[id], argv, now, lazy, other), now)
    case Expire(id, key, now) => After(m, id, Reap(m.dbs[id], key, now, lazy), now)
    case Forget => m.(sel := None)
  }

  /** Once the selected database is forgotten, whatever is written next begins with a SELECT. */
  lemma {:induction false} ForgetReselects(m: Master, id: nat, fed: seq<Command>, now: Long)
    requires fed != [] && TranslateAll(fed, now).Some?
    ensures var n := Step(m, Forget, false, (c, d) => None);
            && n.dbs == m.dbs && n.written == m.written
            && FeedAll(n.sel, id, fed, now) == Some([SelectCmd(id)] + TranslateAll(fed, now).value)
  {
    hide FeedAll, TranslateAll, SelectCmd;
    FeedAllSelectsOnce(None, id, fed, now);
  }

  predicate Runs(m: Master, es: seq<Event>, lazy: bool, other: Other)
    decreases |es|
  {
    es == [] || (Enabled(m, es[0]) && Runs(Step(m, es[0], lazy, other), es[1..], lazy, other))
  }

  function Run(m: Master, es: seq<Event>, lazy: bool, other: Other): Master
    requires Runs(m, es, lazy, other)
    decreases |es|
  {
    if es == [] then m else Run(Step(m, es[0], lazy, other), es[1..], lazy, other)
  }

  /** Replaying what was written from `base` gives the live databases. */
  predicate Faith(m: Master, base: Server, other: Other) {
    base.Valid() && Mirrors(Replay(base, m.written, other), m.dbs, m.sel)
  }

  lemma {:induction false} AfterKeepsFaith(m: Master, id: nat, o: Result, now: Long, base: Server, other: Other)
    requires Faith(m, base, other) && id < |m.dbs| && Carries(m.dbs[id], o.fed, now, other, o.db)
    ensures Faith(After(m, id, o, now), base, other)
  {
    hide Replay, Mirrors, Carries, FeedAll;
    var r := Replay(base, m.written, other);
    FeedReplays(r, m.dbs, m.sel, id, o.fed, o.db, now, other);
    ReplayConcat(base, m.written, FeedAll(m.sel, id, o.fed, now).value, other);
  }

  lemma {:induction false} StepKeepsFaith(m: Master, e: Event, lazy: bool, base: Server, other: Other)
    requires Faith(m, base, other) && Enabled(m, e)
    ensures Faith(Step(m, e, lazy, other), base, other)
  {
    hide Replay, Carries, Execute, Reap, After, Stops;
    match e
    case Call(id, argv, now) =>
      ExecuteIsFaithful(m.dbs[id], argv, now, lazy, other);
      AfterKeepsFaith(m, id, Execute(m.dbs[id], argv, now, lazy, other), now, base, other);
    case Expire(id, key, now) =>
      CarriesReap(m.dbs[id], key, now, lazy, other);
      AfterKeepsFaith(m, id, Reap(m.dbs[id], key, now, lazy), now, base, other);
    case Forget =>
  }

  lemma {:induction false} RunKeepsFaith(m: Master, es: seq<Event>, lazy: bool, base: Server, other: Other)
    requires Faith(m, base, other) && Runs(m, es, lazy, other)
    ensures Faith(Run(m, es, lazy, other), base, other)
    decreases |es|
  {
    hide Faith, Step, Enabled;
    if es != [] {
      StepKeepsFaith(m, es[0], lazy, base, other);
      RunKeepsFaith(Step(m, es[0], lazy, other), es[1..], lazy, base, other);
    }
  }

  /** Replaying everything written during any run, from a server that held the same databases
      when writing began, gives the databases of the live server, whatever was selected. */
  lemma {:induction false} FeedPreservesMeaning(dbs: seq<Db>, es: seq<Event>, lazy: bool, base: Server, other: Other)
    requires base.Valid() && base.dbs == dbs && Runs(Master(dbs, None, []), es, lazy, other)
    ensures var m := Run(Master(dbs, None, []), es, lazy, other);
            Replay(base, m.written, other).dbs == m.dbs
  {
    hide Replay, Run;
    ReplayNone(base, other);
    RunKeepsFaith(Master(dbs, None, []), es, lazy, base, other);
  }
}
