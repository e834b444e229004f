/** Commands as a master executes them: t_string.c, expire.c and db.c, with the clock `now`
    standing still while a command runs.  The outcome names the database afterwards and the
    commands handed to feedAppendOnlyFile, in order. */
module Live {
  import opened Basics
  import opened Decimal
  import opened Resp
  import opened Dataset

  datatype Result = Result(db: Db, fed: seq<Command>)

  // ---------------------------------------------------------------- arithmetic on long long

  const TWO_63 := LONG_MAX + 1
  const TWO_64 := 2 * TWO_63

  /** Two's complement. */
  function Wrap(x: int): Long { (x + TWO_63) % TWO_64 - TWO_63 }

  datatype Unit = Seconds | Milliseconds

  function ToMs(v: Long, u: Unit): Long { if u.Seconds? then Wrap(v * 1000) else v }

  // ---------------------------------------------------------------- expiry

  predicate IsExpired(db: Db, key: Bytes, now: Long) {
    key in db && db[key].expire.Some? && 0 <= db[key].expire.value < now
  }

  function DelName(lazy: bool): Bytes { if lazy then UNLINK_NAME else DEL_NAME }

  /** expireIfNeeded, on a master. */
  function Reap(db: Db, key: Bytes, now: Long, lazy: bool): Result {
    if IsExpired(db, key, now) then Result(Delete(db, [key]), [[DelName(lazy), key]]) else Result(db, [])
  }

  // ---------------------------------------------------------------- SET

  const EX: Bytes := [69, 88]
  const PX: Bytes := [80, 88]
  const NX: Bytes := [78, 88]
  const XX: Bytes := [88, 88]

  /** A C string comparison without regard to case: an argument counts up to its first NUL. */
  predicate Spells(arg: Bytes, name: Bytes)
    requires |name| == 2
  {
    |arg| >= 2 && Upper(arg[0]) == name[0] && Upper(arg[1]) == name[1] && (|arg| == 2 || arg[2] == 0)
  }

  datatype Options = Options(nx: bool, xx: bool, ex: Option<Bytes>, px: Option<Bytes>)

  const NO_OPTIONS := Options(false, false, None, None)

  /** The option loop of setCommand; `args` is what follows key and value. */
  function ParseOptions(args: seq<Bytes>, o: Options): Option<Options>
    decreases |args|
  {
    if args == [] then Some(o)
    else if Spells(args[0], NX) && !o.xx then ParseOptions(args[1..], o.(nx := true))
    else if Spells(args[0], XX) && !o.nx then ParseOptions(args[1..], o.(xx := true))
    else if Spells(args[0], EX) && o.px.None? && |args| > 1 then ParseOptions(args[2..], o.(ex := Some(args[1])))
    else if Spells(args[0], PX) && o.ex.None? && |args| > 1 then ParseOptions(args[2..], o.(px := Some(args[1])))
    else None
  }

  /** setGenericCommand with the expiry argument already separated by unit. */
  function SetGeneric(db: Db, argv: Command, key: Bytes, val: Bytes, o: Options, now: Long, lazy: bool): Result {
    var unit := if o.ex.Some? then Seconds else Milliseconds;
    var given := if o.ex.Some? then o.ex else o.px;
    var ms := if given.Some? then ParseLong(given.value) else None;
    if given.Some? && (ms.None? || ms.value <= 0) then Result(db, [])
    else
      var r := Reap(db, key, now, lazy);
      if (o.nx && key in r.db) || (o.xx && key !in r.db) then r
      else
        var expire := if given.Some? then Some(Wrap(now + ToMs(ms.value, unit))) else None;
        Result(SetKey(r.db, key, val, expire), r.fed + [argv])
  }

  // ---------------------------------------------------------------- EXPIRE and its variants

  predicate IsExpire(op: Op) { op == EXPIRE || op == PEXPIRE || op == EXPIREAT || op == PEXPIREAT }

  function UnitOf(op: Op): Unit { if op == EXPIRE || op == EXPIREAT || op == SETEX then Seconds else Milliseconds }

  function BaseOf(op: Op, now: Long): Long { if op == EXPIREAT || op == PEXPIREAT then 0 else now }

  function ExpireGeneric(db: Db, argv: Command, op: Op, now: Long, lazy: bool): Result
    requires |argv| == 3
  {
    match ParseLong(argv[2])
    case None => Result(db, [])
    case Some(v) =>
      var when := Wrap(ToMs(v, UnitOf(op)) + BaseOf(op, now));
      var r := Reap(db, argv[1], now, lazy);
      if argv[1] !in r.db then r
      else if when <= now then Result(Delete(r.db, [argv[1]]), r.fed + [[DelName(lazy), argv[1]]])
      else Result(SetExpire(r.db, argv[1], when), r.fed + [argv])
  }

  // ---------------------------------------------------------------- DEL

  datatype Deletion = Deletion(db: Db, fed: seq<Command>, count: nat)

  /** The loop of delGenericCommand. */
  function DeleteKeys(db: Db, keys: seq<Bytes>, now: Long, lazy: bool): Deletion
    decreases |keys|
  {
    if keys == [] then Deletion(db, [], 0)
    else
      var r := Reap(db, keys[0], now, lazy);
      var rest := DeleteKeys(Delete(r.db, [keys[0]]), keys[1..], now, lazy);
      Deletion(rest.db, r.fed + rest.fed, rest.count + if keys[0] in r.db then 1 else 0)
  }

  // ---------------------------------------------------------------- any command

  predicate WellFormedAdd(argv: Command, c: Collection) {
    |argv| >= 2 + Width(c) && (Width(c) == 2 ==> |argv| % 2 == 0)
  }

  /** RPUSH and HMSET always count as a change; SADD and ZADD only when something is new. */
  function ExecuteAdd(db: Db, argv: Command, c: Collection, now: Long, lazy: bool): Result {
    if !WellFormedAdd(argv, c) then Result(db, [])
    else
      var r := Reap(db, argv[1], now, lazy);
      if !OfType(Lookup(r.db, argv[1], c), c) then r
      else
        var d := Add(r.db, argv, c);
        Result(d, r.fed + if d != r.db || c.Hashes? then [argv] else [])
  }

  function ExecuteDel(db: Db, argv: Command, now: Long, lazy: bool): Result
    requires |argv| >= 2
  {
    var d := DeleteKeys(db, argv[1..], now, lazy);
    Result(d.db, d.fed + if d.count > 0 then [argv] else [])
  }

  function ExecuteSet(db: Db, argv: Command, now: Long, lazy: bool): Result
    requires |argv| >= 3
  {
    match ParseOptions(argv[3..], NO_OPTIONS)
    case None => Result(db, [])
    case Some(o) => SetGeneric(db, argv, argv[1], argv[2], o, now, lazy)
  }

  function ExecuteSetEx(db: Db, argv: Command, op: Op, now: Long, lazy: bool): Result
    requires |argv| == 4
  {
    var o := if op == SETEX then NO_OPTIONS.(ex := Some(argv[2])) else NO_OPTIONS.(px := Some(argv[2]));
    SetGeneric(db, argv, argv[1], argv[3], o, now, lazy)
  }

  /** A command of a client whose selected database is `db`; a wrong number of arguments is refused. */
  function Execute(db: Db, argv: Command, now: Long, lazy: bool, other: Other): Result {
    var op := OpOf(argv);
    if op == SET && |argv| >= 3 then ExecuteSet(db, argv, now, lazy)
    else if (op == SETEX || op == PSETEX) && |argv| == 4 then ExecuteSetEx(db, argv, op, now, lazy)
    else if IsExpire(op) && |argv| == 3 then ExpireGeneric(db, argv, op, now, lazy)
    else if op == DEL && |argv| >= 2 then ExecuteDel(db, argv, now, lazy)
    else if op.ADD? then ExecuteAdd(db, argv, op.to, now, lazy)
    else if op == OTHER then
      match other(argv, db)
      case None => Result(db, [])
      case Some(d) => Result(d, [argv])
    else Result(db, [])
  }
}
