/** The keyspace, and what the commands found in an append only file do to it while it is
    being loaded (t_string.c, t_list.c, t_set.c, t_hash.c, t_zset.c, expire.c, db.c).

    Scores of sorted sets are kept as the text they are written as.  Commands the model does
    not interpret act on the selected database through the parameter `other`; `None` says
    that the command changed nothing and is not propagated. */
module Dataset {
  import opened Basics
  import opened Decimal
  import opened Resp

  datatype Value =
    | Str(bytes: Bytes)
    | List(items: seq<Bytes>)
    | Set(members: set<Bytes>)
    | Hash(fields: map<Bytes, Bytes>)
    | ZSet(scores: map<Bytes, Bytes>)

  /** A C `long long`. */
  type Long = x: int | -LONG_MAX - 1 <= x <= LONG_MAX

  /** Absolute expiry in milliseconds, if any. */
  datatype Entry = Entry(value: Value, expire: Option<Long>)

  type Db = map<Bytes, Entry>

  /** A client: the selected database, and all of them. */
  datatype Server = Server(sel: nat, dbs: seq<Db>)
  {
    predicate Valid() { sel < |dbs| <= INT_MAX }
  }

  type Other = (Command, Db) -> Option<Db>

  // ---------------------------------------------------------------- command names

  datatype Collection = Lists | Sets | Hashes | ZSets

  datatype Op =
    | SELECT | SET | SETEX | PSETEX | EXPIRE | PEXPIRE | EXPIREAT | PEXPIREAT | DEL | ADD(to: Collection) | OTHER

  function Upper(b: Byte): Byte { if 97 <= b <= 122 then b - 32 else b }

  function UpperAll(s: Bytes): Bytes { seq(|s|, i requires 0 <= i < |s| => Upper(s[i])) }

  const SELECT_NAME: Bytes := [83, 69, 76, 69, 67, 84]
  const SET_NAME: Bytes := [83, 69, 84]
  const SETEX_NAME: Bytes := [83, 69, 84, 69, 88]
  const PSETEX_NAME: Bytes := [80, 83, 69, 84, 69, 88]
  const EXPIRE_NAME: Bytes := [69, 88, 80, 73, 82, 69]
  const PEXPIRE_NAME: Bytes := [80, 69, 88, 80, 73, 82, 69]
  const EXPIREAT_NAME: Bytes := [69, 88, 80, 73, 82, 69, 65, 84]
  const PEXPIREAT_NAME: Bytes := [80, 69, 88, 80, 73, 82, 69, 65, 84]
  const DEL_NAME: Bytes := [68, 69, 76]
  const UNLINK_NAME: Bytes := [85, 78, 76, 73, 78, 75]
  const RPUSH_NAME: Bytes := [82, 80, 85, 83, 72]
  const SADD_NAME: Bytes := [83, 65, 68, 68]
  const HMSET_NAME: Bytes := [72, 77, 83, 69, 84]
  const ZADD_NAME: Bytes := [90, 65, 68, 68]

  function AddName(c: Collection): Bytes {
    match c case Lists => RPUSH_NAME case Sets => SADD_NAME case Hashes => HMSET_NAME case ZSets => ZADD_NAME
  }

  function OpNamed(n: Bytes): Op {
    if n == SELECT_NAME then SELECT
    else if n == SET_NAME then SET
    else if n == SETEX_NAME then SETEX
    else if n == PSETEX_NAME then PSETEX
    else if n == EXPIRE_NAME then EXPIRE
    else if n == PEXPIRE_NAME then PEXPIRE
    else if n == EXPIREAT_NAME then EXPIREAT
    else if n == PEXPIREAT_NAME then PEXPIREAT
    else if n == DEL_NAME || n == UNLINK_NAME then DEL
    else if n == RPUSH_NAME then ADD(Lists)
    else if n == SADD_NAME then ADD(Sets)
    else if n == HMSET_NAME then ADD(Hashes)
    else if n == ZADD_NAME then ADD(ZSets)
    else OTHER
  }

  /** lookupCommand: names are compared without regard to case. */
  function OpOf(argv: Command): Op { if argv == [] then OTHER else OpNamed(UpperAll(argv[0])) }

  lemma SelectResolves()
    ensures OpNamed(UpperAll(SELECT_NAME)) == SELECT
  {
    assert UpperAll(SELECT_NAME) == SELECT_NAME;
  }

  lemma SetResolves()
    ensures OpNamed(UpperAll(SET_NAME)) == SET
  {
    assert UpperAll(SET_NAME) == SET_NAME;
  }

  lemma PExpireAtResolves()
    ensures OpNamed(UpperAll(PEXPIREAT_NAME)) == PEXPIREAT
  {
    assert UpperAll(PEXPIREAT_NAME) == PEXPIREAT_NAME;
  }

  lemma DelResolves()
    ensures OpNamed(UpperAll(DEL_NAME)) == DEL
  {
    assert UpperAll(DEL_NAME) == DEL_NAME;
  }

  lemma AddResolves(c: Collection)
    ensures OpNamed(UpperAll(AddName(c))) == ADD(c)
  {
    match c
    case Lists => assert UpperAll(RPUSH_NAME) == RPUSH_NAME;
    case Sets => assert UpperAll(SADD_NAME) == SADD_NAME;
    case Hashes => assert UpperAll(HMSET_NAME) == HMSET_NAME;
    case ZSets => assert UpperAll(ZADD_NAME) == ZADD_NAME;
  }

  // ---------------------------------------------------------------- adding to collections

  /** Arguments per item: hashes take field and value, sorted sets score and member. */
  function Width(c: Collection): nat { if c.Hashes? || c.ZSets? then 2 else 1 }

  function EmptyOf(c: Collection): Value {
    match c case Lists => List([]) case Sets => Set({}) case Hashes => Hash(map[]) case ZSets => ZSet(map[])
  }

  predicate OfType(v: Value, c: Collection) {
    match c case Lists => v.List? case Sets => v.Set? case Hashes => v.Hash? case ZSets => v.ZSet?
  }

  function AddItem(v: Value, c: Collection, item: seq<Bytes>): (r: Value)
    requires OfType(v, c) && |item| == Width(c)
    ensures OfType(r, c)
  {
    match c
    case Lists => List(v.items + [item[0]])
    case Sets => Set(v.members + {item[0]})
    case Hashes => Hash(v.fields[item[0] := item[1]])
    case ZSets => ZSet(v.scores[item[1] := item[0]])
  }

  predicate Items(c: Collection, items: seq<seq<Bytes>>) { forall i | 0 <= i < |items| :: |items[i]| == Width(c) }

  function AddAll(v: Value, c: Collection, items: seq<seq<Bytes>>): (r: Value)
    requires OfType(v, c) && Items(c, items)
    ensures OfType(r, c)
    decreases |items|
  {
    if items == [] then v else AddAll(AddItem(v, c, items[0]), c, items[1..])
  }

  lemma {:induction false} AddConcat(v: Value, c: Collection, a: seq<seq<Bytes>>, b: seq<seq<Bytes>>)
    requires OfType(v, c) && Items(c, a) && Items(c, b)
    ensures AddAll(v, c, a + b) == AddAll(AddAll(v, c, a), c, b)
    decreases |a|
  {
    if a == [] {
      assert a + b == b;
    } else {
      AddConcat(AddItem(v, c, a[0]), c, a[1..], b);
      assert (a + b)[1..] == a[1..] + b;
    }
  }

  function Join(items: seq<seq<Bytes>>): seq<Bytes> { if items == [] then [] else items[0] + Join(items[1..]) }

  /** Cutting a flat argument list into items again. */
  function Group(args: seq<Bytes>, w: nat): (r: seq<seq<Bytes>>)
    requires w > 0
    ensures forall i | 0 <= i < |r| :: |r[i]| == w
    decreases |args|
  {
    if |args| < w then [] else [args[..w]] + Group(args[w..], w)
  }

  lemma {:induction false} GroupJoin(items: seq<seq<Bytes>>, w: nat)
    requires w > 0 && forall i | 0 <= i < |items| :: |items[i]| == w
    ensures Group(Join(items), w) == items && |Join(items)| == w * |items|
    decreases |items|
  {
    if items != [] {
      GroupJoin(items[1..], w);
      assert Join(items)[..w] == items[0] && Join(items)[w..] == Join(items[1..]);
      assert w * |items| == w + w * (|items| - 1);
    }
  }

  // ---------------------------------------------------------------- commands while loading

  /** getLongLongFromObject accepts the canonical decimal form and nothing else. */
  function ParseLong(s: Bytes): Option<Long> {
    var v := Parse(s);
    if s == Print(v) && -LONG_MAX - 1 <= v <= LONG_MAX then Some(v) else None
  }

  function Lookup(db: Db, key: Bytes, c: Collection): Value { if key in db then db[key].value else EmptyOf(c) }

  function ExpireOf(db: Db, key: Bytes): Option<Long> { if key in db then db[key].expire else None }

  /** RPUSH, SADD, HMSET and ZADD without options; anything malformed is refused. */
  function Add(db: Db, argv: Command, c: Collection): Db {
    if |argv| < 2 + Width(c) || (Width(c) == 2 && |argv| % 2 == 1) || !OfType(Lookup(db, argv[1], c), c) then db
    else
      var items := Group(argv[2..], Width(c));
      db[argv[1] := Entry(AddAll(Lookup(db, argv[1], c), c, items), ExpireOf(db, argv[1]))]
  }

  function SetKey(db: Db, key: Bytes, v: Bytes, expire: Option<Long>): Db { db[key := Entry(Str(v), expire)] }

  /** While loading, an expiry in the past is stored and not acted upon. */
  function SetExpire(db: Db, key: Bytes, when: Long): Db {
    if key in db then db[key := db[key].(expire := Some(when))] else db
  }

  function Delete(db: Db, keys: seq<Bytes>): Db { map k | k in db && k !in keys :: db[k] }

  function ApplyTo(db: Db, argv: Command, other: Other): Db {
    var op := OpOf(argv);
    if op == SET && |argv| == 3 then SetKey(db, argv[1], argv[2], None)
    else if op == PEXPIREAT && |argv| == 3 then
      match ParseLong(argv[2])
      case None => db
      case Some(when) => SetExpire(db, argv[1], when)
    else if op == DEL && |argv| >= 2 then Delete(db, argv[1..])
    else if op.ADD? then Add(db, argv, op.to)
    else
      match other(argv, db)
      case None => db
      case Some(d) => d
  }

  /** selectDb refuses identifiers out of range. */
  function Apply(s: Server, argv: Command, other: Other): (r: Server)
    ensures |r.dbs| == |s.dbs| && (s.Valid() ==> r.Valid())
  {
    if OpOf(argv) == SELECT then
      if |argv| == 2 && ParseLong(argv[1]).Some? && 0 <= ParseLong(argv[1]).value < |s.dbs|
      then s.(sel := ParseLong(argv[1]).value) else s
    else if s.Valid() then s.(dbs := s.dbs[s.sel := ApplyTo(s.dbs[s.sel], argv, other)])
    else s
  }

  function Fold<S>(step: (S, Command) -> S, s: S, log: seq<Command>): S
    decreases |log|
  {
    if log == [] then s else Fold(step, step(s, log[0]), log[1..])
  }

  lemma {:induction false} FoldConcat<S>(step: (S, Command) -> S, s: S, a: seq<Command>, b: seq<Command>)
    ensures Fold(step, s, a + b) == Fold(step, Fold(step, s, a), b)
    decreases |a|
  {
    if a == [] {
      assert a + b == b;
    } else {
      FoldConcat(step, step(s, a[0]), a[1..], b);
      assert (a + b)[1..] == a[1..] + b;
    }
  }

  lemma {:induction false} FoldOne<S>(step: (S, Command) -> S, s: S, argv: Command)
    ensures Fold(step, s, [argv]) == step(s, argv)
  {
    var log := [argv];
    assert log[1..] == [] && log[0] == argv;
  }

  /** Running the commands of a log in order. */
  function Replay(s: Server, log: seq<Command>, other: Other): Server {
    Fold((x: Server, c: Command) => Apply(x, c, other), s, log)
  }

  lemma {:induction false} ReplayNone(s: Server, other: Other)
    ensures Replay(s, [], other) == s
  {}

  lemma {:induction false} ReplayConcat(s: Server, a: seq<Command>, b: seq<Command>, other: Other)
    ensures Replay(s, a + b, other) == Replay(Replay(s, a, other), b, other)
  {
    FoldConcat((x: Server, c: Command) => Apply(x, c, other), s, a, b);
  }

  lemma {:induction false} ReplayOne(s: Server, argv: Command, other: Other)
    ensures Replay(s, [argv], other) == Apply(s, argv, other)
  {
    FoldOne((x: Server, c: Command) => Apply(x, c, other), s, argv);
  }

  function EmptyServer(dbnum: nat): Server
    requires 0 < dbnum <= INT_MAX
  {
    Server(0, seq(dbnum, i => map[]))
  }

  // ---------------------------------------------------------------- commands the log is made of

  function SelectCmd(id: nat): Command { [SELECT_NAME, Print(id)] }
  function SetCmd(key: Bytes, v: Bytes): Command { [SET_NAME, key, v] }
  function PExpireAtCmd(key: Bytes, when: Long): Command { [PEXPIREAT_NAME, key, Print(when)] }
  function DelCmd(key: Bytes): Command { [DEL_NAME, key] }

  lemma {:induction false} ParseExact(n: Long)
    ensures ParseLong(Print(n)) == Some(n)
  {
    ParsePrint(n, []);
    assert Print(n) + [] == Print(n);
  }

  lemma {:induction false} ApplySelect(s: Server, id: nat, other: Other)
    requires s.Valid() && id < |s.dbs|
    ensures Apply(s, SelectCmd(id), other) == s.(sel := id)
  {
    SelectResolves();
    ParseExact(id);
  }

  lemma {:induction false} ApplySet(s: Server, key: Bytes, v: Bytes, other: Other)
    requires s.Valid()
    ensures Apply(s, SetCmd(key, v), other) == s.(dbs := s.dbs[s.sel := SetKey(s.dbs[s.sel], key, v, None)])
  {
    SetResolves();
  }

  lemma {:induction false} ApplyPExpireAt(s: Server, key: Bytes, when: Long, other: Other)
    requires s.Valid()
    ensures Apply(s, PExpireAtCmd(key, when), other) == s.(dbs := s.dbs[s.sel := SetExpire(s.dbs[s.sel], key, when)])
  {
    PExpireAtResolves();
    ParseExact(when);
  }

  function AddCmd(c: Collection, key: Bytes, items: seq<seq<Bytes>>): Command { [AddName(c), key] + Join(items) }

  lemma {:induction false} AddExactly(db: Db, c: Collection, key: Bytes, items: seq<seq<Bytes>>)
    requires Items(c, items) && items != [] && OfType(Lookup(db, key, c), c)
    ensures Add(db, AddCmd(c, key, items), c) ==
            db[key := Entry(AddAll(Lookup(db, key, c), c, items), ExpireOf(db, key))]
  {
    var argv := AddCmd(c, key, items);
    GroupJoin(items, Width(c));
    assert argv[2..] == Join(items);
    if Width(c) == 2 {
      assert |argv| == 2 + 2 * |items|;
    } else {
      assert |argv| == 2 + |items|;
    }
  }

  lemma {:induction false} ApplyAdd(s: Server, c: Collection, key: Bytes, items: seq<seq<Bytes>>, other: Other)
    requires s.Valid() && Items(c, items) && items != [] && OfType(Lookup(s.dbs[s.sel], key, c), c)
    ensures var db := s.dbs[s.sel];
            Apply(s, AddCmd(c, key, items), other) ==
            s.(dbs := s.dbs[s.sel := db[key := Entry(AddAll(Lookup(db, key, c), c, items), ExpireOf(db, key))]])
  {
    AddResolves(c);
    AddExactly(s.dbs[s.sel], c, key, items);
  }
}
