/** What single commands do on a live server and what is written for them, in plain numbers: the options
    SET takes, the time every expiry ends up as, which keys DEL removes, and what adding does. */
module Commands {
  import opened Basics
  import opened Decimal
  import opened Resp
  import opened Dataset
  import opened Live
  import opened Feed

  // ---------------------------------------------------------------- 64-bit arithmetic

  /** Wrapping leaves a number that fits alone, and otherwise moves it by a multiple of 2^64. */
  lemma {:induction false} WrapExactly(x: int) returns (k: int)
    ensures Wrap(x) == x + k * TWO_64
    ensures -LONG_MAX - 1 <= x <= LONG_MAX ==> Wrap(x) == x
  {
    k := -((x + TWO_63) / TWO_64);
  }

  /** Reading a number for the log keeps what fits and clamps the rest. */
  lemma StrtollExactly(s: Bytes)
    ensures InRange(Parse(s)) ==> Strtoll(s) == Parse(s)
    ensures Parse(s) > LONG_MAX ==> Strtoll(s) == LONG_MAX
    ensures Parse(s) < -LONG_MAX - 1 ==> Strtoll(s) == -LONG_MAX - 1
  {}

  // ---------------------------------------------------------------- the options of SET

  datatype Word = Nx(text: Bytes) | Xx(text: Bytes) | Ex(text: Bytes, value: Bytes) | Px(text: Bytes, value: Bytes)

  /** The option a word spells, in any case. */
  predicate Spelt(w: Word) {
    match w
    case Nx(t) => Spells(t, NX)
    case Xx(t) => Spells(t, XX)
    case Ex(t, _) => Spells(t, EX)
    case Px(t, _) => Spells(t, PX)
  }

  function Arguments(w: Word): seq<Bytes> {
    match w
    case Nx(t) => [t]
    case Xx(t) => [t]
    case Ex(t, v) => [t, v]
    case Px(t, v) => [t, v]
  }

  function Phrase(ws: seq<Word>): seq<Bytes> { if ws == [] then [] else Arguments(ws[0]) + Phrase(ws[1..]) }

  predicate HasNx(ws: seq<Word>) { exists i :: 0 <= i < |ws| && ws[i].Nx? }
  predicate HasXx(ws: seq<Word>) { exists i :: 0 <= i < |ws| && ws[i].Xx? }
  predicate HasEx(ws: seq<Word>) { exists i :: 0 <= i < |ws| && ws[i].Ex? }
  predicate HasPx(ws: seq<Word>) { exists i :: 0 <= i < |ws| && ws[i].Px? }

  /** The value of the last EX, or of the last PX. */
  function LastValue(ws: seq<Word>, seconds: bool): Option<Bytes> {
    if ws == [] then None
    else
      var w := ws[|ws| - 1];
      if seconds && w.Ex? then Some(w.value)
      else if !seconds && w.Px? then Some(w.value)
      else LastValue(ws[..|ws| - 1], seconds)
  }

  lemma {:induction false} LastValueFirst(w: Word, ws: seq<Word>, seconds: bool)
    ensures LastValue([w] + ws, seconds) ==
            if LastValue(ws, seconds).Some? then LastValue(ws, seconds)
            else if seconds && w.Ex? then Some(w.value)
            else if !seconds && w.Px? then Some(w.value)
            else None
    decreases |ws|
  {
    var all := [w] + ws;
    if ws == [] {
      assert all[..0] == [];
    } else {
      assert all[..|all| - 1] == [w] + ws[..|ws| - 1];
      LastValueFirst(w, ws[..|ws| - 1], seconds);
    }
  }

  /** The words ask for no contradiction, also not with what was asked before. */
  predicate Agree(ws: seq<Word>, o: Options) {
    && !((o.nx || HasNx(ws)) && (o.xx || HasXx(ws)))
    && !((o.ex.Some? || HasEx(ws)) && (o.px.Some? || HasPx(ws)))
  }

  function Meaning(ws: seq<Word>, o: Options): Options {
    Options(o.nx || HasNx(ws), o.xx || HasXx(ws),
            if LastValue(ws, true).Some? then LastValue(ws, true) else o.ex,
            if LastValue(ws, false).Some? then LastValue(ws, false) else o.px)
  }

  lemma {:induction false} HasFirst(w: Word, ws: seq<Word>)
    ensures HasNx([w] + ws) == (w.Nx? || HasNx(ws)) && HasXx([w] + ws) == (w.Xx? || HasXx(ws))
    ensures HasEx([w] + ws) == (w.Ex? || HasEx(ws)) && HasPx([w] + ws) == (w.Px? || HasPx(ws))
  {
    var all := [w] + ws;
    assert all[0] == w && forall i | 0 <= i < |ws| :: all[i + 1] == ws[i];
  }

  function Noted(w: Word, o: Options): Options {
    match w
    case Nx(_) => o.(nx := true)
    case Xx(_) => o.(xx := true)
    case Ex(_, v) => o.(ex := Some(v))
    case Px(_, v) => o.(px := Some(v))
  }

  lemma {:induction false} MeaningFirst(w: Word, ws: seq<Word>, o: Options)
    ensures Agree([w] + ws, o) <==> Agree(ws, Noted(w, o))
    ensures Meaning([w] + ws, o) == Meaning(ws, Noted(w, o))
  {
    hide HasNx, HasXx, HasEx, HasPx, LastValue;
    HasFirst(w, ws);
    LastValueFirst(w, ws, true);
    LastValueFirst(w, ws, false);
  }

  lemma {:induction false} OneWord(w: Word, rest: seq<Bytes>, o: Options)
    requires Spelt(w) && !(Noted(w, o).nx && Noted(w, o).xx) && !(Noted(w, o).ex.Some? && Noted(w, o).px.Some?)
    ensures ParseOptions(Arguments(w) + rest, o) == ParseOptions(rest, Noted(w, o))
  {
    var args := Arguments(w) + rest;
    assert args[|Arguments(w)|..] == rest;
  }

  /** SET accepts every list of its four options, spelled in any case and repeated at will, that does not
      ask for NX and XX or for EX and PX; the last value counts. */
  lemma {:induction false} OptionsAccepted(ws: seq<Word>, o: Options)
    requires (forall i | 0 <= i < |ws| :: Spelt(ws[i])) && Agree(ws, o)
    ensures ParseOptions(Phrase(ws), o) == Some(Meaning(ws, o))
    decreases |ws|
  {
    hide HasNx, HasXx, HasEx, HasPx, LastValue, ParseOptions, Spelt;
    if ws == [] {
      NoWords(o);
    } else {
      assert [ws[0]] + ws[1..] == ws;
      MeaningFirst(ws[0], ws[1..], o);
      OptionsAccepted(ws[1..], Noted(ws[0], o));
      OneWord(ws[0], Phrase(ws[1..]), o);
    }
  }

  lemma NoWords(o: Options)
    ensures ParseOptions([], o) == Some(o) && Meaning([], o) == o
  {}

  /** And nothing else. */
  lemma {:induction false} OptionsRead(args: seq<Bytes>, o: Options) returns (ws: seq<Word>)
    requires ParseOptions(args, o).Some? && !(o.nx && o.xx) && !(o.ex.Some? && o.px.Some?)
    ensures (forall i | 0 <= i < |ws| :: Spelt(ws[i])) && Agree(ws, o) && Phrase(ws) == args
    decreases |args|
  {
    hide HasNx, HasXx, HasEx, HasPx, LastValue;
    ws := [];
    if args == [] {
      NothingAsked(o);
    } else {
      var w := FirstWord(args, o);
      var k := |Arguments(w)|;
      var more := OptionsRead(args[k..], Noted(w, o));
      MeaningFirst(w, more, o);
      ws := [w] + more;
      assert ws[1..] == more && args == args[..k] + args[k..];
    }
  }

  lemma NothingAsked(o: Options)
    requires !(o.nx && o.xx) && !(o.ex.Some? && o.px.Some?)
    ensures Agree([], o)
  {}

  lemma {:induction false} FirstWord(args: seq<Bytes>, o: Options) returns (w: Word)
    requires args != [] && ParseOptions(args, o).Some? && !(o.nx && o.xx) && !(o.ex.Some? && o.px.Some?)
    ensures Spelt(w) && |Arguments(w)| <= |args| && Arguments(w) == args[..|Arguments(w)|]
    ensures !(Noted(w, o).nx && Noted(w, o).xx) && !(Noted(w, o).ex.Some? && Noted(w, o).px.Some?)
    ensures ParseOptions(args[|Arguments(w)|..], Noted(w, o)).Some?
  {
    w := if Spells(args[0], NX) then Nx(args[0])
         else if Spells(args[0], XX) then Xx(args[0])
         else if Spells(args[0], EX) then Ex(args[0], args[1])
         else Px(args[0], args[1]);
  }

  /** A C string: what comes before the first NUL. */
  function CString(s: Bytes): Bytes { if s == [] || s[0] == 0 then [] else [s[0]] + CString(s[1..]) }

  predicate Capital(b: Byte) { 65 <= b <= 90 }

  /** An argument spells a word of two capitals if as a C string it has these two letters in any case. */
  lemma {:induction false} SpellsExactly(arg: Bytes, name: Bytes)
    requires |name| == 2 && Capital(name[0]) && Capital(name[1])
    ensures Spells(arg, name) <==>
            && |CString(arg)| == 2
            && (CString(arg)[0] == name[0] || CString(arg)[0] == name[0] + 32)
            && (CString(arg)[1] == name[1] || CString(arg)[1] == name[1] + 32)
  {
    if |arg| >= 1 && arg[0] != 0 {
      assert CString(arg) == [arg[0]] + CString(arg[1..]);
      if |arg| >= 2 && arg[1] != 0 {
        assert CString(arg[1..]) == [arg[1]] + CString(arg[2..]);
        assert arg[1..][1..] == arg[2..];
        if |arg| >= 3 && arg[2] != 0 { assert CString(arg[2..]) == [arg[2]] + CString(arg[2..][1..]); }
      }
    }
  }

  predicate SameLetter(a: Byte, b: Byte) { a == b || (Capital(a) && b == a + 32) || (Capital(b) && a == b + 32) }

  /** Two names are one command's if they differ at most in the case of their letters. */
  lemma {:induction false} CaseIsIgnored(x: Bytes, y: Bytes)
    ensures UpperAll(x) == UpperAll(y) <==> |x| == |y| && forall i | 0 <= i < |x| :: SameLetter(x[i], y[i])
  {
    if UpperAll(x) == UpperAll(y) {
      forall i | 0 <= i < |x| ensures SameLetter(x[i], y[i]) { assert UpperAll(x)[i] == UpperAll(y)[i]; }
    }
  }

  function Ascii(s: string): Bytes {
    seq(|s|, i requires 0 <= i < |s| => if s[i] < 128 as char then s[i] as int else 0)
  }

  /** The bytes of the command names. */
  lemma NamesSpelt()
    ensures SELECT_NAME == Ascii("SELECT") && SET_NAME == Ascii("SET")
    ensures DEL_NAME == Ascii("DEL") && UNLINK_NAME == Ascii("UNLINK")
    ensures SETEX_NAME == Ascii("SETEX") && PSETEX_NAME == Ascii("PSETEX")
  {}

  lemma ExpireNamesSpelt()
    ensures EXPIRE_NAME == Ascii("EXPIRE") && PEXPIRE_NAME == Ascii("PEXPIRE")
    ensures EXPIREAT_NAME == Ascii("EXPIREAT") && PEXPIREAT_NAME == Ascii("PEXPIREAT")
  {}

  lemma AddNamesSpelt()
    ensures RPUSH_NAME == Ascii("RPUSH") && SADD_NAME == Ascii("SADD")
    ensures HMSET_NAME == Ascii("HMSET") && ZADD_NAME == Ascii("ZADD")
  {}

  /** Each is its command's, */
  lemma CommandNames()
    ensures OpNamed(SELECT_NAME) == SELECT && OpNamed(SET_NAME) == SET
    ensures OpNamed(SETEX_NAME) == SETEX && OpNamed(PSETEX_NAME) == PSETEX
    ensures OpNamed(EXPIRE_NAME) == EXPIRE && OpNamed(PEXPIRE_NAME) == PEXPIRE
    ensures OpNamed(EXPIREAT_NAME) == EXPIREAT && OpNamed(PEXPIREAT_NAME) == PEXPIREAT
    ensures OpNamed(DEL_NAME) == DEL && OpNamed(UNLINK_NAME) == DEL
    ensures OpNamed(RPUSH_NAME) == ADD(Lists) && OpNamed(SADD_NAME) == ADD(Sets)
    ensures OpNamed(HMSET_NAME) == ADD(Hashes) && OpNamed(ZADD_NAME) == ADD(ZSets)
  {}

  /** and any other name is none of them. */
  lemma OtherNames(n: Bytes)
    requires n !in [SELECT_NAME, SET_NAME, SETEX_NAME, PSETEX_NAME, EXPIRE_NAME, PEXPIRE_NAME, EXPIREAT_NAME,
                    PEXPIREAT_NAME, DEL_NAME, UNLINK_NAME, RPUSH_NAME, SADD_NAME, HMSET_NAME, ZADD_NAME]
    ensures OpNamed(n) == OTHER && OpOf([]) == OTHER
  {}

  // ---------------------------------------------------------------- when keys expire

  /** A key is removed on access exactly when its time, not negative, has passed. */
  lemma {:induction false} ReapExactly(db: Db, key: Bytes, now: Long, lazy: bool)
    ensures Reap(db, key, now, lazy) ==
            if key in db && db[key].expire.Some? && 0 <= db[key].expire.value && db[key].expire.value < now then
              Result(db - {key}, [[if lazy then UNLINK_NAME else DEL_NAME, key]])
            else Result(db, [])
  {
    assert Delete(db, [key]) == db - {key};
  }

  const EXPIRES := [EXPIRE, PEXPIRE, EXPIREAT, PEXPIREAT]

  /** The time in milliseconds a command asks for: seconds or milliseconds, from now or absolute. */
  function Moment(op: Op, v: Long, now: Long): int {
    match op
    case EXPIRE => now + 1000 * v
    case SETEX => now + 1000 * v
    case PEXPIRE => now + v
    case PSETEX => now + v
    case EXPIREAT => 1000 * v
    case _ => v
  }

  predicate InRange(x: int) { -LONG_MAX - 1 <= x <= LONG_MAX }

  /** The product and the sum of the computation fit 64 bits. */
  predicate MomentFits(op: Op, v: Long, now: Long) {
    InRange(Moment(op, v, now)) && (op == EXPIRE || op == SETEX || op == EXPIREAT ==> InRange(1000 * v))
  }

  lemma {:induction false} MomentIsComputed(op: Op, v: Long, now: Long)
    requires MomentFits(op, v, now) && (op in EXPIRES || op == SETEX || op == PSETEX)
    ensures Wrap(ToMs(v, UnitOf(op)) + BaseOf(op, now)) == Moment(op, v, now)
  {
    hide Wrap;
    var _ := WrapExactly(1000 * v);
    var _ := WrapExactly(Moment(op, v, now));
  }

  /** The four expire commands on a key that is there: it gets the time asked for, or goes if that is
      not after now.  What is written says the same with the time in absolute milliseconds. */
  lemma {:induction false} ExpireTakesMoment(db: Db, argv: Command, op: Op, v: Long, now: Long, lazy: bool,
                                             other: Other)
    requires op == OpOf(argv) && op in EXPIRES && |argv| == 3 && ParseLong(argv[2]) == Some(v)
    requires Alive(db, argv[1], now) && MomentFits(op, v, now)
    ensures var when := Moment(op, v, now);
            var r := Execute(db, argv, now, lazy, other);
            if when <= now then r == Result(db - {argv[1]}, [[if lazy then UNLINK_NAME else DEL_NAME, argv[1]]])
            else
              && r == Result(db[argv[1] := db[argv[1]].(expire := Some(when))], [argv])
              && Translate(argv, now) == Some([if op == PEXPIREAT then argv else PExpireAtCmd(argv[1], when)])
  {
    hide OpOf, Wrap, ToMs, ParseLong, UnitOf, BaseOf;
    MomentIsComputed(op, v, now);
    ReapExactly(db, argv[1], now, lazy);
    assert Delete(db, [argv[1]]) == db - {argv[1]};
    if op != PEXPIREAT { WrittenMoment(op, argv[1], argv[2], v, now); }
  }

  lemma {:induction false} WrittenMoment(op: Op, key: Bytes, arg: Bytes, v: Long, now: Long)
    requires ParseLong(arg) == Some(v) && MomentFits(op, v, now) && (op in EXPIRES || op == SETEX || op == PSETEX)
    ensures ExpireAt(op, key, arg, now) == PExpireAtCmd(key, Moment(op, v, now))
  {
    hide Wrap, ToMs, UnitOf, BaseOf, Print;
    MomentIsComputed(op, v, now);
  }

  /** No key, a key that has expired, or an argument that is no number: nothing but the reaping. */
  lemma {:induction false} ExpireRefuses(db: Db, argv: Command, op: Op, now: Long, lazy: bool, other: Other)
    requires op == OpOf(argv) && op in EXPIRES && |argv| == 3
    requires ParseLong(argv[2]).None? || !Alive(db, argv[1], now)
    ensures Execute(db, argv, now, lazy, other) ==
            if ParseLong(argv[2]).None? then Result(db, []) else Reap(db, argv[1], now, lazy)
  {
    hide OpOf, Wrap, ToMs, ParseLong, UnitOf, BaseOf, DelName;
  }

  // ---------------------------------------------------------------- SET, SETEX and PSETEX

  /** SETEX and PSETEX of a positive number store value and time whatever was there, and are written as
      SET and PEXPIREAT; any other argument is refused. */
  lemma {:induction false} SetexTakesMoment(db: Db, argv: Command, op: Op, now: Long, lazy: bool, other: Other)
    requires op == OpOf(argv) && (op == SETEX || op == PSETEX) && |argv| == 4
    requires ParseLong(argv[2]).Some? ==> MomentFits(op, ParseLong(argv[2]).value, now)
    ensures var r := Execute(db, argv, now, lazy, other);
            if ParseLong(argv[2]).None? || ParseLong(argv[2]).value <= 0 then r == Result(db, [])
            else
              var when := Moment(op, ParseLong(argv[2]).value, now);
              && r.db == db[argv[1] := Entry(Str(argv[3]), Some(when))]
              && r.fed == Reap(db, argv[1], now, lazy).fed + [argv]
              && Translate(argv, now) == Some([SetCmd(argv[1], argv[3]), PExpireAtCmd(argv[1], when)])
  {
    hide OpOf, Wrap, ToMs, ParseLong, UnitOf, BaseOf;
    if ParseLong(argv[2]).Some? && ParseLong(argv[2]).value > 0 {
      var v := ParseLong(argv[2]).value;
      var o := if op == SETEX then NO_OPTIONS.(ex := Some(argv[2])) else NO_OPTIONS.(px := Some(argv[2]));
      SetGenericOutcome(db, argv, argv[1], argv[3], o, now, lazy);
      assert Stores(db, argv[1], o, now);
      SameMoment(op, v, now);
      WrittenMoment(op, argv[1], argv[2], v, now);
      Overwrites(db, argv[1], argv[3], Some(Moment(op, v, now)), now, lazy);
    }
  }

  lemma {:induction false} SameMoment(op: Op, v: Long, now: Long)
    requires (op == SETEX || op == PSETEX) && MomentFits(op, v, now)
    ensures var unit := if op == SETEX then EXPIRE else PEXPIRE;
            Wrap(ToMs(v, UnitOf(unit)) + BaseOf(unit, now)) == Moment(op, v, now)
  {
    hide Wrap;
    MomentIsComputed(if op == SETEX then EXPIRE else PEXPIRE, v, now);
  }

  lemma {:induction false} Overwrites(db: Db, key: Bytes, v: Bytes, expire: Option<Long>, now: Long, lazy: bool)
    ensures SetKey(Reap(db, key, now, lazy).db, key, v, expire) == db[key := Entry(Str(v), expire)]
  {
    ReapExactly(db, key, now, lazy);
  }

  /** SET with options that read as `o`: a bad expiry refuses it; NX needs the key absent or expired and
      XX needs it there, and then value and time are stored whatever was there. */
  lemma {:induction false} SetTakesMoment(db: Db, argv: Command, o: Options, now: Long, lazy: bool, other: Other)
    requires OpOf(argv) == SET && |argv| >= 3 && ParseOptions(argv[3..], NO_OPTIONS) == Some(o)
    requires o.ex.Some? && ParseLong(o.ex.value).Some? ==> MomentFits(EXPIRE, ParseLong(o.ex.value).value, now)
    requires o.px.Some? && ParseLong(o.px.value).Some? ==> MomentFits(PEXPIRE, ParseLong(o.px.value).value, now)
    ensures var key := argv[1];
            var r := Execute(db, argv, now, lazy, other);
            var given := if o.ex.Some? then o.ex else o.px;
            if given.Some? && (ParseLong(given.value).None? || ParseLong(given.value).value <= 0) then
              r == Result(db, [])
            else if (o.nx && Alive(db, key, now)) || (o.xx && !Alive(db, key, now)) then
              r == Reap(db, key, now, lazy)
            else
              && r.fed == Reap(db, key, now, lazy).fed + [argv]
              && r.db == db[key := Entry(Str(argv[2]),
                   if given.None? then None
                   else Some(Moment(if o.ex.Some? then EXPIRE else PEXPIRE, ParseLong(given.value).value, now)))]
  {
    hide OpOf, Wrap, ToMs, ParseLong, UnitOf, BaseOf, ParseOptions;
    OneUnit(argv[3..], NO_OPTIONS, o);
    var given := if o.ex.Some? then o.ex else o.px;
    SetGenericOutcome(db, argv, argv[1], argv[2], o, now, lazy);
    if given.Some? && ParseLong(given.value).Some? {
      MomentIsComputed(if o.ex.Some? then EXPIRE else PEXPIRE, ParseLong(given.value).value, now);
    }
    if Stores(db, argv[1], o, now) { Overwrites(db, argv[1], argv[2], ExpiryOf(o, now), now, lazy); }
  }

  /** What is written for such a SET: key and value, and the time in absolute milliseconds if there is one. */
  lemma {:induction false} SetWritesMoment(argv: Command, o: Options, now: Long)
    requires OpOf(argv) == SET && |argv| >= 3 && ParseOptions(argv[3..], NO_OPTIONS) == Some(o) && Numeric(o)
    requires o.ex.Some? ==> MomentFits(EXPIRE, ParseLong(o.ex.value).value, now)
    requires o.px.Some? ==> MomentFits(PEXPIRE, ParseLong(o.px.value).value, now)
    ensures if BothWords(argv) then Translate(argv, now) == None
            else if o.ex.Some? then
              Translate(argv, now) ==
              Some([argv[..3], PExpireAtCmd(argv[1], Moment(EXPIRE, ParseLong(o.ex.value).value, now))])
            else if o.px.Some? then
              Translate(argv, now) ==
              Some([argv[..3], PExpireAtCmd(argv[1], Moment(PEXPIRE, ParseLong(o.px.value).value, now))])
            else Translate(argv, now) == Some([argv[..3]])
  {
    hide OpOf, ParseLong, ParseOptions, LastAfter, ExpireAt, Moment, PExpireAtCmd;
    OptionsFound(argv[3..], o);
    OneUnit(argv[3..], NO_OPTIONS, o);
    if !BothWords(argv) { WrittenForSet(argv, o, now); }
    if o.ex.Some? { WrittenMoment(EXPIRE, argv[1], o.ex.value, ParseLong(o.ex.value).value, now); }
    if o.px.Some? { WrittenMoment(PEXPIRE, argv[1], o.px.value, ParseLong(o.px.value).value, now); }
  }

  /** Without options SET stores the value and drops any expiry; with options that do not parse it does
      nothing. */
  lemma {:induction false} SetPlainly(db: Db, argv: Command, now: Long, lazy: bool, other: Other)
    requires OpOf(argv) == SET && |argv| >= 3
    ensures |argv| == 3 ==> Execute(db, argv, now, lazy, other).db == db[argv[1] := Entry(Str(argv[2]), None)]
    ensures ParseOptions(argv[3..], NO_OPTIONS).None? ==> Execute(db, argv, now, lazy, other) == Result(db, [])
  {
    hide OpOf, ParseLong;
    if |argv| == 3 { SetTakesMoment(db, argv, NO_OPTIONS, now, lazy, other); }
  }

  // ---------------------------------------------------------------- DEL and UNLINK

  /** The keys named that are there and have not expired. */
  function Living(db: Db, keys: seq<Bytes>, now: Long): set<Bytes> { set k | k in keys && Alive(db, k, now) }

  lemma {:induction false} DeletionCounts(db: Db, keys: seq<Bytes>, now: Long, lazy: bool)
    ensures DeleteKeys(db, keys, now, lazy).count == |Living(db, keys, now)|
    decreases |keys|
  {
    hide Living, Alive;
    if keys == [] {
      NobodyLives(db, now);
    } else {
      var k, d := keys[0], Delete(db, [keys[0]]);
      LivingStep(db, keys, now, lazy);
      DeletionCounts(d, keys[1..], now, lazy);
    }
  }

  lemma NobodyLives(db: Db, now: Long)
    ensures Living(db, [], now) == {}
  {}

  lemma {:induction false} LivingStep(db: Db, keys: seq<Bytes>, now: Long, lazy: bool)
    requires keys != []
    ensures var k, d, r := keys[0], Delete(db, [keys[0]]), Reap(db, keys[0], now, lazy);
            && Delete(r.db, [k]) == d && (k in r.db <==> Alive(db, k, now))
            && |Living(db, keys, now)| == |Living(d, keys[1..], now)| + if Alive(db, k, now) then 1 else 0
  {
    hide Living, Reap, Delete, Alive;
    ReapStep(db, keys[0], now, lazy);
    LivingWithout(db, keys, now);
    var rest := Living(Delete(db, [keys[0]]), keys[1..], now);
    if Alive(db, keys[0], now) { assert |{keys[0]} + rest| == 1 + |rest|; }
  }

  lemma {:induction false} ReapStep(db: Db, k: Bytes, now: Long, lazy: bool)
    ensures var r := Reap(db, k, now, lazy);
            Delete(r.db, [k]) == Delete(db, [k]) && (k in r.db <==> Alive(db, k, now))
  {}

  lemma {:induction false} LivingWithout(db: Db, keys: seq<Bytes>, now: Long)
    requires keys != []
    ensures var k, rest := keys[0], Living(Delete(db, [keys[0]]), keys[1..], now);
            k !in rest && Living(db, keys, now) == if Alive(db, k, now) then {k} + rest else rest
  {
    var k, d := keys[0], Delete(db, [keys[0]]);
    forall x ensures x in keys <==> x == k || x in keys[1..] {}
    forall x ensures Alive(d, x, now) <==> x != k && Alive(db, x, now) {}
  }

  /** DEL removes every key it names, tells of each expired one on its own, and is written itself exactly
      when one of them was alive. */
  lemma {:induction false} DelExactly(db: Db, argv: Command, now: Long, lazy: bool, other: Other)
    requires OpOf(argv) == DEL && |argv| >= 2
    ensures var r := Execute(db, argv, now, lazy, other);
            && r.db == (map k | k in db && k !in argv[1..] :: db[k])
            && r.fed == Dels(ReapedKeys(db, argv[1..], now), lazy) +
                        if Living(db, argv[1..], now) != {} then [argv] else []
    ensures forall k :: k in ReapedKeys(db, argv[1..], now) <==> k in argv[1..] && IsExpired(db, k, now)
  {
    hide OpOf, Dels;
    DeleteKeysDeletes(db, argv[1..], now, lazy);
    DeleteKeysFed(db, argv[1..], now, lazy);
    DeletionCounts(db, argv[1..], now, lazy);
    forall k ensures k in ReapedKeys(db, argv[1..], now) <==> k in argv[1..] && IsExpired(db, k, now) {
      ReapedExactly(db, argv[1..], now, k);
    }
  }

  lemma {:induction false} ReapedExactly(db: Db, keys: seq<Bytes>, now: Long, k: Bytes)
    ensures k in ReapedKeys(db, keys, now) <==> k in keys && IsExpired(db, k, now)
    decreases |keys|
  {
    if keys != [] { ReapedExactly(Delete(db, [keys[0]]), keys[1..], now, k); }
  }

  // ---------------------------------------------------------------- RPUSH, SADD, HMSET and ZADD

  lemma {:induction false} PushedInOrder(start: seq<Bytes>, args: seq<Bytes>)
    ensures AddAll(List(start), Lists, Group(args, 1)) == List(start + args)
    decreases |args|
  {
    if args == [] {
      assert start + args == start;
    } else {
      var items := Group(args, 1);
      assert items[0] == [args[0]] && items[1..] == Group(args[1..], 1);
      PushedInOrder(start + [args[0]], args[1..]);
      assert start + [args[0]] + args[1..] == start + args;
    }
  }

  lemma {:induction false} AddedToSet(start: set<Bytes>, args: seq<Bytes>)
    ensures AddAll(Set(start), Sets, Group(args, 1)) == Set(start + Range(args))
    decreases |args|
  {
    if args == [] {
      assert start + Range(args) == start;
    } else {
      var items := Group(args, 1);
      assert items[0] == [args[0]] && items[1..] == Group(args[1..], 1);
      AddedToSet(start + {args[0]}, args[1..]);
      assert Range(args) == {args[0]} + Range(args[1..]);
      assert start + {args[0]} + Range(args[1..]) == start + Range(args);
    }
  }

  /** The partner of the last pair whose key, the first or the second of the two, is `k`. */
  function LastPartner(args: seq<Bytes>, k: Bytes, at: nat): Option<Bytes>
    requires at < 2
    decreases |args|
  {
    if |args| < 2 then None
    else if LastPartner(args[2..], k, at).Some? then LastPartner(args[2..], k, at)
    else if args[at] == k then Some(args[1 - at])
    else None
  }

  ghost predicate Updated(m: map<Bytes, Bytes>, args: seq<Bytes>, at: nat, r: map<Bytes, Bytes>)
    requires at < 2
  {
    && (forall k | k in m :: k in r)
    && (forall k | k in r :: if LastPartner(args, k, at).Some? then r[k] == LastPartner(args, k, at).value
                             else k in m && r[k] == m[k])
    && (forall k: Bytes :: LastPartner(args, k, at).Some? ==> k in r)
  }

  lemma {:induction false} PairsUpdate(m: map<Bytes, Bytes>, args: seq<Bytes>, c: Collection)
    requires c.Hashes? || c.ZSets?
    ensures var v := AddAll(if c.Hashes? then Hash(m) else ZSet(m), c, Group(args, 2));
            if c.Hashes? then Updated(m, args, 0, v.fields) else Updated(m, args, 1, v.scores)
    decreases |args|
  {
    if |args| >= 2 {
      var items := Group(args, 2);
      assert items[0] == args[..2] && items[1..] == Group(args[2..], 2);
      var m' := if c.Hashes? then m[args[0] := args[1]] else m[args[1] := args[0]];
      PairsUpdate(m', args[2..], c);
    }
  }

  /** What the collection holds after adding: elements at the end of a list in order, members of a set,
      and for fields and members of hashes and sorted sets the value given last. */
  ghost predicate Added(v: Value, args: seq<Bytes>, c: Collection, r: Value)
    requires OfType(v, c)
  {
    && OfType(r, c)
    && match c
       case Lists => r.items == v.items + args
       case Sets => r.members == v.members + Range(args)
       case Hashes => Updated(v.fields, args, 0, r.fields)
       case ZSets => Updated(v.scores, args, 1, r.scores)
  }

  /** Adding creates the collection or extends it and keeps its expiry.  It is written exactly when it
      goes to a list or a hash or changes something; a value of another type or an odd number of
      arguments is refused. */
  lemma {:induction false} AddExactly(db: Db, argv: Command, c: Collection, now: Long, lazy: bool, other: Other)
    requires OpOf(argv) == ADD(c)
    ensures var r := Execute(db, argv, now, lazy, other);
            if |argv| < 2 + Width(c) || (Width(c) == 2 && |argv| % 2 == 1) then r == Result(db, [])
            else
              var d := Reap(db, argv[1], now, lazy);
              var v := if argv[1] in d.db then d.db[argv[1]].value else EmptyOf(c);
              if !OfType(v, c) then r == d
              else
                && argv[1] in r.db && Added(v, argv[2..], c, r.db[argv[1]].value)
                && r.db[argv[1]].expire == (if argv[1] in d.db then d.db[argv[1]].expire else None)
                && (forall k | k != argv[1] :: k in r.db <==> k in d.db)
                && (forall k | k != argv[1] && k in d.db :: r.db[k] == d.db[k])
                && r.fed == d.fed + if c.Lists? || c.Hashes? || r.db != d.db then [argv] else []
  {
    hide OpOf, Reap, Group, AddAll;
    if WellFormedAdd(argv, c) {
      var d := Reap(db, argv[1], now, lazy);
      var v := Lookup(d.db, argv[1], c);
      if OfType(v, c) {
        match c
        case Lists =>
          PushedInOrder(v.items, argv[2..]);
          assert |v.items + argv[2..]| > |v.items|;
        case Sets => AddedToSet(v.members, argv[2..]);
        case Hashes => PairsUpdate(v.fields, argv[2..], c);
        case ZSets => PairsUpdate(v.scores, argv[2..], c);
      }
    }
  }

  /** While loading, a malformed command of these or one for a value of another type changes nothing. */
  lemma {:induction false} LoadIgnoresMalformed(db: Db, argv: Command, c: Collection, other: Other)
    requires OpOf(argv) == ADD(c)
    requires || |argv| < 2 + Width(c) || (Width(c) == 2 && |argv| % 2 == 1)
             || (argv[1] in db && !OfType(db[argv[1]].value, c))
    ensures ApplyTo(db, argv, other) == db
  {
    hide OpOf;
  }
}
