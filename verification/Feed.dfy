/** feedAppendOnlyFile of aof.c: SELECT is written only when the database changes, and every
    relative expiry becomes an absolute one. */
module Feed {
  import opened Basics
  import opened Decimal
  import opened Resp
  import opened Dataset
  import opened Live

  // ---------------------------------------------------------------- translation

  /** strtoll clamps. */
  function Strtoll(s: Bytes): Long {
    var v := Parse(s);
    if v < -LONG_MAX - 1 then -LONG_MAX - 1 else if v > LONG_MAX then LONG_MAX else v
  }

  /** catAppendOnlyExpireAtCommand. */
  function ExpireAt(op: Op, key: Bytes, arg: Bytes, now: Long): Command {
    PExpireAtCmd(key, Wrap(ToMs(Strtoll(arg), UnitOf(op)) + BaseOf(op, now)))
  }

  /** The argument after the last one spelling `name`. */
  function LastAfter(args: seq<Bytes>, name: Bytes): Option<Bytes>
    requires |name| == 2
    decreases |args|
  {
    if |args| < 2 then None
    else if LastAfter(args[1..], name).Some? then LastAfter(args[1..], name)
    else if Spells(args[0], name) then Some(args[1])
    else None
  }

  predicate Mentions(args: seq<Bytes>, name: Bytes)
    requires |name| == 2
  {
    exists i :: 0 <= i < |args| && Spells(args[i], name)
  }

  /** SET with options; None is the failed assertion that stops the server. */
  function TranslateSet(argv: Command, now: Long): Option<seq<Command>>
    requires |argv| >= 3
  {
    var ex, px := LastAfter(argv[3..], EX), LastAfter(argv[3..], PX);
    if ex.Some? && px.Some? then None
    else if ex.Some? then Some([argv[..3], ExpireAt(EXPIRE, argv[1], ex.value, now)])
    else if px.Some? then Some([argv[..3], ExpireAt(PEXPIRE, argv[1], px.value, now)])
    else Some([argv[..3]])
  }

  function Translate(argv: Command, now: Long): Option<seq<Command>> {
    var op := OpOf(argv);
    if (op == EXPIRE || op == PEXPIRE || op == EXPIREAT) && |argv| >= 3 then Some([ExpireAt(op, argv[1], argv[2], now)])
    else if (op == SETEX || op == PSETEX) && |argv| >= 4 then
      Some([SetCmd(argv[1], argv[3]), ExpireAt(op, argv[1], argv[2], now)])
    else if op == SET && |argv| > 3 then TranslateSet(argv, now)
    else Some([argv])
  }

  function TranslateAll(fed: seq<Command>, now: Long): Option<seq<Command>>
    decreases |fed|
  {
    if fed == [] then Some([]) else Both(Translate(fed[0], now), TranslateAll(fed[1..], now))
  }

  function Both(a: Option<seq<Command>>, b: Option<seq<Command>>): Option<seq<Command>> {
    if a.Some? && b.Some? then Some(a.value + b.value) else None
  }

  lemma BothLaws(a: Option<seq<Command>>, b: Option<seq<Command>>, c: Option<seq<Command>>)
    ensures Both(Both(a, b), c) == Both(a, Both(b, c))
    ensures Both(Some([]), a) == a && Both(a, Some([])) == a
  {
    if a.Some? {
      assert [] + a.value == a.value && a.value + [] == a.value;
      if b.Some? && c.Some? { assert a.value + b.value + c.value == a.value + (b.value + c.value); }
    }
  }

  // ---------------------------------------------------------------- the options of SET

  lemma {:induction false} NumberIsNoOption(s: Bytes)
    requires ParseLong(s).Some?
    ensures !Spells(s, EX) && !Spells(s, PX)
  {
    assert s == Print(Parse(s));
    assert s[0] == 45 || 48 <= s[0] <= 57;
  }

  function Pick(o: Options, seconds: bool): Option<Bytes> { if seconds then o.ex else o.px }

  function Name(seconds: bool): Bytes { if seconds then EX else PX }

  predicate Numeric(o: Options) {
    (o.ex.Some? ==> ParseLong(o.ex.value).Some?) && (o.px.Some? ==> ParseLong(o.px.value).Some?)
  }

  /** The last argument of an accepted SET never names an option that needs a value. */
  lemma {:induction false} LastArgument(args: seq<Bytes>, o: Options, r: Options)
    requires args != [] && ParseOptions(args, o) == Some(r) && Numeric(r)
    ensures !Spells(args[|args| - 1], EX) && !Spells(args[|args| - 1], PX)
    decreases |args|
  {
    hide ParseLong;
    if (Spells(args[0], NX) && !o.xx) || (Spells(args[0], XX) && !o.nx) {
      if |args| > 1 {
        LastArgument(args[1..], if Spells(args[0], NX) && !o.xx then o.(nx := true) else o.(xx := true), r);
      }
    } else {
      var ex := Spells(args[0], EX) && o.px.None?;
      if |args| == 2 {
        NumberIsNoOption(args[1]);
      } else {
        LastArgument(args[2..], if ex then o.(ex := Some(args[1])) else o.(px := Some(args[1])), r);
      }
    }
  }

  lemma {:induction false} FoundIffMentioned(args: seq<Bytes>, name: Bytes)
    requires |name| == 2 && (args != [] ==> !Spells(args[|args| - 1], name))
    ensures LastAfter(args, name).Some? <==> Mentions(args, name)
    decreases |args|
  {
    hide Spells;
    if args != [] {
      FoundIffMentioned(args[1..], name);
      if Mentions(args, name) {
        var i :| 0 <= i < |args| && Spells(args[i], name);
        if i > 0 { assert Spells(args[1..][i - 1], name); }
      }
      if Mentions(args[1..], name) {
        var i :| 0 <= i < |args[1..]| && Spells(args[1..][i], name);
        assert Spells(args[i + 1], name);
      }
    }
  }

  /** When only one of EX and PX occurs, the last word after it is the value SET used. */
  lemma {:induction false} LastIsUsed(args: seq<Bytes>, o: Options, r: Options, seconds: bool)
    requires ParseOptions(args, o) == Some(r) && Numeric(r)
    requires !Mentions(args, Name(!seconds)) && Pick(o, !seconds).None?
    ensures Pick(r, !seconds).None?
    ensures var last := LastAfter(args, Name(seconds));
            Pick(r, seconds) == if last.Some? then last else Pick(o, seconds)
    decreases |args|
  {
    hide ParseLong;
    if args != [] {
      Fewer(args, Name(!seconds));
      assert !Spells(args[0], Name(!seconds));
      if (Spells(args[0], NX) && !o.xx) || (Spells(args[0], XX) && !o.nx) {
        LastIsUsed(args[1..], if Spells(args[0], NX) && !o.xx then o.(nx := true) else o.(xx := true), r, seconds);
      } else {
        var o' := if seconds then o.(ex := Some(args[1])) else o.(px := Some(args[1]));
        Fewer(args[1..], Name(!seconds));
        assert args[1..][1..] == args[2..];
        LastIsUsed(args[2..], o', r, seconds);
        if LastAfter(args[2..], Name(seconds)).None? { NumberIsNoOption(args[1]); }
      }
    }
  }

  lemma {:induction false} Fewer(args: seq<Bytes>, name: Bytes)
    requires |name| == 2 && args != [] && !Mentions(args, name)
    ensures !Mentions(args[1..], name)
  {
    hide Spells;
  }

  /** What feedAppendOnlyFile finds in the options of an accepted SET. */
  lemma {:induction false} OptionsFound(args: seq<Bytes>, r: Options)
    requires ParseOptions(args, NO_OPTIONS) == Some(r) && Numeric(r)
    ensures if Mentions(args, EX) && Mentions(args, PX) then LastAfter(args, EX).Some? && LastAfter(args, PX).Some?
            else LastAfter(args, EX) == r.ex && LastAfter(args, PX) == r.px
  {
    hide ParseOptions, Spells, ParseLong, LastAfter;
    if args != [] { LastArgument(args, NO_OPTIONS, r); }
    FoundIffMentioned(args, EX);
    FoundIffMentioned(args, PX);
    if !Mentions(args, PX) {
      LastIsUsed(args, NO_OPTIONS, r, true);
    } else if !Mentions(args, EX) {
      LastIsUsed(args, NO_OPTIONS, r, false);
    }
  }

  // ---------------------------------------------------------------- one command

  function ReplayTo(db: Db, log: seq<Command>, other: Other): Db {
    Fold((d: Db, c: Command) => ApplyTo(d, c, other), db, log)
  }

  predicate NoSelect(log: seq<Command>) { forall i | 0 <= i < |log| :: OpOf(log[i]) != SELECT }

  /** What is written for `fed` takes a loading server from `db` to `d`. */
  predicate Carries(db: Db, fed: seq<Command>, now: Long, other: Other, d: Db) {
    var t := TranslateAll(fed, now);
    t.Some? && NoSelect(t.value) && ReplayTo(db, t.value, other) == d
  }

  lemma {:induction false} TranslateConcat(a: seq<Command>, b: seq<Command>, now: Long)
    ensures TranslateAll(a + b, now) == Both(TranslateAll(a, now), TranslateAll(b, now))
    decreases |a|
  {
    hide Translate, Both;
    if a == [] {
      assert a + b == b;
      BothLaws(TranslateAll(b, now), None, None);
    } else {
      TranslateConcat(a[1..], b, now);
      BothLaws(Translate(a[0], now), TranslateAll(a[1..], now), TranslateAll(b, now));
      assert (a + b)[1..] == a[1..] + b;
    }
  }

  lemma {:induction false} TranslateOne(argv: Command, now: Long)
    ensures TranslateAll([argv], now) == Translate(argv, now)
  {
    hide Translate, Both;
    var fed := [argv];
    assert fed[1..] == [];
    BothLaws(Translate(argv, now), None, None);
  }

  lemma {:induction false} CarriesBoth(db: Db, a: seq<Command>, mid: Db, b: seq<Command>, now: Long, other: Other,
                                       d: Db)
    requires Carries(db, a, now, other, mid) && Carries(mid, b, now, other, d)
    ensures Carries(db, a + b, now, other, d)
  {
    hide TranslateAll, OpOf, ApplyTo, Fold;
    TranslateConcat(a, b, now);
    var x, y := TranslateAll(a, now).value, TranslateAll(b, now).value;
    FoldConcat((d: Db, c: Command) => ApplyTo(d, c, other), db, x, y);
  }

  lemma {:induction false} CarriesNothing(db: Db, now: Long, other: Other)
    ensures Carries(db, [], now, other, db)
  {}

  /** A command written as it is. */
  lemma {:induction false} CarriesPlain(db: Db, argv: Command, now: Long, other: Other)
    requires Translate(argv, now) == Some([argv]) && OpOf(argv) != SELECT
    ensures Carries(db, [argv], now, other, ApplyTo(db, argv, other))
  {
    hide Translate, OpOf, ApplyTo, TranslateAll, Fold;
    TranslateOne(argv, now);
    FoldOne((d: Db, c: Command) => ApplyTo(d, c, other), db, argv);
  }

  lemma {:induction false} CarriesDel(db: Db, key: Bytes, now: Long, lazy: bool, other: Other)
    ensures Carries(db, [[DelName(lazy), key]], now, other, Delete(db, [key]))
  {
    hide TranslateAll, Fold;
    var argv := [DelName(lazy), key];
    DelResolves();
    assert UpperAll(UNLINK_NAME) == UNLINK_NAME;
    assert argv[1..] == [key];
    CarriesPlain(db, argv, now, other);
  }

  lemma {:induction false} CarriesReap(db: Db, key: Bytes, now: Long, lazy: bool, other: Other)
    ensures var r := Reap(db, key, now, lazy);
            Carries(db, r.fed, now, other, r.db)
  {
    hide Carries;
    if IsExpired(db, key, now) {
      CarriesDel(db, key, now, lazy, other);
    } else {
      CarriesNothing(db, now, other);
    }
  }

  /** PEXPIREAT, and the commands translated to it. */
  lemma {:induction false} ApplyExpireAt(db: Db, op: Op, key: Bytes, arg: Bytes, v: Long, now: Long, other: Other)
    requires ParseLong(arg) == Some(v)
    ensures var argv := ExpireAt(op, key, arg, now);
            OpOf(argv) == PEXPIREAT &&
            ApplyTo(db, argv, other) == SetExpire(db, key, Wrap(ToMs(v, UnitOf(op)) + BaseOf(op, now)))
  {
    hide Wrap, ToMs, UnitOf, BaseOf, Print, OpNamed;
    PExpireAtResolves();
    ParseExact(Wrap(ToMs(v, UnitOf(op)) + BaseOf(op, now)));
  }

  lemma {:induction false} CarriesExpire(db: Db, argv: Command, op: Op, v: Long, now: Long, other: Other)
    requires op == OpOf(argv) && IsExpire(op) && |argv| == 3 && ParseLong(argv[2]) == Some(v)
    ensures Carries(db, [argv], now, other, SetExpire(db, argv[1], Wrap(ToMs(v, UnitOf(op)) + BaseOf(op, now))))
  {
    hide Wrap, ToMs, OpOf, Fold, ApplyTo, ParseLong, TranslateAll;
    if op == PEXPIREAT {
      CarriesPlain(db, argv, now, other);
      PlainExpireAt(db, argv, v, now, other);
    } else {
      var t := ExpireAt(op, argv[1], argv[2], now);
      TranslateOne(argv, now);
      ApplyExpireAt(db, op, argv[1], argv[2], v, now, other);
      FoldOne((d: Db, c: Command) => ApplyTo(d, c, other), db, t);
    }
  }

  lemma {:induction false} PlainExpireAt(db: Db, argv: Command, v: Long, now: Long, other: Other)
    requires OpOf(argv) == PEXPIREAT && |argv| == 3 && ParseLong(argv[2]) == Some(v)
    ensures ApplyTo(db, argv, other) ==
            SetExpire(db, argv[1], Wrap(ToMs(v, UnitOf(PEXPIREAT)) + BaseOf(PEXPIREAT, now)))
  {
    hide OpOf, ParseLong;
  }

  /** SET followed by PEXPIREAT stores value and expiry together. */
  lemma {:induction false} ReplayPair(db: Db, first: Command, op: Op, key: Bytes, val: Bytes, arg: Bytes, v: Long,
                                      now: Long, other: Other)
    requires OpOf(first) == SET && |first| == 3 && first[1] == key && first[2] == val && ParseLong(arg) == Some(v)
    ensures var log := [first, ExpireAt(op, key, arg, now)];
            NoSelect(log) &&
            ReplayTo(db, log, other) == SetKey(db, key, val, Some(Wrap(ToMs(v, UnitOf(op)) + BaseOf(op, now))))
  {
    hide Wrap, ToMs, UnitOf, BaseOf, OpOf, ParseLong, ExpireAt, Fold;
    var second := ExpireAt(op, key, arg, now);
    var d := SetKey(db, key, val, None);
    assert ApplyTo(db, first, other) == d;
    ApplyExpireAt(d, op, key, arg, v, now, other);
    assert [first, second] == [first] + [second];
    FoldConcat((d: Db, c: Command) => ApplyTo(d, c, other), db, [first], [second]);
    FoldOne((d: Db, c: Command) => ApplyTo(d, c, other), db, first);
    FoldOne((d: Db, c: Command) => ApplyTo(d, c, other), d, second);
  }

  /** A SET with both words among its options: its translation trips the assertion. */
  predicate BothWords(argv: Command) {
    OpOf(argv) == SET && |argv| > 3 && Mentions(argv[3..], EX) && Mentions(argv[3..], PX)
  }

  function Given(o: Options): Option<Bytes> { if o.ex.Some? then o.ex else o.px }

  function UnitGiven(o: Options): Op { if o.ex.Some? then EXPIRE else PEXPIRE }

  function ExpiryOf(o: Options, now: Long): Option<Long>
    requires Numeric(o)
  {
    if Given(o).None? then None
    else Some(Wrap(ToMs(ParseLong(Given(o).value).value, UnitOf(UnitGiven(o))) + BaseOf(UnitGiven(o), now)))
  }

  lemma {:induction false} CarriesSet(db: Db, argv: Command, r: Options, now: Long, other: Other)
    requires OpOf(argv) == SET && |argv| >= 3 && ParseOptions(argv[3..], NO_OPTIONS) == Some(r) && Numeric(r)
    ensures BothWords(argv) ==> Translate(argv, now).None?
    ensures !BothWords(argv) ==> Carries(db, [argv], now, other, SetKey(db, argv[1], argv[2], ExpiryOf(r, now)))
  {
    hide Wrap, ToMs, UnitOf, BaseOf, OpOf, ParseLong, ExpireAt, Fold, LastAfter, TranslateAll, ApplyTo;
    TranslateOne(argv, now);
    OptionsFound(argv[3..], r);
    OneUnit(argv[3..], NO_OPTIONS, r);
    if !BothWords(argv) {
      SamePrefix(argv);
      ReplaySetOnly(db, argv[..3], other);
      assert Translate(argv, now) == Some(Written(argv, r, now)) by { WrittenForSet(argv, r, now); }
      if Given(r).Some? {
        ReplayPair(db, argv[..3], UnitGiven(r), argv[1], argv[2], Given(r).value,
                   ParseLong(Given(r).value).value, now, other);
      }
    }
  }

  function Written(argv: Command, o: Options, now: Long): seq<Command>
    requires |argv| >= 3
  {
    if Given(o).None? then [argv[..3]] else [argv[..3], ExpireAt(UnitGiven(o), argv[1], Given(o).value, now)]
  }

  lemma {:induction false} WrittenForSet(argv: Command, r: Options, now: Long)
    requires OpOf(argv) == SET && |argv| >= 3 && !(r.ex.Some? && r.px.Some?)
    requires LastAfter(argv[3..], EX) == r.ex && LastAfter(argv[3..], PX) == r.px
    ensures Translate(argv, now) == Some(Written(argv, r, now))
  {
    hide OpOf, ExpireAt;
    if |argv| == 3 {
      assert argv[..3] == argv;
    }
  }

  /** SET accepts EX and PX not both. */
  lemma {:induction false} OneUnit(args: seq<Bytes>, o: Options, r: Options)
    requires ParseOptions(args, o) == Some(r) && !(o.ex.Some? && o.px.Some?)
    ensures !(r.ex.Some? && r.px.Some?)
    decreases |args|
  {
    hide Spells;
    if args != [] {
      if Spells(args[0], NX) && !o.xx { OneUnit(args[1..], o.(nx := true), r); }
      else if Spells(args[0], XX) && !o.nx { OneUnit(args[1..], o.(xx := true), r); }
      else if Spells(args[0], EX) && o.px.None? && |args| > 1 { OneUnit(args[2..], o.(ex := Some(args[1])), r); }
      else { OneUnit(args[2..], o.(px := Some(args[1])), r); }
    }
  }

  lemma SamePrefix(argv: Command)
    requires |argv| >= 3
    ensures OpOf(argv[..3]) == OpOf(argv)
  {}

  lemma {:induction false} ReplaySetOnly(db: Db, first: Command, other: Other)
    requires OpOf(first) == SET && |first| == 3
    ensures ApplyTo(db, first, other) == SetKey(db, first[1], first[2], None)
    ensures ReplayTo(db, [first], other) == SetKey(db, first[1], first[2], None)
  {
    hide OpOf, Fold;
    FoldOne((d: Db, c: Command) => ApplyTo(d, c, other), db, first);
  }

  // ---------------------------------------------------------------- executing and feeding one command

  /** What replaying must reproduce: the database the live server ends with. */
  predicate Faithful(db: Db, o: Result, now: Long, other: Other) { Carries(db, o.fed, now, other, o.db) }

  /** A command whose own effect is carried, after the keys it found expired. */
  lemma {:induction false} AfterReap(db: Db, key: Bytes, fed: seq<Command>, d: Db, now: Long, lazy: bool, other: Other)
    requires Carries(Reap(db, key, now, lazy).db, fed, now, other, d)
    ensures Carries(db, Reap(db, key, now, lazy).fed + fed, now, other, d)
  {
    hide Carries, Reap;
    var r := Reap(db, key, now, lazy);
    CarriesReap(db, key, now, lazy, other);
    CarriesBoth(db, r.fed, r.db, fed, now, other, d);
  }

  /** setGenericCommand refuses a bad expiry, then an unmet NX or XX, and otherwise stores. */
  predicate Stores(db: Db, key: Bytes, o: Options, now: Long) {
    && Numeric(o)
    && (o.ex.Some? ==> ParseLong(o.ex.value).value > 0) && (o.px.Some? ==> ParseLong(o.px.value).value > 0)
    && !(o.nx && Alive(db, key, now)) && !(o.xx && !Alive(db, key, now))
  }

  predicate Alive(db: Db, key: Bytes, now: Long) { key in db && !IsExpired(db, key, now) }

  /** The commands whose writing stops the server: accepted SETs with both words among their options. */
  predicate Stops(db: Db, argv: Command, now: Long) {
    BothWords(argv) && var o := ParseOptions(argv[3..], NO_OPTIONS); o.Some? && Stores(db, argv[1], o.value, now)
  }

  lemma {:induction false} SetGenericOutcome(db: Db, argv: Command, key: Bytes, val: Bytes, o: Options, now: Long,
                                             lazy: bool)
    requires !(o.ex.Some? && o.px.Some?)
    ensures var r := Reap(db, key, now, lazy);
            var out := SetGeneric(db, argv, key, val, o, now, lazy);
            if Stores(db, key, o, now) then out == Result(SetKey(r.db, key, val, ExpiryOf(o, now)), r.fed + [argv])
            else if Given(o).Some? && (ParseLong(Given(o).value).None? || ParseLong(Given(o).value).value <= 0) then
              out == Result(db, [])
            else out == r
  {
    hide Wrap, ParseLong, SetKey;
  }

  lemma {:induction false} FaithfulSet(db: Db, argv: Command, now: Long, lazy: bool, other: Other)
    requires OpOf(argv) == SET && |argv| >= 3 && !Stops(db, argv, now)
    ensures Faithful(db, ExecuteSet(db, argv, now, lazy), now, other)
  {
    hide Carries, Reap, SetGeneric, SetKey, ExpiryOf, OpOf, ParseLong, BothWords, ParseOptions;
    CarriesNothing(db, now, other);
    CarriesReap(db, argv[1], now, lazy, other);
    if ParseOptions(argv[3..], NO_OPTIONS).Some? {
      var o := ParseOptions(argv[3..], NO_OPTIONS).value;
      OneUnit(argv[3..], NO_OPTIONS, o);
      SetGenericOutcome(db, argv, argv[1], argv[2], o, now, lazy);
      if Stores(db, argv[1], o, now) {
        var r := Reap(db, argv[1], now, lazy);
        CarriesSet(r.db, argv, o, now, other);
        AfterReap(db, argv[1], [argv], SetKey(r.db, argv[1], argv[2], ExpiryOf(o, now)), now, lazy, other);
      }
    }
  }

  lemma {:induction false} CarriesSetEx(db: Db, argv: Command, op: Op, v: Long, now: Long, other: Other)
    requires op == OpOf(argv) && (op == SETEX || op == PSETEX) && |argv| == 4 && ParseLong(argv[2]) == Some(v)
    ensures Carries(db, [argv], now, other,
                    SetKey(db, argv[1], argv[3], Some(Wrap(ToMs(v, UnitOf(op)) + BaseOf(op, now)))))
  {
    hide Wrap, ToMs, UnitOf, BaseOf, OpOf, ParseLong, ExpireAt, Fold, TranslateAll, ApplyTo;
    TranslateOne(argv, now);
    SetNamed(argv[1], argv[3]);
    ReplayPair(db, SetCmd(argv[1], argv[3]), op, argv[1], argv[3], argv[2], v, now, other);
  }

  lemma SetNamed(key: Bytes, val: Bytes)
    ensures OpOf(SetCmd(key, val)) == SET
  {
    SetResolves();
  }

  lemma {:induction false} FaithfulSetEx(db: Db, argv: Command, op: Op, now: Long, lazy: bool, other: Other)
    requires op == OpOf(argv) && (op == SETEX || op == PSETEX) && |argv| == 4
    ensures Faithful(db, ExecuteSetEx(db, argv, op, now, lazy), now, other)
  {
    hide Carries, Reap, SetGeneric, SetKey, OpOf, ParseLong, Wrap;
    CarriesNothing(db, now, other);
    CarriesReap(db, argv[1], now, lazy, other);
    var o := if op == SETEX then NO_OPTIONS.(ex := Some(argv[2])) else NO_OPTIONS.(px := Some(argv[2]));
    SetGenericOutcome(db, argv, argv[1], argv[3], o, now, lazy);
    if Stores(db, argv[1], o, now) {
      var r := Reap(db, argv[1], now, lazy);
      CarriesSetEx(r.db, argv, op, ParseLong(argv[2]).value, now, other);
      AfterReap(db, argv[1], [argv], SetKey(r.db, argv[1], argv[3], ExpiryOf(o, now)), now, lazy, other);
    }
  }

  lemma {:induction false} FaithfulExpire(db: Db, argv: Command, op: Op, now: Long, lazy: bool, other: Other)
    requires op == OpOf(argv) && IsExpire(op) && |argv| == 3
    ensures Faithful(db, ExpireGeneric(db, argv, op, now, lazy), now, other)
  {
    hide Carries, Reap, SetExpire, Delete, OpOf, ParseLong, Wrap, ToMs, UnitOf, BaseOf, DelName;
    CarriesNothing(db, now, other);
    CarriesReap(db, argv[1], now, lazy, other);
    if ParseLong(argv[2]).Some? {
      var v := ParseLong(argv[2]).value;
      var when := Wrap(ToMs(v, UnitOf(op)) + BaseOf(op, now));
      var r := Reap(db, argv[1], now, lazy);
      if argv[1] in r.db {
        if when <= now {
          CarriesDel(r.db, argv[1], now, lazy, other);
          AfterReap(db, argv[1], [[DelName(lazy), argv[1]]], Delete(r.db, [argv[1]]), now, lazy, other);
        } else {
          CarriesExpire(r.db, argv, op, v, now, other);
          AfterReap(db, argv[1], [argv], SetExpire(r.db, argv[1], when), now, lazy, other);
        }
      }
    }
  }

  // ---------------------------------------------------------------- DEL

  lemma {:induction false} DeleteKeysDeletes(db: Db, keys: seq<Bytes>, now: Long, lazy: bool)
    ensures DeleteKeys(db, keys, now, lazy).db == Delete(db, keys)
    decreases |keys|
  {
    if keys == [] {
      assert Delete(db, []) == db;
    } else {
      var k := keys[0];
      var r := Reap(db, k, now, lazy);
      assert Delete(r.db, [k]) == Delete(db, [k]);
      DeleteKeysDeletes(Delete(db, [k]), keys[1..], now, lazy);
      assert Delete(Delete(db, [k]), keys[1..]) == Delete(db, keys);
    }
  }

  /** The keys delGenericCommand finds expired, in order. */
  function ReapedKeys(db: Db, keys: seq<Bytes>, now: Long): seq<Bytes>
    decreases |keys|
  {
    if keys == [] then []
    else (if IsExpired(db, keys[0], now) then [keys[0]] else []) + ReapedKeys(Delete(db, [keys[0]]), keys[1..], now)
  }

  function Dels(keys: seq<Bytes>, lazy: bool): seq<Command> {
    seq(|keys|, i requires 0 <= i < |keys| => [DelName(lazy), keys[i]])
  }

  lemma {:induction false} DeleteKeysFed(db: Db, keys: seq<Bytes>, now: Long, lazy: bool)
    ensures DeleteKeys(db, keys, now, lazy).fed == Dels(ReapedKeys(db, keys, now), lazy)
    decreases |keys|
  {
    hide DelName;
    if keys != [] {
      var r := Reap(db, keys[0], now, lazy);
      assert Delete(r.db, [keys[0]]) == Delete(db, [keys[0]]);
      DeleteKeysFed(Delete(db, [keys[0]]), keys[1..], now, lazy);
    }
  }

  /** Only named keys are reaped, and every named key is when nothing else was deleted. */
  lemma {:induction false} ReapedAmong(db: Db, keys: seq<Bytes>, now: Long, lazy: bool, k: Bytes)
    ensures k in ReapedKeys(db, keys, now) ==> k in keys
    ensures DeleteKeys(db, keys, now, lazy).count == 0 && k in db && k in keys ==> k in ReapedKeys(db, keys, now)
    decreases |keys|
  {
    if keys != [] {
      var r := Reap(db, keys[0], now, lazy);
      assert Delete(r.db, [keys[0]]) == Delete(db, [keys[0]]);
      ReapedAmong(Delete(db, [keys[0]]), keys[1..], now, lazy, k);
    }
  }

  lemma {:induction false} CarriesDels(db: Db, keys: seq<Bytes>, now: Long, lazy: bool, other: Other)
    ensures Carries(db, Dels(keys, lazy), now, other, Delete(db, keys))
    decreases |keys|
  {
    hide Carries, DelName;
    if keys == [] {
      CarriesNothing(db, now, other);
      assert Delete(db, []) == db;
    } else {
      CarriesDel(db, keys[0], now, lazy, other);
      CarriesDels(Delete(db, [keys[0]]), keys[1..], now, lazy, other);
      CarriesBoth(db, [[DelName(lazy), keys[0]]], Delete(db, [keys[0]]), Dels(keys[1..], lazy), now, other,
                  Delete(Delete(db, [keys[0]]), keys[1..]));
      assert Dels(keys, lazy) == [[DelName(lazy), keys[0]]] + Dels(keys[1..], lazy);
      assert Delete(Delete(db, [keys[0]]), keys[1..]) == Delete(db, keys);
    }
  }

  lemma {:induction false} FaithfulDel(db: Db, argv: Command, now: Long, lazy: bool, other: Other)
    requires OpOf(argv) == DEL && |argv| >= 2
    ensures Faithful(db, ExecuteDel(db, argv, now, lazy), now, other)
  {
    hide Carries, OpOf, DeleteKeys, Dels;
    var keys := argv[1..];
    var gone := ReapedKeys(db, keys, now);
    DeleteKeysDeletes(db, keys, now, lazy);
    DeleteKeysFed(db, keys, now, lazy);
    CarriesDels(db, gone, now, lazy, other);
    forall k ensures k in gone ==> k in keys
             ensures DeleteKeys(db, keys, now, lazy).count == 0 && k in db && k in keys ==> k in gone {
      ReapedAmong(db, keys, now, lazy, k);
    }
    if DeleteKeys(db, keys, now, lazy).count == 0 {
      assert Delete(db, gone) == Delete(db, keys);
      assert Dels(gone, lazy) + [] == Dels(gone, lazy);
    } else {
      CarriesPlain(Delete(db, gone), argv, now, other);
      assert Delete(Delete(db, gone), keys) == Delete(db, keys);
      CarriesBoth(db, Dels(gone, lazy), Delete(db, gone), [argv], now, other, Delete(db, keys));
    }
  }

  // ---------------------------------------------------------------- any command

  lemma {:induction false} FaithfulAdd(db: Db, argv: Command, c: Collection, now: Long, lazy: bool, other: Other)
    requires OpOf(argv) == ADD(c)
    ensures Faithful(db, ExecuteAdd(db, argv, c, now, lazy), now, other)
  {
    hide Carries, OpOf, Reap, Add;
    CarriesNothing(db, now, other);
    if WellFormedAdd(argv, c) {
      var r := Reap(db, argv[1], now, lazy);
      CarriesReap(db, argv[1], now, lazy, other);
      if OfType(Lookup(r.db, argv[1], c), c) {
        var d := Add(r.db, argv, c);
        CarriesPlain(r.db, argv, now, other);
        AfterReap(db, argv[1], [argv], d, now, lazy, other);
        assert r.fed + [] == r.fed;
      }
    }
  }

  lemma {:induction false} FaithfulOther(db: Db, argv: Command, now: Long, lazy: bool, other: Other)
    requires OpOf(argv) == OTHER
    ensures Faithful(db, Execute(db, argv, now, lazy, other), now, other)
  {
    hide Carries, OpOf;
    CarriesNothing(db, now, other);
    CarriesPlain(db, argv, now, other);
  }

  /** Replaying what is written for any command gives what executing it gave. */
  lemma {:induction false} ExecuteIsFaithful(db: Db, argv: Command, now: Long, lazy: bool, other: Other)
    requires !Stops(db, argv, now)
    ensures Faithful(db, Execute(db, argv, now, lazy, other), now, other)
  {
    hide Faithful, OpOf, ExecuteSet, ExecuteSetEx, ExpireGeneric, ExecuteDel, ExecuteAdd, Stops;
    var op := OpOf(argv);
    if op == SET && |argv| >= 3 { FaithfulSet(db, argv, now, lazy, other); }
    else if (op == SETEX || op == PSETEX) && |argv| == 4 { FaithfulSetEx(db, argv, op, now, lazy, other); }
    else if IsExpire(op) && |argv| == 3 { FaithfulExpire(db, argv, op, now, lazy, other); }
    else if op == DEL && |argv| >= 2 { FaithfulDel(db, argv, now, lazy, other); }
    else if op.ADD? { FaithfulAdd(db, argv, op.to, now, lazy, other); }
    else if op == OTHER { FaithfulOther(db, argv, now, lazy, other); }
    else { FaithfulNothing(db, now, other); }
  }

  lemma FaithfulNothing(db: Db, now: Long, other: Other)
    ensures Faithful(db, Result(db, []), now, other)
  {
    CarriesNothing(db, now, other);
  }

  // ---------------------------------------------------------------- the assertion in the SET branch

  lemma {:induction false} OneFails(a: seq<Command>, argv: Command, now: Long)
    requires Translate(argv, now).None?
    ensures TranslateAll(a + [argv], now).None?
  {
    hide Translate, TranslateAll;
    TranslateConcat(a, [argv], now);
    TranslateOne(argv, now);
  }

  lemma {:induction false} NotADeletion(argv: Command, key: Bytes, lazy: bool)
    requires OpOf(argv) == SET
    ensures argv != [DelName(lazy), key]
  {
    DelResolves();
    assert UpperAll(UNLINK_NAME) == UNLINK_NAME;
  }

  lemma {:induction false} SetStops(db: Db, argv: Command, now: Long, lazy: bool)
    requires Stops(db, argv, now)
    ensures TranslateAll(ExecuteSet(db, argv, now, lazy).fed, now).None?
  {
    hide OpOf, ParseLong, Mentions, SetGeneric, Translate, ParseOptions, TranslateAll;
    var o := ParseOptions(argv[3..], NO_OPTIONS).value;
    OneUnit(argv[3..], NO_OPTIONS, o);
    SetGenericOutcome(db, argv, argv[1], argv[2], o, now, lazy);
    CarriesSet(db, argv, o, now, (c, d) => None);
    OneFails(Reap(db, argv[1], now, lazy).fed, argv, now);
  }

  /** Writing an executed command fails exactly when it is an accepted SET with both words among its
      options; everything else, refused commands included, is written faithfully. */
  lemma {:induction false} StopsExactly(db: Db, argv: Command, now: Long, lazy: bool, other: Other)
    ensures var r := Execute(db, argv, now, lazy, other);
            (TranslateAll(r.fed, now).None? <==> Stops(db, argv, now)) &&
            (Faithful(db, r, now, other) <==> !Stops(db, argv, now))
  {
    hide ExecuteSet, ExecuteSetEx, ExpireGeneric, ExecuteDel, ExecuteAdd, OpOf, Mentions, TranslateAll, ReplayTo;
    if Stops(db, argv, now) { SetStops(db, argv, now, lazy); } else { ExecuteIsFaithful(db, argv, now, lazy, other); }
  }

  /** SET k v EX px EX 10: the first EX is overridden, but its value reads as the word PX. */
  const AMBIGUOUS: Command := [SET_NAME, [107], [118], EX, [112, 120], EX, [49, 48]]

  lemma {:induction false} AmbiguousIsStored(now: Long)
    ensures var o := ParseOptions(AMBIGUOUS[3..], NO_OPTIONS);
            o.Some? && Stores(map[], AMBIGUOUS[1], o.value, now)
  {
    var args := AMBIGUOUS[3..];
    assert args == [EX, [112, 120], EX, [49, 48]];
    var o := NO_OPTIONS.(ex := Some([112, 120]));
    var tail := args[2..];
    assert tail == [EX, [49, 48]];
    var r := o.(ex := Some([49, 48]));
    assert tail[2..] == [];
    assert ParseOptions(tail, o) == Some(r);
    assert ParseOptions(args, NO_OPTIONS) == Some(r);
    TenIsANumber();
  }

  lemma {:induction false} AmbiguousIsAccepted(now: Long, lazy: bool)
    ensures ExecuteSet(map[], AMBIGUOUS, now, lazy).fed == [AMBIGUOUS]
  {
    hide ParseOptions, Stores, ParseLong;
    AmbiguousIsStored(now);
    var o := ParseOptions(AMBIGUOUS[3..], NO_OPTIONS).value;
    OneUnit(AMBIGUOUS[3..], NO_OPTIONS, o);
    SetGenericOutcome(map[], AMBIGUOUS, AMBIGUOUS[1], AMBIGUOUS[2], o, now, lazy);
  }

  lemma TenIsANumber()
    ensures ParseLong([49, 48]) == Some(10)
  {
    ParseExact(10);
    assert Digits(1) == [49];
    assert Print(10) == [49, 48];
  }

  lemma {:induction false} AmbiguousStops(now: Long, lazy: bool, other: Other)
    ensures var fed := Execute(map[], AMBIGUOUS, now, lazy, other).fed;
            fed == [AMBIGUOUS] && TranslateAll(fed, now).None?
  {
    hide ExecuteSet, TranslateAll;
    AmbiguousIsAccepted(now, lazy);
    SetNamed([107], [118]);
    var args := AMBIGUOUS[3..];
    assert Spells(args[0], EX) && Spells(args[1], PX);
    AmbiguousIsStored(now);
    StopsExactly(map[], AMBIGUOUS, now, lazy, other);
  }
}
