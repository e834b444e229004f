/** What a loading server makes of the first few of the commands written for one execution: one
    call of a client may be written as deletions of expired keys, then SET, then PEXPIREAT. */
module TornCommand {
  import opened Basics
  import opened Decimal
  import opened Resp
  import opened Dataset
  import opened Live
  import opened Feed
  import P = Propagation

  // ---------------------------------------------------------------- the shape of what is propagated

  /** Deletions of expired keys, then at most one more command, which changed the database. */
  predicate Shaped(db: Db, r: Result, now: Long, lazy: bool, gone: seq<Bytes>, tail: seq<Command>) {
    && r.fed == Dels(gone, lazy) + tail && |tail| <= 1 && NoDup(gone)
    && (forall g | g in gone :: IsExpired(db, g, now))
    && (gone != [] && tail != [] ==> r.db != Delete(db, gone))
    && (|gone| > 1 ==> forall g | g in gone :: g !in r.db)
  }

  lemma NoDels(lazy: bool)
    ensures Dels([], lazy) == []
  {}

  lemma OneDel(key: Bytes, lazy: bool)
    ensures Dels([key], lazy) == [[DelName(lazy), key]]
  {}

  /** Reaping one key and then perhaps storing it. */
  lemma {:induction false} ShapedStore(db: Db, key: Bytes, r: Result, now: Long, lazy: bool, tail: seq<Command>)
      returns (gone: seq<Bytes>)
    requires |tail| <= 1 && r.fed == Reap(db, key, now, lazy).fed + tail
    requires tail != [] && IsExpired(db, key, now) ==> key in r.db
    ensures Shaped(db, r, now, lazy, gone, tail)
  {
    hide DelName;
    NoDels(lazy);
    OneDel(key, lazy);
    gone := if IsExpired(db, key, now) then [key] else [];
  }

  lemma {:induction false} ShapedSet(db: Db, argv: Command, key: Bytes, val: Bytes, o: Options, now: Long, lazy: bool)
      returns (gone: seq<Bytes>, tail: seq<Command>)
    requires !(o.ex.Some? && o.px.Some?)
    ensures Shaped(db, SetGeneric(db, argv, key, val, o, now, lazy), now, lazy, gone, tail)
  {
    hide Shaped, Reap, ParseLong, Wrap, IsExpired;
    SetGenericOutcome(db, argv, key, val, o, now, lazy);
    var r := SetGeneric(db, argv, key, val, o, now, lazy);
    if Stores(db, key, o, now) {
      tail := [argv];
      gone := ShapedStore(db, key, r, now, lazy, tail);
    } else if r == Result(db, []) {
      gone, tail := ShapedNothing(db, now, lazy);
    } else {
      tail := [];
      assert r.fed + [] == r.fed;
      gone := ShapedStore(db, key, r, now, lazy, tail);
    }
  }

  lemma {:induction false} ShapedNothing(db: Db, now: Long, lazy: bool) returns (gone: seq<Bytes>, tail: seq<Command>)
    ensures Shaped(db, Result(db, []), now, lazy, gone, tail)
  {
    NoDels(lazy);
    gone, tail := [], [];
  }

  lemma {:induction false} ShapedExpire(db: Db, argv: Command, op: Op, now: Long, lazy: bool)
      returns (gone: seq<Bytes>, tail: seq<Command>)
    requires |argv| == 3
    ensures Shaped(db, ExpireGeneric(db, argv, op, now, lazy), now, lazy, gone, tail)
  {
    hide Shaped, ParseLong, Wrap, ToMs, UnitOf, BaseOf, DelName, SetExpire;
    var r := ExpireGeneric(db, argv, op, now, lazy);
    if r == Result(db, []) {
      gone, tail := ShapedNothing(db, now, lazy);
    } else {
      var reaped := Reap(db, argv[1], now, lazy);
      assert reaped.fed + [] == reaped.fed;
      tail := r.fed[|reaped.fed|..];
      gone := ShapedStore(db, argv[1], r, now, lazy, tail);
    }
  }

  lemma {:induction false} ShapedAdd(db: Db, argv: Command, c: Collection, now: Long, lazy: bool)
      returns (gone: seq<Bytes>, tail: seq<Command>)
    ensures Shaped(db, ExecuteAdd(db, argv, c, now, lazy), now, lazy, gone, tail)
  {
    hide Shaped, Reap, IsExpired, Group, AddAll;
    var r := ExecuteAdd(db, argv, c, now, lazy);
    if !WellFormedAdd(argv, c) {
      gone, tail := ShapedNothing(db, now, lazy);
    } else {
      var reaped := Reap(db, argv[1], now, lazy);
      assert reaped.fed + [] == reaped.fed;
      tail := r.fed[|reaped.fed|..];
      gone := ShapedStore(db, argv[1], r, now, lazy, tail);
    }
  }

  lemma {:induction false} ReapedOnce(db: Db, keys: seq<Bytes>, now: Long)
    ensures NoDup(ReapedKeys(db, keys, now))
    ensures forall g | g in ReapedKeys(db, keys, now) :: g in keys && IsExpired(db, g, now)
    decreases |keys|
  {
    if keys != [] {
      var rest := ReapedKeys(Delete(db, [keys[0]]), keys[1..], now);
      ReapedOnce(Delete(db, [keys[0]]), keys[1..], now);
      assert keys[0] !in rest;
      assert NoDup([keys[0]] + rest);
    }
  }

  /** A deletion that counts removed a key that was not expired. */
  lemma {:induction false} CountedKey(db: Db, keys: seq<Bytes>, now: Long, lazy: bool) returns (k: Bytes)
    requires DeleteKeys(db, keys, now, lazy).count > 0
    ensures k in keys && k in db && k !in ReapedKeys(db, keys, now)
    decreases |keys|
  {
    var r := Reap(db, keys[0], now, lazy);
    var d := Delete(db, [keys[0]]);
    assert Delete(r.db, [keys[0]]) == d;
    ReapedOnce(d, keys[1..], now);
    if keys[0] in r.db {
      k := keys[0];
    } else {
      k := CountedKey(d, keys[1..], now, lazy);
    }
  }

  lemma {:induction false} ShapedDel(db: Db, argv: Command, now: Long, lazy: bool)
      returns (gone: seq<Bytes>, tail: seq<Command>)
    requires |argv| >= 2
    ensures Shaped(db, ExecuteDel(db, argv, now, lazy), now, lazy, gone, tail)
  {
    hide DeleteKeys, ReapedKeys, IsExpired, Dels;
    var keys := argv[1..];
    gone := ReapedKeys(db, keys, now);
    DeleteKeysDeletes(db, keys, now, lazy);
    DeleteKeysFed(db, keys, now, lazy);
    ReapedOnce(db, keys, now);
    if DeleteKeys(db, keys, now, lazy).count > 0 {
      tail := [argv];
      var k := CountedKey(db, keys, now, lazy);
      assert k in Delete(db, gone) && k !in Delete(db, keys);
    } else {
      tail := [];
    }
  }

  /** Every execution propagates deletions of expired keys and then at most one command. */
  lemma {:induction false} ExecuteIsShaped(db: Db, argv: Command, now: Long, lazy: bool, other: Other)
      returns (gone: seq<Bytes>, tail: seq<Command>)
    ensures Shaped(db, Execute(db, argv, now, lazy, other), now, lazy, gone, tail)
  {
    hide Shaped, OpOf, SetGeneric, ExpireGeneric, ExecuteDel, ExecuteAdd, ParseOptions;
    var op := OpOf(argv);
    if op == SET && |argv| >= 3 && ParseOptions(argv[3..], NO_OPTIONS).Some? {
      var o := ParseOptions(argv[3..], NO_OPTIONS).value;
      OneUnit(argv[3..], NO_OPTIONS, o);
      gone, tail := ShapedSet(db, argv, argv[1], argv[2], o, now, lazy);
    } else if (op == SETEX || op == PSETEX) && |argv| == 4 {
      var o := if op == SETEX then NO_OPTIONS.(ex := Some(argv[2])) else NO_OPTIONS.(px := Some(argv[2]));
      gone, tail := ShapedSet(db, argv, argv[1], argv[3], o, now, lazy);
    } else if IsExpire(op) && |argv| == 3 {
      gone, tail := ShapedExpire(db, argv, op, now, lazy);
    } else if op == DEL && |argv| >= 2 {
      gone, tail := ShapedDel(db, argv, now, lazy);
    } else if op.ADD? {
      gone, tail := ShapedAdd(db, argv, op.to, now, lazy);
    } else if op == OTHER && other(argv, db).Some? {
      gone, tail := [], [argv];
      ShapedPlain(db, argv, other(argv, db).value, now, lazy);
    } else {
      gone, tail := ShapedNothing(db, now, lazy);
    }
  }

  lemma ShapedPlain(db: Db, argv: Command, d: Db, now: Long, lazy: bool)
    ensures Shaped(db, Result(d, [argv]), now, lazy, [], [argv])
  {
    NoDels(lazy);
  }

  // ---------------------------------------------------------------- the commands written for it

  /** The command is written as two, SET and PEXPIREAT. */
  predicate IsPair(argv: Command, now: Long) {
    var t := Translate(argv, now);
    t.Some? && |t.value| == 2
  }

  /** The value stored by the first of the two. */
  function PairValue(argv: Command, now: Long): Bytes
    requires IsPair(argv, now)
  {
    var first := Translate(argv, now).value[0];
    if |first| == 3 then first[2] else []
  }

  lemma {:induction false} PairParts(argv: Command, now: Long) returns (when: Long)
    requires IsPair(argv, now)
    ensures |argv| >= 2 && OpOf(argv) != DEL
    ensures var t := Translate(argv, now).value;
            OpOf(t[0]) == SET && |t[0]| == 3 && t[0][1] == argv[1] && t[1] == PExpireAtCmd(argv[1], when)
  {
    hide OpOf, Wrap, ToMs, UnitOf, BaseOf, LastAfter, Strtoll;
    if OpOf(argv) == SET {
      SamePrefix(argv);
      var ex := LastAfter(argv[3..], EX);
      var px := LastAfter(argv[3..], PX);
      when := if ex.Some? then Wrap(ToMs(Strtoll(ex.value), UnitOf(EXPIRE)) + BaseOf(EXPIRE, now))
              else Wrap(ToMs(Strtoll(px.value), UnitOf(PEXPIRE)) + BaseOf(PEXPIRE, now));
    } else {
      SetNamed(argv[1], argv[3]);
      when := Wrap(ToMs(Strtoll(argv[2]), UnitOf(OpOf(argv))) + BaseOf(OpOf(argv), now));
    }
  }

  lemma {:induction false} DelNamed(key: Bytes, lazy: bool)
    ensures OpOf([DelName(lazy), key]) == DEL
  {
    DelResolves();
    assert UpperAll(UNLINK_NAME) == UNLINK_NAME;
  }

  lemma {:induction false} DelTranslates(key: Bytes, now: Long, lazy: bool)
    ensures Translate([DelName(lazy), key], now) == Some([[DelName(lazy), key]])
  {
    hide OpOf, DelName;
    DelNamed(key, lazy);
  }

  lemma {:induction false} DelsTranslate(gone: seq<Bytes>, now: Long, lazy: bool)
    ensures TranslateAll(Dels(gone, lazy), now) == Some(Dels(gone, lazy))
    decreases |gone|
  {
    hide Translate, DelName;
    if gone != [] {
      DelTranslates(gone[0], now, lazy);
      DelsTranslate(gone[1..], now, lazy);
      assert Dels(gone, lazy)[1..] == Dels(gone[1..], lazy);
      assert Dels(gone, lazy) == [[DelName(lazy), gone[0]]] + Dels(gone[1..], lazy);
    }
  }

  lemma {:induction false} TranslationSize(argv: Command, now: Long)
    ensures Translate(argv, now).Some? ==> 1 <= |Translate(argv, now).value| <= 2
  {
    hide OpOf, LastAfter, ExpireAt;
  }

  /** What is written: the deletions, and the translation of the last command. */
  lemma {:induction false} ShapedTranslates(r: Result, now: Long, lazy: bool, gone: seq<Bytes>, tail: seq<Command>)
    requires r.fed == Dels(gone, lazy) + tail && |tail| <= 1 && TranslateAll(r.fed, now).Some?
    ensures TranslateAll(tail, now).Some? && |TranslateAll(tail, now).value| <= 2
    ensures tail == [] ==> TranslateAll(tail, now) == Some([])
    ensures tail != [] ==> TranslateAll(tail, now) == Translate(tail[0], now) && TranslateAll(tail, now).value != []
    ensures TranslateAll(r.fed, now).value == Dels(gone, lazy) + TranslateAll(tail, now).value
  {
    hide Translate, TranslateAll, Dels;
    TranslateConcat(Dels(gone, lazy), tail, now);
    DelsTranslate(gone, now, lazy);
    if tail != [] {
      assert tail == [tail[0]];
      TranslateOne(tail[0], now);
      TranslationSize(tail[0], now);
    } else {
      TranslateNone(now);
    }
  }

  lemma TranslateNone(now: Long)
    ensures TranslateAll([], now) == Some([])
  {}

  lemma {:induction false} ReplayDels(db: Db, gone: seq<Bytes>, now: Long, lazy: bool, other: Other)
    ensures ReplayTo(db, Dels(gone, lazy), other) == Delete(db, gone)
  {
    hide ReplayTo, Dels;
    CarriesDels(db, gone, now, lazy, other);
    DelsTranslate(gone, now, lazy);
  }

  // ---------------------------------------------------------------- the first q of them

  /** What clients can see of a database at `now`. */
  function Seen(db: Db, now: Long): Db { map k | k in db && !IsExpired(db, k, now) :: db[k] }

  /** Of the commands written for `argv`, all but the PEXPIREAT of a pair. */
  predicate Torn(fed: seq<Command>, argv: Command, now: Long, q: nat) {
    argv in fed && IsPair(argv, now) && TranslateAll(fed, now).Some? && q + 1 == |TranslateAll(fed, now).value|
  }

  /** The key already held the new value, without an expiry. */
  predicate Held(db: Db, argv: Command, now: Long) {
    && IsPair(argv, now) && |argv| >= 2
    && argv[1] in db && db[argv[1]] == Entry(Str(PairValue(argv, now)), None)
  }

  lemma {:induction false} SeenWithout(db: Db, gone: seq<Bytes>, now: Long)
    requires forall g | g in gone :: IsExpired(db, g, now)
    ensures Seen(Delete(db, gone), now) == Seen(db, now)
  {}

  /** Deletions of expired keys cannot be seen; the database itself changes with the first. */
  lemma {:induction false} SomeDels(db: Db, r: Result, now: Long, lazy: bool, gone: seq<Bytes>, tail: seq<Command>,
                                    q: nat)
    requires Shaped(db, r, now, lazy, gone, tail) && q <= |gone| && (q == |gone| ==> tail != [])
    requires tail == [] ==> r.db == Delete(db, gone)
    ensures var d := Delete(db, gone[..q]);
            Seen(d, now) == Seen(db, now) && ((d == db || d == r.db) <==> q == 0)
  {
    var d := Delete(db, gone[..q]);
    SeenWithout(db, gone[..q], now);
    if q == 0 {
      assert d == db;
    } else {
      assert gone[0] in gone && gone[0] in gone[..q];
      if q == |gone| {
        assert gone[..q] == gone;
      } else {
        assert gone[q] !in gone[..q] && gone[q] in gone;
        assert gone[q] in d && gone[q] !in r.db;
      }
    }
  }

  /** A pair without its second half stores the value and no expiry. */
  lemma {:induction false} TornState(db: Db, argv: Command, gone: seq<Bytes>, d: Db, now: Long, lazy: bool,
                                     other: Other)
      returns (when: Long)
    requires IsPair(argv, now) && ReplayTo(db, Dels(gone, lazy) + Translate(argv, now).value, other) == d
    ensures |argv| >= 2
    ensures var t := Dels(gone, lazy) + Translate(argv, now).value;
            var half := SetKey(Delete(db, gone), argv[1], PairValue(argv, now), None);
            ReplayTo(db, t[..|t| - 1], other) == half && d == SetExpire(half, argv[1], when)
  {
    hide Translate, Dels, Fold, ApplyTo, OpOf, SetKey, SetExpire, Delete;
    when := PairParts(argv, now);
    var pair, dels := Translate(argv, now).value, Dels(gone, lazy);
    var start := Delete(db, gone);
    ReplayDels(db, gone, now, lazy, other);
    var step := (d: Db, c: Command) => ApplyTo(d, c, other);
    assert (dels + pair)[..|dels| + 1] == dels + [pair[0]];
    assert pair == [pair[0]] + [pair[1]];
    FoldConcat(step, db, dels, pair);
    FoldConcat(step, db, dels, [pair[0]]);
    FoldConcat(step, start, [pair[0]], [pair[1]]);
    ReplaySetOnly(start, pair[0], other);
    var half := SetKey(start, argv[1], PairValue(argv, now), None);
    FoldOne(step, half, pair[1]);
    ReplayExpiry(half, argv[1], when, other);
  }

  lemma {:induction false} ReplayExpiry(db: Db, key: Bytes, when: Long, other: Other)
    ensures ApplyTo(db, PExpireAtCmd(key, when), other) == SetExpire(db, key, when)
  {
    hide Print;
    PExpireAtResolves();
    ParseExact(when);
  }

  /** It is what was there before exactly if the key held that value without an expiry, and never what
      is there afterwards, neither exactly nor as far as clients can see. */
  lemma {:induction false} HalfIsNew(db: Db, gone: seq<Bytes>, key: Bytes, v: Bytes, when: Long, now: Long)
    requires forall g | g in gone :: IsExpired(db, g, now)
    ensures var half := SetKey(Delete(db, gone), key, v, None);
            var d := SetExpire(half, key, when);
            var held := key in db && db[key] == Entry(Str(v), None);
            && (Seen(half, now) == Seen(db, now) || Seen(half, now) == Seen(d, now) <==> held)
            && (gone == [] || gone == [key] ==> (half == db || half == d <==> held))
  {
    var half := SetKey(Delete(db, gone), key, v, None);
    var d := SetExpire(half, key, when);
    SeenWithout(db, gone, now);
    assert key in Seen(half, now) && Seen(half, now)[key] == Entry(Str(v), None);
    if key in Seen(d, now) { assert Seen(d, now)[key].expire == Some(when); }
    if key in db && db[key] == Entry(Str(v), None) {
      assert key !in gone;
      assert Seen(half, now) == Seen(Delete(db, gone), now);
      if gone == [] || gone == [key] { assert half == db; }
    }
  }

  /** A command written as a pair may reap its own key first, and no other. */
  lemma {:induction false} PairFed(db: Db, argv: Command, now: Long, lazy: bool, other: Other)
    requires IsPair(argv, now) && argv in Execute(db, argv, now, lazy, other).fed
    ensures |argv| >= 2 && Execute(db, argv, now, lazy, other).fed == Reap(db, argv[1], now, lazy).fed + [argv]
  {
    hide OpOf, ParseOptions, SetGeneric, ExpireAt, LastAfter, Stores, DelName;
    DelNamed(argv[1], lazy);
    if OpOf(argv) == SET {
      var o := ParseOptions(argv[3..], NO_OPTIONS).value;
      OneUnit(argv[3..], NO_OPTIONS, o);
      SetGenericOutcome(db, argv, argv[1], argv[2], o, now, lazy);
    } else {
      var o := if OpOf(argv) == SETEX then NO_OPTIONS.(ex := Some(argv[2])) else NO_OPTIONS.(px := Some(argv[2]));
      SetGenericOutcome(db, argv, argv[1], argv[3], o, now, lazy);
    }
  }

  /** What is left of a call when the first q of its commands are replayed. */
  predicate Leaves(db: Db, r: Result, argv: Command, now: Long, q: nat, size: nat, d: Db) {
    && (q == size ==> d == r.db)
    && (d == db || d == r.db <==> q == 0 || q == size || (Torn(r.fed, argv, now, q) && Held(db, argv, now)))
    && (Seen(d, now) == Seen(db, now) || Seen(d, now) == Seen(r.db, now) <==>
          !Torn(r.fed, argv, now, q) || Held(db, argv, now))
  }

  lemma {:induction false} TornLeaves(db: Db, argv: Command, now: Long, lazy: bool, other: Other, q: nat)
    requires var r := Execute(db, argv, now, lazy, other);
             Carries(db, r.fed, now, other, r.db) && Torn(r.fed, argv, now, q)
    ensures var r := Execute(db, argv, now, lazy, other);
            var t := TranslateAll(r.fed, now).value;
            var d := ReplayTo(db, t[..q], other);
            && Leaves(db, r, argv, now, q, |t|, d) && q > 0 && |argv| >= 2
            && d == SetKey(Reap(db, argv[1], now, lazy).db, argv[1], PairValue(argv, now), None)
  {
    hide Translate, TranslateAll, ReplayTo, Execute, DelName, PairValue, Dels;
    var r := Execute(db, argv, now, lazy, other);
    PairFed(db, argv, now, lazy, other);
    var gone := if IsExpired(db, argv[1], now) then [argv[1]] else [];
    NoDels(lazy);
    OneDel(argv[1], lazy);
    ShapedTranslates(r, now, lazy, gone, [argv]);
    var when := TornState(db, argv, gone, r.db, now, lazy, other);
    HalfIsNew(db, gone, argv[1], PairValue(argv, now), when, now);
    if gone == [] { assert Delete(db, gone) == db; }
  }

  lemma {:induction false} WholeLeaves(db: Db, argv: Command, now: Long, lazy: bool, other: Other, q: nat)
    requires var r := Execute(db, argv, now, lazy, other);
             Carries(db, r.fed, now, other, r.db) && q <= |TranslateAll(r.fed, now).value| && !Torn(r.fed, argv, now, q)
    ensures var r := Execute(db, argv, now, lazy, other);
            var t := TranslateAll(r.fed, now).value;
            Leaves(db, r, argv, now, q, |t|, ReplayTo(db, t[..q], other))
  {
    hide Translate, TranslateAll, ReplayTo, Execute, DelName, Held, Shaped, Delete;
    var r := Execute(db, argv, now, lazy, other);
    var t := TranslateAll(r.fed, now).value;
    var gone, tail := ExecuteIsShaped(db, argv, now, lazy, other);
    if q == |t| {
      assert t[..q] == t;
    } else {
      OnlyDels(db, argv, now, lazy, other, q, gone, tail);
      assert t[..q] == Dels(gone[..q], lazy);
      ReplayDels(db, gone[..q], now, lazy, other);
      SomeDels(db, r, now, lazy, gone, tail, q);
    }
  }

  /** Anything but a torn pair is cut among its deletions. */
  lemma {:induction false} OnlyDels(db: Db, argv: Command, now: Long, lazy: bool, other: Other, q: nat,
                                    gone: seq<Bytes>, tail: seq<Command>)
    requires var r := Execute(db, argv, now, lazy, other);
             && Carries(db, r.fed, now, other, r.db) && q < |TranslateAll(r.fed, now).value|
             && !Torn(r.fed, argv, now, q) && Shaped(db, r, now, lazy, gone, tail)
    ensures q <= |gone| && (q == |gone| ==> tail != [])
    ensures TranslateAll(Execute(db, argv, now, lazy, other).fed, now).value[..q] == Dels(gone[..q], lazy)
    ensures tail == [] ==> Execute(db, argv, now, lazy, other).db == Delete(db, gone)
  {
    hide Translate, TranslateAll, ReplayTo, Execute, DelName, Delete;
    var r := Execute(db, argv, now, lazy, other);
    var t := TranslateAll(r.fed, now).value;
    ShapedTranslates(r, now, lazy, gone, tail);
    if tail == [] {
      assert t == Dels(gone, lazy);
      ReplayDels(db, gone, now, lazy, other);
    } else if |gone| < q {
      assert tail[0] in r.fed;
      if tail[0] != argv {
        var key := P.PropagatedDeletion(db, argv, now, lazy, other, tail[0]);
        DelTranslates(key, now, lazy);
      }
      assert false;
    }
  }

  /** What a loading server has after the first q commands written for any call: what was there before
      or afterwards if q is none or all of them, and as far as clients can see unless a pair is torn; a
      torn pair leaves the value without its expiry, which is neither unless it was there already. */
  lemma {:induction false} CallLeaves(db: Db, argv: Command, now: Long, lazy: bool, other: Other, q: nat)
    requires !Stops(db, argv, now)
    requires TranslateAll(Execute(db, argv, now, lazy, other).fed, now).Some?
    requires q <= |TranslateAll(Execute(db, argv, now, lazy, other).fed, now).value|
    ensures var r := Execute(db, argv, now, lazy, other);
            var t := TranslateAll(r.fed, now).value;
            var d := ReplayTo(db, t[..q], other);
            && Leaves(db, r, argv, now, q, |t|, d)
            && (Torn(r.fed, argv, now, q) ==>
                  && q > 0 && |argv| >= 2
                  && d == SetKey(Reap(db, argv[1], now, lazy).db, argv[1], PairValue(argv, now), None))
  {
    hide Carries, Execute, TranslateAll, ReplayTo, Leaves, Stops, Torn, PairValue;
    var r := Execute(db, argv, now, lazy, other);
    ExecuteIsFaithful(db, argv, now, lazy, other);
    if Torn(r.fed, argv, now, q) { TornLeaves(db, argv, now, lazy, other, q); }
    else { WholeLeaves(db, argv, now, lazy, other, q); }
  }
}
