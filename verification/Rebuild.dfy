/** Replaying a rewritten append only file from empty rebuilds the dataset it was taken from. */
module Rebuild {
  import opened Basics
  import opened Decimal
  import opened Resp
  import opened Dataset
  import opened Snapshot

  // ---------------------------------------------------------------- what an iteration shows

  predicate Distinct(items: seq<seq<Bytes>>, at: nat)
    requires forall i | 0 <= i < |items| :: at < |items[i]|
  {
    forall i, j | 0 <= i < j < |items| :: items[i][at] != items[j][at]
  }

  function Column(items: seq<seq<Bytes>>, at: nat): set<Bytes>
    requires forall i | 0 <= i < |items| :: at < |items[i]|
  {
    set i | 0 <= i < |items| :: items[i][at]
  }

  /** A map given as pairs, in some order, every key once. */
  predicate Tabulates(m: map<Bytes, Bytes>, items: seq<seq<Bytes>>, key: nat, val: nat)
    requires forall i | 0 <= i < |items| :: key < |items[i]| && val < |items[i]|
  {
    Distinct(items, key) && m.Keys == Column(items, key) &&
    forall i | 0 <= i < |items| :: items[i][key] in m && m[items[i][key]] == items[i][val]
  }

  /** `o` shows exactly the content of `v`; a stored collection is never empty. */
  predicate Shows(v: Value, o: Obj) {
    match o
    case StrObj(b) => v == Str(b)
    case CollObj(c, items) =>
      OfType(v, c) && Items(c, items) && items != [] &&
      match c
      case Lists => v.items == seq(|items|, i requires 0 <= i < |items| => items[i][0])
      case Sets => v.members == Column(items, 0)
      case Hashes => Tabulates(v.fields, items, 0, 1)
      case ZSets => Tabulates(v.scores, items, 1, 0)
  }

  predicate DistinctKeys(rows: seq<Row>) { forall i, j | 0 <= i < j < |rows| :: rows[i].key != rows[j].key }

  function Keys(rows: seq<Row>): set<Bytes> { set i | 0 <= i < |rows| :: rows[i].key }

  predicate RowShows(db: Db, row: Row) {
    row.key in db && Shows(db[row.key].value, row.obj) && row.expire == db[row.key].expire
  }

  /** The rows are one pass over the dictionary. */
  predicate Iterates(db: Db, rows: seq<Row>) {
    DistinctKeys(rows) && Keys(rows) == db.Keys && forall i | 0 <= i < |rows| :: RowShows(db, rows[i])
  }

  // ---------------------------------------------------------------- collections

  lemma {:induction false} AddedToList(items: seq<seq<Bytes>>, start: seq<Bytes>)
    requires Items(Lists, items)
    ensures AddAll(List(start), Lists, items) ==
            List(start + seq(|items|, i requires 0 <= i < |items| => items[i][0]))
    decreases |items|
  {
    if items != [] {
      AddedToList(items[1..], start + [items[0][0]]);
    }
  }

  lemma {:induction false} AddedToSet(items: seq<seq<Bytes>>, start: set<Bytes>)
    requires Items(Sets, items)
    ensures AddAll(Set(start), Sets, items) == Set(start + Column(items, 0))
    decreases |items|
  {
    if items != [] {
      AddedToSet(items[1..], start + {items[0][0]});
      ColumnStep(items, 0);
    }
  }

  lemma {:induction false} ColumnStep(items: seq<seq<Bytes>>, at: nat)
    requires items != [] && forall i | 0 <= i < |items| :: at < |items[i]|
    ensures Column(items, at) == {items[0][at]} + Column(items[1..], at)
  {
    forall x | x in Column(items, at) ensures x in {items[0][at]} + Column(items[1..], at) {
      var i :| 0 <= i < |items| && items[i][at] == x;
      if i > 0 { assert items[1..][i - 1][at] == x; }
    }
    forall x | x in Column(items[1..], at) ensures x in Column(items, at) {
      var i :| 0 <= i < |items| - 1 && items[1..][i][at] == x;
      assert items[i + 1][at] == x;
    }
  }

  function Put(m: map<Bytes, Bytes>, items: seq<seq<Bytes>>, key: nat, val: nat): map<Bytes, Bytes>
    requires forall i | 0 <= i < |items| :: key < |items[i]| && val < |items[i]|
    decreases |items|
  {
    if items == [] then m else Put(m[items[0][key] := items[0][val]], items[1..], key, val)
  }

  lemma {:induction false} AddedToHash(items: seq<seq<Bytes>>, start: map<Bytes, Bytes>)
    requires Items(Hashes, items)
    ensures AddAll(Hash(start), Hashes, items) == Hash(Put(start, items, 0, 1))
    decreases |items|
  {
    if items != [] { AddedToHash(items[1..], start[items[0][0] := items[0][1]]); }
  }

  lemma {:induction false} AddedToZSet(items: seq<seq<Bytes>>, start: map<Bytes, Bytes>)
    requires Items(ZSets, items)
    ensures AddAll(ZSet(start), ZSets, items) == ZSet(Put(start, items, 1, 0))
    decreases |items|
  {
    if items != [] { AddedToZSet(items[1..], start[items[0][1] := items[0][0]]); }
  }

  lemma {:induction false} PutKeys(m: map<Bytes, Bytes>, items: seq<seq<Bytes>>, key: nat, val: nat)
    requires forall i | 0 <= i < |items| :: key < |items[i]| && val < |items[i]|
    ensures Put(m, items, key, val).Keys == m.Keys + Column(items, key)
    decreases |items|
  {
    if items != [] {
      PutKeys(m[items[0][key] := items[0][val]], items[1..], key, val);
      ColumnStep(items, key);
    }
  }

  /** Later items leave alone what an earlier one stored under another key. */
  lemma {:induction false} PutKeeps(m: map<Bytes, Bytes>, items: seq<seq<Bytes>>, key: nat, val: nat, k: Bytes)
    requires forall i | 0 <= i < |items| :: key < |items[i]| && val < |items[i]|
    requires k in m && forall i | 0 <= i < |items| :: items[i][key] != k
    ensures k in Put(m, items, key, val) && Put(m, items, key, val)[k] == m[k]
    decreases |items|
  {
    if items != [] { PutKeeps(m[items[0][key] := items[0][val]], items[1..], key, val, k); }
  }

  lemma {:induction false} PutStores(m: map<Bytes, Bytes>, items: seq<seq<Bytes>>, key: nat, val: nat, i: nat)
    requires forall i | 0 <= i < |items| :: key < |items[i]| && val < |items[i]|
    requires Distinct(items, key) && i < |items|
    ensures items[i][key] in Put(m, items, key, val) && Put(m, items, key, val)[items[i][key]] == items[i][val]
    decreases |items|
  {
    var m' := m[items[0][key] := items[0][val]];
    if i == 0 {
      PutKeeps(m', items[1..], key, val, items[0][key]);
    } else {
      PutStores(m', items[1..], key, val, i - 1);
    }
  }

  lemma {:induction false} PutBuilds(m: map<Bytes, Bytes>, items: seq<seq<Bytes>>, key: nat, val: nat)
    requires forall i | 0 <= i < |items| :: key < |items[i]| && val < |items[i]|
    requires Tabulates(m, items, key, val)
    ensures Put(map[], items, key, val) == m
  {
    var built := Put(map[], items, key, val);
    PutKeys(map[], items, key, val);
    forall k | k in m ensures k in built && built[k] == m[k] {
      var i :| 0 <= i < |items| && items[i][key] == k;
      PutStores(map[], items, key, val, i);
    }
  }

  /** Adding everything an iteration shows to an empty collection gives the collection. */
  lemma {:induction false} AddAllRebuilds(v: Value, c: Collection, items: seq<seq<Bytes>>)
    requires Shows(v, CollObj(c, items))
    ensures AddAll(EmptyOf(c), c, items) == v
  {
    match c
    case Lists =>
      AddedToList(items, []);
      assert [] + v.items == v.items;
    case Sets =>
      AddedToSet(items, {});
    case Hashes =>
      AddedToHash(items, map[]);
      PutBuilds(v.fields, items, 0, 1);
    case ZSets =>
      AddedToZSet(items, map[]);
      PutBuilds(v.scores, items, 1, 0);
  }

  // ---------------------------------------------------------------- replaying rows

  function Selected(s: Server): Db
    requires s.Valid()
  {
    s.dbs[s.sel]
  }

  function With(s: Server, db: Db): (r: Server)
    requires s.Valid()
    ensures r.Valid() && |r.dbs| == |s.dbs| && Selected(r) == db
  {
    s.(dbs := s.dbs[s.sel := db])
  }

  lemma {:induction false} ReplayFirst(s: Server, argv: Command, log: seq<Command>, other: Other)
    ensures Replay(s, [argv] + log, other) == Replay(Apply(s, argv, other), log, other)
  {
    hide Replay, Apply;
    ReplayConcat(s, [argv], log, other);
    ReplayOne(s, argv, other);
  }

  lemma {:induction false} WithWith(s: Server, d: Db, e: Db)
    requires s.Valid()
    ensures With(With(s, d), e) == With(s, e)
  {}

  /** `db` with `items` added under `key`, keeping its expiry. */
  function Stored(db: Db, c: Collection, key: Bytes, items: seq<seq<Bytes>>): Db
    requires Items(c, items) && OfType(Lookup(db, key, c), c)
  {
    db[key := Entry(AddAll(Lookup(db, key, c), c, items), ExpireOf(db, key))]
  }

  lemma {:induction false} StoredTwice(db: Db, c: Collection, key: Bytes, a: seq<seq<Bytes>>, b: seq<seq<Bytes>>)
    requires Items(c, a) && Items(c, b) && OfType(Lookup(db, key, c), c)
    ensures OfType(Lookup(Stored(db, c, key, a), key, c), c)
    ensures Stored(Stored(db, c, key, a), c, key, b) == Stored(db, c, key, a + b)
  {
    hide AddAll;
    AddConcat(Lookup(db, key, c), c, a, b);
  }

  /** The chunks of a collection add up to the whole collection. */
  lemma {:induction false} ReplayChunks(s: Server, c: Collection, key: Bytes, items: seq<seq<Bytes>>, limit: nat,
                                        other: Other)
    requires s.Valid() && limit > 0 && Items(c, items) && items != [] && OfType(Lookup(Selected(s), key, c), c)
    ensures Replay(s, Chunks(c, key, items, limit), other) == With(s, Stored(Selected(s), c, key, items))
    decreases |items|, 0
  {
    hide Replay, Apply, AddCmd, AddAll, Lookup;
    var n := Min(limit, |items|);
    var first, rest := items[..n], items[n..];
    assert items == first + rest;
    var db := Selected(s);
    var t := With(s, Stored(db, c, key, first));
    assert Apply(s, AddCmd(c, key, first), other) == t by { ApplyAdd(s, c, key, first, other); }
    ReplayFirst(s, AddCmd(c, key, first), Chunks(c, key, rest, limit), other);
    StoredTwice(db, c, key, first, rest);
    if rest == [] {
      ReplayNone(t, other);
      assert first == items;
    } else {
      ReplayRest(s, t, c, key, first, rest, limit, other);
    }
  }

  lemma {:induction false} ReplayRest(s: Server, t: Server, c: Collection, key: Bytes, first: seq<seq<Bytes>>,
                                      rest: seq<seq<Bytes>>, limit: nat, other: Other)
    requires s.Valid() && limit > 0 && Items(c, first) && Items(c, rest) && rest != [] &&
             OfType(Lookup(Selected(s), key, c), c)
    requires t == With(s, Stored(Selected(s), c, key, first)) && Items(c, first + rest)
    requires OfType(Lookup(Selected(t), key, c), c)
    ensures Replay(t, Chunks(c, key, rest, limit), other) == With(s, Stored(Selected(s), c, key, first + rest))
    decreases |rest|, 1
  {
    hide Replay, Chunks, AddAll, Lookup, Stored;
    ReplayChunks(t, c, key, rest, limit, other);
    StoredTwice(Selected(s), c, key, first, rest);
    WithWith(s, Selected(t), Stored(Selected(s), c, key, first + rest));
  }

  /** An expiry of exactly -1 reads as "none". */
  function Kept(expire: Option<Long>): Option<Long> { if expire == Some(-1) then None else expire }

  function KeptEntry(e: Entry): Entry { e.(expire := Kept(e.expire)) }

  lemma {:induction false} ReplayValue(s: Server, row: Row, e: Entry, limit: nat, other: Other)
    requires s.Valid() && limit > 0 && row.key !in Selected(s) && Shows(e.value, row.obj)
    ensures Replay(s, ValueLog(row, limit), other) == With(s, Selected(s)[row.key := Entry(e.value, None)])
  {
    hide Replay, Apply, Chunks, AddAll;
    match row.obj
    case StrObj(b) =>
      ReplayOne(s, SetCmd(row.key, b), other);
      ApplySet(s, row.key, b, other);
    case CollObj(c, items) =>
      ReplayChunks(s, c, row.key, items, limit, other);
      AddAllRebuilds(e.value, c, items);
  }

  lemma {:induction false} ReplayExpire(s: Server, row: Row, v: Value, db: Db, other: Other)
    requires s.Valid() && Selected(s) == db[row.key := Entry(v, None)]
    ensures Replay(s, ExpireLog(row), other) == With(s, db[row.key := Entry(v, Kept(row.expire))])
  {
    hide Replay, Apply;
    if GetExpire(row) != -1 {
      ReplayOne(s, PExpireAtCmd(row.key, GetExpire(row)), other);
      ApplyPExpireAt(s, row.key, GetExpire(row), other);
      assert db[row.key := Entry(v, None)][row.key := Entry(v, row.expire)] == db[row.key := Entry(v, row.expire)];
    } else {
      ReplayNone(s, other);
      assert s.dbs[s.sel := Selected(s)] == s.dbs;
    }
  }

  lemma {:induction false} ReplayRow(s: Server, row: Row, e: Entry, limit: nat, other: Other)
    requires s.Valid() && limit > 0 && row.key !in Selected(s) && Shows(e.value, row.obj) && row.expire == e.expire
    ensures Replay(s, ValueLog(row, limit) + ExpireLog(row), other) == With(s, Selected(s)[row.key := KeptEntry(e)])
  {
    hide Replay, ValueLog, ExpireLog, Shows;
    var db := Selected(s);
    var t := With(s, db[row.key := Entry(e.value, None)]);
    ReplayConcat(s, ValueLog(row, limit), ExpireLog(row), other);
    ReplayValue(s, row, e, limit, other);
    ReplayExpire(t, row, e.value, db, other);
    WithWith(s, Selected(t), db[row.key := KeptEntry(e)]);
  }

  /** The part of `db` the rows speak about, as it is read back. */
  function Part(db: Db, rows: seq<Row>): Db { map k | k in db && k in Keys(rows) :: KeptEntry(db[k]) }

  lemma {:induction false} PartStep(acc: Db, db: Db, rows: seq<Row>)
    requires rows != [] && DistinctKeys(rows) && rows[0].key in db
    ensures acc[rows[0].key := KeptEntry(db[rows[0].key])] + Part(db, rows[1..]) == acc + Part(db, rows)
  {
    KeysStep(rows);
    assert rows[0].key !in Keys(rows[1..]);
  }

  lemma {:induction false} KeysStep(rows: seq<Row>)
    requires rows != []
    ensures Keys(rows) == {rows[0].key} + Keys(rows[1..])
  {
    forall k | k in Keys(rows) ensures k in {rows[0].key} + Keys(rows[1..]) {
      var i :| 0 <= i < |rows| && rows[i].key == k;
      if i > 0 { assert rows[1..][i - 1].key == k; }
    }
    forall k | k in Keys(rows[1..]) ensures k in Keys(rows) {
      var i :| 0 <= i < |rows| - 1 && rows[1..][i].key == k;
      assert rows[i + 1].key == k;
    }
  }

  lemma {:induction false} ReplayRows(s: Server, rows: seq<Row>, db: Db, limit: nat, other: Other)
    requires s.Valid() && limit > 0 && DistinctKeys(rows) && Selected(s).Keys !! Keys(rows)
    requires forall i | 0 <= i < |rows| :: RowShows(db, rows[i])
    ensures Replay(s, RowsLog(rows, limit), other) == With(s, Selected(s) + Part(db, rows))
    decreases |rows|
  {
    hide Replay, ValueLog, ExpireLog, Shows, Part;
    var acc := Selected(s);
    if rows == [] {
      ReplayNone(s, other);
      PartOfNone(acc, db);
      assert s.dbs[s.sel := acc] == s.dbs;
    } else {
      var row, rest := rows[0], rows[1..];
      var e := db[row.key];
      KeysStep(rows);
      assert RowShows(db, row);
      ReplayConcat(s, ValueLog(row, limit) + ExpireLog(row), RowsLog(rest, limit), other);
      ReplayRow(s, row, e, limit, other);
      var t := With(s, acc[row.key := KeptEntry(e)]);
      assert row.key !in Keys(rest);
      ReplayRows(t, rest, db, limit, other);
      PartStep(acc, db, rows);
      WithWith(s, acc[row.key := KeptEntry(e)], acc + Part(db, rows));
    }
  }

  lemma {:induction false} PartOfNone(acc: Db, db: Db)
    ensures acc + Part(db, []) == acc
  {}

  // ---------------------------------------------------------------- replaying databases

  function KeptDb(db: Db): Db { map k | k in db :: KeptEntry(db[k]) }

  lemma {:induction false} ReplayTable(s: Server, j: nat, rows: seq<Row>, db: Db, limit: nat, other: Other)
    requires s.Valid() && limit > 0 && j < |s.dbs| && s.dbs[j] == map[] && Iterates(db, rows)
    ensures var t := Replay(s, TableLog(j, rows, limit), other);
            t.Valid() && t.dbs == s.dbs[j := KeptDb(db)]
  {
    hide Replay, Apply, RowsLog, Shows;
    if rows == [] {
      ReplayNone(s, other);
      assert db == map[];
      assert s.dbs[j := map[]] == s.dbs;
    } else {
      ReplayFirst(s, SelectCmd(j), RowsLog(rows, limit), other);
      ApplySelect(s, j, other);
      var t := s.(sel := j);
      ReplayRows(t, rows, db, limit, other);
      assert map[] + Part(db, rows) == KeptDb(db);
    }
  }

  predicate AllIterate(dbs: seq<Db>, tables: seq<seq<Row>>) {
    |dbs| == |tables| && forall j | 0 <= j < |dbs| :: Iterates(dbs[j], tables[j])
  }

  function KeptDbs(dbs: seq<Db>): seq<Db> { seq(|dbs|, j requires 0 <= j < |dbs| => KeptDb(dbs[j])) }

  lemma {:induction false} ReplayTables(s: Server, tables: seq<seq<Row>>, dbs: seq<Db>, j: nat, limit: nat,
                                        other: Other)
    requires s.Valid() && limit > 0 && AllIterate(dbs, tables) && j <= |dbs| == |s.dbs|
    requires forall i | j <= i < |dbs| :: s.dbs[i] == map[]
    ensures var t := Replay(s, SnapshotLog(tables, j, limit), other);
            t.Valid() && t.dbs == s.dbs[..j] + KeptDbs(dbs)[j..]
    decreases |dbs| - j
  {
    hide Replay, TableLog, Iterates, KeptDb;
    if j == |dbs| {
      ReplayNone(s, other);
    } else {
      ReplayConcat(s, TableLog(j, tables[j], limit), SnapshotLog(tables, j + 1, limit), other);
      ReplayTable(s, j, tables[j], dbs[j], limit, other);
      ReplayTables(Replay(s, TableLog(j, tables[j], limit), other), tables, dbs, j + 1, limit, other);
    }
  }

  /** A rewrite taken of any dataset, in any iteration order, replays to that dataset, up to
      expiries of exactly -1. */
  lemma {:induction false} SnapshotRebuilds(tables: seq<seq<Row>>, dbs: seq<Db>, limit: nat, other: Other)
    requires limit > 0 && 0 < |dbs| <= INT_MAX && AllIterate(dbs, tables)
    ensures var t := Replay(EmptyServer(|dbs|), SnapshotLog(tables, 0, limit), other);
            t.Valid() && t.dbs == KeptDbs(dbs)
  {
    hide Replay, SnapshotLog, AllIterate, KeptDb;
    ReplayTables(EmptyServer(|dbs|), tables, dbs, 0, limit, other);
  }

  predicate NoMinusOne(dbs: seq<Db>) {
    forall j, k | 0 <= j < |dbs| && k in dbs[j] :: dbs[j][k].expire != Some(-1)
  }

  lemma {:induction false} KeptExactly(dbs: seq<Db>)
    ensures KeptDbs(dbs) == dbs <==> NoMinusOne(dbs)
  {
    if NoMinusOne(dbs) {
      forall j | 0 <= j < |dbs| ensures KeptDbs(dbs)[j] == dbs[j] {
        assert KeptDb(dbs[j]) == dbs[j];
      }
    } else {
      var j, k :| 0 <= j < |dbs| && k in dbs[j] && dbs[j][k].expire == Some(-1);
      assert KeptDbs(dbs)[j][k].expire == None;
    }
  }

  /** The rebuilt dataset is the original one exactly when no key carries the expiry -1. */
  lemma {:induction false} SnapshotIsFaithful(tables: seq<seq<Row>>, dbs: seq<Db>, limit: nat, other: Other)
    requires limit > 0 && 0 < |dbs| <= INT_MAX && AllIterate(dbs, tables)
    ensures Replay(EmptyServer(|dbs|), SnapshotLog(tables, 0, limit), other).dbs == dbs <==> NoMinusOne(dbs)
  {
    hide Replay, SnapshotLog, AllIterate, KeptDbs, NoMinusOne;
    SnapshotRebuilds(tables, dbs, limit, other);
    KeptExactly(dbs);
  }

  /** SET k v and PEXPIREAT k -1 in a log are loaded as they are; a snapshot of the result, of one
      database with one key, rebuilds k without an expiry. */
  lemma {:induction false} MinusOneIsLost(key: Bytes, v: Bytes, limit: nat, other: Other)
    requires limit > 0
    ensures var dbs := Replay(EmptyServer(1), [SetCmd(key, v), PExpireAtCmd(key, -1)], other).dbs;
            var tables := [[Row(key, StrObj(v), Some(-1))]];
            && dbs == [map[key := Entry(Str(v), Some(-1))]] && AllIterate(dbs, tables)
            && Replay(EmptyServer(1), SnapshotLog(tables, 0, limit), other).dbs == [map[key := Entry(Str(v), None)]]
  {
    hide Replay, Apply, Print, SnapshotLog;
    var base := EmptyServer(1);
    var a, b := SetCmd(key, v), PExpireAtCmd(key, -1);
    ApplySet(base, key, v, other);
    var t := Server(0, [map[key := Entry(Str(v), None)]]);
    assert base.dbs[0 := SetKey(base.dbs[0], key, v, None)] == t.dbs;
    ApplyPExpireAt(t, key, -1, other);
    assert [a, b] == [a] + [b];
    ReplayConcat(base, [a], [b], other);
    ReplayOne(base, a, other);
    ReplayOne(t, b, other);
    var dbs := [map[key := Entry(Str(v), Some(-1))]];
    assert SetExpire(t.dbs[0], key, -1) == dbs[0];
    assert t.dbs[0 := SetExpire(t.dbs[0], key, -1)] == dbs;
    var tables := [[Row(key, StrObj(v), Some(-1))]];
    assert Keys(tables[0]) == {key} by { assert tables[0][0].key == key; }
    SnapshotRebuilds(tables, dbs, limit, other);
    assert KeptDb(dbs[0]) == map[key := Entry(Str(v), None)];
    assert KeptDbs(dbs)[0] == KeptDb(dbs[0]);
  }
}
