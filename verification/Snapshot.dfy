/** The dataset written out as commands: rewriteListObject, rewriteSetObject,
    rewriteSortedSetObject, rewriteHashObject and rewriteAppendOnlyFileRio of aof.c.

    A dictionary is met here in the order its iterator returns the entries, and so is the
    content of a collection; every order is covered. */
module Snapshot {
  import opened Basics
  import opened Decimal
  import opened Framing
  import opened Resp
  import opened CommandLog
  import opened Dataset

  /** An object as its iterator shows it; an item holds the arguments written for it. */
  datatype Obj = StrObj(bytes: Bytes) | CollObj(c: Collection, items: seq<seq<Bytes>>)

  datatype Row = Row(key: Bytes, obj: Obj, expire: Option<Long>)

  // ---------------------------------------------------------------- collections

  /** What the rewriter must say: one command per `limit` items. */
  function Chunks(c: Collection, key: Bytes, items: seq<seq<Bytes>>, limit: nat): seq<Command>
    requires limit > 0
    decreases |items|
  {
    if items == [] then []
    else
      var n := Min(limit, |items|);
      [AddCmd(c, key, items[..n])] + Chunks(c, key, items[n..], limit)
  }

  function Header(c: Collection, key: Bytes, n: nat): Bytes {
    Count(STAR, 2 + n * Width(c)) + Bulk(AddName(c)) + Bulk(key)
  }

  function Args(items: seq<seq<Bytes>>): Bytes { Flat(Bulk, Join(items)) }

  /** The counter goes back to zero when a command is full. */
  function Next(count: nat, limit: nat): nat { if count + 1 == limit then 0 else count + 1 }

  /** What is still to be written when `count` items of the current command are out. */
  function Pending(c: Collection, key: Bytes, items: seq<seq<Bytes>>, count: nat, limit: nat): Bytes
    requires count < limit
  {
    if count == 0 then EmitLog(Chunks(c, key, items, limit))
    else
      var k := Min(limit - count, |items|);
      Args(items[..k]) + EmitLog(Chunks(c, key, items[k..], limit))
  }

  lemma {:induction false} EmitAdd(c: Collection, key: Bytes, items: seq<seq<Bytes>>)
    requires Items(c, items)
    ensures EmitCommand(AddCmd(c, key, items)) == Header(c, key, |items|) + Args(items)
  {
    hide Bulk, Count, AddName;
    var head := [AddName(c), key];
    GroupJoin(items, Width(c));
    FlatConcat(Bulk, head, Join(items));
    assert head[1..] == [key];
    var last := [key];
    assert last[1..] == [];
    assert Flat(Bulk, head) == Bulk(AddName(c)) + Bulk(key);
    assert |AddCmd(c, key, items)| == 2 + |items| * Width(c);
  }

  lemma {:induction false} PendingHeader(c: Collection, key: Bytes, items: seq<seq<Bytes>>, limit: nat)
    requires limit > 0 && items != [] && Items(c, items)
    ensures var n := Min(limit, |items|);
            Pending(c, key, items, 0, limit) ==
            Header(c, key, n) + (Args(items[..n]) + EmitLog(Chunks(c, key, items[n..], limit)))
  {
    var n := Min(limit, |items|);
    EmitFirst(AddCmd(c, key, items[..n]), Chunks(c, key, items[n..], limit));
    EmitAdd(c, key, items[..n]);
    Assoc(Header(c, key, n), Args(items[..n]), EmitLog(Chunks(c, key, items[n..], limit)));
  }

  lemma {:induction false} ArgsStep(items: seq<seq<Bytes>>)
    requires items != []
    ensures Args(items) == Flat(Bulk, items[0]) + Args(items[1..])
  {
    FlatConcat(Bulk, items[0], Join(items[1..]));
  }

  lemma NoArgs()
    ensures Args([]) == []
  {}

  /** Writing one more item: the rest of the command, then the commands after it. */
  lemma {:induction false} PendingItem(c: Collection, key: Bytes, items: seq<seq<Bytes>>, count: nat, limit: nat)
    requires count < limit && items != []
    ensures var k := Min(limit - count, |items|);
            Args(items[..k]) + EmitLog(Chunks(c, key, items[k..], limit)) ==
            Flat(Bulk, items[0]) + Pending(c, key, items[1..], Next(count, limit), limit)
  {
    hide Args, EmitLog, Chunks;
    var k := Min(limit - count, |items|);
    var first, rest := items[..k], items[1..];
    ArgsStep(first);
    assert first[1..] == rest[..k - 1] && items[k..] == rest[k - 1..];
    var after := EmitLog(Chunks(c, key, items[k..], limit));
    Assoc(Flat(Bulk, items[0]), Args(rest[..k - 1]), after);
    if count + 1 == limit {
      assert rest[..0] == [] && rest[0..] == rest;
      NoArgs();
      assert Args([]) + after == after;
    } else {
      assert k - 1 == Min(limit - (count + 1), |rest|);
    }
  }

  /** The writing loop shared by the four collection types. */
  method RewriteCollection(dst: Bytes, c: Collection, key: Bytes, items: seq<seq<Bytes>>, limit: nat)
      returns (out: Bytes)
    requires limit > 0 && Items(c, items)
    ensures out == dst + EmitLog(Chunks(c, key, items, limit))
  {
    hide EmitLog, Chunks, Args, Bulk, Count, Flat, AddName;
    out := dst;
    ghost var all := dst + EmitLog(Chunks(c, key, items, limit));
    assert items[0..] == items;
    var count, left := 0, |items|;
    for i := 0 to |items|
      invariant 0 <= count < limit && left == |items| - i
      invariant out + Pending(c, key, items[i..], count, limit) == all
    {
      ghost var prev := out;
      if count == 0 {
        var cmdItems := if left > limit then limit else left;
        out := out + Count(STAR, 2 + cmdItems * Width(c));
        out := out + Bulk(AddName(c));
        out := out + Bulk(key);
      }
      ItemWritten(prev, out, c, key, items[i..], count, limit);
      assert items[i..][1..] == items[i + 1..];
      out := WriteItem(out, c, items[i]);
      count := count + 1;
      if count == limit { count := 0; }
      left := left - 1;
    }
    Drained(c, key, items[|items|..], count, limit);
  }

  /** One round of the loop moves the header, if one is due, and an item from pending to written. */
  lemma {:induction false} ItemWritten(prev: Bytes, out: Bytes, c: Collection, key: Bytes, rest: seq<seq<Bytes>>,
                                       count: nat, limit: nat)
    requires count < limit && rest != [] && Items(c, rest)
    requires out == if count > 0 then prev
                    else prev + Count(STAR, 2 + Min(limit, |rest|) * Width(c)) + Bulk(AddName(c)) + Bulk(key)
    ensures out + Flat(Bulk, rest[0]) + Pending(c, key, rest[1..], Next(count, limit), limit) ==
            prev + Pending(c, key, rest, count, limit)
  {
    hide EmitLog, Chunks, Args, Bulk, Count, Flat, AddName, Header;
    var k := Min(limit - count, |rest|);
    var todo := Args(rest[..k]) + EmitLog(Chunks(c, key, rest[k..], limit));
    PendingItem(c, key, rest, count, limit);
    if count == 0 {
      PendingHeader(c, key, rest, limit);
      HeaderWritten(prev, c, key, k, todo);
    }
    assert out + todo == prev + Pending(c, key, rest, count, limit);
    Assoc(out, Flat(Bulk, rest[0]), Pending(c, key, rest[1..], Next(count, limit), limit));
  }

  lemma HeaderWritten(prev: Bytes, c: Collection, key: Bytes, n: nat, todo: Bytes)
    ensures prev + Count(STAR, 2 + n * Width(c)) + Bulk(AddName(c)) + Bulk(key) + todo ==
            prev + (Header(c, key, n) + todo)
  {}

  lemma {:induction false} Drained(c: Collection, key: Bytes, none: seq<seq<Bytes>>, count: nat, limit: nat)
    requires count < limit && none == []
    ensures Pending(c, key, none, count, limit) == []
  {
    assert none[..0] == [];
  }

  /** One argument for lists and sets, two for hashes and sorted sets. */
  method WriteItem(dst: Bytes, c: Collection, item: seq<Bytes>) returns (out: Bytes)
    requires |item| == Width(c)
    ensures out == dst + Flat(Bulk, item)
  {
    out := dst + Bulk(item[0]);
    if Width(c) == 2 {
      out := out + Bulk(item[1]);
      TwoBulks(dst, item);
    } else {
      OneBulk(item);
    }
  }

  lemma OneBulk(item: seq<Bytes>)
    requires |item| == 1
    ensures Flat(Bulk, item) == Bulk(item[0])
  {
    assert item[1..] == [];
  }

  lemma TwoBulks(dst: Bytes, item: seq<Bytes>)
    requires |item| == 2
    ensures dst + Bulk(item[0]) + Bulk(item[1]) == dst + Flat(Bulk, item)
  {
    OneBulk(item[1..]);
  }

  /** No command carries more than `limit` items, and none is empty. */
  lemma {:induction false} ChunksAreSmall(c: Collection, key: Bytes, items: seq<seq<Bytes>>, limit: nat)
    requires limit > 0 && Items(c, items)
    ensures forall argv | argv in Chunks(c, key, items, limit) ::
              3 <= |argv| <= 2 + limit * 2 && |argv| <= 2 + limit * Width(c)
    decreases |items|
  {
    if items != [] {
      var n := Min(limit, |items|);
      GroupJoin(items[..n], Width(c));
      assert |AddCmd(c, key, items[..n])| == 2 + n * Width(c);
      assert n * Width(c) <= limit * Width(c) && limit * Width(c) <= limit * 2 && n * Width(c) >= 1 by {
        if Width(c) == 1 { assert n * Width(c) == n; } else { assert n * Width(c) == n * 2; }
      }
      ChunksAreSmall(c, key, items[n..], limit);
    }
  }

  /** No more commands are written than it takes: all but the last carry `limit` items. */
  lemma {:induction false} ChunksAreFull(c: Collection, key: Bytes, items: seq<seq<Bytes>>, limit: nat)
    requires limit > 0 && Items(c, items)
    ensures |Chunks(c, key, items, limit)| == (|items| + limit - 1) / limit
    ensures forall i | 0 <= i < |items| / limit ::
              i < |Chunks(c, key, items, limit)| && |Chunks(c, key, items, limit)[i]| == 2 + limit * Width(c)
    decreases |items|
  {
    if items != [] {
      var n := Min(limit, |items|);
      GroupJoin(items[..n], Width(c));
      assert |AddCmd(c, key, items[..n])| == 2 + n * Width(c);
      ChunksAreFull(c, key, items[n..], limit);
      OneChunkLess(|items|, limit);
    } else {
      assert (0 + limit - 1) / limit == 0 && 0 / limit == 0;
    }
  }

  lemma {:induction false} OneChunkLess(n: nat, limit: nat)
    requires n > 0 && limit > 0
    ensures n >= limit ==> n / limit == (n - limit) / limit + 1
    ensures n >= limit ==> (n + limit - 1) / limit == (n - limit + limit - 1) / limit + 1
    ensures n < limit ==> n / limit == 0 && (n + limit - 1) / limit == 1
  {
    if n >= limit {
      Quotient(n - limit, limit);
      Quotient(n - 1, limit);
    } else {
      assert (n - 1) / limit == 0;
      Quotient(n - 1, limit);
    }
  }

  lemma Quotient(a: nat, limit: nat)
    requires limit > 0
    ensures (a + limit) / limit == a / limit + 1
  {
    var q, r := a / limit, a % limit;
    assert a == q * limit + r;
    assert (q + 1) * limit == q * limit + limit;
    DivisionIsUnique(a + limit, limit, q + 1, r);
  }

  // ---------------------------------------------------------------- the whole dataset

  /** getExpire answers -1 for "none", so that value is never written. */
  function GetExpire(row: Row): Long { if row.expire.Some? then row.expire.value else -1 }

  function ValueLog(row: Row, limit: nat): seq<Command>
    requires limit > 0
  {
    match row.obj
    case StrObj(b) => [SetCmd(row.key, b)]
    case CollObj(c, items) => Chunks(c, row.key, items, limit)
  }

  function ExpireLog(row: Row): seq<Command> {
    if GetExpire(row) != -1 then [PExpireAtCmd(row.key, GetExpire(row))] else []
  }

  function RowsLog(rows: seq<Row>, limit: nat): seq<Command>
    requires limit > 0
  {
    if rows == [] then [] else ValueLog(rows[0], limit) + ExpireLog(rows[0]) + RowsLog(rows[1..], limit)
  }

  function TableLog(j: nat, rows: seq<Row>, limit: nat): seq<Command>
    requires limit > 0
  {
    if rows == [] then [] else [SelectCmd(j)] + RowsLog(rows, limit)
  }

  /** The commands for databases `j` and up. */
  function SnapshotLog(tables: seq<seq<Row>>, j: nat, limit: nat): seq<Command>
    requires limit > 0 && j <= |tables|
    decreases |tables| - j
  {
    if j == |tables| then [] else TableLog(j, tables[j], limit) + SnapshotLog(tables, j + 1, limit)
  }

  predicate RowOk(row: Row) { row.obj.CollObj? ==> Items(row.obj.c, row.obj.items) }

  predicate RowsOk(rows: seq<Row>) { forall i | 0 <= i < |rows| :: RowOk(rows[i]) }

  lemma {:induction false} EmitThree(name: Bytes, a: Bytes, b: Bytes)
    ensures EmitCommand([name, a, b]) == Count(STAR, 3) + Bulk(name) + Bulk(a) + Bulk(b)
  {
    var argv := [name, a, b];
    assert argv[1..] == [a, b];
    var two := [a, b];
    TwoBulks([], two);
    assert Flat(Bulk, argv) == Bulk(name) + (Bulk(a) + Bulk(b));
  }

  lemma {:induction false} EmitTwo(name: Bytes, a: Bytes)
    ensures EmitCommand([name, a]) == Count(STAR, 2) + Bulk(name) + Bulk(a)
  {
    var argv := [name, a];
    TwoBulks([], argv);
  }

  method WriteRow(dst: Bytes, row: Row, limit: nat) returns (out: Bytes)
    requires limit > 0 && RowOk(row)
    ensures out == dst + EmitLog(ValueLog(row, limit) + ExpireLog(row))
  {
    hide EmitLog, EmitCommand, Chunks, Bulk, Count, Flat, Print, GetExpire;
    match row.obj {
      case StrObj(b) =>
        out := dst + (Count(STAR, 3) + Bulk(SET_NAME));
        out := out + Bulk(row.key);
        out := out + Bulk(b);
        EmitThree(SET_NAME, row.key, b);
        EmitOne(SetCmd(row.key, b));
      case CollObj(c, items) =>
        out := RewriteCollection(dst, c, row.key, items, limit);
    }
    assert out == dst + EmitLog(ValueLog(row, limit));
    EmitConcat(ValueLog(row, limit), ExpireLog(row));
    EmitNone();
    if GetExpire(row) != -1 {
      out := out + (Count(STAR, 3) + Bulk(PEXPIREAT_NAME));
      out := out + Bulk(row.key);
      out := out + Bulk(Print(GetExpire(row)));
      EmitThree(PEXPIREAT_NAME, row.key, Print(GetExpire(row)));
      EmitOne(PExpireAtCmd(row.key, GetExpire(row)));
    }
  }

  method WriteRows(dst: Bytes, rows: seq<Row>, limit: nat) returns (out: Bytes)
    requires limit > 0 && RowsOk(rows)
    ensures out == dst + EmitLog(RowsLog(rows, limit))
  {
    out := dst;
    for i := 0 to |rows|
      invariant out + EmitLog(RowsLog(rows[i..], limit)) == dst + EmitLog(RowsLog(rows, limit))
    {
      ghost var row := ValueLog(rows[i], limit) + ExpireLog(rows[i]);
      assert rows[i..][1..] == rows[i + 1..];
      EmitConcat(row, RowsLog(rows[i + 1..], limit));
      Assoc(out, EmitLog(row), EmitLog(RowsLog(rows[i + 1..], limit)));
      out := WriteRow(out, rows[i], limit);
    }
  }

  /** One database: nothing if it is empty, else a SELECT and its rows. */
  method WriteTable(dst: Bytes, j: nat, rows: seq<Row>, limit: nat) returns (out: Bytes)
    requires limit > 0 && RowsOk(rows)
    ensures out == dst + EmitLog(TableLog(j, rows, limit))
  {
    hide EmitLog, EmitCommand, RowsLog, Bulk, Count, Flat, Print;
    EmitNone();
    out := dst;
    if |rows| == 0 { return; }
    EmitTwo(SELECT_NAME, Print(j));
    EmitFirst(SelectCmd(j), RowsLog(rows, limit));
    out := out + (Count(STAR, 2) + Bulk(SELECT_NAME));
    out := out + Bulk(Print(j));
    assert out == dst + EmitCommand(SelectCmd(j));
    Assoc(dst, EmitCommand(SelectCmd(j)), EmitLog(RowsLog(rows, limit)));
    out := WriteRows(out, rows, limit);
  }

  /** rewriteAppendOnlyFileRio: a SELECT before every database that is not empty. */
  method RewriteAppendOnlyFileRio(tables: seq<seq<Row>>, limit: nat) returns (out: Bytes)
    requires limit > 0 && forall j | 0 <= j < |tables| :: RowsOk(tables[j])
    ensures out == EmitLog(SnapshotLog(tables, 0, limit))
  {
    hide EmitLog, TableLog, RowsOk;
    EmitNone();
    out := [];
    for j := 0 to |tables|
      invariant out + EmitLog(SnapshotLog(tables, j, limit)) == EmitLog(SnapshotLog(tables, 0, limit))
    {
      ghost var table := TableLog(j, tables[j], limit);
      EmitConcat(table, SnapshotLog(tables, j + 1, limit));
      Assoc(out, EmitLog(table), EmitLog(SnapshotLog(tables, j + 1, limit)));
      out := WriteTable(out, j, tables[j], limit);
    }
  }
}
