/** What loading an append only file refuses, and what it never refuses: a format error or an unknown
    command after any readable log ends the server and is not taken for a file cut short; a file cut
    short is recovered only if that is allowed; and a transaction is run whole or not at all. */
module LoadErrors {
  import opened Decimal
  import opened Framing
  import opened Resp
  import opened CommandLog

  // ---------------------------------------------------------------- a log, and something after it

  lemma {:induction false} ScanOnward(emit: Command -> Bytes, read: Bytes -> ReadResult<Command>, log: seq<Command>,
                                      more: Bytes)
    requires Codes(emit, read, Printable) && forall i | 0 <= i < |log| :: Printable(log[i])
    ensures Consumes(read)
    ensures var s := ScanAll(read, more);
            ScanAll(read, Flat(emit, log) + more) == Scan(log + s.cmds, Sizes(emit, log) + s.sizes, s.ending)
    decreases |log|
  {
    hide Codes, Coded, Printable, ScanAll;
    FirstIsCodedOr(emit, read, log, more);
    var s := ScanAll(read, more);
    if log == [] {
      assert Flat(emit, log) + more == more && log + s.cmds == s.cmds;
      assert Sizes(emit, log) + s.sizes == s.sizes;
    } else {
      var c, rest := emit(log[0]), Flat(emit, log[1..]) + more;
      ScanOnward(emit, read, log[1..], more);
      ScanStep(read, c, rest, log[0]);
      Assoc(c, Flat(emit, log[1..]), more);
      assert [log[0]] + (log[1..] + s.cmds) == log + s.cmds;
      assert [|c|] + (Sizes(emit, log[1..]) + s.sizes) == Sizes(emit, log) + s.sizes;
    }
  }

  lemma {:induction false} FirstIsCodedOr(emit: Command -> Bytes, read: Bytes -> ReadResult<Command>,
                                          log: seq<Command>, more: Bytes)
    requires Codes(emit, read, Printable) && forall i | 0 <= i < |log| :: Printable(log[i])
    ensures Consumes(read)
    ensures log != [] ==>
              var c := emit(log[0]);
              |c| > 0 && read(c + (Flat(emit, log[1..]) + more)) == Read(log[0], |c|)
  {
    if log != [] { FirstIsCoded(emit, read, log[0], Flat(emit, log[1..]) + more, 0); }
  }

  lemma {:induction false} ScanAppended(log: seq<Command>, more: Bytes)
    requires forall i | 0 <= i < |log| :: Printable(log[i])
    ensures var s := ScanAll(ReadCommand, more);
            ScanAll(ReadCommand, EmitLog(log) + more) ==
            Scan(log + s.cmds, Sizes(EmitCommand, log) + s.sizes, s.ending)
  {
    hide ReadCommand, EmitCommand, Printable, ScanAll;
    CommandsCode();
    ScanOnward(EmitCommand, ReadCommand, log, more);
  }

  lemma {:induction false} FirstReads(argv: Command, rest: Bytes)
    requires Printable(argv)
    ensures Consumes(ReadCommand) && |EmitCommand(argv)| > 0
    ensures ReadCommand(EmitCommand(argv) + rest) == Read(argv, |EmitCommand(argv)|)
  {
    hide ReadCommand, EmitCommand, Printable;
    CommandsCode();
    FirstIsCoded(EmitCommand, ReadCommand, argv, rest, 0);
  }

  lemma {:induction false} RunAppended(p: Progress, a: seq<Command>, x: seq<nat>, b: seq<Command>, y: seq<nat>,
                                       offset: nat, kind: Command -> Kind, lt: bool) returns (q: Progress, end: nat)
    requires |a| == |x| && |b| == |y| && forall i | 0 <= i < |a| :: kind(a[i]) != Unknown
    ensures RunCommands(p, a + b, x + y, offset, kind, lt) == RunCommands(q, b, y, end, kind, lt)
    decreases |a|
  {
    if a == [] {
      q, end := p, offset;
      assert a + b == b && x + y == y;
    } else {
      var next := offset + x[0];
      assert (a + b)[1..] == a[1..] + b && (x + y)[1..] == x[1..] + y;
      q, end := RunAppended(Advance(p, a[0], kind(a[0]), next, lt), a[1..], x[1..], b, y, next, kind, lt);
    }
  }

  /** Loading a readable log with `more` after it ends as scanning `more` does. */
  lemma {:induction false} LoadAppended(log: seq<Command>, more: Bytes, kind: Command -> Kind, lt: bool)
      returns (q: Progress, end: nat)
    requires Readable(log, kind) && more != [] && (log == [] ==> !(REDIS <= more))
    ensures var s := ScanAll(ReadCommand, more);
            Load(EmitLog(log) + more, kind, lt) ==
            Conclude(RunCommands(q, s.cmds, s.sizes, end, kind, lt), s.ending, |EmitLog(log) + more|, lt)
  {
    hide ReadCommand, Conclude;
    var s := ScanAll(ReadCommand, more);
    ScanAppended(log, more);
    q, end := RunAppended(Fresh, log, Sizes(EmitCommand, log), s.cmds, s.sizes, 0, kind, lt);
    NotAPreamble(log, more);
  }

  lemma {:induction false} NotAPreamble(log: seq<Command>, more: Bytes)
    requires more != [] && (log == [] ==> !(REDIS <= more))
    ensures EmitLog(log) + more != [] && !(REDIS <= EmitLog(log) + more)
  {
    if log == [] {
      assert EmitLog(log) + more == more;
    } else {
      LogStartsWithStar(log);
      assert (EmitLog(log) + more)[0] == STAR;
    }
  }

  // ---------------------------------------------------------------- format errors

  lemma {:induction false} GarbledIsRefused(log: seq<Command>, bad: Bytes, kind: Command -> Kind, lt: bool)
    requires Readable(log, kind) && bad != [] && (log == [] ==> !(REDIS <= bad)) && ReadCommand(bad) == BadFormat
    ensures Load(EmitLog(log) + bad, kind, lt) == Exit(Format)
  {
    hide ReadCommand;
    var q, end := LoadAppended(log, bad, kind, lt);
  }

  /** After any readable log, a byte that does not begin a command is a format error. */
  lemma {:induction false} NoStarIsRefused(log: seq<Command>, bad: Bytes, kind: Command -> Kind, lt: bool)
    requires Readable(log, kind) && bad != [] && bad[0] != STAR && (log == [] ==> !(REDIS <= bad))
    ensures Load(EmitLog(log) + bad, kind, lt) == Exit(Format)
  {
    FirstOfLine(bad);
    GarbledIsRefused(log, bad, kind, lt);
  }

  lemma FirstOfLine(s: Bytes)
    requires s != []
    ensures Line(s, LINE_MAX) != [] && Line(s, LINE_MAX)[0] == s[0]
  {}

  /** So is, among the arguments of a command, a byte that does not begin one, however many came before. */
  lemma {:induction false} NoDollarIsRefused(log: seq<Command>, n: nat, args: seq<Bytes>, bad: Bytes,
                                             kind: Command -> Kind, lt: bool)
    requires Readable(log, kind) && |args| < n <= INT_MAX && (forall i | 0 <= i < |args| :: Fits(args[i]))
    requires bad != [] && bad[0] != DOLLAR
    ensures Load(EmitLog(log) + (Count(STAR, n) + (Flat(Bulk, args) + bad)), kind, lt) == Exit(Format)
  {
    hide ReadCommand, Load, Readable;
    var tail := Flat(Bulk, args) + bad;
    CountLine(STAR, n, tail);
    ArgsThenGarbage(args, bad, n);
    ReadCommandAfter(Count(STAR, n), tail, n, BadFormat);
    assert (Count(STAR, n) + tail)[0] == STAR;
    GarbledIsRefused(log, Count(STAR, n) + tail, kind, lt);
  }

  lemma {:induction false} ArgsThenGarbage(args: seq<Bytes>, bad: Bytes, n: nat)
    requires (forall i | 0 <= i < |args| :: Fits(args[i])) && |args| < n && bad != [] && bad[0] != DOLLAR
    ensures ReadMany(ReadArg, Flat(Bulk, args) + bad, n) == BadFormat
    decreases |args|
  {
    hide ReadArg, Bulk, ReadMany;
    if args == [] {
      GarbledArgument(bad, n);
      assert Flat(Bulk, args) + bad == bad;
    } else {
      var rest := Flat(Bulk, args[1..]) + bad;
      ReadArgWhole(args[0], rest);
      ArgsThenGarbage(args[1..], bad, n - 1);
      Assoc(Bulk(args[0]), Flat(Bulk, args[1..]), bad);
      ArgsConsume();
      ManyStep(ReadArg, Bulk(args[0]), rest, args[0], n - 1, BadFormat);
    }
  }

  lemma GarbledArgument(bad: Bytes, n: nat)
    requires n > 0 && bad != [] && bad[0] != DOLLAR
    ensures ReadMany(ReadArg, bad, n) == BadFormat
  {
    FirstOfLine(bad);
  }

  lemma ArgsConsume()
    ensures Consumes(ReadArg)
  {}

  /** And a count line whose number is below one, or that holds none. */
  lemma {:induction false} BadCountIsRefused(log: seq<Command>, text: Bytes, rest: Bytes, kind: Command -> Kind,
                                             lt: bool)
    requires Readable(log, kind) && 0 < |text| <= LINE_MAX - 2 && text[0] != 0
    requires (forall i | 0 <= i < |text| :: text[i] != LF) && Parse(text + [LF]) < 1
    ensures Load(EmitLog(log) + ([STAR] + text + [LF] + rest), kind, lt) == Exit(Format)
  {
    hide Load, Readable, Parse;
    var h := [STAR] + text + [LF];
    LineOf(h, rest, LINE_MAX);
    assert h[1..] == text + [LF] && h[1] == text[0];
    assert (h + rest)[0] == STAR;
    GarbledIsRefused(log, h + rest, kind, lt);
  }

  /** A NUL where the number should be is a read error, unless the file ends within the line: then it is a
      file cut short. */
  lemma {:induction false} NulIsRefused(log: seq<Command>, text: Bytes, rest: Bytes, kind: Command -> Kind, lt: bool)
    requires Readable(log, kind) && |text| <= LINE_MAX - 3 && forall i | 0 <= i < |text| :: text[i] != LF
    ensures Load(EmitLog(log) + ([STAR, 0] + text + [LF] + rest), kind, lt) == Exit(ReadError)
  {
    hide Load, Readable;
    var h := [STAR, 0] + text + [LF];
    LineOf(h, rest, LINE_MAX);
    assert h[1] == 0 && h[|h| - 1] == LF;
    assert (h + rest)[0] == STAR;
    UnreadableIsRefused(log, h + rest, kind, lt);
  }

  lemma {:induction false} NulAtTheEnd(text: Bytes)
    requires |text| < LINE_MAX - 2 && forall i | 0 <= i < |text| :: text[i] != LF
    ensures ReadCommand([STAR, 0] + text) == Short
  {
    var h := [STAR, 0] + text;
    LineCut(h, LINE_MAX);
    assert h[1] == 0 && h[|h| - 1] != LF;
  }

  /** A line that fills the buffer without ending is not the end of the file. */
  lemma {:induction false} LongNulIsRefused(log: seq<Command>, text: Bytes, rest: Bytes, kind: Command -> Kind,
                                            lt: bool)
    requires Readable(log, kind) && |text| == LINE_MAX - 2 && forall i | 0 <= i < |text| :: text[i] != LF
    ensures Load(EmitLog(log) + ([STAR, 0] + text + rest), kind, lt) == Exit(ReadError)
  {
    hide Load, Readable;
    var h := [STAR, 0] + text;
    LineFull(h, rest);
    assert (h + rest)[0] == STAR && h[1] == 0;
    UnreadableIsRefused(log, h + rest, kind, lt);
  }

  lemma {:induction false} LineFull(h: Bytes, rest: Bytes)
    requires forall i | 0 <= i < |h| :: h[i] != LF
    ensures Line(h + rest, |h|) == h
    decreases |h|
  {
    if h != [] {
      LineFull(h[1..], rest);
      assert (h + rest)[1..] == h[1..] + rest;
    }
  }

  lemma {:induction false} UnreadableIsRefused(log: seq<Command>, bad: Bytes, kind: Command -> Kind, lt: bool)
    requires Readable(log, kind) && bad != [] && bad[0] == STAR && ReadCommand(bad) == Unreadable
    ensures Load(EmitLog(log) + bad, kind, lt) == Exit(ReadError)
  {
    hide ReadCommand;
    var q, end := LoadAppended(log, bad, kind, lt);
  }

  /** An argument whose length is negative ends the load with a read error, after any number of arguments. */
  lemma {:induction false} BadLengthIsRefused(log: seq<Command>, n: nat, args: seq<Bytes>, text: Bytes, rest: Bytes,
                                              kind: Command -> Kind, lt: bool)
    requires Readable(log, kind) && |args| < n <= INT_MAX && (forall i | 0 <= i < |args| :: Fits(args[i]))
    requires |text| <= LINE_MAX - 2 && (forall i | 0 <= i < |text| :: text[i] != LF) && Parse(text + [LF]) < 0
    ensures var bad := [DOLLAR] + text + [LF] + rest;
            Load(EmitLog(log) + (Count(STAR, n) + (Flat(Bulk, args) + bad)), kind, lt) == Exit(ReadError)
  {
    hide ReadCommand, Load, Readable, Parse;
    var bad := [DOLLAR] + text + [LF] + rest;
    var tail := Flat(Bulk, args) + bad;
    CountLine(STAR, n, tail);
    NegativeLength(text, rest);
    ArgsThenUnreadable(args, bad, n);
    ReadCommandAfter(Count(STAR, n), tail, n, Unreadable);
    assert (Count(STAR, n) + tail)[0] == STAR;
    UnreadableIsRefused(log, Count(STAR, n) + tail, kind, lt);
  }

  lemma {:induction false} NegativeLength(text: Bytes, rest: Bytes)
    requires |text| <= LINE_MAX - 2 && (forall i | 0 <= i < |text| :: text[i] != LF) && Parse(text + [LF]) < 0
    ensures ReadArg([DOLLAR] + text + [LF] + rest) == Unreadable
  {
    hide Parse;
    var h := [DOLLAR] + text + [LF];
    LineOf(h, rest, LINE_MAX);
    assert h[1..] == text + [LF];
  }

  lemma {:induction false} ArgsThenUnreadable(args: seq<Bytes>, bad: Bytes, n: nat)
    requires (forall i | 0 <= i < |args| :: Fits(args[i])) && |args| < n && ReadArg(bad) == Unreadable
    ensures ReadMany(ReadArg, Flat(Bulk, args) + bad, n) == Unreadable
    decreases |args|
  {
    hide ReadArg, Bulk;
    if args == [] {
      assert Flat(Bulk, args) + bad == bad;
    } else {
      var rest := Flat(Bulk, args[1..]) + bad;
      ReadArgWhole(args[0], rest);
      ArgsThenUnreadable(args[1..], bad, n - 1);
      Assoc(Bulk(args[0]), Flat(Bulk, args[1..]), bad);
      ArgsConsume();
      ManyStep(ReadArg, Bulk(args[0]), rest, args[0], n - 1, Unreadable);
    }
  }

  /** What follows an argument is skipped without being looked at. */
  lemma {:induction false} TrailerIsSkipped(arg: Bytes, a: Byte, b: Byte, tail: Bytes)
    requires Fits(arg)
    ensures ReadArg(Count(DOLLAR, |arg|) + (arg + [a, b] + tail)) == Read(arg, |Bulk(arg)|)
  {
    var h, after := Count(DOLLAR, |arg|), arg + [a, b] + tail;
    CountLine(DOLLAR, |arg|, after);
    ReadArgAfter(h, after, |arg|);
    assert after[..|arg|] == arg;
  }

  // ---------------------------------------------------------------- unknown commands

  /** A command the server does not know ends the load, whatever comes after it. */
  lemma {:induction false} UnknownIsRefused(log: seq<Command>, argv: Command, rest: Bytes, kind: Command -> Kind,
                                            lt: bool)
    requires Readable(log, kind) && Printable(argv) && kind(argv) == Unknown
    ensures Load(EmitLog(log) + (EmitCommand(argv) + rest), kind, lt) == Exit(UnknownCommand)
  {
    hide ReadCommand, Load, Readable, Printable;
    var more := EmitCommand(argv) + rest;
    assert EmitCommand(argv)[0] == STAR && more[0] == STAR;
    FirstReads(argv, rest);
    ScanStep(ReadCommand, EmitCommand(argv), rest, argv);
    var q, end := LoadAppended(log, more, kind, lt);
  }

  // ---------------------------------------------------------------- files cut short

  /** With aof-load-truncated off a file is loaded only if it ends with a command and outside a
      transaction; otherwise the server ends. */
  lemma {:induction false} StrictLoad(log: seq<Command>, cut: nat, kind: Command -> Kind)
    requires Readable(log, kind) && 0 < cut <= |EmitLog(log)|
    ensures var k := WholeIn(log, cut);
            var c := RunAll(Idle, log[..k], kind);
            Load(EmitLog(log)[..cut], kind, false) ==
            if EndOf(log, k) == cut && !c.multi then Loaded(c.executed, cut) else Exit(UnexpectedEof)
  {
    hide Load, EmitLog, Readable, WholeIn, EndOf, RunAll, After;
    LoadPrefix(log, cut, kind, false);
  }

  /** With it on, every file cut short is loaded, and a server that ends otherwise has met an error. */
  lemma {:induction false} LenientLoad(log: seq<Command>, cut: nat, kind: Command -> Kind)
    requires Readable(log, kind) && 0 < cut <= |EmitLog(log)|
    ensures var k := WholeIn(log, cut);
            var r := Load(EmitLog(log)[..cut], kind, true);
            && r.Loaded? && r.executed == RunAll(Idle, log[..k], kind).executed
            && (!RunAll(Idle, log[..k], kind).multi ==> r.size == EndOf(log, k))
  {
    hide Load, EmitLog, Readable, WholeIn, EndOf, RunAll, After;
    LoadPrefix(log, cut, kind, true);
  }

  /** A file without a byte is not loaded, and one that begins with the five letters is an RDB image. */
  lemma {:induction false} NotALog(file: Bytes, kind: Command -> Kind, lt: bool)
    ensures Load(file, kind, lt) == Empty <==> |file| == 0
    ensures Load(file, kind, lt) == Preamble <==>
            |file| >= 5 && file[0] == 82 && file[1] == 69 && file[2] == 68 && file[3] == 73 && file[4] == 83
  {
    hide LoadRest;
    if file != [] { NeverPreamble(file, kind, lt); }
  }

  lemma NeverPreamble(file: Bytes, kind: Command -> Kind, lt: bool)
    ensures var r := LoadRest(ReadCommand, file, 0, Fresh, |file|, kind, lt); r != Preamble && r != Empty
  {
    hide ReadCommand, ScanAll, RunCommands;
  }

  // ---------------------------------------------------------------- transactions

  /** However far a file with a transaction goes, the transaction runs at its EXEC, whole and in order,
      and before that not at all; what follows it runs afterwards. */
  lemma {:induction false} TransactionIsAtomic(before: seq<Command>, open: Command, body: seq<Command>,
                                               close: Command, after: seq<Command>, kind: Command -> Kind, k: nat)
    requires PlainLog(before, kind) && PlainLog(body, kind) && PlainLog(after, kind)
    requires kind(open) == Multi && kind(close) == Exec
    requires k <= |before| + |body| + |after| + 2
    ensures var log := before + [open] + body + [close] + after;
            var e := RunAll(Idle, log[..k], kind).executed;
            && (k <= |before| ==> e == before[..k])
            && (|before| <= k < |before| + |body| + 2 ==> e == before)
            && (k >= |before| + |body| + 2 ==> e == before + body + after[..k - |before| - |body| - 2])
  {
    hide RunAll;
    var log := before + [open] + body + [close] + after;
    var b, m := |before|, |before| + |body| + 2;
    if k <= b {
      assert log[..k] == before[..k];
      RunPlain(Idle, before[..k], kind);
      assert [] + before[..k] == before[..k];
    } else {
      RunPlain(Idle, before, kind);
      assert [] + before == before;
      var done := Client(false, [], before);
      var c := Client(true, [], before);
      RunOne(done, open, kind);
      if k < m {
        assert log[..k] == before + [open] + body[..k - b - 1];
        RunConcat(Idle, before + [open], body[..k - b - 1], kind);
        RunConcat(Idle, before, [open], kind);
        RunPlain(c, body[..k - b - 1], kind);
      } else {
        assert log[..k] == before + [open] + body + [close] + after[..k - m];
        RunConcat(Idle, before + [open] + body + [close], after[..k - m], kind);
        RunConcat(Idle, before + [open] + body, [close], kind);
        RunConcat(Idle, before + [open], body, kind);
        RunConcat(Idle, before, [open], kind);
        RunPlain(c, body, kind);
        assert [] + body == body;
        RunOne(Client(true, body, before), close, kind);
        RunPlain(Client(false, [], before + body), after[..k - m], kind);
      }
    }
  }

  lemma RunOne(c: Client, x: Command, kind: Command -> Kind)
    ensures !c.multi && kind(x) == Multi ==> RunAll(c, [x], kind) == Client(true, [], c.executed)
    ensures c.multi && kind(x) == Exec ==> RunAll(c, [x], kind) == Client(false, [], c.executed + c.queued)
    ensures !c.multi && kind(x) == Exec ==> RunAll(c, [x], kind).executed == c.executed
  {
    var one := [x];
    assert one[1..] == [];
  }
}
