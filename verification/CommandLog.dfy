/** Loading the append only file (aof.c): running its commands, and recovering a file that
    was cut short.

    The file is its bytes.  What a command name means to the loader is the parameter
    `kind`; running a command is recorded in `executed`. */
module CommandLog {
  import opened Decimal
  import opened Framing
  import opened Resp

  function EmitLog(log: seq<Command>): Bytes { Flat(EmitCommand, log) }

  lemma EmitNone()
    ensures EmitLog([]) == []
  {}

  lemma {:induction false} EmitOne(argv: Command)
    ensures EmitLog([argv]) == EmitCommand(argv)
  {
    FlatOne(EmitCommand, argv);
  }

  lemma {:induction false} EmitFirst(argv: Command, log: seq<Command>)
    ensures EmitLog([argv] + log) == EmitCommand(argv) + EmitLog(log)
  {
    assert ([argv] + log)[1..] == log;
  }

  lemma {:induction false} EmitConcat(a: seq<Command>, b: seq<Command>)
    ensures EmitLog(a + b) == EmitLog(a) + EmitLog(b)
  {
    FlatConcat(EmitCommand, a, b);
  }

  lemma {:induction false} EmitPair(a: Command, b: Command)
    ensures EmitLog([a, b]) == EmitCommand(a) + EmitCommand(b)
  {
    hide EmitCommand, EmitLog;
    assert [a, b] == [a] + [b];
    EmitFirst(a, [b]);
    EmitOne(b);
  }

  // ---------------------------------------------------------------- the fake client

  datatype Kind = Unknown | Multi | Exec | Plain

  datatype Client = Client(multi: bool, queued: seq<Command>, executed: seq<Command>)

  const Idle := Client(false, [], [])

  function Run(c: Client, cmd: Command, kind: Kind): Client {
    if c.multi && kind != Exec then c.(queued := c.queued + [cmd])
    else if kind == Multi then Client(true, [], c.executed)
    else if kind == Exec then Client(false, [], if c.multi then c.executed + c.queued else c.executed)
    else c.(executed := c.executed + [cmd])
  }

  function RunAll(c: Client, log: seq<Command>, kind: Command -> Kind): Client
    decreases |log|
  {
    if log == [] then c else RunAll(Run(c, log[0], kind(log[0])), log[1..], kind)
  }

  // ---------------------------------------------------------------- loading

  datatype Failure = Format | ReadError | UnknownCommand | UnexpectedEof

  datatype LoadResult =
    | Empty                                        // zero-length file, C_ERR
    | Preamble                                     // starts with an RDB image
    | Exit(why: Failure)
    | Loaded(executed: seq<Command>, size: nat)    // size of the file afterwards

  datatype Progress = Progress(client: Client, validUpTo: nat, beforeMulti: nat)

  const Fresh := Progress(Idle, 0, 0)

  function Advance(p: Progress, cmd: Command, k: Kind, offset: nat, lt: bool): Progress {
    Progress(Run(p.client, cmd, k),
             if lt then offset else p.validUpTo,
             if k == Multi then p.validUpTo else p.beforeMulti)
  }

  /** The end of the file came too early: cut the file at `offset`, if aof-load-truncated is set. */
  function Truncated(p: Progress, offset: nat, lt: bool): LoadResult {
    if lt then Loaded(p.client.executed, offset) else Exit(UnexpectedEof)
  }

  function AtEof(p: Progress, size: nat, lt: bool): LoadResult {
    if p.client.multi then Truncated(p, p.beforeMulti, lt) else Loaded(p.client.executed, size)
  }

  /** Why reading commands stops. */
  datatype Ending = Clean | Torn | Garbled | Broken

  /** All commands of a file, each with its length, up to where reading stops. */
  datatype Scan = Scan(cmds: seq<Command>, sizes: seq<nat>, ending: Ending)

  function ScanAll(read: Bytes -> ReadResult<Command>, rest: Bytes): (r: Scan)
    requires Consumes(read)
    ensures |r.cmds| == |r.sizes|
    decreases |rest|
  {
    if rest == [] then Scan([], [], Clean)
    else
      match read(rest)
      case Short => Scan([], [], Torn)
      case BadFormat => Scan([], [], Garbled)
      case Unreadable => Scan([], [], Broken)
      case Read(argv, used) =>
        var more := ScanAll(read, rest[used..]);
        Scan([argv] + more.cmds, [used] + more.sizes, more.ending)
  }

  datatype Outcome = Halted | Ran(progress: Progress)

  /** Looking up and running the commands in order. */
  function RunCommands(p: Progress, cmds: seq<Command>, sizes: seq<nat>, offset: nat, kind: Command -> Kind,
                       lt: bool): Outcome
    requires |cmds| == |sizes|
    decreases |cmds|
  {
    if cmds == [] then Ran(p)
    else if kind(cmds[0]) == Unknown then Halted
    else
      var next := offset + sizes[0];
      RunCommands(Advance(p, cmds[0], kind(cmds[0]), next, lt), cmds[1..], sizes[1..], next, kind, lt)
  }

  function Conclude(o: Outcome, ending: Ending, size: nat, lt: bool): LoadResult {
    if o.Halted? then Exit(UnknownCommand)
    else
      match ending
      case Clean => AtEof(o.progress, size, lt)
      case Torn => Truncated(o.progress, o.progress.validUpTo, lt)
      case Garbled => Exit(Format)
      case Broken => Exit(ReadError)
  }

  /** Loading the rest of a file of the given size, from offset `pos` on. */
  function LoadRest(read: Bytes -> ReadResult<Command>, rest: Bytes, pos: nat, p: Progress, size: nat,
                    kind: Command -> Kind, lt: bool): LoadResult
    requires Consumes(read)
  {
    var scan := ScanAll(read, rest);
    Conclude(RunCommands(p, scan.cmds, scan.sizes, pos, kind, lt), scan.ending, size, lt)
  }

  const REDIS: Bytes := [82, 69, 68, 73, 83]

  /** What loadAppendOnlyFile computes; `lt` is the aof-load-truncated option. */
  function Load(file: Bytes, kind: Command -> Kind, lt: bool): LoadResult {
    if file == [] then Empty
    else if REDIS <= file then Preamble
    else LoadRest(ReadCommand, file, 0, Fresh, |file|, kind, lt)
  }

  lemma {:induction false} LoadOneMore(read: Bytes -> ReadResult<Command>, rest: Bytes, pos: nat, p: Progress,
                                       size: nat, kind: Command -> Kind, lt: bool, argv: Command, used: nat)
    requires Consumes(read) && rest != [] && read(rest) == Read(argv, used)
    ensures LoadRest(read, rest, pos, p, size, kind, lt) ==
            if kind(argv) == Unknown then Exit(UnknownCommand)
            else LoadRest(read, rest[used..], pos + used, Advance(p, argv, kind(argv), pos + used, lt), size, kind, lt)
  {
    var more := ScanAll(read, rest[used..]);
    assert ([argv] + more.cmds)[1..] == more.cmds;
    assert ([used] + more.sizes)[1..] == more.sizes;
  }

  lemma {:induction false} LoadStops(read: Bytes -> ReadResult<Command>, rest: Bytes, pos: nat, p: Progress,
                                     size: nat, kind: Command -> Kind, lt: bool)
    requires Consumes(read) && (rest == [] || !read(rest).Read?)
    ensures LoadRest(read, rest, pos, p, size, kind, lt) ==
            if rest == [] then AtEof(p, size, lt)
            else match read(rest)
              case Short => Truncated(p, p.validUpTo, lt)
              case BadFormat => Exit(Format)
              case Unreadable => Exit(ReadError)
  {}

  /** loadAppendOnlyFile, from the first byte after the checks for an empty file and a preamble.  A
      file that cannot be cut, `truncates` being false, is treated as with the option off. */
  method LoadCommands(file: Bytes, kind: Command -> Kind, lt: bool, truncates: bool) returns (r: LoadResult)
    ensures r == LoadRest(ReadCommand, file, 0, Fresh, |file|, kind, lt && truncates)
  {
    hide ReadCommand, LoadRest, Run;
    var pos, client, validUpTo, beforeMulti := 0, Idle, 0, 0;
    ghost var p := Fresh;
    ghost var cuts := lt && truncates;
    assert file[0..] == file;
    while pos < |file|
      invariant 0 <= pos <= |file| && p.client == client && (cuts ==> p == Progress(client, validUpTo, beforeMulti))
      invariant LoadRest(ReadCommand, file, 0, Fresh, |file|, kind, cuts) ==
                LoadRest(ReadCommand, file[pos..], pos, p, |file|, kind, cuts)
      decreases |file| - pos
    {
      var one := ReadNext(file[pos..]);
      if !one.Read? { LoadStops(ReadCommand, file[pos..], pos, p, |file|, kind, cuts); }
      match one {
        case Short => return Recovered(client, validUpTo, lt, truncates);
        case BadFormat => return Exit(Format);
        case Unreadable => return Exit(ReadError);
        case Read(argv, used) =>
          LoadOneMore(ReadCommand, file[pos..], pos, p, |file|, kind, cuts, argv, used);
          assert file[pos..][used..] == file[pos + used..];
          var k := kind(argv);
          if k == Unknown { return Exit(UnknownCommand); }
          if k == Multi { beforeMulti := validUpTo; }
          client := Run(client, argv, k);
          pos := pos + used;
          if lt { validUpTo := pos; }
          p := Advance(p, argv, k, pos, cuts);
      }
    }
    LoadStops(ReadCommand, file[pos..], pos, p, |file|, kind, cuts);
    if client.multi { return Recovered(client, beforeMulti, lt, truncates); }
    r := Loaded(client.executed, |file|);
  }

  /** The end of the procedure for a file that ends too early. */
  function Recovered(client: Client, offset: nat, lt: bool, truncates: bool): LoadResult {
    if lt && truncates then Loaded(client.executed, offset) else Exit(UnexpectedEof)
  }

  method LoadAppendOnlyFile(file: Bytes, kind: Command -> Kind, lt: bool, truncates: bool) returns (r: LoadResult)
    ensures r == Load(file, kind, lt && truncates)
  {
    if file == [] { return Empty; }
    if REDIS <= file { return Preamble; }
    r := LoadCommands(file, kind, lt, truncates);
  }

  // ---------------------------------------------------------------- a log, or a prefix of one

  predicate Readable(log: seq<Command>, kind: Command -> Kind) {
    forall i | 0 <= i < |log| :: Printable(log[i]) && kind(log[i]) != Unknown
  }

  function Sizes(emit: Command -> Bytes, log: seq<Command>): (r: seq<nat>)
    ensures |r| == |log|
  {
    if log == [] then [] else [|emit(log[0])|] + Sizes(emit, log[1..])
  }

  /** Scanning a log cut after `cut` bytes finds the commands wholly inside, and notices the cut. */
  lemma {:induction false} ScanCut(emit: Command -> Bytes, read: Bytes -> ReadResult<Command>, log: seq<Command>,
                                   cut: nat)
    requires Codes(emit, read, Printable) && (forall i | 0 <= i < |log| :: Printable(log[i])) &&
             cut <= |Flat(emit, log)|
    ensures var k := Whole(emit, log, cut);
            && End(emit, log, k) <= cut
            && ScanAll(read, Flat(emit, log)[..cut]) ==
               Scan(log[..k], Sizes(emit, log[..k]), if End(emit, log, k) == cut then Clean else Torn)
    decreases |log|
  {
    hide Codes, Consumes, Coded, Printable;
    assert log[..0] == [];
    if log != [] {
      var c := emit(log[0]);
      FirstIsCoded(emit, read, log[0], if cut < |c| then [] else Flat(emit, log[1..])[..cut - |c|], cut);
      PrefixStep(emit, log, cut);
      if cut >= |c| {
        var k := Whole(emit, log[1..], cut - |c|);
        var rest := Flat(emit, log[1..])[..cut - |c|];
        ScanCut(emit, read, log[1..], cut - |c|);
        ScanStep(read, c, rest, log[0]);
        TakeStep(emit, log, k);
      }
    }
  }

  lemma {:induction false} FirstIsCoded(emit: Command -> Bytes, read: Bytes -> ReadResult<Command>, argv: Command,
                                        tail: Bytes, cut: nat)
    requires Codes(emit, read, Printable) && Printable(argv)
    ensures Consumes(read) && |emit(argv)| > 0 && read(emit(argv) + tail) == Read(argv, |emit(argv)|)
    ensures cut < |emit(argv)| ==> read(emit(argv)[..cut]) == Short
  {
    assert Coded(emit, read, argv);
    EmitsSomething(emit, read, argv);
  }

  lemma {:induction false} TakeStep(emit: Command -> Bytes, log: seq<Command>, k: nat)
    requires log != [] && k <= |log| - 1
    ensures log[..k + 1] == [log[0]] + log[1..][..k]
    ensures Sizes(emit, log[..k + 1]) == [|emit(log[0])|] + Sizes(emit, log[1..][..k])
    ensures End(emit, log, k + 1) == |emit(log[0])| + End(emit, log[1..], k)
  {
    EndStep(emit, log, k);
    assert log[..k + 1] == [log[0]] + log[1..][..k];
  }

  lemma {:induction false} ScanStep(read: Bytes -> ReadResult<Command>, c: Bytes, rest: Bytes, argv: Command)
    requires Consumes(read) && |c| > 0 && read(c + rest) == Read(argv, |c|)
    ensures ScanAll(read, c + rest) ==
            var more := ScanAll(read, rest); Scan([argv] + more.cmds, [|c|] + more.sizes, more.ending)
  {
    assert (c + rest)[|c|..] == rest;
  }

  lemma EmitsSomething(emit: Command -> Bytes, read: Bytes -> ReadResult<Command>, argv: Command)
    requires Consumes(read) && Coded(emit, read, argv)
    ensures |emit(argv)| > 0
  {
    assert read(emit(argv) + []) == Read(argv, |emit(argv)|);
  }

  /** What running the log does to the offsets kept along the way. */
  function Track(p: Progress, log: seq<Command>, emit: Command -> Bytes, kind: Command -> Kind, offset: nat,
                 lt: bool): Progress
    decreases |log|
  {
    if log == [] then p
    else
      var next := offset + |emit(log[0])|;
      Track(Advance(p, log[0], kind(log[0]), next, lt), log[1..], emit, kind, next, lt)
  }

  lemma {:induction false} TrackIsRun(p: Progress, log: seq<Command>, emit: Command -> Bytes, kind: Command -> Kind,
                                      offset: nat, lt: bool)
    requires forall i | 0 <= i < |log| :: kind(log[i]) != Unknown
    ensures RunCommands(p, log, Sizes(emit, log), offset, kind, lt) == Ran(Track(p, log, emit, kind, offset, lt))
    ensures Track(p, log, emit, kind, offset, lt).client == RunAll(p.client, log, kind)
    decreases |log|
  {
    if log != [] {
      var next := offset + |emit(log[0])|;
      assert Sizes(emit, log)[1..] == Sizes(emit, log[1..]);
      TrackIsRun(Advance(p, log[0], kind(log[0]), next, lt), log[1..], emit, kind, next, lt);
    }
  }

  // ---------------------------------------------------------------- main results

  function WholeIn(log: seq<Command>, cut: nat): (k: nat)
    ensures k <= |log|
  {
    Whole(EmitCommand, log, cut)
  }

  function EndOf(log: seq<Command>, k: nat): nat
    requires k <= |log|
  {
    End(EmitCommand, log, k)
  }

  /** The loader's bookkeeping after the first k commands. */
  function After(log: seq<Command>, k: nat, kind: Command -> Kind, lt: bool): Progress
    requires k <= |log|
  {
    Track(Fresh, log[..k], EmitCommand, kind, 0, lt)
  }

  lemma {:induction false} LogStartsWithStar(log: seq<Command>)
    requires log != []
    ensures |EmitLog(log)| > 0 && EmitLog(log)[0] == STAR
  {
    assert EmitLog(log)[0] == EmitCommand(log[0])[0];
  }

  function EndingOf(log: seq<Command>, cut: nat): Ending {
    if EndOf(log, WholeIn(log, cut)) == cut then Clean else Torn
  }

  lemma {:induction false} ScanPrefix(log: seq<Command>, cut: nat)
    requires (forall i | 0 <= i < |log| :: Printable(log[i])) && cut <= |EmitLog(log)|
    ensures var k := WholeIn(log, cut);
            && EndOf(log, k) <= cut
            && ScanAll(ReadCommand, EmitLog(log)[..cut]) ==
               Scan(log[..k], Sizes(EmitCommand, log[..k]), EndingOf(log, cut))
  {
    CommandsCode();
    ScanCut(EmitCommand, ReadCommand, log, cut);
  }

  lemma {:induction false} RestOfScan(read: Bytes -> ReadResult<Command>, file: Bytes, cmds: seq<Command>,
                                      sizes: seq<nat>, ending: Ending, q: Progress, kind: Command -> Kind, lt: bool)
    requires Consumes(read) && |cmds| == |sizes| && ScanAll(read, file) == Scan(cmds, sizes, ending)
    requires RunCommands(Fresh, cmds, sizes, 0, kind, lt) == Ran(q)
    ensures LoadRest(read, file, 0, Fresh, |file|, kind, lt) == Conclude(Ran(q), ending, |file|, lt)
  {}

  lemma {:induction false} LoadPrefix(log: seq<Command>, cut: nat, kind: Command -> Kind, lt: bool)
    requires Readable(log, kind) && 0 < cut <= |EmitLog(log)|
    ensures var k := WholeIn(log, cut);
            var q := After(log, k, kind, lt);
            && EndOf(log, k) <= cut
            && Load(EmitLog(log)[..cut], kind, lt) == Conclude(Ran(q), EndingOf(log, cut), cut, lt)
            && (lt ==> q.validUpTo == EndOf(log, k))
            && q.client == RunAll(Idle, log[..k], kind)
  {
    var file, k := EmitLog(log)[..cut], WholeIn(log, cut);
    LogStartsWithStar(log);
    assert file[0] == STAR;
    ScanPrefix(log, cut);
    TrackIsRun(Fresh, log[..k], EmitCommand, kind, 0, lt);
    RestOfScan(ReadCommand, file, log[..k], Sizes(EmitCommand, log[..k]), EndingOf(log, cut),
               After(log, k, kind, lt), kind, lt);
    if lt { ValidUpTo(log, k, kind); }
  }

  /** Loading a log gives back its commands, whatever bytes their arguments hold. */
  lemma {:induction false} RoundTrip(log: seq<Command>, kind: Command -> Kind, lt: bool)
    requires Readable(log, kind) && log != [] && !RunAll(Idle, log, kind).multi
    ensures Load(EmitLog(log), kind, lt) == Loaded(RunAll(Idle, log, kind).executed, |EmitLog(log)|)
  {
    LogStartsWithStar(log);
    WholeOfAll(EmitCommand, log);
    var cut := |EmitLog(log)|;
    LoadPrefix(log, cut, kind, lt);
    assert EmitLog(log)[..cut] == EmitLog(log) && log[..|log|] == log;
  }

  predicate PlainLog(log: seq<Command>, kind: Command -> Kind) { forall i | 0 <= i < |log| :: kind(log[i]) == Plain }

  lemma {:induction false} RunPlain(c: Client, log: seq<Command>, kind: Command -> Kind)
    requires PlainLog(log, kind)
    ensures RunAll(c, log, kind) == if c.multi then c.(queued := c.queued + log) else c.(executed := c.executed + log)
    decreases |log|
  {
    if log == [] {
      assert c.queued + log == c.queued && c.executed + log == c.executed;
    } else {
      RunPlain(Run(c, log[0], Plain), log[1..], kind);
      assert c.queued + [log[0]] + log[1..] == c.queued + log;
      assert c.executed + [log[0]] + log[1..] == c.executed + log;
    }
  }

  /** Crash recovery without transactions: any non-empty prefix loads, runs exactly the commands
      wholly inside it, and leaves the file cut after the last of them. */
  lemma {:induction false} PlainPrefixRecovers(log: seq<Command>, cut: nat, kind: Command -> Kind)
    requires Readable(log, kind) && PlainLog(log, kind) && 0 < cut <= |EmitLog(log)|
    ensures Load(EmitLog(log)[..cut], kind, true) == Loaded(log[..WholeIn(log, cut)], EndOf(log, WholeIn(log, cut)))
    ensures forall j | 0 <= j <= |log| :: j <= WholeIn(log, cut) <==> EndOf(log, j) <= cut
  {
    LoadPrefix(log, cut, kind, true);
    var k := WholeIn(log, cut);
    RunPlain(Idle, log[..k], kind);
    assert Idle.executed + log[..k] == log[..k];
    forall j | 0 <= j <= |log| ensures j <= k <==> EndOf(log, j) <= cut { WholeIsExact(EmitCommand, log, cut, j); }
  }

  // ---------------------------------------------------------------- transactions

  lemma {:induction false} RunConcat(c: Client, a: seq<Command>, b: seq<Command>, kind: Command -> Kind)
    ensures RunAll(c, a + b, kind) == RunAll(RunAll(c, a, kind), b, kind)
    decreases |a|
  {
    if a == [] {
      assert a + b == b;
    } else {
      RunConcat(Run(c, a[0], kind(a[0])), a[1..], b, kind);
      assert (a + b)[1..] == a[1..] + b;
    }
  }

  lemma {:induction false} RunSnoc(log: seq<Command>, k: nat, kind: Command -> Kind)
    requires k < |log|
    ensures RunAll(Idle, log[..k + 1], kind) == Run(RunAll(Idle, log[..k], kind), log[k], kind(log[k]))
  {
    assert log[..k + 1] == log[..k] + [log[k]];
    var last := [log[k]];
    RunConcat(Idle, log[..k], last, kind);
    assert last[1..] == [];
  }

  lemma {:induction false} TrackSnoc(p: Progress, log: seq<Command>, x: Command, emit: Command -> Bytes,
                                     kind: Command -> Kind, offset: nat)
    ensures Track(p, log + [x], emit, kind, offset, true) ==
            Advance(Track(p, log, emit, kind, offset, true), x, kind(x), offset + |Flat(emit, log + [x])|, true)
    decreases |log|
  {
    if log == [] {
      assert [x][1..] == [];
      assert Flat(emit, [x]) == emit(x);
    } else {
      var next := offset + |emit(log[0])|;
      TrackSnoc(Advance(p, log[0], kind(log[0]), next, true), log[1..], x, emit, kind, next);
      assert (log + [x])[1..] == log[1..] + [x];
    }
  }

  lemma {:induction false} AfterSnoc(log: seq<Command>, k: nat, kind: Command -> Kind)
    requires k < |log|
    ensures After(log, k + 1, kind, true) ==
            Advance(After(log, k, kind, true), log[k], kind(log[k]), EndOf(log, k + 1), true)
  {
    assert log[..k + 1] == log[..k] + [log[k]];
    TrackSnoc(Fresh, log[..k], log[k], EmitCommand, kind, 0);
  }

  /** Logs of execCommand: a transaction is opened only when none is open. */
  predicate Unnested(log: seq<Command>, kind: Command -> Kind) {
    forall i | 0 <= i < |log| && kind(log[i]) == Multi :: !RunAll(Idle, log[..i], kind).multi
  }

  /** The open transaction began after j commands, and nothing has run since. */
  predicate OpenedAt(log: seq<Command>, k: nat, kind: Command -> Kind, j: nat)
    requires k <= |log|
  {
    && j < k && After(log, k, kind, true).beforeMulti == EndOf(log, j)
    && !RunAll(Idle, log[..j], kind).multi
    && RunAll(Idle, log[..j], kind).executed == RunAll(Idle, log[..k], kind).executed
  }

  lemma {:induction false} FindOpening(log: seq<Command>, k: nat, kind: Command -> Kind) returns (j: nat)
    requires Unnested(log, kind) && k <= |log| && RunAll(Idle, log[..k], kind).multi
    ensures OpenedAt(log, k, kind, j)
    decreases k
  {
    assert log[..0] == [];
    var c := RunAll(Idle, log[..k - 1], kind);
    RunSnoc(log, k - 1, kind);
    AfterSnoc(log, k - 1, kind);
    if c.multi {
      j := FindOpening(log, k - 1, kind);
    } else {
      j := k - 1;
      ValidUpTo(log, k - 1, kind);
    }
  }

  lemma {:induction false} ValidUpTo(log: seq<Command>, k: nat, kind: Command -> Kind)
    requires k <= |log|
    ensures After(log, k, kind, true).validUpTo == EndOf(log, k)
  {
    if k == 0 { assert log[..0] == []; } else { AfterSnoc(log, k - 1, kind); }
  }

  /** How many commands the recovered file keeps: those wholly present, but for an open
      transaction when the cut is at a command boundary. */
  lemma {:induction false} Kept(log: seq<Command>, cut: nat, kind: Command -> Kind) returns (j: nat)
    requires Readable(log, kind) && Unnested(log, kind) && 0 < cut <= |EmitLog(log)|
    ensures j <= |log|
    ensures var k := WholeIn(log, cut);
            && Load(EmitLog(log)[..cut], kind, true) == Loaded(RunAll(Idle, log[..j], kind).executed, EndOf(log, j))
            && RunAll(Idle, log[..j], kind).executed == RunAll(Idle, log[..k], kind).executed
            && (RunAll(Idle, log[..j], kind).multi <==> RunAll(Idle, log[..k], kind).multi && cut != EndOf(log, k))
            && (RunAll(Idle, log[..j], kind).multi ==> j == k)
  {
    LoadPrefix(log, cut, kind, true);
    var k := WholeIn(log, cut);
    if RunAll(Idle, log[..k], kind).multi && cut == EndOf(log, k) {
      j := FindOpening(log, k, kind);
    } else {
      j := k;
    }
  }

  lemma {:induction false} EmitPrefix(log: seq<Command>, j: nat)
    requires j <= |log|
    ensures EndOf(log, j) <= |EmitLog(log)| && EmitLog(log)[..EndOf(log, j)] == EmitLog(log[..j])
  {
    FlatConcat(EmitCommand, log[..j], log[j..]);
    assert log[..j] + log[j..] == log;
  }

  lemma {:induction false} EndNext(log: seq<Command>, k: nat)
    requires k < |log|
    ensures EndOf(log, k + 1) == EndOf(log, k) + |EmitCommand(log[k])| && |EmitCommand(log[k])| > 2
  {
    assert log[..k + 1] == log[..k] + [log[k]];
    FlatSnoc(EmitCommand, log[..k], log[k]);
  }

  /** A cut within command k, or right before it, leaves k commands whole. */
  lemma {:induction false} WholeBetween(log: seq<Command>, k: nat, cut: nat)
    requires k < |log| && EndOf(log, k) <= cut < EndOf(log, k + 1)
    ensures cut < |EmitLog(log)| && WholeIn(log, cut) == k
  {
    EmitPrefix(log, k + 1);
    WholeIsExact(EmitCommand, log, cut, k);
    WholeIsExact(EmitCommand, log, cut, k + 1);
  }

  lemma {:induction false} LoadAll(log: seq<Command>, kind: Command -> Kind)
    requires Readable(log, kind) && log != []
    ensures Load(EmitLog(log), kind, true).Loaded?
    ensures Load(EmitLog(log), kind, true).executed == RunAll(Idle, log, kind).executed
  {
    LogStartsWithStar(log);
    WholeOfAll(EmitCommand, log);
    LoadPrefix(log, |EmitLog(log)|, kind, true);
    assert EmitLog(log)[..|EmitLog(log)|] == EmitLog(log) && log[..|log|] == log;
  }

  // ---------------------------------------------------------------- appending after recovery

  /** What is appended later: a transaction is opened when none is open and closed when one is. */
  predicate Proper(c: Client, log: seq<Command>, kind: Command -> Kind)
    decreases |log|
  {
    log == [] ||
    (&& (kind(log[0]) == Multi ==> !c.multi) && (kind(log[0]) == Exec ==> c.multi)
     && Proper(Run(c, log[0], kind(log[0])), log[1..], kind))
  }

  /** The commands that do something: a MULTI run inside a transaction is only an error. */
  function Effects(cmds: seq<Command>, kind: Command -> Kind): seq<Command> {
    if cmds == [] then [] else (if kind(cmds[0]) == Multi then [] else [cmds[0]]) + Effects(cmds[1..], kind)
  }

  lemma {:induction false} EffectsConcat(a: seq<Command>, b: seq<Command>, kind: Command -> Kind)
    ensures Effects(a + b, kind) == Effects(a, kind) + Effects(b, kind)
    decreases |a|
  {
    if a == [] {
      assert a + b == b;
    } else {
      EffectsConcat(a[1..], b, kind);
      assert (a + b)[1..] == a[1..] + b && (a + b)[0] == a[0];
      EffectsAssoc(if kind(a[0]) == Multi then [] else [a[0]], Effects(a[1..], kind), Effects(b, kind));
    }
  }

  lemma EffectsAssoc(x: seq<Command>, y: seq<Command>, z: seq<Command>)
    ensures (x + y) + z == x + (y + z)
  {}

  lemma {:induction false} EffectsSnoc(a: seq<Command>, x: Command, kind: Command -> Kind)
    ensures Effects(a + [x], kind) == Effects(a, kind) + if kind(x) == Multi then [] else [x]
  {
    EffectsConcat(a, [x], kind);
    assert [x][1..] == [];
  }

  predicate HasExec(log: seq<Command>, kind: Command -> Kind) { exists i :: 0 <= i < |log| && kind(log[i]) == Exec }

  lemma HasExecStep(log: seq<Command>, kind: Command -> Kind)
    requires log != []
    ensures HasExec(log, kind) <==> kind(log[0]) == Exec || HasExec(log[1..], kind)
  {
    if HasExec(log[1..], kind) {
      var i :| 0 <= i < |log[1..]| && kind(log[1..][i]) == Exec;
      assert kind(log[i + 1]) == Exec;
    }
    if HasExec(log, kind) && kind(log[0]) != Exec {
      var i :| 0 <= i < |log| && kind(log[i]) == Exec;
      assert kind(log[1..][i - 1]) == Exec;
    }
  }

  /** Two loads in the same position of the same transaction, one with `more` done before. */
  predicate Alike(c: Client, d: Client, before: seq<Command>, kind: Command -> Kind) {
    c.multi == d.multi && (c.multi ==> c.queued == d.queued) &&
    Effects(c.executed, kind) == before + Effects(d.executed, kind)
  }

  lemma {:induction false} StepAlike(c: Client, d: Client, before: seq<Command>, x: Command, kind: Command -> Kind)
    requires Alike(c, d, before, kind)
    ensures Alike(Run(c, x, kind(x)), Run(d, x, kind(x)), before, kind)
  {
    hide Effects;
    if c.multi && kind(x) == Exec {
      EffectsConcat(c.executed, c.queued, kind);
      EffectsConcat(d.executed, d.queued, kind);
      EffectsAssoc(before, Effects(d.executed, kind), Effects(d.queued, kind));
    } else if !c.multi {
      EffectsSnoc(c.executed, x, kind);
      EffectsSnoc(d.executed, x, kind);
      EffectsAssoc(before, Effects(d.executed, kind), if kind(x) == Multi then [] else [x]);
    }
  }

  lemma {:induction false} StayAlike(c: Client, d: Client, before: seq<Command>, log: seq<Command>,
                                     kind: Command -> Kind)
    requires Alike(c, d, before, kind)
    ensures Alike(RunAll(c, log, kind), RunAll(d, log, kind), before, kind)
    decreases |log|
  {
    hide Alike, Run;
    if log != [] {
      var x, k := log[0], kind(log[0]);
      StepAlike(c, d, before, x, kind);
      StayAlike(Run(c, x, k), Run(d, x, k), before, log[1..], kind);
    }
  }

  /** A load inside a transaction that was never closed has queued all that the other one did. */
  predicate Swallowing(c: Client, d: Client, queued: seq<Command>, kind: Command -> Kind) {
    c.multi && Effects(c.queued, kind) ==
      queued + Effects(d.executed, kind) + if d.multi then Effects(d.queued, kind) else []
  }

  lemma {:induction false} SwallowStep(c: Client, d: Client, queued: seq<Command>, x: Command, kind: Command -> Kind)
    requires Swallowing(c, d, queued, kind) && kind(x) != Exec && (kind(x) == Multi ==> !d.multi)
    ensures Swallowing(Run(c, x, kind(x)), Run(d, x, kind(x)), queued, kind)
    ensures Run(c, x, kind(x)).executed == c.executed
  {
    EffectsSnoc(c.queued, x, kind);
    EffectsSnoc(d.executed, x, kind);
    EffectsSnoc(d.queued, x, kind);
  }

  /** It does nothing until an EXEC of a later transaction, which then runs everything. */
  lemma {:induction false} SwallowUntilExec(c: Client, d: Client, queued: seq<Command>, log: seq<Command>,
                                            kind: Command -> Kind)
    requires Swallowing(c, d, queued, kind) && Proper(d, log, kind)
    ensures var c', d' := RunAll(c, log, kind), RunAll(d, log, kind);
            if HasExec(log, kind) then
              Effects(c'.executed, kind) == Effects(c.executed, kind) + queued + Effects(d'.executed, kind)
            else c'.executed == c.executed
    decreases |log|
  {
    hide Swallowing;
    if log != [] {
      HasExecStep(log, kind);
      var x, k := log[0], kind(log[0]);
      if k == Exec {
        ExecRunsAll(c, d, queued, x, kind);
        StayAlike(Run(c, x, k), Run(d, x, k), Effects(c.executed, kind) + queued, log[1..], kind);
      } else {
        SwallowStep(c, d, queued, x, kind);
        SwallowUntilExec(Run(c, x, k), Run(d, x, k), queued, log[1..], kind);
      }
    }
  }

  lemma {:induction false} ExecRunsAll(c: Client, d: Client, queued: seq<Command>, x: Command, kind: Command -> Kind)
    requires Swallowing(c, d, queued, kind) && d.multi
    ensures Alike(Run(c, x, Exec), Run(d, x, Exec), Effects(c.executed, kind) + queued, kind)
  {
    hide Effects;
    EffectsConcat(c.executed, c.queued, kind);
    EffectsConcat(d.executed, d.queued, kind);
  }

  lemma {:induction false} AfterOpen(c: Client, more: seq<Command>, kind: Command -> Kind)
    requires Proper(Idle, more, kind)
    ensures var c', d' := RunAll(c, more, kind), RunAll(Idle, more, kind);
            var lost := if HasExec(more, kind) then Effects(c.queued, kind) else Effects(d'.executed, kind);
            (Effects(c'.executed, kind) == Effects(c.executed, kind) + Effects(d'.executed, kind)) <==>
            !c.multi || lost == []
  {
    hide RunAll, Proper, HasExec;
    if c.multi {
      SwallowUntilExec(c, Idle, Effects(c.queued, kind), more, kind);
    } else {
      StayAlike(c, Idle, Effects(c.executed, kind), more, kind);
    }
  }

  /** Commands appended after recovery survive the next restart exactly when the cut was at a command
      boundary or outside a transaction.  In the other case the code leaves the opening MULTI in the
      file: until a later EXEC nothing appended is run, and with that EXEC the commands of the torn
      transaction are run as well.  So they survive only if, with such an EXEC, none had been queued,
      or without one, there was nothing to run. */
  lemma {:induction false} RecoveryIsDurable(log: seq<Command>, cut: nat, kind: Command -> Kind, more: seq<Command>)
    requires Readable(log, kind) && Unnested(log, kind) && 0 < cut <= |EmitLog(log)|
    requires Readable(more, kind) && Proper(Idle, more, kind) && more != []
    ensures var r := Load(EmitLog(log)[..cut], kind, true);
            && r.Loaded? && r.size <= |EmitLog(log)|
            && var again := Load(EmitLog(log)[..r.size] + EmitLog(more), kind, true);
               var k := WholeIn(log, cut);
               var wanted := Effects(RunAll(Idle, more, kind).executed, kind);
               && again.Loaded?
               && (Effects(again.executed, kind) == Effects(r.executed, kind) + wanted <==>
                     || cut == EndOf(log, k) || !RunAll(Idle, log[..k], kind).multi
                     || (if HasExec(more, kind) then Effects(RunAll(Idle, log[..k], kind).queued, kind)
                         else wanted) == [])
  {
    hide Load, EmitLog, WholeIn, EndOf, RunAll, Proper, HasExec, Effects, Unnested, Readable;
    var j := Kept(log, cut, kind);
    EmitPrefix(log, j);
    EmitConcat(log[..j], more);
    ReadableConcat(log, j, more, kind);
    LoadAll(log[..j] + more, kind);
    RunConcat(Idle, log[..j], more, kind);
    AfterOpen(RunAll(Idle, log[..j], kind), more, kind);
  }

  lemma ReadableConcat(log: seq<Command>, j: nat, more: seq<Command>, kind: Command -> Kind)
    requires Readable(log, kind) && Readable(more, kind) && j <= |log|
    ensures Readable(log[..j] + more, kind)
  {}

  // MULTI, SET k v, EXEC; and SET k w

  const MULTI_CMD: Command := [[77, 85, 76, 84, 73]]
  const EXEC_CMD: Command := [[69, 88, 69, 67]]
  const SET_V: Command := [[83, 69, 84], [107], [118]]
  const SET_W: Command := [[83, 69, 84], [107], [119]]

  function KindOf(c: Command): Kind { if c == MULTI_CMD then Multi else if c == EXEC_CMD then Exec else Plain }

  /** A transaction cut inside its SET is loaded as nothing; SET k w, appended then, is not run either
      when the file is loaded again. */
  lemma {:induction false} AppendedIsLost()
    ensures var log := [MULTI_CMD, SET_V, EXEC_CMD];
            var cut := EndOf(log, 1) + 1;
            && cut <= |EmitLog(log)|
            && var r := Load(EmitLog(log)[..cut], KindOf, true);
               && r == Loaded([], EndOf(log, 1))
               && var again := Load(EmitLog(log)[..r.size] + EmitLog([SET_W]), KindOf, true);
                  again.Loaded? && again.executed == []
  {
    hide Load, EmitLog, WholeIn, EndOf, EmitCommand;
    var log := [MULTI_CMD, SET_V, EXEC_CMD];
    var cut := EndOf(log, 1) + 1;
    EndNext(log, 1);
    WholeBetween(log, 1, cut);
    assert log[..1] == [MULTI_CMD];
    var first := [MULTI_CMD];
    assert first[1..] == [];
    assert RunAll(Idle, first, KindOf) == Client(true, [], []);
    LoadPrefix(log, cut, KindOf, true);
    EmitPrefix(log, 1);
    EmitConcat(first, [SET_W]);
    LoadAll(first + [SET_W], KindOf);
    RunConcat(Idle, first, [SET_W], KindOf);
    RunPlain(Client(true, [], []), [SET_W], KindOf);
  }
}
