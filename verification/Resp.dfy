/** One command in the log format of aof.c: a count line, then one bulk string per argument. */
module Resp {
  import opened Decimal
  import opened Framing

  type Command = seq<Bytes>

  const STAR: Byte := 42
  const DOLLAR: Byte := 36
  const CR: Byte := 13
  const LF: Byte := 10

  // ---------------------------------------------------------------- writing

  function Count(prefix: Byte, n: nat): Bytes { [prefix] + Digits(n) + [CR, LF] }

  function Bulk(arg: Bytes): Bytes { Count(DOLLAR, |arg|) + arg + [CR, LF] }

  function EmitCommand(argv: Command): Bytes { Count(STAR, |argv|) + Flat(Bulk, argv) }

  lemma AppendBulk(start: Bytes, done: Bytes, h: Bytes, arg: Bytes, end: Bytes)
    ensures start + done + h + arg + end == start + (done + (h + arg + end))
  {}

  /** catAppendOnlyGenericCommand. */
  method CatGenericCommand(dst: Bytes, argv: Command) returns (out: Bytes)
    ensures out == dst + EmitCommand(argv)
  {
    out := dst + Count(STAR, |argv|);
    ghost var start := out;
    for j := 0 to |argv|
      invariant out == start + Flat(Bulk, argv[..j])
    {
      AppendBulk(start, Flat(Bulk, argv[..j]), Count(DOLLAR, |argv[j]|), argv[j], [CR, LF]);
      FlatSnoc(Bulk, argv[..j], argv[j]);
      out := out + Count(DOLLAR, |argv[j]|);
      out := out + argv[j];
      out := out + [CR, LF];
      assert argv[..j + 1] == argv[..j] + [argv[j]];
    }
    assert argv[..|argv|] == argv;
    Assoc(dst, Count(STAR, |argv|), Flat(Bulk, argv));
  }

  // ---------------------------------------------------------------- reading

  const LINE_MAX := 127   // fgets into char buf[128]

  /** fgets: through the first newline, at most `max` bytes, or to the end of the file. */
  function Line(rest: Bytes, max: nat): (r: Bytes)
    ensures r <= rest && (rest != [] && max > 0 ==> r != [])
    decreases max
  {
    if rest == [] || max == 0 then []
    else if rest[0] == LF then [LF]
    else [rest[0]] + Line(rest[1..], max - 1)
  }

  /** Whether reading `line` met the end of the file. */
  predicate MetEof(line: Bytes) { |line| < LINE_MAX && (line == [] || line[|line| - 1] != LF) }

  function ReadArg(rest: Bytes): (r: ReadResult<Bytes>)
    ensures r.Read? ==> 1 <= r.used <= |rest|
  {
    var line := Line(rest, LINE_MAX);
    if line == [] then Short
    else if line[0] != DOLLAR then BadFormat
    else
      var len := Parse(line[1..]);
      if len < 0 then Unreadable
      else if |line| + len + 2 > |rest| then Short
      else Read(rest[|line|..|line| + len], |line| + len + 2)
  }

  function ReadCommand(rest: Bytes): (r: ReadResult<Command>)
    ensures r.Read? ==> 1 <= r.used <= |rest|
  {
    var line := Line(rest, LINE_MAX);
    if line == [] then Short
    else if line[0] != STAR then BadFormat
    else if |line| == 1 || line[1] == 0 then (if MetEof(line) then Short else Unreadable)
    else
      var argc := Parse(line[1..]);
      if argc < 1 then BadFormat
      else
        var args := ReadMany(ReadArg, rest[|line|..], argc);
        if args.Read? then Read(args.value, |line| + args.used) else args
  }

  /** Reading one command, as the loop of loadAppendOnlyFile does. */
  method ReadNext(rest: Bytes) returns (r: ReadResult<Command>)
    ensures r == ReadCommand(rest)
  {
    hide Line, Parse;
    var line := Line(rest, LINE_MAX);
    if line == [] { return Short; }
    if line[0] != STAR { return BadFormat; }
    if |line| == 1 || line[1] == 0 { return if MetEof(line) then Short else Unreadable; }
    var argc := Parse(line[1..]);
    if argc < 1 { return BadFormat; }
    r := ReadItems(ReadArg, rest[|line|..], argc);
    if r.Read? { r := Read(r.value, |line| + r.used); }
  }

  // ---------------------------------------------------------------- reading what was written

  lemma {:induction false} LineOf(h: Bytes, tail: Bytes, max: nat)
    requires 1 <= |h| <= max && h[|h| - 1] == LF && forall i | 0 <= i < |h| - 1 :: h[i] != LF
    ensures Line(h + tail, max) == h
    decreases |h|
  {
    if |h| > 1 {
      LineOf(h[1..], tail, max - 1);
      assert (h + tail)[1..] == h[1..] + tail;
      assert h == [h[0]] + h[1..];
    } else {
      assert h == [LF];
    }
  }

  lemma {:induction false} LineCut(h: Bytes, max: nat)
    requires |h| <= max && forall i | 0 <= i < |h| :: h[i] != LF
    ensures Line(h, max) == h
    decreases |h|
  {
    if h != [] { LineCut(h[1..], max - 1); }
  }

  lemma {:induction false} CountShape(prefix: Byte, n: nat)
    requires n <= LONG_MAX
    ensures var h := Count(prefix, n);
            && 4 <= |h| <= LINE_MAX && h[0] == prefix && h[1..] == Digits(n) + [CR, LF]
            && h[|h| - 1] == LF && (forall i | 1 <= i < |h| - 1 :: h[i] == CR || IsDigit(h[i]))
  {
    var h := Count(prefix, n);
    LongDigits(n);
    assert forall i | 1 <= i < |h| - 2 :: h[i] == Digits(n)[i - 1];
  }

  /** A count line is read whole, and its number back. */
  lemma {:induction false} CountLine(prefix: Byte, n: nat, tail: Bytes)
    requires prefix != LF && n <= LONG_MAX
    ensures Line(Count(prefix, n) + tail, LINE_MAX) == Count(prefix, n) && Parse(Count(prefix, n)[1..]) == n
    ensures |Count(prefix, n)| >= 4 && Count(prefix, n)[0] == prefix && Count(prefix, n)[1] != 0
  {
    CountShape(prefix, n);
    LineOf(Count(prefix, n), tail, LINE_MAX);
    ParseDigits(n, [CR, LF]);
  }

  /** A count line cut short is read up to the end of the file, and its number is not negative. */
  lemma {:induction false} CountLineCut(prefix: Byte, n: nat, p: nat)
    requires prefix != LF && n <= LONG_MAX && 1 <= p < |Count(prefix, n)|
    ensures var h := Count(prefix, n)[..p];
            && Line(h, LINE_MAX) == h && h[0] == prefix && MetEof(h) && Parse(h[1..]) >= 0
            && (p > 1 ==> h[1] != 0 && (n > 0 ==> Parse(h[1..]) >= 1))
  {
    var d, h := Digits(n), Count(prefix, n)[..p];
    CountShape(prefix, n);
    LineCut(h, LINE_MAX);
    if p > 1 {
      var q := if p - 1 <= |d| then p - 1 else |d|;
      var e := if p - 1 <= |d| then [] else [CR];
      assert h[1..] == d[..q] + e;
      ParseCut(n, q, e);
    }
  }

  lemma {:induction false} ParseCut(n: nat, q: nat, e: Bytes)
    requires 1 <= q <= |Digits(n)| && e in [[], [CR]]
    ensures Parse(Digits(n)[..q] + e) >= 0 && (n > 0 ==> Parse(Digits(n)[..q] + e) >= 1)
  {
    var d := Digits(n)[..q];
    DigitPrefixOf(d, e);
    assert (d + e)[0] == d[0] && IsDigit(d[0]);
    if n > 0 {
      DigitsFirst(n, q);
      DigitPrefixOf(d, []);
      assert d + [] == d;
    }
  }

  /** Lengths fit the C types that hold them. */
  predicate Fits(arg: Bytes) { |arg| <= LONG_MAX }

  predicate Printable(argv: Command) { 1 <= |argv| <= INT_MAX && forall i | 0 <= i < |argv| :: Fits(argv[i]) }

  lemma {:induction false} ReadArgAfter(h: Bytes, after: Bytes, n: nat)
    requires Line(h + after, LINE_MAX) == h != [] && h[0] == DOLLAR && Parse(h[1..]) == n
    ensures ReadArg(h + after) == if n + 2 <= |after| then Read(after[..n], |h| + n + 2) else Short
  {
    if n + 2 <= |after| { assert (h + after)[|h|..|h| + n] == after[..n]; }
  }

  lemma {:induction false} ReadArgWhole(arg: Bytes, tail: Bytes)
    requires Fits(arg)
    ensures ReadArg(Bulk(arg) + tail) == Read(arg, |Bulk(arg)|)
  {
    var h, after := Count(DOLLAR, |arg|), arg + [CR, LF] + tail;
    CountLine(DOLLAR, |arg|, after);
    ReadArgAfter(h, after, |arg|);
    assert Bulk(arg) + tail == h + after;
    assert after[..|arg|] == arg;
  }

  lemma {:induction false} ReadArgCut(arg: Bytes, p: nat)
    requires Fits(arg) && p < |Bulk(arg)|
    ensures ReadArg(Bulk(arg)[..p]) == Short
  {
    var h, rest := Count(DOLLAR, |arg|), Bulk(arg)[..p];
    if 0 < p < |h| {
      CountLineCut(DOLLAR, |arg|, p);
      assert rest == h[..p] == h[..p] + [];
      ReadArgAfter(h[..p], [], Parse(h[..p][1..]));
    } else if p > 0 {
      var after := (arg + [CR, LF])[..p - |h|];
      assert rest == h + after;
      CountLine(DOLLAR, |arg|, after);
      ReadArgAfter(h, after, |arg|);
    }
  }

  lemma {:induction false} ArgsCode()
    ensures Codes(Bulk, ReadArg, Fits)
  {
    forall arg | Fits(arg) ensures Coded(Bulk, ReadArg, arg) {
      forall tail ensures ReadArg(Bulk(arg) + tail) == Read(arg, |Bulk(arg)|) { ReadArgWhole(arg, tail); }
      forall p | 0 <= p < |Bulk(arg)| ensures ReadArg(Bulk(arg)[..p]) == Short { ReadArgCut(arg, p); }
    }
  }

  lemma {:induction false} ArgsWhole(args: seq<Bytes>, tail: Bytes)
    requires forall i | 0 <= i < |args| :: Fits(args[i])
    ensures ReadMany(ReadArg, Flat(Bulk, args) + tail, |args|) == Read(args, |Flat(Bulk, args)|)
  {
    ArgsCode();
    ManyWhole(Bulk, ReadArg, Fits, args, tail);
  }

  lemma {:induction false} ArgsCut(args: seq<Bytes>, p: nat)
    requires (forall i | 0 <= i < |args| :: Fits(args[i])) && p < |Flat(Bulk, args)|
    ensures ReadMany(ReadArg, Flat(Bulk, args)[..p], |args|) == Short
  {
    ArgsCode();
    ManyCut(Bulk, ReadArg, Fits, args, p);
  }

  lemma {:induction false} ReadCommandAfter(h: Bytes, after: Bytes, n: nat, r: ReadResult<Command>)
    requires Line(h + after, LINE_MAX) == h && |h| >= 2 && h[0] == STAR && h[1] != 0 && Parse(h[1..]) == n >= 1
    requires ReadMany(ReadArg, after, n) == r
    ensures ReadCommand(h + after) == if r.Read? then Read(r.value, |h| + r.used) else r
  {
    assert (h + after)[|h|..] == after;
  }

  lemma {:induction false} ReadCommandWhole(argv: Command, tail: Bytes)
    requires Printable(argv)
    ensures ReadCommand(EmitCommand(argv) + tail) == Read(argv, |EmitCommand(argv)|)
  {
    var h, after := Count(STAR, |argv|), Flat(Bulk, argv) + tail;
    CountLine(STAR, |argv|, after);
    ArgsWhole(argv, tail);
    ReadCommandAfter(h, after, |argv|, Read(argv, |Flat(Bulk, argv)|));
    Assoc(h, Flat(Bulk, argv), tail);
  }

  lemma {:induction false} ReadBodyCut(argv: Command, p: nat)
    requires Printable(argv) && p < |Flat(Bulk, argv)|
    ensures ReadCommand(Count(STAR, |argv|) + Flat(Bulk, argv)[..p]) == Short
  {
    var after := Flat(Bulk, argv)[..p];
    CountLine(STAR, |argv|, after);
    ArgsCut(argv, p);
    ReadCommandAfter(Count(STAR, |argv|), after, |argv|, Short);
  }

  lemma TakeConcat(a: Bytes, b: Bytes, p: nat)
    requires p <= |a + b|
    ensures (a + b)[..p] == if p < |a| then a[..p] else a + b[..p - |a|]
  {}

  lemma {:induction false} ReadCommandCut(argv: Command, p: nat)
    requires Printable(argv) && p < |EmitCommand(argv)|
    ensures ReadCommand(EmitCommand(argv)[..p]) == Short
  {
    var n := |Count(STAR, |argv|)|;
    TakeConcat(Count(STAR, |argv|), Flat(Bulk, argv), p);
    if p == 0 {
      assert EmitCommand(argv)[..p] == [];
    } else if p < n {
      ReadHeaderCut(|argv|, p);
    } else {
      ReadBodyCut(argv, p - n);
    }
  }

  lemma {:induction false} ReadHeaderCut(n: nat, p: nat)
    requires 1 <= n <= LONG_MAX && 1 <= p < |Count(STAR, n)|
    ensures ReadCommand(Count(STAR, n)[..p]) == Short
  {
    var h := Count(STAR, n)[..p];
    CountLineCut(STAR, n, p);
    if p > 1 {
      assert h + [] == h;
      ReadNothing(Parse(h[1..]));
      ReadCommandAfter(h, [], Parse(h[1..]), Short);
    }
  }

  lemma {:induction false} ReadNothing(n: nat)
    requires n >= 1
    ensures ReadMany(ReadArg, [], n) == Short
  {}

  /** Commands with arbitrary bytes in their arguments are read back exactly; cut ones are noticed. */
  lemma {:induction false} CommandsCode()
    ensures Codes(EmitCommand, ReadCommand, Printable)
  {
    forall argv | Printable(argv) ensures Coded(EmitCommand, ReadCommand, argv) {
      forall tail ensures ReadCommand(EmitCommand(argv) + tail) == Read(argv, |EmitCommand(argv)|) {
        ReadCommandWhole(argv, tail);
      }
      forall p | 0 <= p < |EmitCommand(argv)| ensures ReadCommand(EmitCommand(argv)[..p]) == Short {
        ReadCommandCut(argv, p);
      }
    }
  }
}
