/** Self-delimiting encodings: items printed one after the other and read back one at a
    time from the front of what is left of a file. */
module Framing {
  import opened Decimal

  datatype ReadResult<T> =
    | Read(value: T, used: nat)
    | Short          // the end of the file came first
    | BadFormat
    | Unreadable     // a read failed before the end of the file

  function Flat<T>(emit: T -> Bytes, xs: seq<T>): Bytes {
    if xs == [] then [] else emit(xs[0]) + Flat(emit, xs[1..])
  }

  lemma Assoc(x: Bytes, y: Bytes, z: Bytes)
    ensures (x + y) + z == x + (y + z)
  {}

  lemma {:induction false} FlatConcat<T>(emit: T -> Bytes, a: seq<T>, b: seq<T>)
    ensures Flat(emit, a + b) == Flat(emit, a) + Flat(emit, b)
  {
    if a == [] {
      assert a + b == b;
    } else {
      FlatConcat(emit, a[1..], b);
      assert (a + b)[1..] == a[1..] + b;
      Assoc(emit(a[0]), Flat(emit, a[1..]), Flat(emit, b));
    }
  }

  lemma {:induction false} FlatOne<T>(emit: T -> Bytes, x: T)
    ensures Flat(emit, [x]) == emit(x)
  {
    var xs := [x];
    assert xs[1..] == [];
  }

  lemma {:induction false} FlatSnoc<T>(emit: T -> Bytes, xs: seq<T>, x: T)
    ensures Flat(emit, xs + [x]) == Flat(emit, xs) + emit(x)
  {
    FlatConcat(emit, xs, [x]);
    assert [x][1..] == [];
  }

  /** A reader consumes something and stays within the file. */
  ghost predicate Consumes<T>(read: Bytes -> ReadResult<T>) {
    forall rest :: read(rest).Read? ==> 1 <= read(rest).used <= |rest|
  }

  /** `read` gives back what `emit` wrote, whatever follows, and notices a cut. */
  ghost predicate Codes<T(!new)>(emit: T -> Bytes, read: Bytes -> ReadResult<T>, ok: T -> bool) {
    && Consumes(read)
    && (forall x | ok(x) :: Coded(emit, read, x))
  }

  ghost predicate Coded<T>(emit: T -> Bytes, read: Bytes -> ReadResult<T>, x: T) {
    && (forall tail :: read(emit(x) + tail) == Read(x, |emit(x)|))
    && (forall p | 0 <= p < |emit(x)| :: read(emit(x)[..p]) == Short)
  }

  /** The first n items. */
  function ReadMany<T>(read: Bytes -> ReadResult<T>, rest: Bytes, n: nat): (r: ReadResult<seq<T>>)
    requires Consumes(read)
    ensures r.Read? ==> r.used <= |rest|
    decreases n
  {
    if n == 0 then Read([], 0)
    else
      var one := read(rest);
      if !one.Read? then Failed(one)
      else
        var more := ReadMany(read, rest[one.used..], n - 1);
        if more.Read? then Read([one.value] + more.value, one.used + more.used) else more
  }

  function Failed<T, U>(r: ReadResult<T>): ReadResult<U>
    requires !r.Read?
  {
    match r
    case Short => Short
    case BadFormat => BadFormat
    case Unreadable => Unreadable
  }

  /** What reading the remaining items adds to those already read. */
  function Resume<T>(xs: seq<T>, used: nat, more: ReadResult<seq<T>>): ReadResult<seq<T>> {
    if more.Read? then Read(xs + more.value, used + more.used) else more
  }

  lemma {:induction false} ResumeStep<T>(read: Bytes -> ReadResult<T>, rest: Bytes, xs: seq<T>, used: nat, n: nat,
                                         x: T, len: nat)
    requires Consumes(read) && n > 0 && used <= |rest| && read(rest[used..]) == Read(x, len)
    ensures used + len <= |rest|
    ensures Resume(xs, used, ReadMany(read, rest[used..], n)) ==
            Resume(xs + [x], used + len, ReadMany(read, rest[used + len..], n - 1))
  {
    assert rest[used..][len..] == rest[used + len..];
    var more := ReadMany(read, rest[used + len..], n - 1);
    if more.Read? { assert xs + ([x] + more.value) == (xs + [x]) + more.value; }
  }

  lemma ResumeStart<T>(more: ReadResult<seq<T>>)
    ensures Resume([], 0, more) == more
  {
    if more.Read? { assert [] + more.value == more.value; }
  }

  lemma ResumeEnd<T>(xs: seq<T>, used: nat)
    ensures Resume(xs, used, Read([], 0)) == Read(xs, used)
  {
    assert xs + [] == xs;
  }

  /** The loop over the arguments of one command in loadAppendOnlyFile. */
  method ReadItems<T>(read: Bytes -> ReadResult<T>, rest: Bytes, n: nat) returns (r: ReadResult<seq<T>>)
    requires Consumes(read)
    ensures r == ReadMany(read, rest, n)
  {
    var xs, used, j := [], 0, 0;
    assert rest[0..] == rest;
    ResumeStart(ReadMany(read, rest, n));
    while j < n
      invariant 0 <= j <= n && 0 <= used <= |rest|
      invariant ReadMany(read, rest, n) == Resume(xs, used, ReadMany(read, rest[used..], n - j))
    {
      var one := read(rest[used..]);
      if !one.Read? { return Failed(one); }
      ResumeStep(read, rest, xs, used, n - j, one.value, one.used);
      xs, used, j := xs + [one.value], used + one.used, j + 1;
    }
    r := Read(xs, used);
    ResumeEnd(xs, used);
  }

  lemma {:induction false} ManyStep<T>(read: Bytes -> ReadResult<T>, b: Bytes, more: Bytes, x: T, n: nat,
                                       r: ReadResult<seq<T>>)
    requires Consumes(read) && read(b + more) == Read(x, |b|) && ReadMany(read, more, n) == r
    ensures ReadMany(read, b + more, n + 1) == if r.Read? then Read([x] + r.value, |b| + r.used) else r
  {
    assert (b + more)[|b|..] == more;
  }

  lemma {:induction false} ManyWhole<T(!new)>(emit: T -> Bytes, read: Bytes -> ReadResult<T>, ok: T -> bool,
      xs: seq<T>, tail: Bytes)
    requires Codes(emit, read, ok) && forall i | 0 <= i < |xs| :: ok(xs[i])
    ensures ReadMany(read, Flat(emit, xs) + tail, |xs|) == Read(xs, |Flat(emit, xs)|)
    decreases |xs|
  {
    if xs != [] {
      var b, more := emit(xs[0]), Flat(emit, xs[1..]) + tail;
      assert Coded(emit, read, xs[0]);
      ManyWhole(emit, read, ok, xs[1..], tail);
      ManyStep(read, b, more, xs[0], |xs| - 1, Read(xs[1..], |Flat(emit, xs[1..])|));
      Assoc(b, Flat(emit, xs[1..]), tail);
      assert [xs[0]] + xs[1..] == xs;
    }
  }

  lemma {:induction false} ManyCut<T(!new)>(emit: T -> Bytes, read: Bytes -> ReadResult<T>, ok: T -> bool,
      xs: seq<T>, p: nat)
    requires Codes(emit, read, ok) && forall i | 0 <= i < |xs| :: ok(xs[i])
    requires p < |Flat(emit, xs)|
    ensures ReadMany(read, Flat(emit, xs)[..p], |xs|) == Short
    decreases |xs|
  {
    var b := emit(xs[0]);
    assert Coded(emit, read, xs[0]);
    PrefixStep(emit, xs, p);
    if p >= |b| {
      ManyCut(emit, read, ok, xs[1..], p - |b|);
      ManyStep(read, b, Flat(emit, xs[1..])[..p - |b|], xs[0], |xs| - 1, Short);
    }
  }

  // ---------------------------------------------------------------- prefixes

  /** How many items lie wholly within the first p bytes. */
  function Whole<T>(emit: T -> Bytes, xs: seq<T>, p: nat): (k: nat)
    ensures k <= |xs|
    decreases |xs|
  {
    if xs == [] || p < |emit(xs[0])| then 0 else 1 + Whole(emit, xs[1..], p - |emit(xs[0])|)
  }

  /** Where the first k items end. */
  function End<T>(emit: T -> Bytes, xs: seq<T>, k: nat): nat
    requires k <= |xs|
  {
    |Flat(emit, xs[..k])|
  }

  lemma {:induction false} EndStep<T>(emit: T -> Bytes, xs: seq<T>, k: nat)
    requires xs != [] && k <= |xs| - 1
    ensures End(emit, xs, k + 1) == |emit(xs[0])| + End(emit, xs[1..], k)
    ensures xs[..k + 1][0] == xs[0] && xs[..k + 1][1..] == xs[1..][..k]
  {
    assert xs[..k + 1][1..] == xs[1..][..k];
  }

  lemma {:induction false} WholeOfAll<T>(emit: T -> Bytes, xs: seq<T>)
    ensures Whole(emit, xs, |Flat(emit, xs)|) == |xs| && End(emit, xs, |xs|) == |Flat(emit, xs)|
    decreases |xs|
  {
    assert xs[..|xs|] == xs;
    if xs != [] { WholeOfAll(emit, xs[1..]); }
  }

  /** `Whole` counts exactly the items whose last byte is within the prefix. */
  lemma {:induction false} WholeIsExact<T>(emit: T -> Bytes, xs: seq<T>, cut: nat, j: nat)
    requires j <= |xs| && cut <= |Flat(emit, xs)|
    ensures j <= Whole(emit, xs, cut) <==> End(emit, xs, j) <= cut
    decreases |xs|
  {
    assert xs[..0] == [];
    if xs != [] && j > 0 {
      EndStep(emit, xs, j - 1);
      if |emit(xs[0])| <= cut { WholeIsExact(emit, xs[1..], cut - |emit(xs[0])|, j - 1); }
    }
  }

  lemma {:induction false} PrefixStep<T>(emit: T -> Bytes, xs: seq<T>, cut: nat)
    requires xs != [] && cut <= |Flat(emit, xs)|
    ensures var c := emit(xs[0]);
            && (cut < |c| ==> Flat(emit, xs)[..cut] == c[..cut])
            && (cut >= |c| ==> cut - |c| <= |Flat(emit, xs[1..])|
                               && Flat(emit, xs)[..cut] == c + Flat(emit, xs[1..])[..cut - |c|])
  {}
}
