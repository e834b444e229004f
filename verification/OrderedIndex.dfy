/** The radix tree slots_to_keys as what it is used for: byte strings in lexicographic order. */
module OrderedIndex {
  import opened Basics
  import opened Decimal

  predicate Less(a: Bytes, b: Bytes)
    decreases |a|
  {
    b != [] && (a == [] || a[0] < b[0] || (a[0] == b[0] && Less(a[1..], b[1..])))
  }

  lemma {:induction false} LessTrans(a: Bytes, b: Bytes, c: Bytes)
    requires Less(a, b) && Less(b, c)
    ensures Less(a, c)
    decreases |a|
  {
    if a != [] && a[0] == b[0] == c[0] { LessTrans(a[1..], b[1..], c[1..]); }
  }

  lemma {:induction false} LessIrreflexive(a: Bytes)
    ensures !Less(a, a)
    decreases |a|
  {
    if a != [] { LessIrreflexive(a[1..]); }
  }

  lemma {:induction false} LessTotal(a: Bytes, b: Bytes)
    ensures a == b || Less(a, b) || Less(b, a)
    decreases |a|
  {
    if a != [] && b != [] && a[0] == b[0] {
      LessTotal(a[1..], b[1..]);
      if a[1..] == b[1..] { assert a == [a[0]] + a[1..] && b == [b[0]] + b[1..]; }
    }
  }

  predicate Sorted(s: seq<Bytes>) { forall i, j | 0 <= i < j < |s| :: Less(s[i], s[j]) }

  // ---------------------------------------------------------------- raxInsert and raxRemove

  function Insert(s: seq<Bytes>, x: Bytes): seq<Bytes> {
    if s == [] then [x]
    else if x == s[0] then s
    else if Less(x, s[0]) then [x] + s
    else [s[0]] + Insert(s[1..], x)
  }

  lemma {:induction false} InsertSorted(s: seq<Bytes>, x: Bytes)
    requires Sorted(s)
    ensures Sorted(Insert(s, x)) && Range(Insert(s, x)) == Range(s) + {x}
    decreases |s|
  {
    hide Less;
    if s != [] {
      LessTotal(x, s[0]);
      if x != s[0] {
        if Less(x, s[0]) {
          forall j | 0 <= j < |s| ensures Less(x, s[j]) {
            if j > 0 { LessTrans(x, s[0], s[j]); }
          }
        } else {
          var r := Insert(s[1..], x);
          InsertSorted(s[1..], x);
          SplitFirst(s);
          forall j | 0 <= j < |r| ensures Less(s[0], r[j]) {
            assert r[j] in Range(r);
            assert r[j] == x || r[j] in Range(s[1..]);
          }
          SplitFirst([s[0]] + r);
          assert ([s[0]] + r)[1..] == r;
        }
      }
    }
  }

  lemma SplitFirst(s: seq<Bytes>)
    requires s != []
    ensures Range(s) == {s[0]} + Range(s[1..])
    ensures forall x | x in Range(s[1..]) :: exists j :: 1 <= j < |s| && s[j] == x
  {
    forall x | x in Range(s[1..]) ensures exists j :: 1 <= j < |s| && s[j] == x {
      var k :| 0 <= k < |s[1..]| && s[1..][k] == x;
      assert s[k + 1] == x;
    }
  }

  function Remove(s: seq<Bytes>, x: Bytes): seq<Bytes> {
    if s == [] then [] else if s[0] == x then s[1..] else [s[0]] + Remove(s[1..], x)
  }

  lemma {:induction false} RemoveSorted(s: seq<Bytes>, x: Bytes)
    requires Sorted(s)
    ensures Sorted(Remove(s, x)) && Range(Remove(s, x)) == Range(s) - {x}
    decreases |s|
  {
    hide Less;
    if s != [] {
      SplitFirst(s);
      LessIrreflexive(x);
      if s[0] == x {
        assert x !in Range(s[1..]);
      } else {
        var r := Remove(s[1..], x);
        RemoveSorted(s[1..], x);
        forall j | 0 <= j < |r| ensures Less(s[0], r[j]) {
          assert r[j] in Range(r);
          assert r[j] in Range(s[1..]);
        }
        SplitFirst([s[0]] + r);
        assert ([s[0]] + r)[1..] == r;
      }
    }
  }

  // ---------------------------------------------------------------- raxSeek ">="

  /** The position of the first entry that is not less than `x`. */
  function Seek(s: seq<Bytes>, x: Bytes): (i: nat)
    ensures i <= |s| && (i < |s| ==> !Less(s[i], x)) && forall j | 0 <= j < i :: Less(s[j], x)
  {
    if s == [] || !Less(s[0], x) then 0 else 1 + Seek(s[1..], x)
  }

  /** Everything from there on is not less either. */
  lemma {:induction false} SeekSplits(s: seq<Bytes>, x: Bytes, j: nat)
    requires Sorted(s) && Seek(s, x) <= j < |s|
    ensures !Less(s[j], x)
  {
    hide Less;
    var i := Seek(s, x);
    if j > i && Less(s[j], x) {
      LessTrans(s[i], s[j], x);
    }
  }
}
