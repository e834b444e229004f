/** Handing list elements to waiting clients: serveClientBlockedOnList of t_list.c and the pop
    before it in blocked.c, on values. */
module ListServing {
  import opened Basics

  type Key = nat
  type Element = nat

  datatype Obj = ListObj(items: seq<Element>) | OtherObj

  type Db = map<Key, Obj>

  datatype End = Head | Tail

  /** What a client blocked on a list asked for: an end to pop from, and where BRPOPLPUSH pushes. */
  datatype Wish = Wish(where: End, target: Option<Key>)

  /** What became of the element: given to the client, moved to a list, or put back. */
  datatype Outcome = Delivered(value: Element) | Moved(value: Element, to: Key) | Refused(value: Element)

  function Popped(l: seq<Element>, where: End): Element
    requires l != []
  {
    if where.Head? then l[0] else l[|l| - 1]
  }

  function Rest(l: seq<Element>, where: End): seq<Element>
    requires l != []
  {
    if where.Head? then l[1..] else l[..|l| - 1]
  }

  function Push(l: seq<Element>, v: Element, where: End): seq<Element> { if where.Head? then [v] + l else l + [v] }

  /** Undoing a pop at the same end gives the list back. */
  lemma PushBack(l: seq<Element>, where: End)
    requires l != []
    ensures Push(Rest(l, where), Popped(l, where), where) == l
  {}

  predicate NonEmptyList(db: Db, key: Key) { key in db && db[key].ListObj? && db[key].items != [] }

  function Items(db: Db, key: Key): seq<Element> { if key in db && db[key].ListObj? then db[key].items else [] }

  function OutcomeOf(db: Db, key: Key, w: Wish): Outcome
    requires NonEmptyList(db, key)
  {
    var v := Popped(db[key].items, w.where);
    if w.target.None? then Delivered(v)
    else if w.target.value in db && !db[w.target.value].ListObj? then Refused(v)
    else Moved(v, w.target.value)
  }

  function Served(db: Db, key: Key, w: Wish): (r: Db)
    requires NonEmptyList(db, key)
    ensures key in r && r[key].ListObj?
  {
    var popped := db[key := ListObj(Rest(db[key].items, w.where))];
    match OutcomeOf(db, key, w)
    case Delivered(_) => popped
    case Refused(_) => db
    case Moved(v, to) => popped[to := ListObj([v] + Items(popped, to))]
  }

  /** Serving several clients in order, all from the same list. */
  predicate CanServe(db: Db, key: Key, ws: seq<Wish>)
    decreases |ws|
  {
    ws == [] || (NonEmptyList(db, key) && CanServe(Served(db, key, ws[0]), key, ws[1..]))
  }

  function ServedAll(db: Db, key: Key, ws: seq<Wish>): Db
    requires CanServe(db, key, ws)
    decreases |ws|
  {
    if ws == [] then db else ServedAll(Served(db, key, ws[0]), key, ws[1..])
  }

  function Outcomes(db: Db, key: Key, ws: seq<Wish>): (r: seq<Outcome>)
    requires CanServe(db, key, ws)
    ensures |r| == |ws|
    decreases |ws|
  {
    if ws == [] then [] else [OutcomeOf(db, key, ws[0])] + Outcomes(Served(db, key, ws[0]), key, ws[1..])
  }

  lemma {:induction false} ServeOneMore(db: Db, key: Key, ws: seq<Wish>, w: Wish)
    requires CanServe(db, key, ws) && NonEmptyList(ServedAll(db, key, ws), key)
    ensures CanServe(db, key, ws + [w])
    ensures ServedAll(db, key, ws + [w]) == Served(ServedAll(db, key, ws), key, w)
    ensures Outcomes(db, key, ws + [w]) == Outcomes(db, key, ws) + [OutcomeOf(ServedAll(db, key, ws), key, w)]
    decreases |ws|
  {
    hide Served, OutcomeOf;
    if ws == [] {
      assert (ws + [w])[1..] == [];
    } else {
      ServeOneMore(Served(db, key, ws[0]), key, ws[1..], w);
      assert (ws + [w])[1..] == ws[1..] + [w];
    }
  }

  // ---------------------------------------------------------------- conservation

  /** All elements in the lists stored under `keys`. */
  function Elements(db: Db, keys: seq<Key>): multiset<Element> {
    if keys == [] then multiset{} else multiset(Items(db, keys[0])) + Elements(db, keys[1..])
  }

  lemma {:induction false} ElementsElsewhere(db: Db, d: Db, keys: seq<Key>)
    requires forall i | 0 <= i < |keys| :: Items(db, keys[i]) == Items(d, keys[i])
    ensures Elements(db, keys) == Elements(d, keys)
  {
    if keys != [] {
      assert Items(db, keys[0]) == Items(d, keys[0]);
      ElementsElsewhere(db, d, keys[1..]);
    }
  }

  lemma Common(h: multiset<Element>, a: multiset<Element>, b: multiset<Element>, c: multiset<Element>,
               d: multiset<Element>)
    requires a + b == c + d
    ensures (h + a) + b == (h + c) + d
  {
    assert (h + a) + b == h + (a + b);
    assert (h + c) + d == h + (c + d);
  }

  lemma Cancel(p: multiset<Element>, r: multiset<Element>, x: multiset<Element>, d: multiset<Element>)
    requires p + (r + x) == d + r
    ensures p + x == d
  {
    forall e ensures (p + x)[e] == d[e] {
      assert (p + (r + x))[e] == (d + r)[e];
    }
    assert p + x == d;
  }

  /** Changing one list changes the total by as much. */
  lemma {:induction false} ElementsChange(db: Db, d: Db, keys: seq<Key>, key: Key)
    requires NoDup(keys) && key in keys && forall k | k != key :: Items(db, k) == Items(d, k)
    ensures Elements(d, keys) + multiset(Items(db, key)) == Elements(db, keys) + multiset(Items(d, key))
  {
    hide Items;
    if keys[0] == key {
      ElementsElsewhere(db, d, keys[1..]);
    } else {
      ElementsChange(db, d, keys[1..], key);
      assert Items(db, keys[0]) == Items(d, keys[0]);
      Common(multiset(Items(db, keys[0])), Elements(d, keys[1..]), multiset(Items(db, key)), Elements(db, keys[1..]),
             multiset(Items(d, key)));
    }
  }

  lemma PopSplits(l: seq<Element>, where: End)
    requires l != []
    ensures multiset(l) == multiset(Rest(l, where)) + multiset{Popped(l, where)}
  {
    if where.Head? {
      assert l == [l[0]] + l[1..];
    } else {
      assert l == l[..|l| - 1] + [l[|l| - 1]];
    }
  }

  function Given(o: Outcome): multiset<Element> { if o.Delivered? then multiset{o.value} else multiset{} }

  /** One client: what is in the lists and what it got add up to what was in the lists. */
  lemma {:induction false} ServeConserves(db: Db, key: Key, w: Wish, keys: seq<Key>)
    requires NonEmptyList(db, key) && NoDup(keys) && key in keys && (w.target.Some? ==> w.target.value in keys)
    ensures Elements(Served(db, key, w), keys) + Given(OutcomeOf(db, key, w)) == Elements(db, keys)
  {
    hide Elements;
    var l := db[key].items;
    var v := Popped(l, w.where);
    var popped := db[key := ListObj(Rest(l, w.where))];
    PopSplits(l, w.where);
    ElementsChange(db, popped, keys, key);
    Cancel(Elements(popped, keys), multiset(Rest(l, w.where)), multiset{v}, Elements(db, keys));
    match OutcomeOf(db, key, w)
    case Delivered(_) =>
    case Refused(_) =>
    case Moved(_, to) =>
      var after := popped[to := ListObj([v] + Items(popped, to))];
      ElementsChange(popped, after, keys, to);
      var d := multiset(Items(popped, to));
      assert multiset([v] + Items(popped, to)) == d + multiset{v};
      Cancel(Elements(popped, keys), d, multiset{v}, Elements(after, keys));
  }

  function GivenAll(os: seq<Outcome>): multiset<Element> {
    if os == [] then multiset{} else Given(os[0]) + GivenAll(os[1..])
  }

  predicate TargetsIn(ws: seq<Wish>, keys: seq<Key>) {
    forall i | 0 <= i < |ws| && ws[i].target.Some? :: ws[i].target.value in keys
  }

  /** However many clients are served: no element is lost or duplicated. */
  lemma {:induction false} ServingConserves(db: Db, key: Key, ws: seq<Wish>, keys: seq<Key>)
    requires CanServe(db, key, ws) && NoDup(keys) && key in keys && TargetsIn(ws, keys)
    ensures Elements(ServedAll(db, key, ws), keys) + GivenAll(Outcomes(db, key, ws)) == Elements(db, keys)
    decreases |ws|
  {
    hide Served, OutcomeOf, Elements, NonEmptyList;
    if ws != [] {
      assert TargetsIn(ws[1..], keys);
      ServeConserves(db, key, ws[0], keys);
      ServingConserves(Served(db, key, ws[0]), key, ws[1..], keys);
    }
  }

  /** Keys are only added by pushing to a target. */
  lemma {:induction false} ServedKeys(db: Db, key: Key, ws: seq<Wish>, keys: seq<Key>)
    requires CanServe(db, key, ws) && db.Keys <= Range(keys) && TargetsIn(ws, keys)
    ensures ServedAll(db, key, ws).Keys <= Range(keys)
    decreases |ws|
  {
    if ws != [] {
      assert TargetsIn(ws[1..], keys) && TargetsIn(ws[..1], keys);
      assert ws[0].target.Some? ==> ws[..1][0].target.value in Range(keys);
      assert Served(db, key, ws[0]).Keys <= Range(keys);
      ServedKeys(Served(db, key, ws[0]), key, ws[1..], keys);
    }
  }

  // ---------------------------------------------------------------- popping without waiting

  /** The list without the popped element; a list left empty is not stored. */
  function PoppedFrom(db: Db, key: Key, where: End): Db
    requires NonEmptyList(db, key)
  {
    var rest := Rest(db[key].items, where);
    if rest == [] then db - {key} else db[key := ListObj(rest)]
  }

  /** It loses that element and no other. */
  lemma {:induction false} PopConserves(db: Db, key: Key, where: End, keys: seq<Key>)
    requires NonEmptyList(db, key) && NoDup(keys) && key in keys
    ensures Elements(PoppedFrom(db, key, where), keys) + multiset{Popped(db[key].items, where)} == Elements(db, keys)
  {
    hide Elements;
    var l := db[key].items;
    PopSplits(l, where);
    ElementsChange(db, PoppedFrom(db, key, where), keys, key);
    Cancel(Elements(PoppedFrom(db, key, where), keys), multiset(Rest(l, where)), multiset{Popped(l, where)},
           Elements(db, keys));
  }

  // ---------------------------------------------------------------- who gets what

  predicate Plain(ws: seq<Wish>) { forall i | 0 <= i < |ws| :: ws[i].target.None? }

  /** Clients popping from the head get the elements from the front of the list, in order. */
  lemma {:induction false} HeadPopsInOrder(db: Db, key: Key, ws: seq<Wish>)
    requires NonEmptyList(db, key) && |ws| <= |db[key].items| && Plain(ws) &&
             forall i | 0 <= i < |ws| :: ws[i].where == Head
    ensures CanServe(db, key, ws)
    ensures forall i | 0 <= i < |ws| :: Outcomes(db, key, ws)[i] == Delivered(db[key].items[i])
    ensures ServedAll(db, key, ws) == db[key := ListObj(db[key].items[|ws|..])]
    decreases |ws|
  {
    if ws == [] {
      assert db[key := ListObj(db[key].items[0..])] == db;
    } else if |ws| == 1 {
      assert ws[1..] == [];
    } else {
      var d := Served(db, key, ws[0]);
      HeadPopsInOrder(d, key, ws[1..]);
      assert d[key].items[|ws| - 1..] == db[key].items[|ws|..];
    }
  }
}
