/** Which node serves a request (getNodeByQuery of cluster.c), for single commands and for whole
    transactions, while slots are being migrated or imported. */
module Routing {
  import opened Basics

  type Slot = nat
  type Key = nat
  type Name = nat

  /** What this node knows: slot owners, open slots, and the keys it holds. */
  datatype View = View(me: Name, master: Option<Name>, owner: Slot -> Option<Name>, migratingTo: Slot -> Option<Name>,
                       importingFrom: Slot -> Option<Name>, ok: bool, present: set<Key>, hash: Key -> Slot,
                       noRedirection: bool)

  datatype Kind = Exec | Migrate | Plain

  /** A request: the command, the keys of every command it stands for, and the client's flags.  Outside
      a transaction there is one command; `mayRead` tells a command allowed on replicas. */
  datatype Request = Request(kind: Kind, inMulti: bool, commands: seq<seq<Key>>, asking: bool, readOnlyClient: bool,
                             mayRead: bool)

  datatype Route = Here | Moved(to: Name) | Ask(to: Name) | CrossSlot | TryAgain | Unbound | Down

  function AllKeys(commands: seq<seq<Key>>): seq<Key> {
    if commands == [] then [] else commands[0] + AllKeys(commands[1..])
  }

  lemma {:induction false} AllKeysSnoc(commands: seq<seq<Key>>, c: seq<Key>)
    ensures AllKeys(commands + [c]) == AllKeys(commands) + c
  {
    if commands == [] {
      var one := commands + [c];
      assert one[1..] == [];
    } else {
      AllKeysSnoc(commands[1..], c);
      assert (commands + [c])[1..] == commands[1..] + [c];
    }
  }

  // ---------------------------------------------------------------- what the keys of a request are like

  predicate SameSlot(v: View, keys: seq<Key>) { forall i | 0 <= i < |keys| :: v.hash(keys[i]) == v.hash(keys[0]) }

  predicate SeveralKeys(keys: seq<Key>) { exists i :: 0 <= i < |keys| && keys[i] != keys[0] }

  predicate KeysMissing(v: View, keys: seq<Key>) { exists i :: 0 <= i < |keys| && keys[i] !in v.present }

  predicate Migrating(v: View, s: Slot) { v.owner(s) == Some(v.me) && v.migratingTo(s).Some? }

  predicate Importing(v: View, s: Slot) { !Migrating(v, s) && v.importingFrom(s).Some? }

  /** The decision, from the keys as a whole. */
  function Decide(v: View, q: Request, keys: seq<Key>): Route
    requires keys != []
  {
    var s := v.hash(keys[0]);
    var n := v.owner(s);
    if n == None then Unbound
    else if !SameSlot(v, keys) then CrossSlot
    else if !v.ok then Down
    else if (Migrating(v, s) || Importing(v, s)) && q.kind == Migrate then Here
    else if Migrating(v, s) && KeysMissing(v, keys) then Ask(v.migratingTo(s).value)
    else if Importing(v, s) && q.asking then (if SeveralKeys(keys) && KeysMissing(v, keys) then TryAgain else Here)
    else if q.readOnlyClient && q.mayRead && v.master == n then Here
    else if n.value != v.me then Moved(n.value)
    else Here
  }

  predicate Untouched(v: View, q: Request) {
    v.noRedirection || (q.kind == Exec && !q.inMulti) || AllKeys(q.commands) == []
  }

  function RouteOf(v: View, q: Request): Route { if Untouched(v, q) then Here else Decide(v, q, AllKeys(q.commands)) }

  // ---------------------------------------------------------------- the loops

  /** What the nested loops have found after looking at `keys`. */
  datatype Scan = Scan(first: Option<Key>, n: Option<Name>, several: bool, migrating: bool, importing: bool,
                       missing: nat)

  ghost predicate Scanned(v: View, keys: seq<Key>, c: Scan) {
    if keys == [] then c == Scan(None, None, false, false, false, 0)
    else
      var s := v.hash(keys[0]);
      && c.first == Some(keys[0]) && c.n == v.owner(s) && c.n.Some? && SameSlot(v, keys)
      && c.several == SeveralKeys(keys) && c.migrating == Migrating(v, s) && c.importing == Importing(v, s)
      && (c.migrating || c.importing ==> (c.missing > 0 <==> KeysMissing(v, keys)))
      && (!c.migrating && !c.importing ==> c.missing == 0)
  }

  /** One key further, or the error it brings. */
  method LookAt(v: View, ghost keys: seq<Key>, c: Scan, key: Key) returns (failed: Option<Route>, d: Scan)
    requires Scanned(v, keys, c)
    ensures failed.None? ==> Scanned(v, keys + [key], d)
    ensures failed.Some? ==> failed.value == (if keys == [] then Unbound else CrossSlot)
    ensures failed.Some? ==> if keys == [] then v.owner(v.hash(key)) == None else v.hash(key) != v.hash(keys[0])
  {
    d := c;
    failed := None;
    ghost var more := keys + [key];
    if c.first.None? {
      var s := v.hash(key);
      d := d.(first := Some(key), n := v.owner(s));
      if d.n.None? { return Some(Unbound), d; }
      if d.n == Some(v.me) && v.migratingTo(s).Some? { d := d.(migrating := true); }
      else if v.importingFrom(s).Some? { d := d.(importing := true); }
    } else if c.first.value != key {
      if v.hash(c.first.value) != v.hash(key) { return Some(CrossSlot), d; }
      d := d.(several := true);
      assert more[|keys|] != more[0];
    }
    if (d.migrating || d.importing) && key !in v.present {
      d := d.(missing := d.missing + 1);
      assert more[|keys|] !in v.present;
    }
    MoreKeys(v, keys, key);
  }

  lemma {:induction false} MoreKeys(v: View, keys: seq<Key>, key: Key)
    ensures var more := keys + [key];
            KeysMissing(v, more) == (KeysMissing(v, keys) || key !in v.present) &&
            (keys != [] ==> SeveralKeys(more) == (SeveralKeys(keys) || key != keys[0])) &&
            (keys != [] ==> SameSlot(v, more) == (SameSlot(v, keys) && v.hash(key) == v.hash(keys[0]))) &&
            (keys == [] ==> !SeveralKeys(more) && SameSlot(v, more))
  {
    var more := keys + [key];
    assert more[|keys|] == key;
    if KeysMissing(v, keys) {
      var i :| 0 <= i < |keys| && keys[i] !in v.present;
      assert more[i] !in v.present;
    }
    if SeveralKeys(keys) {
      var i :| 0 <= i < |keys| && keys[i] != keys[0];
      assert more[i] != more[0];
    }
    if SameSlot(v, more) {
      forall i | 0 <= i < |keys| ensures v.hash(keys[i]) == v.hash(keys[0]) { assert more[i] == keys[i]; }
    }
  }

  /** An error met early is the answer for the whole request. */
  lemma {:induction false} EarlyError(v: View, q: Request, seen: seq<Key>, key: Key, rest: seq<Key>)
    requires if seen == [] then v.owner(v.hash(key)) == None
             else v.hash(key) != v.hash(seen[0]) && v.owner(v.hash(seen[0])).Some?
    ensures Decide(v, q, seen + [key] + rest) == if seen == [] then Unbound else CrossSlot
  {
    var all := seen + [key] + rest;
    assert all[|seen|] == key;
    if seen != [] { assert all[0] == seen[0]; }
  }

  /** getNodeByQuery. */
  method GetNodeByQuery(v: View, q: Request) returns (r: Route)
    requires q.kind == Exec || |q.commands| == 1
    ensures r == RouteOf(v, q)
  {
    hide Scanned, Decide, AllKeys;
    NoKeys();
    if v.noRedirection { return Here; }
    if q.kind == Exec && !q.inMulti { return Here; }
    var c := Scan(None, None, false, false, false, 0);
    NothingScanned(v);
    ghost var seen: seq<Key> := [];
    for i := 0 to |q.commands|
      invariant seen == AllKeys(q.commands[..i]) && Scanned(v, seen, c)
    {
      var keys := q.commands[i];
      ghost var before := seen;
      assert q.commands[..i + 1] == q.commands[..i] + [keys];
      AllKeysSnoc(q.commands[..i], keys);
      for j := 0 to |keys|
        invariant seen == before + keys[..j] && Scanned(v, seen, c)
      {
        var failed, d := LookAt(v, seen, c, keys[j]);
        if failed.Some? {
          Remaining(q.commands, i, j);
          ScannedOwner(v, seen, c);
          EarlyError(v, q, seen, keys[j], keys[j + 1..] + AllKeys(q.commands[i + 1..]));
          SomeKey(v, q, seen, keys[j], keys[j + 1..] + AllKeys(q.commands[i + 1..]));
          return failed.value;
        }
        c := d;
        assert keys[..j + 1] == keys[..j] + [keys[j]];
        assert before + keys[..j] + [keys[j]] == before + (keys[..j] + [keys[j]]);
        seen := seen + [keys[j]];
      }
      assert keys[..|keys|] == keys;
    }
    assert q.commands[..|q.commands|] == q.commands;
    r := Conclude(v, q, seen, c);
  }

  lemma NoKeys()
    ensures AllKeys([]) == []
  {}

  lemma NothingScanned(v: View)
    ensures Scanned(v, [], Scan(None, None, false, false, false, 0))
  {}

  lemma ScannedOwner(v: View, keys: seq<Key>, c: Scan)
    requires Scanned(v, keys, c)
    ensures keys != [] ==> v.owner(v.hash(keys[0])).Some?
  {}

  lemma SomeKey(v: View, q: Request, seen: seq<Key>, key: Key, rest: seq<Key>)
    requires AllKeys(q.commands) == seen + [key] + rest && !v.noRedirection && !(q.kind == Exec && !q.inMulti)
    ensures RouteOf(v, q) == Decide(v, q, seen + [key] + rest)
  {}

  lemma {:induction false} Remaining(commands: seq<seq<Key>>, i: nat, j: nat)
    requires i < |commands| && j < |commands[i]|
    ensures AllKeys(commands) ==
            AllKeys(commands[..i]) + commands[i][..j] + [commands[i][j]] +
            (commands[i][j + 1..] + AllKeys(commands[i + 1..]))
    decreases i
  {
    if i == 0 {
      var c := commands[0];
      assert commands[..0] == [];
      assert c == c[..j] + [c[j]] + c[j + 1..];
    } else {
      Remaining(commands[1..], i - 1, j);
      assert commands[1..][i - 1] == commands[i] && commands[1..][i..] == commands[i + 1..];
      assert commands[..i][1..] == commands[1..][..i - 1];
    }
  }

  /** What follows the loops. */
  method Conclude(v: View, q: Request, ghost keys: seq<Key>, c: Scan) returns (r: Route)
    requires Scanned(v, keys, c)
    ensures r == if keys == [] then Here else Decide(v, q, keys)
  {
    if c.n.None? { return Here; }
    if !v.ok { return Down; }
    var s := v.hash(c.first.value);
    if (c.migrating || c.importing) && q.kind == Migrate { return Here; }
    if c.migrating && c.missing > 0 { return Ask(v.migratingTo(s).value); }
    if c.importing && q.asking {
      if c.several && c.missing > 0 { return TryAgain; }
      return Here;
    }
    if q.readOnlyClient && q.mayRead && v.master.Some? && v.master == c.n { return Here; }
    if c.n.value != v.me { return Moved(c.n.value); }
    r := Here;
  }

  // ---------------------------------------------------------------- when a request is served here

  /** A node that does not redirect, EXEC outside a transaction and a request without any key are served
      here, whatever the state of the cluster. */
  lemma {:induction false} KeylessIsServed(v: View, q: Request)
    requires || v.noRedirection || (q.kind == Exec && !q.inMulti)
             || forall i | 0 <= i < |q.commands| :: q.commands[i] == []
    ensures RouteOf(v, q) == Here
  {
    hide Decide;
    if forall i | 0 <= i < |q.commands| :: q.commands[i] == [] { NoKeysAtAll(q.commands); }
  }

  lemma {:induction false} NoKeysAtAll(commands: seq<seq<Key>>)
    requires forall i | 0 <= i < |commands| :: commands[i] == []
    ensures AllKeys(commands) == []
  {
    if commands != [] { NoKeysAtAll(commands[1..]); }
  }

  /** The keys of a request are those of its commands, in order. */
  lemma {:induction false} KeyOfRequest(commands: seq<seq<Key>>, i: nat, j: nat)
    requires i < |commands| && j < |commands[i]|
    ensures commands[i][j] in AllKeys(commands)
  {
    Remaining(commands, i, j);
  }

  predicate OneKeyOrAllPresent(v: View, keys: seq<Key>) { !SeveralKeys(keys) || !KeysMissing(v, keys) }

  /** A request with keys is accepted here exactly when its keys share a slot that is bound, the cluster
      is up, and one of these holds: the slot is ours and not migrating; it is ours and migrating and
      every key is still here; it is open and the command is MIGRATE; it is being imported, the client
      said ASKING, and there is one key or all are here; or we may read it as a replica of its owner.
      ASKING on a slot being imported overrides the first and the last. */
  lemma {:induction false} ServedHereExactly(v: View, q: Request)
    requires !v.noRedirection && (q.kind == Exec ==> q.inMulti) && AllKeys(q.commands) != []
    ensures var keys := AllKeys(q.commands);
            var s := v.hash(keys[0]);
            var asked := Importing(v, s) && q.asking;
            RouteOf(v, q) == Here <==>
            v.owner(s).Some? && SameSlot(v, keys) && v.ok &&
            (|| ((Migrating(v, s) || Importing(v, s)) && q.kind == Migrate)
             || (Migrating(v, s) && !KeysMissing(v, keys))
             || (asked && OneKeyOrAllPresent(v, keys))
             || (!asked && !Migrating(v, s) && v.owner(s) == Some(v.me))
             || (!asked && !Migrating(v, s) && q.readOnlyClient && q.mayRead && v.master == v.owner(s)))
  {
    hide AllKeys, SameSlot, SeveralKeys, KeysMissing;
  }

  /** Each other answer, and exactly when it is given.  MOVED names the owner of the slot, ASK the node
      it is migrating to. */
  lemma {:induction false} RedirectsExactly(v: View, q: Request, to: Name)
    requires !v.noRedirection && (q.kind == Exec ==> q.inMulti) && AllKeys(q.commands) != []
    ensures var keys := AllKeys(q.commands);
            var s := v.hash(keys[0]);
            var usable := v.owner(s).Some? && SameSlot(v, keys) && v.ok;
            && (RouteOf(v, q) == Moved(to) <==>
                  && usable && v.owner(s) == Some(to) && to != v.me
                  && !(Importing(v, s) && (q.asking || q.kind == Migrate))
                  && !(q.readOnlyClient && q.mayRead && v.master == Some(to)))
            && (RouteOf(v, q) == Ask(to) <==>
                  && usable && v.owner(s) == Some(v.me) && v.migratingTo(s) == Some(to)
                  && KeysMissing(v, keys) && q.kind != Migrate)
  {
    hide AllKeys, SameSlot, SeveralKeys, KeysMissing;
  }

  /** A request is turned away for good when its slot is unbound, its keys lie in several slots or the
      cluster is down, and for a while when several keys are asked for of which some have not arrived. */
  lemma {:induction false} TurnedAwayExactly(v: View, q: Request)
    requires !v.noRedirection && (q.kind == Exec ==> q.inMulti) && AllKeys(q.commands) != []
    ensures var keys := AllKeys(q.commands);
            var s := v.hash(keys[0]);
            var r := RouteOf(v, q);
            && (r == Unbound <==> v.owner(s) == None)
            && (r == CrossSlot <==> v.owner(s).Some? && exists i, j ::
                  0 <= i < |keys| && 0 <= j < |keys| && v.hash(keys[i]) != v.hash(keys[j]))
            && (r == Down <==> v.owner(s).Some? && SameSlot(v, keys) && !v.ok)
            && (r == TryAgain <==>
                  && v.owner(s).Some? && SameSlot(v, keys) && v.ok && Importing(v, s) && q.asking && q.kind != Migrate
                  && !OneKeyOrAllPresent(v, keys))
  {
    hide AllKeys, SeveralKeys, KeysMissing;
  }
}
