/** Clients blocked on keys (blocked.c): the two-way index between clients and keys, the queues of
    ready keys and of unblocked clients, and the loop that serves lists.  One database. */
module Blocked {
  import opened Basics
  import opened ListServing

  /** Why a client is blocked: on a list, or on another kind of data. */
  datatype Blocking = NotBlocked | OnList | OnOther

  datatype Reply = Pair(key: Key, value: Element) | Bulk(value: Element) | WrongType

  // ---------------------------------------------------------------- waiter lists

  function Remove<T(==)>(s: seq<T>, x: T): seq<T> {
    if s == [] then [] else if s[0] == x then s[1..] else [s[0]] + Remove(s[1..], x)
  }

  /** `r` has the elements of `s` other than `x`. */
  predicate Without<T(==)>(r: seq<T>, s: seq<T>, x: T) {
    (forall y | y in r :: y in s && y != x) && (forall y | y in s && y != x :: y in r)
  }

  lemma {:induction false} RemoveExactly<T>(s: seq<T>, x: T)
    requires NoDup(s)
    ensures NoDup(Remove(s, x)) && Without(Remove(s, x), s, x)
  {
    if s != [] && s[0] != x {
      RemoveExactly(s[1..], x);
      var r := Remove(s[1..], x);
      assert s[0] !in s[1..];
    }
  }

  class Client {
    var keys: seq<Key>
    var target: Option<Key>
    var btype: Blocking
    var flagged: bool        // CLIENT_UNBLOCKED
    var where: End           // BLPOP pops the head, every other command the tail
    var replies: seq<Reply>

    constructor ()
      ensures keys == [] && btype == NotBlocked && !flagged && replies == [] && target == None
    {
      keys, target, btype, flagged, where, replies := [], None, NotBlocked, false, Head, [];
    }

    function Asks(): Wish
      reads `where, `target
    {
      Wish(where, target)
    }
  }

  type Waiting = map<Key, seq<Client>>

  function Queue(w: Waiting, k: Key): seq<Client> { if k in w then w[k] else [] }

  /** Lists left empty are not stored. */
  ghost predicate NoEmpty(w: Waiting) { forall k | k in w :: w[k] != [] }

  function Put(w: Waiting, k: Key, l: seq<Client>): Waiting {
    if l == [] then map x | x in w && x != k :: w[x] else w[k := l]
  }

  lemma PutQueues(w: Waiting, k: Key, l: seq<Client>)
    requires NoEmpty(w)
    ensures NoEmpty(Put(w, k, l)) && forall x :: Queue(Put(w, k, l), x) == if x == k then l else Queue(w, x)
  {}

  /** `after` is `before` with `c` taken off the lists of `keys`. */
  ghost predicate Off(before: Waiting, after: Waiting, c: Client, keys: set<Key>) {
    NoEmpty(after) && forall k :: Queue(after, k) == if k in keys then Remove(Queue(before, k), c) else Queue(before, k)
  }

  /** `after` is `before` with `c` appended to the lists of `keys`. */
  ghost predicate On(before: Waiting, after: Waiting, c: Client, keys: set<Key>) {
    NoEmpty(after) && forall k :: Queue(after, k) == if k in keys then Queue(before, k) + [c] else Queue(before, k)
  }

  type KeyMap = map<Client, seq<Key>>

  /** A client is once in the list of a key exactly when the key is among its own, and no list
      is empty. */
  ghost predicate Index(w: Waiting, m: KeyMap) {
    && NoEmpty(w)
    && (forall k :: NoDup(Queue(w, k)))
    && (forall c | c in m :: NoDup(m[c]))
    && (forall k, c | c in Queue(w, k) :: c in m && k in m[c])
    && (forall k, c | c in m && k in m[c] :: c in Queue(w, k))
  }

  class Server {
    var clients: set<Client>
    var waiting: Waiting
    var unblocked: seq<Client>
    var readyKeys: seq<Key>
    var readySet: set<Key>
    var db: Db
    var blockedClients: nat

    ghost function KeysOf(): (m: KeyMap)
      reads `clients, clients`keys
      ensures m.Keys == clients
    {
      map c | c in clients :: c.keys
    }

    ghost predicate Indexed()
      reads `clients, `waiting, clients`keys
    {
      Index(waiting, KeysOf())
    }

    ghost function Flagged(): set<Client>
      reads `clients, clients`flagged
    {
      set c | c in clients && c.flagged
    }

    /** The queue of unblocked clients holds the flagged ones, each once. */
    ghost predicate Queued()
      reads `clients, `unblocked, clients`flagged
    {
      NoDup(unblocked) && Range(unblocked) == Flagged()
    }

    ghost function BlockedOnes(): set<Client>
      reads `clients, clients`btype
    {
      set c | c in clients && c.btype != NotBlocked
    }

    ghost predicate Counted()
      reads `clients, `blockedClients, clients`btype
    {
      blockedClients == |BlockedOnes()|
    }

    ghost predicate Typed()
      reads `clients, clients`btype, clients`keys
    {
      forall c | c in clients :: c.btype == NotBlocked <==> c.keys == []
    }

    /** Every signalled key is queued once, here or among the `pending` ones being handled. */
    ghost predicate Ready(pending: seq<Key>)
      reads `readyKeys, `readySet
    {
      NoDup(readyKeys) && NoDup(pending) && Range(readyKeys) !! Range(pending) &&
        readySet == Range(readyKeys) + Range(pending)
    }

    ghost predicate Valid()
      reads this, clients
    {
      Indexed() && Queued() && Counted() && Typed()
    }

    constructor ()
      ensures Valid() && Ready([]) && clients == {}
    {
      clients, waiting, unblocked, readyKeys, readySet, db, blockedClients := {}, map[], [], [], {}, map[], 0;
    }

    /** queueClientForReprocessing. */
    method QueueForReprocessing(c: Client)
      requires Queued() && c in clients
      modifies `unblocked, c`flagged
      ensures Queued() && unblocked == if old(c.flagged) then old(unblocked) else old(unblocked) + [c]
    {
      if !c.flagged {
        assert c !in Range(unblocked) && Range(unblocked + [c]) == Range(unblocked) + {c};
        NoDupMore(unblocked, c);
        c.flagged := true;
        unblocked := unblocked + [c];
      }
    }

    /** processUnblockedClients: the clients whose input is looked at again, first in first out,
        are the queued ones that are not blocked anew.  Handling that input is not part of this model. */
    method ProcessUnblockedClients() returns (resumed: seq<Client>)
      requires Queued()
      modifies `unblocked, clients`flagged
      ensures Queued() && unblocked == [] && resumed == Keep(old(unblocked), clients - BlockedOnes())
    {
      hide Keep, NoDup;
      resumed := [];
      ghost var awake := clients - BlockedOnes();
      KeepNone(awake);
      ghost var done: seq<Client> := [];
      while unblocked != []
        invariant Queued() && done + unblocked == old(unblocked) && resumed == Keep(done, awake)
        decreases |unblocked|
      {
        var c := unblocked[0];
        NoDupTail(unblocked);
        KeepMore(done, c, awake);
        assert done + unblocked == done + [c] + unblocked[1..];
        assert Range(unblocked) == {c} + Range(unblocked[1..]);
        done := done + [c];
        unblocked := unblocked[1..];
        c.flagged := false;
        if c.btype == NotBlocked { resumed := resumed + [c]; }
      }
      assert done + [] == done;
    }

    /** signalKeyAsReady: queued once, and only when somebody waits. */
    method SignalKeyAsReady(key: Key, ghost pending: seq<Key>)
      requires Ready(pending)
      modifies `readyKeys, `readySet
      ensures Ready(pending)
      ensures readyKeys == if key in waiting && key !in old(readySet) then old(readyKeys) + [key] else old(readyKeys)
    {
      hide NoDup;
      if key !in waiting { return; }
      if key in readySet { return; }
      NoDupMore(readyKeys, key);
      assert Range(readyKeys + [key]) == Range(readyKeys) + {key};
      readyKeys := readyKeys + [key];
      readySet := readySet + {key};
    }

    /** unblockClientWaitingData: off the list of every key it waits for; its assertions hold. */
    method UnblockClientWaitingData(c: Client)
      requires Indexed() && c in clients && c.keys != []
      modifies `waiting, c`keys, c`target
      ensures Indexed() && c.keys == [] && c.target == None
      ensures Off(old(waiting), waiting, c, Range(old(c.keys)))
    {
      hide Remove, Put, Queue, NoEmpty, Index, Off;
      var keys := c.keys;
      ghost var before, m := waiting, KeysOf();
      IndexFacts(before, m, c);
      OffNone(before, c);
      assert Range(keys[..0]) == {};
      for i := 0 to |keys|
        invariant c.keys == keys && Off(before, waiting, c, Range(keys[..i]))
      {
        var k := keys[i];
        assert k !in Range(keys[..i]) && Range(keys[..i + 1]) == Range(keys[..i]) + {k};
        OffMore(before, waiting, c, Range(keys[..i]), k);
        waiting := Put(waiting, k, Remove(Queue(waiting, k), c));
      }
      assert keys[..|keys|] == keys;
      c.keys, c.target := [], None;
      assert KeysOf() == m[c := []];
      OffKeepsIndex(before, m, waiting, c);
    }

    /** blockClient. */
    method BlockClient(c: Client, btype: Blocking)
      requires Counted() && c in clients && c.btype == NotBlocked && btype != NotBlocked
      modifies `blockedClients, c`btype
      ensures Counted() && c.btype == btype && BlockedOnes() == old(BlockedOnes()) + {c}
    {
      blockedClients := blockedClients + 1;
      c.btype := btype;
      assert BlockedOnes() == old(BlockedOnes()) + {c};
    }

    /** The second half of unblockClient. */
    method ClearBlocked(c: Client)
      requires Counted() && c in clients && c.btype != NotBlocked
      modifies `blockedClients, c`btype
      ensures Counted() && c.btype == NotBlocked && BlockedOnes() == old(BlockedOnes()) - {c}
    {
      assert c in BlockedOnes();
      blockedClients := blockedClients - 1;
      c.btype := NotBlocked;
      assert BlockedOnes() == old(BlockedOnes()) - {c};
    }

    /** unblockClient, for a client blocked on data. */
    method UnblockClient(c: Client)
      requires Valid() && c in clients && c.btype != NotBlocked
      modifies `waiting, `unblocked, `blockedClients, c`keys, c`target, c`btype, c`flagged
      ensures Valid() && Off(old(waiting), waiting, c, Range(old(c.keys)))
      ensures c.keys == [] && c.target == None && c.btype == NotBlocked && BlockedOnes() == old(BlockedOnes()) - {c}
      ensures unblocked == if old(c.flagged) then old(unblocked) else old(unblocked) + [c]
    {
      hide Indexed, Queued, Counted, Off;
      UnblockClientWaitingData(c);
      ClearBlocked(c);
      QueueForReprocessing(c);
      assert BlockedOnes() == old(BlockedOnes()) - {c};
    }

    /** The loop of blockForKeys: a repeated key counts once. */
    method JoinQueues(c: Client, keys: seq<Key>)
      requires Indexed() && c in clients && c.keys == []
      modifies `waiting, c`keys
      ensures Indexed() && Range(c.keys) == Range(keys) && On(old(waiting), waiting, c, Range(keys))
    {
      hide Index, Queue, NoEmpty, NoDup, On, Put;
      ghost var before, m := waiting, KeysOf();
      IndexFacts(before, m, c);
      OnNone(before, c);
      NoDupEmpty<Key>();
      assert Range(c.keys) == {};
      for j := 0 to |keys|
        invariant NoDup(c.keys) && Range(c.keys) == Range(keys[..j]) && On(before, waiting, c, Range(c.keys))
      {
        var k := keys[j];
        assert Range(keys[..j + 1]) == Range(keys[..j]) + {k};
        if k in c.keys { continue; }
        NoDupMore(c.keys, k);
        assert Range(c.keys + [k]) == Range(c.keys) + {k};
        OnMore(before, waiting, c, Range(c.keys), k);
        c.keys := c.keys + [k];
        waiting := Put(waiting, k, Queue(waiting, k) + [c]);
      }
      assert keys[..|keys|] == keys;
      assert KeysOf() == m[c := c.keys];
      OnKeepsIndex(before, m, waiting, c, c.keys);
    }

    /** blockForKeys: at the tail of the list of every key. */
    method BlockForKeys(c: Client, btype: Blocking, keys: seq<Key>, target: Option<Key>)
      requires Valid() && c in clients && c.btype == NotBlocked && btype != NotBlocked && keys != []
      modifies `waiting, `blockedClients, c`keys, c`target, c`btype
      ensures Valid() && On(old(waiting), waiting, c, Range(keys))
      ensures c.btype == btype && c.target == target && Range(c.keys) == Range(keys) &&
              BlockedOnes() == old(BlockedOnes()) + {c}
    {
      hide Indexed, Queued, Counted, On;
      c.target := target;
      JoinQueues(c, keys);
      assert keys[0] in Range(keys) && keys[0] in Range(c.keys);
      assert BlockedOnes() == old(BlockedOnes());
      BlockClient(c, btype);
    }

    /** The first waiter goes to the tail of the list. */
    method Rotate(key: Key)
      requires Indexed() && key in waiting
      modifies `waiting
      ensures Indexed()
      ensures old(waiting)[key] != [] && Queue(waiting, key) == old(waiting)[key][1..] + [old(waiting)[key][0]]
      ensures forall k | k != key :: Queue(waiting, k) == Queue(old(waiting), k)
    {
      hide Index, NoDup;
      IndexNonEmpty(waiting, KeysOf(), key);
      var l := waiting[key];
      RotateKeepsIndex(waiting, KeysOf(), key);
      waiting := waiting[key := l[1..] + [l[0]]];
    }

    /** serveClientBlockedOnList: the client gets the element, or it is pushed to the target. */
    method ServeClientBlockedOnList(c: Client, key: Key, dst: Option<Key>, value: Element, ghost pending: seq<Key>)
        returns (ok: bool)
      requires Ready(pending) && c in clients
      modifies `db, `readyKeys, `readySet, c`replies
      ensures Ready(pending)
      ensures ok == !(dst.Some? && dst.value in old(db) && !old(db)[dst.value].ListObj?)
      ensures db == if ok && dst.Some? then old(db)[dst.value := ListObj([value] + Items(old(db), dst.value))]
                    else old(db)
      ensures c.replies == old(c.replies) +
                           [if dst.None? then Pair(key, value) else if ok then Bulk(value) else WrongType]
      ensures readyKeys == old(readyKeys) +
                           if dst.Some? && dst.value !in old(db) && dst.value in waiting && dst.value !in old(readySet)
                           then [dst.value] else []
      ensures old(readySet) <= readySet && forall k | k in db && k !in old(db) :: k in readySet || k !in waiting
    {
      hide NoDup;
      if dst.None? {
        c.replies := c.replies + [Pair(key, value)];
        return true;
      }
      if dst.value in db && !db[dst.value].ListObj? {
        c.replies := c.replies + [WrongType];
        return false;
      }
      if dst.value !in db {
        db := db[dst.value := ListObj([])];
        SignalKeyAsReady(dst.value, pending);
      }
      db := db[dst.value := ListObj([value] + db[dst.value].items)];
      c.replies := c.replies + [Bulk(value)];
      ok := true;
    }

    /** No list is stored empty, and nobody blocked on a list waits for one that has elements, except
        where that is still to be handled: the keys signalled, and `busy`. */
    ghost predicate Fed(busy: set<Key>)
      reads `clients, `waiting, `db, `readySet, clients`btype
    {
      NoneStarves(waiting, db, readySet, busy, OnLists())
    }

    /** Popping for one waiter, unblocking it and serving it; a pop that cannot be served is undone. */
    method ServeOne(c: Client, key: Key, ghost pending: seq<Key>)
      requires Valid() && Ready(pending) && Fed({key}) && c in clients && c.btype == OnList && NonEmptyList(db, key)
      modifies `waiting, `unblocked, `blockedClients, `db, `readyKeys, `readySet, c
      ensures Valid() && Ready(pending) && Fed({key})
      ensures c.btype == NotBlocked && Off(old(waiting), waiting, c, Range(old(c.keys))) &&
              BlockedOnes() == old(BlockedOnes()) - {c}
      ensures db == Served(old(db), key, old(c.Asks()))
      ensures c.replies == old(c.replies) + [ReplyFor(key, OutcomeOf(old(db), key, old(c.Asks())))]
    {
      hide Indexed, Queued, Counted, Typed, Off, Ready, NoneStarves;
      var dst, where, l := c.target, c.where, db[key].items;
      var value := Popped(l, where);
      db := db[key := ListObj(Rest(l, where))];
      UnblockClient(c);
      var ok := ServeClientBlockedOnList(c, key, dst, value, pending);
      if !ok {
        PushBack(l, where);
        db := db[key := ListObj(Push(db[key].items, value, where))];
        assert db == old(db);
      }
      assert BlockedOnes() == old(BlockedOnes()) - {c};
      assert OnLists() == old(OnLists()) - {c};
      ServedFeeds(old(waiting), waiting, c, Range(old(c.keys)), old(db), db, key, old(c.Asks()), old(readySet),
                  readySet, old(OnLists()));
    }

    ghost function AskedOf(): (m: map<Client, Wish>)
      reads `clients, clients`where, clients`target
      ensures m.Keys == clients
    {
      map c | c in clients :: c.Asks()
    }

    ghost function SaidTo(): (m: map<Client, seq<Reply>>)
      reads `clients, clients`replies
      ensures m.Keys == clients
    {
      map c | c in clients :: c.replies
    }

    ghost function OnLists(): set<Client>
      reads `clients, clients`btype
    {
      set c | c in clients && c.btype == OnList
    }

    /** The clients in `served`, and no others, got what serving them in this order from `start` gives. */
    ghost predicate ServedSoFar(start: Db, key: Key, served: seq<Client>, asked: map<Client, Wish>,
                                said: map<Client, seq<Reply>>, listers: set<Client>)
      reads `clients, `db, clients`where, clients`target, clients`replies, clients`btype
    {
      && asked.Keys == said.Keys == clients && Range(served) <= clients && NoDup(served)
      && CanServe(start, key, Wishes(served, asked)) && db == ServedAll(start, key, Wishes(served, asked))
      && OnLists() == listers - Range(served)
      && (forall c | c in clients - Range(served) :: c.Asks() == asked[c] && c.replies == said[c])
      && (forall i | 0 <= i < |served| ::
            served[i].replies == said[served[i]] + [ReplyFor(key, Outcomes(start, key, Wishes(served, asked))[i])])
    }

    /** The state of the loop after `p` rounds over the waiters `q`. */
    ghost predicate Rounds(start: Db, key: Key, q: seq<Client>, p: nat, served: seq<Client>, asked: map<Client, Wish>,
                           said: map<Client, seq<Reply>>, listers: set<Client>)
      reads `clients, `db, `waiting, clients`where, clients`target, clients`replies, clients`btype
    {
      && p <= |q| && NoDup(q) && served == Keep(q[..p], listers) &&
        Queue(waiting, key) == q[p..] + Keep(q[..p], Range(q) - listers)
      && ServedSoFar(start, key, served, asked, said, listers)
      && key in db && db[key].ListObj?
    }

    /** A round that serves the first waiter. */
    method ServeHead(c: Client, key: Key, ghost pending: seq<Key>, ghost start: Db, ghost q: seq<Client>,
                     ghost p: nat, ghost served: seq<Client>, ghost asked: map<Client, Wish>,
                     ghost said: map<Client, seq<Reply>>, ghost listers: set<Client>)
      requires Valid() && Ready(pending) && Fed({key}) && p < |q| && c == q[p] && c in clients && c.btype == OnList &&
               NonEmptyList(db, key)
      requires Rounds(start, key, q, p, served, asked, said, listers)
      modifies `waiting, `unblocked, `blockedClients, `db, `readyKeys, `readySet, clients
      ensures Valid() && Ready(pending) && Fed({key}) && BlockedOnes() == old(BlockedOnes()) - {c}
      ensures Rounds(start, key, q, p + 1, served + [c], asked, said, listers)
    {
      hide Indexed, Queued, Counted, Typed, Ready, Fed, Keep, NoDup, Remove, CanServe, ServedAll, Served, OutcomeOf,
           Outcomes, Off, Queue;
      assert c in OnLists();
      NotServedYet(q, p, listers);
      QueueHead(q, p, listers);
      HeadKey(key);
      ServeOneMore(start, key, Wishes(served, asked), asked[c]);
      assert Wishes(served + [c], asked) == Wishes(served, asked) + [asked[c]];
      assert Range(served + [c]) == Range(served) + {c};
      NoDupMore(served, c);
      ghost var before := waiting;
      ServeOne(c, key, pending);
      OffQueue(before, waiting, c, Range(old(c.keys)), key);
      assert OnLists() == old(OnLists()) - {c};
    }

    /** A round that moves the first waiter to the tail. */
    method TurnHead(key: Key, ghost start: Db, ghost q: seq<Client>, ghost p: nat, ghost served: seq<Client>,
                    ghost asked: map<Client, Wish>, ghost said: map<Client, seq<Reply>>, ghost listers: set<Client>)
      requires Valid() && Fed({key}) && key in waiting && p < |q| && q[p] in clients && q[p].btype != OnList
      requires Rounds(start, key, q, p, served, asked, said, listers)
      modifies `waiting
      ensures Valid() && Fed({key}) && Rounds(start, key, q, p + 1, served, asked, said, listers)
    {
      hide Queued, Counted, Typed, Keep, NoDup, Index, CanServe, ServedAll, Outcomes;
      assert q[p] !in OnLists();
      NotServedYet(q, p, listers);
      QueueHead(q, p, listers);
      Rotate(key);
    }

    /** The loop over the waiters of a list: numclients rounds, each either moving a client blocked on
        something else to the tail or serving one.  `p` is the number of rounds completed. */
    method ServeWaiters(key: Key, ghost pending: seq<Key>) returns (ghost served: seq<Client>, ghost p: nat)
      requires Valid() && Ready(pending) && Fed({key}) && key in db && db[key].ListObj?
      modifies `waiting, `unblocked, `blockedClients, `db, `readyKeys, `readySet, clients
      ensures Valid() && Ready(pending) && Fed({key}) && BlockedOnes() == old(BlockedOnes()) - Range(served)
      ensures served == [] ==> readyKeys == old(readyKeys)
      ensures var q, listers := old(Queue(waiting, key)), old(OnLists());
              Rounds(old(db), key, q, p, served, old(AskedOf()), old(SaidTo()), listers) &&
              (p == |q| || (q[p] in listers && Items(db, key) == []))
    {
      hide Indexed, Queued, Counted, Typed, Ready, Fed, Keep, NoDup, ServedSoFar, Off;
      ghost var q, listers, asked, said := Queue(waiting, key), OnLists(), AskedOf(), SaidTo();
      served, p := [], 0;
      RoundsStart(key);
      if key in waiting {
        var numclients := |waiting[key]|;
        while numclients > 0
          invariant Valid() && Ready(pending) && Fed({key}) && p + numclients == |q|
          invariant served == [] ==> readyKeys == old(readyKeys)
          invariant Rounds(old(db), key, q, p, served, asked, said, listers)
          invariant BlockedOnes() == old(BlockedOnes()) - Range(served)
          decreases numclients
        {
          numclients := numclients - 1;
          HeadWaits(key);
          var c := waiting[key][0];
          if c.btype != OnList {
            TurnHead(key, old(db), q, p, served, asked, said, listers);
          } else {
            if |db[key].items| == 0 {
              StillLister(c, old(db), key, served, asked, said, listers);
              return;
            }
            ServeHead(c, key, pending, old(db), q, p, served, asked, said, listers);
            assert Range(served + [c]) == Range(served) + {c};
            served := served + [c];
          }
          p := p + 1;
        }
      }
    }

    /** The keys of all lists, and all lists clients blocked on lists want elements moved to. */
    ghost predicate Covers(keys: seq<Key>)
      reads `clients, `db, clients`btype, clients`target
    {
      NoDup(keys) && db.Keys <= Range(keys) && forall c | c in OnLists() && c.target.Some? :: c.target.value in keys
    }

    /** There is always such a list. */
    lemma SomeCover() returns (keys: seq<Key>)
      ensures Covers(keys)
    {
      var targets := set c | c in OnLists() && c.target.Some? :: c.target.value;
      keys := Listed(db.Keys + targets);
      forall c | c in OnLists() && c.target.Some? ensures c.target.value in keys {
        assert c.target.value in targets && c.target.value in Range(keys);
      }
    }

    /** What a round over the waiters of one list gave to whom, and that nothing was lost. */
    lemma RoundConserves(start: Db, key: Key, served: seq<Client>, asked: map<Client, Wish>,
                         said: map<Client, seq<Reply>>, listers: set<Client>, keys: seq<Key>)
        returns (got: seq<Reply>)
      requires ServedSoFar(start, key, served, asked, said, listers) && Range(served) <= listers <= clients
      requires key in start && NoDup(keys) && start.Keys <= Range(keys)
      requires forall c | c in listers && asked[c].target.Some? :: asked[c].target.value in keys
      ensures Handed(served, got, said, SaidTo()) && Covers(keys)
      ensures Elements(db, keys) + GotAll(got) == Elements(start, keys)
    {
      hide CanServe, ServedAll, Outcomes, NoDup, Elements, ReplyFor, GotAll;
      var ws := Wishes(served, asked);
      forall i | 0 <= i < |ws| && ws[i].target.Some? ensures ws[i].target.value in keys {
        assert served[i] in Range(served);
      }
      ServingConserves(start, key, ws, keys);
      ServedKeys(start, key, ws, keys);
      got := RepliesFor(key, Outcomes(start, key, ws));
      GotIsGiven(key, Outcomes(start, key, ws));
      forall c | c in OnLists() && c.target.Some? ensures c.target.value in keys {
        assert c in clients - Range(served) && c.Asks() == asked[c];
      }
    }

    /** The list branch for one ready key: its waiters are served, then the list is deleted if empty. */
    method HandleKey(key: Key, ghost pending: seq<Key>, ghost keys: seq<Key>)
        returns (ghost served: seq<Client>, ghost got: seq<Reply>)
      requires Valid() && Ready(pending) && Fed({key}) && Covers(keys)
      modifies `waiting, `unblocked, `blockedClients, `db, `readyKeys, `readySet, clients
      ensures Valid() && Ready(pending) && Fed({}) && Covers(keys)
      ensures BlockedOnes() == old(BlockedOnes()) - Range(served) && Range(served) <= old(BlockedOnes())
      ensures served == [] ==> readyKeys == old(readyKeys)
      ensures Handed(served, got, old(SaidTo()), SaidTo())
      ensures Elements(db, keys) + GotAll(got) == Elements(old(db), keys)
    {
      hide Indexed, Queued, Counted, Typed, Ready, Keep, NoDup, ServedSoFar, NoneStarves, Elements, GotAll, Handed;
      if key in db && db[key].ListObj? {
        ghost var q, p := Queue(waiting, key), 0;
        served, p := ServeWaiters(key, pending);
        KeepOnly(q[..p], old(OnLists()));
        got := RoundConserves(old(db), key, served, old(AskedOf()), old(SaidTo()), old(OnLists()), keys);
        if |db[key].items| == 0 {
          Emptied(waiting, db, readySet, key, OnLists());
          ElementsElsewhere(db, map k | k in db && k != key :: db[k], keys);
          db := map k | k in db && k != key :: db[k];
        } else {
          StillLess(old(db), key, served, old(AskedOf()), old(SaidTo()), old(OnLists()));
          NobodyLeft(waiting, q, p, key, old(OnLists()), OnLists());
          Fulfilled(waiting, db, readySet, key, OnLists());
        }
      } else {
        Fulfilled(waiting, db, readySet, key, OnLists());
        served, got := [], [];
        HandedNothing(SaidTo());
      }
    }

    lemma StillLess(start: Db, key: Key, served: seq<Client>, asked: map<Client, Wish>, said: map<Client, seq<Reply>>,
                    listers: set<Client>)
      requires ServedSoFar(start, key, served, asked, said, listers)
      ensures OnLists() <= listers
    {}

    /** Since `blocked`, `said` and `start` were noted, `served` got `got`: they are the clients unblocked,
        and what is in the lists and in the replies is what was in the lists. */
    ghost predicate Balance(keys: seq<Key>, blocked: set<Client>, said: map<Client, seq<Reply>>, start: Db,
                            served: seq<Client>, got: seq<Reply>)
      reads `clients, `db, clients`btype, clients`replies
    {
      && BlockedOnes() == blocked - Range(served) && Range(served) <= blocked
      && Handed(served, got, said, SaidTo()) && Elements(db, keys) + GotAll(got) == Elements(start, keys)
    }

    lemma BalanceStart(keys: seq<Key>)
      ensures Balance(keys, BlockedOnes(), SaidTo(), db, [], [])
    {
      HandedNothing(SaidTo());
    }

    /** One key more. */
    method HandleNext(key: Key, ghost pending: seq<Key>, ghost keys: seq<Key>, ghost blocked: set<Client>,
                      ghost said: map<Client, seq<Reply>>, ghost start: Db, ghost served: seq<Client>,
                      ghost got: seq<Reply>)
        returns (ghost served': seq<Client>, ghost got': seq<Reply>)
      requires Valid() && Ready(pending) && Fed({key}) && Covers(keys)
      requires Balance(keys, blocked, said, start, served, got)
      modifies `waiting, `unblocked, `blockedClients, `db, `readyKeys, `readySet, clients
      ensures Valid() && Ready(pending) && Fed({}) && Covers(keys)
      ensures Balance(keys, blocked, said, start, served', got')
      ensures BlockedOnes() <= old(BlockedOnes())
      ensures BlockedOnes() == old(BlockedOnes()) ==> readyKeys == old(readyKeys)
    {
      hide Indexed, Queued, Counted, Typed, Ready, NoneStarves, Elements, GotAll, Handed, Covers;
      ghost var middle := SaidTo();
      ghost var more, gains := HandleKey(key, pending, keys);
      HandedMore(served, got, said, middle, more, gains, SaidTo());
      GotMore(got, gains);
      ServedSome(more);
      assert Range(served + more) == Range(served) + Range(more);
      served', got' := served + more, got + gains;
    }

    /** The keys that were ready when the round began, one after the other. */
    method HandleRound(ready: seq<Key>, ghost keys: seq<Key>, ghost blocked: set<Client>,
                       ghost said: map<Client, seq<Reply>>, ghost start: Db, ghost served: seq<Client>,
                       ghost got: seq<Reply>)
        returns (ghost served': seq<Client>, ghost got': seq<Reply>)
      requires Valid() && Ready(ready) && Fed({}) && Covers(keys)
      requires Balance(keys, blocked, said, start, served, got)
      modifies `waiting, `unblocked, `blockedClients, `db, `readyKeys, `readySet, clients
      ensures Valid() && Ready([]) && Fed({}) && Covers(keys)
      ensures Balance(keys, blocked, said, start, served', got')
      ensures BlockedOnes() <= old(BlockedOnes())
      ensures BlockedOnes() == old(BlockedOnes()) ==> readyKeys == old(readyKeys)
    {
      hide Indexed, Queued, Counted, Typed, NoneStarves, NoDup, Covers, Balance;
      served', got' := served, got;
      var l := ready;
      while l != []
        invariant Valid() && Ready(l) && Fed({}) && Covers(keys)
        invariant Balance(keys, blocked, said, start, served', got')
        invariant BlockedOnes() <= old(BlockedOnes())
        invariant BlockedOnes() == old(BlockedOnes()) ==> readyKeys == old(readyKeys)
        decreases |l|
      {
        var key := l[0];
        NoDupTail(l);
        assert Range(l) == {key} + Range(l[1..]);
        TakeUp(key);
        l := l[1..];
        readySet := readySet - {key};
        served', got' := HandleNext(key, l, keys, blocked, said, start, served', got');
      }
    }

    /** handleClientsBlockedOnKeys: when it returns nothing is left to handle, and nobody blocked on a
        list waits for one with elements.  It ends because every new round follows from a client served.
        The clients unblocked are those who got a reply, each one, and what is in the lists and in these
        replies is what was in the lists. */
    method HandleClientsBlockedOnKeys(ghost keys: seq<Key>) returns (ghost served: seq<Client>, ghost got: seq<Reply>)
      requires Valid() && Ready([]) && Fed({}) && Covers(keys)
      modifies `waiting, `unblocked, `blockedClients, `db, `readyKeys, `readySet, clients
      ensures Valid() && Ready([]) && readyKeys == []
      ensures NoneStarves(waiting, db, {}, {}, OnLists())
      ensures Balance(keys, old(BlockedOnes()), old(SaidTo()), old(db), served, got)
    {
      hide Indexed, Queued, Counted, Typed, NoneStarves, NoDup, Covers, Balance;
      served, got := [], [];
      BalanceStart(keys);
      while readyKeys != []
        invariant Valid() && Ready([]) && Fed({}) && Covers(keys)
        invariant Balance(keys, old(BlockedOnes()), old(SaidTo()), old(db), served, got)
        decreases |BlockedOnes()|, |readyKeys|
      {
        ghost var before := BlockedOnes();
        var l := readyKeys;
        readyKeys := [];
        NoDupEmpty<Key>();
        served, got := HandleRound(l, keys, old(BlockedOnes()), old(SaidTo()), old(db), served, got);
        SubsetSize(BlockedOnes(), before);
      }
      assert readySet == {};
    }

    /** A signalled key may stop being signalled when its turn has come. */
    lemma TakeUp(key: Key)
      requires Fed({})
      ensures NoneStarves(waiting, db, readySet - {key}, {key}, OnLists())
    {}

    /** blockingPopGenericCommand outside a transaction: the first key present is popped, or refused if
        it is no list, and the client blocks when there is none. */
    method BlockingPop(c: Client, where: End, keys: seq<Key>) returns (ghost blocked: bool)
      requires Valid() && Fed({}) && c in clients && c.btype == NotBlocked && keys != []
      modifies `waiting, `blockedClients, `db, c
      ensures Valid() && Fed({})
      ensures blocked == (forall k | k in keys :: k !in old(db))
      ensures blocked ==>
                && db == old(db) && c.replies == old(c.replies)
                && c.btype == OnList && c.where == where && On(old(waiting), waiting, c, Range(keys))
      ensures !blocked ==>
                && waiting == old(waiting) && blockedClients == old(blockedClients) && c.btype == NotBlocked
                && var k := keys[FirstPresent(old(db), keys)];
                   if !old(db)[k].ListObj? then db == old(db) && c.replies == old(c.replies) + [WrongType]
                   else
                     && NonEmptyList(old(db), k) && db == PoppedFrom(old(db), k, where)
                     && c.replies == old(c.replies) + [Pair(k, Popped(old(db)[k].items, where))]
    {
      hide Indexed, Queued, Counted, Typed, On, NoDup;
      c.where := where;
      for j := 0 to |keys|
        invariant forall i | 0 <= i < j :: keys[i] !in db
        invariant Valid() && Fed({}) && c.btype == NotBlocked && waiting == old(waiting) && db == old(db)
        invariant c.where == where && c.replies == old(c.replies) && blockedClients == old(blockedClients)
      {
        var k := keys[j];
        if k in db {
          blocked := false;
          assert k in keys;
          FirstIs(db, keys, j);
          if !db[k].ListObj? {
            c.replies := c.replies + [WrongType];
          } else {
            assert db[k].items != [];
            c.replies := c.replies + [Pair(k, Popped(db[k].items, where))];
            db := db[k := ListObj(Rest(db[k].items, where))];
            if |db[k].items| == 0 { db := db - {k}; }
            assert db == PoppedFrom(old(db), k, where);
          }
          return;
        }
      }
      blocked := true;
      Joins(c, keys);
      Nowhere(c);
      BlockForKeys(c, OnList, keys, None);
      JoinedFeeds(old(waiting), waiting, c, Range(keys), db, readySet, old(OnLists()));
      assert OnLists() == old(OnLists()) + {c};
    }

    lemma Nowhere(c: Client)
      requires Valid() && c in clients && c.btype == NotBlocked
      ensures forall k :: c !in Queue(waiting, k)
    {
      hide Queued, Counted, NoDup, Queue, NoEmpty;
      assert KeysOf()[c] == [];
    }

    lemma Joins(c: Client, keys: seq<Key>)
      requires forall i | 0 <= i < |keys| :: keys[i] !in db
      ensures forall k | k in Range(keys) :: k !in db
    {}

    /** A push: a list it creates is signalled (dbAdd), one that exists already has nobody waiting. */
    method PushElement(key: Key, v: Element, where: End) returns (ok: bool)
      requires Valid() && Ready([]) && Fed({})
      modifies `db, `readyKeys, `readySet
      ensures Valid() && Ready([]) && Fed({}) && ok == !(key in old(db) && !old(db)[key].ListObj?)
      ensures db == if ok then old(db)[key := ListObj(Push(Items(old(db), key), v, where))] else old(db)
      ensures readyKeys == old(readyKeys) +
                           if key !in old(db) && key in waiting && key !in old(readySet) then [key] else []
    {
      hide Indexed, Queued, Counted, Typed, NoDup;
      if key in db && !db[key].ListObj? { return false; }
      if key !in db {
        db := db[key := ListObj([])];
        SignalKeyAsReady(key, []);
      }
      db := db[key := ListObj(Push(db[key].items, v, where))];
      ok := true;
    }

    lemma RoundsStart(key: Key)
      requires Indexed() && key in db && db[key].ListObj?
      ensures Rounds(db, key, Queue(waiting, key), 0, [], AskedOf(), SaidTo(), OnLists())
      ensures BlockedOnes() - Range<Client>([]) == BlockedOnes()
    {
      NoDupEmpty<Client>();
      assert NoDup(Queue(waiting, key));
    }

    lemma HeadKey(key: Key)
      requires Indexed() && Queue(waiting, key) != []
      ensures key in Range(Queue(waiting, key)[0].keys)
    {
      FirstWaits(waiting, KeysOf(), key, Queue(waiting, key)[0], Queue(waiting, key));
    }

    lemma HeadWaits(key: Key)
      requires Indexed() && Queue(waiting, key) != []
      ensures key in waiting && waiting[key][0] in clients
    {
      assert waiting[key][0] in Queue(waiting, key);
    }

    lemma StillLister(c: Client, start: Db, key: Key, served: seq<Client>, asked: map<Client, Wish>,
                      said: map<Client, seq<Reply>>, listers: set<Client>)
      requires ServedSoFar(start, key, served, asked, said, listers) && c in clients && c.btype == OnList
      ensures c in listers
    {
      hide CanServe, ServedAll, Outcomes, NoDup;
      assert c in OnLists();
    }
  }

  /** The index of the first key there is. */
  function FirstPresent(db: Db, keys: seq<Key>): (j: nat)
    ensures j <= |keys| && (forall i | 0 <= i < j :: keys[i] !in db) && (j < |keys| ==> keys[j] in db)
    ensures (exists k | k in keys :: k in db) ==> j < |keys|
  {
    if keys == [] || keys[0] in db then 0 else 1 + FirstPresent(db, keys[1..])
  }

  lemma FirstIs(db: Db, keys: seq<Key>, j: nat)
    requires j < |keys| && keys[j] in db && forall i | 0 <= i < j :: keys[i] !in db
    ensures FirstPresent(db, keys) == j
  {}

  lemma {:induction false} KeepOnly<T>(s: seq<T>, x: set<T>)
    ensures Range(Keep(s, x)) <= x
  {
    if s != [] {
      KeepOnly(s[1..], x);
      forall y | y in Range(Keep(s, x)) ensures y in x {
        assert (s[0] in x && y == s[0]) || y in Range(Keep(s[1..], x));
      }
    }
  }

  lemma {:induction false} Listed(s: set<Key>) returns (l: seq<Key>)
    ensures NoDup(l) && Range(l) == s
    decreases s
  {
    l := [];
    if s != {} {
      var x :| x in s;
      var rest := Listed(s - {x});
      l := [x] + rest;
      assert x !in Range(rest) && Range(l) == {x} + Range(rest);
    }
  }

  // ---------------------------------------------------------------- what was handed out

  /** Clients served once each, the i-th with the i-th reply; nobody else got one. */
  ghost predicate Handed(served: seq<Client>, got: seq<Reply>, before: map<Client, seq<Reply>>,
                         after: map<Client, seq<Reply>>) {
    && |got| == |served| && NoDup(served) && before.Keys == after.Keys && Range(served) <= before.Keys
    && (forall c | c in before.Keys - Range(served) :: after[c] == before[c])
    && (forall i | 0 <= i < |served| :: served[i] in Range(served) && after[served[i]] == before[served[i]] + [got[i]])
  }

  lemma HandedNothing(said: map<Client, seq<Reply>>)
    ensures Handed([], [], said, said) && GotAll([]) == multiset{}
  {}

  lemma {:induction false} HandedMore(a: seq<Client>, x: seq<Reply>, before: map<Client, seq<Reply>>,
                                      middle: map<Client, seq<Reply>>, b: seq<Client>, y: seq<Reply>,
                                      after: map<Client, seq<Reply>>)
    requires Handed(a, x, before, middle) && Handed(b, y, middle, after) && Range(a) !! Range(b)
    ensures Handed(a + b, x + y, before, after)
  {
    var all, said := a + b, x + y;
    assert Range(all) == Range(a) + Range(b);
    forall i, j | 0 <= i < j < |all| ensures all[i] != all[j] {
      if i < |a| <= j { assert all[i] in Range(a) && all[j] in Range(b); }
    }
    forall i | 0 <= i < |all| ensures all[i] in Range(all) && after[all[i]] == before[all[i]] + [said[i]] {
      if i < |a| {
        assert a[i] in Range(a);
        assert a[i] in middle.Keys - Range(b);
      } else {
        assert b[i - |a|] in Range(b);
        assert b[i - |a|] in before.Keys - Range(a);
      }
    }
  }

  /** The element a reply takes out of the lists; a moved element stays in them. */
  function Got(r: Reply): multiset<Element> { if r.Pair? then multiset{r.value} else multiset{} }

  function GotAll(rs: seq<Reply>): multiset<Element> {
    if rs == [] then multiset{} else Got(rs[0]) + GotAll(rs[1..])
  }

  lemma {:induction false} GotMore(a: seq<Reply>, b: seq<Reply>)
    ensures GotAll(a + b) == GotAll(a) + GotAll(b)
  {
    hide Got;
    if a == [] {
      assert a + b == b;
    } else {
      GotMore(a[1..], b);
      assert (a + b)[1..] == a[1..] + b;
    }
  }

  function RepliesFor(key: Key, os: seq<Outcome>): (r: seq<Reply>)
    ensures |r| == |os|
  {
    seq(|os|, i requires 0 <= i < |os| => ReplyFor(key, os[i]))
  }

  lemma {:induction false} GotIsGiven(key: Key, os: seq<Outcome>)
    ensures GotAll(RepliesFor(key, os)) == GivenAll(os)
  {
    if os != [] {
      GotIsGiven(key, os[1..]);
      assert RepliesFor(key, os)[1..] == RepliesFor(key, os[1..]);
    }
  }

  lemma ServedSome(served: seq<Client>)
    ensures served != [] ==> Range(served) != {}
  {
    if served != [] { assert served[0] in Range(served); }
  }

  lemma Emptied(w: Waiting, db: Db, ready: set<Key>, key: Key, listers: set<Client>)
    requires NoneStarves(w, db, ready, {key}, listers)
    ensures NoneStarves(w, map k | k in db && k != key :: db[k], ready, {}, listers)
  {}

  lemma Fulfilled(w: Waiting, db: Db, ready: set<Key>, key: Key, listers: set<Client>)
    requires NoneStarves(w, db, ready, {key}, listers)
    requires key in db && db[key].ListObj? ==> db[key].items != [] && Range(Queue(w, key)) !! listers
    ensures NoneStarves(w, db, ready, {}, listers)
  {}

  lemma NobodyLeft(w: Waiting, q: seq<Client>, p: nat, key: Key, before: set<Client>, now: set<Client>)
    requires p == |q| && Queue(w, key) == q[p..] + Keep(q[..p], Range(q) - before) && now <= before
    ensures Range(Queue(w, key)) !! now
  {
    hide Queue, Keep;
    KeepOnly(q[..p], Range(q) - before);
    assert q[p..] == [];
    assert Queue(w, key) == Keep(q[..p], Range(q) - before);
  }

  /** Waiting for keys that are not there starves nobody. */
  lemma {:induction false} JoinedFeeds(w: Waiting, after: Waiting, c: Client, keys: set<Key>, db: Db, ready: set<Key>,
                                       listers: set<Client>)
    requires NoneStarves(w, db, ready, {}, listers) && On(w, after, c, keys) && c !in listers &&
             forall k | k in keys :: k !in db
    requires forall k | k !in keys :: c !in Queue(w, k)
    ensures NoneStarves(after, db, ready, {}, listers + {c})
  {}

  lemma {:induction false} KeepPrefix<T>(s: seq<T>, p: nat, x: set<T>)
    requires p <= |s|
    ensures Keep(s[..p], x) <= Keep(s, x)
    decreases |s|
  {
    if p > 0 {
      assert s[..p][1..] == s[1..][..p - 1];
      KeepPrefix(s[1..], p - 1, x);
    }
  }

  lemma OffQueue(before: Waiting, after: Waiting, c: Client, keys: set<Key>, key: Key)
    requires Off(before, after, c, keys) && key in keys && Queue(before, key) != [] && Queue(before, key)[0] == c
    ensures Queue(after, key) == Queue(before, key)[1..]
  {}

  /** The first client in the list of a key waits for that key. */
  lemma FirstWaits(w: Waiting, m: KeyMap, key: Key, c: Client, l: seq<Client>)
    requires Index(w, m) && l == Queue(w, key) && l != [] && l[0] == c
    ensures key in w && c in m && key in Range(m[c])
  {
    assert c in Queue(w, key);
  }

  lemma {:induction false} NotServedYet(q: seq<Client>, p: nat, x: set<Client>)
    requires NoDup(q) && p < |q|
    ensures q[p] !in Range(Keep(q[..p], x))
  {
    KeepAmong(q[..p], x);
  }

  lemma {:induction false} KeepAmong<T>(s: seq<T>, x: set<T>)
    ensures Range(Keep(s, x)) <= Range(s)
  {
    if s != [] {
      KeepAmong(s[1..], x);
      forall y | y in Range(Keep(s, x)) ensures y in Range(s) {
        assert y == s[0] || y in Range(Keep(s[1..], x));
      }
    }
  }

  /** What one round does to the bookkeeping of the list. */
  lemma {:induction false} QueueHead(q: seq<Client>, p: nat, listers: set<Client>)
    requires p < |q|
    ensures (q[p..] + Keep(q[..p], Range(q) - listers))[0] == q[p]
    ensures var tail := (q[p..] + Keep(q[..p], Range(q) - listers))[1..];
            if q[p] in listers then
              tail == q[p + 1..] + Keep(q[..p + 1], Range(q) - listers) &&
              Keep(q[..p + 1], listers) == Keep(q[..p], listers) + [q[p]]
            else
              tail + [q[p]] == q[p + 1..] + Keep(q[..p + 1], Range(q) - listers) &&
              Keep(q[..p + 1], listers) == Keep(q[..p], listers)
  {
    hide Keep;
    assert q[..p + 1] == q[..p] + [q[p]];
    KeepMore(q[..p], q[p], listers);
    KeepMore(q[..p], q[p], Range(q) - listers);
    assert q[p] in Range(q);
  }

  function Wishes(served: seq<Client>, asked: map<Client, Wish>): (ws: seq<Wish>)
    requires Range(served) <= asked.Keys
    ensures |ws| == |served|
  {
    seq(|served|, i requires 0 <= i < |served| => assert served[i] in Range(served); asked[served[i]])
  }

  ghost predicate NoneStarves(w: Waiting, db: Db, ready: set<Key>, busy: set<Key>, listers: set<Client>) {
    (forall k | k in db && db[k].ListObj? && k !in busy :: db[k].items != []) &&
    (forall k | NonEmptyList(db, k) && k !in ready && k !in busy :: Range(Queue(w, k)) !! listers)
  }

  /** Serving a client feeds nobody unnoticed: a list it creates is signalled if somebody waits for it. */
  lemma {:induction false} ServedFeeds(w: Waiting, after: Waiting, c: Client, keys: set<Key>, db: Db, d: Db, key: Key,
                                       wish: Wish, ready: set<Key>, now: set<Key>, listers: set<Client>)
    requires NoneStarves(w, db, ready, {key}, listers) && Off(w, after, c, keys) && NonEmptyList(db, key) &&
             d == Served(db, key, wish)
    requires ready <= now && (forall k | k in d && k !in db :: k in now || k !in after)
    ensures NoneStarves(after, d, now, {key}, listers - {c})
  {
    forall k | NonEmptyList(d, k) && k !in now && k != key ensures Range(Queue(after, k)) !! listers - {c} {
      RemoveAmong(Queue(w, k), c);
      if NonEmptyList(db, k) { assert Range(Queue(w, k)) !! listers; }
    }
  }

  lemma {:induction false} RemoveAmong<T>(s: seq<T>, x: T)
    ensures Range(Remove(s, x)) <= Range(s)
  {
    if s != [] && s[0] != x {
      RemoveAmong(s[1..], x);
      forall y | y in Range(Remove(s, x)) ensures y in Range(s) {
        assert y == s[0] || y in Range(Remove(s[1..], x));
      }
    }
  }

  function ReplyFor(key: Key, o: Outcome): Reply {
    match o case Delivered(v) => Pair(key, v) case Moved(v, _) => Bulk(v) case Refused(_) => WrongType
  }

  lemma IndexNonEmpty(w: Waiting, m: KeyMap, key: Key)
    requires Index(w, m) && key in w
    ensures w[key] != []
  {}

  lemma {:induction false} RotateKeepsIndex(w: Waiting, m: KeyMap, key: Key)
    requires Index(w, m) && key in w && w[key] != []
    ensures Index(w[key := w[key][1..] + [w[key][0]]], m)
  {
    var l := w[key];
    var r := l[1..] + [l[0]];
    assert NoDup(Queue(w, key));
    assert NoDup(r);
    assert forall c | c in r :: c in l;
    assert forall c | c in l :: c in r;
    var after := w[key := r];
    assert Queue(w, key) == l && Queue(after, key) == r && forall k | k != key :: Queue(after, k) == Queue(w, k);
    SameMembersIndex(w, after, m, key);
  }

  lemma {:induction false} SameMembersIndex(w: Waiting, after: Waiting, m: KeyMap, key: Key)
    requires Index(w, m) && NoEmpty(after) && NoDup(Queue(after, key))
    requires (forall c | c in Queue(after, key) :: c in Queue(w, key)) &&
             (forall c | c in Queue(w, key) :: c in Queue(after, key))
    requires forall k | k != key :: Queue(after, k) == Queue(w, k)
    ensures Index(after, m)
  {
    hide Queue, NoDup, NoEmpty;
  }

  lemma IndexFacts(w: Waiting, m: KeyMap, c: Client)
    requires Index(w, m) && c in m
    ensures NoEmpty(w) && NoDup(m[c])
  {}

  lemma {:induction false} OffKeepsIndex(w: Waiting, m: KeyMap, after: Waiting, c: Client)
    requires Index(w, m) && c in m && Off(w, after, c, Range(m[c]))
    ensures Index(after, m[c := []])
  {
    hide Remove, Queue, NoEmpty, NoDup;
    NoDupEmpty<Key>();
    forall k
      ensures NoDup(Queue(after, k))
      ensures if k in m[c] then Without(Queue(after, k), Queue(w, k), c) else Queue(after, k) == Queue(w, k)
    {
      RemoveExactly(Queue(w, k), c);
    }
  }

  lemma NoDupEmpty<T>()
    ensures NoDup<T>([])
  {}

  lemma OnNone(w: Waiting, c: Client)
    requires NoEmpty(w)
    ensures On(w, w, c, {})
  {}

  lemma {:induction false} OnMore(before: Waiting, w: Waiting, c: Client, keys: set<Key>, k: Key)
    requires On(before, w, c, keys) && k !in keys
    ensures On(before, Put(w, k, Queue(w, k) + [c]), c, keys + {k})
  {
    hide Queue, Put, NoEmpty;
    PutQueues(w, k, Queue(w, k) + [c]);
  }

  lemma {:induction false} OffMore(before: Waiting, w: Waiting, c: Client, keys: set<Key>, k: Key)
    requires Off(before, w, c, keys) && k !in keys
    ensures Off(before, Put(w, k, Remove(Queue(w, k), c)), c, keys + {k})
  {
    hide Queue, Put, NoEmpty, Remove;
    PutQueues(w, k, Remove(Queue(w, k), c));
  }

  lemma OffNone(w: Waiting, c: Client)
    requires NoEmpty(w)
    ensures Off(w, w, c, {})
  {}

  lemma {:induction false} OnKeepsIndex(w: Waiting, m: KeyMap, after: Waiting, c: Client, keys: seq<Key>)
    requires Index(w, m) && c in m && m[c] == [] && NoDup(keys) && On(w, after, c, Range(keys))
    ensures Index(after, m[c := keys])
  {
    hide Queue, NoEmpty, NoDup;
    forall k ensures NoDup(Queue(after, k)) {
      NoDupMore(Queue(w, k), c);
    }
  }

  lemma NoDupMore<T>(s: seq<T>, x: T)
    requires NoDup(s)
    ensures x !in s ==> NoDup(s + [x])
  {}

  lemma NoDupTail<T>(s: seq<T>)
    requires NoDup(s) && s != []
    ensures NoDup(s[1..]) && s[0] !in s[1..]
  {}

  /** The elements of `s` that are in `x`, in their order. */
  function Keep<T(==)>(s: seq<T>, x: set<T>): seq<T> {
    if s == [] then [] else (if s[0] in x then [s[0]] else []) + Keep(s[1..], x)
  }

  lemma KeepNone<T>(x: set<T>)
    ensures Keep([], x) == []
  {}

  lemma {:induction false} KeepMore<T>(s: seq<T>, c: T, x: set<T>)
    ensures Keep(s + [c], x) == Keep(s, x) + if c in x then [c] else []
  {
    if s == [] {
      assert (s + [c])[1..] == [];
    } else {
      KeepMore(s[1..], c, x);
      assert (s + [c])[1..] == s[1..] + [c];
    }
  }
}
