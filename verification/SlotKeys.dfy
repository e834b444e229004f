/** Which keys are in which hash slot (db.c): per-slot counters and an ordered index, kept in step with
    the dictionary and the dictionary of expiries.  The hash function is a parameter. */
module SlotKeys {
  import opened Basics
  import opened Decimal
  import opened OrderedIndex

  type Slot = x: int | 0 <= x < 16384

  type Value = nat

  function Prefix(slot: Slot): (r: Bytes)
    ensures |r| == 2
  {
    [slot / 256, slot % 256]
  }

  /** An entry of the index: the slot, most significant byte first, then the key. */
  function Entry(slot: Slot, key: Bytes): Bytes { Prefix(slot) + key }

  /** Entries sort by slot before anything else. */
  lemma {:induction false} EntryOrder(s: Slot, key: Bytes, t: Slot)
    ensures Less(Entry(s, key), Prefix(t)) <==> s < t
  {
    var e, p := Entry(s, key), Prefix(t);
    var e', p' := e[1..], p[1..];
    assert e'[0] == s % 256 && p'[0] == t % 256 && e[0] == s / 256 && p[0] == t / 256;
    assert p'[1..] == [];
    assert !Less(e'[1..], p'[1..]);
  }

  lemma EntryInjective(s: Slot, key: Bytes, t: Slot, other: Bytes)
    requires Entry(s, key) == Entry(t, other)
    ensures s == t && key == other
  {
    assert Entry(s, key)[2..] == key && Entry(t, other)[2..] == other;
    assert Entry(s, key)[0] == s / 256 && Entry(s, key)[1] == s % 256;
    assert Entry(t, other)[0] == t / 256 && Entry(t, other)[1] == t % 256;
  }

  type Hash = Bytes -> Slot

  function KeysIn(keys: set<Bytes>, hash: Hash, slot: Slot): set<Bytes> { set k | k in keys && hash(k) == slot }

  function EntriesOf(keys: set<Bytes>, hash: Hash): set<Bytes> { set k | k in keys :: Entry(hash(k), k) }

  /** The counters and the index say what the key set says. */
  ghost predicate Agrees(keys: set<Bytes>, hash: Hash, counts: seq<nat>, index: seq<Bytes>) {
    |counts| == 16384 && Sorted(index) && Range(index) == EntriesOf(keys, hash) &&
    forall s: Slot :: counts[s] == |KeysIn(keys, hash, s)|
  }

  // ---------------------------------------------------------------- one key added or removed

  lemma {:induction false} AddAgrees(keys: set<Bytes>, hash: Hash, counts: seq<nat>, index: seq<Bytes>, key: Bytes)
    requires Agrees(keys, hash, counts, index) && key !in keys
    ensures Agrees(keys + {key}, hash, counts[hash(key) := counts[hash(key)] + 1], Insert(index, Entry(hash(key), key)))
  {
    hide Insert, Entry, Sorted;
    InsertSorted(index, Entry(hash(key), key));
    forall s: Slot
      ensures KeysIn(keys + {key}, hash, s) == KeysIn(keys, hash, s) + if s == hash(key) then {key} else {} {}
    assert EntriesOf(keys + {key}, hash) == EntriesOf(keys, hash) + {Entry(hash(key), key)};
  }

  lemma {:induction false} RemoveAgrees(keys: set<Bytes>, hash: Hash, counts: seq<nat>, index: seq<Bytes>, key: Bytes)
    requires Agrees(keys, hash, counts, index) && key in keys
    ensures counts[hash(key)] > 0
    ensures Agrees(keys - {key}, hash, counts[hash(key) := counts[hash(key)] - 1], Remove(index, Entry(hash(key), key)))
  {
    hide Remove, Entry, Sorted;
    RemoveSorted(index, Entry(hash(key), key));
    assert key in KeysIn(keys, hash, hash(key));
    forall s: Slot
      ensures KeysIn(keys - {key}, hash, s) == KeysIn(keys, hash, s) - if s == hash(key) then {key} else {} {}
    EntriesWithout(keys, hash, key);
  }

  lemma {:induction false} EntriesWithout(keys: set<Bytes>, hash: Hash, key: Bytes)
    requires key in keys
    ensures EntriesOf(keys - {key}, hash) == EntriesOf(keys, hash) - {Entry(hash(key), key)}
  {
    hide Entry;
    forall k | k in keys && Entry(hash(k), k) == Entry(hash(key), key) ensures k == key {
      EntryInjective(hash(k), k, hash(key), key);
    }
  }

  // ---------------------------------------------------------------- the entries of a slot

  /** What an entry of the index stands for. */
  lemma {:induction false} EntryMeans(keys: set<Bytes>, hash: Hash, index: seq<Bytes>, i: nat)
    requires Range(index) == EntriesOf(keys, hash) && i < |index|
    ensures |index[i]| >= 2 && index[i][2..] in keys && index[i] == Entry(hash(index[i][2..]), index[i][2..])
  {
    assert index[i] in Range(index);
    var k :| k in keys && Entry(hash(k), k) == index[i];
    assert Entry(hash(k), k)[2..] == k;
  }

  /** From the seek position on the slots are not smaller. */
  lemma {:induction false} AfterSeek(keys: set<Bytes>, hash: Hash, index: seq<Bytes>, slot: Slot, i: nat)
    requires Sorted(index) && Range(index) == EntriesOf(keys, hash) && i < |index|
    ensures |index[i]| >= 2 && (i < Seek(index, Prefix(slot)) <==> hash(index[i][2..]) < slot)
  {
    hide Less, Entry, Prefix;
    EntryMeans(keys, hash, index, i);
    var k := index[i][2..];
    EntryOrder(hash(k), k, slot);
    if i >= Seek(index, Prefix(slot)) { SeekSplits(index, Prefix(slot), i); }
  }

  /** Entries further on belong to the same or a later slot. */
  lemma {:induction false} SlotsAscend(keys: set<Bytes>, hash: Hash, index: seq<Bytes>, i: nat, j: nat)
    requires Sorted(index) && Range(index) == EntriesOf(keys, hash) && i <= j < |index|
    ensures |index[i]| >= 2 && |index[j]| >= 2 && hash(index[i][2..]) <= hash(index[j][2..])
  {
    hide Less, Entry, Prefix;
    EntryMeans(keys, hash, index, i);
    EntryMeans(keys, hash, index, j);
    var a, b := index[i][2..], index[j][2..];
    var s := hash(a);
    AfterSeek(keys, hash, index, s, i);
    AfterSeek(keys, hash, index, s, j);
  }

  lemma {:induction false} FirstOfSlot(keys: set<Bytes>, hash: Hash, counts: seq<nat>, index: seq<Bytes>, slot: Slot)
    requires Agrees(keys, hash, counts, index) && counts[slot] > 0
    ensures var i := Seek(index, Prefix(slot));
            i < |index| && |index[i]| >= 2 && index[i][2..] in keys && hash(index[i][2..]) == slot
  {
    hide Less, Prefix;
    var k :| k in KeysIn(keys, hash, slot);
    assert Entry(hash(k), k) in Range(index);
    var j :| 0 <= j < |index| && index[j] == Entry(hash(k), k);
    EntryMeans(keys, hash, index, j);
    EntryInjective(hash(k), k, hash(index[j][2..]), index[j][2..]);
    AfterSeek(keys, hash, index, slot, j);
    var i := Seek(index, Prefix(slot));
    EntryMeans(keys, hash, index, i);
    AfterSeek(keys, hash, index, slot, i);
    SlotsAscend(keys, hash, index, i, j);
  }

  // ---------------------------------------------------------------- the database

  predicate KeyOf(key: Bytes, e: Bytes) { |e| >= 2 && key == e[2..] }

  /** `keys` are the keys of the entries from `start` on. */
  predicate KeysOfRun(index: seq<Bytes>, start: nat, keys: seq<Bytes>) {
    start + |keys| <= |index| && forall k | 0 <= k < |keys| :: KeyOf(keys[k], index[start + k])
  }

  class Database {
    const hash: Hash
    var dict: map<Bytes, Value>
    var expires: map<Bytes, int>
    var counts: seq<nat>
    var index: seq<Bytes>

    ghost predicate Valid()
      reads this
    {
      Agrees(dict.Keys, hash, counts, index) && expires.Keys <= dict.Keys
    }

    constructor (hash: Hash)
      ensures Valid() && dict == map[] && this.hash == hash
    {
      this.hash := hash;
      dict, expires, counts, index := map[], map[], seq(16384, i => 0), [];
    }

    /** slotToKeyUpdateKey. */
    method SlotToKeyUpdate(key: Bytes, add: bool, ghost keys: set<Bytes>)
      requires Agrees(keys, hash, counts, index) && (key in keys) == !add
      modifies `counts, `index
      ensures Agrees(if add then keys + {key} else keys - {key}, hash, counts, index)
    {
      hide Agrees;
      var slot := hash(key);
      if add {
        AddAgrees(keys, hash, counts, index, key);
        CountsLength(keys, hash, counts, index);
        counts := counts[slot := counts[slot] + 1];
        index := Insert(index, Entry(slot, key));
      } else {
        RemoveAgrees(keys, hash, counts, index, key);
        CountsLength(keys, hash, counts, index);
        counts := counts[slot := counts[slot] - 1];
        index := Remove(index, Entry(slot, key));
      }
    }

    /** dbAdd: the key must be new. */
    method DbAdd(key: Bytes, v: Value)
      requires Valid() && key !in dict
      modifies `dict, `counts, `index
      ensures Valid() && dict == old(dict)[key := v]
    {
      hide Agrees;
      ghost var keys := dict.Keys;
      dict := dict[key := v];
      SlotToKeyUpdate(key, true, keys);
      assert dict.Keys == keys + {key};
    }

    /** dbOverwrite: the key must be there; its expiry stays. */
    method DbOverwrite(key: Bytes, v: Value)
      requires Valid() && key in dict
      modifies `dict
      ensures Valid() && dict == old(dict)[key := v]
    {
      hide Agrees;
      dict := dict[key := v];
      assert dict.Keys == old(dict.Keys);
    }

    /** dbSyncDelete. */
    method DbDelete(key: Bytes) returns (deleted: bool)
      requires Valid()
      modifies this
      ensures Valid() && deleted == (key in old(dict)) && dict == old(dict) - {key} && expires == old(expires) - {key}
    {
      hide Agrees;
      expires := expires - {key};
      deleted := key in dict;
      if deleted {
        ghost var keys := dict.Keys;
        dict := dict - {key};
        SlotToKeyUpdate(key, false, keys);
        assert dict.Keys == keys - {key};
      } else {
        assert dict - {key} == dict;
      }
    }

    /** removeExpire: only for keys in the dictionary. */
    method RemoveExpire(key: Bytes) returns (removed: bool)
      requires Valid() && key in dict
      modifies `expires
      ensures Valid() && removed == (key in old(expires)) && expires == old(expires) - {key}
    {
      hide Agrees;
      removed := key in expires;
      expires := expires - {key};
    }

    /** setExpire: only for keys in the dictionary. */
    method SetExpire(key: Bytes, when: int)
      requires Valid() && key in dict
      modifies `expires
      ensures Valid() && expires == old(expires)[key := when]
    {
      hide Agrees;
      expires := expires[key := when];
    }

    /** expireIfNeeded on a master: an expired key is deleted. */
    method ExpireIfNeeded(key: Bytes, now: int) returns (expired: bool)
      requires Valid()
      modifies this
      ensures Valid() && expired == (key in old(expires) && 0 <= old(expires)[key] < now)
      ensures dict == if expired then old(dict) - {key} else old(dict)
      ensures expires == if expired then old(expires) - {key} else old(expires)
    {
      hide Agrees;
      expired := key in expires && 0 <= expires[key] < now;
      if expired { var _ := DbDelete(key); }
    }

    /** setKey: added or overwritten, and never left with an expiry. */
    method SetKey(key: Bytes, v: Value, now: int)
      requires Valid()
      modifies this
      ensures Valid() && dict == old(dict)[key := v] && expires == old(expires) - {key}
    {
      hide Agrees;
      var _ := ExpireIfNeeded(key, now);
      if key !in dict { DbAdd(key, v); } else { DbOverwrite(key, v); }
      var _ := RemoveExpire(key);
      assert dict == old(dict)[key := v];
    }

    /** countKeysInSlot. */
    method CountKeysInSlot(slot: Slot) returns (n: nat)
      requires Valid()
      ensures n == |KeysIn(dict.Keys, hash, slot)|
    {
      n := counts[slot];
    }

    /** delKeysInSlot: ends, removes exactly the keys of the slot, and returns how many. */
    method DelKeysInSlot(slot: Slot) returns (j: nat)
      requires Valid()
      modifies this
      ensures Valid() && j == |KeysIn(old(dict.Keys), hash, slot)|
      ensures dict == old(dict) - KeysIn(old(dict.Keys), hash, slot)
      ensures expires == old(expires) - KeysIn(old(dict.Keys), hash, slot)
    {
      hide Agrees, Prefix;
      j := 0;
      ghost var gone: set<Bytes> := {};
      CountsLength(dict.Keys, hash, counts, index);
      while counts[slot] > 0
        invariant Valid() && |counts| == 16384 && dict == old(dict) - gone && expires == old(expires) - gone
        invariant gone <= KeysIn(old(dict.Keys), hash, slot) && |gone| == j
        decreases counts[slot]
      {
        ghost var keys, prev := dict.Keys, counts[slot];
        FirstOfSlot(keys, hash, counts, index, slot);
        var i := Seek(index, Prefix(slot));
        var key := index[i][2..];
        Fewer(keys, hash, counts, index, slot, key);
        var _ := DbDelete(key);
        CountsLength(dict.Keys, hash, counts, index);
        assert dict.Keys == keys - {key};
        gone := gone + {key};
        j := j + 1;
      }
      NoneLeft(dict.Keys, hash, counts, index, slot);
      assert gone == KeysIn(old(dict.Keys), hash, slot);
    }

    /** getKeysInSlot: at most `count` keys, all of that slot, each once. */
    method GetKeysInSlot(slot: Slot, count: nat) returns (keys: seq<Bytes>)
      requires Valid()
      ensures |keys| <= count && NoDup(keys) && forall k | k in keys :: k in KeysIn(dict.Keys, hash, slot)
      ensures |keys| < count ==> forall k | k in KeysIn(dict.Keys, hash, slot) :: k in keys
    {
      hide Less, Entry, Prefix;
      keys := [];
      ghost var start := Seek(index, Prefix(slot));
      var i, left := Seek(index, Prefix(slot)), count;
      while left > 0 && i < |index|
        invariant start <= i <= |index| && |keys| == i - start && |keys| + left == count
        invariant KeysOfRun(index, start, keys) && forall k | k in keys :: k in KeysIn(dict.Keys, hash, slot)
        decreases |index| - i
      {
        left := left - 1;
        EntryMeans(dict.Keys, hash, index, i);
        AfterSeek(dict.Keys, hash, index, slot, i);
        SameSlot(hash(index[i][2..]), index[i], slot);
        if index[i][0] != Prefix(slot)[0] || index[i][1] != Prefix(slot)[1] {
          AllFound(dict.Keys, hash, index, slot, start, i, keys);
          DistinctKeys(dict.Keys, hash, index, start, keys);
          return;
        }
        assert KeyOf(index[i][2..], index[i]);
        keys := keys + [index[i][2..]];
        i := i + 1;
      }
      DistinctKeys(dict.Keys, hash, index, start, keys);
      if i == |index| { AllFound(dict.Keys, hash, index, slot, start, i, keys); }
    }
  }

  lemma CountsLength(keys: set<Bytes>, hash: Hash, counts: seq<nat>, index: seq<Bytes>)
    requires Agrees(keys, hash, counts, index)
    ensures |counts| == 16384
  {}

  lemma {:induction false} Fewer(keys: set<Bytes>, hash: Hash, counts: seq<nat>, index: seq<Bytes>, slot: Slot,
                                 key: Bytes)
    requires Agrees(keys, hash, counts, index) && key in keys && hash(key) == slot
    ensures |KeysIn(keys - {key}, hash, slot)| < counts[slot]
    ensures forall c: seq<nat>, x: seq<Bytes> | Agrees(keys - {key}, hash, c, x) :: c[slot] < counts[slot]
  {
    assert KeysIn(keys - {key}, hash, slot) == KeysIn(keys, hash, slot) - {key};
  }

  lemma {:induction false} NoneLeft(keys: set<Bytes>, hash: Hash, counts: seq<nat>, index: seq<Bytes>, slot: Slot)
    requires Agrees(keys, hash, counts, index) && counts[slot] == 0
    ensures KeysIn(keys, hash, slot) == {}
  {}

  lemma SameSlot(s: Slot, e: Bytes, slot: Slot)
    requires |e| >= 2 && e == Entry(s, e[2..])
    ensures s == slot <==> e[0] == Prefix(slot)[0] && e[1] == Prefix(slot)[1]
  {
    assert e[0] == s / 256 && e[1] == s % 256;
  }

  /** Past the run of a slot none of its keys is left. */
  lemma {:induction false} AllFound(all: set<Bytes>, hash: Hash, index: seq<Bytes>, slot: Slot, start: nat, i: nat,
                                    keys: seq<Bytes>)
    requires Sorted(index) && Range(index) == EntriesOf(all, hash) &&
             start == Seek(index, Prefix(slot)) <= i <= |index| && |keys| == i - start
    requires KeysOfRun(index, start, keys)
    requires i < |index| ==> |index[i]| >= 2 && hash(index[i][2..]) != slot
    ensures forall k | k in KeysIn(all, hash, slot) :: k in keys
  {
    hide Less, Prefix, Sorted;
    forall k | k in KeysIn(all, hash, slot) ensures k in keys {
      assert Entry(hash(k), k) in Range(index);
      var j :| 0 <= j < |index| && index[j] == Entry(hash(k), k);
      EntryMeans(all, hash, index, j);
      EntryInjective(hash(k), k, hash(index[j][2..]), index[j][2..]);
      AfterSeek(all, hash, index, slot, j);
      if i < |index| {
        AfterSeek(all, hash, index, slot, i);
        if j >= i { SlotsAscend(all, hash, index, i, j); }
      }
      assert KeyOf(keys[j - start], index[start + (j - start)]);
    }
  }

  lemma {:induction false} DistinctKeys(all: set<Bytes>, hash: Hash, index: seq<Bytes>, start: nat, keys: seq<Bytes>)
    requires Sorted(index) && Range(index) == EntriesOf(all, hash) && KeysOfRun(index, start, keys)
    ensures NoDup(keys)
  {
    hide Less, Entry;
    forall a, b | 0 <= a < b < |keys| ensures keys[a] != keys[b] {
      assert KeyOf(keys[a], index[start + a]) && KeyOf(keys[b], index[start + b]);
      EntryMeans(all, hash, index, start + a);
      EntryMeans(all, hash, index, start + b);
      LessIrreflexive(index[start + a]);
    }
  }
}
