/** The slot table of cluster.c: an owner per slot, and for every node a bitmap and a count of
    the slots it owns.  All three must agree after every operation. */
module SlotTable {
  import opened Basics
  import M = SlotMerge
  import opened Bits

  const CLUSTER_SLOTS: nat := 16384
  const BITMAP_BYTES: nat := 2048

  type Bitmap = seq<bv8>

  // ---------------------------------------------------------------- bitmaps

  predicate TestBit(bits: Bitmap, pos: nat)
    requires pos < 8 * |bits|
  {
    BitOf(bits[pos / 8], pos % 8)
  }

  function SetBit(bits: Bitmap, pos: nat): (r: Bitmap)
    requires pos < 8 * |bits|
    ensures |r| == |bits|
  {
    bits[pos / 8 := With(bits[pos / 8], pos % 8)]
  }

  function ClearBit(bits: Bitmap, pos: nat): (r: Bitmap)
    requires pos < 8 * |bits|
    ensures |r| == |bits|
  {
    bits[pos / 8 := Without(bits[pos / 8], pos % 8)]
  }

  /** Slot 8 i + k is bit k of byte i, the least significant first. */
  lemma {:induction false} BitmapLayout(bits: Bitmap, i: nat, k: nat)
    requires i < |bits| && k < 8
    ensures TestBit(bits, 8 * i + k) == BitOf(bits[i], k)
  {
    assert (8 * i + k) / 8 == i && (8 * i + k) % 8 == k;
  }

  lemma {:induction false} BitsChange(bits: Bitmap, pos: nat, q: nat)
    requires pos < 8 * |bits| && q < 8 * |bits|
    ensures TestBit(SetBit(bits, pos), q) == (q == pos || TestBit(bits, q))
    ensures TestBit(ClearBit(bits, pos), q) == (q != pos && TestBit(bits, q))
  {
    hide Mask, BitOf, With, Without;
    OneByte(bits[pos / 8], pos % 8, q % 8);
  }

  function Claimed(bits: Bitmap): set<nat> { set j: nat | j < 8 * |bits| && TestBit(bits, j) }

  lemma {:induction false} ClaimedChange(bits: Bitmap, pos: nat)
    requires pos < 8 * |bits|
    ensures Claimed(SetBit(bits, pos)) == Claimed(bits) + {pos}
    ensures Claimed(ClearBit(bits, pos)) == Claimed(bits) - {pos}
  {
    hide TestBit, SetBit, ClearBit;
    forall q: nat | q < 8 * |bits|
      ensures TestBit(SetBit(bits, pos), q) == (q == pos || TestBit(bits, q))
      ensures TestBit(ClearBit(bits, pos), q) == (q != pos && TestBit(bits, q))
    {
      BitsChange(bits, pos, q);
    }
  }

  // ---------------------------------------------------------------- nodes

  class Node {
    const name: M.Name
    var bits: Bitmap
    var numslots: nat
    var epoch: nat

    /** A new node owns nothing (createClusterNode). */
    constructor (name: M.Name, epoch: nat)
      ensures Counted() && Claimed(bits) == {} && this.epoch == epoch && this.name == name
    {
      this.name := name;
      bits, numslots, this.epoch := seq(BITMAP_BYTES, i => 0), 0, epoch;
    }

    ghost predicate Counted()
      reads `bits, `numslots
    {
      |bits| == BITMAP_BYTES && numslots == |Claimed(bits)|
    }

    /** clusterNodeSetSlotBit. */
    method SetSlotBit(slot: nat) returns (prev: bool)
      requires Counted() && slot < CLUSTER_SLOTS
      modifies `bits, `numslots
      ensures Counted() && Claimed(bits) == old(Claimed(bits)) + {slot} && prev == (slot in old(Claimed(bits)))
    {
      hide SetBit, TestBit;
      ClaimedChange(bits, slot);
      prev := TestBit(bits, slot);
      bits := SetBit(bits, slot);
      if !prev { numslots := numslots + 1; }
    }

    /** clusterNodeClearSlotBit. */
    method ClearSlotBit(slot: nat) returns (prev: bool)
      requires Counted() && slot < CLUSTER_SLOTS
      modifies `bits, `numslots
      ensures Counted() && Claimed(bits) == old(Claimed(bits)) - {slot} && prev == (slot in old(Claimed(bits)))
    {
      hide ClearBit, TestBit;
      ClaimedChange(bits, slot);
      prev := TestBit(bits, slot);
      bits := ClearBit(bits, slot);
      if prev { numslots := numslots - 1; }
    }
  }

  // ---------------------------------------------------------------- the table

  /** The slots `owners` gives to `n`. */
  ghost function Owned(owners: seq<Node?>, n: Node?): set<nat> { set j: nat | j < |owners| && owners[j] == n }

  lemma OwnedChange(owners: seq<Node?>, slot: nat, to: Node?, n: Node)
    requires slot < |owners|
    ensures Owned(owners[slot := to], n) == if n == to then Owned(owners, n) + {slot} else Owned(owners, n) - {slot}
  {}

  /** clusterUpdateSlotsConfigWith gives a claimed slot to the claimant when this holds. */
  predicate Takes(owner: Node?, importing: Node?, sender: Node, epoch: nat)
    reads owner
  {
    owner != sender && importing == null && (owner == null || owner.epoch < epoch)
  }

  /** What follows an update: replicate the new owner, delete the keys of lost slots, or nothing. */
  datatype Action = Nothing | ReplicateSender | DeleteKeys(slots: seq<nat>)

  predicate Ascending(xs: seq<nat>) { forall i, j | 0 <= i < j < |xs| :: xs[i] < xs[j] }

  class Cluster {
    var owners: seq<Node?>
    var importing: seq<Node?>
    var migrating: seq<Node?>
    var nodes: set<Node>
    var master: Node?      // whom this node replicates; null for a master
    const myself: Node

    /** Every node's bitmap and count say what the table says, and only known nodes own slots. */
    ghost predicate Agrees()
      reads `owners, `nodes, nodes`bits, nodes`numslots
      ensures Agrees() ==>
                && |owners| == CLUSTER_SLOTS
                && forall j | 0 <= j < CLUSTER_SLOTS :: owners[j] == null || owners[j] in nodes
    {
      && |owners| == CLUSTER_SLOTS
      && (forall j | 0 <= j < CLUSTER_SLOTS :: owners[j] == null || owners[j] in nodes)
      && (forall n | n in nodes :: n.Counted() && Claimed(n.bits) == Owned(owners, n))
    }

    ghost predicate Valid()
      reads this, nodes
    {
      && Agrees()
      && myself in nodes && Named(nodes) && |importing| == CLUSTER_SLOTS && |migrating| == CLUSTER_SLOTS
      && (master == null || (master in nodes && master != myself && Owned(owners, myself) == {}))
    }

    constructor (me: Node)
      requires me.Counted() && Claimed(me.bits) == {}
      ensures Valid() && nodes == {me} && myself == me && master == null
      ensures forall j | 0 <= j < CLUSTER_SLOTS :: owners[j] == null && importing[j] == null
    {
      owners, importing := seq(CLUSTER_SLOTS, i => null), seq(CLUSTER_SLOTS, i => null);
      migrating := seq(CLUSTER_SLOTS, i => null);
      nodes, myself, master := {me}, me, null;
    }

    /** clusterAddSlot: refused when the slot has an owner. */
    method AddSlot(n: Node, slot: nat) returns (ok: bool)
      requires Agrees() && n in nodes && slot < CLUSTER_SLOTS
      modifies `owners, n`bits, n`numslots
      ensures Agrees() && ok == (old(owners[slot]) == null)
      ensures owners == if ok then old(owners)[slot := n] else old(owners)
    {
      hide Claimed, Owned;
      if owners[slot] != null { return false; }
      var _ := n.SetSlotBit(slot);
      forall m | m in nodes
        ensures Owned(owners[slot := n], m) == if m == n then Owned(owners, m) + {slot} else Owned(owners, m)
      {
        OwnedChange(owners, slot, n, m);
        NotOwned(owners, slot, m);
      }
      owners := owners[slot := n];
      ok := true;
    }

    /** clusterDelSlot: the bit of a slot's owner is always set, so its assertion holds. */
    method DelSlot(slot: nat) returns (ok: bool)
      requires Agrees() && slot < CLUSTER_SLOTS
      modifies `owners, nodes`bits, nodes`numslots
      ensures Agrees() && ok == (old(owners[slot]) != null)
      ensures owners == old(owners)[slot := null]
    {
      hide Claimed;
      var n := owners[slot];
      if n == null { return false; }
      var prev := n.ClearSlotBit(slot);
      assert prev;
      forall m | m in nodes ensures Owned(owners[slot := null], m) == Owned(owners, m) - {slot} {
        OwnedChange(owners, slot, null, m);
      }
      owners := owners[slot := null];
      ok := true;
    }

    /** clusterNodeGetSlotBit reads the owner off the bitmap. */
    method GetSlotBit(n: Node, slot: nat) returns (r: bool)
      requires Agrees() && n in nodes && slot < CLUSTER_SLOTS
      ensures r == (owners[slot] == n)
    {
      hide TestBit;
      r := TestBit(n.bits, slot);
      assert slot in Claimed(n.bits) <==> slot in Owned(owners, n);
    }

    /** Giving slot `j` from its owner to `n`. */
    method MoveSlot(n: Node, slot: nat)
      requires Agrees() && n in nodes && slot < CLUSTER_SLOTS
      modifies `owners, nodes`bits, nodes`numslots
      ensures Agrees() && owners == old(owners)[slot := n]
    {
      hide Agrees;
      var _ := DelSlot(slot);
      var ok := AddSlot(n, slot);
    }

    /** clusterDelNodeSlots. */
    method DelNodeSlots(n: Node) returns (deleted: nat)
      requires Agrees() && n in nodes
      modifies `owners, nodes`bits, nodes`numslots
      ensures Agrees() && deleted == |old(Owned(owners, n))|
      ensures forall j | 0 <= j < CLUSTER_SLOTS :: owners[j] == if old(owners[j]) == n then null else old(owners[j])
    {
      hide Claimed, Agrees;
      deleted := 0;
      for j := 0 to CLUSTER_SLOTS
        invariant Agrees() && |owners| == CLUSTER_SLOTS
        invariant forall i | 0 <= i < CLUSTER_SLOTS ::
                    owners[i] == if i < j && old(owners[i]) == n then null else old(owners[i])
        invariant deleted + |Owned(owners, n)| == |old(Owned(owners, n))|
      {
        var mine := GetSlotBit(n, j);
        if mine {
          OwnedChange(owners, j, null, n);
          var _ := DelSlot(j);
          deleted := deleted + 1;
        }
      }
      assert Owned(owners, n) == {};
    }

    /** clusterDelNode: nothing refers to the node any more. */
    method DelNode(n: Node)
      requires Valid() && n in nodes && n != myself && n != master
      modifies this, nodes`bits, nodes`numslots
      ensures Valid() && nodes == old(nodes) - {n} && master == old(master)
      ensures forall j | 0 <= j < CLUSTER_SLOTS ::
                owners[j] == (if old(owners[j]) == n then null else old(owners[j])) &&
                importing[j] == (if old(importing[j]) == n then null else old(importing[j])) &&
                migrating[j] == (if old(migrating[j]) == n then null else old(migrating[j]))
    {
      hide Claimed, Agrees;
      for j := 0 to CLUSTER_SLOTS
        invariant Agrees() && |owners| == |importing| == |migrating| == CLUSTER_SLOTS && nodes == old(nodes) &&
                  master == old(master)
        invariant forall i | 0 <= i < CLUSTER_SLOTS ::
                    owners[i] == (if i < j && old(owners[i]) == n then null else old(owners[i])) &&
                    importing[i] == (if i < j && old(importing[i]) == n then null else old(importing[i])) &&
                    migrating[i] == (if i < j && old(migrating[i]) == n then null else old(migrating[i]))
      {
        if importing[j] == n { importing := importing[j := null]; }
        if migrating[j] == n { migrating := migrating[j := null]; }
        if owners[j] == n { var _ := DelSlot(j); }
      }
      Unlink(n);
      assert Owned(owners, myself) == old(Owned(owners, myself));
    }

    /** The end of freeClusterNode: a node that owns nothing leaves the set of nodes. */
    method Unlink(n: Node)
      requires Agrees() && forall j | 0 <= j < CLUSTER_SLOTS :: owners[j] != n
      modifies `nodes
      ensures Agrees() && nodes == old(nodes) - {n}
    {
      hide Claimed, Owned;
      nodes := nodes - {n};
    }

    /** The loop of clusterUpdateSlotsConfigWith. */
    method TakeSlots(sender: Node, epoch: nat, claimed: Bitmap, keys: seq<nat>, curmaster: Node)
        returns (newmaster: bool, dirty: seq<nat>)
      requires Agrees() && sender in nodes && |claimed| == BITMAP_BYTES && |keys| == |importing| == CLUSTER_SLOTS &&
               sender != myself
      modifies `owners, nodes`bits, nodes`numslots
      ensures Agrees()
      ensures forall j | 0 <= j < CLUSTER_SLOTS ::
                owners[j] == if TestBit(claimed, j) && Takes(old(owners)[j], importing[j], sender, epoch) then sender
                             else old(owners)[j]
      ensures newmaster ==
              (exists j :: 0 <= j < CLUSTER_SLOTS && owners[j] != old(owners)[j] && old(owners)[j] == curmaster)
      ensures Ascending(dirty)
      ensures forall j: nat :: j in dirty <==>
                j < CLUSTER_SLOTS && owners[j] != old(owners)[j] && old(owners)[j] == myself && keys[j] > 0
    {
      hide Agrees, TestBit;
      newmaster, dirty := false, [];
      for j := 0 to CLUSTER_SLOTS
        invariant Agrees()
        invariant forall i | 0 <= i < CLUSTER_SLOTS ::
                    owners[i] == if i < j && TestBit(claimed, i) && Takes(old(owners)[i], importing[i], sender, epoch)
                                 then sender else old(owners)[i]
        invariant newmaster == (exists i :: 0 <= i < j && owners[i] != old(owners)[i] && old(owners)[i] == curmaster)
        invariant Ascending(dirty) && forall i | 0 <= i < |dirty| :: dirty[i] < j
        invariant forall i: nat :: i in dirty <==>
                    i < j && owners[i] != old(owners)[i] && old(owners)[i] == myself && keys[i] > 0
      {
        if TestBit(claimed, j) {
          if owners[j] == sender { continue; }
          if importing[j] != null { continue; }
          if owners[j] == null || owners[j].epoch < epoch {
            if owners[j] == myself && keys[j] > 0 { dirty := dirty + [j]; }
            if owners[j] == curmaster { newmaster := true; }
            MoveSlot(sender, j);
          }
        }
      }
    }

    /** clusterSetMaster: its two assertions are the precondition; a master closes its open slots. */
    method SetMaster(n: Node)
      requires n != myself && myself.numslots == 0
      modifies `master, `importing, `migrating
      ensures master == n
      ensures if old(master) != null then importing == old(importing) && migrating == old(migrating)
              else |importing| == |migrating| == CLUSTER_SLOTS &&
                   forall j | 0 <= j < CLUSTER_SLOTS :: importing[j] == null && migrating[j] == null
    {
      if master == null {
        importing, migrating := seq(CLUSTER_SLOTS, i => null), seq(CLUSTER_SLOTS, i => null);
      }
      master := n;
    }

    /** A node's count tells whether the table names it. */
    lemma CountTells(n: Node)
      requires Agrees() && n in nodes
      ensures n.numslots == 0 <==> Owned(owners, n) == {}
      ensures n.numslots == 0 <==> n !in owners
    {
      hide Claimed;
      assert n in owners ==> exists j :: 0 <= j < |owners| && owners[j] == n && j in Owned(owners, n);
      assert n.numslots == |Owned(owners, n)|;
      if n.numslots != 0 {
        var j :| j in Owned(owners, n);
        assert owners[j] == n;
      }
    }

    /** clusterUpdateSlotsConfigWith: claimed slots move to the claimant as the table allows, and
        a node left without slots by this goes on as a replica of the new owner. */
    method UpdateSlotsConfigWith(sender: Node, epoch: nat, claimed: Bitmap, keys: seq<nat>, noRedirection: bool)
        returns (act: Action)
      requires Valid() && sender in nodes && |claimed| == BITMAP_BYTES && |keys| == CLUSTER_SLOTS
      modifies this, nodes`bits, nodes`numslots
      ensures Valid() && nodes == old(nodes)
      ensures sender == myself ==> act == Nothing && owners == old(owners)
      ensures sender != myself ==> forall j | 0 <= j < CLUSTER_SLOTS ::
                owners[j] == if TestBit(claimed, j) && Takes(old(owners)[j], old(importing)[j], sender, epoch)
                             then sender else old(owners)[j]
      ensures sender != myself ==> M.OwnersKnown(old(View(owners)))
      ensures sender != myself ==>
                Names(owners) == M.Update(old(View(owners)), sender.name, M.Claim(Claimed(claimed), epoch)).owners
      ensures act.ReplicateSender? == (!noRedirection && var cur := if old(master) == null then myself else old(master);
                                       cur in old(owners) && cur !in owners)
      ensures master == if act.ReplicateSender? then sender else old(master)
      ensures noRedirection ==> act == Nothing
      ensures if act.ReplicateSender? && old(master) == null then
                forall j | 0 <= j < CLUSTER_SLOTS :: importing[j] == null && migrating[j] == null
              else importing == old(importing) && migrating == old(migrating)
      ensures act.DeleteKeys? ==> act.slots != [] && Ascending(act.slots) && myself in owners
      ensures act.DeleteKeys? ==>
                forall j: nat :: j in act.slots <==>
                  j < CLUSTER_SLOTS && old(owners)[j] == myself && owners[j] != myself && keys[j] > 0
      ensures act.Nothing? && !noRedirection ==>
                forall j: nat | j < CLUSTER_SLOTS && old(owners)[j] == myself && owners[j] != myself :: keys[j] == 0
    {
      hide Agrees, TestBit;
      var curmaster := if master == null then myself else master;
      if sender == myself { return Nothing; }
      ghost var view := View(owners);
      forall j: nat | j < CLUSTER_SLOTS
        ensures M.OwnersKnown(view)
        ensures M.Rebind(view, j, sender.name, M.Claim(Claimed(claimed), epoch)) ==
                NameOf(if TestBit(claimed, j) && Takes(owners[j], importing[j], sender, epoch) then sender
                       else owners[j]) {
        TakesIsRebind(owners, j, sender, epoch, claimed);
      }
      var newmaster, dirty := TakeSlots(sender, epoch, claimed, keys, curmaster);
      if noRedirection { return Nothing; }
      CountTells(curmaster);
      CountTells(myself);
      if newmaster && curmaster.numslots == 0 {
        SetMaster(sender);
        act := ReplicateSender;
      } else if dirty != [] {
        assert dirty[0] in dirty && dirty[0] in old(Owned(owners, myself));
        act := DeleteKeys(dirty);
      } else {
        act := Nothing;
      }
    }

    /** clusterFailoverReplaceYourMaster: a replica becomes a master and takes its old master's slots. */
    method FailoverReplaceYourMaster()
      requires Valid()
      modifies this, nodes`bits, nodes`numslots
      ensures Valid() && master == null && nodes == old(nodes)
      ensures importing == old(importing) && migrating == old(migrating)
      ensures old(master) == null ==> owners == old(owners)
      ensures old(master) != null ==> forall j | 0 <= j < CLUSTER_SLOTS ::
                owners[j] == if old(owners)[j] == old(master) then myself else old(owners)[j]
      ensures old(master) != null ==> myself.numslots == old(master.numslots) && old(master).numslots == 0
    {
      hide Agrees;
      var oldmaster := master;
      if oldmaster == null { return; }
      SameCount(oldmaster, owners, oldmaster);
      forall i: nat | i < CLUSTER_SLOTS ensures owners[i] != myself {
        assert i in Owned(owners, myself) <==> owners[i] == myself;
      }
      master := null;
      for j := 0 to CLUSTER_SLOTS
        invariant Agrees() && master == null && nodes == old(nodes) && importing == old(importing) &&
                  migrating == old(migrating)
        invariant forall i | 0 <= i < CLUSTER_SLOTS ::
                    owners[i] == if i < j && old(owners)[i] == oldmaster then myself else old(owners)[i]
      {
        var his := GetSlotBit(oldmaster, j);
        if his { MoveSlot(myself, j); }
      }
      CountTells(oldmaster);
      SameCount(myself, old(owners), oldmaster);
    }

    lemma SameCount(n: Node, before: seq<Node?>, m: Node)
      requires Agrees() && n in nodes && Owned(owners, n) == Owned(before, m)
      ensures n.numslots == |Owned(before, m)|
    {
      hide Claimed;
    }

    /** The table as the merge of claims sees it: owners and epochs by name. */
    ghost function View(table: seq<Node?>): M.View
      requires Named(nodes)
      reads this, nodes
    {
      M.View(Names(table), map n | n in nodes :: n.name := n.epoch,
             set j: nat | j < |importing| && importing[j] != null)
    }

    /** clusterUpdateSlotsConfigWith does to the table what a claim does to the view. */
    lemma TakesIsRebind(before: seq<Node?>, j: nat, sender: Node, epoch: nat, claimed: Bitmap)
      requires Named(nodes) && |importing| == |before| == CLUSTER_SLOTS
      requires (forall i | 0 <= i < CLUSTER_SLOTS :: before[i] == null || before[i] in nodes)
      requires sender in nodes && |claimed| == BITMAP_BYTES && j < CLUSTER_SLOTS
      ensures M.OwnersKnown(View(before))
      ensures M.Rebind(View(before), j, sender.name, M.Claim(Claimed(claimed), epoch)) ==
              NameOf(if TestBit(claimed, j) && Takes(before[j], importing[j], sender, epoch) then sender else before[j])
    {
      hide TestBit;
    }
  }

  /** Nodes are kept in a dictionary by name. */
  predicate Named(nodes: set<Node>) { forall m, n | m in nodes && n in nodes && m.name == n.name :: m == n }

  function NameOf(n: Node?): Option<M.Name> { if n == null then None else Some(n.name) }

  function Names(table: seq<Node?>): seq<Option<M.Name>> {
    seq(|table|, j requires 0 <= j < |table| => NameOf(table[j]))
  }

  lemma NotOwned(owners: seq<Node?>, slot: nat, m: Node)
    requires slot < |owners| && owners[slot] == null
    ensures slot !in Owned(owners, m)
  {}
}
