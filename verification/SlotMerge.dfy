/** How claims to hash slots merge (clusterProcessPacket and clusterUpdateSlotsConfigWith of
    cluster.c), seen from one node that hears the masters in some order.

    Every master makes one claim, a set of slots under a config epoch, and repeats it in every
    packet; epochs of different masters differ.  Packets arrive in any order, any number of times. */
module SlotMerge {
  import opened Basics

  type Name = nat

  datatype Claim = Claim(slots: set<nat>, epoch: nat)

  type Claims = map<Name, Claim>

  /** The owner of every slot, the last epoch heard from every master, and the slots being imported. */
  datatype View = View(owners: seq<Option<Name>>, epochs: map<Name, nat>, importing: set<nat>)

  predicate Distinct(cs: Claims) { forall a, b | a in cs && b in cs && a != b :: cs[a].epoch != cs[b].epoch }

  function Owned(owners: seq<Option<Name>>, n: Name): set<nat> { set j: nat | j < |owners| && owners[j] == Some(n) }

  predicate OwnersKnown(v: View) {
    forall j | 0 <= j < |v.owners| && v.owners[j].Some? :: v.owners[j].value in v.epochs
  }

  /** One slot when `n` claims it under `epoch`. */
  function Rebind(v: View, j: nat, n: Name, c: Claim): Option<Name>
    requires j < |v.owners| && OwnersKnown(v)
  {
    var o := v.owners[j];
    if j in c.slots && o != Some(n) && j !in v.importing && (o == None || v.epochs[o.value] < c.epoch) then Some(n)
    else o
  }

  function Update(v: View, n: Name, c: Claim): View
    requires OwnersKnown(v)
  {
    v.(owners := seq(|v.owners|, j requires 0 <= j < |v.owners| => Rebind(v, j, n, c)))
  }

  /** A packet: the sender's epoch is raised first, and its slots are scanned only when they differ
      from what is known of it. */
  function Hear(v: View, n: Name, c: Claim): View
    requires OwnersKnown(v)
  {
    var known := if n in v.epochs then v.epochs[n] else 0;
    var u := v.(epochs := v.epochs[n := if c.epoch > known then c.epoch else known]);
    if Owned(u.owners, n) != c.slots then Update(u, n, c) else u
  }

  /** Skipping the scan changes nothing. */
  lemma {:induction false} SkippedScanIsIdle(v: View, n: Name, c: Claim)
    requires OwnersKnown(v) && Owned(v.owners, n) == c.slots
    ensures Update(v, n, c) == v
  {
    forall j: nat | j < |v.owners| ensures Rebind(v, j, n, c) == v.owners[j] {
      assert j in Owned(v.owners, n) <==> v.owners[j] == Some(n);
    }
  }

  // ---------------------------------------------------------------- one packet

  /** What is known after hearing the masters in `heard`: owners and their epochs are theirs. */
  predicate Settled(v: View, cs: Claims, heard: set<Name>) {
    && (forall j | 0 <= j < |v.owners| && v.owners[j].Some? :: v.owners[j].value in heard)
    && (forall n | n in heard :: n in cs && n in v.epochs && v.epochs[n] == cs[n].epoch)
    && (forall n | n in v.epochs && n in cs :: v.epochs[n] <= cs[n].epoch)
  }

  /** Slot `j` belongs to the claimant with the highest epoch among `heard`, or to nobody when
      none claims it. */
  predicate Highest(v: View, cs: Claims, heard: set<Name>, j: nat)
    requires j < |v.owners| && forall n | n in heard :: n in cs
  {
    match v.owners[j]
    case None => forall n | n in heard :: j !in cs[n].slots
    case Some(w) =>
      w in heard && j in cs[w].slots &&
      forall n | n in heard && j in cs[n].slots :: cs[n].epoch <= cs[w].epoch
  }

  predicate AllHighest(v: View, cs: Claims, heard: set<Name>) {
    (forall n | n in heard :: n in cs) &&
      forall j: nat | j < |v.owners| && j !in v.importing :: Highest(v, cs, heard, j)
  }

  lemma {:induction false} HearIsUpdate(v: View, n: Name, c: Claim)
    requires OwnersKnown(v)
    ensures var e := if n in v.epochs && v.epochs[n] > c.epoch then v.epochs[n] else c.epoch;
            Hear(v, n, c) == Update(v.(epochs := v.epochs[n := e]), n, c)
  {
    var e := if n in v.epochs && v.epochs[n] > c.epoch then v.epochs[n] else c.epoch;
    var u := v.(epochs := v.epochs[n := e]);
    if Owned(u.owners, n) == c.slots { SkippedScanIsIdle(u, n, c); }
  }

  /** A slot changes hands exactly when it is claimed, not being imported, and free or known under a
      strictly smaller epoch; and then to the claimant. */
  lemma {:induction false} OnlyUpwards(v: View, n: Name, c: Claim, j: nat)
    requires OwnersKnown(v) && j < |v.owners|
    ensures var o, w := v.owners[j], Hear(v, n, c).owners[j];
            && (w != o ==> w == Some(n))
            && (w != o <==>
                  && o != Some(n) && j in c.slots && j !in v.importing
                  && (o == None || v.epochs[o.value] < c.epoch))
  {
    HearIsUpdate(v, n, c);
  }

  /** Hearing a claim raises the epoch known of its sender, and changes no other and no import. */
  lemma {:induction false} HearRaisesEpoch(v: View, n: Name, c: Claim)
    requires OwnersKnown(v)
    ensures var u := Hear(v, n, c);
            && u.epochs == v.epochs[n := if n in v.epochs && v.epochs[n] >= c.epoch then v.epochs[n] else c.epoch]
            && u.importing == v.importing && |u.owners| == |v.owners|
  {
    HearIsUpdate(v, n, c);
  }

  lemma {:induction false} HearSettles(v: View, cs: Claims, heard: set<Name>, n: Name)
    requires Settled(v, cs, heard) && n in cs
    ensures OwnersKnown(v) && Settled(Hear(v, n, cs[n]), cs, heard + {n})
  {
    HearIsUpdate(v, n, cs[n]);
  }

  lemma {:induction false} HearKeepsHighest(v: View, cs: Claims, heard: set<Name>, n: Name, j: nat)
    requires Settled(v, cs, heard) && n in cs && Distinct(cs) && j < |v.owners| && j !in v.importing &&
             Highest(v, cs, heard, j)
    ensures OwnersKnown(v) && (forall m | m in heard + {n} :: m in cs) && Highest(Hear(v, n, cs[n]), cs, heard + {n}, j)
  {
    HearIsUpdate(v, n, cs[n]);
    var o, r := v.owners[j], Hear(v, n, cs[n]).owners[j];
    if o.Some? {
      assert v.epochs[o.value] == cs[o.value].epoch;
      if o.value != n && j in cs[n].slots { assert cs[n].epoch != cs[o.value].epoch; }
    }
  }

  // ---------------------------------------------------------------- any sequence of packets

  function Senders(packets: seq<Name>): set<Name> { set n | n in packets }

  predicate Claimants(packets: seq<Name>, cs: Claims) { forall i | 0 <= i < |packets| :: packets[i] in cs }

  /** Hearing the packets one after the other. */
  function HearAll(v: View, packets: seq<Name>, cs: Claims): View
    requires Claimants(packets, cs)
    decreases |packets|
  {
    if packets == [] || !OwnersKnown(v) then v else HearAll(Hear(v, packets[0], cs[packets[0]]), packets[1..], cs)
  }

  lemma {:induction false} HearAllSettles(v: View, packets: seq<Name>, cs: Claims, heard: set<Name>)
    requires Claimants(packets, cs) && Settled(v, cs, heard) && AllHighest(v, cs, heard) && Distinct(cs)
    ensures var w := HearAll(v, packets, cs);
            |w.owners| == |v.owners| && w.importing == v.importing &&
            Settled(w, cs, heard + Senders(packets)) && AllHighest(w, cs, heard + Senders(packets))
    decreases |packets|
  {
    if packets == [] {
      assert heard + Senders(packets) == heard;
    } else {
      var n, rest := packets[0], packets[1..];
      HearSettles(v, cs, heard, n);
      var u := Hear(v, n, cs[n]);
      HearIsUpdate(v, n, cs[n]);
      forall j: nat | j < |u.owners| && j !in u.importing ensures Highest(u, cs, heard + {n}, j) {
        HearKeepsHighest(v, cs, heard, n, j);
      }
      HearAllSettles(u, rest, cs, heard + {n});
      assert heard + Senders(packets) == heard + {n} + Senders(rest);
    }
  }

  /** No slot has an owner and no epoch is ahead of its master's claim. */
  predicate Unassigned(v: View, cs: Claims) {
    (forall j | 0 <= j < |v.owners| :: v.owners[j] == None) &&
      (forall n | n in v.epochs && n in cs :: v.epochs[n] <= cs[n].epoch)
  }

  /** From an unassigned table every slot not being imported ends with the highest-epoch claimant
      among those heard. */
  lemma {:induction false} MergeFindsHighest(v: View, packets: seq<Name>, cs: Claims)
    requires Claimants(packets, cs) && Unassigned(v, cs) && Distinct(cs)
    ensures var w := HearAll(v, packets, cs);
            |w.owners| == |v.owners| && w.importing == v.importing && AllHighest(w, cs, Senders(packets))
  {
    hide HearAll;
    HearAllSettles(v, packets, cs, {});
    assert {} + Senders(packets) == Senders(packets);
  }

  lemma {:induction false} HighestIsUnique(v: View, w: View, cs: Claims, heard: set<Name>, j: nat)
    requires j < |v.owners| == |w.owners| && (forall n | n in heard :: n in cs) && Distinct(cs)
    requires Highest(v, cs, heard, j) && Highest(w, cs, heard, j)
    ensures v.owners[j] == w.owners[j]
  {}

  /** A slot being imported is left alone. */
  lemma {:induction false} ImportedIsKept(v: View, packets: seq<Name>, cs: Claims, j: nat)
    requires Claimants(packets, cs) && j < |v.owners| && j in v.importing
    ensures |HearAll(v, packets, cs).owners| == |v.owners| && HearAll(v, packets, cs).owners[j] == v.owners[j]
    decreases |packets|
  {
    if packets != [] && OwnersKnown(v) {
      HearIsUpdate(v, packets[0], cs[packets[0]]);
      ImportedIsKept(Hear(v, packets[0], cs[packets[0]]), packets[1..], cs, j);
    }
  }

  /** Order and repetition of the packets do not matter. */
  lemma {:induction false} MergeIsConfluent(v: View, one: seq<Name>, two: seq<Name>, cs: Claims)
    requires Claimants(one, cs) && Claimants(two, cs) && Senders(one) == Senders(two) && Unassigned(v, cs) &&
             Distinct(cs)
    ensures HearAll(v, one, cs).owners == HearAll(v, two, cs).owners
  {
    hide HearAll, Highest;
    MergeFindsHighest(v, one, cs);
    MergeFindsHighest(v, two, cs);
    var a, b := HearAll(v, one, cs), HearAll(v, two, cs);
    forall j: nat | j < |v.owners| ensures a.owners[j] == b.owners[j] {
      if j in v.importing {
        ImportedIsKept(v, one, cs, j);
        ImportedIsKept(v, two, cs, j);
      } else {
        HighestIsUnique(a, b, cs, Senders(one), j);
      }
    }
  }
}
