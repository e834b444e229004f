/** Making the configuration epochs of masters distinct (cluster.c).

    Masters are named by numbers: the code only compares names.  `sent` holds every ping
    and pong header ever sent, so a packet may be delivered late, twice, or never.
    Collisions are the only source of new epochs. */
module EpochCollision {
  import opened Basics

  type Name = nat

  datatype Ping = Ping(src: Name, currentEpoch: nat, configEpoch: nat)

  /** `known` is what the node last stored as configEpoch of the others; `held` is history:
      every configuration epoch this node ever had. */
  datatype Node = Node(currentEpoch: nat, configEpoch: nat, known: map<Name, nat>, held: set<nat>)
  {
    function Known(n: Name): nat { if n in known then known[n] else 0 }
    /** How often this node took a new epoch. */
    function Moves(): int { |held| - 1 }
  }

  datatype State = State(nodes: map<Name, Node>, sent: set<Ping>)

  datatype Event = Send(src: Name) | Deliver(dst: Name, ping: Ping)

  function Max(a: nat, b: nat): nat { if a < b then b else a }

  function Header(s: State, n: Name): Ping
    requires n in s.nodes
  {
    Ping(n, s.nodes[n].currentEpoch, s.nodes[n].configEpoch)
  }

  /** The epoch bookkeeping at the top of clusterProcessPacket. */
  function Observe(n: Node, p: Ping): Node {
    n.(currentEpoch := Max(n.currentEpoch, p.currentEpoch),
       known := n.known[p.src := Max(n.Known(p.src), p.configEpoch)])
  }

  /** clusterHandleConfigEpochCollision. */
  function HandleCollision(n: Node, self: Name, sender: Name): Node {
    if n.Known(sender) != n.configEpoch || sender <= self then n
    else
      n.(currentEpoch := n.currentEpoch + 1, configEpoch := n.currentEpoch + 1, held := n.held + {n.currentEpoch + 1})
  }

  function Receive(n: Node, self: Name, p: Ping): Node {
    var o := Observe(n, p);
    if p.configEpoch == o.configEpoch then HandleCollision(o, self, p.src) else o
  }

  predicate Enabled(s: State, e: Event) {
    match e
    case Send(src) => src in s.nodes
    case Deliver(dst, ping) => dst in s.nodes && ping in s.sent && ping.src != dst
  }

  function Step(s: State, e: Event): State
    requires Enabled(s, e)
  {
    match e
    case Send(src) => s.(sent := s.sent + {Header(s, src)})
    case Deliver(dst, ping) => s.(nodes := s.nodes[dst := Receive(s.nodes[dst], dst, ping)])
  }

  predicate Runs(s: State, es: seq<Event>)
    decreases |es|
  {
    es == [] || (Enabled(s, es[0]) && Runs(Step(s, es[0]), es[1..]))
  }

  function Exec(s: State, es: seq<Event>): State
    requires Runs(s, es)
    decreases |es|
  {
    if es == [] then s else Exec(Step(s, es[0]), es[1..])
  }

  predicate Init(s: State) {
    && s.sent == {}
    && forall n | n in s.nodes ::
         && s.nodes[n].configEpoch <= s.nodes[n].currentEpoch
         && s.nodes[n].held == {s.nodes[n].configEpoch}
         && forall k | k in s.nodes[n].known && k in s.nodes :: s.nodes[n].known[k] <= s.nodes[k].configEpoch
  }

  /** Does a delivery make the receiver take a new epoch? */
  predicate Bumps(s: State, dst: Name, p: Ping)
    requires dst in s.nodes
  {
    Receive(s.nodes[dst], dst, p).configEpoch != s.nodes[dst].configEpoch
  }

  /** How many deliveries of a run make their receiver take a new epoch. */
  function BumpsIn(s: State, es: seq<Event>): nat
    requires Runs(s, es)
    decreases |es|
  {
    if es == [] then 0
    else (if es[0].Deliver? && Bumps(s, es[0].dst, es[0].ping) then 1 else 0) + BumpsIn(Step(s, es[0]), es[1..])
  }

  // ---------------------------------------------------------------- what every step keeps

  /** The epochs ever held by masters with a greater name. */
  function HeldAbove(s: State, n: Name): set<nat> {
    set k, e | k in s.nodes && k > n && e in s.nodes[k].held :: e
  }

  predicate NodeOk(s: State, n: Name)
    requires n in s.nodes
  {
    var d := s.nodes[n];
    && d.configEpoch in d.held && d.configEpoch <= d.currentEpoch
    && (forall e | e in d.held :: e <= d.configEpoch)
    && d.held - {d.configEpoch} <= HeldAbove(s, n)
    && (forall k | k in d.known && k in s.nodes :: d.known[k] <= s.nodes[k].configEpoch)
  }

  predicate Inv(s: State) {
    && (forall n | n in s.nodes :: NodeOk(s, n))
    && (forall p | p in s.sent :: p.src in s.nodes && p.configEpoch in s.nodes[p.src].held)
  }

  lemma HeldAboveGrows(s: State, t: State, n: Name)
    requires s.nodes.Keys == t.nodes.Keys && forall k | k in s.nodes :: s.nodes[k].held <= t.nodes[k].held
    ensures HeldAbove(s, n) <= HeldAbove(t, n)
  {
    forall e | e in HeldAbove(s, n) ensures e in HeldAbove(t, n) {
      var k :| k in s.nodes && k > n && e in s.nodes[k].held;
      assert e in t.nodes[k].held;
    }
  }

  lemma ReceiveGrows(n: Node, dst: Name, p: Ping)
    requires n.configEpoch <= n.currentEpoch
    ensures var m := Receive(n, dst, p);
            n.held <= m.held && n.configEpoch <= m.configEpoch && n.currentEpoch <= m.currentEpoch
  {}

  lemma OtherNodeOk(s: State, t: State, dst: Name, k: Name)
    requires k in s.nodes && NodeOk(s, k) && dst in s.nodes && dst in t.nodes && k != dst &&
             t.nodes == s.nodes[dst := t.nodes[dst]]
    requires s.nodes[dst].held <= t.nodes[dst].held && s.nodes[dst].configEpoch <= t.nodes[dst].configEpoch
    ensures NodeOk(t, k)
  {
    HeldAboveGrows(s, t, k);
    assert t.nodes[k] == s.nodes[k];
  }

  lemma ReceiverOk(s: State, dst: Name, p: Ping)
    requires Inv(s) && Enabled(s, Deliver(dst, p))
    ensures var t := Step(s, Deliver(dst, p)); NodeOk(t, dst)
  {
    var t := Step(s, Deliver(dst, p));
    var n, m := s.nodes[dst], t.nodes[dst];
    assert NodeOk(s, dst) && p.src in s.nodes && NodeOk(s, p.src);
    ReceiveGrows(n, dst, p);
    HeldAboveGrows(s, t, dst);
    if m.configEpoch != n.configEpoch {
      assert p.configEpoch == n.configEpoch && p.src > dst;
      assert n.configEpoch in HeldAbove(s, dst);
    }
  }

  lemma DeliverKeepsInv(s: State, dst: Name, p: Ping)
    requires Inv(s) && Enabled(s, Deliver(dst, p))
    ensures Inv(Step(s, Deliver(dst, p)))
  {
    assert NodeOk(s, dst);
    hide Receive, NodeOk, HeldAbove;
    var t := Step(s, Deliver(dst, p));
    ReceiveGrows(s.nodes[dst], dst, p);
    forall k | k in t.nodes ensures NodeOk(t, k) {
      if k == dst { ReceiverOk(s, dst, p); } else { OtherNodeOk(s, t, dst, k); }
    }
  }

  lemma {:induction false} RunKeepsInv(s: State, es: seq<Event>)
    requires Inv(s) && Runs(s, es)
    ensures Inv(Exec(s, es)) && Exec(s, es).nodes.Keys == s.nodes.Keys
    decreases |es|
  {
    if es != [] {
      if es[0].Deliver? { DeliverKeepsInv(s, es[0].dst, es[0].ping); }
      RunKeepsInv(Step(s, es[0]), es[1..]);
    }
  }

  // ---------------------------------------------------------------- how often a master moves

  function Above(names: set<Name>, n: Name): set<Name> { set k | k in names && k > n }

  ghost function Least(names: set<Name>): (m: Name)
    requires names != {}
    ensures m in names && forall k | k in names :: m <= k
  {
    var a :| a in names;
    if names == {a} then a
    else
      var b := Least(names - {a});
      assert forall k | k in names :: k == a || k in names - {a};
      if a < b then a else b
  }

  lemma NothingAbove(s: State, n: Name)
    requires Above(s.nodes.Keys, n) == {}
    ensures HeldAbove(s, n) == {}
  {
    assert forall k | k in s.nodes && k > n :: k in Above(s.nodes.Keys, n);
  }

  /** Between two neighbouring names lie only the current epoch of the upper one. */
  lemma NextAbove(s: State, n: Name, k: Name)
    requires k in s.nodes && NodeOk(s, k) && Above(s.nodes.Keys, n) == {k} + Above(s.nodes.Keys, k)
    ensures HeldAbove(s, n) <= {s.nodes[k].configEpoch} + HeldAbove(s, k)
  {
    forall e | e in HeldAbove(s, n) ensures e == s.nodes[k].configEpoch || e in HeldAbove(s, k) {
      var j :| j in s.nodes && j > n && e in s.nodes[j].held;
      assert j in Above(s.nodes.Keys, n);
      if j == k && e != s.nodes[k].configEpoch { assert e in s.nodes[k].held - {s.nodes[k].configEpoch}; }
    }
  }

  lemma NextName(names: set<Name>, n: Name) returns (k: Name)
    requires Above(names, n) != {}
    ensures k in names && Above(names, n) == {k} + Above(names, k) && |Above(names, n)| == |Above(names, k)| + 1
  {
    k := Least(Above(names, n));
    assert Above(names, n) == {k} + Above(names, k) && k !in Above(names, k);
  }

  /** The greater names never hold more distinct epochs than there are of them. */
  lemma {:induction false} FewEpochsAbove(s: State, n: Name)
    requires Inv(s)
    ensures |HeldAbove(s, n)| <= |Above(s.nodes.Keys, n)|
    decreases |Above(s.nodes.Keys, n)|
  {
    if Above(s.nodes.Keys, n) == {} {
      NothingAbove(s, n);
    } else {
      var k := NextName(s.nodes.Keys, n);
      FewEpochsAbove(s, k);
      NextAbove(s, n, k);
      OneMore(HeldAbove(s, n), s.nodes[k].configEpoch, HeldAbove(s, k));
    }
  }

  lemma OneMore(a: set<nat>, e: nat, b: set<nat>)
    requires a <= {e} + b
    ensures |a| <= |b| + 1
  {
    SubsetSize(a, {e} + b);
  }

  /** A master moves at most once per master with a greater name; the greatest never moves. */
  lemma MovesBounded(s: State, es: seq<Event>, n: Name)
    requires Init(s) && Runs(s, es) && n in s.nodes
    ensures n in Exec(s, es).nodes
    ensures 0 <= Exec(s, es).nodes[n].Moves() <= |Above(s.nodes.Keys, n)|
  {
    RunKeepsInv(s, es);
    var t := Exec(s, es);
    FewEpochsAbove(t, n);
    assert NodeOk(t, n);
    var d := t.nodes[n];
    OneMore(d.held, d.configEpoch, HeldAbove(t, n));
    SubsetSize({d.configEpoch}, d.held);
  }

  // ---------------------------------------------------------------- the whole cluster

  ghost function Sum(m: map<Name, int>): int
    decreases |m.Keys|
  {
    if m.Keys == {} then 0
    else
      var k := Least(m.Keys);
      assert (m - {k}).Keys == m.Keys - {k};
      m[k] + Sum(m - {k})
  }

  lemma {:induction false} SumUpdate(m: map<Name, int>, k: Name, v: int)
    requires k in m
    ensures Sum(m[k := v]) == Sum(m) - m[k] + v
    decreases |m.Keys|
  {
    var l := Least(m.Keys);
    assert m[k := v].Keys == m.Keys;
    assert (m - {l}).Keys == m.Keys - {l};
    if k == l {
      assert m[k := v] - {l} == m - {l};
    } else {
      SumUpdate(m - {l}, k, v);
      assert m[k := v] - {l} == (m - {l})[k := v];
    }
  }

  /** 0 + 1 + ... for values bounded by the number of greater keys. */
  lemma {:induction false} SumBounded(m: map<Name, int>)
    requires forall k | k in m :: m[k] <= |Above(m.Keys, k)|
    ensures Sum(m) * 2 <= |m.Keys| * (|m.Keys| - 1)
    decreases |m.Keys|
  {
    if m.Keys != {} {
      var l := Least(m.Keys);
      var rest := m - {l};
      assert rest.Keys == m.Keys - {l} == Above(m.Keys, l);
      forall k | k in rest ensures Above(rest.Keys, k) == Above(m.Keys, k) {}
      SumBounded(rest);
      Triangle(|rest.Keys|);
    }
  }

  lemma Triangle(c: int)
    ensures (c + 1) * c == c * (c - 1) + 2 * c
  {}

  lemma {:induction false} SumOfZeros(m: map<Name, int>)
    requires forall k | k in m :: m[k] == 0
    ensures Sum(m) == 0
    decreases |m.Keys|
  {
    if m.Keys != {} {
      var l := Least(m.Keys);
      assert (m - {l}).Keys == m.Keys - {l};
      SumOfZeros(m - {l});
    }
  }

  function MovesOf(s: State): map<Name, int> { map n | n in s.nodes :: s.nodes[n].Moves() }

  lemma BumpIsMove(s: State, e: Event)
    requires Inv(s) && Enabled(s, e)
    ensures Sum(MovesOf(Step(s, e))) == Sum(MovesOf(s)) + (if e.Deliver? && Bumps(s, e.dst, e.ping) then 1 else 0)
  {
    var m, t := MovesOf(s), Step(s, e);
    if e.Deliver? {
      var n, o := s.nodes[e.dst], t.nodes[e.dst];
      assert NodeOk(s, e.dst);
      assert if Bumps(s, e.dst, e.ping) then o.held == n.held + {o.configEpoch} && o.configEpoch !in n.held
             else o.held == n.held;
      assert MovesOf(t) == m[e.dst := o.Moves()];
      SumUpdate(m, e.dst, o.Moves());
    } else {
      assert MovesOf(t) == m;
    }
  }

  lemma {:induction false} BumpsAreMoves(s: State, es: seq<Event>)
    requires Inv(s) && Runs(s, es)
    ensures BumpsIn(s, es) == Sum(MovesOf(Exec(s, es))) - Sum(MovesOf(s))
    decreases |es|
  {
    if es != [] {
      if es[0].Deliver? { DeliverKeepsInv(s, es[0].dst, es[0].ping); }
      BumpIsMove(s, es[0]);
      BumpsAreMoves(Step(s, es[0]), es[1..]);
    }
  }

  lemma InitHolds(s: State)
    requires Init(s)
    ensures Inv(s) && Sum(MovesOf(s)) == 0
  {
    SumOfZeros(MovesOf(s));
  }

  lemma MovesOfBounded(s: State, es: seq<Event>)
    requires Init(s) && Runs(s, es)
    ensures MovesOf(Exec(s, es)).Keys == s.nodes.Keys
    ensures forall n | n in s.nodes :: MovesOf(Exec(s, es))[n] <= |Above(s.nodes.Keys, n)|
  {
    RunKeepsInv(s, es);
    forall n | n in s.nodes ensures MovesOf(Exec(s, es))[n] <= |Above(s.nodes.Keys, n)| { MovesBounded(s, es, n); }
  }

  /** In any run n masters take at most n(n-1)/2 new epochs between them. */
  lemma CollisionsEnd(s: State, es: seq<Event>)
    requires Init(s) && Runs(s, es)
    ensures BumpsIn(s, es) * 2 <= |s.nodes.Keys| * (|s.nodes.Keys| - 1)
  {
    InitHolds(s);
    BumpsAreMoves(s, es);
    MovesOfBounded(s, es);
    SumBounded(MovesOf(Exec(s, es)));
  }

  // ---------------------------------------------------------------- which epoch a master takes

  /** A ping moves its receiver exactly when it shows the receiver's own config epoch, comes from a
      greater name, and nothing greater was known of that name. */
  lemma DeliveryBumpsExactly(s: State, dst: Name, p: Ping)
    requires dst in s.nodes && NodeOk(s, dst) && p.src != dst
    ensures Bumps(s, dst, p) <==>
            dst < p.src && p.configEpoch == s.nodes[dst].configEpoch && s.nodes[dst].Known(p.src) <= p.configEpoch
  {}

  /** Hearing a ping, a master knows at least the epochs in it; if it moves, it takes the one after the
      greatest current epoch of the two, and otherwise none. */
  lemma DeliveryTakesNext(s: State, dst: Name, p: Ping)
    requires NodeIn(s, dst) && Enabled(s, Deliver(dst, p))
    ensures var n, t := s.nodes[dst], Step(s, Deliver(dst, p));
            var k := t.nodes[dst];
            var top := if n.currentEpoch < p.currentEpoch then p.currentEpoch else n.currentEpoch;
            && t.nodes == s.nodes[dst := k] && t.sent == s.sent
            && k.Known(p.src) == (if n.Known(p.src) < p.configEpoch then p.configEpoch else n.Known(p.src))
            && (forall x | x != p.src :: k.Known(x) == n.Known(x))
            && if Bumps(s, dst, p) then
                 k.currentEpoch == k.configEpoch == top + 1 && k.held == n.held + {top + 1}
               else k.currentEpoch == top && k.configEpoch == n.configEpoch && k.held == n.held
  {}

  predicate NodeIn(s: State, n: Name) { n in s.nodes && NodeOk(s, n) }

  /** What a master sends is what it has. */
  lemma SendShows(s: State, n: Name)
    requires n in s.nodes
    ensures Step(s, Send(n)) == s.(sent := s.sent + {Ping(n, s.nodes[n].currentEpoch, s.nodes[n].configEpoch)})
  {}

  /** The current epoch of a master is at least every one it was told. */
  lemma {:induction false} NeverForgets(s: State, es: seq<Event>, i: nat)
    requires Inv(s) && Runs(s, es) && i < |es| && es[i].Deliver?
    ensures es[i].dst in Exec(s, es).nodes
    ensures es[i].ping.currentEpoch <= Exec(s, es).nodes[es[i].dst].currentEpoch
    decreases |es|
  {
    var e, rest := es[0], es[1..];
    if e.Deliver? { DeliverKeepsInv(s, e.dst, e.ping); }
    if i == 0 {
      assert NodeOk(s, e.dst);
      DeliveryTakesNext(s, e.dst, e.ping);
      OnlyUp(Step(s, e), rest, e.dst);
    } else {
      NeverForgets(Step(s, e), rest, i - 1);
    }
  }

  lemma {:induction false} OnlyUp(s: State, es: seq<Event>, n: Name)
    requires Inv(s) && Runs(s, es) && n in s.nodes
    ensures n in Exec(s, es).nodes && s.nodes[n].currentEpoch <= Exec(s, es).nodes[n].currentEpoch
    decreases |es|
  {
    if es != [] {
      if es[0].Deliver? {
        assert NodeOk(s, es[0].dst);
        DeliverKeepsInv(s, es[0].dst, es[0].ping);
        ReceiveGrows(s.nodes[es[0].dst], es[0].dst, es[0].ping);
      }
      OnlyUp(Step(s, es[0]), es[1..], n);
    }
  }

  /** After every run a master that moves takes an epoch greater than every current epoch it was told in
      that run, and than that of the ping that moves it. */
  lemma BumpIsAboveAllHeard(s: State, es: seq<Event>, dst: Name, p: Ping, i: nat)
    requires Init(s) && Runs(s, es) && Enabled(Exec(s, es), Deliver(dst, p)) && Bumps(Exec(s, es), dst, p)
    requires i < |es| && es[i].Deliver? && es[i].dst == dst
    ensures var k := Step(Exec(s, es), Deliver(dst, p)).nodes[dst];
            es[i].ping.currentEpoch < k.configEpoch == k.currentEpoch && p.currentEpoch < k.configEpoch
  {
    InitHolds(s);
    RunKeepsInv(s, es);
    NeverForgets(s, es, i);
    assert NodeOk(Exec(s, es), dst);
    DeliveryTakesNext(Exec(s, es), dst, p);
  }

  // ---------------------------------------------------------------- where collisions end

  predicate Distinct(s: State) {
    forall n, k | n in s.nodes && k in s.nodes && n != k :: s.nodes[n].configEpoch != s.nodes[k].configEpoch
  }

  /** No master would move on hearing the current header of another. */
  predicate Settled(s: State) {
    forall n, k | n in s.nodes && k in s.nodes && n != k :: !Bumps(s, n, Header(s, k))
  }

  /** Hearing the current header of another master moves exactly the colliding lesser name. */
  lemma BumpsExactly(s: State, n: Name, k: Name)
    requires n in s.nodes && k in s.nodes && n != k && NodeOk(s, n)
    ensures Bumps(s, n, Header(s, k)) <==> n < k && s.nodes[n].configEpoch == s.nodes[k].configEpoch
  {}

  /** Collisions are over exactly when all configuration epochs differ. */
  lemma SettledIffDistinct(s: State, es: seq<Event>)
    requires Init(s) && Runs(s, es)
    ensures Settled(Exec(s, es)) <==> Distinct(Exec(s, es))
  {
    InitHolds(s);
    RunKeepsInv(s, es);
    var t := Exec(s, es);
    forall n, k | n in t.nodes && k in t.nodes && n != k
      ensures Bumps(t, n, Header(t, k)) <==> n < k && t.nodes[n].configEpoch == t.nodes[k].configEpoch
    {
      BumpsExactly(t, n, k);
    }
  }
}
