/** Replica election by epoch voting (cluster.c).

    Every node is a record, the bus is a multiset of packets in flight, and every
    handler is one atomic step.  The masters serving slots form a fixed, agreed set
    `voters`; delivery is at most once; packets may be lost, delayed and reordered.

    `votes`, `polls` and `wins` are history: no handler reads them.  A poll splits the
    vote counter in two: acknowledgements counted after the request for votes was sent,
    and `stale` ones, counted between the scheduling of an attempt (which clears the
    counter) and its request (which moves the election epoch). */
module Election {
  import opened Basics

  type Name = nat

  datatype Message =
    | Ping(src: Name, dst: Name, currentEpoch: nat, configEpoch: nat)
    | AuthRequest(src: Name, dst: Name, currentEpoch: nat, configEpoch: nat, slots: set<nat>, forceAck: bool)
    | AuthAck(src: Name, dst: Name, currentEpoch: nat, configEpoch: nat)

  /** What a node believes about the others.  Handlers outside this model rewrite it. */
  datatype View = View(
    epochs: map<Name, nat>,      // configEpoch of other nodes
    slaveof: map<Name, Name>,    // nodes flagged as replicas of a known master
    failed: set<Name>,           // nodes flagged FAIL
    owner: map<nat, Name>,       // server.cluster->slots[]
    votedTime: map<Name, int>)
  {
    function EpochOf(n: Name): nat { if n in epochs then epochs[n] else 0 }
    function VotedTime(n: Name): int { if n in votedTime then votedTime[n] else 0 }
    function SlotsOf(n: Name): set<nat> { set j | j in owner && owner[j] == n }
  }

  datatype Node = Node(
    currentEpoch: nat, configEpoch: nat, lastVoteEpoch: nat,
    isSlave: bool,
    authTime: int, authCount: nat, authSent: bool, authRank: nat, authEpoch: nat,
    view: View)

  datatype Poll = Poll(counted: set<Name>, stale: nat)
  datatype Win = Win(name: Name, epoch: nat, configEpoch: nat, counted: set<Name>, stale: nat)
  datatype Vote = Vote(voter: Name, epoch: nat)

  datatype State = State(
    voters: set<Name>, nodes: map<Name, Node>, net: multiset<Message>,
    votes: map<Vote, Message>, polls: map<Name, Poll>, wins: set<Win>)

  /** Clocks, configuration and draws the failover cron reads. */
  datatype Env = Env(
    now: int, nodeTimeout: nat, dataTooOld: bool, noFailover: bool,
    mfEnd: bool, mfCanStart: bool, delay: nat, rank: nat, reachable: set<Name>)

  datatype Event =
    | SendPing(src: Name, dst: Name)
    | Deliver(msg: Message, now: int, nodeTimeout: nat, linked: bool)
    | Lose(msg: Message)
    | FailoverCron(name: Name, env: Env)
    | BumpEpoch(name: Name)                 // epochs taken without an election
    | ChangeView(name: Name, view: View, isSlave: bool)    // all other packet handlers; they may demote

  // ---------------------------------------------------------------- packet headers

  function Max(a: nat, b: nat): nat { if a < b then b else a }

  function HeaderMaster(n: Node, self: Name): Name {
    if n.isSlave && self in n.view.slaveof then n.view.slaveof[self] else self
  }

  function HeaderEpoch(n: Node, self: Name): nat {
    var m := HeaderMaster(n, self);
    if m == self then n.configEpoch else n.view.EpochOf(m)
  }

  /** Epoch bookkeeping done for every packet of a known sender. */
  function Observe(n: Node, m: Message): Node {
    n.(currentEpoch := Max(n.currentEpoch, m.currentEpoch),
       view := n.view.(epochs := n.view.epochs[m.src := Max(n.view.EpochOf(m.src), m.configEpoch)]))
  }

  // ---------------------------------------------------------------- voting

  /** The guards of clusterSendFailoverAuthIfNeeded, after the epochs were observed. */
  predicate CanVote(n: Node, isVoter: bool, m: Message, now: int, nodeTimeout: nat)
    requires m.AuthRequest?
  {
    && isVoter
    && m.currentEpoch >= n.currentEpoch
    && n.lastVoteEpoch != n.currentEpoch
    && m.src in n.view.slaveof
    && (n.view.slaveof[m.src] in n.view.failed || m.forceAck)
    && now - n.view.VotedTime(n.view.slaveof[m.src]) >= nodeTimeout * 2
    && forall j | j in m.slots && j in n.view.owner :: n.view.EpochOf(n.view.owner[j]) <= m.configEpoch
  }

  function CastVote(n: Node, m: Message, now: int): Node
    requires m.AuthRequest? && m.src in n.view.slaveof
  {
    n.(lastVoteEpoch := n.currentEpoch,
       view := n.view.(votedTime := n.view.votedTime[n.view.slaveof[m.src] := now]))
  }

  function ReceiveRequest(s: State, m: Message, now: int, nodeTimeout: nat, linked: bool): State
    requires m.AuthRequest? && m.dst in s.nodes
  {
    var n := Observe(s.nodes[m.dst], m);
    if CanVote(n, m.dst in s.voters, m, now, nodeTimeout) then
      var v := CastVote(n, m, now);
      var ack := AuthAck(m.dst, m.src, v.currentEpoch, HeaderEpoch(v, m.dst));
      s.(nodes := s.nodes[m.dst := v],
         net := s.net - multiset{m} + (if linked then multiset{ack} else multiset{}),
         votes := s.votes[Vote(m.dst, v.currentEpoch) := ack])
    else
      s.(nodes := s.nodes[m.dst := n], net := s.net - multiset{m})
  }

  // ---------------------------------------------------------------- counting

  function ReceiveAck(s: State, m: Message): State
    requires m.AuthAck? && m.dst in s.nodes && m.dst in s.polls
  {
    var n := Observe(s.nodes[m.dst], m);
    var p := s.polls[m.dst];
    if m.src in s.voters && m.currentEpoch >= n.authEpoch then
      s.(nodes := s.nodes[m.dst := n.(authCount := n.authCount + 1)],
         net := s.net - multiset{m},
         polls := s.polls[m.dst := if n.authSent then p.(counted := p.counted + {m.src}) else p.(stale := p.stale + 1)])
    else
      s.(nodes := s.nodes[m.dst := n], net := s.net - multiset{m})
  }

  // ---------------------------------------------------------------- candidates

  /** The guard at the top of clusterHandleSlaveFailover. */
  predicate MayFailover(n: Node, self: Name, env: Env) {
    var manual := env.mfEnd && env.mfCanStart;
    && n.isSlave
    && self in n.view.slaveof
    && (n.view.slaveof[self] in n.view.failed || manual)
    && (!env.noFailover || manual)
    && n.view.SlotsOf(n.view.slaveof[self]) != {}
    && (!env.dataTooOld || manual)
  }

  function AuthTimeout(env: Env): nat { if env.nodeTimeout * 2 < 2000 then 2000 else env.nodeTimeout * 2 }

  function Schedule(n: Node, env: Env): Node {
    n.(authTime := if env.mfEnd then env.now else env.now + 500 + env.delay % 500 + env.rank * 1000,
       authRank := if env.mfEnd then 0 else env.rank,
       authCount := 0, authSent := false)
  }

  function Rerank(n: Node, env: Env): Node {
    if !n.authSent && !env.mfEnd && env.rank > n.authRank then
      n.(authTime := n.authTime + (env.rank - n.authRank) * 1000, authRank := env.rank)
    else n
  }

  function Quorum(voters: set<Name>): nat { |voters| / 2 + 1 }

  function Requests(n: Node, self: Name, env: Env, others: set<Name>): set<Message> {
    set d | d in others && d in env.reachable && d != self ::
      AuthRequest(self, d, n.currentEpoch, HeaderEpoch(n, self), n.view.SlotsOf(HeaderMaster(n, self)), env.mfEnd)
  }

  function ScheduleAttempt(s: State, self: Name, env: Env): State
    requires self in s.nodes
  {
    s.(nodes := s.nodes[self := Schedule(s.nodes[self], env)], polls := s.polls[self := Poll({}, 0)])
  }

  function AskForVotes(s: State, self: Name, n: Node, env: Env): State {
    var c := n.(currentEpoch := n.currentEpoch + 1, authEpoch := n.currentEpoch + 1, authSent := true);
    s.(nodes := s.nodes[self := c], net := s.net + multiset(Requests(c, self, env, s.nodes.Keys)))
  }

  function Promote(s: State, self: Name, n: Node): State
    requires self in s.polls
  {
    var w := n.(configEpoch := Max(n.configEpoch, n.authEpoch), isSlave := false);
    s.(nodes := s.nodes[self := w],
       wins := s.wins + {Win(self, n.authEpoch, w.configEpoch, s.polls[self].counted, s.polls[self].stale)})
  }

  /** clusterHandleSlaveFailover. */
  function HandleSlaveFailover(s: State, self: Name, env: Env): State
    requires self in s.nodes && self in s.polls
  {
    var authAge := env.now - s.nodes[self].authTime;
    if !MayFailover(s.nodes[self], self, env) then s
    else if authAge > AuthTimeout(env) * 2 then ScheduleAttempt(s, self, env)
    else
      var n := Rerank(s.nodes[self], env);
      if env.now < n.authTime || authAge > AuthTimeout(env) then s.(nodes := s.nodes[self := n])
      else if !n.authSent then AskForVotes(s, self, n, env)
      else if n.authCount >= Quorum(s.voters) then Promote(s, self, n)
      else s.(nodes := s.nodes[self := n])
  }

  // ---------------------------------------------------------------- runs

  predicate Enabled(s: State, e: Event) {
    match e
    case SendPing(src, dst) => src in s.nodes && dst in s.nodes
    case Deliver(m, _, _, _) => m in s.net && m.dst in s.nodes && m.dst in s.polls
    case Lose(m) => m in s.net
    case FailoverCron(n, _) => n in s.nodes && n in s.polls
    case BumpEpoch(n) => n in s.nodes
    case ChangeView(n, _, _) => n in s.nodes
  }

  function Step(s: State, e: Event): State
    requires Enabled(s, e)
  {
    match e
    case SendPing(src, dst) =>
      var n := s.nodes[src];
      s.(net := s.net + multiset{Ping(src, dst, n.currentEpoch, HeaderEpoch(n, src))})
    case Deliver(m, now, timeout, linked) =>
      if m.AuthRequest? then ReceiveRequest(s, m, now, timeout, linked)
      else if m.AuthAck? then ReceiveAck(s, m)
      else s.(nodes := s.nodes[m.dst := Observe(s.nodes[m.dst], m)], net := s.net - multiset{m})
    case Lose(m) => s.(net := s.net - multiset{m})
    case FailoverCron(n, env) => HandleSlaveFailover(s, n, env)
    case BumpEpoch(n) =>
      s.(nodes := s.nodes[n := s.nodes[n].(currentEpoch := s.nodes[n].currentEpoch + 1,
                                           configEpoch := s.nodes[n].currentEpoch + 1)])
    case ChangeView(n, v, slave) => s.(nodes := s.nodes[n := s.nodes[n].(view := v, isSlave := slave)])
  }

  predicate Runs(s: State, es: seq<Event>)
    decreases |es|
  {
    es == [] || (Enabled(s, es[0]) && Runs(Step(s, es[0]), es[1..]))
  }

  function Exec(s: State, es: seq<Event>): State
    requires Runs(s, es)
    decreases |es|
  {
    if es == [] then s else Exec(Step(s, es[0]), es[1..])
  }

  predicate Init(s: State) {
    && s.voters <= s.nodes.Keys == s.polls.Keys
    && s.net == multiset{} && s.votes == map[] && s.wins == {}
    && (forall n | n in s.nodes ::
          var d := s.nodes[n];
          && !d.authSent && d.authCount == 0 && d.authEpoch == 0
          && d.lastVoteEpoch <= d.currentEpoch && d.configEpoch <= d.currentEpoch
          && s.polls[n] == Poll({}, 0))
  }

  // ---------------------------------------------------------------- what every step keeps

  predicate EpochsOrdered(s: State) {
    && s.voters <= s.nodes.Keys == s.polls.Keys
    && forall n | n in s.nodes ::
         s.nodes[n].lastVoteEpoch <= s.nodes[n].currentEpoch && s.nodes[n].authEpoch <= s.nodes[n].currentEpoch
         && s.nodes[n].configEpoch <= s.nodes[n].currentEpoch
  }

  /** Each granted vote answers an election its candidate has held, at an epoch the voter
      will not vote at again. */
  predicate VotesRecorded(s: State) {
    forall v | v in s.votes ::
      && v.voter in s.nodes && s.votes[v].dst in s.nodes
      && v.epoch <= s.nodes[v.voter].lastVoteEpoch
      && v.epoch <= s.nodes[s.votes[v].dst].authEpoch
  }

  predicate RequestsCurrent(s: State) {
    forall m | m in s.net && m.AuthRequest? :: m.src in s.nodes && m.currentEpoch <= s.nodes[m.src].authEpoch
  }

  /** An acknowledgement in flight is the one receipt of a granted vote, not yet counted. */
  predicate AcksAreReceipts(s: State) {
    && (forall m | m in s.net && m.AuthAck? ::
          && s.net[m] == 1
          && Vote(m.src, m.currentEpoch) in s.votes && s.votes[Vote(m.src, m.currentEpoch)] == m)
    && (forall m | m in s.net && m.AuthAck? && m.dst in s.nodes && m.dst in s.polls
                   && m.currentEpoch == s.nodes[m.dst].authEpoch :: m.src !in s.polls[m.dst].counted)
  }

  predicate VotedFor(s: State, who: set<Name>, c: Name, epoch: nat) {
    && who <= s.voters
    && forall v | v in who :: Vote(v, epoch) in s.votes && s.votes[Vote(v, epoch)].dst == c
  }

  predicate PollsExact(s: State) {
    s.nodes.Keys == s.polls.Keys &&
    forall n | n in s.nodes ::
      && s.nodes[n].authCount == |s.polls[n].counted| + s.polls[n].stale
      && VotedFor(s, s.polls[n].counted, n, s.nodes[n].authEpoch)
      && (!s.nodes[n].authSent ==> s.polls[n].counted == {})
  }

  predicate WinsBacked(s: State) {
    forall w | w in s.wins ::
      && VotedFor(s, w.counted, w.name, w.epoch)
      && |w.counted| + w.stale >= Quorum(s.voters)
  }

  predicate Inv(s: State) {
    EpochsOrdered(s) && VotesRecorded(s) && RequestsCurrent(s) && AcksAreReceipts(s) && PollsExact(s) && WinsBacked(s)
  }

  /** Steps that cast, count, reset and win nothing: epochs may grow, packets may go. */
  predicate Quiet(s: State, t: State) {
    && t.voters == s.voters && t.votes == s.votes && t.polls == s.polls && t.wins == s.wins
    && t.nodes.Keys == s.nodes.Keys
    && (forall n | n in s.nodes :: SamePoll(s.nodes[n], t.nodes[n]))
    && (forall m | m in t.net && !m.Ping? :: t.net[m] <= s.net[m])
  }

  predicate SamePoll(n: Node, k: Node) {
    && k.lastVoteEpoch == n.lastVoteEpoch && k.authSent == n.authSent && k.authCount == n.authCount
    && k.authEpoch == n.authEpoch && n.currentEpoch <= k.currentEpoch
    && (k.configEpoch == n.configEpoch || k.configEpoch == k.currentEpoch)
  }

  lemma QuietKeepsInv(s: State, t: State)
    requires Inv(s) && Quiet(s, t)
    ensures Inv(t)
  {
    assert VotesRecorded(t) && RequestsCurrent(t) && EpochsOrdered(t) by {
      assert forall n | n in t.nodes :: SamePoll(s.nodes[n], t.nodes[n]);
    }
    QuietKeepsPolls(s, t);
  }

  lemma QuietKeepsPolls(s: State, t: State)
    requires PollsExact(s) && AcksAreReceipts(s) && WinsBacked(s) && Quiet(s, t)
    ensures PollsExact(t) && AcksAreReceipts(t) && WinsBacked(t)
  {
    VotedForGrows(s, t);
    forall n | n in t.nodes
      ensures SamePoll(s.nodes[n], t.nodes[n]) && VotedFor(s, s.polls[n].counted, n, s.nodes[n].authEpoch) {}
  }

  // Casting a vote: `v` is the voter afterwards, `c` the candidate it answers.

  predicate Casts(s: State, t: State, v: Name, c: Name, ack: Message) {
    && v in s.voters && v in s.nodes && c in s.nodes
    && t.voters == s.voters && t.polls == s.polls && t.wins == s.wins && t.nodes.Keys == s.nodes.Keys
    && (forall n | n in s.nodes && n != v :: t.nodes[n] == s.nodes[n])
    && SamePoll(s.nodes[v].(lastVoteEpoch := t.nodes[v].currentEpoch), t.nodes[v])
    && s.nodes[v].lastVoteEpoch < t.nodes[v].currentEpoch <= t.nodes[c].authEpoch
    && t.votes == s.votes[Vote(v, t.nodes[v].currentEpoch) := ack]
    && ack.AuthAck? && ack.src == v && ack.dst == c && ack.currentEpoch == t.nodes[v].currentEpoch
    && (forall m | m in t.net && !m.Ping? && m != ack :: t.net[m] <= s.net[m])
    && t.net[ack] <= s.net[ack] + 1
  }

  lemma CastKeepsReceipts(s: State, t: State, v: Name, c: Name, ack: Message)
    requires Inv(s) && Casts(s, t, v, c, ack)
    ensures AcksAreReceipts(t)
  {
    assert Vote(v, t.nodes[v].currentEpoch) !in s.votes;
    assert ack !in s.net;
    forall m | m in t.net && m.AuthAck? && m != ack ensures m in s.net {}
  }

  lemma CastKeepsVotes(s: State, t: State, v: Name, c: Name, ack: Message)
    requires EpochsOrdered(s) && VotesRecorded(s) && RequestsCurrent(s) && Casts(s, t, v, c, ack)
    ensures EpochsOrdered(t) && VotesRecorded(t) && RequestsCurrent(t)
    ensures Vote(v, t.nodes[v].currentEpoch) !in s.votes
  {}

  lemma CastKeepsPolls(s: State, t: State, v: Name, c: Name, ack: Message)
    requires PollsExact(s) && WinsBacked(s) && Casts(s, t, v, c, ack) && Vote(v, t.nodes[v].currentEpoch) !in s.votes
    ensures PollsExact(t) && WinsBacked(t)
  {
    VotedForGrows(s, t);
    forall n | n in t.nodes
      ensures t.nodes[n].authEpoch == s.nodes[n].authEpoch &&
              VotedFor(s, s.polls[n].counted, n, s.nodes[n].authEpoch) {}
  }

  lemma CastKeepsInv(s: State, t: State, v: Name, c: Name, ack: Message)
    requires Inv(s) && Casts(s, t, v, c, ack)
    ensures Inv(t)
  {
    hide EpochsOrdered, VotesRecorded, RequestsCurrent, AcksAreReceipts, PollsExact, WinsBacked, Casts;
    CastKeepsReceipts(s, t, v, c, ack);
    CastKeepsVotes(s, t, v, c, ack);
    CastKeepsPolls(s, t, v, c, ack);
  }

  /** Votes are only ever added. */
  lemma VotedForGrows(s: State, t: State)
    requires t.voters == s.voters && forall v | v in s.votes :: v in t.votes && t.votes[v] == s.votes[v]
    ensures forall who, c, epoch | VotedFor(s, who, c, epoch) :: VotedFor(t, who, c, epoch)
  {}

  // Changing one candidate `c`: counting an acknowledgement, scheduling, requesting, winning.

  predicate OnlyCandidate(s: State, t: State, c: Name) {
    && c in s.nodes && c in s.polls && c in t.nodes && c in t.polls
    && t.voters == s.voters && t.votes == s.votes
    && t.nodes == s.nodes[c := t.nodes[c]] && t.polls == s.polls[c := t.polls[c]]
    && t.nodes[c].lastVoteEpoch == s.nodes[c].lastVoteEpoch
    && s.nodes[c].currentEpoch <= t.nodes[c].currentEpoch
    && s.nodes[c].authEpoch <= t.nodes[c].authEpoch <= t.nodes[c].currentEpoch
    && t.nodes[c].configEpoch <= t.nodes[c].currentEpoch
    && (forall m | m in t.net && m.AuthAck? :: t.net[m] <= s.net[m])
    && (forall m | m in t.net && m.AuthRequest? && m !in s.net ::
          m.src in s.nodes && m.currentEpoch <= t.nodes[m.src].authEpoch)
  }

  lemma CandidateKeepsVotes(s: State, t: State, c: Name)
    requires EpochsOrdered(s) && VotesRecorded(s) && RequestsCurrent(s) && OnlyCandidate(s, t, c)
    ensures EpochsOrdered(t) && VotesRecorded(t) && RequestsCurrent(t)
  {}

  /** What is left to show once the other nodes are known to be as before. */
  predicate PollOf(t: State, c: Name)
    requires c in t.nodes && c in t.polls
  {
    && t.nodes[c].authCount == |t.polls[c].counted| + t.polls[c].stale
    && VotedFor(t, t.polls[c].counted, c, t.nodes[c].authEpoch)
    && (!t.nodes[c].authSent ==> t.polls[c].counted == {})
    && (forall m | m in t.net && m.AuthAck? && m.dst == c && m.currentEpoch == t.nodes[c].authEpoch ::
          m.src !in t.polls[c].counted)
  }

  lemma CandidateKeepsInv(s: State, t: State, c: Name)
    requires Inv(s) && OnlyCandidate(s, t, c) && PollOf(t, c) && WinsBacked(t)
    ensures Inv(t)
  {
    hide EpochsOrdered, VotesRecorded, RequestsCurrent, AcksAreReceipts, PollsExact, WinsBacked, OnlyCandidate, PollOf;
    CandidateKeepsVotes(s, t, c);
    CandidateKeepsPolls(s, t, c);
    CandidateKeepsReceipts(s, t, c);
  }

  lemma CandidateKeepsPolls(s: State, t: State, c: Name)
    requires PollsExact(s) && OnlyCandidate(s, t, c) && PollOf(t, c)
    ensures PollsExact(t)
  {
    forall n | n in t.nodes && n != c ensures t.nodes[n] == s.nodes[n] && t.polls[n] == s.polls[n] {}
    VotedForGrows(s, t);
  }

  lemma CandidateKeepsReceipts(s: State, t: State, c: Name)
    requires AcksAreReceipts(s) && OnlyCandidate(s, t, c) && PollOf(t, c)
    ensures AcksAreReceipts(t)
  {
    hide VotedFor;
    assert forall n | n in t.nodes && n != c :: t.nodes[n] == s.nodes[n];
    assert forall n | n in t.polls && n != c :: t.polls[n] == s.polls[n];
    forall m | m in t.net && m.AuthAck? ensures m in s.net {}
  }

  lemma InvDomains(s: State)
    requires Inv(s)
    ensures s.voters <= s.nodes.Keys == s.polls.Keys
  {}

  /** Counting an acknowledgement: it answers the current election of its receiver. */
  lemma AckCounts(s: State, m: Message)
    requires Inv(s) && m in s.net && m.AuthAck? && m.dst in s.nodes && m.src in s.voters
    requires m.currentEpoch >= s.nodes[m.dst].authEpoch
    ensures var t := ReceiveAck(s, m); OnlyCandidate(s, t, m.dst) && PollOf(t, m.dst) && WinsBacked(t)
  {
    var t := ReceiveAck(s, m);
    var n, c := s.nodes[m.dst], s.polls[m.dst].counted;
    assert m !in t.net;
    assert t.votes[Vote(m.src, m.currentEpoch)] == m;
    assert m.currentEpoch == n.authEpoch;
    assert |c + {m.src}| == |c| + 1;
    VotedForGrows(s, t);
    assert VotedFor(t, c, m.dst, n.authEpoch);
  }

  lemma AckKeepsInv(s: State, m: Message)
    requires Inv(s) && m in s.net && m.AuthAck? && m.dst in s.nodes
    ensures Inv(ReceiveAck(s, m))
  {
    InvDomains(s);
    hide EpochsOrdered, VotesRecorded, RequestsCurrent, AcksAreReceipts, PollsExact, WinsBacked, OnlyCandidate, PollOf;
    var t := ReceiveAck(s, m);
    if m.src in s.voters && m.currentEpoch >= s.nodes[m.dst].authEpoch {
      AckCounts(s, m);
      CandidateKeepsInv(s, t, m.dst);
    } else {
      QuietKeepsInv(s, t);
    }
  }

  lemma ScheduleKeepsInv(s: State, self: Name, env: Env)
    requires Inv(s) && self in s.nodes
    ensures Inv(ScheduleAttempt(s, self, env))
  {
    var t := ScheduleAttempt(s, self, env);
    VotedForGrows(s, t);
    assert PollOf(t, self);
    CandidateKeepsInv(s, t, self);
  }

  lemma AskKeepsInv(s: State, self: Name, n: Node, env: Env)
    requires Inv(s) && self in s.nodes && !n.authSent && SamePoll(s.nodes[self], n)
    ensures Inv(AskForVotes(s, self, n, env))
  {
    var t := AskForVotes(s, self, n, env);
    assert forall m | m in t.net && m !in s.net ::
        m.AuthRequest? && m.src == self && m.currentEpoch == t.nodes[self].authEpoch;
    assert PollOf(t, self);
    VotedForGrows(s, t);
    CandidateKeepsInv(s, t, self);
  }

  lemma PromoteKeepsInv(s: State, self: Name, n: Node)
    requires Inv(s) && self in s.nodes && SamePoll(s.nodes[self], n) && n.authCount >= Quorum(s.voters)
    ensures Inv(Promote(s, self, n))
  {
    var t := Promote(s, self, n);
    VotedForGrows(s, t);
    assert VotedFor(t, s.polls[self].counted, self, n.authEpoch);
    assert PollOf(t, self);
    CandidateKeepsInv(s, t, self);
  }

  lemma CronKeepsInv(s: State, self: Name, env: Env)
    requires Inv(s) && self in s.nodes
    ensures Inv(HandleSlaveFailover(s, self, env))
  {
    InvDomains(s);
    hide EpochsOrdered, VotesRecorded, RequestsCurrent, AcksAreReceipts, PollsExact, WinsBacked, MayFailover,
         ScheduleAttempt, AskForVotes, Promote;
    var n := Rerank(s.nodes[self], env);
    var authAge := env.now - s.nodes[self].authTime;
    if !MayFailover(s.nodes[self], self, env) {
    } else if authAge > AuthTimeout(env) * 2 {
      ScheduleKeepsInv(s, self, env);
    } else if env.now < n.authTime || authAge > AuthTimeout(env) {
      QuietKeepsInv(s, s.(nodes := s.nodes[self := n]));
    } else if !n.authSent {
      AskKeepsInv(s, self, n, env);
    } else if n.authCount >= Quorum(s.voters) {
      PromoteKeepsInv(s, self, n);
    } else {
      QuietKeepsInv(s, s.(nodes := s.nodes[self := n]));
    }
  }

  lemma RequestFacts(s: State, m: Message)
    requires Inv(s) && m in s.net && m.AuthRequest? && m.dst in s.nodes
    ensures s.voters <= s.nodes.Keys == s.polls.Keys && m.src in s.nodes && m.currentEpoch <= s.nodes[m.src].authEpoch
    ensures s.nodes[m.dst].lastVoteEpoch <= s.nodes[m.dst].currentEpoch
  {}

  lemma RequestCasts(s: State, m: Message, now: int, nodeTimeout: nat, linked: bool)
    requires s.voters <= s.nodes.Keys == s.polls.Keys && m.AuthRequest? && m in s.net && m.dst in s.nodes &&
             m.src in s.nodes
    requires m.currentEpoch <= s.nodes[m.src].authEpoch && s.nodes[m.dst].lastVoteEpoch <= s.nodes[m.dst].currentEpoch
    ensures var n := Observe(s.nodes[m.dst], m);
            var t := ReceiveRequest(s, m, now, nodeTimeout, linked);
            if CanVote(n, m.dst in s.voters, m, now, nodeTimeout) then
              var v := CastVote(n, m, now);
              Casts(s, t, m.dst, m.src, AuthAck(m.dst, m.src, v.currentEpoch, HeaderEpoch(v, m.dst)))
            else Quiet(s, t)
  {}

  lemma RequestKeepsInv(s: State, m: Message, now: int, nodeTimeout: nat, linked: bool)
    requires Inv(s) && m in s.net && m.AuthRequest? && m.dst in s.nodes
    ensures Inv(ReceiveRequest(s, m, now, nodeTimeout, linked))
  {
    RequestFacts(s, m);
    hide EpochsOrdered, VotesRecorded, RequestsCurrent, AcksAreReceipts, PollsExact, WinsBacked, ReceiveRequest,
         Casts, Quiet, CanVote;
    var n := Observe(s.nodes[m.dst], m);
    var t := ReceiveRequest(s, m, now, nodeTimeout, linked);
    RequestCasts(s, m, now, nodeTimeout, linked);
    if CanVote(n, m.dst in s.voters, m, now, nodeTimeout) {
      var v := CastVote(n, m, now);
      CastKeepsInv(s, t, m.dst, m.src, AuthAck(m.dst, m.src, v.currentEpoch, HeaderEpoch(v, m.dst)));
    } else {
      QuietKeepsInv(s, t);
    }
  }

  lemma StepKeepsInv(s: State, e: Event)
    requires Inv(s) && Enabled(s, e)
    ensures Inv(Step(s, e))
  {
    hide EpochsOrdered, VotesRecorded, RequestsCurrent, AcksAreReceipts, PollsExact, WinsBacked;
    hide HandleSlaveFailover, ReceiveRequest, ReceiveAck;
    match e
    case Deliver(m, now, timeout, linked) =>
      if m.AuthRequest? { RequestKeepsInv(s, m, now, timeout, linked); }
      else if m.AuthAck? { AckKeepsInv(s, m); }
      else { QuietKeepsInv(s, Step(s, e)); }
    case FailoverCron(n, env) => CronKeepsInv(s, n, env);
    case _ => QuietKeepsInv(s, Step(s, e));
  }

  lemma {:induction false} RunKeepsInv(s: State, es: seq<Event>)
    requires Inv(s) && Runs(s, es)
    ensures Inv(Exec(s, es))
    decreases |es|
  {
    if es != [] {
      StepKeepsInv(s, es[0]);
      RunKeepsInv(Step(s, es[0]), es[1..]);
    }
  }

  // ---------------------------------------------------------------- main results

  lemma MajoritiesMeet(all: set<Name>, a: set<Name>, b: set<Name>) returns (v: Name)
    requires a <= all && b <= all && |a| >= Quorum(all) && |b| >= Quorum(all)
    ensures v in a && v in b
  {
    if a * b == {} {
      assert |a + b| == |a| + |b|;
      SubsetSize(a + b, all);
      assert false;
    }
    v :| v in a * b;
  }

  /** Two replicas win the same epoch only if one of them counted a stale acknowledgement. */
  lemma ElectionSafety(s: State, es: seq<Event>)
    requires Init(s) && Runs(s, es)
    ensures forall w, x
              | w in Exec(s, es).wins && x in Exec(s, es).wins && w.epoch == x.epoch && w.stale == x.stale == 0 ::
              w.name == x.name
  {
    RunKeepsInv(s, es);
    var t := Exec(s, es);
    forall w, x | w in t.wins && x in t.wins && w.epoch == x.epoch && w.stale == x.stale == 0
      ensures w.name == x.name
    {
      var v := MajoritiesMeet(t.voters, w.counted, x.counted);
    }
  }

  /** No acknowledgement is counted between the reset of the counter and the new request. */
  predicate Prompt(s: State, es: seq<Event>)
    requires Runs(s, es)
    decreases |es|
  {
    es == [] || (!CountsStale(s, es[0]) && Prompt(Step(s, es[0]), es[1..]))
  }

  /** The guard cluster.c leaves out: the receiver has an attempt scheduled but no request sent. */
  predicate CountsStale(s: State, e: Event)
    requires Enabled(s, e)
  {
    e.Deliver? && e.msg.AuthAck? && !s.nodes[e.msg.dst].authSent
    && e.msg.src in s.voters && e.msg.currentEpoch >= s.nodes[e.msg.dst].authEpoch
  }

  predicate NothingStale(s: State) {
    (forall n | n in s.polls :: s.polls[n].stale == 0) && (forall w | w in s.wins :: w.stale == 0)
  }

  lemma CronCountsNothing(s: State, self: Name, env: Env)
    requires self in s.nodes && self in s.polls
    ensures var t := HandleSlaveFailover(s, self, env);
            t.votes == s.votes && (NothingStale(s) ==> NothingStale(t))
  {
    hide MayFailover, Requests;
  }

  lemma AckCountsStale(s: State, m: Message)
    requires NothingStale(s) && m in s.net && m.AuthAck? && m.dst in s.nodes && m.dst in s.polls
    ensures NothingStale(ReceiveAck(s, m)) <==>
            !(!s.nodes[m.dst].authSent && m.src in s.voters && m.currentEpoch >= s.nodes[m.dst].authEpoch)
  {
    var t := ReceiveAck(s, m);
    assert m.dst in t.polls;
  }

  /** The stale counter moves exactly at the steps that guard would stop. */
  lemma StaleExactly(s: State, e: Event)
    requires NothingStale(s) && Enabled(s, e)
    ensures NothingStale(Step(s, e)) <==> !CountsStale(s, e)
  {
    hide HandleSlaveFailover, ReceiveAck;
    match e
    case FailoverCron(n, env) => CronCountsNothing(s, n, env);
    case Deliver(m, now, timeout, linked) => if m.AuthAck? { AckCountsStale(s, m); }
    case _ =>
  }

  lemma {:induction false} PromptRunsCountNothingStale(s: State, es: seq<Event>)
    requires Inv(s) && NothingStale(s) && Runs(s, es) && Prompt(s, es)
    ensures NothingStale(Exec(s, es))
    decreases |es|
  {
    if es != [] {
      StepKeepsInv(s, es[0]);
      StaleExactly(s, es[0]);
      PromptRunsCountNothingStale(Step(s, es[0]), es[1..]);
    }
  }

  /** With that guard no epoch is ever won twice. */
  lemma PromptRunsElectOne(s: State, es: seq<Event>)
    requires Init(s) && Runs(s, es) && Prompt(s, es)
    ensures forall w, x | w in Exec(s, es).wins && x in Exec(s, es).wins && w.epoch == x.epoch :: w.name == x.name
  {
    PromptRunsCountNothingStale(s, es);
    ElectionSafety(s, es);
  }

  /** A master never changes a granted vote, and its later votes carry greater epochs. */
  lemma VotesIncrease(s: State, e: Event)
    requires Inv(s) && Enabled(s, e)
    ensures forall v | v in s.votes :: v in Step(s, e).votes && Step(s, e).votes[v] == s.votes[v]
    ensures forall v, w | v in s.votes && w in Step(s, e).votes && w !in s.votes && v.voter == w.voter ::
              v.epoch < w.epoch
  {
    hide HandleSlaveFailover, RequestsCurrent, AcksAreReceipts, PollsExact, WinsBacked;
    if e.FailoverCron? { CronCountsNothing(s, e.name, e.env); }
    if e.Deliver? && e.msg.AuthRequest? {
      var n := Observe(s.nodes[e.msg.dst], e.msg);
      if CanVote(n, e.msg.dst in s.voters, e.msg, e.now, e.nodeTimeout) {
        assert n.lastVoteEpoch < n.currentEpoch;
      }
    }
  }

  /** Every counted acknowledgement answers the receiver's own latest election. */
  lemma CountedAckIsCurrent(s: State, e: Event)
    requires Inv(s) && Enabled(s, e) && e.Deliver? && e.msg.AuthAck?
    ensures Step(s, e).nodes[e.msg.dst].authCount > s.nodes[e.msg.dst].authCount
            ==> e.msg.currentEpoch == s.nodes[e.msg.dst].authEpoch
                && s.votes[Vote(e.msg.src, e.msg.currentEpoch)] == e.msg
  {
    assert Vote(e.msg.src, e.msg.currentEpoch) in s.votes;
  }

  // ---------------------------------------------------------------- what each step does, in full

  /** Every delivered packet raises the epochs its receiver knows to those of the header, and changes
      nothing else it believes but the time of a vote. */
  lemma DeliveryRaisesEpochs(s: State, e: Event)
    requires Enabled(s, e) && e.Deliver?
    ensures var m, n, t := e.msg, s.nodes[e.msg.dst], Step(s, e);
            var k := t.nodes[m.dst];
            && t.nodes == s.nodes[m.dst := k]
            && k.currentEpoch == (if n.currentEpoch < m.currentEpoch then m.currentEpoch else n.currentEpoch)
            && k.view.EpochOf(m.src) ==
               (if n.view.EpochOf(m.src) < m.configEpoch then m.configEpoch else n.view.EpochOf(m.src))
            && (forall x | x != m.src :: k.view.EpochOf(x) == n.view.EpochOf(x))
            && k.view == n.view.(epochs := k.view.epochs, votedTime := k.view.votedTime)
            && k.configEpoch == n.configEpoch && k.isSlave == n.isSlave && k.authTime == n.authTime
            && k.authSent == n.authSent && k.authRank == n.authRank && k.authEpoch == n.authEpoch
  {
    hide CanVote;
  }

  /** A vote is granted exactly when the receiver votes, the request is not older than what it knows, it
      has not voted in that epoch, the sender is a replica of a master that failed or the failover is
      forced, two node timeouts passed since it voted for a replica of that master, and no claimed slot
      is known with a greater epoch. */
  lemma VotesExactly(s: State, e: Event)
    requires Inv(s) && Enabled(s, e)
    ensures Step(s, e).votes != s.votes <==>
            && e.Deliver? && e.msg.AuthRequest?
            && var m, n := e.msg, s.nodes[e.msg.dst];
               && m.dst in s.voters && n.currentEpoch <= m.currentEpoch && n.lastVoteEpoch < m.currentEpoch
               && m.src in n.view.slaveof
               && (n.view.slaveof[m.src] in n.view.failed || m.forceAck)
               && e.now >= n.view.VotedTime(n.view.slaveof[m.src]) + 2 * e.nodeTimeout
               && forall j | j in m.slots && j in n.view.owner :: n.view.EpochOf(n.view.owner[j]) <= m.configEpoch
  {
    hide HandleSlaveFailover, RequestsCurrent, AcksAreReceipts, PollsExact, WinsBacked;
    if e.FailoverCron? { CronCountsNothing(s, e.name, e.env); }
    if e.Deliver? && e.msg.AuthRequest? { GuardsOfVote(s, e.msg, e.now, e.nodeTimeout); }
  }

  lemma GuardsOfVote(s: State, m: Message, now: int, nodeTimeout: nat)
    requires EpochsOrdered(s) && VotesRecorded(s) && m.AuthRequest? && m.dst in s.nodes
    ensures var n := s.nodes[m.dst];
            CanVote(Observe(n, m), m.dst in s.voters, m, now, nodeTimeout) <==>
            && m.dst in s.voters && n.currentEpoch <= m.currentEpoch && n.lastVoteEpoch < m.currentEpoch
            && m.src in n.view.slaveof
            && (n.view.slaveof[m.src] in n.view.failed || m.forceAck)
            && now >= n.view.VotedTime(n.view.slaveof[m.src]) + 2 * nodeTimeout
            && forall j | j in m.slots && j in n.view.owner :: n.view.EpochOf(n.view.owner[j]) <= m.configEpoch
    ensures s.nodes[m.dst].currentEpoch <= m.currentEpoch && s.nodes[m.dst].lastVoteEpoch < m.currentEpoch ==>
              Vote(m.dst, m.currentEpoch) !in s.votes
  {
    var n, o := s.nodes[m.dst], Observe(s.nodes[m.dst], m);
    forall j | j in m.slots && j in n.view.owner
      ensures o.view.EpochOf(n.view.owner[j]) <= m.configEpoch <==> n.view.EpochOf(n.view.owner[j]) <= m.configEpoch {}
  }

  /** A granted vote is recorded, remembered with its time, and acknowledged if there is a link; no
      other delivery touches votes, the last vote or the time of one. */
  lemma VoteIsRecorded(s: State, e: Event)
    requires Inv(s) && Enabled(s, e) && e.Deliver?
    ensures var m, n, t := e.msg, s.nodes[e.msg.dst], Step(s, e);
            var k := t.nodes[m.dst];
            if t.votes == s.votes then
              k.lastVoteEpoch == n.lastVoteEpoch && k.view.votedTime == n.view.votedTime && t.net == s.net - multiset{m}
            else
              && m.AuthRequest? && m.src in n.view.slaveof && k.lastVoteEpoch == m.currentEpoch
              && k.view.votedTime == n.view.votedTime[n.view.slaveof[m.src] := e.now]
              && exists c :: var ack := AuthAck(m.dst, m.src, m.currentEpoch, c);
                   && t.votes == s.votes[Vote(m.dst, m.currentEpoch) := ack]
                   && t.net == s.net - multiset{m} + (if e.linked then multiset{ack} else multiset{})
                   && (!n.isSlave ==> c == n.configEpoch)
  {
    hide HandleSlaveFailover, RequestsCurrent, AcksAreReceipts, PollsExact, WinsBacked, CanVote;
    var m := e.msg;
    if m.AuthRequest? {
      GuardsOfVote(s, m, e.now, e.nodeTimeout);
      var n := Observe(s.nodes[m.dst], m);
      if CanVote(n, m.dst in s.voters, m, e.now, e.nodeTimeout) {
        var v := CastVote(n, m, e.now);
        var ack := AuthAck(m.dst, m.src, m.currentEpoch, HeaderEpoch(v, m.dst));
        assert Step(s, e).votes == s.votes[Vote(m.dst, m.currentEpoch) := ack];
      }
    }
  }

  /** An acknowledgement is counted exactly when a voting master sent it and its epoch is not older than
      the election of its receiver. */
  lemma AcksExactly(s: State, e: Event)
    requires Enabled(s, e) && e.Deliver?
    ensures var m, n := e.msg, s.nodes[e.msg.dst];
            Step(s, e).nodes[m.dst].authCount == n.authCount +
              if m.AuthAck? && m.src in s.voters && n.authEpoch <= m.currentEpoch then 1 else 0
  {
    hide CanVote;
  }

  /** A replica whose master failed, or is being failed over by hand, and owns slots. */
  predicate Eligible(n: Node, self: Name, env: Env) {
    && n.isSlave && self in n.view.slaveof
    && (exists j :: j in n.view.owner && n.view.owner[j] == n.view.slaveof[self])
    && ((env.mfEnd && env.mfCanStart) ||
        (n.view.slaveof[self] in n.view.failed && !env.noFailover && !env.dataTooOld))
  }

  lemma EligibleMay(n: Node, self: Name, env: Env)
    ensures Eligible(n, self, env) <==> MayFailover(n, self, env)
  {
    if self in n.view.slaveof {
      var owned := n.view.SlotsOf(n.view.slaveof[self]);
      if j :| j in n.view.owner && n.view.owner[j] == n.view.slaveof[self] { assert j in owned; }
      if owned != {} { var j :| j in owned; }
    }
  }

  /** How long past its scheduled time an attempt is good for: to ask and win, and before a retry. */
  function Patience(env: Env): nat { if env.nodeTimeout <= 1000 then 2000 else 2 * env.nodeTimeout }

  /** When the attempt may ask: later by a second for every rank lost since it was scheduled. */
  function DueTime(n: Node, env: Env): int {
    if n.authSent || env.mfEnd || env.rank <= n.authRank then n.authTime
    else n.authTime + 1000 * (env.rank - n.authRank)
  }

  /** A new attempt is scheduled exactly when the last one is older than twice its patience: at once by
      hand, else after half a second, a draw of less than that and a second per rank. */
  lemma SchedulesExactly(s: State, self: Name, env: Env)
    requires self in s.nodes && self in s.polls
    ensures var n, t := s.nodes[self], Step(s, FailoverCron(self, env));
            if Eligible(n, self, env) && env.now > n.authTime + 2 * Patience(env) then
              && t.polls[self] == Poll({}, 0) && t.nodes[self].authCount == 0 && !t.nodes[self].authSent
              && t.nodes[self].authTime ==
                 (if env.mfEnd then env.now else env.now + 500 + env.delay % 500 + 1000 * env.rank)
              && t.nodes[self].authRank == (if env.mfEnd then 0 else env.rank)
              && t == s.(nodes := s.nodes[self := t.nodes[self]], polls := t.polls)
              && t.nodes[self].currentEpoch == n.currentEpoch && t.nodes[self].authEpoch == n.authEpoch
            else t.polls == s.polls && t.nodes[self].authCount == n.authCount
  {
    hide MayFailover, Requests;
    EligibleMay(s.nodes[self], self, env);
  }

  /** Votes are asked for exactly when an attempt that has not asked is due and not too old; the replica
      opens a new epoch and asks every reachable node for it, claiming its master's slots. */
  lemma AsksExactly(s: State, self: Name, env: Env)
    requires self in s.nodes && self in s.polls
    ensures var n, t := s.nodes[self], Step(s, FailoverCron(self, env));
            var k := t.nodes[self];
            if && Eligible(n, self, env) && !n.authSent
               && DueTime(n, env) <= env.now <= n.authTime + Patience(env)
            then
              && k.currentEpoch == k.authEpoch == n.currentEpoch + 1 && k.authSent && k.authCount == n.authCount
              && var master := n.view.slaveof[self];
                 var claimed := set j | j in n.view.owner && n.view.owner[j] == master;
                 var epoch := if master == self then n.configEpoch else n.view.EpochOf(master);
                 t.net == s.net + multiset(set d | d in s.nodes && d in env.reachable && d != self ::
                            AuthRequest(self, d, n.currentEpoch + 1, epoch, claimed, env.mfEnd))
            else k.currentEpoch == n.currentEpoch && k.authEpoch == n.authEpoch && t.net == s.net
  {
    hide MayFailover;
    EligibleMay(s.nodes[self], self, env);
  }

  /** A replica wins exactly when it has asked, is not too late, and has counted a majority of the
      voting masters; it is a master then, and its config epoch is raised to the one it won. */
  lemma WinsExactly(s: State, self: Name, env: Env)
    requires self in s.nodes && self in s.polls
    ensures var n, t := s.nodes[self], Step(s, FailoverCron(self, env));
            var k, p := t.nodes[self], s.polls[self];
            if && Eligible(n, self, env) && n.authSent && n.authTime <= env.now <= n.authTime + Patience(env)
               && 2 * n.authCount > |s.voters|
            then
              && !k.isSlave && k.configEpoch == (if n.configEpoch < n.authEpoch then n.authEpoch else n.configEpoch)
              && t.wins == s.wins + {Win(self, n.authEpoch, k.configEpoch, p.counted, p.stale)}
              && t.votes == s.votes && t.net == s.net
            else t.wins == s.wins && k.isSlave == n.isSlave && k.configEpoch == n.configEpoch
  {
    hide MayFailover, Requests;
    EligibleMay(s.nodes[self], self, env);
  }

  /** Of an attempt that is neither scheduled, asked for nor won only rank and time move, to `DueTime`. */
  lemma WaitsOtherwise(s: State, self: Name, env: Env)
    requires self in s.nodes && self in s.polls
    ensures var n, t := s.nodes[self], Step(s, FailoverCron(self, env));
            var k := t.nodes[self];
            && t.nodes == s.nodes[self := k] && t.voters == s.voters && t.votes == s.votes
            && k.view == n.view && k.lastVoteEpoch == n.lastVoteEpoch
            && (!Eligible(n, self, env) ==> t == s)
            && (Eligible(n, self, env) && env.now <= n.authTime + 2 * Patience(env) ==>
                  && k.authTime == DueTime(n, env)
                  && k.authRank == (if n.authSent || env.mfEnd || env.rank <= n.authRank then n.authRank else env.rank))
  {
    hide MayFailover, Requests;
    EligibleMay(s.nodes[self], self, env);
  }

  /** A ping carries the sender's current epoch and the config epoch of the master it stands for. */
  lemma PingCarries(s: State, src: Name, dst: Name)
    requires src in s.nodes && dst in s.nodes
    ensures var n, t := s.nodes[src], Step(s, SendPing(src, dst));
            exists c ::
              && t == s.(net := s.net + multiset{Ping(src, dst, n.currentEpoch, c)})
              && (!n.isSlave || src !in n.view.slaveof ==> c == n.configEpoch)
              && (n.isSlave && src in n.view.slaveof && n.view.slaveof[src] != src ==>
                    c == n.view.EpochOf(n.view.slaveof[src]))
  {
    assert Step(s, SendPing(src, dst)) ==
           s.(net := s.net + multiset{Ping(src, dst, s.nodes[src].currentEpoch, HeaderEpoch(s.nodes[src], src))});
  }

  /** An epoch taken without an election is greater than any its node has seen. */
  lemma BumpTakesNew(s: State, n: Name)
    requires EpochsOrdered(s) && n in s.nodes
    ensures var k := Step(s, BumpEpoch(n)).nodes[n];
            k.currentEpoch == k.configEpoch > s.nodes[n].currentEpoch && k.configEpoch > s.nodes[n].configEpoch
  {}

  /** The other handlers may rewrite what a node believes and its role, so a winner can stand again. */
  lemma RoleCanChange(s: State, n: Name, view: View, slave: bool)
    requires n in s.nodes
    ensures var k := Step(s, ChangeView(n, view, slave)).nodes[n];
            k.isSlave == slave && k.view == view && SamePoll(s.nodes[n], k) && k.configEpoch == s.nodes[n].configEpoch
  {}

  /** A packet can be lost, and then only it is gone. */
  lemma PacketCanBeLost(s: State, m: Message)
    requires m in s.net
    ensures var t := Step(s, Lose(m)); t.net[m] == s.net[m] - 1 && t == s.(net := s.net - multiset{m})
  {}

  // ---------------------------------------------------------------- winners take the epoch they won

  /** A win makes a master of a replica, with the epoch it won or a greater one it had. */
  lemma WinnerTakesEpoch(s: State, e: Event, w: Win)
    requires Enabled(s, e) && w in Step(s, e).wins && w !in s.wins
    ensures w.name in s.nodes && w.name in Step(s, e).nodes
    ensures var n := Step(s, e).nodes[w.name];
            && !n.isSlave && n.configEpoch == w.configEpoch && w.epoch <= n.configEpoch
            && (n.configEpoch == w.epoch || n.configEpoch == s.nodes[w.name].configEpoch)
  {
    hide HandleSlaveFailover, CanVote;
    if e.FailoverCron? {
      WinsExactly(s, e.name, e.env);
      WaitsOtherwise(s, e.name, e.env);
    }
  }

  /** Every winner holds the epoch it won or a greater one. */
  predicate WinnersHold(s: State) {
    forall w | w in s.wins :: w.name in s.nodes && w.epoch <= w.configEpoch <= s.nodes[w.name].configEpoch
  }

  lemma ConfigEpochGrows(s: State, e: Event, n: Name)
    requires EpochsOrdered(s) && Enabled(s, e) && n in s.nodes
    ensures n in Step(s, e).nodes && s.nodes[n].configEpoch <= Step(s, e).nodes[n].configEpoch
  {
    hide HandleSlaveFailover, CanVote, Requests;
    if e.FailoverCron? {
      WinsExactly(s, e.name, e.env);
      WaitsOtherwise(s, e.name, e.env);
    }
    if e.Deliver? { DeliveryRaisesEpochs(s, e); }
  }

  lemma {:induction false} WinnersKeepEpochs(s: State, es: seq<Event>)
    requires Inv(s) && WinnersHold(s) && Runs(s, es)
    ensures WinnersHold(Exec(s, es))
    decreases |es|
  {
    hide Step, Enabled;
    if es != [] {
      var t := Step(s, es[0]);
      forall w | w in t.wins ensures w.name in t.nodes && w.epoch <= w.configEpoch <= t.nodes[w.name].configEpoch {
        if w in s.wins { ConfigEpochGrows(s, es[0], w.name); } else { WinnerTakesEpoch(s, es[0], w); }
      }
      StepKeepsInv(s, es[0]);
      WinnersKeepEpochs(t, es[1..]);
    }
  }

  /** At every point of every run each replica that won holds a config epoch at least the one it won. */
  lemma WinnersHoldTheirEpoch(s: State, es: seq<Event>)
    requires Init(s) && Runs(s, es)
    ensures WinnersHold(Exec(s, es))
  {
    WinnersKeepEpochs(s, es);
  }

  // ---------------------------------------------------------------- the guard is needed

  // One master, 0, with replicas 1 and 2 asked by hand to fail over.  Replica 1 asks at
  // epoch 1 and is granted the vote, starts over, is handed the old acknowledgement, and
  // so wins epoch 2 the moment it asks for it.  Replica 2 wins epoch 2 with a real vote.

  function Family(): View { View(map[], map[1 := 0, 2 := 0], {}, map[0 := 0], map[]) }

  function Fresh(slave: bool): Node { Node(0, 0, 0, slave, 0, 0, false, 0, 0, Family()) }

  function Start(): State {
    State({0}, map[0 := Fresh(false), 1 := Fresh(true), 2 := Fresh(true)], multiset{}, map[],
          map[0 := Poll({}, 0), 1 := Poll({}, 0), 2 := Poll({}, 0)], {})
  }

  function Manual(now: int, reachable: set<Name>): Env {
    Env(now, 1000, false, false, true, true, 0, 0, reachable)
  }

  function Ask(src: Name, dst: Name, epoch: nat): Message { AuthRequest(src, dst, epoch, 0, {0}, true) }

  predicate Up(s: State) {
    s.voters == {0} && s.nodes.Keys == s.polls.Keys == {0, 1, 2}
    && InFamily(s.nodes[0].view) && InFamily(s.nodes[1].view) && InFamily(s.nodes[2].view)
  }

  predicate InFamily(v: View) { v.slaveof == Family().slaveof && v.owner == Family().owner && v.EpochOf(0) == 0 }

  predicate Candidate(n: Node, epoch: nat, auth: nat, sent: bool, time: int, count: nat) {
    n.isSlave && n.currentEpoch == epoch && n.authEpoch == auth && n.authSent == sent && n.authTime == time &&
      n.authCount == count
  }

  predicate Voter(n: Node, last: nat, votedAt: int) {
    !n.isSlave && n.configEpoch == 0 && n.currentEpoch == n.lastVoteEpoch == last && n.view.VotedTime(0) == votedAt
  }

  predicate Others(s: State, t: State, r: Name) {
    Up(s) && Up(t) && (forall w | w in s.wins :: w in t.wins)
    && (r != 0 ==> t.nodes[0] == s.nodes[0])
    && (r != 1 ==> t.nodes[1] == s.nodes[1])
    && (r != 2 ==> t.nodes[2] == s.nodes[2])
  }

  predicate Reached(es: seq<Event>, s: State) { Runs(Start(), es) && Exec(Start(), es) == s }

  lemma {:induction false} RunsSnoc(s: State, es: seq<Event>, e: Event)
    requires Runs(s, es) && Enabled(Exec(s, es), e)
    ensures Runs(s, es + [e]) && Exec(s, es + [e]) == Step(Exec(s, es), e)
    decreases |es|
  {
    if es == [] {
      assert [e][1..] == [];
    } else {
      RunsSnoc(Step(s, es[0]), es[1..], e);
      assert (es + [e])[1..] == es[1..] + [e];
    }
  }

  /** In the family a manual failover of a replica is always allowed. */
  lemma MayAlways(s: State, r: Name, env: Env)
    requires Up(s) && r in {1, 2} && s.nodes[r].isSlave && env.mfEnd && env.mfCanStart
    ensures MayFailover(s.nodes[r], r, env)
    ensures s.nodes[r].view.SlotsOf(0) == {0}
  {
    assert 0 in s.nodes[r].view.SlotsOf(0);
  }

  lemma Schedules(es: seq<Event>, s: State, r: Name, now: int, epoch: nat, auth: nat, sent: bool, time: int,
                  count: nat)
      returns (fs: seq<Event>, t: State)
    requires Reached(es, s) && Up(s) && r in {1, 2} && Candidate(s.nodes[r], epoch, auth, sent, time, count) &&
             now > time + 4000
    ensures Reached(fs, t) && Others(s, t, r) && t.net == s.net && Candidate(t.nodes[r], epoch, auth, false, now, 0)
  {
    var env := Manual(now, {});
    MayAlways(s, r, env);
    t := ScheduleAttempt(s, r, env);
    assert t == HandleSlaveFailover(s, r, env);
    RunsSnoc(Start(), es, FailoverCron(r, env));
    fs := es + [FailoverCron(r, env)];
    assert t.polls.Keys == s.polls.Keys;
  }

  lemma Wins(es: seq<Event>, s: State, r: Name, epoch: nat, time: int, count: nat) returns (fs: seq<Event>, t: State)
    requires Reached(es, s) && Up(s) && r in {1, 2} && Candidate(s.nodes[r], epoch, epoch, true, time, count) &&
             count >= 1
    ensures Reached(fs, t) && Others(s, t, r) && t.net == s.net
    ensures exists w :: w in t.wins && w.name == r && w.epoch == epoch
  {
    var env := Manual(time, {});
    MayAlways(s, r, env);
    t := Promote(s, r, s.nodes[r]);
    assert t == HandleSlaveFailover(s, r, env);
    RunsSnoc(Start(), es, FailoverCron(r, env));
    fs := es + [FailoverCron(r, env)];
    assert Win(r, epoch, t.nodes[r].configEpoch, s.polls[r].counted, s.polls[r].stale) in t.wins;
  }

  lemma Asks(es: seq<Event>, s: State, r: Name, epoch: nat, auth: nat, time: int, count: nat, to: set<Name>)
      returns (fs: seq<Event>, t: State)
    requires Reached(es, s) && Up(s) && r in {1, 2} && Candidate(s.nodes[r], epoch, auth, false, time, count) &&
             to <= {0, 2} - {r}
    ensures Reached(fs, t) && Others(s, t, r) && Candidate(t.nodes[r], epoch + 1, epoch + 1, true, time, count)
    ensures forall m | m in s.net :: m in t.net
    ensures forall d | d in to :: Ask(r, d, epoch + 1) in t.net
  {
    var n, env := s.nodes[r], Manual(time, to);
    t := AskForVotes(s, r, n, env);
    fs := es + [FailoverCron(r, env)];
    AsksNext(es, s, r, n, env);
    Asked(s, r, epoch, auth, time, count, to);
  }

  /** With no request out yet and its time come, the candidate asks. */
  lemma AsksNext(es: seq<Event>, s: State, r: Name, n: Node, env: Env)
    requires Reached(es, s) && Up(s) && r in {1, 2} && n == s.nodes[r] && n.isSlave && !n.authSent
    requires env.mfEnd && env.mfCanStart && env.now == n.authTime
    ensures Reached(es + [FailoverCron(r, env)], AskForVotes(s, r, n, env))
  {
    hide AskForVotes, MayFailover, Runs, Exec, Start;
    MayAlways(s, r, env);
    RunsSnoc(Start(), es, FailoverCron(r, env));
  }

  lemma Asked(s: State, r: Name, epoch: nat, auth: nat, time: int, count: nat, to: set<Name>)
    requires Up(s) && r in {1, 2} && Candidate(s.nodes[r], epoch, auth, false, time, count) && to <= {0, 2} - {r}
    ensures var t := AskForVotes(s, r, s.nodes[r], Manual(time, to));
            Others(s, t, r) && Candidate(t.nodes[r], epoch + 1, epoch + 1, true, time, count) &&
            (forall m | m in s.net :: m in t.net) && (forall d | d in to :: Ask(r, d, epoch + 1) in t.net)
  {
    hide Requests;
    var n, env := s.nodes[r], Manual(time, to);
    var t := AskForVotes(s, r, n, env);
    MayAlways(s, r, env);
    Broadcast(t.nodes[r], r, env, s.nodes.Keys);
  }

  lemma Broadcast(c: Node, r: Name, env: Env, others: set<Name>)
    requires c.isSlave && InFamily(c.view) && r in {1, 2} && env.mfEnd && c.view.SlotsOf(0) == {0}
    ensures forall d | d in others && d in env.reachable && d != r ::
              Ask(r, d, c.currentEpoch) in Requests(c, r, env, others)
  {}

  lemma Votes(es: seq<Event>, s: State, r: Name, epoch: nat, last: nat, votedAt: int, now: int)
      returns (fs: seq<Event>, t: State)
    requires Reached(es, s) && Up(s) && r in {1, 2} && Voter(s.nodes[0], last, votedAt) && last < epoch &&
             now >= votedAt + 2000
    requires Ask(r, 0, epoch) in s.net
    ensures Reached(fs, t) && Others(s, t, 0) && (forall m | m in s.net && m != Ask(r, 0, epoch) :: m in t.net)
    ensures AuthAck(0, r, epoch, 0) in t.net && Voter(t.nodes[0], epoch, now)
  {
    var m := Ask(r, 0, epoch);
    t := ReceiveRequest(s, m, now, 1000, true);
    assert CanVote(Observe(s.nodes[0], m), true, m, now, 1000);
    RunsSnoc(Start(), es, Deliver(m, now, 1000, true));
    fs := es + [Deliver(m, now, 1000, true)];
  }

  lemma Counts(es: seq<Event>, s: State, r: Name, epoch: nat, sent: bool, time: int, count: nat)
      returns (fs: seq<Event>, t: State)
    requires Reached(es, s) && Up(s) && r in {1, 2} && Candidate(s.nodes[r], epoch, epoch, sent, time, count)
    requires AuthAck(0, r, epoch, 0) in s.net
    ensures Reached(fs, t) && Others(s, t, r) && (forall m | m in s.net && m != AuthAck(0, r, epoch, 0) :: m in t.net)
    ensures Candidate(t.nodes[r], epoch, epoch, sent, time, count + 1)
  {
    var m := AuthAck(0, r, epoch, 0);
    t := ReceiveAck(s, m);
    RunsSnoc(Start(), es, Deliver(m, 0, 1000, true));
    fs := es + [Deliver(m, 0, 1000, true)];
  }

  /** A replica that hears of another's election takes over its epoch. */
  lemma Hears(es: seq<Event>, s: State) returns (fs: seq<Event>, t: State)
    requires Reached(es, s) && Up(s) && Candidate(s.nodes[2], 0, 0, false, 0, 0) && Ask(1, 2, 1) in s.net
    ensures Reached(fs, t) && Others(s, t, 2) && Candidate(t.nodes[2], 1, 0, false, 0, 0)
  {
    t := ReceiveRequest(s, Ask(1, 2, 1), 0, 1000, true);
    RunsSnoc(Start(), es, Deliver(Ask(1, 2, 1), 0, 1000, true));
    fs := es + [Deliver(Ask(1, 2, 1), 0, 1000, true)];
  }

  lemma FirstReplicaVoted() returns (es: seq<Event>, s: State)
    ensures Reached(es, s) && Up(s)
    ensures Voter(s.nodes[0], 1, 10000) && Candidate(s.nodes[1], 1, 1, true, 10000, 0) &&
            Candidate(s.nodes[2], 0, 0, false, 0, 0)
    ensures Ask(1, 2, 1) in s.net && AuthAck(0, 1, 1, 0) in s.net
  {
    es, s := Schedules([], Start(), 1, 10000, 0, 0, false, 0, 0);
    es, s := Asks(es, s, 1, 0, 0, 10000, 0, {0, 2});
    es, s := Votes(es, s, 1, 1, 0, 0, 10000);
  }

  lemma FirstReplicaWins() returns (es: seq<Event>, s: State)
    ensures Reached(es, s) && Up(s)
    ensures Voter(s.nodes[0], 1, 10000) && Candidate(s.nodes[2], 0, 0, false, 0, 0) && Ask(1, 2, 1) in s.net
    ensures exists w :: w in s.wins && w.name == 1 && w.epoch == 2
  {
    es, s := FirstReplicaVoted();
    es, s := Schedules(es, s, 1, 20000, 1, 1, true, 10000, 0);
    es, s := Counts(es, s, 1, 1, false, 20000, 0);
    es, s := Asks(es, s, 1, 1, 1, 20000, 1, {});
    es, s := Wins(es, s, 1, 2, 20000, 1);
  }

  lemma SecondReplicaWins(es0: seq<Event>, s0: State) returns (es: seq<Event>, s: State)
    requires Reached(es0, s0) && Up(s0)
    requires Voter(s0.nodes[0], 1, 10000) && Candidate(s0.nodes[2], 0, 0, false, 0, 0) && Ask(1, 2, 1) in s0.net
    ensures Reached(es, s) && Up(s) && (forall w | w in s0.wins :: w in s.wins)
    ensures exists w :: w in s.wins && w.name == 2 && w.epoch == 2
  {
    es, s := Hears(es0, s0);
    es, s := Schedules(es, s, 2, 20000, 1, 0, false, 0, 0);
    es, s := Asks(es, s, 2, 1, 0, 20000, 0, {0});
    es, s := Votes(es, s, 2, 2, 1, 10000, 20000);
    es, s := Counts(es, s, 2, 2, true, 20000, 0);
    es, s := Wins(es, s, 2, 2, 20000, 1);
  }

  /** Without the guard the code lets two replicas win one epoch. */
  lemma StaleAckElectsTwo() returns (s: State, es: seq<Event>)
    ensures Init(s) && Runs(s, es)
    ensures exists w, x :: w in Exec(s, es).wins && x in Exec(s, es).wins && w.epoch == x.epoch && w.name != x.name
  {
    var t: State;
    s := Start();
    es, t := FirstReplicaWins();
    var w :| w in t.wins && w.name == 1 && w.epoch == 2;
    es, t := SecondReplicaWins(es, t);
    assert w in t.wins;
  }
}
