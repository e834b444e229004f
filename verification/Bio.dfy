/** One background job queue of bio.c: clients that submit jobs, read the pending counter or wait for a
    step, and the worker, which gives up the lock while it runs a job.  Every access to shared memory
    is a step of its own; a condition may wake a thread at any time. */
module Bio {
  import opened Basics

  type Thread = nat

  /** Jobs are numbered in the order in which they are linked. */
  type Job = nat

  datatype Holder = Worker | Client(t: Thread)

  datatype Pc =
    | Idle
    | Adding | AddLocked | AddLinked | AddCounted
    | Reading(wait: bool) | ReadLocked(wait: bool) | Sleeping | Waking | WakeLocked

  datatype WorkerPc =
    | Starting | Looking | Dozing | Stirring
    | Running(job: Job, finished: bool) | Relocked(job: Job) | Unlinked

  /** The shared list and counter, the lock, every thread's position; `removed` and `ran` are history. */
  datatype State = State(lock: Option<Holder>, jobs: seq<Job>, pending: int, clients: map<Thread, Pc>, worker: WorkerPc,
                         removed: seq<Job>, ran: seq<Job>)

  datatype Event = Act(t: Thread, next: Pc) | Work

  function Linked(s: State): nat { |s.removed| + |s.jobs| }

  predicate Holds(pc: Pc) { pc.AddLocked? || pc.AddLinked? || pc.AddCounted? || pc.ReadLocked? || pc.WakeLocked? }

  predicate WorkerHolds(w: WorkerPc) { w.Looking? || w.Relocked? || w.Unlinked? }

  /** listDelNode of a given node. */
  function Delete(jobs: seq<Job>, j: Job): seq<Job> {
    if jobs == [] then [] else if jobs[0] == j then jobs[1..] else [jobs[0]] + Delete(jobs[1..], j)
  }

  // ---------------------------------------------------------------- steps

  /** Where a client may go next; `next` chooses what an idle client starts, and whether a reader that
      sees jobs pending sleeps or returns. */
  predicate ClientEnabled(s: State, t: Thread, next: Pc) {
    t in s.clients &&
    match s.clients[t]
    case Idle => next.Adding? || next.Reading?
    case Adding => s.lock == None && next.AddLocked?
    case AddLocked => next.AddLinked?
    case AddLinked => next.AddCounted?
    case AddCounted => next.Idle?
    case Reading(wait) => s.lock == None && next == ReadLocked(wait)
    case ReadLocked(wait) => if wait && s.pending != 0 then next.Sleeping? else next.Idle?
    case Sleeping => next.Waking?
    case Waking => s.lock == None && next.WakeLocked?
    case WakeLocked => next.Idle?
  }

  function LockAfter(s: State, t: Thread, next: Pc): Option<Holder>
    requires t in s.clients
  {
    if Holds(next) then Some(Client(t)) else if Holds(s.clients[t]) then None else s.lock
  }

  function ClientStep(s: State, t: Thread, next: Pc): State
    requires ClientEnabled(s, t, next)
  {
    var u := s.(clients := s.clients[t := next], lock := LockAfter(s, t, next));
    match s.clients[t]
    case AddLocked => u.(jobs := s.jobs + [Linked(s)])
    case AddLinked => u.(pending := s.pending + 1)
    case _ => u
  }

  predicate WorkerEnabled(s: State) {
    match s.worker
    case Starting => s.lock == None
    case Looking => true
    case Dozing => true
    case Stirring => s.lock == None
    case Running(_, finished) => finished ==> s.lock == None
    case Relocked(_) => true
    case Unlinked => true
  }

  function WorkerStep(s: State): State
    requires WorkerEnabled(s)
  {
    match s.worker
    case Starting => s.(worker := Looking, lock := Some(Worker))
    case Looking =>
      if s.jobs == [] then s.(worker := Dozing, lock := None)
      else s.(worker := Running(s.jobs[0], false), lock := None)
    case Dozing => s.(worker := Stirring)
    case Stirring => s.(worker := Looking, lock := Some(Worker))
    case Running(j, finished) =>
      if !finished then s.(worker := Running(j, true), ran := s.ran + [j])
      else s.(worker := Relocked(j), lock := Some(Worker))
    case Relocked(j) => s.(worker := Unlinked, jobs := Delete(s.jobs, j), removed := s.removed + [j])
    case Unlinked => s.(worker := Looking, pending := s.pending - 1)
  }

  predicate Enabled(s: State, e: Event) {
    match e case Act(t, next) => ClientEnabled(s, t, next) case Work => WorkerEnabled(s)
  }

  function Step(s: State, e: Event): State
    requires Enabled(s, e)
  {
    match e case Act(t, next) => ClientStep(s, t, next) case Work => WorkerStep(s)
  }

  // ---------------------------------------------------------------- invariants

  /** At most one thread is between lock and unlock, and the lock names it. */
  predicate Exclusive(s: State) {
    (WorkerHolds(s.worker) <==> s.lock == Some(Worker)) &&
    (forall t | t in s.clients :: Holds(s.clients[t]) <==> s.lock == Some(Client(t))) &&
    (s.lock.Some? && s.lock.value.Client? ==> s.lock.value.t in s.clients)
  }

  /** The counter is off by one only inside a critical section. */
  predicate CounterExact(s: State) {
    s.pending == |s.jobs| +
      (if s.worker.Unlinked? then 1
       else if s.lock.Some? && s.lock.value.Client? && s.lock.value.t in s.clients
               && s.clients[s.lock.value.t].AddLinked? then -1
       else 0)
  }

  function Ordinals(n: nat): seq<Job> { seq(n, i => i) }

  /** Jobs were removed in the order in which they were linked, and the rest is queued in that order. */
  predicate InOrder(s: State) { s.removed + s.jobs == Ordinals(Linked(s)) }

  /** The job taken before unlocking stays at the head until it is removed. */
  predicate HeadKept(s: State) {
    match s.worker
    case Running(j, _) => s.jobs != [] && s.jobs[0] == j
    case Relocked(j) => s.jobs != [] && s.jobs[0] == j
    case _ => true
  }

  /** What has run is what was removed, and the job at hand once it has finished. */
  predicate RanExact(s: State) {
    s.ran == s.removed +
      match s.worker
      case Running(j, finished) => (if finished then [j] else [])
      case Relocked(j) => [j]
      case _ => []
  }

  predicate Inv(s: State) { Exclusive(s) && CounterExact(s) && InOrder(s) && HeadKept(s) && RanExact(s) }

  predicate Init(s: State) {
    s.lock == None && s.jobs == [] && s.pending == 0 && s.worker == Starting && s.removed == [] && s.ran == [] &&
    forall t | t in s.clients :: s.clients[t].Idle?
  }

  lemma {:induction false} InitInv(s: State)
    requires Init(s)
    ensures Inv(s)
  {}

  lemma {:induction false} StepExclusive(s: State, e: Event)
    requires Exclusive(s) && Enabled(s, e)
    ensures Exclusive(Step(s, e))
  {}

  lemma {:induction false} ClientKeepsRest(s: State, t: Thread, next: Pc)
    requires Inv(s) && ClientEnabled(s, t, next)
    ensures var u := ClientStep(s, t, next); CounterExact(u) && InOrder(u) && HeadKept(u) && RanExact(u)
  {
    if s.clients[t].AddLocked? {
      assert s.removed + (s.jobs + [Linked(s)]) == s.removed + s.jobs + [Linked(s)];
    }
  }

  lemma {:induction false} WorkerKeepsRest(s: State)
    requires Inv(s) && WorkerEnabled(s)
    ensures var u := WorkerStep(s); CounterExact(u) && InOrder(u) && HeadKept(u) && RanExact(u)
  {
    if s.worker.Relocked? {
      assert s.removed + [s.jobs[0]] + s.jobs[1..] == s.removed + s.jobs;
    }
  }

  lemma {:induction false} StepKeepsInv(s: State, e: Event)
    requires Inv(s) && Enabled(s, e)
    ensures Inv(Step(s, e))
  {
    hide Exclusive, CounterExact, InOrder, HeadKept, RanExact, ClientStep, WorkerStep;
    StepExclusive(s, e);
    match e
    case Act(t, next) => ClientKeepsRest(s, t, next);
    case Work => WorkerKeepsRest(s);
  }

  predicate Runs(s: State, es: seq<Event>)
    decreases |es|
  {
    es == [] || (Enabled(s, es[0]) && Runs(Step(s, es[0]), es[1..]))
  }

  function Run(s: State, es: seq<Event>): State
    requires Runs(s, es)
    decreases |es|
  {
    if es == [] then s else Run(Step(s, es[0]), es[1..])
  }

  lemma {:induction false} RunKeepsInv(s: State, es: seq<Event>)
    requires Inv(s) && Runs(s, es)
    ensures Inv(Run(s, es))
    decreases |es|
  {
    hide Inv, Step, Enabled;
    if es != [] {
      StepKeepsInv(s, es[0]);
      RunKeepsInv(Step(s, es[0]), es[1..]);
    }
  }

  // ---------------------------------------------------------------- what every run gives

  lemma {:induction false} RanInOrder(s: State)
    requires Inv(s)
    ensures |s.ran| <= Linked(s) && s.ran == Ordinals(|s.ran|)
  {
    var all := s.removed + s.jobs;
    assert s.removed == all[..|s.removed|];
    if |s.ran| > |s.removed| { assert s.ran == all[..|s.removed| + 1]; }
  }

  /** In every interleaving: the counter is the length of the queue whenever the lock is free, jobs run
      once each in the order they were submitted, and a client that reads the counter as zero knows that
      every job submitted before has finished. */
  lemma {:induction false} QueueIsSound(s: State, es: seq<Event>)
    requires Init(s) && Runs(s, es)
    ensures var u := Run(s, es);
            (u.lock == None ==> u.pending == |u.jobs|) &&
            u.ran == Ordinals(|u.ran|) && |u.ran| <= Linked(u) &&
            (forall t | t in u.clients && (u.clients[t].ReadLocked? || u.clients[t].WakeLocked?) && u.pending == 0 ::
               |u.ran| == Linked(u))
  {
    hide Run, Runs;
    InitInv(s);
    RunKeepsInv(s, es);
    RanInOrder(Run(s, es));
  }

  /** A job that has not finished keeps the counter away from zero for everyone who reads it. */
  lemma {:induction false} PendingUntilDone(s: State, job: Job)
    requires Inv(s) && job < Linked(s) && !s.worker.Unlinked?
    requires s.lock == None ||
             (s.lock.value.Client? && s.lock.value.t in s.clients && !s.clients[s.lock.value.t].AddLinked?)
    ensures job !in s.ran ==> s.pending > 0
  {
    RanInOrder(s);
    if s.pending <= 0 {
      assert |s.ran| == Linked(s);
      assert s.ran[job] == job;
    }
  }

  // ---------------------------------------------------------------- waiting, and getting done

  /** An idle client can submit a job when the lock is free: it is queued last and counted. */
  lemma {:induction false} ClientSubmits(s: State, t: Thread) returns (es: seq<Event>)
    requires t in s.clients && s.clients[t].Idle? && s.lock == None
    ensures Runs(s, es)
    ensures Run(s, es) == s.(jobs := s.jobs + [Linked(s)], pending := s.pending + 1)
  {
    hide Runs, Run;
    var s1 := Step(s, Act(t, Adding));
    var s2 := Step(s1, Act(t, AddLocked));
    var s3 := Step(s2, Act(t, AddLinked));
    var s4 := Step(s3, Act(t, AddCounted));
    var s5 := Step(s4, Act(t, Idle));
    assert s5 == s.(jobs := s.jobs + [Linked(s)], pending := s.pending + 1);
    Halts(s5);
    es := [];
    Preceded(s4, Act(t, Idle), es);
    es := [Act(t, Idle)] + es;
    Preceded(s3, Act(t, AddCounted), es);
    es := [Act(t, AddCounted)] + es;
    Preceded(s2, Act(t, AddLinked), es);
    es := [Act(t, AddLinked)] + es;
    Preceded(s1, Act(t, AddLocked), es);
    es := [Act(t, AddLocked)] + es;
    Preceded(s, Act(t, Adding), es);
    es := [Act(t, Adding)] + es;
  }

  /** And it can read the counter, waiting or not; it returns at once if nothing is pending. */
  lemma {:induction false} ClientReads(s: State, t: Thread, wait: bool) returns (es: seq<Event>)
    requires t in s.clients && s.clients[t].Idle? && s.lock == None
    ensures Runs(s, es)
    ensures Run(s, es) == if wait && s.pending != 0 then s.(clients := s.clients[t := Sleeping]) else s
  {
    hide Runs, Run;
    var last := if wait && s.pending != 0 then Sleeping else Idle;
    var s1 := Step(s, Act(t, Reading(wait)));
    var s2 := Step(s1, Act(t, ReadLocked(wait)));
    var s3 := Step(s2, Act(t, last));
    assert s3 == s.(clients := s.clients[t := last]) && s.clients[t := Idle] == s.clients;
    Halts(s3);
    es := [];
    Preceded(s2, Act(t, last), es);
    es := [Act(t, last)] + es;
    Preceded(s1, Act(t, ReadLocked(wait)), es);
    es := [Act(t, ReadLocked(wait))] + es;
    Preceded(s, Act(t, Reading(wait)), es);
    es := [Act(t, Reading(wait))] + es;
  }

  /** A sleeper that is woken gets the lock and returns when it is free. */
  lemma {:induction false} SleeperReturns(s: State, t: Thread) returns (es: seq<Event>)
    requires t in s.clients && s.clients[t].Sleeping? && s.lock == None
    ensures Runs(s, es) && Run(s, es) == s.(clients := s.clients[t := Idle])
  {
    hide Runs, Run;
    var s1 := Step(s, Act(t, Waking));
    var s2 := Step(s1, Act(t, WakeLocked));
    var s3 := Step(s2, Act(t, Idle));
    assert s3 == s.(clients := s.clients[t := Idle]);
    Halts(s3);
    es := [];
    Preceded(s2, Act(t, Idle), es);
    es := [Act(t, Idle)] + es;
    Preceded(s1, Act(t, WakeLocked), es);
    es := [Act(t, WakeLocked)] + es;
    Preceded(s, Act(t, Waking), es);
    es := [Act(t, Waking)] + es;
  }

  lemma {:induction false} Preceded(s: State, e: Event, es: seq<Event>)
    requires Enabled(s, e) && Runs(Step(s, e), es)
    ensures Runs(s, [e] + es) && Run(s, [e] + es) == Run(Step(s, e), es)
  {
    hide Step, Enabled;
    var all := [e] + es;
    assert all[0] == e && all[1..] == es;
  }

  /** How far the worker is from removing the first job. */
  function Distance(w: WorkerPc): nat {
    match w
    case Unlinked => 8
    case Dozing => 7
    case Stirring => 6
    case Starting => 6
    case Looking => 5
    case Running(_, finished) => if finished then 3 else 4
    case Relocked(_) => 2
  }

  predicate OnlyWork(es: seq<Event>) { forall i | 0 <= i < |es| :: es[i].Work? }

  /** With no client holding the lock, the worker by itself runs every job there is, in order, and brings
      the counter to zero. */
  lemma {:induction false} WorkerDrains(s: State) returns (es: seq<Event>)
    requires Inv(s) && (s.lock.Some? ==> s.lock.value.Worker?)
    ensures OnlyWork(es) && Runs(s, es)
    ensures var u := Run(s, es);
            u.jobs == [] && u.pending == 0 && u.ran == Ordinals(Linked(s)) && u.clients == s.clients
    decreases |s.jobs|, Distance(s.worker)
  {
    hide Runs, Run, InOrder, RanExact;
    if s.jobs == [] && !s.worker.Unlinked? {
      es := [];
      Halts(s);
      AllRan(s);
    } else {
      WorkerGoesOn(s);
      var t := WorkerStep(s);
      StepKeepsInv(s, Work);
      var rest := WorkerDrains(t);
      Preceded(s, Work, rest);
      es := [Work] + rest;
    }
  }

  lemma Halts(s: State)
    ensures Runs(s, []) && Run(s, []) == s
  {}

  lemma {:induction false} AllRan(s: State)
    requires Inv(s) && s.jobs == [] && !s.worker.Unlinked?
    ensures s.ran == Ordinals(Linked(s))
  {
    assert s.removed + [] == s.removed;
  }

  lemma {:induction false} WorkerGoesOn(s: State)
    requires Inv(s) && (s.lock.Some? ==> s.lock.value.Worker?) && (s.jobs != [] || s.worker.Unlinked?)
    ensures WorkerEnabled(s)
    ensures var t := WorkerStep(s);
            && (t.lock.Some? ==> t.lock.value.Worker?) && t.clients == s.clients && Linked(t) == Linked(s)
            && (|t.jobs| < |s.jobs| || (t.jobs == s.jobs && Distance(t.worker) < Distance(s.worker)))
  {
    hide InOrder, RanExact, CounterExact;
  }
}
