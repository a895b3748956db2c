/** What every run of the synchronization machine guarantees. */
module SynchTheorems {
  import opened Common
  import opened Scheduler
  import opened Synch
  import opened SynchInv
  import opened SynchSafety

  // ----- Runs -----

  /** A machine just started: two threads, every lock free, every condition queue empty, and
      client semaphores with any initial values. */
  ghost predicate Initial(s: State, initial: Tid, idle: Tid) {
    && initial != idle && s.sched == Start(initial, idle)
    && s.pc == map[initial := Free, idle := Free]
    && (forall id | id in s.semas :: s.semas[id] == Sema(s.semas[id].value, [], s.semas[id].value, 0, 0))
    && (forall l | OfLock(l) in s.semas :: s.semas[OfLock(l)].value == 1)
    && (forall c | c in s.conds :: OfLock(c.lock) in s.semas && s.conds[c] == CondVar([], [], [], []))
    && s.holder == map[] && s.ticket == map[] && s.owner == map[]
  }

  lemma InitialCore(s: State, initial: Tid, idle: Tid)
    requires Initial(s, initial, idle)
    ensures Core(s)
  {
    assert BlockedSet(s.sched) == {};
  }

  lemma InitialInv(s: State, initial: Tid, idle: Tid)
    requires Initial(s, initial, idle)
    ensures Inv(s)
  {
    InitialCore(s, initial, idle);
  }

  lemma SuppliedNow(s: State, t: Tid)
    requires Conds(s)
    ensures Supplied(s, t)
  {
    if t in s.pc {
      match s.pc[t]
      case Test(WaitDown(c)) => assert WaitingOn(s.pc[t], c) && WaitStage(s, t, c);
      case Retest(WaitDown(c)) => assert WaitingOn(s.pc[t], c) && WaitStage(s, t, c);
      case WaitReleaseUp(c) => assert WaitingOn(s.pc[t], c) && WaitStage(s, t, c);
      case _ =>
    }
  }

  lemma InvNext(s: State, step: Step)
    requires Inv(s) && CanStep(s, step)
    ensures Inv(Next(s, step))
  {
    SuppliedNow(s, Cur(s));
    CoreNext(s, step);
    LocksNext(s, step);
    CondsNext(s, step);
  }

  ghost predicate CanRun(s: State, steps: seq<Step>)
    decreases |steps|
  {
    steps == [] || (CanStep(s, steps[0]) && CanRun(Next(s, steps[0]), steps[1..]))
  }

  ghost function Reach(s: State, steps: seq<Step>): State
    requires CanRun(s, steps)
    decreases |steps|
  {
    if steps == [] then s else Reach(Next(s, steps[0]), steps[1..])
  }

  /** Every state of every run satisfies the invariant. */
  lemma {:induction false} RunInv(s: State, steps: seq<Step>)
    requires Inv(s) && CanRun(s, steps)
    ensures Inv(Reach(s, steps))
    decreases |steps|
  {
    if steps != [] {
      InvNext(s, steps[0]);
      RunInv(Next(s, steps[0]), steps[1..]);
    }
  }

  /** The states some run gets to from some initial state. */
  ghost predicate Reachable(s: State) {
    exists s0: State, initial: Tid, idle: Tid, steps: seq<Step> ::
      Initial(s0, initial, idle) && CanRun(s0, steps) && Reach(s0, steps) == s
  }

  lemma ReachableInv(s: State)
    requires Reachable(s)
    ensures Inv(s)
  {
    var s0: State, initial: Tid, idle: Tid, steps: seq<Step> :|
      Initial(s0, initial, idle) && CanRun(s0, steps) && Reach(s0, steps) == s;
    InitialInv(s0, initial, idle);
    RunInv(s0, steps);
  }

  // ----- Semaphores and scheduling -----

  /** The value is the initial value plus the ups minus the completed downs; it is never lost
      and never created. */
  lemma SemaphoreAccounting(s: State, id: SemaId)
    requires Reachable(s) && id in s.semas
    ensures s.semas[id].value == s.semas[id].init + s.semas[id].ups - s.semas[id].downs
  {
    ReachableInv(s);
  }

  /** Barging loses no wakeup: while threads sleep, the units that can be had are matched by
      threads woken earlier, each running or in the ready list and about to test the value. */
  lemma NoLostWakeup(s: State, id: SemaId)
    requires Reachable(s) && id in s.semas && s.semas[id].waiters != []
    ensures |Woken(s.pc, s.semas, id)| >= s.semas[id].value
    ensures forall t | t in Woken(s.pc, s.semas, id) :: t == Cur(s) || t in s.sched.ready
  {
    ReachableInv(s);
    forall t | t in Woken(s.pc, s.semas, id)
      ensures t == Cur(s) || t in s.sched.ready
    {
      assert t in s.sched.status && t != s.sched.idle;
      assert t in BlockedSet(s.sched) ==> InWaitList(s.pc, s.semas, t);
    }
  }

  /** A thread's list element is in one list at a time: the ready list while it is ready, one
      semaphore's wait list while it is blocked. */
  lemma OneListAtATime(s: State, t: Tid, id: SemaId, other: SemaId)
    requires Reachable(s) && id in s.semas && t in s.semas[id].waiters
    ensures t in s.sched.status && s.sched.status[t] == Blocked
    ensures t !in s.sched.ready && t != Cur(s)
    ensures other in s.semas && t in s.semas[other].waiters ==> other == id
    ensures NoDup(s.semas[id].waiters)
  {
    ReachableInv(s);
    assert t in BlockedSet(s.sched);
  }

  /** Conversely a blocked thread, the idle thread apart, is always in a wait list. */
  lemma BlockedIsWaiting(s: State, t: Tid) returns (id: SemaId)
    requires Reachable(s) && t in s.sched.status && s.sched.status[t] == Blocked && t != s.sched.idle
    ensures id in s.semas && t in s.semas[id].waiters
  {
    ReachableInv(s);
    assert t in BlockedSet(s.sched);
    assert InWaitList(s.pc, s.semas, t);
    id := SemaOf(s.pc[t].op, t);
  }

  /** The ASSERT of thread_unblock holds in every sema_up, whoever calls it. */
  lemma UpsProceed(s: State, id: SemaId)
    requires Reachable(s) && id in s.semas
    ensures CanUp(s, id)
  {
    ReachableInv(s);
    UpAllowed(s, id);
  }

  lemma UpAllowed(s: State, id: SemaId)
    requires Core(s) && id in s.semas
    ensures CanUp(s, id)
  {
    var q := s.semas[id].waiters;
    if q != [] { assert q[0] in q && q[0] in BlockedSet(s.sched); }
  }

  /** No ASSERT inside an operation fails: what is under way can always go on, cond_wait holding
      the lock when it releases it and not holding it when it acquires it again, cond_broadcast
      holding it at every signal. */
  lemma OperationsProceed(s: State)
    requires Reachable(s) && Cur(s) in s.pc && s.pc[Cur(s)] != Free
    ensures CanStep(s, Continue)
    ensures s.pc[Cur(s)].WaitClear? || s.pc[Cur(s)].Broadcast? ==> Holds(s, Cur(s), s.pc[Cur(s)].c.lock)
    ensures s.pc[Cur(s)].Test? && s.pc[Cur(s)].op.Reacquire? ==> !Holds(s, Cur(s), s.pc[Cur(s)].op.c.lock)
  {
    hide Reachable, CanStep, Core, Locks, Conds, Holds;
    ReachableInv(s);
    Continues(s);
  }

  lemma Continues(s: State)
    requires Core(s) && Locks(s) && Conds(s) && Cur(s) in s.pc && s.pc[Cur(s)] != Free
    ensures CanStep(s, Continue)
    ensures s.pc[Cur(s)].WaitClear? || s.pc[Cur(s)].Broadcast? ==> Holds(s, Cur(s), s.pc[Cur(s)].c.lock)
    ensures s.pc[Cur(s)].Test? && s.pc[Cur(s)].op.Reacquire? ==> !Holds(s, Cur(s), s.pc[Cur(s)].op.c.lock)
  {
    hide Core, Locks, Conds, CanUp, Tickets, Holds;
    var t := Cur(s);
    CurIsThere(s);
    match s.pc[t]
    case Test(op) => DownAllowed(s, t, op);
    case Retest(op) => DownAllowed(s, t, op);
    case ReleaseUp(l) => LockUpAllowed(s, t, l);
    case WaitReleaseUp(c) => LockUpAllowed(s, t, c.lock);
    case WaitSetHolder(c) => ReturnAllowed(s, t, c);
    case SignalUp(c, w, _, _) => SignalAllowed(s, t, c, w);
    case WaitClear(c) => HolderAllowed(s, t, c.lock);
    case Broadcast(c, g) =>
      HolderAllowed(s, t, c.lock);
      BroadcastGoal(s, t, c, g);
    case SetHolder(_) =>
  }

  lemma CurIsThere(s: State)
    requires Core(s)
    ensures Cur(s) in s.sched.status
  {
  }

  lemma DownAllowed(s: State, t: Tid, op: DownOp)
    requires Core(s) && Locks(s) && t in s.pc && (s.pc[t] == Test(op) || s.pc[t] == Retest(op))
    ensures SemaOf(op, t) in s.semas && (op.Reacquire? ==> !Holds(s, t, op.c.lock))
  {
    assert op.Reacquire? ==> Away(s.pc[t], op.c.lock);
  }

  lemma HolderAllowed(s: State, t: Tid, l: nat)
    requires Locks(s) && t in s.pc && NeedsHolder(s.pc[t], l)
    ensures Holds(s, t, l)
  {
  }

  lemma ReturnAllowed(s: State, t: Tid, c: Cond)
    requires Conds(s) && t in s.pc && s.pc[t] == WaitSetHolder(c)
    ensures c in s.conds && t in s.ticket
  {
    assert Reacquiring(s.pc[t], c);
  }

  lemma LockUpAllowed(s: State, t: Tid, l: nat)
    requires Core(s) && Locks(s) && Inside(s, t, l)
    ensures CanUp(s, OfLock(l))
  {
    UpAllowed(s, OfLock(l));
  }

  lemma SignalAllowed(s: State, t: Tid, c: Cond, w: Waiter)
    requires Core(s) && Conds(s) && t in s.pc && SendsTo(s.pc[t], c, w)
    ensures CanUp(s, OfWaiter(w.t))
  {
    assert SendOk(s, c, w);
    assert WaitingOn(s.pc[w.t], c) && WaitStage(s, w.t, c);
    UpAllowed(s, OfWaiter(w.t));
  }

  /** The machine drives the scheduler only through legal scheduler steps, so what is proved
      of scheduler runs, round robin in particular, holds of its runs. */
  lemma SchedulerRefined(s: State, step: Step) returns (steps: seq<SchedStep>)
    requires Reachable(s) && CanStep(s, step)
    ensures |steps| <= 1 && Legal(s.sched, steps) && After(s.sched, steps) == Next(s, step).sched
  {
    ReachableInv(s);
    steps := StepRefined(s, step);
  }

  lemma StepRefined(s: State, step: Step) returns (steps: seq<SchedStep>)
    requires Core(s) && CanStep(s, step)
    ensures |steps| <= 1 && Legal(s.sched, steps) && After(s.sched, steps) == Next(s, step).sched
  {
    steps := [];
    match step
    case Preempt => steps := [StepYield];
    case IdleBlock => steps := [StepBlock];
    case Spawn(t) => steps := [StepCreate(t)];
    case Die => steps := [StepExit];
    case CallDown(n) => steps := AttemptRefined(s, PlainDown(n));
    case CallTryDown(n) => if s.semas[Client(n)].value > 0 { steps := AttemptRefined(s, PlainDown(n)); }
    case CallAcquire(l) => steps := AttemptRefined(s, Acquire(l));
    case CallTryAcquire(l) => if s.semas[OfLock(l)].value > 0 { steps := AttemptRefined(s, Acquire(l)); }
    case InterruptUp(n) => steps := UpRefined(s, Client(n));
    case CallUp(n) => steps := UpRefined(s, Client(n));
    case Continue => steps := ProceedRefined(s);
    case _ =>
  }

  lemma AttemptRefined(s: State, op: DownOp) returns (steps: seq<SchedStep>)
    requires SchedPart(s) && SemaOf(op, Cur(s)) in s.semas
    ensures |steps| <= 1 && Legal(s.sched, steps) && After(s.sched, steps) == Attempt(s, op).sched
  {
    steps := if s.semas[SemaOf(op, Cur(s))].value == 0 then [StepBlock] else [];
  }

  lemma UpRefined(s: State, id: SemaId) returns (steps: seq<SchedStep>)
    requires Core(s) && id in s.semas
    ensures |steps| <= 1 && Legal(s.sched, steps) && After(s.sched, steps) == SemaUp(s, id).sched
  {
    var q := s.semas[id].waiters;
    if q == [] { steps := []; } else {
      assert q[0] in q && q[0] in BlockedSet(s.sched);
      steps := [StepUnblock(q[0])];
    }
  }

  lemma ProceedRefined(s: State) returns (steps: seq<SchedStep>)
    requires Core(s) && CanStep(s, Continue)
    ensures |steps| <= 1 && Legal(s.sched, steps) && After(s.sched, steps) == Next(s, Continue).sched
  {
    hide SemaPart, SchedInv;
    steps := [];
    match s.pc[Cur(s)]
    case Test(op) => steps := AttemptRefined(s, op);
    case Retest(op) => steps := AttemptRefined(s, op);
    case ReleaseUp(l) => steps := UpRefined(s, OfLock(l));
    case WaitReleaseUp(c) => steps := UpRefined(s, OfLock(c.lock));
    case SignalUp(_, w, _, _) => steps := UpRefined(s, OfWaiter(w.t));
    case _ =>
  }

  // ----- Locks -----

  /** At most one thread is between taking and giving back a lock, the moments before
      lock->holder is set and after it is cleared included. */
  lemma MutualExclusion(s: State, t: Tid, u: Tid, l: nat)
    requires Reachable(s) && Inside(s, t, l) && Inside(s, u, l)
    ensures t == u
    ensures OfLock(l) in s.semas && s.semas[OfLock(l)].value == 0
  {
    ReachableInv(s);
  }

  /** A lock nobody is inside is free. */
  lemma FreeWhenUnused(s: State, l: nat)
    requires Reachable(s) && OfLock(l) in s.semas && forall t :: !Inside(s, t, l)
    ensures s.semas[OfLock(l)].value == 1
  {
    ReachableInv(s);
  }

  // ----- Condition variables -----

  /** Signals reach waits in the order the waits began: the tickets signalled are a prefix of
      the tickets that joined, the rest are exactly the ones still queued, and every wait that
      has returned did so on the signal with its own ticket. */
  lemma SignalsMatchWaits(s: State, c: Cond)
    requires Reachable(s) && c in s.conds
    ensures s.conds[c].joined == s.conds[c].sent + Tickets(s.conds[c].queue)
    ensures NoDup(s.conds[c].sent) && NoDup(s.conds[c].returned)
    ensures forall x | x in s.conds[c].returned :: x in s.conds[c].sent
  {
    ReachableInv(s);
    assert CondVarOk(s.conds[c], s.nextTicket);
    var v := s.conds[c];
    assert forall i | 0 <= i < |v.sent| :: v.joined[i] == v.sent[i];
  }

  /** cond_wait returns holding the lock, alone, and only after its own signal. */
  lemma WaitReturns(s: State, c: Cond)
    requires Reachable(s) && Cur(s) in s.pc && s.pc[Cur(s)] == WaitSetHolder(c)
    ensures CanStep(s, Continue) && Cur(s) in s.ticket && c in s.conds
    ensures s.ticket[Cur(s)] in s.conds[c].sent && s.ticket[Cur(s)] !in s.conds[c].returned
    ensures var r := Next(s, Continue);
            && r.pc[Cur(s)] == Free && Holds(r, Cur(s), c.lock)
            && forall t | Inside(r, t, c.lock) :: t == Cur(s)
  {
    ReachableInv(s);
    OperationsProceed(s);
    ReacquiredOk(s, Cur(s), c);
    InvNext(s, Continue);
    OnlyHolder(Next(s, Continue), Cur(s), c.lock);
  }

  lemma ReacquiredOk(s: State, t: Tid, c: Cond)
    requires Conds(s) && t in s.pc && s.pc[t] == WaitSetHolder(c)
    ensures Signalled(s, t, c)
  {
    assert Reacquiring(s.pc[t], c);
  }

  lemma OnlyHolder(s: State, t: Tid, l: nat)
    requires Locks(s) && Holds(s, t, l)
    ensures forall u | Inside(s, u, l) :: u == t
  {
    assert Inside(s, t, l);
  }

  /** A signal sent at any moment after the waiter joined the queue, even before it sleeps, is
      kept: once the signaller has upped the semaphore, the value is 1 and the waiter is not
      blocked. Before the signal it is 0. */
  lemma SignalIsKept(s: State, t: Tid, c: Cond)
    requires Reachable(s) && t in s.pc && WaitingOn(s.pc[t], c)
    ensures c in s.conds && t in s.ticket && OfWaiter(t) in s.semas
    ensures var w := Waiter(t, s.ticket[t]);
            && (w in s.conds[c].queue <==> w.ticket !in s.conds[c].sent)
            && s.semas[OfWaiter(t)].value
               == if w in s.conds[c].queue || Pending(s, c, w) then 0 else 1
    ensures s.semas[OfWaiter(t)].value == 1 ==> t in s.sched.status && s.sched.status[t] != Blocked
  {
    hide Reachable, Core, Locks, Conds, Pending;
    ReachableInv(s);
    LocksHolders(s);
    StageOf(s, t, c);
    if s.semas[OfWaiter(t)].value == 1 { UppedIsAwake(s, t, c); }
  }

  lemma LocksHolders(s: State)
    requires Locks(s)
    ensures Holders(s)
  {
  }

  lemma StageOf(s: State, t: Tid, c: Cond)
    requires Conds(s) && Holders(s) && t in s.pc && WaitingOn(s.pc[t], c)
    ensures c in s.conds && t in s.ticket && OfWaiter(t) in s.semas
    ensures var w := Waiter(t, s.ticket[t]);
            && (w in s.conds[c].queue <==> w.ticket !in s.conds[c].sent)
            && s.semas[OfWaiter(t)].value
               == if w in s.conds[c].queue || Pending(s, c, w) then 0 else 1
  {
    assert WaitStage(s, t, c);
    QueuedNotSent(s.conds[c], s.nextTicket, Waiter(t, s.ticket[t]));
  }

  lemma QueuedNotSent(v: CondVar, k: nat, w: Waiter)
    requires CondVarOk(v, k)
    ensures w in v.queue ==> w.ticket !in v.sent
  {
    if w in v.queue {
      var i :| 0 <= i < |v.queue| && v.queue[i] == w;
      assert v.joined[|v.sent| + i] == w.ticket;
      assert forall j | 0 <= j < |v.sent| :: v.joined[j] == v.sent[j];
    }
  }

  /** Nobody but the waiter ever sleeps on its semaphore, so a unit there keeps it awake. */
  lemma UppedIsAwake(s: State, t: Tid, c: Cond)
    requires Core(s) && OfWaiter(t) in s.semas && s.semas[OfWaiter(t)].value > 0
    requires t in s.pc && WaitingOn(s.pc[t], c)
    ensures t in s.sched.status && s.sched.status[t] != Blocked
  {
    OwnSemaphore(s.pc, s.semas, BlockedSet(s.sched), t);
    assert t in BlockedSet(s.sched) ==> InWaitList(s.pc, s.semas, t);
  }

  lemma OwnSemaphore(pc: Pcs, semas: Semas, blocked: set<Tid>, t: Tid)
    requires SemaPart(pc, semas, blocked) && OfWaiter(t) in semas && semas[OfWaiter(t)].value > 0
    ensures t !in semas[OfWaiter(t)].waiters
  {
    var id := OfWaiter(t);
    var w := Woken(pc, semas, id);
    assert forall u | u in w :: u == t;
    assert t in semas[id].waiters ==> w == {};
  }

  /** cond_broadcast: the tickets it has to reach are fixed when it starts, nobody can join
      while it runs, and when its loop ends it has signalled exactly those. */
  lemma BroadcastReleasesAll(s: State, c: Cond, goal: seq<nat>)
    requires Reachable(s) && Cur(s) in s.pc && s.pc[Cur(s)] == Broadcast(c, goal)
    ensures CanStep(s, Continue) && c in s.conds && goal == s.conds[c].joined
    ensures Next(s, Continue).pc[Cur(s)] == Free <==> s.conds[c].queue == []
    ensures s.conds[c].queue == [] ==> s.conds[c].sent == goal
  {
    ReachableInv(s);
    OperationsProceed(s);
    BroadcastGoal(s, Cur(s), c, goal);
  }

  lemma BroadcastGoal(s: State, t: Tid, c: Cond, goal: seq<nat>)
    requires Conds(s) && t in s.pc && s.pc[t] == Broadcast(c, goal)
    ensures c in s.conds && s.conds[c].joined == goal
    ensures goal == s.conds[c].sent + Tickets(s.conds[c].queue)
  {
    assert Broadcasting(s.pc[t], c, goal);
    assert CondVarOk(s.conds[c], s.nextTicket);
  }

  lemma BroadcastStarts(s: State, c: Cond)
    requires Reachable(s) && CanStep(s, CallBroadcast(c))
    ensures Next(s, CallBroadcast(c)).pc[Cur(s)]
            == Broadcast(c, s.conds[c].sent + Tickets(s.conds[c].queue))
  {
    ReachableInv(s);
    assert CondVarOk(s.conds[c], s.nextTicket);
  }
}
