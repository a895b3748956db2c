/** What the steps of the synchronization machine do, said in terms of the values and wait lists of
    semaphores, the status of threads, the ready list, lock holders and condition queues; and what
    that adds up to over a run, counted in the steps of the run. */
module SynchLaws {
  import opened Common
  import opened Scheduler
  import opened Synch
  import opened SynchInv
  import opened SynchSafety
  import opened SynchTheorems

  // ----- What a step changes -----

  ghost predicate OtherSemasSame(s: State, r: State, id: SemaId) {
    r.semas.Keys == s.semas.Keys && forall other | other in s.semas && other != id :: r.semas[other] == s.semas[other]
  }

  ghost predicate OtherPcsSame(s: State, r: State, t: Tid) {
    r.pc.Keys == s.pc.Keys && forall u | u in s.pc && u != t :: r.pc[u] == s.pc[u]
  }

  /** Locks and condition variables are as before. */
  ghost predicate LocksAndCondsSame(s: State, r: State) {
    r.holder == s.holder && r.conds == s.conds && r.ticket == s.ticket && r.nextTicket == s.nextTicket
  }

  ghost predicate OtherStatusSame(a: Sched, b: Sched, t: Tid, u: Tid) {
    && a.status.Keys == b.status.Keys && (forall x | x in a.status && x != t && x != u :: b.status[x] == a.status[x])
    && b.idle == a.idle && b.initial == a.initial && b.freed == a.freed
  }

  /** Thread t, blocked before, is the last one in the ready list now. */
  ghost predicate Wakes(a: Sched, b: Sched, t: Tid) {
    && t in a.status && a.status[t] == Blocked && b.status.Keys == a.status.Keys && b.status[t] == Ready
    && b.cur == a.cur && b.ready == a.ready + [t] && OtherStatusSame(a, b, t, t)
  }

  /** The running thread gets status st, and the processor goes to the first thread of q, or to the
      idle thread if there is none. */
  ghost predicate Passes(a: Sched, b: Sched, st: Status, q: seq<Tid>) {
    && b.cur == (if q == [] then a.idle else q[0]) && b.ready == (if q == [] then [] else q[1..])
    && OtherStatusSame(a, b, a.cur, b.cur) && b.cur in b.status && b.status[b.cur] == Running
    && (a.cur != b.cur ==> a.cur in b.status && b.status[a.cur] == st)
  }

  /** sema_up: one unit more, and the first thread of the wait list is off it and ready. */
  ghost predicate Upped(s: State, r: State, id: SemaId) {
    && id in s.semas && OtherSemasSame(s, r, id) && r.semas[id].value == s.semas[id].value + 1
    && if s.semas[id].waiters == [] then r.semas[id].waiters == [] && r.sched == s.sched
       else
         && s.semas[id].waiters == [s.semas[id].waiters[0]] + r.semas[id].waiters
         && Wakes(s.sched, r.sched, s.semas[id].waiters[0])
  }

  /** One unit less, and nobody else notices. */
  ghost predicate TookUnit(s: State, r: State, id: SemaId) {
    && id in s.semas && OtherSemasSame(s, r, id) && r.sched == s.sched
    && r.semas[id].value == s.semas[id].value - 1 && r.semas[id].waiters == s.semas[id].waiters
  }

  /** The running thread is the last one in the wait list, blocked, and another one runs. */
  ghost predicate WentToSleep(s: State, r: State, id: SemaId) {
    && id in s.semas && OtherSemasSame(s, r, id) && Passes(s.sched, r.sched, Blocked, s.sched.ready)
    && r.semas[id].value == s.semas[id].value && r.semas[id].waiters == s.semas[id].waiters + [Cur(s)]
  }

  /** sema_down takes a unit and goes on at `done`, or sleeps to test again. */
  ghost predicate Downed(s: State, r: State, id: SemaId, op: DownOp, done: Pc) {
    && id in s.semas && LocksAndCondsSame(s, r) && OtherPcsSame(s, r, Cur(s)) && Cur(s) in r.pc
    && if s.semas[id].value > 0 then TookUnit(s, r, id) && r.pc[Cur(s)] == done
       else WentToSleep(s, r, id) && r.pc[Cur(s)] == Retest(op)
  }

  // ----- The pieces, one by one -----

  function One(b: bool): nat {
    if b then 1 else 0
  }

  lemma UpPiece(s: State, up: SemaId, id: SemaId)
    requires up in s.semas && id in s.semas
    ensures SemaUp(s, up).pc == s.pc && SemaUp(s, up).conds == s.conds && SemaUp(s, up).sched.cur == Cur(s)
    ensures id in SemaUp(s, up).semas && SemaUp(s, up).semas[id].value == s.semas[id].value + One(id == up)
  {
    var m := s.semas[up];
    if m.waiters == [] {
      assert SemaUp(s, up) == s.(semas := s.semas[up := m.(value := m.value + 1, ups := m.ups + 1)]);
    }
  }

  lemma AttemptPiece(s: State, op: DownOp, id: SemaId)
    requires SemaOf(op, Cur(s)) in s.semas && Cur(s) in s.sched.status && id in s.semas
    ensures var r, test := Attempt(s, op), SemaOf(op, Cur(s));
            && r.conds == s.conds && Cur(s) in r.pc && r.pc == s.pc[Cur(s) := r.pc[Cur(s)]]
            && r.pc[Cur(s)] == (if s.semas[test].value > 0 then AfterDown(op) else Retest(op))
            && id in r.semas && r.semas[id].value + One(id == test && s.semas[id].value > 0) == s.semas[id].value
  {
    hide Block;
  }

  // ----- Every step -----

  lemma ReachableParts(s: State)
    requires Reachable(s)
    ensures Inv(s) && SchedInv(s.sched) && s.pc.Keys == s.sched.status.Keys
  {
    ReachableInv(s);
  }

  lemma PassesNow(a: Sched, st: Status, q: seq<Tid>)
    requires a.cur in a.status && st != Running && st != Dying && a.idle in a.status && forall t | t in q :: t in a.status
    ensures Passes(a, Schedule(a.(ready := q, status := a.status[a.cur := st])), st, q)
  {
    if q != [] { assert q[0] in q; }
  }

  lemma WaiterBlocked(s: State, id: SemaId)
    requires Inv(s) && id in s.semas && s.semas[id].waiters != []
    ensures s.semas[id].waiters[0] in s.sched.status && s.sched.status[s.semas[id].waiters[0]] == Blocked
  {
    hide Locks, Conds;
    UpAllowed(s, id);
  }

  lemma UppedNow(s: State, id: SemaId)
    requires Inv(s) && id in s.semas
    ensures Upped(s, SemaUp(s, id), id)
    ensures SemaUp(s, id).pc == s.pc && SemaUp(s, id).owner == s.owner && LocksAndCondsSame(s, SemaUp(s, id))
  {
    hide Inv;
    if s.semas[id].waiters != [] {
      WaiterBlocked(s, id);
    }
  }

  lemma SleepsNow(s: State, op: DownOp, id: SemaId)
    requires SchedInv(s.sched) && id == SemaOf(op, Cur(s)) && id in s.semas && s.semas[id].value == 0
    ensures WentToSleep(s, Attempt(s, op), id)
  {
    var a := s.sched;
    PassesNow(a, Blocked, a.ready);
    assert a.(ready := a.ready, status := a.status[a.cur := Blocked]) == a.(status := a.status[a.cur := Blocked]);
  }

  lemma DownedNow(s: State, op: DownOp, id: SemaId, done: Pc)
    requires SchedInv(s.sched) && Cur(s) in s.sched.status && Cur(s) in s.pc
    requires id == SemaOf(op, Cur(s)) && id in s.semas && done == AfterDown(op)
    ensures Downed(s, Attempt(s, op), id, op, done)
  {
    hide WentToSleep, TookUnit, SchedInv, Attempt;
    AttemptPiece(s, op, id);
    AttemptKeeps(s, op);
    if s.semas[id].value == 0 { SleepsNow(s, op, id); } else { TakesNow(s, op, id); }
  }

  lemma TakesNow(s: State, op: DownOp, id: SemaId)
    requires Cur(s) in s.sched.status && id == SemaOf(op, Cur(s)) && id in s.semas && s.semas[id].value > 0
    ensures TookUnit(s, Attempt(s, op), id)
  {
    hide Block;
  }

  lemma AttemptKeeps(s: State, op: DownOp)
    requires SemaOf(op, Cur(s)) in s.semas && Cur(s) in s.sched.status
    ensures LocksAndCondsSame(s, Attempt(s, op))
  {
    hide Block;
  }

  // Semaphores.

  /** sema_up, called by a thread or in an interrupt. */
  lemma UpLaw(s: State, step: Step, n: nat)
    requires Reachable(s) && CanStep(s, step) && (step == CallUp(n) || step == InterruptUp(n))
    ensures Upped(s, Next(s, step), Client(n)) && Next(s, step).pc == s.pc && LocksAndCondsSame(s, Next(s, step))
    ensures s.semas[Client(n)].waiters != [] ==>
              forall id | id in s.semas :: s.semas[Client(n)].waiters[0] !in Next(s, step).semas[id].waiters
  {
    hide Reachable, Inv, Upped;
    ReachableInv(s);
    UppedNow(s, Client(n));
    if s.semas[Client(n)].waiters != [] { WokenIsOff(s, Client(n)); }
  }

  /** The thread woken is in no wait list any more. */
  lemma WokenIsOff(s: State, id: SemaId)
    requires Inv(s) && id in s.semas && s.semas[id].waiters != []
    ensures forall other | other in s.semas :: s.semas[id].waiters[0] !in SemaUp(s, id).semas[other].waiters
  {
    hide Locks, Conds, Wakeups;
    var q := s.semas[id].waiters;
    assert q[0] in q && Sleeps(s.pc, q[0], id);
    TailMembers(q);
  }

  /** sema_down */
  lemma DownLaw(s: State, n: nat)
    requires Reachable(s) && CanStep(s, CallDown(n))
    ensures Downed(s, Next(s, CallDown(n)), Client(n), PlainDown(n), Free)
  {
    hide Reachable, Inv, Downed;
    ReachableParts(s);
    DownedNow(s, PlainDown(n), Client(n), Free);
  }

  /** sema_try_down */
  lemma TryDownLaw(s: State, n: nat)
    requires Reachable(s) && CanStep(s, CallTryDown(n))
    ensures var r := Next(s, CallTryDown(n));
            if s.semas[Client(n)].value > 0 then TookUnit(s, r, Client(n)) && r.pc == s.pc && LocksAndCondsSame(s, r)
            else r == s
  {
    hide Reachable, Inv;
  }

  // Locks.

  /** lock_acquire, up to the point where the semaphore is taken. */
  lemma AcquireLaw(s: State, l: nat)
    requires Reachable(s) && CanStep(s, CallAcquire(l))
    ensures Downed(s, Next(s, CallAcquire(l)), OfLock(l), Acquire(l), SetHolder(l))
  {
    hide Reachable, Inv, Downed;
    ReachableParts(s);
    DownedNow(s, Acquire(l), OfLock(l), SetHolder(l));
  }

  /** lock_try_acquire up to that point; it takes the lock exactly if nobody is inside. */
  lemma TryAcquireLaw(s: State, l: nat)
    requires Reachable(s) && CanStep(s, CallTryAcquire(l))
    ensures var r := Next(s, CallTryAcquire(l));
            && (if s.semas[OfLock(l)].value > 0
                then Downed(s, r, OfLock(l), Acquire(l), SetHolder(l)) else r == s)
            && (s.semas[OfLock(l)].value > 0 <==> forall t :: !Inside(s, t, l))
  {
    hide Reachable, Inv, Downed, Inside;
    ReachableParts(s);
    DownedNow(s, Acquire(l), OfLock(l), SetHolder(l));
    if forall t :: !Inside(s, t, l) { FreeWhenUnused(s, l); }
    if t :| Inside(s, t, l) { MutualExclusion(s, t, t, l); }
  }

  /** The end of lock_acquire and lock_try_acquire: the thread holds the lock, alone. */
  lemma HolderLaw(s: State, l: nat)
    requires Reachable(s) && CanStep(s, Continue) && s.pc[Cur(s)] == SetHolder(l)
    ensures var r := Next(s, Continue);
            && r.holder == s.holder[l := Cur(s)] && r.pc == s.pc[Cur(s) := Free]
            && r.sched == s.sched && r.semas == s.semas && r.conds == s.conds && r.ticket == s.ticket
            && forall t | Inside(r, t, l) :: t == Cur(s)
  {
    hide Reachable, Core, Locks, Conds, Inside;
    ReachableInv(s);
    InvNext(s, Continue);
    OnlyHolder(Next(s, Continue), Cur(s), l);
  }

  /** The beginning of lock_release. */
  lemma ReleaseLaw(s: State, l: nat)
    requires Reachable(s) && CanStep(s, CallRelease(l))
    ensures var r := Next(s, CallRelease(l));
            && r.holder == s.holder - {l} && r.pc == s.pc[Cur(s) := ReleaseUp(l)]
            && r.sched == s.sched && r.semas == s.semas && r.conds == s.conds && r.ticket == s.ticket
  {
    hide Reachable;
  }

  /** Its end: the lock is free, and the first thread waiting for it is ready. */
  lemma ReleasedLaw(s: State, l: nat)
    requires Reachable(s) && CanStep(s, Continue) && s.pc[Cur(s)] == ReleaseUp(l)
    ensures var r := Next(s, Continue);
            && Upped(s, r, OfLock(l)) && r.semas[OfLock(l)].value == 1 && r.pc == s.pc[Cur(s) := Free]
            && LocksAndCondsSame(s, r) && l !in r.holder
  {
    hide Reachable, Core, Locks, Conds, Upped;
    ReachableInv(s);
    LockGiven(s, l, Free);
  }

  lemma LockGiven(s: State, l: nat, to: Pc)
    requires Inv(s) && Cur(s) in s.pc && (s.pc[Cur(s)].ReleaseUp? || s.pc[Cur(s)].WaitReleaseUp?) && PcInside(s.pc[Cur(s)], l)
    ensures OfLock(l) in s.semas && s.semas[OfLock(l)].value == 0 && l !in s.holder
    ensures Upped(s, LockUp(s, l, to), OfLock(l)) && LockUp(s, l, to).pc == s.pc[Cur(s) := to]
    ensures LocksAndCondsSame(s, LockUp(s, l, to)) && LockUp(s, l, to).semas[OfLock(l)].value == 1
  {
    hide Core, Conds;
    assert Inside(s, Cur(s), l);
    UppedNow(s, OfLock(l));
  }

  // What is under way.

  /** A sema_down that goes on, by whoever called it. */
  lemma RetestLaw(s: State, op: DownOp)
    requires Reachable(s) && CanStep(s, Continue) && (s.pc[Cur(s)] == Test(op) || s.pc[Cur(s)] == Retest(op))
    ensures var r := Next(s, Continue);
            match op
            case PlainDown(n) => Downed(s, r, Client(n), op, Free)
            case Acquire(l) => Downed(s, r, OfLock(l), op, SetHolder(l))
            case WaitDown(c) => Downed(s, r, OfWaiter(Cur(s)), op, Test(Reacquire(c)))
            case Reacquire(c) => Downed(s, r, OfLock(c.lock), op, WaitSetHolder(c))
  {
    hide Reachable, Inv, Downed;
    ReachableParts(s);
    DownedNow(s, op, SemaOf(op, Cur(s)), AfterDown(op));
  }

  // Condition variables.

  ghost predicate OtherCondsSame(s: State, r: State, c: Cond) {
    r.conds.Keys == s.conds.Keys && forall other | other in s.conds && other != c :: r.conds[other] == s.conds[other]
  }

  /** The beginning of cond_wait: the thread is the last one in the queue, with a ticket that was never
      used, and its semaphore is at zero. */
  lemma WaitLaw(s: State, c: Cond)
    requires Reachable(s) && CanStep(s, CallWait(c))
    ensures var r, t, v := Next(s, CallWait(c)), Cur(s), s.conds[c];
            && OtherCondsSame(s, r, c) && t in r.ticket && r.ticket == s.ticket[t := r.ticket[t]]
            && r.conds[c].queue == v.queue + [Waiter(t, r.ticket[t])]
            && r.ticket[t] !in v.joined && r.conds[c].joined == v.joined + [r.ticket[t]]
            && r.conds[c].sent == v.sent && r.conds[c].returned == v.returned
            && OfWaiter(t) in r.semas && r.semas[OfWaiter(t)].value == 0 && r.semas[OfWaiter(t)].waiters == []
            && (forall id | id in s.semas && id != OfWaiter(t) :: id in r.semas && r.semas[id] == s.semas[id])
            && r.pc == s.pc[t := WaitClear(c)] && r.holder == s.holder && r.sched == s.sched
  {
    hide Reachable, Core, Locks;
    ReachableInv(s);
    assert CondVarOk(s.conds[c], s.nextTicket);
  }

  /** Then it releases the lock. */
  lemma WaitReleasesLaw(s: State, c: Cond)
    requires Reachable(s) && CanStep(s, Continue)
    ensures s.pc[Cur(s)] == WaitClear(c) ==>
              var r := Next(s, Continue);
              && r.holder == s.holder - {c.lock} && r.pc == s.pc[Cur(s) := WaitReleaseUp(c)]
              && r.sched == s.sched && r.semas == s.semas && r.conds == s.conds && r.ticket == s.ticket
    ensures s.pc[Cur(s)] == WaitReleaseUp(c) ==>
              var r := Next(s, Continue);
              && Upped(s, r, OfLock(c.lock)) && r.semas[OfLock(c.lock)].value == 1
              && r.pc == s.pc[Cur(s) := Test(WaitDown(c))] && LocksAndCondsSame(s, r) && c.lock !in r.holder
  {
    hide Reachable, Core, Locks, Conds, Upped;
    ReachableInv(s);
    if s.pc[Cur(s)] == WaitReleaseUp(c) { LockGiven(s, c.lock, Test(WaitDown(c))); }
  }

  /** And in the end, signalled and having taken the semaphore of the lock, it holds it again. */
  lemma WaitEndsLaw(s: State, c: Cond)
    requires Reachable(s) && CanStep(s, Continue) && s.pc[Cur(s)] == WaitSetHolder(c)
    ensures var r, v := Next(s, Continue), s.conds[c];
            && r.holder == s.holder[c.lock := Cur(s)] && r.pc == s.pc[Cur(s) := Free] && OtherCondsSame(s, r, c)
            && r.conds[c].queue == v.queue && r.conds[c].joined == v.joined && r.conds[c].sent == v.sent
            && r.conds[c].returned == v.returned + [s.ticket[Cur(s)]]
            && r.sched == s.sched && r.semas == s.semas && r.ticket == s.ticket
  {
    hide Reachable;
  }

  /** The first waiter, if there is one, leaves the queue, and the running thread is about to up its
      semaphore. */
  ghost predicate Picked(s: State, r: State, c: Cond, all: bool) {
    && c in s.conds && OtherCondsSame(s, r, c) && s.conds[c].queue != []
    && var v, w := s.conds[c], s.conds[c].queue[0];
       && v.queue == [w] + r.conds[c].queue && r.conds[c].sent == v.sent + [w.ticket]
       && r.conds[c].joined == v.joined && r.conds[c].returned == v.returned
       && OtherPcsSame(s, r, Cur(s)) && Cur(s) in r.pc && r.pc[Cur(s)].SignalUp?
       && r.pc[Cur(s)].c == c && r.pc[Cur(s)].w == w && r.pc[Cur(s)].all == all
       && r.sched == s.sched && r.semas == s.semas && r.holder == s.holder && r.ticket == s.ticket
  }

  /** cond_signal, up to the sema_up. */
  lemma SignalLaw(s: State, c: Cond)
    requires Reachable(s) && CanStep(s, CallSignal(c))
    ensures var r := Next(s, CallSignal(c));
            if s.conds[c].queue == [] then r == s else Picked(s, r, c, false)
  {
    hide Reachable;
  }

  /** The sema_up of a signal: the value of the waiter's semaphore is 1, which it was not before, the
      waiter is not blocked, and if it slept it is the last one in the ready list. */
  lemma SignalUpLaw(s: State)
    requires Reachable(s) && CanStep(s, Continue) && s.pc[Cur(s)].SignalUp?
    ensures var r, p := Next(s, Continue), s.pc[Cur(s)];
            && Upped(s, r, OfWaiter(p.w.t)) && r.semas[OfWaiter(p.w.t)].value == 1
            && p.w.t in r.sched.status && r.sched.status[p.w.t] != Blocked
            && LocksAndCondsSame(s, r) && OtherPcsSame(s, r, Cur(s))
            && (if p.all then r.pc[Cur(s)] == Broadcast(p.c, p.goal) else r.pc[Cur(s)] == Free)
  {
    hide Reachable, Core, Locks, Conds, Upped;
    var p, r := s.pc[Cur(s)], Next(s, Continue);
    ReachableInv(s);
    UppedNow(s, OfWaiter(p.w.t));
    assert Upped(s, r, OfWaiter(p.w.t)) && r.semas[OfWaiter(p.w.t)].value == s.semas[OfWaiter(p.w.t)].value + 1 by {
      UppedWithPc(s, SemaUp(s, OfWaiter(p.w.t)), r, OfWaiter(p.w.t));
    }
    SentIsWaiting(s, Cur(s), p.c, p.w);
    InvNext(s, Continue);
    UppedIsAwake(r, p.w.t, p.c);
  }

  lemma UppedWithPc(s: State, a: State, r: State, id: SemaId)
    requires Upped(s, a, id) && r.semas == a.semas && r.sched == a.sched
    ensures Upped(s, r, id) && id in r.semas && r.semas[id].value == s.semas[id].value + 1
  {
    hide Wakes;
  }

  /** Whoever a signal is on its way to waits on the condition variable, with nothing in its semaphore. */
  lemma SentIsWaiting(s: State, t: Tid, c: Cond, w: Waiter)
    requires Inv(s) && t in s.pc && SendsTo(s.pc[t], c, w)
    ensures w.t in s.pc && WaitingOn(s.pc[w.t], c) && w.t != t && OfWaiter(w.t) in s.semas && s.semas[OfWaiter(w.t)].value == 0
  {
    hide Core, Locks;
    HolderAllowed(s, t, c.lock);
    assert SendOk(s, c, w);
    assert WaitStage(s, w.t, c);
  }

  /** cond_broadcast begins, */
  lemma BroadcastLaw(s: State, c: Cond)
    requires Reachable(s) && CanStep(s, CallBroadcast(c))
    ensures var r := Next(s, CallBroadcast(c));
            && OtherPcsSame(s, r, Cur(s)) && r.pc[Cur(s)].Broadcast? && r.pc[Cur(s)].c == c
            && r.sched == s.sched && r.semas == s.semas && r.holder == s.holder && r.conds == s.conds && r.ticket == s.ticket
  {
    hide Reachable;
  }

  /** and signals the first waiter as long as there is one. */
  lemma BroadcastTurnLaw(s: State, c: Cond)
    requires Reachable(s) && CanStep(s, Continue) && s.pc[Cur(s)].Broadcast? && s.pc[Cur(s)].c == c
    ensures var r := Next(s, Continue);
            if s.conds[c].queue == [] then r == s.(pc := s.pc[Cur(s) := Free]) else Picked(s, r, c, true)
  {
    hide Reachable;
  }

  // Scheduling.

  /** A timer interrupt sends the running thread to the end of the ready list. */
  lemma PreemptLaw(s: State)
    requires Reachable(s) && CanStep(s, Preempt)
    ensures var r := Next(s, Preempt);
            && Passes(s.sched, r.sched, Ready, if Cur(s) == s.sched.idle then s.sched.ready else s.sched.ready + [Cur(s)])
            && r == s.(sched := r.sched)
  {
    hide Reachable, Inv, Passes;
    ReachableParts(s);
    var a := s.sched;
    PassesNow(a, Ready, if a.cur == a.idle then a.ready else a.ready + [a.cur]);
  }

  lemma IdleBlockLaw(s: State)
    requires Reachable(s) && CanStep(s, IdleBlock)
    ensures var r := Next(s, IdleBlock); Passes(s.sched, r.sched, Blocked, s.sched.ready) && r == s.(sched := r.sched)
  {
    hide Reachable, Inv, Passes;
    ReachableParts(s);
    var a := s.sched;
    PassesNow(a, Blocked, a.ready);
    assert a.(ready := a.ready, status := a.status[a.cur := Blocked]) == a.(status := a.status[a.cur := Blocked]);
  }

  /** A new thread is ready, the last one in the list. */
  lemma SpawnLaw(s: State, t: Tid)
    requires Reachable(s) && CanStep(s, Spawn(t))
    ensures var r := Next(s, Spawn(t));
            && t !in s.pc && r.pc == s.pc[t := Free]
            && r.sched.cur == s.sched.cur && r.sched.ready == s.sched.ready + [t] && r.sched.status == s.sched.status[t := Ready]
            && r.sched.freed == s.sched.freed && r.semas == s.semas && LocksAndCondsSame(s, r)
  {
    hide Reachable, Inv;
    ReachableParts(s);
  }

  /** A thread that exits is gone, its page freed, unless it is the initial one. The next one runs. */
  lemma DieLaw(s: State)
    requires Reachable(s) && CanStep(s, Die)
    ensures var r, t, ready := Next(s, Die), Cur(s), s.sched.ready;
            && Cur(r) == (if ready == [] then s.sched.idle else ready[0]) && Cur(r) != t
            && r.sched.ready == (if ready == [] then [] else ready[1..])
            && Cur(r) in r.sched.status && r.sched.status[Cur(r)] == Running
            && (if t == s.sched.initial
                then r.pc == s.pc && r.sched.freed == s.sched.freed && t in r.sched.status && r.sched.status[t] == Dying
                else r.pc == s.pc - {t} && r.sched.freed == s.sched.freed + [t] && t !in r.sched.status)
            && (forall u | u in s.sched.status && u != t && u != Cur(r) ::
                  u in r.sched.status && r.sched.status[u] == s.sched.status[u])
            && r.semas == s.semas && LocksAndCondsSame(s, r)
  {
    hide Reachable, Inv, Exit;
    ReachableParts(s);
    ExitIs(s.sched);
  }

  lemma ExitIs(a: Sched)
    requires SchedInv(a) && a.cur != a.idle
    ensures var b := Exit(a);
            && b.cur == (if a.ready == [] then a.idle else a.ready[0]) && b.cur != a.cur
            && b.ready == (if a.ready == [] then [] else a.ready[1..]) && b.cur in b.status && b.status[b.cur] == Running
            && (if a.cur == a.initial then b.freed == a.freed && a.cur in b.status && b.status[a.cur] == Dying
                else b.freed == a.freed + [a.cur] && a.cur !in b.status)
            && (forall u | u in a.status && u != a.cur && u != b.cur :: u in b.status && b.status[u] == a.status[u])
  {
    if a.ready != [] { assert a.ready[0] in a.ready; }
  }

  /** No step moves a thread that is not running, so what a thread is about to do it still is when it
      runs again. */
  lemma OnlyRunningMoves(s: State, step: Step, t: Tid)
    requires Reachable(s) && CanStep(s, step) && t in s.pc && t != Cur(s)
    ensures t in Next(s, step).pc && Next(s, step).pc[t] == s.pc[t]
  {
    hide *;
    ReachableInv(s);
    SpawnsNew(s, step);
    if step == Continue { ContinueMoves(s, t); } else { CallMoves(s, step, t); }
  }

  lemma SpawnsNew(s: State, step: Step)
    requires Inv(s) && CanStep(s, step)
    ensures step.Spawn? ==> step.t !in s.pc
  {
    hide Locks, Conds, SemaPart;
  }

  lemma CallMoves(s: State, step: Step, t: Tid)
    requires CanStep(s, step) && step != Continue && t in s.pc && t != Cur(s) && (step.Spawn? ==> step.t !in s.pc)
    ensures t in Next(s, step).pc && Next(s, step).pc[t] == s.pc[t]
  {
    hide Block, Yield, Exit, Unblock, CanUp, Holds, Attempt, SemaUp, Proceed;
    match step
    case CallDown(n) => AttemptPiece(s, PlainDown(n), Client(n));
    case CallTryDown(n) => AttemptPiece(s, PlainDown(n), Client(n));
    case CallAcquire(l) => AttemptPiece(s, Acquire(l), OfLock(l));
    case CallTryAcquire(l) => AttemptPiece(s, Acquire(l), OfLock(l));
    case CallUp(n) => UpStays(s, Client(n));
    case InterruptUp(n) => UpStays(s, Client(n));
    case _ =>
  }

  lemma UpStays(s: State, id: SemaId)
    requires CanUp(s, id)
    ensures SemaUp(s, id).pc == s.pc && SemaUp(s, id).conds == s.conds && SemaUp(s, id).sched.cur == Cur(s)
  {
    UpPiece(s, id, id);
  }

  lemma ContinueMoves(s: State, t: Tid)
    requires CanStep(s, Continue) && t in s.pc && t != Cur(s)
    ensures t in Next(s, Continue).pc && Next(s, Continue).pc[t] == s.pc[t]
  {
    hide CanUp, Holds, Attempt, SemaUp;
    match s.pc[Cur(s)]
    case Test(op) => AttemptPiece(s, op, SemaOf(op, Cur(s)));
    case Retest(op) => AttemptPiece(s, op, SemaOf(op, Cur(s)));
    case ReleaseUp(l) => UpStays(s, OfLock(l));
    case WaitReleaseUp(c) => UpStays(s, OfLock(c.lock));
    case SignalUp(_, w, _, _) => UpStays(s, OfWaiter(w.t));
    case _ =>
  }

  // ----- When a step is possible -----

  /** Semaphores as sema_init and lock_init leave them. */
  ghost function BootSemas(values: map<nat, nat>, locks: set<nat>): (m: Semas)
    ensures forall id | id in m :: m[id] == Sema(m[id].value, [], m[id].value, 0, 0)
    ensures forall n | n in values :: Client(n) in m && m[Client(n)].value == values[n]
    ensures forall l :: l in locks <==> OfLock(l) in m
    ensures forall l | OfLock(l) in m :: m[OfLock(l)].value == 1
  {
    var clients := map n | n in values :: Client(n) := Sema(values[n], [], values[n], 0, 0);
    var ofLocks := map l | l in locks :: OfLock(l) := Sema(1, [], 1, 0, 0);
    clients + ofLocks
  }

  /** The state after booting with the given client semaphores, locks and condition variables. */
  ghost function Boot(initial: Tid, idle: Tid, values: map<nat, nat>, locks: set<nat>, conds: set<Cond>): (s: State)
    requires initial != idle && forall c | c in conds :: c.lock in locks
    ensures Initial(s, initial, idle) && s.semas == BootSemas(values, locks) && s.conds.Keys == conds
  {
    hide BootSemas;
    State(Start(initial, idle), map[initial := Free, idle := Free], BootSemas(values, locks), map[],
          map c | c in conds :: CondVar([], [], [], []), map[], map[], 0)
  }

  /** A thread in client code can make every call whose ASSERTs hold, and no other. */
  lemma CallsPossible(s: State, n: nat, l: nat, c: Cond)
    requires Reachable(s) && Cur(s) in s.pc && s.pc[Cur(s)] == Free && Cur(s) != s.sched.idle
    ensures Client(n) in s.semas <==> CanStep(s, CallDown(n))
    ensures Client(n) in s.semas <==> CanStep(s, CallTryDown(n))
    ensures Client(n) in s.semas <==> CanStep(s, CallUp(n))
    ensures OfLock(l) in s.semas && !Holds(s, Cur(s), l) <==> CanStep(s, CallAcquire(l))
    ensures OfLock(l) in s.semas && !Holds(s, Cur(s), l) <==> CanStep(s, CallTryAcquire(l))
    ensures Holds(s, Cur(s), l) <==> CanStep(s, CallRelease(l))
    ensures c in s.conds && Holds(s, Cur(s), c.lock) <==> CanStep(s, CallWait(c))
    ensures c in s.conds && Holds(s, Cur(s), c.lock) <==> CanStep(s, CallSignal(c))
    ensures c in s.conds && Holds(s, Cur(s), c.lock) <==> CanStep(s, CallBroadcast(c))
    ensures CanStep(s, Die)
  {
    hide *;
    ReachableParts(s);
    CurIsIn(s.sched);
    if Client(n) in s.semas { UpsProceed(s, Client(n)); }
    UpNeedsSema(s, Client(n));
    if Holds(s, Cur(s), l) { HeldExists(s, Cur(s), l); }
    SemaCalls(s, n);
    LockCalls(s, l);
    CondCalls(s, c);
  }

  lemma CurIsIn(a: Sched)
    requires SchedInv(a)
    ensures a.cur in a.status
  {
  }

  lemma SemaCalls(s: State, n: nat)
    requires Cur(s) in s.pc && Cur(s) in s.sched.status && s.pc[Cur(s)] == Free && Cur(s) != s.sched.idle
    requires CanUp(s, Client(n)) <==> Client(n) in s.semas
    ensures Client(n) in s.semas <==> CanStep(s, CallDown(n))
    ensures Client(n) in s.semas <==> CanStep(s, CallTryDown(n))
    ensures Client(n) in s.semas <==> CanStep(s, CallUp(n))
    ensures CanStep(s, Die)
  {
    hide CanUp;
  }

  lemma LockCalls(s: State, l: nat)
    requires Cur(s) in s.pc && Cur(s) in s.sched.status && s.pc[Cur(s)] == Free && Cur(s) != s.sched.idle
    requires Holds(s, Cur(s), l) ==> OfLock(l) in s.semas
    ensures OfLock(l) in s.semas && !Holds(s, Cur(s), l) <==> CanStep(s, CallAcquire(l))
    ensures OfLock(l) in s.semas && !Holds(s, Cur(s), l) <==> CanStep(s, CallTryAcquire(l))
    ensures Holds(s, Cur(s), l) <==> CanStep(s, CallRelease(l))
  {
    hide Holds;
  }

  lemma CondCalls(s: State, c: Cond)
    requires Cur(s) in s.pc && Cur(s) in s.sched.status && s.pc[Cur(s)] == Free && Cur(s) != s.sched.idle
    ensures c in s.conds && Holds(s, Cur(s), c.lock) <==> CanStep(s, CallWait(c))
    ensures c in s.conds && Holds(s, Cur(s), c.lock) <==> CanStep(s, CallSignal(c))
    ensures c in s.conds && Holds(s, Cur(s), c.lock) <==> CanStep(s, CallBroadcast(c))
  {
    hide Holds;
  }

  lemma UpNeedsSema(s: State, id: SemaId)
    ensures CanUp(s, id) ==> id in s.semas
  {
  }

  lemma HeldExists(s: State, t: Tid, l: nat)
    requires Inv(s) && Holds(s, t, l)
    ensures OfLock(l) in s.semas
  {
    hide Core, Conds;
    assert Inside(s, t, l);
  }

  /** Interrupts come at any time, except between the dispatch of a thread woken in sema_down and its
      next test. The idle thread can block, and a new thread can have any number that is not taken. */
  lemma InterruptsPossible(s: State, n: nat, t: Tid)
    requires Reachable(s)
    ensures Cur(s) in s.pc
    ensures CanStep(s, Preempt) <==> !s.pc[Cur(s)].Retest?
    ensures CanStep(s, InterruptUp(n)) <==> !s.pc[Cur(s)].Retest? && Client(n) in s.semas
    ensures CanStep(s, IdleBlock) <==> Cur(s) == s.sched.idle
    ensures CanStep(s, Spawn(t)) <==> s.pc[Cur(s)] == Free && Cur(s) != s.sched.idle && t !in s.pc && t !in s.sched.freed
  {
    hide Reachable, Inv, CanUp, CanContinue;
    ReachableParts(s);
    if Client(n) in s.semas { UpsProceed(s, Client(n)); }
    UpNeedsSema(s, Client(n));
  }

  // ----- Semaphores over a run -----

  /** The step is a sema_up on this semaphore. */
  ghost predicate IsUp(s: State, step: Step, id: SemaId)
    requires CanStep(s, step)
  {
    match step
    case CallUp(n) => id == Client(n)
    case InterruptUp(n) => id == Client(n)
    case Continue =>
      (match s.pc[Cur(s)]
       case ReleaseUp(l) => id == OfLock(l)
       case WaitReleaseUp(c) => id == OfLock(c.lock)
       case SignalUp(_, w, _, _) => id == OfWaiter(w.t)
       case _ => false)
    case _ => false
  }

  /** The step tests the value of this semaphore in order to take a unit. */
  ghost predicate IsTest(s: State, step: Step, id: SemaId)
    requires CanStep(s, step)
  {
    match step
    case CallDown(n) => id == Client(n)
    case CallTryDown(n) => id == Client(n)
    case CallAcquire(l) => id == OfLock(l)
    case CallTryAcquire(l) => id == OfLock(l)
    case Continue =>
      var pc := s.pc[Cur(s)];
      (pc.Test? || pc.Retest?) &&
      (match pc.op
       case PlainDown(n) => id == Client(n)
       case Acquire(l) => id == OfLock(l)
       case WaitDown(_) => id == OfWaiter(Cur(s))
       case Reacquire(c) => id == OfLock(c.lock))
    case _ => false
  }

  /** A down is completed where the test finds a unit. */
  ghost predicate IsTake(s: State, step: Step, id: SemaId)
    requires CanStep(s, step)
  {
    IsTest(s, step, id) && id in s.semas && s.semas[id].value > 0
  }

  ghost function Ups(s: State, steps: seq<Step>, id: SemaId): (n: nat)
    requires CanRun(s, steps)
    decreases |steps|
  {
    if steps == [] then 0 else One(IsUp(s, steps[0], id)) + Ups(Next(s, steps[0]), steps[1..], id)
  }

  ghost function Takings(s: State, steps: seq<Step>, id: SemaId): (n: nat)
    requires CanRun(s, steps)
    decreases |steps|
  {
    if steps == [] then 0 else One(IsTake(s, steps[0], id)) + Takings(Next(s, steps[0]), steps[1..], id)
  }

  /** One step. The semaphore of a waiter starts anew with every cond_wait. */
  lemma UnitsStep(s: State, step: Step, id: SemaId)
    requires CanStep(s, step) && id in s.semas && !(step.CallWait? && id == OfWaiter(Cur(s)))
    ensures id in Next(s, step).semas
    ensures Next(s, step).semas[id].value + One(IsTake(s, step, id)) == s.semas[id].value + One(IsUp(s, step, id))
  {
    hide *;
    if step == Continue { ContinueUnits(s, id); } else { CallUnits(s, step, id); }
  }

  lemma CallUnits(s: State, step: Step, id: SemaId)
    requires CanStep(s, step) && step != Continue && id in s.semas && !(step.CallWait? && id == OfWaiter(Cur(s)))
    ensures id in Next(s, step).semas
    ensures Next(s, step).semas[id].value + One(IsTake(s, step, id)) == s.semas[id].value + One(IsUp(s, step, id))
  {
    hide Block, Yield, Exit, Unblock, CanUp, Holds, Attempt, SemaUp, Proceed;
    match step
    case CallDown(n) => AttemptPiece(s, PlainDown(n), id);
    case CallTryDown(n) => AttemptPiece(s, PlainDown(n), id);
    case CallAcquire(l) => AttemptPiece(s, Acquire(l), id);
    case CallTryAcquire(l) => AttemptPiece(s, Acquire(l), id);
    case CallUp(n) => UpUnits(s, Client(n), id);
    case InterruptUp(n) => UpUnits(s, Client(n), id);
    case _ =>
  }

  lemma UpUnits(s: State, up: SemaId, id: SemaId)
    requires CanUp(s, up) && id in s.semas
    ensures id in SemaUp(s, up).semas && SemaUp(s, up).semas[id].value == s.semas[id].value + One(id == up)
  {
    UpPiece(s, up, id);
  }

  lemma ContinueUnits(s: State, id: SemaId)
    requires CanStep(s, Continue) && id in s.semas
    ensures id in Next(s, Continue).semas
    ensures Next(s, Continue).semas[id].value + One(IsTake(s, Continue, id)) == s.semas[id].value + One(IsUp(s, Continue, id))
  {
    hide CanUp, Holds, Attempt, SemaUp;
    match s.pc[Cur(s)]
    case Test(op) => AttemptPiece(s, op, id);
    case Retest(op) => AttemptPiece(s, op, id);
    case ReleaseUp(l) => UpUnits(s, OfLock(l), id);
    case WaitReleaseUp(c) => UpUnits(s, OfLock(c.lock), id);
    case SignalUp(_, w, _, _) => UpUnits(s, OfWaiter(w.t), id);
    case _ =>
  }

  /** Over every run the value of a semaphore is what it was, plus the ups, minus the completed downs. */
  lemma {:induction false} UnitsAddUp(s: State, steps: seq<Step>, id: SemaId)
    requires CanRun(s, steps) && id in s.semas && !id.OfWaiter?
    ensures id in Reach(s, steps).semas
    ensures Reach(s, steps).semas[id].value == s.semas[id].value + Ups(s, steps, id) - Takings(s, steps, id)
    decreases |steps|
  {
    hide CanStep, Next, IsUp, IsTake;
    if steps != [] {
      UnitsStep(s, steps[0], id);
      UnitsAddUp(Next(s, steps[0]), steps[1..], id);
    }
  }

  /** The calls of sema_up on a client semaphore, by threads and in interrupts. */
  function UpCalls(steps: seq<Step>, n: nat): (k: nat) {
    if steps == [] then 0 else One(steps[0] == CallUp(n) || steps[0] == InterruptUp(n)) + UpCalls(steps[1..], n)
  }

  lemma {:induction false} UpsAreCalls(s: State, steps: seq<Step>, n: nat)
    requires CanRun(s, steps)
    ensures Ups(s, steps, Client(n)) == UpCalls(steps, n)
    decreases |steps|
  {
    hide CanStep, Next;
    if steps != [] {
      UpsAreCalls(Next(s, steps[0]), steps[1..], n);
    }
  }

  /** From a start on: the initial value, plus the calls of sema_up, minus the completed downs. */
  lemma ClientUnits(s: State, initial: Tid, idle: Tid, steps: seq<Step>, n: nat)
    requires Initial(s, initial, idle) && CanRun(s, steps) && Client(n) in s.semas
    ensures Client(n) in Reach(s, steps).semas
    ensures Reach(s, steps).semas[Client(n)].value
            == s.semas[Client(n)].value + UpCalls(steps, n) - Takings(s, steps, Client(n))
  {
    hide Initial, CanRun, Reach, Ups, UpCalls, Takings;
    UnitsAddUp(s, steps, Client(n));
    UpsAreCalls(s, steps, n);
  }

  /** The calls of sema_down, and of sema_try_down with success. */
  ghost function DownCalls(s: State, steps: seq<Step>, n: nat): (k: nat)
    requires CanRun(s, steps)
    decreases |steps|
  {
    if steps == [] then 0
    else One(IsDownCall(s, steps[0], n)) + DownCalls(Next(s, steps[0]), steps[1..], n)
  }

  ghost predicate IsDownCall(s: State, step: Step, n: nat) {
    step == CallDown(n) || (step == CallTryDown(n) && Client(n) in s.semas && s.semas[Client(n)].value > 0)
  }

  /** The threads inside a sema_down on the semaphore. */
  ghost function InDown(pc: Pcs, n: nat): (r: set<Tid>) {
    set t | t in pc && IsInDown(pc[t], n)
  }

  ghost predicate IsInDown(pc: Pc, n: nat) {
    pc == Test(PlainDown(n)) || pc == Retest(PlainDown(n))
  }

  /** How the threads inside change when one thread moves. */
  lemma InDownMoves(pc: Pcs, pc': Pcs, t: Tid, n: nat)
    requires t in pc && t in pc' && pc' == pc[t := pc'[t]]
    ensures |InDown(pc', n)| + One(IsInDown(pc[t], n)) == |InDown(pc, n)| + One(IsInDown(pc'[t], n))
  {
    var rest := InDown(pc, n) - {t};
    assert InDown(pc', n) - {t} == rest;
    assert InDown(pc, n) == if IsInDown(pc[t], n) then rest + {t} else rest;
    assert InDown(pc', n) == if IsInDown(pc'[t], n) then rest + {t} else rest;
  }

  lemma InDownStep(s: State, step: Step, n: nat)
    requires CanStep(s, step) && (step.Spawn? ==> step.t !in s.pc)
    ensures One(IsDownCall(s, step, n)) + |InDown(s.pc, n)| == One(IsTake(s, step, Client(n))) + |InDown(Next(s, step).pc, n)|
  {
    hide *;
    if step == Continue {
      ContinueInDown(s, n);
      MovedInDown(s, step, Next(s, step), n);
    } else if step.Spawn? || step.Die? {
      ComesOrGoes(s, step, n);
    } else {
      CallInDown(s, step, n);
      MovedInDown(s, step, Next(s, step), n);
    }
  }

  lemma ComesOrGoes(s: State, step: Step, n: nat)
    requires CanStep(s, step) && (step.Die? || (step.Spawn? && step.t !in s.pc))
    ensures One(IsDownCall(s, step, n)) + |InDown(s.pc, n)| == One(IsTake(s, step, Client(n))) + |InDown(Next(s, step).pc, n)|
  {
    hide Exit, Unblock, Attempt, SemaUp, Proceed, Enqueue, Dequeue, CanContinue, CanUp;
    assert InDown(Next(s, step).pc, n) == InDown(s.pc, n);
  }

  /** Where a step takes the running thread, as far as sema_down on this semaphore goes. */
  ghost predicate MovesInDown(s: State, step: Step, r: State, n: nat)
    requires CanStep(s, step)
  {
    && Cur(s) in r.pc && r.pc == s.pc[Cur(s) := r.pc[Cur(s)]]
    && One(IsDownCall(s, step, n)) + One(IsInDown(s.pc[Cur(s)], n))
       == One(IsTake(s, step, Client(n))) + One(IsInDown(r.pc[Cur(s)], n))
  }

  lemma MovedInDown(s: State, step: Step, r: State, n: nat)
    requires CanStep(s, step) && MovesInDown(s, step, r, n)
    ensures One(IsDownCall(s, step, n)) + |InDown(s.pc, n)| == One(IsTake(s, step, Client(n))) + |InDown(r.pc, n)|
  {
    hide InDown, IsInDown, IsDownCall, IsTake;
    InDownMoves(s.pc, r.pc, Cur(s), n);
  }

  lemma CallInDown(s: State, step: Step, n: nat)
    requires CanStep(s, step) && step != Continue && !step.Spawn? && !step.Die?
    ensures MovesInDown(s, step, Next(s, step), n)
  {
    hide *;
    if step.CallDown? || step.CallTryDown? {
      DownInDown(s, step, n);
    } else if step.CallAcquire? || step.CallTryAcquire? {
      AcquireInDown(s, step, n);
    } else {
      RestInDown(s, step, n);
    }
  }

  lemma DownInDown(s: State, step: Step, n: nat)
    requires CanStep(s, step) && (step.CallDown? || step.CallTryDown?)
    ensures MovesInDown(s, step, Next(s, step), n)
  {
    hide Attempt, CanContinue, Proceed;
    AttemptPiece(s, PlainDown(step.n), Client(step.n));
  }

  lemma AcquireInDown(s: State, step: Step, n: nat)
    requires CanStep(s, step) && (step.CallAcquire? || step.CallTryAcquire?)
    ensures MovesInDown(s, step, Next(s, step), n)
  {
    hide Attempt, CanContinue, Proceed;
    AttemptPiece(s, Acquire(step.l), OfLock(step.l));
  }

  lemma RestInDown(s: State, step: Step, n: nat)
    requires CanStep(s, step) && step != Continue && !step.Spawn? && !step.Die?
    requires !step.CallDown? && !step.CallTryDown? && !step.CallAcquire? && !step.CallTryAcquire?
    ensures MovesInDown(s, step, Next(s, step), n)
  {
    hide Block, Yield, CanUp, Holds, Attempt, SemaUp, Proceed, CanContinue;
    if step.CallUp? || step.InterruptUp? { UpStays(s, Client(step.n)); }
  }

  lemma ContinueInDown(s: State, n: nat)
    requires CanStep(s, Continue)
    ensures MovesInDown(s, Continue, Next(s, Continue), n)
  {
    hide Next, MovesInDown, CanContinue, CanUp, Holds;
    if s.pc[Cur(s)].Test? || s.pc[Cur(s)].Retest? {
      RetestInDown(s, n);
    } else {
      ElseInDown(s, n);
    }
  }

  lemma RetestInDown(s: State, n: nat)
    requires CanStep(s, Continue) && (s.pc[Cur(s)].Test? || s.pc[Cur(s)].Retest?)
    ensures MovesInDown(s, Continue, Next(s, Continue), n)
  {
    hide CanUp, Holds, Attempt, SemaUp;
    var op := s.pc[Cur(s)].op;
    AttemptPiece(s, op, SemaOf(op, Cur(s)));
  }

  lemma ElseInDown(s: State, n: nat)
    requires CanStep(s, Continue) && !s.pc[Cur(s)].Test? && !s.pc[Cur(s)].Retest?
    ensures MovesInDown(s, Continue, Next(s, Continue), n)
  {
    hide CanUp, Holds, Attempt, SemaUp;
    match s.pc[Cur(s)]
    case ReleaseUp(l) => UpStays(s, OfLock(l));
    case WaitReleaseUp(c) => UpStays(s, OfLock(c.lock));
    case SignalUp(_, w, _, _) => UpStays(s, OfWaiter(w.t));
    case _ =>
  }

  /** Every call of sema_down is completed once or still under way: none is lost, none returns twice. */
  lemma {:induction false} DownsAddUp(s: State, steps: seq<Step>, n: nat)
    requires Inv(s) && CanRun(s, steps)
    ensures DownCalls(s, steps, n) + |InDown(s.pc, n)| == Takings(s, steps, Client(n)) + |InDown(Reach(s, steps).pc, n)|
    decreases |steps|
  {
    hide CanStep, Next, Inv, IsTake, IsDownCall, InDown;
    if steps != [] {
      SpawnsNew(s, steps[0]);
      InDownStep(s, steps[0], n);
      InvNext(s, steps[0]);
      DownsAddUp(Next(s, steps[0]), steps[1..], n);
    }
  }

  /** From a start on nobody is inside. */
  lemma DownsFromStart(s: State, initial: Tid, idle: Tid, steps: seq<Step>, n: nat)
    requires Initial(s, initial, idle) && CanRun(s, steps)
    ensures DownCalls(s, steps, n) == Takings(s, steps, Client(n)) + |InDown(Reach(s, steps).pc, n)|
  {
    hide CanRun, Reach, Takings, DownCalls, Inv;
    InitialInv(s, initial, idle);
    DownsAddUp(s, steps, n);
    assert InDown(s.pc, n) == {};
  }

  // ----- Condition variables over a run -----

  /** The step takes a waiter off the queue: a cond_signal, or a turn of cond_broadcast, that finds one. */
  ghost predicate IsSignal(s: State, step: Step, c: Cond)
    requires CanStep(s, step)
  {
    && c in s.conds && s.conds[c].queue != []
    && (step == CallSignal(c) || (step == Continue && s.pc[Cur(s)].Broadcast? && s.pc[Cur(s)].c == c))
  }

  ghost predicate IsReturn(s: State, step: Step, c: Cond)
    requires CanStep(s, step)
  {
    step == Continue && s.pc[Cur(s)] == WaitSetHolder(c)
  }

  ghost function Signals(s: State, steps: seq<Step>, c: Cond): (n: nat)
    requires CanRun(s, steps)
    decreases |steps|
  {
    if steps == [] then 0 else One(IsSignal(s, steps[0], c)) + Signals(Next(s, steps[0]), steps[1..], c)
  }

  ghost function WaitsEnded(s: State, steps: seq<Step>, c: Cond): (n: nat)
    requires CanRun(s, steps)
    decreases |steps|
  {
    if steps == [] then 0 else One(IsReturn(s, steps[0], c)) + WaitsEnded(Next(s, steps[0]), steps[1..], c)
  }

  function WaitCalls(steps: seq<Step>, c: Cond): (n: nat) {
    if steps == [] then 0 else One(steps[0] == CallWait(c)) + WaitCalls(steps[1..], c)
  }

  /** One step, as the history of the condition variable shows it. */
  ghost predicate Moves(s: State, step: Step, r: State, c: Cond)
    requires CanStep(s, step) && c in s.conds
  {
    && c in r.conds
    && var v, v' := s.conds[c], r.conds[c];
       && |v'.sent| == |v.sent| + One(IsSignal(s, step, c))
       && |v'.queue| + One(IsSignal(s, step, c)) == |v.queue| + One(step == CallWait(c))
       && |v'.returned| == |v.returned| + One(IsReturn(s, step, c))
  }

  lemma SignalsStep(s: State, step: Step, c: Cond)
    requires CanStep(s, step) && c in s.conds
    ensures Moves(s, step, Next(s, step), c)
  {
    hide *;
    if step == Continue { ContinueSignals(s, c); } else { CallSignals(s, step, c); }
  }

  lemma CallSignals(s: State, step: Step, c: Cond)
    requires CanStep(s, step) && step != Continue && c in s.conds
    ensures Moves(s, step, Next(s, step), c)
  {
    hide CanStep, Block, Yield, Exit, Unblock, Attempt, SemaUp, Proceed, Enqueue, Dequeue;
    CondThere(s, step);
    match step
    case CallWait(d) => EnqueuePiece(s, d, c);
    case CallSignal(d) => if s.conds[d].queue != [] { DequeuePiece(s, d, false, [], c); }
    case _ => CondsUntouched(s, step);
  }

  lemma CondThere(s: State, step: Step)
    requires CanStep(s, step)
    ensures step.CallWait? || step.CallSignal? ==> step.c in s.conds
  {
    hide CanContinue, CanUp, Holds;
  }

  lemma CondsUntouched(s: State, step: Step)
    requires CanStep(s, step) && step != Continue && !step.CallWait? && !step.CallSignal?
    ensures Next(s, step).conds == s.conds
  {
    hide Block, Yield, Exit, Unblock, CanUp, Holds, Attempt, SemaUp, Proceed, CanContinue;
    match step
    case CallDown(n) => AttemptPiece(s, PlainDown(n), Client(n));
    case CallTryDown(n) => AttemptPiece(s, PlainDown(n), Client(n));
    case CallAcquire(l) => AttemptPiece(s, Acquire(l), OfLock(l));
    case CallTryAcquire(l) => AttemptPiece(s, Acquire(l), OfLock(l));
    case CallUp(n) => UpStays(s, Client(n));
    case InterruptUp(n) => UpStays(s, Client(n));
    case _ =>
  }

  lemma EnqueuePiece(s: State, d: Cond, c: Cond)
    requires d in s.conds && c in s.conds
    ensures c in Enqueue(s, d).conds
    ensures var v, v' := s.conds[c], Enqueue(s, d).conds[c];
            v'.sent == v.sent && v'.returned == v.returned && |v'.queue| == |v.queue| + One(c == d)
  {
  }

  lemma DequeuePiece(s: State, d: Cond, all: bool, goal: seq<nat>, c: Cond)
    requires d in s.conds && c in s.conds && s.conds[d].queue != []
    ensures c in Dequeue(s, d, all, goal).conds
    ensures var v, v' := s.conds[c], Dequeue(s, d, all, goal).conds[c];
            && |v'.sent| == |v.sent| + One(c == d) && v'.returned == v.returned
            && |v'.queue| + One(c == d) == |v.queue|
  {
  }

  lemma ContinueSignals(s: State, c: Cond)
    requires CanStep(s, Continue) && c in s.conds
    ensures Moves(s, Continue, Next(s, Continue), c)
  {
    hide CanUp, Holds, Attempt, SemaUp, Dequeue;
    match s.pc[Cur(s)]
    case Test(op) => AttemptPiece(s, op, SemaOf(op, Cur(s)));
    case Retest(op) => AttemptPiece(s, op, SemaOf(op, Cur(s)));
    case ReleaseUp(l) => UpStays(s, OfLock(l));
    case WaitReleaseUp(d) => UpStays(s, OfLock(d.lock));
    case SignalUp(_, w, _, _) => UpStays(s, OfWaiter(w.t));
    case Broadcast(d, goal) => if s.conds[d].queue != [] { DequeuePiece(s, d, true, goal, c); }
    case _ =>
  }

  /** Over every run: as many tickets are signalled as there were signals and turns of broadcasts that
      found a waiter, the queue has the waits begun and not signalled, and as many tickets have
      returned as there were returns of cond_wait. */
  lemma {:induction false} SignalsAddUp(s: State, steps: seq<Step>, c: Cond)
    requires CanRun(s, steps) && c in s.conds
    ensures c in Reach(s, steps).conds
    ensures var v, v' := s.conds[c], Reach(s, steps).conds[c];
            && |v'.sent| == |v.sent| + Signals(s, steps, c)
            && |v'.queue| == |v.queue| + WaitCalls(steps, c) - Signals(s, steps, c)
            && |v'.returned| == |v.returned| + WaitsEnded(s, steps, c)
    decreases |steps|
  {
    hide CanStep, Next, IsSignal, IsReturn;
    if steps != [] {
      SignalsStep(s, steps[0], c);
      SignalsAddUp(Next(s, steps[0]), steps[1..], c);
    }
  }
}
