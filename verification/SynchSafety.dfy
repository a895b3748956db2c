/** Safety of every run of the synchronization machine. */
module SynchSafety {
  import opened Common
  import opened Scheduler
  import opened Synch
  import opened SynchInv

  /** A semaphore's value is its initial value plus the ups minus the completed downs. */
  ghost predicate History(semas: Semas) {
    forall id | id in semas :: semas[id].value + semas[id].downs == semas[id].init + semas[id].ups
  }

  /** The part of the invariant about the semaphores. */
  ghost predicate SemaPart(pc: Pcs, semas: Semas, blocked: set<Tid>) {
    Lists(pc, semas, blocked) && History(semas) && Wakeups(pc, semas)
  }

  /** The part about the scheduler. */
  ghost predicate SchedPart(s: State) {
    && SchedInv(s.sched) && s.pc.Keys == s.sched.status.Keys && s.pc[s.sched.idle] == Free
    && (Ended(s.sched) ==> s.pc[s.sched.initial] == Free)
  }

  /** The initial thread has exited; its page is the one that is never freed. */
  ghost predicate Ended(s: Sched) {
    s.initial in s.status && s.status[s.initial] == Dying
  }

  /** What a scheduler step that neither creates nor ends a thread leaves alone. */
  ghost predicate SameThreads(s: Sched, r: Sched) {
    r.idle == s.idle && r.initial == s.initial && r.status.Keys == s.status.Keys && (Ended(r) <==> Ended(s))
  }

  ghost predicate Core(s: State) {
    SchedPart(s) && SemaPart(s.pc, s.semas, BlockedSet(s.sched))
  }

  ghost predicate Inv(s: State) {
    Core(s) && Locks(s) && Conds(s)
  }

  // ----- What the scheduler's steps do to the set of blocked threads -----

  lemma BlockedUpdate(m: map<Tid, Status>, idle: Tid, t: Tid, v: Status)
    ensures BlockedIn(m[t := v], idle)
            == if v == Blocked && t != idle then BlockedIn(m, idle) + {t} else BlockedIn(m, idle) - {t}
    ensures BlockedIn(m - {t}, idle) == BlockedIn(m, idle) - {t}
  {
  }

  /** The thread chosen next is the idle thread or comes from the ready list. */
  lemma NextIsRunnable(s: Sched)
    requires SchedInv(s)
    ensures NextThread(s) in s.status && NextThread(s) !in BlockedSet(s)
    ensures NextThread(s) == s.idle || (NextThread(s) != s.cur && s.status[NextThread(s)] == Ready)
  {
    assert s.ready != [] ==> s.ready[0] in s.ready;
  }

  lemma BlockBlocks(s: Sched)
    requires SchedInv(s)
    ensures SchedInv(Block(s)) && SameThreads(s, Block(s))
    ensures BlockedSet(Block(s)) == if s.cur == s.idle then BlockedSet(s) else BlockedSet(s) + {s.cur}
  {
    BlockKeeps(s);
    BlockStatus(s);
  }

  lemma BlockStatus(s: Sched)
    requires SchedInv(s)
    ensures SameThreads(s, Block(s))
    ensures BlockedSet(Block(s)) == if s.cur == s.idle then BlockedSet(s) else BlockedSet(s) + {s.cur}
  {
    var next := NextThread(s);
    NextIsRunnable(s);
    assert Block(s).status == s.status[s.cur := Blocked][next := Running];
    BlockedUpdate(s.status, s.idle, s.cur, Blocked);
    BlockedUpdate(s.status[s.cur := Blocked], s.idle, next, Running);
  }

  lemma YieldBlocks(s: Sched)
    requires SchedInv(s)
    ensures SchedInv(Yield(s)) && SameThreads(s, Yield(s))
    ensures BlockedSet(Yield(s)) == BlockedSet(s)
  {
    YieldKeeps(s);
    YieldStatus(s);
  }

  lemma YieldStatus(s: Sched)
    requires SchedInv(s)
    ensures SameThreads(s, Yield(s))
    ensures BlockedSet(Yield(s)) == BlockedSet(s)
  {
    var next := Yield(s).cur;
    NextIsRunnable(s);
    assert Yield(s).status == s.status[s.cur := Ready][next := Running];
    BlockedUpdate(s.status, s.idle, s.cur, Ready);
    BlockedUpdate(s.status[s.cur := Ready], s.idle, next, Running);
  }

  lemma ExitBlocks(s: Sched)
    requires SchedInv(s) && s.cur != s.idle
    ensures SchedInv(Exit(s)) && Exit(s).idle == s.idle && Exit(s).initial == s.initial
    ensures Ended(Exit(s)) <==> Ended(s) || s.cur == s.initial
    ensures Exit(s).status.Keys == if s.cur == s.initial then s.status.Keys else s.status.Keys - {s.cur}
    ensures BlockedSet(Exit(s)) == BlockedSet(s)
  {
    ExitKeeps(s);
    ExitStatus(s);
  }

  lemma ExitStatus(s: Sched)
    requires SchedInv(s) && s.cur != s.idle
    ensures Exit(s).idle == s.idle && Exit(s).initial == s.initial
    ensures Ended(Exit(s)) <==> Ended(s) || s.cur == s.initial
    ensures Exit(s).status.Keys == if s.cur == s.initial then s.status.Keys else s.status.Keys - {s.cur}
    ensures BlockedSet(Exit(s)) == BlockedSet(s)
  {
    var next := NextThread(s);
    NextIsRunnable(s);
    var m := s.status[s.cur := Dying][next := Running];
    assert Exit(s).status == if s.cur == s.initial then m else m - {s.cur};
    BlockedUpdate(s.status, s.idle, s.cur, Dying);
    BlockedUpdate(s.status[s.cur := Dying], s.idle, next, Running);
    BlockedUpdate(m, s.idle, s.cur, Running);
  }

  lemma UnblockBlocks(s: Sched, t: Tid)
    requires SchedInv(s) && t in BlockedSet(s)
    ensures SchedInv(Unblock(s, t)) && SameThreads(s, Unblock(s, t))
    ensures BlockedSet(Unblock(s, t)) == BlockedSet(s) - {t}
  {
    UnblockKeeps(s, t);
    BlockedUpdate(s.status, s.idle, t, Ready);
  }

  // ----- The pieces keep the core -----

  lemma PartUp(pc: Pcs, semas: Semas, blocked: set<Tid>, id: SemaId, m: Sema)
    requires SemaPart(pc, semas, blocked) && id in semas
    requires m.value == semas[id].value + 1 && m.ups == semas[id].ups + 1
    requires m.init == semas[id].init && m.downs == semas[id].downs
    requires m.waiters == if semas[id].waiters == [] then [] else semas[id].waiters[1..]
    ensures SemaPart(pc, semas[id := m], if semas[id].waiters == [] then blocked else blocked - {semas[id].waiters[0]})
    ensures semas[id].waiters != [] ==> semas[id].waiters[0] in blocked
  {
    UpWakeups(pc, semas, blocked, id, m);
    if semas[id].waiters != [] {
      assert semas[id].waiters[0] in semas[id].waiters;
      UpLists(pc, semas, blocked, id, m);
    }
  }

  lemma CoreUp(s: State, id: SemaId)
    requires Core(s) && id in s.semas
    ensures Core(SemaUp(s, id))
  {
    PartUp(s.pc, s.semas, BlockedSet(s.sched), id, SemaUp(s, id).semas[id]);
    if s.semas[id].waiters != [] { UnblockBlocks(s.sched, s.semas[id].waiters[0]); }
  }

  lemma PartSleep(pc: Pcs, semas: Semas, blocked: set<Tid>, op: DownOp, t: Tid)
    requires SemaPart(pc, semas, blocked) && SemaOf(op, t) in semas && t !in blocked
    requires semas[SemaOf(op, t)].value == 0
    requires t in pc && pc[t].Retest? ==> pc[t].op == op
    ensures var m := semas[SemaOf(op, t)];
            SemaPart(pc[t := Retest(op)], semas[SemaOf(op, t) := m.(waiters := m.waiters + [t])], blocked + {t})
  {
    var m := semas[SemaOf(op, t)];
    SleepLists(pc, semas, blocked, op, t, m.(waiters := m.waiters + [t]));
    SleepWakeups(pc, semas, blocked, op, t, m.(waiters := m.waiters + [t]));
  }

  lemma PartTake(pc: Pcs, semas: Semas, blocked: set<Tid>, op: DownOp, t: Tid)
    requires SemaPart(pc, semas, blocked) && SemaOf(op, t) in semas && t !in blocked
    requires semas[SemaOf(op, t)].value > 0
    requires t in pc && pc[t].Retest? ==> pc[t].op == op
    requires AfterDown(op).Test? ==> SemaOf(AfterDown(op).op, t) in semas
    ensures var m := semas[SemaOf(op, t)];
            SemaPart(pc[t := AfterDown(op)],
                     semas[SemaOf(op, t) := m.(value := m.value - 1, downs := m.downs + 1)], blocked)
  {
    var m := semas[SemaOf(op, t)];
    MoveLists(pc, semas, blocked, t, AfterDown(op), SemaOf(op, t), m.(value := m.value - 1, downs := m.downs + 1));
    TakeWakeups(pc, semas, op, t, AfterDown(op), m.(value := m.value - 1, downs := m.downs + 1));
  }

  lemma CoreAttempt(s: State, op: DownOp)
    requires Core(s) && Cur(s) != s.sched.idle && SemaOf(op, Cur(s)) in s.semas
    requires s.pc[Cur(s)].Retest? ==> s.pc[Cur(s)].op == op
    requires AfterDown(op).Test? ==> SemaOf(AfterDown(op).op, Cur(s)) in s.semas
    ensures Core(Attempt(s, op))
  {
    if s.semas[SemaOf(op, Cur(s))].value == 0 {
      BlockBlocks(s.sched);
      var sched := Block(s.sched);
      CoreSleep(s, sched, Attempt(s, op), op);
    } else {
      CoreTake(s, Attempt(s, op), op);
    }
  }

  lemma CoreTake(s: State, r: State, op: DownOp)
    requires Core(s) && Cur(s) != s.sched.idle && SemaOf(op, Cur(s)) in s.semas
    requires s.pc[Cur(s)].Retest? ==> s.pc[Cur(s)].op == op
    requires AfterDown(op).Test? ==> SemaOf(AfterDown(op).op, Cur(s)) in s.semas
    requires s.semas[SemaOf(op, Cur(s))].value > 0
    requires r.sched == s.sched && r.pc == s.pc[Cur(s) := AfterDown(op)]
    requires var m := s.semas[SemaOf(op, Cur(s))];
             r.semas == s.semas[SemaOf(op, Cur(s)) := m.(value := m.value - 1, downs := m.downs + 1)]
    ensures Core(r)
  {
    PartTake(s.pc, s.semas, BlockedSet(s.sched), op, Cur(s));
  }

  lemma CoreSleep(s: State, sched: Sched, r: State, op: DownOp)
    requires Core(s) && Cur(s) != s.sched.idle && SemaOf(op, Cur(s)) in s.semas
    requires s.pc[Cur(s)].Retest? ==> s.pc[Cur(s)].op == op
    requires s.semas[SemaOf(op, Cur(s))].value == 0
    requires SchedInv(sched) && SameThreads(s.sched, sched)
    requires BlockedSet(sched) == BlockedSet(s.sched) + {Cur(s)}
    requires r.sched == sched && r.pc == s.pc[Cur(s) := Retest(op)]
    requires var m := s.semas[SemaOf(op, Cur(s))];
             r.semas == s.semas[SemaOf(op, Cur(s)) := m.(waiters := m.waiters + [Cur(s)])]
    ensures Core(r)
  {
    PartSleep(s.pc, s.semas, BlockedSet(s.sched), op, Cur(s));
  }

  lemma CoreMove(s: State, r: State, to: Pc)
    requires Core(s) && Cur(s) != s.sched.idle && !s.pc[Cur(s)].Retest? && !to.Retest?
    requires to.Test? ==> SemaOf(to.op, Cur(s)) in s.semas
    requires r.sched == s.sched && r.semas == s.semas && r.pc == s.pc[Cur(s) := to]
    ensures Core(r)
  {
    var waiters := if Client(0) in s.semas then s.semas[Client(0)].waiters else [];
    MoveLists(s.pc, s.semas, BlockedSet(s.sched), Cur(s), to, Client(0), Sema(0, waiters, 0, 0, 0));
    MoveWakeups(s.pc, s.semas, Cur(s), to);
  }

  lemma SomeMember<T>(q: seq<T>)
    ensures q == [] || exists x :: x in q
  {
    if q != [] { assert q[0] in q; }
  }

  lemma CoreEnqueue(s: State, c: Cond)
    requires Core(s) && Cur(s) != s.sched.idle && s.pc[Cur(s)] == Free && c in s.conds
    ensures Core(Enqueue(s, c))
  {
    var r, t := Enqueue(s, c), Cur(s);
    var id, m := OfWaiter(t), r.semas[OfWaiter(t)];
    if id in s.semas { SomeMember(s.semas[id].waiters); }
    MoveLists(s.pc, s.semas, BlockedSet(s.sched), t, WaitClear(c), id, m);
    MoveWakeups(s.pc, s.semas, t, WaitClear(c));
    forall x | x in r.semas && r.semas[x].waiters != []
      ensures |Woken(r.pc, r.semas, x)| >= r.semas[x].value
    {
      assert Woken(r.pc, r.semas, x) == Woken(r.pc, s.semas, x);
    }
  }

  lemma CoreReschedule(s: State, sched: Sched)
    requires Core(s) && SchedInv(sched) && SameThreads(s.sched, sched)
    requires BlockedSet(sched) == BlockedSet(s.sched)
    ensures Core(s.(sched := sched))
  {
  }

  lemma CorePreempt(s: State)
    requires Core(s)
    ensures Core(s.(sched := Yield(s.sched)))
  {
    YieldBlocks(s.sched);
    CoreReschedule(s, Yield(s.sched));
  }

  lemma CoreIdle(s: State)
    requires Core(s) && Cur(s) == s.sched.idle
    ensures Core(s.(sched := Block(s.sched)))
  {
    BlockBlocks(s.sched);
    CoreReschedule(s, Block(s.sched));
  }

  lemma SpawnBlocks(s: Sched, t: Tid)
    requires SchedInv(s) && t !in s.status && t !in s.freed
    ensures SchedInv(Unblock(s, t)) && Unblock(s, t).status.Keys == s.status.Keys + {t}
    ensures Ended(Unblock(s, t)) <==> Ended(s)
    ensures BlockedSet(Unblock(s, t)) == BlockedSet(s)
  {
    CreateKeeps(s, t);
    BlockedUpdate(s.status, s.idle, t, Ready);
  }

  lemma PartSpawn(pc: Pcs, semas: Semas, blocked: set<Tid>, t: Tid)
    requires SemaPart(pc, semas, blocked) && t !in pc
    ensures SemaPart(pc[t := Free], semas, blocked)
  {
    MoveWakeups(pc, semas, t, Free);
  }

  lemma CoreSpawn(s: State, t: Tid)
    requires Core(s) && t !in s.sched.status && t !in s.sched.freed
    ensures Core(s.(sched := Unblock(s.sched, t), pc := s.pc[t := Free]))
  {
    SpawnBlocks(s.sched, t);
    PartSpawn(s.pc, s.semas, BlockedSet(s.sched), t);
  }

  lemma CoreDie(s: State)
    requires CanStep(s, Die) && Core(s)
    ensures Core(Next(s, Die))
  {
    ExitBlocks(s.sched);
    DropLists(s.pc, s.semas, BlockedSet(s.sched), Cur(s));
    MoveWakeups(s.pc, s.semas, Cur(s), Free);
  }

  // ----- Every step keeps the lock part -----

  /** Where sema_down can be called from. */
  ghost predicate CallsDown(pc: Pc, op: DownOp) {
    pc == Test(op) || pc == Retest(op) || (pc == Free && (op.PlainDown? || op.Acquire?))
  }

  lemma LocksAttempt(s: State, op: DownOp)
    requires Locks(s) && Cur(s) in s.pc && Cur(s) in s.sched.status && SemaOf(op, Cur(s)) in s.semas
    requires CallsDown(s.pc[Cur(s)], op)
    ensures Locks(Attempt(s, op))
  {
    var r, t, id := Attempt(s, op), Cur(s), SemaOf(op, Cur(s));
    assert forall l | Away(Retest(op), l) || Away(AfterDown(op), l) :: Away(s.pc[t], l);
    if s.semas[id].value == 0 {
      LocksMove(s, r, t, Retest(op));
    } else if id.OfLock? {
      LocksTake(s, r, t, id.l, AfterDown(op));
    } else {
      LocksMove(s, r, t, AfterDown(op));
    }
  }

  lemma LocksLockUp(s: State, l: nat, to: Pc)
    requires Locks(s) && Cur(s) in s.pc && OfLock(l) in s.semas && PcInside(s.pc[Cur(s)], l)
    requires to == Free || (to.Test? && to.op.WaitDown? && to.op.c.lock == l)
    ensures Locks(LockUp(s, l, to))
  {
    LocksGive(s, LockUp(s, l, to), Cur(s), l, to);
  }

  lemma LocksSend(s: State, c: Cond, w: Waiter, to: Pc)
    requires Locks(s) && Cur(s) in s.pc && SendsTo(s.pc[Cur(s)], c, w) && OfWaiter(w.t) in s.semas
    requires to == if s.pc[Cur(s)].all then Broadcast(c, s.pc[Cur(s)].goal) else Free
    ensures Locks(SetPc(SemaUp(s, OfWaiter(w.t)), to))
  {
    assert NeedsHolder(s.pc[Cur(s)], c.lock);
    LocksMove(s, SetPc(SemaUp(s, OfWaiter(w.t)), to), Cur(s), to);
  }

  lemma LocksHolderPc(s: State)
    requires Locks(s) && CanStep(s, Continue)
    requires var pc := s.pc[Cur(s)]; pc.SetHolder? || pc.WaitClear? || pc.WaitSetHolder?
    ensures Locks(Next(s, Continue))
  {
    var r, t := Next(s, Continue), Cur(s);
    match s.pc[t]
    case SetHolder(l) => LocksSetHolder(s, r, t, l);
    case WaitSetHolder(c) => LocksSetHolder(s, r, t, c.lock);
    case WaitClear(c) =>
      assert NeedsHolder(s.pc[t], c.lock);
      LocksClearHolder(s, r, t, c.lock, WaitReleaseUp(c));
  }

  lemma LocksBroadcastPc(s: State)
    requires Locks(s) && CanStep(s, Continue) && s.pc[Cur(s)].Broadcast?
    ensures Locks(Next(s, Continue))
  {
    var r, t := Next(s, Continue), Cur(s);
    assert NeedsHolder(s.pc[t], s.pc[t].c.lock);
    LocksMove(s, r, t, r.pc[t]);
  }

  lemma LocksProceed(s: State)
    requires Locks(s) && CanStep(s, Continue)
    ensures Locks(Next(s, Continue))
  {
    match s.pc[Cur(s)]
    case Test(op) => LocksAttempt(s, op);
    case Retest(op) => LocksAttempt(s, op);
    case ReleaseUp(l) => LocksLockUp(s, l, Free);
    case WaitReleaseUp(c) => LocksLockUp(s, c.lock, Test(WaitDown(c)));
    case SignalUp(c, w, all, goal) => LocksSend(s, c, w, if all then Broadcast(c, goal) else Free);
    case Broadcast(_, _) => LocksBroadcastPc(s);
    case _ => LocksHolderPc(s);
  }

  lemma LocksCall(s: State, step: Step)
    requires Locks(s) && CanStep(s, step)
    requires step.CallRelease? || step.CallWait? || step.CallSignal? || step.CallBroadcast?
    ensures Locks(Next(s, step))
  {
    var r, t := Next(s, step), Cur(s);
    match step
    case CallRelease(l) => LocksClearHolder(s, r, t, l, ReleaseUp(l));
    case CallWait(c) => LocksMove(s, r, t, WaitClear(c));
    case CallSignal(c) => LocksMove(s, r, t, r.pc[t]);
    case CallBroadcast(c) => LocksMove(s, r, t, r.pc[t]);
  }

  lemma LocksSchedule(s: State, step: Step)
    requires Locks(s) && CanStep(s, step) && s.pc.Keys == s.sched.status.Keys
    requires step.Preempt? || step.IdleBlock? || step.Spawn? || step.Die?
    ensures Locks(Next(s, step))
  {
    var r, t := Next(s, step), Cur(s);
    if step.Spawn? { LocksMove(s, r, step.t, Free); }
    else if step.Die? && t != s.sched.initial { LocksMove(s, r, t, Free); }
    else { LocksSame(s, r); }
  }

  lemma LocksClientUp(s: State, n: nat)
    requires Locks(s) && Client(n) in s.semas
    ensures Locks(SemaUp(s, Client(n)))
  {
    LocksSame(s, SemaUp(s, Client(n)));
  }

  lemma LocksNext(s: State, step: Step)
    requires Locks(s) && CanStep(s, step) && s.pc.Keys == s.sched.status.Keys
    ensures Locks(Next(s, step))
  {
    match step
    case Continue => LocksProceed(s);
    case CallDown(n) => LocksAttempt(s, PlainDown(n));
    case CallTryDown(n) => if s.semas[Client(n)].value > 0 { LocksAttempt(s, PlainDown(n)); }
    case CallAcquire(l) => LocksAttempt(s, Acquire(l));
    case CallTryAcquire(l) => if s.semas[OfLock(l)].value > 0 { LocksAttempt(s, Acquire(l)); }
    case CallRelease(_) => LocksCall(s, step);
    case CallWait(_) => LocksCall(s, step);
    case CallSignal(_) => LocksCall(s, step);
    case CallBroadcast(_) => LocksCall(s, step);
    case InterruptUp(n) => LocksClientUp(s, n);
    case CallUp(n) => LocksClientUp(s, n);
    case _ => LocksSchedule(s, step);
  }

  // ----- Every step keeps the part about condition variables -----

  ghost predicate CondsReady(s: State) {
    Conds(s) && Holders(s) && NotYetHeld(s)
  }

  lemma CondsSleep(s: State, op: DownOp)
    requires Conds(s) && Cur(s) in s.pc && Cur(s) in s.sched.status && SemaOf(op, Cur(s)) in s.semas
    requires CallsDown(s.pc[Cur(s)], op) && s.semas[SemaOf(op, Cur(s))].value == 0
    ensures Conds(Attempt(s, op))
  {
    hide Conds;
    CondsFrame(s, Attempt(s, op), Cur(s), Retest(op), 0);
  }

  lemma CondsTake(s: State, op: DownOp)
    requires Conds(s) && Cur(s) in s.pc && Cur(s) in s.sched.status && SemaOf(op, Cur(s)) in s.semas
    requires CallsDown(s.pc[Cur(s)], op) && s.semas[SemaOf(op, Cur(s))].value > 0 && !op.WaitDown?
    ensures Conds(Attempt(s, op))
  {
    hide Conds;
    CondsFrame(s, Attempt(s, op), Cur(s), AfterDown(op), 0);
  }

  lemma CondsAttempt(s: State, op: DownOp)
    requires CondsReady(s) && Cur(s) in s.pc && Cur(s) in s.sched.status && SemaOf(op, Cur(s)) in s.semas
    requires CallsDown(s.pc[Cur(s)], op)
    ensures Conds(Attempt(s, op))
  {
    if s.semas[SemaOf(op, Cur(s))].value == 0 { CondsSleep(s, op); }
    else if op.WaitDown? { ReceiveConds(s, Attempt(s, op), op.c); }
    else { CondsTake(s, op); }
  }

  lemma CondsLockUp(s: State, l: nat, to: Pc)
    requires Conds(s) && Cur(s) in s.pc && OfLock(l) in s.semas
    requires SamePhase(s.pc[Cur(s)], to) && !to.Broadcast?
    ensures Conds(LockUp(s, l, to))
  {
    hide Conds;
    CondsFrame(s, LockUp(s, l, to), Cur(s), to, l);
  }

  lemma CondsSend(s: State, c: Cond, w: Waiter, to: Pc)
    requires CondsReady(s) && Cur(s) in s.pc && SendsTo(s.pc[Cur(s)], c, w) && OfWaiter(w.t) in s.semas
    requires to == if s.pc[Cur(s)].all then Broadcast(c, s.pc[Cur(s)].goal) else Free
    ensures Conds(SetPc(SemaUp(s, OfWaiter(w.t)), to))
  {
    hide Conds;
    SendConds(s, SetPc(SemaUp(s, OfWaiter(w.t)), to), c, w, to);
  }

  lemma CondsSetHolder(s: State, l: nat)
    requires CondsReady(s) && Cur(s) in s.pc && s.pc[Cur(s)] == SetHolder(l)
    ensures Conds(SetPc(s.(holder := s.holder[l := Cur(s)]), Free))
  {
    hide Conds;
    assert PcInside(s.pc[Cur(s)], l);
    CondsFrame(s, SetPc(s.(holder := s.holder[l := Cur(s)]), Free), Cur(s), Free, l);
  }

  lemma CondsClearHolder(s: State, l: nat, to: Pc)
    requires Conds(s) && Cur(s) in s.pc && Holds(s, Cur(s), l)
    requires SamePhase(s.pc[Cur(s)], to) && !to.Broadcast?
    ensures Conds(SetPc(s.(holder := s.holder - {l}), to))
  {
    hide Conds;
    CondsFrame(s, SetPc(s.(holder := s.holder - {l}), to), Cur(s), to, l);
  }

  lemma CondsReturn(s: State, c: Cond)
    requires CondsReady(s) && CanStep(s, Continue) && s.pc[Cur(s)] == WaitSetHolder(c)
    ensures Conds(Return(s, c))
  {
    assert PcInside(s.pc[Cur(s)], c.lock);
    ReturnConds(s, c);
  }

  lemma CondsBroadcastPc(s: State)
    requires CondsReady(s) && CanStep(s, Continue) && s.pc[Cur(s)].Broadcast?
    ensures Conds(Next(s, Continue))
  {
    var t := Cur(s);
    var c, goal := s.pc[t].c, s.pc[t].goal;
    assert NeedsHolder(s.pc[t], c.lock);
    if s.conds[c].queue == [] { CondsFrame(s, SetPc(s, Free), t, Free, 0); } else { PickConds(s, c, true, goal); }
  }

  lemma CondsProceed(s: State)
    requires CondsReady(s) && CanStep(s, Continue)
    ensures Conds(Next(s, Continue))
  {
    hide Conds;
    match s.pc[Cur(s)]
    case Test(op) => CondsAttempt(s, op);
    case Retest(op) => CondsAttempt(s, op);
    case ReleaseUp(l) => CondsLockUp(s, l, Free);
    case WaitReleaseUp(c) => CondsLockUp(s, c.lock, Test(WaitDown(c)));
    case SetHolder(l) => CondsSetHolder(s, l);
    case WaitSetHolder(c) => CondsReturn(s, c);
    case WaitClear(c) =>
      assert NeedsHolder(s.pc[Cur(s)], c.lock);
      CondsClearHolder(s, c.lock, WaitReleaseUp(c));
    case SignalUp(c, w, all, goal) => CondsSend(s, c, w, if all then Broadcast(c, goal) else Free);
    case Broadcast(_, _) => CondsBroadcastPc(s);
  }

  lemma CondsStartBroadcast(s: State, c: Cond)
    requires Conds(s) && Cur(s) in s.pc && s.pc[Cur(s)] == Free && c in s.conds
    ensures Conds(SetPc(s, Broadcast(c, s.conds[c].joined)))
  {
    CondsFrame(s, SetPc(s, Broadcast(c, s.conds[c].joined)), Cur(s), Broadcast(c, s.conds[c].joined), 0);
  }

  lemma CondsSchedule(s: State, step: Step)
    requires CondsReady(s) && CanStep(s, step) && s.pc.Keys == s.sched.status.Keys
    requires step.Preempt? || step.IdleBlock? || step.Spawn? || step.Die?
    ensures Conds(Next(s, step))
  {
    hide Conds, Holders, NotYetHeld, Attempt, SemaUp, Proceed, Enqueue, Dequeue, SetPc, CanContinue, CanUp;
    CondsIdle(s, Next(s, step), if step.Spawn? then step.t else Cur(s));
  }

  lemma CondsClientUp(s: State, n: nat)
    requires CondsReady(s) && Client(n) in s.semas
    ensures Conds(SemaUp(s, Client(n)))
  {
    hide Conds;
    CondsIdle(s, SemaUp(s, Client(n)), 0);
  }

  lemma CondsNext(s: State, step: Step)
    requires CondsReady(s) && CanStep(s, step) && s.pc.Keys == s.sched.status.Keys
    ensures Conds(Next(s, step))
  {
    match step
    case Continue => CondsProceed(s);
    case CallDown(n) => CondsAttempt(s, PlainDown(n));
    case CallTryDown(n) => if s.semas[Client(n)].value > 0 { CondsAttempt(s, PlainDown(n)); }
    case CallAcquire(l) => CondsAttempt(s, Acquire(l));
    case CallTryAcquire(l) => if s.semas[OfLock(l)].value > 0 { CondsAttempt(s, Acquire(l)); }
    case CallRelease(l) => CondsClearHolder(s, l, ReleaseUp(l));
    case CallWait(c) => JoinConds(s, c);
    case CallSignal(c) => if s.conds[c].queue != [] { PickConds(s, c, false, []); }
    case CallBroadcast(c) => CondsStartBroadcast(s, c);
    case InterruptUp(n) => CondsClientUp(s, n);
    case CallUp(n) => CondsClientUp(s, n);
    case _ => CondsSchedule(s, step);
  }

  // ----- Every step keeps the core -----

  /** The semaphores the thread will need next exist. */
  ghost predicate Supplied(s: State, t: Tid) {
    t in s.pc ==>
      match s.pc[t]
      case Test(WaitDown(c)) => OfLock(c.lock) in s.semas
      case Retest(WaitDown(c)) => OfLock(c.lock) in s.semas
      case WaitReleaseUp(c) => OfWaiter(t) in s.semas
      case _ => true
  }

  lemma CoreLockUp(s: State, l: nat, to: Pc)
    requires Core(s) && Cur(s) != s.sched.idle && OfLock(l) in s.semas
    requires !s.pc[Cur(s)].Retest? && !to.Retest? && (to.Test? ==> SemaOf(to.op, Cur(s)) in s.semas)
    ensures Core(LockUp(s, l, to))
  {
    CoreUp(s, OfLock(l));
    CoreMove(SemaUp(s, OfLock(l)), LockUp(s, l, to), to);
  }

  lemma CoreSend(s: State, w: Tid, to: Pc)
    requires Core(s) && Cur(s) != s.sched.idle && OfWaiter(w) in s.semas
    requires !s.pc[Cur(s)].Retest? && !to.Retest? && !to.Test?
    ensures Core(SetPc(SemaUp(s, OfWaiter(w)), to))
  {
    CoreUp(s, OfWaiter(w));
    CoreMove(SemaUp(s, OfWaiter(w)), SetPc(SemaUp(s, OfWaiter(w)), to), to);
  }

  lemma CoreProceed(s: State)
    requires Core(s) && CanStep(s, Continue) && Supplied(s, Cur(s))
    ensures Core(Next(s, Continue))
  {
    match s.pc[Cur(s)]
    case Test(op) => CoreAttempt(s, op);
    case Retest(op) => CoreAttempt(s, op);
    case ReleaseUp(l) => CoreLockUp(s, l, Free);
    case WaitReleaseUp(c) => CoreLockUp(s, c.lock, Test(WaitDown(c)));
    case SignalUp(c, w, all, goal) => CoreSend(s, w.t, if all then Broadcast(c, goal) else Free);
    case _ => CoreQuiet(s, Continue);
  }

  /** Steps that change neither the scheduler nor a semaphore. */
  ghost predicate Quiet(s: State, step: Step) {
    && CanStep(s, step)
    && var pc := s.pc[Cur(s)];
       || step.CallRelease? || step.CallSignal? || step.CallBroadcast?
       || (step.Continue? && (pc.SetHolder? || pc.WaitClear? || pc.WaitSetHolder? || pc.Broadcast?))
  }

  lemma QuietSteps(s: State, step: Step)
    requires Quiet(s, step)
    ensures var r := Next(s, step);
            && r.sched == s.sched && r.semas == s.semas && Cur(s) in r.pc
            && !s.pc[Cur(s)].Retest? && !r.pc[Cur(s)].Retest? && !r.pc[Cur(s)].Test?
            && r.pc == s.pc[Cur(s) := r.pc[Cur(s)]]
            && (step.Continue? || Cur(s) != s.sched.idle)
  {
    if step.Continue? {
      assert Next(s, step) == Proceed(s, s.pc[Cur(s)]);
    } else {
      assert s.pc == s.pc[Cur(s) := Free];
    }
  }

  lemma CoreQuiet(s: State, step: Step)
    requires Core(s) && Quiet(s, step)
    ensures Core(Next(s, step))
  {
    QuietSteps(s, step);
    CoreMove(s, Next(s, step), Next(s, step).pc[Cur(s)]);
  }

  lemma CoreNext(s: State, step: Step)
    requires Core(s) && CanStep(s, step) && Supplied(s, Cur(s))
    ensures Core(Next(s, step))
  {
    match step
    case Continue => CoreProceed(s);
    case Preempt => CorePreempt(s);
    case IdleBlock => CoreIdle(s);
    case Spawn(t) => CoreSpawn(s, t);
    case Die => CoreDie(s);
    case CallDown(n) => CoreAttempt(s, PlainDown(n));
    case CallTryDown(n) => if s.semas[Client(n)].value > 0 { CoreAttempt(s, PlainDown(n)); }
    case CallAcquire(l) => CoreAttempt(s, Acquire(l));
    case CallTryAcquire(l) => if s.semas[OfLock(l)].value > 0 { CoreAttempt(s, Acquire(l)); }
    case InterruptUp(n) => CoreUp(s, Client(n));
    case CallUp(n) => CoreUp(s, Client(n));
    case CallWait(c) => CoreEnqueue(s, c);
    case _ => CoreQuiet(s, step);
  }
}
