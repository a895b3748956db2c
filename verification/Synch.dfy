/** Semaphores, locks and condition variables (src/threads/synch.c) on top of the scheduler,
    as one machine over all threads. Every step is one piece of code that cannot be
    interrupted: a region with interrupts off, or a single access to a lock holder or to a
    condition queue. A timer interrupt may come between any two steps, except between the
    dispatch of a thread that slept in sema_down and its next test of the value, which the
    source runs with interrupts off. */
module Synch {
  import opened Common
  import opened Scheduler

  datatype Cond = Cond(lock: nat, id: nat)   // a condition variable belongs to one lock

  datatype SemaId = Client(n: nat) | OfLock(l: nat) | OfWaiter(t: Tid)

  /** A semaphore; `ups`, `downs` and `init` record its history. */
  datatype Sema = Sema(value: nat, waiters: seq<Tid>, init: nat, ups: nat, downs: nat)

  /** The calls of sema_down: by a client, in lock_acquire, and the two in cond_wait. */
  datatype DownOp = PlainDown(n: nat) | Acquire(l: nat) | WaitDown(c: Cond) | Reacquire(c: Cond)

  function SemaOf(op: DownOp, t: Tid): SemaId {
    match op
    case PlainDown(n) => Client(n)
    case Acquire(l) => OfLock(l)
    case WaitDown(_) => OfWaiter(t)
    case Reacquire(c) => OfLock(c.lock)
  }

  /** Where a thread is: in client code, or between two steps of an operation. */
  datatype Pc =
    | Free
    | Test(op: DownOp)                       // about to test the value
    | Retest(op: DownOp)                     // inside the loop of sema_down
    | SetHolder(l: nat)                      // lock_acquire, semaphore taken
    | ReleaseUp(l: nat)                      // lock_release, holder cleared
    | WaitClear(c: Cond)                     // cond_wait, queued
    | WaitReleaseUp(c: Cond)                 // cond_wait, holder cleared
    | WaitSetHolder(c: Cond)                 // cond_wait, semaphore of the lock taken again
    | SignalUp(c: Cond, w: Waiter, all: bool, goal: seq<nat>)  // waiter dequeued, not yet upped
    | Broadcast(c: Cond, goal: seq<nat>)     // head of the loop in cond_broadcast

  /** An entry of a condition queue: the thread and the serial number of its wait. */
  datatype Waiter = Waiter(t: Tid, ticket: nat)

  /** `joined`, `sent` and `returned` record the tickets of all waits begun, of all signals sent
      and of all waits that have returned. */
  datatype CondVar = CondVar(queue: seq<Waiter>, joined: seq<nat>, sent: seq<nat>, returned: seq<nat>)

  datatype State = State(
    sched: Sched,
    pc: map<Tid, Pc>,
    semas: map<SemaId, Sema>,
    holder: map<nat, Tid>,                   // lock->holder, where it is not null
    conds: map<Cond, CondVar>,
    ticket: map<Tid, nat>,                   // the ticket of the thread's latest cond_wait
    owner: map<nat, Tid>,                    // history: who took the lock's semaphore last
    nextTicket: nat)

  function Cur(s: State): Tid {
    s.sched.cur
  }

  // ----- The pieces -----

  function SetPc(s: State, pc: Pc): State {
    s.(pc := s.pc[s.sched.cur := pc])
  }

  /** sema_up: wakes the first waiter, if any, and increments the value. */
  function SemaUp(s: State, id: SemaId): State
    requires id in s.semas
  {
    var m := s.semas[id];
    if m.waiters == [] then
      s.(semas := s.semas[id := m.(value := m.value + 1, ups := m.ups + 1)])
    else
      s.(semas := s.semas[id := m.(value := m.value + 1, ups := m.ups + 1, waiters := m.waiters[1..])],
         sched := Unblock(s.sched, m.waiters[0]))
  }

  /** Where a thread goes on after a sema_down has succeeded. */
  function AfterDown(op: DownOp): Pc {
    match op
    case PlainDown(_) => Free
    case Acquire(l) => SetHolder(l)
    case WaitDown(c) => Test(Reacquire(c))
    case Reacquire(c) => WaitSetHolder(c)
  }

  /** One test of the value in sema_down: take it, or go to sleep at the end of the queue. */
  function Attempt(s: State, op: DownOp): State
    requires SemaOf(op, Cur(s)) in s.semas && Cur(s) in s.sched.status
  {
    var t, id := Cur(s), SemaOf(op, Cur(s));
    var m := s.semas[id];
    if m.value == 0 then
      s.(semas := s.semas[id := m.(waiters := m.waiters + [t])],
         pc := s.pc[t := Retest(op)],
         sched := Block(s.sched))
    else
      var r := s.(semas := s.semas[id := m.(value := m.value - 1, downs := m.downs + 1)],
                  pc := s.pc[t := AfterDown(op)]);
      if id.OfLock? then r.(owner := s.owner[id.l := t]) else r
  }

  /** Releasing the semaphore of a lock. */
  function LockUp(s: State, l: nat, pc: Pc): State
    requires OfLock(l) in s.semas
  {
    var r := SetPc(SemaUp(s, OfLock(l)), pc);
    r.(owner := s.owner - {l})
  }

  /** cond_signal on a nonempty queue: dequeue the first waiter. */
  function Dequeue(s: State, c: Cond, all: bool, goal: seq<nat>): State
    requires c in s.conds && s.conds[c].queue != []
  {
    var v := s.conds[c];
    var w := v.queue[0];
    SetPc(s.(conds := s.conds[c := v.(queue := v.queue[1..], sent := v.sent + [w.ticket])]),
          SignalUp(c, w, all, goal))
  }

  /** cond_wait up to the point where the waiter is queued, its own semaphore at zero. */
  function Enqueue(s: State, c: Cond): State
    requires c in s.conds
  {
    var t, v := Cur(s), s.conds[c];
    SetPc(s.(semas := s.semas[OfWaiter(t) := Sema(0, [], 0, 0, 0)],
             conds := s.conds[c := v.(queue := v.queue + [Waiter(t, s.nextTicket)],
                                      joined := v.joined + [s.nextTicket])],
             ticket := s.ticket[t := s.nextTicket],
             nextTicket := s.nextTicket + 1),
          WaitClear(c))
  }

  /** The end of cond_wait: the lock is held again. */
  function Return(s: State, c: Cond): State
    requires c in s.conds && Cur(s) in s.ticket
  {
    var v := s.conds[c];
    SetPc(s.(holder := s.holder[c.lock := Cur(s)],
             conds := s.conds[c := v.(returned := v.returned + [s.ticket[Cur(s)]])]),
          Free)
  }

  // ----- Steps -----

  datatype Step =
    | Preempt                                // the timer interrupt yields the processor
    | InterruptUp(n: nat)                    // an interrupt handler calls sema_up
    | IdleBlock                              // the idle thread's loop
    | Spawn(t: Tid)
    | Die
    | CallDown(n: nat)
    | CallTryDown(n: nat)
    | CallUp(n: nat)
    | CallAcquire(l: nat)
    | CallTryAcquire(l: nat)
    | CallRelease(l: nat)
    | CallWait(c: Cond)
    | CallSignal(c: Cond)
    | CallBroadcast(c: Cond)
    | Continue                               // the next piece of the operation under way

  ghost predicate Holds(s: State, t: Tid, l: nat) {
    l in s.holder && s.holder[l] == t
  }

  /** Which steps can happen: what the processor allows, what the ASSERTs ask of callers, and
      what the ASSERTs inside an operation ask of the state it has come to. */
  ghost predicate CanStep(s: State, step: Step) {
    && Cur(s) in s.pc && Cur(s) in s.sched.status
    && var pc := s.pc[Cur(s)];
       var client := pc == Free && Cur(s) != s.sched.idle;
       match step
       case Preempt => !pc.Retest?
       case InterruptUp(n) => !pc.Retest? && CanUp(s, Client(n))
       case IdleBlock => Cur(s) == s.sched.idle
       case Spawn(t) => client && t !in s.sched.status && t !in s.sched.freed
       case Die => client
       case CallDown(n) => client && Client(n) in s.semas
       case CallTryDown(n) => client && Client(n) in s.semas
       case CallUp(n) => client && CanUp(s, Client(n))
       case CallAcquire(l) => client && OfLock(l) in s.semas && !Holds(s, Cur(s), l)
       case CallTryAcquire(l) => client && OfLock(l) in s.semas && !Holds(s, Cur(s), l)
       case CallRelease(l) => client && OfLock(l) in s.semas && Holds(s, Cur(s), l)
       case CallWait(c) => client && c in s.conds && Holds(s, Cur(s), c.lock)
       case CallSignal(c) => client && c in s.conds && Holds(s, Cur(s), c.lock)
       case CallBroadcast(c) => client && c in s.conds && Holds(s, Cur(s), c.lock)
       case Continue => pc != Free && CanContinue(s, pc)
  }

  /** sema_up passes the ASSERT of thread_unblock: whoever it wakes is blocked. */
  ghost predicate CanUp(s: State, id: SemaId) {
    && id in s.semas
    && var q := s.semas[id].waiters; q != [] ==> q[0] in s.sched.status && s.sched.status[q[0]] == Blocked
  }

  /** The operation under way can go on, every ASSERT on its way holding: cond_wait still holds
      the lock it is about to release, no longer holds the lock it is about to acquire again,
      and cond_broadcast still holds the lock each cond_signal asks for. */
  ghost predicate CanContinue(s: State, pc: Pc) {
    match pc
    case Free => false
    case Test(op) => SemaOf(op, Cur(s)) in s.semas && (op.Reacquire? ==> !Holds(s, Cur(s), op.c.lock))
    case Retest(op) => SemaOf(op, Cur(s)) in s.semas
    case ReleaseUp(l) => CanUp(s, OfLock(l))
    case WaitClear(c) => Holds(s, Cur(s), c.lock)
    case WaitReleaseUp(c) => CanUp(s, OfLock(c.lock))
    case SignalUp(c, w, _, _) => CanUp(s, OfWaiter(w.t))
    case Broadcast(c, _) => c in s.conds && Holds(s, Cur(s), c.lock)
    case WaitSetHolder(c) => c in s.conds && Cur(s) in s.ticket
    case SetHolder(_) => true
  }

  ghost function Proceed(s: State, pc: Pc): State
    requires Cur(s) in s.sched.status && CanContinue(s, pc)
  {
    match pc
    case Test(op) => Attempt(s, op)
    case Retest(op) => Attempt(s, op)
    case SetHolder(l) => SetPc(s.(holder := s.holder[l := Cur(s)]), Free)
    case ReleaseUp(l) => LockUp(s, l, Free)
    case WaitClear(c) => SetPc(s.(holder := s.holder - {c.lock}), WaitReleaseUp(c))
    case WaitReleaseUp(c) => LockUp(s, c.lock, Test(WaitDown(c)))
    case WaitSetHolder(c) => Return(s, c)
    case SignalUp(c, w, all, goal) =>
      SetPc(SemaUp(s, OfWaiter(w.t)), if all then Broadcast(c, goal) else Free)
    case Broadcast(c, goal) =>
      if s.conds[c].queue == [] then SetPc(s, Free) else Dequeue(s, c, true, goal)
  }

  ghost function Next(s: State, step: Step): State
    requires CanStep(s, step)
  {
    match step
    case Preempt => s.(sched := Yield(s.sched))
    case InterruptUp(n) => SemaUp(s, Client(n))
    case IdleBlock => s.(sched := Block(s.sched))
    case Spawn(t) => s.(sched := Unblock(s.sched, t), pc := s.pc[t := Free])
    case Die =>
      if Cur(s) == s.sched.initial then s.(sched := Exit(s.sched))
      else s.(sched := Exit(s.sched), pc := s.pc - {Cur(s)})
    case CallDown(n) => Attempt(s, PlainDown(n))
    case CallTryDown(n) => if s.semas[Client(n)].value > 0 then Attempt(s, PlainDown(n)) else s
    case CallUp(n) => SemaUp(s, Client(n))
    case CallAcquire(l) => Attempt(s, Acquire(l))
    case CallTryAcquire(l) => if s.semas[OfLock(l)].value > 0 then Attempt(s, Acquire(l)) else s
    case CallRelease(l) => SetPc(s.(holder := s.holder - {l}), ReleaseUp(l))
    case CallWait(c) => Enqueue(s, c)
    case CallSignal(c) => if s.conds[c].queue == [] then s else Dequeue(s, c, false, [])
    case CallBroadcast(c) => SetPc(s, Broadcast(c, s.conds[c].joined))
    case Continue => Proceed(s, s.pc[Cur(s)])
  }
}
