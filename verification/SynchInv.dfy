/** The invariant of the synchronization machine, part by part, and its preservation by the
    pieces steps are made of. */
module SynchInv {
  import opened Common
  import opened Scheduler
  import opened Synch

  type Pcs = map<Tid, Pc>
  type Semas = map<SemaId, Sema>

  // ----- Wait lists -----

  ghost predicate Sleeps(pc: Pcs, t: Tid, id: SemaId) {
    t in pc && pc[t].Retest? && SemaOf(pc[t].op, t) == id
  }

  /** Every member of a wait list is a blocked thread inside sema_down on that semaphore, and
      every blocked thread is in the wait list of the semaphore it waits for. */
  ghost predicate Lists(pc: Pcs, semas: Semas, blocked: set<Tid>) {
    && (forall id | id in semas :: NoDup(semas[id].waiters))
    && (forall id, t {:trigger t in semas[id].waiters} | id in semas && t in semas[id].waiters ::
          Sleeps(pc, t, id) && t in blocked)
    && (forall t | t in blocked :: InWaitList(pc, semas, t))
    && (forall t | t in pc && (pc[t].Test? || pc[t].Retest?) :: SemaOf(pc[t].op, t) in semas)
  }

  ghost predicate InWaitList(pc: Pcs, semas: Semas, t: Tid) {
    && t in pc && pc[t].Retest?
    && SemaOf(pc[t].op, t) in semas
    && t in semas[SemaOf(pc[t].op, t)].waiters
  }

  /** The blocked threads, not counting the idle thread. */
  ghost function BlockedIn(status: map<Tid, Status>, idle: Tid): (b: set<Tid>) {
    set t | t in status && status[t] == Blocked && t != idle
  }

  ghost function BlockedSet(s: Sched): (b: set<Tid>) {
    BlockedIn(s.status, s.idle)
  }

  lemma UpLists(pc: Pcs, semas: Semas, blocked: set<Tid>, id: SemaId, m: Sema)
    requires Lists(pc, semas, blocked) && id in semas && semas[id].waiters != []
    requires m.waiters == semas[id].waiters[1..]
    ensures Lists(pc, semas[id := m], blocked - {semas[id].waiters[0]})
  {
    TailMembers(semas[id].waiters);
    var w := semas[id].waiters[0];
    assert w in semas[id].waiters;
  }

  lemma SleepLists(pc: Pcs, semas: Semas, blocked: set<Tid>, op: DownOp, t: Tid, m: Sema)
    requires Lists(pc, semas, blocked) && SemaOf(op, t) in semas && t !in blocked
    requires m.waiters == semas[SemaOf(op, t)].waiters + [t]
    ensures Lists(pc[t := Retest(op)], semas[SemaOf(op, t) := m], blocked + {t})
  {
    AppendNoDup(semas[SemaOf(op, t)].waiters, t);
  }

  /** A runnable thread moves on; no wait list changes. */
  lemma MoveLists(pc: Pcs, semas: Semas, blocked: set<Tid>, t: Tid, to: Pc, id: SemaId, m: Sema)
    requires Lists(pc, semas, blocked) && t !in blocked
    requires m.waiters == if id in semas then semas[id].waiters else []
    requires to.Test? || to.Retest? ==> SemaOf(to.op, t) in semas
    ensures Lists(pc[t := to], semas, blocked)
    ensures Lists(pc[t := to], semas[id := m], blocked)
    ensures pc[t := to][t := to] == pc[t := to]
  {
  }

  lemma DropLists(pc: Pcs, semas: Semas, blocked: set<Tid>, t: Tid)
    requires Lists(pc, semas, blocked) && t !in blocked
    ensures Lists(pc - {t}, semas, blocked)
  {
  }

  // ----- Wakeups -----

  /** The threads woken from the semaphore that have not tested its value since. */
  ghost function Woken(pc: Pcs, semas: Semas, id: SemaId): (w: set<Tid>)
    requires id in semas
  {
    set t | t in pc && Sleeps(pc, t, id) && t !in semas[id].waiters
  }

  /** While somebody waits, there are at least as many woken threads as units to be had. */
  ghost predicate Wakeups(pc: Pcs, semas: Semas) {
    forall id | id in semas && semas[id].waiters != [] :: |Woken(pc, semas, id)| >= semas[id].value
  }

  lemma UpWakeups(pc: Pcs, semas: Semas, blocked: set<Tid>, id: SemaId, m: Sema)
    requires Lists(pc, semas, blocked) && Wakeups(pc, semas) && id in semas
    requires m.value == semas[id].value + 1
    requires m.waiters == if semas[id].waiters == [] then [] else semas[id].waiters[1..]
    ensures Wakeups(pc, semas[id := m])
  {
    var after := semas[id := m];
    forall x | x in after && after[x].waiters != []
      ensures |Woken(pc, after, x)| >= after[x].value
    {
      if x == id {
        TailMembers(semas[id].waiters);
        var w := semas[id].waiters[0];
        assert w in semas[id].waiters;
        assert Woken(pc, after, id) == Woken(pc, semas, id) + {w};
      } else {
        assert Woken(pc, after, x) == Woken(pc, semas, x);
      }
    }
  }

  lemma SleepWakeups(pc: Pcs, semas: Semas, blocked: set<Tid>, op: DownOp, t: Tid, m: Sema)
    requires Lists(pc, semas, blocked) && Wakeups(pc, semas)
    requires SemaOf(op, t) in semas && t !in blocked && m.value == 0
    requires t in pc && pc[t].Retest? ==> pc[t].op == op
    ensures Wakeups(pc[t := Retest(op)], semas[SemaOf(op, t) := m])
  {
    var id := SemaOf(op, t);
    var pc', after := pc[t := Retest(op)], semas[id := m];
    forall x | x in after && after[x].waiters != []
      ensures |Woken(pc', after, x)| >= after[x].value
    {
      if x != id { assert Woken(pc', after, x) == Woken(pc, semas, x); }
    }
  }

  lemma TakeWakeups(pc: Pcs, semas: Semas, op: DownOp, t: Tid, to: Pc, m: Sema)
    requires Wakeups(pc, semas) && SemaOf(op, t) in semas && !to.Retest?
    requires m.value == semas[SemaOf(op, t)].value - 1 && m.waiters == semas[SemaOf(op, t)].waiters
    requires t in pc && pc[t].Retest? ==> pc[t].op == op
    ensures Wakeups(pc[t := to], semas[SemaOf(op, t) := m])
  {
    var id := SemaOf(op, t);
    var pc', after := pc[t := to], semas[id := m];
    forall x | x in after && after[x].waiters != []
      ensures |Woken(pc', after, x)| >= after[x].value
    {
      if x == id {
        var w := Woken(pc, semas, id);
        assert Woken(pc', after, id) == w - {t};
        assert |w - {t}| >= |w| - 1 by {
          if t in w { assert w == (w - {t}) + {t}; } else { assert w == w - {t}; }
        }
      } else {
        assert Woken(pc', after, x) == Woken(pc, semas, x);
      }
    }
  }

  lemma MoveWakeups(pc: Pcs, semas: Semas, t: Tid, to: Pc)
    requires Wakeups(pc, semas) && !to.Retest? && (t in pc ==> !pc[t].Retest?)
    ensures Wakeups(pc[t := to], semas)
    ensures Wakeups(pc - {t}, semas)
  {
    forall x | x in semas && semas[x].waiters != []
      ensures |Woken(pc[t := to], semas, x)| >= semas[x].value
      ensures |Woken(pc - {t}, semas, x)| >= semas[x].value
    {
      assert Woken(pc[t := to], semas, x) == Woken(pc, semas, x);
      assert Woken(pc - {t}, semas, x) == Woken(pc, semas, x);
    }
  }

  // ----- Locks -----

  /** The thread has taken the semaphore of the lock and not yet given it back. */
  ghost predicate Inside(s: State, t: Tid, l: nat) {
    Holds(s, t, l) || (t in s.pc && PcInside(s.pc[t], l))
  }

  ghost predicate PcInside(pc: Pc, l: nat) {
    match pc
    case SetHolder(k) => k == l
    case ReleaseUp(k) => k == l
    case WaitReleaseUp(c) => c.lock == l
    case WaitSetHolder(c) => c.lock == l
    case _ => false
  }

  /** The operations that run with the lock of their condition variable held. */
  ghost predicate NeedsHolder(pc: Pc, l: nat) {
    match pc
    case WaitClear(c) => c.lock == l
    case SignalUp(c, _, _, _) => c.lock == l
    case Broadcast(c, _) => c.lock == l
    case _ => false
  }

  ghost predicate Locks(s: State) {
    && (forall l | OfLock(l) in s.semas :: s.semas[OfLock(l)].value == if l in s.owner then 0 else 1)
    && (forall t, l | Inside(s, t, l) :: OfLock(l) in s.semas && l in s.owner && s.owner[l] == t)
    && (forall l | l in s.owner :: Inside(s, s.owner[l], l))
    && NotYetHeld(s)
    && Holders(s)
    && Departed(s)
  }

  ghost predicate NotYetHeld(s: State) {
    forall t, l | t in s.pc && PcInside(s.pc[t], l) :: l !in s.holder
  }

  ghost predicate Holders(s: State) {
    forall t, l | t in s.pc && NeedsHolder(s.pc[t], l) :: Holds(s, t, l)
  }

  /** In cond_wait without the lock: asleep, or on the way to acquiring it again. */
  ghost predicate Away(pc: Pc, l: nat) {
    (pc.Test? || pc.Retest?) && (pc.op.WaitDown? || pc.op.Reacquire?) && pc.op.c.lock == l
  }

  ghost predicate Departed(s: State) {
    forall t, l | t in s.pc && Away(s.pc[t], l) :: !Holds(s, t, l)
  }

  /** No lock's value differs between `a` and `b`, except possibly that of lock `l`. */
  ghost predicate LockValuesBut(a: Semas, b: Semas, l: nat) {
    && (forall k :: OfLock(k) in a <==> OfLock(k) in b)
    && (forall k | OfLock(k) in a && k != l :: a[OfLock(k)].value == b[OfLock(k)].value)
  }

  ghost predicate SameLockValues(a: Semas, b: Semas) {
    && (forall k :: OfLock(k) in a <==> OfLock(k) in b)
    && (forall k | OfLock(k) in a :: a[OfLock(k)].value == b[OfLock(k)].value)
  }

  lemma LocksSame(s: State, r: State)
    requires Locks(s) && SameLockValues(s.semas, r.semas)
    requires r.holder == s.holder && r.owner == s.owner && r.pc == s.pc
    ensures Locks(r)
  {
    assert forall u, l :: Inside(r, u, l) <==> Inside(s, u, l);
  }

  ghost predicate Outside(pc: Pc) {
    forall l :: !PcInside(pc, l)
  }

  lemma LocksMove(s: State, r: State, t: Tid, to: Pc)
    requires Locks(s) && SameLockValues(s.semas, r.semas) && r.holder == s.holder && r.owner == s.owner
    requires r.pc == s.pc[t := to] || r.pc == s.pc - {t}
    requires (t in s.pc ==> Outside(s.pc[t])) && Outside(to)
    requires forall l | NeedsHolder(to, l) :: Holds(s, t, l)
    requires forall l | Away(to, l) :: !Holds(s, t, l)
    ensures Locks(r)
  {
    assert forall u, l :: Inside(r, u, l) <==> Inside(s, u, l);
  }

  ghost predicate Takes(s: State, r: State, t: Tid, l: nat, to: Pc) {
    && OfLock(l) in s.semas && s.semas[OfLock(l)].value > 0
    && LockValuesBut(s.semas, r.semas, l) && r.semas[OfLock(l)].value == s.semas[OfLock(l)].value - 1
    && r.holder == s.holder && r.owner == s.owner[l := t] && r.pc == s.pc[t := to]
    && (t in s.pc ==> Outside(s.pc[t])) && PcInside(to, l)
  }

  lemma InsideTake(s: State, r: State, t: Tid, l: nat, to: Pc)
    requires Locks(s) && Takes(s, r, t, l, to)
    ensures l !in s.owner && l !in s.holder
    ensures forall u, k :: Inside(r, u, k) <==> if k == l then u == t else Inside(s, u, k)
  {
    assert l in s.holder ==> Inside(s, s.holder[l], l);
    assert forall k | k != l :: !PcInside(to, k);
    forall u, k
      ensures Inside(r, u, k) <==> if k == l then u == t else Inside(s, u, k)
    {
      assert !Inside(s, u, l);
    }
  }

  lemma LocksTake(s: State, r: State, t: Tid, l: nat, to: Pc)
    requires Locks(s) && Takes(s, r, t, l, to)
    ensures Locks(r)
  {
    InsideTake(s, r, t, l, to);
    assert forall k :: !NeedsHolder(to, k);
    assert forall k | k != l :: !PcInside(to, k);
  }

  lemma LocksGive(s: State, r: State, t: Tid, l: nat, to: Pc)
    requires Locks(s) && t in s.pc && PcInside(s.pc[t], l)
    requires LockValuesBut(s.semas, r.semas, l) && OfLock(l) in s.semas
    requires r.semas[OfLock(l)].value == s.semas[OfLock(l)].value + 1
    requires r.holder == s.holder && r.owner == s.owner - {l} && r.pc == s.pc[t := to]
    requires Outside(to) && (forall k :: !NeedsHolder(to, k)) && (forall k | Away(to, k) :: k == l)
    ensures Locks(r)
  {
    assert Inside(s, t, l);
    assert forall k | k != l :: !PcInside(s.pc[t], k);
    forall u, k
      ensures Inside(r, u, k) <==> k != l && Inside(s, u, k)
    {
      assert Inside(s, u, l) ==> u == t;
    }
  }

  lemma LocksSetHolder(s: State, r: State, t: Tid, l: nat)
    requires Locks(s) && t in s.pc && PcInside(s.pc[t], l)
    requires r.semas == s.semas && r.owner == s.owner
    requires r.holder == s.holder[l := t] && r.pc == s.pc[t := Free]
    ensures Locks(r)
  {
    assert Inside(s, t, l);
    assert forall k | k != l :: !PcInside(s.pc[t], k);
    assert forall u, k :: Inside(r, u, k) <==> Inside(s, u, k);
    forall u, k | u in r.pc && PcInside(r.pc[u], k)
      ensures k !in r.holder
    {
      assert PcInside(s.pc[u], k) && Inside(s, u, k);
    }
  }

  lemma LocksClearHolder(s: State, r: State, t: Tid, l: nat, to: Pc)
    requires Locks(s) && Holds(s, t, l) && t in s.pc && Outside(s.pc[t]) && PcInside(to, l)
    requires r.semas == s.semas && r.owner == s.owner
    requires r.holder == s.holder - {l} && r.pc == s.pc[t := to]
    ensures Locks(r)
  {
    assert Inside(s, t, l);
    assert forall k | k != l :: !PcInside(to, k);
    assert forall u, k :: Inside(r, u, k) <==> Inside(s, u, k);
    forall u, k | u in r.pc && NeedsHolder(r.pc[u], k)
      ensures Holds(r, u, k)
    {
      assert u != t && Holds(s, u, k);
      assert Inside(s, u, k);
    }
  }

  // ----- Condition variables -----

  ghost function Tickets(q: seq<Waiter>): (r: seq<nat>)
    ensures |r| == |q| && forall i | 0 <= i < |q| :: r[i] == q[i].ticket
  {
    seq(|q|, i requires 0 <= i < |q| => q[i].ticket)
  }

  /** In cond_wait, from joining the queue to taking the waiter's own semaphore. */
  ghost predicate WaitingOn(pc: Pc, c: Cond) {
    pc == WaitClear(c) || pc == WaitReleaseUp(c) || pc == Test(WaitDown(c)) || pc == Retest(WaitDown(c))
  }

  /** In cond_wait, after that, on the way to holding the lock again. */
  ghost predicate Reacquiring(pc: Pc, c: Cond) {
    pc == Test(Reacquire(c)) || pc == Retest(Reacquire(c)) || pc == WaitSetHolder(c)
  }

  ghost predicate SendsTo(pc: Pc, c: Cond, w: Waiter) {
    pc.SignalUp? && pc.c == c && pc.w == w
  }

  ghost predicate Broadcasting(pc: Pc, c: Cond, goal: seq<nat>) {
    pc == Broadcast(c, goal) || (pc.SignalUp? && pc.c == c && pc.all && pc.goal == goal)
  }

  /** The holder of the lock has dequeued the waiter and is about to up its semaphore. */
  ghost predicate Pending(s: State, c: Cond, w: Waiter) {
    c.lock in s.holder && s.holder[c.lock] in s.pc && SendsTo(s.pc[s.holder[c.lock]], c, w)
  }

  /** The three stages of a wait: queued and unsignalled; dequeued with the up still to come;
      upped exactly once. In the last stage the value is 1, whenever the signal came. */
  ghost predicate WaitStage(s: State, t: Tid, c: Cond) {
    && c in s.conds && t in s.ticket && OfWaiter(t) in s.semas
    && var v, m, w := s.conds[c], s.semas[OfWaiter(t)], Waiter(t, s.ticket[t]);
       && m.value == m.ups
       && w.ticket !in v.returned
       && if w in v.queue then m.ups == 0
          else w.ticket in v.sent && m.ups == if Pending(s, c, w) then 0 else 1
  }

  ghost predicate CondVarOk(v: CondVar, nextTicket: nat) {
    && v.joined == v.sent + Tickets(v.queue)
    && NoDup(v.joined) && NoDup(v.returned)
    && (forall x | x in v.joined :: x < nextTicket)
    && (forall x | x in v.returned :: x in v.sent)
  }

  ghost predicate CondVars(s: State) {
    forall c | c in s.conds :: OfLock(c.lock) in s.semas && CondVarOk(s.conds[c], s.nextTicket)
  }

  ghost predicate TicketsOk(s: State) {
    && (forall t | t in s.ticket :: s.ticket[t] < s.nextTicket)
    && (forall t, u | t in s.ticket && u in s.ticket && t != u :: s.ticket[t] != s.ticket[u])
  }

  ghost predicate Queues(s: State) {
    forall c, w {:trigger w in s.conds[c].queue} | c in s.conds && w in s.conds[c].queue :: QueuedOk(s, c, w)
  }

  ghost predicate QueuedOk(s: State, c: Cond, w: Waiter) {
    w.t in s.pc && WaitingOn(s.pc[w.t], c) && w.t in s.ticket && s.ticket[w.t] == w.ticket
  }

  ghost predicate Stages(s: State) {
    forall t, c {:trigger WaitStage(s, t, c)} {:trigger WaitingOn(s.pc[t], c)} |
      t in s.pc && WaitingOn(s.pc[t], c) :: WaitStage(s, t, c)
  }

  ghost predicate Reacquires(s: State) {
    forall t, c | t in s.pc && Reacquiring(s.pc[t], c) :: Signalled(s, t, c)
  }

  ghost predicate Sends(s: State) {
    forall u, c, w | u in s.pc && SendsTo(s.pc[u], c, w) :: SendOk(s, c, w)
  }

  ghost predicate Broadcasts(s: State) {
    forall u, c, g | u in s.pc && Broadcasting(s.pc[u], c, g) :: c in s.conds && s.conds[c].joined == g
  }

  ghost predicate Conds(s: State) {
    CondVars(s) && TicketsOk(s) && Queues(s) && Stages(s) && Reacquires(s) && Sends(s) && Broadcasts(s)
  }

  ghost predicate Signalled(s: State, t: Tid, c: Cond) {
    c in s.conds && t in s.ticket && s.ticket[t] in s.conds[c].sent && s.ticket[t] !in s.conds[c].returned
  }

  ghost predicate SendOk(s: State, c: Cond, w: Waiter) {
    && c in s.conds && w !in s.conds[c].queue
    && w.t in s.pc && WaitingOn(s.pc[w.t], c) && w.t in s.ticket && s.ticket[w.t] == w.ticket
  }

  ghost predicate WaiterSemasBut(a: Semas, b: Semas, t: Tid) {
    && (forall u :: OfWaiter(u) in a ==> OfWaiter(u) in b)
    && (forall u | OfWaiter(u) in a && u != t ::
          a[OfWaiter(u)].value == b[OfWaiter(u)].value && a[OfWaiter(u)].ups == b[OfWaiter(u)].ups)
    && (forall l :: OfLock(l) in a ==> OfLock(l) in b)
  }

  ghost predicate SameWaiterSemas(a: Semas, b: Semas) {
    && (forall u :: OfWaiter(u) in a ==> OfWaiter(u) in b)
    && (forall u | OfWaiter(u) in a ::
          a[OfWaiter(u)].value == b[OfWaiter(u)].value && a[OfWaiter(u)].ups == b[OfWaiter(u)].ups)
    && (forall l :: OfLock(l) in a ==> OfLock(l) in b)
  }

  /** Two positions that mean the same to condition variables. */
  ghost predicate SamePhase(a: Pc, b: Pc) {
    && (forall c :: WaitingOn(a, c) <==> WaitingOn(b, c))
    && (forall c :: Reacquiring(a, c) <==> Reacquiring(b, c))
    && !a.SignalUp? && !b.SignalUp?
  }

  ghost predicate HolderMoves(s: State, r: State, t: Tid, l: nat) {
    || r.holder == s.holder
    || (l !in s.holder && r.holder == s.holder[l := t])
    || (Holds(s, t, l) && r.holder == s.holder - {l})
  }

  /** Steps that touch no condition variable. */
  lemma CondsFrame(s: State, r: State, t: Tid, to: Pc, l: nat)
    requires Conds(s) && SameWaiterSemas(s.semas, r.semas)
    requires r.conds == s.conds && r.ticket == s.ticket && r.nextTicket == s.nextTicket
    requires t in s.pc && r.pc == s.pc[t := to] && HolderMoves(s, r, t, l)
    requires SamePhase(s.pc[t], to)
    requires forall c, g | Broadcasting(to, c, g) :: c in s.conds && s.conds[c].joined == g
    ensures Conds(r)
  {
    forall c, w
      ensures Pending(r, c, w) <==> Pending(s, c, w)
    {
    }
    forall u, c | u in r.pc && WaitingOn(r.pc[u], c)
      ensures WaitStage(r, u, c)
    {
      assert WaitingOn(s.pc[u], c) && WaitStage(s, u, c);
    }
    forall u, c, w | u in r.pc && SendsTo(r.pc[u], c, w)
      ensures SendOk(r, c, w)
    {
      assert SendsTo(s.pc[u], c, w) && SendOk(s, c, w);
    }
  }

  /** Steps of threads that are in no operation: none moves, one appears, or one is gone. */
  lemma CondsIdle(s: State, r: State, t: Tid)
    requires Conds(s) && SameWaiterSemas(s.semas, r.semas)
    requires r.conds == s.conds && r.ticket == s.ticket && r.nextTicket == s.nextTicket && r.holder == s.holder
    requires r.pc == s.pc || (t !in s.pc && r.pc == s.pc[t := Free]) || (t in s.pc && s.pc[t] == Free && r.pc == s.pc - {t})
    ensures Conds(r)
  {
    forall c, w
      ensures Pending(r, c, w) <==> Pending(s, c, w)
    {
    }
    forall u, c | u in r.pc && WaitingOn(r.pc[u], c)
      ensures WaitStage(r, u, c)
    {
      assert WaitingOn(s.pc[u], c) && WaitStage(s, u, c);
    }
    forall u, c, w | u in r.pc && SendsTo(r.pc[u], c, w)
      ensures SendOk(r, c, w)
    {
      assert SendsTo(s.pc[u], c, w) && SendOk(s, c, w);
    }
  }

  lemma AppendTickets(q: seq<Waiter>, w: Waiter)
    ensures Tickets(q + [w]) == Tickets(q) + [w.ticket]
  {
  }

  lemma FreshTicket(v: CondVar, k: nat)
    requires CondVarOk(v, k)
    ensures k !in v.joined && k !in v.sent && k !in v.returned
  {
    assert forall x | x in v.sent :: x in v.joined;
  }

  /** cond_wait joins the queue of a condition variable whose lock the thread holds. */
  ghost predicate Joins(s: State, c: Cond) {
    && Conds(s) && Holders(s)
    && Cur(s) in s.pc && s.pc[Cur(s)] == Free && c in s.conds && Holds(s, Cur(s), c.lock)
  }

  lemma JoinVars(s: State, c: Cond)
    requires Joins(s, c)
    ensures CondVars(Enqueue(s, c)) && TicketsOk(Enqueue(s, c))
  {
    var r, v := Enqueue(s, c), s.conds[c];
    AppendTickets(v.queue, Waiter(Cur(s), s.nextTicket));
    FreshTicket(v, s.nextTicket);
    AppendNoDup(v.joined, s.nextTicket);
    assert r.conds[c].joined == v.sent + Tickets(r.conds[c].queue);
  }

  lemma JoinQueues(s: State, c: Cond)
    requires Joins(s, c)
    ensures Queues(Enqueue(s, c))
  {
    var r, t := Enqueue(s, c), Cur(s);
    forall d, w | d in r.conds && w in r.conds[d].queue
      ensures QueuedOk(r, d, w)
    {
      if w in s.conds[d].queue { assert QueuedOk(s, d, w) && w.t != t; }
      else { assert d == c && w == Waiter(t, s.nextTicket); }
    }
  }

  lemma JoinStages(s: State, c: Cond)
    requires Joins(s, c)
    ensures Stages(Enqueue(s, c))
  {
    var r, t := Enqueue(s, c), Cur(s);
    forall u, d | u in r.pc && WaitingOn(r.pc[u], d)
      ensures WaitStage(r, u, d)
    {
      if u == t {
        assert r.conds[c].queue[|s.conds[c].queue|] == Waiter(t, s.nextTicket);
        FreshTicket(s.conds[c], s.nextTicket);
      } else {
        assert WaitingOn(s.pc[u], d) && WaitStage(s, u, d);
        var w := Waiter(u, s.ticket[u]);
        assert w in r.conds[d].queue <==> w in s.conds[d].queue;
        assert Pending(r, d, w) <==> Pending(s, d, w);
      }
    }
  }

  lemma JoinRest(s: State, c: Cond)
    requires Joins(s, c)
    ensures Reacquires(Enqueue(s, c)) && Sends(Enqueue(s, c)) && Broadcasts(Enqueue(s, c))
  {
    var r := Enqueue(s, c);
    forall u, d, w | u in r.pc && SendsTo(r.pc[u], d, w)
      ensures SendOk(r, d, w)
    {
      assert SendsTo(s.pc[u], d, w) && SendOk(s, d, w);
    }
    forall u, d | u in r.pc && Reacquiring(r.pc[u], d)
      ensures Signalled(r, u, d)
    {
      assert Reacquiring(s.pc[u], d) && Signalled(s, u, d);
    }
    forall u, d, g | u in r.pc && Broadcasting(r.pc[u], d, g)
      ensures d in r.conds && r.conds[d].joined == g
    {
      assert Broadcasting(s.pc[u], d, g);
      assert NeedsHolder(s.pc[u], d.lock);
    }
  }

  lemma JoinConds(s: State, c: Cond)
    requires Joins(s, c)
    ensures Conds(Enqueue(s, c))
  {
    JoinVars(s, c);
    JoinQueues(s, c);
    JoinStages(s, c);
    JoinRest(s, c);
  }

  /** cond_signal dequeues the first waiter. */
  ghost predicate Picks(s: State, c: Cond, all: bool, goal: seq<nat>) {
    && Conds(s) && Holders(s)
    && Cur(s) in s.pc && c in s.conds && s.conds[c].queue != [] && Holds(s, Cur(s), c.lock)
    && if all then s.pc[Cur(s)] == Broadcast(c, goal) else s.pc[Cur(s)] == Free
  }

  /** The first waiter of a queue occurs in it once. */
  lemma TicketsTail(q: seq<Waiter>)
    requires q != []
    ensures Tickets(q) == [q[0].ticket] + Tickets(q[1..])
  {
  }

  lemma QueueDistinct(v: CondVar, k: nat)
    requires CondVarOk(v, k)
    ensures NoDup(v.queue) && forall i | 0 <= i < |v.queue| :: v.queue[i].ticket in v.joined
  {
    assert forall i | 0 <= i < |v.queue| :: v.joined[|v.sent| + i] == v.queue[i].ticket;
  }

  lemma FirstOnce(v: CondVar, k: nat)
    requires CondVarOk(v, k) && v.queue != []
    ensures forall w :: w in v.queue[1..] <==> w in v.queue && w != v.queue[0]
    ensures v.joined == (v.sent + [v.queue[0].ticket]) + Tickets(v.queue[1..])
    ensures v.queue[0].ticket in v.joined
  {
    hide Tickets, NoDup;
    QueueDistinct(v, k);
    TailMembers(v.queue);
    TicketsTail(v.queue);
  }

  lemma PickVars(s: State, c: Cond, all: bool, goal: seq<nat>)
    requires Picks(s, c, all, goal)
    ensures CondVars(Dequeue(s, c, all, goal)) && TicketsOk(Dequeue(s, c, all, goal))
    ensures Broadcasts(Dequeue(s, c, all, goal)) && Reacquires(Dequeue(s, c, all, goal))
  {
    var r := Dequeue(s, c, all, goal);
    FirstOnce(s.conds[c], s.nextTicket);
    forall u, d, g | u in r.pc && Broadcasting(r.pc[u], d, g)
      ensures d in r.conds && r.conds[d].joined == g
    {
      assert Broadcasting(s.pc[u], d, g);
    }
    forall u, d | u in r.pc && Reacquiring(r.pc[u], d)
      ensures Signalled(r, u, d)
    {
      assert Reacquiring(s.pc[u], d) && Signalled(s, u, d);
    }
  }

  lemma PickQueues(s: State, c: Cond, all: bool, goal: seq<nat>)
    requires Picks(s, c, all, goal)
    ensures Queues(Dequeue(s, c, all, goal)) && Sends(Dequeue(s, c, all, goal))
  {
    var r, w0 := Dequeue(s, c, all, goal), s.conds[c].queue[0];
    FirstOnce(s.conds[c], s.nextTicket);
    assert w0 in s.conds[c].queue;
    forall d, w | d in r.conds && w in r.conds[d].queue
      ensures QueuedOk(r, d, w)
    {
      assert w in s.conds[d].queue && QueuedOk(s, d, w);
    }
    forall u, d, w | u in r.pc && SendsTo(r.pc[u], d, w)
      ensures SendOk(r, d, w)
    {
      if u == Cur(s) { assert d == c && w == w0 && QueuedOk(s, c, w0); }
      else { assert SendsTo(s.pc[u], d, w) && SendOk(s, d, w); }
    }
  }

  lemma PickStages(s: State, c: Cond, all: bool, goal: seq<nat>)
    requires Picks(s, c, all, goal)
    ensures Stages(Dequeue(s, c, all, goal))
  {
    var r, w0 := Dequeue(s, c, all, goal), s.conds[c].queue[0];
    FirstOnce(s.conds[c], s.nextTicket);
    assert w0 in s.conds[c].queue && QueuedOk(s, c, w0);
    forall u, d | u in r.pc && WaitingOn(r.pc[u], d)
      ensures WaitStage(r, u, d)
    {
      assert WaitingOn(s.pc[u], d) && WaitStage(s, u, d);
      var w := Waiter(u, s.ticket[u]);
      if d == c && w == w0 {
        assert Pending(r, c, w0);
      } else {
        assert w in r.conds[d].queue <==> w in s.conds[d].queue;
        assert Pending(r, d, w) <==> Pending(s, d, w);
      }
    }
  }

  lemma PickConds(s: State, c: Cond, all: bool, goal: seq<nat>)
    requires Picks(s, c, all, goal)
    ensures Conds(Dequeue(s, c, all, goal))
  {
    PickVars(s, c, all, goal);
    PickQueues(s, c, all, goal);
    PickStages(s, c, all, goal);
  }

  /** The signaller ups the waiter's semaphore. */
  ghost predicate Delivers(s: State, r: State, c: Cond, w: Waiter, to: Pc) {
    && Conds(s) && Holders(s) && Cur(s) in s.pc && SendsTo(s.pc[Cur(s)], c, w)
    && OfWaiter(w.t) in s.semas && WaiterSemasBut(s.semas, r.semas, w.t)
    && r.semas[OfWaiter(w.t)].value == s.semas[OfWaiter(w.t)].value + 1
    && r.semas[OfWaiter(w.t)].ups == s.semas[OfWaiter(w.t)].ups + 1
    && r.conds == s.conds && r.ticket == s.ticket && r.nextTicket == s.nextTicket && r.holder == s.holder
    && r.pc == s.pc[Cur(s) := to]
    && to == if s.pc[Cur(s)].all then Broadcast(c, s.pc[Cur(s)].goal) else Free
  }

  lemma SendStages(s: State, r: State, c: Cond, w: Waiter, to: Pc)
    requires Delivers(s, r, c, w, to)
    ensures Stages(r)
  {
    assert NeedsHolder(s.pc[Cur(s)], c.lock) && SendOk(s, c, w);
    assert Pending(s, c, w);
    forall u, d | u in r.pc && WaitingOn(r.pc[u], d)
      ensures WaitStage(r, u, d)
    {
      assert WaitingOn(s.pc[u], d) && WaitStage(s, u, d);
      var x := Waiter(u, s.ticket[u]);
      assert Pending(r, d, x) <==> Pending(s, d, x) && !(d == c && x == w);
    }
  }

  lemma SendConds(s: State, r: State, c: Cond, w: Waiter, to: Pc)
    requires Delivers(s, r, c, w, to)
    ensures Conds(r)
  {
    SendStages(s, r, c, w, to);
    assert SendOk(s, c, w);
    forall u, d, x | u in r.pc && SendsTo(r.pc[u], d, x)
      ensures SendOk(r, d, x)
    {
      assert SendsTo(s.pc[u], d, x) && SendOk(s, d, x);
    }
    forall u, d, g | u in r.pc && Broadcasting(r.pc[u], d, g)
      ensures d in r.conds && r.conds[d].joined == g
    {
      assert Broadcasting(s.pc[u], d, g);
    }
  }

  /** The waiter takes the unit its signal left in its own semaphore. */
  lemma ReceiveConds(s: State, r: State, c: Cond)
    requires Conds(s) && Holders(s) && Cur(s) in s.pc
    requires s.pc[Cur(s)] == Test(WaitDown(c)) || s.pc[Cur(s)] == Retest(WaitDown(c))
    requires OfWaiter(Cur(s)) in s.semas && s.semas[OfWaiter(Cur(s))].value > 0
    requires WaiterSemasBut(s.semas, r.semas, Cur(s))
    requires r.conds == s.conds && r.ticket == s.ticket && r.nextTicket == s.nextTicket && r.holder == s.holder
    requires r.pc == s.pc[Cur(s) := Test(Reacquire(c))]
    ensures Conds(r) && Signalled(r, Cur(s), c)
  {
    var t := Cur(s);
    assert WaitingOn(s.pc[t], c) && WaitStage(s, t, c);
    var w0 := Waiter(t, s.ticket[t]);
    forall d, w | d in r.conds && w in r.conds[d].queue
      ensures QueuedOk(r, d, w)
    {
      assert QueuedOk(s, d, w);
    }
    forall u, d, w | u in r.pc && SendsTo(r.pc[u], d, w)
      ensures SendOk(r, d, w)
    {
      assert SendsTo(s.pc[u], d, w) && SendOk(s, d, w) && NeedsHolder(s.pc[u], d.lock);
      assert Pending(s, d, w);
    }
    forall u, d | u in r.pc && WaitingOn(r.pc[u], d)
      ensures WaitStage(r, u, d)
    {
      assert WaitingOn(s.pc[u], d) && WaitStage(s, u, d);
      var x := Waiter(u, s.ticket[u]);
      assert Pending(r, d, x) <==> Pending(s, d, x);
    }
  }

  /** cond_wait returns. */
  ghost predicate Returns(s: State, c: Cond) {
    && Conds(s) && Cur(s) in s.pc && s.pc[Cur(s)] == WaitSetHolder(c) && c.lock !in s.holder
    && c in s.conds && Cur(s) in s.ticket
  }

  lemma ReturnStages(s: State, c: Cond)
    requires Returns(s, c)
    ensures Stages(Return(s, c))
  {
    var r := Return(s, c);
    forall u, d | u in r.pc && WaitingOn(r.pc[u], d)
      ensures WaitStage(r, u, d)
    {
      assert WaitingOn(s.pc[u], d) && WaitStage(s, u, d);
      var x := Waiter(u, s.ticket[u]);
      assert Pending(r, d, x) <==> Pending(s, d, x);
    }
  }

  lemma ReturnReacquires(s: State, c: Cond)
    requires Returns(s, c)
    ensures Reacquires(Return(s, c)) && Sends(Return(s, c))
  {
    var r := Return(s, c);
    forall u, d | u in r.pc && Reacquiring(r.pc[u], d)
      ensures Signalled(r, u, d)
    {
      assert Reacquiring(s.pc[u], d) && Signalled(s, u, d);
    }
    forall u, d, w | u in r.pc && SendsTo(r.pc[u], d, w)
      ensures SendOk(r, d, w)
    {
      assert SendsTo(s.pc[u], d, w) && SendOk(s, d, w);
    }
  }

  lemma ReturnVars(s: State, c: Cond)
    requires Returns(s, c)
    ensures CondVars(Return(s, c)) && TicketsOk(Return(s, c))
  {
    var t := Cur(s);
    assert Reacquiring(s.pc[t], c) && Signalled(s, t, c);
    AppendNoDup(s.conds[c].returned, s.ticket[t]);
  }

  lemma ReturnConds(s: State, c: Cond)
    requires Returns(s, c)
    ensures Conds(Return(s, c))
  {
    ReturnStages(s, c);
    ReturnReacquires(s, c);
    ReturnVars(s, c);
    ReturnQueues(s, c);
  }

  lemma ReturnQueues(s: State, c: Cond)
    requires Returns(s, c)
    ensures Queues(Return(s, c)) && Broadcasts(Return(s, c))
  {
    var r := Return(s, c);
    forall d, w | d in r.conds && w in r.conds[d].queue
      ensures QueuedOk(r, d, w)
    {
      assert QueuedOk(s, d, w);
    }
    forall u, d, g | u in r.pc && Broadcasting(r.pc[u], d, g)
      ensures d in r.conds && r.conds[d].joined == g
    {
      assert Broadcasting(s.pc[u], d, g);
    }
  }
}
