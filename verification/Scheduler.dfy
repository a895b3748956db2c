/** The round-robin scheduler (src/threads/thread.c) as a machine whose steps are the
    regions that run with interrupts off. A state records the running thread, the ready list,
    the status of every thread whose page is still allocated, and the pages freed so far. */
module Scheduler {
  import opened Common

  type Tid = nat

  datatype Status = Running | Ready | Blocked | Dying

  datatype Sched = Sched(
    cur: Tid,
    ready: seq<Tid>,
    status: map<Tid, Status>,
    idle: Tid,
    initial: Tid,
    freed: seq<Tid>)

  /** What holds between any two steps of any run. */
  ghost predicate SchedInv(s: Sched) {
    && s.cur in s.status && s.status[s.cur] == Running
    && (forall t | t in s.status && s.status[t] == Running :: t == s.cur)
    && NoDup(s.ready)
    && (forall t | t in s.ready :: t in s.status && s.status[t] == Ready && t != s.idle)
    && (forall t | t in s.status && s.status[t] == Ready && t != s.idle :: t in s.ready)
    && s.idle in s.status && s.idle != s.initial
    && (forall t | t in s.status && s.status[t] == Dying :: t == s.initial)
    && NoDup(s.freed) && s.initial !in s.freed
    && (forall t | t in s.freed :: t !in s.status)
  }

  /** The state once thread_start has returned: the initial thread runs, the idle thread has
      set itself up and blocked. */
  function Start(initial: Tid, idle: Tid): (s: Sched)
    requires initial != idle
    ensures SchedInv(s)
  {
    Sched(initial, [], map[initial := Running, idle := Blocked], idle, initial, [])
  }

  /** next_thread_to_run: the front of the ready list, or the idle thread if it is empty. */
  function NextThread(s: Sched): Tid {
    if s.ready == [] then s.idle else s.ready[0]
  }

  /** schedule and thread_schedule_tail: switches to the next thread, marks it running, and
      frees the page of the thread switched away from if that one is dying. */
  function Schedule(s: Sched): (r: Sched)
    requires s.cur in s.status && s.status[s.cur] != Running
  {
    var next := NextThread(s);
    var ready := if s.ready == [] then [] else s.ready[1..];
    var status := s.status[next := Running];
    if s.cur != next && status[s.cur] == Dying && s.cur != s.initial
    then s.(cur := next, ready := ready, status := status - {s.cur}, freed := s.freed + [s.cur])
    else s.(cur := next, ready := ready, status := status)
  }

  function Block(s: Sched): (r: Sched)
    requires s.cur in s.status
  {
    Schedule(s.(status := s.status[s.cur := Blocked]))
  }

  function Yield(s: Sched): (r: Sched)
    requires s.cur in s.status
  {
    Schedule(s.(ready := if s.cur == s.idle then s.ready else s.ready + [s.cur],
                status := s.status[s.cur := Ready]))
  }

  function Exit(s: Sched): (r: Sched)
    requires s.cur in s.status
  {
    Schedule(s.(status := s.status[s.cur := Dying]))
  }

  function Unblock(s: Sched, t: Tid): (r: Sched) {
    s.(ready := s.ready + [t], status := s.status[t := Ready])
  }

  // ----- Every step keeps the invariant -----

  /** The invariant while the old thread has been descheduled and no thread runs yet. */
  ghost predicate Switching(s: Sched) {
    && s.cur in s.status && (s.status[s.cur] == Dying ==> s.cur != s.idle)
    && (forall t | t in s.status :: s.status[t] != Running)
    && NoDup(s.ready)
    && (forall t | t in s.ready :: t in s.status && s.status[t] == Ready && t != s.idle)
    && (forall t | t in s.status && s.status[t] == Ready && t != s.idle :: t in s.ready)
    && s.idle in s.status && s.idle != s.initial
    && (forall t | t in s.status && s.status[t] == Dying :: t == s.initial || t == s.cur)
    && NoDup(s.freed) && s.initial !in s.freed
    && (forall t | t in s.freed :: t !in s.status)
  }

  lemma TailMembers<T>(s: seq<T>)
    requires NoDup(s) && s != []
    ensures NoDup(s[1..])
    ensures forall t :: t in s[1..] <==> t in s && t != s[0]
  {
    assert s == [s[0]] + s[1..];
    forall t | t in s[1..] ensures t != s[0] {
      var i :| 0 <= i < |s[1..]| && s[1..][i] == t;
      assert s[i + 1] == t;
    }
  }

  lemma AppendNoDup<T>(s: seq<T>, x: T)
    requires NoDup(s) && x !in s
    ensures NoDup(s + [x])
    ensures forall t :: t in s + [x] <==> t in s || t == x
  {
  }

  lemma ScheduleKeeps(s: Sched)
    requires Switching(s)
    ensures SchedInv(Schedule(s))
  {
    if s.ready != [] { TailMembers(s.ready); }
    if s.status[s.cur] == Dying && s.cur != s.initial { AppendNoDup(s.freed, s.cur); }
  }

  lemma BlockKeeps(s: Sched)
    requires SchedInv(s)
    ensures SchedInv(Block(s))
    ensures s.cur == s.idle || Block(s).status[s.cur] == Blocked
  {
    ScheduleKeeps(s.(status := s.status[s.cur := Blocked]));
  }

  lemma YieldKeeps(s: Sched)
    requires SchedInv(s)
    ensures SchedInv(Yield(s))
  {
    if s.cur != s.idle { AppendNoDup(s.ready, s.cur); }
    ScheduleKeeps(s.(ready := if s.cur == s.idle then s.ready else s.ready + [s.cur],
                     status := s.status[s.cur := Ready]));
  }

  /** The exiting thread's page is freed by the thread that runs next, once, and never while
      the exiting thread still runs. */
  lemma ExitKeeps(s: Sched)
    requires SchedInv(s) && s.cur != s.idle
    ensures SchedInv(Exit(s)) && Exit(s).cur != s.cur
    ensures Exit(s).freed == if s.cur == s.initial then s.freed else s.freed + [s.cur]
  {
    ScheduleKeeps(s.(status := s.status[s.cur := Dying]));
  }

  lemma UnblockKeeps(s: Sched, t: Tid)
    requires SchedInv(s) && t in s.status && s.status[t] == Blocked && t != s.idle
    ensures SchedInv(Unblock(s, t))
  {
    AppendNoDup(s.ready, t);
  }

  /** thread_create: the new thread's page enters the ready list. */
  lemma CreateKeeps(s: Sched, t: Tid)
    requires SchedInv(s) && t !in s.status && t !in s.freed
    ensures SchedInv(Unblock(s, t))
  {
    AppendNoDup(s.ready, t);
  }

  // ----- Runs -----

  datatype SchedStep = StepBlock | StepYield | StepExit | StepUnblock(t: Tid) | StepCreate(t: Tid)

  /** The caller obligations the source asserts: only a blocked thread is unblocked, the idle
      thread never exits, and a new thread gets a page that is not in use. */
  ghost predicate Enabled(s: Sched, step: SchedStep) {
    match step
    case StepBlock => true
    case StepYield => true
    case StepExit => s.cur != s.idle
    case StepUnblock(t) => t in s.status && s.status[t] == Blocked && t != s.idle
    case StepCreate(t) => t !in s.status && t !in s.freed
  }

  ghost function Apply(s: Sched, step: SchedStep): Sched
    requires s.cur in s.status && Enabled(s, step)
  {
    match step
    case StepBlock => Block(s)
    case StepYield => Yield(s)
    case StepExit => Exit(s)
    case StepUnblock(t) => Unblock(s, t)
    case StepCreate(t) => Unblock(s, t)
  }

  lemma ApplyKeeps(s: Sched, step: SchedStep)
    requires SchedInv(s) && Enabled(s, step)
    ensures SchedInv(Apply(s, step))
  {
    match step
    case StepBlock => BlockKeeps(s);
    case StepYield => YieldKeeps(s);
    case StepExit => ExitKeeps(s);
    case StepUnblock(t) => UnblockKeeps(s, t);
    case StepCreate(t) => CreateKeeps(s, t);
  }

  ghost predicate Legal(s: Sched, steps: seq<SchedStep>)
    decreases |steps|
  {
    steps == [] || (s.cur in s.status && Enabled(s, steps[0]) && Legal(Apply(s, steps[0]), steps[1..]))
  }

  ghost function After(s: Sched, steps: seq<SchedStep>): Sched
    requires Legal(s, steps)
    decreases |steps|
  {
    if steps == [] then s else After(Apply(s, steps[0]), steps[1..])
  }

  ghost predicate Dispatches(step: SchedStep) {
    step.StepBlock? || step.StepYield? || step.StepExit?
  }

  ghost function DispatchCount(steps: seq<SchedStep>): (n: nat) {
    if steps == [] then 0 else (if Dispatches(steps[0]) then 1 else 0) + DispatchCount(steps[1..])
  }

  /** Safety over whole runs. */
  lemma {:induction false} RunKeeps(s: Sched, steps: seq<SchedStep>)
    requires SchedInv(s) && Legal(s, steps)
    ensures SchedInv(After(s, steps))
    decreases |steps|
  {
    if steps != [] {
      ApplyKeeps(s, steps[0]);
      RunKeeps(Apply(s, steps[0]), steps[1..]);
    }
  }

  /** Round robin: the thread at position k of the ready list moves up by one place with each
      dispatch and is the one that runs after dispatch number k + 1, whatever else happens. */
  lemma {:induction false} ReadyThreadRuns(s: Sched, steps: seq<SchedStep>, k: nat)
    requires SchedInv(s) && Legal(s, steps) && k < |s.ready|
    ensures var d := DispatchCount(steps);
            d <= k ==> k - d < |After(s, steps).ready| && After(s, steps).ready[k - d] == s.ready[k]
    ensures DispatchCount(steps) == k + 1 && Dispatches(steps[|steps| - 1]) ==> After(s, steps).cur == s.ready[k]
    decreases |steps|
  {
    if steps != [] {
      var s', rest := Apply(s, steps[0]), steps[1..];
      ApplyKeeps(s, steps[0]);
      assert rest != [] ==> rest[|rest| - 1] == steps[|steps| - 1];
      if !Dispatches(steps[0]) {
        assert s'.ready[k] == s.ready[k];
        ReadyThreadRuns(s', rest, k);
      } else if k > 0 {
        assert s'.ready[k - 1] == s.ready[k];
        ReadyThreadRuns(s', rest, k - 1);
      } else {
        assert s'.cur == s.ready[0];
        NoDispatchLast(rest);
      }
    }
  }

  lemma {:induction false} NoDispatchLast(steps: seq<SchedStep>)
    ensures steps != [] && DispatchCount(steps) == 0 ==> !Dispatches(steps[|steps| - 1])
  {
    if |steps| > 1 { NoDispatchLast(steps[1..]); }
  }
}
