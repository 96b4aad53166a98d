/** The scheduler of xv6/kernel/proc.c on any number of CPUs, as interleaved steps: scheduler, sched,
    yield, sleep, the end of exit, and every other CPU that looks at a process under its lock (wakeup,
    kill, wait, allocproc). Locks are those of xv6/kernel/spinlock.c, taken in one step; swtch is two
    steps, one that saves the running context and one that loads the next. */
module Scheduler {
  datatype ProcState = UNUSED | USED | SLEEPING | RUNNABLE | RUNNING | ZOMBIE

  /** Where a process's registers are: all in p->context, or in a CPU. */
  datatype Context = Saved | Live(cpu: nat)

  datatype Proc = Proc(
    lock: int,         // the CPU that holds p->lock, or -1
    state: ProcState,
    context: Context)

  /** Where the kernel code of a running process is. */
  datatype Point =
    | Held             // back from swtch, p->lock still held
    | Free             // p->lock not held
    | Trapped(locks: nat)  // in a trap taken from there, whose handler holds so many spinlocks
    | Yielding         // yield: p->lock taken
    | Sleeping         // sleep: p->lock taken, the condition lock still held
    | Asleep           // sleep: the condition lock released
    | Exiting          // kexit: p->lock taken, wait_lock still held
    | Exited           // kexit: state is ZOMBIE, wait_lock still held
    | Gone             // in sched, state changed

  datatype Mode =
    | Scan                    // scheduler, between processes
    | Look(p: nat)            // scheduler, p->lock taken
    | Pick(p: nat)            // scheduler, p->state = RUNNING, c->proc = p
    | Enter(p: nat)           // swtch: scheduler's context saved, p's to be loaded
    | In(p: nat, at: Point)   // running p
    | Leave(p: nat)           // swtch: p's context saved, scheduler's to be loaded
    | Back(p: nat)            // scheduler, back from swtch

  datatype Core = Core(
    mode: Mode,
    visit: int,        // another process whose lock this CPU holds, or -1
    others: nat,       // other spinlocks the running process holds
    noff: int,
    intena: bool,
    intr: bool)        // interrupts enabled

  datatype State = State(procs: seq<Proc>, cores: seq<Core>)

  datatype Step =
    | SchedLock(c: nat, p: nat)
    | SchedSkip(c: nat)
    | SchedPick(c: nat)
    | SchedSave(c: nat)
    | SchedLoad(c: nat)
    | Unlock(c: nat)                       // release(&p->lock) after swtch
    | SetIntr(c: nat, on: bool)            // intr_on, intr_off, or a trap of the scheduler
    | TakeOther(c: nat)
    | DropOther(c: nat)
    | Trap(c: nat)                         // an interrupt, from user or kernel code
    | HandlerLock(c: nat)
    | HandlerUnlock(c: nat)
    | TrapReturn(c: nat)
    | YieldLock(c: nat)                    // yield, after a timer interrupt
    | YieldChange(c: nat)
    | SleepLock(c: nat)
    | SleepRelease(c: nat)
    | SleepChange(c: nat)
    | ExitLock(c: nat)
    | ExitChange(c: nat)
    | ExitRelease(c: nat)
    | SwitchOut(c: nat)                    // swtch in sched
    | SchedResume(c: nat)
    | SchedUnlock(c: nat)
    | Visit(c: nat, p: nat)                // acquire(&p->lock) by someone else
    | Wake(c: nat)                         // wakeup, kill
    | Reap(c: nat)                         // freeproc of a zombie, or of a process being made
    | Make(c: nat)                         // allocproc
    | Ready(c: nat)                        // kfork, userinit
    | EndVisit(c: nat)

  // ---------------------------------------------------------------- locks and interrupts

  function PushOff(k: Core): (k': Core) {
    k.(intena := if k.noff == 0 then k.intr else k.intena, noff := k.noff + 1, intr := false)
  }

  function PopOff(k: Core): (k': Core) {
    k.(noff := k.noff - 1, intr := if k.noff == 1 && k.intena then true else k.intr)
  }

  /** The process whose lock the CPU holds for scheduling it, or -1. */
  function Holds(m: Mode): (p: int) {
    if m.Scan? || (m.In? && (m.at.Free? || m.at.Trapped?)) then -1 else m.p
  }

  predicate Runs(m: Mode, at: Point) {
    m.In? && m.at == at
  }

  /** Where the kernel may take another process's lock: nowhere near a switch. */
  predicate Elsewhere(k: Core) {
    k.mode.Scan? || Runs(k.mode, Free) || InTrap(k.mode)
  }

  predicate InTrap(m: Mode) {
    m.In? && m.at.Trapped?
  }

  function HandlerLocks(m: Mode): (n: nat) {
    if InTrap(m) then m.at.locks else 0
  }

  predicate IsCore(s: State, c: nat) {
    c < |s.cores|
  }

  predicate On(s: State, c: nat) {
    c < |s.cores| && !s.cores[c].mode.Scan? && s.cores[c].mode.p < |s.procs|
  }

  predicate Visits(s: State, c: nat) {
    c < |s.cores| && 0 <= s.cores[c].visit < |s.procs|
  }

  predicate Enabled(s: State, step: Step) {
    match step
    case SchedLock(c, p) =>
      IsCore(s, c) && p < |s.procs| && s.cores[c].mode.Scan? && s.cores[c].visit < 0 && s.procs[p].lock < 0
    case SchedSkip(c) => On(s, c) && s.cores[c].mode.Look? && s.procs[s.cores[c].mode.p].state != RUNNABLE
    case SchedPick(c) => On(s, c) && s.cores[c].mode.Look? && s.procs[s.cores[c].mode.p].state == RUNNABLE
    case SchedSave(c) => On(s, c) && s.cores[c].mode.Pick?
    case SchedLoad(c) => On(s, c) && s.cores[c].mode.Enter?
    case Unlock(c) => On(s, c) && Runs(s.cores[c].mode, Held)
    case SetIntr(c, _) => IsCore(s, c) && Elsewhere(s.cores[c]) && !InTrap(s.cores[c].mode) && s.cores[c].noff == 0
    case TakeOther(c) => On(s, c) && Runs(s.cores[c].mode, Free)
    case DropOther(c) => On(s, c) && Runs(s.cores[c].mode, Free) && s.cores[c].others > 0
    case Trap(c) => On(s, c) && Runs(s.cores[c].mode, Free) && s.cores[c].intr
    case HandlerLock(c) => On(s, c) && InTrap(s.cores[c].mode)
    case HandlerUnlock(c) => On(s, c) && HandlerLocks(s.cores[c].mode) > 0
    case TrapReturn(c) => On(s, c) && Runs(s.cores[c].mode, Trapped(0)) && s.cores[c].visit < 0
    case YieldLock(c) =>
      On(s, c) && Runs(s.cores[c].mode, Trapped(0)) && s.cores[c].visit < 0 && s.procs[s.cores[c].mode.p].lock < 0
    case YieldChange(c) => On(s, c) && Runs(s.cores[c].mode, Yielding)
    case SleepLock(c) => On(s, c) && OwnLockFree(s, c) && s.cores[c].others == 1
    case SleepRelease(c) => On(s, c) && Runs(s.cores[c].mode, Sleeping)
    case SleepChange(c) => On(s, c) && Runs(s.cores[c].mode, Asleep)
    case ExitLock(c) => On(s, c) && OwnLockFree(s, c) && s.cores[c].others == 1
    case ExitChange(c) => On(s, c) && Runs(s.cores[c].mode, Exiting)
    case ExitRelease(c) => On(s, c) && Runs(s.cores[c].mode, Exited)
    case SwitchOut(c) => On(s, c) && Runs(s.cores[c].mode, Gone)
    case SchedResume(c) => On(s, c) && s.cores[c].mode.Leave?
    case SchedUnlock(c) => On(s, c) && s.cores[c].mode.Back?
    case Visit(c, p) =>
      IsCore(s, c) && p < |s.procs| && Elsewhere(s.cores[c]) && s.cores[c].visit < 0 && s.procs[p].lock < 0
    case Wake(c) => Visits(s, c) && s.procs[s.cores[c].visit].state == SLEEPING
    case Reap(c) =>
      Visits(s, c) && (s.procs[s.cores[c].visit].state == ZOMBIE || s.procs[s.cores[c].visit].state == USED)
    case Make(c) => Visits(s, c) && s.procs[s.cores[c].visit].state == UNUSED
    case Ready(c) => Visits(s, c) && s.procs[s.cores[c].visit].state == USED
    case EndVisit(c) => Visits(s, c)
  }

  /** About to take its own lock: not in someone else's critical section, and the lock is free. */
  predicate OwnLockFree(s: State, c: nat)
    requires On(s, c)
  {
    Runs(s.cores[c].mode, Free) && s.cores[c].visit < 0 && s.procs[s.cores[c].mode.p].lock < 0
  }

  function SetCore(s: State, c: nat, k: Core): (s': State)
    requires IsCore(s, c)
  {
    s.(cores := s.cores[c := k])
  }

  function SetProc(s: State, p: nat, x: Proc): (s': State)
    requires p < |s.procs|
  {
    s.(procs := s.procs[p := x])
  }

  /** acquire(&p->lock) on CPU c. */
  function Acquire(s: State, c: nat, p: nat, mode: Mode): (s': State)
    requires IsCore(s, c) && p < |s.procs|
  {
    SetProc(SetCore(s, c, PushOff(s.cores[c]).(mode := mode)), p, s.procs[p].(lock := c))
  }

  /** release(&p->lock) on CPU c. */
  function Release(s: State, c: nat, p: nat, mode: Mode): (s': State)
    requires IsCore(s, c) && p < |s.procs|
  {
    SetProc(SetCore(s, c, PopOff(s.cores[c]).(mode := mode)), p, s.procs[p].(lock := -1))
  }

  /** CPU c moves on, changing the state of the process it runs. */
  function Change(s: State, c: nat, at: Point, state: ProcState): (s': State)
    requires On(s, c) && s.cores[c].mode.In?
  {
    var p := s.cores[c].mode.p;
    SetProc(SetCore(s, c, s.cores[c].(mode := In(p, at))), p, s.procs[p].(state := state))
  }

  /** A visitor changes a process's state. */
  function ChangeVisited(s: State, c: nat, state: ProcState): (s': State)
    requires Visits(s, c)
  {
    SetProc(s, s.cores[c].visit, s.procs[s.cores[c].visit].(state := state))
  }

  function Apply(s: State, step: Step): (s': State)
    requires Enabled(s, step)
  {
    var c := step.c;
    var k := s.cores[c];
    match step
    case SchedLock(_, p) => Acquire(s, c, p, Look(p))
    case SchedSkip(_) => Release(s, c, k.mode.p, Scan)
    case SchedPick(_) =>
      SetProc(SetCore(s, c, k.(mode := Pick(k.mode.p))), k.mode.p, s.procs[k.mode.p].(state := RUNNING))
    case SchedSave(_) => SetCore(s, c, k.(mode := Enter(k.mode.p)))
    case SchedLoad(_) =>
      SetProc(SetCore(s, c, k.(mode := In(k.mode.p, Held))), k.mode.p, s.procs[k.mode.p].(context := Live(c)))
    case Unlock(_) => Release(s, c, k.mode.p, In(k.mode.p, Free))
    case SetIntr(_, on) => SetCore(s, c, k.(intr := on))
    case TakeOther(_) => SetCore(s, c, PushOff(k).(others := k.others + 1))
    case DropOther(_) => SetCore(s, c, PopOff(k).(others := k.others - 1))
    case Trap(_) => SetCore(s, c, k.(mode := In(k.mode.p, Trapped(0)), intr := false))
    case HandlerLock(_) => SetCore(s, c, PushOff(k).(mode := In(k.mode.p, Trapped(k.mode.at.locks + 1))))
    case HandlerUnlock(_) => SetCore(s, c, PopOff(k).(mode := In(k.mode.p, Trapped(k.mode.at.locks - 1))))
    case TrapReturn(_) => SetCore(s, c, k.(mode := In(k.mode.p, Free), intr := true))
    case YieldLock(_) => Acquire(s, c, k.mode.p, In(k.mode.p, Yielding))
    case YieldChange(_) => Change(s, c, Gone, RUNNABLE)
    case SleepLock(_) => Acquire(s, c, k.mode.p, In(k.mode.p, Sleeping))
    case SleepRelease(_) => SetCore(s, c, PopOff(k).(others := 0, mode := In(k.mode.p, Asleep)))
    case SleepChange(_) => Change(s, c, Gone, SLEEPING)
    case ExitLock(_) => Acquire(s, c, k.mode.p, In(k.mode.p, Exiting))
    case ExitChange(_) => Change(s, c, Exited, ZOMBIE)
    case ExitRelease(_) => SetCore(s, c, PopOff(k).(others := 0, mode := In(k.mode.p, Gone)))
    case SwitchOut(_) =>
      SetProc(SetCore(s, c, k.(mode := Leave(k.mode.p))), k.mode.p, s.procs[k.mode.p].(context := Saved))
    case SchedResume(_) => SetCore(s, c, k.(mode := Back(k.mode.p)))
    case SchedUnlock(_) => Release(s, c, k.mode.p, Scan)
    case Visit(_, p) => SetProc(SetCore(s, c, PushOff(k).(visit := p)), p, s.procs[p].(lock := c))
    case Wake(_) => ChangeVisited(s, c, RUNNABLE)
    case Reap(_) => ChangeVisited(s, c, UNUSED)
    case Make(_) => SetProc(s, k.visit, s.procs[k.visit].(state := USED, context := Saved))
    case Ready(_) => ChangeVisited(s, c, RUNNABLE)
    case EndVisit(_) => SetProc(SetCore(s, c, PopOff(k).(visit := -1)), k.visit, s.procs[k.visit].(lock := -1))
  }

  // ---------------------------------------------------------------- the invariant

  ghost predicate Inv(s: State) {
    && (forall c :: 0 <= c < |s.cores| ==> CoreOk(s.procs, s.cores[c], c))
    && (forall p :: 0 <= p < |s.procs| ==> ProcOk(s.cores, s.procs[p], p))
  }

  /** What a CPU's place in the code says of the process it is with, and of its own bookkeeping. */
  predicate CoreOk(procs: seq<Proc>, k: Core, c: nat) {
    && (!k.mode.Scan? ==> k.mode.p < |procs| && ModeOk(procs[k.mode.p], k.mode, c))
    && k.visit < |procs|
    && (k.visit >= 0 ==> Elsewhere(k) && procs[k.visit].lock == c)
    && OthersOk(k)
    && k.noff ==
       k.others + HandlerLocks(k.mode) + (if Holds(k.mode) >= 0 then 1 else 0) + (if k.visit >= 0 then 1 else 0)
    && (k.intr ==> k.noff == 0)
  }

  predicate ModeOk(x: Proc, m: Mode, c: nat)
    requires !m.Scan?
  {
    && (Holds(m) >= 0 ==> x.lock == c)
    && match m
       case Look(_) => true
       case Pick(_) => x.state == RUNNING && x.context == Saved
       case Enter(_) => x.state == RUNNING && x.context == Saved
       case In(_, at) => x.context == Live(c) && PointOk(x.state, at)
       case Leave(_) => x.state != RUNNING && x.context == Saved
       case Back(_) => x.state != RUNNING && x.context == Saved
  }

  predicate PointOk(state: ProcState, at: Point) {
    match at
    case Exited => state == ZOMBIE
    case Gone => state == RUNNABLE || state == SLEEPING || state == ZOMBIE
    case _ => state == RUNNING
  }

  /** Which other spinlocks are held: sleep and exit hold the one, near a switch there is none, and a trap finds none,
      since interrupts are on only where no lock is held. */
  predicate OthersOk(k: Core) {
    match k.mode
    case In(_, at) =>
      (match at
       case Free => true
       case Trapped(_) => k.others == 0
       case Sleeping => k.others == 1
       case Exiting => k.others == 1
       case Exited => k.others == 1
       case _ => k.others == 0)
    case _ => k.others == 0
  }

  /** A lock is held by a CPU whose place in the code says so, and live registers are in a CPU that is
      running the process. */
  predicate ProcOk(cores: seq<Core>, x: Proc, p: nat) {
    && (x.lock >= 0 ==> x.lock < |cores| && (Holds(cores[x.lock].mode) == p || cores[x.lock].visit == p))
    && (x.context.Live? ==>
         x.context.cpu < |cores| && cores[x.context.cpu].mode.In? && cores[x.context.cpu].mode.p == p)
  }

  // ---------------------------------------------------------------- every step keeps it

  /** Live registers are in the CPU that runs the process. */
  lemma LiveCore(s: State, p: nat)
    requires Inv(s) && p < |s.procs|
    ensures s.procs[p].context.Live? ==>
      var c := s.procs[p].context.cpu;
      IsCore(s, c) && CoreOk(s.procs, s.cores[c], c) && s.cores[c].mode.In? && s.cores[c].mode.p == p
  {
    assert ProcOk(s.cores, s.procs[p], p);
  }

  /** A process that is ready to run, with its lock held by a CPU that is not running it, has a
      complete context. */
  lemma ReadyIsSaved(s: State, c: nat)
    requires Inv(s) && On(s, c) && s.cores[c].mode.Look? && s.procs[s.cores[c].mode.p].state == RUNNABLE
    ensures s.procs[s.cores[c].mode.p].context == Saved
  {
    assert CoreOk(s.procs, s.cores[c], c);
    LiveCore(s, s.cores[c].mode.p);
  }

  /** Steps of the scheduler itself. */
  predicate IsSched(step: Step) {
    || step.SchedLock? || step.SchedSkip? || step.SchedPick? || step.SchedSave? || step.SchedLoad?
    || step.SchedResume? || step.SchedUnlock?
  }

  /** Steps under another process's lock. */
  predicate IsVisit(step: Step) {
    step.Visit? || step.Wake? || step.Reap? || step.Make? || step.Ready? || step.EndVisit?
  }

  /** Steps that touch no process. */
  predicate IsLocal(step: Step) {
    || step.SetIntr? || step.TakeOther? || step.DropOther? || step.Trap? || step.HandlerLock?
    || step.HandlerUnlock? || step.TrapReturn?
  }

  lemma SelfCoreSched(s: State, step: Step, s': State)
    requires Enabled(s, step) && s' == Apply(s, step) && CoreOk(s.procs, s.cores[step.c], step.c) && IsSched(step)
    requires step.SchedPick? ==> s.procs[s.cores[step.c].mode.p].context == Saved
    ensures |s'.cores| == |s.cores| && CoreOk(s'.procs, s'.cores[step.c], step.c)
  {
  }

  lemma SelfCoreVisit(s: State, step: Step, s': State)
    requires Enabled(s, step) && s' == Apply(s, step) && CoreOk(s.procs, s.cores[step.c], step.c) && IsVisit(step)
    ensures |s'.cores| == |s.cores| && CoreOk(s'.procs, s'.cores[step.c], step.c)
  {
  }

  lemma SelfCoreLocal(s: State, step: Step, s': State)
    requires Enabled(s, step) && s' == Apply(s, step) && CoreOk(s.procs, s.cores[step.c], step.c) && IsLocal(step)
    ensures |s'.cores| == |s.cores| && CoreOk(s'.procs, s'.cores[step.c], step.c)
  {
  }

  lemma SelfCoreRun(s: State, step: Step, s': State)
    requires Enabled(s, step) && s' == Apply(s, step) && CoreOk(s.procs, s.cores[step.c], step.c)
    requires !IsSched(step) && !IsVisit(step) && !IsLocal(step)
    ensures |s'.cores| == |s.cores| && CoreOk(s'.procs, s'.cores[step.c], step.c)
  {
  }

  lemma SelfCore(s: State, step: Step, s': State)
    requires Enabled(s, step) && s' == Apply(s, step) && CoreOk(s.procs, s.cores[step.c], step.c)
    requires step.SchedPick? ==> s.procs[s.cores[step.c].mode.p].context == Saved
    ensures |s'.cores| == |s.cores| && CoreOk(s'.procs, s'.cores[step.c], step.c)
  {
    if IsSched(step) {
      SelfCoreSched(s, step, s');
    } else if IsVisit(step) {
      SelfCoreVisit(s, step, s');
    } else if IsLocal(step) {
      SelfCoreLocal(s, step, s');
    } else {
      SelfCoreRun(s, step, s');
    }
  }

  lemma OtherCoreSched(s: State, step: Step, s': State, d: nat)
    requires Enabled(s, step) && s' == Apply(s, step) && CoreOk(s.procs, s.cores[step.c], step.c) && IsSched(step)
    requires d < |s.cores| && d != step.c && CoreOk(s.procs, s.cores[d], d)
    ensures |s'.cores| == |s.cores| && CoreOk(s'.procs, s'.cores[d], d)
  {
  }

  lemma OtherCoreVisit(s: State, step: Step, s': State, d: nat)
    requires Enabled(s, step) && s' == Apply(s, step) && CoreOk(s.procs, s.cores[step.c], step.c) && IsVisit(step)
    requires d < |s.cores| && d != step.c && CoreOk(s.procs, s.cores[d], d)
    ensures |s'.cores| == |s.cores| && CoreOk(s'.procs, s'.cores[d], d)
  {
  }

  lemma OtherCoreRun(s: State, step: Step, s': State, d: nat)
    requires Enabled(s, step) && s' == Apply(s, step) && CoreOk(s.procs, s.cores[step.c], step.c)
    requires !IsSched(step) && !IsVisit(step)
    requires d < |s.cores| && d != step.c && CoreOk(s.procs, s.cores[d], d)
    ensures |s'.cores| == |s.cores| && CoreOk(s'.procs, s'.cores[d], d)
  {
  }

  lemma OtherCore(s: State, step: Step, s': State, d: nat)
    requires Enabled(s, step) && s' == Apply(s, step) && CoreOk(s.procs, s.cores[step.c], step.c)
    requires d < |s.cores| && d != step.c && CoreOk(s.procs, s.cores[d], d)
    ensures |s'.cores| == |s.cores| && CoreOk(s'.procs, s'.cores[d], d)
  {
    if IsSched(step) {
      OtherCoreSched(s, step, s', d);
    } else if IsVisit(step) {
      OtherCoreVisit(s, step, s', d);
    } else {
      OtherCoreRun(s, step, s', d);
    }
  }

  lemma ProcSched(s: State, step: Step, s': State, p: nat)
    requires Enabled(s, step) && s' == Apply(s, step) && CoreOk(s.procs, s.cores[step.c], step.c) && IsSched(step)
    requires p < |s.procs| && ProcOk(s.cores, s.procs[p], p)
    ensures |s'.procs| == |s.procs| && ProcOk(s'.cores, s'.procs[p], p)
  {
  }

  lemma ProcVisit(s: State, step: Step, s': State, p: nat)
    requires Enabled(s, step) && s' == Apply(s, step) && CoreOk(s.procs, s.cores[step.c], step.c) && IsVisit(step)
    requires p < |s.procs| && ProcOk(s.cores, s.procs[p], p)
    ensures |s'.procs| == |s.procs| && ProcOk(s'.cores, s'.procs[p], p)
  {
  }

  lemma ProcLocal(s: State, step: Step, s': State, p: nat)
    requires Enabled(s, step) && s' == Apply(s, step) && CoreOk(s.procs, s.cores[step.c], step.c) && IsLocal(step)
    requires p < |s.procs| && ProcOk(s.cores, s.procs[p], p)
    ensures |s'.procs| == |s.procs| && ProcOk(s'.cores, s'.procs[p], p)
  {
  }

  lemma ProcRun(s: State, step: Step, s': State, p: nat)
    requires Enabled(s, step) && s' == Apply(s, step) && CoreOk(s.procs, s.cores[step.c], step.c)
    requires !IsSched(step) && !IsVisit(step) && !IsLocal(step)
    requires p < |s.procs| && ProcOk(s.cores, s.procs[p], p)
    ensures |s'.procs| == |s.procs| && ProcOk(s'.cores, s'.procs[p], p)
  {
  }

  lemma StepProc(s: State, step: Step, s': State, p: nat)
    requires Enabled(s, step) && s' == Apply(s, step) && CoreOk(s.procs, s.cores[step.c], step.c)
    requires p < |s.procs| && ProcOk(s.cores, s.procs[p], p)
    ensures |s'.procs| == |s.procs| && ProcOk(s'.cores, s'.procs[p], p)
  {
    if IsSched(step) {
      ProcSched(s, step, s', p);
    } else if IsVisit(step) {
      ProcVisit(s, step, s', p);
    } else if IsLocal(step) {
      ProcLocal(s, step, s', p);
    } else {
      ProcRun(s, step, s', p);
    }
  }

  lemma StepKeepsInv(s: State, step: Step, s': State)
    requires Inv(s) && Enabled(s, step) && s' == Apply(s, step)
    ensures Inv(s')
  {
    var c := step.c;
    assert CoreOk(s.procs, s.cores[c], c);
    if step.SchedPick? {
      ReadyIsSaved(s, c);
    }
    SelfCore(s, step, s');
    forall d | 0 <= d < |s'.cores| ensures CoreOk(s'.procs, s'.cores[d], d) {
      if d != c {
        OtherCore(s, step, s', d);
      }
    }
    forall p | 0 <= p < |s'.procs| ensures ProcOk(s'.cores, s'.procs[p], p) {
      if p < |s.procs| {
        StepProc(s, step, s', p);
      }
    }
  }

  // ---------------------------------------------------------------- runs

  ghost predicate Follows(s: State, step: Step, s': State) {
    Enabled(s, step) && s' == Apply(s, step)
  }

  ghost predicate Run(states: seq<State>, steps: seq<Step>) {
    && |states| == |steps| + 1
    && forall i :: 0 <= i < |steps| ==> Follows(states[i], steps[i], states[i + 1])
  }

  /** No processes yet, and every CPU at the top of scheduler(). */
  predicate Started(s: State) {
    && (forall p :: 0 <= p < |s.procs| ==> s.procs[p] == Proc(-1, UNUSED, Saved))
    && (forall c :: 0 <= c < |s.cores| ==> s.cores[c] == Core(Scan, -1, 0, 0, false, false))
  }

  lemma {:induction false} RunInv(states: seq<State>, steps: seq<Step>, k: nat)
    requires Run(states, steps) && Started(states[0]) && k < |states|
    ensures Inv(states[k])
  {
    if k > 0 {
      RunInv(states, steps, k - 1);
      assert Follows(states[k - 1], steps[k - 1], states[k]);
      StepKeepsInv(states[k - 1], steps[k - 1], states[k]);
    }
  }

  /** CPU c is running p, or switching to it or away from it. */
  predicate Has(s: State, c: nat, p: nat) {
    c < |s.cores| && !s.cores[c].mode.Scan? && !s.cores[c].mode.Look? && s.cores[c].mode.p == p
  }

  /** In every interleaving, a process is on at most one CPU, from the moment it is picked until the
      scheduler lets go of it. */
  lemma OneCpu(states: seq<State>, steps: seq<Step>, k: nat, c: nat, d: nat, p: nat)
    requires Run(states, steps) && Started(states[0]) && k < |states|
    requires Has(states[k], c, p) && Has(states[k], d, p)
    ensures c == d
  {
    RunInv(states, steps, k);
    assert CoreOk(states[k].procs, states[k].cores[c], c);
    assert CoreOk(states[k].procs, states[k].cores[d], d);
  }

  /** In every interleaving, when a CPU loads a process's context, the CPU that last ran the process has
      finished saving it, and no other CPU is with the process. */
  lemma LoadsSavedContext(states: seq<State>, steps: seq<Step>, k: nat, d: nat)
    requires Run(states, steps) && Started(states[0]) && k < |steps| && steps[k].SchedLoad?
    ensures On(states[k], steps[k].c) && states[k].procs[states[k].cores[steps[k].c].mode.p].context == Saved
    ensures d != steps[k].c ==> !Has(states[k], d, states[k].cores[steps[k].c].mode.p)
  {
    var s, c := states[k], steps[k].c;
    RunInv(states, steps, k);
    assert Follows(s, steps[k], states[k + 1]);
    assert CoreOk(s.procs, s.cores[c], c);
    assert d < |s.cores| ==> CoreOk(s.procs, s.cores[d], d);
  }

  /** A context that was saved is not written again until it is loaded: allocproc sets up only those of
      processes no CPU is with, and wait frees a zombie only after its CPU has switched away. */
  lemma VisitedIsOff(states: seq<State>, steps: seq<Step>, k: nat, d: nat)
    requires Run(states, steps) && Started(states[0]) && k < |steps|
    requires (steps[k].Make? || steps[k].Reap? || steps[k].Ready?)
    ensures var s, c := states[k], steps[k].c;
            && Visits(s, c) && s.procs[s.cores[c].visit].context == Saved
            && !Has(s, d, s.cores[c].visit)
  {
    var s, c := states[k], steps[k].c;
    RunInv(states, steps, k);
    assert Follows(s, steps[k], states[k + 1]);
    assert CoreOk(s.procs, s.cores[c], c);
    LiveCore(s, s.cores[c].visit);
    assert d < |s.cores| ==> CoreOk(s.procs, s.cores[d], d);
  }

  /** sched's four panics. */
  predicate SchedPanics(s: State, c: nat)
    requires On(s, c)
  {
    var k, x := s.cores[c], s.procs[s.cores[c].mode.p];
    x.lock != c || k.noff != 1 || x.state == RUNNING || k.intr
  }

  /** sched never panics: whoever switches away holds its own lock and no other, has changed its state,
      and has interrupts off. */
  lemma SchedNeverPanics(states: seq<State>, steps: seq<Step>, k: nat)
    requires Run(states, steps) && Started(states[0]) && k < |steps| && steps[k].SwitchOut?
    ensures On(states[k], steps[k].c) && !SchedPanics(states[k], steps[k].c)
  {
    RunInv(states, steps, k);
    assert Follows(states[k], steps[k], states[k + 1]);
    assert CoreOk(states[k].procs, states[k].cores[steps[k].c], steps[k].c);
  }

  /** Steps that release a spinlock. */
  predicate Releases(step: Step) {
    || step.SchedSkip? || step.Unlock? || step.DropOther? || step.SleepRelease? || step.ExitRelease?
    || step.SchedUnlock? || step.EndVisit? || step.HandlerUnlock?
  }

  /** pop_off never panics, and a p->lock is released by the CPU that holds it. */
  lemma ReleaseNeverPanics(states: seq<State>, steps: seq<Step>, k: nat)
    requires Run(states, steps) && Started(states[0]) && k < |steps| && Releases(steps[k])
    ensures steps[k].c < |states[k].cores| && states[k].cores[steps[k].c].noff >= 1 && !states[k].cores[steps[k].c].intr
    ensures steps[k].EndVisit? ==>
      Visits(states[k], steps[k].c) && states[k].procs[states[k].cores[steps[k].c].visit].lock == steps[k].c
    ensures steps[k].SchedSkip? || steps[k].Unlock? || steps[k].SchedUnlock? ==>
      On(states[k], steps[k].c) && states[k].procs[states[k].cores[steps[k].c].mode.p].lock == steps[k].c
  {
    RunInv(states, steps, k);
    assert Follows(states[k], steps[k], states[k + 1]);
    assert CoreOk(states[k].procs, states[k].cores[steps[k].c], steps[k].c);
  }
}
