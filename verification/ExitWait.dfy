/** fork, exit and wait (xv6/kernel/proc.c), as interleaved steps of all processes over wait_lock and
    the process locks. A wakeup's visit to one process and a scan's visit to one child happen under
    that process's lock, and are one step each; locks held for longer follow from where their holder is. */
module ExitWait {
  datatype ProcState = UNUSED | USED | SLEEPING | READY | ZOMBIE   // READY: RUNNABLE or RUNNING

  /** Where a process is. */
  datatype Pc =
    | Nowhere
    | Embryo(maker: nat)               // allocated, not yet runnable
    | Run                              // not in fork, exit or wait
    | ForkWant(child: nat)             // kfork: child's lock released, wait_lock wanted
    | ForkSet(child: nat)              // kfork: wait_lock held
    | ForkGo(child: nat)               // kfork: np->parent set, wait_lock released
    | Reparent(i: nat)                 // reparent's loop
    | ReparentWake(i: nat, j: nat)     // wakeup(initproc) inside it
    | WakeParent(j: nat)               // wakeup(p->parent)
    | ExitOwn                          // own lock taken
    | ExitRelease                      // state = ZOMBIE
    | ExitSwitch                       // wait_lock released, in sched
    | Dead                             // switched away for good
    | Scan(i: nat, havekids: bool)     // kwait's loop
    | SleepOwn                         // sleep: own lock taken
    | SleepReleased                    // sleep: wait_lock released
    | SleepSet                         // sleep: state = SLEEPING, in sched
    | Asleep                           // switched away
    | WaitWant                         // woken, wait_lock wanted

  datatype Proc = Proc(parent: int, state: ProcState, pc: Pc)

  /** wl is the process that holds wait_lock, or -1. */
  datatype State = State(procs: seq<Proc>, wl: int, init: nat)

  datatype Step =
    | ForkAlloc(p: nat, c: nat)
    | ForkAbort(p: nat)
    | ForkLock(p: nat)
    | ForkParent(p: nat)
    | ForkReady(p: nat)
    | ExitLock(p: nat)
    | ReparentNext(p: nat)
    | ReparentWakeNext(p: nat)
    | WakeParentNext(p: nat)
    | ExitZombie(p: nat)
    | ExitUnlock(p: nat)
    | ExitDone(p: nat)
    | WaitLock(p: nat)
    | ScanNext(p: nat)
    | ScanFail(p: nat)                 // copyout of the status failed
    | ScanEnd(p: nat, killed: bool)
    | SleepUnlock(p: nat)
    | SleepState(p: nat)
    | SleepSwitch(p: nat)
    | Resume(p: nat)
    | Kill(p: nat, v: nat)

  predicate HoldsWaitLock(pc: Pc) {
    || pc.ForkSet? || pc.Reparent? || pc.ReparentWake? || pc.WakeParent? || pc.ExitOwn? || pc.ExitRelease?
    || pc.Scan? || pc.SleepOwn?
  }

  /** The process holds its own lock over several steps. */
  predicate Locked(pc: Pc) {
    pc.ExitOwn? || pc.ExitRelease? || pc.ExitSwitch? || pc.SleepOwn? || pc.SleepReleased? || pc.SleepSet?
  }

  predicate At(s: State, p: nat) {
    p < |s.procs|
  }

  /** Process j may be visited: its lock is free. */
  predicate Open(s: State, j: nat) {
    j < |s.procs| && !Locked(s.procs[j].pc)
  }

  predicate Enabled(s: State, step: Step) {
    At(s, step.p) && s.init < |s.procs| &&
    var pc := s.procs[step.p].pc;
    match step
    case ForkAlloc(p, c) => pc.Run? && Open(s, c) && s.procs[c].state == UNUSED
    case ForkAbort(p) => pc.ForkWant? && Open(s, pc.child)
    case ForkLock(p) => pc.ForkWant? && s.wl < 0
    case ForkParent(p) => pc.ForkSet? && At(s, pc.child)
    case ForkReady(p) => pc.ForkGo? && Open(s, pc.child)
    case ExitLock(p) => pc.Run? && p != s.init && s.wl < 0
    case ReparentNext(p) => pc.Reparent? && pc.i <= |s.procs|
    case ReparentWakeNext(p) => pc.ReparentWake? && (pc.j < |s.procs| && pc.j != p ==> Open(s, pc.j))
    case WakeParentNext(p) => pc.WakeParent? && (pc.j < |s.procs| && pc.j != p ==> Open(s, pc.j))
    case ExitZombie(p) => pc.ExitOwn?
    case ExitUnlock(p) => pc.ExitRelease?
    case ExitDone(p) => pc.ExitSwitch?
    case WaitLock(p) => (pc.Run? || pc.WaitWant?) && s.wl < 0
    case ScanNext(p) => pc.Scan? && pc.i < |s.procs| && (s.procs[pc.i].parent == p ==> Open(s, pc.i))
    case ScanFail(p) =>
      pc.Scan? && pc.i < |s.procs| && s.procs[pc.i].parent == p && Open(s, pc.i) && s.procs[pc.i].state == ZOMBIE
    case ScanEnd(p, _) => pc.Scan? && pc.i == |s.procs|
    case SleepUnlock(p) => pc.SleepOwn?
    case SleepState(p) => pc.SleepReleased?
    case SleepSwitch(p) => pc.SleepSet?
    case Resume(p) => pc.Asleep? && s.procs[p].state == READY
    case Kill(p, v) => pc.Run? && Open(s, v) && s.procs[v].state == SLEEPING
  }

  function Put(s: State, p: nat, x: Proc): (s': State)
    requires At(s, p)
  {
    s.(procs := s.procs[p := x])
  }

  function Goto(s: State, p: nat, pc: Pc): (s': State)
    requires At(s, p)
  {
    Put(s, p, s.procs[p].(pc := pc))
  }

  /** wakeup(chan)'s visit to j: the only channel of interest is a process's own, where wait sleeps. */
  function Wake(s: State, j: nat, chan: int): (s': State)
    requires At(s, j)
  {
    if j == chan && s.procs[j].state == SLEEPING then Put(s, j, s.procs[j].(state := READY)) else s
  }

  function Apply(s: State, step: Step): (s': State)
    requires Enabled(s, step)
  {
    var p := step.p;
    var x := s.procs[p];
    match step
    case ForkAlloc(_, c) => Goto(Put(s, c, s.procs[c].(state := USED, pc := Embryo(p))), p, ForkWant(c))
    case ForkAbort(_) => Goto(Put(s, x.pc.child, Proc(-1, UNUSED, Nowhere)), p, Run)
    case ForkLock(_) => Goto(s, p, ForkSet(x.pc.child)).(wl := p)
    case ForkParent(_) => Goto(Put(s, x.pc.child, s.procs[x.pc.child].(parent := p)), p, ForkGo(x.pc.child)).(wl := -1)
    case ForkReady(_) => Goto(Put(s, x.pc.child, s.procs[x.pc.child].(state := READY, pc := Run)), p, Run)
    case ExitLock(_) => Goto(s, p, Reparent(0)).(wl := p)
    case ReparentNext(_) =>
      var i := x.pc.i;
      if i == |s.procs| then Goto(s, p, WakeParent(0))
      else if s.procs[i].parent == p then Goto(Put(s, i, s.procs[i].(parent := s.init)), p, ReparentWake(i, 0))
      else Goto(s, p, Reparent(i + 1))
    case ReparentWakeNext(_) =>
      var j := x.pc.j;
      if j >= |s.procs| then Goto(s, p, Reparent(x.pc.i + 1))
      else if j == p then Goto(s, p, ReparentWake(x.pc.i, j + 1))
      else Goto(Wake(s, j, s.init), p, ReparentWake(x.pc.i, j + 1))
    case WakeParentNext(_) =>
      var j := x.pc.j;
      if j >= |s.procs| then Goto(s, p, ExitOwn)
      else if j == p then Goto(s, p, WakeParent(j + 1))
      else Goto(Wake(s, j, x.parent), p, WakeParent(j + 1))
    case ExitZombie(_) => Put(s, p, x.(state := ZOMBIE, pc := ExitRelease))
    case ExitUnlock(_) => Goto(s, p, ExitSwitch).(wl := -1)
    case ExitDone(_) => Goto(s, p, Dead)
    case WaitLock(_) => Goto(s, p, Scan(0, false)).(wl := p)
    case ScanNext(_) =>
      var i := x.pc.i;
      if s.procs[i].parent != p then Goto(s, p, Scan(i + 1, x.pc.havekids))
      else if s.procs[i].state == ZOMBIE then Goto(Put(s, i, Proc(-1, UNUSED, Nowhere)), p, Run).(wl := -1)
      else Goto(s, p, Scan(i + 1, true))
    case ScanFail(_) => Goto(s, p, Run).(wl := -1)
    case ScanEnd(_, killed) =>
      if !x.pc.havekids || killed then Goto(s, p, Run).(wl := -1) else Goto(s, p, SleepOwn)
    case SleepUnlock(_) => Goto(s, p, SleepReleased).(wl := -1)
    case SleepState(_) => Put(s, p, x.(state := SLEEPING, pc := SleepSet))
    case SleepSwitch(_) => Goto(s, p, Asleep)
    case Resume(_) => Goto(s, p, WaitWant)
    case Kill(_, v) => Put(s, v, s.procs[v].(state := READY))
  }

  // ---------------------------------------------------------------- the invariant

  ghost predicate Inv(s: State) {
    && Base(s)
    && (forall p :: 0 <= p < |s.procs| ==> Own(s, p))
    && (forall p, q :: 0 <= p < |s.procs| && 0 <= q < |s.procs| ==> Pair(s, p, q))
  }

  predicate Base(s: State) {
    && s.init < |s.procs| && s.wl < |s.procs|
    && (s.wl >= 0 ==> HoldsWaitLock(s.procs[s.wl].pc))
  }

  predicate StateOk(x: Proc) {
    match x.pc
    case Nowhere => x.state == UNUSED && x.parent == -1
    case Embryo(_) => x.state == USED
    case SleepSet => x.state == SLEEPING
    case Asleep => x.state == SLEEPING || x.state == READY
    case ExitRelease => x.state == ZOMBIE
    case ExitSwitch => x.state == ZOMBIE
    case Dead => x.state == ZOMBIE
    case _ => x.state == READY
  }

  /** Still able to have children. */
  predicate Parental(pc: Pc) {
    && !pc.Nowhere? && !pc.Embryo? && !pc.WakeParent?
    && !pc.ExitOwn? && !pc.ExitRelease? && !pc.ExitSwitch? && !pc.Dead?
  }

  predicate Leaving(pc: Pc) {
    pc.Reparent? || pc.ReparentWake? || pc.WakeParent? || pc.ExitOwn? || pc.ExitRelease? || pc.ExitSwitch? || pc.Dead?
  }

  /** In kwait, committed to sleep or asleep, with wait_lock released. */
  predicate Waiting(x: Proc) {
    x.pc.SleepReleased? || x.pc.SleepSet? || (x.pc.Asleep? && x.state == SLEEPING)
  }

  predicate Forks(pc: Pc) {
    pc.ForkWant? || pc.ForkSet? || pc.ForkGo?
  }

  ghost predicate Own(s: State, p: nat)
    requires p < |s.procs| && s.init < |s.procs|
  {
    Basic(s, p) && Making(s, p) && Rousing(s, p)
  }

  /** What holds of process p by itself. */
  predicate Basic(s: State, p: nat)
    requires p < |s.procs|
  {
    var x := s.procs[p];
    && StateOk(x)
    && (HoldsWaitLock(x.pc) ==> s.wl == p)
    && -1 <= x.parent < |s.procs| && x.parent != p
    && (p == s.init ==> !Leaving(x.pc) && !x.pc.Nowhere? && !x.pc.Embryo? && x.parent == -1)
    && (!x.pc.Nowhere? && !x.pc.Embryo? && p != s.init ==> x.parent >= 0)
    && (x.pc.Reparent? ==> x.pc.i <= |s.procs|)
    && (x.pc.ReparentWake? ==> x.pc.i < |s.procs|)
    && (x.pc.Scan? ==> x.pc.i <= |s.procs|)
  }

  /** fork and the process it is making know each other. */
  predicate Making(s: State, p: nat)
    requires p < |s.procs|
  {
    var x := s.procs[p];
    && (Forks(x.pc) ==> x.pc.child < |s.procs| && s.procs[x.pc.child].pc == Embryo(p)
                        && s.procs[x.pc.child].parent == if x.pc.ForkGo? then p else -1)
    && (x.pc.Embryo? ==> x.pc.maker < |s.procs| && Forks(s.procs[x.pc.maker].pc) && s.procs[x.pc.maker].pc.child == p)
  }

  /** Once exit has passed its parent in wakeup's loop, the parent is not waiting. */
  predicate Rousing(s: State, p: nat)
    requires p < |s.procs|
  {
    var x := s.procs[p];
    && (x.pc.WakeParent? && 0 <= x.parent < x.pc.j && x.parent < |s.procs| ==> !Waiting(s.procs[x.parent]))
    && (x.pc.ExitOwn? && 0 <= x.parent < |s.procs| ==> !Waiting(s.procs[x.parent]))
  }

  /** What holds between p and a child q of it. */
  predicate Pair(s: State, p: nat, q: nat)
    requires p < |s.procs| && q < |s.procs|
  {
    var x, y := s.procs[p], s.procs[q];
    y.parent == p ==>
      && Parental(x.pc)
      && (x.pc.Reparent? ==> x.pc.i <= q)
      && (x.pc.ReparentWake? ==> x.pc.i < q)
      && (x.pc.Scan? && q < x.pc.i ==> x.pc.havekids && y.state != ZOMBIE)
      && (x.pc.SleepOwn? ==> y.state != ZOMBIE)
      && (Waiting(x) && y.state == ZOMBIE ==> p == s.init && StillToWake(s, p))
  }

  /** An exiting process that has just handed init a child is on its way to wake p. */
  predicate StillToWake(s: State, p: nat) {
    0 <= s.wl < |s.procs| && s.procs[s.wl].pc.ReparentWake? && s.procs[s.wl].pc.j <= p
  }

  // ---------------------------------------------------------------- every step keeps it

  predicate IsFork(step: Step) {
    step.ForkAlloc? || step.ForkAbort? || step.ForkLock? || step.ForkParent? || step.ForkReady?
  }

  predicate IsWake(step: Step) {
    step.ReparentWakeNext? || step.WakeParentNext?
  }

  predicate IsLeave(step: Step) {
    step.ExitLock? || step.ReparentNext? || step.ExitZombie? || step.ExitUnlock? || step.ExitDone?
  }

  predicate IsWait(step: Step) {
    !IsFork(step) && !IsWake(step) && !IsLeave(step)
  }

  /** The other process a step changes or looks at, if any. */
  function Target(s: State, step: Step): (t: int)
    requires Enabled(s, step)
  {
    var pc := s.procs[step.p].pc;
    match step
    case ForkAlloc(_, c) => c
    case ReparentNext(_) => pc.i
    case ReparentWakeNext(_) => pc.j
    case WakeParentNext(_) => pc.j
    case ScanNext(_) => pc.i
    case Kill(_, v) => v
    case _ => -1
  }

  predicate Steps(s: State, step: Step, s': State) {
    && Base(s) && Enabled(s, step) && s' == Apply(s, step) && Basic(s, step.p) && Making(s, step.p) && Basic(s, s.init)
    && (0 <= Target(s, step) < |s.procs| ==> Basic(s, Target(s, step)))
  }

  lemma ForkBase(s: State, step: Step, s': State)
    requires Steps(s, step, s') && (IsFork(step) || IsWake(step))
    ensures Base(s') && |s'.procs| == |s.procs| && s'.init == s.init
  {
  }

  lemma OtherBase(s: State, step: Step, s': State)
    requires Steps(s, step, s') && !IsFork(step) && !IsWake(step)
    ensures Base(s') && |s'.procs| == |s.procs| && s'.init == s.init
  {
  }

  lemma StepBase(s: State, step: Step, s': State)
    requires Steps(s, step, s')
    ensures Base(s') && |s'.procs| == |s.procs| && s'.init == s.init
  {
    if IsFork(step) || IsWake(step) {
      ForkBase(s, step, s');
    } else {
      OtherBase(s, step, s');
    }
  }

  lemma ForkBasicSlot(s: State, step: Step, s': State, q: nat)
    requires Steps(s, step, s') && (step.ForkAlloc? || step.ForkAbort?) && q < |s.procs| && Basic(s, q)
    ensures |s'.procs| == |s.procs| && Basic(s', q)
  {
  }

  lemma ForkBasicRest(s: State, step: Step, s': State, q: nat)
    requires Steps(s, step, s') && IsFork(step) && !(step.ForkAlloc? || step.ForkAbort?) && q < |s.procs| && Basic(s, q)
    ensures |s'.procs| == |s.procs| && Basic(s', q)
  {
  }

  lemma ForkBasic(s: State, step: Step, s': State, q: nat)
    requires Steps(s, step, s') && IsFork(step) && q < |s.procs| && Basic(s, q)
    ensures |s'.procs| == |s.procs| && Basic(s', q)
  {
    if step.ForkAlloc? || step.ForkAbort? {
      ForkBasicSlot(s, step, s', q);
    } else {
      ForkBasicRest(s, step, s', q);
    }
  }

  lemma WakeBasic(s: State, step: Step, s': State, q: nat)
    requires Steps(s, step, s') && IsWake(step) && q < |s.procs| && Basic(s, q)
    ensures |s'.procs| == |s.procs| && Basic(s', q)
  {
  }

  lemma LeaveBasic(s: State, step: Step, s': State, q: nat)
    requires Steps(s, step, s') && IsLeave(step) && q < |s.procs| && Basic(s, q)
    ensures |s'.procs| == |s.procs| && Basic(s', q)
  {
  }

  lemma WaitBasicVisit(s: State, step: Step, s': State, q: nat)
    requires Steps(s, step, s') && (step.ScanNext? || step.Kill?) && q < |s.procs| && Basic(s, q)
    ensures |s'.procs| == |s.procs| && Basic(s', q)
  {
  }

  lemma WaitBasicRest(s: State, step: Step, s': State, q: nat)
    requires Steps(s, step, s') && IsWait(step) && !(step.ScanNext? || step.Kill?) && q < |s.procs| && Basic(s, q)
    ensures |s'.procs| == |s.procs| && Basic(s', q)
  {
  }

  lemma WaitBasic(s: State, step: Step, s': State, q: nat)
    requires Steps(s, step, s') && IsWait(step) && q < |s.procs| && Basic(s, q)
    ensures |s'.procs| == |s.procs| && Basic(s', q)
  {
    if step.ScanNext? || step.Kill? {
      WaitBasicVisit(s, step, s', q);
    } else {
      WaitBasicRest(s, step, s', q);
    }
  }

  lemma ForkMakingSlot(s: State, step: Step, s': State, q: nat)
    requires Steps(s, step, s') && (step.ForkAlloc? || step.ForkAbort?) && q < |s.procs| && Basic(s, q) && Making(s, q)
    ensures |s'.procs| == |s.procs| && Making(s', q)
  {
  }

  lemma ForkMakingRest(s: State, step: Step, s': State, q: nat)
    requires Steps(s, step, s') && IsFork(step) && !(step.ForkAlloc? || step.ForkAbort?) && q < |s.procs| && Basic(s, q)
    requires Making(s, q)
    ensures |s'.procs| == |s.procs| && Making(s', q)
  {
  }

  lemma ForkMaking(s: State, step: Step, s': State, q: nat)
    requires Steps(s, step, s') && IsFork(step) && q < |s.procs| && Basic(s, q) && Making(s, q)
    ensures |s'.procs| == |s.procs| && Making(s', q)
  {
    if step.ForkAlloc? || step.ForkAbort? {
      ForkMakingSlot(s, step, s', q);
    } else {
      ForkMakingRest(s, step, s', q);
    }
  }

  lemma ReparentWakeMaking(s: State, step: Step, s': State, q: nat)
    requires Steps(s, step, s') && step.ReparentWakeNext? && q < |s.procs| && Basic(s, q) && Making(s, q)
    ensures |s'.procs| == |s.procs| && Making(s', q)
  {
  }

  lemma WakeParentMaking(s: State, step: Step, s': State, q: nat)
    requires Steps(s, step, s') && step.WakeParentNext? && q < |s.procs| && Basic(s, q) && Making(s, q)
    ensures |s'.procs| == |s.procs| && Making(s', q)
  {
  }

  lemma WakeMaking(s: State, step: Step, s': State, q: nat)
    requires Steps(s, step, s') && IsWake(step) && q < |s.procs| && Basic(s, q) && Making(s, q)
    ensures |s'.procs| == |s.procs| && Making(s', q)
  {
    if step.ReparentWakeNext? {
      ReparentWakeMaking(s, step, s', q);
    } else {
      WakeParentMaking(s, step, s', q);
    }
  }

  lemma LeaveMaking(s: State, step: Step, s': State, q: nat)
    requires Steps(s, step, s') && IsLeave(step) && q < |s.procs| && Basic(s, q) && Making(s, q)
    ensures |s'.procs| == |s.procs| && Making(s', q)
  {
  }

  lemma WaitMakingVisit(s: State, step: Step, s': State, q: nat)
    requires Steps(s, step, s') && (step.ScanNext? || step.Kill?) && q < |s.procs| && Basic(s, q) && Making(s, q)
    ensures |s'.procs| == |s.procs| && Making(s', q)
  {
  }

  lemma WaitMakingRest(s: State, step: Step, s': State, q: nat)
    requires Steps(s, step, s') && IsWait(step) && !(step.ScanNext? || step.Kill?) && q < |s.procs| && Basic(s, q)
    requires Making(s, q)
    ensures |s'.procs| == |s.procs| && Making(s', q)
  {
  }

  lemma WaitMaking(s: State, step: Step, s': State, q: nat)
    requires Steps(s, step, s') && IsWait(step) && q < |s.procs| && Basic(s, q) && Making(s, q)
    ensures |s'.procs| == |s.procs| && Making(s', q)
  {
    if step.ScanNext? || step.Kill? {
      WaitMakingVisit(s, step, s', q);
    } else {
      WaitMakingRest(s, step, s', q);
    }
  }

  lemma ForkRousing(s: State, step: Step, s': State, q: nat)
    requires Steps(s, step, s') && IsFork(step) && q < |s.procs| && Basic(s, q) && Rousing(s, q)
    ensures |s'.procs| == |s.procs| && Rousing(s', q)
  {
  }

  lemma WakeRousing(s: State, step: Step, s': State, q: nat)
    requires Steps(s, step, s') && IsWake(step) && q < |s.procs| && Basic(s, q) && Rousing(s, q)
    ensures |s'.procs| == |s.procs| && Rousing(s', q)
  {
  }

  lemma LeaveRousing(s: State, step: Step, s': State, q: nat)
    requires Steps(s, step, s') && IsLeave(step) && q < |s.procs| && Basic(s, q) && Rousing(s, q)
    ensures |s'.procs| == |s.procs| && Rousing(s', q)
  {
  }

  lemma WaitRousing(s: State, step: Step, s': State, q: nat)
    requires Steps(s, step, s') && IsWait(step) && q < |s.procs| && Basic(s, q) && Rousing(s, q)
    ensures |s'.procs| == |s.procs| && Rousing(s', q)
  {
  }

  lemma ForkPairSlot(s: State, step: Step, s': State, p: nat, q: nat)
    requires Steps(s, step, s') && (step.ForkAlloc? || step.ForkAbort?) && p < |s.procs| && q < |s.procs|
    requires Basic(s, p) && Basic(s, q) && Pair(s, p, q) && Pair(s, step.p, q)
    ensures |s'.procs| == |s.procs| && s'.init == s.init && Pair(s', p, q)
  {
  }

  lemma ForkPairRest(s: State, step: Step, s': State, p: nat, q: nat)
    requires Steps(s, step, s') && IsFork(step) && !(step.ForkAlloc? || step.ForkAbort?) && p < |s.procs|
    requires q < |s.procs|
    requires Basic(s, p) && Basic(s, q) && Pair(s, p, q) && Pair(s, step.p, q)
    ensures |s'.procs| == |s.procs| && s'.init == s.init && Pair(s', p, q)
  {
  }

  lemma ForkPair(s: State, step: Step, s': State, p: nat, q: nat)
    requires Steps(s, step, s') && IsFork(step) && p < |s.procs| && q < |s.procs|
    requires Basic(s, p) && Basic(s, q) && Pair(s, p, q) && Pair(s, step.p, q)
    ensures |s'.procs| == |s.procs| && s'.init == s.init && Pair(s', p, q)
  {
    if step.ForkAlloc? || step.ForkAbort? {
      ForkPairSlot(s, step, s', p, q);
    } else {
      ForkPairRest(s, step, s', p, q);
    }
  }

  lemma WakePairInit(s: State, step: Step, s': State, p: nat, q: nat)
    requires Steps(s, step, s') && step.ReparentWakeNext? && p < |s.procs| && q < |s.procs|
    requires Basic(s, p) && Basic(s, q) && Pair(s, p, q) && Pair(s, step.p, q)
    ensures |s'.procs| == |s.procs| && s'.init == s.init && Pair(s', p, q)
  {
  }

  lemma WakePairRest(s: State, step: Step, s': State, p: nat, q: nat)
    requires Steps(s, step, s') && IsWake(step) && !(step.ReparentWakeNext?) && p < |s.procs| && q < |s.procs|
    requires Basic(s, p) && Basic(s, q) && Pair(s, p, q) && Pair(s, step.p, q)
    ensures |s'.procs| == |s.procs| && s'.init == s.init && Pair(s', p, q)
  {
  }

  lemma WakePair(s: State, step: Step, s': State, p: nat, q: nat)
    requires Steps(s, step, s') && IsWake(step) && p < |s.procs| && q < |s.procs|
    requires Basic(s, p) && Basic(s, q) && Pair(s, p, q) && Pair(s, step.p, q)
    ensures |s'.procs| == |s.procs| && s'.init == s.init && Pair(s', p, q)
  {
    if step.ReparentWakeNext? {
      WakePairInit(s, step, s', p, q);
    } else {
      WakePairRest(s, step, s', p, q);
    }
  }

  lemma LeavePair(s: State, step: Step, s': State, p: nat, q: nat)
    requires Steps(s, step, s') && IsLeave(step) && p < |s.procs| && q < |s.procs| && Rousing(s, step.p)
    requires Basic(s, p) && Basic(s, q) && Pair(s, p, q) && Pair(s, step.p, q)
    ensures |s'.procs| == |s.procs| && s'.init == s.init && Pair(s', p, q)
  {
  }

  lemma WaitPairVisit(s: State, step: Step, s': State, p: nat, q: nat)
    requires Steps(s, step, s') && (step.ScanNext? || step.Kill?) && p < |s.procs| && q < |s.procs|
    requires Basic(s, p) && Basic(s, q) && Pair(s, p, q) && Pair(s, step.p, q)
    ensures |s'.procs| == |s.procs| && s'.init == s.init && Pair(s', p, q)
  {
  }

  lemma WaitPairRest(s: State, step: Step, s': State, p: nat, q: nat)
    requires Steps(s, step, s') && IsWait(step) && !(step.ScanNext? || step.Kill?) && p < |s.procs| && q < |s.procs|
    requires Basic(s, p) && Basic(s, q) && Pair(s, p, q) && Pair(s, step.p, q)
    ensures |s'.procs| == |s.procs| && s'.init == s.init && Pair(s', p, q)
  {
  }

  lemma WaitPair(s: State, step: Step, s': State, p: nat, q: nat)
    requires Steps(s, step, s') && IsWait(step) && p < |s.procs| && q < |s.procs|
    requires Basic(s, p) && Basic(s, q) && Pair(s, p, q) && Pair(s, step.p, q)
    ensures |s'.procs| == |s.procs| && s'.init == s.init && Pair(s', p, q)
  {
    if step.ScanNext? || step.Kill? {
      WaitPairVisit(s, step, s', p, q);
    } else {
      WaitPairRest(s, step, s', p, q);
    }
  }

  lemma StepOwn(s: State, step: Step, s': State, q: nat)
    requires Steps(s, step, s') && q < |s.procs| && Own(s, q)
    ensures |s'.procs| == |s.procs| && s'.init == s.init && Own(s', q)
  {
    StepBase(s, step, s');
    if IsFork(step) {
      ForkBasic(s, step, s', q);
      ForkMaking(s, step, s', q);
      ForkRousing(s, step, s', q);
    } else if IsWake(step) {
      WakeBasic(s, step, s', q);
      WakeMaking(s, step, s', q);
      WakeRousing(s, step, s', q);
    } else if IsLeave(step) {
      LeaveBasic(s, step, s', q);
      LeaveMaking(s, step, s', q);
      LeaveRousing(s, step, s', q);
    } else {
      WaitBasic(s, step, s', q);
      WaitMaking(s, step, s', q);
      WaitRousing(s, step, s', q);
    }
  }

  lemma StepPair(s: State, step: Step, s': State, p: nat, q: nat)
    requires Steps(s, step, s') && p < |s.procs| && q < |s.procs| && Rousing(s, step.p)
    requires Basic(s, p) && Basic(s, q) && Pair(s, p, q) && Pair(s, step.p, q)
    ensures |s'.procs| == |s.procs| && s'.init == s.init && Pair(s', p, q)
  {
    if IsFork(step) {
      ForkPair(s, step, s', p, q);
    } else if IsWake(step) {
      WakePair(s, step, s', p, q);
    } else if IsLeave(step) {
      LeavePair(s, step, s', p, q);
    } else {
      WaitPair(s, step, s', p, q);
    }
  }

  lemma StepsFrom(s: State, step: Step, s': State)
    requires Inv(s) && Enabled(s, step) && s' == Apply(s, step)
    ensures Steps(s, step, s') && Rousing(s, step.p)
  {
    assert Own(s, step.p) && Own(s, s.init);
    if 0 <= Target(s, step) < |s.procs| {
      assert Own(s, Target(s, step));
    }
  }

  lemma StepKeepsInv(s: State, step: Step, s': State)
    requires Inv(s) && Enabled(s, step) && s' == Apply(s, step)
    ensures Inv(s')
  {
    StepsFrom(s, step, s');
    StepBase(s, step, s');
    forall q | 0 <= q < |s'.procs| ensures Own(s', q) {
      assert Own(s, q);
      StepOwn(s, step, s', q);
    }
    forall p, q | 0 <= p < |s'.procs| && 0 <= q < |s'.procs| ensures Pair(s', p, q) {
      assert Own(s, p) && Own(s, q) && Pair(s, p, q) && Pair(s, step.p, q);
      StepPair(s, step, s', p, q);
    }
  }

  // ---------------------------------------------------------------- runs

  ghost predicate Follows(s: State, step: Step, s': State) {
    Enabled(s, step) && s' == Apply(s, step)
  }

  ghost predicate IsRun(states: seq<State>, steps: seq<Step>) {
    && |states| == |steps| + 1
    && forall i :: 0 <= i < |steps| ==> Follows(states[i], steps[i], states[i + 1])
  }

  /** Only init, running. */
  predicate Started(s: State) {
    && s.init < |s.procs| && s.wl == -1
    && forall p :: 0 <= p < |s.procs| ==>
      s.procs[p] == if p == s.init then Proc(-1, READY, Run) else Proc(-1, UNUSED, Nowhere)
  }

  lemma {:induction false} RunInv(states: seq<State>, steps: seq<Step>, k: nat)
    requires IsRun(states, steps) && Started(states[0]) && k < |states|
    ensures Inv(states[k])
  {
    if k > 0 {
      RunInv(states, steps, k - 1);
      assert Follows(states[k - 1], steps[k - 1], states[k]);
      StepKeepsInv(states[k - 1], steps[k - 1], states[k]);
    }
  }

  /** No lost exit: in every interleaving, whenever wait_lock is free, no process that sleeps in wait has
      a child that has exited, whether its own or handed to it. */
  lemma NoLostExit(states: seq<State>, steps: seq<Step>, k: nat, p: nat, q: nat)
    requires IsRun(states, steps) && Started(states[0]) && k < |states| && states[k].wl < 0
    requires p < |states[k].procs| && q < |states[k].procs| && states[k].procs[q].parent == p
    requires states[k].procs[p].state == SLEEPING
    ensures states[k].procs[q].state != ZOMBIE
  {
    RunInv(states, steps, k);
    assert Own(states[k], p) && Pair(states[k], p, q);
  }

  /** Every process that has exited has a parent that can still wait for it. */
  lemma ZombieHasParent(states: seq<State>, steps: seq<Step>, k: nat, q: nat)
    requires IsRun(states, steps) && Started(states[0]) && k < |states|
    requires q < |states[k].procs| && states[k].procs[q].state == ZOMBIE
    ensures 0 <= states[k].procs[q].parent < |states[k].procs|
    ensures var x := states[k].procs[states[k].procs[q].parent]; x.state == READY || x.state == SLEEPING
  {
    RunInv(states, steps, k);
    assert Own(states[k], q);
    var p := states[k].procs[q].parent;
    assert Own(states[k], p) && Pair(states[k], p, q);
  }

  /** An exited process is freed once: only by its parent's wait, which leaves nothing to free again, and
      only after it has switched away for good. */
  lemma FreedByParentOnce(states: seq<State>, steps: seq<Step>, k: nat, q: nat)
    requires IsRun(states, steps) && Started(states[0]) && k < |steps|
    requires q < |states[k].procs| && |states[k + 1].procs| == |states[k].procs|
    requires states[k].procs[q].state == ZOMBIE && states[k + 1].procs[q].state != ZOMBIE
    ensures steps[k].ScanNext? && steps[k].p == states[k].procs[q].parent
    ensures states[k].procs[q].pc == Dead && states[k + 1].procs[q] == Proc(-1, UNUSED, Nowhere)
  {
    RunInv(states, steps, k);
    assert Follows(states[k], steps[k], states[k + 1]);
    assert Own(states[k], q) && Own(states[k], steps[k].p);
  }

  /** wait gives up for want of children only when there are none. */
  lemma NoKidsMeansNone(states: seq<State>, steps: seq<Step>, k: nat, q: nat)
    requires IsRun(states, steps) && Started(states[0]) && k < |steps| && steps[k].ScanEnd?
    requires steps[k].p < |states[k].procs| && q < |states[k].procs|
    requires states[k].procs[steps[k].p].pc.Scan? && !states[k].procs[steps[k].p].pc.havekids
    ensures states[k].procs[q].parent != steps[k].p
  {
    RunInv(states, steps, k);
    assert Follows(states[k], steps[k], states[k + 1]);
    assert Pair(states[k], steps[k].p, q);
  }
}
