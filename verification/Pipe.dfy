/** A pipe (xv6/kernel/pipe.c) as interleaved steps of the processes that write to it, read from it and
    close its ends. A loop iteration under the pipe's lock is one step; so is a wakeup's visit to one
    process, and each part of sleep. accepted and delivered record the bytes written and read so far. */
module Pipe {
  type Byte = b: int | 0 <= b < 256 witness 0

  const PIPESIZE: nat := 512

  /** Arithmetic on uint. */
  function Wrap(x: nat): (r: nat)
    ensures r < 0x1_0000_0000
  {
    x % 0x1_0000_0000
  }

  function Place(x: nat): (r: nat)
    ensures r < 512
  {
    x % 512
  }

  /** pipewrite with its bytes and i; piperead with its n and i; pipeclose of either end. */
  datatype Op = Write(bytes: seq<Byte>, i: nat) | Read(n: nat, i: nat) | CloseWrite | CloseRead

  /** Where a call is: waiting for the lock; at the head of its (first) loop; in piperead's copy loop; in
      wakeup, about to visit process j; or in sleep. */
  datatype Where = Want | Body | Copy | Wake(j: nat, sleepNext: bool) | SleepOwn | SleepReleased | Asleep(woken: bool)

  datatype Proc = Idle | In(op: Op, at: Where)

  datatype Ring = Ring(data: seq<Byte>, nread: nat, nwrite: nat)

  /** lock is the process that holds the pipe's lock, or -1; readref and writeref say that some process has
      that end open as a file. */
  datatype State = State(ring: Ring, readopen: bool, writeopen: bool, readref: bool, writeref: bool, lock: int,
                         procs: seq<Proc>, killed: seq<bool>, accepted: seq<Byte>, delivered: seq<Byte>)

  datatype Step =
    | StartWrite(p: nat, bytes: seq<Byte>)
    | StartRead(p: nat, n: nat)
    | StartClose(p: nat, writable: bool)
    | Acquire(p: nat)
    | WriteNext(p: nat, fault: bool)     // one iteration of pipewrite's loop
    | ReadTest(p: nat)                   // one test of piperead's first loop
    | ReadNext(p: nat, fault: bool)      // one iteration of its copy loop
    | Visit(p: nat)
    | WakeDone(p: nat)
    | SleepRelease(p: nat)
    | SleepState(p: nat)
    | Kill(p: nat)

  predicate Full(r: Ring) {
    r.nwrite == Wrap(r.nread + PIPESIZE)
  }

  predicate Empty(r: Ring) {
    r.nread == r.nwrite
  }

  predicate HoldsLock(x: Proc) {
    x.In? && (x.at.Body? || x.at.Copy? || x.at.Wake? || x.at.SleepOwn?)
  }

  /** Sleeping, or on the way to it, and not woken. */
  predicate Sleepy(x: Proc) {
    x.In? && (x.at.SleepOwn? || x.at.SleepReleased? || x.at == Asleep(false))
  }

  predicate IsReader(x: Proc) {
    x.In? && x.op.Read?
  }

  predicate IsWriter(x: Proc) {
    x.In? && x.op.Write?
  }

  /** Its wakeups are for readers. */
  predicate WakesReaders(op: Op) {
    op.Write? || op.CloseWrite?
  }

  predicate At(s: State, p: nat) {
    p < |s.procs| && |s.killed| == |s.procs| && |s.ring.data| == PIPESIZE
  }

  /** No call of that end is under way. */
  predicate Unused(s: State, writable: bool) {
    forall q :: 0 <= q < |s.procs| ==> if writable then !IsWriter(s.procs[q]) else !IsReader(s.procs[q])
  }

  predicate Enabled(s: State, step: Step) {
    At(s, step.p) &&
    var x := s.procs[step.p];
    match step
    case StartWrite(p, bytes) => x.Idle? && s.writeref
    case StartRead(p, n) => x.Idle? && s.readref
    case StartClose(p, writable) => x.Idle? && (if writable then s.writeref else s.readref) && Unused(s, writable)
    case Acquire(p) => x.In? && (x.at.Want? || x.at == Asleep(true)) && s.lock < 0
    case WriteNext(p, fault) => IsWriter(x) && x.at.Body?
    case ReadTest(p) => IsReader(x) && x.at.Body?
    case ReadNext(p, fault) => IsReader(x) && x.at.Copy?
    case Visit(p) =>
      x.In? && x.at.Wake? && x.at.j < |s.procs| && !(s.procs[x.at.j].In? && s.procs[x.at.j].at.SleepReleased?)
    case WakeDone(p) => x.In? && x.at.Wake? && x.at.j == |s.procs|
    case SleepRelease(p) => x.In? && x.at.SleepOwn?
    case SleepState(p) => x.In? && x.at.SleepReleased?
    case Kill(p) => !(x.In? && (x.at.SleepOwn? || x.at.SleepReleased?))
  }

  /** The bytes and who was killed are the same in both. */
  predicate SameBytes(s: State, t: State) {
    t.ring == s.ring && t.accepted == s.accepted && t.delivered == s.delivered && t.killed == s.killed
  }

  function Put(s: State, p: nat, x: Proc): (s': State)
    requires At(s, p)
    ensures SameBytes(s, s') && At(s', p)
  {
    s.(procs := s.procs[p := x])
  }

  /** A call returns and gives up the lock. */
  function Leave(s: State, p: nat): (s': State)
    requires At(s, p)
    ensures SameBytes(s, s')
  {
    Put(s, p, Idle).(lock := -1)
  }

  function Pushed(r: Ring, b: Byte): (r': Ring)
    requires |r.data| == PIPESIZE
  {
    Ring(r.data[Place(r.nwrite) := b], r.nread, Wrap(r.nwrite + 1))
  }

  function Popped(r: Ring): (r': Ring) {
    r.(nread := Wrap(r.nread + 1))
  }

  function Woken(x: Proc): (x': Proc) {
    if x.In? && x.at == Asleep(false) then x.(at := Asleep(true)) else x
  }

  function WriteNextTo(s: State, p: nat, fault: bool): (s': State)
    requires At(s, p) && IsWriter(s.procs[p])
  {
    var x := s.procs[p];
    if x.op.i >= |x.op.bytes| then Put(s, p, x.(at := Wake(0, false)))
    else if !s.readopen || s.killed[p] then Leave(s, p)
    else if Full(s.ring) then Put(s, p, x.(at := Wake(0, true)))
    else if fault then Put(s, p, x.(at := Wake(0, false)))
    else
      var b := x.op.bytes[x.op.i];
      Put(s, p, x.(op := Write(x.op.bytes, x.op.i + 1))).(ring := Pushed(s.ring, b), accepted := s.accepted + [b])
  }

  function ReadTestTo(s: State, p: nat): (s': State)
    requires At(s, p) && IsReader(s.procs[p])
    ensures SameBytes(s, s')
  {
    var x := s.procs[p];
    if Empty(s.ring) && s.writeopen then
      if s.killed[p] then Leave(s, p) else Put(s, p, x.(at := SleepOwn))
    else
      Put(s, p, x.(at := Copy))
  }

  function ReadNextTo(s: State, p: nat, fault: bool): (s': State)
    requires At(s, p) && IsReader(s.procs[p])
  {
    var x := s.procs[p];
    if x.op.i >= x.op.n || Empty(s.ring) || fault then Put(s, p, x.(at := Wake(0, false)))
    else
      Put(s, p, x.(op := Read(x.op.n, x.op.i + 1)))
        .(ring := Popped(s.ring), delivered := s.delivered + [s.ring.data[Place(s.ring.nread)]])
  }

  function AcquireTo(s: State, p: nat): (s': State)
    requires At(s, p) && s.procs[p].In?
    ensures SameBytes(s, s')
  {
    var x := s.procs[p];
    match x.op
    case CloseWrite => Put(s, p, x.(at := Wake(0, false))).(lock := p, writeopen := false)
    case CloseRead => Put(s, p, x.(at := Wake(0, false))).(lock := p, readopen := false)
    case _ => Put(s, p, x.(at := Body)).(lock := p)
  }

  /** wakeup's visit to process j, which is on the channel if its call is of the other end. */
  function VisitTo(s: State, p: nat): (s': State)
    requires Enabled(s, Visit(p))
    ensures SameBytes(s, s')
  {
    var x := s.procs[p];
    var y := s.procs[x.at.j];
    var s1 :=
      if x.at.j != p && y.In? && (if WakesReaders(x.op) then y.op.Read? else y.op.Write?)
      then Put(s, x.at.j, Woken(y)) else s;
    Put(s1, p, x.(at := Wake(x.at.j + 1, x.at.sleepNext)))
  }

  function Apply(s: State, step: Step): (s': State)
    requires Enabled(s, step)
  {
    var x := s.procs[step.p];
    match step
    case StartWrite(p, bytes) => Put(s, p, In(Write(bytes, 0), Want))
    case StartRead(p, n) => Put(s, p, In(Read(n, 0), Want))
    case StartClose(p, writable) =>
      if writable then Put(s, p, In(CloseWrite, Want)).(writeref := false)
      else Put(s, p, In(CloseRead, Want)).(readref := false)
    case Acquire(p) => AcquireTo(s, p)
    case WriteNext(p, fault) => WriteNextTo(s, p, fault)
    case ReadTest(p) => ReadTestTo(s, p)
    case ReadNext(p, fault) => ReadNextTo(s, p, fault)
    case Visit(p) => VisitTo(s, p)
    case WakeDone(p) => if x.at.sleepNext then Put(s, p, x.(at := SleepOwn)) else Leave(s, p)
    case SleepRelease(p) => Put(s, p, x.(at := SleepReleased)).(lock := -1)
    case SleepState(p) => Put(s, p, x.(at := Asleep(false)))
    case Kill(p) => Put(s, p, Woken(x)).(killed := s.killed[p := true])
  }

  // The bytes.

  /** The ring holds exactly the accepted bytes that were not yet delivered; those delivered are a prefix
      of those accepted. */
  ghost predicate Fifo(r: Ring, accepted: seq<Byte>, delivered: seq<Byte>) {
    && |r.data| == PIPESIZE
    && |delivered| <= |accepted| <= |delivered| + PIPESIZE
    && delivered == accepted[..|delivered|]
    && r.nwrite == Wrap(|accepted|) && r.nread == Wrap(|delivered|)
    && forall x :: |delivered| <= x < |accepted| ==> r.data[Place(x)] == accepted[x]
  }

  lemma WrapFacts(x: nat)
    ensures Wrap(Wrap(x) + 1) == Wrap(x + 1) && Wrap(Wrap(x) + 512) == Wrap(x + 512) && Place(Wrap(x)) == Place(x)
  {
    var k := x / 0x1_0000_0000;
    assert x == k * 0x1_0000_0000 + Wrap(x);
    WrapAdd(k, Wrap(x), 1);
    WrapAdd(k, Wrap(x), 512);
    assert x == (k * 0x80_0000) * 512 + Wrap(x);
    PlaceAdd(k * 0x80_0000, Wrap(x));
  }

  lemma WrapAdd(k: nat, r: nat, d: nat)
    ensures Wrap(k * 0x1_0000_0000 + r + d) == Wrap(r + d)
  {
  }

  lemma PlaceAdd(k: nat, r: nat)
    ensures Place(k * 512 + r) == Place(r)
  {
  }

  /** Counters that are at most PIPESIZE apart agree just when they wrap alike. */
  lemma WrapNear(x: nat, y: nat)
    requires x <= y <= x + 512
    ensures Wrap(x) == Wrap(y) <==> x == y
  {
  }

  lemma PlaceNear(x: nat, y: nat)
    requires x < y < x + 512
    ensures Place(x) != Place(y)
  {
  }

  /** The tests for empty and full are right although the counters wrap. */
  lemma TestsExact(r: Ring, accepted: seq<Byte>, delivered: seq<Byte>)
    requires Fifo(r, accepted, delivered)
    ensures Empty(r) <==> |accepted| == |delivered|
    ensures Full(r) <==> |accepted| == |delivered| + PIPESIZE
  {
    WrapNear(|delivered|, |accepted|);
    WrapFacts(|delivered|);
    WrapNear(|accepted|, |delivered| + 512);
  }

  lemma PushKeepsFifo(r: Ring, accepted: seq<Byte>, delivered: seq<Byte>, b: Byte)
    requires Fifo(r, accepted, delivered) && !Full(r)
    ensures Fifo(Pushed(r, b), accepted + [b], delivered)
  {
    TestsExact(r, accepted, delivered);
    WrapFacts(|accepted|);
    var accepted' := accepted + [b];
    forall x | |delivered| <= x < |accepted'|
      ensures Pushed(r, b).data[Place(x)] == accepted'[x]
    {
      if x < |accepted| {
        PlaceNear(x, |accepted|);
      }
    }
  }

  lemma PopKeepsFifo(r: Ring, accepted: seq<Byte>, delivered: seq<Byte>)
    requires Fifo(r, accepted, delivered) && !Empty(r)
    ensures Fifo(Popped(r), accepted, delivered + [r.data[Place(r.nread)]])
  {
    TestsExact(r, accepted, delivered);
    WrapFacts(|delivered|);
    assert r.data[Place(|delivered|)] == accepted[|delivered|];
    assert accepted[..|delivered| + 1] == accepted[..|delivered|] + [accepted[|delivered|]];
  }

  // Sleeping and waking.

  /** q sleeps although its call could go on. */
  predicate Starved(s: State, q: nat) {
    q < |s.procs| && Sleepy(s.procs[q]) &&
    if IsReader(s.procs[q]) then !Empty(s.ring) || !s.writeopen else !Full(s.ring) || !s.readopen
  }

  /** The holder of the lock will wake q before it lets go. */
  predicate Saved(s: State, q: nat) {
    0 <= s.lock < |s.procs| && q < |s.procs| &&
    var h := s.procs[s.lock];
    && h.In? && (WakesReaders(h.op) <==> IsReader(s.procs[q]))
    && (if h.at.Wake? then h.at.j <= q else h.at.Copy? || (h.at.Body? && h.op.Write?))
  }

  /** The calls that make sense, and what is known inside pipewrite's wakeup before its sleep. */
  predicate ProcOk(s: State, q: nat) {
    q < |s.procs| &&
    var x := s.procs[q];
    && (HoldsLock(x) <==> s.lock == q)
    && (x.In? && x.at.Copy? ==> x.op.Read?)
    && (x.In? && !x.op.Read? && !x.op.Write? ==> x.at.Want? || (x.at.Wake? && !x.at.sleepNext))
    && (x.In? && x.at.Wake? && x.at.sleepNext ==> x.op.Write? && Full(s.ring) && s.readopen)
    && (IsReader(x) ==> s.readref) && (IsWriter(x) ==> s.writeref)
    && (x.In? && x.op.CloseRead? ==> !s.readref) && (x.In? && x.op.CloseWrite? ==> !s.writeref)
    && (Starved(s, q) ==> Saved(s, q))
  }

  ghost predicate ProcsOk(s: State) {
    forall q: nat :: q < |s.procs| ==> ProcOk(s, q)
  }

  predicate Flags(s: State) {
    && |s.killed| == |s.procs| && -1 <= s.lock < |s.procs|
    && (s.readref ==> s.readopen) && (s.writeref ==> s.writeopen)
  }

  ghost predicate Inv(s: State) {
    Fifo(s.ring, s.accepted, s.delivered) && Flags(s) && ProcsOk(s)
  }

  predicate Init(s: State) {
    && |s.ring.data| == PIPESIZE && s.ring.nread == 0 && s.ring.nwrite == 0 && s.accepted == [] && s.delivered == []
    && s.readopen && s.writeopen && s.readref && s.writeref && s.lock == -1
    && |s.killed| == |s.procs| && (forall q :: 0 <= q < |s.procs| ==> s.procs[q] == Idle && !s.killed[q])
  }

  /** pipewrite gives up: the read end is closed or the writer was killed. */
  predicate Quits(s: State, step: Step) {
    && step.WriteNext? && Enabled(s, step) && s.procs[step.p].op.i < |s.procs[step.p].op.bytes|
    && (!s.readopen || s.killed[step.p])
  }

  predicate NoSleepyReader(s: State) {
    forall q :: 0 <= q < |s.procs| ==> !(Sleepy(s.procs[q]) && IsReader(s.procs[q]))
  }

  /** If the step gives up a write, nothing is left that a sleeping reader waits for. */
  predicate Harmless(s: State, step: Step) {
    Quits(s, step) ==> Empty(s.ring) || NoSleepyReader(s)
  }

  lemma InitInv(s: State)
    requires Init(s)
    ensures Inv(s)
  {
  }

  lemma StartKeeps(s: State, step: Step, q: nat)
    requires Inv(s) && Enabled(s, step) && (step.StartWrite? || step.StartRead? || step.StartClose?) && q < |s.procs|
    ensures ProcOk(Apply(s, step), q)
  {
    assert ProcOk(s, q) && ProcOk(s, step.p);
    assert s.lock >= 0 ==> ProcOk(s, s.lock);
  }

  lemma AcquireKeeps(s: State, p: nat, q: nat)
    requires Inv(s) && Enabled(s, Acquire(p)) && q < |s.procs|
    ensures ProcOk(Apply(s, Acquire(p)), q)
  {
    assert ProcOk(s, q) && ProcOk(s, p);
  }

  lemma WriteKeeps(s: State, p: nat, fault: bool, q: nat)
    requires Inv(s) && Enabled(s, WriteNext(p, fault)) && !Quits(s, WriteNext(p, fault)) && q < |s.procs|
    ensures ProcOk(Apply(s, WriteNext(p, fault)), q)
  {
    assert ProcOk(s, q) && ProcOk(s, p);
  }

  lemma ReadKeeps(s: State, step: Step, q: nat)
    requires Inv(s) && Enabled(s, step) && (step.ReadTest? || step.ReadNext?) && q < |s.procs|
    ensures ProcOk(Apply(s, step), q)
  {
    assert ProcOk(s, q) && ProcOk(s, step.p);
  }

  lemma VisitKeeps(s: State, p: nat, q: nat)
    requires Inv(s) && Enabled(s, Visit(p)) && q < |s.procs|
    ensures ProcOk(Apply(s, Visit(p)), q)
  {
    assert ProcOk(s, q) && ProcOk(s, p);
  }

  lemma SleepKeeps(s: State, step: Step, q: nat)
    requires Inv(s) && Enabled(s, step) && (step.WakeDone? || step.SleepRelease? || step.SleepState?) && q < |s.procs|
    ensures ProcOk(Apply(s, step), q)
  {
    assert ProcOk(s, q) && ProcOk(s, step.p);
    assert s.lock >= 0 ==> ProcOk(s, s.lock);
  }

  lemma KillKeeps(s: State, p: nat, q: nat)
    requires Inv(s) && Enabled(s, Kill(p)) && q < |s.procs|
    ensures ProcOk(Apply(s, Kill(p)), q)
  {
    assert ProcOk(s, q) && ProcOk(s, p);
    assert s.lock >= 0 ==> ProcOk(s, s.lock);
  }

  /** A writer that gives up leaves q as it should be just when q does not wait for bytes that are there. */
  lemma QuitExact(s: State, step: Step, q: nat)
    requires Inv(s) && Quits(s, step) && q < |s.procs|
    ensures ProcOk(Apply(s, step), q) <==> Empty(s.ring) || !(Sleepy(s.procs[q]) && IsReader(s.procs[q]))
  {
    assert ProcOk(s, q) && ProcOk(s, step.p);
  }

  lemma StepProcs(s: State, step: Step, q: nat)
    requires Inv(s) && Enabled(s, step) && Harmless(s, step) && q < |s.procs|
    ensures ProcOk(Apply(s, step), q)
  {
    match step
    case StartWrite(_, _) => StartKeeps(s, step, q);
    case StartRead(_, _) => StartKeeps(s, step, q);
    case StartClose(_, _) => StartKeeps(s, step, q);
    case Acquire(p) => AcquireKeeps(s, p, q);
    case WriteNext(p, fault) =>
      if Quits(s, step) {
        QuitExact(s, step, q);
      } else {
        WriteKeeps(s, p, fault, q);
      }
    case ReadTest(_) => ReadKeeps(s, step, q);
    case ReadNext(_, _) => ReadKeeps(s, step, q);
    case Visit(p) => VisitKeeps(s, p, q);
    case WakeDone(_) => SleepKeeps(s, step, q);
    case SleepRelease(_) => SleepKeeps(s, step, q);
    case SleepState(_) => SleepKeeps(s, step, q);
    case Kill(p) => KillKeeps(s, p, q);
  }

  lemma WriteFifo(s: State, p: nat, fault: bool)
    requires Fifo(s.ring, s.accepted, s.delivered) && Enabled(s, WriteNext(p, fault))
    ensures var t := WriteNextTo(s, p, fault); Fifo(t.ring, t.accepted, t.delivered)
  {
    if !Full(s.ring) && s.procs[p].op.i < |s.procs[p].op.bytes| {
      PushKeepsFifo(s.ring, s.accepted, s.delivered, s.procs[p].op.bytes[s.procs[p].op.i]);
    }
  }

  lemma ReadFifo(s: State, p: nat, fault: bool)
    requires Fifo(s.ring, s.accepted, s.delivered) && Enabled(s, ReadNext(p, fault))
    ensures var t := ReadNextTo(s, p, fault); Fifo(t.ring, t.accepted, t.delivered)
  {
    if !Empty(s.ring) {
      PopKeepsFifo(s.ring, s.accepted, s.delivered);
    }
  }

  /** The other steps leave the bytes alone. */
  lemma OtherBytes(s: State, step: Step)
    requires Enabled(s, step) && !step.WriteNext? && !step.ReadNext? && !step.Kill?
    ensures SameBytes(s, Apply(s, step))
  {
    match step
    case StartWrite(_, _) =>
    case StartRead(_, _) =>
    case StartClose(_, _) =>
    case Acquire(_) =>
    case ReadTest(_) =>
    case Visit(_) =>
    case WakeDone(_) =>
    case SleepRelease(_) =>
    case SleepState(_) =>
  }

  lemma StepFifo(s: State, step: Step)
    requires Fifo(s.ring, s.accepted, s.delivered) && Enabled(s, step)
    ensures var t := Apply(s, step); Fifo(t.ring, t.accepted, t.delivered)
  {
    match step
    case WriteNext(p, fault) => WriteFifo(s, p, fault);
    case ReadNext(p, fault) => ReadFifo(s, p, fault);
    case Kill(p) =>
    case _ => OtherBytes(s, step);
  }

  lemma StepFlags(s: State, step: Step)
    requires Inv(s) && Enabled(s, step)
    ensures Flags(Apply(s, step)) && |Apply(s, step).procs| == |s.procs|
  {
    assert ProcOk(s, step.p);
  }

  lemma StepKeepsInv(s: State, step: Step)
    requires Inv(s) && Enabled(s, step) && Harmless(s, step)
    ensures Inv(Apply(s, step))
  {
    StepFifo(s, step);
    StepFlags(s, step);
    forall q: nat | q < |s.procs|
      ensures ProcOk(Apply(s, step), q)
    {
      StepProcs(s, step, q);
    }
  }

  /** A writer that gives up breaks nothing just when no reader sleeps on bytes that are there. */
  lemma HarmExact(s: State, step: Step)
    requires Inv(s) && Quits(s, step)
    ensures Inv(Apply(s, step)) <==> Harmless(s, step)
  {
    if Harmless(s, step) {
      StepKeepsInv(s, step);
    } else {
      var q :| 0 <= q < |s.procs| && Sleepy(s.procs[q]) && IsReader(s.procs[q]);
      QuitExact(s, step, q);
      StepFlags(s, step);
    }
  }

  // Runs.

  /** The steps lead from s to t. */
  ghost predicate Reaches(s: State, steps: seq<Step>, t: State)
    decreases |steps|
  {
    if steps == [] then s == t else Enabled(s, steps[0]) && Reaches(Apply(s, steps[0]), steps[1..], t)
  }

  ghost predicate HarmlessRun(s: State, steps: seq<Step>)
    decreases |steps|
  {
    steps != [] && Enabled(s, steps[0]) ==> Harmless(s, steps[0]) && HarmlessRun(Apply(s, steps[0]), steps[1..])
  }

  lemma {:induction false} RunInv(s: State, steps: seq<Step>, t: State)
    requires Inv(s) && Reaches(s, steps, t) && HarmlessRun(s, steps)
    ensures Inv(t)
    decreases |steps|
  {
    if steps != [] {
      StepKeepsInv(s, steps[0]);
      RunInv(Apply(s, steps[0]), steps[1..], t);
    }
  }

  predicate NoneKilled(s: State) {
    forall q :: 0 <= q < |s.killed| ==> !s.killed[q]
  }

  lemma StepKilled(s: State, step: Step)
    requires Enabled(s, step) && !step.Kill?
    ensures Apply(s, step).killed == s.killed
  {
    match step
    case WriteNext(p, fault) => assert WriteNextTo(s, p, fault).killed == s.killed;
    case ReadNext(p, fault) => assert ReadNextTo(s, p, fault).killed == s.killed;
    case _ => OtherBytes(s, step);
  }

  /** With the read end closed there is no reader to harm. */
  lemma NoKillNoHarm(s: State, step: Step)
    requires Inv(s) && NoneKilled(s) && Enabled(s, step)
    ensures Harmless(s, step)
  {
    forall q: nat | q < |s.procs| && !s.readopen
      ensures !IsReader(s.procs[q])
    {
      assert ProcOk(s, q);
    }
  }

  /** Runs without kills are harmless. */
  lemma {:induction false} UnkilledIsHarmless(s: State, steps: seq<Step>, t: State)
    requires Inv(s) && NoneKilled(s) && Reaches(s, steps, t) && forall i :: 0 <= i < |steps| ==> !steps[i].Kill?
    ensures HarmlessRun(s, steps)
    decreases |steps|
  {
    if steps != [] {
      NoKillNoHarm(s, steps[0]);
      StepKeepsInv(s, steps[0]);
      StepKilled(s, steps[0]);
      UnkilledIsHarmless(Apply(s, steps[0]), steps[1..], t);
    }
  }

  /** Whenever the lock is free, nobody sleeps who could go on: the pipe of a sleeping reader is empty, that
      of a sleeping writer full, and the other end is open. */
  lemma NoOneStuck(s: State, steps: seq<Step>, t: State, q: nat)
    requires Init(s) && Reaches(s, steps, t) && HarmlessRun(s, steps)
    requires t.lock == -1 && q < |t.procs| && Sleepy(t.procs[q])
    ensures IsReader(t.procs[q]) ==> |t.accepted| == |t.delivered| && t.writeopen
    ensures IsWriter(t.procs[q]) ==> |t.accepted| == |t.delivered| + PIPESIZE && t.readopen
    ensures IsReader(t.procs[q]) || IsWriter(t.procs[q])
  {
    InitInv(s);
    RunInv(s, steps, t);
    assert ProcOk(t, q);
    TestsExact(t.ring, t.accepted, t.delivered);
  }

  /** Bytes come out in the order they went in, and at most PIPESIZE are inside, in every run, kills or not. */
  lemma {:induction false} RunFifo(s: State, steps: seq<Step>, t: State)
    requires Fifo(s.ring, s.accepted, s.delivered) && Reaches(s, steps, t)
    ensures Fifo(t.ring, t.accepted, t.delivered)
    ensures t.delivered <= t.accepted && |t.accepted| <= |t.delivered| + PIPESIZE
    decreases |steps|
  {
    if steps != [] {
      StepFifo(s, steps[0]);
      RunFifo(Apply(s, steps[0]), steps[1..], t);
    }
  }

  // A killed writer.

  lemma {:induction false} ReachesConcat(s: State, xs: seq<Step>, t: State, ys: seq<Step>, u: State)
    requires Reaches(s, xs, t) && Reaches(t, ys, u)
    ensures Reaches(s, xs + ys, u)
    decreases |xs|
  {
    if xs == [] {
      assert xs + ys == ys;
    } else {
      ReachesConcat(Apply(s, xs[0]), xs[1..], t, ys, u);
      assert (xs + ys)[1..] == xs[1..] + ys;
    }
  }

  /** A new pipe that process 0 will read and process 1 will write. */
  function Fresh(): (s: State)
    ensures Init(s) && |s.procs| == 2
  {
    State(Ring(seq(PIPESIZE, _ => 0), 0, 0), true, true, true, true, -1, [Idle, Idle], [false, false], [], [])
  }

  lemma ReaderStarts(s: State) returns (t: State)
    requires s == Fresh()
    ensures Reaches(s, [StartRead(0, 1), Acquire(0), ReadTest(0)], t)
    ensures t == s.(procs := [In(Read(1, 0), SleepOwn), Idle], lock := 0)
  {
    var s1 := Apply(s, StartRead(0, 1));
    var s2 := Apply(s1, Acquire(0));
    t := Apply(s2, ReadTest(0));
    assert Reaches(s2, [ReadTest(0)], t);
    assert Reaches(s1, [Acquire(0), ReadTest(0)], t);
  }

  lemma ReaderSleeps(s: State) returns (t: State)
    requires s == Fresh()
    ensures Reaches(s, [StartRead(0, 1), Acquire(0), ReadTest(0)] + [SleepRelease(0), SleepState(0)], t)
    ensures t == s.(procs := [In(Read(1, 0), Asleep(false)), Idle])
  {
    var s3 := ReaderStarts(s);
    var s4 := Apply(s3, SleepRelease(0));
    t := Apply(s4, SleepState(0));
    assert Reaches(s4, [SleepState(0)], t);
    ReachesConcat(s, [StartRead(0, 1), Acquire(0), ReadTest(0)], s3, [SleepRelease(0), SleepState(0)], t);
  }

  lemma WriterWrites(s: State) returns (t: State)
    requires s == Fresh().(procs := [In(Read(1, 0), Asleep(false)), Idle])
    ensures Reaches(s, [StartWrite(1, [7, 8]), Acquire(1), WriteNext(1, false)], t)
    ensures t.lock == 1 && t.procs == [In(Read(1, 0), Asleep(false)), In(Write([7, 8], 1), Body)] && |t.killed| == 2
    ensures t.ring.nread == 0 && t.ring.nwrite == 1 && |t.ring.data| == PIPESIZE
  {
    var s1 := Apply(s, StartWrite(1, [7, 8]));
    var s2 := Apply(s1, Acquire(1));
    t := Apply(s2, WriteNext(1, false));
    assert Reaches(s2, [WriteNext(1, false)], t);
    assert Reaches(s1, [Acquire(1), WriteNext(1, false)], t);
  }

  lemma WriterQuits(s: State) returns (t: State)
    requires s.lock == 1 && s.procs == [In(Read(1, 0), Asleep(false)), In(Write([7, 8], 1), Body)] && |s.killed| == 2
    requires s.ring.nread == 0 && s.ring.nwrite == 1 && |s.ring.data| == PIPESIZE
    ensures Reaches(s, [Kill(1), WriteNext(1, false)], t)
    ensures t.lock == -1 && t.procs == [In(Read(1, 0), Asleep(false)), Idle] && !Empty(t.ring)
  {
    var s1 := Apply(s, Kill(1));
    t := Apply(s1, WriteNext(1, false));
    assert Reaches(s1, [WriteNext(1, false)], t);
  }

  /** A writer killed after its first byte goes without waking anybody: the reader sleeps on although the
      lock is free and the byte is there. */
  lemma KilledWriterStrandsReader() returns (s: State, steps: seq<Step>, t: State)
    ensures Init(s) && Reaches(s, steps, t) && t.lock == -1 && Starved(t, 0) && IsReader(t.procs[0])
  {
    s := Fresh();
    var m := ReaderSleeps(s);
    var w := WriterWrites(m);
    t := WriterQuits(w);
    var xs := [StartRead(0, 1), Acquire(0), ReadTest(0)] + [SleepRelease(0), SleepState(0)];
    var ys := [StartWrite(1, [7, 8]), Acquire(1), WriteNext(1, false)];
    var zs := [Kill(1), WriteNext(1, false)];
    steps := xs + (ys + zs);
    ReachesConcat(m, ys, w, zs, t);
    ReachesConcat(s, xs, m, ys + zs, t);
  }

  // The loops between two sleeps.

  /** The ring while one process holds its lock. */
  class Buffer {
    var ring: Ring
    ghost var accepted: seq<Byte>
    ghost var delivered: seq<Byte>

    ghost predicate Valid()
      reads this
    {
      Fifo(ring, accepted, delivered)
    }

    ghost function Pending(): (n: nat)
      requires Valid()
      reads this
    {
      |accepted| - |delivered|
    }

    /** One byte into a ring that is not full. */
    method Push(b: Byte)
      requires Valid() && !Full(ring)
      modifies this
      ensures Valid() && accepted == old(accepted) + [b] && delivered == old(delivered)
      ensures Full(ring) <==> Pending() == PIPESIZE
    {
      PushKeepsFifo(ring, accepted, delivered, b);
      ring := Pushed(ring, b);
      accepted := accepted + [b];
      TestsExact(ring, accepted, delivered);
    }

    /** pipewrite's loop from byte i on, up to its next sleep or its end: as many bytes as fit. */
    method WriteSome(bytes: seq<Byte>, i: nat) returns (k: nat)
      requires Valid() && i <= |bytes|
      modifies this
      ensures Valid() && i <= k <= |bytes| && accepted == old(accepted) + bytes[i..k] && delivered == old(delivered)
      ensures k - i == if |bytes| - i <= PIPESIZE - old(Pending()) then |bytes| - i else PIPESIZE - old(Pending())
    {
      k := i;
      TestsExact(ring, accepted, delivered);
      while k < |bytes| && !Full(ring)
        invariant Valid() && i <= k <= |bytes| && accepted == old(accepted) + bytes[i..k] && delivered == old(delivered)
        invariant Full(ring) <==> Pending() == PIPESIZE
      {
        var next := k + 1;
        assert bytes[i..next] == bytes[i..k] + [bytes[k]];
        Push(bytes[k]);
        k := next;
      }
    }

    /** The oldest byte of a ring that is not empty. */
    method Pop() returns (b: Byte)
      requires Valid() && !Empty(ring)
      modifies this
      ensures Valid() && accepted == old(accepted) && delivered == old(delivered) + [b]
      ensures Empty(ring) <==> Pending() == 0
    {
      PopKeepsFifo(ring, accepted, delivered);
      b := ring.data[Place(ring.nread)];
      ring := Popped(ring);
      delivered := delivered + [b];
      TestsExact(ring, accepted, delivered);
    }

    /** piperead's copy loop: the oldest bytes, as many as asked for or there are. */
    method ReadSome(n: nat) returns (out: seq<Byte>)
      requires Valid()
      modifies this
      ensures Valid() && accepted == old(accepted) && delivered == old(delivered) + out
      ensures |out| == if n <= old(Pending()) then n else old(Pending())
      ensures out == accepted[|old(delivered)|..|old(delivered)| + |out|]
    {
      out := [];
      TestsExact(ring, accepted, delivered);
      while |out| < n && !Empty(ring)
        invariant Valid() && accepted == old(accepted) && delivered == old(delivered) + out && |out| <= n
        invariant Empty(ring) <==> Pending() == 0
      {
        var b := Pop();
        out := out + [b];
      }
    }
  }
}
