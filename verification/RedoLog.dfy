/** What the log promises its callers: a store whose writes become durable one whole group at a
    time, and only when no operation is active. */
module AtomicStore {
  // Contents of blocks, by block number; T is what a block holds.
  type Contents<T> = map<nat, T>

  datatype Store<T> = Store(durable: Contents<T>, pending: Contents<T>, ops: set<nat>)

  datatype Event<T> =
    | Nothing
    | Start(op: nat)
    | Write(op: nat, blockno: nat, data: T)
    | Stop(op: nat)
    | Commit
    | Lose

  ghost predicate Next<T>(a: Store<T>, e: Event<T>, a': Store<T>) {
    match e
    case Nothing => a' == a
    case Start(op) => op !in a.ops && a' == a.(ops := a.ops + {op})
    case Write(op, b, x) => op in a.ops && b in a.pending && a' == a.(pending := a.pending[b := x])
    case Stop(op) => op in a.ops && a' == a.(ops := a.ops - {op})
    case Commit => a.ops == {} && a' == a.(durable := a.pending)
    case Lose => a' == Store(a.durable, a.durable, {})
  }

  ghost predicate IsRun<T>(run: seq<Store<T>>, events: seq<Event<T>>) {
    && |run| == |events| + 1
    && forall i :: 0 <= i < |events| ==> Next(run[i], events[i], run[i + 1])
  }

  /** The last commit among the first k events, or -1. */
  function LastCommit<T>(events: seq<Event<T>>, k: nat): (j: int)
    requires k <= |events|
    ensures -1 <= j < k
    ensures 0 <= j ==> events[j].Commit?
    ensures forall i :: j < i < k ==> !events[i].Commit?
  {
    if k == 0 then -1 else if events[k - 1].Commit? then k - 1 else LastCommit(events, k - 1)
  }

  /** Durable contents are exactly those pending at the last commit, a moment when no operation
      was active: every earlier group is whole, and nothing of a later one shows. */
  lemma {:induction false} DurableIsLastCommit<T>(run: seq<Store<T>>, events: seq<Event<T>>, k: nat)
    requires IsRun(run, events) && k <= |events|
    ensures var j := LastCommit(events, k);
            if j < 0 then run[k].durable == run[0].durable
            else run[j].ops == {} && run[k].durable == run[j].pending
  {
    if k > 0 {
      DurableIsLastCommit(run, events, k - 1);
      assert Next(run[k - 1], events[k - 1], run[k]);
    }
  }
}

/** The redo log of xv6/kernel/log.c over the buffer cache of xv6/kernel/bio.c, as steps. Every
    disk write is one step, and a crash may come between any two.

    The disk is split as mkfs lays it out: home blocks (everything callers may change), the log
    blocks that follow log.start, and the log header, kept here as the list it records. */
module RedoLog {
  import opened Blocks
  import opened AtomicStore

  predicate Distinct(s: seq<nat>) {
    forall i, j :: 0 <= i < j < |s| ==> s[i] != s[j]
  }

  /** A list the header may record: at most LOGBLOCKS different home blocks. */
  predicate Loggable<T>(home: Contents<T>, lh: seq<nat>) {
    && |lh| <= LOGBLOCKS
    && Distinct(lh)
    && forall i :: 0 <= i < |lh| ==> lh[i] in home
  }

  /** Where block b stands in a list of logged blocks, or -1. */
  function Slot(lh: seq<nat>, b: nat): (i: int)
    ensures -1 <= i < |lh|
    ensures 0 <= i ==> lh[i] == b
    ensures i < 0 ==> forall j :: 0 <= j < |lh| ==> lh[j] != b
  {
    if lh == [] then -1
    else if lh[|lh| - 1] == b then |lh| - 1
    else Slot(lh[..|lh| - 1], b)
  }

  // ---------------------------------------------------------------- states and steps

  datatype Phase =
    | Boot                     // before recovery has read the header
    | Redoing(tail: nat)       // install_trans(1)
    | Running                  // log.committing == 0
    | Logging(tail: nat)       // commit(): in write_log, or finished when nothing is left to log
    | Installing(tail: nat)    // commit(): in install_trans(0)

  datatype State<T> = State(
    home: Contents<T>,         // on disk: the blocks outside the log
    log: seq<T>,               // on disk: the log blocks
    head: seq<nat>,            // on disk: the block numbers recorded in the log header
    cache: Contents<T>,        // valid buffers of home blocks
    lh: seq<nat>,              // log.lh.block[0 .. log.lh.n]
    ops: map<nat, set<nat>>,   // active operations, and the blocks each has logged
    pins: set<nat>,            // blocks pinned in the cache by log_write
    dirty: map<nat, nat>,      // locked buffers changed but not yet logged, and by which operation
    phase: Phase)

  datatype Step<T> =
    | Fill(b: nat)                       // bread of an uncached block
    | Evict(b: nat)                      // bget recycles an unreferenced buffer
    | Begin(op: nat)                     // begin_op
    | Modify(op: nat, b: nat, data: T)   // change b->data under b->lock
    | LogWrite(op: nat, b: nat)          // log_write
    | End(op: nat)                       // end_op, up to the call of commit
    | LogBlock                           // one pass of write_log
    | CommitHead                         // write_head: the commit point
    | InstallBlock                       // one pass of install_trans(0)
    | EraseHead                          // log.lh.n = 0; write_head
    | Finish                             // log.committing = 0
    | Crash
    | ReadHead                           // read_head
    | RedoBlock                          // one pass of install_trans(1)
    | RedoDone                           // log.lh.n = 0; write_head

  /** The latest contents of home block b, as bread returns them. */
  function Latest<T>(home: Contents<T>, cache: Contents<T>, b: nat): (x: T)
    requires b in home
  {
    if b in cache then cache[b] else home[b]
  }

  function Read<T>(s: State<T>, b: nat): (x: T)
    requires b in s.home
  {
    Latest(s.home, s.cache, b)
  }

  /** The discipline asked of callers: no operation logs more than MAXOPBLOCKS distinct blocks. */
  predicate WithinBudget<T>(s: State<T>, op: nat, b: nat) {
    op in s.ops && (b in s.ops[op] || |s.ops[op]| < MAXOPBLOCKS)
  }

  predicate Enabled<T>(s: State<T>, step: Step<T>)
  {
    match step
    case Fill(b) => b in s.home && b !in s.cache
    case Evict(b) => b in s.cache && b !in s.pins && b !in s.dirty
    case Begin(op) =>
      s.phase.Running? && op !in s.ops && |s.lh| + (|s.ops| + 1) * MAXOPBLOCKS <= LOGBLOCKS
    case Modify(op, b, _) => op in s.ops && b in s.cache && (b in s.dirty ==> s.dirty[b] == op)
    case LogWrite(op, b) =>
      op in s.ops && b in s.dirty && s.dirty[b] == op && |s.lh| < LOGBLOCKS && WithinBudget(s, op, b)
    case End(op) => op in s.ops && forall b :: b in s.dirty ==> s.dirty[b] != op
    case LogBlock => s.phase.Logging? && s.phase.tail < |s.lh|
    case CommitHead => s.phase.Logging? && s.phase.tail == |s.lh| > 0
    case InstallBlock => s.phase.Installing? && s.phase.tail < |s.lh|
    case EraseHead => s.phase.Installing? && s.phase.tail == |s.lh|
    case Finish => s.phase.Logging? && |s.lh| == 0
    case Crash => true
    case ReadHead => s.phase.Boot?
    case RedoBlock => s.phase.Redoing? && s.phase.tail < |s.lh|
    case RedoDone => s.phase.Redoing? && s.phase.tail == |s.lh|
  }

  function Apply<T>(s: State<T>, step: Step<T>): (s': State<T>)
    requires Shape(s) && Enabled(s, step)
  {
    match step
    case Fill(b) => s.(cache := s.cache[b := s.home[b]])
    case Evict(b) => s.(cache := s.cache - {b})
    case Begin(op) => s.(ops := s.ops[op := {}])
    case Modify(op, b, x) => s.(cache := s.cache[b := x], dirty := s.dirty[b := op])
    case LogWrite(op, b) =>
      s.(lh := if 0 <= Slot(s.lh, b) then s.lh else s.lh + [b],
         pins := s.pins + {b},
         ops := s.ops[op := s.ops[op] + {b}],
         dirty := s.dirty - {b})
    case End(op) =>
      var ops := s.ops - {op};
      s.(ops := ops, phase := if ops == map[] then Logging(0) else s.phase)
    case LogBlock =>
      var t := s.phase.tail;
      s.(log := s.log[t := Read(s, s.lh[t])], phase := Logging(t + 1))
    case CommitHead => s.(head := s.lh, phase := Installing(0))
    case InstallBlock =>
      var t := s.phase.tail;
      InstallAt(s, t).(pins := s.pins - {s.lh[t]}, phase := Installing(t + 1))
    case EraseHead => s.(head := [], lh := [], phase := Logging(0))
    case Finish => s.(phase := Running)
    case Crash => State(s.home, s.log, s.head, map[], [], map[], {}, map[], Boot)
    case ReadHead => s.(lh := s.head, phase := Redoing(0))
    case RedoBlock =>
      var t := s.phase.tail;
      InstallAt(s, t).(phase := Redoing(t + 1))
    case RedoDone => s.(head := [], lh := [], phase := Running)
  }

  /** Copies log block t into the buffer of its home block, and writes that buffer to disk. */
  function InstallAt<T>(s: State<T>, t: nat): (s': State<T>)
    requires Shape(s) && t < |s.lh|
  {
    s.(home := s.home[s.lh[t] := s.log[t]], cache := s.cache[s.lh[t] := s.log[t]])
  }

  // ---------------------------------------------------------------- the invariant

  predicate Shape<T>(s: State<T>) {
    && |s.log| == LOGBLOCKS
    && Loggable(s.home, s.lh)
    && Loggable(s.home, s.head)
    && (s.phase.Logging? || s.phase.Installing? || s.phase.Redoing? ==> s.phase.tail <= |s.lh|)
  }

  ghost predicate Inv<T>(s: State<T>) {
    && Shape(s)
    && CacheOk(s.home, s.cache, s.pins, s.dirty)
    && DirtyOk(s.dirty, s.ops)
    && PhaseOk(s)
    && Budget(s.lh, s.ops)
  }

  /** A buffer differs from the disk only while it is pinned in the log or still being changed. */
  ghost predicate CacheOk<T>(home: Contents<T>, cache: Contents<T>, pins: set<nat>, dirty: map<nat, nat>) {
    && pins <= cache.Keys
    && dirty.Keys <= cache.Keys
    && (forall b :: b in cache ==> b in home && (b in pins || b in dirty || cache[b] == home[b]))
  }

  /** Callers change blocks only inside an operation. */
  ghost predicate DirtyOk(dirty: map<nat, nat>, ops: map<nat, set<nat>>) {
    forall b :: b in dirty ==> dirty[b] in ops
  }

  ghost predicate PhaseOk<T>(s: State<T>)
    requires Shape(s)
  {
    && (!s.phase.Running? ==> s.ops == map[] && s.dirty == map[])
    && match s.phase
       case Boot => s.lh == [] && s.pins == {}
       case Running => s.head == [] && PinsFrom(s.pins, s.lh, 0)
       case Logging(t) => s.head == [] && PinsFrom(s.pins, s.lh, 0) && LogHolds(s.home, s.cache, s.log, s.lh, t)
       case Installing(t) =>
         && s.head == s.lh
         && PinsFrom(s.pins, s.lh, t)
         && LogHolds(s.home, s.cache, s.log, s.lh, |s.lh|)
         && HomeHolds(s.home, s.log, s.lh, t)
       case Redoing(t) => s.head == s.lh && s.pins == {} && HomeHolds(s.home, s.log, s.lh, t)
  }

  /** Exactly the logged blocks from t on are pinned. */
  ghost predicate PinsFrom(pins: set<nat>, lh: seq<nat>, t: nat) {
    && (forall b :: b in pins ==> 0 <= Slot(lh, b))
    && (forall i :: 0 <= i < |lh| ==> (lh[i] in pins <==> t <= i))
  }

  /** The first t log blocks hold the latest contents of the first t logged blocks. */
  ghost predicate LogHolds<T>(home: Contents<T>, cache: Contents<T>, log: seq<T>, lh: seq<nat>, t: nat)
    requires t <= |lh| <= |log| && Loggable(home, lh)
  {
    forall i :: 0 <= i < t ==> log[i] == Latest(home, cache, lh[i])
  }

  /** The first t logged blocks have been copied home. */
  ghost predicate HomeHolds<T>(home: Contents<T>, log: seq<T>, lh: seq<nat>, t: nat)
    requires t <= |lh| <= |log| && Loggable(home, lh)
  {
    forall i :: 0 <= i < t ==> home[lh[i]] == log[i]
  }

  /** What is left of an operation's reservation of MAXOPBLOCKS log blocks. */
  function Left(logged: set<nat>): nat {
    if |logged| <= MAXOPBLOCKS then MAXOPBLOCKS - |logged| else 0
  }

  /** The part of their reservations that active operations have not used. */
  ghost function Unused(ops: map<nat, set<nat>>): nat
    decreases |ops|
  {
    if ops == map[] then 0
    else
      var op :| op in ops;
      Left(ops[op]) + Unused(ops - {op})
  }

  ghost predicate Budget(lh: seq<nat>, ops: map<nat, set<nat>>) {
    && (forall op :: op in ops ==> |ops[op]| <= MAXOPBLOCKS && forall b :: b in ops[op] ==> 0 <= Slot(lh, b))
    && |lh| + Unused(ops) <= LOGBLOCKS
  }

  lemma {:induction false} UnusedWithout(ops: map<nat, set<nat>>, op: nat)
    requires op in ops
    ensures Unused(ops) == Left(ops[op]) + Unused(ops - {op})
    decreases |ops|
  {
    var o :| o in ops && Unused(ops) == Left(ops[o]) + Unused(ops - {o});
    if o != op {
      UnusedWithout(ops - {o}, op);
      UnusedWithout(ops - {op}, o);
      assert ops - {o} - {op} == ops - {op} - {o};
    }
  }

  lemma {:induction false} UnusedAtMost(ops: map<nat, set<nat>>)
    ensures Unused(ops) <= |ops| * MAXOPBLOCKS
    decreases |ops|
  {
    if ops == map[] {
      assert |ops| == 0;
    } else {
      var op :| op in ops && Unused(ops) == Left(ops[op]) + Unused(ops - {op});
      UnusedAtMost(ops - {op});
      assert |ops - {op}| == |ops| - 1;
      assert Left(ops[op]) <= MAXOPBLOCKS;
      assert Unused(ops) <= |ops - {op}| * MAXOPBLOCKS + MAXOPBLOCKS;
    }
  }

  // ---------------------------------------------------------------- every step keeps the invariant

  lemma BeginKeepsInv<T>(s: State<T>, op: nat)
    requires Inv(s) && Enabled(s, Begin(op))
    ensures Inv(Apply(s, Begin(op)))
  {
    var ops' := s.ops[op := {}];
    assert Budget(s.lh, ops') by {
      UnusedWithout(ops', op);
      assert ops' - {op} == s.ops;
      UnusedAtMost(s.ops);
      assert (|s.ops| + 1) * MAXOPBLOCKS == |s.ops| * MAXOPBLOCKS + MAXOPBLOCKS;
    }
  }

  lemma UnusedWrite(ops: map<nat, set<nat>>, op: nat, b: nat, ops': map<nat, set<nat>>)
    requires op in ops && ops' == ops[op := ops[op] + {b}] && (b in ops[op] || |ops[op]| < MAXOPBLOCKS)
    ensures Unused(ops') == if b in ops[op] then Unused(ops) else Unused(ops) - 1
    ensures |ops[op]| <= MAXOPBLOCKS ==> |ops'[op]| <= MAXOPBLOCKS
  {
    UnusedWithout(ops, op);
    UnusedWithout(ops', op);
    assert ops' - {op} == ops - {op};
    if b in ops[op] {
      assert ops[op] + {b} == ops[op];
    } else {
      assert |ops[op] + {b}| == |ops[op]| + 1;
    }
  }

  lemma SlotAfter(lh: seq<nat>, b: nat, x: nat)
    requires x == b || 0 <= Slot(lh, x)
    ensures 0 <= Slot(if 0 <= Slot(lh, b) then lh else lh + [b], x)
  {
    if Slot(lh, b) < 0 {
      assert (lh + [b])[if x == b then |lh| else Slot(lh, x)] == x;
    }
  }

  lemma LogWriteBudget(lh: seq<nat>, ops: map<nat, set<nat>>, op: nat, b: nat)
    requires Budget(lh, ops) && op in ops && (b in ops[op] || |ops[op]| < MAXOPBLOCKS)
    ensures Budget(if 0 <= Slot(lh, b) then lh else lh + [b], ops[op := ops[op] + {b}])
  {
    var lh', ops' := if 0 <= Slot(lh, b) then lh else lh + [b], ops[op := ops[op] + {b}];
    UnusedWrite(ops, op, b, ops');
    assert |lh'| + Unused(ops') <= LOGBLOCKS;
    forall o | o in ops'
      ensures |ops'[o]| <= MAXOPBLOCKS && forall x :: x in ops'[o] ==> 0 <= Slot(lh', x)
    {
      forall x | x in ops'[o]
        ensures 0 <= Slot(lh', x)
      {
        SlotAfter(lh, b, x);
      }
    }
  }

  lemma AbsorbLoggable<T>(home: Contents<T>, lh: seq<nat>, b: nat)
    requires Loggable(home, lh) && |lh| < LOGBLOCKS && b in home
    ensures Loggable(home, if 0 <= Slot(lh, b) then lh else lh + [b])
  {
  }

  /** Absorption: a block already logged is neither appended nor pinned again. */
  lemma LogWritePins<T>(home: Contents<T>, pins: set<nat>, lh: seq<nat>, b: nat, lh': seq<nat>, pins': set<nat>)
    requires Loggable(home, lh) && PinsFrom(pins, lh, 0) && |lh| < LOGBLOCKS && b in home
    requires lh' == (if 0 <= Slot(lh, b) then lh else lh + [b]) && pins' == pins + {b}
    ensures Loggable(home, lh') && PinsFrom(pins', lh', 0)
  {
  }

  /** The block is pinned instead of being changed. */
  lemma LogWriteCache<T>(home: Contents<T>, cache: Contents<T>, pins: set<nat>, dirty: map<nat, nat>,
                         ops: map<nat, set<nat>>, op: nat, b: nat)
    requires CacheOk(home, cache, pins, dirty) && DirtyOk(dirty, ops) && b in dirty && op in ops
    ensures CacheOk(home, cache, pins + {b}, dirty - {b}) && DirtyOk(dirty - {b}, ops[op := ops[op] + {b}])
  {
  }

  lemma LogWriteKeepsInv<T>(s: State<T>, op: nat, b: nat)
    requires Inv(s) && Enabled(s, LogWrite(op, b))
    ensures Inv(Apply(s, LogWrite(op, b)))
  {
    var s' := Apply(s, LogWrite(op, b));
    LogWriteCache(s.home, s.cache, s.pins, s.dirty, s.ops, op, b);
    LogWriteBudget(s.lh, s.ops, op, b);
    LogWritePins(s.home, s.pins, s.lh, b, s'.lh, s'.pins);
  }

  lemma EndKeepsInv<T>(s: State<T>, op: nat)
    requires Inv(s) && Enabled(s, End(op))
    ensures Inv(Apply(s, End(op)))
  {
    UnusedWithout(s.ops, op);
  }

  /** Copying log block t home: cache and disk agree on the block afterwards, one more block is
      home, and the log still holds the latest contents if it did before. */
  lemma InstallAtKeeps<T>(s: State<T>, s': State<T>, t: nat)
    requires Shape(s) && t < |s.lh| && CacheOk(s.home, s.cache, s.pins, s.dirty)
    requires s'.home == InstallAt(s, t).home && s'.cache == InstallAt(s, t).cache && s'.dirty == s.dirty
    requires s'.pins == s.pins || s'.pins == s.pins - {s.lh[t]}
    ensures CacheOk(s'.home, s'.cache, s'.pins, s'.dirty)
    ensures Loggable(s'.home, s.lh)
    ensures HomeHolds(s.home, s.log, s.lh, t) ==> HomeHolds(s'.home, s.log, s.lh, t + 1)
    ensures LogHolds(s.home, s.cache, s.log, s.lh, |s.lh|) ==> LogHolds(s'.home, s'.cache, s.log, s.lh, |s.lh|)
  {
  }

  lemma UnpinNext(pins: set<nat>, lh: seq<nat>, t: nat, pins': set<nat>)
    requires PinsFrom(pins, lh, t) && Distinct(lh) && t < |lh| && pins' == pins - {lh[t]}
    ensures PinsFrom(pins', lh, t + 1)
  {
  }

  lemma InstallBlockKeepsInv<T>(s: State<T>)
    requires Inv(s) && Enabled(s, InstallBlock)
    ensures Inv(Apply(s, InstallBlock))
  {
    var s', t := Apply(s, InstallBlock), s.phase.tail;
    InstallAtKeeps(s, s', t);
    UnpinNext(s.pins, s.lh, t, s'.pins);
  }

  lemma RedoBlockKeepsInv<T>(s: State<T>)
    requires Inv(s) && Enabled(s, RedoBlock)
    ensures Inv(Apply(s, RedoBlock))
  {
    InstallAtKeeps(s, Apply(s, RedoBlock), s.phase.tail);
  }

  lemma CacheStepKeepsInv<T>(s: State<T>, step: Step<T>)
    requires Inv(s) && Enabled(s, step) && (step.Fill? || step.Evict?)
    ensures Inv(Apply(s, step))
  {
    var s' := Apply(s, step);
    assert CacheOk(s'.home, s'.cache, s'.pins, s'.dirty);
    forall b | b in s.home ensures Read(s', b) == Read(s, b) {
    }
  }

  lemma ModifyKeepsInv<T>(s: State<T>, op: nat, b: nat, x: T)
    requires Inv(s) && Enabled(s, Modify(op, b, x))
    ensures Inv(Apply(s, Modify(op, b, x)))
  {
  }

  lemma LogBlockKeepsInv<T>(s: State<T>)
    requires Inv(s) && Enabled(s, LogBlock)
    ensures Inv(Apply(s, LogBlock))
  {
  }

  lemma EraseHeadKeepsInv<T>(s: State<T>)
    requires Inv(s) && Enabled(s, EraseHead)
    ensures Inv(Apply(s, EraseHead))
  {
    assert s.pins == {};
  }

  lemma StepKeepsInv<T>(s: State<T>, step: Step<T>)
    requires Inv(s) && Enabled(s, step)
    ensures Inv(Apply(s, step))
  {
    match step
    case Fill(_) => CacheStepKeepsInv(s, step);
    case Evict(_) => CacheStepKeepsInv(s, step);
    case Begin(op) => BeginKeepsInv(s, op);
    case Modify(op, b, x) => ModifyKeepsInv(s, op, b, x);
    case LogWrite(op, b) => LogWriteKeepsInv(s, op, b);
    case End(op) => EndKeepsInv(s, op);
    case LogBlock => LogBlockKeepsInv(s);
    case InstallBlock => InstallBlockKeepsInv(s);
    case EraseHead => EraseHeadKeepsInv(s);
    case RedoBlock => RedoBlockKeepsInv(s);
    case _ =>
  }

  // ---------------------------------------------------------------- refinement of the atomic store

  /** Home block b after redoing a log: its log copy if it is logged, else what the disk holds. */
  function Redone<T>(home: Contents<T>, log: seq<T>, lh: seq<nat>, b: nat): (x: T)
    requires |lh| <= |log| && b in home
  {
    var i := Slot(lh, b);
    if 0 <= i then log[i] else home[b]
  }

  /** What recovery would leave in the home blocks, starting from the present disk. */
  ghost function Durable<T>(s: State<T>): (c: Contents<T>)
    requires Shape(s)
  {
    map b | b in s.home :: Redone(s.home, s.log, s.head, b)
  }

  /** The home blocks as readers see them now. */
  ghost function Pending<T>(s: State<T>): (c: Contents<T>)
    requires Shape(s)
  {
    if s.phase.Boot? || s.phase.Redoing? then Durable(s) else map b | b in s.home :: Read(s, b)
  }

  ghost function Abs<T>(s: State<T>): (a: Store<T>)
    requires Shape(s)
  {
    Store(Durable(s), Pending(s), s.ops.Keys)
  }

  function EventOf<T>(step: Step<T>): (e: Event<T>) {
    match step
    case Begin(op) => Start(op)
    case Modify(op, b, x) => Write(op, b, x)
    case End(op) => Stop(op)
    case CommitHead => Commit
    case Crash => Lose
    case _ => Nothing
  }

  lemma HomeKeysStep<T>(s: State<T>, step: Step<T>)
    requires Shape(s) && Enabled(s, step)
    ensures Apply(s, step).home.Keys == s.home.Keys
  {
  }

  lemma HeadStep<T>(s: State<T>, step: Step<T>)
    requires Shape(s) && Enabled(s, step)
    ensures |Apply(s, step).head| <= |Apply(s, step).log|
  {
  }

  /** What recovery will leave in block b changes only when a commit writes its header, and then
      it becomes what readers see. */
  lemma RedoneStep<T>(s: State<T>, step: Step<T>, b: nat)
    requires Inv(s) && Enabled(s, step) && b in s.home
    ensures var s' := Apply(s, step);
            && b in s'.home && |s'.head| <= |s'.log|
            && Redone(s'.home, s'.log, s'.head, b) ==
               if step.CommitHead? then Read(s, b) else Redone(s.home, s.log, s.head, b)
  {
    HomeKeysStep(s, step);
    HeadStep(s, step);
  }

  /** What block b reads as after a step, outside recovery. */
  lemma ReadStep<T>(s: State<T>, step: Step<T>, b: nat)
    requires Inv(s) && Enabled(s, step) && b in s.home
    requires !step.Crash? && !step.ReadHead? && !step.RedoBlock? && !step.RedoDone?
    ensures var s' := Apply(s, step);
            && b in s'.home
            && Read(s', b) == if step.Modify? && b == step.b then step.data else Read(s, b)
  {
  }

  /** When recovery ends, readers see what it was bound to leave. */
  lemma RedoDoneRead<T>(s: State<T>, b: nat)
    requires Inv(s) && Enabled(s, RedoDone) && b in s.home
    ensures Read(Apply(s, RedoDone), b) == Redone(s.home, s.log, s.head, b)
  {
  }

  /** The durable contents are determined by what recovery leaves in each block. */
  lemma DurableIs<T>(s: State<T>, c: Contents<T>)
    requires Shape(s) && c.Keys == s.home.Keys
    requires forall b :: b in c ==> c[b] == Redone(s.home, s.log, s.head, b)
    ensures Durable(s) == c
  {
  }

  /** The pending contents are determined by what each block reads as. */
  lemma PendingIs<T>(s: State<T>, c: Contents<T>)
    requires Shape(s) && !s.phase.Boot? && !s.phase.Redoing? && c.Keys == s.home.Keys
    requires forall b :: b in c ==> c[b] == Read(s, b)
    ensures Pending(s) == c
  {
  }

  lemma DurableStep<T>(s: State<T>, step: Step<T>, s': State<T>)
    requires Inv(s) && Enabled(s, step) && s' == Apply(s, step) && Shape(s')
    ensures Durable(s') == if step.CommitHead? then Pending(s) else Durable(s)
  {
    HomeKeysStep(s, step);
    var c := if step.CommitHead? then Pending(s) else Durable(s);
    forall b | b in c ensures c[b] == Redone(s'.home, s'.log, s'.head, b) {
      RedoneStep(s, step, b);
    }
    DurableIs(s', c);
  }

  lemma ModifyPending<T>(s: State<T>, op: nat, b: nat, x: T)
    requires Inv(s) && Enabled(s, Modify(op, b, x)) && Shape(Apply(s, Modify(op, b, x)))
    ensures Pending(Apply(s, Modify(op, b, x))) == Pending(s)[b := x]
  {
    PendingIs(Apply(s, Modify(op, b, x)), Pending(s)[b := x]);
  }

  lemma RedoDonePending<T>(s: State<T>, s': State<T>)
    requires Inv(s) && Enabled(s, RedoDone) && s' == Apply(s, RedoDone) && Shape(s')
    ensures Pending(s') == Pending(s)
  {
    forall b | b in s.home ensures Read(s', b) == Redone(s.home, s.log, s.head, b) {
      RedoDoneRead(s, b);
    }
    PendingIs(s', Pending(s));
  }

  lemma QuietPending<T>(s: State<T>, step: Step<T>, s': State<T>)
    requires Inv(s) && Enabled(s, step) && s' == Apply(s, step) && Shape(s')
    requires !s'.phase.Boot? && !s'.phase.Redoing? && !step.Modify? && !step.RedoDone?
    ensures Pending(s') == Pending(s)
  {
    HomeKeysStep(s, step);
    forall b | b in s.home ensures Read(s', b) == Read(s, b) {
      ReadStep(s, step, b);
    }
    PendingIs(s', Pending(s));
  }

  /** A change is visible to readers at once; no other step but a crash changes what they see. */
  lemma PendingStep<T>(s: State<T>, step: Step<T>, s': State<T>)
    requires Inv(s) && Enabled(s, step) && s' == Apply(s, step) && Shape(s')
    ensures Pending(s') ==
      if step.Modify? then Pending(s)[step.b := step.data] else if step.Crash? then Durable(s) else Pending(s)
  {
    if s'.phase.Boot? || s'.phase.Redoing? {
      DurableStep(s, step, s');
    } else if step.Modify? {
      ModifyPending(s, step.op, step.b, step.data);
    } else if step.RedoDone? {
      RedoDonePending(s, s');
    } else {
      QuietPending(s, step, s');
    }
  }

  /** Operations come and go as the events say, and a commit finds none active. */
  ghost predicate OpsFollow<T>(s: State<T>, step: Step<T>, ops': map<nat, set<nat>>) {
    match step
    case Begin(op) => op !in s.ops && ops'.Keys == s.ops.Keys + {op}
    case Modify(op, b, _) => op in s.ops && b in s.home && ops' == s.ops
    case End(op) => op in s.ops && ops'.Keys == s.ops.Keys - {op}
    case CommitHead => s.ops.Keys == {} && ops' == s.ops
    case Crash => ops' == map[]
    case _ => ops'.Keys == s.ops.Keys
  }

  lemma CommitOps<T>(s: State<T>)
    requires Inv(s) && Enabled(s, CommitHead)
    ensures OpsFollow(s, CommitHead, Apply(s, CommitHead).ops)
  {
  }

  lemma CallerOps<T>(s: State<T>, step: Step<T>)
    requires Shape(s) && CacheOk(s.home, s.cache, s.pins, s.dirty) && Enabled(s, step)
    requires step.Begin? || step.Modify? || step.LogWrite? || step.End?
    ensures OpsFollow(s, step, Apply(s, step).ops)
  {
  }

  lemma OtherOps<T>(s: State<T>, step: Step<T>)
    requires Shape(s) && Enabled(s, step) && !(step.Begin? || step.Modify? || step.LogWrite? || step.End?)
    requires !step.CommitHead?
    ensures OpsFollow(s, step, Apply(s, step).ops)
  {
  }

  lemma OpsStep<T>(s: State<T>, step: Step<T>)
    requires Inv(s) && Enabled(s, step)
    ensures OpsFollow(s, step, Apply(s, step).ops)
  {
    if step.CommitHead? {
      CommitOps(s);
    } else if step.Begin? || step.Modify? || step.LogWrite? || step.End? {
      CallerOps(s, step);
    } else {
      OtherOps(s, step);
    }
  }

  lemma NextFrom<T>(s: State<T>, step: Step<T>, s': State<T>)
    requires Shape(s) && Shape(s') && OpsFollow(s, step, s'.ops)
    requires Durable(s') == if step.CommitHead? then Pending(s) else Durable(s)
    requires Pending(s') ==
      if step.Modify? then Pending(s)[step.b := step.data] else if step.Crash? then Durable(s) else Pending(s)
    ensures Next(Abs(s), EventOf(step), Abs(s'))
  {
    assert s.home.Keys == Pending(s).Keys;
  }

  /** Every step of the log is a step of the atomic store, the one named by EventOf. */
  lemma StepRefines<T>(s: State<T>, step: Step<T>)
    requires Inv(s) && Enabled(s, step)
    ensures Inv(Apply(s, step))
    ensures Next(Abs(s), EventOf(step), Abs(Apply(s, step)))
  {
    var s' := Apply(s, step);
    StepKeepsInv(s, step);
    DurableStep(s, step, s');
    PendingStep(s, step, s');
    OpsStep(s, step);
    NextFrom(s, step, s');
  }

  // ---------------------------------------------------------------- whole runs

  /** A run: the states passed through, and the step taken from each to the next. */
  ghost predicate Run<T>(states: seq<State<T>>, steps: seq<Step<T>>) {
    && |states| == |steps| + 1
    && forall i :: 0 <= i < |steps| ==> Follows(states[i], steps[i], states[i + 1])
  }

  ghost predicate Follows<T>(s: State<T>, step: Step<T>, s': State<T>) {
    Shape(s) && Enabled(s, step) && s' == Apply(s, step)
  }

  /** The disk writes of one commit of n blocks, in order. */
  function CommitSteps<T>(n: nat): (steps: seq<Step<T>>) {
    if n == 0 then [] else Repeat(LogBlock, n) + [CommitHead] + Repeat(InstallBlock, n) + [EraseHead]
  }

  function Repeat<T>(step: Step<T>, n: nat): (steps: seq<Step<T>>)
    ensures |steps| == n && forall i :: 0 <= i < n ==> steps[i] == step
  {
    if n == 0 then [] else Repeat(step, n - 1) + [step]
  }

  /** The passes of write_log and of install_trans(0) with the two header writes make a commit. */
  lemma CommitRun<T>(logged: seq<State<T>>, installed: seq<State<T>>, last: State<T>, n: nat)
    requires n > 0 && Run(logged, Repeat(LogBlock, n)) && Run(installed, Repeat(InstallBlock, n))
    requires Follows(logged[n], CommitHead, installed[0]) && Follows(installed[n], EraseHead, last)
    ensures Run(logged + installed + [last], CommitSteps(n))
  {
    var states, steps := logged + installed + [last], CommitSteps<T>(n);
    forall i | 0 <= i < |steps| ensures Follows(states[i], steps[i], states[i + 1]) {
      if i < n {
        assert Follows(logged[i], Repeat(LogBlock, n)[i], logged[i + 1]);
      } else if n < i <= 2 * n {
        var j := i - n - 1;
        assert Follows(installed[j], Repeat(InstallBlock, n)[j], installed[j + 1]);
      }
    }
  }

  lemma {:induction false} RunInv<T>(states: seq<State<T>>, steps: seq<Step<T>>, k: nat)
    requires Run(states, steps) && Inv(states[0]) && k < |states|
    ensures Inv(states[k])
  {
    if k > 0 {
      RunInv(states, steps, k - 1);
      assert Follows(states[k - 1], steps[k - 1], states[k]);
      StepKeepsInv(states[k - 1], steps[k - 1]);
    }
  }

  lemma RunStep<T>(states: seq<State<T>>, steps: seq<Step<T>>, k: nat)
    requires Run(states, steps) && Inv(states[0]) && k < |steps|
    ensures Inv(states[k]) && Inv(states[k + 1])
    ensures Next(Abs(states[k]), EventOf(steps[k]), Abs(states[k + 1]))
  {
    RunInv(states, steps, k);
    assert Follows(states[k], steps[k], states[k + 1]);
    StepRefines(states[k], steps[k]);
  }

  /** What the atomic store does along a run of the log. */
  ghost predicate Shadows<T>(run: seq<Store<T>>, events: seq<Event<T>>, states: seq<State<T>>, steps: seq<Step<T>>) {
    && |run| == |states| && |events| == |steps|
    && (forall i :: 0 <= i < |states| ==> Shape(states[i]) && run[i] == Abs(states[i]))
    && (forall i :: 0 <= i < |steps| ==> events[i] == EventOf(steps[i]))
  }

  /** Crash atomicity: along every run, with crashes between any two disk writes and inside
      recovery too, the log behaves as the atomic store. */
  lemma RunRefines<T>(states: seq<State<T>>, steps: seq<Step<T>>, run: seq<Store<T>>, events: seq<Event<T>>)
    requires Run(states, steps) && Inv(states[0]) && Shadows(run, events, states, steps)
    ensures IsRun(run, events)
  {
    forall i | 0 <= i < |events| ensures Next(run[i], events[i], run[i + 1]) {
      RunStep(states, steps, i);
    }
  }

  /** However a run got there, when recovery ends the home blocks on disk are exactly what readers
      saw at the last commit before, a moment when no operation was active; before any commit they
      are what the first disk held. */
  lemma RecoveryYieldsLastCommit<T>(states: seq<State<T>>, steps: seq<Step<T>>, run: seq<Store<T>>,
                                    events: seq<Event<T>>)
    requires Run(states, steps) && Inv(states[0]) && Shadows(run, events, states, steps)
    requires steps != [] && steps[|steps| - 1].RedoDone?
    ensures var n, j := |steps|, LastCommit(events, |steps|);
            if j < 0 then states[n].home == run[0].durable
            else run[j].ops == {} && states[n].home == run[j].pending
  {
    var n := |steps|;
    RunRefines(states, steps, run, events);
    DurableIsLastCommit(run, events, n);
    assert Follows(states[n - 1], steps[n - 1], states[n]);
    RedoDoneHome(states[n - 1], steps[n - 1], states[n]);
  }

  lemma RedoDoneHome<T>(s: State<T>, step: Step<T>, s': State<T>)
    requires Follows(s, step, s') && step.RedoDone? && Shape(s')
    ensures Durable(s') == s'.home
  {
    DurableIs(s', s'.home);
  }

  predicate IsCommitStep<T>(step: Step<T>) {
    step.LogBlock? || step.CommitHead? || step.InstallBlock? || step.EraseHead?
  }

  /** After a crash now the home blocks are d; readers see p. */
  ghost predicate Stores<T>(s: State<T>, d: Contents<T>, p: Contents<T>) {
    Inv(s) && Durable(s) == d && Pending(s) == p
  }

  lemma CommitStepStores<T>(s: State<T>, step: Step<T>, s': State<T>, d: Contents<T>, d': Contents<T>, p: Contents<T>)
    requires Stores(s, d, p) && Follows(s, step, s') && IsCommitStep(step) && d' == if step.CommitHead? then p else d
    ensures Stores(s', d', p)
  {
    StepKeepsInv(s, step);
    DurableStep(s, step, s');
    PendingStep(s, step, s');
  }

  /** Up to the header write, the n-th, the home blocks after a crash are d, then p. */
  ghost predicate StoresAt<T>(s: State<T>, k: nat, n: nat, d: Contents<T>, p: Contents<T>) {
    Stores(s, if k <= n then d else p, p)
  }

  lemma StoresNext<T>(s: State<T>, step: Step<T>, s': State<T>, k: nat, n: nat, d: Contents<T>, p: Contents<T>)
    requires StoresAt(s, k, n, d, p) && Follows(s, step, s') && IsCommitStep(step) && (step.CommitHead? <==> k == n)
    ensures StoresAt(s', k + 1, n, d, p)
  {
    CommitStepStores(s, step, s', if k <= n then d else p, if k + 1 <= n then d else p, p);
  }

  lemma {:induction false} CommitPrefix<T>(states: seq<State<T>>, steps: seq<Step<T>>, n: nat, k: nat, d: Contents<T>,
                                           p: Contents<T>)
    requires Run(states, steps) && Stores(states[0], d, p) && k < |states|
    requires forall i :: 0 <= i < |steps| ==> IsCommitStep(steps[i]) && (steps[i].CommitHead? <==> i == n)
    ensures StoresAt(states[k], k, n, d, p)
  {
    if k > 0 {
      var i := k - 1;
      CommitPrefix(states, steps, n, i, d, p);
      assert Follows(states[i], steps[i], states[k]);
      StoresNext(states[i], steps[i], states[k], i, n, d, p);
    }
  }

  /** A crash after k of a commit's disk writes keeps the whole group if the header write was among
      them, and nothing of it otherwise. */
  lemma CommitAllOrNothing<T>(states: seq<State<T>>, n: nat, k: nat)
    requires n > 0 && Run(states, CommitSteps(n)) && Inv(states[0]) && k < |states|
    ensures Inv(states[k])
    ensures Durable(states[k]) == if k <= n then Durable(states[0]) else Pending(states[0])
    ensures Pending(states[k]) == Pending(states[0])
  {
    var steps := CommitSteps<T>(n);
    forall i | 0 <= i < |steps|
      ensures IsCommitStep(steps[i]) && (steps[i].CommitHead? <==> i == n)
    {
      CommitStepAt<T>(n, i);
    }
    CommitPrefix(states, steps, n, k, Durable(states[0]), Pending(states[0]));
  }

  lemma CommitStepAt<T>(n: nat, i: nat)
    requires i < |CommitSteps<T>(n)|
    ensures var step := CommitSteps<T>(n)[i]; IsCommitStep(step) && (step.CommitHead? <==> i == n)
  {
  }

  // ---------------------------------------------------------------- log space

  /** log_write's first test: a full log stops the machine, even for a block already logged. */
  predicate LogWritePanics<T>(s: State<T>) {
    |s.lh| >= LOGBLOCKS || |s.ops| < 1
  }

  /** In every reachable state, an operation within its budget that logs a new block finds room;
      log_write stops the machine exactly when all LOGBLOCKS slots are taken, and then the block
      was logged before and no operation has any reservation left. */
  lemma NewBlockHasRoom<T>(s: State<T>, op: nat, b: nat)
    requires Inv(s) && WithinBudget(s, op, b)
    ensures Slot(s.lh, b) < 0 ==> !LogWritePanics(s)
    ensures LogWritePanics(s) <==> |s.lh| == LOGBLOCKS
    ensures LogWritePanics(s) ==> Unused(s.ops) == 0
  {
    UnusedWithout(s.ops, op);
  }

  /** A commit never runs while an operation is active. */
  lemma CommitFindsNoOperation<T>(s: State<T>, step: Step<T>)
    requires Inv(s) && Enabled(s, step)
    requires step.LogBlock? || step.CommitHead? || step.InstallBlock? || step.EraseHead? || step.Finish?
    ensures s.ops == map[] && s.dirty == map[]
  {
  }

  // Three operations that log ten blocks each fill the log.

  ghost predicate Filled<T>(s: State<T>, m: nat) {
    && Shape(s) && s.phase.Running? && |s.lh| == m && s.dirty == map[] && Shares(s.ops, m)
    && (forall i :: 0 <= i < m ==> s.lh[i] == i)
    && (forall i :: 0 <= i < LOGBLOCKS ==> i in s.cache && i in s.home)
  }

  /** The first m blocks are divided among the three. */
  ghost predicate Shares(ops: map<nat, set<nat>>, m: nat) {
    && ops.Keys == {0, 1, 2}
    && forall op :: op in ops ==> |ops[op]| == Share(op, m) && forall b: nat :: b in ops[op] <==> b < m && b / 10 == op
  }

  /** How many of the first m blocks fall to operation op. */
  function Share(op: nat, m: nat): nat {
    if m <= 10 * op then 0 else if m <= 10 * op + 10 then m - 10 * op else 10
  }

  /** One more block changed and logged. */
  ghost function FillOne<T>(s: State<T>, m: nat): (s': State<T>)
    requires Filled(s, m) && m < LOGBLOCKS
  {
    var op := m / 10;
    s.(lh := s.lh + [m], pins := s.pins + {m}, ops := s.ops[op := s.ops[op] + {m}])
  }

  lemma FillOneSteps<T>(s: State<T>, m: nat) returns (mid: State<T>)
    requires Filled(s, m) && m < LOGBLOCKS
    ensures Follows(s, Modify(m / 10, m, s.cache[m]), mid) && Follows(mid, LogWrite(m / 10, m), FillOne(s, m))
  {
    var op := m / 10;
    mid := s.(dirty := map[m := op]);
    assert s.cache[m := s.cache[m]] == s.cache;
    assert mid.dirty - {m} == map[];
    assert Slot(s.lh, m) < 0;
    assert |s.ops[op]| < MAXOPBLOCKS;
  }

  lemma SharesNext(ops: map<nat, set<nat>>, m: nat, ops': map<nat, set<nat>>)
    requires Shares(ops, m) && m < LOGBLOCKS && m / 10 in ops && ops' == ops[m / 10 := ops[m / 10] + {m}]
    ensures Shares(ops', m + 1)
  {
    var op := m / 10;
    assert m !in ops[op];
    assert |ops'[op]| == |ops[op]| + 1;
  }

  lemma FillOneFills<T>(s: State<T>, m: nat)
    requires Filled(s, m) && m < LOGBLOCKS
    ensures Filled(FillOne(s, m), m + 1)
  {
    var s' := FillOne(s, m);
    assert Slot(s.lh, m) < 0;
    AbsorbLoggable(s.home, s.lh, m);
    SharesNext(s.ops, m, s'.ops);
  }

  lemma {:induction false} FillAll<T>(s: State<T>, m: nat) returns (states: seq<State<T>>, steps: seq<Step<T>>)
    requires Filled(s, m) && m <= LOGBLOCKS
    ensures Run(states, steps) && states[0] == s && Filled(states[|steps|], LOGBLOCKS)
    decreases LOGBLOCKS - m
  {
    if m == LOGBLOCKS {
      states, steps := [s], [];
    } else {
      var mid := FillOneSteps(s, m);
      FillOneFills(s, m);
      states, steps := FillAll(FillOne(s, m), m + 1);
      RunCons(mid, LogWrite(m / 10, m), states, steps);
      states, steps := [mid] + states, [LogWrite(m / 10, m)] + steps;
      RunCons(s, Modify(m / 10, m, s.cache[m]), states, steps);
      states, steps := [s] + states, [Modify(m / 10, m, s.cache[m])] + steps;
    }
  }

  /** A step, then a run from where it leads. */
  lemma RunCons<T>(s: State<T>, step: Step<T>, states: seq<State<T>>, steps: seq<Step<T>>)
    requires Run(states, steps) && Follows(s, step, states[0])
    ensures Run([s] + states, [step] + steps)
    ensures ([s] + states)[|steps| + 1] == states[|steps|]
  {
    var all, ss := [s] + states, [step] + steps;
    forall i | 0 <= i < |ss| ensures Follows(all[i], ss[i], all[i + 1]) {
      if i > 0 {
        assert Follows(states[i - 1], steps[i - 1], states[i]);
      }
    }
  }

  /** A run, then a step from where it leads. */
  lemma RunSnoc<T>(states: seq<State<T>>, steps: seq<Step<T>>, step: Step<T>, s: State<T>)
    requires Run(states, steps) && Follows(states[|steps|], step, s)
    ensures Run(states + [s], steps + [step])
  {
    var all, ss := states + [s], steps + [step];
    forall i | 0 <= i < |ss| ensures Follows(all[i], ss[i], all[i + 1]) {
      if i < |steps| {
        assert Follows(states[i], steps[i], states[i + 1]);
      }
    }
  }

  /** A freshly recovered log with every block cached, and n operations begun. */
  function Started<T>(home: Contents<T>, log: seq<T>, ops: map<nat, set<nat>>): (s: State<T>) {
    State(home, log, [], home, [], ops, {}, map[], Running)
  }

  lemma StartThree<T>(home: Contents<T>, log: seq<T>)
    requires |log| == LOGBLOCKS && forall i :: 0 <= i < LOGBLOCKS ==> i in home
    ensures Inv(Started(home, log, map[]))
    ensures Follows(Started(home, log, map[]), Begin(0), Started(home, log, map[0 := {}]))
    ensures Follows(Started(home, log, map[0 := {}]), Begin(1), Started(home, log, map[0 := {}, 1 := {}]))
    ensures Follows(Started(home, log, map[0 := {}, 1 := {}]), Begin(2),
                    Started(home, log, map[0 := {}, 1 := {}, 2 := {}]))
    ensures Filled(Started(home, log, map[0 := {}, 1 := {}, 2 := {}]), 0)
  {
    var none: set<nat> := {};
    assert |map[0 := none]| == 1 && |map[0 := none, 1 := none]| == 2;
  }

  lemma FullThenModify<T>(s: State<T>)
    requires Filled(s, LOGBLOCKS)
    ensures var step := Modify(0, 0, s.cache[0]);
            && Follows(s, step, Apply(s, step))
            && RefusedButAbsorbed(Apply(s, step), 0, 0)
  {
    assert s.lh[0] == 0;
    assert 0 in s.ops[0];
  }

  /** log_write(b) would stop the machine, though b is logged and its operation within budget. */
  predicate RefusedButAbsorbed<T>(s: State<T>, op: nat, b: nat) {
    && WithinBudget(s, op, b) && b in s.dirty && s.dirty[b] == op
    && 0 <= Slot(s.lh, b) && LogWritePanics(s)
  }

  /** From any disk with enough home blocks there is a run to a full log. */
  lemma FillRun<T>(home: Contents<T>, log: seq<T>) returns (states: seq<State<T>>, steps: seq<Step<T>>)
    requires |log| == LOGBLOCKS && forall i :: 0 <= i < LOGBLOCKS ==> i in home
    ensures Run(states, steps) && Inv(states[0]) && states[0].home == home && Filled(states[|steps|], LOGBLOCKS)
  {
    var s0, s1 := Started(home, log, map[]), Started(home, log, map[0 := {}]);
    var s2, s3 := Started(home, log, map[0 := {}, 1 := {}]), Started(home, log, map[0 := {}, 1 := {}, 2 := {}]);
    StartThree(home, log);
    states, steps := FillAll(s3, 0);
    RunCons(s2, Begin(2), states, steps);
    states, steps := [s2] + states, [Begin(2)] + steps;
    RunCons(s1, Begin(1), states, steps);
    states, steps := [s1] + states, [Begin(1)] + steps;
    RunCons(s0, Begin(0), states, steps);
    states, steps := [s0] + states, [Begin(0)] + steps;
  }

  /** It goes on to a state where changing a block that is already logged makes log_write stop the machine, though
      the block would be absorbed. */
  lemma FullLogRefusesAbsorption<T>(home: Contents<T>, log: seq<T>) returns (states: seq<State<T>>, steps: seq<Step<T>>)
    requires |log| == LOGBLOCKS && forall i :: 0 <= i < LOGBLOCKS ==> i in home
    ensures Run(states, steps) && Inv(states[0]) && states[0].home == home
    ensures RefusedButAbsorbed(states[|steps|], 0, 0)
  {
    states, steps := FillRun(home, log);
    var full := states[|steps|];
    FullThenModify(full);
    var step := Modify(0, 0, full.cache[0]);
    RunSnoc(states, steps, step, Apply(full, step));
    states, steps := states + [Apply(full, step)], steps + [step];
  }

  lemma EndThree<T>(s: State<T>, s1: State<T>, s2: State<T>, s3: State<T>)
    requires Filled(s, LOGBLOCKS)
    requires s1 == s.(ops := s.ops - {0}) && s2 == s1.(ops := s1.ops - {1})
    requires s3 == s2.(ops := map[], phase := Logging(0))
    ensures Follows(s, End(0), s1) && Follows(s1, End(1), s2) && Follows(s2, End(2), s3)
  {
    assert 1 in s1.ops && 2 in s2.ops;
    assert s2.ops - {2} == map[];
  }

  /** It also goes on to where the three operations have ended and commit starts, with every slot of the log taken. */
  lemma FullLogCommits<T>(home: Contents<T>, log: seq<T>) returns (states: seq<State<T>>, steps: seq<Step<T>>)
    requires |log| == LOGBLOCKS && forall i :: 0 <= i < LOGBLOCKS ==> i in home
    ensures Run(states, steps) && Inv(states[0]) && states[0].home == home
    ensures states[|steps|].phase == Logging(0) && |states[|steps|].lh| == LOGBLOCKS
  {
    states, steps := FillRun(home, log);
    var s := states[|steps|];
    var s1 := s.(ops := s.ops - {0});
    var s2 := s1.(ops := s1.ops - {1});
    var s3 := s2.(ops := map[], phase := Logging(0));
    EndThree(s, s1, s2, s3);
    RunSnoc(states, steps, End(0), s1);
    states, steps := states + [s1], steps + [End(0)];
    RunSnoc(states, steps, End(1), s2);
    states, steps := states + [s2], steps + [End(1)];
    RunSnoc(states, steps, End(2), s3);
    states, steps := states + [s3], steps + [End(2)];
  }
}
