/** What fork promises: every process has memory of its own, and fork copies all of the parent's. */
module EagerMemory {
  // One page as its process sees it; T is what a page holds, fl the permissions other than write.
  datatype Page<T> = Page(data: T, writable: bool, fl: nat)

  type Spaces<T> = seq<map<nat, Page<T>>>

  datatype Event<T> =
    | Nothing
    | Fork(parent: nat, child: nat)
    | Write(p: nat, v: nat, data: T)
    | Add(p: nat, v: nat, page: Page<T>)
    | Remove(p: nat, v: nat)

  function With<X>(m: map<nat, X>, v: nat, x: X): (m': map<nat, X>) {
    m[v := x]
  }

  function Without<X>(m: map<nat, X>, v: nat): (m': map<nat, X>) {
    m - {v}
  }

  ghost predicate Next<T>(a: Spaces<T>, e: Event<T>, a': Spaces<T>) {
    match e
    case Nothing => a' == a
    case Fork(p, c) => p < |a| && c < |a| && p != c && a[c] == map[] && a' == a[c := a[p]]
    case Write(p, v, x) => p < |a| && v in a[p] && a[p][v].writable && a' == a[p := a[p][v := a[p][v].(data := x)]]
    case Add(p, v, page) => p < |a| && v !in a[p] && a' == a[p := With(a[p], v, page)]
    case Remove(p, v) => p < |a| && v in a[p] && a' == a[p := Without(a[p], v)]
  }
}

/** Copy-on-write fork (xv6/kernel/vm.c, trap.c, kalloc.c) as steps of all processes: fork shares
    frames read-only, a store fault gives the process its own copy, and frames are counted. Each
    step is one write of a page-table entry, of a reference count or of a page, so the kernel paths
    of different processes interleave between them. A page table is a map from page number to entry. */
module CowMemory {
  import opened EagerMemory

  datatype Pte = Pte(frame: nat, w: bool, cow: bool, fl: nat)

  type Table = map<nat, Pte>

  /** Where a process is in the kernel. */
  datatype Act =
    | Idle
    | Forking(child: nat)               // in uvmcopy
    | Embryo(parent: nat)               // the table uvmcopy is filling
    | Sharing(parent: nat, v: nat)      // v just mapped in the child, kaddref still to come
    | Discarding(parent: nat, v: nat)   // uvmcopy's error path: v's frame dropped, entry still to clear
    | Taking(v: nat, mem: nat)          // store fault: mem allocated
    | Copied(v: nat, mem: nat)          // store fault: old page copied to mem
    | Dropping(f: nat)                  // store fault: mem installed, old frame f still to drop
    | Zeroing(v: nat, mem: nat)         // vmfault or uvmalloc: mem allocated
    | Unmapping(v: nat)                 // uvmunmap: v's frame dropped, entry still to clear

  datatype State<T> = State(
    page: seq<T>,       // contents of each frame
    refcnt: seq<nat>,   // ref.refcnt
    pte: seq<Table>,    // each process's page table
    act: seq<Act>)

  datatype Step<T> =
    | ForkStart(p: nat, c: nat)
    | ForkMark(p: nat, v: nat)                       // clear PTE_W, set PTE_COW
    | ForkMap(p: nat, v: nat)                        // mappages in the child
    | ForkCount(p: nat)                              // kaddref
    | ForkEnd(p: nat)
    | ForkUndo(p: nat, v: nat, junk: T)              // uvmunmap of a child's page: kfree
    | ForkUndone(p: nat)                             // *pte = 0
    | ForkFail(p: nat)
    | FaultTake(p: nat, v: nat, mem: nat, junk: T)   // kalloc
    | FaultCopy(p: nat)
    | FaultInstall(p: nat)
    | FaultDrop(p: nat, junk: T)                     // kfree
    | Store(p: nat, v: nat, data: T)                 // a store, or copyout's memmove
    | LazyTake(p: nat, v: nat, mem: nat, junk: T)    // kalloc
    | LazyMap(p: nat, zero: T, w: bool, fl: nat)     // memset, mappages
    | LazyFail(p: nat, junk: T)                      // mappages failed: kfree
    | UnmapFree(p: nat, v: nat, junk: T)             // kfree
    | UnmapClear(p: nat)                             // *pte = 0

  predicate Is<T>(s: State<T>, p: nat) {
    p < |s.act| == |s.pte|
  }

  predicate IsFrame<T>(s: State<T>, f: nat) {
    f < |s.refcnt| == |s.page|
  }

  predicate Enabled<T>(s: State<T>, step: Step<T>) {
    match step
    case ForkStart(p, c) => Is(s, p) && Is(s, c) && p != c && s.act[p].Idle? && s.act[c].Idle? && s.pte[c] == map[]
    case ForkMark(p, v) => InFork(s, p) && s.act[s.act[p].child].Embryo? && v in s.pte[p] && s.pte[p][v].w
    case ForkMap(p, v) =>
      InFork(s, p) && s.act[s.act[p].child].Embryo? && v in s.pte[p] && !s.pte[p][v].w && v !in s.pte[s.act[p].child]
    case ForkCount(p) =>
      InFork(s, p) && s.act[s.act[p].child].Sharing? && Maps(s, s.act[p].child, s.act[s.act[p].child].v)
    case ForkEnd(p) =>
      InFork(s, p) && s.act[s.act[p].child].Embryo? && forall v :: v in s.pte[p] ==> v in s.pte[s.act[p].child]
    case ForkUndo(p, v, _) => InFork(s, p) && s.act[s.act[p].child].Embryo? && Droppable(s, s.act[p].child, v)
    case ForkUndone(p) => InFork(s, p) && s.act[s.act[p].child].Discarding?
    case ForkFail(p) => InFork(s, p) && s.act[s.act[p].child].Embryo? && s.pte[s.act[p].child] == map[]
    case FaultTake(p, v, mem, _) =>
      && Is(s, p) && s.act[p].Idle? && v in s.pte[p] && s.pte[p][v].cow && !s.pte[p][v].w
      && IsFrame(s, mem) && s.refcnt[mem] == 0
    case FaultCopy(p) => Is(s, p) && s.act[p].Taking? && IsFrame(s, s.act[p].mem) && Maps(s, p, s.act[p].v)
    case FaultInstall(p) => Is(s, p) && s.act[p].Copied? && Maps(s, p, s.act[p].v)
    case FaultDrop(p, _) => Is(s, p) && s.act[p].Dropping? && IsFrame(s, s.act[p].f) && s.refcnt[s.act[p].f] > 0
    case Store(p, v, _) => Is(s, p) && s.act[p].Idle? && Maps(s, p, v) && s.pte[p][v].w
    case LazyTake(p, v, mem, _) =>
      Is(s, p) && s.act[p].Idle? && v !in s.pte[p] && IsFrame(s, mem) && s.refcnt[mem] == 0
    case LazyMap(p, _, _, _) => Is(s, p) && s.act[p].Zeroing? && IsFrame(s, s.act[p].mem)
    case LazyFail(p, _) => Is(s, p) && s.act[p].Zeroing? && IsFrame(s, s.act[p].mem) && s.refcnt[s.act[p].mem] > 0
    case UnmapFree(p, v, _) => Is(s, p) && s.act[p].Idle? && Droppable(s, p, v)
    case UnmapClear(p) => Is(s, p) && s.act[p].Unmapping?
  }

  /** p is in uvmcopy, filling the table of its child. */
  predicate InFork<T>(s: State<T>, p: nat) {
    Is(s, p) && s.act[p].Forking? && Is(s, s.act[p].child)
  }

  predicate Maps<T>(s: State<T>, p: nat, v: nat) {
    Is(s, p) && v in s.pte[p] && IsFrame(s, s.pte[p][v].frame)
  }

  /** kfree of v's frame does not panic. */
  predicate Droppable<T>(s: State<T>, p: nat, v: nat) {
    Maps(s, p, v) && s.refcnt[s.pte[p][v].frame] > 0
  }

  /** kfree as intended: one reference less, and on the last one the page is filled with junk. */
  function Drop<T>(s: State<T>, f: nat, junk: T): (s': State<T>)
    requires IsFrame(s, f) && s.refcnt[f] > 0
  {
    s.(refcnt := s.refcnt[f := s.refcnt[f] - 1], page := if s.refcnt[f] == 1 then s.page[f := junk] else s.page)
  }

  /** kalloc of a free frame. */
  function Take<T>(s: State<T>, f: nat, junk: T): (s': State<T>)
    requires IsFrame(s, f)
  {
    s.(refcnt := s.refcnt[f := 1], page := s.page[f := junk])
  }

  function SetAct<T>(s: State<T>, p: nat, a: Act): (s': State<T>)
    requires Is(s, p)
  {
    s.(act := s.act[p := a])
  }

  function SetPte<T>(s: State<T>, p: nat, t: Table): (s': State<T>)
    requires Is(s, p)
  {
    s.(pte := s.pte[p := t])
  }

  function Apply<T>(s: State<T>, step: Step<T>): (s': State<T>)
    requires Enabled(s, step)
  {
    match step
    case ForkStart(p, c) => SetAct(SetAct(s, p, Forking(c)), c, Embryo(p))
    case ForkMark(p, v) => SetPte(s, p, s.pte[p][v := s.pte[p][v].(w := false, cow := true)])
    case ForkMap(p, v) =>
      var c := s.act[p].child;
      SetAct(SetPte(s, c, s.pte[c][v := s.pte[p][v]]), c, Sharing(p, v))
    case ForkCount(p) =>
      var c := s.act[p].child;
      var f := s.pte[c][s.act[c].v].frame;
      SetAct(s.(refcnt := s.refcnt[f := s.refcnt[f] + 1]), c, Embryo(p))
    case ForkEnd(p) => SetAct(SetAct(s, s.act[p].child, Idle), p, Idle)
    case ForkUndo(p, v, junk) =>
      var c := s.act[p].child;
      SetAct(Drop(s, s.pte[c][v].frame, junk), c, Discarding(p, v))
    case ForkUndone(p) =>
      var c := s.act[p].child;
      SetAct(SetPte(s, c, Without(s.pte[c], s.act[c].v)), c, Embryo(p))
    case ForkFail(p) => SetAct(SetAct(s, s.act[p].child, Idle), p, Idle)
    case FaultTake(p, v, mem, junk) => SetAct(Take(s, mem, junk), p, Taking(v, mem))
    case FaultCopy(p) =>
      var a := s.act[p];
      SetAct(s.(page := s.page[a.mem := s.page[s.pte[p][a.v].frame]]), p, Copied(a.v, a.mem))
    case FaultInstall(p) =>
      var a := s.act[p];
      SetAct(SetPte(s, p, s.pte[p][a.v := s.pte[p][a.v].(frame := a.mem, w := true, cow := false)]), p,
             Dropping(s.pte[p][a.v].frame))
    case FaultDrop(p, junk) => SetAct(Drop(s, s.act[p].f, junk), p, Idle)
    case Store(p, v, x) => s.(page := s.page[s.pte[p][v].frame := x])
    case LazyTake(p, v, mem, junk) => SetAct(Take(s, mem, junk), p, Zeroing(v, mem))
    case LazyMap(p, zero, w, fl) =>
      var a := s.act[p];
      SetAct(SetPte(s.(page := s.page[a.mem := zero]), p, s.pte[p][a.v := Pte(a.mem, w, false, fl)]), p, Idle)
    case LazyFail(p, junk) => SetAct(Drop(s, s.act[p].mem, junk), p, Idle)
    case UnmapFree(p, v, junk) => SetAct(Drop(s, s.pte[p][v].frame, junk), p, Unmapping(v))
    case UnmapClear(p) => SetAct(SetPte(s, p, Without(s.pte[p], s.act[p].v)), p, Idle)
  }

  // ---------------------------------------------------------------- who counts for a frame

  /** What a reference count counts: page-table entries, and frames a kernel path has in hand. */
  datatype Holder = Entry(p: nat, v: nat) | Hand(p: nat)

  /** Entry v is in the table but not counted: its frame is not yet, or no longer, referenced. */
  predicate Off(a: Act, v: nat) {
    (a.Sharing? || a.Discarding? || a.Unmapping?) && a.v == v
  }

  /** The frame in hand, or -1. */
  function Holding(a: Act): int {
    if a.Taking? || a.Copied? || a.Zeroing? then a.mem else if a.Dropping? then a.f else -1
  }

  predicate Counts(pte: seq<Table>, act: seq<Act>, h: Holder, f: nat) {
    |pte| == |act| &&
    match h
    case Entry(p, v) => p < |pte| && v in pte[p] && pte[p][v].frame == f && !Off(act[p], v)
    case Hand(p) => p < |act| && Holding(act[p]) == f
  }

  ghost function Counted(pte: seq<Table>, act: seq<Act>, f: nat): (hs: set<Holder>)
    ensures forall h :: h in hs <==> Counts(pte, act, h, f)
  {
    (set p, v | 0 <= p < |pte| && v in pte[p] && Counts(pte, act, Entry(p, v), f) :: Entry(p, v))
    + (set p | 0 <= p < |act| && Counts(pte, act, Hand(p), f) :: Hand(p))
  }

  /** Frames that may be written through h. */
  predicate Private(pte: seq<Table>, act: seq<Act>, h: Holder)
    requires |pte| == |act|
  {
    match h
    case Entry(p, v) => p < |pte| && v in pte[p] && pte[p][v].w
    case Hand(p) => p < |act| && !act[p].Dropping?
  }

  // ---------------------------------------------------------------- the invariant

  ghost predicate Inv<T>(s: State<T>) {
    && Shape(s)
    && RefcntExact(s.refcnt, s.pte, s.act)
    && Exclusive(s.pte, s.act)
  }

  ghost predicate Shape<T>(s: State<T>) {
    && |s.pte| == |s.act| && |s.refcnt| == |s.page|
    && InRange(s.pte, |s.page|)
    && (forall p :: 0 <= p < |s.act| ==> ActOk(s.page, s.pte, s.act, p))
  }

  /** Entries name frames, and a copy-on-write one is not writable. */
  ghost predicate InRange(pte: seq<Table>, n: nat) {
    forall p, v :: 0 <= p < |pte| && v in pte[p] ==> pte[p][v].frame < n && !(pte[p][v].w && pte[p][v].cow)
  }

  /** Frame accounting: a count is the number of entries, and of hands, that refer to the frame. */
  ghost predicate RefcntExact(refcnt: seq<nat>, pte: seq<Table>, act: seq<Act>) {
    forall f :: 0 <= f < |refcnt| ==> refcnt[f] == |Counted(pte, act, f)|
  }

  /** Whoever may write a frame is the only one that refers to it. */
  ghost predicate Exclusive(pte: seq<Table>, act: seq<Act>)
    requires |pte| == |act|
  {
    forall h, h', f :: Counts(pte, act, h, f) && Counts(pte, act, h', f) && Private(pte, act, h) ==> h' == h
  }

  /** A child's table under construction: entries of the parent's, none of them writable. */
  predicate PartOf(child: Table, parent: Table) {
    forall v :: v in child ==> v in parent && parent[v] == child[v] && !child[v].w
  }

  predicate ChildOf(pte: seq<Table>, act: seq<Act>, p: nat, parent: nat)
    requires p < |pte| == |act|
  {
    parent < |act| && parent != p && act[parent] == Forking(p) && PartOf(pte[p], pte[parent])
  }

  ghost predicate ActOk<T>(page: seq<T>, pte: seq<Table>, act: seq<Act>, p: nat)
    requires p < |pte| == |act| && InRange(pte, |page|)
  {
    match act[p]
    case Idle => true
    case Forking(c) =>
      && c < |act|
      && (act[c] == Embryo(p) || ((act[c].Sharing? || act[c].Discarding?) && act[c].parent == p))
    case Embryo(q) => ChildOf(pte, act, p, q)
    case Sharing(q, v) => ChildOf(pte, act, p, q) && v in pte[p]
    case Discarding(q, v) => ChildOf(pte, act, p, q) && v in pte[p]
    case Taking(v, mem) => mem < |page| && v in pte[p] && pte[p][v].cow && !pte[p][v].w
    case Copied(v, mem) =>
      mem < |page| && v in pte[p] && pte[p][v].cow && !pte[p][v].w && page[mem] == page[pte[p][v].frame]
    case Dropping(f) => f < |page|
    case Zeroing(v, mem) => mem < |page| && v !in pte[p]
    case Unmapping(v) => v in pte[p]
  }

  // ---------------------------------------------------------------- what a step does to the counts

  function Gained<T>(s: State<T>, step: Step<T>, f: nat): (hs: set<Holder>)
    requires Enabled(s, step)
  {
    match step
    case ForkCount(p) =>
      var c := s.act[p].child;
      if f == s.pte[c][s.act[c].v].frame then {Entry(c, s.act[c].v)} else {}
    case FaultTake(p, _, mem, _) => if f == mem then {Hand(p)} else {}
    case LazyTake(p, _, mem, _) => if f == mem then {Hand(p)} else {}
    case FaultInstall(p) =>
      var a := s.act[p];
      if f == a.mem then {Entry(p, a.v)} else if f == s.pte[p][a.v].frame then {Hand(p)} else {}
    case LazyMap(p, _, _, _) => if f == s.act[p].mem then {Entry(p, s.act[p].v)} else {}
    case _ => {}
  }

  function Lost<T>(s: State<T>, step: Step<T>, f: nat): (hs: set<Holder>)
    requires Enabled(s, step)
  {
    match step
    case ForkUndo(p, v, _) =>
      var c := s.act[p].child;
      if f == s.pte[c][v].frame then {Entry(c, v)} else {}
    case FaultInstall(p) =>
      var a := s.act[p];
      if f == a.mem then {Hand(p)} else if f == s.pte[p][a.v].frame then {Entry(p, a.v)} else {}
    case FaultDrop(p, _) => if f == s.act[p].f then {Hand(p)} else {}
    case LazyMap(p, _, _, _) => if f == s.act[p].mem then {Hand(p)} else {}
    case LazyFail(p, _) => if f == s.act[p].mem then {Hand(p)} else {}
    case UnmapFree(p, v, _) => if f == s.pte[p][v].frame then {Entry(p, v)} else {}
    case _ => {}
  }

  /** Over a step, frame f gains and loses holders as Gained and Lost say. */
  ghost predicate Changed<T>(s: State<T>, step: Step<T>, s': State<T>, h: Holder, f: nat)
    requires Enabled(s, step)
  {
    && (Counts(s'.pte, s'.act, h, f) <==>
         (Counts(s.pte, s.act, h, f) && h !in Lost(s, step, f)) || h in Gained(s, step, f))
    && (h in Lost(s, step, f) ==> Counts(s.pte, s.act, h, f))
    && (h in Gained(s, step, f) ==> !Counts(s.pte, s.act, h, f))
  }

  predicate IsFork<T>(step: Step<T>) {
    || step.ForkStart? || step.ForkMark? || step.ForkMap? || step.ForkCount?
    || step.ForkEnd? || step.ForkUndo? || step.ForkUndone? || step.ForkFail?
  }

  predicate IsLazy<T>(step: Step<T>) {
    step.LazyTake? || step.LazyMap? || step.LazyFail?
  }

  predicate IsFault<T>(step: Step<T>) {
    step.FaultTake? || step.FaultCopy? || step.FaultInstall? || step.FaultDrop?
  }

  lemma UndoChange<T>(s: State<T>, step: Step<T>, s': State<T>, h: Holder, f: nat)
    requires Shape(s) && Enabled(s, step) && s' == Apply(s, step)
    requires (step.ForkUndo? || step.ForkUndone? || step.ForkFail?)
    ensures Changed(s, step, s', h, f)
  {
  }

  lemma ForkChange<T>(s: State<T>, step: Step<T>, s': State<T>, h: Holder, f: nat)
    requires Shape(s) && Enabled(s, step) && s' == Apply(s, step)
    requires IsFork(step) && !step.ForkUndo? && !step.ForkUndone? && !step.ForkFail?
    ensures Changed(s, step, s', h, f)
  {
  }

  lemma FaultChange<T>(s: State<T>, step: Step<T>, s': State<T>, h: Holder, f: nat)
    requires Shape(s) && Enabled(s, step) && s' == Apply(s, step) && IsFault(step)
    requires step.FaultInstall? ==> s.act[step.p].mem != s.pte[step.p][s.act[step.p].v].frame
    ensures Changed(s, step, s', h, f)
  {
  }

  lemma OtherChange<T>(s: State<T>, step: Step<T>, s': State<T>, h: Holder, f: nat)
    requires Shape(s) && Enabled(s, step) && s' == Apply(s, step) && !IsFork(step) && !IsFault(step)
    ensures Changed(s, step, s', h, f)
  {
    assert ActOk(s.page, s.pte, s.act, step.p);
  }

  lemma CountAfter(pte: seq<Table>, act: seq<Act>, pte': seq<Table>, act': seq<Act>, f: nat, lost: set<Holder>,
                   gained: set<Holder>)
    requires forall h :: Counts(pte', act', h, f) <==> (Counts(pte, act, h, f) && h !in lost) || h in gained
    requires forall h :: h in lost ==> Counts(pte, act, h, f)
    requires forall h :: h in gained ==> !Counts(pte, act, h, f)
    ensures |Counted(pte', act', f)| == |Counted(pte, act, f)| - |lost| + |gained|
  {
    var before := Counted(pte, act, f);
    assert Counted(pte', act', f) == (before - lost) + gained;
    assert before == (before - lost) + lost;
  }

  lemma RefcntAfter<T>(s: State<T>, step: Step<T>, s': State<T>, f: nat)
    requires Shape(s) && Enabled(s, step) && s' == Apply(s, step) && f < |s.refcnt|
    ensures |s'.refcnt| == |s.refcnt| && s'.refcnt[f] == s.refcnt[f] - |Lost(s, step, f)| + |Gained(s, step, f)|
  {
  }

  lemma StepChange<T>(s: State<T>, step: Step<T>, s': State<T>, h: Holder, f: nat)
    requires Inv(s) && Enabled(s, step) && s' == Apply(s, step)
    ensures Changed(s, step, s', h, f)
  {
    if step.ForkUndo? || step.ForkUndone? || step.ForkFail? {
      UndoChange(s, step, s', h, f);
    } else if IsFork(step) {
      ForkChange(s, step, s', h, f);
    } else if IsFault(step) {
      if step.FaultInstall? {
        CopyElsewhere(s, step.p);
      }
      FaultChange(s, step, s', h, f);
    } else {
      OtherChange(s, step, s', h, f);
    }
  }

  /** A store fault's copy is not in the frame it was copied from. */
  lemma CopyElsewhere<T>(s: State<T>, p: nat)
    requires Inv(s) && p < |s.act| && s.act[p].Copied?
    ensures s.act[p].v in s.pte[p] && s.act[p].mem != s.pte[p][s.act[p].v].frame
  {
    assert ActOk(s.page, s.pte, s.act, p);
    assert Counts(s.pte, s.act, Hand(p), s.act[p].mem);
    assert Counts(s.pte, s.act, Entry(p, s.act[p].v), s.pte[p][s.act[p].v].frame);
  }

  lemma StepRefcntAt<T>(s: State<T>, step: Step<T>, s': State<T>, f: nat)
    requires Inv(s) && Enabled(s, step) && s' == Apply(s, step) && f < |s.refcnt|
    ensures |s'.refcnt| == |s.refcnt| && s'.refcnt[f] == |Counted(s'.pte, s'.act, f)|
  {
    forall h ensures Changed(s, step, s', h, f) { StepChange(s, step, s', h, f); }
    CountsAfter(s, step, s', f);
    RefcntAfter(s, step, s', f);
  }

  lemma CountsAfter<T>(s: State<T>, step: Step<T>, s': State<T>, f: nat)
    requires Enabled(s, step) && forall h :: Changed(s, step, s', h, f)
    ensures |Counted(s'.pte, s'.act, f)| == |Counted(s.pte, s.act, f)| - |Lost(s, step, f)| + |Gained(s, step, f)|
  {
    var lost, gained := Lost(s, step, f), Gained(s, step, f);
    forall h
      ensures Counts(s'.pte, s'.act, h, f) <==> (Counts(s.pte, s.act, h, f) && h !in lost) || h in gained
      ensures h in lost ==> Counts(s.pte, s.act, h, f)
      ensures h in gained ==> !Counts(s.pte, s.act, h, f)
    {
      assert Changed(s, step, s', h, f);
    }
    CountAfter(s.pte, s.act, s'.pte, s'.act, f, lost, gained);
  }

  lemma StepRefcnt<T>(s: State<T>, step: Step<T>, s': State<T>)
    requires Inv(s) && Enabled(s, step) && s' == Apply(s, step)
    ensures RefcntExact(s'.refcnt, s'.pte, s'.act)
  {
    forall f | 0 <= f < |s.refcnt| ensures |s'.refcnt| == |s.refcnt| && s'.refcnt[f] == |Counted(s'.pte, s'.act, f)| {
      StepRefcntAt(s, step, s', f);
    }
  }

  lemma ForkKeepsPrivate<T>(s: State<T>, step: Step<T>, s': State<T>, h: Holder, f: nat)
    requires Shape(s) && Enabled(s, step) && s' == Apply(s, step) && IsFork(step)
    requires Counts(s.pte, s.act, h, f) && Counts(s'.pte, s'.act, h, f) && h !in Gained(s, step, f)
    requires Private(s'.pte, s'.act, h)
    ensures Private(s.pte, s.act, h)
  {
  }

  lemma FaultKeepsPrivate<T>(s: State<T>, step: Step<T>, s': State<T>, h: Holder, f: nat)
    requires Shape(s) && Enabled(s, step) && s' == Apply(s, step) && IsFault(step)
    requires Counts(s.pte, s.act, h, f) && Counts(s'.pte, s'.act, h, f) && h !in Gained(s, step, f)
    requires Private(s'.pte, s'.act, h)
    ensures Private(s.pte, s.act, h)
  {
  }

  lemma OtherKeepsPrivate<T>(s: State<T>, step: Step<T>, s': State<T>, h: Holder, f: nat)
    requires Shape(s) && Enabled(s, step) && s' == Apply(s, step) && !IsFork(step) && !IsFault(step)
    requires Counts(s.pte, s.act, h, f) && Counts(s'.pte, s'.act, h, f) && h !in Gained(s, step, f)
    requires Private(s'.pte, s'.act, h)
    ensures Private(s.pte, s.act, h)
  {
  }

  lemma KeepsPrivate<T>(s: State<T>, step: Step<T>, s': State<T>, h: Holder, f: nat)
    requires Shape(s) && Enabled(s, step) && s' == Apply(s, step)
    requires Counts(s.pte, s.act, h, f) && Counts(s'.pte, s'.act, h, f) && h !in Gained(s, step, f)
    requires Private(s'.pte, s'.act, h)
    ensures Private(s.pte, s.act, h)
  {
    if IsFork(step) {
      ForkKeepsPrivate(s, step, s', h, f);
    } else if IsFault(step) {
      FaultKeepsPrivate(s, step, s', h, f);
    } else {
      OtherKeepsPrivate(s, step, s', h, f);
    }
  }

  /** A free frame has no holder. */
  lemma FreeUnheld<T>(s: State<T>, h: Holder, f: nat)
    requires Inv(s) && f < |s.refcnt| && s.refcnt[f] == 0
    ensures !Counts(s.pte, s.act, h, f)
  {
    assert h in Counted(s.pte, s.act, f) <==> Counts(s.pte, s.act, h, f);
  }

  /** A frame with a holder that may not write it has none that may. */
  lemma SharedNotPrivate<T>(s: State<T>, h: Holder, h': Holder, f: nat)
    requires Inv(s) && Counts(s.pte, s.act, h, f) && Counts(s.pte, s.act, h', f) && !Private(s.pte, s.act, h)
    ensures !Private(s.pte, s.act, h')
  {
  }

  /** A frame in hand to be filled has no other holder. */
  lemma HeldAlone<T>(s: State<T>, p: nat, h: Holder, f: nat)
    requires Inv(s) && p < |s.act| && Holding(s.act[p]) == f && !s.act[p].Dropping? && Counts(s.pte, s.act, h, f)
    ensures h == Hand(p)
  {
    assert Counts(s.pte, s.act, Hand(p), f);
  }

  lemma CountedShared<T>(s: State<T>, p: nat, h: Holder, f: nat)
    requires Inv(s) && Enabled(s, ForkCount(p)) && Gained(s, ForkCount(p), f) != {} && Counts(s.pte, s.act, h, f)
    ensures !Private(s.pte, s.act, h)
  {
    var c := s.act[p].child;
    assert ActOk(s.page, s.pte, s.act, p);
    assert ActOk(s.page, s.pte, s.act, c);
    SharedNotPrivate(s, Entry(p, s.act[c].v), h, f);
  }

  lemma InstalledShared<T>(s: State<T>, p: nat, h: Holder, f: nat)
    requires Inv(s) && Enabled(s, FaultInstall(p)) && Gained(s, FaultInstall(p), f) != {}
    requires Counts(s.pte, s.act, h, f) && h !in Lost(s, FaultInstall(p), f)
    ensures f == s.pte[p][s.act[p].v].frame != s.act[p].mem && !Private(s.pte, s.act, h)
  {
    CopyElsewhere(s, p);
    if f == s.act[p].mem {
      HeldAlone(s, p, h, f);
    } else {
      assert ActOk(s.page, s.pte, s.act, p);
      SharedNotPrivate(s, Entry(p, s.act[p].v), h, f);
    }
  }

  /** A frame gains a holder beside others only as a shared one. */
  lemma GainedShared<T>(s: State<T>, step: Step<T>, s': State<T>, g: Holder, h: Holder, f: nat)
    requires Inv(s) && Enabled(s, step) && s' == Apply(s, step) && f < |s.refcnt|
    requires g in Gained(s, step, f) && Counts(s.pte, s.act, h, f) && h !in Lost(s, step, f)
    ensures |s'.pte| == |s'.act| && !Private(s'.pte, s'.act, g) && !Private(s.pte, s.act, h)
  {
    match step
    case ForkCount(p) => CountedShared(s, p, h, f); assert ActOk(s.page, s.pte, s.act, s.act[p].child);
    case FaultInstall(p) => InstalledShared(s, p, h, f);
    case LazyMap(p, _, _, _) => HeldAlone(s, p, h, f);
    case FaultTake(_, _, _, _) => FreeUnheld(s, h, f);
    case LazyTake(_, _, _, _) => FreeUnheld(s, h, f);
  }

  lemma StepExclusiveAt<T>(s: State<T>, step: Step<T>, s': State<T>, h: Holder, h': Holder, f: nat)
    requires Inv(s) && Enabled(s, step) && s' == Apply(s, step) && |s'.pte| == |s'.act| && f < |s.refcnt|
    requires Counts(s'.pte, s'.act, h, f) && Counts(s'.pte, s'.act, h', f) && Private(s'.pte, s'.act, h)
    ensures h' == h
  {
    StepChange(s, step, s', h, f);
    StepChange(s, step, s', h', f);
    if h in Gained(s, step, f) {
      if h' !in Gained(s, step, f) {
        GainedShared(s, step, s', h, h', f);
      }
    } else {
      KeepsPrivate(s, step, s', h, f);
      if h' in Gained(s, step, f) {
        GainedShared(s, step, s', h', h, f);
      }
    }
  }

  lemma StepExclusive<T>(s: State<T>, step: Step<T>, s': State<T>)
    requires Inv(s) && Enabled(s, step) && s' == Apply(s, step) && Shape(s')
    ensures Exclusive(s'.pte, s'.act)
  {
    forall h, h', f | Counts(s'.pte, s'.act, h, f) && Counts(s'.pte, s'.act, h', f) && Private(s'.pte, s'.act, h)
      ensures h' == h
    {
      CountsInRange(s', h, f);
      RefcntAfter(s, step, s', f);
      StepExclusiveAt(s, step, s', h, h', f);
    }
  }

  lemma CountsInRange<T>(s: State<T>, h: Holder, f: nat)
    requires Shape(s) && Counts(s.pte, s.act, h, f)
    ensures f < |s.refcnt|
  {
    assert ActOk(s.page, s.pte, s.act, h.p);
  }

  // ---------------------------------------------------------------- what a step does to the pages

  /** The frame whose page a step overwrites, or -1. */
  function Overwritten<T>(s: State<T>, step: Step<T>): (f: int)
    requires Enabled(s, step)
  {
    match step
    case ForkUndo(p, v, _) => LastDrop(s, s.pte[s.act[p].child][v].frame)
    case FaultTake(_, _, mem, _) => mem
    case FaultCopy(p) => s.act[p].mem
    case FaultDrop(p, _) => LastDrop(s, s.act[p].f)
    case Store(p, v, _) => s.pte[p][v].frame
    case LazyTake(_, _, mem, _) => mem
    case LazyMap(p, _, _, _) => s.act[p].mem
    case LazyFail(p, _) => LastDrop(s, s.act[p].mem)
    case UnmapFree(p, v, _) => LastDrop(s, s.pte[p][v].frame)
    case _ => -1
  }

  function LastDrop<T>(s: State<T>, f: nat): int
    requires IsFrame(s, f)
  {
    if s.refcnt[f] == 1 then f else -1
  }

  /** Through which holder. */
  function Writer<T>(s: State<T>, step: Step<T>): (h: Holder)
    requires Enabled(s, step)
  {
    match step
    case ForkUndo(p, v, _) => Entry(s.act[p].child, v)
    case Store(p, v, _) => Entry(p, v)
    case UnmapFree(p, v, _) => Entry(p, v)
    case _ => Hand(step.p)
  }

  lemma PageAfter<T>(s: State<T>, step: Step<T>, s': State<T>)
    requires Shape(s) && Enabled(s, step) && s' == Apply(s, step)
    ensures |s'.page| == |s.page| && |s'.refcnt| == |s.refcnt| && |s'.act| == |s.act| == |s'.pte|
    ensures forall f :: 0 <= f < |s.page| && f != Overwritten(s, step) ==> s'.page[f] == s.page[f]
  {
  }

  lemma OnlyHolder<T>(s: State<T>, h: Holder, h': Holder, f: nat)
    requires Inv(s) && f < |s.refcnt| && s.refcnt[f] == 1 && Counts(s.pte, s.act, h, f) && Counts(s.pte, s.act, h', f)
    ensures h' == h
  {
    var hs := Counted(s.pte, s.act, f);
    assert h in hs && h' in hs;
    assert |hs - {h}| == 0;
  }

  lemma LastDropAlone<T>(s: State<T>, step: Step<T>, f: nat, h: Holder)
    requires Inv(s) && Enabled(s, step) && f == Overwritten(s, step)
    requires step.ForkUndo? || step.UnmapFree? || step.FaultDrop?
    requires Counts(s.pte, s.act, h, f)
    ensures h == Writer(s, step)
  {
    OnlyHolder(s, Writer(s, step), h, f);
  }

  lemma StoreAlone<T>(s: State<T>, p: nat, v: nat, x: T, h: Holder)
    requires Inv(s) && Enabled(s, Store(p, v, x)) && Counts(s.pte, s.act, h, s.pte[p][v].frame)
    ensures h == Entry(p, v)
  {
    assert Counts(s.pte, s.act, Entry(p, v), s.pte[p][v].frame);
  }

  /** No one else refers to the frame a step overwrites. */
  lemma OverwrittenAlone<T>(s: State<T>, step: Step<T>, f: nat, h: Holder)
    requires Inv(s) && Enabled(s, step) && f == Overwritten(s, step) && f < |s.page|
    requires Counts(s.pte, s.act, h, f)
    ensures h == Writer(s, step)
  {
    if step.FaultTake? || step.LazyTake? {
      FreeUnheld(s, h, f);
    } else if step.FaultCopy? || step.LazyMap? || step.LazyFail? {
      HeldAlone(s, step.p, h, f);
    } else if step.Store? {
      StoreAlone(s, step.p, step.v, step.data, h);
    } else {
      LastDropAlone(s, step, f, h);
    }
  }

  lemma StepInRange<T>(s: State<T>, step: Step<T>, s': State<T>)
    requires Shape(s) && Enabled(s, step) && s' == Apply(s, step)
    ensures |s'.page| == |s.page| && InRange(s'.pte, |s'.page|)
  {
    assert ActOk(s.page, s.pte, s.act, step.p);
  }

  ghost predicate CopyGood<T>(page: seq<T>, t: Table, a: Act)
    requires a.Copied?
  {
    a.mem < |page| && a.v in t && t[a.v].frame < |page| && page[a.mem] == page[t[a.v].frame]
  }

  /** A copy made by a store fault stays good until it is installed. */
  lemma CopyStays<T>(s: State<T>, step: Step<T>, s': State<T>, q: nat)
    requires Inv(s) && Enabled(s, step) && s' == Apply(s, step) && q < |s.act| && s.act[q].Copied?
    requires !(step.FaultInstall? && step.p == q)
    ensures CopyGood(s'.page, s.pte[q], s.act[q])
  {
    var v, mem := s.act[q].v, s.act[q].mem;
    assert ActOk(s.page, s.pte, s.act, q);
    var f, o := s.pte[q][v].frame, Overwritten(s, step);
    assert Counts(s.pte, s.act, Hand(q), mem) && Counts(s.pte, s.act, Entry(q, v), f);
    PageAfter(s, step, s');
    if o == mem {
      OverwrittenAlone(s, step, mem, Hand(q));
    }
    if o == f {
      OverwrittenAlone(s, step, f, Entry(q, v));
    }
  }

  /** Its error path. */
  lemma UndoActOk<T>(s: State<T>, step: Step<T>, s': State<T>, q: nat)
    requires Shape(s) && Enabled(s, step) && s' == Apply(s, step) && (step.ForkUndo? || step.ForkUndone?)
    requires q < |s.act| == |s'.act| == |s'.pte| && InRange(s'.pte, |s'.page|)
    requires s.act[q].Copied? ==> CopyGood(s'.page, s.pte[q], s.act[q])
    ensures ActOk(s'.page, s'.pte, s'.act, q)
  {
    assert ActOk(s.page, s.pte, s.act, q);
    assert ActOk(s.page, s.pte, s.act, step.p);
    assert ActOk(s.page, s.pte, s.act, s.act[step.p].child);
  }

  /** Steps of uvmcopy's loop. */
  lemma FillActOk<T>(s: State<T>, step: Step<T>, s': State<T>, q: nat)
    requires Shape(s) && Enabled(s, step) && s' == Apply(s, step)
    requires step.ForkMark? || step.ForkMap? || step.ForkCount?
    requires q < |s.act| == |s'.act| == |s'.pte| && InRange(s'.pte, |s'.page|)
    requires s.act[q].Copied? ==> CopyGood(s'.page, s.pte[q], s.act[q])
    ensures ActOk(s'.page, s'.pte, s'.act, q)
  {
    assert ActOk(s.page, s.pte, s.act, q);
    assert ActOk(s.page, s.pte, s.act, step.p);
    assert ActOk(s.page, s.pte, s.act, s.act[step.p].child);
  }

  /** uvmcopy starts, or returns. */
  lemma ForkActOk<T>(s: State<T>, step: Step<T>, s': State<T>, q: nat)
    requires Shape(s) && Enabled(s, step) && s' == Apply(s, step)
    requires step.ForkStart? || step.ForkEnd? || step.ForkFail?
    requires q < |s.act| == |s'.act| == |s'.pte| && InRange(s'.pte, |s'.page|)
    requires s.act[q].Copied? ==> CopyGood(s'.page, s.pte[q], s.act[q])
    ensures ActOk(s'.page, s'.pte, s'.act, q)
  {
    assert ActOk(s.page, s.pte, s.act, q);
    assert ActOk(s.page, s.pte, s.act, step.p);
  }

  /** A store fault. */
  lemma FaultActOk<T>(s: State<T>, step: Step<T>, s': State<T>, q: nat)
    requires Shape(s) && Enabled(s, step) && s' == Apply(s, step) && IsFault(step)
    requires q < |s.act| == |s'.act| == |s'.pte| && InRange(s'.pte, |s'.page|)
    requires s.act[q].Copied? && !(step.FaultInstall? && step.p == q) ==> CopyGood(s'.page, s.pte[q], s.act[q])
    ensures ActOk(s'.page, s'.pte, s'.act, q)
  {
    assert ActOk(s.page, s.pte, s.act, q);
    assert ActOk(s.page, s.pte, s.act, step.p);
  }

  /** A page that is mapped lazily. */
  lemma LazyActOk<T>(s: State<T>, step: Step<T>, s': State<T>, q: nat)
    requires Shape(s) && Enabled(s, step) && s' == Apply(s, step) && IsLazy(step)
    requires q < |s.act| == |s'.act| == |s'.pte| && InRange(s'.pte, |s'.page|)
    requires s.act[q].Copied? ==> CopyGood(s'.page, s.pte[q], s.act[q])
    ensures ActOk(s'.page, s'.pte, s'.act, q)
  {
    assert ActOk(s.page, s.pte, s.act, q);
    assert ActOk(s.page, s.pte, s.act, step.p);
  }

  lemma OtherActOk<T>(s: State<T>, step: Step<T>, s': State<T>, q: nat)
    requires Shape(s) && Enabled(s, step) && s' == Apply(s, step)
    requires !IsFork(step) && !IsFault(step) && !IsLazy(step)
    requires q < |s.act| == |s'.act| == |s'.pte| && InRange(s'.pte, |s'.page|)
    requires s.act[q].Copied? ==> CopyGood(s'.page, s.pte[q], s.act[q])
    ensures ActOk(s'.page, s'.pte, s'.act, q)
  {
    assert ActOk(s.page, s.pte, s.act, q);
    assert ActOk(s.page, s.pte, s.act, step.p);
  }

  lemma StepShape<T>(s: State<T>, step: Step<T>, s': State<T>)
    requires Inv(s) && Enabled(s, step) && s' == Apply(s, step)
    ensures Shape(s')
  {
    PageAfter(s, step, s');
    StepInRange(s, step, s');
    forall q | 0 <= q < |s'.act| ensures ActOk(s'.page, s'.pte, s'.act, q) {
      if s.act[q].Copied? && !(step.FaultInstall? && step.p == q) {
        CopyStays(s, step, s', q);
      }
      if step.ForkStart? || step.ForkEnd? || step.ForkFail? {
        ForkActOk(s, step, s', q);
      } else if step.ForkUndo? || step.ForkUndone? {
        UndoActOk(s, step, s', q);
      } else if IsFork(step) {
        FillActOk(s, step, s', q);
      } else if IsFault(step) {
        FaultActOk(s, step, s', q);
      } else if IsLazy(step) {
        LazyActOk(s, step, s', q);
      } else {
        OtherActOk(s, step, s', q);
      }
    }
  }

  /** Every step keeps the invariant. */
  lemma StepKeepsInv<T>(s: State<T>, step: Step<T>, s': State<T>)
    requires Inv(s) && Enabled(s, step) && s' == Apply(s, step)
    ensures Inv(s')
  {
    StepShape(s, step, s');
    StepRefcnt(s, step, s');
    StepExclusive(s, step, s');
  }

  // ---------------------------------------------------------------- refinement of eager fork

  predicate Embryonic(a: Act) {
    a.Embryo? || a.Sharing? || a.Discarding?
  }

  /** Entry v of a process is memory it has: the process exists, and v is not being unmapped. */
  predicate Visible(t: Table, a: Act, v: nat) {
    v in t && !Embryonic(a) && !Off(a, v)
  }

  /** A page as its process sees it; a copy-on-write page is writable. */
  function Seen<T>(page: seq<T>, e: Pte): (x: Page<T>)
    requires e.frame < |page|
  {
    Page(page[e.frame], e.w || e.cow, e.fl)
  }

  ghost function View<T>(page: seq<T>, t: Table, a: Act): (m: map<nat, Page<T>>)
    requires forall v :: v in t ==> t[v].frame < |page|
  {
    map v | v in t && Visible(t, a, v) :: Seen(page, t[v])
  }

  ghost function Abs<T>(s: State<T>): (a: Spaces<T>)
    requires Shape(s)
  {
    seq(|s.pte|, p requires 0 <= p < |s.pte| => View(s.page, s.pte[p], s.act[p]))
  }

  function EventOf<T>(s: State<T>, step: Step<T>): (e: Event<T>)
    requires Enabled(s, step)
  {
    match step
    case ForkEnd(p) => Fork(p, s.act[p].child)
    case Store(p, v, x) => Write(p, v, x)
    case LazyMap(p, zero, w, fl) => Add(p, s.act[p].v, Page(zero, w, fl))
    case UnmapFree(p, v, _) => Remove(p, v)
    case _ => Nothing
  }

  /** A page a process has keeps its contents over every step that does not write through its entry. */
  lemma VisibleStays<T>(s: State<T>, step: Step<T>, s': State<T>, q: nat, v: nat)
    requires Inv(s) && Enabled(s, step) && s' == Apply(s, step) && |s'.page| == |s.page|
    requires q < |s.pte| && Visible(s.pte[q], s.act[q], v) && Writer(s, step) != Entry(q, v)
    ensures s'.page[s.pte[q][v].frame] == s.page[s.pte[q][v].frame]
  {
    PageAfter(s, step, s');
    var f := s.pte[q][v].frame;
    if Overwritten(s, step) == f {
      OverwrittenAlone(s, step, f, Entry(q, v));
    }
  }

  /** Whose memory a step changes, in the eyes of its owner. */
  ghost predicate Touches<T>(s: State<T>, step: Step<T>, q: nat)
    requires Enabled(s, step)
  {
    match EventOf(s, step)
    case Nothing => false
    case Fork(_, c) => q == c
    case Write(p, _, _) => q == p
    case Add(p, _, _) => q == p
    case Remove(p, _) => q == p
  }

  lemma EntryStays<T>(s: State<T>, step: Step<T>, s': State<T>, q: nat, v: nat)
    requires Shape(s) && Enabled(s, step) && s' == Apply(s, step) && |s'.pte| == |s'.act| == |s.pte|
    requires |s'.page| == |s.page|
    requires q < |s.pte| && !Touches(s, step, q)
    ensures Visible(s'.pte[q], s'.act[q], v) <==> Visible(s.pte[q], s.act[q], v)
    ensures Visible(s.pte[q], s.act[q], v) ==> Writer(s, step) != Entry(q, v)
    ensures Visible(s.pte[q], s.act[q], v) && !(step.FaultInstall? && step.p == q) ==>
      && s'.pte[q][v].frame == s.pte[q][v].frame && s'.pte[q][v].fl == s.pte[q][v].fl
      && (s'.pte[q][v].w || s'.pte[q][v].cow) == (s.pte[q][v].w || s.pte[q][v].cow)
  {
    assert ActOk(s.page, s.pte, s.act, step.p);
  }

  lemma InstallSeen<T>(s: State<T>, p: nat, s': State<T>, v: nat)
    requires Inv(s) && Enabled(s, FaultInstall(p)) && s' == Apply(s, FaultInstall(p)) && Shape(s')
    requires Visible(s.pte[p], s.act[p], v)
    ensures v in s'.pte[p] && Seen(s'.page, s'.pte[p][v]) == Seen(s.page, s.pte[p][v])
  {
    assert ActOk(s.page, s.pte, s.act, p);
  }

  lemma SeenStays<T>(s: State<T>, step: Step<T>, s': State<T>, q: nat, v: nat)
    requires Inv(s) && Enabled(s, step) && s' == Apply(s, step) && Shape(s') && |s'.pte| == |s.pte|
    requires |s'.page| == |s.page|
    requires q < |s.pte| && !Touches(s, step, q) && Visible(s.pte[q], s.act[q], v)
    ensures v in s'.pte[q] && Seen(s'.page, s'.pte[q][v]) == Seen(s.page, s.pte[q][v])
  {
    EntryStays(s, step, s', q, v);
    if step.FaultInstall? && step.p == q {
      InstallSeen(s, q, s', v);
    } else {
      VisibleStays(s, step, s', q, v);
    }
  }

  lemma ViewStays<T>(s: State<T>, step: Step<T>, s': State<T>, q: nat)
    requires Inv(s) && Enabled(s, step) && s' == Apply(s, step) && Shape(s') && |s'.pte| == |s.pte|
    requires |s'.page| == |s.page|
    requires q < |s.pte| && !Touches(s, step, q)
    ensures View(s'.page, s'.pte[q], s'.act[q]) == View(s.page, s.pte[q], s.act[q])
  {
    forall v: nat
      ensures Visible(s'.pte[q], s'.act[q], v) <==> Visible(s.pte[q], s.act[q], v)
      ensures Visible(s.pte[q], s.act[q], v) ==> Seen(s'.page, s'.pte[q][v]) == Seen(s.page, s.pte[q][v])
    {
      EntryStays(s, step, s', q, v);
      if Visible(s.pte[q], s.act[q], v) {
        SeenStays(s, step, s', q, v);
      }
    }
    SameView(s.page, s.pte[q], s.act[q], s'.page, s'.pte[q], s'.act[q]);
  }

  lemma SameView<T>(page: seq<T>, t: Table, a: Act, page': seq<T>, t': Table, a': Act)
    requires forall v :: v in t ==> t[v].frame < |page|
    requires forall v :: v in t' ==> t'[v].frame < |page'|
    requires forall v: nat {:trigger Visible(t, a, v)} {:trigger Visible(t', a', v)} ::
      && (Visible(t', a', v) <==> Visible(t, a, v))
      && (Visible(t, a, v) ==> Seen(page', t'[v]) == Seen(page, t[v]))
    ensures View(page', t', a') == View(page, t, a)
  {
  }

  lemma ForkEndView<T>(s: State<T>, p: nat, s': State<T>)
    requires Inv(s) && Enabled(s, ForkEnd(p)) && s' == Apply(s, ForkEnd(p)) && Shape(s')
    ensures var c := s.act[p].child;
            && c != p && View(s.page, s.pte[c], s.act[c]) == map[]
            && View(s'.page, s'.pte[c], s'.act[c]) == View(s.page, s.pte[p], s.act[p])
  {
    var c := s.act[p].child;
    assert ActOk(s.page, s.pte, s.act, p);
    assert ActOk(s.page, s.pte, s.act, c);
    assert s.pte[c] == s.pte[p];
  }

  lemma StoreView<T>(s: State<T>, p: nat, v: nat, x: T, s': State<T>)
    requires Inv(s) && Enabled(s, Store(p, v, x)) && s' == Apply(s, Store(p, v, x)) && Shape(s')
    ensures var m := View(s.page, s.pte[p], s.act[p]);
            && v in m && m[v].writable
            && View(s'.page, s'.pte[p], s'.act[p]) == m[v := m[v].(data := x)]
  {
    forall u | u in s.pte[p] && u != v ensures s'.page[s.pte[p][u].frame] == s.page[s.pte[p][u].frame] {
      VisibleStays(s, Store(p, v, x), s', p, u);
    }
  }

  lemma ViewWith<T>(page: seq<T>, t: Table, a: Act, page': seq<T>, v: nat, e: Pte)
    requires |page'| == |page| && e.frame < |page| && !Embryonic(a) && v !in t
    requires forall u :: u in t ==> t[u].frame < |page| && !Off(a, u) && page'[t[u].frame] == page[t[u].frame]
    ensures v !in View(page, t, a)
    ensures View(page', t[v := e], Idle) == With(View(page, t, a), v, Seen(page', e))
  {
  }

  lemma ViewWithout<T>(page: seq<T>, t: Table, page': seq<T>, v: nat)
    requires |page'| == |page| && v in t
    requires forall u :: u in t ==> t[u].frame < |page| && (u != v ==> page'[t[u].frame] == page[t[u].frame])
    ensures v in View(page, t, Idle)
    ensures View(page', t, Unmapping(v)) == Without(View(page, t, Idle), v)
  {
  }

  lemma AddView<T>(s: State<T>, p: nat, zero: T, w: bool, fl: nat, s': State<T>)
    requires Inv(s) && Enabled(s, LazyMap(p, zero, w, fl)) && s' == Apply(s, LazyMap(p, zero, w, fl)) && Shape(s')
    ensures var m, v := View(s.page, s.pte[p], s.act[p]), s.act[p].v;
            && v !in m
            && View(s'.page, s'.pte[p], s'.act[p]) == With(m, v, Page(zero, w, fl))
  {
    assert ActOk(s.page, s.pte, s.act, p);
    forall u | u in s.pte[p] ensures s'.page[s.pte[p][u].frame] == s.page[s.pte[p][u].frame] {
      VisibleStays(s, LazyMap(p, zero, w, fl), s', p, u);
    }
    ViewWith(s.page, s.pte[p], s.act[p], s'.page, s.act[p].v, Pte(s.act[p].mem, w, false, fl));
  }

  lemma RemoveView<T>(s: State<T>, p: nat, v: nat, junk: T, s': State<T>)
    requires Inv(s) && Enabled(s, UnmapFree(p, v, junk)) && s' == Apply(s, UnmapFree(p, v, junk)) && Shape(s')
    ensures var m := View(s.page, s.pte[p], s.act[p]);
            && v in m
            && View(s'.page, s'.pte[p], s'.act[p]) == Without(m, v)
  {
    forall u | u in s.pte[p] && u != v ensures s'.page[s.pte[p][u].frame] == s.page[s.pte[p][u].frame] {
      VisibleStays(s, UnmapFree(p, v, junk), s', p, u);
    }
    ViewWithout(s.page, s.pte[p], s'.page, v);
  }

  lemma AbsUpdate<T>(s: State<T>, s': State<T>, p: nat, m: map<nat, Page<T>>)
    requires Shape(s) && Shape(s') && |s'.pte| == |s.pte| && p < |s.pte|
    requires forall q :: 0 <= q < |s.pte| && q != p ==>
      View(s'.page, s'.pte[q], s'.act[q]) == View(s.page, s.pte[q], s.act[q])
    requires View(s'.page, s'.pte[p], s'.act[p]) == m
    ensures Abs(s') == Abs(s)[p := m]
  {
  }

  lemma OthersStay<T>(s: State<T>, step: Step<T>, s': State<T>)
    requires Inv(s) && Enabled(s, step) && s' == Apply(s, step) && Shape(s')
    ensures |s'.pte| == |s.pte|
    ensures forall q :: 0 <= q < |s.pte| && !Touches(s, step, q) ==>
      View(s'.page, s'.pte[q], s'.act[q]) == View(s.page, s.pte[q], s.act[q])
  {
    PageAfter(s, step, s');
    forall q | 0 <= q < |s.pte| && !Touches(s, step, q)
      ensures View(s'.page, s'.pte[q], s'.act[q]) == View(s.page, s.pte[q], s.act[q])
    {
      ViewStays(s, step, s', q);
    }
  }

  lemma TouchedRefines<T>(s: State<T>, step: Step<T>, s': State<T>)
    requires Inv(s) && Enabled(s, step) && s' == Apply(s, step) && Shape(s') && |s'.pte| == |s.pte|
    requires forall q :: 0 <= q < |s.pte| && !Touches(s, step, q) ==>
      View(s'.page, s'.pte[q], s'.act[q]) == View(s.page, s.pte[q], s.act[q])
    requires step.ForkEnd? || step.Store? || step.LazyMap? || step.UnmapFree?
    ensures Next(Abs(s), EventOf(s, step), Abs(s'))
  {
    var q := if step.ForkEnd? then s.act[step.p].child else step.p;
    match step {
      case ForkEnd(p) => ForkEndView(s, p, s');
      case Store(p, v, x) => StoreView(s, p, v, x, s');
      case LazyMap(p, zero, w, fl) => AddView(s, p, zero, w, fl, s');
      case UnmapFree(p, v, junk) => RemoveView(s, p, v, junk, s');
    }
    AbsUpdate(s, s', q, View(s'.page, s'.pte[q], s'.act[q]));
  }

  lemma QuietRefines<T>(s: State<T>, step: Step<T>, s': State<T>)
    requires Shape(s) && Enabled(s, step) && Shape(s') && |s'.pte| == |s.pte| && EventOf(s, step).Nothing?
    requires forall q :: 0 <= q < |s.pte| && !Touches(s, step, q) ==>
      View(s'.page, s'.pte[q], s'.act[q]) == View(s.page, s.pte[q], s.act[q])
    ensures Next(Abs(s), EventOf(s, step), Abs(s'))
  {
    assert Abs(s') == Abs(s);
  }

  /** Each step does to what processes see what eager fork would do: nothing, for all but four. */
  lemma StepRefines<T>(s: State<T>, step: Step<T>, s': State<T>)
    requires Inv(s) && Enabled(s, step) && s' == Apply(s, step)
    ensures Inv(s') && Next(Abs(s), EventOf(s, step), Abs(s'))
  {
    StepKeepsInv(s, step, s');
    OthersStay(s, step, s');
    if EventOf(s, step).Nothing? {
      QuietRefines(s, step, s');
    } else {
      TouchedRefines(s, step, s');
    }
  }

  lemma NothingCounted(pte: seq<Table>, act: seq<Act>, h: Holder, f: nat)
    requires |pte| == |act| && forall p :: 0 <= p < |pte| ==> pte[p] == map[] && act[p].Idle?
    ensures !Counts(pte, act, h, f)
  {
  }

  /** Memory with all frames free and no pages in any process. */
  lemma EmptyInv<T>(s: State<T>)
    requires |s.pte| == |s.act| && |s.refcnt| == |s.page|
    requires forall p :: 0 <= p < |s.pte| ==> s.pte[p] == map[] && s.act[p].Idle?
    requires forall f :: 0 <= f < |s.refcnt| ==> s.refcnt[f] == 0
    ensures Inv(s)
  {
    forall f, h ensures !Counts(s.pte, s.act, h, f) {
      NothingCounted(s.pte, s.act, h, f);
    }
    assert forall f: nat :: Counted(s.pte, s.act, f) == {};
  }

  ghost predicate Follows<T>(s: State<T>, step: Step<T>, s': State<T>) {
    Enabled(s, step) && s' == Apply(s, step)
  }

  ghost predicate Run<T>(states: seq<State<T>>, steps: seq<Step<T>>) {
    && |states| == |steps| + 1
    && forall i :: 0 <= i < |steps| ==> Follows(states[i], steps[i], states[i + 1])
  }

  lemma {:induction false} RunInv<T>(states: seq<State<T>>, steps: seq<Step<T>>, k: nat)
    requires Run(states, steps) && Inv(states[0]) && k < |states|
    ensures Inv(states[k])
  {
    if k > 0 {
      RunInv(states, steps, k - 1);
      assert Follows(states[k - 1], steps[k - 1], states[k]);
      StepKeepsInv(states[k - 1], steps[k - 1], states[k]);
    }
  }

  /** Copy-on-write fork is eager fork: along every interleaving of forks, faults, stores, copies to
      user memory, allocations and unmaps, what every process sees changes exactly as if fork had
      copied every page of the parent at the moment it returned. */
  lemma RunRefines<T>(states: seq<State<T>>, steps: seq<Step<T>>, k: nat)
    requires Run(states, steps) && Inv(states[0]) && k < |steps|
    ensures Inv(states[k]) && Inv(states[k + 1])
    ensures Enabled(states[k], steps[k]) && Next(Abs(states[k]), EventOf(states[k], steps[k]), Abs(states[k + 1]))
  {
    RunInv(states, steps, k);
    assert Follows(states[k], steps[k], states[k + 1]);
    StepRefines(states[k], steps[k], states[k + 1]);
  }

  // ---------------------------------------------------------------- consequences

  lemma HeldCounted<T>(s: State<T>, h: Holder, f: nat)
    requires Inv(s) && Counts(s.pte, s.act, h, f)
    ensures f < |s.refcnt| && s.refcnt[f] > 0
  {
    CountsInRange(s, h, f);
    assert h in Counted(s.pte, s.act, f);
  }

  /** No kernel path is ever stuck or panics half-way: kfree finds a count to drop, and every entry a
      path is about to use is there. */
  lemma PathsProceed<T>(s: State<T>, p: nat, junk: T)
    requires Inv(s) && p < |s.act|
    ensures s.act[p].Taking? ==> Enabled(s, FaultCopy(p))
    ensures s.act[p].Copied? ==> Enabled(s, FaultInstall(p))
    ensures s.act[p].Dropping? ==> Enabled(s, FaultDrop(p, junk))
    ensures s.act[p].Zeroing? ==> Enabled(s, LazyFail(p, junk))
    ensures s.act[p].Unmapping? ==> Enabled(s, UnmapClear(p))
  {
    assert ActOk(s.page, s.pte, s.act, p);
    if s.act[p].Dropping? || s.act[p].Zeroing? {
      HeldCounted(s, Hand(p), Holding(s.act[p]));
    }
  }

  /** uvmunmap's kfree never panics, in a process or on fork's error path. */
  lemma UnmapProceeds<T>(s: State<T>, p: nat, v: nat)
    requires Inv(s) && p < |s.act| && (s.act[p].Idle? || s.act[p].Embryo?) && v in s.pte[p]
    ensures Droppable(s, p, v)
  {
    HeldCounted(s, Entry(p, v), s.pte[p][v].frame);
  }

  /** The entries that map frame f. */
  ghost function Mappers(pte: seq<Table>, f: nat): (hs: set<Holder>)
    ensures forall h :: h in hs <==> h.Entry? && h.p < |pte| && h.v in pte[h.p] && pte[h.p][h.v].frame == f
  {
    set p, v | 0 <= p < |pte| && v in pte[p] && pte[p][v].frame == f :: Entry(p, v)
  }

  ghost predicate Quiet(act: seq<Act>) {
    forall p :: 0 <= p < |act| ==> act[p].Idle?
  }

  lemma QuietCounted(pte: seq<Table>, act: seq<Act>, f: nat)
    requires |pte| == |act| && Quiet(act)
    ensures Counted(pte, act, f) == Mappers(pte, f)
  {
  }

  lemma OneWriter(pte: seq<Table>, act: seq<Act>, h: Holder, h': Holder, f: nat)
    requires |pte| == |act| && Exclusive(pte, act) && Counts(pte, act, h, f) && Counts(pte, act, h', f)
    requires Private(pte, act, h)
    ensures h' == h
  {
  }

  /** Frame accounting, when no process is in the kernel: a frame's count is the number of page-table
      entries that map it, and a frame mapped writable is mapped by that one entry. */
  lemma CountIsMappers<T>(s: State<T>, f: nat)
    requires Inv(s) && f < |s.refcnt| && Quiet(s.act)
    ensures s.refcnt[f] == |Mappers(s.pte, f)|
    ensures forall h, h' :: h in Mappers(s.pte, f) && h' in Mappers(s.pte, f) && s.pte[h.p][h.v].w ==> h' == h
  {
    QuietCounted(s.pte, s.act, f);
    forall h, h' | h in Mappers(s.pte, f) && h' in Mappers(s.pte, f) && s.pte[h.p][h.v].w ensures h' == h {
      assert Counts(s.pte, s.act, h, f) && Counts(s.pte, s.act, h', f);
      OneWriter(s.pte, s.act, h, h', f);
    }
  }
}
