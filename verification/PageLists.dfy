/** The page allocator of xv6/kernel/kalloc.c: a free list per CPU, stealing from the others, and a
    reference count per page, as interleaved steps of any number of kernel threads. Each step is one
    critical section. Pages are numbered from KERNBASE; a free list is a stack, its head last. */
module PageLists {
  const NCPU: nat := 8

  /** Where a thread is in kalloc or kfree. kalloc runs on one CPU from its first step on. */
  datatype Pc =
    | Out
    | Stealing(cpu: nat, i: nat)    // kalloc: own list was empty; in ksteal, about to try cpu + i
    | Took(page: nat)               // kalloc: has a page, count not yet set
    | Dropped(page: nat)            // kfree: the count fell to 0, page not yet on a list

  datatype State = State(
    free: seq<seq<nat>>,            // kmem[cpu].freelist
    refcnt: seq<nat>,
    pc: seq<Pc>)

  datatype Step =
    | Start(t: nat, cpu: nat)       // kalloc's own list
    | Steal(t: nat)                 // one pass of ksteal's loop
    | Null(t: nat)                  // kalloc returns 0
    | Count(t: nat)                 // kalloc sets the count and returns
    | Free(t: nat, page: nat)       // kfree up to the count test
    | Push(t: nat, cpu: nat)        // kfree puts the page on a list
    | AddRef(t: nat, page: nat)

  predicate IsThread(s: State, t: nat) {
    t < |s.pc| && |s.free| == NCPU
  }

  /** The CPU whose list ksteal tries next. */
  function Victim(cpu: nat, i: nat): (c: nat)
    ensures c < NCPU
  {
    (cpu + i) % NCPU
  }

  predicate Enabled(s: State, step: Step) {
    IsThread(s, step.t) &&
    var pc := s.pc[step.t];
    match step
    case Start(_, cpu) => pc.Out? && cpu < NCPU
    case Steal(_) => pc.Stealing? && pc.i < NCPU
    case Null(_) => pc.Stealing? && pc.i == NCPU
    case Count(_) => pc.Took? && pc.page < |s.refcnt|
    case Free(_, page) => pc.Out? && page < |s.refcnt| && s.refcnt[page] > 0
    case Push(_, cpu) => pc.Dropped? && cpu < NCPU
    case AddRef(_, page) => pc.Out? && page < |s.refcnt| && s.refcnt[page] > 0
  }

  function Goto(s: State, t: nat, pc: Pc): (s': State)
    requires t < |s.pc|
  {
    s.(pc := s.pc[t := pc])
  }

  /** Thread t takes the head of a list. */
  function Pop(s: State, t: nat, cpu: nat): (s': State)
    requires t < |s.pc| && cpu < |s.free| && s.free[cpu] != []
  {
    var l := s.free[cpu];
    Goto(s, t, Took(l[|l| - 1])).(free := s.free[cpu := l[..|l| - 1]])
  }

  function Apply(s: State, step: Step): (s': State)
    requires Enabled(s, step)
  {
    var t := step.t;
    var pc := s.pc[t];
    match step
    case Start(_, cpu) => if s.free[cpu] != [] then Pop(s, t, cpu) else Goto(s, t, Stealing(cpu, 1))
    case Steal(_) =>
      if s.free[Victim(pc.cpu, pc.i)] != [] then Pop(s, t, Victim(pc.cpu, pc.i))
      else Goto(s, t, Stealing(pc.cpu, pc.i + 1))
    case Null(_) => Goto(s, t, Out)
    case Count(_) => Goto(s, t, Out).(refcnt := s.refcnt[pc.page := 1])
    case Free(_, page) =>
      Goto(s, t, if s.refcnt[page] == 1 then Dropped(page) else Out).(refcnt := s.refcnt[page := s.refcnt[page] - 1])
    case Push(_, cpu) => Goto(s, t, Out).(free := s.free[cpu := s.free[cpu] + [pc.page]])
    case AddRef(_, page) => s.(refcnt := s.refcnt[page := s.refcnt[page] + 1])
  }

  // ---------------------------------------------------------------- where each page is

  datatype Place = OnList(cpu: nat, i: nat) | InHand(t: nat) | InUse

  predicate Holds(pc: Pc, page: nat) {
    (pc.Took? || pc.Dropped?) && pc.page == page
  }

  /** Page p is where `at` says. */
  predicate Placed(s: State, p: nat, at: Place)
    requires p < |s.refcnt|
  {
    match at
    case OnList(c, i) => s.refcnt[p] == 0 && c < |s.free| && i < |s.free[c]| && s.free[c][i] == p
    case InHand(t) => s.refcnt[p] == 0 && t < |s.pc| && Holds(s.pc[t], p)
    case InUse => s.refcnt[p] > 0
  }

  /** Every page is in exactly one place: `at` says where, and nothing else has it. */
  ghost predicate Inv(s: State, at: seq<Place>) {
    && |s.free| == NCPU && |at| == |s.refcnt|
    && (forall p :: 0 <= p < |at| ==> Placed(s, p, at[p]))
    && (forall c, i :: 0 <= c < NCPU && 0 <= i < |s.free[c]| ==>
         s.free[c][i] < |at| && at[s.free[c][i]] == OnList(c, i))
    && (forall t :: 0 <= t < |s.pc| && (s.pc[t].Took? || s.pc[t].Dropped?) ==>
         s.pc[t].page < |at| && at[s.pc[t].page] == InHand(t))
    && (forall t :: 0 <= t < |s.pc| && s.pc[t].Stealing? ==> s.pc[t].cpu < NCPU && 1 <= s.pc[t].i <= NCPU)
  }

  /** Where pages are after a step. */
  ghost function Moved(s: State, at: seq<Place>, step: Step): (at': seq<Place>)
    requires Inv(s, at) && Enabled(s, step)
    ensures |at'| == |at|
  {
    var t := step.t;
    var pc := s.pc[t];
    match step
    case Start(_, cpu) => if s.free[cpu] != [] then at[s.free[cpu][|s.free[cpu]| - 1] := InHand(t)] else at
    case Steal(_) =>
      var l := s.free[Victim(pc.cpu, pc.i)];
      if l != [] then at[l[|l| - 1] := InHand(t)] else at
    case Null(_) => at
    case Count(_) => at[pc.page := InUse]
    case Free(_, page) => if s.refcnt[page] == 1 then at[page := InHand(t)] else at
    case Push(_, cpu) => at[pc.page := OnList(cpu, |s.free[cpu]|)]
    case AddRef(_, _) => at
  }

  lemma PopKeepsInv(s: State, at: seq<Place>, t: nat, cpu: nat, at': seq<Place>)
    requires Inv(s, at) && t < |s.pc| && cpu < NCPU && s.free[cpu] != [] && (s.pc[t].Out? || s.pc[t].Stealing?)
    requires at' == at[s.free[cpu][|s.free[cpu]| - 1] := InHand(t)]
    ensures Inv(Pop(s, t, cpu), at')
  {
  }

  lemma PushKeepsInv(s: State, at: seq<Place>, t: nat, cpu: nat)
    requires Inv(s, at) && Enabled(s, Push(t, cpu))
    ensures Inv(Apply(s, Push(t, cpu)), Moved(s, at, Push(t, cpu)))
  {
  }

  lemma CountKeepsInv(s: State, at: seq<Place>, step: Step)
    requires Inv(s, at) && Enabled(s, step) && (step.Count? || step.Free? || step.AddRef?)
    ensures Inv(Apply(s, step), Moved(s, at, step))
  {
  }

  /** Every step keeps each page in exactly one place. */
  lemma StepKeepsInv(s: State, at: seq<Place>, step: Step)
    requires Inv(s, at) && Enabled(s, step)
    ensures Inv(Apply(s, step), Moved(s, at, step))
  {
    match step
    case Start(t, cpu) =>
      if s.free[cpu] != [] {
        PopKeepsInv(s, at, t, cpu, Moved(s, at, step));
      }
    case Steal(t) =>
      var c := Victim(s.pc[t].cpu, s.pc[t].i);
      if s.free[c] != [] {
        PopKeepsInv(s, at, t, c, Moved(s, at, step));
      }
    case Null(_) =>
    case Push(t, cpu) => PushKeepsInv(s, at, t, cpu);
    case _ => CountKeepsInv(s, at, step);
  }

  // ---------------------------------------------------------------- runs

  ghost predicate Follows(s: State, step: Step, s': State) {
    Enabled(s, step) && s' == Apply(s, step)
  }

  ghost predicate Run(states: seq<State>, steps: seq<Step>) {
    && |states| == |steps| + 1
    && forall i :: 0 <= i < |steps| ==> Follows(states[i], steps[i], states[i + 1])
  }

  lemma {:induction false} RunInv(states: seq<State>, steps: seq<Step>, at: seq<Place>, k: nat)
    returns (at': seq<Place>)
    requires Run(states, steps) && Inv(states[0], at) && k < |states|
    ensures Inv(states[k], at') && |at'| == |at|
  {
    at' := at;
    if k > 0 {
      at' := RunInv(states, steps, at, k - 1);
      assert Follows(states[k - 1], steps[k - 1], states[k]);
      StepKeepsInv(states[k - 1], at', steps[k - 1]);
      at' := Moved(states[k - 1], at', steps[k - 1]);
    }
  }

  /** Page p is on the list of a CPU. */
  predicate Listed(s: State, p: nat, c: nat, i: nat) {
    c < |s.free| && i < |s.free[c]| && s.free[c][i] == p
  }

  predicate Handled(s: State, p: nat, t: nat) {
    t < |s.pc| && Holds(s.pc[t], p)
  }

  /** In every interleaving, each page is exactly one of: on one list, once; in the hands of one thread
      in the middle of kalloc or kfree; or in use, with a count of at least 1. */
  lemma ExactlyOnePlace(states: seq<State>, steps: seq<Step>, at: seq<Place>, k: nat, p: nat)
    requires Run(states, steps) && Inv(states[0], at) && k < |states| && p < |at|
    ensures var s := states[k];
            && p < |s.refcnt|
            && ((exists c, i :: Listed(s, p, c, i)) || (exists t :: Handled(s, p, t)) || s.refcnt[p] > 0)
            && (forall c, i, c', i' :: Listed(s, p, c, i) && Listed(s, p, c', i') ==> c == c' && i == i')
            && (forall t, t' :: Handled(s, p, t) && Handled(s, p, t') ==> t == t')
            && (forall c, i :: Listed(s, p, c, i) ==> s.refcnt[p] == 0 && forall t :: !Handled(s, p, t))
            && (forall t :: Handled(s, p, t) ==> s.refcnt[p] == 0)
  {
    var at' := RunInv(states, steps, at, k);
    PlaceIsUnique(states[k], at', p);
  }

  lemma PlaceIsUnique(s: State, at: seq<Place>, p: nat)
    requires Inv(s, at) && p < |at|
    ensures (exists c, i :: Listed(s, p, c, i)) || (exists t :: Handled(s, p, t)) || s.refcnt[p] > 0
    ensures forall c, i :: Listed(s, p, c, i) ==> at[p] == OnList(c, i) && s.refcnt[p] == 0
    ensures forall t :: Handled(s, p, t) ==> at[p] == InHand(t) && s.refcnt[p] == 0
  {
    assert Placed(s, p, at[p]);
    if at[p].OnList? {
      assert Listed(s, p, at[p].cpu, at[p].i);
    } else if at[p].InHand? {
      assert Handled(s, p, at[p].t);
    }
  }

  /** List d was found empty at some state from a to k. */
  ghost predicate SeenEmpty(states: seq<State>, a: nat, k: nat, d: nat) {
    exists b :: a <= b <= k && b < |states| && d < |states[b].free| && states[b].free[d] == []
  }

  /** The lists kalloc has looked at since it started at step a: its own, and the first i - 1 it tried to
      steal from. */
  ghost predicate LookedAt(states: seq<State>, a: nat, k: nat, cpu: nat, i: nat) {
    forall j :: 0 <= j < i ==> SeenEmpty(states, a, k, Victim(cpu, j))
  }

  lemma {:induction false} SameThreads(states: seq<State>, steps: seq<Step>, k: nat)
    requires Run(states, steps) && k < |states|
    ensures |states[k].pc| == |states[0].pc|
  {
    if k > 0 {
      SameThreads(states, steps, k - 1);
      assert Follows(states[k - 1], steps[k - 1], states[k]);
    }
  }

  lemma {:induction false} StealingLooked(states: seq<State>, steps: seq<Step>, k: nat, t: nat) returns (a: nat)
    requires Run(states, steps) && k < |states| && t < |states[k].pc| && states[k].pc[t].Stealing?
    requires t < |states[0].pc| && states[0].pc[t].Out?
    ensures a < k && steps[a].Start? && steps[a].t == t && steps[a].cpu == states[k].pc[t].cpu < NCPU
    ensures LookedAt(states, a, k, states[k].pc[t].cpu, states[k].pc[t].i)
  {
    SameThreads(states, steps, k);
    assert k > 0 && Follows(states[k - 1], steps[k - 1], states[k]);
    SameThreads(states, steps, k - 1);
    var pc := states[k].pc[t];
    if states[k - 1].pc[t].Stealing? {
      a := StealingLooked(states, steps, k - 1, t);
      forall j | 0 <= j < pc.i ensures SeenEmpty(states, a, k, Victim(pc.cpu, j)) {
        if j < states[k - 1].pc[t].i {
          assert SeenEmpty(states, a, k - 1, Victim(pc.cpu, j));
        } else {
          assert states[k - 1].free[Victim(pc.cpu, j)] == [];
        }
      }
    } else {
      a := k - 1;
      assert Victim(pc.cpu, 0) == pc.cpu;
      assert states[a].free[Victim(pc.cpu, 0)] == [];
    }
  }

  /** kalloc returns null only if every list, its own and all others, was empty at some moment of the
      call. */
  lemma NullMeansAllEmpty(states: seq<State>, steps: seq<Step>, k: nat, t: nat) returns (a: nat)
    requires Run(states, steps) && k < |steps| && steps[k] == Null(t)
    requires t < |states[0].pc| && states[0].pc[t].Out?
    ensures a < k && steps[a].Start? && steps[a].t == t
    ensures forall d :: 0 <= d < NCPU ==> SeenEmpty(states, a, k, d)
  {
    assert Follows(states[k], steps[k], states[k + 1]);
    a := StealingLooked(states, steps, k, t);
    var cpu := states[k].pc[t].cpu;
    forall d | 0 <= d < NCPU ensures SeenEmpty(states, a, k, d) {
      assert Victim(cpu, (d + NCPU - cpu) % NCPU) == d;
    }
  }

  // ---------------------------------------------------------------- one call at a time

  const PGSIZE: nat := 4096
  const KERNBASE: nat := 0x80000000
  const PHYSTOP: nat := KERNBASE + 128 * 1024 * 1024
  const PAGES: nat := (PHYSTOP - KERNBASE) / PGSIZE

  class Kmem {
    var free: seq<seq<nat>>
    var refcnt: seq<nat>

    /** Lists hold pages. */
    ghost predicate Valid()
      reads this
    {
      && |free| == NCPU && |refcnt| == PAGES
      && (forall c, i :: 0 <= c < NCPU && 0 <= i < |free[c]| ==> free[c][i] < PAGES)
    }

    /** The head of a list, or -1. */
    method Take(cpu: nat) returns (r: int)
      requires Valid() && cpu < NCPU
      modifies this`free
      ensures Valid()
      ensures if old(free)[cpu] == [] then r == -1 && free == old(free)
              else 0 <= r < PAGES && free[cpu] + [r] == old(free)[cpu] && free == old(free)[cpu := free[cpu]]
    {
      var l := free[cpu];
      if l == [] {
        return -1;
      }
      r := l[|l| - 1];
      free := free[cpu := l[..|l| - 1]];
      assert free[cpu] + [r] == l;
    }

    /** ksteal: the head of the first list after cpu's that has one, or -1 when none has. */
    method Ksteal(cpu: nat) returns (r: int, ghost from: nat)
      requires Valid() && cpu < NCPU
      modifies this`free
      ensures Valid()
      ensures if r == -1 then free == old(free) && forall i :: 1 <= i < NCPU ==> old(free)[Victim(cpu, i)] == []
              else && 1 <= from < NCPU && 0 <= r < PAGES
                   && (forall i :: 1 <= i < from ==> old(free)[Victim(cpu, i)] == [])
                   && free[Victim(cpu, from)] + [r] == old(free)[Victim(cpu, from)]
                   && free == old(free)[Victim(cpu, from) := free[Victim(cpu, from)]]
    {
      from := 1;
      var i := 1;
      while i < NCPU
        invariant 1 <= i <= NCPU && from == i && Valid() && free == old(free)
        invariant forall j :: 1 <= j < i ==> free[Victim(cpu, j)] == []
      {
        r := Take(Victim(cpu, i));
        if r != -1 {
          return;
        }
        i, from := i + 1, from + 1;
      }
      r := -1;
    }

    /** kalloc's search: its own list's head, else one stolen; -1 exactly when every list is empty. */
    method Find(cpu: nat) returns (r: int, ghost from: nat)
      requires Valid() && cpu < NCPU
      modifies this`free
      ensures Valid()
      ensures r == -1 <==> forall c :: 0 <= c < NCPU ==> old(free)[c] == []
      ensures r == -1 ==> free == old(free)
      ensures r != -1 ==> 0 <= r < PAGES && PoppedFrom(old(free), free, cpu, from, r)
    {
      from := 0;
      assert Victim(cpu, 0) == cpu;
      r := Take(cpu);
      if r == -1 {
        r, from := Ksteal(cpu);
      }
      if r == -1 {
        forall c | 0 <= c < NCPU ensures free[c] == [] {
          assert Victim(cpu, (c + NCPU - cpu) % NCPU) == c;
        }
      }
    }

    /** kalloc as intended: the page found has its count set to 1; -1 exactly when every list is empty. */
    method Kalloc(cpu: nat) returns (r: int, ghost from: nat)
      requires Valid() && cpu < NCPU
      modifies this`free, this`refcnt
      ensures Valid()
      ensures r == -1 <==> forall c :: 0 <= c < NCPU ==> old(free)[c] == []
      ensures r == -1 ==> unchanged(this)
      ensures r != -1 ==> 0 <= r < PAGES && refcnt == old(refcnt)[r := 1] && PoppedFrom(old(free), free, cpu, from, r)
    {
      r, from := Find(cpu);
      if r != -1 {
        refcnt := refcnt[r := 1];
      }
    }

    /** kalloc as written, where pages are addresses and 0 means none: the count is stored whether or not a page
        was found, and the store is inside ref.refcnt if and only if some list had a page. */
    method KallocAsWritten(cpu: nat) returns (pa: nat, inBounds: bool)
      requires Valid() && cpu < NCPU
      modifies this`free, this`refcnt
      ensures Valid()
      ensures inBounds <==> exists c :: 0 <= c < NCPU && old(free)[c] != []
      ensures !inBounds ==> pa == 0 && unchanged(this)
      ensures inBounds ==> KERNBASE <= pa < PHYSTOP && pa % PGSIZE == 0 && refcnt == old(refcnt)[PageOf(pa) := 1]
      ensures inBounds ==> exists from :: PoppedFrom(old(free), free, cpu, from, PageOf(pa))
    {
      var r;
      ghost var from;
      r, from := Find(cpu);
      pa := if r == -1 then 0 else Address(r);
      CountStoreInBounds(pa);
      var i := CountIndex(pa);
      inBounds := i < PAGES;
      if inBounds {
        refcnt := refcnt[i := 1];
      }
    }

    /** kfree of an allocated page: one reference less, and the last one puts it on this CPU's list. */
    method Kfree(cpu: nat, p: nat)
      requires Valid() && cpu < NCPU && p < PAGES && refcnt[p] > 0
      modifies this`free, this`refcnt
      ensures Valid() && refcnt == old(refcnt)[p := old(refcnt)[p] - 1]
      ensures free == if old(refcnt)[p] == 1 then old(free)[cpu := old(free)[cpu] + [p]] else old(free)
    {
      refcnt := refcnt[p := refcnt[p] - 1];
      if refcnt[p] > 0 {
        return;
      }
      free := free[cpu := free[cpu] + [p]];
    }

    /** kfree of address pa: true where it panics, for an address that is no page of ours, or a page with
        no reference. */
    method KfreeAt(cpu: nat, pa: nat, end: nat) returns (panicked: bool)
      requires Valid() && cpu < NCPU && KERNBASE <= end
      modifies this`free, this`refcnt
      ensures Valid()
      ensures panicked <==> pa % PGSIZE != 0 || pa < end || pa >= PHYSTOP || old(refcnt)[PageOf(pa)] == 0
      ensures if panicked then unchanged(this) else refcnt == old(refcnt)[PageOf(pa) := old(refcnt)[PageOf(pa)] - 1]
      ensures !panicked ==>
        free == if old(refcnt)[PageOf(pa)] == 1 then old(free)[cpu := old(free)[cpu] + [PageOf(pa)]] else old(free)
    {
      if pa % PGSIZE != 0 || pa < end || pa >= PHYSTOP || refcnt[PageOf(pa)] == 0 {
        return true;
      }
      Kfree(cpu, PageOf(pa));
      panicked := false;
    }

    /** freerange as intended (notes/08-copyOnWrite.md): every page from `first` on is put on the list. */
    method Freerange(cpu: nat, first: nat) returns (panicked: bool)
      requires Valid() && cpu < NCPU && first <= PAGES
      modifies this`free, this`refcnt
      ensures !panicked && Valid() && free == old(free)[cpu := old(free)[cpu] + Range(first, PAGES - first)]
      ensures forall p :: first <= p < PAGES ==> refcnt[p] == 0
    {
      var p := first;
      panicked := false;
      assert free[cpu] + Range(first, 0) == free[cpu];
      while p < PAGES
        invariant first <= p <= PAGES && Valid() && !panicked
        invariant free == old(free)[cpu := old(free)[cpu] + Range(first, p - first)]
        invariant forall q :: first <= q < p ==> refcnt[q] == 0
      {
        refcnt := refcnt[p := 1];
        panicked := KfreeAt(cpu, KERNBASE + p * PGSIZE, KERNBASE + first * PGSIZE);
        assert Range(first, p - first) + [p] == Range(first, p + 1 - first);
        assert free[cpu] == old(free)[cpu] + Range(first, p + 1 - first);
        p := p + 1;
      }
    }

    /** freerange as written: its loop has one statement, so kfree runs once, after it, on the address
        past the last page, where it panics; no page is ever put on a list. */
    method FreerangeAsWritten(cpu: nat, first: nat) returns (panicked: bool)
      requires Valid() && cpu < NCPU && first <= PAGES
      modifies this`free, this`refcnt
      ensures panicked && Valid() && free == old(free)
      ensures forall p :: first <= p < PAGES ==> refcnt[p] == 1
    {
      var p := first;
      while p < PAGES
        invariant first <= p <= PAGES && Valid() && free == old(free)
        invariant forall q :: first <= q < p ==> refcnt[q] == 1
      {
        refcnt := refcnt[p := 1];
        p := p + 1;
      }
      panicked := KfreeAt(cpu, KERNBASE + p * PGSIZE, KERNBASE + first * PGSIZE);
    }
  }

  /** The number of the page at address pa. */
  function PageOf(pa: nat): (p: nat)
    requires KERNBASE <= pa
    ensures pa < PHYSTOP ==> p < PAGES
    ensures pa % PGSIZE == 0 ==> KERNBASE + p * PGSIZE == pa
  {
    (pa - KERNBASE) / PGSIZE
  }

  /** The pages from `first` on, n of them. */
  function Range(first: nat, n: nat): (ps: seq<nat>)
    ensures |ps| == n && forall i :: 0 <= i < n ==> ps[i] == first + i
  {
    seq(n, i requires 0 <= i => first + i)
  }

  /** The index into ref.refcnt that kalloc computes from address r, in 64-bit arithmetic. */
  function CountIndex(r: nat): (i: nat) {
    (r + 0x1_0000_0000_0000_0000 - KERNBASE) % 0x1_0000_0000_0000_0000 / PGSIZE
  }

  /** The address of page p. */
  function Address(p: nat): (pa: nat)
    requires p < PAGES
    ensures KERNBASE <= pa < PHYSTOP && pa % PGSIZE == 0 && PageOf(pa) == p
  {
    KERNBASE + p * PGSIZE
  }

  /** Page r was the head of the list of the from-th CPU after cpu, and all lists before that were empty. */
  predicate PoppedFrom(was: seq<seq<nat>>, now: seq<seq<nat>>, cpu: nat, from: nat, r: nat) {
    && |was| == |now| == NCPU && cpu < NCPU && from < NCPU
    && (forall i :: 0 <= i < from ==> was[Victim(cpu, i)] == [])
    && now[Victim(cpu, from)] + [r] == was[Victim(cpu, from)]
    && now == was[Victim(cpu, from) := now[Victim(cpu, from)]]
  }

  /** The index is that of the page, and for no page it is past the end. */
  lemma CountStoreInBounds(r: nat)
    requires r == 0 || KERNBASE <= r < PHYSTOP
    ensures CountIndex(r) < PAGES <==> r != 0
    ensures r != 0 ==> CountIndex(r) == PageOf(r)
  {
  }
}
