/** kfree as xv6/kernel/kalloc.c has it: the page is filled with junk before the count is looked at.
    CowMemory fills it on the last drop only; here is exactly when that makes no difference. */
module KfreeAsWritten {
  import opened EagerMemory
  import opened CowMemory

  /** The steps that call kfree: in uvmunmap, at the end of a store fault, where mappages failed, and on
      fork's error path. */
  predicate Drops<T>(step: Step<T>) {
    step.ForkUndo? || step.FaultDrop? || step.LazyFail? || step.UnmapFree?
  }

  /** The frame passed to kfree. */
  function Dropped<T>(s: State<T>, step: Step<T>): (f: nat)
    requires Enabled(s, step) && Drops(step)
    ensures IsFrame(s, f) && s.refcnt[f] > 0
  {
    match step
    case ForkUndo(p, v, _) => s.pte[s.act[p].child][v].frame
    case FaultDrop(p, _) => s.act[p].f
    case LazyFail(p, _) => s.act[p].mem
    case UnmapFree(p, v, _) => s.pte[p][v].frame
  }

  function ApplyAsWritten<T>(s: State<T>, step: Step<T>): (s': State<T>)
    requires Enabled(s, step)
  {
    if Drops(step) then Apply(s, step).(page := s.page[Dropped(s, step) := step.junk]) else Apply(s, step)
  }

  /** Process q sees frame f at v. */
  predicate SeesAt<T>(s: State<T>, q: nat, v: nat, f: nat) {
    q < |s.pte| == |s.act| && Visible(s.pte[q], s.act[q], v) && s.pte[q][v].frame == f
  }

  /** Process q sees the dropped frame at v, and not through the entry that is being dropped. */
  predicate StillSees<T>(s: State<T>, step: Step<T>, q: nat, v: nat)
    requires Enabled(s, step) && Drops(step)
  {
    SeesAt(s, q, v, Dropped(s, step)) && Entry(q, v) != Writer(s, step)
  }

  /** The fill does not show: the reference was the last, or the page is junk already, or no other visible
      entry maps the frame. */
  ghost predicate Harmless<T>(s: State<T>, step: Step<T>)
    requires Enabled(s, step)
  {
    Drops(step) ==>
      || s.refcnt[Dropped(s, step)] == 1
      || s.page[Dropped(s, step)] == step.junk
      || forall q, v :: !StillSees(s, step, q, v)
  }

  /** What each process sees, whether or not the kernel's paths are in order. */
  ghost function Looks<T>(s: State<T>): (a: Spaces<T>)
    requires |s.pte| == |s.act| && InRange(s.pte, |s.page|)
  {
    seq(|s.pte|, p requires 0 <= p < |s.pte| => View(s.page, s.pte[p], s.act[p]))
  }

  lemma LooksIsAbs<T>(s: State<T>)
    requires Shape(s)
    ensures Looks(s) == Abs(s)
  {
  }

  /** What a dropping step leaves, as intended and as written: they differ in the page of the frame only. */
  ghost predicate Twins<T>(s: State<T>, step: Step<T>, s1: State<T>, s2: State<T>) {
    && Inv(s) && Enabled(s, step) && Drops(step)
    && s1 == Apply(s, step) && s2 == ApplyAsWritten(s, step)
  }

  lemma TwinsShare<T>(s: State<T>, step: Step<T>, s1: State<T>, s2: State<T>)
    requires Enabled(s, step) && Drops(step) && s1 == Apply(s, step) && s2 == ApplyAsWritten(s, step)
    ensures s2 == s1.(page := s.page[Dropped(s, step) := step.junk]) && s1.pte == s.pte && |s1.act| == |s.act|
    ensures s1.page == if s.refcnt[Dropped(s, step)] == 1 then s2.page else s.page
  {
  }

  lemma SeesAfter<T>(s: State<T>, step: Step<T>, s1: State<T>, q: nat, v: nat)
    requires Shape(s) && Enabled(s, step) && Drops(step) && s1 == Apply(s, step)
    ensures SeesAt(s1, q, v, Dropped(s, step)) <==> StillSees(s, step, q, v)
  {
  }

  lemma SameIfUnseen<T>(s1: State<T>, s2: State<T>, f: nat, q: nat)
    requires |s1.pte| == |s1.act| && InRange(s1.pte, |s1.page|) && q < |s1.pte| && f < |s1.page|
    requires s2.pte == s1.pte && s2.act == s1.act && |s2.page| == |s1.page|
    requires forall g :: 0 <= g < |s1.page| && g != f ==> s2.page[g] == s1.page[g]
    requires forall v :: !SeesAt(s1, q, v, f)
    ensures View(s2.page, s2.pte[q], s2.act[q]) == View(s1.page, s1.pte[q], s1.act[q])
  {
    forall v: nat | Visible(s1.pte[q], s1.act[q], v)
      ensures Seen(s2.page, s2.pte[q][v]) == Seen(s1.page, s1.pte[q][v])
    {
      assert !SeesAt(s1, q, v, f);
    }
    SameView(s1.page, s1.pte[q], s1.act[q], s2.page, s2.pte[q], s2.act[q]);
  }

  lemma UnseenLooks<T>(s: State<T>, step: Step<T>, s1: State<T>, s2: State<T>)
    requires Twins(s, step, s1, s2) && InRange(s1.pte, |s1.page|) && InRange(s2.pte, |s2.page|)
    requires |s1.pte| == |s1.act| == |s2.pte| == |s2.act|
    requires s.refcnt[Dropped(s, step)] != 1 && forall q, v :: !StillSees(s, step, q, v)
    ensures Looks(s2) == Looks(s1)
  {
    TwinsShare(s, step, s1, s2);
    forall q | 0 <= q < |s1.pte|
      ensures Looks(s2)[q] == Looks(s1)[q]
    {
      forall v
        ensures !SeesAt(s1, q, v, Dropped(s, step))
      {
        SeesAfter(s, step, s1, q, v);
      }
      SameIfUnseen(s1, s2, Dropped(s, step), q);
    }
  }

  lemma SeenDiffers<T>(s1: State<T>, s2: State<T>, q: nat, v: nat, f: nat)
    requires |s1.pte| == |s1.act| && InRange(s1.pte, |s1.page|) && f < |s1.page| == |s2.page|
    requires s2.pte == s1.pte && s2.act == s1.act && SeesAt(s1, q, v, f) && s1.page[f] != s2.page[f]
    ensures v in Looks(s1)[q] && Looks(s1)[q][v].data == s1.page[f]
    ensures v in Looks(s2)[q] && Looks(s2)[q][v].data == s2.page[f]
  {
  }

  /** In every state of every run and for every call of kfree: what processes see afterwards is what they
      would see had the page been filled on the last drop only, if and only if the call is harmless. */
  lemma JunkFillExact<T>(s: State<T>, step: Step<T>, s1: State<T>, s2: State<T>)
    requires Twins(s, step, s1, s2)
    ensures |s1.pte| == |s1.act| == |s2.pte| == |s2.act| && InRange(s1.pte, |s1.page|) && InRange(s2.pte, |s2.page|)
    ensures Looks(s2) == Looks(s1) <==> Harmless(s, step)
  {
    TwinsShare(s, step, s1, s2);
    var f := Dropped(s, step);
    if s.refcnt[f] == 1 || s.page[f] == step.junk {
      assert s2.page == s1.page;
    } else if forall q, v :: !StillSees(s, step, q, v) {
      UnseenLooks(s, step, s1, s2);
    } else {
      var q, v :| StillSees(s, step, q, v);
      SeesAfter(s, step, s1, q, v);
      SeenDiffers(s1, s2, q, v, f);
    }
  }

  lemma DropperCounts<T>(s: State<T>, step: Step<T>)
    requires Inv(s) && Enabled(s, step) && Drops(step)
    ensures Counts(s.pte, s.act, Writer(s, step), Dropped(s, step))
  {
    assert ActOk(s.page, s.pte, s.act, step.p);
  }

  /** The call is not made by a process that is in the middle of a copy. */
  lemma DropperNotCopying<T>(s: State<T>, step: Step<T>, q: nat, v: nat)
    requires Shape(s) && Enabled(s, step) && Drops(step) && q < |s.act| && s.act[q].Copied?
    ensures Writer(s, step) != Hand(q) && Writer(s, step) != Entry(q, v)
  {
  }

  lemma CopyingSees<T>(s: State<T>, q: nat)
    requires Shape(s) && q < |s.act| && s.act[q].Copied?
    ensures s.act[q].v in s.pte[q] && SeesAt(s, q, s.act[q].v, s.pte[q][s.act[q].v].frame)
  {
    assert ActOk(s.page, s.pte, s.act, q);
  }

  /** A copy that a store fault has made stays good: its process sees the frame it was made from. */
  lemma CopySurvives<T>(s: State<T>, step: Step<T>, f: nat, q: nat)
    requires Inv(s) && Enabled(s, step) && Drops(step) && f == Dropped(s, step) && q < |s.act| && s.act[q].Copied?
    requires forall u, v :: !StillSees(s, step, u, v)
    ensures s.act[q].mem != f && s.act[q].v in s.pte[q] && s.pte[q][s.act[q].v].frame != f
  {
    CopyingSees(s, q);
    DropperNotCopying(s, step, q, s.act[q].v);
    assert !StillSees(s, step, q, s.act[q].v);
    DropperCounts(s, step);
    if s.act[q].mem == f {
      HeldAlone(s, q, Writer(s, step), f);
    }
  }

  /** Junk in a frame that no copy involves leaves the kernel's paths in order. */
  lemma JunkKeepsShape<T>(s1: State<T>, s2: State<T>, f: nat, junk: T)
    requires Shape(s1) && f < |s1.page| && s2 == s1.(page := s1.page[f := junk])
    requires forall q :: 0 <= q < |s1.act| && s1.act[q].Copied? ==>
      s1.act[q].mem != f && s1.act[q].v in s1.pte[q] && s1.pte[q][s1.act[q].v].frame != f
    ensures Shape(s2)
  {
    forall q | 0 <= q < |s2.act|
      ensures ActOk(s2.page, s2.pte, s2.act, q)
    {
      assert ActOk(s1.page, s1.pte, s1.act, q);
    }
  }

  lemma StillCopied<T>(s: State<T>, step: Step<T>, s1: State<T>, q: nat)
    requires Shape(s) && Enabled(s, step) && Drops(step) && s1 == Apply(s, step) && q < |s1.act| && s1.act[q].Copied?
    ensures q < |s.act| && s.act[q] == s1.act[q]
  {
  }

  lemma UnseenKeepsShape<T>(s: State<T>, step: Step<T>, s1: State<T>, s2: State<T>)
    requires Twins(s, step, s1, s2) && Shape(s1) && s.refcnt[Dropped(s, step)] != 1
    requires forall q, v :: !StillSees(s, step, q, v)
    ensures Shape(s2)
  {
    TwinsShare(s, step, s1, s2);
    var f := Dropped(s, step);
    forall q | 0 <= q < |s1.act| && s1.act[q].Copied?
      ensures s1.act[q].mem != f && s1.act[q].v in s1.pte[q] && s1.pte[q][s1.act[q].v].frame != f
    {
      StillCopied(s, step, s1, q);
      CopySurvives(s, step, f, q);
    }
    JunkKeepsShape(s1, s2, f, step.junk);
  }

  /** After a harmless call the kernel's paths are in order. */
  lemma HarmlessKeepsInv<T>(s: State<T>, step: Step<T>, s1: State<T>, s2: State<T>)
    requires Twins(s, step, s1, s2) && Harmless(s, step) && Inv(s1)
    ensures Inv(s2)
  {
    TwinsShare(s, step, s1, s2);
    if s.refcnt[Dropped(s, step)] == 1 || s.page[Dropped(s, step)] == step.junk {
      assert s2.page == s1.page;
    } else {
      UnseenKeepsShape(s, step, s1, s2);
    }
  }

  /** What eager memory does on a step that calls kfree is determined by what was seen before. */
  lemma NextIsOne<T>(a: Spaces<T>, e: Event<T>, a1: Spaces<T>, a2: Spaces<T>)
    requires Next(a, e, a1) && Next(a, e, a2)
    ensures a1 == a2
  {
  }

  /** A step of the kernel as written is a step of eager memory, with the invariant kept, if and only if its
      call of kfree, if any, is harmless. */
  lemma StepAsWrittenExact<T>(s: State<T>, step: Step<T>, s2: State<T>)
    requires Inv(s) && Enabled(s, step) && s2 == ApplyAsWritten(s, step)
    ensures Inv(s2) && Next(Abs(s), EventOf(s, step), Abs(s2)) <==> Harmless(s, step)
  {
    var s1 := Apply(s, step);
    StepRefines(s, step, s1);
    if Drops(step) {
      JunkFillExact(s, step, s1, s2);
      LooksIsAbs(s1);
      if Harmless(s, step) {
        HarmlessKeepsInv(s, step, s1, s2);
        LooksIsAbs(s2);
      } else if Inv(s2) && Next(Abs(s), EventOf(s, step), Abs(s2)) {
        LooksIsAbs(s2);
        NextIsOne(Abs(s), EventOf(s, step), Abs(s1), Abs(s2));
      }
    }
  }

  /** The call where mappages failed is always harmless: the frame is in one hand. */
  lemma LazyFailHarmless<T>(s: State<T>, p: nat, junk: T)
    requires Inv(s) && Enabled(s, LazyFail(p, junk))
    ensures Harmless(s, LazyFail(p, junk))
  {
    forall q, v
      ensures !StillSees(s, LazyFail(p, junk), q, v)
    {
      if StillSees(s, LazyFail(p, junk), q, v) {
        HeldAlone(s, p, Entry(q, v), s.act[p].mem);
      }
    }
  }

  /** A parent sees every page its child has so far. */
  lemma ParentSees<T>(s: State<T>, p: nat, v: nat, c: nat)
    requires Shape(s) && InFork(s, p) && c == s.act[p].child && s.act[c].Embryo? && v in s.pte[c]
    ensures SeesAt(s, p, v, s.pte[c][v].frame) && p != c
    ensures Counts(s.pte, s.act, Entry(p, v), s.pte[c][v].frame) && Counts(s.pte, s.act, Entry(c, v), s.pte[c][v].frame)
  {
    assert ActOk(s.page, s.pte, s.act, p);
    assert ActOk(s.page, s.pte, s.act, c);
  }

  /** The calls on fork's error path never are, unless the page is junk already: the parent sees it. */
  lemma UndoHarms<T>(s: State<T>, p: nat, v: nat, junk: T)
    requires Inv(s) && Enabled(s, ForkUndo(p, v, junk))
    ensures Harmless(s, ForkUndo(p, v, junk)) <==> s.page[s.pte[s.act[p].child][v].frame] == junk
  {
    var c := s.act[p].child;
    ParentSees(s, p, v, c);
    assert StillSees(s, ForkUndo(p, v, junk), p, v);
    assert s.refcnt[s.pte[c][v].frame] != 1 by {
      if s.refcnt[s.pte[c][v].frame] == 1 {
        OnlyHolder(s, Entry(c, v), Entry(p, v), s.pte[c][v].frame);
      }
    }
  }

  // ---------------------------------------------------------------- runs of the kernel as written

  ghost predicate FollowsAsWritten<T>(s: State<T>, step: Step<T>, s': State<T>) {
    Enabled(s, step) && s' == ApplyAsWritten(s, step)
  }

  ghost predicate RunAsWritten<T>(states: seq<State<T>>, steps: seq<Step<T>>) {
    && |states| == |steps| + 1
    && forall i :: 0 <= i < |steps| ==> FollowsAsWritten(states[i], steps[i], states[i + 1])
  }

  ghost predicate HarmlessUpTo<T>(states: seq<State<T>>, steps: seq<Step<T>>, k: nat)
    requires RunAsWritten(states, steps) && k <= |steps|
  {
    forall i :: 0 <= i < k ==> Enabled(states[i], steps[i]) && Harmless(states[i], steps[i])
  }

  /** Up to its first call of kfree that is not harmless, a run of the kernel as written is a run of eager
      memory; there it departs from it. */
  lemma {:induction false} RunAsWrittenRefines<T>(states: seq<State<T>>, steps: seq<Step<T>>, k: nat)
    requires RunAsWritten(states, steps) && Inv(states[0]) && k < |steps| && HarmlessUpTo(states, steps, k)
    ensures Inv(states[k]) && Enabled(states[k], steps[k])
    ensures Inv(states[k + 1]) && Next(Abs(states[k]), EventOf(states[k], steps[k]), Abs(states[k + 1]))
      <==> Harmless(states[k], steps[k])
  {
    if k > 0 {
      RunAsWrittenRefines(states, steps, k - 1);
      assert Harmless(states[k - 1], steps[k - 1]);
    }
    assert FollowsAsWritten(states[k], steps[k], states[k + 1]);
    StepAsWrittenExact(states[k], steps[k], states[k + 1]);
  }

  // ---------------------------------------------------------------- a run that harms

  /** Two frames, both free, and two processes with no memory. */
  function Boot<T>(x: T): (s: State<T>) {
    State([x, x], [0, 0], [map[], map[]], [Idle, Idle])
  }

  /** A run from s to t. */
  ghost predicate RunsTo<T>(states: seq<State<T>>, steps: seq<Step<T>>, s: State<T>, t: State<T>) {
    RunAsWritten(states, steps) && states[0] == s && states[|steps|] == t
  }

  /** One more step. */
  lemma Extend<T>(states: seq<State<T>>, steps: seq<Step<T>>, s: State<T>, t: State<T>, step: Step<T>, u: State<T>)
    returns (states': seq<State<T>>, steps': seq<Step<T>>)
    requires RunsTo(states, steps, s, t) && FollowsAsWritten(t, step, u)
    ensures RunsTo(states', steps', s, u)
  {
    states', steps' := states + [u], steps + [step];
    forall i | 0 <= i < |steps'|
      ensures FollowsAsWritten(states'[i], steps'[i], states'[i + 1])
    {
      assert i < |steps| ==> FollowsAsWritten(states[i], steps[i], states[i + 1]);
    }
  }

  /** Process 0 gets a page that holds x. */
  lemma GetPage<T>(x: T, fl: nat, t: Table) returns (states: seq<State<T>>, steps: seq<Step<T>>)
    requires t == map[0 := Pte(0, true, false, fl)]
    ensures RunsTo(states, steps, Boot(x), State([x, x], [1, 0], [t, map[]], [Idle, Idle]))
  {
    var s0, s1, s2 :=
      Boot(x),
      State([x, x], [1, 0], [map[], map[]], [Zeroing(0, 0), Idle]),
      State([x, x], [1, 0], [t, map[]], [Idle, Idle]);
    assert RunsTo([s0], [], s0, s0);
    assert FollowsAsWritten(s0, LazyTake(0, 0, 0, x), s1);
    states, steps := Extend([s0], [], s0, s0, LazyTake(0, 0, 0, x), s1);
    assert FollowsAsWritten(s1, LazyMap(0, x, true, fl), s2);
    states, steps := Extend(states, steps, s0, s1, LazyMap(0, x, true, fl), s2);
  }

  lemma ShareStarts<T>(x: T, fl: nat, t: Table, u: Table)
    requires t == map[0 := Pte(0, true, false, fl)] && u == map[0 := Pte(0, false, true, fl)]
    ensures FollowsAsWritten(State([x, x], [1, 0], [t, map[]], [Idle, Idle]), ForkStart(0, 1),
                             State([x, x], [1, 0], [t, map[]], [Forking(1), Embryo(0)]))
    ensures FollowsAsWritten(State([x, x], [1, 0], [t, map[]], [Forking(1), Embryo(0)]), ForkMark(0, 0),
                             State([x, x], [1, 0], [u, map[]], [Forking(1), Embryo(0)]))
  {
    assert t[0 := t[0].(w := false, cow := true)] == u;
  }

  lemma ShareEnds<T>(x: T, fl: nat, u: Table)
    requires u == map[0 := Pte(0, false, true, fl)]
    ensures FollowsAsWritten(State([x, x], [1, 0], [u, map[]], [Forking(1), Embryo(0)]), ForkMap(0, 0),
                             State([x, x], [1, 0], [u, u], [Forking(1), Sharing(0, 0)]))
    ensures FollowsAsWritten(State([x, x], [1, 0], [u, u], [Forking(1), Sharing(0, 0)]), ForkCount(0),
                             State([x, x], [2, 0], [u, u], [Forking(1), Embryo(0)]))
    ensures FollowsAsWritten(State([x, x], [2, 0], [u, u], [Forking(1), Embryo(0)]), ForkEnd(0), Shared(x, u))
  {
  }

  /** Processes 0 and 1 share frame 0. */
  function Shared<T>(x: T, u: Table): (s: State<T>) {
    State([x, x], [2, 0], [u, u], [Idle, Idle])
  }

  /** Process 0 gets a page and forks process 1. */
  lemma ForkRun<T>(x: T, fl: nat, u: Table) returns (states: seq<State<T>>, steps: seq<Step<T>>)
    requires u == map[0 := Pte(0, false, true, fl)]
    ensures RunsTo(states, steps, Boot(x), Shared(x, u))
  {
    var t := map[0 := Pte(0, true, false, fl)];
    ShareStarts(x, fl, t, u);
    ShareEnds(x, fl, u);
    var b := Boot(x);
    var s2, s3, s4, s5, s6 :=
      State([x, x], [1, 0], [t, map[]], [Idle, Idle]),
      State([x, x], [1, 0], [t, map[]], [Forking(1), Embryo(0)]),
      State([x, x], [1, 0], [u, map[]], [Forking(1), Embryo(0)]),
      State([x, x], [1, 0], [u, u], [Forking(1), Sharing(0, 0)]),
      State([x, x], [2, 0], [u, u], [Forking(1), Embryo(0)]);
    states, steps := GetPage(x, fl, t);
    states, steps := Extend(states, steps, b, s2, ForkStart(0, 1), s3);
    states, steps := Extend(states, steps, b, s3, ForkMark(0, 0), s4);
    states, steps := Extend(states, steps, b, s4, ForkMap(0, 0), s5);
    states, steps := Extend(states, steps, b, s5, ForkCount(0), s6);
    states, steps := Extend(states, steps, b, s6, ForkEnd(0), Shared(x, u));
  }

  lemma FaultSteps<T>(x: T, fl: nat, u: Table, w: Table)
    requires u == map[0 := Pte(0, false, true, fl)] && w == map[0 := Pte(1, true, false, fl)]
    ensures FollowsAsWritten(Shared(x, u), FaultTake(0, 0, 1, x), State([x, x], [2, 1], [u, u], [Taking(0, 1), Idle]))
    ensures FollowsAsWritten(State([x, x], [2, 1], [u, u], [Taking(0, 1), Idle]), FaultCopy(0),
                             State([x, x], [2, 1], [u, u], [Copied(0, 1), Idle]))
    ensures FollowsAsWritten(State([x, x], [2, 1], [u, u], [Copied(0, 1), Idle]), FaultInstall(0),
                             State([x, x], [2, 1], [w, u], [Dropping(0), Idle]))
  {
    assert u[0 := u[0].(frame := 1, w := true, cow := false)] == w;
  }

  /** Process q has x in its page 0 before the last step of the run, which another process makes, and junk
      after it. */
  ghost predicate TurnsToJunk<T>(states: seq<State<T>>, steps: seq<Step<T>>, q: nat, x: T, junk: T) {
    RunAsWritten(states, steps) && steps != [] && steps[|steps| - 1].p != q &&
    var s, s' := states[|steps| - 1], states[|steps|];
    && q < |s.pte| == |s.act| == |s'.pte| == |s'.act| && InRange(s.pte, |s.page|) && InRange(s'.pte, |s'.page|)
    && 0 in Looks(s)[q] && Looks(s)[q][0].data == x
    && 0 in Looks(s')[q] && Looks(s')[q][0].data == junk
  }

  lemma LastDrop<T>(states: seq<State<T>>, steps: seq<Step<T>>, b: State<T>, s: State<T>, step: Step<T>, s': State<T>,
                    q: nat, x: T, junk: T)
    returns (states': seq<State<T>>, steps': seq<Step<T>>)
    requires RunsTo(states, steps, b, s) && FollowsAsWritten(s, step, s') && step.p != q
    requires q < |s.pte| == |s.act| == |s'.pte| == |s'.act| && InRange(s.pte, |s.page|) && InRange(s'.pte, |s'.page|)
    requires 0 in Looks(s)[q] && Looks(s)[q][0].data == x && 0 in Looks(s')[q] && Looks(s')[q][0].data == junk
    ensures TurnsToJunk(states', steps', q, x, junk) && states'[0] == b
  {
    states', steps' := states + [s'], steps + [step];
    forall i | 0 <= i < |steps'|
      ensures FollowsAsWritten(states'[i], steps'[i], states'[i + 1])
    {
      assert i < |steps| ==> FollowsAsWritten(states[i], steps[i], states[i + 1]);
    }
  }

  /** Process 0, about to drop the shared frame at the end of its store fault. */
  function Faulted<T>(x: T, u: Table, w: Table): (s: State<T>) {
    State([x, x], [2, 1], [w, u], [Dropping(0), Idle])
  }

  /** Process 0 gets a page, forks process 1 and stores to the page. */
  lemma FaultRun<T>(x: T, fl: nat, u: Table, w: Table) returns (states: seq<State<T>>, steps: seq<Step<T>>)
    requires u == map[0 := Pte(0, false, true, fl)] && w == map[0 := Pte(1, true, false, fl)]
    ensures RunsTo(states, steps, Boot(x), Faulted(x, u, w))
  {
    FaultSteps(x, fl, u, w);
    var b := Boot(x);
    var s1, s2 :=
      State([x, x], [2, 1], [u, u], [Taking(0, 1), Idle]),
      State([x, x], [2, 1], [u, u], [Copied(0, 1), Idle]);
    states, steps := ForkRun(x, fl, u);
    states, steps := Extend(states, steps, b, Shared(x, u), FaultTake(0, 0, 1, x), s1);
    states, steps := Extend(states, steps, b, s1, FaultCopy(0), s2);
    states, steps := Extend(states, steps, b, s2, FaultInstall(0), Faulted(x, u, w));
  }

  /** Process 0 gets a page, forks process 1 and stores to the page: as kfree is written, its fault puts junk
      into the page of process 1. */
  lemma StoreFaultHarms<T>(x: T, junk: T, fl: nat) returns (states: seq<State<T>>, steps: seq<Step<T>>)
    requires x != junk
    ensures TurnsToJunk(states, steps, 1, x, junk) && states[0] == Boot(x)
  {
    var u, w := map[0 := Pte(0, false, true, fl)], map[0 := Pte(1, true, false, fl)];
    var s := State([junk, x], [1, 1], [w, u], [Idle, Idle]);
    states, steps := FaultRun(x, fl, u, w);
    states, steps := LastDrop(states, steps, Boot(x), Faulted(x, u, w), FaultDrop(0, junk), s, 1, x, junk);
  }

  /** Process 1 exits after the fork: uvmunmap puts junk into the page of process 0. */
  lemma ExitHarms<T>(x: T, junk: T, fl: nat) returns (states: seq<State<T>>, steps: seq<Step<T>>)
    requires x != junk
    ensures TurnsToJunk(states, steps, 0, x, junk) && states[0] == Boot(x)
  {
    var u := map[0 := Pte(0, false, true, fl)];
    var s := State([junk, x], [1, 0], [u, u], [Idle, Unmapping(0)]);
    states, steps := ForkRun(x, fl, u);
    states, steps := LastDrop(states, steps, Boot(x), Shared(x, u), UnmapFree(1, 0, junk), s, 0, x, junk);
  }

  /** The run starts where the invariant holds. */
  lemma BootInv<T>(x: T)
    ensures Inv(Boot(x))
  {
    EmptyInv(Boot(x));
  }
}
