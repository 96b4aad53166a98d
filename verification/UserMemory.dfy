/** The kernel paths of xv6/kernel/vm.c and trap.c that fork, fault, grow and unmap user memory, run
    without interruption by one process; CowMemory lets their steps interleave. */
module UserMemory {
  import opened EagerMemory
  import opened CowMemory

  class Vm<T> {
    var page: seq<T>
    var refcnt: seq<nat>
    var pte: seq<Table>
    var free: set<nat>         // frames on some free list
    ghost var act: seq<Act>
    const zero: T              // a page of zeroes
    const allocJunk: T         // what kalloc fills a page with
    const freeJunk: T          // what kfree fills a page with

    /** Memory of n free frames, and no pages in any of nproc processes. */
    constructor (n: nat, nproc: nat, zero: T, allocJunk: T, freeJunk: T)
      ensures Valid() && |pte| == |act| == nproc && |refcnt| == n
      ensures forall p :: 0 <= p < nproc ==> pte[p] == map[] && act[p].Idle?
    {
      this.zero, this.allocJunk, this.freeJunk := zero, allocJunk, freeJunk;
      page := seq(n, _ => freeJunk);
      refcnt := seq(n, _ => 0);
      pte := seq(nproc, _ => map[]);
      act := seq(nproc, _ => Idle);
      free := Below(n);
      new;
      EmptyInv(Now());
    }

    ghost function Now(): (s: State<T>)
      reads this
    {
      State(page, refcnt, pte, act)
    }

    ghost predicate Valid()
      reads this
    {
      Inv(Now()) && FreeExact(free, refcnt)
    }

    /** What each process sees. */
    ghost function Seen(): (a: Spaces<T>)
      requires Valid()
      reads this
    {
      Abs(Now())
    }

    /** kalloc: a free frame, counted once and filled with junk; -1 when there is none. */
    method Kalloc() returns (mem: int)
      requires |refcnt| == |page| && FreeExact(free, refcnt)
      modifies this`page, this`refcnt, this`free
      ensures mem == -1 <==> old(free) == {}
      ensures mem == -1 ==> unchanged(this)
      ensures mem != -1 ==>
        && 0 <= mem && IsFrame(old(Now()), mem) && old(refcnt)[mem] == 0
        && Now() == Take(old(Now()), mem, allocJunk) && FreeExact(free, refcnt)
      ensures mem != -1 ==> |free| + 1 == |old(free)|
    {
      if free == {} {
        return -1;
      }
      var f :| f in free;
      free := free - {f};
      refcnt, page := refcnt[f := 1], page[f := allocJunk];
      mem := f;
    }

    /** kfree: one reference less; the last one frees the frame. */
    method Kfree(f: nat)
      requires f < |refcnt| == |page| && refcnt[f] > 0 && FreeExact(free, refcnt)
      modifies this`page, this`refcnt, this`free
      ensures Now() == Drop(old(Now()), f, freeJunk) && FreeExact(free, refcnt)
    {
      refcnt := refcnt[f := refcnt[f] - 1];
      if refcnt[f] == 0 {
        page := page[f := freeJunk];
        free := free + {f};
      }
    }

    method Kaddref(f: nat)
      requires f < |refcnt| == |page| && refcnt[f] > 0 && FreeExact(free, refcnt)
      modifies this`refcnt
      ensures refcnt == old(refcnt)[f := old(refcnt)[f] + 1] && FreeExact(free, refcnt)
    {
      refcnt := refcnt[f := refcnt[f] + 1];
    }

    // The store fault of usertrap, one write at a time.

    method FaultTake(p: nat, v: nat) returns (mem: int)
      requires Valid() && p < |pte| && act[p].Idle? && v in pte[p] && pte[p][v].cow
      modifies this`page, this`refcnt, this`free, this`act
      ensures Valid() && Seen() == old(Seen())
      ensures mem == -1 <==> old(free) == {}
      ensures if mem == -1 then act == old(act) else mem >= 0 && act == old(act)[p := Taking(v, mem)]
    {
      ghost var s := Now();
      mem := Kalloc();
      if mem != -1 {
        act := act[p := Taking(v, mem)];
        QuietStep(s, Step.FaultTake(p, v, mem, allocJunk), Now());
      }
    }

    method FaultCopy(p: nat, v: nat, mem: nat)
      requires Valid() && p < |pte| && act[p] == Taking(v, mem)
      modifies this`page, this`act
      ensures Valid() && Seen() == old(Seen()) && act == old(act)[p := Copied(v, mem)]
    {
      ghost var s := Now();
      TakingReady(s, p, v, mem);
      page := page[mem := page[pte[p][v].frame]];
      act := act[p := Copied(v, mem)];
      CopyUnnoticed(s, p, v, mem, Now());
    }

    method FaultInstall(p: nat, v: nat, mem: nat) returns (oldf: nat)
      requires Valid() && p < |pte| && act[p] == Copied(v, mem)
      modifies this`pte, this`act
      ensures Valid() && Seen() == old(Seen()) && act == old(act)[p := Dropping(oldf)]
      ensures |pte| == |old(pte)| && v in pte[p] && pte[p][v].w && !pte[p][v].cow
    {
      ghost var s := Now();
      PathsProceed(s, p, freeJunk);
      oldf := pte[p][v].frame;
      pte := pte[p := pte[p][v := pte[p][v].(frame := mem, w := true, cow := false)]];
      act := act[p := Dropping(oldf)];
      QuietStep(s, Step.FaultInstall(p), Now());
    }

    method FaultDrop(p: nat, oldf: nat)
      requires Valid() && p < |pte| && act[p] == Dropping(oldf)
      modifies this`page, this`refcnt, this`free, this`act
      ensures Valid() && Seen() == old(Seen()) && act == old(act)[p := Idle]
    {
      ghost var s := Now();
      PathsProceed(s, p, freeJunk);
      Kfree(oldf);
      act := act[p := Idle];
      QuietStep(s, Step.FaultDrop(p, freeJunk), Now());
    }

    /** A store page fault on a copy-on-write page: the process gets a copy of its own, writable; it is
        killed only when no frame is free. No process sees any difference. */
    method CowFault(p: nat, v: nat) returns (killed: bool)
      requires Valid() && p < |pte| && act[p].Idle? && v in pte[p] && pte[p][v].cow
      modifies this`page, this`refcnt, this`free, this`pte, this`act
      ensures Valid() && Seen() == old(Seen()) && act == old(act) && |pte| == |old(pte)|
      ensures killed <==> old(free) == {}
      ensures !killed ==> v in pte[p] && pte[p][v].w && !pte[p][v].cow
    {
      var mem := FaultTake(p, v);
      if mem == -1 {
        return true;
      }
      FaultCopy(p, v, mem);
      var oldf := FaultInstall(p, v, mem);
      FaultDrop(p, oldf);
      killed := false;
    }

    // uvmcopy, one write at a time.

    method ForkMark(p: nat, c: nat, v: nat)
      requires Valid() && FillsChild(act, p, c) && v in pte[p]
      modifies this`pte
      ensures Valid() && Seen() == old(Seen())
      ensures |pte| == |old(pte)| && pte[c] == old(pte)[c] && pte[p].Keys == old(pte)[p].Keys && !pte[p][v].w
    {
      ghost var s := Now();
      if pte[p][v].w {
        pte := pte[p := pte[p][v := pte[p][v].(w := false, cow := true)]];
        QuietStep(s, Step.ForkMark(p, v), Now());
      }
    }

    method ForkMap(p: nat, c: nat, v: nat)
      requires Valid() && FillsChild(act, p, c) && v in pte[p] && !pte[p][v].w && v !in pte[c]
      modifies this`pte, this`act
      ensures Valid() && Seen() == old(Seen()) && act == old(act)[c := Sharing(p, v)]
      ensures pte == old(pte)[c := With(old(pte)[c], v, old(pte)[p][v])]
    {
      ghost var s := Now();
      pte := pte[c := With(pte[c], v, pte[p][v])];
      act := act[c := Sharing(p, v)];
      QuietStep(s, Step.ForkMap(p, v), Now());
    }

    method ForkCount(p: nat, c: nat, v: nat)
      requires Valid() && p < |act| && c < |act| && act[p] == Forking(c) && act[c] == Sharing(p, v)
      modifies this`refcnt, this`act
      ensures Valid() && Seen() == old(Seen()) && act == old(act)[c := Embryo(p)]
    {
      ghost var s := Now();
      SharingReady(s, p, c, v);
      SharedNext(s, p, c, v, pte[c][v].frame);
      Kaddref(pte[c][v].frame);
      act := act[c := Embryo(p)];
      QuietStep(s, Step.ForkCount(p), Now());
    }

    /** uvmcopy's loop body for page v; `room` is whether mappages finds the table pages it needs. */
    method SharePage(p: nat, c: nat, v: nat, room: bool) returns (ok: bool)
      requires Valid() && p != c && FillsChild(act, p, c) && v !in pte[c]
      modifies this`refcnt, this`pte, this`act
      ensures Valid() && Seen() == old(Seen()) && act == old(act)
      ensures |pte| == |old(pte)| && pte[p].Keys == old(pte)[p].Keys
      ensures ok == (v !in old(pte)[p] || room)
      ensures pte[c].Keys == old(pte)[c].Keys + if v in old(pte)[p] && room then {v} else {}
    {
      if v !in pte[p] {
        return true;
      }
      ForkMark(p, c, v);
      if !room {
        return false;
      }
      ForkMap(p, c, v);
      ForkCount(p, c, v);
      ok := true;
    }

    method ForkUndo(p: nat, c: nat, v: nat)
      requires Valid() && p != c && FillsChild(act, p, c) && v in pte[c]
      modifies this`page, this`refcnt, this`free, this`act
      ensures Valid() && Seen() == old(Seen()) && act == old(act)[c := Discarding(p, v)]
    {
      ghost var s := Now();
      UnmapProceeds(s, c, v);
      Kfree(pte[c][v].frame);
      act := act[c := Discarding(p, v)];
      QuietStep(s, Step.ForkUndo(p, v, freeJunk), Now());
    }

    method ForkUndone(p: nat, c: nat, v: nat)
      requires Valid() && p < |act| && c < |act| && act[p] == Forking(c) && act[c] == Discarding(p, v)
      modifies this`pte, this`act
      ensures Valid() && Seen() == old(Seen()) && act == old(act)[c := Embryo(p)]
      ensures pte == old(pte)[c := Without(old(pte)[c], v)]
    {
      ghost var s := Now();
      pte := pte[c := Without(pte[c], v)];
      act := act[c := Embryo(p)];
      QuietStep(s, Step.ForkUndone(p), Now());
    }

    /** uvmcopy's error path: uvmunmap of the child's first n pages. */
    method DiscardPages(p: nat, c: nat, n: nat)
      requires Valid() && p != c && FillsChild(act, p, c) && forall v :: v in pte[c] ==> v < n
      modifies this`page, this`refcnt, this`free, this`pte, this`act
      ensures Valid() && Seen() == old(Seen()) && act == old(act)
      ensures |pte| == |old(pte)| && pte[c] == map[]
    {
      var v := 0;
      while v < n
        invariant v <= n && Valid() && Seen() == old(Seen()) && act == old(act) && |pte| == |old(pte)|
        invariant forall u :: u in pte[c] ==> v <= u < n
      {
        if v in pte[c] {
          ForkUndo(p, c, v);
          ForkUndone(p, c, v);
        }
        v := v + 1;
      }
    }

    method ForkStart(p: nat, c: nat)
      requires Valid() && p < |act| && c < |act| && p != c && act[p].Idle? && act[c].Idle? && pte[c] == map[]
      modifies this`act
      ensures Valid() && Seen() == old(Seen()) && FillsChild(act, p, c)
      ensures act == old(act)[p := Forking(c)][c := Embryo(p)]
    {
      ghost var s := Now();
      act := act[p := Forking(c)][c := Embryo(p)];
      QuietStep(s, Step.ForkStart(p, c), Now());
    }

    method ForkFail(p: nat, c: nat)
      requires Valid() && p != c && FillsChild(act, p, c) && pte[c] == map[]
      modifies this`act
      ensures Valid() && Seen() == old(Seen()) && act == old(act)[c := Idle][p := Idle]
    {
      ghost var s := Now();
      act := act[c := Idle][p := Idle];
      QuietStep(s, Step.ForkFail(p), Now());
    }

    method ForkEnd(p: nat, c: nat)
      requires Valid() && p != c && FillsChild(act, p, c) && pte[c].Keys == pte[p].Keys
      modifies this`act
      ensures Valid() && Seen() == old(Seen())[c := old(Seen())[p]] && act == old(act)[c := Idle][p := Idle]
      ensures pte[c] == pte[p] && forall v :: v in pte[p] ==> !pte[p][v].w
    {
      ghost var s := Now();
      FilledChild(s, p, c);
      act := act[c := Idle][p := Idle];
      StepRefines(s, Step.ForkEnd(p), Now());
    }

    /** uvmcopy's loop, with its error path. */
    method SharePages(p: nat, c: nat, sz: nat, failAt: nat) returns (ok: bool)
      requires Valid() && p != c && FillsChild(act, p, c) && pte[c] == map[] && forall v :: v in pte[p] ==> v < sz
      modifies this`page, this`refcnt, this`free, this`pte, this`act
      ensures Valid() && Seen() == old(Seen()) && act == old(act) && |pte| == |old(pte)|
      ensures ok <==> failAt !in old(pte)[p]
      ensures if ok then pte[c].Keys == pte[p].Keys else pte[c] == map[]
    {
      ghost var parent := pte[p].Keys;
      var i := 0;
      while i < sz
        invariant i <= sz && Valid() && Seen() == old(Seen()) && act == old(act) && |pte| == |old(pte)|
        invariant pte[p].Keys == parent && (failAt in parent ==> i <= failAt)
        invariant forall v :: v in pte[c].Keys <==> v in parent && v < i
      {
        ok := SharePage(p, c, i, i != failAt);
        if !ok {
          DiscardPages(p, c, i);
          return;
        }
        i := i + 1;
      }
      assert pte[c].Keys == parent;
      ok := true;
    }

    /** uvmcopy: the child sees what the parent sees, and no other process sees any difference; when
        mappages fails at page `failAt`, no process does. */
    method Uvmcopy(p: nat, c: nat, sz: nat, failAt: nat) returns (ok: bool)
      requires Valid() && p < |act| && c < |act| && p != c && act[p].Idle? && act[c].Idle? && pte[c] == map[]
      requires forall v :: v in pte[p] ==> v < sz
      modifies this`page, this`refcnt, this`free, this`pte, this`act
      ensures Valid() && act == old(act)
      ensures ok <==> failAt !in old(pte)[p]
      ensures Seen() == if ok then old(Seen())[c := old(Seen())[p]] else old(Seen())
      ensures |pte| == |old(pte)|
      ensures if ok then pte[c] == pte[p] && (forall v :: v in pte[p] ==> !pte[p][v].w) else pte[c] == map[]
    {
      ForkStart(p, c);
      IdleAgain(old(act), p, c, act);
      ok := SharePages(p, c, sz, failAt);
      if ok {
        ForkEnd(p, c);
      } else {
        ForkFail(p, c);
      }
    }

    // vmfault and uvmalloc, one write at a time.

    method LazyTake(p: nat, v: nat) returns (mem: int)
      requires Valid() && p < |pte| && act[p].Idle? && v !in pte[p]
      modifies this`page, this`refcnt, this`free, this`act
      ensures Valid() && Seen() == old(Seen())
      ensures mem == -1 <==> old(free) == {}
      ensures if mem == -1 then act == old(act) && free == old(free)
              else mem >= 0 && act == old(act)[p := Zeroing(v, mem)]
      ensures mem != -1 ==> |free| + 1 == |old(free)|
    {
      ghost var s := Now();
      mem := Kalloc();
      if mem != -1 {
        act := act[p := Zeroing(v, mem)];
        QuietStep(s, Step.LazyTake(p, v, mem, allocJunk), Now());
      }
    }

    method LazyMap(p: nat, v: nat, mem: nat, w: bool, fl: nat)
      requires Valid() && p < |pte| && act[p] == Zeroing(v, mem)
      modifies this`page, this`pte, this`act
      ensures Valid() && |pte| == |old(pte)| && act == old(act)[p := Idle]
      ensures v !in old(Seen())[p] && Seen() == old(Seen())[p := With(old(Seen())[p], v, Page(zero, w, fl))]
      ensures v !in old(pte)[p] && pte == old(pte)[p := With(old(pte)[p], v, Pte(mem, w, false, fl))]
    {
      ghost var s := Now();
      ZeroingHas(s, p, v, mem);
      page := page[mem := zero];
      pte := pte[p := With(pte[p], v, Pte(mem, w, false, fl))];
      act := act[p := Idle];
      LazyMapped(s, p, v, mem, zero, w, fl, Now());
    }

    method LazyFail(p: nat, v: nat, mem: nat)
      requires Valid() && p < |pte| && act[p] == Zeroing(v, mem)
      modifies this`page, this`refcnt, this`free, this`act
      ensures Valid() && Seen() == old(Seen()) && act == old(act)[p := Idle]
    {
      ghost var s := Now();
      PathsProceed(s, p, freeJunk);
      Kfree(mem);
      act := act[p := Idle];
      QuietStep(s, Step.LazyFail(p, freeJunk), Now());
    }

    /** A new zeroed page at v, unless no frame is free or mappages fails. */
    method AddPage(p: nat, v: nat, w: bool, fl: nat, room: bool) returns (ok: bool)
      requires Valid() && p < |pte| && act[p].Idle? && v !in pte[p]
      modifies this`page, this`refcnt, this`free, this`pte, this`act
      ensures Valid() && |pte| == |old(pte)| && act == old(act)
      ensures ok <==> old(free) != {} && room
      ensures v !in old(Seen())[p]
      ensures Seen() == if ok then old(Seen())[p := With(old(Seen())[p], v, Page(zero, w, fl))] else old(Seen())
      ensures if ok then v in pte[p] && pte[p][v].w == w else pte == old(pte)
      ensures if ok then |free| + 1 == |old(free)| else old(free) == {} ==> free == {}
      ensures CowPages(pte[p]) == CowPages(old(pte)[p])
    {
      InTable(Now(), p, v);
      var mem := LazyTake(p, v);
      if mem == -1 {
        return false;
      }
      if !room {
        LazyFail(p, v, mem);
        return false;
      }
      ghost var t := pte[p];
      LazyMap(p, v, mem, w, fl);
      CowPagesWith(t, v, pte[p][v]);
      ok := true;
    }

    /** vmfault at address va of a process of sz bytes: a zeroed writable page, unless va is out of range or
        its page mapped, no frame is free, or mappages fails. */
    method Vmfault(p: nat, va: nat, sz: nat, room: bool) returns (ok: bool)
      requires Valid() && p < |pte| && act[p].Idle?
      modifies this`page, this`refcnt, this`free, this`pte, this`act
      ensures Valid() && |pte| == |old(pte)| && act == old(act)
      ensures ok <==> va < sz && PageOf(va) !in old(Seen())[p] && old(free) != {} && room
      ensures Seen() == if ok then old(Seen())[p := With(old(Seen())[p], PageOf(va), Page(zero, true, USER_READ))]
                        else old(Seen())
      ensures if ok then PageOf(va) in pte[p] && pte[p][PageOf(va)].w else pte == old(pte)
      ensures if ok then |free| + 1 == |old(free)| else old(free) == {} ==> free == {}
      ensures CowPages(pte[p]) == CowPages(old(pte)[p])
    {
      var v := PageOf(va);
      InTable(Now(), p, v);
      if va >= sz || v in pte[p] {
        return false;
      }
      ok := AddPage(p, v, true, USER_READ, room);
    }

    // uvmunmap, one write at a time.

    method UnmapFree(p: nat, v: nat)
      requires Valid() && p < |pte| && act[p].Idle? && v in pte[p]
      modifies this`page, this`refcnt, this`free, this`act
      ensures Valid() && act == old(act)[p := Unmapping(v)]
      ensures v in old(Seen())[p] && Seen() == old(Seen())[p := Without(old(Seen())[p], v)]
    {
      ghost var s := Now();
      UnmapProceeds(s, p, v);
      Kfree(pte[p][v].frame);
      act := act[p := Unmapping(v)];
      StepRefines(s, Step.UnmapFree(p, v, freeJunk), Now());
    }

    method UnmapClear(p: nat, v: nat)
      requires Valid() && p < |pte| && act[p] == Unmapping(v)
      modifies this`pte, this`act
      ensures Valid() && Seen() == old(Seen()) && act == old(act)[p := Idle]
      ensures pte == old(pte)[p := Without(old(pte)[p], v)]
    {
      ghost var s := Now();
      pte := pte[p := Without(pte[p], v)];
      act := act[p := Idle];
      QuietStep(s, Step.UnmapClear(p), Now());
    }

    /** uvmunmap's loop body: page v is gone, if it was there. */
    method UnmapPage(p: nat, v: nat)
      requires Valid() && p < |pte| && act[p].Idle?
      modifies this`page, this`refcnt, this`free, this`pte, this`act
      ensures Valid() && |pte| == |old(pte)| && act == old(act)
      ensures Seen() == old(Seen())[p := Without(old(Seen())[p], v)]
    {
      InTable(Now(), p, v);
      if v in pte[p] {
        UnmapFree(p, v);
        UnmapClear(p, v);
      } else {
        assert Without(Seen()[p], v) == Seen()[p];
      }
    }

    /** uvmunmap with do_free: pages [from, from + n) of process p are gone, those it had; nothing else
        any process sees has changed. */
    method Uvmunmap(p: nat, from: nat, n: nat)
      requires Valid() && p < |pte| && act[p].Idle?
      modifies this`page, this`refcnt, this`free, this`pte, this`act
      ensures Valid() && |pte| == |old(pte)| && act == old(act)
      ensures Seen() == old(Seen())[p := Outside(old(Seen())[p], from, from + n)]
    {
      var v := from;
      ghost var m := Seen()[p];
      assert Outside(m, from, from) == m;
      while v < from + n
        invariant from <= v <= from + n && Valid() && |pte| == |old(pte)| && act == old(act)
        invariant Seen() == old(Seen())[p := Outside(m, from, v)]
      {
        UnmapPage(p, v);
        OutsideNext(m, from, v);
        v := v + 1;
      }
    }

    /** A store page fault at va: copy-on-write if the page is so marked, else lazy allocation. Either the
        process can now store there, or it is killed; memory as processes see it gains at most the zeroed
        page. */
    method StoreFault(p: nat, va: nat, sz: nat, room: bool) returns (killed: bool)
      requires Valid() && p < |pte| && act[p].Idle?
      modifies this`page, this`refcnt, this`free, this`pte, this`act
      ensures Valid() && |pte| == |old(pte)| && act == old(act)
      ensures !killed ==> PageOf(va) in pte[p] && pte[p][PageOf(va)].w
      ensures Seen() == if !killed && PageOf(va) !in old(Seen())[p]
                        then old(Seen())[p := With(old(Seen())[p], PageOf(va), Page(zero, true, USER_READ))]
                        else old(Seen())
      ensures killed <==>
        if PageOf(va) in old(Seen())[p] then !old(pte)[p][PageOf(va)].cow || old(free) == {}
        else va >= sz || old(free) == {} || !room
    {
      var v := PageOf(va);
      InTable(Now(), p, v);
      if v in pte[p] && pte[p][v].cow {
        killed := CowFault(p, v);
      } else {
        var ok := Vmfault(p, va, sz, room);
        killed := !ok;
      }
    }

    /** uvmdealloc: the pages that lie wholly above newsz are gone. */
    method Uvmdealloc(p: nat, oldsz: nat, newsz: nat) returns (sz: nat)
      requires Valid() && p < |pte| && act[p].Idle?
      modifies this`page, this`refcnt, this`free, this`pte, this`act
      ensures Valid() && |pte| == |old(pte)| && act == old(act)
      ensures sz == if newsz >= oldsz then oldsz else newsz
      ensures Seen() == old(Seen())[p := Outside(old(Seen())[p], Pages(newsz), Pages(oldsz))]
    {
      if newsz >= oldsz {
        OutsideNothing(Seen()[p], Pages(newsz), Pages(oldsz));
        return oldsz;
      }
      if Pages(newsz) < Pages(oldsz) {
        Uvmunmap(p, Pages(newsz), Pages(oldsz) - Pages(newsz));
      } else {
        OutsideNothing(Seen()[p], Pages(newsz), Pages(oldsz));
      }
      sz := newsz;
    }

    /** uvmalloc's loop body at page a, since Seen() was `was`: one more page, or back to `was`. */
    method GrowPage(p: nat, lo: nat, a: nat, next: nat, w: bool, fl: nat, room: bool, ghost was: Spaces<T>)
      returns (ok: bool)
      requires Valid() && p < |pte| && act[p].Idle? && lo <= a && next == a + 1
      requires p < |was| && (forall v :: v in was[p] ==> v < lo) && GrownTo(was, Seen(), p, lo, a, Page(zero, w, fl))
      modifies this`page, this`refcnt, this`free, this`pte, this`act
      ensures Valid() && |pte| == |old(pte)| && act == old(act)
      ensures if ok then GrownTo(was, Seen(), p, lo, next, Page(zero, w, fl)) else Seen() == was
      ensures ok <==> old(free) != {} && room
      ensures ok ==> |free| + 1 == |old(free)|
    {
      GrownNext(was, p, lo, a, Page(zero, w, fl));
      InTable(Now(), p, a);
      ok := AddPage(p, a, w, fl, room);
      if !ok {
        TakeBack(p, lo, a, Page(zero, w, fl), was);
      }
    }

    /** Its error path. */
    method TakeBack(p: nat, lo: nat, a: nat, ghost x: Page<T>, ghost was: Spaces<T>)
      requires Valid() && p < |pte| && act[p].Idle? && lo <= a
      requires p < |was| && (forall v :: v in was[p] ==> v < lo) && Seen() == was[p := Extended(was[p], lo, a, x)]
      modifies this`page, this`refcnt, this`free, this`pte, this`act
      ensures Valid() && |pte| == |old(pte)| && act == old(act) && Seen() == was
    {
      GrownBack(was, p, lo, a, x);
      Uvmunmap(p, lo, a - lo);
    }

    /** uvmalloc's loop. */
    method GrowAll(p: nat, lo: nat, hi: nat, w: bool, fl: nat, failAt: nat, ghost was: Spaces<T>) returns (ok: bool)
      requires Valid() && p < |pte| && act[p].Idle? && lo <= hi && p < |was| && Seen() == was
      requires forall v :: v in was[p] ==> v < lo
      modifies this`page, this`refcnt, this`free, this`pte, this`act
      ensures Valid() && |pte| == |old(pte)| && act == old(act)
      ensures if ok then GrownTo(was, Seen(), p, lo, hi, Page(zero, w, fl)) else Seen() == was
      ensures !ok ==> lo <= failAt < hi || |old(free)| < hi - lo
    {
      ghost var now, x := was, Page(zero, w, fl);
      GrownNone(was, p, lo, x);
      var a := lo;
      ok := true;
      while a < hi
        invariant ok && lo <= a <= hi && Valid() && |pte| == |old(pte)| && act == old(act)
        invariant now == Seen() && GrownTo(was, now, p, lo, a, x)
        invariant |free| + a - lo == |old(free)|
      {
        var next := a + 1;
        ok := GrowPage(p, lo, a, next, w, fl, a != failAt, was);
        if !ok {
          return;
        }
        now, a := Seen(), next;
      }
    }

    /** uvmalloc: zeroed pages up to newsz, or none of them when frames run out or mappages fails. */
    method Uvmalloc(p: nat, oldsz: nat, newsz: nat, w: bool, fl: nat, failAt: nat) returns (sz: nat)
      requires Valid() && p < |pte| && act[p].Idle? && forall v :: v in pte[p] ==> v < Pages(oldsz)
      modifies this`page, this`refcnt, this`free, this`pte, this`act
      ensures Valid() && |pte| == |old(pte)| && act == old(act)
      ensures sz == (if newsz < oldsz then oldsz else newsz) || (sz == 0 && newsz > oldsz)
      ensures sz == 0 && newsz > 0 ==>
        Pages(oldsz) <= failAt < Pages(newsz) || |old(free)| < Pages(newsz) - Pages(oldsz)
      ensures Seen() == if newsz >= oldsz && sz == newsz
                        then old(Seen())[p := Extended(old(Seen())[p], Pages(oldsz), Pages(newsz), Page(zero, w, fl))]
                        else old(Seen())
    {
      if newsz < oldsz {
        return oldsz;
      }
      ghost var was := Seen();
      forall v | v in was[p] ensures v < Pages(oldsz) { InTable(Now(), p, v); }
      var ok := GrowAll(p, Pages(oldsz), Pages(newsz), w, fl, failAt, was);
      sz := if ok then newsz else 0;
    }

    /** copyout's lookup of page v: walkaddr, and vmfault if that finds nothing. */
    method FindPage(p: nat, v: nat, sz: nat, room: bool) returns (ok: bool)
      requires Valid() && p < |pte| && act[p].Idle?
      modifies this`page, this`refcnt, this`free, this`pte, this`act
      ensures Valid() && |pte| == |old(pte)| && act == old(act)
      ensures ok <==> if v in old(Seen())[p] then IsUser(old(pte)[p][v].fl)
                      else v * PGSIZE < sz && old(free) != {} && room
      ensures Seen() == if ok then old(Seen())[p := Mapped(old(Seen())[p], v, zero)] else old(Seen())
      ensures ok ==> v in pte[p] && (pte[p][v].w <==> v !in old(Seen())[p] || old(pte)[p][v].w)
      ensures !ok || v in old(Seen())[p] ==> pte == old(pte)
      ensures ok ==> |free| + (if v in old(Seen())[p] then 0 else 1) == |old(free)|
      ensures old(free) == {} ==> free == {}
      ensures CowPages(pte[p]) == CowPages(old(pte)[p])
    {
      InTable(Now(), p, v);
      PageStart(v);
      ok := true;
      if v !in pte[p] || !IsUser(pte[p][v].fl) {
        ok := Vmfault(p, v * PGSIZE, sz, room);
      }
    }

    /** copyout's loop body for page v, whose contents become put(contents); false where it returns -1.
        A page is refused unless its entry is writable, so a copy-on-write page is. */
    method CopyoutPage(p: nat, v: nat, sz: nat, room: bool, put: T -> T) returns (ok: bool)
      requires Valid() && p < |pte| && act[p].Idle?
      modifies this`page, this`refcnt, this`free, this`pte, this`act
      ensures Valid() && |pte| == |old(pte)| && act == old(act)
      ensures ok <==> if v in old(Seen())[p] then IsUser(old(pte)[p][v].fl) && old(pte)[p][v].w
                      else v * PGSIZE < sz && old(free) != {} && room
      ensures Seen() == if ok then old(Seen())[p := Written(old(Seen())[p], v, zero, put)] else old(Seen())
      ensures !ok ==> pte == old(pte)
      ensures ok ==> |free| + (if v in old(Seen())[p] then 0 else 1) == |old(free)|
      ensures old(free) == {} ==> free == {}
      ensures CowPages(pte[p]) == CowPages(old(pte)[p])
    {
      ok := FindPage(p, v, sz, room);
      if ok {
        ok := WritePage(p, v, put);
      }
    }

    /** The rest of copyout's loop body, for a page that is there. */
    method WritePage(p: nat, v: nat, put: T -> T) returns (ok: bool)
      requires Valid() && p < |pte| && act[p].Idle? && v in pte[p]
      modifies this`page
      ensures Valid() && ok == pte[p][v].w && v in old(Seen())[p]
      ensures Seen() == if ok then old(Seen())[p := Written(old(Seen())[p], v, zero, put)] else old(Seen())
    {
      InTable(Now(), p, v);
      ok := pte[p][v].w;
      if ok {
        StoreTo(p, v, put(page[pte[p][v].frame]));
      }
    }

    method StoreTo(p: nat, v: nat, x: T)
      requires Valid() && p < |pte| && act[p].Idle? && v in pte[p] && pte[p][v].w
      modifies this`page
      ensures Valid() && v in old(Seen())[p]
      ensures Seen() == old(Seen())[p := With(old(Seen())[p], v, old(Seen())[p][v].(data := x))]
    {
      ghost var s := Now();
      InTable(s, p, v);
      page := page[pte[p][v].frame := x];
      StepRefines(s, Step.Store(p, v, x), Now());
    }
  }

  predicate IsUser(fl: nat) {
    fl / 16 % 2 == 1
  }

  /** Memory m with page v in it, a missing one zeroed. */
  function Mapped<T>(m: map<nat, Page<T>>, v: nat, zero: T): (m': map<nat, Page<T>>)
    ensures v in m'
  {
    if v in m then m else With(m, v, Page(zero, true, USER_READ))
  }

  /** Memory m with page v written. */
  function Written<T>(m: map<nat, Page<T>>, v: nat, zero: T, put: T -> T): (m': map<nat, Page<T>>) {
    var x := Mapped(m, v, zero)[v];
    With(Mapped(m, v, zero), v, x.(data := put(x.data)))
  }

  lemma ZeroingHas<T>(s: State<T>, p: nat, v: nat, mem: nat)
    requires Inv(s) && p < |s.act| && s.act[p] == Zeroing(v, mem)
    ensures mem < |s.page| && v !in s.pte[p]
  {
    assert ActOk(s.page, s.pte, s.act, p);
  }

  lemma LazyMapped<T>(s: State<T>, p: nat, v: nat, mem: nat, zero: T, w: bool, fl: nat, s': State<T>)
    requires Inv(s) && p < |s.pte| && s.act[p] == Zeroing(v, mem) && mem < |s.page| && v !in s.pte[p]
    requires s' == State(s.page[mem := zero], s.refcnt, s.pte[p := With(s.pte[p], v, Pte(mem, w, false, fl))],
                         s.act[p := Idle])
    ensures Inv(s') && v !in Abs(s)[p] && Abs(s') == Abs(s)[p := With(Abs(s)[p], v, Page(zero, w, fl))]
  {
    LazyReady(s, p, v, mem, zero, w, fl);
    StepRefines(s, Step.LazyMap(p, zero, w, fl), s');
  }

  /** The pages of a table that are marked copy-on-write. */
  ghost function CowPages(t: Table): (c: set<nat>) {
    set v | v in t && t[v].cow
  }

  lemma CowPagesWith(t: Table, v: nat, e: Pte)
    requires v !in t && !e.cow
    ensures CowPages(With(t, v, e)) == CowPages(t)
  {
  }

  /** The page an address is in. */
  function PageOf(va: nat): (v: nat) {
    va / PGSIZE
  }

  lemma PageStart(v: nat)
    ensures PageOf(v * PGSIZE) == v
  {
  }

  lemma FilledChild<T>(s: State<T>, p: nat, c: nat)
    requires Inv(s) && p != c && FillsChild(s.act, p, c) && s.pte[c].Keys == s.pte[p].Keys
    ensures Enabled(s, Step.ForkEnd(p)) && s.pte[c] == s.pte[p] && forall v :: v in s.pte[p] ==> !s.pte[p][v].w
  {
    assert ActOk(s.page, s.pte, s.act, c);
    assert forall v :: v in s.pte[p] ==> v in s.pte[c].Keys;
  }

  const PGSIZE: nat := 4096

  /** How many pages sz bytes lie in. */
  function Pages(sz: nat): nat {
    (sz + PGSIZE - 1) / PGSIZE
  }

  lemma OutsideNothing<X>(m: map<nat, X>, lo: nat, hi: nat)
    requires hi <= lo
    ensures Outside(m, lo, hi) == m
  {
  }

  /** m with x on each of [lo, hi). */
  ghost function Extended<X>(m: map<nat, X>, lo: nat, hi: nat, x: X): (r: map<nat, X>)
    decreases hi
  {
    if hi <= lo then m else With(Extended(m, lo, hi - 1, x), hi - 1, x)
  }

  lemma {:induction false} ExtendedKeys<X>(m: map<nat, X>, lo: nat, hi: nat, x: X)
    ensures forall v: nat :: v in Extended(m, lo, hi, x) <==> v in m || lo <= v < hi
    decreases hi
  {
    if lo < hi {
      ExtendedKeys(m, lo, hi - 1, x);
    }
  }

  lemma {:induction false} ExtendedOutside<X>(m: map<nat, X>, lo: nat, hi: nat, x: X)
    requires forall v :: v in m ==> v < lo
    ensures Outside(Extended(m, lo, hi, x), lo, hi) == m
    decreases hi
  {
    if lo < hi {
      ExtendedOutside(m, lo, hi - 1, x);
      ExtendedKeys(m, lo, hi - 1, x);
      var e := Extended(m, lo, hi - 1, x);
      assert Outside(With(e, hi - 1, x), lo, hi) == Outside(e, lo, hi - 1);
    }
  }

  /** now is was with pages [lo, a) added to process p. */
  ghost predicate GrownTo<X>(was: seq<map<nat, X>>, now: seq<map<nat, X>>, p: nat, lo: nat, a: nat, x: X) {
    p < |was| && now == was[p := Extended(was[p], lo, a, x)]
  }

  lemma GrownNone<X>(was: seq<map<nat, X>>, p: nat, lo: nat, x: X)
    requires p < |was|
    ensures GrownTo(was, was, p, lo, lo, x)
  {
    assert Extended(was[p], lo, lo, x) == was[p];
  }

  lemma GrownNext<X>(was: seq<map<nat, X>>, p: nat, lo: nat, a: nat, x: X)
    requires p < |was| && lo <= a && forall v :: v in was[p] ==> v < lo
    ensures a !in Extended(was[p], lo, a, x)
    ensures was[p := Extended(was[p], lo, a, x)][p := With(Extended(was[p], lo, a, x), a, x)] ==
            was[p := Extended(was[p], lo, a + 1, x)]
  {
    ExtendedKeys(was[p], lo, a, x);
    assert With(Extended(was[p], lo, a, x), a, x) == Extended(was[p], lo, a + 1, x);
  }

  /** Unmapping the pages a process grew by gives back what it had. */
  lemma GrownBack<X>(was: seq<map<nat, X>>, p: nat, lo: nat, a: nat, x: X)
    requires p < |was| && lo <= a && forall v :: v in was[p] ==> v < lo
    ensures a !in Extended(was[p], lo, a, x)
    ensures was[p := Extended(was[p], lo, a, x)][p := Outside(Extended(was[p], lo, a, x), lo, a)] == was
  {
    ExtendedKeys(was[p], lo, a, x);
    ExtendedOutside(was[p], lo, a, x);
  }

  const USER_READ: nat := 0x12   // PTE_U | PTE_R

  /** The part of m outside [lo, hi). */
  ghost function Outside<X>(m: map<nat, X>, lo: nat, hi: nat): (r: map<nat, X>) {
    map v | v in m && !(lo <= v < hi) :: m[v]
  }

  lemma OutsideNext<X>(m: map<nat, X>, lo: nat, v: nat)
    requires lo <= v
    ensures Outside(m, lo, v + 1) == Without(Outside(m, lo, v), v)
  {
  }

  lemma LazyReady<T>(s: State<T>, p: nat, v: nat, mem: nat, zero: T, w: bool, fl: nat)
    requires Inv(s) && p < |s.act| && s.act[p] == Zeroing(v, mem)
    ensures mem < |s.page| && Enabled(s, Step.LazyMap(p, zero, w, fl))
    ensures Apply(s, Step.LazyMap(p, zero, w, fl)) ==
      s.(page := s.page[mem := zero], pte := s.pte[p := With(s.pte[p], v, Pte(mem, w, false, fl))],
         act := s.act[p := Idle])
  {
    assert ActOk(s.page, s.pte, s.act, p);
  }

  /** An idle process sees exactly the pages in its table. */
  lemma InTable<T>(s: State<T>, p: nat, v: nat)
    requires Inv(s) && p < |s.pte| && s.act[p].Idle?
    ensures v in Abs(s)[p] <==> v in s.pte[p]
    ensures v in s.pte[p] ==> s.pte[p][v].frame < |s.page| && Abs(s)[p][v] == CowMemory.Seen(s.page, s.pte[p][v])
  {
  }

  /** p is in uvmcopy, between two pages. */
  predicate FillsChild(act: seq<Act>, p: nat, c: nat) {
    p < |act| && c < |act| && act[p] == Forking(c) && act[c] == Embryo(p)
  }

  lemma SharingReady<T>(s: State<T>, p: nat, c: nat, v: nat)
    requires Inv(s) && p < |s.act| && c < |s.act| && s.act[p] == Forking(c) && s.act[c] == Sharing(p, v)
    ensures Enabled(s, Step.ForkCount(p)) && v in s.pte[c] && s.pte[c][v].frame < |s.refcnt|
    ensures s.refcnt[s.pte[c][v].frame] > 0
  {
    assert ActOk(s.page, s.pte, s.act, c);
    HeldCounted(s, Entry(p, v), s.pte[p][v].frame);
  }

  lemma SharedNext<T>(s: State<T>, p: nat, c: nat, v: nat, f: nat)
    requires Enabled(s, Step.ForkCount(p)) && s.act[p] == Forking(c) && s.act[c] == Sharing(p, v)
    requires v in s.pte[c] && s.pte[c][v].frame == f < |s.refcnt|
    ensures Apply(s, Step.ForkCount(p)) == s.(refcnt := s.refcnt[f := s.refcnt[f] + 1], act := s.act[c := Embryo(p)])
  {
  }

  /** The frames below n. */
  function Below(n: nat): (s: set<nat>)
    ensures forall f: nat :: f in s <==> f < n
  {
    if n == 0 then {} else Below(n - 1) + {n - 1}
  }

  predicate IsQuiet<T>(step: Step<T>) {
    !step.ForkEnd? && !step.Store? && !step.LazyMap? && !step.UnmapFree?
  }

  /** A step no process notices. */
  ghost predicate Unnoticed<T>(s: State<T>, s': State<T>) {
    Inv(s) ==> Inv(s') && Abs(s') == Abs(s)
  }

  lemma IdleAgain(act: seq<Act>, p: nat, c: nat, act': seq<Act>)
    requires p < |act| && c < |act| && p != c && act[p].Idle? && act[c].Idle?
    requires act' == act[p := Forking(c)][c := Embryo(p)]
    ensures act'[c := Idle][p := Idle] == act
  {
  }

  lemma QuietStep<T>(s: State<T>, step: Step<T>, s': State<T>)
    requires Follows(s, step, s') && IsQuiet(step)
    ensures Unnoticed(s, s')
  {
    if Inv(s) {
      StepRefines(s, step, s');
    }
  }

  lemma TakingReady<T>(s: State<T>, p: nat, v: nat, mem: nat)
    requires Inv(s) && p < |s.act| && s.act[p] == Taking(v, mem)
    ensures mem < |s.page| && p < |s.pte| && v in s.pte[p] && s.pte[p][v].frame < |s.page|
  {
    assert ActOk(s.page, s.pte, s.act, p);
  }

  lemma CopyUnnoticed<T>(s: State<T>, p: nat, v: nat, mem: nat, s': State<T>)
    requires Inv(s) && p < |s.act| && s.act[p] == Taking(v, mem) && mem < |s.page|
    requires p < |s.pte| && v in s.pte[p] && s.pte[p][v].frame < |s.page|
    requires s' == s.(page := s.page[mem := s.page[s.pte[p][v].frame]], act := s.act[p := Copied(v, mem)])
    ensures Unnoticed(s, s')
  {
    QuietStep(s, Step.FaultCopy(p), s');
  }

  /** The free frames are those with count 0. */
  ghost predicate FreeExact(free: set<nat>, refcnt: seq<nat>) {
    forall f: nat :: f in free <==> f < |refcnt| && refcnt[f] == 0
  }
}
