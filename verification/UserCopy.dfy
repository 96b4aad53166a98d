/** copyout (xv6/kernel/vm.c) over bytes: its loop cuts the range at page boundaries. */
module UserCopy {
  import opened EagerMemory
  import opened UserMemory
  import Blocks

  type Byte = Blocks.Byte
  type Bytes = s: seq<Byte> | |s| == 4096 witness seq(4096, _ => 0)

  const MAXVA: nat := 0x40_0000_0000

  function OffsetOf(x: nat): (o: nat)
    ensures o < 4096 && x == PageOf(x) * 4096 + o
  {
    x % 4096
  }

  /** The byte at address x, 0 where no page is. */
  ghost function ByteAt(m: map<nat, Page<Bytes>>, x: nat): (b: Byte) {
    if PageOf(x) in m then m[PageOf(x)].data[OffsetOf(x)] else 0
  }

  /** m' is m with s copied to address va: no other byte differs, no page is lost or changes its permissions,
      and new pages lie in the range. */
  ghost predicate Copied(m: map<nat, Page<Bytes>>, m': map<nat, Page<Bytes>>, va: nat, s: seq<Byte>) {
    && (forall x: nat :: ByteAt(m', x) == CopiedByte(m, va, s, x))
    && (forall v: nat :: PageKept(m, m', va, s, v))
  }

  ghost predicate PageKept(m: map<nat, Page<Bytes>>, m': map<nat, Page<Bytes>>, va: nat, s: seq<Byte>, v: nat) {
    && (v in m ==> v in m' && m'[v].writable == m[v].writable && m'[v].fl == m[v].fl)
    && (v in m' && v !in m ==> PageOf(va) <= v && v * 4096 < va + |s|)
  }

  ghost function CopiedByte(m: map<nat, Page<Bytes>>, va: nat, s: seq<Byte>, x: nat): (b: Byte) {
    if va <= x < va + |s| then s[x - va] else ByteAt(m, x)
  }

  /** Which addresses the n bytes from offset o of page v have. */
  lemma InPage(v: nat, o: nat, n: nat, x: nat)
    requires o + n <= 4096
    ensures v * 4096 + o <= x < v * 4096 + o + n <==> PageOf(x) == v && o <= OffsetOf(x) < o + n
    ensures PageOf(x) == v ==> x - (v * 4096 + o) == OffsetOf(x) - o
  {
  }

  predicate IsZero(d: Bytes) {
    forall k :: 0 <= k < 4096 ==> d[k] == 0
  }

  // ---------------------------------------------------------------- copyout as a function

  type Memory = map<nat, Page<Bytes>>

  /** Memory m with s copied to offset o of page v, within that page; a missing page is zeroed first. */
  function Put(m: Memory, zero: Bytes, v: nat, o: nat, s: seq<Byte>): (m': Memory)
    requires o + |s| <= 4096
  {
    var m1 := Mapped(m, v, zero);
    With(m1, v, m1[v].(data := Blocks.Patched(m1[v].data, o, s)))
  }

  /** What a copy depends on besides memory: the process's size in bytes, and at which pages mappages finds
      the table pages it needs. */
  datatype Setting = Setting(zero: Bytes, sz: nat, room: nat -> bool)

  /** A copy stops at page v: it is out of range, or there and not a writable user page or one of `refused`,
      or not there and not to be had. */
  predicate Stops(m: Memory, refused: set<nat>, v: nat, c: Setting, frames: nat) {
    || v * PGSIZE >= MAXVA
    || (v in m && (!(IsUser(m[v].fl) && m[v].writable) || v in refused))
    || (v !in m && (v * PGSIZE >= c.sz || frames == 0 || !c.room(v)))
  }

  /** How many of n bytes at offset o lie in the page. */
  function PieceSize(o: nat, n: nat): (k: nat)
    requires o < 4096
  {
    if 4096 - o > n then n else 4096 - o
  }

  datatype Result = Result(m: Memory, done: nat)

  function FramesLeft(m: Memory, v: nat, frames: nat): (k: nat) {
    if v in m || frames == 0 then frames else frames - 1
  }

  /** Page by page from offset o of page v, src is copied until it is done or the copy stops; frames is how many
      are free. */
  function CopyFrom(m: Memory, refused: set<nat>, v: nat, o: nat, src: seq<Byte>, c: Setting, frames: nat): (r: Result)
    requires o < 4096
    ensures r.done <= |src|
    decreases |src|
  {
    if src == [] || Stops(m, refused, v, c, frames) then Result(m, 0)
    else
      var k := PieceSize(o, |src|);
      var r := CopyFrom(Put(m, c.zero, v, o, src[..k]), refused, v + 1, 0, src[k..], c, FramesLeft(m, v, frames));
      Result(r.m, k + r.done)
  }

  function CopyTo(m: Memory, refused: set<nat>, va: nat, src: seq<Byte>, c: Setting, frames: nat): (r: Result) {
    CopyFrom(m, refused, PageOf(va), OffsetOf(va), src, c, frames)
  }

  /** copyout with eager fork: no page is refused for being shared. */
  function EagerCopyTo(m: Memory, va: nat, src: seq<Byte>, c: Setting, frames: nat): (r: Result) {
    CopyTo(m, {}, va, src, c, frames)
  }

  lemma CopyStops(m: Memory, refused: set<nat>, v: nat, o: nat, src: seq<Byte>, c: Setting, frames: nat)
    requires o < 4096 && (src == [] || Stops(m, refused, v, c, frames))
    ensures CopyFrom(m, refused, v, o, src, c, frames) == Result(m, 0)
  {
  }

  lemma CopyGoesOn(m: Memory, refused: set<nat>, v: nat, o: nat, src: seq<Byte>, c: Setting, frames: nat,
                   m1: Memory, k: nat, rest: seq<Byte>)
    requires o < 4096 && src != [] && !Stops(m, refused, v, c, frames)
    requires k == PieceSize(o, |src|) && m1 == Put(m, c.zero, v, o, src[..k]) && rest == src[k..]
    ensures var r := CopyFrom(m1, refused, v + 1, 0, rest, c, FramesLeft(m, v, frames));
            CopyFrom(m, refused, v, o, src, c, frames) == Result(r.m, k + r.done)
  {
  }

  /** One piece, within one page. */
  lemma PieceCopied(m: Memory, v: nat, o: nat, s: seq<Byte>, zero: Bytes)
    requires o < 4096 && o + |s| <= 4096 && |s| > 0 && IsZero(zero)
    ensures Copied(m, Put(m, zero, v, o, s), v * 4096 + o, s)
  {
    var m', va := Put(m, zero, v, o, s), v * 4096 + o;
    forall x: nat
      ensures ByteAt(m', x) == CopiedByte(m, va, s, x)
    {
      InPage(v, o, |s|, x);
    }
    InPage(v, o, 1, va);
    forall u: nat
      ensures PageKept(m, m', va, s, u)
    {
    }
  }

  /** Two pieces, the second where the first ended, are one. */
  lemma CopiedTwice(m: Memory, m1: Memory, m2: Memory, va: nat, s: seq<Byte>, t: seq<Byte>)
    requires Copied(m, m1, va, s) && Copied(m1, m2, va + |s|, t)
    ensures Copied(m, m2, va, s + t)
  {
    var st := s + t;
    forall x: nat
      ensures ByteAt(m2, x) == CopiedByte(m, va, st, x)
    {
      assert ByteAt(m2, x) == CopiedByte(m1, va + |s|, t, x);
      assert ByteAt(m1, x) == CopiedByte(m, va, s, x);
    }
    forall v: nat
      ensures PageKept(m, m2, va, st, v)
    {
      assert PageKept(m, m1, va, s, v) && PageKept(m1, m2, va + |s|, t, v);
      assert PageOf(va) <= PageOf(va + |s|);
    }
  }

  /** r is src copied to va, as far as it got. */
  ghost predicate CopiedBy(m: Memory, r: Result, va: nat, src: seq<Byte>) {
    r.done <= |src| && Copied(m, r.m, va, src[..r.done])
  }

  /** A piece, then the rest from the next page on. */
  lemma PieceThenRest(m: Memory, zero: Bytes, v: nat, o: nat, src: seq<Byte>, k: nat, rest: seq<Byte>, m1: Memory,
                      r: Result)
    requires IsZero(zero) && o < 4096 && 0 < k <= |src| && o + k <= 4096 && rest == src[k..]
    requires m1 == Put(m, zero, v, o, src[..k])
    requires if rest == [] then r == Result(m1, 0) else o + k == 4096 && CopiedBy(m1, r, (v + 1) * 4096, rest)
    ensures CopiedBy(m, Result(r.m, k + r.done), v * 4096 + o, src)
  {
    PieceCopied(m, v, o, src[..k], zero);
    if rest != [] {
      assert src[..k] + rest[..r.done] == src[..k + r.done];
      CopiedTwice(m, m1, r.m, v * 4096 + o, src[..k], rest[..r.done]);
    }
  }

  lemma CopiedNothing(m: Memory, va: nat)
    ensures Copied(m, m, va, [])
  {
  }

  lemma {:induction false} CopyFromCopies(m: Memory, refused: set<nat>, v: nat, o: nat, src: seq<Byte>, c: Setting,
                                          frames: nat)
    requires IsZero(c.zero) && o < 4096
    ensures CopiedBy(m, CopyFrom(m, refused, v, o, src, c, frames), v * 4096 + o, src)
    decreases |src|
  {
    if src == [] || Stops(m, refused, v, c, frames) {
      CopyStops(m, refused, v, o, src, c, frames);
      CopiedNothing(m, v * 4096 + o);
    } else {
      var k := PieceSize(o, |src|);
      var m1, rest, frames1 := Put(m, c.zero, v, o, src[..k]), src[k..], FramesLeft(m, v, frames);
      CopyGoesOn(m, refused, v, o, src, c, frames, m1, k, rest);
      if rest == [] {
        CopyStops(m1, refused, v + 1, 0, rest, c, frames1);
      } else {
        CopyFromCopies(m1, refused, v + 1, 0, rest, c, frames1);
      }
      var r := CopyFrom(m1, refused, v + 1, 0, rest, c, frames1);
      PieceThenRest(m, c.zero, v, o, src, k, rest, m1, r);
    }
  }

  /** A copy changes exactly the bytes it gets to. */
  lemma CopyToCopies(m: Memory, refused: set<nat>, va: nat, src: seq<Byte>, c: Setting, frames: nat)
    requires IsZero(c.zero)
    ensures CopiedBy(m, CopyTo(m, refused, va, src, c, frames), va, src)
  {
    CopyFromCopies(m, refused, PageOf(va), OffsetOf(va), src, c, frames);
  }

  // ---------------------------------------------------------------- copyout against eager fork

  /** Some of the n bytes from offset o of page v lie in a page of cow. */
  ghost predicate MeetsFrom(cow: set<nat>, v: nat, o: nat, n: nat) {
    n > 0 && exists u :: u in cow && v <= u && u * PGSIZE < v * PGSIZE + o + n
  }

  ghost predicate Meets(cow: set<nat>, va: nat, n: nat) {
    MeetsFrom(cow, PageOf(va), OffsetOf(va), n)
  }

  lemma MeetsFirst(cow: set<nat>, v: nat, o: nat, n: nat)
    requires n > 0 && v in cow
    ensures MeetsFrom(cow, v, o, n)
  {
  }

  lemma MeetsRest(cow: set<nat>, v: nat, o: nat, k: nat, n: nat)
    requires k <= n && o < 4096 && o + k <= 4096 && (k == n || o + k == 4096) && v !in cow
    ensures MeetsFrom(cow, v, o, n) <==> MeetsFrom(cow, v + 1, 0, n - k)
  {
    if MeetsFrom(cow, v, o, n) {
      var u :| u in cow && v <= u && u * PGSIZE < v * PGSIZE + o + n;
      assert v + 1 <= u;
    }
    if MeetsFrom(cow, v + 1, 0, n - k) {
      var u :| u in cow && v + 1 <= u && u * PGSIZE < (v + 1) * PGSIZE + 0 + (n - k);
    }
  }

  lemma PutKeys(m: Memory, zero: Bytes, v: nat, o: nat, s: seq<Byte>)
    requires o + |s| <= 4096
    ensures m.Keys <= Put(m, zero, v, o, s).Keys
  {
  }

  lemma StopsApart(m: Memory, cow: set<nat>, v: nat, c: Setting, frames: nat)
    requires cow <= m.Keys
    ensures Stops(m, cow, v, c, frames) <==> Stops(m, {}, v, c, frames) || v in cow
  {
  }

  /** r, where pages are refused, is short of e if that meets them and otherwise the same. */
  predicate ShortOf(r: Result, e: Result, meets: bool) {
    if meets then r.done < e.done else r == e
  }

  lemma {:induction false} RefusalShowsFrom(m: Memory, cow: set<nat>, v: nat, o: nat, src: seq<Byte>, c: Setting,
                                            frames: nat)
    requires cow <= m.Keys && o < 4096
    ensures var r, e := CopyFrom(m, cow, v, o, src, c, frames), CopyFrom(m, {}, v, o, src, c, frames);
            ShortOf(r, e, MeetsFrom(cow, v, o, e.done))
    decreases |src|
  {
    StopsApart(m, cow, v, c, frames);
    if src == [] || Stops(m, {}, v, c, frames) {
      CopyStops(m, {}, v, o, src, c, frames);
      CopyStops(m, cow, v, o, src, c, frames);
    } else {
      var k := PieceSize(o, |src|);
      var m1, rest, frames1 := Put(m, c.zero, v, o, src[..k]), src[k..], FramesLeft(m, v, frames);
      CopyGoesOn(m, {}, v, o, src, c, frames, m1, k, rest);
      var e := CopyFrom(m1, {}, v + 1, 0, rest, c, frames1);
      if v in cow {
        CopyStops(m, cow, v, o, src, c, frames);
        MeetsFirst(cow, v, o, k + e.done);
      } else {
        CopyGoesOn(m, cow, v, o, src, c, frames, m1, k, rest);
        PutKeys(m, c.zero, v, o, src[..k]);
        RefusalShowsFrom(m1, cow, v + 1, 0, rest, c, frames1);
        MeetsRest(cow, v, o, k, k + e.done);
      }
    }
  }

  /** Refusing copy-on-write pages makes a copy differ from the eager one if and only if the eager one would
      write to such a page; then it stops short of it. */
  lemma RefusalShows(m: Memory, cow: set<nat>, va: nat, src: seq<Byte>, c: Setting, frames: nat)
    requires cow <= m.Keys
    ensures var r, e := CopyTo(m, cow, va, src, c, frames), EagerCopyTo(m, va, src, c, frames);
            if Meets(cow, va, e.done) then r.done < e.done else r == e
  {
    RefusalShowsFrom(m, cow, PageOf(va), OffsetOf(va), src, c, frames);
  }

  // ---------------------------------------------------------------- copyout

  lemma WrittenIsPut(m: Memory, v: nat, o: nat, s: seq<Byte>, zero: Bytes, put: Bytes -> Bytes)
    requires o + |s| <= 4096 && forall d: Bytes :: put(d) == Blocks.Patched(d, o, s)
    ensures Written(m, v, zero, put) == Put(m, zero, v, o, s)
  {
  }

  /** The code's test of a page's entry, in terms of what the process sees. */
  lemma EntryTest(vm: Vm<Bytes>, p: nat, v: nat)
    requires vm.Valid() && p < |vm.pte| && vm.act[p].Idle?
    ensures v in vm.Seen()[p] <==> v in vm.pte[p]
    ensures v in vm.pte[p] ==>
      && vm.Seen()[p][v].fl == vm.pte[p][v].fl
      && (vm.pte[p][v].w <==> vm.Seen()[p][v].writable && v !in CowPages(vm.pte[p]))
  {
    InTable(vm.Now(), p, v);
  }

  /** copyout's loop body: the piece s at offset o of page v. */
  method CopyPiece(vm: Vm<Bytes>, p: nat, v: nat, o: nat, s: seq<Byte>, c: Setting) returns (ok: bool)
    requires vm.Valid() && p < |vm.pte| && vm.act[p].Idle? && c.zero == vm.zero && o + |s| <= 4096
    modifies vm
    ensures vm.Valid() && |vm.pte| == |old(vm.pte)| && vm.act == old(vm.act)
    ensures ok <==> !Stops(old(vm.Seen())[p], CowPages(old(vm.pte)[p]), v, c, |old(vm.free)|)
    ensures vm.Seen() == if ok then old(vm.Seen())[p := Put(old(vm.Seen())[p], c.zero, v, o, s)] else old(vm.Seen())
    ensures ok ==> |vm.free| == FramesLeft(old(vm.Seen())[p], v, |old(vm.free)|)
    ensures CowPages(vm.pte[p]) == CowPages(old(vm.pte)[p])
  {
    EntryTest(vm, p, v);
    if v * PGSIZE >= MAXVA {
      return false;
    }
    var put := (d: Bytes) => Blocks.Patched(d, o, s);
    WrittenIsPut(vm.Seen()[p], v, o, s, c.zero, put);
    ok := vm.CopyoutPage(p, v, c.sz, c.room(v), put);
  }

  /** Where the loop is: at offset o of page v, with `done` bytes copied, m the memory by now. */
  datatype Place = Place(v: nat, o: nat, done: nat, m: Memory, frames: nat)

  ghost predicate Stopped(cow: set<nat>, src: seq<Byte>, c: Setting, x: Place) {
    x.done == |src| || Stops(x.m, cow, x.v, c, x.frames)
  }

  /** One pass leads from x to x'. */
  ghost predicate Passes(cow: set<nat>, src: seq<Byte>, c: Setting, x: Place, x': Place) {
    && x.o < 4096 && x.done < |src| && !Stops(x.m, cow, x.v, c, x.frames)
    && x'.v == x.v + 1 && x'.o == 0 && x'.frames == FramesLeft(x.m, x.v, x.frames)
    && x'.done == x.done + PieceSize(x.o, |src| - x.done)
    && x'.m == Put(x.m, c.zero, x.v, x.o, src[x.done..x'.done])
  }

  ghost predicate Path(cow: set<nat>, src: seq<Byte>, c: Setting, path: seq<Place>) {
    path != [] && forall i :: 0 < i < |path| ==> Passes(cow, src, c, path[i - 1], path[i])
  }

  lemma PathNext(cow: set<nat>, src: seq<Byte>, c: Setting, path: seq<Place>, x: Place)
    requires Path(cow, src, c, path) && Passes(cow, src, c, path[|path| - 1], x)
    ensures Path(cow, src, c, path + [x])
  {
  }

  /** What is still to come at x makes up the whole copy r0. */
  ghost predicate GoesOn(r0: Result, cow: set<nat>, src: seq<Byte>, c: Setting, x: Place) {
    x.done <= |src| && x.o < 4096 &&
    var r := CopyFrom(x.m, cow, x.v, x.o, src[x.done..], c, x.frames);
    r0 == Result(r.m, x.done + r.done)
  }

  lemma GoesOnNext(r0: Result, cow: set<nat>, src: seq<Byte>, c: Setting, x: Place, x': Place)
    requires GoesOn(r0, cow, src, c, x) && Passes(cow, src, c, x, x')
    ensures GoesOn(r0, cow, src, c, x')
  {
    var left, k := src[x.done..], PieceSize(x.o, |src| - x.done);
    assert left[..k] == src[x.done..x'.done] && left[k..] == src[x'.done..];
    CopyGoesOn(x.m, cow, x.v, x.o, left, c, x.frames, x'.m, k, src[x'.done..]);
  }

  lemma {:induction false} PathGoesOn(r0: Result, cow: set<nat>, src: seq<Byte>, c: Setting, path: seq<Place>, i: nat)
    requires Path(cow, src, c, path) && GoesOn(r0, cow, src, c, path[0]) && i < |path|
    ensures GoesOn(r0, cow, src, c, path[i])
  {
    if i > 0 {
      PathGoesOn(r0, cow, src, c, path, i - 1);
      GoesOnNext(r0, cow, src, c, path[i - 1], path[i]);
    }
  }

  /** Passes up to where the loop stops are the whole copy. */
  lemma PathIsCopy(cow: set<nat>, src: seq<Byte>, c: Setting, path: seq<Place>)
    requires Path(cow, src, c, path) && path[0].o < 4096 && path[0].done == 0
    requires Stopped(cow, src, c, path[|path| - 1])
    ensures CopyFrom(path[0].m, cow, path[0].v, path[0].o, src, c, path[0].frames) ==
            Result(path[|path| - 1].m, path[|path| - 1].done)
  {
    assert src[0..] == src;
    var r0 := CopyFrom(path[0].m, cow, path[0].v, path[0].o, src, c, path[0].frames);
    PathGoesOn(r0, cow, src, c, path, |path| - 1);
    var x := path[|path| - 1];
    CopyStops(x.m, cow, x.v, x.o, src[x.done..], c, x.frames);
  }

  /** Memories w differ from those of `was` in process p only. */
  predicate OnlyAt(was: seq<Memory>, w: seq<Memory>, p: nat) {
    p < |w| == |was| && w == was[p := w[p]]
  }

  lemma OnlyAtStill(was: seq<Memory>, w: seq<Memory>, w': seq<Memory>, p: nat)
    requires OnlyAt(was, w, p) && OnlyAt(w, w', p)
    ensures OnlyAt(was, w', p)
  {
  }

  ghost function Here(vm: Vm<Bytes>, p: nat, v: nat, o: nat, done: nat): (x: Place)
    requires vm.Valid() && p < |vm.pte|
    reads vm
  {
    Place(v, o, done, vm.Seen()[p], |vm.free|)
  }

  /** One pass of the loop. */
  method CopyNext(vm: Vm<Bytes>, p: nat, v: nat, o: nat, src: seq<Byte>, c: Setting, done: nat)
    returns (ok: bool, done': nat)
    requires vm.Valid() && p < |vm.pte| && vm.act[p].Idle? && c.zero == vm.zero && done < |src| && o < 4096
    modifies vm
    ensures vm.Valid() && |vm.pte| == |old(vm.pte)| && vm.act == old(vm.act)
    ensures OnlyAt(old(vm.Seen()), vm.Seen(), p) && CowPages(vm.pte[p]) == CowPages(old(vm.pte)[p])
    ensures if ok then Passes(CowPages(vm.pte[p]), src, c, old(Here(vm, p, v, o, done)), Here(vm, p, v + 1, 0, done'))
            else
              && done' == done && vm.Seen() == old(vm.Seen())
              && Stopped(CowPages(vm.pte[p]), src, c, old(Here(vm, p, v, o, done)))
  {
    var next := done + PieceSize(o, |src| - done);
    ok := CopyPiece(vm, p, v, o, src[done..next], c);
    done' := if ok then next else done;
  }

  /** copyout's loop, from offset o0 of page v0; path is where it comes by. */
  method CopyLoop(vm: Vm<Bytes>, p: nat, v0: nat, o0: nat, src: seq<Byte>, c: Setting)
    returns (ok: bool, done: nat, ghost path: seq<Place>)
    requires vm.Valid() && p < |vm.pte| && vm.act[p].Idle? && c.zero == vm.zero && o0 < 4096
    modifies vm
    ensures vm.Valid() && |vm.pte| == |old(vm.pte)| && vm.act == old(vm.act)
    ensures OnlyAt(old(vm.Seen()), vm.Seen(), p) && CowPages(vm.pte[p]) == CowPages(old(vm.pte)[p])
    ensures ok <==> done == |src|
    ensures Path(CowPages(vm.pte[p]), src, c, path) && path[0] == old(Here(vm, p, v0, o0, 0))
    ensures Stopped(CowPages(vm.pte[p]), src, c, path[|path| - 1])
    ensures path[|path| - 1].m == vm.Seen()[p] && path[|path| - 1].done == done
  {
    var v, o := v0, o0;
    ok, done := true, 0;
    ghost var was, now, cow := vm.Seen(), vm.Seen(), CowPages(vm.pte[p]);
    path := [Here(vm, p, v0, o0, 0)];
    while done < |src|
      invariant vm.Valid() && |vm.pte| == |old(vm.pte)| && vm.act == old(vm.act) && CowPages(vm.pte[p]) == cow
      invariant ok && done <= |src| && o < 4096 && now == vm.Seen() && OnlyAt(was, now, p)
      invariant Path(cow, src, c, path) && path[0] == old(Here(vm, p, v0, o0, 0))
      invariant path[|path| - 1] == Here(vm, p, v, o, done)
      decreases |src| - done
    {
      ok, done := CopyNext(vm, p, v, o, src, c, done);
      OnlyAtStill(was, now, vm.Seen(), p);
      if !ok {
        return;
      }
      now, v, o := vm.Seen(), v + 1, 0;
      PathNext(cow, src, c, path, Here(vm, p, v, o, done));
      path := path + [Here(vm, p, v, o, done)];
    }
  }

  /** All of it: exactly the copy that CopyTo describes with the process's copy-on-write pages refused; no other
      process sees any difference. */
  method CopyAll(vm: Vm<Bytes>, p: nat, dstva: nat, src: seq<Byte>, c: Setting) returns (ok: bool, done: nat)
    requires vm.Valid() && p < |vm.pte| && vm.act[p].Idle? && c.zero == vm.zero
    modifies vm
    ensures vm.Valid() && |vm.pte| == |old(vm.pte)| && vm.act == old(vm.act)
    ensures ok <==> done == |src|
    ensures OnlyAt(old(vm.Seen()), vm.Seen(), p)
    ensures Result(vm.Seen()[p], done) ==
            CopyTo(old(vm.Seen())[p], CowPages(old(vm.pte)[p]), dstva, src, c, |old(vm.free)|)
  {
    ghost var path;
    ok, done, path := CopyLoop(vm, p, PageOf(dstva), OffsetOf(dstva), src, c);
    PathIsCopy(CowPages(vm.pte[p]), src, c, path);
  }

  lemma CowSeen(vm: Vm<Bytes>, p: nat)
    requires vm.Valid() && p < |vm.pte| && vm.act[p].Idle?
    ensures CowPages(vm.pte[p]) <= vm.Seen()[p].Keys
  {
    forall v | v in CowPages(vm.pte[p])
      ensures v in vm.Seen()[p]
    {
      InTable(vm.Now(), p, v);
    }
  }

  /** copyout, in a process of c.sz bytes. Exactly the first `done` bytes of the range change, in this process
      only. It does what it would do with eager fork if and only if that would write to no page marked
      copy-on-write; otherwise it fails, short of the first of them. */
  method Copyout(vm: Vm<Bytes>, p: nat, dstva: nat, src: seq<Byte>, c: Setting) returns (ok: bool, done: nat)
    requires vm.Valid() && p < |vm.pte| && vm.act[p].Idle? && c.zero == vm.zero && IsZero(vm.zero)
    modifies vm
    ensures vm.Valid() && |vm.pte| == |old(vm.pte)| && vm.act == old(vm.act)
    ensures done <= |src| && (ok <==> done == |src|)
    ensures vm.Seen() == old(vm.Seen())[p := vm.Seen()[p]]
    ensures Copied(old(vm.Seen())[p], vm.Seen()[p], dstva, src[..done])
    ensures Result(vm.Seen()[p], done) ==
      CopyTo(old(vm.Seen())[p], CowPages(old(vm.pte)[p]), dstva, src, c, |old(vm.free)|)
    ensures var e := EagerCopyTo(old(vm.Seen())[p], dstva, src, c, |old(vm.free)|);
            if Meets(CowPages(old(vm.pte)[p]), dstva, e.done) then !ok && done < e.done
            else Result(vm.Seen()[p], done) == e
  {
    ghost var m, cow, frames := vm.Seen()[p], CowPages(vm.pte[p]), |vm.free|;
    CowSeen(vm, p);
    RefusalShows(m, cow, dstva, src, c, frames);
    CopyToCopies(m, cow, dstva, src, c, frames);
    ok, done := CopyAll(vm, p, dstva, src, c);
  }

  /** A writable user page at va. */
  ghost predicate MayStore(m: Memory, va: nat) {
    PageOf(va) in m && m[PageOf(va)].writable && IsUser(m[PageOf(va)].fl) && PageOf(va) * PGSIZE < MAXVA
  }

  lemma EagerStores(m: Memory, va: nat, src: seq<Byte>, c: Setting, frames: nat)
    requires MayStore(m, va) && OffsetOf(va) + |src| <= 4096
    ensures EagerCopyTo(m, va, src, c, frames).done == |src|
  {
    if src != [] {
      var v, o := PageOf(va), OffsetOf(va);
      CopyGoesOn(m, {}, v, o, src, c, frames, Put(m, c.zero, v, o, src[..|src|]), |src|, []);
    }
  }

  /** copyout to any page the process may write fails once the process has forked, where with eager fork it
      would succeed: fork has marked every such page, and only a store fault unmarks one. */
  method CopyoutAfterFork(vm: Vm<Bytes>, p: nat, child: nat, dstva: nat, src: seq<Byte>, c: Setting)
    returns (ok: bool, done: nat)
    requires vm.Valid() && p < |vm.act| && child < |vm.act| && p != child && vm.act[p].Idle? && vm.act[child].Idle?
    requires vm.pte[child] == map[] && (forall v :: v in vm.pte[p] ==> v < Pages(c.sz))
    requires c.zero == vm.zero && IsZero(vm.zero)
    requires MayStore(vm.Seen()[p], dstva) && src != [] && OffsetOf(dstva) + |src| <= 4096
    modifies vm
    ensures vm.Valid() && !ok && done == 0
    ensures vm.Seen() == old(vm.Seen())[child := old(vm.Seen())[p]]
    ensures EagerCopyTo(vm.Seen()[p], dstva, src, c, |vm.free|).done == |src|
  {
    ghost var m := vm.Seen()[p];
    var n := Pages(c.sz);
    var forked := vm.Uvmcopy(p, child, n, n);
    assert vm.Seen()[p] == m;
    EntryTest(vm, p, PageOf(dstva));
    EagerStores(m, dstva, src, c, |vm.free|);
    MeetsFirst(CowPages(vm.pte[p]), PageOf(dstva), OffsetOf(dstva), |src|);
    ok, done := Copyout(vm, p, dstva, src, c);
    EagerStores(m, dstva, src, c, |vm.free|);
  }
}
