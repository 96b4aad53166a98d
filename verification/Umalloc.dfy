/** The Kernighan-Ritchie allocator of xv6/user/umalloc.c: a circular list of free blocks in address
    order. Memory is counted in units of one header, 16 bytes; a block's address is that of its header,
    and its size includes it. What sbrk answers is a parameter. */
module Umalloc {
  const BASE: nat := 1          // the address of `base`, which lies below the heap
  const MINUNITS: nat := 4096   // the least morecore asks for
  const UNIT: nat := 16         // bytes in a header

  /** The index after i in a ring of n. */
  function After(i: nat, n: nat): (j: nat) {
    if i + 1 == n then 0 else i + 1
  }

  function SizeOf(size: map<nat, nat>, a: nat): (n: nat) {
    if a in size then size[a] else 0
  }

  /** The address just past block a. */
  function End(size: map<nat, nat>, a: nat): (e: nat) {
    a + SizeOf(size, a)
  }

  predicate Apart(size: map<nat, nat>, a: nat, b: nat) {
    End(size, a) <= b || End(size, b) <= a
  }

  /** The free list: ring has the addresses of its blocks, `base` first, and each block points to the
      next, the last to the first. */
  ghost predicate Linked(ptr: map<nat, nat>, ring: seq<nat>) {
    |ring| >= 1 && ring[0] == BASE && forall i: nat :: i < |ring| ==> LinkAt(ptr, ring, i)
  }

  ghost predicate LinkAt(ptr: map<nat, nat>, ring: seq<nat>, i: nat) {
    i < |ring| && ring[i] in ptr && ptr[ring[i]] == ring[After(i, |ring|)]
  }

  /** Its blocks are disjoint and in address order; only `base` is empty. */
  ghost predicate Sorted(size: map<nat, nat>, ring: seq<nat>) {
    && |ring| >= 1 && ring[0] == BASE && SizeOf(size, BASE) == 0
    && (forall i: nat, j: nat :: i < j < |ring| ==> InOrder(size, ring, i, j))
    && (forall i: nat :: 0 < i < |ring| ==> Sized(size, ring, i))
  }

  ghost predicate InOrder(size: map<nat, nat>, ring: seq<nat>, i: nat, j: nat) {
    i < j < |ring| ==> End(size, ring[i]) <= ring[j]
  }

  ghost predicate Sized(size: map<nat, nat>, s: seq<nat>, i: nat) {
    i < |s| ==> s[i] > BASE && SizeOf(size, s[i]) > 0
  }

  /** Block i does not touch the next one. */
  ghost predicate Gap(size: map<nat, nat>, ring: seq<nat>, i: nat) {
    i + 1 < |ring| ==> End(size, ring[i]) < ring[i + 1]
  }

  /** No two free blocks could be merged. */
  ghost predicate Coalesced(size: map<nat, nat>, ring: seq<nat>) {
    forall i: nat :: i < |ring| ==> Gap(size, ring, i)
  }

  /** The blocks in use share no unit with each other or with a free block. */
  ghost predicate LiveOk(size: map<nat, nat>, ring: seq<nat>, live: seq<nat>) {
    && (forall k: nat :: k < |live| ==> Sized(size, live, k))
    && (forall k: nat, l: nat :: k < l < |live| ==> ApartAt(size, live, k, live, l))
    && (forall k: nat, i: nat :: k < |live| && i < |ring| ==> ApartAt(size, live, k, ring, i))
  }

  ghost predicate ApartAt(size: map<nat, nat>, s: seq<nat>, k: nat, t: seq<nat>, i: nat) {
    k < |s| && i < |t| ==> Apart(size, s[k], t[i])
  }

  /** Unit u is in block a. */
  predicate Holds(size: map<nat, nat>, a: nat, u: nat) {
    a <= u < End(size, a)
  }

  /** The blocks of s are made of units in mem. */
  ghost predicate Inside(size: map<nat, nat>, s: seq<nat>, mem: set<nat>) {
    forall i: nat :: i < |s| ==> InsideAt(size, s, i, mem)
  }

  ghost predicate InsideAt(size: map<nat, nat>, s: seq<nat>, i: nat, mem: set<nat>) {
    i < |s| ==> forall u: nat :: Holds(size, s[i], u) ==> u in mem
  }

  /** The units of the blocks in s. */
  ghost function Units(size: map<nat, nat>, s: seq<nat>): (n: nat) {
    if s == [] then 0 else Units(size, s[..|s| - 1]) + SizeOf(size, s[|s| - 1])
  }

  lemma {:induction false} UnitsFrame(size: map<nat, nat>, size': map<nat, nat>, s: seq<nat>)
    requires forall i :: 0 <= i < |s| ==> SizeOf(size, s[i]) == SizeOf(size', s[i])
    ensures Units(size, s) == Units(size', s)
  {
    if s != [] {
      UnitsFrame(size, size', s[..|s| - 1]);
    }
  }

  lemma {:induction false} UnitsConcat(size: map<nat, nat>, s: seq<nat>, t: seq<nat>)
    ensures Units(size, s + t) == Units(size, s) + Units(size, t)
  {
    if t == [] {
      assert s + t == s;
    } else {
      UnitsConcat(size, s, t[..|t| - 1]);
      assert (s + t)[..|s + t| - 1] == s + t[..|t| - 1];
    }
  }

  function Without(s: seq<nat>, i: nat): (t: seq<nat>)
    requires i < |s|
  {
    s[..i] + s[i + 1..]
  }

  function With(s: seq<nat>, i: nat, a: nat): (t: seq<nat>)
    requires i <= |s|
  {
    s[..i] + [a] + s[i..]
  }

  lemma WithAt(s: seq<nat>, i: nat, a: nat, j: nat)
    requires i <= |s| && j <= |s|
    ensures |With(s, i, a)| == |s| + 1
    ensures With(s, i, a)[j] == if j < i then s[j] else if j == i then a else s[j - 1]
  {
  }

  lemma WithoutAt(s: seq<nat>, i: nat, j: nat)
    requires i < |s| && j + 1 < |s|
    ensures |Without(s, i)| == |s| - 1
    ensures Without(s, i)[j] == if j < i then s[j] else s[j + 1]
  {
  }

  lemma UnitsWithout(size: map<nat, nat>, s: seq<nat>, i: nat)
    requires i < |s|
    ensures Units(size, s) == Units(size, Without(s, i)) + SizeOf(size, s[i])
  {
    UnitsConcat(size, s[..i], s[i + 1..]);
    UnitsConcat(size, s[..i + 1], s[i + 1..]);
    assert s == s[..i + 1] + s[i + 1..];
    assert s[..i + 1][..i] == s[..i];
  }

  lemma UnitsWith(size: map<nat, nat>, s: seq<nat>, i: nat, a: nat)
    requires i <= |s|
    ensures Units(size, With(s, i, a)) == Units(size, s) + SizeOf(size, a)
  {
    UnitsWithout(size, With(s, i, a), i);
    assert Without(With(s, i, a), i) == s;
  }

  // Linking in and out.

  lemma LinkInAt(ptr: map<nat, nat>, ring: seq<nat>, t: nat, a: nat, ptr': map<nat, nat>, ring': seq<nat>, i: nat)
    requires Linked(ptr, ring) && t < |ring| && ring' == With(ring, t + 1, a) && i <= |ring|
    requires forall j, k :: 0 <= j < k < |ring'| ==> ring'[j] != ring'[k]
    requires ring[t] in ptr && ptr' == ptr[a := ptr[ring[t]]][ring[t] := a]
    ensures LinkAt(ptr', ring', i)
  {
    WithAt(ring, t + 1, a, t);
    WithAt(ring, t + 1, a, t + 1);
    WithAt(ring, t + 1, a, i);
    WithAt(ring, t + 1, a, if i < |ring| then i + 1 else 0);
    assert LinkAt(ptr, ring, if i <= t then i else i - 1);
  }

  /** Block a is linked in after ring[t]. */
  lemma LinkIn(ptr: map<nat, nat>, ring: seq<nat>, t: nat, a: nat, ptr': map<nat, nat>, ring': seq<nat>)
    requires Linked(ptr, ring) && t < |ring| && ring' == With(ring, t + 1, a)
    requires forall i, j :: 0 <= i < j < |ring'| ==> ring'[i] != ring'[j]
    requires ring[t] in ptr && ptr' == ptr[a := ptr[ring[t]]][ring[t] := a]
    ensures Linked(ptr', ring')
  {
    forall i: nat | i < |ring'|
      ensures LinkAt(ptr', ring', i)
    {
      LinkInAt(ptr, ring, t, a, ptr', ring', i);
    }
  }

  lemma LinkOutAt(ptr: map<nat, nat>, ring: seq<nat>, t: nat, ptr': map<nat, nat>, ring': seq<nat>, i: nat)
    requires Linked(ptr, ring) && t + 1 < |ring| && ring' == Without(ring, t + 1) && i + 1 < |ring|
    requires forall j, k :: 0 <= j < k < |ring| ==> ring[j] != ring[k]
    requires ring[t + 1] in ptr && ptr' == ptr[ring[t] := ptr[ring[t + 1]]]
    ensures LinkAt(ptr', ring', i)
  {
    WithoutAt(ring, t + 1, t);
    WithoutAt(ring, t + 1, i);
    WithoutAt(ring, t + 1, if i + 2 < |ring| then i + 1 else 0);
    assert LinkAt(ptr, ring, t) && LinkAt(ptr, ring, t + 1);
    assert LinkAt(ptr, ring, if i <= t then i else i + 1);
  }

  /** The block after ring[t] is linked out. */
  lemma LinkOut(ptr: map<nat, nat>, ring: seq<nat>, t: nat, ptr': map<nat, nat>, ring': seq<nat>)
    requires Linked(ptr, ring) && t + 1 < |ring| && ring' == Without(ring, t + 1)
    requires forall i, j :: 0 <= i < j < |ring| ==> ring[i] != ring[j]
    requires ring[t + 1] in ptr && ptr' == ptr[ring[t] := ptr[ring[t + 1]]]
    ensures Linked(ptr', ring')
  {
    forall i: nat | i < |ring'|
      ensures LinkAt(ptr', ring', i)
    {
      LinkOutAt(ptr, ring, t, ptr', ring', i);
    }
  }

  // Moving blocks between the free list and the program.

  /** The units obtained from sbrk, mem, are divided among the blocks: these are disjoint, made of such
      units, and together as large. */
  ghost predicate Parted(size: map<nat, nat>, ring: seq<nat>, live: seq<nat>, mem: set<nat>) {
    && Sorted(size, ring) && LiveOk(size, ring, live)
    && Inside(size, ring, mem) && Inside(size, live, mem)
    && Units(size, ring) + Units(size, live) == |mem|
  }

  /** Block a belongs after ring[t]. */
  ghost predicate GoesAfter(ring: seq<nat>, a: nat, t: nat) {
    t < |ring| && ring[t] < a && (t + 1 < |ring| ==> a < ring[t + 1])
  }

  lemma Ascending(size: map<nat, nat>, ring: seq<nat>)
    requires Sorted(size, ring)
    ensures forall x, y :: 0 <= x < y < |ring| ==> ring[x] < ring[y]
  {
    forall x: nat, y: nat | x < y < |ring|
      ensures ring[x] < ring[y]
    {
      assert InOrder(size, ring, x, y) && Sized(size, ring, y);
      assert x > 0 ==> Sized(size, ring, x);
    }
  }

  /** A free block is not in use. */
  lemma NotLive(size: map<nat, nat>, ring: seq<nat>, live: seq<nat>, t: nat)
    requires Sorted(size, ring) && LiveOk(size, ring, live) && t < |ring|
    ensures forall k :: 0 <= k < |live| ==> live[k] > BASE && live[k] != ring[t]
  {
    forall k: nat | k < |live|
      ensures live[k] > BASE && live[k] != ring[t]
    {
      assert Sized(size, live, k) && ApartAt(size, live, k, ring, t);
      assert t > 0 ==> Sized(size, ring, t);
    }
  }

  lemma PutInSorted(size: map<nat, nat>, ring: seq<nat>, live: seq<nat>, k: nat, t: nat, ring': seq<nat>)
    requires Sorted(size, ring) && LiveOk(size, ring, live) && k < |live| && GoesAfter(ring, live[k], t)
    requires ring' == With(ring, t + 1, live[k])
    ensures Sorted(size, ring')
  {
    forall i: nat, j: nat | i < j < |ring'|
      ensures InOrder(size, ring', i, j)
    {
      var i0, j0 := if i <= t then i else i - 1, if j <= t then j else j - 1;
      assert i != t + 1 ==> ring'[i] == ring[i0];
      assert j != t + 1 ==> ring'[j] == ring[j0];
      assert InOrder(size, ring, i0, j0);
      assert Sized(size, live, k) && ApartAt(size, live, k, ring, i0) && ApartAt(size, live, k, ring, j0);
      assert InOrder(size, ring, i0, t) && InOrder(size, ring, t + 1, j0);
    }
    forall i: nat | 0 < i < |ring'|
      ensures Sized(size, ring', i)
    {
      var i0 := if i <= t then i else i - 1;
      assert Sized(size, live, k);
      assert i != t + 1 ==> ring'[i] == ring[i0] && Sized(size, ring, i0);
    }
  }

  lemma PutInLive(size: map<nat, nat>, ring: seq<nat>, live: seq<nat>, k: nat, t: nat, ring': seq<nat>, live': seq<nat>)
    requires LiveOk(size, ring, live) && k < |live| && t < |ring|
    requires ring' == With(ring, t + 1, live[k]) && live' == Without(live, k)
    ensures LiveOk(size, ring', live')
  {
    WithoutLive(size, ring, live, k, live');
    forall l: nat, i: nat | l < |live'| && i < |ring'|
      ensures ApartAt(size, live', l, ring', i)
    {
      var l0, i0 := if l < k then l else l + 1, if i <= t then i else i - 1;
      assert i != t + 1 ==> ring'[i] == ring[i0];
      assert live'[l] == live[l0];
      assert ApartAt(size, live, l0, ring, i0);
      assert ApartAt(size, live, l0, live, k);
    }
  }

  lemma WithoutLive(size: map<nat, nat>, ring: seq<nat>, live: seq<nat>, k: nat, live': seq<nat>)
    requires LiveOk(size, ring, live) && k < |live| && live' == Without(live, k)
    ensures LiveOk(size, ring, live')
    ensures forall l: nat :: l < |live| && l != k ==> ApartAt(size, live, l, live, k)
  {
    forall l: nat | l < |live| && l != k
      ensures ApartAt(size, live, l, live, k)
    {
      assert if l < k then ApartAt(size, live, l, live, k) else ApartAt(size, live, k, live, l);
    }
    forall l: nat | l < |live'|
      ensures Sized(size, live', l)
    {
      assert Sized(size, live, if l < k then l else l + 1);
    }
    forall l: nat, m: nat | l < m < |live'|
      ensures ApartAt(size, live', l, live', m)
    {
      assert ApartAt(size, live, if l < k then l else l + 1, live, if m < k then m else m + 1);
    }
    forall l: nat, i: nat | l < |live'| && i < |ring|
      ensures ApartAt(size, live', l, ring, i)
    {
      assert ApartAt(size, live, if l < k then l else l + 1, ring, i);
    }
  }

  /** A block given back goes into its place. */
  lemma PutIn(size: map<nat, nat>, ring: seq<nat>, live: seq<nat>, mem: set<nat>, k: nat, t: nat, ring': seq<nat>,
              live': seq<nat>)
    requires Parted(size, ring, live, mem) && k < |live| && GoesAfter(ring, live[k], t)
    requires ring' == With(ring, t + 1, live[k]) && live' == Without(live, k)
    ensures Parted(size, ring', live', mem)
  {
    PutInSorted(size, ring, live, k, t, ring');
    PutInLive(size, ring, live, k, t, ring', live');
    UnitsWith(size, ring, t + 1, live[k]);
    UnitsWithout(size, live, k);
    forall i: nat | i < |ring'|
      ensures InsideAt(size, ring', i, mem)
    {
      var i0 := if i <= t then i else i - 1;
      assert i != t + 1 ==> ring'[i] == ring[i0] && InsideAt(size, ring, i0, mem);
      assert InsideAt(size, live, k, mem);
    }
    forall l: nat | l < |live'|
      ensures InsideAt(size, live', l, mem)
    {
      assert InsideAt(size, live, if l < k then l else l + 1, mem);
    }
  }

  lemma FuseSorted(size: map<nat, nat>, ring: seq<nat>, t: nat, size': map<nat, nat>, ring': seq<nat>)
    requires Sorted(size, ring) && 0 < t && t + 1 < |ring| && End(size, ring[t]) == ring[t + 1]
    requires ring' == Without(ring, t + 1)
    requires size' == size[ring[t] := SizeOf(size, ring[t]) + SizeOf(size, ring[t + 1])]
    ensures Sorted(size', ring')
  {
    Ascending(size, ring);
    forall i: nat, j: nat | i < j < |ring'|
      ensures InOrder(size', ring', i, j)
    {
      var i0, j0 := if i <= t then i else i + 1, if j <= t then j else j + 1;
      assert ring'[i] == ring[i0] && ring'[j] == ring[j0];
      assert InOrder(size, ring, i0, j0) && InOrder(size, ring, t + 1, j0);
    }
    forall i: nat | 0 < i < |ring'|
      ensures Sized(size', ring', i)
    {
      assert Sized(size, ring, if i <= t then i else i + 1);
    }
  }

  lemma FuseLive(size: map<nat, nat>, ring: seq<nat>, live: seq<nat>, t: nat, size': map<nat, nat>, ring': seq<nat>)
    requires Sorted(size, ring) && LiveOk(size, ring, live)
    requires 0 < t && t + 1 < |ring| && End(size, ring[t]) == ring[t + 1] && ring' == Without(ring, t + 1)
    requires size' == size[ring[t] := SizeOf(size, ring[t]) + SizeOf(size, ring[t + 1])]
    ensures LiveOk(size', ring', live)
  {
    Ascending(size, ring);
    NotLive(size, ring, live, t);
    forall k: nat | k < |live|
      ensures Sized(size', live, k)
    {
      assert Sized(size, live, k);
    }
    forall k: nat, l: nat | k < l < |live|
      ensures ApartAt(size', live, k, live, l)
    {
      assert ApartAt(size, live, k, live, l);
    }
    forall k: nat, i: nat | k < |live| && i < |ring'|
      ensures ApartAt(size', live, k, ring', i)
    {
      var i0 := if i <= t then i else i + 1;
      assert ring'[i] == ring[i0] && Sized(size, live, k);
      assert ApartAt(size, live, k, ring, t) && ApartAt(size, live, k, ring, t + 1) && ApartAt(size, live, k, ring, i0);
    }
  }

  /** Only block p changes size: the rest of s, which has it at t, keeps its units. */
  lemma UnitsBut(size: map<nat, nat>, size': map<nat, nat>, s: seq<nat>, t: nat, p: nat)
    requires t < |s| && s[t] == p && forall i :: 0 <= i < |s| && i != t ==> s[i] != p
    requires forall x :: x != p ==> SizeOf(size', x) == SizeOf(size, x)
    ensures Units(size', s) == Units(size, s) - SizeOf(size, p) + SizeOf(size', p)
  {
    UnitsWithout(size, s, t);
    UnitsWithout(size', s, t);
    var rest := Without(s, t);
    forall i | 0 <= i < |rest|
      ensures SizeOf(size, rest[i]) == SizeOf(size', rest[i])
    {
      WithoutAt(s, t, i);
    }
    UnitsFrame(size, size', rest);
  }

  lemma StillAlone(s: seq<nat>, t: nat, s': seq<nat>)
    requires t + 1 < |s| && s' == Without(s, t + 1) && forall i :: 0 <= i < |s| && i != t ==> s[i] != s[t]
    ensures t < |s'| && s'[t] == s[t] && forall i :: 0 <= i < |s'| && i != t ==> s'[i] != s[t]
  {
    WithoutAt(s, t + 1, t);
    forall i | 0 <= i < |s'| && i != t
      ensures s'[i] != s[t]
    {
      WithoutAt(s, t + 1, i);
    }
  }

  lemma FuseUnits(size: map<nat, nat>, ring: seq<nat>, live: seq<nat>, t: nat, size': map<nat, nat>, ring': seq<nat>)
    requires t + 1 < |ring| && ring' == Without(ring, t + 1)
    requires forall i :: 0 <= i < |ring| && i != t ==> ring[i] != ring[t]
    requires forall k :: 0 <= k < |live| ==> live[k] != ring[t]
    requires size' == size[ring[t] := SizeOf(size, ring[t]) + SizeOf(size, ring[t + 1])]
    ensures Units(size', ring') == Units(size, ring) && Units(size', live) == Units(size, live)
  {
    StillAlone(ring, t, ring');
    UnitsWithout(size, ring, t + 1);
    UnitsBut(size, size', ring', t, ring[t]);
    UnitsFrame(size, size', live);
  }

  /** Two free blocks that touch become one. */
  lemma Fuse(size: map<nat, nat>, ring: seq<nat>, live: seq<nat>, mem: set<nat>, t: nat, size': map<nat, nat>,
             ring': seq<nat>)
    requires Parted(size, ring, live, mem)
    requires 0 < t && t + 1 < |ring| && End(size, ring[t]) == ring[t + 1] && ring' == Without(ring, t + 1)
    requires size' == size[ring[t] := SizeOf(size, ring[t]) + SizeOf(size, ring[t + 1])]
    ensures Parted(size', ring', live, mem)
  {
    FuseSorted(size, ring, t, size', ring');
    FuseLive(size, ring, live, t, size', ring');
    Ascending(size, ring);
    NotLive(size, ring, live, t);
    FuseUnits(size, ring, live, t, size', ring');
    forall i: nat | i < |ring'|
      ensures InsideAt(size', ring', i, mem)
    {
      assert InsideAt(size, ring, if i <= t then i else i + 1, mem) && InsideAt(size, ring, t + 1, mem);
    }
    forall k: nat | k < |live|
      ensures InsideAt(size', live, k, mem)
    {
      assert InsideAt(size, live, k, mem);
    }
  }

  lemma TakeWholeSorted(size: map<nat, nat>, ring: seq<nat>, j: nat, ring': seq<nat>, mem: set<nat>)
    requires Sorted(size, ring) && Inside(size, ring, mem) && 0 < j < |ring| && ring' == Without(ring, j)
    ensures Sorted(size, ring') && Inside(size, ring', mem)
    ensures forall i :: 0 <= i < |ring'| ==> Apart(size, ring[j], ring'[i])
  {
    forall i: nat, l: nat | i < l < |ring'|
      ensures InOrder(size, ring', i, l)
    {
      assert InOrder(size, ring, if i < j then i else i + 1, if l < j then l else l + 1);
    }
    forall i: nat | i < |ring'|
      ensures i > 0 ==> Sized(size, ring', i)
      ensures InsideAt(size, ring', i, mem) && Apart(size, ring[j], ring'[i])
    {
      var i0 := if i < j then i else i + 1;
      assert ring'[i] == ring[i0] && (i > 0 ==> Sized(size, ring, i0)) && InsideAt(size, ring, i0, mem);
      assert InOrder(size, ring, i, j) && InOrder(size, ring, j, i + 1);
    }
  }

  /** A block that is apart from all others joins those in use. */
  lemma JoinLive(size: map<nat, nat>, ring: seq<nat>, live: seq<nat>, a: nat)
    requires LiveOk(size, ring, live) && a > BASE && SizeOf(size, a) > 0
    requires forall i :: 0 <= i < |ring| ==> Apart(size, a, ring[i])
    requires forall k :: 0 <= k < |live| ==> Apart(size, a, live[k])
    ensures LiveOk(size, ring, live + [a])
  {
    var live' := live + [a];
    forall k: nat | k < |live'|
      ensures Sized(size, live', k)
    {
      assert Sized(size, live, k);
    }
    forall k: nat, l: nat | k < l < |live'|
      ensures ApartAt(size, live', k, live', l)
    {
      assert ApartAt(size, live, k, live, l);
    }
    forall k: nat, i: nat | k < |live'| && i < |ring|
      ensures ApartAt(size, live', k, ring, i)
    {
      assert ApartAt(size, live, k, ring, i);
    }
  }

  lemma InsidePush(size: map<nat, nat>, s: seq<nat>, a: nat, mem: set<nat>)
    requires Inside(size, s, mem) && forall u: nat :: Holds(size, a, u) ==> u in mem
    ensures Inside(size, s + [a], mem)
  {
    forall i: nat | i < |s + [a]|
      ensures InsideAt(size, s + [a], i, mem)
    {
      assert InsideAt(size, s, i, mem);
    }
  }

  lemma UnitsPush(size: map<nat, nat>, s: seq<nat>, a: nat)
    ensures Units(size, s + [a]) == Units(size, s) + SizeOf(size, a)
  {
    assert (s + [a])[..|s|] == s;
  }

  /** A free block goes to the program whole. */
  lemma TakeWhole(size: map<nat, nat>, ring: seq<nat>, live: seq<nat>, mem: set<nat>, j: nat, ring': seq<nat>)
    requires Parted(size, ring, live, mem) && 0 < j < |ring| && ring' == Without(ring, j)
    ensures Parted(size, ring', live + [ring[j]], mem)
  {
    TakeWholeSorted(size, ring, j, ring', mem);
    forall k | 0 <= k < |live|
      ensures Apart(size, ring[j], live[k])
    {
      assert ApartAt(size, live, k, ring, j);
    }
    forall k: nat, i: nat | k < |live| && i < |ring'|
      ensures ApartAt(size, live, k, ring', i)
    {
      assert ApartAt(size, live, k, ring, if i < j then i else i + 1);
    }
    assert Sized(size, ring, j) && InsideAt(size, ring, j, mem);
    UnitsWithout(size, ring, j);
    JoinLive(size, ring', live, ring[j]);
    UnitsPush(size, live, ring[j]);
    InsidePush(size, live, ring[j], mem);
  }

  /** The tail of a free block does not start any other block. */
  lemma TailIsNew(size: map<nat, nat>, ring: seq<nat>, live: seq<nat>, j: nat, q: nat)
    requires Sorted(size, ring) && LiveOk(size, ring, live) && 0 < j < |ring| && ring[j] < q < End(size, ring[j])
    ensures forall i :: 0 <= i < |ring| ==> ring[i] != q
    ensures forall k :: 0 <= k < |live| ==> live[k] != q && live[k] != ring[j] && Apart(size, ring[j], live[k])
    ensures forall i :: 0 <= i < |ring| && i != j ==> ring[i] != ring[j] && Apart(size, ring[j], ring[i])
  {
    forall i: nat | i < |ring|
      ensures ring[i] != q && (i != j ==> ring[i] != ring[j] && Apart(size, ring[j], ring[i]))
    {
      Ascending(size, ring);
      assert InOrder(size, ring, i, j) && InOrder(size, ring, j, i);
    }
    forall k: nat | k < |live|
      ensures live[k] != q && live[k] != ring[j] && Apart(size, ring[j], live[k])
    {
      assert Sized(size, live, k) && ApartAt(size, live, k, ring, j);
    }
  }

  lemma TakeTailRing(size: map<nat, nat>, ring: seq<nat>, mem: set<nat>, j: nat, n: nat, q: nat, size': map<nat, nat>)
    requires Sorted(size, ring) && Inside(size, ring, mem) && 0 < j < |ring| && 0 < n < SizeOf(size, ring[j])
    requires forall i :: 0 <= i < |ring| ==> ring[i] != q && (i != j ==> ring[i] != ring[j])
    requires size' == size[ring[j] := SizeOf(size, ring[j]) - n][q := n]
    ensures Sorted(size', ring) && Inside(size', ring, mem)
  {
    forall i: nat, l: nat | i < l < |ring|
      ensures InOrder(size', ring, i, l)
    {
      assert InOrder(size, ring, i, l);
    }
    forall i: nat | i < |ring|
      ensures i > 0 ==> Sized(size', ring, i)
      ensures InsideAt(size', ring, i, mem)
    {
      assert (i > 0 ==> Sized(size, ring, i)) && InsideAt(size, ring, i, mem);
    }
    assert ring[0] == BASE;
  }

  /** Blocks in use do not notice that a free block loses units. */
  lemma TakeTailLive(size: map<nat, nat>, ring: seq<nat>, live: seq<nat>, mem: set<nat>, j: nat, n: nat, q: nat,
                     size': map<nat, nat>)
    requires LiveOk(size, ring, live) && Inside(size, live, mem) && 0 < j < |ring| && 0 < n < SizeOf(size, ring[j])
    requires forall i :: 0 <= i < |ring| ==> ring[i] != q
    requires forall k :: 0 <= k < |live| ==> live[k] != q && live[k] != ring[j]
    requires size' == size[ring[j] := SizeOf(size, ring[j]) - n][q := n]
    ensures LiveOk(size', ring, live) && Inside(size', live, mem)
  {
    forall k: nat | k < |live|
      ensures Sized(size', live, k) && InsideAt(size', live, k, mem)
    {
      assert Sized(size, live, k) && InsideAt(size, live, k, mem);
    }
    forall k: nat, l: nat | k < l < |live|
      ensures ApartAt(size', live, k, live, l)
    {
      assert ApartAt(size, live, k, live, l);
    }
    forall k: nat, i: nat | k < |live| && i < |ring|
      ensures ApartAt(size', live, k, ring, i)
    {
      assert ApartAt(size, live, k, ring, i);
    }
  }

  /** A free block keeps its head, and the program gets its last n units. */
  lemma TakeTail(size: map<nat, nat>, ring: seq<nat>, live: seq<nat>, mem: set<nat>, j: nat, n: nat, q: nat,
                 size': map<nat, nat>)
    requires Parted(size, ring, live, mem) && 0 < j < |ring| && 0 < n < SizeOf(size, ring[j])
    requires q == End(size, ring[j]) - n && size' == size[ring[j] := SizeOf(size, ring[j]) - n][q := n]
    ensures Parted(size', ring, live + [q], mem)
  {
    TailIsNew(size, ring, live, j, q);
    TakeTailRing(size, ring, mem, j, n, q, size');
    TakeTailLive(size, ring, live, mem, j, n, q, size');
    TakeTailUnits(size, ring, live, j, n, q, size');
    forall i | 0 <= i < |ring|
      ensures Apart(size', q, ring[i])
    {
      assert i != j ==> Apart(size, ring[j], ring[i]);
    }
    forall k | 0 <= k < |live|
      ensures Apart(size', q, live[k])
    {
      assert Apart(size, ring[j], live[k]);
    }
    assert Sized(size, ring, j) && InsideAt(size, ring, j, mem);
    JoinLive(size', ring, live, q);
    UnitsPush(size', live, q);
    InsidePush(size', live, q, mem);
  }

  lemma TakeTailUnits(size: map<nat, nat>, ring: seq<nat>, live: seq<nat>, j: nat, n: nat, q: nat, size': map<nat, nat>)
    requires j < |ring| && n < SizeOf(size, ring[j]) && q != ring[j]
    requires forall i :: 0 <= i < |ring| ==> ring[i] != q
    requires forall i :: 0 <= i < |ring| && i != j ==> ring[i] != ring[j]
    requires forall k :: 0 <= k < |live| ==> live[k] != q && live[k] != ring[j]
    requires size' == size[ring[j] := SizeOf(size, ring[j]) - n][q := n]
    ensures Units(size', live) == Units(size, live) && Units(size', ring) + n == Units(size, ring)
  {
    var rest := Without(ring, j);
    forall i | 0 <= i < |rest|
      ensures SizeOf(size, rest[i]) == SizeOf(size', rest[i])
    {
      assert rest[i] == ring[if i < j then i else i + 1];
    }
    UnitsFrame(size, size', rest);
    UnitsFrame(size, size', live);
    UnitsWithout(size, ring, j);
    UnitsWithout(size', ring, j);
  }

  /** All units in mem are below brk. */
  ghost predicate Bounded(mem: set<nat>, brk: nat) {
    forall u :: u in mem ==> u < brk
  }

  /** n units from a on. */
  ghost function Span(a: nat, n: nat): (s: set<nat>)
    ensures forall u: nat :: u in s <==> a <= u < a + n
  {
    if n == 0 then {} else Span(a, n - 1) + {a + n - 1}
  }

  lemma {:induction false} SpanSize(a: nat, n: nat)
    ensures |Span(a, n)| == n
  {
    if n > 0 {
      SpanSize(a, n - 1);
      assert Span(a, n) == Span(a, n - 1) + {a + n - 1};
    }
  }

  lemma MoreUnits(mem: set<nat>, a: nat, n: nat)
    requires Bounded(mem, a)
    ensures |mem + Span(a, n)| == |mem| + n && Bounded(mem + Span(a, n), a + n)
  {
    SpanSize(a, n);
    assert mem * Span(a, n) == {};
  }

  /** n new units above everything obtained before. */
  lemma Grow(size: map<nat, nat>, ring: seq<nat>, live: seq<nat>, mem: set<nat>, a: nat, n: nat, size': map<nat, nat>,
             mem': set<nat>)
    requires Parted(size, ring, live, mem) && Bounded(mem, a) && BASE < a && n > 0
    requires size' == size[a := n] && mem' == mem + Span(a, n)
    ensures Parted(size', ring, live + [a], mem')
  {
    GrowRing(size, ring, mem, a, n, size', mem');
    GrowLive(size, ring, live, mem, a, n, size', mem');
    UnitsFrame(size, size', ring);
    UnitsFrame(size, size', live);
    JoinLive(size', ring, live, a);
    UnitsPush(size', live, a);
    InsidePush(size', live, a, mem');
    MoreUnits(mem, a, n);
  }

  /** A block made of units below a ends at or before a. */
  lemma EndsBelow(size: map<nat, nat>, s: seq<nat>, i: nat, mem: set<nat>, a: nat)
    requires i < |s| && InsideAt(size, s, i, mem) && Bounded(mem, a) && s[i] < a
    ensures End(size, s[i]) <= a
  {
    if SizeOf(size, s[i]) > 0 {
      assert Holds(size, s[i], End(size, s[i]) - 1);
    }
  }

  lemma StartsBelow(size: map<nat, nat>, s: seq<nat>, i: nat, mem: set<nat>, a: nat)
    requires i < |s| && InsideAt(size, s, i, mem) && Bounded(mem, a) && BASE < a
    requires s[i] == BASE || SizeOf(size, s[i]) > 0
    ensures s[i] < a
  {
    if s[i] != BASE {
      assert Holds(size, s[i], s[i]);
    }
  }

  lemma GrowRing(size: map<nat, nat>, ring: seq<nat>, mem: set<nat>, a: nat, n: nat, size': map<nat, nat>,
                 mem': set<nat>)
    requires Sorted(size, ring) && Inside(size, ring, mem) && Bounded(mem, a) && BASE < a
    requires size' == size[a := n] && mem <= mem'
    ensures Sorted(size', ring) && Inside(size', ring, mem')
    ensures forall i :: 0 <= i < |ring| ==> SizeOf(size', ring[i]) == SizeOf(size, ring[i]) && Apart(size', a, ring[i])
  {
    forall i: nat | i < |ring|
      ensures ring[i] != a && SizeOf(size', ring[i]) == SizeOf(size, ring[i]) && Apart(size', a, ring[i])
      ensures InsideAt(size', ring, i, mem')
      ensures i > 0 ==> Sized(size', ring, i)
    {
      assert InsideAt(size, ring, i, mem) && (i > 0 ==> Sized(size, ring, i));
      StartsBelow(size, ring, i, mem, a);
      EndsBelow(size, ring, i, mem, a);
      assert forall u: nat :: Holds(size', ring[i], u) ==> Holds(size, ring[i], u);
    }
    forall i: nat, l: nat | i < l < |ring|
      ensures InOrder(size', ring, i, l)
    {
      assert InOrder(size, ring, i, l);
    }
  }

  lemma GrowLive(size: map<nat, nat>, ring: seq<nat>, live: seq<nat>, mem: set<nat>, a: nat, n: nat,
                 size': map<nat, nat>, mem': set<nat>)
    requires LiveOk(size, ring, live) && Inside(size, live, mem) && Bounded(mem, a) && BASE < a
    requires size' == size[a := n] && mem <= mem'
    requires forall i :: 0 <= i < |ring| ==> SizeOf(size', ring[i]) == SizeOf(size, ring[i])
    ensures LiveOk(size', ring, live) && Inside(size', live, mem')
    ensures forall k :: 0 <= k < |live| ==> SizeOf(size', live[k]) == SizeOf(size, live[k]) && Apart(size', a, live[k])
  {
    forall k: nat | k < |live|
      ensures SizeOf(size', live[k]) == SizeOf(size, live[k]) && Apart(size', a, live[k])
      ensures Sized(size', live, k) && InsideAt(size', live, k, mem')
    {
      assert Sized(size, live, k) && InsideAt(size, live, k, mem);
      StartsBelow(size, live, k, mem, a);
      EndsBelow(size, live, k, mem, a);
      assert forall u: nat :: Holds(size', live[k], u) ==> Holds(size, live[k], u);
    }
    forall k: nat, l: nat | k < l < |live|
      ensures ApartAt(size', live, k, live, l)
    {
      assert ApartAt(size, live, k, live, l);
    }
    forall k: nat, i: nat | k < |live| && i < |ring|
      ensures ApartAt(size', live, k, ring, i)
    {
      assert ApartAt(size, live, k, ring, i);
    }
  }

  // Free blocks stay coalesced.

  lemma PutInGaps(size: map<nat, nat>, ring: seq<nat>, t: nat, a: nat, ring': seq<nat>)
    requires Coalesced(size, ring) && t < |ring| && ring' == With(ring, t + 1, a)
    ensures forall i: nat :: i < |ring'| && i != t && i != t + 1 ==> Gap(size, ring', i)
  {
    forall i: nat | i < |ring'| && i != t && i != t + 1
      ensures Gap(size, ring', i)
    {
      var i0 := if i < t then i else i - 1;
      assert Gap(size, ring, i0);
      assert ring'[i] == ring[i0] && (i + 1 < |ring'| ==> ring'[i + 1] == ring[i0 + 1]);
    }
  }

  /** Fusing blocks t and t + 1 closes the one place, if any, where they touched, and opens none. */
  lemma FuseGaps(size: map<nat, nat>, ring: seq<nat>, t: nat, x: nat, size': map<nat, nat>, ring': seq<nat>)
    requires Sorted(size, ring) && 0 < t && t + 1 < |ring| && x <= t && ring' == Without(ring, t + 1)
    requires End(size, ring[t]) == ring[t + 1]
    requires size' == size[ring[t] := SizeOf(size, ring[t]) + SizeOf(size, ring[t + 1])]
    requires forall i: nat :: i < |ring| && i != t && i != x ==> Gap(size, ring, i)
    ensures forall i: nat :: i < |ring'| && (i != x || x == t) ==> Gap(size', ring', i)
  {
    Ascending(size, ring);
    forall i: nat | i < |ring'| && (i != x || x == t)
      ensures Gap(size', ring', i)
    {
      var i0 := if i < t then i else i + 1;
      assert Gap(size, ring, i0);
      assert i + 1 < |ring'| ==> ring'[i + 1] == ring[i0 + 1];
      assert ring'[i] == ring[if i <= t then i else i + 1];
    }
  }

  lemma TakeWholeGaps(size: map<nat, nat>, ring: seq<nat>, j: nat, ring': seq<nat>)
    requires Sorted(size, ring) && Coalesced(size, ring) && 0 < j < |ring| && ring' == Without(ring, j)
    ensures Coalesced(size, ring')
  {
    forall i: nat | i < |ring'|
      ensures Gap(size, ring', i)
    {
      var i0 := if i < j then i else i + 1;
      assert Gap(size, ring, i0) && Gap(size, ring, j);
      assert ring'[i] == ring[i0];
      assert i + 1 < |ring'| ==> ring'[i + 1] == ring[if i + 1 < j then i + 1 else i + 2];
    }
  }

  lemma TakeTailGaps(size: map<nat, nat>, ring: seq<nat>, j: nat, n: nat, q: nat, size': map<nat, nat>)
    requires Coalesced(size, ring) && 0 < j < |ring| && n < SizeOf(size, ring[j])
    requires forall i :: 0 <= i < |ring| ==> ring[i] != q
    requires size' == size[ring[j] := SizeOf(size, ring[j]) - n][q := n]
    ensures Coalesced(size', ring)
  {
    forall i: nat | i < |ring|
      ensures Gap(size', ring, i)
    {
      assert Gap(size, ring, i);
    }
  }

  // Walking round the ring.

  /** How many links lead from index i to index t. */
  function Steps(i: nat, t: nat, n: nat): (d: nat)
    requires i < n && t < n
    ensures d < n && (d == 0 <==> i == t)
  {
    if i <= t then t - i else t - i + n
  }

  /** free's loop stops at p, whose next block is next. */
  predicate Stops(p: nat, next: nat, bp: nat) {
    (bp > p && bp < next) || (p >= next && (bp > p || bp < next))
  }

  /** It stops just where bp belongs. */
  lemma StopsInPlace(size: map<nat, nat>, ring: seq<nat>, bp: nat, t: nat, i: nat)
    requires Sorted(size, ring) && GoesAfter(ring, bp, t) && i < |ring|
    ensures Stops(ring[i], ring[After(i, |ring|)], bp) <==> i == t
  {
    Ascending(size, ring);
  }

  lemma {:induction false} PlaceExists(size: map<nat, nat>, ring: seq<nat>, bp: nat, x: nat) returns (t: nat)
    requires Sorted(size, ring) && x < |ring| && ring[x] < bp && forall i :: 0 <= i < |ring| ==> ring[i] != bp
    ensures GoesAfter(ring, bp, t)
    decreases |ring| - x
  {
    if x + 1 < |ring| && ring[x + 1] < bp {
      t := PlaceExists(size, ring, bp, x + 1);
    } else {
      t := x;
    }
  }

  // free, on values: the block goes in, then is joined with the next and with the previous one.

  ghost predicate Listed(ptr: map<nat, nat>, size: map<nat, nat>, ring: seq<nat>, live: seq<nat>, mem: set<nat>) {
    Linked(ptr, ring) && Parted(size, ring, live, mem)
  }

  ghost predicate GapsBut(size: map<nat, nat>, ring: seq<nat>, x: nat, y: nat) {
    forall i: nat :: i < |ring| && i != x && i != y ==> Gap(size, ring, i)
  }

  predicate Touch(size: map<nat, nat>, ring: seq<nat>, u: nat) {
    u + 1 < |ring| && End(size, ring[u]) == ring[u + 1]
  }

  function JoinedSize(size: map<nat, nat>, ring: seq<nat>, u: nat): (r: map<nat, nat>) {
    if Touch(size, ring, u) then size[ring[u] := SizeOf(size, ring[u]) + SizeOf(size, ring[u + 1])] else size
  }

  function JoinedPtr(ptr: map<nat, nat>, size: map<nat, nat>, ring: seq<nat>, u: nat): (r: map<nat, nat>) {
    if Touch(size, ring, u) && ring[u + 1] in ptr then ptr[ring[u] := ptr[ring[u + 1]]] else ptr
  }

  function JoinedRing(size: map<nat, nat>, ring: seq<nat>, u: nat): (r: seq<nat>) {
    if Touch(size, ring, u) then Without(ring, u + 1) else ring
  }

  lemma Insert(ptr: map<nat, nat>, size: map<nat, nat>, ring: seq<nat>, live: seq<nat>, mem: set<nat>, k: nat, t: nat,
               ptr': map<nat, nat>, ring': seq<nat>, live': seq<nat>)
    requires Listed(ptr, size, ring, live, mem) && Coalesced(size, ring) && k < |live| && GoesAfter(ring, live[k], t)
    requires ring[t] in ptr && ptr' == ptr[live[k] := ptr[ring[t]]][ring[t] := live[k]]
    requires ring' == With(ring, t + 1, live[k]) && live' == Without(live, k)
    ensures Listed(ptr', size, ring', live', mem) && GapsBut(size, ring', t, t + 1)
  {
    PutIn(size, ring, live, mem, k, t, ring', live');
    PutInGaps(size, ring, t, live[k], ring');
    Ascending(size, ring');
    LinkIn(ptr, ring, t, live[k], ptr', ring');
  }

  lemma Join(ptr: map<nat, nat>, size: map<nat, nat>, ring: seq<nat>, live: seq<nat>, mem: set<nat>, u: nat, x: nat)
    requires Listed(ptr, size, ring, live, mem) && x <= u < |ring| && GapsBut(size, ring, x, u)
    ensures Listed(JoinedPtr(ptr, size, ring, u), JoinedSize(size, ring, u), JoinedRing(size, ring, u), live, mem)
    ensures x < u ==> GapsBut(JoinedSize(size, ring, u), JoinedRing(size, ring, u), x, x)
    ensures x == u ==> Coalesced(JoinedSize(size, ring, u), JoinedRing(size, ring, u))
  {
    if Touch(size, ring, u) {
      Ascending(size, ring);
      assert u > 0;
      var size', ring' := JoinedSize(size, ring, u), JoinedRing(size, ring, u);
      Fuse(size, ring, live, mem, u, size', ring');
      FuseGaps(size, ring, u, x, size', ring');
      assert LinkAt(ptr, ring, u + 1);
      LinkOut(ptr, ring, u, JoinedPtr(ptr, size, ring, u), ring');
    } else {
      assert InOrder(size, ring, u, u + 1);
      assert Gap(size, ring, u);
    }
  }

  // What morecore asks for.

  /** sbrk takes a 32-bit int. */
  function ToInt32(x: nat): (r: int) {
    var y := x % 0x1_0000_0000;
    if y < 0x8000_0000 then y else y - 0x1_0000_0000
  }

  /** The units nbytes and a header need: nbytes is a 32-bit unsigned, the sum 64-bit. */
  function UnitsFor(nbytes: nat): (n: nat)
    ensures n >= 1 && (n - 1) * UNIT >= nbytes && (n - 1) * UNIT < nbytes + UNIT
  {
    (nbytes + UNIT - 1) / UNIT + 1
  }

  /** The units morecore writes into the new block's header when n are wanted. */
  function Wanted(n: nat): (nu: nat) {
    if n < MINUNITS then MINUNITS else n
  }

  /** The bytes it asks sbrk for. */
  function Request(n: nat): (bytes: int) {
    ToInt32(Wanted(n) * UNIT)
  }

  /** The request survives its conversion to int. */
  predicate Askable(n: nat) {
    n < 0x800_0000
  }

  lemma RequestExact(n: nat)
    requires n <= UnitsFor(0xFFFF_FFFF)
    ensures Request(n) == Wanted(n) * UNIT <==> Askable(n)
  {
    var x := Wanted(n) * UNIT;
    assert x < 2 * 0x1_0000_0000;
    assert x >= 0x1_0000_0000 ==> x % 0x1_0000_0000 == x - 0x1_0000_0000;
  }

  /** A request for the largest size asks sbrk for one header, and labels it with 2^28 + 1 units. */
  lemma LargestRequest()
    ensures UnitsFor(0xFFFF_FFFF) == 0x1000_0001 && Request(0x1000_0001) == 16
  {
    assert 0x1000_0001 * UNIT == 0x1_0000_0010;
    assert 0x1_0000_0010 % 0x1_0000_0000 == 0x10;
  }

  /** With the label morecore writes, units in blocks equal units obtained just when the request
      survived its conversion. */
  lemma LabelExact(size: map<nat, nat>, ring: seq<nat>, live: seq<nat>, mem: set<nat>, a: nat, n: nat,
                   size': map<nat, nat>)
    requires Parted(size, ring, live, mem) && Bounded(mem, a) && BASE < a
    requires n <= UnitsFor(0xFFFF_FFFF) && size' == size[a := Wanted(n)]
    ensures (Units(size', ring) + Units(size', live + [a])) * UNIT == |mem| * UNIT + Request(n) <==> Askable(n)
  {
    Grow(size, ring, live, mem, a, Wanted(n), size', mem + Span(a, Wanted(n)));
    MoreUnits(mem, a, Wanted(n));
    RequestExact(n);
  }

  /** The blocks in use other than live[k] are neither it nor a free block. */
  lemma OthersApart(size: map<nat, nat>, ring: seq<nat>, live: seq<nat>, k: nat, i: nat, live': seq<nat>)
    requires Sorted(size, ring) && LiveOk(size, ring, live) && k < |live| && i < |ring| && live' == Without(live, k)
    ensures forall l :: 0 <= l < |live'| ==> live'[l] != live[k] && live'[l] != ring[i]
    ensures live[k] != ring[i]
  {
    NotLive(size, ring, live, i);
    WithoutLive(size, ring, live, k, live');
    forall l: nat | l < |live'|
      ensures live'[l] != live[k] && live'[l] != ring[i]
    {
      var l0 := if l < k then l else l + 1;
      assert live'[l] == live[l0];
      assert ApartAt(size, live, l0, live, k) && Sized(size, live, l0) && Sized(size, live, k);
    }
  }

  lemma NotListed(size: map<nat, nat>, ring: seq<nat>, live: seq<nat>, k: nat)
    requires Sorted(size, ring) && LiveOk(size, ring, live) && k < |live|
    ensures ring[0] < live[k] && forall i :: 0 <= i < |ring| ==> ring[i] != live[k]
  {
    forall i: nat | i < |ring|
      ensures ring[i] != live[k]
    {
      NotLive(size, ring, live, i);
    }
    NotLive(size, ring, live, 0);
  }

  /** One look of free's loop, at index i. */
  lemma AtPlace(ptr: map<nat, nat>, size: map<nat, nat>, ring: seq<nat>, bp: nat, t: nat, i: nat)
    requires Linked(ptr, ring) && Sorted(size, ring) && GoesAfter(ring, bp, t) && i < |ring|
    ensures After(i, |ring|) < |ring| && ring[i] in ptr && ptr[ring[i]] == ring[After(i, |ring|)]
    ensures Stops(ring[i], ptr[ring[i]], bp) <==> i == t
    ensures i != t ==> Steps(After(i, |ring|), t, |ring|) < Steps(i, t, |ring|)
  {
    assert LinkAt(ptr, ring, i);
    StopsInPlace(size, ring, bp, t, i);
  }

  /** Whether block u touches the next one is seen from its link. */
  lemma NextOf(ptr: map<nat, nat>, size: map<nat, nat>, ring: seq<nat>, u: nat)
    requires Linked(ptr, ring) && Sorted(size, ring) && 0 < u < |ring|
    ensures ring[u] in ptr && ring[u] in size
    ensures Touch(size, ring, u) <==> End(size, ring[u]) == ptr[ring[u]]
    ensures Touch(size, ring, u) ==> ptr[ring[u]] in ptr && ptr[ring[u]] in size && ptr[ring[u]] == ring[u + 1]
    ensures Touch(size, ring, u) ==> forall i :: 0 <= i <= u ==> ring[i] != ring[u + 1]
  {
    Ascending(size, ring);
    assert LinkAt(ptr, ring, u) && Sized(size, ring, u);
    assert u + 1 < |ring| ==> LinkAt(ptr, ring, u + 1) && Sized(size, ring, u + 1);
  }

  /** Blocks p and bp are at t and t + 1. */
  ghost predicate Placed(ring: seq<nat>, t: nat, p: nat, bp: nat) {
    t + 1 < |ring| && ring[t] == p && ring[t + 1] == bp && bp > BASE && p != bp
  }

  lemma JoinNextLinks(ptr: map<nat, nat>, ptr1: map<nat, nat>, size: map<nat, nat>, ring: seq<nat>, t: nat, p: nat,
                      bp: nat, next: nat)
    requires Linked(ptr1, ring) && Sorted(size, ring) && Placed(ring, t, p, bp) && Touch(size, ring, t + 1)
    requires ptr1 == ptr[bp := next][p := bp] && ring[t + 2] == next
    ensures next in ptr && next in size && JoinedPtr(ptr1, size, ring, t + 1) == ptr[bp := ptr[next]][p := bp]
    ensures Placed(Without(ring, t + 2), t, p, bp)
  {
    NextOf(ptr1, size, ring, t + 1);
  }

  lemma JoinNextOk(ptr: map<nat, nat>, size: map<nat, nat>, ring: seq<nat>, live: seq<nat>, mem: set<nat>, t: nat,
                   p: nat, bp: nat, next: nat)
    requires Placed(ring, t, p, bp) && p in ptr && ptr[p] == next
    requires Listed(ptr[bp := next][p := bp], size, ring, live, mem) && GapsBut(size, ring, t, t + 1)
    ensures bp in size
    ensures bp + size[bp] == next ==>
      next in ptr && next in size && t + 2 < |ring| && Placed(Without(ring, t + 2), t, p, bp)
    ensures bp + size[bp] == next ==>
      Listed(ptr[bp := ptr[next]][p := bp], size[bp := size[bp] + size[next]], Without(ring, t + 2), live, mem)
    ensures bp + size[bp] == next ==> GapsBut(size[bp := size[bp] + size[next]], Without(ring, t + 2), t, t)
    ensures bp + size[bp] != next ==> GapsBut(size, ring, t, t)
  {
    var ptr1 := ptr[bp := next][p := bp];
    NextOf(ptr1, size, ring, t + 1);
    Join(ptr1, size, ring, live, mem, t + 1, t);
    if bp + size[bp] == next {
      JoinNextLinks(ptr, ptr1, size, ring, t, p, bp, next);
    }
  }

  lemma JoinPrevOk(ptr: map<nat, nat>, size: map<nat, nat>, ring: seq<nat>, live: seq<nat>, mem: set<nat>, t: nat,
                   p: nat, bp: nat)
    requires Placed(ring, t, p, bp) && bp in ptr && p in size
    requires Listed(ptr[p := bp], size, ring, live, mem) && GapsBut(size, ring, t, t)
    ensures p + size[p] == bp ==> bp in size && Coalesced(size[p := size[p] + size[bp]], Without(ring, t + 1))
    ensures p + size[p] == bp ==>
      Listed(ptr[p := ptr[bp]], size[p := size[p] + size[bp]], Without(ring, t + 1), live, mem)
    ensures p + size[p] != bp ==> Coalesced(size, ring)
  {
    Join(ptr[p := bp], size, ring, live, mem, t, t);
    assert Sized(size, ring, t + 1);
    assert p + size[p] == bp ==> ptr[p := bp][p := ptr[bp]] == ptr[p := ptr[bp]];
  }

  lemma PlacedIn(size: map<nat, nat>, ring: seq<nat>, live: seq<nat>, k: nat, t: nat)
    requires Sorted(size, ring) && LiveOk(size, ring, live) && k < |live| && t < |ring|
    ensures Placed(With(ring, t + 1, live[k]), t, ring[t], live[k])
  {
    NotLive(size, ring, live, t);
  }

  lemma HasSize(size: map<nat, nat>, ring: seq<nat>, t: nat)
    requires Sorted(size, ring) && BASE in size && t < |ring|
    ensures ring[t] in size && ring[t] != 0
  {
    assert t > 0 ==> Sized(size, ring, t);
  }

  /** A block obtained from sbrk leaves the free list as it is. */
  lemma MoreBlock(ptr: map<nat, nat>, size: map<nat, nat>, ring: seq<nat>, live: seq<nat>, mem: set<nat>, a: nat,
                  n: nat, size': map<nat, nat>,
                  mem': set<nat>)
    requires Listed(ptr, size, ring, live, mem) && Coalesced(size, ring) && Bounded(mem, a) && BASE < a && n > 0
    requires size' == size[a := n] && mem' == mem + Span(a, n)
    ensures Listed(ptr, size', ring, live + [a], mem') && Coalesced(size', ring) && Bounded(mem', a + n)
    ensures forall k :: 0 <= k < |live| ==> SizeOf(size', live[k]) == SizeOf(size, live[k])
  {
    Grow(size, ring, live, mem, a, n, size', mem');
    GrowRing(size, ring, mem, a, n, size', mem');
    GrowLive(size, ring, live, mem, a, n, size', mem');
    MoreUnits(mem, a, n);
    forall i: nat | i < |ring|
      ensures Gap(size', ring, i)
    {
      assert Gap(size, ring, i);
    }
  }

  lemma CarveFacts(ptr: map<nat, nat>, size: map<nat, nat>, ring: seq<nat>, i: nat, p: nat)
    requires Linked(ptr, ring) && Sorted(size, ring) && i + 1 < |ring| && ring[i + 1] == p
    ensures p in size && p in ptr && p > BASE && ring[i] != 0
  {
    Ascending(size, ring);
    assert Sized(size, ring, i + 1) && LinkAt(ptr, ring, i + 1);
    assert i > 0 ==> Sized(size, ring, i);
  }

  /** The blocks met before index q, when walking from index s, are smaller than n. */
  ghost predicate FirstFit(size: map<nat, nat>, ring: seq<nat>, s: nat, q: nat, n: nat) {
    s < |ring| && q < |ring| && forall x: nat :: x < |ring| && Steps(s, x, |ring|) < Steps(s, q, |ring|) ==>
      SizeOf(size, ring[x]) < n
  }

  ghost predicate NoneFits(size: map<nat, nat>, ring: seq<nat>, n: nat) {
    forall x :: 0 <= x < |ring| ==> SizeOf(size, ring[x]) < n
  }

  lemma NextLink(ptr: map<nat, nat>, size: map<nat, nat>, ring: seq<nat>, i: nat)
    requires Linked(ptr, ring) && Sorted(size, ring) && BASE in size && i < |ring|
    ensures After(i, |ring|) < |ring| && ring[i] in ptr && ptr[ring[i]] == ring[After(i, |ring|)]
    ensures ptr[ring[i]] in size
  {
    assert LinkAt(ptr, ring, i);
    HasSize(size, ring, After(i, |ring|));
  }

  lemma MoreSeen(size: map<nat, nat>, ring: seq<nat>, at: nat, s: nat, q: nat, n: nat)
    requires at < |ring| && s == After(at, |ring|) && FirstFit(size, ring, s, q, n) && ring[q] != ring[at]
    requires SizeOf(size, ring[q]) < n
    ensures FirstFit(size, ring, s, After(q, |ring|), n)
    ensures Steps(After(q, |ring|), at, |ring|) < Steps(q, at, |ring|)
  {
    forall x: nat | x < |ring| && Steps(s, x, |ring|) < Steps(s, After(q, |ring|), |ring|)
      ensures SizeOf(size, ring[x]) < n
    {
      assert x == q || Steps(s, x, |ring|) < Steps(s, q, |ring|);
    }
  }

  lemma AllSeen(size: map<nat, nat>, ring: seq<nat>, at: nat, s: nat, q: nat, n: nat)
    requires Sorted(size, ring) && at < |ring| && s == After(at, |ring|) && FirstFit(size, ring, s, q, n)
    requires ring[q] == ring[at] && SizeOf(size, ring[q]) < n
    ensures NoneFits(size, ring, n)
  {
    Ascending(size, ring);
    forall x: nat | x < |ring|
      ensures SizeOf(size, ring[x]) < n
    {
      assert x == q || Steps(s, x, |ring|) < Steps(s, q, |ring|);
    }
  }

  /** Disjoint blocks of units in mem have at most as many units as mem. */
  lemma {:induction false} UnitsFit(size: map<nat, nat>, s: seq<nat>, mem: set<nat>)
    requires Inside(size, s, mem) && forall k: nat, l: nat :: k < l < |s| ==> ApartAt(size, s, k, s, l)
    ensures Units(size, s) <= |mem|
  {
    if s != [] {
      var n := |s| - 1;
      var last := Span(s[n], SizeOf(size, s[n]));
      SpanSize(s[n], SizeOf(size, s[n]));
      assert InsideAt(size, s, n, mem);
      assert last <= mem by {
        forall u | u in last ensures u in mem { assert Holds(size, s[n], u); }
      }
      assert |mem - last| == |mem| - |last|;
      forall k: nat | k < n
        ensures InsideAt(size, s[..n], k, mem - last)
      {
        assert InsideAt(size, s, k, mem) && ApartAt(size, s, k, s, n);
      }
      forall k: nat, l: nat | k < l < n
        ensures ApartAt(size, s[..n], k, s[..n], l)
      {
        assert ApartAt(size, s, k, s, l);
      }
      UnitsFit(size, s[..n], mem - last);
    }
  }

  lemma BlocksApart(size: map<nat, nat>, ring: seq<nat>, live: seq<nat>, mem: set<nat>, s: seq<nat>)
    requires Parted(size, ring, live, mem) && s == ring + live
    ensures Inside(size, s, mem) && Units(size, s) == |mem|
    ensures forall k: nat, l: nat :: k < l < |s| ==> ApartAt(size, s, k, s, l)
  {
    UnitsConcat(size, ring, live);
    forall k: nat, l: nat | k < l < |s|
      ensures ApartAt(size, s, k, s, l)
    {
      if l < |ring| {
        assert InOrder(size, ring, k, l);
      } else if k < |ring| {
        assert ApartAt(size, live, l - |ring|, ring, k);
      } else {
        assert ApartAt(size, live, k - |ring|, live, l - |ring|);
      }
    }
    forall k: nat | k < |s|
      ensures InsideAt(size, s, k, mem)
    {
      assert if k < |ring| then InsideAt(size, ring, k, mem) else InsideAt(size, live, k - |ring|, mem);
    }
  }

  /** Every unit obtained from sbrk is in some block, free or in use. */
  lemma NoUnitLost(size: map<nat, nat>, ring: seq<nat>, live: seq<nat>, mem: set<nat>, u: nat)
    requires Parted(size, ring, live, mem) && u in mem
    ensures exists k :: 0 <= k < |ring + live| && Holds(size, (ring + live)[k], u)
  {
    var s := ring + live;
    BlocksApart(size, ring, live, mem, s);
    if forall k :: 0 <= k < |s| ==> !Holds(size, s[k], u) {
      forall k: nat | k < |s|
        ensures InsideAt(size, s, k, mem - {u})
      {
        assert InsideAt(size, s, k, mem);
      }
      UnitsFit(size, s, mem - {u});
    }
  }

  /** No unit is in two blocks, free or in use. */
  lemma UnitInOneBlock(size: map<nat, nat>, ring: seq<nat>, live: seq<nat>, mem: set<nat>, u: nat, x: nat, y: nat)
    requires Parted(size, ring, live, mem) && x < y < |ring + live|
    ensures !(Holds(size, (ring + live)[x], u) && Holds(size, (ring + live)[y], u))
  {
    BlocksApart(size, ring, live, mem, ring + live);
    assert ApartAt(size, ring + live, x, ring + live, y);
  }

  /** malloc's state: the headers in memory, freep (0 before the first call), and, in ghost form, the
      free blocks in order, the blocks in use, the units obtained from sbrk, and the address after the
      last of them. */
  /** A list that is in order, with room below brk only. */
  ghost predicate Sound(ptr: map<nat, nat>, size: map<nat, nat>, ring: seq<nat>, live: seq<nat>, mem: set<nat>,
                        brk: nat) {
    Listed(ptr, size, ring, live, mem) && Coalesced(size, ring) && Bounded(mem, brk) && brk > BASE && BASE in size
  }

  ghost predicate SameSizes(size: map<nat, nat>, size': map<nat, nat>, s: seq<nat>) {
    forall k :: 0 <= k < |s| ==> SizeOf(size', s[k]) == SizeOf(size, s[k])
  }

  /** free links block live[k] in after ring[t]. */
  lemma FreeStart(ptr: map<nat, nat>, size: map<nat, nat>, ring: seq<nat>, live: seq<nat>, mem: set<nat>, brk: nat,
                  k: nat, t: nat, ptr': map<nat, nat>, ring': seq<nat>, live': seq<nat>)
    requires Sound(ptr, size, ring, live, mem, brk) && k < |live| && GoesAfter(ring, live[k], t)
    requires ring[t] in ptr && ptr' == ptr[live[k] := ptr[ring[t]]][ring[t] := live[k]]
    requires ring' == With(ring, t + 1, live[k]) && live' == Without(live, k)
    ensures Listed(ptr', size, ring', live', mem) && GapsBut(size, ring', t, t + 1)
    ensures Placed(ring', t, ring[t], live[k]) && ring[t] in size && ring[t] != 0 && live[k] != ring[t]
    ensures forall l :: 0 <= l < |live'| ==> live'[l] != live[k] && live'[l] != ring[t]
  {
    OthersApart(size, ring, live, k, t, live');
    Insert(ptr, size, ring, live, mem, k, t, ptr', ring', live');
    HasSize(size, ring, t);
    PlacedIn(size, ring, live, k, t);
  }

  lemma ObtainSound(ptr: map<nat, nat>, size: map<nat, nat>, ring: seq<nat>, live: seq<nat>, mem: set<nat>, brk: nat,
                    a: nat, n: nat, size': map<nat, nat>, live': seq<nat>, mem': set<nat>, brk': nat)
    requires Sound(ptr, size, ring, live, mem, brk) && a >= brk && n > 0
    requires size' == size[a := n] && live' == live + [a] && mem' == mem + Span(a, n) && brk' == a + n
    ensures Sound(ptr, size', ring, live', mem', brk') && SameSizes(size, size', live)
  {
    assert Bounded(mem, a);
    MoreBlock(ptr, size, ring, live, mem, a, n, size', mem');
  }

  /** malloc hands out the block after ring[i] whole. */
  lemma CarveWhole(ptr: map<nat, nat>, size: map<nat, nat>, ring: seq<nat>, live: seq<nat>, mem: set<nat>, brk: nat,
                   i: nat, p: nat, ptr': map<nat, nat>, ring': seq<nat>, live': seq<nat>)
    requires Sound(ptr, size, ring, live, mem, brk) && i + 1 < |ring| && ring[i + 1] == p && p in ptr
    requires ptr' == ptr[ring[i] := ptr[p]] && ring' == Without(ring, i + 1) && live' == live + [p]
    ensures Sound(ptr', size, ring', live', mem, brk) && i < |ring'| && ring'[i] == ring[i]
  {
    Ascending(size, ring);
    TakeWhole(size, ring, live, mem, i + 1, ring');
    TakeWholeGaps(size, ring, i + 1, ring');
    LinkOut(ptr, ring, i, ptr', ring');
    WithoutAt(ring, i + 1, i);
  }

  /** malloc hands out the last n units of the block after ring[i]. */
  lemma CarveTail(ptr: map<nat, nat>, size: map<nat, nat>, ring: seq<nat>, live: seq<nat>, mem: set<nat>, brk: nat,
                  i: nat, p: nat, n: nat, b: nat, size': map<nat, nat>, live': seq<nat>)
    requires Sound(ptr, size, ring, live, mem, brk) && i + 1 < |ring| && ring[i + 1] == p && 0 < n < SizeOf(size, p)
    requires b == End(size, p) - n && size' == size[p := SizeOf(size, p) - n][b := n] && live' == live + [b]
    ensures Sound(ptr, size', ring, live', mem, brk) && SameSizes(size, size', live)
  {
    TailIsNew(size, ring, live, i + 1, b);
    TakeTail(size, ring, live, mem, i + 1, n, b, size');
    TakeTailGaps(size, ring, i + 1, n, b, size');
  }

  class Heap {
    var ptr: map<nat, nat>
    var size: map<nat, nat>
    var freep: nat
    ghost var ring: seq<nat>
    ghost var live: seq<nat>
    ghost var at: nat
    ghost var mem: set<nat>
    ghost var brk: nat

    ghost predicate Ready()
      reads this
    {
      Sound(ptr, size, ring, live, mem, brk) && at < |ring| && ring[at] == freep != 0
    }

    ghost predicate Valid()
      reads this
    {
      if freep == 0 then ring == [] && live == [] && mem == {} && brk > BASE else Ready()
    }

    constructor (heap: nat)
      requires heap > BASE
      ensures Valid() && live == [] && mem == {}
    {
      ptr, size, freep := map[], map[], 0;
      ring, live, brk, mem := [], [], heap, {};
    }

    /** The loop of free: it ends, and at the place where bp belongs. */
    method FindPlace(bp: nat, ghost k: nat) returns (p: nat, ghost t: nat)
      requires Ready() && k < |live| && live[k] == bp
      ensures GoesAfter(ring, bp, t) && p == ring[t]
      ensures p in ptr && Stops(p, ptr[p], bp)
    {
      NotListed(size, ring, live, k);
      t := PlaceExists(size, ring, bp, 0);
      p := freep;
      ghost var i: nat := at;
      AtPlace(ptr, size, ring, bp, t, i);
      while !(bp > p && bp < ptr[p])
        invariant i < |ring| && p == ring[i] && p in ptr
        invariant Stops(p, ptr[p], bp) <==> i == t
        decreases Steps(i, t, |ring|)
      {
        if p >= ptr[p] && (bp > p || bp < ptr[p]) {
          break;
        }
        AtPlace(ptr, size, ring, bp, t, i);
        p := ptr[p];
        i := After(i, |ring|);
        AtPlace(ptr, size, ring, bp, t, i);
      }
    }

    /** free's first merge: block bp, about to follow p, with the block after it. */
    method JoinNext(p: nat, bp: nat, ghost t: nat)
      requires p in ptr && Placed(ring, t, p, bp)
      requires Listed(ptr[bp := ptr[p]][p := bp], size, ring, live, mem) && GapsBut(size, ring, t, t + 1)
      modifies `ptr, `size, `ring
      ensures bp in ptr && Listed(ptr[p := bp], size, ring, live, mem) && GapsBut(size, ring, t, t)
      ensures Placed(ring, t, p, bp)
      ensures forall a :: a != bp ==> SizeOf(size, a) == SizeOf(old(size), a)
      ensures SizeOf(size, bp) >= SizeOf(old(size), bp) && size.Keys == old(size.Keys)
    {
      var next := ptr[p];
      JoinNextOk(ptr, size, ring, live, mem, t, p, bp, next);
      if bp + size[bp] == next {
        size := size[bp := size[bp] + size[next]];
        ptr := ptr[bp := ptr[next]];
        ring := Without(ring, t + 2);
      } else {
        ptr := ptr[bp := next];
      }
    }

    /** free's second merge: block p with bp, which follows it. */
    method JoinPrev(p: nat, bp: nat, ghost t: nat) returns (ghost j: nat)
      requires bp in ptr && Placed(ring, t, p, bp)
      requires Listed(ptr[p := bp], size, ring, live, mem) && GapsBut(size, ring, t, t) && p in size
      modifies `ptr, `size, `ring
      ensures Listed(ptr, size, ring, live, mem) && Coalesced(size, ring)
      ensures t < |ring| && ring[t] == p
      ensures forall a :: a != p ==> SizeOf(size, a) == SizeOf(old(size), a)
      ensures j < |ring| && SizeOf(size, ring[j]) >= SizeOf(old(size), bp) && size.Keys == old(size.Keys)
    {
      JoinPrevOk(ptr, size, ring, live, mem, t, p, bp);
      if p + size[p] == bp {
        size := size[p := size[p] + size[bp]];
        ptr := ptr[p := ptr[bp]];
        ring := Without(ring, t + 1);
        j := t;
      } else {
        ptr := ptr[p := bp];
        j := t + 1;
      }
    }

    /** free: the block goes back, coalesced with both neighbours; the others in use keep theirs. */
    method Free(bp: nat, ghost k: nat) returns (ghost j: nat)
      requires Valid() && k < |live| && live[k] == bp
      modifies this
      ensures Ready() && live == Without(old(live), k) && mem == old(mem) && brk == old(brk)
      ensures SameSizes(old(size), size, live)
      ensures j < |ring| && SizeOf(size, ring[j]) >= SizeOf(old(size), bp)
    {
      var p;
      ghost var t;
      p, t := FindPlace(bp, k);
      ghost var ring', live' := With(ring, t + 1, bp), Without(live, k);
      FreeStart(ptr, size, ring, live, mem, brk, k, t, ptr[bp := ptr[p]][p := bp], ring', live');
      ring, live := ring', live';
      JoinNext(p, bp, t);
      j := JoinPrev(p, bp, t);
      freep := p;
      at := t;
    }

    /** New memory of n units at hp, above everything obtained before, as a block in use. */
    method Obtain(hp: nat, n: nat)
      requires Ready() && n > 0 && hp >= brk
      modifies `size, `live, `brk, `mem
      ensures Ready() && live == old(live) + [hp] && SizeOf(size, hp) == n && mem == old(mem) + Span(hp, n)
      ensures forall l :: 0 <= l < |old(live)| ==> SizeOf(size, old(live)[l]) == SizeOf(old(size), old(live)[l])
    {
      ghost var mem', live' := mem + Span(hp, n), live + [hp];
      ObtainSound(ptr, size, ring, live, mem, brk, hp, n, size[hp := n], live', mem', hp + n);
      size := size[hp := n];
      live, brk, mem := live', hp + n, mem';
    }

    /** It goes through free, as in morecore. */
    method AddBlock(hp: nat, n: nat) returns (ghost j: nat)
      requires Ready() && n > 0 && hp >= brk
      modifies this
      ensures Ready() && live == old(live) && mem == old(mem) + Span(hp, n) && j < |ring| && SizeOf(size, ring[j]) >= n
      ensures forall l :: 0 <= l < |live| ==> SizeOf(size, live[l]) == SizeOf(old(size), live[l])
    {
      Obtain(hp, n);
      assert Without(live, |live| - 1) == old(live);
      j := Free(hp, |live| - 1);
    }

    /** morecore, when sbrk answers hp: 0 if it fails, else the start of the new memory. asked says that
        the request survived its conversion to int; otherwise nothing is promised. */
    method Morecore(n: nat, hp: nat) returns (p: nat, asked: bool, ghost j: nat)
      requires Ready() && 1 <= n <= 0x1000_0001 && (hp == 0 || hp >= brk)
      modifies this
      ensures asked <==> Askable(n)
      ensures asked ==> Ready() && live == old(live)
      ensures asked ==> forall l :: 0 <= l < |live| ==> SizeOf(size, live[l]) == SizeOf(old(size), live[l])
      ensures asked && hp == 0 ==> p == 0 && mem == old(mem)
      ensures asked && hp != 0 ==>
        p == freep && mem == old(mem) + Span(hp, Wanted(n)) && j < |ring| && SizeOf(size, ring[j]) >= n
    {
      LargestRequest();
      RequestExact(n);
      j, p := 0, 0;
      var nu, bytes := Wanted(n), Request(n);
      asked := bytes == nu * UNIT;
      if asked && hp != 0 {
        j := AddBlock(hp, nu);
        p := freep;
      }
    }

    /** Block p, which follows prevp, goes whole. */
    method CutWhole(prevp: nat, p: nat, ghost i: nat)
      requires Ready() && i + 1 < |ring| && ring[i] == prevp && ring[i + 1] == p && p in ptr && prevp != 0
      modifies `ptr, `ring, `live, `freep, `at
      ensures Ready() && live == old(live) + [p]
    {
      CarveWhole(ptr, size, ring, live, mem, brk, i, p, ptr[prevp := ptr[p]], Without(ring, i + 1), live + [p]);
      ptr := ptr[prevp := ptr[p]];
      ring, live := Without(ring, i + 1), live + [p];
      freep := prevp;
      at := i;
    }

    /** Block p, which follows prevp, gives n units from its end. */
    method CutTail(prevp: nat, p: nat, n: nat, ghost i: nat) returns (b: nat)
      requires Ready() && i + 1 < |ring| && ring[i] == prevp && ring[i + 1] == p && p in size && prevp != 0
      requires 0 < n < size[p]
      modifies `size, `live, `freep, `at
      ensures Ready() && b > p && live == old(live) + [b] && SizeOf(size, b) == n
      ensures SameSizes(old(size), size, old(live))
    {
      var s := size[p] - n;
      b := p + s;
      CarveTail(ptr, size, ring, live, mem, brk, i, p, n, b, size[p := s][b := n], live + [b]);
      size := size[p := s][b := n];
      live := live + [b];
      freep := prevp;
      at := i;
    }

    /** The end of malloc: block p, which follows prevp, gives n units from its end, or goes whole. */
    method Carve(prevp: nat, p: nat, n: nat, ghost i: nat) returns (b: nat)
      requires Ready() && n >= 1 && i + 1 < |ring| && ring[i] == prevp && ring[i + 1] == p && SizeOf(size, p) >= n
      modifies this
      ensures Ready() && b != 0 && live == old(live) + [b] && SizeOf(size, b) == n && mem == old(mem)
      ensures SameSizes(old(size), size, old(live))
    {
      CarveFacts(ptr, size, ring, i, p);
      if size[p] == n {
        CutWhole(prevp, p, i);
        b := p;
      } else {
        b := CutTail(prevp, p, n, i);
      }
    }

    /** malloc's walk from freep once round the ring: the first block after freep that is large enough. */
    method Scan(n: nat) returns (found: bool, prevp: nat, p: nat, ghost i: nat)
      requires Ready() && n >= 1
      ensures found ==> i + 1 < |ring| && ring[i] == prevp && ring[i + 1] == p && SizeOf(size, p) >= n
      ensures found ==> FirstFit(size, ring, After(at, |ring|), i + 1, n)
      ensures !found ==> NoneFits(size, ring, n)
    {
      ghost var s, q: nat := After(at, |ring|), After(at, |ring|);
      prevp, i := freep, at;
      NextLink(ptr, size, ring, i);
      p := ptr[prevp];
      found := size[p] >= n;
      while !found && p != freep
        invariant i < |ring| && q == After(i, |ring|) && q < |ring| && ring[i] == prevp && ring[q] == p && p in size
        invariant found <==> size[p] >= n
        invariant FirstFit(size, ring, s, q, n)
        decreases Steps(q, at, |ring|)
      {
        NextLink(ptr, size, ring, q);
        MoreSeen(size, ring, at, s, q, n);
        prevp, p := p, ptr[p];
        i, q := q, After(q, |ring|);
        found := size[p] >= n;
      }
      if !found {
        AllSeen(size, ring, at, s, q, n);
      }
    }

    /** malloc's first call sets up a list of `base` alone. */
    method Start()
      requires Valid() && freep == 0
      modifies this
      ensures Ready() && live == [] && mem == {} && brk == old(brk) && ring == [BASE]
    {
      ptr, size, freep := map[BASE := BASE], map[BASE := 0], BASE;
      ring, at := [BASE], 0;
      assert LinkAt(ptr, ring, 0);
      assert Units(size, ring[..0]) == 0;
    }

    /** malloc's loop: a walk round the ring, then morecore and a second walk, which cannot fail. */
    method Take(n: nat, hp: nat) returns (b: nat, asked: bool)
      requires Ready() && 1 <= n <= 0x1000_0001 && (hp == 0 || hp >= brk)
      modifies this
      ensures asked || !Askable(n)
      ensures asked ==> Ready() && |live| >= |old(live)|
      ensures asked && b != 0 ==> live == old(live) + [b] && SizeOf(size, b) == n
      ensures asked && b == 0 ==> hp == 0 && live == old(live)
      ensures asked ==> forall l :: 0 <= l < |old(live)| ==> SizeOf(size, live[l]) == SizeOf(old(size), live[l])
      ensures asked ==> mem == old(mem) || mem == old(mem) + Span(hp, Wanted(n))
      ensures !asked || b == 0 || mem != old(mem) ==> NoneFits(old(size), old(ring), n)
    {
      asked := true;
      ghost var grown, j: nat := false, 0;
      while true
        invariant asked && Ready() && live == old(live)
        invariant forall l :: 0 <= l < |live| ==> SizeOf(size, live[l]) == SizeOf(old(size), live[l])
        invariant !grown ==> mem == old(mem) && ring == old(ring) && size == old(size) && (hp == 0 || hp >= brk)
        invariant grown ==> mem == old(mem) + Span(hp, Wanted(n)) && NoneFits(old(size), old(ring), n)
        invariant grown ==> j < |ring| && SizeOf(size, ring[j]) >= n
        decreases !grown
      {
        var found, prevp, p;
        ghost var i;
        found, prevp, p, i := Scan(n);
        if found {
          b := Carve(prevp, p, n, i);
          return;
        }
        p, asked, j := Morecore(n, hp);
        if !asked || p == 0 {
          return 0, asked;
        }
        grown := true;
      }
    }

    /** malloc, when sbrk would answer hp. b is the block it takes; the pointer it returns is to b + 1. It
        has the units asked for, and with the others in use and the free ones makes up what was obtained.
        Only if no free block is large enough is sbrk called, and only if that fails is there no b. asked
        is as for morecore. */
    method Malloc(nbytes: nat, hp: nat) returns (b: nat, asked: bool)
      requires Valid() && nbytes <= 0xFFFF_FFFF && (hp == 0 || hp >= brk)
      modifies this
      ensures asked || !Askable(UnitsFor(nbytes))
      ensures asked ==> Valid() && |live| >= |old(live)|
      ensures asked && b != 0 ==> live == old(live) + [b] && SizeOf(size, b) == UnitsFor(nbytes)
      ensures asked && b == 0 ==> hp == 0 && live == old(live)
      ensures asked ==> forall l :: 0 <= l < |old(live)| ==> SizeOf(size, live[l]) == SizeOf(old(size), live[l])
      ensures asked ==> mem == old(mem) || mem == old(mem) + Span(hp, Wanted(UnitsFor(nbytes)))
      ensures !asked || b == 0 || mem != old(mem) ==> NoneFits(old(size), old(ring), UnitsFor(nbytes))
    {
      LargestRequest();
      if freep == 0 {
        Start();
      }
      b, asked := Take(UnitsFor(nbytes), hp);
    }
  }
}
