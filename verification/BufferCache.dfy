/** Circular doubly linked lists over node numbers, as binit and brelse build them. */
module Ring {

  /** The position after i in a cycle of n. */
  function After(n: nat, i: nat): (j: nat)
    requires i < n
    ensures j < n
  {
    if i + 1 == n then 0 else i + 1
  }

  /** The position before i in a cycle of n. */
  function Before(n: nat, i: nat): (j: nat)
    requires i < n
    ensures j < n
  {
    if i == 0 then n - 1 else i - 1
  }

  /** c lists every node of the cycle once, in the order of the next pointers, and the prev
      pointers go the other way. */
  ghost predicate IsRing(next: seq<nat>, prev: seq<nat>, c: seq<nat>) {
    && |next| == |prev| && |c| > 0
    && (forall i :: 0 <= i < |c| ==> c[i] < |next|)
    && (forall i, j :: 0 <= i < j < |c| ==> c[i] != c[j])
    && (forall i {:trigger next[c[i]]} :: 0 <= i < |c| ==> next[c[i]] == c[After(|c|, i)])
    && (forall i {:trigger prev[c[i]]} :: 0 <= i < |c| ==> prev[c[i]] == c[Before(|c|, i)])
  }

  function Without(c: seq<nat>, i: nat): (r: seq<nat>)
    requires i < |c|
    ensures |r| == |c| - 1
    ensures forall k :: 0 <= k < |r| ==> r[k] == c[if k < i then k else k + 1]
  {
    c[..i] + c[i + 1..]
  }

  lemma UnlinkNext(next: seq<nat>, prev: seq<nat>, c: seq<nat>, i: nat, k: nat, r: seq<nat>)
    requires IsRing(next, prev, c) && 0 < i < |c| && k < |c| - 1 && r == Without(c, i)
    ensures next[prev[c[i]] := next[c[i]]][r[k]] == r[After(|r|, k)]
  {
    var j := if k < i then k else k + 1;
    assert j != i - 1 ==> c[j] != c[i - 1];
  }

  lemma UnlinkPrev(next: seq<nat>, prev: seq<nat>, c: seq<nat>, i: nat, k: nat, r: seq<nat>)
    requires IsRing(next, prev, c) && 0 < i < |c| && k < |c| - 1 && r == Without(c, i)
    ensures prev[next[c[i]] := prev[c[i]]][r[k]] == r[Before(|r|, k)]
  {
    var j := if k < i then k else k + 1;
    assert j != After(|c|, i) ==> c[j] != c[After(|c|, i)];
  }

  /** Taking node c[i] out: its two neighbours point at each other. */
  lemma Unlink(next: seq<nat>, prev: seq<nat>, c: seq<nat>, i: nat, next': seq<nat>, prev': seq<nat>)
    requires IsRing(next, prev, c) && 0 < i < |c|
    requires next' == next[prev[c[i]] := next[c[i]]] && prev' == prev[next[c[i]] := prev[c[i]]]
    ensures IsRing(next', prev', Without(c, i))
  {
    forall k | 0 <= k < |c| - 1
      ensures var r := Without(c, i); next'[r[k]] == r[After(|r|, k)] && prev'[r[k]] == r[Before(|r|, k)]
    {
      UnlinkNext(next, prev, c, i, k, Without(c, i));
      UnlinkPrev(next, prev, c, i, k, Without(c, i));
    }
  }

  /** Putting node b right after the first one. */
  lemma LinkFront(next: seq<nat>, prev: seq<nat>, c: seq<nat>, b: nat, next': seq<nat>, prev': seq<nat>)
    requires IsRing(next, prev, c) && b < |next| && forall i :: 0 <= i < |c| ==> c[i] != b
    requires next' == next[b := next[c[0]]][c[0] := b]
    requires prev' == prev[b := c[0]][next[c[0]] := b]
    ensures IsRing(next', prev', [c[0], b] + c[1..])
  {
    var n, r := |c|, [c[0], b] + c[1..];
    forall k | 0 <= k < |r| ensures next'[r[k]] == r[After(|r|, k)] && prev'[r[k]] == r[Before(|r|, k)] {
      if k > 1 {
        assert r[k] == c[k - 1];
      }
    }
  }
}

/** The buffer cache of xv6/kernel/bio.c. Buffers are numbered 0 .. NBUF, and NBUF stands for
    bcache.head. Each method is a section that runs under bcache.lock or under the buffer's own
    sleep lock. */
module BufferCache {
  import opened Blocks
  import opened Ring

  const NBUF: nat := MAXOPBLOCKS * 3
  const HEAD: nat := NBUF

  datatype Key = Key(dev: nat, blockno: nat)

  // ---------------------------------------------------------------- what the fields must satisfy

  /** The list is a ring through the head and every buffer; pos tells where each buffer is. */
  ghost predicate ListOk(next: seq<nat>, prev: seq<nat>, ring: seq<nat>, pos: seq<nat>) {
    && |next| == NBUF + 1 && IsRing(next, prev, ring)
    && |ring| == NBUF + 1 && ring[0] == HEAD
    && |pos| == NBUF && forall b :: 0 <= b < NBUF ==> 0 < pos[b] <= NBUF && ring[pos[b]] == b
  }

  /** No block of a real device has two buffers. */
  ghost predicate Unique(key: seq<Key>) {
    |key| == NBUF && forall a, b :: 0 <= a < b < NBUF && key[a] == key[b] ==> key[a].dev == 0
  }

  /** A valid buffer holds what the disk holds, unless it was changed. */
  ghost predicate Coherent<T>(disk: map<Key, T>, key: seq<Key>, valid: seq<bool>, data: seq<T>, dirty: set<nat>) {
    && |key| == |valid| == |data| == NBUF
    && (forall b :: 0 <= b < NBUF && valid[b] ==>
          key[b].dev != 0 && key[b] in disk && (b in dirty || data[b] == disk[key[b]]))
    && (forall b :: b in dirty ==> b < NBUF && valid[b])
  }

  /** What references there are to buffer b: those of the callers of bget, and one of the log if it has pinned
      the buffer. Whoever holds the sleep lock has one. */
  predicate ReferencesAt(refcnt: seq<nat>, users: seq<nat>, pinned: set<nat>, locked: set<nat>, b: nat) {
    && b < |refcnt| && b < |users|
    && refcnt[b] == users[b] + (if b in pinned then 1 else 0)
    && (b in locked ==> users[b] > 0)
  }

  /** Counts are exact, and a changed buffer is still locked by whoever changed it, or pinned by the log. */
  ghost predicate Referenced(refcnt: seq<nat>, users: seq<nat>, pinned: set<nat>, locked: set<nat>, dirty: set<nat>) {
    && |refcnt| == |users| == NBUF
    && (forall b :: 0 <= b < NBUF ==> ReferencesAt(refcnt, users, pinned, locked, b))
    && (forall b :: b in pinned || b in locked ==> b < NBUF)
    && (forall b :: b in dirty ==> b in pinned || b in locked)
  }

  /** The references to buffer b change, and to no other. */
  lemma ReferencedBut(refcnt: seq<nat>, users: seq<nat>, pinned: set<nat>, locked: set<nat>, dirty: set<nat>, b: nat,
                      refcnt': seq<nat>, users': seq<nat>, pinned': set<nat>, locked': set<nat>)
    requires Referenced(refcnt, users, pinned, locked, dirty) && b < NBUF && |refcnt'| == |users'| == NBUF
    requires refcnt' == refcnt[b := refcnt'[b]] && users' == users[b := users'[b]]
    requires pinned' - {b} == pinned - {b} && locked' - {b} == locked - {b}
    requires ReferencesAt(refcnt', users', pinned', locked', b) && (b in dirty ==> b in pinned' || b in locked')
    ensures Referenced(refcnt', users', pinned', locked', dirty)
  {
    assert forall a :: a != b ==> (a in pinned' <==> a in pinned' - {b}) && (a in pinned <==> a in pinned - {b});
    assert forall a :: a != b ==> (a in locked' <==> a in locked' - {b}) && (a in locked <==> a in locked - {b});
    forall a | 0 <= a < NBUF
      ensures ReferencesAt(refcnt', users', pinned', locked', a)
    {
      assert ReferencesAt(refcnt, users, pinned, locked, a);
    }
  }

  /** A buffer without references is clean, and neither pinned nor locked. */
  lemma Unreferenced(refcnt: seq<nat>, users: seq<nat>, pinned: set<nat>, locked: set<nat>, dirty: set<nat>, b: nat)
    requires Referenced(refcnt, users, pinned, locked, dirty) && b < NBUF && refcnt[b] == 0
    ensures b !in dirty && b !in pinned && b !in locked && users[b] == 0
  {
    assert ReferencesAt(refcnt, users, pinned, locked, b);
  }

  predicate Holds(key: seq<Key>, valid: seq<bool>, b: nat, k: Key)
    requires |key| == |valid|
  {
    b < |key| && valid[b] && key[b] == k
  }

  /** The latest contents of block k. */
  ghost function Latest<T>(disk: map<Key, T>, key: seq<Key>, valid: seq<bool>, data: seq<T>, k: Key): (x: T)
    requires k in disk && |key| == |valid| == |data|
  {
    if b: nat :| Holds(key, valid, b, k) then data[b] else disk[k]
  }

  /** Buffer b of block k determines its latest contents. */
  lemma LatestIs<T>(disk: map<Key, T>, key: seq<Key>, valid: seq<bool>, data: seq<T>, b: nat, k: Key)
    requires k in disk && |key| == |valid| == |data| && Unique(key) && k.dev != 0 && Holds(key, valid, b, k)
    ensures Latest(disk, key, valid, data, k) == data[b]
  {
    var a: nat :| Holds(key, valid, a, k) && Latest(disk, key, valid, data, k) == data[a];
  }

  /** Recycling a clean buffer loses nothing: the disk holds what it held. */
  lemma RecycleKeepsLatest<T>(disk: map<Key, T>, key: seq<Key>, valid: seq<bool>, data: seq<T>, b: nat, k: Key, k': Key)
    requires k' in disk && k'.dev != 0 && |valid| == |data| == NBUF && Unique(key) && b < NBUF
    requires valid[b] ==> key[b] in disk && data[b] == disk[key[b]]
    requires forall a :: 0 <= a < NBUF ==> key[a] != k
    ensures Latest(disk, key[b := k], valid[b := false], data, k') == Latest(disk, key, valid, data, k')
  {
    var key', valid' := key[b := k], valid[b := false];
    if a: nat :| a != b && Holds(key, valid, a, k') {
      assert Holds(key', valid', a, k');
      LatestIs(disk, key, valid, data, a, k');
      LatestIs(disk, key', valid', data, a, k');
    } else {
      forall a: nat | a != b ensures !Holds(key', valid', a, k') {
        assert Holds(key', valid', a, k') == Holds(key, valid, a, k');
      }
      if Holds(key, valid, b, k') {
        LatestIs(disk, key, valid, data, b, k');
      }
    }
  }

  /** Reading a block into its buffer changes nothing readers see. */
  lemma FillKeepsLatest<T>(disk: map<Key, T>, key: seq<Key>, valid: seq<bool>, data: seq<T>, b: nat, k': Key)
    requires k' in disk && k'.dev != 0 && |valid| == |data| == NBUF && Unique(key) && b < NBUF
    requires !valid[b] && key[b] in disk
    ensures Latest(disk, key, valid[b := true], data[b := disk[key[b]]], k') == Latest(disk, key, valid, data, k')
  {
    var valid', data' := valid[b := true], data[b := disk[key[b]]];
    if key[b] == k' {
      LatestIs(disk, key, valid', data', b, k');
      forall a: nat ensures !Holds(key, valid, a, k') {
        assert a < NBUF && a != b ==> key[a] != key[b];
      }
    } else if a: nat :| Holds(key, valid, a, k') {
      assert Holds(key, valid', a, k');
      LatestIs(disk, key, valid, data, a, k');
      LatestIs(disk, key, valid', data', a, k');
    } else {
      assert forall a: nat :: Holds(key, valid', a, k') ==> Holds(key, valid, a, k');
    }
  }

  /** Where each buffer is after buffer b moved to the front. */
  function Moved(pos: seq<nat>, b: nat): (r: seq<nat>)
    requires |pos| == NBUF && b < NBUF
    ensures |r| == NBUF
    ensures forall a :: 0 <= a < NBUF ==> r[a] == if a == b then 1 else if pos[a] < pos[b] then pos[a] + 1 else pos[a]
  {
    seq(NBUF, a requires 0 <= a < NBUF => if a == b then 1 else if pos[a] < pos[b] then pos[a] + 1 else pos[a])
  }

  lemma MovedPos(ring: seq<nat>, pos: seq<nat>, b: nat)
    requires |ring| == NBUF + 1 && ring[0] == HEAD && |pos| == NBUF && b < NBUF
    requires forall a :: 0 <= a < NBUF ==> 0 < pos[a] <= NBUF && ring[pos[a]] == a
    ensures var r, p := [HEAD, b] + Without(ring, pos[b])[1..], Moved(pos, b);
            |r| == NBUF + 1 && forall a :: 0 <= a < NBUF ==> 0 < p[a] <= NBUF && r[p[a]] == a
  {
    var r, p := [HEAD, b] + Without(ring, pos[b])[1..], Moved(pos, b);
    forall a | 0 <= a < NBUF ensures 0 < p[a] <= NBUF && r[p[a]] == a {
      assert ring[pos[a]] == a && ring[pos[b]] == b;
    }
  }

  class Cache<T> {
    var disk: map<Key, T>
    var next: seq<nat>
    var prev: seq<nat>
    var key: seq<Key>        // dev and blockno
    var refcnt: seq<nat>
    var valid: seq<bool>
    var data: seq<T>

    ghost var ring: seq<nat>   // the head, then the buffers, most recently used first
    ghost var pos: seq<nat>
    ghost var dirty: set<nat>  // buffers changed since they were last read or written
    ghost var users: seq<nat>  // references given out by bget and not yet returned
    ghost var pinned: set<nat> // buffers the log has pinned
    ghost var locked: set<nat> // buffers whose sleep lock is held

    ghost predicate Valid()
      reads this
    {
      && ListOk(next, prev, ring, pos)
      && Unique(key)
      && Coherent(disk, key, valid, data, dirty)
      && Referenced(refcnt, users, pinned, locked, dirty)
    }

    /** The latest contents of block k. */
    ghost function View(k: Key): (x: T)
      requires Valid() && k in disk
      reads this
    {
      Latest(disk, key, valid, data, k)
    }

    /** binit: every buffer joins the list, each in front of the one before. */
    constructor (disk: map<Key, T>, blank: T)
      ensures Valid() && this.disk == disk
      ensures forall k' :: k' in disk ==> View(k') == disk[k']
      ensures forall b :: 0 <= b < NBUF ==> refcnt[b] == 0 && pos[b] == NBUF - b
      ensures locked == {} && pinned == {}
    {
      this.disk := disk;
      key, refcnt := seq(NBUF, _ => Key(0, 0)), seq(NBUF, _ => 0);
      valid, data := seq(NBUF, _ => false), seq(NBUF, _ => blank);
      dirty, pinned, locked, users := {}, {}, {}, seq(NBUF, _ => 0);
      next, prev := seq(NBUF + 1, _ => HEAD), seq(NBUF + 1, _ => HEAD);
      ring := [HEAD];
      new;
      BuildList();
    }

    /** binit's loop. */
    method BuildList()
      requires |next| == NBUF + 1 && IsRing(next, prev, ring) && ring == [HEAD]
      modifies this`next, this`prev, this`ring, this`pos
      ensures ListOk(next, prev, ring, pos)
      ensures forall b :: 0 <= b < NBUF ==> pos[b] == NBUF - b
    {
      for b := 0 to NBUF
        invariant |next| == NBUF + 1 && IsRing(next, prev, ring)
        invariant |ring| == b + 1 && ring[0] == HEAD && forall i :: 1 <= i <= b ==> ring[i] == b - i
      {
        PutFirst(b);
      }
      pos := seq(NBUF, b requires 0 <= b < NBUF => NBUF - b);
    }

    /** Links buffer b in right after the head. */
    method PutFirst(b: nat)
      requires |next| == NBUF + 1 && IsRing(next, prev, ring) && ring[0] == HEAD && b < NBUF
      requires forall i :: 0 <= i < |ring| ==> ring[i] != b
      modifies this`next, this`prev, this`ring
      ensures |next| == NBUF + 1 && IsRing(next, prev, ring) && ring == [HEAD, b] + old(ring)[1..]
    {
      ghost var next0, prev0 := next, prev;
      var first := next[HEAD];
      next := next[b := first];
      prev := prev[b := HEAD];
      prev := prev[first := b];
      next := next[HEAD := b];
      LinkFront(next0, prev0, ring, b, next, prev);
      ring := [HEAD, b] + ring[1..];
    }

    /** bget's first loop: the buffer of block k, or NBUF. */
    method Lookup(k: Key) returns (b: nat)
      requires Valid()
      ensures b <= NBUF
      ensures b < NBUF ==> key[b] == k
      ensures b == NBUF ==> forall a :: 0 <= a < NBUF ==> key[a] != k
    {
      b := next[HEAD];
      ghost var i := 1;
      while b != HEAD
        invariant 1 <= i <= NBUF + 1
        invariant b == if i <= NBUF then ring[i] else HEAD
        invariant forall j :: 1 <= j < i ==> ring[j] < NBUF && key[ring[j]] != k
        decreases NBUF + 1 - i
      {
        assert ring[i] != ring[0];
        if key[b] == k {
          return;
        }
        b := next[b];
        i := i + 1;
      }
      forall a | 0 <= a < NBUF ensures key[a] != k {
        assert ring[pos[a]] == a;
      }
    }

    /** bget's second loop: the least recently used buffer that nobody uses, or NBUF. */
    method LeastRecent() returns (b: nat)
      requires Valid()
      ensures b <= NBUF
      ensures b < NBUF ==> refcnt[b] == 0 && forall a :: 0 <= a < NBUF && pos[a] > pos[b] ==> refcnt[a] > 0
      ensures b == NBUF ==> forall a :: 0 <= a < NBUF ==> refcnt[a] > 0
    {
      b := prev[HEAD];
      ghost var i := NBUF;
      while b != HEAD
        invariant 0 <= i <= NBUF
        invariant b == ring[i]
        invariant forall j :: i < j <= NBUF ==> ring[j] < NBUF && refcnt[ring[j]] > 0
        decreases i
      {
        assert i != 0;
        assert ring[i] != ring[0];
        if refcnt[b] == 0 {
          assert ring[pos[b]] == ring[i];
          forall a | 0 <= a < NBUF && pos[a] > pos[b] ensures refcnt[a] > 0 {
            assert ring[pos[a]] == a;
          }
          return;
        }
        b := prev[b];
        i := i - 1;
      }
      assert i == 0;
      forall a | 0 <= a < NBUF ensures refcnt[a] > 0 {
        assert ring[pos[a]] == a;
      }
    }

    method AddUser(b: nat)
      requires Referenced(refcnt, users, pinned, locked, dirty) && b < NBUF
      modifies this`refcnt, this`users
      ensures Referenced(refcnt, users, pinned, locked, dirty)
      ensures refcnt == old(refcnt)[b := old(refcnt)[b] + 1] && users == old(users)[b := old(users)[b] + 1]
    {
      assert ReferencesAt(refcnt, users, pinned, locked, b);
      refcnt, users := refcnt[b := refcnt[b] + 1], users[b := users[b] + 1];
      ReferencedBut(old(refcnt), old(users), pinned, locked, dirty, b, refcnt, users, pinned, locked);
    }

    /** bget: the buffer of block k, or one recycled for it; false where the C code panics. */
    method Bget(k: Key) returns (ok: bool, b: nat)
      requires Valid() && k in disk && k.dev != 0
      modifies this`key, this`refcnt, this`valid, this`users
      ensures Valid()
      ensures ok ==> b < NBUF && key[b] == k && refcnt == old(refcnt)[b := old(refcnt)[b] + 1]
      ensures users == if ok then old(users)[b := old(users)[b] + 1] else old(users)
      ensures ok && old(key)[b] == k ==> key == old(key) && valid == old(valid)
      ensures ok && old(key)[b] != k ==>
        old(refcnt)[b] == 0 && !valid[b] && forall a :: 0 <= a < NBUF ==> old(key)[a] != k
      ensures ok && old(key)[b] != k ==> forall a :: 0 <= a < NBUF && pos[a] > pos[b] ==> old(refcnt)[a] > 0
      ensures ok ==> forall a :: 0 <= a < NBUF && a != b ==> key[a] == old(key)[a] && valid[a] == old(valid)[a]
      ensures !ok <==> (forall a :: 0 <= a < NBUF ==> old(key)[a] != k && old(refcnt)[a] > 0)
      ensures !ok ==> key == old(key) && refcnt == old(refcnt) && valid == old(valid)
      ensures forall k' :: k' in disk && k'.dev != 0 ==> View(k') == old(View(k'))
    {
      b := Lookup(k);
      if b < NBUF {
        AddUser(b);
        return true, b;
      }
      b := LeastRecent();
      if b == NBUF {
        return false, b;
      }
      Unreferenced(refcnt, users, pinned, locked, dirty, b);
      forall k' | k' in disk && k'.dev != 0
        ensures Latest(disk, key[b := k], valid[b := false], data, k') == Latest(disk, key, valid, data, k')
      {
        RecycleKeepsLatest(disk, key, valid, data, b, k, k');
      }
      key, valid := key[b := k], valid[b := false];
      AddUser(b);
      ok := true;
    }

    /** acquiresleep, when the lock is free: it is taken by a caller of bget. */
    method AcquireSleep(b: nat)
      requires Valid() && b < NBUF && users[b] > 0 && b !in locked
      modifies this`locked
      ensures Valid() && locked == old(locked) + {b}
    {
      assert ReferencesAt(refcnt, users, pinned, locked, b);
      locked := locked + {b};
      ReferencedBut(refcnt, users, pinned, old(locked), dirty, b, refcnt, users, pinned, locked);
    }

    /** bread, when nobody holds the lock of the block's buffer: a locked buffer that holds the latest contents of
        block k. */
    method Bread(k: Key) returns (ok: bool, b: nat)
      requires Valid() && k in disk && k.dev != 0 && forall a :: a in locked ==> key[a] != k
      modifies this`key, this`refcnt, this`valid, this`data, this`users, this`locked
      ensures Valid()
      ensures ok ==> b < NBUF && key[b] == k && valid[b] && data[b] == old(View(k))
      ensures ok ==> refcnt == old(refcnt)[b := old(refcnt)[b] + 1] && locked == old(locked) + {b}
      ensures ok && old(key)[b] != k ==> old(refcnt)[b] == 0
      ensures ok ==> forall a :: 0 <= a < NBUF && a != b ==>
        key[a] == old(key)[a] && valid[a] == old(valid)[a] && data[a] == old(data)[a]
      ensures users == if ok then old(users)[b := old(users)[b] + 1] else old(users)
      ensures !ok <==> (forall a :: 0 <= a < NBUF ==> old(key)[a] != k && old(refcnt)[a] > 0)
      ensures !ok ==> unchanged(this)
      ensures forall k' :: k' in disk && k'.dev != 0 ==> View(k') == old(View(k'))
    {
      ok, b := Bget(k);
      if ok {
        assert ReferencesAt(old(refcnt), old(users), pinned, locked, b);
        AcquireSleep(b);
        FillIfInvalid(b, k);
      }
    }

    /** The part of bread that runs under the buffer's sleep lock. */
    method FillIfInvalid(b: nat, k: Key)
      requires Valid() && b < NBUF && key[b] == k && k in disk && k.dev != 0 && b in locked
      modifies this`valid, this`data
      ensures Valid() && valid[b] && data[b] == old(View(k))
      ensures forall a :: 0 <= a < NBUF && a != b ==> valid[a] == old(valid)[a] && data[a] == old(data)[a]
      ensures forall k' :: k' in disk && k'.dev != 0 ==> View(k') == old(View(k'))
    {
      if !valid[b] {
        forall k' | k' in disk && k'.dev != 0
          ensures Latest(disk, key, valid[b := true], data[b := disk[k]], k') == Latest(disk, key, valid, data, k')
        {
          FillKeepsLatest(disk, key, valid, data, b, k');
        }
        data := data[b := disk[k]];
        valid := valid[b := true];
      }
      LatestIs(disk, key, valid, data, b, k);
    }

    /** A caller that holds the lock of buffer b changes its data. */
    method Change(b: nat, x: T)
      requires Valid() && b < NBUF && valid[b] && b in locked
      modifies this`data, this`dirty
      ensures Valid()
      ensures View(key[b]) == x
      ensures forall k' :: k' in disk && k'.dev != 0 && k' != key[b] ==> View(k') == old(View(k'))
      ensures data == old(data)[b := x] && dirty == old(dirty) + {b}
    {
      forall k' | k' in disk && k'.dev != 0 && k' != key[b]
        ensures Latest(disk, key, valid, data[b := x], k') == Latest(disk, key, valid, data, k')
      {
        if a: nat :| Holds(key, valid, a, k') {
          LatestIs(disk, key, valid, data, a, k');
          LatestIs(disk, key, valid, data[b := x], a, k');
        }
      }
      data := data[b := x];
      dirty := dirty + {b};
      LatestIs(disk, key, valid, data, b, key[b]);
    }

    /** bwrite: the disk block gets the buffer's contents, so nothing readers see changes. */
    method Bwrite(b: nat)
      requires Valid() && b < NBUF && valid[b] && b in locked
      modifies this`disk, this`dirty
      ensures Valid()
      ensures disk == old(disk)[key[b] := data[b]] && dirty == old(dirty) - {b}
      ensures forall k' :: k' in disk && k'.dev != 0 ==> View(k') == old(View(k'))
    {
      forall k' | k' in disk && k'.dev != 0
        ensures Latest(disk[key[b] := data[b]], key, valid, data, k') == Latest(disk, key, valid, data, k')
      {
        if k' == key[b] {
          LatestIs(disk, key, valid, data, b, k');
          LatestIs(disk[key[b] := data[b]], key, valid, data, b, k');
        } else if a: nat :| Holds(key, valid, a, k') {
          LatestIs(disk, key, valid, data, a, k');
          LatestIs(disk[key[b] := data[b]], key, valid, data, a, k');
        }
      }
      assert forall a :: 0 <= a < NBUF && a != b && valid[a] ==> key[a] != key[b] by {
        forall a | 0 <= a < NBUF && a != b && valid[a] ensures key[a] != key[b] {
          assert key[a].dev != 0;
        }
      }
      disk := disk[key[b] := data[b]];
      dirty := dirty - {b};
    }

    /** bpin: log_write calls it for a block that it had not logged, with the buffer locked. */
    method Bpin(b: nat)
      requires Valid() && b in locked && b !in pinned
      modifies this`refcnt, this`pinned
      ensures Valid() && pinned == old(pinned) + {b} && refcnt == old(refcnt)[b := old(refcnt)[b] + 1]
    {
      assert ReferencesAt(refcnt, users, pinned, locked, b);
      refcnt := refcnt[b := refcnt[b] + 1];
      pinned := pinned + {b};
      ReferencedBut(old(refcnt), users, old(pinned), locked, dirty, b, refcnt, users, pinned, locked);
    }

    /** bunpin: install_trans calls it after it has written the buffer to disk, so it leaves it clean. */
    method Bunpin(b: nat)
      requires Valid() && b in pinned && b !in dirty
      modifies this`refcnt, this`pinned
      ensures Valid() && pinned == old(pinned) - {b}
      ensures old(refcnt)[b] > 0 && refcnt == old(refcnt)[b := old(refcnt)[b] - 1]
    {
      assert ReferencesAt(refcnt, users, pinned, locked, b);
      refcnt := refcnt[b := refcnt[b] - 1];
      pinned := pinned - {b};
      ReferencedBut(old(refcnt), users, old(pinned), locked, dirty, b, refcnt, users, pinned, locked);
    }

    /** brelse: a changed buffer must have been logged before, so the log has it pinned. The last user's buffer
        becomes the most recently used; otherwise the list stays as it is. */
    method Brelse(b: nat)
      requires Valid() && b in locked && (b in dirty ==> b in pinned)
      modifies this`refcnt, this`users, this`locked, this`next, this`prev, this`ring, this`pos
      ensures Valid() && locked == old(locked) - {b}
      ensures b < NBUF && old(users)[b] > 0 && users == old(users)[b := old(users)[b] - 1]
      ensures old(refcnt)[b] > 0 && refcnt == old(refcnt)[b := old(refcnt)[b] - 1] && (b in dirty ==> refcnt[b] > 0)
      ensures ring == if refcnt[b] == 0 then [HEAD, b] + Without(old(ring), old(pos)[b])[1..] else old(ring)
    {
      assert ReferencesAt(refcnt, users, pinned, locked, b);
      refcnt, users := refcnt[b := refcnt[b] - 1], users[b := users[b] - 1];
      locked := locked - {b};
      ReferencedBut(old(refcnt), old(users), pinned, old(locked), dirty, b, refcnt, users, pinned, locked);
      if refcnt[b] == 0 {
        MoveToFront(b);
      }
    }

    method MoveToFront(b: nat)
      requires ListOk(next, prev, ring, pos) && b < NBUF
      modifies this`next, this`prev, this`ring, this`pos
      ensures ListOk(next, prev, ring, pos)
      ensures ring == [HEAD, b] + Without(old(ring), old(pos)[b])[1..]
    {
      ghost var i := pos[b];
      ghost var next0, prev0 := next, prev;
      prev := prev[next[b] := prev[b]];
      next := next[prev[b] := next[b]];
      ghost var without := Without(ring, i);
      assert prev0[ring[i]] == ring[i - 1];
      assert next == next0[prev0[ring[i]] := next0[ring[i]]];
      Unlink(next0, prev0, ring, i, next, prev);
      MovedPos(ring, pos, b);
      assert forall k :: 0 <= k < |without| ==> without[k] != b;
      ring := without;
      PutFirst(b);
      pos := Moved(pos, b);
    }
  }
}
