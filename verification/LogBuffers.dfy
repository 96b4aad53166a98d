/** write_log of xv6/kernel/log.c over the buffer cache of xv6/kernel/bio.c: when commit finds the buffers it
    needs. A logged block keeps its buffer until it is installed, and copying it to the log takes one more. */
module LogBuffers {
  import opened Blocks
  import opened BufferCache

  /** Block t of the log, which starts at block `start`. */
  function LogKey(dev: nat, start: nat, t: nat): (k: Key) {
    Key(dev, start + t + 1)
  }

  predicate InLog(dev: nat, start: nat, k: Key) {
    k.dev == dev && start < k.blockno <= start + LOGBLOCKS
  }

  /** Buffer b is that of home block `home`, pinned by the log and not locked. */
  ghost predicate HasPinned<T>(c: Cache<T>, dev: nat, start: nat, home: nat, b: nat)
    reads c
  {
    && b < NBUF <= |c.key| && b in c.pinned && b !in c.locked
    && c.key[b] == Key(dev, home) && Key(dev, home) in c.disk && !InLog(dev, start, Key(dev, home))
  }

  /** Nobody but commit uses the buffers of log blocks. */
  ghost predicate LogUnused<T>(c: Cache<T>, dev: nat, start: nat)
    reads c
  {
    && NBUF <= |c.key| && NBUF <= |c.refcnt|
    && (forall b :: 0 <= b < NBUF && InLog(dev, start, c.key[b]) ==> c.refcnt[b] == 0)
    && (forall t: nat :: t < LOGBLOCKS ==> LogKey(dev, start, t) in c.disk)
  }

  /** Some buffer is not in use. */
  predicate Spare(refcnt: seq<nat>) {
    exists b :: 0 <= b < |refcnt| && refcnt[b] == 0
  }

  lemma LockedInUse<T>(c: Cache<T>, b: nat)
    requires c.Valid() && (b in c.locked || b in c.pinned)
    ensures b < NBUF && c.refcnt[b] > 0
  {
    assert ReferencesAt(c.refcnt, c.users, c.pinned, c.locked, b);
  }

  /** write_log's first bread: a buffer for log block t, if and only if one is spare. */
  method ReadLogBlock<T>(c: Cache<T>, dev: nat, start: nat, t: nat) returns (ok: bool, to: nat)
    requires c.Valid() && LogUnused(c, dev, start) && dev != 0 && t < LOGBLOCKS
    modifies c
    ensures c.Valid() && c.disk == old(c.disk) && c.pinned == old(c.pinned) && c.dirty == old(c.dirty)
    ensures ok <==> Spare(old(c.refcnt))
    ensures !ok ==> unchanged(c)
    ensures ok ==> to < NBUF && c.key[to] == LogKey(dev, start, t) && c.valid[to] && c.locked == old(c.locked) + {to}
    ensures ok ==> to !in old(c.locked) && to !in c.pinned && to !in c.dirty && old(c.refcnt)[to] == 0
    ensures ok ==> c.refcnt == old(c.refcnt)[to := 1] && c.users == old(c.users)[to := old(c.users)[to] + 1]
    ensures ok ==> forall a :: 0 <= a < NBUF && a != to ==> c.key[a] == old(c.key)[a]
    ensures forall k :: k in c.disk && k.dev != 0 ==> c.View(k) == old(c.View(k))
  {
    forall b | b in c.locked
      ensures c.key[b] != LogKey(dev, start, t)
    {
      LockedInUse(c, b);
    }
    ghost var refcnt0, users0, locked0 := c.refcnt, c.users, c.locked;
    ghost var key0 := c.key;
    ok, to := c.Bread(LogKey(dev, start, t));
    if ok {
      assert key0[to] == LogKey(dev, start, t) ==> refcnt0[to] == 0;
      Unreferenced(refcnt0, users0, c.pinned, locked0, c.dirty, to);
    }
  }

  /** write_log's second bread: the logged block has its buffer, b, so it cannot fail. */
  method ReadHomeBlock<T>(c: Cache<T>, dev: nat, start: nat, home: nat, b: nat)
    requires c.Valid() && dev != 0 && HasPinned(c, dev, start, home, b)
    modifies c
    ensures c.Valid() && c.disk == old(c.disk) && c.pinned == old(c.pinned) && c.dirty == old(c.dirty)
    ensures c.key == old(c.key) && c.valid[b] && c.data[b] == old(c.View(Key(dev, home)))
    ensures c.locked == old(c.locked) + {b}
    ensures c.refcnt == old(c.refcnt)[b := old(c.refcnt)[b] + 1] && c.users == old(c.users)[b := old(c.users)[b] + 1]
    ensures forall a :: 0 <= a < NBUF && a != b ==> c.valid[a] == old(c.valid)[a] && c.data[a] == old(c.data)[a]
    ensures forall k :: k in c.disk && k.dev != 0 ==> c.View(k) == old(c.View(k))
  {
    forall a | a in c.locked
      ensures c.key[a] != Key(dev, home)
    {
      LockedInUse(c, a);
    }
    ghost var key0 := c.key;
    var ok, from := c.Bread(Key(dev, home));
    assert from == b;
    assert c.key == key0;
  }

  /** The rest of the loop body: the log block's buffer gets the contents, goes to disk, and both are released. */
  method CopyOver<T>(c: Cache<T>, to: nat, from: nat)
    requires c.Valid() && to in c.locked && from in c.locked && to != from && c.valid[to] && from in c.pinned
    requires to !in c.pinned
    requires to !in c.dirty && c.key[to].dev != 0
    modifies c
    ensures c.Valid() && c.key == old(c.key) && c.pinned == old(c.pinned) && c.dirty == old(c.dirty)
    ensures to < NBUF && from < NBUF && c.disk == old(c.disk)[c.key[to] := old(c.data)[from]]
    ensures c.locked == old(c.locked) - {from} - {to}
    ensures old(c.users)[from] > 0 && old(c.users)[to] > 0 && old(c.refcnt)[from] > 0 && old(c.refcnt)[to] > 0
    ensures c.refcnt == old(c.refcnt)[from := old(c.refcnt)[from] - 1][to := old(c.refcnt)[to] - 1]
    ensures c.users == old(c.users)[from := old(c.users)[from] - 1][to := old(c.users)[to] - 1]
    ensures forall k :: k in c.disk && k.dev != 0 && k != c.key[to] ==> k in old(c.disk) && c.View(k) == old(c.View(k))
  {
    c.Change(to, c.data[from]);
    c.Bwrite(to);
    c.Brelse(from);
    c.Brelse(to);
  }

  /** The logged blocks lh have the buffers `at`. */
  ghost predicate Pinned<T>(c: Cache<T>, dev: nat, start: nat, lh: seq<nat>, at: seq<nat>)
    reads c
  {
    |lh| == |at| <= LOGBLOCKS && forall i :: 0 <= i < |lh| ==> HasPinned(c, dev, start, lh[i], at[i])
  }

  ghost predicate Ready<T>(c: Cache<T>, dev: nat, start: nat, lh: seq<nat>, at: seq<nat>)
    reads c
  {
    c.Valid() && dev != 0 && LogUnused(c, dev, start) && Pinned(c, dev, start, lh, at)
  }

  /** One pass of write_log: block lh[t] goes to log block t if a buffer is spare; otherwise bget panics. */
  method WriteLogPass<T>(c: Cache<T>, dev: nat, start: nat, lh: seq<nat>, at: seq<nat>, t: nat) returns (ok: bool)
    requires Ready(c, dev, start, lh, at) && t < |lh|
    modifies c
    ensures ok <==> Spare(old(c.refcnt))
    ensures !ok ==> unchanged(c)
    ensures Ready(c, dev, start, lh, at) && c.refcnt == old(c.refcnt)
    ensures ok ==> c.disk == old(c.disk)[LogKey(dev, start, t) := old(c.View(Key(dev, lh[t])))]
    ensures forall k :: k in c.disk && k.dev != 0 && !InLog(dev, start, k) ==>
      k in old(c.disk) && c.View(k) == old(c.View(k))
  {
    ghost var refcnt0, users0, locked0 := c.refcnt, c.users, c.locked;
    var to;
    ok, to := ReadLogBlock(c, dev, start, t);
    if ok {
      forall i | 0 <= i < |lh|
        ensures at[i] != to && HasPinned(c, dev, start, lh[i], at[i])
      {
        assert HasPinned(c, dev, start, lh[i], at[i]);
      }
      ReadHomeBlock(c, dev, start, lh[t], at[t]);
      CopyOver(c, to, at[t]);
      assert c.refcnt == refcnt0;
      assert c.locked == locked0;
    }
  }

  /** Log blocks up to t hold what readers saw of the logged blocks, and no other block of the disk differs. */
  ghost predicate Copied<T>(disk: map<Key, T>, was: map<Key, T>, dev: nat, start: nat, contents: seq<T>, t: nat)
    requires t <= |contents|
  {
    && disk.Keys == was.Keys
    && (forall i: nat :: i < t ==> LogKey(dev, start, i) in disk && disk[LogKey(dev, start, i)] == contents[i])
    && (forall k :: k in disk && !(exists i: nat :: i < t && k == LogKey(dev, start, i)) ==> disk[k] == was[k])
  }

  lemma CopiedNext<T>(disk: map<Key, T>, was: map<Key, T>, dev: nat, start: nat, contents: seq<T>, t: nat,
                      disk': map<Key, T>)
    requires t < |contents| && Copied(disk, was, dev, start, contents, t) && LogKey(dev, start, t) in disk
    requires disk' == disk[LogKey(dev, start, t) := contents[t]]
    ensures Copied(disk', was, dev, start, contents, t + 1)
  {
    forall k | k in disk' && !(exists i: nat :: i < t + 1 && k == LogKey(dev, start, i))
      ensures disk'[k] == was[k]
    {
      assert k != LogKey(dev, start, t);
      assert forall i: nat :: i < t ==> k != LogKey(dev, start, i);
    }
  }

  /** write_log: the logged blocks' latest contents go to the log, in order, and nothing else of the disk changes,
      if there is nothing to do or a buffer is spare; otherwise bget panics before anything is written. */
  method WriteLog<T>(c: Cache<T>, dev: nat, start: nat, lh: seq<nat>, at: seq<nat>, ghost contents: seq<T>)
    returns (ok: bool)
    requires Ready(c, dev, start, lh, at) && |contents| == |lh|
    requires forall i :: 0 <= i < |lh| ==> Key(dev, lh[i]) in c.disk && contents[i] == c.View(Key(dev, lh[i]))
    modifies c
    ensures ok <==> lh == [] || Spare(old(c.refcnt))
    ensures !ok ==> unchanged(c)
    ensures Ready(c, dev, start, lh, at) && c.refcnt == old(c.refcnt)
    ensures ok ==> Copied(c.disk, old(c.disk), dev, start, contents, |lh|)
  {
    for t := 0 to |lh|
      invariant Ready(c, dev, start, lh, at) && c.refcnt == old(c.refcnt)
      invariant t > 0 ==> Spare(c.refcnt)
      invariant t == 0 ==> unchanged(c)
      invariant Copied(c.disk, old(c.disk), dev, start, contents, t)
      invariant forall i :: 0 <= i < |lh| ==> Key(dev, lh[i]) in c.disk && contents[i] == c.View(Key(dev, lh[i]))
    {
      ghost var disk := c.disk;
      ok := WriteLogPass(c, dev, start, lh, at, t);
      if !ok {
        return;
      }
      CopiedNext(disk, old(c.disk), dev, start, contents, t, c.disk);
    }
    ok := true;
  }

  // ---------------------------------------------------------------- how many buffers are in use

  ghost function InUse(refcnt: seq<nat>): (s: set<nat>)
    ensures forall b: nat :: b in s <==> b < |refcnt| && refcnt[b] > 0
  {
    set b: nat | b < |refcnt| && refcnt[b] > 0
  }

  ghost function UpTo(n: nat): (s: set<nat>)
    ensures forall b: nat :: b in s <==> b < n
    ensures |s| == n
  {
    if n == 0 then {} else UpTo(n - 1) + {n - 1}
  }

  lemma SubsetSize(s: set<nat>, t: set<nat>)
    requires s <= t
    ensures |s| <= |t| && (|s| == |t| <==> s == t)
  {
    assert |t - s| == |t| - |s|;
    if |s| == |t| {
      assert t - s == {};
    }
  }

  /** A buffer is spare just when fewer than all are in use. */
  lemma SpareExact(refcnt: seq<nat>)
    ensures Spare(refcnt) <==> |InUse(refcnt)| < |refcnt|
  {
    SubsetSize(InUse(refcnt), UpTo(|refcnt|));
    if Spare(refcnt) {
      var b: nat :| b < |refcnt| && refcnt[b] == 0;
      assert b in UpTo(|refcnt|) && b !in InUse(refcnt);
    } else {
      assert forall b: nat :: b in UpTo(|refcnt|) ==> b in InUse(refcnt);
    }
  }

  ghost function Members(at: seq<nat>): (s: set<nat>)
    ensures forall i :: 0 <= i < |at| ==> at[i] in s
    ensures forall b :: b in s ==> exists i :: 0 <= i < |at| && at[i] == b
  {
    if at == [] then {} else Members(at[..|at| - 1]) + {at[|at| - 1]}
  }

  lemma {:induction false} MembersSize(at: seq<nat>)
    requires forall i, j :: 0 <= i < j < |at| ==> at[i] != at[j]
    ensures |Members(at)| == |at|
  {
    if at != [] {
      MembersSize(at[..|at| - 1]);
    }
  }

  /** Different blocks have different buffers. */
  lemma BuffersDiffer<T>(c: Cache<T>, dev: nat, start: nat, lh: seq<nat>, at: seq<nat>)
    requires Pinned(c, dev, start, lh, at) && forall i, j :: 0 <= i < j < |lh| ==> lh[i] != lh[j]
    ensures forall i, j :: 0 <= i < j < |at| ==> at[i] != at[j]
  {
    forall i, j | 0 <= i < j < |at|
      ensures at[i] != at[j]
    {
      assert HasPinned(c, dev, start, lh[i], at[i]) && HasPinned(c, dev, start, lh[j], at[j]);
    }
  }

  /** With n different blocks logged and `others` the other buffers in use, commit finds its buffers if and only if
      n and those are fewer than NBUF; so never with a full log. */
  lemma CommitFindsBuffers<T>(c: Cache<T>, dev: nat, start: nat, lh: seq<nat>, at: seq<nat>, others: set<nat>)
    requires Ready(c, dev, start, lh, at) && forall i, j :: 0 <= i < j < |lh| ==> lh[i] != lh[j]
    requires others == InUse(c.refcnt) - Members(at)
    ensures Spare(c.refcnt) <==> |lh| + |others| < NBUF
    ensures |lh| == LOGBLOCKS ==> !Spare(c.refcnt)
  {
    BuffersDiffer(c, dev, start, lh, at);
    MembersSize(at);
    forall b | b in Members(at)
      ensures b in InUse(c.refcnt)
    {
      var i :| 0 <= i < |at| && at[i] == b;
      assert HasPinned(c, dev, start, lh[i], at[i]);
      LockedInUse(c, b);
    }
    assert Members(at) <= InUse(c.refcnt);
    SpareExact(c.refcnt);
  }
}
