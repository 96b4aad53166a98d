/** The virtqueue driver of xv6/kernel/virtio_disk.c, with the device at the other end of the two rings
    (sections 2.6 and 5.2.6 of VIRTIO 1.1). Each method is one critical section under vdisk_lock, or one
    action of the device; requests, completions and interrupts interleave as calls in any order. */
module Virtqueue {
  const NUM: nat := 8

  const F_NEXT: nat := 1
  const F_WRITE: nat := 2

  datatype Address = Null | Op(i: nat) | Data(buf: nat) | Status(i: nat)

  datatype Desc = Desc(addr: Address, len: nat, flags: nat, next: nat)

  /** disk.ops[i]: what is asked of the device. */
  datatype Request = Request(write: bool, sector: nat)

  /** disk.info[i]; buf is -1 for none. */
  datatype Info = Info(buf: int, status: nat)

  lemma SmallSet(s: set<nat>, n: nat)
    requires forall x :: x in s ==> x < n
    ensures |s| <= n
  {
    if n > 0 {
      SmallSet(s - {n - 1}, n - 1);
    } else {
      assert s == {};
    }
  }

  /** How far a request has come: in the avail ring; with the device; in the used ring; seen by the driver. */
  datatype Stage = Queued | Working | Done | Seen

  /** A request in flight, by its head: its other two descriptors, its buffer, and what was asked. */
  datatype Chain = Chain(mid: nat, last: nat, buf: nat, req: Request, stage: Stage)

  // ---------------------------------------------------------------- descriptors

  /** The three descriptors of a chain say what the device is to do (section 5.2.6). */
  predicate Formatted(desc: seq<Desc>, ops: seq<Request>, head: nat, c: Chain)
    requires |desc| == |ops| == NUM
  {
    && head < NUM && c.mid < NUM && c.last < NUM
    && head != c.mid && c.mid != c.last && head != c.last
    && ops[head] == c.req
    && desc[head] == Desc(Op(head), 16, F_NEXT, c.mid)
    && desc[c.mid] == Desc(Data(c.buf), 1024, (if c.req.write then 0 else F_WRITE) + F_NEXT, c.last)
    && desc[c.last] == Desc(Status(head), 1, F_WRITE, 0)
  }

  /** Each descriptor is free, or owned by exactly one chain in flight. */
  ghost predicate DescsOk(free: seq<bool>, desc: seq<Desc>, ops: seq<Request>, chains: map<nat, Chain>,
                          owner: map<nat, nat>) {
    && |free| == |desc| == |ops| == NUM
    && OwnersOk(free, chains, owner)
    && (forall h :: h in chains ==> ChainOk(desc, ops, h, chains[h], owner))
  }

  ghost predicate OwnersOk(free: seq<bool>, chains: map<nat, Chain>, owner: map<nat, nat>) {
    && |free| == NUM
    && (forall i :: 0 <= i < NUM ==> (free[i] <==> i !in owner))
    && (forall i :: Used(owner, i) ==>
         i < NUM && owner[i] in chains && (i == owner[i] || i == chains[owner[i]].mid || i == chains[owner[i]].last))
  }

  predicate Used(owner: map<nat, nat>, i: int) {
    i in owner
  }

  ghost predicate ChainOk(desc: seq<Desc>, ops: seq<Request>, h: nat, c: Chain, owner: map<nat, nat>)
    requires |desc| == |ops| == NUM
  {
    && Formatted(desc, ops, h, c)
    && h in owner && owner[h] == h && c.mid in owner && owner[c.mid] == h && c.last in owner && owner[c.last] == h
  }

  /** The descriptors idx, all different, were free and are not any more; the others are as they were. */
  ghost predicate Taken(free: seq<bool>, free': seq<bool>, idx: seq<nat>) {
    && |free| == |free'| == NUM
    && (forall i, j :: 0 <= i < j < |idx| ==> idx[i] != idx[j])
    && (forall i :: 0 <= i < |idx| ==> idx[i] < NUM && free[idx[i]])
    && (forall d :: 0 <= d < NUM ==> (free'[d] <==> free[d] && forall i :: 0 <= i < |idx| ==> idx[i] != d))
  }

  lemma TakeOne(free: seq<bool>, free': seq<bool>, idx: seq<nat>, r: nat)
    requires Taken(free, free', idx) && r < NUM && free'[r]
    ensures Taken(free, free'[r := false], idx + [r])
  {
    var idx' := idx + [r];
    forall d | 0 <= d < NUM ensures free'[r := false][d] <==> free[d] && forall i :: 0 <= i < |idx'| ==> idx'[i] != d {
      if d == r {
        assert idx'[|idx|] == d;
      } else {
        assert (forall i :: 0 <= i < |idx'| ==> idx'[i] != d) <==> forall i :: 0 <= i < |idx| ==> idx[i] != d by {
          assert forall i :: 0 <= i < |idx| ==> idx'[i] == idx[i];
        }
      }
    }
  }

  lemma GiveOne(free: seq<bool>, free': seq<bool>, idx: seq<nat>)
    requires Taken(free, free', idx) && idx != []
    ensures !free'[idx[0]] && Taken(free, free'[idx[0] := true], idx[1..])
  {
    var rest := idx[1..];
    forall d | 0 <= d < NUM
      ensures free'[idx[0] := true][d] <==> free[d] && forall i :: 0 <= i < |rest| ==> rest[i] != d
    {
      if d != idx[0] {
        assert (forall i :: 0 <= i < |rest| ==> rest[i] != d) <==> forall i :: 0 <= i < |idx| ==> idx[i] != d by {
          assert forall i :: 0 < i < |idx| ==> idx[i] == rest[i - 1];
        }
      }
    }
  }

  /** There are not three free descriptors. */
  ghost predicate FewerThanThree(free: seq<bool>) {
    |free| == NUM && forall a, b, c :: 0 <= a < b < c < NUM ==> !(free[a] && free[b] && free[c])
  }

  /** If fewer than three taken descriptors were all the free ones, there were not three. */
  lemma FewFree(free: seq<bool>, free': seq<bool>, idx: seq<nat>)
    requires Taken(free, free', idx) && |idx| < 3 && forall d :: 0 <= d < NUM ==> !free'[d]
    ensures FewerThanThree(free)
  {
    forall d | 0 <= d < NUM && free[d] ensures (|idx| > 0 && d == idx[0]) || (|idx| > 1 && d == idx[1]) {
      assert !free'[d];
    }
  }

  /** Three different descriptors, all free. */
  predicate Three(free: seq<bool>, h: nat, mid: nat, last: nat) {
    && h < |free| && mid < |free| && last < |free| && h != mid && mid != last && h != last
    && free[h] && free[mid] && free[last]
  }

  lemma TakenThree(free: seq<bool>, free': seq<bool>, idx: seq<nat>)
    requires Taken(free, free', idx) && |idx| == 3
    ensures Three(free, idx[0], idx[1], idx[2])
    ensures free' == free[idx[0] := false][idx[1] := false][idx[2] := false]
  {
    forall d | 0 <= d < NUM ensures free'[d] == free[idx[0] := false][idx[1] := false][idx[2] := false][d] {
      if d != idx[0] && d != idx[1] && d != idx[2] {
        assert forall i :: 0 <= i < |idx| ==> idx[i] != d;
      }
    }
  }

  function With3(owner: map<nat, nat>, h: nat, mid: nat, last: nat): (r: map<nat, nat>) {
    owner[h := h][mid := h][last := h]
  }

  lemma NewOwners(free: seq<bool>, chains: map<nat, Chain>, owner: map<nat, nat>, h: nat, c: Chain,
                  free': seq<bool>, chains': map<nat, Chain>, owner': map<nat, nat>)
    requires OwnersOk(free, chains, owner) && Three(free, h, c.mid, c.last)
    requires free' == free[h := false][c.mid := false][c.last := false]
    requires chains' == chains[h := c] && owner' == With3(owner, h, c.mid, c.last) && h !in chains
    ensures OwnersOk(free', chains', owner')
  {
    forall i | Used(owner', i)
      ensures i < NUM && owner'[i] in chains'
      ensures i == owner'[i] || i == chains'[owner'[i]].mid || i == chains'[owner'[i]].last
    {
      if i != h && i != c.mid && i != c.last {
        assert Used(owner, i);
      }
    }
  }

  lemma OldChain(free: seq<bool>, desc: seq<Desc>, ops: seq<Request>, owner: map<nat, nat>, h: nat, c: Chain,
                 desc': seq<Desc>, ops': seq<Request>, g: nat, d: Chain)
    requires |free| == |desc| == |ops| == |desc'| == NUM && Three(free, h, c.mid, c.last) && ops' == ops[h := c.req]
    requires forall i :: 0 <= i < NUM ==> (free[i] <==> i !in owner)
    requires forall i :: 0 <= i < NUM && !free[i] ==> desc'[i] == desc[i]
    requires ChainOk(desc, ops, g, d, owner)
    ensures ChainOk(desc', ops', g, d, With3(owner, h, c.mid, c.last))
  {
  }

  /** A new request on three free descriptors. */
  lemma NewChainDescs(free: seq<bool>, desc: seq<Desc>, ops: seq<Request>, chains: map<nat, Chain>,
                      owner: map<nat, nat>,
                      h: nat, c: Chain, free': seq<bool>, desc': seq<Desc>, ops': seq<Request>,
                      chains': map<nat, Chain>, owner': map<nat, nat>)
    requires DescsOk(free, desc, ops, chains, owner) && Three(free, h, c.mid, c.last)
    requires free' == free[h := false][c.mid := false][c.last := false]
    requires |desc'| == NUM && ops' == ops[h := c.req] && Formatted(desc', ops', h, c)
    requires forall i :: 0 <= i < NUM && !free[i] ==> desc'[i] == desc[i]
    requires chains' == chains[h := c] && owner' == With3(owner, h, c.mid, c.last)
    ensures h !in chains && DescsOk(free', desc', ops', chains', owner')
  {
    assert h in chains ==> ChainOk(desc, ops, h, chains[h], owner);
    NewOwners(free, chains, owner, h, c, free', chains', owner');
    forall g | g in chains' ensures ChainOk(desc', ops', g, chains'[g], owner') {
      if g == h {
        assert ChainOk(desc', ops', h, c, owner');
      } else {
        OldChain(free, desc, ops, owner, h, c, desc', ops', g, chains[g]);
      }
    }
  }

  /** How far a request has come does not matter to its descriptors. */
  lemma StageDescs(free: seq<bool>, desc: seq<Desc>, ops: seq<Request>, chains: map<nat, Chain>, owner: map<nat, nat>,
                   h: nat, st: Stage,
                   chains': map<nat, Chain>)
    requires DescsOk(free, desc, ops, chains, owner) && h in chains && chains' == chains[h := chains[h].(stage := st)]
    ensures DescsOk(free, desc, ops, chains', owner)
  {
    forall g | g in chains' ensures ChainOk(desc, ops, g, chains'[g], owner) {
      assert ChainOk(desc, ops, g, chains[g], owner);
    }
  }

  lemma LostOwners(free: seq<bool>, chains: map<nat, Chain>, owner: map<nat, nat>, h: nat, c: Chain,
                   free': seq<bool>, chains': map<nat, Chain>, owner': map<nat, nat>)
    requires OwnersOk(free, chains, owner) && h in chains && chains[h] == c && h < NUM && c.mid < NUM && c.last < NUM
    requires free' == free[h := true][c.mid := true][c.last := true] && owner' == owner - {h, c.mid, c.last}
    requires chains' == chains - {h}
    ensures OwnersOk(free', chains', owner')
  {
    forall i | Used(owner', i)
      ensures i < NUM && owner'[i] in chains'
      ensures i == owner'[i] || i == chains'[owner'[i]].mid || i == chains'[owner'[i]].last
    {
      assert Used(owner, i);
    }
  }

  lemma KeptChain(desc: seq<Desc>, ops: seq<Request>, owner: map<nat, nat>, h: nat, c: Chain,
                  desc': seq<Desc>, owner': map<nat, nat>, k: nat, d: Chain)
    requires |desc| == |ops| == |desc'| == NUM && k != h && owner' == owner - {h, c.mid, c.last}
    requires ChainOk(desc, ops, h, c, owner) && ChainOk(desc, ops, k, d, owner)
    requires forall i :: 0 <= i < NUM && i != h && i != c.mid && i != c.last ==> desc'[i] == desc[i]
    ensures ChainOk(desc', ops, k, d, owner')
  {
  }

  /** free_chain's three descriptors are free again, and no other chain loses one. */
  lemma LostChainDescs(free: seq<bool>, desc: seq<Desc>, ops: seq<Request>, chains: map<nat, Chain>,
                       owner: map<nat, nat>, h: nat, c: Chain,
                       free': seq<bool>, desc': seq<Desc>, chains': map<nat, Chain>, owner': map<nat, nat>)
    requires DescsOk(free, desc, ops, chains, owner) && h in chains && chains[h] == c && |desc'| == NUM
    requires h < NUM && c.mid < NUM && c.last < NUM && free' == free[h := true][c.mid := true][c.last := true]
    requires forall i :: 0 <= i < NUM && i != h && i != c.mid && i != c.last ==> desc'[i] == desc[i]
    requires chains' == chains - {h} && owner' == owner - {h, c.mid, c.last}
    ensures DescsOk(free', desc', ops, chains', owner')
  {
    assert ChainOk(desc, ops, h, c, owner);
    LostOwners(free, chains, owner, h, c, free', chains', owner');
    forall k | k in chains' ensures ChainOk(desc', ops, k, chains'[k], owner') {
      KeptChain(desc, ops, owner, h, c, desc', owner', k, chains[k]);
    }
  }

  // ---------------------------------------------------------------- rings

  /** The slot of a ring that its k-th entry goes to. */
  function Place(k: nat): (i: nat)
    ensures i < NUM
  {
    k % 8
  }

  /** What is left of an index in 16 bits. */
  function Wrap(k: nat): (i: nat) {
    k % 0x1_0000
  }

  /** A 16-bit index counts on. */
  function After(i: nat): (i': nat) {
    (i + 1) % 0x1_0000
  }

  /** Counting on in 16 bits: the ring slot is the right one, and so is the next index. */
  lemma IndexStep(i: nat, k: nat, k': nat)
    requires i == Wrap(k) && k' == k + 1
    ensures Place(i) == Place(k) && After(i) == Wrap(k')
  {
    assert k == 8 * (8192 * (k / 0x1_0000)) + i;
  }

  /** And indices that are at most a ring apart differ in 16 bits just when they differ. */
  lemma IndexEqual(j: nat, k: nat)
    requires j <= k <= j + 8
    ensures Wrap(j) == Wrap(k) <==> j == k
  {
  }

  /** One ring: what has been put in it, how much of that has been read, and what has not, in order. */
  datatype Ring = Ring(slots: seq<nat>, put: nat, got: nat, q: seq<nat>)

  ghost predicate RingOk(r: Ring) {
    && |r.slots| == NUM && r.put == r.got + |r.q|
    && (forall j :: 0 <= j < |r.q| ==> r.slots[Place(r.got + j)] == r.q[j])
    && Distinct(r.q)
  }

  predicate Distinct(q: seq<nat>) {
    && (forall j :: 0 <= j < |q| ==> q[j] < NUM)
    && (forall i, j :: 0 <= i < j < |q| ==> q[i] != q[j])
  }

  /** Where h is in q, or -1. */
  function IndexOf(q: seq<nat>, h: nat): (i: int)
    ensures -1 <= i < |q|
    ensures i >= 0 ==> q[i] == h
    ensures i < 0 ==> forall j :: 0 <= j < |q| ==> q[j] != h
  {
    if q == [] then -1 else if q[0] == h then 0
    else
      var i := IndexOf(q[1..], h);
      if i < 0 then -1 else i + 1
  }

  /** Different descriptors, h not among them: fewer than there are slots, so a ring has room for h. */
  lemma HasRoom(q: seq<nat>, h: nat)
    requires Distinct(q) && h < NUM && IndexOf(q, h) < 0
    ensures |q| < NUM
  {
    var s := set j | 0 <= j < |q| :: q[j];
    SeqCard(q, s);
    SmallSet(s + {h}, NUM);
  }

  lemma {:induction false} SeqCard(q: seq<nat>, s: set<nat>)
    requires Distinct(q) && s == set j | 0 <= j < |q| :: q[j]
    ensures |s| == |q|
  {
    if q == [] {
      assert s == {};
    } else {
      var n := |q| - 1;
      var s' := set j | 0 <= j < n :: q[..n][j];
      assert forall j :: 0 <= j < n ==> q[..n][j] == q[j];
      SeqCard(q[..n], s');
      assert s == s' + {q[n]};
    }
  }

  function Put(r: Ring, h: nat): (r': Ring)
    requires |r.slots| == NUM
  {
    Ring(r.slots[Place(r.put) := h], r.put + 1, r.got, r.q + [h])
  }

  lemma Apart(k: nat, n: nat)
    requires k < n < k + 8
    ensures Place(k) != Place(n)
  {
  }

  /** The entry for h goes where no entry is still to be read. */
  lemma PutKeeps(r: Ring, h: nat)
    requires RingOk(r) && h < NUM && IndexOf(r.q, h) < 0
    ensures RingOk(Put(r, h)) && NextIsFree(r)
  {
    HasRoom(r.q, h);
    forall k | r.got <= k < r.put ensures Place(k) != Place(r.put) {
      Apart(k, r.put);
    }
    var r' := Put(r, h);
    forall j | 0 <= j < |r'.q| ensures r'.slots[Place(r'.got + j)] == r'.q[j] {
      if j < |r.q| {
        assert r.slots[Place(r.got + j)] == r.q[j];
      }
    }
  }

  /** The slot of the next entry is not one still to be read. */
  ghost predicate NextIsFree(r: Ring) {
    forall k :: r.got <= k < r.put ==> Place(k) != Place(r.put)
  }

  function Get(r: Ring): (r': Ring)
    requires r.q != []
  {
    Ring(r.slots, r.put, r.got + 1, r.q[1..])
  }

  lemma GetKeeps(r: Ring)
    requires RingOk(r) && r.q != []
    ensures r.slots[Place(r.got)] == r.q[0] && RingOk(Get(r))
  {
    assert r.slots[Place(r.got + 0)] == r.q[0];
    assert forall j :: 0 <= j < |r.q[1..]| ==> r.q[1..][j] == r.q[j + 1];
  }

  // ---------------------------------------------------------------- driver and device

  /** The memory the driver and the device share, and the driver's own. The indices are as in memory. */
  datatype Memory = Memory(
    free: seq<bool>,
    desc: seq<Desc>,
    ops: seq<Request>,
    info: seq<Info>,
    availRing: seq<nat>,
    availIdx: nat,
    usedRing: seq<nat>,
    usedIdx: nat,        // disk.used->idx, written by the device
    seenIdx: nat,        // disk.used_idx
    devIdx: nat,         // how much of the avail ring the device has read
    busy: set<nat>)      // buffers with b->disk == 1

  /** What neither side has written down: the requests in flight, who owns which descriptor and which
      buffer, and the rings with indices that do not wrap. */
  datatype Flight = Flight(chains: map<nat, Chain>, owner: map<nat, nat>, holder: map<nat, nat>,
                           avail: Ring, used: Ring)

  ghost predicate Inv(m: Memory, g: Flight) {
    && DescsOk(m.free, m.desc, m.ops, g.chains, g.owner)
    && Flow(m, g)
  }

  /** The rings in memory are those of the flight, and they, info[] and the busy flags agree with how far
      each request has come. */
  ghost predicate Flow(m: Memory, g: Flight) {
    && m.availRing == g.avail.slots && m.usedRing == g.used.slots
    && m.availIdx == Wrap(g.avail.put) && m.devIdx == Wrap(g.avail.got)
    && m.usedIdx == Wrap(g.used.put) && m.seenIdx == Wrap(g.used.got)
    && RingOk(g.avail) && RingOk(g.used)
    && Listed(g.avail.q, g.chains, Queued) && Listed(g.used.q, g.chains, Done)
    && InfoOk(m.info, g.chains, m.busy, g.holder)
  }

  /** A ring holds exactly the requests at this stage. */
  ghost predicate Listed(q: seq<nat>, chains: map<nat, Chain>, st: Stage) {
    && (forall j :: 0 <= j < |q| ==> q[j] in chains && chains[q[j]].stage == st)
    && (forall h :: h in chains && chains[h].stage == st ==> 0 <= IndexOf(q, h))
  }

  /** info[] names each request's buffer, which is busy until its completion has been seen; by then the
      status is 0. No two requests have the same buffer: holder says which has it. */
  ghost predicate InfoOk(info: seq<Info>, chains: map<nat, Chain>, busy: set<nat>, holder: map<nat, nat>) {
    |info| == NUM && forall h :: h in chains ==> h < NUM && RequestOk(info[h], h, chains[h], busy, holder)
  }

  ghost predicate RequestOk(i: Info, h: nat, c: Chain, busy: set<nat>, holder: map<nat, nat>) {
    && i.buf == c.buf && c.buf in holder && holder[c.buf] == h
    && (c.buf in busy <==> !c.stage.Seen?)
    && (c.stage.Done? ==> i.status == 0)
  }

  datatype Step =
    | Submit(h: nat, mid: nat, last: nat, buf: nat, req: Request)   // virtio_disk_rw up to its wait
    | Fetch                                                         // the device reads the avail ring
    | Complete(h: nat)                                              // the device fills the used ring
    | Notice                                                        // virtio_disk_intr's loop body
    | Finish(h: nat)                                                // virtio_disk_rw after its wait

  ghost predicate Enabled(m: Memory, g: Flight, step: Step) {
    match step
    case Submit(h, mid, last, buf, _) =>
      Three(m.free, h, mid, last) && forall k :: k in g.chains ==> g.chains[k].buf != buf
    case Fetch => m.devIdx != m.availIdx
    case Complete(h) => h in g.chains && g.chains[h].stage.Working?
    case Notice => m.seenIdx != m.usedIdx
    case Finish(h) => h in g.chains && g.chains[h].buf !in m.busy
  }

  /** The descriptors of a new request. */
  function Formats(desc: seq<Desc>, h: nat, mid: nat, last: nat, buf: nat, req: Request): (desc': seq<Desc>)
    requires h < |desc| && mid < |desc| && last < |desc|
  {
    desc[h := Desc(Op(h), 16, F_NEXT, mid)]
        [mid := Desc(Data(buf), 1024, (if req.write then 0 else F_WRITE) + F_NEXT, last)]
        [last := Desc(Status(h), 1, F_WRITE, 0)]
  }

  function Cleared(desc: seq<Desc>, h: nat, mid: nat, last: nat): (desc': seq<Desc>)
    requires h < |desc| && mid < |desc| && last < |desc|
  {
    desc[h := Desc(Null, 0, 0, 0)][mid := Desc(Null, 0, 0, 0)][last := Desc(Null, 0, 0, 0)]
  }

  /** Memory after a step. */
  ghost function Apply(m: Memory, g: Flight, step: Step): (m': Memory)
    requires Inv(m, g) && Enabled(m, g, step)
  {
    match step
    case Submit(h, mid, last, buf, req) =>
      m.(free := m.free[h := false][mid := false][last := false],
         desc := Formats(m.desc, h, mid, last, buf, req),
         ops := m.ops[h := req],
         info := m.info[h := Info(buf, 0xff)],
         busy := m.busy + {buf},
         availRing := m.availRing[Place(m.availIdx) := h],
         availIdx := After(m.availIdx))
    case Fetch => m.(devIdx := After(m.devIdx))
    case Complete(h) =>
      m.(info := m.info[h := m.info[h].(status := 0)],
         usedRing := m.usedRing[Place(m.usedIdx) := h],
         usedIdx := After(m.usedIdx))
    case Notice =>
      NoticeReads(m, g);
      m.(busy := m.busy - {m.info[m.usedRing[Place(m.seenIdx)]].buf}, seenIdx := After(m.seenIdx))
    case Finish(h) =>
      ChainInRange(m, g, h);
      m.(info := m.info[h := m.info[h].(buf := -1)],
         free := m.free[h := true][g.chains[h].mid := true][g.chains[h].last := true],
         desc := Cleared(m.desc, h, g.chains[h].mid, g.chains[h].last))
  }

  ghost function Moved(chains: map<nat, Chain>, h: nat, st: Stage): (chains': map<nat, Chain>)
    requires h in chains
  {
    chains[h := chains[h].(stage := st)]
  }

  /** The requests in flight after a step. */
  ghost function Next(m: Memory, g: Flight, step: Step): (g': Flight)
    requires Inv(m, g) && Enabled(m, g, step)
  {
    match step
    case Submit(h, mid, last, buf, req) =>
      g.(chains := g.chains[h := Chain(mid, last, buf, req, Queued)], owner := With3(g.owner, h, mid, last),
         holder := g.holder[buf := h], avail := Put(g.avail, h))
    case Fetch => FetchReads(m, g); g.(chains := Moved(g.chains, g.avail.q[0], Working), avail := Get(g.avail))
    case Complete(h) => g.(chains := Moved(g.chains, h, Done), used := Put(g.used, h))
    case Notice => NoticeReads(m, g); g.(chains := Moved(g.chains, g.used.q[0], Seen), used := Get(g.used))
    case Finish(h) => g.(chains := g.chains - {h}, owner := g.owner - {h, g.chains[h].mid, g.chains[h].last})
  }

  lemma ChainInRange(m: Memory, g: Flight, h: nat)
    requires Inv(m, g) && h in g.chains
    ensures h < NUM && Formatted(m.desc, m.ops, h, g.chains[h])
  {
    assert ChainOk(m.desc, m.ops, h, g.chains[h], g.owner);
  }

  /** What the device reads next from the avail ring. */
  lemma FetchReads(m: Memory, g: Flight)
    requires Flow(m, g) && m.devIdx != m.availIdx
    ensures g.avail.q != [] && m.availRing[Place(m.devIdx)] == g.avail.q[0]
    ensures g.avail.q[0] in g.chains && g.chains[g.avail.q[0]].stage.Queued?
  {
    IndexStep(m.devIdx, g.avail.got, g.avail.got + 1);
    GetKeeps(g.avail);
  }

  /** What the interrupt handler reads next from the used ring: a request that is done, with status 0 and
      its buffer still busy. */
  lemma NoticeReads(m: Memory, g: Flight)
    requires Flow(m, g) && m.seenIdx != m.usedIdx
    ensures g.used.q != [] && m.usedRing[Place(m.seenIdx)] == g.used.q[0]
    ensures g.used.q[0] in g.chains && g.used.q[0] < NUM && g.chains[g.used.q[0]].stage.Done?
    ensures m.info[g.used.q[0]] == Info(g.chains[g.used.q[0]].buf, 0) && g.chains[g.used.q[0]].buf in m.busy
  {
    IndexStep(m.seenIdx, g.used.got, g.used.got + 1);
    GetKeeps(g.used);
    var h := g.used.q[0];
    assert h in g.chains && RequestOk(m.info[h], h, g.chains[h], m.busy, g.holder);
  }

  // ---------------------------------------------------------------- every step keeps the invariant

  lemma ListedPut(q: seq<nat>, chains: map<nat, Chain>, st: Stage, h: nat, c: Chain, chains': map<nat, Chain>)
    requires Listed(q, chains, st) && (h in chains ==> chains[h].stage != st) && c.stage == st
    requires chains' == chains[h := c]
    ensures IndexOf(q, h) < 0 && Listed(q + [h], chains', st)
  {
    forall k | k in chains' && chains'[k].stage == st ensures 0 <= IndexOf(q + [h], k) {
      if k == h {
        assert (q + [h])[|q|] == h;
      } else {
        assert (q + [h])[IndexOf(q, k)] == k;
      }
    }
  }

  lemma ListedGet(q: seq<nat>, chains: map<nat, Chain>, st: Stage, st': Stage, chains': map<nat, Chain>)
    requires Listed(q, chains, st) && Distinct(q) && q != [] && st' != st && chains' == Moved(chains, q[0], st')
    ensures Listed(q[1..], chains', st)
  {
    forall k | k in chains' && chains'[k].stage == st ensures 0 <= IndexOf(q[1..], k) {
      assert q[1..][IndexOf(q, k) - 1] == k;
    }
  }

  /** A request that neither was nor is at this stage. */
  lemma ListedOther(q: seq<nat>, chains: map<nat, Chain>, st: Stage, h: nat, c: Chain, chains': map<nat, Chain>)
    requires Listed(q, chains, st) && (h in chains ==> chains[h].stage != st) && c.stage != st
    requires chains' == chains[h := c]
    ensures Listed(q, chains', st)
  {
  }

  lemma ListedWithout(q: seq<nat>, chains: map<nat, Chain>, st: Stage, h: nat, chains': map<nat, Chain>)
    requires Listed(q, chains, st) && h in chains && chains[h].stage != st && chains' == chains - {h}
    ensures Listed(q, chains', st)
  {
  }

  lemma InfoSubmit(info: seq<Info>, chains: map<nat, Chain>, busy: set<nat>, holder: map<nat, nat>, h: nat, c: Chain,
                   chains': map<nat, Chain>)
    requires InfoOk(info, chains, busy, holder) && h < NUM && c.stage.Queued? && chains' == chains[h := c]
    requires forall k :: k in chains ==> chains[k].buf != c.buf
    ensures InfoOk(info[h := Info(c.buf, 0xff)], chains', busy + {c.buf}, holder[c.buf := h])
  {
    var info', busy', holder' := info[h := Info(c.buf, 0xff)], busy + {c.buf}, holder[c.buf := h];
    forall k | k in chains' ensures k < NUM && RequestOk(info'[k], k, chains'[k], busy', holder') {
      if k != h {
        assert RequestOk(info[k], k, chains[k], busy, holder);
      }
    }
  }

  lemma InfoMove(info: seq<Info>, chains: map<nat, Chain>, busy: set<nat>, holder: map<nat, nat>, h: nat, st: Stage,
                 info': seq<Info>, chains': map<nat, Chain>)
    requires InfoOk(info, chains, busy, holder) && h in chains && !chains[h].stage.Seen? && !st.Seen?
    requires chains' == Moved(chains, h, st)
    requires info' == if st.Done? && h < |info| then info[h := info[h].(status := 0)] else info
    ensures InfoOk(info', chains', busy, holder)
  {
    assert RequestOk(info[h], h, chains[h], busy, holder);
    forall k | k in chains' ensures k < NUM && RequestOk(info'[k], k, chains'[k], busy, holder) {
      if k != h {
        assert RequestOk(info[k], k, chains[k], busy, holder);
      }
    }
  }

  /** The handler clears the buffer's busy flag. */
  lemma InfoSeen(info: seq<Info>, chains: map<nat, Chain>, busy: set<nat>, holder: map<nat, nat>, h: nat,
                 busy': set<nat>, chains': map<nat, Chain>)
    requires InfoOk(info, chains, busy, holder) && h in chains && chains' == Moved(chains, h, Seen)
    requires busy' == busy - {chains[h].buf}
    ensures InfoOk(info, chains', busy', holder)
  {
    assert RequestOk(info[h], h, chains[h], busy, holder);
    forall k | k in chains' ensures k < NUM && RequestOk(info[k], k, chains'[k], busy', holder) {
      if k != h {
        assert RequestOk(info[k], k, chains[k], busy, holder);
      }
    }
  }

  lemma FormatsDescs(desc: seq<Desc>, ops: seq<Request>, free: seq<bool>, h: nat, c: Chain, desc': seq<Desc>,
                     ops': seq<Request>)
    requires |desc| == |ops| == |free| == NUM && Three(free, h, c.mid, c.last)
    requires desc' == Formats(desc, h, c.mid, c.last, c.buf, c.req) && ops' == ops[h := c.req]
    ensures |desc'| == NUM && Formatted(desc', ops', h, c)
    ensures forall i :: 0 <= i < NUM && !free[i] ==> desc'[i] == desc[i]
  {
  }

  lemma SubmitFlow(m: Memory, g: Flight, step: Step, m': Memory, g': Flight)
    requires Inv(m, g) && Enabled(m, g, step) && step.Submit? && m' == Apply(m, g, step) && g' == Next(m, g, step)
    requires step.h !in g.chains
    ensures Flow(m', g')
  {
    var c := g'.chains[step.h];
    IndexStep(m.availIdx, g.avail.put, g'.avail.put);
    ListedPut(g.avail.q, g.chains, Queued, step.h, c, g'.chains);
    PutKeeps(g.avail, step.h);
    ListedOther(g.used.q, g.chains, Done, step.h, c, g'.chains);
    InfoSubmit(m.info, g.chains, m.busy, g.holder, step.h, c, g'.chains);
  }

  lemma SubmitKeepsInv(m: Memory, g: Flight, step: Step, m': Memory, g': Flight)
    requires Inv(m, g) && Enabled(m, g, step) && step.Submit? && m' == Apply(m, g, step) && g' == Next(m, g, step)
    ensures Inv(m', g')
  {
    var c := Chain(step.mid, step.last, step.buf, step.req, Queued);
    FormatsDescs(m.desc, m.ops, m.free, step.h, c, m'.desc, m'.ops);
    NewChainDescs(m.free, m.desc, m.ops, g.chains, g.owner, step.h, c, m'.free, m'.desc, m'.ops, g'.chains, g'.owner);
    SubmitFlow(m, g, step, m', g');
  }

  lemma FetchKeepsInv(m: Memory, g: Flight, m': Memory, g': Flight)
    requires Inv(m, g) && Enabled(m, g, Fetch) && m' == Apply(m, g, Fetch) && g' == Next(m, g, Fetch)
    ensures Inv(m', g')
  {
    FetchReads(m, g);
    var h := g.avail.q[0];
    IndexStep(m.devIdx, g.avail.got, g'.avail.got);
    GetKeeps(g.avail);
    ListedGet(g.avail.q, g.chains, Queued, Working, g'.chains);
    InfoMove(m.info, g.chains, m.busy, g.holder, h, Working, m'.info, g'.chains);
    ListedOther(g.used.q, g.chains, Done, h, g'.chains[h], g'.chains);
    StageDescs(m.free, m.desc, m.ops, g.chains, g.owner, h, Working, g'.chains);
  }

  lemma CompleteKeepsInv(m: Memory, g: Flight, h: nat, m': Memory, g': Flight)
    requires Inv(m, g) && Enabled(m, g, Complete(h)) && m' == Apply(m, g, Complete(h)) && g' == Next(m, g, Complete(h))
    ensures Inv(m', g')
  {
    IndexStep(m.usedIdx, g.used.put, g'.used.put);
    ListedPut(g.used.q, g.chains, Done, h, g'.chains[h], g'.chains);
    PutKeeps(g.used, h);
    ListedOther(g.avail.q, g.chains, Queued, h, g'.chains[h], g'.chains);
    InfoMove(m.info, g.chains, m.busy, g.holder, h, Done, m'.info, g'.chains);
    StageDescs(m.free, m.desc, m.ops, g.chains, g.owner, h, Done, g'.chains);
  }

  lemma NoticeFlow(m: Memory, g: Flight, m': Memory, g': Flight)
    requires Inv(m, g) && Enabled(m, g, Notice) && m' == Apply(m, g, Notice) && g' == Next(m, g, Notice)
    ensures Flow(m', g')
  {
    NoticeReads(m, g);
    var h := g.used.q[0];
    IndexStep(m.seenIdx, g.used.got, g'.used.got);
    GetKeeps(g.used);
    ListedGet(g.used.q, g.chains, Done, Seen, g'.chains);
    ListedOther(g.avail.q, g.chains, Queued, h, g'.chains[h], g'.chains);
    InfoSeen(m.info, g.chains, m.busy, g.holder, h, m'.busy, g'.chains);
  }

  lemma NoticeKeepsInv(m: Memory, g: Flight, m': Memory, g': Flight)
    requires Inv(m, g) && Enabled(m, g, Notice) && m' == Apply(m, g, Notice) && g' == Next(m, g, Notice)
    ensures Inv(m', g')
  {
    NoticeReads(m, g);
    NoticeFlow(m, g, m', g');
    StageDescs(m.free, m.desc, m.ops, g.chains, g.owner, g.used.q[0], Seen, g'.chains);
  }

  lemma FinishKeepsInv(m: Memory, g: Flight, h: nat, m': Memory, g': Flight)
    requires Inv(m, g) && Enabled(m, g, Finish(h)) && m' == Apply(m, g, Finish(h)) && g' == Next(m, g, Finish(h))
    ensures Inv(m', g')
  {
    ChainInRange(m, g, h);
    assert RequestOk(m.info[h], h, g.chains[h], m.busy, g.holder);
    ListedWithout(g.avail.q, g.chains, Queued, h, g'.chains);
    ListedWithout(g.used.q, g.chains, Done, h, g'.chains);
    LostChainDescs(m.free, m.desc, m.ops, g.chains, g.owner, h, g.chains[h], m'.free, m'.desc, g'.chains, g'.owner);
  }

  /** Every step of driver and device keeps the invariant. */
  lemma StepKeepsInv(m: Memory, g: Flight, step: Step)
    requires Inv(m, g) && Enabled(m, g, step)
    ensures Inv(Apply(m, g, step), Next(m, g, step))
  {
    var m', g' := Apply(m, g, step), Next(m, g, step);
    match step
    case Submit(_, _, _, _, _) => SubmitKeepsInv(m, g, step, m', g');
    case Fetch => FetchKeepsInv(m, g, m', g');
    case Complete(h) => CompleteKeepsInv(m, g, h, m', g');
    case Notice => NoticeKeepsInv(m, g, m', g');
    case Finish(h) => FinishKeepsInv(m, g, h, m', g');
  }

  // ---------------------------------------------------------------- runs

  ghost predicate Follows(m: Memory, g: Flight, step: Step, m': Memory, g': Flight) {
    Inv(m, g) ==> Enabled(m, g, step) && m' == Apply(m, g, step) && g' == Next(m, g, step)
  }

  ghost predicate Run(ms: seq<Memory>, gs: seq<Flight>, steps: seq<Step>) {
    && |ms| == |gs| == |steps| + 1
    && forall i :: 0 <= i < |steps| ==> Follows(ms[i], gs[i], steps[i], ms[i + 1], gs[i + 1])
  }

  /** As virtio_disk_init leaves it: all descriptors free, both rings empty. */
  ghost predicate Started(m: Memory, g: Flight) {
    && |m.free| == |m.desc| == |m.ops| == |m.info| == |m.availRing| == |m.usedRing| == NUM
    && (forall i :: 0 <= i < NUM ==> m.free[i])
    && m.availIdx == m.usedIdx == m.seenIdx == m.devIdx == 0 && m.busy == {}
    && g == Flight(map[], map[], map[], Ring(m.availRing, 0, 0, []), Ring(m.usedRing, 0, 0, []))
  }

  lemma StartedInv(m: Memory, g: Flight)
    requires Started(m, g)
    ensures Inv(m, g)
  {
  }

  lemma {:induction false} RunInv(ms: seq<Memory>, gs: seq<Flight>, steps: seq<Step>, k: nat)
    requires Run(ms, gs, steps) && Started(ms[0], gs[0]) && k < |ms|
    ensures Inv(ms[k], gs[k])
  {
    StartedInv(ms[0], gs[0]);
    if k > 0 {
      RunInv(ms, gs, steps, k - 1);
      assert Follows(ms[k - 1], gs[k - 1], steps[k - 1], ms[k], gs[k]);
      StepKeepsInv(ms[k - 1], gs[k - 1], steps[k - 1]);
    }
  }

  /** Descriptor i is part of request h. */
  predicate PartOf(chains: map<nat, Chain>, h: nat, i: nat) {
    h in chains && (i == h || i == chains[h].mid || i == chains[h].last)
  }

  /** In every interleaving, each descriptor is free, or part of exactly one request in flight, whose three
      descriptors are different, linked, and say what was asked. */
  lemma DescriptorsAccounted(ms: seq<Memory>, gs: seq<Flight>, steps: seq<Step>, k: nat, i: nat)
    requires Run(ms, gs, steps) && Started(ms[0], gs[0]) && k < |ms| && i < NUM
    ensures |ms[k].free| == |ms[k].desc| == |ms[k].ops| == NUM
    ensures !ms[k].free[i] <==> exists h :: PartOf(gs[k].chains, h, i)
    ensures forall h, h' :: PartOf(gs[k].chains, h, i) && PartOf(gs[k].chains, h', i) ==> h == h'
    ensures forall h :: h in gs[k].chains ==> Formatted(ms[k].desc, ms[k].ops, h, gs[k].chains[h])
  {
    RunInv(ms, gs, steps, k);
    Accounted(ms[k].free, ms[k].desc, ms[k].ops, gs[k].chains, gs[k].owner, i);
  }

  lemma Accounted(free: seq<bool>, desc: seq<Desc>, ops: seq<Request>, chains: map<nat, Chain>, owner: map<nat, nat>,
                  i: nat)
    requires DescsOk(free, desc, ops, chains, owner) && i < NUM
    ensures !free[i] <==> exists h :: PartOf(chains, h, i)
    ensures forall h :: PartOf(chains, h, i) ==> i in owner && owner[i] == h
    ensures forall h :: h in chains ==> Formatted(desc, ops, h, chains[h])
  {
    forall h | h in chains ensures ChainOk(desc, ops, h, chains[h], owner) {
    }
    if !free[i] {
      assert Used(owner, i);
      assert PartOf(chains, owner[i], i);
    }
  }

  /** So at most two requests are in flight. */
  lemma AtMostTwo(free: seq<bool>, desc: seq<Desc>, ops: seq<Request>, chains: map<nat, Chain>, owner: map<nat, nat>,
                  a: nat, b: nat, c: nat)
    requires DescsOk(free, desc, ops, chains, owner) && a in chains && b in chains && c in chains
    ensures a == b || b == c || a == c
  {
    assert ChainOk(desc, ops, a, chains[a], owner);
    assert ChainOk(desc, ops, b, chains[b], owner);
    assert ChainOk(desc, ops, c, chains[c], owner);
    if a != b && b != c && a != c {
      var nine :=
        {a, chains[a].mid, chains[a].last} + {b, chains[b].mid, chains[b].last} + {c, chains[c].mid, chains[c].last};
      SmallSet(nine, NUM);
    }
  }

  /** In every interleaving, and however often the 16-bit indices have wrapped, an entry is written to a
      ring only where no entry is still to be read. */
  lemma NeverOverwrites(ms: seq<Memory>, gs: seq<Flight>, steps: seq<Step>, k: nat)
    requires Run(ms, gs, steps) && Started(ms[0], gs[0]) && k < |steps|
    ensures steps[k].Submit? ==> NextIsFree(gs[k].avail) && Place(ms[k].availIdx) == Place(gs[k].avail.put)
    ensures steps[k].Complete? ==> NextIsFree(gs[k].used) && Place(ms[k].usedIdx) == Place(gs[k].used.put)
  {
    var m, g := ms[k], gs[k];
    RunInv(ms, gs, steps, k);
    assert Follows(m, g, steps[k], ms[k + 1], gs[k + 1]);
    IndexStep(m.availIdx, g.avail.put, g.avail.put + 1);
    IndexStep(m.usedIdx, g.used.put, g.used.put + 1);
    match steps[k]
    case Submit(h, mid, last, buf, req) =>
      var c := Chain(mid, last, buf, req, Queued);
      FreshHead(m, g, h);
      ListedPut(g.avail.q, g.chains, Queued, h, c, g.chains[h := c]);
      PutKeeps(g.avail, h);
    case Complete(h) =>
      ListedPut(g.used.q, g.chains, Done, h, g.chains[h].(stage := Done), Moved(g.chains, h, Done));
      PutKeeps(g.used, h);
    case _ =>
  }

  lemma FreshHead(m: Memory, g: Flight, h: nat)
    requires Inv(m, g) && h < NUM && m.free[h]
    ensures h !in g.chains
  {
    assert h in g.chains ==> ChainOk(m.desc, m.ops, h, g.chains[h], g.owner);
  }

  /** In every interleaving, the interrupt handler finds in the used ring a request the device has
      completed, with status 0, so it does not panic, and it releases the buffer of that request and no
      other. */
  lemma ReleasesItsOwn(ms: seq<Memory>, gs: seq<Flight>, steps: seq<Step>, k: nat)
    requires Run(ms, gs, steps) && Started(ms[0], gs[0]) && k < |steps| && steps[k].Notice?
    ensures |ms[k].usedRing| == |ms[k].info| == NUM
    ensures var h := ms[k].usedRing[Place(ms[k].seenIdx)];
            && h < NUM && h in gs[k].chains && gs[k].chains[h].stage.Done?
            && ms[k].info[h] == Info(gs[k].chains[h].buf, 0)
            && gs[k].chains[h].buf in ms[k].busy && ms[k + 1].busy == ms[k].busy - {gs[k].chains[h].buf}
  {
    RunInv(ms, gs, steps, k);
    assert Follows(ms[k], gs[k], steps[k], ms[k + 1], gs[k + 1]);
    NoticeReads(ms[k], gs[k]);
  }

  lemma QueueFits(q: seq<nat>)
    requires Distinct(q)
    ensures |q| <= NUM
  {
    var s := set j | 0 <= j < |q| :: q[j];
    SeqCard(q, s);
    SmallSet(s, NUM);
  }

  /** The 16-bit indices of a ring agree just when all its entries have been read. */
  lemma IndicesTell(r: Ring, putIdx: nat, gotIdx: nat)
    requires RingOk(r) && putIdx == Wrap(r.put) && gotIdx == Wrap(r.got)
    ensures gotIdx != putIdx <==> r.q != []
  {
    QueueFits(r.q);
    IndexEqual(r.got, r.put);
  }

  lemma NoneListed(q: seq<nat>, chains: map<nat, Chain>, st: Stage)
    requires Listed(q, chains, st)
    ensures q == [] <==> forall h :: h in chains ==> chains[h].stage != st
  {
    assert q != [] ==> q[0] in chains && chains[q[0]].stage == st;
  }

  /** In every interleaving, and however often the 16-bit indices have wrapped: the device finds the avail ring
      empty just when no request waits for it, and the handler's loop ends just when every completed request
      has been seen. Wrap-around hides neither, and neither side takes an entry that is not there. */
  lemma WrapHidesNothing(ms: seq<Memory>, gs: seq<Flight>, steps: seq<Step>, k: nat)
    requires Run(ms, gs, steps) && Started(ms[0], gs[0]) && k < |ms|
    ensures ms[k].devIdx != ms[k].availIdx <==> gs[k].avail.q != []
    ensures ms[k].seenIdx != ms[k].usedIdx <==> gs[k].used.q != []
    ensures ms[k].devIdx == ms[k].availIdx <==> forall h :: h in gs[k].chains ==> gs[k].chains[h].stage != Queued
    ensures ms[k].seenIdx == ms[k].usedIdx <==> forall h :: h in gs[k].chains ==> gs[k].chains[h].stage != Done
  {
    RunInv(ms, gs, steps, k);
    IndicesTell(gs[k].avail, ms[k].availIdx, ms[k].devIdx);
    IndicesTell(gs[k].used, ms[k].usedIdx, ms[k].seenIdx);
    NoneListed(gs[k].avail.q, gs[k].chains, Queued);
    NoneListed(gs[k].used.q, gs[k].chains, Done);
  }

  // ---------------------------------------------------------------- the driver's loops over descriptors

  class Descriptors {
    var free: seq<bool>
    var desc: seq<Desc>

    /** alloc_desc: the first free descriptor, or -1. */
    method AllocDesc() returns (r: int)
      requires |free| == NUM
      modifies this`free
      ensures |free| == NUM
      ensures if r == -1 then free == old(free) && forall i :: 0 <= i < NUM ==> !free[i]
              else 0 <= r < NUM && old(free)[r] && free == old(free)[r := false] && forall i :: 0 <= i < r ==> !free[i]
    {
      var i := 0;
      while i < NUM
        invariant 0 <= i <= NUM && free == old(free) && forall j :: 0 <= j < i ==> !free[j]
      {
        if free[i] {
          free := free[i := false];
          return i;
        }
        i := i + 1;
      }
      r := -1;
    }

    /** free_desc: false where it panics. */
    method FreeDesc(i: nat) returns (ok: bool)
      requires |free| == |desc| == NUM
      modifies this`free, this`desc
      ensures ok <==> i < NUM && !old(free)[i]
      ensures if ok then free == old(free)[i := true] && desc == old(desc)[i := Desc(Null, 0, 0, 0)]
              else unchanged(this)
    {
      if i >= NUM || free[i] {
        return false;
      }
      desc := desc[i := Desc(Null, 0, 0, 0)];
      free := free[i := true];
      ok := true;
    }

    /** alloc3_desc: three different descriptors that were free, or none of them taken when there are not
        three; it never panics. */
    method Alloc3Desc() returns (ok: bool, idx: seq<nat>)
      requires |free| == |desc| == NUM
      modifies this`free, this`desc
      ensures |free| == |desc| == NUM && forall i :: 0 <= i < NUM && !old(free)[i] ==> desc[i] == old(desc)[i]
      ensures ok ==> |idx| == 3 && Three(old(free), idx[0], idx[1], idx[2])
      ensures ok ==> free == old(free)[idx[0] := false][idx[1] := false][idx[2] := false]
      ensures !ok ==> free == old(free) && FewerThanThree(free)
    {
      idx := [];
      while |idx| < 3
        invariant |idx| <= 3 && |free| == NUM && desc == old(desc) && Taken(old(free), free, idx)
      {
        ghost var free1 := free;
        var r := AllocDesc();
        if r < 0 {
          FewFree(old(free), free, idx);
          Undo(idx, old(free));
          return false, idx;
        }
        TakeOne(old(free), free1, idx, r);
        idx := idx + [r];
      }
      TakenThree(old(free), free, idx);
      ok := true;
    }

    /** Gives back the descriptors already taken. */
    method Undo(idx: seq<nat>, ghost was: seq<bool>)
      requires |free| == |desc| == |was| == NUM && Taken(was, free, idx)
      modifies this`free, this`desc
      ensures free == was && |desc| == NUM && forall i :: 0 <= i < NUM && !was[i] ==> desc[i] == old(desc)[i]
    {
      var j := 0;
      while j < |idx|
        invariant 0 <= j <= |idx| && |free| == |desc| == NUM && Taken(was, free, idx[j..])
        invariant forall i :: 0 <= i < NUM && !was[i] ==> desc[i] == old(desc)[i]
      {
        GiveOne(was, free, idx[j..]);
        var ok := FreeDesc(idx[j]);
        assert idx[j..][1..] == idx[j + 1..];
        j := j + 1;
      }
    }

    /** free_chain of a request: it follows the chain to its end, frees exactly its three descriptors, and
        never panics. */
    method FreeChain(h: nat, ghost ops: seq<Request>, ghost c: Chain) returns (ok: bool)
      requires |free| == |desc| == |ops| == NUM && Formatted(desc, ops, h, c) && !free[h] && !free[c.mid]
      requires !free[c.last]
      modifies this`free, this`desc
      ensures ok
      ensures free == old(free)[h := true][c.mid := true][c.last := true]
      ensures desc == Cleared(old(desc), h, c.mid, c.last)
    {
      var i := h;
      ghost var links := 0;
      while true
        invariant 0 <= links <= 2 && i == [h, c.mid, c.last][links] && |free| == |desc| == NUM
        invariant free ==
          if links == 0 then old(free)
          else if links == 1 then old(free)[h := true]
          else old(free)[h := true][c.mid := true]
        invariant desc == if links == 0 then old(desc) else if links == 1 then old(desc)[h := Desc(Null, 0, 0, 0)]
                          else old(desc)[h := Desc(Null, 0, 0, 0)][c.mid := Desc(Null, 0, 0, 0)]
        decreases 2 - links
      {
        var flag, nxt := desc[i].flags, desc[i].next;
        ok := FreeDesc(i);
        if flag % 2 == 1 {
          i := nxt;
          links := links + 1;
        } else {
          return;
        }
      }
    }
  }
}
