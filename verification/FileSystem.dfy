/** The file layer of xv6/kernel/fs.c: block allocator, block map, truncation, reading and
    writing. Methods of inode i run with ip->lock held, inside a transaction where they log. */
module FileSystem {
  import opened Blocks
  import opened BlockMap

  function Zeroes(): (d: Block)
    ensures forall j :: 0 <= j < BSIZE ==> d[j] == 0
  {
    seq(BSIZE, _ => 0)
  }

  /** The bitmap block that holds the bit of block b. */
  function BBlock(g: Layout, b: nat): nat {
    g.bmapStart + b / BPB
  }

  /** The block that holds inode i. */
  function IBlock(g: Layout, i: nat): nat {
    g.inodeStart + i / IPB
  }

  /** The addresses of every slot are the same with either table. */
  ghost predicate SameAddrs(inodes: seq<Inode>, table: seq<Table>, table': seq<Table>)
    requires IndirectInRange(inodes, table) && IndirectInRange(inodes, table')
  {
    forall i, k {:trigger Addr(inodes[i], table, k)} {:trigger Addr(inodes[i], table', k)} ::
      0 <= i < |inodes| && 0 <= k < SLOTS ==> Addr(inodes[i], table', k) == Addr(inodes[i], table, k)
  }

  /** Zeroing a block no slot names leaves every address as it was. */
  lemma ZeroKeepsAddrs(g: Layout, used: seq<bool>, inodes: seq<Inode>, table: seq<Table>, owner: map<nat, Slot>, b: nat,
                       table': seq<Table>)
    requires Exact(g, used, inodes, table, owner) && b != 0 && b < g.size && b !in owner
    requires table' == table[b := NoEntries()]
    ensures IndirectInRange(inodes, table') && SameAddrs(inodes, table, table')
    ensures Exact(g, used, inodes, table', owner)
  {
    forall i, k | 0 <= i < |inodes| && 0 <= k < SLOTS ensures Addr(inodes[i], table', k) == Addr(inodes[i], table, k) {
      assert Addr(inodes[i], table, NDIRECT) != b;
    }
    SameAddrsKeepExact(g, used, inodes, table, owner, table');
  }

  lemma SameAddrsKeepExact(g: Layout, used: seq<bool>, inodes: seq<Inode>, table: seq<Table>, owner: map<nat, Slot>,
                           table': seq<Table>)
    requires Exact(g, used, inodes, table, owner) && |table'| == |table|
    requires IndirectInRange(inodes, table') && SameAddrs(inodes, table, table')
    ensures Exact(g, used, inodes, table', owner)
  {
  }

  /** The inodes with slot k of inode i set; k is a direct slot or the indirect block's. */
  function WithAddr(inodes: seq<Inode>, i: nat, k: nat, b: nat): (r: seq<Inode>)
    requires i < |inodes| && k <= NDIRECT
  {
    inodes[i := inodes[i].(addrs := inodes[i].addrs[k := b])]
  }

  /** Setting an empty direct slot, or the indirect block's slot to a zeroed block, touches no other
      address. */
  lemma WithAddrSameBut(inodes: seq<Inode>, table: seq<Table>, i: nat, k: nat, b: nat)
    requires IndirectInRange(inodes, table) && i < |inodes| && k <= NDIRECT && b < |table|
    requires k == NDIRECT ==> inodes[i].addrs[NDIRECT] == 0 && table[b] == NoEntries()
    ensures IndirectInRange(WithAddr(inodes, i, k, b), table)
    ensures SameBut(inodes, table, WithAddr(inodes, i, k, b), table, i, k)
    ensures Addr(WithAddr(inodes, i, k, b)[i], table, k) == b
  {
  }

  /** Setting an entry of inode i's indirect block touches no other address, since no other inode
      shares that block. */
  lemma WithEntrySameBut(g: Layout, used: seq<bool>, inodes: seq<Inode>, table: seq<Table>, owner: map<nat, Slot>,
                         i: nat, k: nat, b: nat)
    requires Exact(g, used, inodes, table, owner) && i < |inodes| && NDIRECT < k < SLOTS
    requires inodes[i].addrs[NDIRECT] != 0
    ensures var table' := WithEntry(inodes, table, i, k, b);
            && IndirectInRange(inodes, table')
            && SameBut(inodes, table, inodes, table', i, k)
            && Addr(inodes[i], table', k) == b
  {
    var table', ind := WithEntry(inodes, table, i, k, b), inodes[i].addrs[NDIRECT];
    forall i', k' | 0 <= i' < |inodes| && 0 <= k' < SLOTS && !(i' == i && k' == k)
      ensures Addr(inodes[i'], table', k') == Addr(inodes[i'], table, k')
    {
      assert Addr(inodes[i], table, NDIRECT) == ind;
      assert Addr(inodes[i'], table, NDIRECT) == inodes[i'].addrs[NDIRECT];
    }
  }

  /** The tables with slot k of inode i set; k is an entry of its indirect block. */
  function WithEntry(inodes: seq<Inode>, table: seq<Table>, i: nat, k: nat, b: nat): (r: seq<Table>)
    requires i < |inodes| && NDIRECT < k < SLOTS && inodes[i].addrs[NDIRECT] < |table|
    ensures |r| == |table|
  {
    var ind := inodes[i].addrs[NDIRECT];
    table[ind := table[ind][k - NDIRECT - 1 := b]]
  }

  /** Inode i may have gained blocks for slot k and for its indirect block; nothing else about who
      owns what has changed. */
  ghost predicate GrownMap(i: nat, k: nat, inodes: seq<Inode>, owner: map<nat, Slot>, inodes': seq<Inode>,
                           owner': map<nat, Slot>) {
    && |inodes'| == |inodes|
    && (forall i' :: 0 <= i' < |inodes| ==>
         inodes'[i'].size == inodes[i'].size && (i' != i ==> inodes'[i'] == inodes[i']))
    && (forall b :: b in owner ==> b in owner' && owner'[b] == owner[b])
    && (forall b :: b in owner' && b !in owner ==> owner'[b] == Slot(i, k) || owner'[b] == Slot(i, NDIRECT))
  }

  /** Blocks gained are zeroed, and every other block has the bytes it had. */
  ghost predicate Grown(i: nat, k: nat, inodes: seq<Inode>, data: seq<Block>, owner: map<nat, Slot>,
                        inodes': seq<Inode>, data': seq<Block>, owner': map<nat, Slot>)
  {
    && GrownMap(i, k, inodes, owner, inodes', owner')
    && |data'| == |data|
    && (forall b :: b in owner && b < |data| ==> data'[b] == data[b])
    && (forall b :: b in owner' && b !in owner ==> b < |data| && data'[b] == Zeroes())
  }

  lemma NoIndirectNoEntry(x: Inode, table: seq<Table>, k: nat)
    requires NDIRECT < k < SLOTS && x.addrs[NDIRECT] < |table|
    ensures x.addrs[NDIRECT] == 0 ==> Addr(x, table, k) == 0
  {
  }

  lemma GrownTwice(i: nat, k: nat, inodes: seq<Inode>, data: seq<Block>, owner: map<nat, Slot>,
                   inodes1: seq<Inode>, data1: seq<Block>, owner1: map<nat, Slot>,
                   inodes2: seq<Inode>, data2: seq<Block>, owner2: map<nat, Slot>)
    requires Grown(i, NDIRECT, inodes, data, owner, inodes1, data1, owner1)
    requires Grown(i, k, inodes1, data1, owner1, inodes2, data2, owner2)
    ensures Grown(i, k, inodes, data, owner, inodes2, data2, owner2)
  {
  }

  /** What allocating block b logs: its bitmap block, and itself for being zeroed. */
  ghost function NewlyLogged(g: Layout, b: nat): set<nat> {
    {BBlock(g, b), b}
  }

  /** What writing a block of a file logs at most: the block, its bitmap block if it is new, and then
      perhaps the indirect block and its bitmap block. */
  ghost predicate PassLogs(g: Layout, addr: nat, ind: nat, owner: map<nat, Slot>, logged: set<nat>, logged': set<nat>) {
    forall x :: x in logged' ==> x in logged || x in DataLogged(g, addr, owner) || IsIndirect(g, ind, x)
  }

  ghost function DataLogged(g: Layout, addr: nat, owner: map<nat, Slot>): (s: set<nat>)
    ensures |s| <= PassCost(addr, owner)
  {
    if addr == 0 then {} else if addr in owner then {addr} else {BBlock(g, addr), addr}
  }

  ghost function PassCost(addr: nat, owner: map<nat, Slot>): (c: nat) {
    if addr == 0 then 0 else if addr in owner then 1 else 2
  }

  ghost predicate IsIndirect(g: Layout, ind: nat, x: nat) {
    ind != 0 && (x == ind || x == BBlock(g, ind))
  }

  /** At most c blocks were added, besides the indirect block and the bitmap block it came from. */
  ghost predicate LogGrew(g: Layout, ind: nat, logged: set<nat>, logged': set<nat>, c: nat) {
    exists d: set<nat> :: |d| <= c && LogWithin(g, ind, logged, d, logged')
  }

  ghost predicate LogWithin(g: Layout, ind: nat, logged: set<nat>, d: set<nat>, logged': set<nat>) {
    forall x :: x in logged' ==> x in logged || x in d || IsIndirect(g, ind, x)
  }

  lemma PassLogsTwice(g: Layout, addr: nat, ind: nat, owner: map<nat, Slot>, owner1: map<nat, Slot>,
                      logged: set<nat>, logged1: set<nat>, logged2: set<nat>)
    requires forall b :: b in owner ==> b in owner1
    requires PassLogs(g, 0, ind, owner, logged, logged1) && PassLogs(g, addr, ind, owner1, logged1, logged2)
    ensures PassLogs(g, addr, ind, owner, logged, logged2)
  {
  }

  // ---------------------------------------------------------------- files as byte sequences

  /** Byte j of file i; where it has no block, zero. */
  ghost function ByteAt(inodes: seq<Inode>, table: seq<Table>, data: seq<Block>, i: nat, j: nat): (x: Byte)
    requires IndirectInRange(inodes, table) && i < |inodes| && j / BSIZE < MAXFILE
  {
    var a := Addr(inodes[i], table, SlotOf(j / BSIZE));
    if 0 < a < |data| then data[a][j % BSIZE] else 0
  }

  /** How many blocks a file of this size spans. */
  function BlockCount(size: nat): (n: nat)
    ensures forall j :: 0 <= j < size ==> j / BSIZE < n
    ensures size <= MAXFILE * BSIZE ==> n <= MAXFILE
  {
    (size + BSIZE - 1) / BSIZE
  }

  /** Files are no longer than MAXFILE blocks, and have every block below their size. */
  ghost predicate NoHoles(inodes: seq<Inode>, table: seq<Table>)
    requires IndirectInRange(inodes, table)
  {
    && (forall i :: 0 <= i < |inodes| ==> inodes[i].size <= MAXFILE * BSIZE)
    && (forall i, bn {:trigger Addr(inodes[i], table, SlotOf(bn))} ::
          0 <= i < |inodes| && 0 <= bn < BlockCount(inodes[i].size) ==> Addr(inodes[i], table, SlotOf(bn)) != 0)
  }

  /** The contents of file i. */
  ghost function Content(inodes: seq<Inode>, table: seq<Table>, data: seq<Block>, i: nat): (c: seq<Byte>)
    requires IndirectInRange(inodes, table) && i < |inodes| && inodes[i].size <= MAXFILE * BSIZE
    ensures |c| == inodes[i].size
    ensures forall j :: 0 <= j < |c| ==> c[j] == ByteAt(inodes, table, data, i, j)
  {
    seq(inodes[i].size, j requires 0 <= j < inodes[i].size => ByteAt(inodes, table, data, i, j))
  }

  /** Contents c with s written at offset off, which may extend it. */
  function Spliced(c: seq<Byte>, off: nat, s: seq<Byte>): (r: seq<Byte>)
    requires off <= |c|
  {
    c[..off] + s + if off + |s| <= |c| then c[off + |s|..] else []
  }

  /** Gaining zeroed blocks changes no byte of any file. */
  lemma GrownKeepsByte(g: Layout, i: nat, k: nat,
                       used: seq<bool>, inodes: seq<Inode>, table: seq<Table>, data: seq<Block>, owner: map<nat, Slot>,
                       used': seq<bool>, inodes': seq<Inode>, table': seq<Table>, data': seq<Block>,
                       owner': map<nat, Slot>,
                       f: nat, j: nat)
    requires Exact(g, used, inodes, table, owner) && Exact(g, used', inodes', table', owner') && |data| == g.size
    requires Grown(i, k, inodes, data, owner, inodes', data', owner')
    requires f < |inodes| && j / BSIZE < MAXFILE
    ensures ByteAt(inodes', table', data', f, j) == ByteAt(inodes, table, data, f, j)
  {
    var s := SlotOf(j / BSIZE);
    var a, a' := Addr(inodes[f], table, s), Addr(inodes'[f], table', s);
    if a != 0 {
      assert owner'[a] == Slot(f, s);
    }
  }

  /** Patching the block of file i at offset off changes exactly those bytes of that file. */
  lemma PatchByte(g: Layout, used: seq<bool>, inodes: seq<Inode>, table: seq<Table>, data: seq<Block>,
                  owner: map<nat, Slot>,
                  i: nat, off: nat, s: seq<Byte>, data': seq<Block>, f: nat, j: nat)
    requires Exact(g, used, inodes, table, owner) && |data| == g.size && i < |inodes| && f < |inodes|
    requires off / BSIZE < MAXFILE && off % BSIZE + |s| <= BSIZE && j / BSIZE < MAXFILE
    requires var a := Addr(inodes[i], table, SlotOf(off / BSIZE));
             a != 0 && a < g.size && data' == data[a := Patched(data[a], off % BSIZE, s)]
    ensures ByteAt(inodes, table, data', f, j) ==
      if f == i && off <= j < off + |s| then s[j - off] else ByteAt(inodes, table, data, f, j)
  {
    var a := Addr(inodes[i], table, SlotOf(off / BSIZE));
    var a' := Addr(inodes[f], table, SlotOf(j / BSIZE));
    assert owner[a] == Slot(i, SlotOf(off / BSIZE));
    if a' == a {
      assert owner[a'] == Slot(f, SlotOf(j / BSIZE));
      assert f == i && j / BSIZE == off / BSIZE;
    }
  }

  /** How many of n bytes at offset cur fit in the block that holds cur. */
  function Fits(cur: nat, n: nat): (m: nat)
    ensures m <= n && (n > 0 ==> m > 0) && cur % BSIZE + m <= BSIZE
    ensures m < n ==> (cur + m) % BSIZE == 0
  {
    if n < BSIZE - cur % BSIZE then n else BSIZE - cur % BSIZE
  }

  /** Between the two states, exactly the bytes s of file i at off were written. */
  ghost predicate Written(inodes: seq<Inode>, table: seq<Table>, data: seq<Block>,
                          inodes': seq<Inode>, table': seq<Table>, data': seq<Block>, i: nat, off: nat, s: seq<Byte>)
    requires IndirectInRange(inodes, table) && IndirectInRange(inodes', table') && |inodes'| == |inodes|
  {
    forall f, j {:trigger ByteAt(inodes', table', data', f, j)} {:trigger ByteAt(inodes, table, data, f, j)} ::
      0 <= f < |inodes| && 0 <= j && j / BSIZE < MAXFILE ==>
        ByteAt(inodes', table', data', f, j) ==
          if f == i && off <= j < off + |s| then s[j - off] else ByteAt(inodes, table, data, f, j)
  }

  lemma WrittenTwice(inodes: seq<Inode>, table: seq<Table>, data: seq<Block>,
                     inodes1: seq<Inode>, table1: seq<Table>, data1: seq<Block>,
                     inodes2: seq<Inode>, table2: seq<Table>, data2: seq<Block>,
                     i: nat, off: nat, a: seq<Byte>, cur: nat, b: seq<Byte>, ab: seq<Byte>)
    requires IndirectInRange(inodes, table) && IndirectInRange(inodes1, table1) && IndirectInRange(inodes2, table2)
    requires |inodes| == |inodes1| == |inodes2| && cur == off + |a| && ab == a + b
    requires Written(inodes, table, data, inodes1, table1, data1, i, off, a)
    requires Written(inodes1, table1, data1, inodes2, table2, data2, i, cur, b)
    ensures Written(inodes, table, data, inodes2, table2, data2, i, off, ab)
  {
  }

  /** The first n blocks are there. */
  ghost predicate Filled(ino: Inode, table: seq<Table>, n: nat)
    requires ino.addrs[NDIRECT] < |table|
  {
    n <= MAXFILE && forall bn :: 0 <= bn < n ==> Addr(ino, table, SlotOf(bn)) != 0
  }

  /** Every address is still there, every size is the same, and no inode but i has changed. */
  ghost predicate KeepsAddrs(i: nat, inodes: seq<Inode>, table: seq<Table>, inodes': seq<Inode>, table': seq<Table>)
    requires IndirectInRange(inodes, table) && IndirectInRange(inodes', table')
  {
    && |inodes'| == |inodes|
    && (forall f :: 0 <= f < |inodes| ==> inodes'[f].size == inodes[f].size && (f != i ==> inodes'[f] == inodes[f]))
    && (forall f, k {:trigger Addr(inodes[f], table, k)} {:trigger Addr(inodes'[f], table', k)} ::
          0 <= f < |inodes| && 0 <= k < SLOTS && Addr(inodes[f], table, k) != 0 ==>
            Addr(inodes'[f], table', k) == Addr(inodes[f], table, k))
  }

  /** Growth moves no block. */
  lemma GrownKeepsAddrs(g: Layout, i: nat, k: nat,
                        used: seq<bool>, inodes: seq<Inode>, table: seq<Table>, owner: map<nat, Slot>,
                        used': seq<bool>, inodes': seq<Inode>, table': seq<Table>, owner': map<nat, Slot>)
    requires Exact(g, used, inodes, table, owner) && Exact(g, used', inodes', table', owner')
    requires GrownMap(i, k, inodes, owner, inodes', owner')
    ensures KeepsAddrs(i, inodes, table, inodes', table')
  {
    forall f, k | 0 <= f < |inodes| && 0 <= k < SLOTS && Addr(inodes[f], table, k) != 0
      ensures Addr(inodes'[f], table', k) == Addr(inodes[f], table, k)
    {
      assert owner'[Addr(inodes[f], table, k)] == Slot(f, k);
    }
  }

  lemma KeepsAddrsTwice(i: nat, inodes: seq<Inode>, table: seq<Table>, inodes1: seq<Inode>, table1: seq<Table>,
                        inodes2: seq<Inode>, table2: seq<Table>)
    requires IndirectInRange(inodes, table) && IndirectInRange(inodes1, table1) && IndirectInRange(inodes2, table2)
    requires KeepsAddrs(i, inodes, table, inodes1, table1) && KeepsAddrs(i, inodes1, table1, inodes2, table2)
    ensures KeepsAddrs(i, inodes, table, inodes2, table2)
  {
  }

  /** How many blocks the n bytes at off lie in. */
  function Touched(off: nat, n: nat): (c: nat) {
    if n == 0 then 0 else (off + n - 1) / BSIZE - off / BSIZE + 1
  }

  /** How many blocks writing n bytes at off may log: the data blocks, a bitmap block for each of
      them that may be new, the indirect block and its bitmap block, and the inode's block. The first
      data block is not new if off is inside it. */
  function Budget(off: nat, n: nat): (c: nat) {
    DataBudget(off, n) + 3
  }

  function DataBudget(off: nat, n: nat): (c: nat) {
    if n == 0 then 0 else 2 * Touched(off, n) - if off % BSIZE != 0 then 1 else 0
  }

  lemma TouchedStep(off: nat, t: nat, n: nat)
    requires t < n && (t == 0 || (off + t) % BSIZE == 0)
    ensures var m := Fits(off + t, n - t);
            && Touched(off, t + m) == Touched(off, t) + 1
            && Touched(off, t) <= Touched(off, t + m) <= Touched(off, n)
            && DataBudget(off, t + m) == DataBudget(off, t) + (if t == 0 && off % BSIZE != 0 then 1 else 2)
            && BlockCount(off + t + m) == (off + t) / BSIZE + 1
            && (t == 0 || BlockCount(off + t) == (off + t) / BSIZE)
  {
  }

  lemma PassLogGrows(g: Layout, addr: nat, ind: nat, ind': nat, owner: map<nat, Slot>, base: set<nat>,
                     logged: set<nat>, logged': set<nat>, c: nat)
    requires LogGrew(g, ind, base, logged, c) && (ind != 0 ==> ind' == ind)
    requires PassLogs(g, addr, ind', owner, logged, logged')
    ensures LogGrew(g, ind', base, logged', c + PassCost(addr, owner))
  {
    var d: set<nat> :| |d| <= c && LogWithin(g, ind, base, d, logged);
    var e := d + DataLogged(g, addr, owner);
    UnionSize(d, DataLogged(g, addr, owner));
    assert LogWithin(g, ind', base, e, logged');
  }

  lemma LogGrewBy(g: Layout, ind: nat, logged: set<nat>, logged': set<nat>, c: nat)
    requires LogGrew(g, ind, logged, logged', c)
    ensures |logged'| <= |logged| + c + 2
  {
    var d: set<nat> :| |d| <= c && LogWithin(g, ind, logged, d, logged');
    UnionSize(logged, d);
    UnionSize(logged + d, {ind, BBlock(g, ind)});
    SubsetSize(logged', logged + d + {ind, BBlock(g, ind)});
  }

  lemma UnionSize(a: set<nat>, b: set<nat>)
    ensures |a + b| <= |a| + |b|
  {
    assert a + b == a + (b - a) && a !! (b - a);
  }

  lemma SubsetSize(a: set<nat>, b: set<nat>)
    requires a <= b
    ensures |a| <= |b|
  {
    assert b == a + (b - a) && a !! (b - a);
  }

  datatype Snapshot = Snapshot(used: seq<bool>, inodes: seq<Inode>, table: seq<Table>, data: seq<Block>,
                               owner: map<nat, Slot>)

  ghost predicate Ok(g: Layout, s: Snapshot) {
    ValidLayout(g) && |s.data| == g.size && Exact(g, s.used, s.inodes, s.table, s.owner)
  }

  /** Free block addr, zeroed, goes to an empty slot of inode i that is in the inode itself. */
  lemma AddrGrown(g: Layout, s: Snapshot, i: nat, k: nat, addr: nat, s': Snapshot)
    requires Ok(g, s) && i < |s.inodes| && k <= NDIRECT && s.inodes[i].addrs[k] == 0 && 0 < addr < g.size
    requires !s.used[addr]
    requires s' == Snapshot(s.used[addr := true], WithAddr(s.inodes, i, k, addr), s.table[addr := NoEntries()],
                            s.data[addr := Zeroes()], s.owner[addr := Slot(i, k)])
    ensures Ok(g, s') && addr !in s.owner && Addr(s'.inodes[i], s'.table, k) == addr
    ensures Grown(i, k, s.inodes, s.data, s.owner, s'.inodes, s'.data, s'.owner)
  {
    assert addr >= g.dataStart;
    ZeroKeepsAddrs(g, s.used, s.inodes, s.table, s.owner, addr, s'.table);
    WithAddrSameBut(s.inodes, s'.table, i, k, addr);
    GainBlock(g, s.used, s.inodes, s'.table, s.owner, s'.inodes, s'.table, i, k, addr);
  }

  /** Free block addr, zeroed as table1 has it, goes to an empty entry of inode i's indirect block. */
  lemma EntryGrown(g: Layout, s: Snapshot, i: nat, k: nat, addr: nat, table1: seq<Table>, s': Snapshot)
    requires Ok(g, s) && i < |s.inodes| && NDIRECT < k < SLOTS && s.inodes[i].addrs[NDIRECT] != 0
    requires Addr(s.inodes[i], s.table, k) == 0 && 0 < addr < g.size && !s.used[addr]
    requires table1 == s.table[addr := NoEntries()]
    requires s' == Snapshot(s.used[addr := true], s.inodes, WithEntry(s.inodes, table1, i, k, addr),
                            s.data[addr := Zeroes()], s.owner[addr := Slot(i, k)])
    ensures Ok(g, s') && addr !in s.owner && Addr(s'.inodes[i], s'.table, k) == addr
    ensures Grown(i, k, s.inodes, s.data, s.owner, s'.inodes, s'.data, s'.owner)
  {
    assert addr >= g.dataStart;
    ZeroKeepsAddrs(g, s.used, s.inodes, s.table, s.owner, addr, table1);
    WithEntrySameBut(g, s.used, s.inodes, table1, s.owner, i, k, addr);
    GainBlock(g, s.used, s.inodes, table1, s.owner, s.inodes, s'.table, i, k, addr);
  }

  /** No block of any file has moved. */
  ghost predicate KeepsSlots(s: Snapshot, s': Snapshot)
    requires IndirectInRange(s.inodes, s.table) && IndirectInRange(s'.inodes, s'.table) && |s.inodes| == |s'.inodes|
  {
    forall f, k {:trigger Addr(s.inodes[f], s.table, k)} {:trigger Addr(s'.inodes[f], s'.table, k)} ::
      0 <= f < |s.inodes| && 0 <= k < SLOTS && Addr(s.inodes[f], s.table, k) != 0 ==>
        Addr(s'.inodes[f], s'.table, k) == Addr(s.inodes[f], s.table, k)
  }

  /** Where block b, or its bit in the bitmap, differs between s and s', the block that changed is in logged. */
  ghost predicate RecordedAt(g: Layout, s: Snapshot, s': Snapshot, logged: set<nat>, b: nat) {
    && b < |s.used| && b < |s.table| && b < |s.data| && b < |s'.used| && b < |s'.table| && b < |s'.data|
    && (s'.used[b] != s.used[b] ==> BBlock(g, b) in logged)
    && ((s'.used[b] && !s.used[b]) || s'.table[b] != s.table[b] || s'.data[b] != s.data[b] ==> b in logged)
  }

  /** Every block that changed was logged: what crash recovery relies on. */
  ghost predicate Recorded(g: Layout, s: Snapshot, s': Snapshot, logged: set<nat>) {
    forall b: nat :: b < g.size ==> RecordedAt(g, s, s', logged, b)
  }

  ghost predicate Sized(g: Layout, s: Snapshot) {
    |s.used| == |s.table| == |s.data| == g.size
  }

  lemma RecordedNothing(g: Layout, s: Snapshot, logged: set<nat>)
    requires Sized(g, s)
    ensures Recorded(g, s, s, logged)
  {
  }

  lemma RecordedTwice(g: Layout, s: Snapshot, s1: Snapshot, s2: Snapshot, logged1: set<nat>, logged2: set<nat>)
    requires Recorded(g, s, s1, logged1) && Recorded(g, s1, s2, logged2) && logged1 <= logged2
    ensures Recorded(g, s, s2, logged2)
  {
    forall b: nat | b < g.size
      ensures RecordedAt(g, s, s2, logged2, b)
    {
      assert RecordedAt(g, s, s1, logged1, b) && RecordedAt(g, s1, s2, logged2, b);
    }
  }

  lemma RecordedNoMore(g: Layout, s: Snapshot, s1: Snapshot, s2: Snapshot, logged1: set<nat>, logged2: set<nat>)
    requires Recorded(g, s, s1, logged1) && s2.used == s1.used && s2.table == s1.table && s2.data == s1.data
    requires logged1 <= logged2
    ensures Recorded(g, s, s2, logged2)
  {
    forall b: nat | b < g.size
      ensures RecordedAt(g, s, s2, logged2, b)
    {
      assert RecordedAt(g, s, s1, logged1, b);
    }
  }

  /** One block was taken from the bitmap, and perhaps an entry written elsewhere. */
  lemma RecordedAlloc(g: Layout, s: Snapshot, s': Snapshot, r: nat, ind: nat, logged: set<nat>)
    requires Sized(g, s) && Sized(g, s') && r < g.size && s'.used == s.used[r := true]
    requires BBlock(g, r) in logged && r in logged && ind in logged
    requires forall b :: 0 <= b < g.size && b != r && b != ind ==> s'.table[b] == s.table[b]
    requires forall b :: 0 <= b < g.size && b != r ==> s'.data[b] == s.data[b]
    ensures Recorded(g, s, s', logged)
  {
  }

  /** The bytes of one block were stored. */
  lemma RecordedStore(g: Layout, s: Snapshot, s': Snapshot, a: nat, logged: set<nat>)
    requires Sized(g, s) && Sized(g, s') && s'.used == s.used && s'.table == s.table && a in logged
    requires forall b :: 0 <= b < g.size && b != a ==> s'.data[b] == s.data[b]
    ensures Recorded(g, s, s', logged)
  {
  }

  /** One block went back to the bitmap. */
  lemma RecordedFree(g: Layout, s: Snapshot, s': Snapshot, b: nat, logged: set<nat>)
    requires Sized(g, s) && b < g.size && s'.used == s.used[b := false] && s'.table == s.table && s'.data == s.data
    requires BBlock(g, b) in logged
    ensures Recorded(g, s, s', logged)
  {
  }

  /** What one pass of writei's loop does from s to s': the bytes b of file i, at cur in its block bn. */
  ghost predicate Pass(g: Layout, i: nat, bn: nat, cur: nat, b: seq<Byte>, s: Snapshot, s': Snapshot, addr: nat)
    requires Ok(g, s) && Ok(g, s') && i < |s.inodes| && bn < MAXFILE
  {
    && GrownMap(i, SlotOf(bn), s.inodes, s.owner, s'.inodes, s'.owner)
    && addr == Addr(s'.inodes[i], s'.table, SlotOf(bn))
    && Written(s.inodes, s.table, s.data, s'.inodes, s'.table, s'.data, i, cur, b)
  }

  /** Growth, and then the bytes b stored in the block of cur, if there is one. */
  lemma ChunkWritten(g: Layout, i: nat, cur: nat, b: seq<Byte>, s: Snapshot, s1: Snapshot, s2: Snapshot, a: nat)
    requires Ok(g, s) && Ok(g, s1) && i < |s.inodes| == |s1.inodes| && cur / BSIZE < MAXFILE
    requires cur % BSIZE + |b| <= BSIZE
    requires Grown(i, SlotOf(cur / BSIZE), s.inodes, s.data, s.owner, s1.inodes, s1.data, s1.owner)
    requires a == Addr(s1.inodes[i], s1.table, SlotOf(cur / BSIZE)) && a < g.size && (a == 0 ==> b == [])
    requires s2 == if a == 0 then s1 else s1.(data := s1.data[a := Patched(s1.data[a], cur % BSIZE, b)])
    ensures Ok(g, s2) && Written(s.inodes, s.table, s.data, s2.inodes, s2.table, s2.data, i, cur, b)
  {
    forall f, j | 0 <= f < |s.inodes| && 0 <= j && j / BSIZE < MAXFILE
      ensures ByteAt(s2.inodes, s2.table, s2.data, f, j) ==
              if f == i && cur <= j < cur + |b| then b[j - cur] else ByteAt(s.inodes, s.table, s.data, f, j)
    {
      GrownKeepsByte(g, i, SlotOf(cur / BSIZE), s.used, s.inodes, s.table, s.data, s.owner,
                     s1.used, s1.inodes, s1.table, s1.data, s1.owner, f, j);
      if a != 0 {
        PatchByte(g, s1.used, s1.inodes, s1.table, s1.data, s1.owner, i, cur, b, s2.data, f, j);
      }
    }
  }

  /** What writei's loop has done from s to s' once the bytes a are stored at off: the first n blocks
      are there. */
  ghost predicate Progress(g: Layout, i: nat, off: nat, a: seq<Byte>, n: nat, s: Snapshot, s': Snapshot) {
    && Ok(g, s) && Ok(g, s') && i < |s.inodes|
    && KeepsAddrs(i, s.inodes, s.table, s'.inodes, s'.table)
    && Filled(s'.inodes[i], s'.table, n)
    && Written(s.inodes, s.table, s.data, s'.inodes, s'.table, s'.data, i, off, a)
  }

  lemma PassKeepsAddrs(g: Layout, i: nat, bn: nat, cur: nat, b: seq<Byte>, s: Snapshot, s1: Snapshot, s2: Snapshot,
                       addr: nat)
    requires Ok(g, s) && Ok(g, s1) && Ok(g, s2) && i < |s.inodes| && bn < MAXFILE
    requires KeepsAddrs(i, s.inodes, s.table, s1.inodes, s1.table)
    requires Pass(g, i, bn, cur, b, s1, s2, addr)
    ensures KeepsAddrs(i, s.inodes, s.table, s2.inodes, s2.table)
    ensures KeepsAddrs(i, s1.inodes, s1.table, s2.inodes, s2.table)
    ensures s1.inodes[i].addrs[NDIRECT] != 0 ==> s2.inodes[i].addrs[NDIRECT] == s1.inodes[i].addrs[NDIRECT]
  {
    GrownKeepsAddrs(g, i, SlotOf(bn), s1.used, s1.inodes, s1.table, s1.owner, s2.used, s2.inodes, s2.table, s2.owner);
    KeepsAddrsTwice(i, s.inodes, s.table, s1.inodes, s1.table, s2.inodes, s2.table);
    assert s1.inodes[i].addrs[NDIRECT] == Addr(s1.inodes[i], s1.table, NDIRECT);
  }

  lemma PassFills(g: Layout, i: nat, bn: nat, cur: nat, b: seq<Byte>, s1: Snapshot, s2: Snapshot, addr: nat, n: nat)
    requires Ok(g, s1) && Ok(g, s2) && i < |s1.inodes| && bn < MAXFILE && bn <= n
    requires Pass(g, i, bn, cur, b, s1, s2, addr) && KeepsAddrs(i, s1.inodes, s1.table, s2.inodes, s2.table)
    requires Filled(s1.inodes[i], s1.table, n)
    ensures Filled(s2.inodes[i], s2.table, if addr == 0 then n else bn + 1)
    ensures bn < n ==> addr in s1.owner
  {
    if bn < n {
      assert Addr(s1.inodes[i], s1.table, SlotOf(bn)) == addr;
    }
  }

  lemma ProgressStep(g: Layout, i: nat, off: nat, a: seq<Byte>, n: nat, s: Snapshot, s1: Snapshot, s2: Snapshot,
                     bn: nat, cur: nat, b: seq<Byte>, addr: nat, ab: seq<Byte>)
    requires Progress(g, i, off, a, n, s, s1) && Ok(g, s2) && bn < MAXFILE && bn <= n
    requires Pass(g, i, bn, cur, b, s1, s2, addr) && cur == off + |a| && ab == a + b
    ensures Progress(g, i, off, ab, if addr == 0 then n else bn + 1, s, s2)
    ensures s1.inodes[i].addrs[NDIRECT] != 0 ==> s2.inodes[i].addrs[NDIRECT] == s1.inodes[i].addrs[NDIRECT]
    ensures bn < n ==> addr in s1.owner
  {
    PassKeepsAddrs(g, i, bn, cur, b, s, s1, s2, addr);
    PassFills(g, i, bn, cur, b, s1, s2, addr, n);
    WrittenTwice(s.inodes, s.table, s.data, s1.inodes, s1.table, s1.data, s2.inodes, s2.table, s2.data,
                 i, off, a, cur, b, ab);
  }

  /** Where writei's loop is after tot bytes of src, which are `done`: the file has its first n blocks,
      and c data and bitmap blocks may have been logged. */
  datatype Place = Place(done: seq<Byte>, n: nat, c: nat)

  ghost function PlaceAt(off: nat, src: seq<Byte>, tot: nat): (p: Place)
    requires tot <= |src|
  {
    Place(src[..tot], BlockCount(off + tot), DataBudget(off, tot))
  }

  ghost function NextPlace(p: Place, bn: nat, b: seq<Byte>): (p': Place) {
    Place(p.done + b, bn + 1, p.c + if bn < p.n then 1 else 2)
  }

  /** writei's loop, since s and with base logged then: the bytes stored, the blocks there, and those logged, which
      are few enough and all that changed. */
  ghost predicate Going(g: Layout, i: nat, off: nat, p: Place, s: Snapshot, s': Snapshot, base: set<nat>,
                        logged: set<nat>) {
    && Progress(g, i, off, p.done, p.n, s, s')
    && LogGrew(g, s'.inodes[i].addrs[NDIRECT], base, logged, p.c)
    && Recorded(g, s, s', logged) && base <= logged
  }

  lemma GoingStart(g: Layout, i: nat, off: nat, src: seq<Byte>, s: Snapshot, logged: set<nat>)
    requires Ok(g, s) && NoHoles(s.inodes, s.table) && i < |s.inodes| && off <= s.inodes[i].size
    ensures Going(g, i, off, PlaceAt(off, src, 0), s, s, logged, logged)
  {
    assert LogWithin(g, s.inodes[i].addrs[NDIRECT], logged, {}, logged);
    RecordedNothing(g, s, logged);
    var n := BlockCount(off);
    assert n <= BlockCount(s.inodes[i].size);
  }

  lemma GoingStep(g: Layout, i: nat, off: nat, p: Place, s: Snapshot, s1: Snapshot, s2: Snapshot, base: set<nat>,
                  logged1: set<nat>,
                  logged2: set<nat>, cur: nat, b: seq<Byte>, addr: nat, p': Place)
    requires Going(g, i, off, p, s, s1, base, logged1) && Ok(g, s2) && |s2.inodes| == |s1.inodes|
    requires cur == off + |p.done| && cur / BSIZE < MAXFILE && cur / BSIZE <= p.n
    requires Pass(g, i, cur / BSIZE, cur, b, s1, s2, addr) && (addr == 0 ==> b == [])
    requires PassLogs(g, addr, s2.inodes[i].addrs[NDIRECT], s1.owner, logged1, logged2)
    requires Recorded(g, s1, s2, logged2) && logged1 <= logged2
    requires p' == if addr == 0 then p else NextPlace(p, cur / BSIZE, b)
    ensures Going(g, i, off, p', s, s2, base, logged2)
  {
    ProgressStep(g, i, off, p.done, p.n, s, s1, s2, cur / BSIZE, cur, b, addr, p.done + b);
    PassLogGrows(g, addr, s1.inodes[i].addrs[NDIRECT], s2.inodes[i].addrs[NDIRECT], s1.owner,
                 base, logged1, logged2, p.c);
    RecordedTwice(g, s, s1, s2, logged1, logged2);
    GoingLog(g, s2.inodes[i].addrs[NDIRECT], base, logged2, p.c + PassCost(addr, s1.owner), p'.c);
    assert addr == 0 ==> p.done + b == p.done;
  }

  lemma GoingLog(g: Layout, ind: nat, base: set<nat>, logged: set<nat>, c: nat, c': nat)
    requires LogGrew(g, ind, base, logged, c) && c <= c'
    ensures LogGrew(g, ind, base, logged, c')
  {
    var d: set<nat> :| |d| <= c && LogWithin(g, ind, base, d, logged);
    assert |d| <= c' && LogWithin(g, ind, base, d, logged);
  }

  /** Between passes, writei's loop is at the start of a block, unless it is at its start or end. */
  ghost predicate Aligned(off: nat, tot: nat, n: nat) {
    tot <= n && (tot == 0 || tot == n || (off + tot) % BSIZE == 0)
  }

  /** The first r of the n bytes from `done` on follow those before. */
  lemma FollowOn(src: seq<Byte>, done: nat, n: nat, r: nat)
    requires done + n <= |src| && r <= n
    ensures src[..done + r] == src[..done] + src[done..done + n][..r]
  {
    assert src[done..done + n][..r] == src[done..done + r];
  }

  lemma PlaceNumbers(off: nat, tot: nat, n: nat, m: nat)
    requires Aligned(off, tot, n) && tot < n && m == Fits(off + tot, n - tot)
    ensures (off + tot) / BSIZE <= BlockCount(off + tot) && m > 0 && Aligned(off, tot + m, n)
    ensures BlockCount(off + (tot + m)) == (off + tot) / BSIZE + 1
    ensures DataBudget(off, tot + m) ==
      DataBudget(off, tot) + if (off + tot) / BSIZE < BlockCount(off + tot) then 1 else 2
  {
    TouchedStep(off, tot, n);
  }

  lemma PlaceStep(off: nat, src: seq<Byte>, tot: nat, rest: seq<Byte>, m: nat)
    requires Aligned(off, tot, |src|) && tot < |src| && rest == src[tot..] && m == Fits(off + tot, |rest|)
    ensures (off + tot) / BSIZE <= BlockCount(off + tot) && m > 0
    ensures Aligned(off, tot + m, |src|)
    ensures PlaceAt(off, src, tot + m) == NextPlace(PlaceAt(off, src, tot), (off + tot) / BSIZE, rest[..m])
  {
    PlaceNumbers(off, tot, |src|, m);
    assert src[tot..|src|] == rest;
    FollowOn(src, tot, |src| - tot, m);
  }

  /** The inodes with the size of inode i set. */
  function WithSize(inodes: seq<Inode>, i: nat, size: nat): (r: seq<Inode>)
    requires i < |inodes|
    ensures |r| == |inodes|
  {
    inodes[i := inodes[i].(size := size)]
  }

  lemma WithSizeKeepsExact(g: Layout, used: seq<bool>, inodes: seq<Inode>, table: seq<Table>, owner: map<nat, Slot>,
                           i: nat, size: nat)
    requires Exact(g, used, inodes, table, owner) && i < |inodes|
    ensures Exact(g, used, WithSize(inodes, i, size), table, owner)
  {
    var inodes' := WithSize(inodes, i, size);
    assert forall f, k :: 0 <= f < |inodes| && 0 <= k < SLOTS ==>
      Addr(inodes'[f], table, k) == Addr(inodes[f], table, k);
  }

  /** Size of a file of this size once bytes up to `end` are written. */
  function Grow(size: nat, end: nat): nat {
    if end > size then end else size
  }

  lemma FinishNoHoles(g: Layout, i: nat, off: nat, a: seq<Byte>, s: Snapshot, s': Snapshot)
    requires Progress(g, i, off, a, BlockCount(off + |a|), s, s') && NoHoles(s.inodes, s.table)
    requires off + |a| <= MAXFILE * BSIZE
    ensures var inodes' := WithSize(s'.inodes, i, Grow(s'.inodes[i].size, off + |a|));
            IndirectInRange(inodes', s'.table) && NoHoles(inodes', s'.table)
  {
    var inodes' := WithSize(s'.inodes, i, Grow(s'.inodes[i].size, off + |a|));
    forall f, bn | 0 <= f < |inodes'| && 0 <= bn < BlockCount(inodes'[f].size)
      ensures Addr(inodes'[f], s'.table, SlotOf(bn)) != 0
    {
      assert Addr(inodes'[f], s'.table, SlotOf(bn)) == Addr(s'.inodes[f], s'.table, SlotOf(bn));
      if bn < BlockCount(s.inodes[f].size) {
        assert Addr(s.inodes[f], s.table, SlotOf(bn)) != 0;
      }
    }
  }

  /** From s to s', the bytes a were spliced into file i at off, and no other file changed. */
  ghost predicate FilesSpliced(s: Snapshot, s': Snapshot, i: nat, off: nat, a: seq<Byte>)
    requires IndirectInRange(s.inodes, s.table) && NoHoles(s.inodes, s.table)
    requires IndirectInRange(s'.inodes, s'.table) && NoHoles(s'.inodes, s'.table)
    requires i < |s.inodes| == |s'.inodes| && off <= s.inodes[i].size
  {
    forall f :: 0 <= f < |s.inodes| ==>
      Content(s'.inodes, s'.table, s'.data, f) ==
        if f == i then Spliced(Content(s.inodes, s.table, s.data, i), off, a) else Content(s.inodes, s.table, s.data, f)
  }

  lemma SplicedIs(c: seq<Byte>, off: nat, a: seq<Byte>, c': seq<Byte>)
    requires off <= |c| && |c'| == Grow(|c|, off + |a|)
    requires forall j :: off <= j < off + |a| ==> c'[j] == a[j - off]
    requires forall j :: 0 <= j < |c| && !(off <= j < off + |a|) ==> c'[j] == c[j]
    ensures c' == Spliced(c, off, a)
  {
  }

  lemma WithSizeByte(inodes: seq<Inode>, table: seq<Table>, data: seq<Block>, i: nat, size: nat, inodes': seq<Inode>,
                     f: nat, j: nat)
    requires IndirectInRange(inodes, table) && i < |inodes| && f < |inodes| && j / BSIZE < MAXFILE
    requires inodes' == WithSize(inodes, i, size) && IndirectInRange(inodes', table)
    ensures ByteAt(inodes', table, data, f, j) == ByteAt(inodes, table, data, f, j)
  {
  }

  lemma FinishContent(i: nat, off: nat, a: seq<Byte>, s: Snapshot, s': Snapshot, inodes': seq<Inode>, f: nat)
    requires IndirectInRange(s.inodes, s.table) && IndirectInRange(s'.inodes, s'.table) && |s'.inodes| == |s.inodes|
    requires Written(s.inodes, s.table, s.data, s'.inodes, s'.table, s'.data, i, off, a)
    requires i < |s.inodes| && f < |s.inodes| && s'.inodes[f].size == s.inodes[f].size
    requires off <= s.inodes[i].size && s.inodes[f].size <= MAXFILE * BSIZE && s.inodes[i].size <= MAXFILE * BSIZE
    requires off + |a| <= MAXFILE * BSIZE
    requires inodes' == WithSize(s'.inodes, i, Grow(s.inodes[i].size, off + |a|)) && IndirectInRange(inodes', s'.table)
    ensures Content(inodes', s'.table, s'.data, f) ==
      if f == i then Spliced(Content(s.inodes, s.table, s.data, i), off, a) else Content(s.inodes, s.table, s.data, f)
  {
    var c, c' := Content(s.inodes, s.table, s.data, f), Content(inodes', s'.table, s'.data, f);
    forall j | 0 <= j < |c'|
      ensures c'[j] == if f == i && off <= j < off + |a| then a[j - off] else ByteAt(s.inodes, s.table, s.data, f, j)
    {
      WithSizeByte(s'.inodes, s'.table, s'.data, i, Grow(s.inodes[i].size, off + |a|), inodes', f, j);
    }
    if f == i {
      SplicedIs(c, off, a, c');
    }
  }

  lemma FinishSlots(i: nat, s: Snapshot, s1: Snapshot, s2: Snapshot)
    requires IndirectInRange(s.inodes, s.table) && IndirectInRange(s1.inodes, s1.table)
    requires IndirectInRange(s2.inodes, s2.table)
    requires i < |s.inodes| && KeepsAddrs(i, s.inodes, s.table, s1.inodes, s1.table)
    requires s2.table == s1.table && |s2.inodes| == |s1.inodes|
    requires forall f :: 0 <= f < |s1.inodes| ==> s2.inodes[f].addrs == s1.inodes[f].addrs
    ensures KeepsSlots(s, s2)
  {
    forall f, k | 0 <= f < |s.inodes| && 0 <= k < SLOTS && Addr(s.inodes[f], s.table, k) != 0
      ensures Addr(s2.inodes[f], s2.table, k) == Addr(s.inodes[f], s.table, k)
    {
      assert Addr(s2.inodes[f], s2.table, k) == Addr(s1.inodes[f], s1.table, k);
    }
  }

  /** writei's loop and the size it sets together splice the bytes into file i. */
  lemma Finish(g: Layout, i: nat, off: nat, a: seq<Byte>, s: Snapshot, s1: Snapshot, s2: Snapshot)
    requires Progress(g, i, off, a, BlockCount(off + |a|), s, s1) && NoHoles(s.inodes, s.table)
    requires off <= s.inodes[i].size && off + |a| <= MAXFILE * BSIZE
    requires s2 == s1.(inodes := WithSize(s1.inodes, i, Grow(s1.inodes[i].size, off + |a|)))
    ensures Ok(g, s2) && |s2.inodes| == |s.inodes| && NoHoles(s2.inodes, s2.table) && FilesSpliced(s, s2, i, off, a)
    ensures forall f :: 0 <= f < |s.inodes| && f != i ==> s2.inodes[f] == s.inodes[f]
    ensures KeepsSlots(s, s2)
  {
    FinishNoHoles(g, i, off, a, s, s1);
    WithSizeKeepsExact(g, s1.used, s1.inodes, s1.table, s1.owner, i, Grow(s1.inodes[i].size, off + |a|));
    FinishSlots(i, s, s1, s2);
    forall f | 0 <= f < |s.inodes|
      ensures Content(s2.inodes, s2.table, s2.data, f) ==
        if f == i then Spliced(Content(s.inodes, s.table, s.data, i), off, a) else Content(s.inodes, s.table, s.data, f)
    {
      FinishContent(i, off, a, s, s1, s2.inodes, f);
    }
  }

  lemma DataBudgetGrows(off: nat, t: nat, n: nat)
    requires t <= n
    ensures DataBudget(off, t) <= DataBudget(off, n)
  {
  }

  /** filewrite's largest pass: it fits in an operation's share of the log at any offset. */
  const MAXPASS: nat := (MAXOPBLOCKS - 1 - 1 - 2) / 2 * BSIZE

  lemma PassFitsShare(off: nat, n: nat)
    requires n <= MAXPASS
    ensures Budget(off, n) <= MAXOPBLOCKS
  {
  }

  /** For a pass one block longer the bound is past the share; LongPass has a disk where the write is too. */
  lemma LongerPassDoesNotFit(off: nat)
    requires off % BSIZE != 0
    ensures Budget(off, MAXPASS + BSIZE) > MAXOPBLOCKS
  {
  }

  lemma SplicedNothing(c: seq<Byte>, off: nat)
    requires off <= |c|
    ensures Spliced(c, off, []) == c
  {
  }

  lemma SplicedTwice(c: seq<Byte>, off: nat, a: seq<Byte>, b: seq<Byte>)
    requires off <= |c|
    ensures off + |a| <= |Spliced(c, off, a)|
    ensures Spliced(Spliced(c, off, a), off + |a|, b) == Spliced(c, off, a + b)
  {
  }

  ghost predicate Sound(s: Snapshot) {
    IndirectInRange(s.inodes, s.table) && NoHoles(s.inodes, s.table)
  }

  lemma FilesSplicedTwice(s: Snapshot, s1: Snapshot, s2: Snapshot, i: nat, off: nat, a: seq<Byte>, b: seq<Byte>)
    requires Sound(s) && Sound(s1) && Sound(s2) && i < |s.inodes| == |s1.inodes| == |s2.inodes|
    requires off <= s.inodes[i].size && off + |a| <= s1.inodes[i].size
    requires FilesSpliced(s, s1, i, off, a) && FilesSpliced(s1, s2, i, off + |a|, b)
    ensures FilesSpliced(s, s2, i, off, a + b)
  {
    SplicedTwice(Content(s.inodes, s.table, s.data, i), off, a, b);
  }

  lemma SplicedSize(s: Snapshot, s': Snapshot, i: nat, off: nat, a: seq<Byte>)
    requires Sound(s) && Sound(s') && i < |s.inodes| == |s'.inodes| && off <= s.inodes[i].size
    requires FilesSpliced(s, s', i, off, a)
    ensures off + |a| <= s'.inodes[i].size
  {
    SplicedTwice(Content(s.inodes, s.table, s.data, i), off, a, []);
  }

  /** Between s and s' the bytes a went to offset off of file i, or nothing at all if off was out of
      range. */
  ghost predicate SoFar(s: Snapshot, s': Snapshot, i: nat, off: nat, a: seq<Byte>) {
    && Sound(s) && Sound(s') && i < |s.inodes| == |s'.inodes|
    && if off > s.inodes[i].size then s' == s && a == []
       else off + |a| <= s'.inodes[i].size && FilesSpliced(s, s', i, off, a)
  }

  lemma SoFarStep(s: Snapshot, s1: Snapshot, s2: Snapshot, i: nat, off: nat, a: seq<Byte>, cur: nat, b: seq<Byte>,
                  ab: seq<Byte>)
    requires Sound(s2) && ab == a + b && |s1.inodes| == |s2.inodes|
    requires SoFar(s, s1, i, off, a) && cur == off + |a| <= s1.inodes[i].size && FilesSpliced(s1, s2, i, cur, b)
    ensures SoFar(s, s2, i, off, ab)
  {
    FilesSplicedTwice(s, s1, s2, i, off, a, b);
    SplicedSize(s1, s2, i, cur, b);
  }

  lemma SoFarStart(s: Snapshot, i: nat, off: nat)
    requires Sound(s) && i < |s.inodes|
    ensures SoFar(s, s, i, off, [])
  {
    if off <= s.inodes[i].size {
      SplicedNothing(Content(s.inodes, s.table, s.data, i), off);
    }
  }

  /** Each transaction logged no more than an operation's share. */
  ghost predicate AllFit(ops: seq<set<nat>>) {
    forall k :: 0 <= k < |ops| ==> |ops[k]| <= MAXOPBLOCKS
  }

  lemma AllFitMore(ops: seq<set<nat>>, op: set<nat>)
    requires AllFit(ops) && |op| <= MAXOPBLOCKS
    ensures AllFit(ops + [op])
  {
  }

  /** Only inode i has lost blocks. */
  ghost predicate OnlyLoses(i: nat, owner: map<nat, Slot>, owner': map<nat, Slot>) {
    && (forall b :: b in owner' ==> b in owner && owner'[b] == owner[b])
    && (forall b :: b in owner && owner[b].inum != i ==> b in owner')
  }

  /** Only inode i differs, and its first k addresses are 0. */
  ghost predicate Shorn(inodes: seq<Inode>, inodes': seq<Inode>, i: nat, k: nat) {
    && i < |inodes| == |inodes'| && k <= NDIRECT
    && (forall f :: 0 <= f < |inodes| && f != i ==> inodes'[f] == inodes[f])
    && (forall j :: 0 <= j < k ==> inodes'[i].addrs[j] == 0)
  }

  lemma ShornNext(inodes: seq<Inode>, inodes1: seq<Inode>, inodes2: seq<Inode>, i: nat, k: nat)
    requires Shorn(inodes, inodes1, i, k) && k < NDIRECT && inodes2 == WithAddr(inodes1, i, k, 0)
    ensures Shorn(inodes, inodes2, i, k + 1)
  {
  }

  /** What holds of the two halves of bmap holds of both together. */
  lemma AboveTwice(g: Layout, i: nat, k: nat, addr: nat, ind: nat, s: Snapshot, s1: Snapshot, s2: Snapshot,
                   logged: set<nat>, logged1: set<nat>, logged2: set<nat>)
    requires Recorded(g, s, s1, logged1) && Recorded(g, s1, s2, logged2) && logged1 <= logged2
    requires Grown(i, NDIRECT, s.inodes, s.data, s.owner, s1.inodes, s1.data, s1.owner)
    requires Grown(i, k, s1.inodes, s1.data, s1.owner, s2.inodes, s2.data, s2.owner)
    requires PassLogs(g, 0, ind, s.owner, logged, logged1) && PassLogs(g, addr, ind, s1.owner, logged1, logged2)
    ensures Recorded(g, s, s2, logged2)
    ensures Grown(i, k, s.inodes, s.data, s.owner, s2.inodes, s2.data, s2.owner)
    ensures PassLogs(g, addr, ind, s.owner, logged, logged2)
  {
    RecordedTwice(g, s, s1, s2, logged1, logged2);
    GrownTwice(i, k, s.inodes, s.data, s.owner, s1.inodes, s1.data, s1.owner, s2.inodes, s2.data, s2.owner);
    PassLogsTwice(g, addr, ind, s.owner, s1.owner, logged, logged1, logged2);
  }

  /** s' is s with the blocks of inode i free, and nothing else. */
  ghost predicate Unblocked(i: nat, s: Snapshot, s': Snapshot) {
    && i < |s.inodes| == |s'.inodes| && s'.table == s.table && s'.data == s.data && OnlyLoses(i, s.owner, s'.owner)
    && (forall f :: 0 <= f < |s.inodes| && f != i ==> s'.inodes[f] == s.inodes[f])
    && (forall k :: 0 <= k <= NDIRECT ==> s'.inodes[i].addrs[k] == 0)
  }

  /** Exactly the blocks of inode i were freed. */
  lemma FreedExactly(g: Layout, i: nat, s: Snapshot, s': Snapshot, b: nat)
    requires Ok(g, s) && Ok(g, s') && Unblocked(i, s, s') && g.dataStart <= b < g.size
    ensures s'.used[b] <==> s.used[b] && s.owner[b].inum != i
  {
    if b in s'.owner {
      var o := s'.owner[b];
      assert Addr(s'.inodes[o.inum], s'.table, o.k) == b;
    }
  }

  lemma EmptiedFile(g: Layout, i: nat, s: Snapshot, s1: Snapshot, s': Snapshot, f: nat)
    requires Ok(g, s) && Ok(g, s1) && Unblocked(i, s, s1) && NoHoles(s.inodes, s.table) && f < |s.inodes|
    requires s' == s1.(inodes := WithSize(s1.inodes, i, 0)) && Ok(g, s') && NoHoles(s'.inodes, s'.table)
    ensures Content(s'.inodes, s'.table, s'.data, f) == if f == i then [] else Content(s.inodes, s.table, s.data, f)
  {
  }

  lemma EmptiedOk(g: Layout, i: nat, s: Snapshot, s1: Snapshot, s': Snapshot)
    requires Ok(g, s) && Ok(g, s1) && Unblocked(i, s, s1) && NoHoles(s.inodes, s.table)
    requires s' == s1.(inodes := WithSize(s1.inodes, i, 0))
    ensures Ok(g, s') && NoHoles(s'.inodes, s'.table)
  {
    WithSizeKeepsExact(g, s1.used, s1.inodes, s1.table, s1.owner, i, 0);
    forall f, bn | 0 <= f < |s'.inodes| && 0 <= bn < BlockCount(s'.inodes[f].size)
      ensures Addr(s'.inodes[f], s'.table, SlotOf(bn)) != 0
    {
      assert f != i ==> Addr(s.inodes[f], s.table, SlotOf(bn)) != 0;
    }
  }

  /** With its size set to 0, file i is empty and the others are as they were; its blocks are free. */
  lemma Emptied(g: Layout, i: nat, s: Snapshot, s1: Snapshot, s': Snapshot)
    requires Ok(g, s) && Ok(g, s1) && Unblocked(i, s, s1) && NoHoles(s.inodes, s.table)
    requires s' == s1.(inodes := WithSize(s1.inodes, i, 0))
    ensures Ok(g, s') && NoHoles(s'.inodes, s'.table)
    ensures forall f :: 0 <= f < |s.inodes| ==>
      Content(s'.inodes, s'.table, s'.data, f) == if f == i then [] else Content(s.inodes, s.table, s.data, f)
    ensures forall b :: g.dataStart <= b < g.size ==> (s'.used[b] <==> s.used[b] && s.owner[b].inum != i)
  {
    EmptiedOk(g, i, s, s1, s');
    forall f | 0 <= f < |s.inodes|
      ensures Content(s'.inodes, s'.table, s'.data, f) == if f == i then [] else Content(s.inodes, s.table, s.data, f)
    {
      EmptiedFile(g, i, s, s1, s', f);
    }
    forall b | g.dataStart <= b < g.size
      ensures s'.used[b] <==> s.used[b] && s.owner[b].inum != i
    {
      FreedExactly(g, i, s, s1, b);
    }
  }

  /** Table t is the one on disk but for the first j entries of block ind, which are cleared in it. */
  ghost predicate Cleared(table: seq<Table>, t: seq<Table>, ind: nat, j: nat) {
    && |t| == |table| && ind < |table| && j <= NINDIRECT
    && (forall b :: 0 <= b < |table| && b != ind ==> t[b] == table[b])
    && (forall m :: 0 <= m < NINDIRECT ==> t[ind][m] == if m < j then 0 else table[ind][m])
  }

  lemma ClearNext(table: seq<Table>, t: seq<Table>, ind: nat, j: nat)
    requires Cleared(table, t, ind, j) && j < NINDIRECT
    ensures Cleared(table, t[ind := t[ind][j := 0]], ind, j + 1)
  {
  }

  lemma ClearNothing(t: seq<Table>, ind: nat, j: nat)
    requires ind < |t| && j < NINDIRECT && t[ind][j] == 0
    ensures t[ind := t[ind][j := 0]] == t
  {
    assert t[ind][j := 0] == t[ind];
  }

  /** Clearing the slot of an emptied indirect block touches no other address. */
  lemma DropIndirect(g: Layout, used: seq<bool>, inodes: seq<Inode>, table: seq<Table>, t: seq<Table>,
                     owner: map<nat, Slot>, i: nat)
    requires Exact(g, used, inodes, t, owner) && ValidLayout(g) && i < |inodes| && |table| == g.size
    requires var ind := inodes[i].addrs[NDIRECT]; ind != 0 && Cleared(table, t, ind, NINDIRECT)
    ensures var ind, inodes' := inodes[i].addrs[NDIRECT], WithAddr(inodes, i, NDIRECT, 0);
            && ind < g.size && used[ind] && ind in owner && owner[ind].inum == i
            && Exact(g, used[ind := false], inodes', table, owner - {ind})
  {
    var ind, inodes' := inodes[i].addrs[NDIRECT], WithAddr(inodes, i, NDIRECT, 0);
    assert Addr(inodes[i], t, NDIRECT) == ind;
    LoseBlock(g, used, inodes, t, owner, inodes', t, i, NDIRECT, ind);
    forall f, k | 0 <= f < |inodes'| && 0 <= k < SLOTS ensures Addr(inodes'[f], table, k) == Addr(inodes'[f], t, k) {
      assert Addr(inodes'[f], t, NDIRECT) != ind;
    }
    SameAddrsKeepExact(g, used[ind := false], inodes', t, owner - {ind}, table);
  }

  /** Why filewrite may stop short: the offset or the end is out of range, or the disk is full. */
  ghost predicate CutShort(g: Layout, s: Snapshot, s': Snapshot, i: nat, off: nat, n: nat)
    requires i < |s.inodes| && |s'.used| == g.size
  {
    s.inodes[i].size < off || off + n > MAXFILE * BSIZE || forall b :: 0 <= b < g.size ==> s'.used[b]
  }

  class Files {
    const g: Layout
    var used: seq<bool>
    var inodes: seq<Inode>     // in-memory inodes
    var dinodes: seq<Inode>    // inodes on disk
    var table: seq<Table>      // blocks as words
    var data: seq<Block>        // blocks as bytes
    ghost var owner: map<nat, Slot>
    ghost var logged: set<nat> // blocks logged by the present operation

    ghost predicate Valid()
      reads this
    {
      ValidLayout(g) && |data| == g.size && Exact(g, used, inodes, table, owner)
    }

    /** The file system on a disk with these contents, and no operation begun. */
    constructor (g: Layout, used: seq<bool>, inodes: seq<Inode>, table: seq<Table>, data: seq<Block>,
                 ghost owner: map<nat, Slot>)
      requires Ok(g, Snapshot(used, inodes, table, data, owner)) && NoHoles(inodes, table)
      ensures this.g == g && Now() == Snapshot(used, inodes, table, data, owner) && Settled() && logged == {}
    {
      this.g := g;
      this.used, this.inodes, this.dinodes, this.table, this.data := used, inodes, inodes, table, data;
      this.owner, this.logged := owner, {};
    }

    /** balloc: the first free block, marked used and zeroed; 0 when there is none. */
    method Balloc() returns (r: nat)
      requires ValidLayout(g) && |used| == |table| == |data| == g.size && used[0]
      modifies this`used, this`table, this`data, this`logged
      ensures r == 0 <==> forall b :: 0 <= b < g.size ==> old(used)[b]
      ensures r == 0 ==> unchanged(this)
      ensures r != 0 ==>
        && r < g.size && !old(used)[r] && (forall b :: 0 <= b < r ==> old(used)[b])
        && used == old(used)[r := true] && table == old(table)[r := NoEntries()] && data == old(data)[r := Zeroes()]
        && logged == old(logged) + {BBlock(g, r), r}
    {
      var b := 0;
      while b < g.size
        invariant forall a :: 0 <= a < b && a < g.size ==> used[a]
        invariant unchanged(this) && b % BPB == 0
      {
        var bi := 0;
        while bi < BPB && b + bi < g.size
          invariant forall a :: 0 <= a < b + bi && a < g.size ==> used[a]
          invariant bi <= BPB
          invariant unchanged(this)
        {
          if !used[b + bi] {
            used := used[b + bi := true];
            logged := logged + {BBlock(g, b + bi)};
            Bzero(b + bi);
            return b + bi;
          }
          bi := bi + 1;
        }
        b := b + BPB;
      }
      r := 0;
    }

    method Bzero(b: nat)
      requires b < |table| == |data|
      modifies this`table, this`data, this`logged
      ensures table == old(table)[b := NoEntries()] && data == old(data)[b := Zeroes()] && logged == old(logged) + {b}
    {
      table, data := table[b := NoEntries()], data[b := Zeroes()];
      logged := logged + {b};
    }

    /** bfree: false where the C code panics with "freeing free block". */
    method Bfree(b: nat) returns (ok: bool)
      requires b < |used|
      modifies this`used, this`logged
      ensures ok == old(used)[b]
      ensures !ok ==> unchanged(this)
      ensures ok ==> used == old(used)[b := false] && logged == old(logged) + {BBlock(g, b)}
    {
      if !used[b] {
        return false;
      }
      used := used[b := false];
      logged := logged + {BBlock(g, b)};
      ok := true;
    }

    /** A new block for an empty slot of inode i that is stored in the inode itself. */
    method GrowAddr(i: nat, k: nat) returns (addr: nat)
      requires Valid() && i < |inodes| && k <= NDIRECT && inodes[i].addrs[k] == 0
      modifies this`used, this`table, this`data, this`inodes, this`owner, this`logged
      ensures Valid()
      ensures addr == 0 ==> unchanged(this) && forall b :: 0 <= b < g.size ==> used[b]
      ensures Grown(i, k, old(inodes), old(data), old(owner), inodes, data, owner)
      ensures addr != 0 ==>
        && addr < g.size && addr !in old(owner) && owner == old(owner)[addr := Slot(i, k)]
        && inodes == WithAddr(old(inodes), i, k, addr)
        && data == old(data)[addr := Zeroes()] && table[addr] == NoEntries()
        && Addr(inodes[i], table, k) == addr
        && logged == old(logged) + NewlyLogged(g, addr)
      ensures Recorded(g, old(Now()), Now(), logged) && old(logged) <= logged
    {
      ghost var s := Now();
      addr := Balloc();
      if addr == 0 {
        RecordedNothing(g, s, logged);
      } else {
        inodes := WithAddr(inodes, i, k, addr);
        owner := owner[addr := Slot(i, k)];
        AddrGrown(g, s, i, k, addr, Now());
        RecordedAlloc(g, s, Now(), addr, addr, logged);
      }
    }

    /** A new block for an empty entry of inode i's indirect block. */
    method GrowEntry(i: nat, k: nat) returns (addr: nat)
      requires Valid() && i < |inodes| && NDIRECT < k < SLOTS
      requires inodes[i].addrs[NDIRECT] != 0 && Addr(inodes[i], table, k) == 0
      modifies this`used, this`table, this`data, this`owner, this`logged
      ensures Valid()
      ensures addr == 0 ==> unchanged(this) && forall b :: 0 <= b < g.size ==> used[b]
      ensures Grown(i, k, inodes, old(data), old(owner), inodes, data, owner)
      ensures addr != 0 ==>
        && addr < g.size && addr !in old(owner) && owner == old(owner)[addr := Slot(i, k)]
        && data == old(data)[addr := Zeroes()]
        && Addr(inodes[i], table, k) == addr
        && logged == old(logged) + NewlyLogged(g, addr) + {inodes[i].addrs[NDIRECT]}
      ensures Recorded(g, old(Now()), Now(), logged) && old(logged) <= logged
    {
      ghost var s := Now();
      addr := Balloc();
      if addr == 0 {
        RecordedNothing(g, s, logged);
      } else {
        var ind := inodes[i].addrs[NDIRECT];
        table := table[ind := table[ind][k - NDIRECT - 1 := addr]];
        logged := logged + {ind};
        owner := owner[addr := Slot(i, k)];
        EntryGrown(g, s, i, k, addr, s.table[addr := NoEntries()], Now());
        RecordedAlloc(g, s, Now(), addr, ind, logged);
      }
    }

    /** bmap below NDIRECT. */
    method BmapDirect(i: nat, bn: nat) returns (addr: nat)
      requires Valid() && i < |inodes| && bn < NDIRECT
      modifies this`used, this`table, this`data, this`inodes, this`owner, this`logged
      ensures Valid() && |inodes| == |old(inodes)| && addr == Addr(inodes[i], table, bn)
      ensures Grown(i, bn, old(inodes), old(data), old(owner), inodes, data, owner)
      ensures addr == 0 ==> forall b :: 0 <= b < g.size ==> used[b]
      ensures old(inodes[i].addrs[bn]) != 0 ==> unchanged(this)
      ensures PassLogs(g, addr, 0, old(owner), old(logged), logged)
      ensures Recorded(g, old(Now()), Now(), logged) && old(logged) <= logged
    {
      RecordedNothing(g, Now(), logged);
      addr := inodes[i].addrs[bn];
      assert addr == Addr(inodes[i], table, bn);
      if addr == 0 {
        addr := GrowAddr(i, bn);
      }
    }

    /** bmap's first half above NDIRECT: the indirect block, allocated if missing. */
    method BmapIndirect(i: nat) returns (ind: nat)
      requires Valid() && i < |inodes|
      modifies this`used, this`table, this`data, this`inodes, this`owner, this`logged
      ensures Valid() && |inodes| == |old(inodes)| && ind == inodes[i].addrs[NDIRECT]
      ensures Grown(i, NDIRECT, old(inodes), old(data), old(owner), inodes, data, owner)
      ensures ind == 0 ==> forall b :: 0 <= b < g.size ==> used[b]
      ensures old(inodes[i].addrs[NDIRECT]) != 0 ==> unchanged(this)
      ensures old(inodes[i].addrs[NDIRECT]) == 0 && ind != 0 ==> table[ind] == NoEntries()
      ensures PassLogs(g, 0, ind, old(owner), old(logged), logged)
      ensures Recorded(g, old(Now()), Now(), logged) && old(logged) <= logged
    {
      RecordedNothing(g, Now(), logged);
      ind := inodes[i].addrs[NDIRECT];
      assert ind == Addr(inodes[i], table, NDIRECT);
      if ind == 0 {
        ind := GrowAddr(i, NDIRECT);
      }
    }

    /** bmap's second half above NDIRECT: the entry's block, allocated if missing. */
    method BmapEntry(i: nat, k: nat) returns (addr: nat)
      requires Valid() && i < |inodes| && NDIRECT < k < SLOTS && inodes[i].addrs[NDIRECT] != 0
      modifies this`used, this`table, this`data, this`owner, this`logged
      ensures Valid() && addr == Addr(inodes[i], table, k)
      ensures Grown(i, k, inodes, old(data), old(owner), inodes, data, owner)
      ensures addr == 0 ==> forall b :: 0 <= b < g.size ==> used[b]
      ensures old(Addr(inodes[i], table, k)) != 0 ==> unchanged(this)
      ensures PassLogs(g, addr, inodes[i].addrs[NDIRECT], old(owner), old(logged), logged)
      ensures Recorded(g, old(Now()), Now(), logged) && old(logged) <= logged
    {
      RecordedNothing(g, Now(), logged);
      addr := table[inodes[i].addrs[NDIRECT]][k - NDIRECT - 1];
      assert addr == Addr(inodes[i], table, k);
      if addr == 0 {
        addr := GrowEntry(i, k);
      }
    }

    /** bmap from NDIRECT on, for the address in slot k. */
    method BmapAbove(i: nat, k: nat) returns (addr: nat)
      requires Valid() && i < |inodes| && NDIRECT < k < SLOTS
      modifies this`used, this`table, this`data, this`inodes, this`owner, this`logged
      ensures Valid() && |inodes| == |old(inodes)| && addr == Addr(inodes[i], table, k)
      ensures Grown(i, k, old(inodes), old(data), old(owner), inodes, data, owner)
      ensures addr == 0 ==> forall b :: 0 <= b < g.size ==> used[b]
      ensures old(Addr(inodes[i], table, k)) != 0 ==> unchanged(this)
      ensures PassLogs(g, addr, inodes[i].addrs[NDIRECT], old(owner), old(logged), logged)
      ensures Recorded(g, old(Now()), Now(), logged) && old(logged) <= logged
    {
      NoIndirectNoEntry(inodes[i], table, k);
      ghost var s, logged0 := Now(), logged;
      var ind := BmapIndirect(i);
      ghost var s1, logged1 := Now(), logged;
      NoIndirectNoEntry(inodes[i], table, k);
      addr := 0;
      if ind != 0 {
        addr := BmapEntry(i, k);
      } else {
        RecordedNothing(g, s1, logged);
      }
      AboveTwice(g, i, k, addr, ind, s, s1, Now(), logged0, logged1, logged);
    }

    /** bmap: the address of inode i's bn-th block, allocated if missing; 0 when the disk is full. */
    method Bmap(i: nat, bn: nat) returns (addr: nat)
      requires Valid() && i < |inodes| && bn < MAXFILE
      modifies this`used, this`table, this`data, this`inodes, this`owner, this`logged
      ensures Valid() && |inodes| == |old(inodes)| && addr == Addr(inodes[i], table, SlotOf(bn))
      ensures Grown(i, SlotOf(bn), old(inodes), old(data), old(owner), inodes, data, owner)
      ensures addr == 0 ==> forall b :: 0 <= b < g.size ==> used[b]
      ensures old(Addr(inodes[i], table, SlotOf(bn))) != 0 ==> unchanged(this)
      ensures PassLogs(g, addr, inodes[i].addrs[NDIRECT], old(owner), old(logged), logged)
      ensures Recorded(g, old(Now()), Now(), logged) && old(logged) <= logged
    {
      if bn < NDIRECT {
        addr := BmapDirect(i, bn);
      } else {
        addr := BmapAbove(i, SlotOf(bn));
      }
    }

    /** Byte j of file i. */
    ghost function Byte(i: nat, j: nat): (x: Blocks.Byte)
      requires Valid() && i < |inodes| && j / BSIZE < MAXFILE
      reads this
    {
      ByteAt(inodes, table, data, i, j)
    }

    /** Files have no holes, and the inodes on disk are the ones in memory. */
    ghost predicate Settled()
      reads this
    {
      Valid() && NoHoles(inodes, table) && dinodes == inodes
    }

    ghost function File(i: nat): (c: seq<Blocks.Byte>)
      requires Settled() && i < |inodes|
      reads this
    {
      Content(inodes, table, data, i)
    }

    /** One pass of readi's loop: the bytes of file i from cur on that lie in one block, at most
        `want` of them. Below the file's size nothing is allocated, so nothing changes. */
    method ReadChunk(i: nat, cur: nat, want: nat) returns (bytes: seq<Blocks.Byte>)
      requires Settled() && i < |inodes| && cur + want <= inodes[i].size && want > 0
      modifies this`used, this`table, this`data, this`inodes, this`owner, this`logged
      ensures unchanged(this)
      ensures |bytes| == Fits(cur, want) && forall j :: 0 <= j < |bytes| ==> bytes[j] == Byte(i, cur + j)
    {
      assert Addr(inodes[i], table, SlotOf(cur / BSIZE)) != 0;
      var addr := Bmap(i, cur / BSIZE);
      var m := if want < BSIZE - cur % BSIZE then want else BSIZE - cur % BSIZE;
      bytes := data[addr][cur % BSIZE..cur % BSIZE + m];
    }

    /** readi: bytes [off, off + n) of file i, as many as there are; nothing is allocated, logged or
        changed. */
    method Readi(i: nat, off: nat, n: nat) returns (dst: seq<Blocks.Byte>)
      requires Settled() && i < |inodes| && off < WORD_LIMIT && n < WORD_LIMIT
      modifies this`used, this`table, this`data, this`inodes, this`owner, this`logged
      ensures unchanged(this)
      ensures dst == if off > |File(i)| || off + n >= WORD_LIMIT then []
                     else if off + n > |File(i)| then File(i)[off..]
                     else File(i)[off..off + n]
    {
      if off > inodes[i].size || (off + n) % WORD_LIMIT < off {
        return [];
      }
      var n := if off + n > inodes[i].size then inodes[i].size - off else n;
      dst := [];
      var tot := 0;
      while tot < n
        invariant unchanged(this)
        invariant 0 <= tot <= n && |dst| == tot && off + n <= inodes[i].size
        invariant forall j :: 0 <= j < tot ==> dst[j] == Byte(i, off + j)
        decreases n - tot
      {
        var bytes := ReadChunk(i, off + tot, n - tot);
        dst := dst + bytes;
        tot := tot + |bytes|;
      }
    }

    /** The copy in writei's loop: s goes into block a from offset o on. */
    method StoreBytes(a: nat, o: nat, s: seq<Blocks.Byte>)
      requires a < |data| && o + |s| <= BSIZE
      modifies this`data, this`logged
      ensures data == old(data)[a := Patched(old(data)[a], o, s)] && logged == old(logged) + {a}
    {
      data := data[a := Patched(data[a], o, s)];
      logged := logged + {a};
    }

    /** One pass of writei's loop at offset cur: as many of the bytes as fit in that block; none when
        the disk is full. */
    method WriteChunk(i: nat, cur: nat, src: seq<Blocks.Byte>) returns (m: nat, ghost addr: nat)
      requires Ok(g, Now()) && i < |inodes| && cur / BSIZE < MAXFILE && |src| > 0
      modifies this`used, this`table, this`data, this`inodes, this`owner, this`logged
      ensures Ok(g, Now()) && |inodes| == |old(inodes)|
      ensures m == if addr == 0 then 0 else Fits(cur, |src|)
      ensures addr == 0 ==> forall b :: 0 <= b < g.size ==> used[b]
      ensures m <= |src| && Pass(g, i, cur / BSIZE, cur, src[..m], old(Now()), Now(), addr)
      ensures PassLogs(g, addr, inodes[i].addrs[NDIRECT], old(owner), old(logged), logged)
      ensures Recorded(g, old(Now()), Now(), logged) && old(logged) <= logged
    {
      ghost var s0 := Now();
      var a := Bmap(i, cur / BSIZE);
      addr := a;
      m := 0;
      ghost var s1, logged1 := Now(), logged;
      if a != 0 {
        m := if |src| < BSIZE - cur % BSIZE then |src| else BSIZE - cur % BSIZE;
        StoreBytes(a, cur % BSIZE, src[..m]);
        RecordedStore(g, s1, Now(), a, logged);
        RecordedTwice(g, s0, s1, Now(), logged1, logged);
      }
      ChunkWritten(g, i, cur, src[..m], s0, s1, Now(), a);
    }

    ghost function Now(): (s: Snapshot)
      reads this
    {
      Snapshot(used, inodes, table, data, owner)
    }

    method WritePass(i: nat, cur: nat, rest: seq<Blocks.Byte>, ghost off: nat, ghost p: Place, ghost s: Snapshot,
                     ghost base: set<nat>)
      returns (m: nat, ghost addr: nat)
      requires Going(g, i, off, p, s, Now(), base, logged)
      requires cur == off + |p.done| && cur / BSIZE < MAXFILE && cur / BSIZE <= p.n && |rest| > 0
      modifies this`used, this`table, this`data, this`inodes, this`owner, this`logged
      ensures m <= |rest| && m == if addr == 0 then 0 else Fits(cur, |rest|)
      ensures addr == 0 ==> |used| == g.size && forall b :: 0 <= b < g.size ==> used[b]
      ensures Going(g, i, off, if addr == 0 then p else NextPlace(p, cur / BSIZE, rest[..m]), s, Now(), base, logged)
    {
      ghost var s1, logged1 := Now(), logged;
      m, addr := WriteChunk(i, cur, rest);
      ghost var p' := if addr == 0 then p else NextPlace(p, cur / BSIZE, rest[..m]);
      GoingStep(g, i, off, p, s, s1, Now(), base, logged1, logged, cur, rest[..m], addr, p');
    }

    /** One pass, counted in bytes of src; none when the disk is full. */
    method WriteNext(i: nat, off: nat, src: seq<Blocks.Byte>, tot: nat, ghost s: Snapshot, ghost base: set<nat>)
      returns (tot': nat)
      requires Aligned(off, tot, |src|) && tot < |src| && off + |src| <= MAXFILE * BSIZE
      requires Going(g, i, off, PlaceAt(off, src, tot), s, Now(), base, logged)
      modifies this`used, this`table, this`data, this`inodes, this`owner, this`logged
      ensures tot <= tot' <= |src| && Aligned(off, tot', |src|)
      ensures Going(g, i, off, PlaceAt(off, src, tot'), s, Now(), base, logged)
      ensures tot' == tot ==> |used| == g.size && forall b :: 0 <= b < g.size ==> used[b]
    {
      var cur, rest := off + tot, src[tot..];
      PlaceStep(off, src, tot, rest, Fits(cur, |rest|));
      ghost var p := PlaceAt(off, src, tot);
      var m, addr := WritePass(i, cur, rest, off, p, s, base);
      tot' := tot + m;
      assert PlaceAt(off, src, tot') == if addr == 0 then p else NextPlace(p, cur / BSIZE, rest[..m]);
    }

    /** writei's loop: how many of the bytes were stored, all of them unless the disk filled up. */
    method WriteLoop(i: nat, off: nat, src: seq<Blocks.Byte>) returns (tot: nat)
      requires Valid() && NoHoles(inodes, table) && i < |inodes|
      requires off <= inodes[i].size && off + |src| <= MAXFILE * BSIZE
      modifies this`used, this`table, this`data, this`inodes, this`owner, this`logged
      ensures |used| == g.size && tot <= |src| && (tot < |src| ==> forall b :: 0 <= b < g.size ==> used[b])
      ensures Going(g, i, off, PlaceAt(off, src, tot), old(Now()), Now(), old(logged), logged)
    {
      tot := 0;
      ghost var s, base := Now(), logged;
      GoingStart(g, i, off, src, s, base);
      while tot < |src|
        invariant Aligned(off, tot, |src|)
        invariant Going(g, i, off, PlaceAt(off, src, tot), s, Now(), base, logged)
        decreases |src| - tot
      {
        var tot' := WriteNext(i, off, src, tot, s, base);
        if tot' == tot {
          return;
        }
        tot := tot';
      }
    }

    /** iupdate: inode i to its disk block. */
    method Iupdate(i: nat)
      requires i < |inodes| == |dinodes|
      modifies this`dinodes, this`logged
      ensures dinodes == old(dinodes)[i := inodes[i]] && logged == old(logged) + {IBlock(g, i)}
    {
      dinodes := dinodes[i := inodes[i]];
      logged := logged + {IBlock(g, i)};
    }

    /** writei's tail: the size grows to cover what was written, and the inode goes to disk. */
    method WriteEnd(i: nat, off: nat, tot: nat, ghost a: seq<Blocks.Byte>, ghost s: Snapshot)
      requires |a| == tot && off + tot <= MAXFILE * BSIZE && Progress(g, i, off, a, BlockCount(off + tot), s, Now())
      requires NoHoles(s.inodes, s.table) && off <= s.inodes[i].size && dinodes == s.inodes
      modifies this`inodes, this`dinodes, this`logged
      ensures Settled() && |inodes| == |s.inodes| && logged == old(logged) + {IBlock(g, i)}
      ensures FilesSpliced(s, Now(), i, off, a) && KeepsSlots(s, Now())
      ensures forall f :: 0 <= f < |inodes| && f != i ==> dinodes[f] == old(dinodes)[f]
    {
      ghost var s1 := Now();
      if off + tot > inodes[i].size {
        inodes := WithSize(inodes, i, off + tot);
      }
      assert inodes == WithSize(s1.inodes, i, Grow(s1.inodes[i].size, off + tot));
      Finish(g, i, off, a, s, s1, Now());
      Iupdate(i);
    }

    /** writei: -1 where the C code refuses; else how many bytes were spliced into file i at off, all of
        them unless the disk filled up. Every other file is as it was, no block of a file has moved, and every
        block that changed was logged. */
    method Writei(i: nat, off: nat, src: seq<Blocks.Byte>) returns (r: int)
      requires Settled() && i < |inodes| && off < WORD_LIMIT && |src| < WORD_LIMIT
      modifies this`used, this`table, this`data, this`inodes, this`dinodes, this`owner, this`logged
      ensures r == -1 <==> off > |old(File(i))| || off + |src| > MAXFILE * BSIZE
      ensures r == -1 ==> unchanged(this)
      ensures r != -1 ==>
        && Settled() && |inodes| == |old(inodes)| && 0 <= r <= |src|
        && (r < |src| ==> forall b :: 0 <= b < g.size ==> used[b])
        && FilesSpliced(old(Now()), Now(), i, off, src[..r])
        && |logged| <= |old(logged)| + Budget(off, |src|)
      ensures r != -1 ==>
        && KeepsSlots(old(Now()), Now())
        && Recorded(g, old(Now()), Now(), logged) && old(logged) <= logged && IBlock(g, i) in logged
        && forall f :: 0 <= f < |inodes| && f != i ==> dinodes[f] == old(dinodes)[f]
    {
      if off > inodes[i].size || (off + |src|) % WORD_LIMIT < off {
        return -1;
      }
      if off + |src| > MAXFILE * BSIZE {
        return -1;
      }
      ghost var s := Now();
      var tot := WriteLoop(i, off, src);
      ghost var s1, logged1 := Now(), logged;
      LogGrewBy(g, inodes[i].addrs[NDIRECT], old(logged), logged, DataBudget(off, tot));
      DataBudgetGrows(off, tot, |src|);
      UnionSize(logged, {IBlock(g, i)});
      WriteEnd(i, off, tot, src[..tot], s);
      RecordedNoMore(g, s, s1, Now(), logged1, logged);
      r := tot;
    }

    /** One pass of filewrite's loop: a transaction of its own. The first `done` bytes went to file i at
        off since s, and what this pass stores follows them; `stop` where the loop breaks. */
    method FilewritePass(i: nat, cur: nat, src: seq<Blocks.Byte>, done: nat, ghost s: Snapshot, ghost off: nat,
                         ghost ops: seq<set<nat>>)
      returns (stop: bool, cur': nat, done': nat, ghost ops': seq<set<nat>>)
      requires Settled() && i < |inodes| && off < WORD_LIMIT && done < |src| < WORD_LIMIT / 2
      requires cur == off + done && SoFar(s, Now(), i, off, src[..done]) && AllFit(ops)
      modifies this`used, this`table, this`data, this`inodes, this`dinodes, this`owner, this`logged
      ensures Settled() && i < |inodes| && i < |s.inodes|
      ensures ops' == ops + [logged] && AllFit(ops')
      ensures done <= done' <= |src| && cur' == off + done' && SoFar(s, Now(), i, off, src[..done'])
      ensures if stop then done' < |src| && CutShort(g, s, Now(), i, off, |src|) else done < done'
      ensures Recorded(g, old(Now()), Now(), logged)
    {
      ghost var s1 := Now();
      RecordedNothing(g, s1, {});
      var n1 := if |src| - done > MAXPASS then MAXPASS else |src| - done;
      var chunk := src[done..done + n1];
      logged := {};
      var r := Writei(i, cur, chunk);
      PassFitsShare(cur, n1);
      AllFitMore(ops, logged);
      ops' := ops + [logged];
      cur', done', stop := cur, done, r != n1;
      if r > 0 {
        cur', done' := cur + r, done + r;
      }
      if r != -1 {
        FollowOn(src, done, n1, r);
        SoFarStep(s, s1, Now(), i, off, src[..done], cur, chunk[..r], src[..done']);
      }
    }

    /** filewrite on a file: in passes of at most MAXPASS bytes, each one transaction. The bytes up to
        the new offset were spliced in, all of them unless CutShort, and no transaction logged more than
        MAXOPBLOCKS blocks. */
    method Filewrite(i: nat, off: nat, src: seq<Blocks.Byte>) returns (ret: int, off': nat, ghost ops: seq<set<nat>>)
      requires Settled() && i < |inodes| && off < WORD_LIMIT && |src| < WORD_LIMIT / 2
      modifies this`used, this`table, this`data, this`inodes, this`dinodes, this`owner, this`logged
      ensures Settled() && off <= off' <= off + |src|
      ensures ret == if off' == off + |src| then |src| else -1
      ensures off' < off + |src| ==> CutShort(g, old(Now()), Now(), i, off, |src|)
      ensures SoFar(old(Now()), Now(), i, off, src[..off' - off])
      ensures AllFit(ops)
    {
      var done, stop := 0, false;
      ops := [];
      off' := off;
      SoFarStart(Now(), i, off);
      while done < |src| && !stop
        invariant 0 <= done <= |src| && off' == off + done
        invariant Settled() && i < |inodes| && AllFit(ops)
        invariant SoFar(old(Now()), Now(), i, off, src[..done])
        invariant stop ==> done < |src| && CutShort(g, old(Now()), Now(), i, off, |src|)
        decreases |src| - done, !stop
      {
        stop, off', done, ops := FilewritePass(i, off', src, done, old(Now()), off, ops);
      }
      ret := if done == |src| then |src| else -1;
    }

    /** Frees the block in direct slot k of inode i, if any. */
    method FreeAddr(i: nat, k: nat) returns (ok: bool)
      requires Valid() && i < |inodes| && k < NDIRECT
      modifies this`used, this`inodes, this`owner, this`logged
      ensures ok && Valid() && inodes == WithAddr(old(inodes), i, k, 0) && OnlyLoses(i, old(owner), owner)
      ensures Recorded(g, old(Now()), Now(), logged) && old(logged) <= logged
    {
      ghost var s := Now();
      var b := inodes[i].addrs[k];
      if b == 0 {
        RecordedNothing(g, s, logged);
        assert inodes[i].addrs[k := 0] == inodes[i].addrs;
        return true;
      }
      assert b == Addr(inodes[i], table, k);
      WithAddrSameBut(inodes, table, i, k, 0);
      LoseBlock(g, used, inodes, table, owner, WithAddr(inodes, i, k, 0), table, i, k, b);
      ok := Bfree(b);
      inodes := WithAddr(inodes, i, k, 0);
      owner := owner - {b};
      RecordedFree(g, s, Now(), b, logged);
    }

    /** Frees the block in entry j of inode i's indirect block, if any. The entry itself stays on disk;
        t is the table as if it and those before it were cleared. */
    method FreeEntry(i: nat, j: nat, ghost t: seq<Table>) returns (ok: bool, ghost t': seq<Table>)
      requires ValidLayout(g) && Exact(g, used, inodes, t, owner) && |data| == g.size && i < |inodes| && j < NINDIRECT
      requires var ind := inodes[i].addrs[NDIRECT]; ind != 0 && Cleared(table, t, ind, j)
      modifies this`used, this`owner, this`logged
      ensures ok && Exact(g, used, inodes, t', owner) && Cleared(table, t', inodes[i].addrs[NDIRECT], j + 1)
      ensures OnlyLoses(i, old(owner), owner)
      ensures Recorded(g, old(Now()), Now(), logged) && old(logged) <= logged
    {
      ghost var s := Now();
      var ind := inodes[i].addrs[NDIRECT];
      var b := table[ind][j];
      t' := t[ind := t[ind][j := 0]];
      ClearNext(table, t, ind, j);
      if b == 0 {
        ClearNothing(t, ind, j);
        RecordedNothing(g, s, logged);
        return true, t';
      }
      assert b == Addr(inodes[i], t, NDIRECT + 1 + j);
      WithEntrySameBut(g, used, inodes, t, owner, i, NDIRECT + 1 + j, 0);
      LoseBlock(g, used, inodes, t, owner, inodes, t', i, NDIRECT + 1 + j, b);
      ok := Bfree(b);
      owner := owner - {b};
      RecordedFree(g, s, Now(), b, logged);
    }

    /** itrunc's first loop. */
    method TruncDirect(i: nat) returns (ok: bool)
      requires Valid() && i < |inodes|
      modifies this`used, this`inodes, this`owner, this`logged
      ensures ok && Valid() && OnlyLoses(i, old(owner), owner) && Shorn(old(inodes), inodes, i, NDIRECT)
      ensures Recorded(g, old(Now()), Now(), logged) && old(logged) <= logged
    {
      var k := 0;
      ok := true;
      ghost var s := Now();
      RecordedNothing(g, s, logged);
      while k < NDIRECT
        invariant k <= NDIRECT && ok && Valid() && OnlyLoses(i, old(owner), owner)
        invariant Shorn(old(inodes), inodes, i, k)
        invariant Recorded(g, s, Now(), logged) && old(logged) <= logged
      {
        ghost var s1, logged1 := Now(), logged;
        ok := FreeAddr(i, k);
        RecordedTwice(g, s, s1, Now(), logged1, logged);
        ShornNext(s.inodes, s1.inodes, inodes, i, k);
        k := k + 1;
      }
    }

    /** itrunc's second loop. */
    method FreeEntries(i: nat) returns (ghost t: seq<Table>)
      requires Valid() && i < |inodes| && inodes[i].addrs[NDIRECT] != 0
      modifies this`used, this`owner, this`logged
      ensures Exact(g, used, inodes, t, owner) && Cleared(table, t, inodes[i].addrs[NDIRECT], NINDIRECT)
      ensures OnlyLoses(i, old(owner), owner)
      ensures Recorded(g, old(Now()), Now(), logged) && old(logged) <= logged
    {
      var j, ok := 0, true;
      ghost var s := Now();
      RecordedNothing(g, s, logged);
      t := table;
      while j < NINDIRECT
        invariant j <= NINDIRECT && ok && Exact(g, used, inodes, t, owner)
        invariant Cleared(table, t, inodes[i].addrs[NDIRECT], j)
        invariant OnlyLoses(i, old(owner), owner)
        invariant Recorded(g, s, Now(), logged) && old(logged) <= logged
      {
        ghost var s1, logged1 := Now(), logged;
        ok, t := FreeEntry(i, j, t);
        RecordedTwice(g, s, s1, Now(), logged1, logged);
        j := j + 1;
      }
    }

    /** Then the indirect block itself. */
    method FreeIndirect(i: nat, ghost t: seq<Table>) returns (ok: bool)
      requires ValidLayout(g) && |table| == |data| == g.size && Exact(g, used, inodes, t, owner) && i < |inodes|
      requires inodes[i].addrs[NDIRECT] != 0 && Cleared(table, t, inodes[i].addrs[NDIRECT], NINDIRECT)
      modifies this`used, this`inodes, this`owner, this`logged
      ensures ok && Valid() && OnlyLoses(i, old(owner), owner) && inodes == WithAddr(old(inodes), i, NDIRECT, 0)
      ensures Recorded(g, old(Now()), Now(), logged) && old(logged) <= logged
    {
      ghost var s := Now();
      var ind := inodes[i].addrs[NDIRECT];
      DropIndirect(g, used, inodes, table, t, owner, i);
      ok := Bfree(ind);
      inodes := WithAddr(inodes, i, NDIRECT, 0);
      owner := owner - {ind};
      RecordedFree(g, s, Now(), ind, logged);
    }

    /** itrunc's second part: the entries' blocks, and the indirect block itself. */
    method TruncIndirect(i: nat) returns (ok: bool)
      requires Valid() && i < |inodes|
      modifies this`used, this`inodes, this`owner, this`logged
      ensures ok && Valid() && OnlyLoses(i, old(owner), owner)
      ensures inodes == WithAddr(old(inodes), i, NDIRECT, 0)
      ensures Recorded(g, old(Now()), Now(), logged) && old(logged) <= logged
    {
      ok := true;
      ghost var s := Now();
      if inodes[i].addrs[NDIRECT] == 0 {
        RecordedNothing(g, s, logged);
        assert inodes[i].addrs[NDIRECT := 0] == inodes[i].addrs;
        return;
      }
      ghost var t := FreeEntries(i);
      ghost var s1, logged1 := Now(), logged;
      ok := FreeIndirect(i, t);
      RecordedTwice(g, s, s1, Now(), logged1, logged);
    }

    /** itrunc's loops. */
    method TruncBlocks(i: nat) returns (ok: bool)
      requires Valid() && i < |inodes|
      modifies this`used, this`inodes, this`owner, this`logged
      ensures ok && Valid() && Unblocked(i, old(Now()), Now())
      ensures Recorded(g, old(Now()), Now(), logged) && old(logged) <= logged
    {
      ghost var s := Now();
      ok := TruncDirect(i);
      ghost var s1, logged1 := Now(), logged;
      ok := TruncIndirect(i);
      RecordedTwice(g, s, s1, Now(), logged1, logged);
    }

    /** itrunc: file i is empty, exactly its blocks are free again, every other file is as it was, every block
        that changed was logged, and bfree never found a block already free. */
    method Itrunc(i: nat) returns (ok: bool)
      requires Settled() && i < |inodes|
      modifies this`used, this`inodes, this`dinodes, this`owner, this`logged
      ensures ok && Settled() && |inodes| == |old(inodes)|
      ensures |inodes[i].addrs| == NDIRECT + 1 && forall k :: 0 <= k <= NDIRECT ==> inodes[i].addrs[k] == 0
      ensures forall f :: 0 <= f < |inodes| ==> File(f) == if f == i then [] else old(File(f))
      ensures forall b :: g.dataStart <= b < g.size ==>
        (used[b] <==> old(used)[b] && old(owner)[b].inum != i)
      ensures Recorded(g, old(Now()), Now(), logged) && old(logged) <= logged && IBlock(g, i) in logged
      ensures forall f :: 0 <= f < |inodes| && f != i ==> dinodes[f] == old(dinodes)[f]
    {
      ghost var s := Now();
      ok := TruncBlocks(i);
      ghost var s1, logged1 := Now(), logged;
      ghost var s2 := s1.(inodes := WithSize(inodes, i, 0));
      Emptied(g, i, s, s1, s2);
      inodes := WithSize(inodes, i, 0);
      Iupdate(i);
      RecordedNoMore(g, s, s1, s2, logged1, logged);
    }
  }
}
