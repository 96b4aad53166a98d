/** How files own disk blocks (xv6/kernel/fs.c): NDIRECT addresses in the inode, one indirect
    block, and NINDIRECT addresses in that block. An indirect block is kept as its 32-bit words. */
module BlockMap {
  import opened Blocks

  const NDIRECT: nat := 12
  const NINDIRECT: nat := 256
  const MAXFILE: nat := NDIRECT + NINDIRECT
  // The addresses of one file: the direct ones, the indirect block's, and those in it.
  const SLOTS: nat := NDIRECT + 1 + NINDIRECT

  const BPB: nat := 8 * BSIZE   // bitmap bits in a block
  const IPB: nat := 16          // inodes in a block

  type Addrs = s: seq<nat> | |s| == NDIRECT + 1 witness seq(NDIRECT + 1, _ => 0)
  type Table = s: seq<nat> | |s| == NINDIRECT witness seq(NINDIRECT, _ => 0)

  /** An indirect block that names nothing. */
  function NoEntries(): (t: Table)
    ensures forall j :: 0 <= j < NINDIRECT ==> t[j] == 0
  {
    seq(NINDIRECT, _ => 0)
  }

  datatype Inode = Inode(size: nat, addrs: Addrs)

  /** Where a block address is stored: in which inode, and in which of its slots. */
  datatype Slot = Slot(inum: nat, k: nat)

  /** The disk's size, and where its data blocks, bitmap and inodes start. */
  datatype Layout = Layout(size: nat, dataStart: nat, bmapStart: nat, inodeStart: nat)

  predicate ValidLayout(g: Layout) {
    0 < g.dataStart <= g.size
  }

  /** The k-th address of a file; 0 means none. */
  function Addr(ino: Inode, table: seq<Table>, k: nat): (a: nat)
    requires k < SLOTS && ino.addrs[NDIRECT] < |table|
  {
    if k <= NDIRECT then ino.addrs[k]
    else if ino.addrs[NDIRECT] == 0 then 0
    else table[ino.addrs[NDIRECT]][k - NDIRECT - 1]
  }

  /** The slot that holds the address of the file's bn-th block. */
  function SlotOf(bn: nat): (k: nat)
    requires bn < MAXFILE
    ensures k < SLOTS && k != NDIRECT
  {
    if bn < NDIRECT then bn else bn + 1
  }

  /** Block ownership is exact: the used blocks of the data area are those some slot names, each
      named by exactly one slot. */
  ghost predicate Exact(g: Layout, used: seq<bool>, inodes: seq<Inode>, table: seq<Table>, owner: map<nat, Slot>) {
    && |used| == |table| == g.size
    && (forall b :: 0 <= b < g.dataStart <= g.size ==> used[b])
    && (forall b :: g.dataStart <= b < g.size ==> (used[b] <==> b in owner))
    && IndirectInRange(inodes, table)
    && SlotsOwned(inodes, table, owner)
    && OwnedBySlots(g, inodes, table, owner)
  }

  ghost predicate IndirectInRange(inodes: seq<Inode>, table: seq<Table>) {
    forall i :: 0 <= i < |inodes| ==> inodes[i].addrs[NDIRECT] < |table|
  }

  ghost predicate SlotsOwned(inodes: seq<Inode>, table: seq<Table>, owner: map<nat, Slot>)
    requires IndirectInRange(inodes, table)
  {
    forall i, k :: 0 <= i < |inodes| && 0 <= k < SLOTS && Addr(inodes[i], table, k) != 0 ==>
      Addr(inodes[i], table, k) in owner && owner[Addr(inodes[i], table, k)] == Slot(i, k)
  }

  ghost predicate OwnedBySlots(g: Layout, inodes: seq<Inode>, table: seq<Table>, owner: map<nat, Slot>)
    requires IndirectInRange(inodes, table)
  {
    forall b :: b in owner ==>
      && g.dataStart <= b < g.size
      && owner[b].inum < |inodes| && owner[b].k < SLOTS
      && Addr(inodes[owner[b].inum], table, owner[b].k) == b
  }

  /** The addresses of every slot but (i, k) are the same in both. */
  ghost predicate SameBut(inodes: seq<Inode>, table: seq<Table>, inodes': seq<Inode>, table': seq<Table>, i: nat,
                          k: nat)
    requires IndirectInRange(inodes, table) && IndirectInRange(inodes', table') && |inodes| == |inodes'|
  {
    forall i', k' :: 0 <= i' < |inodes| && 0 <= k' < SLOTS && !(i' == i && k' == k) ==>
      Addr(inodes'[i'], table', k') == Addr(inodes[i'], table, k')
  }

  /** An empty slot gets a free block. */
  lemma GainBlock(g: Layout, used: seq<bool>, inodes: seq<Inode>, table: seq<Table>, owner: map<nat, Slot>,
                  inodes': seq<Inode>, table': seq<Table>, i: nat, k: nat, b: nat)
    requires Exact(g, used, inodes, table, owner) && ValidLayout(g)
    requires i < |inodes| == |inodes'| && k < SLOTS && g.dataStart <= b < g.size && !used[b]
    requires |table'| == g.size && IndirectInRange(inodes', table')
    requires SameBut(inodes, table, inodes', table', i, k)
    requires Addr(inodes[i], table, k) == 0 && Addr(inodes'[i], table', k) == b
    ensures Exact(g, used[b := true], inodes', table', owner[b := Slot(i, k)])
  {
  }

  /** A slot gives its block back. */
  lemma LoseBlock(g: Layout, used: seq<bool>, inodes: seq<Inode>, table: seq<Table>, owner: map<nat, Slot>,
                  inodes': seq<Inode>, table': seq<Table>, i: nat, k: nat, b: nat)
    requires Exact(g, used, inodes, table, owner) && ValidLayout(g)
    requires i < |inodes| == |inodes'| && k < SLOTS && b != 0
    requires |table'| == g.size && IndirectInRange(inodes', table')
    requires SameBut(inodes, table, inodes', table', i, k)
    requires Addr(inodes[i], table, k) == b && Addr(inodes'[i], table', k) == 0
    ensures g.dataStart <= b < g.size && used[b]
    ensures Exact(g, used[b := false], inodes', table', owner - {b})
  {
  }

  /** Some slot of some inode holds address b. */
  ghost predicate Named(inodes: seq<Inode>, table: seq<Table>, b: nat)
    requires IndirectInRange(inodes, table)
  {
    exists i, k :: 0 <= i < |inodes| && 0 <= k < SLOTS && Addr(inodes[i], table, k) == b
  }

  /** Exact ownership without the owner map: in the data area a block is in use just when an inode names
      it, every address is in the data area, and no two slots hold the same one. */
  lemma NoBlockSharedOrLeaked(g: Layout, used: seq<bool>, inodes: seq<Inode>, table: seq<Table>, owner: map<nat, Slot>)
    requires Exact(g, used, inodes, table, owner) && ValidLayout(g)
    ensures forall b: nat :: g.dataStart <= b < g.size ==> (used[b] <==> Named(inodes, table, b))
    ensures forall i, k :: 0 <= i < |inodes| && 0 <= k < SLOTS && Addr(inodes[i], table, k) != 0 ==>
      g.dataStart <= Addr(inodes[i], table, k) < g.size
    ensures forall i, k, i', k' ::
      (0 <= i < |inodes| && 0 <= k < SLOTS && 0 <= i' < |inodes| && 0 <= k' < SLOTS
       && Addr(inodes[i], table, k) == Addr(inodes[i'], table, k') != 0) ==> i == i' && k == k'
  {
    forall b: nat | g.dataStart <= b < g.size
      ensures used[b] <==> Named(inodes, table, b)
    {
      if used[b] {
        assert Addr(inodes[owner[b].inum], table, owner[b].k) == b;
      }
    }
  }
}
