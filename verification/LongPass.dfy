/** Why filewrite (xv6/kernel/file.c) writes no more than MAXPASS bytes in one transaction: a disk on which a write
    of one block more logs more than an operation's share. It has one free block in each of five bitmap blocks;
    file 0 fills its direct blocks, and files 1 to 125 own the rest. */
module LongPass {
  import opened Blocks
  import opened BlockMap
  import opened FileSystem

  const FILES: nat := 126
  const SIZE: nat := 33737        // 112 + 125 * SLOTS; blocks below 112 are file 0's or hold no data

  function Disk(): (g: Layout) {
    Layout(SIZE, 100, 40, 30)
  }

  /** The free blocks: slot 5 of every 31st file. */
  predicate Hole(b: nat) {
    112 <= b && (b - 112) % 8339 == 5
  }

  /** Slot k of file i >= 1. */
  function BlockOf(i: nat, k: nat): (b: nat)
    requires 1 <= i
  {
    112 + 269 * (i - 1) + k
  }

  function FileOf(b: nat): (i: nat)
    requires 112 <= b
  {
    1 + (b - 112) / 269
  }

  function SlotIn(b: nat): (k: nat)
    requires 112 <= b
    ensures k < 269
  {
    (b - 112) % 269
  }

  lemma SlotsInverse(i: nat, k: nat)
    requires 1 <= i && k < 269
    ensures FileOf(BlockOf(i, k)) == i && SlotIn(BlockOf(i, k)) == k
  {
  }

  lemma BlocksInverse(b: nat)
    requires 112 <= b < SIZE
    ensures 1 <= FileOf(b) < FILES && BlockOf(FileOf(b), SlotIn(b)) == b
  {
  }

  lemma HoleSlot(b: nat)
    requires Hole(b)
    ensures SlotIn(b) == 5
  {
    var q := (b - 112) / 8339;
    assert b - 112 == 269 * (31 * q) + 5;
  }

  /** Free blocks have different bitmap blocks. */
  lemma HolesApart(a: nat, b: nat)
    requires Hole(a) && Hole(b) && a != b
    ensures a / 8192 != b / 8192
  {
    var p, q := (a - 112) / 8339, (b - 112) / 8339;
    assert a == 8339 * p + 117 && b == 8339 * q + 117;
  }

  function Used(): (u: seq<bool>)
    ensures |u| == SIZE && forall b :: 0 <= b < SIZE ==> u[b] == !Hole(b)
  {
    seq(SIZE, b requires 0 <= b => !Hole(b))
  }

  function AddrsOf(i: nat): (a: Addrs)
    ensures i == 0 ==> a[NDIRECT] == 0 && forall k :: 0 <= k < NDIRECT ==> a[k] == 100 + k
    ensures i > 0 ==> forall k :: 0 <= k <= NDIRECT ==> a[k] == if Hole(BlockOf(i, k)) then 0 else BlockOf(i, k)
  {
    if i == 0 then seq(NDIRECT + 1, k requires 0 <= k => if k < NDIRECT then 100 + k else 0)
    else seq(NDIRECT + 1, k requires 0 <= k => if Hole(BlockOf(i, k)) then 0 else BlockOf(i, k))
  }

  function Inodes(): (s: seq<Inode>)
    ensures |s| == FILES
    ensures forall i :: 0 <= i < FILES ==> s[i] == Inode(if i == 0 then 12288 else 0, AddrsOf(i))
  {
    seq(FILES, i requires 0 <= i => Inode(if i == 0 then 12288 else 0, AddrsOf(i)))
  }

  /** Block b as an indirect block. */
  function Entries(b: nat): (t: Table)
    ensures 112 <= b && SlotIn(b) == 12 ==> forall j :: 0 <= j < NINDIRECT ==> t[j] == BlockOf(FileOf(b), 13 + j)
  {
    if 112 <= b && SlotIn(b) == 12 then seq(NINDIRECT, j requires 0 <= j => BlockOf(FileOf(b), 13 + j)) else NoEntries()
  }

  function Tables(): (s: seq<Table>)
    ensures |s| == SIZE && forall b :: 0 <= b < SIZE ==> s[b] == Entries(b)
  {
    seq(SIZE, b requires 0 <= b => Entries(b))
  }

  function Contents(): (s: seq<Block>)
    ensures |s| == SIZE
  {
    seq<Block>(SIZE, b requires 0 <= b => Zeroes())
  }

  ghost function Owner(): (o: map<nat, Slot>)
    ensures forall b: nat :: b in o <==> 100 <= b < SIZE && !Hole(b)
    ensures forall b: nat :: b in o ==> o[b] == if b < 112 then Slot(0, b - 100) else Slot(FileOf(b), SlotIn(b))
  {
    map b: nat | 100 <= b < SIZE && !Hole(b) :: if b < 112 then Slot(0, b - 100) else Slot(FileOf(b), SlotIn(b))
  }

  /** What slot k of file i holds. */
  lemma AddrIs(i: nat, k: nat)
    requires i < FILES && k < SLOTS
    ensures Inodes()[i].addrs[NDIRECT] < SIZE
    ensures Addr(Inodes()[i], Tables(), k) ==
      if i == 0 then (if k < NDIRECT then 100 + k else 0) else if Hole(BlockOf(i, k)) then 0 else BlockOf(i, k)
  {
    if i > 0 {
      SlotsInverse(i, k);
      SlotsInverse(i, 12);
      NotHole(i, 12);
      if k > NDIRECT {
        NotHole(i, k);
        assert Tables()[BlockOf(i, 12)][k - 13] == BlockOf(i, k);
      }
    }
  }

  lemma NotHole(i: nat, k: nat)
    requires 1 <= i && k < 269 && k != 5
    ensures !Hole(BlockOf(i, k))
  {
    SlotsInverse(i, k);
    if Hole(BlockOf(i, k)) {
      HoleSlot(BlockOf(i, k));
    }
  }

  ghost function Before(): (s: Snapshot) {
    Snapshot(Used(), Inodes(), Tables(), Contents(), Owner())
  }

  lemma SlotOwned(i: nat, k: nat, a: nat)
    requires i < FILES && k < SLOTS && Inodes()[i].addrs[NDIRECT] < SIZE && a == Addr(Inodes()[i], Tables(), k)
    requires a != 0
    ensures a in Owner() && Owner()[a] == Slot(i, k)
  {
    AddrIs(i, k);
    if i == 0 {
      assert !Hole(a);
    } else {
      SlotsInverse(i, k);
      assert a < SIZE;
    }
  }

  lemma OwnedSlot(b: nat)
    requires b in Owner()
    ensures Owner()[b].inum < FILES && Owner()[b].k < SLOTS && Inodes()[Owner()[b].inum].addrs[NDIRECT] < SIZE
    ensures Addr(Inodes()[Owner()[b].inum], Tables(), Owner()[b].k) == b
  {
    if b >= 112 {
      BlocksInverse(b);
    }
    AddrIs(Owner()[b].inum, Owner()[b].k);
  }

  lemma DiskExact()
    ensures Ok(Disk(), Before())
  {
    forall i | 0 <= i < FILES
      ensures Inodes()[i].addrs[NDIRECT] < SIZE
    {
      AddrIs(i, 0);
    }
    forall i, k | 0 <= i < FILES && 0 <= k < SLOTS && Addr(Inodes()[i], Tables(), k) != 0
      ensures Addr(Inodes()[i], Tables(), k) in Owner() && Owner()[Addr(Inodes()[i], Tables(), k)] == Slot(i, k)
    {
      SlotOwned(i, k, Addr(Inodes()[i], Tables(), k));
    }
    forall b | b in Owner()
      ensures Owner()[b].inum < FILES && Owner()[b].k < SLOTS
      ensures Addr(Inodes()[Owner()[b].inum], Tables(), Owner()[b].k) == b
    {
      OwnedSlot(b);
    }
    assert SlotsOwned(Inodes(), Tables(), Owner());
    assert OwnedBySlots(Disk(), Inodes(), Tables(), Owner());
  }

  lemma DiskNoHoles()
    ensures IndirectInRange(Inodes(), Tables()) && NoHoles(Inodes(), Tables())
  {
    DiskExact();
    forall i, bn | 0 <= i < FILES && 0 <= bn < BlockCount(Inodes()[i].size)
      ensures Addr(Inodes()[i], Tables(), SlotOf(bn)) != 0
    {
      AddrIs(i, SlotOf(bn));
    }
  }

  /** What taking the blocks of s logs: the inode's block, and each of them with its bitmap block. */
  ghost function Logs(s: seq<nat>): (l: set<nat>)
    ensures forall x :: x in l ==> x == 30 || exists i :: 0 <= i < |s| && (x == s[i] || x == BBlock(Disk(), s[i]))
  {
    if s == [] then {30} else Logs(s[..|s| - 1]) + {BBlock(Disk(), s[|s| - 1]), s[|s| - 1]}
  }

  predicate DifferentHoles(s: seq<nat>) {
    && (forall i :: 0 <= i < |s| ==> s[i] < SIZE && Hole(s[i]))
    && (forall i, j :: 0 <= i < j < |s| ==> s[i] != s[j])
  }

  lemma LastIsNew(s: seq<nat>, n: nat)
    requires DifferentHoles(s) && |s| == n + 1
    ensures s[n] !in Logs(s[..n]) && BBlock(Disk(), s[n]) !in Logs(s[..n]) && s[n] != BBlock(Disk(), s[n])
  {
    forall i | 0 <= i < n
      ensures s[..n][i] != s[n] && BBlock(Disk(), s[..n][i]) != BBlock(Disk(), s[n])
    {
      HolesApart(s[i], s[n]);
    }
  }

  lemma {:induction false} LogsSize(s: seq<nat>)
    requires DifferentHoles(s)
    ensures |Logs(s)| == 2 * |s| + 1
  {
    if s != [] {
      LogsSize(s[..|s| - 1]);
      LastIsNew(s, |s| - 1);
    }
  }

  /** Different blocks that were free and are used now: each is logged with its bitmap block, which is another for
      each, and so is the inode's. */
  lemma AllLogged(s': Snapshot, logged: set<nat>, s: seq<nat>)
    requires Recorded(Disk(), Before(), s', logged) && IBlock(Disk(), 0) in logged && |s'.used| == SIZE
    requires DifferentHoles(s) && forall i :: 0 <= i < |s| ==> s'.used[s[i]]
    ensures |logged| >= 2 * |s| + 1
  {
    forall x | x in Logs(s)
      ensures x in logged
    {
      if i :| 0 <= i < |s| && (x == s[i] || x == BBlock(Disk(), s[i])) {
        assert RecordedAt(Disk(), Before(), s', logged, s[i]);
      }
    }
    LogsSize(s);
    SubsetSize(Logs(s), logged);
  }

  /** A slot that was empty holds a block that was free. */
  lemma FilledFromHole(s': Snapshot, k: nat, a: nat)
    requires Ok(Disk(), s') && |s'.inodes| == FILES && IndirectInRange(Inodes(), Tables()) && KeepsSlots(Before(), s')
    requires NDIRECT <= k < SLOTS && a == Addr(s'.inodes[0], s'.table, k) && a != 0
    ensures a < SIZE && Hole(a) && s'.used[a] && a in s'.owner && s'.owner[a] == Slot(0, k)
  {
    AddrIs(0, k);
    if !Hole(a) {
      OwnedSlot(a);
    }
  }

  /** The indirect block and the four entries that a write of blocks 12 to 15 needs. */
  lemma FiveFilled(s': Snapshot) returns (s: seq<nat>)
    requires Ok(Disk(), s') && |s'.inodes| == FILES && IndirectInRange(Inodes(), Tables()) && KeepsSlots(Before(), s')
    requires NoHoles(s'.inodes, s'.table) && s'.inodes[0].size >= 16384
    ensures |s| == 5 && DifferentHoles(s) && forall i :: 0 <= i < |s| ==> s'.used[s[i]]
  {
    var t := s'.inodes[0];
    forall k | 13 <= k < 17
      ensures Addr(t, s'.table, k) != 0
    {
      assert SlotOf(k - 1) == k;
      assert Addr(s'.inodes[0], s'.table, SlotOf(k - 1)) != 0;
    }
    s := [Addr(t, s'.table, 12), Addr(t, s'.table, 13), Addr(t, s'.table, 14),
          Addr(t, s'.table, 15), Addr(t, s'.table, 16)];
    forall i | 0 <= i < 5
      ensures s[i] < SIZE && Hole(s[i]) && s'.used[s[i]] && s[i] in s'.owner && s'.owner[s[i]] == Slot(0, 12 + i)
    {
      assert s[i] == Addr(t, s'.table, 12 + i) && s[i] != 0;
      FilledFromHole(s', 12 + i, s[i]);
    }
  }

  /** If the write fills the disk, all five free blocks are taken too. */
  lemma FiveTaken(s': Snapshot) returns (s: seq<nat>)
    requires |s'.used| == SIZE && forall b :: 0 <= b < SIZE ==> s'.used[b]
    ensures |s| == 5 && DifferentHoles(s) && forall i :: 0 <= i < |s| ==> s'.used[s[i]]
  {
    s := [117, 8456, 16795, 25134, 33473];
  }

  lemma TooMany(s': Snapshot, logged: set<nat>, n: nat)
    requires Ok(Disk(), s') && |s'.inodes| == FILES && Sound(s') && Sound(Before()) && KeepsSlots(Before(), s')
    requires Recorded(Disk(), Before(), s', logged) && IBlock(Disk(), 0) in logged
    requires n < 4096 ==> forall b :: 0 <= b < SIZE ==> s'.used[b]
    requires n >= 4096 ==> s'.inodes[0].size >= 16384
    ensures |logged| >= 11
  {
    var s: seq<nat>;
    if n < 4096 {
      s := FiveTaken(s');
    } else {
      s := FiveFilled(s');
    }
    AllLogged(s', logged, s);
  }

  lemma Overflows(s: Snapshot, s': Snapshot, logged: set<nat>, a: seq<Blocks.Byte>)
    requires s == Before() && Sound(s) && Ok(Disk(), s') && |s'.inodes| == FILES && Sound(s') && KeepsSlots(s, s')
    requires 12288 <= s.inodes[0].size && FilesSpliced(s, s', 0, 12288, a)
    requires |a| < 4096 ==> forall b :: 0 <= b < SIZE ==> s'.used[b]
    requires Recorded(Disk(), s, s', logged) && IBlock(Disk(), 0) in logged
    ensures |logged| > MAXOPBLOCKS
  {
    SplicedSize(s, s', 0, 12288, a);
    TooMany(s', logged, |a|);
  }

  method Mount() returns (f: Files)
    ensures f.Settled() && f.g == Disk() && f.Now() == Before() && f.logged == {} && fresh(f)
    ensures |f.File(0)| == 12288
  {
    DiskNoHoles();
    DiskExact();
    f := new Files(Disk(), Used(), Inodes(), Tables(), Contents(), Owner());
  }

  /** On this disk a write of one block more than filewrite's largest, at the end of file 0, logs more blocks than an
      operation may. */
  method LongerPassOverflows(src: seq<Blocks.Byte>) returns (f: Files)
    requires |src| == MAXPASS + BSIZE
    ensures f.Settled() && |f.logged| > MAXOPBLOCKS
  {
    f := Mount();
    ghost var s := f.Now();
    var r := f.Writei(0, 12288, src);
    Overflows(s, f.Now(), f.logged, src[..r]);
  }
}
