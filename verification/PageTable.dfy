/** Three-level Sv39 page tables (xv6/kernel/vm.c): walk, mappages, uvmunmap and freewalk over table
    pages in memory. Addresses are page numbers: vpn is va / PGSIZE, and a frame is pa / PGSIZE. */
module PageTable {
  const ENTRIES: nat := 512
  const MAXVPN: nat := ENTRIES * ENTRIES * ENTRIES / 2   // MAXVA / PGSIZE

  const PTE_V: nat := 1

  /** A page-table entry: a frame and the ten low bits. */
  datatype Entry = Entry(ppn: nat, flags: nat)

  const ZERO: Entry := Entry(0, 0)

  type Table = s: seq<Entry> | |s| == ENTRIES witness seq(ENTRIES, _ => ZERO)

  function Blank(): (t: Table)
    ensures forall i :: 0 <= i < ENTRIES ==> t[i] == ZERO
  {
    seq(ENTRIES, _ => ZERO)
  }

  predicate IsValid(e: Entry) {
    e.flags % 2 == 1
  }

  /** Some of PTE_R, PTE_W and PTE_X is set: the entry maps a page, not a table. */
  predicate IsLeaf(e: Entry) {
    e.flags / 2 % 8 != 0
  }

  function Pointer(f: nat): (e: Entry) {
    Entry(f, PTE_V)
  }

  /** A table page's place in a tree: of which root, and below which entries. */
  datatype Node = Top(root: nat) | Middle(root: nat, i2: nat) | Low(root: nat, i2: nat, i1: nat)

  /** The place below entry i of a table. */
  function Child(n: Node, i: nat): (c: Node)
    requires !n.Low?
  {
    if n.Top? then Middle(n.root, i) else Low(n.root, n.i2, i)
  }

  function Parent(n: Node): (p: Node)
    requires !n.Top?
  {
    if n.Middle? then Top(n.root) else Middle(n.root, n.i2)
  }

  /** PX(level, va): which entry of a table of that level is for page vpn. */
  function PX(level: nat, vpn: nat): (i: nat)
    ensures i < ENTRIES
  {
    if level == 2 then vpn / 262144 % 512 else if level == 1 then vpn / 512 % 512 else vpn % 512
  }

  /** The bottom table of page vpn. */
  function Bottom(root: nat, vpn: nat): (n: Node) {
    Low(root, PX(2, vpn), PX(1, vpn))
  }

  /** Memory holds page tables: each table page has one place in one tree, and an entry above the
      bottom is either the pointer to the table page at the place below it, or zero. */
  ghost predicate Trees(page: seq<Table>, node: map<nat, Node>, where: map<Node, nat>) {
    && (forall f :: f in node ==> f < |page|)
    && Places(node, where)
    && (forall f, i :: f in node && !node[f].Low? && 0 <= i < ENTRIES ==> Linked(page[f][i], Child(node[f], i), where))
    && (forall f, i :: f in node && node[f].Low? && 0 <= i < ENTRIES ==> BottomOk(page[f][i]))
  }

  /** node and where are inverse, and a table page has its parent's. */
  ghost predicate Places(node: map<nat, Node>, where: map<Node, nat>) {
    && (forall f :: f in node ==> node[f] in where && where[node[f]] == f)
    && (forall n :: n in where ==>
         where[n] in node && node[where[n]] == n && Placed(n) && (n.Top? ==> where[n] == n.root))
    && (forall n :: n in where && !n.Top? ==> Parent(n) in where)
  }

  /** The place is on the way to some page below MAXVPN. */
  predicate Placed(n: Node) {
    (n.Top? || n.i2 < ENTRIES / 2) && (n.Low? ==> n.i1 < ENTRIES)
  }

  predicate Linked(e: Entry, n: Node, where: map<Node, nat>) {
    e == if n in where then Pointer(where[n]) else ZERO
  }

  predicate BottomOk(e: Entry) {
    e == ZERO || (IsValid(e) && IsLeaf(e))
  }

  /** The flat map: what the table of this root says of page vpn. */
  function Lookup(page: seq<Table>, where: map<Node, nat>, root: nat, vpn: nat): (e: Entry) {
    var n := Bottom(root, vpn);
    if n in where && where[n] < |page| then page[where[n]][PX(0, vpn)] else ZERO
  }

  lemma LinkKeepsPlaces(node: map<nat, Node>, where: map<Node, nat>, f: nat, i: nat, g: nat,
                        node': map<nat, Node>, where': map<Node, nat>)
    requires Places(node, where) && f in node && !node[f].Low? && Placed(Child(node[f], i))
    requires g !in node && Child(node[f], i) !in where
    requires node' == node[g := Child(node[f], i)] && where' == where[Child(node[f], i) := g]
    ensures Places(node', where')
    ensures forall j: nat :: !node'[g].Low? ==> Child(node'[g], j) !in where'
  {
    var c := Child(node[f], i);
    forall j: nat | !c.Low? ensures Child(c, j) !in where' {
      assert Parent(Child(c, j)) == c;
    }
  }

  /** A new blank table page g at the place below entry i of table page f. */
  lemma LinkKeepsTrees(page: seq<Table>, node: map<nat, Node>, where: map<Node, nat>, f: nat, i: nat, g: nat,
                       page': seq<Table>, node': map<nat, Node>, where': map<Node, nat>)
    requires Trees(page, node, where) && f in node && !node[f].Low? && i < ENTRIES && Placed(Child(node[f], i))
    requires g < |page| && g !in node && Child(node[f], i) !in where
    requires node' == node[g := Child(node[f], i)] && where' == where[Child(node[f], i) := g]
    requires page' == page[g := Blank()][f := page[f][i := Pointer(g)]]
    ensures Trees(page', node', where')
  {
    LinkKeepsPlaces(node, where, f, i, g, node', where');
    forall h, j | h in node' && !node'[h].Low? && 0 <= j < ENTRIES
      ensures Linked(page'[h][j], Child(node'[h], j), where')
    {
      if h != g {
        assert Linked(page[h][j], Child(node[h], j), where);
        assert Child(node[h], j) == Child(node[f], i) ==> h == f && j == i;
      }
    }
  }

  /** A blank table page says of no page more than its absence did. */
  lemma LinkKeepsLookup(page: seq<Table>, node: map<nat, Node>, where: map<Node, nat>, f: nat, i: nat, g: nat,
                        page': seq<Table>, where': map<Node, nat>, root: nat, vpn: nat)
    requires Trees(page, node, where) && f in node && !node[f].Low? && i < ENTRIES
    requires g < |page| && g !in node && Child(node[f], i) !in where && where' == where[Child(node[f], i) := g]
    requires page' == page[g := Blank()][f := page[f][i := Pointer(g)]]
    ensures Lookup(page', where', root, vpn) == Lookup(page, where, root, vpn)
  {
  }

  /** Both say the same of every page of every table. */
  ghost predicate SameMaps(page: seq<Table>, where: map<Node, nat>, page': seq<Table>, where': map<Node, nat>) {
    forall root: nat, vpn: nat :: Lookup(page', where', root, vpn) == Lookup(page, where, root, vpn)
  }

  /** No table page has gone or moved. */
  ghost predicate Keeps(where: map<Node, nat>, where': map<Node, nat>) {
    forall n :: n in where ==> n in where' && where'[n] == where[n]
  }

  /** The place of the table of each level on the way to page vpn. */
  function NodeAt(root: nat, level: nat, vpn: nat): (n: Node) {
    if level == 2 then Top(root) else if level == 1 then Middle(root, PX(2, vpn)) else Bottom(root, vpn)
  }

  /** Pages differ in their bottom table or in their entry there. */
  lemma SameEntrySamePage(root: nat, vpn: nat, root': nat, vpn': nat)
    requires vpn < MAXVPN && vpn' < MAXVPN
    requires Bottom(root, vpn) == Bottom(root', vpn') && PX(0, vpn) == PX(0, vpn')
    ensures root == root' && vpn == vpn'
  {
    assert vpn / 262144 == vpn / 512 / 512 && vpn' / 262144 == vpn' / 512 / 512;
  }

  lemma SetKeepsTrees(page: seq<Table>, node: map<nat, Node>, where: map<Node, nat>, f: nat, i: nat, e: Entry,
                      page': seq<Table>)
    requires Trees(page, node, where) && f in node && node[f].Low? && i < ENTRIES && BottomOk(e)
    requires page' == page[f := page[f][i := e]]
    ensures Trees(page', node, where)
  {
  }

  /** Writing the entry for page vpn changes what is said of that page only. */
  lemma SetLookup(page: seq<Table>, node: map<nat, Node>, where: map<Node, nat>, root: nat, vpn: nat, f: nat, e: Entry,
                  page': seq<Table>, root': nat, vpn': nat)
    requires Trees(page, node, where) && f in node && node[f] == Bottom(root, vpn) && vpn < MAXVPN && vpn' < MAXVPN
    requires page' == page[f := page[f][PX(0, vpn) := e]]
    ensures Lookup(page', where, root', vpn') ==
      if root' == root && vpn' == vpn then e else Lookup(page, where, root', vpn')
  {
    var n := Bottom(root', vpn');
    if n in where && where[n] == f && PX(0, vpn') == PX(0, vpn) {
      SameEntrySamePage(root, vpn, root', vpn');
    }
  }

  /** Between the two, pages [lo, hi) of table root came to be mapped to frames from ppn on, and nothing
      else about any table changed. */
  ghost predicate Remapped(page: seq<Table>, where: map<Node, nat>, page': seq<Table>, where': map<Node, nat>,
                           root: nat, lo: nat, hi: nat, ppn: nat, flags: nat)
  {
    forall root': nat, v: nat :: v < MAXVPN ==>
      Lookup(page', where', root', v) ==
        if root' == root && lo <= v < hi then Entry(ppn + (v - lo), flags) else Lookup(page, where, root', v)
  }

  lemma RemappedNext(page: seq<Table>, where: map<Node, nat>, page1: seq<Table>, where1: map<Node, nat>,
                     page2: seq<Table>, where2: map<Node, nat>, root: nat, lo: nat, hi: nat, ppn: nat, flags: nat)
    requires lo <= hi && Remapped(page, where, page1, where1, root, lo, hi, ppn, flags)
    requires Remapped(page1, where1, page2, where2, root, hi, hi + 1, ppn + (hi - lo), flags)
    ensures Remapped(page, where, page2, where2, root, lo, hi + 1, ppn, flags)
  {
  }

  lemma RemappedNothing(page: seq<Table>, where: map<Node, nat>, page1: seq<Table>, where1: map<Node, nat>,
                        page2: seq<Table>, where2: map<Node, nat>, root: nat, lo: nat, hi: nat, ppn: nat, flags: nat)
    requires lo <= hi && Remapped(page, where, page1, where1, root, lo, hi, ppn, flags)
    requires Remapped(page1, where1, page2, where2, root, hi, hi, ppn + (hi - lo), flags)
    ensures Remapped(page, where, page2, where2, root, lo, hi, ppn, flags)
  {
  }

  /** Between the two, pages [lo, hi) of table root came to be unmapped, and nothing else about any table
      changed. */
  ghost predicate Unmapped(page: seq<Table>, page': seq<Table>, where: map<Node, nat>, root: nat, lo: nat, hi: nat) {
    forall root': nat, v: nat :: v < MAXVPN ==>
      Lookup(page', where, root', v) == if root' == root && lo <= v < hi then ZERO else Lookup(page, where, root', v)
  }

  lemma UnmappedNext(page: seq<Table>, page1: seq<Table>, page2: seq<Table>, where: map<Node, nat>, root: nat, lo: nat,
                     hi: nat)
    requires lo <= hi && Unmapped(page, page1, where, root, lo, hi) && Unmapped(page1, page2, where, root, hi, hi + 1)
    ensures Unmapped(page, page2, where, root, lo, hi + 1)
  {
  }

  /** The frames that pages [lo, lo + n) of table root are mapped to, in order. */
  function FramesOf(page: seq<Table>, where: map<Node, nat>, root: nat, lo: nat, n: nat): (fs: seq<nat>) {
    if n == 0 then []
    else
      var e := Lookup(page, where, root, lo + n - 1);
      FramesOf(page, where, root, lo, n - 1) + if IsValid(e) then [e.ppn] else []
  }

  /** How mappages ends: 0, -1, or a panic because a page is mapped already or there is none to map. */
  datatype Outcome = Done | NoMemory | Panic

  lemma EmptyIsZero(page: seq<Table>, node: map<nat, Node>, where: map<Node, nat>, root: nat, vpn: nat)
    requires Trees(page, node, where) && vpn < MAXVPN && !IsValid(Lookup(page, where, root, vpn))
    ensures Unmapped(page, page, where, root, vpn, vpn + 1)
  {
    var n := Bottom(root, vpn);
    if n in where {
      assert BottomOk(page[where[n]][PX(0, vpn)]);
    }
  }

  // ---------------------------------------------------------------- freewalk

  /** Place m is n or below it. */
  predicate Under(m: Node, n: Node) {
    m.root == n.root &&
    match n
    case Top(_) => true
    case Middle(_, i2) => !m.Top? && m.i2 == i2
    case Low(_, _, _) => m == n
  }

  function Height(n: Node): nat {
    if n.Top? then 2 else if n.Middle? then 1 else 0
  }

  /** f is a table page at or below place n. */
  ghost predicate In(node: map<nat, Node>, n: Node, f: nat) {
    f in node && Under(node[f], n)
  }

  /** f is a table page below one of the first i entries of the table at place n. */
  ghost predicate InFirst(node: map<nat, Node>, n: Node, i: nat, f: nat) {
    !n.Low? && In(node, n, f) && node[f] != n && (if n.Top? then node[f].i2 < i else node[f].i1 < i)
  }

  /** No table at or below place n maps a page. */
  ghost predicate Leafless(page: seq<Table>, node: map<nat, Node>, n: Node)
    requires forall f :: f in node ==> f < |page|
  {
    forall f, i :: f in node && Under(node[f], n) && node[f].Low? && 0 <= i < ENTRIES ==> page[f][i] == ZERO
  }

  /** The list has exactly the pages with property P, each once. */
  ghost predicate Lists(fs: seq<nat>, has: set<nat>) {
    && (forall i, j :: 0 <= i < j < |fs| ==> fs[i] != fs[j])
    && (forall i :: 0 <= i < |fs| ==> fs[i] in has)
    && (forall f :: f in has ==> f in fs)
  }

  lemma ListsJoin(fs: seq<nat>, a: set<nat>, gs: seq<nat>, b: set<nat>)
    requires Lists(fs, a) && Lists(gs, b) && a !! b
    ensures Lists(fs + gs, a + b)
  {
    forall f | f in a + b ensures f in fs + gs {
      if f in a {
        assert f in fs;
      } else {
        assert f in gs;
      }
    }
  }

  /** The table pages at or below place n. */
  ghost function Below(node: map<nat, Node>, n: Node): (s: set<nat>)
    ensures forall f :: f in s <==> In(node, n, f)
  {
    set f | f in node && Under(node[f], n)
  }

  ghost function BelowFirst(node: map<nat, Node>, n: Node, i: nat): (s: set<nat>)
    ensures forall f :: f in s <==> InFirst(node, n, i, f)
  {
    set f | f in node && InFirst(node, n, i, f)
  }

  /** One more entry: the pages below it, if it points to a table. */
  lemma BelowNext(node: map<nat, Node>, where: map<Node, nat>, n: Node, i: nat)
    requires Places(node, where) && !n.Low?
    ensures BelowFirst(node, n, i) !! Below(node, Child(n, i))
    ensures BelowFirst(node, n, i + 1) == BelowFirst(node, n, i) + Below(node, Child(n, i))
    ensures Child(n, i) !in where ==> Below(node, Child(n, i)) == {}
  {
    forall f | f in node && Under(node[f], Child(n, i)) ensures Child(n, i) in where {
      assert node[f] == Child(n, i) || Parent(node[f]) == Child(n, i);
    }
  }

  /** All entries done: what is left is the table itself. */
  lemma BelowAll(node: map<nat, Node>, where: map<Node, nat>, n: Node)
    requires Places(node, where) && n in where
    ensures where[n] !in BelowFirst(node, n, ENTRIES)
    ensures Below(node, n) == BelowFirst(node, n, ENTRIES) + {where[n]}
  {
    forall f | f in Below(node, n) ensures f in BelowFirst(node, n, ENTRIES) + {where[n]} {
      assert node[f] in where && Placed(node[f]);
    }
  }

  /** freewalk is at entry i of table page f at place n: the tables below later entries are untouched. */
  ghost predicate Untouched(page: seq<Table>, was: seq<Table>, node: map<nat, Node>, n: Node, f: nat, i: nat) {
    && |page| == |was| && f < |page|
    && (forall g :: g in node && g < |was| && Under(node[g], n) && g != f && !InFirst(node, n, i, g) ==>
         page[g] == was[g])
    && (forall j :: i <= j < ENTRIES ==> page[f][j] == was[f][j])
  }

  /** Only table pages at or below n were written. */
  ghost predicate Elsewhere(page: seq<Table>, page': seq<Table>, node: map<nat, Node>, n: Node) {
    |page'| == |page| && forall g :: 0 <= g < |page| && !In(node, n, g) ==> page'[g] == page[g]
  }

  /** No leaf below the first i entries of table page f at place n. */
  ghost predicate LeaflessFirst(page: seq<Table>, node: map<nat, Node>, n: Node, f: nat, i: nat)
    requires f < |page|
  {
    && (n.Low? ==> forall j :: 0 <= j < i && j < ENTRIES ==> page[f][j] == ZERO)
    && (forall g, j :: g in node && g < |page| && InFirst(node, n, i, g) && node[g].Low? && 0 <= j < ENTRIES ==>
         page[g][j] == ZERO)
  }

  lemma LeaflessAll(page: seq<Table>, node: map<nat, Node>, where: map<Node, nat>, f: nat)
    requires Trees(page, node, where) && f in node && LeaflessFirst(page, node, node[f], f, ENTRIES)
    ensures Leafless(page, node, node[f])
  {
    forall g, i | g in node && Under(node[g], node[f]) && node[g].Low? && 0 <= i < ENTRIES ensures page[g][i] == ZERO {
      assert node[g] in where && Placed(node[g]);
    }
  }

  lemma ListsNext(node: map<nat, Node>, where: map<Node, nat>, n: Node, i: nat, fs: seq<nat>, gs: seq<nat>)
    requires Places(node, where) && Lists(fs, BelowFirst(node, n, i))
    requires if n.Low? then gs == [] else Lists(gs, Below(node, Child(n, i)))
    ensures Lists(fs + gs, BelowFirst(node, n, i + 1))
  {
    if n.Low? {
      assert BelowFirst(node, n, i + 1) == BelowFirst(node, n, i);
      assert fs + gs == fs;
    } else {
      BelowNext(node, where, n, i);
      ListsJoin(fs, BelowFirst(node, n, i), gs, Below(node, Child(n, i)));
    }
  }

  lemma LeaflessNext(page: seq<Table>, node: map<nat, Node>, where: map<Node, nat>, f: nat, i: nat)
    requires Trees(page, node, where) && f in node && i < ENTRIES && LeaflessFirst(page, node, node[f], f, i)
    requires if node[f].Low? then page[f][i] == ZERO else Leafless(page, node, Child(node[f], i))
    ensures LeaflessFirst(page, node, node[f], f, i + 1)
  {
  }

  /** The tables below entry i were written, and entry i itself; those below later entries were not. */
  lemma UntouchedNext(page: seq<Table>, page1: seq<Table>, was: seq<Table>, node: map<nat, Node>, n: Node, f: nat,
                      i: nat)
    requires !n.Low? && f in node && node[f] == n && i < ENTRIES && Untouched(page, was, node, n, f, i)
    requires Elsewhere(page, page1, node, Child(n, i))
    ensures Elsewhere(page, page1[f := page1[f][i := ZERO]], node, n)
    ensures Elsewhere(page, page1, node, n)
    ensures Untouched(page1[f := page1[f][i := ZERO]], was, node, n, f, i + 1)
  {
  }

  /** What an entry may be: a pointer to the table below, zero, or at the bottom a leaf. */
  lemma EntryKinds(page: seq<Table>, node: map<nat, Node>, where: map<Node, nat>, f: nat, i: nat)
    requires Trees(page, node, where) && f in node && i < ENTRIES
    ensures node[f].Low? ==> BottomOk(page[f][i])
    ensures !node[f].Low? ==> Linked(page[f][i], Child(node[f], i), where)
  {
  }

  lemma NothingBelow(page: seq<Table>, node: map<nat, Node>, where: map<Node, nat>, f: nat, i: nat)
    requires Trees(page, node, where) && f in node && i < ENTRIES && !IsValid(page[f][i])
    ensures if node[f].Low? then page[f][i] == ZERO
            else Below(node, Child(node[f], i)) == {} && Leafless(page, node, Child(node[f], i))
  {
    EntryKinds(page, node, where, f, i);
    if !node[f].Low? {
      BelowNext(node, where, node[f], i);
      assert forall g :: g in node && Under(node[g], Child(node[f], i)) ==> g in Below(node, Child(node[f], i));
    }
  }

  /** The page whose entry is i0 of the bottom table at (i2, i1). */
  function PageNumber(i2: nat, i1: nat, i0: nat): (vpn: nat)
    requires i2 < 256 && i1 < 512 && i0 < 512
    ensures vpn < MAXVPN && PX(2, vpn) == i2 && PX(1, vpn) == i1 && PX(0, vpn) == i0
  {
    i2 * 262144 + i1 * 512 + i0
  }

  /** Table root maps no page from sz on. */
  ghost predicate EmptyFrom(page: seq<Table>, where: map<Node, nat>, root: nat, sz: nat) {
    forall vpn: nat :: sz <= vpn < MAXVPN ==> Lookup(page, where, root, vpn) == ZERO
  }

  lemma EmptiedFrom(page: seq<Table>, page': seq<Table>, where: map<Node, nat>, root: nat, sz: nat)
    requires Unmapped(page, page', where, root, 0, sz)
    ensures EmptyFrom(page', where, root, 0) <==> EmptyFrom(page, where, root, sz)
  {
    if EmptyFrom(page', where, root, 0) {
      forall vpn: nat | sz <= vpn < MAXVPN ensures Lookup(page, where, root, vpn) == ZERO {
        assert Lookup(page', where, root, vpn) == ZERO;
      }
    }
  }

  /** What tables other than root's say is the same. */
  ghost predicate OthersSame(page: seq<Table>, where: map<Node, nat>, page': seq<Table>, where': map<Node, nat>,
                             root: nat) {
    forall root': nat, vpn: nat :: root' != root && vpn < MAXVPN ==>
      Lookup(page', where', root', vpn) == Lookup(page, where, root', vpn)
  }

  /** freewalk's condition in terms of the flat map: no page is mapped. */
  lemma LeaflessIsUnmapped(page: seq<Table>, node: map<nat, Node>, where: map<Node, nat>, root: nat)
    requires Trees(page, node, where) && Top(root) in where
    ensures Leafless(page, node, Top(root)) <==> EmptyFrom(page, where, root, 0)
  {
    if EmptyFrom(page, where, root, 0) {
      forall f, i | f in node && Under(node[f], Top(root)) && node[f].Low? && 0 <= i < ENTRIES
        ensures page[f][i] == ZERO
      {
        assert node[f] in where && Placed(node[f]);
        assert Lookup(page, where, root, PageNumber(node[f].i2, node[f].i1, i)) == page[f][i];
      }
    }
  }

  /** Without the table of root, memory still holds the others. */
  lemma DropTree(page: seq<Table>, page': seq<Table>, node: map<nat, Node>, where: map<Node, nat>, root: nat,
                 node': map<nat, Node>, where': map<Node, nat>)
    requires Trees(page, node, where) && Elsewhere(page, page', node, Top(root))
    requires node' == map f | f in node && node[f].root != root :: node[f]
    requires where' == map n | n in where && n.root != root :: where[n]
    ensures Trees(page', node', where')
    ensures OthersSame(page, where, page', where', root)
  {
    assert forall f :: f in node' ==> page'[f] == page[f];
    assert Places(node', where');
  }

  lemma NewRootPlaces(node: map<nat, Node>, where: map<Node, nat>, r: nat, node': map<nat, Node>,
                      where': map<Node, nat>)
    requires Places(node, where) && r !in node && node' == node[r := Top(r)] && where' == where[Top(r) := r]
    ensures Top(r) !in where && Places(node', where')
    ensures forall n :: n in where' && n.root == r ==> n == Top(r)
  {
    forall n | n in where ensures Top(n.root) in where {
      if n.Low? {
        assert Parent(Parent(n)) == Top(n.root);
      } else if n.Middle? {
        assert Parent(n) == Top(n.root);
      }
    }
  }

  lemma NewRoot(page: seq<Table>, node: map<nat, Node>, where: map<Node, nat>, r: nat,
                page': seq<Table>, node': map<nat, Node>, where': map<Node, nat>)
    requires Trees(page, node, where) && r < |page| && r !in node
    requires page' == page[r := Blank()] && node' == node[r := Top(r)] && where' == where[Top(r) := r]
    ensures Top(r) !in where && Trees(page', node', where')
    ensures SameMaps(page, where, page', where') && EmptyFrom(page', where', r, 0)
  {
    NewRootPlaces(node, where, r, node', where');
  }

  class Tables {
    var page: seq<Table>
    var free: set<nat>
    ghost var node: map<nat, Node>
    ghost var where: map<Node, nat>

    ghost predicate Valid()
      reads this
    {
      Trees(page, node, where) && forall f :: f in free ==> f < |page| && f !in node
    }

    /** What table `root` says of page vpn. */
    ghost function At(root: nat, vpn: nat): (e: Entry)
      reads this
    {
      Lookup(page, where, root, vpn)
    }

    /** uvmcreate: an empty table; -1 where it returns 0. */
    method Uvmcreate() returns (root: int)
      requires Valid()
      modifies this
      ensures Valid() && SameMaps(old(page), old(where), page, where) && Keeps(old(where), where)
      ensures if root < 0 then old(free) == {} && unchanged(this)
              else Top(root) in where && Top(root) !in old(where) && EmptyFrom(page, where, root, 0)
    {
      if free == {} {
        return -1;
      }
      ghost var page0, node0, where0 := page, node, where;
      var r :| r in free;
      free := free - {r};
      page := page[r := Blank()];
      node, where := node[r := Top(r)], where[Top(r) := r];
      NewRoot(page0, node0, where0, r, page, node, where);
      root := r;
    }

    /** walk's loop body: the table page below entry i of table page f, made if missing and wanted;
        -1 where walk returns 0. */
    method Descend(f: nat, i: nat, alloc: bool) returns (g: int)
      requires Valid() && f in node && !node[f].Low? && i < ENTRIES && Placed(Child(node[f], i))
      modifies this
      ensures Valid() && SameMaps(old(page), old(where), page, where) && Keeps(old(where), where)
      ensures !alloc || g < 0 ==> unchanged(this)
      ensures if g < 0 then Child(node[f], i) !in where && (alloc ==> free == {})
              else g in node && node[g] == Child(old(node)[f], i) && Keeps(old(where), where)
    {
      assert Linked(page[f][i], Child(node[f], i), where);
      if IsValid(page[f][i]) {
        return page[f][i].ppn;
      }
      if !alloc || free == {} {
        return -1;
      }
      ghost var page0, node0, where0 := page, node, where;
      var new_ :| new_ in free;
      free := free - {new_};
      page := page[new_ := Blank()];
      page := page[f := page[f][i := Pointer(new_)]];
      node, where := node[new_ := Child(node[f], i)], where[Child(node[f], i) := new_];
      LinkKeepsTrees(page0, node0, where0, f, i, new_, page, node, where);
      forall root: nat, vpn: nat ensures Lookup(page, where, root, vpn) == Lookup(page0, where0, root, vpn) {
        LinkKeepsLookup(page0, node0, where0, f, i, new_, page, where, root, vpn);
      }
      g := new_;
    }

    /** walk: the bottom table page that has the entry for page vpn, at index PX(0, vpn); -1 where walk
        returns 0. No page's mapping changes, and without alloc nothing does. */
    method Walk(root: nat, vpn: nat, alloc: bool) returns (f: int)
      requires Valid() && Top(root) in where && vpn < MAXVPN
      modifies this
      ensures Valid() && SameMaps(old(page), old(where), page, where) && Keeps(old(where), where)
      ensures !alloc ==> unchanged(this)
      ensures if f < 0 then Bottom(root, vpn) !in where && (alloc ==> free == {})
              else f in node && node[f] == Bottom(root, vpn)
    {
      var level := 2;
      f := root;
      while level > 0
        invariant 0 <= level <= 2 && Valid() && f in node && node[f] == NodeAt(root, level, vpn)
        invariant SameMaps(old(page), old(where), page, where) && Keeps(old(where), where)
        invariant !alloc ==> unchanged(this)
      {
        f := Descend(f, PX(level, vpn), alloc);
        if f < 0 {
          assert Bottom(root, vpn) in where ==> Middle(root, PX(2, vpn)) in where;
          return;
        }
        level := level - 1;
      }
    }

    /** *pte = e, for the entry walk found. */
    method SetEntry(root: nat, vpn: nat, f: nat, e: Entry)
      requires Valid() && vpn < MAXVPN && f in node && node[f] == Bottom(root, vpn) && BottomOk(e)
      modifies this`page
      ensures Valid() && ChangedAt(old(page), page, where, root, vpn, e)
    {
      ghost var page0 := page;
      page := page[f := page[f][PX(0, vpn) := e]];
      SetKeepsTrees(page0, node, where, f, PX(0, vpn), e, page);
      forall root': nat, vpn': nat | vpn' < MAXVPN
        ensures Lookup(page, where, root', vpn') ==
          if root' == root && vpn' == vpn then e else Lookup(page0, where, root', vpn')
      {
        SetLookup(page0, node, where, root, vpn, f, e, page, root', vpn');
      }
    }

    /** mappages' loop body. */
    method MapPage(root: nat, vpn: nat, ppn: nat, perm: nat) returns (r: Outcome)
      requires Valid() && Top(root) in where && vpn < MAXVPN && perm % 2 == 0 && IsLeaf(Entry(ppn, perm))
      modifies this
      ensures Valid() && Keeps(old(where), where)
      ensures Remapped(old(page), old(where), page, where, root, vpn, if r.Done? then vpn + 1 else vpn, ppn,
                       perm + PTE_V)
      ensures r.Panic? <==> IsValid(old(At(root, vpn)))
      ensures r.NoMemory? ==> free == {}
    {
      var f := Walk(root, vpn, true);
      if f < 0 {
        return NoMemory;
      }
      if IsValid(page[f][PX(0, vpn)]) {
        return Panic;
      }
      SetEntry(root, vpn, f, Entry(ppn, perm + PTE_V));
      r := Done;
    }

    /** mappages of n pages: the first `done` of them are mapped, all of them when it returns 0; it stops
        at the first that is mapped already, or when no table page can be allocated. */
    method Mappages(root: nat, vpn: nat, n: nat, ppn: nat, perm: nat) returns (r: Outcome, ghost done: nat)
      requires Valid() && Top(root) in where && vpn + n <= MAXVPN && perm % 2 == 0 && IsLeaf(Entry(ppn, perm))
      modifies this
      ensures Valid() && Keeps(old(where), where) && done <= n
      ensures Remapped(old(page), old(where), page, where, root, vpn, vpn + done, ppn, perm + PTE_V)
      ensures r.Done? <==> done == n > 0
      ensures r.Panic? <==> n == 0 || (done < n && IsValid(old(At(root, vpn + done))))
      ensures r.NoMemory? ==> free == {}
    {
      done := 0;
      if n == 0 {
        return Panic, 0;
      }
      var v, end := vpn, vpn + n;
      while v < end
        invariant vpn <= v <= end && done == v - vpn && Valid() && Keeps(old(where), where)
        invariant Remapped(old(page), old(where), page, where, root, vpn, v, ppn, perm + PTE_V)
      {
        r := MapNext(root, vpn, v, ppn, perm, old(page), old(where));
        if !r.Done? {
          assert vpn + done == v;
          return;
        }
        v, done := v + 1, done + 1;
      }
      r := Done;
    }

    /** Page v, after those from vpn on. */
    method MapNext(root: nat, vpn: nat, v: nat, ppn: nat, perm: nat, ghost page0: seq<Table>,
                   ghost where0: map<Node, nat>)
      returns (r: Outcome)
      requires Valid() && Top(root) in where && vpn <= v < MAXVPN && perm % 2 == 0 && IsLeaf(Entry(ppn, perm))
      requires Remapped(page0, where0, page, where, root, vpn, v, ppn, perm + PTE_V)
      modifies this
      ensures Valid() && Keeps(old(where), where)
      ensures Remapped(page0, where0, page, where, root, vpn, if r.Done? then v + 1 else v, ppn, perm + PTE_V)
      ensures r.Panic? <==> IsValid(Lookup(page0, where0, root, v))
      ensures r.NoMemory? ==> free == {}
    {
      ghost var page1, where1 := page, where;
      assert Lookup(page1, where1, root, v) == Lookup(page0, where0, root, v);
      r := MapPage(root, v, ppn + (v - vpn), perm);
      if r.Done? {
        RemappedNext(page0, where0, page1, where1, page, where, root, vpn, v, ppn, perm + PTE_V);
      } else {
        RemappedNothing(page0, where0, page1, where1, page, where, root, vpn, v, ppn, perm + PTE_V);
      }
    }

    /** uvmunmap's loop body; `freed` is what is passed to kfree. */
    method UnmapEntry(root: nat, vpn: nat, doFree: bool) returns (freed: seq<nat>)
      requires Valid() && Top(root) in where && vpn < MAXVPN
      modifies this
      ensures Valid() && node == old(node) && where == old(where) && free == old(free)
      ensures Unmapped(old(page), page, where, root, vpn, vpn + 1)
      ensures freed == if doFree && IsValid(old(At(root, vpn))) then [old(At(root, vpn)).ppn] else []
    {
      freed := [];
      var f := Walk(root, vpn, false);
      if f < 0 || !IsValid(page[f][PX(0, vpn)]) {
        EmptyIsZero(page, node, where, root, vpn);
        return;
      }
      if doFree {
        freed := [page[f][PX(0, vpn)].ppn];
      }
      SetEntry(root, vpn, f, ZERO);
    }

    /** uvmunmap: pages [vpn, vpn + n) are unmapped, no other page is touched, and with do_free exactly
        the frames they were mapped to are freed, each once per page. */
    method Uvmunmap(root: nat, vpn: nat, n: nat, doFree: bool) returns (freed: seq<nat>)
      requires Valid() && Top(root) in where && vpn + n <= MAXVPN
      modifies this
      ensures Valid() && node == old(node) && where == old(where) && free == old(free)
      ensures Unmapped(old(page), page, where, root, vpn, vpn + n)
      ensures freed == if doFree then FramesOf(old(page), where, root, vpn, n) else []
    {
      freed := [];
      var a := 0;
      while a < n
        invariant 0 <= a <= n && Valid() && node == old(node) && where == old(where) && free == old(free)
        invariant Unmapped(old(page), page, where, root, vpn, vpn + a)
        invariant freed == if doFree then FramesOf(old(page), where, root, vpn, a) else []
      {
        freed := UnmapNext(root, vpn, a, doFree, freed, old(page));
        a := a + 1;
      }
    }

    method UnmapNext(root: nat, vpn: nat, a: nat, doFree: bool, freed: seq<nat>, ghost page0: seq<Table>)
      returns (freed': seq<nat>)
      requires Valid() && Top(root) in where && vpn + a < MAXVPN && Unmapped(page0, page, where, root, vpn, vpn + a)
      modifies this
      ensures Valid() && node == old(node) && where == old(where) && free == old(free)
      ensures Unmapped(page0, page, where, root, vpn, vpn + a + 1)
      ensures doFree && freed == FramesOf(page0, where, root, vpn, a) ==>
        freed' == FramesOf(page0, where, root, vpn, a + 1)
      ensures !doFree ==> freed' == freed
    {
      ghost var page1 := page;
      assert Lookup(page1, where, root, vpn + a) == Lookup(page0, where, root, vpn + a);
      var one := UnmapEntry(root, vpn + a, doFree);
      UnmappedNext(page0, page1, page, where, root, vpn, vpn + a);
      freed' := freed + one;
    }

    /** freewalk of the table page f, whose pages memory `was` shows as they were: false where it panics,
        which is exactly when a leaf is left; otherwise `freed`, what it passes to kfree, has each table
        page at or below f once. It writes no other table page. */
    method Freewalk(f: nat, ghost was: seq<Table>) returns (ok: bool, freed: seq<nat>)
      requires Trees(was, node, where) && f in node && Untouched(page, was, node, node[f], f, 0)
      modifies this`page
      ensures Elsewhere(old(page), page, node, node[f])
      ensures ok <==> Leafless(was, node, node[f])
      ensures ok ==> Lists(freed, Below(node, node[f]))
      decreases Height(node[f]), 1
    {
      freed := [];
      var i := 0;
      while i < ENTRIES
        invariant 0 <= i <= ENTRIES && Untouched(page, was, node, node[f], f, i)
        invariant Elsewhere(old(page), page, node, node[f])
        invariant Lists(freed, BelowFirst(node, node[f], i)) && LeaflessFirst(was, node, node[f], f, i)
      {
        ghost var page1 := page;
        var more;
        ok, more := FreeEntry(f, i, was);
        if !ok {
          return;
        }
        ListsNext(node, where, node[f], i, freed, more);
        freed := freed + more;
        i := i + 1;
      }
      LeaflessAll(was, node, where, f);
      BelowAll(node, where, node[f]);
      ListsJoin(freed, BelowFirst(node, node[f], ENTRIES), [f], {f});
      freed := freed + [f];
      ok := true;
    }

    /** freewalk's loop body at entry i. */
    method FreeEntry(f: nat, i: nat, ghost was: seq<Table>) returns (ok: bool, more: seq<nat>)
      requires Trees(was, node, where) && f in node && i < ENTRIES && Untouched(page, was, node, node[f], f, i)
      requires LeaflessFirst(was, node, node[f], f, i)
      modifies this`page
      ensures Elsewhere(old(page), page, node, node[f])
      ensures !ok ==> !Leafless(was, node, node[f])
      ensures ok ==> Untouched(page, was, node, node[f], f, i + 1) && LeaflessFirst(was, node, node[f], f, i + 1)
      ensures ok ==> if node[f].Low? then more == [] else Lists(more, Below(node, Child(node[f], i)))
      decreases Height(node[f]), 0
    {
      var pte := page[f][i];
      EntryKinds(was, node, where, f, i);
      if IsValid(pte) && !IsLeaf(pte) {
        ok, more := Freewalk(pte.ppn, was);
        UntouchedNext(old(page), page, was, node, node[f], f, i);
        if ok {
          LeaflessNext(was, node, where, f, i);
          page := page[f := page[f][i := ZERO]];
        }
      } else if IsValid(pte) {
        return false, [];
      } else {
        NothingBelow(was, node, where, f, i);
        LeaflessNext(was, node, where, f, i);
        return true, [];
      }
    }

    /** freewalk of a whole table, which is gone then; it panics exactly when a page is still mapped. */
    method FreeTree(root: nat) returns (ok: bool, tables: seq<nat>)
      requires Valid() && Top(root) in where
      modifies this`page, this`node, this`where
      ensures ok <==> EmptyFrom(old(page), old(where), root, 0)
      ensures ok ==> Valid() && Lists(tables, Below(old(node), Top(root))) && Top(root) !in where
      ensures ok ==> OthersSame(old(page), old(where), page, where, root)
    {
      LeaflessIsUnmapped(page, node, where, root);
      ghost var page0, node0, where0 := page, node, where;
      ok, tables := Freewalk(root, page);
      if ok {
        node, where :=
          map f | f in node && node[f].root != root :: node[f],
          map n | n in where && n.root != root :: where[n];
        DropTree(page0, page, node0, where0, root, node, where);
      }
    }

    /** uvmfree: user frames and then table pages are freed, each once; the table is gone and every other
        table says what it said. It panics exactly when a page at or above sz is still mapped. */
    method Uvmfree(root: nat, sz: nat) returns (ok: bool, frames: seq<nat>, tables: seq<nat>)
      requires Valid() && Top(root) in where && sz <= MAXVPN
      modifies this
      ensures frames == FramesOf(old(page), old(where), root, 0, sz)
      ensures ok <==> EmptyFrom(old(page), old(where), root, sz)
      ensures ok ==> Valid() && Lists(tables, Below(old(node), Top(root))) && Top(root) !in where
      ensures ok ==> OthersSame(old(page), old(where), page, where, root)
    {
      frames := Uvmunmap(root, 0, sz, true);
      EmptiedFrom(old(page), page, where, root, sz);
      ok, tables := FreeTree(root);
    }
  }

  /** Only what is said of page vpn of table root has changed. */
  ghost predicate ChangedAt(page: seq<Table>, page': seq<Table>, where: map<Node, nat>, root: nat, vpn: nat, e: Entry) {
    forall root': nat, vpn': nat :: vpn' < MAXVPN ==>
      Lookup(page', where, root', vpn') == if root' == root && vpn' == vpn then e else Lookup(page, where, root', vpn')
  }
}
