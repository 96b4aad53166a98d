/** The log header block of xv6/kernel/log.c: a count followed by that many block numbers. */
module LogHeader {
  import opened Blocks

  /** The block numbers a header block records. Words past the count are ignored. */
  function Recorded(h: Block): (lh: seq<nat>)
    requires GetWord(h, 0) <= LOGBLOCKS
    ensures |lh| == GetWord(h, 0) && forall i :: 0 <= i < |lh| ==> lh[i] == GetWord(h, 1 + i)
  {
    RecordedUpTo(h, GetWord(h, 0))
  }

  function RecordedUpTo(h: Block, n: nat): (lh: seq<nat>)
    requires n <= LOGBLOCKS
    ensures |lh| == n && forall i :: 0 <= i < n ==> lh[i] == GetWord(h, 1 + i)
  {
    if n == 0 then [] else RecordedUpTo(h, n - 1) + [GetWord(h, n)]
  }

  /** write_head: whatever the header block held before, it records exactly lh afterwards. */
  method WriteHead(hb: Block, lh: seq<nat>) returns (r: Block)
    requires |lh| <= LOGBLOCKS && forall i :: 0 <= i < |lh| ==> lh[i] < WORD_LIMIT
    ensures GetWord(r, 0) <= LOGBLOCKS && Recorded(r) == lh
    ensures forall i: nat :: |lh| < i < WORDS ==> GetWord(r, i) == GetWord(hb, i)
  {
    r := SetWord(hb, 0, |lh|);
    for i := 0 to |lh|
      invariant GetWord(r, 0) == |lh|
      invariant forall j :: 0 <= j < i ==> GetWord(r, 1 + j) == lh[j]
      invariant forall j: nat :: |lh| < j < WORDS ==> GetWord(r, j) == GetWord(hb, j)
    {
      r := SetWord(r, 1 + i, lh[i]);
    }
    assert Recorded(r) == lh;
  }

  /** read_head: the list a header block records. */
  method ReadHead(hb: Block) returns (lh: seq<nat>)
    requires GetWord(hb, 0) <= LOGBLOCKS
    ensures lh == Recorded(hb)
  {
    var n := GetWord(hb, 0);
    lh := [];
    for i := 0 to n
      invariant lh == RecordedUpTo(hb, i)
    {
      lh := lh + [GetWord(hb, 1 + i)];
    }
  }
}
