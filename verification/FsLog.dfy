/** The log of xv6/kernel/log.c as an object: its methods do what the C functions do, and their
    contracts say which steps of RedoLog they take. */
module FsLog {
  import opened Blocks
  import opened AtomicStore
  import R = RedoLog
  import BufferCache

  /** log_write's step in terms of the list it leaves. */
  lemma LogWriteStep<T>(s: R.State<T>, op: nat, b: nat, s': R.State<T>)
    requires R.Shape(s) && R.Enabled(s, R.LogWrite(op, b)) && b in s.home
    requires s' == s.(lh := if 0 <= R.Slot(s.lh, b) then s.lh else s.lh + [b], pins := s.pins + {b},
                      ops := s.ops[op := s.ops[op] + {b}], dirty := s.dirty - {b})
    ensures R.Follows(s, R.LogWrite(op, b), s') && R.Shape(s')
  {
    R.AbsorbLoggable(s.home, s.lh, b);
  }

  /** One pass of install_trans as a step. */
  lemma InstallStep<T>(s: R.State<T>, recovering: bool, t: nat, s': R.State<T>)
    requires R.Shape(s) && s.phase == (if recovering then R.Redoing(t) else R.Installing(t))
    requires t < |s.lh| <= |s.log|
    requires s' == s.(home := s.home[s.lh[t] := s.log[t]], cache := s.cache[s.lh[t] := s.log[t]],
                      pins := if recovering then s.pins else s.pins - {s.lh[t]},
                      phase := if recovering then R.Redoing(t + 1) else R.Installing(t + 1))
    ensures R.Follows(s, if recovering then R.RedoBlock else R.InstallBlock, s') && R.Shape(s')
  {
  }

  class Log<T> {
    // the disk
    var home: Contents<T>
    var log: seq<T>
    var head: seq<nat>
    // memory: the buffer cache and struct log
    var cache: Contents<T>
    var n: nat
    const block: array<nat>
    var outstanding: nat
    var committing: bool

    // Which operations are active and what they have logged, and where commit stands.
    ghost var ops: map<nat, set<nat>>
    ghost var pins: set<nat>
    ghost var dirty: map<nat, nat>
    ghost var phase: R.Phase

    ghost function View(): (s: R.State<T>)
      requires n <= block.Length
      reads this, block
    {
      R.State(home, log, head, cache, block[..n], ops, pins, dirty, phase)
    }

    ghost predicate Valid()
      reads this, block
    {
      && n <= block.Length == LOGBLOCKS
      && outstanding == |ops|
      && committing == (phase.Logging? || phase.Installing?)
      && R.Shape(View())
    }

    /** begin_op: one pass of its loop. False means the caller sleeps until a commit ends. */
    method BeginOp(op: nat) returns (ok: bool)
      requires Valid() && op !in ops && !phase.Boot? && !phase.Redoing?
      modifies this
      ensures Valid()
      ensures ok <==> !old(committing) && old(n) + (old(outstanding) + 1) * MAXOPBLOCKS <= LOGBLOCKS
      ensures if ok then R.Follows(old(View()), R.Begin(op), View()) else View() == old(View())
    {
      if committing {
        return false;
      } else if n + (outstanding + 1) * MAXOPBLOCKS > LOGBLOCKS {
        return false;
      }
      outstanding := outstanding + 1;
      ops := ops[op := {}];
      ok := true;
    }

    /** The scan of log_write: b joins the logged blocks unless it is there already. */
    method Absorb(b: nat)
      requires n < block.Length && R.Distinct(block[..n])
      modifies this`n, block
      ensures n <= block.Length
      ensures block[..n] == if 0 <= R.Slot(old(block[..n]), b) then old(block[..n]) else old(block[..n]) + [b]
    {
      var i := 0;
      while i < n && block[i] != b
        invariant i <= n
        invariant forall j :: 0 <= j < i ==> block[j] != b
      {
        i := i + 1;
      }
      ghost var lh := block[..n];
      assert i < n ==> lh[i] == b;
      block[i] := b;
      if i == n {
        n := n + 1;
      }
    }

    /** log_write: false where the C code panics. */
    method LogWrite(op: nat, b: nat) returns (ok: bool)
      requires Valid() && b in home && b in dirty && dirty[b] == op && R.WithinBudget(View(), op, b)
      modifies this, block
      ensures Valid()
      ensures ok <==> old(n) < LOGBLOCKS
      ensures if ok then R.Follows(old(View()), R.LogWrite(op, b), View()) else View() == old(View())
    {
      if n >= LOGBLOCKS || outstanding < 1 {
        return false;
      }
      ghost var s := View();
      Absorb(b);
      pins, ops, dirty := pins + {b}, ops[op := ops[op] + {b}], dirty - {b};
      LogWriteStep(s, op, b, View());
      ok := true;
    }

    /** bread: the latest contents of a home block, read in if no buffer holds it. */
    method Bread(b: nat) returns (x: T)
      requires Valid() && b in home
      modifies this`cache
      ensures Valid() && b in cache
      ensures x == R.Read(old(View()), b) == R.Read(View(), b)
      ensures old(b in cache) ==> View() == old(View())
      ensures !old(b in cache) ==> R.Follows(old(View()), R.Fill(b), View())
    {
      if b !in cache {
        cache := cache[b := home[b]];
      }
      x := cache[b];
    }

    /** write_log, while others use `others` buffers besides the n that hold logged blocks: one LogBlock step for
        each logged block, and nothing else changes; but with no buffer left for a log block the first bread
        panics, and nothing was written. */
    method WriteLog(others: nat) returns (ok: bool, ghost states: seq<R.State<T>>)
      requires Valid() && phase == R.Logging(0)
      modifies this`log, this`phase
      ensures ok <==> n == 0 || n + others < BufferCache.NBUF
      ensures !ok ==> unchanged(this)
      ensures Valid() && (ok ==> phase == R.Logging(n))
      ensures ok ==> R.Run(states, R.Repeat(R.LogBlock, n)) && states[0] == old(View()) && states[n] == View()
    {
      states := [View()];
      for tail := 0 to n
        invariant Valid() && phase == R.Logging(tail) && (tail > 0 ==> n + others < BufferCache.NBUF)
        invariant unchanged(this`home, this`cache, this`n, this`ops, this`pins, this`dirty)
        invariant |states| == tail + 1 && states[0] == old(View()) && states[tail] == View()
        invariant tail == 0 ==> log == old(log)
        invariant forall i :: 0 <= i < tail ==> R.Follows(states[i], R.LogBlock, states[i + 1])
      {
        if n + others >= BufferCache.NBUF {
          return false, [];
        }
        var dst := block[tail];
        var from := if dst in cache then cache[dst] else home[dst];
        log := log[tail := from];
        phase := R.Logging(tail + 1);
        states := states + [View()];
      }
      ok := true;
    }

    /** One pass of install_trans. */
    method InstallOne(recovering: bool, tail: nat)
      requires Valid() && (if recovering then phase == R.Redoing(tail) else phase == R.Installing(tail)) && tail < n
      modifies this`home, this`cache, this`pins, this`phase
      ensures Valid() && phase == (if recovering then R.Redoing(tail + 1) else R.Installing(tail + 1))
      ensures R.Follows(old(View()), if recovering then R.RedoBlock else R.InstallBlock, View())
    {
      ghost var s := View();
      var dst, x := block[tail], log[tail];
      home, cache := home[dst := x], cache[dst := x];
      if recovering {
        phase := R.Redoing(tail + 1);
      } else {
        pins, phase := pins - {dst}, R.Installing(tail + 1);
      }
      InstallStep(s, recovering, tail, View());
    }

    /** install_trans: copies every logged block home, one disk write each. */
    method InstallTrans(recovering: bool) returns (ghost states: seq<R.State<T>>)
      requires Valid() && phase == (if recovering then R.Redoing(0) else R.Installing(0))
      modifies this`home, this`cache, this`pins, this`phase
      ensures Valid() && phase == (if recovering then R.Redoing(n) else R.Installing(n))
      ensures R.Run(states, R.Repeat(if recovering then R.RedoBlock else R.InstallBlock, n))
      ensures states[0] == old(View()) && states[n] == View()
    {
      states := [View()];
      for tail := 0 to n
        invariant Valid() && phase == (if recovering then R.Redoing(tail) else R.Installing(tail))
        invariant |states| == tail + 1 && states[0] == old(View()) && states[tail] == View()
        invariant forall i :: 0 <= i < tail ==>
          R.Follows(states[i], if recovering then R.RedoBlock else R.InstallBlock, states[i + 1])
      {
        InstallOne(recovering, tail);
        states := states + [View()];
      }
    }

    /** write_head at the commit point: the header now records every logged block. */
    method CommitHead()
      requires Valid() && phase == R.Logging(n) && n > 0
      modifies this`head, this`phase
      ensures Valid() && phase == R.Installing(0)
      ensures R.Follows(old(View()), R.CommitHead, View())
    {
      head, phase := block[..n], R.Installing(0);
    }

    /** log.lh.n = 0 and write_head: the log is empty, on disk too. */
    method EraseHead(recovering: bool)
      requires Valid() && phase == (if recovering then R.Redoing(n) else R.Installing(n))
      modifies this`n, this`head, this`phase
      ensures Valid() && n == 0 && phase == (if recovering then R.Running else R.Logging(0))
      ensures R.Follows(old(View()), if recovering then R.RedoDone else R.EraseHead, View())
    {
      n, head, phase := 0, [], if recovering then R.Running else R.Logging(0);
    }

    /** commit: its disk writes are exactly CommitSteps, or none if bget panics. */
    method Commit(others: nat) returns (ok: bool, ghost states: seq<R.State<T>>)
      requires Valid() && phase == R.Logging(0)
      modifies this
      ensures ok <==> old(n) == 0 || old(n) + others < BufferCache.NBUF
      ensures !ok ==> unchanged(this)
      ensures Valid() && phase == R.Logging(0) && ops == old(ops) && (ok ==> n == 0)
      ensures ok ==> R.Run(states, R.CommitSteps(old(n))) && states[0] == old(View()) && states[|states| - 1] == View()
    {
      if n > 0 {
        ghost var k := n;
        ghost var logged;
        ok, logged := WriteLog(others);
        if !ok {
          return false, [];
        }
        CommitHead();
        ghost var installed := InstallTrans(false);
        EraseHead(false);
        states := logged + installed + [View()];
        R.CommitRun(logged, installed, View(), k);
      } else {
        ok, states := true, [View()];
      }
    }

    /** The first locked section of end_op: true when this operation was the last. */
    method LeaveOp(op: nat) returns (doCommit: bool)
      requires Valid() && phase.Running? && op in ops && forall b :: b in dirty ==> dirty[b] != op
      modifies this`outstanding, this`committing, this`ops, this`phase
      ensures Valid() && doCommit == (old(outstanding) == 1)
      ensures phase == if doCommit then R.Logging(0) else R.Running
      ensures R.Follows(old(View()), R.End(op), View())
    {
      outstanding := outstanding - 1;
      ops := ops - {op};
      doCommit := outstanding == 0;
      if doCommit {
        committing, phase := true, R.Logging(0);
      }
    }

    /** The second locked section of end_op. */
    method DoneCommitting()
      requires Valid() && phase == R.Logging(0) && n == 0
      modifies this`committing, this`phase
      ensures Valid() && phase.Running?
      ensures R.Follows(old(View()), R.Finish, View())
    {
      committing, phase := false, R.Running;
    }

    /** end_op: the last operation to end commits what all of them logged, unless bget panics. */
    method EndOp(op: nat, others: nat) returns (ok: bool, ghost states: seq<R.State<T>>)
      requires Valid() && phase.Running? && op in ops && forall b :: b in dirty ==> dirty[b] != op
      modifies this
      ensures Valid() && (ok ==> phase.Running?)
      ensures ok <==> old(outstanding) > 1 || old(n) == 0 || old(n) + others < BufferCache.NBUF
      ensures !ok || old(outstanding) > 1 ==> R.Follows(old(View()), R.End(op), View())
      ensures ok && old(outstanding) == 1 ==>
        && R.Run(states, R.CommitSteps(old(n)))
        && R.Follows(old(View()), R.End(op), states[0])
        && R.Follows(states[|states| - 1], R.Finish, View())
    {
      var doCommit := LeaveOp(op);
      ok, states := true, [];
      if doCommit {
        ok, states := Commit(others);
        if ok {
          DoneCommitting();
        }
      }
    }

    /** recover_from_log: its steps are ReadHead, a RedoBlock for each logged block, and RedoDone. */
    method RecoverFromLog() returns (ghost states: seq<R.State<T>>)
      requires Valid() && phase.Boot? && R.Shape(View())
      modifies this, block
      ensures Valid() && phase.Running? && n == 0
      ensures R.Run(states, R.Repeat(R.RedoBlock, |old(head)|))
      ensures R.Follows(old(View()), R.ReadHead, states[0])
      ensures R.Follows(states[|states| - 1], R.RedoDone, View())
    {
      ReadHead();
      states := InstallTrans(true);
      EraseHead(true);
    }

    /** read_head: the in-memory list becomes the one on disk. */
    method ReadHead()
      requires Valid() && phase.Boot?
      modifies this, block
      ensures Valid() && phase == R.Redoing(0) && n == |old(head)|
      ensures R.Follows(old(View()), R.ReadHead, View())
    {
      n := |head|;
      for i := 0 to n
        invariant n <= block.Length && n == |head|
        invariant unchanged(this`home, this`log, this`head, this`cache, this`outstanding, this`committing)
        invariant unchanged(this`ops, this`pins, this`dirty, this`phase)
        invariant block[..i] == head[..i]
      {
        block[i] := head[i];
      }
      assert block[..n] == head;
      phase := R.Redoing(0);
    }
  }
}
