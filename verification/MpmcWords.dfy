/** The program's 32-bit counters and signed differences do exactly what the unbounded protocol
    does, through any number of wraps, as long as no local ticket falls too far behind. */
module MpmcWords {
  import opened Words
  import opened Bits
  import opened MpmcQueue
  import opened MpmcSafety

  function TruncPc(pc: Pc): Pc {
    match pc
    case Ready(_) => pc
    case PushLoad(_, _) => pc
    case PushScan(tail, k, v, c) => PushScan(Wrap32(tail), k, v, c)
    case PushCas(tail, k, v, c) => PushCas(Wrap32(tail), k, v, c)
    case PushWrite(tail, n, v) => PushWrite(Wrap32(tail), n, v)
    case PushPublish(tail, n) => PushPublish(Wrap32(tail), n)
    case PullLoad(_) => pc
    case PullScan(head, k, c) => PullScan(Wrap32(head), k, c)
    case PullCas(head, k, c) => PullCas(Wrap32(head), k, c)
    case PullRead(head, n) => PullRead(Wrap32(head), n)
    case PullPublish(head, n, v) => PullPublish(Wrap32(head), n, v)
  }

  function TruncCell(c: Cell): Cell { c.(sequence := Wrap32(c.sequence)) }

  function TruncCells(cells: seq<Cell>): seq<Cell> { seq(|cells|, i requires 0 <= i < |cells| => TruncCell(cells[i])) }

  function TruncThreads(threads: seq<Pc>): seq<Pc> { seq(|threads|, i requires 0 <= i < |threads| => TruncPc(threads[i])) }

  /** The 32-bit state that stands for an unbounded one; the history is the same. */
  function Trunc(s: State): State {
    s.(cells := TruncCells(s.cells), head := Wrap32(s.head), tail := Wrap32(s.tail), threads := TruncThreads(s.threads))
  }

  /** How far thread t's local ticket is behind the shared counter. */
  ghost function Lag(s: State, t: nat): int
    requires t < |s.threads|
  {
    match s.threads[t]
    case PushScan(_, k, _, _) => |s.pushed| - k
    case PushCas(_, k, _, _) => |s.pushed| - k
    case PullScan(_, k, _) => s.claimed - k
    case PullCas(_, k, _) => s.claimed - k
    case _ => 0
  }

  /** How far it may be behind: a scan tells old and new sequence numbers apart by their signed difference,
      a compare-exchange by their value. */
  ghost function MaxLag(s: State, t: nat): int
    requires t < |s.threads|
  {
    if s.threads[t].PushCas? || s.threads[t].PullCas? then TWO_32 - 1 else TWO_31 - s.capacity
  }

  ghost predicate InStep(s: State, t: nat)
    requires t < |s.threads|
  {
    Lag(s, t) <= MaxLag(s, t)
  }

  /** The thread whose turn it is, is in step. */
  ghost predicate MoverInStep(s: State, step: Step) { step.t < |s.threads| ==> InStep(s, step.t) }

  /** A wrapped ticket selects the same cell, because the capacity divides 2^32. */
  lemma TruncCellOf(s: State, x: int)
    requires s.WellFormed() && IsPow2(s.capacity) && s.capacity <= TWO_31
    ensures Trunc(s).WellFormed()
    ensures Trunc(s).Slot(Wrap32(x)) == s.Slot(x)
    ensures Trunc(s).CellOf(Wrap32(x)) == TruncCell(s.CellOf(x))
  {
    var q := CapacityDivides(s.capacity);
    ModMod(x, s.capacity, q);
  }

  /** `&buffer[x & buffer_mask]` on the wrapped counter is the cell of the unbounded ticket. */
  lemma MaskSelectsSlot(s: State, x: int)
    requires s.WellFormed() && IsPow2(s.capacity) && s.capacity <= TWO_31
    ensures And(Wrap32(x), s.capacity - 1) == s.Slot(x)
  {
    TruncCellOf(s, x);
    var n: nat :| s.capacity == Pow2(n);
    MaskIsRemainder(Wrap32(x), n);
  }

  lemma TruncGoto(s: State, t: nat, pc: Pc)
    requires t < |s.threads|
    ensures Trunc(s.Goto(t, pc)) == Trunc(s).Goto(t, TruncPc(pc))
    ensures Trunc(s).threads[t] == TruncPc(s.threads[t])
  {
    assert TruncThreads(s.threads[t := pc]) == TruncThreads(s.threads)[t := TruncPc(pc)];
  }

  lemma TruncStore(s: State, i: nat, c: Cell)
    requires i < |s.cells|
    ensures TruncCells(s.cells[i := c]) == TruncCells(s.cells)[i := TruncCell(c)]
  {
  }

  lemma TruncPushScan(s: State, t: nat)
    requires s.WellFormed() && t < |s.threads| && IsPow2(s.capacity) && s.capacity <= TWO_31
    requires s.threads[t].PushScan?
    requires var l := s.threads[t].tail; 0 - TWO_31 <= s.CellOf(l).sequence - l < TWO_31
    ensures Trunc(RunThread(Exact, s, t, false)) == RunThread(Word32, Trunc(s), t, false)
  {
    var l := s.threads[t].tail;
    TruncGoto(s, t, RunThread(Exact, s, t, false).threads[t]);
    TruncCellOf(s, l);
    WrapDiff(s.CellOf(l).sequence, l);
  }

  lemma TruncPullScan(s: State, t: nat)
    requires s.WellFormed() && t < |s.threads| && IsPow2(s.capacity) && s.capacity <= TWO_31
    requires s.threads[t].PullScan?
    requires var l := s.threads[t].head; 0 - TWO_31 <= s.CellOf(l).sequence - (l + 1) < TWO_31
    ensures Trunc(RunThread(Exact, s, t, false)) == RunThread(Word32, Trunc(s), t, false)
  {
    var l := s.threads[t].head;
    TruncGoto(s, t, RunThread(Exact, s, t, false).threads[t]);
    TruncCellOf(s, l);
    WrapAdd(l, 1);
    WrapDiff(s.CellOf(l).sequence, l + 1);
  }

  lemma TruncPushCas(s: State, t: nat, spurious: bool)
    requires s.WellFormed() && t < |s.threads| && s.threads[t].PushCas? && 0 <= s.tail - s.threads[t].tail < TWO_32
    ensures Trunc(RunThread(Exact, s, t, spurious)) == RunThread(Word32, Trunc(s), t, spurious)
  {
    WrapEqual(s.tail, s.threads[t].tail);
    WrapAdd(s.threads[t].tail, 1);
    TruncGoto(s, t, RunThread(Exact, s, t, spurious).threads[t]);
  }

  lemma TruncPullCas(s: State, t: nat, spurious: bool)
    requires s.WellFormed() && t < |s.threads| && s.threads[t].PullCas? && 0 <= s.head - s.threads[t].head < TWO_32
    ensures Trunc(RunThread(Exact, s, t, spurious)) == RunThread(Word32, Trunc(s), t, spurious)
  {
    WrapEqual(s.head, s.threads[t].head);
    WrapAdd(s.threads[t].head, 1);
    TruncGoto(s, t, RunThread(Exact, s, t, spurious).threads[t]);
  }

  lemma TruncPushAccess(s: State, t: nat)
    requires s.WellFormed() && t < |s.threads| && IsPow2(s.capacity) && s.capacity <= TWO_31
    requires Pushing(s.threads[t])
    ensures Trunc(RunThread(Exact, s, t, false)) == RunThread(Word32, Trunc(s), t, false)
  {
    var s' := RunThread(Exact, s, t, false);
    var l := s.threads[t].tail;
    TruncCellOf(s, l);
    TruncGoto(s, t, s'.threads[t]);
    TruncStore(s, s.Slot(l), s'.cells[s.Slot(l)]);
    WrapAdd(l, 1);
  }

  lemma TruncPullAccess(s: State, t: nat)
    requires s.WellFormed() && t < |s.threads| && IsPow2(s.capacity) && s.capacity <= TWO_31
    requires Pulling(s.threads[t])
    ensures Trunc(RunThread(Exact, s, t, false)) == RunThread(Word32, Trunc(s), t, false)
  {
    var s' := RunThread(Exact, s, t, false);
    var l := s.threads[t].head;
    TruncCellOf(s, l);
    TruncGoto(s, t, s'.threads[t]);
    TruncStore(s, s.Slot(l), s'.cells[s.Slot(l)]);
    WrapAdd(l, s.capacity);
  }

  lemma TruncLoad(s: State, step: Step)
    requires s.WellFormed() && step.t < |s.threads|
    requires step.Start? || s.threads[step.t].Ready? || s.threads[step.t].PushLoad? || s.threads[step.t].PullLoad?
    ensures Trunc(Next(Exact, s, step)) == Next(Word32, Trunc(s), step)
  {
    TruncGoto(s, step.t, Next(Exact, s, step).threads[step.t]);
  }

  /** The signed differences stay within half the range, given the bound on the lag. */
  lemma InStepBounds(s: State, t: nat)
    requires Inv(s) && t < |s.threads| && InStep(s, t)
    ensures s.threads[t].PushScan? ==> var l := s.threads[t].tail; 0 - TWO_31 <= s.CellOf(l).sequence - l < TWO_31
    ensures s.threads[t].PullScan? ==> var l := s.threads[t].head; 0 - TWO_31 <= s.CellOf(l).sequence - (l + 1) < TWO_31
    ensures s.threads[t].PushCas? ==> 0 <= s.tail - s.threads[t].tail < TWO_32
    ensures s.threads[t].PullCas? ==> 0 <= s.head - s.threads[t].head < TWO_32
  {
    assert ThreadInv(s, t);
    if s.threads[t].PushScan? {
      PushScanMeaning(s, s.threads[t].tail);
    } else if s.threads[t].PullScan? {
      PullScanMeaning(s, s.threads[t].head);
    }
  }

  lemma TruncPush(s: State, t: nat, spurious: bool)
    requires Inv(s) && t < |s.threads| && InStep(s, t) && IsPow2(s.capacity) && s.capacity <= TWO_31
    requires s.threads[t].PushScan? || s.threads[t].PushCas? || Pushing(s.threads[t])
    ensures Trunc(RunThread(Exact, s, t, spurious)) == RunThread(Word32, Trunc(s), t, spurious)
  {
    InStepBounds(s, t);
    TruncGoto(s, t, s.threads[t]);
    if s.threads[t].PushScan? {
      TruncPushScan(s, t);
    } else if s.threads[t].PushCas? {
      TruncPushCas(s, t, spurious);
    } else {
      TruncPushAccess(s, t);
    }
  }

  lemma TruncPull(s: State, t: nat, spurious: bool)
    requires Inv(s) && t < |s.threads| && InStep(s, t) && IsPow2(s.capacity) && s.capacity <= TWO_31
    requires s.threads[t].PullScan? || s.threads[t].PullCas? || Pulling(s.threads[t])
    ensures Trunc(RunThread(Exact, s, t, spurious)) == RunThread(Word32, Trunc(s), t, spurious)
  {
    InStepBounds(s, t);
    TruncGoto(s, t, s.threads[t]);
    if s.threads[t].PullScan? {
      TruncPullScan(s, t);
    } else if s.threads[t].PullCas? {
      TruncPullCas(s, t, spurious);
    } else {
      TruncPullAccess(s, t);
    }
  }

  /** One step of the program is one step of the unbounded protocol. */
  lemma TruncNext(s: State, step: Step)
    requires Inv(s) && MoverInStep(s, step) && IsPow2(s.capacity) && s.capacity <= TWO_31
    ensures Trunc(s).WellFormed() && Trunc(Next(Exact, s, step)) == Next(Word32, Trunc(s), step)
  {
    if step.t < |s.threads| {
      var t, pc := step.t, s.threads[step.t];
      TruncGoto(s, t, pc);
      if step.Start? || pc.Ready? || pc.PushLoad? || pc.PullLoad? {
        TruncLoad(s, step);
      } else if pc.PushScan? || pc.PushCas? || Pushing(pc) {
        TruncPush(s, t, step.spurious);
      } else {
        TruncPull(s, t, step.spurious);
      }
    }
  }

  /** Throughout the program's run of a schedule, every thread is in step when its turn comes. */
  ghost predicate KeepsInStep(capacity: nat, threads: nat, steps: seq<Step>)
    requires capacity > 0
  {
    forall i :: 0 <= i < |steps| ==> MoverInStep(Execute(Word32, capacity, threads, steps[..i]), steps[i])
  }

  /** Being in step is a matter of the history, which truncation keeps. */
  lemma LagTrunc(s: State, t: nat)
    requires t < |s.threads|
    ensures |Trunc(s).threads| == |s.threads| && Lag(Trunc(s), t) == Lag(s, t) && MaxLag(Trunc(s), t) == MaxLag(s, t)
  {
    TruncGoto(s, t, s.threads[t]);
  }

  /** The program refines the unbounded protocol, through any number of counter wraps. */
  lemma {:induction false} WordsRefineTickets(capacity: nat, threads: nat, steps: seq<Step>)
    requires 2 <= capacity <= TWO_31 && IsPow2(capacity) && KeepsInStep(capacity, threads, steps)
    ensures Inv(Execute(Exact, capacity, threads, steps))
    ensures Execute(Word32, capacity, threads, steps) == Trunc(Execute(Exact, capacity, threads, steps))
  {
    ReachableInv(capacity, threads, steps);
    if steps == [] {
      assert TruncCells(Init(capacity, threads).cells) == Init(capacity, threads).cells;
      assert TruncThreads(Init(capacity, threads).threads) == Init(capacity, threads).threads;
    } else {
      var before := steps[..|steps| - 1];
      assert forall i :: 0 <= i < |before| ==> before[..i] == steps[..i];
      WordsRefineTickets(capacity, threads, before);
      var s := Execute(Exact, capacity, threads, before);
      var step := steps[|steps| - 1];
      assert MoverInStep(Trunc(s), step);
      if step.t < |s.threads| {
        LagTrunc(s, step.t);
      }
      TruncNext(s, step);
    }
  }
}
