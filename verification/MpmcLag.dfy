/** How far a local ticket may fall behind: the bounds of the refinement cannot be improved. For each kind of
    access there is a run of two threads in which one of them stalls for one ticket more than allowed,
    and then does what the unbounded protocol would not. */
module MpmcLag {
  import opened Words
  import opened MpmcQueue
  import opened MpmcSafety
  import opened MpmcWords

  /** A schedule of two threads that keeps them in step, and where it leads to. */
  ghost predicate Leads(capacity: nat, steps: seq<Step>, head: nat, tail: nat, threads: seq<Pc>) {
    && 2 <= capacity <= TWO_31 && IsPow2(capacity) && KeepsInStep(capacity, 2, steps) && |threads| == 2
    && var e := Execute(Exact, capacity, 2, steps); e.head == head && e.tail == tail && e.threads == threads
  }

  ghost predicate Idle(pc: Pc) { !Pushing(pc) && !Pulling(pc) }

  lemma Extend(capacity: nat, steps: seq<Step>, step: Step)
    requires 2 <= capacity <= TWO_31 && IsPow2(capacity) && KeepsInStep(capacity, 2, steps)
    requires MoverInStep(Execute(Exact, capacity, 2, steps), step)
    ensures Inv(Execute(Exact, capacity, 2, steps)) && KeepsInStep(capacity, 2, steps + [step])
    ensures Execute(Exact, capacity, 2, steps + [step]) == Next(Exact, Execute(Exact, capacity, 2, steps), step)
  {
    var all := steps + [step];
    WordsRefineTickets(capacity, 2, steps);
    assert all[..|steps|] == steps;
    if step.t < 2 {
      LagTrunc(Execute(Exact, capacity, 2, steps), step.t);
    }
    forall i | 0 <= i < |all|
      ensures MoverInStep(Execute(Word32, capacity, 2, all[..i]), all[i])
    {
      if i < |steps| {
        assert all[..i] == steps[..i];
      }
    }
  }

  /** With nobody holding a ticket, nothing is unpublished. */
  lemma NothingUnpublished(s: State)
    requires Inv(s) && forall u | 0 <= u < |s.threads| :: Idle(s.threads[u])
    ensures s.pushing == map[] && s.pulling == map[]
  {
  }

  lemma Begin(capacity: nat, steps: seq<Step>, head: nat, tail: nat, threads: seq<Pc>, u: nat, op: Op)
    requires Leads(capacity, steps, head, tail, threads) && u < 2 && threads[u].Ready?
    ensures Leads(capacity, steps + [Start(u, op)], head, tail,
                  threads[u := match op case Push(v) => PushLoad(v, Call(tail, 0)) case Pull => PullLoad(Call(head, 0))])
  {
    Extend(capacity, steps, Start(u, op));
  }

  /** The access after `pc` when nobody interferes. */
  function PushTurn(pc: Pc, tail: nat): Pc {
    match pc
    case PushLoad(v, c) => PushScan(tail, tail, v, c)
    case PushScan(l, k, v, c) => PushCas(l, k, v, c)
    case PushCas(l, k, v, c) => PushWrite(l, k, v)
    case PushWrite(l, k, v) => PushPublish(l, k)
    case _ => Ready(true)
  }

  ghost predicate PushReady(pc: Pc, tail: nat) {
    match pc
    case PushLoad(_, _) => true
    case PushScan(l, k, _, _) => l == k == tail
    case PushCas(l, k, _, _) => l == k == tail
    case PushWrite(_, _, _) => true
    case PushPublish(_, _) => true
    case _ => false
  }

  /** The scan of the tail finds its cell free. */
  lemma PushScanFindsRoom(s: State, u: nat)
    requires Inv(s) && u < |s.threads| && s.threads[u].PushScan? && PushReady(s.threads[u], s.tail) && s.tail < s.head + s.capacity
    requires forall w | 0 <= w < |s.threads| :: Idle(s.threads[w])
    ensures RunThread(Exact, s, u, false) == s.Goto(u, PushTurn(s.threads[u], s.tail))
  {
    NothingUnpublished(s);
    assert TicketInv(s, s.tail);
  }

  lemma PushTurnRuns(s: State, u: nat)
    requires Inv(s) && |s.threads| == 2 && u < 2 && Idle(s.threads[1 - u]) && PushReady(s.threads[u], s.tail)
    requires s.threads[u].PushScan? ==> s.tail < s.head + s.capacity
    ensures var s' := RunThread(Exact, s, u, false);
      && s'.head == s.head && s'.tail == (if s.threads[u].PushCas? then s.tail + 1 else s.tail)
      && s'.threads == s.threads[u := PushTurn(s.threads[u], s.tail)]
  {
    if s.threads[u].PushScan? {
      PushScanFindsRoom(s, u);
    }
  }

  lemma TakePushTurn(capacity: nat, steps: seq<Step>, head: nat, tail: nat, threads: seq<Pc>, u: nat)
    requires Leads(capacity, steps, head, tail, threads) && u < 2 && Idle(threads[1 - u]) && PushReady(threads[u], tail)
    requires threads[u].PushScan? ==> tail < head + capacity
    ensures Leads(capacity, steps + [Run(u, false)], head, if threads[u].PushCas? then tail + 1 else tail,
                  threads[u := PushTurn(threads[u], tail)])
  {
    var e := Execute(Exact, capacity, 2, steps);
    ReachableInv(capacity, 2, steps);
    assert Lag(e, u) == 0;
    Extend(capacity, steps, Run(u, false));
    PushTurnRuns(e, u);
  }

  ghost predicate PullReady(pc: Pc, head: nat) {
    match pc
    case PullLoad(_) => true
    case PullScan(l, k, _) => l == k == head
    case PullCas(l, k, _) => l == k == head
    case PullRead(_, _) => true
    case PullPublish(_, _, _) => true
    case _ => false
  }

  ghost predicate PullTurn(pc: Pc, head: nat, next: Pc) {
    match pc
    case PullLoad(c) => next == PullScan(head, head, c)
    case PullScan(l, k, c) => next == PullCas(l, k, c)
    case PullCas(l, k, c) => next == PullRead(l, k)
    case PullRead(l, k) => next.PullPublish?
    case _ => next == Ready(true)
  }

  /** The scan of the head finds its cell full. */
  lemma PullScanFindsValue(s: State, u: nat)
    requires Inv(s) && u < |s.threads| && s.threads[u].PullScan? && PullReady(s.threads[u], s.head) && s.head < s.tail
    requires forall w | 0 <= w < |s.threads| :: Idle(s.threads[w])
    ensures RunThread(Exact, s, u, false) == s.Goto(u, PullCas(s.threads[u].head, s.threads[u].loaded, s.threads[u].call))
  {
    NothingUnpublished(s);
    assert TicketInv(s, s.head);
  }

  lemma PullTurnRuns(s: State, u: nat)
    requires Inv(s) && |s.threads| == 2 && u < 2 && Idle(s.threads[1 - u]) && PullReady(s.threads[u], s.head)
    requires s.threads[u].PullScan? ==> s.head < s.tail
    ensures var s' := RunThread(Exact, s, u, false);
      && s'.head == (if s.threads[u].PullCas? then s.head + 1 else s.head) && s'.tail == s.tail
      && PullTurn(s.threads[u], s.head, s'.threads[u]) && s'.threads == s.threads[u := s'.threads[u]]
  {
    if s.threads[u].PullScan? {
      PullScanFindsValue(s, u);
    }
  }

  lemma TakePullTurn(capacity: nat, steps: seq<Step>, head: nat, tail: nat, threads: seq<Pc>, u: nat) returns (next: Pc)
    requires Leads(capacity, steps, head, tail, threads) && u < 2 && Idle(threads[1 - u]) && PullReady(threads[u], head)
    requires threads[u].PullScan? ==> head < tail
    ensures PullTurn(threads[u], head, next)
    ensures Leads(capacity, steps + [Run(u, false)], if threads[u].PullCas? then head + 1 else head, tail, threads[u := next])
  {
    var e := Execute(Exact, capacity, 2, steps);
    ReachableInv(capacity, 2, steps);
    assert Lag(e, u) == 0;
    Extend(capacity, steps, Run(u, false));
    PullTurnRuns(e, u);
    next := RunThread(Exact, e, u, false).threads[u];
  }

  function Left(pc: Pc): nat {
    match pc
    case PushLoad(_, _) => 5
    case PushScan(_, _, _, _) => 4
    case PushCas(_, _, _, _) => 3
    case PushWrite(_, _, _) => 2
    case PullLoad(_) => 5
    case PullScan(_, _, _) => 4
    case PullCas(_, _, _) => 3
    case PullRead(_, _) => 2
    case _ => 1
  }

  /** Running a push to its end. */
  lemma {:induction false} FinishPush(capacity: nat, steps: seq<Step>, head: nat, tail: nat, threads: seq<Pc>, u: nat)
    returns (after: seq<Step>)
    requires Leads(capacity, steps, head, tail, threads) && u < 2 && Idle(threads[1 - u]) && PushReady(threads[u], tail)
    requires Left(threads[u]) >= 3 ==> tail < head + capacity
    ensures Leads(capacity, after, head, if Left(threads[u]) >= 3 then tail + 1 else tail, threads[u := Ready(true)])
    decreases Left(threads[u])
  {
    TakePushTurn(capacity, steps, head, tail, threads, u);
    after := steps + [Run(u, false)];
    var next := threads[u := PushTurn(threads[u], tail)];
    if !threads[u].PushPublish? {
      after := FinishPush(capacity, after, head, if threads[u].PushCas? then tail + 1 else tail, next, u);
      assert next[u := Ready(true)] == threads[u := Ready(true)];
    }
  }

  lemma {:induction false} FinishPull(capacity: nat, steps: seq<Step>, head: nat, tail: nat, threads: seq<Pc>, u: nat)
    returns (after: seq<Step>)
    requires Leads(capacity, steps, head, tail, threads) && u < 2 && Idle(threads[1 - u]) && PullReady(threads[u], head)
    requires Left(threads[u]) >= 3 ==> head < tail
    ensures Leads(capacity, after, if Left(threads[u]) >= 3 then head + 1 else head, tail, threads[u := Ready(true)])
    decreases Left(threads[u])
  {
    var pc := TakePullTurn(capacity, steps, head, tail, threads, u);
    after := steps + [Run(u, false)];
    var next := threads[u := pc];
    if !threads[u].PullPublish? {
      after := FinishPull(capacity, after, if threads[u].PullCas? then head + 1 else head, tail, next, u);
      assert next[u := Ready(true)] == threads[u := Ready(true)];
    }
  }

  /** Thread 1 pushes a value, or pulls one, while thread 0 stands still. */
  lemma OnePush(capacity: nat, steps: seq<Step>, head: nat, tail: nat, threads: seq<Pc>) returns (after: seq<Step>)
    requires Leads(capacity, steps, head, tail, threads) && Idle(threads[0]) && threads[1].Ready? && tail < head + capacity
    ensures Leads(capacity, after, head, tail + 1, [threads[0], Ready(true)])
  {
    Begin(capacity, steps, head, tail, threads, 1, Push(0));
    after := FinishPush(capacity, steps + [Start(1, Push(0))], head, tail, threads[1 := PushLoad(0, Call(tail, 0))], 1);
    assert threads[1 := PushLoad(0, Call(tail, 0))][1 := Ready(true)] == [threads[0], Ready(true)];
  }

  lemma OnePull(capacity: nat, steps: seq<Step>, head: nat, tail: nat, threads: seq<Pc>) returns (after: seq<Step>)
    requires Leads(capacity, steps, head, tail, threads) && Idle(threads[0]) && threads[1].Ready? && head < tail
    ensures Leads(capacity, after, head + 1, tail, [threads[0], Ready(true)])
  {
    Begin(capacity, steps, head, tail, threads, 1, Pull);
    after := FinishPull(capacity, steps + [Start(1, Pull)], head, tail, threads[1 := PullLoad(Call(head, 0))], 1);
    assert threads[1 := PullLoad(Call(head, 0))][1 := Ready(true)] == [threads[0], Ready(true)];
  }

  /** n values pass through the empty queue. */
  lemma {:induction false} Pass(capacity: nat, steps: seq<Step>, k: nat, pc: Pc, n: nat) returns (after: seq<Step>)
    requires Leads(capacity, steps, k, k, [pc, Ready(true)]) && Idle(pc)
    ensures Leads(capacity, after, k + n, k + n, [pc, Ready(true)])
    decreases n
  {
    if n == 0 {
      after := steps;
    } else {
      after := OnePush(capacity, steps, k, k, [pc, Ready(true)]);
      after := OnePull(capacity, after, k, k + 1, [pc, Ready(true)]);
      after := Pass(capacity, after, k + 1, pc, n - 1);
    }
  }

  lemma {:induction false} Fill(capacity: nat, steps: seq<Step>, head: nat, tail: nat, pc: Pc, n: nat) returns (after: seq<Step>)
    requires Leads(capacity, steps, head, tail, [pc, Ready(true)]) && Idle(pc) && tail + n <= head + capacity
    ensures Leads(capacity, after, head, tail + n, [pc, Ready(true)])
    decreases n
  {
    if n == 0 {
      after := steps;
    } else {
      after := OnePush(capacity, steps, head, tail, [pc, Ready(true)]);
      after := Fill(capacity, after, head, tail + 1, pc, n - 1);
    }
  }

  /** The accesses that depend on a local ticket. */
  datatype Access = PushScanning | PushClaiming | PullScanning | PullClaiming

  ghost predicate At(pc: Pc, a: Access) {
    match a
    case PushScanning => pc.PushScan?
    case PushClaiming => pc.PushCas?
    case PullScanning => pc.PullScan?
    case PullClaiming => pc.PullCas?
  }

  /** The schedule leads the program to a state in which thread 0 is one ticket further behind than allowed.
      So far the program has done what the protocol does. Now it gives up where the protocol looks again,
      or claims a ticket where the protocol finds that it is taken. */
  ghost predicate GoesWrong(capacity: nat, a: Access, steps: seq<Step>)
    requires capacity > 0
  {
    var e, w := Execute(Exact, capacity, 2, steps), Execute(Word32, capacity, 2, steps);
    && KeepsInStep(capacity, 2, steps) && w == Trunc(e)
    && At(w.threads[0], a) && Lag(w, 0) == MaxLag(w, 0) + 1
    && var right, wrong := Next(Exact, e, Run(0, false)).threads[0], Next(Word32, w, Run(0, false)).threads[0];
      match a
      case PushScanning => right.PushLoad? && wrong == Ready(false)
      case PushClaiming => right.PushScan? && wrong.PushWrite?
      case PullScanning => right.PullLoad? && wrong == Ready(false)
      case PullClaiming => right.PullScan? && wrong.PullRead?
  }

  lemma Empty(capacity: nat)
    requires 2 <= capacity <= TWO_31 && IsPow2(capacity)
    ensures Leads(capacity, [], 0, 0, [Ready(false), Ready(false)])
  {
  }

  /** n values pass while thread 0 stands still. */
  lemma Overtake(capacity: nat, steps: seq<Step>, threads: seq<Pc>, n: nat) returns (after: seq<Step>)
    requires Leads(capacity, steps, 0, 0, threads) && Idle(threads[0]) && threads[1].Ready? && n >= 1
    ensures Leads(capacity, after, n, n, [threads[0], Ready(true)])
  {
    after := OnePush(capacity, steps, 0, 0, threads);
    after := OnePull(capacity, after, 0, 1, [threads[0], Ready(true)]);
    after := Pass(capacity, after, 1, threads[0], n - 1);
  }

  /** The cell of ticket 0 is also that of ticket 2^31. */
  lemma SameCell(capacity: nat)
    requires 2 <= capacity <= TWO_31 && IsPow2(capacity)
    ensures TWO_31 % capacity == 0 % capacity == 0
  {
    var n: nat :| capacity == Pow2(n);
    Pow2Values();
    if n > 31 {
      Pow2Monotonic(31, n);
    }
    var q := Pow2Divides(n, 31);
    DivModUnique(TWO_31, capacity, q, 0);
    DivModUnique(0, capacity, 0, 0);
  }

  lemma PushScanGoesWrong(e: State)
    requires Inv(e) && e.capacity <= TWO_31 && IsPow2(e.capacity) && e.head == e.tail == TWO_31 - e.capacity + 1
    requires |e.threads| == 2 && e.threads[1] == Ready(true) && e.threads[0].PushScan? && e.threads[0].tail == e.threads[0].loaded == 0
    ensures RunThread(Exact, e, 0, false).threads[0].PushLoad?
    ensures Trunc(e).WellFormed() && |Trunc(e).threads| == 2 && RunThread(Word32, Trunc(e), 0, false).threads[0] == Ready(false)
  {
    NothingUnpublished(e);
    SameCell(e.capacity);
    assert TicketInv(e, TWO_31);
    TruncCellOf(e, 0);
  }

  lemma PullScanGoesWrong(e: State)
    requires Inv(e) && e.capacity <= TWO_31 && IsPow2(e.capacity) && e.head == TWO_31 - e.capacity + 1 && e.tail == TWO_31 + 1
    requires |e.threads| == 2 && e.threads[1] == Ready(true) && e.threads[0].PullScan? && e.threads[0].head == e.threads[0].loaded == 0
    ensures RunThread(Exact, e, 0, false).threads[0].PullLoad?
    ensures Trunc(e).WellFormed() && |Trunc(e).threads| == 2 && RunThread(Word32, Trunc(e), 0, false).threads[0] == Ready(false)
  {
    NothingUnpublished(e);
    SameCell(e.capacity);
    assert TicketInv(e, TWO_31);
    TruncCellOf(e, 0);
  }

  lemma PushClaimGoesWrong(e: State)
    requires Inv(e) && e.tail == TWO_32
    requires |e.threads| == 2 && e.threads[0].PushCas? && e.threads[0].tail == e.threads[0].loaded == 0
    ensures RunThread(Exact, e, 0, false).threads[0].PushScan?
    ensures Trunc(e).WellFormed() && |Trunc(e).threads| == 2 && RunThread(Word32, Trunc(e), 0, false).threads[0].PushWrite?
  {
  }

  lemma PullClaimGoesWrong(e: State)
    requires Inv(e) && e.head == TWO_32
    requires |e.threads| == 2 && e.threads[0].PullCas? && e.threads[0].head == e.threads[0].loaded == 0
    ensures RunThread(Exact, e, 0, false).threads[0].PullScan?
    ensures Trunc(e).WellFormed() && |Trunc(e).threads| == 2 && RunThread(Word32, Trunc(e), 0, false).threads[0].PullRead?
  {
  }

  /** Thread 0 stands at ticket 0, and the others have gone too far ahead. */
  ghost predicate TooFar(capacity: nat, pc: Pc, head: nat, tail: nat) {
    match pc
    case PushScan(l, k, _, _) => l == k == 0 && head == tail == TWO_31 - capacity + 1
    case PushCas(l, k, _, _) => l == k == 0 && tail == TWO_32
    case PullScan(l, k, _) => l == k == 0 && head == TWO_31 - capacity + 1 && tail == TWO_31 + 1
    case PullCas(l, k, _) => l == k == 0 && head == TWO_32
    case _ => false
  }

  lemma Outrun(capacity: nat, a: Access, steps: seq<Step>, head: nat, tail: nat, pc: Pc)
    requires Leads(capacity, steps, head, tail, [pc, Ready(true)]) && At(pc, a) && TooFar(capacity, pc, head, tail)
    ensures GoesWrong(capacity, a, steps)
  {
    WordsRefineTickets(capacity, 2, steps);
    var e := Execute(Exact, capacity, 2, steps);
    LagTrunc(e, 0);
    match a {
      case PushScanning => PushScanGoesWrong(e);
      case PushClaiming => PushClaimGoesWrong(e);
      case PullScanning => PullScanGoesWrong(e);
      case PullClaiming => PullClaimGoesWrong(e);
    }
  }

  /** Thread 0 has read the sequence number at the tail, or at the head, of an empty queue next. */
  lemma AboutToScan(capacity: nat, op: Op) returns (steps: seq<Step>, pc: Pc)
    requires 2 <= capacity <= TWO_31 && IsPow2(capacity)
    ensures Leads(capacity, steps, 0, 0, [pc, Ready(false)])
    ensures if op.Push? then pc == PushScan(0, 0, op.value, Call(0, 0)) else pc == PullScan(0, 0, Call(0, 0))
  {
    Empty(capacity);
    var idle := [Ready(false), Ready(false)];
    Begin(capacity, [], 0, 0, idle, 0, op);
    steps := [] + [Start(0, op)] + [Run(0, false)];
    if op.Push? {
      pc := PushScan(0, 0, op.value, Call(0, 0));
      TakePushTurn(capacity, [] + [Start(0, op)], 0, 0, idle[0 := PushLoad(op.value, Call(0, 0))], 0);
      assert idle[0 := PushLoad(op.value, Call(0, 0))][0 := pc] == [pc, Ready(false)];
    } else {
      pc := TakePullTurn(capacity, [] + [Start(0, op)], 0, 0, idle[0 := PullLoad(Call(0, 0))], 0);
      assert idle[0 := PullLoad(Call(0, 0))][0 := pc] == [pc, Ready(false)];
    }
  }

  lemma PushScanningIsSharp(capacity: nat) returns (steps: seq<Step>)
    requires 2 <= capacity <= TWO_31 && IsPow2(capacity)
    ensures GoesWrong(capacity, PushScanning, steps)
  {
    var pc;
    var n := TWO_31 - capacity + 1;
    steps, pc := AboutToScan(capacity, Push(0));
    steps := Overtake(capacity, steps, [pc, Ready(false)], n);
    Outrun(capacity, PushScanning, steps, n, n, pc);
  }

  lemma PullScanningIsSharp(capacity: nat) returns (steps: seq<Step>)
    requires 2 <= capacity <= TWO_31 && IsPow2(capacity)
    ensures GoesWrong(capacity, PullScanning, steps)
  {
    var pc;
    var n := TWO_31 - capacity + 1;
    steps, pc := AboutToScan(capacity, Pull);
    steps := Overtake(capacity, steps, [pc, Ready(false)], n);
    steps := Fill(capacity, steps, n, n, pc, capacity);
    Outrun(capacity, PullScanning, steps, n, n + capacity, pc);
  }

  lemma PushClaimingIsSharp(capacity: nat) returns (steps: seq<Step>)
    requires 2 <= capacity <= TWO_31 && IsPow2(capacity)
    ensures GoesWrong(capacity, PushClaiming, steps)
  {
    var pc;
    steps, pc := AboutToScan(capacity, Push(0));
    TakePushTurn(capacity, steps, 0, 0, [pc, Ready(false)], 0);
    var claiming := [pc, Ready(false)][0 := PushCas(0, 0, 0, Call(0, 0))];
    steps := Overtake(capacity, steps + [Run(0, false)], claiming, TWO_32);
    Outrun(capacity, PushClaiming, steps, TWO_32, TWO_32, PushCas(0, 0, 0, Call(0, 0)));
  }

  /** Thread 0 is about to claim the only value. */
  lemma AboutToPull(capacity: nat) returns (steps: seq<Step>, pc: Pc)
    requires 2 <= capacity <= TWO_31 && IsPow2(capacity)
    ensures Leads(capacity, steps, 0, 1, [pc, Ready(true)]) && pc == PullCas(0, 0, Call(0, 0))
  {
    steps, pc := AboutToScan(capacity, Pull);
    steps := OnePush(capacity, steps, 0, 0, [pc, Ready(false)]);
    var next := TakePullTurn(capacity, steps, 0, 1, [pc, Ready(true)], 0);
    assert [pc, Ready(true)][0 := next] == [next, Ready(true)];
    steps, pc := steps + [Run(0, false)], next;
  }

  lemma PullClaimingIsSharp(capacity: nat) returns (steps: seq<Step>)
    requires 2 <= capacity <= TWO_31 && IsPow2(capacity)
    ensures GoesWrong(capacity, PullClaiming, steps)
  {
    var pc;
    steps, pc := AboutToPull(capacity);
    steps := OnePull(capacity, steps, 0, 1, [pc, Ready(true)]);
    steps := Pass(capacity, steps, 1, pc, TWO_32 - 1);
    Outrun(capacity, PullClaiming, steps, TWO_32, TWO_32, pc);
  }

  /** The bound on the lag is sharp, for every capacity and for each of the four accesses. */
  lemma LagBoundIsSharp(capacity: nat, a: Access)
    requires 2 <= capacity <= TWO_31 && IsPow2(capacity)
    ensures exists steps :: GoesWrong(capacity, a, steps)
  {
    var steps;
    match a {
      case PushScanning => steps := PushScanningIsSharp(capacity);
      case PushClaiming => steps := PushClaimingIsSharp(capacity);
      case PullScanning => steps := PullScanningIsSharp(capacity);
      case PullClaiming => steps := PullClaimingIsSharp(capacity);
    }
    assert GoesWrong(capacity, a, steps);
  }
}
