/** What every interleaving of the unbounded protocol keeps. */
module MpmcSafety {
  import opened Words
  import opened MpmcQueue

  ghost predicate Pushing(pc: Pc) { pc.PushWrite? || pc.PushPublish? }

  ghost predicate Pulling(pc: Pc) { pc.PullRead? || pc.PullPublish? }

  ghost predicate HoldsPush(pc: Pc, k: nat) { Pushing(pc) && pc.ticket == k }

  ghost predicate HoldsPull(pc: Pc, k: nat) { Pulling(pc) && pc.ticket == k }

  /** The counters, and the bookkeeping of the tickets. */
  ghost predicate CountersInv(s: State) {
    && s.capacity >= 2
    && s.WellFormed()
    && s.tail == |s.pushed|
    && s.head == s.claimed
    && s.head <= s.tail <= s.head + s.capacity
    && (forall k <- s.pushing :: s.head <= k < s.tail)
    && (forall k <- s.pulling :: s.tail - s.capacity <= k < s.head)
  }

  /** The cell of ticket k, for the `capacity` tickets from head on: before tail it is being filled
      (sequence k) or full (k + 1) with k's value; from tail on it is free (k) or still being
      emptied of ticket k - capacity. */
  ghost predicate TicketInv(s: State, k: int)
    requires CountersInv(s) && s.head <= k < s.head + s.capacity
  {
    var cell := s.CellOf(k);
    if k < s.tail then
      if k in s.pushing then cell.sequence == k
      else cell.sequence == k + 1 && cell.data == s.pushed[k]
    else
      if k - s.capacity in s.pulling then cell.sequence == k - s.capacity + 1
      else cell.sequence == k
  }

  ghost predicate ThreadInv(s: State, t: nat)
    requires CountersInv(s) && t < |s.threads|
  {
    match s.threads[t]
    case Ready(_) => true
    case PushLoad(_, c) => c.from + c.tries <= s.tail
    case PushScan(l, k, _, c) => l == k && c.from + c.tries <= l <= s.tail
    case PushCas(l, k, _, c) => l == k && c.from + c.tries <= l <= s.tail && (l == s.tail ==> s.CellOf(l).sequence == l)
    case PushWrite(l, n, v) => l == n && Pushes(s, t, n) && s.pushed[n] == v
    case PushPublish(l, n) => l == n && Pushes(s, t, n) && s.pushed[n] == s.CellOf(l).data
    case PullLoad(c) => c.from + c.tries <= s.head
    case PullScan(l, k, c) => l == k && c.from + c.tries <= l <= s.head
    case PullCas(l, k, c) => l == k && c.from + c.tries <= l <= s.head && (l == s.head ==> s.CellOf(l).sequence == l + 1)
    case PullRead(l, n) => l == n && Pulls(s, t, n) && s.pushed[n] == s.CellOf(l).data
    case PullPublish(l, n, v) => l == n && Pulls(s, t, n) && s.pushed[n] == v
  }

  /** Thread t is on record as the holder of the unpublished push (pull) ticket k. */
  ghost predicate Pushes(s: State, t: nat, k: nat) { k in s.pushing && s.pushing[k] == t }

  ghost predicate Pulls(s: State, t: nat, k: nat) { k in s.pulling && s.pulling[k] == t }

  /** Each ticket taken and not yet published is held by the thread on record. */
  ghost predicate OwnersInv(s: State)
    requires CountersInv(s)
  {
    && (forall k <- s.pushing :: s.pushing[k] < |s.threads| && HoldsPush(s.threads[s.pushing[k]], k))
    && (forall k <- s.pulling :: s.pulling[k] < |s.threads| && HoldsPull(s.threads[s.pulling[k]], k))
  }

  /** A pull ticket is in progress or its value has been returned; it is the value pushed. */
  ghost predicate HistoryInv(s: State)
    requires CountersInv(s)
  {
    && (forall k: nat :: k in s.pulled <==> k < s.head && k !in s.pulling)
    && (forall k <- s.pulled :: s.pulled[k] == s.pushed[k])
  }

  ghost predicate CellsInv(s: State)
    requires CountersInv(s)
  {
    forall k :: s.head <= k < s.head + s.capacity ==> TicketInv(s, k)
  }

  ghost predicate ThreadsInv(s: State)
    requires CountersInv(s)
  {
    forall t :: 0 <= t < |s.threads| ==> ThreadInv(s, t)
  }

  ghost predicate Inv(s: State) {
    && CountersInv(s)
    && OwnersInv(s)
    && HistoryInv(s)
    && CellsInv(s)
    && ThreadsInv(s)
  }

  ghost predicate SameTicket(a: Pc, b: Pc) {
    && Pushing(a) == Pushing(b)
    && Pulling(a) == Pulling(b)
    && (Pushing(a) || Pulling(a) ==> a.ticket == b.ticket)
  }

  /** Moving a thread that keeps its ticket, if it has one, disturbs nobody else. */
  lemma GotoKeepsInv(s: State, t: nat, pc: Pc)
    requires Inv(s) && t < |s.threads| && SameTicket(s.threads[t], pc)
    requires ThreadInv(s.Goto(t, pc), t)
    ensures Inv(s.Goto(t, pc))
  {
    var s' := s.Goto(t, pc);
    forall k | s'.head <= k < s'.head + s'.capacity
      ensures TicketInv(s', k)
    {
      assert TicketInv(s, k);
    }
    forall u | 0 <= u < |s'.threads|
      ensures ThreadInv(s', u)
    {
      assert ThreadInv(s, u);
    }
  }

  lemma PushClaimRoom(s: State)
    requires Inv(s) && s.CellOf(s.tail).sequence == s.tail
    ensures s.tail < s.head + s.capacity && s.tail - s.capacity !in s.pulling
  {
    ModRepeat(s.head, s.capacity);
    assert TicketInv(s, s.head);
    assert s.tail < s.head + s.capacity ==> TicketInv(s, s.tail);
  }

  lemma PushClaimKeepsCounters(s: State, t: nat)
    requires Inv(s) && t < |s.threads| && s.threads[t].PushCas? && s.threads[t].tail == s.tail
    ensures var s' := RunThread(Exact, s, t, false); CountersInv(s') && HistoryInv(s')
  {
    assert ThreadInv(s, t);
    PushClaimRoom(s);
  }

  lemma PushClaimKeepsOwners(s: State, t: nat)
    requires Inv(s) && t < |s.threads| && s.threads[t].PushCas? && s.threads[t].tail == s.tail
    requires CountersInv(RunThread(Exact, s, t, false))
    ensures OwnersInv(RunThread(Exact, s, t, false))
  {
  }

  lemma PushClaimKeepsCells(s: State, t: nat)
    requires Inv(s) && t < |s.threads| && s.threads[t].PushCas? && s.threads[t].tail == s.tail
    ensures var s' := RunThread(Exact, s, t, false); CountersInv(s') && CellsInv(s')
  {
    var s' := RunThread(Exact, s, t, false);
    PushClaimKeepsCounters(s, t);
    assert ThreadInv(s, t);
    PushClaimRoom(s);
    forall k | s'.head <= k < s'.head + s'.capacity
      ensures TicketInv(s', k)
    {
      assert TicketInv(s, k);
    }
  }

  lemma PushClaimKeepsThread(s: State, t: nat, u: nat)
    requires Inv(s) && t < |s.threads| && s.threads[t].PushCas? && s.threads[t].tail == s.tail
    requires u < |s.threads| && CountersInv(RunThread(Exact, s, t, false))
    ensures ThreadInv(RunThread(Exact, s, t, false), u)
  {
    assert ThreadInv(s, t);
    assert ThreadInv(s, u);
    PushClaimRoom(s);
  }

  lemma PushWriteKeepsCells(s: State, t: nat)
    requires Inv(s) && t < |s.threads| && s.threads[t].PushWrite?
    ensures var s' := RunThread(Exact, s, t, false); CountersInv(s') && CellsInv(s') && HistoryInv(s') && OwnersInv(s')
  {
    var s' := RunThread(Exact, s, t, false);
    assert ThreadInv(s, t);
    OtherSlots(s.capacity, s.threads[t].ticket);
    forall k | s'.head <= k < s'.head + s'.capacity
      ensures TicketInv(s', k)
    {
      assert TicketInv(s, k);
    }
  }

  lemma PushWriteKeepsThread(s: State, t: nat, u: nat)
    requires Inv(s) && t < |s.threads| && s.threads[t].PushWrite?
    requires u < |s.threads| && CountersInv(RunThread(Exact, s, t, false))
    ensures ThreadInv(RunThread(Exact, s, t, false), u)
  {
    assert ThreadInv(s, t);
    assert ThreadInv(s, u);
    OtherSlots(s.capacity, s.threads[t].ticket);
  }

  lemma PushPublishKeepsCells(s: State, t: nat)
    requires Inv(s) && t < |s.threads| && s.threads[t].PushPublish?
    ensures var s' := RunThread(Exact, s, t, false); CountersInv(s') && CellsInv(s') && HistoryInv(s') && OwnersInv(s')
  {
    var s' := RunThread(Exact, s, t, false);
    assert ThreadInv(s, t);
    OtherSlots(s.capacity, s.threads[t].ticket);
    forall k | s'.head <= k < s'.head + s'.capacity
      ensures TicketInv(s', k)
    {
      assert TicketInv(s, k);
    }
  }

  lemma PushPublishKeepsThread(s: State, t: nat, u: nat)
    requires Inv(s) && t < |s.threads| && s.threads[t].PushPublish?
    requires u < |s.threads| && CountersInv(RunThread(Exact, s, t, false))
    ensures ThreadInv(RunThread(Exact, s, t, false), u)
  {
    assert ThreadInv(s, t);
    assert ThreadInv(s, u);
    OtherSlots(s.capacity, s.threads[t].ticket);
    assert TicketInv(s, s.threads[t].ticket);
    if s.threads[u].PushCas? && s.threads[u].tail == s.tail {
      PushClaimRoom(s);
    }
  }

  lemma PullClaimKeepsCounters(s: State, t: nat)
    requires Inv(s) && t < |s.threads| && s.threads[t].PullCas? && s.threads[t].head == s.head
    ensures var s' := RunThread(Exact, s, t, false); CountersInv(s') && HistoryInv(s') && OwnersInv(s')
  {
    assert ThreadInv(s, t);
    assert TicketInv(s, s.head);
  }

  lemma PullClaimKeepsCells(s: State, t: nat)
    requires Inv(s) && t < |s.threads| && s.threads[t].PullCas? && s.threads[t].head == s.head
    ensures var s' := RunThread(Exact, s, t, false); CountersInv(s') && CellsInv(s')
  {
    var s' := RunThread(Exact, s, t, false);
    PullClaimKeepsCounters(s, t);
    assert ThreadInv(s, t);
    assert TicketInv(s, s.head);
    ModRepeat(s.head, s.capacity);
    forall k | s'.head <= k < s'.head + s'.capacity
      ensures TicketInv(s', k)
    {
      assert k < s.head + s.capacity ==> TicketInv(s, k);
    }
  }

  lemma PullClaimKeepsThread(s: State, t: nat, u: nat)
    requires Inv(s) && t < |s.threads| && s.threads[t].PullCas? && s.threads[t].head == s.head
    requires u < |s.threads| && CountersInv(RunThread(Exact, s, t, false))
    ensures ThreadInv(RunThread(Exact, s, t, false), u)
  {
    assert ThreadInv(s, t);
    assert ThreadInv(s, u);
    assert TicketInv(s, s.head);
  }

  lemma PullPublishKeepsCells(s: State, t: nat)
    requires Inv(s) && t < |s.threads| && s.threads[t].PullPublish?
    ensures var s' := RunThread(Exact, s, t, false); CountersInv(s') && CellsInv(s') && HistoryInv(s') && OwnersInv(s')
  {
    var s' := RunThread(Exact, s, t, false);
    assert ThreadInv(s, t);
    OtherSlots(s.capacity, s.threads[t].ticket + s.capacity);
    ModRepeat(s.threads[t].ticket, s.capacity);
    forall k | s'.head <= k < s'.head + s'.capacity
      ensures TicketInv(s', k)
    {
      assert TicketInv(s, k);
    }
  }

  lemma PullPublishKeepsPusher(s: State, t: nat, u: nat)
    requires Inv(s) && t < |s.threads| && s.threads[t].PullPublish?
    requires u < |s.threads| && CountersInv(RunThread(Exact, s, t, false)) && (s.threads[u].PushCas? || s.threads[u].PushPublish?)
    ensures ThreadInv(RunThread(Exact, s, t, false), u)
  {
    assert ThreadInv(s, t);
    assert ThreadInv(s, u);
    OtherSlots(s.capacity, s.threads[t].ticket);
    ModRepeat(s.threads[t].ticket, s.capacity);
    assert TicketInv(s, s.threads[t].ticket + s.capacity);
  }

  lemma PullPublishKeepsPuller(s: State, t: nat, u: nat)
    requires Inv(s) && t < |s.threads| && s.threads[t].PullPublish? && t != u
    requires u < |s.threads| && CountersInv(RunThread(Exact, s, t, false)) && (s.threads[u].PullCas? || s.threads[u].PullRead?)
    ensures ThreadInv(RunThread(Exact, s, t, false), u)
  {
    assert ThreadInv(s, t);
    assert ThreadInv(s, u);
    OtherSlots(s.capacity, s.threads[t].ticket);
    ModRepeat(s.threads[t].ticket, s.capacity);
    assert TicketInv(s, s.threads[t].ticket + s.capacity);
  }

  lemma PullPublishKeepsThread(s: State, t: nat, u: nat)
    requires Inv(s) && t < |s.threads| && s.threads[t].PullPublish?
    requires u < |s.threads| && CountersInv(RunThread(Exact, s, t, false))
    ensures ThreadInv(RunThread(Exact, s, t, false), u)
  {
    var pc := s.threads[u];
    if pc.PushCas? || pc.PushPublish? {
      PullPublishKeepsPusher(s, t, u);
    } else if pc.PullCas? || pc.PullRead? {
      PullPublishKeepsPuller(s, t, u);
    } else {
      assert ThreadInv(s, t);
      assert ThreadInv(s, u);
    }
  }

  /** The push ticket of the current window that uses the cell of an earlier ticket l. */
  lemma WindowTicket(s: State, l: int) returns (k: int)
    requires CountersInv(s) && l <= s.head + s.capacity
    ensures s.head <= k < s.head + s.capacity && s.Slot(k) == s.Slot(l)
    ensures l < s.head ==> l + s.capacity <= k
    ensures s.head <= l < s.head + s.capacity ==> k == l
    ensures l == s.head + s.capacity ==> k == s.head
  {
    var m := s.capacity;
    var q := (s.head - l + m - 1) / m;
    k := l + q * m;
    assert s.head - l + m - 1 == q * m + (s.head - l + m - 1) % m;
    DivModUnique(k, m, l / m + q, l % m) by {
      assert (l / m + q) * m == (l / m) * m + q * m;
    }
    assert q <= 0 ==> q * m <= 0;
    assert q >= 1 ==> q * m >= m;
    assert q <= -1 ==> q * m <= -m;
    if s.head <= l < s.head + m {
      assert q == 0;
    }
  }

  /** Push ticket k has not been taken, or its cell is not yet published. */
  ghost predicate PushUnpublished(s: State, k: int) { k >= s.tail || k in s.pushing }

  ghost predicate PullUnpublished(s: State, k: int) { k >= s.head || k in s.pulling }

  /** What a pusher learns from the cell of its local ticket: the sequence is behind exactly when
      the queue has no room for the ticket because an earlier pull is not published, and is ahead
      only if the ticket is gone. */
  lemma PushScanMeaning(s: State, l: int)
    requires Inv(s) && l <= s.tail
    ensures s.CellOf(l).sequence < l <==> l == s.tail && PullUnpublished(s, s.tail - s.capacity)
    ensures s.CellOf(l).sequence > l ==> l < s.tail
    ensures 0 - s.capacity <= s.CellOf(l).sequence - l <= s.tail - l + s.capacity - 1
  {
    var k := WindowTicket(s, l);
    assert TicketInv(s, k);
  }

  /** What a puller learns from the cell of its local ticket. */
  lemma PullScanMeaning(s: State, l: int)
    requires Inv(s) && l <= s.head
    ensures s.CellOf(l).sequence < l + 1 <==> l == s.head && PushUnpublished(s, s.head)
    ensures s.CellOf(l).sequence > l + 1 ==> l < s.head
    ensures 0 - s.capacity <= s.CellOf(l).sequence - (l + 1) <= s.head - l + s.capacity - 1
  {
    var k := WindowTicket(s, l);
    assert TicketInv(s, k);
  }

  /** The steps that only move the thread. */
  ghost predicate IsMove(s: State, t: nat, spurious: bool)
    requires t < |s.threads|
  {
    var pc := s.threads[t];
    && !pc.Ready? && !pc.PushWrite? && !pc.PushPublish? && !pc.PullPublish?
    && (pc.PushCas? ==> s.tail != pc.tail || spurious)
    && (pc.PullCas? ==> s.head != pc.head || spurious)
  }

  lemma MoveIsGoto(s: State, t: nat, spurious: bool)
    requires s.WellFormed() && t < |s.threads| && IsMove(s, t, spurious)
    ensures var pc := RunThread(Exact, s, t, spurious).threads[t];
            RunThread(Exact, s, t, spurious) == s.Goto(t, pc) && SameTicket(s.threads[t], pc)
  {
  }

  lemma PushScanKeepsThread(s: State, t: nat)
    requires Inv(s) && t < |s.threads| && s.threads[t].PushScan?
    ensures ThreadInv(s.Goto(t, RunThread(Exact, s, t, false).threads[t]), t)
  {
    assert ThreadInv(s, t);
    PushScanMeaning(s, s.threads[t].tail);
  }

  lemma PullScanKeepsThread(s: State, t: nat)
    requires Inv(s) && t < |s.threads| && s.threads[t].PullScan?
    ensures ThreadInv(s.Goto(t, RunThread(Exact, s, t, false).threads[t]), t)
  {
    assert ThreadInv(s, t);
    PullScanMeaning(s, s.threads[t].head);
  }

  lemma MoveKeepsThread(s: State, t: nat, spurious: bool)
    requires Inv(s) && t < |s.threads| && IsMove(s, t, spurious)
    ensures ThreadInv(s.Goto(t, RunThread(Exact, s, t, spurious).threads[t]), t)
  {
    if s.threads[t].PushScan? {
      PushScanKeepsThread(s, t);
    } else if s.threads[t].PullScan? {
      PullScanKeepsThread(s, t);
    } else {
      assert ThreadInv(s, t);
    }
  }

  lemma MoveKeepsInv(s: State, t: nat, spurious: bool)
    requires Inv(s) && t < |s.threads| && IsMove(s, t, spurious)
    ensures Inv(RunThread(Exact, s, t, spurious))
  {
    MoveIsGoto(s, t, spurious);
    MoveKeepsThread(s, t, spurious);
    GotoKeepsInv(s, t, RunThread(Exact, s, t, spurious).threads[t]);
  }

  lemma PushClaimKeepsInv(s: State, t: nat)
    requires Inv(s) && t < |s.threads| && s.threads[t].PushCas? && s.threads[t].tail == s.tail
    ensures Inv(RunThread(Exact, s, t, false))
  {
    PushClaimKeepsCounters(s, t);
    PushClaimKeepsOwners(s, t);
    PushClaimKeepsCells(s, t);
    forall u | 0 <= u < |s.threads|
      ensures ThreadInv(RunThread(Exact, s, t, false), u)
    {
      PushClaimKeepsThread(s, t, u);
    }
  }

  lemma PushWriteKeepsInv(s: State, t: nat)
    requires Inv(s) && t < |s.threads| && s.threads[t].PushWrite?
    ensures Inv(RunThread(Exact, s, t, false))
  {
    PushWriteKeepsCells(s, t);
    forall u | 0 <= u < |s.threads|
      ensures ThreadInv(RunThread(Exact, s, t, false), u)
    {
      PushWriteKeepsThread(s, t, u);
    }
  }

  lemma PushPublishKeepsInv(s: State, t: nat)
    requires Inv(s) && t < |s.threads| && s.threads[t].PushPublish?
    ensures Inv(RunThread(Exact, s, t, false))
  {
    PushPublishKeepsCells(s, t);
    forall u | 0 <= u < |s.threads|
      ensures ThreadInv(RunThread(Exact, s, t, false), u)
    {
      PushPublishKeepsThread(s, t, u);
    }
  }

  lemma PullClaimKeepsInv(s: State, t: nat)
    requires Inv(s) && t < |s.threads| && s.threads[t].PullCas? && s.threads[t].head == s.head
    ensures Inv(RunThread(Exact, s, t, false))
  {
    PullClaimKeepsCounters(s, t);
    PullClaimKeepsCells(s, t);
    forall u | 0 <= u < |s.threads|
      ensures ThreadInv(RunThread(Exact, s, t, false), u)
    {
      PullClaimKeepsThread(s, t, u);
    }
  }

  lemma PullPublishKeepsInv(s: State, t: nat)
    requires Inv(s) && t < |s.threads| && s.threads[t].PullPublish?
    ensures Inv(RunThread(Exact, s, t, false))
  {
    PullPublishKeepsCells(s, t);
    forall u | 0 <= u < |s.threads|
      ensures ThreadInv(RunThread(Exact, s, t, false), u)
    {
      PullPublishKeepsThread(s, t, u);
    }
  }

  /** Any step of any thread keeps the invariant. */
  lemma RunKeepsInv(s: State, t: nat, spurious: bool)
    requires Inv(s) && t < |s.threads|
    ensures Inv(RunThread(Exact, s, t, spurious))
  {
    var pc := s.threads[t];
    if pc.PushCas? && s.tail == pc.tail && !spurious {
      PushClaimKeepsInv(s, t);
    } else if pc.PushWrite? {
      PushWriteKeepsInv(s, t);
    } else if pc.PushPublish? {
      PushPublishKeepsInv(s, t);
    } else if pc.PullCas? && s.head == pc.head && !spurious {
      PullClaimKeepsInv(s, t);
    } else if pc.PullPublish? {
      PullPublishKeepsInv(s, t);
    } else if pc.Ready? {
    } else {
      MoveKeepsInv(s, t, spurious);
    }
  }

  lemma NextKeepsInv(s: State, step: Step)
    requires Inv(s)
    ensures Inv(Next(Exact, s, step))
  {
    if step.t < |s.threads| {
      match step
      case Start(t, op) =>
        if s.threads[t].Ready? {
          GotoKeepsInv(s, t, StartCall(s, t, op).threads[t]);
        }
      case Run(t, spurious) => RunKeepsInv(s, t, spurious);
    }
  }

  lemma InitInv(capacity: nat, threads: nat)
    requires capacity >= 2
    ensures Inv(Init(capacity, threads))
  {
    var s := Init(capacity, threads);
    forall k | s.head <= k < s.head + s.capacity
      ensures TicketInv(s, k)
    {
      DivModUnique(k, capacity, 0, k);
    }
  }

  /** Every state of every schedule satisfies the invariant. */
  lemma {:induction false} ReachableInv(capacity: nat, threads: nat, steps: seq<Step>)
    requires capacity >= 2
    ensures Inv(Execute(Exact, capacity, threads, steps))
  {
    if steps == [] {
      InitInv(capacity, threads);
    } else {
      ReachableInv(capacity, threads, steps[..|steps| - 1]);
      NextKeepsInv(Execute(Exact, capacity, threads, steps[..|steps| - 1]), steps[|steps| - 1]);
    }
  }
}
