/** What callers of the queue may rely on, stated about runs of the 32-bit program. */
module MpmcTheorems {
  import opened Words
  import opened MpmcQueue
  import opened MpmcSafety
  import opened MpmcWords

  /** A capacity that `mpmc_queue_init` accepts, and a schedule of the program that keeps the local
      tickets in step. */
  ghost predicate Admissible(capacity: nat, threads: nat, steps: seq<Step>) {
    2 <= capacity <= TWO_31 && IsPow2(capacity) && KeepsInStep(capacity, threads, steps)
  }

  /** First in, first out: pull ticket k returns the value given to push ticket k. Of the tickets
      taken, each pull ticket is either still in progress or has returned, never both, and nothing
      is pulled that was not pushed. */
  lemma PulledInPushOrder(capacity: nat, threads: nat, steps: seq<Step>)
    requires Admissible(capacity, threads, steps)
    ensures var s := Execute(Word32, capacity, threads, steps);
            && s.claimed <= |s.pushed| <= s.claimed + capacity
            && (forall k: nat :: k < s.claimed <==> k in s.pulled || k in s.pulling)
            && (forall k <- s.pulled :: k !in s.pulling && k < |s.pushed| && s.pulled[k] == s.pushed[k])
            && (forall k <- s.pushing :: s.claimed <= k < |s.pushed|)
  {
    WordsRefineTickets(capacity, threads, steps);
  }

  lemma TruncThread(e: State, t: nat)
    requires t < |e.threads|
    ensures Trunc(e).threads[t] == TruncPc(e.threads[t])
    ensures Trunc(e).threads[t] == Ready(false) <==> e.threads[t] == Ready(false)
    ensures Trunc(e).threads[t].Ready? <==> e.threads[t].Ready?
  {
  }

  ghost predicate AllReady(e: State) { forall t :: 0 <= t < |e.threads| ==> e.threads[t].Ready? }

  lemma TruncHolds(e: State, k: nat)
    requires Inv(e) && AllReady(e) && IsPow2(e.capacity) && e.capacity <= TWO_31 && e.head <= k < e.tail
    ensures Trunc(e).WellFormed() && HoldsAt(Trunc(e), k)
  {
    assert e.pushing == map[];
    assert TicketInv(e, k);
    TruncCellOf(e, k);
  }

  lemma TruncFree(e: State, k: nat)
    requires Inv(e) && AllReady(e) && IsPow2(e.capacity) && e.capacity <= TWO_31 && e.tail <= k < e.head + e.capacity
    ensures Trunc(e).WellFormed() && FreeAt(Trunc(e), k)
  {
    assert e.pulling == map[];
    assert TicketInv(e, k);
    TruncCellOf(e, k);
  }

  /** The cell of ticket k holds the value pushed with it, and is open to a pull. */
  ghost predicate HoldsAt(s: State, k: nat)
    requires s.WellFormed() && k < |s.pushed|
  {
    s.CellOf(Wrap32(k)) == Cell(Wrap32(k + 1), s.pushed[k])
  }

  /** The cell of ticket k is open to a push. */
  ghost predicate FreeAt(s: State, k: nat)
    requires s.WellFormed()
  {
    s.CellOf(Wrap32(k)).sequence == Wrap32(k)
  }

  ghost predicate AtRest(s: State)
    requires s.WellFormed()
  {
    && s.head == Wrap32(s.claimed) && s.tail == Wrap32(|s.pushed|)
    && (forall k: nat :: k in s.pulled <==> k < s.claimed)
    && (forall k: nat | s.claimed <= k < |s.pushed| :: HoldsAt(s, k))
    && (forall k: nat | |s.pushed| <= k < s.claimed + s.capacity :: FreeAt(s, k))
  }

  lemma TruncAtRest(e: State)
    requires Inv(e) && AllReady(e) && IsPow2(e.capacity) && e.capacity <= TWO_31
    ensures Trunc(e).WellFormed() && AtRest(Trunc(e))
  {
    assert e.pushing == map[] && e.pulling == map[];
    TruncCellOf(e, 0);
    forall k: nat | e.head <= k < e.tail
      ensures HoldsAt(Trunc(e), k)
    {
      TruncHolds(e, k);
    }
    forall k: nat | e.tail <= k < e.head + e.capacity
      ensures FreeAt(Trunc(e), k)
    {
      TruncFree(e, k);
    }
  }

  /** At rest, what has been pulled is exactly the first `claimed` values pushed, and the cells hold
      the remaining values in order. */
  lemma QuiescentContents(capacity: nat, threads: nat, steps: seq<Step>)
    requires Admissible(capacity, threads, steps)
    requires forall t :: 0 <= t < threads ==> Execute(Word32, capacity, threads, steps).threads[t].Ready?
    ensures AtRest(Execute(Word32, capacity, threads, steps))
  {
    WordsRefineTickets(capacity, threads, steps);
    var e := Execute(Exact, capacity, threads, steps);
    forall t | 0 <= t < threads
      ensures e.threads[t].Ready?
    {
      TruncThread(e, t);
    }
    TruncAtRest(e);
  }

  /** The cell a thread may touch between its compare-exchange and its publishing store. */
  ghost predicate Owns(s: State, t: nat, slot: nat)
    requires s.WellFormed() && t < |s.threads|
  {
    var pc := s.threads[t];
    (Pushing(pc) && s.Slot(pc.tail) == slot) || (Pulling(pc) && s.Slot(pc.head) == slot)
  }

  /** The cell of the ticket in hand. */
  lemma TruncOwns(e: State, t: nat, slot: nat)
    requires Inv(e) && IsPow2(e.capacity) && e.capacity <= TWO_31 && t < |e.threads|
    requires Trunc(e).WellFormed() && |Trunc(e).threads| == |e.threads| && Owns(Trunc(e), t, slot)
    ensures (Pushing(e.threads[t]) && e.head <= e.threads[t].ticket < e.tail && Pushes(e, t, e.threads[t].ticket))
      || (Pulling(e.threads[t]) && e.tail - e.capacity <= e.threads[t].ticket < e.head && Pulls(e, t, e.threads[t].ticket))
    ensures e.Slot(e.threads[t].ticket) == slot
  {
    assert ThreadInv(e, t);
    TruncThread(e, t);
    TruncCellOf(e, e.threads[t].ticket);
  }

  lemma TruncOneOwner(e: State, t: nat, u: nat, slot: nat)
    requires Inv(e) && IsPow2(e.capacity) && e.capacity <= TWO_31 && t < |e.threads| && u < |e.threads|
    requires Trunc(e).WellFormed() && |Trunc(e).threads| == |e.threads| && Owns(Trunc(e), t, slot) && Owns(Trunc(e), u, slot)
    ensures t == u
  {
    TruncOwns(e, t, slot);
    TruncOwns(e, u, slot);
    var i, j := e.threads[t].ticket, e.threads[u].ticket;
    if i < j {
      assert j - i < e.capacity;
      ModApart(j, i, e.capacity);
    } else if j < i {
      assert i - j < e.capacity;
      ModApart(i, j, e.capacity);
    }
  }

  /** Between the compare-exchange and the publishing store, a cell belongs to one thread: in no
      reachable state do two threads own the same cell. A claim makes an owner, so nobody can claim
      a ticket of an owned cell either. */
  lemma OneOwner(capacity: nat, threads: nat, steps: seq<Step>, t: nat, u: nat, slot: nat)
    requires Admissible(capacity, threads, steps) && t < threads && u < threads
    requires Owns(Execute(Word32, capacity, threads, steps), t, slot)
    requires Owns(Execute(Word32, capacity, threads, steps), u, slot)
    ensures t == u
  {
    WordsRefineTickets(capacity, threads, steps);
    TruncOneOwner(Execute(Exact, capacity, threads, steps), t, u, slot);
  }

  /** The ticket counter the thread is racing for, and the ticket it last loaded from it. */
  ghost function Counter(s: State, t: nat): nat
    requires t < |s.threads|
  {
    var pc := s.threads[t];
    if pc.PullLoad? || pc.PullScan? || pc.PullCas? then s.claimed else |s.pushed|
  }

  lemma ExactGivesUp(e: State, t: nat)
    requires Inv(e) && t < |e.threads| && (e.threads[t].PushScan? || e.threads[t].PullScan?)
    ensures RunThread(Exact, e, t, false).threads[t] == Ready(false) <==>
            if e.threads[t].PushScan? then e.threads[t].loaded == e.tail && PullUnpublished(e, e.tail - e.capacity)
            else e.threads[t].loaded == e.head && PushUnpublished(e, e.head)
  {
    assert ThreadInv(e, t);
    if e.threads[t].PushScan? {
      PushScanMeaning(e, e.threads[t].tail);
    } else {
      PullScanMeaning(e, e.threads[t].head);
    }
  }

  lemma GivesUp(e: State, t: nat)
    requires Inv(e) && t < |e.threads| && InStep(e, t) && IsPow2(e.capacity) && e.capacity <= TWO_31
    requires t < |e.threads| && (e.threads[t].PushScan? || e.threads[t].PullScan?)
    ensures RunThread(Word32, Trunc(e), t, false).threads[t] == Ready(false) <==>
            RunThread(Exact, e, t, false).threads[t] == Ready(false)
  {
    TruncNext(e, Run(t, false));
    TruncThread(RunThread(Exact, e, t, false), t);
  }

  /** The head ticket's push is not taken, or not published. */
  ghost predicate HeadUnpublished(s: State) { s.claimed >= |s.pushed| || s.claimed in s.pushing }

  /** The pull that would make room for the tail ticket is not taken, or not published. */
  ghost predicate RoomUnpublished(s: State) {
    var k := |s.pushed| - s.capacity;
    k >= s.claimed || k in s.pulling
  }

  /** `mpmc_queue_push` returns false at its scan exactly when the tail ticket it loaded is still the
      tail and the pull of the ticket one capacity earlier is not published; `mpmc_queue_pull`,
      exactly when the head ticket it loaded is still the head and that ticket's push is not
      published. */
  ghost predicate GivesUpJustly(s: State, t: nat)
    requires s.WellFormed() && t < |s.threads|
  {
    var pc, stops := s.threads[t], RunThread(Word32, s, t, false).threads[t] == Ready(false);
    && (pc.PushScan? ==> (stops <==> pc.loaded == |s.pushed| && RoomUnpublished(s)))
    && (pc.PullScan? ==> (stops <==> pc.loaded == s.claimed && HeadUnpublished(s)))
  }

  lemma TruncGivesUpJustly(e: State, t: nat)
    requires Inv(e) && t < |e.threads| && InStep(e, t) && IsPow2(e.capacity) && e.capacity <= TWO_31
    ensures Trunc(e).WellFormed() && GivesUpJustly(Trunc(e), t)
  {
    TruncThread(e, t);
    if e.threads[t].PushScan? || e.threads[t].PullScan? {
      GivesUp(e, t);
      ExactGivesUp(e, t);
    }
  }

  /** A false result means what it should, in every interleaving. */
  lemma FalseMeansNotReady(capacity: nat, threads: nat, steps: seq<Step>, t: nat)
    requires Admissible(capacity, threads, steps) && t < threads
    requires InStep(Execute(Word32, capacity, threads, steps), t)
    ensures GivesUpJustly(Execute(Word32, capacity, threads, steps), t)
  {
    WordsRefineTickets(capacity, threads, steps);
    LagTrunc(Execute(Exact, capacity, threads, steps), t);
    TruncGivesUpJustly(Execute(Exact, capacity, threads, steps), t);
  }

  ghost predicate InCall(pc: Pc) { pc.PushLoad? || pc.PushScan? || pc.PushCas? || pc.PullLoad? || pc.PullScan? || pc.PullCas? }

  /** Lock-freedom: however often a call has gone round its loop, at least as many other operations
      have taken a ticket since the call began. */
  lemma RetriesArePaidFor(capacity: nat, threads: nat, steps: seq<Step>, t: nat)
    requires Admissible(capacity, threads, steps) && t < threads
    requires InCall(Execute(Word32, capacity, threads, steps).threads[t])
    ensures var s := Execute(Word32, capacity, threads, steps);
            s.threads[t].call.tries <= Counter(s, t) - s.threads[t].call.from
  {
    WordsRefineTickets(capacity, threads, steps);
    var e := Execute(Exact, capacity, threads, steps);
    assert Trunc(e).threads[t] == TruncPc(e.threads[t]);
    assert ThreadInv(e, t);
  }

  /** Tickets are only ever added, and a thread holds an old one only if it held it before. */
  ghost predicate Later(a: State, b: State, u: nat)
    requires u < |a.threads| == |b.threads|
  {
    && a.pushed <= b.pushed && a.claimed <= b.claimed
    && (Pushing(b.threads[u]) && b.threads[u].ticket < |a.pushed| ==> HoldsPush(a.threads[u], b.threads[u].ticket))
    && (Pulling(b.threads[u]) && b.threads[u].ticket < a.claimed ==> HoldsPull(a.threads[u], b.threads[u].ticket))
  }

  /** A ticket in hand was there before or is the next one. */
  ghost predicate NextTicket(b: State, b': State, u: nat)
    requires u < |b.threads| == |b'.threads|
  {
    && b.pushed <= b'.pushed && b.claimed <= b'.claimed
    && (Pushing(b'.threads[u]) ==> HoldsPush(b.threads[u], b'.threads[u].ticket) || b'.threads[u].ticket == |b.pushed|)
    && (Pulling(b'.threads[u]) ==> HoldsPull(b.threads[u], b'.threads[u].ticket) || b'.threads[u].ticket == b.claimed)
  }

  lemma RunKeepsHistory(w: Arith, b: State, t: nat, spurious: bool)
    requires b.WellFormed() && t < |b.threads|
    ensures var b' := RunThread(w, b, t, spurious); b.pushed <= b'.pushed && b.claimed <= b'.claimed
  {
    match b.threads[t] {
      case Ready(_) =>
      case PushLoad(_, _) =>
      case PushScan(_, _, _, _) =>
      case PushCas(_, _, _, _) =>
      case PushWrite(_, _, _) =>
      case PushPublish(_, _) =>
      case PullLoad(_) =>
      case PullScan(_, _, _) =>
      case PullCas(_, _, _) =>
      case PullRead(_, _) =>
      case PullPublish(_, _, _) =>
    }
  }

  /** A step between load and compare-exchange takes no ticket. */
  lemma ScanTakesNone(w: Arith, b: State, t: nat, spurious: bool)
    requires b.WellFormed() && t < |b.threads| && (b.threads[t].PushScan? || b.threads[t].PullScan?)
    ensures var pc := RunThread(w, b, t, spurious).threads[t]; !Pushing(pc) && !Pulling(pc)
  {
    var pc := b.threads[t];
    if pc.PushScan? {
      var diff := w.Diff(b.CellOf(pc.tail).sequence, pc.tail);
    } else {
      var diff := w.Diff(b.CellOf(pc.head).sequence, w.Of(pc.head + 1));
    }
  }

  lemma RunTakesNext(w: Arith, b: State, t: nat, spurious: bool)
    requires b.WellFormed() && t < |b.threads|
    ensures NextTicket(b, RunThread(w, b, t, spurious), t)
  {
    RunKeepsHistory(w, b, t, spurious);
    match b.threads[t] {
      case PushScan(_, _, _, _) => ScanTakesNone(w, b, t, spurious);
      case PullScan(_, _, _) => ScanTakesNone(w, b, t, spurious);
      case Ready(_) =>
      case PushLoad(_, _) =>
      case PushCas(_, _, _, _) =>
      case PushWrite(_, _, _) =>
      case PushPublish(_, _) =>
      case PullLoad(_) =>
      case PullCas(_, _, _) =>
      case PullRead(_, _) =>
      case PullPublish(_, _, _) =>
    }
  }

  lemma RunMovesOne(w: Arith, b: State, t: nat, spurious: bool, u: nat)
    requires b.WellFormed() && t < |b.threads| && u < |b.threads| && t != u
    ensures RunThread(w, b, t, spurious).threads[u] == b.threads[u]
  {
    match b.threads[t] {
      case Ready(_) =>
      case PushLoad(_, _) =>
      case PushScan(_, _, _, _) =>
      case PushCas(_, _, _, _) =>
      case PushWrite(_, _, _) =>
      case PushPublish(_, _) =>
      case PullLoad(_) =>
      case PullScan(_, _, _) =>
      case PullCas(_, _, _) =>
      case PullRead(_, _) =>
      case PullPublish(_, _, _) =>
    }
  }

  lemma NextTakesNext(w: Arith, b: State, step: Step, u: nat)
    requires b.WellFormed() && u < |b.threads|
    ensures NextTicket(b, Next(w, b, step), u)
  {
    if step.Run? && step.t < |b.threads| {
      RunKeepsHistory(w, b, step.t, step.spurious);
      if step.t == u {
        RunTakesNext(w, b, u, step.spurious);
      } else {
        RunMovesOne(w, b, step.t, step.spurious, u);
      }
    }
  }

  lemma LaterByOne(a: State, b: State, b': State, u: nat)
    requires u < |a.threads| == |b.threads| == |b'.threads| && Later(a, b, u) && NextTicket(b, b', u)
    ensures Later(a, b', u)
  {
  }

  lemma {:induction false} LaterInRun(w: Arith, capacity: nat, threads: nat, first: seq<Step>, rest: seq<Step>, u: nat)
    requires capacity > 0 && u < threads
    ensures Later(Execute(w, capacity, threads, first), Execute(w, capacity, threads, first + rest), u)
  {
    if rest == [] {
      assert first + rest == first;
    } else {
      var most := rest[..|rest| - 1];
      LaterInRun(w, capacity, threads, first, most, u);
      assert (first + rest)[..|first + rest| - 1] == first + most;
      var a, b := Execute(w, capacity, threads, first), Execute(w, capacity, threads, first + most);
      NextTakesNext(w, b, rest[|rest| - 1], u);
      LaterByOne(a, b, Next(w, b, rest[|rest| - 1]), u);
    }
  }

  /** Tickets agree with real time: a push that takes its ticket after another one has returned, or has merely
      taken its own, takes a larger ticket; and so do pulls. With the order of tickets, values are pulled
      in the order in which non-overlapping pushes gave them. */
  lemma RealTimeOrder(capacity: nat, threads: nat, first: seq<Step>, rest: seq<Step>, u: nat)
    requires capacity > 0 && u < threads
    ensures var a, b := Execute(Word32, capacity, threads, first), Execute(Word32, capacity, threads, first + rest);
            && a.pushed <= b.pushed
            && (Pushing(b.threads[u]) && !Pushing(a.threads[u]) ==> b.threads[u].ticket >= |a.pushed|)
            && (Pulling(b.threads[u]) && !Pulling(a.threads[u]) ==> b.threads[u].ticket >= a.claimed)
  {
    LaterInRun(Word32, capacity, threads, first, rest, u);
  }
}
