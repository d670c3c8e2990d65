/** Which call each value comes from: a ticket belongs to one call, and has the value that was given to it. */
module MpmcCalls {
  import opened Words
  import opened MpmcQueue
  import opened MpmcSafety
  import opened MpmcWords
  import opened MpmcTheorems

  /** A run of the queue: the arithmetic, the capacity, the number of threads and the schedule. */
  datatype Run = Run(w: Arith, capacity: nat, threads: nat, steps: seq<Step>) {
    function At(i: nat): (s: State)
      requires capacity > 0 && i <= |steps|
      ensures s.WellFormed() && |s.threads| == threads
    {
      Execute(w, capacity, threads, steps[..i])
    }

    function End(): (s: State)
      requires capacity > 0
      ensures s.WellFormed() && |s.threads| == threads
    {
      Execute(w, capacity, threads, steps)
    }
  }

  /** Step j begins a call of thread t, which goes on until before step i. */
  ghost predicate CallFrom(r: Run, j: nat, i: nat, t: nat, op: Op)
    requires r.capacity > 0 && t < r.threads && i <= |r.steps|
  {
    && j < i && r.steps[j] == Start(t, op) && r.At(j).threads[t].Ready?
    && forall m | j < m <= i :: Busy(r, m, t)
  }

  ghost predicate Busy(r: Run, m: nat, t: nat)
    requires r.capacity > 0 && t < r.threads && m <= |r.steps|
  {
    !r.At(m).threads[t].Ready?
  }

  /** In step i, thread t takes push ticket k. */
  ghost predicate TakesPush(r: Run, i: nat, t: nat, k: nat)
    requires r.capacity > 0 && t < r.threads && i < |r.steps|
  {
    && r.steps[i].Run? && r.steps[i].t == t
    && |r.At(i).pushed| == k && |r.At(i + 1).pushed| == k + 1
  }

  /** Push ticket k was taken in the course of a push of v by thread t. */
  ghost predicate GivenBy(r: Run, j: nat, i: nat, t: nat, k: nat, v: Value)
    requires r.capacity > 0
  {
    t < r.threads && i < |r.steps| && CallFrom(r, j, i, t, Push(v)) && TakesPush(r, i, t, k)
  }

  /** A push on its way to a ticket. */
  ghost predicate Trying(pc: Pc) { pc.PushLoad? || pc.PushScan? || pc.PushCas? }

  /** A push keeps its value until it has a ticket. */
  lemma RunKeepsValue(w: Arith, s: State, t: nat, spurious: bool)
    requires s.WellFormed() && t < |s.threads|
    ensures var pc := RunThread(w, s, t, spurious).threads[t];
      Trying(pc) ==> Trying(s.threads[t]) && pc.value == s.threads[t].value
  {
    match s.threads[t] {
      case Ready(_) =>
      case PushLoad(_, _) =>
      case PushScan(tail, _, _, _) =>
        var diff := w.Diff(s.CellOf(tail).sequence, tail);
      case PushCas(_, _, _, _) =>
      case PushWrite(_, _, _) =>
      case PushPublish(_, _) =>
      case PullLoad(_) =>
      case PullScan(head, _, _) =>
        var diff := w.Diff(s.CellOf(head).sequence, w.Of(head + 1));
      case PullCas(_, _, _) =>
      case PullRead(_, _) =>
      case PullPublish(_, _, _) =>
    }
  }

  /** A ticket goes to a push on its way to one, with the value of that push. */
  lemma RunPushes(w: Arith, s: State, t: nat, spurious: bool)
    requires s.WellFormed() && t < |s.threads|
    ensures var s' := RunThread(w, s, t, spurious);
      s'.pushed == s.pushed || (Trying(s.threads[t]) && s'.pushed == s.pushed + [s.threads[t].value] && HoldsPush(s'.threads[t], |s.pushed|))
  {
    match s.threads[t] {
      case Ready(_) =>
      case PushLoad(_, _) =>
      case PushScan(tail, _, _, _) =>
        var diff := w.Diff(s.CellOf(tail).sequence, tail);
      case PushCas(_, _, _, _) =>
      case PushWrite(_, _, _) =>
      case PushPublish(_, _) =>
      case PullLoad(_) =>
      case PullScan(head, _, _) =>
        var diff := w.Diff(s.CellOf(head).sequence, w.Of(head + 1));
      case PullCas(_, _, _) =>
      case PullRead(_, _) =>
      case PullPublish(_, _, _) =>
    }
  }

  /** A pull on its way to a ticket. */
  ghost predicate Asking(pc: Pc) { pc.PullLoad? || pc.PullScan? || pc.PullCas? }

  /** A call goes on as what it is. It returns false without a ticket, and true once it has one, which it keeps till then. */
  lemma CallGoesOnAsItIs(w: Arith, s: State, t: nat, spurious: bool)
    requires s.WellFormed() && t < |s.threads|
    ensures var a, b := s.threads[t], RunThread(w, s, t, spurious).threads[t];
      && (Trying(a) ==> Trying(b) || HoldsPush(b, |s.pushed|) || b == Ready(false))
      && (Pushing(a) ==> HoldsPush(b, a.ticket) || b == Ready(true))
      && (Asking(a) ==> Asking(b) || HoldsPull(b, s.claimed) || b == Ready(false))
      && (Pulling(a) ==> HoldsPull(b, a.ticket) || b == Ready(true))
  {
    match s.threads[t] {
      case Ready(_) =>
      case PushLoad(_, _) =>
      case PushScan(tail, _, _, _) =>
        var diff := w.Diff(s.CellOf(tail).sequence, tail);
      case PushCas(_, _, _, _) =>
      case PushWrite(_, _, _) =>
      case PushPublish(_, _) =>
      case PullLoad(_) =>
      case PullScan(head, _, _) =>
        var diff := w.Diff(s.CellOf(head).sequence, w.Of(head + 1));
      case PullCas(_, _, _) =>
      case PullRead(_, _) =>
      case PullPublish(_, _, _) =>
    }
  }

  /** What one step means for thread u. */
  ghost predicate Progress(s: State, s': State, step: Step, u: nat)
    requires u < |s.threads| == |s'.threads|
  {
    var a, b := s.threads[u], s'.threads[u];
    && (b.Ready? || a.Ready? ==> b == a || step.t == u)
    && (Trying(b) ==> (Trying(a) && b.value == a.value) || (a.Ready? && step == Start(u, Push(b.value))))
    && (Pushing(a) ==> HoldsPush(b, a.ticket) || b == Ready(true))
  }

  lemma NextProgress(w: Arith, s: State, step: Step, u: nat)
    requires s.WellFormed() && u < |s.threads|
    ensures Progress(s, Next(w, s, step), step, u)
  {
    if step.t < |s.threads| && step.Run? {
      if step.t == u {
        RunKeepsValue(w, s, u, step.spurious);
        CallGoesOnAsItIs(w, s, u, step.spurious);
      } else {
        RunMovesOne(w, s, step.t, step.spurious, u);
      }
    }
  }

  /** What one step means for the tickets. */
  ghost predicate Pushes(s: State, s': State, step: Step) {
    || s'.pushed == s.pushed
    || (step.Run? && step.t < |s.threads| == |s'.threads| && Trying(s.threads[step.t])
        && s'.pushed == s.pushed + [s.threads[step.t].value] && HoldsPush(s'.threads[step.t], |s.pushed|))
  }

  lemma NextPushes(w: Arith, s: State, step: Step)
    requires s.WellFormed()
    ensures Pushes(s, Next(w, s, step), step)
  {
    if step.t < |s.threads| && step.Run? {
      RunPushes(w, s, step.t, step.spurious);
    }
  }

  /** The run before its last step. */
  function Before(r: Run): Run
    requires r.steps != []
  {
    r.(steps := r.steps[..|r.steps| - 1])
  }

  lemma BeforeAt(r: Run, i: nat)
    requires r.capacity > 0 && i < |r.steps|
    ensures Before(r).At(i) == r.At(i)
  {
    assert Before(r).steps[..i] == r.steps[..i];
  }

  lemma LastAt(r: Run)
    requires r.capacity > 0 && r.steps != []
    ensures r.At(|r.steps|) == r.End() && r.At(|r.steps| - 1) == Before(r).End()
    ensures r.End() == Next(r.w, Before(r).End(), r.steps[|r.steps| - 1])
  {
    assert r.steps[..|r.steps|] == r.steps;
  }

  lemma CallInLonger(r: Run, j: nat, i: nat, t: nat, op: Op)
    requires r.capacity > 0 && t < r.threads && i < |r.steps|
    ensures CallFrom(Before(r), j, i, t, op) <==> CallFrom(r, j, i, t, op)
  {
    if j < i {
      BeforeAt(r, j);
    }
    forall m | j < m <= i
      ensures Busy(Before(r), m, t) <==> Busy(r, m, t)
    {
      BeforeAt(r, m);
    }
  }

  lemma CallGoesOn(r: Run, j: nat, t: nat, op: Op)
    requires r.capacity > 0 && t < r.threads && r.steps != []
    requires CallFrom(Before(r), j, |r.steps| - 1, t, op) && !r.End().threads[t].Ready?
    ensures CallFrom(r, j, |r.steps|, t, op)
  {
    CallInLonger(r, j, |r.steps| - 1, t, op);
    LastAt(r);
    forall m | j < m <= |r.steps|
      ensures Busy(r, m, t)
    {
    }
  }

  lemma CallBegins(r: Run, t: nat, op: Op)
    requires r.capacity > 0 && t < r.threads && r.steps != []
    requires r.steps[|r.steps| - 1] == Start(t, op) && Before(r).End().threads[t].Ready? && !r.End().threads[t].Ready?
    ensures CallFrom(r, |r.steps| - 1, |r.steps|, t, op)
  {
    LastAt(r);
    assert Busy(r, |r.steps|, t);
  }

  /** A push that has no ticket yet was begun with the value that it holds. */
  lemma {:induction false} TryingHasCall(r: Run, t: nat) returns (j: nat)
    requires r.capacity > 0 && t < r.threads && Trying(r.End().threads[t])
    ensures CallFrom(r, j, |r.steps|, t, Push(r.End().threads[t].value))
    decreases |r.steps|
  {
    var step, b := r.steps[|r.steps| - 1], Before(r);
    LastAt(r);
    NextProgress(r.w, b.End(), step, t);
    if Trying(b.End().threads[t]) {
      j := TryingHasCall(b, t);
      CallGoesOn(r, j, t, Push(r.End().threads[t].value));
    } else {
      j := |r.steps| - 1;
      CallBegins(r, t, Push(r.End().threads[t].value));
    }
  }

  lemma TicketInLonger(r: Run, j: nat, i: nat, t: nat, k: nat, v: Value)
    requires r.capacity > 0 && r.steps != [] && GivenBy(Before(r), j, i, t, k, v)
    ensures GivenBy(r, j, i, t, k, v)
  {
    CallInLonger(r, j, i, t, Push(v));
    BeforeAt(r, i);
    if i + 1 < |r.steps| {
      BeforeAt(r, i + 1);
    }
  }

  lemma TicketIsNew(r: Run) returns (j: nat)
    requires r.capacity > 0 && r.steps != [] && r.End().pushed != Before(r).End().pushed
    ensures var k, i := |Before(r).End().pushed|, |r.steps| - 1;
      |r.End().pushed| == k + 1 && GivenBy(r, j, i, r.steps[i].t, k, r.End().pushed[k])
  {
    var step, b := r.steps[|r.steps| - 1], Before(r);
    LastAt(r);
    NextPushes(r.w, b.End(), step);
    j := TryingHasCall(b, step.t);
    CallInLonger(r, j, |r.steps| - 1, step.t, Push(b.End().threads[step.t].value));
  }

  /** In every schedule, the value of a push ticket is the argument of the call in whose course it was taken, whichever way
      that call went round its loop. */
  lemma {:induction false} PushedIsArgument(r: Run, k: nat) returns (j: nat, i: nat, t: nat)
    requires r.capacity > 0 && k < |r.End().pushed|
    ensures GivenBy(r, j, i, t, k, r.End().pushed[k])
    decreases |r.steps|
  {
    var b := Before(r);
    LastAt(r);
    NextPushes(r.w, b.End(), r.steps[|r.steps| - 1]);
    if k < |b.End().pushed| {
      j, i, t := PushedIsArgument(b, k);
      TicketInLonger(r, j, i, t, k, r.End().pushed[k]);
    } else {
      j := TicketIsNew(r);
      i := |r.steps| - 1;
      t := r.steps[i].t;
    }
  }

  lemma StepAt(r: Run, m: nat)
    requires r.capacity > 0 && m < |r.steps|
    ensures r.At(m + 1) == Next(r.w, r.At(m), r.steps[m])
  {
    assert r.steps[..m + 1][..m] == r.steps[..m];
  }

  /** In that step the thread was on its way, and then has the ticket. */
  lemma TicketIsTaken(r: Run, i: nat, t: nat, k: nat)
    requires r.capacity > 0 && t < r.threads && i < |r.steps| && TakesPush(r, i, t, k)
    ensures Trying(r.At(i).threads[t]) && HoldsPush(r.At(i + 1).threads[t], k)
  {
    StepAt(r, i);
    NextPushes(r.w, r.At(i), r.steps[i]);
  }

  lemma TicketStays(r: Run, t: nat, k: nat, m: nat)
    requires r.capacity > 0 && t < r.threads && m < |r.steps| && HoldsPush(r.At(m).threads[t], k) && Busy(r, m + 1, t)
    ensures HoldsPush(r.At(m + 1).threads[t], k)
  {
    StepAt(r, m);
    NextProgress(r.w, r.At(m), r.steps[m], t);
  }

  /** The call keeps the ticket until it returns true. */
  lemma {:induction false} TicketIsKept(r: Run, i: nat, t: nat, k: nat, m: nat)
    requires r.capacity > 0 && t < r.threads && i < m <= |r.steps| && TakesPush(r, i, t, k)
    requires forall x | i < x <= m :: Busy(r, x, t)
    ensures HoldsPush(r.At(m).threads[t], k)
  {
    if m == i + 1 {
      TicketIsTaken(r, i, t, k);
    } else {
      TicketIsKept(r, i, t, k, m - 1);
      TicketStays(r, t, k, m - 1);
    }
  }

  /** No call takes two tickets. */
  lemma OneTicketPerCall(r: Run, j: nat, i: nat, i': nat, t: nat, k: nat, k': nat, v: Value, v': Value)
    requires r.capacity > 0 && GivenBy(r, j, i, t, k, v) && GivenBy(r, j, i', t, k', v')
    ensures i == i' && k == k' && v == v'
  {
    if i < i' {
      TicketIsKept(r, i, t, k, i');
      TicketIsTaken(r, i', t, k');
    } else if i' < i {
      TicketIsKept(r, i', t, k', i);
      TicketIsTaken(r, i, t, k);
    }
  }

  /** A pull returns the argument of the push that took the ticket of the same number. */
  lemma PulledIsArgument(capacity: nat, threads: nat, steps: seq<Step>, k: nat) returns (j: nat, i: nat, t: nat)
    requires Admissible(capacity, threads, steps) && k in Execute(Word32, capacity, threads, steps).pulled
    ensures GivenBy(Run.Run(Word32, capacity, threads, steps), j, i, t, k, Execute(Word32, capacity, threads, steps).pulled[k])
  {
    PulledInPushOrder(capacity, threads, steps);
    j, i, t := PushedIsArgument(Run.Run(Word32, capacity, threads, steps), k);
  }
}
