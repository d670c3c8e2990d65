/** The bounded multi-producer multi-consumer queue as a transition system: any number of threads
    take turns, and each turn executes one atomic access of `mpmc_queue_push` or
    `mpmc_queue_pull`.

    One step function is read in two arithmetics. `Word32` is the program: `head`, `tail` and the
    sequence numbers are `uint32_t` and the difference is cast to `int32_t`. `Exact` uses the same
    text on unbounded integers, where counters never wrap; it is the specification. */
module MpmcQueue {
  import opened Words

  type Value = Uint64

  datatype Arith = Exact | Word32 {
    /** The value stored for an integer expression. */
    function Of(x: int): int { if Exact? then x else Wrap32(x) }

    /** `(int32_t)(a - b)` */
    function Diff(a: int, b: int): int { if Exact? then a - b else Signed32(a - b) }
  }

  /** `&buffer[x & buffer_mask]`: for a power of two, the mask is the remainder. */
  function SlotOf(capacity: nat, x: int): (slot: nat)
    requires capacity > 0
    ensures slot < capacity
  {
    x % capacity
  }

  /** Tickets less than `capacity` away from n use other cells. */
  lemma OtherSlots(capacity: nat, n: int)
    requires capacity > 0
    ensures forall k: int :: n - capacity < k < n + capacity && k != n ==> SlotOf(capacity, k) != SlotOf(capacity, n)
  {
    forall k: int | n - capacity < k < n + capacity && k != n
      ensures SlotOf(capacity, k) != SlotOf(capacity, n)
    {
      if k < n {
        ModApart(n, k, capacity);
      } else {
        ModApart(k, n, capacity);
      }
    }
  }

  datatype Cell = Cell(sequence: int, data: Value)

  /** History of one call: the shared counter's ticket when the call began, and how often the call
      has gone round its loop because the counter had moved. */
  datatype Call = Call(from: nat, tries: nat)

  /** Where a thread stands. `head` and `tail` are the thread's local variables; `ticket` and
      `loaded` are history: the unbounded ticket the local variable stands for. */
  datatype Pc =
    | Ready(ok: bool)                                              // between calls; ok: last result
    | PushLoad(value: Value, call: Call)                           // tail = load(queue->tail)
    | PushScan(tail: int, loaded: nat, value: Value, call: Call)   // seq = load(cell->sequence); diff
    | PushCas(tail: int, loaded: nat, value: Value, call: Call)    // diff == 0: CAS(queue->tail)
    | PushWrite(tail: int, ticket: nat, value: Value)              // cell->data = data
    | PushPublish(tail: int, ticket: nat)                          // store(cell->sequence, tail + 1)
    | PullLoad(call: Call)                                         // head = load(queue->head)
    | PullScan(head: int, loaded: nat, call: Call)
    | PullCas(head: int, loaded: nat, call: Call)
    | PullRead(head: int, ticket: nat)                             // data = cell->data
    | PullPublish(head: int, ticket: nat, value: Value)            // store(sequence, head + mask + 1)

  /** The queue, the threads and the history. A push (pull) takes the next push (pull) ticket when
      its compare-exchange succeeds. */
  datatype State = State(
    capacity: nat,
    cells: seq<Cell>,
    head: int,
    tail: int,
    threads: seq<Pc>,
    pushed: seq<Value>,          // history: the value given to push ticket k
    claimed: nat,                // history: pull tickets taken so far
    pushing: map<nat, nat>,      // history: push tickets taken, not yet published, and by whom
    pulling: map<nat, nat>,      // history: pull tickets taken, not yet published, and by whom
    pulled: map<nat, Value>)     // history: the value returned for pull ticket k
  {
    predicate WellFormed() { capacity > 0 && |cells| == capacity }

    function Slot(x: int): nat requires capacity > 0 { SlotOf(capacity, x) }

    function CellOf(x: int): Cell requires WellFormed() { cells[Slot(x)] }

    function Goto(t: nat, pc: Pc): State requires t < |threads| { this.(threads := threads[t := pc]) }
  }

  datatype Op = Push(value: Value) | Pull

  /** A scheduler's choice: thread t starts a call, or thread t executes its next atomic access.
      `spurious` lets a weak compare-exchange fail for no reason. */
  datatype Step = Start(t: nat, op: Op) | Run(t: nat, spurious: bool)

  /** `mpmc_queue_init` with the threads idle. */
  function Init(capacity: nat, threads: nat): State {
    State(capacity, seq(capacity, i => Cell(i, 0)), 0, 0, seq(threads, _ => Ready(false)),
          [], 0, map[], map[], map[])
  }

  function Next(w: Arith, s: State, step: Step): (s': State)
    requires s.WellFormed()
    ensures s'.WellFormed() && s'.capacity == s.capacity && |s'.threads| == |s.threads|
  {
    if step.t >= |s.threads| then s
    else match step
      case Start(t, op) => if s.threads[t].Ready? then StartCall(s, t, op) else s
      case Run(t, spurious) => RunThread(w, s, t, spurious)
  }

  function StartCall(s: State, t: nat, op: Op): State
    requires t < |s.threads|
  {
    match op
    case Push(v) => s.Goto(t, PushLoad(v, Call(|s.pushed|, 0)))
    case Pull => s.Goto(t, PullLoad(Call(s.claimed, 0)))
  }

  function Retry(c: Call): Call { c.(tries := c.tries + 1) }

  function RunThread(w: Arith, s: State, t: nat, spurious: bool): (s': State)
    requires s.WellFormed() && t < |s.threads|
    ensures s'.WellFormed() && s'.capacity == s.capacity && |s'.threads| == |s.threads|
  {
    match s.threads[t]
    case Ready(_) => s
    case PushLoad(v, c) => s.Goto(t, PushScan(s.tail, |s.pushed|, v, c))
    case PushScan(tail, k, v, c) =>
      var diff := w.Diff(s.CellOf(tail).sequence, tail);
      if diff == 0 then s.Goto(t, PushCas(tail, k, v, c))
      else if diff < 0 then s.Goto(t, Ready(false))
      else s.Goto(t, PushLoad(v, Retry(c)))
    case PushCas(tail, k, v, c) =>
      if s.tail != tail then s.Goto(t, PushScan(s.tail, |s.pushed|, v, Retry(c)))
      else if spurious then s.Goto(t, PushScan(s.tail, |s.pushed|, v, c))
      else
        var n := |s.pushed|;
        s.(tail := w.Of(tail + 1), pushed := s.pushed + [v], pushing := s.pushing[n := t],
           threads := s.threads[t := PushWrite(tail, n, v)])
    case PushWrite(tail, n, v) =>
      s.(cells := s.cells[s.Slot(tail) := s.CellOf(tail).(data := v)],
         threads := s.threads[t := PushPublish(tail, n)])
    case PushPublish(tail, n) =>
      s.(cells := s.cells[s.Slot(tail) := s.CellOf(tail).(sequence := w.Of(tail + 1))],
         pushing := s.pushing - {n},
         threads := s.threads[t := Ready(true)])
    case PullLoad(c) => s.Goto(t, PullScan(s.head, s.claimed, c))
    case PullScan(head, k, c) =>
      var diff := w.Diff(s.CellOf(head).sequence, w.Of(head + 1));
      if diff == 0 then s.Goto(t, PullCas(head, k, c))
      else if diff < 0 then s.Goto(t, Ready(false))
      else s.Goto(t, PullLoad(Retry(c)))
    case PullCas(head, k, c) =>
      if s.head != head then s.Goto(t, PullScan(s.head, s.claimed, Retry(c)))
      else if spurious then s.Goto(t, PullScan(s.head, s.claimed, c))
      else
        var n := s.claimed;
        s.(head := w.Of(head + 1), claimed := n + 1, pulling := s.pulling[n := t],
           threads := s.threads[t := PullRead(head, n)])
    case PullRead(head, n) => s.Goto(t, PullPublish(head, n, s.CellOf(head).data))
    case PullPublish(head, n, v) =>
      s.(cells := s.cells[s.Slot(head) := s.CellOf(head).(sequence := w.Of(head + s.capacity))],
         pulling := s.pulling - {n}, pulled := s.pulled[n := v],
         threads := s.threads[t := Ready(true)])
  }

  /** The state after a schedule, from the initial state. */
  function Execute(w: Arith, capacity: nat, threads: nat, steps: seq<Step>): (s: State)
    requires capacity > 0
    ensures s.WellFormed() && s.capacity == capacity && |s.threads| == threads
  {
    if steps == [] then Init(capacity, threads)
    else Next(w, Execute(w, capacity, threads, steps[..|steps| - 1]), steps[|steps| - 1])
  }
}
