/** The deadlines around the poll ring, from its head, as a sequence; and what happens to them in a run. */
module PollSchedule {
  import opened Words

  ghost predicate NoLater(d: seq<nat>, i: nat, j: nat)
    requires i < |d| && j < |d|
  {
    d[i] <= d[j]
  }

  /** Never decreasing from the head on. */
  ghost predicate Sorted(d: seq<nat>) {
    forall i: nat, j: nat {:trigger NoLater(d, i, j)} | i < j < |d| :: NoLater(d, i, j)
  }

  /** How many entries are due. */
  ghost function Due(d: seq<nat>, current: nat): nat {
    if d == [] then 0 else Due(d[..|d| - 1], current) + if d[|d| - 1] <= current then 1 else 0
  }

  /** Looking at the head is enough: it is due exactly when some entry is. */
  lemma HeadTells(d: seq<nat>, current: nat)
    requires Sorted(d)
    ensures (d != [] && d[0] <= current) <==> exists i :: 0 <= i < |d| && d[i] <= current
  {
    forall i: nat | i < |d|
      ensures d[0] <= d[i]
    {
      assert i > 0 ==> NoLater(d, 0, i);
    }
  }

  lemma {:induction false} DueNone(d: seq<nat>, current: nat)
    ensures Due(d, current) == 0 <==> forall i | 0 <= i < |d| :: d[i] > current
  {
    if d != [] {
      var e := d[..|d| - 1];
      DueNone(e, current);
      assert forall i | 0 <= i < |e| :: e[i] == d[i];
    }
  }

  lemma {:induction false} DueWithout(d: seq<nat>, i: nat, current: nat)
    requires i < |d|
    ensures Due(d[..i] + d[i + 1..], current) + (if d[i] <= current then 1 else 0) == Due(d, current)
  {
    var e := d[..i] + d[i + 1..];
    if i == |d| - 1 {
      assert e == d[..|d| - 1];
    } else {
      DueWithout(d[..|d| - 1], i, current);
      assert e[..|e| - 1] == d[..|d| - 1][..i] + d[..|d| - 1][i + 1..];
    }
  }

  lemma DueWith(d: seq<nat>, deadline: nat, current: nat)
    ensures Due(d + [deadline], current) == Due(d, current) + if deadline <= current then 1 else 0
  {
    assert (d + [deadline])[..|d|] == d;
  }

  /** The deadlines, the time in seconds, and the throttle: an offset that grows when the 32-bit count of the
      operations in one tick wraps. */
  datatype Poll = Poll(deadlines: seq<nat>, current: nat, offset: nat, opCount: Uint32)

  /** `fl_init` has nothing else to set. */
  const START: Poll := Poll([], 0, 0, 0)

  /** What can happen: a tick, the head is put off, an entry is added, an entry is removed. */
  datatype Event = Tick | Stamp | Insert | Delete(i: nat)

  /** A pass looks at the head before it puts it off. */
  ghost predicate Possible(p: Poll, e: Event) {
    match e
    case Tick => true
    case Stamp => p.deadlines != [] && p.deadlines[0] <= p.current
    case Insert => true
    case Delete(i) => i < |p.deadlines|
  }

  /** An addition that wraps the count. */
  predicate Wraps(p: Poll, e: Event) { e.Insert? && p.opCount == TWO_32 - 1 }

  ghost function Next(p: Poll, e: Event, interval: nat): Poll
    requires Possible(p, e)
  {
    var d := p.deadlines;
    match e
    case Tick => p.(current := p.current + 1, opCount := 0)
    case Stamp => p.(deadlines := d[1..] + [p.current + interval])
    case Insert =>
      var offset := p.offset + if Wraps(p, e) then 1 else 0;
      p.(deadlines := d + [p.current + interval + offset], offset := offset, opCount := Wrap32(p.opCount + 1))
    case Delete(i) => p.(deadlines := d[..i] + d[i + 1..], opCount := Wrap32(p.opCount + 1))
  }

  /** No deadline is further away than an addition would make it now. */
  ghost predicate Within(p: Poll, interval: nat) {
    forall i | 0 <= i < |p.deadlines| :: p.deadlines[i] <= p.current + interval + p.offset
  }

  ghost predicate InOrder(p: Poll, interval: nat) { Sorted(p.deadlines) && Within(p, interval) }

  /** The head is put off, but not as far as the entry before it around the ring. */
  ghost predicate Overtakes(p: Poll, e: Event, interval: nat) {
    e == Stamp && |p.deadlines| >= 2 && p.deadlines[|p.deadlines| - 1] > p.current + interval
  }

  lemma EventSorts(p: Poll, e: Event, interval: nat)
    requires InOrder(p, interval) && Possible(p, e) && !Overtakes(p, e, interval)
    ensures Sorted(Next(p, e, interval).deadlines)
  {
    var d, a := p.deadlines, Next(p, e, interval).deadlines;
    forall i: nat, j: nat | i < j < |a|
      ensures NoLater(a, i, j)
    {
      match e {
        case Tick => assert NoLater(d, i, j);
        case Stamp =>
          assert j < |d| - 1 ==> NoLater(d, i + 1, j + 1);
          assert i + 1 < |d| - 1 ==> NoLater(d, i + 1, |d| - 1);
        case Insert => assert j < |d| ==> NoLater(d, i, j);
        case Delete(k) => assert NoLater(d, if i < k then i else i + 1, if j < k then j else j + 1);
      }
    }
  }

  lemma EventWithin(p: Poll, e: Event, interval: nat)
    requires Within(p, interval) && Possible(p, e)
    ensures Within(Next(p, e, interval), interval)
  {
  }

  /** The list stays sorted in any event but that one. */
  lemma EventKeeps(p: Poll, e: Event, interval: nat)
    requires InOrder(p, interval) && Possible(p, e)
    ensures var n := Next(p, e, interval); Within(n, interval) && (Sorted(n.deadlines) <==> !Overtakes(p, e, interval))
    ensures p.offset == 0 && !Wraps(p, e) ==> Next(p, e, interval).offset == 0 && !Overtakes(p, e, interval)
  {
    EventWithin(p, e, interval);
    if !Overtakes(p, e, interval) {
      EventSorts(p, e, interval);
    } else {
      var a := Next(p, e, interval).deadlines;
      assert !NoLater(a, |a| - 2, |a| - 1);
    }
  }

  ghost predicate AllPossible(p: Poll, es: seq<Event>, interval: nat)
    decreases |es|
  {
    es == [] || (Possible(p, es[0]) && AllPossible(Next(p, es[0], interval), es[1..], interval))
  }

  ghost function After(p: Poll, es: seq<Event>, interval: nat): Poll
    requires AllPossible(p, es, interval)
    decreases |es|
  {
    if es == [] then p else After(Next(p, es[0], interval), es[1..], interval)
  }

  ghost predicate AlwaysSorted(p: Poll, es: seq<Event>, interval: nat)
    requires AllPossible(p, es, interval)
    decreases |es|
  {
    Sorted(p.deadlines) && (es == [] || AlwaysSorted(Next(p, es[0], interval), es[1..], interval))
  }

  ghost predicate NeverOvertakes(p: Poll, es: seq<Event>, interval: nat)
    requires AllPossible(p, es, interval)
    decreases |es|
  {
    es == [] || (!Overtakes(p, es[0], interval) && NeverOvertakes(Next(p, es[0], interval), es[1..], interval))
  }

  /** Throughout a run the list is sorted if and only if no head is put off to a time before the last deadline. */
  lemma {:induction false} OrderExactly(p: Poll, es: seq<Event>, interval: nat)
    requires InOrder(p, interval) && AllPossible(p, es, interval)
    ensures AlwaysSorted(p, es, interval) <==> NeverOvertakes(p, es, interval)
    ensures NeverOvertakes(p, es, interval) ==> InOrder(After(p, es, interval), interval)
    decreases |es|
  {
    if es != [] {
      EventKeeps(p, es[0], interval);
      if !Overtakes(p, es[0], interval) {
        OrderExactly(Next(p, es[0], interval), es[1..], interval);
      } else {
        assert !Sorted(Next(p, es[0], interval).deadlines);
      }
    }
  }

  /** Once the throttle has raised the offset, which nothing lowers, every addition in a tick that has heads to put off
      still breaks the order. */
  lemma OffsetOvertakes(p: Poll, interval: nat)
    requires Possible(p, Stamp) && p.offset > 0
    ensures Possible(Next(p, Insert, interval), Stamp)
    ensures !Sorted(Next(Next(p, Insert, interval), Stamp, interval).deadlines)
  {
    var a := Next(Next(p, Insert, interval), Stamp, interval).deadlines;
    assert !NoLater(a, |a| - 2, |a| - 1);
  }

  /** At no time have there been 2^32 or more counted operations since the last tick; n of them came before. */
  predicate FewOperations(n: nat, es: seq<Event>)
    decreases |es|
  {
    es == [] || match es[0]
      case Tick => FewOperations(0, es[1..])
      case Stamp => FewOperations(n, es[1..])
      case _ => n + 1 < TWO_32 && FewOperations(n + 1, es[1..])
  }

  lemma {:induction false} FewNeverOvertake(p: Poll, es: seq<Event>, interval: nat)
    requires InOrder(p, interval) && p.offset == 0 && AllPossible(p, es, interval) && FewOperations(p.opCount, es)
    ensures NeverOvertakes(p, es, interval) && After(p, es, interval).offset == 0
    decreases |es|
  {
    if es != [] {
      EventKeeps(p, es[0], interval);
      FewNeverOvertake(Next(p, es[0], interval), es[1..], interval);
    }
  }

  /** Every run from the start with fewer than 2^32 additions and removals in each tick, whatever the threads
      do, keeps the offset at 0 and the list sorted. */
  lemma RunsStaySorted(es: seq<Event>, interval: nat)
    requires AllPossible(START, es, interval) && FewOperations(0, es)
    ensures AlwaysSorted(START, es, interval) && After(START, es, interval).offset == 0
  {
    FewNeverOvertake(START, es, interval);
    OrderExactly(START, es, interval);
  }

  ghost function DueIn(p: Poll): nat { Due(p.deadlines, p.current) }

  lemma StampDue(p: Poll, interval: nat)
    requires Possible(p, Stamp) && interval >= 1
    ensures DueIn(Next(p, Stamp, interval)) + 1 == DueIn(p)
  {
    var d := p.deadlines;
    assert d[..0] + d[1..] == d[1..];
    DueWithout(d, 0, p.current);
    DueWith(d[1..], p.current + interval, p.current);
  }

  /** Between ticks nothing becomes due. */
  lemma EventDue(p: Poll, e: Event, interval: nat)
    requires Possible(p, e) && interval >= 1 && !e.Tick?
    ensures DueIn(Next(p, e, interval)) + (if e.Stamp? then 1 else 0) <= DueIn(p)
  {
    match e {
      case Stamp => StampDue(p, interval);
      case Insert => DueWith(p.deadlines, p.current + interval + p.offset + (if Wraps(p, e) then 1 else 0), p.current);
      case Delete(i) => DueWithout(p.deadlines, i, p.current);
    }
  }

  ghost function Stamps(es: seq<Event>): nat {
    if es == [] then 0 else (if es[0].Stamp? then 1 else 0) + Stamps(es[1..])
  }

  /** Whatever is added and removed meanwhile, a pass puts off no more entries than were due when it began. */
  lemma {:induction false} PassIsBounded(p: Poll, es: seq<Event>, interval: nat)
    requires AllPossible(p, es, interval) && interval >= 1 && forall e <- es :: !e.Tick?
    ensures Stamps(es) + DueIn(After(p, es, interval)) <= DueIn(p)
    decreases |es|
  {
    if es != [] {
      EventDue(p, es[0], interval);
      PassIsBounded(Next(p, es[0], interval), es[1..], interval);
    }
  }

  /** n heads in a row are due and put off. */
  ghost predicate CanStamp(p: Poll, n: nat, interval: nat)
    decreases n
  {
    n == 0 || (Possible(p, Stamp) && CanStamp(Next(p, Stamp, interval), n - 1, interval))
  }

  /** The entries that are due come first. */
  ghost predicate DueFirst(d: seq<nat>, current: nat) {
    forall i, j | 0 <= i < j < |d| && d[j] <= current :: d[i] <= current
  }

  lemma SortedDueFirst(d: seq<nat>, current: nat)
    requires Sorted(d)
    ensures DueFirst(d, current)
  {
    forall i: nat, j: nat | i < j < |d| && d[j] <= current
      ensures d[i] <= current
    {
      assert NoLater(d, i, j);
    }
  }

  lemma {:induction false} DueAreStamped(p: Poll, n: nat, interval: nat)
    requires DueFirst(p.deadlines, p.current) && interval >= 1
    ensures CanStamp(p, n, interval) <==> n <= DueIn(p)
    decreases n
  {
    DueNone(p.deadlines, p.current);
    if n > 0 && Possible(p, Stamp) {
      StampDue(p, interval);
      DueAreStamped(Next(p, Stamp, interval), n - 1, interval);
    }
  }

  ghost predicate AllDue(p: Poll) { forall i | 0 <= i < |p.deadlines| :: p.deadlines[i] <= p.current }

  lemma {:induction false} AlwaysDue(p: Poll, n: nat)
    requires AllDue(p) && p.deadlines != []
    ensures CanStamp(p, n, 0)
    decreases n
  {
    if n > 0 {
      AlwaysDue(Next(p, Stamp, 0), n - 1);
    }
  }

  /** A pass over a sorted list that nobody disturbs puts off exactly the entries that are due. But with an interval
      of 0, while the throttle has added nothing, it never ends unless the list is empty. */
  lemma PassLength(p: Poll, n: nat, interval: nat)
    requires Sorted(p.deadlines)
    ensures interval >= 1 ==> (CanStamp(p, n, interval) <==> n <= DueIn(p))
    ensures interval == 0 && Within(p, 0) && p.offset == 0 ==> (CanStamp(p, n, 0) <==> n == 0 || p.deadlines != [])
  {
    if interval >= 1 {
      SortedDueFirst(p.deadlines, p.current);
      DueAreStamped(p, n, interval);
    } else if Within(p, 0) && p.offset == 0 && p.deadlines != [] {
      AlwaysDue(p, n);
    }
  }

  lemma {:induction false} OneMoreEvent(p: Poll, es: seq<Event>, e: Event, interval: nat)
    requires AllPossible(p, es, interval) && Possible(After(p, es, interval), e)
    ensures AllPossible(p, es + [e], interval) && After(p, es + [e], interval) == Next(After(p, es, interval), e, interval)
    decreases |es|
  {
    if es == [] {
      assert [e][1..] == [];
    } else {
      OneMoreEvent(Next(p, es[0], interval), es[1..], e, interval);
      assert (es + [e])[1..] == es[1..] + [e];
    }
  }

  /** The program can get there. */
  ghost predicate Reached(p: Poll, interval: nat) {
    exists es :: AllPossible(START, es, interval) && After(START, es, interval) == p
  }

  lemma ReachedNext(p: Poll, e: Event, interval: nat)
    requires Reached(p, interval) && Possible(p, e)
    ensures Reached(Next(p, e, interval), interval)
  {
    var es :| AllPossible(START, es, interval) && After(START, es, interval) == p;
    OneMoreEvent(START, es, e, interval);
  }

  lemma {:induction false} Ticks(p: Poll, n: nat, interval: nat)
    requires Reached(p, interval)
    ensures Reached(p.(current := p.current + n, opCount := if n == 0 then p.opCount else 0), interval)
  {
    if n > 0 {
      Ticks(p, n - 1, interval);
      ReachedNext(p.(current := p.current + n - 1, opCount := if n == 1 then p.opCount else 0), Tick, interval);
    }
  }

  /** An entry comes and goes n times. */
  lemma {:induction false} Visits(deadline: nat, current: nat, opCount: Uint32, n: nat, interval: nat)
    requires Reached(Poll([deadline], current, 0, opCount), interval) && opCount + 2 * n < TWO_32
    ensures Reached(Poll([deadline], current, 0, opCount + 2 * n), interval)
  {
    if n > 0 {
      Visits(deadline, current, opCount, n - 1, interval);
      var p := Poll([deadline], current, 0, opCount + 2 * n - 2);
      var q := Poll([deadline, current + interval], current, 0, opCount + 2 * n - 1);
      ReachedNext(p, Insert, interval);
      assert Next(p, Insert, interval) == q;
      ReachedNext(q, Delete(1), interval);
      assert Next(q, Delete(1), interval) == Poll([deadline], current, 0, opCount + 2 * n);
    }
  }

  /** Two entries; one of them goes when both are due. */
  lemma OneIsDue(interval: nat)
    ensures Reached(Poll([interval], interval + 1, 0, 1), interval)
  {
    var p := Poll([interval], 0, 0, 1);
    var q := Poll([interval, interval], 0, 0, 2);
    assert AllPossible(START, [], interval) && After(START, [], interval) == START;
    ReachedNext(START, Insert, interval);
    assert Next(START, Insert, interval) == p;
    ReachedNext(p, Insert, interval);
    assert Next(p, Insert, interval) == q;
    Ticks(q, interval + 1, interval);
    ReachedNext(q.(current := interval + 1, opCount := 0), Delete(1), interval);
    assert Next(q.(current := interval + 1, opCount := 0), Delete(1), interval) == Poll([interval], interval + 1, 0, 1);
  }

  /** With any interval, the program can get to a pass that ends at its head although an entry is due. */
  lemma PassCanMiss(interval: nat)
    ensures exists p :: Reached(p, interval) && !Possible(p, Stamp) && DueIn(p) > 0
  {
    var now := interval + 1;
    OneIsDue(interval);
    Visits(interval, now, 1, TWO_31 - 1, interval);
    var p := Poll([interval], now, 0, TWO_32 - 1);
    var q := Poll([interval, now + interval + 1], now, 1, 0);
    var r := Poll([now + interval + 1, now + interval], now, 1, 0);
    ReachedNext(p, Insert, interval);
    assert Next(p, Insert, interval) == q;
    ReachedNext(q, Stamp, interval);
    assert Next(q, Stamp, interval) == r;
    Ticks(r, interval, interval);
    var s := r.(current := now + interval);
    DueNone(s.deadlines, s.current);
    assert s.deadlines[1] <= s.current;
  }
}
