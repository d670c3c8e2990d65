/** The poll list: a circular doubly linked list of flow entries, looked at only at its head. */
module PollRing {
  import opened Words
  import opened PollSchedule
  import opened PollPass

  /** The poll part of a flow entry. */
  class PollEntry {
    var prev: PollEntry?
    var next: PollEntry?
    var nextUpdate: nat

    /** Memory from `calloc`. */
    constructor ()
      ensures prev == null && next == null && nextUpdate == 0
    {
      prev, next, nextUpdate := null, null, 0;
    }
  }

  /** No deadline is too far away; and they are sorted, as long as the throttle has added nothing. */
  ghost predicate Regular(p: Poll, interval: nat) { Within(p, interval) && (p.offset == 0 ==> Sorted(p.deadlines)) }

  lemma RegularNext(p: Poll, e: Event, interval: nat)
    requires Regular(p, interval) && Possible(p, e)
    ensures Regular(Next(p, e, interval), interval)
  {
    EventWithin(p, e, interval);
    if p.offset == 0 {
      EventKeeps(p, e, interval);
    }
  }

  ghost function Entries(list: seq<PollEntry>): set<PollEntry> { set x | x in list }

  lemma EntriesMore(list: seq<PollEntry>, a: nat)
    requires a < |list|
    ensures Entries(list[..a + 1]) == Entries(list[..a]) + {list[a]}
  {
    assert list[..a + 1] == list[..a] + [list[a]];
  }

  class Ring {
    var head: PollEntry?
    var current: nat                // poll_current, in seconds
    var offset: nat
    var opCount: Uint32             // poll_op_count
    const interval: nat
    ghost var members: seq<PollEntry>   // from the head along `next`
    ghost var deadlines: seq<nat>       // their deadlines

    /** Member i points to its neighbours around the ring, and has its deadline. */
    ghost predicate LinkAt(i: nat)
      requires i < |members| == |deadlines|
      reads this`members, this`deadlines, members
    {
      && members[i].nextUpdate == deadlines[i]
      && members[i].next == members[if i + 1 < |members| then i + 1 else 0]
      && members[i].prev == members[if i > 0 then i - 1 else |members| - 1]
    }

    ghost predicate Linked()
      reads this`head, this`members, this`deadlines, members
    {
      && |members| == |deadlines|
      && (forall i, j | 0 <= i < j < |members| :: members[i] != members[j])
      && (forall i: nat {:trigger LinkAt(i)} | i < |members| :: LinkAt(i))
      && head == if members == [] then null else members[0]
    }

    ghost function State(): Poll
      reads this
    {
      Poll(deadlines, current, offset, opCount)
    }

    /** The members with their deadlines. */
    ghost function Now(): Line<PollEntry>
      reads this`members, this`deadlines
    {
      Line(members, deadlines)
    }

    /** Linked up; and in order, as long as the throttle has added nothing. */
    ghost predicate Valid()
      reads this, members
    {
      Linked() && Regular(State(), interval)
    }

    /** An entry without links is not a member. */
    lemma UnlinkedIsOutside(entry: PollEntry)
      requires Linked() && entry.next == null
      ensures entry !in members
    {
      forall i: nat | i < |members|
        ensures members[i] != entry
      {
        assert LinkAt(i);
      }
    }

    constructor (interval: nat)
      ensures Valid() && members == [] && State() == START && this.interval == interval
    {
      this.interval := interval;
      head, current, offset, opCount, members, deadlines := null, 0, 0, 0, [], [];
    }

    /** `++poll_op_count`, an unsigned 32-bit counter. */
    method CountOperation()
      modifies this`opCount
      ensures opCount == Wrap32(old(opCount) + 1)
    {
      opCount := if opCount + 1 == TWO_32 then 0 else opCount + 1;
    }

    /** The throttle of `fl_add_poll`: the offset grows when the counter wraps. */
    method CountAddition()
      modifies this`opCount, this`offset
      ensures opCount == Wrap32(old(opCount) + 1) && offset == old(offset) + if old(opCount) == TWO_32 - 1 then 1 else 0
    {
      CountOperation();
      if opCount == 0 {
        offset := offset + 1;
      }
    }

    /** The pointer assignments of `fl_add_poll`. */
    method SetLinks(entry: PollEntry)
      requires Linked()
      modifies this`head, members`next, members`prev, entry`next, entry`prev
      ensures members == [] ==> head == entry.next == entry.prev == entry
      ensures members != [] ==> var last := members[|members| - 1];
        && head == old(head) && head.prev == entry && last.next == entry
        && (entry != last ==> entry.next == head) && (entry != head ==> entry.prev == last)
      ensures forall k | 0 <= k < |members| - 1 && members[k] != entry :: members[k].next == old(members[k].next)
      ensures forall k | 0 < k < |members| && members[k] != entry :: members[k].prev == old(members[k].prev)
    {
      if head == null {
        head := entry;
        entry.next := entry;
        entry.prev := entry;
      } else {
        assert LinkAt(0) && LinkAt(|members| - 1);
        entry.next := head;
        entry.prev := head.prev;
        entry.prev.next := entry;
        head.prev := entry;
      }
    }

    /** The entry comes just before the head. */
    method Link(entry: PollEntry)
      requires Linked() && entry !in members
      modifies this`head, this`members, this`deadlines, members`next, members`prev, entry`next, entry`prev
      ensures Linked() && members == old(members) + [entry] && deadlines == old(deadlines) + [entry.nextUpdate]
    {
      ghost var n := |members|;
      SetLinks(entry);
      members, deadlines := members + [entry], deadlines + [entry.nextUpdate];
      forall i: nat | i < |members|
        ensures LinkAt(i)
      {
        assert i < n ==> old(LinkAt(i));
      }
    }

    /** The same for an entry that is member i already. Whoever follows the links from the head does not get beyond it
        any more: it leads back to the head, or, if it was the last one, to itself. */
    method LinkAgain(entry: PollEntry, ghost i: nat)
      requires Linked() && i < |members| && members[i] == entry
      modifies this`head, members`next, members`prev
      ensures head == members[0]
      ensures forall k | 0 <= k < i :: members[k].next == members[k + 1]
      ensures entry.next == if i < |members| - 1 then head else entry
    {
      SetLinks(entry);
      forall k: nat | k < i
        ensures members[k].next == members[k + 1]
      {
        assert old(LinkAt(k));
      }
    }

    /** `fl_add_poll`, with the mutex held, for an entry without links. It becomes the last one around the ring. */
    method Add(entry: PollEntry)
      requires Valid() && entry.next == null && entry.prev == null
      modifies this`head, this`members, this`deadlines, this`opCount, this`offset, members`next, members`prev, entry
      ensures Valid() && entry !in old(members) && members == old(members) + [entry]
      ensures State() == Next(old(State()), Insert, interval)
      ensures entry.nextUpdate == current + interval + offset
      ensures offset == old(offset) + if old(opCount) == 0xffff_ffff then 1 else 0
    {
      UnlinkedIsOutside(entry);
      ghost var p := State();
      CountAddition();
      entry.nextUpdate := current + interval + offset;
      Link(entry);
      assert State() == Next(p, Insert, interval);
      RegularNext(p, Insert, interval);
    }

    /** The places of the neighbours in a ring of n. */
    static ghost function Before(n: nat, k: nat): nat { if k > 0 then k - 1 else if n == 0 then 0 else n - 1 }

    static ghost function Behind(n: nat, k: nat): nat { if k + 1 < n then k + 1 else 0 }

    /** Member k points to its neighbours around the ring without member i. */
    static ghost predicate LinkWithout(list: seq<PollEntry>, k: nat, i: nat)
      requires k < |list| && i < |list|
      reads list`next, list`prev
    {
      && list[k].next == list[if Behind(|list|, k) == i then Behind(|list|, i) else Behind(|list|, k)]
      && list[k].prev == list[if Before(|list|, k) == i then Before(|list|, i) else Before(|list|, k)]
    }

    lemma LinkedWithout(was: seq<PollEntry>, i: nat, k: nat)
      requires i < |was| && members == was[..i] + was[i + 1..] && k < |members| == |deadlines|
      requires LinkWithout(was, if k < i then k else k + 1, i) && members[k].nextUpdate == deadlines[k]
      ensures LinkAt(k)
    {
    }

    /** The assignments of `fl_remove_poll`, which join the neighbours of the entry. */
    method JoinNeighbours(entry: PollEntry, ghost i: nat)
      requires Linked() && i < |members| && members[i] == entry
      modifies this`head, members`next, members`prev
      ensures head == if |members| == 1 then null else if i == 0 then members[1] else members[0]
      ensures forall k: nat {:trigger LinkWithout(members, k, i)} | k < |members| && k != i :: LinkWithout(members, k, i)
      ensures entry.next != null && entry.prev != null
    {
      assert LinkAt(i) && LinkAt(Before(|members|, i)) && LinkAt(Behind(|members|, i));
      if head == entry {
        if entry.next == entry {
          head := null;
        } else {
          head := entry.next;
        }
      }
      entry.prev.next := entry.next;
      entry.next.prev := entry.prev;
      forall k: nat | k < |members| && k != i
        ensures LinkWithout(members, k, i)
      {
        assert old(LinkAt(k));
      }
    }

    /** The links that `fl_remove_poll` sets. */
    method Unlink(entry: PollEntry, ghost i: nat)
      requires Linked() && i < |members| && members[i] == entry
      modifies this`head, this`members, this`deadlines, members`next, members`prev
      ensures Linked() && members == old(members)[..i] + old(members)[i + 1..]
      ensures deadlines == old(deadlines)[..i] + old(deadlines)[i + 1..]
      ensures entry.next != null && entry.prev != null
    {
      JoinNeighbours(entry, i);
      ghost var was := members;
      members, deadlines := was[..i] + was[i + 1..], deadlines[..i] + deadlines[i + 1..];
      forall k: nat | k < |members|
        ensures LinkAt(k)
      {
        assert old(LinkAt(if k < i then k else k + 1));
        LinkedWithout(was, i, k);
      }
    }

    /** `fl_remove_poll`, with the mutex held, takes out exactly that member. The links of the entry
        itself stay: `fl_add_poll`, which asserts that they are null, cannot have it back as it is. */
    method Remove(entry: PollEntry, ghost i: nat)
      requires Valid() && i < |members| && members[i] == entry
      modifies this`head, this`members, this`deadlines, this`opCount, members`next, members`prev
      ensures Valid() && members == old(members)[..i] + old(members)[i + 1..]
      ensures State() == Next(old(State()), Delete(i), interval)
      ensures entry.next != null && entry.prev != null
    {
      ghost var p := State();
      Unlink(entry, i);
      CountOperation();
      assert State() == Next(p, Delete(i), interval);
      RegularNext(p, Delete(i), interval);
    }

    /** The start of a round of `fl_poll_main`. */
    method Tick()
      requires Valid()
      modifies this`current, this`opCount
      ensures Valid() && State() == Next(old(State()), Event.Tick, interval)
      ensures current == old(current) + 1 && opCount == 0
    {
      ghost var p := State();
      current := current + 1;
      opCount := 0;
      assert State() == Next(p, Event.Tick, interval);
      RegularNext(p, Event.Tick, interval);
    }

    /** The assignments of one step of the inner pass of `fl_poll_main`. */
    method Turn() returns (entry: PollEntry)
      requires Linked() && Possible(State(), Stamp)
      modifies this`head, this`members, this`deadlines, members`nextUpdate
      ensures Linked() && State() == Next(old(State()), Stamp, interval)
      ensures members == old(members)[1..] + old(members)[..1] && entry == head == members[0]
      ensures old(head).nextUpdate == current + interval
    {
      assert LinkAt(0);
      head.nextUpdate := current + interval;
      entry := head.next;
      head := entry;
      members, deadlines := members[1..] + members[..1], deadlines[1..] + [current + interval];
      forall i: nat | i < |members|
        ensures LinkAt(i)
      {
        assert old(LinkAt(if i + 1 < |members| then i + 1 else 0));
      }
    }

    /** One step of the inner pass of `fl_poll_main`: when the head is due it is put off, the ring turns
        by one, and the entry to be handled is the new head. */
    method Step() returns (entry: PollEntry?)
      requires Valid()
      modifies this`head, this`members, this`deadlines, members`nextUpdate
      ensures Valid() && (entry != null <==> Possible(old(State()), Stamp))
      ensures entry != null <==> old(head) != null && old(head.nextUpdate) <= current
      ensures entry != null ==> old(head).nextUpdate == current + interval
      ensures entry == null ==> members == old(members) && State() == old(State())
      ensures entry != null ==> members == old(members)[1..] + old(members)[..1] && entry == members[0]
      ensures entry != null ==> State() == Next(old(State()), Stamp, interval)
      ensures entry != null ==> Now() == old(Now()).Rotated(current + interval)
    {
      assert members != [] ==> LinkAt(0);
      if head == null || current < head.nextUpdate {
        return null;
      }
      ghost var p := State();
      entry := Turn();
      RegularNext(p, Stamp, interval);
    }

    /** The removal of the head, which was handed out and turned out to be untracked. */
    method DropHead(entry: PollEntry)
      requires Valid() && interval >= 1 && members != [] && members[0] == entry
      modifies this`head, this`members, this`deadlines, this`opCount, members`next, members`prev
      ensures Valid() && Now() == old(Now()).Rest() && DueIn(State()) <= DueIn(old(State()))
    {
      EventDue(State(), Delete(0), interval);
      ghost var m, d := members, deadlines;
      Remove(entry, 0);
      assert m[..0] + m[1..] == m[1..] && d[..0] + d[1..] == d[1..];
    }

    /** A step of the pass, and the removal that follows when the entry handed out turns out to be untracked. */
    method StepAndDrop(untracked: set<PollEntry>) returns (more: bool)
      requires Valid() && interval >= 1
      modifies this`head, this`members, this`deadlines, this`opCount, members`next, members`prev, members`nextUpdate
      ensures Valid() && more == Possible(old(State()), Stamp) && (!more ==> State() == old(State()) && members == old(members))
      ensures more ==> DueIn(State()) < DueIn(old(State())) && Now() == old(Now()).Handed(current + interval, untracked)
    {
      ghost var q := State();
      var entry := Step();
      more := entry != null;
      if more {
        EventDue(q, Stamp, interval);
        if entry in untracked {
          DropHead(entry);
        }
      }
    }

    /** The account of a pass agrees with the list. */
    ghost predicate Accounts(s: Setting<PollEntry>, hs: seq<Happening<PollEntry>>)
      reads this
    {
      && |s.start.members| == |s.start.deadlines| && s.current == current && s.interval == interval
      && Happens(s, hs) && Course(s, hs).line == Now()
    }

    /** The same, with an account of the pass. */
    method Handle(untracked: set<PollEntry>, ghost s: Setting<PollEntry>, ghost hs: seq<Happening<PollEntry>>) returns (more: bool)
      requires Valid() && interval >= 1 && Accounts(s, hs) && s.untracked == untracked
      modifies this`head, this`members, this`deadlines, this`opCount, members`next, members`prev, members`nextUpdate
      ensures Valid() && forall i | 0 <= i < |members| :: members[i] in old(members)
      ensures more == Possible(old(State()), Stamp) && (!more ==> State() == old(State()) && Accounts(s, hs))
      ensures more ==> DueIn(State()) < DueIn(old(State())) && Accounts(s, hs + [Handed]) && Course(s, hs + [Handed]).arrived == Course(s, hs).arrived
    {
      ghost var line := Now();
      more := StepAndDrop(untracked);
      if more {
        HandedMore(s, hs, line, Now());
        HandedStay(line, current + interval, untracked);
      }
    }

    /** These entries wait to be added. */
    ghost predicate Waiting(arrivals: seq<PollEntry>, from: nat)
      reads arrivals
    {
      forall k | from <= k < |arrivals| :: arrivals[k].next == null && arrivals[k].prev == null
    }

    lemma WaitingOutside(arrivals: seq<PollEntry>, from: nat)
      requires Linked() && Waiting(arrivals, from)
      ensures forall k | from <= k < |arrivals| :: arrivals[k] !in members
    {
      forall k | from <= k < |arrivals|
        ensures arrivals[k] !in members
      {
        UnlinkedIsOutside(arrivals[k]);
      }
    }

    /** Another thread adds an entry while the pass goes on. */
    method Arrive(entry: PollEntry, ghost s: Setting<PollEntry>, ghost hs: seq<Happening<PollEntry>>) returns (ghost h: Happening<PollEntry>)
      requires Valid() && interval >= 1 && entry.next == null && entry.prev == null
      requires Accounts(s, hs) && entry !in s.start.members && entry !in Course(s, hs).arrived
      modifies this`head, this`members, this`deadlines, this`opCount, this`offset, members`next, members`prev, entry
      ensures Valid() && members == old(members) + [entry] && DueIn(State()) <= DueIn(old(State()))
      ensures Accounts(s, hs + [h]) && Course(s, hs + [h]).arrived == Course(s, hs).arrived + {entry}
    {
      EventDue(State(), Insert, interval);
      ghost var n := |deadlines|;
      Add(entry);
      h := Came(entry, deadlines[n]);
      OneMore(s, hs, h);
    }

    /** The pass goes on, and so many arrivals have come. */
    ghost predicate Running(arrivals: seq<PollEntry>, a: nat, s: Setting<PollEntry>, hs: seq<Happening<PollEntry>>)
      reads this, members, arrivals
    {
      && Valid() && interval >= 1 && Accounts(s, hs) && a <= |arrivals| && Waiting(arrivals, a)
      && Course(s, hs).arrived == Entries(arrivals[..a])
      && (forall i, j | 0 <= i < j < |arrivals| :: arrivals[i] != arrivals[j])
      && forall k | 0 <= k < |arrivals| :: arrivals[k] !in s.start.members
    }

    /** An arrival, or a step of the pass. */
    method GoOn(arrivals: seq<PollEntry>, a: nat, untracked: set<PollEntry>, ghost s: Setting<PollEntry>, ghost hs: seq<Happening<PollEntry>>)
      returns (more: bool, arrival: bool, ghost next: seq<Happening<PollEntry>>)
      requires Running(arrivals, a, s, hs) && s.untracked == untracked
      modifies this`head, this`members, this`deadlines, this`opCount, this`offset, members, arrivals
      ensures a < |arrivals| || !arrival
      ensures Running(arrivals, if arrival then a + 1 else a, s, next) && forall i | 0 <= i < |members| :: members[i] in old(members) + arrivals
      ensures DueIn(State()) + (if more && !arrival then 1 else 0) <= DueIn(old(State()))
      ensures !more ==> !Possible(State(), Stamp)
    {
      WaitingOutside(arrivals, a);
      arrival := a < |arrivals|;
      if arrival {
        arrival := *;
      }
      if arrival {
        EntriesMore(arrivals, a);
        ghost var h := Arrive(arrivals[a], s, hs);
        more, next := true, hs + [h];
      } else {
        more := Handle(untracked, s, hs);
        next := if more then hs + [Handed] else hs;
      }
    }

    /** The loop of the pass. */
    method RunPass(arrivals: seq<PollEntry>, untracked: set<PollEntry>, ghost s: Setting<PollEntry>)
      returns (steps: nat, ghost hs: seq<Happening<PollEntry>>)
      requires Running(arrivals, 0, s, []) && s.untracked == untracked
      modifies this`head, this`members, this`deadlines, this`opCount, this`offset, members, arrivals
      ensures Valid() && steps <= DueIn(old(State())) && !Possible(State(), Stamp) && Accounts(s, hs)
      ensures exists a :: 0 <= a <= |arrivals| && Course(s, hs).arrived == Entries(arrivals[..a])
    {
      steps, hs := 0, [];
      var more, a := true, 0;
      while more
        invariant Running(arrivals, a, s, hs)
        invariant forall i | 0 <= i < |members| :: members[i] in old(members) + arrivals
        invariant steps + DueIn(State()) <= DueIn(old(State()))
        invariant !more ==> !Possible(State(), Stamp)
        decreases DueIn(State()) + |arrivals| - a + if more then 1 else 0
      {
        var arrival;
        more, arrival, hs := GoOn(arrivals, a, untracked, s, hs);
        if arrival {
          a := a + 1;
        } else if more {
          steps := steps + 1;
        }
      }
    }

    /** The inner pass of `fl_poll_main`, in which some entries turn out to be untracked when they are handed out, and other
        threads may add the arrivals at any time. It ends, after at most as many steps as entries were due when it began.
        When the due members came first, which is so if the deadlines were sorted, exactly these are put off or
        handed out and dropped, and no member is due in the end. */
    method Pass(arrivals: seq<PollEntry>, untracked: set<PollEntry>) returns (steps: nat, ghost s: Setting<PollEntry>, ghost p: Progress<PollEntry>)
      requires Valid() && interval >= 1
      requires Waiting(arrivals, 0) && forall i, j | 0 <= i < j < |arrivals| :: arrivals[i] != arrivals[j]
      modifies this`head, this`members, this`deadlines, this`opCount, this`offset, members, arrivals
      ensures Valid() && steps <= DueIn(old(State()))
      ensures s == Setting(old(Now()), untracked, current, interval) && p.line == Now() && Outcome(s, p)
      ensures exists a :: 0 <= a <= |arrivals| && p.arrived == Entries(arrivals[..a])
      ensures DueFirst(old(deadlines), current) ==>
                && (forall i | 0 <= i < |old(deadlines)| && old(deadlines)[i] <= current :: i < p.passed)
                && (forall i | 0 <= i < p.passed :: old(deadlines)[i] <= current || (i == p.passed - 1 && !PutOff(old(members), untracked, i)))
                && (forall i | 0 <= i < |members| :: members[i].nextUpdate > current)
    {
      s := Setting(Now(), untracked, current, interval);
      WaitingOutside(arrivals, 0);
      ghost var hs;
      steps, hs := RunPass(arrivals, untracked, s);
      p := Course(s, hs);
      HappeningsPass(s, hs);
      PassingOutcome(s, p);
      if DueFirst(s.start.deadlines, current) {
        PassEnds(s, p);
        forall i: nat | i < |members|
          ensures members[i].nextUpdate > current
        {
          assert LinkAt(i);
        }
      }
    }

    /** The walk of `fl_deinit`, which stops early when the write or the status reads for a member fail:
        `failsAt` is the number of members before that. Otherwise it visits every member once, in order. */
    method Drain(failsAt: nat) returns (ghost visited: seq<PollEntry>, count: nat)
      requires Valid()
      modifies this`head
      ensures visited == members[..if failsAt < |members| then failsAt else |members|] && count == |visited|
      ensures head == if failsAt < |members| then members[failsAt] else old(head)
    {
      visited, count := [], 0;
      var start := head;
      if head != null {
        var first := true;
        while first || start != head
          invariant 0 <= count <= |members| && visited == members[..count] && count <= failsAt
          invariant first == (count == 0) && members != [] && start == members[0]
          invariant head == members[if count < |members| then count else 0]
          invariant forall i: nat {:trigger LinkAt(i)} | i < |members| :: LinkAt(i)
          decreases |members| - count
        {
          if count == failsAt {
            break;
          }
          assert LinkAt(count);
          visited := visited + [head];
          count := count + 1;
          head := head.next;
          first := false;
        }
      }
    }
  }
}
