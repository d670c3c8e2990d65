/** What a pass over the poll list does to its members: who is put off, who is handed out, who goes. */
module PollPass {
  import opened PollSchedule

  /** Members with their deadlines, from the head on. */
  datatype Line<E> = Line(members: seq<E>, deadlines: seq<nat>) {
    /** The head is put off and becomes the last one. */
    ghost function Rotated(deadline: nat): Line<E>
      requires members != [] && deadlines != []
    {
      Line(members[1..] + members[..1], deadlines[1..] + [deadline])
    }

    ghost function Rest(): Line<E>
      requires members != [] && deadlines != []
    {
      Line(members[1..], deadlines[1..])
    }

    /** In addition the new head goes if it is untracked. */
    ghost function Handed(deadline: nat, untracked: set<E>): Line<E>
      requires members != [] && deadlines != []
    {
      if Rotated(deadline).members[0] in untracked then Rotated(deadline).Rest() else Rotated(deadline)
    }

    ghost predicate Ok() {
      |members| == |deadlines| && forall i, j | 0 <= i < j < |members| :: members[i] != members[j]
    }
  }

  /** Nobody comes in. */
  lemma HandedStay<E>(l: Line<E>, deadline: nat, untracked: set<E>)
    requires l.members != [] && l.deadlines != []
    ensures forall x <- l.Handed(deadline, untracked).members :: x in l.members
  {
  }

  /** Whether member i is put off when its turn comes. It is, unless it was handed out when the one before it was put
      off, and turned out to be untracked. */
  ghost predicate PutOff<E>(members: seq<E>, untracked: set<E>, i: nat)
    requires i < |members|
  {
    i == 0 || !(members[i] in untracked && PutOff(members, untracked, i - 1))
  }

  /** The entries that turn out to be untracked, the time, and how far a pass puts off. */
  datatype Setting<!E> = Setting(start: Line<E>, untracked: set<E>, current: nat, interval: nat) {
    ghost predicate Off(i: nat) requires i < |start.members| { PutOff(start.members, untracked, i) }
  }

  /** How far a pass has come: the list, how many old members it has passed, and the entries that came or were handed
      out meanwhile. */
  datatype Progress<!E> = Progress(line: Line<E>, passed: nat, arrived: set<E>, handed: set<E>)

  /** The members that were not passed come first, as they were. */
  ghost predicate Front<E>(s: Setting<E>, p: Progress<E>) {
    var n := |s.start.members| - p.passed;
    && 0 <= n <= |p.line.members| == |p.line.deadlines| && |s.start.members| == |s.start.deadlines|
    && p.line.members[..n] == s.start.members[p.passed..] && p.line.deadlines[..n] == s.start.deadlines[p.passed..]
  }

  /** Behind them are those that were put off, and those that came. */
  ghost predicate BackAt<E>(s: Setting<E>, p: Progress<E>, j: nat)
    requires j < |p.line.members| == |p.line.deadlines|
  {
    var x, d := p.line.members[j], p.line.deadlines[j];
    && (x in s.start.members ==> d == s.current + s.interval)
    && (x !in s.start.members ==> x in p.arrived && d >= s.current + s.interval)
  }

  ghost predicate Back<E>(s: Setting<E>, p: Progress<E>)
    requires |p.line.members| == |p.line.deadlines|
  {
    forall j: nat {:trigger BackAt(s, p, j)} | |s.start.members| - p.passed <= j < |p.line.members| :: BackAt(s, p, j)
  }

  /** Of the members that were passed, those that were put off were due. */
  ghost predicate PassedAt<E>(s: Setting<E>, p: Progress<E>, i: nat)
    requires i < |s.start.members| == |s.start.deadlines|
  {
    && (i < p.passed && s.Off(i) ==> s.start.deadlines[i] <= s.current)
    && (i > 0 ==> (s.start.members[i] in p.handed <==> i <= p.passed && s.Off(i - 1)))
  }

  /** While the pass goes on, the first one behind them is the old head, or came before that was put off. */
  ghost predicate Behind<E>(s: Setting<E>, p: Progress<E>) {
    var n := |s.start.members| - p.passed;
    0 < p.passed < |s.start.members| ==> n < |p.line.members| && (p.line.members[n] == s.start.members[0] || p.line.members[n] in p.arrived)
  }

  ghost predicate Passing<E>(s: Setting<E>, p: Progress<E>) {
    && s.interval >= 1 && s.start.Ok() && p.line.Ok() && Front(s, p) && Back(s, p) && Behind(s, p) && PassedAll(s, p)
    && (p.passed < |s.start.members| ==> s.Off(p.passed))
    && NobodyLost(s, p) && HandedOk(s, p)
  }

  /** Only untracked ones that were handed out go, and they do. */
  ghost predicate NobodyLost<E>(s: Setting<E>, p: Progress<E>) {
    && (forall x <- p.line.members :: (x in s.start.members || x in p.arrived) && !(x in p.handed && x in s.untracked))
    && (forall x <- s.start.members :: x in p.line.members || (x in p.handed && x in s.untracked))
    && (forall x <- p.arrived :: x in p.line.members || (x in p.handed && x in s.untracked))
  }

  ghost predicate PassedAll<E>(s: Setting<E>, p: Progress<E>)
    requires |s.start.members| == |s.start.deadlines|
  {
    forall i: nat {:trigger PassedAt(s, p, i)} | i < |s.start.members| :: PassedAt(s, p, i)
  }

  /** Who has come is not an old member; the old head, and who has come, are handed out only when all have been passed. */
  ghost predicate HandedOk<E>(s: Setting<E>, p: Progress<E>) {
    && (forall x <- p.arrived :: x !in s.start.members)
    && (forall x <- p.handed :: x in s.start.members || x in p.arrived)
    && (forall x <- p.handed | x in p.arrived || (s.start.members != [] && x == s.start.members[0]) :: p.passed == |s.start.members|)
  }

  lemma Begins<E>(s: Setting<E>)
    requires s.interval >= 1 && s.start.Ok()
    ensures Passing(s, Progress(s.start, 0, {}, {}))
  {
    forall i: nat | i < |s.start.members|
      ensures PassedAt(s, Progress(s.start, 0, {}, {}), i)
    {
    }
  }

  /** The head is put off, and the next one handed out. */
  ghost function Turned<E>(s: Setting<E>, p: Progress<E>): Progress<E>
    requires p.line.members != [] && |p.line.members| == |p.line.deadlines|
  {
    var line := p.line.Rotated(s.current + s.interval);
    Progress(line, p.passed + 1, p.arrived, p.handed + {line.members[0]})
  }

  /** The new head goes. */
  ghost function Dropped<E>(s: Setting<E>, p: Progress<E>): Progress<E>
    requires p.line.members != [] && |p.line.members| == |p.line.deadlines|
  {
    p.(line := p.line.Rest(), passed := p.passed + if p.passed < |s.start.members| then 1 else 0)
  }

  ghost function Stepped<E>(s: Setting<E>, p: Progress<E>): Progress<E>
    requires p.line.members != [] && |p.line.members| == |p.line.deadlines|
  {
    var t := Turned(s, p);
    if t.line.members[0] in s.untracked then Dropped(s, t) else t
  }

  /** What is due has not been passed. */
  lemma DueIsNext<E>(s: Setting<E>, p: Progress<E>)
    requires Passing(s, p) && p.line.members != [] && p.line.deadlines[0] <= s.current
    ensures p.passed < |s.start.members| && p.line.members[0] == s.start.members[p.passed]
    ensures s.start.deadlines[p.passed] <= s.current
  {
    assert p.passed == |s.start.members| ==> BackAt(s, p, 0);
    if p.passed < |s.start.members| {
      assert p.line.members[..|s.start.members| - p.passed][0] == s.start.members[p.passed..][0];
      assert p.line.deadlines[..|s.start.members| - p.passed][0] == s.start.deadlines[p.passed..][0];
    }
  }

  lemma TurnedFront<E>(s: Setting<E>, p: Progress<E>)
    requires Passing(s, p) && p.line.members != [] && p.line.deadlines[0] <= s.current
    ensures var t := Turned(s, p); t.line.Ok() && Front(s, t) && Back(s, t)
    ensures forall x :: x in Turned(s, p).line.members <==> x in p.line.members
  {
    DueIsNext(s, p);
    var t, n := Turned(s, p), |s.start.members| - p.passed;
    assert p.line.members[..n][1..] == p.line.members[1..n] == t.line.members[..n - 1];
    assert p.line.deadlines[..n][1..] == p.line.deadlines[1..n] == t.line.deadlines[..n - 1];
    assert s.start.members[p.passed..][1..] == s.start.members[p.passed + 1..];
    assert s.start.deadlines[p.passed..][1..] == s.start.deadlines[p.passed + 1..];
    forall j: nat | n - 1 <= j < |t.line.members|
      ensures BackAt(s, t, j)
    {
      if j < |t.line.members| - 1 {
        assert BackAt(s, p, j + 1);
      }
    }
  }

  /** Who is handed out when member p.passed is put off. */
  lemma HandedNext<E>(s: Setting<E>, p: Progress<E>)
    requires Passing(s, p) && p.line.members != [] && p.line.deadlines[0] <= s.current
    ensures var x, i := Turned(s, p).line.members[0], p.passed + 1;
      if i < |s.start.members| then x == s.start.members[i] else (s.start.members != [] && x == s.start.members[0]) || x in p.arrived
  {
    DueIsNext(s, p);
    TurnedFront(s, p);
    var t, n := Turned(s, p), |s.start.members| - p.passed;
    if n > 1 {
      assert t.line.members[..n - 1][0] == s.start.members[p.passed + 1..][0];
    } else if p.passed == 0 && |p.line.members| > 1 {
      assert BackAt(s, p, 1);
    }
  }

  /** Putting off member p.passed keeps the account of those that were passed. */
  lemma TurnedPassed<E>(s: Setting<E>, p: Progress<E>)
    requires Passing(s, p) && p.line.members != [] && p.line.deadlines[0] <= s.current
    ensures PassedAll(s, Turned(s, p)) && HandedOk(s, Turned(s, p)) && Behind(s, Turned(s, p))
  {
    DueIsNext(s, p);
    HandedNext(s, p);
    var t, n := Turned(s, p), |s.start.members| - p.passed;
    forall i: nat | i < |s.start.members|
      ensures PassedAt(s, t, i)
    {
      assert PassedAt(s, p, i);
    }
    if p.passed == 0 && 1 < |s.start.members| && n < |p.line.members| {
      assert BackAt(s, p, n);
      assert p.line.members[..n] == s.start.members;
    }
  }

  /** One step of the pass. */
  lemma StepPasses<E>(s: Setting<E>, p: Progress<E>)
    requires Passing(s, p) && p.line.members != [] && p.line.deadlines[0] <= s.current
    ensures Passing(s, Stepped(s, p))
  {
    DueIsNext(s, p);
    HandedNext(s, p);
    TurnedFront(s, p);
    TurnedPassed(s, p);
    if Turned(s, p).line.members[0] in s.untracked {
      DroppedPasses(s, p, Turned(s, p));
    }
  }

  lemma DroppedFront<E>(s: Setting<E>, t: Progress<E>)
    requires t.line.members != [] && t.line.Ok() && Front(s, t) && Back(s, t)
    ensures var u := Dropped(s, t); u.line.Ok() && Front(s, u) && Back(s, u)
    ensures forall x :: x in Dropped(s, t).line.members <==> x in t.line.members && x != t.line.members[0]
  {
    var u, n := Dropped(s, t), |s.start.members| - t.passed;
    if n > 0 {
      assert t.line.members[..n][1..] == u.line.members[..n - 1];
      assert t.line.deadlines[..n][1..] == u.line.deadlines[..n - 1];
      assert s.start.members[t.passed..][1..] == s.start.members[u.passed..];
      assert s.start.deadlines[t.passed..][1..] == s.start.deadlines[u.passed..];
    }
    forall j: nat | |s.start.members| - u.passed <= j < |u.line.members|
      ensures BackAt(s, u, j)
    {
      assert BackAt(s, t, j + 1);
    }
  }

  lemma DroppedPassed<E>(s: Setting<E>, t: Progress<E>)
    requires s.start.Ok() && PassedAll(s, t) && t.passed <= |s.start.members| && t.line.members != [] && |t.line.members| == |t.line.deadlines|
    requires t.passed < |s.start.members| ==> !s.Off(t.passed)
    ensures PassedAll(s, Dropped(s, t))
  {
    forall i: nat | i < |s.start.members|
      ensures PassedAt(s, Dropped(s, t), i)
    {
      assert PassedAt(s, t, i);
    }
  }

  lemma DroppedPasses<E>(s: Setting<E>, p: Progress<E>, t: Progress<E>)
    requires Passing(s, p) && p.line.members != [] && p.line.deadlines[0] <= s.current && t == Turned(s, p)
    requires t.line.members[0] in s.untracked
    ensures Passing(s, Dropped(s, t))
  {
    DueIsNext(s, p);
    HandedNext(s, p);
    TurnedFront(s, p);
    TurnedPassed(s, p);
    DroppedFront(s, t);
    DroppedPassed(s, t);
  }

  /** Another thread adds an entry. */
  lemma ArrivalPasses<E>(s: Setting<E>, p: Progress<E>, x: E, deadline: nat)
    requires Passing(s, p) && x !in s.start.members && x !in p.arrived && deadline >= s.current + s.interval
    ensures Passing(s, p.(line := Line(p.line.members + [x], p.line.deadlines + [deadline]), arrived := p.arrived + {x}))
  {
    var q := p.(line := Line(p.line.members + [x], p.line.deadlines + [deadline]), arrived := p.arrived + {x});
    var n := |s.start.members| - p.passed;
    assert q.line.members[..n] == p.line.members[..n] && q.line.deadlines[..n] == p.line.deadlines[..n];
    forall j: nat | n <= j < |q.line.members|
      ensures BackAt(s, q, j)
    {
      assert j < |p.line.members| ==> BackAt(s, p, j);
    }
    forall i: nat | i < |s.start.members|
      ensures PassedAt(s, q, i)
    {
      assert PassedAt(s, p, i);
    }
  }

  /** What can happen in the course of a pass: the head is put off and the next one handed out; or an entry comes. */
  datatype Happening<!E> = Handed | Came(entry: E, deadline: nat)

  ghost function Course<E>(s: Setting<E>, hs: seq<Happening<E>>): (p: Progress<E>)
    requires |s.start.members| == |s.start.deadlines|
    ensures |p.line.members| == |p.line.deadlines|
  {
    if hs == [] then Progress(s.start, 0, {}, {}) else
      var p := Course(s, hs[..|hs| - 1]);
      match hs[|hs| - 1]
      case Handed => if p.line.members == [] then p else Stepped(s, p)
      case Came(x, d) => p.(line := Line(p.line.members + [x], p.line.deadlines + [d]), arrived := p.arrived + {x})
  }

  ghost predicate Happens<E>(s: Setting<E>, hs: seq<Happening<E>>)
    requires |s.start.members| == |s.start.deadlines|
  {
    hs == [] || (Happens(s, hs[..|hs| - 1]) && CanHappen(s, Course(s, hs[..|hs| - 1]), hs[|hs| - 1]))
  }

  ghost predicate CanHappen<E>(s: Setting<E>, p: Progress<E>, h: Happening<E>)
    requires |p.line.members| == |p.line.deadlines|
  {
    match h
    case Handed => p.line.members != [] && p.line.deadlines[0] <= s.current
    case Came(x, d) => x !in s.start.members && x !in p.arrived && d >= s.current + s.interval
  }

  lemma OneMore<E>(s: Setting<E>, hs: seq<Happening<E>>, h: Happening<E>)
    requires |s.start.members| == |s.start.deadlines| && Happens(s, hs) && CanHappen(s, Course(s, hs), h)
    ensures Happens(s, hs + [h])
    ensures h.Handed? ==> Course(s, hs + [h]).arrived == Course(s, hs).arrived
    ensures h.Handed? ==> Course(s, hs + [h]).line == Course(s, hs).line.Handed(s.current + s.interval, s.untracked)
    ensures h.Came? ==> Course(s, hs + [h]).arrived == Course(s, hs).arrived + {h.entry}
    ensures h.Came? ==> Course(s, hs + [h]).line == Line(Course(s, hs).line.members + [h.entry], Course(s, hs).line.deadlines + [h.deadline])
  {
    assert (hs + [h])[..|hs|] == hs;
  }

  lemma HandedMore<E>(s: Setting<E>, hs: seq<Happening<E>>, line: Line<E>, next: Line<E>)
    requires |s.start.members| == |s.start.deadlines| && Happens(s, hs) && Course(s, hs).line == line
    requires line.members != [] && line.deadlines[0] <= s.current && next == line.Handed(s.current + s.interval, s.untracked)
    ensures Happens(s, hs + [Handed]) && Course(s, hs + [Handed]).line == next
    ensures Course(s, hs + [Handed]).arrived == Course(s, hs).arrived
  {
    OneMore(s, hs, Handed);
  }

  lemma {:induction false} HappeningsPass<E>(s: Setting<E>, hs: seq<Happening<E>>)
    requires s.interval >= 1 && s.start.Ok() && Happens(s, hs)
    ensures Passing(s, Course(s, hs))
  {
    if hs == [] {
      Begins(s);
    } else {
      var before, h := hs[..|hs| - 1], hs[|hs| - 1];
      HappeningsPass(s, before);
      match h {
        case Handed => StepPasses(s, Course(s, before));
        case Came(x, d) => ArrivalPasses(s, Course(s, before), x, d);
      }
    }
  }

  /** What has happened to the old members and who has come. */
  ghost predicate Outcome<E>(s: Setting<E>, p: Progress<E>) {
    && p.passed <= |s.start.members| == |s.start.deadlines| && |p.line.members| == |p.line.deadlines|
    && NobodyLost(s, p)
    // one is handed out when the one before it is put off; the old head and newcomers, only when everybody has been passed
    && (forall i | 0 < i < |s.start.members| :: s.start.members[i] in p.handed <==> i <= p.passed && s.Off(i - 1))
    && (forall x <- p.handed | x in p.arrived || (s.start.members != [] && x == s.start.members[0]) :: p.passed == |s.start.members|)
    // those not passed come first, as they were
    && |s.start.members| - p.passed <= |p.line.members|
    && p.line.members[..|s.start.members| - p.passed] == s.start.members[p.passed..]
    && p.line.deadlines[..|s.start.members| - p.passed] == s.start.deadlines[p.passed..]
    // old members behind them were due and have been put off, by the interval
    && (forall i | 0 <= i < p.passed && s.Off(i) :: s.start.deadlines[i] <= s.current)
    && (forall j | |s.start.members| - p.passed <= j < |p.line.members| ::
          if p.line.members[j] in s.start.members then p.line.deadlines[j] == s.current + s.interval
          else p.line.deadlines[j] >= s.current + s.interval)
  }

  lemma PassingOutcome<E>(s: Setting<E>, p: Progress<E>)
    requires Passing(s, p)
    ensures Outcome(s, p)
  {
    forall i: nat | i < |s.start.members|
      ensures i > 0 ==> (s.start.members[i] in p.handed <==> i <= p.passed && s.Off(i - 1))
      ensures i < p.passed && s.Off(i) ==> s.start.deadlines[i] <= s.current
    {
      assert PassedAt(s, p, i);
    }
    forall j: nat | |s.start.members| - p.passed <= j < |p.line.members|
      ensures if p.line.members[j] in s.start.members then p.line.deadlines[j] == s.current + s.interval
              else p.line.deadlines[j] >= s.current + s.interval
    {
      assert BackAt(s, p, j);
    }
  }

  lemma NotPassed<E>(s: Setting<E>, p: Progress<E>, i: nat)
    requires Outcome(s, p) && DueFirst(s.start.deadlines, s.current) && p.passed <= i < |s.start.members|
    requires p.line.members == [] || p.line.deadlines[0] > s.current
    ensures s.start.deadlines[i] > s.current && p.line.deadlines[i - p.passed] == s.start.deadlines[i]
  {
    var d := p.line.deadlines[..|s.start.members| - p.passed];
    assert d == s.start.deadlines[p.passed..];
    assert d[0] == s.start.deadlines[p.passed] && d[i - p.passed] == s.start.deadlines[i];
  }

  lemma WasPassed<E>(s: Setting<E>, p: Progress<E>, i: nat)
    requires Outcome(s, p) && DueFirst(s.start.deadlines, s.current) && i < p.passed
    ensures s.start.deadlines[i] <= s.current || (i == p.passed - 1 && !s.Off(i))
  {
    if !s.Off(i) && i + 1 < p.passed {
      assert s.Off(i + 1);
      assert s.start.deadlines[i + 1] <= s.current;
    }
  }

  /** The head is not due: then all that were due have been passed, and nobody else, but perhaps for one who was
      handed out last and went; and nobody is due any more. */
  lemma PassEnds<E>(s: Setting<E>, p: Progress<E>)
    requires Outcome(s, p) && s.interval >= 1 && DueFirst(s.start.deadlines, s.current)
    requires p.line.members == [] || p.line.deadlines[0] > s.current
    ensures forall i | 0 <= i < |s.start.members| && s.start.deadlines[i] <= s.current :: i < p.passed
    ensures forall i | 0 <= i < p.passed :: s.start.deadlines[i] <= s.current || (i == p.passed - 1 && !s.Off(i))
    ensures forall j | 0 <= j < |p.line.deadlines| :: p.line.deadlines[j] > s.current
  {
    forall i: nat | i < |s.start.members|
      ensures i < p.passed || s.start.deadlines[i] > s.current
      ensures i < p.passed ==> s.start.deadlines[i] <= s.current || (i == p.passed - 1 && !s.Off(i))
    {
      if i < p.passed {
        WasPassed(s, p, i);
      } else {
        NotPassed(s, p, i);
      }
    }
    forall j: nat | j < |p.line.deadlines|
      ensures p.line.deadlines[j] > s.current
    {
      if j < |s.start.members| - p.passed {
        NotPassed(s, p, p.passed + j);
      } else {
        assert p.line.deadlines[j] >= s.current + s.interval;
      }
    }
  }

  lemma AllPutOff<E>(members: seq<E>, i: nat)
    requires i < |members|
    ensures PutOff(members, {}, i)
  {
  }

  /** Without untracked entries nobody goes: those that were due are put off by the interval, and the others come first,
      in the order and with the deadlines that they had. */
  lemma TrackedPass<E>(s: Setting<E>, p: Progress<E>)
    requires Outcome(s, p) && s.interval >= 1 && s.untracked == {} && DueFirst(s.start.deadlines, s.current)
    requires p.line.members == [] || p.line.deadlines[0] > s.current
    ensures forall i | 0 <= i < |s.start.members| :: s.start.deadlines[i] <= s.current <==> i < p.passed
    ensures forall x <- s.start.members :: x in p.line.members
    ensures forall j | |s.start.members| - p.passed <= j < |p.line.members| && p.line.members[j] in s.start.members ::
              p.line.deadlines[j] == s.current + s.interval
    ensures p.line.members[..|s.start.members| - p.passed] == s.start.members[p.passed..]
    ensures p.line.deadlines[..|s.start.members| - p.passed] == s.start.deadlines[p.passed..]
  {
    PassEnds(s, p);
    forall i: nat | i < |s.start.members|
      ensures s.Off(i)
    {
      AllPutOff(s.start.members, i);
    }
  }
}
