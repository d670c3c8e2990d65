/** The threads that share one flow entry: who asks for what, the queue of requests, and the poll list.
    Every request has a source, and only an entry on the list is polled. */
module FlowThreads {
  import opened FlowFlags

  /** A learn request that leads to a command, for a flow that is not tracked, adds the entry to the list. */
  predicate Adds(w: Word, s: Step, sw: bool) { s == Program(Learn) && Commands(w, Learn, sw) && TRACK !in w }

  /** How far the record thread is with a record. Only an emulated probe that no unlearn command follows is
      answered by a refresh. */
  datatype Phase = Idle | Started(probed: bool) | Probed

  /** The entry, the requests for it in the queue, and what the threads have decided but not done. */
  datatype State = State(
    flags: Word,
    queue: seq<Op>,
    asked: bool,      // a receiver has asked, which it does once
    linking: bool,    // the program thread is about to add the entry to the poll list
    listed: bool,
    poll: Action,     // what the poll thread has still to do
    record: Phase)

  /** The entry as `ft_add` leaves it. */
  const START: State := State({}, [], false, false, false, Nothing, Idle)

  predicate Enabled(s: State, e: Step, sw: bool) {
    match e
    case Miss => !s.asked
    case Program(op) => s.queue != [] && s.queue[0] == op && !s.linking
    case Link => s.linking
    case RecordStart => !s.record.Probed?
    case RecordProbed => s.record == Started(true)
    case RecordEnd => s.record.Started?
    case RecordAsk => !s.record.Idle?
    case PollClear => s.listed && s.poll == Nothing
    case PollAsk => s.poll.Ask?
    case PollDrop => s.poll == Drop
    case _ => true
  }

  /** What is asked for in a step. */
  function Asked(s: State, e: Step): seq<Op> {
    match e
    case Miss => [Learn]
    case RecordAsk => [if s.record.Probed? then Refresh else Unlearn]
    case PollAsk => if s.poll.Ask? then [s.poll.op] else []
    case _ => []
  }

  function Move(s: State, e: Step, sw: bool): (t: State)
    ensures t.flags == Next(s.flags, e, sw)
  {
    var t := s.(flags := Next(s.flags, e, sw), queue := s.queue + Asked(s, e));
    match e
    case Miss => t.(asked := true)
    case Program(_) => t.(queue := if s.queue == [] then [] else s.queue[1..], linking := s.linking || Adds(s.flags, e, sw))
    case Link => t.(linking := false, listed := true)
    case RecordStart => t.(record := Started(sw && PROBE in s.flags && UNLEARN !in s.flags))
    case RecordProbed => t.(record := Probed)
    case RecordEnd | RecordAsk => t.(record := Idle)
    case PollClear => t.(poll := Decision(s.flags, sw))
    case PollAsk => t.(poll := Nothing)
    case PollDrop => t.(poll := Nothing, listed := false)
    case _ => t
  }

  function At(run: seq<Step>, sw: bool): State {
    if run == [] then START else Move(At(run[..|run| - 1], sw), run[|run| - 1], sw)
  }

  /** The program can take this run; what the adapter reports and when is up to the adapter. */
  predicate Real(run: seq<Step>, sw: bool) {
    run == [] || (Real(run[..|run| - 1], sw) && Enabled(At(run[..|run| - 1], sw), run[|run| - 1], sw))
  }

  lemma OneMoreStep(r: seq<Step>, e: Step, sw: bool)
    ensures At(r + [e], sw) == Move(At(r, sw), e, sw) && (Real(r + [e], sw) <==> Real(r, sw) && Enabled(At(r, sw), e, sw))
  {
    assert (r + [e])[..|r|] == r;
  }

  lemma {:induction false} FlagsOf(run: seq<Step>, sw: bool)
    ensures At(run, sw).flags == After({}, run, sw)
  {
    if run != [] {
      FlagsOf(run[..|run| - 1], sw);
    }
  }

  /** All that was asked for in the run, and all that was taken up, in order. */
  function Asks(run: seq<Step>, sw: bool): seq<Op> {
    if run == [] then [] else var r := run[..|run| - 1]; Asks(r, sw) + Asked(At(r, sw), run[|run| - 1])
  }

  function Takes(run: seq<Step>): seq<Op> {
    if run == [] then [] else
      Takes(run[..|run| - 1]) + TakenUp(run[|run| - 1])
  }

  /** Requests are taken up in the order in which they were made, and none is lost. */
  lemma {:induction false} TakenInOrder(run: seq<Step>, sw: bool)
    requires Real(run, sw)
    ensures Takes(run) + At(run, sw).queue == Asks(run, sw)
  {
    if run != [] {
      var r, e := run[..|run| - 1], run[|run| - 1];
      TakenInOrder(r, sw);
      QueueIsFifo(At(r, sw), e, sw);
      Regroup(Takes(r), At(r, sw).queue, Asks(r, sw), TakenUp(e), At(run, sw).queue, Asked(At(r, sw), e));
    }
  }

  lemma Regroup(takes: seq<Op>, queue: seq<Op>, asks: seq<Op>, taken: seq<Op>, rest: seq<Op>, asked: seq<Op>)
    requires takes + queue == asks && taken + rest == queue + asked
    ensures takes + taken + rest == asks + asked
  {
    assert takes + taken + rest == takes + (taken + rest) == takes + queue + asked;
  }

  function TakenUp(e: Step): seq<Op> { if e.Program? then [e.op] else [] }

  lemma QueueIsFifo(s: State, e: Step, sw: bool)
    requires Enabled(s, e, sw)
    ensures TakenUp(e) + Move(s, e, sw).queue == s.queue + Asked(s, e)
  {
    if e.Program? {
      assert s.queue == [e.op] + s.queue[1..];
    }
  }

  /** Step i of the run, a poll, has decided to ask for op, which the poll thread has not done yet; or a record has made the
      record thread ask. */
  ghost predicate PollDecided(run: seq<Step>, i: nat, action: Action, sw: bool) {
    && i < |run| && run[i] == PollClear && Decision(At(run[..i], sw).flags, sw) == action
    && forall j | i < j < |run| :: run[j] != PollClear && run[j] != PollAsk && run[j] != PollDrop
  }

  ghost predicate RecordBegan(run: seq<Step>, i: nat, probed: bool, sw: bool) {
    && i < |run| && run[i] == RecordStart
    && (probed <==> sw && PROBE in At(run[..i], sw).flags && UNLEARN !in At(run[..i], sw).flags)
    && forall j | i < j < |run| :: run[j] != RecordStart && run[j] != RecordEnd && run[j] != RecordAsk
  }

  lemma PollMoves(s: State, e: Step, sw: bool)
    requires Enabled(s, e, sw)
    ensures Move(s, e, sw).poll == if e == PollClear then Decision(s.flags, sw) else if e == PollAsk || e == PollDrop then Nothing else s.poll
    ensures Move(s, e, sw).asked == (s.asked || e == Miss)
  {
  }

  lemma RecordMoves(s: State, e: Step, sw: bool)
    requires Enabled(s, e, sw)
    ensures Move(s, e, sw).record ==
      if e == RecordStart then Started(sw && PROBE in s.flags && UNLEARN !in s.flags)
      else if e == RecordProbed then Probed
      else if e == RecordEnd || e == RecordAsk then Idle else s.record
    ensures e == RecordProbed ==> s.record == Started(true)
  {
  }

  lemma PollDecidedMore(r: seq<Step>, e: Step, i: nat, action: Action, sw: bool)
    requires PollDecided(r, i, action, sw) && e != PollClear && e != PollAsk && e != PollDrop
    ensures PollDecided(r + [e], i, action, sw)
  {
    assert (r + [e])[..i] == r[..i];
  }

  lemma PollDecidedNow(r: seq<Step>, sw: bool)
    ensures PollDecided(r + [PollClear], |r|, Decision(At(r, sw).flags, sw), sw)
  {
    assert (r + [PollClear])[..|r|] == r;
  }

  lemma {:induction false} PollHasDecided(run: seq<Step>, sw: bool) returns (i: nat)
    requires Real(run, sw) && At(run, sw).poll != Nothing
    ensures PollDecided(run, i, At(run, sw).poll, sw)
  {
    var r, e := run[..|run| - 1], run[|run| - 1];
    assert r + [e] == run;
    PollMoves(At(r, sw), e, sw);
    if e == PollClear {
      i := |r|;
      PollDecidedNow(r, sw);
    } else {
      i := PollHasDecided(r, sw);
      PollDecidedMore(r, e, i, At(r, sw).poll, sw);
    }
  }

  lemma RecordBeganMore(r: seq<Step>, e: Step, i: nat, probed: bool, sw: bool)
    requires RecordBegan(r, i, probed, sw) && e != RecordStart && e != RecordEnd && e != RecordAsk
    ensures RecordBegan(r + [e], i, probed, sw)
  {
    assert (r + [e])[..i] == r[..i];
  }

  lemma RecordBeganNow(r: seq<Step>, sw: bool)
    ensures RecordBegan(r + [RecordStart], |r|, sw && PROBE in At(r, sw).flags && UNLEARN !in At(r, sw).flags, sw)
  {
    assert (r + [RecordStart])[..|r|] == r;
  }

  lemma {:induction false} RecordHasBegun(run: seq<Step>, sw: bool) returns (i: nat)
    requires Real(run, sw) && At(run, sw).record != Idle
    ensures RecordBegan(run, i, At(run, sw).record != Started(false), sw)
  {
    var r, e := run[..|run| - 1], run[|run| - 1];
    assert r + [e] == run;
    RecordMoves(At(r, sw), e, sw);
    if e == RecordStart {
      i := |r|;
      RecordBeganNow(r, sw);
    } else {
      i := RecordHasBegun(r, sw);
      RecordBeganMore(r, e, i, At(r, sw).record != Started(false), sw);
    }
  }

  /** Every request has a source: a receiver asks once, for a learn command; the poll thread asks for what its last poll of the
      entry decided; the record thread, for a refresh after an emulated probe that no unlearn command follows, and
      otherwise for an unlearn command. */
  lemma RequestsHaveSources(run: seq<Step>, e: Step, op: Op, sw: bool)
    requires Real(run, sw) && Enabled(At(run, sw), e, sw) && Asked(At(run, sw), e) == [op]
    ensures e == Miss || e == PollAsk || e == RecordAsk
    ensures e == Miss ==> op == Learn && Miss !in run
    ensures e == PollAsk ==> exists i :: PollDecided(run, i, Ask(op), sw)
    ensures e == RecordAsk ==> op == Unlearn || (op == Refresh && exists i :: RecordBegan(run, i, true, sw))
  {
    match e {
      case Miss => OneMiss(run, sw);
      case PollAsk => var i := PollHasDecided(run, sw);
      case RecordAsk =>
        if At(run, sw).record == Probed {
          var i := RecordHasBegun(run, sw);
        }
      case _ =>
    }
  }

  lemma {:induction false} OneMiss(run: seq<Step>, sw: bool)
    requires Real(run, sw)
    ensures At(run, sw).asked <==> Miss in run
  {
    if run != [] {
      var r := run[..|run| - 1];
      OneMiss(r, sw);
      PollMoves(At(r, sw), run[|run| - 1], sw);
      assert run == r + [run[|run| - 1]];
    }
  }

  /** Learn requests on their way to the program thread, or still to be made by a receiver. */
  function LearnsOnTheWay(s: State): nat {
    One(!s.asked) + multiset(s.queue)[Learn] + One(s.poll == Ask(Learn))
  }

  /** At most one of them; and then the flags do not show one. */
  ghost predicate OneLearn(s: State) {
    LearnsOnTheWay(s) == 0 || (LearnsOnTheWay(s) == 1 && LEARN !in s.flags && LEARN_PENDING !in s.flags)
  }

  lemma QueueMoves(s: State, e: Step, sw: bool)
    requires Enabled(s, e, sw)
    ensures multiset(Move(s, e, sw).queue)[Learn] + One(e == Program(Learn)) == multiset(s.queue)[Learn] + One(Asked(s, e) == [Learn])
  {
    if e.Program? {
      assert s.queue == [e.op] + s.queue[1..];
    } else if Asked(s, e) == [] {
      assert s.queue + [] == s.queue;
    } else {
      assert multiset(s.queue + Asked(s, e)) == multiset(s.queue) + multiset(Asked(s, e));
    }
  }

  /** Only a poll of an entry with an unanswered request brings another one on its way. */
  lemma LearnsMove(s: State, e: Step, sw: bool)
    requires Enabled(s, e, sw)
    ensures LearnsOnTheWay(Move(s, e, sw)) + One(e == Program(Learn)) == LearnsOnTheWay(s) + One(e == PollClear && LEARN_PENDING in s.flags)
  {
    QueueMoves(s, e, sw);
  }

  lemma OneLearnKept(s: State, e: Step, sw: bool)
    requires OneLearn(s) && Enabled(s, e, sw)
    ensures OneLearn(Move(s, e, sw))
  {
    LearnsMove(s, e, sw);
    FlagMoves(s.flags, e, LEARN, sw);
    FlagMoves(s.flags, e, LEARN_PENDING, sw);
    if e == Program(Learn) {
      assert s.queue[0] in multiset(s.queue);
    }
  }

  lemma {:induction false} RunsHaveOneLearn(run: seq<Step>, sw: bool)
    requires Real(run, sw)
    ensures OneLearn(At(run, sw))
  {
    if run != [] {
      RunsHaveOneLearn(run[..|run| - 1], sw);
      OneLearnKept(At(run[..|run| - 1], sw), run[|run| - 1], sw);
    }
  }

  /** No learn request is ever redundant: each of them leads to a command. */
  lemma LearnsAreNeeded(run: seq<Step>, sw: bool)
    requires Real(run, sw) && Enabled(At(run, sw), Program(Learn), sw)
    ensures Commands(At(run, sw).flags, Learn, sw)
  {
    RunsHaveOneLearn(run, sw);
    assert At(run, sw).queue[0] in multiset(At(run, sw).queue);
  }

  /** The adapter reports on a probe only when it can probe and was given one. */
  predicate Answering(run: seq<Step>, sw: bool) {
    run == [] ||
      var r := run[..|run| - 1];
      Answering(r, sw) && (run[|run| - 1] == RecordAsk && At(r, sw).record.Started? ==> !sw && Times(r, Program(Probe)) > 0)
  }

  /** What only a probe, and what only a poll, leads to. */
  ghost predicate Unprobed(s: State) {
    && {PROBE, PROBE_PENDING, REFRESH, REFRESH_PENDING} !! s.flags && Probe !in s.queue && Refresh !in s.queue
    && s.poll != Ask(Probe) && s.poll != Ask(Refresh) && !s.record.Probed? && s.record != Started(true)
  }

  /** An emulated probe comes before a refresh, an answered learn command and then a poll before a probe. */
  ghost predicate Early(s: State, done: bool, polled: bool) {
    && ((done && polled) || Unprobed(s))
    && (done || LEARN !in s.flags || TRACK !in s.flags || LEARN_PENDING in s.flags)
  }

  lemma EarlyKept(s: State, e: Step, done: bool, polled: bool, sw: bool)
    requires Early(s, done, polled) && Enabled(s, e, sw)
    ensures Early(Move(s, e, sw), done || e == LearnDone, polled || e == PollClear)
  {
  }

  lemma {:induction false} RunsStartEarly(run: seq<Step>, sw: bool)
    requires Real(run, sw)
    ensures Early(At(run, sw), Times(run, LearnDone) > 0, Times(run, PollClear) > 0)
  {
    if run != [] {
      var r, e := run[..|run| - 1], run[|run| - 1];
      RunsStartEarly(r, sw);
      EarlyKept(At(r, sw), e, Times(r, LearnDone) > 0, Times(r, PollClear) > 0, sw);
    }
  }

  /** An adapter that can probe leaves nothing to refresh. */
  ghost predicate Unrefreshed(s: State) {
    && REFRESH_PENDING !in s.flags && Refresh !in s.queue && s.poll != Ask(Refresh)
    && !s.record.Probed? && s.record != Started(true)
  }

  lemma UnrefreshedKept(s: State, e: Step)
    requires Unrefreshed(s) && Enabled(s, e, false)
    ensures Unrefreshed(Move(s, e, false))
  {
  }

  lemma {:induction false} HardwareNeverRefreshes(run: seq<Step>)
    requires Real(run, false)
    ensures Unrefreshed(At(run, false))
  {
    if run != [] {
      HardwareNeverRefreshes(run[..|run| - 1]);
      UnrefreshedKept(At(run[..|run| - 1], false), run[|run| - 1]);
    }
  }

  /** Nobody has asked to unlearn the flow. */
  ghost predicate Kept(s: State) {
    UNLEARN_PENDING !in s.flags && Unlearn !in s.queue && s.poll != Ask(Unlearn)
  }

  /** Nobody has polled it either. */
  ghost predicate Unpolled(s: State) { Probe !in s.queue && s.poll == Nothing }

  lemma KeptKept(s: State, e: Step, sw: bool)
    requires Kept(s) && Enabled(s, e, sw) && (e == RecordAsk ==> s.record.Probed?)
    ensures Kept(Move(s, e, sw)) && (Unpolled(s) && e != PollClear ==> Unpolled(Move(s, e, sw)))
  {
  }

  /** Only a report on a probe leads to an unlearn request, and only a poll to a probe. */
  lemma {:induction false} UnlearnNeedsAPoll(run: seq<Step>, sw: bool)
    requires Real(run, sw) && Answering(run, sw) && (sw || Times(run, PollClear) == 0)
    ensures Kept(At(run, sw))
    ensures Times(run, PollClear) == 0 ==> Times(run, Program(Probe)) == 0 && Unpolled(At(run, sw))
  {
    if run != [] {
      UnlearnNeedsAPoll(run[..|run| - 1], sw);
      KeptKept(At(run[..|run| - 1], sw), run[|run| - 1], sw);
    }
  }

  /** How much room must have been made before the first command. */
  function Needed(op: Op): nat { if op == Unlearn then 1 else if op == Refresh then 2 else 0 }

  /** Unlearn commands go to adapters that can probe, and refresh commands to those that cannot. */
  predicate Used(op: Op, sw: bool) { match op case Unlearn => !sw case Refresh => sw case _ => true }

  lemma FirstNeedsRoom(run: seq<Step>, op: Op, sw: bool)
    requires Real(run, sw) && (op == Unlearn ==> Answering(run, sw)) && Enabled(At(run, sw), Program(op), sw)
    ensures op != Probe ==> Room(run, op) >= Needed(op) && Used(op, sw)
  {
    if op == Refresh {
      RunsStartEarly(run, sw);
      if !sw {
        HardwareNeverRefreshes(run);
      }
    } else if op == Unlearn && (sw || Times(run, PollClear) == 0) {
      UnlearnNeedsAPoll(run, sw);
    }
  }

  /** In any run of the program, the commands of a kind that is used number at most one more than the steps that
      make room, of which the first unlearn command needs one, and the first refresh command two. */
  lemma {:induction false} RunsAreLimited(run: seq<Step>, op: Op, sw: bool)
    requires op != Probe && Real(run, sw) && (op == Unlearn ==> Answering(run, sw))
    ensures var n := Commanded({}, run, op, sw);
      n == 0 || (Used(op, sw) && n + Needed(op) <= Room(run, op) + One(FlagOf(op) in At(run, sw).flags))
  {
    if run != [] {
      var r, e := run[..|run| - 1], run[|run| - 1];
      RunsAreLimited(r, op, sw);
      FlagsOf(r, sw);
      FlagStep(At(r, sw).flags, e, op, sw);
      assert r + [e] == run;
      OneMore({}, r, e, op, sw);
      if e == Program(op) {
        FirstNeedsRoom(r, op, sw);
      }
    }
  }
}
