/** The flags of one entry in memory, with the pieces of the four threads that work on them. */
module FlowEntry {
  import opened FlowFlags
  import opened FlowThreads

  /** A request of this kind is waiting for its answer. */
  ghost predicate Waiting(run: seq<Step>, op: Op, sw: bool) { Stands(run, PendingOf(op), sw) }

  /** A request that a poll answers with a refresh. */
  ghost predicate WaitingToRefresh(run: seq<Step>, sw: bool) { Waiting(run, Refresh, sw) || (sw && Waiting(run, Probe, sw)) }

  ghost predicate NoneWaiting(run: seq<Step>, sw: bool) {
    !Waiting(run, Learn, sw) && !WaitingToRefresh(run, sw) && !Waiting(run, Unlearn, sw)
  }

  /** No other request has come since the last poll. */
  ghost predicate Idle(run: seq<Step>, sw: bool) {
    !Stands(run, LEARN, sw) && !Stands(run, REFRESH, sw) && !Stands(run, PROBE, sw) && !Waiting(run, Probe, sw)
  }

  /** What a poll should do. Requests that still wait are made again, a learn request before a refresh before an unlearn
      request. When none waits, the entry is to be taken off the list exactly if an unlearn request has come
      since the last poll, or the flow is not tracked. It is probed otherwise, if anything happened. */
  ghost predicate Suits(action: Action, run: seq<Step>, sw: bool) {
    && (action == Ask(Learn) <==> Waiting(run, Learn, sw))
    && (action == Ask(Refresh) <==> !Waiting(run, Learn, sw) && WaitingToRefresh(run, sw))
    && (action == Ask(Unlearn) <==> !Waiting(run, Learn, sw) && !WaitingToRefresh(run, sw) && Waiting(run, Unlearn, sw))
    && (action == Drop <==> NoneWaiting(run, sw) && (Stands(run, UNLEARN, sw) || !Stands(run, TRACK, sw)))
    && (action == Nothing <==> NoneWaiting(run, sw) && !Stands(run, UNLEARN, sw) && Stands(run, TRACK, sw) && Idle(run, sw))
  }

  lemma IdleMeaning(run: seq<Step>, sw: bool)
    ensures Idle(run, sw) <==> After({}, run, sw) * {LEARN, PROBE, REFRESH, PROBE_PENDING} == {}
  {
    var w := After({}, run, sw);
    FlagHistory(run, LEARN, sw);
    FlagHistory(run, REFRESH, sw);
    FlagHistory(run, PROBE, sw);
    FlagHistory(run, PROBE_PENDING, sw);
    AnyOf(w, LEARN, PROBE);
    AnyOf(w, REFRESH, PROBE_PENDING);
    assert w * {LEARN, PROBE, REFRESH, PROBE_PENDING} == w * {LEARN, PROBE} + w * {REFRESH, PROBE_PENDING};
  }

  lemma WaitingMeaning(run: seq<Step>, op: Op, sw: bool)
    ensures Waiting(run, op, sw) <==> PendingOf(op) in After({}, run, sw)
  {
    FlagHistory(run, PendingOf(op), sw);
  }

  lemma PollMeaning(run: seq<Step>, sw: bool)
    ensures Suits(Decision(After({}, run, sw), sw), run, sw)
  {
    WaitingMeaning(run, Learn, sw);
    WaitingMeaning(run, Refresh, sw);
    WaitingMeaning(run, Probe, sw);
    WaitingMeaning(run, Unlearn, sw);
    FlagHistory(run, UNLEARN, sw);
    FlagHistory(run, TRACK, sw);
    IdleMeaning(run, sw);
  }

  /** A command is written unless one of its kind has been given since the flags made room, or, for unlearn, a
      probe that the adapter emulates by unlearning. */
  lemma RequestMeaning(run: seq<Step>, op: Op, sw: bool)
    ensures Commands(After({}, run, sw), op, sw) <==>
      op == Probe || !(Stands(run, FlagOf(op), sw) || (op == Unlearn && sw && Stands(run, PROBE, sw)))
    ensures Adds(After({}, run, sw), Program(op), sw) <==> op == Learn && !Stands(run, LEARN, sw) && !Stands(run, TRACK, sw)
  {
    FlagHistory(run, FlagOf(op), sw);
    FlagHistory(run, PROBE, sw);
    FlagHistory(run, TRACK, sw);
  }

  /** Once answered, a request does not wait any more. */
  lemma AnswerMeaning(run: seq<Step>, s: Step, op: Op, sw: bool)
    requires Lowers(s, PendingOf(op), sw)
    ensures !Waiting(run + [s], op, sw)
  {
    SinceMore(run, s, Up(PendingOf(op)), Down(PendingOf(op), sw));
  }

  /** `flags & (a | b)` */
  lemma AnyOf(w: Word, a: Flag, b: Flag)
    ensures w * {a, b} != {} <==> a in w || b in w
  {
    assert a in w ==> a in w * {a, b};
    assert b in w ==> b in w * {a, b};
  }

  class EntryFlags {
    const sw: bool                   // the adapter cannot probe
    var flags: Word
    var skip: int                    // poll.skip
    ghost var run: seq<Step>         // everything that happened to the flags
    ghost var written: multiset<Op>  // the commands given to the adapter
    ghost var skipped: nat           // the polls that were passed over

    /** The flags are what the run makes them, and so are the commands. A poll is passed over only for a
        learn command, and for each such command one poll at most. */
    ghost predicate Valid()
      reads this
    {
      && flags == After({}, run, sw)
      && (forall op: Op :: written[op] == Commanded({}, run, op, sw))
      && skipped + (if skip > 0 then skip else 0) <= written[Learn]
    }

    /** So none of the four threads can make them exceed the limits. */
    lemma Limits()
      requires Valid()
      ensures written[Learn] <= 1 + Times(run, PollClear) && written[Unlearn] <= 1 + Times(run, PollClear)
      ensures written[Refresh] <= 1 + Times(run, PollClear) + Times(run, LearnDone)
      ensures skipped <= 1 + Times(run, PollClear)
    {
      CommandsAreLimited({}, run, Learn, sw);
      CommandsAreLimited({}, run, Unlearn, sw);
      CommandsAreLimited({}, run, Refresh, sw);
    }

    /** `entry->flags = 0` in `ft_add`, on memory from `calloc` */
    constructor (sw: bool)
      ensures Valid() && run == [] && written == multiset{} && skipped == 0 && this.sw == sw
    {
      this.sw, flags, skip := sw, {}, 0;
      run, written, skipped := [], multiset{}, 0;
    }

    /** Taking down a step that has just changed the flags. */
    ghost method Note(s: Step)
      requires flags == Next(After({}, run, sw), s, sw)
      requires forall op: Op :: written[op] == Commanded({}, run, op, sw)
      modifies this`run, this`written
      ensures run == old(run) + [s] && flags == After({}, run, sw)
      ensures forall op: Op :: written[op] == Commanded({}, run, op, sw)
      ensures written == old(written) + if s.Program? && Commands(After({}, old(run), sw), s.op, sw) then multiset{s.op} else multiset{}
    {
      forall op: Op
        ensures Commanded({}, run + [s], op, sw) == written[op] + One(s == Program(op) && Commands(After({}, run, sw), op, sw))
        ensures After({}, run + [s], sw) == flags
      {
        OneMore({}, run, s, op, sw);
      }
      if s.Program? && Commands(After({}, run, sw), s.op, sw) {
        written := written + multiset{s.op};
      }
      run := run + [s];
    }

    /** The flags of a request, and what follows from what they were. */
    method SetRequested(op: Op) returns (write: bool, add: bool)
      modifies this`flags
      ensures flags == Next(old(flags), Program(op), sw)
      ensures write == Commands(old(flags), op, sw) && add == Adds(old(flags), Program(op), sw)
      ensures flags == old(flags) + match op
        case Probe => {PROBE, PROBE_PENDING, TRACK}
        case Unlearn => {UNLEARN, UNLEARN_PENDING}
        case Refresh => {REFRESH, REFRESH_PENDING, TRACK}
        case Learn => {LEARN, LEARN_PENDING, TRACK}
    {
      var was := flags;
      add := false;
      match op {
        case Probe =>
          flags := flags + {PROBE, PROBE_PENDING, TRACK};
          write := true;
        case Unlearn =>
          flags := flags + {UNLEARN, UNLEARN_PENDING};
          AnyOf(was, UNLEARN, if sw then PROBE else UNLEARN);
          write := was * {UNLEARN, if sw then PROBE else UNLEARN} == {};
        case Refresh =>
          flags := flags + {REFRESH, REFRESH_PENDING, TRACK};
          write := REFRESH !in was;
        case Learn =>
          flags := flags + {LEARN, LEARN_PENDING, TRACK};
          write := LEARN !in was;
          if write && TRACK !in was {
            add := true;
          }
      }
    }

    /** `fl_program_main` for one request. */
    method Request(op: Op) returns (write: bool, add: bool)
      requires Valid()
      modifies this`flags, this`skip, this`run, this`written
      ensures Valid() && run == old(run) + [Program(op)]
      ensures written == old(written) + if write then multiset{op} else multiset{}
      ensures write == Commands(After({}, old(run), sw), op, sw) && add == Adds(After({}, old(run), sw), Program(op), sw)
      ensures flags == old(flags) + match op
        case Probe => {PROBE, PROBE_PENDING, TRACK}
        case Unlearn => {UNLEARN, UNLEARN_PENDING}
        case Refresh => {REFRESH, REFRESH_PENDING, TRACK}
        case Learn => {LEARN, LEARN_PENDING, TRACK}
      ensures op != Probe ==> written[op] <= 1 + Room(run, op)
      ensures skip == old(skip) + One(op == Learn && write && old(flags) != {LEARN_PENDING})
    {
      var was := flags;
      ghost var learns := written[Learn];
      write, add := SetRequested(op);
      Note(Program(op));
      assert written[Learn] == learns + One(write && op == Learn);
      if write && op == Learn && was != {LEARN_PENDING} {
        skip := skip + 1;
      }
      if op != Probe {
        CommandsAreLimited({}, run, op, sw);
      }
    }

    /** The flags of a status record, and how many answers it holds. */
    method ClearAnswered(record: Step) returns (answers: nat)
      requires record.LearnDone? || record.LearnFail? || record.UnlearnDone?
      modifies this`flags
      ensures flags == Next(old(flags), record, sw)
      ensures flags == old(flags) -
        if record.LearnDone? then {SOFTWARE, REFRESH, REFRESH_PENDING, LEARN_PENDING}
        else if record.LearnFail? then {TRACK, REFRESH_PENDING, LEARN_PENDING}
        else if sw then {UNLEARN_PENDING, PROBE_PENDING} else {UNLEARN_PENDING}
      ensures answers == if record.LearnDone? then One(LEARN_PENDING in old(flags)) + One(REFRESH_PENDING in old(flags)) else 1
    {
      answers := 1;
      match record {
        case LearnDone =>
          answers := One(REFRESH_PENDING in flags) + One(LEARN_PENDING in flags);
          flags := flags - {SOFTWARE, REFRESH, REFRESH_PENDING, LEARN_PENDING};
        case LearnFail =>
          flags := flags - {TRACK, REFRESH_PENDING, LEARN_PENDING};
        case UnlearnDone =>
          flags := flags - {UNLEARN_PENDING};
          if sw {
            flags := flags - {PROBE_PENDING};
          }
      }
    }

    /** A status record of `fl_status_main`: what it answers does not wait any more, and as many polls less need to be
        passed over as requests were answered. */
    method Status(record: Step)
      requires Valid() && (record.LearnDone? || record.LearnFail? || record.UnlearnDone?)
      modifies this`flags, this`skip, this`run, this`written
      ensures Valid() && run == old(run) + [record] && written == old(written)
      ensures flags == old(flags) -
        if record.LearnDone? then {SOFTWARE, REFRESH, REFRESH_PENDING, LEARN_PENDING}
        else if record.LearnFail? then {TRACK, REFRESH_PENDING, LEARN_PENDING}
        else if sw then {UNLEARN_PENDING, PROBE_PENDING} else {UNLEARN_PENDING}
      ensures forall op: Op | Lowers(record, PendingOf(op), sw) :: !Waiting(run, op, sw)
      ensures old(skip) - skip == if record.LearnDone? then One(LEARN_PENDING in old(flags)) + One(REFRESH_PENDING in old(flags)) else 1
    {
      var answers := ClearAnswered(record);
      skip := skip - answers;
      forall op: Op | Lowers(record, PendingOf(op), sw)
        ensures !Waiting(run + [record], op, sw)
      {
        AnswerMeaning(run, record, op, sw);
      }
      Note(record);
    }

    /** The flags of a poll, and what follows from what they were. */
    method ClearAndDecide() returns (action: Action)
      modifies this`flags
      ensures flags == old(flags) - {UNLEARN, LEARN, REFRESH, PROBE, UNLEARN_PENDING, LEARN_PENDING, REFRESH_PENDING, PROBE_PENDING} == Next(old(flags), PollClear, sw) && action == Decision(old(flags), sw)
    {
      var was := flags;
      flags := flags - CLEARED;
      AnyOf(was, REFRESH_PENDING, if sw then PROBE_PENDING else REFRESH_PENDING);
      if LEARN_PENDING in was {
        action := Ask(Learn);
      } else if was * {REFRESH_PENDING, if sw then PROBE_PENDING else REFRESH_PENDING} != {} {
        action := Ask(Refresh);
      } else if UNLEARN_PENDING in was {
        action := Ask(Unlearn);
      } else if UNLEARN in was || TRACK !in was {
        action := Drop;
      } else if was * {LEARN, PROBE, REFRESH, PROBE_PENDING} != {} {
        action := Ask(Probe);
      } else {
        action := Nothing;
      }
    }

    /** The poll of an entry, which is passed over, once, after a learn command. */
    method Poll() returns (handled: bool, action: Action)
      requires Valid()
      modifies this`flags, this`skip, this`run, this`written, this`skipped
      ensures Valid() && written == old(written) && skip == 0 && (handled <==> old(skip) <= 0)
      ensures handled ==> flags == old(flags) - {UNLEARN, LEARN, REFRESH, PROBE, UNLEARN_PENDING, LEARN_PENDING, REFRESH_PENDING, PROBE_PENDING}
      ensures !handled ==> flags == old(flags) && run == old(run) && skipped == old(skipped) + 1 && action == Nothing
      ensures handled ==> run == old(run) + [PollClear] && skipped == old(skipped)
      ensures handled ==> Suits(action, old(run), sw)
    {
      PollMeaning(run, sw);
      var skipping := skip;
      skip := 0;
      if skipping > 0 {
        skipped := skipped + 1;
        return false, Nothing;
      }
      handled := true;
      action := ClearAndDecide();
      Note(PollClear);
    }

    method SetRecorded(s: Step)
      requires s.RecordStart? || s.RecordProbed? || s.RecordEnd?
      modifies this`flags
      ensures flags == Next(old(flags), s, sw)
      ensures flags == if s.RecordStart? then old(flags) + {SOFTWARE} else old(flags) - if s.RecordProbed? then {PROBE_PENDING} else {TRACK}
    {
      match s {
        case RecordStart => flags := flags + {SOFTWARE};
        case RecordProbed => flags := flags - {PROBE_PENDING};
        case RecordEnd => flags := flags - {TRACK};
      }
    }

    /** One atomic operation of `fl_record_main`. */
    method RecordStep(s: Step)
      requires Valid() && (s.RecordStart? || s.RecordProbed? || s.RecordEnd?)
      modifies this`flags, this`run, this`written
      ensures Valid() && run == old(run) + [s] && written == old(written)
      ensures flags == if s.RecordStart? then old(flags) + {SOFTWARE} else old(flags) - if s.RecordProbed? then {PROBE_PENDING} else {TRACK}
    {
      SetRecorded(s);
      Note(s);
    }

    /** `fl_record_main` for one info record: it asks for a refresh when the record answers an emulated probe and no
        unlearn command stands, and for an unlearn when the adapter's probe found no activity. In these
        cases, and whenever that probe is answered, the entry stays tracked; otherwise the record is the last one. */
    method Record(cause: nat, changed: bool) returns (action: Action)
      requires Valid()
      modifies this`flags, this`run, this`written
      ensures Valid() && written == old(written)
      ensures action == Ask(Refresh) <==> sw && cause == 0 && PROBE in old(flags) && UNLEARN !in old(flags)
      ensures action == Ask(Unlearn) <==> cause == 4 && !changed
      ensures flags == old(flags) + {SOFTWARE} - if action == Ask(Refresh) then {PROBE_PENDING} else if cause == 4 then {} else {TRACK}
      ensures run == old(run) + [RecordStart] + if action == Ask(Refresh) then [RecordProbed] else if cause == 4 then [] else [RecordEnd]
    {
      var was := flags;
      RecordStep(RecordStart);
      action := Nothing;
      var swProbe := sw && cause == 0 && PROBE in was;
      if swProbe && UNLEARN !in was {
        RecordStep(RecordProbed);
        action := Ask(Refresh);
      } else if cause == 4 {
        if !changed {
          action := Ask(Unlearn);
        }
      } else {
        RecordStep(RecordEnd);
      }
    }
  }
}
