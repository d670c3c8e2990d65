/** The atomic flag word of a flow entry, shared by the threads that program, report on and poll flows. */
module FlowFlags {
  /** The bits of the word, by name. */
  datatype Flag =
    | UNLEARN | LEARN | REFRESH | PROBE
    | UNLEARN_PENDING | LEARN_PENDING | REFRESH_PENDING | PROBE_PENDING
    | TRACK | SOFTWARE | MONITOR

  /** The bits that are set: `|` with a mask is `+`, and `& ~mask` is `-`. */
  type Word = set<Flag>

  /** What a poll takes away. */
  const CLEARED: Word := {UNLEARN, LEARN, REFRESH, PROBE, UNLEARN_PENDING, LEARN_PENDING, REFRESH_PENDING, PROBE_PENDING}

  /** What can be asked of the program thread. */
  datatype Op = Unlearn | Learn | Probe | Refresh

  /** What the threads do to the entry, one atomic operation at a time. */
  datatype Step =
    | Miss                                                 // a receiver has added the entry and asks for a learn command
    | Program(op: Op) | Link                               // the program thread: a request, and perhaps later the poll list
    | LearnDone | LearnFail | UnlearnDone                  // the status thread
    | RecordStart | RecordProbed | RecordEnd | RecordAsk   // the record thread: the flags, and perhaps later a request
    | PollClear | PollAsk | PollDrop                       // the poll thread: the flags, and later a request or the poll list

  /** The flag that says that a command has been given. */
  function FlagOf(op: Op): Flag {
    match op
    case Unlearn => UNLEARN
    case Learn => LEARN
    case Probe => PROBE
    case Refresh => REFRESH
  }

  /** The flag that says that there is no answer yet. */
  function PendingOf(op: Op): Flag {
    match op
    case Unlearn => UNLEARN_PENDING
    case Learn => LEARN_PENDING
    case Probe => PROBE_PENDING
    case Refresh => REFRESH_PENDING
  }

  /** What a step sets. */
  function Sets(s: Step): Word {
    match s
    case Program(op) => {FlagOf(op), PendingOf(op)} + if op == Unlearn then {} else {TRACK}
    case RecordStart => {SOFTWARE}
    case _ => {}
  }

  /** What a step clears; `sw` says that the adapter cannot probe. */
  function Resets(s: Step, sw: bool): Word {
    match s
    case LearnDone => {SOFTWARE, REFRESH, REFRESH_PENDING, LEARN_PENDING}
    case LearnFail => {TRACK, REFRESH_PENDING, LEARN_PENDING}
    case UnlearnDone => {UNLEARN_PENDING} + if sw then {PROBE_PENDING} else {}
    case RecordProbed => {PROBE_PENDING}
    case RecordEnd => {TRACK}
    case PollClear => CLEARED
    case _ => {}
  }

  function Next(w: Word, s: Step, sw: bool): Word { w + Sets(s) - Resets(s, sw) }

  /** Does the request lead to a command to the adapter? A probe always does. */
  predicate Commands(w: Word, op: Op, sw: bool) {
    match op
    case Probe => true
    case Unlearn => UNLEARN !in w && !(sw && PROBE in w)
    case Learn => LEARN !in w
    case Refresh => REFRESH !in w
  }

  /** The steps that make room for another command. */
  predicate Clears(s: Step, op: Op) { s == PollClear || (s == LearnDone && op == Refresh) }

  /** A flag goes away in a step that makes room only, and a request raises it. */
  lemma FlagStep(w: Word, s: Step, op: Op, sw: bool)
    requires op != Probe
    ensures FlagOf(op) in w && FlagOf(op) !in Next(w, s, sw) ==> Clears(s, op)
    ensures s == Program(op) ==> FlagOf(op) in Next(w, s, sw)
    ensures Commands(w, op, sw) ==> FlagOf(op) !in w
  {
  }

  function After(w: Word, run: seq<Step>, sw: bool): Word {
    if run == [] then w else Next(After(w, run[..|run| - 1], sw), run[|run| - 1], sw)
  }

  /** How many commands of one kind the run leads to. */
  function Commanded(w: Word, run: seq<Step>, op: Op, sw: bool): nat {
    if run == [] then 0 else
      var before := run[..|run| - 1];
      Commanded(w, before, op, sw) + One(run[|run| - 1] == Program(op) && Commands(After(w, before, sw), op, sw))
  }

  function Times(run: seq<Step>, s: Step): nat {
    if run == [] then 0 else Times(run[..|run| - 1], s) + One(run[|run| - 1] == s)
  }

  function Room(run: seq<Step>, op: Op): nat { Times(run, PollClear) + if op == Refresh then Times(run, LearnDone) else 0 }

  function One(b: bool): nat { if b then 1 else 0 }

  /** From any word on, in any interleaving: the commands of one kind are paid for by the steps that
      make room, but for one that the flag at the end accounts for. */
  lemma {:induction false} CommandsAreLimited(w: Word, run: seq<Step>, op: Op, sw: bool)
    requires op != Probe
    ensures Commanded(w, run, op, sw) + One(FlagOf(op) in w) <= Room(run, op) + One(FlagOf(op) in After(w, run, sw))
    ensures Commanded(w, run, op, sw) <= 1 + Room(run, op)
  {
    if run != [] {
      var before := run[..|run| - 1];
      CommandsAreLimited(w, before, op, sw);
      FlagStep(After(w, before, sw), run[|run| - 1], op, sw);
    }
  }

  lemma OneMore(w: Word, r: seq<Step>, s: Step, op: Op, sw: bool)
    ensures After(w, r + [s], sw) == Next(After(w, r, sw), s, sw)
    ensures Commanded(w, r + [s], op, sw) == Commanded(w, r, op, sw) + One(s == Program(op) && Commands(After(w, r, sw), op, sw))
    ensures Times(r + [s], PollClear) == Times(r, PollClear) + One(s == PollClear)
    ensures Room(r + [s], op) == Room(r, op) + One(Clears(s, op))
  {
    assert (r + [s])[..|r|] == r;
    assert Times(r + [s], LearnDone) == Times(r, LearnDone) + One(s == LearnDone);
  }

  predicate Tracks(s: Step) { s.Program? && s.op != Unlearn }

  predicate Untracks(s: Step) { s == LearnFail || s == RecordEnd }

  /** The steps that raise a flag. */
  predicate Raises(s: Step, f: Flag) {
    match f
    case UNLEARN | UNLEARN_PENDING => s == Program(Unlearn)
    case LEARN | LEARN_PENDING => s == Program(Learn)
    case REFRESH | REFRESH_PENDING => s == Program(Refresh)
    case PROBE | PROBE_PENDING => s == Program(Probe)
    case TRACK => Tracks(s)
    case SOFTWARE => s == RecordStart
    case MONITOR => false
  }

  /** The steps that lower it: the answers, for a pending request. */
  predicate Lowers(s: Step, f: Flag, sw: bool) {
    match f
    case UNLEARN | LEARN | PROBE => s == PollClear
    case REFRESH => s == PollClear || s == LearnDone
    case LEARN_PENDING | REFRESH_PENDING => s == PollClear || s == LearnDone || s == LearnFail
    case UNLEARN_PENDING => s == PollClear || s == UnlearnDone
    case PROBE_PENDING => s == PollClear || s == RecordProbed || (sw && s == UnlearnDone)
    case TRACK => Untracks(s)
    case SOFTWARE => s == LearnDone
    case MONITOR => false
  }

  /** Some step was of kind `up`, and none has been of kind `down` since. */
  ghost predicate Since(run: seq<Step>, up: Step -> bool, down: Step -> bool) {
    exists i: nat :: i < |run| && up(run[i]) && NoneFrom(run, i + 1, down)
  }

  ghost predicate NoneFrom(run: seq<Step>, from: nat, down: Step -> bool) {
    forall j | from <= j < |run| :: !down(run[j])
  }

  lemma NoneFromMore(r: seq<Step>, s: Step, from: nat, down: Step -> bool)
    requires from <= |r|
    ensures NoneFrom(r + [s], from, down) <==> NoneFrom(r, from, down) && !down(s)
  {
    var run := r + [s];
    assert run[|r|] == s;
    if NoneFrom(run, from, down) {
      forall j | from <= j < |r|
        ensures !down(r[j])
      {
        assert !down(run[j]);
      }
    }
  }

  lemma SinceMore(r: seq<Step>, s: Step, up: Step -> bool, down: Step -> bool)
    ensures Since(r + [s], up, down) <==> up(s) || (Since(r, up, down) && !down(s))
  {
    var run := r + [s];
    assert run[|r|] == s && NoneFrom(run, |r| + 1, down);
    if Since(r, up, down) && !down(s) {
      var i: nat :| i < |r| && up(r[i]) && NoneFrom(r, i + 1, down);
      NoneFromMore(r, s, i + 1, down);
      assert up(run[i]) && NoneFrom(run, i + 1, down);
    }
    if Since(run, up, down) && !up(s) {
      var i: nat :| i < |run| && up(run[i]) && NoneFrom(run, i + 1, down);
      NoneFromMore(r, s, i + 1, down);
      assert up(r[i]) && NoneFrom(r, i + 1, down);
    }
  }

  function Up(f: Flag): Step -> bool { s => Raises(s, f) }

  function Down(f: Flag, sw: bool): Step -> bool { s => Lowers(s, f, sw) }

  /** Some step raised the flag, and none has lowered it since. */
  ghost predicate Stands(run: seq<Step>, f: Flag, sw: bool) { Since(run, Up(f), Down(f, sw)) }

  lemma FlagMoves(w: Word, s: Step, f: Flag, sw: bool)
    ensures f in Next(w, s, sw) <==> Raises(s, f) || (f in w && !Lowers(s, f, sw))
  {
  }

  /** What the word says about the run, flag by flag. */
  lemma {:induction false} FlagHistory(run: seq<Step>, f: Flag, sw: bool)
    ensures f in After({}, run, sw) <==> Stands(run, f, sw)
  {
    if run != [] {
      var r, s := run[..|run| - 1], run[|run| - 1];
      assert r + [s] == run;
      FlagHistory(r, f, sw);
      FlagMoves(After({}, r, sw), s, f, sw);
      SinceMore(r, s, Up(f), Down(f, sw));
    }
  }

  /** What the poll thread does with the flags it found. */
  datatype Action = Ask(op: Op) | Drop | Nothing

  /** The decision of `fl_poll_main`. */
  function Decision(w: Word, sw: bool): Action {
    if LEARN_PENDING in w then Ask(Learn)
    else if REFRESH_PENDING in w || (sw && PROBE_PENDING in w) then Ask(Refresh)
    else if UNLEARN_PENDING in w then Ask(Unlearn)
    else if UNLEARN in w || TRACK !in w then Drop
    else if w * {LEARN, PROBE, REFRESH, PROBE_PENDING} != {} then Ask(Probe)
    else Nothing
  }
}
