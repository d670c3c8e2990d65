/** Runs of the program in which as many commands go to the adapter as the limits allow. */
module FlowLimits {
  import opened FlowFlags
  import opened FlowThreads
  import opened FlowTraces

  /** The poll will ask for op. */
  ghost predicate Calls(w: Word, op: Op, sw: bool) {
    && TRACK in w && PendingOf(op) in w && op != Probe && (op != Learn ==> LEARN_PENDING !in w)
    && (op == Unlearn ==> REFRESH_PENDING !in w && !(sw && PROBE_PENDING in w))
  }

  lemma CallsAgain(w: Word, op: Op, sw: bool)
    requires Calls(w, op, sw)
    ensures var u := Next(w, PollClear, sw); Decision(w, sw) == Ask(op) && Commands(u, op, sw) && !Adds(u, Program(op), sw)
  {
  }

  lemma CallsOn(w: Word, op: Op, sw: bool)
    requires Calls(w, op, sw)
    ensures Calls(Next(Next(w, PollClear, sw), Program(op), sw), op, sw)
  {
  }

  /** When nobody answers, each poll leads to one more command. */
  lemma Round(p: Traces, run: seq<Step>, w: Word, c: Tally, honest: bool, sw: bool) returns (longer: seq<Step>, v: Word, d: Tally)
    requires Closed(p, honest, sw) && (run, Listed(w), c) in p && Calls(w, c.op, sw)
    ensures (longer, Listed(v), d) in p && Calls(v, c.op, sw) && d == Tally(c.op, c.commands + 1, c.room + 1, c.probed)
  {
    CallsAgain(w, c.op, sw);
    CallsOn(w, c.op, sw);
    var t;
    longer, t, d := Polled(p, run, w, c.op, c, honest, sw);
    longer, t, d := Taken(p, longer, Next(w, PollClear, sw), c.op, d, honest, sw);
    v := t.flags;
  }

  lemma {:induction false} Rounds(p: Traces, run: seq<Step>, w: Word, c: Tally, honest: bool, k: nat, sw: bool)
    returns (longer: seq<Step>, v: Word, d: Tally)
    requires Closed(p, honest, sw) && (run, Listed(w), c) in p && Calls(w, c.op, sw)
    ensures (longer, Listed(v), d) in p && Calls(v, c.op, sw) && d == Tally(c.op, c.commands + k, c.room + k, c.probed)
  {
    longer, v, d := run, w, c;
    if k > 0 {
      longer, v, d := Rounds(p, run, w, c, honest, k - 1, sw);
      longer, v, d := Round(p, longer, v, d, honest, sw);
    }
  }

  lemma LearnFlags(w: Word, sw: bool)
    requires w == Next({}, Program(Learn), sw)
    ensures Calls(w, Learn, sw) && Next(w, LearnDone, sw) == {LEARN, TRACK}
  {
  }

  /** The adapter answers the first learn command. */
  lemma Answered(p: Traces, op: Op, honest: bool, sw: bool) returns (run: seq<Step>, d: Tally)
    requires Closed(p, honest, sw) && op != Learn
    ensures (run, Listed({LEARN, TRACK}), d) in p && d == Tally(op, 0, One(op == Refresh), false)
  {
    var w, t;
    run, w, d := Learned(p, op, honest, sw);
    LearnFlags(w, sw);
    run, t, d := Onward(p, run, Listed(w), d, LearnDone, honest, sw);
    assert t == Listed({LEARN, TRACK});
  }

  lemma ProbeFlags(sw: bool)
    ensures Decision({LEARN, TRACK}, sw) == Ask(Probe) && Next({LEARN, TRACK}, PollClear, sw) == {TRACK}
    ensures Next({TRACK}, Program(Probe), sw) == {PROBE, PROBE_PENDING, TRACK}
  {
    assert LEARN in {LEARN, TRACK} * {LEARN, PROBE, REFRESH, PROBE_PENDING};
  }

  /** The next poll leads to a probe. */
  lemma GivenAProbe(p: Traces, op: Op, honest: bool, sw: bool) returns (run: seq<Step>, d: Tally)
    requires Closed(p, honest, sw) && (op == Unlearn || op == Refresh)
    ensures (run, Listed({PROBE, PROBE_PENDING, TRACK}), d) in p && d == Tally(op, 0, Needed(op), true)
  {
    var t;
    run, d := Answered(p, op, honest, sw);
    ProbeFlags(sw);
    run, t, d := Polled(p, run, {LEARN, TRACK}, Probe, d, honest, sw);
    run, t, d := Taken(p, run, {TRACK}, Probe, d, honest, sw);
  }

  lemma ProbedFlags(w: Word, u: Word)
    requires w == {PROBE, PROBE_PENDING, TRACK} && u == Next(Next(w, RecordStart, true), RecordProbed, true)
    ensures Commands(u, Refresh, true) && Calls(Next(u, Program(Refresh), true), Refresh, true)
  {
  }

  /** An emulated probe is answered by a record. */
  lemma ProbeAnswered(p: Traces, run: seq<Step>, w: Word, c: Tally, honest: bool) returns (longer: seq<Step>, t: State, d: Tally)
    requires Closed(p, honest, true) && (run, Listed(w), c) in p && PROBE in w && UNLEARN !in w && c.op == Refresh
    ensures (longer, t, d) in p && t == Listed(Next(Next(w, RecordStart, true), RecordProbed, true)).(queue := [Refresh]) && d == c
  {
    longer, t, d := Onward(p, run, Listed(w), c, RecordStart, honest, true);
    longer, t, d := Onward(p, longer, t, d, RecordProbed, honest, true);
    longer, t, d := Onward(p, longer, t, d, RecordAsk, honest, true);
  }

  /** That leads to a refresh. */
  lemma Refreshed(p: Traces, honest: bool) returns (run: seq<Step>, v: Word, d: Tally)
    requires Closed(p, honest, true)
    ensures (run, Listed(v), d) in p && Calls(v, Refresh, true) && d == Tally(Refresh, 1, 2, true)
  {
    var t;
    var w := {PROBE, PROBE_PENDING, TRACK};
    run, d := GivenAProbe(p, Refresh, honest, true);
    run, t, d := ProbeAnswered(p, run, w, d, honest);
    ProbedFlags(w, t.flags);
    run, t, d := Taken(p, run, t.flags, Refresh, d, honest, true);
    v := t.flags;
  }

  lemma UnlearnFlags(w: Word, u: Word, sw: bool)
    requires TRACK in w && LEARN_PENDING !in w && REFRESH_PENDING !in w && UNLEARN !in w
    requires (sw ==> PROBE !in w && PROBE_PENDING !in w) && u == Next(w, RecordStart, sw)
    ensures Commands(u, Unlearn, sw) && Calls(Next(u, Program(Unlearn), sw), Unlearn, sw)
  {
  }

  /** The adapter reports a probe without activity. */
  lemma Unlearned(p: Traces, run: seq<Step>, w: Word, c: Tally, honest: bool, sw: bool) returns (longer: seq<Step>, v: Word, d: Tally)
    requires Closed(p, honest, sw) && (run, Listed(w), c) in p && (honest ==> !sw && c.probed) && c.op == Unlearn && c.commands == 0
    requires TRACK in w && LEARN_PENDING !in w && REFRESH_PENDING !in w && UNLEARN !in w
    requires sw ==> PROBE !in w && PROBE_PENDING !in w
    ensures (longer, Listed(v), d) in p && Calls(v, Unlearn, sw) && d == c.(commands := 1)
  {
    var t;
    longer, t, d := Onward(p, run, Listed(w), c, RecordStart, honest, sw);
    UnlearnFlags(w, t.flags, sw);
    longer, t, d := Onward(p, longer, t, d, RecordAsk, honest, sw);
    assert t == Listed(t.flags).(queue := [Unlearn]);
    longer, t, d := Taken(p, longer, t.flags, Unlearn, d, honest, sw);
    v := t.flags;
  }

  /** The first command of a kind that is used, as soon as there can be one. */
  lemma First(p: Traces, op: Op, sw: bool) returns (run: seq<Step>, w: Word, d: Tally)
    requires Closed(p, true, sw) && op != Probe && Used(op, sw)
    ensures (run, Listed(w), d) in p && Calls(w, op, sw) && d == Tally(op, 1, Needed(op), op != Learn)
  {
    match op {
      case Learn =>
        run, w, d := Learned(p, Learn, true, sw);
        LearnFlags(w, sw);
      case Refresh =>
        run, w, d := Refreshed(p, true);
      case Unlearn =>
        run, d := GivenAProbe(p, Unlearn, true, sw);
        run, w, d := Unlearned(p, run, {PROBE, PROBE_PENDING, TRACK}, d, true, sw);
    }
  }

  /** For every kind that is used and any number of further polls, the program can reach its limit. */
  lemma LimitIsReached(k: nat, op: Op, sw: bool)
    requires op != Probe && Used(op, sw)
    ensures exists run :: Real(run, sw) && Answering(run, sw) && Commanded({}, run, op, sw) == 1 + k && Room(run, op) == k + Needed(op)
  {
    var p := RealTraces(true, sw);
    var run, w, c := First(p, op, sw);
    run, w, c := Rounds(p, run, w, c, true, k, sw);
    assert Leads(run, Listed(w), c, true, sw) && Real(run, sw);
  }

  /** A report on a probe that was never given makes one more unlearn command possible. */
  lemma StrayReportCounts(k: nat, sw: bool)
    ensures exists run :: Real(run, sw) && Commanded({}, run, Unlearn, sw) == 1 + k && Room(run, Unlearn) == k
  {
    var p := RealTraces(false, sw);
    var run, c := Answered(p, Unlearn, false, sw);
    var w;
    run, w, c := Unlearned(p, run, {LEARN, TRACK}, c, false, sw);
    run, w, c := Rounds(p, run, w, c, false, k, sw);
    assert Leads(run, Listed(w), c, false, sw) && Real(run, sw);
  }
}
