/** Runs of the program step by step, with the commands that they lead to. */
module FlowTraces {
  import opened FlowFlags
  import opened FlowThreads

  /** How many commands of one kind, how much room for them, and whether the adapter was given a probe. */
  datatype Tally = Tally(op: Op, commands: nat, room: nat, probed: bool) {
    function Then(s: State, e: Step, sw: bool): Tally {
      Tally(op, commands + One(e == Program(op) && Commands(s.flags, op, sw)), room + One(Clears(e, op)), probed || e == Program(Probe))
    }
  }

  /** The program can take the run; if `honest`, without a report on a probe that was not given. */
  ghost predicate Leads(run: seq<Step>, s: State, c: Tally, honest: bool, sw: bool) {
    && Real(run, sw) && At(run, sw) == s && (honest ==> Answering(run, sw))
    && Commanded({}, run, c.op, sw) == c.commands && Room(run, c.op) == c.room && (c.probed ==> Times(run, Program(Probe)) > 0)
  }

  /** The part of an honest adapter. */
  predicate Reports(s: State, c: Tally, e: Step, honest: bool, sw: bool) {
    honest && e == RecordAsk ==> s.record.Probed? || (!sw && c.probed)
  }

  lemma AnswersOn(run: seq<Step>, e: Step, sw: bool)
    requires Answering(run, sw) && (e == RecordAsk && At(run, sw).record.Started? ==> !sw && Times(run, Program(Probe)) > 0)
    ensures Answering(run + [e], sw)
  {
    assert (run + [e])[..|run|] == run;
  }

  lemma ProbesOn(run: seq<Step>, e: Step)
    ensures Times(run + [e], Program(Probe)) == Times(run, Program(Probe)) + One(e == Program(Probe))
  {
    assert (run + [e])[..|run|] == run;
  }

  lemma LeadsOn(run: seq<Step>, s: State, c: Tally, e: Step, honest: bool, sw: bool)
    requires Leads(run, s, c, honest, sw) && Enabled(s, e, sw) && Reports(s, c, e, honest, sw)
    ensures Leads(run + [e], Move(s, e, sw), c.Then(s, e, sw), honest, sw)
  {
    FlagsOf(run, sw);
    OneMoreStep(run, e, sw);
    OneMore({}, run, e, c.op, sw);
    ProbesOn(run, e);
    if honest {
      AnswersOn(run, e, sw);
    }
  }

  /** Runs, and what they lead to. */
  type Traces = iset<(seq<Step>, State, Tally)>

  /** The set holds the run without steps, and every run that is one step longer than one that it holds. */
  ghost predicate Closed(p: Traces, honest: bool, sw: bool) {
    && (forall op :: ([], START, Tally(op, 0, 0, false)) in p)
    && forall run: seq<Step>, s, c: Tally, e | (run, s, c) in p && Enabled(s, e, sw) && Reports(s, c, e, honest, sw) ::
         (run + [e], Move(s, e, sw), c.Then(s, e, sw)) in p
  }

  lemma Onward(p: Traces, run: seq<Step>, s: State, c: Tally, e: Step, honest: bool, sw: bool)
    returns (longer: seq<Step>, t: State, d: Tally)
    requires Closed(p, honest, sw) && (run, s, c) in p && Enabled(s, e, sw) && Reports(s, c, e, honest, sw)
    ensures (longer, t, d) in p && longer == run + [e] && t == Move(s, e, sw) && d == c.Then(s, e, sw)
    ensures e == Miss || e == Link || e == RecordAsk || e == PollAsk ==> t.flags == s.flags
  {
    longer, t, d := run + [e], Move(s, e, sw), c.Then(s, e, sw);
  }

  /** The runs of the program are such a set. */
  lemma RealTraces(honest: bool, sw: bool) returns (p: Traces)
    ensures Closed(p, honest, sw)
    ensures forall run: seq<Step>, s, c: Tally | (run, s, c) in p :: Leads(run, s, c, honest, sw)
  {
    p := iset run: seq<Step>, s, c: Tally | Leads(run, s, c, honest, sw) :: (run, s, c);
    forall op
      ensures Leads([], START, Tally(op, 0, 0, false), honest, sw)
    {
    }
    forall run: seq<Step>, s, c: Tally, e | (run, s, c) in p && Enabled(s, e, sw) && Reports(s, c, e, honest, sw)
      ensures (run + [e], Move(s, e, sw), c.Then(s, e, sw)) in p
    {
      LeadsOn(run, s, c, e, honest, sw);
    }
  }

  /** A listed entry that no thread is busy with. */
  function Listed(w: Word): State { State(w, [], true, false, true, Nothing, Idle) }

  /** A poll, and the request that it makes. */
  lemma Polled(p: Traces, run: seq<Step>, w: Word, op: Op, c: Tally, honest: bool, sw: bool)
    returns (longer: seq<Step>, t: State, d: Tally)
    requires Closed(p, honest, sw) && (run, Listed(w), c) in p && Decision(w, sw) == Ask(op)
    ensures (longer, t, d) in p && longer == run + [PollClear] + [PollAsk]
    ensures t == Listed(Next(w, PollClear, sw)).(queue := [op]) && d == c.(room := c.room + 1)
  {
    longer, t, d := Onward(p, run, Listed(w), c, PollClear, honest, sw);
    longer, t, d := Onward(p, longer, t, d, PollAsk, honest, sw);
  }

  /** The program thread takes the request. */
  lemma Taken(p: Traces, run: seq<Step>, u: Word, op: Op, c: Tally, honest: bool, sw: bool)
    returns (longer: seq<Step>, t: State, d: Tally)
    requires Closed(p, honest, sw) && (run, Listed(u).(queue := [op]), c) in p && !Adds(u, Program(op), sw)
    ensures (longer, t, d) in p && longer == run + [Program(op)] && t == Listed(Next(u, Program(op), sw))
    ensures d == Tally(c.op, c.commands + One(op == c.op && Commands(u, op, sw)), c.room, c.probed || op == Probe)
  {
    longer, t, d := Onward(p, run, Listed(u).(queue := [op]), c, Program(op), honest, sw);
  }

  /** The entry that a receiver has added and asked about. */
  function Missed(w: Word): State { State(w, [Learn], true, false, false, Nothing, Idle) }

  lemma Missing(p: Traces, c: Tally, honest: bool, sw: bool)
    requires Closed(p, honest, sw) && ([], START, c) in p
    ensures ([Miss], Missed({}), c) in p
  {
    var run, t, d := Onward(p, [], START, c, Miss, honest, sw);
    assert t.queue == [Learn] && t == Missed({}) && d == c && run == [Miss];
  }

  lemma FirstFlags(w: Word, sw: bool)
    requires w == {}
    ensures Adds(w, Program(Learn), sw) && Decision(Next(w, Program(Learn), sw), sw) == Ask(Learn)
  {
  }

  lemma Linked(p: Traces, run: seq<Step>, w: Word, c: Tally, honest: bool, sw: bool) returns (longer: seq<Step>, t: State, d: Tally)
    requires Closed(p, honest, sw) && (run, Missed(w), c) in p && Adds(w, Program(Learn), sw)
    ensures (longer, t, d) in p && longer == run + [Program(Learn)] + [Link]
    ensures t == Listed(Next(w, Program(Learn), sw)) && d == c.(commands := c.commands + One(c.op == Learn))
  {
    longer, t, d := Onward(p, run, Missed(w), c, Program(Learn), honest, sw);
    longer, t, d := Onward(p, longer, t, d, Link, honest, sw);
  }

  /** The first learn command, and the poll list. */
  lemma Learned(p: Traces, op: Op, honest: bool, sw: bool) returns (run: seq<Step>, w: Word, d: Tally)
    requires Closed(p, honest, sw)
    ensures (run, Listed(w), d) in p && run == [Miss] + [Program(Learn)] + [Link]
    ensures w == Next({}, Program(Learn), sw) && Decision(w, sw) == Ask(Learn) && d == Tally(op, One(op == Learn), 0, false)
  {
    Missing(p, Tally(op, 0, 0, false), honest, sw);
    FirstFlags({}, sw);
    var t;
    run, t, d := Linked(p, [Miss], {}, Tally(op, 0, 0, false), honest, sw);
    w := t.flags;
  }
}
