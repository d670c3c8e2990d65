/** Runs of the program that add an entry to the poll list while it is on the list. */
module FlowRelisted {
  import opened FlowFlags
  import opened FlowThreads
  import opened FlowTraces
  import opened FlowListing

  /** A poll asks for the unanswered learn command again. */
  function Repeat(): seq<Step> { [Miss] + [Program(Learn)] + [Link] + [PollClear] + [PollAsk] }

  /** The record that makes the flow untracked. */
  function Record(lost: Step): seq<Step> { if lost == RecordEnd then [RecordStart] + [RecordEnd] else [lost] }

  lemma Repeated(p: Traces, sw: bool) returns (w: Word, c: Tally)
    requires Closed(p, true, sw)
    ensures (Repeat(), Listed(w).(queue := [Learn]), c) in p && w == {TRACK}
  {
    var run, s;
    run, w, c := Learned(p, Learn, true, sw);
    assert w == {LEARN, LEARN_PENDING, TRACK};
    run, s, c := Polled(p, run, w, Learn, c, true, sw);
    w := s.flags;
  }

  /** Before that is taken up, the first command fails, or a flow record ends. */
  lemma Lost(p: Traces, lost: Step, sw: bool) returns (w: Word, c: Tally)
    requires Closed(p, true, sw) && Untracks(lost)
    ensures (Repeat() + Record(lost), Listed(w).(queue := [Learn]), c) in p && w <= {SOFTWARE}
  {
    w, c := Repeated(p, sw);
    var run, s := Repeat(), Listed(w).(queue := [Learn]);
    if lost == LearnFail {
      run, s, c := Onward(p, run, s, c, LearnFail, true, sw);
    } else {
      run, s, c := Onward(p, run, s, c, RecordStart, true, sw);
      run, s, c := Onward(p, run, s, c, RecordEnd, true, sw);
      assert run == Repeat() + Record(lost);
    }
    w := s.flags;
    assert s == Listed(w).(queue := [Learn]);
  }

  /** Then the learn request adds the entry again. */
  lemma Relinked(p: Traces, run: seq<Step>, s: State, c: Tally, sw: bool)
    requires Closed(p, true, sw) && forall r: seq<Step>, t, d: Tally | (r, t, d) in p :: Leads(r, t, d, true, sw)
    requires (run, s, c) in p && s.listed && !s.linking && s.queue == [Learn] && Adds(s.flags, Program(Learn), sw)
    ensures Real(run + [Program(Learn)] + [Link], sw) && AddedTwice(run + [Program(Learn)] + [Link], sw)
  {
    var longer, t, d := Onward(p, run, s, c, Program(Learn), true, sw);
    assert Leads(longer, t, d, true, sw);
    OneMoreStep(longer, Link, sw);
    assert (longer + [Link])[..|longer|] == longer;
    assert Relinks(longer + [Link], |longer|, sw);
  }

  /** The program can get there, after either record. */
  lemma UntrackedIsAddedTwice(lost: Step, sw: bool)
    requires Untracks(lost)
    ensures var run := Repeat() + Record(lost) + [Program(Learn)] + [Link]; Real(run, sw) && AddedTwice(run, sw)
  {
    var p := RealTraces(true, sw);
    var w, c := Lost(p, lost, sw);
    Relinked(p, Repeat() + Record(lost), Listed(w).(queue := [Learn]), c, sw);
  }

  lemma DropFlags(w: Word, sw: bool)
    requires w <= {SOFTWARE}
    ensures Decision(w, sw) == Drop && Next(w, PollClear, sw) <= {SOFTWARE}
  {
  }

  /** It can do so too when the poll thread has decided to take the entry off, but has not done it. */
  lemma DroppingIsAddedTwice(sw: bool)
    ensures var run := Repeat() + Record(RecordEnd) + [PollClear] + [Program(Learn)] + [Link];
      Real(run, sw) && AddedTwice(run, sw) && At(run, sw).poll == Drop
  {
    var p := RealTraces(true, sw);
    var w, c := Lost(p, RecordEnd, sw);
    DropFlags(w, sw);
    var run, s;
    run, s, c := Onward(p, Repeat() + Record(RecordEnd), Listed(w).(queue := [Learn]), c, PollClear, true, sw);
    Relinked(p, run, s, c, sw);
    run, s, c := Onward(p, run, s, c, Program(Learn), true, sw);
    run, s, c := Onward(p, run, s, c, Link, true, sw);
    assert Leads(run, s, c, true, sw);
  }
}
