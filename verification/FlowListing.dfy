/** When an entry is added to the poll list that is on the list already, in the runs of the program. */
module FlowListing {
  import opened FlowFlags
  import opened FlowThreads
  import FlowChain
  import FlowTable

  /** A failed learn command or the end of a flow record has come since the last request that tracks the flow. */
  ghost predicate UntrackedSince(run: seq<Step>) { Since(run, Untracks, Tracks) }

  /** How an entry gets on the list and off it. */
  lemma ListMoves(s: State, e: Step, sw: bool)
    requires Enabled(s, e, sw)
    ensures var t := Move(s, e, sw);
      && (t.listed <==> e == Link || (s.listed && e != PollDrop))
      && (t.linking <==> Adds(s.flags, e, sw) || (s.linking && e != Link))
      && (Adds(s.flags, e, sw) || e == Link ==> s.linking == (e == Link))
      && (s.poll == Nothing || s.listed ==> t.poll == Nothing || t.listed)
  {
  }

  lemma TrackMoves(w: Word, e: Step, sw: bool)
    ensures TRACK in Next(w, e, sw) <==> Tracks(e) || (TRACK in w && !Untracks(e))
    ensures Adds(w, e, sw) ==> Tracks(e) && !Untracks(e)
  {
  }

  /** For an entry that is or will be on the list, that is what the flag stands for. */
  lemma {:induction false} ListedTrack(run: seq<Step>, sw: bool)
    requires Real(run, sw) && (At(run, sw).listed || At(run, sw).linking)
    ensures TRACK !in At(run, sw).flags <==> UntrackedSince(run)
  {
    var r, e := run[..|run| - 1], run[|run| - 1];
    var s := At(r, sw);
    assert r + [e] == run;
    SinceMore(r, e, Untracks, Tracks);
    TrackMoves(s.flags, e, sw);
    ListMoves(s, e, sw);
    if s.listed || s.linking {
      ListedTrack(r, sw);
    }
  }

  /** A learn request for a listed entry adds it again if and only if a record has made it untracked since the last
      request that tracks the flow. */
  lemma AddsMember(run: seq<Step>, sw: bool)
    requires Real(run, sw) && At(run, sw).listed && Enabled(At(run, sw), Program(Learn), sw)
    ensures Adds(At(run, sw).flags, Program(Learn), sw) <==> UntrackedSince(run)
  {
    LearnsAreNeeded(run, sw);
    ListedTrack(run, sw);
  }

  predicate Links(e: Step) { e == Link }

  predicate Drops(e: Step) { e == PollDrop }

  /** Step i has led the program thread to add the entry, which it has not done yet. */
  ghost predicate Decided(run: seq<Step>, i: nat, sw: bool) {
    && i < |run| && run[i] == Program(Learn) && Adds(At(run[..i], sw).flags, run[i], sw)
    && NoneFrom(run, i + 1, Links)
  }

  lemma DecidedMore(r: seq<Step>, e: Step, i: nat, sw: bool)
    requires i < |r|
    ensures Decided(r + [e], i, sw) <==> Decided(r, i, sw) && e != Link
  {
    assert (r + [e])[..i] == r[..i];
    NoneFromMore(r, e, i + 1, Links);
  }

  lemma {:induction false} LinkingWasDecided(run: seq<Step>, sw: bool) returns (i: nat)
    requires Real(run, sw) && At(run, sw).linking
    ensures Decided(run, i, sw)
  {
    var r, e := run[..|run| - 1], run[|run| - 1];
    assert r + [e] == run;
    ListMoves(At(r, sw), e, sw);
    if At(r, sw).linking {
      i := LinkingWasDecided(r, sw);
      DecidedMore(r, e, i, sw);
    } else {
      i := |r|;
    }
  }

  /** What is decided is done with the entry listed if it was so then and has not been taken off. */
  lemma {:induction false} DecidedIsLinking(run: seq<Step>, i: nat, sw: bool)
    requires Real(run, sw) && Decided(run, i, sw)
    ensures At(run, sw).linking && (At(run, sw).listed <==> At(run[..i], sw).listed && NoneFrom(run, i + 1, Drops))
  {
    var r, e := run[..|run| - 1], run[|run| - 1];
    assert r + [e] == run;
    ListMoves(At(r, sw), e, sw);
    if i < |r| {
      DecidedMore(r, e, i, sw);
      DecidedIsLinking(r, i, sw);
      assert run[..i] == r[..i];
      NoneFromMore(r, e, i + 1, Drops);
    } else {
      assert run[..i] == r && NoneFrom(run, i + 1, Drops);
    }
  }

  /** Somewhere in the run, an entry is added that is on the list. */
  ghost predicate AddedTwice(run: seq<Step>, sw: bool) {
    exists j: nat :: j < |run| && Relinks(run, j, sw)
  }

  ghost predicate Relinks(run: seq<Step>, j: nat, sw: bool)
    requires j < |run|
  {
    run[j] == Link && At(run[..j], sw).listed
  }

  /** Step i takes a learn request for a listed entry that is not tracked any more, and step j follows it up
      while the entry is still listed. */
  ghost predicate Exposed(run: seq<Step>, i: nat, j: nat, sw: bool)
    requires i < j < |run|
  {
    && run[i] == Program(Learn) && At(run[..i], sw).listed && UntrackedSince(run[..i])
    && run[j] == Link && NoneFrom(run[..j], i + 1, Links) && NoneFrom(run[..j], i + 1, Drops)
  }

  lemma {:induction false} RealPrefix(run: seq<Step>, i: nat, sw: bool)
    requires Real(run, sw) && i <= |run|
    ensures Real(run[..i], sw) && (i < |run| ==> Enabled(At(run[..i], sw), run[i], sw))
  {
    if i < |run| {
      var r := run[..|run| - 1];
      RealPrefix(r, i, sw);
      assert run[..i] == r[..i];
    } else {
      assert run[..i] == run;
    }
  }

  lemma RelinkIsExposed(run: seq<Step>, j: nat, sw: bool) returns (i: nat)
    requires Real(run, sw) && j < |run| && Relinks(run, j, sw)
    ensures i < j && Exposed(run, i, j, sw)
  {
    RealPrefix(run, j, sw);
    i := LinkingWasDecided(run[..j], sw);
    DecidedIsLinking(run[..j], i, sw);
    RealPrefix(run, i, sw);
    assert run[..j][..i] == run[..i];
    AddsMember(run[..i], sw);
  }

  lemma ExposedRelinks(run: seq<Step>, i: nat, j: nat, sw: bool)
    requires Real(run, sw) && i < j < |run| && Exposed(run, i, j, sw)
    ensures Relinks(run, j, sw)
  {
    RealPrefix(run, i, sw);
    AddsMember(run[..i], sw);
    RealPrefix(run, j, sw);
    assert run[..j][..i] == run[..i];
    DecidedIsLinking(run[..j], i, sw);
  }

  /** In any run of the program, an entry is on the list at most once exactly as long as no learn request for a listed
      entry comes after a record that made it untracked, and is followed up before the entry is taken off. */
  lemma AddedTwiceExactly(run: seq<Step>, sw: bool)
    requires Real(run, sw)
    ensures AddedTwice(run, sw) <==> exists i: nat, j: nat :: i < j < |run| && Exposed(run, i, j, sw)
  {
    if AddedTwice(run, sw) {
      var j: nat :| j < |run| && Relinks(run, j, sw);
      var i := RelinkIsExposed(run, j, sw);
    }
    if i: nat, j: nat :| i < j < |run| && Exposed(run, i, j, sw) {
      ExposedRelinks(run, i, j, sw);
    }
  }

  /** So nothing is added twice as long as no learn command fails and no flow record ends the tracking. */
  lemma TrackedIsAddedOnce(run: seq<Step>, sw: bool)
    requires Real(run, sw) && forall e <- run :: !Untracks(e)
    ensures !AddedTwice(run, sw)
  {
    AddedTwiceExactly(run, sw);
    forall i: nat, j: nat | i < j < |run|
      ensures !Exposed(run, i, j, sw)
    {
      assert forall k | 0 <= k < i :: run[..i][k] in run;
    }
  }

  function Additions(run: seq<Step>, sw: bool): nat {
    if run == [] then 0 else
      var r := run[..|run| - 1];
      Additions(r, sw) + One(Adds(At(r, sw).flags, run[|run| - 1], sw))
  }

  /** On the list or not, an entry is added once, and once more at most for each record that makes it untracked. */
  lemma {:induction false} AdditionsAreLimited(run: seq<Step>, sw: bool)
    ensures Additions(run, sw) <= Times(run, LearnFail) + Times(run, RecordEnd) + One(TRACK in At(run, sw).flags)
  {
    if run != [] {
      AdditionsAreLimited(run[..|run| - 1], sw);
      TrackMoves(At(run[..|run| - 1], sw).flags, run[|run| - 1], sw);
    }
  }

  /** The references to the entry: one from `ft_add`, and one for each addition that is not undone. */
  function References(run: seq<Step>, sw: bool): int { 1 + Additions(run, sw) - Times(run, PollDrop) }

  lemma TwiceMore(r: seq<Step>, e: Step, sw: bool)
    ensures AddedTwice(r, sw) || (e == Link && At(r, sw).listed) ==> AddedTwice(r + [e], sw)
  {
    var run := r + [e];
    if j: nat :| j < |r| && Relinks(r, j, sw) {
      assert run[..j] == r[..j] && Relinks(run, j, sw);
    } else {
      assert run[..|r|] == r && run[|r|] == e;
      assert Relinks(run, |r|, sw) <==> e == Link && At(r, sw).listed;
    }
  }

  /** Until an entry is added twice, it has the reference from `ft_add`, and one more as long as it is listed
      or about to be. */
  lemma {:induction false} ListingHasAReference(run: seq<Step>, sw: bool)
    requires Real(run, sw) && !AddedTwice(run, sw)
    ensures References(run, sw) == 1 + One(At(run, sw).listed) + One(At(run, sw).linking)
    ensures At(run, sw).poll == Nothing || At(run, sw).listed
  {
    if run != [] {
      var r, e := run[..|run| - 1], run[|run| - 1];
      assert r + [e] == run;
      TwiceMore(r, e, sw);
      ListingHasAReference(r, sw);
      ListMoves(At(r, sw), e, sw);
    }
  }

  /** So when the poll thread gives up the reference of an entry that it has taken off, there is another one, and the
      table keeps the entry. Nothing gives up the reference from `ft_add`. */
  lemma DropKeepsEntry(run: seq<Step>, sw: bool, live: FlowTable.Flows, r: FlowChain.Ref)
    requires Real(run, sw) && !AddedTwice(run, sw) && At(run, sw).poll == Drop
    requires r in live && live[r].count == References(run, sw)
    ensures 1 < FlowTable.CountOf(live, r) && r in FlowTable.Released(live, r, 1)
  {
    ListingHasAReference(run, sw);
  }
}
