/** The backlog of reports: when there is an alert, the reports around it are printed. */
module Backlog {
  /** NUM_ENTRIES */
  const SIZE: nat := 5

  /** What one tick has to report. */
  datatype Report = Report(time: string, rxMbps: string, numStreams: string, pkts: string, pktsRate: string,
                           drop: string, hbFill: string, obFill: string, util: string)

  function Max(a: int, b: int): int { if a < b then b else a }

  function Range(lo: nat, hi: nat): (s: seq<nat>)
    requires lo <= hi
    ensures |s| == hi - lo && forall i | 0 <= i < |s| :: s[i] == lo + i
  {
    seq(hi - lo, i requires i >= 0 => lo + i)
  }

  /** Tick v prints: it has an alert, or the tick before it had one. */
  predicate Prints(alerts: seq<bool>, v: int) { 0 <= v < |alerts| && (alerts[v] || (v > 0 && alerts[v - 1])) }

  /** Up to which tick reports have been dealt with, and which reports have been printed. */
  datatype Log = Log(seen: nat, printed: seq<nat>)

  /** The log after the ticks with the given alerts. */
  function LogOf(alerts: seq<bool>): (r: Log)
    ensures r.seen <= |alerts|
  {
    if alerts == [] then Log(0, []) else
      var n, r := |alerts|, LogOf(alerts[..|alerts| - 1]);
      if Prints(alerts, n - 1) then Log(n, r.printed + Range(Max(r.seen, n - SIZE), n)) else r
  }

  /** Some tick that prints still has report t in the backlog. */
  ghost predicate Caught(alerts: seq<bool>, t: nat) { exists v :: t <= v < t + SIZE && Prints(alerts, v) }

  lemma {:induction false} LogMeaning(alerts: seq<bool>)
    ensures var r := LogOf(alerts);
      && (r.seen > 0 ==> Prints(alerts, r.seen - 1))
      && (forall v | r.seen <= v < |alerts| :: !Prints(alerts, v))
      && (forall t <- r.printed :: t < r.seen)
      && (forall t: nat :: t in r.printed <==> Caught(alerts, t))
  {
    if alerts != [] {
      var n := |alerts|;
      var before := alerts[..n - 1];
      var b := LogOf(before);
      LogMeaning(before);
      assert forall v | v < n - 1 :: Prints(alerts, v) == Prints(before, v);
      forall t: nat
        ensures t in LogOf(alerts).printed <==> Caught(alerts, t)
      {
        assert Caught(alerts, t) <==> Caught(before, t) || (Prints(alerts, n - 1) && n - SIZE <= t < n);
        if Prints(alerts, n - 1) {
          CaughtEarlier(before, b.seen, t);
          RangeHas(Max(b.seen, n - SIZE), n, t);
        }
      }
    }
  }

  /** A report from before the last tick that printed, and not more than four ticks older than now, has been caught. */
  lemma CaughtEarlier(before: seq<bool>, seen: nat, t: nat)
    requires seen > 0 ==> Prints(before, seen - 1)
    requires forall v | seen <= v < |before| :: !Prints(before, v)
    ensures |before| + 1 - SIZE <= t < seen ==> Caught(before, t)
    ensures seen <= t ==> !Caught(before, t)
  {
    if |before| + 1 - SIZE <= t < seen {
      assert t <= seen - 1 < t + SIZE && Prints(before, seen - 1);
    }
  }

  /** Before turn i of the loop of `output`, with n reports in all of which `from` were dealt with. */
  ghost predicate PrintedBy(log: Log, n: nat, from: nat, i: nat, printed: seq<nat>) {
    && log.seen == Max(from, n - SIZE + if i <= SIZE then i else SIZE)
    && log.printed == printed + Range(from, log.seen)
  }

  lemma Printed(before: Log, after: Log, n: nat, from: nat, i: nat, printed: seq<nat>)
    requires i <= SIZE && n - SIZE <= from <= n && PrintedBy(before, n, from, i, printed)
    requires after == if before.seen == n + i - SIZE < n then Log(n + i - SIZE + 1, before.printed + [n + i - SIZE]) else before
    ensures PrintedBy(after, n, from, i + 1, printed)
  {
    assert after != before ==> Range(from, after.seen) == Range(from, before.seen) + [before.seen];
  }

  lemma RangeHas(lo: nat, hi: nat, t: nat)
    requires lo <= hi
    ensures t in Range(lo, hi) <==> lo <= t < hi
  {
    if lo <= t < hi {
      assert Range(lo, hi)[t - lo] == t;
    }
  }

  /** The report of tick t is printed exactly when some tick from t - 1 to t + 4, within the run, has an alert. */
  lemma PrintedAroundAlerts(alerts: seq<bool>, t: nat)
    requires t < |alerts|
    ensures t in LogOf(alerts).printed <==> exists u :: t - 1 <= u <= t + 4 && 0 <= u < |alerts| && alerts[u]
  {
    LogMeaning(alerts);
    if Caught(alerts, t) {
      var v :| t <= v < t + SIZE && Prints(alerts, v);
      if !alerts[v] {
        assert alerts[v - 1];
      }
    }
    if u :| t - 1 <= u <= t + 4 && 0 <= u < |alerts| && alerts[u] {
      assert Prints(alerts, if u < t then t else u);
    }
  }

  /** Every report is printed at most once, and in the order of time. */
  lemma {:induction false} PrintedInOrder(alerts: seq<bool>)
    ensures var p := LogOf(alerts).printed; forall i, j | 0 <= i < j < |p| :: p[i] < p[j] < |alerts|
  {
    if alerts != [] {
      var before := LogOf(alerts[..|alerts| - 1]);
      PrintedInOrder(alerts[..|alerts| - 1]);
      LogMeaning(alerts[..|alerts| - 1]);
      forall i | 0 <= i < |before.printed|
        ensures before.printed[i] < before.seen
      {
        assert before.printed[i] in before.printed;
      }
    }
  }

  /** The place in the ring for report x. */
  ghost function SlotOf(x: nat): (slot: nat)
    ensures slot < SIZE
  {
    if x < SIZE then x else SlotOf(x - SIZE)
  }

  lemma {:induction false} SlotNext(x: nat)
    ensures SlotOf(x + 1) == (SlotOf(x) + 1) % SIZE
  {
    if x >= SIZE {
      SlotNext(x - SIZE);
    }
  }

  lemma {:induction false} SlotApart(x: nat, y: nat)
    requires x < y < x + SIZE
    ensures SlotOf(x) != SlotOf(y)
  {
    if x >= SIZE {
      SlotApart(x - SIZE, y - SIZE);
    }
  }

  /** The last five reports have places of their own. */
  lemma SlotsApart(k: nat)
    ensures forall i: nat | k - SIZE < i < k + SIZE && i != k :: SlotOf(i) != SlotOf(k)
  {
    forall i: nat | k - SIZE < i < k + SIZE && i != k
      ensures SlotOf(i) != SlotOf(k)
    {
      SlotApart(if i < k then i else k, if i < k then k else i);
    }
  }

  /** `CBacklog`, with the stream that it prints to. */
  class Ring {
    const processed: array<bool>
    const entries: array<Report>
    var pos: nat
    var output: seq<Report>
    ghost var history: seq<Report>   // all reports ever added
    ghost var log: Log

    ghost predicate Slot(i: nat)
      requires i < |history| && processed.Length == entries.Length == SIZE
      reads this, processed, entries
    {
      entries[SlotOf(i)] == history[i] && processed[SlotOf(i)] == (i < log.seen)
    }

    ghost predicate Logged()
      reads this
    {
      && |output| == |log.printed|
      && forall k | 0 <= k < |output| :: log.printed[k] < |history| && output[k] == history[log.printed[k]]
    }

    ghost predicate Valid()
      reads this, processed, entries
    {
      && processed.Length == entries.Length == SIZE
      && pos == SlotOf(|history|) && log.seen <= |history|
      && (forall i: nat | |history| - SIZE <= i < |history| :: Slot(i))
      && (forall s | |history| <= s < SIZE :: processed[s])
      && Logged()
    }

    constructor (blank: Report)
      ensures Valid() && history == [] && log == Log(0, []) && output == [] && fresh(processed) && fresh(entries)
    {
      processed, entries := new bool[SIZE](_ => true), new Report[SIZE](_ => blank);
      pos, output, history, log := 0, [], [], Log(0, []);
    }

    /** `addEntry` */
    method AddEntry(report: Report)
      requires Valid()
      modifies this`pos, this`history, processed, entries
      ensures Valid() && history == old(history) + [report]
    {
      processed[pos] := false;
      entries[pos] := report;
      SlotsApart(|history|);
      SlotNext(|history|);
      pos := (pos + 1) % SIZE;
      history := history + [report];
      forall i: nat | |history| - SIZE <= i < |history|
        ensures Slot(i)
      {
        assert i < |history| - 1 ==> old(Slot(i));
      }
    }

    /** One turn of the loop of `output`, at the slot of report x - 5. */
    method Visit(currPos: nat, ghost x: nat)
      requires Valid() && currPos == SlotOf(x) && |history| <= x <= |history| + SIZE && x - SIZE <= log.seen
      modifies this`output, this`log, processed
      ensures Valid()
      ensures log == if old(log.seen) == x - SIZE < |history| then Log(x - SIZE + 1, old(log.printed) + [x - SIZE]) else old(log)
    {
      if SIZE <= x < |history| + SIZE {
        assert Slot(x - SIZE);
      } else if x >= 2 * SIZE {
        assert Slot(x - 2 * SIZE);
      }
      if !processed[currPos] {
        processed[currPos] := true;
        output := output + [entries[currPos]];
        log := Log(x - SIZE + 1, log.printed + [x - SIZE]);
        SlotsApart(x - SIZE);
        forall i: nat | |history| - SIZE <= i < |history|
          ensures Slot(i)
        {
          assert old(Slot(i));
        }
      }
    }

    /** Reports that have left the ring will not be printed any more. */
    ghost method Forget()
      requires Valid()
      modifies this`log
      ensures Valid() && log == Log(Max(old(log.seen), |history| - SIZE), old(log.printed))
    {
      log := Log(Max(log.seen, |history| - SIZE), log.printed);
      forall i: nat | |history| - SIZE <= i < |history|
        ensures Slot(i)
      {
        assert old(Slot(i));
      }
    }

    /** `output`: prints what the last five ticks have added since the previous time, oldest first. */
    method Output()
      requires Valid()
      modifies this`output, this`log, processed
      ensures Valid() && log.seen == |history|
      ensures log.printed == old(log.printed) + Range(Max(old(log.seen), |history| - SIZE), |history|)
    {
      Forget();
      ghost var from, x, printed := log.seen, |history|, log.printed;
      var currPos := pos;
      var i := 0;
      while i <= SIZE
        modifies this`output, this`log, processed
        invariant x == |history| + i <= |history| + SIZE + 1 && currPos == SlotOf(x) && Valid()
        invariant PrintedBy(log, |history|, from, i, printed)
      {
        ghost var before := log;
        Visit(currPos, x);
        Printed(before, log, |history|, from, i, printed);
        SlotNext(x);
        currPos, x := (currPos + 1) % SIZE, x + 1;
        i := i + 1;
      }
    }
  }

  /** The part of `outputStats` that decides what to print, and its static `prevAlert`. */
  class Reporter {
    const ring: Ring
    var prevAlert: bool
    ghost var alerts: seq<bool>

    ghost predicate Valid()
      reads this, ring, ring.processed, ring.entries
    {
      && ring.Valid() && |ring.history| == |alerts| && ring.log == LogOf(alerts)
      && prevAlert == (alerts != [] && alerts[|alerts| - 1])
    }

    constructor (blank: Report)
      ensures Valid() && alerts == [] && fresh(ring) && fresh(ring.processed) && fresh(ring.entries)
    {
      ring := new Ring(blank);
      prevAlert, alerts := false, [];
    }

    /** One tick. What has been printed are the reports that the log of all alerts lists. */
    method OutputStats(report: Report, alert: bool)
      requires Valid()
      modifies this, ring, ring.processed, ring.entries
      ensures Valid() && alerts == old(alerts) + [alert] && ring.history == old(ring.history) + [report]
      ensures ring.Logged() && ring.log == LogOf(alerts)
    {
      ring.AddEntry(report);
      alerts := alerts + [alert];
      assert alerts[..|alerts| - 1] == old(alerts);
      if alert || prevAlert {
        ring.Output();
      }
      prevAlert := alert;
    }
  }
}
