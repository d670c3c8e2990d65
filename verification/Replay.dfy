/** When the packets of a capture file are sent, again and again, from a common boundary on. All times
    are in ticks of 10 ns. */
module Replay {
  import opened Words

  const SECOND: int := 100_000_000
  /** boundary_time: 10 ms, the length of one iteration */
  const BOUNDARY: int := 1_000_000

  /** `CalcStartTS` in 64-bit arithmetic; `modFac` is not 0, which the option check rejects. */
  function CalcStartTS(ts: Uint64, modFac: Uint32): Uint64
    requires modFac >= 1
  {
    var up := Wrap64(ts + SECOND - 1) / SECOND;
    var later := Wrap64(up + 1);
    var rounded := Wrap64(Wrap64(later + (modFac - 1)) / modFac * modFac);
    Wrap64(rounded * SECOND)
  }

  lemma Multiples(k: int, q: int, m: nat)
    requires k < q
    ensures k * m + m <= q * m
  {
    assert (k + 1) * m <= q * m;
  }

  /** `((x + (m - 1)) / m) * m` is the least multiple of m from x on. */
  lemma RoundUp(x: nat, m: nat)
    requires m >= 1
    ensures var q := (x + (m - 1)) / m; x <= q * m < x + m && forall k: nat {:trigger k * m} :: k * m >= x ==> k >= q
  {
    var q := (x + (m - 1)) / m;
    assert x + (m - 1) == q * m + (x + (m - 1)) % m;
    forall k: nat
      ensures k * m >= x ==> k >= q
    {
      if k < q {
        Multiples(k, q, m);
      }
    }
  }

  /** The first second that is not too early: the next full one and one more. */
  function Later(ts: Uint64): nat { (ts + SECOND - 1) / SECOND + 1 }

  lemma LaterBounds(ts: Uint64)
    ensures ts + SECOND <= Later(ts) * SECOND < ts + 2 * SECOND
  {
  }

  lemma NoWrap(x: int)
    requires 0 <= x < TWO_64
    ensures Wrap64(x) == x
  {
  }

  /** Nothing wraps unless the start would be past the last time there is. */
  lemma StartValue(ts: Uint64, modFac: Uint32, p: nat)
    requires modFac >= 1 && ts + (modFac + 1) * SECOND <= TWO_64
    requires p == (Later(ts) + (modFac - 1)) / modFac * modFac && Later(ts) <= p < Later(ts) + modFac
    ensures CalcStartTS(ts, modFac) == p * SECOND && p * SECOND < ts + (modFac + 1) * SECOND
  {
    LaterBounds(ts);
    assert p * SECOND < ts + (modFac + 1) * SECOND;
    NoWrap(ts + SECOND - 1);
    NoWrap(Later(ts));
    NoWrap(Later(ts) + (modFac - 1));
    NoWrap(p);
    NoWrap(p * SECOND);
  }

  /** The start is the first time at least one second away that is a multiple of modFac seconds. */
  lemma StartMeaning(ts: Uint64, modFac: Uint32)
    requires modFac >= 1 && ts + (modFac + 1) * 100_000_000 <= TWO_64
    ensures var start := CalcStartTS(ts, modFac); exists q: nat ::
      && start == q * modFac * 100_000_000
      && ts + 100_000_000 <= start < ts + (modFac + 1) * 100_000_000
      && forall k: nat {:trigger k * modFac} :: k * modFac * 100_000_000 >= ts + 100_000_000 ==> k >= q
  {
    var q := (Later(ts) + (modFac - 1)) / modFac;
    RoundUp(Later(ts), modFac);
    StartValue(ts, modFac, q * modFac);
    forall k: nat | k * modFac * 100_000_000 >= ts + 100_000_000
      ensures k * modFac >= Later(ts)
    {
      LaterBounds(ts);
    }
  }

  /** What the program has set up: `firstPacketTS`, `adapterTimeOffset` and `opt_path_delay`. */
  datatype Setup = Setup(first: Uint64, offset: Uint64, delay: Uint32)

  /** When transmission begins: the time of option -s, even if it is past, or the next start. */
  function Begin(startTime: Uint64, absolute: bool, adapterTS: Uint64, modFac: Uint32): Uint64
    requires modFac >= 1
  {
    if absolute then startTime else CalcStartTS(adapterTS, modFac)
  }

  /** `CalculateOffset` */
  function Offset(begin: Uint64, first: Uint64): Uint64 { Wrap64(begin - first) }

  /** The check of `GetFileData`: one unsigned comparison for each packet. */
  predicate Fits(ts: Uint64, first: Uint64) { Wrap64(ts - first) <= BOUNDARY }

  /** It means that the packet lies in the window that opens with the first packet. */
  lemma FitsMeaning(ts: Uint64, first: Uint64)
    requires first + 1_000_000 < TWO_64
    ensures Fits(ts, first) <==> first <= ts <= first + 1_000_000
  {
    if ts >= first {
      assert Wrap64(ts - first) == ts - first;
    } else {
      assert Wrap64(ts - first) == ts - first + TWO_64;
    }
  }

  /** The file check. It returns 2 for a file that is too long, which it finds by a packet that does not fit. */
  method CheckFile(packets: seq<Uint64>, first: Uint64) returns (status: int)
    ensures status == 0 || status == 2
    ensures status == 0 <==> forall p <- packets :: Fits(p, first)
  {
    var i := 0;
    while i < |packets|
      invariant i <= |packets| && forall k | 0 <= k < i :: Fits(packets[k], first)
    {
      var diff := Wrap64(packets[i] - first);
      if diff > BOUNDARY {
        assert !Fits(packets[i], first);
        return 2;
      }
      i := i + 1;
    }
    return 0;
  }

  /** In a file with nanosecond stamps the first stamp is converted but those of the packets are not; so
      unless the stamps are very small, the check fails for the very first packet. */
  lemma NanosecondFilesFail(first: Uint64)
    ensures Fits(first, first / 10) <==> first <= 1_111_111
  {
    assert Wrap64(first - first / 10) == first - first / 10;
  }

  /** The time stamp that a packet of the given iteration is sent with. */
  function Stamp(ts: Uint64, s: Setup, iteration: nat): Uint64 { Wrap64(Wrap64(ts - s.delay) + iteration * BOUNDARY) }

  /** When the adapter sends it. */
  function Due(ts: Uint64, s: Setup, iteration: nat): Uint64 { Wrap64(Stamp(ts, s, iteration) + s.offset) }

  /** The loop of `_ReplayData` over the packets of a segment, in the transmit buffer. */
  method Restamp(packets: array<Uint64>, s: Setup, iteration: nat)
    modifies packets
    ensures forall i | 0 <= i < packets.Length :: packets[i] == Stamp(old(packets[i]), s, iteration)
  {
    var i := 0;
    while i < packets.Length
      invariant i <= packets.Length
      invariant forall k | 0 <= k < packets.Length :: packets[k] == if k < i then Stamp(old(packets[k]), s, iteration) else old(packets[k])
    {
      var timestamp := packets[i];
      timestamp := Wrap64(timestamp - s.delay);
      timestamp := Wrap64(timestamp + iteration * BOUNDARY);
      packets[i] := timestamp;
      i := i + 1;
    }
  }

  lemma WrapTwice(x: int, y: int)
    ensures Wrap64(Wrap64(x) + y) == Wrap64(x + y)
  {
  }

  /** Whatever wraps on the way: the packet is due at the begin time, plus one boundary per iteration,
      plus its distance from the first packet, less the path delay. */
  lemma DueMeaning(ts: Uint64, s: Setup, begin: Uint64, iteration: nat)
    requires s.offset == Offset(begin, s.first)
    requires 0 <= begin + iteration * 1_000_000 + (ts - s.first) - s.delay < TWO_64
    ensures Due(ts, s, iteration) == begin + iteration * 1_000_000 + (ts - s.first) - s.delay
  {
    var x := ts - s.delay + iteration * BOUNDARY;
    assert Stamp(ts, s, iteration) == Wrap64(x) by {
      WrapTwice(ts - s.delay, iteration * BOUNDARY);
    }
    assert Due(ts, s, iteration) == Wrap64(x + s.offset) by {
      WrapTwice(x, s.offset);
    }
    assert Wrap64(x + s.offset) == Wrap64(begin - s.first + x) by {
      WrapTwice(begin - s.first, x);
    }
    NoWrap(begin - s.first + x);
  }

  /** Setup for a file that passed the check, with no overflow up to and including the given iteration. */
  ghost predicate InRange(s: Setup, begin: Uint64, iteration: nat) {
    && s.offset == Offset(begin, s.first) && s.first + BOUNDARY < TWO_64
    && s.delay <= begin && begin + (iteration + 1) * BOUNDARY < TWO_64
  }

  /** Each iteration keeps to its own window: one boundary long, from the begin time on. */
  lemma Window(ts: Uint64, s: Setup, begin: Uint64, iteration: nat)
    requires InRange(s, begin, iteration) && Fits(ts, s.first)
    ensures begin + iteration * BOUNDARY <= Due(ts, s, iteration) + s.delay <= begin + (iteration + 1) * BOUNDARY
  {
    FitsMeaning(ts, s.first);
    DueMeaning(ts, s, begin, iteration);
  }

  /** Packets are sent in the order of the iterations, and of their stamps within one. */
  lemma SentInOrder(ts: Uint64, i: nat, us: Uint64, j: nat, s: Setup, begin: Uint64)
    requires InRange(s, begin, j) && Fits(ts, s.first) && Fits(us, s.first)
    requires i < j || (i == j && ts <= us)
    ensures Due(ts, s, i) <= Due(us, s, j)
    ensures Due(ts, s, i) == Due(us, s, j) <==> (i == j && ts == us) || (j == i + 1 && ts == s.first + BOUNDARY && us == s.first)
  {
    assert (i + 1) * BOUNDARY <= (j + 1) * BOUNDARY;
    FitsMeaning(ts, s.first);
    FitsMeaning(us, s.first);
    DueMeaning(ts, s, begin, i);
    DueMeaning(us, s, begin, j);
  }

  /** Without option -s and a path delay: the first packet is sent at the first time at least one second away that is a
      multiple of modFac seconds. */
  lemma FirstPacketOnTheSecond(s: Setup, adapterTS: Uint64, modFac: Uint32, startTime: Uint64)
    requires modFac >= 1 && adapterTS + (modFac + 1) * 100_000_000 + 1_000_000 <= TWO_64
    requires s.delay == 0 && s.first + 1_000_000 < TWO_64 && s.offset == Offset(Begin(startTime, false, adapterTS, modFac), s.first)
    ensures var due := Due(s.first, s, 0); exists q: nat ::
      && due == q * modFac * 100_000_000 && adapterTS + 100_000_000 <= due
      && forall k: nat {:trigger k * modFac} :: k * modFac * 100_000_000 >= adapterTS + 100_000_000 ==> k >= q
  {
    StartMeaning(adapterTS, modFac);
    DueMeaning(s.first, s, CalcStartTS(adapterTS, modFac), 0);
  }

  /** With option -s the replay runs by the given time, whatever time it is on the adapter, even a later one. */
  lemma SentFromStartTime(ts: Uint64, s: Setup, startTime: Uint64, adapterTS: Uint64, modFac: Uint32, iteration: nat)
    requires modFac >= 1 && s.offset == Offset(Begin(startTime, true, adapterTS, modFac), s.first)
    requires 0 <= startTime + iteration * 1_000_000 + (ts - s.first) - s.delay < TWO_64
    ensures Due(ts, s, iteration) == startTime + iteration * 1_000_000 + (ts - s.first) - s.delay
    ensures ts == s.first && iteration == 0 ==> Due(ts, s, iteration) + s.delay == startTime
  {
    DueMeaning(ts, s, startTime, iteration);
  }
}
