/** The allocation of stream ids: which of the 256 ids are free. */
module Streams {
  const IDS: nat := 256

  ghost predicate NotAbove(s: seq<nat>, i: nat, j: nat)
    requires i < |s| && j < |s|
  {
    s[i] <= s[j]
  }

  ghost predicate Sorted(s: seq<nat>) { forall i: nat, j: nat {:trigger NotAbove(s, i, j)} | i < j < |s| :: NotAbove(s, i, j) }

  ghost function Elements(s: seq<nat>): set<nat> { set x | x in s }

  predicate Increasing(s: seq<nat>) { forall i | 0 < i < |s| :: s[i - 1] < s[i] }

  /** The ids found are all the unused ones below `last`, in increasing order. */
  ghost predicate Gathered(found: seq<nat>, used: set<nat>, last: nat) {
    && Increasing(found) && last <= IDS
    && forall id: nat :: id in found <==> id < last && id !in used
  }

  lemma GatheredMore(found: seq<nat>, used: set<nat>, last: nat)
    requires Gathered(found, used, last) && last < IDS
    ensures Gathered(if last in used then found else found + [last], used, last + 1)
  {
    if last !in used && found != [] {
      assert found[|found| - 1] in found;
    }
  }

  lemma {:induction false} FirstIds(n: nat) returns (ids: set<nat>)
    ensures |ids| == n && forall i: nat :: i in ids <==> i < n
  {
    if n == 0 {
      ids := {};
    } else {
      ids := FirstIds(n - 1);
      ids := ids + {n - 1};
    }
  }

  /** If all unused ids have been found, there are enough of them. */
  lemma GatheredCount(found: seq<nat>, used: set<nat>)
    requires Gathered(found, used, IDS)
    ensures |found| + |used| >= IDS
  {
    var ids := FirstIds(IDS);
    ElementsCount(found);
    Subset(ids, Elements(found) + used);
  }

  lemma {:induction false} Subset(a: set<nat>, b: set<nat>)
    requires a <= b
    ensures |a| <= |b|
  {
    if a != {} {
      var x :| x in a;
      Subset(a - {x}, b - {x});
    }
  }

  lemma {:induction false} ElementsCount(s: seq<nat>)
    ensures |Elements(s)| <= |s|
  {
    if s != [] {
      ElementsCount(s[1..]);
      assert Elements(s) == {s[0]} + Elements(s[1..]);
    }
  }

  function Insert(x: nat, s: seq<nat>): seq<nat> {
    if s == [] || x <= s[0] then [x] + s else [s[0]] + Insert(x, s[1..])
  }

  /** What `qsort` with `cmpid` makes of the ids. */
  function SortedOf(s: seq<nat>): seq<nat> {
    if s == [] then [] else Insert(s[0], SortedOf(s[1..]))
  }

  lemma {:induction false} InsertMeaning(x: nat, s: seq<nat>)
    requires Sorted(s)
    ensures var r := Insert(x, s); Sorted(r) && |r| == |s| + 1 && Elements(r) == {x} + Elements(s)
  {
    var r := Insert(x, s);
    if s != [] && x > s[0] {
      var t := s[1..];
      forall i: nat, j: nat | i < j < |t|
        ensures NotAbove(t, i, j)
      {
        assert NotAbove(s, i + 1, j + 1);
      }
      InsertMeaning(x, t);
      assert Elements(s) == {s[0]} + Elements(t) && Elements(r) == {s[0]} + Elements(r[1..]);
    }
    forall i: nat, j: nat | i < j < |r|
      ensures NotAbove(r, i, j)
    {
      if s == [] || x <= s[0] {
        assert i > 0 ==> NotAbove(s, i - 1, j - 1);
        assert j > 1 ==> NotAbove(s, 0, j - 1);
      } else if i > 0 {
        assert NotAbove(r[1..], i - 1, j - 1);
      } else {
        assert r[j] in Elements(r[1..]);
        BelowAll(s, r[j], x);
      }
    }
  }

  lemma BelowAll(s: seq<nat>, y: nat, x: nat)
    requires Sorted(s) && s != [] && x > s[0] && y in {x} + Elements(s[1..])
    ensures s[0] <= y
  {
    if y != x {
      var k: nat :| k < |s| - 1 && s[1..][k] == y;
      assert NotAbove(s, 0, k + 1);
    }
  }

  lemma {:induction false} SortedOfMeaning(s: seq<nat>)
    ensures Sorted(SortedOf(s)) && |SortedOf(s)| == |s| && Elements(SortedOf(s)) == Elements(s)
  {
    if s != [] {
      SortedOfMeaning(s[1..]);
      InsertMeaning(s[0], SortedOf(s[1..]));
      assert Elements(s) == {s[0]} + Elements(s[1..]);
    }
  }

  /** The ids before place k are below `last`. */
  ghost predicate Passed(ids: seq<nat>, k: nat, last: nat)
    requires k <= |ids|
  {
    last == if k == 0 then 0 else ids[k - 1] + 1
  }

  /** No used id lies between the ids before place k and the one at place k. */
  lemma GapIsUnused(ids: seq<nat>, k: nat, last: nat)
    requires Sorted(ids) && k <= |ids| && Passed(ids, k, last)
    ensures forall x <- Elements(ids) :: x < last || (k < |ids| && x >= ids[k])
  {
    forall m: nat | m < |ids|
      ensures ids[m] < last || (k < |ids| && ids[m] >= ids[k])
    {
      assert m < k - 1 ==> NotAbove(ids, m, k - 1);
      assert k < m ==> NotAbove(ids, k, m);
    }
  }

  /** The inner loop of `info_streams_unused`, over ids from `last` up to `bound`, none of which is used. */
  method FillGap(buffer: array<nat>, start: nat, n: nat, last: nat, bound: nat, ghost used: set<nat>)
    returns (j: nat, ghost upTo: nat)
    requires start <= n <= buffer.Length && last <= bound <= IDS && Gathered(buffer[..start], used, last)
    requires forall x <- used :: x < last || x >= bound
    modifies buffer
    ensures start <= j <= n && Gathered(buffer[..j], used, upTo) && (upTo == bound || j == n)
    ensures forall m | n <= m < buffer.Length :: buffer[m] == old(buffer[m])
  {
    j, upTo := start, last;
    var i := last;
    while i < bound && j < n
      invariant start <= j <= n && last <= i <= bound
      invariant Gathered(buffer[..j], used, i)
      invariant forall m | n <= m < buffer.Length :: buffer[m] == old(buffer[m])
    {
      GatheredMore(buffer[..j], used, i);
      buffer[j] := i;
      assert buffer[..j + 1] == buffer[..j] + [i];
      j := j + 1;
      i := i + 1;
    }
    upTo := i;
  }

  /** The gap before a used id, and that id. */
  method NextGap(buffer: array<nat>, start: nat, n: nat, last: nat, ids: seq<nat>, k: nat, ghost used: set<nat>)
    returns (j: nat, ghost upTo: nat)
    requires start < n <= buffer.Length && Gathered(buffer[..start], used, last)
    requires Sorted(ids) && used == Elements(ids) && k < |ids| && ids[k] < IDS && Passed(ids, k, last)
    modifies buffer
    ensures start <= j <= n && Gathered(buffer[..j], used, upTo) && (upTo == ids[k] + 1 || j == n)
    ensures forall m | n <= m < buffer.Length :: buffer[m] == old(buffer[m])
  {
    GapIsUnused(ids, k, last);
    assert k > 0 ==> NotAbove(ids, k - 1, k);
    if last <= ids[k] {
      j, upTo := FillGap(buffer, start, n, last, ids[k], used);
      if upTo == ids[k] {
        assert ids[k] in used;
        GatheredMore(buffer[..j], used, ids[k]);
        upTo := ids[k] + 1;
      }
    } else {
      j, upTo := start, last;
    }
  }

  /** The ids found are unused and in increasing order, and smaller than every other unused id. */
  ghost predicate Smallest(found: seq<nat>, used: set<nat>) {
    && Increasing(found) && (forall x <- found :: x < 256 && x !in used)
    && forall id: nat, x | id < 256 && id !in used && id !in found && x in found :: x < id
  }

  /** `info_streams_unused`, given the ids that the adapter reports: fills exactly as many places of `buffer`
      as were asked for, or are sure to be free, with the smallest unused ids in increasing order. */
  method StreamsUnused(streamIds: seq<nat>, buffer: array<nat>, limit: nat) returns (n: nat)
    requires |streamIds| <= 256 && forall x <- streamIds :: x < 256
    requires buffer.Length >= limit
    modifies buffer
    ensures n == if limit < 256 - |streamIds| then limit else 256 - |streamIds|
    ensures Smallest(buffer[..n], Elements(streamIds))
    ensures forall m | n <= m < buffer.Length :: buffer[m] == old(buffer[m])
  {
    n := if limit > IDS - |streamIds| then IDS - |streamIds| else limit;
    SortedOfMeaning(streamIds);
    ElementsCount(streamIds);
    var ids := SortedOf(streamIds);
    ghost var used := Elements(ids);
    var j, k, last: nat := 0, 0, 0;
    ghost var upTo: nat := 0;
    while j < n && k < |ids|
      invariant j <= n && k <= |ids| && Passed(ids, k, last) && last <= IDS
      invariant Gathered(buffer[..j], used, upTo) && (upTo == last || j == n)
      invariant forall m | n <= m < buffer.Length :: buffer[m] == old(buffer[m])
    {
      assert ids[k] in used;
      j, upTo := NextGap(buffer, j, n, last, ids, k, used);
      last := ids[k] + 1;
      k := k + 1;
    }
    if j < n {
      GapIsUnused(ids, k, last);
      j, upTo := FillGap(buffer, j, n, last, IDS, used);
      if upTo == IDS {
        GatheredCount(buffer[..j], used);
      }
    }
  }
}
