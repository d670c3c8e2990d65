/** The queue's memory and its operations as written, run without interference: a bounded FIFO
    buffer over 32-bit counters that may wrap. */
module MpmcSequential {
  import opened Words
  import opened Bits
  import opened MpmcQueue

  /** The cell of ticket k: filled if k is among the contents, free otherwise. */
  ghost predicate HoldsAt(capacity: nat, sequence: seq<Uint32>, data: seq<Uint64>, contents: seq<Uint64>, first: nat, k: nat)
    requires capacity > 0 && |sequence| == |data| == capacity && first <= k
  {
    var i := SlotOf(capacity, k);
    if k < first + |contents| then sequence[i] == Wrap32(k + 1) && data[i] == contents[k - first]
    else sequence[i] == Wrap32(k)
  }

  ghost predicate Holds(capacity: nat, sequence: seq<Uint32>, data: seq<Uint64>, contents: seq<Uint64>, first: nat)
    requires capacity > 0 && |sequence| == |data| == capacity
  {
    forall k: nat :: first <= k < first + capacity ==> HoldsAt(capacity, sequence, data, contents, first, k)
  }

  /** The masked 32-bit counter selects the ticket's cell. */
  lemma MaskedSlot(capacity: nat, k: nat)
    requires 2 <= capacity <= TWO_31 && IsPow2(capacity)
    ensures And(Wrap32(k), capacity - 1) == SlotOf(capacity, k)
  {
    var q := CapacityDivides(capacity);
    ModMod(k, capacity, q);
    var n: nat :| capacity == Pow2(n);
    MaskIsRemainder(Wrap32(k), n);
  }

  lemma HoldsAfterPush(capacity: nat, sequence: seq<Uint32>, data: seq<Uint64>, contents: seq<Uint64>, first: nat, v: Uint64)
    requires 2 <= capacity <= TWO_31 && IsPow2(capacity) && |sequence| == |data| == capacity
    requires |contents| < capacity && Holds(capacity, sequence, data, contents, first)
    ensures var n := first + |contents|;
            Holds(capacity, sequence[SlotOf(capacity, n) := Wrap32(n + 1)], data[SlotOf(capacity, n) := v], contents + [v], first)
  {
    OtherSlots(capacity, first + |contents|);
    var n := first + |contents|;
    var sequence', data' := sequence[SlotOf(capacity, n) := Wrap32(n + 1)], data[SlotOf(capacity, n) := v];
    forall k: nat | first <= k < first + capacity
      ensures HoldsAt(capacity, sequence', data', contents + [v], first, k)
    {
      assert HoldsAt(capacity, sequence, data, contents, first, k);
    }
  }

  lemma HoldsAfterPull(capacity: nat, sequence: seq<Uint32>, data: seq<Uint64>, contents: seq<Uint64>, first: nat)
    requires 2 <= capacity <= TWO_31 && IsPow2(capacity) && |sequence| == |data| == capacity
    requires 0 < |contents| <= capacity && Holds(capacity, sequence, data, contents, first)
    ensures Holds(capacity, sequence[SlotOf(capacity, first) := Wrap32(first + capacity)], data, contents[1..], first + 1)
  {
    OtherSlots(capacity, first);
    ModRepeat(first, capacity);
    var sequence' := sequence[SlotOf(capacity, first) := Wrap32(first + capacity)];
    var rest, next := contents[1..], first + 1;
    forall k: nat | next <= k < next + capacity
      ensures HoldsAt(capacity, sequence', data, rest, next, k)
    {
      assert SlotOf(capacity, k) != SlotOf(capacity, first) || k == first + capacity;
      assert k < first + capacity ==> HoldsAt(capacity, sequence, data, contents, first, k);
    }
  }

  /** What `diff` is for a pusher at the tail, with ticket k. */
  lemma PushDiff(capacity: nat, sequence: seq<Uint32>, data: seq<Uint64>, contents: seq<Uint64>, first: nat, k: nat)
    requires 2 <= capacity <= TWO_31 && IsPow2(capacity) && |sequence| == |data| == capacity
    requires |contents| <= capacity && Holds(capacity, sequence, data, contents, first) && k == first + |contents|
    ensures Signed32(sequence[SlotOf(capacity, k)] - Wrap32(k)) == if |contents| < capacity then 0 else 1 - capacity
  {
    if |contents| < capacity {
      assert HoldsAt(capacity, sequence, data, contents, first, k);
    } else {
      ModRepeat(first, capacity);
      assert HoldsAt(capacity, sequence, data, contents, first, first);
      WrapDiff(first + 1, first + capacity);
    }
  }

  /** What `diff` is for a puller at the head. */
  lemma PullDiff(capacity: nat, sequence: seq<Uint32>, data: seq<Uint64>, contents: seq<Uint64>, first: nat)
    requires 2 <= capacity <= TWO_31 && IsPow2(capacity) && |sequence| == |data| == capacity
    requires |contents| <= capacity && Holds(capacity, sequence, data, contents, first)
    ensures Signed32(sequence[SlotOf(capacity, first)] - Wrap32(Wrap32(first) + 1)) == if contents == [] then -1 else 0
    ensures contents != [] ==> data[SlotOf(capacity, first)] == contents[0]
  {
    assert HoldsAt(capacity, sequence, data, contents, first, first);
    WrapAdd(first, 1);
    WrapDiff(first, first + 1);
  }

  /** What `diff` is for a pusher at the tail (ahead = 0) and for a puller at the head (ahead = 1). */
  lemma Diffs(capacity: nat, sequence: seq<Uint32>, data: seq<Uint64>, contents: seq<Uint64>, first: nat, k: nat, ahead: nat)
    requires 2 <= capacity <= TWO_31 && IsPow2(capacity) && |sequence| == |data| == capacity
    requires |contents| <= capacity && Holds(capacity, sequence, data, contents, first)
    requires ahead <= 1 && k == if ahead == 0 then first + |contents| else first
    ensures Signed32(sequence[SlotOf(capacity, k)] - Wrap32(Wrap32(k) + ahead)) ==
            if ahead == 0 then (if |contents| < capacity then 0 else 1 - capacity)
            else (if contents == [] then -1 else 0)
    ensures ahead == 1 && contents != [] ==> data[SlotOf(capacity, k)] == contents[0]
  {
    if ahead == 0 {
      PushDiff(capacity, sequence, data, contents, first, k);
      WrapAdd(k, 0);
    } else {
      PullDiff(capacity, sequence, data, contents, first);
    }
  }

  class Queue {
    const capacity: nat
    const sequence: array<Uint32>   // buffer[i].sequence
    const data: array<Uint64>       // buffer[i].data
    var head: Uint32
    var tail: Uint32

    ghost var contents: seq<Uint64>
    ghost var first: nat            // the pull ticket of contents[0]; the program keeps it modulo 2^32

    /** The cells hold the contents. */
    ghost predicate Filled()
      reads this`contents, this`first, sequence, data
    {
      && 2 <= capacity <= TWO_31 && IsPow2(capacity)
      && sequence.Length == data.Length == capacity && sequence as object != data as object
      && |contents| <= capacity
      && Holds(capacity, sequence[..], data[..], contents, first)
    }

    ghost predicate Valid()
      reads this, sequence, data
    {
      Filled() && head == Wrap32(first) && tail == Wrap32(first + |contents|)
    }

    /** `mpmc_queue_init`, memory being available. */
    constructor (capacity: nat)
      requires 2 <= capacity <= TWO_31 && IsPow2(capacity)
      ensures Valid() && contents == [] && this.capacity == capacity
      ensures fresh(sequence) && fresh(data)
    {
      this.capacity := capacity;
      sequence := new Uint32[capacity];
      data := new Uint64[capacity];
      head, tail := 0, 0;
      contents, first := [], 0;
      new;
      for i := 0 to capacity
        invariant forall k :: 0 <= k < i ==> sequence[k] == k
        modifies sequence
      {
        sequence[i] := i;
      }
      forall k: nat | k < capacity
        ensures HoldsAt(capacity, sequence[..], data[..], contents, 0, k)
      {
        DivModUnique(k, capacity, 0, k);
      }
    }

    /** The scan of a pusher at its local tail, or of a puller (ahead = 1) at its local head. */
    method Scan(local: Uint32, ghost k: nat, ahead: nat) returns (cell: nat, diff: int)
      requires Valid() && local == Wrap32(k) && ahead <= 1
      requires k == if ahead == 0 then first + |contents| else first
      ensures cell == SlotOf(capacity, k)
      ensures diff == if ahead == 0 then (if |contents| < capacity then 0 else 1 - capacity)
                      else (if contents == [] then -1 else 0)
      ensures ahead == 1 && contents != [] ==> data[cell] == contents[0]
    {
      MaskedSlot(capacity, k);
      Diffs(capacity, sequence[..], data[..], contents, first, k, ahead);
      cell := And(local, capacity - 1);
      var stamp: int := sequence[cell];
      diff := Signed32(stamp - Wrap32(local as int + ahead));
    }

    /** `mpmc_queue_push`; with nobody else running, the compare-exchange succeeds. */
    method Push(value: Uint64) returns (ok: bool)
      requires Valid()
      modifies this, sequence, data
      ensures Valid()
      ensures ok <==> |old(contents)| < capacity
      ensures contents == if ok then old(contents) + [value] else old(contents)
      ensures first == old(first)
    {
      ghost var cells, values := sequence[..], data[..];
      WrapAdd(first + |contents|, 1);
      var t: int := tail;
      var cell, diff := Scan(t, first + |contents|, 0);
      if diff == 0 {
        tail := Wrap32(t + 1);
        assert tail == Wrap32(first + |contents| + 1);
      } else {
        assert diff < 0;
        return false;
      }
      data[cell] := value;
      sequence[cell] := Wrap32(t + 1);
      HoldsAfterPush(capacity, cells, values, contents, first, value);
      contents := contents + [value];
      assert sequence[..] == cells[cell := Wrap32(t + 1)] && data[..] == values[cell := value];
      assert Holds(capacity, sequence[..], data[..], contents, first);
      return true;
    }

    /** The store of a puller that has moved the head to h + 1. */
    method PublishPull(h: Uint32, cell: nat)
      requires Filled() && contents != [] && h == Wrap32(first) && cell == SlotOf(capacity, first)
      requires head == Wrap32(first + 1) && tail == Wrap32(first + |contents|)
      modifies this`contents, this`first, sequence
      ensures Valid() && contents == old(contents)[1..]
    {
      ghost var cells, values := sequence[..], data[..];
      WrapAdd(first, capacity);
      sequence[cell] := Wrap32(h + (capacity - 1) + 1);
      HoldsAfterPull(capacity, cells, values, contents, first);
      contents, first := contents[1..], first + 1;
      assert sequence[..] == cells[cell := Wrap32(h + capacity)] && data[..] == values;
    }

    /** `mpmc_queue_pull` without interference. */
    method Pull() returns (ok: bool, value: Uint64)
      requires Valid()
      modifies this, sequence
      ensures Valid()
      ensures ok <==> old(contents) != []
      ensures if ok then old(contents) == [value] + contents else contents == old(contents)
    {
      WrapAdd(first, 1);
      var h: int := head;
      var cell, diff := Scan(h, first, 1);
      if diff == 0 {
        head := Wrap32(h + 1);
        assert head == Wrap32(first + 1);
      } else {
        assert diff < 0;
        return false, 0;
      }
      value := data[cell];
      PublishPull(h, cell);
      return true, value;
    }
  }
}
