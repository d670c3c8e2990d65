/** A chain of the flow table: buckets in a doubly linked list, the first part of the chain itself. */
module FlowChain {
  import opened Words
  import opened Bits
  import opened SlotMask
  import opened FlowKeys
  import opened FlowBucket

  /** A pointer to an entry: the address of slot `index` in the bucket's memory. */
  datatype Ref = Ref(bucket: Bucket, index: nat)

  /** The live entries of a chain, bucket by bucket. */
  type View = map<Bucket, map<nat, Live>>

  ghost function Of(v: View, b: Bucket): map<nat, Live> { if b in v then v[b] else map[] }

  ghost predicate IsLive(v: View, r: Ref) { r.index in Of(v, r.bucket) }

  /** Slot j of bucket i is free, and those before it along the chain are taken. */
  ghost predicate FirstFree(v: View, buckets: seq<Bucket>, size: nat, i: nat, j: nat) {
    && i < |buckets| && j < size && j !in Of(v, buckets[i])
    && (forall k, l: nat | 0 <= k < i && l < size :: l in Of(v, buckets[k]))
    && (forall l: nat | l < j :: l in Of(v, buckets[i]))
  }

  class Chain {
    const number: nat                // its place in the table
    const bucketSize: nat
    const first: Bucket
    var last: Bucket
    ghost var buckets: seq<Bucket>   // from `first` along `next`

    /** Bucket i points to its neighbours. */
    ghost predicate LinkAt(i: nat)
      requires i < |buckets|
      reads this`buckets, buckets`next, buckets`prev
    {
      && buckets[i].next == (if i + 1 < |buckets| then buckets[i + 1] else null)
      && buckets[i].prev == if i > 0 then buckets[i - 1] else null
    }

    /** The list is linked both ways, and every bucket is in order. */
    ghost predicate Linked()
      reads this, buckets
    {
      && 1 <= bucketSize <= 32
      && |buckets| >= 1 && buckets[0] == first && !first.dynamic
      && (forall i, j | 0 <= i < j < |buckets| :: buckets[i] != buckets[j])
      && (forall i: nat | i < |buckets| :: LinkAt(i))
      && (forall i | 0 <= i < |buckets| ::
            buckets[i].Valid() && buckets[i].size == bucketSize && !buckets[i].toFree && buckets[i].parent == number)
    }

    /** What the chain holds. */
    ghost function Contents(): (v: View)
      reads this, buckets
    {
      map b <- buckets :: b.flows
    }

    /** Changing or appending one bucket changes the contents there. */
    twostate lemma ContentsUpdate(new b: Bucket)
      requires buckets == old(buckets) || buckets == old(buckets) + [b]
      requires b in buckets && forall x <- old(buckets) | x != b :: x.flows == old(x.flows)
      ensures Contents() == old(Contents())[b := b.flows]
    {
    }

    /** In addition `last` is the final bucket, and a bucket added at run time is never empty. */
    ghost predicate Valid()
      reads this, buckets
    {
      Linked() && last == buckets[|buckets| - 1] && forall b <- buckets :: b.dynamic ==> b.flows != map[]
    }

    /** Wherever `last` points to. */
    ghost predicate LastAt(m: nat)
      reads this, buckets
    {
      Linked() && m < |buckets| && last == buckets[m] && forall b <- buckets :: b.dynamic ==> b.flows != map[]
    }

    /** A chain that nobody touched is as it was. */
    twostate lemma Undisturbed()
      requires unchanged(this) && forall i | 0 <= i < |buckets| :: unchanged(buckets[i])
      ensures (Linked() <==> old(Linked())) && (Valid() <==> old(Valid())) && Contents() == old(Contents())
    {
    }

    /** `ft_init` for one chain: the bucket that is part of the chain. */
    constructor (number: nat, bucketSize: nat)
      requires 1 <= bucketSize <= 32
      ensures Valid() && this.number == number && this.bucketSize == bucketSize && first.parent == number
      ensures buckets == [first] && last == first && fresh(first) && Contents() == map[first := map[]]
    {
      this.number, this.bucketSize := number, bucketSize;
      first := new Bucket(number, null, false, bucketSize);
      last := first;
      buckets := [first];
    }

    /** `ft_init` for one chain: the other `chainSize - 1` buckets. It leaves `last` one bucket behind
        when there are any, so the chain is in order exactly for a chain size of at most 1. */
    method InitBuckets(chainSize: nat)
      requires Linked() && buckets == [first] && last == first
      modifies this`last, this`buckets, first`next
      ensures LastAt(if chainSize >= 2 then chainSize - 2 else 0) && |buckets| == if chainSize == 0 then 1 else chainSize
      ensures forall b <- buckets :: !b.dynamic && (b == first || (fresh(b) && b.flows == map[]))
      ensures Valid() <==> chainSize <= 1
    {
      var bucket, prev := first, first;
      var j := 1;
      while j < chainSize
        invariant Linked() && |buckets| == j && (j <= chainSize || j == 1)
        invariant bucket == buckets[j - 1] && prev == buckets[if j == 1 then 0 else j - 2]
        invariant forall b <- buckets :: !b.dynamic
        invariant forall b <- buckets :: b == first || (fresh(b) && b.flows == map[])
      {
        prev := bucket;
        assert bucket in buckets;
        ghost var was := buckets;
        bucket := AppendBucket(bucket, false, |buckets| - 1);
        assert was[..|was|] == was;
        j := j + 1;
      }
      last := prev;
    }

    /** `ft_add_bucket`, which sets the `next` of bucket i: the new bucket follows it, and the buckets
        that did so before are no longer in the list. */
    method AppendBucket(prev: Bucket, dynamic: bool, ghost i: nat) returns (b: Bucket)
      requires Linked() && i < |buckets| && prev == buckets[i]
      modifies this`buckets, prev`next
      ensures Linked() && fresh(b) && buckets == old(buckets)[..i + 1] + [b]
      ensures b.dynamic == dynamic && b.flows == map[] && b.unused == NEW_MASK
    {
      b := new Bucket(number, prev, dynamic, bucketSize);
      prev.next := b;
      buckets := buckets[..i + 1] + [b];
      forall k: nat | k < |buckets|
        ensures LinkAt(k)
      {
        assert k <= i ==> old(LinkAt(k));
      }
    }

    /** The bucket walk of `ft_lookup`. */
    method Lookup(hash: Uint32, key: Key, color: nat) returns (found: bool, r: Ref)
      requires Valid()
      ensures found ==> IsLive(Contents(), r) && Matches(Contents()[r.bucket][r.index].flow, hash, key, color)
      ensures !found ==> forall x: Ref | IsLive(Contents(), x) :: !Matches(Contents()[x.bucket][x.index].flow, hash, key, color)
    {
      var bucket := first;
      ghost var i := 0;
      while true
        invariant 0 <= i < |buckets| && bucket == buckets[i]
        invariant forall k, j | 0 <= k < i && j in buckets[k].flows :: !Matches(buckets[k].flows[j].flow, hash, key, color)
        decreases |buckets| - i
      {
        var hit, j := bucket.Find(hash, key, color);
        if hit {
          return true, Ref(bucket, j);
        }
        assert LinkAt(i);
        if bucket.next == null {
          return false, Ref(bucket, 0);
        }
        bucket := bucket.next;
        i := i + 1;
      }
    }

    /** Every slot of every bucket is live. */
    ghost predicate AllTaken()
      reads this, buckets
    {
      forall b <- buckets, j: nat | j < bucketSize :: j in b.flows
    }

    /** The walk of `ft_add` to the first bucket with a free slot. */
    method FindSpace() returns (bucket: Bucket?, ghost i: nat)
      requires Linked()
      ensures bucket != null ==> i < |buckets| && bucket == buckets[i] && And(bucket.unused, Mask(bucket.size)) != 0 && !AllTaken()
      ensures bucket != null ==> forall k, j: nat | 0 <= k < i && j < bucketSize :: j in buckets[k].flows
      ensures bucket == null ==> AllTaken()
    {
      bucket, i := first, 0;
      while bucket != null
        invariant 0 <= i <= |buckets| && bucket == if i < |buckets| then buckets[i] else null
        invariant forall k, j: nat | 0 <= k < i && j < bucketSize :: j in buckets[k].flows
        decreases |buckets| - i
      {
        bucket.Full();
        if !bucket.toFree && And(bucket.unused, Mask(bucketSize)) != 0 {
          return;
        }
        assert LinkAt(i);
        bucket := bucket.next;
        i := i + 1;
      }
    }

    /** What a new entry adds to the view. */
    static ghost function WithEntry(v: View, r: Ref, entry: Live): View { v[r.bucket := Of(v, r.bucket)[r.index := entry]] }

    /** The part of `ft_add` after the walk when a slot is free. */
    method AddInBucket(bucket: Bucket, hash: Uint32, key: Key, color: nat) returns (r: Ref)
      requires Linked() && bucket in buckets && And(bucket.unused, Mask(bucket.size)) != 0
      modifies bucket`unused, bucket`entries, bucket`flows
      ensures Linked() && r.bucket == bucket && bucket.flows != map[]
      ensures r.index < bucketSize && r.index !in old(bucket.flows) && forall j: nat | j < r.index :: j in old(bucket.flows)
      ensures bucket.flows == old(bucket.flows)[r.index := Live(FlowOf(hash, key, color), 1)]
    {
      bucket.ValidIsSound();
      var j := bucket.TakeLowest(hash, key, color);
      assert j in bucket.flows;
      r := Ref(bucket, j);
    }

    /** The part of `ft_add` after the walk when no slot is free: slot 0 of the bucket just added. */
    method AddFirst(bucket: Bucket, hash: Uint32, key: Key, color: nat) returns (r: Ref)
      requires Linked() && bucket in buckets && bucket.unused == NEW_MASK && bucket.flows == map[]
      modifies bucket`unused, bucket`entries, bucket`flows
      ensures Linked() && r == Ref(bucket, 0) && bucket.flows != map[]
      ensures bucket.flows == map[0 := Live(FlowOf(hash, key, color), 1)]
    {
      bucket.TakeFirst(hash, key, color);
      r := Ref(bucket, 0);
    }

    method AddInNewBucket(hash: Uint32, key: Key, color: nat, ghost m: nat) returns (r: Ref)
      requires LastAt(m)
      modifies this`last, this`buckets, last`next
      ensures Valid() && fresh(r.bucket) && r.index == 0 && buckets == old(buckets)[..m + 1] + [r.bucket]
      ensures r.bucket.flows == map[0 := Live(FlowOf(hash, key, color), 1)]
    {
      var bucket := AppendBucket(last, true, m);
      last := bucket;
      r := AddFirst(bucket, hash, key, color);
    }

    /** The contents of the buckets in the list, and of the one that is added. */
    static ghost function Kept(v: View, list: seq<Bucket>): View { map b | b in v && b in list :: v[b] }

    static lemma KeptAll(v: View, list: seq<Bucket>, r: Ref, entry: Live)
      requires list != [] && forall b <- v :: b in list
      ensures list[..|list| - 1 + 1] == list && Kept(v, list) == v
      ensures r.bucket !in v && r.index == 0 ==> v[r.bucket := map[0 := entry]] == WithEntry(v, r, entry) && !IsLive(v, r)
    {
    }

    lemma ContentsKept(was: View, list: seq<Bucket>, b: Bucket)
      requires buckets == list + [b] && b !in list && forall x <- list :: x in was && was[x] == x.flows
      ensures Contents() == Kept(was, list)[b := b.flows]
    {
    }

    /** What a new bucket does to the contents. */
    method AddBeyond(hash: Uint32, key: Key, color: nat, ghost m: nat) returns (r: Ref)
      requires LastAt(m)
      modifies this`last, this`buckets, last`next
      ensures Valid() && fresh(r.bucket) && r.index == 0 && buckets == old(buckets)[..m + 1] + [r.bucket]
      ensures Contents() == Kept(old(Contents()), old(buckets)[..m + 1])[r.bucket := map[0 := Live(FlowOf(hash, key, color), 1)]]
    {
      ghost var was, list := Contents(), buckets[..m + 1];
      assert forall x <- list :: x in buckets;
      r := AddInNewBucket(hash, key, color, m);
      ContentsKept(was, list, r.bucket);
    }

    /** What a new entry in bucket i does to the contents. */
    method AddWithin(bucket: Bucket, hash: Uint32, key: Key, color: nat, ghost m: nat, ghost i: nat) returns (r: Ref)
      requires LastAt(m) && i < |buckets| && bucket == buckets[i] && And(bucket.unused, Mask(bucket.size)) != 0
      requires forall k, j: nat | 0 <= k < i && j < bucketSize :: j in buckets[k].flows
      modifies bucket`unused, bucket`entries, bucket`flows
      ensures LastAt(m) && r.bucket == bucket && FirstFree(old(Contents()), buckets, bucketSize, i, r.index)
      ensures Contents() == WithEntry(old(Contents()), r, Live(FlowOf(hash, key, color), 1))
    {
      r := AddInBucket(bucket, hash, key, color);
      ContentsUpdate(r.bucket);
    }

    /** `ft_add` below the hash, when `last` points to bucket m: the first free slot along the chain, or slot 0
        of a new bucket after bucket m when every slot is taken. In that case any bucket after bucket m is
        no longer in the list. */
    method AddAt(hash: Uint32, key: Key, color: nat, ghost m: nat) returns (r: Ref, ghost i: nat)
      requires LastAt(m)
      modifies this`last, this`buckets, buckets
      ensures LastAt(if old(AllTaken()) then m + 1 else m)
      ensures buckets == if old(AllTaken()) then old(buckets)[..m + 1] + [r.bucket] else old(buckets)
      ensures if old(AllTaken()) then fresh(r.bucket) && r.index == 0
              else r.bucket in buckets && FirstFree(old(Contents()), buckets, bucketSize, i, r.index) && r.bucket == buckets[i]
      ensures Contents() ==
              if old(AllTaken()) then Kept(old(Contents()), old(buckets)[..m + 1])[r.bucket := map[0 := Live(FlowOf(hash, key, color), 1)]]
              else WithEntry(old(Contents()), r, Live(FlowOf(hash, key, color), 1))
    {
      var bucket;
      bucket, i := FindSpace();
      assert Contents() == old(Contents());
      if bucket != null {
        r := AddWithin(bucket, hash, key, color, m, i);
      } else {
        assert last in buckets;
        r := AddBeyond(hash, key, color, m);
      }
    }

    lemma LastIsFinal(m: nat)
      requires LastAt(m) && m == |buckets| - 1
      ensures Valid()
    {
    }

    /** `ft_add` below the hash, on a chain in order. */
    method Add(hash: Uint32, key: Key, color: nat) returns (r: Ref)
      requires Valid()
      modifies this`last, this`buckets, buckets
      ensures Valid() && !IsLive(old(Contents()), r) && Contents() == WithEntry(old(Contents()), r, Live(FlowOf(hash, key, color), 1))
      ensures r.bucket in buckets && if old(AllTaken()) then fresh(r.bucket) && buckets == old(buckets) + [r.bucket] else buckets == old(buckets)
      ensures forall b <- buckets | b != r.bucket :: b in old(buckets)
    {
      ghost var v, was, m, i := Contents(), buckets, |buckets| - 1, 0;
      r, i := AddAt(hash, key, color, m);
      if fresh(r.bucket) {
        KeptAll(v, was, r, Live(FlowOf(hash, key, color), 1));
        LastIsFinal(m + 1);
      } else {
        LastIsFinal(m);
      }
    }

    static ghost predicate Dropped(before: seq<Bucket>, after: seq<Bucket>, b: Bucket, drop: bool) {
      if drop then exists i :: 0 <= i < |before| && before[i] == b && after == before[..i] + before[i + 1..]
      else after == before
    }

    static ghost function At(list: seq<Bucket>, k: int): Bucket? { if 0 <= k < |list| then list[k] else null }

    /** Bucket k points to its neighbours in the list without bucket i. */
    static ghost predicate LinkWithout(list: seq<Bucket>, k: nat, i: int)
      requires k < |list|
      reads list`next, list`prev
    {
      && list[k].next == At(list, if k == i - 1 then i + 1 else k + 1)
      && list[k].prev == At(list, if k == i + 1 then i - 1 else k - 1)
    }

    lemma LinkedWithout(was: seq<Bucket>, i: nat, k: nat)
      requires i < |was| && buckets == was[..i] + was[i + 1..] && k < |buckets|
      requires LinkWithout(was, if k < i then k else k + 1, i)
      ensures LinkAt(k)
    {
    }

    /** The part of `ft_remove` that joins the neighbours of bucket i. */
    method JoinNeighbours(bucket: Bucket, ghost i: nat)
      requires Linked() && last == buckets[|buckets| - 1] && 0 < i < |buckets| && buckets[i] == bucket
      modifies this`last, buckets`next, buckets`prev, bucket`toFree
      ensures last == if i == |buckets| - 1 then buckets[i - 1] else old(last)
      ensures forall k: nat | k < |buckets| && k != i :: LinkWithout(buckets, k, i)
    {
      assert LinkAt(i) && LinkAt(i - 1) && (i + 1 < |buckets| ==> LinkAt(i + 1));
      bucket.toFree := true;
      if last == bucket {
        last := bucket.prev;
      }
      if bucket.prev != null {
        bucket.prev.next := bucket.next;
      }
      if bucket.next != null {
        bucket.next.prev := bucket.prev;
      }
      forall k: nat | k < |buckets| && k != i
        ensures LinkWithout(buckets, k, i)
      {
        assert old(LinkAt(k));
      }
    }

    /** The part of `ft_remove` that takes a bucket out of the list. */
    method Unlink(bucket: Bucket, ghost i: nat)
      requires Linked() && last == buckets[|buckets| - 1] && 0 < i < |buckets| && buckets[i] == bucket
      modifies this`last, this`buckets, buckets`next, buckets`prev, bucket`toFree
      ensures Linked() && buckets == old(buckets)[..i] + old(buckets)[i + 1..] && last == buckets[|buckets| - 1]
    {
      JoinNeighbours(bucket, i);
      ghost var was := buckets;
      buckets := was[..i] + was[i + 1..];
      forall k: nat | k < |buckets|
        ensures LinkAt(k)
      {
        LinkedWithout(was, i, k);
      }
    }

    /** A bucket added at run time goes when its last entry went. */
    method DropIfEmpty(bucket: Bucket)
      requires Linked() && last == buckets[|buckets| - 1] && bucket in buckets
      requires forall b <- buckets :: b != bucket && b.dynamic ==> b.flows != map[]
      modifies this`last, this`buckets, buckets`next, buckets`prev, bucket`toFree
      ensures Valid()
      ensures Dropped(old(buckets), buckets, bucket, bucket.dynamic && bucket.flows == map[])
    {
      bucket.Empty();
      if bucket.dynamic && Used(bucket.unused, bucketSize) == 0 {
        ghost var i: nat :| i < |buckets| && buckets[i] == bucket;
        Unlink(bucket, i);
      }
    }

    /** The contents without entry r, and without its bucket if that is dropped. */
    static ghost function WithoutEntry(v: View, r: Ref): View
      requires r.bucket in v
    {
      var rest := v[r.bucket] - {r.index};
      if r.bucket.dynamic && rest == map[] then v - {r.bucket} else v[r.bucket := rest]
    }

    static lemma DroppedMembers(before: seq<Bucket>, after: seq<Bucket>, b: Bucket, drop: bool)
      requires Dropped(before, after, b, drop) && forall i, j | 0 <= i < j < |before| :: before[i] != before[j]
      ensures forall x :: x in after <==> x in before && !(drop && x == b)
    {
      if drop {
        var i: nat :| i < |before| && before[i] == b && after == before[..i] + before[i + 1..];
        forall k: nat | k < |after|
          ensures after[k] in before && after[k] != b
        {
          assert after[k] == before[if k < i then k else k + 1];
        }
        forall k: nat | k < |before| && k != i
          ensures before[k] in after
        {
          assert before[k] == after[if k < i then k else k - 1];
        }
      }
    }

    twostate lemma ContentsWithout(r: Ref)
      requires old(Linked()) && r.bucket in old(buckets)
      requires r.bucket.flows == old(r.bucket.flows) - {r.index}
      requires Dropped(old(buckets), buckets, r.bucket, r.bucket.dynamic && r.bucket.flows == map[])
      requires forall b <- old(buckets) | b != r.bucket :: b.flows == old(b.flows)
      ensures Contents() == WithoutEntry(old(Contents()), r)
    {
      DroppedMembers(old(buckets), buckets, r.bucket, r.bucket.dynamic && r.bucket.flows == map[]);
    }

    /** `ft_remove` on the memory of the chain. */
    method RemoveEntry(r: Ref) returns (removed: bool)
      requires Valid() && r.bucket in buckets && r.index < bucketSize
      requires r.index in r.bucket.flows ==> r.bucket.flows[r.index].count == 0
      modifies this`last, this`buckets, buckets
      ensures Valid() && (removed <==> r.index in old(r.bucket.flows) && r.index < 31)
      ensures r.bucket.flows == if removed then old(r.bucket.flows) - {r.index} else old(r.bucket.flows)
      ensures Dropped(old(buckets), buckets, r.bucket, removed && r.bucket.dynamic && r.bucket.flows == map[])
      ensures forall b <- old(buckets) | b != r.bucket :: b.flows == old(b.flows)
    {
      r.bucket.ValidIsSound();
      removed := r.bucket.Release(r.index);
      if removed {
        DropIfEmpty(r.bucket);
      }
    }

    /** `ft_remove`: an entry that is not live is left alone; a live one becomes free unless it is in slot 31,
        and its bucket goes if it was added at run time and has no other live entry. */
    method Remove(r: Ref) returns (removed: bool)
      requires Valid() && r.bucket in buckets && r.index < bucketSize
      requires IsLive(Contents(), r) ==> r.bucket.flows[r.index].count == 0
      modifies this`last, this`buckets, buckets
      ensures Valid() && (removed <==> IsLive(old(Contents()), r) && r.index < 31)
      ensures Contents() == if removed then WithoutEntry(old(Contents()), r) else old(Contents())
      ensures forall b <- buckets :: b in old(buckets)
    {
      removed := RemoveEntry(r);
      if removed {
        ContentsWithout(r);
      }
    }

    static ghost function CountOf(v: View, r: Ref): int { if IsLive(v, r) then v[r.bucket][r.index].count else 0 }

    /** `atomic_fetch_add(&entry->rc, delta)` */
    method AddReferences(r: Ref, delta: int) returns (before: int)
      requires Valid() && r.bucket in buckets && r.index < bucketSize && (IsLive(Contents(), r) || delta == 0)
      modifies r.bucket`entries, r.bucket`flows
      ensures Valid() && before == CountOf(old(Contents()), r) && Contents() == old(Contents())[r.bucket := Counted(old(r.bucket.flows), r.index, delta)]
    {
      r.bucket.ValidIsSound();
      before := r.bucket.AddReferences(r.index, delta);
      ContentsUpdate(r.bucket);
    }
  }
}
