/** A bucket of the flow table: a fixed number of entries and a mask of the free ones. */
module FlowBucket {
  import opened Words
  import opened Bits
  import opened SlotMask
  import opened FlowKeys

  /** What a live entry stands for; only the bytes that its colour uses belong to the key. */
  datatype Flow = Flow(hash: Uint32, color: nat, key: seq<Byte>)

  /** A live entry: its flow, and how many references there are to it. */
  datatype Live = Live(flow: Flow, count: int)

  /** The flow an entry is asked to hold. */
  function FlowOf(hash: Uint32, key: Key, color: nat): Flow { Flow(hash, color, key[..KeyLen(color)]) }

  predicate Matches(f: Flow, hash: Uint32, key: Key, color: nat) {
    f.hash == hash && TypeOf(f.color) == TypeOf(color) && f.key == key[..KeyLen(color)]
  }

  /** The whole colour is kept, and 12 or 36 bytes of the key. */
  lemma FlowOfMeaning(hash: Uint32, key: Key, color: nat)
    ensures FlowOf(hash, key, color) == Flow(hash, color, key[..if (color / 2) % 2 == 1 then 36 else 12])
  {
    ColorBits(color);
  }

  /** A match: the same hash, the same low 8 bits of the colour, and the same 12 or 36 bytes of the key. */
  lemma MatchesMeaning(f: Flow, hash: Uint32, key: Key, color: nat)
    ensures Matches(f, hash, key, color) <==>
              f.hash == hash && f.color % 256 == color % 256 && f.key == key[..if (color / 2) % 2 == 1 then 36 else 12]
  {
    ColorBits(color);
    TypeMeaning(f.color);
    TypeMeaning(color);
  }

  /** `struct flow_entry`, as it lies in its bucket's memory. A recycled entry keeps the bytes of its
      previous flow wherever the new one does not overwrite them. */
  datatype Entry = Entry(index: nat, hash: Uint32, color: nat, rc: int, key: Key) {
    /** `ft_compare(...) == 0` */
    predicate Compare(hash: Uint32, key: Key, color: nat) {
      && this.hash == hash
      && TypeOf(this.color) == TypeOf(color)
      && this.key[..KeyLen(color)] == key[..KeyLen(color)]
    }

    /** The fields hold the flow; the bytes after the key do not matter. */
    ghost predicate Holds(f: Flow) {
      hash == f.hash && color == f.color && key[..KeyLen(color)] == f.key
    }
  }

  /** Memory from `calloc`. */
  function Cleared(): Entry { Entry(0, 0, 0, 0, seq(MAX_KEY_LEN, _ => 0)) }

  /** Comparing memory is comparing flows: stale bytes never change the answer. */
  lemma CompareIsMatch(e: Entry, f: Flow, hash: Uint32, key: Key, color: nat)
    requires e.Holds(f)
    ensures e.Compare(hash, key, color) <==> Matches(f, hash, key, color)
  {
    if TypeOf(e.color) == TypeOf(color) {
      SameTypeSameLen(e.color, color);
    }
  }

  /** delta references more to the entry in slot j; a free slot has none to change. */
  ghost function Counted(flows: map<nat, Live>, j: nat, delta: int): map<nat, Live> {
    if j in flows then flows[j := flows[j].(count := flows[j].count + delta)] else flows
  }

  class Bucket {
    const size: nat              // table_bucket_size
    const parent: nat            // the number of the chain that the bucket is part of
    const dynamic: bool          // flags & BUCKET_DYNAMIC
    var prev: Bucket?
    var next: Bucket?
    var toFree: bool             // flags & BUCKET_TO_FREE
    var unused: Uint64
    var entries: seq<Entry>
    ghost var flows: map<nat, Live>   // the live slots

    /** A slot's bit is clear exactly when it is live, and then its entry holds the flow. */
    ghost predicate SlotSound(j: nat)
      requires j < |entries|
      reads this`unused, this`entries, this`flows
    {
      var e := entries[j];
      (Bit(unused, j) <==> j !in flows) && (j in flows ==> e.index == j && e.Holds(flows[j].flow) && e.rc == flows[j].count)
    }

    /** In addition nobody refers to the entry of a free slot. */
    ghost predicate SlotOk(j: nat)
      requires j < |entries|
      reads this`unused, this`entries, this`flows
    {
      SlotSound(j) && (j !in flows ==> entries[j].rc == 0)
    }

    ghost predicate Sized()
      reads this`unused, this`entries, this`flows
    {
      && 1 <= size <= 32 && |entries| == size
      && (forall j <- flows :: j < size)
      && (forall j: nat | size <= j < 64 :: Bit(unused, j))
    }

    /** Nobody has given up more references than there were. */
    ghost predicate Valid()
      reads this`unused, this`entries, this`flows
    {
      Sized() && forall j: nat | j < size :: SlotOk(j)
    }

    ghost predicate Sound()
      reads this`unused, this`entries, this`flows
    {
      Sized() && forall j: nat | j < size :: SlotSound(j)
    }

    lemma ValidIsSound()
      requires Valid()
      ensures Sound()
    {
      forall j: nat | j < size
        ensures SlotSound(j)
      {
        assert SlotOk(j);
      }
    }

    /** `ft_init_bucket` on cleared memory, without the link from `prev`. */
    constructor (parent: nat, prev: Bucket?, dynamic: bool, size: nat)
      requires 1 <= size <= 32
      ensures Valid() && this.size == size && this.parent == parent && flows == map[] && unused == NEW_MASK
      ensures this.prev == prev && next == null && this.dynamic == dynamic && !toFree
    {
      this.size, this.parent, this.prev, next := size, parent, prev, null;
      this.dynamic, toFree := dynamic, false;
      unused, entries := NEW_MASK, seq(size, _ => Cleared());
      flows := map[];
      new;
      forall j: nat | j < 64
        ensures Bit(unused, j)
      {
        NewMask(j);
      }
    }

    /** A bucket has a free slot in its mask exactly when not all slots are live. */
    lemma Full()
      requires Valid()
      ensures And(unused, Mask(size)) == 0 <==> forall j: nat | j < size :: j in flows
    {
      MaskTest(unused, size);
      if And(unused, Mask(size)) != 0 {
        var j: nat :| j < size && Bit(unused, j);
        assert SlotOk(j);
      } else {
        forall j: nat | j < size
          ensures j in flows
        {
          assert SlotOk(j) && !Bit(unused, j);
        }
      }
    }

    lemma Empty()
      requires Valid()
      ensures Used(unused, size) == 0 <==> flows == map[]
    {
      forall j: nat
        ensures Bit(Used(unused, size), j) == (j in flows)
      {
        UsedBits(unused, size, j);
        assert j < size ==> SlotOk(j);
      }
      if Used(unused, size) != 0 {
        NonZeroHasBit(Used(unused, size));
      } else {
        forall j: nat
          ensures j !in flows
        {
          BitZero(j);
        }
      }
    }

    /** The end of `ft_add`: the free slot j, already taken out of the mask, gets a flow and a first
        reference. */
    method InitEntry(j: nat, mask: Uint64, hash: Uint32, key: Key, color: nat)
      requires Sound() && j < size && j !in flows
      requires forall i: nat | i < 64 :: Bit(mask, i) == (Bit(unused, i) && i != j)
      modifies this`unused, this`entries, this`flows
      ensures Sound() && flows == old(flows)[j := Live(FlowOf(hash, key, color), old(entries)[j].rc + 1)]
      ensures old(Valid()) ==> Valid() && old(entries)[j].rc == 0
    {
      assert SlotSound(j) && (Valid() ==> SlotOk(j));
      unused := mask;
      var e, len := entries[j], KeyLen(color);
      entries := entries[j := e.(index := j, hash := hash, color := color, rc := e.rc + 1, key := key[..len] + e.key[len..])];
      flows := flows[j := Live(FlowOf(hash, key, color), e.rc + 1)];
      forall i: nat | i < size
        ensures SlotSound(i) && (old(Valid()) ==> SlotOk(i))
      {
        assert old(SlotSound(i)) && (old(Valid()) ==> old(SlotOk(i)));
      }
    }

    /** Taking the lowest free slot of a bucket that has one. The flow starts with one reference, on top of the count
        that the slot was left with. */
    method TakeLowest(hash: Uint32, key: Key, color: nat) returns (j: nat)
      requires Sound() && And(unused, Mask(size)) != 0
      modifies this`unused, this`entries, this`flows
      ensures Sound() && j < size && j !in old(flows) && forall i: nat | i < j :: i in old(flows)
      ensures flows == old(flows)[j := Live(FlowOf(hash, key, color), old(entries)[j].rc + 1)] && flows != map[]
      ensures old(Valid()) ==> Valid() && old(entries)[j].rc == 0
    {
      TakeSlot(unused, size);
      j := Ctz32(unused);
      AndBound(unused, unused - 1);
      forall i: nat | i <= j
        ensures i in flows <==> i != j
      {
        assert SlotSound(i);
      }
      InitEntry(j, And(unused, unused - 1), hash, key, color);
      assert j in flows;
    }

    /** Taking slot 0 of a new bucket. */
    method TakeFirst(hash: Uint32, key: Key, color: nat)
      requires Valid() && unused == NEW_MASK && flows == map[]
      modifies this`unused, this`entries, this`flows
      ensures Valid() && flows == map[0 := Live(FlowOf(hash, key, color), 1)] && flows != map[]
    {
      ValidIsSound();
      forall j: nat | j < 64
        ensures Bit(NEW_MASK - 1, j) == (Bit(NEW_MASK, j) && j != 0)
      {
        NewMask(j);
        NewMaskLess0(j);
      }
      InitEntry(0, NEW_MASK - 1, hash, key, color);
      assert 0 in flows;
    }

    /** What `ft_remove` sees before it releases slot j. A slot 31 looks free even when it is live, because
        the bits above the bucket, which `1 << 31` covers, are never cleared. */
    lemma LooksFree(j: nat)
      requires Sound() && j < size
      ensures And(unused, IntShift(j)) != 0 <==> j !in flows || j == 31
    {
      assert SlotSound(j);
      if j < 31 {
        ReleaseSlot(unused, j);
      } else {
        Slot31LooksFree(unused);
      }
    }

    /** The part of `ft_remove` that marks slot j free. It succeeds exactly for a live slot below 31. */
    method Release(j: nat) returns (released: bool)
      requires Sound() && j < size
      modifies this`unused, this`flows
      ensures Sound() && (released <==> j in old(flows) && j < 31)
      ensures flows == if released then old(flows) - {j} else old(flows)
      ensures old(Valid()) && (j in old(flows) ==> old(flows)[j].count == 0) ==> Valid()
    {
      LooksFree(j);
      if And(unused, IntShift(j)) != 0 {
        return false;
      }
      ReleaseSlot(unused, j);
      unused := Or(unused, IntShift(j));
      flows := flows - {j};
      forall i: nat | i < size
        ensures SlotSound(i) && (old(Valid()) && old(flows)[j].count == 0 ==> SlotOk(i))
      {
        assert old(SlotSound(i)) && (old(Valid()) ==> old(SlotOk(i)));
      }
      return true;
    }

    /** `atomic_fetch_add(&entry->rc, delta)` */
    method AddReferences(j: nat, delta: int) returns (before: int)
      requires Sound() && j < size
      modifies this`entries, this`flows
      ensures Sound() && before == old(entries)[j].rc && (j in old(flows) ==> before == old(flows)[j].count)
      ensures flows == Counted(old(flows), j, delta) && entries[j].rc == before + delta
      ensures old(Valid()) && (j in old(flows) || delta == 0) ==> Valid() && before == (if j in old(flows) then old(flows)[j].count else 0)
    {
      assert SlotSound(j) && (Valid() ==> SlotOk(j));
      before := entries[j].rc;
      entries := entries[j := entries[j].(rc := before + delta)];
      if j in flows {
        flows := flows[j := flows[j].(count := before + delta)];
      }
      forall i: nat | i < size
        ensures SlotSound(i) && (old(Valid()) && (j in old(flows) || delta == 0) ==> SlotOk(i))
      {
        assert old(SlotSound(i)) && (old(Valid()) ==> old(SlotOk(i)));
      }
    }

    /** `ft_deref` in the bucket. The assertion there compares unsigned numbers and always holds, so that nothing
        keeps a caller from giving up more references than there are. */
    method GiveUp(j: nat, count: Uint32) returns (released: bool)
      requires Sound() && j < size
      modifies this`unused, this`entries, this`flows
      ensures Sound() && entries[j].rc == old(entries)[j].rc - count
      ensures released <==> j in old(flows) && j < 31 && Wrap32(old(entries)[j].rc) <= count
      ensures flows == if released then old(flows) - {j} else Counted(old(flows), j, 0 - count)
    {
      var before := AddReferences(j, 0 - count);
      released := false;
      if Wrap32(before) <= count {
        released := Release(j);
      }
    }

    /** When more references are given up than there are, the count stays negative in the free slot, and the next flow
        that takes the slot starts with fewer than one. */
    method GiveUpTooMany(j: nat, count: Uint32, hash: Uint32, key: Key, color: nat) returns (k: nat)
      requires Sound() && j < size && j < 31 && j in flows && 0 <= flows[j].count < count < TWO_31
      requires forall i: nat | i < j :: i in flows
      modifies this`unused, this`entries, this`flows
      ensures Sound() && k == j && j in flows && flows[j].count == 1 + old(flows)[j].count - count < 1
      ensures flows == old(flows)[j := Live(FlowOf(hash, key, color), flows[j].count)]
    {
      assert SlotSound(j);
      ghost var before := flows;
      var released := GiveUp(j, count);
      assert released && SlotSound(j) && Bit(unused, j);
      MaskTest(unused, size);
      assert exists i: nat :: i < size && Bit(unused, i);
      k := TakeLowest(hash, key, color);
      assert k == j && before - {j} + map[j := flows[j]] == before[j := flows[j]];
    }

    /** The scan of one bucket by `ft_visit` with `ft_lookup_visitor`. */
    method Find(hash: Uint32, key: Key, color: nat) returns (found: bool, j: nat)
      requires Valid()
      ensures found ==> j in flows && Matches(flows[j].flow, hash, key, color)
      ensures !found ==> forall i <- flows :: !Matches(flows[i].flow, hash, key, color)
    {
      var used := Used(unused, size);
      forall i: nat
        ensures Bit(used, i) == (i in flows)
      {
        UsedBits(unused, size, i);
        assert i < size ==> SlotOk(i);
      }
      found, j := false, 0;
      while !found && used != 0
        invariant found ==> j in flows && Matches(flows[j].flow, hash, key, color)
        invariant forall i: nat :: Bit(used, i) ==> i in flows
        invariant !found ==> forall i <- flows :: Bit(used, i) || !Matches(flows[i].flow, hash, key, color)
        decreases used
      {
        NextUsed(used);
        j := Ctz(used);
        assert SlotOk(j);
        CompareIsMatch(entries[j], flows[j].flow, hash, key, color);
        found := entries[j].Compare(hash, key, color);
        used := And(used, used - 1);
      }
      if used == 0 {
        forall i: nat
          ensures !Bit(used, i)
        {
          BitZero(i);
        }
      }
    }
  }
}
