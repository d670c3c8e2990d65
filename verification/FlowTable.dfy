/** The flow table: a power of two of chains, selected by the low bits of the hash. It behaves as a set
    of live entries, each with its flow and its number of references. */
module FlowTable {
  import opened Words
  import opened Bits
  import opened FlowKeys
  import opened FlowBucket
  import opened FlowChain

  /** `hash & table_mask` */
  function ChainOf(power: nat, hash: Uint32): (c: nat)
    ensures c < Pow2(power) && c == hash % Pow2(power)
  {
    AndBound(hash, Pow2(power) - 1);
    MaskIsRemainder(hash, power);
    And(hash, Pow2(power) - 1)
  }

  /** The live entries of all the chains. */
  type Flows = map<Ref, Live>

  /** `rc` is an `int`. */
  const MAX_COUNT: int := TWO_31 - 1

  /** Every live entry lies in the chain of its hash. */
  ghost predicate Placed(live: Flows, power: nat) {
    forall r <- live :: r.bucket.parent == ChainOf(power, live[r].flow.hash)
  }

  /** Every live entry is referred to, but for those in slot 31, which nothing can release. */
  ghost predicate Referred(live: Flows) { forall r <- live :: (if r.index < 31 then 1 else 0) <= live[r].count <= MAX_COUNT }

  /** How many references there are to an entry. */
  ghost function CountOf(live: Flows, r: Ref): int { if r in live then live[r].count else 0 }

  /** delta references more to r. */
  ghost function Recounted(live: Flows, r: Ref, delta: int): Flows {
    if r in live then live[r := live[r].(count := live[r].count + delta)] else live
  }

  /** View v is the part of the live entries that lies in chain c. */
  ghost predicate Shows(v: View, live: Flows, c: nat) {
    && (forall b <- v :: b.parent == c)
    && (forall r <- live | r.bucket.parent == c :: IsLive(v, r) && v[r.bucket][r.index] == live[r])
    && (forall b <- v, j <- v[b] :: Ref(b, j) in live)
  }

  /** The chains together hold the live entries. */
  ghost predicate AllShow(views: seq<View>, live: Flows) {
    forall c: nat {:trigger Shows(views[c], live, c)} | c < |views| :: Shows(views[c], live, c)
  }

  lemma AllShowMore(views: seq<View>, v: View, live: Flows)
    requires AllShow(views, live) && Shows(v, live, |views|)
    ensures AllShow(views + [v], live)
  {
    forall c: nat | c < |views| + 1
      ensures Shows((views + [v])[c], live, c)
    {
      assert c < |views| ==> Shows(views[c], live, c);
    }
  }

  lemma ShowsOther(v: View, before: Flows, after: Flows, d: nat, r: Ref)
    requires Shows(v, before, d) && r.bucket.parent != d && before - {r} == after - {r}
    ensures Shows(v, after, d)
  {
    forall x | x != r && (x in before || x in after)
      ensures x in before && x in after && before[x] == after[x]
    {
      assert x in before - {r} && (before - {r})[x] == (after - {r})[x];
    }
  }

  /** What happens to one entry concerns the view of its chain only. */
  lemma OneShows(views: seq<View>, before: Flows, after: Flows, c: nat, v: View, r: Ref)
    requires AllShow(views, before) && c < |views| && r.bucket.parent == c && before - {r} == after - {r}
    requires Shows(v, after, c)
    ensures AllShow(views[c := v], after)
  {
    forall d: nat | d < |views| && d != c
      ensures Shows(views[d], after, d)
    {
      ShowsOther(views[d], before, after, d, r);
    }
  }

  lemma ShowsAdd(views: seq<View>, live: Flows, c: nat, r: Ref, entry: Live)
    requires AllShow(views, live) && c < |views| && r.bucket.parent == c
    ensures AllShow(views[c := Chain.WithEntry(views[c], r, entry)], live[r := entry])
  {
    assert Shows(views[c], live, c);
    OneShows(views, live, live[r := entry], c, Chain.WithEntry(views[c], r, entry), r);
  }

  lemma ShowsRecounted(views: seq<View>, live: Flows, c: nat, r: Ref, delta: int)
    requires AllShow(views, live) && c < |views| && r.bucket.parent == c && r.bucket in views[c]
    ensures AllShow(views[c := views[c][r.bucket := Counted(views[c][r.bucket], r.index, delta)]], Recounted(live, r, delta))
  {
    assert Shows(views[c], live, c);
    OneShows(views, live, Recounted(live, r, delta), c, views[c][r.bucket := Counted(views[c][r.bucket], r.index, delta)], r);
  }

  /** What is left when r gives up some of its references. */
  ghost function Released(live: Flows, r: Ref, count: int): Flows {
    var recounted := Recounted(live, r, 0 - count);
    if count < CountOf(live, r) || r.index >= 31 then recounted else recounted - {r}
  }

  lemma ReleasedAfter(live: Flows, r: Ref, count: nat)
    requires count <= CountOf(live, r)
    ensures var recounted := Recounted(live, r, 0 - count);
      && (r in recounted <==> r in live) && CountOf(recounted, r) == CountOf(live, r) - count
      && Released(live, r, count) == if CountOf(live, r) <= count && r.index < 31 then recounted - {r} else recounted
  {
  }

  /** It is released exactly with the last of them, unless it is in slot 31; nothing else changes. */
  lemma ReleasedMeaning(live: Flows, r: Ref, count: nat)
    requires Referred(live) && count <= CountOf(live, r)
    ensures var rest := Released(live, r, count);
      && Referred(rest) && rest - {r} == live - {r}
      && (r in rest <==> r in live && (count < live[r].count || r.index >= 31))
      && (r in rest ==> rest[r] == live[r].(count := live[r].count - count))
  {
    assert Recounted(live, r, 0 - count) - {r} == live - {r};
  }

  lemma ShowsRemove(views: seq<View>, live: Flows, c: nat, r: Ref)
    requires AllShow(views, live) && c < |views| && r.bucket.parent == c && r.bucket in views[c]
    ensures AllShow(views[c := Chain.WithoutEntry(views[c], r)], live - {r})
  {
    assert Shows(views[c], live, c);
    OneShows(views, live, live - {r}, c, Chain.WithoutEntry(views[c], r), r);
  }

  /** An entry is live when its chain says so. */
  lemma LiveInView(views: seq<View>, live: Flows, r: Ref)
    requires AllShow(views, live) && r.bucket.parent < |views|
    ensures r in live <==> IsLive(views[r.bucket.parent], r)
    ensures Chain.CountOf(views[r.bucket.parent], r) == CountOf(live, r)
  {
    assert Shows(views[r.bucket.parent], live, r.bucket.parent);
  }

  /** An empty chain, in order exactly for a chain size of at most 1. */
  ghost predicate Built(chain: Chain, number: nat, chainSize: nat, bucketSize: nat)
    reads chain, chain.buckets
  {
    && chain.Linked() && chain.number == number && chain.bucketSize == bucketSize
    && (chain.Valid() <==> chainSize <= 1) && Shows(chain.Contents(), map[], number)
  }

  /** The memory of the chain is in the set. */
  ghost predicate Owned(chain: Chain, memory: set<object>)
    reads chain
  {
    chain in memory && forall b <- chain.buckets :: b in memory
  }

  lemma OwnedMore(chains: seq<Chain>, memory: set<object>, own: set<object>)
    requires forall c: nat {:trigger Owned(chains[c], memory)} | c < |chains| :: Owned(chains[c], memory)
    ensures forall c: nat {:trigger Owned(chains[c], memory + own)} | c < |chains| :: Owned(chains[c], memory + own)
  {
    forall c: nat | c < |chains|
      ensures Owned(chains[c], memory + own)
    {
      assert Owned(chains[c], memory);
    }
  }

  /** One round of `ft_init`. */
  method BuildChain(number: nat, chainSize: nat, bucketSize: nat) returns (chain: Chain, ghost own: set<object>)
    requires 1 <= bucketSize <= 32
    ensures Built(chain, number, chainSize, bucketSize) && Owned(chain, own) && fresh(own)
    ensures forall o <- own :: o is Chain || o is Bucket
  {
    chain := new Chain(number, bucketSize);
    assert chain.Contents()[chain.first] == map[];
    chain.InitBuckets(chainSize);
    own := {chain} + set b: Bucket | b in chain.buckets :: b as object;
  }

  /** The loop of `ft_init`. */
  method BuildChains(count: nat, chainSize: nat, bucketSize: nat)
    returns (chains: seq<Chain>, ghost memory: set<object>, ghost views: seq<View>)
    requires 1 <= bucketSize <= 32
    ensures |chains| == |views| == count && fresh(memory) && forall o <- memory :: o is Chain || o is Bucket
    ensures forall c: nat {:trigger Owned(chains[c], memory)} | c < count :: Owned(chains[c], memory)
    ensures forall c: nat {:trigger Built(chains[c], c, chainSize, bucketSize)} | c < count :: Built(chains[c], c, chainSize, bucketSize)
    ensures (forall c | 0 <= c < count :: views[c] == chains[c].Contents()) && AllShow(views, map[])
  {
    chains, memory, views := [], {}, [];
    while |chains| < count
      invariant |chains| == |views| <= count && fresh(memory) && forall o <- memory :: o is Chain || o is Bucket
      invariant forall c: nat {:trigger Owned(chains[c], memory)} | c < |chains| :: Owned(chains[c], memory)
      invariant forall c: nat {:trigger Built(chains[c], c, chainSize, bucketSize)} | c < |chains| :: Built(chains[c], c, chainSize, bucketSize)
      invariant (forall c | 0 <= c < |chains| :: views[c] == chains[c].Contents()) && AllShow(views, map[])
    {
      var chain, own := BuildChain(|chains|, chainSize, bucketSize);
      OwnedMore(chains, memory, own);
      AllShowMore(views, chain.Contents(), map[]);
      chains, views, memory := chains + [chain], views + [chain.Contents()], memory + own;
    }
  }

  class Table {
    const power: nat
    const bucketSize: nat
    var chains: seq<Chain>
    var statLearn: int
    var statUnlearn: int
    var statFlow: int
    ghost var views: seq<View>   // what each chain holds
    ghost var live: Flows
    ghost var repr: set<object>

    ghost predicate ChainOk(c: nat)
      requires c < |chains| == |views|
      reads this`chains, this`views, this`repr, repr
    {
      && chains[c] in repr && (forall b <- chains[c].buckets :: b in repr)
      && chains[c].Valid() && chains[c].number == c && chains[c].bucketSize == bucketSize
      && chains[c].Contents() == views[c]
    }

    ghost predicate Structure()
      reads this`chains, this`views, this`repr, repr
    {
      this !in repr && |chains| == |views| == Pow2(power) && forall c: nat {:trigger ChainOk(c)} | c < |chains| :: ChainOk(c)
    }

    ghost predicate Consistent()
      reads this, repr
    {
      && Structure() && Placed(live, power) && AllShow(views, live)
      && statFlow == |live| && statFlow == statLearn - statUnlearn
    }

    ghost predicate Valid()
      reads this, repr
    {
      Consistent() && Referred(live)
    }

    /** The entry's memory has not been freed. */
    ghost predicate Allocated(r: Ref)
      reads this`views
    {
      r.bucket.parent < |views| && r.bucket in views[r.bucket.parent] && r.index < bucketSize
    }

    /** A live entry's memory has not been freed. */
    lemma LiveIsAllocated(r: Ref)
      requires Consistent() && r in live
      ensures Allocated(r)
    {
      var c := r.bucket.parent;
      assert Shows(views[c], live, c) && ChainOk(c);
      assert r.bucket.Valid();
    }

    ghost predicate Apart(c: nat, d: nat)
      requires c < |chains| && d < |chains|
      reads this`chains, chains
    {
      chains[d] != chains[c] && forall i | 0 <= i < |chains[d].buckets| :: chains[d].buckets[i] !in chains[c].buckets
    }

    /** Different chains share no memory. */
    lemma AllApart(c: nat)
      requires Structure() && c < |chains|
      ensures forall d: nat | d < |chains| && d != c :: Apart(c, d)
    {
      forall d: nat | d < |chains| && d != c
        ensures Apart(c, d)
      {
        assert ChainOk(c) && ChainOk(d);
      }
    }

    twostate predicate Untouched(d: nat)
      requires d < |chains| && chains == old(chains)
      reads this`chains, chains[d], chains[d].buckets
    {
      unchanged(chains[d]) && forall i | 0 <= i < |chains[d].buckets| :: unchanged(chains[d].buckets[i])
    }

    ghost predicate OthersOk(c: nat)
      reads this`chains, this`views, this`repr, repr
    {
      |chains| == |views| && forall d: nat {:trigger ChainOk(d)} | d < |chains| && d != c :: ChainOk(d)
    }

    /** A call on chain c leaves the other chains alone. */
    twostate lemma OthersKept(c: nat)
      requires old(Structure()) && c < |chains| && unchanged(this)
      requires forall d: nat | d < |chains| && d != c :: Untouched(d)
      ensures OthersOk(c)
    {
      forall d: nat | d < |chains| && d != c
        ensures ChainOk(d)
      {
        assert old(ChainOk(d)) && Untouched(d);
        chains[d].Undisturbed();
      }
    }

    /** The table's own account of chain c, after a call on that chain. */
    ghost method Record(c: nat, extra: set<object>)
      requires c < |chains| == |views| == Pow2(power) && this !in repr + extra && chains[c] in repr && OthersOk(c)
      requires forall b <- chains[c].buckets :: b in repr + extra
      requires chains[c].Valid() && chains[c].number == c && chains[c].bucketSize == bucketSize
      modifies this`views, this`repr
      ensures Structure() && views == old(views)[c := old(chains[c].Contents())] && repr == old(repr) + extra
    {
      views := views[c := chains[c].Contents()];
      repr := repr + extra;
      forall d: nat | d < |chains|
        ensures ChainOk(d)
      {
        assert d != c ==> old(ChainOk(d));
      }
    }

    /** `ft_add` below the hash, and what it leaves alone. */
    method AddInChain(c: nat, hash: Uint32, key: Key, color: nat) returns (r: Ref)
      requires Structure() && c < |chains|
      modifies chains[c], chains[c].buckets
      ensures chains[c].Valid() && !IsLive(old(views)[c], r) && OthersOk(c)
      ensures chains[c].Contents() == Chain.WithEntry(old(views)[c], r, Live(FlowOf(hash, key, color), 1))
      ensures r.bucket.parent == c && (r.bucket in repr || fresh(r.bucket)) && r.bucket in chains[c].buckets
      ensures forall b <- chains[c].buckets :: b in repr + {r.bucket}
    {
      assert ChainOk(c);
      AllApart(c);
      r := chains[c].Add(hash, key, color);
      forall d: nat | d < |chains| && d != c
        ensures Untouched(d)
      {
        assert old(ChainOk(d));
        assert old(Apart(c, d));
      }
      OthersKept(c);
      assert r.bucket in chains[c].Contents();
    }

    method AddToChain(c: nat, hash: Uint32, key: Key, color: nat) returns (r: Ref)
      requires Structure() && c < |chains|
      modifies this`repr, this`views, repr
      ensures Structure() && fresh(repr - old(repr)) && r.bucket.parent == c && !IsLive(old(views)[c], r)
      ensures views == old(views)[c := Chain.WithEntry(old(views)[c], r, Live(FlowOf(hash, key, color), 1))]
    {
      assert ChainOk(c);
      r := AddInChain(c, hash, key, color);
      Record(c, {r.bucket});
    }

    /** The atomic addition, and what it leaves alone. */
    method CountInChain(c: nat, r: Ref, delta: int) returns (before: int)
      requires Structure() && c < |chains| && Allocated(r) && r.bucket.parent == c && (IsLive(views[c], r) || delta == 0)
      modifies chains[c].buckets
      ensures chains[c].Valid() && before == Chain.CountOf(old(views)[c], r) && OthersOk(c)
      ensures chains[c].Contents() == old(views)[c][r.bucket := Counted(old(views)[c][r.bucket], r.index, delta)]
    {
      assert ChainOk(c);
      AllApart(c);
      before := chains[c].AddReferences(r, delta);
      forall d: nat | d < |chains| && d != c
        ensures Untouched(d)
      {
        assert old(ChainOk(d));
        assert old(Apart(c, d));
      }
      OthersKept(c);
    }

    /** `ft_remove` below the hash, and what it leaves alone. */
    method RemoveInChain(c: nat, r: Ref) returns (removed: bool)
      requires Structure() && c < |chains| && Allocated(r) && r.bucket.parent == c && Chain.CountOf(views[c], r) == 0
      modifies chains[c], chains[c].buckets
      ensures chains[c].Valid() && removed == (IsLive(old(views)[c], r) && r.index < 31) && OthersOk(c)
      ensures chains[c].Contents() == if removed then Chain.WithoutEntry(old(views)[c], r) else old(views)[c]
      ensures forall b <- chains[c].buckets :: b in repr
    {
      assert ChainOk(c);
      AllApart(c);
      removed := chains[c].Remove(r);
      forall d: nat | d < |chains| && d != c
        ensures Untouched(d)
      {
        assert old(ChainOk(d));
        assert old(Apart(c, d));
      }
      OthersKept(c);
    }

    method CountFromChain(c: nat, r: Ref, delta: int) returns (before: int)
      requires Structure() && c < |chains| && Allocated(r) && r.bucket.parent == c && (IsLive(views[c], r) || delta == 0)
      modifies this`views, this`repr, repr
      ensures Structure() && repr == old(repr) && before == Chain.CountOf(old(views)[c], r)
      ensures views == old(views)[c := old(views)[c][r.bucket := Counted(old(views)[c][r.bucket], r.index, delta)]]
    {
      assert ChainOk(c);
      before := CountInChain(c, r, delta);
      Record(c, {});
    }

    method RemoveFromChain(c: nat, r: Ref) returns (removed: bool)
      requires Structure() && c < |chains| && Allocated(r) && r.bucket.parent == c && Chain.CountOf(views[c], r) == 0
      modifies this`views, this`repr, repr
      ensures Structure() && repr == old(repr) && removed == (IsLive(old(views)[c], r) && r.index < 31)
      ensures views == if removed then old(views)[c := Chain.WithoutEntry(old(views)[c], r)] else old(views)
    {
      assert ChainOk(c);
      removed := RemoveInChain(c, r);
      Record(c, {});
    }

    /** What `ft_init` has made of chain c. */
    ghost predicate ChainBuilt(c: nat, chainSize: nat)
      requires c < |chains| == |views|
      reads this`chains, this`views, this`repr, repr
    {
      && chains[c] in repr && (forall b <- chains[c].buckets :: b in repr)
      && Built(chains[c], c, chainSize, bucketSize) && chains[c].Contents() == views[c]
    }

    lemma BuiltIsOk(chainSize: nat)
      requires |chains| == |views| == Pow2(power) && this !in repr
      requires forall c: nat {:trigger ChainBuilt(c, chainSize)} | c < |chains| :: ChainBuilt(c, chainSize)
      ensures Structure() <==> chainSize <= 1
    {
      assert ChainBuilt(0, chainSize);
      if chainSize <= 1 {
        forall c: nat | c < |chains|
          ensures ChainOk(c)
        {
          assert ChainBuilt(c, chainSize);
        }
      } else {
        assert !ChainOk(0);
      }
    }

    /** `ft_init`: the table is in order exactly for a chain size of at most 1. */
    constructor (power: nat, chainSize: nat, bucketSize: nat)
      requires 1 <= bucketSize <= 32
      ensures live == map[] && fresh(repr) && this.power == power && this.bucketSize == bucketSize
      ensures |chains| == |views| == Pow2(power) && forall c: nat {:trigger ChainBuilt(c, chainSize)} | c < |chains| :: ChainBuilt(c, chainSize)
      ensures AllShow(views, map[]) && statLearn == statUnlearn == statFlow == 0
      ensures Valid() <==> chainSize <= 1
    {
      this.power, this.bucketSize := power, bucketSize;
      statLearn, statUnlearn, statFlow := 0, 0, 0;
      ghost var owned, shown;
      var built;
      built, owned, shown := BuildChains(Pow2(power), chainSize, bucketSize);
      chains, views, live, repr := built, shown, map[], owned;
      new;
      forall c: nat | c < |chains|
        ensures ChainBuilt(c, chainSize)
      {
        assert Owned(chains[c], owned) && Built(chains[c], c, chainSize, bucketSize);
      }
      BuiltIsOk(chainSize);
    }

    /** `ft_lookup` finds an entry exactly when a live one has the hash, the colour type and the key. */
    method Lookup(hash: Uint32, key: Key, color: nat) returns (found: bool, r: Ref)
      requires Consistent()
      ensures found ==> r in live && Matches(live[r].flow, hash, key, color)
      ensures !found ==> forall x <- live :: !Matches(live[x].flow, hash, key, color)
    {
      var c := ChainOf(power, hash);
      assert ChainOk(c) && Shows(views[c], live, c);
      found, r := chains[c].Lookup(hash, key, color);
      if found {
        assert Ref(r.bucket, r.index) in live;
      } else {
        forall x <- live
          ensures !Matches(live[x].flow, hash, key, color)
        {
          assert x.bucket.parent == c ==> IsLive(views[c], x);
        }
      }
    }

    method NoteAdded(ghost r: Ref, ghost entry: Live)
      requires Structure() && r !in live
      modifies this`live, this`statLearn, this`statFlow
      ensures Structure() && live == old(live)[r := entry] && |live| == |old(live)| + 1
      ensures statLearn == old(statLearn) + 1 && statFlow == old(statFlow) + 1
    {
      live := live[r := entry];
      statLearn := statLearn + 1;
      statFlow := statFlow + 1;
    }

    /** `ft_add` makes one new live entry, with one reference, and leaves the others alone. */
    method Add(hash: Uint32, key: Key, color: nat) returns (r: Ref)
      requires Valid()
      modifies this, repr
      ensures Valid() && fresh(repr - old(repr))
      ensures r !in old(live) && live == old(live)[r := Live(FlowOf(hash, key, color), 1)]
      ensures live[r].flow == Flow(hash, color, key[..if (color / 2) % 2 == 1 then 36 else 12])
      ensures statLearn == old(statLearn) + 1 && statUnlearn == old(statUnlearn)
    {
      var c := ChainOf(power, hash);
      FlowOfMeaning(hash, key, color);
      r := AddToChain(c, hash, key, color);
      LiveInView(old(views), live, r);
      ShowsAdd(old(views), live, c, r, Live(FlowOf(hash, key, color), 1));
      NoteAdded(r, Live(FlowOf(hash, key, color), 1));
    }

    /** The atomic addition of `ft_ref` and `ft_deref`, which an entry that is not live has no use for. */
    method AddReferences(r: Ref, delta: int) returns (before: int)
      requires Consistent() && Allocated(r) && (r in live || delta == 0)
      modifies this`views, this`repr, this`live, repr
      ensures Consistent() && Allocated(r) && repr == old(repr)
      ensures before == CountOf(old(live), r) && live == Recounted(old(live), r, delta)
    {
      var c := r.bucket.parent;
      LiveInView(views, live, r);
      before := CountFromChain(c, r, delta);
      ShowsRecounted(old(views), live, c, r, delta);
      live := Recounted(live, r, delta);
    }

    method NoteRemoved(ghost r: Ref)
      requires Structure() && r in live
      modifies this`live, this`statUnlearn, this`statFlow
      ensures Structure() && live == old(live) - {r} && |live| == |old(live)| - 1
      ensures statUnlearn == old(statUnlearn) + 1 && statFlow == old(statFlow) - 1
    {
      statUnlearn := statUnlearn + 1;
      statFlow := statFlow - 1;
      ghost var was := live;
      live := live - {r};
      assert was == live[r := was[r]];
    }

    /** `ft_remove` releases a live entry that nobody refers to, unless it is in slot 31, and ignores one that
        is not live. */
    method Remove(r: Ref)
      requires Consistent() && Allocated(r) && CountOf(live, r) == 0
      modifies this`views, this`repr, this`live, this`statUnlearn, this`statFlow, repr
      ensures Consistent()
      ensures live == if r.index < 31 then old(live) - {r} else old(live)
      ensures statUnlearn == old(statUnlearn) + if r in old(live) && r.index < 31 then 1 else 0
    {
      var c := r.bucket.parent;
      LiveInView(views, live, r);
      var removed := RemoveFromChain(c, r);
      if removed {
        ShowsRemove(old(views), live, c, r);
        NoteRemoved(r);
      } else {
        assert r !in live ==> live - {r} == live;
      }
    }

    /** `ft_ref` */
    method Reference(r: Ref, count: Uint32)
      requires Valid() && r in live && live[r].count + count <= MAX_COUNT
      modifies this`views, this`repr, this`live, repr
      ensures Valid() && live == old(live)[r := Live(old(live)[r].flow, old(live)[r].count + count)]
    {
      LiveIsAllocated(r);
      var before := AddReferences(r, count);
    }

    /** The two parts of `ft_deref`. */
    method GiveUp(r: Ref, count: Uint32)
      requires Consistent() && Allocated(r) && count <= CountOf(live, r) <= MAX_COUNT
      modifies this`views, this`repr, this`live, this`statUnlearn, this`statFlow, repr
      ensures Consistent() && live == Released(old(live), r, count)
      ensures statUnlearn == old(statUnlearn) + if r in old(live) && count == CountOf(old(live), r) && r.index < 31 then 1 else 0
    {
      ghost var was, rest := live, Recounted(live, r, 0 - count);
      ReleasedAfter(was, r, count);
      var before := AddReferences(r, 0 - count);
      var last := Wrap32(before) <= count;   // the count is unsigned, and so is the comparison
      assert live == rest && last == (CountOf(was, r) <= count);
      if last {
        Remove(r);
      }
    }

    /** `ft_deref` for no more references than there are; an entry that is not live has none. */
    method Dereference(r: Ref, count: Uint32)
      requires Valid() && Allocated(r) && count <= CountOf(live, r)
      modifies this`views, this`repr, this`live, this`statUnlearn, this`statFlow, repr
      ensures Valid() && live == Released(old(live), r, count)
      ensures r in live <==> r in old(live) && (count < old(live)[r].count || r.index >= 31)
      ensures statUnlearn == old(statUnlearn) + if r in old(live) && r !in live then 1 else 0
    {
      ReleasedMeaning(live, r, count);
      GiveUp(r, count);
    }
  }
}
