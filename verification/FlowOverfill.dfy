/** What happens to a chain that starts with two or more buckets: once every slot has been taken, the next
    addition cuts off the final bucket, and entries that nobody removed cannot be found any more. */
module FlowOverfill {
  import opened Words
  import opened FlowKeys
  import opened FlowBucket
  import opened FlowChain

  /** What `ft_add` is asked to hold. */
  datatype Request = Request(hash: Uint32, key: Key, color: nat) {
    function Flow(): Flow { FlowOf(hash, key, color) }
  }

  /** Slots are taken in order: those of the first k buckets, and j of bucket k. */
  ghost predicate FilledTo(v: View, buckets: seq<Bucket>, size: nat, k: nat, j: nat) {
    forall i: nat, l: nat | i < |buckets| && l < size :: Taken(v, buckets[i], l) <==> i < k || (i == k && l < j)
  }

  ghost predicate Taken(v: View, b: Bucket, l: nat) { l in Of(v, b) }

  lemma FirstFreeIsNext(v: View, buckets: seq<Bucket>, size: nat, k: nat, j: nat, i: nat, l: nat)
    requires FilledTo(v, buckets, size, k, j) && k < |buckets| && j < size && FirstFree(v, buckets, size, i, l)
    ensures i == k && l == j
  {
    assert Taken(v, buckets[i], l) <==> i < k || (i == k && l < j);
    assert Taken(v, buckets[k], j) <==> false;
  }

  lemma FilledOneMore(v: View, buckets: seq<Bucket>, size: nat, k: nat, j: nat, entry: Live)
    requires FilledTo(v, buckets, size, k, j) && k < |buckets| && j < size
    requires forall x, y | 0 <= x < y < |buckets| :: buckets[x] != buckets[y]
    ensures FilledTo(Chain.WithEntry(v, Ref(buckets[k], j), entry), buckets, size, k, j + 1)
  {
    var w := Chain.WithEntry(v, Ref(buckets[k], j), entry);
    forall i: nat, l: nat | i < |buckets| && l < size
      ensures Taken(w, buckets[i], l) <==> i < k || (i == k && l < j + 1)
    {
      assert Taken(v, buckets[i], l) <==> i < k || (i == k && l < j);
      assert i != k ==> buckets[i] != buckets[k];
    }
  }

  lemma FilledNextBucket(v: View, buckets: seq<Bucket>, size: nat, k: nat)
    requires FilledTo(v, buckets, size, k, size)
    ensures FilledTo(v, buckets, size, k + 1, 0)
  {
    forall i: nat, l: nat | i < |buckets| && l < size
      ensures Taken(v, buckets[i], l) <==> i < k + 1 || (i == k + 1 && l < 0)
    {
      assert Taken(v, buckets[i], l) <==> i < k || (i == k && l < size);
    }
  }

  /** The live entries are those that were added, each with its flow. */
  ghost predicate Holds(v: View, added: seq<Ref>, requests: seq<Request>) {
    && |added| <= |requests|
    && (forall m | 0 <= m < |added| :: HoldsAt(v, added[m], requests[m]))
    && (forall b <- v, l <- v[b] :: Ref(b, l) in added)
  }

  ghost predicate HoldsAt(v: View, r: Ref, q: Request) { IsLive(v, r) && v[r.bucket][r.index].flow == q.Flow() }

  lemma HoldsOneMore(v: View, added: seq<Ref>, requests: seq<Request>, r: Ref, entry: Live)
    requires Holds(v, added, requests) && |added| < |requests| && !IsLive(v, r) && entry.flow == requests[|added|].Flow()
    ensures Holds(Chain.WithEntry(v, r, entry), added + [r], requests)
  {
    var w := Chain.WithEntry(v, r, entry);
    forall m | 0 <= m < |added| + 1
      ensures HoldsAt(w, (added + [r])[m], requests[m])
    {
      if m < |added| {
        assert HoldsAt(v, added[m], requests[m]);
      }
    }
    forall b <- w, l <- w[b]
      ensures Ref(b, l) in added + [r]
    {
      if Ref(b, l) != r {
        assert b in v && l in v[b];
      } else {
        assert (added + [r])[|added|] == r;
      }
    }
  }

  /** No request is for the flow of another one. */
  ghost predicate Distinct(requests: seq<Request>) {
    forall i, j | 0 <= i < |requests| && 0 <= j < |requests| && i != j ::
      !Matches(requests[i].Flow(), requests[j].hash, requests[j].key, requests[j].color)
  }

  /** The chain holds what was added, in the first slots. */
  ghost predicate Filling(chain: Chain, m: nat, list: seq<Bucket>, k: nat, j: nat, added: seq<Ref>, requests: seq<Request>)
    reads chain, chain.buckets
  {
    && chain.LastAt(m) && chain.buckets == list && FilledTo(chain.Contents(), list, chain.bucketSize, k, j)
    && Holds(chain.Contents(), added, requests)
  }

  lemma HasRoom(chain: Chain, k: nat, j: nat)
    requires k < |chain.buckets| && j < chain.bucketSize
    requires FilledTo(chain.Contents(), chain.buckets, chain.bucketSize, k, j)
    ensures !chain.AllTaken() && !IsLive(chain.Contents(), Ref(chain.buckets[k], j))
  {
    assert !Taken(chain.Contents(), chain.buckets[k], j);
    assert chain.buckets[k] in chain.buckets;
  }

  /** One more flow for a chain with room: it takes the next slot. */
  method AddNext(chain: Chain, q: Request, ghost m: nat, ghost list: seq<Bucket>, ghost k: nat, ghost j: nat,
                 ghost added: seq<Ref>, ghost requests: seq<Request>)
    returns (r: Ref)
    requires Filling(chain, m, list, k, j, added, requests) && k < |list| && j < chain.bucketSize
    requires |added| < |requests| && q == requests[|added|]
    modifies chain`last, chain`buckets, list
    ensures Filling(chain, m, list, k, j + 1, added + [r], requests)
  {
    ghost var v, i := chain.Contents(), 0;
    HasRoom(chain, k, j);
    r, i := chain.AddAt(q.hash, q.key, q.color, m);
    FirstFreeIsNext(v, list, chain.bucketSize, k, j, i, r.index);
    FilledOneMore(v, list, chain.bucketSize, k, j, Live(q.Flow(), 1));
    HoldsOneMore(v, added, requests, r, Live(q.Flow(), 1));
  }

  lemma Within(k: nat, j: nat, size: nat, count: nat)
    requires k < count && j < size
    ensures k * size + j < count * size && (k + 1) * size == k * size + size
  {
    assert (k + 1) * size <= count * size;
  }

  /** A flow for every slot of the chain. */
  method Fill(chain: Chain, requests: seq<Request>, ghost m: nat, ghost list: seq<Bucket>, count: nat) returns (ghost added: seq<Ref>)
    requires Filling(chain, m, list, 0, 0, [], requests) && |list| == count && |requests| >= count * chain.bucketSize
    modifies chain`last, chain`buckets, list
    ensures Filling(chain, m, list, count, 0, added, requests) && |added| == count * chain.bucketSize
  {
    added := [];
    var size, k := chain.bucketSize, 0;
    while k < count
      modifies chain`last, chain`buckets, list
      invariant k <= count && Filling(chain, m, list, k, 0, added, requests) && |added| == k * size
    {
      added := FillBucket(chain, requests, m, list, k, count, added);
      k := k + 1;
    }
  }

  method FillBucket(chain: Chain, requests: seq<Request>, ghost m: nat, ghost list: seq<Bucket>, k: nat, ghost count: nat, ghost before: seq<Ref>)
    returns (ghost added: seq<Ref>)
    requires k < count == |list| && Filling(chain, m, list, k, 0, before, requests)
    requires |before| == k * chain.bucketSize && |requests| >= count * chain.bucketSize
    modifies chain`last, chain`buckets, list
    ensures Filling(chain, m, list, k + 1, 0, added, requests) && |added| == (k + 1) * chain.bucketSize
  {
    added := before;
    var size, j := chain.bucketSize, 0;
    while j < size
      modifies chain`last, chain`buckets, list
      invariant j <= size && Filling(chain, m, list, k, j, added, requests) && |added| == k * size + j
    {
      Within(k, j, size, count);
      var r := AddNext(chain, requests[k * size + j], m, list, k, j, added, requests);
      added := added + [r];
      j := j + 1;
    }
    FilledNextBucket(chain.Contents(), list, size, k);
    Within(k, 0, size, count);
  }

  /** What is left when the final bucket of a full chain is cut off. */
  ghost function CutOff(v: View, list: seq<Bucket>, b: Bucket, entry: Live): View
    requires list != []
  {
    Chain.Kept(v, list[..|list| - 1])[b := map[0 := entry]]
  }

  /** A flow in the final bucket is not there any more. */
  lemma CutOffLoses(v: View, list: seq<Bucket>, size: nat, added: seq<Ref>, requests: seq<Request>, b: Bucket, entry: Live)
    returns (lost: nat)
    requires size >= 1 && list != [] && FilledTo(v, list, size, |list|, 0) && Holds(v, added, requests)
    requires forall x, y | 0 <= x < y < |list| :: list[x] != list[y]
    requires Distinct(requests) && |added| < |requests| && entry.flow == requests[|added|].Flow()
    ensures lost < |added| && var q, w := requests[lost], CutOff(v, list, b, entry);
      forall x: Ref | IsLive(w, x) :: !Matches(w[x.bucket][x.index].flow, q.hash, q.key, q.color)
  {
    var final := list[|list| - 1];
    assert Taken(v, final, 0);
    assert Ref(final, 0) in added;
    lost :| lost < |added| && added[lost] == Ref(final, 0);
    var q, w := requests[lost], CutOff(v, list, b, entry);
    forall x: Ref | IsLive(w, x)
      ensures !Matches(w[x.bucket][x.index].flow, q.hash, q.key, q.color)
    {
      if x.bucket != b {
        assert x.bucket in v && x.index in v[x.bucket];
        assert Ref(x.bucket, x.index) in added;
        var m: nat :| m < |added| && added[m] == Ref(x.bucket, x.index);
        var k: nat :| k < |list| - 1 && list[k] == x.bucket;
        assert HoldsAt(v, added[m], requests[m]) && m != lost;
      }
    }
  }

  lemma EmptyFills(v: View, buckets: seq<Bucket>, size: nat, requests: seq<Request>)
    requires forall b <- v :: v[b] == map[]
    ensures FilledTo(v, buckets, size, 0, 0) && Holds(v, [], requests)
  {
  }

  /** `ft_init` for a chain of two or more buckets. */
  method NewChain(number: nat, chainSize: nat, bucketSize: nat, ghost requests: seq<Request>) returns (chain: Chain)
    requires chainSize >= 2 && 1 <= bucketSize <= 32
    ensures fresh(chain) && fresh(chain.buckets) && chain.bucketSize == bucketSize && |chain.buckets| == chainSize
    ensures Filling(chain, chainSize - 2, chain.buckets, 0, 0, [], requests)
  {
    chain := new Chain(number, bucketSize);
    assert chain.Contents()[chain.first] == map[];
    chain.InitBuckets(chainSize);
    forall i | 0 <= i < |chain.buckets|
      ensures fresh(chain.buckets[i])
    {
      assert chain.buckets[i] in chain.buckets;
    }
    EmptyFills(chain.Contents(), chain.buckets, bucketSize, requests);
  }

  /** As many flows as such a chain has slots, and one more, all different and none of them removed; then one of
      them is not found. */
  method FillAndLose(number: nat, chainSize: nat, bucketSize: nat, requests: seq<Request>)
    returns (chain: Chain, ghost lost: nat)
    requires chainSize >= 2 && 1 <= bucketSize <= 32
    requires |requests| == chainSize * bucketSize + 1 && Distinct(requests)
    ensures fresh(chain) && chain.Valid() && lost < |requests| - 1
    ensures var q := requests[lost];
      forall x: Ref | IsLive(chain.Contents(), x) :: !Matches(chain.Contents()[x.bucket][x.index].flow, q.hash, q.key, q.color)
  {
    chain := NewChain(number, chainSize, bucketSize, requests);
    ghost var list := chain.buckets;
    ghost var added := Fill(chain, requests, chainSize - 2, list, chainSize);
    ghost var v := chain.Contents();
    var q := requests[|requests| - 1];
    AllTakenNow(chain, chainSize);
    var r, i := chain.AddAt(q.hash, q.key, q.color, chainSize - 2);
    lost := CutOffLoses(v, list, bucketSize, added, requests, r.bucket, Live(q.Flow(), 1));
  }

  lemma AllTakenNow(chain: Chain, count: nat)
    requires count == |chain.buckets| && FilledTo(chain.Contents(), chain.buckets, chain.bucketSize, count, 0)
    ensures chain.AllTaken()
  {
    forall i: nat, l: nat | i < |chain.buckets| && l < chain.bucketSize
      ensures l in chain.buckets[i].flows
    {
      assert Taken(chain.Contents(), chain.buckets[i], l);
    }
  }
}
