/** The client of the flow table that handles received packets. */
module Rx {
  import opened Words
  import opened Bits
  import opened FlowKeys
  import opened FlowBucket
  import opened FlowChain
  import opened FlowTable

  const MISS: nat := 9
  const UNHANDLED: nat := 10

  /** What the adapter says about a packet, and its headers. */
  datatype Packet = Packet(color1: Uint64, l3: seq<Byte>, l4: seq<Byte>) {
    /** `color1 & UINT_MAX` */
    function Color(): Uint32 { Wrap32(color1) }

    /** `color1 >> 32` */
    function Hash(): (h: Uint32) { color1 / TWO_32 }

    /** `color & USHRT_MAX` */
    function FlowColor(): nat { Color() % 0x1_0000 }

    predicate V6() { Bit(Color(), IPV6) }

    predicate Complete() { Headers(l3, l4, V6()) }

    predicate Handled() { Bit(Color(), UNHANDLED) || Bit(Color(), MISS) }

    /** The key of the flow that the packet belongs to. */
    function FlowKey(): seq<Byte>
      requires Complete()
    {
      KeyOf(Parse(l3, l4, V6()), Bit(Color(), DOWNSTREAM))
    }

    /** The flow that the packet belongs to. */
    function Flow(): Flow
      requires Complete()
    {
      FlowBucket.Flow(Hash(), FlowColor(), FlowKey())
    }
  }

  /** Flows that the table does not tell apart. */
  predicate Same(f: Flow, g: Flow) { f.hash == g.hash && TypeOf(f.color) == TypeOf(g.color) && f.key == g.key }

  /** No two live entries stand for the same flow. */
  ghost predicate NoDuplicates(live: Flows) {
    forall x <- live, y <- live :: x != y ==> !Same(live[x].flow, live[y].flow)
  }

  lemma BitsOn(x: nat, i: nat)
    ensures Bit(x, i + 3) == Bit(x / 8, i)
  {
    assert Bit(x, i + 3) == Bit(x / 2, i + 2) == Bit(x / 4, i + 1);
  }

  lemma BitNine(x: nat)
    ensures Bit(x, 9) <==> (x / 512) % 2 == 1
  {
    BitsOn(x, 6);
    BitsOn(x / 8, 3);
    BitsOn(x / 64, 0);
  }

  lemma SameDigit(q: nat, r: nat, m: nat, c: nat)
    requires m > 0
    ensures ((q * (2 * c * m) + r) / m) % 2 == (r / m) % 2
  {
    assert q * (2 * c * m) + r == (2 * (q * c) + r / m) * m + r % m;
    DivModUnique(q * (2 * c * m) + r, m, 2 * (q * c) + r / m, r % m);
  }

  lemma LowerHalf(x: nat)
    ensures (x % 0x1_0000_0000 / 512) % 2 == (x / 512) % 2 && (x % 0x1_0000_0000 / 1024) % 2 == (x / 1024) % 2
    ensures x % 0x1_0000_0000 % 0x1_0000 == x % 0x1_0000 && x % 0x1_0000_0000 % 0x1_0000 % 256 == x % 256
  {
    var q, r := x / 0x1_0000_0000, x % 0x1_0000_0000;
    SameDigit(q, r, 512, 0x40_0000);
    SameDigit(q, r, 1024, 0x20_0000);
    ModMod(x, 0x1_0000, 0x1_0000);
    ModMod(x, 256, 0x100_0000);
    ModMod(r, 256, 0x100);
  }

  /** What the program reads from a descriptor: bits 9 and 10 say that the packet is handled, the upper half is the
      hash, and the low 8 bits tell flows apart. */
  lemma DescriptorMeaning(p: Packet)
    ensures Bit(p.Color(), MISS) <==> (p.color1 / 512) % 2 == 1
    ensures p.Handled() <==> (p.color1 / 512) % 2 == 1 || (p.color1 / 1024) % 2 == 1
    ensures p.Hash() == p.color1 / 0x1_0000_0000 && p.FlowColor() == p.color1 % 0x1_0000 && TypeOf(p.FlowColor()) == p.color1 % 256
  {
    var color := p.Color();
    LowerHalf(p.color1);
    BitNine(color);
    BitNine(color / 2);
    assert Bit(color, 10) == Bit(color / 2, 9);
    TypeMeaning(p.FlowColor());
  }

  type FullPacket = p: Packet | p.Complete() witness Packet(0, seq(20, _ => 0), seq(4, _ => 0))

  /** A packet p that is handled and belongs to the same flow as q. */
  predicate Precedes(p: FullPacket, q: FullPacket) {
    && ((p.color1 / 512) % 2 == 1 || (p.color1 / 1024) % 2 == 1)
    && p.color1 / 0x1_0000_0000 == q.color1 / 0x1_0000_0000 && p.color1 % 256 == q.color1 % 256 && p.FlowKey() == q.FlowKey()
  }

  lemma PrecedesMeaning(p: FullPacket, q: FullPacket)
    ensures Precedes(p, q) <==> p.Handled() && Same(p.Flow(), q.Flow())
  {
    DescriptorMeaning(p);
    DescriptorMeaning(q);
  }

  /** The low 16 bits have the low colour bits. */
  lemma LowColor(color: nat, j: nat)
    requires j < 16
    ensures Bit(color % 0x1_0000, j) == Bit(color, j)
  {
    Pow2Values();
    MaskIsRemainder(color, 16);
    BitAnd(color, Pow2(16) - 1, j);
    BitMask(16, j);
  }

  /** Counting references and releasing entries makes no duplicates: each entry keeps its flow. */
  lemma CountingKeeps(before: Flows, after: Flows)
    requires NoDuplicates(before) && forall r <- after :: r in before && after[r].flow == before[r].flow
    ensures NoDuplicates(after)
  {
    forall x <- after, y <- after | x != y
      ensures !Same(after[x].flow, after[y].flow)
    {
      assert x in before && y in before;
    }
  }

  /** The table has an entry for the flow. */
  ghost predicate Known(live: Flows, f: Flow) { exists r <- live :: Same(live[r].flow, f) }

  /** One new entry, for the flow. */
  ghost predicate NewEntry(before: Flows, after: Flows, f: Flow) {
    exists r <- after :: r !in before && after == before[r := Live(f, 1)]
  }

  lemma NewEntryKeeps(before: Flows, after: Flows, f: Flow)
    requires NoDuplicates(before) && !Known(before, f) && NewEntry(before, after, f)
    ensures NoDuplicates(after) && Known(after, f) && |after| == |before| + 1
  {
    var r :| r in after && r !in before && after == before[r := Live(f, 1)];
    assert Same(after[r].flow, f);
    forall x <- after, y <- after | x != y
      ensures !Same(after[x].flow, after[y].flow)
    {
      if x != r && y != r {
        assert x in before && y in before;
      } else if x == r {
        assert y in before && !Same(before[y].flow, f);
      } else {
        assert x in before && !Same(before[x].flow, f);
      }
    }
  }

  /** The lookup of `rx_process`, and the addition when it finds nothing. */
  method FindOrAdd(table: Table, hash: Uint32, key: Key, color: nat) returns (added: bool)
    requires table.Valid()
    modifies table, table.repr
    ensures table.Valid() && fresh(table.repr - old(table.repr)) && added == !Known(old(table.live), FlowOf(hash, key, color))
    ensures if added then NewEntry(old(table.live), table.live, FlowOf(hash, key, color)) else table.live == old(table.live)
  {
    var found, entry := table.Lookup(hash, key, color);
    assert found ==> Same(table.live[entry].flow, FlowOf(hash, key, color));
    added := !found;
    if added {
      entry := table.Add(hash, key, color);
    }
  }

  /** The key of the packet in a buffer that starts out cleared. */
  method KeyFor(packet: Packet) returns (key: Key)
    requires packet.Complete()
    ensures FlowOf(packet.Hash(), key, packet.FlowColor()) == packet.Flow()
  {
    var keyData := new Byte[MAX_KEY_LEN](_ => 0);
    Create(keyData, packet.l3, packet.l4, packet.Color());
    key := keyData[..];
    LowColor(packet.Color(), IPV6);
    assert key[..KeyLen(packet.FlowColor())] == packet.FlowKey();
  }

  /** A packet and its answer have one key, yet they are two flows, because the direction is one of the
      colour bits that tell flows apart. */
  lemma DirectionsAreTwoFlows(p: Packet, q: Packet)
    requires p.Complete() && q.Complete() && p.V6() == q.V6()
    requires Bit(p.Color(), DOWNSTREAM) != Bit(q.Color(), DOWNSTREAM)
    requires Parse(q.l3, q.l4, q.V6()) == Reversed(Parse(p.l3, p.l4, p.V6()))
    ensures p.FlowKey() == q.FlowKey() && !Same(p.Flow(), q.Flow())
  {
    assert Bit(TYPE_MASK, DOWNSTREAM);
    BitAnd(p.FlowColor(), TYPE_MASK, DOWNSTREAM);
    BitAnd(q.FlowColor(), TYPE_MASK, DOWNSTREAM);
    LowColor(p.Color(), DOWNSTREAM);
    LowColor(q.Color(), DOWNSTREAM);
  }

  /** `rx_process`. A packet of an unhandled or missed flow finds the entry of its flow or makes one;
      `learn` says that the new entry is to be learned. Calls one after the other never make two
      entries for one flow. */
  method Process(table: Table, packet: Packet) returns (learn: bool)
    requires table.Valid() && packet.Complete() && NoDuplicates(table.live)
    modifies table, table.repr
    ensures table.Valid() && fresh(table.repr - old(table.repr)) && NoDuplicates(table.live)
    ensures packet.Handled() ==> Known(table.live, packet.Flow())
    ensures if packet.Handled() && !Known(old(table.live), packet.Flow())
            then NewEntry(old(table.live), table.live, packet.Flow())
            else table.live == old(table.live)
    ensures learn <==> Bit(packet.Color(), MISS) && !Known(old(table.live), packet.Flow())
  {
    var key := KeyFor(packet);
    learn := false;
    if Bit(packet.Color(), UNHANDLED) || Bit(packet.Color(), MISS) {
      var added := FindOrAdd(table, packet.Hash(), key, packet.FlowColor());
      if added {
        NewEntryKeeps(old(table.live), table.live, packet.Flow());
        if Bit(packet.Color(), MISS) {
          learn := true;
        }
      }
    }
  }

  /** One of the first n packets is a handled one of the flow. */
  ghost predicate Seen(packets: seq<FullPacket>, n: nat, f: Flow)
    requires n <= |packets|
  {
    exists i :: 0 <= i < n && SeenAt(packets, i, f)
  }

  ghost predicate SeenAt(packets: seq<FullPacket>, i: int, f: Flow)
    requires 0 <= i < |packets|
  {
    packets[i].Handled() && Same(packets[i].Flow(), f)
  }

  /** There is an entry for a flow exactly if a handled packet of that flow was seen. */
  ghost predicate Accounts(live: Flows, packets: seq<FullPacket>, n: nat)
    requires n <= |packets|
  {
    forall f: Flow :: Known(live, f) <==> Seen(packets, n, f)
  }

  lemma SeenMore(packets: seq<FullPacket>, n: nat, f: Flow)
    requires n < |packets|
    ensures Seen(packets, n + 1, f) <==> Seen(packets, n, f) || SeenAt(packets, n, f)
  {
    if SeenAt(packets, n, f) {
      assert 0 <= n < n + 1;
    }
  }

  lemma KnownMore(before: Flows, after: Flows, g: Flow, f: Flow)
    requires NewEntry(before, after, g)
    ensures Known(after, f) <==> Known(before, f) || Same(g, f)
  {
    var r :| r in after && r !in before && after == before[r := Live(g, 1)];
    if Known(before, f) {
      var x :| x in before && Same(before[x].flow, f);
      assert Same(after[x].flow, f);
    } else if Same(g, f) {
      assert Same(after[r].flow, f);
    }
  }

  /** Handling one more packet keeps the account. */
  lemma AccountsMore(before: Flows, after: Flows, packets: seq<FullPacket>, n: nat)
    requires n < |packets| && Accounts(before, packets, n)
    requires var q := packets[n];
      if q.Handled() && !Known(before, q.Flow()) then NewEntry(before, after, q.Flow()) else after == before
    ensures Accounts(after, packets, n + 1)
  {
    var q := packets[n];
    forall f: Flow
      ensures Known(after, f) <==> Seen(packets, n + 1, f)
    {
      SeenMore(packets, n, f);
      if q.Handled() && !Known(before, q.Flow()) {
        KnownMore(before, after, q.Flow(), f);
      } else if q.Handled() && Same(q.Flow(), f) {
        SameKnown(before, q.Flow(), f);
      }
    }
  }

  lemma SameKnown(live: Flows, f: Flow, g: Flow)
    requires Known(live, f) && Same(f, g)
    ensures Known(live, g)
  {
    var r :| r in live && Same(live[r].flow, f);
    assert Same(live[r].flow, g);
  }

  lemma SeenMeansPreceded(packets: seq<FullPacket>, i: nat)
    requires i < |packets|
    ensures Seen(packets, i, packets[i].Flow()) <==> exists j :: 0 <= j < i && Precedes(packets[j], packets[i])
  {
    forall j | 0 <= j < i
      ensures SeenAt(packets, j, packets[i].Flow()) <==> Precedes(packets[j], packets[i])
    {
      PrecedesMeaning(packets[j], packets[i]);
    }
  }

  /** The packets that a table sees from the start, one after the other: a learn request goes out for exactly those that
      are missed, and of a flow of which no packet was handled before. In the end each flow of a handled packet has one entry. */
  method ProcessAll(table: Table, packets: seq<FullPacket>) returns (learned: seq<bool>)
    requires table.Valid() && table.live == map[]
    modifies table, table.repr
    ensures table.Valid() && NoDuplicates(table.live) && Accounts(table.live, packets, |packets|) && |learned| == |packets|
    ensures forall i | 0 <= i < |packets| :: learned[i] <==> Learns(packets, i)
  {
    learned := [];
    assert Accounts(table.live, packets, 0);
    while |learned| < |packets|
      invariant table.Valid() && fresh(table.repr - old(table.repr)) && Served(table.live, packets, learned)
    {
      var learn := ProcessNext(table, packets, learned);
      learned := learned + [learn];
    }
  }

  /** So far a learn request went out for the packets that it should, and each flow has one entry. */
  ghost predicate Served(live: Flows, packets: seq<FullPacket>, learned: seq<bool>) {
    && |learned| <= |packets| && NoDuplicates(live) && Accounts(live, packets, |learned|)
    && forall i | 0 <= i < |learned| :: learned[i] <==> Learns(packets, i)
  }

  ghost predicate Learns(packets: seq<FullPacket>, i: nat)
    requires i < |packets|
  {
    (packets[i].color1 / 512) % 2 == 1 && !exists j :: 0 <= j < i && Precedes(packets[j], packets[i])
  }

  lemma ServedMore(before: Flows, after: Flows, packets: seq<FullPacket>, learned: seq<bool>, learn: bool)
    requires |learned| < |packets| && Served(before, packets, learned) && NoDuplicates(after)
    requires var q := packets[|learned|];
      && (learn <==> Bit(q.Color(), MISS) && !Known(before, q.Flow()))
      && if q.Handled() && !Known(before, q.Flow()) then NewEntry(before, after, q.Flow()) else after == before
    ensures Served(after, packets, learned + [learn])
  {
    var i := |learned|;
    DescriptorMeaning(packets[i]);
    SeenMeansPreceded(packets, i);
    assert Known(before, packets[i].Flow()) <==> Seen(packets, i, packets[i].Flow());
    AccountsMore(before, after, packets, i);
  }

  method ProcessNext(table: Table, packets: seq<FullPacket>, learned: seq<bool>) returns (learn: bool)
    requires table.Valid() && |learned| < |packets| && Served(table.live, packets, learned)
    modifies table, table.repr
    ensures table.Valid() && fresh(table.repr - old(table.repr)) && Served(table.live, packets, learned + [learn])
  {
    ghost var before := table.live;
    learn := Process(table, packets[|learned|]);
    ServedMore(before, table.live, packets, learned, learn);
  }
}
