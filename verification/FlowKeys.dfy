/** Flow colours and flow keys. */
module FlowKeys {
  import opened Words
  import opened Bits

  type Byte = x: int | 0 <= x < 256

  const TYPE_MASK: nat := 0xff
  const DOWNSTREAM: nat := 0
  const IPV6: nat := 1
  const MAX_KEY_LEN: nat := 40
  const IPV4_KEY_LEN: nat := 12
  const IPV6_KEY_LEN: nat := 36

  /** The colour bits that tell flows apart. */
  function TypeOf(color: nat): nat { And(color, TYPE_MASK) }

  /** How many bytes of the key a colour uses. */
  function KeyLen(color: nat): (n: nat)
    ensures n <= MAX_KEY_LEN
  {
    if Bit(color, IPV6) then IPV6_KEY_LEN else IPV4_KEY_LEN
  }

  /** Colours of one type use keys of one length. */
  lemma SameTypeSameLen(a: nat, b: nat)
    requires TypeOf(a) == TypeOf(b)
    ensures KeyLen(a) == KeyLen(b)
  {
    BitAnd(a, TYPE_MASK, IPV6);
    BitAnd(b, TYPE_MASK, IPV6);
    assert Bit(TYPE_MASK, 1);
  }

  /** A full key buffer. */
  type Key = k: seq<Byte> | |k| == MAX_KEY_LEN witness seq(MAX_KEY_LEN, _ => 0)

  /** The addresses and ports of a packet. */
  datatype Tuple = Tuple(srcIp: seq<Byte>, dstIp: seq<Byte>, srcPort: seq<Byte>, dstPort: seq<Byte>)

  function IpLen(v6: bool): nat { if v6 then 16 else 4 }

  /** Where the source address starts in the IP header. */
  function IpAt(v6: bool): nat { if v6 then 8 else 12 }

  /** The headers reach as far as the addresses and the ports. */
  predicate Headers(l3: seq<Byte>, l4: seq<Byte>, v6: bool) { |l3| >= IpAt(v6) + 2 * IpLen(v6) && |l4| >= 4 }

  predicate TupleOk(t: Tuple, v6: bool) { |t.srcIp| == |t.dstIp| == IpLen(v6) && |t.srcPort| == |t.dstPort| == 2 }

  function Parse(l3: seq<Byte>, l4: seq<Byte>, v6: bool): (t: Tuple)
    requires Headers(l3, l4, v6)
    ensures TupleOk(t, v6)
  {
    var at, n := IpAt(v6), IpLen(v6);
    Tuple(l3[at..at + n], l3[at + n..at + 2 * n], l4[..2], l4[2..4])
  }

  /** The packet that answers. */
  function Reversed(t: Tuple): Tuple { Tuple(t.dstIp, t.srcIp, t.dstPort, t.srcPort) }

  /** The key of an upstream packet. */
  function Upstream(t: Tuple): seq<Byte> { t.srcIp + t.dstIp + t.srcPort + t.dstPort }

  /** A downstream packet has the key of its reversal. */
  function KeyOf(t: Tuple, downstream: bool): seq<Byte> { Upstream(if downstream then Reversed(t) else t) }

  lemma UpstreamParts(t: Tuple, v6: bool)
    requires TupleOk(t, v6)
    ensures var n, k := IpLen(v6), Upstream(t);
      |k| == 2 * n + 4 && k[..n] == t.srcIp && k[n..2 * n] == t.dstIp && k[2 * n..2 * n + 2] == t.srcPort && k[2 * n + 2..] == t.dstPort
  {
  }

  lemma UpstreamInjective(t: Tuple, u: Tuple, v6: bool)
    requires TupleOk(t, v6) && TupleOk(u, v6) && Upstream(t) == Upstream(u)
    ensures t == u
  {
    UpstreamParts(t, v6);
    UpstreamParts(u, v6);
  }

  /** Two packets of one IP version have the same key exactly when they belong to one conversation. */
  lemma KeysTellConversationsApart(t: Tuple, d: bool, u: Tuple, e: bool, v6: bool)
    requires TupleOk(t, v6) && TupleOk(u, v6)
    ensures KeyOf(t, d) == KeyOf(u, e) <==> t == if d == e then u else Reversed(u)
  {
    if KeyOf(t, d) == KeyOf(u, e) {
      UpstreamInjective(if d then Reversed(t) else t, if e then Reversed(u) else u, v6);
    }
  }

  /** `memcpy(dst + at, src + from, n)` */
  method CopyBytes(dst: array<Byte>, at: nat, src: seq<Byte>, from: nat, n: nat)
    requires at + n <= dst.Length && from + n <= |src|
    modifies dst
    ensures dst[at..at + n] == src[from..from + n]
    ensures forall k | 0 <= k < dst.Length && !(at <= k < at + n) :: dst[k] == old(dst[k])
  {
    forall i | 0 <= i < n {
      dst[at + i] := src[from + i];
    }
  }

  /** A key is its four parts in a row. */
  lemma Assembled(d: seq<Byte>, n: nat)
    requires |d| >= 2 * n + 4
    ensures d[..2 * n + 4] == d[0..n] + d[n..2 * n] + d[2 * n..2 * n + 2] + d[2 * n + 2..2 * n + 4]
  {
  }

  /** The IPv6 branch of `fk_create`. */
  method CreateV6(dst: array<Byte>, l3: seq<Byte>, l4: seq<Byte>, downstream: bool)
    requires dst.Length == MAX_KEY_LEN && Headers(l3, l4, true)
    modifies dst
    ensures dst[..36] == KeyOf(Parse(l3, l4, true), downstream)
    ensures forall k | 36 <= k < dst.Length :: dst[k] == old(dst[k])
  {
    CopyBytes(dst, if downstream then 16 else 0, l3, 8, 16);
    CopyBytes(dst, if downstream then 0 else 16, l3, 24, 16);
    CopyBytes(dst, if downstream then 34 else 32, l4, 0, 2);
    CopyBytes(dst, if downstream then 32 else 34, l4, 2, 2);
    assert dst[0..16] == if downstream then l3[24..40] else l3[8..24];
    assert dst[16..32] == if downstream then l3[8..24] else l3[24..40];
    assert dst[32..34] == if downstream then l4[2..4] else l4[0..2];
    assert dst[34..36] == if downstream then l4[0..2] else l4[2..4];
    Assembled(dst[..], 16);
  }

  /** The IPv4 branch of `fk_create`. */
  method CreateV4(dst: array<Byte>, l3: seq<Byte>, l4: seq<Byte>, downstream: bool)
    requires dst.Length == MAX_KEY_LEN && Headers(l3, l4, false)
    modifies dst
    ensures dst[..12] == KeyOf(Parse(l3, l4, false), downstream)
    ensures forall k | 12 <= k < dst.Length :: dst[k] == old(dst[k])
  {
    CopyBytes(dst, if downstream then 4 else 0, l3, 12, 4);
    CopyBytes(dst, if downstream then 0 else 4, l3, 16, 4);
    CopyBytes(dst, if downstream then 10 else 8, l4, 0, 2);
    CopyBytes(dst, if downstream then 8 else 10, l4, 2, 2);
    assert dst[0..4] == if downstream then l3[16..20] else l3[12..16];
    assert dst[4..8] == if downstream then l3[12..16] else l3[16..20];
    assert dst[8..10] == if downstream then l4[2..4] else l4[0..2];
    assert dst[10..12] == if downstream then l4[0..2] else l4[2..4];
    Assembled(dst[..], 4);
  }

  /** The key in bytes of the headers: source and destination address, source and destination port; downstream, the
      other way round. */
  lemma KeyInHeaders(l3: seq<Byte>, l4: seq<Byte>, downstream: bool)
    requires |l4| >= 4
    ensures |l3| >= 20 ==>
              KeyOf(Parse(l3, l4, false), downstream) == if downstream then l3[16..20] + l3[12..16] + l4[2..4] + l4[..2] else l3[12..20] + l4[..4]
    ensures |l3| >= 40 ==>
              KeyOf(Parse(l3, l4, true), downstream) == if downstream then l3[24..40] + l3[8..24] + l4[2..4] + l4[..2] else l3[8..40] + l4[..4]
  {
    assert l4[..4] == l4[..2] + l4[2..4];
    if |l3| >= 20 {
      assert l3[12..20] == l3[12..16] + l3[16..20];
    }
    if |l3| >= 40 {
      assert l3[8..40] == l3[8..24] + l3[24..40];
    }
  }

  /** What the two bits of a colour are, and how long its key is. */
  lemma ColorBits(color: nat)
    ensures Bit(color, IPV6) == ((color / 2) % 2 == 1) && Bit(color, DOWNSTREAM) == (color % 2 == 1)
    ensures KeyLen(color) == if (color / 2) % 2 == 1 then 36 else 12
  {
    assert Bit(color, 1) == Bit(color / 2, 0);
  }

  /** The low 8 bits of a colour tell flows apart. */
  lemma TypeMeaning(color: nat)
    ensures TypeOf(color) == color % 256
  {
    assert Pow2(8) == 256;
    MaskIsRemainder(color, 8);
  }

  /** `fk_create` writes the key of the packet, whose length is that of the colour, and nothing else. */
  method Create(dst: array<Byte>, l3: seq<Byte>, l4: seq<Byte>, color: nat)
    requires dst.Length == 40 && Headers(l3, l4, Bit(color, IPV6))
    modifies dst
    ensures dst[..KeyLen(color)] == KeyOf(Parse(l3, l4, Bit(color, IPV6)), Bit(color, DOWNSTREAM))
    ensures (color / 2) % 2 == 0 ==>
              dst[..12] == if color % 2 == 1 then l3[16..20] + l3[12..16] + l4[2..4] + l4[..2] else l3[12..20] + l4[..4]
    ensures (color / 2) % 2 == 1 ==>
              |l3| >= 40 && dst[..36] == if color % 2 == 1 then l3[24..40] + l3[8..24] + l4[2..4] + l4[..2] else l3[8..40] + l4[..4]
    ensures forall k | (if (color / 2) % 2 == 1 then 36 else 12) <= k < 40 :: dst[k] == old(dst[k])
  {
    ColorBits(color);
    KeyInHeaders(l3, l4, Bit(color, DOWNSTREAM));
    if Bit(color, IPV6) {
      CreateV6(dst, l3, l4, Bit(color, DOWNSTREAM));
    } else {
      CreateV4(dst, l3, l4, Bit(color, DOWNSTREAM));
    }
  }
}
