/** The order in which headers can come: which may follow which, in every frame. */
module HeaderOrder {
  import opened Bytes
  import opened PacketParser
  import opened ParserBounds

  predicate LinkLevel(e: Event) { e.Ether? || e.Vlan? }

  predicate IpLevel(e: Event) { e.Ipv4? || e.Ipv6? || e.Ext? || e.Frag? || e.Ah? }

  /** The ether type a link-level header announces. */
  function TypeOf(m: Memory, e: Event): int
    requires LinkLevel(e)
  {
    if e.Ether? then m.U16(e.at + 12) else m.U16(e.at + 2)
  }

  /** The protocol number an IP-level header announces. */
  function NextOf(m: Memory, e: Event): int
    requires IpLevel(e)
  {
    if e.Ipv4? then Ipv4Protocol(m, e.at) else if e.Ipv6? then Ipv6NextHeader(m, e.at) else m.At(e.at)
  }

  /** b comes right after a only in these ways. */
  predicate Follows(m: Memory, a: Event, b: Event) {
    match b
    case Ether(_) => false
    case Vlan(_) => LinkLevel(a) && TypeOf(m, a) == VLAN_TYPE
    case Arp(_) => LinkLevel(a) && TypeOf(m, a) == ARP_TYPE
    case Lldp(_, _) => LinkLevel(a) && TypeOf(m, a) == LLDP_TYPE
    case Ipv4(_, _) => LinkLevel(a) && TypeOf(m, a) == IPV4_TYPE
    case Ipv6(_, _) => LinkLevel(a) && TypeOf(m, a) == IPV6_TYPE
    case Ext(_, _) => IpLevel(a) && IsExtProtocol(NextOf(m, a))
    case Frag(_, _) => IpLevel(a) && NextOf(m, a) == FRAGMENT
    case Ah(_, _) => IpLevel(a) && NextOf(m, a) == AUTHENTICATION
    case Icmp4(_, _, _) => IpLevel(a) && NextOf(m, a) == ICMPV4
    case Icmp6(_, _, _) => IpLevel(a) && NextOf(m, a) == ICMPV6
    case Tcp(_, _) => IpLevel(a) && NextOf(m, a) == TCP
    case Udp(_, _) => IpLevel(a) && NextOf(m, a) == UDP
    case Payload(_, _) => LinkLevel(a) || IpLevel(a) || a.Tcp? || a.Udp?
  }

  lemma FoundAtSuccessorFollows(m: Memory, a: Event, last: int)
    requires Found(m, Successor(m, a, last)) != []
    ensures Follows(m, a, Found(m, Successor(m, a, last))[0])
  {
  }

  lemma HeadersFollow(m: Memory, i: nat)
    requires i + 1 < |Headers(m)|
    ensures Follows(m, Headers(m)[i], Headers(m)[i + 1])
  {
    var last := ChainLinks(m, AtEther(0, |m.frame|), i);
    FoundAtSuccessorFollows(m, Headers(m)[i], last);
  }

  /** The layers in which headers come; only tags and extension headers repeat. */
  function Phase(e: Event): nat {
    match e
    case Ether(_) => 0
    case Vlan(_) => 1
    case Arp(_) => 2
    case Lldp(_, _) => 2
    case Ipv4(_, _) => 2
    case Ipv6(_, _) => 2
    case Ext(_, _) => 3
    case Frag(_, _) => 3
    case Ah(_, _) => 3
    case Payload(_, _) => 5
    case _ => 4
  }

  predicate InOrder(a: Event, b: Event) {
    Phase(a) < Phase(b) || (Phase(a) == Phase(b) && (Phase(a) == 1 || Phase(a) == 3))
  }

  lemma {:induction false} HeadersInOrder(m: Memory, i: nat, j: nat)
    requires i < j < |Headers(m)|
    ensures InOrder(Headers(m)[i], Headers(m)[j])
    decreases j - i
  {
    HeadersFollow(m, j - 1);
    if i + 1 < j {
      HeadersInOrder(m, i, j - 1);
    }
  }

  lemma FirstIsEther(m: Memory)
    ensures Headers(m) != [] ==> Headers(m)[0].Ether?
  {
  }

  /** What comes behind a header is what is found at its successor. */
  lemma {:induction false} ChainBehind(m: Memory, p: Position, i: nat) returns (last: int)
    requires i < |Chain(m, p)|
    ensures Chain(m, p)[i + 1..] == Chain(m, Successor(m, Chain(m, p)[i], last))
    decreases i
  {
    var q := Successor(m, Found(m, p)[0], LastOf(p));
    assert Chain(m, p) == [Found(m, p)[0]] + Chain(m, q);
    if i == 0 {
      last := LastOf(p);
    } else {
      last := ChainBehind(m, q, i - 1);
      assert Chain(m, p)[i + 1..] == Chain(m, q)[i..];
    }
  }

  /**
   * The fragment offset of IPv6 is never looked at. What a fragment carries is handed out as it
   * is if and only if its protocol is none that the walk knows, be it the first fragment or a
   * later one, whose octets are no header (section 4.5 of RFC 8200).
   */
  lemma Ipv6FragmentIsPayloadIff(m: Memory, i: nat)
    requires i < |Headers(m)| && Headers(m)[i].Frag?
    ensures var e := Headers(m)[i];
            Headers(m)[i + 1..] == [Payload(e.at + 8, e.last)] <==>
            m.At(e.at) !in {0, 1, 6, 17, 43, 44, 51, 58, 59, 60, 132}
  {
    var e := Headers(m)[i];
    var last := ChainBehind(m, AtEther(0, |m.frame|), i);
    hide Headers, Memory.At;
    var p := Successor(m, e, last);
    assert Chain(m, AtEnd) == [];
    if Found(m, p) != [] {
      assert Chain(m, p)[0] == Found(m, p)[0];
    }
  }
}
