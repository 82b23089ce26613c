/**
 * The packet walk. Each parse function takes the window [first, last) of the frame's memory,
 * reports at most one header to the callback f, and hands over to the next layer while f
 * returns true. Windows are pairs of integers: a header that lies about its length can put
 * last before first, or beyond the end of the frame.
 */
module PacketParser {
  import opened Bytes

  datatype Icmp4Kind = Icmp4Plain | Icmp4Echo | Icmp4Redirect | Icmp4Timestamp | Icmp4AddressMask
  datatype Icmp6Kind = Icmp6Plain | NeighborSolicitation | NeighborAdvertisement

  /** What the callback is given: a header object (its offsets into the frame) or a payload range. */
  datatype Event =
    | Ether(at: int)
    | Vlan(at: int)
    | Arp(at: int)
    | Lldp(at: int, last: int)
    | Ipv4(at: int, last: int)
    | Ipv6(at: int, last: int)
    | Ext(at: int, last: int)
    | Frag(at: int, last: int)
    | Ah(at: int, last: int)
    | Icmp4(kind4: Icmp4Kind, at: int, last: int)
    | Icmp6(kind6: Icmp6Kind, at: int, last: int)
    | Tcp(at: int, last: int)
    | Udp(at: int, last: int)
    | Payload(first: int, last: int)

  const ETHER_LENGTH := 14
  const MIN_ETHER_TYPE := 0x0600
  const VLAN_TYPE := 0x8100
  const VLAN_LENGTH := 4
  const ARP_TYPE := 0x0806
  const ARP_MIN_LENGTH := 8
  const LLDP_TYPE := 0x88CC
  const IPV4_TYPE := 0x0800
  const IPV4_MIN_LENGTH := 20
  const IPV6_TYPE := 0x86dd
  const IPV6_LENGTH := 40
  const EXT_MIN_LENGTH := 8
  const FRAG_LENGTH := 8
  const AH_MIN_LENGTH := 12
  const TCP_MIN_LENGTH := 20
  const UDP_LENGTH := 8
  const ICMP_LENGTH := 4
  const ND_LENGTH := 24

  const HOP_BY_HOP := 0
  const ICMPV4 := 1
  const TCP := 6
  const UDP := 17
  const ROUTING := 43
  const FRAGMENT := 44
  const AUTHENTICATION := 51
  const ICMPV6 := 58
  const NO_NEXT := 59
  const DESTINATION := 60
  const SCTP := 132

  // Length and window accessors of the header objects.

  function ArpLength(m: Memory, at: int): int {
    ARP_MIN_LENGTH + m.At(at + 4) * 2 + m.At(at + 5) * 2
  }

  function Ipv4Length(m: Memory, at: int): int {
    m.At(at) % 16 * 4
  }

  function Ipv4FragmentOffset(m: Memory, at: int): int {
    m.U16(at + 6) % 0x2000
  }

  function Ipv4Protocol(m: Memory, at: int): int {
    m.At(at + 9)
  }

  function Ipv4End(m: Memory, at: int, last: int): int {
    var totalLength := m.U16(at + 2);
    if last - at < totalLength then last else at + totalLength
  }

  function Ipv6NextHeader(m: Memory, at: int): int {
    m.At(at + 6)
  }

  /** The comparison is with the payload length alone, not with header plus payload. */
  function Ipv6End(m: Memory, at: int, last: int): int {
    var payloadLength := m.U16(at + 4);
    if payloadLength == 0 || last - at < payloadLength then last else at + IPV6_LENGTH + payloadLength
  }

  function ExtLength(m: Memory, at: int): int {
    (m.At(at + 1) + 1) * 8
  }

  function AhLength(m: Memory, at: int): int {
    (m.At(at + 1) + 2) * 4
  }

  function TcpLength(m: Memory, at: int): int {
    m.At(at + 12) / 16 * 4
  }

  function UdpEnd(m: Memory, at: int, last: int): int {
    var length := m.U16(at + 4);
    if length == 0 || last - at < length then last else at + length
  }

  function Icmp4KindOf(m: Memory, first: int, last: int): Icmp4Kind {
    var ty := m.At(first);
    if (ty == 0 || ty == 8) && last - first >= 8 then Icmp4Echo
    else if ty == 5 && last - first >= 8 then Icmp4Redirect
    else if (ty == 13 || ty == 14) && last - first >= 20 then Icmp4Timestamp
    else if (ty == 17 || ty == 18) && last - first >= 12 then Icmp4AddressMask
    else Icmp4Plain
  }

  function Icmp6KindOf(m: Memory, first: int, last: int): Icmp6Kind {
    var ty := m.At(first);
    if ty == 135 && last - first >= ND_LENGTH then NeighborSolicitation
    else if ty == 136 && last - first >= ND_LENGTH then NeighborAdvertisement
    else Icmp6Plain
  }

  // -------------------------------------------------------------------------------------
  // The walk, with the caller's stateful callback
  // -------------------------------------------------------------------------------------

  type Callback<!S> = (S, Event) -> (S, bool)

  /** The callback's final state and the calls made to it, in order. */
  datatype Outcome<S> = Outcome(state: S, calls: seq<Event>) {
    function After(e: Event): Outcome<S> {
      Outcome(state, [e] + calls)
    }
  }

  function Width(first: int, last: int): nat {
    if first < last then last - first else 0
  }

  /** A call whose result the parser ignores. */
  function LastCall<S>(f: Callback<S>, s: S, e: Event): Outcome<S> {
    Outcome(f(s, e).0, [e])
  }

  function ForEachHeader<S>(m: Memory, f: Callback<S>, s: S): Outcome<S> {
    EtherParse(m, 0, |m.frame|, f, s)
  }

  function EtherParse<S>(m: Memory, first: int, last: int, f: Callback<S>, s: S): Outcome<S> {
    if last - first < ETHER_LENGTH then Outcome(s, [])
    else
      var ty := m.U16(first + 12);
      if ty >= MIN_ETHER_TYPE then
        var e := Ether(first);
        var (s', more) := f(s, e);
        if more then EtherNext(m, ty, first + ETHER_LENGTH, last, f, s').After(e) else Outcome(s', [e])
      else Outcome(s, []) // 802.3 length fields are not followed
  }

  function EtherNext<S>(m: Memory, ty: int, first: int, last: int, f: Callback<S>, s: S): Outcome<S>
    decreases Width(first, last), 1
  {
    if ty == IPV4_TYPE then Ipv4Parse(m, first, last, f, s)
    else if ty == ARP_TYPE then ArpParse(m, first, last, f, s)
    else if ty == VLAN_TYPE then VlanParse(m, first, last, f, s)
    else if ty == IPV6_TYPE then Ipv6Parse(m, first, last, f, s)
    else if ty == LLDP_TYPE then LastCall(f, s, Lldp(first, last))
    else LastCall(f, s, Payload(first, last))
  }

  function VlanParse<S>(m: Memory, first: int, last: int, f: Callback<S>, s: S): Outcome<S>
    decreases Width(first, last), 0
  {
    if last - first < VLAN_LENGTH then Outcome(s, [])
    else
      var e := Vlan(first);
      var (s', more) := f(s, e);
      if more then EtherNext(m, m.U16(first + 2), first + VLAN_LENGTH, last, f, s').After(e)
      else Outcome(s', [e])
  }

  function ArpParse<S>(m: Memory, first: int, last: int, f: Callback<S>, s: S): Outcome<S> {
    if last - first < ARP_MIN_LENGTH || last - first < ArpLength(m, first) then Outcome(s, [])
    else LastCall(f, s, Arp(first))
  }

  function Ipv4Parse<S>(m: Memory, first: int, last: int, f: Callback<S>, s: S): Outcome<S> {
    if last - first < IPV4_MIN_LENGTH then Outcome(s, [])
    else
      var e := Ipv4(first, last);
      var (s', more) := f(s, e);
      if !more || last - first < Ipv4Length(m, first) then Outcome(s', [e])
      else
        var next, end := first + Ipv4Length(m, first), Ipv4End(m, first, last);
        if Ipv4FragmentOffset(m, first) == 0
        then IpNext(m, Ipv4Protocol(m, first), next, end, f, s').After(e)
        else LastCall(f, s', Payload(next, end)).After(e)
  }

  function Ipv6Parse<S>(m: Memory, first: int, last: int, f: Callback<S>, s: S): Outcome<S> {
    if last - first < IPV6_LENGTH then Outcome(s, [])
    else
      var e := Ipv6(first, last);
      var (s', more) := f(s, e);
      if more
      then IpNext(m, Ipv6NextHeader(m, first), first + IPV6_LENGTH, Ipv6End(m, first, last), f, s').After(e)
      else Outcome(s', [e])
  }

  function IpNext<S>(m: Memory, protocol: int, first: int, last: int, f: Callback<S>, s: S): Outcome<S>
    decreases Width(first, last), 1
  {
    if protocol == HOP_BY_HOP || protocol == ROUTING || protocol == DESTINATION then ExtParse(m, first, last, f, s)
    else if protocol == ICMPV4 then Icmp4Parse(m, first, last, f, s)
    else if protocol == TCP then TcpParse(m, first, last, f, s)
    else if protocol == UDP then UdpParse(m, first, last, f, s)
    else if protocol == FRAGMENT then FragParse(m, first, last, f, s)
    else if protocol == AUTHENTICATION then AhParse(m, first, last, f, s)
    else if protocol == ICMPV6 then Icmp6Parse(m, first, last, f, s)
    else if protocol == NO_NEXT || protocol == SCTP then Outcome(s, [])
    else LastCall(f, s, Payload(first, last))
  }

  function ExtParse<S>(m: Memory, first: int, last: int, f: Callback<S>, s: S): Outcome<S>
    decreases Width(first, last), 0
  {
    if last - first < EXT_MIN_LENGTH then Outcome(s, [])
    else
      var e := Ext(first, last);
      var (s', more) := f(s, e);
      if !more || last - first < ExtLength(m, first) then Outcome(s', [e])
      else IpNext(m, m.At(first), first + ExtLength(m, first), last, f, s').After(e)
  }

  function FragParse<S>(m: Memory, first: int, last: int, f: Callback<S>, s: S): Outcome<S>
    decreases Width(first, last), 0
  {
    if last - first < FRAG_LENGTH then Outcome(s, [])
    else
      var e := Frag(first, last);
      var (s', more) := f(s, e);
      if more then IpNext(m, m.At(first), first + FRAG_LENGTH, last, f, s').After(e) else Outcome(s', [e])
  }

  function AhParse<S>(m: Memory, first: int, last: int, f: Callback<S>, s: S): Outcome<S>
    decreases Width(first, last), 0
  {
    if last - first < AH_MIN_LENGTH then Outcome(s, [])
    else
      var e := Ah(first, last);
      var (s', more) := f(s, e);
      if !more || last - first < AhLength(m, first) then Outcome(s', [e])
      else IpNext(m, m.At(first), first + AhLength(m, first), last, f, s').After(e)
  }

  function Icmp4Parse<S>(m: Memory, first: int, last: int, f: Callback<S>, s: S): Outcome<S> {
    if last - first < ICMP_LENGTH then Outcome(s, [])
    else LastCall(f, s, Icmp4(Icmp4KindOf(m, first, last), first, last))
  }

  function Icmp6Parse<S>(m: Memory, first: int, last: int, f: Callback<S>, s: S): Outcome<S> {
    if last - first < ICMP_LENGTH then Outcome(s, [])
    else LastCall(f, s, Icmp6(Icmp6KindOf(m, first, last), first, last))
  }

  function TcpParse<S>(m: Memory, first: int, last: int, f: Callback<S>, s: S): Outcome<S> {
    if last - first < TCP_MIN_LENGTH then Outcome(s, [])
    else
      var e := Tcp(first, last);
      var (s', more) := f(s, e);
      if more && last - first >= TcpLength(m, first)
      then LastCall(f, s', Payload(first + TcpLength(m, first), last)).After(e)
      else Outcome(s', [e])
  }

  function UdpParse<S>(m: Memory, first: int, last: int, f: Callback<S>, s: S): Outcome<S> {
    if last - first < UDP_LENGTH then Outcome(s, [])
    else
      var e := Udp(first, last);
      var (s', more) := f(s, e);
      if more then LastCall(f, s', Payload(first + UDP_LENGTH, UdpEnd(m, first, last))).After(e)
      else Outcome(s', [e])
  }

  // -------------------------------------------------------------------------------------
  // Reference: the header chain of a frame, with no callback at all
  // -------------------------------------------------------------------------------------

  /** Where in the frame's header chain we are. */
  datatype Position =
    | AtEther(first: int, last: int)
    | AtEtherNext(ty: int, first: int, last: int)
    | AtIpNext(protocol: int, first: int, last: int)
    | AtPayload(first: int, last: int)
    | AtEnd

  predicate IsExtProtocol(protocol: int) {
    protocol == HOP_BY_HOP || protocol == ROUTING || protocol == DESTINATION
  }

  /** The header or payload found at a position, if there is one and it fits its window. */
  function Found(m: Memory, p: Position): seq<Event> {
    match p
    case AtEther(first, last) =>
      if last - first >= ETHER_LENGTH && m.U16(first + 12) >= MIN_ETHER_TYPE then [Ether(first)] else []
    case AtEtherNext(ty, first, last) =>
      var width := last - first;
      if ty == IPV4_TYPE then (if width >= IPV4_MIN_LENGTH then [Ipv4(first, last)] else [])
      else if ty == ARP_TYPE then
        (if width >= ARP_MIN_LENGTH && width >= ArpLength(m, first) then [Arp(first)] else [])
      else if ty == VLAN_TYPE then (if width >= VLAN_LENGTH then [Vlan(first)] else [])
      else if ty == IPV6_TYPE then (if width >= IPV6_LENGTH then [Ipv6(first, last)] else [])
      else if ty == LLDP_TYPE then [Lldp(first, last)]
      else [Payload(first, last)]
    case AtIpNext(protocol, first, last) =>
      var width := last - first;
      if IsExtProtocol(protocol) then (if width >= EXT_MIN_LENGTH then [Ext(first, last)] else [])
      else if protocol == ICMPV4 then
        (if width >= ICMP_LENGTH then [Icmp4(Icmp4KindOf(m, first, last), first, last)] else [])
      else if protocol == TCP then (if width >= TCP_MIN_LENGTH then [Tcp(first, last)] else [])
      else if protocol == UDP then (if width >= UDP_LENGTH then [Udp(first, last)] else [])
      else if protocol == FRAGMENT then (if width >= FRAG_LENGTH then [Frag(first, last)] else [])
      else if protocol == AUTHENTICATION then (if width >= AH_MIN_LENGTH then [Ah(first, last)] else [])
      else if protocol == ICMPV6 then
        (if width >= ICMP_LENGTH then [Icmp6(Icmp6KindOf(m, first, last), first, last)] else [])
      else if protocol == NO_NEXT || protocol == SCTP then []
      else [Payload(first, last)]
    case AtPayload(first, last) => [Payload(first, last)]
    case AtEnd => []
  }

  /** Where a header says its successor is, given the end of the frame's data. */
  function Successor(m: Memory, e: Event, last: int): Position {
    match e
    case Ether(at) => AtEtherNext(m.U16(at + 12), at + ETHER_LENGTH, last)
    case Vlan(at) => AtEtherNext(m.U16(at + 2), at + VLAN_LENGTH, last)
    case Ipv4(at, end) =>
      if end - at < Ipv4Length(m, at) then AtEnd
      else if Ipv4FragmentOffset(m, at) == 0
      then AtIpNext(Ipv4Protocol(m, at), at + Ipv4Length(m, at), Ipv4End(m, at, end))
      else AtPayload(at + Ipv4Length(m, at), Ipv4End(m, at, end))
    case Ipv6(at, end) => AtIpNext(Ipv6NextHeader(m, at), at + IPV6_LENGTH, Ipv6End(m, at, end))
    case Ext(at, end) =>
      if end - at < ExtLength(m, at) then AtEnd else AtIpNext(m.At(at), at + ExtLength(m, at), end)
    case Frag(at, end) => AtIpNext(m.At(at), at + FRAG_LENGTH, end)
    case Ah(at, end) =>
      if end - at < AhLength(m, at) then AtEnd else AtIpNext(m.At(at), at + AhLength(m, at), end)
    case Tcp(at, end) =>
      if end - at < TcpLength(m, at) then AtEnd else AtPayload(at + TcpLength(m, at), end)
    case Udp(at, end) => AtPayload(at + UDP_LENGTH, UdpEnd(m, at, end))
    case _ => AtEnd
  }

  function Layer(p: Position): nat {
    match p
    case AtEther(_, _) => 4
    case AtEtherNext(_, _, _) => 3
    case AtIpNext(_, _, _) => 2
    case AtPayload(_, _) => 1
    case AtEnd => 0
  }

  function WidthOf(p: Position): nat {
    if p.AtEnd? then 0 else Width(p.first, p.last)
  }

  function LastOf(p: Position): int {
    if p.AtEnd? then 0 else p.last
  }

  /** The headers from a position on: the first one, then those from its successor on. */
  function Chain(m: Memory, p: Position): seq<Event>
    decreases Layer(p), WidthOf(p)
  {
    if Found(m, p) == [] then []
    else
      var e := Found(m, p)[0];
      SuccessorIsSmaller(m, p);
      [e] + Chain(m, Successor(m, e, LastOf(p)))
  }

  function Headers(m: Memory): seq<Event> {
    Chain(m, AtEther(0, |m.frame|))
  }

  /** Offering the events to the callback in order, up to and including its first refusal. */
  function Offer<S>(events: seq<Event>, f: Callback<S>, s: S): Outcome<S> {
    if events == [] then Outcome(s, [])
    else
      var (s', more) := f(s, events[0]);
      if more then Offer(events[1..], f, s').After(events[0]) else Outcome(s', [events[0]])
  }

  // -------------------------------------------------------------------------------------
  // The walk is the chain, offered to the callback until it refuses
  // -------------------------------------------------------------------------------------

  /** What a callback's answer to the first event means for the state it ends in. */
  lemma OfferStep<S>(events: seq<Event>, f: Callback<S>, s: S)
    ensures events == [] ==> Offer(events, f, s).state == s
    ensures events != [] ==>
              var (s', more) := f(s, events[0]);
              Offer(events, f, s).state == if more then Offer(events[1..], f, s').state else s'
  {
  }

  lemma OfferCons<S>(e: Event, rest: seq<Event>, f: Callback<S>, s: S)
    ensures Offer([e] + rest, f, s) ==
            var (s', more) := f(s, e);
            if more then Offer(rest, f, s').After(e) else Outcome(s', [e])
  {
    assert ([e] + rest)[1..] == rest;
  }

  /** One step of the comparison: the walk reports e and goes on as Offer would. */
  lemma ChainStep<S>(m: Memory, p: Position, e: Event, f: Callback<S>, s: S)
    requires Found(m, p) == [e]
    ensures Offer(Chain(m, p), f, s) ==
            var (s', more) := f(s, e);
            if more then Offer(Chain(m, Successor(m, e, LastOf(p))), f, s').After(e) else Outcome(s', [e])
  {
    OfferCons(e, Chain(m, Successor(m, e, LastOf(p))), f, s);
  }

  /** The walk from a position on, whichever parse function is in charge there. */
  function WalkFrom<S>(m: Memory, p: Position, f: Callback<S>, s: S): Outcome<S> {
    match p
    case AtEther(first, last) => EtherParse(m, first, last, f, s)
    case AtEtherNext(ty, first, last) => EtherNext(m, ty, first, last, f, s)
    case AtIpNext(protocol, first, last) => IpNext(m, protocol, first, last, f, s)
    case AtPayload(first, last) => LastCall(f, s, Payload(first, last))
    case AtEnd => Outcome(s, [])
  }

  /** What every parse function does: report what it finds, and go on at its successor if told to. */
  ghost predicate StepsTo<S>(r: Outcome<S>, m: Memory, p: Position, f: Callback<S>, s: S) {
    if Found(m, p) == [] then r == Outcome(s, [])
    else
      var e := Found(m, p)[0];
      var (s', more) := f(s, e);
      r == if more then WalkFrom(m, Successor(m, e, LastOf(p)), f, s').After(e) else Outcome(s', [e])
  }

  lemma IpNextSteps<S>(m: Memory, protocol: int, first: int, last: int, f: Callback<S>, s: S)
    ensures StepsTo(IpNext(m, protocol, first, last, f, s), m, AtIpNext(protocol, first, last), f, s)
  {
  }

  lemma EtherNextSteps<S>(m: Memory, ty: int, first: int, last: int, f: Callback<S>, s: S)
    ensures StepsTo(EtherNext(m, ty, first, last, f, s), m, AtEtherNext(ty, first, last), f, s)
  {
  }

  lemma WalkSteps<S>(m: Memory, p: Position, f: Callback<S>, s: S)
    ensures StepsTo(WalkFrom(m, p, f, s), m, p, f, s)
  {
    match p
    case AtEtherNext(ty, first, last) => EtherNextSteps(m, ty, first, last, f, s);
    case AtIpNext(protocol, first, last) => IpNextSteps(m, protocol, first, last, f, s);
    case _ =>
  }

  /** Headers come in layers, and within a layer the window shrinks: every walk ends. */
  lemma SuccessorIsSmaller(m: Memory, p: Position)
    requires Found(m, p) != []
    ensures var q := Successor(m, Found(m, p)[0], LastOf(p));
            Layer(q) < Layer(p) || (Layer(q) == Layer(p) && WidthOf(q) < WidthOf(p))
  {
  }

  lemma {:induction false} WalkFromIsChain<S>(m: Memory, p: Position, f: Callback<S>, s: S)
    ensures WalkFrom(m, p, f, s) == Offer(Chain(m, p), f, s)
    decreases Layer(p), WidthOf(p)
  {
    WalkSteps(m, p, f, s);
    if Found(m, p) != [] {
      var e := Found(m, p)[0];
      ChainStep(m, p, e, f, s);
      SuccessorIsSmaller(m, p);
      WalkFromIsChain(m, Successor(m, e, LastOf(p)), f, f(s, e).0);
    }
  }

  /** For every frame and every callback, the walk is the header chain cut at the first refusal. */
  lemma WalkIsTruncatedChain<S>(m: Memory, f: Callback<S>, s: S)
    ensures ForEachHeader(m, f, s) == Offer(Headers(m), f, s)
  {
    WalkFromIsChain(m, AtEther(0, |m.frame|), f, s);
  }

  /** The callback's state after it has been given the events, whatever it answered. */
  function Fold<S>(events: seq<Event>, f: Callback<S>, s: S): S {
    if events == [] then s else Fold(events[1..], f, f(s, events[0]).0)
  }

  /** The answer to event k, after the earlier ones. */
  function Answer<S>(events: seq<Event>, f: Callback<S>, s: S, k: nat): bool
    requires k < |events|
  {
    f(Fold(events[..k], f, s), events[k]).1
  }

  lemma {:induction false} FoldCons<S>(events: seq<Event>, f: Callback<S>, s: S, k: nat)
    requires 0 < k <= |events|
    ensures Fold(events[..k], f, s) == Fold(events[1..][..k - 1], f, f(s, events[0]).0)
  {
    assert events[..k][1..] == events[1..][..k - 1];
  }

  lemma {:induction false} OfferIsPrefix<S>(events: seq<Event>, f: Callback<S>, s: S)
    ensures var r := Offer(events, f, s);
            && r.calls <= events
            && r.state == Fold(r.calls, f, s)
            && (forall k :: 0 <= k < |r.calls| - 1 ==> Answer(events, f, s, k))
            && (r.calls != events ==> r.calls != [] && !Answer(events, f, s, |r.calls| - 1))
  {
    var r := Offer(events, f, s);
    if events == [] {
    } else if !f(s, events[0]).1 {
      assert events[..0] == [];
      assert r.calls[1..] == [];
    } else {
      var s' := f(s, events[0]).0;
      var r' := Offer(events[1..], f, s');
      OfferIsPrefix(events[1..], f, s');
      assert r.calls == [events[0]] + r'.calls && r.calls[1..] == r'.calls;
      assert events[..0] == [];
      forall k | 0 < k <= |r.calls| && k < |events|
        ensures Answer(events, f, s, k) == Answer(events[1..], f, s', k - 1)
      {
        FoldCons(events, f, s, k);
      }
      assert events == [events[0]] + events[1..];
    }
  }

  /**
   * Stopping early is truncation: the calls are a prefix of the header chain, every call but
   * the last was answered true, and the chain is cut short only where the callback refused.
   */
  lemma EarlyStopIsTruncation<S>(m: Memory, f: Callback<S>, s: S)
    ensures var r := ForEachHeader(m, f, s);
            && r.calls <= Headers(m)
            && r.state == Fold(r.calls, f, s)
            && (forall k :: 0 <= k < |r.calls| - 1 ==> Answer(Headers(m), f, s, k))
            && (r.calls != Headers(m) ==> r.calls != [] && !Answer(Headers(m), f, s, |r.calls| - 1))
  {
    WalkIsTruncatedChain(m, f, s);
    OfferIsPrefix(Headers(m), f, s);
  }
}
