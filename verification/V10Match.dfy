/**
 * Building an OpenFlow 1.0 match: a callback that holds a reference to the match and stops the
 * walk at the first IPv6 header.
 */
module V10Match {
  import opened Bytes
  import opened PacketParser
  import opened HeaderOrder
  import opened PacketRoundTrip
  import opened AddressCopies

  datatype Kind =
    | InPort | EthDst | EthSrc | EthType | VlanVid | VlanPcp | ArpSpa | ArpTpa
    | IpProto | Ipv4Src | Ipv4Dst | Icmpv4Type | Icmpv4Code | TpSrc | TpDst

  datatype Value = Number(n: int) | Octets(octets: seq<Byte>)

  /** At most one value per field: setting a field replaces its value. */
  type Match = map<Kind, Value>

  /** The fields one callback sets. */
  function SetsOf(m: Memory, e: Event): Match {
    match e
    case Ether(at) =>
      map[EthDst := Octets(m.Range(at, at + 6)), EthSrc := Octets(m.Range(at + 6, at + 12)),
          EthType := Number(m.U16(at + 12))]
    case Vlan(at) => map[VlanVid := Number(m.U16(at) % 0x1000), VlanPcp := Number(m.U16(at) / 32 % 0x100)]
    case Arp(at) =>
      var h, p := m.At(at + 4), m.At(at + 5);
      map[ArpSpa := Octets(Copied(ArpRange(m, at, h, p), V4_LENGTH)),
          ArpTpa := Octets(Copied(ArpRange(m, at, 2 * h + p, p), V4_LENGTH))]
    case Ipv4(at, _) =>
      map[IpProto := Number(Ipv4Protocol(m, at)), Ipv4Src := Octets(m.Range(at + 12, at + 16)),
          Ipv4Dst := Octets(m.Range(at + 16, at + 20))]
    case Icmp4(_, at, _) => map[Icmpv4Type := Number(m.At(at)), Icmpv4Code := Number(m.At(at + 1))]
    case Udp(at, _) => map[TpSrc := Number(m.U16(at)), TpDst := Number(m.U16(at + 2))]
    case Tcp(at, _) => map[TpSrc := Number(m.U16(at)), TpDst := Number(m.U16(at + 2))]
    case _ => map[]
  }

  predicate Continues(e: Event) {
    !(e.Ipv6? || e.Ext? || e.Frag? || e.Icmp6?)
  }

  function V10Callback(m: Memory): Callback<Match> {
    (fields, e) => (fields + SetsOf(m, e), Continues(e))
  }

  class V10MatchBuilder {
    var fields: Match
    /** Whether all copies of addresses so far have stayed in their arrays. */
    var intact: bool

    constructor ()
      ensures fields == map[] && intact
    {
      fields, intact := map[], true;
    }

    method Set(kind: Kind, value: Value)
      modifies this`fields
      ensures fields == old(fields)[kind := value]
    {
      fields := fields[kind := value];
    }

    method OnEther(m: Memory, at: int)
      modifies this`fields
      ensures fields == old(fields) + SetsOf(m, Ether(at))
    {
      Set(EthDst, Octets(m.Range(at, at + 6)));
      Set(EthSrc, Octets(m.Range(at + 6, at + 12)));
      Set(EthType, Number(m.U16(at + 12)));
    }

    /** Copy an address into an array, and set the field to what the array holds. */
    method SetAddress(kind: Kind, octets: seq<Byte>)
      modifies this
      ensures fields == old(fields)[kind := Octets(Copied(octets, V4_LENGTH))]
      ensures intact == (old(intact) && |octets| <= V4_LENGTH)
    {
      var bytes, fits := CopyInto(octets, V4_LENGTH);
      intact := intact && fits;
      Set(kind, Octets(bytes[..]));
    }

    method OnArp(m: Memory, at: int)
      modifies this
      ensures fields == old(fields) + SetsOf(m, Arp(at))
      ensures intact == (old(intact) && ArpCopiesFit(m, at, false))
    {
      hide Memory.At, Memory.U16, ArpRange, Copied;
      var h: int, p: int := m.At(at + 4), m.At(at + 5);
      SetAddress(ArpSpa, ArpRange(m, at, h, p));
      SetAddress(ArpTpa, ArpRange(m, at, 2 * h + p, p));
    }

    method OnIpv4(m: Memory, at: int, last: int)
      modifies this`fields
      ensures fields == old(fields) + SetsOf(m, Ipv4(at, last))
    {
      Set(IpProto, Number(Ipv4Protocol(m, at)));
      Set(Ipv4Src, Octets(m.Range(at + 12, at + 16)));
      Set(Ipv4Dst, Octets(m.Range(at + 16, at + 20)));
    }

    method SetPair(first: Kind, x: int, second: Kind, y: int)
      modifies this`fields
      ensures fields == old(fields) + map[first := Number(x), second := Number(y)]
    {
      Set(first, Number(x));
      Set(second, Number(y));
    }

    /** The overloaded call operator. */
    method Call(m: Memory, e: Event) returns (more: bool)
      modifies this
      ensures (fields, more) == V10Callback(m)(old(fields), e) && more == Continues(e)
      ensures intact == (old(intact) && CopiesFit(m, e, false))
    {
      hide Memory.At, Memory.U16, Memory.U32, Memory.Range, ArpRange, Copied, Ipv4Protocol;
      match e {
        case Ether(at) => OnEther(m, at);
        case Vlan(at) => SetPair(VlanVid, m.U16(at) % 0x1000, VlanPcp, m.U16(at) / 32 % 0x100);
        case Arp(at) => OnArp(m, at);
        case Ipv4(at, last) => OnIpv4(m, at, last);
        case Icmp4(_, at, _) => SetPair(Icmpv4Type, m.At(at), Icmpv4Code, m.At(at + 1));
        case Udp(at, _) => SetPair(TpSrc, m.U16(at), TpDst, m.U16(at + 2));
        case Tcp(at, _) => SetPair(TpSrc, m.U16(at), TpDst, m.U16(at + 2));
        case _ => assert fields == fields + map[];
      }
      more := Continues(e);
    }

    /**
     * The builder is called with one header after the other, until it answers false. The copies
     * of it that are passed refer to one match, so what they set stays with the caller.
     */
    method Walk(m: Memory)
      modifies this
      ensures fields == ForEachHeader(m, V10Callback(m), old(fields)).state
      ensures intact == (old(intact) && AllCopiesFit(m, Headers(m), false))
    {
      var events, i := Headers(m), 0;
      WalkIsTruncatedChain(m, V10Callback(m), fields);
      assert AllCopiesFit(m, events[..0], false);
      hide V10Callback, Offer, AllCopiesFit, CopiesFit, Headers, ForEachHeader, SetsOf;
      while i < |events|
        invariant 0 <= i <= |events|
        invariant Offer(events, V10Callback(m), old(fields)).state == Offer(events[i..], V10Callback(m), fields).state
        invariant intact == (old(intact) && AllCopiesFit(m, events[..i], false))
      {
        OfferStep(events[i..], V10Callback(m), fields);
        OneMoreFits(m, events, i, false);
        var more := Call(m, events[i]);
        assert events[i..][1..] == events[i + 1..];
        if !more {
          NoArpBehindAStop(m, i);
          return;
        }
        i := i + 1;
      }
      assert events[..i] == events && events[i..] == [];
      OfferStep([], V10Callback(m), fields);
    }
  }

  /** ARP headers come before anything the builder stops at, or not at all. */
  lemma NoArpBehindAStop(m: Memory, i: nat)
    requires i < |Headers(m)| && !Continues(Headers(m)[i])
    ensures AllCopiesFit(m, Headers(m), false) <==> AllCopiesFit(m, Headers(m)[..i + 1], false)
  {
    hide Headers, ArpCopiesFit;
    var c := Headers(m);
    forall j | i < j < |c| ensures CopiesFit(m, c[j], false) {
      HeadersInOrder(m, i, j);
    }
    hide CopiesFit, Continues;
    assert forall j :: 0 <= j <= i ==> c[..i + 1][j] == c[j];
  }

  method MatchFromPacket(m: Memory, inPort: nat) returns (fields: Match, intact: bool)
    ensures fields == Initial(inPort) + AllSets(m, UpToStop(Headers(m)))
    ensures forall p, padding :: ValidPacket(p) && m.frame == Serialise(p) + padding ==>
              fields == PacketMatch(p, inPort, Coded)
    ensures intact <==> forall e :: e in Headers(m) && e.Arp? ==> ShortAddresses(m, e.at, false)
  {
    MatchIsUpToStop(m, inPort);
    CopiesFitIff(m, false);
    forall p, padding | ValidPacket(p) && m.frame == Serialise(p) + padding
      ensures Initial(inPort) + AllSets(m, UpToStop(Headers(m))) == PacketMatch(p, inPort, Coded)
    {
      SerialisedPacketMatch(p, padding, m.outside, inPort);
    }
    hide UpToStop, AllSets, Headers, Serialise, ValidPacket, PacketMatch, SetsOf, Initial;
    var builder := new V10MatchBuilder();
    if inPort != 0 {
      builder.Set(InPort, Number(inPort));
    }
    builder.Walk(m);
    fields, intact := builder.fields, builder.intact;
  }

  function Initial(inPort: nat): Match {
    if inPort != 0 then map[InPort := Number(inPort)] else map[]
  }

  const LINK_KINDS: set<Kind> := {InPort, EthDst, EthSrc, EthType, VlanVid, VlanPcp}

  /** The fields set by the events, in order; later settings of a field win. */
  function AllSets(m: Memory, events: seq<Event>): Match {
    if events == [] then map[] else SetsOf(m, events[0]) + AllSets(m, events[1..])
  }

  lemma {:induction false} FoldSets(m: Memory, events: seq<Event>, fields: Match)
    ensures Fold(events, V10Callback(m), fields) == fields + AllSets(m, events)
    decreases |events|
  {
    if events == [] {
    } else {
      FoldSets(m, events[1..], fields + SetsOf(m, events[0]));
    }
  }

  /** The headers up to and including the first at which the builder stops. */
  function UpToStop(events: seq<Event>): (r: seq<Event>)
    ensures r <= events
    ensures forall i :: 0 <= i < |r| - 1 ==> Continues(r[i])
    ensures r != events ==> r != [] && !Continues(r[|r| - 1])
  {
    if events == [] then []
    else if !Continues(events[0]) then [events[0]]
    else [events[0]] + UpToStop(events[1..])
  }

  lemma PrefixesAgree(a: seq<Event>, b: seq<Event>, events: seq<Event>)
    requires a <= events && (forall i :: 0 <= i < |a| - 1 ==> Continues(events[i]))
    requires a != events ==> a != [] && !Continues(events[|a| - 1])
    requires b <= events && (forall i :: 0 <= i < |b| - 1 ==> Continues(events[i]))
    requires b != events ==> b != [] && !Continues(events[|b| - 1])
    ensures a == b
  {
    assert |a| == |b|;
  }

  lemma AnswerIsContinues(m: Memory, events: seq<Event>, fields: Match, k: nat)
    requires k < |events|
    ensures Answer(events, V10Callback(m), fields, k) == Continues(events[k])
  {
    hide SetsOf;
  }

  /** The match holds exactly what the headers up to the first stop set, over the ingress port. */
  lemma MatchIsUpToStop(m: Memory, inPort: nat)
    ensures ForEachHeader(m, V10Callback(m), Initial(inPort)).state ==
            Initial(inPort) + AllSets(m, UpToStop(Headers(m)))
  {
    hide Headers, SetsOf, ForEachHeader;
    var f, s, c := V10Callback(m), Initial(inPort), Headers(m);
    EarlyStopIsTruncation(m, f, s);
    var calls := ForEachHeader(m, f, s).calls;
    forall k | 0 <= k < |c| ensures Answer(c, f, s, k) == Continues(c[k]) {
      AnswerIsContinues(m, c, s, k);
    }
    hide V10Callback, Answer, Continues;
    assert UpToStop(c) <= c && calls <= c;
    PrefixesAgree(calls, UpToStop(c), c);
    FoldSets(m, calls, s);
  }

  lemma {:induction false} KeysOfSets(m: Memory, events: seq<Event>, kind: Kind)
    ensures kind in AllSets(m, events) <==> exists i :: 0 <= i < |events| && kind in SetsOf(m, events[i])
    decreases |events|
  {
    if events == [] {
    } else {
      KeysOfSets(m, events[1..], kind);
      assert forall i :: 0 <= i < |events[1..]| ==> events[1..][i] == events[i + 1];
      assert forall i :: 0 < i < |events| ==> events[i] == events[1..][i - 1];
    }
  }

  lemma LinkHeadersContinue(m: Memory, i: nat)
    requires i < |Headers(m)| && Phase(Headers(m)[i]) <= 1
    ensures SetsOf(m, Headers(m)[i]).Keys <= LINK_KINDS && Continues(Headers(m)[i])
  {
  }

  /** For every frame that carries IPv6, no field above the link layer is set. */
  lemma Ipv6SetsNoUpperField(m: Memory, inPort: nat, i: nat)
    requires i < |Headers(m)| && Headers(m)[i].Ipv6?
    ensures ForEachHeader(m, V10Callback(m), Initial(inPort)).state.Keys <= LINK_KINDS
  {
    hide Headers, AllSets, ForEachHeader, SetsOf, V10Callback;
    var c := Headers(m);
    MatchIsUpToStop(m, inPort);
    var r := UpToStop(c);
    hide UpToStop;
    assert |r| <= i + 1;
    forall kind | kind in AllSets(m, r) ensures kind in LINK_KINDS {
      KeysOfSets(m, r, kind);
      var j :| 0 <= j < |r| && kind in SetsOf(m, r[j]);
      assert r[j] == c[j];
      if j < i {
        HeadersInOrder(m, j, i);
        LinkHeadersContinue(m, j);
      } else {
        NothingSetByIpv6(m, r[j]);
      }
    }
  }

  lemma NothingSetByIpv6(m: Memory, e: Event)
    ensures e.Ipv6? ==> SetsOf(m, e) == map[]
    ensures IpProto in SetsOf(m, e) <==> e.Ipv4?
  {
  }

  /** The match names an IP protocol exactly when the frame's header chain has an IPv4 header. */
  lemma IpProtoIffIpv4(m: Memory, inPort: nat)
    ensures IpProto in ForEachHeader(m, V10Callback(m), Initial(inPort)).state <==>
            exists i :: 0 <= i < |Headers(m)| && Headers(m)[i].Ipv4?
  {
    hide Headers, AllSets, ForEachHeader, SetsOf, V10Callback;
    var c := Headers(m);
    MatchIsUpToStop(m, inPort);
    var r := UpToStop(c);
    hide UpToStop;
    KeysOfSets(m, r, IpProto);
    forall e ensures IpProto in SetsOf(m, e) <==> e.Ipv4? { NothingSetByIpv6(m, e); }
    assert forall j :: 0 <= j < |r| ==> r[j] == c[j];
    if i :| 0 <= i < |c| && c[i].Ipv4? {
      if |r| <= i {
        var k := |r| - 1;
        assert r != c && !Continues(c[k]);
        HeadersInOrder(m, k, i);
        LinkHeadersContinue(m, k);
        assert false;
      }
      assert IpProto in SetsOf(m, r[i]);
    }
  }

  // -------------------------------------------------------------------------------------
  // The match of a serialised packet
  // -------------------------------------------------------------------------------------

  /** Stacked tags set the same fields, so the innermost tag stays. */
  function TagMatch(tags: seq<Tag>, a: Accessors): Match {
    if tags == [] then map[]
    else
      var innermost := tags[|tags| - 1];
      map[VlanVid := Number(innermost.vid), VlanPcp := Number(Priority(innermost, a))]
  }

  function SegmentMatch(t: Segment): Match {
    match t
    case TcpSegment(source, destination, _, _, _, _, _, _, _, _) => map[TpSrc := Number(source), TpDst := Number(destination)]
    case UdpDatagram(source, destination, _, _, _) => map[TpSrc := Number(source), TpDst := Number(destination)]
    case Icmp4Message(ty, code, _, _) => map[Icmpv4Type := Number(ty), Icmpv4Code := Number(code)]
    case _ => map[]
  }

  /** Nothing above the link layer is taken from IPv6, and nothing above IPv4 from a later fragment. */
  function BodyMatch(b: Body, a: Accessors): Match {
    match b
    case Ip(n, t) =>
      if n.V6? then map[]
      else map[IpProto := Number(SegmentProtocol(t)), Ipv4Src := Octets(n.source), Ipv4Dst := Octets(n.destination)]
           + (if n.offset == 0 then SegmentMatch(t) else map[])
    case ArpMessage(_, _, _, _, senderProtocol, _, targetProtocol) =>
      map[ArpSpa := Octets(AddressOctets(senderProtocol, 4, a)), ArpTpa := Octets(AddressOctets(targetProtocol, 4, a))]
    case Unknown(_, _) => map[]
  }

  /** The match a packet ought to have, from its own fields; the ether type is that in front of the tags. */
  function PacketMatch(p: Packet, inPort: nat, a: Accessors): Match
    requires ValidPacket(p)
  {
    (if inPort == 0 then map[] else map[InPort := Number(inPort)])
    + map[EthDst := Octets(p.destination), EthSrc := Octets(p.source), EthType := Number(TypeBefore(p.tags, p.body))]
    + TagMatch(p.tags, a) + BodyMatch(p.body, a)
  }

  /** The fields that go with a reading. */
  function SetsOfReading(r: Reading): Match {
    match r
    case EtherReading(destination, source, etherType) =>
      map[EthDst := Octets(destination), EthSrc := Octets(source), EthType := Number(etherType)]
    case VlanReading(vid, pcp, _) => map[VlanVid := Number(vid), VlanPcp := Number(pcp)]
    case ArpReading(_, _, _, _, senderProtocol, _, targetProtocol) =>
      map[ArpSpa := Octets(Copied(senderProtocol, V4_LENGTH)), ArpTpa := Octets(Copied(targetProtocol, V4_LENGTH))]
    case Ipv4Reading(_, _, _, _, _, _, _, _, _, protocol, _, source, destination) =>
      map[IpProto := Number(protocol), Ipv4Src := Octets(source), Ipv4Dst := Octets(destination)]
    case Icmp4Reading(_, ty, code, _, _) => map[Icmpv4Type := Number(ty), Icmpv4Code := Number(code)]
    case TcpReading(source, destination, _, _, _, _, _, _, _) => map[TpSrc := Number(source), TpDst := Number(destination)]
    case UdpReading(source, destination, _, _) => map[TpSrc := Number(source), TpDst := Number(destination)]
    case _ => map[]
  }

  predicate GoesOn(r: Reading) {
    !(r.Ipv6Reading? || r.ExtReading? || r.FragReading? || r.Icmp6Reading? || r.NeighborReading?)
  }

  /** What the readings up to the first stop set. */
  function MatchOfReadings(readings: seq<Reading>): Match {
    if readings == [] then map[]
    else SetsOfReading(readings[0]) + if GoesOn(readings[0]) then MatchOfReadings(readings[1..]) else map[]
  }

  lemma SetsFromReading(m: Memory, e: Event)
    requires Read(m, e) != OtherReading
    ensures SetsOf(m, e) == SetsOfReading(Read(m, e)) && (Continues(e) <==> GoesOn(Read(m, e)))
  {
    hide Memory.At, Memory.U16, Memory.U32, Memory.Range, ArpRange, Copied;
  }

  lemma {:induction false} MatchFromReadings(m: Memory, events: seq<Event>)
    requires OtherReading !in ReadAll(m, events)
    ensures AllSets(m, UpToStop(events)) == MatchOfReadings(ReadAll(m, events))
    decreases |events|
  {
    hide Read, SetsOf, SetsOfReading, Continues, GoesOn;
    if events != [] {
      var readings := ReadAll(m, events);
      assert readings[0] == Read(m, events[0]) && readings[1..] == ReadAll(m, events[1..]);
      SetsFromReading(m, events[0]);
      MatchFromReadings(m, events[1..]);
      if Continues(events[0]) {
        assert UpToStop(events)[1..] == UpToStop(events[1..]);
      } else {
        assert UpToStop(events) == [events[0]] && UpToStop(events)[1..] == [];
      }
    }
  }

  lemma SegmentMatches(t: Segment)
    ensures MatchOfReadings(SegmentReadings(t)) == SegmentMatch(t)
  {
    var readings := SegmentReadings(t);
    if |readings| > 0 {
      assert |readings| == 1 ==> readings[1..] == [];
      if |readings| == 2 {
        assert readings[1..] == [PayloadReading(t.payload)] && readings[1..][1..] == [];
        assert MatchOfReadings(readings[1..]) == map[];
      }
    }
  }

  lemma PayloadSetsNothing(bytes: seq<Byte>)
    ensures MatchOfReadings([PayloadReading(bytes)]) == map[]
  {
    assert [PayloadReading(bytes)][1..] == [];
  }

  lemma BodyMatches(b: Body)
    requires ValidBody(b)
    ensures MatchOfReadings(BodyReadings(b, Coded)) == BodyMatch(b, Coded)
  {
    hide SegmentReadings, SegmentMatch, V6DataReadings, SegmentBytes, V6Data, Copied;
    var readings := BodyReadings(b, Coded);
    match b
    case Ip(n, t) =>
      if n.V4? {
        assert readings[1..] == V4DataReadings(n, t);
        if n.offset == 0 { SegmentMatches(t); } else { PayloadSetsNothing(t.data); }
      }
    case Unknown(_, data) => PayloadSetsNothing(data);
    case _ => assert readings[1..] == [];
  }

  lemma {:induction false} TaggedMatches(tags: seq<Tag>, b: Body)
    requires ValidBody(b)
    ensures MatchOfReadings(TaggedReadings(tags, b, Coded)) == TagMatch(tags, Coded) + BodyMatch(b, Coded)
    decreases |tags|
  {
    hide BodyReadings, BodyMatch, Priority;
    if tags == [] {
      BodyMatches(b);
    } else {
      TaggedMatches(tags[1..], b);
      var readings := TaggedReadings(tags, b, Coded);
      assert readings[1..] == TaggedReadings(tags[1..], b, Coded);
    }
  }

  lemma UnionsAssociate(a: Match, b: Match, c: Match, d: Match)
    ensures a + (b + (c + d)) == a + b + c + d
  {
  }

  lemma PacketMatches(p: Packet, padding: seq<Byte>, inPort: nat)
    requires ValidPacket(p)
    ensures Initial(inPort) + MatchOfReadings(PacketReadings(Padded(p, padding), Coded)) == PacketMatch(p, inPort, Coded)
  {
    var q := Padded(p, padding);
    TaggedMatches(q.tags, q.body);
    assert BodyMatch(q.body, Coded) == BodyMatch(p.body, Coded) && TypeBefore(q.tags, q.body) == TypeBefore(p.tags, p.body);
    hide TaggedReadings, BodyMatch, TagMatch, ValidPacket, ValidBody, TypeBefore;
    var readings := PacketReadings(q, Coded);
    assert readings[1..] == TaggedReadings(q.tags, q.body, Coded);
    var ether := map[EthDst := Octets(p.destination), EthSrc := Octets(p.source), EthType := Number(TypeBefore(p.tags, p.body))];
    assert SetsOfReading(readings[0]) == ether && GoesOn(readings[0]);
    hide PacketReadings, SetsOfReading;
    UnionsAssociate(Initial(inPort), ether, TagMatch(p.tags, Coded), BodyMatch(p.body, Coded));
  }

  /** The innermost tag's priority happens to be read right. */
  predicate InnermostRight(tags: seq<Tag>) {
    tags != [] ==> PriorityRight(tags[|tags| - 1])
  }

  lemma TagMatchIff(tags: seq<Tag>)
    requires forall tag :: tag in tags ==> ValidTag(tag)
    ensures TagMatch(tags, Coded) == TagMatch(tags, Intended) <==> InnermostRight(tags)
    ensures TagMatch(tags, Coded) - {VlanPcp} == TagMatch(tags, Intended) - {VlanPcp}
  {
    if tags != [] {
      var innermost := tags[|tags| - 1];
      PriorityIff(innermost);
      hide Priority, PriorityRight;
      assert TagMatch(tags, Coded)[VlanPcp] == Number(Priority(innermost, Coded));
      assert TagMatch(tags, Intended)[VlanPcp] == Number(Priority(innermost, Intended));
    }
  }

  predicate FourOctets(b: Body) {
    b.ArpMessage? ==> |b.senderProtocol| == 4
  }

  lemma BodyMatchIff(b: Body)
    requires ValidBody(b)
    ensures BodyMatch(b, Coded) == BodyMatch(b, Intended) <==> FourOctets(b)
    ensures BodyMatch(b, Coded) - {ArpSpa, ArpTpa} == BodyMatch(b, Intended) - {ArpSpa, ArpTpa}
  {
    hide Copied, SegmentMatch, ValidSegment, ValidNetwork;
    if b.ArpMessage? {
      var coded, intended := BodyMatch(b, Coded), BodyMatch(b, Intended);
      assert coded[ArpSpa] == Octets(Copied(b.senderProtocol, 4)) && intended[ArpSpa] == Octets(b.senderProtocol);
      assert coded[ArpTpa] == Octets(Copied(b.targetProtocol, 4)) && intended[ArpTpa] == Octets(b.targetProtocol);
    }
  }

  /** Kinds of field the two parts of a match have in common: none. */
  lemma PartsAreApart(tags: seq<Tag>, b: Body, a: Accessors)
    ensures TagMatch(tags, a).Keys <= {VlanVid, VlanPcp}
    ensures BodyMatch(b, a).Keys <= {IpProto, Ipv4Src, Ipv4Dst, Icmpv4Type, Icmpv4Code, TpSrc, TpDst, ArpSpa, ArpTpa}
  {
  }

  const DOUBTFUL: set<Kind> := {VlanPcp, ArpSpa, ArpTpa}

  lemma PartsAgree(a: Match, t: Match, b: Match, t': Match, b': Match)
    requires t.Keys == t'.Keys && b.Keys == b'.Keys && t.Keys !! b.Keys
    requires t - DOUBTFUL == t' - DOUBTFUL && b - DOUBTFUL == b' - DOUBTFUL
    ensures a + t + b == a + t' + b' <==> t == t' && b == b'
    ensures a + t + b - DOUBTFUL == a + t' + b' - DOUBTFUL
    ensures (a + t + b).Keys == (a + t' + b').Keys
  {
    var whole, whole' := a + t + b, a + t' + b';
    assert forall k :: k in t ==> whole[k] == t[k] && whole'[k] == t'[k];
    assert forall k :: k in b ==> whole[k] == b[k] && whole'[k] == b'[k];
    if whole == whole' {
      assert t == t' && b == b';
    }
    forall k | k in whole && k !in DOUBTFUL ensures k in whole' && whole[k] == whole'[k] {
      if k in t && k !in b {
        assert (t - DOUBTFUL)[k] == (t' - DOUBTFUL)[k];
      } else if k in b {
        assert (b - DOUBTFUL)[k] == (b' - DOUBTFUL)[k];
      }
    }
  }

  lemma DoubtfulParts(tags: seq<Tag>, b: Body)
    requires (forall tag :: tag in tags ==> ValidTag(tag)) && ValidBody(b)
    ensures TagMatch(tags, Coded).Keys == TagMatch(tags, Intended).Keys
    ensures BodyMatch(b, Coded).Keys == BodyMatch(b, Intended).Keys
    ensures TagMatch(tags, Coded) - DOUBTFUL == TagMatch(tags, Intended) - DOUBTFUL
    ensures BodyMatch(b, Coded) - DOUBTFUL == BodyMatch(b, Intended) - DOUBTFUL
  {
    hide Copied, Priority, SegmentMatch, ValidSegment, ValidNetwork;
  }

  lemma MatchesAgree(p: Packet, inPort: nat)
    requires ValidPacket(p)
    ensures var coded, own := PacketMatch(p, inPort, Coded), PacketMatch(p, inPort, Intended);
            && coded - DOUBTFUL == own - DOUBTFUL && coded.Keys == own.Keys
            && (coded == own <==> InnermostRight(p.tags) && FourOctets(p.body))
  {
    TagMatchIff(p.tags);
    BodyMatchIff(p.body);
    PartsAreApart(p.tags, p.body, Coded);
    DoubtfulParts(p.tags, p.body);
    hide TagMatch, BodyMatch, ValidBody, TypeBefore, InnermostRight, FourOctets;
    var link := (if inPort == 0 then map[] else map[InPort := Number(inPort)])
      + map[EthDst := Octets(p.destination), EthSrc := Octets(p.source), EthType := Number(TypeBefore(p.tags, p.body))];
    PartsAgree(link, TagMatch(p.tags, Coded), BodyMatch(p.body, Coded), TagMatch(p.tags, Intended), BodyMatch(p.body, Intended));
  }

  /**
   * For every serialised packet, padded anyhow, and every ingress port, the match is built from the
   * packet's own fields: addresses, the outer ether type, the innermost tag, IPv4 with its
   * protocol, ports or ICMP type and code. Only the priority of the tag and the addresses of ARP
   * can be wrong; they are right if and only if the priority is read right and the addresses have
   * four octets.
   */
  lemma SerialisedPacketMatch(p: Packet, padding: seq<Byte>, outside: int -> Byte, inPort: nat)
    requires ValidPacket(p)
    ensures var m := Memory(Serialise(p) + padding, outside);
            var fields, own := ForEachHeader(m, V10Callback(m), Initial(inPort)).state, PacketMatch(p, inPort, Intended);
            && fields == PacketMatch(p, inPort, Coded)
            && fields - DOUBTFUL == own - DOUBTFUL && fields.Keys == own.Keys
            && (fields == own <==> InnermostRight(p.tags) && FourOctets(p.body))
  {
    hide Serialise, ValidPacket, Headers, PacketReadings, ForEachHeader, Padded, PacketMatch, AllSets, UpToStop, InnermostRight;
    var m := Memory(Serialise(p) + padding, outside);
    MatchIsUpToStop(m, inPort);
    WalkReads(p, padding, outside);
    PacketReadingsKnown(Padded(p, padding), Coded);
    MatchFromReadings(m, Headers(m));
    PacketMatches(p, padding, inPort);
    MatchesAgree(p, inPort);
  }
}
