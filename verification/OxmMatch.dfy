/** Building an OpenFlow 1.3 match from a packet, as a stateful callback of the packet walk. */
module OxmMatch {
  import opened Bytes
  import opened Common
  import opened PacketParser
  import opened HeaderOrder
  import opened PacketRoundTrip
  import opened AddressCopies

  datatype FieldKind =
    | EthDst | EthSrc | EthType | VlanVid | VlanPcp
    | ArpOp | ArpSpa | ArpTpa | ArpSha | ArpTha
    | IpDscp | IpEcn | IpProto | Ipv4Src | Ipv4Dst | Ipv6Flabel | Ipv6Src | Ipv6Dst
    | Icmpv4Type | Icmpv4Code | Icmpv6Type | Icmpv6Code | NdTarget | NdSll | NdTll
    | UdpSrc | UdpDst | TcpSrc | TcpDst

  datatype Field =
    | Number(kind: FieldKind, value: int)
    | Address(kind: FieldKind, octets: seq<Byte>)

  /** The list holds 46 where the fragment header is 44. */
  predicate IsExtensionHeader(nextHeader: int) {
    nextHeader == 0 || nextHeader == 43 || nextHeader == 46 || nextHeader == 51 || nextHeader == 60
  }

  function ProtoField(nextHeader: int): seq<Field> {
    if IsExtensionHeader(nextHeader) then [] else [Number(IpProto, nextHeader)]
  }

  /**
   * IPv6 has extension headers of the types 0, 43, 44, 51 and 60 among those the walk knows: the
   * protocol is pushed for all others, and for these not, except for just two types. 44 is pushed,
   * and 46, the protocol RSVP, is not.
   */
  lemma ProtoFieldRightIff(nextHeader: int)
    ensures ProtoField(nextHeader) == (if nextHeader in {0, 43, 44, 51, 60} then [] else [Number(IpProto, nextHeader)]) <==>
            nextHeader != 44 && nextHeader != 46
  {
  }

  /** The fields one callback appends. */
  function FieldsOf(m: Memory, e: Event): seq<Field> {
    match e
    case Ether(at) =>
      [Address(EthDst, m.Range(at, at + 6)), Address(EthSrc, m.Range(at + 6, at + 12))]
      + (if m.U16(at + 12) != VLAN_TYPE then [Number(EthType, m.U16(at + 12))] else [])
    case Vlan(at) =>
      [Number(VlanVid, m.U16(at) % 0x1000), Number(VlanPcp, m.U16(at) / 32 % 0x100), Number(EthType, m.U16(at + 2))]
    case Arp(at) =>
      var h, p := m.At(at + 4), m.At(at + 5);
      [Number(ArpOp, m.U16(at + 3)), Address(ArpSpa, Copied(ArpRange(m, at, h, p), V4_LENGTH)),
       Address(ArpTpa, Copied(ArpRange(m, at, 2 * h + p, p), V4_LENGTH))]
      + (if m.U16(at) != 1 then []
         else [Address(ArpSha, Copied(ArpRange(m, at, 0, h), MAC_LENGTH)),
               Address(ArpTha, Copied(ArpRange(m, at, h + p, h), MAC_LENGTH))])
    case Ipv4(at, _) =>
      [Number(IpDscp, m.At(at + 1) / 4), Number(IpEcn, m.At(at + 1) % 4), Number(IpProto, Ipv4Protocol(m, at)),
       Address(Ipv4Src, m.Range(at + 12, at + 16)), Address(Ipv4Dst, m.Range(at + 16, at + 20))]
    case Ipv6(at, _) =>
      [Number(IpDscp, ReadTrafficClass(m, at) / 4), Number(IpEcn, ReadTrafficClass(m, at) / 8),
       Number(Ipv6Flabel, m.U32(at) % 0x10_0000)]
      + ProtoField(Ipv6NextHeader(m, at))
      + [Address(Ipv6Src, m.Range(at + 8, at + 24)), Address(Ipv6Dst, m.Range(at + 24, at + 40))]
    case Ext(at, _) => ProtoField(m.At(at))
    case Frag(at, _) => ProtoField(m.At(at))
    case Icmp4(_, at, _) => [Number(Icmpv4Type, m.At(at)), Number(Icmpv4Code, m.At(at + 1))]
    case Icmp6(kind, at, last) =>
      [Number(Icmpv6Type, m.At(at)), Number(Icmpv6Code, m.At(at + 1))]
      + (if kind == Icmp6Plain then []
         else [Address(NdTarget, m.Range(at + 8, at + 24))]
              + (if last - (at + 24) != 6 then []
                 else if kind == NeighborSolicitation then [Address(NdSll, m.Range(at + 24, last))]
                 else [Address(NdTll, m.Range(at + 24, last))]))
    case Udp(at, _) => [Number(UdpSrc, m.U16(at)), Number(UdpDst, m.U16(at + 2))]
    case Tcp(at, _) => [Number(TcpSrc, m.U16(at)), Number(TcpDst, m.U16(at + 2))]
    case _ => []
  }

  function AllFields(m: Memory, events: seq<Event>): seq<Field> {
    if events == [] then [] else FieldsOf(m, events[0]) + AllFields(m, events[1..])
  }

  /** The creator as the walk sees it: its field list is the state, and it always continues. */
  function OxmCallback(m: Memory): Callback<seq<Field>> {
    (fields, e) => (fields + FieldsOf(m, e), true)
  }

  class OxmMatchCreator {
    var oxmFields: seq<Field>
    /** Whether all copies of addresses so far have stayed in their arrays. */
    var intact: bool

    constructor ()
      ensures oxmFields == [] && intact
    {
      oxmFields, intact := [], true;
    }

    /** The copy made when the creator is passed by value. */
    constructor Copy(other: OxmMatchCreator)
      ensures oxmFields == other.oxmFields && intact == other.intact
    {
      oxmFields, intact := other.oxmFields, other.intact;
    }

    method PushBack(field: Field)
      modifies this`oxmFields
      ensures oxmFields == old(oxmFields) + [field]
    {
      oxmFields := oxmFields + [field];
    }

    method PushProto(nextHeader: int)
      modifies this`oxmFields
      ensures oxmFields == old(oxmFields) + ProtoField(nextHeader)
    {
      if !IsExtensionHeader(nextHeader) {
        PushBack(Number(IpProto, nextHeader));
      }
    }

    method OnEther(m: Memory, at: int)
      modifies this`oxmFields
      ensures oxmFields == old(oxmFields) + FieldsOf(m, Ether(at))
    {
      hide Memory.At, Memory.U16, Memory.U32, Memory.Range, ArpRange, ReadTrafficClass;
      PushBack(Address(EthDst, m.Range(at, at + 6)));
      PushBack(Address(EthSrc, m.Range(at + 6, at + 12)));
      if m.U16(at + 12) != VLAN_TYPE {
        PushBack(Number(EthType, m.U16(at + 12)));
      }
    }

    method OnVlan(m: Memory, at: int)
      modifies this`oxmFields
      ensures oxmFields == old(oxmFields) + FieldsOf(m, Vlan(at))
    {
      hide Memory.At, Memory.U16, Memory.U32, Memory.Range, ArpRange, ReadTrafficClass;
      PushBack(Number(VlanVid, m.U16(at) % 0x1000));
      PushBack(Number(VlanPcp, m.U16(at) / 32 % 0x100));
      PushBack(Number(EthType, m.U16(at + 2)));
    }

    /** Copy an address into an array, and push what the array holds. */
    method PushAddress(kind: FieldKind, octets: seq<Byte>, size: nat)
      modifies this
      ensures oxmFields == old(oxmFields) + [Address(kind, Copied(octets, size))]
      ensures intact == (old(intact) && |octets| <= size)
    {
      var bytes, fits := CopyInto(octets, size);
      intact := intact && fits;
      PushBack(Address(kind, bytes[..]));
    }

    method OnArp(m: Memory, at: int)
      modifies this
      ensures oxmFields == old(oxmFields) + FieldsOf(m, Arp(at))
      ensures intact == (old(intact) && ArpCopiesFit(m, at, true))
    {
      hide Memory.At, Memory.U16, Memory.U32, Memory.Range, ArpRange, ReadTrafficClass, Copied;
      var h: int, p: int := m.At(at + 4), m.At(at + 5);
      PushBack(Number(ArpOp, m.U16(at + 3)));
      PushAddress(ArpSpa, ArpRange(m, at, h, p), V4_LENGTH);
      PushAddress(ArpTpa, ArpRange(m, at, 2 * h + p, p), V4_LENGTH);
      if m.U16(at) == 1 {
        PushAddress(ArpSha, ArpRange(m, at, 0, h), MAC_LENGTH);
        PushAddress(ArpTha, ArpRange(m, at, h + p, h), MAC_LENGTH);
      }
    }

    method OnIpv4(m: Memory, at: int, last: int)
      modifies this`oxmFields
      ensures oxmFields == old(oxmFields) + FieldsOf(m, Ipv4(at, last))
    {
      hide Memory.At, Memory.U16, Memory.U32, Memory.Range, ArpRange, ReadTrafficClass;
      PushBack(Number(IpDscp, m.At(at + 1) / 4));
      PushBack(Number(IpEcn, m.At(at + 1) % 4));
      PushBack(Number(IpProto, Ipv4Protocol(m, at)));
      PushBack(Address(Ipv4Src, m.Range(at + 12, at + 16)));
      PushBack(Address(Ipv4Dst, m.Range(at + 16, at + 20)));
    }

    method OnIpv6(m: Memory, at: int, last: int)
      modifies this`oxmFields
      ensures oxmFields == old(oxmFields) + FieldsOf(m, Ipv6(at, last))
    {
      hide Memory.At, Memory.U16, Memory.U32, Memory.Range, ArpRange, ReadTrafficClass;
      PushBack(Number(IpDscp, ReadTrafficClass(m, at) / 4));
      PushBack(Number(IpEcn, ReadTrafficClass(m, at) / 8));
      PushBack(Number(Ipv6Flabel, m.U32(at) % 0x10_0000));
      PushProto(Ipv6NextHeader(m, at));
      PushBack(Address(Ipv6Src, m.Range(at + 8, at + 24)));
      PushBack(Address(Ipv6Dst, m.Range(at + 24, at + 40)));
    }

    method OnIcmp6(m: Memory, kind: Icmp6Kind, at: int, last: int)
      modifies this`oxmFields
      ensures oxmFields == old(oxmFields) + FieldsOf(m, Icmp6(kind, at, last))
    {
      hide Memory.At, Memory.U16, Memory.U32, Memory.Range, ArpRange, ReadTrafficClass;
      PushBack(Number(Icmpv6Type, m.At(at)));
      PushBack(Number(Icmpv6Code, m.At(at + 1)));
      if kind != Icmp6Plain {
        PushBack(Address(NdTarget, m.Range(at + 8, at + 24)));
        if last - (at + 24) == 6 {
          var linkLayer := m.Range(at + 24, last);
          PushBack(if kind == NeighborSolicitation then Address(NdSll, linkLayer) else Address(NdTll, linkLayer));
        }
      }
    }

    method OnPair(m: Memory, source: Field, destination: Field)
      modifies this`oxmFields
      ensures oxmFields == old(oxmFields) + [source, destination]
    {
      PushBack(source);
      PushBack(destination);
    }

    /** The overloaded call operator. */
    method Call(m: Memory, e: Event) returns (more: bool)
      modifies this
      ensures (oxmFields, more) == OxmCallback(m)(old(oxmFields), e) && more
      ensures intact == (old(intact) && CopiesFit(m, e, true))
    {
      hide Memory.At, Memory.U16, Memory.U32, Memory.Range, ArpRange, ReadTrafficClass;
      match e {
        case Ether(at) => OnEther(m, at);
        case Vlan(at) => OnVlan(m, at);
        case Arp(at) => OnArp(m, at);
        case Ipv4(at, last) => OnIpv4(m, at, last);
        case Ipv6(at, last) => OnIpv6(m, at, last);
        case Ext(at, _) => PushProto(m.At(at));
        case Frag(at, _) => PushProto(m.At(at));
        case Icmp4(_, at, _) => OnPair(m, Number(Icmpv4Type, m.At(at)), Number(Icmpv4Code, m.At(at + 1)));
        case Icmp6(kind, at, last) => OnIcmp6(m, kind, at, last);
        case Udp(at, _) => OnPair(m, Number(UdpSrc, m.U16(at)), Number(UdpDst, m.U16(at + 2)));
        case Tcp(at, _) => OnPair(m, Number(TcpSrc, m.U16(at)), Number(TcpDst, m.U16(at + 2)));
        case _ => assert oxmFields + [] == oxmFields;
      }
      more := true;
    }

    /** The creator is called with one header after the other, until it answers false. */
    method Walk(m: Memory)
      modifies this
      ensures oxmFields == ForEachHeader(m, OxmCallback(m), old(oxmFields)).state
      ensures intact == (old(intact) && AllCopiesFit(m, Headers(m), true))
    {
      var events, i := Headers(m), 0;
      WalkIsTruncatedChain(m, OxmCallback(m), oxmFields);
      assert AllCopiesFit(m, events[..0], true);
      hide OxmCallback, Offer, AllCopiesFit, CopiesFit, Headers, ForEachHeader, FieldsOf;
      while i < |events|
        invariant 0 <= i <= |events|
        invariant Offer(events, OxmCallback(m), old(oxmFields)).state == Offer(events[i..], OxmCallback(m), oxmFields).state
        invariant intact == (old(intact) && AllCopiesFit(m, events[..i], true))
      {
        OfferStep(events[i..], OxmCallback(m), oxmFields);
        OneMoreFits(m, events, i, true);
        var more := Call(m, events[i]);
        assert events[i..][1..] == events[i + 1..];
        if !more {
          return;
        }
        i := i + 1;
      }
      assert events[..i] == events && events[i..] == [];
      OfferStep([], OxmCallback(m), oxmFields);
    }
  }

  /** for_each_header takes its function object by value, so it is a copy of the creator that is called. */
  method WalkCopy(m: Memory, creator: OxmMatchCreator) returns (walked: OxmMatchCreator)
    ensures fresh(walked)
    ensures walked.oxmFields == ForEachHeader(m, OxmCallback(m), creator.oxmFields).state
    ensures walked.intact == (creator.intact && AllCopiesFit(m, Headers(m), true))
  {
    walked := new OxmMatchCreator.Copy(creator);
    walked.Walk(m);
  }

  /**
   * The match of every packet is empty: the fields are collected in the walk's copy of the
   * creator, while the match is taken from the creator itself. That is right if and only if there
   * are no fields to collect, because the frame has no Ethernet header that is followed. All
   * addresses are copied safely if and only if no ARP header declares longer ones.
   */
  method OxmMatchFromPacket(m: Memory) returns (fields: seq<Field>, walked: OxmMatchCreator)
    ensures fields == []
    ensures walked.oxmFields == AllFields(m, Headers(m))
    ensures fields == walked.oxmFields <==> |m.frame| < 14 || m.U16(12) < 0x0600
    ensures walked.intact <==> forall e :: e in Headers(m) && e.Arp? ==> ShortAddresses(m, e.at, true)
  {
    var creator := new OxmMatchCreator();
    walked := WalkCopy(m, creator);
    WalkCollectsAllFields(m, []);
    NoFieldsIff(m);
    CopiesFitIff(m, true);
    fields := creator.oxmFields;
  }

  lemma NoFieldsIff(m: Memory)
    ensures AllFields(m, Headers(m)) == [] <==> |m.frame| < 14 || m.U16(12) < 0x0600
  {
    hide Memory.U16, Memory.Range;
    if |m.frame| >= 14 && m.U16(12) >= 0x0600 {
      assert Headers(m)[0] == Ether(0);
      assert |FieldsOf(m, Ether(0))| > 0;
    }
  }

  lemma {:induction false} OfferCollects(m: Memory, events: seq<Event>, fields: seq<Field>)
    ensures Offer(events, OxmCallback(m), fields) == Outcome(fields + AllFields(m, events), events)
    decreases |events|
  {
    if events == [] {
      assert fields + [] == fields;
    } else {
      OfferCollects(m, events[1..], fields + FieldsOf(m, events[0]));
      assert fields + FieldsOf(m, events[0]) + AllFields(m, events[1..]) == fields + AllFields(m, events);
      assert events == [events[0]] + events[1..];
    }
  }

  /** The creator that is walked ends up with the fields of the whole header chain, in order. */
  lemma WalkCollectsAllFields(m: Memory, fields: seq<Field>)
    ensures ForEachHeader(m, OxmCallback(m), fields).state == fields + AllFields(m, Headers(m))
  {
    WalkIsTruncatedChain(m, OxmCallback(m), fields);
    OfferCollects(m, Headers(m), fields);
  }

  // -------------------------------------------------------------------------------------
  // The fields of a serialised packet
  // -------------------------------------------------------------------------------------

  function ArpFields(hardwareType: int, operation: int, spa: seq<Byte>, tpa: seq<Byte>, sha: seq<Byte>, tha: seq<Byte>):
    seq<Field>
  {
    [Number(ArpOp, operation), Address(ArpSpa, spa), Address(ArpTpa, tpa)]
    + (if hardwareType == 1 then [Address(ArpSha, sha), Address(ArpTha, tha)] else [])
  }

  /**
   * The address of the link-layer address option among those of a neighbour discovery message: a
   * source's, type 1, in solicitations, and a target's, type 2, in advertisements (section 4.6.1 of
   * RFC 4861). Options say in units of 8 octets how long they are.
   */
  function LinkLayerOption(advertisement: bool, options: seq<Byte>): Option<seq<Byte>>
    decreases |options|
  {
    if |options| < 8 || options[1] == 0 || options[1] * 8 > |options| then None
    else if options[0] == (if advertisement then 2 else 1) && options[1] == 1 then Some(options[2..8])
    else LinkLayerOption(advertisement, options[options[1] * 8..])
  }

  /** The creator takes all that is behind the target for the address, if it has the length of one. */
  function LinkLayerFields(advertisement: bool, behind: seq<Byte>, a: Accessors): seq<Field> {
    var kind := if advertisement then NdTll else NdSll;
    if a == Coded then (if |behind| == 6 then [Address(kind, behind)] else [])
    else match LinkLayerOption(advertisement, behind)
         case Some(address) => [Address(kind, address)]
         case None => []
  }

  /** The fields that go with a reading of the headers; addresses of ARP as they are, or as they are copied. */
  function FieldsOfReading(r: Reading, a: Accessors): seq<Field> {
    match r
    case EtherReading(destination, source, etherType) =>
      [Address(EthDst, destination), Address(EthSrc, source)]
      + (if etherType != VLAN_TYPE then [Number(EthType, etherType)] else [])
    case VlanReading(vid, pcp, etherType) => [Number(VlanVid, vid), Number(VlanPcp, pcp), Number(EthType, etherType)]
    case ArpReading(hardwareType, _, operation, senderHardware, senderProtocol, targetHardware, targetProtocol) =>
      ArpFields(hardwareType, operation, AddressOctets(senderProtocol, V4_LENGTH, a), AddressOctets(targetProtocol, V4_LENGTH, a),
                AddressOctets(senderHardware, MAC_LENGTH, a), AddressOctets(targetHardware, MAC_LENGTH, a))
    case Ipv4Reading(_, _, dscp, ecn, _, _, _, _, _, protocol, _, source, destination) =>
      [Number(IpDscp, dscp), Number(IpEcn, ecn), Number(IpProto, protocol), Address(Ipv4Src, source),
       Address(Ipv4Dst, destination)]
    case Ipv6Reading(_, _, dscp, ecn, flowLabel, _, nextHeader, _, source, destination) =>
      [Number(IpDscp, dscp), Number(IpEcn, ecn), Number(Ipv6Flabel, flowLabel)]
      + ProtoField(nextHeader) + [Address(Ipv6Src, source), Address(Ipv6Dst, destination)]
    case ExtReading(nextHeader, _) => ProtoField(nextHeader)
    case FragReading(nextHeader, _, _, _) => ProtoField(nextHeader)
    case TcpReading(source, destination, _, _, _, _, _, _, _) => [Number(TcpSrc, source), Number(TcpDst, destination)]
    case UdpReading(source, destination, _, _) => [Number(UdpSrc, source), Number(UdpDst, destination)]
    case Icmp4Reading(_, ty, code, _, _) => [Number(Icmpv4Type, ty), Number(Icmpv4Code, code)]
    case Icmp6Reading(ty, code, _) => [Number(Icmpv6Type, ty), Number(Icmpv6Code, code)]
    case NeighborReading(advertisement, ty, code, _, target, behind) =>
      [Number(Icmpv6Type, ty), Number(Icmpv6Code, code), Address(NdTarget, target)]
      + LinkLayerFields(advertisement, behind, a)
    case _ => []
  }

  function FieldsOfReadings(readings: seq<Reading>, a: Accessors): seq<Field> {
    if readings == [] then [] else FieldsOfReading(readings[0], a) + FieldsOfReadings(readings[1..], a)
  }

  lemma FieldsFromReading(m: Memory, e: Event)
    requires Read(m, e) != OtherReading
    ensures FieldsOf(m, e) == FieldsOfReading(Read(m, e), Coded)
  {
    hide Memory.At, Memory.U16, Memory.U32, Memory.Range, ArpRange, Copied;
  }

  lemma {:induction false} FieldsFromReadings(m: Memory, events: seq<Event>)
    requires OtherReading !in ReadAll(m, events)
    ensures AllFields(m, events) == FieldsOfReadings(ReadAll(m, events), Coded)
    decreases |events|
  {
    if events == [] {
    } else {
      var readings := ReadAll(m, events);
      assert readings[0] == Read(m, events[0]) && readings[1..] == ReadAll(m, events[1..]);
      FieldsFromReading(m, events[0]);
      FieldsFromReadings(m, events[1..]);
    }
  }

  /** Addresses that fill the arrays they are copied into, and no link-layer address option. */
  predicate AddressesExact(r: Reading) {
    && (r.ArpReading? ==>
          && |r.senderProtocol| == |r.targetProtocol| == V4_LENGTH
          && (r.hardwareType == 1 ==> |r.senderHardware| == |r.targetHardware| == MAC_LENGTH))
    && (r.NeighborReading? ==> LinkLayerOption(r.advertisement, r.behind).None?)
  }

  /** What may be wrong with the fields of a packet besides VLAN priority and ARP operation. */
  datatype Doubts = Doubts(ecn: bool, addresses: bool)

  predicate Unreliable(kind: FieldKind, d: Doubts) {
    || kind == VlanPcp || kind == ArpOp || (kind == IpEcn && d.ecn)
    || ((kind == ArpSpa || kind == ArpTpa || kind == ArpSha || kind == ArpTha) && d.addresses)
  }

  /** Options are not cut off in the middle. */
  predicate Covers(d: Doubts, r: Reading) {
    && (r.Ipv6Reading? ==> d.ecn) && (!AddressesExact(r) ==> d.addresses)
    && (r.NeighborReading? ==> |r.behind| % 8 == 0)
  }

  /**
   * The same fields, of the same kinds, with the same values but for unreliable ones; if addresses
   * are doubtful, the link-layer address of a neighbour, which comes last, may be missing from a.
   */
  ghost predicate FieldsAgree(a: seq<Field>, b: seq<Field>, d: Doubts) {
    && |a| <= |b| <= |a| + 1
    && (|a| < |b| ==> d.addresses && (b[|a|].kind == NdSll || b[|a|].kind == NdTll))
    && forall i :: 0 <= i < |a| ==> a[i].kind == b[i].kind && (a[i] == b[i] || Unreliable(a[i].kind, d))
  }

  lemma FieldsOfReadingAgree(r: Reading, r': Reading, d: Doubts)
    requires Reliable(r) == Reliable(r') && Covers(d, r)
    ensures FieldsAgree(FieldsOfReading(r, Coded), FieldsOfReading(r', Intended), d)
    ensures FieldsOfReading(r, Coded) == FieldsOfReading(r', Intended) <==> r == r' && AddressesExact(r)
    ensures !r.NeighborReading? ==> |FieldsOfReading(r, Coded)| == |FieldsOfReading(r', Intended)|
  {
    hide Copied, LinkLayerOption;
    var fields, fields' := FieldsOfReading(r, Coded), FieldsOfReading(r', Intended);
    if r.VlanReading? || r.Ipv6Reading? {
      assert fields[1].value == fields'[1].value <==> r == r';
    } else if r.ArpReading? {
      ArpFieldsAgree(r, r', d);
    } else if r.NeighborReading? {
      NeighborFieldsAgree(r, r', d);
    } else {
      assert r == r' && fields == fields';
    }
  }

  lemma NeighborFieldsAgree(r: Reading, r': Reading, d: Doubts)
    requires r.NeighborReading? && Reliable(r) == Reliable(r') && Covers(d, r)
    ensures FieldsAgree(FieldsOfReading(r, Coded), FieldsOfReading(r', Intended), d)
    ensures FieldsOfReading(r, Coded) == FieldsOfReading(r', Intended) <==> r == r' && AddressesExact(r)
  {
    hide LinkLayerOption;
    assert r == r' && |FieldsOfReading(r, Coded)| == 3;
  }

  lemma ArpFieldByField(
    t: int, op: int, spa: seq<Byte>, tpa: seq<Byte>, sha: seq<Byte>, tha: seq<Byte>,
    op': int, spa': seq<Byte>, tpa': seq<Byte>, sha': seq<Byte>, tha': seq<Byte>)
    ensures var a, b := ArpFields(t, op, spa, tpa, sha, tha), ArpFields(t, op', spa', tpa', sha', tha');
            && |a| == |b|
            && (forall i :: 0 <= i < |a| ==> a[i].kind == b[i].kind)
            && (forall i :: 0 <= i < |a| && a[i] != b[i] ==>
                  || (a[i].kind == ArpOp && op != op') || (a[i].kind == ArpSpa && spa != spa')
                  || (a[i].kind == ArpTpa && tpa != tpa') || (a[i].kind == ArpSha && t == 1 && sha != sha')
                  || (a[i].kind == ArpTha && t == 1 && tha != tha'))
            && (a == b <==> op == op' && spa == spa' && tpa == tpa' && (t == 1 ==> sha == sha' && tha == tha'))
  {
    var a, b := ArpFields(t, op, spa, tpa, sha, tha), ArpFields(t, op', spa', tpa', sha', tha');
    assert a[0] == b[0] <==> op == op';
    assert a[1] == b[1] <==> spa == spa';
    assert a[2] == b[2] <==> tpa == tpa';
    if t == 1 {
      assert a[3] == b[3] <==> sha == sha';
      assert a[4] == b[4] <==> tha == tha';
    }
  }

  lemma ArpFieldsAgree(r: Reading, r': Reading, d: Doubts)
    requires r.ArpReading? && Reliable(r) == Reliable(r') && Covers(d, r)
    ensures FieldsAgree(FieldsOfReading(r, Coded), FieldsOfReading(r', Intended), d)
    ensures FieldsOfReading(r, Coded) == FieldsOfReading(r', Intended) <==> r == r' && AddressesExact(r)
    ensures |FieldsOfReading(r, Coded)| == |FieldsOfReading(r', Intended)|
  {
    var spa, tpa := Copied(r.senderProtocol, V4_LENGTH), Copied(r.targetProtocol, V4_LENGTH);
    var sha, tha := Copied(r.senderHardware, MAC_LENGTH), Copied(r.targetHardware, MAC_LENGTH);
    var a := ArpFields(r.hardwareType, r.operation, spa, tpa, sha, tha);
    var b := ArpFields(r'.hardwareType, r'.operation, r.senderProtocol, r.targetProtocol, r.senderHardware, r.targetHardware);
    hide Copied;
    assert FieldsOfReading(r, Coded) == a && FieldsOfReading(r', Intended) == b;
    assert r == r' <==> r.operation == r'.operation;
    hide FieldsOfReading, Reliable;
    ArpFieldByField(r.hardwareType, r.operation, spa, tpa, sha, tha,
                    r'.operation, r.senderProtocol, r.targetProtocol, r.senderHardware, r.targetHardware);
    hide ArpFields;
    assert forall i :: 0 <= i < |a| ==> a[i] == b[i] || Unreliable(a[i].kind, d);
  }

  lemma FieldsConcat(a: seq<Field>, a': seq<Field>, b: seq<Field>, b': seq<Field>, d: Doubts)
    requires FieldsAgree(a, a', d) && FieldsAgree(b, b', d) && |a| == |a'|
    ensures FieldsAgree(a + b, a' + b', d)
    ensures a + b == a' + b' <==> a == a' && b == b'
  {
    hide Unreliable;
    if a + b == a' + b' {
      assert a == (a + b)[..|a|] && a' == (a' + b')[..|a|];
      assert b == (a + b)[|a|..] && b' == (a' + b')[|a|..];
    }
  }

  lemma TailAgrees(a: seq<Reading>, b: seq<Reading>)
    requires AgreeReliably(a, b) && a != []
    ensures b != [] && Reliable(a[0]) == Reliable(b[0]) && AgreeReliably(a[1..], b[1..])
    ensures a == b <==> a[0] == b[0] && a[1..] == b[1..]
  {
    hide Reliable;
    assert a == [a[0]] + a[1..] && b == [b[0]] + b[1..];
  }

  ghost predicate AllExact(readings: seq<Reading>) {
    forall r :: r in readings ==> AddressesExact(r)
  }

  ghost predicate CoversAll(d: Doubts, readings: seq<Reading>) {
    forall r :: r in readings ==> Covers(d, r)
  }

  /** Nothing comes behind a neighbour discovery message. */
  ghost predicate NeighborsLast(readings: seq<Reading>) {
    forall i :: 0 <= i < |readings| - 1 ==> !readings[i].NeighborReading?
  }

  lemma {:induction false} AllFieldsAgree(a: seq<Reading>, b: seq<Reading>, d: Doubts)
    requires AgreeReliably(a, b) && CoversAll(d, a) && NeighborsLast(a)
    ensures FieldsAgree(FieldsOfReadings(a, Coded), FieldsOfReadings(b, Intended), d)
    ensures FieldsOfReadings(a, Coded) == FieldsOfReadings(b, Intended) <==> a == b && AllExact(a)
    decreases |a|
  {
    if a == [] {
      assert b == [];
    } else {
      TailAgrees(a, b);
      assert a[0] in a && CoversAll(d, a[1..]);
      assert AllExact(a) <==> AddressesExact(a[0]) && AllExact(a[1..]) by {
        assert a == [a[0]] + a[1..];
      }
      assert NeighborsLast(a[1..]);
      hide FieldsOfReading, Reliable, FieldsAgree, AgreeReliably, Covers, AllExact, AddressesExact;
      FieldsOfReadingAgree(a[0], b[0], d);
      if |a| == 1 {
        assert a[1..] == [] && b[1..] == [];
        OnlyReading(a, b);
      } else {
        AllFieldsAgree(a[1..], b[1..], d);
        FieldsConcat(FieldsOfReading(a[0], Coded), FieldsOfReading(b[0], Intended),
                     FieldsOfReadings(a[1..], Coded), FieldsOfReadings(b[1..], Intended), d);
      }
    }
  }

  lemma OnlyReading(a: seq<Reading>, b: seq<Reading>)
    requires |a| == |b| == 1
    ensures FieldsOfReadings(a, Coded) == FieldsOfReading(a[0], Coded)
    ensures FieldsOfReadings(b, Intended) == FieldsOfReading(b[0], Intended)
    ensures AllExact(a) <==> AddressesExact(a[0])
    ensures a == b <==> a[0] == b[0]
  {
    hide FieldsOfReading, AddressesExact;
    assert a == [a[0]] && b == [b[0]];
  }

  /**
   * The lengths of an ARP message's addresses are those of IPv4 and, if the message says so, of
   * Ethernet; a neighbour discovery message has no link-layer address.
   */
  predicate BodyExact(b: Body) {
    && (b.ArpMessage? ==> |b.senderProtocol| == V4_LENGTH && (b.hardwareType == 1 ==> |b.senderHardware| == MAC_LENGTH))
    && (b.Ip? ==> SegmentExact(b.segment))
  }

  predicate SegmentExact(t: Segment) {
    t.NeighborMessage? ==> LinkLayerOption(t.advertisement, t.options).None?
  }

  /** What may be wrong with the fields of this packet. */
  function DoubtsOf(p: Packet): Doubts {
    Doubts(p.body.Ip? && p.body.network.V6?, !BodyExact(p.body))
  }

  /** Readings of what an IP header announces. */
  ghost predicate UpperOk(readings: seq<Reading>, t: Segment) {
    && (AllExact(readings) <==> SegmentExact(t))
    && CoversAll(Doubts(false, !SegmentExact(t)), readings)
    && NeighborsLast(readings)
  }

  lemma SegmentCovered(t: Segment)
    requires ValidSegment(t)
    ensures UpperOk(SegmentReadings(t), t)
  {
    hide LinkLayerOption;
    var readings := SegmentReadings(t);
    if t.NeighborMessage? {
      assert AllExact(readings) <==> AddressesExact(readings[0]);
    }
  }

  lemma UpperCons(first: Reading, rest: seq<Reading>, t: Segment)
    requires UpperOk(rest, t) && !first.NeighborReading? && !first.ArpReading? && !first.Ipv6Reading?
    ensures UpperOk([first] + rest, t)
  {
    var all := [first] + rest;
    assert Covers(Doubts(false, !SegmentExact(t)), first) && AddressesExact(first);
    hide AddressesExact, SegmentExact, Covers;
    assert forall r :: r in all <==> r == first || r in rest;
    assert forall i :: 0 < i < |all| ==> all[i] == rest[i - 1];
  }

  lemma {:induction false} V6Covered(xs: seq<Extension>, t: Segment)
    requires ValidSegment(t)
    ensures UpperOk(V6DataReadings(xs, t), t)
    decreases |xs|
  {
    if xs == [] {
      SegmentCovered(t);
    } else {
      V6Covered(xs[1..], t);
      hide UpperOk;
      UpperCons(ExtensionReading(xs[0], FirstProtocol(xs[1..], t)), V6DataReadings(xs[1..], t), t);
    }
  }

  /** What the fields of all readings of a packet need. */
  ghost predicate ReadingsOk(readings: seq<Reading>, b: Body) {
    && (AllExact(readings) <==> BodyExact(b))
    && CoversAll(Doubts(b.Ip? && b.network.V6?, !BodyExact(b)), readings)
    && NeighborsLast(readings)
  }

  lemma ReadingsCons(first: Reading, rest: seq<Reading>, b: Body)
    requires ReadingsOk(rest, b) && !first.NeighborReading? && !first.ArpReading?
    requires first.Ipv6Reading? ==> b.Ip? && b.network.V6?
    ensures ReadingsOk([first] + rest, b)
  {
    var all := [first] + rest;
    assert Covers(Doubts(b.Ip? && b.network.V6?, !BodyExact(b)), first) && AddressesExact(first);
    hide AddressesExact, BodyExact, Covers;
    assert forall r :: r in all <==> r == first || r in rest;
    assert forall i :: 0 < i < |all| ==> all[i] == rest[i - 1];
  }

  lemma UpperIsOk(readings: seq<Reading>, b: Body)
    requires b.Ip? && UpperOk(readings, b.segment)
    ensures ReadingsOk(readings, b)
  {
    assert BodyExact(b) <==> SegmentExact(b.segment);
    hide BodyExact, SegmentExact, AddressesExact;
    forall r | r in readings ensures Covers(Doubts(b.network.V6?, !BodyExact(b)), r) {
      assert Covers(Doubts(false, !SegmentExact(b.segment)), r);
    }
  }

  lemma BodyCovered(b: Body)
    requires ValidBody(b)
    ensures ReadingsOk(BodyReadings(b, Coded), b)
  {
    if b.Ip? {
      IpCovered(b, b.network, b.segment);
    } else if b.ArpMessage? {
      var r := BodyReadings(b, Coded)[0];
      assert AllExact(BodyReadings(b, Coded)) <==> AddressesExact(r);
    }
  }

  lemma IpCovered(b: Body, n: Network, t: Segment)
    requires b == Ip(n, t) && ValidBody(b)
    ensures ReadingsOk(BodyReadings(b, Coded), b)
  {
    hide SegmentReadings, V6DataReadings, V6Data, SegmentBytes, FirstProtocol, UpperOk, ReadingsOk;
    if n.V4? {
      if n.offset == 0 {
        SegmentCovered(t);
      } else {
        DataCovered(t);
      }
      UpperIsOk(V4DataReadings(n, t), b);
    } else {
      V6Covered(n.extensions, t);
      UpperIsOk(V6DataReadings(n.extensions, t), b);
    }
    hide ValidBody;
    var readings := NetworkReadings(n, t, Coded);
    ReadingsCons(readings[0], readings[1..], b);
    assert readings == [readings[0]] + readings[1..];
  }

  lemma DataCovered(t: Segment)
    requires t.Data?
    ensures UpperOk([PayloadReading(t.data)], t)
  {
  }

  lemma {:induction false} TaggedCovered(tags: seq<Tag>, b: Body)
    requires ValidBody(b)
    ensures ReadingsOk(TaggedReadings(tags, b, Coded), b)
    decreases |tags|
  {
    hide BodyReadings, BodyExact, ReadingsOk;
    if tags == [] {
      BodyCovered(b);
    } else {
      TaggedCovered(tags[1..], b);
      ReadingsCons(TaggedReadings(tags, b, Coded)[0], TaggedReadings(tags[1..], b, Coded), b);
    }
  }

  lemma PacketCovered(p: Packet)
    requires ValidPacket(p)
    ensures ReadingsOk(PacketReadings(p, Coded), p.body)
  {
    hide TaggedReadings, BodyExact, ReadingsOk;
    TaggedCovered(p.tags, p.body);
    ReadingsCons(PacketReadings(p, Coded)[0], TaggedReadings(p.tags, p.body, Coded), p.body);
  }

  lemma WalkedFields(p: Packet, padding: seq<Byte>, outside: int -> Byte)
    requires ValidPacket(p)
    ensures var m := Memory(Serialise(p) + padding, outside);
            ForEachHeader(m, OxmCallback(m), []).state == FieldsOfReadings(PacketReadings(Padded(p, padding), Coded), Coded)
  {
    var m := Memory(Serialise(p) + padding, outside);
    hide Serialise, ValidPacket, FieldsOfReading, Headers, PacketReadings, ForEachHeader;
    WalkReads(p, padding, outside);
    WalkCollectsAllFields(m, []);
    PacketReadingsKnown(Padded(p, padding), Coded);
    FieldsFromReadings(m, Headers(m));
  }

  /**
   * The creator walked over a serialised packet, padded anyhow, collects the packet's own values
   * but for the priorities of its tags, its IPv6 ECN, its ARP operation, ARP addresses of unusual
   * lengths, and the link-layer address of a neighbour discovery message, which is missing; and
   * these too, if and only if the first three are read right, the addresses have the lengths of
   * IPv4 and Ethernet, and there is no such link-layer address.
   */
  lemma SerialisedPacketFields(p: Packet, padding: seq<Byte>, outside: int -> Byte)
    requires ValidPacket(p)
    ensures var m := Memory(Serialise(p) + padding, outside);
            var fields := ForEachHeader(m, OxmCallback(m), []).state;
            var own := FieldsOfReadings(PacketReadings(Padded(p, padding), Intended), Intended);
            && FieldsAgree(fields, own, DoubtsOf(p))
            && (fields == own <==> ReadRight(p) && BodyExact(p.body))
  {
    var q := Padded(p, padding);
    assert DoubtsOf(q) == DoubtsOf(p) && BodyExact(q.body) == BodyExact(p.body) && ReadRight(q) == ReadRight(p);
    hide Serialise, ValidPacket, FieldsOfReading, Headers, PacketReadings, ReadRight, AgreeReliably, ForEachHeader,
      BodyExact, AllExact, CoversAll, Padded, NeighborsLast;
    PacketCovered(q);
    WalkedFields(p, padding, outside);
    ReadingsAgree(q);
    AllFieldsAgree(PacketReadings(q, Coded), PacketReadings(q, Intended), DoubtsOf(q));
  }

  predicate IsLinkLayer(kind: FieldKind) {
    kind == NdSll || kind == NdTll
  }

  lemma NoLinkLayerField(r: Reading, d: Doubts)
    requires Covers(d, r)
    ensures forall i :: 0 <= i < |FieldsOfReading(r, Coded)| ==> !IsLinkLayer(FieldsOfReading(r, Coded)[i].kind)
  {
    hide AddressesExact, AddressOctets;
  }

  lemma {:induction false} NoLinkLayerFields(readings: seq<Reading>, d: Doubts)
    requires CoversAll(d, readings)
    ensures forall i :: 0 <= i < |FieldsOfReadings(readings, Coded)| ==> !IsLinkLayer(FieldsOfReadings(readings, Coded)[i].kind)
    decreases |readings|
  {
    hide FieldsOfReading, Covers, IsLinkLayer;
    if readings != [] {
      assert Covers(d, readings[0]) && CoversAll(d, readings[1..]);
      NoLinkLayerField(readings[0], d);
      NoLinkLayerFields(readings[1..], d);
    }
  }

  /** What is behind the target is a list of options, and never has the length of an address: no such field is ever pushed. */
  lemma LinkLayerAddressIsNeverPushed(p: Packet, padding: seq<Byte>, outside: int -> Byte)
    requires ValidPacket(p)
    ensures var m := Memory(Serialise(p) + padding, outside);
            var fields := ForEachHeader(m, OxmCallback(m), []).state;
            forall i :: 0 <= i < |fields| ==> fields[i].kind != NdSll && fields[i].kind != NdTll
  {
    var q := Padded(p, padding);
    PacketCovered(q);
    WalkedFields(p, padding, outside);
    hide Serialise, ValidPacket, FieldsOfReadings, PacketReadings, ForEachHeader, CoversAll, AllExact, Padded;
    NoLinkLayerFields(PacketReadings(q, Coded), DoubtsOf(q));
  }

  const SOURCE_OPTION: seq<Byte> := [1, 1, 2, 0, 0, 0, 0, 1]

  const SOLICITATION := Packet(Zeros(6), Zeros(6), [],
    Ip(V6(0, 0, 0, 255, Zeros(16), Zeros(16), []), NeighborMessage(false, 0, 0, 0, Zeros(16), SOURCE_OPTION)))

  /** A neighbour solicitation that says from which link-layer address it comes. */
  lemma SolicitationLosesAddress(padding: seq<Byte>, outside: int -> Byte)
    ensures ValidPacket(SOLICITATION)
    ensures var m := Memory(Serialise(SOLICITATION) + padding, outside);
            var address := Address(NdSll, [2, 0, 0, 0, 0, 1]);
            && address in FieldsOfReadings(PacketReadings(SOLICITATION, Intended), Intended)
            && address !in ForEachHeader(m, OxmCallback(m), []).state
  {
    var n, t := SOLICITATION.body.network, SOLICITATION.body.segment;
    assert |SegmentBytes(t)| == 32 && V6Data([], t) == SegmentBytes(t);
    hide SegmentBytes, V6Data;
    assert ValidNetwork(n, t);
    SolicitationFields();
    LinkLayerAddressIsNeverPushed(SOLICITATION, padding, outside);
  }

  lemma SolicitationFields()
    requires ValidPacket(SOLICITATION)
    ensures Address(NdSll, [2, 0, 0, 0, 0, 1]) in FieldsOfReadings(PacketReadings(SOLICITATION, Intended), Intended)
  {
    SolicitationReadings();
    SourceOptionFields();
    hide *;
    LastFields(PacketReadings(SOLICITATION, Intended), Intended);
  }

  lemma SourceOptionFields()
    ensures var last := NeighborReading(false, 135, 0, 0, Zeros(16), SOURCE_OPTION);
            Address(NdSll, [2, 0, 0, 0, 0, 1]) in FieldsOfReading(last, Intended)
  {
    var last := NeighborReading(false, 135, 0, 0, Zeros(16), SOURCE_OPTION);
    assert SOURCE_OPTION[2..8] == [2, 0, 0, 0, 0, 1];
    assert LinkLayerOption(false, SOURCE_OPTION) == Some([2, 0, 0, 0, 0, 1]);
    hide LinkLayerOption, Zeros;
    assert FieldsOfReading(last, Intended)[3] == Address(NdSll, [2, 0, 0, 0, 0, 1]);
  }

  lemma SolicitationReadings()
    requires ValidPacket(SOLICITATION)
    ensures var readings := PacketReadings(SOLICITATION, Intended);
            |readings| > 0 && readings[|readings| - 1] == NeighborReading(false, 135, 0, 0, Zeros(16), SOURCE_OPTION)
  {
    var t := SOLICITATION.body.segment;
    assert V6DataReadings([], t) == [NeighborReading(false, 135, 0, 0, Zeros(16), SOURCE_OPTION)];
    hide SegmentBytes, V6Data, ValidNetwork, ValidSegment, Zeros, V6DataReadings, FirstProtocol;
    var body := BodyReadings(SOLICITATION.body, Intended);
    assert |body| == 2 && body[1] == NeighborReading(false, 135, 0, 0, Zeros(16), SOURCE_OPTION);
    hide BodyReadings;
    assert TaggedReadings([], SOLICITATION.body, Intended) == body;
  }

  lemma {:induction false} LastFields(readings: seq<Reading>, a: Accessors)
    requires |readings| > 0
    ensures forall f :: f in FieldsOfReading(readings[|readings| - 1], a) ==> f in FieldsOfReadings(readings, a)
    decreases |readings|
  {
    hide FieldsOfReading;
    if |readings| > 1 {
      LastFields(readings[1..], a);
    }
  }

  // -------------------------------------------------------------------------------------
  // When no field is repeated
  // -------------------------------------------------------------------------------------

  predicate HasKind(fields: seq<Field>, kind: FieldKind) {
    exists i :: 0 <= i < |fields| && fields[i].kind == kind
  }

  predicate NoRepeats(fields: seq<Field>) {
    forall i, j :: 0 <= i < j < |fields| ==> fields[i].kind != fields[j].kind
  }

  predicate Disjoint(a: seq<Field>, b: seq<Field>) {
    forall i, j :: 0 <= i < |a| && 0 <= j < |b| ==> a[i].kind != b[j].kind
  }

  lemma NoRepeatsInOne(m: Memory, e: Event)
    ensures NoRepeats(FieldsOf(m, e))
  {
    hide Memory.At, Memory.U16, Memory.U32, Memory.Range, ArpRange, Copied;
  }

  lemma NoRepeatsConcat(a: seq<Field>, b: seq<Field>)
    ensures NoRepeats(a + b) <==> NoRepeats(a) && NoRepeats(b) && Disjoint(a, b)
  {
    var c := a + b;
    assert forall i :: 0 <= i < |a| ==> c[i] == a[i];
    assert forall i :: 0 <= i < |b| ==> c[|a| + i] == b[i];
  }

  lemma {:induction false} DisjointFromAll(m: Memory, a: seq<Field>, events: seq<Event>)
    ensures Disjoint(a, AllFields(m, events)) <==>
            forall k :: 0 <= k < |events| ==> Disjoint(a, FieldsOf(m, events[k]))
    decreases |events|
  {
    if events == [] {
    } else {
      var rest := events[1..];
      var x, y := FieldsOf(m, events[0]), AllFields(m, rest);
      DisjointFromAll(m, a, rest);
      assert forall i :: 0 <= i < |x| ==> (x + y)[i] == x[i];
      assert forall i :: 0 <= i < |y| ==> (x + y)[|x| + i] == y[i];
      assert forall k :: 0 <= k < |rest| ==> rest[k] == events[k + 1];
      assert forall k :: 0 < k < |events| ==> events[k] == rest[k - 1];
    }
  }

  ghost predicate PairwiseDisjoint(m: Memory, events: seq<Event>) {
    forall i, j :: 0 <= i < j < |events| ==> Disjoint(FieldsOf(m, events[i]), FieldsOf(m, events[j]))
  }

  lemma {:induction false} NoRepeatsInAll(m: Memory, events: seq<Event>)
    ensures NoRepeats(AllFields(m, events)) <==> PairwiseDisjoint(m, events)
    decreases |events|
  {
    if events == [] {
    } else {
      var rest := events[1..];
      NoRepeatsInOne(m, events[0]);
      NoRepeatsConcat(FieldsOf(m, events[0]), AllFields(m, rest));
      DisjointFromAll(m, FieldsOf(m, events[0]), rest);
      NoRepeatsInAll(m, rest);
      assert forall k :: 0 <= k < |rest| ==> rest[k] == events[k + 1];
      assert forall k :: 0 < k < |events| ==> events[k] == rest[k - 1];
    }
  }

  /** e appends an ip_proto field. */
  predicate Announces(m: Memory, e: Event) {
    e.Ipv4? || ((e.Ipv6? || e.Ext? || e.Frag?) && !IsExtensionHeader(NextOf(m, e)))
  }

  /** Events in order share a field kind only as two tags, a tag and an untagged type, or two announcements. */
  lemma SharedKinds(m: Memory, a: Event, b: Event)
    requires InOrder(a, b)
    ensures !Disjoint(FieldsOf(m, a), FieldsOf(m, b)) <==>
            || (a.Vlan? && b.Vlan?)
            || (a.Ether? && b.Vlan? && TypeOf(m, a) != VLAN_TYPE)
            || (Announces(m, a) && Announces(m, b))
  {
    var x, y := FieldsOf(m, a), FieldsOf(m, b);
    if a.Vlan? && b.Vlan? {
      assert x[0].kind == y[0].kind;
    } else if a.Ether? && b.Vlan? && TypeOf(m, a) != VLAN_TYPE {
      assert x[2].kind == y[2].kind;
    } else if Announces(m, a) && Announces(m, b) {
      var i := AnnouncedAt(m, a);
      var j := AnnouncedAt(m, b);
      assert x[i].kind == y[j].kind;
    } else {
      KindsOfPhase(m, a);
      KindsOfPhase(m, b);
    }
  }

  lemma AnnouncedAt(m: Memory, e: Event) returns (i: nat)
    requires Announces(m, e)
    ensures i < |FieldsOf(m, e)| && FieldsOf(m, e)[i] == Number(IpProto, NextOf(m, e))
  {
    i := if e.Ipv4? then 2 else if e.Ipv6? then 3 else 0;
  }

  /** The phase a field kind belongs to; eth_type counts with the tags, ip_proto with the extensions. */
  function KindPhase(kind: FieldKind): nat {
    match kind
    case EthDst => 0
    case EthSrc => 0
    case EthType => 1
    case VlanVid => 1
    case VlanPcp => 1
    case IpProto => 3
    case Icmpv4Type => 4
    case Icmpv4Code => 4
    case Icmpv6Type => 4
    case Icmpv6Code => 4
    case NdTarget => 4
    case NdSll => 4
    case NdTll => 4
    case UdpSrc => 4
    case UdpDst => 4
    case TcpSrc => 4
    case TcpDst => 4
    case _ => 2
  }

  lemma KindsOfPhase(m: Memory, e: Event)
    ensures forall i :: 0 <= i < |FieldsOf(m, e)| ==>
              var kind := FieldsOf(m, e)[i].kind;
              || KindPhase(kind) == Phase(e)
              || (kind == EthType && e.Ether? && TypeOf(m, e) != VLAN_TYPE)
              || (kind == IpProto && Announces(m, e))
    ensures HasKind(FieldsOf(m, e), IpProto) ==> Announces(m, e)
  {
    hide Memory.At, Memory.U16, Memory.U32, ArpRange;
  }

  ghost predicate AtMostOneTag(events: seq<Event>) {
    forall i, j :: 0 <= i < j < |events| ==> !(events[i].Vlan? && events[j].Vlan?)
  }

  /**
   * An IPv4 header, or a header announcing an IPv6 fragment header, comes before an extension
   * or fragment header whose own next header is not on the extension list.
   */
  ghost predicate Reannounced(m: Memory, events: seq<Event>) {
    exists i, j :: 0 <= i < j < |events|
      && (events[i].Ipv4? || ((events[i].Ipv6? || events[i].Ext? || events[i].Frag?) && NextOf(m, events[i]) == FRAGMENT))
      && (events[j].Ext? || events[j].Frag?) && !IsExtensionHeader(NextOf(m, events[j]))
  }

  ghost predicate TwoAnnouncements(m: Memory, events: seq<Event>) {
    exists i, j :: 0 <= i < j < |events| && Announces(m, events[i]) && Announces(m, events[j])
  }

  lemma TwoAnnouncementsIff(m: Memory)
    ensures TwoAnnouncements(m, Headers(m)) <==> Reannounced(m, Headers(m))
  {
    var c := Headers(m);
    if TwoAnnouncements(m, c) {
      var i, j :| 0 <= i < j < |c| && Announces(m, c[i]) && Announces(m, c[j]);
      HeadersInOrder(m, i, j);
      HeadersFollow(m, i);
      if i + 1 < j {
        HeadersInOrder(m, i + 1, j);
      }
    }
  }

  /**
   * The walked creator's fields are without repetition exactly when the frame has at most one
   * VLAN tag and no protocol is announced again behind an IPv4 or fragment-announcing header.
   */
  lemma NoFieldRepeatedIff(m: Memory)
    ensures NoRepeats(AllFields(m, Headers(m))) <==> AtMostOneTag(Headers(m)) && !Reannounced(m, Headers(m))
  {
    var c := Headers(m);
    NoRepeatsInAll(m, c);
    TwoAnnouncementsIff(m);
    forall i, j | 0 <= i < j < |c|
      ensures Disjoint(FieldsOf(m, c[i]), FieldsOf(m, c[j])) <==>
              !(c[i].Vlan? && c[j].Vlan?) && !(Announces(m, c[i]) && Announces(m, c[j]))
    {
      HeadersInOrder(m, i, j);
      SharedKinds(m, c[i], c[j]);
      if c[i].Ether? && c[j].Vlan? {
        TagBehindEther(m, i, j);
      }
    }
  }

  lemma TagBehindEther(m: Memory, i: nat, j: nat)
    requires i < j < |Headers(m)| && Headers(m)[i].Ether? && Headers(m)[j].Vlan?
    ensures TypeOf(m, Headers(m)[i]) == VLAN_TYPE
  {
    HeadersFollow(m, i);
    if i + 1 < j {
      HeadersInOrder(m, i + 1, j);
    }
  }

  /** Announcing again takes a fragment header, or an extension header right behind IPv4. */
  lemma ReannouncedNeeds(m: Memory, i: nat, j: nat)
    requires i < j < |Headers(m)|
    requires var e := Headers(m)[i];
             e.Ipv4? || ((e.Ipv6? || e.Ext? || e.Frag?) && NextOf(m, e) == FRAGMENT)
    requires Headers(m)[j].Ext? || Headers(m)[j].Frag?
    ensures var e := Headers(m)[i + 1];
            e.Frag? || e.Ah? || (Headers(m)[i].Ipv4? && IsExtProtocol(NextOf(m, Headers(m)[i])))
  {
    hide Headers, NextOf;
    HeadersFollow(m, i);
    if i + 1 < j {
      HeadersInOrder(m, i + 1, j);
    }
  }

  /** A sufficient condition that only looks at which headers occur. */
  lemma PlainFramesAnnounceOnce(m: Memory)
    requires forall e :: e in Headers(m) ==> !e.Frag? && !e.Ah?
    requires forall e :: e in Headers(m) && e.Ipv4? ==> !IsExtProtocol(NextOf(m, e))
    ensures !Reannounced(m, Headers(m))
  {
    hide Headers, NextOf, IsExtProtocol, IsExtensionHeader;
    var c := Headers(m);
    forall i, j | 0 <= i < j < |c|
      ensures !((c[i].Ipv4? || ((c[i].Ipv6? || c[i].Ext? || c[i].Frag?) && NextOf(m, c[i]) == FRAGMENT))
                && (c[j].Ext? || c[j].Frag?) && !IsExtensionHeader(NextOf(m, c[j])))
    {
      assert c[i] in c && c[i + 1] in c;
      if (c[i].Ipv4? || ((c[i].Ipv6? || c[i].Ext? || c[i].Frag?) && NextOf(m, c[i]) == FRAGMENT))
         && (c[j].Ext? || c[j].Frag?) {
        ReannouncedNeeds(m, i, j);
      }
    }
  }

  lemma PlainFramesRepeatNoField(m: Memory)
    requires AtMostOneTag(Headers(m))
    requires forall e :: e in Headers(m) ==> !e.Frag? && !e.Ah?
    requires forall e :: e in Headers(m) && e.Ipv4? ==> !IsExtProtocol(NextOf(m, e))
    ensures NoRepeats(AllFields(m, Headers(m)))
  {
    NoFieldRepeatedIff(m);
    PlainFramesAnnounceOnce(m);
  }

  // -------------------------------------------------------------------------------------
  // When the port fields have their prerequisites (section A.2.3.6 of the OpenFlow Switch
  // Specification 1.3.0)
  // -------------------------------------------------------------------------------------

  /** The values of the ip_proto fields, in order. */
  function ProtoValues(fields: seq<Field>): seq<int> {
    if fields == [] then []
    else (if fields[0].Number? && fields[0].kind == IpProto then [fields[0].value] else []) + ProtoValues(fields[1..])
  }

  /** The fields before those of event t hold exactly one ip_proto, the given one, and an IP eth_type. */
  ghost predicate HasPrerequisites(m: Memory, events: seq<Event>, t: nat, protocol: int)
    requires t <= |events|
  {
    var before := AllFields(m, events[..t]);
    && ProtoValues(before) == [protocol]
    && (Number(EthType, IPV4_TYPE) in before || Number(EthType, IPV6_TYPE) in before)
  }

  predicate IsPortHeader(e: Event) { e.Tcp? || e.Udp? }

  function PortProtocol(e: Event): int { if e.Tcp? then TCP else UDP }

  ghost predicate PortsHavePrerequisites(m: Memory, events: seq<Event>) {
    forall t :: 0 <= t < |events| && IsPortHeader(events[t]) ==>
      HasPrerequisites(m, events, t, PortProtocol(events[t]))
  }

  /** The protocols announced by the events, in order. */
  function Announced(m: Memory, events: seq<Event>): seq<int> {
    if events == [] then []
    else (if Announces(m, events[0]) then [NextOf(m, events[0])] else []) + Announced(m, events[1..])
  }

  lemma {:induction false} ProtoValuesConcat(a: seq<Field>, b: seq<Field>)
    ensures ProtoValues(a + b) == ProtoValues(a) + ProtoValues(b)
    decreases |a|
  {
    if a == [] {
      assert a + b == b;
    } else {
      assert (a + b)[1..] == a[1..] + b;
      ProtoValuesConcat(a[1..], b);
    }
  }

  lemma {:induction false} NoProtoValues(fields: seq<Field>)
    requires !HasKind(fields, IpProto)
    ensures ProtoValues(fields) == []
    decreases |fields|
  {
    if fields != [] {
      assert forall i :: 0 <= i < |fields[1..]| ==> fields[1..][i] == fields[i + 1];
      NoProtoValues(fields[1..]);
    }
  }

  lemma ProtoValuesOfOne(m: Memory, e: Event)
    ensures ProtoValues(FieldsOf(m, e)) == if Announces(m, e) then [NextOf(m, e)] else []
  {
    var fields := FieldsOf(m, e);
    if Announces(m, e) {
      var i := AnnouncedAt(m, e);
      assert fields == fields[..i] + ([fields[i]] + fields[i + 1..]);
      NoRepeatsInOne(m, e);
      NoProtoValues(fields[..i]);
      NoProtoValues(fields[i + 1..]);
      ProtoValuesConcat(fields[..i], [fields[i]] + fields[i + 1..]);
      ProtoValuesConcat([fields[i]], fields[i + 1..]);
    } else {
      KindsOfPhase(m, e);
      NoProtoValues(fields);
    }
  }

  lemma {:induction false} ProtoValuesAreAnnounced(m: Memory, events: seq<Event>)
    ensures ProtoValues(AllFields(m, events)) == Announced(m, events)
    decreases |events|
  {
    if events != [] {
      ProtoValuesOfOne(m, events[0]);
      ProtoValuesAreAnnounced(m, events[1..]);
      ProtoValuesConcat(FieldsOf(m, events[0]), AllFields(m, events[1..]));
    }
  }

  lemma {:induction false} AnnouncedConcat(m: Memory, a: seq<Event>, b: seq<Event>)
    ensures Announced(m, a + b) == Announced(m, a) + Announced(m, b)
    decreases |a|
  {
    if a == [] {
      assert a + b == b;
    } else {
      assert (a + b)[1..] == a[1..] + b;
      AnnouncedConcat(m, a[1..], b);
    }
  }

  lemma {:induction false} NothingAnnounced(m: Memory, events: seq<Event>)
    ensures Announced(m, events) == [] <==> forall i :: 0 <= i < |events| ==> !Announces(m, events[i])
    decreases |events|
  {
    if events != [] {
      NothingAnnounced(m, events[1..]);
      assert forall i :: 0 <= i < |events[1..]| ==> events[1..][i] == events[i + 1];
      assert forall i :: 0 < i < |events| ==> events[i] == events[1..][i - 1];
    }
  }

  /** One protocol is announced before t, the last header's, iff that header announces and no earlier one does. */
  lemma OneAnnounced(m: Memory, events: seq<Event>, t: nat)
    requires 0 < t <= |events|
    ensures var a := events[t - 1];
            var early := exists i :: 0 <= i < t - 1 && Announces(m, events[i]);
            && (Announces(m, a) ==> (Announced(m, events[..t]) == [NextOf(m, a)] <==> !early))
            && (!Announces(m, a) ==> Announced(m, events[..t]) == Announced(m, events[..t - 1]))
  {
    var front, a := events[..t - 1], events[t - 1];
    assert events[..t] == front + [a];
    AnnouncedConcat(m, front, [a]);
    assert [a][1..] == [];
    NothingAnnounced(m, front);
    assert forall i :: 0 <= i < t - 1 ==> front[i] == events[i];
    assert |front| == t - 1;
  }

  lemma {:induction false} IpEtherTypePushed(m: Memory, t: nat)
    requires t < |Headers(m)| && (Phase(Headers(m)[t]) == 3 || Phase(Headers(m)[t]) == 4)
    ensures exists i :: 0 <= i < t && LinkLevel(Headers(m)[i])
              && (TypeOf(m, Headers(m)[i]) == IPV4_TYPE || TypeOf(m, Headers(m)[i]) == IPV6_TYPE)
    decreases t
  {
    FirstIsEther(m);
    HeadersFollow(m, t - 1);
    if Phase(Headers(m)[t - 1]) == 3 {
      IpEtherTypePushed(m, t - 1);
    } else {
      FirstIsEther(m);
      HeadersFollow(m, t - 2);
      assert LinkLevel(Headers(m)[t - 2]);
    }
  }

  lemma {:induction false} FieldsAreCollected(m: Memory, events: seq<Event>, i: nat, f: Field)
    requires i < |events| && f in FieldsOf(m, events[i])
    ensures f in AllFields(m, events)
    decreases i
  {
    if i > 0 {
      assert events[1..][i - 1] == events[i];
      FieldsAreCollected(m, events[1..], i - 1, f);
    }
  }

  lemma EtherTypePrecedes(m: Memory, t: nat)
    requires t < |Headers(m)| && Phase(Headers(m)[t]) == 4
    ensures var before := AllFields(m, Headers(m)[..t]);
            Number(EthType, IPV4_TYPE) in before || Number(EthType, IPV6_TYPE) in before
  {
    IpEtherTypePushed(m, t);
    var c := Headers(m);
    var i :| 0 <= i < t && LinkLevel(c[i]) && (TypeOf(m, c[i]) == IPV4_TYPE || TypeOf(m, c[i]) == IPV6_TYPE);
    assert FieldsOf(m, c[i])[2] == Number(EthType, TypeOf(m, c[i]));
    FieldsAreCollected(m, c[..t], i, Number(EthType, TypeOf(m, c[i])));
  }

  lemma {:induction false} AnnouncedBy(m: Memory, events: seq<Event>, protocol: int) returns (i: nat)
    requires protocol in Announced(m, events)
    ensures i < |events| && Announces(m, events[i]) && NextOf(m, events[i]) == protocol
    decreases |events|
  {
    if Announces(m, events[0]) && NextOf(m, events[0]) == protocol {
      i := 0;
    } else {
      i := AnnouncedBy(m, events[1..], protocol);
      i := i + 1;
    }
  }

  /** In front of an authentication header, only another protocol has been announced. */
  lemma AhAnnouncesNothing(m: Memory, t: nat)
    requires 0 < t < |Headers(m)| && Headers(m)[t - 1].Ah? && IsPortHeader(Headers(m)[t])
    ensures Announced(m, Headers(m)[..t]) != [PortProtocol(Headers(m)[t])]
  {
    var c := Headers(m);
    var protocol := PortProtocol(c[t]);
    OneAnnounced(m, c, t);
    if Announced(m, c[..t]) == [protocol] {
      var i := AnnouncedBy(m, c[..t - 1], protocol);
      hide Headers, Announced, FieldsOf;
      HeadersFollow(m, i);
      if i + 1 < t - 1 {
        HeadersInOrder(m, i + 1, t - 1);
      }
      assert false;
    }
  }

  /** A port header behind anything but an authentication header: it was announced there. */
  lemma PortsBehindAnnouncer(m: Memory, t: nat)
    requires 0 < t < |Headers(m)| && IsPortHeader(Headers(m)[t]) && !Headers(m)[t - 1].Ah?
    ensures Announced(m, Headers(m)[..t]) == [PortProtocol(Headers(m)[t])] <==> !Reannounced(m, Headers(m))
  {
    var c := Headers(m);
    HeadersFollow(m, t - 1);
    OneAnnounced(m, c, t);
    TwoAnnouncementsIff(m);
    hide Headers, Reannounced, Announced, FieldsOf;
    forall j | t <= j < |c| ensures !Announces(m, c[j]) {
      if t < j {
        HeadersInOrder(m, t, j);
      }
    }
    assert Announces(m, c[t - 1]);
    if TwoAnnouncements(m, c) {
      var i, j :| 0 <= i < j < |c| && Announces(m, c[i]) && Announces(m, c[j]);
      assert i < t - 1;
    }
  }

  /** The header in front of a TCP or UDP header announced it, unless it is an authentication header. */
  lemma PortsAt(m: Memory, t: nat)
    requires t < |Headers(m)| && IsPortHeader(Headers(m)[t])
    ensures t > 0
    ensures HasPrerequisites(m, Headers(m), t, PortProtocol(Headers(m)[t])) <==>
            !Headers(m)[t - 1].Ah? && !Reannounced(m, Headers(m))
  {
    FirstIsEther(m);
    EtherTypePrecedes(m, t);
    ProtoValuesAreAnnounced(m, Headers(m)[..t]);
    hide Headers, Reannounced, Announced, AllFields, ProtoValues;
    if Headers(m)[t - 1].Ah? {
      AhAnnouncesNothing(m, t);
    } else {
      PortsBehindAnnouncer(m, t);
    }
  }

  /**
   * Every TCP or UDP port field comes after exactly one ip_proto, the right one, and after an
   * IP eth_type, exactly when no port header stands behind an authentication header and, if
   * there is one at all, no protocol has been announced twice.
   */
  lemma PortPrerequisitesIff(m: Memory)
    ensures PortsHavePrerequisites(m, Headers(m)) <==>
            forall t :: 0 < t < |Headers(m)| && IsPortHeader(Headers(m)[t]) ==>
              !Headers(m)[t - 1].Ah? && !Reannounced(m, Headers(m))
  {
    var c := Headers(m);
    if PortsHavePrerequisites(m, c) {
      forall t | 0 < t < |c| && IsPortHeader(c[t]) ensures !c[t - 1].Ah? && !Reannounced(m, c) {
        PortsAt(m, t);
        assert HasPrerequisites(m, c, t, PortProtocol(c[t]));
      }
    } else {
      var t :| 0 <= t < |c| && IsPortHeader(c[t]) && !HasPrerequisites(m, c, t, PortProtocol(c[t]));
      PortsAt(m, t);
    }
  }

  /** Frames without repeated announcements and authentication headers announce every port header's protocol. */
  lemma PlainFramesHavePrerequisites(m: Memory)
    requires forall e :: e in Headers(m) ==> !e.Frag? && !e.Ah?
    requires forall e :: e in Headers(m) && e.Ipv4? ==> !IsExtProtocol(NextOf(m, e))
    ensures PortsHavePrerequisites(m, Headers(m))
  {
    PlainFramesAnnounceOnce(m);
    PortPrerequisitesIff(m);
    hide Headers, PortsHavePrerequisites, Reannounced;
    forall i | 0 <= i < |Headers(m)| ensures !Headers(m)[i].Ah? {
      assert Headers(m)[i] in Headers(m);
    }
  }

  // -------------------------------------------------------------------------------------
  // Packets that fail
  // -------------------------------------------------------------------------------------

  const FRAGMENTED := Packet(Zeros(6), Zeros(6), [],
    Ip(V6(0, 0, 0, 64, Zeros(16), Zeros(16), [Fragmentation(0, 0, false, 0)]), DATAGRAM))

  const AUTHENTICATED := Packet(Zeros(6), Zeros(6), [],
    Ip(V6(0, 0, 0, 64, Zeros(16), Zeros(16), [Authentication(0, 0, [])]), DATAGRAM))

  /** What a reading says of the event it was read from. */
  lemma EventOfReading(m: Memory, e: Event)
    ensures Read(m, e).Ipv6Reading? ==> e.Ipv6? && NextOf(m, e) == Read(m, e).nextHeader
    ensures Read(m, e).FragReading? ==> e.Frag? && NextOf(m, e) == Read(m, e).nextHeader
    ensures Read(m, e).AhReading? ==> e.Ah?
    ensures Read(m, e).UdpReading? ==> e.Udp?
  {
    hide Memory.At, Memory.U16, Memory.U32, Memory.Range, ArpRange;
  }

  lemma WitnessReadings(p: Packet)
    requires p == FRAGMENTED || p == AUTHENTICATED
    ensures ValidPacket(p)
    ensures var readings := PacketReadings(p, Coded);
            && |readings| == 5
            && readings[1].Ipv6Reading? && readings[1].nextHeader == (if p == FRAGMENTED then FRAGMENT else AUTHENTICATION)
            && (if p == FRAGMENTED then readings[2] == FragReading(UDP, 0, 0, 0) else readings[2].AhReading?)
            && readings[3].UdpReading?
  {
    var xs := p.body.network.extensions;
    assert |SegmentBytes(DATAGRAM)| == 8;
    hide SegmentBytes;
    assert xs[1..] == [] && V6Data([], DATAGRAM) == SegmentBytes(DATAGRAM);
    assert ValidExtension(xs[0]) && forall x :: x in xs ==> x == xs[0];
    assert |V6Data(xs, DATAGRAM)| < 100;
    hide V6Data, Zeros;
    assert ValidNetwork(p.body.network, DATAGRAM);
    assert SegmentReadings(DATAGRAM) == [UdpReading(1, 2, 8, 0), PayloadReading([])];
    assert V6DataReadings([], DATAGRAM) == SegmentReadings(DATAGRAM);
    assert V6DataReadings(xs, DATAGRAM) == [ExtensionReading(xs[0], UDP)] + SegmentReadings(DATAGRAM);
  }

  lemma WitnessHeaders(p: Packet, m: Memory, padding: seq<Byte>, outside: int -> Byte)
    requires p == FRAGMENTED || p == AUTHENTICATED
    requires ValidPacket(p) && m == Memory(Serialise(p) + padding, outside)
    ensures var c := Headers(m);
            && |c| == 5 && c[1].Ipv6? && c[3].Udp?
            && NextOf(m, c[1]) == (if p == FRAGMENTED then FRAGMENT else AUTHENTICATION)
            && (if p == FRAGMENTED then c[2].Frag? && NextOf(m, c[2]) == UDP else c[2].Ah?)
  {
    WitnessReadings(p);
    WalkReads(p, padding, outside);
    var c := Headers(m);
    hide Headers, Read, NextOf, Serialise, PacketReadings, ValidPacket;
    ReadAllAt(m, c);
    EventOfReading(m, c[1]);
    EventOfReading(m, c[2]);
    EventOfReading(m, c[3]);
  }

  /** One fragment header in front of UDP: ip_proto is pushed twice, and the ports lack their prerequisite. */
  lemma FragmentRepeatsProto(padding: seq<Byte>, outside: int -> Byte)
    ensures ValidPacket(FRAGMENTED)
    ensures var m := Memory(Serialise(FRAGMENTED) + padding, outside);
            && Reannounced(m, Headers(m))
            && !NoRepeats(AllFields(m, Headers(m))) && !PortsHavePrerequisites(m, Headers(m))
  {
    WitnessReadings(FRAGMENTED);
    var m := Memory(Serialise(FRAGMENTED) + padding, outside);
    WitnessHeaders(FRAGMENTED, m, padding, outside);
    hide Headers, Serialise, NextOf, NoRepeats, PortsHavePrerequisites;
    var c := Headers(m);
    assert c[1].Ipv6? && NextOf(m, c[1]) == FRAGMENT && c[2].Frag? && !IsExtensionHeader(NextOf(m, c[2]));
    assert Reannounced(m, c);
    NoFieldRepeatedIff(m);
    PortPrerequisitesIff(m);
    assert IsPortHeader(c[3]);
  }

  /** One authentication header in front of UDP: no ip_proto is pushed at all. */
  lemma AuthenticationHidesProto(padding: seq<Byte>, outside: int -> Byte)
    ensures ValidPacket(AUTHENTICATED)
    ensures var m := Memory(Serialise(AUTHENTICATED) + padding, outside);
            !PortsHavePrerequisites(m, Headers(m))
  {
    WitnessReadings(AUTHENTICATED);
    var m := Memory(Serialise(AUTHENTICATED) + padding, outside);
    WitnessHeaders(AUTHENTICATED, m, padding, outside);
    hide Headers, Serialise, NextOf, PortsHavePrerequisites;
    PortPrerequisitesIff(m);
    assert IsPortHeader(Headers(m)[3]);
  }

  const STACKED := Packet(Zeros(6), Zeros(6), [Tag(0, false, 1), Tag(0, false, 2)],
    Ip(V6(0, 0, 0, 64, Zeros(16), Zeros(16), []), DATAGRAM))

  /** Two stacked tags: three kinds of field are pushed twice. */
  lemma StackedTagsRepeatFields(padding: seq<Byte>, outside: int -> Byte)
    ensures ValidPacket(STACKED)
    ensures var m := Memory(Serialise(STACKED) + padding, outside);
            !AtMostOneTag(Headers(m)) && !NoRepeats(AllFields(m, Headers(m)))
  {
    StackedReadings();
    hide ValidPacket, PacketReadings, Serialise, Headers;
    var m := Memory(Serialise(STACKED) + padding, outside);
    WalkReads(STACKED, padding, outside);
    var c := Headers(m);
    ReadAllAt(m, c);
    TagOfReading(m, c[1]);
    TagOfReading(m, c[2]);
    hide ReadAll, Read;
    assert !AtMostOneTag(c);
    NoFieldRepeatedIff(m);
  }

  lemma TagOfReading(m: Memory, e: Event)
    ensures Read(m, e).VlanReading? ==> e.Vlan?
  {
    hide Memory.At, Memory.U16, Memory.U32, Memory.Range, ArpRange;
  }

  lemma StackedReadings()
    ensures ValidPacket(STACKED)
    ensures var readings := PacketReadings(STACKED, Coded);
            |readings| > 2 && readings[1].VlanReading? && readings[2].VlanReading?
  {
    assert |SegmentBytes(DATAGRAM)| == 8 && V6Data([], DATAGRAM) == SegmentBytes(DATAGRAM);
    hide SegmentBytes, V6Data;
    assert ValidNetwork(STACKED.body.network, DATAGRAM);
    hide ValidNetwork, BodyReadings;
    var tags, body := STACKED.tags, STACKED.body;
    assert tags[1..] == [tags[1]] && tags[1..][1..] == [];
    var rest := TaggedReadings(tags[1..], body, Coded);
    assert rest[0].VlanReading?;
    assert TaggedReadings(tags, body, Coded) == [VlanReading(1, 0, VLAN_TYPE)] + rest;
  }

  /** A packet whose fields are all lost: the match is empty, and what was collected is not. */
  lemma FieldsAreLost(padding: seq<Byte>, outside: int -> Byte)
    ensures ValidPacket(FRAGMENTED)
    ensures var m := Memory(Serialise(FRAGMENTED) + padding, outside);
            AllFields(m, Headers(m)) != []
  {
    WitnessReadings(FRAGMENTED);
    var m := Memory(Serialise(FRAGMENTED) + padding, outside);
    WitnessHeaders(FRAGMENTED, m, padding, outside);
    FirstIsEther(m);
    assert |FieldsOf(m, Headers(m)[0])| > 0;
  }
}
