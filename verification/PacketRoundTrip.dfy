/**
 * Serialise-then-parse: packets written octet by octet as the RFCs lay them out, and what a
 * callback that always continues reads back through the header accessors.
 */
module PacketRoundTrip {
  import opened Bytes
  import opened PacketParser

  datatype OptionsKind = HopByHop | Routing | Destination

  /** An IPv6 extension header (sections 4.3 to 4.6 of RFC 8200, section 2.2 of RFC 4302). */
  datatype Extension =
    | Options(kind: OptionsKind, body: seq<Byte>)
    | Fragmentation(offset: int, reserved: int, more: bool, id: int)
    | Authentication(spi: int, sequence: int, icv: seq<Byte>)

  /**
   * How the length of a UDP datagram goes with that of the IP packet: they agree, the field is
   * zero, the packet is a first fragment that lacks some of the datagram, or it holds more.
   */
  datatype Extent = Whole | Unsized | CutShort(missing: nat) | Followed(surplus: seq<Byte>)

  /**
   * What an IP packet carries. Of ICMP messages (RFC 792, RFC 4443) those of neighbour discovery
   * (section 4 of RFC 4861) are written out. Data is what no header is known for: another protocol's,
   * or, whatever the protocol, all but the first fragment of something.
   */
  datatype Segment =
    | TcpSegment(source: int, destination: int, sequence: int, acknowledgement: int, flags: int,
                 window: int, checksum: int, urgent: int, options: seq<Byte>, payload: seq<Byte>)
    | UdpDatagram(source: int, destination: int, checksum: int, payload: seq<Byte>, extent: Extent)
    | Icmp4Message(ty: Byte, code: Byte, checksum: int, body: seq<Byte>)
    | Icmp6Message(ty: Byte, code: Byte, checksum: int, body: seq<Byte>)
    | NeighborMessage(advertisement: bool, code: Byte, checksum: int, flags: int, target: seq<Byte>, options: seq<Byte>)
    | Data(protocol: Byte, data: seq<Byte>)

  datatype Network =
    | V4(dscp: int, ecn: int, id: int, flags: int, offset: int, ttl: Byte, checksum: int,
         source: seq<Byte>, destination: seq<Byte>, options: seq<Byte>)
    | V6(dscp: int, ecn: int, flowLabel: int, hopLimit: Byte,
         source: seq<Byte>, destination: seq<Byte>, extensions: seq<Extension>)

  /** A VLAN tag (clause 9.6 of IEEE 802.1Q). */
  datatype Tag = Tag(pcp: int, dei: bool, vid: int)

  /** What the tags are put around: an IP packet, an ARP message (RFC 826), or data of a type not looked into. */
  datatype Body =
    | Ip(network: Network, segment: Segment)
    | Unknown(etherType: int, data: seq<Byte>)
    | ArpMessage(hardwareType: int, protocolType: int, operation: int,
                 senderHardware: seq<Byte>, senderProtocol: seq<Byte>,
                 targetHardware: seq<Byte>, targetProtocol: seq<Byte>)

  datatype Packet = Packet(destination: seq<Byte>, source: seq<Byte>, tags: seq<Tag>, body: Body)

  // What the types do not say: field widths, and lengths that the length fields can express.

  predicate U16Value(v: int) { 0 <= v < 0x1_0000 }
  predicate U32Value(v: int) { 0 <= v < 0x1_0000_0000 }

  predicate ValidExtension(x: Extension) {
    match x
    case Options(_, body) => |body| % 8 == 6 && |body| <= 2046
    case Fragmentation(offset, reserved, _, id) => 0 <= offset < 0x2000 && 0 <= reserved < 4 && U32Value(id)
    case Authentication(spi, sequence, icv) =>
      U32Value(spi) && U32Value(sequence) && |icv| % 4 == 0 && |icv| <= 1016
  }

  predicate ValidSegment(t: Segment) {
    match t
    case TcpSegment(source, destination, sequence, acknowledgement, flags, window, checksum, urgent, options, _) =>
      && U16Value(source) && U16Value(destination) && U16Value(checksum)
      && U32Value(sequence) && U32Value(acknowledgement) && 0 <= flags < 0x1000
      && U16Value(window) && U16Value(urgent) && |options| % 4 == 0 && |options| <= 40
    case UdpDatagram(source, destination, checksum, payload, extent) =>
      && U16Value(source) && U16Value(destination) && U16Value(checksum)
      && 8 + |payload| + (if extent.CutShort? then extent.missing else 0) < 0x1_0000
    case Icmp4Message(_, _, checksum, _) => U16Value(checksum)
    case Icmp6Message(ty, _, checksum, body) => U16Value(checksum) && ((ty == 135 || ty == 136) ==> |body| < 20)
    case NeighborMessage(_, _, checksum, flags, target, options) =>
      U16Value(checksum) && U32Value(flags) && |target| == 16 && |options| % 8 == 0
    case Data(_, _) => true
  }

  /** The protocols with a header the walk knows. */
  predicate HasHeader(protocol: int) {
    protocol in {0, 1, 6, 17, 43, 44, 51, 58, 60}
  }

  /** A segment that starts here, and not in an earlier fragment. */
  predicate Starts(t: Segment) {
    t.Data? ==> !HasHeader(t.protocol)
  }

  /** Nothing follows: no next header, or a protocol that is skipped. */
  predicate Silent(t: Segment) {
    t.Data? && (t.protocol == 59 || t.protocol == 132)
  }

  /** A payload length of zero is left to jumbograms (RFC 2675), unless nothing is to follow. */
  predicate ValidNetwork(n: Network, t: Segment)
    requires ValidSegment(t)
  {
    match n
    case V4(dscp, ecn, id, flags, offset, _, checksum, source, destination, options) =>
      && 0 <= dscp < 64 && 0 <= ecn < 4 && U16Value(id) && 0 <= flags < 8 && 0 <= offset < 0x2000 && U16Value(checksum)
      && |source| == 4 && |destination| == 4 && |options| % 4 == 0 && |options| <= 40
      && IPV4_MIN_LENGTH + |options| + |SegmentBytes(t)| < 0x1_0000
      && (if offset == 0 then Starts(t) else t.Data?)
    case V6(dscp, ecn, flowLabel, _, source, destination, extensions) =>
      && 0 <= dscp < 64 && 0 <= ecn < 4
      && 0 <= flowLabel < 0x10_0000 && |source| == 16 && |destination| == 16
      && (forall x :: x in extensions ==> ValidExtension(x))
      && |V6Data(extensions, t)| < 0x1_0000 && Starts(t)
      && (V6Data(extensions, t) == [] ==> extensions == [] && Silent(t))
  }

  predicate ValidBody(b: Body) {
    match b
    case Ip(n, t) => ValidSegment(t) && ValidNetwork(n, t)
    case Unknown(etherType, _) =>
      0x0600 <= etherType < 0x1_0000 && etherType !in {0x0800, 0x0806, 0x8100, 0x86dd, 0x88cc}
    case ArpMessage(hardwareType, protocolType, operation, senderHardware, senderProtocol, targetHardware, targetProtocol) =>
      && U16Value(hardwareType) && U16Value(protocolType) && U16Value(operation)
      && |senderHardware| == |targetHardware| < 0x100 && |senderProtocol| == |targetProtocol| < 0x100
  }

  predicate ValidTag(tag: Tag) {
    0 <= tag.pcp < 8 && 0 <= tag.vid < 0x1000
  }

  predicate ValidPacket(p: Packet) {
    && |p.destination| == 6 && |p.source| == 6
    && (forall tag :: tag in p.tags ==> ValidTag(tag))
    && ValidBody(p.body)
  }

  // -------------------------------------------------------------------------------------
  // Serialising
  // -------------------------------------------------------------------------------------

  function TcpHeader(t: Segment): (s: seq<Byte>)
    requires t.TcpSegment? && ValidSegment(t)
    ensures |s| == 20
  {
    var offset := 5 + |t.options| / 4;
    Be16(t.source) + Be16(t.destination) + Be32(t.sequence) + Be32(t.acknowledgement)
    + Be16(offset * 0x1000 + t.flags) + Be16(t.window) + Be16(t.checksum) + Be16(t.urgent)
  }

  /** The length field of a datagram. */
  function UdpSize(t: Segment): int
    requires t.UdpDatagram?
  {
    match t.extent
    case Unsized => 0
    case CutShort(missing) => 8 + |t.payload| + missing
    case _ => 8 + |t.payload|
  }

  function Surplus(t: Segment): seq<Byte>
    requires t.UdpDatagram?
  {
    if t.extent.Followed? then t.extent.surplus else []
  }

  function UdpHeader(t: Segment): (s: seq<Byte>)
    requires t.UdpDatagram? && ValidSegment(t)
    ensures |s| == 8
  {
    Be16(t.source) + Be16(t.destination) + Be16(UdpSize(t)) + Be16(t.checksum)
  }

  function IcmpHeader(ty: Byte, code: Byte, checksum: int): (s: seq<Byte>)
    requires U16Value(checksum)
    ensures |s| == 4
  {
    [ty, code] + Be16(checksum)
  }

  function NeighborType(t: Segment): Byte
    requires t.NeighborMessage?
  {
    if t.advertisement then 136 else 135
  }

  function SegmentBytes(t: Segment): seq<Byte>
    requires ValidSegment(t)
  {
    match t
    case TcpSegment(_, _, _, _, _, _, _, _, options, payload) => TcpHeader(t) + (options + payload)
    case UdpDatagram(_, _, _, payload, _) => UdpHeader(t) + (payload + Surplus(t))
    case Icmp4Message(ty, code, checksum, body) => IcmpHeader(ty, code, checksum) + body
    case Icmp6Message(ty, code, checksum, body) => IcmpHeader(ty, code, checksum) + body
    case NeighborMessage(_, code, checksum, flags, target, options) =>
      IcmpHeader(NeighborType(t), code, checksum) + (Be32(flags) + (target + options))
    case Data(_, data) => data
  }

  function SegmentProtocol(t: Segment): Byte {
    match t
    case TcpSegment(_, _, _, _, _, _, _, _, _, _) => 6
    case UdpDatagram(_, _, _, _, _) => 17
    case Icmp4Message(_, _, _, _) => 1
    case Icmp6Message(_, _, _, _) => 58
    case NeighborMessage(_, _, _, _, _, _) => 58
    case Data(protocol, _) => protocol
  }

  function ExtensionProtocol(x: Extension): Byte {
    match x
    case Options(HopByHop, _) => HOP_BY_HOP
    case Options(Routing, _) => ROUTING
    case Options(Destination, _) => DESTINATION
    case Fragmentation(_, _, _, _) => FRAGMENT
    case Authentication(_, _, _) => AUTHENTICATION
  }

  /** The protocol number that announces the first of the extensions, or else the segment. */
  function FirstProtocol(xs: seq<Extension>, t: Segment): Byte {
    if xs == [] then SegmentProtocol(t) else ExtensionProtocol(xs[0])
  }

  function ExtensionBytes(x: Extension, next: Byte): seq<Byte>
    requires ValidExtension(x)
  {
    match x
    case Options(_, body) => [next, |body| / 8] + body
    case Fragmentation(offset, reserved, more, id) =>
      [next, 0] + Be16(offset * 8 + reserved * 2 + if more then 1 else 0) + Be32(id)
    case Authentication(spi, sequence, icv) =>
      ([next, |icv| / 4 + 1, 0, 0] + Be32(spi) + Be32(sequence)) + icv
  }

  function V6Data(xs: seq<Extension>, t: Segment): seq<Byte>
    requires ValidSegment(t)
    requires forall x :: x in xs ==> ValidExtension(x)
  {
    if xs == [] then SegmentBytes(t)
    else ExtensionBytes(xs[0], FirstProtocol(xs[1..], t)) + V6Data(xs[1..], t)
  }

  function V4Header(n: Network, t: Segment): (s: seq<Byte>)
    requires n.V4? && ValidSegment(t) && ValidNetwork(n, t)
    ensures |s| == 12
  {
    [4 * 16 + 5 + |n.options| / 4, n.dscp * 4 + n.ecn]
    + Be16(IPV4_MIN_LENGTH + |n.options| + |SegmentBytes(t)|) + Be16(n.id) + Be16(n.flags * 0x2000 + n.offset)
    + [n.ttl, SegmentProtocol(t)] + Be16(n.checksum)
  }

  function TrafficClass(n: Network): int
    requires n.V6?
  {
    n.dscp * 4 + n.ecn
  }

  function V6Header(n: Network, t: Segment): (s: seq<Byte>)
    requires n.V6? && ValidSegment(t) && ValidNetwork(n, t)
    ensures |s| == 8
  {
    [6 * 16 + TrafficClass(n) / 16, TrafficClass(n) % 16 * 16 + n.flowLabel / 0x1_0000]
    + Be16(n.flowLabel % 0x1_0000)
    + Be16(|V6Data(n.extensions, t)|) + [FirstProtocol(n.extensions, t), n.hopLimit]
  }

  function NetworkBytes(n: Network, t: Segment): seq<Byte>
    requires ValidSegment(t) && ValidNetwork(n, t)
  {
    if n.V4?
    then V4Header(n, t) + ((n.source + n.destination) + (n.options + SegmentBytes(t)))
    else V6Header(n, t) + ((n.source + n.destination) + V6Data(n.extensions, t))
  }

  function ArpHeader(b: Body): (s: seq<Byte>)
    requires b.ArpMessage? && ValidBody(b)
    ensures |s| == 8
  {
    Be16(b.hardwareType) + Be16(b.protocolType) + [|b.senderHardware|, |b.senderProtocol|] + Be16(b.operation)
  }

  function BodyBytes(b: Body): seq<Byte>
    requires ValidBody(b)
  {
    match b
    case Ip(n, t) => NetworkBytes(n, t)
    case Unknown(_, data) => data
    case ArpMessage(_, _, _, sha, spa, tha, tpa) => ArpHeader(b) + ((sha + spa) + (tha + tpa))
  }

  function BodyType(b: Body): (ty: int)
    requires ValidBody(b)
    ensures 0 <= ty < 0x1_0000
  {
    match b
    case Ip(n, _) => if n.V4? then 0x0800 else 0x86dd
    case Unknown(etherType, _) => etherType
    case _ => 0x0806
  }

  /** The ether type in front of the tags that are left. */
  function TypeBefore(tags: seq<Tag>, b: Body): (ty: int)
    requires ValidBody(b)
    ensures 0 <= ty < 0x1_0000
  {
    if tags == [] then BodyType(b) else 0x8100
  }

  /** Three bits of priority, the drop eligible indicator, and twelve bits of VLAN id. */
  function Tci(tag: Tag): (tci: int)
    requires ValidTag(tag)
    ensures 0 <= tci < 0x1_0000
  {
    tag.pcp * 0x2000 + (if tag.dei then 0x1000 else 0) + tag.vid
  }

  function TaggedBytes(tags: seq<Tag>, b: Body): seq<Byte>
    requires ValidBody(b) && forall tag :: tag in tags ==> ValidTag(tag)
  {
    if tags == [] then BodyBytes(b)
    else (Be16(Tci(tags[0])) + Be16(TypeBefore(tags[1..], b))) + TaggedBytes(tags[1..], b)
  }

  function Serialise(p: Packet): seq<Byte>
    requires ValidPacket(p)
  {
    ((p.destination + p.source) + Be16(TypeBefore(p.tags, p.body))) + TaggedBytes(p.tags, p.body)
  }

  // -------------------------------------------------------------------------------------
  // Reading back
  // -------------------------------------------------------------------------------------

  /** What the accessors of a header object return; behind is what is taken for a neighbour's link-layer address. */
  datatype Reading =
    | EtherReading(destination: seq<Byte>, source: seq<Byte>, etherType: int)
    | VlanReading(vid: int, pcp: int, etherType: int)
    | Ipv4Reading(version: int, length: int, dscp: int, ecn: int, totalLength: int, id: int, flags: int,
                  fragmentOffset: int, ttl: int, protocol: int, checksum: int,
                  sourceAddress: seq<Byte>, destinationAddress: seq<Byte>)
    | Ipv6Reading(version: int, trafficClass: int, dscp: int, ecn: int, flowLabel: int, payloadLength: int, nextHeader: int,
                  hopLimit: int, sourceAddress: seq<Byte>, destinationAddress: seq<Byte>)
    | ArpReading(hardwareType: int, protocolType: int, operation: int,
                 senderHardware: seq<Byte>, senderProtocol: seq<Byte>,
                 targetHardware: seq<Byte>, targetProtocol: seq<Byte>)
    | ExtReading(nextHeader: int, length: int)
    | FragReading(nextHeader: int, fragmentOffset: int, flags: int, id: int)
    | AhReading(nextHeader: int, payloadLength: int, spi: int, sequence: int, authenticationData: seq<Byte>)
    | TcpReading(sourcePort: int, destinationPort: int, sequence: int, acknowledgement: int,
                 dataOffset: int, flags: int, window: int, checksum: int, urgent: int)
    | UdpReading(sourcePort: int, destinationPort: int, length: int, checksum: int)
    | Icmp4Reading(kind4: Icmp4Kind, icmpType: int, icmpCode: int, checksum: int, icmpBody: seq<Byte>)
    | Icmp6Reading(icmpType: int, icmpCode: int, checksum: int)
    | NeighborReading(advertisement: bool, icmpType: int, icmpCode: int, checksum: int, target: seq<Byte>, behind: seq<Byte>)
    | PayloadReading(bytes: seq<Byte>)
    | OtherReading

  function ReadTrafficClass(m: Memory, at: int): int {
    m.U32(at) / 0x10_0000 % 0x100
  }

  /** An address of an ARP message, at an offset from the end of its fixed part. */
  function ArpRange(m: Memory, at: int, offset: int, length: int): seq<Byte> {
    m.Range(at + ARP_MIN_LENGTH + offset, at + ARP_MIN_LENGTH + offset + length)
  }

  function Read(m: Memory, e: Event): Reading {
    match e
    case Ether(at) => EtherReading(m.Range(at, at + 6), m.Range(at + 6, at + 12), m.U16(at + 12))
    case Vlan(at) => VlanReading(m.U16(at) % 0x1000, m.U16(at) / 32 % 0x100, m.U16(at + 2))
    case Ipv4(at, _) =>
      Ipv4Reading(m.At(at) / 16, Ipv4Length(m, at), m.At(at + 1) / 4, m.At(at + 1) % 4, m.U16(at + 2),
                  m.U16(at + 4), m.At(at + 6) / 32, Ipv4FragmentOffset(m, at), m.At(at + 8),
                  Ipv4Protocol(m, at), m.U16(at + 10), m.Range(at + 12, at + 16), m.Range(at + 16, at + 20))
    case Ipv6(at, _) =>
      var trafficClass := ReadTrafficClass(m, at);
      Ipv6Reading(m.At(at) / 16, trafficClass, trafficClass / 4, trafficClass / 8, m.U32(at) % 0x10_0000,
                  m.U16(at + 4), Ipv6NextHeader(m, at), m.At(at + 7), m.Range(at + 8, at + 24), m.Range(at + 24, at + 40))
    case Arp(at) =>
      var h, p := m.At(at + 4), m.At(at + 5);
      ArpReading(m.U16(at), m.U16(at + 2), m.U16(at + 3), ArpRange(m, at, 0, h), ArpRange(m, at, h, p),
                 ArpRange(m, at, h + p, h), ArpRange(m, at, 2 * h + p, p))
    case Ext(at, _) => ExtReading(m.At(at), ExtLength(m, at))
    case Frag(at, _) => FragReading(m.At(at), m.U16(at + 2) / 8, m.U16(at + 2) % 2, m.U32(at + 4))
    case Ah(at, _) =>
      AhReading(m.At(at), m.At(at + 1), m.U32(at + 4), m.U32(at + 8), m.Range(at + 12, at + AhLength(m, at)))
    case Tcp(at, _) =>
      TcpReading(m.U16(at), m.U16(at + 2), m.U32(at + 4), m.U32(at + 8), m.At(at + 12) / 16,
                 m.U16(at + 12) % 0x1000, m.U16(at + 14), m.U16(at + 16), m.U16(at + 18))
    case Udp(at, _) => UdpReading(m.U16(at), m.U16(at + 2), m.U16(at + 4), m.U16(at + 6))
    case Icmp4(kind, at, last) => Icmp4Reading(kind, m.At(at), m.At(at + 1), m.U16(at + 2), m.Range(at + 4, last))
    case Icmp6(Icmp6Plain, at, _) => Icmp6Reading(m.At(at), m.At(at + 1), m.U16(at + 2))
    case Icmp6(kind, at, last) =>
      NeighborReading(kind.NeighborAdvertisement?, m.At(at), m.At(at + 1), m.U16(at + 2), m.Range(at + 8, at + 24),
                      m.Range(at + 24, last))
    case Payload(first, last) => PayloadReading(m.Range(first, last))
    case _ => OtherReading
  }

  function ReadAll(m: Memory, events: seq<Event>): (r: seq<Reading>)
    ensures |r| == |events|
  {
    if events == [] then [] else [Read(m, events[0])] + ReadAll(m, events[1..])
  }

  // The readings of a packet

  /**
   * Three accessors do not return what the standards say: the priority of a VLAN tag and the ECN
   * of an IPv6 header are shifted by the wrong number of bits, and the operation of an ARP
   * message is taken from the wrong offset. Intended readings are straight from the packet's
   * fields; coded ones are the same but for these three.
   */
  datatype Accessors = Intended | Coded

  function Priority(tag: Tag, a: Accessors): int {
    if a == Intended then tag.pcp else (if tag.dei then 0x80 else 0) + tag.vid / 32
  }

  function Ecn(n: Network, a: Accessors): int
    requires n.V6?
  {
    if a == Intended then n.ecn else n.dscp / 2
  }

  function Operation(b: Body, a: Accessors): int
    requires b.ArpMessage?
  {
    if a == Intended then b.operation else b.protocolType % 0x100 * 0x100 + |b.senderHardware|
  }

  /** The messages of RFC 792 and RFC 950 with a class of their own, if they have all their fields. */
  function Icmp4Form(ty: Byte, body: seq<Byte>): Icmp4Kind {
    match ty
    case 0 => if |body| >= 4 then Icmp4Echo else Icmp4Plain
    case 8 => if |body| >= 4 then Icmp4Echo else Icmp4Plain
    case 5 => if |body| >= 4 then Icmp4Redirect else Icmp4Plain
    case 13 => if |body| >= 16 then Icmp4Timestamp else Icmp4Plain
    case 14 => if |body| >= 16 then Icmp4Timestamp else Icmp4Plain
    case 17 => if |body| >= 8 then Icmp4AddressMask else Icmp4Plain
    case 18 => if |body| >= 8 then Icmp4AddressMask else Icmp4Plain
    case _ => Icmp4Plain
  }

  function SegmentReadings(t: Segment): seq<Reading> {
    match t
    case TcpSegment(source, destination, sequence, acknowledgement, flags, window, checksum, urgent, options, payload) =>
      [TcpReading(source, destination, sequence, acknowledgement, 5 + |options| / 4, flags, window, checksum, urgent),
       PayloadReading(payload)]
    case UdpDatagram(source, destination, checksum, payload, _) =>
      [UdpReading(source, destination, UdpSize(t), checksum), PayloadReading(payload)]
    case Icmp4Message(ty, code, checksum, body) => [Icmp4Reading(Icmp4Form(ty, body), ty, code, checksum, body)]
    case Icmp6Message(ty, code, checksum, _) => [Icmp6Reading(ty, code, checksum)]
    case NeighborMessage(advertisement, code, checksum, _, target, options) =>
      [NeighborReading(advertisement, NeighborType(t), code, checksum, target, options)]
    case Data(protocol, data) => if protocol == 59 || protocol == 132 then [] else [PayloadReading(data)]
  }

  /** Behind an IPv4 header: the segment, or the data of a later fragment, whatever the protocol. */
  function V4DataReadings(n: Network, t: Segment): seq<Reading>
    requires n.V4? && (n.offset != 0 ==> t.Data?)
  {
    if n.offset == 0 then SegmentReadings(t) else [PayloadReading(t.data)]
  }

  function ExtensionReading(x: Extension, next: int): Reading {
    match x
    case Options(_, body) => ExtReading(next, |body| + 2)
    case Fragmentation(offset, _, more, id) => FragReading(next, offset, if more then 1 else 0, id)
    case Authentication(spi, sequence, icv) => AhReading(next, |icv| / 4 + 1, spi, sequence, icv)
  }

  function V6DataReadings(xs: seq<Extension>, t: Segment): seq<Reading> {
    if xs == [] then SegmentReadings(t)
    else [ExtensionReading(xs[0], FirstProtocol(xs[1..], t))] + V6DataReadings(xs[1..], t)
  }

  function NetworkReadings(n: Network, t: Segment, a: Accessors): seq<Reading>
    requires ValidSegment(t) && ValidNetwork(n, t)
  {
    match n
    case V4(dscp, ecn, id, flags, offset, ttl, checksum, source, destination, options) =>
      [Ipv4Reading(4, 20 + |options|, dscp, ecn, 20 + |options| + |SegmentBytes(t)|,
                   id, flags, offset, ttl, SegmentProtocol(t), checksum, source, destination)]
      + V4DataReadings(n, t)
    case V6(dscp, _, flowLabel, hopLimit, source, destination, xs) =>
      [Ipv6Reading(6, TrafficClass(n), dscp, Ecn(n, a), flowLabel, |V6Data(xs, t)|, FirstProtocol(xs, t), hopLimit,
                   source, destination)]
      + V6DataReadings(xs, t)
  }

  function BodyReadings(b: Body, a: Accessors): seq<Reading>
    requires ValidBody(b)
  {
    match b
    case Ip(n, t) => NetworkReadings(n, t, a)
    case Unknown(_, data) => [PayloadReading(data)]
    case ArpMessage(hardwareType, protocolType, _, sha, spa, tha, tpa) =>
      [ArpReading(hardwareType, protocolType, Operation(b, a), sha, spa, tha, tpa)]
  }

  function TaggedReadings(tags: seq<Tag>, b: Body, a: Accessors): seq<Reading>
    requires ValidBody(b)
  {
    if tags == [] then BodyReadings(b, a)
    else [VlanReading(tags[0].vid, Priority(tags[0], a), TypeBefore(tags[1..], b))] + TaggedReadings(tags[1..], b, a)
  }

  function PacketReadings(p: Packet, a: Accessors): seq<Reading>
    requires ValidPacket(p)
  {
    [EtherReading(p.destination, p.source, TypeBefore(p.tags, p.body))] + TaggedReadings(p.tags, p.body, a)
  }

  // -------------------------------------------------------------------------------------
  // The round trip, layer by layer
  // -------------------------------------------------------------------------------------

  lemma ReadBe16(m: Memory, at: int, v: int)
    requires 0 <= v < 0x1_0000 && m.Holds(at, Be16(v))
    ensures m.U16(at) == v
  {
    HoldsAt(m, at, Be16(v));
    assert m.At(at + 0) == Be16(v)[0] && m.At(at + 1) == Be16(v)[1];
  }

  lemma ReadBe32(m: Memory, at: int, v: int)
    requires 0 <= v < 0x1_0000_0000 && m.Holds(at, Be32(v))
    ensures m.U32(at) == v
  {
    HoldsAt(m, at, Be32(v));
    assert m.At(at + 0) == Be32(v)[0] && m.At(at + 1) == Be32(v)[1];
    assert m.At(at + 2) == Be32(v)[2] && m.At(at + 3) == Be32(v)[3];
    Be32RoundTrip(v);
  }

  lemma ReadTwo(m: Memory, at: int, s: seq<Byte>)
    requires |s| >= 2 && m.Holds(at, s)
    ensures m.At(at) == s[0] && m.At(at + 1) == s[1]
  {
    HoldsAt(m, at, s);
    assert m.At(at + 0) == s[0] && m.At(at + 1) == s[1];
  }

  lemma HoldsFits(m: Memory, at: int, s: seq<Byte>)
    requires m.Holds(at, s)
    ensures 0 <= at && at + |s| <= |m.frame|
  {
  }

  lemma Octets(m: Memory, at: int)
    ensures m.U16(at) == m.At(at) * 0x100 + m.At(at + 1)
    ensures m.At(at) == m.U16(at) / 0x100
    ensures m.U32(at) == m.U16(at) * 0x1_0000 + m.U16(at + 2)
  {
  }

  /** A chain that finds e and goes on at q reads e first. */
  lemma ReadStep(m: Memory, p: Position, e: Event)
    requires Found(m, p) == [e]
    ensures ReadAll(m, Chain(m, p)) == [Read(m, e)] + ReadAll(m, Chain(m, Successor(m, e, LastOf(p))))
  {
    assert Chain(m, p)[1..] == Chain(m, Successor(m, e, LastOf(p)));
  }

  lemma ReadPayload(m: Memory, first: int, payload: seq<Byte>)
    requires m.Holds(first, payload)
    ensures ReadAll(m, Chain(m, AtPayload(first, first + |payload|))) == [PayloadReading(payload)]
  {
    HoldsRange(m, first, payload);
    ReadStep(m, AtPayload(first, first + |payload|), Payload(first, first + |payload|));
    assert ReadAll(m, Chain(m, AtEnd)) == [];
  }

  lemma ReadTcpHeader(m: Memory, at: int, t: Segment, last: int)
    requires t.TcpSegment? && ValidSegment(t) && m.Holds(at, TcpHeader(t))
    ensures Read(m, Tcp(at, last)) == SegmentReadings(t)[0]
    ensures TcpLength(m, at) == 20 + |t.options|
  {
    hide Memory.Holds, Memory.U16, Memory.U32, Be16, Be32;
    var a, b, c := Be16(t.source) + Be16(t.destination), Be32(t.sequence), Be32(t.acknowledgement);
    var word := (5 + |t.options| / 4) * 0x1000 + t.flags;
    var d, e := Be16(word), Be16(t.window);
    var f, g := Be16(t.checksum), Be16(t.urgent);
    HoldsSplit(m, at, a + b + c + d + e + f, g);
    HoldsSplit(m, at, a + b + c + d + e, f);
    HoldsSplit(m, at, a + b + c + d, e);
    HoldsSplit(m, at, a + b + c, d);
    HoldsSplit(m, at, a + b, c);
    HoldsSplit(m, at, a, b);
    HoldsSplit(m, at, Be16(t.source), Be16(t.destination));
    ReadBe16(m, at, t.source);
    ReadBe16(m, at + 2, t.destination);
    ReadBe32(m, at + 4, t.sequence);
    ReadBe32(m, at + 8, t.acknowledgement);
    ReadBe16(m, at + 12, word);
    ReadBe16(m, at + 14, t.window);
    ReadBe16(m, at + 16, t.checksum);
    ReadBe16(m, at + 18, t.urgent);
    Octets(m, at + 12);
    assert m.U16(at + 12) / 0x1000 == 5 + |t.options| / 4;
  }

  lemma ReadUdpHeader(m: Memory, at: int, t: Segment, last: int)
    requires t.UdpDatagram? && ValidSegment(t) && m.Holds(at, UdpHeader(t))
    ensures Read(m, Udp(at, last)) == SegmentReadings(t)[0]
    ensures m.U16(at + 4) == UdpSize(t)
  {
    hide Memory.Holds, Memory.U16, Memory.U32, Be16, Be32;
    var a, b := Be16(t.source) + Be16(t.destination), Be16(UdpSize(t));
    HoldsSplit(m, at, a + b, Be16(t.checksum));
    HoldsSplit(m, at, a, b);
    HoldsSplit(m, at, Be16(t.source), Be16(t.destination));
    ReadBe16(m, at, t.source);
    ReadBe16(m, at + 2, t.destination);
    ReadBe16(m, at + 4, UdpSize(t));
    ReadBe16(m, at + 6, t.checksum);
  }

  lemma TcpRoundTrip(m: Memory, first: int, t: Segment)
    requires t.TcpSegment? && ValidSegment(t) && m.Holds(first, SegmentBytes(t))
    ensures var last := first + |SegmentBytes(t)|;
            ReadAll(m, Chain(m, AtIpNext(6, first, last))) == SegmentReadings(t)
  {
    hide Memory.Holds, Memory.U16, Memory.U32, TcpHeader, Read, SegmentReadings;
    var last := first + |SegmentBytes(t)|;
    HoldsSplit(m, first, TcpHeader(t), t.options + t.payload);
    HoldsSplit(m, first + 20, t.options, t.payload);
    ReadTcpHeader(m, first, t, last);
    ReadPayload(m, first + 20 + |t.options|, t.payload);
    ReadStep(m, AtIpNext(6, first, last), Tcp(first, last));
    TwoReadings(t);
  }

  lemma UdpRoundTrip(m: Memory, first: int, t: Segment)
    requires t.UdpDatagram? && ValidSegment(t) && m.Holds(first, SegmentBytes(t))
    ensures var last := first + |SegmentBytes(t)|;
            ReadAll(m, Chain(m, AtIpNext(17, first, last))) == SegmentReadings(t)
  {
    hide Memory.Holds, Memory.U16, Memory.U32, UdpHeader, Read, SegmentReadings;
    var last := first + |SegmentBytes(t)|;
    HoldsSplit(m, first, UdpHeader(t), t.payload + Surplus(t));
    HoldsSplit(m, first + 8, t.payload, Surplus(t));
    ReadUdpHeader(m, first, t, last);
    assert UdpEnd(m, first, last) == first + 8 + |t.payload|;
    assert Successor(m, Udp(first, last), last) == AtPayload(first + 8, first + 8 + |t.payload|);
    assert Found(m, AtIpNext(17, first, last)) == [Udp(first, last)];
    hide UdpEnd, Successor, Found, SegmentBytes, Surplus, UdpSize;
    ReadPayload(m, first + 8, t.payload);
    ReadStep(m, AtIpNext(17, first, last), Udp(first, last));
    TwoReadings(t);
  }

  lemma TwoReadings(t: Segment)
    requires t.TcpSegment? || t.UdpDatagram?
    ensures SegmentReadings(t) == [SegmentReadings(t)[0], PayloadReading(t.payload)]
  {
  }

  lemma ReadIcmpHeader(m: Memory, at: int, ty: Byte, code: Byte, checksum: int)
    requires U16Value(checksum) && m.Holds(at, IcmpHeader(ty, code, checksum))
    ensures m.At(at) == ty && m.At(at + 1) == code && m.U16(at + 2) == checksum
  {
    hide Memory.Holds, Memory.U16, Be16;
    var front: seq<Byte> := [ty, code];
    HoldsSplit(m, at, front, Be16(checksum));
    ReadTwo(m, at, front);
    ReadBe16(m, at + 2, checksum);
  }

  /** A header that nothing follows. */
  lemma ReadLast(m: Memory, p: Position, e: Event)
    requires Found(m, p) == [e] && Successor(m, e, LastOf(p)) == AtEnd
    ensures ReadAll(m, Chain(m, p)) == [Read(m, e)]
  {
    ReadStep(m, p, e);
    assert ReadAll(m, Chain(m, AtEnd)) == [];
  }

  lemma Icmp4RoundTrip(m: Memory, first: int, t: Segment)
    requires t.Icmp4Message? && ValidSegment(t) && m.Holds(first, SegmentBytes(t))
    ensures var last := first + |SegmentBytes(t)|;
            ReadAll(m, Chain(m, AtIpNext(1, first, last))) == SegmentReadings(t)
  {
    hide Memory.Holds, Memory.At, Memory.U16, IcmpHeader;
    var last := first + |SegmentBytes(t)|;
    HoldsSplit(m, first, IcmpHeader(t.ty, t.code, t.checksum), t.body);
    ReadIcmpHeader(m, first, t.ty, t.code, t.checksum);
    HoldsRange(m, first + 4, t.body);
    ReadLast(m, AtIpNext(1, first, last), Icmp4(Icmp4Form(t.ty, t.body), first, last));
  }

  lemma Icmp6RoundTrip(m: Memory, first: int, t: Segment)
    requires t.Icmp6Message? && ValidSegment(t) && m.Holds(first, SegmentBytes(t))
    ensures var last := first + |SegmentBytes(t)|;
            ReadAll(m, Chain(m, AtIpNext(58, first, last))) == SegmentReadings(t)
  {
    hide Memory.Holds, Memory.At, Memory.U16, IcmpHeader;
    var last := first + |SegmentBytes(t)|;
    HoldsSplit(m, first, IcmpHeader(t.ty, t.code, t.checksum), t.body);
    ReadIcmpHeader(m, first, t.ty, t.code, t.checksum);
    ReadLast(m, AtIpNext(58, first, last), Icmp6(Icmp6Plain, first, last));
  }

  lemma NeighborRoundTrip(m: Memory, first: int, t: Segment)
    requires t.NeighborMessage? && ValidSegment(t) && m.Holds(first, SegmentBytes(t))
    ensures var last := first + |SegmentBytes(t)|;
            ReadAll(m, Chain(m, AtIpNext(58, first, last))) == SegmentReadings(t)
  {
    hide Memory.Holds, Memory.At, Memory.U16, IcmpHeader, Be32;
    var last, header := first + |SegmentBytes(t)|, IcmpHeader(NeighborType(t), t.code, t.checksum);
    HoldsSplit(m, first, header, Be32(t.flags) + (t.target + t.options));
    HoldsSplit(m, first + 4, Be32(t.flags), t.target + t.options);
    HoldsSplit(m, first + 8, t.target, t.options);
    ReadIcmpHeader(m, first, NeighborType(t), t.code, t.checksum);
    HoldsRange(m, first + 8, t.target);
    HoldsRange(m, first + 24, t.options);
    var kind := if t.advertisement then NeighborAdvertisement else NeighborSolicitation;
    ReadLast(m, AtIpNext(58, first, last), Icmp6(kind, first, last));
  }

  lemma DataRoundTrip(m: Memory, first: int, t: Segment)
    requires t.Data? && Starts(t) && m.Holds(first, t.data)
    ensures ReadAll(m, Chain(m, AtIpNext(t.protocol, first, first + |t.data|))) == SegmentReadings(t)
  {
    hide Memory.Holds;
    var last := first + |t.data|;
    if t.protocol == 59 || t.protocol == 132 {
      assert Found(m, AtIpNext(t.protocol, first, last)) == [];
    } else {
      HoldsRange(m, first, t.data);
      ReadLast(m, AtIpNext(t.protocol, first, last), Payload(first, last));
    }
  }

  lemma SegmentRoundTrip(m: Memory, first: int, t: Segment)
    requires ValidSegment(t) && Starts(t) && m.Holds(first, SegmentBytes(t))
    ensures var last := first + |SegmentBytes(t)|;
            ReadAll(m, Chain(m, AtIpNext(SegmentProtocol(t), first, last))) == SegmentReadings(t)
  {
    hide SegmentReadings, ReadAll, Chain;
    match t
    case TcpSegment(_, _, _, _, _, _, _, _, _, _) => TcpRoundTrip(m, first, t);
    case UdpDatagram(_, _, _, _, _) => UdpRoundTrip(m, first, t);
    case Icmp4Message(_, _, _, _) => Icmp4RoundTrip(m, first, t);
    case Icmp6Message(_, _, _, _) => Icmp6RoundTrip(m, first, t);
    case NeighborMessage(_, _, _, _, _, _) => NeighborRoundTrip(m, first, t);
    case Data(_, _) => DataRoundTrip(m, first, t);
  }

  /** The event an extension causes. */
  function ExtensionEvent(x: Extension, at: int, last: int): Event {
    match x
    case Options(_, _) => Ext(at, last)
    case Fragmentation(_, _, _, _) => Frag(at, last)
    case Authentication(_, _, _) => Ah(at, last)
  }

  /** What is to be shown of one extension in the chain. */
  ghost predicate ReadsExtension(m: Memory, at: int, x: Extension, next: Byte, last: int)
    requires ValidExtension(x)
  {
    var e := ExtensionEvent(x, at, last);
    && Found(m, AtIpNext(ExtensionProtocol(x), at, last)) == [e]
    && Read(m, e) == ExtensionReading(x, next)
    && Successor(m, e, last) == AtIpNext(next, at + |ExtensionBytes(x, next)|, last)
  }

  lemma ReadOptions(m: Memory, at: int, x: Extension, next: Byte, last: int)
    requires x.Options? && ValidExtension(x) && m.Holds(at, ExtensionBytes(x, next))
    requires at + |ExtensionBytes(x, next)| <= last
    ensures ReadsExtension(m, at, x, next, last)
  {
    ReadTwo(m, at, ExtensionBytes(x, next));
    hide Memory.Holds, Memory.At;
  }

  lemma ReadFragmentation(m: Memory, at: int, x: Extension, next: Byte, last: int)
    requires x.Fragmentation? && ValidExtension(x) && m.Holds(at, ExtensionBytes(x, next))
    requires at + |ExtensionBytes(x, next)| <= last
    ensures ReadsExtension(m, at, x, next, last)
  {
    hide Memory.Holds, Memory.At, Memory.U16, Memory.U32, Be16, Be32;
    var word := x.offset * 8 + x.reserved * 2 + if x.more then 1 else 0;
    ReadTwo(m, at, ExtensionBytes(x, next));
    HoldsSplit(m, at, [next, 0] + Be16(word), Be32(x.id));
    HoldsSplit(m, at, [next, 0], Be16(word));
    ReadBe16(m, at + 2, word);
    ReadBe32(m, at + 4, x.id);
  }

  lemma AuthenticationFields(m: Memory, at: int, x: Extension, next: Byte)
    requires x.Authentication? && ValidExtension(x) && m.Holds(at, ExtensionBytes(x, next))
    ensures m.At(at) == next && m.At(at + 1) == |x.icv| / 4 + 1
    ensures m.U32(at + 4) == x.spi && m.U32(at + 8) == x.sequence
    ensures m.Range(at + 12, at + 12 + |x.icv|) == x.icv
  {
    hide Memory.Holds, Memory.At, Memory.U16, Memory.U32, Be16, Be32;
    var front := [next, |x.icv| / 4 + 1, 0, 0];
    ReadTwo(m, at, ExtensionBytes(x, next));
    HoldsSplit(m, at, front + Be32(x.spi) + Be32(x.sequence), x.icv);
    HoldsSplit(m, at, front + Be32(x.spi), Be32(x.sequence));
    HoldsSplit(m, at, front, Be32(x.spi));
    ReadBe32(m, at + 4, x.spi);
    ReadBe32(m, at + 8, x.sequence);
    HoldsRange(m, at + 12, x.icv);
  }

  lemma ReadAuthentication(m: Memory, at: int, x: Extension, next: Byte, last: int)
    requires x.Authentication? && ValidExtension(x) && m.Holds(at, ExtensionBytes(x, next))
    requires at + |ExtensionBytes(x, next)| <= last
    ensures ReadsExtension(m, at, x, next, last)
  {
    AuthenticationFields(m, at, x, next);
    hide Memory.Holds, Memory.At, Memory.U16, Memory.U32, Memory.Range, Be32;
  }

  lemma ReadExtension(m: Memory, at: int, x: Extension, next: Byte, last: int)
    requires ValidExtension(x) && m.Holds(at, ExtensionBytes(x, next))
    requires at + |ExtensionBytes(x, next)| <= last
    ensures ReadsExtension(m, at, x, next, last)
  {
    match x
    case Options(_, _) => ReadOptions(m, at, x, next, last);
    case Fragmentation(_, _, _, _) => ReadFragmentation(m, at, x, next, last);
    case Authentication(_, _, _) => ReadAuthentication(m, at, x, next, last);
  }

  lemma {:induction false} ExtensionsRoundTrip(m: Memory, first: int, xs: seq<Extension>, t: Segment)
    requires ValidSegment(t) && Starts(t) && (forall x :: x in xs ==> ValidExtension(x))
    requires m.Holds(first, V6Data(xs, t))
    ensures var last := first + |V6Data(xs, t)|;
            ReadAll(m, Chain(m, AtIpNext(FirstProtocol(xs, t), first, last))) == V6DataReadings(xs, t)
    decreases |xs|
  {
    hide Memory.Holds, Memory.U16, Memory.U32, ExtensionBytes, ExtensionReading, ExtensionProtocol, SegmentBytes,
      SegmentReadings, Read, ReadAll, Found, Successor, Chain;
    if xs == [] {
      SegmentRoundTrip(m, first, t);
    } else {
      var next := FirstProtocol(xs[1..], t);
      var last := first + |V6Data(xs, t)|;
      HoldsSplit(m, first, ExtensionBytes(xs[0], next), V6Data(xs[1..], t));
      assert ValidExtension(xs[0]) by { assert xs[0] in xs; }
      ReadExtension(m, first, xs[0], next, last);
      ReadStep(m, AtIpNext(FirstProtocol(xs, t), first, last), ExtensionEvent(xs[0], first, last));
      ExtensionsRoundTrip(m, first + |ExtensionBytes(xs[0], next)|, xs[1..], t);
    }
  }

  lemma V4HeaderFields(m: Memory, at: int, n: Network, t: Segment, total: int)
    requires n.V4? && ValidSegment(t) && ValidNetwork(n, t)
    requires total == IPV4_MIN_LENGTH + |n.options| + |SegmentBytes(t)|
    requires m.Holds(at, V4Header(n, t))
    ensures m.At(at) == 4 * 16 + 5 + |n.options| / 4 && m.At(at + 1) == n.dscp * 4 + n.ecn
    ensures m.U16(at + 2) == total && m.U16(at + 4) == n.id && m.U16(at + 6) == n.flags * 0x2000 + n.offset
    ensures m.At(at + 6) == n.flags * 0x20 + n.offset / 0x100
    ensures m.At(at + 8) == n.ttl && m.At(at + 9) == SegmentProtocol(t) && m.U16(at + 10) == n.checksum
  {
    hide Memory.Holds, Memory.U16, Memory.U32, Be16, Be32, SegmentBytes;
    var a: seq<Byte> := [4 * 16 + 5 + |n.options| / 4, n.dscp * 4 + n.ecn];
    var b, c, d := Be16(total), Be16(n.id), Be16(n.flags * 0x2000 + n.offset);
    var e: seq<Byte> := [n.ttl, SegmentProtocol(t)];
    HoldsSplit(m, at, a + b + c + d + e, Be16(n.checksum));
    HoldsSplit(m, at, a + b + c + d, e);
    HoldsSplit(m, at, a + b + c, d);
    HoldsSplit(m, at, a + b, c);
    HoldsSplit(m, at, a, b);
    ReadTwo(m, at, a);
    ReadTwo(m, at + 8, e);
    ReadBe16(m, at + 2, total);
    ReadBe16(m, at + 4, n.id);
    ReadBe16(m, at + 6, n.flags * 0x2000 + n.offset);
    ReadBe16(m, at + 10, n.checksum);
    Octets(m, at + 6);
  }

  lemma V4Successor(m: Memory, at: int, n: Network, t: Segment, last: int)
    requires n.V4? && ValidSegment(t) && ValidNetwork(n, t)
    requires m.Holds(at, V4Header(n, t))
    requires at + |NetworkBytes(n, t)| <= last
    ensures var next, end := at + 20 + |n.options|, at + |NetworkBytes(n, t)|;
            Successor(m, Ipv4(at, last), last) ==
            if n.offset == 0 then AtIpNext(SegmentProtocol(t), next, end) else AtPayload(next, end)
  {
    hide Memory.Holds, Memory.At, Memory.U16, Memory.U32, V4Header, SegmentBytes, SegmentProtocol;
    var total := IPV4_MIN_LENGTH + |n.options| + |SegmentBytes(t)|;
    V4HeaderFields(m, at, n, t, total);
    assert Ipv4Length(m, at) == 20 + |n.options|;
    assert Ipv4FragmentOffset(m, at) == n.offset;
    assert |NetworkBytes(n, t)| == total;
    hide ValidSegment, ValidNetwork, NetworkBytes, Ipv4Length, Ipv4FragmentOffset;
  }

  lemma ReadV4Header(m: Memory, at: int, n: Network, t: Segment, last: int)
    requires n.V4? && ValidSegment(t) && ValidNetwork(n, t)
    requires m.Holds(at, V4Header(n, t)) && m.Holds(at + 12, n.source + n.destination)
    ensures NetworkReadings(n, t, Coded) == [Read(m, Ipv4(at, last))] + V4DataReadings(n, t)
  {
    hide Memory.Holds, Memory.At, Memory.U16, Memory.U32, V4Header, SegmentBytes, V4DataReadings, SegmentProtocol;
    V4HeaderFields(m, at, n, t, IPV4_MIN_LENGTH + |n.options| + |SegmentBytes(t)|);
    HoldsSplit(m, at + 12, n.source, n.destination);
    HoldsRange(m, at + 12, n.source);
    HoldsRange(m, at + 16, n.destination);
    assert Read(m, Ipv4(at, last)) == NetworkReadings(n, t, Coded)[0];
  }

  /** Behind an IPv4 header comes the segment, or, in a later fragment, its data and nothing more. */
  lemma V4DataRoundTrip(m: Memory, first: int, n: Network, t: Segment)
    requires n.V4? && ValidSegment(t) && (if n.offset == 0 then Starts(t) else t.Data?)
    requires m.Holds(first, SegmentBytes(t))
    ensures var last := first + |SegmentBytes(t)|;
            var p := if n.offset == 0 then AtIpNext(SegmentProtocol(t), first, last) else AtPayload(first, last);
            ReadAll(m, Chain(m, p)) == V4DataReadings(n, t)
  {
    if n.offset == 0 {
      SegmentRoundTrip(m, first, t);
    } else {
      ReadPayload(m, first, t.data);
    }
  }

  lemma V6HeaderFields(m: Memory, at: int, n: Network, t: Segment, length: int)
    requires n.V6? && ValidSegment(t) && ValidNetwork(n, t)
    requires length == |V6Data(n.extensions, t)|
    requires m.Holds(at, V6Header(n, t))
    ensures m.At(at) == 6 * 16 + TrafficClass(n) / 16
    ensures ReadTrafficClass(m, at) == TrafficClass(n) && m.U32(at) % 0x10_0000 == n.flowLabel
    ensures m.U16(at + 4) == length
    ensures m.At(at + 6) == FirstProtocol(n.extensions, t) && m.At(at + 7) == n.hopLimit
  {
    hide Memory.Holds, Memory.U16, Memory.U32, Be16, Be32, V6Data;
    var a: seq<Byte> := [6 * 16 + TrafficClass(n) / 16, TrafficClass(n) % 16 * 16 + n.flowLabel / 0x1_0000];
    var b, c := Be16(n.flowLabel % 0x1_0000), Be16(length);
    var d: seq<Byte> := [FirstProtocol(n.extensions, t), n.hopLimit];
    HoldsSplit(m, at, a + b + c, d);
    HoldsSplit(m, at, a + b, c);
    HoldsSplit(m, at, a, b);
    ReadTwo(m, at, a);
    ReadTwo(m, at + 6, d);
    ReadBe16(m, at + 2, n.flowLabel % 0x1_0000);
    ReadBe16(m, at + 4, length);
    Octets(m, at);
    V6FirstWord(TrafficClass(n), n.flowLabel, m.U32(at));
  }

  /** Version, traffic class and flow label share the first four octets. */
  lemma V6FirstWord(trafficClass: int, flowLabel: int, word: int)
    requires 0 <= trafficClass < 0x100 && 0 <= flowLabel < 0x10_0000
    requires word == ((6 * 16 + trafficClass / 16) * 0x100 + trafficClass % 16 * 16 + flowLabel / 0x1_0000) * 0x1_0000
                     + flowLabel % 0x1_0000
    ensures word / 0x10_0000 % 0x100 == trafficClass && word % 0x10_0000 == flowLabel
  {
    assert word == (6 * 0x100 + trafficClass) * 0x10_0000 + flowLabel;
  }

  lemma V6Successor(m: Memory, at: int, n: Network, t: Segment, last: int)
    requires n.V6? && ValidSegment(t) && ValidNetwork(n, t)
    requires m.Holds(at, V6Header(n, t))
    requires at + |NetworkBytes(n, t)| <= last
    ensures Successor(m, Ipv6(at, last), last) ==
            AtIpNext(FirstProtocol(n.extensions, t), at + 40,
                     if V6Data(n.extensions, t) == [] then last else at + |NetworkBytes(n, t)|)
  {
    hide Memory.Holds, Memory.U16, Memory.U32, V6Header, V6Data;
    V6HeaderFields(m, at, n, t, |V6Data(n.extensions, t)|);
    hide ValidSegment, ValidNetwork, FirstProtocol;
  }

  lemma ReadV6Header(m: Memory, at: int, n: Network, t: Segment, last: int)
    requires n.V6? && ValidSegment(t) && ValidNetwork(n, t)
    requires m.Holds(at, V6Header(n, t)) && m.Holds(at + 8, n.source + n.destination)
    ensures NetworkReadings(n, t, Coded) == [Read(m, Ipv6(at, last))] + V6DataReadings(n.extensions, t)
  {
    hide Memory.Holds, Memory.At, Memory.U16, Memory.U32, V6Header, V6Data, V6DataReadings, FirstProtocol;
    V6HeaderFields(m, at, n, t, |V6Data(n.extensions, t)|);
    HoldsSplit(m, at + 8, n.source, n.destination);
    HoldsRange(m, at + 8, n.source);
    HoldsRange(m, at + 24, n.destination);
    assert Read(m, Ipv6(at, last)) == NetworkReadings(n, t, Coded)[0];
  }

  lemma V4RoundTrip(m: Memory, first: int, n: Network, t: Segment)
    requires n.V4? && ValidSegment(t) && ValidNetwork(n, t)
    requires m.Holds(first, NetworkBytes(n, t))
    ensures ReadAll(m, Chain(m, AtEtherNext(0x0800, first, |m.frame|))) == NetworkReadings(n, t, Coded)
  {
    hide Memory.Holds, Memory.U16, Memory.U32, V4Header, SegmentBytes, V4DataReadings, Read, NetworkReadings, Successor,
      Starts;
    var last := |m.frame|;
    HoldsFits(m, first, NetworkBytes(n, t));
    HoldsSplit(m, first, V4Header(n, t), (n.source + n.destination) + (n.options + SegmentBytes(t)));
    HoldsSplit(m, first + 12, n.source + n.destination, n.options + SegmentBytes(t));
    HoldsSplit(m, first + 20, n.options, SegmentBytes(t));
    ReadV4Header(m, first, n, t, last);
    V4Successor(m, first, n, t, last);
    V4DataRoundTrip(m, first + 20 + |n.options|, n, t);
    ReadStep(m, AtEtherNext(0x0800, first, last), Ipv4(first, last));
  }

  /** Behind an announcement that nothing follows, nothing is read, padding included. */
  lemma SilentReads(m: Memory, first: int, last: int, t: Segment)
    requires Silent(t)
    ensures ReadAll(m, Chain(m, AtIpNext(t.protocol, first, last))) == V6DataReadings([], t) == []
  {
    assert Found(m, AtIpNext(t.protocol, first, last)) == [];
  }

  lemma V6RoundTrip(m: Memory, first: int, n: Network, t: Segment)
    requires n.V6? && ValidSegment(t) && ValidNetwork(n, t)
    requires m.Holds(first, NetworkBytes(n, t))
    ensures ReadAll(m, Chain(m, AtEtherNext(0x86dd, first, |m.frame|))) == NetworkReadings(n, t, Coded)
  {
    hide Memory.Holds, Memory.U16, Memory.U32, V6Header, V6Data, V6DataReadings, Read, NetworkReadings, Successor;
    var last := |m.frame|;
    HoldsFits(m, first, NetworkBytes(n, t));
    HoldsSplit(m, first, V6Header(n, t), (n.source + n.destination) + V6Data(n.extensions, t));
    HoldsSplit(m, first + 8, n.source + n.destination, V6Data(n.extensions, t));
    ReadV6Header(m, first, n, t, last);
    V6Successor(m, first, n, t, last);
    if V6Data(n.extensions, t) == [] {
      SilentReads(m, first + 40, last, t);
    } else {
      ExtensionsRoundTrip(m, first + 40, n.extensions, t);
    }
    ReadStep(m, AtEtherNext(0x86dd, first, last), Ipv6(first, last));
  }

  lemma ArpRoundTrip(m: Memory, first: int, b: Body)
    requires b.ArpMessage? && ValidBody(b) && m.Holds(first, BodyBytes(b))
    ensures ReadAll(m, Chain(m, AtEtherNext(0x0806, first, |m.frame|))) == BodyReadings(b, Coded)
  {
    hide Memory.Holds, Memory.At, Memory.U16, Be16;
    var sha, spa, tha, tpa := b.senderHardware, b.senderProtocol, b.targetHardware, b.targetProtocol;
    HoldsFits(m, first, BodyBytes(b));
    HoldsSplit(m, first, ArpHeader(b), (sha + spa) + (tha + tpa));
    ReadArpHeader(m, first, b);
    ReadArpAddresses(m, first, b);
    hide ArpHeader, ArpRange;
    ReadStep(m, AtEtherNext(0x0806, first, |m.frame|), Arp(first));
    assert ReadAll(m, Chain(m, AtEnd)) == [];
  }

  lemma ReadArpAddresses(m: Memory, at: int, b: Body)
    requires b.ArpMessage? && ValidBody(b)
    requires m.Holds(at + ARP_MIN_LENGTH,
                     (b.senderHardware + b.senderProtocol) + (b.targetHardware + b.targetProtocol))
    ensures var h, p := |b.senderHardware|, |b.senderProtocol|;
            && ArpRange(m, at, 0, h) == b.senderHardware && ArpRange(m, at, h, p) == b.senderProtocol
            && ArpRange(m, at, h + p, h) == b.targetHardware && ArpRange(m, at, 2 * h + p, p) == b.targetProtocol
  {
    hide Memory.Holds, Memory.At;
    var sha, spa, tha, tpa := b.senderHardware, b.senderProtocol, b.targetHardware, b.targetProtocol;
    var first := at + ARP_MIN_LENGTH;
    HoldsSplit(m, first, sha + spa, tha + tpa);
    HoldsSplit(m, first, sha, spa);
    HoldsSplit(m, first + |sha + spa|, tha, tpa);
    HoldsRange(m, first, sha);
    HoldsRange(m, first + |sha|, spa);
    HoldsRange(m, first + |sha| + |spa|, tha);
    HoldsRange(m, first + 2 * |sha| + |spa|, tpa);
  }

  lemma ReadArpHeader(m: Memory, at: int, b: Body)
    requires b.ArpMessage? && ValidBody(b) && m.Holds(at, ArpHeader(b))
    ensures m.U16(at) == b.hardwareType && m.U16(at + 2) == b.protocolType
    ensures m.At(at + 4) == |b.senderHardware| && m.At(at + 5) == |b.senderProtocol|
    ensures m.U16(at + 6) == b.operation && m.U16(at + 3) == Operation(b, Coded)
  {
    hide Memory.Holds, Be16;
    var types := Be16(b.hardwareType) + Be16(b.protocolType);
    var lengths: seq<Byte> := [|b.senderHardware|, |b.senderProtocol|];
    HoldsSplit(m, at, types + lengths, Be16(b.operation));
    HoldsSplit(m, at, types, lengths);
    HoldsSplit(m, at, Be16(b.hardwareType), Be16(b.protocolType));
    ReadBe16(m, at, b.hardwareType);
    ReadBe16(m, at + 2, b.protocolType);
    ReadTwo(m, at + 4, lengths);
    ReadBe16(m, at + 6, b.operation);
    Octets(m, at + 2);
    Octets(m, at + 3);
  }

  /** Data of an unknown type reach to the end of the frame: no header says where they end. */
  lemma UnknownRoundTrip(m: Memory, first: int, b: Body)
    requires b.Unknown? && ValidBody(b) && m.Holds(first, b.data) && first + |b.data| == |m.frame|
    ensures ReadAll(m, Chain(m, AtEtherNext(b.etherType, first, |m.frame|))) == [PayloadReading(b.data)]
  {
    hide Memory.Holds;
    HoldsRange(m, first, b.data);
    ReadLast(m, AtEtherNext(b.etherType, first, |m.frame|), Payload(first, |m.frame|));
  }

  /** Bodies of unknown type fill the rest of the frame; others may be followed by padding. */
  predicate FillsFrame(b: Body, first: int, length: nat, m: Memory) {
    b.Unknown? ==> first + length == |m.frame|
  }

  lemma BodyRoundTrip(m: Memory, first: int, b: Body)
    requires ValidBody(b) && m.Holds(first, BodyBytes(b)) && FillsFrame(b, first, |BodyBytes(b)|, m)
    ensures ReadAll(m, Chain(m, AtEtherNext(BodyType(b), first, |m.frame|))) == BodyReadings(b, Coded)
  {
    hide ReadAll, Chain, NetworkReadings, ValidNetwork, ValidSegment, Memory.Holds;
    match b
    case Ip(n, t) => if n.V4? { V4RoundTrip(m, first, n, t); } else { V6RoundTrip(m, first, n, t); }
    case Unknown(_, _) => UnknownRoundTrip(m, first, b);
    case _ => ArpRoundTrip(m, first, b);
  }

  /** What the two shifts make of a tag control information field: the id alone, and the id in place of the priority. */
  lemma ReadTci(tag: Tag)
    requires ValidTag(tag)
    ensures Tci(tag) % 0x1000 == tag.vid && Tci(tag) / 32 % 0x100 == Priority(tag, Coded)
    ensures Tci(tag) / 0x2000 == tag.pcp
  {
  }

  lemma {:induction false} TaggedRoundTrip(m: Memory, first: int, tags: seq<Tag>, b: Body)
    requires ValidBody(b) && (forall tag :: tag in tags ==> ValidTag(tag))
    requires m.Holds(first, TaggedBytes(tags, b)) && FillsFrame(b, first, |TaggedBytes(tags, b)|, m)
    ensures ReadAll(m, Chain(m, AtEtherNext(TypeBefore(tags, b), first, |m.frame|))) == TaggedReadings(tags, b, Coded)
    decreases |tags|
  {
    hide Memory.Holds, Memory.U16, Memory.U32, Be16, Be32, BodyBytes, BodyReadings;
    if tags == [] {
      BodyRoundTrip(m, first, b);
    } else {
      var ty, tci := TypeBefore(tags[1..], b), Tci(tags[0]);
      HoldsSplit(m, first, Be16(tci) + Be16(ty), TaggedBytes(tags[1..], b));
      HoldsSplit(m, first, Be16(tci), Be16(ty));
      ReadBe16(m, first, tci);
      ReadBe16(m, first + 2, ty);
      ReadTci(tags[0]);
      hide Tci;
      TaggedRoundTrip(m, first + 4, tags[1..], b);
      ReadStep(m, AtEtherNext(0x8100, first, |m.frame|), Vlan(first));
    }
  }

  /** What a padded packet looks like from the receiving end: padding cannot be told from data of unknown type. */
  function PaddedBody(b: Body, padding: seq<Byte>): Body {
    if b.Unknown? then b.(data := b.data + padding) else b
  }

  function Padded(p: Packet, padding: seq<Byte>): (q: Packet)
    ensures ValidPacket(p) ==> ValidPacket(q)
  {
    p.(body := PaddedBody(p.body, padding))
  }

  lemma {:induction false} PaddedTagged(tags: seq<Tag>, b: Body, padding: seq<Byte>)
    requires ValidBody(b) && b.Unknown? && forall tag :: tag in tags ==> ValidTag(tag)
    ensures TaggedBytes(tags, b) + padding == TaggedBytes(tags, PaddedBody(b, padding))
    decreases |tags|
  {
    if tags != [] {
      PaddedTagged(tags[1..], b, padding);
    }
  }

  lemma PaddedSerialises(p: Packet, padding: seq<Byte>)
    requires ValidPacket(p)
    ensures Serialise(p) + padding == Serialise(Padded(p, padding)) + if p.body.Unknown? then [] else padding
  {
    if p.body.Unknown? {
      PaddedTagged(p.tags, p.body, padding);
      hide TaggedBytes;
    } else {
      assert Padded(p, padding) == p;
    }
  }

  /** The walk of a serialised packet reads the packet's coded readings. */
  lemma WalkReads(p: Packet, padding: seq<Byte>, outside: int -> Byte)
    requires ValidPacket(p)
    ensures var m := Memory(Serialise(p) + padding, outside);
            ReadAll(m, Headers(m)) == PacketReadings(Padded(p, padding), Coded)
  {
    var q := Padded(p, padding);
    PaddedSerialises(p, padding);
    hide Serialise, Headers, Padded, ValidPacket;
    if p.body.Unknown? {
      UnpaddedReads(q, [], outside);
    } else {
      UnpaddedReads(q, padding, outside);
    }
  }

  lemma UnpaddedReads(p: Packet, padding: seq<Byte>, outside: int -> Byte)
    requires ValidPacket(p) && (p.body.Unknown? ==> padding == [])
    ensures var m := Memory(Serialise(p) + padding, outside);
            ReadAll(m, Headers(m)) == PacketReadings(p, Coded)
  {
    hide Memory.Holds, Memory.U16, Memory.U32, Be16, Be32, TaggedBytes, TaggedReadings, BodyType;
    var m := Memory(Serialise(p) + padding, outside);
    var ty := TypeBefore(p.tags, p.body);
    HoldsWhole(m.frame, outside);
    HoldsSplit(m, 0, Serialise(p), padding);
    HoldsSplit(m, 0, (p.destination + p.source) + Be16(ty), TaggedBytes(p.tags, p.body));
    HoldsSplit(m, 0, p.destination + p.source, Be16(ty));
    HoldsSplit(m, 0, p.destination, p.source);
    HoldsRange(m, 0, p.destination);
    HoldsRange(m, 6, p.source);
    ReadBe16(m, 12, ty);
    TypeIsFollowed(p.tags, p.body);
    TaggedRoundTrip(m, 14, p.tags, p.body);
    ReadStep(m, AtEther(0, |m.frame|), Ether(0));
  }

  lemma TypeIsFollowed(tags: seq<Tag>, b: Body)
    requires ValidBody(b)
    ensures TypeBefore(tags, b) >= MIN_ETHER_TYPE
  {
  }

  // Packets have no readings but these

  lemma {:induction false} V6ReadingsKnown(xs: seq<Extension>, t: Segment)
    ensures OtherReading !in V6DataReadings(xs, t)
    decreases |xs|
  {
    if xs != [] {
      V6ReadingsKnown(xs[1..], t);
    }
  }

  lemma {:induction false} TaggedReadingsKnown(tags: seq<Tag>, b: Body, a: Accessors)
    requires ValidBody(b)
    ensures OtherReading !in TaggedReadings(tags, b, a)
    decreases |tags|
  {
    if tags != [] {
      TaggedReadingsKnown(tags[1..], b, a);
    } else if b.Ip? && b.network.V6? {
      V6ReadingsKnown(b.network.extensions, b.segment);
    }
  }

  lemma PacketReadingsKnown(p: Packet, a: Accessors)
    requires ValidPacket(p)
    ensures OtherReading !in PacketReadings(p, a)
  {
    TaggedReadingsKnown(p.tags, p.body, a);
  }

  // -------------------------------------------------------------------------------------
  // What is read right
  // -------------------------------------------------------------------------------------

  /** The upper seven bits of the VLAN id happen to spell the priority, and the indicator is clear. */
  predicate PriorityRight(tag: Tag) {
    !tag.dei && 32 * tag.pcp <= tag.vid < 32 * tag.pcp + 32
  }

  /** The upper bits of the DSCP happen to spell the ECN. */
  predicate EcnRight(n: Network)
    requires n.V6?
  {
    n.dscp == 2 * n.ecn || n.dscp == 2 * n.ecn + 1
  }

  /** The operation happens to be the octet before the lengths together with the first of these. */
  predicate OperationRight(b: Body)
    requires b.ArpMessage?
  {
    b.operation / 0x100 == b.protocolType % 0x100 && b.operation % 0x100 == |b.senderHardware|
  }

  /** The same conditions for any header in any frame, on the octets alone. */
  lemma PriorityRightIff(m: Memory, at: int)
    ensures Read(m, Vlan(at)).pcp == m.U16(at) / 0x2000 <==> m.U16(at) / 0x2000 == m.U16(at) % 0x2000 / 32
  {
    ShiftedTci(m.U16(at));
    hide Memory.U16;
  }

  lemma ShiftedTci(tci: int)
    ensures tci / 32 % 0x100 == tci % 0x2000 / 32
  {
  }

  lemma EcnRightIff(m: Memory, at: int, last: int)
    ensures var r := Read(m, Ipv6(at, last));
            r.ecn == r.trafficClass % 4 <==> r.dscp / 2 == r.trafficClass % 4
  {
  }

  lemma OperationRightIff(m: Memory, at: int)
    ensures Read(m, Arp(at)).operation == m.U16(at + 6) <==>
            m.At(at + 6) == m.At(at + 3) && m.At(at + 7) == m.At(at + 4)
  {
    Octets(m, at + 3);
    Octets(m, at + 6);
  }

  predicate BodyRight(b: Body) {
    match b
    case Ip(n, _) => n.V6? ==> EcnRight(n)
    case Unknown(_, _) => true
    case _ => OperationRight(b)
  }

  predicate ReadRight(p: Packet) {
    (forall tag :: tag in p.tags ==> PriorityRight(tag)) && BodyRight(p.body)
  }

  /** A reading without the field whose accessor is not to be relied on. */
  function Reliable(r: Reading): Reading {
    match r
    case VlanReading(_, _, _) => r.(pcp := 0)
    case Ipv6Reading(_, _, _, _, _, _, _, _, _, _) => r.(ecn := 0)
    case ArpReading(_, _, _, _, _, _, _) => r.(operation := 0)
    case _ => r
  }

  /** Two lists of readings that differ in unreliable fields at most. */
  ghost predicate AgreeReliably(a: seq<Reading>, b: seq<Reading>) {
    |a| == |b| && forall i :: 0 <= i < |a| ==> Reliable(a[i]) == Reliable(b[i])
  }

  lemma PriorityIff(tag: Tag)
    requires ValidTag(tag)
    ensures Priority(tag, Coded) == Priority(tag, Intended) <==> PriorityRight(tag)
  {
  }

  lemma BodyAgrees(b: Body)
    requires ValidBody(b)
    ensures BodyReadings(b, Coded) == BodyReadings(b, Intended) <==> BodyRight(b)
    ensures AgreeReliably(BodyReadings(b, Coded), BodyReadings(b, Intended))
  {
    hide V6DataReadings, SegmentReadings, V6Data, SegmentBytes, FirstProtocol;
    if b.Ip? && b.network.V6? {
      var coded, intended := NetworkReadings(b.network, b.segment, Coded), NetworkReadings(b.network, b.segment, Intended);
      assert coded[1..] == intended[1..];
      assert coded == [coded[0]] + coded[1..] && intended == [intended[0]] + intended[1..];
    } else if b.ArpMessage? {
      assert BodyReadings(b, Coded)[0].operation == Operation(b, Coded);
      assert BodyReadings(b, Intended)[0].operation == Operation(b, Intended);
    }
  }

  lemma {:induction false} TaggedAgree(tags: seq<Tag>, b: Body)
    requires ValidBody(b) && (forall tag :: tag in tags ==> ValidTag(tag))
    ensures TaggedReadings(tags, b, Coded) == TaggedReadings(tags, b, Intended) <==>
            (forall tag :: tag in tags ==> PriorityRight(tag)) && BodyRight(b)
    ensures AgreeReliably(TaggedReadings(tags, b, Coded), TaggedReadings(tags, b, Intended))
    decreases |tags|
  {
    hide BodyReadings, BodyRight;
    if tags == [] {
      BodyAgrees(b);
    } else {
      TaggedAgree(tags[1..], b);
      var coded, intended := TaggedReadings(tags, b, Coded), TaggedReadings(tags, b, Intended);
      assert coded[1..] == TaggedReadings(tags[1..], b, Coded) && intended[1..] == TaggedReadings(tags[1..], b, Intended);
      assert coded == [coded[0]] + coded[1..] && intended == [intended[0]] + intended[1..];
      assert tags == [tags[0]] + tags[1..] && tags[0] in tags;
      PriorityIff(tags[0]);
    }
  }

  lemma ReadingsAgree(p: Packet)
    requires ValidPacket(p)
    ensures AgreeReliably(PacketReadings(p, Coded), PacketReadings(p, Intended))
    ensures PacketReadings(p, Coded) == PacketReadings(p, Intended) <==> ReadRight(p)
  {
    TaggedAgree(p.tags, p.body);
    hide TaggedReadings, BodyRight, PriorityRight;
    var coded, intended := PacketReadings(p, Coded), PacketReadings(p, Intended);
    assert coded[0] == intended[0];
    assert coded[1..] == TaggedReadings(p.tags, p.body, Coded) && intended[1..] == TaggedReadings(p.tags, p.body, Intended);
    assert coded == [coded[0]] + coded[1..] && intended == [intended[0]] + intended[1..];
  }

  /**
   * Any packet, serialised, padded with any octets and lying anywhere in memory, is read back
   * header by header, and then exactly its payload. All that is read is the packet's own, but
   * for the priorities of tags, the ECN of IPv6 and the operation of ARP; and everything is, if
   * and only if these happen to be spelt by the bits that are read in their place.
   */
  lemma SerialiseThenParse(p: Packet, padding: seq<Byte>, outside: int -> Byte)
    requires ValidPacket(p)
    ensures var m := Memory(Serialise(p) + padding, outside);
            var intended := PacketReadings(Padded(p, padding), Intended);
            && AgreeReliably(ReadAll(m, Headers(m)), intended)
            && (ReadAll(m, Headers(m)) == intended <==> ReadRight(p))
  {
    WalkReads(p, padding, outside);
    ReadingsAgree(Padded(p, padding));
    assert ReadRight(Padded(p, padding)) == ReadRight(p);
  }

  /** The same, for the walk itself with any callback that always continues. */
  lemma ContinuingCallbackSeesEverything<S>(p: Packet, padding: seq<Byte>, outside: int -> Byte, f: Callback<S>, s: S)
    requires ValidPacket(p)
    requires forall s': S, e :: f(s', e).1
    ensures var m := Memory(Serialise(p) + padding, outside);
            var readings, intended := ReadAll(m, ForEachHeader(m, f, s).calls), PacketReadings(Padded(p, padding), Intended);
            && AgreeReliably(readings, intended)
            && (readings == intended <==> ReadRight(p))
  {
    var m := Memory(Serialise(p) + padding, outside);
    EarlyStopIsTruncation(m, f, s);
    SerialiseThenParse(p, padding, outside);
    assert forall k :: 0 <= k < |Headers(m)| ==> Answer(Headers(m), f, s, k);
  }

  /** Behind the Ethernet header and the tags, the readings are those of the IP packet. */
  lemma IpBehindTags(p: Packet, padding: seq<Byte>, outside: int -> Byte)
    requires ValidPacket(p) && p.body.Ip?
    ensures var m := Memory(Serialise(p) + padding, outside);
            && |Headers(m)| == |p.tags| + 1 + |BodyReadings(p.body, Coded)|
            && ReadAll(m, Headers(m))[|p.tags| + 1..] == BodyReadings(p.body, Coded)
  {
    var m := Memory(Serialise(p) + padding, outside);
    WalkReads(p, padding, outside);
    assert Padded(p, padding) == p;
    BehindTags(p.tags, p.body, Coded);
    assert PacketReadings(p, Coded)[1..] == TaggedReadings(p.tags, p.body, Coded);
    hide Headers, Serialise, ReadAll, BodyReadings, TaggedReadings, ValidPacket;
    assert PacketReadings(p, Coded)[|p.tags| + 1..] == TaggedReadings(p.tags, p.body, Coded)[|p.tags|..];
  }

  /**
   * All but the first fragment of an IPv4 packet: whatever the protocol, and whatever the octets,
   * the data are handed out as they are, and no header is looked for in them.
   */
  lemma LaterFragmentsArePayload(p: Packet, padding: seq<Byte>, outside: int -> Byte)
    requires ValidPacket(p) && p.body.Ip? && p.body.network.V4? && p.body.network.offset > 0
    ensures var m := Memory(Serialise(p) + padding, outside);
            && |Headers(m)| == |p.tags| + 3
            && var ip := ReadAll(m, Headers(m))[|p.tags| + 1..];
               && ip[0].Ipv4Reading? && ip[0].fragmentOffset == p.body.network.offset
               && ip[0].protocol == p.body.segment.protocol
               && ip[1] == PayloadReading(p.body.segment.data)
  {
    IpBehindTags(p, padding, outside);
    hide Headers, Serialise, ReadAll;
  }

  /** The first fragment, or the whole, of an IPv4 packet, whatever its flags: the transport header is looked for and read. */
  lemma FirstFragmentsAreParsed(p: Packet, padding: seq<Byte>, outside: int -> Byte)
    requires ValidPacket(p) && p.body.Ip? && p.body.network.V4? && p.body.network.offset == 0
    ensures var m := Memory(Serialise(p) + padding, outside);
            && |Headers(m)| == |p.tags| + 2 + |SegmentReadings(p.body.segment)|
            && var ip := ReadAll(m, Headers(m))[|p.tags| + 1..];
               && ip[0].Ipv4Reading? && ip[0].flags == p.body.network.flags
               && ip[1..] == SegmentReadings(p.body.segment)
  {
    IpBehindTags(p, padding, outside);
    hide Headers, Serialise, ReadAll, SegmentReadings;
  }

  /** Tags come first, and then what they are put around. */
  lemma {:induction false} BehindTags(tags: seq<Tag>, b: Body, a: Accessors)
    requires ValidBody(b)
    ensures |TaggedReadings(tags, b, a)| == |tags| + |BodyReadings(b, a)|
    ensures TaggedReadings(tags, b, a)[|tags|..] == BodyReadings(b, a)
    decreases |tags|
  {
    hide BodyReadings;
    if tags != [] {
      BehindTags(tags[1..], b, a);
      assert TaggedReadings(tags, b, a)[1..] == TaggedReadings(tags[1..], b, a);
    }
  }

  // Inputs that are misread

  const DATAGRAM := UdpDatagram(1, 2, 0, [], Whole)
  const V6_WITH_ECN := V6(0, 1, 0, 64, Zeros(16), Zeros(16), [])
  const URGENT := Packet(Zeros(6), Zeros(6), [Tag(5, false, 1)], Ip(V6_WITH_ECN, DATAGRAM))
  const ARP_REQUEST := ArpMessage(1, 0x0800, 1, Zeros(6), Zeros(4), Zeros(6), Zeros(4))

  lemma UrgentIsValid()
    ensures ValidPacket(URGENT)
  {
    assert |SegmentBytes(DATAGRAM)| == 8 && V6Data([], DATAGRAM) == SegmentBytes(DATAGRAM);
    hide SegmentBytes, V6Data;
    assert ValidNetwork(V6_WITH_ECN, DATAGRAM);
  }

  lemma UrgentReadings()
    requires ValidPacket(URGENT)
    ensures var readings := PacketReadings(URGENT, Coded);
            && |readings| == 5
            && readings[1] == VlanReading(1, 0, IPV6_TYPE)
            && readings[2].Ipv6Reading? && readings[2].ecn == 0
  {
    hide SegmentBytes, V6Data, ValidNetwork, ValidSegment, Zeros;
    assert SegmentReadings(DATAGRAM) == [UdpReading(1, 2, 8, 0), PayloadReading([])];
    assert V6DataReadings([], DATAGRAM) == SegmentReadings(DATAGRAM);
    var body := BodyReadings(URGENT.body, Coded);
    assert |body| == 3 && body[0].Ipv6Reading? && body[0].ecn == 0;
    hide BodyReadings;
    assert URGENT.tags[1..] == [];
    assert TaggedReadings(URGENT.tags, URGENT.body, Coded) == [VlanReading(1, 0, IPV6_TYPE)] + body;
  }

  /** Priority 5 on VLAN 1 is read as 0, and so is the ECN of traffic class 1. */
  lemma PriorityAndEcnMisread(padding: seq<Byte>, outside: int -> Byte)
    ensures ValidPacket(URGENT)
    ensures var m := Memory(Serialise(URGENT) + padding, outside);
            && |Headers(m)| == 5
            && Read(m, Headers(m)[1]) == VlanReading(1, 0, IPV6_TYPE)
            && Read(m, Headers(m)[2]).Ipv6Reading? && Read(m, Headers(m)[2]).ecn == 0
  {
    UrgentIsValid();
    UrgentReadings();
    hide ValidPacket, PacketReadings, Headers, Serialise, Read, ReadAll;
    var m := Memory(Serialise(URGENT) + padding, outside);
    WalkReads(URGENT, padding, outside);
    ReadAllAt(m, Headers(m));
  }

  /** The operation of an ARP request for IPv4 over Ethernet, 1, is read as 6. */
  lemma OperationMisread(outside: int -> Byte)
    ensures var p := Packet(Zeros(6), Zeros(6), [], ARP_REQUEST);
            && ValidPacket(p)
            && var m := Memory(Serialise(p), outside);
               && |Headers(m)| == 2
               && Read(m, Headers(m)[1]).ArpReading? && Read(m, Headers(m)[1]).operation == 6
  {
    var p := Packet(Zeros(6), Zeros(6), [], ARP_REQUEST);
    var m := Memory(Serialise(p), outside);
    assert Serialise(p) + [] == Serialise(p);
    WalkReads(p, [], outside);
    hide Headers, Serialise;
    ReadAllAt(m, Headers(m));
  }

  lemma {:induction false} ReadAllAt(m: Memory, events: seq<Event>)
    ensures |ReadAll(m, events)| == |events|
    ensures forall i :: 0 <= i < |events| ==> ReadAll(m, events)[i] == Read(m, events[i])
    decreases |events|
  {
    if events != [] {
      ReadAllAt(m, events[1..]);
      assert events == [events[0]] + events[1..];
    }
  }
}
