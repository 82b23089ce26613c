/** Building LLDP frames, and reading them back with the packet walk and its LLDPDU accessors. */
module Lldp {
  import opened Bytes
  import opened PacketParser
  import opened PacketRoundTrip

  /** Optional TLVs are whatever octets their own encode functions append. */
  datatype Lldpdu = Lldpdu(
    chassisSubtype: Byte, chassisId: seq<Byte>, portSubtype: Byte, portId: seq<Byte>,
    timeToLive: int, extras: seq<seq<Byte>>)

  const CHASSIS_ID: Byte := 1
  const PORT_ID: Byte := 2
  const TIME_TO_LIVE: Byte := 3
  const MAX_PADDING := 64

  /** Seven bits of type and nine bits of length: longer lengths lose their upper bits. */
  function TlvHeader(tlvType: Byte, infoLength: int): (h: int)
    requires tlvType < 0x80 && 0 <= infoLength < 0x1_0000
    ensures 0 <= h < 0x1_0000
    ensures h % 0x200 == infoLength % 0x200
  {
    tlvType * 0x200 + infoLength % 0x200
  }

  /** Subtype and id, in a 16-bit counter. */
  function IdInfoLength(id: seq<Byte>): int {
    (1 + |id|) % 0x1_0000
  }

  function IdTlv(tlvType: Byte, subtype: Byte, id: seq<Byte>): seq<Byte>
    requires tlvType < 0x80
  {
    (Be16(TlvHeader(tlvType, IdInfoLength(id))) + [subtype]) + id
  }

  function TtlTlv(timeToLive: int): seq<Byte>
    requires 0 <= timeToLive < 0x1_0000
  {
    Be16(TlvHeader(TIME_TO_LIVE, 2)) + Be16(timeToLive)
  }

  ghost predicate ValidPdu(pdu: Lldpdu) {
    0 <= pdu.timeToLive < 0x1_0000
  }

  function PduBytes(pdu: Lldpdu): seq<Byte>
    requires ValidPdu(pdu)
  {
    IdTlv(CHASSIS_ID, pdu.chassisSubtype, pdu.chassisId)
    + (IdTlv(PORT_ID, pdu.portSubtype, pdu.portId)
       + (TtlTlv(pdu.timeToLive) + (Flatten(pdu.extras) + Be16(0))))
  }

  function FrameBytes(destination: seq<Byte>, source: seq<Byte>, pdu: Lldpdu): seq<Byte>
    requires ValidPdu(pdu)
  {
    ((destination + source) + Be16(LLDP_TYPE)) + PduBytes(pdu)
  }

  // -------------------------------------------------------------------------------------
  // The encoders, which append to a container
  // -------------------------------------------------------------------------------------

  class Container {
    var bytes: seq<Byte>

    constructor ()
      ensures bytes == []
    {
      bytes := [];
    }

    method PushBack(s: seq<Byte>)
      modifies this
      ensures bytes == old(bytes) + s
    {
      bytes := bytes + s;
    }

    method PushU16(v: int)
      requires 0 <= v < 0x1_0000
      modifies this
      ensures bytes == old(bytes) + Be16(v)
    {
      PushBack([v / 0x100, v % 0x100]);
    }

    method EncodeId(tlvType: Byte, subtype: Byte, id: seq<Byte>)
      requires tlvType < 0x80
      modifies this
      ensures bytes == old(bytes) + IdTlv(tlvType, subtype, id)
    {
      PushU16(TlvHeader(tlvType, IdInfoLength(id)));
      PushBack([subtype]);
      PushBack(id);
    }

    method EncodeTimeToLive(timeToLive: int)
      requires 0 <= timeToLive < 0x1_0000
      modifies this
      ensures bytes == old(bytes) + TtlTlv(timeToLive)
    {
      PushU16(TlvHeader(TIME_TO_LIVE, 2));
      PushU16(timeToLive);
    }

    /** Every TLV of the tuple in turn, then the end marker. */
    method EncodePdu(pdu: Lldpdu)
      requires ValidPdu(pdu)
      modifies this
      ensures bytes == old(bytes) + PduBytes(pdu)
    {
      EncodeId(CHASSIS_ID, pdu.chassisSubtype, pdu.chassisId);
      EncodeId(PORT_ID, pdu.portSubtype, pdu.portId);
      EncodeTimeToLive(pdu.timeToLive);
      ghost var mandatory := bytes;
      var i := 0;
      while i < |pdu.extras|
        invariant 0 <= i <= |pdu.extras|
        invariant bytes == mandatory + Flatten(pdu.extras[..i])
      {
        FlattenAppend(pdu.extras[..i], pdu.extras[i]);
        assert pdu.extras[..i + 1] == pdu.extras[..i] + [pdu.extras[i]];
        PushBack(pdu.extras[i]);
        i := i + 1;
      }
      assert pdu.extras[..i] == pdu.extras;
      PushU16(0);
    }

    /** Padding is as long as the container is by then, and at most 64 octets. */
    method EncodeFrame(header: EtherHeader, pdu: Lldpdu)
      requires ValidPdu(pdu) && 0 <= header.etherType < 0x1_0000
      modifies this
      ensures var frame := ((header.destination + header.source) + Be16(header.etherType)) + PduBytes(pdu);
              var size := |old(bytes) + frame|;
              bytes == old(bytes) + frame + Zeros(if size < 64 then size else 64)
    {
      header.Encode(this);
      EncodePdu(pdu);
      var size := if |bytes| < MAX_PADDING then |bytes| else MAX_PADDING;
      PushBack(Zeros(size));
    }
  }

  class EtherHeader {
    const destination: seq<Byte>
    const source: seq<Byte>
    var etherType: int

    constructor (destination: seq<Byte>, source: seq<Byte>, etherType: int)
      ensures this.destination == destination && this.source == source && this.etherType == etherType
    {
      this.destination := destination;
      this.source := source;
      this.etherType := etherType;
    }

    method SetEtherType(etherType: int)
      modifies this
      ensures this.etherType == etherType
    {
      this.etherType := etherType;
    }

    method Encode(container: Container)
      requires 0 <= etherType < 0x1_0000
      modifies container
      ensures container.bytes == old(container.bytes) + ((destination + source) + Be16(etherType))
    {
      container.PushBack(destination);
      container.PushBack(source);
      container.PushU16(etherType);
    }
  }

  /** Stacking an LLDPDU on an Ethernet header and encoding both into an empty container. */
  method Encode(header: EtherHeader, pdu: Lldpdu) returns (container: Container)
    requires ValidPdu(pdu)
    modifies header
    ensures header.etherType == 0x88cc
    ensures var frame := FrameBytes(header.destination, header.source, pdu);
            container.bytes == frame + Zeros(if |frame| < 64 then |frame| else 64)
  {
    container := new Container();
    header.SetEtherType(LLDP_TYPE);
    container.EncodeFrame(header, pdu);
    ghost var frame := FrameBytes(header.destination, header.source, pdu);
    assert [] + frame == frame;
  }

  // -------------------------------------------------------------------------------------
  // The accessors of a parsed LLDPDU
  // -------------------------------------------------------------------------------------

  function TlvLength(m: Memory, at: int): int {
    m.U16(at) % 0x200
  }

  /** First and last of an id: the subtype octet is skipped. */
  function IdRange(m: Memory, at: int): (int, int) {
    (at + 3, at + 2 + TlvLength(m, at))
  }

  function PortTlv(m: Memory, at: int): int {
    at + 2 + TlvLength(m, at)
  }

  function ChassisIdRange(m: Memory, at: int): (int, int) {
    IdRange(m, at)
  }

  function ChassisIdSubtype(m: Memory, at: int): Byte {
    m.At(at + 2)
  }

  function PortIdRange(m: Memory, at: int): (int, int) {
    IdRange(m, PortTlv(m, at))
  }

  function PortIdSubtype(m: Memory, at: int): Byte {
    m.At(PortTlv(m, at) + 2)
  }

  function TimeToLive(m: Memory, at: int): int {
    m.U16(PortTlv(m, at) + 2 + TlvLength(m, PortTlv(m, at)) + 2)
  }

  /** The range is properly ordered and holds exactly the octets s. */
  ghost predicate Spells(m: Memory, range: (int, int), s: seq<Byte>) {
    range.1 - range.0 == |s| && m.Range(range.0, range.1) == s
  }

  ghost predicate ReadsBack(m: Memory, at: int, pdu: Lldpdu) {
    && Spells(m, ChassisIdRange(m, at), pdu.chassisId)
    && ChassisIdSubtype(m, at) == pdu.chassisSubtype
    && Spells(m, PortIdRange(m, at), pdu.portId)
    && PortIdSubtype(m, at) == pdu.portSubtype
    && TimeToLive(m, at) == pdu.timeToLive
  }

  /** Ids of at most 510 octets have a length that fits the nine bits. */
  predicate IdsFit(pdu: Lldpdu) {
    |pdu.chassisId| <= 510 && |pdu.portId| <= 510
  }

  /** The nine bits hold the length modulo 512, which is the length itself for ids of at most 510 octets. */
  lemma IdLengthInNineBits(id: seq<Byte>)
    ensures IdInfoLength(id) % 0x200 == (1 + |id|) % 0x200
    ensures (1 + |id|) % 0x200 == 1 + |id| <==> |id| <= 510
  {
  }

  lemma ReadIdTlv(m: Memory, at: int, tlvType: Byte, subtype: Byte, id: seq<Byte>)
    requires tlvType < 0x80 && m.Holds(at, IdTlv(tlvType, subtype, id))
    ensures Spells(m, IdRange(m, at), id) <==> |id| <= 510
    ensures m.At(at + 2) == subtype
    ensures |id| <= 510 ==> at + 2 + TlvLength(m, at) == at + |IdTlv(tlvType, subtype, id)|
  {
    IdLengthInNineBits(id);
    var header := TlvHeader(tlvType, IdInfoLength(id));
    hide TlvHeader, IdInfoLength, Memory.Holds, Memory.U16;
    HoldsSplit(m, at, Be16(header) + [subtype], id);
    HoldsSplit(m, at, Be16(header), [subtype]);
    ReadBe16(m, at, header);
    HoldsAt(m, at + 2, [subtype]);
    assert m.At(at + 2 + 0) == [subtype][0];
    HoldsRange(m, at + 3, id);
  }

  lemma ReadTtl(m: Memory, at: int, timeToLive: int, after: seq<Byte>)
    requires 0 <= timeToLive < 0x1_0000 && m.Holds(at, TtlTlv(timeToLive) + after)
    ensures m.U16(at + 2) == timeToLive
  {
    HoldsSplit(m, at, TtlTlv(timeToLive), after);
    HoldsSplit(m, at, Be16(TlvHeader(TIME_TO_LIVE, 2)), Be16(timeToLive));
    ReadBe16(m, at + 2, timeToLive);
  }

  lemma PduRoundTrip(m: Memory, at: int, pdu: Lldpdu)
    requires ValidPdu(pdu) && m.Holds(at, PduBytes(pdu))
    ensures ReadsBack(m, at, pdu) <==> IdsFit(pdu)
  {
    hide Memory.Holds, Memory.U16, Spells, Be16, TlvHeader, IdTlv, TtlTlv, Flatten;
    var chassis := IdTlv(CHASSIS_ID, pdu.chassisSubtype, pdu.chassisId);
    var port := IdTlv(PORT_ID, pdu.portSubtype, pdu.portId);
    var rest := TtlTlv(pdu.timeToLive) + (Flatten(pdu.extras) + Be16(0));
    HoldsSplit(m, at, chassis, port + rest);
    ReadIdTlv(m, at, CHASSIS_ID, pdu.chassisSubtype, pdu.chassisId);
    if |pdu.chassisId| <= 510 {
      var p := at + |chassis|;
      HoldsSplit(m, p, port, rest);
      ReadIdTlv(m, p, PORT_ID, pdu.portSubtype, pdu.portId);
      if |pdu.portId| <= 510 {
        var t := p + |port|;
        ReadTtl(m, t, pdu.timeToLive, Flatten(pdu.extras) + Be16(0));
      }
    }
  }

  /**
   * Walking an encoded frame, with any octets appended to it, delivers its Ethernet header and
   * one LLDPDU; the LLDPDU reads back as it was written exactly when both ids are at most 510
   * octets long.
   */
  lemma LldpFrameRoundTrip(destination: seq<Byte>, source: seq<Byte>, pdu: Lldpdu,
                           padding: seq<Byte>, outside: int -> Byte)
    requires |destination| == 6 && |source| == 6 && ValidPdu(pdu)
    ensures var m := Memory(FrameBytes(destination, source, pdu) + padding, outside);
            && Headers(m) == [Ether(0), Lldp(14, |m.frame|)]
            && Read(m, Ether(0)) == EtherReading(destination, source, 0x88cc)
            && (ReadsBack(m, 14, pdu) <==> IdsFit(pdu))
  {
    hide Memory.Holds, ReadsBack, PduBytes, Be16, IdsFit;
    var m := Memory(FrameBytes(destination, source, pdu) + padding, outside);
    HoldsWhole(m.frame, outside);
    HoldsSplit(m, 0, FrameBytes(destination, source, pdu), padding);
    HoldsSplit(m, 0, (destination + source) + Be16(LLDP_TYPE), PduBytes(pdu));
    HoldsSplit(m, 0, destination + source, Be16(LLDP_TYPE));
    HoldsSplit(m, 0, destination, source);
    HoldsRange(m, 0, destination);
    HoldsRange(m, 6, source);
    ReadBe16(m, 12, LLDP_TYPE);
    PduRoundTrip(m, 14, pdu);
    assert Chain(m, AtEnd) == [];
    assert Chain(m, AtEtherNext(LLDP_TYPE, 14, |m.frame|)) == [Lldp(14, |m.frame|)];
  }

  // -------------------------------------------------------------------------------------
  // The TLVs, as any receiver cuts them
  // -------------------------------------------------------------------------------------

  datatype Tlv = Tlv(tlvType: int, info: seq<Byte>)

  /** The first two octets of a TLV as a number: seven bits of type and nine of length. */
  function TypeAndLength(s: seq<Byte>): nat
    requires |s| >= 2
  {
    BigEndian(s[..2])
  }

  /** One TLV after the other, up to the end marker of type 0 (clause 8.4 of IEEE 802.1AB). */
  function Tlvs(s: seq<Byte>): seq<Tlv>
    decreases |s|
  {
    if |s| < 2 || 2 + TypeAndLength(s) % 512 > |s| then []
    else
      var tlvType, end := TypeAndLength(s) / 512, 2 + TypeAndLength(s) % 512;
      [Tlv(tlvType, s[2..end])] + if tlvType == 0 then [] else Tlvs(s[end..])
  }

  /** The octets are one TLV, and not an end marker. */
  predicate IsTlv(s: seq<Byte>) {
    |s| >= 2 && TypeAndLength(s) / 512 != 0 && |s| == 2 + TypeAndLength(s) % 512
  }

  function AsTlv(s: seq<Byte>): Tlv
    requires |s| >= 2
  {
    Tlv(TypeAndLength(s) / 512, s[2..])
  }

  lemma TlvThenRest(s: seq<Byte>, rest: seq<Byte>)
    requires IsTlv(s)
    ensures Tlvs(s + rest) == [AsTlv(s)] + Tlvs(rest)
  {
    hide BigEndian;
    var all := s + rest;
    assert all[..2] == s[..2] && all[2..|s|] == s[2..] && all[|s|..] == rest;
  }

  lemma HeaderSpells(header: int, info: seq<Byte>)
    requires 0 <= header < 0x1_0000
    ensures TypeAndLength(Be16(header) + info) == header && (Be16(header) + info)[2..] == info
  {
    BigEndianRoundTrip(header);
    assert (Be16(header) + info)[..2] == Be16(header);
  }

  lemma IdIsTlv(tlvType: Byte, subtype: Byte, id: seq<Byte>)
    requires 0 < tlvType < 0x80 && |id| <= 510
    ensures var s := IdTlv(tlvType, subtype, id);
            IsTlv(s) && AsTlv(s) == Tlv(tlvType, [subtype] + id)
  {
    var header := TlvHeader(tlvType, IdInfoLength(id));
    assert header == tlvType * 512 + (1 + |id|);
    assert IdTlv(tlvType, subtype, id) == Be16(header) + ([subtype] + id);
    hide Be16, TlvHeader, IdInfoLength, IdTlv, TypeAndLength;
    HeaderSpells(header, [subtype] + id);
    assert header / 512 == tlvType && header % 512 == 1 + |id|;
  }

  lemma TtlIsTlv(timeToLive: int)
    requires 0 <= timeToLive < 0x1_0000
    ensures var s := TtlTlv(timeToLive);
            IsTlv(s) && AsTlv(s) == Tlv(3, [timeToLive / 0x100, timeToLive % 0x100])
  {
    hide TypeAndLength;
    HeaderSpells(TlvHeader(TIME_TO_LIVE, 2), Be16(timeToLive));
  }

  predicate AreTlvs(extras: seq<seq<Byte>>) {
    forall i :: 0 <= i < |extras| ==> IsTlv(extras[i])
  }

  /** What optional TLVs are cut into. */
  function ExtraTlvs(extras: seq<seq<Byte>>): seq<Tlv>
    requires AreTlvs(extras)
  {
    if extras == [] then []
    else
      assert IsTlv(extras[0]);
      [AsTlv(extras[0])] + ExtraTlvs(extras[1..])
  }

  lemma EndMarker(after: seq<Byte>)
    ensures Tlvs(Be16(0) + after) == [Tlv(0, [])]
  {
    HeaderSpells(0, after);
    assert (Be16(0) + after)[2..2] == [];
  }

  lemma NothingInFront(s: seq<Byte>)
    ensures Flatten([]) + s == s
  {
  }

  lemma FirstInFront(extras: seq<seq<Byte>>, s: seq<Byte>)
    requires extras != []
    ensures Flatten(extras) + s == extras[0] + (Flatten(extras[1..]) + s)
  {
  }

  lemma {:induction false} ExtrasAreCut(extras: seq<seq<Byte>>, after: seq<Byte>)
    requires AreTlvs(extras)
    ensures Tlvs(Flatten(extras) + (Be16(0) + after)) == ExtraTlvs(extras) + [Tlv(0, [])]
    decreases |extras|
  {
    hide Tlvs, Flatten, Be16, IsTlv, AsTlv;
    if extras == [] {
      NothingInFront(Be16(0) + after);
      EndMarker(after);
    } else {
      var rest := Flatten(extras[1..]) + (Be16(0) + after);
      ExtrasAreCut(extras[1..], after);
      FirstInFront(extras, Be16(0) + after);
      assert IsTlv(extras[0]);
      TlvThenRest(extras[0], rest);
    }
  }

  /** The TLVs an LLDPDU is meant to consist of. */
  function OwnTlvs(pdu: Lldpdu): seq<Tlv>
    requires ValidPdu(pdu) && AreTlvs(pdu.extras)
  {
    [Tlv(1, [pdu.chassisSubtype] + pdu.chassisId), Tlv(2, [pdu.portSubtype] + pdu.portId),
     Tlv(3, [pdu.timeToLive / 0x100, pdu.timeToLive % 0x100])]
    + (ExtraTlvs(pdu.extras) + [Tlv(0, [])])
  }

  lemma {:induction false} InfoIsShort(s: seq<Byte>)
    ensures forall i :: 0 <= i < |Tlvs(s)| ==> |Tlvs(s)[i].info| < 512
    decreases |s|
  {
    hide TypeAndLength;
    if |s| >= 2 && 2 + TypeAndLength(s) % 512 <= |s| && TypeAndLength(s) / 512 != 0 {
      InfoIsShort(s[2 + TypeAndLength(s) % 512..]);
    }
  }

  lemma PartsInOrder(a: seq<Byte>, b: seq<Byte>, c: seq<Byte>, d: seq<Byte>, e: seq<Byte>, f: seq<Byte>)
    ensures (a + (b + (c + (d + e)))) + f == a + (b + (c + (d + (e + f))))
  {
  }

  lemma ThreeInFront(a: Tlv, b: Tlv, c: Tlv, rest: seq<Tlv>)
    ensures [a] + ([b] + ([c] + rest)) == [a, b, c] + rest
  {
  }

  lemma FittingPduIsCut(pdu: Lldpdu, after: seq<Byte>)
    requires ValidPdu(pdu) && AreTlvs(pdu.extras) && IdsFit(pdu)
    ensures Tlvs(PduBytes(pdu) + after) == OwnTlvs(pdu)
  {
    var chassis, port := IdTlv(CHASSIS_ID, pdu.chassisSubtype, pdu.chassisId), IdTlv(PORT_ID, pdu.portSubtype, pdu.portId);
    var ttl, rest := TtlTlv(pdu.timeToLive), Flatten(pdu.extras) + (Be16(0) + after);
    IdIsTlv(1, pdu.chassisSubtype, pdu.chassisId);
    IdIsTlv(2, pdu.portSubtype, pdu.portId);
    TtlIsTlv(pdu.timeToLive);
    PartsInOrder(chassis, port, ttl, Flatten(pdu.extras), Be16(0), after);
    assert PduBytes(pdu) + after == chassis + (port + (ttl + rest));
    hide *;
    ExtrasAreCut(pdu.extras, after);
    TlvThenRest(ttl, rest);
    TlvThenRest(port, ttl + rest);
    TlvThenRest(chassis, port + (ttl + rest));
    ThreeInFront(AsTlv(chassis), AsTlv(port), AsTlv(ttl), ExtraTlvs(pdu.extras) + [Tlv(0, [])]);
    OwnInParts(pdu);
  }

  lemma OwnInParts(pdu: Lldpdu)
    requires ValidPdu(pdu) && AreTlvs(pdu.extras)
    ensures OwnTlvs(pdu) ==
            [Tlv(1, [pdu.chassisSubtype] + pdu.chassisId), Tlv(2, [pdu.portSubtype] + pdu.portId),
             Tlv(3, [pdu.timeToLive / 0x100, pdu.timeToLive % 0x100])]
            + (ExtraTlvs(pdu.extras) + [Tlv(0, [])])
  {
  }

  /**
   * Whoever cuts an encoded LLDPDU, with anything behind it, into TLVs gets the chassis id, the
   * port id, the time to live, the optional TLVs in order and the end marker, if and only if both
   * ids have at most 510 octets.
   */
  lemma PduIsCutIntoItsTlvs(pdu: Lldpdu, after: seq<Byte>)
    requires ValidPdu(pdu) && AreTlvs(pdu.extras)
    ensures Tlvs(PduBytes(pdu) + after) == OwnTlvs(pdu) <==> IdsFit(pdu)
  {
    if IdsFit(pdu) {
      FittingPduIsCut(pdu, after);
    } else {
      hide PduBytes, Tlvs;
      InfoIsShort(PduBytes(pdu) + after);
      assert |OwnTlvs(pdu)[0].info| == 1 + |pdu.chassisId| && |OwnTlvs(pdu)[1].info| == 1 + |pdu.portId|;
    }
  }

  /** A chassis id of 511 octets does not read back. */
  lemma LongIdIsLost(destination: seq<Byte>, source: seq<Byte>, padding: seq<Byte>, outside: int -> Byte)
    requires |destination| == 6 && |source| == 6
    ensures var pdu := Lldpdu(7, Zeros(511), 7, [1], 120, []);
            var m := Memory(FrameBytes(destination, source, pdu) + padding, outside);
            Headers(m) == [Ether(0), Lldp(14, |m.frame|)] && !ReadsBack(m, 14, pdu)
  {
    LldpFrameRoundTrip(destination, source, Lldpdu(7, Zeros(511), 7, [1], 120, []), padding, outside);
    hide FrameBytes, Headers, ReadsBack, Read;
  }
}
