/**
 * The match creators copy the addresses of an ARP message into arrays of four and six octets,
 * however long the message says they are.
 */
module AddressCopies {
  import opened Bytes
  import opened PacketParser
  import opened PacketRoundTrip

  const V4_LENGTH := 4
  const MAC_LENGTH := 6

  /** What an array of the given size holds after a copy: filled up with zeros, and no more than it has room for. */
  function Copied(octets: seq<Byte>, size: nat): (r: seq<Byte>)
    ensures |r| == size
    ensures r == octets <==> |octets| == size
  {
    if |octets| <= size then octets + Zeros(size - |octets|) else octets[..size]
  }

  /** An address as it is, or as it is copied. */
  function AddressOctets(octets: seq<Byte>, size: nat, a: Accessors): seq<Byte> {
    if a == Intended then octets else Copied(octets, size)
  }

  /** A zeroed array, and the copy into it; fits is false if some octet was to be written past its end. */
  method CopyInto(octets: seq<Byte>, size: nat) returns (bytes: array<Byte>, fits: bool)
    ensures fresh(bytes) && bytes[..] == Copied(octets, size)
    ensures fits <==> |octets| <= size
    ensures forall i :: 0 <= i < size ==> bytes[i] == if i < |octets| then octets[i] else 0
  {
    bytes := new Byte[size](_ => 0);
    fits := true;
    ZerosAreZero(size);
    assert bytes[..] == Zeros(size);
    for i := 0 to |octets|
      invariant fits <==> i <= size
      invariant bytes[..] == Copied(octets[..i], size)
    {
      CopiedOneMore(octets, i, size);
      if i < size {
        bytes[i] := octets[i];
      } else {
        fits := false;
      }
    }
    assert octets[..|octets|] == octets;
    if |octets| <= size {
      ZerosAreZero(size - |octets|);
    }
    assert forall i :: 0 <= i < size ==> bytes[i] == bytes[..][i];
  }

  lemma {:induction false} ZerosAreZero(n: nat)
    ensures forall i :: 0 <= i < n ==> Zeros(n)[i] == 0
  {
    if n > 0 {
      ZerosAreZero(n - 1);
    }
  }

  lemma CopiedOneMore(octets: seq<Byte>, i: nat, size: nat)
    requires i < |octets|
    ensures var before, after := Copied(octets[..i], size), Copied(octets[..i + 1], size);
            after == if i < size then before[i := octets[i]] else before
  {
    assert octets[..i + 1] == octets[..i] + [octets[i]];
    if i < size {
      ZerosAreZero(size - i);
      ZerosAreZero(size - i - 1);
    }
  }

  /** The copies made of the addresses of the message at an offset stay in their arrays; only 1.3 copies hardware addresses. */
  predicate ArpCopiesFit(m: Memory, at: int, hardware: bool) {
    var h, p := m.At(at + 4), m.At(at + 5);
    && |ArpRange(m, at, h, p)| <= V4_LENGTH && |ArpRange(m, at, 2 * h + p, p)| <= V4_LENGTH
    && (hardware && m.U16(at) == 1 ==>
          |ArpRange(m, at, 0, h)| <= MAC_LENGTH && |ArpRange(m, at, h + p, h)| <= MAC_LENGTH)
  }

  /** What a caller can look up before: the message's own length octets. */
  predicate ShortAddresses(m: Memory, at: int, hardware: bool) {
    m.At(at + 5) <= V4_LENGTH && (hardware && m.U16(at) == 1 ==> m.At(at + 4) <= MAC_LENGTH)
  }

  predicate CopiesFit(m: Memory, e: Event, hardware: bool) {
    e.Arp? ==> ArpCopiesFit(m, e.at, hardware)
  }

  ghost predicate AllCopiesFit(m: Memory, events: seq<Event>, hardware: bool) {
    forall i :: 0 <= i < |events| ==> CopiesFit(m, events[i], hardware)
  }

  lemma OneMoreFits(m: Memory, events: seq<Event>, i: nat, hardware: bool)
    requires i < |events|
    ensures AllCopiesFit(m, events[..i + 1], hardware) <==>
            AllCopiesFit(m, events[..i], hardware) && CopiesFit(m, events[i], hardware)
  {
    hide CopiesFit;
    assert events[..i + 1] == events[..i] + [events[i]];
    assert (events[..i] + [events[i]])[i] == events[i];
    assert forall j :: 0 <= j < i ==> (events[..i] + [events[i]])[j] == events[..i][j];
  }

  lemma ArpCopiesFitIff(m: Memory, at: int, hardware: bool)
    ensures ArpCopiesFit(m, at, hardware) <==> ShortAddresses(m, at, hardware)
  {
  }

  /** For every frame: all copies stay in their arrays if and only if no ARP header declares longer addresses. */
  lemma CopiesFitIff(m: Memory, hardware: bool)
    ensures AllCopiesFit(m, Headers(m), hardware) <==>
            forall e :: e in Headers(m) && e.Arp? ==> ShortAddresses(m, e.at, hardware)
  {
    hide Headers, ArpCopiesFit, ShortAddresses;
    var c := Headers(m);
    forall e: Event | e.Arp? ensures ArpCopiesFit(m, e.at, hardware) <==> ShortAddresses(m, e.at, hardware) {
      ArpCopiesFitIff(m, e.at, hardware);
    }
    if forall e :: e in c && e.Arp? ==> ShortAddresses(m, e.at, hardware) {
      forall i | 0 <= i < |c| ensures CopiesFit(m, c[i], hardware) {
        assert c[i] in c;
      }
    }
    if AllCopiesFit(m, c, hardware) {
      forall e | e in c && e.Arp? ensures ShortAddresses(m, e.at, hardware) {
        var i :| 0 <= i < |c| && c[i] == e;
        assert CopiesFit(m, c[i], hardware);
      }
    }
  }

  // Messages that do not fit

  /** An ARP message of its hardware type, with hardware and protocol addresses of these lengths. */
  function Sized(h: nat, p: nat): Packet {
    Packet(Zeros(6), Zeros(6), [], ArpMessage(1, 0x0800, 1, Zeros(h), Zeros(p), Zeros(h), Zeros(p)))
  }

  lemma SizedIsValid(h: Byte, p: Byte)
    ensures ValidPacket(Sized(h, p))
  {
  }

  lemma SizedOctets(m: Memory, h: Byte, p: Byte, padding: seq<Byte>)
    requires ValidPacket(Sized(h, p)) && m.frame == Serialise(Sized(h, p)) + padding
    ensures |m.frame| >= 22 + 2 * h + 2 * p
    ensures m.U16(12) == ARP_TYPE && m.U16(14) == 1 && m.At(18) == h && m.At(19) == p
  {
    hide Memory.Holds, Memory.At, Memory.U16, Be16, ValidPacket;
    var packet, arp := Sized(h, p), Sized(h, p).body;
    var addresses := (arp.senderHardware + arp.senderProtocol) + (arp.targetHardware + arp.targetProtocol);
    var macs := packet.destination + packet.source;
    assert Serialise(packet) == (macs + Be16(ARP_TYPE)) + (ArpHeader(arp) + addresses);
    hide Serialise, ArpHeader;
    HoldsWhole(m.frame, m.outside);
    HoldsSplit(m, 0, Serialise(packet), padding);
    HoldsSplit(m, 0, macs + Be16(ARP_TYPE), ArpHeader(arp) + addresses);
    HoldsSplit(m, 0, macs, Be16(ARP_TYPE));
    ReadBe16(m, 12, ARP_TYPE);
    HoldsSplit(m, 14, ArpHeader(arp), addresses);
    ReadArpHeader(m, 14, arp);
  }

  lemma SizedHeaders(h: Byte, p: Byte, padding: seq<Byte>, outside: int -> Byte)
    ensures ValidPacket(Sized(h, p))
    ensures var m := Memory(Serialise(Sized(h, p)) + padding, outside);
            && Headers(m) == [Ether(0), Arp(14)]
            && m.U16(14) == 1 && m.At(18) == h && m.At(19) == p
  {
    SizedIsValid(h, p);
    hide ValidPacket, Serialise, Headers;
    var m := Memory(Serialise(Sized(h, p)) + padding, outside);
    SizedOctets(m, h, p, padding);
    SizedChain(m, h, p);
  }

  lemma SizedChain(m: Memory, h: Byte, p: Byte)
    requires |m.frame| >= 22 + 2 * h + 2 * p && m.U16(12) == ARP_TYPE && m.At(18) == h && m.At(19) == p
    ensures Headers(m) == [Ether(0), Arp(14)]
  {
    var next := AtEtherNext(ARP_TYPE, 14, |m.frame|);
    assert Found(m, AtEther(0, |m.frame|)) == [Ether(0)] && Successor(m, Ether(0), |m.frame|) == next;
    assert Found(m, next) == [Arp(14)] && Chain(m, AtEnd) == [];
    assert Chain(m, next) == [Arp(14)];
  }

  lemma SizedFits(h: Byte, p: Byte, padding: seq<Byte>, outside: int -> Byte, hardware: bool)
    ensures ValidPacket(Sized(h, p))
    ensures var m := Memory(Serialise(Sized(h, p)) + padding, outside);
            AllCopiesFit(m, Headers(m), hardware) <==> p <= V4_LENGTH && (hardware ==> h <= MAC_LENGTH)
  {
    var m := Memory(Serialise(Sized(h, p)) + padding, outside);
    SizedHeaders(h, p, padding, outside);
    ArpCopiesFitIff(m, 14, hardware);
    TwoHeadersFit(m, hardware);
    hide Headers, Serialise, Sized, ValidPacket, ArpCopiesFit, AllCopiesFit, Memory.At, Memory.U16;
  }

  lemma TwoHeadersFit(m: Memory, hardware: bool)
    ensures AllCopiesFit(m, [Ether(0), Arp(14)], hardware) <==> ArpCopiesFit(m, 14, hardware)
  {
    hide ArpCopiesFit;
    var c := [Ether(0), Arp(14)];
    assert CopiesFit(m, c[0], hardware) && (CopiesFit(m, c[1], hardware) <==> ArpCopiesFit(m, 14, hardware));
  }

  /** A message whose protocol addresses have five octets: both creators write past the end of an array. */
  lemma LongProtocolAddress(padding: seq<Byte>, outside: int -> Byte, hardware: bool)
    ensures ValidPacket(Sized(6, 5))
    ensures var m := Memory(Serialise(Sized(6, 5)) + padding, outside);
            !AllCopiesFit(m, Headers(m), hardware)
  {
    SizedFits(6, 5, padding, outside, hardware);
  }

  /** A message whose hardware addresses have seven octets: the 1.3 creator does, the 1.0 creator does not. */
  lemma LongHardwareAddress(padding: seq<Byte>, outside: int -> Byte)
    ensures ValidPacket(Sized(7, 4))
    ensures var m := Memory(Serialise(Sized(7, 4)) + padding, outside);
            !AllCopiesFit(m, Headers(m), true) && AllCopiesFit(m, Headers(m), false)
  {
    SizedFits(7, 4, padding, outside, true);
    SizedFits(7, 4, padding, outside, false);
  }
}
