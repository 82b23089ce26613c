/** Memory safety and the amount of work of the packet walk. */
module ParserBounds {
  import opened Bytes
  import opened PacketParser

  /**
   * How many octets, from the first on, the accessors of a header object read at fixed offsets, and
   * for ARP those of its addresses too. What LLDP accessors read is not counted.
   */
  function HeaderLength(m: Memory, e: Event): int {
    match e
    case Ether(_) => 14
    case Vlan(_) => 4
    case Arp(at) => 8 + 2 * m.At(at + 4) + 2 * m.At(at + 5)
    case Lldp(_, _) => 0
    case Ipv4(_, _) => 20
    case Ipv6(_, _) => 40
    case Ext(_, _) => 8
    case Frag(_, _) => 8
    case Ah(_, _) => 12
    case Icmp4(kind, _, _) =>
      (match kind case Icmp4Plain => 4 case Icmp4Echo => 8 case Icmp4Redirect => 8
                  case Icmp4Timestamp => 20 case Icmp4AddressMask => 12)
    case Icmp6(kind, _, _) => if kind == Icmp6Plain then 4 else 24
    case Tcp(_, _) => 20
    case Udp(_, _) => 8
    case Payload(_, _) => 0
  }

  function StartOf(e: Event): int {
    if e.Payload? then e.first else e.at
  }

  /** The end of the window the header object remembers. */
  function WindowEnd(m: Memory, e: Event): int {
    if e.Ether? || e.Vlan? || e.Arp? then |m.frame| else e.last
  }

  /** The fields of e at fixed offsets and the window it remembers lie in the frame. */
  ghost predicate InFrame(m: Memory, e: Event) {
    && 0 <= StartOf(e)
    && StartOf(e) + HeaderLength(m, e) <= |m.frame|
    && 0 <= WindowEnd(m, e) <= |m.frame|
  }

  /** An IPv6 header whose declared payload runs past the frame although it is no longer than what is left of it. */
  ghost predicate Overruns(m: Memory, e: Event) {
    e.Ipv6? && var length := m.U16(e.at + 4); 0 < length <= e.last - e.at && e.at + 40 + length > |m.frame|
  }

  /** Some header follows an overrunning IPv6 header. */
  ghost predicate OverrunFollowed(m: Memory, events: seq<Event>) {
    exists i :: 0 <= i < |events| - 1 && Overruns(m, events[i])
  }

  ghost predicate PositionInFrame(m: Memory, p: Position) {
    p.AtEnd? ||
    (&& 0 <= p.first <= |m.frame|
     && 0 <= p.last <= |m.frame|
     && (p.AtEther? || p.AtEtherNext? ==> p.last == |m.frame|))
  }

  lemma FoundInFrame(m: Memory, p: Position)
    requires PositionInFrame(m, p) && Found(m, p) != []
    ensures InFrame(m, Found(m, p)[0])
    ensures !Overruns(m, Found(m, p)[0]) ==> PositionInFrame(m, Successor(m, Found(m, p)[0], LastOf(p)))
  {
    FoundFits(m, p);
    hide PositionInFrame, InFrame, Successor, Found, Overruns;
    if !Overruns(m, Found(m, p)[0]) {
      SuccessorInFrame(m, Found(m, p)[0], LastOf(p));
    }
  }

  lemma FoundFits(m: Memory, p: Position)
    requires PositionInFrame(m, p) && Found(m, p) != []
    ensures InFrame(m, Found(m, p)[0])
    ensures Found(m, p)[0].Ether? || Found(m, p)[0].Vlan? ==> LastOf(p) == |m.frame|
  {
    hide Memory.U16;
  }

  lemma SuccessorInFrame(m: Memory, e: Event, last: int)
    requires InFrame(m, e) && !Overruns(m, e) && (e.Ether? || e.Vlan? ==> last == |m.frame|)
    ensures PositionInFrame(m, Successor(m, e, last))
  {
  }

  /**
   * The window a header leaves to the next one is what its length field says, cut to its own
   * window; a length of zero in IPv6 or UDP says nothing. Only IPv6 windows are cut too late.
   */
  lemma WindowsAreCut(m: Memory, at: int, last: int)
    ensures var total := m.U16(at + 2); Ipv4End(m, at, last) == if at + total <= last then at + total else last
    ensures var length := m.U16(at + 4);
            && (length == 0 ==> UdpEnd(m, at, last) == last && Ipv6End(m, at, last) == last)
            && (0 < length && at + length <= last ==> UdpEnd(m, at, last) == at + length)
            && (at + length > last ==> UdpEnd(m, at, last) == last && Ipv6End(m, at, last) == last)
            && (0 < length && at + length <= last ==> Ipv6End(m, at, last) == at + 40 + length)
  {
    hide Memory.U16;
  }

  lemma OverrunTail(m: Memory, e: Event, rest: seq<Event>)
    requires !OverrunFollowed(m, [e] + rest)
    ensures !OverrunFollowed(m, rest)
    ensures rest != [] ==> !Overruns(m, e)
  {
    var all := [e] + rest;
    assert forall i :: 0 <= i < |rest| ==> all[i + 1] == rest[i];
    if rest != [] {
      assert all[0] == e;
    }
  }

  lemma {:induction false} ChainInFrame(m: Memory, p: Position)
    requires PositionInFrame(m, p)
    requires !OverrunFollowed(m, Chain(m, p))
    ensures forall e :: e in Chain(m, p) ==> InFrame(m, e)
    decreases Layer(p), WidthOf(p)
  {
    if Found(m, p) != [] {
      var e := Found(m, p)[0];
      var q := Successor(m, e, LastOf(p));
      FoundInFrame(m, p);
      SuccessorIsSmaller(m, p);
      OverrunTail(m, e, Chain(m, q));
      assert Chain(m, p) == [e] + Chain(m, q);
      hide Successor, InFrame, Overruns, OverrunFollowed;
      if Chain(m, q) != [] {
        ChainInFrame(m, q);
      }
    }
  }

  /** Consecutive headers: the second is what is found at the successor of the first. */
  lemma {:induction false} ChainLinks(m: Memory, p: Position, i: nat) returns (last: int)
    requires i + 1 < |Chain(m, p)|
    ensures Found(m, Successor(m, Chain(m, p)[i], last)) == [Chain(m, p)[i + 1]]
    decreases i
  {
    var q := Successor(m, Found(m, p)[0], LastOf(p));
    if i == 0 {
      last := LastOf(p);
    } else {
      last := ChainLinks(m, q, i - 1);
    }
  }

  /**
   * The fixed fields and the window of every header, and every payload, handed to the callback
   * lie in the frame, unless an IPv6 header that declares more payload than there is (but less
   * than 40 octets more) is followed by anything; then something outside the frame is handed out.
   */
  lemma InBoundsUnlessIpv6Overruns(m: Memory)
    ensures (forall e :: e in Headers(m) ==> InFrame(m, e)) <==> !OverrunFollowed(m, Headers(m))
  {
    if OverrunFollowed(m, Headers(m)) {
      OverrunFollowedLeaves(m);
    } else {
      ChainInFrame(m, AtEther(0, |m.frame|));
    }
  }

  lemma OverrunFollowedLeaves(m: Memory)
    requires OverrunFollowed(m, Headers(m))
    ensures exists e :: e in Headers(m) && !InFrame(m, e)
  {
    var c := Headers(m);
    var i :| 0 <= i < |c| - 1 && Overruns(m, c[i]);
    var last := ChainLinks(m, AtEther(0, |m.frame|), i);
    hide Headers, Chain;
    BehindOverrun(m, c[i], last);
    assert c[i + 1] in c;
  }

  /** What is found behind an overrunning header has a window that ends outside the frame. */
  lemma BehindOverrun(m: Memory, e: Event, last: int)
    requires Overruns(m, e) && Found(m, Successor(m, e, last)) != []
    ensures !InFrame(m, Found(m, Successor(m, e, last))[0])
  {
    assert Successor(m, e, last).last > |m.frame|;
    hide Successor, Overruns, Memory.At, Memory.U16;
  }

  /**
   * Where a header ends by its own length field. The payload of IPv4 and TCP starts there, and the
   * authentication data of an authentication header ends there; the field is only looked at after
   * the header has been handed out.
   */
  function DeclaredEnd(m: Memory, e: Event): int {
    match e
    case Ipv4(at, _) => at + Ipv4Length(m, at)
    case Ext(at, _) => at + ExtLength(m, at)
    case Ah(at, _) => at + AhLength(m, at)
    case Tcp(at, _) => at + TcpLength(m, at)
    case _ => StartOf(e) + HeaderLength(m, e)
  }

  predicate HasLengthField(e: Event) {
    e.Ipv4? || e.Ext? || e.Ah? || e.Tcp?
  }

  /** A header that something follows ends in its window. */
  lemma FollowedHeadersEndInside(m: Memory, i: nat)
    requires i + 1 < |Headers(m)| && HasLengthField(Headers(m)[i])
    ensures DeclaredEnd(m, Headers(m)[i]) <= Headers(m)[i].last
  {
    var e := Headers(m)[i];
    var last := ChainLinks(m, AtEther(0, |m.frame|), i);
    hide Headers, Chain;
    assert Found(m, AtEnd) == [];
    assert Successor(m, e, last) != AtEnd;
    hide Found;
  }

  /**
   * So long as no IPv6 header overruns, a length field can only lead out of the frame in the last
   * header that is handed out: all headers end in the frame by their own account if and only if
   * the last one does.
   */
  lemma OnlyTheLastLengthCanLeave(m: Memory)
    requires !OverrunFollowed(m, Headers(m))
    ensures (forall e :: e in Headers(m) ==> DeclaredEnd(m, e) <= |m.frame|) <==>
            (Headers(m) == [] || DeclaredEnd(m, Headers(m)[|Headers(m)| - 1]) <= |m.frame|)
  {
    InBoundsUnlessIpv6Overruns(m);
    var c := Headers(m);
    forall i | 0 <= i < |c| - 1 ensures DeclaredEnd(m, c[i]) <= |m.frame| {
      assert c[i] in c && InFrame(m, c[i]);
      if HasLengthField(c[i]) {
        FollowedHeadersEndInside(m, i);
      }
    }
    hide Headers, DeclaredEnd, InFrame, OverrunFollowed;
    forall e | e in c && (c == [] || DeclaredEnd(m, c[|c| - 1]) <= |m.frame|) ensures DeclaredEnd(m, e) <= |m.frame| {
      var i :| 0 <= i < |c| && c[i] == e;
    }
  }

  /** The authentication data are a proper range in the frame if and only if the length octet says so. */
  lemma AuthenticationDataIff(m: Memory, at: int)
    ensures at + AH_MIN_LENGTH <= at + AhLength(m, at) <= |m.frame| <==>
            1 <= m.At(at + 1) && at + 4 * m.At(at + 1) + 8 <= |m.frame|
  {
  }

  /** An authentication header that declares 1028 octets where there are twelve. */
  const LONG_AUTHENTICATION: seq<Byte> :=
    Zeros(12) + ([0x86, 0xdd] + ([0x60, 0, 0, 0, 0, 12, 51, 64] + (Zeros(32) + ([6, 255] + Zeros(10)))))

  lemma LongAuthenticationOctets(outside: int -> Byte)
    ensures var m := Memory(LONG_AUTHENTICATION, outside);
            && |m.frame| == 66
            && m.U16(12) == IPV6_TYPE && m.U16(18) == 12 && Ipv6NextHeader(m, 14) == AUTHENTICATION && m.At(55) == 255
  {
    var m := Memory(LONG_AUTHENTICATION, outside);
    assert m.At(12) == 0x86 && m.At(13) == 0xdd;
    assert m.At(18) == 0 && m.At(19) == 12 && m.At(20) == 51;
    assert m.At(55) == 255;
  }

  /** It is handed out, and nothing after it, with authentication data that end far behind the frame. */
  lemma AuthenticationDataLeaveTheFrame(outside: int -> Byte)
    ensures var m := Memory(LONG_AUTHENTICATION, outside);
            && |m.frame| == 66 && Headers(m) == [Ether(0), Ipv6(14, 66), Ah(54, 66)]
            && DeclaredEnd(m, Headers(m)[2]) == 54 + 1028
  {
    LongAuthenticationOctets(outside);
    var m := Memory(LONG_AUTHENTICATION, outside);
    hide Memory.At, Memory.U16, Ipv6NextHeader, Zeros;
    var p1, p2 := AtEtherNext(IPV6_TYPE, 14, 66), AtIpNext(AUTHENTICATION, 54, 66);
    assert Found(m, AtEther(0, 66)) == [Ether(0)] && Successor(m, Ether(0), 66) == p1;
    assert Found(m, p1) == [Ipv6(14, 66)] && Successor(m, Ipv6(14, 66), 66) == p2;
    assert Found(m, p2) == [Ah(54, 66)] && Successor(m, Ah(54, 66), 66) == AtEnd;
    assert Chain(m, AtEnd) == [];
    assert Chain(m, p2) == [Ah(54, 66)];
    assert Chain(m, p1) == [Ipv6(14, 66)] + Chain(m, p2);
    assert Headers(m) == [Ether(0)] + Chain(m, p1);
  }

  /** An IPv6 header that declares 48 octets of payload where there are eight. */
  const OVERRUNNING: seq<Byte> :=
    Zeros(12) + ([0x86, 0xdd] + ([0x60, 0, 0, 0, 0, 48, 17, 64] + Zeros(40)))

  lemma OverrunningOctets(outside: int -> Byte)
    ensures var m := Memory(OVERRUNNING, outside);
            && |m.frame| == 62
            && m.U16(12) == IPV6_TYPE && m.U16(18) == 48 && Ipv6NextHeader(m, 14) == UDP
  {
    var m := Memory(OVERRUNNING, outside);
    assert m.At(12) == 0x86 && m.At(13) == 0xdd;
    assert m.At(18) == 0 && m.At(19) == 48 && m.At(20) == 17;
  }

  /** A frame of 62 octets whose walk hands out a UDP header with a window far behind the frame. */
  lemma OverrunLeavesTheFrame(outside: int -> Byte)
    ensures var m := Memory(OVERRUNNING, outside);
            && |m.frame| == 62 && OverrunFollowed(m, Headers(m))
            && |Headers(m)| > 2 && Headers(m)[2] == Udp(54, 102) && !InFrame(m, Headers(m)[2])
  {
    OverrunningOctets(outside);
    var m := Memory(OVERRUNNING, outside);
    hide Memory.At, Memory.U16, Ipv6NextHeader, Zeros;
    var p1 := AtEtherNext(IPV6_TYPE, 14, 62);
    var p2 := AtIpNext(UDP, 54, 102);
    assert Found(m, AtEther(0, 62)) == [Ether(0)] && Successor(m, Ether(0), 62) == p1;
    assert Found(m, p1) == [Ipv6(14, 62)] && Successor(m, Ipv6(14, 62), 62) == p2;
    assert Found(m, p2) == [Udp(54, 102)];
    var rest := Chain(m, Successor(m, Udp(54, 102), 102));
    assert Chain(m, p2) == [Udp(54, 102)] + rest;
    assert Chain(m, p1) == [Ipv6(14, 62)] + Chain(m, p2);
    assert Headers(m) == [Ether(0)] + Chain(m, p1);
    assert Headers(m)[1] == Ipv6(14, 62) && Overruns(m, Headers(m)[1]);
  }

  lemma SameFrameSameFinds(m: Memory, m': Memory, p: Position)
    requires m.frame == m'.frame
    requires PositionInFrame(m, p)
    ensures Found(m, p) == Found(m', p)
  {
  }

  lemma SameFrameSameOctets(m: Memory, m': Memory, i: int)
    requires m.frame == m'.frame
    ensures 0 <= i < |m.frame| ==> m.At(i) == m'.At(i)
    ensures 0 <= i < |m.frame| - 1 ==> m.U16(i) == m'.U16(i)
  {
  }

  lemma SameFrameSameSuccessors(m: Memory, m': Memory, e: Event, last: int)
    requires m.frame == m'.frame
    requires InFrame(m, e)
    ensures Successor(m, e, last) == Successor(m', e, last)
  {
    hide Memory.At, Memory.U16;
    var at := StartOf(e);
    SameFrameSameOctets(m, m', at);
    match e
    case Ether(_) => SameFrameSameOctets(m, m', at + 12);
    case Vlan(_) => SameFrameSameOctets(m, m', at + 2);
    case Ipv4(_, _) =>
      SameFrameSameOctets(m, m', at + 2);
      SameFrameSameOctets(m, m', at + 6);
      SameFrameSameOctets(m, m', at + 9);
    case Ipv6(_, _) =>
      SameFrameSameOctets(m, m', at + 4);
      SameFrameSameOctets(m, m', at + 6);
    case Ext(_, _) => SameFrameSameOctets(m, m', at + 1);
    case Ah(_, _) => SameFrameSameOctets(m, m', at + 1);
    case Tcp(_, _) => SameFrameSameOctets(m, m', at + 12);
    case Udp(_, _) => SameFrameSameOctets(m, m', at + 4);
    case _ =>
  }

  lemma {:induction false} SameFrameSameChain(m: Memory, m': Memory, p: Position)
    requires m.frame == m'.frame
    requires PositionInFrame(m, p)
    requires !OverrunFollowed(m, Chain(m, p))
    ensures Chain(m, p) == Chain(m', p)
    decreases Layer(p), WidthOf(p)
  {
    SameFrameSameFinds(m, m', p);
    if Found(m, p) != [] {
      var e := Found(m, p)[0];
      var q := Successor(m, e, LastOf(p));
      FoundInFrame(m, p);
      SameFrameSameSuccessors(m, m', e, LastOf(p));
      SuccessorIsSmaller(m, p);
      OverrunTail(m, e, Chain(m, q));
      assert Chain(m, p) == [e] + Chain(m, q);
      hide Successor, InFrame, Overruns, OverrunFollowed;
      if Chain(m, q) != [] {
        SameFrameSameChain(m, m', q);
      } else {
        hide PositionInFrame;
        NothingFound(m, m', q);
      }
    }
  }

  lemma NothingFound(m: Memory, m': Memory, q: Position)
    requires Found(m, q) == []
    requires q.AtIpNext? || q.AtPayload? || q.AtEnd? || PositionInFrame(m, q)
    requires m.frame == m'.frame
    ensures Found(m', q) == []
  {
  }

  /** As long as no IPv6 header overruns, the walk is a function of the frame's octets alone. */
  lemma OutsideIsNeverRead<S>(frame: seq<Byte>, outside: int -> Byte, outside': int -> Byte, f: Callback<S>, s: S)
    requires !OverrunFollowed(Memory(frame, outside), Headers(Memory(frame, outside)))
    ensures ForEachHeader(Memory(frame, outside), f, s) == ForEachHeader(Memory(frame, outside'), f, s)
  {
    var m, m' := Memory(frame, outside), Memory(frame, outside');
    SameFrameSameChain(m, m', AtEther(0, |frame|));
    WalkIsTruncatedChain(m, f, s);
    WalkIsTruncatedChain(m', f, s);
  }

  // -------------------------------------------------------------------------------------
  // Work
  // -------------------------------------------------------------------------------------

  /** At most this many callbacks are made from a position on. */
  function WorkBound(p: Position): int {
    match p
    case AtEther(_, _) => if WidthOf(p) < ETHER_LENGTH then 0 else 2 + (WidthOf(p) - ETHER_LENGTH) / 4
    case AtEtherNext(_, _, _) => 1 + WidthOf(p) / 4
    case AtIpNext(_, _, _) => 1 + WidthOf(p) / 8
    case AtPayload(_, _) => 1
    case AtEnd => 0
  }

  lemma EtherNextBound(m: Memory, ty: int, first: int, last: int)
    requires var p := AtEtherNext(ty, first, last); Found(m, p) != []
    ensures var p := AtEtherNext(ty, first, last);
            1 + WorkBound(Successor(m, Found(m, p)[0], last)) <= WorkBound(p)
  {
    hide Memory.U16, Memory.At;
    if ty == IPV4_TYPE {
    } else if ty == IPV6_TYPE {
    }
  }

  lemma IpNextBound(m: Memory, protocol: int, first: int, last: int)
    requires var p := AtIpNext(protocol, first, last); Found(m, p) != []
    ensures var p := AtIpNext(protocol, first, last);
            1 + WorkBound(Successor(m, Found(m, p)[0], last)) <= WorkBound(p)
  {
    if protocol == TCP {
    } else if protocol == UDP {
    }
  }

  lemma WorkBoundStep(m: Memory, p: Position)
    requires Found(m, p) != []
    ensures 1 + WorkBound(Successor(m, Found(m, p)[0], LastOf(p))) <= WorkBound(p)
  {
    match p
    case AtEtherNext(ty, first, last) => EtherNextBound(m, ty, first, last);
    case AtIpNext(protocol, first, last) => IpNextBound(m, protocol, first, last);
    case _ =>
  }

  lemma {:induction false} ChainWork(m: Memory, p: Position)
    ensures |Chain(m, p)| <= WorkBound(p)
    decreases Layer(p), WidthOf(p)
  {
    if Found(m, p) != [] {
      WorkBoundStep(m, p);
      SuccessorIsSmaller(m, p);
      ChainWork(m, Successor(m, Found(m, p)[0], LastOf(p)));
    }
  }

  /** A frame of n octets causes at most 2 + (n - 14) / 4 callbacks, whatever it holds. */
  lemma CallbacksAreBounded<S>(m: Memory, f: Callback<S>, s: S)
    ensures |ForEachHeader(m, f, s).calls| <= if |m.frame| < 14 then 0 else 2 + (|m.frame| - 14) / 4
  {
    EarlyStopIsTruncation(m, f, s);
    ChainWork(m, AtEther(0, |m.frame|));
  }

  /** k stacked VLAN tags around an unknown ether type. */
  function TagStack(k: nat): (s: seq<Byte>)
    ensures |s| == 4 * k + 2
  {
    if k == 0 then [0xff, 0xff] else [0x81, 0x00, 0x00, 0x00] + TagStack(k - 1)
  }

  lemma {:induction false} TagStackChain(m: Memory, at: int, k: nat)
    requires m.Holds(at, TagStack(k))
    ensures |Chain(m, AtEtherNext(m.U16(at), at + 2, |m.frame|))| == k + 1
    decreases k
  {
    HoldsAt(m, at, TagStack(k));
    var p := AtEtherNext(m.U16(at), at + 2, |m.frame|);
    assert m.At(at + 0) == TagStack(k)[0] && m.At(at + 1) == TagStack(k)[1];
    if k == 0 {
      assert Found(m, p) == [Payload(at + 2, |m.frame|)];
    } else {
      HoldsSplit(m, at, [0x81, 0x00, 0x00, 0x00], TagStack(k - 1));
      TagStackChain(m, at + 4, k - 1);
      assert Found(m, p) == [Vlan(at + 2)];
    }
  }

  /** The bound is attained for every frame size of at least 14 octets. */
  lemma BoundIsAttained(n: nat, outside: int -> Byte) returns (frame: seq<Byte>)
    requires n >= 14
    ensures |frame| == n
    ensures |Headers(Memory(frame, outside))| == 2 + (n - 14) / 4
  {
    var k := (n - 14) / 4;
    frame := Zeros(12) + (TagStack(k) + Zeros((n - 14) % 4));
    var m := Memory(frame, outside);
    HoldsWhole(frame, outside);
    HoldsSplit(m, 0, Zeros(12), TagStack(k) + Zeros((n - 14) % 4));
    HoldsSplit(m, 12, TagStack(k), Zeros((n - 14) % 4));
    HoldsAt(m, 12, TagStack(k));
    assert m.At(12 + 0) == TagStack(k)[0] && m.At(12 + 1) == TagStack(k)[1];
    TagStackChain(m, 12, k);
  }
}
