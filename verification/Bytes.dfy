/** Octets, big-endian integers, and the memory a frame lies in. */
module Bytes {

  type Byte = b: int | 0 <= b < 0x100

  function Zeros(n: nat): (s: seq<Byte>)
    ensures |s| == n
  {
    if n == 0 then [] else [0] + Zeros(n - 1)
  }

  function Flatten(parts: seq<seq<Byte>>): seq<Byte> {
    if parts == [] then [] else parts[0] + Flatten(parts[1..])
  }

  lemma {:induction false} FlattenAppend(parts: seq<seq<Byte>>, last: seq<Byte>)
    ensures Flatten(parts + [last]) == Flatten(parts) + last
    decreases |parts|
  {
    if parts == [] {
      assert Flatten([last]) == last + Flatten([]);
    } else {
      assert (parts + [last])[1..] == parts[1..] + [last];
      FlattenAppend(parts[1..], last);
    }
  }

  function Be16(v: int): (s: seq<Byte>)
    requires 0 <= v < 0x1_0000
    ensures |s| == 2
  {
    [v / 0x100, v % 0x100]
  }

  function Be32(v: int): (s: seq<Byte>)
    requires 0 <= v < 0x1_0000_0000
    ensures |s| == 4
  {
    [v / 0x100_0000, v / 0x1_0000 % 0x100, v / 0x100 % 0x100, v % 0x100]
  }

  function FromBe16(hi: Byte, lo: Byte): int {
    hi * 0x100 + lo
  }

  function FromBe32(a: Byte, b: Byte, c: Byte, d: Byte): int {
    FromBe16(a, b) * 0x1_0000 + FromBe16(c, d)
  }

  lemma Be32RoundTrip(v: int)
    requires 0 <= v < 0x1_0000_0000
    ensures FromBe32(v / 0x100_0000, v / 0x1_0000 % 0x100, v / 0x100 % 0x100, v % 0x100) == v
  {
    assert v / 0x100_0000 == v / 0x1_0000 / 0x100;
  }

  /** The number octets spell in network order, of any length. */
  function BigEndian(s: seq<Byte>): (v: nat)
  {
    if s == [] then 0 else BigEndian(s[..|s| - 1]) * 0x100 + s[|s| - 1]
  }

  lemma BigEndian16(s: seq<Byte>)
    requires |s| == 2
    ensures BigEndian(s) == FromBe16(s[0], s[1]) < 0x1_0000
  {
    assert BigEndian(s[..1]) == s[0];
  }

  lemma BigEndian32(s: seq<Byte>)
    requires |s| == 4
    ensures BigEndian(s) == FromBe32(s[0], s[1], s[2], s[3]) < 0x1_0000_0000
  {
    var t := s[..3];
    assert t[..2] == s[..2];
    BigEndian16(s[..2]);
  }

  /** The encodings spell the numbers they encode. */
  lemma BigEndianRoundTrip(v: int)
    ensures 0 <= v < 0x1_0000 ==> BigEndian(Be16(v)) == v
    ensures 0 <= v < 0x1_0000_0000 ==> BigEndian(Be32(v)) == v
  {
    if 0 <= v < 0x1_0000 {
      BigEndian16(Be16(v));
    }
    if 0 <= v < 0x1_0000_0000 {
      BigEndian32(Be32(v));
      Be32RoundTrip(v);
    }
  }

  /**
   * A frame together with whatever lies around it in memory. Offsets count from the first
   * octet of the frame; nothing is known about the octets outside it.
   */
  datatype Memory = Memory(frame: seq<Byte>, outside: int -> Byte) {

    function At(i: int): Byte {
      if 0 <= i < |frame| then frame[i] else outside(i)
    }

    function U16(i: int): int {
      FromBe16(At(i), At(i + 1))
    }

    function U32(i: int): int {
      FromBe32(At(i), At(i + 1), At(i + 2), At(i + 3))
    }

    /** The octets of the range [first, last); empty when the range is inverted. */
    function Range(first: int, last: int): (s: seq<Byte>)
      ensures |s| == if first <= last then last - first else 0
      ensures forall i :: 0 <= i < |s| ==> s[i] == At(first + i)
      decreases last - first
    {
      if first < last then [At(first)] + Range(first + 1, last) else []
    }

    /** The frame has the octets s at offset at. */
    ghost predicate Holds(at: int, s: seq<Byte>) {
      && 0 <= at
      && at + |s| <= |frame|
      && frame[at..at + |s|] == s
    }
  }

  lemma HoldsSplit(m: Memory, at: int, a: seq<Byte>, b: seq<Byte>)
    requires m.Holds(at, a + b)
    ensures m.Holds(at, a) && m.Holds(at + |a|, b)
  {
    var s := m.frame[at..at + |a + b|];
    assert s[..|a|] == a && s[|a|..] == b;
    assert m.frame[at..at + |a|] == s[..|a|];
    assert m.frame[at + |a|..at + |a| + |b|] == s[|a|..];
  }

  lemma HoldsAt(m: Memory, at: int, s: seq<Byte>)
    requires m.Holds(at, s)
    ensures forall i :: 0 <= i < |s| ==> m.At(at + i) == s[i]
  {
    forall i | 0 <= i < |s| ensures m.At(at + i) == s[i] {
      assert m.frame[at..at + |s|][i] == m.frame[at + i];
    }
  }

  lemma HoldsRange(m: Memory, at: int, s: seq<Byte>)
    requires m.Holds(at, s)
    ensures m.Range(at, at + |s|) == s
  {
    HoldsAt(m, at, s);
  }

  lemma HoldsWhole(frame: seq<Byte>, outside: int -> Byte)
    ensures Memory(frame, outside).Holds(0, frame)
  {
    assert frame[0..0 + |frame|] == frame;
  }
}
