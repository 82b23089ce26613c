/** Version negotiation: the bitmap a hello advertises and the choice of a channel's version. */
module Versions {
  import opened Common

  // -------------------------------------------------------------------------------------
  // The bitmap
  // -------------------------------------------------------------------------------------

  const BLOCK := 32

  /** The number whose bit i is bits[i]. */
  function Number(bits: seq<bool>): nat {
    if bits == [] then 0 else (if bits[0] then 1 else 0) + 2 * Number(bits[1..])
  }

  /** Bit i of a number. */
  predicate Bit(n: nat, i: nat) {
    n / Power2(i) % 2 == 1
  }

  lemma HalveThenDivide(n: nat, p: nat)
    requires p > 0
    ensures n / (2 * p) == n / 2 / p
  {
    var q, r := n / 2 / p, n / 2 % p;
    assert n / 2 == p * q + r;
    var low := n - 2 * (n / 2);
    assert n == 2 * p * q + (2 * r + low) by {
      assert 2 * (p * q) == 2 * p * q;
    }
    DivisionIsUnique(n, 2 * p, q, 2 * r + low);
  }

  lemma DivisionIsUnique(n: int, d: int, q: int, r: int)
    requires d > 0 && n == d * q + r && 0 <= r < d
    ensures n / d == q
  {
    var q', r' := n / d, n % d;
    assert d * (q - q') == r' - r by {
      assert n == d * q' + r';
      assert d * (q - q') == d * q - d * q';
    }
    MultipleIsFar(d, q - q');
  }

  lemma MultipleIsFar(d: int, k: int)
    requires d > 0
    ensures k >= 1 ==> d * k >= d
    ensures k <= -1 ==> d * k <= -d
  {
    assert k >= 1 ==> d * (k - 1) >= 0;
    assert k <= -1 ==> d * (-1 - k) >= 0;
  }

  lemma {:induction false} BitOfNumber(bits: seq<bool>, i: nat)
    ensures Bit(Number(bits), i) <==> i < |bits| && bits[i]
    decreases |bits|
  {
    if bits == [] {
      assert 0 / Power2(i) == 0 by { DivisionIsUnique(0, Power2(i), 0, 0); }
    } else if i > 0 {
      BitOfNumber(bits[1..], i - 1);
      HalveThenDivide(Number(bits), Power2(i - 1));
      assert Number(bits) / 2 == Number(bits[1..]);
    }
  }

  /** Blocks of 32 bits, the last one filled up with zeros. */
  function Blocks(bits: seq<bool>): seq<nat>
    decreases |bits|
  {
    if bits == [] then []
    else if |bits| <= BLOCK then [Number(bits)]
    else [Number(bits[..BLOCK])] + Blocks(bits[BLOCK..])
  }

  /** A peer reading the blocks finds version v. */
  predicate Advertised(blocks: seq<nat>, v: nat) {
    v / 32 < |blocks| && Bit(blocks[v / 32], v % 32)
  }

  lemma {:induction false} BlockCount(bits: seq<bool>)
    ensures |Blocks(bits)| == (|bits| + BLOCK - 1) / BLOCK
    decreases |bits|
  {
    if |bits| > BLOCK {
      BlockCount(bits[BLOCK..]);
    }
  }

  /** Bits past the first block are found in the blocks after the first. */
  lemma LaterBlocks(first: nat, blocks: seq<nat>, v: nat)
    ensures Advertised([first] + blocks, v) <==> if v < BLOCK then Bit(first, v) else Advertised(blocks, v - BLOCK)
  {
    hide Bit;
    if v < BLOCK {
      assert v / BLOCK == 0 && v % BLOCK == v;
    } else {
      assert (v - BLOCK) / BLOCK == v / BLOCK - 1 && (v - BLOCK) % BLOCK == v % BLOCK;
    }
  }

  lemma {:induction false} BlocksHoldBits(bits: seq<bool>, v: nat)
    ensures Advertised(Blocks(bits), v) <==> v < |bits| && bits[v]
    decreases |bits|
  {
    if bits != [] {
      hide Advertised, Bit, Number;
      var k := if |bits| <= BLOCK then |bits| else BLOCK;
      var first, rest := bits[..k], bits[k..];
      assert Blocks(bits) == [Number(first)] + Blocks(rest) by {
        assert |bits| <= BLOCK ==> first == bits;
      }
      LaterBlocks(Number(first), Blocks(rest), v);
      BitOfNumber(first, v);
      if v >= BLOCK {
        BlocksHoldBits(rest, v - BLOCK);
      }
    }
  }

  lemma {:induction false} NumberFits(bits: seq<bool>)
    ensures Number(bits) < Power2(|bits|)
    decreases |bits|
  {
    if bits != [] {
      NumberFits(bits[1..]);
    }
  }

  lemma {:induction false} PowersGrow(a: nat, b: nat)
    requires a <= b
    ensures Power2(a) <= Power2(b)
    decreases b
  {
    if a < b {
      PowersGrow(a, b - 1);
    }
  }

  lemma PowerOfBlock()
    ensures Power2(32) == 0x1_0000_0000
  {
    assert Power2(8) == 0x100 && Power2(16) == 0x1_0000 by {
      assert Power2(4) == 16;
      assert Power2(12) == 16 * Power2(8);
    }
    assert Power2(20) == 16 * Power2(16) && Power2(24) == 16 * Power2(20) && Power2(28) == 16 * Power2(24);
  }

  /** Every block is a number of 32 bits. */
  lemma {:induction false} BlocksFit(bits: seq<bool>)
    ensures forall k :: 0 <= k < |Blocks(bits)| ==> Blocks(bits)[k] < 0x1_0000_0000
    decreases |bits|
  {
    PowerOfBlock();
    if 0 < |bits| <= BLOCK {
      NumberFits(bits);
      PowersGrow(|bits|, 32);
    } else if bits != [] {
      NumberFits(bits[..BLOCK]);
      BlocksFit(bits[BLOCK..]);
    }
  }

  /** Collects the supported versions in a growing bitset. */
  class BitmapCreator {
    var bitmap: seq<bool>

    constructor ()
      ensures bitmap == []
    {
      bitmap := [];
    }

    /** Add one version, growing the bitset only as far as needed. */
    method Call(version: nat)
      modifies this
      ensures |bitmap| == Max(|old(bitmap)|, version + 1)
      ensures forall v :: 0 <= v < |bitmap| ==>
                (bitmap[v] <==> v == version || (v < |old(bitmap)| && old(bitmap)[v]))
    {
      if |bitmap| <= version {
        Resize(version + 1);
      }
      bitmap := bitmap[version := true];
    }

    method Resize(size: nat)
      requires |bitmap| <= size
      modifies this
      ensures |bitmap| == size && bitmap[..|old(bitmap)|] == old(bitmap)
      ensures forall v :: |old(bitmap)| <= v < size ==> !bitmap[v]
    {
      bitmap := bitmap + seq(size - |bitmap|, _ => false);
    }

    function Bitmaps(): seq<nat>
      reads this
    {
      Blocks(bitmap)
    }
  }

  function Max(a: int, b: int): int {
    if a < b then b else a
  }

  /**
   * The bitmap of a hello has bit v set if and only if version v is supported, no more blocks
   * than its greatest version needs, and nothing but 32 bits in a block: this determines it.
   */
  method MakeVersionBitmap(versions: seq<nat>) returns (blocks: seq<nat>)
    ensures forall v: nat :: Advertised(blocks, v) <==> v in versions
    ensures |blocks| > 0 ==> exists v :: v in versions && v / 32 == |blocks| - 1
    ensures forall k :: 0 <= k < |blocks| ==> blocks[k] < 0x1_0000_0000
  {
    var creator := new BitmapCreator();
    for i := 0 to |versions|
      invariant forall v :: 0 <= v < |creator.bitmap| ==> (creator.bitmap[v] <==> v in versions[..i])
      invariant forall v :: v in versions[..i] ==> v < |creator.bitmap|
      invariant |creator.bitmap| > 0 ==> (|creator.bitmap| - 1) in versions[..i]
    {
      creator.Call(versions[i]);
      assert versions[..i + 1] == versions[..i] + [versions[i]];
    }
    assert versions[..|versions|] == versions;
    blocks := creator.Bitmaps();
    forall v: nat ensures Advertised(blocks, v) <==> v in versions {
      BlocksHoldBits(creator.bitmap, v);
    }
    BlockCount(creator.bitmap);
    BlocksFit(creator.bitmap);
    if |blocks| > 0 {
      var top := |creator.bitmap| - 1;
      assert top in versions && top / 32 == |blocks| - 1;
    }
  }

  // -------------------------------------------------------------------------------------
  // The choice
  // -------------------------------------------------------------------------------------

  predicate Descending(versions: seq<nat>) {
    forall i, j :: 0 <= i < j < |versions| ==> versions[i] >= versions[j]
  }

  function Insert(v: nat, sorted: seq<nat>): seq<nat> {
    if sorted == [] || v >= sorted[0] then [v] + sorted else [sorted[0]] + Insert(v, sorted[1..])
  }

  /** The supported versions in the order in which they are offered to a hello: greatest first. */
  function Sort(versions: seq<nat>): seq<nat> {
    if versions == [] then [] else Insert(versions[0], Sort(versions[1..]))
  }

  lemma ConsDescends(v: nat, rest: seq<nat>)
    requires Descending(rest) && forall w :: w in rest ==> w <= v
    ensures Descending([v] + rest)
  {
    forall i, j | 0 <= i < j < |rest| + 1 ensures ([v] + rest)[i] >= ([v] + rest)[j] {
      assert rest[j - 1] in rest;
    }
  }

  lemma {:induction false} InsertKeeps(v: nat, sorted: seq<nat>)
    requires Descending(sorted)
    ensures Descending(Insert(v, sorted))
    ensures forall w :: w in Insert(v, sorted) <==> w == v || w in sorted
    decreases |sorted|
  {
    if sorted == [] {
      assert Insert(v, sorted) == [v];
    } else {
      var first, rest := sorted[0], sorted[1..];
      assert sorted == [first] + rest;
      assert forall w :: w in rest ==> w <= first;
      assert forall w :: w in sorted <==> w == first || w in rest;
      if v >= first {
        ConsDescends(v, sorted);
        assert Insert(v, sorted) == [v] + sorted;
      } else {
        InsertKeeps(v, rest);
        ConsDescends(first, Insert(v, rest));
        assert Insert(v, sorted) == [first] + Insert(v, rest);
      }
    }
  }

  lemma {:induction false} SortDescends(versions: seq<nat>)
    ensures Descending(Sort(versions))
    ensures forall w :: w in Sort(versions) <==> w in versions
    decreases |versions|
  {
    if versions != [] {
      var v, rest := versions[0], versions[1..];
      assert versions == [v] + rest;
      SortDescends(rest);
      InsertKeeps(v, Sort(rest));
      assert forall w :: w in versions <==> w == v || w in rest;
    }
  }

  datatype Choice = Chosen(version: nat) | Incompatible

  /** v is the greatest supported version that the peer's hello supports. */
  ghost predicate Greatest(v: nat, versions: seq<nat>, support: nat -> bool) {
    v in versions && support(v) && forall w :: w in versions && support(w) ==> w <= v
  }

  /** What the choice must be, whatever the order of the versions. */
  ghost predicate RightChoice(choice: Choice, versions: seq<nat>, support: nat -> bool) {
    match choice
    case Chosen(v) => Greatest(v, versions, support)
    case Incompatible => forall w :: w in versions ==> !support(w)
  }

  /** Starts a channel for the first version it is called with that the hello supports. */
  class ChannelStarter {
    const support: nat -> bool
    /** The hello is moved into the channel that is started. */
    var helloMoved: bool
    var hasSupportedVersion: bool
    var started: seq<nat>

    constructor (support: nat -> bool)
      ensures this.support == support && !helloMoved && !hasSupportedVersion && started == []
    {
      this.support, helloMoved, hasSupportedVersion, started := support, false, false, [];
    }

    /** The hello must not be looked at once it has been moved away. */
    method Support(version: nat) returns (yes: bool)
      requires !helloMoved
      ensures yes == support(version)
    {
      yes := support(version);
    }

    method Call(version: nat)
      requires hasSupportedVersion == helloMoved
      modifies this
      ensures hasSupportedVersion == helloMoved
      ensures hasSupportedVersion == (old(hasSupportedVersion) || support(version))
      ensures started == old(started) + if !old(hasSupportedVersion) && support(version) then [version] else []
    {
      if !hasSupportedVersion {
        var yes := Support(version);
        if yes {
          hasSupportedVersion := true;
          started := started + [version];
          helloMoved := true;
        }
      }
    }
  }

  /**
   * At most one channel is started, for the greatest version both sides support; none, and an
   * error is to be sent, if and only if there is no such version.
   */
  method StartChannel(versions: seq<nat>, support: nat -> bool) returns (started: seq<nat>, sendError: bool)
    ensures sendError <==> forall v :: v in versions ==> !support(v)
    ensures if sendError then started == [] else |started| == 1 && Greatest(started[0], versions, support)
  {
    var order := Sort(versions);
    SortDescends(versions);
    var starter := new ChannelStarter(support);
    for i := 0 to |order|
      invariant starter.hasSupportedVersion == starter.helloMoved && starter.support == support
      invariant !starter.hasSupportedVersion ==> starter.started == [] && forall j :: 0 <= j < i ==> !support(order[j])
      invariant starter.hasSupportedVersion ==> |starter.started| == 1 && Greatest(starter.started[0], versions, support)
    {
      ghost var before := starter.hasSupportedVersion;
      starter.Call(order[i]);
      if !before && starter.hasSupportedVersion {
        assert forall w :: w in versions && support(w) ==> w in order && w <= order[i];
      }
    }
    started, sendError := starter.started, !starter.hasSupportedVersion;
    if sendError {
      forall v | v in versions ensures !support(v) {
        assert v in order;
      }
    } else {
      assert started[0] in versions;
    }
  }

  /** The right choice is unique. */
  lemma ChoiceIsUnique(a: Choice, b: Choice, versions: seq<nat>, support: nat -> bool)
    requires RightChoice(a, versions, support) && RightChoice(b, versions, support)
    ensures a == b
  {
    if a.Chosen? && b.Chosen? {
      assert a.version <= b.version <= a.version;
    }
  }

  /** The choice as a function of the versions in any order. */
  function Negotiate(versions: seq<nat>, support: nat -> bool): Choice {
    FirstSupported(Sort(versions), support)
  }

  function FirstSupported(order: seq<nat>, support: nat -> bool): Choice {
    if order == [] then Incompatible
    else if support(order[0]) then Chosen(order[0])
    else FirstSupported(order[1..], support)
  }

  lemma {:induction false} FirstIsGreatest(order: seq<nat>, support: nat -> bool)
    requires Descending(order)
    ensures RightChoice(FirstSupported(order, support), order, support)
    decreases |order|
  {
    if order != [] {
      assert order == [order[0]] + order[1..];
      if support(order[0]) {
        assert forall w :: w in order ==> w <= order[0];
      } else {
        FirstIsGreatest(order[1..], support);
      }
    }
  }

  lemma NegotiateIsRight(versions: seq<nat>, support: nat -> bool)
    ensures RightChoice(Negotiate(versions, support), versions, support)
  {
    SortDescends(versions);
    FirstIsGreatest(Sort(versions), support);
    var choice := Negotiate(versions, support);
    if choice.Incompatible? {
      forall w | w in versions ensures !support(w) {
        assert w in Sort(versions);
      }
    }
  }

  /** A bitmap that advertises just these versions. */
  ghost predicate Advertises(blocks: seq<nat>, versions: seq<nat>) {
    forall v: nat :: Advertised(blocks, v) <==> v in versions
  }

  /**
   * Two endpoints that send each other their bitmaps, and take a version to be supported if its
   * bit is set, make the same choice: the greatest version they have in common.
   */
  lemma EndpointsAgree(ours: seq<nat>, theirs: seq<nat>, ourBlocks: seq<nat>, theirBlocks: seq<nat>)
    requires Advertises(ourBlocks, ours) && Advertises(theirBlocks, theirs)
    ensures Negotiate(ours, (v: nat) => Advertised(theirBlocks, v)) == Negotiate(theirs, (v: nat) => Advertised(ourBlocks, v))
    ensures match Negotiate(ours, (v: nat) => Advertised(theirBlocks, v))
            case Chosen(v) => v in ours && v in theirs && forall w :: w in ours && w in theirs ==> w <= v
            case Incompatible => forall w :: w in ours ==> w !in theirs
  {
    var a, b := (v: nat) => Advertised(theirBlocks, v), (v: nat) => Advertised(ourBlocks, v);
    NegotiateIsRight(ours, a);
    NegotiateIsRight(theirs, b);
    var mine, yours := Negotiate(ours, a), Negotiate(theirs, b);
    if mine.Chosen? {
      assert a(mine.version) && b(mine.version);
    }
    if yours.Chosen? {
      assert a(yours.version) && b(yours.version);
    }
    forall w | w in ours && w in theirs ensures a(w) && b(w) {
    }
  }
}
