/** Which request a reply or error belongs to: message classes, keys, and the header an error carries. */
module TransactionKeys {
  import opened Bytes
  import opened Common

  /** The messages that can be sent as a transaction: those with a reply class, and all others. */
  datatype RequestClass =
    | EchoRequest | FeaturesRequest | GetConfigRequest | QueueGetConfigRequest | BarrierRequest
    | RoleRequest | GetAsyncRequest
    | DescriptionRequest | FlowStatsRequest | AggregateStatsRequest | TableStatsRequest
    | PortStatsRequest | QueueStatsRequest | TableFeaturesRequest | PortDescriptionRequest
    | Other(msgType: int, multipart: int)

  datatype ReplyClass =
    | EchoReply | FeaturesReply | GetConfigReply | QueueGetConfigReply | BarrierReply
    | RoleReply | GetAsyncReply
    | DescriptionReply | FlowStatsReply | AggregateStatsReply | TableStatsReply
    | PortStatsReply | QueueStatsReply | TableFeaturesReply | PortDescriptionReply

  const MULTIPART_REQUEST := 18
  const MULTIPART_REPLY := 19
  const HEADER_LENGTH := 8
  const MULTIPART_LENGTH := 16

  function RequestOf(reply: ReplyClass): RequestClass {
    match reply
    case EchoReply => EchoRequest
    case FeaturesReply => FeaturesRequest
    case GetConfigReply => GetConfigRequest
    case QueueGetConfigReply => QueueGetConfigRequest
    case BarrierReply => BarrierRequest
    case RoleReply => RoleRequest
    case GetAsyncReply => GetAsyncRequest
    case DescriptionReply => DescriptionRequest
    case FlowStatsReply => FlowStatsRequest
    case AggregateStatsReply => AggregateStatsRequest
    case TableStatsReply => TableStatsRequest
    case PortStatsReply => PortStatsRequest
    case QueueStatsReply => QueueStatsRequest
    case TableFeaturesReply => TableFeaturesRequest
    case PortDescriptionReply => PortDescriptionRequest
  }

  function ReplyOf(request: RequestClass): Option<ReplyClass> {
    match request
    case EchoRequest => Some(EchoReply)
    case FeaturesRequest => Some(FeaturesReply)
    case GetConfigRequest => Some(GetConfigReply)
    case QueueGetConfigRequest => Some(QueueGetConfigReply)
    case BarrierRequest => Some(BarrierReply)
    case RoleRequest => Some(RoleReply)
    case GetAsyncRequest => Some(GetAsyncReply)
    case DescriptionRequest => Some(DescriptionReply)
    case FlowStatsRequest => Some(FlowStatsReply)
    case AggregateStatsRequest => Some(AggregateStatsReply)
    case TableStatsRequest => Some(TableStatsReply)
    case PortStatsRequest => Some(PortStatsReply)
    case QueueStatsRequest => Some(QueueStatsReply)
    case TableFeaturesRequest => Some(TableFeaturesReply)
    case PortDescriptionRequest => Some(PortDescriptionReply)
    case Other(_, _) => None
  }

  /** Message types of section A.1 of the OpenFlow Switch Specification 1.3.0. */
  function TypeOf(c: RequestClass): int {
    match c
    case EchoRequest => 2
    case FeaturesRequest => 5
    case GetConfigRequest => 7
    case BarrierRequest => 20
    case QueueGetConfigRequest => 22
    case RoleRequest => 24
    case GetAsyncRequest => 26
    case Other(msgType, _) => msgType
    case _ => MULTIPART_REQUEST
  }

  /** Multipart types of section A.3.5 of the same specification; 0 for messages that have none. */
  function MultipartOf(c: RequestClass): int {
    match c
    case DescriptionRequest => 0
    case FlowStatsRequest => 1
    case AggregateStatsRequest => 2
    case TableStatsRequest => 3
    case PortStatsRequest => 4
    case QueueStatsRequest => 5
    case TableFeaturesRequest => 12
    case PortDescriptionRequest => 13
    case Other(_, multipart) => multipart
    case _ => 0
  }

  /** Type numbers fit their fields, only multipart messages have a multipart type, and no two classes share both. */
  predicate ValidClass(c: RequestClass) {
    c.Other? ==>
      && 0 <= c.msgType < 0x100
      && 0 <= c.multipart < 0x1_0000
      && (c.multipart != 0 ==> c.msgType == MULTIPART_REQUEST || c.msgType == MULTIPART_REPLY)
      && c.msgType !in {2, 5, 7, 20, 22, 24, 26}
      && !(c.msgType == MULTIPART_REQUEST && c.multipart in {0, 1, 2, 3, 4, 5, 12, 13})
  }

  predicate ValidXid(xid: int) {
    0 <= xid < 0x1_0000_0000
  }

  /** 16 bits of message type, 16 of multipart type, 32 of transaction id. */
  function ToKey(msgType: int, multipart: int, xid: int): int {
    msgType * 0x1_0000_0000_0000 + multipart * 0x1_0000_0000 + xid
  }

  function KeyOf(c: RequestClass, xid: int): int {
    ToKey(TypeOf(c), MultipartOf(c), xid)
  }

  /** Sixteen bits of message type fit in front of the other two: keys have 64 bits and lose nothing. */
  lemma ToKeyInjective(t: int, p: int, x: int, t': int, p': int, x': int)
    requires 0 <= t && 0 <= p < 0x1_0000 && ValidXid(x)
    requires 0 <= t' && 0 <= p' < 0x1_0000 && ValidXid(x')
    ensures t < 0x1_0000 ==> 0 <= ToKey(t, p, x) < 0x1_0000_0000_0000_0000
    ensures ToKey(t, p, x) == ToKey(t', p', x') <==> t == t' && p == p' && x == x'
  {
  }

  /** The key of a reply is the key of a registered request only if that request is of its request class. */
  lemma KeyDeterminesClass(reply: ReplyClass, xid: int, c: RequestClass, xid': int)
    requires ValidClass(c) && ValidXid(xid) && ValidXid(xid')
    ensures KeyOf(RequestOf(reply), xid) == KeyOf(c, xid') <==> c == RequestOf(reply) && xid == xid'
  {
    var r := RequestOf(reply);
    ToKeyInjective(TypeOf(r), MultipartOf(r), xid, TypeOf(c), MultipartOf(c), xid');
  }

  lemma TraitsInvertEachOther(request: RequestClass, reply: ReplyClass)
    ensures ReplyOf(request) == Some(reply) <==> RequestOf(reply) == request
  {
  }

  /** The key looked up for an error: from the start of the failed request that its data carries. */
  function ErrorKey(data: seq<Byte>): Option<int> {
    if |data| < HEADER_LENGTH then None
    else
      var msgType, xid := data[1], FromBe32(data[4], data[5], data[6], data[7]);
      if msgType == MULTIPART_REQUEST then
        if |data| < MULTIPART_LENGTH then None
        else Some(ToKey(msgType, FromBe16(data[8], data[9]), xid))
      else Some(ToKey(msgType, 0, xid))
  }

  /** The first octets of a message on the wire: the header, and the multipart type of a multipart message. */
  ghost predicate Encodes(wire: seq<Byte>, c: RequestClass, xid: int)
    requires ValidXid(xid)
  {
    && |wire| >= HEADER_LENGTH
    && wire[1] == TypeOf(c)
    && wire[4..8] == Be32(xid)
    && (TypeOf(c) == MULTIPART_REQUEST || TypeOf(c) == MULTIPART_REPLY ==>
          |wire| >= MULTIPART_LENGTH && MultipartOf(c) == FromBe16(wire[8], wire[9]))
  }

  /**
   * An error that carries the first n octets of the failed request leads to the key the request
   * was registered under exactly when n covers the header, and the multipart header for a
   * multipart request; a multipart reply sent as a request is only found for multipart type 0.
   */
  lemma ErrorFindsItsRequest(wire: seq<Byte>, n: nat, c: RequestClass, xid: int)
    requires ValidClass(c) && ValidXid(xid) && Encodes(wire, c, xid) && n <= |wire|
    ensures ErrorKey(wire[..n]) == Some(KeyOf(c, xid)) <==>
            && n >= HEADER_LENGTH
            && (TypeOf(c) == MULTIPART_REQUEST ==> n >= MULTIPART_LENGTH)
            && (TypeOf(c) == MULTIPART_REPLY ==> MultipartOf(c) == 0)
  {
    if n >= HEADER_LENGTH {
      var data := wire[..n];
      assert data[4..8] == wire[4..8];
      assert data[4] == data[4..8][0] && data[5] == data[4..8][1] && data[6] == data[4..8][2] && data[7] == data[4..8][3];
      Be32RoundTrip(xid);
      assert FromBe32(data[4], data[5], data[6], data[7]) == xid;
    }
  }

  /** The data start with the header of a request of class c with transaction id xid, as far as it is looked at. */
  predicate NamesRequest(data: seq<Byte>, c: RequestClass, xid: int) {
    && |data| >= 8
    && data[1] == TypeOf(c)
    && xid == BigEndian(data[4..8])
    && if data[1] == 18 then |data| >= 16 && MultipartOf(c) == BigEndian(data[8..10]) else MultipartOf(c) == 0
  }

  /** An error leads to a request's key exactly if its data name that request. */
  lemma ErrorNamesRequest(data: seq<Byte>, c: RequestClass, xid: int)
    requires ValidClass(c) && ValidXid(xid)
    ensures ErrorKey(data) == Some(KeyOf(c, xid)) <==> NamesRequest(data, c, xid)
  {
    if ErrorKey(data).Some? {
      BigEndian32(data[4..8]);
      if data[1] == 18 { BigEndian16(data[8..10]); }
      var word := FromBe32(data[4], data[5], data[6], data[7]);
      var part := if data[1] == 18 then FromBe16(data[8], data[9]) else 0;
      ToKeyInjective(data[1], part, word, TypeOf(c), MultipartOf(c), xid);
    }
  }

  /** Replies have the type after their request's, and a request's multipart type. */
  lemma ReplyTypes(reply: ReplyClass)
    ensures (TypeOf(RequestOf(reply)) + 1, MultipartOf(RequestOf(reply))) ==
            match reply {
              case EchoReply => (3, 0) case FeaturesReply => (6, 0) case GetConfigReply => (8, 0)
              case QueueGetConfigReply => (23, 0) case BarrierReply => (21, 0) case RoleReply => (25, 0)
              case GetAsyncReply => (27, 0) case DescriptionReply => (19, 0) case FlowStatsReply => (19, 1)
              case AggregateStatsReply => (19, 2) case TableStatsReply => (19, 3) case PortStatsReply => (19, 4)
              case QueueStatsReply => (19, 5) case TableFeaturesReply => (19, 12) case PortDescriptionReply => (19, 13)
            }
  {
  }

  /** A multipart reply of type 1, sent as a request, whose error is not found. */
  lemma ReplySentAsRequestIsNotFound()
    ensures var wire: seq<Byte> := [4, 19, 0, 16, 0, 0, 0, 7, 0, 1, 0, 0, 0, 0, 0, 0];
            && ValidClass(Other(MULTIPART_REPLY, 1)) && Encodes(wire, Other(MULTIPART_REPLY, 1), 7)
            && ErrorKey(wire) != Some(KeyOf(Other(MULTIPART_REPLY, 1), 7))
  {
    var wire: seq<Byte> := [4, 19, 0, 16, 0, 0, 0, 7, 0, 1, 0, 0, 0, 0, 0, 0];
    assert wire[4..8] == [0, 0, 0, 7];
    ErrorFindsItsRequest(wire, 16, Other(MULTIPART_REPLY, 1), 7);
    assert wire[..16] == wire;
  }
}
