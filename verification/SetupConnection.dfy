/**
 * The set-up of a connection: send a hello, receive the peer's hello header and then its
 * elements, each under a timeout, and start a channel for the version both sides support. The
 * completion handlers of reads and writes and the handlers of timeouts run one at a time, on a
 * strand; when they are queued, and when timers expire, is left open.
 */
module SetupConnection {
  import opened Bytes
  import opened MessageLoop
  import opened Versions

  /** Type 0 is the hello of every version of the protocol. */
  const HELLO := 0

  /**
   * What the surroundings supply: the encoded hello and the encoded error message, and how a
   * received hello is searched for a version.
   */
  datatype Config = Config(
    hello: seq<Byte>, refusal: seq<Byte>, versions: seq<nat>, support: (seq<Byte>, nat) -> bool)
  {
    function Supporting(hello: seq<Byte>): nat -> bool {
      (v: nat) => support(hello, v)
    }
  }

  datatype Stage =
    | NotStarted
    | SendingHello
    | ReceivingHeader
    | ReceivingElements(length: nat)
    | SendingError
    | HandedOver(version: nat)
    | Abandoned

  /** A read or write: under way, or finished with its handler queued. */
  datatype Io = NoIo | Outstanding | Finished(failed: bool, data: seq<Byte>)

  /** A wait on the timer: armed, or with its handler queued with success or operation_aborted, or run. */
  datatype Phase = Armed | Queued(aborted: bool) | Ran

  /** generation: the timer's timeout_id when the wait was started; stage: what it was started for. */
  datatype Wait = Wait(generation: nat, stage: Stage, phase: Phase)

  datatype Reason = Timeout(wait: nat) | SendFailed | ReceiveFailed | InvalidHello | Incompatible

  /** Every close of the socket is recorded with the stage it happened in. */
  datatype Closing = Closing(reason: Reason, at: Stage)

  /** received: all the octets of the peer that reads have taken from the socket. */
  datatype Connection = Connection(
    stage: Stage, io: Io, open: bool, timeoutId: nat, waits: seq<Wait>, buffer: seq<Byte>,
    received: seq<Byte>, closings: seq<Closing>)

  const FRESH := Connection(NotStarted, NoIo, true, 0, [], [], [], [])

  // -------------------------------------------------------------------------------------
  // The timer
  // -------------------------------------------------------------------------------------

  function Abort(wait: Wait): Wait {
    if wait.phase.Armed? then wait.(phase := Queued(true)) else wait
  }

  function Expire(wait: Wait): Wait {
    if wait.phase.Armed? then wait.(phase := Queued(false)) else wait
  }

  function AbortAll(waits: seq<Wait>): seq<Wait> {
    seq(|waits|, i requires 0 <= i < |waits| => Abort(waits[i]))
  }

  function ExpireAll(waits: seq<Wait>): seq<Wait> {
    seq(|waits|, i requires 0 <= i < |waits| => Expire(waits[i]))
  }

  /** Cancelling the timer starts a new generation. */
  function CancelTimeout(c: Connection): Connection {
    c.(timeoutId := c.timeoutId + 1, waits := AbortAll(c.waits))
  }

  /** So does setting it, which also aborts what was waiting on it. */
  function SetTimeout(c: Connection): Connection {
    var waits := AbortAll(c.waits);
    c.(timeoutId := c.timeoutId + 1, waits := waits + [Wait(c.timeoutId + 1, c.stage, Armed)])
  }

  function Close(c: Connection, reason: Reason): Connection {
    c.(open := false, closings := c.closings + [Closing(reason, c.stage)])
  }

  /** A timeout's handler: it does nothing if it was aborted or is of an earlier generation. */
  function RunTimeout(c: Connection, k: nat): Connection
    requires k < |c.waits| && c.waits[k].phase.Queued?
  {
    var wait := c.waits[k];
    var aborted := wait.phase.aborted || wait.generation != c.timeoutId;
    var c' := c.(waits := c.waits[k := wait.(phase := Ran)]);
    if aborted then c' else Close(c', Timeout(k))
  }

  // -------------------------------------------------------------------------------------
  // The steps of the handshake
  // -------------------------------------------------------------------------------------

  function Resize(s: seq<Byte>, n: nat): (r: seq<Byte>)
    ensures |r| == n
  {
    if n <= |s| then s[..n] else s + Zeros(n - |s|)
  }

  /** data read into the front of a buffer. */
  function Overwrite(buffer: seq<Byte>, data: seq<Byte>): seq<Byte> {
    if |data| <= |buffer| then data + buffer[|data|..] else data
  }

  /** A hello header that says it is one, and is not shorter than a header. */
  predicate IsValidHello(header: seq<Byte>) {
    |header| >= HEADER && header[1] == HELLO && LengthOf(header) >= HEADER
  }

  function Abandon(c: Connection, reason: Reason): Connection {
    Close(c, reason).(stage := Abandoned, io := NoIo)
  }

  function Begin(cfg: Config, c: Connection): Connection {
    SetTimeout(c.(stage := SendingHello, io := Outstanding, buffer := cfg.hello))
  }

  function OnHelloSent(c: Connection, failed: bool): Connection {
    var c := CancelTimeout(c);
    if failed then Abandon(c, SendFailed)
    else SetTimeout(c.(stage := ReceivingHeader, io := Outstanding))
  }

  /** The header overwrites the front of the buffer that held our own hello. */
  function OnHeader(cfg: Config, c: Connection, failed: bool, header: seq<Byte>): Connection {
    var c := CancelTimeout(c);
    if failed then Abandon(c, ReceiveFailed)
    else
      var c := c.(buffer := Overwrite(c.buffer, header));
      if !IsValidHello(header) then Abandon(c, InvalidHello)
      else
        var length := LengthOf(header);
        if length == HEADER then HandleHello(cfg, c.(buffer := Resize(c.buffer, HEADER)))
        else
          var rest := length - HEADER;
          SetTimeout(c.(stage := ReceivingElements(rest), io := Outstanding, buffer := Resize(c.buffer, HEADER + rest)))
  }

  function OnElements(cfg: Config, c: Connection, failed: bool, elements: seq<Byte>): Connection {
    var c := CancelTimeout(c);
    if failed then Abandon(c, ReceiveFailed)
    else HandleHello(cfg, c.(buffer := Resize(c.buffer, HEADER) + elements))
  }

  /** Hand the socket over to a channel, or send an error, which reuses the buffer. */
  function HandleHello(cfg: Config, c: Connection): Connection {
    match Negotiate(cfg.versions, cfg.Supporting(c.buffer))
    case Chosen(v) => c.(stage := HandedOver(v), io := NoIo)
    case Incompatible => c.(stage := SendingError, io := Outstanding, buffer := cfg.refusal)
  }

  function OnErrorSent(c: Connection): Connection {
    Abandon(c, Reason.Incompatible)
  }

  // -------------------------------------------------------------------------------------
  // Steps and runs
  // -------------------------------------------------------------------------------------

  datatype Step =
    | Start
    | IoCompletes(failed: bool, data: seq<Byte>)
    | RunIo
    | TimerExpires
    | RunWait(wait: nat)

  /** How many octets the read of a stage is for; the other stages write. There is room for a header where our hello was. */
  function Wanted(stage: Stage): nat {
    match stage
    case ReceivingHeader => HEADER
    case ReceivingElements(length) => length
    case _ => 0
  }

  predicate Enabled(c: Connection, step: Step) {
    match step
    case Start => c.stage.NotStarted?
    // what a failed read leaves behind is never looked at
    case IoCompletes(failed, data) => c.io.Outstanding? && if failed then data == [] else c.open && |data| == Wanted(c.stage)
    case RunIo => c.io.Finished?
    case TimerExpires => true
    case RunWait(k) => k < |c.waits| && c.waits[k].phase.Queued?
  }

  function Apply(cfg: Config, c: Connection, step: Step): Connection
    requires Enabled(c, step)
  {
    match step
    case Start => Begin(cfg, c)
    case IoCompletes(failed, data) => c.(io := Finished(failed, data), received := c.received + data)
    case RunIo => RunCompletion(cfg, c)
    case TimerExpires => c.(waits := ExpireAll(c.waits))
    case RunWait(k) => RunTimeout(c, k)
  }

  function RunCompletion(cfg: Config, c: Connection): Connection
    requires c.io.Finished?
  {
    match c.stage
    case SendingHello => OnHelloSent(c, c.io.failed)
    case ReceivingHeader => OnHeader(cfg, c, c.io.failed, c.io.data)
    case ReceivingElements(_) => OnElements(cfg, c, c.io.failed, c.io.data)
    case SendingError => OnErrorSent(c)
    case _ => c
  }

  // -------------------------------------------------------------------------------------
  // What every step keeps
  // -------------------------------------------------------------------------------------

  predicate Timed(stage: Stage) {
    stage.SendingHello? || stage.ReceivingHeader? || stage.ReceivingElements?
  }

  /** How far the handshake has come. */
  function Rank(stage: Stage): nat {
    match stage
    case NotStarted => 0
    case SendingHello => 1
    case ReceivingHeader => 2
    case ReceivingElements(_) => 3
    case _ => 4
  }

  /** Wait k was started as the k-th, for stage k + 1; only the wait of the present stage is armed. */
  ghost predicate WaitOk(c: Connection, k: nat)
    requires k < |c.waits|
  {
    var wait := c.waits[k];
    && wait.generation == 2 * k + 1 && Timed(wait.stage) && Rank(wait.stage) == k + 1
    && (wait.phase.Armed? ==> wait.generation == c.timeoutId)
    && (wait.generation == c.timeoutId ==> wait.stage == c.stage)
  }

  /** Each stage sets the timer once and cancels it once. */
  ghost predicate TimerOk(c: Connection) {
    && |c.waits| <= 3
    && (forall k :: 0 <= k < |c.waits| ==> WaitOk(c, k))
    && (Timed(c.stage) ==> |c.waits| == Rank(c.stage) && c.timeoutId == 2 * |c.waits| - 1)
    && (!Timed(c.stage) ==> c.timeoutId == 2 * |c.waits|)
    && (c.stage.NotStarted? <==> |c.waits| == 0)
  }

  /** A timeout closes the socket only in its own stage, and when its handler runs. */
  ghost predicate ClosingOk(c: Connection, closing: Closing) {
    match closing.reason
    case Timeout(k) => k < |c.waits| && closing.at == c.waits[k].stage && c.waits[k].phase.Ran?
    case _ => c.stage.Abandoned?
  }

  ghost predicate ClosingsOk(c: Connection) {
    && (c.open <==> c.closings == [])
    && (forall i :: 0 <= i < |c.closings| ==> ClosingOk(c, c.closings[i]))
    && (c.stage.NotStarted? ==> c.open)
  }

  /** Success on a socket that is closed by now: it was the present stage's timeout that closed it. */
  ghost predicate LateOk(c: Connection) {
    var last := |c.waits| - 1;
    (c.io.Finished? && !c.io.failed && Timed(c.stage)) || c.stage.HandedOver? ==>
      forall i :: 0 <= i < |c.closings| ==> last >= 0 && c.closings[i].reason == Timeout(last)
  }

  /** The present stage's wait has not been aborted, and if its handler has run, it has closed the socket. */
  ghost predicate LastWaitOk(c: Connection) {
    Timed(c.stage) && |c.waits| > 0 ==>
      var phase := c.waits[|c.waits| - 1].phase;
      phase != Queued(true) && (phase.Ran? ==> !c.open)
  }

  /** A whole hello: it is valid, and as long as it says. */
  ghost predicate WholeHello(s: seq<Byte>) {
    IsValidHello(s) && LengthOf(s) == |s|
  }

  /** The octets read so far make up the hello and nothing else. */
  ghost predicate DataOk(cfg: Config, c: Connection) {
    var data := if c.io.Finished? then c.io.data else [];
    && (c.io.Finished? && !c.io.failed ==> |data| == Wanted(c.stage))
    && match c.stage
       case NotStarted => c.received == []
       case SendingHello => c.received == data && c.buffer == cfg.hello
       case ReceivingHeader => c.received == data
       case ReceivingElements(length) =>
         && IsValidHello(c.buffer) && LengthOf(c.buffer) == |c.buffer| == HEADER + length
         && c.received == c.buffer[..HEADER] + data
       case SendingError =>
         && c.buffer == cfg.refusal && WholeHello(c.received)
         && RightChoice(Choice.Incompatible, cfg.versions, cfg.Supporting(c.received))
       case HandedOver(v) =>
         && c.buffer == c.received && WholeHello(c.received)
         && RightChoice(Chosen(v), cfg.versions, cfg.Supporting(c.received))
       case Abandoned => true
  }

  ghost predicate IoOk(c: Connection) {
    (c.io.NoIo? <==> c.stage.NotStarted? || c.stage.HandedOver? || c.stage.Abandoned?)
    && (c.io.Finished? && (c.io.failed || c.stage.SendingHello? || c.stage.SendingError?) ==> c.io.data == [])
  }

  ghost predicate Inv(cfg: Config, c: Connection) {
    IoOk(c) && TimerOk(c) && ClosingsOk(c) && LateOk(c) && LastWaitOk(c) && DataOk(cfg, c)
  }

  ghost predicate Legal(cfg: Config, c: Connection, steps: seq<Step>)
    decreases |steps|
  {
    steps == [] || (Enabled(c, steps[0]) && Legal(cfg, Apply(cfg, c, steps[0]), steps[1..]))
  }

  ghost function Run(cfg: Config, c: Connection, steps: seq<Step>): Connection
    requires Legal(cfg, c, steps)
    decreases |steps|
  {
    if steps == [] then c else Run(cfg, Apply(cfg, c, steps[0]), steps[1..])
  }

  // Each step keeps each part

  /** Waits may be aborted, expire and run, but keep what they were started for. */
  ghost predicate SameWaits(waits: seq<Wait>, waits': seq<Wait>) {
    && |waits| <= |waits'|
    && forall k :: 0 <= k < |waits| ==>
         && waits'[k].generation == waits[k].generation && waits'[k].stage == waits[k].stage
         && (waits'[k].phase.Armed? ==> waits[k].phase.Armed?)
         && (waits[k].phase.Ran? ==> waits'[k].phase.Ran?)
  }

  lemma TimerStays(c: Connection, c': Connection)
    requires TimerOk(c) && SameWaits(c.waits, c'.waits) && |c'.waits| == |c.waits|
    requires c'.timeoutId == c.timeoutId && c'.stage == c.stage
    ensures TimerOk(c')
  {
    forall k | 0 <= k < |c'.waits| ensures WaitOk(c', k) {
      assert WaitOk(c, k);
    }
  }

  /** When a stage is over its wait is aborted, and no wait is of the new generation. */
  lemma TimerCancelled(c: Connection, c': Connection)
    requires TimerOk(c) && Timed(c.stage) && !Timed(c'.stage) && !c'.stage.NotStarted?
    requires c'.waits == AbortAll(c.waits) && c'.timeoutId == c.timeoutId + 1
    ensures TimerOk(c') && SameWaits(c.waits, c'.waits)
  {
    forall k | 0 <= k < |c'.waits| ensures WaitOk(c', k) {
      assert WaitOk(c, k);
    }
  }

  /** The next stage sets the timer anew. */
  lemma TimerSet(c: Connection, c': Connection)
    requires TimerOk(c) && !Timed(c.stage) && Timed(c'.stage) && Rank(c'.stage) == |c.waits| + 1
    requires c'.waits == AbortAll(c.waits) + [Wait(c.timeoutId + 1, c'.stage, Armed)]
    requires c'.timeoutId == c.timeoutId + 1
    ensures TimerOk(c') && SameWaits(c.waits, c'.waits)
  {
    forall k | 0 <= k < |c'.waits| ensures WaitOk(c', k) {
      if k < |c.waits| { assert WaitOk(c, k); }
    }
  }

  lemma TimerSetNext(c: Connection, c1: Connection, c': Connection)
    requires TimerOk(c) && Timed(c.stage) && Timed(c'.stage) && Rank(c'.stage) == Rank(c.stage) + 1
    requires c1 == CancelTimeout(c)
    requires c'.waits == AbortAll(c1.waits) + [Wait(c1.timeoutId + 1, c'.stage, Armed)]
    requires c'.timeoutId == c1.timeoutId + 1
    ensures TimerOk(c') && SameWaits(c.waits, c'.waits)
  {
    var between := c1.(stage := Abandoned);
    TimerCancelled(c, between);
    TimerSet(between, c');
  }

  lemma ClosingsStay(c: Connection, c': Connection)
    requires ClosingsOk(c) && SameWaits(c.waits, c'.waits)
    requires c'.closings == c.closings && c'.open == c.open
    requires c.stage.Abandoned? ==> c'.stage.Abandoned?
    requires c'.stage.NotStarted? ==> c.stage.NotStarted?
    ensures ClosingsOk(c')
  {
    forall i | 0 <= i < |c'.closings| ensures ClosingOk(c', c'.closings[i]) {
      assert ClosingOk(c, c.closings[i]);
    }
  }

  lemma ClosingsGrow(c: Connection, c': Connection, closing: Closing)
    requires ClosingsOk(c) && SameWaits(c.waits, c'.waits) && ClosingOk(c', closing)
    requires c'.closings == c.closings + [closing] && !c'.open
    requires c.stage.Abandoned? ==> c'.stage.Abandoned?
    requires !c'.stage.NotStarted?
    ensures ClosingsOk(c')
  {
    forall i | 0 <= i < |c'.closings| ensures ClosingOk(c', c'.closings[i]) {
      if i < |c.closings| { assert ClosingOk(c, c.closings[i]); }
    }
  }

  lemma FreshIsOk(cfg: Config)
    ensures Inv(cfg, FRESH)
  {
  }

  lemma BeginKeeps(cfg: Config, c: Connection)
    requires Inv(cfg, c) && c.stage.NotStarted?
    ensures Inv(cfg, Begin(cfg, c))
  {
    TimerSet(c, Begin(cfg, c));
    ClosingsStay(c, Begin(cfg, c));
  }

  lemma CompletesKeeps(cfg: Config, c: Connection, failed: bool, data: seq<Byte>)
    requires Inv(cfg, c) && Enabled(c, IoCompletes(failed, data))
    ensures Inv(cfg, Apply(cfg, c, IoCompletes(failed, data)))
  {
    var c' := Apply(cfg, c, IoCompletes(failed, data));
    TimerStays(c, c');
    ClosingsStay(c, c');
    assert c.received + [] == c.received;
    assert |data| == 0 ==> data == [];
  }

  lemma ExpiryKeeps(cfg: Config, c: Connection)
    requires Inv(cfg, c)
    ensures Inv(cfg, c.(waits := ExpireAll(c.waits)))
  {
    var c' := c.(waits := ExpireAll(c.waits));
    TimerStays(c, c');
    ClosingsStay(c, c');
  }

  lemma TimeoutKeeps(cfg: Config, c: Connection, k: nat)
    requires Inv(cfg, c) && k < |c.waits| && c.waits[k].phase.Queued?
    ensures Inv(cfg, RunTimeout(c, k))
  {
    var c' := RunTimeout(c, k);
    assert WaitOk(c, k);
    TimerStays(c, c');
    if c'.closings == c.closings {
      ClosingsStay(c, c');
    } else {
      ClosingsGrow(c, c', Closing(Timeout(k), c.stage));
    }
  }

  lemma SendKeeps(cfg: Config, c: Connection)
    requires Inv(cfg, c) && c.io.Finished? && c.stage.SendingHello?
    ensures Inv(cfg, OnHelloSent(c, c.io.failed))
  {
    var c' := OnHelloSent(c, c.io.failed);
    if c.io.failed {
      TimerCancelled(c, c');
      ClosingsGrow(c, c', Closing(SendFailed, c.stage));
    } else {
      TimerSetNext(c, CancelTimeout(c), c');
      ClosingsStay(c, c');
    }
  }

  lemma HeaderKeeps(cfg: Config, c: Connection)
    requires Inv(cfg, c) && c.io.Finished? && c.stage.ReceivingHeader?
    ensures Inv(cfg, OnHeader(cfg, c, c.io.failed, c.io.data))
  {
    var c', header := OnHeader(cfg, c, c.io.failed, c.io.data), c.io.data;
    if c.io.failed {
      TimerCancelled(c, c');
      ClosingsGrow(c, c', Closing(ReceiveFailed, c.stage));
    } else if !IsValidHello(header) {
      TimerCancelled(c, c');
      ClosingsGrow(c, c', Closing(InvalidHello, c.stage));
    } else if LengthOf(header) == HEADER {
      assert Resize(Overwrite(c.buffer, header), HEADER) == header;
      var c1 := CancelTimeout(c).(buffer := header);
      NegotiateIsRight(cfg.versions, cfg.Supporting(header));
      TimerCancelled(c, c');
      ClosingsStay(c, c');
    } else {
      var buffer := Resize(Overwrite(c.buffer, header), LengthOf(header));
      assert buffer[..HEADER] == header;
      TimerSetNext(c, CancelTimeout(c), c');
      ClosingsStay(c, c');
    }
  }

  lemma ElementsKeep(cfg: Config, c: Connection)
    requires Inv(cfg, c) && c.io.Finished? && c.stage.ReceivingElements?
    ensures Inv(cfg, OnElements(cfg, c, c.io.failed, c.io.data))
  {
    var c' := OnElements(cfg, c, c.io.failed, c.io.data);
    TimerCancelled(c, c');
    if c.io.failed {
      ClosingsGrow(c, c', Closing(ReceiveFailed, c.stage));
    } else {
      var buffer := Resize(c.buffer, HEADER) + c.io.data;
      assert buffer[..HEADER] == c.buffer[..HEADER];
      assert buffer == c.received;
      NegotiateIsRight(cfg.versions, cfg.Supporting(buffer));
      ClosingsStay(c, c');
    }
  }

  lemma ErrorKeeps(cfg: Config, c: Connection)
    requires Inv(cfg, c) && c.io.Finished? && c.stage.SendingError?
    ensures Inv(cfg, OnErrorSent(c))
  {
    var c' := OnErrorSent(c);
    forall k | 0 <= k < |c'.waits| ensures WaitOk(c', k) {
      assert WaitOk(c, k);
    }
    ClosingsGrow(c, c', Closing(Reason.Incompatible, c.stage));
  }

  lemma StepKeeps(cfg: Config, c: Connection, step: Step)
    requires Inv(cfg, c) && Enabled(c, step)
    ensures Inv(cfg, Apply(cfg, c, step))
  {
    match step
    case Start => BeginKeeps(cfg, c);
    case IoCompletes(failed, data) => CompletesKeeps(cfg, c, failed, data);
    case RunIo =>
      match c.stage {
        case SendingHello => SendKeeps(cfg, c);
        case ReceivingHeader => HeaderKeeps(cfg, c);
        case ReceivingElements(_) => ElementsKeep(cfg, c);
        case SendingError => ErrorKeeps(cfg, c);
        case _ =>
      }
    case TimerExpires => ExpiryKeeps(cfg, c);
    case RunWait(k) => TimeoutKeeps(cfg, c, k);
  }

  lemma {:induction false} RunKeeps(cfg: Config, c: Connection, steps: seq<Step>)
    requires Inv(cfg, c) && Legal(cfg, c, steps)
    ensures Inv(cfg, Run(cfg, c, steps))
    decreases |steps|
  {
    if steps != [] {
      StepKeeps(cfg, c, steps[0]);
      RunKeeps(cfg, Apply(cfg, c, steps[0]), steps[1..]);
    }
  }
}
