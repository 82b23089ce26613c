/** What connection set-up guarantees over whole runs, and together with the message loop. */
module SetupTheorems {
  import opened Bytes
  import opened MessageLoop
  import opened Versions
  import opened SetupConnection

  // -------------------------------------------------------------------------------------
  // Timeouts
  // -------------------------------------------------------------------------------------

  /** A wait whose handler has not run, of the timer's present generation: it could close the socket. */
  predicate Pending(c: Connection, k: nat) {
    k < |c.waits| && !c.waits[k].phase.Ran? && c.waits[k].generation == c.timeoutId
  }

  /**
   * In every reachable state: each timeout that closed the socket did so while the stage it was
   * set for was under way; at most one wait is of the present generation, it is of the present
   * stage, and there is none once the socket is handed over or set-up has ended otherwise; no
   * timed stage is without a wait of its own; and the generation never exceeds 6, so it does not
   * wrap around.
   */
  lemma TimeoutsAreOfTheirStage(cfg: Config, steps: seq<Step>)
    requires Legal(cfg, FRESH, steps)
    ensures var c := Run(cfg, FRESH, steps);
            && (forall i, k: nat :: 0 <= i < |c.closings| && c.closings[i].reason == Timeout(k) ==>
                  k < |c.waits| && c.closings[i].at == c.waits[k].stage)
            && (forall j: nat, k: nat :: Pending(c, j) && Pending(c, k) ==> j == k)
            && (forall k: nat :: Pending(c, k) ==> c.waits[k].stage == c.stage && Timed(c.stage))
            && (Timed(c.stage) ==> |c.waits| > 0 && c.waits[|c.waits| - 1].generation == c.timeoutId)
            && c.timeoutId <= 6
  {
    FreshIsOk(cfg);
    RunKeeps(cfg, FRESH, steps);
    var c := Run(cfg, FRESH, steps);
    forall i, k: nat | 0 <= i < |c.closings| && c.closings[i].reason == Timeout(k)
      ensures k < |c.waits| && c.closings[i].at == c.waits[k].stage {
      assert ClosingOk(c, c.closings[i]);
    }
    if Timed(c.stage) {
      assert WaitOk(c, |c.waits| - 1);
    }
    forall k: nat | Pending(c, k) ensures c.waits[k].stage == c.stage && Timed(c.stage) && c.timeoutId == 2 * k + 1 {
      assert WaitOk(c, k);
    }
  }

  /** Once the timer has moved on to another generation, it never comes back to it. */
  lemma GenerationsGrow(cfg: Config, c: Connection, step: Step, k: nat)
    requires Enabled(c, step) && k < |c.waits|
    ensures var c' := Apply(cfg, c, step);
            && c'.timeoutId >= c.timeoutId
            && k < |c'.waits| && c'.waits[k].generation == c.waits[k].generation
            && c'.waits[k].stage == c.waits[k].stage
  {
    hide Negotiate, Resize, Overwrite, IsValidHello, LengthOf;
    match step
    case RunIo => hide Begin;
    case _ =>
  }

  /** A step closes the socket by timeout k only if k is of the present generation. */
  lemma OnlyPresentTimeoutsClose(cfg: Config, c: Connection, step: Step, i: nat)
    requires Enabled(c, step)
    requires |c.closings| <= i < |Apply(cfg, c, step).closings|
    ensures Apply(cfg, c, step).closings[i].reason.Timeout? ==>
              Pending(c, Apply(cfg, c, step).closings[i].reason.wait)
  {
    hide Negotiate, Resize, Overwrite, IsValidHello, LengthOf, AbortAll, ExpireAll;
  }

  /**
   * Once the completion handler of the stage a timeout was set for has run, the timeout never
   * closes the socket, not even if its own handler was queued with success before.
   */
  lemma {:induction false} NoTimeoutAfterItsStage(cfg: Config, c: Connection, steps: seq<Step>, k: nat, i: nat)
    requires Inv(cfg, c) && Legal(cfg, c, steps)
    requires k < |c.waits| && c.waits[k].stage != c.stage
    requires |c.closings| <= i < |Run(cfg, c, steps).closings|
    ensures Run(cfg, c, steps).closings[i].reason != Timeout(k)
  {
    assert WaitOk(c, k);
    OldTimeoutsNeverClose(cfg, c, steps, k, i);
  }

  lemma {:induction false} OldTimeoutsNeverClose(cfg: Config, c: Connection, steps: seq<Step>, k: nat, i: nat)
    requires Legal(cfg, c, steps)
    requires k < |c.waits| && c.waits[k].generation < c.timeoutId
    requires |c.closings| <= i < |Run(cfg, c, steps).closings|
    ensures Run(cfg, c, steps).closings[i].reason != Timeout(k)
    decreases |steps|
  {
    var c1 := Apply(cfg, c, steps[0]);
    GenerationsGrow(cfg, c, steps[0], k);
    ClosingsOnlyGrow(cfg, c1, steps[1..]);
    if i < |c1.closings| {
      OnlyPresentTimeoutsClose(cfg, c, steps[0], i);
      assert Run(cfg, c, steps).closings[i] == c1.closings[i];
    } else {
      OldTimeoutsNeverClose(cfg, c1, steps[1..], k, i);
    }
  }

  lemma {:induction false} ClosingsOnlyGrow(cfg: Config, c: Connection, steps: seq<Step>)
    requires Legal(cfg, c, steps)
    ensures c.closings <= Run(cfg, c, steps).closings
    decreases |steps|
  {
    if steps != [] {
      var c1 := Apply(cfg, c, steps[0]);
      ClosingsOfStep(cfg, c, steps[0]);
      ClosingsOnlyGrow(cfg, c1, steps[1..]);
    }
  }

  lemma ClosingsOfStep(cfg: Config, c: Connection, step: Step)
    requires Enabled(c, step)
    ensures c.closings <= Apply(cfg, c, step).closings
  {
    hide Negotiate, Resize, Overwrite, IsValidHello, LengthOf, AbortAll, ExpireAll;
  }

  /**
   * Let the last read before the hand-over have succeeded, and its handler be queued. The socket
   * is closed by now if and only if the handler of the present stage's timeout has run, and the
   * channel is given the socket as it is now.
   */
  lemma ChannelSocketIsOpenUnlessLate(cfg: Config, steps: seq<Step>)
    requires Legal(cfg, FRESH, steps)
    requires var c := Run(cfg, FRESH, steps); c.io.Finished? && !c.io.failed && Timed(c.stage)
    ensures var c := Run(cfg, FRESH, steps);
            var c' := Apply(cfg, c, RunIo);
            && |c.waits| > 0 && c.waits[|c.waits| - 1].stage == c.stage
            && (!c.open <==> c.waits[|c.waits| - 1].phase.Ran?)
            && (c'.stage.HandedOver? ==> c'.open == c.open)
  {
    FreshIsOk(cfg);
    RunKeeps(cfg, FRESH, steps);
    var c := Run(cfg, FRESH, steps);
    assert WaitOk(c, |c.waits| - 1);
    if !c.open {
      assert c.closings[0].reason == Timeout(|c.waits| - 1) && ClosingOk(c, c.closings[0]);
    }
    hide Negotiate, Resize, Overwrite, IsValidHello, LengthOf, Inv, DataOk;
  }

  /** When a read or write succeeds, that timeout has not run yet: it can only run after the success. */
  lemma SuccessComesBeforeTheTimeout(cfg: Config, steps: seq<Step>, data: seq<Byte>)
    requires Legal(cfg, FRESH, steps) && Timed(Run(cfg, FRESH, steps).stage)
    requires Enabled(Run(cfg, FRESH, steps), IoCompletes(false, data))
    ensures var c := Run(cfg, FRESH, steps);
            |c.waits| > 0 && !c.waits[|c.waits| - 1].phase.Ran?
  {
    FreshIsOk(cfg);
    RunKeeps(cfg, FRESH, steps);
  }

  /** Nothing but the last stage's timeout can have closed the socket of a channel. */
  lemma OnlyTheLastTimeoutIsToBlame(cfg: Config, steps: seq<Step>)
    requires Legal(cfg, FRESH, steps) && Run(cfg, FRESH, steps).stage.HandedOver?
    ensures var c := Run(cfg, FRESH, steps);
            |c.waits| > 0 && forall i :: 0 <= i < |c.closings| ==> c.closings[i].reason == Timeout(|c.waits| - 1)
  {
    FreshIsOk(cfg);
    RunKeeps(cfg, FRESH, steps);
  }

  /**
   * Every stage of the handshake is guarded: in every reachable state in which a stage waits and
   * the socket is open, the expiry of the timer closes the socket, and changes nothing else.
   */
  lemma TimeoutFires(cfg: Config, steps: seq<Step>)
    requires Legal(cfg, FRESH, steps)
    requires var c := Run(cfg, FRESH, steps); c.open && (c.stage.SendingHello? || c.stage.ReceivingHeader? || c.stage.ReceivingElements?)
    ensures var c := Run(cfg, FRESH, steps);
            && |c.waits| > 0
            && var k := |c.waits| - 1;
               var fired := [TimerExpires, RunWait(k)];
               && Legal(cfg, c, fired)
               && var c' := Run(cfg, c, fired);
                  && !c'.open && c'.closings == c.closings + [Closing(Timeout(k), c.stage)]
                  && c'.stage == c.stage && c'.io == c.io && c'.buffer == c.buffer && c'.received == c.received
  {
    FreshIsOk(cfg);
    RunKeeps(cfg, FRESH, steps);
    var c := Run(cfg, FRESH, steps);
    var k := |c.waits| - 1;
    assert WaitOk(c, k);
    hide Inv, Legal, Run;
    var c1 := Apply(cfg, c, TimerExpires);
    assert c1.waits[k].phase == Queued(false) && c1.waits[k].generation == c1.timeoutId;
    var c2 := Apply(cfg, c1, RunWait(k));
    hide Apply;
    NothingThenRun(cfg, c2);
    StepThenRun(cfg, c1, RunWait(k), []);
    StepThenRun(cfg, c, TimerExpires, [RunWait(k)]);
    assert [RunWait(k)] + [] == [RunWait(k)] && [TimerExpires] + [RunWait(k)] == [TimerExpires, RunWait(k)];
  }

  const GREETING: seq<Byte> := [4, HELLO, 0, 8, 0, 0, 0, 0]

  /** Up to the success of the header's read, with our own hello sent. */
  const READ: seq<Step> := [Start, IoCompletes(false, []), RunIo, IoCompletes(false, GREETING)]

  const LATE: seq<Step> := [TimerExpires, RunWait(1), RunIo]

  lemma HeaderIsRead(cfg: Config)
    ensures Legal(cfg, FRESH, READ)
    ensures var c := Run(cfg, FRESH, READ);
            && c.stage == ReceivingHeader && c.io == Finished(false, GREETING) && c.open
            && |c.waits| == 2 && c.waits[1] == Wait(3, ReceivingHeader, Armed) && c.timeoutId == 3
  {
    var c1 := Apply(cfg, FRESH, Start);
    var c2 := Apply(cfg, c1, IoCompletes(false, []));
    var c3 := Apply(cfg, c2, RunIo);
    var c4 := Apply(cfg, c3, IoCompletes(false, GREETING));
    assert Legal(cfg, c4, []) && Run(cfg, c4, []) == c4;
    StepThenRun(cfg, c3, IoCompletes(false, GREETING), []);
    StepThenRun(cfg, c2, RunIo, [IoCompletes(false, GREETING)]);
    StepThenRun(cfg, c1, IoCompletes(false, []), [RunIo, IoCompletes(false, GREETING)]);
    hide Apply;
    StepThenRun(cfg, FRESH, Start, [IoCompletes(false, []), RunIo, IoCompletes(false, GREETING)]);
  }

  /** A run in which a channel is started on a socket that a timeout has already closed. */
  lemma LateTimeoutClosesAChannel(cfg: Config)
    requires cfg.versions == [4] && cfg.support(GREETING, 4)
    ensures Legal(cfg, FRESH, READ) && Legal(cfg, Run(cfg, FRESH, READ), LATE)
    ensures var c := Run(cfg, Run(cfg, FRESH, READ), LATE);
            c.stage == HandedOver(4) && !c.open
  {
    HeaderIsRead(cfg);
    hide Legal, Run;
    var c := Run(cfg, FRESH, READ);
    var c1 := Apply(cfg, c, TimerExpires);
    var c2 := Apply(cfg, c1, RunWait(1));
    assert !c2.open && c2.stage == ReceivingHeader;
    var c3 := Apply(cfg, c2, RunIo);
    assert Resize(Overwrite(c2.buffer, GREETING), HEADER) == GREETING;
    assert Sort([4]) == [4];
    assert c3.stage == HandedOver(4) && !c3.open;
    NothingThenRun(cfg, c3);
    hide Apply;
    assert [RunIo] + [] == [RunIo] && [RunWait(1)] + [RunIo] == LATE[1..] && [TimerExpires] + LATE[1..] == LATE;
    StepThenRun(cfg, c2, RunIo, []);
    StepThenRun(cfg, c1, RunWait(1), [RunIo]);
    StepThenRun(cfg, c, TimerExpires, LATE[1..]);
  }

  lemma NothingThenRun(cfg: Config, c: Connection)
    ensures Legal(cfg, c, []) && Run(cfg, c, []) == c
  {
  }

  lemma StepThenRun(cfg: Config, c: Connection, step: Step, steps: seq<Step>)
    requires Enabled(c, step) && Legal(cfg, Apply(cfg, c, step), steps)
    ensures Legal(cfg, c, [step] + steps)
    ensures Run(cfg, c, [step] + steps) == Run(cfg, Apply(cfg, c, step), steps)
  {
    assert ([step] + steps)[1..] == steps;
  }

  // -------------------------------------------------------------------------------------
  // The hello and the channel
  // -------------------------------------------------------------------------------------

  /**
   * Set-up takes from the socket exactly the octets of the hello, as many as its length field
   * says, and decodes exactly those. It starts a channel for the greatest version both sides
   * support, and sends the error only if there is none.
   */
  lemma SetupConsumesExactlyTheHello(cfg: Config, steps: seq<Step>)
    requires Legal(cfg, FRESH, steps)
    ensures var c := Run(cfg, FRESH, steps);
            && (c.stage.HandedOver? || c.stage.SendingError? ==> WholeHello(c.received))
            && (c.stage.HandedOver? ==>
                  c.buffer == c.received && Greatest(c.stage.version, cfg.versions, cfg.Supporting(c.received)))
            && (c.stage.SendingError? ==> forall v :: v in cfg.versions ==> !cfg.support(c.received, v))
  {
    FreshIsOk(cfg);
    RunKeeps(cfg, FRESH, steps);
    var c := Run(cfg, FRESH, steps);
    if c.stage.SendingError? {
      forall v | v in cfg.versions ensures !cfg.support(c.received, v) {
        assert !cfg.Supporting(c.received)(v);
      }
    }
  }

  /** Once a channel is started set-up does nothing more: there is no second channel and no error. */
  lemma {:induction false} OneChannelAtMost(cfg: Config, c: Connection, steps: seq<Step>)
    requires Inv(cfg, c) && Legal(cfg, c, steps) && c.stage.HandedOver?
    ensures var c' := Run(cfg, c, steps);
            c'.stage == c.stage && c'.received == c.received && c'.closings == c.closings && c'.open == c.open
    decreases |steps|
  {
    if steps != [] {
      StepKeeps(cfg, c, steps[0]);
      if steps[0].RunWait? {
        assert WaitOk(c, steps[0].wait);
      }
      assert c.io.NoIo?;
      OneChannelAtMost(cfg, Apply(cfg, c, steps[0]), steps[1..]);
    }
  }

  /** Nothing has happened to the socket in between. */
  predicate SameSocket(c: Connection, c': Connection) {
    c'.open == c.open && c'.closings == c.closings && c'.received == c.received
  }

  /**
   * The peer's hello is decided on: a channel for the greatest version both sides support, or,
   * if there is none, the error is being sent.
   */
  ghost predicate Decided(cfg: Config, c: Connection, c': Connection, hello: seq<Byte>) {
    && SameSocket(c, c')
    && if exists v :: v in cfg.versions && cfg.support(hello, v) then
         && c'.stage.HandedOver? && c'.io.NoIo?
         && var v := c'.stage.version;
            v in cfg.versions && cfg.support(hello, v) && forall w :: w in cfg.versions && cfg.support(hello, w) ==> w <= v
       else c'.stage.SendingError? && c'.io.Outstanding? && c'.buffer == cfg.refusal
  }

  ghost predicate GaveUp(c: Connection, c': Connection, reason: Reason) {
    && c'.stage.Abandoned? && c'.io.NoIo? && !c'.open
    && c'.closings == c.closings + [Closing(reason, c.stage)] && c'.received == c.received
  }

  lemma HandlingDecides(cfg: Config, c: Connection)
    ensures Decided(cfg, c, HandleHello(cfg, c), c.buffer)
  {
    NegotiateIsRight(cfg.versions, cfg.Supporting(c.buffer));
    assert forall v: nat :: cfg.Supporting(c.buffer)(v) == cfg.support(c.buffer, v);
  }

  /**
   * What follows a read or write that has succeeded, in every reachable state. The header is that
   * of a hello if its type octet is 0 and its length octets spell at least 8; then the hello is
   * decided on, at once if it is all header, and else when just the remaining octets have been
   * read. Nothing else makes set-up give up.
   */
  lemma SuccessLeadsOn(cfg: Config, steps: seq<Step>)
    requires Legal(cfg, FRESH, steps)
    requires Run(cfg, FRESH, steps).io.Finished? && !Run(cfg, FRESH, steps).io.failed
    ensures var c := Run(cfg, FRESH, steps);
            var c', data := Apply(cfg, c, RunIo), c.io.data;
            match c.stage
            case SendingHello => SameSocket(c, c') && c'.stage == ReceivingHeader && c'.io == Outstanding
            case ReceivingHeader =>
              && |data| == 8
              && var length := BigEndian(data[2..4]);
                 if data[1] != 0 || length < 8 then GaveUp(c, c', InvalidHello)
                 else if length == 8 then Decided(cfg, c, c', data)
                 else SameSocket(c, c') && c'.stage == ReceivingElements(length - 8) && c'.io == Outstanding
            case ReceivingElements(_) =>
              |c.received| >= 8 && |c.received| == BigEndian(c.received[2..4]) && Decided(cfg, c, c', c.received)
            case SendingError => GaveUp(c, c', Reason.Incompatible)
            case _ => false
  {
    FreshIsOk(cfg);
    RunKeeps(cfg, FRESH, steps);
    hide Run, Legal;
    var c := Run(cfg, FRESH, steps);
    match c.stage
    case SendingHello => hide Inv;
    case ReceivingHeader => HeaderLeadsOn(cfg, c);
    case ReceivingElements(_) => ElementsLeadOn(cfg, c);
    case _ =>
  }

  lemma HeaderLeadsOn(cfg: Config, c: Connection)
    requires c.stage.ReceivingHeader? && c.io.Finished? && !c.io.failed && |c.io.data| == 8
    ensures var c', data := Apply(cfg, c, RunIo), c.io.data;
            var length := BigEndian(data[2..4]);
            if data[1] != 0 || length < 8 then GaveUp(c, c', InvalidHello)
            else if length == 8 then Decided(cfg, c, c', data)
            else SameSocket(c, c') && c'.stage == ReceivingElements(length - 8) && c'.io == Outstanding
  {
    var data := c.io.data;
    BigEndian16(data[2..4]);
    assert LengthOf(data) == BigEndian(data[2..4]);
    var buffer := Overwrite(c.buffer, data);
    assert Resize(buffer, 8) == data;
    HandlingDecides(cfg, CancelTimeout(c).(buffer := data));
    hide Negotiate, LengthOf, BigEndian, HandleHello, Decided, AbortAll;
    assert Decided(cfg, CancelTimeout(c).(buffer := data), HandleHello(cfg, CancelTimeout(c).(buffer := data)), data);
    DecidedBefore(cfg, c, CancelTimeout(c).(buffer := data), HandleHello(cfg, CancelTimeout(c).(buffer := data)), data);
  }

  lemma DecidedBefore(cfg: Config, c: Connection, c1: Connection, c': Connection, hello: seq<Byte>)
    requires SameSocket(c, c1) && Decided(cfg, c1, c', hello)
    ensures Decided(cfg, c, c', hello)
  {
  }

  lemma ElementsLeadOn(cfg: Config, c: Connection)
    requires Inv(cfg, c) && c.stage.ReceivingElements? && c.io.Finished? && !c.io.failed
    ensures |c.received| >= 8 && |c.received| == BigEndian(c.received[2..4])
    ensures Decided(cfg, c, Apply(cfg, c, RunIo), c.received)
  {
    var hello := Resize(c.buffer, HEADER) + c.io.data;
    assert hello == c.received && hello[2] == c.buffer[2] && hello[3] == c.buffer[3];
    BigEndian16(hello[2..4]);
    hide Inv;
    var c1 := CancelTimeout(c).(buffer := hello);
    HandlingDecides(cfg, c1);
    DecidedBefore(cfg, c, c1, HandleHello(cfg, c1), hello);
  }

  /** A read or write that has failed ends set-up with the socket closed, whatever stage it is. */
  lemma FailureGivesUp(cfg: Config, steps: seq<Step>)
    requires Legal(cfg, FRESH, steps)
    requires Run(cfg, FRESH, steps).io.Finished? && Run(cfg, FRESH, steps).io.failed
    ensures var c := Run(cfg, FRESH, steps);
            GaveUp(c, Apply(cfg, c, RunIo),
                   match c.stage case SendingHello => SendFailed case SendingError => Reason.Incompatible case _ => ReceiveFailed)
  {
    FreshIsOk(cfg);
    RunKeeps(cfg, FRESH, steps);
  }

  /** The steps of a handshake in which nothing fails and no timer expires. */
  function Handshake(hello: seq<Byte>): seq<Step>
    requires |hello| >= 8
  {
    [Start, IoCompletes(false, []), RunIo, IoCompletes(false, hello[..8]), RunIo]
      + if |hello| == 8 then [] else [IoCompletes(false, hello[8..]), RunIo]
  }

  lemma HandshakeStarts(cfg: Config, header: seq<Byte>, rest: seq<Step>)
    requires |header| == 8
    ensures var c4 := ReadHeader(cfg, header);
            && c4.stage == ReceivingHeader && c4.io == Finished(false, header) && c4.received == header
            && c4.open && c4.closings == [] && Inv(cfg, c4)
            && (Legal(cfg, c4, rest) ==>
                  var steps := [Start, IoCompletes(false, []), RunIo, IoCompletes(false, header)] + rest;
                  Legal(cfg, FRESH, steps) && Run(cfg, FRESH, steps) == Run(cfg, c4, rest))
  {
    var c1 := Apply(cfg, FRESH, Start);
    var c2 := Apply(cfg, c1, IoCompletes(false, []));
    var c3 := Apply(cfg, c2, RunIo);
    var c4 := Apply(cfg, c3, IoCompletes(false, header));
    FreshIsOk(cfg);
    StepKeeps(cfg, FRESH, Start);
    StepKeeps(cfg, c1, IoCompletes(false, []));
    StepKeeps(cfg, c2, RunIo);
    StepKeeps(cfg, c3, IoCompletes(false, header));
    assert c4 == ReadHeader(cfg, header);
    hide Apply, Inv, ReadHeader;
    if Legal(cfg, c4, rest) {
      StepThenRun(cfg, c3, IoCompletes(false, header), rest);
      StepThenRun(cfg, c2, RunIo, [IoCompletes(false, header)] + rest);
      StepThenRun(cfg, c1, IoCompletes(false, []), [RunIo] + ([IoCompletes(false, header)] + rest));
      StepThenRun(cfg, FRESH, Start, [IoCompletes(false, [])] + ([RunIo] + ([IoCompletes(false, header)] + rest)));
      assert [Start] + ([IoCompletes(false, [])] + ([RunIo] + ([IoCompletes(false, header)] + rest)))
          == [Start, IoCompletes(false, []), RunIo, IoCompletes(false, header)] + rest;
    }
  }

  /** Our hello has been sent and the peer's header read. */
  function ReadHeader(cfg: Config, header: seq<Byte>): Connection
    requires |header| == 8
  {
    var c2 := Begin(cfg, FRESH).(io := Finished(false, []));
    OnHelloSent(c2, false).(io := Finished(false, header), received := header)
  }

  /**
   * Every hello as the protocol writes it, of any version, with any transaction id and any
   * elements, can be received, and leads to a channel for the greatest common version, or to the
   * error if there is none, on an open socket.
   */
  lemma EveryHelloIsAnswered(cfg: Config, m: OfpMessage)
    requires m.Valid() && m.kind == 0
    ensures var hello := m.Encode();
            && Legal(cfg, FRESH, Handshake(hello))
            && var c := Run(cfg, FRESH, Handshake(hello));
               && c.received == hello && c.open && c.closings == []
               && Decided(cfg, c, c, hello)
  {
    var hello := m.Encode();
    var header, elements := hello[..8], hello[8..];
    HeaderSpellsLength(m);
    var c4 := ReadHeader(cfg, header);
    HandshakeStarts(cfg, header, []);
    HeaderLeadsOn(cfg, c4);
    StepKeeps(cfg, c4, RunIo);
    hide Apply, Inv, ReadHeader, BigEndian, OfpMessage.Encode, Negotiate, Decided;
    var c5 := Apply(cfg, c4, RunIo);
    NothingThenRun(cfg, c5);
    if |hello| == 8 {
      assert header == hello;
      StepThenRun(cfg, c4, RunIo, []);
      HandshakeStarts(cfg, header, [RunIo]);
      assert [RunIo] + [] == [RunIo];
      assert [Start, IoCompletes(false, []), RunIo, IoCompletes(false, header)] + [RunIo] == Handshake(hello);
      DecidedAfter(cfg, c4, c5, hello);
    } else {
      ElementsFollow(cfg, c5, header, elements);
      var rest: seq<Step> := [IoCompletes(false, elements), RunIo];
      assert header + elements == hello;
      StepThenRun(cfg, c4, RunIo, rest);
      HandshakeStarts(cfg, header, [RunIo] + rest);
      assert [Start, IoCompletes(false, []), RunIo, IoCompletes(false, header)] + ([RunIo] + rest) == Handshake(hello);
    }
  }

  lemma HeaderSpellsLength(m: OfpMessage)
    requires m.Valid()
    ensures var hello := m.Encode(); hello[1] == m.kind && BigEndian(hello[..8][2..4]) == |hello|
  {
    var hello := m.Encode();
    var two := hello[..8][2..4];
    BigEndian16(two);
    assert two[0] == hello[2] && two[1] == hello[3];
  }

  lemma DecidedAfter(cfg: Config, c: Connection, c': Connection, hello: seq<Byte>)
    requires Decided(cfg, c, c', hello)
    ensures Decided(cfg, c', c', hello) && SameSocket(c, c')
  {
  }

  lemma ElementsFollow(cfg: Config, c5: Connection, header: seq<Byte>, elements: seq<Byte>)
    requires Inv(cfg, c5) && c5.stage == ReceivingElements(|elements|) && c5.io == Outstanding && c5.received == header
    requires c5.open && c5.closings == []
    ensures var rest: seq<Step> := [IoCompletes(false, elements), RunIo];
            && Legal(cfg, c5, rest)
            && var c := Run(cfg, c5, rest);
               && c.received == header + elements && c.open && c.closings == []
               && Decided(cfg, c, c, header + elements)
  {
    var c6 := Apply(cfg, c5, IoCompletes(false, elements));
    StepKeeps(cfg, c5, IoCompletes(false, elements));
    ElementsLeadOn(cfg, c6);
    assert Enabled(c6, RunIo);
    hide Inv, Apply, Decided;
    var c7 := Apply(cfg, c6, RunIo);
    DecidedAfter(cfg, c6, c7, header + elements);
    NothingThenRun(cfg, c7);
    StepThenRun(cfg, c6, RunIo, []);
    assert [RunIo] + [] == [RunIo];
    StepThenRun(cfg, c5, IoCompletes(false, elements), [RunIo]);
    assert [IoCompletes(false, elements)] + [RunIo] == [IoCompletes(false, elements), RunIo];
  }

  // -------------------------------------------------------------------------------------
  // From the socket to the handler
  // -------------------------------------------------------------------------------------

  lemma PrefixesByLength(a: seq<Byte>, b: seq<Byte>, c: seq<Byte>, d: seq<Byte>)
    requires a + b == c + d && |a| == |c|
    ensures a == c && b == d
  {
    assert (a + b)[..|a|] == a && (c + d)[..|c|] == c;
    assert (a + b)[|a|..] == b && (c + d)[|c|..] == d;
  }

  /**
   * Let the peer's octets be a hello, some messages and the beginning of one more. However the
   * reads of set-up and of the channel cut them up, and whatever the timers do: set-up takes the
   * hello, and the channel's handler is given the hello and then exactly those messages, in
   * order, with the beginning of the last one left in the buffer.
   */
  lemma StreamIntegrity(cfg: Config, steps: seq<Step>, ends: seq<Completion>,
                        hello: seq<Byte>, messages: seq<seq<Byte>>, tail: seq<Byte>)
    requires Legal(cfg, FRESH, steps) && Run(cfg, FRESH, steps).stage.HandedOver?
    requires CanRun(STARTED, ends)
    requires WholeHello(hello) && !Complete(tail)
    requires forall i :: 0 <= i < |messages| ==> WellFramed(messages[i])
    requires Run(cfg, FRESH, steps).received + Received(ends) == hello + (Flatten(messages) + tail)
    ensures Run(cfg, FRESH, steps).received == hello
    ensures var reader := RunAll(STARTED, ends);
            && reader.log == [Hello] + Messages(messages) + (if Failed(ends) then [Goodbye] else [])
            && reader.streambuf == tail
  {
    var c := Run(cfg, FRESH, steps);
    SetupConsumesExactlyTheHello(cfg, steps);
    var all := hello + (Flatten(messages) + tail);
    assert LengthOf(c.received) == LengthOf(all) == LengthOf(hello) by {
      assert c.received[2] == all[2] == hello[2] && c.received[3] == all[3] == hello[3];
    }
    PrefixesByLength(c.received, Received(ends), hello, Flatten(messages) + tail);
    FramesOfStream(messages, tail);
    RunsAreChunkIndependent(ends);
  }

  /**
   * The same for what a peer writes: a hello of any version, with any elements, then any messages,
   * and the first n octets of one more. No read or write of either side depends on how it is cut
   * up: set-up takes exactly the hello, and the handler is given exactly the messages.
   */
  lemma EncodedStreamIntegrity(cfg: Config, steps: seq<Step>, ends: seq<Completion>,
                               hello: OfpMessage, ms: seq<OfpMessage>, next: OfpMessage, n: nat)
    requires Legal(cfg, FRESH, steps) && Run(cfg, FRESH, steps).stage.HandedOver?
    requires CanCome(STARTED, ends)
    requires hello.Valid() && hello.kind == 0 && AllValid(ms) && next.Valid() && n < 8 + |next.body|
    requires Run(cfg, FRESH, steps).received + Received(ends) == hello.Encode() + (Flatten(EncodeAll(ms)) + next.Encode()[..n])
    ensures Run(cfg, FRESH, steps).received == hello.Encode() && CanRun(STARTED, ends)
    ensures var reader := RunAll(STARTED, ends);
            && reader.log == [Hello] + seq(|ms|, i requires 0 <= i < |ms| => Message(ms[i].Encode()))
                             + (if Failed(ends) then [Goodbye] else [])
            && reader.streambuf == next.Encode()[..n]
  {
    var c, rest := Run(cfg, FRESH, steps), Flatten(EncodeAll(ms)) + next.Encode()[..n];
    SetupConsumesExactlyTheHello(cfg, steps);
    EncodedIsWellFramed(hello);
    assert LengthOf(c.received) == LengthOf(hello.Encode()) by {
      var all := hello.Encode() + rest;
      assert c.received[2] == all[2] == hello.Encode()[2] && c.received[3] == all[3] == hello.Encode()[3];
    }
    hide Legal, Run, CanCome, CanRun, RunAll, OfpMessage.Encode, EncodeAll, LengthOf;
    PrefixesByLength(c.received, Received(ends), hello.Encode(), rest);
    EncodedMessagesArrive(ends, ms, next, n);
  }
}
