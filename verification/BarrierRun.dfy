/** A whole run of the barrier idiom that ends with the packet_out: what Barrier assumes can happen. */
module BarrierRun {
  import opened Bytes
  import opened Common
  import opened TransactionKeys
  import opened Transactions
  import opened TransactionTheorems
  import opened Barrier

  const CFG := Config(0, 1, 10, 11, 0, 1, [4, 14, 0, 8, 0, 0, 0, 10], [4, 20, 0, 8, 0, 0, 0, 11])

  const FLOW_KEY := KeyOf(FLOW_MOD, 10)
  const BARRIER_KEY := KeyOf(BarrierRequest, 11)
  const ANSWER := ReplyIn(BarrierReply, 11, 0)
  const RESPONSE := Response.Reply(BarrierReply, 0)
  const FLOW_TXN := Txn(FLOW_MOD, 10, true, false, false, Empty, 0)
  const BARRIER_TXN := Txn(BarrierRequest, 11, true, false, false, Empty, 0)
  const ANSWERED_TXN := Txn(BarrierRequest, 11, true, false, true, Stored(RESPONSE, None), 1)
  const TAKEN_TXN := Txn(BarrierRequest, 11, true, false, true, Stored(RESPONSE, Some(0)), 1)
  const PASSED := (0, Delivered(RESPONSE, true))
  const UNTROUBLED := (1, NoMessage(false))

  // The decorator's states

  const SENT_FLOW := State(map[FLOW_KEY := 0], map[0 := FLOW_TXN], map[], map[], [], [])

  const SENT_BOTH := State(
    map[FLOW_KEY := 0, BARRIER_KEY := 1], map[0 := FLOW_TXN, 1 := BARRIER_TXN], map[], map[], [], [])

  const WAITING := SENT_BOTH.(waits := map[0 := Wait(1, Armed)])

  const REACHED := State(
    map[FLOW_KEY := 0], map[0 := FLOW_TXN, 1 := ANSWERED_TXN], map[0 := Wait(1, Queued(true))], map[],
    [ToTransaction(ANSWER, 1)], [])

  const DONE := REACHED.(
    txns := map[0 := FLOW_TXN, 1 := TAKEN_TXN], waits := map[0 := Wait(1, Completed)], completions := [PASSED])

  const LOOKING := DONE.(waits := map[0 := Wait(1, Completed), 1 := Wait(0, Armed)])

  const EXPIRED := DONE.(waits := map[0 := Wait(1, Completed), 1 := Wait(0, Queued(false))])

  const CLEAR := DONE.(
    waits := map[0 := Wait(1, Completed), 1 := Wait(0, Completed)], completions := [PASSED, UNTROUBLED])

  // The moves that concern the decorator

  lemma KeyOfHeader(t: Byte, xid: Byte)
    requires t != MULTIPART_REQUEST
    ensures ErrorKey([4, t, 0, 8, 0, 0, 0, xid]) == Some(ToKey(t, 0, xid))
  {
  }

  lemma ConfigIsValid()
    ensures CFG.Valid()
  {
    KeyOfHeader(14, 10);
    KeyOfHeader(20, 11);
    hide ErrorKey, ToKey;
  }

  lemma FlowIsSent()
    ensures CanMove(CFG, BEGIN, SendFlow)
    ensures Moved(CFG, BEGIN, SendFlow) == BEGIN.(core := SENT_FLOW, pc := SendingFlow, toSwitch := [FlowAdd])
  {
    hide KeyOf;
    assert RegisterRequest(INIT, 0, FLOW_MOD, 10) == SENT_FLOW;
  }

  lemma BarrierIsSent(y: System)
    requires y == BEGIN.(core := SENT_FLOW, pc := FlowSent, toSwitch := [FlowAdd])
    ensures CanMove(CFG, y, SendBarrier)
    ensures Moved(CFG, y, SendBarrier) == y.(core := SENT_BOTH, pc := SendingBarrier, toSwitch := [FlowAdd, BarrierMessage])
  {
    assert FLOW_KEY != BARRIER_KEY;
    hide KeyOf;
    assert RegisterRequest(SENT_FLOW, 1, BarrierRequest, 11) == SENT_BOTH;
  }

  lemma BarrierIsAwaited(y: System)
    requires y.core == SENT_BOTH && y.pc == BarrierSent
    ensures CanMove(CFG, y, AwaitBarrier)
    ensures Moved(CFG, y, AwaitBarrier) == y.(core := WAITING, pc := AwaitingBarrier)
  {
    assert AsyncWait(SENT_BOTH, 0, 1) == WAITING;
  }

  lemma AnswerIsHandled()
    ensures HandleMessage(WAITING, ANSWER, true, 0) == REACHED
  {
    assert KeyFor(ANSWER) == Some(BARRIER_KEY) && FLOW_KEY != BARRIER_KEY;
    hide KeyOf, KeyFor;
    assert HasReference(WAITING, 1);
    hide HasReference;
    assert WAITING.registry - {BARRIER_KEY} == REACHED.registry;
    assert CancelTimer(WAITING.waits, 1) == REACHED.waits;
    hide CancelTimer;
    assert AfterExtraction(WAITING, Some(BARRIER_KEY)).txns == map[0 := FLOW_TXN, 1 := BARRIER_TXN.(extracted := true)];
  }

  lemma AnswerArrives(y: System)
    requires y.core == WAITING && y.sent == [BarrierAnswer] && y.delivered == 0
    ensures CanMove(CFG, y, Deliver(0))
    ensures Moved(CFG, y, Deliver(0)) == y.(core := REACHED, delivered := 1)
  {
    AnswerIsHandled();
    hide KeyOf, KeyFor, HandleMessage;
  }

  lemma BarrierCompletes(y: System)
    requires y.core == REACHED && Active(y.pc)
    ensures CanMove(CFG, y, Elsewhere(RunWait(0)))
    ensures Moved(CFG, y, Elsewhere(RunWait(0))) == y.(core := DONE)
  {
    hide KeyOf;
    assert RunWaitHandler(REACHED, 0, true) == DONE;
  }

  lemma FlowIsAwaited(y: System)
    requires y.core == DONE && y.pc == BarrierPassed
    ensures CanMove(CFG, y, AwaitFlow)
    ensures Moved(CFG, y, AwaitFlow) == y.(core := LOOKING, pc := AwaitingFlow)
  {
    hide KeyOf;
    assert AsyncWait(DONE, 1, 0) == LOOKING by {
      assert CancelTimer(DONE.waits, 0) == DONE.waits;
    }
  }

  lemma TimeIsUp(y: System)
    requires y.core == LOOKING && y.pc == AwaitingFlow
    ensures CanMove(CFG, y, Elsewhere(TimerExpires(0)))
    ensures Moved(CFG, y, Elsewhere(TimerExpires(0))) == y.(core := EXPIRED)
  {
    hide KeyOf;
    assert ExpireTimer(LOOKING.waits, 0) == EXPIRED.waits;
  }

  lemma FlowCompletes(y: System)
    requires y.core == EXPIRED && y.pc == AwaitingFlow
    ensures CanMove(CFG, y, Elsewhere(RunWait(1)))
    ensures Moved(CFG, y, Elsewhere(RunWait(1))) == y.(core := CLEAR)
  {
    hide KeyOf;
    assert RunWaitHandler(EXPIRED, 1, false) == CLEAR;
  }

  // The moves of the client alone

  lemma FlowIsWritten(y: System)
    requires y.pc == SendingFlow
    ensures CanMove(CFG, y, FlowWritten(true))
    ensures Moved(CFG, y, FlowWritten(true)) == y.(pc := FlowSent, failed := false)
  {
  }

  lemma BarrierIsWritten(y: System)
    requires y.pc == SendingBarrier
    ensures CanMove(CFG, y, BarrierWritten(true))
    ensures Moved(CFG, y, BarrierWritten(true)) == y.(pc := BarrierSent, failed := false)
  {
  }

  lemma ClientPasses(y: System)
    requires y.core == DONE && y.pc == AwaitingBarrier
    ensures CanMove(CFG, y, BarrierDone(0))
    ensures Moved(CFG, y, BarrierDone(0)) == y.(pc := BarrierPassed)
  {
    hide KeyOf;
    assert DONE.completions[0] == PASSED;
  }

  lemma ClientSeesNoError(y: System)
    requires y.core == CLEAR && y.pc == AwaitingFlow
    ensures CanMove(CFG, y, FlowDone(1))
    ensures Moved(CFG, y, FlowDone(1)) == y.(pc := NoError, flowResult := Some(NoMessage(false)))
  {
    hide KeyOf;
    assert CLEAR.completions[1] == UNTROUBLED;
  }

  lemma PacketGoesOut(y: System)
    requires y.pc == NoError
    ensures CanMove(CFG, y, SendPacketOut)
    ensures Moved(CFG, y, SendPacketOut) == y.(pc := Finished, packetOut := true)
  {
  }

  // The whole run

  lemma MoveThenPlay(y: System, move: Move, moves: seq<Move>)
    requires CanMove(CFG, y, move) && LegalMoves(CFG, Moved(CFG, y, move), moves)
    ensures LegalMoves(CFG, y, [move] + moves)
    ensures Play(CFG, y, [move] + moves) == Play(CFG, Moved(CFG, y, move), moves)
  {
    assert ([move] + moves)[1..] == moves;
  }

  ghost predicate LeadsToPacketOut(y: System) {
    exists moves :: LegalMoves(CFG, y, moves) && Play(CFG, y, moves).packetOut
  }

  lemma Back(y: System, move: Move, y': System)
    requires CanMove(CFG, y, move) && Moved(CFG, y, move) == y' && LeadsToPacketOut(y')
    ensures LeadsToPacketOut(y)
  {
    var moves :| LegalMoves(CFG, y', moves) && Play(CFG, y', moves).packetOut;
    MoveThenPlay(y, move, moves);
  }

  lemma AlreadyOut(y: System)
    requires y.packetOut
    ensures LeadsToPacketOut(y)
  {
    assert LegalMoves(CFG, y, []) && Play(CFG, y, []) == y;
  }

  lemma EndsInPacketOut(y: System)
    requires LeadsToPacketOut(y)
    ensures exists moves :: LegalMoves(CFG, y, moves) && Play(CFG, y, moves).packetOut
  {
  }

  /** From the answer in the switch's hands to the packet_out. */
  lemma AnsweredRun(y: System)
    requires y == System(WAITING, AwaitingBarrier, [], Accepted, Answered, [BarrierAnswer], 0, None, false, false)
    ensures LeadsToPacketOut(y)
  {
    hide CanMove, Moved, LeadsToPacketOut, KeyOf;
    AnswerArrives(y);
    var y1 := y.(core := REACHED, delivered := 1);
    BarrierCompletes(y1);
    var y2 := y1.(core := DONE);
    var y3 := y2.(pc := BarrierPassed);
    ClientPasses(y2);
    FlowIsAwaited(y3);
    var y4 := y3.(core := LOOKING, pc := AwaitingFlow);
    TimeIsUp(y4);
    var y5 := y4.(core := EXPIRED);
    FlowCompletes(y5);
    var y6 := y5.(core := CLEAR);
    var y7 := y6.(pc := NoError, flowResult := Some(NoMessage(false)));
    ClientSeesNoError(y6);
    var y8 := y7.(pc := Finished, packetOut := true);
    PacketGoesOut(y7);
    AlreadyOut(y8);
    Back(y7, SendPacketOut, y8);
    Back(y6, FlowDone(1), y7);
    Back(y5, Elsewhere(RunWait(1)), y6);
    Back(y4, Elsewhere(TimerExpires(0)), y5);
    Back(y3, AwaitFlow, y4);
    Back(y2, BarrierDone(0), y3);
    Back(y1, Elsewhere(RunWait(0)), y2);
    Back(y, Deliver(0), y1);
  }

  // The moves of the switch

  lemma SwitchTakesFlow(y: System)
    requires y.toSwitch == [FlowAdd, BarrierMessage]
    ensures CanMove(CFG, y, SwitchTakes)
    ensures Moved(CFG, y, SwitchTakes) == y.(flow := Undecided, toSwitch := [BarrierMessage])
  {
    hide KeyOf;
  }

  lemma SwitchAccepts(y: System)
    requires y.flow == Undecided
    ensures CanMove(CFG, y, SwitchDecides(false))
    ensures Moved(CFG, y, SwitchDecides(false)) == y.(flow := Accepted)
  {
    hide KeyOf;
  }

  lemma SwitchTakesBarrier(y: System)
    requires y.toSwitch == [BarrierMessage]
    ensures CanMove(CFG, y, SwitchTakes)
    ensures Moved(CFG, y, SwitchTakes) == y.(barrier := Reached, toSwitch := [])
  {
    hide KeyOf;
  }

  lemma SwitchAnswersBarrier(y: System)
    requires y.barrier == Reached && y.flow == Accepted && y.sent == []
    ensures CanMove(CFG, y, SwitchAnswers(false))
    ensures Moved(CFG, y, SwitchAnswers(false)) == y.(barrier := Answered, sent := [BarrierAnswer])
  {
    hide KeyOf;
  }

  /** The switch takes both messages, accepts the flow_add, and answers the barrier. */
  lemma SwitchRun(y: System)
    requires y == System(WAITING, AwaitingBarrier, [FlowAdd, BarrierMessage], NotTaken, NotReached, [], 0, None, false, false)
    ensures LeadsToPacketOut(y)
  {
    hide CanMove, Moved, LeadsToPacketOut, KeyOf;
    SwitchTakesFlow(y);
    var y1 := y.(flow := Undecided, toSwitch := [BarrierMessage]);
    SwitchAccepts(y1);
    var y2 := y1.(flow := Accepted);
    SwitchTakesBarrier(y2);
    var y3 := y2.(barrier := Reached, toSwitch := []);
    SwitchAnswersBarrier(y3);
    var y4 := y3.(barrier := Answered, sent := [BarrierAnswer]);
    AnsweredRun(y4);
    Back(y3, SwitchAnswers(false), y4);
    Back(y2, SwitchTakes, y3);
    Back(y1, SwitchDecides(false), y2);
    Back(y, SwitchTakes, y1);
  }

  /** A valid configuration and a legal run in which the packet_out is sent. */
  lemma PacketOutCanHappen()
    ensures CFG.Valid()
    ensures exists moves :: LegalMoves(CFG, BEGIN, moves) && Play(CFG, BEGIN, moves).packetOut
  {
    ConfigIsValid();
    hide CanMove, Moved, LeadsToPacketOut, KeyOf;
    FlowIsSent();
    var y1 := BEGIN.(core := SENT_FLOW, pc := SendingFlow, toSwitch := [FlowAdd]);
    var y2 := y1.(pc := FlowSent);
    FlowIsWritten(y1);
    BarrierIsSent(y2);
    var y3 := y2.(core := SENT_BOTH, pc := SendingBarrier, toSwitch := [FlowAdd, BarrierMessage]);
    var y4 := y3.(pc := BarrierSent);
    BarrierIsWritten(y3);
    BarrierIsAwaited(y4);
    var y5 := y4.(core := WAITING, pc := AwaitingBarrier);
    SwitchRun(y5);
    Back(y4, AwaitBarrier, y5);
    Back(y3, BarrierWritten(true), y4);
    Back(y2, SendBarrier, y3);
    Back(y1, FlowWritten(true), y2);
    Back(BEGIN, SendFlow, y1);
    EndsInPacketOut(BEGIN);
  }
}
