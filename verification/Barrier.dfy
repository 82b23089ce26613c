/**
 * The barrier idiom of the transaction controller: send a flow_add, send a barrier_request,
 * await the barrier's reply, then look for an error of the flow_add with a zero timeout, and
 * send the packet_out only if there is none. The client runs against a switch, an in-order
 * channel, and any other activity on the same decorator.
 */
module Barrier {
  import opened Bytes
  import opened Common
  import opened TransactionKeys
  import opened Transactions
  import opened TransactionTheorems

  const FLOW_MOD: RequestClass := Other(14, 0)

  /** The names of the client's two transactions and two waits, and the data of the switch's errors. */
  datatype Config = Config(
    flow: nat, barrier: nat, flowXid: int, barrierXid: int, barrierWait: nat, flowWait: nat,
    flowErrorData: seq<Byte>, barrierErrorData: seq<Byte>)
  {
    function FlowKey(): int { KeyOf(FLOW_MOD, flowXid) }

    function BarrierKey(): int { KeyOf(BarrierRequest, barrierXid) }

    /** Errors carry the header of the request that failed. */
    ghost predicate Valid() {
      && flow != barrier && flowWait != barrierWait
      && ValidXid(flowXid) && ValidXid(barrierXid)
      && ErrorKey(flowErrorData) == Some(FlowKey())
      && ErrorKey(barrierErrorData) == Some(BarrierKey())
    }
  }

  datatype Pc =
    | Start | SendingFlow | FlowSent | SendingBarrier | BarrierSent | AwaitingBarrier
    | BarrierPassed | AwaitingFlow | NoError | Finished | Stopped

  datatype Sent = FlowAdd | BarrierMessage

  datatype Note = FlowError | BarrierAnswer | BarrierError

  datatype FlowFate = NotTaken | Undecided | Accepted | Rejected

  datatype BarrierFate = NotReached | Reached | Answered

  /**
   * sent: all the switch has sent about the two requests; delivered: how many of them have been
   * handled; failed: a write has failed.
   */
  datatype System = System(
    core: State, pc: Pc, toSwitch: seq<Sent>, flow: FlowFate, barrier: BarrierFate,
    sent: seq<Note>, delivered: nat, flowResult: Option<Result>, packetOut: bool, failed: bool)

  const BEGIN := System(INIT, Start, [], NotTaken, NotReached, [], 0, None, false, false)

  predicate Active(pc: Pc) {
    !pc.Finished? && !pc.Stopped?
  }

  function MessageOf(cfg: Config, note: Note): Incoming {
    match note
    case FlowError => ErrorIn(cfg.flowErrorData, 0)
    case BarrierAnswer => ReplyIn(BarrierReply, cfg.barrierXid, 0)
    case BarrierError => ErrorIn(cfg.barrierErrorData, 0)
  }

  datatype Move =
    | SendFlow
    | FlowWritten(ok: bool)
    | SendBarrier
    | BarrierWritten(ok: bool)
    | AwaitBarrier
    | BarrierDone(at: nat)
    | AwaitFlow
    | FlowDone(at: nat)
    | SendPacketOut
    | SwitchTakes
    | SwitchDecides(reject: bool)
    | SwitchAnswers(refuse: bool)
    | Deliver(task: nat)
    | Elsewhere(step: Step)

  /** A transaction that someone holds and that has no message yet. */
  predicate Open(s: State, id: nat) {
    id in s.txns && s.txns[id].held && s.txns[id].slot.Empty?
  }

  /**
   * Steps of the decorator that are not the client's. While the client's transactions are open,
   * only the switch's answers to its requests carry their keys.
   */
  ghost predicate NotOurs(cfg: Config, y: System, step: Step) {
    match step
    case Register(id, _, _) => id != cfg.flow && id != cfg.barrier
    case Drop(id) => Active(y.pc) ==> id != cfg.flow && id != cfg.barrier
    case Receive(w, id, _) =>
      w != cfg.barrierWait && w != cfg.flowWait && id != cfg.flow && id != cfg.barrier
    case Arrive(msg, _, _) =>
      && (Open(y.core, cfg.flow) ==> KeyFor(msg) != Some(cfg.FlowKey()))
      && (Open(y.core, cfg.barrier) ==> KeyFor(msg) != Some(cfg.BarrierKey()))
    case _ => true
  }

  /** Neither of the client's two keys is registered while a transaction with that key is unsettled. */
  ghost predicate OurKeysNotReused(cfg: Config, s: State, step: Step) {
    step.Register? && (KeyOf(step.kind, step.xid) == cfg.FlowKey() || KeyOf(step.kind, step.xid) == cfg.BarrierKey()) ==>
      NoReuse(s, step)
  }

  /** The decorator's part of a move, if it has one. */
  function CoreStep(cfg: Config, y: System, move: Move): Option<Step> {
    match move
    case SendFlow => Some(Register(cfg.flow, FLOW_MOD, cfg.flowXid))
    case SendBarrier => Some(Register(cfg.barrier, BarrierRequest, cfg.barrierXid))
    case AwaitBarrier => Some(Receive(cfg.barrierWait, cfg.barrier, true))
    case AwaitFlow => Some(Receive(cfg.flowWait, cfg.flow, true))
    case Deliver(task) =>
      if y.delivered < |y.sent| then Some(Arrive(MessageOf(cfg, y.sent[y.delivered]), true, task)) else None
    case Elsewhere(step) => Some(step)
    case _ => None
  }

  ghost predicate CanMove(cfg: Config, y: System, move: Move) {
    && (var step := CoreStep(cfg, y, move);
        step.Some? ==> Enabled(y.core, step.value) && OurKeysNotReused(cfg, y.core, step.value))
    && match move
       case SendFlow => y.pc == Start
       case FlowWritten(_) => y.pc == SendingFlow
       case SendBarrier => y.pc == FlowSent
       case BarrierWritten(_) => y.pc == SendingBarrier
       case AwaitBarrier => y.pc == BarrierSent
       case BarrierDone(at) =>
         y.pc == AwaitingBarrier && at < |y.core.completions| && y.core.completions[at].0 == cfg.barrierWait
       case AwaitFlow => y.pc == BarrierPassed
       case FlowDone(at) =>
         y.pc == AwaitingFlow && at < |y.core.completions| && y.core.completions[at].0 == cfg.flowWait
       case SendPacketOut => y.pc == NoError
       case SwitchTakes => y.toSwitch != []
       case SwitchDecides(_) => y.flow == Undecided
       // all requests received before the barrier have been decided
       case SwitchAnswers(_) => y.barrier == Reached && y.flow != Undecided
       case Deliver(_) => y.delivered < |y.sent|
       case Elsewhere(step) => NotOurs(cfg, y, step)
  }

  /** A result that lets the client go on past the barrier: the message is_reply. */
  predicate IsReply(result: Result) {
    result.Delivered? && result.response.Reply?
  }

  ghost function Moved(cfg: Config, y: System, move: Move): System
    requires CanMove(cfg, y, move)
  {
    var step := CoreStep(cfg, y, move);
    var y := if step.Some? then y.(core := Apply(y.core, step.value)) else y;
    match move
    case SendFlow => y.(pc := SendingFlow, toSwitch := y.toSwitch + [FlowAdd])
    case FlowWritten(ok) => y.(pc := if ok then FlowSent else Stopped, failed := !ok)
    case SendBarrier => y.(pc := SendingBarrier, toSwitch := y.toSwitch + [BarrierMessage])
    case BarrierWritten(ok) => y.(pc := if ok then BarrierSent else Stopped, failed := !ok)
    case AwaitBarrier => y.(pc := AwaitingBarrier)
    case BarrierDone(at) => y.(pc := if IsReply(y.core.completions[at].1) then BarrierPassed else Stopped)
    case AwaitFlow => y.(pc := AwaitingFlow)
    case FlowDone(at) =>
      var result := y.core.completions[at].1;
      y.(pc := if result == NoMessage(false) then NoError else Stopped, flowResult := Some(result))
    case SendPacketOut => y.(pc := Finished, packetOut := true)
    case SwitchTakes =>
      var y := if y.toSwitch[0] == FlowAdd then y.(flow := Undecided) else y.(barrier := Reached);
      y.(toSwitch := y.toSwitch[1..])
    case SwitchDecides(reject) =>
      if reject then y.(flow := Rejected, sent := y.sent + [FlowError]) else y.(flow := Accepted)
    case SwitchAnswers(refuse) =>
      y.(barrier := Answered, sent := y.sent + [if refuse then BarrierError else BarrierAnswer])
    case Deliver(_) => y.(delivered := y.delivered + 1)
    case Elsewhere(_) => y
  }

  ghost predicate LegalMoves(cfg: Config, y: System, moves: seq<Move>)
    decreases |moves|
  {
    moves == [] || (CanMove(cfg, y, moves[0]) && LegalMoves(cfg, Moved(cfg, y, moves[0]), moves[1..]))
  }

  ghost function Play(cfg: Config, y: System, moves: seq<Move>): System
    requires LegalMoves(cfg, y, moves)
    decreases |moves|
  {
    if moves == [] then y else Play(cfg, Moved(cfg, y, moves[0]), moves[1..])
  }

  // -------------------------------------------------------------------------------------
  // One transaction followed through the steps of others
  // -------------------------------------------------------------------------------------

  /** A held transaction that has been extracted just if its message is stored. */
  ghost predicate Present(s: State, id: nat, c: RequestClass, xid: int) {
    && id in s.txns && s.txns[id].kind == c && s.txns[id].xid == xid
    && s.txns[id].held
    && (forall t :: t in s.tasks ==> s.tasks[t].txn != id)
    && (s.txns[id].slot.Empty? <==> !s.txns[id].extracted)
  }

  /** The registry has id for the key, and no other transaction is unsettled with that key. */
  ghost predicate Filed(s: State, id: nat, k: int) {
    && k in s.registry && s.registry[k] == id
    && forall j :: j in s.txns && Unsettled(s.txns[j]) && s.txns[j].Key() == k ==> j == id
  }

  /** As long as it has no message, it is also filed under its key. */
  ghost predicate Tracks(s: State, id: nat, c: RequestClass, xid: int) {
    Present(s, id, c, xid) && (s.txns[id].slot.Empty? ==> Filed(s, id, KeyOf(c, xid)))
  }

  predicate Closed(s: State, id: nat) {
    id in s.txns && s.txns[id].slot.Stored?
  }

  /** A step that does not drop the transaction, nor brings a message for it or reuses its key while it has none. */
  ghost predicate NeutralFor(s: State, step: Step, id: nat, k: int) {
    match step
    case Drop(i) => i != id
    case Register(_, c, xid) => KeyOf(c, xid) == k ==> Closed(s, id)
    case Arrive(msg, _, _) => KeyFor(msg) == Some(k) ==> Closed(s, id)
    case _ => true
  }

  ghost predicate SameMessage(slot: Slot, slot': Slot) {
    (slot.Empty? <==> slot'.Empty?) && (slot.Stored? ==> slot'.Stored? && slot'.response == slot.response)
  }

  /** A message extracts only a transaction without a message, and only under that transaction's own key. */
  lemma NotExtracted(s: State, key: Option<int>, id: nat)
    requires Inv(s) && id in s.txns && (key == Some(s.txns[id].Key()) ==> Closed(s, id))
    ensures key.Some? && key.value in s.registry ==> s.registry[key.value] != id
  {
    if key.Some? && key.value in s.registry {
      assert EntryOk(key.value, s.registry[key.value], s.txns);
    }
  }

  lemma NeutralArrival(s: State, msg: Incoming, onStrand: bool, task: nat, id: nat, c: RequestClass, xid: int)
    requires Inv(s) && Present(s, id, c, xid) && (KeyFor(msg) == Some(KeyOf(c, xid)) ==> Closed(s, id))
    requires task !in s.tasks
    ensures var s' := HandleMessage(s, msg, onStrand, task);
            Present(s', id, c, xid) && SameMessage(s.txns[id].slot, s'.txns[id].slot)
  {
    var key := KeyFor(msg);
    NotExtracted(s, key, id);
    hide Inv, KeyOf, KeyFor, HasReference, ResponseFor, CancelTimer;
    assert Extracted(s, key) != Some(id);
    match Extracted(s, key)
    case Some(i) =>
    case None =>
  }

  lemma NeutralForPresence(s: State, step: Step, id: nat, c: RequestClass, xid: int)
    requires Inv(s) && Enabled(s, step)
    requires Present(s, id, c, xid) && NeutralFor(s, step, id, KeyOf(c, xid))
    ensures var s' := Apply(s, step);
            Present(s', id, c, xid) && SameMessage(s.txns[id].slot, s'.txns[id].slot)
  {
    hide Inv, KeyOf, CancelTimer, ExpireTimer, HandleMessage, KeyFor, HasReference, Txn.Key;
    match step
    case Arrive(msg, onStrand, task) => NeutralArrival(s, msg, onStrand, task, id, c, xid);
    case _ =>
  }

  lemma FiledWhenSettling(s: State, s': State, id: nat, k: int)
    requires Filed(s, id, k) && SettlingOnly(s, s') && k in s'.registry && s'.registry[k] == id
    ensures Filed(s', id, k)
  {
    hide Txn.Key, Unsettled;
  }

  lemma FiledOnRegistering(s: State, i: nat, c: RequestClass, xid: int, id: nat, k: int)
    requires Filed(s, id, k) && i !in s.txns && KeyOf(c, xid) != k
    ensures Filed(RegisterRequest(s, i, c, xid), id, k)
  {
    hide KeyOf, Unsettled;
  }

  /** Destroying another transaction erases another key: one with this key would be unsettled too. */
  lemma FiledOnDestroying(s: State, i: nat, id: nat, k: int)
    requires Filed(s, id, k) && i in s.txns && i != id && !s.txns[i].destroyed
    ensures var s' := Destruct(s, i); k in s'.registry && s'.registry[k] == id
  {
    hide Txn.Key;
  }

  /** Extracting another key's transaction leaves the entry. */
  lemma FiledOnArrival(s: State, msg: Incoming, onStrand: bool, task: nat, id: nat, k: int)
    requires Filed(s, id, k) && KeyFor(msg) != Some(k)
    ensures var s' := HandleMessage(s, msg, onStrand, task); k in s'.registry && s'.registry[k] == id
  {
    hide KeyOf, KeyFor, HasReference, ResponseFor, CancelTimer;
  }

  lemma FiledStep(s: State, step: Step, id: nat, c: RequestClass, xid: int)
    requires Inv(s) && Enabled(s, step) && Tracks(s, id, c, xid) && s.txns[id].slot.Empty?
    requires NeutralFor(s, step, id, KeyOf(c, xid))
    ensures Filed(Apply(s, step), id, KeyOf(c, xid))
  {
    var k := KeyOf(c, xid);
    hide Inv, KeyOf, RegisterRequest, Destruct, HandleMessage, AsyncWait, RunWaitHandler, Complete, SetMessage, Filed, SettlingOnly;
    match step
    case Register(i, c', xid') => FiledOnRegistering(s, i, c', xid', id, k);
    case Destroy(i) =>
      StepSettlesOnly(s, step);
      FiledOnDestroying(s, i, id, k);
      FiledWhenSettling(s, Apply(s, step), id, k);
    case Arrive(msg, onStrand, task) =>
      StepSettlesOnly(s, step);
      FiledOnArrival(s, msg, onStrand, task, id, k);
      FiledWhenSettling(s, Apply(s, step), id, k);
    case _ =>
      StepSettlesOnly(s, step);
      RegistrationUntouched(s, step);
      assert k in s.registry && s.registry[k] == id by { FiledMeans(s, id, k); }
      FiledWhenSettling(s, Apply(s, step), id, k);
  }

  lemma FiledMeans(s: State, id: nat, k: int)
    requires Filed(s, id, k)
    ensures k in s.registry && s.registry[k] == id
  {
  }

  lemma NeutralStep(s: State, step: Step, id: nat, c: RequestClass, xid: int)
    requires Inv(s) && Enabled(s, step)
    requires Tracks(s, id, c, xid) && NeutralFor(s, step, id, KeyOf(c, xid))
    ensures var s' := Apply(s, step);
            Tracks(s', id, c, xid) && SameMessage(s.txns[id].slot, s'.txns[id].slot)
  {
    NeutralForPresence(s, step, id, c, xid);
    if s.txns[id].slot.Empty? {
      FiledStep(s, step, id, c, xid);
    }
    hide Inv, Enabled, Apply, KeyOf, NeutralFor, Filed;
  }

  /** The first message for a tracked transaction is stored in it at once. */
  lemma ArrivalStores(s: State, msg: Incoming, task: nat, id: nat, c: RequestClass, xid: int)
    requires Inv(s) && Tracks(s, id, c, xid) && KeyFor(msg) == Some(KeyOf(c, xid))
    requires s.txns[id].slot.Empty? && task !in s.tasks
    ensures var s' := HandleMessage(s, msg, true, task);
            Tracks(s', id, c, xid) && s'.txns[id].slot == Stored(ResponseFor(msg), None)
  {
    assert TxnOk(s.txns[id]);
    hide KeyOf, KeyFor, ResponseFor, CancelTimer, Inv;
    assert Extracted(s, KeyFor(msg)) == Some(id);
  }

  lemma EntriesAreUnsettled(s: State, k: int)
    requires Inv(s)
    ensures k in s.registry ==>
              s.registry[k] in s.txns && Unsettled(s.txns[s.registry[k]]) && s.txns[s.registry[k]].Key() == k
  {
    assert k in s.registry ==> EntryOk(k, s.registry[k], s.txns);
  }

  /** With no unsettled transaction of its key, a new transaction is filed. */
  lemma RegistrationTracks(s: State, id: nat, c: RequestClass, xid: int)
    requires Inv(s) && Enabled(s, Register(id, c, xid)) && NoReuse(s, Register(id, c, xid))
    ensures var s' := Apply(s, Register(id, c, xid));
            Tracks(s', id, c, xid) && s'.txns[id].slot.Empty?
  {
    forall t | t in s.tasks ensures s.tasks[t].txn != id {
      assert TaskOk(s.tasks[t], s.txns);
    }
    var k := KeyOf(c, xid);
    EntriesAreUnsettled(s, k);
    assert k !in s.registry;
    hide KeyOf, Inv;
  }

  // -------------------------------------------------------------------------------------
  // The client's last wait
  // -------------------------------------------------------------------------------------

  /** w is the only wait of the transaction. */
  ghost predicate OnlyWait(waits: map<nat, Wait>, id: nat, w: nat) {
    forall v :: v in waits && waits[v].txn == id ==> v == w
  }

  /** What can become of a wait whose transaction's message can no longer change. */
  ghost predicate Settled(s: State, w: nat, id: nat)
    requires id in s.txns
  {
    && w in s.waits && s.waits[w].txn == id
    && var phase := s.waits[w].phase;
       if s.txns[id].slot.Stored? then
         && (phase.Bound? || phase.Completed?)
         && (forall i :: 0 <= i < |s.completions| && s.completions[i].0 == w ==> s.completions[i].1.Delivered?)
       else
         && (phase.Armed? || phase == Queued(false) || phase.Completed?)
         && (forall i :: 0 <= i < |s.completions| && s.completions[i].0 == w ==> s.completions[i].1 == NoMessage(false))
  }

  /** Another transaction's wait being started, ended, cancelled or expired does not concern w. */
  lemma SettledElsewhere(s: State, s': State, w: nat, id: nat)
    requires id in s.txns && id in s'.txns && SameMessage(s.txns[id].slot, s'.txns[id].slot)
    requires Settled(s, w, id)
    requires w in s'.waits && s'.waits[w] == s.waits[w]
    requires s.completions <= s'.completions
    requires forall i :: |s.completions| <= i < |s'.completions| ==> s'.completions[i].0 != w
    ensures Settled(s', w, id)
  {
  }

  lemma WaitUntouchedByArrival(s: State, msg: Incoming, onStrand: bool, task: nat, w: nat)
    requires Inv(s) && w in s.waits
    requires KeyFor(msg).Some? ==>
               KeyFor(msg).value in s.registry ==> s.registry[KeyFor(msg).value] != s.waits[w].txn
    ensures var s' := HandleMessage(s, msg, onStrand, task);
            w in s'.waits && s'.waits[w] == s.waits[w] && s'.completions == s.completions
  {
    hide Inv, KeyOf, KeyFor, HasReference, ResponseFor;
  }

  lemma WaitUntouchedByStart(s: State, v: nat, i: nat, w: nat)
    requires i in s.txns && w in s.waits && s.waits[w].txn != i && v != w
    ensures var s' := AsyncWait(s, v, i);
            w in s'.waits && s'.waits[w] == s.waits[w] && s'.completions == s.completions
  {
  }

  lemma WaitUntouchedBySet(s: State, i: nat, response: Response, w: nat)
    requires i in s.txns && w in s.waits && s.waits[w].txn != i
    ensures var s' := SetMessage(s, i, response);
            w in s'.waits && s'.waits[w] == s.waits[w] && s'.completions == s.completions
  {
  }

  lemma WaitUntouchedByHandler(s: State, v: nat, aborted: bool, w: nat)
    requires v in s.waits && s.waits[v].txn in s.txns && w in s.waits && v != w
    ensures var s' := RunWaitHandler(s, v, aborted);
            && w in s'.waits && s'.waits[w] == s.waits[w] && s.completions <= s'.completions
            && forall i :: |s.completions| <= i < |s'.completions| ==> s'.completions[i].0 != w
  {
  }

  /** Any step but the wait's own handler and its timer's expiry leaves a settled wait alone. */
  lemma WaitUntouched(s: State, step: Step, w: nat, id: nat, c: RequestClass, xid: int)
    requires Inv(s) && Enabled(s, step)
    requires Tracks(s, id, c, xid) && NeutralFor(s, step, id, KeyOf(c, xid))
    requires Settled(s, w, id) && OnlyWait(s.waits, id, w)
    requires step.Receive? ==> step.id != id
    requires step != RunWait(w) && step != RunBound(w) && !step.TimerExpires?
    ensures var s' := Apply(s, step);
            && w in s'.waits && s'.waits[w] == s.waits[w] && s.completions <= s'.completions
            && forall i :: |s.completions| <= i < |s'.completions| ==> s'.completions[i].0 != w
  {
    hide RegisterRequest, HandleMessage, AsyncWait, SetMessage, KeyFor, RunWaitHandler, Destruct, Inv, KeyOf;
    match step
    case Arrive(msg, onStrand, task) =>
      NotExtracted(s, KeyFor(msg), id);
      WaitUntouchedByArrival(s, msg, onStrand, task, w);
    case Register(i, kind, n) => RegisteringKeepsWaits(s, i, kind, n);
    case Receive(v, i, onStrand) => if onStrand { WaitUntouchedByStart(s, v, i, w); }
    case StartWait(v) => WaitUntouchedByStart(s, v, s.waits[v].txn, w);
    case RunSet(task) =>
      WaitUntouchedBySet(s.(tasks := s.tasks - {task}), s.tasks[task].txn, s.tasks[task].response, w);
    case RunWait(v) => WaitUntouchedByHandler(s, v, s.waits[v].phase.aborted, w);
    case Destroy(i) => DestructKeepsWaits(s, i);
    case _ =>
  }

  lemma SettledStep(s: State, step: Step, w: nat, id: nat, c: RequestClass, xid: int)
    requires Inv(s) && Enabled(s, step)
    requires Tracks(s, id, c, xid) && NeutralFor(s, step, id, KeyOf(c, xid))
    requires Settled(s, w, id) && OnlyWait(s.waits, id, w)
    requires step.Receive? ==> step.id != id
    ensures id in Apply(s, step).txns && Settled(Apply(s, step), w, id)
  {
    NeutralStep(s, step, id, c, xid);
    if step == RunWait(w) {
      SettledByTimer(s, w, id);
    } else if step == RunBound(w) {
      SettledByDelivery(s, w, id);
    } else if step.TimerExpires? {
      hide Inv, KeyOf, Tracks;
    } else {
      WaitUntouched(s, step, w, id, c, xid);
      hide Inv, KeyOf, Tracks, NeutralFor, Enabled, Apply, OnlyWait;
      SettledElsewhere(s, Apply(s, step), w, id);
    }
  }

  lemma SettledByTimer(s: State, w: nat, id: nat)
    requires id in s.txns && Settled(s, w, id) && Enabled(s, RunWait(w))
    ensures Settled(Apply(s, RunWait(w)), w, id)
  {
  }

  lemma SettledByDelivery(s: State, w: nat, id: nat)
    requires Inv(s) && id in s.txns && Settled(s, w, id) && Enabled(s, RunBound(w))
    ensures Settled(Apply(s, RunBound(w)), w, id)
  {
    assert WaitOk(w, s.waits[w], s.txns);
  }

  lemma OnlyWaitStep(s: State, step: Step, w: nat, id: nat)
    requires Inv(s) && Enabled(s, step) && OnlyWait(s.waits, id, w)
    requires step.Receive? && step.id == id ==> step.wait == w
    ensures OnlyWait(Apply(s, step).waits, id, w)
    ensures WaitsStay(s.waits, Apply(s, step).waits)
  {
    CompletionsOfStep(s, step);
    NewWaits(s, step);
    hide Inv, Enabled, Apply;
  }

  /** The only step that adds a wait is the receive that issues it. */
  lemma NewWaits(s: State, step: Step)
    requires Enabled(s, step)
    ensures var waits' := Apply(s, step).waits;
            forall v :: v in waits' && v !in s.waits ==> step.Receive? && step.wait == v && waits'[v].txn == step.id
  {
    match step
    case Arrive(msg, onStrand, task) => hide KeyFor, HasReference, ResponseFor;
    case _ => hide KeyOf, HandleMessage, HasReference;
  }

  /** Starting to wait on the strand settles the wait at once. */
  lemma ReceiveSettles(s: State, w: nat, id: nat)
    requires Inv(s) && id in s.txns && w !in s.waits
    ensures id in AsyncWait(s, w, id).txns && Settled(AsyncWait(s, w, id), w, id)
  {
    forall i | 0 <= i < |s.completions| ensures s.completions[i].0 != w {
      assert CompletionOk(s.completions[i], s.waits, s.txns);
    }
  }

  // -------------------------------------------------------------------------------------
  // What every move keeps
  // -------------------------------------------------------------------------------------

  function FlowNotes(y: System): seq<Note> {
    if y.flow == Rejected then [FlowError] else []
  }

  predicate Decided(flow: FlowFate) {
    flow == Accepted || flow == Rejected
  }

  /** What the switch has sent, in order: an error of the flow_add first, then an answer to the barrier. */
  ghost predicate SentOk(y: System) {
    && y.delivered <= |y.sent|
    && (y.barrier != Answered ==> y.sent == FlowNotes(y))
    && (y.barrier == Answered ==>
          Decided(y.flow) && (y.sent == FlowNotes(y) + [BarrierAnswer] || y.sent == FlowNotes(y) + [BarrierError]))
  }

  /** The in-order channel to the switch. */
  ghost predicate ChannelOk(y: System) {
    && (y.flow == NotTaken ==>
          y.barrier == NotReached && y.toSwitch <= [FlowAdd, BarrierMessage])
    && (y.flow != NotTaken ==>
          if y.barrier == NotReached then y.toSwitch == [] || y.toSwitch == [BarrierMessage] else y.toSwitch == [])
    && (y.pc == Start ==> y.flow == NotTaken && y.toSwitch == [])
    && (y.pc == SendingFlow || y.pc == FlowSent ==>
          y.barrier == NotReached && BarrierMessage !in y.toSwitch
          && (y.flow == NotTaken ==> y.toSwitch == [FlowAdd]))
  }

  predicate FlowStarted(pc: Pc) {
    Active(pc) && pc != Start
  }

  predicate BarrierStarted(pc: Pc) {
    FlowStarted(pc) && pc != SendingFlow && pc != FlowSent
  }

  predicate PastBarrier(pc: Pc) {
    pc == BarrierPassed || pc == AwaitingFlow || pc == NoError
  }

  predicate ErrorDelivered(y: System) {
    y.flow == Rejected && y.delivered >= 1
  }

  predicate AnswerDelivered(y: System) {
    y.barrier == Answered && y.delivered == |y.sent|
  }

  /** As long as the client is at it, the two transactions hold exactly what has been delivered. */
  ghost predicate FlowInStep(cfg: Config, y: System) {
    FlowStarted(y.pc) ==>
      && Tracks(y.core, cfg.flow, FLOW_MOD, cfg.flowXid)
      && (y.core.txns[cfg.flow].slot.Stored? <==> ErrorDelivered(y))
  }

  ghost predicate BarrierInStep(cfg: Config, y: System) {
    BarrierStarted(y.pc) ==>
      && Tracks(y.core, cfg.barrier, BarrierRequest, cfg.barrierXid)
      && (y.core.txns[cfg.barrier].slot.Stored? <==> AnswerDelivered(y))
      && (y.core.txns[cfg.barrier].slot.Stored? ==>
            (y.core.txns[cfg.barrier].slot.response.Reply? <==> BarrierAnswer in y.sent))
  }

  ghost predicate AwaitsBarrier(cfg: Config, waits: map<nat, Wait>) {
    cfg.barrierWait in waits && waits[cfg.barrierWait].txn == cfg.barrier
  }

  ghost predicate AwaitsFlow(cfg: Config, core: State) {
    cfg.flow in core.txns && Settled(core, cfg.flowWait, cfg.flow)
  }

  ghost predicate WaitsInStep(cfg: Config, y: System) {
    && (Active(y.pc) ==> OnlyWait(y.core.waits, cfg.flow, cfg.flowWait))
    && (y.pc == AwaitingBarrier ==> AwaitsBarrier(cfg, y.core.waits))
    && (PastBarrier(y.pc) ==> AnswerDelivered(y) && BarrierAnswer in y.sent)
    && (y.pc == AwaitingFlow ==> AwaitsFlow(cfg, y.core))
  }

  ghost predicate ResultInStep(y: System) {
    && (y.flowResult.Some? ==>
          && Decided(y.flow) && y.flowResult.value != NoMessage(true)
          && (y.flowResult.value.Delivered? <==> y.flow == Rejected))
    && (y.packetOut || y.pc == NoError ==>
          y.flowResult == Some(NoMessage(false)) && AnswerDelivered(y) && BarrierAnswer in y.sent)
    && (y.packetOut ==> y.pc == Finished)
    && (y.failed ==> y.pc == Stopped)
  }

  ghost predicate SystemInv(cfg: Config, y: System) {
    && Inv(y.core)
    && SentOk(y) && ChannelOk(y)
    && FlowInStep(cfg, y) && BarrierInStep(cfg, y) && WaitsInStep(cfg, y) && ResultInStep(y)
  }

  lemma KeysDiffer(cfg: Config)
    requires cfg.Valid()
    ensures cfg.FlowKey() != cfg.BarrierKey()
    ensures ValidClass(FLOW_MOD)
  {
    ToKeyInjective(14, 0, cfg.flowXid, 20, 0, cfg.barrierXid);
  }

  lemma CoreKept(cfg: Config, y: System, move: Move)
    requires SystemInv(cfg, y) && CanMove(cfg, y, move)
    ensures var core := Moved(cfg, y, move).core;
            Inv(core)
  {
    var step := CoreStep(cfg, y, move);
    hide CoreStep;
    if step.Some? {
      StepKeeps(y.core, step.value);
    }
    hide Inv, SystemInv, Apply, Enabled, OurKeysNotReused;
  }

  lemma SentKept(cfg: Config, y: System, move: Move)
    requires SentOk(y) && ChannelOk(y) && CanMove(cfg, y, move)
    ensures SentOk(Moved(cfg, y, move))
  {
    hide Apply, Enabled, OurKeysNotReused, CoreStep, NotOurs, IsReply;
    match move
    case SwitchTakes =>
    case SwitchDecides(_) =>
    case SwitchAnswers(_) =>
    case _ =>
  }

  lemma ChannelKeptOnBarrier(cfg: Config, y: System)
    requires ChannelOk(y) && CanMove(cfg, y, SendBarrier)
    ensures ChannelOk(Moved(cfg, y, SendBarrier))
  {
    hide Apply, Enabled, OurKeysNotReused, CoreStep, NotOurs, IsReply;
    assert [FlowAdd] + [BarrierMessage] == [FlowAdd, BarrierMessage] && [] + [BarrierMessage] == [BarrierMessage];
    assert y.toSwitch == [FlowAdd] || y.toSwitch == [];
  }

  lemma ChannelKeptOnTaking(cfg: Config, y: System)
    requires ChannelOk(y) && CanMove(cfg, y, SwitchTakes)
    ensures ChannelOk(Moved(cfg, y, SwitchTakes))
  {
    hide Apply, Enabled, OurKeysNotReused, CoreStep, NotOurs, IsReply;
    assert y.toSwitch == [FlowAdd] || y.toSwitch == [FlowAdd, BarrierMessage] || y.toSwitch == [BarrierMessage];
  }

  lemma ChannelKept(cfg: Config, y: System, move: Move)
    requires ChannelOk(y) && CanMove(cfg, y, move)
    ensures ChannelOk(Moved(cfg, y, move))
  {
    hide Apply, Enabled, OurKeysNotReused, CoreStep, NotOurs, IsReply;
    match move
    case SendFlow =>
    case SendBarrier => ChannelKeptOnBarrier(cfg, y);
    case SwitchTakes => ChannelKeptOnTaking(cfg, y);
    case SwitchDecides(_) =>
    case _ =>
  }

  /** A delivered note carries the key of the request it answers. */
  lemma NoteKeys(cfg: Config, note: Note)
    requires cfg.Valid()
    ensures KeyFor(MessageOf(cfg, note)) == Some(if note == FlowError then cfg.FlowKey() else cfg.BarrierKey())
    ensures cfg.FlowKey() != cfg.BarrierKey()
  {
    KeysDiffer(cfg);
  }

  /** Moves whose decorator step neither drops the transaction nor brings a message for it. */
  ghost predicate NeutralMove(cfg: Config, y: System, move: Move, id: nat, k: int) {
    var step := CoreStep(cfg, y, move);
    step.Some? ==> NeutralFor(y.core, step.value, id, k)
  }

  lemma NeutralMoveTracks(cfg: Config, y: System, move: Move, id: nat, c: RequestClass, xid: int)
    requires Inv(y.core) && CanMove(cfg, y, move)
    requires Tracks(y.core, id, c, xid) && NeutralMove(cfg, y, move, id, KeyOf(c, xid))
    ensures var core := Moved(cfg, y, move).core;
            Tracks(core, id, c, xid) && SameMessage(y.core.txns[id].slot, core.txns[id].slot)
  {
    var step := CoreStep(cfg, y, move);
    if step.Some? {
      NeutralStep(y.core, step.value, id, c, xid);
    }
    hide CoreStep, Inv, Enabled, Apply, OurKeysNotReused, NotOurs, Tracks, KeyOf, NeutralFor;
  }

  /** While an open transaction of ours has the key, no step that may not reuse the key registers it. */
  lemma OpenKeyIsNotRegistered(s: State, step: Step, id: nat, c: RequestClass, xid: int)
    requires Inv(s) && Present(s, id, c, xid) && s.txns[id].slot.Empty? && NoReuse(s, step) && step.Register?
    ensures KeyOf(step.kind, step.xid) != KeyOf(c, xid)
  {
    assert TxnOk(s.txns[id]);
    assert Unsettled(s.txns[id]);
  }

  /** All moves but the delivery of an error are neutral for the flow_add's transaction. */
  lemma NeutralForFlow(cfg: Config, y: System, move: Move)
    requires cfg.Valid() && Inv(y.core) && CanMove(cfg, y, move) && Active(y.pc) && !DeliversError(y, move)
    requires Tracks(y.core, cfg.flow, FLOW_MOD, cfg.flowXid)
    ensures NeutralMove(cfg, y, move, cfg.flow, cfg.FlowKey())
  {
    hide Enabled, NoReuse, KeyOf, KeyFor, Filed;
    var step := CoreStep(cfg, y, move);
    if move.Deliver? {
      NoteKeys(cfg, y.sent[y.delivered]);
    } else if step.Some? && step.value.Register? && y.core.txns[cfg.flow].slot.Empty? {
      if KeyOf(step.value.kind, step.value.xid) == cfg.FlowKey() {
        OpenKeyIsNotRegistered(y.core, step.value, cfg.flow, FLOW_MOD, cfg.flowXid);
      }
    }
  }

  /** All moves but the delivery of an answer are neutral for the barrier's transaction. */
  lemma NeutralForBarrier(cfg: Config, y: System, move: Move)
    requires cfg.Valid() && Inv(y.core) && CanMove(cfg, y, move) && Active(y.pc) && !DeliversAnswer(y, move)
    requires Tracks(y.core, cfg.barrier, BarrierRequest, cfg.barrierXid)
    ensures NeutralMove(cfg, y, move, cfg.barrier, cfg.BarrierKey())
  {
    hide Enabled, NoReuse, KeyOf, KeyFor, Filed;
    var step := CoreStep(cfg, y, move);
    if move.Deliver? {
      NoteKeys(cfg, y.sent[y.delivered]);
    } else if step.Some? && step.value.Register? && y.core.txns[cfg.barrier].slot.Empty? {
      if KeyOf(step.value.kind, step.value.xid) == cfg.BarrierKey() {
        OpenKeyIsNotRegistered(y.core, step.value, cfg.barrier, BarrierRequest, cfg.barrierXid);
      }
    }
  }

  lemma MovedCore(cfg: Config, y: System, move: Move)
    requires CanMove(cfg, y, move)
    ensures var step := CoreStep(cfg, y, move);
            Moved(cfg, y, move).core == if step.Some? then Apply(y.core, step.value) else y.core
  {
    hide CoreStep, Enabled, OurKeysNotReused, Apply, NotOurs, IsReply;
  }

  predicate DeliversError(y: System, move: Move) {
    move.Deliver? && y.delivered < |y.sent| && y.sent[y.delivered] == FlowError
  }

  predicate DeliversAnswer(y: System, move: Move) {
    move.Deliver? && y.delivered < |y.sent| && y.sent[y.delivered] != FlowError
  }

  /** How a move changes where the client is, as far as its two transactions are concerned. */
  lemma Progress(cfg: Config, y: System, move: Move)
    requires SentOk(y) && ChannelOk(y) && CanMove(cfg, y, move)
    ensures var y' := Moved(cfg, y, move);
            && (Active(y'.pc) ==> Active(y.pc))
            && (FlowStarted(y'.pc) ==> FlowStarted(y.pc) || move.SendFlow?)
            && (BarrierStarted(y'.pc) ==> BarrierStarted(y.pc) || move.SendBarrier?)
            && (move.SendFlow? ==> !ErrorDelivered(y))
            && (move.SendBarrier? ==> !AnswerDelivered(y))
  {
    hide CoreStep, Enabled, OurKeysNotReused, Apply, NotOurs, IsReply, SentOk;
  }

  /** How a move changes what has been sent and delivered, the decorator aside. */
  lemma Counts(cfg: Config, y: System, move: Move)
    requires SentOk(y) && ChannelOk(y) && CanMove(cfg, y, move)
    ensures var y' := Moved(cfg, y, move);
            && (DeliversError(y, move) ==> !ErrorDelivered(y) && ErrorDelivered(y'))
            && (!DeliversError(y, move) ==> (ErrorDelivered(y') <==> ErrorDelivered(y)))
            && (DeliversAnswer(y, move) ==> !AnswerDelivered(y) && AnswerDelivered(y'))
            && (!DeliversAnswer(y, move) ==> (AnswerDelivered(y') <==> AnswerDelivered(y)))
  {
    hide CoreStep, Enabled, OurKeysNotReused, Apply, NotOurs, IsReply;
    match move
    case Deliver(_) => hide ChannelOk;
    case SwitchTakes =>
    case SwitchDecides(_) => hide ChannelOk;
    case SwitchAnswers(_) => hide ChannelOk;
    case _ => hide SentOk, ChannelOk;
  }

  /** Once its answer has been delivered, the switch says no more. */
  lemma NothingMoreIsSent(cfg: Config, y: System, move: Move)
    requires SentOk(y) && ChannelOk(y) && CanMove(cfg, y, move) && AnswerDelivered(y)
    ensures Moved(cfg, y, move).sent == y.sent && AnswerDelivered(Moved(cfg, y, move))
  {
    hide CoreStep, Enabled, OurKeysNotReused, Apply, NotOurs, IsReply;
  }

  /** The note that is delivered last tells whether the barrier was answered or refused. */
  lemma AnswerIsLast(y: System)
    requires SentOk(y) && y.delivered < |y.sent| && y.sent[y.delivered] != FlowError
    ensures y.sent[y.delivered] == BarrierAnswer <==> BarrierAnswer in y.sent
  {
    var last := y.sent[|y.sent| - 1];
    assert y.barrier == Answered;
    assert y.sent == FlowNotes(y) + [last] && y.sent[y.delivered] == last;
    assert last in y.sent;
    forall note | note in y.sent ensures note == FlowError || note == last {
      var i :| 0 <= i < |y.sent| && y.sent[i] == note;
    }
  }

  lemma DeliveryIsHandled(cfg: Config, y: System, move: Move)
    requires CanMove(cfg, y, move) && move.Deliver?
    ensures y.delivered < |y.sent| && move.task !in y.core.tasks
    ensures Moved(cfg, y, move).core == HandleMessage(y.core, MessageOf(cfg, y.sent[y.delivered]), true, move.task)
  {
    MovedCore(cfg, y, move);
    hide Moved, MessageOf, HandleMessage;
  }

  lemma FlowArrives(cfg: Config, y: System, move: Move)
    requires cfg.Valid() && Inv(y.core) && CanMove(cfg, y, move) && DeliversError(y, move)
    requires Tracks(y.core, cfg.flow, FLOW_MOD, cfg.flowXid) && y.core.txns[cfg.flow].slot.Empty?
    ensures var core := Moved(cfg, y, move).core;
            Tracks(core, cfg.flow, FLOW_MOD, cfg.flowXid) && core.txns[cfg.flow].slot.Stored?
  {
    NoteKeys(cfg, y.sent[y.delivered]);
    DeliveryIsHandled(cfg, y, move);
    assert cfg.FlowKey() == KeyOf(FLOW_MOD, cfg.flowXid);
    hide Config.Valid, Inv, CanMove, Moved, KeyOf, KeyFor, MessageOf, Tracks, HandleMessage, Config.FlowKey;
    ArrivalStores(y.core, MessageOf(cfg, y.sent[y.delivered]), move.task, cfg.flow, FLOW_MOD, cfg.flowXid);
  }

  lemma FlowRegisters(cfg: Config, y: System, move: Move)
    requires Inv(y.core) && CanMove(cfg, y, move) && move.SendFlow?
    ensures var core := Moved(cfg, y, move).core;
            Tracks(core, cfg.flow, FLOW_MOD, cfg.flowXid) && core.txns[cfg.flow].slot.Empty?
  {
    MovedCore(cfg, y, move);
    hide Inv, Moved, Tracks, RegisterRequest, ValidClass;
    RegistrationTracks(y.core, cfg.flow, FLOW_MOD, cfg.flowXid);
  }

  lemma FlowNeutral(cfg: Config, y: System, move: Move)
    requires cfg.Valid() && Inv(y.core) && CanMove(cfg, y, move) && !DeliversError(y, move) && Active(y.pc)
    requires Tracks(y.core, cfg.flow, FLOW_MOD, cfg.flowXid)
    ensures var core := Moved(cfg, y, move).core;
            && Tracks(core, cfg.flow, FLOW_MOD, cfg.flowXid)
            && (core.txns[cfg.flow].slot.Stored? <==> y.core.txns[cfg.flow].slot.Stored?)
  {
    NeutralForFlow(cfg, y, move);
    hide Config.Valid, Inv, Moved, CanMove, CoreStep, Tracks, NeutralMove, KeyOf;
    NeutralMoveTracks(cfg, y, move, cfg.flow, FLOW_MOD, cfg.flowXid);
  }

  lemma FlowKept(cfg: Config, y: System, move: Move)
    requires cfg.Valid() && SystemInv(cfg, y) && CanMove(cfg, y, move)
    ensures FlowInStep(cfg, Moved(cfg, y, move))
  {
    assert FlowInStep(cfg, y) && Inv(y.core);
    Counts(cfg, y, move);
    Progress(cfg, y, move);
    hide Config.Valid, SystemInv, Inv, SentOk, ChannelOk, CanMove, Moved, Tracks, DeliversError, ErrorDelivered;
    if move.SendFlow? {
      FlowRegisters(cfg, y, move);
    } else if FlowStarted(y.pc) {
      if DeliversError(y, move) {
        FlowArrives(cfg, y, move);
      } else {
        FlowNeutral(cfg, y, move);
      }
    }
  }

  lemma BarrierArrives(cfg: Config, y: System, move: Move)
    requires cfg.Valid() && Inv(y.core) && SentOk(y) && CanMove(cfg, y, move) && DeliversAnswer(y, move)
    requires Tracks(y.core, cfg.barrier, BarrierRequest, cfg.barrierXid) && y.core.txns[cfg.barrier].slot.Empty?
    ensures var y' := Moved(cfg, y, move);
            && Tracks(y'.core, cfg.barrier, BarrierRequest, cfg.barrierXid)
            && y'.core.txns[cfg.barrier].slot.Stored?
            && (y'.core.txns[cfg.barrier].slot.response.Reply? <==> BarrierAnswer in y'.sent)
  {
    AnswerIsLast(y);
    assert ResponseFor(MessageOf(cfg, y.sent[y.delivered])).Reply? <==> BarrierAnswer in y.sent;
    assert Moved(cfg, y, move).sent == y.sent by { DeliverySendsNothing(cfg, y, move); }
    NoteKeys(cfg, y.sent[y.delivered]);
    DeliveryIsHandled(cfg, y, move);
    assert cfg.BarrierKey() == KeyOf(BarrierRequest, cfg.barrierXid);
    hide Config.Valid, Inv, CanMove, Moved, KeyOf, KeyFor, MessageOf, Tracks, HandleMessage, Config.BarrierKey, SentOk,
      ResponseFor;
    ArrivalStores(y.core, MessageOf(cfg, y.sent[y.delivered]), move.task, cfg.barrier, BarrierRequest, cfg.barrierXid);
  }

  lemma DeliverySendsNothing(cfg: Config, y: System, move: Move)
    requires CanMove(cfg, y, move) && move.Deliver?
    ensures Moved(cfg, y, move).sent == y.sent
  {
    hide CoreStep, Enabled, OurKeysNotReused, Apply, NotOurs, IsReply;
  }

  lemma BarrierRegisters(cfg: Config, y: System, move: Move)
    requires Inv(y.core) && CanMove(cfg, y, move) && move.SendBarrier?
    ensures var core := Moved(cfg, y, move).core;
            Tracks(core, cfg.barrier, BarrierRequest, cfg.barrierXid) && core.txns[cfg.barrier].slot.Empty?
  {
    MovedCore(cfg, y, move);
    hide Inv, Moved, Tracks, RegisterRequest, ValidClass;
    RegistrationTracks(y.core, cfg.barrier, BarrierRequest, cfg.barrierXid);
  }

  lemma BarrierNeutral(cfg: Config, y: System, move: Move)
    requires cfg.Valid() && Inv(y.core) && CanMove(cfg, y, move) && !DeliversAnswer(y, move) && Active(y.pc)
    requires Tracks(y.core, cfg.barrier, BarrierRequest, cfg.barrierXid)
    ensures var core := Moved(cfg, y, move).core;
            && Tracks(core, cfg.barrier, BarrierRequest, cfg.barrierXid)
            && SameMessage(y.core.txns[cfg.barrier].slot, core.txns[cfg.barrier].slot)
  {
    NeutralForBarrier(cfg, y, move);
    hide Config.Valid, Inv, Moved, CanMove, CoreStep, Tracks, NeutralMove, KeyOf;
    NeutralMoveTracks(cfg, y, move, cfg.barrier, BarrierRequest, cfg.barrierXid);
  }

  lemma BarrierKept(cfg: Config, y: System, move: Move)
    requires cfg.Valid() && SystemInv(cfg, y) && CanMove(cfg, y, move)
    ensures BarrierInStep(cfg, Moved(cfg, y, move))
  {
    assert BarrierInStep(cfg, y) && Inv(y.core);
    Counts(cfg, y, move);
    Progress(cfg, y, move);
    if AnswerDelivered(y) { NothingMoreIsSent(cfg, y, move); }
    hide Config.Valid, SystemInv, Inv, SentOk, ChannelOk, CanMove, Moved, Tracks, DeliversAnswer, AnswerDelivered;
    if move.SendBarrier? {
      BarrierRegisters(cfg, y, move);
    } else if BarrierStarted(y.pc) {
      if DeliversAnswer(y, move) {
        BarrierArrives(cfg, y, move);
      } else {
        BarrierNeutral(cfg, y, move);
      }
    }
  }

  lemma OnlyWaitKept(cfg: Config, y: System, move: Move)
    requires cfg.Valid() && SystemInv(cfg, y) && CanMove(cfg, y, move) && Active(y.pc)
    ensures var core := Moved(cfg, y, move).core;
            && OnlyWait(core.waits, cfg.flow, cfg.flowWait)
            && WaitsStay(y.core.waits, core.waits)
  {
    var step := CoreStep(cfg, y, move);
    if step.Some? {
      OnlyWaitStep(y.core, step.value, cfg.flowWait, cfg.flow);
    }
    hide Inv, Apply, Enabled, OurKeysNotReused, Settled;
  }

  lemma StillAwaiting(cfg: Config, y: System, move: Move)
    requires CanMove(cfg, y, move) && Moved(cfg, y, move).pc == AwaitingFlow && !move.AwaitFlow?
    ensures y.pc == AwaitingFlow
  {
    hide CoreStep, Enabled, OurKeysNotReused, Apply, NotOurs, IsReply;
  }

  lemma SettledKept(cfg: Config, y: System, move: Move)
    requires cfg.Valid() && SystemInv(cfg, y) && CanMove(cfg, y, move)
    requires Moved(cfg, y, move).pc == AwaitingFlow
    ensures AwaitsFlow(cfg, Moved(cfg, y, move).core)
  {
    assert WaitsInStep(cfg, y) && FlowInStep(cfg, y) && Inv(y.core);
    var step := CoreStep(cfg, y, move);
    MovedCore(cfg, y, move);
    if move.AwaitFlow? {
      hide SystemInv, Moved, Settled, AsyncWait, FlowInStep, WaitsInStep, Inv;
      ReceiveSettles(y.core, cfg.flowWait, cfg.flow);
    } else {
      StillAwaiting(cfg, y, move);
      hide Config.Valid, Moved, Settled, Inv, Apply, NeutralFor;
      if step.Some? {
        // everything the switch had to say has been delivered by now
        assert !move.Deliver?;
        NeutralForFlow(cfg, y, move);
        assert step.value.Receive? ==> step.value.id != cfg.flow;
        hide SystemInv, CanMove, CoreStep, Tracks;
        SettledStep(y.core, step.value, cfg.flowWait, cfg.flow, FLOW_MOD, cfg.flowXid);
      }
    }
  }

  /** The barrier wait ends with a reply only when everything has been delivered. */
  lemma ReplyMeansDelivered(cfg: Config, y: System, at: nat)
    requires SystemInv(cfg, y) && CanMove(cfg, y, BarrierDone(at)) && IsReply(y.core.completions[at].1)
    ensures AnswerDelivered(y) && BarrierAnswer in y.sent
  {
    assert CompletionOk(y.core.completions[at], y.core.waits, y.core.txns);
    assert WaitsInStep(cfg, y) && BarrierInStep(cfg, y);
    hide SystemInv, Inv, FlowInStep, ResultInStep, SentOk, ChannelOk, AnswerDelivered;
  }

  lemma PcPastBarrier(cfg: Config, y: System, move: Move)
    requires CanMove(cfg, y, move) && PastBarrier(Moved(cfg, y, move).pc) && !PastBarrier(y.pc)
    ensures move.BarrierDone? && IsReply(y.core.completions[move.at].1)
  {
    hide Enabled, OurKeysNotReused, Apply, NotOurs, IsReply;
  }

  /** Past the barrier nothing is left to be sent or delivered. */
  lemma PastBarrierKept(cfg: Config, y: System, move: Move)
    requires cfg.Valid() && SystemInv(cfg, y) && CanMove(cfg, y, move)
    requires PastBarrier(Moved(cfg, y, move).pc)
    ensures AnswerDelivered(Moved(cfg, y, move)) && BarrierAnswer in Moved(cfg, y, move).sent
  {
    Counts(cfg, y, move);
    assert WaitsInStep(cfg, y);
    if AnswerDelivered(y) { NothingMoreIsSent(cfg, y, move); }
    if !PastBarrier(y.pc) {
      PcPastBarrier(cfg, y, move);
      hide SystemInv, Moved, AnswerDelivered, DeliversAnswer;
      ReplyMeansDelivered(cfg, y, move.at);
      NothingMoreIsSent(cfg, y, move);
    }
    hide SystemInv, CanMove, Moved, AnswerDelivered, DeliversAnswer, OnlyWait, AwaitsFlow, AwaitsBarrier;
  }

  lemma BarrierWaitKept(cfg: Config, y: System, move: Move)
    requires cfg.Valid() && SystemInv(cfg, y) && CanMove(cfg, y, move)
    requires Moved(cfg, y, move).pc == AwaitingBarrier
    ensures AwaitsBarrier(cfg, Moved(cfg, y, move).core.waits)
  {
    if !move.AwaitBarrier? {
      assert WaitsInStep(cfg, y);
      OnlyWaitKept(cfg, y, move);
      hide SystemInv, Enabled, Apply, CoreStep, OurKeysNotReused, OnlyWait, Settled;
    } else {
      hide SystemInv, OurKeysNotReused, TakenFrom, AfterTaking, CancelTimer;
    }
  }

  lemma WaitsInStepKept(cfg: Config, y: System, move: Move)
    requires cfg.Valid() && SystemInv(cfg, y) && CanMove(cfg, y, move)
    ensures WaitsInStep(cfg, Moved(cfg, y, move))
  {
    var y' := Moved(cfg, y, move);
    assert Active(y'.pc) ==> Active(y.pc) by { Progress(cfg, y, move); }
    hide Config.Valid, SystemInv, CanMove, Moved, OnlyWait, AwaitsBarrier, AwaitsFlow, AnswerDelivered, WaitsStay;
    if Active(y'.pc) {
      OnlyWaitKept(cfg, y, move);
    }
    if y'.pc == AwaitingBarrier {
      BarrierWaitKept(cfg, y, move);
    }
    if PastBarrier(y'.pc) {
      PastBarrierKept(cfg, y, move);
    }
    if y'.pc == AwaitingFlow {
      SettledKept(cfg, y, move);
    }
  }

  /** The zero-timeout wait ends with a message just if the flow_add was rejected, and is never cut short. */
  lemma FlowResultIsRight(cfg: Config, y: System, at: nat)
    requires SystemInv(cfg, y) && CanMove(cfg, y, FlowDone(at))
    ensures var result := y.core.completions[at].1;
            Decided(y.flow) && result != NoMessage(true) && (result.Delivered? <==> y.flow == Rejected)
  {
    assert Settled(y.core, cfg.flowWait, cfg.flow);
    assert AnswerDelivered(y) && FlowInStep(cfg, y) && SentOk(y);
    hide SystemInv, Inv, Tracks, ChannelOk, BarrierInStep, WaitsInStep, ResultInStep;
  }

  lemma ResultKept(cfg: Config, y: System, move: Move)
    requires cfg.Valid() && SystemInv(cfg, y) && CanMove(cfg, y, move)
    ensures ResultInStep(Moved(cfg, y, move))
  {
    assert ResultInStep(y) && ChannelOk(y) && WaitsInStep(cfg, y) && SentOk(y);
    hide SystemInv, Config.Valid, OnlyWait, AwaitsFlow, AwaitsBarrier;
    if move.FlowDone? {
      FlowResultIsRight(cfg, y, move.at);
    }
    if AnswerDelivered(y) { NothingMoreIsSent(cfg, y, move); }
    hide SentOk, AnswerDelivered, Apply, Enabled, OurKeysNotReused, CoreStep, NotOurs, IsReply;
  }

  lemma MoveKeeps(cfg: Config, y: System, move: Move)
    requires cfg.Valid() && SystemInv(cfg, y) && CanMove(cfg, y, move)
    ensures SystemInv(cfg, Moved(cfg, y, move))
  {
    CoreKept(cfg, y, move);
    SentKept(cfg, y, move);
    ChannelKept(cfg, y, move);
    FlowKept(cfg, y, move);
    BarrierKept(cfg, y, move);
    WaitsInStepKept(cfg, y, move);
    ResultKept(cfg, y, move);
  }

  lemma {:induction false} PlayKeeps(cfg: Config, y: System, moves: seq<Move>)
    requires cfg.Valid() && SystemInv(cfg, y) && LegalMoves(cfg, y, moves)
    ensures SystemInv(cfg, Play(cfg, y, moves))
    decreases |moves|
  {
    if moves != [] {
      MoveKeeps(cfg, y, moves[0]);
      PlayKeeps(cfg, Moved(cfg, y, moves[0]), moves[1..]);
    }
  }

  lemma BeginKeeps(cfg: Config)
    ensures SystemInv(cfg, BEGIN)
  {
    InitKeeps();
  }

  /**
   * In every interleaving: the client sends its packet_out only if no write has failed, the switch
   * accepted the flow_add, so that no error for it was or will be sent, and the switch answered the
   * barrier and did not refuse it; and whenever the zero-timeout wait returns, it returns a message
   * just if the switch has sent an error for the flow_add.
   */
  lemma PacketOutOnlyWithoutError(cfg: Config, moves: seq<Move>)
    requires cfg.Valid() && LegalMoves(cfg, BEGIN, moves)
    ensures var y := Play(cfg, BEGIN, moves);
            && (y.packetOut ==>
                  && !y.failed && y.flow == Accepted && FlowError !in y.sent
                  && BarrierAnswer in y.sent && BarrierError !in y.sent && y.delivered == |y.sent|)
            && (y.flowResult.Some? ==> (y.flowResult.value.Delivered? <==> FlowError in y.sent))
  {
    BeginKeeps(cfg);
    PlayKeeps(cfg, BEGIN, moves);
    SentMeansRejected(Play(cfg, BEGIN, moves));
    hide Play, Inv, FlowInStep, BarrierInStep, WaitsInStep, ChannelOk, SentOk;
  }

  lemma SentMeansRejected(y: System)
    requires SentOk(y)
    ensures FlowError in y.sent <==> y.flow == Rejected
    ensures BarrierAnswer in y.sent ==> BarrierError !in y.sent
  {
  }
}
