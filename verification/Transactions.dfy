/**
 * The transaction decorator as a step system. A step is one piece of work that nothing else can
 * interleave with: a handler run by the channel's strand, a critical section of the registry's
 * mutex, the expiry of a timer, or the release of the last reference to a transaction. Any
 * number of transactions and waits may be under way, and the steps may come in any order.
 */
module Transactions {
  import opened Bytes
  import opened Common
  import opened TransactionKeys

  datatype Response = Reply(kind: ReplyClass, body: nat) | Error(body: nat)

  /**
   * What is stored in a transaction. A message that has been moved out keeps its kind, so a
   * slot once stored stays stored; taker is the wait that moved the contents out.
   */
  datatype Slot = Empty | Stored(response: Response, taker: Option<nat>)

  /** held: someone outside the waits and tasks below still has a shared pointer to it. */
  datatype Txn = Txn(
    kind: RequestClass, xid: int, held: bool, destroyed: bool, extracted: bool, slot: Slot, sets: nat)
  {
    function Key(): int { KeyOf(kind, xid) }
  }

  /** What a receive handler is called with; intact is false when the message was already moved from. */
  datatype Result = Delivered(response: Response, intact: bool) | NoMessage(aborted: bool)

  /**
   * Requested: the wait is still a functor posted to the strand. Armed: it waits on the timer.
   * Queued: its timer handler is queued, with success or operation_aborted. Bound: its handler
   * is queued together with the message.
   */
  datatype Phase = Requested | Armed | Queued(aborted: bool) | Bound(result: Result) | Completed

  datatype Wait = Wait(txn: nat, phase: Phase)

  /** A message from the switch, as far as the decorator looks at it. */
  datatype Incoming = ReplyIn(kind: ReplyClass, xid: int, body: nat) | ErrorIn(data: seq<Byte>, body: nat)

  /** Where an incoming message went: to a transaction, or to the next decorator. */
  datatype Route = ToTransaction(msg: Incoming, txn: nat) | Forwarded(msg: Incoming)

  datatype Task = Task(txn: nat, response: Response)

  datatype State = State(
    registry: map<int, nat>,
    txns: map<nat, Txn>,
    waits: map<nat, Wait>,
    tasks: map<nat, Task>,
    routes: seq<Route>,
    completions: seq<(nat, Result)>)

  const INIT := State(map[], map[], map[], map[], [], [])

  // -------------------------------------------------------------------------------------
  // The operations
  // -------------------------------------------------------------------------------------

  /** Create a transaction; emplace leaves an entry that is already there. */
  function RegisterRequest(s: State, id: nat, c: RequestClass, xid: int): State {
    var txn := Txn(c, xid, true, false, false, Empty, 0);
    s.(registry := if txn.Key() in s.registry then s.registry else s.registry[txn.Key() := id],
       txns := s.txns[id := txn])
  }

  /** The destructor takes the transaction's key out of the registry unless a message was stored. */
  function Destruct(s: State, id: nat): State
    requires id in s.txns
  {
    var txn := s.txns[id];
    s.(registry := if txn.slot.Stored? then s.registry else s.registry - {txn.Key()},
       txns := s.txns[id := txn.(destroyed := true)])
  }

  /** Cancelling a transaction's timer queues its armed waits with operation_aborted. */
  function CancelTimer(waits: map<nat, Wait>, id: nat): map<nat, Wait> {
    map w | w in waits :: if waits[w].txn == id && waits[w].phase.Armed? then waits[w].(phase := Queued(true)) else waits[w]
  }

  function ExpireTimer(waits: map<nat, Wait>, id: nat): map<nat, Wait> {
    map w | w in waits :: if waits[w].txn == id && waits[w].phase.Armed? then waits[w].(phase := Queued(false)) else waits[w]
  }

  /** Construct the message in the transaction's storage and cancel its timer. */
  function SetMessage(s: State, id: nat, response: Response): State
    requires id in s.txns
  {
    var txn := s.txns[id];
    s.(txns := s.txns[id := txn.(slot := Stored(response, None), sets := txn.sets + 1)],
       waits := CancelTimer(s.waits, id))
  }

  /** What moving the message out of a stored slot yields. */
  function TakenFrom(slot: Slot): Result
    requires slot.Stored?
  {
    Delivered(slot.response, slot.taker.None?)
  }

  function AfterTaking(slot: Slot, w: nat): Slot
    requires slot.Stored?
  {
    if slot.taker.None? then slot.(taker := Some(w)) else slot
  }

  /** Start waiting: hand over a stored message, or re-arm the timer, which aborts an earlier wait. */
  function AsyncWait(s: State, w: nat, id: nat): State
    requires id in s.txns
  {
    var txn := s.txns[id];
    if txn.slot.Stored? then
      s.(txns := s.txns[id := txn.(slot := AfterTaking(txn.slot, w))],
         waits := s.waits[w := Wait(id, Bound(TakenFrom(txn.slot)))])
    else
      s.(waits := CancelTimer(s.waits, id)[w := Wait(id, Armed)])
  }

  function Complete(s: State, w: nat, result: Result): State
    requires w in s.waits
  {
    s.(waits := s.waits[w := s.waits[w].(phase := Completed)], completions := s.completions + [(w, result)])
  }

  /** The timer's handler: the message if there is one by now, else the timer's error code. */
  function RunWaitHandler(s: State, w: nat, aborted: bool): State
    requires w in s.waits && s.waits[w].txn in s.txns
  {
    var id := s.waits[w].txn;
    var txn := s.txns[id];
    if txn.slot.Stored? then
      Complete(s.(txns := s.txns[id := txn.(slot := AfterTaking(txn.slot, w))]), w, TakenFrom(txn.slot))
    else Complete(s, w, NoMessage(aborted))
  }

  /** A wait still queued or armed, and a set task, own a reference to their transaction. */
  predicate HasReference(s: State, id: nat)
    requires id in s.txns
  {
    || s.txns[id].held
    || (exists w :: w in s.waits && s.waits[w].txn == id && Pending(s.waits[w]))
    || (exists k :: k in s.tasks && s.tasks[k].txn == id)
  }

  function KeyFor(msg: Incoming): Option<int> {
    match msg
    case ReplyIn(kind, xid, _) => Some(KeyOf(RequestOf(kind), xid))
    case ErrorIn(data, _) => ErrorKey(data)
  }

  function ResponseFor(msg: Incoming): Response {
    match msg
    case ReplyIn(kind, _, body) => Reply(kind, body)
    case ErrorIn(_, body) => Error(body)
  }

  /** The transaction an extraction returns: the registered one, if its weak pointer can be locked. */
  function Extracted(s: State, key: Option<int>): Option<nat> {
    if key.Some? && key.value in s.registry && s.registry[key.value] in s.txns
       && HasReference(s, s.registry[key.value])
    then Some(s.registry[key.value]) else None
  }

  /** The entry is erased whether or not the pointer can be locked. */
  function AfterExtraction(s: State, key: Option<int>): State {
    if key.Some? && key.value in s.registry then
      var id := s.registry[key.value];
      s.(registry := s.registry - {key.value},
         txns := if id in s.txns then s.txns[id := s.txns[id].(extracted := true)] else s.txns)
    else s
  }

  /** Handle a message: set it at once on the strand, post a task otherwise, or forward it. */
  function HandleMessage(s: State, msg: Incoming, onStrand: bool, task: nat): State {
    var s' := AfterExtraction(s, KeyFor(msg));
    match Extracted(s, KeyFor(msg))
    case Some(id) =>
      var s'' := s'.(routes := s'.routes + [ToTransaction(msg, id)]);
      if onStrand then SetMessage(s'', id, ResponseFor(msg))
      else s''.(tasks := s''.tasks[task := Task(id, ResponseFor(msg))])
    case None => s'.(routes := s'.routes + [Forwarded(msg)])
  }

  // -------------------------------------------------------------------------------------
  // Steps and runs
  // -------------------------------------------------------------------------------------

  datatype Step =
    | Register(id: nat, kind: RequestClass, xid: int)
    | Drop(id: nat)
    | Destroy(id: nat)
    | Receive(wait: nat, id: nat, onStrand: bool)
    | StartWait(wait: nat)
    | TimerExpires(id: nat)
    | RunWait(wait: nat)
    | RunBound(wait: nat)
    | Arrive(msg: Incoming, onStrand: bool, task: nat)
    | RunSet(task: nat)

  ghost predicate ValidIncoming(msg: Incoming) {
    msg.ReplyIn? ==> ValidXid(msg.xid)
  }

  ghost predicate Enabled(s: State, step: Step) {
    match step
    case Register(id, c, xid) => id !in s.txns && ValidClass(c) && ValidXid(xid)
    case Drop(id) => id in s.txns && s.txns[id].held
    case Destroy(id) => id in s.txns && !s.txns[id].destroyed && !HasReference(s, id)
    case Receive(w, id, _) => w !in s.waits && id in s.txns && s.txns[id].held
    case StartWait(w) => w in s.waits && s.waits[w].phase.Requested? && s.waits[w].txn in s.txns
    case TimerExpires(id) => id in s.txns
    case RunWait(w) => w in s.waits && s.waits[w].phase.Queued? && s.waits[w].txn in s.txns
    case RunBound(w) => w in s.waits && s.waits[w].phase.Bound?
    case Arrive(msg, _, task) => ValidIncoming(msg) && task !in s.tasks
    case RunSet(task) => task in s.tasks && s.tasks[task].txn in s.txns
  }

  ghost function Apply(s: State, step: Step): State
    requires Enabled(s, step)
  {
    match step
    case Register(id, c, xid) => RegisterRequest(s, id, c, xid)
    case Drop(id) => s.(txns := s.txns[id := s.txns[id].(held := false)])
    case Destroy(id) => Destruct(s, id)
    case Receive(w, id, onStrand) =>
      if onStrand then AsyncWait(s, w, id) else s.(waits := s.waits[w := Wait(id, Requested)])
    case StartWait(w) => AsyncWait(s, w, s.waits[w].txn)
    case TimerExpires(id) => s.(waits := ExpireTimer(s.waits, id))
    case RunWait(w) => RunWaitHandler(s, w, s.waits[w].phase.aborted)
    case RunBound(w) => Complete(s, w, s.waits[w].phase.result)
    case Arrive(msg, onStrand, task) => HandleMessage(s, msg, onStrand, task)
    case RunSet(task) => SetMessage(s.(tasks := s.tasks - {task}), s.tasks[task].txn, s.tasks[task].response)
  }

  ghost predicate Legal(s: State, steps: seq<Step>)
    decreases |steps|
  {
    steps == [] || (Enabled(s, steps[0]) && Legal(Apply(s, steps[0]), steps[1..]))
  }

  ghost function Run(s: State, steps: seq<Step>): State
    requires Legal(s, steps)
    decreases |steps|
  {
    if steps == [] then s else Run(Apply(s, steps[0]), steps[1..])
  }

  // -------------------------------------------------------------------------------------
  // What every step keeps
  // -------------------------------------------------------------------------------------

  /** A stored response is one the transaction's message type has room for. */
  ghost predicate Fits(response: Response, c: RequestClass) {
    response.Reply? ==> RequestOf(response.kind) == c
  }

  ghost predicate Unanswered(txn: Txn) {
    !txn.extracted && txn.slot.Empty? && txn.sets == 0
  }

  ghost predicate TxnOk(txn: Txn) {
    && ValidClass(txn.kind) && ValidXid(txn.xid)
    && (txn.held ==> !txn.destroyed)
    && (txn.slot.Empty? <==> txn.sets == 0)
    && txn.sets <= 1
    && (txn.slot.Stored? ==> txn.extracted && Fits(txn.slot.response, txn.kind))
  }

  ghost predicate TxnsOk(txns: map<nat, Txn>) {
    forall id :: id in txns ==> TxnOk(txns[id])
  }

  ghost predicate EntryOk(k: int, id: nat, txns: map<nat, Txn>) {
    id in txns && !txns[id].destroyed && txns[id].Key() == k && Unanswered(txns[id])
  }

  ghost predicate RegistryOk(registry: map<int, nat>, txns: map<nat, Txn>) {
    forall k :: k in registry ==> EntryOk(k, registry[k], txns)
  }

  /** A posted task will set an extracted transaction that is still empty, and still there. */
  ghost predicate TaskOk(task: Task, txns: map<nat, Txn>) {
    && task.txn in txns
    && var txn := txns[task.txn];
       txn.extracted && txn.slot.Empty? && !txn.destroyed && Fits(task.response, txn.kind)
  }

  ghost predicate TasksOk(tasks: map<nat, Task>, txns: map<nat, Txn>) {
    forall k :: k in tasks ==> TaskOk(tasks[k], txns)
  }

  ghost predicate OneTaskEach(tasks: map<nat, Task>) {
    forall k, l :: k in tasks && l in tasks && tasks[k].txn == tasks[l].txn ==> k == l
  }

  /** What wait w was given agrees with the slot it came from. */
  ghost predicate ResultOk(w: nat, result: Result, slot: Slot) {
    if result.Delivered? then
      && slot.Stored? && result.response == slot.response
      && slot.taker.Some? && (result.intact <==> slot.taker.value == w)
    else slot.Stored? ==> slot.taker != Some(w)
  }

  /** An armed wait's transaction has no message; a pending wait's transaction is still there. */
  ghost predicate WaitOk(w: nat, wait: Wait, txns: map<nat, Txn>) {
    && wait.txn in txns
    && var txn := txns[wait.txn];
       && (wait.phase.Armed? ==> txn.slot.Empty?)
       && (wait.phase.Bound? ==> wait.phase.result.Delivered? && ResultOk(w, wait.phase.result, txn.slot))
       && (Pending(wait) ==> !txn.destroyed && (txn.slot.Stored? ==> txn.slot.taker != Some(w)))
  }

  /** Not handed a result yet: such a wait owns a reference to its transaction. */
  predicate Pending(wait: Wait) {
    !wait.phase.Bound? && !wait.phase.Completed?
  }

  ghost predicate WaitsOk(waits: map<nat, Wait>, txns: map<nat, Txn>) {
    forall w :: w in waits ==> WaitOk(w, waits[w], txns)
  }

  ghost predicate OneArmedEach(waits: map<nat, Wait>) {
    forall v, w :: v in waits && w in waits && waits[v].txn == waits[w].txn && waits[v].phase.Armed? && waits[w].phase.Armed?
      ==> v == w
  }

  ghost predicate TakersKnown(waits: map<nat, Wait>, txns: map<nat, Txn>) {
    forall id :: id in txns && txns[id].slot.Stored? && txns[id].slot.taker.Some? ==> txns[id].slot.taker.value in waits
  }

  /** A completion is of a completed wait, and agrees with what its transaction holds. */
  ghost predicate CompletionOk(done: (nat, Result), waits: map<nat, Wait>, txns: map<nat, Txn>) {
    && done.0 in waits && waits[done.0].phase.Completed? && waits[done.0].txn in txns
    && ResultOk(done.0, done.1, txns[waits[done.0].txn].slot)
  }

  ghost predicate CompletionsOk(log: seq<(nat, Result)>, waits: map<nat, Wait>, txns: map<nat, Txn>) {
    forall i :: 0 <= i < |log| ==> CompletionOk(log[i], waits, txns)
  }

  ghost predicate CompletedOnce(log: seq<(nat, Result)>) {
    forall i, j :: 0 <= i < j < |log| ==> log[i].0 != log[j].0
  }

  ghost predicate Logged(w: nat, log: seq<(nat, Result)>) {
    exists i :: 0 <= i < |log| && log[i].0 == w
  }

  ghost predicate AllLogged(log: seq<(nat, Result)>, waits: map<nat, Wait>) {
    forall w :: w in waits && waits[w].phase.Completed? ==> Logged(w, log)
  }

  ghost predicate Inv(s: State) {
    && TxnsOk(s.txns)
    && RegistryOk(s.registry, s.txns)
    && TasksOk(s.tasks, s.txns) && OneTaskEach(s.tasks)
    && WaitsOk(s.waits, s.txns) && OneArmedEach(s.waits) && TakersKnown(s.waits, s.txns)
    && CompletionsOk(s.completions, s.waits, s.txns)
    && CompletedOnce(s.completions) && AllLogged(s.completions, s.waits)
  }

  lemma InitKeeps()
    ensures Inv(INIT)
  {
  }

  // How maps may change without disturbing the rest

  /** Transactions keep their slots and their presence; only other attributes change. */
  ghost predicate SameSlots(txns: map<nat, Txn>, txns': map<nat, Txn>) {
    forall id :: id in txns ==>
      id in txns' && txns'[id].slot == txns[id].slot && (txns'[id].destroyed ==> txns[id].destroyed)
  }

  lemma WaitsKept(waits: map<nat, Wait>, txns: map<nat, Txn>, txns': map<nat, Txn>)
    requires WaitsOk(waits, txns) && SameSlots(txns, txns')
    ensures WaitsOk(waits, txns')
  {
    forall w | w in waits ensures WaitOk(w, waits[w], txns') {
      assert WaitOk(w, waits[w], txns);
    }
  }

  /** Slots only go from empty to stored, or have their contents taken by w, if there is one. */
  ghost predicate SlotsAdvance(txns: map<nat, Txn>, txns': map<nat, Txn>, w: Option<nat>) {
    forall id :: id in txns ==> id in txns' && SlotAdvances(txns[id].slot, txns'[id].slot, w)
  }

  ghost predicate SlotAdvances(slot: Slot, slot': Slot, w: Option<nat>) {
    || slot' == slot
    || (slot.Stored? && w.Some? && slot' == AfterTaking(slot, w.value))
    || (slot.Empty? && slot'.Stored? && slot'.taker.None?)
  }

  /** Completed waits stay as they are, and no others become completed. */
  ghost predicate SameCompleted(waits: map<nat, Wait>, waits': map<nat, Wait>) {
    && (forall v :: v in waits && waits[v].phase.Completed? ==> v in waits' && waits'[v] == waits[v])
    && (forall v :: v in waits' && waits'[v].phase.Completed? ==> v in waits && waits[v].phase.Completed?)
  }

  lemma LogKept(log: seq<(nat, Result)>, waits: map<nat, Wait>, txns: map<nat, Txn>,
                waits': map<nat, Wait>, txns': map<nat, Txn>, w: Option<nat>)
    requires CompletionsOk(log, waits, txns) && AllLogged(log, waits)
    requires SameCompleted(waits, waits') && SlotsAdvance(txns, txns', w)
    requires w.Some? && w.value in waits ==> !waits[w.value].phase.Completed?
    ensures CompletionsOk(log, waits', txns') && AllLogged(log, waits')
  {
    forall i | 0 <= i < |log| ensures CompletionOk(log[i], waits', txns') {
      assert CompletionOk(log[i], waits, txns);
    }
  }

  /** A change of transactions alone that keeps all slots keeps everything said about waits and the log. */
  lemma SlotsUntouched(s: State, s': State)
    requires Inv(s) && s'.waits == s.waits && s'.completions == s.completions
    requires SameSlots(s.txns, s'.txns)
    requires TakersKnown(s.waits, s'.txns)
    ensures WaitsOk(s'.waits, s'.txns) && CompletionsOk(s'.completions, s'.waits, s'.txns)
  {
    WaitsKept(s.waits, s.txns, s'.txns);
    LogKept(s.completions, s.waits, s.txns, s'.waits, s'.txns, None);
  }

  lemma RegisterKeeps(s: State, id: nat, c: RequestClass, xid: int)
    requires Inv(s) && id !in s.txns && ValidClass(c) && ValidXid(xid)
    ensures Inv(RegisterRequest(s, id, c, xid))
  {
    var s' := RegisterRequest(s, id, c, xid);
    SlotsUntouched(s, s');
    hide WaitsOk, CompletionsOk, OneArmedEach, AllLogged, CompletedOnce;
    forall k | k in s'.registry ensures EntryOk(k, s'.registry[k], s'.txns) {
      assert k in s.registry ==> EntryOk(k, s.registry[k], s.txns);
    }
    forall k | k in s.tasks ensures TaskOk(s.tasks[k], s'.txns) {
      assert TaskOk(s.tasks[k], s.txns);
    }
  }

  lemma DropKeeps(s: State, id: nat)
    requires Inv(s) && id in s.txns
    ensures Inv(s.(txns := s.txns[id := s.txns[id].(held := false)]))
  {
    var s' := s.(txns := s.txns[id := s.txns[id].(held := false)]);
    SlotsUntouched(s, s');
    hide WaitsOk, CompletionsOk, OneArmedEach, AllLogged, CompletedOnce;
    forall k | k in s'.registry ensures EntryOk(k, s'.registry[k], s'.txns) {
      assert EntryOk(k, s.registry[k], s.txns);
    }
    forall k | k in s.tasks ensures TaskOk(s.tasks[k], s'.txns) {
      assert TaskOk(s.tasks[k], s.txns);
    }
  }

  /** Destruction leaves alone what is said of tasks and of other entries. */
  lemma DestructKeepsRegistry(s: State, id: nat)
    requires TxnsOk(s.txns) && RegistryOk(s.registry, s.txns) && TasksOk(s.tasks, s.txns)
    requires id in s.txns && !HasReference(s, id)
    ensures var s' := Destruct(s, id);
            TxnsOk(s'.txns) && RegistryOk(s'.registry, s'.txns) && TasksOk(s'.tasks, s'.txns)
  {
    hide KeyOf, Fits;
    var s' := Destruct(s, id);
    forall k | k in s'.registry ensures EntryOk(k, s'.registry[k], s'.txns) {
      assert EntryOk(k, s.registry[k], s.txns);
    }
    forall k | k in s.tasks ensures TaskOk(s.tasks[k], s'.txns) {
      assert TaskOk(s.tasks[k], s.txns);
    }
  }

  lemma DestructKeeps(s: State, id: nat)
    requires Inv(s) && id in s.txns && !HasReference(s, id)
    ensures Inv(Destruct(s, id))
  {
    var s' := Destruct(s, id);
    DestructKeepsRegistry(s, id);
    forall w | w in s.waits ensures WaitOk(w, s.waits[w], s'.txns) {
      assert WaitOk(w, s.waits[w], s.txns);
    }
    hide RegistryOk, TasksOk, TxnsOk, OneArmedEach, AllLogged, CompletedOnce, CompletionsOk, KeyOf;
    LogKept(s.completions, s.waits, s.txns, s'.waits, s'.txns, None);
  }

  lemma TimerExpiresKeeps(s: State, id: nat)
    requires Inv(s) && id in s.txns
    ensures Inv(s.(waits := ExpireTimer(s.waits, id)))
  {
    var s' := s.(waits := ExpireTimer(s.waits, id));
    forall w | w in s'.waits ensures WaitOk(w, s'.waits[w], s.txns) {
      assert WaitOk(w, s.waits[w], s.txns);
    }
    LogKept(s.completions, s.waits, s.txns, s'.waits, s.txns, None);
  }

  /** A transaction that is neither registered nor about to be set may change within its own rules. */
  lemma OthersKept(s: State, id: nat, txn: Txn)
    requires TxnsOk(s.txns) && RegistryOk(s.registry, s.txns) && TasksOk(s.tasks, s.txns)
    requires id in s.txns && s.txns[id].extracted && TxnOk(txn)
    requires forall k :: k in s.tasks ==> s.tasks[k].txn != id
    ensures var txns := s.txns[id := txn];
            TxnsOk(txns) && RegistryOk(s.registry, txns) && TasksOk(s.tasks, txns)
  {
    var txns := s.txns[id := txn];
    forall k | k in s.registry ensures EntryOk(k, s.registry[k], txns) {
      assert EntryOk(k, s.registry[k], s.txns);
    }
    forall k | k in s.tasks ensures TaskOk(s.tasks[k], txns) {
      assert TaskOk(s.tasks[k], s.txns);
    }
  }

  lemma CancelKeeps(waits: map<nat, Wait>, txns: map<nat, Txn>, id: nat)
    requires WaitsOk(waits, txns) && OneArmedEach(waits) && TakersKnown(waits, txns)
    ensures var waits' := CancelTimer(waits, id);
            && WaitsOk(waits', txns) && OneArmedEach(waits') && TakersKnown(waits', txns)
            && SameCompleted(waits, waits')
            && NoneArmed(waits', id)
  {
    var waits' := CancelTimer(waits, id);
    forall w | w in waits' ensures WaitOk(w, waits'[w], txns) {
      assert WaitOk(w, waits[w], txns);
    }
  }

  ghost predicate NoneArmed(waits: map<nat, Wait>, id: nat) {
    forall w :: w in waits && waits[w].txn == id ==> !waits[w].phase.Armed?
  }

  /** With no wait armed on it, a transaction can be given its message. */
  lemma StoreKeepsWaits(waits: map<nat, Wait>, txns: map<nat, Txn>, id: nat, txn: Txn)
    requires WaitsOk(waits, txns) && TakersKnown(waits, txns) && NoneArmed(waits, id)
    requires id in txns && txns[id].slot.Empty? && txn.slot.Stored? && txn.slot.taker.None?
    requires txn.destroyed ==> txns[id].destroyed
    ensures WaitsOk(waits, txns[id := txn]) && TakersKnown(waits, txns[id := txn])
  {
    forall w | w in waits ensures WaitOk(w, waits[w], txns[id := txn]) {
      assert WaitOk(w, waits[w], txns);
    }
  }

  lemma SetMessageKeeps(s: State, id: nat, response: Response)
    requires Inv(s) && id in s.txns
    requires s.txns[id].extracted && s.txns[id].slot.Empty? && Fits(response, s.txns[id].kind)
    requires forall k :: k in s.tasks ==> s.tasks[k].txn != id
    ensures Inv(SetMessage(s, id, response))
  {
    var txn := s.txns[id];
    assert TxnOk(txn);
    var txn' := txn.(slot := Stored(response, None), sets := txn.sets + 1);
    assert TxnOk(txn');
    hide TxnOk, Fits, TxnsOk, RegistryOk, TasksOk, WaitsOk, OneArmedEach, TakersKnown, CompletionsOk, AllLogged,
      CompletedOnce, CancelTimer, SameCompleted, NoneArmed;
    OthersKept(s, id, txn');
    CancelKeeps(s.waits, s.txns, id);
    var waits' := CancelTimer(s.waits, id);
    StoreKeepsWaits(waits', s.txns, id, txn');
    LogKept(s.completions, s.waits, s.txns, waits', s.txns[id := txn'], None);
  }

  /** Taking a message out of its slot, for wait w. */
  function TakeMessage(s: State, id: nat, w: nat): State
    requires id in s.txns && s.txns[id].slot.Stored?
  {
    s.(txns := s.txns[id := s.txns[id].(slot := AfterTaking(s.txns[id].slot, w))])
  }

  lemma TakeKeepsWaits(waits: map<nat, Wait>, txns: map<nat, Txn>, id: nat, w: nat)
    requires WaitsOk(waits, txns) && id in txns && txns[id].slot.Stored?
    requires w in waits ==> Pending(waits[w]) && waits[w].txn == id
    ensures var slot := AfterTaking(txns[id].slot, w);
            var txns' := txns[id := txns[id].(slot := slot)];
            && (forall v :: v in waits && v != w ==> WaitOk(v, waits[v], txns'))
  {
    var txns' := txns[id := txns[id].(slot := AfterTaking(txns[id].slot, w))];
    forall v | v in waits && v != w ensures WaitOk(v, waits[v], txns') {
      assert WaitOk(v, waits[v], txns);
    }
  }

  /** All but what concerns w itself survives w's taking a message. */
  lemma TakeMessageKeeps(s: State, id: nat, w: nat)
    requires Inv(s) && id in s.txns && s.txns[id].slot.Stored?
    requires w in s.waits ==> Pending(s.waits[w]) && s.waits[w].txn == id
    requires w !in s.waits ==> s.txns[id].slot.taker != Some(w)
    ensures var s' := TakeMessage(s, id, w);
            && TxnsOk(s'.txns) && RegistryOk(s'.registry, s'.txns) && TasksOk(s'.tasks, s'.txns)
            && CompletionsOk(s'.completions, s'.waits, s'.txns)
            && (forall v :: v in s'.waits && v != w ==> WaitOk(v, s'.waits[v], s'.txns))
            && ResultOk(w, TakenFrom(s.txns[id].slot), s'.txns[id].slot)
  {
    var s' := TakeMessage(s, id, w);
    assert w in s.waits ==> WaitOk(w, s.waits[w], s.txns);
    assert TxnOk(s.txns[id]);
    forall k | k in s.tasks ensures s.tasks[k].txn != id {
      assert TaskOk(s.tasks[k], s.txns);
    }
    OthersKept(s, id, s'.txns[id]);
    TakeKeepsWaits(s.waits, s.txns, id, w);
    hide WaitsOk, RegistryOk, TasksOk, TxnsOk, OneArmedEach, TakersKnown, CompletionsOk, AllLogged, WaitOk;
    LogKept(s.completions, s.waits, s.txns, s'.waits, s'.txns, Some(w));
  }

  lemma BindKeepsWaits(waits: map<nat, Wait>, txns: map<nat, Txn>, id: nat, w: nat, result: Result)
    requires forall v :: v in waits && v != w ==> WaitOk(v, waits[v], txns)
    requires OneArmedEach(waits) && id in txns && result.Delivered? && ResultOk(w, result, txns[id].slot)
    ensures var waits' := waits[w := Wait(id, Bound(result))];
            WaitsOk(waits', txns) && OneArmedEach(waits')
  {
    var waits' := waits[w := Wait(id, Bound(result))];
    forall v | v in waits' ensures WaitOk(v, waits'[v], txns) {
      if v != w {
        assert WaitOk(v, waits[v], txns);
      }
    }
  }

  lemma TakerIsKnown(waits: map<nat, Wait>, txns: map<nat, Txn>, id: nat, w: nat)
    requires TakersKnown(waits, txns) && id in txns && txns[id].slot.Stored?
    ensures var slot := txns[id].slot;
            TakersKnown(waits[w := Wait(id, Bound(TakenFrom(slot)))], txns[id := txns[id].(slot := AfterTaking(slot, w))])
  {
  }

  lemma AsyncWaitBindKeeps(s: State, w: nat, id: nat)
    requires Inv(s) && id in s.txns && s.txns[id].slot.Stored?
    requires w in s.waits ==> s.waits[w] == Wait(id, Requested)
    ensures Inv(AsyncWait(s, w, id))
  {
    var s1, s' := TakeMessage(s, id, w), AsyncWait(s, w, id);
    TakeMessageKeeps(s, id, w);
    TakerIsKnown(s.waits, s.txns, id, w);
    hide WaitsOk, RegistryOk, TasksOk, TxnsOk, OneArmedEach, CompletionsOk, AllLogged, WaitOk, TakersKnown, OneTaskEach,
      CompletedOnce, ResultOk;
    BindKeepsWaits(s1.waits, s1.txns, id, w, TakenFrom(s.txns[id].slot));
    LogKept(s.completions, s.waits, s1.txns, s'.waits, s1.txns, None);
  }

  lemma ArmKeepsWaits(waits: map<nat, Wait>, txns: map<nat, Txn>, id: nat, w: nat)
    requires WaitsOk(waits, txns) && OneArmedEach(waits) && NoneArmed(waits, id)
    requires id in txns && txns[id].slot.Empty? && !txns[id].destroyed
    ensures var waits' := waits[w := Wait(id, Armed)];
            WaitsOk(waits', txns) && OneArmedEach(waits')
  {
    var waits' := waits[w := Wait(id, Armed)];
    forall v | v in waits' ensures WaitOk(v, waits'[v], txns) {
      assert v != w ==> WaitOk(v, waits[v], txns);
    }
  }

  lemma AsyncWaitArmKeeps(s: State, w: nat, id: nat)
    requires Inv(s) && id in s.txns && s.txns[id].slot.Empty? && !s.txns[id].destroyed
    requires w in s.waits ==> s.waits[w] == Wait(id, Requested)
    ensures Inv(AsyncWait(s, w, id))
  {
    var s' := AsyncWait(s, w, id);
    hide WaitsOk, RegistryOk, TasksOk, TxnsOk, OneArmedEach, TakersKnown, CompletionsOk, AllLogged, WaitOk, NoneArmed;
    CancelKeeps(s.waits, s.txns, id);
    var cancelled := CancelTimer(s.waits, id);
    ArmKeepsWaits(cancelled, s.txns, id, w);
    TakersStayKnown(cancelled, s.txns, w, Wait(id, Armed));
    ArmCompletesNothing(s.waits, w, id);
    LogKept(s.completions, s.waits, s.txns, s'.waits, s'.txns, None);
  }

  lemma TakersStayKnown(waits: map<nat, Wait>, txns: map<nat, Txn>, w: nat, wait: Wait)
    requires TakersKnown(waits, txns)
    ensures TakersKnown(waits[w := wait], txns)
  {
  }

  lemma ArmCompletesNothing(waits: map<nat, Wait>, w: nat, id: nat)
    requires w in waits ==> waits[w] == Wait(id, Requested)
    ensures SameCompleted(waits, CancelTimer(waits, id)[w := Wait(id, Armed)])
  {
  }

  lemma AsyncWaitKeeps(s: State, w: nat, id: nat)
    requires Inv(s) && id in s.txns
    requires w in s.waits ==> s.waits[w] == Wait(id, Requested)
    requires w !in s.waits ==> s.txns[id].held
    ensures Inv(AsyncWait(s, w, id))
  {
    if s.txns[id].slot.Stored? {
      AsyncWaitBindKeeps(s, w, id);
    } else {
      assert w in s.waits ==> WaitOk(w, s.waits[w], s.txns);
      assert TxnOk(s.txns[id]);
      AsyncWaitArmKeeps(s, w, id);
    }
  }

  lemma LogGrows(log: seq<(nat, Result)>, waits: map<nat, Wait>, txns: map<nat, Txn>, w: nat, result: Result)
    requires CompletionsOk(log, waits, txns) && CompletedOnce(log) && AllLogged(log, waits)
    requires w in waits && !waits[w].phase.Completed? && waits[w].txn in txns
    requires ResultOk(w, result, txns[waits[w].txn].slot)
    ensures var log', waits' := log + [(w, result)], waits[w := waits[w].(phase := Completed)];
            CompletionsOk(log', waits', txns) && CompletedOnce(log') && AllLogged(log', waits')
  {
    var log', waits' := log + [(w, result)], waits[w := waits[w].(phase := Completed)];
    forall i | 0 <= i < |log'| ensures CompletionOk(log'[i], waits', txns) {
      if i < |log| { assert CompletionOk(log[i], waits, txns); }
    }
    forall i | 0 <= i < |log| ensures log[i].0 != w {
      assert CompletionOk(log[i], waits, txns);
    }
    forall v | v in waits' && waits'[v].phase.Completed? ensures Logged(v, log') {
      if v == w {
        assert log'[|log|].0 == w;
      } else {
        assert Logged(v, log);
        var i :| 0 <= i < |log| && log[i].0 == v;
        assert log'[i].0 == v;
      }
    }
  }

  lemma CompleteKeeps(s: State, w: nat, result: Result)
    requires w in s.waits && !s.waits[w].phase.Completed? && s.waits[w].txn in s.txns
    requires TxnsOk(s.txns) && RegistryOk(s.registry, s.txns) && TasksOk(s.tasks, s.txns) && OneTaskEach(s.tasks)
    requires forall v :: v in s.waits && v != w ==> WaitOk(v, s.waits[v], s.txns)
    requires OneArmedEach(s.waits) && TakersKnown(s.waits, s.txns)
    requires CompletionsOk(s.completions, s.waits, s.txns) && CompletedOnce(s.completions)
    requires AllLogged(s.completions, s.waits)
    requires ResultOk(w, result, s.txns[s.waits[w].txn].slot)
    ensures Inv(Complete(s, w, result))
  {
    LogGrows(s.completions, s.waits, s.txns, w, result);
    var s' := Complete(s, w, result);
    hide CompletionsOk, RegistryOk, TasksOk, TxnsOk, AllLogged, CompletedOnce;
    forall v | v in s'.waits ensures WaitOk(v, s'.waits[v], s'.txns) {
      if v != w { assert WaitOk(v, s.waits[v], s.txns); }
    }
  }

  lemma RunWaitKeeps(s: State, w: nat)
    requires Inv(s) && w in s.waits && s.waits[w].phase.Queued?
    requires s.waits[w].txn in s.txns
    ensures Inv(RunWaitHandler(s, w, s.waits[w].phase.aborted))
  {
    assert WaitOk(w, s.waits[w], s.txns);
    var id := s.waits[w].txn;
    if s.txns[id].slot.Stored? {
      TakeMessageKeeps(s, id, w);
      hide CompletionsOk, RegistryOk, TasksOk, TxnsOk, AllLogged, CompletedOnce, WaitOk, ResultOk;
      CompleteKeeps(TakeMessage(s, id, w), w, TakenFrom(s.txns[id].slot));
    } else {
      CompleteKeeps(s, w, NoMessage(s.waits[w].phase.aborted));
    }
  }

  lemma RunBoundKeeps(s: State, w: nat)
    requires Inv(s) && w in s.waits && s.waits[w].phase.Bound?
    ensures Inv(Complete(s, w, s.waits[w].phase.result))
  {
    assert WaitOk(w, s.waits[w], s.txns);
    CompleteKeeps(s, w, s.waits[w].phase.result);
  }

  lemma ExtractionKeeps(s: State, key: Option<int>)
    requires Inv(s)
    ensures Inv(AfterExtraction(s, key))
  {
    var s' := AfterExtraction(s, key);
    if key.Some? && key.value in s.registry {
      assert EntryOk(key.value, s.registry[key.value], s.txns);
      SlotsUntouched(s, s');
      hide WaitsOk, CompletionsOk, OneArmedEach, AllLogged, CompletedOnce;
      forall k | k in s'.registry ensures EntryOk(k, s'.registry[k], s'.txns) {
        assert EntryOk(k, s.registry[k], s.txns);
      }
      forall k | k in s.tasks ensures TaskOk(s.tasks[k], s'.txns) {
        assert TaskOk(s.tasks[k], s.txns);
      }
    }
  }

  /**
   * Downcast and storage safety of an arrival: the transaction found for a message is still
   * there, has never been set, has no set task, and is of the class the reply answers.
   */
  lemma ExtractedFits(s: State, msg: Incoming)
    requires Inv(s) && ValidIncoming(msg)
    ensures var found := Extracted(s, KeyFor(msg));
            found.Some? ==>
              && found.value in s.txns
              && Unanswered(s.txns[found.value]) && !s.txns[found.value].destroyed
              && Fits(ResponseFor(msg), s.txns[found.value].kind)
              && forall k :: k in s.tasks ==> s.tasks[k].txn != found.value
  {
    var key := KeyFor(msg);
    var found := Extracted(s, key);
    if found.Some? {
      var id := found.value;
      var txn := s.txns[id];
      assert EntryOk(key.value, id, s.txns);
      assert TxnOk(txn);
      if msg.ReplyIn? {
        KeyDeterminesClass(msg.kind, msg.xid, txn.kind, txn.xid);
      }
      assert forall k :: k in s.tasks ==> TaskOk(s.tasks[k], s.txns);
      assert forall w :: w in s.waits ==> WaitOk(w, s.waits[w], s.txns);
    }
  }

  /** Handling a message for which a transaction has been extracted: set it, or post a task to set it. */
  lemma FoundKeeps(s: State, id: nat, response: Response, onStrand: bool, task: nat)
    requires Inv(s) && id in s.txns && task !in s.tasks
    requires s.txns[id].extracted && s.txns[id].slot.Empty? && !s.txns[id].destroyed
    requires Fits(response, s.txns[id].kind)
    requires forall k :: k in s.tasks ==> s.tasks[k].txn != id
    ensures Inv(if onStrand then SetMessage(s, id, response) else s.(tasks := s.tasks[task := Task(id, response)]))
  {
    if onStrand {
      SetMessageKeeps(s, id, response);
    } else {
      hide WaitsOk, RegistryOk, TxnsOk, OneArmedEach, TakersKnown, CompletionsOk, CompletedOnce, AllLogged, Fits;
      forall k | k in s.tasks ensures TaskOk(s.tasks[k], s.txns) {
      }
    }
  }

  lemma RoutesDoNotMatter(s: State, routes: seq<Route>)
    requires Inv(s)
    ensures Inv(s.(routes := routes))
  {
  }

  lemma HandleMessageKeeps(s: State, msg: Incoming, onStrand: bool, task: nat)
    requires Inv(s) && ValidIncoming(msg) && task !in s.tasks
    ensures Inv(HandleMessage(s, msg, onStrand, task))
  {
    ExtractionKeeps(s, KeyFor(msg));
    ExtractedFits(s, msg);
    hide Inv, KeyFor, ResponseFor, Fits, HasReference, SetMessage;
    var s1 := AfterExtraction(s, KeyFor(msg));
    match Extracted(s, KeyFor(msg)) {
      case Some(id) =>
        RoutesDoNotMatter(s1, s1.routes + [ToTransaction(msg, id)]);
        FoundKeeps(s1.(routes := s1.routes + [ToTransaction(msg, id)]), id, ResponseFor(msg), onStrand, task);
      case None =>
        RoutesDoNotMatter(s1, s1.routes + [Forwarded(msg)]);
    }
  }

  lemma RunSetKeeps(s: State, task: nat)
    requires Inv(s) && task in s.tasks
    ensures s.tasks[task].txn in s.txns
    ensures Inv(SetMessage(s.(tasks := s.tasks - {task}), s.tasks[task].txn, s.tasks[task].response))
  {
    assert TaskOk(s.tasks[task], s.txns);
    SetMessageKeeps(s.(tasks := s.tasks - {task}), s.tasks[task].txn, s.tasks[task].response);
  }

  lemma RequestedKeeps(s: State, w: nat, id: nat)
    requires Inv(s) && w !in s.waits && id in s.txns && s.txns[id].held
    ensures Inv(s.(waits := s.waits[w := Wait(id, Requested)]))
  {
    var s' := s.(waits := s.waits[w := Wait(id, Requested)]);
    forall v | v in s'.waits ensures WaitOk(v, s'.waits[v], s'.txns) {
      if v != w { assert WaitOk(v, s.waits[v], s.txns); } else { assert TxnOk(s.txns[id]); }
    }
    LogKept(s.completions, s.waits, s.txns, s'.waits, s'.txns, None);
  }

  lemma StepKeeps(s: State, step: Step)
    requires Inv(s) && Enabled(s, step)
    ensures Inv(Apply(s, step))
  {
    hide Inv, Destruct, RegisterRequest, AsyncWait, HandleMessage, RunWaitHandler, Complete, ExpireTimer;
    match step
    case Register(id, c, xid) => RegisterKeeps(s, id, c, xid);
    case Drop(id) => DropKeeps(s, id);
    case Destroy(id) => DestructKeeps(s, id);
    case Receive(w, id, onStrand) =>
      if onStrand { AsyncWaitKeeps(s, w, id); } else { RequestedKeeps(s, w, id); }
    case StartWait(w) => AsyncWaitKeeps(s, w, s.waits[w].txn);
    case TimerExpires(id) => TimerExpiresKeeps(s, id);
    case RunWait(w) => RunWaitKeeps(s, w);
    case RunBound(w) => RunBoundKeeps(s, w);
    case Arrive(msg, onStrand, task) => HandleMessageKeeps(s, msg, onStrand, task);
    case RunSet(task) => RunSetKeeps(s, task);
  }

  lemma {:induction false} RunKeeps(s: State, steps: seq<Step>)
    requires Inv(s) && Legal(s, steps)
    ensures Inv(Run(s, steps))
    decreases |steps|
  {
    if steps != [] {
      StepKeeps(s, steps[0]);
      RunKeeps(Apply(s, steps[0]), steps[1..]);
    }
  }
}
